/** The read-only product catalog, passed to every operation as a parameter. */
module Catalog {
  import opened Wrappers
  import opened Seqs
  import opened Domain

  predicate Contains(catalog: seq<Product>, id: string)
  {
    exists k :: 0 <= k < |catalog| && catalog[k].id == id
  }

  /** Resolves a product id to the first catalog entry carrying it. */
  function Lookup(catalog: seq<Product>, id: string): (r: Option<Product>)
    ensures r.None? <==> !Contains(catalog, id)
    ensures r.Some? ==> r.value.id == id
    ensures r.Some? ==>
      exists k :: 0 <= k < |catalog| && catalog[k] == r.value && forall j :: 0 <= j < k ==> catalog[j].id != id
  {
    Find(catalog, (p: Product) => p.id == id)
  }

  /** The shape the shipped catalog has: distinct ids and non-negative stock. */
  predicate WellFormed(catalog: seq<Product>)
  {
    && (forall i, j :: 0 <= i < j < |catalog| ==> catalog[i].id != catalog[j].id)
    && (forall i :: 0 <= i < |catalog| ==> 0 <= catalog[i].stock)
  }

  /** In a well-formed catalog every entry is the one its id resolves to. */
  lemma LookupEntry(catalog: seq<Product>, k: int)
    requires WellFormed(catalog)
    requires 0 <= k < |catalog|
    ensures Lookup(catalog, catalog[k].id) == Some(catalog[k])
  {
  }
}
