/** The cart engine: adding, removing and re-quantifying lines, and the badge count. */
module Cart {
  import opened Wrappers
  import opened Seqs
  import opened Domain
  import Catalog

  function Min(a: int, b: int): int { if a <= b then a else b }
  function Max(a: int, b: int): int { if a <= b then b else a }

  predicate HasLine(cart: seq<CartLine>, id: string)
  {
    exists i :: 0 <= i < |cart| && cart[i].id == id
  }

  /** `i` is the first line of `cart` for product `id`. */
  predicate IsFirstLine(cart: seq<CartLine>, id: string, i: int)
  {
    0 <= i < |cart| && cart[i].id == id && forall j :: 0 <= j < i ==> cart[j].id != id
  }

  predicate UniqueIds(cart: seq<CartLine>)
  {
    forall i, j :: 0 <= i < j < |cart| ==> cart[i].id != cart[j].id
  }

  /** Position of the first line for `id`, or -1. */
  function LineIndex(cart: seq<CartLine>, id: string): (i: int)
    ensures i == -1 <==> !HasLine(cart, id)
    ensures i != -1 ==> IsFirstLine(cart, id, i)
  {
    FirstIndex(cart, (l: CartLine) => l.id == id)
  }

  /** The stock of `id`'s product, when the id resolves in the catalog. */
  function Stock(catalog: seq<Product>, id: string): Option<int>
  {
    match Catalog.Lookup(catalog, id)
    case None => None
    case Some(p) => Some(p.stock)
  }

  /** Adds `n` units of product `id`: an unknown product is rejected; a product already
      in the cart has its line raised to at most the stock, in place; otherwise one line
      holding at most the stock is appended. No lower bound is applied to `n`. */
  function AddToCart(catalog: seq<Product>, cart: seq<CartLine>, id: string, n: int): (r: Result<seq<CartLine>, Failure>)
    ensures r.Err? <==> !Catalog.Contains(catalog, id)
    ensures r.Err? ==> r.error == ProductNotFound
    ensures r.Ok? ==> Stock(catalog, id).Some?
    ensures r.Ok? && !HasLine(cart, id) ==>
              r.value == cart + [CartLine(id, Min(n, Stock(catalog, id).value))]
    ensures r.Ok? ==> forall i :: IsFirstLine(cart, id, i) ==>
              r.value == cart[i := CartLine(id, Min(cart[i].qty + n, Stock(catalog, id).value))]
  {
    match Catalog.Lookup(catalog, id)
    case None => Err(ProductNotFound)
    case Some(p) =>
      var i := LineIndex(cart, id);
      if i >= 0 then
        var raised := cart[i].qty + n;
        Ok(cart[i := cart[i].(qty := if raised > p.stock then p.stock else raised)])
      else
        Ok(cart + [CartLine(id, Min(n, p.stock))])
  }

  /** Drops every line for `id`, keeping the others in order. */
  function RemoveFromCart(cart: seq<CartLine>, id: string): (r: seq<CartLine>)
    ensures !HasLine(r, id)
    ensures forall i :: 0 <= i < |r| ==> r[i] in cart
    ensures forall k :: 0 <= k < |cart| && cart[k].id != id ==> cart[k] in r
    ensures !HasLine(cart, id) ==> r == cart
  {
    var keep := (l: CartLine) => l.id != id;
    if !HasLine(cart, id) then
      FilterKeepsAll(cart, keep);
      cart
    else
      FilterMembers(cart, keep);
      Filter(cart, keep)
  }

  /** Sets the quantity of `id`'s line to `q`, raised to at least 1 and, when the product
      resolves, capped at its stock. A missing line leaves the cart as it is. */
  function UpdateCartQty(catalog: seq<Product>, cart: seq<CartLine>, id: string, q: int): (r: seq<CartLine>)
    ensures |r| == |cart|
    ensures !HasLine(cart, id) ==> r == cart
    ensures forall i :: IsFirstLine(cart, id, i) ==> r == cart[i := CartLine(id, r[i].qty)]
    ensures forall i :: IsFirstLine(cart, id, i) ==>
              match Stock(catalog, id)
              case None => r[i].qty == Max(1, q)
              case Some(stock) =>
                && r[i].qty <= stock
                && (1 <= stock ==> 1 <= r[i].qty)
                && (1 <= q <= stock ==> r[i].qty == q)
                && (stock < q ==> r[i].qty == stock)
                && (q < 1 ==> r[i].qty == Min(1, stock))
  {
    var i := LineIndex(cart, id);
    if i < 0 then cart
    else
      var atLeastOne := Max(1, q);
      var capped :=
        match Catalog.Lookup(catalog, id)
        case Some(p) => if atLeastOne > p.stock then p.stock else atLeastOne
        case None => atLeastOne;
      cart[i := cart[i].(qty := capped)]
  }

  /** The cart page's "-" button: one unit fewer, but never below 1. */
  function DecreaseQty(catalog: seq<Product>, cart: seq<CartLine>, id: string): (r: seq<CartLine>)
    ensures |r| == |cart|
    ensures !HasLine(cart, id) ==> r == cart
    ensures forall i :: IsFirstLine(cart, id, i) ==> r == cart[i := CartLine(id, r[i].qty)]
    ensures forall i :: IsFirstLine(cart, id, i) ==>
              && r[i].qty <= Max(1, cart[i].qty - 1)
              && match Stock(catalog, id)
                 case None => r[i].qty == Max(1, cart[i].qty - 1)
                 case Some(stock) =>
                   && r[i].qty <= stock
                   && (1 <= stock ==> 1 <= r[i].qty)
                   && (stock < 1 ==> r[i].qty == stock)
                   && (stock + 1 < cart[i].qty ==> r[i].qty == stock)
                   && (2 <= cart[i].qty <= stock + 1 ==> r[i].qty == cart[i].qty - 1)
  {
    var i := LineIndex(cart, id);
    if i < 0 then cart
    else UpdateCartQty(catalog, cart, id, Max(1, cart[i].qty - 1))
  }

  /** The stock the cart page's "+" button caps at: 99 for an unknown product. */
  function ButtonStock(catalog: seq<Product>, id: string): (stock: int)
    ensures !Catalog.Contains(catalog, id) ==> stock == 99
    ensures Catalog.Contains(catalog, id) ==> stock == Catalog.Lookup(catalog, id).value.stock
  {
    match Stock(catalog, id)
    case None => 99
    case Some(stock) => stock
  }

  /** The cart page's "+" button: one unit more, but never above the stock. */
  function IncreaseQty(catalog: seq<Product>, cart: seq<CartLine>, id: string): (r: seq<CartLine>)
    ensures |r| == |cart|
    ensures !HasLine(cart, id) ==> r == cart
    ensures forall i :: IsFirstLine(cart, id, i) ==> r == cart[i := CartLine(id, r[i].qty)]
    ensures forall i :: IsFirstLine(cart, id, i) ==>
              && r[i].qty <= Max(1, cart[i].qty + 1)
              && match Stock(catalog, id)
                 case None => r[i].qty == Max(1, Min(cart[i].qty + 1, 99))
                 case Some(stock) =>
                   && r[i].qty <= stock
                   && (1 <= stock ==> 1 <= r[i].qty)
                   && (stock < 1 ==> r[i].qty == stock)
                   && (stock <= cart[i].qty ==> r[i].qty == stock)
                   && (cart[i].qty < 0 && 1 <= stock ==> r[i].qty == 1)
                   && (0 <= cart[i].qty < stock ==> r[i].qty == cart[i].qty + 1)
  {
    var i := LineIndex(cart, id);
    if i < 0 then cart
    else UpdateCartQty(catalog, cart, id, Min(cart[i].qty + 1, ButtonStock(catalog, id)))
  }

  predicate NoNegativeLine(cart: seq<CartLine>)
  {
    forall i :: 0 <= i < |cart| ==> 0 <= cart[i].qty
  }

  /** The header badge: the sum of all line quantities. */
  function Count(cart: seq<CartLine>): (n: int)
    ensures NoNegativeLine(cart) ==> 0 <= n
  {
    if |cart| == 0 then 0 else cart[0].qty + Count(cart[1..])
  }

  lemma {:induction false} CountAppend(a: seq<CartLine>, b: seq<CartLine>)
    ensures Count(a + b) == Count(a) + Count(b)
  {
    if |a| == 0 {
      assert a + b == b;
    } else {
      assert (a + b)[1..] == a[1..] + b;
      CountAppend(a[1..], b);
    }
  }

  /** Replacing one line changes the count by the difference of the two quantities. */
  lemma {:induction false} CountReplace(cart: seq<CartLine>, i: int, l: CartLine)
    requires 0 <= i < |cart|
    ensures Count(cart[i := l]) == Count(cart) - cart[i].qty + l.qty
  {
    if i > 0 {
      assert cart[i := l][1..] == cart[1..][i - 1 := l];
      CountReplace(cart[1..], i - 1, l);
    }
  }

  /** The count after an accepted add grows by exactly what the touched line gained. */
  lemma CountAfterAdd(catalog: seq<Product>, cart: seq<CartLine>, id: string, n: int)
    requires AddToCart(catalog, cart, id, n).Ok?
    ensures var stock := Stock(catalog, id).value;
            var c := AddToCart(catalog, cart, id, n).value;
            && (!HasLine(cart, id) ==> Count(c) == Count(cart) + Min(n, stock))
            && forall i :: IsFirstLine(cart, id, i) ==>
                 Count(c) == Count(cart) - cart[i].qty + Min(cart[i].qty + n, stock)
  {
    var stock := Stock(catalog, id).value;
    if !HasLine(cart, id) {
      CountAppend(cart, [CartLine(id, Min(n, stock))]);
    } else {
      var i := LineIndex(cart, id);
      CountReplace(cart, i, CartLine(id, Min(cart[i].qty + n, stock)));
      forall j | IsFirstLine(cart, id, j)
        ensures j == i
      {
        assert !(j < i) && !(i < j);
      }
    }
  }

  /** Removing a product from a cart of distinct ids cuts out exactly its line. */
  lemma RemoveCutsLine(cart: seq<CartLine>, i: int)
    requires UniqueIds(cart)
    requires 0 <= i < |cart|
    ensures RemoveFromCart(cart, cart[i].id) == cart[..i] + cart[i + 1..]
  {
    var id := cart[i].id;
    var keep := (l: CartLine) => l.id != id;
    assert forall k :: 0 <= k < |cart| && k != i ==> keep(cart[k]) by {
      forall k | 0 <= k < |cart| && k != i
        ensures cart[k].id != id
      {
        if k < i {
          assert cart[k].id != cart[i].id;
        } else {
          assert cart[i].id != cart[k].id;
        }
      }
    }
    FilterCut(cart, i, keep);
    assert HasLine(cart, id);
  }

  lemma {:induction false} CountCut(cart: seq<CartLine>, i: int)
    requires 0 <= i < |cart|
    ensures Count(cart[..i] + cart[i + 1..]) == Count(cart) - cart[i].qty
  {
    var r := cart[..i] + cart[i + 1..];
    if i == 0 {
      assert r == cart[1..];
    } else {
      var tail := cart[1..];
      assert r[0] == cart[0];
      assert r[1..] == tail[..i - 1] + tail[i..];
      CountCut(tail, i - 1);
    }
  }

  /** Removing a product takes its quantity off the count. */
  lemma CountAfterRemove(cart: seq<CartLine>, i: int)
    requires UniqueIds(cart)
    requires 0 <= i < |cart|
    ensures Count(RemoveFromCart(cart, cart[i].id)) == Count(cart) - cart[i].qty
  {
    RemoveCutsLine(cart, i);
    CountCut(cart, i);
  }

  /** An accepted add keeps product ids distinct. */
  lemma AddKeepsUnique(catalog: seq<Product>, cart: seq<CartLine>, id: string, n: int)
    requires UniqueIds(cart)
    requires AddToCart(catalog, cart, id, n).Ok?
    ensures UniqueIds(AddToCart(catalog, cart, id, n).value)
  {
  }

  lemma CutKeepsUnique(cart: seq<CartLine>, i: int)
    requires UniqueIds(cart)
    requires 0 <= i < |cart|
    ensures UniqueIds(cart[..i] + cart[i + 1..])
  {
  }

  /** Removal keeps product ids distinct. */
  lemma RemoveKeepsUnique(cart: seq<CartLine>, id: string)
    requires UniqueIds(cart)
    ensures UniqueIds(RemoveFromCart(cart, id))
  {
    if HasLine(cart, id) {
      var i := LineIndex(cart, id);
      RemoveCutsLine(cart, i);
      CutKeepsUnique(cart, i);
    }
  }
}
