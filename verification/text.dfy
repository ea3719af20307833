/** The string normalisation applied to form input: JavaScript's
    `String.prototype.trim` and `String.prototype.toLowerCase`. */
module Text {

  /** WhiteSpace and LineTerminator code points of ECMAScript (sections 12.2 and 12.3 of ECMA-262):
      TAB, LF, VT, FF, CR, SPACE, NBSP, ZWNBSP, the other space separators, LS and PS. */
  predicate IsSpace(c: char)
  {
    var n := c as int;
    || n == 0x09 || n == 0x0A || n == 0x0B || n == 0x0C || n == 0x0D
    || n == 0x20 || n == 0xA0 || n == 0x1680
    || (0x2000 <= n <= 0x200A)
    || n == 0x2028 || n == 0x2029 || n == 0x202F || n == 0x205F
    || n == 0x3000 || n == 0xFEFF
  }

  /** Length of the leading run of white space. */
  function LeadingSpace(s: string): (i: nat)
    ensures i <= |s|
    ensures forall k :: 0 <= k < i ==> IsSpace(s[k])
    ensures i == |s| || !IsSpace(s[i])
  {
    if |s| == 0 || !IsSpace(s[0]) then 0 else 1 + LeadingSpace(s[1..])
  }

  /** Position where the trailing run of white space starts. */
  function TrailingSpace(s: string): (j: nat)
    ensures j <= |s|
    ensures forall k :: j <= k < |s| ==> IsSpace(s[k])
    ensures j == 0 || !IsSpace(s[j - 1])
  {
    if |s| == 0 || !IsSpace(s[|s| - 1]) then |s| else TrailingSpace(s[..|s| - 1])
  }

  /** `s` with its leading and trailing white space removed. */
  function Trim(s: string): (r: string)
    ensures exists i, j ::
              && 0 <= i <= j <= |s| && r == s[i..j]
              && (forall k :: 0 <= k < i ==> IsSpace(s[k]))
              && (forall k :: j <= k < |s| ==> IsSpace(s[k]))
    ensures r == [] || (!IsSpace(r[0]) && !IsSpace(r[|r| - 1]))
    ensures (forall k :: 0 <= k < |s| ==> IsSpace(s[k])) ==> r == []
  {
    var i := LeadingSpace(s);
    var t := s[i..];
    var j := TrailingSpace(t);
    assert t[..j] == s[i..i + j];
    t[..j]
  }

  predicate IsUpper(c: char)
  {
    ('A' <= c <= 'Z') || ('À' <= c <= 'Þ' && c != '×')
  }

  /** Lower-case mapping of one character (ASCII and Latin-1 letters). */
  function LowerChar(c: char): (d: char)
    ensures !IsUpper(d)
    ensures IsSpace(d) <==> IsSpace(c)
    ensures IsUpper(c) ==> d as int == c as int + 32
    ensures !IsUpper(c) ==> d == c
  {
    if IsUpper(c) then (c as int + 32) as char else c
  }

  /** `s` with every upper-case letter replaced by its lower-case form. */
  function Lower(s: string): (r: string)
    ensures |r| == |s|
    ensures forall k :: 0 <= k < |r| ==> !IsUpper(r[k])
    ensures forall k :: 0 <= k < |r| ==> (IsSpace(r[k]) <==> IsSpace(s[k]))
    ensures forall k :: 0 <= k < |s| && IsUpper(s[k]) ==> r[k] as int == s[k] as int + 32
    ensures forall k :: 0 <= k < |s| && !IsUpper(s[k]) ==> r[k] == s[k]
  {
    seq(|s|, k requires 0 <= k < |s| => LowerChar(s[k]))
  }

  /** A string already in e-mail key form: no surrounding white space, no upper case. */
  predicate IsNormalKey(e: string)
  {
    && (e == [] || (!IsSpace(e[0]) && !IsSpace(e[|e| - 1])))
    && forall k :: 0 <= k < |e| ==> !IsUpper(e[k])
  }

  /** The e-mail key: trimmed, then lower-cased. */
  function NormaliseEmail(email: string): (r: string)
    ensures r == [] <==> Trim(email) == []
    ensures IsNormalKey(r)
  {
    Lower(Trim(email))
  }

  /** A key in normal form is left as it is by normalisation. */
  lemma NormalKeyFixed(e: string)
    requires IsNormalKey(e)
    ensures NormaliseEmail(e) == e
  {
  }

  /** Trimming twice is trimming once. */
  lemma TrimIdempotent(s: string)
    ensures Trim(Trim(s)) == Trim(s)
  {
  }

  /** Lower-casing twice is lower-casing once. */
  lemma LowerIdempotent(s: string)
    ensures Lower(Lower(s)) == Lower(s)
  {
  }

  /** Two strings with the same white-space pattern have the same leading run. */
  lemma LeadingSpaceByPattern(s: string, t: string)
    requires |s| == |t|
    requires forall k :: 0 <= k < |s| ==> (IsSpace(s[k]) <==> IsSpace(t[k]))
    ensures LeadingSpace(s) == LeadingSpace(t)
  {
  }

  /** Two strings with the same white-space pattern have the same trailing run. */
  lemma TrailingSpaceByPattern(s: string, t: string)
    requires |s| == |t|
    requires forall k :: 0 <= k < |s| ==> (IsSpace(s[k]) <==> IsSpace(t[k]))
    ensures TrailingSpace(s) == TrailingSpace(t)
  {
  }

  /** Lower-casing keeps white space where it is, so it commutes with trimming. */
  lemma LowerTrimCommute(s: string)
    ensures Trim(Lower(s)) == Lower(Trim(s))
  {
    var l := Lower(s);
    var i := LeadingSpace(s);
    assert LeadingSpace(l) == i by {
      LeadingSpaceByPattern(s, l);
    }
    var t, u := s[i..], l[i..];
    assert u == Lower(t) by {
      LowerSlice(s, i, |s|);
      assert s[i..|s|] == t;
    }
    var j := TrailingSpace(t);
    assert TrailingSpace(u) == j by {
      TrailingSpaceByPattern(t, u);
    }
    assert u[..j] == Lower(t[..j]) by {
      LowerSlice(t, 0, j);
      assert t[0..j] == t[..j];
    }
  }

  lemma LowerSlice(s: string, i: int, j: int)
    requires 0 <= i <= j <= |s|
    ensures Lower(s)[i..j] == Lower(s[i..j])
  {
  }

  /** E-mail normalisation is a projection: a stored key normalises to itself. */
  lemma NormaliseIdempotent(email: string)
    ensures NormaliseEmail(NormaliseEmail(email)) == NormaliseEmail(email)
  {
  }

  /** Addresses that differ only in letter case share one e-mail key. */
  lemma NormaliseIgnoresCase(a: string, b: string)
    requires Lower(a) == Lower(b)
    ensures NormaliseEmail(a) == NormaliseEmail(b)
  {
    LowerTrimCommute(a);
    LowerTrimCommute(b);
  }
}
