/** Sequences without repetition, and removal of one item. */
module Sequences {

  predicate Distinct<T(==)>(s: seq<T>) {
    forall i, j :: 0 <= i < j < |s| ==> s[i] != s[j]
  }

  function Without<T>(s: seq<T>, k: nat): seq<T>
    requires k < |s|
  {
    s[..k] + s[k + 1..]
  }

  lemma DropOne<T>(s: seq<T>, n: nat)
    requires Distinct(s) && n < |s|
    ensures Distinct(Without(s, n))
    ensures forall m :: 0 <= m < |s| - 1 ==> Without(s, n)[m] == s[if m < n then m else m + 1]
    ensures forall x :: x in s ==> x == s[n] || x in Without(s, n)
  {
    var r := Without(s, n);
    forall x | x in s && x != s[n] ensures x in r {
      var i :| 0 <= i < |s| && s[i] == x;
      assert r[if i < n then i else i - 1] == x;
    }
  }
}
