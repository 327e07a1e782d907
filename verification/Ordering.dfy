/** Sorting by a pair of numbers, with no two items sharing a key: Python's `sorted(..., key=...)`. */
module Ordering {

  type Key = (int, int)

  predicate Below(a: Key, b: Key) {
    a.0 < b.0 || (a.0 == b.0 && a.1 < b.1)
  }

  ghost function Elements<T>(s: seq<T>): set<T> {
    set x | x in s
  }

  ghost predicate Ordered<T>(s: seq<T>, key: T -> Key) {
    forall i, j :: 0 <= i < j < |s| ==> Below(key(s[i]), key(s[j]))
  }

  ghost predicate DistinctKeys<T(!new)>(items: set<T>, key: T -> Key) {
    forall a, b :: a in items && b in items && key(a) == key(b) ==> a == b
  }

  predicate IsLeast<T(==)>(least: T, items: set<T>, key: T -> Key) {
    least in items && forall d | d in items :: d == least || Below(key(least), key(d))
  }

  lemma HasLeast<T(!new)>(items: set<T>, key: T -> Key)
    requires items != {} && DistinctKeys(items, key)
    ensures exists d :: IsLeast(d, items, key)
  {
    var d :| d in items;
    var rest := items - {d};
    if rest == {} {
      assert items == {d};
      assert IsLeast(d, items, key);
    } else {
      HasLeast(rest, key);
      var least :| IsLeast(least, rest, key);
      if Below(key(least), key(d)) {
        assert IsLeast(least, items, key);
      } else {
        assert key(d) != key(least);
        assert forall e :: e in items ==> e == d || e == least || Below(key(least), key(e));
        assert IsLeast(d, items, key);
      }
    }
  }

  /** The items in the order of their keys. */
  ghost function InOrder<T(!new)>(items: set<T>, key: T -> Key): (s: seq<T>)
    requires DistinctKeys(items, key)
    ensures Ordered(s, key) && Elements(s) == items
  {
    if items == {} then []
    else
      HasLeast(items, key);
      var least :| IsLeast(least, items, key);
      var rest := InOrder(items - {least}, key);
      assert forall i :: 0 <= i < |rest| ==> rest[i] in Elements(rest);
      assert Elements([least] + rest) == {least} + Elements(rest);
      [least] + rest
  }

  lemma NonemptyHasElement<T>(s: seq<T>)
    requires s != []
    ensures Elements(s) != Elements([])
  {
    assert s[0] in Elements(s);
  }

  /** An ordered sequence is determined by its elements. */
  lemma {:induction false} OrderedIsUnique<T>(a: seq<T>, b: seq<T>, key: T -> Key)
    requires Ordered(a, key) && Ordered(b, key) && Elements(a) == Elements(b)
    ensures a == b
  {
    if a == [] {
      if b != [] {
        NonemptyHasElement(b);
      }
    } else if b == [] {
      NonemptyHasElement(a);
    } else {
      assert a[0] in Elements(b) && b[0] in Elements(a);
      assert a[0] == b[0];
      forall x ensures x in Elements(a[1..]) <==> x in Elements(b[1..]) {
        if x in a[1..] { assert x in Elements(b) && x != b[0]; }
        if x in b[1..] { assert x in Elements(a) && x != a[0]; }
      }
      OrderedIsUnique(a[1..], b[1..], key);
    }
  }

  method Sort<T(==, !new)>(items: set<T>, key: T -> Key) returns (sorted: seq<T>)
    requires DistinctKeys(items, key)
    ensures sorted == InOrder(items, key)
  {
    sorted := [];
    var rest := items;
    while rest != {}
      invariant rest <= items
      invariant Ordered(sorted, key) && Elements(sorted) + rest == items
      invariant forall i, d :: 0 <= i < |sorted| && d in rest ==> Below(key(sorted[i]), key(d))
      decreases rest
    {
      HasLeast(rest, key);
      var least :| least in rest && IsLeast(least, rest, key);
      sorted := sorted + [least];
      rest := rest - {least};
    }
    OrderedIsUnique(sorted, InOrder(items, key), key);
  }
}
