/** Facts about finite collections, and the sort that the scripts rely on. */
module Collections {

  lemma {:induction false} SubsetCardinality<T>(a: set<T>, b: set<T>)
    requires a <= b
    ensures |a| <= |b|
    decreases a
  {
    if a != {} {
      var x :| x in a;
      SubsetCardinality(a - {x}, b - {x});
    }
  }

  lemma RemoveCount<K, V>(m: map<K, V>, k: K)
    requires k in m
    ensures |m - {k}| == |m| - 1
  {
    assert m.Keys == (m - {k}).Keys + {k};
    assert |m.Keys| == |(m - {k}).Keys| + 1;
  }

  lemma InsertCount<K, V>(m: map<K, V>, k: K, v: V)
    ensures |m[k := v]| == |m| + if k in m then 0 else 1
  {
    assert m[k := v].Keys == m.Keys + {k};
    assert |m[k := v].Keys| == |m.Keys| + if k in m then 0 else 1;
  }

  // ---------------------------------------------------------------------------
  // Sorting
  // ---------------------------------------------------------------------------

  predicate SortedBy<T>(s: seq<T>, key: T -> real) {
    forall i, j :: 0 <= i < j < |s| ==> key(s[i]) <= key(s[j])
  }

  /** Insert after every element whose key is not greater. */
  function Insert<T>(s: seq<T>, x: T, key: T -> real): seq<T> {
    if s == [] || key(s[|s| - 1]) <= key(x) then s + [x]
    else Insert(s[..|s| - 1], x, key) + [s[|s| - 1]]
  }

  lemma {:induction false} InsertPermutes<T>(s: seq<T>, x: T, key: T -> real)
    ensures multiset(Insert(s, x, key)) == multiset(s) + multiset{x}
  {
    if s != [] && key(s[|s| - 1]) > key(x) {
      InsertPermutes(s[..|s| - 1], x, key);
      assert s == s[..|s| - 1] + [s[|s| - 1]];
    }
  }

  predicate AtMost<T>(s: seq<T>, bound: real, key: T -> real) {
    forall i :: 0 <= i < |s| ==> key(s[i]) <= bound
  }

  lemma {:induction false} InsertSorts<T>(s: seq<T>, x: T, key: T -> real, bound: real)
    requires SortedBy(s, key) && AtMost(s, bound, key) && key(x) <= bound
    ensures SortedBy(Insert(s, x, key), key) && AtMost(Insert(s, x, key), bound, key)
  {
    if s != [] && key(s[|s| - 1]) > key(x) {
      InsertSorts(s[..|s| - 1], x, key, key(s[|s| - 1]));
    }
  }

  function Bound<T>(s: seq<T>, x: T, key: T -> real): (b: real)
    ensures key(x) <= b && (SortedBy(s, key) ==> AtMost(s, b, key))
  {
    if s == [] || key(s[|s| - 1]) <= key(x) then key(x) else key(s[|s| - 1])
  }

  function Sort<T>(s: seq<T>, key: T -> real): (r: seq<T>)
    ensures SortedBy(r, key) && multiset(r) == multiset(s)
  {
    if s == [] then []
    else
      var front, last := Sort(s[..|s| - 1], key), s[|s| - 1];
      assert s == s[..|s| - 1] + [last];
      InsertPermutes(front, last, key);
      InsertSorts(front, last, key, Bound(front, last, key));
      Insert(front, last, key)
  }
}
