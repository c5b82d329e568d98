/** Sequences, and stable sorting by an integer key, the meaning of the library sorts the source calls. */
module Sorting {

  lemma Assoc<T>(a: seq<T>, b: seq<T>, c: seq<T>)
    ensures (a + b) + c == a + (b + c)
  {
  }

  function Insert<T>(key: T -> int, x: T, s: seq<T>): (r: seq<T>)
    ensures |r| == |s| + 1
  {
    if s == [] || key(x) <= key(s[0]) then [x] + s else [s[0]] + Insert(key, x, s[1..])
  }

  /** Earlier elements stay in front of later ones with the same key. */
  function SortBy<T>(key: T -> int, s: seq<T>): (r: seq<T>)
    ensures |r| == |s|
  {
    if s == [] then [] else Insert(key, s[0], SortBy(key, s[1..]))
  }

  ghost predicate SortedBy<T>(key: T -> int, s: seq<T>) {
    forall i, j :: 0 <= i < j < |s| ==> key(s[i]) <= key(s[j])
  }

  /** The elements with key `k`, in order. */
  function Select<T>(key: T -> int, k: int, s: seq<T>): seq<T> {
    if s == [] then []
    else if key(s[0]) == k then [s[0]] + Select(key, k, s[1..])
    else Select(key, k, s[1..])
  }

  lemma {:induction false} InsertMultiset<T>(key: T -> int, x: T, s: seq<T>)
    ensures multiset(Insert(key, x, s)) == multiset(s) + multiset{x}
  {
    if s == [] || key(x) <= key(s[0]) {
    } else {
      InsertMultiset(key, x, s[1..]);
      assert s == [s[0]] + s[1..];
    }
  }

  lemma {:induction false} InsertBound<T>(key: T -> int, x: T, s: seq<T>, low: int)
    requires low <= key(x) && forall i :: 0 <= i < |s| ==> low <= key(s[i])
    ensures forall i :: 0 <= i < |Insert(key, x, s)| ==> low <= key(Insert(key, x, s)[i])
  {
    if s == [] || key(x) <= key(s[0]) {
    } else {
      InsertBound(key, x, s[1..], low);
    }
  }

  lemma SortedCons<T>(key: T -> int, x: T, s: seq<T>)
    requires SortedBy(key, s) && forall i :: 0 <= i < |s| ==> key(x) <= key(s[i])
    ensures SortedBy(key, [x] + s)
  {
  }

  lemma {:induction false} InsertSorted<T>(key: T -> int, x: T, s: seq<T>)
    requires SortedBy(key, s)
    ensures SortedBy(key, Insert(key, x, s))
  {
    if s == [] || key(x) <= key(s[0]) {
      SortedCons(key, x, s);
    } else {
      InsertSorted(key, x, s[1..]);
      InsertBound(key, x, s[1..], key(s[0]));
      SortedCons(key, s[0], Insert(key, x, s[1..]));
    }
  }

  lemma {:induction false} SortBySorted<T>(key: T -> int, s: seq<T>)
    ensures SortedBy(key, SortBy(key, s))
    ensures multiset(SortBy(key, s)) == multiset(s)
  {
    if s != [] {
      SortBySorted(key, s[1..]);
      InsertSorted(key, s[0], SortBy(key, s[1..]));
      InsertMultiset(key, s[0], SortBy(key, s[1..]));
      assert s == [s[0]] + s[1..];
    }
  }

  lemma SortByMembers<T>(key: T -> int, s: seq<T>)
    ensures forall x :: x in SortBy(key, s) <==> x in s
  {
    hide SortBy;
    SortBySorted(key, s);
    assert forall x :: x in SortBy(key, s) <==> x in multiset(SortBy(key, s));
    assert forall x :: x in s <==> x in multiset(s);
  }

  lemma {:induction false} SelectInsert<T>(key: T -> int, k: int, x: T, s: seq<T>)
    ensures Select(key, k, Insert(key, x, s)) == if key(x) == k then [x] + Select(key, k, s) else Select(key, k, s)
    requires SortedBy(key, s)
  {
    if s == [] || key(x) <= key(s[0]) {
      assert ([x] + s)[1..] == s;
    } else {
      SelectInsert(key, k, x, s[1..]);
      if key(x) == k {
        assert key(s[0]) != k;
      }
      assert ([s[0]] + Insert(key, x, s[1..]))[1..] == Insert(key, x, s[1..]);
    }
  }

  /** Stability: among equal keys the order is the input's. */
  lemma {:induction false} SortByStable<T>(key: T -> int, k: int, s: seq<T>)
    ensures Select(key, k, SortBy(key, s)) == Select(key, k, s)
  {
    if s != [] {
      SortByStable(key, k, s[1..]);
      SortBySorted(key, s[1..]);
      SelectInsert(key, k, s[0], SortBy(key, s[1..]));
    }
  }

  lemma {:induction false} SortedIsFixed<T>(key: T -> int, s: seq<T>)
    requires SortedBy(key, s)
    ensures SortBy(key, s) == s
  {
    if s != [] {
      SortedIsFixed(key, s[1..]);
      assert s == [s[0]] + s[1..];
    }
  }

  ghost predicate StrictlySorted<T>(key: T -> int, s: seq<T>) {
    forall i, j :: 0 <= i < j < |s| ==> key(s[i]) < key(s[j])
  }

  /** `a` is what some sort of `s` may return. */
  ghost predicate Arrangement<T>(key: T -> int, s: seq<T>, a: seq<T>) {
    multiset(a) == multiset(s) && SortedBy(key, a)
  }

  /** Elements with equal keys are equal. */
  ghost predicate KeysDecide<T>(key: T -> int, s: seq<T>) {
    forall x <- s, y <- s :: key(x) == key(y) ==> x == y
  }

  lemma SameHead<T>(key: T -> int, a: seq<T>, b: seq<T>)
    requires multiset(a) == multiset(b) && a != []
    requires SortedBy(key, a) && KeysDecide(key, a)
    requires SortedBy(key, b)
    ensures b != [] && a[0] == b[0]
  {
    assert a[0] in multiset(b);
    var j :| 0 <= j < |b| && b[j] == a[0];
    assert b[0] in multiset(a);
    var i :| 0 <= i < |a| && a[i] == b[0];
  }

  lemma TailMultiset<T>(s: seq<T>)
    requires s != []
    ensures multiset(s[1..]) == multiset(s) - multiset{s[0]}
  {
    assert s == [s[0]] + s[1..];
  }

  lemma TailSorted<T>(key: T -> int, s: seq<T>)
    requires s != []
    ensures StrictlySorted(key, s) ==> StrictlySorted(key, s[1..])
    ensures SortedBy(key, s) ==> SortedBy(key, s[1..])
  {
  }

  lemma TailsMatch<T>(a: seq<T>, b: seq<T>)
    requires a != [] && b != [] && a[0] == b[0] && multiset(a) == multiset(b)
    ensures multiset(a[1..]) == multiset(b[1..])
    ensures a[1..] == b[1..] ==> a == b
  {
    TailMultiset(a);
    TailMultiset(b);
    assert a == [a[0]] + a[1..] && b == [b[0]] + b[1..];
  }

  lemma {:induction false} SortedUnique<T>(key: T -> int, a: seq<T>, b: seq<T>)
    requires multiset(a) == multiset(b)
    requires SortedBy(key, a) && KeysDecide(key, a) && SortedBy(key, b)
    ensures a == b
  {
    hide SortedBy;
    if a == [] {
      assert |multiset(b)| == 0;
    } else {
      SameHead(key, a, b);
      TailSorted(key, a);
      TailSorted(key, b);
      TailsMatch(a, b);
      assert forall x <- a[1..] :: x in a;
      SortedUnique(key, a[1..], b[1..]);
    }
  }

  /** Two different elements with one key can change places in any sorted arrangement. */
  lemma Swapped<T>(key: T -> int, s: seq<T>, x: T, y: T) returns (other: seq<T>)
    requires SortedBy(key, s) && x in s && y in s && key(x) == key(y) && x != y
    ensures multiset(other) == multiset(s) && SortedBy(key, other) && other != s
  {
    var i :| 0 <= i < |s| && s[i] == x;
    var j :| 0 <= j < |s| && s[j] == y;
    other := s[i := y][j := x];
    assert multiset(s[i := y]) == multiset(s) - multiset{x} + multiset{y} by { hide SortedBy; }
    SwappedKeys(key, s, other);
  }

  lemma SwappedKeys<T>(key: T -> int, s: seq<T>, other: seq<T>)
    requires SortedBy(key, s) && |other| == |s| && forall i :: 0 <= i < |s| ==> key(other[i]) == key(s[i])
    ensures SortedBy(key, other)
  {
  }

  /** Every sort returns what the stable sort returns exactly when equal keys belong to equal elements. */
  lemma AnySortIff<T(!new)>(key: T -> int, s: seq<T>)
    ensures (forall a :: Arrangement(key, s, a) ==> a == SortBy(key, s)) <==> KeysDecide(key, s)
  {
    hide SortedBy;
    SortBySorted(key, s);
    var sorted := SortBy(key, s);
    assert forall x :: x in sorted <==> x in multiset(sorted);
    assert forall x :: x in s <==> x in multiset(s);
    if KeysDecide(key, s) {
      forall a | Arrangement(key, s, a)
        ensures a == sorted
      {
        SortedUnique(key, sorted, a);
      }
    } else {
      var x, y :| x in s && y in s && key(x) == key(y) && x != y;
      var other := Swapped(key, sorted, x, y);
      assert Arrangement(key, s, other);
    }
  }
}
