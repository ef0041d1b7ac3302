/** `utilities.SortedList`: an array list kept sorted by a comparator, with stable insertion.
    Every comparator the simulator uses compares one integer computed from each element
    (`Integer.compare(key(a), key(b))`), so the model takes that integer `key` instead of a
    comparator object. Lists are values: an operation returns the new list. */
module SortedList {
  import opened Results

  /** Non-decreasing under the comparator. */
  ghost predicate Sorted<T>(s: seq<T>, key: T -> int) {
    forall i, j :: 0 <= i < j < |s| ==> key(s[i]) <= key(s[j])
  }

  /** The scan of `add`: from position `k`, step over every element comparing <= `x`. */
  function ScanFrom<T>(s: seq<T>, x: T, key: T -> int, k: nat): (i: nat)
    requires k <= |s|
    ensures k <= i <= |s|
    ensures forall j :: k <= j < i ==> key(s[j]) <= key(x)
    ensures i < |s| ==> key(x) < key(s[i])
    decreases |s| - k
  {
    if k < |s| && key(s[k]) <= key(x) then ScanFrom(s, x, key, k + 1) else k
  }

  /** Where `add` puts a new element: the first position holding an element greater than it. */
  function InsertionPoint<T>(s: seq<T>, x: T, key: T -> int): (i: nat)
    ensures i <= |s|
  {
    ScanFrom(s, x, key, 0)
  }

  /** `add(element)`: insert after every element that compares <= it, so that among
      equal elements the first added is the first returned. */
  function Add<T>(s: seq<T>, x: T, key: T -> int): (r: seq<T>)
    ensures |r| == |s| + 1
    ensures multiset(r) == multiset(s) + multiset{x}
    ensures var i := InsertionPoint(s, x, key);
      && r[i] == x
      && r[..i] == s[..i]
      && r[i + 1..] == s[i..]
      && (forall j :: 0 <= j < i ==> key(s[j]) <= key(x))
    ensures Sorted(s, key) ==> Sorted(r, key)
    ensures Sorted(s, key) ==>
      forall j :: 0 <= j < |s| && key(s[j]) <= key(x) ==> j < InsertionPoint(s, x, key)
  {
    var i := InsertionPoint(s, x, key);
    assert s == s[..i] + s[i..];
    AddKeepsSorted(s, x, key, i);
    s[..i] + [x] + s[i..]
  }

  lemma AddKeepsSorted<T>(s: seq<T>, x: T, key: T -> int, i: nat)
    requires i == InsertionPoint(s, x, key)
    ensures Sorted(s, key) ==> Sorted(s[..i] + [x] + s[i..], key)
    ensures Sorted(s, key) ==> forall j :: 0 <= j < |s| && key(s[j]) <= key(x) ==> j < i
  {
    if !Sorted(s, key) {
      return;
    }
    var r := s[..i] + [x] + s[i..];
    forall a, b | 0 <= a < b < |r|
      ensures key(r[a]) <= key(r[b])
    {
      if b < i {
        assert r[a] == s[a] && r[b] == s[b];
      } else if b == i {
        assert r[a] == s[a];
      } else if a < i {
        assert r[a] == s[a] && r[b] == s[b - 1];
        assert key(x) < key(s[i]);
      } else if a == i {
        assert r[b] == s[b - 1];
        assert key(x) < key(s[i]);
      } else {
        assert r[a] == s[a - 1] && r[b] == s[b - 1];
      }
    }
    forall j | 0 <= j < |s| && key(s[j]) <= key(x)
      ensures j < i
    {
      if i < |s| {
        assert key(x) < key(s[i]);
      }
    }
  }

  /** Adding an element no smaller than every present one appends it. */
  lemma AddOfLargestAppends<T>(s: seq<T>, x: T, key: T -> int)
    requires forall j :: 0 <= j < |s| ==> key(s[j]) <= key(x)
    ensures Add(s, x, key) == s + [x]
  {
    ScanReachesEnd(s, x, key, 0);
  }

  lemma {:induction false} ScanReachesEnd<T>(s: seq<T>, x: T, key: T -> int, k: nat)
    requires k <= |s|
    requires forall j :: 0 <= j < |s| ==> key(s[j]) <= key(x)
    ensures ScanFrom(s, x, key, k) == |s|
    decreases |s| - k
  {
    if k < |s| {
      ScanReachesEnd(s, x, key, k + 1);
    }
  }

  /** A run of `add` calls, in order. */
  function AddAll<T>(s: seq<T>, xs: seq<T>, key: T -> int): (r: seq<T>)
    ensures |r| == |s| + |xs|
    ensures multiset(r) == multiset(s) + multiset(xs)
    ensures Sorted(s, key) ==> Sorted(r, key)
    decreases |xs|
  {
    if |xs| == 0 then s
    else
      assert xs == [xs[0]] + xs[1..];
      AddAll(Add(s, xs[0], key), xs[1..], key)
  }

  /** The copy constructor: same comparator, elements re-added one by one in list order. */
  function Copy<T>(s: seq<T>, key: T -> int): (r: seq<T>)
    ensures Sorted(r, key)
    ensures multiset(r) == multiset(s)
  {
    AddAll([], s, key)
  }

  /** Copying a sorted list yields the same element sequence. */
  lemma CopyOfSortedIsIdentity<T>(s: seq<T>, key: T -> int)
    requires Sorted(s, key)
    ensures Copy(s, key) == s
  {
    AddAllOfSortedSuffix([], s, key);
  }

  lemma {:induction false} AddAllOfSortedSuffix<T>(p: seq<T>, xs: seq<T>, key: T -> int)
    requires Sorted(p + xs, key)
    ensures AddAll(p, xs, key) == p + xs
    decreases |xs|
  {
    if |xs| > 0 {
      var q := p + xs;
      forall j | 0 <= j < |p|
        ensures key(p[j]) <= key(xs[0])
      {
        assert p[j] == q[j] && xs[0] == q[|p|];
      }
      AddOfLargestAppends(p, xs[0], key);
      assert p + [xs[0]] + xs[1..] == q;
      AddAllOfSortedSuffix(p + [xs[0]], xs[1..], key);
    }
  }

  /** `ArrayList.indexOf`: the first position holding `x`, or -1. */
  function IndexOf<T(==)>(s: seq<T>, x: T): (i: int)
    ensures -1 <= i < |s|
    ensures i == -1 <==> x !in s
    ensures 0 <= i ==> s[i] == x && forall j :: 0 <= j < i ==> s[j] != x
  {
    if |s| == 0 then -1
    else if s[0] == x then 0
    else
      var k := IndexOf(s[1..], x);
      if k == -1 then -1 else k + 1
  }

  /** `remove(element)`: delete the first occurrence; no change when absent. */
  function Remove<T(==)>(s: seq<T>, x: T): (r: seq<T>)
    ensures x !in s ==> r == s
    ensures x in s ==> |r| == |s| - 1
    ensures x in s ==>
      var i := IndexOf(s, x);
      r[..i] == s[..i] && r[i..] == s[i + 1..]
    ensures multiset(r) == multiset(s) - multiset{x}
  {
    var i := IndexOf(s, x);
    if i < 0 then s
    else
      assert s == s[..i] + [x] + s[i + 1..];
      s[..i] + s[i + 1..]
  }

  /** Deleting one position keeps a sorted list sorted. */
  lemma DeleteKeepsSorted<T>(s: seq<T>, i: nat, key: T -> int)
    requires i < |s|
    requires Sorted(s, key)
    ensures Sorted(s[..i] + s[i + 1..], key)
  {
    var r := s[..i] + s[i + 1..];
    forall a, b | 0 <= a < b < |r|
      ensures key(r[a]) <= key(r[b])
    {
      var a' := if a < i then a else a + 1;
      var b' := if b < i then b else b + 1;
      assert r[a] == s[a'] && r[b] == s[b'];
    }
  }

  lemma RemoveKeepsSorted<T>(s: seq<T>, x: T, key: T -> int)
    requires Sorted(s, key)
    ensures Sorted(Remove(s, x), key)
  {
    if x in s {
      var i := IndexOf(s, x);
      assert Remove(s, x) == s[..i] + s[i + 1..];
      DeleteKeepsSorted(s, i, key);
    }
  }

  /** The iterator's state: the index of the next element to return. */
  datatype Cursor = Cursor(index: nat)

  function HasNext<T>(s: seq<T>, c: Cursor): bool {
    c.index < |s|
  }

  /** `next()`: the element at the cursor and the advanced cursor, or NoSuchElement once exhausted. */
  function Next<T>(s: seq<T>, c: Cursor): (r: Result<(T, Cursor)>)
    ensures r.Success? <==> c.index < |s|
    ensures r.Success? ==> r.value.0 == s[c.index] && r.value.1.index == c.index + 1
    ensures r.Failure? ==> r.error == NoSuchElement
  {
    if HasNext(s, c) then Success((s[c.index], Cursor(c.index + 1))) else Failure(NoSuchElement)
  }

  /** What a for-each loop sees: `next()` until `hasNext()` is false. */
  function Traverse<T>(s: seq<T>, c: Cursor): (r: seq<T>)
    requires c.index <= |s|
    ensures r == s[c.index..]
    decreases |s| - c.index
  {
    if !HasNext(s, c) then []
    else
      match Next(s, c)
      case Success((x, c')) => [x] + Traverse(s, c')
      case Failure(_) => []
  }

  /** Remove each of `xs` from `live`, in order (the loop body of a remove-while-iterating-a-copy). */
  function RemoveEach<T(==)>(live: seq<T>, xs: seq<T>): (r: seq<T>)
    decreases |xs|
  {
    if |xs| == 0 then live else RemoveEach(Remove(live, xs[0]), xs[1..])
  }

  /** Removing every element of a list, in list order, empties it. */
  lemma {:induction false} RemoveEachOfItselfEmpties<T>(s: seq<T>)
    ensures RemoveEach(s, s) == []
  {
    if |s| > 0 {
      assert IndexOf(s, s[0]) == 0;
      assert Remove(s, s[0]) == s[1..];
      RemoveEachOfItselfEmpties(s[1..]);
    }
  }

  /** Iterating a copy of a sorted list while removing each visited element from the original
      visits every element in ascending order and leaves the original empty. */
  lemma DrainThroughCopy<T>(s: seq<T>, key: T -> int)
    requires Sorted(s, key)
    ensures Traverse(Copy(s, key), Cursor(0)) == s
    ensures RemoveEach(s, Traverse(Copy(s, key), Cursor(0))) == []
  {
    CopyOfSortedIsIdentity(s, key);
    RemoveEachOfItselfEmpties(s);
  }
}
