/** Ordering of query results and client-side lists: a stable sort, highest key first. */
module Sorting {
  import opened Seqs

  /** A sort key compared lexicographically: ORDER BY major DESC, minor DESC. */
  datatype Key = Key(major: int, minor: int)

  predicate KeyLess(a: Key, b: Key)
  {
    a.major < b.major || (a.major == b.major && a.minor < b.minor)
  }

  /** Non-increasing by key. */
  predicate SortedDesc<T>(s: seq<T>, key: T -> Key)
  {
    forall i, j :: 0 <= i < j < |s| ==> !KeyLess(key(s[i]), key(s[j]))
  }

  /** Puts x in front of the first element whose key is not above x's. */
  function InsertDesc<T>(x: T, s: seq<T>, key: T -> Key): (r: seq<T>)
    requires SortedDesc(s, key)
    ensures SortedDesc(r, key)
    ensures multiset(r) == multiset(s) + multiset{x}
    ensures forall y :: y in r ==> y in s || y == x
  {
    if s == [] || !KeyLess(key(x), key(s[0])) then
      SortedFront(x, s, key);
      [x] + s
    else
      assert s == [s[0]] + s[1..];
      var t := InsertDesc(x, s[1..], key);
      HeadIsMax(s, key);
      SortedCons(s[0], t, key);
      [s[0]] + t
  }

  /** x may go in front of a sorted sequence whose first key is not above x's. */
  lemma SortedFront<T>(x: T, s: seq<T>, key: T -> Key)
    requires SortedDesc(s, key)
    requires s == [] || !KeyLess(key(x), key(s[0]))
    ensures SortedDesc([x] + s, key)
  {
    if s != [] {
      HeadIsMax(s, key);
      assert s == [s[0]] + s[1..];
    }
    SortedCons(x, s, key);
  }

  /** A head whose key is not below any key of a sorted tail keeps the sequence sorted. */
  lemma SortedCons<T>(h: T, r: seq<T>, key: T -> Key)
    requires SortedDesc(r, key)
    requires forall y :: y in r ==> !KeyLess(key(h), key(y))
    ensures SortedDesc([h] + r, key)
  {
    var z := [h] + r;
    forall i, j | 0 <= i < j < |z|
      ensures !KeyLess(key(z[i]), key(z[j]))
    {
      assert z[j] == r[j - 1];
      if i == 0 {
        assert r[j - 1] in r;
      } else {
        assert z[i] == r[i - 1];
      }
    }
  }

  lemma HeadIsMax<T>(s: seq<T>, key: T -> Key)
    requires SortedDesc(s, key) && s != []
    ensures forall y :: y in s[1..] ==> !KeyLess(key(s[0]), key(y))
  {
    forall y | y in s[1..]
      ensures !KeyLess(key(s[0]), key(y))
    {
      var k :| 0 <= k < |s[1..]| && s[1..][k] == y;
      assert s[k + 1] == y;
    }
  }

  /** Insertion sort; an element is never moved past an earlier one with the same key. */
  function SortDesc<T>(s: seq<T>, key: T -> Key): (r: seq<T>)
    ensures SortedDesc(r, key)
    ensures multiset(r) == multiset(s)
    ensures |r| == |s|
  {
    if s == [] then []
    else
      assert s == [s[0]] + s[1..];
      InsertDesc(s[0], SortDesc(s[1..], key), key)
  }

  /** Sorting a sorted sequence changes nothing. */
  lemma {:induction false} SortSorted<T>(s: seq<T>, key: T -> Key)
    requires SortedDesc(s, key)
    ensures SortDesc(s, key) == s
  {
    if s != [] {
      assert SortedDesc(s[1..], key);
      SortSorted(s[1..], key);
    }
  }

  /** A window of a sorted sequence is sorted. */
  lemma WindowSortedDesc<T>(s: seq<T>, key: T -> Key, start: nat, count: nat)
    requires SortedDesc(s, key)
    ensures SortedDesc(Window(s, start, count), key)
  {
    var r := Window(s, start, count);
    forall i, j | 0 <= i < j < |r|
      ensures !KeyLess(key(r[i]), key(r[j]))
    {
      assert r[i] == s[start + i] && r[j] == s[start + j];
    }
  }

  /** r is the page of s that starts at start and holds at most count elements, under
      some ordering of all of s by descending key; equal keys may come in either order. */
  ghost predicate IsSortedPage<T(!new)>(r: seq<T>, s: seq<T>, key: T -> Key, start: nat, count: nat)
  {
    exists t :: multiset(t) == multiset(s) && SortedDesc(t, key) && r == Window(t, start, count)
  }

  /** The first count elements of a sorted sequence carry its highest keys: an element
      left out is not above any element kept. */
  lemma PrefixIsTop<T>(t: seq<T>, key: T -> Key, count: nat)
    requires SortedDesc(t, key)
    ensures forall x, y :: x in t && x !in Window(t, 0, count) && y in Window(t, 0, count) ==>
      !KeyLess(key(y), key(x))
  {
    var r := Window(t, 0, count);
    forall x, y | x in t && x !in r && y in r
      ensures !KeyLess(key(y), key(x))
    {
      var j :| 0 <= j < |t| && t[j] == x;
      var i :| 0 <= i < |r| && r[i] == y;
      assert forall k :: 0 <= k < |r| ==> t[k] != x;
      assert t[i] == y;
    }
  }

  /** A window of the sorted sequence: sorted, drawn from the input, and a page of it in
      the sense of IsSortedPage. */
  lemma SortedWindow<T(!new)>(s: seq<T>, key: T -> Key, start: nat, count: nat)
    ensures SortedDesc(Window(SortDesc(s, key), start, count), key)
    ensures forall x :: x in Window(SortDesc(s, key), start, count) ==> x in s
    ensures IsSortedPage(Window(SortDesc(s, key), start, count), s, key, start, count)
  {
    var sorted := SortDesc(s, key);
    WindowSortedDesc(sorted, key, start, count);
    WindowIn(sorted, start, count);
    forall x | x in sorted
      ensures x in s
    {
      assert x in multiset(sorted);
    }
  }
}
