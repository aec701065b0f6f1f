/** Operations on one activity's participant list: the membership test,
    Python's `list.remove` (which drops the first occurrence only) and the
    no-duplicates property the application keeps. */
module Roster {

  /** True iff no value occurs twice in `s`. */
  predicate NoDuplicates<T(==)>(s: seq<T>)
  {
    forall i, j :: 0 <= i < j < |s| ==> s[i] != s[j]
  }

  /** The position of the first occurrence of `x` in `s`, found by a scan
      from the front as `list.remove` does. */
  function FirstIndex<T(==)>(s: seq<T>, x: T): (i: nat)
    requires x in s
    ensures i < |s| && s[i] == x
    ensures x !in s[..i]
  {
    if s[0] == x then 0
    else
      assert x in s[1..] by { assert s == [s[0]] + s[1..]; }
      var k := FirstIndex(s[1..], x);
      assert s[..k + 1] == [s[0]] + s[1..][..k];
      1 + k
  }

  /** `s` with its first occurrence of `x` deleted: the effect of
      `s.remove(x)` in Python, which raises unless `x` is present. */
  function RemoveFirst<T(==)>(s: seq<T>, x: T): (r: seq<T>)
    requires x in s
    ensures |r| == |s| - 1
  {
    assert s == [s[0]] + s[1..];
    if s[0] == x then s[1..]
    else [s[0]] + RemoveFirst(s[1..], x)
  }

  /** What `RemoveFirst` removes is exactly the element at `FirstIndex`:
      everything before it and everything after it is kept, in order. */
  lemma {:induction false} RemoveFirstSplits<T>(s: seq<T>, x: T)
    requires x in s
    ensures RemoveFirst(s, x) == s[..FirstIndex(s, x)] + s[FirstIndex(s, x) + 1..]
  {
    var tail := s[1..];
    assert s == [s[0]] + tail;
    if s[0] == x {
      assert FirstIndex(s, x) == 0;
      assert RemoveFirst(s, x) == tail;
      assert s[..0] + s[1..] == tail;
    } else {
      assert x in tail;
      RemoveFirstSplits(tail, x);
      var k := FirstIndex(tail, x);
      assert FirstIndex(s, x) == k + 1;
      assert RemoveFirst(s, x) == [s[0]] + (tail[..k] + tail[k + 1..]);
      assert s[..k + 1] == [s[0]] + tail[..k];
      assert s[k + 2..] == tail[k + 1..];
    }
  }

  /** `RemoveFirst` takes away one copy of `x` and nothing else. */
  lemma RemoveFirstMultiset<T>(s: seq<T>, x: T)
    requires x in s
    ensures multiset(RemoveFirst(s, x)) == multiset(s) - multiset{x}
  {
    var k := FirstIndex(s, x);
    RemoveFirstSplits(s, x);
    assert s == s[..k] + [x] + s[k + 1..];
  }

  /** Appending a value that is not yet present keeps the list free of
      duplicates. */
  lemma NoDuplicatesAppend<T>(s: seq<T>, x: T)
    requires NoDuplicates(s)
    requires x !in s
    ensures NoDuplicates(s + [x])
  {
  }

  /** Removing the first occurrence from a duplicate-free list leaves a
      duplicate-free list that no longer contains the value at all. */
  lemma {:induction false} NoDuplicatesRemoveFirst<T>(s: seq<T>, x: T)
    requires NoDuplicates(s)
    requires x in s
    ensures NoDuplicates(RemoveFirst(s, x))
    ensures x !in RemoveFirst(s, x)
  {
    assert s == [s[0]] + s[1..];
    var tail := s[1..];
    assert NoDuplicates(tail) by {
      forall i, j | 0 <= i < j < |tail|
        ensures tail[i] != tail[j]
      {
        assert tail[i] == s[i + 1] && tail[j] == s[j + 1];
      }
    }
    assert s[0] !in tail by {
      forall i | 0 <= i < |tail|
        ensures tail[i] != s[0]
      {
        assert tail[i] == s[i + 1];
      }
    }
    if s[0] != x {
      NoDuplicatesRemoveFirst(tail, x);
      var rest := RemoveFirst(tail, x);
      assert s[0] !in rest by {
        RemoveFirstMultiset(tail, x);
        assert multiset(rest) <= multiset(tail);
        assert s[0] !in multiset(tail);
      }
      var r := [s[0]] + rest;
      forall i, j | 0 <= i < j < |r|
        ensures r[i] != r[j]
      {
        assert r[j] == rest[j - 1];
        if i > 0 {
          assert r[i] == rest[i - 1];
        }
      }
    }
  }

  /** Removing a value just appended to a list that did not contain it gives
      back the original list. */
  lemma {:induction false} RemoveFirstOfAppended<T>(s: seq<T>, x: T)
    requires x !in s
    ensures x in s + [x]
    ensures RemoveFirst(s + [x], x) == s
  {
    var t := s + [x];
    assert t[|s|] == x;
    var k := FirstIndex(t, x);
    RemoveFirstSplits(t, x);
    assert k == |s|;
    assert t[..k] == s;
  }
}
