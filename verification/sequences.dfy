/** Sequence operations from the Swift standard library that the document
    relies on: `remove(atOffsets:)` and sorting by a string key. */
module Sequences {
  import opened AsciiText

  predicate NoDuplicates<T(==)>(s: seq<T>) {
    forall i, j :: 0 <= i < j < |s| ==> s[i] != s[j]
  }

  /** The indices below `n` that are not among `offsets`, in increasing order. */
  function KeptIndices(n: nat, offsets: set<int>): (k: seq<nat>)
    ensures forall j :: 0 <= j < |k| ==> k[j] < n && k[j] !in offsets
    ensures forall i :: 0 <= i < n && i !in offsets ==> i in k
    ensures forall j, j' :: 0 <= j < j' < |k| ==> k[j] < k[j']
  {
    if n == 0 then []
    else KeptIndices(n - 1, offsets) + (if n - 1 in offsets then [] else [n - 1])
  }

  /** `Array.remove(atOffsets:)`: drops the elements whose index is in `offsets`. */
  function RemoveAt<T>(s: seq<T>, offsets: set<int>): (r: seq<T>)
  {
    if |s| == 0 then []
    else RemoveAt(s[..|s| - 1], offsets) + (if |s| - 1 in offsets then [] else [s[|s| - 1]])
  }

  /** The survivors of `RemoveAt` are exactly the elements at the kept
      indices, in their original relative order. */
  lemma {:induction false} RemoveAtKeepsOrder<T>(s: seq<T>, offsets: set<int>)
    ensures var r, k := RemoveAt(s, offsets), KeptIndices(|s|, offsets);
            |r| == |k| && forall j :: 0 <= j < |r| ==> r[j] == s[k[j]]
  {
    if |s| > 0 {
      var p := s[..|s| - 1];
      RemoveAtKeepsOrder(p, offsets);
      assert KeptIndices(|p|, offsets) == KeptIndices(|s| - 1, offsets);
    }
  }

  /** Every element of `s` whose index is kept survives `RemoveAt`, and every
      survivor is such an element. */
  lemma RemoveAtMembership<T>(s: seq<T>, offsets: set<int>, x: T)
    ensures x in RemoveAt(s, offsets) <==> exists i :: 0 <= i < |s| && i !in offsets && s[i] == x
  {
    var r, k := RemoveAt(s, offsets), KeptIndices(|s|, offsets);
    RemoveAtKeepsOrder(s, offsets);
    if x in r {
      var j :| 0 <= j < |r| && r[j] == x;
      assert s[k[j]] == x;
    }
    if exists i :: 0 <= i < |s| && i !in offsets && s[i] == x {
      var i :| 0 <= i < |s| && i !in offsets && s[i] == x;
      assert i in k;
      var j :| 0 <= j < |k| && k[j] == i;
      assert r[j] == x;
    }
  }

  /** The offsets that fall inside `[0, n)`. */
  function InRange(offsets: set<int>, n: nat): set<int> {
    set i | i in offsets && 0 <= i < n
  }

  /** `RemoveAt` shortens the sequence by the number of in-range offsets. */
  lemma {:induction false} RemoveAtLength<T>(s: seq<T>, offsets: set<int>)
    ensures |RemoveAt(s, offsets)| == |s| - |InRange(offsets, |s|)|
  {
    if |s| == 0 {
      assert InRange(offsets, 0) == {};
    } else {
      var n := |s| - 1;
      RemoveAtLength(s[..n], offsets);
      assert |s[..n]| == n;
      if n in offsets {
        assert InRange(offsets, |s|) == InRange(offsets, n) + {n};
      } else {
        assert InRange(offsets, |s|) == InRange(offsets, n);
      }
    }
  }

  /** Removing one in-range index is the same as slicing it out. */
  lemma {:induction false} RemoveAtSingle<T>(s: seq<T>, i: int)
    requires 0 <= i < |s|
    ensures RemoveAt(s, {i}) == s[..i] + s[i + 1..]
  {
    var n := |s| - 1;
    var p := s[..n];
    if i == n {
      RemoveAtNothing(p, {i});
    } else {
      RemoveAtSingle(p, i);
      assert p[..i] == s[..i];
      assert p[i + 1..] + [s[n]] == s[i + 1..];
    }
  }

  /** Offsets beyond the end remove nothing. */
  lemma {:induction false} RemoveAtNothing<T>(s: seq<T>, offsets: set<int>)
    requires forall i :: i in offsets ==> i >= |s|
    ensures RemoveAt(s, offsets) == s
  {
    if |s| > 0 {
      RemoveAtNothing(s[..|s| - 1], offsets);
    }
  }

  // ---------------------------------------------------------------------------
  // Sorting by a string key (`sort { key(lhs) < key(rhs) }`)

  /** Ascending by `key`: no later element has a key strictly below an earlier one. */
  predicate SortedBy<T>(s: seq<T>, key: T -> string) {
    forall i, j :: 0 <= i < j < |s| ==> !Less(key(s[j]), key(s[i]))
  }

  /** Inserts `x` in front of the first element whose key is not below `x`'s. */
  function InsertBy<T>(x: T, s: seq<T>, key: T -> string): (r: seq<T>)
    ensures multiset(r) == multiset(s) + multiset{x}
    ensures SortedBy(s, key) ==> SortedBy(r, key)
  {
    if |s| == 0 then [x]
    else if !Less(key(s[0]), key(x)) then
      assert SortedBy(s, key) ==> SortedBy([x] + s, key) by {
        if SortedBy(s, key) {
          forall j | 0 < j < |s| + 1
            ensures !Less(key(([x] + s)[j]), key(x))
          {
            NotLessIsTransitive(key(x), key(s[0]), key(s[j - 1]));
          }
        }
      }
      [x] + s
    else
      var rest := InsertBy(x, s[1..], key);
      assert s == [s[0]] + s[1..];
      assert SortedBy(s, key) ==> SortedBy([s[0]] + rest, key) by {
        if SortedBy(s, key) {
          forall j | 0 <= j < |rest|
            ensures !Less(key(rest[j]), key(s[0]))
          {
            assert rest[j] in multiset(rest);
            if rest[j] == x {
              LessIsAsymmetric(key(s[0]), key(x));
            } else {
              assert rest[j] in multiset(s[1..]);
              var m :| 0 <= m < |s[1..]| && s[1..][m] == rest[j];
              assert s[m + 1] == rest[j];
            }
          }
        }
      }
      [s[0]] + rest
  }

  /** A stable insertion sort by `key`. */
  function SortBy<T>(s: seq<T>, key: T -> string): (r: seq<T>)
    ensures multiset(r) == multiset(s)
    ensures SortedBy(r, key)
  {
    if |s| == 0 then []
    else
      assert s == [s[0]] + s[1..];
      InsertBy(s[0], SortBy(s[1..], key), key)
  }
}
