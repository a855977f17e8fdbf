/**
 * The listing `get_capsules` returns: the room numbers of each capsule,
 * the lists ordered by `list.sort(key=lambda x: len(x) and x[0])`, a
 * stable sort.
 */
module Listing {

  /** `len(x) and x[0]`: `0` for an empty list, otherwise its first number. */
  function Key(l: seq<int>): int
  {
    if |l| == 0 then 0 else l[0]
  }

  /** The keys never decrease along `s`. */
  ghost predicate Sorted(s: seq<seq<int>>)
  {
    forall i, j :: 0 <= i < j < |s| ==> Key(s[i]) <= Key(s[j])
  }

  /** The lists of `s` whose key is `k`, in order. */
  function WithKey(s: seq<seq<int>>, k: int): (r: seq<seq<int>>)
    ensures |r| <= |s|
  {
    if s == [] then []
    else WithKey(s[..|s| - 1], k) + (if Key(s[|s| - 1]) == k then [s[|s| - 1]] else [])
  }

  /** `x` placed after every list of the sorted `s` whose key is at most its own. */
  function Insert(x: seq<int>, s: seq<seq<int>>): (r: seq<seq<int>>)
  {
    if s == [] || Key(s[|s| - 1]) <= Key(x) then s + [x]
    else Insert(x, s[..|s| - 1]) + [s[|s| - 1]]
  }

  /** `sorted(xs, key=Key)`: each list is inserted in turn, the earlier first. */
  function SortByKey(xs: seq<seq<int>>): (r: seq<seq<int>>)
  {
    if xs == [] then [] else Insert(xs[|xs| - 1], SortByKey(xs[..|xs| - 1]))
  }

  lemma WithKeyAppend(a: seq<seq<int>>, b: seq<seq<int>>, k: int)
    ensures WithKey(a + b, k) == WithKey(a, k) + WithKey(b, k)
    decreases |b|
  {
    if b == [] {
      assert a + b == a;
    } else {
      assert (a + b)[..|a + b| - 1] == a + b[..|b| - 1];
      WithKeyAppend(a, b[..|b| - 1], k);
    }
  }

  /** Inserting adds exactly `x`. */
  lemma {:induction false} InsertMultiset(x: seq<int>, s: seq<seq<int>>)
    ensures multiset(Insert(x, s)) == multiset(s) + multiset{x}
    decreases |s|
  {
    if s != [] && Key(s[|s| - 1]) > Key(x) {
      var init, last := s[..|s| - 1], s[|s| - 1];
      assert s == init + [last];
      InsertMultiset(x, init);
    }
  }

  /** Inserting keeps the order sorted. */
  lemma {:induction false} InsertSorted(x: seq<int>, s: seq<seq<int>>)
    requires Sorted(s)
    ensures Sorted(Insert(x, s))
    decreases |s|
  {
    if s != [] && Key(s[|s| - 1]) > Key(x) {
      var init, last := s[..|s| - 1], s[|s| - 1];
      assert s == init + [last];
      InsertSorted(x, init);
      InsertMultiset(x, init);
      var front := Insert(x, init);
      forall i | 0 <= i < |front| ensures Key(front[i]) <= Key(last) {
        if front[i] != x {
          assert front[i] in multiset(front);
          assert front[i] in multiset(init);
          var p :| 0 <= p < |init| && init[p] == front[i];
          assert Key(s[p]) <= Key(s[|s| - 1]);
        }
      }
    }
  }

  /** `x` comes after the lists of its own key, and no other key's lists move. */
  lemma {:induction false} InsertWithKey(x: seq<int>, s: seq<seq<int>>, k: int)
    ensures WithKey(Insert(x, s), k) == WithKey(s, k) + (if Key(x) == k then [x] else [])
    decreases |s|
  {
    if s == [] || Key(s[|s| - 1]) <= Key(x) {
      assert (s + [x])[..|s + [x]| - 1] == s;
    } else {
      var init, last := s[..|s| - 1], s[|s| - 1];
      assert s == init + [last];
      InsertWithKey(x, init, k);
      WithKeyAppend(Insert(x, init), [last], k);
      WithKeyAppend(init, [last], k);
    }
  }

  /**
   * The sort's result is sorted by key, holds the same lists, and keeps
   * the lists of equal key in their original order: the stable sort.
   */
  lemma {:induction false} SortByKeySpec(xs: seq<seq<int>>)
    ensures Sorted(SortByKey(xs))
    ensures multiset(SortByKey(xs)) == multiset(xs)
    ensures forall k :: WithKey(SortByKey(xs), k) == WithKey(xs, k)
    decreases |xs|
  {
    if xs != [] {
      var init, last := xs[..|xs| - 1], xs[|xs| - 1];
      assert xs == init + [last];
      SortByKeySpec(init);
      InsertSorted(last, SortByKey(init));
      InsertMultiset(last, SortByKey(init));
      forall k ensures WithKey(SortByKey(xs), k) == WithKey(xs, k) {
        InsertWithKey(last, SortByKey(init), k);
        WithKeyAppend(init, [last], k);
      }
    }
  }
}
