/** Shared result and option types, and the exceptions the allocator can raise. */
module Common {

  datatype Option<+T> = None | Some(value: T)

  /** The exceptions that escape the allocation engine, by their Python class. */
  datatype Error =
    | GenderCountError(genders: nat)   // ValueError: a capsule with neither one nor two genders
    | MissingGender(room: int)         // ValueError: no roommate of the room has a known gender
    | BadRoomNumber(text: string)      // ValueError: int() could not parse a room number
    | MaxTriesReached                  // RuntimeError: every try ran out of fixes
    | UnboundLocal(name: string)       // UnboundLocalError: a local read before any assignment
    | UnknownRoom(index: int)          // KeyError: a room number missing from the rooms dictionary

  datatype Result<+T> = Ok(value: T) | Err(error: Error)

  /**
   * No element occurs twice. The quantifier fires on `At` terms only, so
   * that it is used where a proof names two positions rather than on every
   * pair of positions in sight.
   */
  ghost predicate Distinct<T>(s: seq<T>)
  {
    forall i, j {:trigger At(s, i), At(s, j)} :: 0 <= i < j < |s| ==> At(s, i) != At(s, j)
  }

  /** `s[i]`, the term `Distinct` is triggered on. */
  ghost function At<T>(s: seq<T>, i: int): T
    requires 0 <= i < |s|
  {
    s[i]
  }

  /** Two different positions of a sequence without repeats hold different elements. */
  lemma DistinctAt<T>(s: seq<T>, i: int, j: int)
    requires Distinct(s) && 0 <= i < |s| && 0 <= j < |s| && i != j
    ensures s[i] != s[j]
  {
    if i < j {
      assert At(s, i) != At(s, j);
    } else {
      assert At(s, j) != At(s, i);
    }
  }

  lemma DistinctTail<T>(s: seq<T>)
    requires Distinct(s) && s != []
    ensures Distinct(s[1..]) && s[0] !in s[1..]
  {
    var t := s[1..];
    forall i, j | 0 <= i < j < |t| ensures At(t, i) != At(t, j) {
      DistinctAt(s, i + 1, j + 1);
    }
    if s[0] in t {
      var k :| 0 <= k < |t| && t[k] == s[0];
      DistinctAt(s, 0, k + 1);
    }
  }

  lemma DistinctCons<T>(x: T, s: seq<T>)
    requires Distinct(s) && x !in s
    ensures Distinct([x] + s)
  {
    var t := [x] + s;
    forall i, j | 0 <= i < j < |t| ensures At(t, i) != At(t, j) {
      if i == 0 {
        assert t[j] == s[j - 1] && s[j - 1] in s;
      } else {
        DistinctAt(s, i - 1, j - 1);
      }
    }
  }

  lemma DistinctSnoc<T>(s: seq<T>, x: T)
    requires Distinct(s) && x !in s
    ensures Distinct(s + [x])
  {
    var t := s + [x];
    forall i, j | 0 <= i < j < |t| ensures At(t, i) != At(t, j) {
      if j == |s| {
        assert t[i] == s[i] && s[i] in s;
      } else {
        DistinctAt(s, i, j);
      }
    }
  }

  /** `s` concatenated with itself `n` times. */
  function Repeat<T>(s: seq<T>, n: nat): (r: seq<T>)
    ensures |r| == n * |s|
    ensures forall x :: x in r ==> x in s
  {
    if n == 0 then [] else Repeat(s, n - 1) + s
  }

  /** The sequence 0, 1, ..., n - 1 (Python's `range(n)`). */
  function Range(n: nat): (r: seq<nat>)
    ensures |r| == n
    ensures forall i :: 0 <= i < n ==> r[i] == i
  {
    seq(n, i => i)
  }

  /** `[x] * n`. */
  function Copies<T>(x: T, n: nat): (r: seq<T>)
    ensures |r| == n && forall i :: 0 <= i < n ==> r[i] == x
  {
    if n == 0 then [] else Copies(x, n - 1) + [x]
  }

  /** How often `x` occurs in `s`. */
  function Count<T(==)>(s: seq<T>, x: T): nat
  {
    if s == [] then 0 else Count(s[..|s| - 1], x) + (if s[|s| - 1] == x then 1 else 0)
  }

  // Small facts about sequences, stated once so that proofs can cite them.

  lemma SeqAssoc<T>(a: seq<T>, b: seq<T>, c: seq<T>)
    ensures a + b + c == a + (b + c)
  {
  }

  lemma SeqAssoc4<T>(a: seq<T>, b: seq<T>, c: seq<T>, d: seq<T>)
    ensures (a + b) + c + d == a + (b + c + d)
  {
  }

  lemma AppendEmpty<T>(a: seq<T>)
    ensures a + [] == a
  {
  }

  lemma TakeAll<T>(s: seq<T>, n: nat)
    requires n == |s|
    ensures s[..n] == s
  {
  }

  lemma InSnoc<T>(s: seq<T>, x: T)
    requires |s| > 0
    ensures x in s <==> x in s[..|s| - 1] || x == s[|s| - 1]
  {
    assert s == s[..|s| - 1] + [s[|s| - 1]];
  }

  /** Where the elements of three sequences sit in their concatenation. */
  lemma ConcatAt<T>(a: seq<T>, b: seq<T>, c: seq<T>)
    ensures |a + b + c| == |a| + |b| + |c|
    ensures forall p :: 0 <= p < |a| ==> (a + b + c)[p] == a[p]
    ensures forall p :: 0 <= p < |b| ==> (a + b + c)[|a| + p] == b[p]
    ensures forall p :: 0 <= p < |c| ==> (a + b + c)[|a| + |b| + p] == c[p]
  {
  }

  lemma AppendTakeNone<T>(a: seq<T>, s: seq<T>)
    ensures a + s[..0] == a
  {
  }

  lemma CopiesSnoc<T>(x: T, n: nat)
    ensures Copies(x, n) + [x] == Copies(x, n + 1)
  {
  }

  lemma {:induction false} CountAppend<T>(a: seq<T>, b: seq<T>, x: T)
    ensures Count(a + b, x) == Count(a, x) + Count(b, x)
    decreases |b|
  {
    if b == [] {
      assert a + b == a;
    } else {
      assert (a + b)[..|a + b| - 1] == a + b[..|b| - 1];
      CountAppend(a, b[..|b| - 1], x);
    }
  }

  lemma {:induction false} CountCopies<T>(y: T, n: nat, x: T)
    ensures Count(Copies(y, n), x) == if x == y then n else 0
  {
    if n > 0 {
      assert Copies(y, n)[..n - 1] == Copies(y, n - 1);
      CountCopies(y, n - 1, x);
    }
  }

  /** `Count` is the multiplicity in the sequence's multiset. */
  lemma {:induction false} CountMultiset<T>(s: seq<T>, x: T)
    ensures Count(s, x) == multiset(s)[x]
    decreases |s|
  {
    if s != [] {
      var init := s[..|s| - 1];
      assert s == init + [s[|s| - 1]];
      CountMultiset(init, x);
    }
  }
}
