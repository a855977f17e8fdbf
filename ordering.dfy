/**
 * How a capsule judges its constraint list: sort it stably by `order`,
 * evaluate the constraints in that order and stop at the first one that is
 * violated (or raises).
 */
module Ordering {

  import opened Common
  import opened Entities
  import opened Constraints

  /** The constraints of `cs` whose priority is `o`, in list order. */
  function Bucket(cs: seq<Constraint>, o: int): (r: seq<Constraint>)
    ensures forall i :: 0 <= i < |r| ==> r[i].Order() == o
    ensures |r| <= |cs|
  {
    if cs == [] then []
    else if cs[0].Order() == o then [cs[0]] + Bucket(cs[1..], o)
    else Bucket(cs[1..], o)
  }

  /**
   * `sorted(cs, key=lambda c: c.order)`. The priorities are the constants
   * 10 (connecting), 20 (gender) and 30 (room count), so a stable sort puts
   * the three buckets one after the other.
   */
  function SortByOrder(cs: seq<Constraint>): seq<Constraint>
  {
    Bucket(cs, 10) + Bucket(cs, 20) + Bucket(cs, 30)
  }

  ghost predicate SortedByOrder(s: seq<Constraint>)
  {
    forall i, j :: 0 <= i < j < |s| ==> s[i].Order() <= s[j].Order()
  }

  lemma {:induction false} BucketConcat(a: seq<Constraint>, b: seq<Constraint>, o: int)
    ensures Bucket(a + b, o) == Bucket(a, o) + Bucket(b, o)
  {
    if a != [] {
      assert (a + b)[1..] == a[1..] + b;
      BucketConcat(a[1..], b, o);
    } else {
      assert a + b == b;
    }
  }

  lemma {:induction false} BucketMultiset(cs: seq<Constraint>)
    ensures multiset(Bucket(cs, 10)) + multiset(Bucket(cs, 20)) + multiset(Bucket(cs, 30)) == multiset(cs)
  {
    if cs != [] {
      var x, t := cs[0], cs[1..];
      BucketMultiset(t);
      assert cs == [x] + t;
      BucketCons(x, t, 10);
      BucketCons(x, t, 20);
      BucketCons(x, t, 30);
      assert multiset(cs) == multiset{x} + multiset(t);
    }
  }

  lemma {:induction false} BucketOfBucket(cs: seq<Constraint>, o: int, p: int)
    ensures Bucket(Bucket(cs, o), p) == if o == p then Bucket(cs, o) else []
  {
    if cs != [] {
      BucketOfBucket(cs[1..], o, p);
    }
  }

  /**
   * `SortByOrder` is the stable sort by priority: its result is sorted, is
   * a permutation of the input, and keeps the input order among
   * constraints of equal priority.
   */
  lemma SortByOrderIsStableSort(cs: seq<Constraint>)
    ensures SortedByOrder(SortByOrder(cs))
    ensures multiset(SortByOrder(cs)) == multiset(cs)
    ensures forall o :: Bucket(SortByOrder(cs), o) == Bucket(cs, o)
  {
    var b1, b2, b3 := Bucket(cs, 10), Bucket(cs, 20), Bucket(cs, 30);
    var s := b1 + b2 + b3;
    forall i, j | 0 <= i < j < |s| ensures s[i].Order() <= s[j].Order() {
      assert s[i] in b1 + b2 + b3 && s[j] in b1 + b2 + b3;
      if i < |b1| { assert s[i] in b1; }
      else if i < |b1| + |b2| { assert s[i] in b2; assert j >= |b1|; assert s[j] in b2 + b3 by { assert s[j] == (b2 + b3)[j - |b1|]; } }
      else { assert s[i] in b3; assert s[j] in b3 by { assert s[j] == b3[j - |b1| - |b2|]; } }
    }
    BucketMultiset(cs);
    forall o ensures Bucket(s, o) == Bucket(cs, o) {
      BucketConcat(b1 + b2, b3, o);
      BucketConcat(b1, b2, o);
      BucketOfBucket(cs, 10, o);
      BucketOfBucket(cs, 20, o);
      BucketOfBucket(cs, 30, o);
      if o != 10 && o != 20 && o != 30 {
        BucketOther(cs, o);
      }
    }
  }

  lemma {:induction false} BucketOther(cs: seq<Constraint>, o: int)
    requires o != 10 && o != 20 && o != 30
    ensures Bucket(cs, o) == []
  {
    if cs != [] {
      BucketOther(cs[1..], o);
    }
  }

  /** A list already sorted by priority is its own three buckets. */
  lemma {:induction false} SortedIsBuckets(s: seq<Constraint>)
    requires SortedByOrder(s)
    ensures s == SortByOrder(s)
  {
    if s != [] {
      var t := s[1..];
      SortedTail(s);
      SortedIsBuckets(t);
      if s[0].Order() > 10 {
        BucketAbove(s, 1, 10);
      }
      if s[0].Order() > 20 {
        BucketAbove(s, 1, 20);
      }
      ConsBuckets(s[0], t);
      assert s == [s[0]] + t;
    }
  }

  lemma SortedTail(s: seq<Constraint>)
    requires SortedByOrder(s) && s != []
    ensures SortedByOrder(s[1..])
  {
    var t := s[1..];
    forall i, j | 0 <= i < j < |t| ensures t[i].Order() <= t[j].Order() {
      assert t[i] == s[i + 1] && t[j] == s[j + 1];
    }
  }

  /** Putting `x` in front of buckets with nothing of lower priority than `x`. */
  lemma ConsBuckets(x: Constraint, t: seq<Constraint>)
    requires t == SortByOrder(t)
    requires x.Order() > 10 ==> Bucket(t, 10) == []
    requires x.Order() > 20 ==> Bucket(t, 20) == []
    ensures [x] + t == SortByOrder([x] + t)
  {
    BucketCons(x, t, 10);
    BucketCons(x, t, 20);
    BucketCons(x, t, 30);
    var b1, b2, b3 := Bucket(t, 10), Bucket(t, 20), Bucket(t, 30);
    match x
    case ConnectingConstraint(_, _) => SeqAssoc4([x], b1, b2, b3);
    case GenderConstraint => ConsMiddle(x, b2, b3);
    case RoomCountConstraint(_) => ConsLast(x, b3);
  }

  lemma ConsMiddle<T>(x: T, b: seq<T>, c: seq<T>)
    ensures [] + ([x] + b) + c == [x] + ([] + b + c)
  {
  }

  lemma ConsLast<T>(x: T, c: seq<T>)
    ensures [] + [] + ([x] + c) == [x] + ([] + [] + c)
  {
  }

  lemma BucketCons(x: Constraint, t: seq<Constraint>, o: int)
    ensures Bucket([x] + t, o) == if x.Order() == o then [x] + Bucket(t, o) else Bucket(t, o)
  {
    assert ([x] + t)[1..] == t;
  }

  /** Past position `k` of a sorted list nothing has a priority below `s[k - 1]`'s. */
  lemma {:induction false} BucketAbove(s: seq<Constraint>, k: nat, o: int)
    requires SortedByOrder(s) && 0 < k <= |s| && s[k - 1].Order() > o
    ensures Bucket(s[k..], o) == []
    decreases |s| - k
  {
    if k < |s| {
      assert s[k - 1].Order() <= s[k].Order();
      BucketAbove(s, k + 1, o);
      assert s[k..][1..] == s[k + 1..];
    }
  }

  /**
   * Any list that is sorted by priority and keeps the input order within
   * each priority is `SortByOrder` of the input: the stable sort is unique.
   */
  lemma StableSortIsUnique(cs: seq<Constraint>, s: seq<Constraint>)
    requires SortedByOrder(s)
    requires forall o :: Bucket(s, o) == Bucket(cs, o)
    ensures s == SortByOrder(cs)
  {
    SortedIsBuckets(s);
  }

  /** The constraint evaluates without error and is satisfied. */
  predicate Holds(c: Constraint, capsuleIndex: int, rooms: seq<Room>)
  {
    var r := IsValid(c, capsuleIndex, rooms);
    r.Ok? && r.value.valid
  }

  /**
   * The loop of `_is_valid` over an ordered list: the verdict of the first
   * constraint that does not hold (its exception, if it raised), or
   * `(True, [])` when all hold.
   */
  function FirstFailure(capsuleIndex: int, rooms: seq<Room>, ordered: seq<Constraint>): Result<Verdict>
  {
    if ordered == [] then Ok(Pass)
    else
      var r := IsValid(ordered[0], capsuleIndex, rooms);
      if r.Err? || !r.value.valid then r
      else FirstFailure(capsuleIndex, rooms, ordered[1..])
  }

  /**
   * The scan passes iff every constraint holds; otherwise it returns the
   * evaluation of the first constraint that does not hold.
   */
  lemma {:induction false} FirstFailureSpec(capsuleIndex: int, rooms: seq<Room>, ordered: seq<Constraint>)
    ensures FirstFailure(capsuleIndex, rooms, ordered) == Ok(Pass)
            <==> forall c :: c in ordered ==> Holds(c, capsuleIndex, rooms)
    ensures FirstFailure(capsuleIndex, rooms, ordered) != Ok(Pass) ==>
      exists k :: 0 <= k < |ordered|
        && FirstFailure(capsuleIndex, rooms, ordered) == IsValid(ordered[k], capsuleIndex, rooms)
        && !Holds(ordered[k], capsuleIndex, rooms)
        && forall j :: 0 <= j < k ==> Holds(ordered[j], capsuleIndex, rooms)
  {
    if ordered != [] {
      FirstFailureSpec(capsuleIndex, rooms, ordered[1..]);
      if Holds(ordered[0], capsuleIndex, rooms) {
        assert ordered == [ordered[0]] + ordered[1..];
        if FirstFailure(capsuleIndex, rooms, ordered) != Ok(Pass) {
          var k :| 0 <= k < |ordered[1..]|
            && FirstFailure(capsuleIndex, rooms, ordered[1..]) == IsValid(ordered[1..][k], capsuleIndex, rooms)
            && !Holds(ordered[1..][k], capsuleIndex, rooms)
            && forall j :: 0 <= j < k ==> Holds(ordered[1..][j], capsuleIndex, rooms);
          assert forall j :: 0 <= j < k + 1 ==> Holds(ordered[j], capsuleIndex, rooms) by {
            forall j | 0 <= j < k + 1 ensures Holds(ordered[j], capsuleIndex, rooms) {
              if j > 0 { assert ordered[j] == ordered[1..][j - 1]; }
            }
          }
        }
      } else {
        assert ordered[0] in ordered;
      }
    }
  }

  /** A scan that answers "valid" answers `(True, [])`: it found no failure. */
  lemma {:induction false} FirstFailureShape(capsuleIndex: int, rooms: seq<Room>, ordered: seq<Constraint>)
    ensures var v := FirstFailure(capsuleIndex, rooms, ordered);
      v.Ok? && v.value.valid ==> v == Ok(Pass)
  {
    if ordered != [] {
      FirstFailureShape(capsuleIndex, rooms, ordered[1..]);
    }
  }

  /** Scanning `a + b` scans `b` only when all of `a` holds. */
  lemma {:induction false} FirstFailureAppend(capsuleIndex: int, rooms: seq<Room>, a: seq<Constraint>, b: seq<Constraint>)
    ensures FirstFailure(capsuleIndex, rooms, a + b) ==
      if FirstFailure(capsuleIndex, rooms, a) == Ok(Pass) then FirstFailure(capsuleIndex, rooms, b)
      else FirstFailure(capsuleIndex, rooms, a)
  {
    if a != [] {
      assert (a + b)[1..] == a[1..] + b;
      FirstFailureAppend(capsuleIndex, rooms, a[1..], b);
    } else {
      assert a + b == b;
    }
  }

  /** The verdict `_is_valid` returns for a capsule with this constraint list. */
  function CapsuleVerdict(capsuleIndex: int, rooms: seq<Room>, constraints: seq<Constraint>): Result<Verdict>
  {
    FirstFailure(capsuleIndex, rooms, SortByOrder(constraints))
  }

  /**
   * `_is_valid` returns `(True, [])` iff every constraint of the capsule
   * holds; otherwise it returns the verdict of a violated (or raising)
   * constraint such that every constraint of strictly higher priority holds.
   */
  lemma CapsuleVerdictSpec(capsuleIndex: int, rooms: seq<Room>, constraints: seq<Constraint>)
    ensures CapsuleVerdict(capsuleIndex, rooms, constraints) == Ok(Pass)
            <==> forall c :: c in constraints ==> Holds(c, capsuleIndex, rooms)
    ensures CapsuleVerdict(capsuleIndex, rooms, constraints) != Ok(Pass) ==>
      exists c :: c in constraints
        && CapsuleVerdict(capsuleIndex, rooms, constraints) == IsValid(c, capsuleIndex, rooms)
        && !Holds(c, capsuleIndex, rooms)
        && forall d :: d in constraints && d.Order() < c.Order() ==> Holds(d, capsuleIndex, rooms)
  {
    var s := SortByOrder(constraints);
    SortByOrderIsStableSort(constraints);
    SameMembers(s, constraints);
    FirstFailureSpec(capsuleIndex, rooms, s);
    if FirstFailure(capsuleIndex, rooms, s) != Ok(Pass) {
      var k :| 0 <= k < |s|
        && FirstFailure(capsuleIndex, rooms, s) == IsValid(s[k], capsuleIndex, rooms)
        && !Holds(s[k], capsuleIndex, rooms)
        && forall j :: 0 <= j < k ==> Holds(s[j], capsuleIndex, rooms);
      HigherPriorityHolds(capsuleIndex, rooms, constraints, s, k);
      assert s[k] in s;
    }
  }

  /** In a sorted scan, everything of strictly higher priority than `s[k]` comes before it. */
  lemma HigherPriorityHolds(capsuleIndex: int, rooms: seq<Room>, constraints: seq<Constraint>, s: seq<Constraint>, k: nat)
    requires SortedByOrder(s) && k < |s|
    requires forall c :: c in constraints ==> c in s
    requires forall j :: 0 <= j < k ==> Holds(s[j], capsuleIndex, rooms)
    ensures forall d :: d in constraints && d.Order() < s[k].Order() ==> Holds(d, capsuleIndex, rooms)
  {
    forall d | d in constraints && d.Order() < s[k].Order() ensures Holds(d, capsuleIndex, rooms) {
      var j :| 0 <= j < |s| && s[j] == d;
      if j > k {
        assert false;
      }
    }
  }

  lemma SameMembers<T>(s: seq<T>, t: seq<T>)
    requires multiset(s) == multiset(t)
    ensures forall c :: c in s <==> c in t
  {
    forall c ensures c in s <==> c in t {
      assert c in s <==> c in multiset(s);
      assert c in t <==> c in multiset(t);
    }
  }

  /**
   * Rechecking after the global constraints have been appended `k` more
   * times gives the same verdict: the duplicates come later within their
   * priority and repeat evaluations already made.
   */
  lemma AccumulatedGlobalsKeepVerdict(capsuleIndex: int, rooms: seq<Room>, own: seq<Constraint>, globals: seq<Constraint>, k: nat)
    ensures CapsuleVerdict(capsuleIndex, rooms, own + Repeat(globals, k) + globals)
         == CapsuleVerdict(capsuleIndex, rooms, own + globals)
  {
    var x := own + Repeat(globals, k) + globals;
    var y := own + globals;
    AccumulatedBucket(own, globals, k, 10);
    AccumulatedBucket(own, globals, k, 20);
    AccumulatedBucket(own, globals, k, 30);
    var x1, x2, x3 := Bucket(x, 10), Bucket(x, 20), Bucket(x, 30);
    var y1, y2, y3 := Bucket(y, 10), Bucket(y, 20), Bucket(y, 30);
    LayerVerdict(capsuleIndex, rooms, own, globals, k, 10, x2 + x3);
    LayerVerdict(capsuleIndex, rooms, own, globals, k, 20, x3);
    LayerVerdict(capsuleIndex, rooms, own, globals, k, 30, []);
    AppendEmpty(x3);
    AppendEmpty(y3);
    ScanCongruence(capsuleIndex, rooms, y1, x2 + x3, y2 + x3);
    ScanCongruence(capsuleIndex, rooms, y1 + y2, x3, y3);
    SeqAssoc(x1, x2, x3);
    SeqAssoc(y1, y2, x3);
  }

  /** The bucket of the accumulated list is the own bucket, then the globals' bucket `k + 1` times. */
  lemma AccumulatedBucket(own: seq<Constraint>, globals: seq<Constraint>, k: nat, o: int)
    ensures Bucket(own + Repeat(globals, k) + globals, o) == Bucket(own, o) + Repeat(Bucket(globals, o), k) + Bucket(globals, o)
    ensures Bucket(own + globals, o) == Bucket(own, o) + Bucket(globals, o)
  {
    BucketConcat(own + Repeat(globals, k), globals, o);
    BucketConcat(own, Repeat(globals, k), o);
    BucketConcat(own, globals, o);
    BucketRepeat(globals, k, o);
  }

  /** Two lists with the same verdict keep it behind a common prefix. */
  lemma ScanCongruence(capsuleIndex: int, rooms: seq<Room>, p: seq<Constraint>, b: seq<Constraint>, c: seq<Constraint>)
    requires FirstFailure(capsuleIndex, rooms, b) == FirstFailure(capsuleIndex, rooms, c)
    ensures FirstFailure(capsuleIndex, rooms, p + b) == FirstFailure(capsuleIndex, rooms, p + c)
  {
    FirstFailureAppend(capsuleIndex, rooms, p, b);
    FirstFailureAppend(capsuleIndex, rooms, p, c);
  }

  lemma {:induction false} BucketRepeat(cs: seq<Constraint>, k: nat, o: int)
    ensures Bucket(Repeat(cs, k), o) == Repeat(Bucket(cs, o), k)
  {
    if k > 0 {
      BucketRepeat(cs, k - 1, o);
      BucketConcat(Repeat(cs, k - 1), cs, o);
    }
  }

  /** One priority layer: the repeated copies of the globals' bucket do not change the scan. */
  lemma LayerVerdict(capsuleIndex: int, rooms: seq<Room>, own: seq<Constraint>, globals: seq<Constraint>, k: nat, o: int, rest: seq<Constraint>)
    ensures FirstFailure(capsuleIndex, rooms, Bucket(own, o) + Repeat(Bucket(globals, o), k) + Bucket(globals, o) + rest)
         == FirstFailure(capsuleIndex, rooms, Bucket(own, o) + Bucket(globals, o) + rest)
  {
    var a, g := Bucket(own, o), Bucket(globals, o);
    assert a + Repeat(g, k) + g + rest == a + (Repeat(g, k) + g + rest);
    assert a + g + rest == a + (g + rest);
    FirstFailureAppend(capsuleIndex, rooms, a, Repeat(g, k) + g + rest);
    FirstFailureAppend(capsuleIndex, rooms, a, g + rest);
    RepeatedScan(capsuleIndex, rooms, g, k, rest);
  }

  /** Scanning `y` again right after a full scan of `y` changes nothing. */
  lemma {:induction false} RepeatedScan(capsuleIndex: int, rooms: seq<Room>, y: seq<Constraint>, k: nat, w: seq<Constraint>)
    ensures FirstFailure(capsuleIndex, rooms, Repeat(y, k) + y + w) == FirstFailure(capsuleIndex, rooms, y + w)
  {
    if k > 0 {
      assert Repeat(y, k) + y + w == Repeat(y, k - 1) + y + (y + w);
      RepeatedScan(capsuleIndex, rooms, y, k - 1, y + w);
      assert y + (y + w) == y + y + w;
      FirstFailureAppend(capsuleIndex, rooms, y, y + w);
      FirstFailureAppend(capsuleIndex, rooms, y, w);
    } else {
      assert Repeat(y, k) + y + w == y + w;
    }
  }
}
