/**
 * What `allocate_rooms_randomly` writes. With `factor = len(rooms) //
 * capsules_count`, capsule `c` takes the block of shuffled positions
 * `c * factor` up to `(c + 1) * factor` (the block follows the capsule's own
 * index, not its place in the shuffled capsule list), and the remaining
 * positions are paired with a second shuffle of the capsules.
 */
module Allocation {

  import opened Common
  import opened PyDict
  import opened Entities

  /** A write: a position in the shuffled room list and the capsule it gets. */
  type Write = (nat, int)

  /** The writes of the inner loop for capsule `c`. */
  function Block(c: nat, factor: nat): (ws: seq<Write>)
    ensures |ws| == factor
    ensures forall k :: 0 <= k < factor ==> ws[k] == (c * factor + k, c)
  {
    seq(factor, k requires 0 <= k < factor => (c * factor + k, c))
  }

  /** The writes of the block loop, capsule by capsule in the given order. */
  function BlockWrites(order: seq<nat>, factor: nat): seq<Write>
  {
    if order == [] then []
    else BlockWrites(order[..|order| - 1], factor) + Block(order[|order| - 1], factor)
  }

  /** The writes of the `zip` of the second capsule shuffle with the leftover positions. */
  function TailWrites(start: nat, end: nat, order: seq<nat>): (ws: seq<Write>)
    ensures |ws| <= |order|
    ensures start <= end <= start + |order| ==> |ws| == end - start
    ensures forall k :: 0 <= k < |ws| ==> ws[k] == (start + k, order[k])
  {
    var n := if end <= start then 0 else if end - start < |order| then end - start else |order|;
    seq(n, k requires 0 <= k < n => (start + k, order[k]))
  }

  /** All writes of one allocation of `n` rooms, in program order. */
  function AllocationWrites(n: nat, capsulesCount: nat, order: seq<nat>, order2: seq<nat>): seq<Write>
    requires capsulesCount > 0
  {
    var factor := n / capsulesCount;
    BlockWrites(order, factor) + TailWrites(factor * capsulesCount, n, order2)
  }

  /** The room a write is about: `rooms[shuffled_rooms[position]]`. */
  function WriteKey(rooms: Dict<int, Room>, shuffled: seq<int>, w: Write): Room
    requires w.0 < |shuffled| && shuffled[w.0] in rooms.at
  {
    rooms.at[shuffled[w.0]]
  }

  ghost predicate WritesInRange(rooms: Dict<int, Room>, shuffled: seq<int>, ws: seq<Write>)
  {
    forall w :: w in ws ==> w.0 < |shuffled| && shuffled[w.0] in rooms.at
  }

  /** A write names a shuffled position holding a known room number. */
  predicate InRange(rooms: Dict<int, Room>, shuffled: seq<int>, w: Write)
  {
    w.0 < |shuffled| && shuffled[w.0] in rooms.at
  }

  /**
   * `room_mapping[room] = capsule_index` for each write in turn. Every
   * write of an allocation is in range (`AllocationInRange`); one that is
   * not would name no room and is passed over.
   */
  function ApplyWrites(d: Assignment, rooms: Dict<int, Room>, shuffled: seq<int>, ws: seq<Write>): (r: Assignment)
    requires d.Valid()
    ensures r.Valid()
    ensures forall k :: k in d.at ==> k in r.at
  {
    if ws == [] then d
    else
      var w := ws[|ws| - 1];
      var before := ApplyWrites(d, rooms, shuffled, ws[..|ws| - 1]);
      if InRange(rooms, shuffled, w) then before.Set(WriteKey(rooms, shuffled, w), Some(w.1)) else before
  }

  /** A room no write is about keeps its value. */
  lemma {:induction false} UnwrittenKeepsValue(d: Assignment, rooms: Dict<int, Room>, shuffled: seq<int>, ws: seq<Write>, k: Room)
    requires d.Valid() && WritesInRange(rooms, shuffled, ws)
    requires forall w :: w in ws ==> WriteKey(rooms, shuffled, w) != k
    ensures k in ApplyWrites(d, rooms, shuffled, ws).at <==> k in d.at
    ensures k in d.at ==> ApplyWrites(d, rooms, shuffled, ws).at[k] == d.at[k]
  {
    if ws != [] {
      assert ws[|ws| - 1] in ws;
      UnwrittenKeepsValue(d, rooms, shuffled, ws[..|ws| - 1], k);
    }
  }

  /** A room some write is about ends with the value of the last write about it, which lies in `[lo, hi)` if all of them do. */
  lemma {:induction false} WrittenInRange(d: Assignment, rooms: Dict<int, Room>, shuffled: seq<int>, ws: seq<Write>, k: Room, lo: int, hi: int)
    requires d.Valid() && WritesInRange(rooms, shuffled, ws)
    requires exists w :: w in ws && WriteKey(rooms, shuffled, w) == k
    requires forall w :: w in ws && WriteKey(rooms, shuffled, w) == k ==> lo <= w.1 < hi
    ensures k in ApplyWrites(d, rooms, shuffled, ws).at
    ensures var v := ApplyWrites(d, rooms, shuffled, ws).at[k]; v.Some? && lo <= v.value < hi
  {
    var last := ws[|ws| - 1];
    assert last in ws;
    if WriteKey(rooms, shuffled, last) != k {
      var w :| w in ws && WriteKey(rooms, shuffled, w) == k;
      assert w in ws[..|ws| - 1] by {
        var j :| 0 <= j < |ws| && ws[j] == w;
        assert ws[..|ws| - 1][j] == w;
      }
      WrittenInRange(d, rooms, shuffled, ws[..|ws| - 1], k, lo, hi);
    }
  }

  // Arithmetic of the blocks.

  lemma MulNonNeg(a: int, b: int)
    requires a >= 0 && b >= 0
    ensures a * b >= 0
  {
  }

  lemma DivUnique(p: int, factor: int, q: int, r: int)
    requires factor > 0 && p == q * factor + r && 0 <= r < factor
    ensures p / factor == q
  {
    var q', r' := p / factor, p % factor;
    assert q' * factor + r' == p;
    if q' > q {
      MulNonNeg(q' - q - 1, factor);
    } else if q' < q {
      MulNonNeg(q - q' - 1, factor);
    }
  }

  /** Position `k` of capsule `c`'s block lies in the block area and divides back to `c`. */
  lemma BlockPosition(c: nat, factor: nat, capsulesCount: nat, k: nat)
    requires c < capsulesCount && k < factor
    ensures c * factor + k < factor * capsulesCount
    ensures (c * factor + k) / factor == c
  {
    MulNonNeg(capsulesCount - c - 1, factor);
    DivUnique(c * factor + k, factor, c, k);
  }

  /** A position of the block area lies in the block of capsule `p // factor`. */
  lemma BlockOf(p: nat, factor: nat, capsulesCount: nat)
    requires factor > 0 && p < factor * capsulesCount
    ensures p / factor < capsulesCount
    ensures (p / factor) * factor <= p < (p / factor) * factor + factor
  {
    var q := p / factor;
    assert q * factor + p % factor == p;
    if q >= capsulesCount {
      MulNonNeg(q - capsulesCount, factor);
    }
  }

  lemma {:induction false} BlockWritesHasBlock(order: seq<nat>, factor: nat, w: Write)
    requires w in BlockWrites(order, factor)
    ensures w.1 in order && w.1 * factor <= w.0 < w.1 * factor + factor
  {
    var init := order[..|order| - 1];
    var c := order[|order| - 1];
    if w in Block(c, factor) {
      var k :| 0 <= k < factor && Block(c, factor)[k] == w;
      assert c in order;
      assert w == (c * factor + k, c);
    } else {
      assert w in BlockWrites(init, factor);
      BlockWritesHasBlock(init, factor, w);
      var j :| 0 <= j < |init| && init[j] == w.1;
      assert order[j] == w.1;
    }
  }

  lemma {:induction false} BlockWritesCover(order: seq<nat>, factor: nat, c: nat, k: nat)
    requires c in order && k < factor
    ensures (c * factor + k, c) in BlockWrites(order, factor)
  {
    var init := order[..|order| - 1];
    if order[|order| - 1] == c {
      assert Block(c, factor)[k] == (c * factor + k, c);
    } else {
      var j :| 0 <= j < |order| && order[j] == c;
      assert init[j] == c;
      BlockWritesCover(init, factor, c, k);
    }
  }

  /**
   * The capsule a shuffled position is given: a block position `p` goes to
   * capsule `p // factor`, a leftover position to the matching entry of the
   * second shuffle.
   */
  function Target(p: nat, factor: nat, capsulesCount: nat, order2: seq<nat>): int
    requires factor * capsulesCount <= p ==> p - factor * capsulesCount < |order2|
  {
    if p < factor * capsulesCount then p / factor else order2[p - factor * capsulesCount]
  }

  /** `order` is a shuffle of `range(capsules_count)`. */
  ghost predicate IsCapsuleOrder(order: seq<nat>, capsulesCount: nat)
  {
    multiset(order) == multiset(Range(capsulesCount))
  }

  lemma CapsuleOrderFacts(order: seq<nat>, capsulesCount: nat)
    requires IsCapsuleOrder(order, capsulesCount)
    ensures |order| == capsulesCount
    ensures forall c :: c in order <==> 0 <= c < capsulesCount
    ensures Distinct(order)
  {
    assert |order| == |multiset(order)| == |multiset(Range(capsulesCount))| == capsulesCount;
    forall c ensures c in order <==> 0 <= c < capsulesCount {
      assert c in order <==> c in multiset(order);
      assert c in Range(capsulesCount) <==> c in multiset(Range(capsulesCount));
      if 0 <= c < capsulesCount { assert Range(capsulesCount)[c] == c; }
    }
    forall i, j | 0 <= i < j < |order| ensures order[i] != order[j] {
      if order[i] == order[j] {
        var c := order[i];
        assert multiset(order)[c] >= 2 by {
          assert order == order[..i] + [c] + order[i + 1..j] + [c] + order[j + 1..];
        }
        RangeOnce(capsulesCount, c);
      }
    }
  }

  lemma {:induction false} RangeOnce(n: nat, c: int)
    ensures multiset(Range(n))[c] <= 1
  {
    if n > 0 {
      RangeOnce(n - 1, c);
      assert Range(n) == Range(n - 1) + [n - 1];
      if c == n - 1 {
        assert c !in Range(n - 1);
      }
    }
  }

  /** `len(rooms) // capsules_count` blocks leave fewer than `capsules_count` positions over. */
  lemma FactorBounds(n: nat, capsulesCount: nat)
    requires capsulesCount > 0
    ensures n / capsulesCount >= 0 && (n / capsulesCount) * capsulesCount >= 0
    ensures (n / capsulesCount) * capsulesCount <= n < (n / capsulesCount) * capsulesCount + capsulesCount
  {
    assert (n / capsulesCount) * capsulesCount + n % capsulesCount == n;
  }

  lemma BlockPart(order: seq<nat>, factor: nat, capsulesCount: nat, order2: seq<nat>)
    requires forall c :: c in order <==> 0 <= c < capsulesCount
    ensures forall w :: w in BlockWrites(order, factor) ==>
      w.0 < factor * capsulesCount && w.1 == Target(w.0, factor, capsulesCount, order2) && 0 <= w.1 < capsulesCount
    ensures forall p :: 0 <= p < factor * capsulesCount ==>
      (p, Target(p, factor, capsulesCount, order2)) in BlockWrites(order, factor)
  {
    var blocks := BlockWrites(order, factor);
    forall w | w in blocks
      ensures w.0 < factor * capsulesCount && w.1 == Target(w.0, factor, capsulesCount, order2) && 0 <= w.1 < capsulesCount
    {
      BlockWritesHasBlock(order, factor, w);
      BlockPosition(w.1, factor, capsulesCount, w.0 - w.1 * factor);
    }
    forall p | 0 <= p < factor * capsulesCount ensures (p, Target(p, factor, capsulesCount, order2)) in blocks {
      BlockOf(p, factor, capsulesCount);
      var c := p / factor;
      BlockWritesCover(order, factor, c, p - c * factor);
    }
  }

  lemma TailPart(start: nat, n: nat, factor: nat, capsulesCount: nat, order2: seq<nat>)
    requires start == factor * capsulesCount && start <= n <= start + |order2|
    requires forall c :: c in order2 ==> 0 <= c < capsulesCount
    ensures forall w :: w in TailWrites(start, n, order2) ==>
      start <= w.0 < n && w.1 == Target(w.0, factor, capsulesCount, order2) && 0 <= w.1 < capsulesCount
    ensures forall p :: start <= p < n ==> (p, Target(p, factor, capsulesCount, order2)) in TailWrites(start, n, order2)
  {
    var tail := TailWrites(start, n, order2);
    forall w | w in tail
      ensures start <= w.0 < n && w.1 == Target(w.0, factor, capsulesCount, order2) && 0 <= w.1 < capsulesCount
    {
      var k :| 0 <= k < |tail| && tail[k] == w;
      assert order2[k] in order2;
    }
    forall p | start <= p < n ensures (p, Target(p, factor, capsulesCount, order2)) in tail {
      assert tail[p - start] == (p, order2[p - start]);
    }
  }

  /**
   * The writes of one allocation: every shuffled position is written, and
   * every write to position `p` gives capsule `Target(p)`, in range.
   */
  lemma AllocationWritesSpec(n: nat, capsulesCount: nat, order: seq<nat>, order2: seq<nat>)
    requires capsulesCount > 0
    requires IsCapsuleOrder(order, capsulesCount) && IsCapsuleOrder(order2, capsulesCount)
    ensures var factor := n / capsulesCount;
      && (factor * capsulesCount <= n < factor * capsulesCount + |order2|)
      && (forall w :: w in AllocationWrites(n, capsulesCount, order, order2) ==>
            w.0 < n && w.1 == Target(w.0, factor, capsulesCount, order2) && 0 <= w.1 < capsulesCount)
      && (forall p :: 0 <= p < n ==> (p, Target(p, factor, capsulesCount, order2)) in AllocationWrites(n, capsulesCount, order, order2))
  {
    var factor := n / capsulesCount;
    CapsuleOrderFacts(order, capsulesCount);
    CapsuleOrderFacts(order2, capsulesCount);
    FactorBounds(n, capsulesCount);
    var start := factor * capsulesCount;
    BlockPart(order, factor, capsulesCount, order2);
    TailPart(start, n, factor, capsulesCount, order2);
  }

  /** Every room is filed under its own number. */
  ghost predicate Indexed(rooms: Dict<int, Room>)
  {
    forall k :: k in rooms.at ==> rooms.at[k].index == k
  }

  /** The new mapping `r` is `d` with the rooms numbered `shuffled` given capsules in `range(capsules_count)`. */
  ghost predicate Allocated(d: Assignment, r: Assignment, rooms: Dict<int, Room>, shuffled: seq<int>, capsulesCount: nat)
    requires forall p :: 0 <= p < |shuffled| ==> shuffled[p] in rooms.at
  {
    && (forall p :: 0 <= p < |shuffled| ==>
          rooms.at[shuffled[p]] in r.at && r.at[rooms.at[shuffled[p]]].Some? && 0 <= r.at[rooms.at[shuffled[p]]].value < capsulesCount)
    && (forall x :: x in d.at && (forall p :: 0 <= p < |shuffled| ==> rooms.at[shuffled[p]] != x) ==> x in r.at && r.at[x] == d.at[x])
    && (forall x :: x in r.at ==> x in d.at || exists p :: 0 <= p < |shuffled| && rooms.at[shuffled[p]] == x)
  }

  lemma AllocationInRange(n: nat, capsulesCount: nat, order: seq<nat>, order2: seq<nat>, rooms: Dict<int, Room>, shuffled: seq<int>)
    requires capsulesCount > 0 && n == |shuffled|
    requires IsCapsuleOrder(order, capsulesCount) && IsCapsuleOrder(order2, capsulesCount)
    requires forall p :: 0 <= p < |shuffled| ==> shuffled[p] in rooms.at
    ensures WritesInRange(rooms, shuffled, AllocationWrites(n, capsulesCount, order, order2))
  {
    AllocationWritesSpec(n, capsulesCount, order, order2);
  }

  /**
   * Whatever the draws, an allocation of the rooms numbered `shuffled`
   * gives each of them a capsule in `range(capsules_count)`, adds no other
   * key and leaves every other room's capsule alone.
   */
  lemma AllocationAssigns(d: Assignment, rooms: Dict<int, Room>, shuffled: seq<int>, capsulesCount: nat, order: seq<nat>, order2: seq<nat>)
    requires d.Valid() && capsulesCount > 0
    requires IsCapsuleOrder(order, capsulesCount) && IsCapsuleOrder(order2, capsulesCount)
    requires forall p :: 0 <= p < |shuffled| ==> shuffled[p] in rooms.at
    ensures WritesInRange(rooms, shuffled, AllocationWrites(|shuffled|, capsulesCount, order, order2))
    ensures Allocated(d, ApplyWrites(d, rooms, shuffled, AllocationWrites(|shuffled|, capsulesCount, order, order2)), rooms, shuffled, capsulesCount)
  {
    var n := |shuffled|;
    var ws := AllocationWrites(n, capsulesCount, order, order2);
    AllocationInRange(n, capsulesCount, order, order2, rooms, shuffled);
    var r := ApplyWrites(d, rooms, shuffled, ws);
    AssignedInRange(d, rooms, shuffled, capsulesCount, order, order2);
    forall x | x in d.at && (forall p :: 0 <= p < n ==> rooms.at[shuffled[p]] != x)
      ensures x in r.at && r.at[x] == d.at[x]
    {
      NotWritten(rooms, shuffled, capsulesCount, order, order2, x);
      UnwrittenKeepsValue(d, rooms, shuffled, ws, x);
    }
    forall x | x in r.at ensures x in d.at || exists p :: 0 <= p < n && rooms.at[shuffled[p]] == x {
      if x !in d.at && forall p :: 0 <= p < n ==> rooms.at[shuffled[p]] != x {
        NotWritten(rooms, shuffled, capsulesCount, order, order2, x);
        UnwrittenKeepsValue(d, rooms, shuffled, ws, x);
      }
    }
  }

  lemma NotWritten(rooms: Dict<int, Room>, shuffled: seq<int>, capsulesCount: nat, order: seq<nat>, order2: seq<nat>, x: Room)
    requires capsulesCount > 0
    requires IsCapsuleOrder(order, capsulesCount) && IsCapsuleOrder(order2, capsulesCount)
    requires forall p :: 0 <= p < |shuffled| ==> shuffled[p] in rooms.at
    requires forall p :: 0 <= p < |shuffled| ==> rooms.at[shuffled[p]] != x
    ensures WritesInRange(rooms, shuffled, AllocationWrites(|shuffled|, capsulesCount, order, order2))
    ensures forall w :: w in AllocationWrites(|shuffled|, capsulesCount, order, order2) ==> WriteKey(rooms, shuffled, w) != x
  {
    AllocationInRange(|shuffled|, capsulesCount, order, order2, rooms, shuffled);
  }

  lemma AssignedInRange(d: Assignment, rooms: Dict<int, Room>, shuffled: seq<int>, capsulesCount: nat, order: seq<nat>, order2: seq<nat>)
    requires d.Valid() && capsulesCount > 0
    requires IsCapsuleOrder(order, capsulesCount) && IsCapsuleOrder(order2, capsulesCount)
    requires forall p :: 0 <= p < |shuffled| ==> shuffled[p] in rooms.at
    ensures WritesInRange(rooms, shuffled, AllocationWrites(|shuffled|, capsulesCount, order, order2))
    ensures var r := ApplyWrites(d, rooms, shuffled, AllocationWrites(|shuffled|, capsulesCount, order, order2));
      forall p :: 0 <= p < |shuffled| ==>
        rooms.at[shuffled[p]] in r.at && r.at[rooms.at[shuffled[p]]].Some? && 0 <= r.at[rooms.at[shuffled[p]]].value < capsulesCount
  {
    var n := |shuffled|;
    var ws := AllocationWrites(n, capsulesCount, order, order2);
    AllocationWritesSpec(n, capsulesCount, order, order2);
    forall p | 0 <= p < n
      ensures var r := ApplyWrites(d, rooms, shuffled, ws);
        rooms.at[shuffled[p]] in r.at && r.at[rooms.at[shuffled[p]]].Some? && 0 <= r.at[rooms.at[shuffled[p]]].value < capsulesCount
    {
      var w := (p, Target(p, n / capsulesCount, capsulesCount, order2));
      assert w in ws;
      assert WriteKey(rooms, shuffled, w) == rooms.at[shuffled[p]];
      WrittenInRange(d, rooms, shuffled, ws, rooms.at[shuffled[p]], 0, capsulesCount);
    }
  }

  /**
   * When the room numbers are distinct, the room at shuffled position `p`
   * ends in capsule `Target(p)`: the block of its position, or the
   * matching capsule of the second shuffle for a leftover position.
   */
  lemma AllocationTargets(d: Assignment, rooms: Dict<int, Room>, shuffled: seq<int>, capsulesCount: nat, order: seq<nat>, order2: seq<nat>, p: nat)
    requires d.Valid() && capsulesCount > 0
    requires IsCapsuleOrder(order, capsulesCount) && IsCapsuleOrder(order2, capsulesCount)
    requires forall q :: 0 <= q < |shuffled| ==> shuffled[q] in rooms.at
    requires Distinct(shuffled) && Indexed(rooms)
    requires p < |shuffled|
    ensures WritesInRange(rooms, shuffled, AllocationWrites(|shuffled|, capsulesCount, order, order2))
    ensures |shuffled| / capsulesCount * capsulesCount <= p ==> p - |shuffled| / capsulesCount * capsulesCount < |order2|
    ensures var r := ApplyWrites(d, rooms, shuffled, AllocationWrites(|shuffled|, capsulesCount, order, order2));
      rooms.at[shuffled[p]] in r.at && r.at[rooms.at[shuffled[p]]] == Some(Target(p, |shuffled| / capsulesCount, capsulesCount, order2))
  {
    var n := |shuffled|;
    var factor := n / capsulesCount;
    var ws := AllocationWrites(n, capsulesCount, order, order2);
    AllocationWritesSpec(n, capsulesCount, order, order2);
    var t := Target(p, factor, capsulesCount, order2);
    assert (p, t) in ws;
    LastWriteOfPosition(d, rooms, shuffled, ws, p, t);
  }

  /** A position whose every write gives capsule `t` ends in capsule `t`. */
  lemma LastWriteOfPosition(d: Assignment, rooms: Dict<int, Room>, shuffled: seq<int>, ws: seq<Write>, p: nat, t: int)
    requires d.Valid() && WritesInRange(rooms, shuffled, ws)
    requires Distinct(shuffled) && Indexed(rooms)
    requires (p, t) in ws
    requires forall w :: w in ws && w.0 == p ==> w.1 == t
    ensures p < |shuffled| && shuffled[p] in rooms.at
    ensures var r := ApplyWrites(d, rooms, shuffled, ws);
      rooms.at[shuffled[p]] in r.at && r.at[rooms.at[shuffled[p]]] == Some(t)
  {
    var x := WriteKey(rooms, shuffled, (p, t));
    forall w | w in ws && WriteKey(rooms, shuffled, w) == x ensures t <= w.1 < t + 1 {
      SameRoomSamePosition(rooms, shuffled, w.0, p);
    }
    WrittenInRange(d, rooms, shuffled, ws, x, t, t + 1);
  }

  /** With distinct room numbers, two shuffled positions holding the same room are one position. */
  lemma SameRoomSamePosition(rooms: Dict<int, Room>, shuffled: seq<int>, q: nat, p: nat)
    requires Distinct(shuffled) && Indexed(rooms)
    requires q < |shuffled| && p < |shuffled| && shuffled[q] in rooms.at && shuffled[p] in rooms.at
    requires rooms.at[shuffled[q]] == rooms.at[shuffled[p]]
    ensures q == p
  {
    assert rooms.at[shuffled[q]].index == shuffled[q];
    assert rooms.at[shuffled[p]].index == shuffled[p];
    if q != p {
      DistinctAt(shuffled, q, p);
    }
  }

  // Steps of the allocation loops.

  lemma ApplyWritesSnoc(d: Assignment, rooms: Dict<int, Room>, shuffled: seq<int>, ws: seq<Write>, w: Write)
    requires d.Valid() && InRange(rooms, shuffled, w)
    ensures ApplyWrites(d, rooms, shuffled, ws + [w])
         == ApplyWrites(d, rooms, shuffled, ws).Set(WriteKey(rooms, shuffled, w), Some(w.1))
  {
    assert (ws + [w])[..|ws|] == ws;
  }

  lemma BlocksInRange(order: seq<nat>, factor: nat, capsulesCount: nat, rooms: Dict<int, Room>, shuffled: seq<int>)
    requires forall c :: c in order ==> c < capsulesCount
    requires factor * capsulesCount <= |shuffled|
    requires forall p :: 0 <= p < |shuffled| ==> shuffled[p] in rooms.at
    ensures WritesInRange(rooms, shuffled, BlockWrites(order, factor))
  {
    forall w | w in BlockWrites(order, factor) ensures w.0 < |shuffled| && shuffled[w.0] in rooms.at {
      BlockWritesHasBlock(order, factor, w);
      BlockPosition(w.1, factor, capsulesCount, w.0 - w.1 * factor);
    }
  }

  lemma BlockPrefixInRange(order: seq<nat>, i: nat, k: nat, factor: nat, capsulesCount: nat, rooms: Dict<int, Room>, shuffled: seq<int>)
    requires i < |order| && k <= factor
    requires forall c :: c in order ==> c < capsulesCount
    requires factor * capsulesCount <= |shuffled|
    requires forall p :: 0 <= p < |shuffled| ==> shuffled[p] in rooms.at
    ensures WritesInRange(rooms, shuffled, BlockWrites(order[..i], factor) + Block(order[i], factor)[..k])
  {
    assert forall c :: c in order[..i] ==> c in order;
    BlocksInRange(order[..i], factor, capsulesCount, rooms, shuffled);
    var c := order[i];
    assert c in order;
    forall w | w in Block(c, factor)[..k] ensures w.0 < |shuffled| && shuffled[w.0] in rooms.at {
      var j :| 0 <= j < k && Block(c, factor)[..k][j] == w;
      BlockPosition(c, factor, capsulesCount, j);
    }
  }

  /** The writes of the block loop before element `k` of the block of `order[i]`. */
  function BlockPrefix(order: seq<nat>, factor: nat, i: nat, k: nat): seq<Write>
    requires i < |order| && k <= factor
  {
    BlockWrites(order[..i], factor) + Block(order[i], factor)[..k]
  }

  /** Capsule `c`'s block `[c * factor, (c + 1) * factor)` lies inside the block area. */
  lemma BlockBounds(c: nat, factor: nat, capsulesCount: nat)
    requires c < capsulesCount
    ensures 0 <= c * factor
    ensures (c + 1) * factor == c * factor + factor
    ensures c * factor + factor <= factor * capsulesCount
  {
    MulNonNeg(c, factor);
    MulNonNeg(capsulesCount - c - 1, factor);
    assert factor * capsulesCount == (c + 1) * factor + (capsulesCount - c - 1) * factor;
  }

  /** One write of the inner block loop. */
  lemma BlockStep(d0: Assignment, rooms: Dict<int, Room>, shuffled: seq<int>, order: seq<nat>, factor: nat, i: nat, k: nat)
    requires d0.Valid() && i < |order| && k < factor
    requires Block(order[i], factor)[k].0 < |shuffled|
    requires forall p :: 0 <= p < |shuffled| ==> shuffled[p] in rooms.at
    ensures ApplyWrites(d0, rooms, shuffled, BlockPrefix(order, factor, i, k + 1))
         == ApplyWrites(d0, rooms, shuffled, BlockPrefix(order, factor, i, k)).Set(rooms.at[shuffled[Block(order[i], factor)[k].0]], Some(order[i]))
  {
    var w := Block(order[i], factor)[k];
    var before := BlockPrefix(order, factor, i, k);
    assert BlockPrefix(order, factor, i, k + 1) == before + [w];
    ApplyWritesSnoc(d0, rooms, shuffled, before, w);
  }

  /** One write of the inner block loop, stated on the slice of capsule `order[i]`. */
  lemma BlockStepAt(d0: Assignment, rooms: Dict<int, Room>, shuffled: seq<int>, order: seq<nat>, factor: nat, i: nat, k: nat,
                    lo: nat, block: seq<int>)
    requires d0.Valid() && i < |order| && k < factor
    requires forall p :: 0 <= p < |shuffled| ==> shuffled[p] in rooms.at
    requires lo == order[i] * factor && lo + factor <= |shuffled| && block == shuffled[lo .. lo + factor]
    ensures k < |block| && block[k] in rooms.at
    ensures ApplyWrites(d0, rooms, shuffled, BlockPrefix(order, factor, i, k + 1))
         == ApplyWrites(d0, rooms, shuffled, BlockPrefix(order, factor, i, k)).Set(rooms.at[block[k]], Some(order[i]))
  {
    assert Block(order[i], factor)[k].0 == lo + k;
    assert block[k] == shuffled[lo + k];
    BlockStep(d0, rooms, shuffled, order, factor, i, k);
  }

  /** A finished block is the next capsule's share of the block writes. */
  lemma BlockDone(order: seq<nat>, factor: nat, i: nat)
    requires i < |order|
    ensures BlockPrefix(order, factor, i, factor) == BlockWrites(order[..i + 1], factor)
    ensures BlockPrefix(order, factor, i, 0) == BlockWrites(order[..i], factor)
  {
    assert order[..i + 1][..i] == order[..i];
    assert Block(order[i], factor)[..factor] == Block(order[i], factor);
    assert BlockWrites(order[..i], factor) + [] == BlockWrites(order[..i], factor);
  }

  /** The first `j` passes of the leftover loop, room `leftover[q]` getting capsule `order2[q]`. */
  function TailApplied(d: Assignment, rooms: Dict<int, Room>, leftover: seq<int>, order2: seq<nat>, j: nat): (r: Assignment)
    requires d.Valid() && j <= |leftover| && j <= |order2|
    requires forall q :: 0 <= q < j ==> leftover[q] in rooms.at
    ensures r.Valid()
  {
    if j == 0 then d
    else TailApplied(d, rooms, leftover, order2, j - 1).Set(rooms.at[leftover[j - 1]], Some(order2[j - 1]))
  }

  /** The leftover loop's passes are the writes `TailWrites` lists, made after the block writes. */
  lemma {:induction false} TailAppliedWrites(d0: Assignment, rooms: Dict<int, Room>, shuffled: seq<int>, blocks: seq<Write>, start: nat,
                                             leftover: seq<int>, order2: seq<nat>, j: nat)
    requires d0.Valid()
    requires start <= |shuffled| && leftover == shuffled[start..] && j <= |leftover| && j <= |order2|
    requires forall p :: 0 <= p < |shuffled| ==> shuffled[p] in rooms.at
    ensures forall q :: 0 <= q < j ==> leftover[q] in rooms.at
    ensures TailApplied(ApplyWrites(d0, rooms, shuffled, blocks), rooms, leftover, order2, j)
         == ApplyWrites(d0, rooms, shuffled, blocks + TailWrites(start, |shuffled|, order2)[..j])
    decreases j
  {
    assert forall q :: 0 <= q < |leftover| ==> leftover[q] == shuffled[start + q];
    var base := ApplyWrites(d0, rooms, shuffled, blocks);
    var tail := TailWrites(start, |shuffled|, order2);
    if j == 0 {
      AppendTakeNone(blocks, tail);
    } else {
      TailAppliedWrites(d0, rooms, shuffled, blocks, start, leftover, order2, j - 1);
      TailStep(d0, rooms, shuffled, blocks, start, leftover, order2, j - 1);
      var before := TailApplied(base, rooms, leftover, order2, j - 1);
      assert before == ApplyWrites(d0, rooms, shuffled, blocks + tail[..j - 1]);
      assert TailApplied(base, rooms, leftover, order2, j) == before.Set(rooms.at[leftover[j - 1]], Some(order2[j - 1]));
    }
  }

  /** One write of the leftover loop, stated on the slice `leftover == shuffled[start..]`. */
  lemma TailStep(d0: Assignment, rooms: Dict<int, Room>, shuffled: seq<int>, blocks: seq<Write>, start: nat,
                 leftover: seq<int>, order2: seq<nat>, j: nat)
    requires d0.Valid()
    requires start <= |shuffled| && leftover == shuffled[start..] && j < |leftover| && j < |order2|
    requires forall p :: 0 <= p < |shuffled| ==> shuffled[p] in rooms.at
    ensures leftover[j] in rooms.at
    ensures ApplyWrites(d0, rooms, shuffled, blocks + TailWrites(start, |shuffled|, order2)[..j + 1])
         == ApplyWrites(d0, rooms, shuffled, blocks + TailWrites(start, |shuffled|, order2)[..j]).Set(rooms.at[leftover[j]], Some(order2[j]))
  {
    var tail := TailWrites(start, |shuffled|, order2);
    var w := tail[j];
    assert w == (start + j, order2[j]);
    assert leftover[j] == shuffled[start + j];
    var before := blocks + tail[..j];
    assert blocks + tail[..j + 1] == before + [w];
    assert WriteKey(rooms, shuffled, w) == rooms.at[shuffled[start + j]];
    ApplyWritesSnoc(d0, rooms, shuffled, before, w);
  }

  // How many rooms each capsule receives.

  /** Blocks of `factor` copies of `0, 1, ..., k - 1`: the block part of the allocation. */
  function Blocks(factor: nat, k: nat): seq<int>
  {
    if k == 0 then [] else Blocks(factor, k - 1) + Copies(k - 1, factor)
  }

  lemma {:induction false} BlocksLength(factor: nat, k: nat)
    ensures |Blocks(factor, k)| == factor * k
  {
    if k > 0 {
      BlocksLength(factor, k - 1);
      assert factor * k == factor * (k - 1) + factor;
    }
  }

  /**
   * The capsule of every shuffled position of `n` rooms: the blocks, then
   * the leftover positions in the order of the second capsule shuffle.
   */
  function Targets(n: nat, capsulesCount: nat, order2: seq<nat>): (r: seq<int>)
    requires capsulesCount > 0 && |order2| == capsulesCount
    ensures |r| == n
  {
    BlocksLength(n / capsulesCount, capsulesCount);
    Blocks(n / capsulesCount, capsulesCount) + order2[..n % capsulesCount]
  }

  lemma {:induction false} BlocksAt(factor: nat, k: nat, p: nat)
    requires factor > 0 && p < |Blocks(factor, k)|
    ensures Blocks(factor, k)[p] == p / factor
  {
    var front := Blocks(factor, k - 1);
    if p < |front| {
      BlocksAt(factor, k - 1, p);
    } else {
      BlocksLength(factor, k - 1);
      DivUnique(p, factor, k - 1, p - |front|);
    }
  }

  lemma {:induction false} BlocksCount(factor: nat, k: nat, c: int)
    ensures Count(Blocks(factor, k), c) == if 0 <= c < k then factor else 0
  {
    if k > 0 {
      CountAppend(Blocks(factor, k - 1), Copies(k - 1, factor), c);
      BlocksCount(factor, k - 1, c);
      CountCopies(k - 1, factor, c);
    }
  }


  /** `Targets` is `Target` at every position: the capsule the allocation gives each shuffled room. */
  lemma TargetsAt(n: nat, capsulesCount: nat, order2: seq<nat>, p: nat)
    requires capsulesCount > 0 && |order2| == capsulesCount && p < n
    ensures n / capsulesCount * capsulesCount <= p ==> p - n / capsulesCount * capsulesCount < |order2|
    ensures Targets(n, capsulesCount, order2)[p] == Target(p, n / capsulesCount, capsulesCount, order2)
  {
    var factor, m := n / capsulesCount, n % capsulesCount;
    FactorBounds(n, capsulesCount);
    BlocksLength(factor, capsulesCount);
    var blocks := Blocks(factor, capsulesCount);
    assert n == |blocks| + m;
    if p < |blocks| {
      BlocksAt(factor, capsulesCount, p);
    } else {
      assert Targets(n, capsulesCount, order2)[p] == order2[..m][p - |blocks|];
    }
  }

  /** A prefix of a capsule shuffle names each capsule at most once, and no other number. */
  lemma LeftoverOnce(order2: seq<nat>, capsulesCount: nat, m: nat, c: int)
    requires IsCapsuleOrder(order2, capsulesCount) && m <= |order2|
    ensures Count(order2[..m], c) <= 1
    ensures Count(order2[..m], c) == 1 <==> c in order2[..m]
    ensures !(0 <= c < capsulesCount) ==> c !in order2[..m]
  {
    CapsuleOrderFacts(order2, capsulesCount);
    CountMultiset(order2[..m], c);
    assert order2 == order2[..m] + order2[m..];
    RangeOnce(capsulesCount, c);
    assert multiset(order2[..m])[c] <= multiset(order2)[c];
  }

  /**
   * Each capsule receives `factor` rooms from the blocks and at most one
   * leftover room, and only the capsules numbered `0 .. capsules_count - 1`
   * receive any: every capsule gets `factor` or `factor + 1` rooms, the
   * extra one exactly when it is among the first `len(rooms) % capsules_count`
   * entries of the second capsule shuffle.
   */
  lemma TargetShares(n: nat, capsulesCount: nat, order2: seq<nat>, c: int)
    requires capsulesCount > 0 && IsCapsuleOrder(order2, capsulesCount)
    ensures |order2| == capsulesCount
    ensures var factor := n / capsulesCount;
      var count := Count(Targets(n, capsulesCount, order2), c);
      && (0 <= c < capsulesCount ==> factor <= count <= factor + 1)
      && (0 <= c < capsulesCount ==> (count == factor + 1 <==> c in order2[..n % capsulesCount]))
      && (!(0 <= c < capsulesCount) ==> count == 0)
  {
    CapsuleOrderFacts(order2, capsulesCount);
    var factor, m := n / capsulesCount, n % capsulesCount;
    CountAppend(Blocks(factor, capsulesCount), order2[..m], c);
    BlocksCount(factor, capsulesCount, c);
    LeftoverOnce(order2, capsulesCount, m, c);
  }

  /**
   * The room at every shuffled position goes to the capsule `Targets`
   * names there, so by `TargetShares` each capsule receives `factor` or
   * `factor + 1` of the shuffled rooms.
   */
  lemma AllocationShares(d: Assignment, rooms: Dict<int, Room>, shuffled: seq<int>, capsulesCount: nat, order: seq<nat>, order2: seq<nat>)
    requires d.Valid() && capsulesCount > 0
    requires IsCapsuleOrder(order, capsulesCount) && IsCapsuleOrder(order2, capsulesCount)
    requires forall q :: 0 <= q < |shuffled| ==> shuffled[q] in rooms.at
    requires Distinct(shuffled) && Indexed(rooms)
    ensures |order2| == capsulesCount
    ensures var r := ApplyWrites(d, rooms, shuffled, AllocationWrites(|shuffled|, capsulesCount, order, order2));
      forall p :: 0 <= p < |shuffled| ==>
        rooms.at[shuffled[p]] in r.at && r.at[rooms.at[shuffled[p]]] == Some(Targets(|shuffled|, capsulesCount, order2)[p])
  {
    CapsuleOrderFacts(order2, capsulesCount);
    forall p | 0 <= p < |shuffled|
      ensures var r := ApplyWrites(d, rooms, shuffled, AllocationWrites(|shuffled|, capsulesCount, order, order2));
        rooms.at[shuffled[p]] in r.at && r.at[rooms.at[shuffled[p]]] == Some(Targets(|shuffled|, capsulesCount, order2)[p])
    {
      AllocationTargets(d, rooms, shuffled, capsulesCount, order, order2, p);
      TargetsAt(|shuffled|, capsulesCount, order2, p);
    }
  }
}
