/**
 * The constraint evaluators: each is a pure function of a capsule index and
 * the capsule's rooms, answering whether the rooms satisfy it and, if not,
 * which actions would repair it.
 */
module Constraints {

  import opened Common
  import opened PyDict
  import opened Entities

  /** The `(is_valid, state)` pair an evaluator returns. */
  datatype Verdict = Verdict(valid: bool, actions: seq<Action>)

  const Pass := Verdict(true, [])

  /** `[Reduce(capsule_index, room) for room in rooms]`. */
  function ReduceEach(capsuleIndex: int, rooms: seq<Room>): (r: seq<Action>)
    ensures |r| == |rooms|
    ensures forall i :: 0 <= i < |rooms| ==> r[i] == Reduce(capsuleIndex, rooms[i])
  {
    seq(|rooms|, i requires 0 <= i < |rooms| => Reduce(capsuleIndex, rooms[i]))
  }

  /** The rooms of `rooms` with gender `g`, in order. */
  function WithGender(rooms: seq<Room>, g: Gender): (r: seq<Room>)
    ensures |r| <= |rooms|
    ensures forall x :: x in r ==> x in rooms && x.gender == g
    ensures forall x :: x in rooms && x.gender == g ==> x in r
  {
    if rooms == [] then []
    else if rooms[0].gender == g then [rooms[0]] + WithGender(rooms[1..], g)
    else WithGender(rooms[1..], g)
  }

  /** The other gender. */
  function Opposite(g: Gender): Gender
  {
    if g == Male then Female else Male
  }

  /**
   * The gender `Counter(...).most_common()[-1]` names when both genders
   * occur: `most_common` sorts by count, highest first, and keeps equal
   * counts in order of first occurrence, so the last entry is the
   * first-seen gender when it is strictly rarer and the other one otherwise.
   */
  function LeastCommonGender(rooms: seq<Room>): (g: Gender)
    requires rooms != []
    ensures |WithGender(rooms, g)| <= |WithGender(rooms, Opposite(g))|
    ensures |WithGender(rooms, g)| == |WithGender(rooms, Opposite(g))| ==> g != rooms[0].gender
  {
    var first := rooms[0].gender;
    if |WithGender(rooms, first)| < |WithGender(rooms, Opposite(first))| then first else Opposite(first)
  }

  /** Number of distinct genders among the rooms (`len(Counter(...))`). */
  function GenderCount(rooms: seq<Room>): (n: nat)
    ensures n <= 2
    ensures n == 0 <==> rooms == []
  {
    (if WithGender(rooms, Female) != [] then 1 else 0) + (if WithGender(rooms, Male) != [] then 1 else 0)
  }

  /**
   * `GenderConstraint.is_valid`: one gender is valid; two genders is
   * invalid, with a `Reduce` for every room of the least common gender;
   * any other count of genders raises `ValueError`.
   */
  function GenderIsValid(capsuleIndex: int, rooms: seq<Room>): (r: Result<Verdict>)
    ensures r.Err? <==> rooms == []
    ensures r.Err? ==> r.error == GenderCountError(0)
    ensures r.Ok? && r.value.valid ==> r.value.actions == []
    ensures r.Ok? ==> (r.value.valid <==> forall i :: 0 <= i < |rooms| ==> rooms[i].gender == rooms[0].gender)
    ensures r.Ok? && !r.value.valid ==>
      var g := LeastCommonGender(rooms);
      && r.value.actions == ReduceEach(capsuleIndex, WithGender(rooms, g))
      && 0 < |WithGender(rooms, g)| <= |WithGender(rooms, Opposite(g))|
  {
    var n := GenderCount(rooms);
    if n == 1 then
      assert forall i :: 0 <= i < |rooms| ==> rooms[i].gender == rooms[0].gender by {
        assert rooms[0] in WithGender(rooms, rooms[0].gender);
        forall i | 0 <= i < |rooms| ensures rooms[i].gender == rooms[0].gender {
          assert rooms[i] in WithGender(rooms, rooms[i].gender);
        }
      }
      Ok(Pass)
    else if n == 2 then
      assert rooms[0] in WithGender(rooms, rooms[0].gender);
      assert WithGender(rooms, Opposite(rooms[0].gender)) != [];
      var x := WithGender(rooms, Opposite(rooms[0].gender))[0];
      assert x in rooms && x.gender != rooms[0].gender;
      var least := LeastCommonGender(rooms);
      assert WithGender(rooms, least) != [];
      Ok(Verdict(false, ReduceEach(capsuleIndex, WithGender(rooms, least))))
    else
      Err(GenderCountError(n))
  }

  /** Python's `s[:k]`: a negative `k` counts from the end, out-of-range bounds are clipped. */
  function PrefixSlice<T>(s: seq<T>, k: int): (r: seq<T>)
    ensures 0 <= k ==> r == s[..if k < |s| then k else |s|]
    ensures k < 0 ==> r == s[..if |s| + k < 0 then 0 else |s| + k]
  {
    var end := if k < 0 then |s| + k else k;
    s[..if end < 0 then 0 else if end > |s| then |s| else end]
  }

  /**
   * `RoomCountConstraint(max).is_valid`: valid iff strictly fewer than
   * `max` rooms; otherwise `Reduce` for `rooms[:max - len(rooms)]`.
   */
  function RoomCountIsValid(maxRoomCount: int, capsuleIndex: int, rooms: seq<Room>): (v: Verdict)
    ensures v.valid <==> |rooms| < maxRoomCount
    ensures v.valid ==> v.actions == []
    ensures |rooms| == maxRoomCount ==> !v.valid && v.actions == []
    ensures |rooms| > maxRoomCount ==>
      v.actions == ReduceEach(capsuleIndex, rooms[..if maxRoomCount < 0 then 0 else maxRoomCount])
  {
    var valid := |rooms| < maxRoomCount;
    if valid then Verdict(true, [])
    else
      var toReduce := maxRoomCount - |rooms|;
      Verdict(false, ReduceEach(capsuleIndex, PrefixSlice(rooms, toReduce)))
  }

  /**
   * `ConnectingConstraint(room1, room2).is_valid`: invalid iff exactly one
   * of the two rooms is in the capsule, and then the one action adds the
   * absent room to this capsule.
   */
  function ConnectingIsValid(room1: Room, room2: Room, capsuleIndex: int, rooms: seq<Room>): (v: Verdict)
    ensures v.valid <==> (room1 in rooms <==> room2 in rooms)
    ensures v.valid ==> v.actions == []
    ensures !v.valid ==>
      && |v.actions| == 1
      && v.actions[0].Add? && v.actions[0].capsuleIndex == capsuleIndex
      && v.actions[0].room in {room1, room2}
      && v.actions[0].room !in rooms
  {
    if (room1 in rooms) != (room2 in rooms) then
      if room1 !in rooms then Verdict(false, [Add(capsuleIndex, room1)])
      else Verdict(false, [Add(capsuleIndex, room2)])
    else Verdict(true, [])
  }

  /** Dispatch on the constraint's class. */
  function IsValid(c: Constraint, capsuleIndex: int, rooms: seq<Room>): (r: Result<Verdict>)
    ensures r.Err? ==> c.GenderConstraint? && rooms == []
    ensures r.Ok? && r.value.valid ==> r.value.actions == []
  {
    match c
    case ConnectingConstraint(room1, room2) => Ok(ConnectingIsValid(room1, room2, capsuleIndex, rooms))
    case GenderConstraint => GenderIsValid(capsuleIndex, rooms)
    case RoomCountConstraint(m) => Ok(RoomCountIsValid(m, capsuleIndex, rooms))
  }

  /**
   * Every action an evaluator proposes is for the capsule it judged and
   * names one of that capsule's rooms or, for a connecting constraint, one
   * of the two rooms it connects.
   */
  lemma ActionRooms(c: Constraint, capsuleIndex: int, rooms: seq<Room>)
    ensures var r := IsValid(c, capsuleIndex, rooms);
      r.Ok? ==> forall a :: a in r.value.actions ==>
        && a.capsuleIndex == capsuleIndex
        && (a.room in rooms || (c.ConnectingConstraint? && (a.room == c.room1 || a.room == c.room2)))
  {
    var r := IsValid(c, capsuleIndex, rooms);
    if r.Ok? && c.RoomCountConstraint? {
      var p := PrefixSlice(rooms, c.maxRoomCount - |rooms|);
      forall a | a in r.value.actions ensures a.capsuleIndex == capsuleIndex && a.room in rooms {
        var j :| 0 <= j < |r.value.actions| && r.value.actions[j] == a;
        assert a.room == p[j];
        assert p[j] == rooms[j];
      }
    } else if r.Ok? && c.GenderConstraint? && !r.value.valid {
      var w := WithGender(rooms, LeastCommonGender(rooms));
      forall a | a in r.value.actions ensures a.capsuleIndex == capsuleIndex && a.room in rooms {
        var j :| 0 <= j < |r.value.actions| && r.value.actions[j] == a;
        assert a.room == w[j];
      }
    }
  }

  // What applying an evaluator's actions does to the capsule it judged.

  /** The rooms the room mapping assigns to capsule `capsuleIndex`, in mapping order. */
  function Members(d: Assignment, capsuleIndex: int): (r: seq<Room>)
    requires d.Valid()
    ensures Distinct(r)
  {
    d.KeysWith(Some(capsuleIndex))
  }

  lemma {:induction false} ApplyReduces(d: Assignment, capsuleIndex: int, rs: seq<Room>)
    requires d.Valid()
    requires forall r :: r in rs ==> r in d.at
    ensures ApplyAll(d, ReduceEach(capsuleIndex, rs)).keys == d.keys
    ensures forall k :: k in d.at ==>
      k in ApplyAll(d, ReduceEach(capsuleIndex, rs)).at &&
      ApplyAll(d, ReduceEach(capsuleIndex, rs)).at[k] == if k in rs then None else d.at[k]
    decreases |rs|
  {
    if rs != [] {
      var d1 := Apply(d, Reduce(capsuleIndex, rs[0]));
      assert ReduceEach(capsuleIndex, rs)[1..] == ReduceEach(capsuleIndex, rs[1..]);
      ApplyReduces(d1, capsuleIndex, rs[1..]);
    }
  }

  /** Unassigning some of a capsule's rooms leaves the others, in order. */
  lemma ReduceMembers(d: Assignment, capsuleIndex: int, rs: seq<Room>)
    requires d.Valid()
    requires forall r :: r in rs ==> r in Members(d, capsuleIndex)
    ensures ApplyAll(d, ReduceEach(capsuleIndex, rs)).keys == d.keys
    ensures Members(ApplyAll(d, ReduceEach(capsuleIndex, rs)), capsuleIndex)
         == Without(Members(d, capsuleIndex), set r | r in rs)
  {
    var after := ApplyAll(d, ReduceEach(capsuleIndex, rs));
    ApplyReduces(d, capsuleIndex, rs);
    SelectAfterRemoval(d.keys, d.at, after.at, Some(capsuleIndex), set r | r in rs);
  }

  lemma {:induction false} WithoutGender(rooms: seq<Room>, g: Gender)
    ensures Without(rooms, set r | r in WithGender(rooms, g)) == WithGender(rooms, Opposite(g))
  {
    if rooms != [] {
      WithoutGender(rooms[1..], g);
      var gone := set r | r in WithGender(rooms, g);
      var gone' := set r | r in WithGender(rooms[1..], g);
      if rooms[0].gender == g {
        assert rooms[0] in gone;
        assert Without(rooms[1..], gone) == Without(rooms[1..], gone') by { WithoutSame(rooms[1..], gone, gone'); }
      } else {
        assert rooms[0] !in gone;
        assert gone == gone';
      }
    }
  }

  lemma {:induction false} WithoutSame<K>(s: seq<K>, a: set<K>, b: set<K>)
    requires forall x :: x in s ==> (x in a <==> x in b)
    ensures Without(s, a) == Without(s, b)
  {
    if s != [] {
      WithoutSame(s[1..], a, b);
    }
  }

  lemma {:induction false} WithoutPrefix<K>(s: seq<K>, n: nat)
    requires n <= |s| && Distinct(s)
    ensures Without(s, set x | x in s[..n]) == s[n..]
  {
    if n > 0 {
      DistinctTail(s);
      WithoutPrefix(s[1..], n - 1);
      assert s[1..][..n - 1] == s[1..n];
      assert s[0] in s[..n];
      var t := s[1..][..n - 1];
      WithoutSame(s[1..], set x | x in s[..n], set x | x in t);
      assert s[1..][n - 1..] == s[n..];
    } else {
      WithoutSame(s, set x | x in s[..0], {});
      WithoutNothing(s);
    }
  }

  lemma {:induction false} WithoutNothing<K>(s: seq<K>)
    ensures Without(s, {}) == s
  {
    if s != [] {
      WithoutNothing(s[1..]);
    }
  }

  /**
   * Repairing a gender violation unassigns exactly the least common
   * gender's rooms: the capsule keeps the other gender's rooms, in order,
   * and then passes the gender constraint.
   */
  lemma GenderRepairLeavesOneGender(d: Assignment, capsuleIndex: int)
    requires d.Valid()
    requires GenderIsValid(capsuleIndex, Members(d, capsuleIndex)).Ok?
    requires !GenderIsValid(capsuleIndex, Members(d, capsuleIndex)).value.valid
    ensures var rooms := Members(d, capsuleIndex);
      var after := ApplyAll(d, GenderIsValid(capsuleIndex, rooms).value.actions);
      && after.keys == d.keys
      && Members(after, capsuleIndex) == WithGender(rooms, Opposite(LeastCommonGender(rooms)))
      && GenderIsValid(capsuleIndex, Members(after, capsuleIndex)) == Ok(Pass)
  {
    var rooms := Members(d, capsuleIndex);
    var g := LeastCommonGender(rooms);
    var rs := WithGender(rooms, g);
    ReduceMembers(d, capsuleIndex, rs);
    WithoutGender(rooms, g);
    var kept := WithGender(rooms, Opposite(g));
    OneGenderPasses(capsuleIndex, kept, Opposite(g));
  }

  /** A non-empty capsule whose rooms all have gender `g` passes the gender constraint. */
  lemma OneGenderPasses(capsuleIndex: int, rooms: seq<Room>, g: Gender)
    requires rooms != []
    requires forall x :: x in rooms ==> x.gender == g
    ensures GenderIsValid(capsuleIndex, rooms) == Ok(Pass)
  {
    forall i | 0 <= i < |rooms| ensures rooms[i].gender == rooms[0].gender {
      assert rooms[i] in rooms && rooms[0] in rooms;
    }
  }

  /**
   * Repairing a room-count violation with more than `max` rooms unassigns
   * the first `max` rooms, so `len(rooms) - max` remain: the count is not
   * brought down to `max`.
   */
  lemma RoomCountRepairKeepsTail(d: Assignment, capsuleIndex: int, maxRoomCount: int)
    requires d.Valid()
    requires 0 <= maxRoomCount < |Members(d, capsuleIndex)|
    ensures var rooms := Members(d, capsuleIndex);
      var after := ApplyAll(d, RoomCountIsValid(maxRoomCount, capsuleIndex, rooms).actions);
      && after.keys == d.keys
      && Members(after, capsuleIndex) == rooms[maxRoomCount..]
      && |Members(after, capsuleIndex)| == |rooms| - maxRoomCount
  {
    var rooms := Members(d, capsuleIndex);
    ReduceMembers(d, capsuleIndex, rooms[..maxRoomCount]);
    WithoutPrefix(rooms, maxRoomCount);
  }

  /**
   * Repairing a connecting violation adds the absent room to the capsule:
   * afterwards both rooms are members and no member was lost.
   */
  lemma ConnectingRepairJoins(d: Assignment, capsuleIndex: int, room1: Room, room2: Room)
    requires d.Valid()
    requires !ConnectingIsValid(room1, room2, capsuleIndex, Members(d, capsuleIndex)).valid
    ensures var rooms := Members(d, capsuleIndex);
      var after := ApplyAll(d, ConnectingIsValid(room1, room2, capsuleIndex, rooms).actions);
      && room1 in Members(after, capsuleIndex) && room2 in Members(after, capsuleIndex)
      && (forall r :: r in rooms ==> r in Members(after, capsuleIndex))
      && ConnectingIsValid(room1, room2, capsuleIndex, Members(after, capsuleIndex)) == Pass
  {
    var rooms := Members(d, capsuleIndex);
    var acts := ConnectingIsValid(room1, room2, capsuleIndex, rooms).actions;
    var after := ApplyAll(d, acts);
    assert acts[1..] == [];
    assert after == ApplyAll(Apply(d, acts[0]), []);
  }
}
