/**
 * A capsule: its rooms are derived from the shared room mapping and its
 * constraints from those rooms; it judges itself against those constraints
 * plus the global ones.
 */
module Capsules {

  import opened Common
  import opened PyDict
  import opened Entities
  import opened Constraints
  import opened Ordering

  /** `[c for room in rooms for c in room.constraints]`. */
  function Gathered(rooms: seq<Room>): (r: seq<Constraint>)
    reads rooms
    ensures forall x, c :: x in rooms && c in x.constraints ==> c in r
    ensures forall c :: c in r ==> exists x :: x in rooms && c in x.constraints
  {
    if rooms == [] then [] else rooms[0].constraints + Gathered(rooms[1..])
  }

  class Capsule {
    const index: int
    var rooms: seq<Room>
    var constraints: seq<Constraint>
    /** How many times the global constraints were appended since the last update. */
    ghost var stale: nat

    /** `Capsule(index, rooms)`; a missing or empty room list gives no rooms. */
    constructor (index: int, rooms: seq<Room>)
      ensures this.index == index && this.rooms == rooms
      ensures constraints == Gathered(rooms) && stale == 0
    {
      this.index := index;
      this.rooms := rooms;
      this.constraints := Gathered(rooms);
      this.stale := 0;
    }

    /**
     * `update`: the rooms become the mapping's rooms for this capsule, in
     * mapping order, and the constraints become theirs.
     */
    method Update(m: RoomMapping)
      requires m.dict.Valid()
      modifies this
      ensures rooms == Members(m.dict, index)
      ensures constraints == Gathered(rooms) && stale == 0
    {
      rooms := m.dict.KeysWith(Some(index));
      constraints := Gathered(rooms);
      stale := 0;
    }

    /**
     * `apply_constraints`: the global constraints are appended to the
     * capsule's list (they pile up until the next `update`) and the capsule
     * is judged against the whole list.
     */
    method ApplyConstraints(globals: seq<Constraint>) returns (r: Result<Verdict>)
      modifies this
      ensures rooms == old(rooms)
      ensures constraints == old(constraints) + globals && stale == old(stale) + 1
      ensures r == CapsuleVerdict(index, rooms, constraints)
    {
      constraints := constraints + globals;
      stale := stale + 1;
      r := IsValid();
    }

    /**
     * `_is_valid`: `(True, [])` when every constraint holds, otherwise the
     * verdict (or exception) of the first constraint in priority order that
     * does not hold.
     */
    method IsValid() returns (r: Result<Verdict>)
      ensures r == CapsuleVerdict(index, rooms, constraints)
      ensures r == Ok(Pass) <==> forall c :: c in constraints ==> Holds(c, index, rooms)
    {
      var ordered := SortByOrder(constraints);
      var i := 0;
      while i < |ordered|
        invariant 0 <= i <= |ordered|
        invariant FirstFailure(index, rooms, ordered[i..]) == FirstFailure(index, rooms, ordered)
      {
        var v := Constraints.IsValid(ordered[i], index, rooms);
        if v.Err? || !v.value.valid {
          CapsuleVerdictSpec(index, rooms, constraints);
          return v;
        }
        assert ordered[i..][1..] == ordered[i + 1..];
        i := i + 1;
      }
      CapsuleVerdictSpec(index, rooms, constraints);
      return Ok(Pass);
    }
  }
}
