/**
 * The entities the allocator works on: rooms (whose constraint lists are
 * appended to in place while the configuration is loaded), the constraint
 * and action variants, and the shared room-to-capsule mapping object.
 */
module Entities {

  import opened Common
  import opened PyDict

  /** `Gender(Enum)`: Female = 0, Male = 1. */
  datatype Gender = Female | Male

  /** A room: its index, its roommates, their gender and its own constraints. */
  class Room {
    const index: int
    const roommates: seq<string>
    const gender: Gender
    const count: nat
    var constraints: seq<Constraint>

    constructor (index: int, roommates: seq<string>, gender: Gender)
      ensures this.index == index && this.roommates == roommates && this.gender == gender
      ensures count == |roommates| && constraints == []
    {
      this.index := index;
      this.roommates := roommates;
      this.gender := gender;
      this.count := |roommates|;
      this.constraints := [];
    }
  }

  /** The three constraint classes; `order` is their evaluation priority. */
  datatype Constraint =
    | ConnectingConstraint(room1: Room, room2: Room)
    | GenderConstraint
    | RoomCountConstraint(maxRoomCount: int)
  {
    function Order(): int
    {
      match this
      case ConnectingConstraint(_, _) => 10
      case GenderConstraint => 20
      case RoomCountConstraint(_) => 30
    }
  }

  /** A suggested repair: unassign a room, or assign it to a capsule. */
  datatype Action =
    | Reduce(capsuleIndex: int, room: Room)
    | Add(capsuleIndex: int, room: Room)
  {
    /** The value the action writes for its room. */
    function Target(): Option<int>
    {
      match this
      case Reduce(_, _) => None
      case Add(c, _) => Some(c)
    }
  }

  /** The value of a room mapping: room -> capsule index or `None`. */
  type Assignment = Dict<Room, Option<int>>

  /** The room mapping dictionary, shared by reference between its users. */
  class RoomMapping {
    var dict: Assignment

    constructor (dict: Assignment)
      ensures this.dict == dict
    {
      this.dict := dict;
    }
  }

  /** `action.do(room_mapping)` on the mapping's value. */
  function Apply(d: Assignment, a: Action): (r: Assignment)
    requires d.Valid()
    ensures r.Valid()
    ensures a.room in r.at && r.at[a.room] == a.Target()
    ensures forall x :: x in d.at && x != a.room ==> x in r.at && r.at[x] == d.at[x]
    ensures forall x :: x in r.at ==> x in d.at || x == a.room
  {
    d.Set(a.room, a.Target())
  }

  /** The actions applied one after another, as `commit_action` does. */
  function ApplyAll(d: Assignment, actions: seq<Action>): (r: Assignment)
    requires d.Valid()
    ensures r.Valid()
    decreases |actions|
  {
    if actions == [] then d else ApplyAll(Apply(d, actions[0]), actions[1..])
  }

  /**
   * `Reduce.do` sets `mapping[room] = None`, `Add.do` sets
   * `mapping[room] = capsule_index`; nothing else is written.
   */
  method Do(a: Action, m: RoomMapping)
    requires m.dict.Valid()
    modifies m
    ensures m.dict == Apply(old(m.dict), a)
  {
    m.dict := m.dict.Set(a.room, a.Target());
  }
}
