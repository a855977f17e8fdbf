/**
 * `build_rooms`: one room per entry of the roommates dictionary, its gender
 * read off its roommates.
 */
module Rooms {

  import opened Common
  import opened PyDict
  import opened Entities

  /**
   * The gender of the first roommate, in list order, that the gender
   * dictionary knows. Its values are `Gender` members, which are all truthy,
   * so the first lookup that finds one stops the search.
   */
  function FirstGender(roommates: seq<string>, genderDict: map<string, Gender>): Option<Gender>
  {
    if roommates == [] then None
    else if roommates[0] in genderDict then Some(genderDict[roommates[0]])
    else FirstGender(roommates[1..], genderDict)
  }

  /**
   * `FirstGender` finds nothing exactly when no roommate is known, and
   * otherwise the gender of a known roommate with no known roommate before it.
   */
  lemma {:induction false} FirstGenderSpec(roommates: seq<string>, genderDict: map<string, Gender>)
    ensures FirstGender(roommates, genderDict).None? <==> forall j :: 0 <= j < |roommates| ==> roommates[j] !in genderDict
    ensures FirstGender(roommates, genderDict).Some? ==>
      exists j :: && 0 <= j < |roommates| && roommates[j] in genderDict
                  && genderDict[roommates[j]] == FirstGender(roommates, genderDict).value
                  && forall i :: 0 <= i < j ==> roommates[i] !in genderDict
  {
    if roommates != [] && roommates[0] !in genderDict {
      var rest := roommates[1..];
      FirstGenderSpec(rest, genderDict);
      if FirstGender(rest, genderDict).Some? {
        var j :| && 0 <= j < |rest| && rest[j] in genderDict && genderDict[rest[j]] == FirstGender(rest, genderDict).value
                 && forall i :: 0 <= i < j ==> rest[i] !in genderDict;
        assert roommates[j + 1] in genderDict && forall i :: 0 <= i < j + 1 ==> roommates[i] !in genderDict;
      } else {
        forall j | 0 <= j < |roommates| ensures roommates[j] !in genderDict {
          if j > 0 {
            assert roommates[j] == rest[j - 1];
          }
        }
      }
    }
  }

  /**
   * The gender room `index` gets. `carried` is what the loop variable
   * `room_gender` holds from the previous room (`None` before the first
   * room: the variable is not yet bound); a room without roommates keeps
   * it, and an unbound variable raises `UnboundLocalError`. A room with
   * roommates but no known gender is `Male` when genders are assumed and
   * raises `ValueError` otherwise.
   */
  function RoomGender(carried: Option<Gender>, roommates: seq<string>, genderDict: map<string, Gender>,
                      assumeGender: bool, index: int): Result<Gender>
  {
    if |roommates| == 0 then
      if carried.None? then Err(UnboundLocal("room_gender")) else Ok(carried.value)
    else
      var found := FirstGender(roommates, genderDict);
      if found.Some? then Ok(found.value)
      else if assumeGender then Ok(Male)
      else Err(MissingGender(index))
  }

  /** `roomates_dict.items()`: the entries, in key order. */
  function Items(roommatesDict: Dict<int, seq<string>>): (r: seq<(int, seq<string>)>)
    requires roommatesDict.Valid()
    ensures |r| == |roommatesDict.keys|
    ensures forall p :: 0 <= p < |r| ==> r[p] == (roommatesDict.keys[p], roommatesDict.at[roommatesDict.keys[p]])
  {
    seq(|roommatesDict.keys|, p requires 0 <= p < |roommatesDict.keys| => (roommatesDict.keys[p], roommatesDict.at[roommatesDict.keys[p]]))
  }

  /** The gender the room before room `p` got, if there is one. */
  function Previous(gs: seq<Gender>, p: int): Option<Gender>
    requires p < |gs| + 1
  {
    if p <= 0 then None else Some(gs[p - 1])
  }

  /**
   * The genders of the rooms of `entries`, in order, each room carrying its
   * gender to the next; or the first exception. The last room is handled
   * after all the rooms before it, with the gender the one before it got.
   */
  function RoomGenders(entries: seq<(int, seq<string>)>, genderDict: map<string, Gender>,
                       assumeGender: bool): (r: Result<seq<Gender>>)
    ensures r.Ok? ==> |r.value| == |entries|
  {
    if entries == [] then Ok([])
    else
      match RoomGenders(entries[..|entries| - 1], genderDict, assumeGender)
      case Err(e) => Err(e)
      case Ok(gs) =>
        var (i, roommates) := entries[|entries| - 1];
        match RoomGender(Previous(gs, |gs|), roommates, genderDict, assumeGender, i)
        case Err(e) => Err(e)
        case Ok(g) => Ok(gs + [g])
  }

  /** The first `p + 1` rooms: the first `p`, then room `p` with the gender room `p - 1` got. */
  lemma RoomGendersNext(entries: seq<(int, seq<string>)>, genderDict: map<string, Gender>, assumeGender: bool,
                        p: int, genders: seq<Gender>)
    requires 0 <= p < |entries| && RoomGenders(entries[..p], genderDict, assumeGender) == Ok(genders)
    ensures var g := RoomGender(Previous(genders, p), entries[p].1, genderDict, assumeGender, entries[p].0);
      RoomGenders(entries[..p + 1], genderDict, assumeGender) == if g.Err? then Err(g.error) else Ok(genders + [g.value])
  {
    assert entries[..p + 1][..p] == entries[..p];
  }

  /** An exception among the first `n` rooms is the exception of all of them. */
  lemma {:induction false} ErrorStops(entries: seq<(int, seq<string>)>, genderDict: map<string, Gender>, assumeGender: bool, n: int)
    requires 0 <= n <= |entries| && RoomGenders(entries[..n], genderDict, assumeGender).Err?
    ensures RoomGenders(entries, genderDict, assumeGender) == RoomGenders(entries[..n], genderDict, assumeGender)
    decreases |entries|
  {
    if n < |entries| {
      var init := entries[..|entries| - 1];
      assert init[..n] == entries[..n];
      ErrorStops(init, genderDict, assumeGender, n);
    } else {
      assert entries[..n] == entries;
    }
  }

  /** Position `j` holds the first roommate the gender dictionary knows. */
  ghost predicate FirstKnown(roommates: seq<string>, genderDict: map<string, Gender>, j: int)
  {
    && 0 <= j < |roommates| && roommates[j] in genderDict
    && forall i :: 0 <= i < j ==> roommates[i] !in genderDict
  }

  /** A room with roommates, none of whom the gender dictionary knows. */
  ghost predicate Unresolved(roommates: seq<string>, genderDict: map<string, Gender>)
  {
    |roommates| > 0 && forall j :: 0 <= j < |roommates| ==> roommates[j] !in genderDict
  }

  /**
   * `g` is a gender a room may get: the previous room's when it has no
   * roommates, `Male` when none of them is known, and otherwise the gender
   * of its first known roommate.
   */
  ghost predicate GenderFits(roommates: seq<string>, genderDict: map<string, Gender>, previous: Option<Gender>, g: Gender)
  {
    if |roommates| == 0 then previous == Some(g)
    else if Unresolved(roommates, genderDict) then g == Male
    else exists j :: FirstKnown(roommates, genderDict, j) && genderDict[roommates[j]] == g
  }

  /** The gender one room gets is one `GenderFits` allows. */
  lemma RoomGenderFits(previous: Option<Gender>, roommates: seq<string>, genderDict: map<string, Gender>, assumeGender: bool, index: int)
    requires RoomGender(previous, roommates, genderDict, assumeGender, index).Ok?
    ensures GenderFits(roommates, genderDict, previous, RoomGender(previous, roommates, genderDict, assumeGender, index).value)
  {
    FirstGenderSpec(roommates, genderDict);
    if FirstGender(roommates, genderDict).Some? {
      var j :| && 0 <= j < |roommates| && roommates[j] in genderDict
               && genderDict[roommates[j]] == FirstGender(roommates, genderDict).value
               && forall i :: 0 <= i < j ==> roommates[i] !in genderDict;
      assert FirstKnown(roommates, genderDict, j);
    }
  }

  /** Every room's gender is one `GenderFits` allows. */
  ghost predicate AllFit(entries: seq<(int, seq<string>)>, genderDict: map<string, Gender>, gs: seq<Gender>)
  {
    |gs| == |entries| && forall p :: 0 <= p < |entries| ==> GenderFits(entries[p].1, genderDict, Previous(gs, p), gs[p])
  }

  /** A room whose gender fits after rooms whose genders fit. */
  lemma AllFitSnoc(entries: seq<(int, seq<string>)>, genderDict: map<string, Gender>, front: seq<Gender>, g: Gender)
    requires |entries| > 0 && AllFit(entries[..|entries| - 1], genderDict, front)
    requires GenderFits(entries[|entries| - 1].1, genderDict, Previous(front, |front|), g)
    ensures AllFit(entries, genderDict, front + [g])
  {
    var n := |entries| - 1;
    var gs := front + [g];
    forall p | 0 <= p < n ensures GenderFits(entries[p].1, genderDict, Previous(gs, p), gs[p]) {
      assert GenderFits(entries[..n][p].1, genderDict, Previous(front, p), front[p]);
      assert entries[p] == entries[..n][p] && gs[p] == front[p] && Previous(gs, p) == Previous(front, p);
    }
    assert gs[n] == g && Previous(gs, n) == Previous(front, |front|);
  }

  /**
   * `build_rooms` gets through every room exactly when the first room has
   * roommates (so `room_gender` is bound before any empty room reads it)
   * and, unless genders are assumed, every room with roommates has a
   * known one.
   */
  lemma {:induction false} RoomGendersOk(entries: seq<(int, seq<string>)>, genderDict: map<string, Gender>, assumeGender: bool)
    ensures RoomGenders(entries, genderDict, assumeGender).Ok? <==>
      && (entries == [] || |entries[0].1| > 0)
      && (assumeGender || forall p :: 0 <= p < |entries| ==> !Unresolved(entries[p].1, genderDict))
    decreases |entries|
  {
    if entries != [] {
      var n := |entries| - 1;
      var init := entries[..n];
      RoomGendersOk(init, genderDict, assumeGender);
      FirstGenderSpec(entries[n].1, genderDict);
      assert forall p :: 0 <= p < n ==> init[p] == entries[p];
    }
  }

  /** Each room's gender is one `GenderFits` allows, the room before it giving the previous one. */
  lemma {:induction false} RoomGendersFit(entries: seq<(int, seq<string>)>, genderDict: map<string, Gender>, assumeGender: bool)
    requires RoomGenders(entries, genderDict, assumeGender).Ok?
    ensures AllFit(entries, genderDict, RoomGenders(entries, genderDict, assumeGender).value)
    decreases |entries|
  {
    if entries != [] {
      var n := |entries| - 1;
      var init := entries[..n];
      var gs := RoomGenders(entries, genderDict, assumeGender).value;
      RoomGendersFit(init, genderDict, assumeGender);
      var front := RoomGenders(init, genderDict, assumeGender).value;
      var g := RoomGender(Previous(front, n), entries[n].1, genderDict, assumeGender, entries[n].0);
      assert g.Ok? && gs == front + [g.value];
      RoomGenderFits(Previous(front, n), entries[n].1, genderDict, assumeGender, entries[n].0);
      AllFitSnoc(entries, genderDict, front, g.value);
    }
  }

  /**
   * The exception `build_rooms` raises: `UnboundLocalError` when the first
   * room has no roommates, and otherwise, with genders not assumed, the
   * `ValueError` naming the first room none of whose roommates is known.
   */
  lemma {:induction false} RoomGendersError(entries: seq<(int, seq<string>)>, genderDict: map<string, Gender>, assumeGender: bool)
    requires RoomGenders(entries, genderDict, assumeGender).Err?
    ensures entries != []
    ensures var e := RoomGenders(entries, genderDict, assumeGender).error;
      |entries[0].1| == 0 ==> e == UnboundLocal("room_gender")
    ensures var e := RoomGenders(entries, genderDict, assumeGender).error;
      |entries[0].1| > 0 ==>
        && !assumeGender
        && exists p :: && 0 <= p < |entries| && Unresolved(entries[p].1, genderDict) && e == MissingGender(entries[p].0)
                       && forall q :: 0 <= q < p ==> !Unresolved(entries[q].1, genderDict)
    decreases |entries|
  {
    var n := |entries| - 1;
    var init := entries[..n];
    assert forall p :: 0 <= p < n ==> init[p] == entries[p];
    FirstGenderSpec(entries[n].1, genderDict);
    if RoomGenders(init, genderDict, assumeGender).Err? {
      RoomGendersError(init, genderDict, assumeGender);
    } else {
      RoomGendersOk(init, genderDict, assumeGender);
      RoomGendersOk(entries, genderDict, assumeGender);
    }
  }

  /** The rooms dictionary holds, under each key, the room built from that entry. */
  ghost predicate Built(rooms: Dict<int, Room>, roommatesDict: Dict<int, seq<string>>, genders: seq<Gender>)
    requires roommatesDict.Valid()
  {
    && rooms.Valid() && rooms.keys == roommatesDict.keys && |genders| == |rooms.keys|
    && forall p :: 0 <= p < |rooms.keys| ==> BuiltRoom(rooms.at[rooms.keys[p]], rooms.keys[p], roommatesDict.at[rooms.keys[p]], genders[p])
  }

  /** The fields `Room(index, roommates, gender)` fixes for good. */
  ghost predicate BuiltRoom(room: Room, index: int, roommates: seq<string>, gender: Gender)
  {
    && room.index == index && room.roommates == roommates && room.gender == gender
    && room.count == |roommates|
  }

  /** What the Python variable `room_gender` holds: unbound, `None` or a gender. */
  datatype Binding = Unbound | Bound(value: Option<Gender>)

  /** `gender_dict.get(roomate, None)`. */
  function Lookup(genderDict: map<string, Gender>, name: string): (r: Option<Gender>)
    ensures r.Some? <==> name in genderDict
    ensures r.Some? ==> r.value == genderDict[name]
  {
    if name in genderDict then Some(genderDict[name]) else None
  }

  /** The inner loop of `build_rooms`: the lookups up to the first known roommate. */
  method LookUpGender(roommates: seq<string>, genderDict: map<string, Gender>, carried: Binding) returns (roomGender: Binding)
    ensures roomGender == if |roommates| == 0 then carried else Bound(FirstGender(roommates, genderDict))
  {
    roomGender := carried;
    var q := 0;
    while q < |roommates|
      invariant 0 <= q <= |roommates|
      invariant FirstGender(roommates[q..], genderDict) == FirstGender(roommates, genderDict)
      invariant roomGender == if q == 0 then carried else Bound(None)
    {
      roomGender := Bound(Lookup(genderDict, roommates[q]));
      if roomGender.value.Some? {
        assert roommates[q..][0] == roommates[q];
        return;
      }
      assert roommates[q..][1..] == roommates[q + 1..];
      q := q + 1;
    }
  }

  /** What a binding carries into the next room: its gender, or nothing while unbound. */
  function Carried(b: Binding): Option<Gender>
  {
    if b.Bound? then b.value else None
  }

  /**
   * One step of `build_rooms`: the gender lookups, the `None` check and
   * the new room; `after` is what `room_gender` then holds.
   */
  method MakeRoom(index: int, roommates: seq<string>, genderDict: map<string, Gender>, assumeGender: bool,
                  roomGender: Binding) returns (r: Result<Room>, after: Binding)
    requires roomGender != Bound(None)
    ensures var g := RoomGender(Carried(roomGender), roommates, genderDict, assumeGender, index);
      && (r.Err? <==> g.Err?)
      && (r.Err? ==> r.error == g.error)
      && (r.Ok? ==> fresh(r.value) && r.value.constraints == [] && BuiltRoom(r.value, index, roommates, g.value))
      && (r.Ok? ==> after == Bound(Some(g.value)))
  {
    after := LookUpGender(roommates, genderDict, roomGender);
    if after == Unbound {
      return Err(UnboundLocal("room_gender")), after;
    }
    if after.value.None? {
      if assumeGender {
        after := Bound(Some(Male));
      } else {
        return Err(MissingGender(index)), after;
      }
    }
    var room := new Room(index, roommates, after.value.value);
    r := Ok(room);
  }

  /** A key of a list of distinct keys does not occur before its position. */
  lemma NotBefore(keys: seq<int>, p: int)
    requires Distinct(keys) && 0 <= p < |keys|
    ensures keys[p] !in keys[..p]
  {
    forall q | 0 <= q < p ensures keys[q] != keys[p] {
      DistinctAt(keys, q, p);
    }
  }

  /** The rooms of the first `p` entries are filed, in order, under their own numbers. */
  ghost predicate FiledUpTo(rooms: Dict<int, Room>, roommatesDict: Dict<int, seq<string>>, p: int, genders: seq<Gender>)
    requires roommatesDict.Valid()
  {
    && 0 <= p <= |roommatesDict.keys| && |genders| == p
    && rooms.Valid() && rooms.keys == roommatesDict.keys[..p]
    && forall q :: 0 <= q < p ==>
         && roommatesDict.keys[q] in rooms.at
         && BuiltRoom(rooms.at[roommatesDict.keys[q]], roommatesDict.keys[q], roommatesDict.at[roommatesDict.keys[q]], genders[q])
  }

  /** Filing the room of entry `p` under its number files the first `p + 1` entries. */
  lemma FileNext(rooms: Dict<int, Room>, roommatesDict: Dict<int, seq<string>>, p: int, genders: seq<Gender>, room: Room, g: Gender)
    requires roommatesDict.Valid() && FiledUpTo(rooms, roommatesDict, p, genders) && p < |roommatesDict.keys|
    requires BuiltRoom(room, roommatesDict.keys[p], roommatesDict.at[roommatesDict.keys[p]], g)
    ensures FiledUpTo(rooms.Set(roommatesDict.keys[p], room), roommatesDict, p + 1, genders + [g])
  {
    var keys := roommatesDict.keys;
    NotBefore(keys, p);
    assert keys[..p + 1] == keys[..p] + [keys[p]];
    forall q | 0 <= q < p ensures keys[q] != keys[p] {
      DistinctAt(keys, q, p);
    }
  }

  /** Once every entry is filed, the rooms are built. */
  lemma FiledAll(rooms: Dict<int, Room>, roommatesDict: Dict<int, seq<string>>, genders: seq<Gender>)
    requires roommatesDict.Valid() && FiledUpTo(rooms, roommatesDict, |roommatesDict.keys|, genders)
    ensures Built(rooms, roommatesDict, genders)
  {
    assert roommatesDict.keys[..|roommatesDict.keys|] == roommatesDict.keys;
  }

  /** No filed room has constraints yet. */
  ghost predicate NoConstraints(at: map<int, Room>)
    reads at.Values
  {
    forall k :: k in at ==> at[k].constraints == []
  }

  /** Filing a room without constraints keeps every filed room without them. */
  lemma NoConstraintsFiled(at: map<int, Room>, key: int, room: Room)
    requires NoConstraints(at) && room.constraints == []
    ensures NoConstraints(at[key := room])
  {
  }

  /**
   * One pass of the loop of `build_rooms`: the room of entry `p` is built
   * and filed under its number, or the exception its gender raises.
   */
  method FileRoom(roommatesDict: Dict<int, seq<string>>, genderDict: map<string, Gender>, assumeGender: bool,
                  p: int, rooms: Dict<int, Room>, roomGender: Binding, ghost genders: seq<Gender>)
    returns (r: Result<Dict<int, Room>>, after: Binding, ghost room: Room?)
    requires roommatesDict.Valid() && FiledUpTo(rooms, roommatesDict, p, genders) && p < |roommatesDict.keys|
    requires roomGender == if p == 0 then Unbound else Bound(Some(genders[p - 1]))
    requires RoomGenders(Items(roommatesDict)[..p], genderDict, assumeGender) == Ok(genders)
    requires NoConstraints(rooms.at)
    ensures var next := RoomGenders(Items(roommatesDict)[..p + 1], genderDict, assumeGender);
      && (r.Err? <==> next.Err?)
      && (r.Err? ==> r.error == next.error)
      && (r.Ok? ==> FiledUpTo(r.value, roommatesDict, p + 1, next.value) && after == Bound(Some(next.value[p])))
    ensures r.Ok? ==> room != null && fresh(room) && room.constraints == [] && r.value.at == rooms.at[roommatesDict.keys[p] := room]
    ensures r.Ok? ==> NoConstraints(r.value.at)
  {
    var i := roommatesDict.keys[p];
    var roommates := roommatesDict.at[i];
    RoomGendersNext(Items(roommatesDict), genderDict, assumeGender, p, genders);
    assert Items(roommatesDict)[p] == (i, roommates);
    assert Carried(roomGender) == Previous(genders, p);
    var made;
    made, after := MakeRoom(i, roommates, genderDict, assumeGender, roomGender);
    if made.Err? {
      return Err(made.error), after, null;
    }
    FileNext(rooms, roommatesDict, p, genders, made.value, after.value.value);
    NoConstraintsFiled(rooms.at, i, made.value);
    r, room := Ok(rooms.Set(i, made.value)), made.value;
  }

  /**
   * `build_rooms(roomates_dict, gender_dict, assume_gender)`: a new room
   * per entry, in the dictionary's order, under its own number, with the
   * genders `RoomGenders` gives; or the first exception.
   */
  method BuildRooms(roommatesDict: Dict<int, seq<string>>, genderDict: map<string, Gender>, assumeGender: bool)
    returns (r: Result<Dict<int, Room>>)
    requires roommatesDict.Valid()
    ensures var spec := RoomGenders(Items(roommatesDict), genderDict, assumeGender);
      && (r.Err? <==> spec.Err?)
      && (r.Err? ==> r.error == spec.error)
      && (r.Ok? ==> Built(r.value, roommatesDict, spec.value))
    ensures r.Ok? ==> NoConstraints(r.value.at)
  {
    ghost var entries := Items(roommatesDict);
    var roomsDict: Dict<int, Room> := Dict([], map[]);
    var roomGender := Unbound;
    ghost var genders: seq<Gender> := [];
    var p := 0;
    while p < |roommatesDict.keys|
      invariant FiledUpTo(roomsDict, roommatesDict, p, genders)
      invariant NoConstraints(roomsDict.at)
      invariant roomGender == if p == 0 then Unbound else Bound(Some(genders[p - 1]))
      invariant RoomGenders(entries[..p], genderDict, assumeGender) == Ok(genders)
    {
      var filed;
      ghost var room;
      filed, roomGender, room := FileRoom(roommatesDict, genderDict, assumeGender, p, roomsDict, roomGender, genders);
      if filed.Err? {
        ErrorStops(entries, genderDict, assumeGender, p + 1);
        return Err(filed.error);
      }
      roomsDict := filed.value;
      genders := RoomGenders(entries[..p + 1], genderDict, assumeGender).value;
      p := p + 1;
    }
    TakeAll(entries, |entries|);
    FiledAll(roomsDict, roommatesDict, genders);
    return Ok(roomsDict);
  }
}
