/**
 * `CapsulesManager`: the search for one valid combination of capsules.
 * Each try starts from a random (or a given) room mapping and commits the
 * repairs the first invalid capsule proposes, a limited number of rounds.
 */
module Manager {

  import opened Common
  import opened PyDict
  import opened Entities
  import opened Constraints
  import opened Ordering
  import opened Capsules
  import opened Shuffling
  import opened Allocation
  import opened Listing

  /** `r` is the room filed under its own number. */
  predicate Known(rooms: Dict<int, Room>, r: Room)
  {
    r.index in rooms.at && rooms.at[r.index] == r
  }

  /** A mapping over known rooms is over rooms of the dictionary. */
  lemma KnownKeys(rooms: Dict<int, Room>, d: Assignment)
    requires forall r :: r in d.at ==> Known(rooms, r)
    ensures d.at.Keys <= rooms.at.Values
  {
    forall r | r in d.at ensures r in rooms.at.Values {
      assert rooms.at[r.index] == r;
    }
  }

  /** A connecting constraint names only known rooms. */
  predicate ConstraintKnown(rooms: Dict<int, Room>, c: Constraint)
  {
    c.ConnectingConstraint? ==> Known(rooms, c.room1) && Known(rooms, c.room2)
  }

  /**
   * The verdict of capsule `capsuleIndex` right after an update from `d`:
   * its members' constraints plus the global ones.
   */
  function FreshVerdict(d: Assignment, capsuleIndex: int, globals: seq<Constraint>): Result<Verdict>
    requires d.Valid()
    reads d.at.Keys
  {
    var members := Members(d, capsuleIndex);
    CapsuleVerdict(capsuleIndex, members, Gathered(members) + globals)
  }

  /** Every capsule of `range(capsules_count)` passes. */
  ghost predicate AllPass(d: Assignment, capsulesCount: nat, globals: seq<Constraint>)
    requires d.Valid()
    reads d.at.Keys
  {
    forall i :: 0 <= i < capsulesCount ==> FreshVerdict(d, i, globals) == Ok(Pass)
  }

  /** No room of the mapping is left without a capsule. */
  ghost predicate NoOrphans(d: Assignment)
  {
    forall r :: r in d.at ==> d.at[r].Some?
  }

  /** `[room.index for room in rs]`. */
  function Indices(rs: seq<Room>): (r: seq<int>)
    ensures |r| == |rs|
    ensures forall i :: 0 <= i < |rs| ==> r[i] == rs[i].index
  {
    seq(|rs|, i requires 0 <= i < |rs| => rs[i].index)
  }

  /** The capsule numbers of `cs`, in order. */
  function CapsuleIndices(cs: seq<Capsule>): seq<int>
  {
    seq(|cs|, i requires 0 <= i < |cs| => cs[i].index)
  }

  /** Rooms filed under their own numbers are distinct values. */
  lemma ValuesDistinct(rooms: Dict<int, Room>)
    requires rooms.Valid() && Indexed(rooms)
    ensures Distinct(rooms.Values())
  {
    var vs := rooms.Values();
    forall i, j | 0 <= i < j < |vs| ensures At(vs, i) != At(vs, j) {
      assert vs[i].index == rooms.keys[i] && vs[j].index == rooms.keys[j];
      DistinctAt(rooms.keys, i, j);
    }
  }

  /** An allocation of known rooms keeps every room of the mapping known. */
  lemma AllocatedKnown(d: Assignment, r: Assignment, rooms: Dict<int, Room>, shuffled: seq<int>, capsulesCount: nat)
    requires forall p :: 0 <= p < |shuffled| ==> shuffled[p] in rooms.at
    requires Allocated(d, r, rooms, shuffled, capsulesCount)
    requires Indexed(rooms)
    requires forall x :: x in d.at ==> Known(rooms, x)
    ensures forall x :: x in r.at ==> Known(rooms, x)
  {
    forall x | x in r.at ensures Known(rooms, x) {
      if x !in d.at {
        var p :| 0 <= p < |shuffled| && rooms.at[shuffled[p]] == x;
        assert x.index == shuffled[p];
      }
    }
  }

  /** A whole allocation of known rooms assigns them all and keeps every room of the mapping known. */
  lemma AllocationKnown(d: Assignment, rooms: Dict<int, Room>, shuffled: seq<int>, capsulesCount: nat, order: seq<nat>, order2: seq<nat>)
    requires d.Valid() && capsulesCount > 0 && Indexed(rooms)
    requires IsCapsuleOrder(order, capsulesCount) && IsCapsuleOrder(order2, capsulesCount)
    requires forall p :: 0 <= p < |shuffled| ==> shuffled[p] in rooms.at
    requires forall x :: x in d.at ==> Known(rooms, x)
    ensures Allocated(d, ApplyWrites(d, rooms, shuffled, AllocationWrites(|shuffled|, capsulesCount, order, order2)), rooms, shuffled, capsulesCount)
    ensures forall x :: x in ApplyWrites(d, rooms, shuffled, AllocationWrites(|shuffled|, capsulesCount, order, order2)).at ==> Known(rooms, x)
  {
    AllocationAssigns(d, rooms, shuffled, capsulesCount, order, order2);
    AllocatedKnown(d, ApplyWrites(d, rooms, shuffled, AllocationWrites(|shuffled|, capsulesCount, order, order2)), rooms, shuffled, capsulesCount);
  }

  /**
   * The capsule holds the rooms `d` maps to it, in mapping order, then
   * their constraints followed by the global constraints once per check
   * since its last update.
   */
  ghost predicate InSync(c: Capsule, d: Assignment, globals: seq<Constraint>)
    requires d.Valid()
    reads c, d.at.Keys
  {
    && c.rooms == Members(d, c.index)
    && c.constraints == Gathered(c.rooms) + Repeat(globals, c.stale)
  }

  /** `c` was just rebuilt from the mapping `d`. */
  ghost predicate Refreshed(c: Capsule, d: Assignment)
    requires d.Valid()
    reads c, d.at.Keys
  {
    && c.rooms == Members(d, c.index)
    && c.constraints == Gathered(c.rooms)
    && c.stale == 0
  }

  /** One more check appends the global constraints once more. */
  lemma RepeatStep(own: seq<Constraint>, globals: seq<Constraint>, k: nat)
    ensures own + Repeat(globals, k) + globals == own + Repeat(globals, k + 1)
  {
  }

  /**
   * The mapping `r` is `d` with every orphan of `d` given a capsule in
   * `range(capsules_count)` and every other room left as it was.
   */
  ghost predicate OrphansPlaced(d: Assignment, r: Assignment, capsulesCount: nat)
  {
    && r.at.Keys == d.at.Keys
    && (forall x :: x in d.at && d.at[x].Some? ==> r.at[x] == d.at[x])
    && (forall x :: x in d.at && d.at[x].None? ==> r.at[x].Some? && 0 <= r.at[x].value < capsulesCount)
  }

  /** `verdicts` holds, by capsule number, the fresh verdict of each of the `n` capsules of `d`. */
  ghost predicate FreshTable(d: Assignment, n: nat, globals: seq<Constraint>, verdicts: seq<Result<Verdict>>)
    requires d.Valid()
    reads d.at.Keys
  {
    && |verdicts| == n
    && forall c {:trigger FreshVerdict(d, c, globals)} :: 0 <= c < n ==> verdicts[c] == FreshVerdict(d, c, globals)
  }

  /** The fresh verdicts of capsules `0 .. n - 1`. */
  function FreshVerdicts(d: Assignment, n: nat, globals: seq<Constraint>): (r: seq<Result<Verdict>>)
    requires d.Valid()
    reads d.at.Keys
    ensures |r| == n
    ensures forall c :: 0 <= c < n ==> r[c] == FreshVerdict(d, c, globals)
  {
    if n == 0 then [] else FreshVerdicts(d, n - 1, globals) + [FreshVerdict(d, n - 1, globals)]
  }

  /**
   * A capsule's verdict after `k` earlier checks since its last update is
   * the verdict of a freshly updated capsule.
   */
  lemma VerdictIsFresh(d: Assignment, capsuleIndex: int, globals: seq<Constraint>, k: nat)
    requires d.Valid()
    ensures var members := Members(d, capsuleIndex);
      CapsuleVerdict(capsuleIndex, members, Gathered(members) + Repeat(globals, k) + globals)
        == FreshVerdict(d, capsuleIndex, globals)
  {
    var members := Members(d, capsuleIndex);
    AccumulatedGlobalsKeepVerdict(capsuleIndex, members, Gathered(members), globals, k);
  }

  /**
   * Allocating a shuffle of the orphans' numbers places exactly the
   * orphans, when every room of the mapping is known.
   */
  lemma OrphansAllocated(d: Assignment, r: Assignment, rooms: Dict<int, Room>, shuffled: seq<int>, capsulesCount: nat)
    requires d.Valid() && Indexed(rooms)
    requires forall x :: x in d.at ==> Known(rooms, x)
    requires forall p :: 0 <= p < |shuffled| ==> shuffled[p] in rooms.at
    requires multiset(shuffled) == multiset(Indices(d.KeysWith(None)))
    requires Allocated(d, r, rooms, shuffled, capsulesCount)
    ensures OrphansPlaced(d, r, capsulesCount)
    ensures NoOrphans(r)
  {
    var orphans := d.KeysWith(None);
    forall p | 0 <= p < |shuffled| ensures rooms.at[shuffled[p]] in d.at && d.at[rooms.at[shuffled[p]]] == None {
      assert shuffled[p] in multiset(Indices(orphans));
      var j :| 0 <= j < |orphans| && Indices(orphans)[j] == shuffled[p];
      assert orphans[j] in orphans;
    }
    forall x | x in d.at && d.at[x].None? ensures x in r.at && r.at[x].Some? && 0 <= r.at[x].value < capsulesCount {
      assert x in orphans;
      var j :| 0 <= j < |orphans| && orphans[j] == x;
      assert Indices(orphans)[j] == x.index;
      assert x.index in multiset(shuffled);
      var p :| 0 <= p < |shuffled| && shuffled[p] == x.index;
      assert rooms.at[shuffled[p]] == x;
    }
  }

  /**
   * The orphan numbers of `d` name known rooms, and there are none exactly
   * when no room is without a capsule.
   */
  lemma OrphanNumbers(d: Assignment, rooms: Dict<int, Room>)
    requires d.Valid()
    requires forall x :: x in d.at ==> Known(rooms, x)
    ensures forall p :: 0 <= p < |Indices(d.KeysWith(None))| ==> Indices(d.KeysWith(None))[p] in rooms.at
    ensures NoOrphans(d) <==> Indices(d.KeysWith(None)) == []
  {
    var orphans := d.KeysWith(None);
    forall p | 0 <= p < |orphans| ensures orphans[p].index in rooms.at {
      assert orphans[p] in orphans;
    }
    if orphans != [] {
      assert orphans[0] in orphans;
    }
    if orphans == [] {
      forall x | x in d.at ensures d.at[x].Some? {
        assert x in d.keys;
      }
    }
  }

  /** A key under which `m` holds the value `v`. */
  lemma KeyOf<K, V>(m: map<K, V>, v: V) returns (k: K)
    requires v in m.Values
    ensures k in m && m[k] == v
  {
    k :| k in m && m[k] == v;
  }

  /**
   * Allocating a shuffle of every room number gives every room a capsule
   * and adds no key beyond the rooms.
   */
  lemma EveryRoomAllocated(d: Assignment, r: Assignment, rooms: Dict<int, Room>, shuffled: seq<int>, capsulesCount: nat)
    requires rooms.Valid() && Indexed(rooms)
    requires forall x :: x in d.at ==> Known(rooms, x)
    requires multiset(shuffled) == multiset(rooms.keys)
    requires forall p :: 0 <= p < |shuffled| ==> shuffled[p] in rooms.at
    requires Allocated(d, r, rooms, shuffled, capsulesCount)
    ensures r.at.Keys == d.at.Keys + rooms.at.Values
    ensures forall x :: x in rooms.at.Values ==> r.at[x].Some? && 0 <= r.at[x].value < capsulesCount
    ensures NoOrphans(r)
  {
    forall x | x in rooms.at.Values
      ensures x in r.at && r.at[x].Some? && 0 <= r.at[x].value < capsulesCount
    {
      var k := KeyOf(rooms.at, x);
      assert k in rooms.keys;
      assert k in multiset(shuffled);
      var p :| 0 <= p < |shuffled| && shuffled[p] == k;
    }
    forall x | x in d.at ensures x in r.at {
      assert Known(rooms, x);
    }
  }

  /**
   * Capsule `c` failed its fresh check in `d` with repairs, and `mid` is
   * `d` after those repairs.
   */
  ghost predicate Repaired(d: Assignment, capsulesCount: nat, globals: seq<Constraint>, c: int, mid: Assignment)
    requires d.Valid()
    reads d.at.Keys
  {
    && 0 <= c < capsulesCount
    && var v := FreshVerdict(d, c, globals);
    && v.Ok? && !v.value.valid
    && mid == ApplyAll(d, v.value.actions)
  }

  /**
   * What the check loop of `fix_capsules` does to the mapping `d`, ending
   * in `after`: it fails with the exception of some capsule's check and
   * changes nothing, or reports `False` exactly when every capsule passes
   * and changes nothing, or reports `True` after committing the repairs of
   * the one failing capsule `fixed`.
   */
  ghost predicate RoundChecked(d: Assignment, capsulesCount: nat, globals: seq<Constraint>,
                               checked: Result<bool>, fixed: Option<int>, after: Assignment)
    requires d.Valid()
    reads d.at.Keys
  {
    && (checked.Err? ==> && fixed.None? && after == d
                         && exists c :: 0 <= c < capsulesCount && FreshVerdict(d, c, globals) == Err(checked.error))
    && (checked == Ok(false) <==> AllPass(d, capsulesCount, globals))
    && (checked == Ok(false) ==> fixed.None? && after == d)
    && (checked == Ok(true) ==> fixed.Some? && Repaired(d, capsulesCount, globals, fixed.value, after))
  }

  /**
   * The check loop of `fix_capsules` reached position `stop` of the
   * shuffled order `order`: every capsule before it passed.
   */
  ghost predicate PassedBefore(d: Assignment, capsulesCount: nat, globals: seq<Constraint>, order: seq<int>, stop: nat)
    requires d.Valid()
    reads d.at.Keys
  {
    && stop <= |order|
    && forall j :: 0 <= j < stop ==> 0 <= order[j] < capsulesCount && FreshVerdict(d, order[j], globals) == Ok(Pass)
  }

  /**
   * What one round of `fix_capsules` does to the mapping `d`, ending in
   * `after`: the check loop takes `d` to `mid` (the repairs of capsule
   * `fixed`, if any); then every orphan of `mid` is placed. A round that
   * ends without an exception repairs a capsule unless every capsule
   * passed. The round reports `False` exactly when every capsule passed
   * and there was no orphan, and then changes nothing.
   */
  ghost predicate RoundFixed(d: Assignment, capsulesCount: nat, globals: seq<Constraint>,
                             r: Result<bool>, fixed: Option<int>, mid: Assignment, after: Assignment)
    requires d.Valid()
    reads d.at.Keys
  {
    && (fixed.None? ==> mid == d)
    && (fixed.Some? ==> Repaired(d, capsulesCount, globals, fixed.value, mid))
    && (r.Err? ==> && fixed.None? && after == d
                   && exists c :: 0 <= c < capsulesCount && FreshVerdict(d, c, globals) == Err(r.error))
    && (r.Ok? ==> OrphansPlaced(mid, after, capsulesCount) && NoOrphans(after))
    && (r.Ok? && fixed.None? ==> AllPass(d, capsulesCount, globals))
    && (r == Ok(false) <==> AllPass(d, capsulesCount, globals) && NoOrphans(d))
    && (r == Ok(false) ==> after == d)
  }

  /** A round's outcome from the outcomes of its check loop and its orphan step. */
  lemma FixOutcome(d: Assignment, capsulesCount: nat, globals: seq<Constraint>, checked: Result<bool>, fixed: Option<int>,
                   mid: Assignment, r: Result<bool>, after: Assignment)
    requires d.Valid()
    requires RoundChecked(d, capsulesCount, globals, checked, fixed, mid)
    requires checked.Err? ==> r == checked && after == mid
    requires checked.Ok? ==> && r.Ok? && OrphansPlaced(mid, after, capsulesCount) && NoOrphans(after)
                             && (r.value <==> checked.value || !NoOrphans(mid))
                             && (NoOrphans(mid) ==> after == mid)
    ensures RoundFixed(d, capsulesCount, globals, r, fixed, mid, after)
  {
    match checked
    case Err(e) =>
      assert !AllPass(d, capsulesCount, globals);
    case Ok(repaired) =>
      if repaired {
        assert !AllPass(d, capsulesCount, globals);
        assert r == Ok(true);
      } else {
        assert mid == d;
      }
  }

  /**
   * The rounds run by the fix loop of `build_capsules`: round `i` took the
   * mapping `states[i]` to `states[i + 1]` and reported `results[i]`, its
   * check loop having repaired the capsule and reached the mapping that
   * `repairs[i]` holds. Every mapping is over rooms of `keys`.
   */
  ghost predicate RoundsRun(states: seq<Assignment>, results: seq<Result<bool>>, repairs: seq<(Option<int>, Assignment)>,
                            capsulesCount: nat, globals: seq<Constraint>, keys: set<Room>)
    reads keys
  {
    && |states| == |results| + 1 && |repairs| == |results|
    && (forall i :: 0 <= i < |states| ==> states[i].Valid() && states[i].at.Keys <= keys)
    && forall i :: 0 <= i < |results| ==>
         RoundFixed(states[i], capsulesCount, globals, results[i], repairs[i].0, repairs[i].1, states[i + 1])
  }

  /** One more round extends the record of the rounds. */
  lemma RoundsSnoc(states: seq<Assignment>, results: seq<Result<bool>>, repairs: seq<(Option<int>, Assignment)>,
                   capsulesCount: nat, globals: seq<Constraint>, keys: set<Room>,
                   r: Result<bool>, fixed: Option<int>, mid: Assignment, after: Assignment)
    requires RoundsRun(states, results, repairs, capsulesCount, globals, keys) && after.Valid() && after.at.Keys <= keys
    requires RoundFixed(states[|results|], capsulesCount, globals, r, fixed, mid, after)
    ensures RoundsRun(states + [after], results + [r], repairs + [(fixed, mid)], capsulesCount, globals, keys)
  {
    var ss, rs, ps := states + [after], results + [r], repairs + [(fixed, mid)];
    forall i | 0 <= i < |rs| ensures RoundFixed(ss[i], capsulesCount, globals, rs[i], ps[i].0, ps[i].1, ss[i + 1]) {
      if i < |results| {
        assert ss[i] == states[i] && rs[i] == results[i] && ps[i] == repairs[i] && ss[i + 1] == states[i + 1];
      } else {
        assert ss[i] == states[|results|] && rs[i] == r && ps[i] == (fixed, mid) && ss[i + 1] == after;
      }
    }
  }

  /**
   * The last recorded round ends where the rounds end: when it needed no
   * fixing every capsule passes there and no room is an orphan; when it
   * raised, the exception is some capsule's `GenderCountError(0)` there.
   */
  lemma LastRound(states: seq<Assignment>, results: seq<Result<bool>>, repairs: seq<(Option<int>, Assignment)>,
                  capsulesCount: nat, globals: seq<Constraint>, keys: set<Room>)
    requires RoundsRun(states, results, repairs, capsulesCount, globals, keys) && results != []
    ensures var n := |results| - 1; var d := states[|results|];
      && (results[n] == Ok(false) ==> AllPass(d, capsulesCount, globals) && NoOrphans(d))
      && (results[n].Err? ==> && results[n].error == GenderCountError(0)
                              && exists c :: 0 <= c < capsulesCount && FreshVerdict(d, c, globals) == Err(results[n].error))
  {
    var n := |results| - 1;
    assert RoundFixed(states[n], capsulesCount, globals, results[n], repairs[n].0, repairs[n].1, states[n + 1]);
    if results[n].Err? {
      var c :| 0 <= c < capsulesCount && FreshVerdict(states[n], c, globals) == Err(results[n].error);
      VerdictError(states[n], c, globals);
    }
  }

  /**
   * How the fix loop of `build_capsules` ends, given the results of its
   * rounds: no round when `max_fixes_count <= 0`, and then
   * `UnboundLocalError`; otherwise at most `max_fixes_count` rounds, all but
   * the last needing fixing, and the last one deciding the result.
   */
  ghost predicate RoundsEnded(results: seq<Result<bool>>, r: Result<bool>, maxFixesCount: int)
  {
    && (maxFixesCount <= 0 <==> results == [])
    && (maxFixesCount <= 0 ==> r == Err(UnboundLocal("needed_fixing")))
    && (maxFixesCount > 0 ==> |results| <= maxFixesCount)
    && (forall i :: 0 <= i < |results| - 1 ==> results[i] == Ok(true))
    && (results != [] ==> var last := results[|results| - 1];
        && (last == Ok(false) ==> r == Ok(true))
        && (last == Ok(true) ==> r == Ok(false) && |results| == maxFixesCount)
        && (last.Err? ==> r == last))
  }

  /** A round that ends the loop early, after rounds that all needed fixing. */
  lemma EndedEarly(front: seq<Result<bool>>, last: Result<bool>, r: Result<bool>, maxFixesCount: int)
    requires forall i :: 0 <= i < |front| ==> front[i] == Ok(true)
    requires |front| < maxFixesCount && last != Ok(true)
    requires last == Ok(false) ==> r == Ok(true)
    requires last.Err? ==> r == last
    ensures RoundsEnded(front + [last], r, maxFixesCount)
  {
    var results := front + [last];
    assert forall i :: 0 <= i < |results| - 1 ==> results[i] == front[i];
  }

  /** The loop runs out after `max_fixes_count` rounds that all needed fixing. */
  lemma EndedFull(results: seq<Result<bool>>, maxFixesCount: int)
    requires forall i :: 0 <= i < |results| ==> results[i] == Ok(true)
    requires |results| == maxFixesCount > 0
    ensures RoundsEnded(results, Ok(false), maxFixesCount)
  {
  }

  /**
   * The result of `build_capsules` as the rounds decide it: `True` exactly
   * when some round needed no fixing, `False` exactly when all
   * `max_fixes_count` rounds needed fixing, `UnboundLocalError` when no
   * round runs, and otherwise the last round's exception.
   */
  ghost predicate BuildDecided(results: seq<Result<bool>>, r: Result<bool>, maxFixesCount: int)
  {
    && (maxFixesCount <= 0 ==> r == Err(UnboundLocal("needed_fixing")))
    && (maxFixesCount <= 0 <==> results == [])
    && (maxFixesCount > 0 ==> |results| <= maxFixesCount)
    && (r == Ok(true) <==> Ok(false) in results)
    && (r == Ok(false) <==> |results| == maxFixesCount > 0 && forall x :: x in results ==> x == Ok(true))
    && (r.Err? && maxFixesCount > 0 ==> results[|results| - 1] == r)
  }

  /** How the fix loop ends decides the result of `build_capsules`. */
  lemma RoundsOutcome(results: seq<Result<bool>>, r: Result<bool>, maxFixesCount: int)
    requires RoundsEnded(results, r, maxFixesCount)
    ensures BuildDecided(results, r, maxFixesCount)
  {
    if results != [] {
      var n := |results| - 1;
      assert results[n] in results;
      forall x | x in results && x != Ok(true) ensures x == results[n] {
        var i :| 0 <= i < |results| && results[i] == x;
      }
      match results[n]
      case Ok(b) => assert r == Ok(!b);
      case Err(e) => assert r == Err(e);
    }
  }

  /** The record of one try of `build_capsules`: its rounds, as `RoundsRun` relates them. */
  datatype BuildRecord = BuildRecord(states: seq<Assignment>, results: seq<Result<bool>>,
                                     repairs: seq<(Option<int>, Assignment)>)
  {
    /** The mapping the try ended with. */
    function Final(): Assignment
      requires states != []
    {
      states[|states| - 1]
    }
  }

  /**
   * The tries run by `CapsulesManager(...)`: try `i` ran the rounds of
   * `records[i]`, and those rounds decided its result `builds[i]`.
   */
  ghost predicate BuildsRun(records: seq<BuildRecord>, builds: seq<Result<bool>>, capsulesCount: nat,
                            globals: seq<Constraint>, maxFixesCount: int, keys: set<Room>)
    reads keys
  {
    && |records| == |builds|
    && forall i {:trigger TryRan(records[i], builds[i], capsulesCount, globals, maxFixesCount, keys)} ::
         0 <= i < |records| ==> TryRan(records[i], builds[i], capsulesCount, globals, maxFixesCount, keys)
  }

  /** One try: its rounds ran as `RoundsRun` says, and they decided its result `built`. */
  ghost predicate TryRan(record: BuildRecord, built: Result<bool>, capsulesCount: nat,
                         globals: seq<Constraint>, maxFixesCount: int, keys: set<Room>)
    reads keys
  {
    && RoundsRun(record.states, record.results, record.repairs, capsulesCount, globals, keys)
    && BuildDecided(record.results, built, maxFixesCount)
  }

  /** The tries on a caller's mapping: the first starts at `start`, and each later one where the previous one ended. */
  ghost predicate BuildsChained(records: seq<BuildRecord>, start: Assignment)
  {
    && (forall i :: 0 <= i < |records| ==> records[i].states != [])
    && (records != [] ==> records[0].states[0] == start)
    && forall i :: 0 < i < |records| ==> records[i].states[0] == records[i - 1].Final()
  }

  /** The tries on a randomized mapping: each starts with every room allocated. */
  ghost predicate BuildsRandomized(records: seq<BuildRecord>)
  {
    forall i :: 0 <= i < |records| ==> records[i].states != [] && NoOrphans(records[i].states[0])
  }

  /** Where the chain of tries from `start` has got to. */
  function ChainEnd(records: seq<BuildRecord>, start: Assignment): Assignment
    requires forall i :: 0 <= i < |records| ==> records[i].states != []
  {
    if records == [] then start else records[|records| - 1].Final()
  }

  /**
   * The tries so far: recorded by `BuildsRun`, and chained from the
   * caller's mapping `start` when there is one, randomized otherwise.
   */
  ghost predicate TriesRecorded(records: seq<BuildRecord>, builds: seq<Result<bool>>, capsulesCount: nat,
                                globals: seq<Constraint>, maxFixesCount: int, keys: set<Room>, start: Option<Assignment>)
    reads keys
  {
    && BuildsRun(records, builds, capsulesCount, globals, maxFixesCount, keys)
    && (start.Some? ==> BuildsChained(records, start.value))
    && (start.None? ==> BuildsRandomized(records))
  }

  /** One more try extends the record of the tries. */
  lemma BuildsSnoc(records: seq<BuildRecord>, builds: seq<Result<bool>>, capsulesCount: nat, globals: seq<Constraint>,
                   maxFixesCount: int, keys: set<Room>, record: BuildRecord, built: Result<bool>)
    requires BuildsRun(records, builds, capsulesCount, globals, maxFixesCount, keys)
    requires TryRan(record, built, capsulesCount, globals, maxFixesCount, keys)
    ensures BuildsRun(records + [record], builds + [built], capsulesCount, globals, maxFixesCount, keys)
  {
    var rs, bs := records + [record], builds + [built];
    forall i | 0 <= i < |rs| ensures TryRan(rs[i], bs[i], capsulesCount, globals, maxFixesCount, keys) {
      if i < |records| {
        assert rs[i] == records[i] && bs[i] == builds[i];
        assert TryRan(records[i], builds[i], capsulesCount, globals, maxFixesCount, keys);
      }
    }
  }

  /** A try that starts where the tries so far ended continues the chain. */
  lemma ChainedSnoc(records: seq<BuildRecord>, start: Assignment, record: BuildRecord)
    requires BuildsChained(records, start) && record.states != []
    requires record.states[0] == if records == [] then start else records[|records| - 1].Final()
    ensures BuildsChained(records + [record], start)
  {
    var rs := records + [record];
    forall i | 0 < i < |rs| ensures rs[i].states[0] == rs[i - 1].Final() {
      if i < |records| {
        assert rs[i] == records[i] && rs[i - 1] == records[i - 1];
      }
    }
  }

  /** A record whose entries before the last all equal `y`: its last entry decides membership. */
  lemma LastDecides<T>(front: seq<T>, x: T, y: T)
    requires forall i :: 0 <= i < |front| ==> front[i] == y
    ensures var s := front + [x]; s[|s| - 1] == x && x in s
    ensures var s := front + [x]; forall i :: 0 <= i < |s| - 1 ==> s[i] == y
    ensures var s := front + [x]; forall z :: z in s && z != y ==> z == x
  {
  }

  /**
   * How the loop of `fix_capsules` ended, at position `stop` of the order
   * `order`: every capsule passed and nothing changed; or the capsule at
   * the stop failed, and either its exception ends the round with nothing
   * changed or its actions took `before` to `after`.
   */
  ghost predicate ScanEnded(verdicts: seq<Result<Verdict>>, order: seq<int>, stop: nat, checked: Result<bool>,
                            before: Assignment, after: Assignment)
    requires before.Valid()
  {
    && stop <= |order|
    && (stop == |order| ==> checked == Ok(false) && after == before)
    && (stop == |order| ==> forall c :: 0 <= c < |verdicts| ==> verdicts[c] == Ok(Pass))
    && (stop < |order| ==>
        && 0 <= order[stop] < |verdicts|
        && var v := verdicts[order[stop]];
        && v != Ok(Pass)
        && (v.Err? ==> checked == Err(v.error) && after == before)
        && (v.Ok? ==> !v.value.valid && checked == Ok(true) && after == ApplyAll(before, v.value.actions)))
  }

  /** The scan's outcome, read off the table of fresh verdicts. */
  lemma ScanOutcome(d: Assignment, capsulesCount: nat, globals: seq<Constraint>, verdicts: seq<Result<Verdict>>,
                    order: seq<int>, stop: nat, checked: Result<bool>, after: Assignment) returns (fixed: Option<int>)
    requires d.Valid()
    requires FreshTable(d, capsulesCount, globals, verdicts)
    requires ScanEnded(verdicts, order, stop, checked, d, after)
    requires forall j :: 0 <= j < stop ==> 0 <= order[j] < |verdicts| && verdicts[order[j]] == Ok(Pass)
    ensures RoundChecked(d, capsulesCount, globals, checked, fixed, after)
    ensures PassedBefore(d, capsulesCount, globals, order, stop)
    ensures fixed.Some? ==> stop < |order| && fixed.value == order[stop]
    ensures checked.Err? ==> stop < |order| && FreshVerdict(d, order[stop], globals) == Err(checked.error)
  {
    forall j | 0 <= j < stop ensures FreshVerdict(d, order[j], globals) == Ok(Pass) {
      assert verdicts[order[j]] == FreshVerdict(d, order[j], globals);
    }
    if stop == |order| {
      fixed := None;
      assert AllPass(d, capsulesCount, globals) by {
        forall c | 0 <= c < capsulesCount ensures FreshVerdict(d, c, globals) == Ok(Pass) {
          assert verdicts[c] == Ok(Pass);
        }
      }
    } else {
      var c := order[stop];
      assert verdicts[c] == FreshVerdict(d, c, globals);
      fixed := if checked.Ok? then Some(c) else None;
    }
  }

  /**
   * The only exception a capsule's check can raise is the `ValueError` of a
   * gender constraint judging a capsule without rooms.
   */
  lemma VerdictError(d: Assignment, capsuleIndex: int, globals: seq<Constraint>)
    requires d.Valid()
    ensures FreshVerdict(d, capsuleIndex, globals).Err? ==> FreshVerdict(d, capsuleIndex, globals).error == GenderCountError(0)
  {
    var members := Members(d, capsuleIndex);
    CapsuleVerdictSpec(capsuleIndex, members, Gathered(members) + globals);
  }

  /** `[[room.index for room in capsule.rooms] for capsule in capsules]`. */
  function CapsuleListing(cs: seq<Capsule>): (r: seq<seq<int>>)
    reads cs
    ensures |r| == |cs|
    ensures forall i :: 0 <= i < |cs| ==> r[i] == Indices(cs[i].rooms)
  {
    seq(|cs|, i reads cs requires 0 <= i < |cs| => Indices(cs[i].rooms))
  }

  /** The loop over `zip(leftover, order2)`: room `leftover[j]` gets capsule `order2[j]`. */
  method ZipLeftover(d: Assignment, rooms: Dict<int, Room>, leftover: seq<int>, order2: seq<nat>) returns (r: Assignment)
    requires d.Valid() && |leftover| <= |order2|
    requires forall q :: 0 <= q < |leftover| ==> leftover[q] in rooms.at
    ensures r == TailApplied(d, rooms, leftover, order2, |leftover|)
  {
    r := d;
    var j := 0;
    while j < |order2| && j < |leftover|
      invariant 0 <= j <= |leftover|
      invariant r == TailApplied(d, rooms, leftover, order2, j)
    {
      r := r.Set(rooms.at[leftover[j]], Some(order2[j]));
      j := j + 1;
    }
  }

  class CapsulesManager {
    const capsulesCount: nat
    const globalConstraints: seq<Constraint>
    const maxTriesCount: int
    const maxFixesCount: int
    const rooms: Dict<int, Room>
    /** Where `shuffle_list` draws its orders from. */
    const random: RandomSource
    var roomMapping: RoomMapping
    /** `self.capsules`, the dictionary from `0 .. capsules_count - 1` to capsules, as a list. */
    var capsules: seq<Capsule>

    /**
     * The first part of `__init__`: the settings are stored and every room
     * starts without a capsule. The tries are in `Create`.
     */
    constructor (rooms: Dict<int, Room>, capsulesCount: nat, globalConstraints: seq<Constraint>,
                 maxTriesCount: int, maxFixesCount: int, random: RandomSource)
      requires rooms.Valid() && Indexed(rooms) && capsulesCount > 0
      requires forall r :: r in rooms.at.Values ==> forall c :: c in r.constraints ==> ConstraintKnown(rooms, c)
      requires forall c :: c in globalConstraints ==> ConstraintKnown(rooms, c)
      ensures Valid()
      ensures this.rooms == rooms && this.capsulesCount == capsulesCount
      ensures this.globalConstraints == globalConstraints && this.random == random
      ensures this.maxTriesCount == maxTriesCount && this.maxFixesCount == maxFixesCount
      ensures fresh(roomMapping) && roomMapping.dict.Valid() && roomMapping.dict.keys == rooms.Values()
      ensures forall r :: r in roomMapping.dict.at ==> roomMapping.dict.at[r] == None
      ensures capsules == []
    {
      this.rooms := rooms;
      this.capsulesCount := capsulesCount;
      this.globalConstraints := globalConstraints;
      this.maxTriesCount := maxTriesCount;
      this.maxFixesCount := maxFixesCount;
      this.random := random;
      ValuesDistinct(rooms);
      this.roomMapping := new RoomMapping(FromKeys(rooms.Values(), None));
      this.capsules := [];
      new;
      forall r | r in roomMapping.dict.at ensures Known(rooms, r) {
        var vs := rooms.Values();
        assert r in roomMapping.dict.keys;
        var i :| 0 <= i < |vs| && vs[i] == r;
        var k := rooms.keys[i];
        assert k in rooms.at && rooms.at[k] == r;
        assert r.index == k;
      }
    }

    /**
     * The rooms are filed under their numbers, every room the mapping or a
     * constraint names is one of them, and there is at least one capsule.
     */
    ghost predicate Valid()
      reads this, roomMapping, rooms.at.Values
    {
      RoomsValid() && MappingValid()
    }

    /** The part of `Valid` about the rooms and the constraints. */
    ghost predicate RoomsValid()
      reads this, rooms.at.Values
    {
      && capsulesCount > 0
      && rooms.Valid() && Indexed(rooms)
      && (forall r :: r in rooms.at.Values ==> forall c :: c in r.constraints ==> ConstraintKnown(rooms, c))
      && (forall c :: c in globalConstraints ==> ConstraintKnown(rooms, c))
    }

    /** The part of `Valid` about the room mapping. */
    ghost predicate MappingValid()
      reads this, roomMapping
    {
      && roomMapping.dict.Valid()
      && (forall r :: r in roomMapping.dict.at ==> Known(rooms, r))
    }

    /** The capsules are numbered by their positions, `0 .. capsules_count - 1`. */
    ghost predicate Numbered()
      reads this
    {
      && |capsules| == capsulesCount
      && forall i :: 0 <= i < |capsules| ==> capsules[i].index == i
    }

    /**
     * `verdicts` are the verdicts the capsules would get freshly updated
     * from the current mapping, by capsule number.
     */
    ghost predicate VerdictsFresh(verdicts: seq<Result<Verdict>>)
      requires roomMapping.dict.Valid()
      reads this, roomMapping, roomMapping.dict.at.Keys
    {
      FreshTable(roomMapping.dict, capsulesCount, globalConstraints, verdicts)
    }

    /** The table of fresh verdicts in the current state. */
    lemma FreshSnapshot() returns (verdicts: seq<Result<Verdict>>)
      requires roomMapping.dict.Valid()
      ensures VerdictsFresh(verdicts)
    {
      verdicts := FreshVerdicts(roomMapping.dict, capsulesCount, globalConstraints);
    }

    /** `AllPass` read off a table of fresh verdicts. */
    lemma AllPassTable(verdicts: seq<Result<Verdict>>)
      requires roomMapping.dict.Valid() && VerdictsFresh(verdicts)
      ensures AllPass(roomMapping.dict, capsulesCount, globalConstraints) <==>
              forall c :: 0 <= c < capsulesCount ==> verdicts[c] == Ok(Pass)
    {
      if forall c :: 0 <= c < capsulesCount ==> verdicts[c] == Ok(Pass) {
        forall c | 0 <= c < capsulesCount ensures FreshVerdict(roomMapping.dict, c, globalConstraints) == Ok(Pass) {
          assert verdicts[c] == Ok(Pass);
        }
      }
      if AllPass(roomMapping.dict, capsulesCount, globalConstraints) {
        forall c | 0 <= c < capsulesCount ensures verdicts[c] == Ok(Pass) {
          assert FreshVerdict(roomMapping.dict, c, globalConstraints) == Ok(Pass);
        }
      }
    }

    /** Every capsule is in step with the mapping. */
    ghost predicate Synced()
      requires roomMapping.dict.Valid()
      reads this, roomMapping, roomMapping.dict.at.Keys, capsules
    {
      && Numbered()
      && forall i :: 0 <= i < |capsules| ==> InSync(capsules[i], roomMapping.dict, globalConstraints)
    }

    /**
     * The first loop of `allocate_rooms_randomly`: for each capsule `c` in
     * the shuffled order, the rooms of the slice
     * `shuffled_rooms[c * factor: (c + 1) * factor]` are mapped to `c`.
     */
    method AllocateBlocks(ghost d0: Assignment, shuffledRooms: seq<int>, shuffledCapsules: seq<nat>, factor: nat)
      requires d0.Valid()
      requires forall p :: 0 <= p < |shuffledRooms| ==> shuffledRooms[p] in rooms.at
      requires forall c :: c in shuffledCapsules ==> c < capsulesCount
      requires factor * capsulesCount <= |shuffledRooms|
      requires roomMapping.dict == d0
      modifies roomMapping
      ensures roomMapping.dict == ApplyWrites(d0, rooms, shuffledRooms, BlockWrites(shuffledCapsules, factor))
    {
      var i := 0;
      assert shuffledCapsules[..0] == [];
      while i < |shuffledCapsules|
        invariant 0 <= i <= |shuffledCapsules|
        invariant roomMapping.dict == ApplyWrites(d0, rooms, shuffledRooms, BlockWrites(shuffledCapsules[..i], factor))
      {
        assert shuffledCapsules[i] in shuffledCapsules;
        AllocateBlock(d0, shuffledRooms, shuffledCapsules, factor, i);
        i := i + 1;
      }
      assert shuffledCapsules[..i] == shuffledCapsules;
    }

    /**
     * One pass of the block loop: the rooms of the slice
     * `shuffled_rooms[c * factor: (c + 1) * factor]` go to capsule `c`,
     * the `i`-th of the shuffled capsule numbers.
     */
    method AllocateBlock(ghost d0: Assignment, shuffledRooms: seq<int>, order: seq<nat>, factor: nat, i: nat)
      requires d0.Valid() && i < |order| && order[i] < capsulesCount
      requires forall p :: 0 <= p < |shuffledRooms| ==> shuffledRooms[p] in rooms.at
      requires factor * capsulesCount <= |shuffledRooms|
      requires roomMapping.dict == ApplyWrites(d0, rooms, shuffledRooms, BlockWrites(order[..i], factor))
      modifies roomMapping
      ensures roomMapping.dict == ApplyWrites(d0, rooms, shuffledRooms, BlockWrites(order[..i + 1], factor))
    {
      var c := order[i];
      BlockBounds(c, factor, capsulesCount);
      var lo: nat := c * factor;
      var block := shuffledRooms[lo .. lo + factor];
      BlockDone(order, factor, i);
      var k := 0;
      while k < |block|
        invariant 0 <= k <= factor == |block|
        invariant roomMapping.dict == ApplyWrites(d0, rooms, shuffledRooms, BlockPrefix(order, factor, i, k))
      {
        BlockStepAt(d0, rooms, shuffledRooms, order, factor, i, k, lo, block);
        var room := rooms.at[block[k]];
        roomMapping.dict := roomMapping.dict.Set(room, Some(c));
        k := k + 1;
      }
      assert k == factor;
    }

    /**
     * The second loop of `allocate_rooms_randomly`: the rooms left over
     * after the blocks, `shuffled_rooms[start:]`, are paired with the
     * capsules of `capsuleOrder` by `zip`, one room per capsule. The writes
     * are gathered in `dict` and stored in the mapping at the end; nothing
     * reads the mapping in between.
     */
    method AllocateLeftover(ghost d0: Assignment, ghost shuffled: seq<int>, ghost blocks: seq<Write>,
                            ghost start: nat, leftover: seq<int>, capsuleOrder: seq<nat>)
      requires d0.Valid()
      requires forall p :: 0 <= p < |shuffled| ==> shuffled[p] in rooms.at
      requires start <= |shuffled| && leftover == shuffled[start..] && |leftover| <= |capsuleOrder|
      requires roomMapping.dict == ApplyWrites(d0, rooms, shuffled, blocks)
      modifies roomMapping
      ensures roomMapping.dict == ApplyWrites(d0, rooms, shuffled, blocks + TailWrites(start, |shuffled|, capsuleOrder))
    {
      ghost var tail := TailWrites(start, |shuffled|, capsuleOrder);
      TailAppliedWrites(d0, rooms, shuffled, blocks, start, leftover, capsuleOrder, |leftover|);
      var dict := ZipLeftover(roomMapping.dict, rooms, leftover, capsuleOrder);
      TakeAll(tail, |leftover|);
      roomMapping.dict := dict;
    }

    /**
     * `allocate_rooms_randomly`: the rooms numbered `roomIndices` are
     * shuffled, the capsule numbers are shuffled, capsule `c` gets the block
     * of shuffled positions `c * factor .. (c + 1) * factor`, and the
     * leftover positions get the capsules of a second shuffle, one each.
     */
    method AllocateRoomsRandomly(roomIndices: seq<int>) returns (ghost shuffled: seq<int>, ghost order: seq<nat>, ghost order2: seq<nat>)
      requires Valid()
      requires forall p :: 0 <= p < |roomIndices| ==> roomIndices[p] in rooms.at
      modifies roomMapping, random
      ensures Valid()
      ensures shuffled == Permute(roomIndices, NextDraw(old(random.draws)))
      ensures order == Permute(Range(capsulesCount), NextDraw(LaterDraws(old(random.draws))))
      ensures order2 == Permute(order, NextDraw(LaterDraws(LaterDraws(old(random.draws)))))
      ensures random.draws == LaterDraws(LaterDraws(LaterDraws(old(random.draws))))
      ensures multiset(shuffled) == multiset(roomIndices)
      ensures IsCapsuleOrder(order, capsulesCount) && IsCapsuleOrder(order2, capsulesCount)
      ensures forall p :: 0 <= p < |shuffled| ==> shuffled[p] in rooms.at
      ensures roomMapping.dict == ApplyWrites(old(roomMapping.dict), rooms, shuffled, AllocationWrites(|shuffled|, capsulesCount, order, order2))
      ensures Allocated(old(roomMapping.dict), roomMapping.dict, rooms, shuffled, capsulesCount)
    {
      var shuffledRooms := random.Shuffle(roomIndices);
      shuffled := shuffledRooms;
      forall p | 0 <= p < |shuffled| ensures shuffled[p] in rooms.at {
        assert shuffled[p] in multiset(roomIndices);
      }
      var shuffledCapsules := random.Shuffle(Range(capsulesCount));
      order := shuffledCapsules;
      CapsuleOrderFacts(order, capsulesCount);
      order2 := AllocateShuffled(shuffledRooms, shuffledCapsules);
    }

    /**
     * `allocate_rooms_randomly` seen from its callers: the rooms numbered
     * `shuffled`, a rearrangement of `roomIndices`, are given capsules.
     */
    method AllocateShuffle(roomIndices: seq<int>) returns (ghost shuffled: seq<int>)
      requires Valid()
      requires forall p :: 0 <= p < |roomIndices| ==> roomIndices[p] in rooms.at
      modifies roomMapping, random
      ensures Valid()
      ensures multiset(shuffled) == multiset(roomIndices)
      ensures forall p :: 0 <= p < |shuffled| ==> shuffled[p] in rooms.at
      ensures Allocated(old(roomMapping.dict), roomMapping.dict, rooms, shuffled, capsulesCount)
    {
      ghost var order, order2;
      shuffled, order, order2 := AllocateRoomsRandomly(roomIndices);
    }

    /** The second capsule shuffle, zipped with the rooms left after the blocks. */
    method AllocateTail(ghost d0: Assignment, shuffledRooms: seq<int>, shuffledCapsules: seq<nat>, ghost blocks: seq<Write>, start: nat)
      returns (ghost order2: seq<nat>)
      requires d0.Valid()
      requires forall p :: 0 <= p < |shuffledRooms| ==> shuffledRooms[p] in rooms.at
      requires IsCapsuleOrder(shuffledCapsules, capsulesCount)
      requires start <= |shuffledRooms| <= start + capsulesCount
      requires roomMapping.dict == ApplyWrites(d0, rooms, shuffledRooms, blocks)
      modifies roomMapping, random
      ensures order2 == Permute(shuffledCapsules, NextDraw(old(random.draws)))
      ensures random.draws == LaterDraws(old(random.draws))
      ensures IsCapsuleOrder(order2, capsulesCount)
      ensures roomMapping.dict == ApplyWrites(d0, rooms, shuffledRooms, blocks + TailWrites(start, |shuffledRooms|, order2))
    {
      var capsuleOrder := random.Shuffle(shuffledCapsules);
      order2 := capsuleOrder;
      CapsuleOrderFacts(order2, capsulesCount);
      var leftover := shuffledRooms[start..];
      AllocateLeftover(d0, shuffledRooms, blocks, start, leftover, capsuleOrder);
    }

    /** `allocate_rooms_randomly` from the point where both lists are shuffled. */
    method AllocateShuffled(shuffledRooms: seq<int>, shuffledCapsules: seq<nat>) returns (ghost order2: seq<nat>)
      requires Valid()
      requires forall p :: 0 <= p < |shuffledRooms| ==> shuffledRooms[p] in rooms.at
      requires IsCapsuleOrder(shuffledCapsules, capsulesCount)
      modifies roomMapping, random
      ensures Valid()
      ensures order2 == Permute(shuffledCapsules, NextDraw(old(random.draws)))
      ensures random.draws == LaterDraws(old(random.draws))
      ensures IsCapsuleOrder(order2, capsulesCount)
      ensures roomMapping.dict == ApplyWrites(old(roomMapping.dict), rooms, shuffledRooms, AllocationWrites(|shuffledRooms|, capsulesCount, shuffledCapsules, order2))
      ensures Allocated(old(roomMapping.dict), roomMapping.dict, rooms, shuffledRooms, capsulesCount)
    {
      ghost var d0 := roomMapping.dict;
      ghost var shuffled, order := shuffledRooms, shuffledCapsules;
      assert RoomsValid();
      CapsuleOrderFacts(order, capsulesCount);
      var n := |shuffledRooms|;
      var factor := n / capsulesCount;
      FactorBounds(n, capsulesCount);
      AllocateBlocks(d0, shuffledRooms, shuffledCapsules, factor);
      order2 := AllocateTail(d0, shuffledRooms, shuffledCapsules, BlockWrites(order, factor), factor * capsulesCount);
      AllocationKnown(d0, rooms, shuffled, capsulesCount, order, order2);
      assert MappingValid();
      assert RoomsValid();
    }

    /** `update_capsules`: every capsule is rebuilt from the current mapping. */
    method UpdateCapsules()
      requires Valid() && Numbered()
      modifies capsules
      ensures Synced()
      ensures forall i :: 0 <= i < |capsules| ==> capsules[i].stale == 0
    {
      var cs, i := capsules, 0;
      ghost var d := roomMapping.dict;
      while i < |cs|
        invariant 0 <= i <= |cs|
        invariant roomMapping.dict == d
        invariant forall j :: 0 <= j < i ==> Refreshed(cs[j], d)
      {
        assert forall j :: 0 <= j < i ==> cs[j].index != cs[i].index;
        cs[i].Update(roomMapping);
        i := i + 1;
      }
      forall j | 0 <= j < |cs| ensures InSync(cs[j], d, globalConstraints) {
        assert Refreshed(cs[j], d);
        assert cs[j].constraints + Repeat(globalConstraints, 0) == cs[j].constraints;
      }
    }

    /**
     * `commit_action`: the action writes its one key of the mapping and
     * every capsule is rebuilt.
     */
    method CommitAction(a: Action)
      requires Valid() && Numbered() && Known(rooms, a.room)
      modifies roomMapping, capsules
      ensures Valid() && Synced()
      ensures forall i :: 0 <= i < |capsules| ==> capsules[i].stale == 0
      ensures roomMapping.dict == Apply(old(roomMapping.dict), a)
    {
      Do(a, roomMapping);
      UpdateCapsules();
    }

    /**
     * The loop of `fix_capsules`: the capsules are checked in a shuffled
     * order, each with the global constraints appended; the first invalid
     * one has its actions committed and ends the loop, and an exception
     * ends the round. `verdicts` are the fresh verdicts at the start of
     * the round; `order` holds the capsule numbers in the order checked and
     * `stop` the position where the loop ended (`|order|` when every
     * capsule passed).
     */
    method CheckCapsules(ghost verdicts: seq<Result<Verdict>>) returns (r: Result<bool>, ghost order: seq<int>, ghost stop: nat)
      requires Valid() && Synced() && VerdictsFresh(verdicts)
      modifies roomMapping, random, capsules
      ensures Valid() && Synced()
      ensures random.draws == LaterDraws(old(random.draws))
      ensures order == CapsuleIndices(Permute(old(capsules), NextDraw(old(random.draws))))
      ensures stop <= |order|
      ensures forall j :: 0 <= j < stop ==> 0 <= order[j] < |verdicts| && verdicts[order[j]] == Ok(Pass)
      ensures old(roomMapping.dict).Valid() && ScanEnded(verdicts, order, stop, r, old(roomMapping.dict), roomMapping.dict)
    {
      var v;
      v, order, stop := ScanCapsules(verdicts);
      if v.Err? {
        return Err(v.error), order, stop;
      }
      if v.value.valid {
        return Ok(false), order, stop;
      }
      CommitRepairs(order[stop], v);
      r := Ok(true);
    }

    /** The actions of capsule `c`'s failing verdict committed one after another. */
    method CommitRepairs(ghost c: int, v: Result<Verdict>)
      requires Valid() && Synced()
      requires v.Ok? && v == FreshVerdict(roomMapping.dict, c, globalConstraints)
      modifies roomMapping, capsules
      ensures Valid() && Synced()
      ensures roomMapping.dict == ApplyAll(old(roomMapping.dict), v.value.actions)
    {
      FreshActionsKnown(roomMapping.dict, c);
      CommitAll(v.value.actions);
    }

    /**
     * The scan of `fix_capsules`: the verdict of the first capsule, in a
     * shuffled order, that does not pass (`(True, [])` when all pass).
     * Each capsule checked has the global constraints appended once more.
     */
    method ScanCapsules(ghost verdicts: seq<Result<Verdict>>) returns (v: Result<Verdict>, ghost order: seq<int>, ghost stop: nat)
      requires Valid() && Synced() && VerdictsFresh(verdicts)
      modifies random, capsules
      ensures Valid() && Synced() && VerdictsFresh(verdicts)
      ensures random.draws == LaterDraws(old(random.draws))
      ensures order == CapsuleIndices(Permute(old(capsules), NextDraw(old(random.draws))))
      ensures stop <= |order|
      ensures forall j :: 0 <= j < stop ==> 0 <= order[j] < |verdicts| && verdicts[order[j]] == Ok(Pass)
      ensures stop == |order| <==> v == Ok(Pass)
      ensures stop == |order| ==> forall c :: 0 <= c < |verdicts| ==> verdicts[c] == Ok(Pass)
      ensures stop < |order| ==> 0 <= order[stop] < |verdicts| && v == verdicts[order[stop]]
      ensures v.Ok? ==> v.value.valid == (v == Ok(Pass))
    {
      var shuffled := ShuffleCapsules(verdicts);
      v, order, stop := ScanShuffled(shuffled, verdicts);
    }

    /** `shuffle_list(self.capsules)`, which touches nothing but the random source. */
    method ShuffleCapsules(ghost verdicts: seq<Result<Verdict>>) returns (shuffled: seq<Capsule>)
      requires Valid() && Synced() && VerdictsFresh(verdicts)
      modifies random
      ensures Valid() && Synced() && VerdictsFresh(verdicts)
      ensures shuffled == Permute(capsules, NextDraw(old(random.draws)))
      ensures multiset(shuffled) == multiset(capsules)
      ensures random.draws == LaterDraws(old(random.draws))
    {
      shuffled := random.Shuffle(capsules);
    }

    /** The scan over `shuffled`, a permutation of the capsules. */
    method ScanShuffled(shuffled: seq<Capsule>, ghost verdicts: seq<Result<Verdict>>) returns (v: Result<Verdict>, ghost order: seq<int>, ghost stop: nat)
      requires Valid() && Synced() && VerdictsFresh(verdicts)
      requires multiset(shuffled) == multiset(capsules)
      modifies capsules
      ensures Valid() && Synced() && VerdictsFresh(verdicts)
      ensures order == CapsuleIndices(shuffled)
      ensures stop <= |order|
      ensures forall j :: 0 <= j < stop ==> 0 <= order[j] < |verdicts| && verdicts[order[j]] == Ok(Pass)
      ensures stop == |order| <==> v == Ok(Pass)
      ensures stop == |order| ==> forall c :: 0 <= c < |verdicts| ==> verdicts[c] == Ok(Pass)
      ensures stop < |order| ==> 0 <= order[stop] < |verdicts| && v == verdicts[order[stop]]
      ensures v.Ok? ==> v.value.valid == (v == Ok(Pass))
    {
      order := CapsuleIndices(shuffled);
      ghost var positions := Positions(capsules, shuffled);
      assert forall k :: 0 <= k < |order| ==> order[k] == positions[k];
      v, stop := ScanOrder(shuffled, positions, verdicts);
      if stop == |order| {
        forall c | 0 <= c < capsulesCount ensures verdicts[c] == Ok(Pass) {
          var k := PositionIn(shuffled, capsules, c);
          assert positions[k] == c;
        }
      }
    }

    /**
     * The loop of the scan over an order of the capsules, `positions`
     * giving where each sits in `capsules`.
     */
    method ScanOrder(order: seq<Capsule>, ghost positions: seq<nat>, ghost verdicts: seq<Result<Verdict>>)
      returns (v: Result<Verdict>, ghost stop: nat)
      requires Valid() && Synced() && VerdictsFresh(verdicts)
      requires |positions| == |order|
      requires forall k {:trigger positions[k]} :: 0 <= k < |order| ==> positions[k] < |capsules| && capsules[positions[k]] == order[k]
      modifies capsules
      ensures Valid() && Synced() && VerdictsFresh(verdicts)
      ensures stop <= |order|
      ensures forall j :: 0 <= j < stop ==> verdicts[positions[j]] == Ok(Pass)
      ensures stop == |order| ==> v == Ok(Pass)
      ensures stop < |order| ==> v == verdicts[positions[stop]] && v != Ok(Pass)
      ensures v.Ok? ==> v.value.valid == (v == Ok(Pass))
    {
      var i := 0;
      v := Ok(Pass);
      while i < |order|
        modifies capsules
        invariant 0 <= i <= |order|
        invariant Valid() && Synced() && VerdictsFresh(verdicts)
        invariant forall j :: 0 <= j < i ==> verdicts[positions[j]] == Ok(Pass)
        invariant v == Ok(Pass)
      {
        v := ScanStep(order[i], positions[i], verdicts);
        if v.Err? || !v.value.valid {
          break;
        }
        i := i + 1;
      }
      stop := i;
    }

    /** The capsule at position `pos` checked, the others left alone. */
    method ScanStep(capsule: Capsule, ghost pos: int, ghost verdicts: seq<Result<Verdict>>) returns (v: Result<Verdict>)
      requires Valid() && Synced() && VerdictsFresh(verdicts)
      requires 0 <= pos < |capsules| && capsules[pos] == capsule
      modifies capsule
      ensures Valid() && Synced() && VerdictsFresh(verdicts)
      ensures capsule.index == pos && v == verdicts[pos]
      ensures v.Ok? && v.value.valid ==> v == Ok(Pass)
    {
      v := CheckCapsule(capsule);
      forall j | 0 <= j < |capsules| ensures InSync(capsules[j], roomMapping.dict, globalConstraints) {
        if j != pos {
          assert capsules[j] != capsule;
        }
      }
    }

    /**
     * One step of the scan: `capsule.apply_constraints(global_constraints)`
     * on a capsule in step with the mapping gives the verdict of a freshly
     * updated capsule.
     */
    method CheckCapsule(capsule: Capsule) returns (v: Result<Verdict>)
      requires roomMapping.dict.Valid() && InSync(capsule, roomMapping.dict, globalConstraints)
      modifies capsule
      ensures InSync(capsule, roomMapping.dict, globalConstraints)
      ensures v == old(FreshVerdict(roomMapping.dict, capsule.index, globalConstraints))
      ensures v.Ok? && v.value.valid ==> v == Ok(Pass)
    {
      ghost var k := capsule.stale;
      v := capsule.ApplyConstraints(globalConstraints);
      RepeatStep(Gathered(capsule.rooms), globalConstraints, k);
      VerdictIsFresh(roomMapping.dict, capsule.index, globalConstraints, k);
      FirstFailureShape(capsule.index, capsule.rooms, SortByOrder(capsule.constraints));
    }

    /** The actions of an invalid capsule committed one after another. */
    method CommitAll(actions: seq<Action>)
      requires Valid() && Synced()
      requires forall a :: a in actions ==> Known(rooms, a.room)
      modifies roomMapping, capsules
      ensures Valid() && Synced()
      ensures roomMapping.dict == ApplyAll(old(roomMapping.dict), actions)
    {
      var j := 0;
      while j < |actions|
        invariant 0 <= j <= |actions|
        invariant Valid() && Synced()
        invariant ApplyAll(roomMapping.dict, actions[j..]) == ApplyAll(old(roomMapping.dict), actions)
      {
        CommitAction(actions[j]);
        assert actions[j..][1..] == actions[j + 1..];
        j := j + 1;
      }
      assert actions[j..] == [];
    }

    /**
     * The orphan step of `fix_capsules`: the numbers of the rooms mapped to
     * `None`, in mapping order, are allocated afresh and every capsule is
     * rebuilt; nothing happens when there are none.
     */
    method PlaceOrphans() returns (placed: bool)
      requires Valid() && Synced()
      modifies roomMapping, random, capsules
      ensures Valid() && Synced()
      ensures placed <==> !NoOrphans(old(roomMapping.dict))
      ensures NoOrphans(roomMapping.dict)
      ensures OrphansPlaced(old(roomMapping.dict), roomMapping.dict, capsulesCount)
      ensures !placed ==> roomMapping.dict == old(roomMapping.dict) && random.draws == old(random.draws)
    {
      var orphans := Indices(roomMapping.dict.KeysWith(None));
      OrphanNumbers(roomMapping.dict, rooms);
      if |orphans| == 0 {
        return false;
      }
      AllocateOrphans(orphans);
      placed := true;
    }

    /** The orphans, numbered `orphans`, allocated and every capsule rebuilt. */
    method AllocateOrphans(orphans: seq<int>)
      requires Valid() && Numbered()
      requires orphans == Indices(roomMapping.dict.KeysWith(None))
      requires forall p :: 0 <= p < |orphans| ==> orphans[p] in rooms.at
      modifies roomMapping, random, capsules
      ensures Valid() && Synced()
      ensures NoOrphans(roomMapping.dict)
      ensures OrphansPlaced(old(roomMapping.dict), roomMapping.dict, capsulesCount)
    {
      ghost var d := roomMapping.dict;
      ghost var shuffled := AllocateShuffle(orphans);
      OrphansAllocated(d, roomMapping.dict, rooms, shuffled, capsulesCount);
      UpdateCapsules();
    }

    /**
     * `fix_capsules`: one round of the search. The capsules are checked in
     * a shuffled order `order` and the repairs of the first that fails,
     * the one at position `stop`, are committed (`fixed` names it, `mid`
     * is the mapping after its repairs); then every orphan is placed. The
     * round reports whether anything needed fixing, or the exception the
     * check at the stop raised.
     */
    method FixCapsules() returns (r: Result<bool>, ghost fixed: Option<int>, ghost mid: Assignment,
                                  ghost order: seq<int>, ghost stop: nat)
      requires Valid() && Synced()
      modifies roomMapping, random, capsules
      ensures Valid() && Synced()
      ensures RoundFixed(old(roomMapping.dict), capsulesCount, globalConstraints, r, fixed, mid, roomMapping.dict)
      ensures order == CapsuleIndices(Permute(old(capsules), NextDraw(old(random.draws))))
      ensures old(roomMapping.dict.Valid() && PassedBefore(roomMapping.dict, capsulesCount, globalConstraints, order, stop))
      ensures fixed.Some? ==> stop < |order| && fixed.value == order[stop]
      ensures r.Err? ==> stop < |order| && old(FreshVerdict(roomMapping.dict, order[stop], globalConstraints)) == Err(r.error)
    {
      ghost var d := roomMapping.dict;
      var checked;
      checked, fixed, order, stop := CheckRound();
      mid := roomMapping.dict;
      if checked.Err? {
        r := checked;
        FixOutcome(d, capsulesCount, globalConstraints, checked, fixed, mid, r, mid);
      } else {
        r := PlaceAndReport(d, checked.value, fixed);
      }
    }

    /**
     * The end of a round of `fix_capsules` whose check loop reported
     * `repaired` and took `d` to the current mapping: the orphans are placed,
     * and the round reports whether a capsule was repaired or a room placed.
     */
    method PlaceAndReport(ghost d: Assignment, repaired: bool, ghost fixed: Option<int>) returns (r: Result<bool>)
      requires Valid() && Synced() && d.Valid()
      requires RoundChecked(d, capsulesCount, globalConstraints, Ok(repaired), fixed, roomMapping.dict)
      modifies roomMapping, random, capsules
      ensures Valid() && Synced()
      ensures RoundFixed(d, capsulesCount, globalConstraints, r, fixed, old(roomMapping.dict), roomMapping.dict)
    {
      ghost var mid := roomMapping.dict;
      var placed := PlaceOrphans();
      r := Ok(repaired || placed);
      FixOutcome(d, capsulesCount, globalConstraints, Ok(repaired), fixed, mid, r, roomMapping.dict);
    }

    /**
     * The check loop of `fix_capsules` as seen from the mapping: the
     * capsules before position `stop` of the shuffled order `order` pass,
     * and the one at the stop either raises, ending the round, or has its
     * repairs committed; `False` is reported when every capsule passes.
     */
    method CheckRound() returns (checked: Result<bool>, ghost fixed: Option<int>, ghost order: seq<int>, ghost stop: nat)
      requires Valid() && Synced()
      modifies roomMapping, random, capsules
      ensures Valid() && Synced()
      ensures RoundChecked(old(roomMapping.dict), capsulesCount, globalConstraints, checked, fixed, roomMapping.dict)
      ensures order == CapsuleIndices(Permute(old(capsules), NextDraw(old(random.draws))))
      ensures old(roomMapping.dict.Valid() && PassedBefore(roomMapping.dict, capsulesCount, globalConstraints, order, stop))
      ensures fixed.Some? ==> stop < |order| && fixed.value == order[stop]
      ensures checked.Err? ==> stop < |order| && old(FreshVerdict(roomMapping.dict, order[stop], globalConstraints)) == Err(checked.error)
    {
      ghost var d := roomMapping.dict;
      ghost var verdicts := FreshSnapshot();
      assert FreshTable(d, capsulesCount, globalConstraints, verdicts);
      checked, order, stop := CheckCapsules(verdicts);
      fixed := ScanOutcome(d, capsulesCount, globalConstraints, verdicts, order, stop, checked, roomMapping.dict);
    }

    /** `randomize_room_mapping`: every room is allocated afresh. */
    method RandomizeRoomMapping()
      requires Valid()
      modifies roomMapping, random
      ensures Valid()
      ensures roomMapping.dict.at.Keys == old(roomMapping.dict.at.Keys) + rooms.at.Values
      ensures forall x :: x in rooms.at.Values ==> roomMapping.dict.at[x].Some? && 0 <= roomMapping.dict.at[x].value < capsulesCount
      ensures NoOrphans(roomMapping.dict)
    {
      ghost var d := roomMapping.dict;
      ghost var shuffled := AllocateShuffle(rooms.keys);
      EveryRoomAllocated(d, roomMapping.dict, rooms, shuffled, capsulesCount);
    }

    /**
     * The capsule loop of `build_capsules`: capsules `0 .. capsules_count - 1`
     * are created afresh, each rebuilt from the current mapping.
     */
    method CreateCapsules()
      requires Valid()
      modifies this
      ensures Valid() && Synced()
      ensures roomMapping == old(roomMapping) && forall i :: 0 <= i < |capsules| ==> fresh(capsules[i])
    {
      var cs: seq<Capsule> := [];
      ghost var d := roomMapping.dict;
      while |cs| < capsulesCount
        invariant |cs| <= capsulesCount
        invariant roomMapping == old(roomMapping) && roomMapping.dict == d
        invariant forall j :: 0 <= j < |cs| ==> fresh(cs[j]) && cs[j].index == j && Refreshed(cs[j], d)
      {
        var c := new Capsule(|cs|, []);
        c.Update(roomMapping);
        cs := cs + [c];
      }
      capsules := cs;
      forall j | 0 <= j < |cs| ensures InSync(cs[j], d, globalConstraints) {
        assert cs[j].constraints + Repeat(globalConstraints, 0) == cs[j].constraints;
      }
    }

    /**
     * `build_capsules`: the mapping is randomized, or replaced by the
     * caller's mapping object (the same object on every try, so its repairs
     * carry over); fresh capsules are built; then up to `max_fixes_count`
     * rounds run, recorded in `results` and `states`. It reports `True`
     * exactly when some round needed no fixing, so that every capsule passes
     * and no room is an orphan; `False` when every round needed fixing; a
     * round's exception; and `UnboundLocalError` when no round runs at all.
     */
    method BuildCapsules(existing: RoomMapping?) returns (r: Result<bool>, ghost results: seq<Result<bool>>, ghost states: seq<Assignment>,
                                                 ghost repairs: seq<(Option<int>, Assignment)>)
      requires Valid()
      requires existing != null ==> existing.dict.Valid() && forall x :: x in existing.dict.at ==> Known(rooms, x)
      modifies this, roomMapping, random, existing
      ensures Valid() && Synced()
      ensures roomMapping == if existing != null then existing else old(roomMapping)
      ensures RoundsRun(states, results, repairs, capsulesCount, globalConstraints, rooms.at.Values) && states[|results|] == roomMapping.dict
      ensures existing != null ==> states[0] == old(existing.dict)
      ensures existing == null ==> NoOrphans(states[0])
      ensures BuildDecided(results, r, maxFixesCount)
      ensures maxFixesCount <= 0 <==> r == Err(UnboundLocal("needed_fixing"))
      ensures r == Ok(true) ==> AllPass(roomMapping.dict, capsulesCount, globalConstraints) && NoOrphans(roomMapping.dict)
      ensures r.Err? && maxFixesCount > 0 ==> r.error == GenderCountError(0)
      ensures r.Err? && maxFixesCount > 0 ==>
        exists c :: 0 <= c < capsulesCount && FreshVerdict(roomMapping.dict, c, globalConstraints) == Err(r.error)
    {
      if existing == null {
        RandomizeRoomMapping();
      } else {
        roomMapping := existing;
      }
      CreateCapsules();
      r, results, states, repairs := FixRounds();
      RoundsOutcome(results, r, maxFixesCount);
      if results != [] {
        LastRound(states, results, repairs, capsulesCount, globalConstraints, rooms.at.Values);
      }
    }

    /**
     * One round of `fix_capsules`, added to the record of the rounds run so
     * far, which ends at the current mapping.
     */
    method RecordedRound(ghost states: seq<Assignment>, ghost results: seq<Result<bool>>,
                         ghost repairs: seq<(Option<int>, Assignment)>)
      returns (round: Result<bool>, ghost nextStates: seq<Assignment>, ghost nextRepairs: seq<(Option<int>, Assignment)>)
      requires Valid() && Synced()
      requires RoundsRun(states, results, repairs, capsulesCount, globalConstraints, rooms.at.Values)
      requires states[|results|] == roomMapping.dict
      modifies roomMapping, random, capsules
      ensures Valid() && Synced()
      ensures RoundsRun(nextStates, results + [round], nextRepairs, capsulesCount, globalConstraints, rooms.at.Values)
      ensures nextStates[0] == states[0] && nextStates[|results| + 1] == roomMapping.dict
    {
      ghost var fixed, mid, order, stop;
      round, fixed, mid, order, stop := FixCapsules();
      KnownKeys(rooms, roomMapping.dict);
      RoundsSnoc(states, results, repairs, capsulesCount, globalConstraints, rooms.at.Values, round, fixed, mid, roomMapping.dict);
      nextStates, nextRepairs := states + [roomMapping.dict], repairs + [(fixed, mid)];
    }

    /**
     * The fix loop of `build_capsules`: up to `max_fixes_count` rounds,
     * stopping at the first round that needed no fixing or raised. Round `i`
     * takes `states[i]` to `states[i + 1]` and reports `results[i]`; every
     * round but the last needed fixing, and the last one decides.
     */
    method FixRounds() returns (r: Result<bool>, ghost results: seq<Result<bool>>, ghost states: seq<Assignment>,
                                                 ghost repairs: seq<(Option<int>, Assignment)>)
      requires Valid() && Synced()
      modifies roomMapping, random, capsules
      ensures Valid() && Synced()
      ensures RoundsRun(states, results, repairs, capsulesCount, globalConstraints, rooms.at.Values)
      ensures states[0] == old(roomMapping.dict) && states[|results|] == roomMapping.dict
      ensures RoundsEnded(results, r, maxFixesCount)
    {
      KnownKeys(rooms, roomMapping.dict);
      results, states, repairs := [], [roomMapping.dict], [];
      var needed: Option<bool> := None;
      var fixCount := 0;
      while fixCount < maxFixesCount
        invariant Valid() && Synced()
        invariant fixCount == |results| && (fixCount > 0 ==> fixCount <= maxFixesCount)
        invariant needed == if fixCount == 0 then None else Some(true)
        invariant RoundsRun(states, results, repairs, capsulesCount, globalConstraints, rooms.at.Values)
        invariant states[0] == old(roomMapping.dict) && states[|results|] == roomMapping.dict
        invariant forall i :: 0 <= i < |results| ==> results[i] == Ok(true)
      {
        var round;
        ghost var front := results;
        round, states, repairs := RecordedRound(states, results, repairs);
        results := results + [round];
        fixCount := fixCount + 1;
        if round.Err? {
          r := round;
          EndedEarly(front, round, r, maxFixesCount);
          return;
        }
        if !round.value {
          r := Ok(true);
          EndedEarly(front, round, r, maxFixesCount);
          return;
        }
        needed := Some(true);
      }
      if needed.None? {
        r := Err(UnboundLocal("needed_fixing"));
        return;
      }
      r := Ok(false);
      EndedFull(results, maxFixesCount);
    }

    /**
     * One try of `build_capsules`, added to the record of the tries so far;
     * on a caller's mapping the try goes on from where the chain of tries
     * from `start` has got to.
     */
    method RecordedBuild(existing: RoomMapping?, ghost start: Option<Assignment>,
                         ghost records: seq<BuildRecord>, ghost builds: seq<Result<bool>>)
      returns (built: Result<bool>, ghost nextRecords: seq<BuildRecord>)
      requires Valid()
      requires existing != null ==> existing.dict.Valid() && forall x :: x in existing.dict.at ==> Known(rooms, x)
      requires TriesRecorded(records, builds, capsulesCount, globalConstraints, maxFixesCount, rooms.at.Values, start)
      requires existing != null <==> start.Some?
      requires existing != null ==> existing.dict == ChainEnd(records, start.value)
      modifies this, roomMapping, random, existing
      ensures Valid() && Synced()
      ensures roomMapping == if existing != null then existing else old(roomMapping)
      ensures maxFixesCount <= 0 <==> built == Err(UnboundLocal("needed_fixing"))
      ensures built == Ok(true) ==> AllPass(roomMapping.dict, capsulesCount, globalConstraints) && NoOrphans(roomMapping.dict)
      ensures built.Err? && maxFixesCount > 0 ==> built.error == GenderCountError(0)
      ensures TriesRecorded(nextRecords, builds + [built], capsulesCount, globalConstraints, maxFixesCount, rooms.at.Values, start)
      ensures nextRecords != [] && nextRecords[|nextRecords| - 1].states != []
      ensures nextRecords[|nextRecords| - 1].Final() == roomMapping.dict
    {
      ghost var results, states, repairs;
      built, results, states, repairs := BuildCapsules(existing);
      ghost var record := BuildRecord(states, results, repairs);
      BuildsSnoc(records, builds, capsulesCount, globalConstraints, maxFixesCount, rooms.at.Values, record, built);
      if existing != null {
        ChainedSnoc(records, start.value, record);
      }
      nextRecords := records + [record];
      assert nextRecords[|records|] == record;
    }

    /**
     * `CapsulesManager(...)`: a manager is set up and `build_capsules` is
     * tried up to `max_tries_count` times, the results recorded in
     * `builds` and the rounds of each try in `records`: on a caller's
     * mapping each try goes on from where the previous one ended, otherwise
     * each starts from a fresh random allocation. A manager is returned
     * exactly when a build reported `True`, and its mapping is where the
     * last try ended;
     * a build's exception ends the tries; `RuntimeError` is raised exactly
     * when all `max_tries_count` builds reported `False`. The manager
     * returned has every capsule passing and no orphan, and works on the
     * caller's mapping object when one was given.
     */
    static method Create(rooms: Dict<int, Room>, capsulesCount: nat, globalConstraints: seq<Constraint>,
                         maxTriesCount: int, maxFixesCount: int, random: RandomSource, existing: RoomMapping?)
      returns (r: Result<CapsulesManager>, ghost builds: seq<Result<bool>>, ghost records: seq<BuildRecord>)
      requires rooms.Valid() && Indexed(rooms) && capsulesCount > 0
      requires forall x :: x in rooms.at.Values ==> forall c :: c in x.constraints ==> ConstraintKnown(rooms, c)
      requires forall c :: c in globalConstraints ==> ConstraintKnown(rooms, c)
      requires existing != null ==> existing.dict.Valid() && forall x :: x in existing.dict.at ==> Known(rooms, x)
      modifies random, existing
      ensures maxTriesCount <= 0 ==> r == Err(MaxTriesReached) && builds == []
      ensures maxTriesCount > 0 ==> |builds| <= maxTriesCount
      ensures forall i :: 0 <= i < |builds| - 1 ==> builds[i] == Ok(false)
      ensures r.Ok? <==> Ok(true) in builds
      ensures r == Err(MaxTriesReached) <==>
        |builds| == (if maxTriesCount < 0 then 0 else maxTriesCount) && forall b :: b in builds ==> b == Ok(false)
      ensures r.Err? && r.error != MaxTriesReached ==> builds != [] && builds[|builds| - 1] == Err(r.error)
      ensures maxTriesCount > 0 && maxFixesCount <= 0 ==> r == Err(UnboundLocal("needed_fixing"))
      ensures r.Ok? ==> var m := r.value;
        && m.Valid() && m.Synced() && m.rooms == rooms && m.capsulesCount == capsulesCount
        && m.globalConstraints == globalConstraints && m.random == random
        && AllPass(m.roomMapping.dict, capsulesCount, globalConstraints) && NoOrphans(m.roomMapping.dict)
      ensures r.Ok? && existing != null ==> r.value.roomMapping == existing
      ensures BuildsRun(records, builds, capsulesCount, globalConstraints, maxFixesCount, rooms.at.Values)
      ensures existing != null ==> BuildsChained(records, old(existing.dict))
      ensures existing == null ==> BuildsRandomized(records)
      ensures r.Ok? ==> records != [] && records[|records| - 1].states != []
                        && records[|records| - 1].Final() == r.value.roomMapping.dict
    {
      var m := new CapsulesManager(rooms, capsulesCount, globalConstraints, maxTriesCount, maxFixesCount, random);
      builds, records := [], [];
      ghost var start := if existing != null then Some(existing.dict) else None;
      r := Err(MaxTriesReached);
      var tryCount := 0;
      while tryCount < maxTriesCount
        invariant 0 <= tryCount && (tryCount > 0 ==> tryCount <= maxTriesCount) && |builds| == tryCount
        invariant forall i :: 0 <= i < |builds| ==> builds[i] == Ok(false)
        invariant fresh(m) && m.Valid() && m.rooms == rooms && m.capsulesCount == capsulesCount
        invariant m.globalConstraints == globalConstraints && m.random == random && m.maxFixesCount == maxFixesCount
        invariant fresh(m.roomMapping) || m.roomMapping == existing
        invariant tryCount > 0 && existing != null ==> m.roomMapping == existing
        invariant tryCount > 0 ==> maxFixesCount > 0
        invariant existing != null ==> existing.dict.Valid() && forall x :: x in existing.dict.at ==> Known(rooms, x)
        invariant TriesRecorded(records, builds, capsulesCount, globalConstraints, maxFixesCount, rooms.at.Values, start)
        invariant existing != null ==> existing.dict == ChainEnd(records, start.value)
        invariant r == Err(MaxTriesReached)
      {
        var built;
        ghost var nextRecords;
        built, nextRecords := m.RecordedBuild(existing, start, records, builds);
        LastDecides(builds, built, Ok(false));
        builds, records := builds + [built], nextRecords;
        tryCount := tryCount + 1;
        if built.Err? {
          r := Err(built.error);
          break;
        }
        if built.value {
          r := Ok(m);
          break;
        }
      }
    }

    /**
     * `get_capsules`: the room numbers of every capsule, rooms in the
     * capsule's own (mapping) order, the lists sorted by the key
     * `len(x) and x[0]` with lists of equal key in capsule order.
     */
    function GetCapsules(): (r: seq<seq<int>>)
      reads this, capsules
      ensures |r| == |capsules|
      ensures Sorted(r) && multiset(r) == multiset(CapsuleListing(capsules))
      ensures forall k :: WithKey(r, k) == WithKey(CapsuleListing(capsules), k)
    {
      var listing := CapsuleListing(capsules);
      SortByKeySpec(listing);
      assert |SortByKey(listing)| == |multiset(SortByKey(listing))| == |multiset(listing)|;
      SortByKey(listing)
    }

    /**
     * With the capsules in step with the mapping, `get_capsules` lists, for
     * every capsule number, the numbers of the rooms the mapping gives it.
     */
    lemma ListingFromMapping()
      requires Valid() && Synced()
      ensures forall l :: l in GetCapsules() <==>
        exists c :: 0 <= c < capsulesCount && l == Indices(Members(roomMapping.dict, c))
    {
      var listing := CapsuleListing(capsules);
      var r := GetCapsules();
      forall l ensures l in r <==> exists c :: 0 <= c < capsulesCount && l == Indices(Members(roomMapping.dict, c)) {
        if l in r {
          assert l in multiset(r);
          assert l in multiset(listing);
          var i :| 0 <= i < |listing| && listing[i] == l;
          assert InSync(capsules[i], roomMapping.dict, globalConstraints);
        }
        if c :| 0 <= c < capsulesCount && l == Indices(Members(roomMapping.dict, c)) {
          assert InSync(capsules[c], roomMapping.dict, globalConstraints);
          assert listing[c] == l;
          assert l in multiset(r);
        }
      }
    }

    /** The actions of a fresh verdict name only known rooms. */
    lemma FreshActionsKnown(d: Assignment, capsuleIndex: int)
      requires RoomsValid() && d.Valid()
      requires forall x :: x in d.at ==> Known(rooms, x)
      ensures var v := FreshVerdict(d, capsuleIndex, globalConstraints);
        v.Ok? ==> forall a :: a in v.value.actions ==> Known(rooms, a.room)
    {
      var members := Members(d, capsuleIndex);
      var cs := Gathered(members) + globalConstraints;
      var v := FreshVerdict(d, capsuleIndex, globalConstraints);
      CapsuleVerdictSpec(capsuleIndex, members, cs);
      if v.Ok? && v != Ok(Pass) {
        var c :| c in cs && v == IsValid(c, capsuleIndex, members) && !Holds(c, capsuleIndex, members);
        ActionRooms(c, capsuleIndex, members);
        if c in Gathered(members) {
          var x :| x in members && c in x.constraints;
          assert x in rooms.at.Values by { assert rooms.at[x.index] == x; }
        }
      }
    }
  }
}
