# CoronaRoom allocator in Dafny

CoronaRoom splits the rooms of a dormitory into a fixed number of
*capsules* (groups kept apart from each other). Every room has roommates, a
gender inferred from them, and constraints:

- a connecting constraint says that two rooms must share a capsule;
- a gender constraint says that the capsule must have one gender only;
- a room-count constraint gives a maximum number of rooms.

The allocator works on one shared dictionary from room to capsule number
(or `None`). It starts from a random allocation and runs repair rounds. In
each round, at most one invalid capsule applies the actions its first
failing constraint suggests. Rooms left without a capsule are then
allocated at random again. The search gives up after a fixed number of
rounds per try and a fixed number of tries.

This project models, in Dafny:

- the constraint evaluators and the `Reduce`/`Add` actions (`constraints.py`);
- the `Capsule` and `CapsulesManager` classes (`capsule.py`);
- the construction of the rooms and the inference of their genders (`room.py`);
- the loading of the per-room constraints and the global constraint list (`main.py`).

It then proves what these promise.

Modules, one concept each:

- `Common`: errors, `Result`/`Option`, distinctness, and small facts about sequences.
- `PyDict`: an insertion-ordered Python dictionary, `Dict(keys, at)`. Assigning to a new key appends that key.
- `Entities`: `Room` (a class, because its constraint list is appended to in place), `Constraint`, `Action`, and the `RoomMapping` object that holds the shared dictionary.
- `Constraints`: the three `is_valid` evaluators as functions, and what their repairs do to a capsule.
- `Ordering`: the stable sort by `order` and the first-failure scan of `_is_valid`.
- `Capsules`: the `Capsule` class.
- `Shuffling`: `common.shuffle_list` as a `RandomSource` object that the caller fills with draws. A draw selects a permutation; every draw gives one, and every permutation is some draw.
- `Allocation`: the writes `allocate_rooms_randomly` makes, and where each room ends up.
- `Listing`: the stable sort of `get_capsules`.
- `Manager`: the `CapsulesManager` class and its repair rounds.
- `Rooms`: `Room` construction and `build_rooms`.
- `Config`: `load_room_constraints`, the parsing of the harder-maximum room numbers, and the global constraint list.

Python exceptions are modelled as `Err` results. The modelled ones are:

- `ValueError` (no gender in a capsule, no gender for a room, or an unparsable room number);
- `KeyError` (an unknown room number);
- `UnboundLocalError`;
- `RuntimeError` (tries exhausted).

In these places the model follows the code as written:

- Block `k` of the shuffled rooms always goes to capsule `k` (`capsule.py:93`), because the slice is taken by capsule number. Only the leftover rooms follow the shuffled capsule order.
- A caller-supplied mapping is the same object in every try (`capsule.py:122`). Repairs from one try are still there in the next.
- The global constraints pile up in a capsule's list on every `apply_constraints` (`capsule.py:34`). `Ordering.AccumulatedGlobalsKeepVerdict` shows that this never changes a verdict.
- `get_capsules` does not sort the rooms inside a capsule (`capsule.py:173`).
- `RoomCountConstraint` is strict. Its repair slice `rooms[:max - len(rooms)]` reduces the *first* `max` rooms when there are more than `max` rooms, and reduces none when there are exactly `max` (`constraints.py:40-44`).
- Non-positive `max_tries_count` and `max_fixes_count` are handled as the code handles them. They are not excluded.

## Model

| member | source | states |
|---|---|---|
| Entities.Room.constructor | room.py:4-9 | a new room has the given index, roommates and gender, `count` equal to the number of roommates, and an empty constraint list |
| Entities.Apply | constraints.py:69-75 | `Reduce` writes `None` and `Add` writes its capsule number for its room; every other room keeps its value and no other key appears |
| Entities.Do | constraints.py:69-75 | `action.do(room_mapping)` replaces the mapping object's dictionary by `Apply` of the old one |
| Constraints.GenderCount | constraints.py:19-20 | the number of distinct genders among the rooms is at most two, and zero exactly when there are no rooms |
| Constraints.LeastCommonGender | constraints.py:19-25 | the chosen gender has no more rooms than the other; on a tie it is the gender the first room does not have (the last entry of `most_common()`, which lists ties in first-seen order) |
| Constraints.GenderIsValid | constraints.py:18-28 | `ValueError` exactly when there are no rooms. Valid exactly when every room has the first room's gender, and then no actions. Otherwise one `Reduce` per room of the least common gender, in room order; that gender has at least one room and no more than the other |
| Constraints.RoomCountIsValid | constraints.py:39-45 | valid exactly when there are fewer rooms than the maximum, and then no actions. With exactly the maximum: invalid with no actions. With more: a `Reduce` for each of the first `max` rooms |
| Constraints.ConnectingIsValid | constraints.py:56-61 | valid exactly when both rooms or neither are in the capsule, and then no actions; otherwise exactly one `Add` of this capsule for the room that is missing |
| Constraints.IsValid | constraints.py:18-61 | the only error is the gender check of an empty capsule; a valid result carries no actions |
| Constraints.ActionRooms | constraints.py:18-61 | every suggested action is for this capsule and names one of its rooms, or one of the connecting constraint's two rooms |
| Constraints.ReduceMembers | constraints.py:69-71 | reducing some members removes exactly those rooms from the capsule's member list, keeps the others in mapping order, and keeps the mapping's keys |
| Constraints.GenderRepairLeavesOneGender | constraints.py:24-26 | after a failed gender check's actions, the capsule's members are exactly its rooms of the other gender, and the gender check then passes |
| Constraints.OneGenderPasses | constraints.py:19-22 | a non-empty capsule whose rooms all have one gender passes the gender check |
| Constraints.RoomCountRepairKeepsTail | constraints.py:42-44 | when a capsule has more than `max >= 0` rooms, the repair leaves exactly `rooms[max:]`, that is `len(rooms) - max` rooms |
| Constraints.ConnectingRepairJoins | constraints.py:57-61 | after a failed connecting check's `Add`, both rooms are members, no member is lost, and the check then passes |
| Ordering.SortByOrderIsStableSort | capsule.py:43 | the ordering sorts the constraints by `order`, is a permutation of them, and keeps constraints of equal `order` in their original order |
| Ordering.StableSortIsUnique | capsule.py:43 | every sequence that is sorted by `order` and has the same constraints of each `order`, in the same order, is that ordering |
| Ordering.FirstFailureSpec | capsule.py:44-49 | the scan passes exactly when every constraint holds; otherwise it returns the result of the first constraint that does not hold, and every earlier one holds |
| Ordering.CapsuleVerdictSpec | capsule.py:37-49 | `_is_valid` gives `(True, [])` exactly when every constraint holds; otherwise it gives the result of a failing constraint, and every constraint of lower `order` holds |
| Ordering.AccumulatedGlobalsKeepVerdict | capsule.py:34 | global constraints repeated any number of extra times leave the verdict as with one copy |
| Capsules.Gathered | capsule.py:25-26 | every constraint of every room is in the capsule's list, and nothing else is |
| Capsules.Capsule.constructor | capsule.py:8-11 | the capsule has the given index and rooms, and their gathered constraints |
| Capsules.Capsule.Update | capsule.py:13-19 | the rooms become exactly the mapping's rooms for this capsule, in mapping order, and the constraints become theirs |
| Capsules.Capsule.ApplyConstraints | capsule.py:28-35 | the global constraints are appended to the capsule's list, and the result is the verdict on the longer list |
| Capsules.Capsule.IsValid | capsule.py:37-49 | the result is `(True, [])` exactly when every constraint of the capsule holds for its rooms |
| Shuffling.Permute | capsule.py:85-86 | every draw gives a permutation of the list |
| Shuffling.EveryOrderIsADraw | capsule.py:85-86 | every permutation of the list is the result of some draw, so contracts over draws cover every shuffle |
| Shuffling.RandomSource.Shuffle | capsule.py:85-86 | `shuffle_list` returns the permutation the next draw selects and uses that draw up |
| Allocation.CapsuleOrderFacts | capsule.py:86 | a shuffle of `range(capsules_count)` has `capsules_count` entries, each of `0 .. capsules_count - 1` exactly once |
| Allocation.AllocationWritesSpec | capsule.py:88-103 | the writes cover exactly the positions `0 .. n - 1`. Each position goes to `p // factor` inside the blocks, and otherwise to its entry of the second shuffle; every capsule number is in `0 .. capsules_count - 1` |
| Allocation.AllocationAssigns | capsule.py:92-103 | every room of the list gets a capsule in `0 .. capsules_count - 1`, every other room keeps its value, and no other key appears |
| Allocation.AllocationTargets | capsule.py:88-103 | the room at shuffled position `p` ends with the capsule `Target(p)` that its block or its leftover entry gives |
| Allocation.LeftoverOnce | capsule.py:98-101 | the leftover rooms go to pairwise distinct capsules, all in `0 .. capsules_count - 1` |
| Allocation.TargetShares | capsule.py:88-103 | every capsule gets `len(rooms) // capsules_count` rooms or one more, the extra one exactly when it is among the first `len(rooms) % capsules_count` entries of the second shuffle; no other number gets a room |
| Allocation.AllocationShares | capsule.py:88-103 | the mapping sends the room at each shuffled position to the capsule that `TargetShares` counts there |
| Listing.SortByKeySpec | capsule.py:174 | `sort(key=len(x) and x[0])` gives a sorted permutation that keeps lists of equal key in their original order |
| Manager.CapsulesManager.constructor | capsule.py:61-68 | the fields are set and every room is mapped to `None` in the rooms dictionary's order, with no capsule yet |
| Manager.CapsulesManager.Create | capsule.py:55-76 | every try is recorded with its rounds, and those rounds decide its result as in `BuildCapsules`. On a caller's mapping the first try starts from that mapping and each later try starts where the previous one ended; otherwise each try starts with every room allocated. Every build but the last reported `False`. A manager is returned exactly when some build reported `True`: then all capsules pass, no room is orphaned, the mapping is where the last try ended, and the caller's mapping object is kept. `RuntimeError` is raised exactly when all `max_tries_count` builds reported `False`, so at once when `max_tries_count <= 0`. Any other error is the last build's exception; with `max_fixes_count <= 0` it is the first build's `UnboundLocalError` |
| Manager.CapsulesManager.RecordedBuild | capsule.py:70-71 | one more call of `build_capsules` extends the record of the tries with its rounds and result. On a caller's mapping it starts where the tries so far ended, and the record then ends at the new mapping |
| Manager.CapsulesManager.AllocateRoomsRandomly | capsule.py:78-104 | three draws are used up. The mapping becomes the old one with the allocation's writes applied. Every listed room gets a capsule in range, and the other rooms keep their values |
| Manager.CapsulesManager.AllocateBlocks | capsule.py:92-96 | the first loop applies the block writes of every capsule, in the shuffled capsule order |
| Manager.CapsulesManager.AllocateBlock | capsule.py:93-96 | the slice of one capsule is written to that capsule |
| Manager.CapsulesManager.AllocateTail | capsule.py:98-104 | the second shuffle is drawn and the leftover rooms are written with it |
| Manager.CapsulesManager.AllocateLeftover | capsule.py:101-104 | the `zip` loop applies exactly the leftover writes |
| Manager.ZipLeftover | capsule.py:101-103 | the loop's dictionary is the one that writing the leftover rooms one by one gives |
| Manager.CapsulesManager.RandomizeRoomMapping | capsule.py:106-111 | every room of the dictionary gets a capsule in range, no other key is added, and no room is left with `None` |
| Manager.EveryRoomAllocated | capsule.py:106-111 | allocating a shuffle of all the rooms maps each of them into range and leaves no orphan |
| Manager.CapsulesManager.CreateCapsules | capsule.py:124-129 | capsules `0 .. capsules_count - 1` are created fresh, each with exactly its preimage in the mapping |
| Manager.CapsulesManager.BuildCapsules | capsule.py:113-138 | the caller's mapping object is used when given, else a randomized mapping with no orphan. The rounds are recorded, each one a round of `fix_capsules` from the mapping the previous one left. `True` exactly when some round needed no fixing, and then every capsule passes and no room is orphaned. `False` exactly when all `max_fixes_count` rounds needed fixing. Otherwise the last round's exception, a capsule's `ValueError`, or `UnboundLocalError` exactly when `max_fixes_count <= 0` and no round runs |
| Manager.CapsulesManager.FixRounds | capsule.py:131-138 | at most `max_fixes_count` rounds, each one a round of `fix_capsules` from the mapping the previous one left. Every round but the last needed fixing. The last decides: no fixing gives `True`, fixing gives `False` after the full count, and an exception is passed on. With no round the result is `UnboundLocalError` |
| Manager.CapsulesManager.RecordedRound | capsule.py:133-134 | one more round of `fix_capsules` extends the record: it starts from the mapping the record ends at, and the record now ends at the new mapping |
| Manager.RoundsOutcome | capsule.py:131-138 | from how the loop ends, the result of `build_capsules`: `True` exactly when some round reported `False`, `False` exactly when all `max_fixes_count` rounds reported `True`, otherwise the last round's exception |
| Manager.LastRound | capsule.py:131-138 | when the last round reported `False`, every capsule passes in the final mapping and no room is an orphan; when it raised, the exception is some capsule's `GenderCountError(0)` there |
| Manager.CapsulesManager.FixCapsules | capsule.py:140-161 | the capsules are checked in the order of the next shuffle of `self.capsules`, and every capsule before the one where the loop stopped passed. The capsule repaired is the one at the stop, so it is the first failing capsule in that order. An exception is that capsule's check's `ValueError`, with the mapping unchanged. Unless a check raised, no capsule is repaired only when all pass. Then every orphan gets a capsule and the others keep theirs. The result is `False` exactly when every capsule passed and no room was orphaned, and then nothing changed |
| Manager.CapsulesManager.CheckRound | capsule.py:145-153 | the scan over the capsules in the order of the next shuffle: every capsule before the stop passed. `False` exactly when all pass. Otherwise the capsule at the stop decides: its failing verdict's actions are applied and `True` is returned, or its exception is raised with the mapping unchanged |
| Manager.CapsulesManager.CheckCapsules | capsule.py:146-153 | the capsules are visited in a shuffled order. Those before the stop pass. At the stop, an invalid capsule's actions are committed, or its error is returned |
| Manager.CapsulesManager.ScanCapsules | capsule.py:146-150 | the loop stops at the first capsule, in the shuffled order, that does not pass |
| Manager.CapsulesManager.CheckCapsule | capsule.py:148 | `apply_constraints` on a capsule kept in step with the mapping gives the verdict that the capsule, freshly rebuilt, would get |
| Manager.VerdictIsFresh | capsule.py:34 | a capsule's verdict with its accumulated globals equals its fresh verdict |
| Manager.VerdictError | capsule.py:148 | the only error a capsule's check raises is the gender check of an empty capsule |
| Manager.CapsulesManager.CommitAll | capsule.py:151-152 | committing the actions in turn applies all of them to the mapping, with the capsules kept in step |
| Manager.CapsulesManager.CommitAction | capsule.py:163-166 | the mapping becomes `Apply` of the action, and every capsule is rebuilt from it |
| Manager.CapsulesManager.UpdateCapsules | capsule.py:168-170 | every capsule's rooms become its preimage in the mapping, and its constraints become theirs |
| Manager.CapsulesManager.PlaceOrphans | capsule.py:155-159 | it reports orphans exactly when some room was mapped to `None`. Afterwards none is, assigned rooms keep their capsule, and with no orphan nothing changes and no draw is used |
| Manager.CapsulesManager.AllocateOrphans | capsule.py:157-158 | allocating the orphan list leaves no orphan and changes no assigned room |
| Manager.OrphansAllocated | capsule.py:155-157 | allocating a shuffle of the orphans' room numbers places exactly the orphans, each in range |
| Manager.CapsulesManager.FreshActionsKnown | capsule.py:151-152 | every action a capsule suggests names a room of the rooms dictionary |
| Manager.CapsulesManager.GetCapsules | capsule.py:172-175 | the listing has one list per capsule, sorted by the key `len(x) and x[0]`, stable with respect to capsule order |
| Manager.CapsulesManager.ListingFromMapping | capsule.py:172-175 | for capsules kept in step with the mapping, the lists are exactly the room numbers of each capsule's preimage, in mapping order |
| Rooms.FirstGenderSpec | room.py:42-47 | the inner loop finds the gender of the first roommate the dictionary knows, or none when it knows none of them |
| Rooms.LookUpGender | room.py:42-47 | with no roommates the previous value of `room_gender` is kept; otherwise it becomes the first known roommate's gender, or `None` |
| Rooms.MakeRoom | room.py:49-55 | no gender found: `Male` when assuming, `ValueError` otherwise. An unbound `room_gender` raises `UnboundLocalError`. A built room has the index, the roommates and the gender chosen |
| Rooms.RoomGenderFits | room.py:42-51 | the gender one room gets: the previous room's when it has no roommates, `Male` when none is known, otherwise the first known roommate's |
| Rooms.RoomGendersOk | room.py:41-53 | the build succeeds exactly when the first room has roommates and, unless assuming `Male`, every room with roommates has a known one |
| Rooms.RoomGendersFit | room.py:41-53 | when the build succeeds, every room's gender is the one `RoomGenderFits` describes |
| Rooms.RoomGendersError | room.py:41-53 | the error is `UnboundLocalError` when the first room has no roommates; otherwise it is `ValueError` for the first room none of whose roommates is known |
| Rooms.FileRoom | room.py:41-55 | one pass of the loop files a new room `i`, with no constraints, under its key, or stops with that room's error |
| Rooms.BuildRooms | room.py:20-56 | fails exactly when the gender inference fails, with its error. On success, one room per key in key order, with that index, those roommates, the inferred gender and no constraints |
| Config.ParseIntRoundTrip | main.py:22 | `int(str(n)) == n` for every integer |
| Config.HarderDictSpec | main.py:22 | the dictionary exists exactly when every key parses. Its keys are the parsed keys, and each takes the value of the last entry that parses to it. Otherwise `ValueError` names the first key that does not parse |
| Config.Perform | main.py:24-32 | one pass appends the request's constraint to its room (to both rooms for a pair), or raises `KeyError` before appending anything |
| Config.ConnectAll | main.py:24-26 | the connecting loop, carried out request by request until an exception |
| Config.GenderAll | main.py:28-29 | the gender loop, likewise |
| Config.HarderAll | main.py:31-32 | the harder-maximum loop, likewise |
| Config.CarryAll | main.py:24-32 | the three loops in turn leave the lists that the requests' appends give, stopping at the first exception |
| Config.LoadRoomConstraints | main.py:16-32 | the failure and the rooms' new constraint lists are the old lists plus the appends `Load` gives |
| Config.LoadOk | main.py:16-32 | loading succeeds exactly when every harder-maximum key parses and every room number named is a room |
| Config.LoadFailure | main.py:22-32 | a failure is the `ValueError` of the first unparsable key, or a `KeyError` for a room number that is not a room |
| Config.ConnectingAdded | main.py:24-26 | each pair appends the same constraint `ConnectingConstraint(rooms[i], rooms[j])` to room `i` and then to room `j`, in pair order |
| Config.GenderAdded | main.py:28-29 | a room gets one `GenderConstraint` per occurrence of its number |
| Config.HarderAdded | main.py:31-32 | a room in the harder-maximum dictionary gets exactly one `RoomCountConstraint` with its maximum; other rooms get none |
| Config.LoadPerRoom | main.py:24-32 | per room, the appended constraints are its connecting ones, then its gender ones, then its harder maximum |
| Config.LoadUntouched | main.py:24-32 | a room not named anywhere keeps its list |
| Config.LoadKnown | main.py:24-32 | every appended constraint goes to a room of the dictionary and names only rooms of the dictionary |
| Config.GlobalConstraints | main.py:43-46 | the global constraints are exactly one `RoomCountConstraint` with the global maximum |

## Left out

- Logging, printing and string rendering (`logger` calls, `__str__`, `__repr__`, `print_rooms`) have no effect on the state and are not modelled.
- `main`'s JSON reading, solution loop and de-duplication printing (main.py:8-14, 34-72) are input and output. Only the global constraint list it builds is modelled.
- `common.shuffle_list` is not part of this model. It is a `RandomSource` whose draws the caller supplies; its probability distribution is not modelled.
- The search gives no guarantee of termination with success: it is bounded by `max_tries_count` and `max_fixes_count`. Only per-round and per-build contracts are proved.
- `Counter.most_common` orders equal counts by first appearance. The model takes that order as given: on a tie, the least common gender is the second one seen.
- Manager.CapsulesManager.constructor: requires `capsules_count > 0`. With 0 the code divides by zero in `allocate_rooms_randomly` (capsule.py:88), but only when it allocates. The precondition also excludes the inputs with 0 capsules where it does not: with `max_tries_count <= 0` the code raises `RuntimeError`, and with a caller mapping that has no `None` value it returns a manager with no capsules.
- Manager.CapsulesManager.constructor: requires the rooms dictionary to be keyed by each room's own index, as `build_rooms` makes it. It also requires every constraint to name rooms of that dictionary.
- Manager.CapsulesManager.BuildCapsules: requires a caller-supplied mapping's keys to be rooms of the dictionary.
- Rooms.BuildRooms: does not state that the rooms of the result are new objects. Each pass (`Rooms.FileRoom`) states that the room it files is new, and the rooms are pairwise distinct because each holds its own key as its index.
- Rooms.BuildRooms: genders are the `Gender` enumeration only. Raw integers such as a falsy `0` (room.py:32) are not modelled.
- Config.ParseIntRoundTrip: room-number parsing takes ASCII whitespace, an optional sign and ASCII digits. Underscores between digits and non-ASCII whitespace or digits, which `int()` also accepts, are not modelled.
- Config.LoadRoomConstraints: connecting entries are pairs. A JSON entry that is not a list of length two is not modelled.
- Constraints.GenderIsValid: the `ValueError` for more than two genders (constraints.py:28) is not reached in the model, because genders are the `Gender` enumeration only (see the Rooms.BuildRooms line). In the program as `main` runs it, genders read from JSON are raw integers (main.py:36, 40) while a room with no known roommate gets `Gender.Male` (room.py:51), so three distinct values can reach the `Counter` and raise it.
- Capsules.Capsule.ApplyConstraints: constraints are values, so two appended `ConnectingConstraint` objects with the same rooms are equal. Object identity of constraints is not modelled, and nothing in the code compares it.
