/**
 * `load_room_constraints` and the global constraint list: the constraints
 * of the configuration, appended in place to the constraint lists of the
 * rooms they name, then the one constraint every capsule gets.
 */
module Config {

  import opened Common
  import opened PyDict
  import opened Entities
  import opened Allocation
  import opened Manager

  // ---------------------------------------------------------------------
  // `int(room_number)` on the keys of the harder-maximum dictionary
  // ---------------------------------------------------------------------

  /** The ASCII whitespace `int()` skips around a number: space, tab, line feed, vertical tab, form feed, carriage return. */
  predicate IsSpace(c: char)
  {
    c == ' ' || '\t' <= c <= '\r'
  }

  predicate IsDigit(c: char)
  {
    '0' <= c <= '9'
  }

  predicate AllDigits(s: string)
  {
    forall i :: 0 <= i < |s| ==> IsDigit(s[i])
  }

  function StripStart(s: string): (r: string)
    ensures |r| <= |s|
  {
    if s != [] && IsSpace(s[0]) then StripStart(s[1..]) else s
  }

  function StripEnd(s: string): (r: string)
    ensures |r| <= |s|
  {
    if s != [] && IsSpace(s[|s| - 1]) then StripEnd(s[..|s| - 1]) else s
  }

  /** The text without its leading and trailing whitespace. */
  function Strip(s: string): string
  {
    StripEnd(StripStart(s))
  }

  /** The value of a decimal numeral, leading zeros allowed. */
  function DigitsValue(ds: string): nat
    requires AllDigits(ds)
  {
    if ds == [] then 0 else DigitsValue(ds[..|ds| - 1]) * 10 + (ds[|ds| - 1] as int - '0' as int)
  }

  /**
   * `int(text)`: surrounding whitespace, an optional sign, then one or more
   * decimal digits; anything else raises `ValueError`.
   */
  function ParseInt(text: string): Result<int>
  {
    var t := Strip(text);
    var negative := t != [] && t[0] == '-';
    var digits := if t != [] && (t[0] == '-' || t[0] == '+') then t[1..] else t;
    if digits != [] && AllDigits(digits) then
      var value: int := DigitsValue(digits);
      Ok(if negative then -value else value)
    else
      Err(BadRoomNumber(text))
  }

  /** The decimal numeral of `n`, without leading zeros. */
  function NatToString(n: nat): (s: string)
    ensures s != [] && AllDigits(s)
  {
    var last := ['0' + (n % 10) as char];
    if n < 10 then last else NatToString(n / 10) + last
  }

  /** `str(n)`. */
  function IntToString(n: int): string
  {
    if n < 0 then "-" + NatToString(-n) else NatToString(n)
  }

  lemma {:induction false} NatToStringValue(n: nat)
    ensures DigitsValue(NatToString(n)) == n
  {
    if n >= 10 {
      var s := NatToString(n);
      NatToStringValue(n / 10);
      assert s[..|s| - 1] == NatToString(n / 10);
    }
  }

  /** Text that neither starts nor ends with whitespace strips to itself. */
  lemma StripUnpadded(s: string)
    requires s != [] && !IsSpace(s[0]) && !IsSpace(s[|s| - 1])
    ensures Strip(s) == s
  {
  }

  /** `int(str(n)) == n`: every room number survives being written as a JSON key. */
  lemma ParseIntRoundTrip(n: int)
    ensures ParseInt(IntToString(n)) == Ok(n)
  {
    var m := if n < 0 then -n else n;
    var digits := NatToString(m);
    NatToStringValue(m);
    var s := IntToString(n);
    assert s[|s| - 1] == digits[|digits| - 1];
    StripUnpadded(s);
    if n < 0 {
      assert s[0] == '-' && s[1..] == digits;
    } else {
      assert s == digits && s[0] != '-' && s[0] != '+';
    }
    assert ParseInt(s) == Ok(if n < 0 then -m else m);
  }

  // ---------------------------------------------------------------------
  // The harder-maximum dictionary
  // ---------------------------------------------------------------------

  /**
   * The dictionary built from `(key, count)` pairs whose keys are already
   * parsed: a repeated key keeps its first place and its last count; or the
   * first key that did not parse.
   */
  function DictFrom(parsed: seq<(Result<int>, int)>): (r: Result<Dict<int, int>>)
    ensures r.Ok? ==> r.value.Valid()
  {
    if parsed == [] then Ok(Dict([], map[]))
    else
      match DictFrom(parsed[..|parsed| - 1])
      case Err(e) => Err(e)
      case Ok(d) =>
        match parsed[|parsed| - 1].0
        case Err(e) => Err(e)
        case Ok(k) => Ok(d.Set(k, parsed[|parsed| - 1].1))
  }

  /** Every item with its key parsed by `int`. */
  function Parsed(items: seq<(string, int)>): (r: seq<(Result<int>, int)>)
    ensures |r| == |items| && forall p :: 0 <= p < |items| ==> r[p] == (ParseInt(items[p].0), items[p].1)
  {
    seq(|items|, p requires 0 <= p < |items| => (ParseInt(items[p].0), items[p].1))
  }

  /**
   * `{int(room_number): max_room_count for room_number, max_room_count in
   * items}`: the keys parsed in order; or the first key `int` rejects.
   */
  function HarderDict(items: seq<(string, int)>): Result<Dict<int, int>>
  {
    DictFrom(Parsed(items))
  }

  /** Pair `p` is the last pair whose key is `k`. */
  ghost predicate LastFor(parsed: seq<(Result<int>, int)>, k: int, p: int)
  {
    && 0 <= p < |parsed| && parsed[p].0 == Ok(k)
    && forall q :: p < q < |parsed| ==> parsed[q].0 != Ok(k)
  }

  /** A pair stays the last for its key when a pair with another key follows. */
  lemma LastForSnoc(parsed: seq<(Result<int>, int)>, k: int, p: int)
    requires parsed != [] && LastFor(parsed[..|parsed| - 1], k, p) && parsed[|parsed| - 1].0 != Ok(k)
    ensures LastFor(parsed, k, p) && parsed[p] == parsed[..|parsed| - 1][p]
  {
    var init := parsed[..|parsed| - 1];
    forall q | p < q < |parsed| ensures parsed[q].0 != Ok(k) {
      if q < |init| {
        assert parsed[q] == init[q];
      }
    }
  }

  /** The dictionary is built exactly when every key parsed. */
  lemma {:induction false} DictFromOk(parsed: seq<(Result<int>, int)>)
    ensures DictFrom(parsed).Ok? <==> forall p :: 0 <= p < |parsed| ==> parsed[p].0.Ok?
    decreases |parsed|
  {
    if parsed != [] {
      var n := |parsed| - 1;
      DictFromOk(parsed[..n]);
      assert forall p :: 0 <= p < n ==> parsed[..n][p] == parsed[p];
    }
  }

  /** The last pair of a dictionary that was built: its key parsed, and it was set last. */
  lemma DictFromStep(parsed: seq<(Result<int>, int)>)
    requires parsed != [] && DictFrom(parsed).Ok?
    ensures DictFrom(parsed[..|parsed| - 1]).Ok? && parsed[|parsed| - 1].0.Ok?
    ensures DictFrom(parsed).value.at
      == DictFrom(parsed[..|parsed| - 1]).value.at[parsed[|parsed| - 1].0.value := parsed[|parsed| - 1].1]
  {
  }

  /** Some key of `parsed` parses to `k`. */
  ghost predicate ParsesTo(parsed: seq<(Result<int>, int)>, k: int)
  {
    exists p :: 0 <= p < |parsed| && parsed[p].0 == Ok(k)
  }

  lemma ParsesToSnoc(parsed: seq<(Result<int>, int)>, k: int)
    requires parsed != []
    ensures ParsesTo(parsed, k) <==> ParsesTo(parsed[..|parsed| - 1], k) || parsed[|parsed| - 1].0 == Ok(k)
  {
    var init := parsed[..|parsed| - 1];
    if ParsesTo(init, k) {
      var p :| 0 <= p < |init| && init[p].0 == Ok(k);
      assert parsed[p] == init[p];
    }
    if ParsesTo(parsed, k) && parsed[|parsed| - 1].0 != Ok(k) {
      var p :| 0 <= p < |parsed| && parsed[p].0 == Ok(k);
      assert init[p] == parsed[p];
    }
  }

  /** Its keys are the parsed keys. */
  lemma {:induction false} DictFromKeys(parsed: seq<(Result<int>, int)>)
    requires DictFrom(parsed).Ok?
    ensures forall k :: k in DictFrom(parsed).value.at <==> ParsesTo(parsed, k)
    decreases |parsed|
  {
    if parsed != [] {
      DictFromStep(parsed);
      DictFromKeys(parsed[..|parsed| - 1]);
      forall k ensures k in DictFrom(parsed).value.at <==> ParsesTo(parsed, k) {
        ParsesToSnoc(parsed, k);
      }
    }
  }

  /** Each key holds the count of the last pair with that key. */
  lemma {:induction false} DictFromLast(parsed: seq<(Result<int>, int)>)
    requires DictFrom(parsed).Ok?
    ensures forall k :: k in DictFrom(parsed).value.at ==>
      exists p :: LastFor(parsed, k, p) && DictFrom(parsed).value.at[k] == parsed[p].1
    decreases |parsed|
  {
    if parsed != [] {
      var n := |parsed| - 1;
      var init := parsed[..n];
      DictFromStep(parsed);
      DictFromLast(init);
      var before, after := DictFrom(init).value.at, DictFrom(parsed).value.at;
      var last := parsed[n].0.value;
      forall k | k in after
        ensures exists p :: LastFor(parsed, k, p) && after[k] == parsed[p].1
      {
        if k == last {
          assert LastFor(parsed, k, n);
        } else {
          assert k in before && after[k] == before[k];
          var p :| LastFor(init, k, p) && before[k] == init[p].1;
          LastForSnoc(parsed, k, p);
        }
      }
    }
  }

  /** When a key did not parse, the error is that of the first such key. */
  lemma {:induction false} DictFromError(parsed: seq<(Result<int>, int)>)
    requires DictFrom(parsed).Err?
    ensures exists p :: && 0 <= p < |parsed| && parsed[p].0 == Err(DictFrom(parsed).error)
                        && forall q :: 0 <= q < p ==> parsed[q].0.Ok?
    decreases |parsed|
  {
    var n := |parsed| - 1;
    var init := parsed[..n];
    assert forall p :: 0 <= p < n ==> init[p] == parsed[p];
    if DictFrom(init).Err? {
      DictFromError(init);
      var p :| && 0 <= p < |init| && init[p].0 == Err(DictFrom(init).error)
               && forall q :: 0 <= q < p ==> init[q].0.Ok?;
      assert parsed[p] == init[p];
    } else {
      DictFromOk(init);
    }
  }

  /**
   * The comprehension succeeds exactly when every key is a number; its keys
   * are then the parsed numbers, each holding the count of the last item
   * that names it; otherwise it raises `ValueError` on the first key that
   * is not a number.
   */
  lemma HarderDictSpec(items: seq<(string, int)>)
    ensures HarderDict(items).Ok? <==> forall p :: 0 <= p < |items| ==> Parsed(items)[p].0.Ok?
    ensures HarderDict(items).Ok? ==> forall k :: k in HarderDict(items).value.at <==> ParsesTo(Parsed(items), k)
    ensures HarderDict(items).Ok? ==> forall k :: k in HarderDict(items).value.at ==>
      exists p :: LastFor(Parsed(items), k, p) && HarderDict(items).value.at[k] == items[p].1
    ensures HarderDict(items).Err? ==> exists p :: && 0 <= p < |items| && HarderDict(items).error == BadRoomNumber(items[p].0)
                                                   && forall q :: 0 <= q < p ==> Parsed(items)[q].0.Ok?
  {
    var parsed := Parsed(items);
    DictFromOk(parsed);
    if DictFrom(parsed).Ok? {
      DictFromKeys(parsed);
      DictFromLast(parsed);
    } else {
      DictFromError(parsed);
    }
  }

  // ---------------------------------------------------------------------
  // The appends
  // ---------------------------------------------------------------------

  /** The parts of `constraints_json` the loader reads. */
  datatype ConstraintsJson = ConstraintsJson(
    connecting: seq<(int, int)>,           // `connecting_constraints`: pairs of room numbers
    gender: seq<int>,                      // `gender_constraints`: room numbers
    harder: seq<(string, int)>,            // `harder_max_room_count_constraints`, in key order
    globalMax: int)                        // `global_max_room_count_constraint`

  /** One pass of one of the three loops of `load_room_constraints`. */
  datatype Request =
    | Connect(i: int, j: int)
    | GenderOf(i: int)
    | HarderOf(i: int, maxRoomCount: int)

  /** The constraints appended so far, each with the number of its room, and the exception that stopped the loading, if any. */
  datatype Outcome = Outcome(appends: seq<(int, Constraint)>, failure: Option<Error>)

  /** `a`, and then `b` unless `a` raised. */
  function Then(a: Outcome, b: Outcome): Outcome
  {
    if a.failure.Some? then a else Outcome(a.appends + b.appends, b.failure)
  }

  /**
   * One request: a lookup of an unknown room number raises `KeyError`
   * before anything is appended (for a pair, `rooms[i]` is looked up before
   * `rooms[j]`); otherwise the constraint goes to its room, and a pair's
   * constraint to both of its rooms, `i`'s first.
   */
  function Step(rooms: Dict<int, Room>, req: Request): Outcome
  {
    match req
    case Connect(i, j) =>
      if i !in rooms.at then Outcome([], Some(UnknownRoom(i)))
      else if j !in rooms.at then Outcome([], Some(UnknownRoom(j)))
      else
        var c := ConnectingConstraint(rooms.at[i], rooms.at[j]);
        Outcome([(i, c), (j, c)], None)
    case GenderOf(i) =>
      if i !in rooms.at then Outcome([], Some(UnknownRoom(i))) else Outcome([(i, GenderConstraint)], None)
    case HarderOf(i, m) =>
      if i !in rooms.at then Outcome([], Some(UnknownRoom(i))) else Outcome([(i, RoomCountConstraint(m))], None)
  }

  /** The requests carried out in order, up to the first that raises. */
  function Appending(rooms: Dict<int, Room>, reqs: seq<Request>): Outcome
  {
    if reqs == [] then Outcome([], None)
    else Then(Appending(rooms, reqs[..|reqs| - 1]), Step(rooms, reqs[|reqs| - 1]))
  }

  function Connects(pairs: seq<(int, int)>): (r: seq<Request>)
    ensures |r| == |pairs| && forall p :: 0 <= p < |pairs| ==> r[p] == Connect(pairs[p].0, pairs[p].1)
  {
    seq(|pairs|, p requires 0 <= p < |pairs| => Connect(pairs[p].0, pairs[p].1))
  }

  function Genders(indices: seq<int>): (r: seq<Request>)
    ensures |r| == |indices| && forall p :: 0 <= p < |indices| ==> r[p] == GenderOf(indices[p])
  {
    seq(|indices|, p requires 0 <= p < |indices| => GenderOf(indices[p]))
  }

  function Harders(keys: seq<int>, at: map<int, int>): (r: seq<Request>)
    requires forall p :: 0 <= p < |keys| ==> keys[p] in at
    ensures |r| == |keys| && forall p :: 0 <= p < |keys| ==> r[p] == HarderOf(keys[p], at[keys[p]])
  {
    seq(|keys|, p requires 0 <= p < |keys| => HarderOf(keys[p], at[keys[p]]))
  }

  /**
   * What `load_room_constraints(rooms, constraints_json)` does: the
   * harder-maximum dictionary is built first, then the connecting pairs,
   * the gender constraints and the harder maxima are appended, in that
   * order.
   */
  function Load(rooms: Dict<int, Room>, json: ConstraintsJson): Outcome
  {
    match HarderDict(json.harder)
    case Err(e) => Outcome([], Some(e))
    case Ok(harder) => Appending(rooms, Connects(json.connecting) + Genders(json.gender) + Harders(harder.keys, harder.at))
  }

  /** The constraints appended to room `k`, in order. */
  function Added(appends: seq<(int, Constraint)>, k: int): seq<Constraint>
  {
    if appends == [] then []
    else Added(appends[..|appends| - 1], k) + (if appends[|appends| - 1].0 == k then [appends[|appends| - 1].1] else [])
  }

  // ---------------------------------------------------------------------
  // Lemmas about the appends
  // ---------------------------------------------------------------------

  lemma {:induction false} AddedConcat(a: seq<(int, Constraint)>, b: seq<(int, Constraint)>, k: int)
    ensures Added(a + b, k) == Added(a, k) + Added(b, k)
    decreases |b|
  {
    if b == [] {
      assert a + b == a;
    } else {
      assert (a + b)[..|a + b| - 1] == a + b[..|b| - 1];
      AddedConcat(a, b[..|b| - 1], k);
    }
  }

  lemma ThenAssociative(a: Outcome, b: Outcome, c: Outcome)
    ensures Then(Then(a, b), c) == Then(a, Then(b, c))
  {
    if a.failure.None? && b.failure.None? {
      assert a.appends + b.appends + c.appends == a.appends + (b.appends + c.appends);
    }
  }

  /** What a single append gives room `k`. */
  lemma AddedOne(i: int, c: Constraint, k: int)
    ensures Added([(i, c)], k) == if i == k then [c] else []
  {
    assert [(i, c)][..0] == [];
  }

  /** What a pair's two appends give room `k`. */
  lemma AddedPair(i: int, j: int, c: Constraint, k: int)
    ensures Added([(i, c), (j, c)], k) == (if i == k then [c] else []) + (if j == k then [c] else [])
  {
    var one := [(i, c)];
    assert [(i, c), (j, c)][..1] == one && one[..0] == [];
    assert Added(one, k) == Added([], k) + (if i == k then [c] else []);
  }

  /** Carrying out `a + b` is carrying out `a`, then `b` unless `a` raised. */
  lemma {:induction false} AppendingConcat(rooms: Dict<int, Room>, a: seq<Request>, b: seq<Request>)
    ensures Appending(rooms, a + b) == Then(Appending(rooms, a), Appending(rooms, b))
    decreases |b|
  {
    if b == [] {
      assert a + b == a;
      assert Appending(rooms, a).appends + [] == Appending(rooms, a).appends;
    } else {
      var n := |b| - 1;
      assert (a + b)[..|a + b| - 1] == a + b[..n];
      AppendingConcat(rooms, a, b[..n]);
      ThenAssociative(Appending(rooms, a), Appending(rooms, b[..n]), Step(rooms, b[n]));
    }
  }

  /** The first `n + 1` requests: the first `n`, then request `n`. */
  lemma AppendingNext(rooms: Dict<int, Room>, reqs: seq<Request>, n: int)
    requires 0 <= n < |reqs|
    ensures Appending(rooms, reqs[..n + 1]) == Then(Appending(rooms, reqs[..n]), Step(rooms, reqs[n]))
  {
    assert reqs[..n + 1][..n] == reqs[..n];
  }

  /** Once a request raises, nothing after it is carried out. */
  lemma {:induction false} FailureStops(rooms: Dict<int, Room>, reqs: seq<Request>, n: int)
    requires 0 <= n <= |reqs| && Appending(rooms, reqs[..n]).failure.Some?
    ensures Appending(rooms, reqs) == Appending(rooms, reqs[..n])
    decreases |reqs|
  {
    if n < |reqs| {
      var init := reqs[..|reqs| - 1];
      assert init[..n] == reqs[..n];
      FailureStops(rooms, init, n);
    } else {
      assert reqs[..n] == reqs;
    }
  }

  /** The requests all go through exactly when none of them names an unknown room. */
  lemma {:induction false} AppendingOk(rooms: Dict<int, Room>, reqs: seq<Request>)
    ensures Appending(rooms, reqs).failure.None? <==> forall n :: 0 <= n < |reqs| ==> Step(rooms, reqs[n]).failure.None?
    decreases |reqs|
  {
    if reqs != [] {
      var init := reqs[..|reqs| - 1];
      AppendingOk(rooms, init);
      assert forall n :: 0 <= n < |init| ==> init[n] == reqs[n];
    }
  }

  /** The exception raised is that of the first request that raises. */
  lemma {:induction false} AppendingFailure(rooms: Dict<int, Room>, reqs: seq<Request>)
    requires Appending(rooms, reqs).failure.Some?
    ensures exists n :: && 0 <= n < |reqs| && Step(rooms, reqs[n]).failure == Appending(rooms, reqs).failure
                        && forall m :: 0 <= m < n ==> Step(rooms, reqs[m]).failure.None?
    decreases |reqs|
  {
    var init := reqs[..|reqs| - 1];
    assert forall n :: 0 <= n < |init| ==> init[n] == reqs[n];
    if Appending(rooms, init).failure.Some? {
      AppendingFailure(rooms, init);
      var n :| && 0 <= n < |init| && Step(rooms, init[n]).failure == Appending(rooms, init).failure
               && forall m :: 0 <= m < n ==> Step(rooms, init[m]).failure.None?;
      assert reqs[n] == init[n];
    } else {
      AppendingOk(rooms, init);
    }
  }

  /** Whether a request names room `k`. */
  predicate Names(req: Request, k: int)
  {
    match req
    case Connect(i, j) => i == k || j == k
    case GenderOf(i) => i == k
    case HarderOf(i, _) => i == k
  }

  /** A room no request names gets nothing, whether or not the loading raises. */
  lemma {:induction false} AppendingUntouched(rooms: Dict<int, Room>, reqs: seq<Request>, k: int)
    requires forall n :: 0 <= n < |reqs| ==> !Names(reqs[n], k)
    ensures Added(Appending(rooms, reqs).appends, k) == []
    decreases |reqs|
  {
    if reqs != [] {
      var init := reqs[..|reqs| - 1];
      AppendingUntouched(rooms, init, k);
      var a := Appending(rooms, init);
      if a.failure.None? {
        var req := reqs[|reqs| - 1];
        AddedConcat(a.appends, Step(rooms, req).appends, k);
        if req.Connect? && req.i in rooms.at && req.j in rooms.at {
          AddedPair(req.i, req.j, ConnectingConstraint(rooms.at[req.i], rooms.at[req.j]), k);
        }
      }
    }
  }

  /**
   * Every constraint appended goes to a known room and, when the rooms are
   * filed under their own numbers, names only known rooms.
   */
  lemma {:induction false} AppendingKnown(rooms: Dict<int, Room>, reqs: seq<Request>)
    requires Indexed(rooms)
    ensures forall e :: e in Appending(rooms, reqs).appends ==> e.0 in rooms.at && ConstraintKnown(rooms, e.1)
    decreases |reqs|
  {
    if reqs != [] {
      AppendingKnown(rooms, reqs[..|reqs| - 1]);
    }
  }

  /** The constraints a pair list appends to room `k`: each pair's, once per end of it that is `k`. */
  function ConnectingFor(rooms: Dict<int, Room>, pairs: seq<(int, int)>, k: int): seq<Constraint>
    requires forall p :: 0 <= p < |pairs| ==> pairs[p].0 in rooms.at && pairs[p].1 in rooms.at
  {
    if pairs == [] then []
    else
      var (i, j) := pairs[|pairs| - 1];
      var c := ConnectingConstraint(rooms.at[i], rooms.at[j]);
      ConnectingFor(rooms, pairs[..|pairs| - 1], k) + (if i == k then [c] else []) + (if j == k then [c] else [])
  }

  lemma {:induction false} ConnectingAdded(rooms: Dict<int, Room>, pairs: seq<(int, int)>, k: int)
    requires forall p :: 0 <= p < |pairs| ==> pairs[p].0 in rooms.at && pairs[p].1 in rooms.at
    ensures Appending(rooms, Connects(pairs)).failure.None?
    ensures Added(Appending(rooms, Connects(pairs)).appends, k) == ConnectingFor(rooms, pairs, k)
    decreases |pairs|
  {
    if pairs != [] {
      var n := |pairs| - 1;
      var reqs, init := Connects(pairs), pairs[..n];
      var (i, j) := pairs[n];
      var c := ConnectingConstraint(rooms.at[i], rooms.at[j]);
      assert reqs[..n] == Connects(init);
      ConnectingAdded(rooms, init, k);
      var prev := Appending(rooms, reqs[..n]);
      assert Step(rooms, reqs[n]) == Outcome([(i, c), (j, c)], None);
      assert Appending(rooms, reqs) == Outcome(prev.appends + [(i, c), (j, c)], None);
      AddedConcat(prev.appends, [(i, c), (j, c)], k);
      AddedPair(i, j, c, k);
      SeqAssoc(Added(prev.appends, k), if i == k then [c] else [], if j == k then [c] else []);
    }
  }

  lemma {:induction false} GenderAdded(rooms: Dict<int, Room>, indices: seq<int>, k: int)
    requires forall p :: 0 <= p < |indices| ==> indices[p] in rooms.at
    ensures Appending(rooms, Genders(indices)).failure.None?
    ensures Added(Appending(rooms, Genders(indices)).appends, k) == Copies(GenderConstraint, Count(indices, k))
    decreases |indices|
  {
    if indices != [] {
      var n := |indices| - 1;
      assert Genders(indices)[..n] == Genders(indices[..n]);
      GenderAdded(rooms, indices[..n], k);
      AddedConcat(Appending(rooms, Genders(indices[..n])).appends, Step(rooms, GenderOf(indices[n])).appends, k);
      CopiesSnoc(GenderConstraint, Count(indices[..n], k));
    }
  }

  /** A harder maximum goes to its room only, once, as the dictionary's keys are distinct. */
  lemma {:induction false} HarderAdded(rooms: Dict<int, Room>, keys: seq<int>, at: map<int, int>, k: int)
    requires Distinct(keys) && forall p :: 0 <= p < |keys| ==> keys[p] in at && keys[p] in rooms.at
    ensures Appending(rooms, Harders(keys, at)).failure.None?
    ensures Added(Appending(rooms, Harders(keys, at)).appends, k) == if k in keys then [RoomCountConstraint(at[k])] else []
    decreases |keys|
  {
    var reqs := Harders(keys, at);
    if keys != [] {
      var n := |keys| - 1;
      var init, last := keys[..n], keys[n];
      DistinctInit(keys);
      HarderAdded(rooms, init, at, k);
      assert reqs[..n] == Harders(init, at);
      var prev := Appending(rooms, reqs[..n]);
      var c := RoomCountConstraint(at[last]);
      assert Step(rooms, reqs[n]) == Outcome([(last, c)], None);
      assert Appending(rooms, reqs) == Outcome(prev.appends + [(last, c)], None);
      AddedConcat(prev.appends, [(last, c)], k);
      AddedOne(last, c, k);
      InSnoc(keys, k);
      if last == k {
        forall p | 0 <= p < n ensures init[p] != k {
          DistinctAt(keys, p, n);
        }
      }
    }
  }

  /** A prefix of distinct keys is distinct. */
  lemma DistinctInit(ks: seq<int>)
    requires Distinct(ks) && |ks| > 0
    ensures Distinct(ks[..|ks| - 1])
  {
    var init := ks[..|ks| - 1];
    forall i, j | 0 <= i < j < |init| ensures At(init, i) != At(init, j) {
      DistinctAt(ks, i, j);
    }
  }

  // ---------------------------------------------------------------------
  // What the loading does, as a whole
  // ---------------------------------------------------------------------

  /** The three loops' requests, once the harder-maximum dictionary is built. */
  function Requests(json: ConstraintsJson, harder: Dict<int, int>): seq<Request>
    requires harder.Valid()
  {
    Connects(json.connecting) + Genders(json.gender) + Harders(harder.keys, harder.at)
  }

  /** `Requests` lines the three loops' requests up one after the other. */
  lemma RequestsLined(json: ConstraintsJson, harder: Dict<int, int>)
    requires harder.Valid()
    ensures Lined(Requests(json, harder), json, harder.keys, harder.at)
  {
    var c, g, h := Connects(json.connecting), Genders(json.gender), Harders(harder.keys, harder.at);
    ConcatAt(c, g, h);
  }

  /** `reqs` lists the connecting, the gender and the harder requests, in that order. */
  ghost predicate Lined(reqs: seq<Request>, json: ConstraintsJson, keys: seq<int>, at: map<int, int>)
  {
    && |reqs| == |json.connecting| + |json.gender| + |keys|
    && ConnectsFrom(reqs, 0, json.connecting)
    && GendersFrom(reqs, |json.connecting|, json.gender)
    && HardersFrom(reqs, |json.connecting| + |json.gender|, keys, at)
  }

  /** Requests `offset` onwards connect the rooms of `pairs`, in order. */
  ghost predicate ConnectsFrom(reqs: seq<Request>, offset: nat, pairs: seq<(int, int)>)
  {
    offset + |pairs| <= |reqs| && forall p :: 0 <= p < |pairs| ==> reqs[offset + p] == Connect(pairs[p].0, pairs[p].1)
  }

  /** Requests `offset` onwards give the rooms of `indices` a gender constraint, in order. */
  ghost predicate GendersFrom(reqs: seq<Request>, offset: nat, indices: seq<int>)
  {
    offset + |indices| <= |reqs| && forall p :: 0 <= p < |indices| ==> reqs[offset + p] == GenderOf(indices[p])
  }

  /** Requests `offset` onwards give the rooms of `keys` their maximum in `at`, in order. */
  ghost predicate HardersFrom(reqs: seq<Request>, offset: nat, keys: seq<int>, at: map<int, int>)
  {
    && offset + |keys| <= |reqs|
    && forall p :: 0 <= p < |keys| ==> keys[p] in at && reqs[offset + p] == HarderOf(keys[p], at[keys[p]])
  }

  /** Once the harder maximums parse, the loading carries out `Requests` in order. */
  lemma LoadRequests(rooms: Dict<int, Room>, json: ConstraintsJson, harder: Dict<int, int>)
    requires HarderDict(json.harder) == Ok(harder)
    ensures harder.Valid() && Load(rooms, json) == Appending(rooms, Requests(json, harder))
  {
  }

  /** A harder maximum that does not parse stops the loading before any append. */
  lemma LoadRejected(rooms: Dict<int, Room>, json: ConstraintsJson)
    requires HarderDict(json.harder).Err?
    ensures Load(rooms, json) == Outcome([], Some(HarderDict(json.harder).error))
  {
  }

  /** Every room number of the configuration parses and names a room. */
  ghost predicate Loadable(rooms: Dict<int, Room>, json: ConstraintsJson)
  {
    && HarderDict(json.harder).Ok?
    && (forall p :: 0 <= p < |json.connecting| ==> json.connecting[p].0 in rooms.at && json.connecting[p].1 in rooms.at)
    && (forall p :: 0 <= p < |json.gender| ==> json.gender[p] in rooms.at)
    && (forall k :: k in HarderDict(json.harder).value.at ==> k in rooms.at)
  }

  /** The loading is the three loops in turn. */
  lemma LoadParts(rooms: Dict<int, Room>, json: ConstraintsJson, harder: Dict<int, int>)
    requires HarderDict(json.harder) == Ok(harder)
    ensures Load(rooms, json) == Then(Then(Appending(rooms, Connects(json.connecting)), Appending(rooms, Genders(json.gender))),
                                      Appending(rooms, Harders(harder.keys, harder.at)))
  {
    AppendingConcat(rooms, Connects(json.connecting) + Genders(json.gender), Harders(harder.keys, harder.at));
    AppendingConcat(rooms, Connects(json.connecting), Genders(json.gender));
  }

  /** `load_room_constraints` returns normally exactly when every room number parses and names a room. */
  lemma LoadOk(rooms: Dict<int, Room>, json: ConstraintsJson)
    ensures Load(rooms, json).failure.None? <==> Loadable(rooms, json)
  {
    if HarderDict(json.harder).Ok? {
      var harder := HarderDict(json.harder).value;
      LoadParts(rooms, json, harder);
      ConnectsOk(rooms, json.connecting);
      GendersOk(rooms, json.gender);
      HardersOk(rooms, harder);
    }
  }

  /** The connecting loop returns normally exactly when both rooms of every pair exist. */
  lemma ConnectsOk(rooms: Dict<int, Room>, pairs: seq<(int, int)>)
    ensures Appending(rooms, Connects(pairs)).failure.None? <==>
      forall p :: 0 <= p < |pairs| ==> pairs[p].0 in rooms.at && pairs[p].1 in rooms.at
  {
    var c := Connects(pairs);
    AppendingOk(rooms, c);
    assert forall p :: 0 <= p < |pairs| ==> (Step(rooms, c[p]).failure.None? <==> pairs[p].0 in rooms.at && pairs[p].1 in rooms.at);
  }

  /** The gender loop returns normally exactly when every room it names exists. */
  lemma GendersOk(rooms: Dict<int, Room>, indices: seq<int>)
    ensures Appending(rooms, Genders(indices)).failure.None? <==> forall p :: 0 <= p < |indices| ==> indices[p] in rooms.at
  {
    var g := Genders(indices);
    AppendingOk(rooms, g);
    assert forall p :: 0 <= p < |indices| ==> (Step(rooms, g[p]).failure.None? <==> indices[p] in rooms.at);
  }

  /** The harder loop returns normally exactly when every key of the dictionary is a room. */
  lemma HardersOk(rooms: Dict<int, Room>, harder: Dict<int, int>)
    requires harder.Valid()
    ensures Appending(rooms, Harders(harder.keys, harder.at)).failure.None? <==> forall k :: k in harder.at ==> k in rooms.at
  {
    var h := Harders(harder.keys, harder.at);
    AppendingOk(rooms, h);
    if forall k :: k in harder.at ==> k in rooms.at {
      assert forall n :: 0 <= n < |h| ==> h[n].i in harder.at;
    } else {
      var k :| k in harder.at && k !in rooms.at;
      var n :| 0 <= n < |harder.keys| && harder.keys[n] == k;
      assert Step(rooms, h[n]).failure.Some?;
    }
  }

  /**
   * The exception `load_room_constraints` raises: the `ValueError` of the
   * first harder-maximum key that is not a number, and otherwise the
   * `KeyError` of a room number no room has.
   */
  lemma LoadFailure(rooms: Dict<int, Room>, json: ConstraintsJson)
    requires Load(rooms, json).failure.Some?
    ensures HarderDict(json.harder).Err? ==>
      exists p :: && 0 <= p < |json.harder| && Load(rooms, json).failure == Some(BadRoomNumber(json.harder[p].0))
                  && forall q :: 0 <= q < p ==> Parsed(json.harder)[q].0.Ok?
    ensures HarderDict(json.harder).Ok? ==>
      exists i :: i !in rooms.at && Load(rooms, json).failure == Some(UnknownRoom(i))
  {
    if HarderDict(json.harder).Ok? {
      var harder := HarderDict(json.harder).value;
      LoadRequests(rooms, json, harder);
      AppendingUnknown(rooms, Requests(json, harder));
    } else {
      HarderDictSpec(json.harder);
      LoadRejected(rooms, json);
    }
  }

  /** A request can only raise the `KeyError` of a room number no room has. */
  lemma AppendingUnknown(rooms: Dict<int, Room>, reqs: seq<Request>)
    requires Appending(rooms, reqs).failure.Some?
    ensures exists i :: i !in rooms.at && Appending(rooms, reqs).failure == Some(UnknownRoom(i))
  {
    AppendingFailure(rooms, reqs);
    var n :| 0 <= n < |reqs| && Step(rooms, reqs[n]).failure == Appending(rooms, reqs).failure;
    match reqs[n]
    case Connect(i, j) =>
      if i !in rooms.at {
        assert Step(rooms, reqs[n]).failure == Some(UnknownRoom(i));
      } else {
        assert Step(rooms, reqs[n]).failure == Some(UnknownRoom(j));
      }
    case GenderOf(i) =>
      assert Step(rooms, reqs[n]).failure == Some(UnknownRoom(i));
    case HarderOf(i, _) =>
      assert Step(rooms, reqs[n]).failure == Some(UnknownRoom(i));
  }

  /**
   * What a room gets: its connecting constraints in pair order, then one
   * gender constraint per mention, then its harder maximum if it has one.
   */
  lemma LoadPerRoom(rooms: Dict<int, Room>, json: ConstraintsJson, k: int)
    requires Loadable(rooms, json)
    ensures Load(rooms, json).failure.None?
    ensures var harder := HarderDict(json.harder).value;
      Added(Load(rooms, json).appends, k)
        == ConnectingFor(rooms, json.connecting, k) + Copies(GenderConstraint, Count(json.gender, k))
           + (if k in harder.at then [RoomCountConstraint(harder.at[k])] else [])
  {
    var harder := HarderDict(json.harder).value;
    LoadParts(rooms, json, harder);
    ConnectingAdded(rooms, json.connecting, k);
    GenderAdded(rooms, json.gender, k);
    HarderAdded(rooms, harder.keys, harder.at, k);
    var c, g, h := Appending(rooms, Connects(json.connecting)), Appending(rooms, Genders(json.gender)), Appending(rooms, Harders(harder.keys, harder.at));
    AddedConcat(c.appends, g.appends, k);
    AddedConcat(c.appends + g.appends, h.appends, k);
  }

  /** A room the configuration does not name keeps its list, whether or not the loading raises. */
  lemma LoadUntouched(rooms: Dict<int, Room>, json: ConstraintsJson, k: int)
    requires forall p :: 0 <= p < |json.connecting| ==> json.connecting[p].0 != k && json.connecting[p].1 != k
    requires forall p :: 0 <= p < |json.gender| ==> json.gender[p] != k
    requires HarderDict(json.harder).Ok? ==> k !in HarderDict(json.harder).value.at
    ensures Added(Load(rooms, json).appends, k) == []
  {
    if HarderDict(json.harder).Ok? {
      var harder := HarderDict(json.harder).value;
      var reqs := Requests(json, harder);
      forall n | 0 <= n < |reqs| ensures !Names(reqs[n], k) {
        if n >= |json.connecting| + |json.gender| {
          assert reqs[n].i in harder.at;
        }
      }
      AppendingUntouched(rooms, reqs, k);
    }
  }

  /**
   * Every constraint the loading appends goes to a room of the dictionary
   * and, with the rooms filed under their own numbers, names only rooms of
   * the dictionary: what `CapsulesManager` needs of its rooms.
   */
  lemma LoadKnown(rooms: Dict<int, Room>, json: ConstraintsJson)
    requires Indexed(rooms)
    ensures forall e :: e in Load(rooms, json).appends ==> e.0 in rooms.at && ConstraintKnown(rooms, e.1)
  {
    if HarderDict(json.harder).Ok? {
      AppendingKnown(rooms, Requests(json, HarderDict(json.harder).value));
    }
  }

  /** Each constraint appended to room `k` is one of the appends for `k`. */
  lemma {:induction false} AddedFrom(appends: seq<(int, Constraint)>, k: int)
    ensures forall c :: c in Added(appends, k) ==> (k, c) in appends
    decreases |appends|
  {
    if appends != [] {
      AddedFrom(appends[..|appends| - 1], k);
      assert forall e :: e in appends[..|appends| - 1] ==> e in appends;
    }
  }

  // ---------------------------------------------------------------------
  // The loading, in place
  // ---------------------------------------------------------------------

  /** Every room's constraint list, by room number. */
  function Lists(rooms: Dict<int, Room>): map<int, seq<Constraint>>
    reads rooms.at.Values
  {
    map k | k in rooms.at :: rooms.at[k].constraints
  }

  /** The lists with the appends made to them. */
  function AppendTo(lists: map<int, seq<Constraint>>, appends: seq<(int, Constraint)>): (r: map<int, seq<Constraint>>)
    ensures r.Keys == lists.Keys
    ensures forall k :: k in lists ==> r[k] == lists[k] + Added(appends, k)
  {
    map k | k in lists :: lists[k] + Added(appends, k)
  }

  lemma AppendToNothing(lists: map<int, seq<Constraint>>)
    ensures AppendTo(lists, []) == lists
  {
    forall k | k in lists ensures AppendTo(lists, [])[k] == lists[k] {
      assert lists[k] + [] == lists[k];
    }
  }

  lemma AppendToConcat(lists: map<int, seq<Constraint>>, a: seq<(int, Constraint)>, b: seq<(int, Constraint)>)
    ensures AppendTo(AppendTo(lists, a), b) == AppendTo(lists, a + b)
  {
    forall k | k in lists ensures AppendTo(AppendTo(lists, a), b)[k] == AppendTo(lists, a + b)[k] {
      AddedConcat(a, b, k);
    }
  }

  /** One request carried out on the rooms: the appends `Step` gives, or its exception. */
  method Perform(rooms: Dict<int, Room>, req: Request) returns (failure: Option<Error>)
    requires rooms.Valid() && Indexed(rooms)
    modifies rooms.at.Values
    ensures failure == Step(rooms, req).failure
    ensures Lists(rooms) == AppendTo(old(Lists(rooms)), Step(rooms, req).appends)
  {
    AppendToNothing(Lists(rooms));
    match req
    case Connect(i, j) =>
      if i !in rooms.at {
        return Some(UnknownRoom(i));
      }
      if j !in rooms.at {
        return Some(UnknownRoom(j));
      }
      var c := ConnectingConstraint(rooms.at[i], rooms.at[j]);
      rooms.at[i].constraints := rooms.at[i].constraints + [c];
      rooms.at[j].constraints := rooms.at[j].constraints + [c];
      forall k | k in rooms.at ensures Lists(rooms)[k] == old(Lists(rooms))[k] + Added([(i, c), (j, c)], k) {
        AddedPair(i, j, c, k);
      }
      failure := None;
    case GenderOf(i) =>
      if i !in rooms.at {
        return Some(UnknownRoom(i));
      }
      rooms.at[i].constraints := rooms.at[i].constraints + [GenderConstraint];
      forall k | k in rooms.at ensures Lists(rooms)[k] == old(Lists(rooms))[k] + Added([(i, GenderConstraint)], k) {
        AddedOne(i, GenderConstraint, k);
      }
      failure := None;
    case HarderOf(i, m) =>
      if i !in rooms.at {
        return Some(UnknownRoom(i));
      }
      rooms.at[i].constraints := rooms.at[i].constraints + [RoomCountConstraint(m)];
      forall k | k in rooms.at ensures Lists(rooms)[k] == old(Lists(rooms))[k] + Added([(i, RoomCountConstraint(m))], k) {
        AddedOne(i, RoomCountConstraint(m), k);
      }
      failure := None;
  }

  /** The first `n` requests have been carried out on the lists `base`, none raising. */
  ghost predicate Progress(lists: map<int, seq<Constraint>>, rooms: Dict<int, Room>, reqs: seq<Request>, n: int, base: map<int, seq<Constraint>>)
  {
    && 0 <= n <= |reqs| && Appending(rooms, reqs[..n]).failure.None?
    && lists == AppendTo(base, Appending(rooms, reqs[..n]).appends)
  }

  /** The loading stopped with `failure` after carrying out `reqs` on the lists `base`. */
  ghost predicate Stopped(failure: Option<Error>, lists: map<int, seq<Constraint>>, rooms: Dict<int, Room>, reqs: seq<Request>, base: map<int, seq<Constraint>>)
  {
    failure == Appending(rooms, reqs).failure && lists == AppendTo(base, Appending(rooms, reqs).appends)
  }

  /** Every request carried out without an exception: the loading is over. */
  lemma ProgressDone(lists: map<int, seq<Constraint>>, rooms: Dict<int, Room>, reqs: seq<Request>, n: int, base: map<int, seq<Constraint>>)
    requires n == |reqs| && Progress(lists, rooms, reqs, n, base)
    ensures Stopped(None, lists, rooms, reqs, base)
  {
    assert reqs[..|reqs|] == reqs;
  }

  /** Request `n` carried out after the first `n`; an exception ends the loading there. */
  method Carry(rooms: Dict<int, Room>, ghost reqs: seq<Request>, n: int, req: Request, ghost base: map<int, seq<Constraint>>)
    returns (failure: Option<Error>)
    requires rooms.Valid() && Indexed(rooms) && 0 <= n < |reqs| && reqs[n] == req
    requires Progress(Lists(rooms), rooms, reqs, n, base)
    modifies rooms.at.Values
    ensures failure.None? ==> Progress(Lists(rooms), rooms, reqs, n + 1, base)
    ensures failure.Some? ==> Stopped(failure, Lists(rooms), rooms, reqs, base)
  {
    ghost var before := Appending(rooms, reqs[..n]);
    failure := Perform(rooms, req);
    AppendingNext(rooms, reqs, n);
    AppendToConcat(base, before.appends, Step(rooms, req).appends);
    if failure.Some? {
      FailureStops(rooms, reqs, n + 1);
    }
  }

  /** The loop over `constraints_json["connecting"]`, requests `offset` onwards. */
  method ConnectAll(rooms: Dict<int, Room>, pairs: seq<(int, int)>, ghost reqs: seq<Request>, offset: nat, ghost base: map<int, seq<Constraint>>)
    returns (failure: Option<Error>)
    requires rooms.Valid() && Indexed(rooms) && ConnectsFrom(reqs, offset, pairs)
    requires Progress(Lists(rooms), rooms, reqs, offset, base)
    modifies rooms.at.Values
    ensures failure.None? ==> Progress(Lists(rooms), rooms, reqs, offset + |pairs|, base)
    ensures failure.Some? ==> Stopped(failure, Lists(rooms), rooms, reqs, base)
  {
    var p := 0;
    while p < |pairs|
      invariant 0 <= p <= |pairs| && Progress(Lists(rooms), rooms, reqs, offset + p, base)
    {
      var (i, j) := pairs[p];
      failure := Carry(rooms, reqs, offset + p, Connect(i, j), base);
      if failure.Some? {
        return;
      }
      p := p + 1;
    }
    failure := None;
  }

  /** The loop over `constraints_json["gender"]`, requests `offset` onwards. */
  method GenderAll(rooms: Dict<int, Room>, indices: seq<int>, ghost reqs: seq<Request>, offset: nat, ghost base: map<int, seq<Constraint>>)
    returns (failure: Option<Error>)
    requires rooms.Valid() && Indexed(rooms) && GendersFrom(reqs, offset, indices)
    requires Progress(Lists(rooms), rooms, reqs, offset, base)
    modifies rooms.at.Values
    ensures failure.None? ==> Progress(Lists(rooms), rooms, reqs, offset + |indices|, base)
    ensures failure.Some? ==> Stopped(failure, Lists(rooms), rooms, reqs, base)
  {
    var p := 0;
    while p < |indices|
      invariant 0 <= p <= |indices| && Progress(Lists(rooms), rooms, reqs, offset + p, base)
    {
      failure := Carry(rooms, reqs, offset + p, GenderOf(indices[p]), base);
      if failure.Some? {
        return;
      }
      p := p + 1;
    }
    failure := None;
  }

  /** The loop over the harder-maximum dictionary's items (`keys`, `at`), requests `offset` onwards. */
  method HarderAll(rooms: Dict<int, Room>, keys: seq<int>, at: map<int, int>, ghost reqs: seq<Request>, offset: nat, ghost base: map<int, seq<Constraint>>)
    returns (failure: Option<Error>)
    requires rooms.Valid() && Indexed(rooms) && HardersFrom(reqs, offset, keys, at)
    requires Progress(Lists(rooms), rooms, reqs, offset, base)
    modifies rooms.at.Values
    ensures failure.None? ==> Progress(Lists(rooms), rooms, reqs, offset + |keys|, base)
    ensures failure.Some? ==> Stopped(failure, Lists(rooms), rooms, reqs, base)
  {
    var p := 0;
    while p < |keys|
      invariant 0 <= p <= |keys| && Progress(Lists(rooms), rooms, reqs, offset + p, base)
    {
      var i := keys[p];
      failure := Carry(rooms, reqs, offset + p, HarderOf(i, at[i]), base);
      if failure.Some? {
        return;
      }
      p := p + 1;
    }
    failure := None;
  }

  /**
   * `load_room_constraints(rooms, constraints_json)`: the harder-maximum
   * dictionary is built, then the three loops append to the rooms' lists
   * in place; an exception leaves the appends made before it.
   */
  method LoadRoomConstraints(rooms: Dict<int, Room>, json: ConstraintsJson) returns (failure: Option<Error>)
    requires rooms.Valid() && Indexed(rooms)
    modifies rooms.at.Values
    ensures failure == Load(rooms, json).failure
    ensures Lists(rooms) == AppendTo(old(Lists(rooms)), Load(rooms, json).appends)
  {
    var harder := HarderDict(json.harder);
    if harder.Err? {
      AppendToNothing(Lists(rooms));
      LoadRejected(rooms, json);
      return Some(harder.error);
    }
    LoadRequests(rooms, json, harder.value);
    ghost var reqs := Requests(json, harder.value);
    RequestsLined(json, harder.value);
    ghost var base := Lists(rooms);
    AppendToNothing(base);
    assert reqs[..0] == [];
    failure := CarryAll(rooms, json, harder.value.keys, harder.value.at, reqs, base);
  }

  /** The three loops of `load_room_constraints`, once the harder-maximum dictionary is built. */
  method CarryAll(rooms: Dict<int, Room>, json: ConstraintsJson, keys: seq<int>, at: map<int, int>,
                  ghost reqs: seq<Request>, ghost base: map<int, seq<Constraint>>)
    returns (failure: Option<Error>)
    requires rooms.Valid() && Indexed(rooms) && Lined(reqs, json, keys, at)
    requires Progress(Lists(rooms), rooms, reqs, 0, base)
    modifies rooms.at.Values
    ensures Stopped(failure, Lists(rooms), rooms, reqs, base)
  {
    failure := ConnectAll(rooms, json.connecting, reqs, 0, base);
    if failure.Some? {
      return;
    }
    failure := GenderAll(rooms, json.gender, reqs, |json.connecting|, base);
    if failure.Some? {
      return;
    }
    failure := HarderAll(rooms, keys, at, reqs, |json.connecting| + |json.gender|, base);
    if failure.Some? {
      return;
    }
    ProgressDone(Lists(rooms), rooms, reqs, |reqs|, base);
  }

  /** `[RoomCountConstraint(global_max_room_count)]`: the constraints every capsule gets. */
  function GlobalConstraints(json: ConstraintsJson): (r: seq<Constraint>)
    ensures |r| == 1 && r[0].RoomCountConstraint? && r[0].maxRoomCount == json.globalMax
  {
    [RoomCountConstraint(json.globalMax)]
  }
}
