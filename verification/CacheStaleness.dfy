/** How long a deleted key may still be answered from the cache when calls overlap. */
module CacheStaleness {
  import opened Text
  import opened RedisKeys
  import opened Redis
  import opened KeyTable
  import opened CacheProtocol

  /** The row leaves the table in step `k`. */
  ghost predicate DeletedAt(run: seq<State>, k: nat, id: int) {
    && k + 1 < |run|
    && id in run[k].table.rows
    && id !in run[k + 1].table.rows
  }

  /** Every call in flight in `s0` has returned once the clock has passed `f`. */
  ghost predicate Drained(s0: State, s: State, f: int) {
    s.now > f ==> forall c | InFlight(s0, c) :: !InFlight(s, c)
  }

  ghost predicate Late(pc: Pc, limit: int) {
    (pc.FillForward? || pc.FillReverse? || pc.Returned?) && pc.seen >= limit
  }

  ghost predicate Answers(pc: Pc, id: int) {
    match pc
    case FillForward(_, outcome, _) => outcome.Match? && outcome.found.id == id
    case FillReverse(_, outcome, _) => outcome.Match? && outcome.found.id == id
    case Returned(result, _) => result.Match? && result.found.id == id
    case _ => false
  }

  ghost predicate Holds(pc: Pc, id: int) {
    pc.FillForward? && pc.row.id == id
  }

  ghost predicate Forward(s: State, k: Key, id: int) {
    k in s.redis && k.ByHash? && s.redis[k].value.Json? && s.redis[k].value.row.id == id
  }

  /** Since the deletion in `s0`: only calls already in flight then can still write the row back,
      their entries expire by `f + ttl`, and no later reader has met the id. */
  ghost predicate Fading(s0: State, s: State, ttl: int, id: int, f: int) {
    && id !in s.table.rows && id < s.table.nextId
    && (forall c | c in s.calls && Holds(s.calls[c], id) :: InFlight(s0, c))
    && (forall k | k in s.redis && Forward(s, k, id) :: s.redis[k].expiry <= f + ttl)
    && (forall c | c in s.calls && Late(s.calls[c], f + ttl) :: !Answers(s.calls[c], id))
  }

  lemma FadingStarts(s0: State, ttl: int, id: int, f: int)
    requires Inv(s0, ttl) && ttl > 0 && id in s0.history && id !in s0.table.rows && f >= s0.now
    ensures Fading(s0, s0, ttl, id, f)
  {
    forall k | k in s0.redis && Forward(s0, k, id) ensures s0.redis[k].expiry <= f + ttl {
      assert EntryKnown(s0, ttl, k);
    }
    forall c | c in s0.calls ensures !Late(s0.calls[c], f + ttl) {
      assert CallKnown(s0, c);
    }
  }

  /** What one step has to show: the call it moved and the entry it wrote. */
  lemma MoveKeepsFading(s0: State, s: State, t: State, ttl: int, id: int, f: int, c: nat)
    requires Fading(s0, s, ttl, id, f)
    requires id !in t.table.rows && id < t.table.nextId
    requires forall x | x in t.calls && x != c :: x in s.calls && t.calls[x] == s.calls[x]
    requires c in t.calls && Holds(t.calls[c], id) ==> InFlight(s0, c)
    requires c in t.calls && Late(t.calls[c], f + ttl) ==> !Answers(t.calls[c], id)
    requires forall k | k in t.redis && Forward(t, k, id) ::
        (k in s.redis && t.redis[k] == s.redis[k]) || t.redis[k].expiry <= f + ttl
    ensures Fading(s0, t, ttl, id, f)
  {
    forall k | k in t.redis && Forward(t, k, id) ensures t.redis[k].expiry <= f + ttl {
      assert k in s.redis && t.redis[k] == s.redis[k] ==> Forward(s, k, id);
    }
  }

  lemma ForwardReadKeepsFading(s0: State, s: State, t: State, ttl: int, id: int, f: int,
      c: nat, h: Hash, fate: Fate)
    requires Fading(s0, s, ttl, id, f)
    requires t == ForwardRead(s, c, h, fate)
    ensures Fading(s0, t, ttl, id, f)
  {
    assert Forward(s, HashKey(h), id) ==> s.redis[HashKey(h)].expiry <= f + ttl;
    MoveKeepsFading(s0, s, t, ttl, id, f, c);
  }

  lemma SelectedKeepsFading(s0: State, s: State, t: State, ttl: int, id: int, f: int,
      c: nat, h: Hash, seen: int, fate: Fate)
    requires WellFormed(s.table) && Fading(s0, s, ttl, id, f)
    requires t == Selected(s, c, h, seen, fate)
    ensures Fading(s0, t, ttl, id, f)
  {
    var r := AnyRow(s.table, h);
    assert r.Some? ==> r.value.id in s.table.rows;
    MoveKeepsFading(s0, s, t, ttl, id, f, c);
  }

  lemma ForwardFilledKeepsFading(s0: State, s: State, t: State, ttl: int, id: int, f: int, c: nat,
      row: Row, outcome: Result, seen: int, fate: Fate)
    requires Fading(s0, s, ttl, id, f) && Drained(s0, s, f)
    requires c in s.calls && s.calls[c] == FillForward(row, outcome, seen)
    requires t == ForwardFilled(s, ttl, c, row, outcome, seen, fate)
    ensures Fading(s0, t, ttl, id, f)
  {
    assert row.id == id ==> Holds(s.calls[c], id) && InFlight(s, c);
    assert Late(s.calls[c], f + ttl) ==> !Answers(s.calls[c], id);
    MoveKeepsFading(s0, s, t, ttl, id, f, c);
  }

  lemma ReverseFilledKeepsFading(s0: State, s: State, t: State, ttl: int, id: int, f: int, c: nat,
      row: Row, outcome: Result, seen: int, fate: Fate)
    requires Fading(s0, s, ttl, id, f)
    requires c in s.calls && s.calls[c] == FillReverse(row, outcome, seen)
    requires t == ReverseFilled(s, ttl, c, row, outcome, seen, fate)
    ensures Fading(s0, t, ttl, id, f)
  {
    assert Late(s.calls[c], f + ttl) ==> !Answers(s.calls[c], id);
    MoveKeepsFading(s0, s, t, ttl, id, f, c);
  }

  lemma InsertedKeepsFading(s0: State, s: State, t: State, ttl: int, id: int, f: int,
      c: nat, p: Params, fate: Fate)
    requires Fading(s0, s, ttl, id, f)
    requires t == Inserted(s, c, p, fate)
    ensures Fading(s0, t, ttl, id, f)
  {
    if fate == Lost || LabelTaken(s.table, p) {
      MoveKeepsFading(s0, s, t, ttl, id, f, c);
    } else {
      StoredKeepsFading(s0, s, t, ttl, id, f, c, p, fate);
    }
  }

  lemma StoredKeepsFading(s0: State, s: State, t: State, ttl: int, id: int, f: int,
      c: nat, p: Params, fate: Fate)
    requires Fading(s0, s, ttl, id, f)
    requires t == Stored(s, c, p, fate)
    ensures Fading(s0, t, ttl, id, f)
  {
    MoveKeepsFading(s0, s, t, ttl, id, f, c);
  }

  lemma DeletedKeepsFading(s0: State, s: State, t: State, ttl: int, id: int, f: int,
      c: nat, user: int, key: int, fate: Fate)
    requires Fading(s0, s, ttl, id, f)
    requires t == Deleted(s, c, user, key, fate)
    ensures Fading(s0, t, ttl, id, f)
  {
    MoveKeepsFading(s0, s, t, ttl, id, f, c);
  }

  lemma ReverseReadKeepsFading(s0: State, s: State, t: State, ttl: int, id: int, f: int,
      c: nat, key: int, fate: Fate)
    requires Fading(s0, s, ttl, id, f)
    requires t == ReverseRead(s, c, key, fate)
    ensures Fading(s0, t, ttl, id, f)
  {
    MoveKeepsFading(s0, s, t, ttl, id, f, c);
  }

  lemma DropKeepsFading(s0: State, s: State, t: State, ttl: int, id: int, f: int,
      c: nat, k: Key, pc: Pc, fate: Fate)
    requires Fading(s0, s, ttl, id, f)
    requires pc.DropForward? || pc == Returned(Removed, s.now)
    requires t == Goto(Attempt(s, fate, Del(k)), c, pc)
    ensures Fading(s0, t, ttl, id, f)
  {
    MoveKeepsFading(s0, s, t, ttl, id, f, c);
  }

  lemma AdvancedKeepsFading(s0: State, s: State, t: State, ttl: int, id: int, f: int, c: nat, fate: Fate)
    requires WellFormed(s.table) && InFlight(s, c)
    requires Fading(s0, s, ttl, id, f) && Drained(s0, s, f)
    requires t == Advanced(s, ttl, c, fate)
    ensures Fading(s0, t, ttl, id, f)
  {
    match s.calls[c]
    case GetForward(h) => ForwardReadKeepsFading(s0, s, t, ttl, id, f, c, h, fate);
    case Select(h, seen) => SelectedKeepsFading(s0, s, t, ttl, id, f, c, h, seen, fate);
    case FillForward(row, outcome, seen) =>
      ForwardFilledKeepsFading(s0, s, t, ttl, id, f, c, row, outcome, seen, fate);
    case FillReverse(row, outcome, seen) =>
      ReverseFilledKeepsFading(s0, s, t, ttl, id, f, c, row, outcome, seen, fate);
    case InsertRow(p) => InsertedKeepsFading(s0, s, t, ttl, id, f, c, p, fate);
    case DeleteRow(u, key) => DeletedKeepsFading(s0, s, t, ttl, id, f, c, u, key, fate);
    case GetReverse(key) => ReverseReadKeepsFading(s0, s, t, ttl, id, f, c, key, fate);
    case DropReverse(key, hex) => DropKeepsFading(s0, s, t, ttl, id, f, c, ById(key), DropForward(hex), fate);
    case DropForward(hex) => DropKeepsFading(s0, s, t, ttl, id, f, c, ByHash(hex), Returned(Removed, s.now), fate);
  }

  lemma StepKeepsFading(s0: State, s: State, ttl: int, id: int, f: int, a: Action)
    requires WellFormed(s.table) && Enabled(s, a)
    requires Fading(s0, s, ttl, id, f) && Drained(s0, s, f)
    ensures Fading(s0, Next(s, ttl, a), ttl, id, f)
  {
    var t := Next(s, ttl, a);
    if a.Advance? {
      AdvancedKeepsFading(s0, s, t, ttl, id, f, a.call, a.fate);
    } else {
      MoveKeepsFading(s0, s, t, ttl, id, f, if a.Begin? then a.call else 0);
    }
  }

  lemma FadingStartsWithDelete(run: seq<State>, actions: seq<Action>, ttl: int, k: nat, id: int, f: int)
    requires IsRun(run, actions, ttl) && ttl > 0 && DeletedAt(run, k, id) && f >= run[k + 1].now
    ensures Fading(run[k + 1], run[k + 1], ttl, id, f)
  {
    RunKeepsInv(run, actions, ttl, k);
    assert Known(run[k], run[k].table.rows[id]);
    RunKeepsInv(run, actions, ttl, k + 1);
    NextRemembers(run[k], ttl, actions[k]);
    FadingStarts(run[k + 1], ttl, id, f);
  }

  lemma {:induction false} FadingOnward(
      run: seq<State>, actions: seq<Action>, ttl: int, k: nat, id: int, f: int, n: nat)
    requires IsRun(run, actions, ttl) && ttl > 0 && DeletedAt(run, k, id)
    requires f >= run[k + 1].now && k < n < |run|
    requires forall j | k < j < n :: Drained(run[k + 1], run[j], f)
    ensures Fading(run[k + 1], run[n], ttl, id, f)
  {
    if n == k + 1 {
      FadingStartsWithDelete(run, actions, ttl, k, id, f);
    } else {
      FadingOnward(run, actions, ttl, k, id, f, n - 1);
      RunKeepsInv(run, actions, ttl, n - 1);
      StepKeepsFading(run[k + 1], run[n - 1], ttl, id, f, actions[n - 1]);
    }
  }

  /** If a delete commits and every call in flight at that moment has returned by `f`, then no
      lookup that reads Redis at `f + ttl` or later ever answers with the deleted key. */
  lemma BoundedStaleness(
      run: seq<State>, actions: seq<Action>, ttl: int, k: nat, id: int, f: int, n: nat, c: nat)
    requires IsRun(run, actions, ttl) && ttl > 0 && DeletedAt(run, k, id)
    requires f >= run[k + 1].now && k < n < |run|
    requires forall j | k < j < |run| :: Drained(run[k + 1], run[j], f)
    requires c in run[n].calls && run[n].calls[c].Returned? && run[n].calls[c].result.Match?
    requires run[n].calls[c].seen >= f + ttl
    ensures run[n].calls[c].result.found.id != id
  {
    FadingOnward(run, actions, ttl, k, id, f, n);
    assert Late(run[n].calls[c], f + ttl);
  }

  // ---- the bound is reached ----

  const SAMPLE_HASH: Hash := [7]
  const SAMPLE := Params(1, SAMPLE_HASH, None, 100)

  function SampleRow(): Row {
    Row(1, 1, SAMPLE_HASH, None, true, 100)
  }

  const ROWS: Table := Table(map[1 := SampleRow()], 2, map[])
  const NO_ROWS: Table := Table(map[], 2, map[])
  const ANSWER: Result := Match(FoundRow(SampleRow()))

  function Filled(expiry: int): Store<Key> {
    map[HashKey(SAMPLE_HASH) := Entry(Json(Projection(SampleRow())), expiry),
        ById(1) := Entry(Text(HexEncode(SAMPLE_HASH)), expiry)]
  }

  ghost predicate Looks(s: State, t: Table, redis: Store<Key>, now: int, calls: map<nat, Pc>) {
    && s.table == t && s.redis == redis && s.now == now && s.calls == calls
  }

  ghost predicate Steps(s: State, ttl: int, a: Action, t: State) {
    Enabled(s, a) && t == Next(s, ttl, a)
  }

  /** A stretch of a run. */
  ghost predicate Stretch(states: seq<State>, actions: seq<Action>, ttl: int) {
    && |states| == |actions| + 1
    && forall i | 0 <= i < |actions| :: Steps(states[i], ttl, actions[i], states[i + 1])
  }

  lemma Join(x: seq<State>, a: seq<Action>, y: seq<State>, b: seq<Action>, ttl: int)
    requires Stretch(x, a, ttl) && Stretch(y, b, ttl) && x[|a|] == y[0]
    ensures Stretch(x[..|a|] + y, a + b, ttl)
  {
    var z, c := x[..|a|] + y, a + b;
    forall i | 0 <= i < |c| ensures Steps(z[i], ttl, c[i], z[i + 1]) {
      if i < |a| {
        assert Steps(x[i], ttl, a[i], x[i + 1]);
      } else {
        assert Steps(y[i - |a|], ttl, b[i - |a|], y[i - |a| + 1]);
      }
    }
  }

  lemma CreateBegins(ttl: int) returns (s: seq<State>)
    requires ttl > 0
    ensures Stretch(s, [Begin(0, Create(SAMPLE)), Advance(0, Heard)], ttl) && s[0] == INITIAL
    ensures Looks(s[2], ROWS, map[], 0, map[0 := FillForward(SampleRow(), Created(SampleRow()), 0)])
  {
    var s1 := Next(INITIAL, ttl, Begin(0, Create(SAMPLE)));
    assert s1.calls == map[0 := InsertRow(SAMPLE)];
    var s2 := Next(s1, ttl, Advance(0, Heard));
    s := [INITIAL, s1, s2];
  }

  lemma LookupReads(ttl: int, s2: State) returns (s: seq<State>)
    requires ttl > 0
    requires Looks(s2, ROWS, map[], 0, map[0 := FillForward(SampleRow(), Created(SampleRow()), 0)])
    ensures Stretch(s, [Begin(1, Lookup(SAMPLE_HASH)), Advance(1, Heard), Advance(1, Heard)], ttl)
    ensures s[0] == s2
    ensures Looks(s[3], ROWS, map[], 0,
                  map[0 := FillForward(SampleRow(), Created(SampleRow()), 0),
                      1 := FillForward(SampleRow(), ANSWER, 0)])
  {
    var s3 := Next(s2, ttl, Begin(1, Lookup(SAMPLE_HASH)));
    assert s3.calls[1] == GetForward(SAMPLE_HASH);
    var s4 := Next(s3, ttl, Advance(1, Heard));
    assert s4 == Goto(s3, 1, Select(SAMPLE_HASH, 0));
    var s5 := Next(s4, ttl, Advance(1, Heard));
    RowIsSelected(ttl, s4, s5);
    s := [s2, s3, s4, s5];
  }

  lemma RowIsSelected(ttl: int, s: State, t: State)
    requires 1 in s.calls && s.calls[1] == Select(SAMPLE_HASH, 0) && s.table == ROWS
    requires t == Next(s, ttl, Advance(1, Heard))
    ensures t == Goto(s, 1, FillForward(SampleRow(), ANSWER, 0))
  {
    assert s.table.rows[1].hash == SAMPLE_HASH;
  }

  lemma CreateEnds(ttl: int, s5: State) returns (s: seq<State>)
    requires ttl > 0
    requires Looks(s5, ROWS, map[], 0,
                   map[0 := FillForward(SampleRow(), Created(SampleRow()), 0),
                       1 := FillForward(SampleRow(), ANSWER, 0)])
    ensures Stretch(s, [Advance(0, Heard), Advance(0, Heard)], ttl) && s[0] == s5
    ensures Looks(s[2], ROWS, Filled(ttl), 0,
                  map[0 := Returned(Created(SampleRow()), 0), 1 := FillForward(SampleRow(), ANSWER, 0)])
  {
    var s6 := Next(s5, ttl, Advance(0, Heard));
    assert s6.calls[0] == FillReverse(SampleRow(), Created(SampleRow()), 0);
    var s7 := Next(s6, ttl, Advance(0, Heard));
    s := [s5, s6, s7];
  }

  lemma DeleteCommits(ttl: int, s7: State) returns (s: seq<State>)
    requires ttl > 0
    requires Looks(s7, ROWS, Filled(ttl), 0,
                   map[0 := Returned(Created(SampleRow()), 0), 1 := FillForward(SampleRow(), ANSWER, 0)])
    ensures Stretch(s, [Begin(2, Remove(1, 1)), Advance(2, Heard)], ttl)
    ensures s[0] == s7 && s[1].table == ROWS
    ensures Looks(s[2], NO_ROWS, Filled(ttl), 0,
                  map[0 := Returned(Created(SampleRow()), 0), 1 := FillForward(SampleRow(), ANSWER, 0),
                      2 := GetReverse(1)])
  {
    var s8 := Next(s7, ttl, Begin(2, Remove(1, 1)));
    assert s8.calls[2] == DeleteRow(1, 1);
    var s9 := Next(s8, ttl, Advance(2, Heard));
    s := [s7, s8, s9];
  }

  lemma DeleteCleans(ttl: int, s9: State) returns (s: seq<State>)
    requires ttl > 0
    requires Looks(s9, NO_ROWS, Filled(ttl), 0,
                   map[0 := Returned(Created(SampleRow()), 0), 1 := FillForward(SampleRow(), ANSWER, 0),
                       2 := GetReverse(1)])
    ensures Stretch(s, [Advance(2, Heard), Advance(2, Heard), Advance(2, Heard)], ttl)
    ensures s[0] == s9 && s[1].now == s[2].now == 0
    ensures Looks(s[3], NO_ROWS, map[], 0,
                  map[0 := Returned(Created(SampleRow()), 0), 1 := FillForward(SampleRow(), ANSWER, 0),
                      2 := Returned(Removed, 0)])
  {
    var s10 := Next(s9, ttl, Advance(2, Heard));
    ReverseIsFound(ttl, s9, s10);
    var s11 := Next(s10, ttl, Advance(2, Heard));
    assert s11.calls[2] == DropForward(HexEncode(SAMPLE_HASH));
    var s12 := Next(s11, ttl, Advance(2, Heard));
    assert s12.redis == map[];
    s := [s9, s10, s11, s12];
  }

  lemma ReverseIsFound(ttl: int, s: State, t: State)
    requires ttl > 0 && 2 in s.calls && s.calls[2] == GetReverse(1) && s.redis == Filled(ttl) && s.now == 0
    requires t == Next(s, ttl, Advance(2, Heard))
    ensures t == Goto(s, 2, DropReverse(1, HexEncode(SAMPLE_HASH)))
  {
  }

  lemma LookupWrites(ttl: int, s12: State) returns (s: seq<State>)
    requires ttl > 0
    requires Looks(s12, NO_ROWS, map[], 0,
                   map[0 := Returned(Created(SampleRow()), 0), 1 := FillForward(SampleRow(), ANSWER, 0),
                       2 := Returned(Removed, 0)])
    ensures Stretch(s, [Advance(1, Heard), Advance(1, Heard)], ttl) && s[0] == s12
    ensures s[1].now == 0
    ensures Looks(s[2], NO_ROWS, Filled(ttl), 0,
                  map[0 := Returned(Created(SampleRow()), 0), 1 := Returned(ANSWER, 0),
                      2 := Returned(Removed, 0)])
  {
    var s13 := Next(s12, ttl, Advance(1, Heard));
    assert s13.calls[1] == FillReverse(SampleRow(), ANSWER, 0);
    var s14 := Next(s13, ttl, Advance(1, Heard));
    s := [s12, s13, s14];
  }

  lemma LaterLookup(ttl: int, s14: State) returns (s: seq<State>)
    requires ttl > 0
    requires Looks(s14, NO_ROWS, Filled(ttl), 0,
                   map[0 := Returned(Created(SampleRow()), 0), 1 := Returned(ANSWER, 0),
                       2 := Returned(Removed, 0)])
    ensures Stretch(s, [Tick(ttl - 1), Begin(3, Lookup(SAMPLE_HASH)), Advance(3, Heard)], ttl)
    ensures s[0] == s14
    ensures forall i | 0 <= i < 4 :: !InFlight(s[i], 1) && !InFlight(s[i], 2)
    ensures 3 in s[3].calls && s[3].calls[3] == Returned(ANSWER, ttl - 1)
  {
    var s15 := Next(s14, ttl, Tick(ttl - 1));
    var s16 := Next(s15, ttl, Begin(3, Lookup(SAMPLE_HASH)));
    assert s16.calls[3] == GetForward(SAMPLE_HASH);
    var s17 := Next(s16, ttl, Advance(3, Heard));
    assert s17.calls == s16.calls[3 := Returned(ANSWER, ttl - 1)];
    s := [s14, s15, s16, s17];
  }

  /** The pieces put together; the delete commits in step 8. */
  lemma StaleRun(ttl: int) returns (run: seq<State>, actions: seq<Action>)
    requires ttl > 0
    ensures Stretch(run, actions, ttl) && |run| == 18 && run[0] == INITIAL
    ensures run[8].table == ROWS && run[9].table == NO_ROWS && run[9].now == 0
    ensures run[9].calls.Keys == {0, 1, 2} && run[9].calls[0].Returned?
    ensures forall j | 9 <= j < 18 :: run[j].now == 0 || (!InFlight(run[j], 1) && !InFlight(run[j], 2))
    ensures 3 in run[17].calls && run[17].calls[3] == Returned(ANSWER, ttl - 1)
  {
    var a := CreateBegins(ttl);
    var b := LookupReads(ttl, a[2]);
    var d := CreateEnds(ttl, b[3]);
    var e := DeleteCommits(ttl, d[2]);
    var l := DeleteCleans(ttl, e[2]);
    var g := LookupWrites(ttl, l[3]);
    var h := LaterLookup(ttl, g[2]);
    var aa := [Begin(0, Create(SAMPLE)), Advance(0, Heard)];
    var ab := [Begin(1, Lookup(SAMPLE_HASH)), Advance(1, Heard), Advance(1, Heard)];
    var ad := [Advance(0, Heard), Advance(0, Heard)];
    var ae := [Begin(2, Remove(1, 1)), Advance(2, Heard)];
    var al := [Advance(2, Heard), Advance(2, Heard), Advance(2, Heard)];
    var ag := [Advance(1, Heard), Advance(1, Heard)];
    var ah := [Tick(ttl - 1), Begin(3, Lookup(SAMPLE_HASH)), Advance(3, Heard)];
    Join(g, ag, h, ah, ttl);
    run, actions := g[..2] + h, ag + ah;
    Join(l, al, run, actions, ttl);
    run, actions := l[..3] + run, al + actions;
    Join(e, ae, run, actions, ttl);
    run, actions := e[..2] + run, ae + actions;
    Join(d, ad, run, actions, ttl);
    run, actions := d[..2] + run, ad + actions;
    Join(b, ab, run, actions, ttl);
    run, actions := b[..3] + run, ab + actions;
    Join(a, aa, run, actions, ttl);
    run, actions := a[..2] + run, aa + actions;
  }

  /** `f + ttl` cannot be lowered by a single tick, even if no command ever fails: a lookup that
      read the table before the delete writes the row back after it, and the key answers on. */
  lemma StalenessBoundReached(ttl: int)
    returns (run: seq<State>, actions: seq<Action>, k: nat, n: nat, c: nat)
    requires ttl > 0
    ensures IsRun(run, actions, ttl) && DeletedAt(run, k, 1) && run[k + 1].now == 0 && k < n < |run|
    ensures forall j | k < j < |run| :: Drained(run[k + 1], run[j], 0)
    ensures c in run[n].calls && run[n].calls[c] == Returned(ANSWER, 0 + ttl - 1)
    ensures ANSWER.found.id == 1
  {
    run, actions := StaleRun(ttl);
    k, n, c := 8, 17, 3;
    forall i | 0 <= i < |actions|
      ensures Enabled(run[i], actions[i]) && run[i + 1] == Next(run[i], ttl, actions[i])
    {
      assert Steps(run[i], ttl, actions[i], run[i + 1]);
    }
  }
}
