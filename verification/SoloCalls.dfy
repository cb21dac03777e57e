/** The step protocol and the sequential repository are the same program: a call that runs alone,
    with every command carried out, does what the sequential operation does. */
module SoloCalls {
  import opened Text
  import opened RedisKeys
  import opened Redis
  import opened KeyTable
  import KeyRepo
  import opened CacheProtocol

  ghost function View(s: State): KeyRepo.State {
    KeyRepo.State(s.table, s.redis, s.now)
  }

  /** The clock runs for `d`, then call `c` takes its next step. */
  ghost function Act(s: State, ttl: int, c: nat, d: nat): State
    requires InFlight(s, c)
  {
    Advanced(s.(now := s.now + d), ttl, c, Heard)
  }

  /** Call `c` alone, waiting `delays` before its steps, until it returns or the delays run out. */
  ghost function Solo(s: State, ttl: int, c: nat, delays: seq<nat>): State
    decreases |delays|
  {
    if delays == [] || !InFlight(s, c) then s else Solo(Act(s, ttl, c, delays[0]), ttl, c, delays[1..])
  }

  lemma SoloDone(s: State, ttl: int, c: nat, delays: seq<nat>)
    requires !InFlight(s, c)
    ensures Solo(s, ttl, c, delays) == s
  {
  }

  lemma SoloStep(s: State, ttl: int, c: nat, d: nat, rest: seq<nat>)
    requires InFlight(s, c)
    ensures Solo(s, ttl, c, [d] + rest) == Solo(Act(s, ttl, c, d), ttl, c, rest)
  {
    assert ([d] + rest)[1..] == rest;
  }

  ghost predicate Ends(s: State, c: nat, result: Result) {
    c in s.calls && s.calls[c].Returned? && s.calls[c].result == result
  }

  /** The two SETs end a lookup as well as a create. */
  lemma SoloFill(s: State, ttl: int, c: nat, row: Row, outcome: Result, seen: int, d1: nat, d2: nat)
    requires c in s.calls && s.calls[c] == FillForward(row, outcome, seen)
    ensures
      var t := Solo(s, ttl, c, [d1] + [d2]);
      && View(t) == KeyRepo.Fill(View(s), ttl, Projection(row), row.hash, d1, d2)
      && Ends(t, c, outcome)
  {
    SoloStep(s, ttl, c, d1, [d2]);
    var s1 := Act(s, ttl, c, d1);
    assert s1.calls[c] == FillReverse(row, outcome, seen);
    SoloStep(s1, ttl, c, d2, []);
    assert [d2] + [] == [d2];
  }

  function LookupResult(r: Option<Found>): Result {
    if r.Some? then Match(r.value) else NoRows
  }

  lemma SoloMiss(s: State, ttl: int, c: nat, h: Hash, p: KeyRepo.Pause, after: KeyRepo.State, r: Option<Found>)
    requires WellFormed(s.table) && c in s.calls && s.calls[c].Select? && s.calls[c].hash == h
    requires (after, r) == KeyRepo.Miss(View(s.(now := s.now + p.b)), true, ttl, h, p)
    ensures
      var t := Solo(s, ttl, c, [p.b] + ([p.c] + [p.d]));
      View(t) == after && Ends(t, c, LookupResult(r))
  {
    SoloStep(s, ttl, c, p.b, [p.c] + [p.d]);
    var s1 := Act(s, ttl, c, p.b);
    var row := AnyRow(s.table, h);
    if row.None? {
      SoloDone(s1, ttl, c, [p.c] + [p.d]);
    } else {
      AnyRowIsSelected(s.table, h);
      SoloFill(s1, ttl, c, row.value, Match(FoundRow(row.value)), s.calls[c].seen, p.c, p.d);
    }
  }

  /** The first command of a lookup: a hit ends it, a miss goes on to the query. */
  lemma FirstRead(s: State, ttl: int, c: nat, h: Hash, d: nat, s1: State)
    requires c in s.calls && s.calls[c] == GetForward(h) && s1 == Act(s, ttl, c, d)
    ensures View(s1) == View(s).(now := s.now + d) && c in s1.calls
    ensures if KeyRepo.IsHit(View(s), h, s1.now)
            then Ends(s1, c, Match(FoundCached(s.redis[HashKey(h)].value.row, h)))
            else s1.calls[c] == Select(h, s1.now)
  {
  }

  /** A lookup alone is the sequential lookup, hit or miss. */
  lemma SoloLookup(s: State, ttl: int, c: nat, h: Hash, p: KeyRepo.Pause, after: KeyRepo.State, r: Option<Found>)
    requires WellFormed(s.table) && c in s.calls && s.calls[c] == Start(Lookup(h))
    requires (after, r) == KeyRepo.Lookup(View(s), true, ttl, h, p)
    ensures
      var t := Solo(s, ttl, c, [p.a] + ([p.b] + ([p.c] + [p.d])));
      View(t) == after && Ends(t, c, LookupResult(r))
  {
    var s1 := Act(s, ttl, c, p.a);
    SoloStep(s, ttl, c, p.a, [p.b] + ([p.c] + [p.d]));
    FirstRead(s, ttl, c, h, p.a, s1);
    SoloRead(s, ttl, c, h, p, s1, after, r);
  }

  lemma SoloRead(s: State, ttl: int, c: nat, h: Hash, p: KeyRepo.Pause, s1: State,
      after: KeyRepo.State, r: Option<Found>)
    requires WellFormed(s.table) && View(s1) == View(s).(now := s.now + p.a) && c in s1.calls
    requires (after, r) == KeyRepo.Lookup(View(s), true, ttl, h, p)
    requires if KeyRepo.IsHit(View(s), h, s1.now)
             then Ends(s1, c, Match(FoundCached(s.redis[HashKey(h)].value.row, h)))
             else s1.calls[c] == Select(h, s1.now)
    ensures
      var t := Solo(s1, ttl, c, [p.b] + ([p.c] + [p.d]));
      View(t) == after && Ends(t, c, LookupResult(r))
  {
    KeyRepo.LookupSplits(View(s), ttl, h, p);
    if KeyRepo.IsHit(View(s), h, s1.now) {
      SoloDone(s1, ttl, c, [p.b] + ([p.c] + [p.d]));
    } else {
      SoloMiss(s1, ttl, c, h, p, after, r);
    }
  }

  function CreateResult(r: Option<Row>): Result {
    if r.Some? then Created(r.value) else Rejected
  }

  lemma FirstInsert(s: State, ttl: int, c: nat, params: Params, d: nat, s1: State)
    requires c in s.calls && s.calls[c] == InsertRow(params) && s1 == Act(s, ttl, c, d)
    ensures View(s1) == View(s).(table := Insert(s.table, params).0, now := s.now + d) && c in s1.calls
    ensures if LabelTaken(s.table, params) then Ends(s1, c, Rejected)
            else s1.calls[c] == FillForward(NewRow(s.table, params), Created(NewRow(s.table, params)), s1.now)
  {
  }

  /** A create alone is the sequential create, duplicate label or not. */
  lemma SoloCreate(s: State, ttl: int, c: nat, params: Params, p: KeyRepo.Pause,
      after: KeyRepo.State, r: Option<Row>)
    requires c in s.calls && s.calls[c] == Start(Create(params))
    requires (after, r) == KeyRepo.Create(View(s), true, ttl, params, p)
    ensures
      var t := Solo(s, ttl, c, [p.a] + ([p.b] + [p.c]));
      View(t) == after && Ends(t, c, CreateResult(r))
  {
    SoloStep(s, ttl, c, p.a, [p.b] + [p.c]);
    var s1 := Act(s, ttl, c, p.a);
    FirstInsert(s, ttl, c, params, p.a, s1);
    if LabelTaken(s.table, params) {
      SoloDone(s1, ttl, c, [p.b] + [p.c]);
    } else {
      var row := NewRow(s.table, params);
      SoloFill(s1, ttl, c, row, Created(row), s1.now, p.b, p.c);
    }
  }

  lemma SoloDrop(s: State, ttl: int, c: nat, id: int, hex: string, d1: nat, d2: nat)
    requires c in s.calls && s.calls[c] == DropReverse(id, hex)
    ensures
      var t := Solo(s, ttl, c, [d1] + [d2]);
      && View(t) == KeyRepo.Issue(KeyRepo.Issue(View(s), d1, Del(ById(id))).0, d2, Del(ByHash(hex))).0
      && Ends(t, c, Removed)
  {
    SoloStep(s, ttl, c, d1, [d2]);
    var s1 := Act(s, ttl, c, d1);
    assert s1.calls[c] == DropForward(hex);
    SoloStep(s1, ttl, c, d2, []);
    assert [d2] + [] == [d2];
  }

  /** A delete alone is the sequential delete, whether or not a reverse entry is found. */
  lemma SoloRemove(s: State, ttl: int, c: nat, user: int, id: int, p: KeyRepo.Pause)
    requires c in s.calls && s.calls[c] == Start(Remove(user, id))
    ensures
      var t := Solo(s, ttl, c, [p.a] + ([p.b] + ([p.c] + [p.d])));
      View(t) == KeyRepo.Remove(View(s), true, user, id, p) && Ends(t, c, Removed)
  {
    SoloStep(s, ttl, c, p.a, [p.b] + ([p.c] + [p.d]));
    var s1 := Act(s, ttl, c, p.a);
    assert s1.calls[c] == GetReverse(id);
    SoloStep(s1, ttl, c, p.b, [p.c] + [p.d]);
    var s2 := Act(s1, ttl, c, p.b);
    if s2.calls[c].DropReverse? {
      SoloDrop(s2, ttl, c, id, s2.calls[c].hex, p.c, p.d);
    } else {
      SoloDone(s2, ttl, c, [p.c] + [p.d]);
    }
  }
}
