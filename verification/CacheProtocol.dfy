/** The same repository under concurrency. Any number of lookups, creates and deletes interleave
    command by command; every database statement is atomic; every Redis command may fail, with or
    without having taken effect, because the repository discards those errors. */
module CacheProtocol {
  import opened Text
  import opened RedisKeys
  import opened Redis
  import opened KeyTable

  datatype Request =
    | Lookup(hash: Hash)
    | Create(params: Params)
    | Remove(user: int, id: int)

  datatype Result = Match(found: Found) | NoRows | Created(row: Row) | Rejected | Removed | DbError

  /** The next command of a call in flight. `seen` is when a lookup read Redis. */
  datatype Pc =
    | GetForward(hash: Hash)
    | Select(hash: Hash, seen: int)
    | FillForward(row: Row, outcome: Result, seen: int)
    | FillReverse(row: Row, outcome: Result, seen: int)
    | InsertRow(params: Params)
    | DeleteRow(user: int, id: int)
    | GetReverse(id: int)
    | DropReverse(id: int, hex: string)
    | DropForward(hex: string)
    | Returned(result: Result, seen: int)

  /** The last three fields only remember: what each call asked for, every row ever inserted,
      and which call inserted it. */
  datatype State = State(
    table: Table,
    redis: Store<Key>,
    now: int,
    calls: map<nat, Pc>,
    requests: map<nat, Request>,
    history: map<int, Row>,
    origin: map<int, nat>)

  /** How one command went: carried out; failed without effect; failed after taking effect. */
  datatype Fate = Heard | Lost | Unheard

  datatype Action =
    | Tick(d: nat)
    | Begin(call: nat, request: Request)
    | Advance(call: nat, fate: Fate)

  const INITIAL := State(EMPTY, map[], 0, map[], map[], map[], map[])

  function Start(r: Request): Pc {
    match r
    case Lookup(h) => GetForward(h)
    case Create(p) => InsertRow(p)
    case Remove(u, id) => DeleteRow(u, id)
  }

  function Goto(s: State, c: nat, pc: Pc): State {
    s.(calls := s.calls[c := pc])
  }

  /** Redis after a command of uncertain fate. */
  function Attempt(s: State, fate: Fate, c: Command<Key>): State {
    if fate == Lost then s else s.(redis := Exec(s.redis, s.now, c).store)
  }

  function Read(s: State, fate: Fate, k: Key): Reply {
    if fate == Heard then Exec(s.redis, s.now, Get(k)).reply else Nil
  }

  predicate InFlight(s: State, c: nat) {
    c in s.calls && !s.calls[c].Returned?
  }

  /** Hashes of generated keys are fresh; call numbers name calls. */
  ghost predicate Enabled(s: State, a: Action) {
    match a
    case Tick(_) => true
    case Begin(c, _) => c !in s.calls
    case Advance(c, _) =>
      && InFlight(s, c)
      && (s.calls[c].InsertRow? ==>
            forall id | id in s.history :: s.history[id].hash != s.calls[c].params.hash)
  }

  ghost function Next(s: State, ttl: int, a: Action): State
    requires Enabled(s, a)
  {
    match a
    case Tick(d) => s.(now := s.now + d)
    case Begin(c, r) => Goto(s.(requests := s.requests[c := r]), c, Start(r))
    case Advance(c, fate) => Advanced(s, ttl, c, fate)
  }

  /** The next command of call `c`. */
  ghost function Advanced(s: State, ttl: int, c: nat, fate: Fate): State
    requires InFlight(s, c)
  {
    match s.calls[c]
    case GetForward(h) => ForwardRead(s, c, h, fate)
    case Select(h, seen) => Selected(s, c, h, seen, fate)
    case FillForward(row, outcome, seen) => ForwardFilled(s, ttl, c, row, outcome, seen, fate)
    case FillReverse(row, outcome, seen) => ReverseFilled(s, ttl, c, row, outcome, seen, fate)
    case InsertRow(p) => Inserted(s, c, p, fate)
    case DeleteRow(u, id) => Deleted(s, c, u, id, fate)
    case GetReverse(id) => ReverseRead(s, c, id, fate)
    case DropReverse(id, hex) => Goto(Attempt(s, fate, Del(ById(id))), c, DropForward(hex))
    case DropForward(hex) => Goto(Attempt(s, fate, Del(ByHash(hex))), c, Returned(Removed, s.now))
  }

  ghost function ForwardRead(s: State, c: nat, h: Hash, fate: Fate): State {
    var reply := Read(s, fate, HashKey(h));
    if reply.Val? && reply.value.Json? then
      Goto(s, c, Returned(Match(FoundCached(reply.value.row, h)), s.now))
    else Goto(s, c, Select(h, s.now))
  }

  ghost function Selected(s: State, c: nat, h: Hash, seen: int, fate: Fate): State {
    var r := AnyRow(s.table, h);
    Goto(s, c, if fate != Heard then Returned(DbError, seen)
               else if r.None? then Returned(NoRows, seen)
               else FillForward(r.value, Match(FoundRow(r.value)), seen))
  }

  ghost function ForwardFilled(s: State, ttl: int,
      c: nat, row: Row, outcome: Result, seen: int, fate: Fate): State
  {
    Goto(Attempt(s, fate, Set(HashKey(row.hash), Json(Projection(row)), ttl)), c,
         FillReverse(row, outcome, seen))
  }

  ghost function ReverseFilled(s: State, ttl: int,
      c: nat, row: Row, outcome: Result, seen: int, fate: Fate): State
  {
    Goto(Attempt(s, fate, Set(ById(row.id), Text(HexEncode(row.hash)), ttl)), c, Returned(outcome, seen))
  }

  ghost function Deleted(s: State, c: nat, user: int, id: int, fate: Fate): State {
    Goto(if fate == Lost then s else s.(table := Delete(s.table, user, id)), c,
         if fate == Heard then GetReverse(id) else Returned(DbError, s.now))
  }

  ghost function ReverseRead(s: State, c: nat, id: int, fate: Fate): State {
    var reply := Read(s, fate, ById(id));
    Goto(s, c, if reply.Val? && reply.value.Text? then DropReverse(id, reply.value.text)
               else Returned(Removed, s.now))
  }

  ghost function Inserted(s: State, c: nat, p: Params, fate: Fate): State {
    if fate == Lost then Goto(s, c, Returned(DbError, s.now))
    else if LabelTaken(s.table, p) then
      Goto(s.(table := Insert(s.table, p).0), c, Returned(if fate == Heard then Rejected else DbError, s.now))
    else Stored(s, c, p, fate)
  }

  ghost function Stored(s: State, c: nat, p: Params, fate: Fate): State {
    var row := NewRow(s.table, p);
    var s1 := s.(table := s.table.(rows := s.table.rows[row.id := row], nextId := s.table.nextId + 1),
                 history := s.history[row.id := row], origin := s.origin[row.id := c]);
    Goto(s1, c, if fate == Heard then FillForward(row, Created(row), s.now) else Returned(DbError, s.now))
  }

  /** `Stored` is what the INSERT statement does when it succeeds. */
  lemma StoredIsInsert(s: State, c: nat, p: Params, fate: Fate)
    requires !LabelTaken(s.table, p)
    ensures Insert(s.table, p) == (Stored(s, c, p, fate).table, Some(NewRow(s.table, p)))
  {
  }

  /** Errors of the database are reported, and only they. */
  lemma DbErrorIff(s: State, ttl: int, c: nat, fate: Fate)
    requires InFlight(s, c)
    requires var pc := s.calls[c]; pc.Select? || pc.InsertRow? || pc.DeleteRow?
    ensures
      var t := Advanced(s, ttl, c, fate);
      c in t.calls && (t.calls[c].Returned? && t.calls[c].result.DbError? <==> fate != Heard)
  {
  }

  /** A lookup that is heard: a live row in the cache ends it, seen now; else the table is asked, and
      what the query finds is answered once the cache has been filled. */
  lemma LookupSteps(s: State, ttl: int, c: nat)
    requires InFlight(s, c) && (s.calls[c].GetForward? || s.calls[c].Select?)
    ensures
      var pc, t := s.calls[c], Advanced(s, ttl, c, Heard);
      var k := HashKey(pc.hash);
      && c in t.calls && t.table == s.table && t.redis == s.redis
      && (pc.GetForward? ==>
            t.calls[c] ==
            if Live(s.redis, k, s.now) && s.redis[k].value.Json? then
              var row := s.redis[k].value.row;
              Returned(Match(Found(row.id, row.user, pc.hash, row.active, row.rate)), s.now)
            else Select(pc.hash, s.now))
      && (pc.Select? && !HasHash(s.table, pc.hash) ==> t.calls[c] == Returned(NoRows, pc.seen))
      && (pc.Select? && HasHash(s.table, pc.hash) ==>
            exists id | id in s.table.rows && s.table.rows[id].hash == pc.hash ::
              var row := s.table.rows[id];
              t.calls[c] == FillForward(row, Match(Found(row.id, row.user, row.hash, row.active, row.rate)), pc.seen))
  {
    if s.calls[c].Select? && HasHash(s.table, s.calls[c].hash) {
      var row := AnyRow(s.table, s.calls[c].hash).value;
      var id :| id in s.table.rows && s.table.rows[id] == row;
    }
  }

  /** Errors of Redis are not: a failing read counts as a miss. */
  lemma FailedReadIsMiss(s: State, ttl: int, c: nat, fate: Fate)
    requires InFlight(s, c) && fate != Heard && (s.calls[c].GetForward? || s.calls[c].GetReverse?)
    ensures
      var t := Advanced(s, ttl, c, fate);
      c in t.calls
      && t.calls[c] == if s.calls[c].GetForward? then Select(s.calls[c].hash, s.now) else Returned(Removed, s.now)
  {
  }

  /** After a failing write the call goes on as after any other. */
  lemma FailedWriteGoesOn(s: State, ttl: int, c: nat, fate: Fate)
    requires InFlight(s, c)
    requires var pc := s.calls[c]; pc.FillForward? || pc.FillReverse? || pc.DropReverse? || pc.DropForward?
    ensures
      var pc, t := s.calls[c], Advanced(s, ttl, c, fate);
      c in t.calls
      && (pc.FillForward? ==> t.calls[c] == FillReverse(pc.row, pc.outcome, pc.seen))
      && (pc.FillReverse? ==> t.calls[c] == Returned(pc.outcome, pc.seen))
      && (pc.DropReverse? ==> t.calls[c] == DropForward(pc.hex))
      && (pc.DropForward? ==> t.calls[c] == Returned(Removed, s.now))
  {
  }

  // ---- provenance ----

  /** `r` is a row that was once inserted. */
  ghost predicate Known(s: State, r: Row) {
    r.id in s.history && s.history[r.id] == r
  }

  /** The result `r` of a call that asked for `q`. */
  ghost predicate ResultKnown(s: State, q: Request, r: Result) {
    && (r.Match? ==> q.Lookup? && r.found.hash == q.hash
                     && r.found.id in s.history && FoundRow(s.history[r.found.id]) == r.found)
    && (r.Created? ==> q.Create? && Known(s, r.row))
  }

  ghost predicate PcKnown(s: State, q: Request, pc: Pc) {
    match pc
    case GetForward(h) => q == Lookup(h)
    case Select(h, _) => q == Lookup(h)
    case FillForward(row, outcome, _) => Known(s, row) && ResultKnown(s, q, outcome)
    case FillReverse(row, outcome, _) => Known(s, row) && ResultKnown(s, q, outcome)
    case InsertRow(p) => q == Create(p)
    case DeleteRow(user, id) => q == Remove(user, id)
    case GetReverse(id) => q.Remove? && q.id == id
    case DropReverse(id, _) => q.Remove? && q.id == id
    case DropForward(_) => q.Remove?
    case Returned(r, _) => ResultKnown(s, q, r)
  }

  ghost predicate CallKnown(s: State, c: nat)
    requires c in s.calls
  {
    var pc := s.calls[c];
    && c in s.requests && PcKnown(s, s.requests[c], pc)
    && (pc.Select? || pc.FillForward? || pc.FillReverse? || pc.Returned? ==> pc.seen <= s.now)
  }

  /** Where a row came from: the create call recorded for it. */
  ghost predicate Traced(s: State, id: int)
    requires id in s.history
  {
    && id in s.origin
    && s.origin[id] in s.requests
    && s.requests[s.origin[id]].Create?
    && var p := s.requests[s.origin[id]].params;
       s.history[id] == Row(id, p.user, p.hash, p.keyLabel, true, p.rate)
  }

  ghost predicate EntryKnown(s: State, ttl: int, k: Key)
    requires k in s.redis
  {
    var e := s.redis[k];
    && e.expiry <= s.now + ttl
    && (k.ByHash? ==> e.value.Json? && e.value.row.id in s.history
                      && Projection(s.history[e.value.row.id]) == e.value.row
                      && k == HashKey(s.history[e.value.row.id].hash))
  }

  ghost predicate HistoryOk(s: State) {
    && WellFormed(s.table)
    && (forall id | id in s.table.rows :: Known(s, s.table.rows[id]))
    && (forall id | id in s.history :: id < s.table.nextId && Traced(s, id))
    && (forall a, b | a in s.history && b in s.history && s.history[a].hash == s.history[b].hash ::
          a == b)
  }

  ghost predicate Inv(s: State, ttl: int) {
    && HistoryOk(s)
    && (forall k | k in s.redis :: EntryKnown(s, ttl, k))
    && s.requests.Keys == s.calls.Keys
    && (forall c | c in s.calls :: CallKnown(s, c))
  }

  ghost predicate Remembers(s: State, t: State) {
    && (forall c | c in s.requests :: c in t.requests && t.requests[c] == s.requests[c])
    && (forall id | id in s.history ::
          && id in t.history && t.history[id] == s.history[id]
          && (id in s.origin ==> id in t.origin && t.origin[id] == s.origin[id]))
  }

  /** Rows stay known while the memory only grows and the table only loses rows. */
  lemma HistoryCarriesOver(s: State, t: State)
    requires HistoryOk(s) && Remembers(s, t) && t.history == s.history
    requires WellFormed(t.table) && t.table.nextId >= s.table.nextId
    requires forall id | id in t.table.rows :: id in s.table.rows && t.table.rows[id] == s.table.rows[id]
    ensures HistoryOk(t)
  {
    forall id | id in t.history ensures id < t.table.nextId && Traced(t, id) {
      assert Traced(s, id);
    }
    forall id | id in t.table.rows ensures Known(t, t.table.rows[id]) {
      assert Known(s, s.table.rows[id]);
    }
  }

  /** What any step has to show: the call it moved, the entries it wrote, and the rows. */
  lemma MoveKeepsInv(s: State, t: State, ttl: int, c: nat)
    requires Inv(s, ttl) && Remembers(s, t) && HistoryOk(t) && t.now >= s.now
    requires t.requests.Keys == t.calls.Keys
    requires forall x | x in t.calls && x != c :: x in s.calls && t.calls[x] == s.calls[x]
    requires c in t.calls ==> CallKnown(t, c)
    requires forall k | k in t.redis ::
        (k in s.redis && t.redis[k] == s.redis[k]) || EntryKnown(t, ttl, k)
    ensures Inv(t, ttl)
  {
    forall k | k in t.redis ensures EntryKnown(t, ttl, k) {
      if k in s.redis && t.redis[k] == s.redis[k] {
        assert EntryKnown(s, ttl, k);
      }
    }
    forall x | x in t.calls ensures CallKnown(t, x) {
      if x != c {
        assert CallKnown(s, x);
      }
    }
  }

  /** A step that stores no row. */
  lemma QuietKeepsInv(s: State, t: State, ttl: int, c: nat)
    requires Inv(s, ttl) && Remembers(s, t) && t.history == s.history && t.now >= s.now
    requires WellFormed(t.table) && t.table.nextId >= s.table.nextId
    requires forall id | id in t.table.rows :: id in s.table.rows && t.table.rows[id] == s.table.rows[id]
    requires t.requests.Keys == t.calls.Keys
    requires forall x | x in t.calls && x != c :: x in s.calls && t.calls[x] == s.calls[x]
    requires c in t.calls ==> CallKnown(t, c)
    requires forall k | k in t.redis ::
        (k in s.redis && t.redis[k] == s.redis[k]) || EntryKnown(t, ttl, k)
    ensures Inv(t, ttl)
  {
    HistoryCarriesOver(s, t);
    MoveKeepsInv(s, t, ttl, c);
  }

  lemma ForwardReadKeepsInv(s: State, t: State, ttl: int, c: nat, h: Hash, fate: Fate)
    requires Inv(s, ttl) && c in s.calls && s.calls[c] == GetForward(h)
    requires t == ForwardRead(s, c, h, fate)
    ensures Inv(t, ttl)
  {
    assert CallKnown(s, c);
    var reply := Read(s, fate, HashKey(h));
    if reply.Val? && reply.value.Json? {
      assert EntryKnown(s, ttl, HashKey(h));
      HashKeyInjective(s.history[reply.value.row.id].hash, h);
    }
    QuietKeepsInv(s, t, ttl, c);
  }

  lemma SelectedKeepsInv(s: State, t: State, ttl: int, c: nat, h: Hash, seen: int, fate: Fate)
    requires Inv(s, ttl) && c in s.calls && s.calls[c] == Select(h, seen)
    requires t == Selected(s, c, h, seen, fate)
    ensures Inv(t, ttl)
  {
    assert CallKnown(s, c);
    var r := AnyRow(s.table, h);
    if r.Some? {
      var id :| id in s.table.rows && s.table.rows[id] == r.value;
      assert Known(s, s.table.rows[id]);
    }
    QuietKeepsInv(s, t, ttl, c);
  }

  lemma ForwardFilledKeepsInv(s: State, t: State, ttl: int,
      c: nat, row: Row, outcome: Result, seen: int, fate: Fate)
    requires Inv(s, ttl) && c in s.calls && s.calls[c] == FillForward(row, outcome, seen)
    requires t == ForwardFilled(s, ttl, c, row, outcome, seen, fate)
    ensures Inv(t, ttl)
  {
    assert CallKnown(s, c);
    QuietKeepsInv(s, t, ttl, c);
  }

  lemma ReverseFilledKeepsInv(s: State, t: State, ttl: int,
      c: nat, row: Row, outcome: Result, seen: int, fate: Fate)
    requires Inv(s, ttl) && c in s.calls && s.calls[c] == FillReverse(row, outcome, seen)
    requires t == ReverseFilled(s, ttl, c, row, outcome, seen, fate)
    ensures Inv(t, ttl)
  {
    assert CallKnown(s, c);
    QuietKeepsInv(s, t, ttl, c);
  }

  /** A row entering the table, and with it the history. */
  lemma NewRowKeepsHistory(s: State, t: State, c: nat, p: Params)
    requires HistoryOk(s) && c in s.requests && s.requests[c] == Create(p)
    requires forall id | id in s.history :: s.history[id].hash != p.hash
    requires t.table == s.table.(rows := s.table.rows[s.table.nextId := NewRow(s.table, p)],
                                 nextId := s.table.nextId + 1)
    requires t.history == s.history[s.table.nextId := NewRow(s.table, p)]
    requires t.origin == s.origin[s.table.nextId := c] && t.requests == s.requests
    ensures HistoryOk(t) && Remembers(s, t)
  {
    forall id | id in t.history ensures id < t.table.nextId && Traced(t, id) {
      assert id in s.history ==> Traced(s, id);
    }
    forall id | id in t.table.rows ensures Known(t, t.table.rows[id]) {
      assert id in s.table.rows ==> Known(s, s.table.rows[id]);
    }
  }

  lemma StoredKeepsInv(s: State, t: State, ttl: int, c: nat, p: Params, fate: Fate)
    requires Inv(s, ttl) && Enabled(s, Advance(c, fate)) && s.calls[c] == InsertRow(p)
    requires t == Stored(s, c, p, fate)
    ensures Inv(t, ttl)
  {
    assert CallKnown(s, c);
    NewRowKeepsHistory(s, t, c, p);
    MoveKeepsInv(s, t, ttl, c);
  }

  lemma InsertedKeepsInv(s: State, t: State, ttl: int, c: nat, p: Params, fate: Fate)
    requires Inv(s, ttl) && Enabled(s, Advance(c, fate)) && s.calls[c] == InsertRow(p)
    requires t == Inserted(s, c, p, fate)
    ensures Inv(t, ttl)
  {
    if fate == Lost || LabelTaken(s.table, p) {
      QuietKeepsInv(s, t, ttl, c);
    } else {
      StoredKeepsInv(s, t, ttl, c, p, fate);
    }
  }

  lemma DeletedKeepsInv(s: State, t: State, ttl: int, c: nat, user: int, id: int, fate: Fate)
    requires Inv(s, ttl) && c in s.calls && s.calls[c] == DeleteRow(user, id)
    requires t == Deleted(s, c, user, id, fate)
    ensures Inv(t, ttl)
  {
    assert CallKnown(s, c);
    QuietKeepsInv(s, t, ttl, c);
  }

  lemma ReverseReadKeepsInv(s: State, t: State, ttl: int, c: nat, id: int, fate: Fate)
    requires Inv(s, ttl) && c in s.calls && s.calls[c] == GetReverse(id)
    requires t == ReverseRead(s, c, id, fate)
    ensures Inv(t, ttl)
  {
    assert CallKnown(s, c);
    QuietKeepsInv(s, t, ttl, c);
  }

  lemma DropKeepsInv(s: State, t: State, ttl: int, c: nat, k: Key, pc: Pc, fate: Fate)
    requires Inv(s, ttl) && c in s.calls && (s.calls[c].DropReverse? || s.calls[c].DropForward?)
    requires pc.DropForward? || pc == Returned(Removed, s.now)
    requires t == Goto(Attempt(s, fate, Del(k)), c, pc)
    ensures Inv(t, ttl)
  {
    assert CallKnown(s, c);
    QuietKeepsInv(s, t, ttl, c);
  }

  lemma AdvancedKeepsInv(s: State, t: State, ttl: int, c: nat, fate: Fate)
    requires Inv(s, ttl) && ttl > 0 && Enabled(s, Advance(c, fate))
    requires t == Advanced(s, ttl, c, fate)
    ensures Inv(t, ttl)
  {
    match s.calls[c]
    case GetForward(h) => ForwardReadKeepsInv(s, t, ttl, c, h, fate);
    case Select(h, seen) => SelectedKeepsInv(s, t, ttl, c, h, seen, fate);
    case FillForward(row, outcome, seen) => ForwardFilledKeepsInv(s, t, ttl, c, row, outcome, seen, fate);
    case FillReverse(row, outcome, seen) => ReverseFilledKeepsInv(s, t, ttl, c, row, outcome, seen, fate);
    case InsertRow(p) => InsertedKeepsInv(s, t, ttl, c, p, fate);
    case DeleteRow(u, id) => DeletedKeepsInv(s, t, ttl, c, u, id, fate);
    case GetReverse(id) => ReverseReadKeepsInv(s, t, ttl, c, id, fate);
    case DropReverse(id, hex) => DropKeepsInv(s, t, ttl, c, ById(id), DropForward(hex), fate);
    case DropForward(hex) => DropKeepsInv(s, t, ttl, c, ByHash(hex), Returned(Removed, s.now), fate);
  }

  lemma NextKeepsInv(s: State, ttl: int, a: Action)
    requires Inv(s, ttl) && ttl > 0 && Enabled(s, a)
    ensures Inv(Next(s, ttl, a), ttl)
  {
    var t := Next(s, ttl, a);
    if a.Advance? {
      AdvancedKeepsInv(s, t, ttl, a.call, a.fate);
    } else {
      QuietKeepsInv(s, t, ttl, if a.Begin? then a.call else 0);
    }
  }

  lemma ReadMemory(s: State, t: State, ttl: int, c: nat, fate: Fate)
    requires InFlight(s, c) && t == Advanced(s, ttl, c, fate)
    requires
      var pc := s.calls[c]; pc.GetForward? || pc.Select? || pc.GetReverse? || pc.DeleteRow?
    ensures t.requests == s.requests && t.history == s.history && t.origin == s.origin
  {
  }

  lemma WriteMemory(s: State, t: State, ttl: int, c: nat, fate: Fate)
    requires InFlight(s, c) && t == Advanced(s, ttl, c, fate)
    requires
      var pc := s.calls[c]; pc.FillForward? || pc.FillReverse? || pc.DropReverse? || pc.DropForward?
    ensures t.requests == s.requests && t.history == s.history && t.origin == s.origin
  {
  }

  lemma InsertMemory(s: State, t: State, c: nat, p: Params, fate: Fate)
    requires HistoryOk(s) && t == Inserted(s, c, p, fate)
    ensures t.requests == s.requests && Remembers(s, t)
  {
    assert forall id | id in s.history :: id != s.table.nextId;
  }

  /** A step of a call forgets nothing and asks for nothing. */
  lemma AdvancedRemembers(s: State, t: State, ttl: int, c: nat, fate: Fate)
    requires HistoryOk(s) && InFlight(s, c) && t == Advanced(s, ttl, c, fate)
    ensures t.requests == s.requests && Remembers(s, t)
  {
    var pc := s.calls[c];
    if pc.InsertRow? {
      InsertMemory(s, t, c, pc.params, fate);
    } else if pc.GetForward? || pc.Select? || pc.GetReverse? || pc.DeleteRow? {
      ReadMemory(s, t, ttl, c, fate);
    } else {
      WriteMemory(s, t, ttl, c, fate);
    }
  }

  lemma NextRemembers(s: State, ttl: int, a: Action)
    requires Inv(s, ttl) && Enabled(s, a)
    ensures Remembers(s, Next(s, ttl, a))
  {
    if a.Advance? {
      AdvancedRemembers(s, Next(s, ttl, a), ttl, a.call, a.fate);
    }
  }

  /** `run[i]` is the state before action `i`. */
  ghost predicate IsRun(run: seq<State>, actions: seq<Action>, ttl: int) {
    && |run| == |actions| + 1
    && run[0] == INITIAL
    && (forall i | 0 <= i < |actions| ::
          && Enabled(run[i], actions[i])
          && run[i + 1] == Next(run[i], ttl, actions[i]))
  }

  lemma {:induction false} RunKeepsInv(run: seq<State>, actions: seq<Action>, ttl: int, n: nat)
    requires IsRun(run, actions, ttl) && ttl > 0 && n < |run|
    ensures Inv(run[n], ttl)
  {
    if n > 0 {
      RunKeepsInv(run, actions, ttl, n - 1);
      NextKeepsInv(run[n - 1], ttl, actions[n - 1]);
    }
  }

  lemma StepRemembers(run: seq<State>, actions: seq<Action>, ttl: int, n: nat)
    requires IsRun(run, actions, ttl) && ttl > 0 && 0 < n < |run|
    ensures Remembers(run[n - 1], run[n])
  {
    RunKeepsInv(run, actions, ttl, n - 1);
    NextRemembers(run[n - 1], ttl, actions[n - 1]);
  }

  lemma RemembersOnward(a: State, b: State, c: State)
    requires Remembers(a, b) && Remembers(b, c)
    ensures Remembers(a, c)
  {
  }

  lemma {:induction false} RunRemembers(run: seq<State>, actions: seq<Action>, ttl: int, i: nat, n: nat)
    requires IsRun(run, actions, ttl) && ttl > 0 && i <= n < |run|
    ensures Remembers(run[i], run[n])
  {
    if i < n {
      RunRemembers(run, actions, ttl, i, n - 1);
      StepRemembers(run, actions, ttl, n);
      RemembersOnward(run[i], run[n - 1], run[n]);
    }
  }

  /** Whatever the interleaving and whichever Redis commands fail, a lookup for `h` answers only
      with the id, owner, active flag and rate of the one row ever inserted with that hash. */
  lemma LookupProvenance(run: seq<State>, actions: seq<Action>, ttl: int, n: nat, c: nat, h: Hash)
    requires IsRun(run, actions, ttl) && ttl > 0 && n < |run|
    requires c in run[n].calls && c in run[n].requests && run[n].requests[c] == Lookup(h)
    requires run[n].calls[c].Returned? && run[n].calls[c].result.Match?
    ensures
      var s, f := run[n], run[n].calls[c].result.found;
      && f.hash == h
      && f.id in s.history && FoundRow(s.history[f.id]) == f && Traced(s, f.id)
      && (forall id | id in s.history && s.history[id].hash == h :: id == f.id)
  {
    RunKeepsInv(run, actions, ttl, n);
    assert CallKnown(run[n], c);
  }
}
