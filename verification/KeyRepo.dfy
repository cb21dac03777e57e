/** The API-key repository: PostgreSQL as the truth, Redis as a two-index expiring cache.
    Operations run one at a time here, but the clock may advance before every single command. */
module KeyRepo {
  import opened Text
  import opened RedisKeys
  import opened Redis
  import opened KeyTable

  datatype State = State(table: Table, redis: Store<Key>, now: int)

  /** How long the clock runs before each command of one operation. */
  datatype Pause = Pause(a: nat, b: nat, c: nat, d: nat)

  function Issue(s: State, delay: nat, c: Command<Key>): (State, Reply) {
    var e := Exec(s.redis, s.now + delay, c);
    (s.(redis := e.store, now := s.now + delay), e.reply)
  }

  /** The two SETs: forward entry first, then reverse entry, with the same ttl. */
  function Fill(s: State, ttl: int, row: Cached, h: Hash, d1: nat, d2: nat): State {
    var s1 := Issue(s, d1, Set(HashKey(h), Json(row), ttl)).0;
    Issue(s1, d2, Set(ById(row.id), Text(HexEncode(h)), ttl)).0
  }

  function Lookup(s: State, cached: bool, ttl: int, h: Hash, p: Pause): (State, Option<Found>)
    requires WellFormed(s.table)
  {
    var (s1, reply) := if cached then Issue(s, p.a, Get(HashKey(h))) else (s, Nil);
    if reply.Val? && reply.value.Json? then (s1, Some(FoundCached(reply.value.row, h)))
    else Miss(s1.(now := s1.now + p.b), cached, ttl, h, p)
  }

  function Miss(s: State, cached: bool, ttl: int, h: Hash, p: Pause): (State, Option<Found>)
    requires WellFormed(s.table)
  {
    var r := SelectByHash(s.table, h);
    if r.None? || !cached then (s, r) else (Fill(s, ttl, Project(r.value), h, p.c, p.d), r)
  }

  function Create(s: State, cached: bool, ttl: int, params: Params, p: Pause): (State, Option<Row>) {
    var (t, r) := Insert(s.table, params);
    var s1 := s.(table := t, now := s.now + p.a);
    if r.None? || !cached then (s1, r)
    else (Fill(s1, ttl, Projection(r.value), params.hash, p.b, p.c), r)
  }

  function Remove(s: State, cached: bool, user: int, id: int, p: Pause): State {
    var s1 := s.(table := Delete(s.table, user, id), now := s.now + p.a);
    if !cached then s1
    else
      var (s2, reply) := Issue(s1, p.b, Get(ById(id)));
      if reply.Val? && reply.value.Text? then
        var s3 := Issue(s2, p.c, Del(ById(id))).0;
        Issue(s3, p.d, Del(ByHash(reply.value.text))).0
      else s2
  }

  // ---- coherence and TTL dominance ----

  ghost predicate Dominated(s: State, k: Key)
    requires k in s.redis && s.redis[k].value.Json?
  {
    var back := ById(s.redis[k].value.row.id);
    && k.ByHash?
    && back in s.redis
    && s.redis[back].value == Text(k.hex)
    && s.redis[back].expiry >= s.redis[k].expiry
  }

  ghost predicate Truthful(s: State, k: Key)
    requires k in s.redis && s.redis[k].value.Json?
  {
    var c := s.redis[k].value.row;
    && c.id in s.table.rows
    && Projection(s.table.rows[c.id]) == c
    && k == HashKey(s.table.rows[c.id].hash)
  }

  /** Each live forward entry is the projection of the row with that hash, and is covered by a
      reverse entry that holds the same hash and lives at least as long. */
  ghost predicate Coherent(s: State) {
    && WellFormed(s.table)
    && (forall k | k in s.redis && k.ByHash? && s.now < s.redis[k].expiry ::
          s.redis[k].value.Json? && Truthful(s, k) && Dominated(s, k))
    && (forall k | k in s.redis && k.ById? :: s.redis[k].value.Text?)
  }

  lemma FillKeepsCoherence(s: State, ttl: int, row: Row, d1: nat, d2: nat)
    requires Coherent(s) && ttl > 0
    requires row.id in s.table.rows && s.table.rows[row.id] == row
    ensures Coherent(Fill(s, ttl, Projection(row), row.hash, d1, d2))
  {
    var s' := Fill(s, ttl, Projection(row), row.hash, d1, d2);
    forall k | k in s'.redis && k.ByHash? && s'.now < s'.redis[k].expiry
      ensures s'.redis[k].value.Json? && Truthful(s', k) && Dominated(s', k)
    {
      if k != HashKey(row.hash) {
        assert Truthful(s, k) && Dominated(s, k);
      }
    }
  }

  lemma HitIsSelect(s: State, h: Hash, at: int)
    requires Coherent(s) && at >= s.now
    requires Live(s.redis, HashKey(h), at) && s.redis[HashKey(h)].value.Json?
    ensures SelectByHash(s.table, h) == Some(FoundCached(s.redis[HashKey(h)].value.row, h))
  {
    var k := HashKey(h);
    assert Truthful(s, k);
    HashKeyInjective(s.table.rows[s.redis[k].value.row.id].hash, h);
  }

  lemma WaitingKeepsCoherence(s: State, delay: nat)
    requires Coherent(s)
    ensures Coherent(s.(now := s.now + delay))
  {
    var t := s.(now := s.now + delay);
    assert forall k | k in t.redis && k.ByHash? && t.now < t.redis[k].expiry ::
        Truthful(s, k) && Dominated(s, k);
  }

  lemma MissIsSelect(s: State, ttl: int, h: Hash, p: Pause, t: State, r: Option<Found>)
    requires Coherent(s) && ttl > 0 && (t, r) == Miss(s, true, ttl, h, p)
    ensures r == SelectByHash(s.table, h) && t.table == s.table && Coherent(t)
  {
    if r.Some? {
      FillKeepsCoherence(s, ttl, s.table.rows[r.value.id], p.c, p.d);
    }
  }

  predicate IsHit(s: State, h: Hash, at: int) {
    Live(s.redis, HashKey(h), at) && s.redis[HashKey(h)].value.Json?
  }

  /** What Redis does to the first command: a live row is a hit, anything else a miss. */
  lemma LookupSplits(s: State, ttl: int, h: Hash, p: Pause)
    requires WellFormed(s.table)
    ensures
      var s1 := s.(now := s.now + p.a);
      Lookup(s, true, ttl, h, p) ==
      if IsHit(s, h, s1.now) then (s1, Some(FoundCached(s.redis[HashKey(h)].value.row, h)))
      else Miss(s1.(now := s1.now + p.b), true, ttl, h, p)
  {
  }

  lemma LookupIsSelect(s: State, ttl: int, h: Hash, p: Pause, t: State, r: Option<Found>)
    requires Coherent(s) && ttl > 0 && (t, r) == Lookup(s, true, ttl, h, p)
    ensures r == SelectByHash(s.table, h) && t.table == s.table && Coherent(t)
  {
    var s1 := s.(now := s.now + p.a);
    WaitingKeepsCoherence(s, p.a);
    LookupSplits(s, ttl, h, p);
    if IsHit(s, h, s1.now) {
      HitIsSelect(s1, h, s1.now);
    } else {
      WaitingKeepsCoherence(s1, p.b);
      MissIsSelect(s1.(now := s1.now + p.b), ttl, h, p, t, r);
    }
  }

  // ---- what the cache is for ----

  /** After the two SETs the row is served from the cache until the ttl has passed. */
  lemma FillServes(s: State, ttl: int, row: Row, d1: nat, d2: nat, at: int)
    requires s.now + d1 <= at < s.now + d1 + ttl
    ensures
      var t := Fill(s, ttl, Projection(row), row.hash, d1, d2);
      IsHit(t, row.hash, at)
      && t.redis[HashKey(row.hash)].value == Json(Cached(row.id, row.user, row.active, row.rate))
  {
  }

  /** A lookup that had to ask the table, and found a row, leaves it in the cache for the full ttl. */
  lemma MissFillsTheCache(s: State, ttl: int, h: Hash, p: Pause, at: int)
    requires Coherent(s) && ttl > 0 && !IsHit(s, h, s.now + p.a) && HasHash(s.table, h)
    requires s.now + p.a + p.b + p.c <= at < s.now + p.a + p.b + p.c + ttl
    ensures IsHit(Lookup(s, true, ttl, h, p).0, h, at)
  {
    LookupSplits(s, ttl, h, p);
    var s2 := s.(now := s.now + p.a + p.b);
    var f := SelectByHash(s.table, h).value;
    FillServes(s2, ttl, s.table.rows[f.id], p.c, p.d, at);
  }

  /** So does a create; the new key's first lookup needs no query. */
  lemma CreateFillsTheCache(s: State, ttl: int, params: Params, p: Pause, at: int)
    requires ttl > 0 && Create(s, true, ttl, params, p).1.Some?
    requires s.now + p.a + p.b <= at < s.now + p.a + p.b + ttl
    ensures IsHit(Create(s, true, ttl, params, p).0, params.hash, at)
  {
    var (t, r) := Insert(s.table, params);
    FillServes(s.(table := t, now := s.now + p.a), ttl, r.value, p.b, p.c, at);
  }

  /** A hit asks neither the table nor Redis again, and takes no time beyond the one command. */
  lemma HitIsOneCommand(s: State, ttl: int, h: Hash, p: Pause)
    requires WellFormed(s.table) && IsHit(s, h, s.now + p.a)
    ensures Lookup(s, true, ttl, h, p).0 == s.(now := s.now + p.a)
  {
    LookupSplits(s, ttl, h, p);
  }

  lemma CreateIsInsert(s: State, ttl: int, params: Params, p: Pause)
    requires Coherent(s) && ttl > 0
    requires !HasHash(s.table, params.hash)
    ensures Create(s, true, ttl, params, p).1 == Insert(s.table, params).1
    ensures Create(s, true, ttl, params, p).0.table == Insert(s.table, params).0
    ensures Coherent(Create(s, true, ttl, params, p).0)
  {
    var (t, r) := Insert(s.table, params);
    var s1 := s.(table := t, now := s.now + p.a);
    if r.Some? {
      FillKeepsCoherence(s1, ttl, r.value, p.b, p.c);
    }
  }

  /** What TTL dominance is for: once the reverse entry of an id is gone, so is every live forward
      entry that would still answer with that id. */
  lemma NoReverseNoForward(s: State, id: int, at: int, k: Key)
    requires Coherent(s) && at >= s.now
    requires !Live(s.redis, ById(id), at)
    requires k.ByHash? && Live(s.redis, k, at)
    ensures s.redis[k].value.Json? && s.redis[k].value.row.id != id
  {
    assert Truthful(s, k) && Dominated(s, k);
  }

  lemma RemoveIsDelete(s: State, user: int, id: int, p: Pause)
    requires Coherent(s)
    ensures Remove(s, true, user, id, p).table == Delete(s.table, user, id)
    ensures Coherent(Remove(s, true, user, id, p))
  {
    var s1 := s.(table := Delete(s.table, user, id), now := s.now + p.a);
    var (s2, reply) := Issue(s1, p.b, Get(ById(id)));
    var s' := Remove(s, true, user, id, p);
    forall k | k in s'.redis && k.ByHash? && s'.now < s'.redis[k].expiry
      ensures s'.redis[k].value.Json? && Truthful(s', k) && Dominated(s', k)
    {
      assert Truthful(s, k) && Dominated(s, k);
    }
  }

  // ---- whole runs: a cached repository against a bare table ----

  datatype Op =
    | CreateOp(params: Params, pause: Pause)
    | LookupOp(hash: Hash, pause: Pause)
    | DeleteOp(user: int, id: int, pause: Pause)
    | TouchOp(id: int, at: int)

  datatype Answer = Created(row: Row) | LabelExists | Match(found: Found) | NoRows | Ok

  function CreateAnswer(r: Option<Row>): Answer {
    if r.Some? then Created(r.value) else LabelExists
  }

  function LookupAnswer(r: Option<Found>): Answer {
    if r.Some? then Match(r.value) else NoRows
  }

  function Step(s: State, cached: bool, ttl: int, op: Op): (State, Answer)
    requires WellFormed(s.table)
  {
    match op
    case CreateOp(params, p) =>
      var (s', r) := Create(s, cached, ttl, params, p); (s', CreateAnswer(r))
    case LookupOp(h, p) =>
      var (s', r) := Lookup(s, cached, ttl, h, p); (s', LookupAnswer(r))
    case DeleteOp(user, id, p) => (Remove(s, cached, user, id, p), Ok)
    case TouchOp(id, at) => (s.(table := Touch(s.table, id, at)), Ok)
  }

  /** The same operation on the table alone: no cache, no clock. */
  function TableStep(t: Table, op: Op): (Table, Answer)
    requires WellFormed(t)
  {
    match op
    case CreateOp(params, _) => (Insert(t, params).0, CreateAnswer(Insert(t, params).1))
    case LookupOp(h, _) => (t, LookupAnswer(SelectByHash(t, h)))
    case DeleteOp(user, id, _) => (Delete(t, user, id), Ok)
    case TouchOp(id, at) => (Touch(t, id, at), Ok)
  }

  /** A generated key never hashes to a hash already in the table. */
  predicate Fresh(t: Table, op: Op) {
    op.CreateOp? ==> !HasHash(t, op.params.hash)
  }

  lemma TableStepKeepsWellFormed(t: Table, op: Op)
    requires WellFormed(t) && Fresh(t, op)
    ensures WellFormed(TableStep(t, op).0)
  {
  }

  ghost predicate FreshRun(t: Table, ops: seq<Op>)
    requires WellFormed(t)
    decreases |ops|
  {
    ops == [] ||
    (Fresh(t, ops[0]) && (TableStepKeepsWellFormed(t, ops[0]);
                          FreshRun(TableStep(t, ops[0]).0, ops[1..])))
  }

  ghost function TableAnswers(t: Table, ops: seq<Op>): seq<Answer>
    requires WellFormed(t) && FreshRun(t, ops)
    decreases |ops|
  {
    if ops == [] then []
    else
      TableStepKeepsWellFormed(t, ops[0]);
      [TableStep(t, ops[0]).1] + TableAnswers(TableStep(t, ops[0]).0, ops[1..])
  }

  lemma StepRefinesTable(s: State, cached: bool, ttl: int, op: Op)
    requires WellFormed(s.table) && Fresh(s.table, op) && ttl > 0
    requires cached ==> Coherent(s)
    ensures Step(s, cached, ttl, op).0.table == TableStep(s.table, op).0
    ensures Step(s, cached, ttl, op).1 == TableStep(s.table, op).1
    ensures cached ==> Coherent(Step(s, cached, ttl, op).0)
  {
    if cached {
      match op
      case CreateOp(params, p) => CreateIsInsert(s, ttl, params, p);
      case LookupOp(h, p) =>
        var (t, r) := Lookup(s, true, ttl, h, p);
        LookupIsSelect(s, ttl, h, p, t, r);
      case DeleteOp(user, id, p) => RemoveIsDelete(s, user, id, p);
      case TouchOp(id, at) =>
        var s' := Step(s, true, ttl, op).0;
        assert forall k | k in s'.redis && k.ByHash? && s'.now < s'.redis[k].expiry ::
            Truthful(s, k) && Dominated(s, k);
    }
  }

  ghost function Answers(s: State, cached: bool, ttl: int, ops: seq<Op>): seq<Answer>
    requires WellFormed(s.table) && FreshRun(s.table, ops) && ttl > 0
    requires cached ==> Coherent(s)
    decreases |ops|
  {
    if ops == [] then []
    else
      StepRefinesTable(s, cached, ttl, ops[0]);
      TableStepKeepsWellFormed(s.table, ops[0]);
      [Step(s, cached, ttl, ops[0]).1] + Answers(Step(s, cached, ttl, ops[0]).0, cached, ttl, ops[1..])
  }

  lemma {:induction false} RunRefinesTable(s: State, cached: bool, ttl: int, ops: seq<Op>)
    requires WellFormed(s.table) && FreshRun(s.table, ops) && ttl > 0
    requires cached ==> Coherent(s)
    ensures Answers(s, cached, ttl, ops) == TableAnswers(s.table, ops)
    decreases |ops|
  {
    if ops != [] {
      StepRefinesTable(s, cached, ttl, ops[0]);
      TableStepKeepsWellFormed(s.table, ops[0]);
      RunRefinesTable(Step(s, cached, ttl, ops[0]).0, cached, ttl, ops[1..]);
    }
  }

  /** A repository with a cache and one with a nil client cannot be told apart, whatever the
      operations and however long the clock runs between their commands. */
  lemma CacheIsInvisible(s: State, bare: State, ttl: int, ops: seq<Op>)
    requires Coherent(s) && bare.table == s.table
    requires FreshRun(s.table, ops) && ttl > 0
    ensures Answers(s, true, ttl, ops) == Answers(bare, false, ttl, ops)
  {
    RunRefinesTable(s, true, ttl, ops);
    RunRefinesTable(bare, false, ttl, ops);
  }

  ghost function Final(s: State, ttl: int, ops: seq<Op>): State
    requires Coherent(s) && FreshRun(s.table, ops) && ttl > 0
    decreases |ops|
  {
    if ops == [] then s
    else
      StepRefinesTable(s, true, ttl, ops[0]);
      Final(Step(s, true, ttl, ops[0]).0, ttl, ops[1..])
  }

  /** TTL dominance in every reachable state, from an empty cache over any well-formed table. */
  lemma {:induction false} DominanceAlwaysHolds(s: State, ttl: int, ops: seq<Op>)
    requires Coherent(s) && FreshRun(s.table, ops) && ttl > 0
    ensures Coherent(Final(s, ttl, ops))
    decreases |ops|
  {
    if ops != [] {
      StepRefinesTable(s, true, ttl, ops[0]);
      DominanceAlwaysHolds(Step(s, true, ttl, ops[0]).0, ttl, ops[1..]);
    }
  }

  // ---- the repository object ----

  class Repository {
    const ttl: int
    const cached: bool
    var table: Table
    var redis: Store<Key>
    var now: int

    ghost function Abs(): State
      reads this
    {
      State(table, redis, now)
    }

    ghost predicate Valid()
      reads this
    {
      Coherent(Abs()) && ttl > 0 && (!cached ==> redis == map[])
    }

    constructor (ttl: int, cached: bool)
      requires ttl > 0
      ensures Valid() && table == EMPTY && this.ttl == ttl && this.cached == cached
    {
      this.ttl, this.cached := ttl, cached;
      table, redis, now := EMPTY, map[], 0;
    }

    method Send(delay: nat, c: Command<Key>) returns (reply: Reply)
      modifies this`redis, this`now
      ensures (Abs(), reply) == Issue(old(Abs()), delay, c)
    {
      now := now + delay;
      var e := Exec(redis, now, c);
      redis := e.store;
      reply := e.reply;
    }

    /** Forward entry first: a reverse entry never expires before it. */
    method SetBoth(row: Cached, h: Hash, d1: nat, d2: nat)
      modifies this`redis, this`now
      ensures Abs() == Fill(old(Abs()), ttl, row, h, d1, d2)
    {
      var _ := Send(d1, Set(HashKey(h), Json(row), ttl));
      var _ := Send(d2, Set(ById(row.id), Text(HexEncode(h)), ttl));
    }

    method GetAPIKeyByHash(h: Hash, p: Pause) returns (r: Option<Found>)
      requires Valid()
      modifies this`redis, this`now
      ensures Valid()
      ensures r.Some? <==> exists k | k in table.rows :: table.rows[k].hash == h
      ensures forall k | k in table.rows && table.rows[k].hash == h ::
                r == Some(Found(k, table.rows[k].user, h, table.rows[k].active, table.rows[k].rate))
      ensures (Abs(), r) == Lookup(old(Abs()), cached, ttl, h, p)
    {
      ghost var before := Abs();
      if cached {
        LookupSplits(before, ttl, h, p);
        var reply := Send(p.a, Get(HashKey(h)));
        if reply.Val? && reply.value.Json? {
          r := Some(FoundCached(reply.value.row, h));
          LookupIsSelect(before, ttl, h, p, Abs(), r);
          return;
        }
      }
      now := now + p.b;
      r := ReadThrough(h, p);
      if cached {
        LookupIsSelect(before, ttl, h, p, Abs(), r);
      } else {
        WaitingKeepsCoherence(before, p.b);
      }
    }

    /** The query, and on success the two entries for the next lookup. */
    method ReadThrough(h: Hash, p: Pause) returns (r: Option<Found>)
      requires WellFormed(table)
      modifies this`redis, this`now
      ensures (Abs(), r) == Miss(old(Abs()), cached, ttl, h, p)
    {
      r := SelectByHash(table, h);
      if r.Some? && cached {
        SetBoth(Project(r.value), h, p.c, p.d);
      }
    }

    method CreateAPIKey(params: Params, p: Pause) returns (r: Option<Row>)
      requires Valid() && !HasHash(table, params.hash)
      modifies this
      ensures Valid()
      ensures r.None? <==> params.keyLabel.Some? && exists k | k in old(table).rows ::
                old(table).rows[k].user == params.user && old(table).rows[k].keyLabel == params.keyLabel
      ensures r.None? ==> table.rows == old(table).rows
      ensures r.Some? ==> r.value == Row(old(table).nextId, params.user, params.hash, params.keyLabel,
                                         true, params.rate)
                          && table.rows == old(table).rows[r.value.id := r.value]
      ensures (table, r) == Insert(old(table), params)
      ensures (Abs(), r) == Create(old(Abs()), cached, ttl, params, p)
    {
      if cached {
        CreateIsInsert(Abs(), ttl, params, p);
      }
      var (t, row) := Insert(table, params);
      table, r, now := t, row, now + p.a;
      if r.Some? && cached {
        SetBoth(Projection(r.value), params.hash, p.b, p.c);
      }
    }

    method DeleteAPIKey(user: int, id: int, p: Pause)
      requires Valid()
      modifies this
      ensures Valid()
      ensures forall k :: k in table.rows <==>
                k in old(table).rows && !(k == id && old(table).rows[k].user == user)
      ensures forall k | k in table.rows :: table.rows[k] == old(table).rows[k]
      ensures table == Delete(old(table), user, id)
      ensures Abs() == Remove(old(Abs()), cached, user, id, p)
    {
      if cached {
        RemoveIsDelete(Abs(), user, id, p);
      }
      table, now := Delete(table, user, id), now + p.a;
      if cached {
        var reply := Send(p.b, Get(ById(id)));
        if reply.Val? && reply.value.Text? {
          var _ := Send(p.c, Del(ById(id)));
          var _ := Send(p.d, Del(ByHash(reply.value.text)));
        }
      }
    }

    method UpdateAPIKeyLastUsed(id: int, at: int)
      requires Valid()
      modifies this`table
      ensures Valid()
      ensures table.rows == old(table).rows
      ensures id in table.rows ==> id in table.lastUsed && table.lastUsed[id] == at
      ensures forall k | k != id && k in old(table).lastUsed ::
                k in table.lastUsed && table.lastUsed[k] == old(table).lastUsed[k]
      ensures table == Touch(old(table), id, at)
    {
      ghost var before := Abs();
      table := Touch(table, id, at);
      if cached {
        StepRefinesTable(before, true, ttl, TouchOp(id, at));
      }
    }
  }
}
