/** When a delete takes effect at once. Deletion reaches the cached row only through the reverse
    entry, so a key may survive its own deletion without any command failing. */
module DeleteRaces {
  import opened Text
  import opened RedisKeys
  import opened Redis
  import opened KeyTable
  import opened CacheProtocol
  import opened CacheStaleness

  /** The hex text of the hash that key `id` was created with. */
  ghost function Hex(s: State, id: int): string
    requires id in s.history
  {
    HexEncode(s.history[id].hash)
  }

  /** The reverse entry leads to the forward entry and outlives it. */
  ghost predicate Covered(s: State, id: int, hex: string) {
    && ById(id) in s.redis && s.redis[ById(id)].value == Text(hex)
    && (ByHash(hex) in s.redis ==> s.redis[ById(id)].expiry >= s.redis[ByHash(hex)].expiry)
  }

  ghost predicate InCache(s: State, hex: string) {
    Live(s.redis, ByHash(hex), s.now)
  }

  /** No call is about to write the row into the cache. */
  ghost predicate Unheld(s: State, id: int) {
    forall c | c in s.calls :: !Holds(s.calls[c], id)
  }

  /** The row is not in the cache and no call is about to put it there. */
  ghost predicate Absent(s: State, id: int, hex: string) {
    Unheld(s, id) && !InCache(s, hex)
  }

  /** No call is about to write the row into the cache, the reverse entry leads to the row that may be
      there, and no other delete of the key is under way that could take it away first. */
  ghost predicate Settled(s: State, d: nat, id: int, hex: string) {
    Unheld(s, id) && Covered(s, id, hex) && Sole(s, d, id)
  }

  /** A step of another delete of the same key. */
  predicate Rivals(pc: Pc, id: int) {
    match pc
    case DeleteRow(_, i) => i == id
    case GetReverse(i) => i == id
    case DropReverse(i, _) => i == id
    case _ => false
  }

  /** Call `d` is deleting key `id`, and no other call is. */
  ghost predicate Sole(s: State, d: nat, id: int) {
    d in s.calls && forall c | c in s.calls && c != d :: !Rivals(s.calls[c], id)
  }

  /** Call `d` has just removed the row of key `id`. */
  ghost predicate Committed(s: State, d: nat, id: int) {
    && d in s.calls && s.calls[d] == GetReverse(id)
    && id in s.history && id !in s.table.rows
  }

  // ---- a settled delete is immediate ----

  /** How far the delete has got decides why the cached row will not outlive it. */
  ghost predicate Doomed(s: State, d: nat, id: int, hex: string)
    requires d in s.calls
  {
    match s.calls[d]
    case GetReverse(_) => Covered(s, id, hex)
    case DropReverse(_, x) => x == hex
    case DropForward(x) => x == hex
    case _ => false
  }

  predicate Deleting(pc: Pc, id: int) {
    match pc
    case GetReverse(i) => i == id
    case DropReverse(i, _) => i == id
    case DropForward(_) => true
    case Returned(_, _) => true
    case _ => false
  }

  ghost predicate Vanishing(s: State, d: nat, id: int, hex: string) {
    && id !in s.table.rows && id < s.table.nextId
    && id in s.history && hex == Hex(s, id)
    && Unheld(s, id)
    && Sole(s, d, id) && Deleting(s.calls[d], id)
    && (InCache(s, hex) ==> Doomed(s, d, id, hex))
  }

  /** What a step of another call has to show. */
  lemma MoveKeepsVanishing(s: State, t: State, d: nat, id: int, hex: string, c: nat)
    requires Vanishing(s, d, id, hex) && c != d && t.now >= s.now
    requires id !in t.table.rows && id < t.table.nextId && id in t.history && t.history[id] == s.history[id]
    requires s.calls.Keys <= t.calls.Keys
    requires forall x | x in t.calls && x != c :: x in s.calls && t.calls[x] == s.calls[x]
    requires c in t.calls ==> !Holds(t.calls[c], id) && !Rivals(t.calls[c], id)
    requires ByHash(hex) in t.redis ==> ByHash(hex) in s.redis && t.redis[ByHash(hex)] == s.redis[ByHash(hex)]
    requires ByHash(hex) in t.redis && Covered(s, id, hex) ==> Covered(t, id, hex)
    ensures Vanishing(t, d, id, hex)
  {
  }

  /** The forward entry of a hash is the row that was inserted with it. */
  lemma ForwardIsRow(s: State, ttl: int, id: int)
    requires Inv(s, ttl) && id in s.history && HashKey(s.history[id].hash) in s.redis
    ensures s.redis[HashKey(s.history[id].hash)].value == Json(Projection(s.history[id]))
  {
    var k := HashKey(s.history[id].hash);
    assert EntryKnown(s, ttl, k);
    HashKeyInjective(s.history[s.redis[k].value.row.id].hash, s.history[id].hash);
  }

  lemma ForwardFilledKeepsVanishing(s: State, t: State, ttl: int, d: nat, id: int, hex: string, c: nat,
      row: Row, outcome: Result, seen: int, fate: Fate)
    requires Inv(s, ttl) && Vanishing(s, d, id, hex) && c != d
    requires c in s.calls && s.calls[c] == FillForward(row, outcome, seen)
    requires t == ForwardFilled(s, ttl, c, row, outcome, seen, fate)
    ensures Vanishing(t, d, id, hex)
  {
    assert CallKnown(s, c);
    assert !Holds(s.calls[c], id);
    if HashKey(row.hash) == ByHash(hex) {
      HashKeyInjective(row.hash, s.history[id].hash);
      assert false;
    }
    MoveKeepsVanishing(s, t, d, id, hex, c);
  }

  lemma ReverseFilledKeepsVanishing(s: State, t: State, ttl: int, d: nat, id: int, hex: string, c: nat,
      row: Row, outcome: Result, seen: int, fate: Fate)
    requires Inv(s, ttl) && Vanishing(s, d, id, hex) && c != d
    requires c in s.calls && s.calls[c] == FillReverse(row, outcome, seen)
    requires t == ReverseFilled(s, ttl, c, row, outcome, seen, fate)
    ensures Vanishing(t, d, id, hex)
  {
    assert CallKnown(s, c);
    assert ByHash(hex) in s.redis ==> EntryKnown(s, ttl, ByHash(hex));
    MoveKeepsVanishing(s, t, d, id, hex, c);
  }

  lemma ForwardReadKeepsVanishing(s: State, t: State, d: nat, id: int, hex: string, c: nat, h: Hash, fate: Fate)
    requires Vanishing(s, d, id, hex) && c != d && c in s.calls && t == ForwardRead(s, c, h, fate)
    ensures Vanishing(t, d, id, hex)
  {
    MoveKeepsVanishing(s, t, d, id, hex, c);
  }

  lemma SelectedKeepsVanishing(s: State, t: State, d: nat, id: int, hex: string, c: nat,
      h: Hash, seen: int, fate: Fate)
    requires WellFormed(s.table) && Vanishing(s, d, id, hex) && c != d && c in s.calls
    requires t == Selected(s, c, h, seen, fate)
    ensures Vanishing(t, d, id, hex)
  {
    var r := AnyRow(s.table, h);
    assert r.Some? ==> r.value.id in s.table.rows;
    MoveKeepsVanishing(s, t, d, id, hex, c);
  }

  lemma ReverseReadKeepsVanishing(s: State, t: State, d: nat, id: int, hex: string, c: nat, key: int, fate: Fate)
    requires Vanishing(s, d, id, hex) && c != d && c in s.calls && key != id
    requires t == ReverseRead(s, c, key, fate)
    ensures Vanishing(t, d, id, hex)
  {
    MoveKeepsVanishing(s, t, d, id, hex, c);
  }

  lemma DeletedKeepsVanishing(s: State, t: State, d: nat, id: int, hex: string, c: nat,
      user: int, key: int, fate: Fate)
    requires Vanishing(s, d, id, hex) && c != d && c in s.calls && key != id
    requires t == Deleted(s, c, user, key, fate)
    ensures Vanishing(t, d, id, hex)
  {
    MoveKeepsVanishing(s, t, d, id, hex, c);
  }

  lemma StoredKeepsVanishing(s: State, t: State, d: nat, id: int, hex: string, c: nat, p: Params, fate: Fate)
    requires Vanishing(s, d, id, hex) && c != d && c in s.calls && t == Stored(s, c, p, fate)
    ensures Vanishing(t, d, id, hex)
  {
    MoveKeepsVanishing(s, t, d, id, hex, c);
  }

  lemma InsertedKeepsVanishing(s: State, t: State, d: nat, id: int, hex: string, c: nat, p: Params, fate: Fate)
    requires Vanishing(s, d, id, hex) && c != d && c in s.calls && t == Inserted(s, c, p, fate)
    ensures Vanishing(t, d, id, hex)
  {
    if fate == Lost || LabelTaken(s.table, p) {
      MoveKeepsVanishing(s, t, d, id, hex, c);
    } else {
      StoredKeepsVanishing(s, t, d, id, hex, c, p, fate);
    }
  }

  lemma DropKeepsVanishing(s: State, t: State, d: nat, id: int, hex: string, c: nat, k: Key, pc: Pc, fate: Fate)
    requires Vanishing(s, d, id, hex) && c != d && c in s.calls && k != ById(id)
    requires pc.DropForward? || pc.Returned?
    requires t == Goto(Attempt(s, fate, Del(k)), c, pc)
    ensures Vanishing(t, d, id, hex)
  {
    MoveKeepsVanishing(s, t, d, id, hex, c);
  }

  lemma OthersKeepVanishing(s: State, t: State, ttl: int, d: nat, id: int, hex: string, c: nat, fate: Fate)
    requires Inv(s, ttl) && Vanishing(s, d, id, hex) && c != d && InFlight(s, c)
    requires t == Advanced(s, ttl, c, fate)
    ensures Vanishing(t, d, id, hex)
  {
    assert !Rivals(s.calls[c], id);
    match s.calls[c]
    case GetForward(h) => ForwardReadKeepsVanishing(s, t, d, id, hex, c, h, fate);
    case Select(h, seen) => SelectedKeepsVanishing(s, t, d, id, hex, c, h, seen, fate);
    case GetReverse(key) => ReverseReadKeepsVanishing(s, t, d, id, hex, c, key, fate);
    case DeleteRow(user, key) => DeletedKeepsVanishing(s, t, d, id, hex, c, user, key, fate);
    case InsertRow(p) => InsertedKeepsVanishing(s, t, d, id, hex, c, p, fate);
    case FillForward(row, outcome, seen) =>
      ForwardFilledKeepsVanishing(s, t, ttl, d, id, hex, c, row, outcome, seen, fate);
    case FillReverse(row, outcome, seen) =>
      ReverseFilledKeepsVanishing(s, t, ttl, d, id, hex, c, row, outcome, seen, fate);
    case DropReverse(i, x) => DropKeepsVanishing(s, t, d, id, hex, c, ById(i), DropForward(x), fate);
    case DropForward(x) => DropKeepsVanishing(s, t, d, id, hex, c, ByHash(x), Returned(Removed, s.now), fate);
  }

  /** What a step of the delete has to show. */
  lemma OwnMoveKeepsVanishing(s: State, t: State, d: nat, id: int, hex: string)
    requires Vanishing(s, d, id, hex)
    requires t.table == s.table && t.history == s.history && t.calls.Keys == s.calls.Keys
    requires forall x | x in s.calls && x != d :: t.calls[x] == s.calls[x]
    requires Deleting(t.calls[d], id) && (InCache(t, hex) ==> Doomed(t, d, id, hex))
    ensures Vanishing(t, d, id, hex)
  {
    assert forall c | c in t.calls && c != d :: !Holds(s.calls[c], id) && !Rivals(s.calls[c], id);
  }

  lemma OwnReadKeepsVanishing(s: State, t: State, d: nat, id: int, hex: string)
    requires Vanishing(s, d, id, hex) && s.calls[d] == GetReverse(id) && t == ReverseRead(s, d, id, Heard)
    ensures Vanishing(t, d, id, hex)
  {
    OwnMoveKeepsVanishing(s, t, d, id, hex);
  }

  lemma OwnDropKeepsVanishing(s: State, t: State, d: nat, id: int, hex: string, k: Key, pc: Pc)
    requires Vanishing(s, d, id, hex) && t == Goto(Attempt(s, Heard, Del(k)), d, pc)
    requires (s.calls[d].DropReverse? && pc == DropForward(s.calls[d].hex))
             || (s.calls[d].DropForward? && k == ByHash(s.calls[d].hex) && pc == Returned(Removed, s.now))
    ensures Vanishing(t, d, id, hex)
  {
    OwnMoveKeepsVanishing(s, t, d, id, hex);
  }

  /** The delete itself, when its commands are carried out. */
  lemma DeleteKeepsVanishing(s: State, t: State, ttl: int, d: nat, id: int, hex: string)
    requires Vanishing(s, d, id, hex) && InFlight(s, d) && t == Advanced(s, ttl, d, Heard)
    ensures Vanishing(t, d, id, hex)
  {
    match s.calls[d]
    case GetReverse(_) => OwnReadKeepsVanishing(s, t, d, id, hex);
    case DropReverse(i, x) => OwnDropKeepsVanishing(s, t, d, id, hex, ById(i), DropForward(x));
    case DropForward(x) => OwnDropKeepsVanishing(s, t, d, id, hex, ByHash(x), Returned(Removed, s.now));
  }

  /** What may happen while and after the delete runs: whether commands may fail, and whether other
      deletes of the same key may begin, by its owner or by anyone else. */
  datatype Conditions = Conditions(failures: bool, rivals: bool)

  const CALM := Conditions(false, false)

  ghost predicate Permitted(a: Action, id: int, k: Conditions) {
    match a
    case Tick(_) => true
    case Begin(_, r) => k.rivals || !(r.Remove? && r.id == id)
    case Advance(_, fate) => k.failures || fate == Heard
  }

  lemma StepKeepsVanishing(s: State, ttl: int, d: nat, id: int, hex: string, a: Action)
    requires Inv(s, ttl) && Vanishing(s, d, id, hex) && Enabled(s, a) && Permitted(a, id, CALM)
    ensures Vanishing(Next(s, ttl, a), d, id, hex)
  {
    var t := Next(s, ttl, a);
    match a
    case Tick(_) => MoveKeepsVanishing(s, t, d, id, hex, d + 1);
    case Begin(c, _) => MoveKeepsVanishing(s, t, d, id, hex, c);
    case Advance(c, fate) =>
      if c == d {
        DeleteKeepsVanishing(s, t, ttl, d, id, hex);
      } else {
        OthersKeepVanishing(s, t, ttl, d, id, hex, c, fate);
      }
  }

  // ---- a row that is gone stays gone ----

  ghost predicate Gone(s: State, id: int, hex: string) {
    && id !in s.table.rows && id < s.table.nextId
    && id in s.history && hex == Hex(s, id)
    && Absent(s, id, hex)
  }

  lemma MoveKeepsGone(s: State, t: State, id: int, hex: string, c: nat)
    requires Gone(s, id, hex) && t.now >= s.now
    requires id !in t.table.rows && id < t.table.nextId && id in t.history && t.history[id] == s.history[id]
    requires forall x | x in t.calls && x != c :: x in s.calls && t.calls[x] == s.calls[x]
    requires c in t.calls ==> !Holds(t.calls[c], id)
    requires ByHash(hex) in t.redis ==> ByHash(hex) in s.redis && t.redis[ByHash(hex)] == s.redis[ByHash(hex)]
    ensures Gone(t, id, hex)
  {
  }

  lemma SelectedKeepsGone(s: State, t: State, id: int, hex: string, c: nat, h: Hash, seen: int, fate: Fate)
    requires WellFormed(s.table) && Gone(s, id, hex) && t == Selected(s, c, h, seen, fate)
    ensures Gone(t, id, hex)
  {
    var r := AnyRow(s.table, h);
    assert r.Some? ==> r.value.id in s.table.rows;
    MoveKeepsGone(s, t, id, hex, c);
  }

  lemma ReadKeepsGone(s: State, t: State, ttl: int, id: int, hex: string, c: nat, fate: Fate)
    requires Gone(s, id, hex) && InFlight(s, c) && t == Advanced(s, ttl, c, fate)
    requires s.calls[c].GetForward? || s.calls[c].GetReverse? || s.calls[c].DeleteRow?
    ensures Gone(t, id, hex)
  {
    MoveKeepsGone(s, t, id, hex, c);
  }

  lemma ForwardFilledKeepsGone(s: State, t: State, ttl: int, id: int, hex: string, c: nat,
      row: Row, outcome: Result, seen: int, fate: Fate)
    requires Inv(s, ttl) && Gone(s, id, hex) && c in s.calls && s.calls[c] == FillForward(row, outcome, seen)
    requires t == ForwardFilled(s, ttl, c, row, outcome, seen, fate)
    ensures Gone(t, id, hex)
  {
    assert CallKnown(s, c) && !Holds(s.calls[c], id);
    if HashKey(row.hash) == ByHash(hex) {
      HashKeyInjective(row.hash, s.history[id].hash);
      assert false;
    }
    MoveKeepsGone(s, t, id, hex, c);
  }

  lemma WriteKeepsGone(s: State, t: State, ttl: int, id: int, hex: string, c: nat, fate: Fate)
    requires Gone(s, id, hex) && InFlight(s, c) && t == Advanced(s, ttl, c, fate)
    requires s.calls[c].FillReverse? || s.calls[c].DropReverse? || s.calls[c].DropForward?
    ensures Gone(t, id, hex)
  {
    MoveKeepsGone(s, t, id, hex, c);
  }

  lemma StoredKeepsGone(s: State, t: State, id: int, hex: string, c: nat, p: Params, fate: Fate)
    requires Gone(s, id, hex) && t == Stored(s, c, p, fate)
    ensures Gone(t, id, hex)
  {
    MoveKeepsGone(s, t, id, hex, c);
  }

  lemma InsertedKeepsGone(s: State, t: State, id: int, hex: string, c: nat, p: Params, fate: Fate)
    requires Gone(s, id, hex) && t == Inserted(s, c, p, fate)
    ensures Gone(t, id, hex)
  {
    if fate == Lost || LabelTaken(s.table, p) {
      MoveKeepsGone(s, t, id, hex, c);
    } else {
      StoredKeepsGone(s, t, id, hex, c, p, fate);
    }
  }

  /** Whatever the fate of the command. */
  lemma AdvancedKeepsGone(s: State, t: State, ttl: int, id: int, hex: string, c: nat, fate: Fate)
    requires Inv(s, ttl) && Gone(s, id, hex) && InFlight(s, c) && t == Advanced(s, ttl, c, fate)
    ensures Gone(t, id, hex)
  {
    var pc := s.calls[c];
    if pc.Select? {
      SelectedKeepsGone(s, t, id, hex, c, pc.hash, pc.seen, fate);
    } else if pc.FillForward? {
      ForwardFilledKeepsGone(s, t, ttl, id, hex, c, pc.row, pc.outcome, pc.seen, fate);
    } else if pc.InsertRow? {
      InsertedKeepsGone(s, t, id, hex, c, pc.params, fate);
    } else if pc.GetForward? || pc.GetReverse? || pc.DeleteRow? {
      ReadKeepsGone(s, t, ttl, id, hex, c, fate);
    } else {
      WriteKeepsGone(s, t, ttl, id, hex, c, fate);
    }
  }

  /** Whatever the step. */
  lemma StepKeepsGone(s: State, t: State, ttl: int, id: int, hex: string, a: Action)
    requires ttl > 0 && Inv(s, ttl) && Gone(s, id, hex) && Steps(s, ttl, a, t)
    ensures Inv(t, ttl) && Gone(t, id, hex)
  {
    NextKeepsInv(s, ttl, a);
    match a
    case Tick(_) => MoveKeepsGone(s, t, id, hex, 0);
    case Begin(c, _) => MoveKeepsGone(s, t, id, hex, c);
    case Advance(c, fate) => AdvancedKeepsGone(s, t, ttl, id, hex, c, fate);
  }

  lemma StepOf(states: seq<State>, actions: seq<Action>, ttl: int, n: nat)
    requires Stretch(states, actions, ttl) && 0 < n < |states|
    ensures Steps(states[n - 1], ttl, actions[n - 1], states[n])
  {
    var i := n - 1;
    assert Steps(states[i], ttl, actions[i], states[i + 1]);
  }

  lemma GoneNext(states: seq<State>, actions: seq<Action>, ttl: int, id: int, hex: string, n: nat)
    requires ttl > 0 && Stretch(states, actions, ttl) && 0 < n < |states|
    requires Inv(states[n - 1], ttl) && Gone(states[n - 1], id, hex)
    ensures Inv(states[n], ttl) && Gone(states[n], id, hex)
  {
    StepOf(states, actions, ttl, n);
    StepKeepsGone(states[n - 1], states[n], ttl, id, hex, actions[n - 1]);
  }

  lemma {:induction false} GoneOnward(states: seq<State>, actions: seq<Action>, ttl: int,
      id: int, hex: string, i: nat, n: nat)
    requires ttl > 0 && Stretch(states, actions, ttl) && i <= n < |states|
    requires Inv(states[i], ttl) && Gone(states[i], id, hex)
    ensures Inv(states[n], ttl) && Gone(states[n], id, hex)
  {
    if i < n {
      GoneOnward(states, actions, ttl, id, hex, i, n - 1);
      GoneNext(states, actions, ttl, id, hex, n);
    }
  }

  // ---- lookups after the delete ----

  /** A step moves no call but its own. */
  lemma OthersStay(s: State, t: State, ttl: int, c: nat, fate: Fate, x: nat)
    requires InFlight(s, c) && t == Advanced(s, ttl, c, fate) && x in s.calls && x != c
    ensures x in t.calls && t.calls[x] == s.calls[x]
  {
    var pc := s.calls[c];
    if pc.InsertRow? {
      InsertMovesOne(s, t, c, pc.params, fate, x);
    } else if pc.GetForward? || pc.Select? || pc.GetReverse? || pc.DeleteRow? {
      ReadMovesOne(s, t, ttl, c, fate, x);
    } else {
      WriteMovesOne(s, t, ttl, c, fate, x);
    }
  }

  lemma InsertMovesOne(s: State, t: State, c: nat, p: Params, fate: Fate, x: nat)
    requires t == Inserted(s, c, p, fate) && x in s.calls && x != c
    ensures x in t.calls && t.calls[x] == s.calls[x]
  {
  }

  lemma ReadMovesOne(s: State, t: State, ttl: int, c: nat, fate: Fate, x: nat)
    requires InFlight(s, c) && t == Advanced(s, ttl, c, fate) && x in s.calls && x != c
    requires var pc := s.calls[c]; pc.GetForward? || pc.Select? || pc.GetReverse? || pc.DeleteRow?
    ensures x in t.calls && t.calls[x] == s.calls[x]
  {
  }

  lemma WriteMovesOne(s: State, t: State, ttl: int, c: nat, fate: Fate, x: nat)
    requires InFlight(s, c) && t == Advanced(s, ttl, c, fate) && x in s.calls && x != c
    requires var pc := s.calls[c]; pc.FillForward? || pc.FillReverse? || pc.DropReverse? || pc.DropForward?
    ensures x in t.calls && t.calls[x] == s.calls[x]
  {
  }

  lemma CallStays(s: State, ttl: int, a: Action, x: nat)
    requires Enabled(s, a) && x in s.calls && !(a.Advance? && a.call == x)
    ensures x in Next(s, ttl, a).calls && Next(s, ttl, a).calls[x] == s.calls[x]
  {
    if a.Advance? {
      OthersStay(s, Next(s, ttl, a), ttl, a.call, a.fate, x);
    }
  }

  /** Once the row is gone, no call that has not met the key yet ever will. */
  lemma WatchedRead(s: State, t: State, ttl: int, id: int, hex: string, x: nat, h: Hash, fate: Fate)
    requires Inv(s, ttl) && Gone(s, id, hex) && x in s.calls && t == ForwardRead(s, x, h, fate)
    ensures x in t.calls && !Answers(t.calls[x], id)
  {
    if HashKey(h) in s.redis {
      assert EntryKnown(s, ttl, HashKey(h));
    }
  }

  lemma WatchedSelect(s: State, t: State, id: int, x: nat, h: Hash, seen: int, fate: Fate)
    requires WellFormed(s.table) && id !in s.table.rows && t == Selected(s, x, h, seen, fate)
    ensures x in t.calls && !Answers(t.calls[x], id)
  {
    var r := AnyRow(s.table, h);
    assert r.Some? ==> r.value.id in s.table.rows;
  }

  lemma WatchedWrite(s: State, t: State, ttl: int, id: int, x: nat, fate: Fate)
    requires InFlight(s, x) && !Answers(s.calls[x], id) && t == Advanced(s, ttl, x, fate)
    requires var pc := s.calls[x]; pc.FillForward? || pc.FillReverse? || pc.DropReverse? || pc.DropForward?
    ensures x in t.calls && !Answers(t.calls[x], id)
  {
  }

  lemma WatchedDelete(s: State, t: State, ttl: int, id: int, x: nat, fate: Fate)
    requires InFlight(s, x) && t == Advanced(s, ttl, x, fate)
    requires s.calls[x].DeleteRow? || s.calls[x].GetReverse?
    ensures x in t.calls && !Answers(t.calls[x], id)
  {
  }

  lemma WatchedInsert(s: State, t: State, id: int, x: nat, p: Params, fate: Fate)
    requires t == Inserted(s, x, p, fate)
    ensures x in t.calls && !Answers(t.calls[x], id)
  {
  }

  lemma WatchedAdvance(s: State, t: State, ttl: int, id: int, hex: string, x: nat, fate: Fate)
    requires Inv(s, ttl) && Gone(s, id, hex)
    requires InFlight(s, x) && !Answers(s.calls[x], id) && t == Advanced(s, ttl, x, fate)
    ensures x in t.calls && !Answers(t.calls[x], id)
  {
    var pc := s.calls[x];
    if pc.GetForward? {
      WatchedRead(s, t, ttl, id, hex, x, pc.hash, fate);
    } else if pc.Select? {
      WatchedSelect(s, t, id, x, pc.hash, pc.seen, fate);
    } else if pc.InsertRow? {
      WatchedInsert(s, t, id, x, pc.params, fate);
    } else if pc.DeleteRow? || pc.GetReverse? {
      WatchedDelete(s, t, ttl, id, x, fate);
    } else {
      WatchedWrite(s, t, ttl, id, x, fate);
    }
  }

  /** Call `x` has not met the key. */
  ghost predicate Watched(s: State, id: int, x: nat) {
    x in s.calls && !Answers(s.calls[x], id)
  }

  lemma WatchedStep(s: State, t: State, ttl: int, id: int, hex: string, a: Action, x: nat)
    requires Inv(s, ttl) && Gone(s, id, hex) && Steps(s, ttl, a, t) && Watched(s, id, x)
    ensures Watched(t, id, x)
  {
    if a.Advance? && a.call == x {
      WatchedAdvance(s, t, ttl, id, hex, x, a.fate);
    } else {
      CallStays(s, ttl, a, x);
    }
  }

  lemma WatchedFirst(states: seq<State>, actions: seq<Action>, ttl: int, id: int, i: nat)
    requires Stretch(states, actions, ttl) && i < |actions| && actions[i].Begin?
    ensures Watched(states[i + 1], id, actions[i].call)
  {
    StepOf(states, actions, ttl, i + 1);
  }

  lemma WatchedNext(states: seq<State>, actions: seq<Action>, ttl: int, id: int, hex: string, i: nat, n: nat, x: nat)
    requires ttl > 0 && Stretch(states, actions, ttl) && i < n < |states|
    requires Inv(states[i], ttl) && Gone(states[i], id, hex) && Watched(states[n - 1], id, x)
    ensures Watched(states[n], id, x)
  {
    StepOf(states, actions, ttl, n);
    GoneOnward(states, actions, ttl, id, hex, i, n - 1);
    WatchedStep(states[n - 1], states[n], ttl, id, hex, actions[n - 1], x);
  }

  lemma {:induction false} WatchedOnward(states: seq<State>, actions: seq<Action>, ttl: int,
      id: int, hex: string, i: nat, n: nat)
    requires ttl > 0 && Stretch(states, actions, ttl) && i < n < |states| && actions[i].Begin?
    requires Inv(states[i], ttl) && Gone(states[i], id, hex)
    ensures Watched(states[n], id, actions[i].call)
  {
    if n == i + 1 {
      WatchedFirst(states, actions, ttl, id, i);
    } else {
      WatchedOnward(states, actions, ttl, id, hex, i, n - 1);
      WatchedNext(states, actions, ttl, id, hex, i, n, actions[i].call);
    }
  }

  // ---- when a delete is immediate ----

  /** A run that goes on from `s0` under conditions `k`. */
  ghost predicate Continuation(
      s0: State, ttl: int, id: int, k: Conditions, states: seq<State>, actions: seq<Action>)
  {
    && Stretch(states, actions, ttl) && states[0] == s0
    && forall i | 0 <= i < |actions| :: Permitted(actions[i], id, k)
  }

  /** The lookup begun in step `i`, after the delete returned, has answered with the deleted key. */
  ghost predicate StaleAt(states: seq<State>, actions: seq<Action>, d: nat, id: int, i: nat, n: nat) {
    && i < |actions| && i < n < |states| && actions[i].Begin? && actions[i].request.Lookup?
    && d in states[i].calls && states[i].calls[d].Returned?
    && var x := actions[i].call;
       x in states[n].calls && states[n].calls[x].Returned? && Answers(states[n].calls[x], id)
  }

  /** However the run goes on under conditions `k`, a lookup that begins after the delete has returned
      does not answer with the deleted key. */
  ghost predicate Immediate(s0: State, ttl: int, d: nat, id: int, k: Conditions) {
    forall states: seq<State>, actions: seq<Action>, i: nat, n: nat
      | Continuation(s0, ttl, id, k, states, actions) :: !StaleAt(states, actions, d, id, i, n)
  }

  lemma GoneIsNotStale(states: seq<State>, actions: seq<Action>, ttl: int,
      d: nat, id: int, hex: string, i: nat, n: nat)
    requires ttl > 0 && Stretch(states, actions, ttl) && i < |states|
    requires Inv(states[i], ttl) && Gone(states[i], id, hex)
    ensures !StaleAt(states, actions, d, id, i, n)
  {
    if i < n < |states| && actions[i].Begin? {
      WatchedOnward(states, actions, ttl, id, hex, i, n);
    }
  }

  /** A delete of a row that is in no cache and on no way to it is immediate whatever happens. */
  lemma AbsentIsImmediate(s0: State, ttl: int, d: nat, id: int, k: Conditions)
    requires ttl > 0 && Inv(s0, ttl) && Committed(s0, d, id) && Absent(s0, id, Hex(s0, id))
    ensures Immediate(s0, ttl, d, id, k)
  {
    var hex := Hex(s0, id);
    forall states: seq<State>, actions: seq<Action>, i: nat, n: nat
      | Continuation(s0, ttl, id, k, states, actions) ensures !StaleAt(states, actions, d, id, i, n)
    {
      if i < |states| {
        GoneOnward(states, actions, ttl, id, hex, 0, i);
        GoneIsNotStale(states, actions, ttl, d, id, hex, i, n);
      }
    }
  }

  lemma NextVanishing(s: State, t: State, ttl: int, d: nat, id: int, hex: string, a: Action)
    requires ttl > 0 && Inv(s, ttl) && Vanishing(s, d, id, hex) && Steps(s, ttl, a, t) && Permitted(a, id, CALM)
    ensures Inv(t, ttl) && Vanishing(t, d, id, hex)
  {
    NextKeepsInv(s, ttl, a);
    StepKeepsVanishing(s, ttl, d, id, hex, a);
  }

  lemma {:induction false} VanishingOnward(s0: State, ttl: int, d: nat, id: int, hex: string,
      states: seq<State>, actions: seq<Action>, n: nat)
    requires ttl > 0 && Inv(s0, ttl) && Vanishing(s0, d, id, hex)
    requires Continuation(s0, ttl, id, CALM, states, actions) && n < |states|
    ensures Inv(states[n], ttl) && Vanishing(states[n], d, id, hex)
  {
    if n > 0 {
      VanishingOnward(s0, ttl, d, id, hex, states, actions, n - 1);
      StepOf(states, actions, ttl, n);
      NextVanishing(states[n - 1], states[n], ttl, d, id, hex, actions[n - 1]);
    }
  }

  /** A settled delete is immediate as long as no command fails and no rival begins. */
  lemma SettledIsImmediate(s0: State, ttl: int, d: nat, id: int)
    requires ttl > 0 && Inv(s0, ttl) && Committed(s0, d, id) && Settled(s0, d, id, Hex(s0, id))
    ensures Immediate(s0, ttl, d, id, CALM)
  {
    var hex := Hex(s0, id);
    assert Vanishing(s0, d, id, hex);
    forall states: seq<State>, actions: seq<Action>, i: nat, n: nat
      | Continuation(s0, ttl, id, CALM, states, actions) ensures !StaleAt(states, actions, d, id, i, n)
    {
      if i < |states| && d in states[i].calls && states[i].calls[d].Returned? {
        VanishingOnward(s0, ttl, d, id, hex, states, actions, i);
        GoneIsNotStale(states, actions, ttl, d, id, hex, i, n);
      }
    }
  }
}
