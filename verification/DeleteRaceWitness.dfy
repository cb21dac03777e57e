/** The other half: how a key survives its deletion, and with it the exact condition under which it
    does not. */
module DeleteRaceWitness {
  import opened Text
  import opened Sets
  import opened RedisKeys
  import opened Redis
  import opened KeyTable
  import opened CacheProtocol
  import opened CacheStaleness
  import opened DeleteRaces

  lemma FreshCall(s: State) returns (x: nat)
    ensures x !in s.calls
  {
    x := Above(s.calls.Keys);
  }

  /** A stretch of a run under conditions `k`, from `s` to `t`. */
  ghost predicate Leads(
      s: State, ttl: int, id: int, k: Conditions, states: seq<State>, actions: seq<Action>, t: State)
  {
    Continuation(s, ttl, id, k, states, actions) && states[|actions|] == t
  }

  lemma OneStep(s: State, ttl: int, id: int, k: Conditions, a: Action, t: State)
    requires Enabled(s, a) && Permitted(a, id, k) && t == Next(s, ttl, a)
    ensures Leads(s, ttl, id, k, [s, t], [a], t)
  {
    assert Steps(s, ttl, a, t);
  }

  lemma LeadsOn(s: State, ttl: int, id: int, k: Conditions, x: seq<State>, a: seq<Action>, t: State,
      y: seq<State>, b: seq<Action>, u: State)
    requires Leads(s, ttl, id, k, x, a, t) && Leads(t, ttl, id, k, y, b, u)
    ensures Leads(s, ttl, id, k, x[..|a|] + y, a + b, u)
  {
    Join(x, a, y, b, ttl);
    assert (x[..|a|] + y)[0] == s by {
      assert |a| == 0 ==> x[..0] + y == y;
    }
  }

  ghost predicate Reaches(s: State, ttl: int, id: int, k: Conditions, t: State) {
    exists states: seq<State>, actions: seq<Action> :: Leads(s, ttl, id, k, states, actions, t)
  }

  lemma ReachesNext(s: State, ttl: int, id: int, k: Conditions, t: State, a: Action, u: State)
    requires Reaches(s, ttl, id, k, t) && Enabled(t, a) && Permitted(a, id, k) && u == Next(t, ttl, a)
    ensures Reaches(s, ttl, id, k, u)
  {
    var states, actions :| Leads(s, ttl, id, k, states, actions, t);
    OneStep(t, ttl, id, k, a, u);
    LeadsOn(s, ttl, id, k, states, actions, t, [t, u], [a], u);
  }

  lemma ReachesItself(s: State, ttl: int, id: int, k: Conditions)
    ensures Reaches(s, ttl, id, k, s)
  {
    assert Leads(s, ttl, id, k, [s], [], s);
  }

  /** The delete is over and the row is still in the cache. */
  ghost predicate Left(t: State, d: nat, id: int, h: Hash) {
    && d in t.calls && t.calls[d].Returned?
    && Live(t.redis, HashKey(h), t.now) && t.redis[HashKey(h)].value.Json?
    && t.redis[HashKey(h)].value.row.id == id
  }

  lemma HitAnswers(t: State, ttl: int, d: nat, id: int, h: Hash, x: nat, u: State, v: State)
    requires Left(t, d, id, h) && x !in t.calls
    requires u == Next(t, ttl, Begin(x, Lookup(h))) && Enabled(u, Advance(x, Heard))
    requires v == Next(u, ttl, Advance(x, Heard))
    ensures x in v.calls && v.calls[x].Returned? && Answers(v.calls[x], id)
  {
    assert u.calls[x] == GetForward(h);
    assert v == ForwardRead(u, x, h, Heard);
  }

  /** A lookup begun then is answered with the deleted key. */
  lemma LeftIsStale(s0: State, ttl: int, d: nat, id: int, k: Conditions, t: State, h: Hash)
    requires Reaches(s0, ttl, id, k, t) && Left(t, d, id, h)
    ensures !Immediate(s0, ttl, d, id, k)
  {
    var states, actions :| Leads(s0, ttl, id, k, states, actions, t);
    var x := FreshCall(t);
    var u := Next(t, ttl, Begin(x, Lookup(h)));
    assert u.calls[x] == GetForward(h);
    var v := Next(u, ttl, Advance(x, Heard));
    HitAnswers(t, ttl, d, id, h, x, u, v);
    StaleSuffix(s0, ttl, d, id, k, states, actions, t, Begin(x, Lookup(h)), u, Advance(x, Heard), v);
  }

  lemma StaleSuffix(s0: State, ttl: int, d: nat, id: int, k: Conditions,
      states: seq<State>, actions: seq<Action>, t: State, a: Action, u: State, b: Action, v: State)
    requires Leads(s0, ttl, id, k, states, actions, t) && Permitted(a, id, k) && Permitted(b, id, k)
    requires Steps(t, ttl, a, u) && Steps(u, ttl, b, v)
    requires d in t.calls && t.calls[d].Returned? && a.Begin? && a.request.Lookup?
    requires a.call in v.calls && v.calls[a.call].Returned? && Answers(v.calls[a.call], id)
    ensures !Immediate(s0, ttl, d, id, k)
  {
    assert Leads(t, ttl, id, k, [t, u, v], [a, b], v);
    LeadsOn(s0, ttl, id, k, states, actions, t, [t, u, v], [a, b], v);
    var i, n := |actions|, |actions| + 2;
    var all, acts := states[..i] + [t, u, v], actions + [a, b];
    assert all[i] == t && all[n] == v && acts[i] == a;
    assert StaleAt(all, acts, d, id, i, n);
  }

  // ---- letting the delete run ----

  /** What the delete finds under the reverse key. */
  ghost function ReverseText(s: State, id: int): Option<string> {
    if Live(s.redis, ById(id), s.now) && s.redis[ById(id)].value.Text?
    then Some(s.redis[ById(id)].value.text) else None
  }

  /** Nothing but the delete has moved, and the forward entry is as it was. */
  ghost predicate Untouched(s: State, t: State, d: nat, hex: string) {
    && t.now == s.now && d in t.calls && t.calls.Keys == s.calls.Keys
    && (forall x | x in s.calls && x != d :: t.calls[x] == s.calls[x])
    && (ByHash(hex) in s.redis ==> ByHash(hex) in t.redis && t.redis[ByHash(hex)] == s.redis[ByHash(hex)])
  }

  lemma DeleteReads(s: State, ttl: int, d: nat, id: int, hex: string, t: State)
    requires d in s.calls && s.calls[d] == GetReverse(id) && t == Next(s, ttl, Advance(d, Heard))
    ensures Untouched(s, t, d, hex)
    ensures match ReverseText(s, id)
            case None => t.calls[d] == Returned(Removed, s.now)
            case Some(x) => t.calls[d] == DropReverse(id, x)
  {
  }

  lemma DeleteDrops(s: State, ttl: int, d: nat, id: int, x: string, hex: string, t: State, u: State)
    requires d in s.calls && s.calls[d] == DropReverse(id, x) && t == Next(s, ttl, Advance(d, Heard))
    requires d in t.calls && t.calls[d] == DropForward(x) && u == Next(t, ttl, Advance(d, Heard))
    ensures d in u.calls && u.calls[d].Returned? && u.now == s.now && u.calls.Keys == s.calls.Keys
    ensures forall y | y in s.calls && y != d :: u.calls[y] == s.calls[y]
    ensures x != hex ==> Untouched(s, u, d, hex)
  {
  }

  lemma DeleteReturns(s0: State, ttl: int, d: nat, id: int, k: Conditions, s: State, hex: string) returns (t: State)
    requires Reaches(s0, ttl, id, k, s) && d in s.calls && s.calls[d] == GetReverse(id)
    ensures Reaches(s0, ttl, id, k, t) && d in t.calls && t.calls[d].Returned? && t.now == s.now
    ensures t.calls.Keys == s.calls.Keys && forall x | x in s.calls && x != d :: t.calls[x] == s.calls[x]
    ensures ReverseText(s, id) != Some(hex) ==> Untouched(s, t, d, hex)
  {
    var s1 := Next(s, ttl, Advance(d, Heard));
    DeleteReads(s, ttl, d, id, hex, s1);
    ReachesNext(s0, ttl, id, k, s, Advance(d, Heard), s1);
    if ReverseText(s, id).None? {
      t := s1;
    } else {
      t := DropsReturn(s0, ttl, d, id, k, ReverseText(s, id).value, hex, s1);
    }
  }

  lemma DropsReturn(s0: State, ttl: int, d: nat, id: int, k: Conditions, x: string, hex: string, s: State)
    returns (t: State)
    requires Reaches(s0, ttl, id, k, s) && d in s.calls && s.calls[d] == DropReverse(id, x)
    ensures Reaches(s0, ttl, id, k, t) && d in t.calls && t.calls[d].Returned? && t.now == s.now
    ensures t.calls.Keys == s.calls.Keys && forall y | y in s.calls && y != d :: t.calls[y] == s.calls[y]
    ensures x != hex ==> Untouched(s, t, d, hex)
  {
    var s1 := Next(s, ttl, Advance(d, Heard));
    assert s1.calls[d] == DropForward(x);
    ReachesNext(s0, ttl, id, k, s, Advance(d, Heard), s1);
    t := Next(s1, ttl, Advance(d, Heard));
    ReachesNext(s0, ttl, id, k, s1, Advance(d, Heard), t);
    DeleteDrops(s, ttl, d, id, x, hex, s1, t);
  }

  // ---- the two ways of not being settled ----

  lemma FillsAgain(s: State, ttl: int, c: nat, row: Row, outcome: Result, seen: int, t: State)
    requires ttl > 0 && c in s.calls && s.calls[c] == FillForward(row, outcome, seen)
    requires t == Next(s, ttl, Advance(c, Heard))
    ensures Live(t.redis, HashKey(row.hash), t.now)
    ensures t.redis[HashKey(row.hash)].value == Json(Projection(row))
    ensures forall x | x in s.calls && x != c :: x in t.calls && t.calls[x] == s.calls[x]
  {
    assert t == ForwardFilled(s, ttl, c, row, outcome, seen, Heard);
  }

  /** Some call is about to write the row: let the delete finish first. */
  lemma HolderIsStale(s0: State, ttl: int, d: nat, id: int, k: Conditions, c: nat)
    requires ttl > 0 && Inv(s0, ttl) && Committed(s0, d, id) && c in s0.calls && Holds(s0.calls[c], id)
    ensures !Immediate(s0, ttl, d, id, k)
  {
    var pc := s0.calls[c];
    ReachesItself(s0, ttl, id, k);
    var s1 := DeleteReturns(s0, ttl, d, id, k, s0, Hex(s0, id));
    var s2 := Next(s1, ttl, Advance(c, Heard));
    FillsAgain(s1, ttl, c, pc.row, pc.outcome, pc.seen, s2);
    ReachesNext(s0, ttl, id, k, s1, Advance(c, Heard), s2);
    LeftIsStale(s0, ttl, d, id, k, s2, pc.row.hash);
  }

  /** The row is cached and what stands under the reverse key does not lead to it: let the delete
      run at once. */
  lemma AstrayIsStale(s0: State, ttl: int, d: nat, id: int, k: Conditions, s: State)
    requires Inv(s, ttl) && Reaches(s0, ttl, id, k, s) && d in s.calls && s.calls[d] == GetReverse(id)
    requires id in s.history && InCache(s, Hex(s, id)) && ReverseText(s, id) != Some(Hex(s, id))
    ensures !Immediate(s0, ttl, d, id, k)
  {
    var t := DeleteReturns(s0, ttl, d, id, k, s, Hex(s, id));
    ForwardIsRow(s, ttl, id);
    LeftIsStale(s0, ttl, d, id, k, t, s.history[id].hash);
  }

  /** The row is cached and not covered: wait until the reverse entry has run out. */
  lemma UncoveredIsStale(s0: State, ttl: int, d: nat, id: int, k: Conditions)
    requires ttl > 0 && Inv(s0, ttl) && Committed(s0, d, id)
    requires InCache(s0, Hex(s0, id)) && !Covered(s0, id, Hex(s0, id))
    ensures !Immediate(s0, ttl, d, id, k)
  {
    ReachesItself(s0, ttl, id, k);
    if ReverseText(s0, id) == Some(Hex(s0, id)) {
      var a := Tick(s0.redis[ById(id)].expiry - s0.now);
      var s := Next(s0, ttl, a);
      ReachesNext(s0, ttl, id, k, s0, a, s);
      NextKeepsInv(s0, ttl, a);
      AstrayIsStale(s0, ttl, d, id, k, s);
    } else {
      AstrayIsStale(s0, ttl, d, id, k, s0);
    }
  }

  /** Another delete of the key takes the reverse entry away and goes no further: the delete finds
      nothing, and the row is left. */
  lemma RivalIsStale(s0: State, ttl: int, d: nat, id: int, k: Conditions, s: State, r: nat)
    requires Inv(s, ttl) && Reaches(s0, ttl, id, k, s) && Committed(s, d, id) && InCache(s, Hex(s, id))
    requires r in s.calls && r != d && Rivals(s.calls[r], id) && ReverseText(s, id) == Some(Hex(s, id))
    requires ttl > 0
    ensures !Immediate(s0, ttl, d, id, k)
    decreases if s.calls[r].DeleteRow? then 2 else if s.calls[r].GetReverse? then 1 else 0
  {
    var a := Advance(r, Heard);
    var t := Next(s, ttl, a);
    RivalSteps(s, ttl, d, id, r, t);
    ReachesNext(s0, ttl, id, k, s, a, t);
    NextKeepsInv(s, ttl, a);
    if s.calls[r].DropReverse? {
      AstrayIsStale(s0, ttl, d, id, k, t);
    } else {
      RivalIsStale(s0, ttl, d, id, k, t, r);
    }
  }

  lemma RivalSteps(s: State, ttl: int, d: nat, id: int, r: nat, t: State)
    requires Committed(s, d, id) && r in s.calls && r != d && Rivals(s.calls[r], id)
    requires t == Next(s, ttl, Advance(r, Heard)) && InCache(s, Hex(s, id))
    requires ReverseText(s, id) == Some(Hex(s, id))
    ensures Committed(t, d, id) && t.history == s.history && InCache(t, Hex(t, id)) && r in t.calls
    ensures match s.calls[r]
            case DeleteRow(_, _) => t.calls[r] == GetReverse(id) && ReverseText(t, id) == ReverseText(s, id)
            case GetReverse(_) => t.calls[r].DropReverse? && Rivals(t.calls[r], id)
                                  && ReverseText(t, id) == ReverseText(s, id)
            case _ => ReverseText(t, id).None?
  {
  }

  /** A rival that begins after the commit does as well, whoever asks for it. */
  lemma NewRivalIsStale(s0: State, ttl: int, d: nat, id: int, k: Conditions, user: int)
    requires ttl > 0 && Inv(s0, ttl) && Committed(s0, d, id) && InCache(s0, Hex(s0, id))
    requires ReverseText(s0, id) == Some(Hex(s0, id)) && k.rivals
    ensures !Immediate(s0, ttl, d, id, k)
  {
    var r := FreshCall(s0);
    var a := Begin(r, Remove(user, id));
    var s := Next(s0, ttl, a);
    ReachesItself(s0, ttl, id, k);
    ReachesNext(s0, ttl, id, k, s0, a, s);
    NextKeepsInv(s0, ttl, a);
    RivalIsStale(s0, ttl, d, id, k, s, r);
  }

  /** If commands may fail, the delete's own may: its read is lost, and it returns all the same. */
  lemma LostIsStale(s0: State, ttl: int, d: nat, id: int, k: Conditions)
    requires ttl > 0 && Inv(s0, ttl) && Committed(s0, d, id) && InCache(s0, Hex(s0, id)) && k.failures
    ensures !Immediate(s0, ttl, d, id, k)
  {
    var a := Advance(d, Lost);
    var t := Next(s0, ttl, a);
    ReachesItself(s0, ttl, id, k);
    ReachesNext(s0, ttl, id, k, s0, a, t);
    ForwardIsRow(s0, ttl, id);
    LostReadReturns(s0, ttl, d, id, t);
    LeftIsStale(s0, ttl, d, id, k, t, s0.history[id].hash);
  }

  lemma LostReadReturns(s: State, ttl: int, d: nat, id: int, t: State)
    requires d in s.calls && s.calls[d] == GetReverse(id) && t == Next(s, ttl, Advance(d, Lost))
    ensures d in t.calls && t.calls[d].Returned? && t.redis == s.redis && t.now == s.now
  {
  }

  lemma UnsettledIsStale(s0: State, ttl: int, d: nat, id: int)
    requires ttl > 0 && Inv(s0, ttl) && Committed(s0, d, id)
    requires !Absent(s0, id, Hex(s0, id)) && !Settled(s0, d, id, Hex(s0, id))
    ensures !Immediate(s0, ttl, d, id, CALM)
  {
    if c :| c in s0.calls && Holds(s0.calls[c], id) {
      HolderIsStale(s0, ttl, d, id, CALM, c);
    } else if !Covered(s0, id, Hex(s0, id)) {
      UncoveredIsStale(s0, ttl, d, id, CALM);
    } else {
      var r :| r in s0.calls && r != d && Rivals(s0.calls[r], id);
      ReachesItself(s0, ttl, id, CALM);
      RivalIsStale(s0, ttl, d, id, CALM, s0, r);
    }
  }

  lemma PresentIsStale(s0: State, ttl: int, d: nat, id: int, k: Conditions)
    requires ttl > 0 && Inv(s0, ttl) && Committed(s0, d, id) && !Absent(s0, id, Hex(s0, id)) && k != CALM
    ensures !Immediate(s0, ttl, d, id, k)
  {
    if c :| c in s0.calls && Holds(s0.calls[c], id) {
      HolderIsStale(s0, ttl, d, id, k, c);
    } else if k.failures {
      LostIsStale(s0, ttl, d, id, k);
    } else if !Covered(s0, id, Hex(s0, id)) {
      UncoveredIsStale(s0, ttl, d, id, k);
    } else {
      NewRivalIsStale(s0, ttl, d, id, k, 0);
    }
  }

  /** When a deleted key stops answering at once, for every reachable commit and whatever may happen
      beside it. Unconditionally: exactly if the row is in no cache and on no way to it. If neither
      failures nor new deletes of the key are to be expected, also if the delete is settled: no call
      is about to cache the row, the reverse entry leads to it, and no rival is under way. */
  lemma DeleteIsImmediateIff(run: seq<State>, actions: seq<Action>, ttl: int, n: nat, d: nat, id: int,
      k: Conditions)
    requires IsRun(run, actions, ttl) && ttl > 0 && n < |run| && Committed(run[n], d, id)
    ensures
      var s0, hex := run[n], Hex(run[n], id);
      Immediate(s0, ttl, d, id, k) <==> Absent(s0, id, hex) || (k == CALM && Settled(s0, d, id, hex))
  {
    var s0 := run[n];
    RunKeepsInv(run, actions, ttl, n);
    if Absent(s0, id, Hex(s0, id)) {
      AbsentIsImmediate(s0, ttl, d, id, k);
    } else if k != CALM {
      PresentIsStale(s0, ttl, d, id, k);
    } else if Settled(s0, d, id, Hex(s0, id)) {
      SettledIsImmediate(s0, ttl, d, id);
    } else {
      UnsettledIsStale(s0, ttl, d, id);
    }
  }
}
