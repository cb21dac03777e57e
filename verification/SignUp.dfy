/** Concurrent sign-ups: each call first checks for the email, then inserts, and relies on the
    unique constraint to catch what happened in between. `fold` is the case folding of CITEXT. */
module SignUp {
  import opened Text

  datatype Params = Params(name: string, email: string, passwordHash: string)
  datatype User = User(id: int, params: Params, plan: string)

  type Users = map<int, User>
  type Folding = string -> string

  datatype Result = Ok(user: User) | EmailExists | Failed

  datatype Pc =
    | Check(params: Params)
    | HashPassword(params: Params)
    | Insert(params: Params)
    | SignToken(user: User)
    | Returned(result: Result)

  /** What a call did at the moment it took effect. */
  datatype Effect = Inserted(user: User) | Refused

  /** One atomic check-and-insert; `id` is the value the sequence gave. */
  datatype Entry = Entry(call: nat, params: Params, id: int, effect: Effect)

  /** `requests` and `order` only remember: what was asked, and the order of effect. */
  datatype State = State(
    users: Users, nextId: int, calls: map<nat, Pc>, requests: map<nat, Params>, order: seq<Entry>)

  /** A statement is answered; or never reaches the database; or commits with its answer lost. */
  datatype Fate = Heard | Lost | Unheard

  datatype Action = Begin(call: nat, params: Params) | Advance(call: nat, fate: Fate)

  const INITIAL := State(map[], 1, map[], map[], [])

  predicate Taken(fold: Folding, users: Users, email: string) {
    exists id | id in users :: fold(users[id].params.email) == fold(email)
  }

  function NewUser(id: int, p: Params): User {
    User(id, p, "free")
  }

  /** The specification: check and insert in one step. */
  function Atomic(fold: Folding, users: Users, id: int, p: Params): (Users, Effect) {
    if Taken(fold, users, p.email) then (users, Refused)
    else (users[id := NewUser(id, p)], Inserted(NewUser(id, p)))
  }

  predicate InFlight(s: State, c: nat) {
    c in s.calls && !s.calls[c].Returned?
  }

  predicate Enabled(s: State, a: Action) {
    match a
    case Begin(c, _) => c !in s.calls
    case Advance(c, _) => InFlight(s, c)
  }

  function Goto(s: State, c: nat, pc: Pc): State {
    s.(calls := s.calls[c := pc])
  }

  function Record(s: State, e: Entry): State {
    s.(order := s.order + [e])
  }

  function Refuse(s: State, c: nat, p: Params, id: int): State {
    Goto(Record(s, Entry(c, p, id, Refused)), c, Returned(EmailExists))
  }

  function Checked(fold: Folding, s: State, c: nat, p: Params, fate: Fate): State {
    if fate != Heard then Goto(s, c, Returned(Failed))
    else if Taken(fold, s.users, p.email) then
      Refuse(s, c, p, s.nextId)
    else Goto(s, c, HashPassword(p))
  }

  /** A violated constraint has already drawn an id from the sequence. */
  function Stored(fold: Folding, s: State, c: nat, p: Params, fate: Fate): State {
    if fate == Lost then Goto(s, c, Returned(Failed))
    else
      var s1 := s.(nextId := s.nextId + 1);
      if Taken(fold, s.users, p.email) then
        if fate == Heard then Refuse(s1, c, p, s.nextId) else Goto(s1, c, Returned(Failed))
      else Committed(s1, c, p, s.nextId, fate)
  }

  function Committed(s: State, c: nat, p: Params, id: int, fate: Fate): State {
    var u := NewUser(id, p);
    var s1 := Record(s.(users := s.users[id := u]), Entry(c, p, id, Inserted(u)));
    Goto(s1, c, if fate == Heard then SignToken(u) else Returned(Failed))
  }

  function Next(fold: Folding, s: State, a: Action): State
    requires Enabled(s, a)
  {
    match a
    case Begin(c, p) => Goto(s.(requests := s.requests[c := p]), c, Check(p))
    case Advance(c, fate) =>
      match s.calls[c]
      case Check(p) => Checked(fold, s, c, p, fate)
      case HashPassword(p) => Goto(s, c, if fate == Heard then Insert(p) else Returned(Failed))
      case Insert(p) => Stored(fold, s, c, p, fate)
      case SignToken(u) => Goto(s, c, Returned(if fate == Heard then Ok(u) else Failed))
  }

  // ---- replaying the order of effect on the specification ----

  function Replay(fold: Folding, order: seq<Entry>): Users {
    if order == [] then map[]
    else
      var e := order[|order| - 1];
      Atomic(fold, Replay(fold, order[..|order| - 1]), e.id, e.params).0
  }

  predicate Legal(fold: Folding, order: seq<Entry>) {
    order == [] ||
    var before, e := order[..|order| - 1], order[|order| - 1];
    Legal(fold, before) && e.effect == Atomic(fold, Replay(fold, before), e.id, e.params).1
  }

  predicate TookEffect(s: State, c: nat) {
    exists i | 0 <= i < |s.order| :: s.order[i].call == c
  }

  ghost predicate Shows(s: State, c: nat, effect: Effect) {
    exists i | 0 <= i < |s.order| :: s.order[i].call == c && s.order[i].effect == effect
  }

  /** How far a call has got decides whether it has taken effect, and how. */
  ghost predicate CallOk(s: State, c: nat)
    requires c in s.calls
  {
    c in s.requests &&
    match s.calls[c]
    case Check(p) => p == s.requests[c] && !TookEffect(s, c)
    case HashPassword(p) => p == s.requests[c] && !TookEffect(s, c)
    case Insert(p) => p == s.requests[c] && !TookEffect(s, c)
    case SignToken(u) => Shows(s, c, Inserted(u))
    case Returned(Ok(u)) => Shows(s, c, Inserted(u))
    case Returned(EmailExists) => Shows(s, c, Refused)
    case Returned(Failed) => true
  }

  ghost predicate Unique(fold: Folding, users: Users) {
    forall a, b | a in users && b in users && fold(users[a].params.email) == fold(users[b].params.email) ::
      a == b
  }

  ghost predicate OrderOk(s: State) {
    && (forall i | 0 <= i < |s.order| ::
          s.order[i].call in s.calls && s.order[i].call in s.requests
          && s.order[i].params == s.requests[s.order[i].call])
    && (forall i | 0 <= i < |s.order| && s.order[i].effect.Inserted? ::
          var u := s.order[i].effect.user;
          u.id in s.users && s.users[u.id] == u && u.params == s.order[i].params)
    && (forall i, j | 0 <= i < j < |s.order| :: s.order[i].call != s.order[j].call)
  }

  ghost predicate Inv(fold: Folding, s: State) {
    && (forall id | id in s.users :: s.users[id].id == id && id < s.nextId)
    && Unique(fold, s.users)
    && Legal(fold, s.order) && Replay(fold, s.order) == s.users
    && OrderOk(s)
    && s.requests.Keys == s.calls.Keys
    && (forall c | c in s.calls :: CallOk(s, c))
  }

  /** A step that does not take effect. */
  lemma QuietKeepsInv(fold: Folding, s: State, t: State, c: nat)
    requires Inv(fold, s) && t.users == s.users && t.order == s.order && t.nextId >= s.nextId
    requires t.calls.Keys == t.requests.Keys == s.calls.Keys + {c}
    requires forall x | x in s.calls :: t.requests[x] == s.requests[x]
    requires forall x | x in s.calls && x != c :: t.calls[x] == s.calls[x]
    requires CallOk(t, c)
    ensures Inv(fold, t)
  {
    forall x | x in t.calls ensures CallOk(t, x) {
      if x != c {
        assert CallOk(s, x);
        assert TookEffect(t, x) == TookEffect(s, x);
      }
    }
  }

  /** `t` follows `s` by call `c` taking effect, as the specification would have it. */
  ghost predicate Effects(fold: Folding, s: State, t: State, c: nat, id: int, effect: Effect) {
    && c in s.calls && c in s.requests && !TookEffect(s, c) && id >= s.nextId
    && (t.users, effect) == Atomic(fold, s.users, id, s.requests[c])
    && t.order == s.order + [Entry(c, s.requests[c], id, effect)]
    && t.nextId >= s.nextId && (effect.Inserted? ==> t.nextId > id)
    && t.requests == s.requests && t.calls.Keys == s.calls.Keys
    && (forall x | x in s.calls && x != c :: t.calls[x] == s.calls[x])
  }

  lemma EffectKeepsUsers(fold: Folding, s: State, t: State, c: nat, id: int, effect: Effect)
    requires Inv(fold, s) && Effects(fold, s, t, c, id, effect)
    ensures Unique(fold, t.users) && Legal(fold, t.order) && Replay(fold, t.order) == t.users
    ensures forall id | id in t.users :: t.users[id].id == id && id < t.nextId
  {
    assert t.order[..|t.order| - 1] == s.order;
  }

  lemma EffectKeepsOrder(fold: Folding, s: State, t: State, c: nat, id: int, effect: Effect)
    requires OrderOk(s) && Effects(fold, s, t, c, id, effect)
    requires forall id | id in s.users :: id < s.nextId
    ensures OrderOk(t)
  {
    assert forall i | 0 <= i < |s.order| :: s.order[i].call != c;
  }

  /** A step that takes effect appends its entry. */
  lemma EffectKeepsInv(fold: Folding, s: State, t: State, c: nat, id: int, effect: Effect)
    requires Inv(fold, s) && Effects(fold, s, t, c, id, effect) && CallOk(t, c)
    ensures Inv(fold, t)
  {
    EffectKeepsUsers(fold, s, t, c, id, effect);
    EffectKeepsOrder(fold, s, t, c, id, effect);
    forall x | x in t.calls ensures CallOk(t, x) {
      if x != c {
        assert CallOk(s, x);
        ShowsCarriesOver(s, t, x);
      }
    }
  }

  lemma ShowsCarriesOver(s: State, t: State, x: nat)
    requires |t.order| == |s.order| + 1 && t.order[..|s.order|] == s.order
    requires t.order[|s.order|].call != x
    ensures TookEffect(t, x) <==> TookEffect(s, x)
    ensures forall e :: Shows(s, x, e) ==> Shows(t, x, e)
  {
    forall i | 0 <= i < |s.order| ensures t.order[i] == s.order[i] {
      assert t.order[..|s.order|][i] == s.order[i];
    }
  }

  lemma LastShows(s: State, c: nat, id: int, p: Params, effect: Effect)
    requires s.order != [] && s.order[|s.order| - 1] == Entry(c, p, id, effect)
    ensures Shows(s, c, effect)
  {
  }

  lemma RefuseKeepsInv(fold: Folding, s: State, t: State, c: nat, p: Params, next: int)
    requires Inv(fold, s) && c in s.calls && (s.calls[c] == Check(p) || s.calls[c] == Insert(p))
    requires Taken(fold, s.users, p.email) && next >= s.nextId
    requires t == Refuse(s.(nextId := next), c, p, s.nextId)
    ensures Inv(fold, t)
  {
    assert CallOk(s, c);
    LastShows(t, c, s.nextId, p, Refused);
    EffectKeepsInv(fold, s, t, c, s.nextId, Refused);
  }

  lemma CheckKeepsInv(fold: Folding, s: State, t: State, c: nat, p: Params, fate: Fate)
    requires Inv(fold, s) && c in s.calls && s.calls[c] == Check(p)
    requires t == Checked(fold, s, c, p, fate)
    ensures Inv(fold, t)
  {
    if fate == Heard && Taken(fold, s.users, p.email) {
      RefuseKeepsInv(fold, s, t, c, p, s.nextId);
    } else {
      assert CallOk(s, c);
      assert TookEffect(t, c) == TookEffect(s, c);
      QuietKeepsInv(fold, s, t, c);
    }
  }

  lemma CommitKeepsInv(fold: Folding, s: State, t: State, c: nat, p: Params, fate: Fate)
    requires Inv(fold, s) && c in s.calls && s.calls[c] == Insert(p) && !Taken(fold, s.users, p.email)
    requires t == Committed(s.(nextId := s.nextId + 1), c, p, s.nextId, fate)
    ensures Inv(fold, t)
  {
    assert CallOk(s, c);
    LastShows(t, c, s.nextId, p, Inserted(NewUser(s.nextId, p)));
    EffectKeepsInv(fold, s, t, c, s.nextId, Inserted(NewUser(s.nextId, p)));
  }

  lemma InsertKeepsInv(fold: Folding, s: State, t: State, c: nat, p: Params, fate: Fate)
    requires Inv(fold, s) && c in s.calls && s.calls[c] == Insert(p)
    requires t == Stored(fold, s, c, p, fate)
    ensures Inv(fold, t)
  {
    if fate != Lost && !Taken(fold, s.users, p.email) {
      CommitKeepsInv(fold, s, t, c, p, fate);
    } else if fate == Heard {
      RefuseKeepsInv(fold, s, t, c, p, s.nextId + 1);
    } else {
      QuietKeepsInv(fold, s, t, c);
    }
  }

  lemma NextKeepsInv(fold: Folding, s: State, a: Action)
    requires Inv(fold, s) && Enabled(s, a)
    ensures Inv(fold, Next(fold, s, a))
  {
    var t := Next(fold, s, a);
    if a.Begin? {
      assert !TookEffect(t, a.call);
      QuietKeepsInv(fold, s, t, a.call);
    } else {
      var pc := s.calls[a.call];
      assert CallOk(s, a.call);
      if pc.Check? {
        CheckKeepsInv(fold, s, t, a.call, pc.params, a.fate);
      } else if pc.Insert? {
        InsertKeepsInv(fold, s, t, a.call, pc.params, a.fate);
      } else {
        assert TookEffect(t, a.call) == TookEffect(s, a.call);
        QuietKeepsInv(fold, s, t, a.call);
      }
    }
  }

  /** A call answers with failure exactly when one of its steps was not heard of, whether or not the
      step took effect. */
  lemma FailureIffUnheard(fold: Folding, s: State, c: nat, fate: Fate)
    requires Enabled(s, Advance(c, fate))
    ensures
      var t := Next(fold, s, Advance(c, fate));
      c in t.calls && (t.calls[c] == Returned(Failed) <==> fate != Heard)
  {
  }

  // ---- whole runs ----

  ghost predicate IsRun(fold: Folding, run: seq<State>, actions: seq<Action>) {
    && |run| == |actions| + 1
    && run[0] == INITIAL
    && (forall i | 0 <= i < |actions| ::
          Enabled(run[i], actions[i]) && run[i + 1] == Next(fold, run[i], actions[i]))
  }

  /** Every run behaves like the atomic check-and-insert applied in the order of effect: emails stay
      unique up to case, a success returns the row that very call inserted, and a refusal was due
      to a user who had the email when the call took effect. */
  lemma {:induction false} SignUpLinearizable(fold: Folding, run: seq<State>, actions: seq<Action>, n: nat)
    requires IsRun(fold, run, actions) && n < |run|
    ensures Inv(fold, run[n])
  {
    if n > 0 {
      SignUpLinearizable(fold, run, actions, n - 1);
      NextKeepsInv(fold, run[n - 1], actions[n - 1]);
    }
  }

  lemma {:induction false} LegalAt(fold: Folding, order: seq<Entry>, i: nat)
    requires Legal(fold, order) && i < |order|
    ensures order[i].effect == Atomic(fold, Replay(fold, order[..i]), order[i].id, order[i].params).1
  {
    var before := order[..|order| - 1];
    if i < |before| {
      LegalAt(fold, before, i);
      assert before[..i] == order[..i];
    }
  }

  /** The answer of one call, whatever ran beside it. */
  lemma SignUpAnswer(fold: Folding, run: seq<State>, actions: seq<Action>, n: nat, c: nat)
    requires IsRun(fold, run, actions) && n < |run|
    requires c in run[n].calls && run[n].calls[c].Returned?
    ensures
      var s, r := run[n], run[n].calls[c].result;
      && c in s.requests
      && Unique(fold, s.users) && Legal(fold, s.order) && Replay(fold, s.order) == s.users
      && (r.Ok? ==> r.user.id in s.users && s.users[r.user.id] == r.user && r.user.plan == "free"
                    && r.user.params == s.requests[c] && Shows(s, c, Inserted(r.user)))
      && (r.EmailExists? ==>
            exists i, u | 0 <= i < |s.order| && s.order[i].call == c && u in Replay(fold, s.order[..i]) ::
              fold(Replay(fold, s.order[..i])[u].params.email) == fold(s.requests[c].email))
  {
    var s := run[n];
    SignUpLinearizable(fold, run, actions, n);
    assert CallOk(s, c);
    var r := s.calls[c].result;
    if r.EmailExists? {
      var i :| 0 <= i < |s.order| && s.order[i].call == c && s.order[i].effect == Refused;
      LegalAt(fold, s.order, i);
      AtomicInPlainTerms(fold, Replay(fold, s.order[..i]), s.order[i].id, s.order[i].params);
    } else if r.Ok? {
      var i :| 0 <= i < |s.order| && s.order[i].call == c && s.order[i].effect == Inserted(r.user);
      LegalAt(fold, s.order, i);
      AtomicInPlainTerms(fold, Replay(fold, s.order[..i]), s.order[i].id, s.order[i].params);
    }
  }

  /** Calls take effect between their invocation and their return. */
  lemma StepOrder(fold: Folding, s: State, a: Action, t: State)
    requires Enabled(s, a) && t == Next(fold, s, a)
    ensures t.order == s.order || (|t.order| == |s.order| + 1 && t.order[..|s.order|] == s.order
                                   && InFlight(s, t.order[|s.order|].call))
    ensures forall c | c in s.calls && s.calls[c].Returned? :: c in t.calls && t.calls[c].Returned?
  {
    if a.Advance? {
      match s.calls[a.call]
      case Check(_) =>
      case HashPassword(_) =>
      case Insert(_) =>
      case SignToken(_) =>
    }
  }

  lemma LongerOrder(a: seq<Entry>, b: seq<Entry>, c: seq<Entry>)
    requires |a| <= |b| <= |c| && b[..|a|] == a && c[..|b|] == b
    ensures c[..|a|] == a && forall x | 0 <= x < |b| :: c[x] == b[x]
  {
    assert c[..|b|][..|a|] == c[..|a|];
    assert forall x | 0 <= x < |b| :: c[x] == c[..|b|][x];
  }

  lemma {:induction false} LaterEffects(fold: Folding, run: seq<State>, actions: seq<Action>, i: nat, n: nat)
    requires IsRun(fold, run, actions) && i <= n < |run|
    ensures |run[i].order| <= |run[n].order| && run[n].order[..|run[i].order|] == run[i].order
    ensures forall c | c in run[i].calls && run[i].calls[c].Returned? ::
              c in run[n].calls && run[n].calls[c].Returned?
    ensures forall x | |run[i].order| <= x < |run[n].order| ::
              var c := run[n].order[x].call; !(c in run[i].calls && run[i].calls[c].Returned?)
  {
    if n > i {
      LaterEffects(fold, run, actions, i, n - 1);
      StepOrder(fold, run[n - 1], actions[n - 1], run[n]);
      LongerOrder(run[i].order, run[n - 1].order, run[n].order);
      forall x | |run[i].order| <= x < |run[n].order|
        ensures var c := run[n].order[x].call; !(c in run[i].calls && run[i].calls[c].Returned?)
      {
        if x < |run[n - 1].order| {
          assert run[n].order[x] == run[n - 1].order[x];
        }
      }
    }
  }

  /** A call that returned before another began also took effect before it. */
  lemma RealTimeOrder(fold: Folding, run: seq<State>, actions: seq<Action>, i: nat, n: nat, x: nat, y: nat)
    requires IsRun(fold, run, actions) && i <= n < |run|
    requires x < |run[n].order| && y < |run[n].order|
    requires var a := run[n].order[x].call; a in run[i].calls && run[i].calls[a].Returned?
    requires run[n].order[y].call !in run[i].calls
    ensures x < y
  {
    LaterEffects(fold, run, actions, i, n);
    SignUpLinearizable(fold, run, actions, i);
    assert forall z | 0 <= z < |run[i].order| :: run[n].order[..|run[i].order|][z] == run[n].order[z];
  }

  // ---- one call alone ----

  /** Up to `n` steps of call `c` with nothing running beside it and nothing failing. */
  function Alone(fold: Folding, s: State, c: nat, n: nat): State
    decreases n
  {
    if n == 0 || !InFlight(s, c) then s else Alone(fold, Next(fold, s, Advance(c, Heard)), c, n - 1)
  }

  /** The specification, spelled out: refused exactly if some user has the email up to case, and then
      nothing changes; else one user on the free plan is added. */
  lemma AtomicInPlainTerms(fold: Folding, users: Users, id: int, p: Params)
    ensures
      var (after, effect) := Atomic(fold, users, id, p);
      if exists u | u in users :: fold(users[u].params.email) == fold(p.email)
      then effect == Refused && after == users
      else effect == Inserted(User(id, p, "free")) && after == users[id := User(id, p, "free")]
  {
  }

  /** A call that runs alone is told that the email exists exactly if some user has it up to case;
      with a free email it inserts its user and says so. */
  lemma AloneAnswersIff(fold: Folding, s: State, c: nat, p: Params)
    requires c in s.calls && s.calls[c] == Check(p)
    ensures
      var t := Alone(fold, s, c, 4);
      c in t.calls &&
      if exists u | u in s.users :: fold(s.users[u].params.email) == fold(p.email)
      then t.calls[c] == Returned(EmailExists) && t.users == s.users
      else t.calls[c] == Returned(Ok(User(s.nextId, p, "free")))
           && t.users == s.users[s.nextId := User(s.nextId, p, "free")]
  {
    AloneIsAtomic(fold, s, c, p);
    AtomicInPlainTerms(fold, s.users, s.nextId, p);
  }

  /** The specification is met by the call itself: alone, it is the atomic check-and-insert, and it
      says so to its caller. */
  lemma AloneIsAtomic(fold: Folding, s: State, c: nat, p: Params)
    requires c in s.calls && s.calls[c] == Check(p)
    ensures
      var t := Alone(fold, s, c, 4);
      var (users, effect) := Atomic(fold, s.users, s.nextId, p);
      && t.users == users && c in t.calls
      && t.calls[c] == Returned(if effect.Inserted? then Ok(effect.user) else EmailExists)
  {
    var s1 := Next(fold, s, Advance(c, Heard));
    if !Taken(fold, s.users, p.email) {
      assert s1.calls[c] == HashPassword(p);
      var s2 := Next(fold, s1, Advance(c, Heard));
      assert s2.calls[c] == Insert(p) && s2.users == s.users;
      var s3 := Next(fold, s2, Advance(c, Heard));
      assert s3.calls[c] == SignToken(NewUser(s.nextId, p));
      assert Alone(fold, s3, c, 1) == Next(fold, s3, Advance(c, Heard));
      assert Alone(fold, s1, c, 3) == Alone(fold, s2, c, 2) == Alone(fold, s3, c, 1);
    }
  }
}
