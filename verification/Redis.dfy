/** Redis as the service uses it: a map from keys to expiring values, with every command atomic. */
module Redis {
  import opened RedisKeys

  /** The projection of a row that the key cache stores as JSON. */
  datatype Cached = Cached(id: int, user: int, active: bool, rate: int)

  datatype Value = Json(row: Cached) | Text(text: string) | Count(n: int)
  datatype Entry = Entry(value: Value, expiry: int)
  type Store<K(==)> = map<K, Entry>

  /** `IncrExpire` is the limiter's Lua script, which Redis runs as one step. */
  datatype Command<K> =
    | Get(key: K)
    | Set(key: K, value: Value, ttl: int)
    | Del(key: K)
    | IncrExpire(key: K, ttl: int)
    | Ttl(key: K)

  datatype Reply = Nil | Done | Val(value: Value) | Number(n: int) | WrongType

  datatype Effect<!K(==)> = Effect(store: Store<K>, reply: Reply)

  predicate Live<K(==)>(s: Store<K>, k: K, now: int) {
    k in s && now < s[k].expiry
  }

  function Increment<K(==)>(s: Store<K>, k: K): Entry
    requires k in s && s[k].value.Count?
  {
    s[k].(value := Count(s[k].value.n + 1))
  }

  /** An entry whose expiry has come reads as absent. EXPIRE with zero seconds deletes the key,
      which is what an entry expiring at once amounts to. */
  function Exec<K(==)>(s: Store<K>, now: int, c: Command<K>): Effect<K> {
    match c
    case Get(k) => Effect(s, if Live(s, k, now) then Val(s[k].value) else Nil)
    case Set(k, v, ttl) => Effect(s[k := Entry(v, now + ttl)], Done)
    case Del(k) => Effect(s - {k}, Done)
    case IncrExpire(k, ttl) =>
      if !Live(s, k, now) then Effect(s[k := Entry(Count(1), now + ttl)], Number(1))
      else if s[k].value.Count? then
        Effect(s[k := Increment(s, k)], Number(s[k].value.n + 1))
      else Effect(s, WrongType)
    case Ttl(k) => Effect(s, if Live(s, k, now) then Number(s[k].expiry - now) else Nil)
  }

  datatype Timed<K> = Timed(at: int, command: Command<K>)

  function ExecAll<K(==)>(s: Store<K>, cs: seq<Timed<K>>): (Store<K>, seq<Reply>)
    decreases |cs|
  {
    if cs == [] then (s, [])
    else
      var e := Exec(s, cs[0].at, cs[0].command);
      var (t, replies) := ExecAll(e.store, cs[1..]);
      (t, [e.reply] + replies)
  }

  // ---- the store as Redis really holds it: keyed by strings ----

  /** `t` holds under every rendered name what `s` holds under the key, and nothing else there. */
  ghost predicate Mirrors(t: Store<string>, s: Store<Key>) {
    forall k: Key :: MirrorsAt(t, s, k)
  }

  ghost predicate MirrorsAt(t: Store<string>, s: Store<Key>, k: Key) {
    (Render(k) in t <==> k in s) && (k in s ==> t[Render(k)] == s[k])
  }

  function RenderCommand(c: Command<Key>): Command<string> {
    match c
    case Get(k) => Get(Render(k))
    case Set(k, v, ttl) => Set(Render(k), v, ttl)
    case Del(k) => Del(Render(k))
    case IncrExpire(k, ttl) => IncrExpire(Render(k), ttl)
    case Ttl(k) => Ttl(Render(k))
  }

  function RenderAll(cs: seq<Timed<Key>>): (r: seq<Timed<string>>)
    ensures |r| == |cs|
  {
    seq(|cs|, i requires 0 <= i < |cs| => Timed(cs[i].at, RenderCommand(cs[i].command)))
  }

  lemma UpdateMirrors(t: Store<string>, s: Store<Key>, k: Key, e: Entry)
    requires Mirrors(t, s)
    ensures Mirrors(t[Render(k) := e], s[k := e])
  {
    var t', s' := t[Render(k) := e], s[k := e];
    forall j: Key ensures MirrorsAt(t', s', j) {
      assert MirrorsAt(t, s, j);
      if Render(j) == Render(k) {
        RenderInjective(j, k);
      }
    }
  }

  lemma RemoveMirrors(t: Store<string>, s: Store<Key>, k: Key)
    requires Mirrors(t, s)
    ensures Mirrors(t - {Render(k)}, s - {k})
  {
    var t', s' := t - {Render(k)}, s - {k};
    forall j: Key ensures MirrorsAt(t', s', j) {
      assert MirrorsAt(t, s, j);
      if Render(j) == Render(k) {
        RenderInjective(j, k);
      }
    }
  }

  lemma ExecMirrors(t: Store<string>, s: Store<Key>, now: int, c: Command<Key>)
    requires Mirrors(t, s)
    ensures Mirrors(Exec(t, now, RenderCommand(c)).store, Exec(s, now, c).store)
    ensures Exec(t, now, RenderCommand(c)).reply == Exec(s, now, c).reply
  {
    assert MirrorsAt(t, s, c.key);
    match c
    case Get(_) =>
    case Ttl(_) =>
    case Del(k) => RemoveMirrors(t, s, k);
    case Set(k, v, ttl) => UpdateMirrors(t, s, k, Entry(v, now + ttl));
    case IncrExpire(k, ttl) =>
      if !Live(s, k, now) {
        UpdateMirrors(t, s, k, Entry(Count(1), now + ttl));
      } else if s[k].value.Count? {
        UpdateMirrors(t, s, k, Increment(s, k));
      }
  }

  /** Any sequence of commands on the string-keyed store gives the replies of the same sequence on
      a store with three separate key spaces: the cache and the limiter never see each other. */
  lemma {:induction false} StringStoreRefinesKeyedStore(t: Store<string>, s: Store<Key>, cs: seq<Timed<Key>>)
    requires Mirrors(t, s)
    ensures ExecAll(t, RenderAll(cs)).1 == ExecAll(s, cs).1
    ensures Mirrors(ExecAll(t, RenderAll(cs)).0, ExecAll(s, cs).0)
    decreases |cs|
  {
    if cs != [] {
      var at, c := cs[0].at, cs[0].command;
      ExecMirrors(t, s, at, c);
      assert RenderAll(cs)[1..] == RenderAll(cs[1..]);
      StringStoreRefinesKeyedStore(Exec(t, at, RenderCommand(c)).store, Exec(s, at, c).store, cs[1..]);
    } else {
      assert RenderAll(cs) == [];
    }
  }
}
