/** The names under which the key cache and the rate limiter store their entries in one shared
    Redis, and the proof that no two of them can be the same string. */
module RedisKeys {
  import opened Text

  /** Whom a rate-limit counter belongs to: a bearer-token user or an API key. */
  datatype Subject = User(id: int) | ApiKey(id: int)

  /** `ByHash` carries the hex text, because deletion rebuilds the name from the stored text. */
  datatype Key =
    | ByHash(hex: string)
    | ById(id: int)
    | Window(subject: Subject, endpoint: string, start: int)

  function KindName(s: Subject): string {
    match s
    case User(_) => "user"
    case ApiKey(_) => "apikey"
  }

  function Identifier(s: Subject): string {
    KindName(s) + ":" + Decimal(s.id)
  }

  function Render(k: Key): string {
    match k
    case ByHash(hex) => "apikey:" + hex
    case ById(id) => "apikey_id:" + Decimal(id)
    case Window(subject, endpoint, start) =>
      "ratelimit:" + Identifier(subject) + ":" + endpoint + ":" + Decimal(start)
  }

  lemma Reassociate(a: string, b: string, c: string, d: string)
    ensures a + (b + c + d) == a + b + c + d
  {
  }

  /** The names in full, since other programs read them. */
  lemma Names(hex: string, id: int, endpoint: string, start: int)
    ensures Render(ByHash(hex)) == "apikey:" + hex
    ensures Render(ById(id)) == "apikey_id:" + Decimal(id)
    ensures Render(Window(User(id), endpoint, start))
            == "ratelimit:" + "user" + ":" + Decimal(id) + ":" + endpoint + ":" + Decimal(start)
    ensures Render(Window(ApiKey(id), endpoint, start))
            == "ratelimit:" + "apikey" + ":" + Decimal(id) + ":" + endpoint + ":" + Decimal(start)
  {
    Reassociate("ratelimit:", "user", ":", Decimal(id));
    Reassociate("ratelimit:", "apikey", ":", Decimal(id));
  }

  function HashKey(h: Hash): Key {
    ByHash(HexEncode(h))
  }

  lemma HashKeyInjective(a: Hash, b: Hash)
    requires HashKey(a) == HashKey(b)
    ensures a == b
  {
    HexInjective(a, b);
  }

  /** What follows the kind in the name of a counter. */
  function CounterTail(k: Key): string
    requires k.Window?
  {
    Decimal(k.subject.id) + [':'] + (k.endpoint + [':'] + Decimal(k.start))
  }

  lemma WindowName(k: Key)
    requires k.Window?
    ensures Render(k) == "ratelimit" + [':'] + (KindName(k.subject) + [':'] + CounterTail(k))
  {
  }

  lemma CounterTailInjective(a: Key, b: Key)
    requires a.Window? && b.Window? && CounterTail(a) == CounterTail(b)
    ensures a.subject.id == b.subject.id && a.endpoint == b.endpoint && a.start == b.start
  {
    DecimalRoundTrip(a.subject.id);
    DecimalRoundTrip(b.subject.id);
    DecimalRoundTrip(a.start);
    DecimalRoundTrip(b.start);
    FirstDelimiter(Decimal(a.subject.id), a.endpoint + [':'] + Decimal(a.start),
                   Decimal(b.subject.id), b.endpoint + [':'] + Decimal(b.start), ':');
    LastDelimiter(a.endpoint, Decimal(a.start), b.endpoint, Decimal(b.start), ':');
  }

  /** Neither colons in the endpoint nor a negative window start can make two counters share a
      name: the identifier ends at the first colon after its kind, the window start begins after
      the last colon of all. */
  lemma WindowNameInjective(a: Key, b: Key)
    requires a.Window? && b.Window?
    requires Render(a) == Render(b)
    ensures a == b
  {
    var ka, kb := KindName(a.subject), KindName(b.subject);
    WindowName(a);
    WindowName(b);
    FirstDelimiter("ratelimit", ka + [':'] + CounterTail(a), "ratelimit", kb + [':'] + CounterTail(b), ':');
    FirstDelimiter(ka, CounterTail(a), kb, CounterTail(b), ':');
    CounterTailInjective(a, b);
    assert a.subject.User? <==> |ka| == 4;
    assert b.subject.User? <==> |kb| == 4;
  }

  lemma RenderInjective(a: Key, b: Key)
    requires Render(a) == Render(b)
    ensures a == b
  {
    var na, nb := Render(a), Render(b);
    assert a.Window? <==> na[0] == 'r';
    assert b.Window? <==> nb[0] == 'r';
    assert !a.Window? ==> (a.ByHash? <==> na[6] == ':');
    assert !b.Window? ==> (b.ByHash? <==> nb[6] == ':');
    match a
    case Window(_, _, _) => WindowNameInjective(a, b);
    case ByHash(x) =>
      assert na[7..] == x && nb[7..] == b.hex;
    case ById(i) =>
      assert na[10..] == Decimal(i) && nb[10..] == Decimal(b.id);
      DecimalRoundTrip(i);
      DecimalRoundTrip(b.id);
  }
}
