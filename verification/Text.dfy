/** The string operations the service takes from Go's `fmt`, `strconv`, `encoding/hex`
    and `strings` packages. */
module Text {

  datatype Option<+T> = None | Some(value: T)

  type Byte = x: int | 0 <= x < 256
  type Hash = seq<Byte>

  // ---- decimal: the %d verb and its inverse ----

  function DigitChar(d: int): char
    requires 0 <= d < 10
  {
    ('0' as int + d) as char
  }

  function DecimalNat(n: nat): string {
    if n < 10 then [DigitChar(n)] else DecimalNat(n / 10) + [DigitChar(n % 10)]
  }

  function Decimal(n: int): string {
    if n < 0 then "-" + DecimalNat(-n) else DecimalNat(n)
  }

  function DigitValue(c: char): int {
    if '0' <= c <= '9' then c as int - '0' as int else 0
  }

  function NatValue(s: string): int {
    if s == "" then 0 else 10 * NatValue(s[..|s| - 1]) + DigitValue(s[|s| - 1])
  }

  /** What `strconv.ParseInt(s, 10, 64)` computes on well-formed input. */
  function IntValue(s: string): int {
    if s != "" && s[0] == '-' then -NatValue(s[1..]) else NatValue(s)
  }

  predicate AllDigits(s: string) {
    forall i :: 0 <= i < |s| ==> '0' <= s[i] <= '9'
  }

  lemma {:induction false} DecimalNatRoundTrip(n: nat)
    ensures AllDigits(DecimalNat(n)) && |DecimalNat(n)| > 0
    ensures NatValue(DecimalNat(n)) == n
  {
    if n >= 10 {
      DecimalNatRoundTrip(n / 10);
      var s := DecimalNat(n);
      assert s[..|s| - 1] == DecimalNat(n / 10);
    } else {
      assert DecimalNat(n)[..0] == "";
    }
  }

  lemma DecimalRoundTrip(n: int)
    ensures IntValue(Decimal(n)) == n
    ensures n >= 0 ==> Decimal(n) != "" && AllDigits(Decimal(n))
    ensures n < 0 ==> |Decimal(n)| > 1 && Decimal(n)[0] == '-' && AllDigits(Decimal(n)[1..])
    ensures ':' !in Decimal(n)
  {
    DecimalNatRoundTrip(if n < 0 then -n else n);
    if n < 0 {
      assert Decimal(n)[1..] == DecimalNat(-n);
    }
  }

  // ---- hexadecimal ----

  function HexChar(d: int): char
    requires 0 <= d < 16
  {
    if d < 10 then DigitChar(d) else ('a' as int + d - 10) as char
  }

  function HexEncode(h: Hash): string {
    if h == [] then "" else [HexChar(h[0] / 16), HexChar(h[0] % 16)] + HexEncode(h[1..])
  }

  function HexValue(c: char): (v: int)
    ensures 0 <= v < 16
  {
    if '0' <= c <= '9' then c as int - '0' as int
    else if 'a' <= c <= 'f' then c as int - 'a' as int + 10
    else 0
  }

  function HexDecode(s: string): Hash {
    if |s| < 2 then [] else [16 * HexValue(s[0]) + HexValue(s[1])] + HexDecode(s[2..])
  }

  lemma {:induction false} HexRoundTrip(h: Hash)
    ensures HexDecode(HexEncode(h)) == h
  {
    if h != [] {
      HexRoundTrip(h[1..]);
      var s := HexEncode(h);
      assert s[2..] == HexEncode(h[1..]);
      assert h == [h[0]] + h[1..];
    }
  }

  /** Two digits a byte, high one first, in lower case. */
  lemma {:induction false} HexDigits(h: Hash, i: nat)
    requires i < |h|
    ensures |HexEncode(h)| == 2 * |h|
    ensures HexEncode(h)[2 * i] == "0123456789abcdef"[h[i] / 16]
    ensures HexEncode(h)[2 * i + 1] == "0123456789abcdef"[h[i] % 16]
  {
    HexLength(h);
    if i > 0 {
      HexDigits(h[1..], i - 1);
    }
  }

  lemma {:induction false} HexLength(h: Hash)
    ensures |HexEncode(h)| == 2 * |h|
  {
    if h != [] {
      HexLength(h[1..]);
    }
  }

  lemma HexInjective(a: Hash, b: Hash)
    requires HexEncode(a) == HexEncode(b)
    ensures a == b
  {
    HexRoundTrip(a);
    HexRoundTrip(b);
  }

  // ---- strings.ToLower, strings.Contains, strings.Split ----

  /** `unicode.ToLower` on the only runes whose lower case is an ASCII letter; every other rune
      is left alone, which is all that a comparison with ASCII text can see. */
  function LowerChar(c: char): char {
    if 'A' <= c <= 'Z' then (c as int + 32) as char
    else if c == '\U{130}' then 'i'
    else if c == '\U{212A}' then 'k'
    else c
  }

  function Lower(s: string): string {
    seq(|s|, i requires 0 <= i < |s| => LowerChar(s[i]))
  }

  /** What a comparison with lower-case letters accepts: both cases of each, and the two foreign runes
      that fold to one. */
  lemma LowerMatchesIff(x: string, w: string)
    requires forall j | 0 <= j < |w| :: 'a' <= w[j] <= 'z'
    ensures Lower(x) == w <==>
              |x| == |w| && forall j | 0 <= j < |w| ::
                x[j] == w[j] || x[j] as int + 32 == w[j] as int
                || (w[j] == 'i' && x[j] == '\U{130}') || (w[j] == 'k' && x[j] == '\U{212A}')
  {
    if |x| == |w| && forall j | 0 <= j < |w| ::
         x[j] == w[j] || x[j] as int + 32 == w[j] as int
         || (w[j] == 'i' && x[j] == '\U{130}') || (w[j] == 'k' && x[j] == '\U{212A}')
    {
      forall j | 0 <= j < |w| ensures Lower(x)[j] == w[j] {
      }
    }
    if Lower(x) == w {
      forall j | 0 <= j < |w| ensures x[j] == w[j] || x[j] as int + 32 == w[j] as int
        || (w[j] == 'i' && x[j] == '\U{130}') || (w[j] == 'k' && x[j] == '\U{212A}') {
        assert Lower(x)[j] == w[j];
      }
    }
  }

  predicate OccursAt(s: string, w: string, i: int) {
    0 <= i <= |s| - |w| && s[i..i + |w|] == w
  }

  predicate Contains(s: string, w: string) {
    exists i | 0 <= i <= |s| - |w| :: OccursAt(s, w, i)
  }

  function IndexOf(s: string, c: char): (i: int)
    ensures -1 <= i < |s|
    ensures i < 0 <==> c !in s
    ensures i >= 0 ==> s[i] == c && c !in s[..i]
  {
    if s == "" then -1
    else if s[0] == c then 0
    else
      var i := IndexOf(s[1..], c);
      if i < 0 then -1 else assert s[..i + 1] == [s[0]] + s[1..][..i]; i + 1
  }

  function Split(s: string, sep: char): (parts: seq<string>)
    ensures |parts| > 0
    decreases |s|
  {
    var i := IndexOf(s, sep);
    if i < 0 then [s] else [s[..i]] + Split(s[i + 1..], sep)
  }

  lemma {:induction false} IndexOfDelimiter(a: string, s: string, c: char)
    requires c !in a
    ensures IndexOf(a + [c] + s, c) == |a|
  {
    if a != "" {
      IndexOfDelimiter(a[1..], s, c);
      assert (a + [c] + s)[1..] == a[1..] + [c] + s;
    }
  }

  lemma SplitOnce(a: string, b: string, sep: char)
    requires sep !in a && sep !in b
    ensures Split(a + [sep] + b, sep) == [a, b]
  {
    var s := a + [sep] + b;
    IndexOfDelimiter(a, b, sep);
    assert s[..|a|] == a && s[|a| + 1..] == b;
  }

  function JoinParts(parts: seq<string>, sep: char): string
    requires parts != []
  {
    if |parts| == 1 then parts[0] else parts[0] + [sep] + JoinParts(parts[1..], sep)
  }

  lemma JoinMore(head: string, parts: seq<string>, sep: char)
    requires parts != []
    ensures JoinParts([head] + parts, sep) == head + [sep] + JoinParts(parts, sep)
  {
    assert ([head] + parts)[1..] == parts;
  }

  /** The parts are free of the separator and make the whole again, so there is only one way. */
  lemma {:induction false} SplitParts(s: string, sep: char)
    ensures JoinParts(Split(s, sep), sep) == s
    ensures forall p | p in Split(s, sep) :: sep !in p
    decreases |s|
  {
    var i := IndexOf(s, sep);
    if i >= 0 {
      var head, tail := s[..i], s[i + 1..];
      SplitParts(tail, sep);
      JoinMore(head, Split(tail, sep), sep);
      assert s == head + [sep] + tail;
    }
  }

  lemma JoinTwo(parts: seq<string>, sep: char)
    requires |parts| == 2
    ensures JoinParts(parts, sep) == parts[0] + [sep] + parts[1]
  {
    assert JoinParts(parts[1..], sep) == parts[1];
  }

  // ---- where a delimiter falls ----

  lemma FirstDelimiter(a: string, s: string, b: string, t: string, c: char)
    requires c !in a && c !in b
    requires a + [c] + s == b + [c] + t
    ensures a == b && s == t
  {
    var l, r := a + [c] + s, b + [c] + t;
    IndexOfDelimiter(a, s, c);
    IndexOfDelimiter(b, t, c);
    assert a == l[..|a|] && b == r[..|b|];
    assert s == l[|a| + 1..] && t == r[|b| + 1..];
  }

  lemma LastDelimiter(s: string, a: string, t: string, b: string, c: char)
    requires c !in a && c !in b
    requires s + [c] + a == t + [c] + b
    ensures a == b && s == t
  {
    var l, r := s + [c] + a, t + [c] + b;
    assert l[|s|] == c && r[|t|] == c;
    assert forall i | |s| < i < |l| :: l[i] == a[i - |s| - 1];
    assert forall i | |t| < i < |r| :: r[i] == b[i - |t| - 1];
    assert s == l[..|s|] && t == r[..|t|];
    assert a == l[|s| + 1..] && b == r[|t| + 1..];
  }
}
