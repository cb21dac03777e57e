/** Creating an API key: the handler's validation and default rate, and the service's parameters. */
module KeyService {
  import opened Text
  import opened KeyTable

  /** The decoded body of a create request; a missing rate decodes to zero. */
  datatype KeyRequest = KeyRequest(keyLabel: string, rate: int)

  /** `validate:"required,min=3,max=50"` and `validate:"omitempty,min=1,max=10000"` */
  predicate Acceptable(q: KeyRequest) {
    3 <= |q.keyLabel| <= 50 && (q.rate == 0 || 1 <= q.rate <= 10000)
  }

  function EffectiveRate(q: KeyRequest): int {
    if q.rate > 0 then q.rate else 100
  }

  /** The conversion `int32(n)`, which wraps around. */
  function ToInt32(n: int): int {
    (n + 0x8000_0000) % 0x1_0000_0000 - 0x8000_0000
  }

  function ParamsFor(user: int, hash: Hash, q: KeyRequest): Params {
    Params(user, hash, if q.keyLabel != "" then Some(q.keyLabel) else None, ToInt32(EffectiveRate(q)))
  }

  /** The conversion keeps the number modulo 2^32 and lands in the range of the type. */
  lemma ToInt32Wraps(n: int)
    ensures -0x8000_0000 <= ToInt32(n) < 0x8000_0000
    ensures (ToInt32(n) - n) % 0x1_0000_0000 == 0
    ensures -0x8000_0000 <= n < 0x8000_0000 ==> ToInt32(n) == n
  {
    var m := n + 0x8000_0000;
    assert m == m / 0x1_0000_0000 * 0x1_0000_0000 + m % 0x1_0000_0000;
    assert ToInt32(n) - n == -(m / 0x1_0000_0000) * 0x1_0000_0000;
  }

  /** What is accepted is stored as it was asked for, an absent rate as 100: the label of 3 to 50
      characters is never NULL, and no rate is changed by the conversion. */
  lemma AcceptedRateIsStored(user: int, hash: Hash, q: KeyRequest)
    ensures Acceptable(q) <==> 3 <= |q.keyLabel| && |q.keyLabel| <= 50 && 0 <= q.rate && q.rate <= 10000
    ensures Acceptable(q) ==>
              ParamsFor(user, hash, q)
              == Params(user, hash, Some(q.keyLabel), if q.rate != 0 then q.rate else 100)
  {
  }
}
