/** The identity the auth middlewares attach to a request's context. */
module Identities {
  import opened Text
  import opened RedisKeys

  datatype Identity = Identity(user: int, plan: string, apiKey: Option<int>, rate: Option<int>)

  /** Whose counter a request is charged to. */
  function SubjectOf(id: Identity): Subject {
    if id.apiKey.Some? then ApiKey(id.apiKey.value) else User(id.user)
  }

  function LimitOf(jwtLimit: int, id: Identity): int {
    if id.apiKey.Some? && id.rate.Some? then id.rate.value else jwtLimit
  }
}
