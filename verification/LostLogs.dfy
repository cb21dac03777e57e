/** Vendor calls that leave no trace: a deleted key may go on authenticating, but no log row that
    names it can be stored. */
module LostLogs {
  import opened Text
  import opened KeyTable
  import opened CacheProtocol
  import opened CacheStaleness
  import opened Identities
  import Auth
  import opened EndToEnd
  import Predict

  /** The database as the log finds it in state `s`. */
  ghost function DatabaseIn(s: State, users: Auth.Users, jsonb: string -> bool): Predict.Database {
    Predict.Database(jsonb, users.Keys, s.table.rows.Keys)
  }

  /** A request that the API-key middleware let through on the answer of a lookup is logged in a later
      state exactly if the key's row is still there, the owner exists and the body is plain; the
      vendor is called either way. */
  lemma LoggedIffKeyRemains(s: State, c: nat, t: State, users: Auth.Users, userFault: bool, later: Auth.Users,
      jsonb: string -> bool, i: Predict.Input)
    requires Answered(s, c) && i.identity.Some?
    requires Auth.JudgeKey(users, userFault, AnswerOf(s, c)) == Auth.Allow(i.identity.value)
    ensures
      var f, db := AnswerOf(s, c), DatabaseIn(t, later, jsonb);
      && f.Some?
      && (Predict.Storable(db, Predict.LogOf(i)[0]) <==>
            Predict.PlainBody(db, i) && f.value.user in later && f.value.id in t.table.rows)
      && (Predict.Sent(i).Some? ==> |Predict.CallsOf(i)| == 1)
  {
    Predict.StorableIff(DatabaseIn(t, later, jsonb), i);
  }

  /** It happens: for every ttl there is a run without any failing command in which a deleted key is
      answered, so that its owner's acceptable request reaches the vendor and is never logged. */
  lemma UnloggedCallReached(ttl: int, users: Auth.Users, jsonb: string -> bool, i: Predict.Input)
    returns (run: seq<State>, actions: seq<Action>, n: nat, c: nat)
    requires ttl > 0 && 1 in users && i.identity == Some(Auth.KeyIdentity(FoundRow(SampleRow()), users[1].plan))
    requires Predict.Sent(i).Some?
    ensures IsRun(run, actions, ttl) && n < |run| && Answered(run[n], c)
    ensures Auth.JudgeKey(users, false, AnswerOf(run[n], c)) == Auth.Allow(i.identity.value)
    ensures |Predict.CallsOf(i)| == 1 && |Predict.LogOf(i)| == 1
    ensures Predict.StoredOf(DatabaseIn(run[n], users, jsonb), Predict.LogOf(i)) == []
  {
    var k: nat;
    run, actions, k, n, c := StalenessBoundReached(ttl);
    FadingOnward(run, actions, ttl, k, 1, 0, n);
    RunKeepsInv(run, actions, ttl, n);
    assert CallKnown(run[n], c);
    Predict.FirstStored(DatabaseIn(run[n], users, jsonb), i);
  }
}
