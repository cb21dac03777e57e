/** What concurrent runs do to the table itself: which call takes a row away, that rows never change,
    and that labels stay unique. */
module TableRuns {
  import opened Text
  import opened RedisKeys
  import opened Redis
  import opened KeyTable
  import opened CacheProtocol

  /** Only two kinds of statements change the table. */
  lemma ReadsLeaveTable(s: State, t: State, ttl: int, c: nat, fate: Fate)
    requires InFlight(s, c) && t == Advanced(s, ttl, c, fate)
    requires var pc := s.calls[c]; pc.GetForward? || pc.Select? || pc.GetReverse?
    ensures t.table == s.table
  {
  }

  lemma WritesLeaveTable(s: State, t: State, ttl: int, c: nat, fate: Fate)
    requires InFlight(s, c) && t == Advanced(s, ttl, c, fate)
    requires var pc := s.calls[c]; pc.FillForward? || pc.FillReverse? || pc.DropReverse? || pc.DropForward?
    ensures t.table == s.table
  {
  }

  lemma InsertedTable(s: State, t: State, c: nat, p: Params, fate: Fate)
    requires t == Inserted(s, c, p, fate)
    ensures t.table == if fate == Lost then s.table else Insert(s.table, p).0
  {
  }

  lemma DeletedTable(s: State, t: State, c: nat, user: int, id: int, fate: Fate)
    requires t == Deleted(s, c, user, id, fate)
    ensures t.table == if fate == Lost then s.table else Delete(s.table, user, id)
  {
  }

  /** What each step does to the table, in terms of the statement it runs. */
  lemma StepTable(s: State, ttl: int, a: Action)
    requires Enabled(s, a)
    ensures
      var t := Next(s, ttl, a);
      t.table == if a.Advance? && a.fate != Lost && s.calls[a.call].InsertRow? then
                   Insert(s.table, s.calls[a.call].params).0
                 else if a.Advance? && a.fate != Lost && s.calls[a.call].DeleteRow? then
                   Delete(s.table, s.calls[a.call].user, s.calls[a.call].id)
                 else s.table
  {
    if a.Advance? {
      var t, pc := Next(s, ttl, a), s.calls[a.call];
      if pc.InsertRow? {
        InsertedTable(s, t, a.call, pc.params, a.fate);
      } else if pc.DeleteRow? {
        DeletedTable(s, t, a.call, pc.user, pc.id, a.fate);
      } else if pc.GetForward? || pc.Select? || pc.GetReverse? {
        ReadsLeaveTable(s, t, ttl, a.call, a.fate);
      } else {
        WritesLeaveTable(s, t, ttl, a.call, a.fate);
      }
    }
  }

  /** In every run, whatever interleaves and fails, a row leaves the table exactly in a step of a call
      that asked to delete that id for the row's own user. */
  lemma RowLeavesIff(run: seq<State>, actions: seq<Action>, ttl: int, n: nat, id: int)
    requires IsRun(run, actions, ttl) && ttl > 0 && n < |actions| && id in run[n].table.rows
    ensures
      var a, owner := actions[n], run[n].table.rows[id].user;
      id !in run[n + 1].table.rows <==>
        && a.Advance? && a.fate != Lost && run[n].calls[a.call].DeleteRow?
        && a.call in run[n].requests && run[n].requests[a.call] == Remove(owner, id)
  {
    RunKeepsInv(run, actions, ttl, n);
    var s, a := run[n], actions[n];
    StepTable(s, ttl, a);
    if a.Advance? {
      assert CallKnown(s, a.call);
      if s.calls[a.call].DeleteRow? {
        DeleteTakesOwnRow(s.table, s.calls[a.call].user, s.calls[a.call].id);
      } else if s.calls[a.call].InsertRow? {
        InsertAddsOneRow(s.table, s.calls[a.call].params);
      }
    }
  }

  /** A row in two states of a run is the same row. */
  lemma RowsNeverChange(run: seq<State>, actions: seq<Action>, ttl: int, i: nat, n: nat, id: int)
    requires IsRun(run, actions, ttl) && ttl > 0 && i <= n < |run|
    requires id in run[i].table.rows && id in run[n].table.rows
    ensures run[i].table.rows[id] == run[n].table.rows[id]
  {
    RunKeepsInv(run, actions, ttl, i);
    RunKeepsInv(run, actions, ttl, n);
    RunRemembers(run, actions, ttl, i, n);
    assert Known(run[i], run[i].table.rows[id]) && Known(run[n], run[n].table.rows[id]);
  }

  lemma StepKeepsLabels(s: State, ttl: int, a: Action)
    requires Enabled(s, a) && LabelsUnique(s.table)
    ensures LabelsUnique(Next(s, ttl, a).table)
  {
    StepTable(s, ttl, a);
    if a.Advance? && s.calls[a.call].InsertRow? {
      InsertKeepsLabels(s.table, s.calls[a.call].params);
    } else if a.Advance? && s.calls[a.call].DeleteRow? {
      DeleteTakesOwnRow(s.table, s.calls[a.call].user, s.calls[a.call].id);
      FewerRowsKeepLabels(s.table, Next(s, ttl, a).table);
    }
  }

  /** However creates and deletes interleave, no user ever has two keys of one label. */
  lemma {:induction false} LabelsStayUnique(run: seq<State>, actions: seq<Action>, ttl: int, n: nat)
    requires IsRun(run, actions, ttl) && n < |run|
    ensures LabelsUnique(run[n].table)
  {
    if n > 0 {
      LabelsStayUnique(run, actions, ttl, n - 1);
      StepKeepsLabels(run[n - 1], ttl, actions[n - 1]);
    }
  }

  /** A create that hears from the database is rejected exactly if its user has a key of its label at
      that moment; else its row, active and with the hash and rate asked for, is in the table. */
  lemma CreateAnswered(run: seq<State>, actions: seq<Action>, ttl: int, n: nat, c: nat, p: Params)
    requires IsRun(run, actions, ttl) && ttl > 0 && n < |actions| && actions[n] == Advance(c, Heard)
    requires c in run[n].calls && run[n].calls[c] == InsertRow(p)
    ensures
      var s, t := run[n], run[n + 1];
      var taken := p.keyLabel.Some? && exists k | k in s.table.rows ::
                     s.table.rows[k].user == p.user && s.table.rows[k].keyLabel == p.keyLabel;
      && c in s.requests && s.requests[c] == Create(p) && c in t.calls
      && if taken then t.calls[c] == Returned(Rejected, s.now) && t.table.rows == s.table.rows
         else
           var row := Row(s.table.nextId, p.user, p.hash, p.keyLabel, true, p.rate);
           && t.calls[c] == FillForward(row, Created(row), s.now)
           && row.id !in s.history && t.table.rows == s.table.rows[row.id := row]
  {
    RunKeepsInv(run, actions, ttl, n);
    var s, t := run[n], run[n + 1];
    assert CallKnown(s, c);
    StepTable(s, ttl, actions[n]);
    InsertAddsOneRow(s.table, p);
    assert t == Inserted(s, c, p, Heard);
  }
}
