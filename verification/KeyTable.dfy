/** The `api_keys` table and the SQL statements that touch it. */
module KeyTable {
  import opened Text
  import opened Redis

  /** The columns no statement ever changes after the insert. */
  datatype Row = Row(id: int, user: int, hash: Hash, keyLabel: Option<string>, active: bool, rate: int)

  datatype Params = Params(user: int, hash: Hash, keyLabel: Option<string>, rate: int)

  /** What `GetAPIKeyByHash` returns to its callers. */
  datatype Found = Found(id: int, user: int, hash: Hash, active: bool, rate: int)

  /** `nextId` is the BIGSERIAL sequence; `lastUsed` is the one column updated in place. */
  datatype Table = Table(rows: map<int, Row>, nextId: int, lastUsed: map<int, int>)

  const EMPTY := Table(map[], 1, map[])

  function FoundRow(r: Row): Found {
    Found(r.id, r.user, r.hash, r.active, r.rate)
  }

  /** What the cache keeps of a found row. */
  function Project(f: Found): Cached {
    Cached(f.id, f.user, f.active, f.rate)
  }

  function Projection(r: Row): Cached {
    Project(FoundRow(r))
  }

  function FoundCached(c: Cached, h: Hash): Found {
    Found(c.id, c.user, h, c.active, c.rate)
  }

  /** Ids are the primary key and drawn from the sequence; hashes are unique because the keys
      behind them are fresh, not because of any constraint. */
  ghost predicate WellFormed(t: Table) {
    && (forall id | id in t.rows :: t.rows[id].id == id && id < t.nextId)
    && (forall a, b | a in t.rows && b in t.rows && t.rows[a].hash == t.rows[b].hash :: a == b)
  }

  predicate HasHash(t: Table, h: Hash) {
    exists id | id in t.rows :: t.rows[id].hash == h
  }

  /** The query asks for one row and takes whichever comes first. */
  ghost function AnyRow(t: Table, h: Hash): (r: Option<Row>)
    ensures r.Some? ==> r.value in t.rows.Values && r.value.hash == h
    ensures r.None? ==> !HasHash(t, h)
  {
    if HasHash(t, h) then
      var id :| id in t.rows && t.rows[id].hash == h;
      Some(t.rows[id])
    else None
  }

  /** While hashes are unique there is only one to come. */
  lemma AnyRowIsSelected(t: Table, h: Hash)
    requires WellFormed(t)
    ensures SelectByHash(t, h) == match AnyRow(t, h) case None => None case Some(row) => Some(FoundRow(row))
  {
  }

  function SelectByHash(t: Table, h: Hash): (r: Option<Found>)
    requires WellFormed(t)
    ensures r.Some? <==> HasHash(t, h)
    ensures r.Some? ==> r.value.id in t.rows && r.value.hash == h
                        && r.value == FoundRow(t.rows[r.value.id])
  {
    if HasHash(t, h) then
      var id :| id in t.rows && t.rows[id].hash == h;
      Some(FoundRow(t.rows[id]))
    else None
  }

  /** `UNIQUE (user_id, label)`; null labels never clash. */
  predicate LabelTaken(t: Table, p: Params) {
    p.keyLabel.Some? && exists id | id in t.rows :: t.rows[id].user == p.user && t.rows[id].keyLabel == p.keyLabel
  }

  function NewRow(t: Table, p: Params): Row {
    Row(t.nextId, p.user, p.hash, p.keyLabel, true, p.rate)
  }

  /** A rejected insert has already drawn its id from the sequence. */
  function Insert(t: Table, p: Params): (Table, Option<Row>) {
    if LabelTaken(t, p) then (t.(nextId := t.nextId + 1), None)
    else
      (t.(rows := t.rows[t.nextId := NewRow(t, p)], nextId := t.nextId + 1), Some(NewRow(t, p)))
  }

  function Delete(t: Table, user: int, id: int): Table {
    if id in t.rows && t.rows[id].user == user then
      t.(rows := t.rows - {id}, lastUsed := t.lastUsed - {id})
    else t
  }

  function Touch(t: Table, id: int, at: int): Table {
    if id in t.rows then t.(lastUsed := t.lastUsed[id := at]) else t
  }

  // ---- the statements, row by row ----

  /** `DELETE ... WHERE user_id = $1 AND id = $2`: a row goes exactly if both match. */
  lemma DeleteTakesOwnRow(t: Table, user: int, id: int)
    ensures forall k :: k in Delete(t, user, id).rows <==> k in t.rows && !(k == id && t.rows[k].user == user)
    ensures forall k | k in Delete(t, user, id).rows :: Delete(t, user, id).rows[k] == t.rows[k]
    ensures Delete(t, user, id).nextId == t.nextId
    ensures forall k :: k in Delete(t, user, id).lastUsed <==>
              k in t.lastUsed && !(k == id && id in t.rows && t.rows[id].user == user)
    ensures forall k | k in Delete(t, user, id).lastUsed :: Delete(t, user, id).lastUsed[k] == t.lastUsed[k]
  {
  }

  /** `INSERT`: refused exactly if the user has a row with that label, else one active row is added
      under the next id. */
  lemma InsertAddsOneRow(t: Table, p: Params)
    ensures
      var (t', r) := Insert(t, p);
      && (r.None? <==> p.keyLabel.Some? && exists k | k in t.rows :: t.rows[k].user == p.user
                                                               && t.rows[k].keyLabel == p.keyLabel)
      && (r.None? ==> t'.rows == t.rows)
      && (r.Some? ==> r.value == Row(t.nextId, p.user, p.hash, p.keyLabel, true, p.rate)
                      && t'.rows == t.rows[t.nextId := r.value])
      && t'.nextId == t.nextId + 1 && t'.lastUsed == t.lastUsed
  {
  }

  /** `UPDATE ... SET last_used_at`: of that row and no other, and of no row if there is none. */
  lemma TouchStampsOneRow(t: Table, id: int, at: int)
    ensures Touch(t, id, at).rows == t.rows && Touch(t, id, at).nextId == t.nextId
    ensures id in t.rows ==> id in Touch(t, id, at).lastUsed && Touch(t, id, at).lastUsed[id] == at
    ensures forall k | k != id || id !in t.rows ::
              (k in Touch(t, id, at).lastUsed <==> k in t.lastUsed)
              && (k in t.lastUsed ==> Touch(t, id, at).lastUsed[k] == t.lastUsed[k])
  {
  }

  /** No user has two keys of one label; keys without a label do not count. */
  ghost predicate LabelsUnique(t: Table) {
    forall a, b | a in t.rows && b in t.rows && t.rows[a].user == t.rows[b].user
                  && t.rows[a].keyLabel.Some? && t.rows[a].keyLabel == t.rows[b].keyLabel ::
      a == b
  }

  lemma InsertKeepsLabels(t: Table, p: Params)
    requires LabelsUnique(t)
    ensures LabelsUnique(Insert(t, p).0)
  {
    InsertAddsOneRow(t, p);
  }

  lemma FewerRowsKeepLabels(t: Table, t': Table)
    requires LabelsUnique(t) && forall k | k in t'.rows :: k in t.rows && t'.rows[k] == t.rows[k]
    ensures LabelsUnique(t')
  {
  }
}
