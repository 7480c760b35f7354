/**
 The server's `entries` table as the synchronisation protocol sees it, and the keyset query that pages
 through it newest-first.

 Ids are ULIDs. Their fixed-width text orders like the number it spells, so an id is that number. Hashes
 are uninterpreted: only their equality matters.
 */
module ServerTable {
  import opened Options

  type Id = nat
  type Hash = nat

  /** `(updated_at, id)`, the position of an entry in the server's history. */
  datatype Key = Key(instant: nat, id: Id) {
    predicate Lt(other: Key) {
      instant < other.instant || (instant == other.instant && id < other.id)
    }

    predicate Le(other: Key) {
      this == other || Lt(other)
    }
  }

  /** What a client must fetch before it can store the entry. */
  datatype Payload =
    | Plain
    | Blob(blobHash: Hash)
    | ImageWithoutBlob // an image whose uploader had lost the blob file

  datatype Row = Row(key: Key, hash: Hash, starred: bool, payload: Payload)

  type Rows = map<Id, Row>

  /** The table, with the largest key it ever handed out (also to rows deleted since). */
  datatype Server = Server(rows: Rows, top: Key)

  ghost predicate KeyedById(rows: Rows) {
    forall id | id in rows :: rows[id].key.id == id
  }

  ghost predicate HashUnique(rows: Rows) {
    forall a, b | a in rows && b in rows && rows[a].hash == rows[b].hash :: a == b
  }

  /** `SELECT id FROM entries WHERE content_hash = ?` */
  ghost function Find(rows: Rows, hash: Hash): (found: Option<Id>)
    ensures found.Some? ==> found.value in rows && rows[found.value].hash == hash
    ensures found.None? ==> forall id | id in rows :: rows[id].hash != hash
  {
    if exists id :: id in rows && rows[id].hash == hash then
      var id :| id in rows && rows[id].hash == hash;
      Some(id)
    else
      None
  }

  // ----- writes ---------------------------------------------------------------------------------

  /** The row a create request lands on: the one with this content, or a new one. */
  ghost function Target(rows: Rows, hash: Hash, newId: Id): Id {
    Find(rows, hash).GetOr(newId)
  }

  /** Every write gives its row the newest key and never touches another row. */
  function Put(s: Server, row: Row): Server {
    Server(s.rows[row.key.id := row], row.key)
  }

  /** `create_entry`: content already present is re-starred and moved to the top. */
  ghost function Create(s: Server, hash: Hash, payload: Payload, starred: Option<bool>, newId: Id,
                        instant: nat): Server {
    match Find(s.rows, hash)
    case Some(id) =>
      var prior := s.rows[id];
      Put(s, prior.(key := Key(instant, prior.key.id), starred := starred.GetOr(prior.starred)))
    case None =>
      Put(s, Row(Key(instant, newId), hash, starred.GetOr(false), payload))
  }

  /** `update_entry_starred` */
  function Star(s: Server, id: Id, starred: bool, instant: nat): Server
    requires id in s.rows
  {
    Put(s, s.rows[id].(key := Key(instant, s.rows[id].key.id), starred := starred))
  }

  /** `delete_entry` */
  function Delete(s: Server, id: Id): Server {
    s.(rows := s.rows - {id})
  }

  /** Other clients only move entries up, past everything handed out, or delete them. */
  ghost predicate OnlyMovesUp(before: Server, after: Server) {
    && before.top.Le(after.top)
    && (forall id | id in after.rows ::
          (id in before.rows && after.rows[id] == before.rows[id]) || before.top.Lt(after.rows[id].key))
  }

  lemma CreateOnlyMovesUp(s: Server, hash: Hash, payload: Payload, starred: Option<bool>, newId: Id, instant: nat)
    requires KeyedById(s.rows)
    requires s.top.Lt(Key(instant, Target(s.rows, hash, newId)))
    ensures OnlyMovesUp(s, Create(s, hash, payload, starred, newId, instant))
  {
  }

  // ----- the keyset page ------------------------------------------------------------------------

  predicate Within(before: Option<Key>, key: Key) {
    before.None? || key.Lt(before.value)
  }

  function Below(rows: Rows, before: Option<Key>): set<Id> {
    set id | id in rows && Within(before, rows[id].key)
  }

  /** The newest `limit` rows below the cursor, newest first. */
  ghost predicate IsPage(rows: Rows, before: Option<Key>, limit: nat, page: seq<Row>) {
    && (forall i, j | 0 <= i < j < |page| :: page[j].key.Lt(page[i].key))
    && (forall r | r in page :: r.key.id in rows && rows[r.key.id] == r && Within(before, r.key))
    && (forall id, i | id in rows && Within(before, rows[id].key) && 0 <= i < |page| ::
          rows[id] in page || rows[id].key.Lt(page[i].key))
    && |page| == if limit <= |Below(rows, before)| then limit else |Below(rows, before)|
  }

  /** `clamp_limit` */
  const MAX_LIMIT := 200

  function ClampLimit(limit: nat): (clamped: nat)
    ensures 1 <= clamped <= 200
    ensures 1 <= limit <= 200 ==> clamped == limit
    ensures limit < 1 ==> clamped == 1
    ensures limit > 200 ==> clamped == 200
  {
    if limit < 1 then 1 else if limit > MAX_LIMIT then MAX_LIMIT else limit
  }

  ghost predicate HasMore(rows: Rows, before: Option<Key>, limit: nat) {
    limit < |Below(rows, before)|
  }

  /** A page that claims there is no more holds every row below the cursor. */
  lemma LastPageIsComplete(rows: Rows, before: Option<Key>, limit: nat, page: seq<Row>)
    requires KeyedById(rows)
    requires IsPage(rows, before, limit, page)
    requires !HasMore(rows, before, limit)
    ensures forall id | id in rows && Within(before, rows[id].key) :: rows[id] in page
  {
    var ids := set r | r in page :: r.key.id;
    IdsOfPage(page);
    assert ids <= Below(rows, before);
    SubsetOfSameSize(ids, Below(rows, before));
    forall id | id in rows && Within(before, rows[id].key)
      ensures rows[id] in page
    {
      assert id in ids;
    }
  }

  /** Distinct descending keys of rows keyed by id have distinct ids, so a page has as many ids as rows. */
  lemma {:induction false} IdsOfPage(page: seq<Row>)
    requires forall i, j | 0 <= i < j < |page| :: page[i].key.id != page[j].key.id
    ensures |set r | r in page :: r.key.id| == |page|
  {
    var ids := set r | r in page :: r.key.id;
    if page != [] {
      var init := page[..|page| - 1];
      var last := page[|page| - 1];
      IdsOfPage(init);
      var less := set r | r in init :: r.key.id;
      assert ids == less + {last.key.id};
      assert last.key.id !in less;
    }
  }

  lemma SubsetOfSameSize<T>(a: set<T>, b: set<T>)
    requires a <= b && |a| == |b|
    ensures a == b
  {
    assert b == a + (b - a);
    assert |b - a| == 0;
  }
}
