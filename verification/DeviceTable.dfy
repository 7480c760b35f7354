/**
 The device's `entries` table: local captures, star toggles, the `synced` outbox flag, and the ingestion of
 rows pulled from a server.
 */
module DeviceTable {
  import opened Options
  import S = ServerTable

  type Id = S.Id
  type Hash = S.Hash

  datatype LocalRow = LocalRow(hash: Hash, starred: bool, synced: bool, updated: nat)

  type LocalRows = map<Id, LocalRow>

  ghost predicate HashUnique(rows: LocalRows) {
    forall a, b | a in rows && b in rows && rows[a].hash == rows[b].hash :: a == b
  }

  /** `SELECT id FROM entries WHERE content_hash = ?` */
  ghost function Find(rows: LocalRows, hash: Hash): (found: Option<Id>)
    ensures found.Some? ==> found.value in rows && rows[found.value].hash == hash
    ensures found.None? ==> forall id | id in rows :: rows[id].hash != hash
  {
    if exists id :: id in rows && rows[id].hash == hash then
      var id :| id in rows && rows[id].hash == hash;
      Some(id)
    else
      None
  }

  /** `insert_entry`: a copy of known content only moves to the top. */
  ghost function Capture(rows: LocalRows, hash: Hash, newId: Id, now: nat): LocalRows {
    match Find(rows, hash)
    case Some(id) => rows[id := rows[id].(updated := now)]
    case None => rows[newId := LocalRow(hash, false, false, now)]
  }

  /** `toggle_star`: the new state waits in the outbox under a new timestamp. */
  function Toggle(rows: LocalRows, id: Id, now: nat): LocalRows
    requires id in rows
  {
    rows[id := rows[id].(starred := !rows[id].starred, synced := false, updated := now)]
  }

  /** `mark_synced_if_unchanged` */
  function MarkSynced(rows: LocalRows, id: Id, pushedUpdated: nat): LocalRows {
    if id in rows && rows[id].updated == pushedUpdated then
      rows[id := rows[id].(synced := true)]
    else
      rows
  }

  /** `apply_remote_star_state_by_content_hash`: pending local changes are kept. */
  ghost function ApplyRemoteStar(rows: LocalRows, hash: Hash, starred: bool, now: nat): LocalRows {
    match Find(rows, hash)
    case Some(id) =>
      if rows[id].synced && rows[id].starred != starred then
        rows[id := rows[id].(starred := starred, updated := now)]
      else
        rows
    case None => rows
  }

  /** `insert_remote_entry`: nothing is written when the content or the id is already present. */
  ghost function InsertRemote(rows: LocalRows, key: S.Key, hash: Hash, starred: bool): LocalRows {
    if Find(rows, hash).Some? || key.id in rows then
      rows
    else
      rows[key.id := LocalRow(hash, starred, true, key.instant)]
  }

  /** How downloading an entry's blob ended. An empty body counts as gone. */
  datatype BlobAnswer = Got(dataHash: Hash) | Gone | Transient

  datatype Ingested = Done(rows: LocalRows) | Failed

  /**
   The rest of `ingest_remote_entry` after it has looked the content up and found it `known` or not. By now the
   table may have changed, so both writes look again. `Failed` is the transient error that keeps the watermark back.
   */
  ghost function Write(rows: LocalRows, remote: S.Row, known: bool, answer: BlobAnswer, now: nat): Ingested {
    if remote.payload.ImageWithoutBlob? then
      match answer
      case Transient => Failed
      case Gone => Done(rows)
      case Got(dataHash) => Done(Merge(rows, remote, dataHash, now))
    else if known then
      Done(ApplyRemoteStar(rows, remote.hash, remote.starred, now))
    else if remote.payload.Blob? && answer.Transient? then
      Failed
    else if remote.payload.Blob? && answer != Got(remote.payload.blobHash) then
      Done(rows)
    else
      Done(InsertRemote(rows, remote.key, remote.hash, remote.starred))
  }

  /** `has_content_hash` */
  ghost predicate Knows(rows: LocalRows, hash: Hash) {
    Find(rows, hash).Some?
  }

  /** `ingest_remote_entry` when nothing else happens meanwhile. */
  ghost function Ingest(rows: LocalRows, remote: S.Row, answer: BlobAnswer, now: nat): Ingested {
    Write(rows, remote, Knows(rows, remote.hash), answer, now)
  }

  /** Content already present takes the server's star; new content becomes a synced row. */
  ghost function Merge(rows: LocalRows, remote: S.Row, contentHash: Hash, now: nat): LocalRows {
    if Find(rows, contentHash).Some? then
      ApplyRemoteStar(rows, contentHash, remote.starred, now)
    else
      InsertRemote(rows, remote.key, contentHash, remote.starred)
  }

  /** What ingesting `remote` may do to the table: re-star synced rows, and add one synced row under its id. */
  ghost predicate OnlyTakesOver(rows: LocalRows, remote: S.Key, after: LocalRows) {
    && (forall id | id in rows ::
          && id in after
          && after[id].hash == rows[id].hash
          && after[id].synced == rows[id].synced
          && (!rows[id].synced ==> after[id] == rows[id]))
    && (forall id | id in after && id !in rows :: id == remote.id && after[id].synced)
  }

  /** Ingestion loses no row, touches no pending local change, and puts nothing in the outbox, whatever it looked up. */
  lemma IngestOnlyTakesOver(rows: LocalRows, remote: S.Row, known: bool, answer: BlobAnswer, now: nat)
    requires Write(rows, remote, known, answer, now).Done?
    ensures OnlyTakesOver(rows, remote.key, Write(rows, remote, known, answer, now).rows)
  {
  }

  /** The content an entry stands for on this device: an image without a blob is hashed from the download. */
  function ContentOf(remote: S.Row, answer: BlobAnswer): Option<Hash> {
    if !remote.payload.ImageWithoutBlob? then Some(remote.hash)
    else if answer.Got? then Some(answer.dataHash)
    else None
  }

  /** The server answered that there is nothing to store, or sent other bytes than it promised. */
  predicate Skips(remote: S.Row, answer: BlobAnswer) {
    match remote.payload
    case Plain => false
    case Blob(blobHash) => answer.Gone? || answer != Got(blobHash)
    case ImageWithoutBlob => answer.Gone?
  }

  /**
   What "handled" means: a pull that did not fail left the content on the device with the server's star, unless
   a local change is pending or the server had nothing to store. Content that was present is never skipped,
   images without a blob excepted.
   */
  lemma HandledMeansPresentOrSkipped(rows: LocalRows, remote: S.Row, answer: BlobAnswer, now: nat)
    requires HashUnique(rows)
    requires remote.key.id in rows ==> Some(rows[remote.key.id].hash) == ContentOf(remote, answer)
    requires Ingest(rows, remote, answer, now).Done?
    ensures var after := Ingest(rows, remote, answer, now).rows;
            var content := ContentOf(remote, answer);
            && (content.None? || !Knows(after, content.value) ==> after == rows && Skips(remote, answer))
            && (content.Some? ==> forall id | id in after && after[id].hash == content.value && after[id].synced ::
                  after[id].starred == remote.starred)
  {
  }

  /** A download that failed for now; content already present needs none, except for an image without a blob. */
  predicate MustWait(rows: LocalRows, remote: S.Row, answer: BlobAnswer) {
    match remote.payload
    case Plain => false
    case Blob(_) => answer.Transient? && forall id | id in rows :: rows[id].hash != remote.hash
    case ImageWithoutBlob => answer.Transient?
  }

  /**
   What ingestion does, in every case. It fails exactly while the download must be tried again. Otherwise content that
   was not present is stored under the server's id and time, synced and with the server's star, if and only if the
   entry is not to be skipped; and of content that was present a synced row takes over the server's star.
   */
  lemma IngestsExactly(rows: LocalRows, remote: S.Row, answer: BlobAnswer, now: nat)
    requires HashUnique(rows)
    requires remote.key.id in rows ==> Some(rows[remote.key.id].hash) == ContentOf(remote, answer)
    ensures Ingest(rows, remote, answer, now).Failed? <==> MustWait(rows, remote, answer)
    ensures var content := ContentOf(remote, answer);
            !MustWait(rows, remote, answer) ==>
              var after := Ingest(rows, remote, answer, now).rows;
              && (content.None? ==> after == rows)
              && (content.Some? && (forall id | id in rows :: rows[id].hash != content.value) ==>
                    var row := LocalRow(content.value, remote.starred, true, remote.key.instant);
                    after == if Skips(remote, answer) then rows else rows[remote.key.id := row])
              && (forall id | id in rows && content == Some(rows[id].hash) ::
                    after == if rows[id].synced && rows[id].starred != remote.starred
                             then rows[id := LocalRow(rows[id].hash, remote.starred, true, now)] else rows)
  {
  }

  /** Content unknown before an ingestion that did not fail is known afterwards exactly when it was not skipped. */
  lemma SkippedExactly(rows: LocalRows, remote: S.Row, answer: BlobAnswer, now: nat)
    requires HashUnique(rows) && remote.key.id !in rows && Ingest(rows, remote, answer, now).Done?
    requires ContentOf(remote, answer).Some? && !Knows(rows, ContentOf(remote, answer).value)
    ensures Knows(Ingest(rows, remote, answer, now).rows, ContentOf(remote, answer).value) <==> !Skips(remote, answer)
    ensures Skips(remote, answer) ==> Ingest(rows, remote, answer, now) == Done(rows)
  {
    var content := ContentOf(remote, answer).value;
    if !Skips(remote, answer) {
      var after := Ingest(rows, remote, answer, now).rows;
      assert remote.key.id in after && after[remote.key.id].hash == content;
    }
  }

  // ----- what the user sees -------------------------------------------------------------------------

  /** A captured content has one row, at the top of the list; nothing else about known content changes. */
  lemma CapturedIsNewest(rows: LocalRows, hash: Hash, newId: Id, now: nat)
    requires HashUnique(rows) && newId !in rows && forall id | id in rows :: rows[id].updated < now
    ensures var after := Capture(rows, hash, newId, now);
            exists top :: top in after && after[top].hash == hash
              && (forall id | id in after && id != top :: id in rows && after[id] == rows[id] && after[id].hash != hash)
              && (forall id | id in after && id != top :: after[id].updated < after[top].updated)
              && (if top in rows then after.Keys == rows.Keys && after[top] == rows[top].(updated := now)
                  else top == newId && after[top] == LocalRow(hash, false, false, now))
  {
    var top := if Find(rows, hash).Some? then Find(rows, hash).value else newId;
    var after := Capture(rows, hash, newId, now);
    assert top in after && after[top].hash == hash;
  }
}
