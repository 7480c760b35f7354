/**
 `Storage`: the server's rows, its full-text index and its blob directory, changed together by every
 operation. SQL statements and file writes succeed, as atomic steps.
 */
module ServerStorage {
  import opened Options
  import opened Flavors
  import opened SearchIndex
  import opened StoredEntries
  import S = ServerTable
  import T = Text

  type Bytes = seq<bv8>
  type Rows = map<Id, StoredRow>

  /** A file in the blob directory. A sealed one stands for the `ENCB` header, nonce and ciphertext. */
  datatype BlobFile = RawBlob(data: Bytes) | SealedBlob(dek: Dek, data: Bytes)

  const BLOB_MAGIC: Bytes := [0x45, 0x4E, 0x43, 0x42]

  predicate IsEncryptedBlob(file: BlobFile) {
    file.SealedBlob? || BLOB_MAGIC <= file.data
  }

  /** `get_blob` followed by `decrypt_blob` when the key is known; `None` is a decryption error. */
  function ReadBlob(file: BlobFile, dek: Option<Dek>): Option<Bytes> {
    if dek.None? then
      if file.RawBlob? then Some(file.data) else None
    else if !IsEncryptedBlob(file) || (file.SealedBlob? && file.dek == dek.value) then
      Some(file.data)
    else
      None
  }

  function EncryptBlobFile(file: BlobFile, dek: Dek): BlobFile {
    if IsEncryptedBlob(file) then file else SealedBlob(dek, file.data)
  }

  /** Blob migration is invisible except for raw files that begin like encrypted ones: those become unreadable. */
  lemma BlobMigrationIsInvisibleExactly(file: BlobFile, dek: Dek)
    requires file.RawBlob?
    ensures ReadBlob(EncryptBlobFile(file, dek), Some(dek)) == ReadBlob(file, None) <==> !(BLOB_MAGIC <= file.data)
    ensures EncryptBlobFile(EncryptBlobFile(file, dek), dek) == EncryptBlobFile(file, dek)
  {
  }

  /** Such a file exists: four bytes that read as `ENCB`. */
  lemma MagicBytesBecomeUnreadable(dek: Dek)
    ensures var file := RawBlob([0x45, 0x4E, 0x43, 0x42]);
            && ReadBlob(file, None) == Some([0x45, 0x4E, 0x43, 0x42])
            && ReadBlob(EncryptBlobFile(file, dek), Some(dek)) == None
  {
    assert BLOB_MAGIC <= [0x45, 0x4E, 0x43, 0x42];
  }

  /** Every file ends up sealed, except one that begins with the four bytes `ENCB`, which is left as it is. */
  lemma EveryBlobIsSealed(file: BlobFile, dek: Dek)
    ensures var after := EncryptBlobFile(file, dek);
            && (file.SealedBlob? ==> after == file)
            && (file.RawBlob? && [0x45, 0x4E, 0x43, 0x42] <= file.data ==> after == file)
            && (file.RawBlob? && !([0x45, 0x4E, 0x43, 0x42] <= file.data) ==> after == SealedBlob(dek, file.data))
  {
  }

  /** The `blob_base64` field of a request. */
  datatype Upload = NoUpload | Decoded(data: Bytes) | BadBase64

  // ----- the table as the synchronisation protocol sees it -----------------------------------------

  function PayloadOf(kind: ContentType, blobHash: Option<Hash>): S.Payload {
    match blobHash
    case Some(hash) => S.Blob(hash)
    case None => if kind.Image? then S.ImageWithoutBlob else S.Plain
  }

  function SyncRow(id: Id, row: StoredRow): S.Row {
    S.Row(S.Key(row.updated, id), row.contentHash, row.starred, PayloadOf(row.kind, row.blobHash))
  }

  function Table(rows: Rows): S.Rows {
    map id | id in rows :: SyncRow(id, rows[id])
  }

  ghost predicate HashUnique(rows: Rows) {
    forall a, b | a in rows && b in rows && rows[a].contentHash == rows[b].contentHash :: a == b
  }

  function Referenced(rows: Rows): set<Hash> {
    set id | id in rows && rows[id].blobHash.Some? :: rows[id].blobHash.value
  }

  ghost predicate Known(rows: Rows, contentHash: Hash) {
    exists id :: id in rows && rows[id].contentHash == contentHash
  }

  function UploadHash(upload: Upload, digest: Bytes -> Hash): Option<Hash> {
    if upload.Decoded? then Some(digest(upload.data)) else None
  }

  type Blobs = map<Hash, BlobFile>

  /** The blob directory after an upload; a blob that is there already is not written again. */
  function WithUpload(blobs: Blobs, upload: Upload, digest: Bytes -> Hash, dek: Option<Dek>): Blobs {
    if !upload.Decoded? || digest(upload.data) in blobs then
      blobs
    else
      blobs[digest(upload.data) := if dek.Some? then SealedBlob(dek.value, upload.data) else RawBlob(upload.data)]
  }

  /** An upload is stored under its own hash, sealed when there is a key, and reads back as it was sent. */
  lemma UploadReadsBack(blobs: Blobs, data: Bytes, digest: Bytes -> Hash, dek: Option<Dek>)
    requires digest(data) !in blobs
    ensures var after := WithUpload(blobs, Decoded(data), digest, dek);
            && after.Keys == blobs.Keys + {digest(data)} && (forall hash | hash in blobs :: after[hash] == blobs[hash])
            && (dek.Some? ==> after[digest(data)].SealedBlob?)
            && ReadBlob(after[digest(data)], dek) == Some(data)
  {
  }

  /** A re-copied entry gets a new time, and a new star when the request carries one. */
  function Recopied(row: StoredRow, starred: Option<bool>, now: nat): StoredRow {
    row.(updated := now, starred := starred.GetOr(row.starred))
  }

  /** On the rows as the protocol sees them, re-copying is `Create`. */
  lemma RecopyIsCreate(rows: Rows, id: Id, payload: S.Payload, starred: Option<bool>, newId: Id, now: nat, top: S.Key)
    requires HashUnique(rows) && id in rows
    ensures Table(rows[id := Recopied(rows[id], starred, now)])
         == S.Create(S.Server(Table(rows), top), rows[id].contentHash, payload, starred, newId, now).rows
  {
    var hash := rows[id].contentHash;
    assert Table(rows)[id].hash == hash;
    assert S.Find(Table(rows), hash) == Some(id);
  }

  /** Storing new content is `Create` too, and encryption does not show. */
  lemma StoreIsCreate(rows: Rows, row: StoredRow, dek: Option<Dek>, starred: Option<bool>, newId: Id, top: S.Key)
    requires !Known(rows, row.contentHash) && newId !in rows && row.starred == starred.GetOr(false)
    ensures Table(rows[newId := EncryptIfKeyed(row, dek)])
         == S.Create(S.Server(Table(rows), top), row.contentHash, PayloadOf(row.kind, row.blobHash), starred, newId,
                     row.updated).rows
  {
    forall id | id in Table(rows)
      ensures Table(rows)[id].hash != row.contentHash
    {
      assert Table(rows)[id].hash == rows[id].contentHash;
    }
    assert S.Find(Table(rows), row.contentHash) == None;
  }

  lemma ReferencedAfterUpdate(rows: Rows, id: Id, row: StoredRow)
    requires id in rows && row.blobHash == rows[id].blobHash
    ensures Referenced(rows[id := row]) == Referenced(rows)
  {
    var after := rows[id := row];
    assert forall k | k in rows :: after[k].blobHash == rows[k].blobHash;
    forall hash
      ensures hash in Referenced(after) <==> hash in Referenced(rows)
    {
      if hash in Referenced(rows) {
        var k :| k in rows && rows[k].blobHash == Some(hash);
        assert after[k].blobHash == Some(hash);
      }
    }
  }

  lemma ReferencedAfterInsert(rows: Rows, id: Id, row: StoredRow)
    requires id !in rows
    ensures Referenced(rows[id := row]) == Referenced(rows) + (if row.blobHash.Some? then {row.blobHash.value} else {})
  {
    var after := rows[id := row];
    forall hash | hash in Referenced(rows)
      ensures hash in Referenced(after)
    {
      var k :| k in rows && rows[k].blobHash == Some(hash);
      assert after[k].blobHash == Some(hash);
    }
    assert after[id] == row;
  }

  lemma ReferencedAfterDelete(rows: Rows, id: Id)
    ensures Referenced(rows - {id}) <= Referenced(rows)
    ensures id in rows && rows[id].blobHash.Some? ==>
              Referenced(rows) <= Referenced(rows - {id}) + {rows[id].blobHash.value}
    ensures id !in rows || rows[id].blobHash.None? ==> Referenced(rows) == Referenced(rows - {id})
  {
    forall hash | hash in Referenced(rows) && !(id in rows && rows[id].blobHash == Some(hash))
      ensures hash in Referenced(rows - {id})
    {
      var k :| k in rows && rows[k].blobHash == Some(hash);
      assert (rows - {id})[k].blobHash == Some(hash);
    }
  }

  function EncryptRows(rows: Rows, dek: Dek): Rows {
    map id | id in rows :: EncryptRow(rows[id], dek)
  }

  lemma ReferencedAfterEncryption(rows: Rows, dek: Dek)
    ensures Referenced(EncryptRows(rows, dek)) == Referenced(rows)
  {
    forall hash | hash in Referenced(rows)
      ensures hash in Referenced(EncryptRows(rows, dek))
    {
      var k :| k in rows && rows[k].blobHash == Some(hash);
      assert EncryptRows(rows, dek)[k].blobHash == Some(hash);
    }
  }

  /** Running the migration again, with any key, changes no row. */
  lemma SecondMigrationChangesNothing(rows: Rows, dek: Dek, later: Dek)
    ensures EncryptRows(EncryptRows(rows, dek), later) == EncryptRows(rows, dek)
  {
  }

  function EncryptBlobs(blobs: Blobs, dek: Dek): Blobs {
    map hash | hash in blobs :: EncryptBlobFile(blobs[hash], dek)
  }

  /** With the key every row reads as it did without encryption. */
  ghost predicate RowsReadTheSame(rows: Rows, dek: Dek, stripHtml: HtmlStripper) {
    forall id | id in rows ::
      Read(EncryptRows(rows, dek)[id], Some(dek), stripHtml) == Read(rows[id], None, stripHtml)
  }

  ghost predicate BlobsReadTheSame(blobs: Blobs, dek: Dek) {
    forall hash | hash in blobs :: ReadBlob(EncryptBlobs(blobs, dek)[hash], Some(dek)) == ReadBlob(blobs[hash], None)
  }

  /**
   The whole migration of a server that was not encrypted, rows and blobs: invisible to readers exactly when no row
   gains a flavor and no blob begins like an encrypted one.
   */
  lemma MigrationIsInvisibleToReaders(rows: Rows, blobs: Blobs, dek: Dek, stripHtml: HtmlStripper)
    requires forall id | id in rows :: ReadableRow(rows[id])
    requires forall hash | hash in blobs :: blobs[hash].RawBlob?
    ensures RowsReadTheSame(rows, dek, stripHtml) && BlobsReadTheSame(blobs, dek) <==>
            && (forall id | id in rows :: !GainsAFlavor(rows[id]))
            && (forall hash | hash in blobs :: !(BLOB_MAGIC <= blobs[hash].data))
  {
    RowMigrationIsInvisibleExactly(rows, dek, stripHtml);
    forall hash | hash in blobs
      ensures ReadBlob(EncryptBlobs(blobs, dek)[hash], Some(dek)) == ReadBlob(blobs[hash], None)
         <==> !(BLOB_MAGIC <= blobs[hash].data)
    {
      BlobMigrationIsInvisibleExactly(blobs[hash], dek);
    }
  }

  lemma RowMigrationIsInvisibleExactly(rows: Rows, dek: Dek, stripHtml: HtmlStripper)
    requires forall id | id in rows :: ReadableRow(rows[id])
    ensures RowsReadTheSame(rows, dek, stripHtml) <==> forall id | id in rows :: !GainsAFlavor(rows[id])
  {
    forall id | id in rows
      ensures Read(EncryptRows(rows, dek)[id], Some(dek), stripHtml) == Read(rows[id], None, stripHtml)
         <==> !GainsAFlavor(rows[id])
    {
      MigrationIsInvisibleExactly(rows[id], dek, stripHtml);
    }
  }

  class Storage {
    const stripHtml: HtmlStripper
    const digest: Bytes -> Hash
    var rows: Rows
    var index: Index
    var blobs: Blobs

    /**
     Content hashes are unique, the index mirrors the rows, and the blob directory holds exactly the blobs that
     rows refer to, each under the hash of its contents.
     */
    ghost predicate Valid()
      reads this
    {
      && HashUnique(rows)
      && Mirrors(index, rows)
      && blobs.Keys == Referenced(rows)
      && (forall hash | hash in blobs :: digest(blobs[hash].data) == hash)
    }

    constructor (stripHtml: HtmlStripper, digest: Bytes -> Hash)
      ensures Valid() && rows == map[]
    {
      this.stripHtml := stripHtml;
      this.digest := digest;
      rows := map[];
      index := multiset{};
      blobs := map[];
    }

    // ----- SQL statements, each with the trigger it fires -----------------------------------------

    method InsertRow(id: Id, row: StoredRow)
      requires id !in rows && Mirrors(index, rows)
      modifies this`rows, this`index
      ensures rows == old(rows)[id := row] && Mirrors(index, rows)
    {
      InsertMirrors(index, rows, id, row);
      rows := rows[id := row];
      index := index + Contribution(id, row.search);
    }

    method UpdateRow(id: Id, row: StoredRow)
      requires id in rows && Mirrors(index, rows)
      modifies this`rows, this`index
      ensures rows == old(rows)[id := row] && Mirrors(index, rows)
    {
      UpdateMirrors(index, rows, id, row);
      index := index - Contribution(id, rows[id].search);
      index := index + Contribution(id, row.search);
      rows := rows[id := row];
    }

    method DeleteRow(id: Id)
      requires Mirrors(index, rows)
      modifies this`rows, this`index
      ensures rows == old(rows) - {id} && Mirrors(index, rows)
    {
      if id in rows {
        DeleteMirrors(index, rows, id);
        index := index - Contribution(id, rows[id].search);
        rows := rows - {id};
      }
    }

    // ----- operations -------------------------------------------------------------------------------

    method FindByContentHash(hash: Hash) returns (found: Option<Id>)
      ensures found.Some? ==> found.value in rows && rows[found.value].contentHash == hash
      ensures found.None? ==> forall id | id in rows :: rows[id].contentHash != hash
    {
      if id :| id in rows && rows[id].contentHash == hash {
        found := Some(id);
      } else {
        found := None;
      }
    }

    method WriteBlob(data: Bytes, dek: Option<Dek>) returns (hash: Hash)
      modifies this`blobs
      ensures hash == digest(data)
      ensures blobs == WithUpload(old(blobs), Decoded(data), digest, dek)
    {
      hash := digest(data);
      if hash !in blobs {
        blobs := blobs[hash := if dek.Some? then SealedBlob(dek.value, data) else RawBlob(data)];
      }
    }

    /** What a request for stored content returns: the entry as it now reads, or the error of decrypting it. */
    function Returned(row: StoredRow, dek: Option<Dek>): Result<(Entry, bool)> {
      var entry := Read(row, dek, stripHtml);
      if entry.Ok? then Ok((entry.value, false)) else Err
    }

    /** The new state, and what is returned, when the content is already stored. */
    ghost predicate MovedToTop(before: Rows, after: Rows, contentHash: Hash, starred: Option<bool>, now: nat,
                               dek: Option<Dek>, result: Result<(Entry, bool)>) {
      exists id :: id in before && before[id].contentHash == contentHash
                && after == before[id := before[id].(updated := now, starred := starred.GetOr(before[id].starred))]
                && result == Returned(after[id], dek)
    }

    /** The index finds a row by its plain text when there is no key, and by nothing when there is one. */
    ghost predicate IsIndexedAs(id: Id, flavors: Flavors, dek: Option<Dek>)
      reads this`index
    {
      match dek
      case Some(_) => forall text :: index[(id, text)] == 0
      case None =>
        HasText(flavors.plain) ==>
          var searched := T.Trim(flavors.plain.value.text);
          index[(id, searched)] == (if MatchesPrefixPattern(searched) then 0 else 1)
    }

    /**
     `Ok((entry, created))`. A known entry that cannot be decrypted is moved up all the same, and a request for
     one does not look at its upload.
     */
    method CreateEntry(kind: ContentType, flavors: Flavors, upload: Upload, starred: Option<bool>, contentHash: Hash,
                       newId: Id, now: nat, dek: Option<Dek>)
      returns (result: Result<(Entry, bool)>)
      requires Valid() && newId !in rows
      modifies this
      ensures Valid()
      ensures Known(old(rows), contentHash) ==>
                && MovedToTop(old(rows), rows, contentHash, starred, now, dek, result)
                && blobs == old(blobs)
      ensures !Known(old(rows), contentHash) && upload.BadBase64? ==>
                result.Err? && rows == old(rows) && blobs == old(blobs)
      ensures !Known(old(rows), contentHash) && !upload.BadBase64? ==>
                var blobHash := UploadHash(upload, digest);
                var row := NewRow(kind, flavors, blobHash, contentHash, starred.GetOr(false), now, stripHtml);
                && rows == old(rows)[newId := EncryptIfKeyed(row, dek)]
                && blobs == WithUpload(old(blobs), upload, digest, dek)
                && result == Ok((Entry(kind, row.textContent, row.flavors, row.blobHash, row.starred, now), true))
      ensures !Known(old(rows), contentHash) && !upload.BadBase64? ==>
                IsIndexedAs(newId, flavors, dek)
      ensures Known(old(rows), contentHash) || !upload.BadBase64? ==>
                var payload := PayloadOf(kind, UploadHash(upload, digest));
                forall top :: Table(rows) == S.Create(S.Server(Table(old(rows)), top), contentHash, payload, starred,
                                                      newId, now).rows
    {
      ghost var before := rows;
      var existing := FindByContentHash(contentHash);
      if existing.Some? {
        result := Recopy(existing.value, starred, now, dek);
        forall top {
          RecopyIsCreate(before, existing.value, PayloadOf(kind, UploadHash(upload, digest)), starred, newId, now, top);
        }
        return;
      }
      if upload.BadBase64? {
        return Err;
      }
      result := StoreNew(kind, flavors, upload, starred, contentHash, newId, now, dek);
      NewRowIsIndexed(newId, kind, flavors, UploadHash(upload, digest), contentHash, starred.GetOr(false), now, dek);
      var row := NewRow(kind, flavors, UploadHash(upload, digest), contentHash, starred.GetOr(false), now, stripHtml);
      forall top {
        StoreIsCreate(before, row, dek, starred, newId, top);
      }
    }

    lemma NewRowIsIndexed(id: Id, kind: ContentType, flavors: Flavors, blobHash: Option<Hash>, contentHash: Hash,
                          starred: bool, now: nat, dek: Option<Dek>)
      requires Mirrors(index, rows) && id in rows
      requires rows[id] == EncryptIfKeyed(
                 NewRow(kind, flavors, blobHash, contentHash, starred, now, stripHtml), dek)
      ensures IsIndexedAs(id, flavors, dek)
    {
      var row := NewRow(kind, flavors, blobHash, contentHash, starred, now, stripHtml);
      if dek.Some? {
        PrefixedTextMatches(EncryptRow(row, dek.value).search);
      } else if HasText(flavors.plain) {
        assert row.search == Some(Clear(T.Trim(flavors.plain.value.text)));
      }
    }

    method Recopy(id: Id, starred: Option<bool>, now: nat, dek: Option<Dek>) returns (result: Result<(Entry, bool)>)
      requires Valid() && id in rows
      modifies this
      ensures Valid() && blobs == old(blobs)
      ensures rows == old(rows)[id := old(rows)[id].(updated := now, starred := starred.GetOr(old(rows)[id].starred))]
      ensures result == Returned(rows[id], dek)
    {
      var row := Recopied(rows[id], starred, now);
      ReferencedAfterUpdate(rows, id, row);
      UpdateRow(id, row);
      var entry := Read(row, dek, stripHtml);
      result := if entry.Ok? then Ok((entry.value, false)) else Err;
    }

    method StoreNew(kind: ContentType, flavors: Flavors, upload: Upload, starred: Option<bool>, contentHash: Hash,
                    newId: Id, now: nat, dek: Option<Dek>)
      returns (result: Result<(Entry, bool)>)
      requires Valid() && newId !in rows && !Known(rows, contentHash) && !upload.BadBase64?
      modifies this
      ensures Valid()
      ensures var blobHash := UploadHash(upload, digest);
              var row := NewRow(kind, flavors, blobHash, contentHash, starred.GetOr(false), now, stripHtml);
              && rows == old(rows)[newId := EncryptIfKeyed(row, dek)]
              && blobs == WithUpload(old(blobs), upload, digest, dek)
              && result == Ok((Entry(kind, row.textContent, row.flavors, row.blobHash, row.starred, now), true))
    {
      ghost var before := rows;
      var blobHash := None;
      if upload.Decoded? {
        var hash := WriteBlob(upload.data, dek);
        blobHash := Some(hash);
      }
      var row := NewRow(kind, flavors, blobHash, contentHash, starred.GetOr(false), now, stripHtml);
      var stored := EncryptIfKeyed(row, dek);
      ReferencedAfterInsert(before, newId, stored);
      InsertRow(newId, stored);
      result := Ok((Entry(kind, row.textContent, row.flavors, blobHash, row.starred, now), true));
    }

    method UpdateEntryStarred(id: Id, starred: bool, now: nat) returns (found: bool)
      requires Valid()
      modifies this
      ensures Valid() && blobs == old(blobs)
      ensures found <==> id in old(rows)
      ensures found ==> rows == old(rows)[id := old(rows)[id].(updated := now, starred := starred)]
      ensures !found ==> rows == old(rows)
      ensures found ==> forall top :: Table(rows) == S.Star(S.Server(Table(old(rows)), top), id, starred, now).rows
    {
      if id !in rows {
        return false;
      }
      var row := Recopied(rows[id], Some(starred), now);
      ReferencedAfterUpdate(rows, id, row);
      UpdateRow(id, row);
      found := true;
    }

    /** The blob file goes with the last row that refers to it. */
    method DeleteEntry(id: Id) returns (deleted: bool)
      requires Valid()
      modifies this
      ensures Valid()
      ensures rows == old(rows) - {id} && deleted == (id in old(rows))
      ensures forall hash | hash in blobs :: hash in old(blobs) && blobs[hash] == old(blobs)[hash]
      ensures forall top :: Table(rows) == S.Delete(S.Server(Table(old(rows)), top), id).rows
    {
      ghost var before := rows;
      var blobHash := if id in rows then rows[id].blobHash else None;
      deleted := id in rows;
      DeleteRow(id);
      ReferencedAfterDelete(before, id);
      if blobHash.Some? && !(exists other :: other in rows && rows[other].blobHash == blobHash) {
        blobs := blobs - {blobHash.value};
      }
    }

    // ----- migrations -------------------------------------------------------------------------------

    /** Encrypt every row in place, rows that have nothing left to encrypt excepted. */
    method EncryptAllEntries(dek: Dek)
      requires Valid()
      modifies this
      ensures Valid() && blobs == old(blobs)
      ensures rows == EncryptRows(old(rows), dek)
      ensures Table(rows) == Table(old(rows))
    {
      var before := rows;
      var todo := rows.Keys;
      while todo != {}
        invariant todo <= before.Keys && rows.Keys == before.Keys
        invariant forall id | id in before :: rows[id] == if id in todo then before[id] else EncryptRow(before[id], dek)
        invariant Mirrors(index, rows)
        invariant blobs == old(blobs)
      {
        var id :| id in todo;
        var encrypted := EncryptRow(before[id], dek);
        if encrypted != before[id] {
          UpdateRow(id, encrypted);
        }
        todo := todo - {id};
      }
      ReferencedAfterEncryption(before, dek);
    }

    /** Encrypt every blob file in place. */
    method EncryptAllBlobs(dek: Dek)
      requires Valid()
      modifies this`blobs
      ensures Valid()
      ensures blobs == EncryptBlobs(old(blobs), dek)
    {
      var before := blobs;
      var todo := blobs.Keys;
      while todo != {}
        invariant todo <= before.Keys && blobs.Keys == before.Keys
        invariant forall hash | hash in before ::
                    blobs[hash] == if hash in todo then before[hash] else EncryptBlobFile(before[hash], dek)
      {
        var hash :| hash in todo;
        if !IsEncryptedBlob(blobs[hash]) {
          blobs := blobs[hash := SealedBlob(dek, blobs[hash].data)];
        }
        todo := todo - {hash};
      }
    }

    /** Drop the index, whatever it held, and fill it again from the rows. */
    method RebuildIndex()
      modifies this`index
      ensures Mirrors(index, rows)
    {
      index := multiset{};
      var todo := rows.Keys;
      while todo != {}
        invariant todo <= rows.Keys
        invariant Mirrors(index, rows - todo)
      {
        var id :| id in todo;
        InsertMirrors(index, rows - todo, id, rows[id]);
        index := index + Contribution(id, rows[id].search);
        assert rows - (todo - {id}) == (rows - todo)[id := rows[id]];
        todo := todo - {id};
      }
      assert rows - {} == rows;
    }
  }
}
