/**
 The content hash along capture, local row, push request, server row (encrypted or not) and pull. A device
 recognises its own entry when it pulls it back exactly when every hash on the way is the captured one.
 */
module HashJourney {
  import opened Options
  import opened Flavors
  import opened StoredEntries
  import D = DeviceTable
  import S = ServerTable

  /** `resolved_flavors` on the client, also of an entry it received */
  function ResolvedFlavors(e: Entry): Flavors {
    MergeLegacy(e.flavors, e.kind, e.textContent)
  }

  /** The entry as the outbox reads it after `insert_entry` stored it. */
  function Captured(kind: ContentType, flavors: Flavors, blobHash: Option<Hash>, stripHtml: HtmlStripper): Entry {
    RowToEntry(NewRow(kind, flavors, blobHash, 0, false, 0, stripHtml), stripHtml)
  }

  /** The flavors the server stores for a pushed entry: `push_entry`, then the `create_entry` handler. */
  function Received(e: Entry, stripHtml: HtmlStripper): Flavors {
    var pushed := ResolvedFlavors(e);
    MergeLegacy(pushed, e.kind, ToLegacyTextContent(pushed, e.kind, stripHtml))
  }

  /** What a pull returns for a pushed entry. */
  function Pulled(e: Entry, dek: Option<Dek>, stripHtml: HtmlStripper): Result<Entry> {
    var row := NewRow(e.kind, Received(e, stripHtml), e.blobHash, 0, e.starred, 0, stripHtml);
    Read(EncryptIfKeyed(row, dek), dek, stripHtml)
  }

  function EntryHash(e: Entry): HashInput {
    PayloadHash(ResolvedFlavors(e), e.kind, e.blobHash)
  }

  ghost predicate KeepsItsHash(kind: ContentType, flavors: Flavors, blobHash: Option<Hash>, dek: Option<Dek>,
                               stripHtml: HtmlStripper) {
    var captured := Captured(kind, flavors, blobHash, stripHtml);
    var pulled := Pulled(captured, dek, stripHtml);
    && EntryHash(captured) == PayloadHash(flavors, kind, blobHash)
    && pulled.Ok?
    && EntryHash(pulled.value) == PayloadHash(flavors, kind, blobHash)
  }

  predicate AbsentOrBlank(text: Option<Value>) {
    text.Some? ==> IsBlank(text.value)
  }

  /** No other flavor can stand in for the one the type names. */
  predicate NothingStandsIn(kind: ContentType, f: Flavors) {
    match kind
    case PlainText => AbsentOrBlank(f.html) && AbsentOrBlank(f.rtf)
    case Html => f.plain.None?
    case Rtf => f.plain.None?
    case Image => true
  }

  /**
   What the way through the server keeps. With encryption any flavor that could stand in does so; without it a
   flavor is filled in only from the search text the pulling device derives.
   */
  predicate KeepsFlavors(kind: ContentType, f: Flavors, dek: Option<Dek>, stripHtml: HtmlStripper) {
    || HasOwnFlavor(kind, f)
    || if dek.Some? then NothingStandsIn(kind, f) else AbsentOrBlank(ToLegacyTextContent(f, kind, stripHtml))
  }

  lemma OwnFlavorSurvives(kind: ContentType, flavors: Flavors, blobHash: Option<Hash>, dek: Option<Dek>,
                          stripHtml: HtmlStripper)
    requires ReadableFlavors(flavors)
    requires KeepsFlavors(kind, flavors, dek, stripHtml)
    ensures var captured := Captured(kind, flavors, blobHash, stripHtml);
            && ResolvedFlavors(captured) == flavors
            && Pulled(captured, dek, stripHtml).Ok?
            && ResolvedFlavors(Pulled(captured, dek, stripHtml).value) == flavors
  {
    if dek.Some? {
      DecryptFlavorsInverts(flavors, dek.value);
    }
  }

  lemma StandInChangesTheFlavors(kind: ContentType, flavors: Flavors, blobHash: Option<Hash>, dek: Option<Dek>,
                                 stripHtml: HtmlStripper)
    requires ReadableFlavors(flavors)
    requires !KeepsFlavors(kind, flavors, dek, stripHtml)
    ensures var captured := Captured(kind, flavors, blobHash, stripHtml);
            || ResolvedFlavors(captured) != flavors
            || Pulled(captured, dek, stripHtml).Err?
            || ResolvedFlavors(Pulled(captured, dek, stripHtml).value) != flavors
  {
    if kind.PlainText? && flavors.rtf.Some? {
      StrippedRtfIsNotBlank(flavors.rtf.value);
    }
  }

  /**
   The hash survives the whole journey exactly when the entry has the flavor its type names, or nothing stands
   in for it: with encryption no flavor that could, without encryption no text derived from one.
   */
  lemma HashSurvivesExactly(kind: ContentType, flavors: Flavors, blobHash: Option<Hash>, dek: Option<Dek>,
                            stripHtml: HtmlStripper)
    requires ReadableFlavors(flavors)
    ensures KeepsItsHash(kind, flavors, blobHash, dek, stripHtml) <==> KeepsFlavors(kind, flavors, dek, stripHtml)
  {
    if KeepsFlavors(kind, flavors, dek, stripHtml) {
      OwnFlavorSurvives(kind, flavors, blobHash, dek, stripHtml);
    } else {
      StandInChangesTheFlavors(kind, flavors, blobHash, dek, stripHtml);
    }
  }

  // ----- what the clipboard monitor builds --------------------------------------------------------

  /** The entry type `handle_clipboard_change` picks for a bundle of text flavors. */
  function KindOf(f: Flavors): ContentType {
    if f.plain.Some? then PlainText else if f.html.Some? then Html else Rtf
  }

  datatype Capture = Bundle(flavors: Flavors) | ImageBytes(hash: Hash)

  function CaptureKind(c: Capture): ContentType {
    if c.Bundle? then KindOf(c.flavors) else Image
  }

  function CaptureFlavors(c: Capture): Flavors {
    if c.Bundle? then c.flavors else NO_FLAVORS
  }

  function CaptureBlob(c: Capture): Option<Hash> {
    if c.Bundle? then None else Some(c.hash)
  }

  /** The hash the monitor stores a capture under. */
  function CaptureHash(c: Capture): HashInput {
    if c.Bundle? then PayloadHash(c.flavors, KindOf(c.flavors), None) else BlobInput(c.hash)
  }

  /** Empty bundles are not stored. */
  predicate Storable(c: Capture) {
    c.Bundle? ==> c.flavors != NO_FLAVORS && ReadableFlavors(c.flavors)
  }

  lemma KnownContentAddsNoRow(rows: D.LocalRows, id: D.Id, remote: S.Row, answer: D.BlobAnswer, now: nat)
    requires D.HashUnique(rows) && id in rows && rows[id].hash == remote.hash && !remote.payload.ImageWithoutBlob?
    ensures D.Ingest(rows, remote, answer, now).Done?
    ensures D.Ingest(rows, remote, answer, now).rows.Keys == rows.Keys
  {
  }

  lemma PulledKeepsItsBlob(e: Entry, dek: Option<Dek>, stripHtml: HtmlStripper)
    requires Pulled(e, dek, stripHtml).Ok?
    ensures Pulled(e, dek, stripHtml).value.blobHash == e.blobHash
  {
  }

  /**
   A device that pulls back an entry its monitor captured finds it already present: the pull changes no id,
   whatever its table holds besides, and never needs the blob.
   */
  lemma OwnEntryIsRecognised(c: Capture, dek: Option<Dek>, stripHtml: HtmlStripper, digest: HashInput -> Hash,
                             rows: D.LocalRows, id: D.Id, key: S.Key, answer: D.BlobAnswer, now: nat)
    requires Storable(c)
    requires D.HashUnique(rows) && id in rows && rows[id].hash == digest(CaptureHash(c))
    ensures var captured := Captured(CaptureKind(c), CaptureFlavors(c), CaptureBlob(c), stripHtml);
            var pulled := Pulled(captured, dek, stripHtml);
            && EntryHash(captured) == CaptureHash(c)
            && pulled.Ok?
            && pulled.value.blobHash == CaptureBlob(c)
            && var payload := if c.ImageBytes? then S.Blob(c.hash) else S.Plain;
               var remote := S.Row(key, digest(EntryHash(pulled.value)), pulled.value.starred, payload);
               && D.Ingest(rows, remote, answer, now).Done?
               && D.Ingest(rows, remote, answer, now).rows.Keys == rows.Keys
  {
    var kind, flavors, blob := CaptureKind(c), CaptureFlavors(c), CaptureBlob(c);
    HashSurvivesExactly(kind, flavors, blob, dek, stripHtml);
    var captured := Captured(kind, flavors, blob, stripHtml);
    PulledKeepsItsBlob(captured, dek, stripHtml);
    var pulled := Pulled(captured, dek, stripHtml).value;
    var payload := if c.ImageBytes? then S.Blob(c.hash) else S.Plain;
    KnownContentAddsNoRow(rows, id, S.Row(key, digest(EntryHash(pulled)), pulled.starred, payload), answer, now);
  }
}
