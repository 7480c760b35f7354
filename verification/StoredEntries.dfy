/**
 Rows of the server's `entries` table with their text columns, how a row is read back with and without the
 encryption key, and the in-place encryption of existing rows.
 */
module StoredEntries {
  import opened Options
  import opened Flavors
  import RtfDecoder
  import T = Text

  /** `search` is the column behind the full-text index; it is never returned to readers. */
  datatype StoredRow = StoredRow(
    kind: ContentType,
    textContent: Option<Value>,
    flavors: Flavors,
    search: Option<Value>,
    blobHash: Option<Hash>,
    contentHash: Hash,
    starred: bool,
    updated: nat)

  /** `ClipboardEntry` */
  datatype Entry = Entry(
    kind: ContentType,
    textContent: Option<Value>,
    flavors: Flavors,
    blobHash: Option<Hash>,
    starred: bool,
    updated: nat)

  function RowToEntry(row: StoredRow, stripHtml: HtmlStripper): Entry {
    var flavors := MergeLegacy(row.flavors, row.kind, row.textContent);
    Entry(
      row.kind,
      OrElse(row.textContent, ToLegacyTextContent(flavors, row.kind, stripHtml)),
      flavors,
      row.blobHash,
      row.starred,
      row.updated)
  }

  function DecryptFlavors(f: Flavors, dek: Dek): Result<Flavors> {
    var plain := Decrypt(dek, f.plain);
    var html := Decrypt(dek, f.html);
    var rtf := Decrypt(dek, f.rtf);
    if plain.Ok? && html.Ok? && rtf.Ok? then Ok(Flavors(plain.value, html.value, rtf.value)) else Err
  }

  /** `decrypt_entry_text_fields` */
  function DecryptFields(e: Entry, dek: Dek, stripHtml: HtmlStripper): Result<Entry> {
    var text := Decrypt(dek, e.textContent);
    var decrypted := DecryptFlavors(e.flavors, dek);
    if text.Err? || decrypted.Err? then
      Err
    else
      var flavors := MergeLegacy(decrypted.value, e.kind, text.value);
      Ok(e.(flavors := flavors, textContent := OrElse(text.value, ToLegacyTextContent(flavors, e.kind, stripHtml))))
  }

  /** `get_entry` and `list_entries` on one row */
  function Read(row: StoredRow, dek: Option<Dek>, stripHtml: HtmlStripper): Result<Entry> {
    match dek
    case None => Ok(RowToEntry(row, stripHtml))
    case Some(key) => DecryptFields(RowToEntry(row, stripHtml), key, stripHtml)
  }

  // ----- writing --------------------------------------------------------------------------------

  /** The columns `create_entry` and `insert_entry` write for new content, before encryption. */
  function NewRow(kind: ContentType, flavors: Flavors, blobHash: Option<Hash>, contentHash: Hash, starred: bool,
                  updated: nat,
                  stripHtml: HtmlStripper): StoredRow {
    var resolved := MergeLegacy(flavors, kind, None);
    StoredRow(
      kind,
      ToLegacyTextContent(resolved, kind, stripHtml),
      resolved,
      BestPlainText(resolved, stripHtml),
      blobHash,
      contentHash,
      starred,
      updated)
  }

  function EncryptFlavors(f: Flavors, dek: Dek): Flavors {
    Flavors(Encrypt(dek, f.plain), Encrypt(dek, f.html), Encrypt(dek, f.rtf))
  }

  function EncryptRow(row: StoredRow, dek: Dek): StoredRow {
    row.(textContent := Encrypt(dek, row.textContent),
         flavors := EncryptFlavors(row.flavors, dek),
         search := Encrypt(dek, row.search))
  }

  /** Rows are encrypted as they are written once the key is known. */
  function EncryptIfKeyed(row: StoredRow, dek: Option<Dek>): StoredRow {
    if dek.Some? then EncryptRow(row, dek.value) else row
  }

  // ----- migration is invisible to readers --------------------------------------------------------

  predicate ReadableFlavors(f: Flavors) {
    Readable(f.plain) && Readable(f.html) && Readable(f.rtf)
  }

  /** No text column is encrypted, or was typed so that it looks encrypted. */
  predicate ReadableRow(row: StoredRow) {
    Readable(row.textContent) && ReadableFlavors(row.flavors)
  }

  predicate HasOwnFlavor(kind: ContentType, f: Flavors) {
    match kind
    case PlainText => f.plain.Some?
    case Html => f.html.Some?
    case Rtf => f.rtf.Some?
    case Image => true
  }

  /**
   The flavor named by the row's type is missing, and encryption hides that the text standing in for it is
   blank, or lets a text stand in that plain readers do not use.
   */
  predicate GainsAFlavor(row: StoredRow) {
    && !HasOwnFlavor(row.kind, row.flavors)
    && match row.textContent
       case Some(text) => IsBlank(text)
       case None =>
         if row.kind.PlainText? then
           row.flavors.html.Some? || row.flavors.rtf.Some?
         else
           row.flavors.plain.Some? && !IsBlank(row.flavors.plain.value)
  }

  lemma DecryptFlavorsInverts(f: Flavors, dek: Dek)
    requires ReadableFlavors(f)
    ensures DecryptFlavors(EncryptFlavors(f, dek), dek) == Ok(f)
  {
    DecryptInvertsEncrypt(dek, f.plain);
    DecryptInvertsEncrypt(dek, f.html);
    DecryptInvertsEncrypt(dek, f.rtf);
  }

  lemma StrippedRtfIsNotBlank(rtf: Value)
    ensures !IsBlank(rtf) ==> !IsBlank(Map(rtf, RtfDecoder.Strip))
  {
    if rtf.Clear? {
      T.TrimIsTrimmed(rtf.text);
      T.TrimIsTrimmed(RtfDecoder.Loop(rtf.text, RtfDecoder.INITIAL).out.text);
    }
  }

  lemma TextRowMigration(row: StoredRow, dek: Dek, stripHtml: HtmlStripper)
    requires ReadableRow(row) && row.kind.PlainText?
    ensures Read(EncryptRow(row, dek), Some(dek), stripHtml) == Read(row, None, stripHtml) <==> !GainsAFlavor(row)
  {
    DecryptFlavorsInverts(row.flavors, dek);
    if row.flavors.rtf.Some? {
      StrippedRtfIsNotBlank(row.flavors.rtf.value);
    }
  }

  lemma MarkupRowMigration(row: StoredRow, dek: Dek, stripHtml: HtmlStripper)
    requires ReadableRow(row) && !row.kind.PlainText?
    ensures Read(EncryptRow(row, dek), Some(dek), stripHtml) == Read(row, None, stripHtml) <==> !GainsAFlavor(row)
  {
    DecryptFlavorsInverts(row.flavors, dek);
  }

  /**
   Reading an encrypted row with the key gives what reading the row gave before it was encrypted, except for
   exactly the rows that gain a flavor.
   */
  lemma MigrationIsInvisibleExactly(row: StoredRow, dek: Dek, stripHtml: HtmlStripper)
    requires ReadableRow(row)
    ensures Read(EncryptRow(row, dek), Some(dek), stripHtml) == Read(row, None, stripHtml) <==> !GainsAFlavor(row)
  {
    if row.kind.PlainText? {
      TextRowMigration(row, dek, stripHtml);
    } else {
      MarkupRowMigration(row, dek, stripHtml);
    }
  }

  /**
   A row that does change: an entry declared as text whose only flavor is HTML without any text. Plain readers
   saw no plain text; after the migration the markup itself is served as the plain text.
   */
  lemma MarkupOnlyTextEntryChanges(dek: Dek, stripHtml: HtmlStripper)
    requires stripHtml("<img>") == ""
    ensures var row := NewRow(PlainText, NO_FLAVORS.(html := Some(Clear("<img>"))), None, 0, false, 0, stripHtml);
            && Read(row, None, stripHtml).value.flavors.plain == None
            && Read(EncryptRow(row, dek), Some(dek), stripHtml).value.flavors.plain == Some(Clear("<img>"))
  {
    assert T.TrimStart("<img>") == "<img>" && T.TrimEnd("<img>") == "<img>";
  }

  lemma EncryptingTwiceChangesNothing(row: StoredRow, dek: Dek, later: Dek)
    ensures EncryptRow(EncryptRow(row, dek), later) == EncryptRow(row, dek)
  {
  }

  /** Whoever reads without the key, or with another one, sees no text that was readable before. */
  lemma MigratedTextNeedsTheKey(row: StoredRow, dek: Dek, other: Dek, stripHtml: HtmlStripper)
    requires ReadableRow(row) && other != dek
    requires row.textContent.Some? || row.flavors != NO_FLAVORS
    ensures Read(EncryptRow(row, dek), Some(other), stripHtml) == Err
  {
  }

  // ----- what a new row holds -----------------------------------------------------------------------

  predicate HasText(flavor: Option<Value>) {
    flavor.Some? && flavor.value.Clear? && T.Trim(flavor.value.text) != ""
  }

  predicate ClearFlavors(f: Flavors) {
    && (f.plain.Some? ==> f.plain.value.Clear?)
    && (f.html.Some? ==> f.html.value.Clear?)
    && (f.rtf.Some? ==> f.rtf.value.Clear?)
  }

  /**
   A new entry is searched by the first text it has: its plain text without surrounding white space, then what is
   left of its HTML, then what is left of its RTF.
   */
  lemma NewRowIsSearchedBy(kind: ContentType, flavors: Flavors, blobHash: Option<Hash>, contentHash: Hash,
                           starred: bool, updated: nat, stripHtml: HtmlStripper)
    requires ClearFlavors(flavors)
    ensures var search := NewRow(kind, flavors, blobHash, contentHash, starred, updated, stripHtml).search;
            && (HasText(flavors.plain) ==> search == Some(Clear(T.Trim(flavors.plain.value.text))))
            && var html := HasText(flavors.html) && stripHtml(flavors.html.value.text) != "";
               && (!HasText(flavors.plain) && html ==> search == Some(Clear(stripHtml(flavors.html.value.text))))
               && (!HasText(flavors.plain) && !html && HasText(flavors.rtf) ==>
                     search == Some(Clear(RtfDecoder.Strip(flavors.rtf.value.text))))
               && (!HasText(flavors.plain) && !html && !HasText(flavors.rtf) ==> search == None)
  {
    if HasText(flavors.rtf) {
      StrippedRtfIsNotBlank(flavors.rtf.value);
    }
    assert T.Trim("") == "";
  }

  /** Reading a new row without encryption gives back what was stored, with the text of its own flavor. */
  lemma NewRowReadsBack(kind: ContentType, flavors: Flavors, blobHash: Option<Hash>, contentHash: Hash, starred: bool,
                        updated: nat, stripHtml: HtmlStripper)
    ensures var row := NewRow(kind, flavors, blobHash, contentHash, starred, updated, stripHtml);
            && row.contentHash == contentHash && row.flavors == flavors
            && Read(row, None, stripHtml).Ok?
            && var e := Read(row, None, stripHtml).value;
               && e.kind == kind && e.blobHash == blobHash && e.starred == starred && e.updated == updated
               && (kind.PlainText? && flavors.plain.Some? ==> e.textContent == flavors.plain)
               && (kind.Html? ==> e.textContent == OrElse(flavors.html, flavors.plain))
               && (kind.Rtf? ==> e.textContent == OrElse(flavors.rtf, flavors.plain))
               && (kind.Image? ==> e.textContent == None)
               && (HasOwnFlavor(kind, flavors) ==> e.flavors == flavors)
  {
  }

  /** The text column fills in the flavor the type names, when it is missing and the text is not blank. */
  lemma LegacyTextFillsOneFlavor(f: Flavors, kind: ContentType, text: Value)
    ensures var merged := MergeLegacy(f, kind, Some(text));
            && (merged.plain == if kind.PlainText? && f.plain == None && !IsBlank(text) then Some(text) else f.plain)
            && (merged.html == if kind.Html? && f.html == None && !IsBlank(text) then Some(text) else f.html)
            && (merged.rtf == if kind.Rtf? && f.rtf == None && !IsBlank(text) then Some(text) else f.rtf)
  {
  }

  predicate IsSealedAs(column: Option<Value>, was: Option<Value>, dek: Dek) {
    match was
    case None => column == None
    case Some(Clear(text)) =>
      column == Some(if "ENC:1:" <= text then Clear(text) else Sealed(dek, text))
    case Some(Sealed(_, _)) => column == was
  }

  /** Encrypting a row seals the text of all five columns, the search text included, and touches nothing else. */
  lemma EveryTextColumnIsSealed(row: StoredRow, dek: Dek)
    ensures var sealed := EncryptRow(row, dek);
            && IsSealedAs(sealed.textContent, row.textContent, dek)
            && IsSealedAs(sealed.flavors.plain, row.flavors.plain, dek)
            && IsSealedAs(sealed.flavors.html, row.flavors.html, dek)
            && IsSealedAs(sealed.flavors.rtf, row.flavors.rtf, dek)
            && IsSealedAs(sealed.search, row.search, dek)
            && sealed.kind == row.kind && sealed.blobHash == row.blobHash && sealed.contentHash == row.contentHash
            && sealed.starred == row.starred && sealed.updated == row.updated
  {
  }
}
