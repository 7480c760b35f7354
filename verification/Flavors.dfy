/**
 The text flavors of a clipboard entry as they are stored, possibly encrypted, and the conversions every
 reader and writer shares: filling flavors from the legacy text column, deriving that column and the search
 text back, and hashing the payload.

 Encryption is symbolic. A sealed text stands for `ENC:1:` followed by base64, so it is never blank and the
 markup strippers leave it alone. HTML stripping is an uninterpreted function parameter.
 */
module Flavors {
  import opened Options
  import T = Text
  import RtfDecoder
  import S = ServerTable

  type Hash = S.Hash
  type Dek = nat
  type HtmlStripper = string -> string

  datatype Value = Clear(text: string) | Sealed(dek: Dek, hidden: string)

  const ENCRYPTED_PREFIX := "ENC:1:"

  /** `is_encrypted_text` */
  predicate IsEncrypted(v: Value) {
    v.Sealed? || T.StartsWith(v.text, ENCRYPTED_PREFIX)
  }

  predicate IsBlank(v: Value) {
    v.Clear? && T.Trim(v.text) == ""
  }

  datatype ContentType = PlainText | Html | Rtf | Image

  datatype Flavors = Flavors(plain: Option<Value>, html: Option<Value>, rtf: Option<Value>)

  const NO_FLAVORS := Flavors(None, None, None)

  /** `non_empty_text` */
  function NonEmptyText(text: Option<Value>): Option<Value> {
    if text.Some? && !IsBlank(text.value) then text else None
  }

  function FromLegacy(kind: ContentType, text: Option<Value>): Flavors {
    match kind
    case PlainText => NO_FLAVORS.(plain := NonEmptyText(text))
    case Html => NO_FLAVORS.(html := NonEmptyText(text))
    case Rtf => NO_FLAVORS.(rtf := NonEmptyText(text))
    case Image => NO_FLAVORS
  }

  function OrElse<A>(first: Option<A>, second: Option<A>): Option<A> {
    if first.Some? then first else second
  }

  function MergeLegacy(f: Flavors, kind: ContentType, text: Option<Value>): Flavors {
    var legacy := FromLegacy(kind, text);
    Flavors(OrElse(f.plain, legacy.plain), OrElse(f.html, legacy.html), OrElse(f.rtf, legacy.rtf))
  }

  function Map(v: Value, convert: string -> string): Value {
    if v.Clear? then Clear(convert(v.text)) else v
  }

  /** Text derived from a flavor, unless the flavor is blank or leaves nothing. */
  function Derived(flavor: Option<Value>, convert: string -> string): Option<Value> {
    if flavor.None? || IsBlank(flavor.value) || Map(flavor.value, convert) == Clear("") then
      None
    else
      Some(Map(flavor.value, convert))
  }

  function BestPlainText(f: Flavors, stripHtml: HtmlStripper): Option<Value> {
    OrElse(Derived(f.plain, T.Trim), OrElse(Derived(f.html, stripHtml), Derived(f.rtf, RtfDecoder.Strip)))
  }

  function ToLegacyTextContent(f: Flavors, kind: ContentType, stripHtml: HtmlStripper): Option<Value> {
    match kind
    case PlainText => OrElse(f.plain, BestPlainText(f, stripHtml))
    case Html => OrElse(f.html, f.plain)
    case Rtf => OrElse(f.rtf, f.plain)
    case Image => None
  }

  // ----- the content hash -----------------------------------------------------------------------

  /** What goes into the hash function: entries with equal content hashes have equal inputs. */
  datatype HashInput =
    | TextInput(text: Value)
    | BlobInput(blob: Hash)
    | RecordInput(kind: ContentType, flavors: Flavors, blobHash: Option<Hash>)

  function PayloadHash(f: Flavors, kind: ContentType, blobHash: Option<Hash>): HashInput {
    if kind.Image? && blobHash.Some? then
      BlobInput(blobHash.value)
    else if blobHash.None? && kind.PlainText? && f.plain.Some? && f.html.None? && f.rtf.None? then
      TextInput(f.plain.value)
    else if blobHash.None? && kind.Html? && f.plain.None? && f.html.Some? && f.rtf.None? then
      TextInput(f.html.value)
    else if blobHash.None? && kind.Rtf? && f.plain.None? && f.html.None? && f.rtf.Some? then
      TextInput(f.rtf.value)
    else
      RecordInput(kind, f, blobHash)
  }

  /** The entry is nothing but one text, in the flavor its type names. */
  predicate IsLoneText(f: Flavors, kind: ContentType, blobHash: Option<Hash>, text: Value) {
    && blobHash == None
    && match kind
       case PlainText => f == Flavors(Some(text), None, None)
       case Html => f == Flavors(None, Some(text), None)
       case Rtf => f == Flavors(None, None, Some(text))
       case Image => false
  }

  predicate IsStoredImage(kind: ContentType, blobHash: Option<Hash>) {
    kind.Image? && blobHash.Some?
  }

  /**
   Which entries count as the same content: images with the same bytes, entries that are nothing but the same text
   (whether plain, HTML or RTF), and otherwise only entries alike in everything.
   */
  lemma SameContentExactly(f: Flavors, kind: ContentType, blobHash: Option<Hash>,
                           g: Flavors, other: ContentType, otherBlob: Option<Hash>)
    ensures PayloadHash(f, kind, blobHash) == PayloadHash(g, other, otherBlob) <==>
            || (IsStoredImage(kind, blobHash) && IsStoredImage(other, otherBlob) && blobHash == otherBlob)
            || (exists text :: IsLoneText(f, kind, blobHash, text) && IsLoneText(g, other, otherBlob, text))
            || (f == g && kind == other && blobHash == otherBlob)
  {
    LoneTextIsHashedAlone(f, kind, blobHash);
    LoneTextIsHashedAlone(g, other, otherBlob);
  }

  lemma LoneTextIsHashedAlone(f: Flavors, kind: ContentType, blobHash: Option<Hash>)
    ensures forall text :: IsLoneText(f, kind, blobHash, text) <==> PayloadHash(f, kind, blobHash) == TextInput(text)
  {
  }

  // ----- encryption at rest ---------------------------------------------------------------------

  /** `encrypt_optional_text` */
  function Encrypt(dek: Dek, text: Option<Value>): Option<Value> {
    if text.Some? && !IsEncrypted(text.value) then Some(Sealed(dek, text.value.text)) else text
  }

  /** `decrypt_optional_text`. Typed text that only looks encrypted does not authenticate. */
  function Decrypt(dek: Dek, text: Option<Value>): Result<Option<Value>> {
    if text.None? || !IsEncrypted(text.value) then Ok(text)
    else if text.value.Sealed? && text.value.dek == dek then Ok(Some(Clear(text.value.hidden)))
    else Err
  }

  predicate Readable(text: Option<Value>) {
    text.Some? ==> !IsEncrypted(text.value)
  }

  lemma DecryptInvertsEncrypt(dek: Dek, text: Option<Value>)
    requires Readable(text)
    ensures Decrypt(dek, Encrypt(dek, text)) == Ok(text)
  {
  }
}
