/**
 The full-text index beside the `entries` table: an external-content FTS5 table that triggers keep in step. A
 `delete` command removes the given text from a row id; given a text that was never added, it leaves the index
 wrong, so what matters is that both triggers judge a row alike.
 */
module SearchIndex {
  import opened Options
  import opened Flavors
  import opened StoredEntries
  import S = ServerTable

  type Id = S.Id
  type Index = multiset<(Id, string)>

  function AsciiUpper(c: char): char {
    if 'a' <= c <= 'z' then (c as int - 'a' as int + 'A' as int) as char else c
  }

  /** `LIKE 'ENC:1:%'`, which in SQLite ignores the case of ASCII letters. */
  predicate MatchesPrefixPattern(text: string) {
    && |text| >= |ENCRYPTED_PREFIX|
    && forall i | 0 <= i < |ENCRYPTED_PREFIX| :: AsciiUpper(text[i]) == ENCRYPTED_PREFIX[i]
  }

  /** The text a row contributes to the index. */
  function IndexedText(search: Option<Value>): Option<string> {
    if search.Some? && search.value.Clear? && !MatchesPrefixPattern(search.value.text) then
      Some(search.value.text)
    else
      None
  }

  /** The rows whose search text is present and does not look encrypted, once each, and nothing else. */
  ghost predicate Mirrors(index: Index, rows: map<Id, StoredRow>) {
    forall id, text :: index[(id, text)] == if id in rows && IndexedText(rows[id].search) == Some(text) then 1 else 0
  }

  function Contribution(id: Id, search: Option<Value>): Index {
    match IndexedText(search)
    case Some(text) => multiset{(id, text)}
    case None => multiset{}
  }

  lemma InsertMirrors(index: Index, rows: map<Id, StoredRow>, id: Id, row: StoredRow)
    requires Mirrors(index, rows) && id !in rows
    ensures Mirrors(index + Contribution(id, row.search), rows[id := row])
  {
  }

  lemma DeleteMirrors(index: Index, rows: map<Id, StoredRow>, id: Id)
    requires Mirrors(index, rows) && id in rows
    ensures Mirrors(index - Contribution(id, rows[id].search), rows - {id})
  {
  }

  lemma UpdateMirrors(index: Index, rows: map<Id, StoredRow>, id: Id, row: StoredRow)
    requires Mirrors(index, rows) && id in rows
    ensures Mirrors(index - Contribution(id, rows[id].search) + Contribution(id, row.search), rows[id := row])
  {
    DeleteMirrors(index, rows, id);
    InsertMirrors(index - Contribution(id, rows[id].search), rows - {id}, id, row);
    assert (rows - {id})[id := row] == rows[id := row];
  }

  /** Two indexes that mirror the same rows are the same: the triggers and a rebuild agree. */
  lemma MirrorIsUnique(a: Index, b: Index, rows: map<Id, StoredRow>)
    requires Mirrors(a, rows) && Mirrors(b, rows)
    ensures a == b
  {
    forall p: (Id, string)
      ensures a[p] == b[p]
    {
      assert p == (p.0, p.1);
    }
  }

  /** Once every row is encrypted the index holds no text at all. */
  lemma MigrationEmptiesTheIndex(index: Index, rows: map<Id, StoredRow>, dek: Dek)
    requires forall id | id in rows :: rows[id] == EncryptRow(rows[id], dek)
    requires Mirrors(index, rows)
    ensures index == multiset{}
  {
    forall id | id in rows
      ensures IndexedText(rows[id].search) == None
    {
      PrefixedTextMatches(rows[id].search);
    }
    forall p: (Id, string)
      ensures index[p] == 0
    {
      assert p == (p.0, p.1);
    }
    assert forall p :: p in index ==> index[p] > 0;
  }

  /** The triggers skip everything `is_encrypted_text` accepts ... */
  lemma PrefixedTextMatches(search: Option<Value>)
    requires search.Some? ==> IsEncrypted(search.value)
    ensures IndexedText(search) == None
  {
  }

  /** `E`, `N` and `C` at the start of a text, in any letter case but not all capital */
  predicate BeginsLikeEnc(text: string) {
    && |text| >= 3
    && text[0] in "Ee" && text[1] in "Nn" && text[2] in "Cc"
    && text[..3] != "ENC"
  }

  /**
   ... and a little more: a readable text is missing from the index exactly when the pattern matches it, which is
   when it begins with the prefix in another letter case.
   */
  lemma ReadableButNotIndexedExactly(text: string)
    requires Readable(Some(Clear(text)))
    ensures IndexedText(Some(Clear(text))) == None <==> MatchesPrefixPattern(text)
    ensures MatchesPrefixPattern(text) <==> |text| >= 6 && BeginsLikeEnc(text) && text[3..6] == ":1:"
  {
    if |text| >= |ENCRYPTED_PREFIX| {
      assert text[..6] == text[..3] + text[3..6];
      assert ENCRYPTED_PREFIX == "ENC" + ":1:";
      assert text[3..6] == [text[3], text[4], text[5]];
      UpperCaseIs(text[0], 'E');
      UpperCaseIs(text[1], 'N');
      UpperCaseIs(text[2], 'C');
      assert forall i | 3 <= i < 6 :: AsciiUpper(text[i]) == ENCRYPTED_PREFIX[i] <==> text[i] == ENCRYPTED_PREFIX[i];
    }
  }

  lemma UpperCaseIs(c: char, upper: char)
    requires 'A' <= upper <= 'Z'
    ensures AsciiUpper(c) == upper <==> c == upper || c as int == upper as int - 'A' as int + 'a' as int
  {
  }

  /** Such a text exists. */
  lemma LowerCasePrefixIsReadableButNotIndexed()
    ensures Readable(Some(Clear("enc:1: a note"))) && IndexedText(Some(Clear("enc:1: a note"))) == None
  {
    var text := "enc:1: a note";
    assert text[0] != ENCRYPTED_PREFIX[0];
  }
}
