# Copywraith: a verified model

Copywraith keeps a clipboard history on a device and synchronises it with other devices through a server. This
project models the parts of it whose correctness is an argument over many functions, many steps or whole runs,
and proves that argument. `dafny verify dfyconfig.toml` checks everything.

## What is modelled

**Synchronisation** (`ServerTable`, `DeviceTable`, `SyncProtocol`, `SyncInvariants`, `SyncCoverage`, `SyncStars`,
`SyncOutbox`, `SyncLastChoice`, `SyncRuns`, `SyncImageRun`, `SyncLateAckRun`, `SyncRestartRun`,
`SyncStaleAttemptRun`, `SyncSafety`, `SyncClient`, `Timestamps`). A transition system of one device, the servers it
may be configured for, other clients of those servers and the user. Every storage transaction, lock region and message is one event, so a pull can be overtaken
anywhere by server writes, captures, toggles, deletes, resets, restarts and changes of servers. The guarantees in
`SyncSafety` hold in every reachable state; where one needs a condition, a concrete run shows that it does
(`SyncImageRun`, `SyncLateAckRun`, `SyncRestartRun`, `SyncStaleAttemptRun`). `SyncClient` holds the client's loop and
storage as classes, proved against the same step functions, together with the end of the loop and its result on an unchanging server.
`Timestamps` connects the server's text comparison of `(updated_at, id)` with the order of keys used everywhere else.

**Entries and encryption at rest** (`Flavors`, `StoredEntries`, `HashJourney`, `SearchIndex`, `ServerStorage`,
`Crypto`, `CryptoSafety`). Text flavors with the legacy conversions and the content hash; rows encrypted when they
are written or migrated in place; the full-text index that triggers keep in step; blob files. `ServerStorage` is a
class whose operations are tied to the server steps of the protocol. `CryptoState` is proved to refine a box with
one password, one key and a lock over every run.

**RTF decoders** (`Text`, `Braces`, `RtfDecoder`, `RtfRoundTrip`, `RtfItems`, `RtfGroups`, `RtfPreview`,
`RtfPreviewRoundTrip`, `RtfPreviewItems`). The Rust decoder on Unicode scalar values and the TypeScript one on UTF-16
code units, each as its loops and as a step function. `RtfItems` writes documents from items that each have a meaning
of their own; both decoders are proved to read the meanings, and exactly where they differ. `Text`, `Options` and `Sequences` hold what several
modules share.

**Desktop integration** (`Kde`, `Gnome`, `Quoting`, `GvariantLiterals`, `ShellQuoting`, `FileUris`). The KGlobalAccel
session under every pattern of D-Bus failures, the reconciliation of GNOME's shared list of keybindings, and quoting,
against readers of the formats that are written.

**License expressions** (`Spdx`, `SpdxGrammar`, `SpdxRoundTrip`, `SpdxEvaluation`). The recursive-descent parser
against a grammar of its own, and the evaluators of the notices script against the meaning "choose an operand at every
`OR`".

## Assumptions

- Every write of a server gives its row a key above every key that server ever handed out, deleted rows included;
  a device's own timestamps increase; fresh ULIDs are unused. Ids are modelled as the numbers their text spells.
- The endpoints configured together reach one server, and changes of settings are made one at a time. The watermark
  guarantee speaks of states in which no change of servers is half done, between the save of the new server and the
  reset that follows it.
- A storage transaction and a file replacement are single steps. Saving and clearing the stored watermark, and
  replacing the server's password file, may each fail; a local transaction that fails is not modelled.
- Handing an entry to ingestion is two events: the look-up of its hash, and the download and write that follow. The
  download touches no local state, so it is part of the second. An image whose row has no blob is dropped before the
  look-up.
- The protocol has one content hash per server row. It is what the server stores, which is whatever a client sends
  (`server/src/api.rs:366`), and also what a pulling device computes from the row's flavors. The two are the same for
  entries that a clipboard monitor built and that do not look encrypted (`HashJourney.OwnEntryIsRecognised`). Star
  agreement rests on this.
- Hash functions are uninterpreted; key derivation (HKDF is section 2 of RFC 5869) and AES-GCM (section 5 of
  RFC 5116) are symbolic, so that only the right key opens a sealed text. Stripping HTML is an uninterpreted
  parameter.

## Where the code differs from what it promises

- Clearing the stored watermark may fail, which is only logged. If it does when the user changes servers, and the
  process restarts before a pull has saved a new one, entries of the new server at or below the old server's watermark
  are never pulled. The same happens when the process dies between the save of the new server and the reset: nothing
  resets the cursor at the next start (`SyncSafety.OldWatermarkHidesEntries`, for both).
- A push request whose reply was given up may reach the server after a newer push of the row was acknowledged. It then
  puts the older star back under a newer key, the next pull takes it over, and the user's last choice is lost although
  no other client wrote (`SyncSafety.StaleAttemptLosesTheChoice`).
- An image whose server row has no blob is skipped by ingestion before the device looks whether it has the image,
  so its star is never taken over (`SyncSafety.StarsAgreeExactly`).
- An acknowledgement that arrives in the middle of a pull can mark a row as synced whose newer star on the server the
  pull has already passed over (`SyncSafety.LateAcknowledgementDisagrees`). Pushes that captures spawn, and manual
  synchronisation, overlap pulls.
- Encrypting existing rows shows to readers for rows whose own flavor is missing and whose stand-in is blank or
  unused by plain readers (`StoredEntries.MigrationIsInvisibleExactly`). A raw blob that begins with the bytes of
  the encrypted-blob header becomes unreadable (`ServerStorage.BlobMigrationIsInvisibleExactly`).
- The triggers compare with `LIKE`, which ignores the case of ASCII letters, while `is_encrypted_text` does not;
  text beginning `enc:1:` is readable but cannot be searched for (`SearchIndex.ReadableButNotIndexedExactly`).
- `unknown_needed` describes its result as the cheapest way of meeting an expression. It decides each `OR` by
  itself, so it can miss a cheaper way (`SpdxEvaluation.CheapestIsGreedy`). It does find a cheapest one when what the
  operands of an `AND` share is not up for choice in any of them (`SpdxEvaluation.SatisfiedExactly`). That condition is
  sufficient, not exact: an `AND` of `OR`s of unknown identifiers is an instance of minimum hitting set, so a condition
  equivalent to optimality would have to decide whether a greedy choice solves it.
- The two RTF decoders differ: the page's knows no dash, quote and bullet words; the desktop's takes `\~` and `\_`
  for the characters themselves and keeps the line feed after a backslash and a carriage return
  (`RtfPreviewItems.DecodersAgreeExactly`).
- Entries that are nothing but one text count as the same content whether it is plain, HTML or RTF
  (`Flavors.SameContentExactly`).
- `parse` accepts `AND+` as an identifier and returns `AND`, which no expression can spell.
- GNOME reconciliation never touches the earlier of two own rows with one label (`Gnome.DuplicatesRemain`).
- `parse_string_array` splits at commas inside quotes, so items with a comma do not survive.

## Model

| member | source | states |
|---|---|---|
| `SyncSafety.WatermarkMeansHandledExactly` | src-tauri/src/sync.rs:514-699 | In every reachable state with no change of servers half done: the watermark in memory was written by pulls that began after the latest reset, the last of which read the configured server, and every server entry whose present key is at or below it was handed to ingestion at that key since that reset, if and only if the process did not start from a stored watermark that outlived a reset. In that exception what fails for certain is when the watermark was written; that entries can really be missing is shown separately (`SyncSafety.OldWatermarkHidesEntries`). Server writes, abandoned and failed pulls, failed saves and restarts fall anywhere. |
| `SyncSafety.RestartKeepsTheAccountExactly` | src-tauri/src/sync.rs:327-392 | A restart with a stored watermark keeps that guarantee if and only if the stored watermark did not outlive the latest reset: its clearing succeeded, or a pull of a process that was reset has saved over it since. |
| `SyncSafety.SoundUntilRestart` | src-tauri/src/sync.rs:381-392 | Within one process the guarantee is never lost, whether clears and saves of the stored watermark succeed or fail. |
| `SyncSafety.SoundWhileClearsSucceed` | src-tauri/src/sync.rs:671-674 | Across any number of restarts it is not lost while every clear succeeds; failed saves alone are harmless. |
| `SyncSafety.OldWatermarkHidesEntries` | src-tauri/src/commands.rs:992-1010 | Both exceptions cost entries: in a reachable state after a failed clear, and in one after the process died between the save of the new server and the reset, no pull is in flight and an entry of the configured server lies at or below the watermark, was never handed to ingestion, and its content is not on the device. |
| `SyncRestartRun.OldWatermarkHidesEntries` | src-tauri/src/sync.rs:327-392 | The runs: the user changes servers, the clear fails or the reset never happens, the process restarts from the old server's watermark, and a complete pull of the new server leaves its entry out. |
| `SyncSafety.StarsAgreeExactly` | src-tauri/src/lib.rs:879-891 | Synced rows at or below the watermark have the server's star in all runs of a kind, for all entries of a kind, if and only if the runs keep pushes and pulls apart, as the loop body does, and the entries are not images whose server row has no blob. |
| `SyncSafety.SkippedImageDisagrees` | src-tauri/src/sync.rs:895-903 | For those images it fails in the loop body as well: pulling one skips it. |
| `SyncSafety.LateAcknowledgementDisagrees` | src-tauri/src/clipboard.rs:184-189 | Keeping pushes and pulls apart is needed for every other kind of entry: a run in which they overlap ends with a synced row whose star is not the server's. |
| `SyncLateAckRun.LateAckDisagrees` | src-tauri/src/sync.rs:486-508 | The run: a server takes a push, another client stars the entry, a pull hands it to ingestion while the row is still pending, and then the acknowledgement arrives. |
| `SyncSafety.StarsAgreeInRuns` | src-tauri/src/storage.rs:493-541 | The direction of star agreement that holds: for all runs in which pushes and pulls do not overlap and all payloads the server can serve. |
| `SyncSafety.NothingLeavesTheOutboxUndelivered` | src-tauri/src/storage.rs:617-664 | For every interleaving of captures, toggles, deletes, lost replies and late acknowledgements: a row is in the outbox with the user's last choice, or some server took a push that carried that choice. |
| `SyncSafety.LastChoiceSurvives` | src-tauri/src/sync.rs:486-508 | From the moment the configured server applies an attempt that carries the user's last choice about a pending row, every later state shows the choice on the server and on the device, in runs of any interleaving in which no other client decides about the content, the user does not decide anew or change servers, and no attempt older than the choice is applied; pulls, acknowledgements, retries, resets and restarts fall anywhere. |
| `SyncSafety.LastChoiceIsShownExactly` | server/src/storage.rs:423-450 | From any reachable state in which a server shows a star for a content, and while no other client decides about the content: it shows that star if and only if the last attempt about the content that it has applied since, if any, carries it. |
| `SyncSafety.StaleAttemptLosesTheChoice` | src-tauri/src/sync.rs:486-508 | The condition about older attempts is needed, in the loop body too: without a write of any other client, a reachable state has a row that is not in the outbox and shows another star than the user chose last, as does its server. |
| `SyncStaleAttemptRun.StaleAttemptWins` | src-tauri/src/sync.rs:486-508 | The run: an attempt's reply is given up, the user stars the row, the new attempt is acknowledged, the old request is applied, and a pull takes its star over. |
| `SyncLastChoice.ChoiceStep` | src-tauri/src/storage.rs:509-541 | Each single step that leaves the choice alone keeps it on server and device, and keeps what a pull in flight has read harmless to it. |
| `SyncLastChoice.ServerShowsTheLastAttempt` | server/src/storage.rs:423-450 | Over any such run the server's star is the one the last applied attempt carried. |
| `SyncSafety.OneRowPerContent` | server/src/storage.rs:423-450 | Retried and repeated pushes leave at most one row per content hash on every server and on the device. |
| `SyncCoverage.CoverageKept` | src-tauri/src/sync.rs:536-679 | Each single step of the protocol keeps the coverage invariant: what the watermark, and the pull in flight, account for. |
| `SyncCoverage.CommitKeepsCoverage` | src-tauri/src/sync.rs:659-679 | Promoting the newest position seen keeps the coverage invariant, a promotion overtaken by a reset and a save that fails included. |
| `SyncCoverage.StoppingIsAccounted` | src-tauri/src/sync.rs:611-624 | Ending a walk at the watermark loses nothing: all that was still ahead is at or below the watermark. |
| `SyncCoverage.PageIsAccounted` | server/src/api.rs:442 | A keyset page, with the server's claim whether more follows, puts every entry below the cursor either on the page or still ahead. |
| `SyncStars.StarsKept` | src-tauri/src/storage.rs:509-541 | Each step of a run with pushes and pulls kept apart keeps star agreement together with its strengthening for pulls in flight. |
| `SyncOutbox.OutboxKept` | src-tauri/src/sync.rs:486-508 | Each step keeps the outbox invariant, acknowledgements of any earlier attempt included. |
| `SyncOutbox.AckKeepsOutbox` | src-tauri/src/storage.rs:617-664 | An acknowledgement clears the outbox flag only of a row whose present state the acknowledged push carried. |
| `SyncInvariants.TablesKept` | server/src/storage.rs:423-450 | Every step keeps server and device tables sound: keyed by id, one row per content, keys below the largest key handed out. |
| `SyncInvariants.PageKept` | src-tauri/src/sync.rs:553-653 | A fetched page stays usable while other clients write: its rows were as they are, or have moved above everything the page's answer could show. |
| `SyncImageRun.ImageSkipped` | src-tauri/src/sync.rs:895-903 | A concrete run in which an image that lost its blob is starred on the server and the device that has it keeps the old star. |
| `ServerTable.ClampLimit` | crates/copywraith-core/src/api_types.rs:83-85 | The page size a server uses is the requested one, or the nearer of the bounds 1 and 200. |
| `ServerTable.LastPageIsComplete` | server/src/api.rs:422-442 | When the server says there is no more, the page holds every row below the cursor. |
| `ServerTable.CreateOnlyMovesUp` | server/src/storage.rs:423-450 | Creating or re-copying an entry only moves that entry above every key handed out so far. |
| `DeviceTable.IngestOnlyTakesOver` | src-tauri/src/sync.rs:883-963 | Ingestion removes no row, changes no row with a pending local change, and adds at most the remote entry, already synced. |
| `DeviceTable.HandledMeansPresentOrSkipped` | src-tauri/src/sync.rs:883-963 | After an ingestion without a transient error the content is present with the remote star unless a local change is pending, or the entry was skipped: its blob is gone or has other bytes. For an image row without a blob the content is that of the blob the server answers with. |
| `DeviceTable.IngestsExactly` | src-tauri/src/sync.rs:883-963 | Ingestion in every case: it fails exactly while the download must be tried again; otherwise unknown content is stored under the server's id and time if and only if the entry is not to be skipped, and of known content a synced row takes over the server's star. |
| `DeviceTable.SkippedExactly` | src-tauri/src/sync.rs:914-931 | Content unknown before an ingestion that did not fail is known afterwards if and only if its blob was neither gone nor had other bytes; if it was skipped, the table is as before. |
| `DeviceTable.CapturedIsNewest` | src-tauri/src/storage.rs:220-297 | A captured content has one row, newer than every other; nothing else about known content changes, and new content is unsynced and unstarred. |
| `SyncClient.LocalStorage.InsertEntry` | src-tauri/src/storage.rs:220-297 | A capture of known content moves that row to the top; other content becomes one new unsynced, unstarred row. |
| `SyncClient.LocalStorage.ToggleStar` | src-tauri/src/storage.rs:493-507 | Flips the star, puts the row in the outbox and gives it a new timestamp; an unknown id is an error. |
| `SyncClient.LocalStorage.MarkSyncedIfUnchanged` | src-tauri/src/storage.rs:628-664 | Clears the outbox flag exactly when the row still has the pushed timestamp, and reports whether it did. |
| `SyncClient.LocalStorage.ApplyRemoteStar` | src-tauri/src/storage.rs:509-541 | Takes the server's star for a synced row with that content, and changes nothing else. |
| `SyncClient.LocalStorage.InsertRemoteEntry` | src-tauri/src/storage.rs:312-377 | Adds a synced row under the server's id, unless the content or the id is already there. |
| `SyncClient.LocalStorage.DeleteEntry` | src-tauri/src/storage.rs:543-574 | Removes exactly the row with that id. |
| `SyncClient.ListEntries` | server/src/storage.rs:578-740 | The query: exactly the newest rows below the cursor, newest first, with the number of all rows below it. |
| `SyncClient.CursorShrinks` | src-tauri/src/sync.rs:639-653 | Every page leaves strictly fewer rows below the cursor, whatever other clients write meanwhile, so the walk ends. |
| `SyncClient.ExactlyTheWanted` | src-tauri/src/sync.rs:536-653 | On an unchanging server a finished walk visited exactly the entries above the old watermark. |
| `SyncClient.VisitedIsPresent` | src-tauri/src/sync.rs:611-637 | After ingesting a list of entries without a transient error every one of them is on the device, unless the server had nothing to store. |
| `SyncClient.SyncClient.constructor` | src-tauri/src/sync.rs:327-357 | A client starts from the watermark stored on disk. |
| `SyncClient.SyncClient.ResetPullCursor` | src-tauri/src/sync.rs:381-392 | A reset forgets the watermark in memory and starts a new generation; the stored one is gone exactly if clearing it succeeded. |
| `SyncClient.SyncClient.IngestRemoteEntry` | src-tauri/src/sync.rs:883-963 | The method's effect on the local table is the ingestion function, in every branch. For unknown content behind a blob: a transient error changes nothing and is reported, a blob that is gone or has other bytes stores nothing and counts as done with, and the right bytes store the synced row under the server's id and time. An image without a blob is skipped before any look-up. |
| `SyncClient.SyncClient.IngestPage` | src-tauri/src/sync.rs:611-637 | Hands the entries above the watermark to ingestion in order, and stops at the first that is not above it. |
| `SyncClient.SyncClient.CommitWatermark` | src-tauri/src/sync.rs:659-679 | Moves the watermark only forward, only after a pull without transient errors, and only when no reset came in between; the stored one follows exactly if saving succeeded. |
| `SyncClient.SyncClient.PullPage` | src-tauri/src/sync.rs:553-653 | One round keeps the walk's account, or ends it with nothing missed; a round that goes on has fewer rows below its cursor. |
| `SyncClient.SyncClient.PullNewEntries` | src-tauri/src/sync.rs:514-699 | A completed pull missed nothing between the old watermark and the newest position seen, leaves the later of the two as the watermark if nothing failed transiently, and everything it visited is then on the device unless the server had nothing to store; on an unchanging server it ingested exactly the entries above the watermark, newest first, each once, whether it probed or walked in full pages; the count it returns is how many of the visited entries changed the local table; a pull cut short leaves the watermark alone. |
| `RtfDecoder.StripRtf` | crates/copywraith-core/src/content.rs:191-353 | The loop over the document computes the step-by-step specification `Strip` for every input; what that yields is `RtfItems.ItemsAreStripped`. |
| `RtfDecoder.SkipFallback` | crates/copywraith-core/src/content.rs:385-406 | Fallback characters are counted as the code counts them: an escaped byte is one character. |
| `RtfDecoder.ReadControlWord` | crates/copywraith-core/src/content.rs:276-330 | One control word, its parameter and its delimiter, as specified. |
| `RtfDecoder.ReadEscape` | crates/copywraith-core/src/content.rs:238-332 | One escape of any kind, as specified. |
| `RtfDecoder.Round` | crates/copywraith-core/src/content.rs:208-345 | One round of the loop is one step of the specification. |
| `RtfRoundTrip.WriteThenStrip` | crates/copywraith-core/src/content.rs:191-406 | For every non-empty trimmed text: writing each UTF-16 unit as a signed `\uN?` under `\uc1` and stripping the document gives the text back, surrogate pairs split over two escapes included. |
| `RtfRoundTrip.CharIsPushed` | crates/copywraith-core/src/content.rs:358-380 | A character written as one or two UTF-16 units is decoded as that character, with no half pair left over. |
| `RtfItems.ItemsAreStripped` | crates/copywraith-core/src/content.rs:191-353 | For every document written from plain characters, escaped braces and backslashes, symbols, `\'xx` bytes in either case, named words such as `\par` and `\emdash`, formatting words with parameters, Unicode escapes, characters with a counted run of fallback characters, continued lines, header tables and groups of any nesting: stripping gives the trimmed concatenation of the items' meanings, or the trimmed document when there is none. |
| `RtfItems.ItemIsRead` | crates/copywraith-core/src/content.rs:208-345 | Each item leaves the loop after its text, with its meaning added to the output and nothing else changed. |
| `RtfItems.SameCodePage` | crates/copywraith-core/src/content.rs:149-187 | An escaped byte means its character of Windows code page 1252, written here as a table of exceptions. |
| `RtfItems.StandInsAreSkipped` | crates/copywraith-core/src/content.rs:385-406 | A run of fallback characters, plain or escaped bytes, is skipped when it is as long as the count asks for. |
| `RtfGroups.SkippedGroupIsSteppedOver` | crates/copywraith-core/src/content.rs:209-236 | From the brace that opens a skippable group the loop reaches the position after the matching brace with output, depth, fallback count and pending surrogate unchanged, for any nesting. |
| `RtfPreview.RtfToPlainText` | server/ui/src/lib/text.ts:81-244 | The loop over the document computes the specification `PlainText` for every input; what that yields is `RtfPreviewItems.ItemsArePreviewed`. |
| `RtfPreview.ReadEscape` | server/ui/src/lib/text.ts:130-232 | What follows a backslash, as specified. |
| `RtfPreview.ReadControlWord` | server/ui/src/lib/text.ts:181-231 | One control word, its parameter and its delimiter, as specified. |
| `RtfPreview.SkipFallback` | server/ui/src/lib/text.ts:215-230 | The loop over fallback units counts them as specified: an escaped byte is one. |
| `RtfPreviewRoundTrip.WriteThenPreview` | server/ui/src/lib/text.ts:81-244 | For every sequence of UTF-16 units, lone surrogates included: previewing the written document gives the units back with their white space flattened, and gives them back as they are exactly when their white space is flat. |
| `RtfPreviewRoundTrip.FlattenedExactly` | server/ui/src/lib/text.ts:243-243 | What the final replacement and trim leave has no white space but single inner spaces, and only such a text is left as it is. |
| `RtfPreviewRoundTrip.PreviewAgreesWithStrip` | server/ui/src/lib/text.ts:155-170 | Of every written text the preview shows what the Rust decoder reads, flattened. |
| `RtfPreviewItems.ItemsArePreviewed` | server/ui/src/lib/text.ts:81-244 | For the same documents, characters beyond the basic plane included: the preview is the concatenation of the items' meanings with its white space flattened. |
| `RtfPreviewItems.ItemIsRead` | server/ui/src/lib/text.ts:98-236 | Each item leaves the preview's loop after its units, with its meaning added and the stack of fallback counts as it was. |
| `RtfPreviewItems.DecodersAgreeExactly` | server/ui/src/lib/text.ts:81-244 | The desktop's decoder and the page's read the same text from such a document if and only if it has no dash, quote or bullet word, no non-breaking space or hyphen, and no continued line that ends in two characters. |
| `RtfPreviewItems.OpensSkippedGroupExactly` | server/ui/src/lib/text.ts:92-112 | A group is skipped exactly when the name of a header table, or an ignorable destination, follows its brace. |
| `RtfPreview.Round` | server/ui/src/lib/text.ts:98-236 | One round of the loop is one step of the specification. |
| `RtfPreview.SkippedGroupIsSteppedOver` | server/ui/src/lib/text.ts:98-128 | The same for the preview's decoder, with its stack of fallback counts unchanged. |
| `RtfPreview.StackTracksDepth` | server/ui/src/lib/text.ts:98-122 | At every step the stack holds one count per open group. |
| `RtfPreview.UcIsScoped` | server/ui/src/lib/text.ts:86-122 | Whatever a balanced group does to the fallback count, the count after it is the count before it. |
| `Flavors.DecryptInvertsEncrypt` | server/src/storage.rs:288-302 | Decrypting with the key gives back every text that was readable before it was encrypted. |
| `Flavors.SameContentExactly` | crates/copywraith-core/src/models.rs:162-224 | Two entries hash alike if and only if they are images with the same bytes, or each is nothing but the same text (plain, HTML or RTF alike), or they are alike in everything. |
| `StoredEntries.MigrationIsInvisibleExactly` | server/src/storage.rs:806-891 | For every row without encrypted-looking text: reading it with the key after encryption equals reading it without before, exactly when the row does not gain a flavor (own flavor missing, and a stand-in that plain readers do not use). |
| `StoredEntries.MarkupOnlyTextEntryChanges` | server/src/storage.rs:304-320 | A row for which the migration does show: a text entry whose only flavor is HTML without text. |
| `StoredEntries.EncryptingTwiceChangesNothing` | server/src/storage.rs:806-891 | Encrypting a row again, with any key, changes nothing. |
| `StoredEntries.MigratedTextNeedsTheKey` | server/src/storage.rs:304-320 | Reading an encrypted row with another key is an error. |
| `StoredEntries.StrippedRtfIsNotBlank` | crates/copywraith-core/src/models.rs:124-147 | Plain text derived from RTF that is not blank is not blank. |
| `StoredEntries.NewRowIsSearchedBy` | crates/copywraith-core/src/models.rs:124-147 | A new entry is searched by the first text it has: its trimmed plain text, then what is left of its HTML, then what is left of its RTF; an entry without any is not searched. |
| `StoredEntries.NewRowReadsBack` | server/src/storage.rs:452-551 | Reading a new row without encryption gives back type, flavors, blob, star and time, and as its text the flavor its type names or the plain text. |
| `StoredEntries.LegacyTextFillsOneFlavor` | crates/copywraith-core/src/models.rs:69-122 | The text column fills in the one flavor the type names, if that is missing and the text is not blank, and changes no other. |
| `StoredEntries.EveryTextColumnIsSealed` | server/src/storage.rs:498-520 | Encrypting a row seals the text of all five columns, the search text included, unless it looks encrypted already, and changes no other column. |
| `HashJourney.HashSurvivesExactly` | crates/copywraith-core/src/models.rs:162-224 | Along capture, local row, push, server row and pull the content hash is unchanged exactly when the entry has the flavor its type names, or, on a server with encryption, no flavor that can stand in for it, or, on one without, no text that the pulling device derives from the others. |
| `HashJourney.OwnFlavorSurvives` | crates/copywraith-core/src/models.rs:69-122 | Every resolution of flavors on that way leaves such an entry's flavors as they were. |
| `HashJourney.StandInChangesTheFlavors` | server/src/storage.rs:914-947 | Every other entry comes back with other flavors, with encryption and without. |
| `HashJourney.OwnEntryIsRecognised` | src-tauri/src/clipboard.rs:55-146 | A device that pulls back what its monitor captured (text bundles and images, none looking encrypted) finds it present and adds no row. |
| `SearchIndex.UpdateMirrors` | server/src/storage.rs:211-218 | The update trigger keeps the index a mirror of the rows: present, not encrypted-looking search texts, once each, and nothing else. |
| `SearchIndex.InsertMirrors` | server/src/storage.rs:202-205 | The same for the insert trigger. |
| `SearchIndex.DeleteMirrors` | server/src/storage.rs:206-210 | The same for the delete trigger. |
| `SearchIndex.MirrorIsUnique` | server/src/storage.rs:188-238 | Triggers and a rebuild lead to the same index. |
| `SearchIndex.MigrationEmptiesTheIndex` | server/src/storage.rs:806-891 | Once all rows are encrypted the index holds no text. |
| `SearchIndex.PrefixedTextMatches` | server/src/storage.rs:202-218 | Whatever `is_encrypted_text` accepts is kept out of the index. |
| `SearchIndex.LowerCasePrefixIsReadableButNotIndexed` | server/src/storage.rs:202-218 | The triggers' `LIKE` ignores letter case, so text such as `enc:1:` in lower case is readable and yet not indexed. |
| `SearchIndex.ReadableButNotIndexedExactly` | server/src/storage.rs:202-218 | A readable text is missing from the index exactly when it begins with the prefix `ENC:1:` with some of its letters in lower case. |
| `ServerStorage.MagicBytesBecomeUnreadable` | server/src/storage.rs:894-910 | A file for which blob migration shows: the four bytes of the encrypted-blob header. |
| `ServerStorage.Storage.CreateEntry` | server/src/storage.rs:411-552 | Known content is moved to the top and re-starred without looking at the upload, and comes back as it now reads or as the error of decrypting it; other content becomes one row, encrypted if the key is known, with its blob; a bad upload changes nothing; without a key the index finds a new row by its trimmed plain text, and with one by nothing; on the rows the protocol sees this is its create step. |
| `ServerStorage.Storage.UpdateEntryStarred` | server/src/storage.rs:742-750 | Sets the star and the time of one row, the protocol's star step; an unknown id is reported. |
| `ServerStorage.Storage.DeleteEntry` | server/src/storage.rs:752-781 | Removes the row and, with the last row that refers to it, the blob file; the protocol's delete step. |
| `ServerStorage.Storage.EncryptAllEntries` | server/src/storage.rs:806-891 | Encrypts every row, leaves index and blobs in step, and does not show in the protocol's view of the rows. |
| `ServerStorage.Storage.EncryptAllBlobs` | server/src/storage.rs:894-910 | Encrypts exactly the blob files that are not encrypted. |
| `ServerStorage.Storage.RebuildIndex` | server/src/storage.rs:188-238 | Whatever the index held, afterwards it mirrors the rows. |
| `ServerStorage.MigrationIsInvisibleToReaders` | server/src/api.rs:812-817 | The whole migration of a server that was not encrypted, rows and blobs, is invisible to readers exactly when no row gains a flavor and no blob begins with the encrypted-blob header. |
| `ServerStorage.RowMigrationIsInvisibleExactly` | server/src/storage.rs:806-891 | The half about the rows. |
| `ServerStorage.SecondMigrationChangesNothing` | server/src/storage.rs:806-891 | A second migration changes no row. |
| `ServerStorage.BlobMigrationIsInvisibleExactly` | server/src/storage.rs:894-910 | A raw blob reads the same after encryption exactly when it does not begin with the encrypted-blob header, and a second run changes nothing. |
| `ServerStorage.EveryBlobIsSealed` | server/src/storage.rs:894-910 | Migration leaves every blob file sealed, except those that begin with the bytes `ENCB`, which stay as they are. |
| `ServerStorage.UploadReadsBack` | server/src/storage.rs:457-480 | An upload is stored under its own hash, sealed when there is a key, reads back as it was sent, and touches no other file. |
| `ServerStorage.RecopyIsCreate` | server/src/storage.rs:423-450 | Moving a known row to the top is the protocol's create step for its content. |
| `ServerStorage.StoreIsCreate` | server/src/storage.rs:452-551 | Storing a new row, encrypted or not, is that step for new content. |
| `Crypto.CryptoState.LoadFrom` | server/src/crypto.rs:54-76 | A missing file starts unconfigured, an invalid one fails and is left alone, and a stored one starts locked with its configuration. |
| `Crypto.CryptoState.SetupPassword` | server/src/crypto.rs:92-142 | Only an unconfigured server takes a password; a failed write changes nothing. |
| `Crypto.CryptoState.VerifyAndUnlock` | server/src/crypto.rs:145-199 | The fast path by the cached digest, the slow path by key derivation, and what each leaves cached. |
| `Crypto.CryptoState.LockSession` | server/src/crypto.rs:263-266 | Locking forgets the key and the cached digest; file and configuration stay. |
| `Crypto.CryptoState.ChangePassword` | server/src/crypto.rs:202-260 | The old password is verified on the slow path; the same key is sealed under the new one. |
| `CryptoSafety.CryptoRefinesBox` | server/src/crypto.rs:92-266 | Over every run of setups, logins, changes, locks, restarts and crashes, every call ends as with a box that remembers one password, one key and whether it is unlocked, and the stored and cached keys are that box's. |
| `CryptoSafety.TheKeyNeverChanges` | server/src/crypto.rs:202-260 | After setup the sealed key is the same in every later state, and any cached key equals it. |
| `CryptoSafety.BothPathsAcceptExactlyThePassword` | server/src/crypto.rs:145-199 | In every reachable state the fast and the slow path accept exactly the current password, and acceptance leaves the key unlocked. |
| `CryptoSafety.WrongOldPasswordChangesNothing` | server/src/crypto.rs:208-218 | A change refused for a wrong old password leaves file, configuration and session as they were. |
| `CryptoSafety.OpensExactly` | server/src/crypto.rs:145-199 | A loaded file, edited or not, stands for a box with a password exactly when that password opens it; at most one does. |
| `CryptoSafety.UnopenableFileIsKept` | server/src/crypto.rs:54-260 | Over every run from a file that no password opens, no setup, login or change succeeds, and the file stays as it is. |
| `CryptoSafety.KeyIsAtHandExactly` | server/src/crypto.rs:92-266 | In every reachable state the key and the digest are cached exactly while the box is unlocked: since the last accepted setup, login or change no lock, restart or crash has come. |
| `CryptoSafety.LockedKeyIsGone` | server/src/crypto.rs:263-266 | After any run that ends with a lock or a restart neither is cached, and no password takes the fast path. |
| `CryptoSafety.UnreadableFileIsKept` | server/src/crypto.rs:54-76 | From a file that is not readable as a configuration every call fails, over every run, and the file is not overwritten. |
| `CryptoSafety.OnlyAcceptedCallsWrite` | server/src/crypto.rs:92-260 | A readable file changes only by a setup or a change of password that is accepted, and memory and file stay in step. |
| `Spdx.ParseExpression` | scripts/rust-notices.py:162-216 | The recursive descent over one shared position returns the grammar's tree, or fails, for every input; what the grammar accepts and yields is `SpdxGrammar.AcceptsExactly`. |
| `Spdx.Parser.ReadPrimary` | scripts/rust-notices.py:180-197 | One operand, as the grammar says, with the position after it. |
| `Spdx.Parser.ReadConjunction` | scripts/rust-notices.py:199-204 | The loop over `AND` operands, as the grammar says. |
| `Spdx.Parser.ReadDisjunction` | scripts/rust-notices.py:206-211 | The loop over `OR` operands, as the grammar says. |
| `SpdxRoundTrip.PrintThenParse` | scripts/rust-notices.py:162-216 | The fully parenthesised text of any tree the parser can return parses to that tree, or fails if, and only if, an identifier in it reads as a keyword. |
| `SpdxRoundTrip.ParsePrintParse` | scripts/rust-notices.py:162-216 | So printing and parsing again changes no tree that any input parses to, keyword identifiers apart. |
| `SpdxRoundTrip.KeywordWithPlusParses` | scripts/rust-notices.py:180-197 | Such identifiers exist: `AND+` is taken for an identifier and stripped to `AND`. |
| `SpdxGrammar.AcceptsExactly` | scripts/rust-notices.py:162-216 | The parser accepts exactly the token lists of a grammar of its own: choices of terms of factors, operators in capital or small letters, an exception after an identifier, parentheses only where they are wanted. Every expression is read as its tree, without exceptions and trailing plus signs, `AND` binding tighter than `OR`. |
| `SpdxGrammar.PiecesAreTokenized` | scripts/rust-notices.py:157-159 | The tokens of a text are those of its pieces, whatever white space stands between them, with a slash for `OR`. |
| `SpdxGrammar.EverySpellingParses` | scripts/rust-notices.py:157-216 | So every spelling of an expression parses to the expression's tree. |
| `SpdxGrammar.ExceptionIsDropped` | scripts/rust-notices.py:193-197 | `GPL-2.0 WITH Classpath-exception-2.0` is read as `GPL-2.0`. |
| `SpdxEvaluation.FamilyExactly` | scripts/rust-notices.py:225-229 | An identifier belongs to the family of the first row of the table whose prefix begins it, and else to none. |
| `SpdxEvaluation.TextsALicenseNeeds` | scripts/rust-notices.py:238-245 | An LGPL-3 identifier needs the texts of both GNU families, LGPL-2 and GPL ones only their own, and an identifier of no family needs a text of its own. |
| `SpdxEvaluation.NoneExactlyWhenEveryChoiceMisses` | scripts/rust-notices.py:232-251 | `unknown_needed` is `None` exactly when every way of choosing at the `OR`s needs a known text that is missing. |
| `SpdxEvaluation.NeededIsAChoice` | scripts/rust-notices.py:232-251 | Otherwise it is the set of unknown licenses of a real choice that misses nothing. |
| `SpdxEvaluation.SatisfiedIsWitnessed` | scripts/rust-notices.py:254-257 | Acceptance is witnessed by a choice the texts found meet. |
| `SpdxEvaluation.SatisfiedExactly` | scripts/rust-notices.py:254-257 | Acceptance is equivalent to such a choice for every expression in which no unknown identifier that two operands of an `AND` share occurs below an `OR` in either of them. |
| `SpdxEvaluation.RepetitionIsFree` | scripts/rust-notices.py:246-249 | Expressions such as `A AND A` are in the class, and repeating a license that is needed anyway costs nothing. |
| `SpdxEvaluation.CheapestIsGreedy` | scripts/rust-notices.py:246-251 | A family outside that class for which it is not: an `OR` between two unknown identifiers, the later of which is needed anyway, is decided for the wrong one, so one text that suffices is refused. |
| `SpdxEvaluation.CurlOrZlibAcknowledgement` | scripts/rust-notices.py:232-257 | Two SPDX identifiers for which that happens. |
| `SpdxEvaluation.UnavoidableExactlyWhenEveryChoiceMatches` | scripts/rust-notices.py:260-265 | Copyleft is unavoidable exactly when every choice contains a matching license. |
| `Kde.FiresOnceBetweenReleases` | src-tauri/src/linux/shortcuts/kde.rs:145-155 | Between two firings of one action there is an authenticated release or a clear of the session. |
| `Kde.UnauthenticatedSignalsChangeNothing` | src-tauri/src/linux/shortcuts/kde.rs:205-218 | Signals that are not authenticated might as well not have been received, wherever they stand in the queue. |
| `Kde.AuthenticSignal` | src-tauri/src/linux/shortcuts/kde.rs:205-218 | A signal is authenticated exactly when owner, object path, component and action id all match. |
| `Kde.SignalsExactly` | src-tauri/src/linux/shortcuts/kde.rs:145-155 | A press fires an action that is not held, a release lets it go, and no other message has an effect. |
| `Kde.PressFires` | src-tauri/src/linux/shortcuts/kde.rs:145-155 | In a queue, every press of an action that is not held at that point fires it in its turn, before whatever follows. |
| `Kde.CleanupKeepsTheList` | src-tauri/src/linux/shortcuts/kde.rs:124-143 | A cleanup round leaves listed exactly the registrations attempted and not acknowledged as deactivated, once each. |
| `Kde.RegisteringKeepsTheList` | src-tauri/src/linux/shortcuts/kde.rs:177-184 | An attempt to register is listed once, before its outcome is known. |
| `Kde.AttemptsExactly` | src-tauri/src/linux/shortcuts/kde.rs:177-203 | The three actions are registered in their order, up to the first of which a call fails, that one included. |
| `Kde.RegistrationSucceedsExactly` | src-tauri/src/linux/shortcuts/kde.rs:177-203 | Registration succeeds if and only if both calls of every action and the look-up of the component do. |
| `Kde.Session.Deactivate` | src-tauri/src/linux/shortcuts/kde.rs:124-143 | Every listed registration is tried, in order; failures stay listed, acknowledged ones leave; nothing is held afterwards. |
| `Kde.Session.Register` | src-tauri/src/linux/shortcuts/kde.rs:177-203 | The actions are attempted in order up to the first whose calls fail; the component path changes only when all succeed. |
| `Kde.Session.HandleSignal` | src-tauri/src/linux/shortcuts/kde.rs:145-155 | A `globalShortcutPressed` of this owner and path with the component `copywraith` and an action's id fires the action if and only if it is not held, and leaves it held; a `globalShortcutReleased` lets it go; every other message has no effect. |
| `Kde.Session.Poll` | src-tauri/src/linux/shortcuts/kde.rs:99-122 | Without a reply nothing but the queue changes; with the same owner the queue is replayed; with another one, the old registrations are cleaned up, everything of the old owner is dropped, the actions are registered, and only signals received while registering with the new one are replayed, or kept in the queue when registering failed; the cleanup list and the held actions stay right for every pattern of failures. |
| `Gnome.NextFreePath` | src-tauri/src/linux/shortcuts.rs:562-567 | The lowest free slot: a path of the shape `…/custom-keybindings/customN/` that is not in the list, while those of all smaller numbers are. |
| `Gnome.LowestFree` | src-tauri/src/linux/shortcuts.rs:562-567 | A free slot exists within the list's length. |
| `Gnome.Gsettings.InstallBindings` | src-tauri/src/linux/shortcuts.rs:422-512 | The loop over the actions computes the reconciliation function for every list, row contents and settings. So, for distinct paths and labels that are not doubled, exactly one own row is left for each of the three labels that is bound, as wanted, and other applications' rows keep order and contents. |
| `Gnome.InstallReconcilesExactly` | src-tauri/src/linux/shortcuts.rs:422-512 | For a list of distinct paths: afterwards there is exactly one own row per bound action, as wanted, and no other own row, if and only if no two own rows carried one label. |
| `Gnome.InstallReconciles` | src-tauri/src/linux/shortcuts.rs:422-512 | In that case other applications' rows keep order and contents as well. |
| `Gnome.DuplicatesRemain` | src-tauri/src/linux/shortcuts.rs:430-440 | With two own rows of one label, one of them is never claimed and stays. |
| `Gnome.InstallIsIdempotent` | src-tauri/src/linux/shortcuts.rs:422-512 | Installing over a reconciled list changes neither list nor rows. |
| `Gnome.RemoveBindings` | src-tauri/src/linux/shortcuts.rs:515-543 | Each listed row is looked up in its turn and reset if ours; the list is written only if one was. |
| `Gnome.RemovalLeavesTheOthers` | src-tauri/src/linux/shortcuts.rs:515-543 | For distinct paths removal leaves exactly the other applications' rows, in order. |
| `Quoting.UnquoteInvertsGvariant` | src-tauri/src/linux/shortcuts.rs:599-630 | `unquote` inverts `gvariant_string` on every string, although both replace in two passes. |
| `Quoting.StringArraySurvivesExactly` | src-tauri/src/linux/shortcuts.rs:604-620 | `parse_string_array` inverts `format_string_array` exactly on lists of non-empty items without commas. |
| `Quoting.QuotesAreUnescaped` | src-tauri/src/linux/shortcuts.rs:629-629 | The first pass of unescaping finds exactly the escaped quotes. |
| `GvariantLiterals.LiteralIsTheText` | src-tauri/src/linux/shortcuts.rs:599-601 | A reader of the GVariant text format reads the literal as the text, for every text. |
| `GvariantLiterals.ListIsTheItems` | src-tauri/src/linux/shortcuts.rs:617-620 | Such a reader reads the written list as the items, for every list, also where `parse_string_array` does not. |
| `ShellQuoting.QuotedIsOneWord` | src-tauri/src/linux/shortcuts.rs:586-596 | A POSIX word parser reads the quoted text as that one word, for every text. |
| `ShellQuoting.CommandIsLauncherAndFlag` | src-tauri/src/linux/shortcuts.rs:482-482 | The command written to a keybinding is the launcher path and its flag, two words, for every path. |
| `FileUris.PathSurvivesExactly` | src-tauri/src/native_clipboard.rs:366-441 | The URI of a path gives the path back exactly when the path is absolute and holds no NUL. |
| `FileUris.DecodeAfterEncode` | src-tauri/src/native_clipboard.rs:382-441 | Decoding an encoded path gives the path with every NUL left as `%00`. |
| `FileUris.TextWithoutEscapesIsKept` | src-tauri/src/native_clipboard.rs:382-406 | Text without an escape of a non-NUL byte, such as `100%` or `%zz`, is decoded to itself. |
| `FileUris.PartsAreDecoded` | src-tauri/src/native_clipboard.rs:382-406 | Decoding replaces exactly the escapes of two hex digits, in either case, by their bytes, and leaves an escaped NUL and every other byte as they are. |
| `FileUris.OwnUrisAreDecoded` | src-tauri/src/native_clipboard.rs:366-380 | A `file` URI of this host, with or without `localhost`, gives the decoded path. |
| `FileUris.OnlyOwnUrisAreDecoded` | src-tauri/src/native_clipboard.rs:366-380 | Every other entry is returned as it is: plain paths, other hosts, relative paths. |
| `FileUris.EncodedIsUriText` | src-tauri/src/native_clipboard.rs:431-441 | An encoded path holds unreserved bytes, slashes and escapes with capital digits, nothing else. |
| `FileUris.PathBytesAreKept` | src-tauri/src/native_clipboard.rs:431-441 | A path of such bytes is its own encoding. |
| `FileUris.PercentDecode` | src-tauri/src/native_clipboard.rs:382-406 | The decoding loop, on bytes. |
| `FileUris.PercentEncodePath` | src-tauri/src/native_clipboard.rs:431-441 | The encoding loop, on bytes. |
| `Timestamps.SqlOrderIsKeyOrder` | server/src/storage.rs:615-630 | The text comparison of the keyset query is the comparison of instants and ids that the client and the protocol use, for years 0 to 9999. |
| `Timestamps.StampOrder` | server/src/storage.rs:443 | Text order of `to_rfc3339` times is time order, with fractions of no, three, six or nine digits mixed. |
| `Timestamps.StampTextIsExact` | src-tauri/src/sync.rs:647-650 | Two times have the same text exactly when they are the same. |
| `Timestamps.StampIsSpelledOut` | server/src/storage.rs:443 | The text of a time has year, month, day, hour, minute and second in their places, with the separators of section 5.6 of RFC 3339, and then the fraction and `+00:00`. |
| `Timestamps.FractionIsSpelledOut` | server/src/storage.rs:443 | The fraction is absent for whole seconds, and else a point with three, six or nine digits of its value. |
| `Timestamps.LaterYearsSortFirst` | server/src/storage.rs:443 | From the year 10000 on the text order is wrong. |

## Left out

- HTTP, TLS, compression, timeouts, SQLite internals and file-system errors other than the success or failure of one step.
- The order in which the push queue offers rows (the oldest 50), so nothing is claimed about when a push happens.
- A push acknowledgement that arrives in the middle of a pull is part of every guarantee but star agreement, which is stated for runs of the loop body; the push that every new capture spawns (`src-tauri/src/clipboard.rs:185`) and manual synchronisation can overlap it.
- File entries and `file_list`, which the server never decrypts; `parse_file_list`.
- Nonces of stored texts and blobs, the `sensitive` flag, source application, blob size and creation time of entries.
- The one-time backfill of flavor columns; search queries and the ranking of results; the projection that masks sensitive entries.
- ServerStorage.Storage.CreateEntry: the length limits that the request handler checks first, and file entries, are not modelled.
- SyncClient.ListEntries: filters by type, star and search, and offsets, are not modelled, because synchronisation uses none of them.
- SyncClient.SyncClient.PullNewEntries: the server may change between requests but not during one, as its query is one transaction; the endpoint status that is returned with the count is not modelled.
- SyncClient.LocalStorage.DeleteEntry: the local blob file that goes with the last row that refers to it is not modelled; the server's counterpart is (`ServerStorage.Storage.DeleteEntry`).
- RtfPreview.RtfToPlainText: parameters are exact integers, so digit strings beyond the precision of a JavaScript number are not modelled.
- RtfPreview.ReadControlWord: the same, for the parameter of one control word.
- FileUris.PercentDecode: the replacement of invalid UTF-8 after decoding is not modelled; a path decodes to valid text.
- Gnome.RemoveBindings: `gsettings` calls that fail are not modelled.
- Gnome.Gsettings.InstallBindings: `gsettings` calls that fail, and the translation of accelerators, whose result per action is a parameter.
- Spdx.ParseExpression: the depth limit of the interpreter's stack is not modelled.
- Kde.Session.Poll: activation of the service when it has no owner is part of the owner lookup's reply.
- ShellQuoting.QuotedIsOneWord: the parser refuses what a shell would expand or treat as an operator instead of modelling it; aliases and history are out.
- Recognition of license texts, collection of crates, the patterns of copyleft identifiers (a parameter), overrides.
- Windows, popups, tray, paste simulation, notifications, the web interface and the Android services; sensitive-data detection, popup placement and back-off arithmetic.
