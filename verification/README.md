# Verified model of the VCT log

VCT is a transparency log for verifiable credentials in the style of RFC 6962. Clients submit credentials, the service
answers with a signed promise, and a Trillian log stored in Postgres records every credential once, in one order. This
project models the parts of the service on which those promises rest and proves what they keep. Every statement below is
a theorem about the model.

`dafny verify dfyconfig.toml` checks the whole project.

| modules | component |
|---|---|
| `Bytes`, `Unicode`, `JsonString`, `JsonValue`, `JsonParser`, `JsonText`, `JsonCanonicalForm`, `JsonCanonicalizer` | canonical JSON as in RFC 8785: strings of section 3.2.2.2, sorting of section 3.2.3 |
| `LogTables`, `LogStorage`, `LogRange`, `LogQueue`, `PreorderedLog`, `LogHistory`, `LogOrigins` | the Postgres log storage: tables, transactions, whole histories, and where every row comes from |
| `ConcurrentLog`, `ConcurrentOrigins`, `ConcurrentProgress`, `LockOrder` | signers and batches that interleave statement by statement: safety, provenance, progress; the order of row locks |
| `SubtreeStorage`, `SqlStatements` | revisioned subtrees; expansion and caching of statements |
| `StartupAgreement` | several instances agreeing on one configuration value at start-up |
| `CertPool` | the lazily rebuilt certificate pool |
| `LeafJson`, `AddVC`, `LogReads` | the JSON of a leaf; the add-vc and get-entries commands on top of the storage |

How the parts are modelled:

- **Canonical JSON.** `JsonCanonicalizer` is the program: a class with a cursor and a sticky error, whose methods are the
  closures of the source. They are proved against `JsonParser`, which states what is accepted and computed as functions
  of the input left to read. `JsonText` is an independent grammar: trees that record every legal choice of white space,
  member order and escape spelling, with the text and the value of a tree. Reading is proved complete and sound for that
  grammar, and from this follow the results about whole texts. The spelling of numbers is a parameter, assumed to be
  idempotent and to write digits, signs, a point and an exponent only (`ValidSpelling`).
- **Log storage.** `LogTx` is a transaction over the tables; a table is a map from its primary key. `LogHistory` runs
  committed transactions one after the other. The signer is Trillian's and not part of the repository. What is assumed of
  it is written into the `Sequence` step: it numbers the dequeued leaves consecutively from the tree size, records them
  and stores a root grown by that many at the next revision.
- **Concurrency.** Start-up agreement, signers and batches, row locks, subtree commits and the certificate pool are step
  machines with any number of processes. A run is any sequence of possible steps, and each result holds at the end of
  every run. What such a result says was queued, written, put or asked for is read off the actions of the run, not off
  the state. In `ConcurrentLog` every statement of a transaction is a step. Transactions run at Postgres's default level:
  a statement sees what is committed when it runs, and waits for rows that others have written or deleted.
- **Foreign code.** Document canonicalization, encodings and hashes are parameters (`Codec`). What is assumed of the
  encodings is `ValidCodec`: leaves as add-vc makes them, with timestamps below 2^53, and the payloads signed for them
  read back as written. The JSON of the service meets this: `LeafJson` writes it in field order, canonicalizes it with
  the verified canonicalizer and reads it back by field name, and `AddVC.JsonCodecValid` concludes, assuming of foreign
  code only that integers below 2^53 keep their spelling and that byte strings survive base64. Hash collisions are
  excluded only between the documents of the history at hand (`CollisionFree`).

Every lemma switches automatic induction off (`{:induction false}`), so that an inductive proof is the one written out.

Where the code does not do what its documentation leads one to expect, the model follows the code:

- `LogReads.CountExactly` and `LogReads.GetEntries`: the valid request for entries 0 to 2^63 - 1 is refused, because the
  length of that one range wraps; all other valid requests are answered.
- `LogStorage.LogTx.QueueLeaves`: a batch that holds one hash at two positions that are both duplicates is refused as a
  whole, and duplicates can be read back only where hashes are 32 bytes long, the size of a dummy value in the query.
- `StartupAgreement.AgreementExactly`: instances can start with different values when a put may come later than the sync
  timeout after the read that found nothing.
- `CertPool.CompleteExactly` and `CertPool.OverlapExactly`: after a failed load of the system certificates, added
  certificates can stay out of the pool, and a Get can miss certificates while another Get is about to rebuild the pool.
- `SqlStatements.NumberedExactly` and `SqlStatements.SecondTemplateIgnored`: the expansion numbers params right only if
  the first insertion takes as many arguments as the others, and the cache does not tell two templates of one statement
  apart. No statement of the repository is affected: `SqlStatements.RepositorySlots` and `SqlStatements.ServeAll`.

## Model

| member | source | states |
|---|---|---|
| `JsonCanonicalForm.CanonicalFormDecides` | internal/pkg/jsoncanonicalizer/jsoncanonicalizer.go:44-377 | two legal texts of an array or object without repeated keys, whatever their white space, member order and escapes, have the same canonical text if and only if they state the same JSON value |
| `JsonCanonicalForm.CanonicalText` | internal/pkg/jsoncanonicalizer/jsoncanonicalizer.go:44-377 | the canonical text of an accepted text is legal, has no white space outside strings, and states the same JSON value |
| `JsonCanonicalForm.LiteralUnchanged` | internal/pkg/jsoncanonicalizer/jsoncanonicalizer.go:211-241 | the arrays of one literal, true, false and null, are their own canonical texts, so the literals are never confused |
| `JsonCanonicalForm.Idempotent` | internal/pkg/jsoncanonicalizer/jsoncanonicalizer.go:211-376 | for every byte string that is accepted, the canonical text is accepted and is its own canonical text |
| `JsonCanonicalForm.AcceptedTexts` | internal/pkg/jsoncanonicalizer/jsoncanonicalizer.go:44-377 | a byte string is accepted if and only if the grammar derives it with no object repeating a sort key |
| `JsonCanonicalForm.DocumentComplete` | internal/pkg/jsoncanonicalizer/jsoncanonicalizer.go:357-376 | every legal text is read as the normal form of its value, or refused because some object at some depth repeats a key |
| `JsonCanonicalForm.DocumentSound` | internal/pkg/jsoncanonicalizer/jsoncanonicalizer.go:357-376 | whatever is accepted is the text of a legal tree without repeated keys |
| `JsonCanonicalForm.PrintRoundTrip` | internal/pkg/jsoncanonicalizer/jsoncanonicalizer.go:256-376 | printing a canonical array or object and reading the text gives the same value |
| `JsonCanonicalForm.DocumentIsCanonical` | internal/pkg/jsoncanonicalizer/jsoncanonicalizer.go:211-355 | what is read has fixed tokens and strictly sorted members at every depth |
| `JsonCanonicalForm.ElementSound` | internal/pkg/jsoncanonicalizer/jsoncanonicalizer.go:243-254 | a value that is read is spelled by a legal tree between white space, and is the normal form of what the tree means |
| `JsonCanonicalForm.ItemsSound` | internal/pkg/jsoncanonicalizer/jsoncanonicalizer.go:256-272 | the same for the elements of an array up to its closing bracket |
| `JsonCanonicalForm.MembersSound` | internal/pkg/jsoncanonicalizer/jsoncanonicalizer.go:304-336 | the same for members inserted into those already read; all keys are new |
| `JsonCanonicalForm.TokenSound` | internal/pkg/jsoncanonicalizer/jsoncanonicalizer.go:211-226 | a token holds no white space or delimiter and is followed by at most one white space that is consumed with it |
| `JsonCanonicalForm.PrintIsLegal` | internal/pkg/jsoncanonicalizer/jsoncanonicalizer.go:126-148 | the printed text of a value with fixed tokens is the text of a legal tree that means the value |
| `JsonText.ElementComplete` | internal/pkg/jsoncanonicalizer/jsoncanonicalizer.go:243-254 | the text of any legal tree before a delimiter is read as the normal form of its value, up to exactly that delimiter, or refused for a repeated key |
| `JsonText.ItemsComplete` | internal/pkg/jsoncanonicalizer/jsoncanonicalizer.go:256-272 | the same for the items of an array |
| `JsonText.MembersComplete` | internal/pkg/jsoncanonicalizer/jsoncanonicalizer.go:304-336 | the same for the fields of an object; refused exactly when a key is in the list already, repeated among the fields, or repeated inside a value |
| `JsonText.TokenComplete` | internal/pkg/jsoncanonicalizer/jsoncanonicalizer.go:211-226 | a token of ASCII characters before a delimiter is read whole |
| `JsonText.Alphabet` | internal/pkg/jsoncanonicalizer/jsoncanonicalizer.go:42-73 | the white space, marks and literals are those that RFC 8259 spells out |
| `JsonValue.InsertAllSorts` | internal/pkg/jsoncanonicalizer/jsoncanonicalizer.go:274-336 | inserting members one by one gives a permutation of them that is strictly increasing by UTF-16 code units |
| `JsonValue.InsertKeys` | internal/pkg/jsoncanonicalizer/jsoncanonicalizer.go:321-336 | after an insertion the keys are the old ones and the new one, so no later duplicate is missed |
| `JsonValue.InsertSorted` | internal/pkg/jsoncanonicalizer/jsoncanonicalizer.go:321-336 | inserting a new key keeps the list strictly sorted |
| `JsonValue.SortedUnique` | internal/pkg/jsoncanonicalizer/jsoncanonicalizer.go:274-336 | a strictly sorted member list is determined by its set of members |
| `JsonValue.DistinctKeysAreNames` | internal/pkg/jsoncanonicalizer/jsoncanonicalizer.go:274-336 | among well-formed UTF-8 names, keys are distinct if and only if names are |
| `JsonValue.NormDecides` | internal/pkg/jsoncanonicalizer/jsoncanonicalizer.go:304-355 | normal forms are equal if and only if the values agree: arrays by position, objects as maps |
| `JsonValue.NormIsCanonical` | internal/pkg/jsoncanonicalizer/jsoncanonicalizer.go:304-355 | normalising gives canonical values |
| `JsonValue.CanonicalIsNorm` | internal/pkg/jsoncanonicalizer/jsoncanonicalizer.go:304-355 | a canonical value repeats no key and is its own normal form |
| `JsonString.BodyComplete` | internal/pkg/jsoncanonicalizer/jsoncanonicalizer.go:150-209 | every legal spelling of a string is read as the characters it means, up to just past the closing quote |
| `JsonString.BodySound` | internal/pkg/jsoncanonicalizer/jsoncanonicalizer.go:150-209 | whatever is accepted as a string is a sequence of legal spellings and a quote, and is read as what they mean |
| `JsonString.EscapeSound` | internal/pkg/jsoncanonicalizer/jsoncanonicalizer.go:163-201 | an accepted escape is a short escape, a unit or a pair of units |
| `JsonString.StringRoundTrip` | internal/pkg/jsoncanonicalizer/jsoncanonicalizer.go:126-209 | for every byte string and whatever follows, reading its canonical quoting gives the bytes back and stops just past the closing quote |
| `JsonString.QuoteInjective` | internal/pkg/jsoncanonicalizer/jsoncanonicalizer.go:126-148 | different byte strings have different quotings |
| `JsonString.EscapeShortest` | internal/pkg/jsoncanonicalizer/jsoncanonicalizer.go:126-148 | no legal spelling of a byte is shorter than the canonical one, and one as short differs only in the case of hex digits |
| `JsonString.StandardEscapes` | internal/pkg/jsoncanonicalizer/jsoncanonicalizer.go:38-39 | the short escapes are the seven letters of RFC 8259, section 7, each for its character |
| `JsonString.Hex4Digits` | internal/pkg/jsoncanonicalizer/jsoncanonicalizer.go:105-117 | four hex digits count from the most significant one on |
| `JsonString.HexDigits` | internal/pkg/jsoncanonicalizer/jsoncanonicalizer.go:105-117 | hex digits count up from 0 to 9 and from a to f, in either case, and are written in lower case |
| `Unicode.RuneAtUtf8` | internal/pkg/jsoncanonicalizer/jsoncanonicalizer.go:321 | decoding the UTF-8 bytes of a scalar value gives the value and its length |
| `Unicode.Utf16Injective` | internal/pkg/jsoncanonicalizer/jsoncanonicalizer.go:321 | different scalar sequences have different UTF-16 code units |
| `Unicode.SortKeyInjective` | internal/pkg/jsoncanonicalizer/jsoncanonicalizer.go:321 | well-formed names have equal sort keys if and only if they are equal |
| `Unicode.SortKeyOfEncode` | internal/pkg/jsoncanonicalizer/jsoncanonicalizer.go:321 | the sort key of a well-formed name is the UTF-16 code units of its characters |
| `Unicode.SupplementaryFirst` | internal/pkg/jsoncanonicalizer/jsoncanonicalizer.go:274-302 | characters above the basic plane sort before those from U+E000 on, as UTF-16 order demands and UTF-8 order would not |
| `Unicode.RuneAtExactly` | internal/pkg/jsoncanonicalizer/jsoncanonicalizer.go:321 | decoding yields a character and its width exactly where its UTF-8 bytes come next, and otherwise the replacement character of width 1 |
| `Unicode.PairValueExactly` | internal/pkg/jsoncanonicalizer/jsoncanonicalizer.go:173-181 | two units are read as the character that has them in UTF-16, or as the replacement character |
| `JsonCanonicalizer.Transform` | internal/pkg/jsoncanonicalizer/jsoncanonicalizer.go:44-377 | for every byte sequence it terminates, reads inside the input only, and returns the canonical text or an error exactly as `Canonicalize` says |
| `JsonCanonicalizer.Canonicalizer.NextChar` | internal/pkg/jsoncanonicalizer/jsoncanonicalizer.go:75-86 | reads one character; the end of the input and bytes above ASCII set the error |
| `JsonCanonicalizer.Canonicalizer.Scan` | internal/pkg/jsoncanonicalizer/jsoncanonicalizer.go:88-96 | moves just past the first character that is not white space |
| `JsonCanonicalizer.Canonicalizer.ScanFor` | internal/pkg/jsoncanonicalizer/jsoncanonicalizer.go:98-103 | sets the error unless that character is the expected one |
| `JsonCanonicalizer.Canonicalizer.TestNextNonWhiteSpaceChar` | internal/pkg/jsoncanonicalizer/jsoncanonicalizer.go:119-124 | looks ahead without moving, and may set the error |
| `JsonCanonicalizer.Canonicalizer.GetUEscape` | internal/pkg/jsoncanonicalizer/jsoncanonicalizer.go:105-117 | succeeds exactly on four hex digits, with their value |
| `JsonCanonicalizer.Canonicalizer.ParseEscape` | internal/pkg/jsoncanonicalizer/jsoncanonicalizer.go:163-201 | reads an escape as `Escape` says: units, surrogate pairs, slash and the standard letters |
| `JsonCanonicalizer.Canonicalizer.ParseQuotedString` | internal/pkg/jsoncanonicalizer/jsoncanonicalizer.go:150-209 | reads a string as `StringBody` says |
| `JsonCanonicalizer.Canonicalizer.ParseSimpleType` | internal/pkg/jsoncanonicalizer/jsoncanonicalizer.go:211-241 | reads a literal or number as `SimpleType` says; stepping back one character never undoes progress unless the error is set |
| `JsonCanonicalizer.Canonicalizer.ParseElement` | internal/pkg/jsoncanonicalizer/jsoncanonicalizer.go:243-254 | reads any value as `Element` says and returns its printed form |
| `JsonCanonicalizer.Canonicalizer.ParseArray` | internal/pkg/jsoncanonicalizer/jsoncanonicalizer.go:256-272 | the text built while reading is the printed form of the array that `Items` reads |
| `JsonCanonicalizer.Canonicalizer.InsertMember` | internal/pkg/jsoncanonicalizer/jsoncanonicalizer.go:321-336 | inserts before the first larger key, and sets the error exactly when the key is anywhere in the list |
| `JsonCanonicalizer.Canonicalizer.ParseObject` | internal/pkg/jsoncanonicalizer/jsoncanonicalizer.go:304-355 | returns the printed form of the sorted object that `Members` reads |
| `JsonCanonicalizer.LexicographicallyPrecedes` | internal/pkg/jsoncanonicalizer/jsoncanonicalizer.go:274-302 | decides the lexicographic order of code units, and equality |
| `Bytes.LessMeaning` | internal/pkg/jsoncanonicalizer/jsoncanonicalizer.go:274-302 | one sequence precedes another exactly when it has the smaller unit at the first difference, or ends there |
| `JsonCanonicalizer.DecorateString` | internal/pkg/jsoncanonicalizer/jsoncanonicalizer.go:126-148 | computes the canonical quoting |
| `JsonCanonicalizer.EscapeOne` | internal/pkg/jsoncanonicalizer/jsoncanonicalizer.go:130-144 | the table search and the control-character case together are the escape of one byte |
| `JsonCanonicalizer.PrintObject` | internal/pkg/jsoncanonicalizer/jsoncanonicalizer.go:338-354 | writes the members in list order with separators between them |
| `LogHistory.RunSound` | pkg/storage/postgres/log_storage.go:381-603 | in every run each stored leaf is queued or sequenced, never both and only once; sequence numbers are exactly 0 to tree size - 1; leaves stored are leaves queued plus leaves sequenced |
| `LogHistory.AppendOnly` | pkg/storage/postgres/queue.go:79-107 | along every run a stored leaf, a sequenced entry and a tree head never change |
| `LogHistory.QueueNeverDrops` | pkg/storage/postgres/log_storage.go:537-544 | the ignored answer of the insert into the queue is always "inserted" |
| `LogHistory.UpdateNeverDrops` | pkg/storage/postgres/queue.go:92-103 | for consecutive numbers above those in use the ignored answers are always "inserted", and the rows are exactly the numbered leaves |
| `LogHistory.SequenceCommits` | pkg/storage/postgres/log_storage.go:381-444 | in a sound log a signer's pass always commits and moves exactly its batch from the queue to the numbers after the tree size |
| `LogHistory.IntegrateBatch` | pkg/storage/postgres/queue.go:79-132 | the dequeue, update and store-root calls of one signer's transaction over a sound log are together exactly one Sequence step and keep the log sound; it fails exactly when a dequeued hash has the wrong size |
| `LogHistory.QueueBatch` | pkg/storage/postgres/log_storage.go:462-603 | queueing a batch over a sound log is exactly one Queue step: it commits if and only if the batch is accepted, and otherwise changes nothing |
| `LogHistory.StepSound` | pkg/storage/postgres/log_storage.go:462-603 | every committed transaction keeps the invariant |
| `LogHistory.StepExtends` | pkg/storage/postgres/log_storage.go:813-842 | every committed transaction changes no row recorded before it |
| `LogOrigins.RunTraced` | pkg/storage/postgres/log_storage.go:480-548 | in every run a hash is stored if and only if some batch was queued with it, and its data, its queue entry and every sequenced row are those of the first such leaf, Merkle hash and queueing time included |
| `LogOrigins.QueueAllOrigin` | pkg/storage/postgres/log_storage.go:484-548 | after a batch the entry of each new hash holds the Merkle hash and the row the data of its first leaf in the order; entries and rows of stored hashes are as before |
| `LogOrigins.FirstInMeaning` | pkg/storage/postgres/log_storage.go:484-548 | that leaf is the one at the first position of the order that holds the hash |
| `LogOrigins.ReadsWhatWasQueued` | pkg/storage/postgres/log_storage.go:694-760 | in every run the leaf read at a position is the one first queued for its hash, field by field |
| `ConcurrentLog.CommittedSound` | pkg/storage/postgres/log_storage.go:381-603 | in every interleaving of the statements of queueing and signing transactions, stale roots included, the committed tables keep the invariant of `LogHistory.RunSound`; every committed pass has all its leaves at its numbers and every committed batch all its leaves stored |
| `ConcurrentLog.HandedOutOnce` | pkg/storage/postgres/queue.go:111-132 | in every interleaving no entry is handed out by two committed signers, a stored leaf has left the queue exactly when one has handed it out, and each committed batch is the smallest entries its select saw |
| `ConcurrentLog.OnePassPerRoot` | pkg/storage/postgres/log_storage.go:813-842 | two signers that began from the same root never both commit |
| `ConcurrentLog.NothingChanges` | pkg/storage/postgres/queue.go:79-107 | whatever interleaves, a committed leaf, sequenced entry or tree head never changes |
| `ConcurrentLog.CommitIsPass` | pkg/storage/postgres/queue.go:79-132 | what a signer commits is exactly a pass over its batch from the latest root, although inserts of taken numbers are silently ignored |
| `ConcurrentLog.RunInvariant` | pkg/storage/postgres/log_storage.go:241-276 | what every transaction knows about the tables holds in every interleaving |
| `ConcurrentOrigins.RunTraced` | pkg/storage/postgres/log_storage.go:480-548 | in every interleaving a hash is stored if and only if a batch that was given a leaf with it has committed, and its data, its queue entry and every sequenced row are those of the first such leaf of the first such batch, Merkle hash and opening time included |
| `ConcurrentOrigins.NothingPutIsLost` | pkg/storage/postgres/log_storage.go:484-548 | no leaf put into a batch is lost when the batch commits |
| `ConcurrentOrigins.PassIsSelected` | pkg/storage/postgres/log_storage.go:381-444 | in every interleaving what a signer works on is the latest root when it began and the queue, limit, cutoff and batch of its own select |
| `ConcurrentProgress.SignerCompletes` | pkg/storage/postgres/queue.go:79-132 | from every reachable state a signer whom nobody else stands in the way of can run all its statements and commit, and what it commits is exactly one pass over the oldest entries |
| `ConcurrentProgress.BatchCompletes` | pkg/storage/postgres/log_storage.go:480-548 | from every reachable state a batch whose hashes nobody else has added can put all its leaves and commit, and the tables are then those of the same batch run as one transaction |
| `ConcurrentProgress.SignersNeverStuck` | pkg/storage/postgres/queue.go:109-132 | in no reachable state are all signers that have selected waiting for each other: the next statement of one of them can be executed |
| `ConcurrentProgress.AbortsExactly` | pkg/storage/postgres/queue.go:119-131 | a step ends a signer without a commit exactly when the signer rolls back, a selected entry is gone from the queue, or the root it began from is not the latest when it stores its own |
| `ConcurrentProgress.NumbersApart` | pkg/storage/postgres/queue.go:92-103 | in every interleaving no two open signers have written the same sequence number |
| `LogTables.QueueAllKeys` | pkg/storage/postgres/log_storage.go:484-548 | a batch adds exactly its hashes, changes no old row and touches no other table |
| `LogTables.QueueAllNewRow` | pkg/storage/postgres/log_storage.go:484-548 | a new hash gets the data of its first leaf in hash order |
| `LogStorage.LogTx.QueueLeaves` | pkg/storage/postgres/log_storage.go:462-603 | answer i is empty exactly when position i was inserted and otherwise the stored leaf of the same hash, whatever order the sort chose; it succeeds exactly when sizes are right and the query for the duplicates yields as many rows as asked for, which on a log that sequences hashes once means exactly for accepted batches |
| `LogStorage.LogTx.InsertBatch` | pkg/storage/postgres/log_storage.go:480-548 | the tables afterwards, and a leaf remembered exactly at the positions that were not inserted |
| `LogStorage.LogTx.RetrieveExisting` | pkg/storage/postgres/log_storage.go:556-603 | remembered leaves are replaced by the stored ones; succeeds exactly when the join yields as many rows as leaves are remembered, of the right size |
| `LogStorage.LogTx.SelectByIdentityHash` | pkg/storage/postgres/log_storage.go:853-904 | one leaf for each joined pair, with data, timestamps and the dummy hash; fails exactly when a row exists and the dummy hash has the wrong size |
| `LogStorage.SortLeavesForInsert` | pkg/storage/postgres/log_storage.go:446-459 | a permutation of the positions, ordered by identity hash |
| `LogStorage.ReplaceExisting` | pkg/storage/postgres/log_storage.go:575-596 | each remembered leaf is replaced by a stored row of its hash, or the call fails |
| `LogStorage.Collate` | pkg/storage/postgres/log_storage.go:556-563 | lists the hashes of the remembered leaves in the order of their positions |
| `LogStorage.FindRow` | pkg/storage/postgres/log_storage.go:583-591 | finds a row of the hash if there is one |
| `LogStorage.CheckSizes` | pkg/storage/postgres/log_storage.go:465-468 | accepts exactly when every hash has the right size |
| `LogStorage.DuplicatesDifferExactly` | pkg/storage/postgres/log_storage.go:565-572 | whichever of several equal leaves is inserted, the duplicates have different hashes if and only if no hash is too often in the batch |
| `LogStorage.RememberedNone` | pkg/storage/postgres/log_storage.go:552-554 | nothing is remembered if and only if every leaf of the batch is new |
| `LogStorage.RetrievableExactly` | pkg/storage/postgres/log_storage.go:565-572 | where hashes are sequenced at most once, the duplicates of a batch can be read back if and only if they differ and hashes have the size of the dummy |
| `LogStorage.RepeatedLeaf` | pkg/storage/postgres/log_storage.go:565-572 | a stored leaf listed twice is refused; a new leaf may be listed twice but not three times |
| `LogStorage.JoinedSize` | pkg/storage/postgres/log_storage.go:64-66 | the left join yields one row for each stored hash when each hash is sequenced at most once |
| `LogRange.GetLeavesByRange` | pkg/storage/postgres/log_storage.go:694-760 | returns the consecutive leaves from start on, in 64-bit arithmetic; fails exactly for refused arguments and for a gap inside the tree |
| `LogRange.RunThenGap` | pkg/storage/postgres/log_storage.go:729-757 | the ordered rows begin with the consecutive ones, and any further row comes after a gap |
| `LogRange.RangeRowsExactly` | pkg/storage/postgres/log_storage.go:729-757 | the query yields each row of the range once, in order, and no other |
| `LogReads.GetEntries` | pkg/controller/command/command.go:441-508 | a request is answered if and only if it is valid, begins inside the tree, is not the one whose length wraps and meets no gap inside the tree; the answer is the consecutive entries from start on, and on a dense log exactly the positions up to min(end + 1, start + 1000, tree size) - 1 |
| `LogReads.CountExactly` | pkg/controller/command/command.go:458-466 | in 64-bit arithmetic the count is the length limited to 1000, except for the one range whose length wraps |
| `LogReads.EntriesNeverChange` | pkg/controller/command/command.go:496-505 | along every run the entry at a position never changes |
| `LogReads.EntriesAreQueued` | pkg/controller/command/command.go:496-505 | in every run the entry at a position is the value and extra data of the leaf first queued for its hash |
| `LogQueue.DequeueLeaves` | pkg/storage/postgres/log_storage.go:381-444 | takes exactly the limit smallest eligible entries by timestamp and hash and removes those; on a pre-ordered log answers the consecutive leaves after the tree |
| `LogQueue.SelectQueued` | pkg/storage/postgres/queue.go:26-31 | the entries up to the cutoff, in order, at most limit of them |
| `LogQueue.SmallestUnique` | pkg/storage/postgres/queue.go:26-31 | there is only one such batch |
| `LogQueue.OldestFirst` | pkg/storage/postgres/queue.go:26-31 | a batch holds no entry after the cutoff, is in order of time, and leaves an entry behind only when it is full of entries that are older, or as old with a smaller hash |
| `LogQueue.RemoveSequencedLeaves` | pkg/storage/postgres/queue.go:111-132 | succeeds exactly when every entry is still there, and removes exactly them |
| `LogQueue.UpdateSequencedLeaves` | pkg/storage/postgres/queue.go:79-107 | records the leaves one after the other; fails on a wrong hash size or a leaf without data |
| `LogQueue.StoreSignedLogRoot` | pkg/storage/postgres/log_storage.go:813-842 | stores the head and the current root, or fails for metadata or a revision that has a head |
| `PreorderedLog.AddSequencedLeaves` | pkg/storage/postgres/log_storage.go:606-691 | with right hash sizes it succeeds, status i is OK exactly when the index of leaf i was free at its turn in hash order, and the tables are those of the OK leaves |
| `PreorderedLog.AddLeaf` | pkg/storage/postgres/log_storage.go:635-684 | a conflicting leaf undoes its own inserts and nothing before them, although all savepoints share one name |
| `PreorderedLog.AddAllNumbers` | pkg/storage/postgres/log_storage.go:606-691 | earlier rows of both tables are untouched; the numbers afterwards are the old ones and those asked for |
| `PreorderedLog.FreeExactly` | pkg/storage/postgres/log_storage.go:653-684 | an index is free exactly when it was not in use and no earlier leaf in the order asked for it |
| `PreorderedLog.FreeIsAdded` | pkg/storage/postgres/log_storage.go:643-655 | an OK leaf is in both tables |
| `PreorderedLog.FreeStoresData` | pkg/storage/postgres/log_storage.go:643-655 | the first OK leaf of a hash without data stores its own value, extra data and time |
| `PreorderedLog.ConflictAddsNothing` | pkg/storage/postgres/log_storage.go:678-684 | leaf data is added for exactly the hashes of OK leaves, so a conflicting leaf adds a row to neither table |
| `LockOrder.NoCircularWait` | pkg/storage/postgres/log_storage.go:480-548 | in no reachable state do batches that lock in sorted order wait for each other in a circle |
| `LockOrder.NoDeadlock` | pkg/storage/postgres/log_storage.go:480-548 | in every reachable state, unless all batches that lock in sorted order have ended, one of them can go on |
| `LockOrder.HeldExactly` | pkg/storage/postgres/log_storage.go:484-548 | a batch holds exactly the rows it has inserted, until it ends; duplicates it only passes over |
| `LockOrder.CommitTreatsAll` | pkg/storage/postgres/log_storage.go:484-548 | a batch that commits has treated every one of its hashes |
| `LockOrder.ChainClimbs` | pkg/storage/postgres/log_storage.go:446-459 | along a chain of waiting batches the wanted hashes grow strictly |
| `LockOrder.UnorderedCanBlock` | pkg/storage/postgres/log_storage.go:446-449 | without the sort two batches can block each other |
| `LockOrder.HashesInOrder` | pkg/storage/postgres/log_storage.go:450-459 | the sort gives an order in which no circle can arise |
| `SubtreeStorage.SnapshotRead` | pkg/storage/postgres/tree_storage.go:35-47 | in every history a read at a revision gives what the latest successful commit of the run not above it wrote; the writes are taken from the actions of the run |
| `SubtreeStorage.ReadsOwnCommit` | pkg/storage/postgres/tree_storage.go:286-341 | after a successful commit its revision reads what it wrote, and for all other ids what was read before |
| `SubtreeStorage.CommitExactly` | pkg/storage/postgres/log_storage.go:241-276 | a commit succeeds if and only if no other one has succeeded since its transaction began, whatever it writes |
| `SubtreeStorage.LogIsWrites` | pkg/storage/postgres/tree_storage.go:286-341 | what the machine remembers as written is what the successful commits of the run wrote, in order |
| `SubtreeStorage.BeginsFromLatest` | pkg/storage/postgres/log_storage.go:241-276 | a transaction begins from the revision that counts the successful commits before it |
| `SubtreeStorage.SnapshotStable` | pkg/storage/postgres/tree_storage.go:228-341 | later commits never change what is read at a revision that was current before them |
| `SubtreeStorage.OneCommitPerRoot` | pkg/storage/postgres/log_storage.go:241-276 | two transactions begun from the same root never both commit |
| `SubtreeStorage.ReadIsLatest` | pkg/storage/postgres/tree_storage.go:35-47 | reading finds the row of the greatest revision not above the one asked for |
| `SubtreeStorage.ReadsNothing` | pkg/storage/postgres/tree_storage.go:35-47 | nothing is read if and only if the id has no row at any revision up to the one asked for |
| `SubtreeStorage.GetSubtrees` | pkg/storage/postgres/tree_storage.go:228-284 | one row for each requested id that has a subtree at the revision, and no other row |
| `SqlStatements.NumberedExactly` | pkg/storage/postgres/tree_storage.go:99-153 | the slots of the final statement are $1, $2, ... once each in text order if and only if first and rest counts are equal or there is no param |
| `SqlStatements.RepositorySlots` | pkg/storage/postgres/tree_storage.go:155-181 | for each of the repository's five statements and every repetition count the slots are $1, $2, ... in text order, as many as the callers pass arguments |
| `SqlStatements.OneTemplateEach` | pkg/storage/postgres/log_storage.go:144-182 | statements of the repository with equal SQL texts are built from equal templates |
| `SqlStatements.ServeAll` | pkg/storage/postgres/tree_storage.go:123-153 | in every sequence of calls the repository can make, the cache answers each call with a fresh expansion of its own statement |
| `SqlStatements.StatementSlots` | pkg/storage/postgres/tree_storage.go:99-143 | the slots in text order: those of the expansion, then consecutive numbers at the params |
| `SqlStatements.StatementText` | pkg/storage/postgres/tree_storage.go:99-143 | apart from slots the final statement is the template with the insertions, separated by commas, in place of the placeholder |
| `SqlStatements.FormatComplains` | pkg/storage/postgres/tree_storage.go:110-119 | formatting an insertion yields an error mark if and only if verbs and arguments differ in number |
| `SqlStatements.InsertionSlots` | pkg/storage/postgres/tree_storage.go:104-119 | the expansion holds the slots from 1 on, once each in order |
| `SqlStatements.ReplaceParams` | pkg/storage/postgres/tree_storage.go:136-140 | replacing the first param until none is left numbers all params in text order |
| `SqlStatements.StatementCache.GetStmt` | pkg/storage/postgres/tree_storage.go:123-153 | returns the expansion of the template first used with the statement and number, which is a fresh expansion as long as each SQL text is used with one template, and keeps that so |
| `SqlStatements.SecondTemplateIgnored` | pkg/storage/postgres/tree_storage.go:127-130 | a second template for the same statement and number gets a statement that differs from its own expansion |
| `StartupAgreement.AgreementExactly` | cmd/vct/startcmd/start.go:939-981 | all successful calls return one value, for any number of processes and any interleaving, if and only if puts come within the sync timeout of the read that found nothing |
| `StartupAgreement.BoundedRetries` | cmd/vct/startcmd/start.go:939-981 | whatever the timing, no call makes more than 2n + 2 accesses to the store with n processes |
| `StartupAgreement.ReturnsInTime` | cmd/vct/startcmd/start.go:939-981 | whatever the timing, a call that meets no store error has returned a value after 2n + 2 accesses with n processes |
| `StartupAgreement.NeverGivesUp` | cmd/vct/startcmd/start.go:953-964 | a call that meets no store error never returns an error: where the values differ, or the value is gone, it starts again |
| `StartupAgreement.NextAccessPossible` | cmd/vct/startcmd/start.go:939-981 | the next access of a call that has not returned can always be made once it is due, and a put stores its value |
| `StartupAgreement.SleepEnds` | cmd/vct/startcmd/start.go:945-951 | a sleeping call becomes due when the timeout has passed |
| `StartupAgreement.ReturnedWasPut` | cmd/vct/startcmd/start.go:939-981 | the store holds the last value put, and every value returned was put by some process of the run |
| `StartupAgreement.RunTimely` | cmd/vct/startcmd/start.go:945-964 | a returned value is in the store for good, and everyone who still may put read before the first put |
| `StartupAgreement.LatePutDisagrees` | cmd/vct/startcmd/start.go:967-980 | when a put may come later than the timeout two calls can return different values |
| `StartupAgreement.RunSpends` | cmd/vct/startcmd/start.go:950-980 | every step of a process is paid for from a budget that other processes' puts bound |
| `CertPool.CompleteExactly` | internal/pkg/tlsutil/certpool.go:49-104 | a Get with nothing else in flight returns every certificate that completed calls of Add were asked for, in every interleaving, if and only if loading cannot fail |
| `CertPool.OverlapExactly` | internal/pkg/tlsutil/certpool.go:49-104 | whatever Adds and Gets run beside it, a Get returns all that completed Adds were asked for before it began if and only if, when it begins, the flag is set, or no other Get is about to rebuild, or nothing is missing |
| `CertPool.ReliableGet` | internal/pkg/tlsutil/certpool.go:49-63 | from such a state the Get is complete under every continuation |
| `CertPool.UnreliableGet` | internal/pkg/tlsutil/certpool.go:49-63 | from any other state some continuation misses a certificate, even while an Add holds the lock |
| `CertPool.RunInvariant` | internal/pkg/tlsutil/certpool.go:49-133 | in every interleaving a queued certificate missing from the pool implies that the flag is set, an Add holds the lock, or a Get is about to rebuild; the index is exact |
| `CertPool.PromisedIsAsked` | internal/pkg/tlsutil/certpool.go:66-88 | what counts as promised in the results above is exactly what the completed calls of Add in the run were asked for |
| `CertPool.NothingInvented` | internal/pkg/tlsutil/certpool.go:49-104 | in every run every stored certificate, and every certificate of a pool that is built or returned, was asked for or is the system's |
| `CertPool.Exclusion` | internal/pkg/tlsutil/certpool.go:59-88 | no thread filters, rebuilds or reads while another is storing, and no two threads store at once |
| `CertPool.LoadErrorLoses` | internal/pkg/tlsutil/certpool.go:51-57 | a failed load loses the flag |
| `CertPool.OverlappingGetMisses` | internal/pkg/tlsutil/certpool.go:49-63 | a Get that overlaps another one may miss a certificate whose Add had returned |
| `CertPool.PositionsMeaning` | internal/pkg/tlsutil/certpool.go:78-84 | the index lists exactly the ascending positions of a subject |
| `CertPool.FilterCovers` | internal/pkg/tlsutil/certpool.go:107-133 | filtering keeps exactly the contents asked for that are not stored |
| `CertPool.Pool.Add` | internal/pkg/tlsutil/certpool.go:66-88 | afterwards the stored contents are the old ones and those asked for; the flag is set exactly when something was stored |
| `CertPool.Pool.FilterCerts` | internal/pkg/tlsutil/certpool.go:107-133 | the searched index lists give the certificates not stored, without repeated pointers |
| `CertPool.Pool.SwapCertPool` | internal/pkg/tlsutil/certpool.go:90-104 | the new pool is the system's certificates and every stored one |
| `CertPool.RemoveDuplicates` | internal/pkg/tlsutil/certpool.go:135-148 | keeps the first of each pointer, in order |
| `CertPool.DistinctInOrder` | internal/pkg/tlsutil/certpool.go:135-148 | nothing is repeated, and what is kept stays in the order of first occurrence |
| `AddVC.StablePromise` | pkg/controller/command/command.go:333-391 | in every history all successful answers for one canonical credential are equal: timestamp, extensions and signed payload; hashes need only be free of collisions among the documents of the history |
| `AddVC.ClientAgrees` | pkg/client/vct/client.go:252-291 | the signed payload and the stored leaf bytes are what a client rebuilds from the timestamp and any copy of the credential; a new credential gets the time of the call, and its row holds the proofs and the queueing time of the call |
| `AddVC.PayloadReads` | pkg/controller/command/command.go:668-677 | whoever reads the signed payload finds in it version 0, types 100, the time of the answer, the canonical document and no extensions |
| `AddVC.PayloadBinds` | pkg/controller/command/command.go:667-690 | answers of any two logs with equal payloads are for the same canonical document and the same time |
| `AddVC.ClientFindsLeaf` | pkg/client/vct/client.go:252-264 | the queue entry and every sequenced row of a credential carry the leaf hash that a client computes from the answer and any copy of the credential |
| `AddVC.AlwaysAnswered` | pkg/controller/command/command.go:333-391 | on a sound log with hashes of the right size a call is answered if and only if its credential has a canonical document |
| `AddVC.Add` | pkg/controller/command/command.go:333-391 | the answer and the tables are those of `Respond`, for every state of the log; what they hold is stated by the rows above |
| `AddVC.RunKeeps` | pkg/controller/command/command.go:333-372 | in every history each stored leaf is the canonical JSON of a leaf for a document of the history with its identity hash, and queue entries and sequenced rows carry its leaf hash |
| `AddVC.JsonCodecValid` | pkg/controller/command/command.go:338-341 | the canonical JSON of the service reads back every leaf that add-vc makes and every payload that it signs, while timestamps are below 2^53 |
| `LeafJson.LeafReadsBack` | pkg/controller/command/models.go:217-231 | the canonical JSON of a leaf whose numbers are exact reads back as the leaf, for all base64-safe contents |
| `LeafJson.SignatureReadsBack` | pkg/controller/command/models.go:233-241 | everything in the payload of a signature whose numbers are exact is read back from its canonical JSON |
| `LeafJson.LeafText` | pkg/controller/command/models.go:217-231 | the bytes that add-vc stores, field by field: names sorted, extensions null, the document in base64 |
| `LeafJson.AbsentFields` | pkg/controller/command/models.go:217-231 | fields that are missing or null read as zero and empty, except the entry, without which a leaf is refused |
| `LeafJson.NumberRanges` | pkg/controller/command/models.go:217-241 | a version is accepted if and only if it fits one byte, types and timestamps if and only if they fit 64 bits |
| `LeafJson.SignatureNames` | pkg/controller/command/models.go:233-241 | the two names that a payload uses beside those of an entry |
| `LeafJson.MarshalReadsBack` | pkg/canonicalizer/canonicalizer.go:17-30 | an object with fixed tokens and distinct keys is written in normal form, and the text reads back as that form |
| `LeafJson.SignatureWritten` | pkg/controller/command/models.go:233-241 | the members of a signature payload whose numbers are exact have canonical tokens and distinct names |

## Left out

- Number formatting: float parsing and printing are foreign; assumed are idempotence, the characters of the result and, for leaves, exactness below 2^53.
- Error messages, and the bytes returned beside an error.
- JSON-LD canonicalization, credential parsing, issuer lists, SHA-256, signing and key management: parameters or not modelled.
- How the standard library decodes JSON is modelled on the canonical texts that the service stores: names are matched exactly, and other texts are read as the canonicalizer reads them.
- That invalid UTF-8 in names and mismatched surrogate pairs are mapped to U+FFFD is modelled, but no result says that texts differing only there stay apart.
- Trillian's sequencer, log server, subtree cache and in-memory storage: only the assumptions named above.
- Several trees in one database, and creating, updating and deleting trees: one live tree is modelled.
- Isolation levels other than Postgres's default, deadlock detection, and subtree writes inside `ConcurrentLog`; `SubtreeStorage` has its own machine.
- Database errors other than violated keys, a failing prepare, and checks that timestamps are in range.
- A transaction that is never closed after an error keeps its locks; the model rolls it back or leaves it standing.
- SQL text as characters: marks, verbs and slots are symbols, so a mark spelled inside other text is not modelled.
- The mutex around the statement cache; `GetStmt` is modelled for one caller at a time.
- Protocol-buffer encoding of subtrees and Merkle tree hashing.
- Queries by Merkle hash, proofs and tree heads served to clients: the service passes on what Trillian answers.
- HTTP handlers, gRPC, metrics, flags, permissions, logging and TLS file reading.
- PreorderedLog.AddSequencedLeaves: says nothing of the tables after a failure, because the transaction is then not committed.
