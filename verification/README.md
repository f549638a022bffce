# Verified model of a mineral-collection server

A Dafny model of the parts of a Go server for private mineral collections whose
correctness does not rest on I/O: the confidentiality-incident register, account erasure,
archive import, keyset pagination, the request limiter, QR sheets and their printed layout,
authorization with its SQL row filters, per-field redaction, and first login.
`dafny verify dfyconfig.toml` checks everything.

## What is proved, in short

- **Incident register** (`IncidentRegister.dfy`, `RegisterStore.dfy`). The canonical encoding
  has a decoder, so different content has different bytes, and `prevHash || canonical` splits
  in one way only. Two accepted registers with the same last hash are equal, or the lemma
  returns the two positions whose own hash inputs collide under SHA-256. Every interleaving of
  concurrent `Create` transactions keeps a verifying chain numbered 1..n, in which every row
  records one committed filing field by field, and earlier listings are prefixes of later ones.
- **Account erasure** (`AccountErasure.dfy`). The ordered deletes under RESTRICT, CASCADE and
  SET NULL succeed exactly when nothing that survives holds on to the account; the result
  equals a definition by what survives, keeps every foreign key, leaves every other row as it
  was, and forgets the account. The
  reported counts are exact but for one, whose exact condition is proved. With uploads committed
  while it runs, exactly the account's uploads after the keys were read are deleted unfreed.
- **Import** (`ImportCheck.dfy`, `ImportConflicts.dfy`, `ImportCommit.dfy`, `ImportCopy.dfy`,
  `ImportClashes.dfy`, `ImportRun.dfy`). Validation accepts exactly the well-formed archives;
  clash resolution gives distinct, least-suffix catalog numbers; a commit writes an isomorphic
  copy of the whole object graph under fresh ids, column by column, or nothing; a dry run foretells its report.
  Which validated archives a unique key still refuses, among their own rows or together with
  stored ones, is characterised exactly.
- **Pagination** (`Cursor.dfy`, `Pagination.dfy`). Base64url and the three cursor codecs round
  trip. A walk over an unchanged table returns every row once, in order, in
  max(1, ceil(n / limit)) pages; under arbitrary changes of rows and filter between fetches no
  key comes twice and a key present throughout comes exactly once; no row comes twice, if and
  only if keys never move forward.
- **Limiter** (`RateLimiter.dfy`, `RateLimiterLag.dfy`). Admission bound, equality with a limiter that never evicts,
  and honesty of Retry-After over every run, with the exact condition under which the sweep
  cannot be noticed, and the bound for concurrent calls whose time stamps lag.
- **QR sheets** (`QrSheet.dfy`, `QrLayout.dfy`). The position table refines an ordered list in
  every run; the printout puts label i where its index says, on as many pages as announced,
  without overlap and inside the sheet.
- **Authorization and redaction** (`Authorization.dfy`, `Redaction.dfy`). The guard's answer for
  every caller, resource and action; SQL filters and policy enforcer agree on every caller, row and
  share table; redacted views depend on exactly the
  fields their viewer may see.
- **First login** (`FirstLogin.dfy`). One account per sub in every interleaving.

## Modelling choices

- Go strings are `string` with one character per byte, so `|s|` is Go's `len`.
- SHA-256, the time and id printers with their parsers, `json.Marshal`/`Unmarshal`, `uuid.Parse`,
  `strings.TrimSpace(s) == ""`, the type-data validation and "five years later" are function
  parameters. The only laws asked of them are that printers can be read back, that JSON objects
  of the three shapes the cursors use can be read back, that a non-blank text stays non-blank
  when lengthened, and that the retention date of a whole day is a whole day. Nothing is asked
  of the hash.
- Limiter balances are integers: one token is `window` units and a bucket gains `requests` units
  per nanosecond. Page geometry is over `real`. Sort keys, search ranks included, are lists of
  integers compared column by column.
- Tables are maps, sets or sequences of rows. A transaction is one step where a lock or the
  design makes it so, and a state machine over its steps where calls interleave
  (`RegisterStore.Apply`, `FirstLogin.Next`). Columns that an operation copies without looking at
  them are one `columns` field.
- Every unique key an import can violate is checked over its own rows and the stored rows of all
  accounts, and what validation reads of an account is read from the same tables. Whatever else may
  refuse a row is an arbitrary set of rows (`Database.rejects`): a position beyond its integer
  column or a NUL in a text, both of which validation lets through, another writer, the connection.
  New ids count up from `nextId`, above every id in use.
- Except in `RateLimiterLag`, the order in which limiter calls take the mutex is assumed to follow
  their time stamps.
- A walk meets a new table and a new filter at every fetch, since the filter itself consults
  shares and other rows.
- The five record loops of the structural check share one loop, `ImportCheck.Scan`, parameterised
  by what is checked per record; the sheets' loop is `ImportCheck.Note`. Problem texts are
  abbreviated, and the three optional visibilities of a specimen are visited in a fixed order
  where Go's map order is unspecified. The sixteen calls of the closure `write` are one loop over
  the list of fields.
- Where an `UPDATE`, a `DELETE ... CASCADE` or a `SELECT` visits rows in an unspecified order, the
  model picks any row next.
- Role names of the policy table and resource types are enumerations; other role names are
  `Other(name)`.

## Where the code and its comments differ

- The comment at `internal/ratelimit/limiter.go:140-143` says that dropping an idle bucket is
  equivalent to keeping it. `RateLimiter.SweepUnnoticedIff` proves that this holds if and only if
  the limiter is disabled, never sweeps, or has `idleTTL >= window`; `RateLimiter.ExhaustAdmitted`
  gives a run that is admitted twice its burst within `idleTTL` otherwise.
- Erasure is said to report the numbers of rows deleted (`internal/domain/account.go:37-38`). It
  reports `JournalEntries` as the entries the user wrote, while the cascade removes every
  entry on the user's specimens. An administrator may write on anybody's specimen
  (`internal/api/journal.go:209-223`), so the two can differ: `AccountErasure.JournalCountIff`
  says exactly when they agree, and `AccountErasure.JournalCountCanBeWrong` gives a database where
  they do not.
- Validation and dry run accept archives that the transaction then refuses because of a unique key
  of `migrations/0001_init.up.sql`. Four repetitions within an archive do it: two collectors of one
  name, two specimens with one blank catalog number, an entry with one attachment twice, or a
  specimen with one collector twice. So does a stored row of any account: a collector of one of the
  names, or a specimen under one of the resolved numbers, although the comment at
  `internal/db/specimen_postgres.go:95-98` speaks of uniqueness per author.
  `ImportClashes.AcceptedIff` proves that no other unique key is in the way, and `ImportRun.Run`
  carries the condition. `ImportRun.ClashingImportFails` gives one archive of each repetition,
  `ImportRun.SecondImportFails` shows that an archive with a collector or a blank number is imported
  at most once, by anybody, and `ImportRun.ForeignNumberFails` shows another account's number.
- `FreedObjectKeys` is said to hold every key the account owned, so that no orphaned objects remain
  (`internal/domain/account.go:31-36`). The transaction runs at READ COMMITTED
  (`internal/db/pool.go:92-97`), so an upload by the account that commits after the keys are read is
  deleted without its key: `AccountErasure.NothingMissedIff`.
- The limiter's clock is read before its mutex is taken (`internal/ratelimit/limiter.go:82-84`), so
  stamps can be applied out of order. `RateLimiterLag.LagBreaksBound` shows the plain bound broken,
  and `RateLimiterLag.LaggingBound` gives the bound that holds.
- The export's photo walk lists a photo twice when its position is raised past the cursor between
  two fetches. `Pagination.NeverRepeatsIff` proves that such forward moves are the exact cause.

## Model

| member | source | states |
|---|---|---|
| `IncidentRegister.CanonicalBytes` | internal/incidentregister/incidentregister.go:142-167 | writing field after field into the builder yields the concatenation of the framed fields |
| `IncidentRegister.ReadFrameInvertsFrame` | internal/incidentregister/incidentregister.go:144-149 | a reader recovers one framed field, whatever bytes it holds and whatever follows it |
| `IncidentRegister.ReadFramesInvertsFrameAll` | internal/incidentregister/incidentregister.go:135-149 | any list of fields is recovered from its framing |
| `IncidentRegister.DecodeInvertsCanonical` | internal/incidentregister/incidentregister.go:135-167 | the decoder recovers every recorded field from the canonical bytes |
| `IncidentRegister.CanonicalInjective` | internal/incidentregister/incidentregister.go:135-167 | entries with the same canonical bytes have the same content |
| `IncidentRegister.HexInjective` | internal/incidentregister/incidentregister.go:171-176 | equal hex strings come from equal digests |
| `IncidentRegister.HashInputSplits` | internal/incidentregister/incidentregister.go:52-55 | equal hash inputs have equal previous hash and equal content: the genesis marker cannot begin a hex digest |
| `IncidentRegister.VerifyChain` | internal/incidentregister/incidentregister.go:199-219 | ok exactly for valid chains; otherwise the reported seq and detail are those of the first failing check of the first failing entry |
| `IncidentRegister.PrefixClosed` | internal/incidentregister/incidentregister.go:194-219 | every prefix of an accepted register is accepted |
| `IncidentRegister.LastEntriesAgree` | internal/incidentregister/incidentregister.go:171-219 | accepted registers with equal last hashes have equal last entries and equal lengths, or their last hash inputs collide |
| `IncidentRegister.TamperEvidence` | internal/incidentregister/incidentregister.go:135-219 | accepted registers with the same last hash are equal entry by entry, or two positions are returned whose own hash inputs differ and have the same digest |
| `RegisterStore.StoredKeepsNewEntry` | internal/incidentregister/store.go:111-184 | an entry is created at the precision its columns keep, so the row read back rehashes alike |
| `RegisterStore.AppendKeepsSound` | internal/incidentregister/store.go:111-184 | inserting the row made from the tail keeps seq 1..n and a verifying listing, and appends to the listing |
| `RegisterStore.Store.Create` | internal/incidentregister/store.go:111-185 | appends an entry that continues the current tail and records the filing as given, with the day of awareness, the microsecond of recording and the retention date the calendar sets; when refused, leaves the table alone |
| `RegisterStore.NewEntryRecords` | internal/incidentregister/store.go:131-159 | read back as a filing, a new entry is the input with the date of awareness cut to the day, under its id, recorded at the current microsecond and kept until the calendar's date for that day |
| `RegisterStore.Store.List` | internal/incidentregister/store.go:203-224 | returns all rows by ascending seq |
| `RegisterStore.ListingInOrder` | internal/incidentregister/store.go:203-224 | a table keyed by seq is listed by strictly ascending seq, gaps or not |
| `RegisterStore.Store.Export` | internal/incidentregister/store.go:228-244 | returns the listing with an integrity result that is ok exactly for valid chains |
| `RegisterStore.StepKeepsInv` | internal/incidentregister/store.go:111-185 | every lock, tail read, insert, commit or abort of any transaction keeps the table sound and what the lock holder read current, and listings only grow |
| `RegisterStore.RunKeepsInv` | internal/incidentregister/store.go:111-185 | the same for every run |
| `RegisterStore.EveryInterleaving` | internal/incidentregister/store.go:111-244 | in every interleaving the committed rows are seq 1..n and verify, and an earlier listing is a prefix of every later one |
| `RegisterStore.CommittedRowsAreFiled` | internal/incidentregister/store.go:111-185 | in every interleaving there are as many rows as commits, every row records the filing of one of the inserts, and no two rows share an id or a digest |
| `RegisterStore.InsertNeverForks` | internal/incidentregister/store.go:111-185 | a Create that holds the lock never inserts a seq that is taken |
| `AccountErasure.Pool.CollectFileKeys` | internal/db/account_erase_postgres.go:142-161 | one key per file of the user, exactly their keys, none twice |
| `AccountErasure.FilesStatement` | internal/db/account_erase_postgres.go:79-99 | after the two cascading deletes, deleting the files trips RESTRICT exactly when a surviving photo or attachment uses one |
| `AccountErasure.CollectorsStatement` | internal/db/account_erase_postgres.go:101-109 | deleting the collectors trips RESTRICT exactly when a surviving specimen names one |
| `AccountErasure.UserStatement` | internal/db/account_erase_postgres.go:122-132 | by then only an own journal entry on another's specimen can keep the user row |
| `AccountErasure.FinalState` | internal/db/account_erase_postgres.go:79-132 | the statements together leave the database defined by what survives the account |
| `AccountErasure.Pool.Erase` | internal/db/account_erase_postgres.go:36-138 | without other writers: the four outcomes, each under its exact condition; failure changes nothing; success leaves the database without the account and an exact summary |
| `AccountErasure.Pool.EraseAmidUploads` | internal/db/account_erase_postgres.go:36-161 | with files rows committed by others meanwhile: it also fails exactly when the account uploads after its files were deleted; uploads survive a failure; success leaves the database without the account and with what came late |
| `AccountErasure.UploadsDoNotBlock` | internal/db/account_erase_postgres.go:86-99 | uploads that nothing refers to yet never block an erasure, or unblock one |
| `AccountErasure.MissedKeysAreEarly` | internal/db/account_erase_postgres.go:55-99 | the keys of deleted files rows missing from the freed ones are exactly those the account uploaded after the keys were read |
| `AccountErasure.NothingMissedIff` | internal/db/account_erase_postgres.go:55-99 | every deleted object is freed, if and only if the account uploaded nothing in between |
| `AccountErasure.ErasedKeepsUserKeys` | internal/db/account_erase_postgres.go:26-35 | foreign keys to users hold afterwards |
| `AccountErasure.ErasedKeepsFileKeys` | internal/db/account_erase_postgres.go:26-35 | foreign keys to files and collectors hold afterwards |
| `AccountErasure.ErasureSound` | internal/db/account_erase_postgres.go:26-161 | after a success every foreign key holds, nothing refers to the account, species keep all but their author, every other table keeps exactly the rows that refer to nothing erased and keeps them as they were, and keys and counts of the summary are those of the rows that went, the journal count exactly when nobody else wrote on the account's specimens |
| `AccountErasure.OnlyThatWent` | internal/db/account_erase_postgres.go:79-132 | row by row over every table: exactly the rows that refer to nothing erased stay, unchanged, but that a surviving specimen loses a main image whose file went |
| `AccountErasure.JournalCountIff` | internal/db/account_erase_postgres.go:63-77 | the reported number of journal entries is the number erased, if and only if every entry on the account's specimens is the account's own |
| `AccountErasure.JournalCountCanBeWrong` | internal/db/account_erase_postgres.go:63-77 | a database that meets all constraints, with an administrator's entry on the account's specimen: none reported, one erased |
| `AccountErasure.OthersKeepTheirCollections` | internal/db/account_erase_postgres.go:86-99 | every other account keeps its specimens, photos and files as they were, but for main images whose file went, and loses entries only with the erased account's specimens |
| `ImportCheck.InvalidRecordsEmptyIff` | internal/portability/import.go:208-333 | no invalid record is noted exactly when ids are valid and unique, enums and type data valid and there is at most one sheet |
| `ImportCheck.BrokenReferencesEmptyIff` | internal/portability/import.go:208-333 | among valid records, no broken reference is noted exactly when every reference resolves |
| `ImportCheck.InvalidRecordsBlame` | internal/portability/import.go:208-346 | every problem noted as an invalid record names the id of a record that is faulty itself, unless it is the excess of sheets |
| `ImportCheck.BrokenReferencesBlame` | internal/portability/import.go:208-346 | every problem noted as a broken reference names the id of a record that refers to something the archive does not hold |
| `ImportCheck.DetailSet.Empty` | internal/portability/import.go:764-777 | empty exactly when nothing was ever added, cap or no cap |
| `ImportCheck.DetailSet.List` | internal/portability/import.go:779-784 | lists the first fifty problems in order and the number of the others |
| `ImportCheck.Scan` | internal/portability/import.go:211-316 | one record loop notes the problems of every record, in order, and records exactly the valid ids |
| `ImportCheck.CheckStructure` | internal/portability/import.go:208-346 | no error exactly for well-formed archives; invalid records take precedence over broken references; the details list the problems up to the cap |
| `ImportConflicts.UniqueCatalog` | internal/portability/import.go:705-712 | stops at the least free suffix, within one more try than there are taken numbers |
| `ImportConflicts.SuffixedReads` | internal/portability/import.go:705-712 | a suffixed number is the original, followed by its count in parentheses |
| `ImportConflicts.ResolveConflicts` | internal/portability/import.go:377-409 | every specimen gets the number decided from those in use before it, by archive id, and the conflicts list the changes in order |
| `ImportConflicts.ClearOfExisting` | internal/portability/import.go:377-409 | every non-blank number ends up clear of the importer's existing ones |
| `ImportConflicts.NumbersDistinct` | internal/portability/import.go:377-409 | any two non-blank numbers end up different |
| `ImportConflicts.ChangedIffTaken` | internal/portability/import.go:389-405 | a number changes exactly when it is non-blank and taken |
| `ImportConflicts.OneConflictPerChange` | internal/portability/import.go:377-409 | one conflict is recorded for a changed specimen, none for the others |
| `ImportConflicts.ConflictIsChange` | internal/portability/import.go:389-425 | every conflict names a specimen, its archived number and the different number it is imported under |
| `ImportConflicts.ChangeIsConflict` | internal/portability/import.go:389-425 | every change of a number has its conflict |
| `ImportConflicts.ResolutionUnique` | internal/portability/import.go:377-409 | the outcome is determined by archive and existing numbers |
| `ImportCommit.Importer.Commit` | internal/portability/import.go:427-582 | succeeds exactly when no row is refused and none violates a unique key with another or with a stored row; writes the whole copy or nothing; keeps every unique key and every id in use below the next one |
| `ImportCopy.LookupHits` | internal/portability/import.go:428-463 | no id-map lookup of a resolved reference misses: it finds the new id of its target |
| `ImportCopy.PhotosPointHome` | internal/portability/import.go:503-521 | every photo row points at the copies of its archive specimen and file |
| `ImportCopy.MainImagesPointHome` | internal/portability/import.go:464-469 | a main image is absent exactly when it was, else the copy of the archive file |
| `ImportCopy.EntriesPointHome` | internal/portability/import.go:524-531 | every journal row points at the copy of its archive specimen |
| `ImportCopy.AttachmentRowIsCopy` | internal/portability/import.go:532-539 | every attachment row is the copy of an archive attachment |
| `ImportCopy.AttachmentIsCopied` | internal/portability/import.go:532-539 | every archive attachment has its row |
| `ImportCopy.ChainRowIsCopy` | internal/portability/import.go:542-554 | every chain row is the copy of an archive link at its place in the chain |
| `ImportCopy.LinkIsCopied` | internal/portability/import.go:542-554 | every archive link has its row |
| `ImportCopy.StableSortCorrect` | internal/portability/import.go:567-568 | sheet members are taken in position order, none lost and none invented |
| `ImportCopy.MembersPointHome` | internal/portability/import.go:556-574 | the new sheet holds the copy of each member's specimen once and nothing else |
| `ImportCopy.MembersInOrder` | internal/portability/import.go:567-573 | its order is that of the archived positions |
| `ImportCommit.NewIdsNeverRepeat` | internal/portability/import.go:432-566 | no two created rows share an id, across all tables |
| `ImportCommit.NewIdsAreFresh` | internal/portability/import.go:432-566 | no created row has the id of a row that was there before |
| `ImportCopy.CommitCopiesGraph` | internal/portability/import.go:427-582 | the created rows are an isomorphic copy of the archive: every photo, entry, main image, attachment and link points at the created row of its archive target, the sheet holds its members' specimens once each, in order, at positions 1..N, none is left out or invented, and no id was in use before |
| `ImportCopy.CommitCopiesRows` | internal/portability/import.go:432-574 | read back as records the created rows are the archive's, column by column and in order; only ids are new, numbers are the resolved ones, type data is canonical, a photo without a kind is visible-light, and the owner is the importer |
| `ImportCopy.CreatedRowsAreValid` | internal/portability/import.go:432-574 | every enumerated column of a created row holds a value its table knows |
| `ImportClashes.AttachmentsClash` | migrations/0001_init.up.sql:104-110 | the attachments go in exactly when no entry attaches one file twice; stored ones never clash |
| `ImportClashes.LinksClash` | migrations/0001_init.up.sql:68-74 | the collector chains go in exactly when no specimen names one collector twice; stored ones never clash |
| `ImportClashes.NamesClash` | migrations/0001_init.up.sql:49-56 | the collectors go in exactly when no two have one name and nobody has a collector of one of the names |
| `ImportClashes.NumbersClash` | internal/portability/import.go:389-405 | two specimens come out of clash resolution with one number exactly when they went in with one blank number |
| `ImportClashes.CatalogClash` | migrations/0001_init.up.sql:15-18 | the specimens go in exactly when no two had one blank number and nobody has a specimen under one of the resolved numbers |
| `ImportClashes.AcceptedIff` | internal/portability/import.go:427-582 | where nothing but unique keys keeps rows out, a validated archive goes in, if and only if it has none of the four repetitions and nobody has a collector of one of its names or a specimen under one of its resolved numbers |
| `ImportClashes.ClashingValidates` | internal/portability/import.go:208-346 | for each of the four repetitions an archive that passes validation and has it |
| `ImportRun.Run` | internal/portability/import.go:98-206 | refuses exactly the uploads that are not importable, with the code of the first failing stage; a refusal, a failed transaction and a dry run write nothing; a commit writes a copy of the graph under fresh ids and resolved numbers, every row with the archived columns, and its report's counts are the numbers of rows written; where nothing but unique keys keeps rows out it fails exactly on archives that clash with themselves or with a stored row |
| `ImportRun.CountsAreGrowth` | internal/portability/import.go:104-123 | each count of a committed report is the number of rows its table grew by |
| `ImportRun.SkippedIff` | internal/portability/import.go:104-123 | the sheet is reported skipped, and not counted, exactly when the archive brings one and this user has one already |
| `ImportRun.CheckUpload` | internal/portability/import.go:147-206 | accepts exactly readable uploads of this application and schema with well-formed records and intact binaries |
| `ImportRun.VerifyBinaries` | internal/portability/import.go:350-371 | no error exactly when every file's binary is intact |
| `ImportRun.ClashingImportFails` | internal/portability/import.go:98-142 | for each of the four repetitions: the dry run reports success, the commit fails, and nothing is written |
| `ImportRun.SecondImportFails` | internal/portability/import.go:98-142 | an archive with a collector or a blank number, once committed, fails for every account ever after, whatever else the database refuses, while its dry run reports success |
| `ImportRun.ForeignNumberFails` | internal/portability/import.go:98-142 | one account imports a specimen; another gets a dry run of the same archive without a conflict, and its commit fails |
| `ImportRun.ClashIsForeign` | internal/db/specimen_postgres.go:94-120 | a number that took part in resolution can only clash with another account's specimen |
| `ImportRun.DryRunForetellsCommit` | internal/portability/import.go:98-142 | a dry run and a commit from the same state report the same counts, conflicts and warnings |
| `Cursor.DecodeInvertsEncode` | internal/db/cursor.go:46-74 | unpadded base64url decodes to what was encoded, for every byte string |
| `Cursor.EncodedIsUrlSafe` | internal/db/photo_postgres.go:221-234 | a cursor holds only letters, digits, hyphen and underscore, and is as short as unpadded base64 allows |
| `Cursor.DefaultCursorRoundTrip` | internal/db/cursor.go:39-91 | the default cursor is read back as the time and id it was made from, a nil id is refused, and the two other decoders refuse it |
| `Cursor.RankCursorRoundTrip` | internal/db/cursor.go:49-116 | the rank cursor is read back as its rank, time and id, and the two other decoders refuse it |
| `Cursor.PhotoCursorRoundTrip` | internal/db/photo_postgres.go:221-252 | the photo cursor is read back as its position, time and id, and the two other decoders refuse it |
| `Pagination.SelectCorrect` | internal/db/specimen_postgres.go:267-322 | a filtered, ordered query returns exactly the wanted rows, strictly in order |
| `Pagination.LessAtFirstDifference` | internal/db/specimen_postgres.go:267-322 | of two keys of one length the smaller is the one with the smaller value in the first column where they differ |
| `Pagination.ClampLimit` | internal/db/collector_postgres.go:214-222 | a limit between 1 and 200: the requested one in range, 200 above it, 50 when none is given |
| `Pagination.List` | internal/db/collector_postgres.go:116-183 | a malformed cursor is an error; otherwise the page of `limit` rows after the cursor, and a next cursor exactly when a probed row was cut off |
| `Pagination.FetchCorrect` | internal/db/specimen_postgres.go:267-398 | a page is sorted and wanted, complete when it is the last, and every wanted row it lacks lies after its cursor |
| `Pagination.CodecsRoundTrip` | internal/db/cursor.go:39-116 | every cursor a page hands out is non-empty and read back as its key, by all three codecs |
| `Pagination.ListAll` | internal/api/export.go:575-610 | the export loop through wire cursors is the walk through keys |
| `Pagination.WalkInOrder` | internal/api/export.go:450-610 | the rows of a completed walk are in order, behind the cursor, and each was in a fetched snapshot and passed its filter |
| `Pagination.WalkMissesNothing` | internal/api/export.go:450-610 | a key present and passing the filter in every fetched snapshot appears |
| `Pagination.WalkUnderChanges` | internal/api/export.go:450-610 | while rows and filter change arbitrarily between fetches: order, no key twice, and every key present throughout exactly once |
| `Pagination.NoRowTwice` | internal/api/export.go:450-610 | where no row's key moves forward between fetches, no row is listed twice |
| `Pagination.RepeatMeansMovedForward` | internal/api/export.go:450-610 | of any two listed rows the later was found by the same or a later fetch, under a greater key |
| `Pagination.MovedForwardIsRepeated` | internal/api/export.go:450-610 | for every page size, a row that moves from a full first page to behind it is listed again |
| `Pagination.NeverRepeatsIff` | internal/db/photo_postgres.go:119-178 | for every page size, direction and set of allowed key changes: no walk over any such history lists a row twice, if and only if no allowed change moves a key forward |
| `Pagination.PhotoListedTwice` | internal/db/photo_postgres.go:119-178 | a walk of two fetches between which a photo's position is raised, and which lists it twice |
| `Pagination.PageCountIsCeiling` | internal/db/collector_postgres.go:116-183 | the page count is the least number of pages, at least one, that holds the rows |
| `Pagination.SelectContinues` | internal/db/collector_postgres.go:116-183 | the query behind the next cursor returns exactly the rows the page cut off |
| `Pagination.WalkExhausts` | internal/api/export.go:450-610 | on an unchanged table the walk returns every row that passes the filter, in order, once, in max(1, ceil(n / limit)) pages |
| `RateLimiter.Limiter.Allow` | internal/ratelimit/limiter.go:81-127 | one call changes the buckets and answers exactly as the step that the lemmas over whole runs speak about |
| `RateLimiter.Limiter.SweepLocked` | internal/ratelimit/limiter.go:144-157 | evicts exactly the buckets idle for idleTTL, at most once per idleTTL |
| `RateLimiter.BalancesBounded` | internal/ratelimit/limiter.go:62-157 | in every run every balance stays between 0 and burst |
| `RateLimiter.StepSpends` | internal/ratelimit/limiter.go:81-118 | a call takes one token from the balance of its key if admitted and leaves every other balance alone |
| `RateLimiter.AdmissionBound` | internal/ratelimit/limiter.go:62-157 | in every run, calls admitted for a key in an interval number at most burst + rate * length |
| `RateLimiterLag.LaggingBound` | internal/ratelimit/limiter.go:81-118 | in every run whose stamps lag by at most d, on a limiter that never sweeps or has idleTTL >= window + d, calls admitted for a key with stamps in an interval number at most burst + rate * (length + d) |
| `RateLimiterLag.NoLagIsOrdered` | internal/ratelimit/limiter.go:81-84 | without lag these are the runs in clock order |
| `RateLimiterLag.LagBreaksBound` | internal/ratelimit/limiter.go:81-118 | a run of four calls, one lagging, that breaks the bound without the lag |
| `RateLimiter.SweepUnnoticedIff` | internal/ratelimit/limiter.go:139-157 | sweeping changes no answer of any run, if and only if the limiter is disabled, never sweeps, or has idleTTL >= window |
| `RateLimiter.BoundKeptIff` | internal/ratelimit/limiter.go:62-157 | on an enabled limiter the admission bound holds over all runs if and only if it never sweeps or has idleTTL >= window |
| `RateLimiter.ExhaustAdmitted` | internal/ratelimit/limiter.go:139-157 | with 0 < idleTTL < window a run is admitted twice its burst within idleTTL |
| `RateLimiter.LiveBucketsRecent` | internal/ratelimit/limiter.go:139-157 | after every call each live bucket's key was used within the last 2 * idleTTL |
| `RateLimiter.RetryAfterHonest` | internal/ratelimit/limiter.go:104-127 | after a refusal with wait w the key is refused before now + w however often it polls, and admitted from now + w + 1 ns on unless it was admitted in between |
| `RateLimiter.RetryAfterSeconds` | internal/api/ratelimit.go:118-127 | the least whole number of seconds that covers the wait, at least 1 |
| `RateLimiter.DisabledRefusesAll` | internal/ratelimit/limiter.go:81-127 | a limiter without requests or window refuses every call of every run and asks for one second |
| `QrSheet.AddRefines` | internal/db/qr_sheet_postgres.go:121-187 | adding appends when absent, leaves other sheets alone, and keeps positions packed |
| `QrSheet.RemoveRefines` | internal/db/qr_sheet_postgres.go:201-251 | removing deletes from the list, leaves other sheets alone, and keeps positions packed |
| `QrSheet.DropSpecimenRefines` | internal/db/qr_sheet_postgres.go:201-294 | deleting a specimen filters every sheet's list |
| `QrSheet.RepresentsUnique` | internal/db/qr_sheet_postgres.go:254-294 | a table stands for one list per sheet only |
| `QrSheet.ShiftCollidesMidway` | internal/db/qr_sheet_postgres.go:201-251 | moving the later of two neighbours first puts both on one position before the shift is complete |
| `QrSheet.RunRefines` | internal/db/qr_sheet_postgres.go:121-294 | after every run the table reads as the plain list; without specimen deletions positions are exactly 1..N |
| `QrSheet.Repo.AddSpecimen` | internal/db/qr_sheet_postgres.go:121-187 | the three outcomes under their conditions, and the new table |
| `QrSheet.Repo.RemoveSpecimen` | internal/db/qr_sheet_postgres.go:201-251 | the row-by-row shift, in any order, ends in the table of the set-wise removal |
| `QrSheet.Repo.ListSpecimens` | internal/db/qr_sheet_postgres.go:254-294 | reading by position returns the list the table stands for |
| `QrLayout.Generate` | internal/pdf/qr_sheet.go:117-170 | reports an empty sheet, the first label that cannot be encoded or registered, or a failed output, and otherwise prints the pages that PagesLaidOut describes |
| `QrLayout.PagesLaidOut` | internal/pdf/qr_sheet.go:117-162 | page p holds, in order, the labels p * capacity and on, each in the box of its index, and all pages but the last are full |
| `QrLayout.PageCountShown` | internal/api/qr_sheets.go:508-521 | for every number of labels, none included, the two capacity tables agree and the page count shown is the number of pages printed |
| `QrLayout.UnknownTemplates` | internal/api/qr_sheets.go:508-521 | a template is in both tables or in neither; one in neither counts a page for each label |
| `QrLayout.SlotInjective` | internal/pdf/qr_sheet.go:125-132 | label index to (page, row, column) is injective and within the grid |
| `QrLayout.SlotSurjective` | internal/pdf/qr_sheet.go:125-132 | every place of the grid is taken by the label with its number |
| `QrLayout.CellsDisjoint` | internal/pdf/qr_sheet.go:134-135 | different cells of a page do not overlap |
| `QrLayout.CellOnSheet` | internal/pdf/qr_sheet.go:134-135 | every cell lies on the sheet |
| `QrLayout.CellsByGaps` | internal/pdf/qr_sheet.go:134-135 | the first cell stands at the margins and neighbouring cells are exactly the gaps apart, on one line |
| `QrLayout.SquareInset` | internal/pdf/qr_sheet.go:142-152 | the code is a square that keeps 5% of the cell clear on every side |
| `QrLayout.SquareFills` | internal/pdf/qr_sheet.go:142-152 | the code fills the clear area in one direction and stands in the middle of the cell in both |
| `QrLayout.LabelsPrintClear` | internal/pdf/qr_sheet.go:68-162 | for every supported template and any two labels: inside cell and sheet, and never overlapping on one page |
| `Authorization.SeedingIsIdempotent` | internal/authz/enforcer.go:64-90 | seeding twice is seeding once |
| `Authorization.PolicyStore.SeedDefaultPolicies` | internal/authz/enforcer.go:73-90 | adds the missing default policies and groupings, each once, behind what is there, and nothing else |
| `Authorization.SeededStoreDecides` | internal/authz/enforcer.go:64-90 | a store with exactly the default policies and groupings, in any order, decides as the default table |
| `Authorization.EnforceRoleGrants` | internal/authz/enforcer.go:98-155 | what a single role grants for every resource type and action, out of the policy table, inheritance and matchers |
| `Authorization.CheckDecides` | internal/api/authz.go:53-70 | the guard's answer for every caller, share table, resource and action: no action is an error, what is granted passes, and all else is denied |
| `Authorization.CheckChange` | internal/api/authz.go:53-70 | whatever belongs to a user, visible or shared or not, only its owner and admins may change |
| `Authorization.CheckView` | internal/api/authz.go:53-70 | for specimens, photos, journal entries, collectors and QR sheets the guard lets a caller view exactly what is open to all, their own, a specimen or photo shared with them, or anything as an admin |
| `Authorization.AuthzUser` | internal/api/authz.go:147-161 | every role is kept in order; a caller with an identity holds the user role, added only if missing; one with neither identity nor roles is anonymous; no other role, admin least of all, is gained; the id is passed on exactly when it is not nil |
| `Authorization.PresentedOnce` | internal/api/authz.go:147-161 | these properties determine the subject, and presenting its roles again adds nothing |
| `Authorization.AccessScopeAgrees` | internal/db/shares.go:116-130 | the access scope admits a specimen exactly when the guard allows viewing it, for every caller, share table and row |
| `Authorization.OwnerScopeAgrees` | internal/db/shares.go:69-78 | the owner scope does the same for collectors and journal entries |
| `Authorization.ListScopeIsAccessMinusUnlisted` | internal/db/shares.go:90-104 | for every caller the list scope is the access scope, minus unlisted rows neither owned nor shared unless the caller is an admin |
| `Authorization.ScopesKeepArgs` | internal/db/shares.go:69-130 | a scope binds its parameter behind those already bound |
| `Redaction.ResolutionIsFirstSetLayer` | internal/visibility/visibility.go:120-188 | a chain resolves to exactly the answer of its first set layer, most specific first, and names that layer as the source |
| `Redaction.OverridesAnswer` | internal/visibility/visibility.go:120-188 | price and source are seen by their own column, else by the owner's default of the same name, else as private |
| `Redaction.DefaultsAnswer` | internal/visibility/visibility.go:120-188 | date and catalog number are seen by the owner's default of the same name, else as private |
| `Redaction.ImagesAnswer` | internal/visibility/visibility.go:120-188 | a photo is seen by its own column, else by the specimen's image column, else by the specimen's visibility, else by the owner's image default, else as private |
| `Redaction.Redactor.LoadOwner` | internal/api/redact.go:150-174 | the memo answers as a fresh lookup would |
| `Redaction.Redactor.RedactSpecimen` | internal/api/redact.go:57-83 | clearing field by field yields the view that keeps exactly the visible fields |
| `Redaction.ViewColumns` | internal/api/redact.go:57-83 | column by column a view shows the specimen's own value, a redactable one exactly to those who may see it |
| `Redaction.PrivateIsHidden` | internal/api/redact.go:57-143 | price and source marked private, and date and number of an owner without defaults, are hidden from whoever may not see private fields |
| `Redaction.PublicIsShown` | internal/api/redact.go:57-143 | price and source marked public are shown to everybody |
| `Redaction.Redactor.RedactPage` | internal/api/redact.go:36-83 | a page redacted with the memo is the page redacted with a fresh owner per row |
| `Redaction.Redactor.FilterPhotos` | internal/api/redact.go:93-105 | keeps exactly the photos whose resolved visibility the caller may see, in order |
| `Redaction.VisiblePlaces` | internal/api/redact.go:93-105 | the photos left stand at rising places of the input, which are exactly those of the visible ones |
| `Redaction.ViewsShowExactlyWhatMayBeSeen` | internal/api/redact.go:57-143 | two specimens alike outside the redactable fields give equal views exactly when they agree on the fields the caller may see |
| `Redaction.PrivateFieldSeenBy` | internal/api/redact.go:122-143 | a private field is seen by admins, the owner and those the specimen is shared with, and nobody else |
| `Redaction.MoreRolesNeverHide` | internal/api/redact.go:122-143 | under every policy table, more roles never hide a field, except from a caller with neither identity nor roles who is given roles other than anonymous |
| `Redaction.MoreRolesNeverHideIff` | internal/api/redact.go:122-143 | over all policy tables, shares, specimens and fields, giving a caller these further roles never hides anything, if and only if it is not that exception |
| `Redaction.SeededRolesNeverHide` | internal/api/redact.go:122-143 | under the default policies there is no exception |
| `Redaction.OwnerAndAdminSeeAll` | internal/api/redact.go:57-143 | owner and admin get the full view and all photos |
| `FirstLogin.UserRepo.ResolveOrCreateUser` | internal/api/huma_auth.go:315-343 | run alone, returns the sub's only row, the existing one when there was one |
| `FirstLogin.StepKeepsInv` | internal/db/user_postgres.go:66-87 | every lookup, insert or re-read keeps one row per sub and every finished call's row |
| `FirstLogin.OneAccountPerSub` | internal/api/huma_auth.go:315-343 | in every interleaving any two finished calls for a sub return the id of its only row |
| `FirstLogin.NeverNotFound` | internal/api/huma_auth.go:315-343 | the re-read after a conflict never misses |

## Left out

- ZIP and JSON decoding, the hashing of binaries and their upload after a commit: their verdicts are parameters of the model.
- A round trip from export to import: the two sides do not use the same field names, so it does not hold.
- Stored object variants on erasure: `FreedObjectKeys` names the originals only, and the model says no more.
- Agreement of the photo list filter with single-photo access: they consult different share types.
- Refusals of single rows by column types, other writers and the connection during an import: any row may be refused.
- Floating-point rounding in the limiter and the page geometry: both are modelled exactly.
- Authorization.CheckView: a share lookup that fails, which the source answers with an internal error, is not modelled; its outcome depends on the order in which the policy library visits policies.
- Authorization.CheckDecides: the same lookup is taken to succeed.
- FirstLogin.OneAccountPerSub: no erasure runs alongside, and only the sub can collide.
- Chemical-formula normalisation, Mindat, markdown, configuration, logging, routing, Keycloak, MinIO and the frontend: text processing or I/O.
- Suspension, registration and profile handlers: finite case analyses over calls into other systems.
