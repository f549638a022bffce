/**
 The import transaction: every archive record becomes a row under a fresh id, every
 archive reference is rewritten through the id maps (commit of
 internal/portability/import.go).
 */
module ImportCommit {
  import opened Options
  import opened ArchiveFormat
  import opened ImportCheck
  import opened ImportConflicts

  type Uuid = nat
  const NIL_ID: Uuid := 0

  datatype CollectorRow = CollectorRow(id: Uuid, author: Uuid, name: string, columns: string)
  datatype FileRow = FileRow(id: Uuid, uploadedBy: Uuid, columns: string)
  datatype SpecimenRow = SpecimenRow(
    id: Uuid, author: Uuid, typ: string, catalogNumber: Option<string>, visibility: string,
    visibilityPrice: Option<string>, visibilityAcquiredFrom: Option<string>, visibilityImages: Option<string>,
    typeData: string, mainImage: Option<Uuid>, columns: string)
  datatype PhotoRow = PhotoRow(id: Uuid, specimen: Uuid, file: Uuid, kind: string, visibility: Option<string>, columns: string)
  datatype EntryRow = EntryRow(id: Uuid, author: Uuid, specimen: Uuid, columns: string)
  datatype AttachmentRow = AttachmentRow(entry: Uuid, file: Uuid, columns: string)
  datatype ChainRow = ChainRow(specimen: Uuid, collector: Uuid, position: nat)
  datatype SheetRow = SheetRow(id: Uuid, user: Uuid, template: string, columns: string)
  datatype MemberRow = MemberRow(sheet: Uuid, specimen: Uuid, position: nat)

  /** Any row an insert may be refused for. */
  datatype Row =
    | OfCollector(collector: CollectorRow) | OfFile(file: FileRow) | OfSpecimen(specimen: SpecimenRow)
    | OfPhoto(photo: PhotoRow) | OfEntry(entry: EntryRow) | OfAttachment(attachment: AttachmentRow)
    | OfChain(chain: ChainRow) | OfSheet(sheet: SheetRow) | OfMember(member: MemberRow)

  /** Table contents, of all accounts. */
  datatype Tables = Tables(
    collectors: seq<CollectorRow>, files: seq<FileRow>, specimens: seq<SpecimenRow>, photos: seq<PhotoRow>,
    entries: seq<EntryRow>, attachments: seq<AttachmentRow>, chains: seq<ChainRow>,
    sheets: seq<SheetRow>, members: seq<MemberRow>)

  type IdMap = map<string, Uuid>

  /** A Go map read: the zero value when the key is missing. */
  function Lookup(m: IdMap, k: string): Uuid {
    if k in m then m[k] else NIL_ID
  }

  /** Ids handed out one after the other, the i-th record getting base + i. */
  function IdsFrom(ids: seq<string>, base: nat): IdMap {
    if ids == [] then map[] else IdsFrom(ids[..|ids| - 1], base)[ids[|ids| - 1] := base + |ids| - 1]
  }

  // ------------------------------------------------- the rows a record becomes

  function CollectorCopy(user: Uuid, id: Uuid, c: CollectorRecord): CollectorRow {
    CollectorRow(id, user, c.name, c.columns)
  }

  function FileCopy(user: Uuid, id: Uuid, f: FileRecord): FileRow {
    FileRow(id, user, f.columns)
  }

  function MainImage(files: IdMap, s: SpecimenRecord): Option<Uuid> {
    if s.mainImageFileId.Some? && s.mainImageFileId.value in files then Some(files[s.mainImageFileId.value]) else None
  }

  function SpecimenCopy(user: Uuid, files: IdMap, catalog: Option<string>, typeData: string, id: Uuid, s: SpecimenRecord): SpecimenRow {
    SpecimenRow(id, user, s.typ, catalog, s.visibility, s.visibilityPrice, s.visibilityAcquiredFrom, s.visibilityImages,
                typeData, MainImage(files, s), s.columns)
  }

  function PhotoCopy(specimens: IdMap, files: IdMap, id: Uuid, p: PhotoRecord): PhotoRow {
    PhotoRow(id, Lookup(specimens, p.specimenId), Lookup(files, p.fileId),
             if p.kind == "" then "visible" else p.kind, p.visibility, p.columns)
  }

  function EntryCopy(user: Uuid, specimens: IdMap, id: Uuid, e: JournalRecord): EntryRow {
    EntryRow(id, user, Lookup(specimens, e.specimenId), e.columns)
  }

  function AttachmentCopies(files: IdMap, entry: Uuid, e: JournalRecord): seq<AttachmentRow> {
    seq(|e.attachments|, j requires 0 <= j < |e.attachments| =>
      AttachmentRow(entry, Lookup(files, e.attachments[j].fileId), e.attachments[j].columns))
  }

  function ChainCopies(specimens: IdMap, collectors: IdMap, s: SpecimenRecord): seq<ChainRow> {
    seq(|s.collectorIds|, j requires 0 <= j < |s.collectorIds| =>
      ChainRow(Lookup(specimens, s.id), Lookup(collectors, s.collectorIds[j]), j + 1))
  }

  // ---------------------------------------------------- the tables they form

  function CollectorRows(user: Uuid, a: Archive, base: nat): seq<CollectorRow> {
    seq(|a.collectors|, i requires 0 <= i < |a.collectors| => CollectorCopy(user, base + i, a.collectors[i]))
  }

  function FileRows(user: Uuid, a: Archive, base: nat): seq<FileRow> {
    seq(|a.files|, i requires 0 <= i < |a.files| => FileCopy(user, base + i, a.files[i]))
  }

  function CatalogOf(cat: map<string, Option<string>>, id: string): Option<string> {
    if id in cat then cat[id] else None
  }

  function TypeDataOf(lib: Library, s: SpecimenRecord): string {
    var t := lib.typeData(s.typ, s.typeData);
    if t.Some? then t.value else ""
  }

  /** Every specimen is created under its resolved catalog number. */
  ghost predicate CatalogApplied(a: Archive, out: seq<Option<string>>, cat: map<string, Option<string>>) {
    |out| == |a.specimens| && forall i :: 0 <= i < |a.specimens| ==> CatalogOf(cat, a.specimens[i].id) == out[i]
  }

  function SpecimenImage(lib: Library, user: Uuid, files: IdMap, cat: map<string, Option<string>>, id: Uuid, s: SpecimenRecord): SpecimenRow {
    SpecimenCopy(user, files, CatalogOf(cat, s.id), TypeDataOf(lib, s), id, s)
  }

  function SpecimenRows(lib: Library, user: Uuid, a: Archive, files: IdMap, cat: map<string, Option<string>>, base: nat): seq<SpecimenRow> {
    seq(|a.specimens|, i requires 0 <= i < |a.specimens| =>
      SpecimenImage(lib, user, files, cat, base + i, a.specimens[i]))
  }

  function PhotoRows(a: Archive, specimens: IdMap, files: IdMap, base: nat): seq<PhotoRow> {
    seq(|a.photos|, i requires 0 <= i < |a.photos| => PhotoCopy(specimens, files, base + i, a.photos[i]))
  }

  function EntryRows(user: Uuid, a: Archive, specimens: IdMap, base: nat): seq<EntryRow> {
    seq(|a.journal|, i requires 0 <= i < |a.journal| => EntryCopy(user, specimens, base + i, a.journal[i]))
  }

  /** The attachments of the first n entries. */
  function AttachmentRows(a: Archive, files: IdMap, base: nat, n: nat): seq<AttachmentRow>
    requires n <= |a.journal|
  {
    if n == 0 then [] else AttachmentRows(a, files, base, n - 1) + AttachmentCopies(files, base + n - 1, a.journal[n - 1])
  }

  /** The collector chains of the first n specimens. */
  function ChainRows(a: Archive, specimens: IdMap, collectors: IdMap, n: nat): seq<ChainRow>
    requires n <= |a.specimens|
  {
    if n == 0 then [] else ChainRows(a, specimens, collectors, n - 1) + ChainCopies(specimens, collectors, a.specimens[n - 1])
  }

  // ------------------------------------------------------------ the QR sheet

  /** sort.SliceStable by position: each member goes behind the earlier ones of the same position. */
  function InsertByPosition(ms: seq<QrMember>, m: QrMember): seq<QrMember> {
    if ms == [] || ms[|ms| - 1].position <= m.position then ms + [m]
    else InsertByPosition(ms[..|ms| - 1], m) + [ms[|ms| - 1]]
  }

  function StableSort(ms: seq<QrMember>): seq<QrMember> {
    if ms == [] then [] else InsertByPosition(StableSort(ms[..|ms| - 1]), ms[|ms| - 1])
  }

  /** AddSpecimen for each member in turn: absent specimens are appended. */
  function Joined(list: seq<Uuid>, specimens: IdMap, ms: seq<QrMember>): seq<Uuid> {
    if ms == [] then list else
      var before := Joined(list, specimens, ms[..|ms| - 1]);
      var id := Lookup(specimens, ms[|ms| - 1].specimenId);
      if id in before then before else before + [id]
  }

  /** MAX(position) + 1 counts the members up. */
  function MemberRows(sheet: Uuid, list: seq<Uuid>): seq<MemberRow> {
    seq(|list|, i requires 0 <= i < |list| => MemberRow(sheet, list[i], i + 1))
  }

  // ------------------------------------------------------------- the phases

  /**
   What a transaction finds: the stored rows, against which unique keys are checked, and what it
   refuses beyond them, such as a number too large for its column, a NUL in a text, the work of
   another writer or a lost connection.
   */
  datatype Database = Database(stored: Tables, rejects: Row -> bool)

  /** A stored row has this one's unique key. */
  predicate Taken<R>(stored: seq<R>, row: R, clash: (R, R) -> bool) {
    exists i :: 0 <= i < |stored| && clash(stored[i], row)
  }

  /** Rows that go in one after the other: none is refused, and none clashes with an earlier one. */
  ghost predicate Inserts<R(!new)>(rows: seq<R>, refused: R -> bool, clash: (R, R) -> bool) {
    && (forall i :: 0 <= i < |rows| ==> !refused(rows[i]))
    && (forall i, j :: 0 <= i < j < |rows| ==> !clash(rows[i], rows[j]))
  }

  /** The next row is refused, or violates a unique key together with a row before it. */
  predicate KeptOut<R>(rows: seq<R>, row: R, refused: R -> bool, clash: (R, R) -> bool) {
    refused(row) || exists i :: 0 <= i < |rows| && clash(rows[i], row)
  }

  lemma InsertsNext<R(!new)>(rows: seq<R>, row: R, refused: R -> bool, clash: (R, R) -> bool)
    requires Inserts(rows, refused, clash)
    ensures Inserts(rows + [row], refused, clash) <==> !KeptOut(rows, row, refused, clash)
  {
    var more := rows + [row];
    assert more[|rows|] == row;
    if i :| 0 <= i < |rows| && clash(rows[i], row) {
      assert clash(more[i], more[|rows|]);
    }
  }

  lemma InsertsConcat<R(!new)>(a: seq<R>, b: seq<R>, refused: R -> bool, clash: (R, R) -> bool)
    ensures Inserts(a + b, refused, clash) ==> Inserts(a, refused, clash)
    ensures (forall x, y :: x in a && y in b ==> !clash(x, y)) ==>
              (Inserts(a + b, refused, clash) <==> Inserts(a, refused, clash) && Inserts(b, refused, clash))
  {
    var ab := a + b;
    assert forall i :: 0 <= i < |a| ==> ab[i] == a[i];
    assert forall i :: 0 <= i < |b| ==> b[i] == ab[|a| + i];
  }

  /** Row i of a list goes in behind the ones before it. */
  lemma InsertsAt<R(!new)>(rows: seq<R>, i: nat, refused: R -> bool, clash: (R, R) -> bool)
    requires i < |rows| && Inserts(rows[..i], refused, clash)
    ensures rows[..i + 1] == rows[..i] + [rows[i]]
    ensures Inserts(rows[..i + 1], refused, clash) <==> !KeptOut(rows[..i], rows[i], refused, clash)
    ensures Inserts(rows, refused, clash) ==> Inserts(rows[..i + 1], refused, clash)
  {
    InsertsNext(rows[..i], rows[i], refused, clash);
  }

  // UNIQUE (collectors.name), UNIQUE (specimens.catalog_number), PRIMARY KEY (entry_id, file_id),
  // PRIMARY KEY (specimen_id, collector_id) and UNIQUE (qr_sheets.user_id).

  predicate SameName(r: CollectorRow, r': CollectorRow) {
    r.name == r'.name
  }

  predicate SameNumber(r: SpecimenRow, r': SpecimenRow) {
    r.catalogNumber.Some? && r.catalogNumber == r'.catalogNumber
  }

  predicate SameAttachment(r: AttachmentRow, r': AttachmentRow) {
    r.entry == r'.entry && r.file == r'.file
  }

  predicate SameLink(r: ChainRow, r': ChainRow) {
    r.specimen == r'.specimen && r.collector == r'.collector
  }

  predicate SameUser(r: SheetRow, r': SheetRow) {
    r.user == r'.user
  }

  function SheetRefused(db: Database): SheetRow -> bool {
    r => db.rejects(OfSheet(r)) || Taken(db.stored.sheets, r, SameUser)
  }

  function CollectorRefused(db: Database): CollectorRow -> bool {
    r => db.rejects(OfCollector(r)) || Taken(db.stored.collectors, r, SameName)
  }

  function SpecimenRefused(db: Database): SpecimenRow -> bool {
    r => db.rejects(OfSpecimen(r)) || Taken(db.stored.specimens, r, SameNumber)
  }

  function AttachmentRefused(db: Database): AttachmentRow -> bool {
    r => db.rejects(OfAttachment(r)) || Taken(db.stored.attachments, r, SameAttachment)
  }

  function ChainRefused(db: Database): ChainRow -> bool {
    r => db.rejects(OfChain(r)) || Taken(db.stored.chains, r, SameLink)
  }

  ghost predicate CollectorsAccepted(db: Database, rows: seq<CollectorRow>) {
    Inserts(rows, CollectorRefused(db), SameName)
  }

  ghost predicate FilesAccepted(db: Database, rows: seq<FileRow>) {
    forall r :: r in rows ==> !db.rejects(OfFile(r))
  }

  ghost predicate PhotosAccepted(db: Database, rows: seq<PhotoRow>) {
    forall r :: r in rows ==> !db.rejects(OfPhoto(r))
  }

  ghost predicate EntriesAccepted(db: Database, rows: seq<EntryRow>) {
    forall r :: r in rows ==> !db.rejects(OfEntry(r))
  }

  ghost predicate AttachmentsAccepted(db: Database, rows: seq<AttachmentRow>) {
    Inserts(rows, AttachmentRefused(db), SameAttachment)
  }

  ghost predicate ChainsAccepted(db: Database, rows: seq<ChainRow>) {
    Inserts(rows, ChainRefused(db), SameLink)
  }

  lemma IdsNext(ids: seq<string>, base: nat, i: nat)
    requires i < |ids|
    ensures IdsFrom(ids[..i + 1], base) == IdsFrom(ids[..i], base)[ids[i] := base + i]
  {
    assert ids[..i + 1][..i] == ids[..i];
  }

  method InsertCollectors(db: Database, user: Uuid, a: Archive, base: nat) returns (ok: bool, rows: seq<CollectorRow>, ids: IdMap)
    ensures ok <==> CollectorsAccepted(db, CollectorRows(user, a, base))
    ensures ok ==> rows == CollectorRows(user, a, base) && ids == IdsFrom(CollectorIds(a), base)
  {
    ghost var want, all := CollectorRows(user, a, base), CollectorIds(a);
    rows, ok := [], true;
    ids := map[];
    for i := 0 to |a.collectors|
      invariant rows == want[..i] && ids == IdsFrom(all[..i], base)
      invariant ok && CollectorsAccepted(db, want[..i])
    {
      var id := base + i;  // NewID
      ids := ids[a.collectors[i].id := id];
      IdsNext(all, base, i);
      var row := CollectorCopy(user, id, a.collectors[i]);
      assert row == want[i];
      InsertsAt(want, i, CollectorRefused(db), SameName);
      if KeptOut(rows, row, CollectorRefused(db), SameName) { ok := false; return; }
      rows := rows + [row];
    }
    assert all[..|all|] == all && want[..|want|] == want;
  }

  method InsertFiles(db: Database, user: Uuid, a: Archive, base: nat) returns (ok: bool, rows: seq<FileRow>, ids: IdMap)
    ensures ok <==> FilesAccepted(db, FileRows(user, a, base))
    ensures ok ==> rows == FileRows(user, a, base) && ids == IdsFrom(FileIds(a), base)
  {
    ghost var want := FileRows(user, a, base);
    ghost var all := FileIds(a);
    rows, ok := [], true;
    ids := map[];
    for i := 0 to |a.files|
      invariant rows == want[..i] && ids == IdsFrom(all[..i], base)
      invariant ok && forall j :: 0 <= j < i ==> !db.rejects(OfFile(want[j]))
    {
      var id := base + i;  // NewID
      ids := ids[a.files[i].id := id];
      IdsNext(all, base, i);
      var row := FileCopy(user, id, a.files[i]);
      assert row == want[i];
      if db.rejects(OfFile(row)) { ok := false; return; }
      rows := rows + [row];
    }
    assert all[..|all|] == all;
  }

  ghost predicate SpecimensAccepted(lib: Library, db: Database, ss: seq<SpecimenRecord>, rows: seq<SpecimenRow>)
    requires |rows| <= |ss|
  {
    && (forall i :: 0 <= i < |rows| ==> lib.typeData(ss[i].typ, ss[i].typeData).Some?)
    && Inserts(rows, SpecimenRefused(db), SameNumber)
  }

  lemma AcceptedNext(lib: Library, db: Database, ss: seq<SpecimenRecord>, rows: seq<SpecimenRow>, i: nat)
    requires i < |rows| <= |ss| && SpecimensAccepted(lib, db, ss, rows[..i])
    ensures rows[..i + 1] == rows[..i] + [rows[i]]
    ensures SpecimensAccepted(lib, db, ss, rows[..i + 1]) <==>
            lib.typeData(ss[i].typ, ss[i].typeData).Some? && !KeptOut(rows[..i], rows[i], SpecimenRefused(db), SameNumber)
    ensures SpecimensAccepted(lib, db, ss, rows) ==> SpecimensAccepted(lib, db, ss, rows[..i + 1])
  {
    InsertsAt(rows, i, SpecimenRefused(db), SameNumber);
  }

  method InsertSpecimen(lib: Library, db: Database, user: Uuid, files: IdMap, cat: map<string, Option<string>>, id: Uuid,
                        s: SpecimenRecord, before: seq<SpecimenRow>)
    returns (ok: bool, row: SpecimenRow)
    ensures row == SpecimenImage(lib, user, files, cat, id, s)
    ensures ok <==> lib.typeData(s.typ, s.typeData).Some? && !KeptOut(before, row, SpecimenRefused(db), SameNumber)
  {
    var typeData := lib.typeData(s.typ, s.typeData);
    row := SpecimenImage(lib, user, files, cat, id, s);
    if typeData.None? { return false, row; }
    ok := !KeptOut(before, row, SpecimenRefused(db), SameNumber);
  }

  method InsertSpecimens(lib: Library, db: Database, user: Uuid, a: Archive, files: IdMap, cat: map<string, Option<string>>, base: nat)
    returns (ok: bool, rows: seq<SpecimenRow>, ids: IdMap)
    ensures ok <==> SpecimensAccepted(lib, db, a.specimens, SpecimenRows(lib, user, a, files, cat, base))
    ensures ok ==> rows == SpecimenRows(lib, user, a, files, cat, base) && ids == IdsFrom(SpecimenIds(a), base)
  {
    ghost var want := SpecimenRows(lib, user, a, files, cat, base);
    ok, rows, ids := InsertEachSpecimen(lib, db, user, files, cat, base, a.specimens, SpecimenIds(a), want);
  }

  method InsertEachSpecimen(lib: Library, db: Database, user: Uuid, files: IdMap, cat: map<string, Option<string>>, base: nat,
                            ss: seq<SpecimenRecord>, ghost all: seq<string>, ghost want: seq<SpecimenRow>)
    returns (ok: bool, rows: seq<SpecimenRow>, ids: IdMap)
    requires |want| == |all| == |ss|
    requires forall i :: 0 <= i < |ss| ==> all[i] == ss[i].id
    requires forall i :: 0 <= i < |ss| ==> want[i] == SpecimenImage(lib, user, files, cat, base + i, ss[i])
    ensures ok <==> SpecimensAccepted(lib, db, ss, want)
    ensures ok ==> rows == want && ids == IdsFrom(all, base)
  {
    rows, ids, ok := [], map[], true;
    for i := 0 to |ss|
      invariant rows == want[..i] && ids == IdsFrom(all[..i], base)
      invariant ok && SpecimensAccepted(lib, db, ss, want[..i])
    {
      var id := base + i;  // NewID
      ids := ids[ss[i].id := id];
      IdsNext(all, base, i);
      var row;
      ok, row := InsertSpecimen(lib, db, user, files, cat, id, ss[i], rows);
      AcceptedNext(lib, db, ss, want, i);
      if !ok { return; }
      rows := rows + [row];
    }
    assert all[..|all|] == all && want[..|want|] == want;
  }

  method InsertPhotos(db: Database, a: Archive, specimens: IdMap, files: IdMap, base: nat) returns (ok: bool, rows: seq<PhotoRow>)
    ensures ok <==> PhotosAccepted(db, PhotoRows(a, specimens, files, base))
    ensures ok ==> rows == PhotoRows(a, specimens, files, base)
  {
    ghost var want := PhotoRows(a, specimens, files, base);
    rows, ok := [], true;
    for i := 0 to |a.photos|
      invariant rows == want[..i]
      invariant ok && forall j :: 0 <= j < i ==> !db.rejects(OfPhoto(want[j]))
    {
      var id := base + i;  // NewID
      var row := PhotoCopy(specimens, files, id, a.photos[i]);
      assert row == want[i];
      if db.rejects(OfPhoto(row)) { ok := false; return; }
      rows := rows + [row];
    }
  }

  /** The attachments of one entry, behind those inserted before. */
  method InsertAttachments(db: Database, before: seq<AttachmentRow>, files: IdMap, entry: Uuid, e: JournalRecord)
    returns (ok: bool, rows: seq<AttachmentRow>)
    requires AttachmentsAccepted(db, before)
    ensures ok <==> AttachmentsAccepted(db, before + AttachmentCopies(files, entry, e))
    ensures ok ==> rows == before + AttachmentCopies(files, entry, e)
  {
    ghost var copies := AttachmentCopies(files, entry, e);
    ghost var want, n := before + copies, |before|;
    rows, ok := before, true;
    assert want[..n] == before;
    for j := 0 to |e.attachments|
      invariant rows == want[..n + j] && ok && AttachmentsAccepted(db, want[..n + j])
    {
      var row := AttachmentRow(entry, Lookup(files, e.attachments[j].fileId), e.attachments[j].columns);
      assert row == copies[j] == want[n + j];
      InsertsAt(want, n + j, AttachmentRefused(db), SameAttachment);
      if KeptOut(rows, row, AttachmentRefused(db), SameAttachment) { ok := false; return; }
      rows := rows + [row];
    }
    assert want[..n + |e.attachments|] == want;
  }

  lemma {:induction false} AttachmentRowsGrow(a: Archive, files: IdMap, base: nat, i: nat, n: nat)
    requires i <= n <= |a.journal|
    ensures AttachmentRows(a, files, base, i) <= AttachmentRows(a, files, base, n)
    decreases n
  {
    if i < n { AttachmentRowsGrow(a, files, base, i, n - 1); }
  }

  lemma AcceptedGrows(db: Database, rows: seq<AttachmentRow>, more: seq<AttachmentRow>)
    requires rows <= more && AttachmentsAccepted(db, more)
    ensures AttachmentsAccepted(db, rows)
  {
    assert more == rows + more[|rows|..];
    InsertsConcat(rows, more[|rows|..], AttachmentRefused(db), SameAttachment);
  }

  method InsertJournal(db: Database, user: Uuid, a: Archive, specimens: IdMap, files: IdMap, base: nat)
    returns (ok: bool, rows: seq<EntryRow>, attachments: seq<AttachmentRow>)
    ensures ok <==> EntriesAccepted(db, EntryRows(user, a, specimens, base))
                    && AttachmentsAccepted(db, AttachmentRows(a, files, base, |a.journal|))
    ensures ok ==> rows == EntryRows(user, a, specimens, base) && attachments == AttachmentRows(a, files, base, |a.journal|)
  {
    ghost var want, n := EntryRows(user, a, specimens, base), |a.journal|;
    rows, attachments, ok := [], [], true;
    for i := 0 to |a.journal|
      invariant rows == want[..i] && attachments == AttachmentRows(a, files, base, i)
      invariant ok && AttachmentsAccepted(db, attachments) && forall j :: 0 <= j < i ==> !db.rejects(OfEntry(want[j]))
    {
      var id := base + i;  // NewID
      var row := EntryCopy(user, specimens, id, a.journal[i]);
      assert row == want[i];
      if db.rejects(OfEntry(row)) { ok := false; return; }
      var more;
      ok, more := InsertAttachments(db, attachments, files, id, a.journal[i]);
      if !ok {
        if AttachmentsAccepted(db, AttachmentRows(a, files, base, n)) {
          AttachmentRowsGrow(a, files, base, i + 1, n);
          AcceptedGrows(db, AttachmentRows(a, files, base, i + 1), AttachmentRows(a, files, base, n));
        }
        return;
      }
      rows, attachments := rows + [row], more;
    }
  }

  /** ReplaceChain of a specimen without rows: insert after insert, behind those of other specimens. */
  method ReplaceChain(db: Database, before: seq<ChainRow>, copies: seq<ChainRow>) returns (ok: bool, rows: seq<ChainRow>)
    requires ChainsAccepted(db, before)
    ensures ok <==> ChainsAccepted(db, before + copies)
    ensures ok ==> rows == before + copies
  {
    ghost var want, n := before + copies, |before|;
    rows, ok := before, true;
    assert want[..n] == before;
    for j := 0 to |copies|
      invariant rows == want[..n + j] && ok && ChainsAccepted(db, want[..n + j])
    {
      InsertsAt(want, n + j, ChainRefused(db), SameLink);
      if KeptOut(rows, copies[j], ChainRefused(db), SameLink) { ok := false; return; }
      rows := rows + [copies[j]];
    }
    assert want[..n + |copies|] == want;
  }

  /** One specimen's collector chain: the collectors' new ids, then their rows. */
  method InsertChain(db: Database, before: seq<ChainRow>, specimens: IdMap, collectors: IdMap, s: SpecimenRecord)
    returns (ok: bool, rows: seq<ChainRow>)
    requires ChainsAccepted(db, before)
    ensures ok <==> ChainsAccepted(db, before + ChainCopies(specimens, collectors, s))
    ensures ok ==> rows == before + ChainCopies(specimens, collectors, s)
  {
    var copies := [];
    for j := 0 to |s.collectorIds|
      invariant copies == ChainCopies(specimens, collectors, s)[..j]
    {
      copies := copies + [ChainRow(Lookup(specimens, s.id), Lookup(collectors, s.collectorIds[j]), j + 1)];
    }
    assert copies == ChainCopies(specimens, collectors, s);
    ok, rows := ReplaceChain(db, before, copies);
  }

  lemma {:induction false} ChainRowsGrow(a: Archive, specimens: IdMap, collectors: IdMap, i: nat, n: nat)
    requires i <= n <= |a.specimens|
    ensures ChainRows(a, specimens, collectors, i) <= ChainRows(a, specimens, collectors, n)
    decreases n
  {
    if i < n { ChainRowsGrow(a, specimens, collectors, i, n - 1); }
  }

  lemma ChainsGrow(db: Database, rows: seq<ChainRow>, more: seq<ChainRow>)
    requires rows <= more && ChainsAccepted(db, more)
    ensures ChainsAccepted(db, rows)
  {
    assert more == rows + more[|rows|..];
    InsertsConcat(rows, more[|rows|..], ChainRefused(db), SameLink);
  }

  method InsertChains(db: Database, a: Archive, specimens: IdMap, collectors: IdMap) returns (ok: bool, rows: seq<ChainRow>)
    ensures ok <==> ChainsAccepted(db, ChainRows(a, specimens, collectors, |a.specimens|))
    ensures ok ==> rows == ChainRows(a, specimens, collectors, |a.specimens|)
  {
    ghost var n := |a.specimens|;
    rows, ok := [], true;
    for i := 0 to |a.specimens|
      invariant rows == ChainRows(a, specimens, collectors, i)
      invariant ok && ChainsAccepted(db, rows)
    {
      var more;
      ok, more := InsertChain(db, rows, specimens, collectors, a.specimens[i]);
      if !ok {
        if ChainsAccepted(db, ChainRows(a, specimens, collectors, n)) {
          ChainRowsGrow(a, specimens, collectors, i + 1, n);
          ChainsGrow(db, ChainRows(a, specimens, collectors, i + 1), ChainRows(a, specimens, collectors, n));
        }
        return;
      }
      rows := more;
    }
  }

  ghost predicate MembersAccepted(db: Database, sheet: Uuid, specimens: IdMap, ms: seq<QrMember>) {
    forall i :: 0 <= i < |ms| ==> MemberAccepted(db, sheet, specimens, ms, i)
  }

  /** A member is inserted, behind the ones on the new sheet, unless it is already there. */
  ghost predicate MemberAccepted(db: Database, sheet: Uuid, specimens: IdMap, ms: seq<QrMember>, i: nat)
    requires i < |ms|
  {
    var id, before := Lookup(specimens, ms[i].specimenId), Joined([], specimens, ms[..i]);
    id in before || !db.rejects(OfMember(MemberRow(sheet, id, |before| + 1)))
  }

  method InsertMembers(db: Database, sheet: Uuid, specimens: IdMap, ms: seq<QrMember>) returns (ok: bool, rows: seq<MemberRow>)
    ensures ok <==> MembersAccepted(db, sheet, specimens, ms)
    ensures ok ==> rows == MemberRows(sheet, Joined([], specimens, ms))
  {
    var list := [];
    rows, ok := [], true;
    for i := 0 to |ms|
      invariant list == Joined([], specimens, ms[..i]) && rows == MemberRows(sheet, list)
      invariant ok && forall j :: 0 <= j < i ==> MemberAccepted(db, sheet, specimens, ms, j)
    {
      var id := Lookup(specimens, ms[i].specimenId);
      assert ms[..i + 1][..i] == ms[..i];
      if id !in list {
        var row := MemberRow(sheet, id, |list| + 1);
        if db.rejects(OfMember(row)) {
          assert !MemberAccepted(db, sheet, specimens, ms, i);
          ok := false;
          return;
        }
        list, rows := list + [id], rows + [row];
      }
    }
    assert ms[..|ms|] == ms;
  }

  // --------------------------------------------------------- the transaction

  function FileBase(a: Archive, base: nat): nat {
    base + |a.collectors|
  }

  function SpecimenBase(a: Archive, base: nat): nat {
    FileBase(a, base) + |a.files|
  }

  function PhotoBase(a: Archive, base: nat): nat {
    SpecimenBase(a, base) + |a.specimens|
  }

  function EntryBase(a: Archive, base: nat): nat {
    PhotoBase(a, base) + |a.photos|
  }

  function SheetId(a: Archive, base: nat): nat {
    EntryBase(a, base) + |a.journal|
  }

  function CollectorMap(a: Archive, base: nat): IdMap {
    IdsFrom(CollectorIds(a), base)
  }

  function FileMap(a: Archive, base: nat): IdMap {
    IdsFrom(FileIds(a), FileBase(a, base))
  }

  function SpecimenMap(a: Archive, base: nat): IdMap {
    IdsFrom(SpecimenIds(a), SpecimenBase(a, base))
  }

  predicate TakesSheet(a: Archive, skip: bool) {
    |a.qrsheets| > 0 && !skip
  }

  function SheetRows(user: Uuid, a: Archive, skip: bool, base: nat): seq<SheetRow> {
    if TakesSheet(a, skip) then [SheetRow(SheetId(a, base), user, a.qrsheets[0].template, a.qrsheets[0].columns)] else []
  }

  function Members(a: Archive, skip: bool, base: nat): seq<Uuid> {
    if TakesSheet(a, skip) then Joined([], SpecimenMap(a, base), StableSort(a.qrsheets[0].specimens)) else []
  }

  /** All rows a committed import creates. */
  function Created(lib: Library, user: Uuid, a: Archive, cat: map<string, Option<string>>, skip: bool, base: nat): Tables {
    Tables(CollectorRows(user, a, base), FileRows(user, a, FileBase(a, base)),
           SpecimenRows(lib, user, a, FileMap(a, base), cat, SpecimenBase(a, base)),
           PhotoRows(a, SpecimenMap(a, base), FileMap(a, base), PhotoBase(a, base)),
           EntryRows(user, a, SpecimenMap(a, base), EntryBase(a, base)),
           AttachmentRows(a, FileMap(a, base), EntryBase(a, base), |a.journal|),
           ChainRows(a, SpecimenMap(a, base), CollectorMap(a, base), |a.specimens|),
           SheetRows(user, a, skip, base), MemberRows(SheetId(a, base), Members(a, skip, base)))
  }

  /** Existing rows stay and the new ones follow them. */
  function Append(before: Tables, more: Tables): Tables {
    Tables(before.collectors + more.collectors, before.files + more.files, before.specimens + more.specimens,
           before.photos + more.photos, before.entries + more.entries, before.attachments + more.attachments,
           before.chains + more.chains, before.sheets + more.sheets, before.members + more.members)
  }

  /** No row of the import is refused, and none violates a unique key with another or with a stored row. */
  ghost predicate Accepted(lib: Library, db: Database, user: Uuid, a: Archive, cat: map<string, Option<string>>, skip: bool, base: nat) {
    && CollectorsAccepted(db, CollectorRows(user, a, base))
    && FilesAccepted(db, FileRows(user, a, FileBase(a, base)))
    && SpecimensAccepted(lib, db, a.specimens, SpecimenRows(lib, user, a, FileMap(a, base), cat, SpecimenBase(a, base)))
    && PhotosAccepted(db, PhotoRows(a, SpecimenMap(a, base), FileMap(a, base), PhotoBase(a, base)))
    && EntriesAccepted(db, EntryRows(user, a, SpecimenMap(a, base), EntryBase(a, base)))
    && AttachmentsAccepted(db, AttachmentRows(a, FileMap(a, base), EntryBase(a, base), |a.journal|))
    && ChainsAccepted(db, ChainRows(a, SpecimenMap(a, base), CollectorMap(a, base), |a.specimens|))
    && (TakesSheet(a, skip) ==> SheetAccepted(db, user, a, skip, base))
  }

  ghost predicate SheetAccepted(db: Database, user: Uuid, a: Archive, skip: bool, base: nat)
    requires TakesSheet(a, skip)
  {
    && !SheetRefused(db)(SheetRows(user, a, skip, base)[0])
    && MembersAccepted(db, SheetId(a, base), SpecimenMap(a, base), StableSort(a.qrsheets[0].specimens))
  }

  // ---------------------------------------------------------------- row ids

  function CollectorRowIds(rows: seq<CollectorRow>): seq<Uuid> {
    seq(|rows|, i requires 0 <= i < |rows| => rows[i].id)
  }

  function FileRowIds(rows: seq<FileRow>): seq<Uuid> {
    seq(|rows|, i requires 0 <= i < |rows| => rows[i].id)
  }

  function SpecimenRowIds(rows: seq<SpecimenRow>): seq<Uuid> {
    seq(|rows|, i requires 0 <= i < |rows| => rows[i].id)
  }

  function PhotoRowIds(rows: seq<PhotoRow>): seq<Uuid> {
    seq(|rows|, i requires 0 <= i < |rows| => rows[i].id)
  }

  function EntryRowIds(rows: seq<EntryRow>): seq<Uuid> {
    seq(|rows|, i requires 0 <= i < |rows| => rows[i].id)
  }

  function SheetRowIds(rows: seq<SheetRow>): seq<Uuid> {
    seq(|rows|, i requires 0 <= i < |rows| => rows[i].id)
  }

  /** The ids of all rows that have one, table by table. */
  function IdsOf(t: Tables): seq<Uuid> {
    CollectorRowIds(t.collectors) + FileRowIds(t.files) + SpecimenRowIds(t.specimens)
    + PhotoRowIds(t.photos) + EntryRowIds(t.entries) + SheetRowIds(t.sheets)
  }

  ghost predicate IdsBelow(t: Tables, n: nat) {
    forall x :: x in IdsOf(t) ==> x < n
  }

  lemma AppendedIds(before: Tables, more: Tables, x: Uuid)
    ensures x in IdsOf(Append(before, more)) <==> x in IdsOf(before) || x in IdsOf(more)
  {
    assert CollectorRowIds(before.collectors + more.collectors) == CollectorRowIds(before.collectors) + CollectorRowIds(more.collectors);
    assert FileRowIds(before.files + more.files) == FileRowIds(before.files) + FileRowIds(more.files);
    assert SpecimenRowIds(before.specimens + more.specimens) == SpecimenRowIds(before.specimens) + SpecimenRowIds(more.specimens);
    assert PhotoRowIds(before.photos + more.photos) == PhotoRowIds(before.photos) + PhotoRowIds(more.photos);
    assert EntryRowIds(before.entries + more.entries) == EntryRowIds(before.entries) + EntryRowIds(more.entries);
    assert SheetRowIds(before.sheets + more.sheets) == SheetRowIds(before.sheets) + SheetRowIds(more.sheets);
  }

  ghost predicate CountUpFrom(ids: seq<Uuid>, base: nat) {
    forall k :: 0 <= k < |ids| ==> ids[k] == base + k
  }

  lemma CountOn(ids: seq<Uuid>, more: seq<Uuid>, base: nat)
    requires CountUpFrom(ids, base) && CountUpFrom(more, base + |ids|)
    ensures CountUpFrom(ids + more, base)
  {}

  /** The ids of one import count up from its first: row k of each table is made from record k. */
  ghost predicate DrawnFrom(a: Archive, t: Tables, base: nat) {
    && |t.collectors| == |a.collectors| && CountUpFrom(CollectorRowIds(t.collectors), base)
    && |t.files| == |a.files| && CountUpFrom(FileRowIds(t.files), FileBase(a, base))
    && |t.specimens| == |a.specimens| && CountUpFrom(SpecimenRowIds(t.specimens), SpecimenBase(a, base))
    && |t.photos| == |a.photos| && CountUpFrom(PhotoRowIds(t.photos), PhotoBase(a, base))
    && |t.entries| == |a.journal| && CountUpFrom(EntryRowIds(t.entries), EntryBase(a, base))
    && |t.sheets| <= 1 && CountUpFrom(SheetRowIds(t.sheets), SheetId(a, base))
  }

  lemma CreatedIdsAreDrawn(lib: Library, user: Uuid, a: Archive, cat: map<string, Option<string>>, skip: bool, base: nat)
    ensures DrawnFrom(a, Created(lib, user, a, cat, skip, base), base)
  {}

  lemma DrawnIdsCountUp(a: Archive, t: Tables, base: nat)
    requires DrawnFrom(a, t, base)
    ensures CountUpFrom(IdsOf(t), base) && base + |IdsOf(t)| <= SheetId(a, base) + 1
  {
    var c, f, s := CollectorRowIds(t.collectors), FileRowIds(t.files), SpecimenRowIds(t.specimens);
    var p, e, q := PhotoRowIds(t.photos), EntryRowIds(t.entries), SheetRowIds(t.sheets);
    CountOn(c, f, base);
    CountOn(c + f, s, base);
    CountOn(c + f + s, p, base);
    CountOn(c + f + s + p, e, base);
    CountOn(c + f + s + p + e, q, base);
  }

  /** No two created rows share an id, whatever their tables. */
  lemma NewIdsNeverRepeat(lib: Library, user: Uuid, a: Archive, cat: map<string, Option<string>>, skip: bool, base: nat, i: nat, j: nat)
    requires i < j < |IdsOf(Created(lib, user, a, cat, skip, base))|
    ensures IdsOf(Created(lib, user, a, cat, skip, base))[i] != IdsOf(Created(lib, user, a, cat, skip, base))[j]
  {
    CreatedIdsAreDrawn(lib, user, a, cat, skip, base);
    DrawnIdsCountUp(a, Created(lib, user, a, cat, skip, base), base);
  }

  /** New ids are drawn from base on, and all are used up by the next import. */
  lemma NewIdsInRange(lib: Library, user: Uuid, a: Archive, cat: map<string, Option<string>>, skip: bool, base: nat, x: Uuid)
    requires x in IdsOf(Created(lib, user, a, cat, skip, base))
    ensures base <= x <= SheetId(a, base)
  {
    CreatedIdsAreDrawn(lib, user, a, cat, skip, base);
    DrawnIdsCountUp(a, Created(lib, user, a, cat, skip, base), base);
  }

  /** No created row has the id of a row that was there before. */
  lemma NewIdsAreFresh(before: Tables, lib: Library, user: Uuid, a: Archive, cat: map<string, Option<string>>, skip: bool, base: nat, x: Uuid)
    requires IdsBelow(before, base) && x in IdsOf(Created(lib, user, a, cat, skip, base))
    ensures x !in IdsOf(before)
  {
    NewIdsInRange(lib, user, a, cat, skip, base, x);
  }

  lemma CommitKeepsBelow(before: Tables, lib: Library, user: Uuid, a: Archive, cat: map<string, Option<string>>, skip: bool, base: nat)
    requires IdsBelow(before, base)
    ensures IdsBelow(Append(before, Created(lib, user, a, cat, skip, base)), SheetId(a, base) + 1)
  {
    var more := Created(lib, user, a, cat, skip, base);
    forall x | x in IdsOf(Append(before, more))
      ensures x < SheetId(a, base) + 1
    {
      AppendedIds(before, more, x);
      if x in IdsOf(more) { NewIdsInRange(lib, user, a, cat, skip, base, x); }
    }
  }

  // ------------------------------------------------------ what the tables keep

  ghost predicate Unique<R(!new)>(rows: seq<R>, clash: (R, R) -> bool) {
    forall i, j :: 0 <= i < j < |rows| ==> !clash(rows[i], rows[j])
  }

  lemma UniqueConcat<R(!new)>(stored: seq<R>, rows: seq<R>, refused: R -> bool, clash: (R, R) -> bool)
    requires Unique(stored, clash) && Inserts(rows, refused, clash)
    requires forall r :: Taken(stored, r, clash) ==> refused(r)
    ensures Unique(stored + rows, clash)
  {
    var all, n := stored + rows, |stored|;
    forall i, j | 0 <= i < j < |all|
      ensures !clash(all[i], all[j])
    {
      if i < n <= j {
        assert !refused(rows[j - n]) && all[i] == stored[i];
        assert !Taken(stored, rows[j - n], clash);
      }
    }
  }

  ghost predicate UniqueKeys(t: Tables) {
    Unique(t.collectors, SameName) && Unique(t.specimens, SameNumber) && Unique(t.sheets, SameUser)
  }

  /** Attachments and links belong to entries and specimens drawn before. */
  ghost predicate OwnersBelow(t: Tables, n: nat) {
    (forall r :: r in t.attachments ==> r.entry < n) && (forall r :: r in t.chains ==> r.specimen < n)
  }

  ghost predicate Consistent(t: Tables, nextId: nat) {
    IdsBelow(t, nextId) && OwnersBelow(t, nextId) && UniqueKeys(t)
  }

  lemma SheetStaysUnique(db: Database, user: Uuid, a: Archive, skip: bool, base: nat)
    requires Unique(db.stored.sheets, SameUser) && (TakesSheet(a, skip) ==> SheetAccepted(db, user, a, skip, base))
    ensures Unique(db.stored.sheets + SheetRows(user, a, skip, base), SameUser)
  {
    UniqueConcat(db.stored.sheets, SheetRows(user, a, skip, base), SheetRefused(db), SameUser);
  }

  lemma KeysStayUnique(lib: Library, db: Database, user: Uuid, a: Archive, cat: map<string, Option<string>>, skip: bool, base: nat)
    requires UniqueKeys(db.stored) && Accepted(lib, db, user, a, cat, skip, base)
    ensures UniqueKeys(Append(db.stored, Created(lib, user, a, cat, skip, base)))
  {
    UniqueConcat(db.stored.collectors, CollectorRows(user, a, base), CollectorRefused(db), SameName);
    UniqueConcat(db.stored.specimens, SpecimenRows(lib, user, a, FileMap(a, base), cat, SpecimenBase(a, base)), SpecimenRefused(db), SameNumber);
    SheetStaysUnique(db, user, a, skip, base);
  }

  lemma {:induction false} AttachmentOwners(a: Archive, files: IdMap, base: nat, n: nat, r: AttachmentRow)
    requires n <= |a.journal| && r in AttachmentRows(a, files, base, n)
    ensures base <= r.entry < base + n
    decreases n
  {
    if r !in AttachmentCopies(files, base + n - 1, a.journal[n - 1]) { AttachmentOwners(a, files, base, n - 1, r); }
  }

  lemma {:induction false} IdsFromBounded(ids: seq<string>, base: nat, k: string)
    ensures Lookup(IdsFrom(ids, base), k) < base + |ids| || Lookup(IdsFrom(ids, base), k) == NIL_ID
    decreases |ids|
  {
    if ids != [] { IdsFromBounded(ids[..|ids| - 1], base, k); }
  }

  lemma {:induction false} LinkOwners(a: Archive, base: nat, collectors: IdMap, n: nat, r: ChainRow)
    requires n <= |a.specimens| && r in ChainRows(a, SpecimenMap(a, base), collectors, n)
    ensures r.specimen <= SheetId(a, base)
    decreases n
  {
    if r in ChainCopies(SpecimenMap(a, base), collectors, a.specimens[n - 1]) {
      IdsFromBounded(SpecimenIds(a), SpecimenBase(a, base), a.specimens[n - 1].id);
    } else {
      LinkOwners(a, base, collectors, n - 1, r);
    }
  }

  lemma OwnersStayBelow(before: Tables, lib: Library, user: Uuid, a: Archive, cat: map<string, Option<string>>, skip: bool, base: nat)
    requires OwnersBelow(before, base)
    ensures OwnersBelow(Append(before, Created(lib, user, a, cat, skip, base)), SheetId(a, base) + 1)
  {
    var more := Created(lib, user, a, cat, skip, base);
    forall r | r in before.attachments + more.attachments
      ensures r.entry < SheetId(a, base) + 1
    {
      if r in more.attachments { AttachmentOwners(a, FileMap(a, base), EntryBase(a, base), |a.journal|, r); }
    }
    forall r | r in before.chains + more.chains
      ensures r.specimen < SheetId(a, base) + 1
    {
      if r in more.chains { LinkOwners(a, base, CollectorMap(a, base), |a.specimens|, r); }
    }
  }

  lemma CommitKeepsConsistent(lib: Library, db: Database, user: Uuid, a: Archive, cat: map<string, Option<string>>, skip: bool, base: nat)
    requires Consistent(db.stored, base)
    ensures Consistent(db.stored, SheetId(a, base) + 1)
    ensures Accepted(lib, db, user, a, cat, skip, base) ==>
              Consistent(Append(db.stored, Created(lib, user, a, cat, skip, base)), SheetId(a, base) + 1)
  {
    if Accepted(lib, db, user, a, cat, skip, base) {
      CommitKeepsBelow(db.stored, lib, user, a, cat, skip, base);
      OwnersStayBelow(db.stored, lib, user, a, cat, skip, base);
      KeysStayUnique(lib, db, user, a, cat, skip, base);
    }
  }

  /** The seven phases of the transaction, up to the first failure. */
  method InsertAll(lib: Library, db: Database, user: Uuid, a: Archive, cat: map<string, Option<string>>, skip: bool, base: nat)
    returns (ok: bool, rows: Tables)
    ensures ok <==> Accepted(lib, db, user, a, cat, skip, base)
    ensures ok ==> rows == Created(lib, user, a, cat, skip, base)
  {
    rows := Tables([], [], [], [], [], [], [], [], []);
    var collectors, files, specimens, photos, entries, attachments, chains;
    var collectorMap, fileMap, specimenMap;
    ok, collectors, collectorMap := InsertCollectors(db, user, a, base);
    if !ok { return; }
    ok, files, fileMap := InsertFiles(db, user, a, FileBase(a, base));
    if !ok { return; }
    ok, specimens, specimenMap := InsertSpecimens(lib, db, user, a, fileMap, cat, SpecimenBase(a, base));
    if !ok { return; }
    ok, photos := InsertPhotos(db, a, specimenMap, fileMap, PhotoBase(a, base));
    if !ok { return; }
    ok, entries, attachments := InsertJournal(db, user, a, specimenMap, fileMap, EntryBase(a, base));
    if !ok { return; }
    ok, chains := InsertChains(db, a, specimenMap, collectorMap);
    if !ok { return; }
    var sheets, members := [], [];
    if TakesSheet(a, skip) {
      var q := a.qrsheets[0];
      var row := SheetRow(SheetId(a, base), user, q.template, q.columns);
      if SheetRefused(db)(row) { ok := false; return; }
      sheets := [row];
      ok, members := InsertMembers(db, row.id, specimenMap, StableSort(q.specimens));
      if !ok { return; }
    }
    rows := Tables(collectors, files, specimens, photos, entries, attachments, chains, sheets, members);
  }

  class Importer {
    var tables: Tables
    var nextId: nat

    /** Ids in use were drawn before, and every unique key holds. */
    ghost predicate Valid()
      reads this
    {
      Consistent(tables, nextId)
    }

    constructor (initial: Tables, nextId: nat)
      requires Consistent(initial, nextId)
      ensures Valid() && tables == initial && this.nextId == nextId
    {
      tables, this.nextId := initial, nextId;
    }

    /** One transaction: every row is created, or nothing is written. */
    method Commit(lib: Library, rejects: Row -> bool, user: Uuid, a: Archive, cat: map<string, Option<string>>, skip: bool)
      returns (ok: bool)
      requires Valid()
      modifies this
      ensures Valid()
      ensures ok <==> Accepted(lib, Database(old(tables), rejects), user, a, cat, skip, old(nextId))
      ensures ok ==> tables == Append(old(tables), Created(lib, user, a, cat, skip, old(nextId)))
      ensures !ok ==> tables == old(tables)
      ensures nextId > SheetId(a, old(nextId))
    {
      var base, db := nextId, Database(tables, rejects);
      nextId := SheetId(a, base) + 1;
      CommitKeepsConsistent(lib, db, user, a, cat, skip, base);
      var rows;
      ok, rows := InsertAll(lib, db, user, a, cat, skip, base);
      if !ok { return; }
      tables := Append(tables, rows);
    }
  }
}
