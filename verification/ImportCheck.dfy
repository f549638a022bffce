/** Records of a portable archive (internal/portability/format.go). */
module ArchiveFormat {
  import opened Options
  import QrLayout

  /** `columns` stands for the fields that are copied without being looked at. */
  datatype CollectorRecord = CollectorRecord(id: string, name: string, columns: string)
  datatype FileRecord = FileRecord(id: string, columns: string)
  datatype SpecimenRecord = SpecimenRecord(
    id: string, typ: string, catalogNumber: Option<string>, visibility: string,
    visibilityPrice: Option<string>, visibilityAcquiredFrom: Option<string>, visibilityImages: Option<string>,
    typeData: string, mainImageFileId: Option<string>, collectorIds: seq<string>, columns: string)
  datatype PhotoRecord = PhotoRecord(
    id: string, specimenId: string, fileId: string, kind: string, visibility: Option<string>, columns: string)
  datatype Attachment = Attachment(fileId: string, columns: string)
  datatype JournalRecord = JournalRecord(id: string, specimenId: string, attachments: seq<Attachment>, columns: string)
  datatype QrMember = QrMember(specimenId: string, position: int)
  datatype QrSheetRecord = QrSheetRecord(id: string, template: string, specimens: seq<QrMember>, columns: string)

  datatype Archive = Archive(
    collectors: seq<CollectorRecord>, files: seq<FileRecord>, specimens: seq<SpecimenRecord>,
    photos: seq<PhotoRecord>, journal: seq<JournalRecord>, qrsheets: seq<QrSheetRecord>)

  /** uuid.Parse, strings.TrimSpace(s) == "", and validateTypeData with its canonical JSON. */
  datatype Library = Library(validUuid: string -> bool, blank: string -> bool,
                             typeData: (string, string) -> Option<string>)
  {
    /** A text with something in it keeps it when it is lengthened. */
    ghost predicate Lawful() {
      forall s: string, t: string :: !blank(s) ==> !blank(s + t)
    }
  }

  predicate ValidVisibility(v: string) {
    v in {"private", "unlisted", "public"}
  }

  predicate ValidType(t: string) {
    t in {"mineral", "rock", "meteorite", "fossil"}
  }

  predicate ValidKind(k: string) {
    k in {"visible", "uv_sw", "uv_mw", "uv_lw", "other"}
  }

  predicate KnownTemplate(t: string) {
    QrLayout.TemplateCapacity(t).Some?
  }

  predicate OptionalVisibility(v: Option<string>) {
    v.Some? ==> ValidVisibility(v.value)
  }

  function CollectorIds(a: Archive): seq<string> {
    seq(|a.collectors|, i requires 0 <= i < |a.collectors| => a.collectors[i].id)
  }

  function FileIds(a: Archive): seq<string> {
    seq(|a.files|, i requires 0 <= i < |a.files| => a.files[i].id)
  }

  function SpecimenIds(a: Archive): seq<string> {
    seq(|a.specimens|, i requires 0 <= i < |a.specimens| => a.specimens[i].id)
  }

  function PhotoIds(a: Archive): seq<string> {
    seq(|a.photos|, i requires 0 <= i < |a.photos| => a.photos[i].id)
  }

  function EntryIds(a: Archive): seq<string> {
    seq(|a.journal|, i requires 0 <= i < |a.journal| => a.journal[i].id)
  }

  predicate Distinct(ids: seq<string>) {
    forall i, j :: 0 <= i < j < |ids| ==> ids[i] != ids[j]
  }
}

/** Structural validation of an archive (checkStructure and detailSet of internal/portability/import.go). */
module ImportCheck {
  import opened Options
  import opened ArchiveFormat

  // -------------------------------------------- what makes an archive importable

  ghost predicate ValidIds(lib: Library, ids: seq<string>) {
    (forall i :: 0 <= i < |ids| ==> lib.validUuid(ids[i])) && Distinct(ids)
  }

  predicate SpecimenValid(lib: Library, s: SpecimenRecord) {
    && ValidType(s.typ) && ValidVisibility(s.visibility)
    && OptionalVisibility(s.visibilityPrice) && OptionalVisibility(s.visibilityAcquiredFrom)
    && OptionalVisibility(s.visibilityImages)
    && lib.typeData(s.typ, s.typeData).Some?
  }

  predicate PhotoValid(p: PhotoRecord) {
    (p.kind == "" || ValidKind(p.kind)) && OptionalVisibility(p.visibility)
  }

  predicate SheetValid(lib: Library, q: QrSheetRecord) {
    lib.validUuid(q.id) && KnownTemplate(q.template)
  }

  ghost predicate RecordsValid(lib: Library, a: Archive) {
    && ValidIds(lib, CollectorIds(a)) && (forall i :: 0 <= i < |a.collectors| ==> !lib.blank(a.collectors[i].name))
    && ValidIds(lib, FileIds(a))
    && ValidIds(lib, SpecimenIds(a)) && (forall i :: 0 <= i < |a.specimens| ==> SpecimenValid(lib, a.specimens[i]))
    && ValidIds(lib, PhotoIds(a))
    && (forall i :: 0 <= i < |a.photos| ==> PhotoValid(a.photos[i]))
    && ValidIds(lib, EntryIds(a))
    && |a.qrsheets| <= 1
    && (forall i :: 0 <= i < |a.qrsheets| ==> SheetValid(lib, a.qrsheets[i]))
  }

  ghost predicate SpecimenRefs(a: Archive, s: SpecimenRecord) {
    && (s.mainImageFileId.Some? ==> s.mainImageFileId.value in FileIds(a))
    && forall j :: 0 <= j < |s.collectorIds| ==> s.collectorIds[j] in CollectorIds(a)
  }

  ghost predicate EntryRefs(a: Archive, e: JournalRecord) {
    e.specimenId in SpecimenIds(a) && forall j :: 0 <= j < |e.attachments| ==> e.attachments[j].fileId in FileIds(a)
  }

  ghost predicate PhotoRefs(a: Archive, p: PhotoRecord) {
    p.specimenId in SpecimenIds(a) && p.fileId in FileIds(a)
  }

  ghost predicate SheetRefs(a: Archive, q: QrSheetRecord) {
    forall j :: 0 <= j < |q.specimens| ==> q.specimens[j].specimenId in SpecimenIds(a)
  }

  ghost predicate ReferencesResolve(a: Archive) {
    && (forall i :: 0 <= i < |a.specimens| ==> SpecimenRefs(a, a.specimens[i]))
    && (forall i :: 0 <= i < |a.photos| ==> PhotoRefs(a, a.photos[i]))
    && (forall i :: 0 <= i < |a.journal| ==> EntryRefs(a, a.journal[i]))
    && (forall i :: 0 <= i < |a.qrsheets| ==> SheetRefs(a, a.qrsheets[i]))
  }

  // ------------------------------------------------------------ problem lists

  datatype Problem = Problem(what: string, record: string, value: string)

  function Unless(ok: bool, p: Problem): seq<Problem> {
    if ok then [] else [p]
  }

  /** f(0) + f(1) + ... + f(n - 1). */
  function Gather(n: nat, f: nat -> seq<Problem>): seq<Problem> {
    if n == 0 then [] else Gather(n - 1, f) + f(n - 1)
  }

  lemma {:induction false} GatherEmpty(n: nat, f: nat -> seq<Problem>)
    ensures Gather(n, f) == [] <==> forall i :: 0 <= i < n ==> f(i) == []
  {
    if n > 0 { GatherEmpty(n - 1, f); }
  }

  /** The ids a loop has recorded so far: the valid ones. */
  function Recorded(lib: Library, ids: seq<string>): set<string> {
    set i | 0 <= i < |ids| && lib.validUuid(ids[i]) :: ids[i]
  }

  function IdProblems(lib: Library, kind: string, seen: set<string>, id: string): seq<Problem> {
    if !lib.validUuid(id) then [Problem(kind + " id is not a UUID", id, "")]
    else Unless(id !in seen, Problem("duplicate " + kind + " id", id, ""))
  }

  function CollectorProblems(lib: Library, seen: set<string>, c: CollectorRecord): seq<Problem> {
    IdProblems(lib, "collector", seen, c.id)
    + Unless(!lib.validUuid(c.id) || !lib.blank(c.name), Problem("collector has an empty name", c.id, ""))
  }

  function SpecimenProblems(lib: Library, seen: set<string>, s: SpecimenRecord): seq<Problem> {
    IdProblems(lib, "specimen", seen, s.id) + if !lib.validUuid(s.id) then [] else SpecimenFieldProblems(lib, s)
  }

  function SpecimenFieldProblems(lib: Library, s: SpecimenRecord): seq<Problem> {
    Unless(ValidType(s.typ), Problem("specimen has invalid type", s.id, s.typ))
    + Unless(ValidVisibility(s.visibility), Problem("specimen has invalid visibility", s.id, s.visibility))
    + Unless(OptionalVisibility(s.visibilityPrice), Problem("specimen has invalid visibility_price", s.id, ""))
    + Unless(OptionalVisibility(s.visibilityAcquiredFrom), Problem("specimen has invalid visibility_acquired_from", s.id, ""))
    + Unless(OptionalVisibility(s.visibilityImages), Problem("specimen has invalid visibility_images", s.id, ""))
    + Unless(!ValidType(s.typ) || lib.typeData(s.typ, s.typeData).Some?, Problem("specimen type_data invalid", s.id, ""))
  }

  function PhotoProblems(lib: Library, seen: set<string>, p: PhotoRecord): seq<Problem> {
    IdProblems(lib, "photo", seen, p.id) + if !lib.validUuid(p.id) then [] else
      Unless(p.kind == "" || ValidKind(p.kind), Problem("photo has invalid kind", p.id, p.kind))
      + Unless(OptionalVisibility(p.visibility), Problem("photo has invalid visibility", p.id, ""))
  }

  function SheetProblems(lib: Library, q: QrSheetRecord): seq<Problem> {
    Unless(lib.validUuid(q.id), Problem("qr sheet id is not a UUID", q.id, ""))
    + Unless(KnownTemplate(q.template), Problem("qr sheet has unknown template", q.id, q.template))
  }

  function SheetCount(a: Archive): seq<Problem> {
    Unless(|a.qrsheets| <= 1, Problem("at most one QR sheet is allowed", "", ""))
  }

  // Broken references; a record with an invalid id is skipped.

  function MissingCollectors(known: set<string>, s: SpecimenRecord): nat -> seq<Problem> {
    (j: nat) => if j < |s.collectorIds|
         then Unless(s.collectorIds[j] in known, Problem("specimen references unknown collector", s.id, s.collectorIds[j]))
         else []
  }

  function SpecimenBroken(lib: Library, files: set<string>, collectors: set<string>, s: SpecimenRecord): seq<Problem> {
    if !lib.validUuid(s.id) then [] else
      Unless(s.mainImageFileId.Some? ==> s.mainImageFileId.value in files,
             Problem("specimen main_image_file_id not in archive", s.id, ""))
      + Gather(|s.collectorIds|, MissingCollectors(collectors, s))
  }

  function PhotoBroken(lib: Library, specimens: set<string>, files: set<string>, p: PhotoRecord): seq<Problem> {
    if !lib.validUuid(p.id) then [] else
      Unless(p.specimenId in specimens, Problem("photo references unknown specimen", p.id, p.specimenId))
      + Unless(p.fileId in files, Problem("photo references unknown file", p.id, p.fileId))
  }

  function MissingFiles(files: set<string>, e: JournalRecord): nat -> seq<Problem> {
    (j: nat) => if j < |e.attachments|
         then Unless(e.attachments[j].fileId in files, Problem("journal entry references unknown file", e.id, e.attachments[j].fileId))
         else []
  }

  function EntryBroken(lib: Library, specimens: set<string>, files: set<string>, e: JournalRecord): seq<Problem> {
    if !lib.validUuid(e.id) then [] else
      Unless(e.specimenId in specimens, Problem("journal entry references unknown specimen", e.id, e.specimenId))
      + Gather(|e.attachments|, MissingFiles(files, e))
  }

  function SheetBroken(specimens: set<string>, q: QrSheetRecord): nat -> seq<Problem> {
    (j: nat) => if j < |q.specimens|
         then Unless(q.specimens[j].specimenId in specimens, Problem("qr sheet references unknown specimen", q.id, q.specimens[j].specimenId))
         else []
  }

  // The same, indexed by record.

  /** What a check makes of record i, given the ids recorded before it. */
  type IdCheck = (set<string>, nat) -> seq<Problem>

  function At(lib: Library, ids: seq<string>, check: IdCheck): nat -> seq<Problem> {
    (i: nat) => if i < |ids| then check(Recorded(lib, ids[..i]), i) else []
  }

  function CollectorCheck(lib: Library, a: Archive): IdCheck {
    (seen: set<string>, i: nat) => if i < |a.collectors| then CollectorProblems(lib, seen, a.collectors[i]) else []
  }

  function IdOnlyCheck(lib: Library, kind: string, ids: seq<string>): IdCheck {
    (seen: set<string>, i: nat) => if i < |ids| then IdProblems(lib, kind, seen, ids[i]) else []
  }

  function SpecimenCheck(lib: Library, a: Archive): IdCheck {
    (seen: set<string>, i: nat) => if i < |a.specimens| then SpecimenProblems(lib, seen, a.specimens[i]) else []
  }

  function PhotoCheck(lib: Library, a: Archive): IdCheck {
    (seen: set<string>, i: nat) => if i < |a.photos| then PhotoProblems(lib, seen, a.photos[i]) else []
  }

  function CollectorsAt(lib: Library, a: Archive): nat -> seq<Problem> {
    At(lib, CollectorIds(a), CollectorCheck(lib, a))
  }

  function FilesAt(lib: Library, a: Archive): nat -> seq<Problem> {
    At(lib, FileIds(a), IdOnlyCheck(lib, "file", FileIds(a)))
  }

  function SpecimensAt(lib: Library, a: Archive): nat -> seq<Problem> {
    At(lib, SpecimenIds(a), SpecimenCheck(lib, a))
  }

  function PhotosAt(lib: Library, a: Archive): nat -> seq<Problem> {
    At(lib, PhotoIds(a), PhotoCheck(lib, a))
  }

  function EntriesAt(lib: Library, a: Archive): nat -> seq<Problem> {
    At(lib, EntryIds(a), IdOnlyCheck(lib, "journal entry", EntryIds(a)))
  }

  /** The record types without outgoing references. */
  function NoneBroken(): nat -> seq<Problem> {
    (i: nat) => []
  }

  function SheetsAt(lib: Library, a: Archive): nat -> seq<Problem> {
    (i: nat) => if i < |a.qrsheets| then SheetProblems(lib, a.qrsheets[i]) else []
  }

  function BrokenSpecimens(lib: Library, files: set<string>, collectors: set<string>, a: Archive): nat -> seq<Problem> {
    (i: nat) => if i < |a.specimens| then SpecimenBroken(lib, files, collectors, a.specimens[i]) else []
  }

  function BrokenPhotos(lib: Library, specimens: set<string>, files: set<string>, a: Archive): nat -> seq<Problem> {
    (i: nat) => if i < |a.photos| then PhotoBroken(lib, specimens, files, a.photos[i]) else []
  }

  function BrokenEntries(lib: Library, specimens: set<string>, files: set<string>, a: Archive): nat -> seq<Problem> {
    (i: nat) => if i < |a.journal| then EntryBroken(lib, specimens, files, a.journal[i]) else []
  }

  function BrokenSheets(specimens: set<string>, a: Archive): nat -> seq<Problem> {
    (i: nat) => if i < |a.qrsheets| then Gather(|a.qrsheets[i].specimens|, SheetBroken(specimens, a.qrsheets[i])) else []
  }

  function BrokenSpecimensAt(lib: Library, a: Archive): nat -> seq<Problem> {
    BrokenSpecimens(lib, Recorded(lib, FileIds(a)), Recorded(lib, CollectorIds(a)), a)
  }

  function BrokenPhotosAt(lib: Library, a: Archive): nat -> seq<Problem> {
    BrokenPhotos(lib, Recorded(lib, SpecimenIds(a)), Recorded(lib, FileIds(a)), a)
  }

  function BrokenEntriesAt(lib: Library, a: Archive): nat -> seq<Problem> {
    BrokenEntries(lib, Recorded(lib, SpecimenIds(a)), Recorded(lib, FileIds(a)), a)
  }

  function BrokenSheetsAt(lib: Library, a: Archive): nat -> seq<Problem> {
    BrokenSheets(Recorded(lib, SpecimenIds(a)), a)
  }

  /** Everything filed under "invalid records", in the order it is found. */
  function InvalidRecords(lib: Library, a: Archive): seq<Problem> {
    Gather(|a.collectors|, CollectorsAt(lib, a)) + Gather(|a.files|, FilesAt(lib, a))
    + Gather(|a.specimens|, SpecimensAt(lib, a)) + Gather(|a.photos|, PhotosAt(lib, a))
    + Gather(|a.journal|, EntriesAt(lib, a))
    + SheetCount(a)
    + Gather(|a.qrsheets|, SheetsAt(lib, a))
  }

  /** Everything filed under "broken cross-references". */
  function BrokenReferences(lib: Library, a: Archive): seq<Problem> {
    Gather(|a.specimens|, BrokenSpecimensAt(lib, a)) + Gather(|a.photos|, BrokenPhotosAt(lib, a))
    + Gather(|a.journal|, BrokenEntriesAt(lib, a)) + Gather(|a.qrsheets|, BrokenSheetsAt(lib, a))
  }

  // ------------------------------------- empty lists mean a well-formed archive

  lemma IdsUnproblematic(lib: Library, kind: string, ids: seq<string>)
    ensures (forall i :: 0 <= i < |ids| ==> IdProblems(lib, kind, Recorded(lib, ids[..i]), ids[i]) == [])
            <==> ValidIds(lib, ids)
  {
    if forall i :: 0 <= i < |ids| ==> IdProblems(lib, kind, Recorded(lib, ids[..i]), ids[i]) == [] {
      forall i | 0 <= i < |ids|
        ensures lib.validUuid(ids[i]) && ids[i] !in Recorded(lib, ids[..i])
      {
        assert IdProblems(lib, kind, Recorded(lib, ids[..i]), ids[i]) == [];
      }
      forall i, j | 0 <= i < j < |ids|
        ensures ids[i] != ids[j]
      {
        assert ids[..j][i] in Recorded(lib, ids[..j]);
      }
    }
  }

  lemma RecordedAll(lib: Library, ids: seq<string>)
    requires ValidIds(lib, ids)
    ensures forall id :: id in Recorded(lib, ids) <==> id in ids
  {}

  /** A check that looks at the id and, beyond it, at `good`. */
  ghost predicate Checks(lib: Library, kind: string, ids: seq<string>, check: IdCheck, good: nat -> bool) {
    forall seen, i :: 0 <= i < |ids| ==>
      (check(seen, i) == [] <==> IdProblems(lib, kind, seen, ids[i]) == [] && good(i))
  }

  lemma ScanClean(lib: Library, kind: string, ids: seq<string>, check: IdCheck, good: nat -> bool)
    requires Checks(lib, kind, ids, check, good)
    ensures Gather(|ids|, At(lib, ids, check)) == [] <==> ValidIds(lib, ids) && forall i :: 0 <= i < |ids| ==> good(i)
  {
    var f := At(lib, ids, check);
    GatherEmpty(|ids|, f);
    IdsUnproblematic(lib, kind, ids);
    forall i | 0 <= i < |ids|
      ensures f(i) == [] <==> IdProblems(lib, kind, Recorded(lib, ids[..i]), ids[i]) == [] && good(i)
    {}
  }

  lemma CollectorsClean(lib: Library, a: Archive)
    ensures Gather(|a.collectors|, CollectorsAt(lib, a)) == [] <==>
            ValidIds(lib, CollectorIds(a)) && forall i :: 0 <= i < |a.collectors| ==> !lib.blank(a.collectors[i].name)
  {
    var good := (i: nat) => i < |a.collectors| && !lib.blank(a.collectors[i].name);
    assert Checks(lib, "collector", CollectorIds(a), CollectorCheck(lib, a), good);
    ScanClean(lib, "collector", CollectorIds(a), CollectorCheck(lib, a), good);
    assert forall i :: 0 <= i < |a.collectors| ==> good(i) == !lib.blank(a.collectors[i].name);
  }

  lemma IdsClean(lib: Library, kind: string, ids: seq<string>)
    ensures Gather(|ids|, At(lib, ids, IdOnlyCheck(lib, kind, ids))) == [] <==> ValidIds(lib, ids)
  {
    ScanClean(lib, kind, ids, IdOnlyCheck(lib, kind, ids), (i: nat) => true);
  }

  lemma SpecimenClean(lib: Library, seen: set<string>, s: SpecimenRecord)
    ensures SpecimenProblems(lib, seen, s) == [] <==> IdProblems(lib, "specimen", seen, s.id) == [] && SpecimenValid(lib, s)
  {}

  lemma SpecimensClean(lib: Library, a: Archive)
    ensures Gather(|a.specimens|, SpecimensAt(lib, a)) == [] <==>
            ValidIds(lib, SpecimenIds(a)) && forall i :: 0 <= i < |a.specimens| ==> SpecimenValid(lib, a.specimens[i])
  {
    var good := (i: nat) => i < |a.specimens| && SpecimenValid(lib, a.specimens[i]);
    assert Checks(lib, "specimen", SpecimenIds(a), SpecimenCheck(lib, a), good) by {
      forall seen: set<string>, i: nat | i < |a.specimens|
        ensures SpecimenCheck(lib, a)(seen, i) == [] <==>
                IdProblems(lib, "specimen", seen, SpecimenIds(a)[i]) == [] && good(i)
      {
        SpecimenClean(lib, seen, a.specimens[i]);
      }
    }
    ScanClean(lib, "specimen", SpecimenIds(a), SpecimenCheck(lib, a), good);
    assert forall i :: 0 <= i < |a.specimens| ==> good(i) == SpecimenValid(lib, a.specimens[i]);
  }

  lemma PhotosClean(lib: Library, a: Archive)
    ensures Gather(|a.photos|, PhotosAt(lib, a)) == [] <==>
            ValidIds(lib, PhotoIds(a)) && forall i :: 0 <= i < |a.photos| ==> PhotoValid(a.photos[i])
  {
    var good := (i: nat) => i < |a.photos| && PhotoValid(a.photos[i]);
    assert Checks(lib, "photo", PhotoIds(a), PhotoCheck(lib, a), good);
    ScanClean(lib, "photo", PhotoIds(a), PhotoCheck(lib, a), good);
    assert forall i :: 0 <= i < |a.photos| ==> good(i) == PhotoValid(a.photos[i]);
  }

  lemma SheetsClean(lib: Library, a: Archive)
    ensures Gather(|a.qrsheets|, SheetsAt(lib, a)) == [] <==>
            forall i :: 0 <= i < |a.qrsheets| ==> SheetValid(lib, a.qrsheets[i])
  {
    GatherEmpty(|a.qrsheets|, SheetsAt(lib, a));
    forall i | 0 <= i < |a.qrsheets|
      ensures SheetsAt(lib, a)(i) == [] <==> SheetValid(lib, a.qrsheets[i])
    {}
  }

  lemma InvalidRecordsEmptyIff(lib: Library, a: Archive)
    ensures InvalidRecords(lib, a) == [] <==> RecordsValid(lib, a)
  {
    CollectorsClean(lib, a);
    IdsClean(lib, "file", FileIds(a));
    SpecimensClean(lib, a);
    PhotosClean(lib, a);
    IdsClean(lib, "journal entry", EntryIds(a));
    SheetsClean(lib, a);
  }

  lemma LinksClean(known: set<string>, s: SpecimenRecord)
    ensures Gather(|s.collectorIds|, MissingCollectors(known, s)) == [] <==>
            forall j :: 0 <= j < |s.collectorIds| ==> s.collectorIds[j] in known
  {
    GatherEmpty(|s.collectorIds|, MissingCollectors(known, s));
    forall j | 0 <= j < |s.collectorIds|
      ensures MissingCollectors(known, s)(j) == [] <==> s.collectorIds[j] in known
    {}
  }

  lemma SpecimenRefsClean(lib: Library, a: Archive, i: nat)
    requires RecordsValid(lib, a) && i < |a.specimens|
    ensures BrokenSpecimensAt(lib, a)(i) == [] <==> SpecimenRefs(a, a.specimens[i])
  {
    RecordedAll(lib, FileIds(a));
    RecordedAll(lib, CollectorIds(a));
    LinksClean(Recorded(lib, CollectorIds(a)), a.specimens[i]);
    assert lib.validUuid(SpecimenIds(a)[i]);
  }

  lemma EntryRefsClean(lib: Library, a: Archive, i: nat)
    requires RecordsValid(lib, a) && i < |a.journal|
    ensures BrokenEntriesAt(lib, a)(i) == [] <==> EntryRefs(a, a.journal[i])
  {
    var e, known := a.journal[i], Recorded(lib, FileIds(a));
    RecordedAll(lib, FileIds(a));
    RecordedAll(lib, SpecimenIds(a));
    GatherEmpty(|e.attachments|, MissingFiles(known, e));
    assert lib.validUuid(EntryIds(a)[i]);
    forall j | 0 <= j < |e.attachments|
      ensures MissingFiles(known, e)(j) == [] <==> e.attachments[j].fileId in FileIds(a)
    {}
  }

  lemma SheetRefsClean(lib: Library, a: Archive, i: nat)
    requires RecordsValid(lib, a) && i < |a.qrsheets|
    ensures BrokenSheetsAt(lib, a)(i) == [] <==> SheetRefs(a, a.qrsheets[i])
  {
    var q, known := a.qrsheets[i], Recorded(lib, SpecimenIds(a));
    RecordedAll(lib, SpecimenIds(a));
    GatherEmpty(|q.specimens|, SheetBroken(known, q));
    forall j | 0 <= j < |q.specimens|
      ensures SheetBroken(known, q)(j) == [] <==> q.specimens[j].specimenId in SpecimenIds(a)
    {}
  }

  lemma PhotoRefsClean(lib: Library, a: Archive, i: nat)
    requires RecordsValid(lib, a) && i < |a.photos|
    ensures BrokenPhotosAt(lib, a)(i) == [] <==> PhotoRefs(a, a.photos[i])
  {
    RecordedAll(lib, SpecimenIds(a));
    RecordedAll(lib, FileIds(a));
    assert lib.validUuid(PhotoIds(a)[i]);
  }

  lemma AllSpecimenRefs(lib: Library, a: Archive)
    requires RecordsValid(lib, a)
    ensures Gather(|a.specimens|, BrokenSpecimensAt(lib, a)) == [] <==> forall i :: 0 <= i < |a.specimens| ==> SpecimenRefs(a, a.specimens[i])
  {
    GatherEmpty(|a.specimens|, BrokenSpecimensAt(lib, a));
    forall i | 0 <= i < |a.specimens|
      ensures BrokenSpecimensAt(lib, a)(i) == [] <==> SpecimenRefs(a, a.specimens[i])
    {
      SpecimenRefsClean(lib, a, i);
    }
  }

  lemma AllPhotoRefs(lib: Library, a: Archive)
    requires RecordsValid(lib, a)
    ensures Gather(|a.photos|, BrokenPhotosAt(lib, a)) == [] <==> forall i :: 0 <= i < |a.photos| ==> PhotoRefs(a, a.photos[i])
  {
    GatherEmpty(|a.photos|, BrokenPhotosAt(lib, a));
    forall i | 0 <= i < |a.photos|
      ensures BrokenPhotosAt(lib, a)(i) == [] <==> PhotoRefs(a, a.photos[i])
    {
      PhotoRefsClean(lib, a, i);
    }
  }

  lemma AllEntryRefs(lib: Library, a: Archive)
    requires RecordsValid(lib, a)
    ensures Gather(|a.journal|, BrokenEntriesAt(lib, a)) == [] <==> forall i :: 0 <= i < |a.journal| ==> EntryRefs(a, a.journal[i])
  {
    GatherEmpty(|a.journal|, BrokenEntriesAt(lib, a));
    forall i | 0 <= i < |a.journal|
      ensures BrokenEntriesAt(lib, a)(i) == [] <==> EntryRefs(a, a.journal[i])
    {
      EntryRefsClean(lib, a, i);
    }
  }

  lemma AllSheetRefs(lib: Library, a: Archive)
    requires RecordsValid(lib, a)
    ensures Gather(|a.qrsheets|, BrokenSheetsAt(lib, a)) == [] <==> forall i :: 0 <= i < |a.qrsheets| ==> SheetRefs(a, a.qrsheets[i])
  {
    GatherEmpty(|a.qrsheets|, BrokenSheetsAt(lib, a));
    forall i | 0 <= i < |a.qrsheets|
      ensures BrokenSheetsAt(lib, a)(i) == [] <==> SheetRefs(a, a.qrsheets[i])
    {
      SheetRefsClean(lib, a, i);
    }
  }

  lemma BrokenReferencesEmptyIff(lib: Library, a: Archive)
    requires RecordsValid(lib, a)
    ensures BrokenReferences(lib, a) == [] <==> ReferencesResolve(a)
  {
    AllSpecimenRefs(lib, a);
    AllPhotoRefs(lib, a);
    AllEntryRefs(lib, a);
    AllSheetRefs(lib, a);
  }

  // ------------------------------- every problem names a record that has a fault

  lemma {:induction false} GatherFrom(n: nat, f: nat -> seq<Problem>, p: Problem) returns (i: nat)
    requires p in Gather(n, f)
    ensures i < n && p in f(i)
  {
    if p in f(n - 1) { i := n - 1; } else { i := GatherFrom(n - 1, f, p); }
  }

  /** Record i has an id that is no UUID, or one that an earlier record has. */
  ghost predicate FaultyId(lib: Library, ids: seq<string>, i: nat) {
    i < |ids| && (!lib.validUuid(ids[i]) || exists j: nat :: j < i && ids[j] == ids[i])
  }

  lemma IdBlamed(lib: Library, kind: string, ids: seq<string>, i: nat, p: Problem)
    requires i < |ids| && p in IdProblems(lib, kind, Recorded(lib, ids[..i]), ids[i])
    ensures p.record == ids[i] && FaultyId(lib, ids, i)
  {
    if lib.validUuid(ids[i]) {
      var j: nat :| j < i && ids[..i][j] == ids[i];
    }
  }

  ghost predicate FaultyCollector(lib: Library, a: Archive, id: string, i: nat) {
    i < |a.collectors| && a.collectors[i].id == id && (FaultyId(lib, CollectorIds(a), i) || lib.blank(a.collectors[i].name))
  }

  ghost predicate FaultyFile(lib: Library, a: Archive, id: string, i: nat) {
    i < |a.files| && a.files[i].id == id && FaultyId(lib, FileIds(a), i)
  }

  ghost predicate FaultySpecimen(lib: Library, a: Archive, id: string, i: nat) {
    i < |a.specimens| && a.specimens[i].id == id && (FaultyId(lib, SpecimenIds(a), i) || !SpecimenValid(lib, a.specimens[i]))
  }

  ghost predicate FaultyPhoto(lib: Library, a: Archive, id: string, i: nat) {
    i < |a.photos| && a.photos[i].id == id && (FaultyId(lib, PhotoIds(a), i) || !PhotoValid(a.photos[i]))
  }

  ghost predicate FaultyEntry(lib: Library, a: Archive, id: string, i: nat) {
    i < |a.journal| && a.journal[i].id == id && FaultyId(lib, EntryIds(a), i)
  }

  ghost predicate FaultySheet(lib: Library, a: Archive, id: string, i: nat) {
    i < |a.qrsheets| && a.qrsheets[i].id == id && !SheetValid(lib, a.qrsheets[i])
  }

  lemma CollectorBlamed(lib: Library, a: Archive, p: Problem)
    requires p in Gather(|a.collectors|, CollectorsAt(lib, a))
    ensures exists i: nat :: FaultyCollector(lib, a, p.record, i)
  {
    var ids := CollectorIds(a);
    var i := GatherFrom(|a.collectors|, CollectorsAt(lib, a), p);
    if p in IdProblems(lib, "collector", Recorded(lib, ids[..i]), ids[i]) { IdBlamed(lib, "collector", ids, i, p); }
    assert FaultyCollector(lib, a, p.record, i);
  }

  lemma FileBlamed(lib: Library, a: Archive, p: Problem)
    requires p in Gather(|a.files|, FilesAt(lib, a))
    ensures exists i: nat :: FaultyFile(lib, a, p.record, i)
  {
    var i := GatherFrom(|a.files|, FilesAt(lib, a), p);
    IdBlamed(lib, "file", FileIds(a), i, p);
    assert FaultyFile(lib, a, p.record, i);
  }

  lemma FieldBlamed(lib: Library, s: SpecimenRecord, p: Problem)
    requires p in SpecimenFieldProblems(lib, s)
    ensures p.record == s.id && !SpecimenValid(lib, s)
  {}

  lemma SpecimenBlamed(lib: Library, a: Archive, p: Problem)
    requires p in Gather(|a.specimens|, SpecimensAt(lib, a))
    ensures exists i: nat :: FaultySpecimen(lib, a, p.record, i)
  {
    var ids := SpecimenIds(a);
    var i := GatherFrom(|a.specimens|, SpecimensAt(lib, a), p);
    if p in IdProblems(lib, "specimen", Recorded(lib, ids[..i]), ids[i]) {
      IdBlamed(lib, "specimen", ids, i, p);
    } else {
      FieldBlamed(lib, a.specimens[i], p);
    }
    assert FaultySpecimen(lib, a, p.record, i);
  }

  lemma PhotoBlamed(lib: Library, a: Archive, p: Problem)
    requires p in Gather(|a.photos|, PhotosAt(lib, a))
    ensures exists i: nat :: FaultyPhoto(lib, a, p.record, i)
  {
    var ids := PhotoIds(a);
    var i := GatherFrom(|a.photos|, PhotosAt(lib, a), p);
    if p in IdProblems(lib, "photo", Recorded(lib, ids[..i]), ids[i]) { IdBlamed(lib, "photo", ids, i, p); }
    assert FaultyPhoto(lib, a, p.record, i);
  }

  lemma EntryBlamed(lib: Library, a: Archive, p: Problem)
    requires p in Gather(|a.journal|, EntriesAt(lib, a))
    ensures exists i: nat :: FaultyEntry(lib, a, p.record, i)
  {
    var i := GatherFrom(|a.journal|, EntriesAt(lib, a), p);
    IdBlamed(lib, "journal entry", EntryIds(a), i, p);
    assert FaultyEntry(lib, a, p.record, i);
  }

  lemma SheetBlamed(lib: Library, a: Archive, p: Problem)
    requires p in Gather(|a.qrsheets|, SheetsAt(lib, a))
    ensures exists i: nat :: FaultySheet(lib, a, p.record, i)
  {
    var i := GatherFrom(|a.qrsheets|, SheetsAt(lib, a), p);
    assert FaultySheet(lib, a, p.record, i);
  }

  /** The archive has a record of that id with a fault of its own. */
  ghost predicate Faulty(lib: Library, a: Archive, id: string) {
    || (exists i: nat :: FaultyCollector(lib, a, id, i)) || (exists i: nat :: FaultyFile(lib, a, id, i))
    || (exists i: nat :: FaultySpecimen(lib, a, id, i)) || (exists i: nat :: FaultyPhoto(lib, a, id, i))
    || (exists i: nat :: FaultyEntry(lib, a, id, i)) || (exists i: nat :: FaultySheet(lib, a, id, i))
  }

  lemma InvalidRecordsBlame(lib: Library, a: Archive, p: Problem)
    requires p in InvalidRecords(lib, a)
    ensures Faulty(lib, a, p.record) || |a.qrsheets| > 1
  {
    if p in Gather(|a.collectors|, CollectorsAt(lib, a)) { CollectorBlamed(lib, a, p); }
    else if p in Gather(|a.files|, FilesAt(lib, a)) { FileBlamed(lib, a, p); }
    else if p in Gather(|a.specimens|, SpecimensAt(lib, a)) { SpecimenBlamed(lib, a, p); }
    else if p in Gather(|a.photos|, PhotosAt(lib, a)) { PhotoBlamed(lib, a, p); }
    else if p in Gather(|a.journal|, EntriesAt(lib, a)) { EntryBlamed(lib, a, p); }
    else if p in Gather(|a.qrsheets|, SheetsAt(lib, a)) { SheetBlamed(lib, a, p); }
  }

  ghost predicate DanglingSpecimen(a: Archive, id: string, i: nat) {
    i < |a.specimens| && a.specimens[i].id == id && !SpecimenRefs(a, a.specimens[i])
  }

  ghost predicate DanglingPhoto(a: Archive, id: string, i: nat) {
    i < |a.photos| && a.photos[i].id == id && !PhotoRefs(a, a.photos[i])
  }

  ghost predicate DanglingEntry(a: Archive, id: string, i: nat) {
    i < |a.journal| && a.journal[i].id == id && !EntryRefs(a, a.journal[i])
  }

  ghost predicate DanglingSheet(a: Archive, id: string, i: nat) {
    i < |a.qrsheets| && a.qrsheets[i].id == id && !SheetRefs(a, a.qrsheets[i])
  }

  lemma BrokenSpecimenNamed(lib: Library, files: set<string>, collectors: set<string>, s: SpecimenRecord, p: Problem)
    requires p in SpecimenBroken(lib, files, collectors, s)
    ensures p.record == s.id
  {
    if p in Gather(|s.collectorIds|, MissingCollectors(collectors, s)) {
      var j := GatherFrom(|s.collectorIds|, MissingCollectors(collectors, s), p);
    }
  }

  lemma BrokenPhotoNamed(lib: Library, specimens: set<string>, files: set<string>, x: PhotoRecord, p: Problem)
    requires p in PhotoBroken(lib, specimens, files, x)
    ensures p.record == x.id
  {}

  lemma BrokenEntryNamed(lib: Library, specimens: set<string>, files: set<string>, e: JournalRecord, p: Problem)
    requires p in EntryBroken(lib, specimens, files, e)
    ensures p.record == e.id
  {
    if p in Gather(|e.attachments|, MissingFiles(files, e)) {
      var j := GatherFrom(|e.attachments|, MissingFiles(files, e), p);
    }
  }

  lemma BrokenSpecimenBlamed(lib: Library, a: Archive, p: Problem)
    requires RecordsValid(lib, a) && p in Gather(|a.specimens|, BrokenSpecimensAt(lib, a))
    ensures exists i: nat :: DanglingSpecimen(a, p.record, i)
  {
    var i := GatherFrom(|a.specimens|, BrokenSpecimensAt(lib, a), p);
    SpecimenRefsClean(lib, a, i);
    BrokenSpecimenNamed(lib, Recorded(lib, FileIds(a)), Recorded(lib, CollectorIds(a)), a.specimens[i], p);
    assert DanglingSpecimen(a, p.record, i);
  }

  lemma BrokenPhotoBlamed(lib: Library, a: Archive, p: Problem)
    requires RecordsValid(lib, a) && p in Gather(|a.photos|, BrokenPhotosAt(lib, a))
    ensures exists i: nat :: DanglingPhoto(a, p.record, i)
  {
    var i := GatherFrom(|a.photos|, BrokenPhotosAt(lib, a), p);
    PhotoRefsClean(lib, a, i);
    BrokenPhotoNamed(lib, Recorded(lib, SpecimenIds(a)), Recorded(lib, FileIds(a)), a.photos[i], p);
    assert DanglingPhoto(a, p.record, i);
  }

  lemma BrokenEntryBlamed(lib: Library, a: Archive, p: Problem)
    requires RecordsValid(lib, a) && p in Gather(|a.journal|, BrokenEntriesAt(lib, a))
    ensures exists i: nat :: DanglingEntry(a, p.record, i)
  {
    var i := GatherFrom(|a.journal|, BrokenEntriesAt(lib, a), p);
    EntryRefsClean(lib, a, i);
    BrokenEntryNamed(lib, Recorded(lib, SpecimenIds(a)), Recorded(lib, FileIds(a)), a.journal[i], p);
    assert DanglingEntry(a, p.record, i);
  }

  lemma BrokenSheetBlamed(lib: Library, a: Archive, p: Problem)
    requires RecordsValid(lib, a) && p in Gather(|a.qrsheets|, BrokenSheetsAt(lib, a))
    ensures exists i: nat :: DanglingSheet(a, p.record, i)
  {
    var i := GatherFrom(|a.qrsheets|, BrokenSheetsAt(lib, a), p);
    var q, known := a.qrsheets[i], Recorded(lib, SpecimenIds(a));
    SheetRefsClean(lib, a, i);
    var j := GatherFrom(|q.specimens|, SheetBroken(known, q), p);
    assert DanglingSheet(a, p.record, i);
  }

  /** The archive has a record of that id that refers to something it does not hold. */
  ghost predicate Dangling(a: Archive, id: string) {
    || (exists i: nat :: DanglingSpecimen(a, id, i)) || (exists i: nat :: DanglingPhoto(a, id, i))
    || (exists i: nat :: DanglingEntry(a, id, i)) || (exists i: nat :: DanglingSheet(a, id, i))
  }

  lemma BrokenReferencesBlame(lib: Library, a: Archive, p: Problem)
    requires RecordsValid(lib, a) && p in BrokenReferences(lib, a)
    ensures Dangling(a, p.record)
  {
    if p in Gather(|a.specimens|, BrokenSpecimensAt(lib, a)) { BrokenSpecimenBlamed(lib, a, p); }
    else if p in Gather(|a.photos|, BrokenPhotosAt(lib, a)) { BrokenPhotoBlamed(lib, a, p); }
    else if p in Gather(|a.journal|, BrokenEntriesAt(lib, a)) { BrokenEntryBlamed(lib, a, p); }
    else { BrokenSheetBlamed(lib, a, p); }
  }

  // ---------------------------------------------------------- the accumulator

  const MAX_REPORTED_DETAILS := 50

  datatype Detail = Item(problem: Problem) | AndMore(count: nat)

  /** detailSet: keeps the first fifty problems and counts the rest. */
  class DetailSet {
    var items: seq<Problem>
    var dropped: nat
    ghost var all: seq<Problem>

    ghost predicate Valid()
      reads this
    {
      && items == (if |all| <= MAX_REPORTED_DETAILS then all else all[..MAX_REPORTED_DETAILS])
      && dropped == |all| - |items|
    }

    constructor ()
      ensures Valid() && all == []
    {
      items, dropped, all := [], 0, [];
    }

    method Add(p: Problem)
      requires Valid()
      modifies this
      ensures Valid() && all == old(all) + [p]
    {
      all := all + [p];
      if |items| < MAX_REPORTED_DETAILS {
        items := items + [p];
        return;
      }
      dropped := dropped + 1;
    }

    method AddAll(ps: seq<Problem>)
      requires Valid()
      modifies this
      ensures Valid() && all == old(all) + ps
    {
      for i := 0 to |ps|
        invariant Valid() && all == old(all) + ps[..i]
      {
        Add(ps[i]);
      }
    }

    /** The cap never hides a problem. */
    predicate Empty()
      requires Valid()
      reads this
      ensures Empty() <==> all == []
    {
      |items| == 0 && dropped == 0
    }

    function List(): (details: seq<Detail>)
      requires Valid()
      reads this
      ensures |details| == if |all| <= MAX_REPORTED_DETAILS then |all| else MAX_REPORTED_DETAILS + 1
      ensures |all| > MAX_REPORTED_DETAILS ==> details[MAX_REPORTED_DETAILS] == AndMore(|all| - MAX_REPORTED_DETAILS)
      ensures forall i :: 0 <= i < |all| && i < MAX_REPORTED_DETAILS ==> details[i] == Item(all[i])
    {
      var listed := seq(|items|, i requires 0 <= i < |items| reads this => Item(items[i]));
      if dropped == 0 then listed else listed + [AndMore(dropped)]
    }
  }

  // ---------------------------------------------------------------- the loops

  lemma RecordedNext(lib: Library, ids: seq<string>, i: nat)
    requires i < |ids|
    ensures Recorded(lib, ids[..i + 1]) == Recorded(lib, ids[..i]) + if lib.validUuid(ids[i]) then {ids[i]} else {}
  {
    var before, after := ids[..i], ids[..i + 1];
    forall id | id in Recorded(lib, before)
      ensures id in Recorded(lib, after)
    {
      var j :| 0 <= j < |before| && lib.validUuid(before[j]) && before[j] == id;
      assert after[j] == id;
    }
    assert lib.validUuid(ids[i]) ==> after[i] in Recorded(lib, after);
  }

  lemma GatherNext(base: seq<Problem>, i: nat, f: nat -> seq<Problem>)
    ensures base + Gather(i, f) + f(i) == base + Gather(i + 1, f)
  {}

  /** The loop over one record type: valid ids are recorded, problems and broken references noted. */
  method Scan(lib: Library, ids: seq<string>, check: IdCheck, broken: nat -> seq<Problem>, inv: DetailSet, ref: DetailSet)
    returns (seen: set<string>)
    requires inv.Valid() && ref.Valid() && inv != ref
    modifies inv, ref
    ensures inv.Valid() && inv.all == old(inv.all) + Gather(|ids|, At(lib, ids, check))
    ensures ref.Valid() && ref.all == old(ref.all) + Gather(|ids|, broken)
    ensures seen == Recorded(lib, ids)
  {
    seen := {};
    for i := 0 to |ids|
      invariant inv.Valid() && inv.all == old(inv.all) + Gather(i, At(lib, ids, check))
      invariant ref.Valid() && ref.all == old(ref.all) + Gather(i, broken)
      invariant seen == Recorded(lib, ids[..i])
    {
      inv.AddAll(check(seen, i));
      GatherNext(old(inv.all), i, At(lib, ids, check));
      ref.AddAll(broken(i));
      GatherNext(old(ref.all), i, broken);
      RecordedNext(lib, ids, i);
      if lib.validUuid(ids[i]) {
        seen := seen + {ids[i]};
      }
    }
    assert ids[..|ids|] == ids;
  }

  /** The loop over the sheets, whose ids nothing refers to. */
  method Note(n: nat, problems: nat -> seq<Problem>, broken: nat -> seq<Problem>, inv: DetailSet, ref: DetailSet)
    requires inv.Valid() && ref.Valid() && inv != ref
    modifies inv, ref
    ensures inv.Valid() && inv.all == old(inv.all) + Gather(n, problems)
    ensures ref.Valid() && ref.all == old(ref.all) + Gather(n, broken)
  {
    for i := 0 to n
      invariant inv.Valid() && inv.all == old(inv.all) + Gather(i, problems)
      invariant ref.Valid() && ref.all == old(ref.all) + Gather(i, broken)
    {
      inv.AddAll(problems(i));
      GatherNext(old(inv.all), i, problems);
      ref.AddAll(broken(i));
      GatherNext(old(ref.all), i, broken);
    }
  }

  lemma {:induction false} NothingGathered(n: nat)
    ensures Gather(n, NoneBroken()) == []
  {
    GatherEmpty(n, NoneBroken());
  }

  datatype Code = MalformedArchive | IncompatibleSchema | InvalidRecord | BrokenReference | IntegrityFailed
  datatype ValidationError = ValidationError(code: Code, details: seq<Detail>)

  /** The report of a non-empty problem list: never empty, and complete up to the cap. */
  ghost predicate Reports(details: seq<Detail>, problems: seq<Problem>) {
    && |details| == (if |problems| <= MAX_REPORTED_DETAILS then |problems| else MAX_REPORTED_DETAILS + 1)
    && (|problems| > MAX_REPORTED_DETAILS ==> details[MAX_REPORTED_DETAILS] == AndMore(|problems| - MAX_REPORTED_DETAILS))
    && forall i :: 0 <= i < |problems| && i < MAX_REPORTED_DETAILS ==> details[i] == Item(problems[i])
  }

  method ExamineOwned(lib: Library, a: Archive, inv: DetailSet, ref: DetailSet)
    returns (fileIds: set<string>, specimenIds: set<string>)
    requires inv.Valid() && ref.Valid() && inv != ref && inv.all == [] && ref.all == []
    modifies inv, ref
    ensures inv.Valid() && inv.all == Gather(|a.collectors|, CollectorsAt(lib, a)) + Gather(|a.files|, FilesAt(lib, a))
                                      + Gather(|a.specimens|, SpecimensAt(lib, a))
    ensures ref.Valid() && ref.all == Gather(|a.specimens|, BrokenSpecimensAt(lib, a))
    ensures fileIds == Recorded(lib, FileIds(a)) && specimenIds == Recorded(lib, SpecimenIds(a))
  {
    var collectorIds := Scan(lib, CollectorIds(a), CollectorCheck(lib, a), NoneBroken(), inv, ref);
    NothingGathered(|a.collectors|);
    assert inv.all == Gather(|a.collectors|, CollectorsAt(lib, a)) && ref.all == [];
    fileIds := Scan(lib, FileIds(a), IdOnlyCheck(lib, "file", FileIds(a)), NoneBroken(), inv, ref);
    NothingGathered(|a.files|);
    specimenIds := Scan(lib, SpecimenIds(a), SpecimenCheck(lib, a), BrokenSpecimens(lib, fileIds, collectorIds, a), inv, ref);
    assert [] + Gather(|a.specimens|, BrokenSpecimensAt(lib, a)) == Gather(|a.specimens|, BrokenSpecimensAt(lib, a));
  }

  method ExamineDependent(lib: Library, a: Archive, fileIds: set<string>, specimenIds: set<string>, inv: DetailSet, ref: DetailSet)
    requires inv.Valid() && ref.Valid() && inv != ref
    requires fileIds == Recorded(lib, FileIds(a)) && specimenIds == Recorded(lib, SpecimenIds(a))
    modifies inv, ref
    ensures inv.Valid() && inv.all == old(inv.all) + Gather(|a.photos|, PhotosAt(lib, a)) + Gather(|a.journal|, EntriesAt(lib, a))
                                      + SheetCount(a) + Gather(|a.qrsheets|, SheetsAt(lib, a))
    ensures ref.Valid() && ref.all == old(ref.all) + Gather(|a.photos|, BrokenPhotosAt(lib, a))
                                      + Gather(|a.journal|, BrokenEntriesAt(lib, a)) + Gather(|a.qrsheets|, BrokenSheetsAt(lib, a))
  {
    var photoIds := Scan(lib, PhotoIds(a), PhotoCheck(lib, a), BrokenPhotos(lib, specimenIds, fileIds, a), inv, ref);
    var entryIds := Scan(lib, EntryIds(a), IdOnlyCheck(lib, "journal entry", EntryIds(a)),
                         BrokenEntries(lib, specimenIds, fileIds, a), inv, ref);
    inv.AddAll(SheetCount(a));
    Note(|a.qrsheets|, SheetsAt(lib, a), BrokenSheets(specimenIds, a), inv, ref);
  }

  method Examine(lib: Library, a: Archive) returns (inv: DetailSet, ref: DetailSet)
    ensures inv.Valid() && inv.all == InvalidRecords(lib, a)
    ensures ref.Valid() && ref.all == BrokenReferences(lib, a)
  {
    inv := new DetailSet();
    ref := new DetailSet();
    var fileIds, specimenIds := ExamineOwned(lib, a, inv, ref);
    ExamineDependent(lib, a, fileIds, specimenIds, inv, ref);
  }

  /** Invalid records take precedence over broken references. */
  method Judge(inv: DetailSet, ref: DetailSet, ghost invalid: seq<Problem>, ghost broken: seq<Problem>)
    returns (err: Option<ValidationError>)
    requires inv.Valid() && ref.Valid() && inv.all == invalid && ref.all == broken
    ensures err.None? <==> invalid == [] && broken == []
    ensures err.Some? ==> err.value.code == if invalid != [] then InvalidRecord else BrokenReference
    ensures err.Some? ==> Reports(err.value.details, if invalid != [] then invalid else broken)
  {
    if !inv.Empty() {
      return Some(ValidationError(InvalidRecord, inv.List()));
    }
    if !ref.Empty() {
      return Some(ValidationError(BrokenReference, ref.List()));
    }
    return None;
  }

  lemma WellFormedIff(lib: Library, a: Archive)
    ensures InvalidRecords(lib, a) == [] && BrokenReferences(lib, a) == [] <==> RecordsValid(lib, a) && ReferencesResolve(a)
  {
    InvalidRecordsEmptyIff(lib, a);
    if RecordsValid(lib, a) { BrokenReferencesEmptyIff(lib, a); }
  }

  /** Passes exactly the well-formed archives. */
  method CheckStructure(lib: Library, a: Archive) returns (err: Option<ValidationError>)
    ensures err.None? <==> RecordsValid(lib, a) && ReferencesResolve(a)
    ensures err.Some? ==> err.value.code == if !RecordsValid(lib, a) then InvalidRecord else BrokenReference
    ensures err.Some? ==> Reports(err.value.details,
                                  if err.value.code == InvalidRecord then InvalidRecords(lib, a) else BrokenReferences(lib, a))
  {
    var inv, ref := Examine(lib, a);
    err := Judge(inv, ref, InvalidRecords(lib, a), BrokenReferences(lib, a));
    WellFormedIff(lib, a);
    InvalidRecordsEmptyIff(lib, a);
  }
}
