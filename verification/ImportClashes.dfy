/**
 Which validated archives the transaction still refuses because of a unique key
 (migrations/0001_init.up.sql, 0003_qr_sheets.up.sql), violated among the rows of the archive or
 together with a stored row.
 */
module ImportClashes {
  import opened Options
  import opened ArchiveFormat
  import opened ImportCheck
  import opened ImportConflicts
  import opened ImportCommit
  import opened ImportCopy

  // ------------------------------------------------- what a caller can look for

  predicate Repeats(ids: seq<string>) {
    exists j, k :: 0 <= j < k < |ids| && ids[j] == ids[k]
  }

  function AttachedFiles(e: JournalRecord): seq<string> {
    seq(|e.attachments|, j requires 0 <= j < |e.attachments| => e.attachments[j].fileId)
  }

  /** Two collectors of one name. */
  predicate NameTwice(a: Archive) {
    exists i, j :: 0 <= i < j < |a.collectors| && a.collectors[i].name == a.collectors[j].name
  }

  /** An entry that attaches one file twice. */
  predicate AttachmentTwice(a: Archive) {
    exists i :: 0 <= i < |a.journal| && Repeats(AttachedFiles(a.journal[i]))
  }

  /** A specimen that names one collector twice. */
  predicate LinkTwice(a: Archive) {
    exists i :: 0 <= i < |a.specimens| && Repeats(a.specimens[i].collectorIds)
  }

  /** Two specimens with one blank catalog number, which clash resolution passes through. */
  predicate BlankTwice(lib: Library, a: Archive) {
    exists i, j :: 0 <= i < j < |a.specimens| && !Counts(lib, a.specimens[i]) && a.specimens[i].catalogNumber.Some?
                   && a.specimens[i].catalogNumber == a.specimens[j].catalogNumber
  }

  predicate SelfClash(lib: Library, a: Archive) {
    NameTwice(a) || BlankTwice(lib, a) || AttachmentTwice(a) || LinkTwice(a)
  }

  /** Somebody already has a collector of one of these names. */
  predicate NameStored(t: Tables, a: Archive) {
    exists i, k :: 0 <= i < |a.collectors| && 0 <= k < |t.collectors| && t.collectors[k].name == a.collectors[i].name
  }

  /** Somebody already has a specimen under one of the resolved catalog numbers. */
  predicate NumberStored(t: Tables, out: seq<Option<string>>) {
    exists i, k :: 0 <= i < |out| && 0 <= k < |t.specimens| && out[i].Some? && t.specimens[k].catalogNumber == out[i]
  }

  predicate StoredClash(t: Tables, a: Archive, out: seq<Option<string>>) {
    NameStored(t, a) || NumberStored(t, out)
  }

  /** Nothing but unique keys keeps a row out. */
  ghost predicate RefusesNothing(rejects: Row -> bool) {
    forall r :: !rejects(r)
  }

  // ------------------------------------------------------------- collector names

  lemma RefusedName(db: Database, r: CollectorRow)
    requires RefusesNothing(db.rejects)
    ensures CollectorRefused(db)(r) <==> exists k :: 0 <= k < |db.stored.collectors| && db.stored.collectors[k].name == r.name
  {
    assert !db.rejects(OfCollector(r));
    assert CollectorRefused(db)(r) <==> Taken(db.stored.collectors, r, SameName);
    if k :| 0 <= k < |db.stored.collectors| && db.stored.collectors[k].name == r.name {
      assert SameName(db.stored.collectors[k], r);
    }
  }

  lemma NameTaken(db: Database, user: Uuid, a: Archive, base: nat)
    requires RefusesNothing(db.rejects)
    ensures (exists i :: 0 <= i < |a.collectors| && CollectorRefused(db)(CollectorRows(user, a, base)[i])) <==> NameStored(db.stored, a)
  {
    var rows := CollectorRows(user, a, base);
    forall i | 0 <= i < |a.collectors|
      ensures CollectorRefused(db)(rows[i]) <==>
              exists k :: 0 <= k < |db.stored.collectors| && db.stored.collectors[k].name == a.collectors[i].name
    {
      RefusedName(db, rows[i]);
    }
  }

  lemma NamesClash(db: Database, user: Uuid, a: Archive, base: nat)
    requires RefusesNothing(db.rejects)
    ensures CollectorsAccepted(db, CollectorRows(user, a, base)) <==> !NameTwice(a) && !NameStored(db.stored, a)
  {
    var rows := CollectorRows(user, a, base);
    NameTaken(db, user, a, base);
    forall i, j | 0 <= i < j < |a.collectors|
      ensures SameName(rows[i], rows[j]) <==> a.collectors[i].name == a.collectors[j].name
    {}
    if NameTwice(a) {
      var i, j :| 0 <= i < j < |a.collectors| && a.collectors[i].name == a.collectors[j].name;
      assert SameName(rows[i], rows[j]);
    }
  }

  // ------------------------------------------------------------ catalog numbers

  /** A number that takes part in resolution comes out non-blank. */
  lemma ResolvedIsNotBlank(lib: Library, existing: set<string>, ss: seq<SpecimenRecord>, out: seq<Option<string>>, i: nat)
    requires lib.Lawful() && Resolution(lib, existing, ss, out) && i < |ss| && Counts(lib, ss[i])
    ensures out[i].Some? && !lib.blank(out[i].value)
  {
    assert ResolvedAt(lib, existing, ss, out, i);
    var orig, taken := ss[i].catalogNumber.value, TakenBefore(lib, existing, ss, out, i);
    if orig in taken {
      var n: nat :| LeastFree(orig, taken, n) && out[i] == Some(Suffixed(orig, n));
      assert Suffixed(orig, n) == orig + (Suffixed(orig, n)[|orig|..]);
    }
  }

  /** Two specimens come out with one number exactly when they went in with one blank number. */
  lemma NumbersClash(lib: Library, existing: set<string>, ss: seq<SpecimenRecord>, out: seq<Option<string>>, i: nat, j: nat)
    requires lib.Lawful() && Resolution(lib, existing, ss, out) && i < j < |ss|
    ensures out[i].Some? && out[i] == out[j] <==>
            !Counts(lib, ss[i]) && ss[i].catalogNumber.Some? && ss[i].catalogNumber == ss[j].catalogNumber
  {
    assert ResolvedAt(lib, existing, ss, out, i) && ResolvedAt(lib, existing, ss, out, j);
    if Counts(lib, ss[i]) && Counts(lib, ss[j]) {
      NumbersDistinct(lib, existing, ss, out, i, j);
    } else if Counts(lib, ss[i]) {
      ResolvedIsNotBlank(lib, existing, ss, out, i);
    } else if Counts(lib, ss[j]) {
      ResolvedIsNotBlank(lib, existing, ss, out, j);
    }
  }

  lemma RefusedNumber(db: Database, r: SpecimenRow)
    requires RefusesNothing(db.rejects)
    ensures SpecimenRefused(db)(r) <==>
            exists k :: 0 <= k < |db.stored.specimens| && r.catalogNumber.Some? && db.stored.specimens[k].catalogNumber == r.catalogNumber
  {
    assert !db.rejects(OfSpecimen(r));
    assert SpecimenRefused(db)(r) <==> Taken(db.stored.specimens, r, SameNumber);
    if k :| 0 <= k < |db.stored.specimens| && r.catalogNumber.Some? && db.stored.specimens[k].catalogNumber == r.catalogNumber {
      assert SameNumber(db.stored.specimens[k], r);
    }
  }

  lemma NumberTaken(db: Database, rows: seq<SpecimenRow>, out: seq<Option<string>>)
    requires RefusesNothing(db.rejects) && |rows| == |out| && forall i :: 0 <= i < |rows| ==> rows[i].catalogNumber == out[i]
    ensures (exists i :: 0 <= i < |rows| && SpecimenRefused(db)(rows[i])) <==> NumberStored(db.stored, out)
  {
    forall i | 0 <= i < |rows|
      ensures SpecimenRefused(db)(rows[i]) <==>
              exists k :: 0 <= k < |db.stored.specimens| && out[i].Some? && db.stored.specimens[k].catalogNumber == out[i]
    {
      RefusedNumber(db, rows[i]);
    }
  }

  lemma BlanksClash(lib: Library, existing: set<string>, ss: seq<SpecimenRecord>, out: seq<Option<string>>, a: Archive, rows: seq<SpecimenRow>)
    requires lib.Lawful() && Resolution(lib, existing, ss, out) && ss == a.specimens
    requires |rows| == |ss| && forall i :: 0 <= i < |rows| ==> rows[i].catalogNumber == out[i]
    ensures Unique(rows, SameNumber) <==> !BlankTwice(lib, a)
  {
    forall i, j | 0 <= i < j < |rows|
      ensures SameNumber(rows[i], rows[j]) <==>
              !Counts(lib, ss[i]) && ss[i].catalogNumber.Some? && ss[i].catalogNumber == ss[j].catalogNumber
    {
      NumbersClash(lib, existing, ss, out, i, j);
    }
    if BlankTwice(lib, a) {
      var i, j :| 0 <= i < j < |ss| && !Counts(lib, ss[i]) && ss[i].catalogNumber.Some? && ss[i].catalogNumber == ss[j].catalogNumber;
      assert SameNumber(rows[i], rows[j]);
    }
  }

  lemma CatalogClash(lib: Library, db: Database, existing: set<string>, a: Archive, out: seq<Option<string>>, rows: seq<SpecimenRow>)
    requires lib.Lawful() && RefusesNothing(db.rejects) && RecordsValid(lib, a) && Resolution(lib, existing, a.specimens, out)
    requires |rows| == |a.specimens| && forall i :: 0 <= i < |rows| ==> rows[i].catalogNumber == out[i]
    ensures SpecimensAccepted(lib, db, a.specimens, rows) <==> !BlankTwice(lib, a) && !NumberStored(db.stored, out)
  {
    BlanksClash(lib, existing, a.specimens, out, a, rows);
    NumberTaken(db, rows, out);
    forall i | 0 <= i < |rows|
      ensures lib.typeData(a.specimens[i].typ, a.specimens[i].typeData).Some?
    {
      assert SpecimenValid(lib, a.specimens[i]);
    }
  }

  // ------------------------------------------------------- attachments and links

  /** Different archive ids have different images. */
  lemma LookupInjective(ids: seq<string>, base: nat, id: string, id': string)
    requires Distinct(ids) && id in ids && id' in ids
    ensures Lookup(IdsFrom(ids, base), id) == Lookup(IdsFrom(ids, base), id') <==> id == id'
  {
    LookupHits(ids, base, id);
    LookupHits(ids, base, id');
  }

  /** What belongs to a new entry or specimen clashes with nothing stored. */
  lemma EntryIsNew(db: Database, base: nat, r: AttachmentRow)
    requires RefusesNothing(db.rejects) && OwnersBelow(db.stored, base) && r.entry >= base
    ensures !AttachmentRefused(db)(r)
  {
    assert !db.rejects(OfAttachment(r));
    assert forall i :: 0 <= i < |db.stored.attachments| ==> db.stored.attachments[i] in db.stored.attachments;
  }

  lemma SpecimenIsNew(db: Database, base: nat, r: ChainRow)
    requires RefusesNothing(db.rejects) && OwnersBelow(db.stored, base) && r.specimen >= base
    ensures !ChainRefused(db)(r)
  {
    assert !db.rejects(OfChain(r));
    assert forall i :: 0 <= i < |db.stored.chains| ==> db.stored.chains[i] in db.stored.chains;
  }

  lemma AttachmentsOfOne(db: Database, a: Archive, base: nat, i: nat)
    requires RefusesNothing(db.rejects) && OwnersBelow(db.stored, base) && DistinctIds(a) && ReferencesResolve(a) && i < |a.journal|
    ensures AttachmentsAccepted(db, AttachmentCopies(FileMap(a, base), EntryBase(a, base) + i, a.journal[i]))
            <==> !Repeats(AttachedFiles(a.journal[i]))
  {
    var e := a.journal[i];
    var rows, ids := AttachmentCopies(FileMap(a, base), EntryBase(a, base) + i, e), AttachedFiles(e);
    assert EntryRefs(a, e);
    forall j, k | 0 <= j < k < |ids|
      ensures SameAttachment(rows[j], rows[k]) <==> ids[j] == ids[k]
    {
      LookupInjective(FileIds(a), FileBase(a, base), ids[j], ids[k]);
    }
    forall j | 0 <= j < |rows|
      ensures !AttachmentRefused(db)(rows[j])
    {
      EntryIsNew(db, base, rows[j]);
    }
    if Repeats(ids) {
      var j, k :| 0 <= j < k < |ids| && ids[j] == ids[k];
      assert SameAttachment(rows[j], rows[k]);
    }
  }

  /** Attachments of a later entry clash with none before them. */
  lemma AttachmentsJoin(db: Database, before: seq<AttachmentRow>, last: seq<AttachmentRow>, entry: nat)
    requires forall x :: x in before ==> x.entry < entry
    requires forall y :: y in last ==> y.entry == entry
    ensures AttachmentsAccepted(db, before + last) <==> AttachmentsAccepted(db, before) && AttachmentsAccepted(db, last)
  {
    InsertsConcat(before, last, AttachmentRefused(db), SameAttachment);
  }

  ghost predicate NoFileTwice(a: Archive, n: nat)
    requires n <= |a.journal|
  {
    forall i :: 0 <= i < n ==> !Repeats(AttachedFiles(a.journal[i]))
  }

  lemma NoFileTwiceNext(a: Archive, n: nat)
    requires 0 < n <= |a.journal|
    ensures NoFileTwice(a, n) <==> NoFileTwice(a, n - 1) && !Repeats(AttachedFiles(a.journal[n - 1]))
  {}

  lemma AttachmentsNext(db: Database, a: Archive, files: IdMap, from: nat, n: nat)
    requires 0 < n <= |a.journal|
    ensures AttachmentsAccepted(db, AttachmentRows(a, files, from, n)) <==>
            && AttachmentsAccepted(db, AttachmentRows(a, files, from, n - 1))
            && AttachmentsAccepted(db, AttachmentCopies(files, from + n - 1, a.journal[n - 1]))
  {
    var before, last := AttachmentRows(a, files, from, n - 1), AttachmentCopies(files, from + n - 1, a.journal[n - 1]);
    forall x | x in before
      ensures x.entry < from + n - 1
    {
      AttachmentOwners(a, files, from, n - 1, x);
    }
    AttachmentsJoin(db, before, last, from + n - 1);
  }

  /** The first n entries go in exactly when none of them repeats a file. */
  lemma {:induction false} AttachmentsClash(db: Database, a: Archive, base: nat, n: nat)
    requires RefusesNothing(db.rejects) && OwnersBelow(db.stored, base) && DistinctIds(a) && ReferencesResolve(a) && n <= |a.journal|
    ensures AttachmentsAccepted(db, AttachmentRows(a, FileMap(a, base), EntryBase(a, base), n)) <==> NoFileTwice(a, n)
    decreases n
  {
    if n > 0 {
      AttachmentsNext(db, a, FileMap(a, base), EntryBase(a, base), n);
      AttachmentsClash(db, a, base, n - 1);
      AttachmentsOfOne(db, a, base, n - 1);
      NoFileTwiceNext(a, n);
    }
  }

  lemma LinksOfOne(db: Database, a: Archive, base: nat, i: nat)
    requires RefusesNothing(db.rejects) && OwnersBelow(db.stored, base) && DistinctIds(a) && ReferencesResolve(a) && i < |a.specimens|
    ensures ChainsAccepted(db, ChainCopies(SpecimenMap(a, base), CollectorMap(a, base), a.specimens[i]))
            <==> !Repeats(a.specimens[i].collectorIds)
  {
    var s := a.specimens[i];
    var rows, ids := ChainCopies(SpecimenMap(a, base), CollectorMap(a, base), s), s.collectorIds;
    assert SpecimenRefs(a, s);
    forall j, k | 0 <= j < k < |ids|
      ensures SameLink(rows[j], rows[k]) <==> ids[j] == ids[k]
    {
      LookupInjective(CollectorIds(a), base, ids[j], ids[k]);
    }
    SpecimenImageOf(a, base, i);
    forall j | 0 <= j < |rows|
      ensures !ChainRefused(db)(rows[j])
    {
      SpecimenIsNew(db, base, rows[j]);
    }
    if Repeats(ids) {
      var j, k :| 0 <= j < k < |ids| && ids[j] == ids[k];
      assert SameLink(rows[j], rows[k]);
    }
  }

  lemma {:induction false} LinkSpecimens(a: Archive, base: nat, collectors: IdMap, n: nat, r: ChainRow)
    requires DistinctIds(a) && n <= |a.specimens| && r in ChainRows(a, SpecimenMap(a, base), collectors, n)
    ensures r.specimen < SpecimenBase(a, base) + n
    decreases n
  {
    var last := ChainCopies(SpecimenMap(a, base), collectors, a.specimens[n - 1]);
    if r in last {
      SpecimenImageOf(a, base, n - 1);
    } else {
      LinkSpecimens(a, base, collectors, n - 1, r);
    }
  }

  lemma SpecimenImageOf(a: Archive, base: nat, i: nat)
    requires DistinctIds(a) && i < |a.specimens|
    ensures Lookup(SpecimenMap(a, base), a.specimens[i].id) == SpecimenBase(a, base) + i
  {
    assert SpecimenIds(a)[i] == a.specimens[i].id;
    IdsFromAt(SpecimenIds(a), SpecimenBase(a, base), i);
  }

  lemma LinksJoin(db: Database, before: seq<ChainRow>, last: seq<ChainRow>, specimen: nat)
    requires forall x :: x in before ==> x.specimen < specimen
    requires forall y :: y in last ==> y.specimen == specimen
    ensures ChainsAccepted(db, before + last) <==> ChainsAccepted(db, before) && ChainsAccepted(db, last)
  {
    InsertsConcat(before, last, ChainRefused(db), SameLink);
  }

  ghost predicate NoCollectorTwice(a: Archive, n: nat)
    requires n <= |a.specimens|
  {
    forall i :: 0 <= i < n ==> !Repeats(a.specimens[i].collectorIds)
  }

  /** The chains of the first n specimens go in exactly when none of them repeats a collector. */
  lemma {:induction false} LinksClash(db: Database, a: Archive, base: nat, n: nat)
    requires RefusesNothing(db.rejects) && OwnersBelow(db.stored, base) && DistinctIds(a) && ReferencesResolve(a) && n <= |a.specimens|
    ensures ChainsAccepted(db, ChainRows(a, SpecimenMap(a, base), CollectorMap(a, base), n)) <==> NoCollectorTwice(a, n)
    decreases n
  {
    if n > 0 {
      var specimens, collectors := SpecimenMap(a, base), CollectorMap(a, base);
      var before, last := ChainRows(a, specimens, collectors, n - 1), ChainCopies(specimens, collectors, a.specimens[n - 1]);
      LinksClash(db, a, base, n - 1);
      LinksOfOne(db, a, base, n - 1);
      SpecimenImageOf(a, base, n - 1);
      forall x | x in before
        ensures x.specimen < SpecimenBase(a, base) + n - 1
      {
        LinkSpecimens(a, base, collectors, n - 1, x);
      }
      LinksJoin(db, before, last, SpecimenBase(a, base) + n - 1);
      assert NoCollectorTwice(a, n) <==> NoCollectorTwice(a, n - 1) && !Repeats(a.specimens[n - 1].collectorIds);
    }
  }

  // ------------------------------------------------------------------ the condition

  /** Files, photos and entries have no key but their id, and a sheet is taken only by a user without one. */
  lemma RestAccepted(db: Database, user: Uuid, a: Archive, skip: bool, base: nat)
    requires RefusesNothing(db.rejects)
    requires TakesSheet(a, skip) ==> forall r :: r in db.stored.sheets ==> r.user != user
    ensures FilesAccepted(db, FileRows(user, a, FileBase(a, base)))
    ensures PhotosAccepted(db, PhotoRows(a, SpecimenMap(a, base), FileMap(a, base), PhotoBase(a, base)))
    ensures EntriesAccepted(db, EntryRows(user, a, SpecimenMap(a, base), EntryBase(a, base)))
    ensures TakesSheet(a, skip) ==> SheetAccepted(db, user, a, skip, base)
  {
    assert forall i :: 0 <= i < |db.stored.sheets| ==> db.stored.sheets[i] in db.stored.sheets;
  }

  lemma NumbersApplied(lib: Library, user: Uuid, a: Archive, files: IdMap, cat: map<string, Option<string>>, out: seq<Option<string>>, base: nat)
    requires CatalogApplied(a, out, cat)
    ensures forall i :: 0 <= i < |a.specimens| ==> SpecimenRows(lib, user, a, files, cat, base)[i].catalogNumber == out[i]
  {}

  lemma NumbersAccepted(lib: Library, db: Database, user: Uuid, existing: set<string>, a: Archive, out: seq<Option<string>>,
                        cat: map<string, Option<string>>, base: nat)
    requires lib.Lawful() && RefusesNothing(db.rejects) && RecordsValid(lib, a)
    requires Resolution(lib, existing, a.specimens, out) && CatalogApplied(a, out, cat)
    ensures SpecimensAccepted(lib, db, a.specimens, SpecimenRows(lib, user, a, FileMap(a, base), cat, SpecimenBase(a, base)))
            <==> !BlankTwice(lib, a) && !NumberStored(db.stored, out)
  {
    NumbersApplied(lib, user, a, FileMap(a, base), cat, out, SpecimenBase(a, base));
    CatalogClash(lib, db, existing, a, out, SpecimenRows(lib, user, a, FileMap(a, base), cat, SpecimenBase(a, base)));
  }

  lemma OwnedAccepted(db: Database, a: Archive, base: nat)
    requires RefusesNothing(db.rejects) && OwnersBelow(db.stored, base) && DistinctIds(a) && ReferencesResolve(a)
    ensures AttachmentsAccepted(db, AttachmentRows(a, FileMap(a, base), EntryBase(a, base), |a.journal|)) <==> !AttachmentTwice(a)
    ensures ChainsAccepted(db, ChainRows(a, SpecimenMap(a, base), CollectorMap(a, base), |a.specimens|)) <==> !LinkTwice(a)
  {
    AttachmentsClash(db, a, base, |a.journal|);
    LinksClash(db, a, base, |a.specimens|);
  }

  /**
   Where nothing but unique keys keeps a row out, a validated archive goes in, if and only if
   it has no two collectors of one name, no specimens with one blank catalog number, no entry
   that attaches a file twice and no specimen that names a collector twice, and nobody already
   has a collector of one of its names or a specimen under one of its resolved numbers.
   */
  lemma AcceptedIff(lib: Library, db: Database, user: Uuid, existing: set<string>, a: Archive, out: seq<Option<string>>,
                    cat: map<string, Option<string>>, skip: bool, base: nat)
    requires lib.Lawful() && RefusesNothing(db.rejects) && RecordsValid(lib, a) && ReferencesResolve(a)
    requires Resolution(lib, existing, a.specimens, out) && CatalogApplied(a, out, cat)
    requires OwnersBelow(db.stored, base) && (TakesSheet(a, skip) ==> forall r :: r in db.stored.sheets ==> r.user != user)
    ensures Accepted(lib, db, user, a, cat, skip, base) <==> !SelfClash(lib, a) && !StoredClash(db.stored, a, out)
  {
    ValidHasDistinctIds(lib, a);
    RestAccepted(db, user, a, skip, base);
    NamesClash(db, user, a, base);
    NumbersAccepted(lib, db, user, existing, a, out, cat, base);
    OwnedAccepted(db, a, base);
  }

  // ------------------------------------------------------ an archive of each kind

  datatype Kind = TwoNames | TwoBlanks | TwoAttachments | TwoLinks

  function Plain(id: string, number: Option<string>, collectors: seq<string>): SpecimenRecord {
    SpecimenRecord(id, "mineral", number, "private", None, None, None, "{}", None, collectors, "")
  }

  /** Archives made of ids x and y that validate and clash with themselves. */
  function Clashing(kind: Kind, x: string, y: string, name: string, blank: string): Archive {
    match kind
    case TwoNames => Archive([CollectorRecord(x, name, ""), CollectorRecord(y, name, "")], [], [], [], [], [])
    case TwoBlanks => Archive([], [], [Plain(x, Some(blank), []), Plain(y, Some(blank), [])], [], [], [])
    case TwoAttachments =>
      Archive([], [FileRecord(x, "")], [Plain(x, None, [])], [],
              [JournalRecord(x, x, [Attachment(x, ""), Attachment(x, "")], "")], [])
    case TwoLinks => Archive([CollectorRecord(x, name, "")], [], [Plain(x, None, [x, x])], [], [], [])
  }

  lemma ClashingIsValid(lib: Library, kind: Kind, x: string, y: string, name: string, blank: string)
    requires lib.validUuid(x) && lib.validUuid(y) && x != y && !lib.blank(name) && lib.typeData("mineral", "{}").Some?
    ensures RecordsValid(lib, Clashing(kind, x, y, name, blank))
  {}

  lemma ClashingResolves(kind: Kind, x: string, y: string, name: string, blank: string)
    ensures ReferencesResolve(Clashing(kind, x, y, name, blank))
  {
    var a := Clashing(kind, x, y, name, blank);
    match kind
    case TwoAttachments => assert FileIds(a)[0] == x && SpecimenIds(a)[0] == x;
    case TwoLinks => assert CollectorIds(a)[0] == x;
    case _ =>
  }

  lemma ClashingValidates(lib: Library, kind: Kind, x: string, y: string, name: string, blank: string)
    requires lib.validUuid(x) && lib.validUuid(y) && x != y && !lib.blank(name) && lib.blank(blank)
    requires lib.typeData("mineral", "{}").Some?
    ensures RecordsValid(lib, Clashing(kind, x, y, name, blank)) && ReferencesResolve(Clashing(kind, x, y, name, blank))
    ensures SelfClash(lib, Clashing(kind, x, y, name, blank))
  {
    var a := Clashing(kind, x, y, name, blank);
    ClashingIsValid(lib, kind, x, y, name, blank);
    ClashingResolves(kind, x, y, name, blank);
    match kind
    case TwoNames => assert a.collectors[0].name == a.collectors[1].name;
    case TwoBlanks => assert a.specimens[0].catalogNumber == a.specimens[1].catalogNumber;
    case TwoAttachments => assert AttachedFiles(a.journal[0])[0] == AttachedFiles(a.journal[0])[1];
    case TwoLinks => assert a.specimens[0].collectorIds[0] == a.specimens[0].collectorIds[1];
  }
}
