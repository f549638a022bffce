/** Run of internal/portability/import.go: validate, report, and commit unless it is a dry run. */
module ImportRun {
  import opened Options
  import opened ArchiveFormat
  import opened ImportCheck
  import opened ImportConflicts
  import opened ImportCommit
  import opened ImportCopy
  import opened ImportClashes

  datatype RecordCounts = RecordCounts(collectors: nat, files: nat, specimens: nat, photos: nat, journalEntries: nat, qrSheets: nat)

  /** `sheetSkipped` is the one warning an import can carry. */
  datatype Report = Report(dryRun: bool, committed: bool, counts: RecordCounts, conflicts: seq<Conflict>, sheetSkipped: bool)

  datatype Outcome = Reported(report: Report) | Invalid(error: ValidationError) | TransactionFailed

  /** The importer's own state the validation looks at: catalog numbers in use, and whether a sheet exists. */
  datatype Account = Account(catalogNumbers: set<string>, hasSheet: bool)

  /** CatalogNumbersByAuthor and GetByUser. */
  function AccountOf(t: Tables, user: Uuid): Account {
    Account(set i | 0 <= i < |t.specimens| && t.specimens[i].author == user && t.specimens[i].catalogNumber.Some?
              :: t.specimens[i].catalogNumber.value,
            exists i :: 0 <= i < |t.sheets| && t.sheets[i].user == user)
  }

  /** The numbers are those of the user's rows, and a sheet is one of the user's. */
  lemma AccountIsOwn(t: Tables, user: Uuid, n: string)
    ensures n in AccountOf(t, user).catalogNumbers <==> exists r :: r in t.specimens && r.author == user && r.catalogNumber == Some(n)
    ensures AccountOf(t, user).hasSheet <==> exists r :: r in t.sheets && r.user == user
  {
    if r :| r in t.specimens && r.author == user && r.catalogNumber == Some(n) {
      var i :| 0 <= i < |t.specimens| && t.specimens[i] == r;
    }
    if r :| r in t.sheets && r.user == user {
      var i :| 0 <= i < |t.sheets| && t.sheets[i] == r;
    }
  }

  predicate SkipsSheet(account: Account, a: Archive) {
    |a.qrsheets| > 0 && account.hasSheet
  }

  function CountsOf(a: Archive, skip: bool): RecordCounts {
    RecordCounts(|a.collectors|, |a.files|, |a.specimens|, |a.photos|, |a.journal|, if TakesSheet(a, skip) then 1 else 0)
  }

  /** What a report must say about an archive imported into this account. */
  ghost predicate Foretold(lib: Library, account: Account, a: Archive, out: seq<Option<string>>, r: Report) {
    && r.counts == CountsOf(a, SkipsSheet(account, a))
    && r.sheetSkipped == SkipsSheet(account, a)
    && Resolution(lib, account.catalogNumbers, a.specimens, out)
    && r.conflicts == ConflictsOf(a.specimens, out)
  }

  /** The one warning: the archive brings a sheet, and this user has one. */
  lemma SkippedIff(lib: Library, t: Tables, user: Uuid, a: Archive, out: seq<Option<string>>, r: Report)
    requires Foretold(lib, AccountOf(t, user), a, out, r)
    ensures r.sheetSkipped <==> a.qrsheets != [] && exists x :: x in t.sheets && x.user == user
    ensures r.counts.qrSheets == if a.qrsheets != [] && !r.sheetSkipped then 1 else 0
  {
    AccountIsOwn(t, user, "");
  }

  lemma DistinctRecords(a: Archive)
    requires Distinct(SpecimenIds(a))
    ensures forall i, j :: 0 <= i < j < |a.specimens| ==> a.specimens[i].id != a.specimens[j].id
  {
    forall i, j | 0 <= i < j < |a.specimens|
      ensures a.specimens[i].id != a.specimens[j].id
    {
      assert SpecimenIds(a)[i] != SpecimenIds(a)[j];
    }
  }

  // ----------------------------------------------------------------- validation

  const APPLICATION := "minerals"
  const SCHEMA_VERSION := 1

  /**
   An upload as far as it can be read: not even a manifest, or a manifest, the records if all
   of them decode, and which files' binaries are there with their declared size and hash.
   */
  datatype Upload =
    | Unreadable
    | Upload(application: string, schemaVersion: int, records: Option<Archive>, intact: FileRecord -> bool)

  predicate Decodes(u: Upload) {
    u.Upload? && u.application == APPLICATION && 1 <= u.schemaVersion <= SCHEMA_VERSION && u.records.Some?
  }

  function ArchiveOf(u: Upload): Archive {
    if Decodes(u) then u.records.value else Archive([], [], [], [], [], [])
  }

  ghost predicate Intact(u: Upload) {
    Decodes(u) && forall i :: 0 <= i < |u.records.value.files| ==> u.intact(u.records.value.files[i])
  }

  /** What validation accepts. */
  ghost predicate Importable(lib: Library, u: Upload) {
    Decodes(u) && RecordsValid(lib, ArchiveOf(u)) && ReferencesResolve(ArchiveOf(u)) && Intact(u)
  }

  /** Why anything else is refused: the first failing stage. */
  ghost function RefusalCode(lib: Library, u: Upload): Code {
    if u.Unreadable? || u.application != APPLICATION then MalformedArchive
    else if !(1 <= u.schemaVersion <= SCHEMA_VERSION) then IncompatibleSchema
    else if u.records.None? then MalformedArchive
    else if !RecordsValid(lib, u.records.value) then InvalidRecord
    else if !ReferencesResolve(u.records.value) then BrokenReference
    else IntegrityFailed
  }

  /** verifyBinaries: every damaged or missing binary is noted, and one is enough to refuse. */
  method VerifyBinaries(u: Upload) returns (err: Option<ValidationError>)
    requires Decodes(u)
    ensures err.None? <==> Intact(u)
    ensures err.Some? ==> err.value.code == IntegrityFailed
  {
    var files := u.records.value.files;
    var bad := new DetailSet();
    for i := 0 to |files|
      invariant bad.Valid() && fresh(bad)
      invariant bad.all == [] <==> forall j :: 0 <= j < i ==> u.intact(files[j])
    {
      if !u.intact(files[i]) {
        bad.Add(Problem("file binary failed verification", files[i].id, ""));
      }
    }
    if !bad.Empty() {
      return Some(ValidationError(IntegrityFailed, bad.List()));
    }
    return None;
  }

  /** The stages before clash resolution. */
  method CheckUpload(lib: Library, u: Upload) returns (err: Option<ValidationError>)
    ensures err.None? <==> Importable(lib, u)
    ensures err.Some? ==> err.value.code == RefusalCode(lib, u)
  {
    if u.Unreadable? || u.application != APPLICATION {
      return Some(ValidationError(MalformedArchive, []));
    }
    if u.schemaVersion <= 0 || u.schemaVersion > SCHEMA_VERSION {
      return Some(ValidationError(IncompatibleSchema, []));
    }
    if u.records.None? {
      return Some(ValidationError(MalformedArchive, []));
    }
    err := CheckStructure(lib, u.records.value);
    if err.Some? { return; }
    err := VerifyBinaries(u);
  }

  /** Validation: the upload, then clashes, then whether the sheet is skipped. */
  method Validate(lib: Library, account: Account, u: Upload)
    returns (err: Option<ValidationError>, cat: map<string, Option<string>>, conflicts: seq<Conflict>, ghost out: seq<Option<string>>)
    ensures err.None? <==> Importable(lib, u)
    ensures err.Some? ==> err.value.code == RefusalCode(lib, u)
    ensures err.None? ==> Resolution(lib, account.catalogNumbers, ArchiveOf(u).specimens, out)
                          && conflicts == ConflictsOf(ArchiveOf(u).specimens, out) && CatalogApplied(ArchiveOf(u), out, cat)
  {
    cat, conflicts, out := map[], [], [];
    err := CheckUpload(lib, u);
    if err.Some? { return; }
    var a := ArchiveOf(u);
    cat, conflicts, out := ResolveConflicts(lib, account.catalogNumbers, a.specimens);
    ValidHasDistinctIds(lib, a);
    DistinctRecords(a);
  }

  lemma SheetTakenOnce(t: Tables, user: Uuid, a: Archive)
    requires TakesSheet(a, SkipsSheet(AccountOf(t, user), a))
    ensures forall r :: r in t.sheets ==> r.user != user
  {
    forall r | r in t.sheets
      ensures r.user != user
    {
      var i :| 0 <= i < |t.sheets| && t.sheets[i] == r;
    }
  }

  /** The condition of ImportClashes for an account as its tables show it. */
  lemma RunAcceptedIff(lib: Library, db: Database, user: Uuid, a: Archive, out: seq<Option<string>>, cat: map<string, Option<string>>, base: nat)
    requires lib.Lawful() && RefusesNothing(db.rejects) && Consistent(db.stored, base) && RecordsValid(lib, a) && ReferencesResolve(a)
    requires Resolution(lib, AccountOf(db.stored, user).catalogNumbers, a.specimens, out) && CatalogApplied(a, out, cat)
    ensures Accepted(lib, db, user, a, cat, SkipsSheet(AccountOf(db.stored, user), a), base) <==>
            !SelfClash(lib, a) && !StoredClash(db.stored, a, out)
  {
    var account := AccountOf(db.stored, user);
    if TakesSheet(a, SkipsSheet(account, a)) { SheetTakenOnce(db.stored, user, a); }
    AcceptedIff(lib, db, user, account.catalogNumbers, a, out, cat, SkipsSheet(account, a), base);
  }

  /** What a committed import did to the tables. */
  ghost predicate Imported(lib: Library, user: Uuid, a: Archive, out: seq<Option<string>>, cat: map<string, Option<string>>, skip: bool,
                           before: Tables, base: nat, after: Tables) {
    var created := Created(lib, user, a, cat, skip, base);
    && after == Append(before, created)
    && GraphCopied(a, created, skip) && RowsCopied(lib, user, a, out, created, skip)
    && forall x :: x in IdsOf(created) ==> x !in IdsOf(before)
  }

  /** The counts are the numbers of rows the tables grew by. */
  ghost predicate Grew(before: Tables, after: Tables, counts: RecordCounts) {
    && counts.collectors == |after.collectors| - |before.collectors|
    && counts.files == |after.files| - |before.files|
    && counts.specimens == |after.specimens| - |before.specimens|
    && counts.photos == |after.photos| - |before.photos|
    && counts.journalEntries == |after.entries| - |before.entries|
    && counts.qrSheets == |after.sheets| - |before.sheets|
  }

  lemma CountsAreGrowth(lib: Library, user: Uuid, a: Archive, cat: map<string, Option<string>>, skip: bool, base: nat, before: Tables)
    ensures Grew(before, Append(before, Created(lib, user, a, cat, skip, base)), CountsOf(a, skip))
  {}

  /**
   Run: an upload that is not importable is refused and nothing is written; a dry run writes
   nothing; a commit writes a copy of the whole graph or nothing. Where nothing but unique keys
   keeps rows out, it fails exactly on archives that clash with themselves or with what anybody
   has stored.
   */
  method Run(imp: Importer, lib: Library, rejects: Row -> bool, user: Uuid, u: Upload, dryRun: bool)
    returns (r: Outcome, ghost out: seq<Option<string>>, ghost cat: map<string, Option<string>>)
    requires imp.Valid()
    modifies imp
    ensures imp.Valid()
    ensures r.Invalid? <==> !Importable(lib, u)
    ensures r.Invalid? ==> r.error.code == RefusalCode(lib, u)
    ensures !r.Reported? || dryRun ==> imp.tables == old(imp.tables)
    ensures !r.Invalid? ==> Resolution(lib, AccountOf(old(imp.tables), user).catalogNumbers, ArchiveOf(u).specimens, out)
                            && CatalogApplied(ArchiveOf(u), out, cat)
    ensures r.Reported? ==> Foretold(lib, AccountOf(old(imp.tables), user), ArchiveOf(u), out, r.report)
    ensures r.Reported? ==> r.report.dryRun == dryRun && r.report.committed == !dryRun
    ensures r.Reported? && !dryRun ==>
              && Imported(lib, user, ArchiveOf(u), out, cat, SkipsSheet(AccountOf(old(imp.tables), user), ArchiveOf(u)),
                          old(imp.tables), old(imp.nextId), imp.tables)
              && Grew(old(imp.tables), imp.tables, r.report.counts)
    ensures r.TransactionFailed? <==>
              && !dryRun && Importable(lib, u)
              && !Accepted(lib, Database(old(imp.tables), rejects), user, ArchiveOf(u), cat,
                           SkipsSheet(AccountOf(old(imp.tables), user), ArchiveOf(u)), old(imp.nextId))
    ensures lib.Lawful() && RefusesNothing(rejects) ==>
              (r.TransactionFailed? <==>
                 !dryRun && Importable(lib, u) && (SelfClash(lib, ArchiveOf(u)) || StoredClash(old(imp.tables), ArchiveOf(u), out)))
  {
    var account := AccountOf(imp.tables, user);
    var err, resolvedCat, conflicts;
    err, resolvedCat, conflicts, out := Validate(lib, account, u);
    cat := resolvedCat;
    if err.Some? { return Invalid(err.value), out, cat; }
    var a := ArchiveOf(u);
    var skip := SkipsSheet(account, a);
    var report := Report(dryRun, false, CountsOf(a, skip), conflicts, skip);
    if dryRun { return Reported(report), out, cat; }
    CommitCopiesGraph(imp.tables, lib, user, a, cat, skip, imp.nextId);
    CommitCopiesRows(lib, user, a, out, cat, skip, imp.nextId);
    CountsAreGrowth(lib, user, a, cat, skip, imp.nextId, imp.tables);
    if lib.Lawful() && RefusesNothing(rejects) {
      RunAcceptedIff(lib, Database(imp.tables, rejects), user, a, out, cat, imp.nextId);
    }
    var ok := imp.Commit(lib, rejects, user, a, resolvedCat, skip);
    if !ok { return TransactionFailed, out, cat; }
    return Reported(report.(committed := true)), out, cat;
  }

  /** A number that took part in resolution can only clash with another account's. */
  lemma ClashIsForeign(lib: Library, t: Tables, user: Uuid, ss: seq<SpecimenRecord>, out: seq<Option<string>>, i: nat, k: nat)
    requires Resolution(lib, AccountOf(t, user).catalogNumbers, ss, out) && i < |ss| && Counts(lib, ss[i])
    requires k < |t.specimens| && t.specimens[k].catalogNumber == out[i]
    ensures t.specimens[k].author != user
  {
    ClearOfExisting(lib, AccountOf(t, user).catalogNumbers, ss, out, i);
  }

  // --------------------------------------- dry runs that promise what commits refuse

  method SelfClashFails(imp: Importer, lib: Library, rejects: Row -> bool, user: Uuid, u: Upload)
    returns (dry: Outcome, wet: Outcome)
    requires imp.Valid() && lib.Lawful() && RefusesNothing(rejects) && Importable(lib, u) && SelfClash(lib, ArchiveOf(u))
    modifies imp
    ensures dry.Reported? && wet == TransactionFailed && imp.tables == old(imp.tables)
  {
    ghost var out, cat;
    dry, out, cat := Run(imp, lib, rejects, user, u, true);
    wet, out, cat := Run(imp, lib, rejects, user, u, false);
  }

  /** Each kind of self-clash, once: the archive validates, the dry run reports it, and the commit fails. */
  method ClashingImportFails(imp: Importer, lib: Library, rejects: Row -> bool, user: Uuid,
                             kind: Kind, x: string, y: string, name: string, blank: string)
    returns (dry: Outcome, wet: Outcome)
    requires lib.validUuid(x) && lib.validUuid(y) && x != y && !lib.blank(name) && lib.blank(blank)
    requires lib.typeData("mineral", "{}").Some? && lib.Lawful() && RefusesNothing(rejects) && imp.Valid()
    modifies imp
    ensures dry.Reported? && wet == TransactionFailed && imp.tables == old(imp.tables)
  {
    var u := Upload(APPLICATION, SCHEMA_VERSION, Some(Clashing(kind, x, y, name, blank)), _ => true);
    ClashingValidates(lib, kind, x, y, name, blank);
    dry, wet := SelfClashFails(imp, lib, rejects, user, u);
  }

  const EMPTY := Tables([], [], [], [], [], [], [], [], [])

  /** An archive that leaves a name or a blank number behind, which it brings along again. */
  ghost predicate LeavesKeys(lib: Library, a: Archive) {
    |a.collectors| > 0
    || exists i :: 0 <= i < |a.specimens| && !Counts(lib, a.specimens[i]) && a.specimens[i].catalogNumber.Some?
  }

  lemma StoredNameRefuses(db: Database, r: CollectorRow, k: nat)
    requires k < |db.stored.collectors| && db.stored.collectors[k].name == r.name
    ensures CollectorRefused(db)(r)
  {
    assert SameName(db.stored.collectors[k], r);
    assert Taken(db.stored.collectors, r, SameName);
  }

  lemma StoredNumberRefuses(db: Database, r: SpecimenRow, k: nat)
    requires k < |db.stored.specimens| && r.catalogNumber.Some? && db.stored.specimens[k].catalogNumber == r.catalogNumber
    ensures SpecimenRefused(db)(r)
  {
    assert SameNumber(db.stored.specimens[k], r);
    assert Taken(db.stored.specimens, r, SameNumber);
  }

  lemma StoredRefuses(lib: Library, db: Database, user: Uuid, a: Archive, out: seq<Option<string>>,
                      cat: map<string, Option<string>>, skip: bool, base: nat)
    requires StoredClash(db.stored, a, out) && CatalogApplied(a, out, cat)
    ensures !Accepted(lib, db, user, a, cat, skip, base)
  {
    if NameStored(db.stored, a) {
      var i, k :| 0 <= i < |a.collectors| && 0 <= k < |db.stored.collectors| && db.stored.collectors[k].name == a.collectors[i].name;
      StoredNameRefuses(db, CollectorRows(user, a, base)[i], k);
    } else {
      var i, k :| 0 <= i < |out| && 0 <= k < |db.stored.specimens| && out[i].Some? && db.stored.specimens[k].catalogNumber == out[i];
      StoredNumberRefuses(db, SpecimenRows(lib, user, a, FileMap(a, base), cat, SpecimenBase(a, base))[i], k);
    }
  }

  lemma ImportLeavesKeys(lib: Library, user: Uuid, a: Archive, cat: map<string, Option<string>>, skip: bool, base: nat,
                         before: Tables, existing: set<string>, out: seq<Option<string>>, existing': set<string>, out': seq<Option<string>>)
    requires LeavesKeys(lib, a) && CatalogApplied(a, out, cat)
    requires Resolution(lib, existing, a.specimens, out) && Resolution(lib, existing', a.specimens, out')
    ensures StoredClash(Append(before, Created(lib, user, a, cat, skip, base)), a, out')
  {
    var t := Append(before, Created(lib, user, a, cat, skip, base));
    if |a.collectors| > 0 {
      assert t.collectors[|before.collectors|].name == a.collectors[0].name;
    } else {
      var i :| 0 <= i < |a.specimens| && !Counts(lib, a.specimens[i]) && a.specimens[i].catalogNumber.Some?;
      assert ResolvedAt(lib, existing, a.specimens, out, i) && ResolvedAt(lib, existing', a.specimens, out', i);
      assert t.specimens[|before.specimens| + i].catalogNumber == out'[i];
    }
  }

  /**
   Such an archive is imported at most once, by anybody, whatever else the database does: after
   a commit every further commit fails, while its dry run reports success. The first commit
   succeeds on empty tables unless the archive clashes with itself.
   */
  method SecondImportFails(imp: Importer, lib: Library, rejects: Row -> bool, user: Uuid, other: Uuid, u: Upload)
    returns (first: Outcome, dry: Outcome, second: Outcome)
    requires imp.Valid() && Importable(lib, u) && LeavesKeys(lib, ArchiveOf(u))
    modifies imp
    ensures first.Reported? ==> dry.Reported? && second == TransactionFailed
    ensures lib.Lawful() && RefusesNothing(rejects) && old(imp.tables) == EMPTY && !SelfClash(lib, ArchiveOf(u)) ==> first.Reported?
  {
    ghost var out, cat, out', cat';
    ghost var before, base := imp.tables, imp.nextId;
    first, out, cat := Run(imp, lib, rejects, user, u, false);
    ghost var t := imp.tables;
    dry, out', cat' := Run(imp, lib, rejects, other, u, true);
    ghost var next := imp.nextId;
    second, out', cat' := Run(imp, lib, rejects, other, u, false);
    if first.Reported? {
      ghost var a := ArchiveOf(u);
      ImportLeavesKeys(lib, user, a, cat, SkipsSheet(AccountOf(before, user), a), base, before,
                       AccountOf(before, user).catalogNumbers, out, AccountOf(t, other).catalogNumbers, out');
      StoredRefuses(lib, Database(t, rejects), other, a, out', cat', SkipsSheet(AccountOf(t, other), a), next);
    }
  }

  lemma OneCollectorExists(lib: Library, x: string, name: string) returns (u: Upload)
    requires lib.validUuid(x) && !lib.blank(name)
    ensures Importable(lib, u) && LeavesKeys(lib, ArchiveOf(u)) && !SelfClash(lib, ArchiveOf(u))
  {
    u := Upload(APPLICATION, SCHEMA_VERSION, Some(Archive([CollectorRecord(x, name, "")], [], [], [], [], [])), _ => true);
  }

  /** An archive of one specimen, under this number, that could be imported. */
  ghost predicate OneSpecimen(lib: Library, u: Upload, number: string) {
    && Importable(lib, u) && !SelfClash(lib, ArchiveOf(u))
    && ArchiveOf(u).collectors == [] && |ArchiveOf(u).specimens| == 1
    && ArchiveOf(u).specimens[0].catalogNumber == Some(number)
  }

  lemma OneSpecimenExists(lib: Library, x: string, number: string) returns (u: Upload)
    requires lib.validUuid(x) && lib.typeData("mineral", "{}").Some?
    ensures OneSpecimen(lib, u, number)
  {
    u := Upload(APPLICATION, SCHEMA_VERSION, Some(Archive([], [], [Plain(x, Some(number), [])], [], [], [])), _ => true);
  }

  /** A number the account does not use is imported as it is. */
  lemma AloneUnchanged(lib: Library, t: Tables, user: Uuid, u: Upload, number: string, out: seq<Option<string>>)
    requires OneSpecimen(lib, u, number)
    requires Resolution(lib, AccountOf(t, user).catalogNumbers, ArchiveOf(u).specimens, out)
    requires forall r :: r in t.specimens ==> r.author != user
    ensures out == [Some(number)] && ConflictsOf(ArchiveOf(u).specimens, out) == []
  {
    var ss := ArchiveOf(u).specimens;
    assert AccountOf(t, user).catalogNumbers == {};
    assert ResolvedAt(lib, {}, ss, out, 0);
    assert out[..0] == [] && ss[..0] == [];
  }

  lemma OneSpecimenStored(lib: Library, user: Uuid, u: Upload, number: string, cat: map<string, Option<string>>, skip: bool, base: nat, out: seq<Option<string>>)
    requires OneSpecimen(lib, u, number) && out == [Some(number)] && CatalogApplied(ArchiveOf(u), out, cat)
    ensures var t := Append(EMPTY, Created(lib, user, ArchiveOf(u), cat, skip, base));
            NumberStored(t, out) && forall r :: r in t.specimens ==> r.author == user
  {
    var t := Append(EMPTY, Created(lib, user, ArchiveOf(u), cat, skip, base));
    assert t.specimens[0].catalogNumber == out[0];
  }

  method ImportFirst(imp: Importer, lib: Library, rejects: Row -> bool, user: Uuid, u: Upload, number: string)
    returns (first: Outcome)
    requires imp.Valid() && imp.tables == EMPTY && OneSpecimen(lib, u, number) && lib.Lawful() && RefusesNothing(rejects)
    modifies imp
    ensures imp.Valid() && first.Reported?
    ensures NumberStored(imp.tables, [Some(number)]) && forall r :: r in imp.tables.specimens ==> r.author == user
  {
    ghost var out, cat, base := [], map[], imp.nextId;
    first, out, cat := Run(imp, lib, rejects, user, u, false);
    AloneUnchanged(lib, EMPTY, user, u, number, out);
    OneSpecimenStored(lib, user, u, number, cat, SkipsSheet(AccountOf(EMPTY, user), ArchiveOf(u)), base, out);
  }

  /** A number in use, but not by this account: the dry run shows no conflict, and the commit fails. */
  method ImportStored(imp: Importer, lib: Library, rejects: Row -> bool, user: Uuid, u: Upload, number: string)
    returns (dry: Outcome, wet: Outcome)
    requires imp.Valid() && OneSpecimen(lib, u, number) && lib.Lawful() && RefusesNothing(rejects)
    requires NumberStored(imp.tables, [Some(number)]) && forall r :: r in imp.tables.specimens ==> r.author != user
    modifies imp
    ensures dry.Reported? && dry.report.conflicts == [] && wet == TransactionFailed
  {
    ghost var t, out, cat := imp.tables, [], map[];
    dry, out, cat := Run(imp, lib, rejects, user, u, true);
    AloneUnchanged(lib, t, user, u, number, out);
    wet, out, cat := Run(imp, lib, rejects, user, u, false);
    AloneUnchanged(lib, t, user, u, number, out);
  }

  /**
   Another account's catalog number: the first account imports a specimen, the second gets a dry
   run without a conflict, and its commit fails.
   */
  method ForeignNumberFails(imp: Importer, lib: Library, rejects: Row -> bool, user: Uuid, other: Uuid, u: Upload, number: string)
    returns (first: Outcome, dry: Outcome, second: Outcome)
    requires imp.Valid() && imp.tables == EMPTY && user != other
    requires OneSpecimen(lib, u, number) && lib.Lawful() && RefusesNothing(rejects)
    modifies imp
    ensures first.Reported? && dry.Reported? && dry.report.conflicts == [] && second == TransactionFailed
  {
    first := ImportFirst(imp, lib, rejects, user, u, number);
    dry, second := ImportStored(imp, lib, rejects, other, u, number);
  }

  /** A dry run reports the counts, conflicts and warnings the commit will report from the same state. */
  lemma DryRunForetellsCommit(lib: Library, account: Account, a: Archive,
                              out: seq<Option<string>>, dry: Report, out': seq<Option<string>>, wet: Report)
    requires Foretold(lib, account, a, out, dry) && Foretold(lib, account, a, out', wet)
    ensures out == out'
    ensures dry.counts == wet.counts && dry.conflicts == wet.conflicts && dry.sheetSkipped == wet.sheetSkipped
  {
    ResolutionUnique(lib, account.catalogNumbers, a.specimens, out, out', |a.specimens|);
    assert out[..|a.specimens|] == out && out'[..|a.specimens|] == out';
  }
}
