/**
 Right-to-erasure of one account: the ordered deletes of one transaction over a relational
 database with RESTRICT, CASCADE and SET NULL foreign keys
 (internal/db/account_erase_postgres.go; the constraints are in migrations 0001 to 0011).
 */
module AccountErasure {
  import opened Options

  type Id = nat

  /** `columns` stands for the columns no foreign key or query of the erasure looks at. */
  datatype Specimen = Specimen(author: Id, mainImage: Option<Id>, columns: string)
  datatype File = File(s3Key: string, uploadedBy: Id)
  datatype Photo = Photo(specimen: Id, file: Id)
  datatype JournalEntry = JournalEntry(specimen: Id, author: Id)
  datatype Species = Species(author: Id, columns: string)
  datatype QrMember = QrMember(sheet: Id, specimen: Id)
  datatype Share = Share(sharedBy: Id, sharedWith: Id)

  datatype Db = Db(
    users: set<Id>,
    specimens: map<Id, Specimen>,
    collectors: map<Id, Id>,           // author
    files: map<Id, File>,
    photos: map<Id, Photo>,
    journal: map<Id, JournalEntry>,
    journalFiles: set<(Id, Id)>,       // (entry, file)
    specimenCollectors: set<(Id, Id)>, // (specimen, collector)
    species: map<Id, Species>,
    qrSheets: map<Id, Id>,             // owner
    qrMembers: map<Id, QrMember>,
    shares: map<Id, Share>)

  const STUB_USER: Id := 1

  // -------------------------------------------------------------- constraints

  /** Every foreign key that points at users. */
  ghost predicate UserKeys(db: Db) {
    && (forall s :: s in db.specimens ==> db.specimens[s].author in db.users)
    && (forall c :: c in db.collectors ==> db.collectors[c] in db.users)
    && (forall f :: f in db.files ==> db.files[f].uploadedBy in db.users)
    && (forall e :: e in db.journal ==> db.journal[e].author in db.users)
    && (forall m :: m in db.species ==> db.species[m].author in db.users)
    && (forall q :: q in db.qrSheets ==> db.qrSheets[q] in db.users)
    && (forall h :: h in db.shares ==> db.shares[h].sharedBy in db.users && db.shares[h].sharedWith in db.users)
  }

  /** Every foreign key that points at specimens, their journal entries, or QR sheets. */
  ghost predicate SpecimenKeys(db: Db) {
    && (forall p :: p in db.photos ==> db.photos[p].specimen in db.specimens)
    && (forall e :: e in db.journal ==> db.journal[e].specimen in db.specimens)
    && (forall l :: l in db.journalFiles ==> l.0 in db.journal)
    && (forall l :: l in db.specimenCollectors ==> l.0 in db.specimens)
    && (forall m :: m in db.qrMembers ==>
          db.qrMembers[m].specimen in db.specimens && db.qrMembers[m].sheet in db.qrSheets)
  }

  /** Every foreign key that points at files or collectors. */
  ghost predicate FileKeys(db: Db) {
    && (forall p :: p in db.photos ==> db.photos[p].file in db.files)
    && (forall l :: l in db.journalFiles ==> l.1 in db.files)
    && (forall s :: s in db.specimens && db.specimens[s].mainImage.Some? ==>
          db.specimens[s].mainImage.value in db.files)
    && (forall l :: l in db.specimenCollectors ==> l.1 in db.collectors)
  }

  ghost predicate ForeignKeys(db: Db) {
    UserKeys(db) && SpecimenKeys(db) && FileKeys(db)
  }

  /** UNIQUE (files.s3_key). */
  ghost predicate UniqueObjectKeys(db: Db) {
    forall f, g :: f in db.files && g in db.files && db.files[f].s3Key == db.files[g].s3Key ==> f == g
  }

  // --------------------------------------------------------------- statements

  /** A statement changes the database and reports a row count, or violates a foreign key. */
  datatype Exec = Done(db: Db, rows: nat) | Violation

  function OwnSpecimens(db: Db, u: Id): set<Id> {
    set s | s in db.specimens && db.specimens[s].author == u
  }

  function OwnFiles(db: Db, u: Id): set<Id> {
    set f | f in db.files && db.files[f].uploadedBy == u
  }

  function OwnCollectors(db: Db, u: Id): set<Id> {
    set c | c in db.collectors && db.collectors[c] == u
  }

  function OwnSheets(db: Db, u: Id): set<Id> {
    set q | q in db.qrSheets && db.qrSheets[q] == u
  }

  function OwnSpecies(db: Db, u: Id): set<Id> {
    set m | m in db.species && db.species[m].author == u
  }

  function OwnEntries(db: Db, u: Id): set<Id> {
    set e | e in db.journal && db.journal[e].author == u
  }

  /** photos JOIN specimens ON specimen_id WHERE author_id = u. */
  function OwnPhotos(db: Db, u: Id): set<Id> {
    set p | p in db.photos && db.photos[p].specimen in db.specimens && db.specimens[db.photos[p].specimen].author == u
  }

  /** DELETE FROM qr_sheets WHERE user_id = u; memberships cascade. */
  function DeleteSheets(db: Db, u: Id): Exec {
    var gone := OwnSheets(db, u);
    Done(db.(qrSheets := db.qrSheets - gone,
             qrMembers := map m | m in db.qrMembers && db.qrMembers[m].sheet !in gone :: db.qrMembers[m]), |gone|)
  }

  /** DELETE FROM specimens WHERE author_id = u; five tables cascade, journal_entry_files at one remove. */
  function DeleteSpecimens(db: Db, u: Id): Exec {
    var gone := OwnSpecimens(db, u);
    var goneEntries := set e | e in db.journal && db.journal[e].specimen in gone;
    Done(db.(specimens := db.specimens - gone,
             photos := map p | p in db.photos && db.photos[p].specimen !in gone :: db.photos[p],
             journal := db.journal - goneEntries,
             journalFiles := (set l | l in db.journalFiles && l.0 !in goneEntries),
             specimenCollectors := (set l | l in db.specimenCollectors && l.0 !in gone),
             qrMembers := map m | m in db.qrMembers && db.qrMembers[m].specimen !in gone :: db.qrMembers[m]), |gone|)
  }

  /** DELETE FROM files WHERE uploaded_by = u; photos and attachments RESTRICT, main_image_id SET NULL. */
  function DeleteFiles(db: Db, u: Id): Exec {
    var gone := OwnFiles(db, u);
    if (exists p :: p in db.photos && db.photos[p].file in gone) || (exists l :: l in db.journalFiles && l.1 in gone)
    then Violation
    else Done(db.(files := db.files - gone,
                  specimens := map s | s in db.specimens :: WithoutImage(db.specimens[s], gone)), |gone|)
  }

  function WithoutImage(s: Specimen, gone: set<Id>): Specimen {
    if s.mainImage.Some? && s.mainImage.value in gone then s.(mainImage := None) else s
  }

  /** DELETE FROM collectors WHERE author_id = u; specimen_collectors RESTRICT. */
  function DeleteCollectors(db: Db, u: Id): Exec {
    var gone := OwnCollectors(db, u);
    if exists l :: l in db.specimenCollectors && l.1 in gone
    then Violation
    else Done(db.(collectors := db.collectors - gone), |gone|)
  }

  /** UPDATE mineral_species SET author_id = stub WHERE author_id = u. */
  function ReassignSpecies(db: Db, u: Id): Exec {
    var mine := OwnSpecies(db, u);
    if mine != {} && STUB_USER !in db.users
    then Violation
    else Done(db.(species := map m | m in db.species :: Reassigned(db.species[m], u)), |mine|)
  }

  function Reassigned(m: Species, u: Id): Species {
    if m.author == u then m.(author := STUB_USER) else m
  }

  /** DELETE FROM users WHERE id = u; author columns RESTRICT, shares cascade. */
  function DeleteUser(db: Db, u: Id): Exec {
    if OwnSpecimens(db, u) != {} || OwnCollectors(db, u) != {} || OwnFiles(db, u) != {}
       || OwnEntries(db, u) != {} || OwnSpecies(db, u) != {} || OwnSheets(db, u) != {}
    then Violation
    else Done(db.(users := db.users - {u},
                  shares := map h | h in db.shares && db.shares[h].sharedBy != u && db.shares[h].sharedWith != u
                              :: db.shares[h]),
              if u in db.users then 1 else 0)
  }

  // -------------------------------------------------- what an erasure must be

  /** A row that outlives the account holds on to something the account must give up. */
  ghost predicate PhotoHoldsFile(db: Db, u: Id, p: Id) {
    p in db.photos && p !in OwnPhotos(db, u) && db.photos[p].file in OwnFiles(db, u)
  }

  ghost predicate AttachmentHoldsFile(db: Db, u: Id, l: (Id, Id)) {
    && l in db.journalFiles && l.1 in OwnFiles(db, u)
    && !(l.0 in db.journal && db.journal[l.0].specimen in OwnSpecimens(db, u))
  }

  ghost predicate ChainHoldsCollector(db: Db, u: Id, l: (Id, Id)) {
    l in db.specimenCollectors && l.1 in OwnCollectors(db, u) && l.0 !in OwnSpecimens(db, u)
  }

  ghost predicate EntryHoldsUser(db: Db, u: Id, e: Id) {
    e in OwnEntries(db, u) && db.journal[e].specimen !in OwnSpecimens(db, u)
  }

  ghost predicate FilesHeld(db: Db, u: Id) {
    (exists p :: PhotoHoldsFile(db, u, p)) || (exists l :: AttachmentHoldsFile(db, u, l))
  }

  ghost predicate CollectorsHeld(db: Db, u: Id) {
    exists l :: ChainHoldsCollector(db, u, l)
  }

  ghost predicate UserHeld(db: Db, u: Id) {
    exists e :: EntryHoldsUser(db, u, e)
  }

  /** Someone must take over the account's mineral species. */
  ghost predicate SpeciesStranded(db: Db, u: Id) {
    OwnSpecies(db, u) != {} && STUB_USER !in db.users
  }

  ghost predicate Blocked(db: Db, u: Id) {
    FilesHeld(db, u) || CollectorsHeld(db, u) || SpeciesStranded(db, u) || UserHeld(db, u)
  }

  /** Entries on the account's specimens, whoever wrote them. */
  function GoneEntries(db: Db, u: Id): set<Id> {
    set e | e in db.journal && db.journal[e].specimen in OwnSpecimens(db, u)
  }

  /** Memberships of surviving specimens on surviving sheets. */
  function KeptMembers(db: Db, u: Id): map<Id, QrMember> {
    map m | m in db.qrMembers && db.qrMembers[m].sheet !in OwnSheets(db, u)
            && db.qrMembers[m].specimen !in OwnSpecimens(db, u) :: db.qrMembers[m]
  }

  /** The database without the account: a definition by what survives, not by statements. */
  function Erased(db: Db, u: Id): Db {
    var mySpecimens, myFiles := OwnSpecimens(db, u), OwnFiles(db, u);
    var goneEntries := GoneEntries(db, u);
    Db(db.users - {u},
       map s | s in db.specimens && s !in mySpecimens :: WithoutImage(db.specimens[s], myFiles),
       map c | c in db.collectors && db.collectors[c] != u :: db.collectors[c],
       map f | f in db.files && db.files[f].uploadedBy != u :: db.files[f],
       map p | p in db.photos && db.photos[p].specimen !in mySpecimens :: db.photos[p],
       map e | e in db.journal && e !in goneEntries :: db.journal[e],
       (set l | l in db.journalFiles && l.0 !in goneEntries),
       (set l | l in db.specimenCollectors && l.0 !in mySpecimens),
       map m | m in db.species :: Reassigned(db.species[m], u),
       map q | q in db.qrSheets && db.qrSheets[q] != u :: db.qrSheets[q],
       KeptMembers(db, u),
       map h | h in db.shares && db.shares[h].sharedBy != u && db.shares[h].sharedWith != u :: db.shares[h])
  }

  // --------------------------------------------- the statements one by one

  /** The state after the two statements that cannot fail. */
  function Cascaded(db: Db, u: Id): Db {
    DeleteSpecimens(DeleteSheets(db, u).db, u).db
  }

  lemma CascadeStatements(db: Db, u: Id)
    ensures DeleteSheets(db, u).rows == |OwnSheets(db, u)|
    ensures DeleteSpecimens(DeleteSheets(db, u).db, u).rows == |OwnSpecimens(db, u)|
  {
    assert OwnSpecimens(DeleteSheets(db, u).db, u) == OwnSpecimens(db, u);
  }

  lemma FilesStatement(db: Db, u: Id)
    ensures DeleteFiles(Cascaded(db, u), u).Violation? <==> FilesHeld(db, u)
    ensures DeleteFiles(Cascaded(db, u), u).Done? ==> DeleteFiles(Cascaded(db, u), u).rows == |OwnFiles(db, u)|
  {
    var db' := Cascaded(db, u);
    assert OwnSpecimens(DeleteSheets(db, u).db, u) == OwnSpecimens(db, u);
    assert OwnFiles(db', u) == OwnFiles(db, u);
    forall p
      ensures (p in db'.photos && db'.photos[p].file in OwnFiles(db, u)) <==> PhotoHoldsFile(db, u, p)
    {}
    forall l
      ensures (l in db'.journalFiles && l.1 in OwnFiles(db, u)) <==> AttachmentHoldsFile(db, u, l)
    {}
  }

  lemma CollectorsStatement(db: Db, u: Id, db': Db)
    requires DeleteFiles(Cascaded(db, u), u).Done? && db' == DeleteFiles(Cascaded(db, u), u).db
    ensures DeleteCollectors(db', u).Violation? <==> CollectorsHeld(db, u)
    ensures DeleteCollectors(db', u).Done? ==> DeleteCollectors(db', u).rows == |OwnCollectors(db, u)|
  {
    assert OwnSpecimens(DeleteSheets(db, u).db, u) == OwnSpecimens(db, u);
    assert OwnCollectors(db', u) == OwnCollectors(db, u);
    forall l
      ensures (l in db'.specimenCollectors && l.1 in OwnCollectors(db, u)) <==> ChainHoldsCollector(db, u, l)
    {}
  }

  lemma SpeciesStatement(db: Db, u: Id, db': Db)
    requires db'.species == db.species && db'.users == db.users
    ensures ReassignSpecies(db', u).Violation? <==> SpeciesStranded(db, u)
    ensures ReassignSpecies(db', u).Done? ==> ReassignSpecies(db', u).rows == |OwnSpecies(db, u)|
  {
    assert OwnSpecies(db', u) == OwnSpecies(db, u);
  }

  /** db' is the state in which the user row itself is deleted. */
  ghost predicate LastStage(db: Db, u: Id, db': Db) {
    && DeleteFiles(Cascaded(db, u), u).Done?
    && db' == DeleteFiles(Cascaded(db, u), u).db.(
                collectors := db.collectors - OwnCollectors(db, u),
                species := map m | m in db.species :: Reassigned(db.species[m], u))
  }

  lemma LastStageOwnsNothing(db: Db, u: Id, db': Db)
    requires u != STUB_USER && LastStage(db, u, db')
    ensures OwnSpecimens(db', u) == OwnSheets(db', u) == OwnFiles(db', u) == {}
    ensures OwnCollectors(db', u) == OwnSpecies(db', u) == {}
  {
    CascadedOwns(db, u);
    FilesOwned(Cascaded(db, u), u);
  }

  lemma CascadedOwns(db: Db, u: Id)
    ensures OwnSpecimens(Cascaded(db, u), u) == OwnSheets(Cascaded(db, u), u) == {}
  {
    assert OwnSpecimens(DeleteSheets(db, u).db, u) == OwnSpecimens(db, u);
  }

  lemma FilesOwned(db: Db, u: Id)
    requires DeleteFiles(db, u).Done? && OwnSpecimens(db, u) == {}
    ensures OwnFiles(DeleteFiles(db, u).db, u) == OwnSpecimens(DeleteFiles(db, u).db, u) == {}
    ensures OwnSheets(DeleteFiles(db, u).db, u) == OwnSheets(db, u)
  {
    var db' := DeleteFiles(db, u).db;
    forall s | s in db'.specimens
      ensures db'.specimens[s].author != u
    {
      assert s !in OwnSpecimens(db, u);
    }
  }

  /** By the last statement, only a journal entry on somebody else's specimen can still name the user. */
  lemma UserStatement(db: Db, u: Id, db': Db)
    requires u != STUB_USER && LastStage(db, u, db')
    ensures DeleteUser(db', u).Violation? <==> UserHeld(db, u)
  {
    LastStageOwnsNothing(db, u, db');
    assert OwnSpecimens(DeleteSheets(db, u).db, u) == OwnSpecimens(db, u);
    forall e
      ensures e in OwnEntries(db', u) <==> EntryHoldsUser(db, u, e)
    {}
  }

  lemma FinalSpecimens(db: Db, u: Id, db': Db)
    requires LastStage(db, u, db')
    ensures db'.specimens == Erased(db, u).specimens && db'.files == Erased(db, u).files
    ensures db'.collectors == Erased(db, u).collectors
  {
    assert OwnSpecimens(DeleteSheets(db, u).db, u) == OwnSpecimens(db, u);
    assert OwnFiles(Cascaded(db, u), u) == OwnFiles(db, u);
  }

  lemma FinalCascades(db: Db, u: Id, db': Db)
    requires LastStage(db, u, db')
    ensures db'.photos == Erased(db, u).photos && db'.journal == Erased(db, u).journal
    ensures db'.journalFiles == Erased(db, u).journalFiles
    ensures db'.specimenCollectors == Erased(db, u).specimenCollectors
  {
    assert OwnSpecimens(DeleteSheets(db, u).db, u) == OwnSpecimens(db, u);
  }

  lemma FinalSheets(db: Db, u: Id, db': Db)
    requires LastStage(db, u, db')
    ensures db'.qrSheets == Erased(db, u).qrSheets && db'.qrMembers == Erased(db, u).qrMembers
  {
    CascadedMembers(db, u);
    assert db.qrSheets - OwnSheets(db, u) == map q | q in db.qrSheets && db.qrSheets[q] != u :: db.qrSheets[q];
  }

  lemma CascadedMembers(db: Db, u: Id)
    ensures Cascaded(db, u).qrMembers == KeptMembers(db, u)
  {
    assert OwnSpecimens(DeleteSheets(db, u).db, u) == OwnSpecimens(db, u);
  }

  lemma FinalState(db: Db, u: Id, db': Db)
    requires LastStage(db, u, db') && DeleteUser(db', u).Done?
    ensures DeleteUser(db', u).db == Erased(db, u)
  {
    FinalSpecimens(db, u, db');
    FinalCascades(db, u, db');
    FinalSheets(db, u, db');
    assert db'.species == Erased(db, u).species && db'.users == db.users && db'.shares == db.shares;
  }

  // ------------------------------------------------- uploads while it runs

  function WithFiles(db: Db, more: map<Id, File>): Db {
    db.(files := db.files + more)
  }

  function Uploads(more: map<Id, File>, u: Id): set<Id> {
    set f | f in more && more[f].uploadedBy == u
  }

  lemma NoUploads(db: Db)
    ensures WithFiles(db, map[]) == db
  {
    assert db.files + map[] == db.files;
  }

  /** The cascading deletes do not look at files. */
  lemma CascadeCommutes(db: Db, u: Id, more: map<Id, File>)
    ensures Cascaded(WithFiles(db, more), u) == WithFiles(Cascaded(db, u), more)
  {
    var db' := WithFiles(db, more);
    assert OwnSheets(db', u) == OwnSheets(db, u);
    assert DeleteSheets(db', u).db == WithFiles(DeleteSheets(db, u).db, more);
    assert OwnSpecimens(DeleteSheets(db', u).db, u) == OwnSpecimens(DeleteSheets(db, u).db, u);
  }

  lemma EarlyCounts(db: Db, u: Id, early: map<Id, File>)
    ensures OwnCollectors(WithFiles(db, early), u) == OwnCollectors(db, u)
    ensures OwnSpecies(WithFiles(db, early), u) == OwnSpecies(db, u)
  {}

  lemma LateOwn(db: Db, u: Id, late: map<Id, File>)
    requires late.Keys !! db.files.Keys
    ensures OwnFiles(WithFiles(db, late), u) == OwnFiles(db, u) + Uploads(late, u)
  {}

  lemma DeleteUserAmid(db: Db, u: Id, late: map<Id, File>)
    requires late.Keys !! db.files.Keys
    ensures DeleteUser(WithFiles(db, late), u).Violation? <==> DeleteUser(db, u).Violation? || Uploads(late, u) != {}
    ensures DeleteUser(WithFiles(db, late), u).Done? ==>
              && DeleteUser(WithFiles(db, late), u).db == WithFiles(DeleteUser(db, u).db, late)
              && (DeleteUser(WithFiles(db, late), u).rows == 0 <==> u !in db.users)
  {
    LateOwn(db, u, late);
  }

  /** A late upload by the account keeps its user row; others' pass by. */
  lemma LateUserStatement(db: Db, u: Id, db': Db, late: map<Id, File>)
    requires u != STUB_USER && LastStage(db, u, db') && late.Keys !! db.files.Keys
    ensures DeleteUser(WithFiles(db', late), u).Violation? <==> UserHeld(db, u) || Uploads(late, u) != {}
    ensures DeleteUser(WithFiles(db', late), u).Done? ==>
              && DeleteUser(WithFiles(db', late), u).db == WithFiles(Erased(db, u), late)
              && (DeleteUser(WithFiles(db', late), u).rows == 0 <==> u !in db.users)
  {
    UserStatement(db, u, db');
    DeleteUserAmid(db', u, late);
    if DeleteUser(WithFiles(db', late), u).Done? { FinalState(db, u, db'); }
  }

  // ------------------------------------------------------------- the operation

  datatype Summary = Summary(
    freedObjectKeys: seq<string>,
    specimens: nat, photos: nat, journalEntries: nat, collectors: nat, files: nat,
    qrSheets: nat, reassignedSpecies: nat)

  datatype Outcome = Erasure(summary: Summary) | StubUserUndeletable | UserNotFound | ForeignKeyViolation

  /** The keys of exactly the user's files, one per file. */
  ghost predicate KeysOf(db: Db, u: Id, keys: seq<string>) {
    && |keys| == |OwnFiles(db, u)|
    && (forall f :: f in OwnFiles(db, u) ==> db.files[f].s3Key in keys)
    && (forall k :: k in keys ==> exists f :: f in OwnFiles(db, u) && db.files[f].s3Key == k)
    && (UniqueObjectKeys(db) ==> forall i, j :: 0 <= i < j < |keys| ==> keys[i] != keys[j])
  }

  lemma AddKey(db: Db, u: Id, keys: seq<string>, todo: set<Id>, f: Id)
    requires f in todo && todo <= OwnFiles(db, u)
    requires forall k :: k in keys ==> exists g :: g in OwnFiles(db, u) - todo && db.files[g].s3Key == k
    ensures forall k :: k in keys + [db.files[f].s3Key] ==>
              exists g :: g in OwnFiles(db, u) - (todo - {f}) && db.files[g].s3Key == k
    ensures UniqueObjectKeys(db) ==> db.files[f].s3Key !in keys
  {
    forall k | k in keys + [db.files[f].s3Key]
      ensures exists g :: g in OwnFiles(db, u) - (todo - {f}) && db.files[g].s3Key == k
    {
      if k in keys {
        var g :| g in OwnFiles(db, u) - todo && db.files[g].s3Key == k;
        assert g in OwnFiles(db, u) - (todo - {f});
      } else {
        assert f in OwnFiles(db, u) - (todo - {f});
      }
    }
  }

  class Pool {
    var db: Db

    constructor (initial: Db)
      ensures db == initial
    {
      db := initial;
    }

    method CollectFileKeys(tx: Db, u: Id) returns (keys: seq<string>)
      ensures KeysOf(tx, u, keys)
    {
      keys := [];
      var todo := OwnFiles(tx, u);
      while todo != {}
        invariant todo <= OwnFiles(tx, u) && |keys| + |todo| == |OwnFiles(tx, u)|
        invariant forall f :: f in OwnFiles(tx, u) && f !in todo ==> tx.files[f].s3Key in keys
        invariant forall k :: k in keys ==> exists f :: f in OwnFiles(tx, u) - todo && tx.files[f].s3Key == k
        invariant UniqueObjectKeys(tx) ==> forall i, j :: 0 <= i < j < |keys| ==> keys[i] != keys[j]
        decreases |todo|
      {
        var f :| f in todo;
        AddKey(tx, u, keys, todo, f);
        todo := todo - {f};
        keys := keys + [tx.files[f].s3Key];
      }
    }

    /**
     The transaction at READ COMMITTED, with files rows that other transactions commit while it
     runs: `early` ones after the keys are read and before files are deleted, `late` ones after
     that. Each statement sees what is committed by then.
     */
    method EraseAmidUploads(id: Id, early: map<Id, File>, late: map<Id, File>) returns (r: Outcome)
      requires early.Keys !! db.files.Keys && late.Keys !! db.files.Keys && early.Keys !! late.Keys
      modifies this
      ensures r == StubUserUndeletable <==> id == STUB_USER
      ensures r == UserNotFound <==> id != STUB_USER && id !in old(db).users
      ensures r == ForeignKeyViolation <==>
                id != STUB_USER && id in old(db).users && (Blocked(WithFiles(old(db), early), id) || Uploads(late, id) != {})
      ensures r == StubUserUndeletable || r == UserNotFound ==> db == old(db)
      ensures r == ForeignKeyViolation ==> db == WithFiles(WithFiles(old(db), early), late)
      ensures r.Erasure? ==> db == WithFiles(Erased(WithFiles(old(db), early), id), late)
                             && SummaryOf(old(db), |OwnFiles(WithFiles(old(db), early), id)|, id, r.summary)
    {
      if id == STUB_USER { return StubUserUndeletable; }
      if id !in db.users { return UserNotFound; }

      var keys := CollectFileKeys(db, id);
      var photos, entries := |OwnPhotos(db, id)|, |OwnEntries(db, id)|;

      var sheets := DeleteSheets(db, id);
      var specimens := DeleteSpecimens(sheets.db, id);
      CascadeStatements(db, id);

      var tx := WithFiles(specimens.db, early);
      CascadeCommutes(db, id, early);
      ghost var was := db;
      db := WithFiles(db, early);

      var files := DeleteFiles(tx, id);
      FilesStatement(db, id);
      if files.Violation? { db := WithFiles(db, late); return ForeignKeyViolation; }
      tx := files.db;

      var collectors := DeleteCollectors(tx, id);
      CollectorsStatement(db, id, tx);
      if collectors.Violation? { db := WithFiles(db, late); return ForeignKeyViolation; }
      tx := collectors.db;

      var species := ReassignSpecies(tx, id);
      SpeciesStatement(db, id, tx);
      if species.Violation? { db := WithFiles(db, late); return ForeignKeyViolation; }
      tx := species.db;

      var user := DeleteUser(WithFiles(tx, late), id);
      assert tx.collectors == db.collectors - OwnCollectors(db, id);
      LateUserStatement(db, id, tx, late);
      db := WithFiles(db, late);
      if user.Violation? { return ForeignKeyViolation; }
      if user.rows == 0 { return UserNotFound; }

      EarlyCounts(was, id, early);
      r := Erasure(Summary(keys, specimens.rows, photos, entries, collectors.rows, files.rows,
                           sheets.rows, species.rows));
      db := user.db;  // COMMIT
    }

    /**
     Succeeds exactly when nothing that survives holds on to the account, leaves the
     database untouched otherwise, and reports what was there before.
     */
    method Erase(id: Id) returns (r: Outcome)
      modifies this
      ensures r == StubUserUndeletable <==> id == STUB_USER
      ensures r == UserNotFound <==> id != STUB_USER && id !in old(db).users
      ensures r == ForeignKeyViolation <==> id != STUB_USER && id in old(db).users && Blocked(old(db), id)
      ensures !r.Erasure? ==> db == old(db)
      ensures r.Erasure? ==> db == Erased(old(db), id) && SummaryOf(old(db), |OwnFiles(old(db), id)|, id, r.summary)
    {
      NoUploads(db);
      NoUploads(Erased(db, id));
      r := EraseAmidUploads(id, map[], map[]);
    }
  }

  /** The audit summary: keys and counts read before the erasure, and the number of files deleted. */
  ghost predicate SummaryOf(db: Db, files: nat, u: Id, out: Summary) {
    && KeysOf(db, u, out.freedObjectKeys)
    && out.specimens == |OwnSpecimens(db, u)| && out.photos == |OwnPhotos(db, u)|
    && out.journalEntries == |OwnEntries(db, u)| && out.collectors == |OwnCollectors(db, u)|
    && out.files == files && out.qrSheets == |OwnSheets(db, u)|
    && out.reassignedSpecies == |OwnSpecies(db, u)|
  }

  // ------------------------------------------------ what a success guarantees

  lemma SurvivingEntries(db: Db, u: Id)
    requires !UserHeld(db, u)
    ensures forall e :: e in Erased(db, u).journal ==> db.journal[e].author != u
  {
    forall e | e in Erased(db, u).journal
      ensures db.journal[e].author != u
    {
      assert !EntryHoldsUser(db, u, e);
    }
  }

  lemma ErasedKeepsUserKeys(db: Db, u: Id)
    requires UserKeys(db) && u != STUB_USER && !UserHeld(db, u) && !SpeciesStranded(db, u)
    ensures UserKeys(Erased(db, u))
  {
    SurvivingEntries(db, u);
    forall m | m in db.species && db.species[m].author == u
      ensures STUB_USER in db.users
    {
      assert m in OwnSpecies(db, u);
    }
  }

  lemma ErasedKeepsSpecimenKeys(db: Db, u: Id)
    requires SpecimenKeys(db)
    ensures SpecimenKeys(Erased(db, u))
  {}

  lemma ErasedKeepsFileKeys(db: Db, u: Id)
    requires SpecimenKeys(db) && FileKeys(db) && !FilesHeld(db, u) && !CollectorsHeld(db, u)
    ensures FileKeys(Erased(db, u))
  {
    forall p | p in Erased(db, u).photos
      ensures db.photos[p].file !in OwnFiles(db, u)
    {
      assert !PhotoHoldsFile(db, u, p);
    }
    forall l | l in Erased(db, u).journalFiles
      ensures l.1 !in OwnFiles(db, u)
    {
      assert !AttachmentHoldsFile(db, u, l);
    }
    forall l | l in Erased(db, u).specimenCollectors
      ensures l.1 !in OwnCollectors(db, u)
    {
      assert !ChainHoldsCollector(db, u, l);
    }
  }

  /** No row of any table is owned by, shared by or shared with u, and u is gone. */
  ghost predicate Forgotten(db: Db, u: Id) {
    && u !in db.users
    && OwnSpecimens(db, u) == {} && OwnCollectors(db, u) == {} && OwnFiles(db, u) == {}
    && OwnEntries(db, u) == {} && OwnSpecies(db, u) == {} && OwnSheets(db, u) == {}
    && forall h :: h in db.shares ==> db.shares[h].sharedBy != u && db.shares[h].sharedWith != u
  }

  lemma ErasedForgets(db: Db, u: Id)
    requires u != STUB_USER && !UserHeld(db, u)
    ensures Forgotten(Erased(db, u), u)
  {
    SurvivingEntries(db, u);
  }

  /** Every mineral species stays, and nothing but an author that was u changes. */
  ghost predicate SpeciesKept(before: Db, u: Id, after: Db) {
    && after.species.Keys == before.species.Keys
    && forall m :: m in before.species ==>
         && after.species[m].columns == before.species[m].columns
         && after.species[m].author == (if before.species[m].author == u then STUB_USER else before.species[m].author)
  }

  // What is left, row by row: a table keeps exactly the rows that refer to nothing erased, as they were.

  /** s as it was, but for a main image whose file went. */
  ghost predicate SpecimenKept(before: Specimen, after: Specimen, files: map<Id, File>) {
    && after.author == before.author && after.columns == before.columns
    && after.mainImage == if before.mainImage.Some? && before.mainImage.value in files then before.mainImage else None
  }

  ghost predicate CollectionsKept(before: Db, u: Id, after: Db) {
    && after.users == before.users - {u}
    && (forall s :: s in after.specimens <==> s in before.specimens && before.specimens[s].author != u)
    && (forall s :: s in after.specimens ==> SpecimenKept(before.specimens[s], after.specimens[s], after.files))
    && (forall c :: c in after.collectors <==> c in before.collectors && before.collectors[c] != u)
    && (forall c :: c in after.collectors ==> after.collectors[c] == before.collectors[c])
    && (forall f :: f in after.files <==> f in before.files && before.files[f].uploadedBy != u)
    && (forall f :: f in after.files ==> after.files[f] == before.files[f])
  }

  ghost predicate RecordsKept(before: Db, after: Db) {
    && (forall p :: p in after.photos <==> p in before.photos && before.photos[p].specimen in after.specimens)
    && (forall p :: p in after.photos ==> after.photos[p] == before.photos[p])
    && (forall e :: e in after.journal <==> e in before.journal && before.journal[e].specimen in after.specimens)
    && (forall e :: e in after.journal ==> after.journal[e] == before.journal[e])
    && (forall l :: l in after.journalFiles <==> l in before.journalFiles && l.0 in after.journal)
    && (forall l :: l in after.specimenCollectors <==> l in before.specimenCollectors && l.0 in after.specimens)
  }

  ghost predicate SheetsKept(before: Db, u: Id, after: Db) {
    && (forall q :: q in after.qrSheets <==> q in before.qrSheets && before.qrSheets[q] != u)
    && (forall q :: q in after.qrSheets ==> after.qrSheets[q] == before.qrSheets[q])
    && (forall m :: m in after.qrMembers <==>
          && m in before.qrMembers
          && before.qrMembers[m].sheet in after.qrSheets && before.qrMembers[m].specimen in after.specimens)
    && (forall m :: m in after.qrMembers ==> after.qrMembers[m] == before.qrMembers[m])
    && (forall h :: h in after.shares <==>
          h in before.shares && before.shares[h].sharedBy != u && before.shares[h].sharedWith != u)
    && (forall h :: h in after.shares ==> after.shares[h] == before.shares[h])
  }

  ghost predicate OnlyThatGoes(before: Db, u: Id, after: Db) {
    CollectionsKept(before, u, after) && RecordsKept(before, after) && SheetsKept(before, u, after)
  }

  lemma CollectionsStay(db: Db, u: Id)
    requires FileKeys(db)
    ensures CollectionsKept(db, u, Erased(db, u))
  {
    var after := Erased(db, u);
    forall s | s in after.specimens
      ensures SpecimenKept(db.specimens[s], after.specimens[s], after.files)
    {
      ImageStays(db, u, s);
    }
  }

  lemma ImageStays(db: Db, u: Id, s: Id)
    requires FileKeys(db) && s in Erased(db, u).specimens
    ensures SpecimenKept(db.specimens[s], Erased(db, u).specimens[s], Erased(db, u).files)
  {
    var image := db.specimens[s].mainImage;
    assert image.Some? ==> image.value in db.files;
  }

  lemma RecordsStay(db: Db, u: Id)
    requires SpecimenKeys(db)
    ensures RecordsKept(db, Erased(db, u))
  {}

  lemma SheetsStay(db: Db, u: Id)
    requires SpecimenKeys(db)
    ensures SheetsKept(db, u, Erased(db, u))
  {}

  /** An erasure takes the account, what is its own and what hangs on that, and nothing else. */
  lemma OnlyThatWent(db: Db, u: Id)
    requires SpecimenKeys(db) && FileKeys(db)
    ensures OnlyThatGoes(db, u, Erased(db, u))
  {
    CollectionsStay(db, u);
    RecordsStay(db, u);
    SheetsStay(db, u);
  }

  /** The keys are those of exactly the files rows that went, each once. */
  ghost predicate FreesExactly(before: Db, after: Db, keys: seq<string>) {
    && (forall k :: k in keys <==> exists f :: f in before.files.Keys - after.files.Keys && before.files[f].s3Key == k)
    && (forall i, j :: 0 <= i < j < |keys| ==> keys[i] != keys[j])
  }

  /** The mineral species whose author changed. */
  function Reauthored(before: Db, after: Db): set<Id> {
    set m | m in before.species && m in after.species && before.species[m].author != after.species[m].author
  }

  lemma OwnAreReauthored(db: Db, u: Id)
    requires u != STUB_USER
    ensures Reauthored(db, Erased(db, u)) == OwnSpecies(db, u)
  {}

  /** The counts of the summary are the numbers of rows that went or changed hands, journal entries aside. */
  ghost predicate CountsGone(before: Db, after: Db, out: Summary) {
    && out.specimens == |before.specimens.Keys - after.specimens.Keys|
    && out.photos == |before.photos.Keys - after.photos.Keys|
    && out.collectors == |before.collectors.Keys - after.collectors.Keys|
    && out.files == |before.files.Keys - after.files.Keys|
    && out.qrSheets == |before.qrSheets.Keys - after.qrSheets.Keys|
    && out.reassignedSpecies == |Reauthored(before, after)|
  }

  /** Nobody else wrote an entry on the account's specimens. */
  ghost predicate JournalIsOwn(db: Db, u: Id) {
    forall e :: e in db.journal && db.journal[e].specimen in OwnSpecimens(db, u) ==> db.journal[e].author == u
  }

  lemma GoneRows(db: Db, u: Id)
    requires SpecimenKeys(db)
    ensures OwnFiles(db, u) == db.files.Keys - Erased(db, u).files.Keys
    ensures OwnPhotos(db, u) == db.photos.Keys - Erased(db, u).photos.Keys
    ensures OwnSpecimens(db, u) == db.specimens.Keys - Erased(db, u).specimens.Keys
    ensures OwnCollectors(db, u) == db.collectors.Keys - Erased(db, u).collectors.Keys
    ensures OwnSheets(db, u) == db.qrSheets.Keys - Erased(db, u).qrSheets.Keys
  {}

  lemma SameSizeSubset(a: set<Id>, b: set<Id>)
    requires a <= b
    ensures |a| == |b| <==> a == b
  {
    assert b == a + (b - a);
  }

  lemma OwnAmongGone(db: Db, u: Id)
    requires !UserHeld(db, u)
    ensures |OwnEntries(db, u)| == |GoneEntries(db, u)| <==> JournalIsOwn(db, u)
  {
    forall e | e in OwnEntries(db, u)
      ensures e in GoneEntries(db, u)
    {
      assert !EntryHoldsUser(db, u, e);
    }
    SameSizeSubset(OwnEntries(db, u), GoneEntries(db, u));
    if JournalIsOwn(db, u) {
      assert GoneEntries(db, u) <= OwnEntries(db, u);
    } else {
      var e :| e in db.journal && db.journal[e].specimen in OwnSpecimens(db, u) && db.journal[e].author != u;
      assert e in GoneEntries(db, u) && e !in OwnEntries(db, u);
    }
  }

  lemma GoneEntriesGo(db: Db, u: Id)
    ensures db.journal.Keys - Erased(db, u).journal.Keys == GoneEntries(db, u)
  {}

  /** The reported number of journal entries is the number of entries erased, if and only if all of them were the account's. */
  lemma JournalCountIff(db: Db, u: Id)
    requires !UserHeld(db, u)
    ensures |OwnEntries(db, u)| == |db.journal.Keys - Erased(db, u).journal.Keys| <==> JournalIsOwn(db, u)
  {
    GoneEntriesGo(db, u);
    OwnAmongGone(db, u);
  }

  lemma SummaryCounts(db: Db, u: Id, out: Summary)
    requires u != STUB_USER && SpecimenKeys(db) && UniqueObjectKeys(db) && SummaryOf(db, |OwnFiles(db, u)|, u, out)
    ensures FreesExactly(db, Erased(db, u), out.freedObjectKeys) && CountsGone(db, Erased(db, u), out)
  {
    GoneRows(db, u);
    OwnAreReauthored(db, u);
  }

  lemma SpeciesStay(db: Db, u: Id)
    ensures SpeciesKept(db, u, Erased(db, u))
  {}

  /**
   A successful erasure keeps every foreign key, leaves no row that belongs to the account,
   frees the object keys of exactly the deleted files rows, each once, hands over the mineral
   species, takes nothing else and changes no other row but for main images that went, and
   reports the numbers of rows that went. The number of journal entries is the one count that
   can be wrong: it is right exactly when nobody else wrote on the account's specimens.
   */
  lemma ErasureSound(db: Db, u: Id, out: Summary)
    requires ForeignKeys(db) && UniqueObjectKeys(db) && u != STUB_USER && !Blocked(db, u) && SummaryOf(db, |OwnFiles(db, u)|, u, out)
    ensures ForeignKeys(Erased(db, u)) && Forgotten(Erased(db, u), u) && SpeciesKept(db, u, Erased(db, u))
    ensures OnlyThatGoes(db, u, Erased(db, u))
    ensures FreesExactly(db, Erased(db, u), out.freedObjectKeys) && CountsGone(db, Erased(db, u), out)
    ensures out.journalEntries == |db.journal.Keys - Erased(db, u).journal.Keys| <==> JournalIsOwn(db, u)
  {
    ErasedKeepsUserKeys(db, u);
    ErasedKeepsSpecimenKeys(db, u);
    ErasedKeepsFileKeys(db, u);
    ErasedForgets(db, u);
    SpeciesStay(db, u);
    OnlyThatWent(db, u);
    SummaryCounts(db, u, out);
    JournalCountIff(db, u);
  }

  /** New files that nothing refers to yet never block an erasure, or unblock one. */
  lemma UploadsDoNotBlock(db: Db, u: Id, early: map<Id, File>)
    requires FileKeys(db) && early.Keys !! db.files.Keys
    ensures Blocked(WithFiles(db, early), u) <==> Blocked(db, u)
  {
    var db' := WithFiles(db, early);
    LateOwn(db, u, early);
    assert OwnSpecimens(db', u) == OwnSpecimens(db, u) && OwnPhotos(db', u) == OwnPhotos(db, u);
    assert OwnEntries(db', u) == OwnEntries(db, u) && OwnCollectors(db', u) == OwnCollectors(db, u);
    assert OwnSpecies(db', u) == OwnSpecies(db, u);
    forall p
      ensures PhotoHoldsFile(db', u, p) <==> PhotoHoldsFile(db, u, p)
    {}
    forall l
      ensures AttachmentHoldsFile(db', u, l) <==> AttachmentHoldsFile(db, u, l)
      ensures ChainHoldsCollector(db', u, l) <==> ChainHoldsCollector(db, u, l)
    {}
    forall e
      ensures EntryHoldsUser(db', u, e) <==> EntryHoldsUser(db, u, e)
    {}
  }

  /** The key of a files row that goes without being freed. */
  ghost predicate Missed(before: Db, after: Db, keys: seq<string>, k: string) {
    k !in keys && exists f :: f in before.files.Keys - after.files.Keys && before.files[f].s3Key == k
  }

  lemma DeletedFiles(db: Db, u: Id, early: map<Id, File>)
    requires early.Keys !! db.files.Keys
    ensures WithFiles(db, early).files.Keys - Erased(WithFiles(db, early), u).files.Keys == OwnFiles(db, u) + Uploads(early, u)
  {
    LateOwn(db, u, early);
  }

  lemma KeyReadOnce(all: map<Id, File>, read: set<Id>, keys: seq<string>, f: Id)
    requires read <= all.Keys && f in all && f !in read
    requires forall g, h :: g in all && h in all && all[g].s3Key == all[h].s3Key ==> g == h
    requires forall k :: k in keys ==> exists g :: g in read && all[g].s3Key == k
    ensures all[f].s3Key !in keys
  {}

  /** The keys missed are exactly those of the account's uploads after the keys were read. */
  lemma MissedKeysAreEarly(db: Db, u: Id, early: map<Id, File>, keys: seq<string>, k: string)
    requires early.Keys !! db.files.Keys && UniqueObjectKeys(WithFiles(db, early)) && KeysOf(db, u, keys)
    ensures Missed(WithFiles(db, early), Erased(WithFiles(db, early), u), keys, k) <==>
            exists f :: f in Uploads(early, u) && early[f].s3Key == k
  {
    DeletedFiles(db, u, early);
    if f :| f in Uploads(early, u) && early[f].s3Key == k {
      EarlyKeyIsMissed(db, u, early, keys, f);
    }
  }

  lemma EarlyKeyIsMissed(db: Db, u: Id, early: map<Id, File>, keys: seq<string>, f: Id)
    requires early.Keys !! db.files.Keys && UniqueObjectKeys(WithFiles(db, early)) && KeysOf(db, u, keys) && f in Uploads(early, u)
    ensures early[f].s3Key !in keys && WithFiles(db, early).files[f] == early[f]
  {
    var all := WithFiles(db, early).files;
    forall k | k in keys
      ensures exists g :: g in OwnFiles(db, u) && all[g].s3Key == k
    {
      var g :| g in OwnFiles(db, u) && db.files[g].s3Key == k;
      assert all[g] == db.files[g];
    }
    KeyReadOnce(all, OwnFiles(db, u), keys, f);
  }

  /** So every deleted object is freed, if and only if the account uploaded nothing in between. */
  lemma NothingMissedIff(db: Db, u: Id, early: map<Id, File>, keys: seq<string>)
    requires early.Keys !! db.files.Keys && UniqueObjectKeys(WithFiles(db, early)) && KeysOf(db, u, keys)
    ensures (forall k :: !Missed(WithFiles(db, early), Erased(WithFiles(db, early), u), keys, k)) <==> Uploads(early, u) == {}
  {
    forall k
      ensures Missed(WithFiles(db, early), Erased(WithFiles(db, early), u), keys, k) <==>
              exists f :: f in Uploads(early, u) && early[f].s3Key == k
    {
      MissedKeysAreEarly(db, u, early, keys, k);
    }
    if Uploads(early, u) != {} {
      var f :| f in Uploads(early, u);
      assert Missed(WithFiles(db, early), Erased(WithFiles(db, early), u), keys, early[f].s3Key);
    }
  }

  /** Account 2 owns one specimen, on which administrator 3 wrote the only entry. */
  const ANNOTATED := Db({STUB_USER, 2, 3}, map[10 := Specimen(2, None, "")], map[], map[], map[],
                        map[20 := JournalEntry(10, 3)], {}, {}, map[], map[], map[], map[])

  /** Erasing it reports no journal entry and removes one. */
  lemma JournalCountCanBeWrong(out: Summary)
    requires SummaryOf(ANNOTATED, |OwnFiles(ANNOTATED, 2)|, 2, out)
    ensures ForeignKeys(ANNOTATED) && UniqueObjectKeys(ANNOTATED) && !Blocked(ANNOTATED, 2)
    ensures out.journalEntries == 0 && ANNOTATED.journal.Keys - Erased(ANNOTATED, 2).journal.Keys == {20}
  {
    assert OwnEntries(ANNOTATED, 2) == {};
    assert OwnFiles(ANNOTATED, 2) == OwnCollectors(ANNOTATED, 2) == OwnSpecies(ANNOTATED, 2) == {};
    assert 10 in OwnSpecimens(ANNOTATED, 2);
  }

  lemma OthersKeepEntries(db: Db, u: Id, other: Id)
    ensures OwnEntries(Erased(db, u), other) == OwnEntries(db, other) - GoneEntries(db, u)
  {}

  lemma OthersKeepPhotos(db: Db, u: Id, other: Id)
    requires SpecimenKeys(db) && other != u
    ensures OwnPhotos(Erased(db, u), other) == OwnPhotos(db, other)
  {}

  /**
   Other accounts keep their rows as they are, but for main images that were the account's
   files; of their journal entries only those on the account's specimens go.
   */
  lemma OthersKeepTheirCollections(db: Db, u: Id, other: Id)
    requires SpecimenKeys(db) && other != u
    ensures OwnSpecimens(Erased(db, u), other) == OwnSpecimens(db, other)
    ensures FileKeys(db) ==> forall s :: s in OwnSpecimens(db, other) ==>
              SpecimenKept(db.specimens[s], Erased(db, u).specimens[s], Erased(db, u).files)
    ensures OwnPhotos(Erased(db, u), other) == OwnPhotos(db, other)
    ensures forall p :: p in OwnPhotos(db, other) ==> Erased(db, u).photos[p] == db.photos[p]
    ensures OwnFiles(Erased(db, u), other) == OwnFiles(db, other)
    ensures forall f :: f in OwnFiles(db, other) ==> Erased(db, u).files[f] == db.files[f]
    ensures OwnEntries(Erased(db, u), other) == OwnEntries(db, other) - GoneEntries(db, u)
  {
    OthersKeepEntries(db, u, other);
    OthersKeepPhotos(db, u, other);
    OthersKeepSpecimens(db, u, other);
    RecordsStay(db, u);
    if FileKeys(db) { CollectionsStay(db, u); }
  }

  lemma OthersKeepSpecimens(db: Db, u: Id, other: Id)
    requires other != u
    ensures OwnSpecimens(Erased(db, u), other) == OwnSpecimens(db, other)
    ensures OwnFiles(Erased(db, u), other) == OwnFiles(db, other)
  {}
}
