/** What a committed import creates is a copy of the archive's object graph. */
module ImportCopy {
  import opened Options
  import opened ArchiveFormat
  import opened ImportCheck
  import opened ImportCommit

  /** The place of an archive id in its file. */
  ghost function Index(ids: seq<string>, id: string): (k: nat)
    requires id in ids
    ensures k < |ids| && ids[k] == id
  {
    var k: nat :| k < |ids| && ids[k] == id;
    k
  }

  lemma {:induction false} IdsFromAt(ids: seq<string>, base: nat, k: nat)
    requires Distinct(ids) && k < |ids|
    ensures ids[k] in IdsFrom(ids, base) && IdsFrom(ids, base)[ids[k]] == base + k
    decreases |ids|
  {
    var n := |ids| - 1;
    if k < n {
      IdsFromAt(ids[..n], base, k);
    }
  }

  /** The new id drawn for the archive record `id`. */
  ghost predicate IsImage(ids: seq<string>, base: nat, id: string, image: Uuid) {
    id in ids && image == base + Index(ids, id)
  }

  /** No id-map lookup misses: a resolved reference finds the row made from its target. */
  lemma LookupHits(ids: seq<string>, base: nat, id: string)
    requires Distinct(ids) && id in ids
    ensures id in IdsFrom(ids, base) && IsImage(ids, base, id, Lookup(IdsFrom(ids, base), id))
  {
    IdsFromAt(ids, base, Index(ids, id));
  }

  ghost predicate IsSpecimen(a: Archive, base: nat, id: string, image: Uuid) {
    IsImage(SpecimenIds(a), SpecimenBase(a, base), id, image)
  }

  ghost predicate IsFile(a: Archive, base: nat, id: string, image: Uuid) {
    IsImage(FileIds(a), FileBase(a, base), id, image)
  }

  ghost predicate IsCollector(a: Archive, base: nat, id: string, image: Uuid) {
    IsImage(CollectorIds(a), base, id, image)
  }

  ghost predicate DistinctIds(a: Archive) {
    Distinct(CollectorIds(a)) && Distinct(FileIds(a)) && Distinct(SpecimenIds(a))
  }

  lemma ValidHasDistinctIds(lib: Library, a: Archive)
    requires RecordsValid(lib, a)
    ensures DistinctIds(a)
  {}

  // Each reference of each kind of row.

  lemma PhotosPointHome(a: Archive, base: nat, i: nat)
    requires DistinctIds(a) && ReferencesResolve(a) && i < |a.photos|
    ensures var row := PhotoRows(a, SpecimenMap(a, base), FileMap(a, base), PhotoBase(a, base))[i];
            IsSpecimen(a, base, a.photos[i].specimenId, row.specimen) && IsFile(a, base, a.photos[i].fileId, row.file)
  {
    assert PhotoRefs(a, a.photos[i]);
    LookupHits(SpecimenIds(a), SpecimenBase(a, base), a.photos[i].specimenId);
    LookupHits(FileIds(a), FileBase(a, base), a.photos[i].fileId);
  }

  lemma MainImagesPointHome(a: Archive, base: nat, i: nat)
    requires DistinctIds(a) && ReferencesResolve(a) && i < |a.specimens|
    ensures var s, image := a.specimens[i], MainImage(FileMap(a, base), a.specimens[i]);
            if s.mainImageFileId.None? then image == None
            else image.Some? && IsFile(a, base, s.mainImageFileId.value, image.value)
  {
    assert SpecimenRefs(a, a.specimens[i]);
    if a.specimens[i].mainImageFileId.Some? {
      LookupHits(FileIds(a), FileBase(a, base), a.specimens[i].mainImageFileId.value);
    }
  }

  lemma EntriesPointHome(user: Uuid, a: Archive, base: nat, i: nat)
    requires DistinctIds(a) && ReferencesResolve(a) && i < |a.journal|
    ensures IsSpecimen(a, base, a.journal[i].specimenId, EntryRows(user, a, SpecimenMap(a, base), EntryBase(a, base))[i].specimen)
  {
    assert EntryRefs(a, a.journal[i]);
    LookupHits(SpecimenIds(a), SpecimenBase(a, base), a.journal[i].specimenId);
  }

  /** row is the copy of attachment j of entry i. */
  ghost predicate CopiesAttachment(a: Archive, base: nat, i: nat, j: nat, row: AttachmentRow) {
    && i < |a.journal| && j < |a.journal[i].attachments|
    && row.entry == EntryBase(a, base) + i && row.columns == a.journal[i].attachments[j].columns
    && IsFile(a, base, a.journal[i].attachments[j].fileId, row.file)
  }

  lemma AttachmentPointsHome(a: Archive, base: nat, i: nat, j: nat)
    requires DistinctIds(a) && ReferencesResolve(a) && i < |a.journal| && j < |a.journal[i].attachments|
    ensures CopiesAttachment(a, base, i, j, AttachmentCopies(FileMap(a, base), EntryBase(a, base) + i, a.journal[i])[j])
  {
    assert EntryRefs(a, a.journal[i]);
    LookupHits(FileIds(a), FileBase(a, base), a.journal[i].attachments[j].fileId);
  }

  /** Every attachment row is the copy of an archive attachment ... */
  lemma {:induction false} AttachmentRowIsCopy(a: Archive, base: nat, n: nat, r: AttachmentRow) returns (i: nat, j: nat)
    requires DistinctIds(a) && ReferencesResolve(a) && n <= |a.journal|
    requires r in AttachmentRows(a, FileMap(a, base), EntryBase(a, base), n)
    ensures i < n && CopiesAttachment(a, base, i, j, r)
    decreases n
  {
    var last := AttachmentCopies(FileMap(a, base), EntryBase(a, base) + n - 1, a.journal[n - 1]);
    if r in last {
      i, j :| i == n - 1 && 0 <= j < |last| && last[j] == r;
      AttachmentPointsHome(a, base, i, j);
    } else {
      i, j := AttachmentRowIsCopy(a, base, n - 1, r);
    }
  }

  /** ... and every archive attachment has its copy. */
  lemma {:induction false} AttachmentIsCopied(a: Archive, base: nat, n: nat, i: nat, j: nat) returns (r: AttachmentRow)
    requires DistinctIds(a) && ReferencesResolve(a) && i < n <= |a.journal| && j < |a.journal[i].attachments|
    ensures r in AttachmentRows(a, FileMap(a, base), EntryBase(a, base), n) && CopiesAttachment(a, base, i, j, r)
    decreases n
  {
    if i < n - 1 {
      r := AttachmentIsCopied(a, base, n - 1, i, j);
    } else {
      r := AttachmentCopies(FileMap(a, base), EntryBase(a, base) + i, a.journal[i])[j];
      AttachmentPointsHome(a, base, i, j);
    }
  }

  /** row is the copy of link j of specimen i's collector chain, at position j + 1. */
  ghost predicate CopiesLink(a: Archive, base: nat, i: nat, j: nat, row: ChainRow) {
    && i < |a.specimens| && j < |a.specimens[i].collectorIds| && row.position == j + 1
    && IsSpecimen(a, base, a.specimens[i].id, row.specimen)
    && IsCollector(a, base, a.specimens[i].collectorIds[j], row.collector)
  }

  lemma LinkPointsHome(a: Archive, base: nat, i: nat, j: nat)
    requires DistinctIds(a) && ReferencesResolve(a) && i < |a.specimens| && j < |a.specimens[i].collectorIds|
    ensures CopiesLink(a, base, i, j, ChainCopies(SpecimenMap(a, base), CollectorMap(a, base), a.specimens[i])[j])
  {
    assert SpecimenRefs(a, a.specimens[i]);
    assert SpecimenIds(a)[i] in SpecimenIds(a);
    LookupHits(SpecimenIds(a), SpecimenBase(a, base), a.specimens[i].id);
    LookupHits(CollectorIds(a), base, a.specimens[i].collectorIds[j]);
  }

  /** Every chain row is the copy of an archive link ... */
  lemma {:induction false} ChainRowIsCopy(a: Archive, base: nat, n: nat, r: ChainRow) returns (i: nat, j: nat)
    requires DistinctIds(a) && ReferencesResolve(a) && n <= |a.specimens|
    requires r in ChainRows(a, SpecimenMap(a, base), CollectorMap(a, base), n)
    ensures i < n && CopiesLink(a, base, i, j, r)
    decreases n
  {
    var last := ChainCopies(SpecimenMap(a, base), CollectorMap(a, base), a.specimens[n - 1]);
    if r in last {
      i, j :| i == n - 1 && 0 <= j < |last| && last[j] == r;
      LinkPointsHome(a, base, i, j);
    } else {
      i, j := ChainRowIsCopy(a, base, n - 1, r);
    }
  }

  /** ... and every archive link has its copy. */
  lemma {:induction false} LinkIsCopied(a: Archive, base: nat, n: nat, i: nat, j: nat) returns (r: ChainRow)
    requires DistinctIds(a) && ReferencesResolve(a) && i < n <= |a.specimens| && j < |a.specimens[i].collectorIds|
    ensures r in ChainRows(a, SpecimenMap(a, base), CollectorMap(a, base), n) && CopiesLink(a, base, i, j, r)
    decreases n
  {
    if i < n - 1 {
      r := LinkIsCopied(a, base, n - 1, i, j);
    } else {
      r := ChainCopies(SpecimenMap(a, base), CollectorMap(a, base), a.specimens[i])[j];
      LinkPointsHome(a, base, i, j);
    }
  }

  // The sheet.

  ghost predicate ByPosition(ms: seq<QrMember>) {
    forall i, j :: 0 <= i < j < |ms| ==> ms[i].position <= ms[j].position
  }

  lemma {:induction false} InsertKeepsAll(ms: seq<QrMember>, m: QrMember)
    ensures multiset(InsertByPosition(ms, m)) == multiset(ms) + multiset{m}
    decreases |ms|
  {
    if ms != [] && ms[|ms| - 1].position > m.position {
      var n := |ms| - 1;
      InsertKeepsAll(ms[..n], m);
      assert ms == ms[..n] + [ms[n]];
    }
  }

  lemma InsertMember(ms: seq<QrMember>, m: QrMember, x: QrMember)
    requires x in InsertByPosition(ms, m)
    ensures x == m || x in ms
  {
    InsertKeepsAll(ms, m);
    assert x in multiset(InsertByPosition(ms, m));
    assert x in multiset(ms) || x == m;
  }

  lemma AppendByPosition(ms: seq<QrMember>, last: QrMember)
    requires ByPosition(ms) && forall x :: x in ms ==> x.position <= last.position
    ensures ByPosition(ms + [last])
  {
    assert forall i :: 0 <= i < |ms| ==> ms[i] in ms;
  }

  lemma {:induction false} InsertByPositionCorrect(ms: seq<QrMember>, m: QrMember)
    requires ByPosition(ms)
    ensures ByPosition(InsertByPosition(ms, m))
    decreases |ms|
  {
    if ms == [] {
    } else if ms[|ms| - 1].position > m.position {
      var init, last := ms[..|ms| - 1], ms[|ms| - 1];
      InsertByPositionCorrect(init, m);
      forall x | x in InsertByPosition(init, m)
        ensures x.position <= last.position
      {
        InsertMember(init, m, x);
      }
      AppendByPosition(InsertByPosition(init, m), last);
    } else {
      AppendByPosition(ms, m);
    }
  }

  /** Members are taken in position order, none lost and none invented. */
  lemma {:induction false} StableSortCorrect(ms: seq<QrMember>)
    ensures ByPosition(StableSort(ms)) && multiset(StableSort(ms)) == multiset(ms)
    decreases |ms|
  {
    if ms != [] {
      var n := |ms| - 1;
      StableSortCorrect(ms[..n]);
      InsertByPositionCorrect(StableSort(ms[..n]), ms[n]);
      InsertKeepsAll(StableSort(ms[..n]), ms[n]);
      assert ms == ms[..n] + [ms[n]];
    }
  }

  lemma {:induction false} JoinedMember(specimens: IdMap, ms: seq<QrMember>, x: Uuid)
    ensures x in Joined([], specimens, ms) <==> exists m :: m in ms && x == Lookup(specimens, m.specimenId)
    decreases |ms|
  {
    if ms != [] {
      var n := |ms| - 1;
      JoinedMember(specimens, ms[..n], x);
      assert ms == ms[..n] + [ms[n]];
    }
  }

  lemma {:induction false} JoinedDistinct(specimens: IdMap, ms: seq<QrMember>)
    ensures forall i, j :: 0 <= i < j < |Joined([], specimens, ms)| ==> Joined([], specimens, ms)[i] != Joined([], specimens, ms)[j]
    decreases |ms|
  {
    if ms != [] { JoinedDistinct(specimens, ms[..|ms| - 1]); }
  }

  lemma MemberImage(a: Archive, base: nat, m: QrMember, x: Uuid)
    requires DistinctIds(a) && m.specimenId in SpecimenIds(a)
    ensures x == Lookup(SpecimenMap(a, base), m.specimenId) <==> IsSpecimen(a, base, m.specimenId, x)
  {
    LookupHits(SpecimenIds(a), SpecimenBase(a, base), m.specimenId);
  }

  lemma SortKeepsMembers(ms: seq<QrMember>, m: QrMember)
    ensures m in StableSort(ms) <==> m in ms
  {
    StableSortCorrect(ms);
    assert m in multiset(StableSort(ms)) <==> m in multiset(ms);
  }

  /** The new sheet holds each archived member's specimen once, and nothing else. */
  lemma MembersPointHome(a: Archive, skip: bool, base: nat, x: Uuid)
    requires DistinctIds(a) && TakesSheet(a, skip) && SheetRefs(a, a.qrsheets[0])
    ensures x in Members(a, skip, base) <==>
            exists m :: m in a.qrsheets[0].specimens && IsSpecimen(a, base, m.specimenId, x)
    ensures forall i, j :: 0 <= i < j < |Members(a, skip, base)| ==> Members(a, skip, base)[i] != Members(a, skip, base)[j]
  {
    var ms := a.qrsheets[0].specimens;
    var sorted, specimens := StableSort(ms), SpecimenMap(a, base);
    JoinedMember(specimens, sorted, x);
    JoinedDistinct(specimens, sorted);
    if x in Members(a, skip, base) {
      var m :| m in sorted && x == Lookup(specimens, m.specimenId);
      SortKeepsMembers(ms, m);
      MemberImage(a, base, m, x);
    }
    if m :| m in ms && IsSpecimen(a, base, m.specimenId, x) {
      SortKeepsMembers(ms, m);
      MemberImage(a, base, m, x);
    }
  }

  lemma {:induction false} JoinedOrder(specimens: IdMap, ms: seq<QrMember>, i: nat, j: nat) returns (k: nat, l: nat)
    requires i < j < |Joined([], specimens, ms)|
    ensures k < l < |ms|
    ensures Joined([], specimens, ms)[i] == Lookup(specimens, ms[k].specimenId)
    ensures Joined([], specimens, ms)[j] == Lookup(specimens, ms[l].specimenId)
    decreases |ms|
  {
    var n := |ms| - 1;
    var before := Joined([], specimens, ms[..n]);
    if j < |before| {
      k, l := JoinedOrder(specimens, ms[..n], i, j);
    } else {
      l := n;
      JoinedMember(specimens, ms[..n], before[i]);
      var m :| m in ms[..n] && before[i] == Lookup(specimens, m.specimenId);
      k :| k < n && ms[k] == m;
    }
  }

  /** ... in the order of the archived positions. */
  lemma MembersInOrder(a: Archive, skip: bool, base: nat, i: nat, j: nat) returns (m: QrMember, m': QrMember)
    requires DistinctIds(a) && TakesSheet(a, skip) && SheetRefs(a, a.qrsheets[0])
    requires i < j < |Members(a, skip, base)|
    ensures m in a.qrsheets[0].specimens && m' in a.qrsheets[0].specimens && m.position <= m'.position
    ensures IsSpecimen(a, base, m.specimenId, Members(a, skip, base)[i])
    ensures IsSpecimen(a, base, m'.specimenId, Members(a, skip, base)[j])
  {
    var ms := a.qrsheets[0].specimens;
    var k, l := JoinedOrder(SpecimenMap(a, base), StableSort(ms), i, j);
    StableSortCorrect(ms);
    m, m' := StableSort(ms)[k], StableSort(ms)[l];
    SortKeepsMembers(ms, m);
    SortKeepsMembers(ms, m');
    MemberImage(a, base, m, Members(a, skip, base)[i]);
    MemberImage(a, base, m', Members(a, skip, base)[j]);
  }

  // -------------------------------------------------------------- the whole graph

  /** x is the id of the created row made from the archive record with id `ref`. */
  ghost predicate SpecimenRowOf(a: Archive, t: Tables, ref: string, x: Uuid) {
    exists k :: 0 <= k < |a.specimens| && k < |t.specimens| && a.specimens[k].id == ref && t.specimens[k].id == x
  }

  ghost predicate FileRowOf(a: Archive, t: Tables, ref: string, x: Uuid) {
    exists k :: 0 <= k < |a.files| && k < |t.files| && a.files[k].id == ref && t.files[k].id == x
  }

  ghost predicate CollectorRowOf(a: Archive, t: Tables, ref: string, x: Uuid) {
    exists k :: 0 <= k < |a.collectors| && k < |t.collectors| && a.collectors[k].id == ref && t.collectors[k].id == x
  }

  lemma ImageIsSpecimenRow(a: Archive, t: Tables, base: nat, ref: string, x: Uuid)
    requires DistinctIds(a) && DrawnFrom(a, t, base)
    ensures IsSpecimen(a, base, ref, x) <==> SpecimenRowOf(a, t, ref, x)
  {
    var ids := SpecimenIds(a);
    if IsSpecimen(a, base, ref, x) {
      var k := Index(ids, ref);
      assert a.specimens[k].id == ref && SpecimenRowIds(t.specimens)[k] == t.specimens[k].id == x;
    }
    if k :| 0 <= k < |a.specimens| && a.specimens[k].id == ref && t.specimens[k].id == x {
      assert ids[k] == ref && SpecimenRowIds(t.specimens)[k] == x;
      assert Index(ids, ref) == k;
    }
  }

  lemma ImageIsFileRow(a: Archive, t: Tables, base: nat, ref: string, x: Uuid)
    requires DrawnFrom(a, t, base) && IsFile(a, base, ref, x)
    ensures FileRowOf(a, t, ref, x)
  {
    var k := Index(FileIds(a), ref);
    assert a.files[k].id == ref && FileRowIds(t.files)[k] == t.files[k].id == x;
  }

  lemma ImageIsCollectorRow(a: Archive, t: Tables, base: nat, ref: string, x: Uuid)
    requires DrawnFrom(a, t, base) && IsCollector(a, base, ref, x)
    ensures CollectorRowOf(a, t, ref, x)
  {
    var k := Index(CollectorIds(a), ref);
    assert a.collectors[k].id == ref && CollectorRowIds(t.collectors)[k] == t.collectors[k].id == x;
  }

  /** Every photo hangs on the created specimen and file rows of its archive targets. */
  ghost predicate PhotosCopied(a: Archive, t: Tables) {
    && |t.photos| == |a.photos|
    && forall i :: 0 <= i < |a.photos| ==>
         SpecimenRowOf(a, t, a.photos[i].specimenId, t.photos[i].specimen) && FileRowOf(a, t, a.photos[i].fileId, t.photos[i].file)
  }

  ghost predicate EntriesCopied(a: Archive, t: Tables) {
    && |t.entries| == |a.journal|
    && forall i :: 0 <= i < |a.journal| ==> SpecimenRowOf(a, t, a.journal[i].specimenId, t.entries[i].specimen)
  }

  ghost predicate MainImageCopied(a: Archive, t: Tables, s: SpecimenRecord, row: SpecimenRow) {
    if s.mainImageFileId.None? then row.mainImage == None
    else row.mainImage.Some? && FileRowOf(a, t, s.mainImageFileId.value, row.mainImage.value)
  }

  ghost predicate MainImagesCopied(a: Archive, t: Tables) {
    && |t.specimens| == |a.specimens|
    && forall i :: 0 <= i < |a.specimens| ==> MainImageCopied(a, t, a.specimens[i], t.specimens[i])
  }

  /** row joins the created entry of journal record i to the created file of its attachment j. */
  ghost predicate AttachmentCopied(a: Archive, t: Tables, i: nat, j: nat, row: AttachmentRow) {
    && i < |a.journal| && i < |t.entries| && j < |a.journal[i].attachments|
    && row.entry == t.entries[i].id && row.columns == a.journal[i].attachments[j].columns
    && FileRowOf(a, t, a.journal[i].attachments[j].fileId, row.file)
  }

  ghost predicate AttachmentHasRow(a: Archive, t: Tables, i: nat, j: nat) {
    exists r :: r in t.attachments && AttachmentCopied(a, t, i, j, r)
  }

  ghost predicate AttachmentsCopied(a: Archive, t: Tables) {
    && (forall r :: r in t.attachments ==> exists i: nat, j: nat :: AttachmentCopied(a, t, i, j, r))
    && (forall i: nat, j: nat :: i < |a.journal| && j < |a.journal[i].attachments| ==> AttachmentHasRow(a, t, i, j))
  }

  /** row joins the created row of specimen i to the created collector of its link j, in the link's place. */
  ghost predicate LinkCopied(a: Archive, t: Tables, i: nat, j: nat, row: ChainRow) {
    && i < |a.specimens| && i < |t.specimens| && j < |a.specimens[i].collectorIds|
    && row.specimen == t.specimens[i].id && row.position == j + 1
    && CollectorRowOf(a, t, a.specimens[i].collectorIds[j], row.collector)
  }

  ghost predicate LinkHasRow(a: Archive, t: Tables, i: nat, j: nat) {
    exists r :: r in t.chains && LinkCopied(a, t, i, j, r)
  }

  ghost predicate ChainsCopied(a: Archive, t: Tables) {
    && (forall r :: r in t.chains ==> exists i: nat, j: nat :: LinkCopied(a, t, i, j, r))
    && (forall i: nat, j: nat :: i < |a.specimens| && j < |a.specimens[i].collectorIds| ==> LinkHasRow(a, t, i, j))
  }

  /** x stands on the created sheet. */
  ghost predicate OnSheet(t: Tables, x: Uuid) {
    exists i :: 0 <= i < |t.members| && t.members[i].specimen == x
  }

  /** x is the created specimen of an archived member. */
  ghost predicate Archived(a: Archive, t: Tables, ms: seq<QrMember>, x: Uuid) {
    exists m :: m in ms && SpecimenRowOf(a, t, m.specimenId, x)
  }

  /** x and y are created specimens of members that stood in this order. */
  ghost predicate ArchivedInOrder(a: Archive, t: Tables, ms: seq<QrMember>, x: Uuid, y: Uuid) {
    exists m, m' :: m in ms && m' in ms && m.position <= m'.position
                    && SpecimenRowOf(a, t, m.specimenId, x) && SpecimenRowOf(a, t, m'.specimenId, y)
  }

  /** Positions 1..N of the created sheet: archived members and no others, each once, in archived order. */
  ghost predicate SheetCopied(a: Archive, t: Tables, ms: seq<QrMember>) {
    && |t.sheets| == 1
    && (forall i :: 0 <= i < |t.members| ==> t.members[i].sheet == t.sheets[0].id && t.members[i].position == i + 1)
    && (forall x :: OnSheet(t, x) <==> Archived(a, t, ms, x))
    && (forall i, j :: 0 <= i < j < |t.members| ==>
          && t.members[i].specimen != t.members[j].specimen
          && ArchivedInOrder(a, t, ms, t.members[i].specimen, t.members[j].specimen))
  }

  /** A skipped sheet leaves nothing. */
  ghost predicate MembersCopied(a: Archive, t: Tables, skip: bool) {
    if TakesSheet(a, skip) then SheetCopied(a, t, a.qrsheets[0].specimens) else t.sheets == [] && t.members == []
  }

  ghost predicate GraphCopied(a: Archive, t: Tables, skip: bool) {
    && PhotosCopied(a, t) && EntriesCopied(a, t) && MainImagesCopied(a, t)
    && AttachmentsCopied(a, t) && ChainsCopied(a, t) && MembersCopied(a, t, skip)
  }

  // ------------------------------------------------------------- the columns

  /** Read back as records, the collector rows are the archive's, and belong to the user. */
  ghost predicate CollectorsCopied(user: Uuid, a: Archive, t: Tables) {
    && |t.collectors| == |a.collectors|
    && forall i :: 0 <= i < |a.collectors| ==>
         var row := t.collectors[i];
         row.author == user && CollectorRecord(a.collectors[i].id, row.name, row.columns) == a.collectors[i]
  }

  ghost predicate FilesCopied(user: Uuid, a: Archive, t: Tables) {
    && |t.files| == |a.files|
    && forall i :: 0 <= i < |a.files| ==>
         t.files[i].uploadedBy == user && FileRecord(a.files[i].id, t.files[i].columns) == a.files[i]
  }

  /** Under the resolved number, with the canonical form of the type data, and otherwise as archived. */
  ghost predicate SpecimenCopied(lib: Library, user: Uuid, s: SpecimenRecord, number: Option<string>, row: SpecimenRow) {
    && row.author == user && row.catalogNumber == number && lib.typeData(s.typ, s.typeData) == Some(row.typeData)
    && s.typ == row.typ && s.visibility == row.visibility && s.visibilityPrice == row.visibilityPrice
    && s.visibilityAcquiredFrom == row.visibilityAcquiredFrom && s.visibilityImages == row.visibilityImages
    && s.columns == row.columns
  }

  ghost predicate SpecimensCopied(lib: Library, user: Uuid, a: Archive, out: seq<Option<string>>, t: Tables) {
    && |t.specimens| == |a.specimens| == |out|
    && forall i :: 0 <= i < |a.specimens| ==> SpecimenCopied(lib, user, a.specimens[i], out[i], t.specimens[i])
  }

  /** A photo without a kind is a visible-light one. */
  ghost predicate PhotoCopied(p: PhotoRecord, row: PhotoRow) {
    && row.columns == p.columns && row.visibility == p.visibility
    && (p.kind == "" ==> row.kind == "visible") && (p.kind != "" ==> row.kind == p.kind)
  }

  ghost predicate PhotoRowsCopied(a: Archive, t: Tables) {
    |t.photos| == |a.photos| && forall i :: 0 <= i < |a.photos| ==> PhotoCopied(a.photos[i], t.photos[i])
  }

  ghost predicate EntryRowsCopied(user: Uuid, a: Archive, t: Tables) {
    && |t.entries| == |a.journal|
    && forall i :: 0 <= i < |a.journal| ==> t.entries[i].author == user && t.entries[i].columns == a.journal[i].columns
  }

  /** All sheets of the archive, unless skipped. */
  ghost predicate SheetRowCopied(user: Uuid, a: Archive, t: Tables, skip: bool) {
    && |t.sheets| == (if skip then 0 else |a.qrsheets|)
    && forall i :: 0 <= i < |t.sheets| ==>
         && t.sheets[i].user == user
         && t.sheets[i].template == a.qrsheets[i].template && t.sheets[i].columns == a.qrsheets[i].columns
  }

  /** Row by row, what is recorded of each archive record; attachments and links are in GraphCopied. */
  ghost predicate RowsCopied(lib: Library, user: Uuid, a: Archive, out: seq<Option<string>>, t: Tables, skip: bool) {
    && CollectorsCopied(user, a, t) && FilesCopied(user, a, t) && SpecimensCopied(lib, user, a, out, t)
    && PhotoRowsCopied(a, t) && EntryRowsCopied(user, a, t) && SheetRowCopied(user, a, t, skip)
  }

  lemma SpecimenIsCopied(lib: Library, user: Uuid, a: Archive, files: IdMap, cat: map<string, Option<string>>,
                         out: seq<Option<string>>, base: nat, i: nat)
    requires RecordsValid(lib, a) && CatalogApplied(a, out, cat) && i < |a.specimens|
    ensures SpecimenCopied(lib, user, a.specimens[i], out[i], SpecimenRows(lib, user, a, files, cat, base)[i])
  {
    assert SpecimenValid(lib, a.specimens[i]);
  }

  lemma SpecimensAreCopied(lib: Library, user: Uuid, a: Archive, cat: map<string, Option<string>>, out: seq<Option<string>>, t: Tables, base: nat)
    requires RecordsValid(lib, a) && CatalogApplied(a, out, cat)
    requires t.specimens == SpecimenRows(lib, user, a, FileMap(a, base), cat, SpecimenBase(a, base))
    ensures SpecimensCopied(lib, user, a, out, t)
  {
    forall i | 0 <= i < |a.specimens|
      ensures SpecimenCopied(lib, user, a.specimens[i], out[i], t.specimens[i])
    {
      SpecimenIsCopied(lib, user, a, FileMap(a, base), cat, out, SpecimenBase(a, base), i);
    }
  }

  lemma OwnedRowsAreCopied(user: Uuid, a: Archive, t: Tables, skip: bool, base: nat)
    requires |a.qrsheets| <= 1
    requires t.collectors == CollectorRows(user, a, base) && t.files == FileRows(user, a, FileBase(a, base))
    requires t.entries == EntryRows(user, a, SpecimenMap(a, base), EntryBase(a, base)) && t.sheets == SheetRows(user, a, skip, base)
    ensures CollectorsCopied(user, a, t) && FilesCopied(user, a, t) && EntryRowsCopied(user, a, t) && SheetRowCopied(user, a, t, skip)
  {}

  lemma PhotoRowsAreCopied(a: Archive, t: Tables, base: nat)
    requires t.photos == PhotoRows(a, SpecimenMap(a, base), FileMap(a, base), PhotoBase(a, base))
    ensures PhotoRowsCopied(a, t)
  {}

  /** A committed import records every archive record as it was. */
  lemma CommitCopiesRows(lib: Library, user: Uuid, a: Archive, out: seq<Option<string>>, cat: map<string, Option<string>>, skip: bool, base: nat)
    requires RecordsValid(lib, a) && CatalogApplied(a, out, cat)
    ensures RowsCopied(lib, user, a, out, Created(lib, user, a, cat, skip, base), skip)
  {
    var t := Created(lib, user, a, cat, skip, base);
    SpecimensAreCopied(lib, user, a, cat, out, t, base);
    OwnedRowsAreCopied(user, a, t, skip, base);
    PhotoRowsAreCopied(a, t, base);
  }

  /** Every enumerated column of every created row holds one of its values, and every name is there. */
  ghost predicate RowsValid(lib: Library, t: Tables) {
    && (forall r :: r in t.collectors ==> !lib.blank(r.name))
    && (forall r :: r in t.specimens ==>
          && ValidType(r.typ) && ValidVisibility(r.visibility) && OptionalVisibility(r.visibilityPrice)
          && OptionalVisibility(r.visibilityAcquiredFrom) && OptionalVisibility(r.visibilityImages))
    && (forall r :: r in t.photos ==> ValidKind(r.kind) && OptionalVisibility(r.visibility))
    && (forall r :: r in t.sheets ==> KnownTemplate(r.template))
  }

  lemma SpecimenRowsValid(lib: Library, user: Uuid, a: Archive, out: seq<Option<string>>, t: Tables)
    requires RecordsValid(lib, a) && SpecimensCopied(lib, user, a, out, t)
    ensures forall r :: r in t.specimens ==>
              && ValidType(r.typ) && ValidVisibility(r.visibility) && OptionalVisibility(r.visibilityPrice)
              && OptionalVisibility(r.visibilityAcquiredFrom) && OptionalVisibility(r.visibilityImages)
  {
    forall r | r in t.specimens
      ensures ValidType(r.typ) && ValidVisibility(r.visibility) && OptionalVisibility(r.visibilityPrice)
      ensures OptionalVisibility(r.visibilityAcquiredFrom) && OptionalVisibility(r.visibilityImages)
    {
      var i :| 0 <= i < |t.specimens| && t.specimens[i] == r;
      assert SpecimenValid(lib, a.specimens[i]) && SpecimenCopied(lib, user, a.specimens[i], out[i], r);
    }
  }

  lemma PhotoRowsValid(lib: Library, a: Archive, t: Tables)
    requires RecordsValid(lib, a) && PhotoRowsCopied(a, t)
    ensures forall r :: r in t.photos ==> ValidKind(r.kind) && OptionalVisibility(r.visibility)
  {
    forall r | r in t.photos
      ensures ValidKind(r.kind) && OptionalVisibility(r.visibility)
    {
      var i :| 0 <= i < |t.photos| && t.photos[i] == r;
      assert PhotoValid(a.photos[i]) && PhotoCopied(a.photos[i], r);
    }
  }

  lemma NamedRowsValid(lib: Library, user: Uuid, a: Archive, t: Tables, skip: bool)
    requires RecordsValid(lib, a) && CollectorsCopied(user, a, t)
    requires SheetRowCopied(user, a, t, skip)
    ensures (forall r :: r in t.collectors ==> !lib.blank(r.name)) && (forall r :: r in t.sheets ==> KnownTemplate(r.template))
  {
    forall r | r in t.collectors
      ensures !lib.blank(r.name)
    {
      var i :| 0 <= i < |t.collectors| && t.collectors[i] == r;
      assert a.collectors[i].name == r.name;
    }
    forall r | r in t.sheets
      ensures KnownTemplate(r.template)
    {
      var i :| 0 <= i < |t.sheets| && t.sheets[i] == r;
      assert SheetValid(lib, a.qrsheets[i]);
    }
  }

  /** What validation lets through fits the columns it goes into. */
  lemma CreatedRowsAreValid(lib: Library, user: Uuid, a: Archive, out: seq<Option<string>>, t: Tables, skip: bool)
    requires RecordsValid(lib, a) && RowsCopied(lib, user, a, out, t, skip)
    ensures RowsValid(lib, t)
  {
    SpecimenRowsValid(lib, user, a, out, t);
    PhotoRowsValid(lib, a, t);
    NamedRowsValid(lib, user, a, t, skip);
  }

  // Kind by kind, t being the created tables.

  lemma PhotosAreCopied(a: Archive, t: Tables, base: nat)
    requires DistinctIds(a) && ReferencesResolve(a) && DrawnFrom(a, t, base)
    requires t.photos == PhotoRows(a, SpecimenMap(a, base), FileMap(a, base), PhotoBase(a, base))
    ensures PhotosCopied(a, t)
  {
    forall i | 0 <= i < |a.photos|
      ensures SpecimenRowOf(a, t, a.photos[i].specimenId, t.photos[i].specimen) && FileRowOf(a, t, a.photos[i].fileId, t.photos[i].file)
    {
      PhotosPointHome(a, base, i);
      ImageIsSpecimenRow(a, t, base, a.photos[i].specimenId, t.photos[i].specimen);
      ImageIsFileRow(a, t, base, a.photos[i].fileId, t.photos[i].file);
    }
  }

  lemma EntriesAreCopied(user: Uuid, a: Archive, t: Tables, base: nat)
    requires DistinctIds(a) && ReferencesResolve(a) && DrawnFrom(a, t, base)
    requires t.entries == EntryRows(user, a, SpecimenMap(a, base), EntryBase(a, base))
    ensures EntriesCopied(a, t)
  {
    forall i | 0 <= i < |a.journal|
      ensures SpecimenRowOf(a, t, a.journal[i].specimenId, t.entries[i].specimen)
    {
      EntriesPointHome(user, a, base, i);
      ImageIsSpecimenRow(a, t, base, a.journal[i].specimenId, t.entries[i].specimen);
    }
  }

  lemma MainImagesAreCopied(a: Archive, t: Tables, base: nat)
    requires DistinctIds(a) && ReferencesResolve(a) && DrawnFrom(a, t, base)
    requires forall i :: 0 <= i < |a.specimens| ==> t.specimens[i].mainImage == MainImage(FileMap(a, base), a.specimens[i])
    ensures MainImagesCopied(a, t)
  {
    forall i | 0 <= i < |a.specimens|
      ensures MainImageCopied(a, t, a.specimens[i], t.specimens[i])
    {
      MainImagesPointHome(a, base, i);
      if a.specimens[i].mainImageFileId.Some? {
        ImageIsFileRow(a, t, base, a.specimens[i].mainImageFileId.value, t.specimens[i].mainImage.value);
      }
    }
  }

  lemma AttachmentImage(a: Archive, t: Tables, base: nat, i: nat, j: nat, r: AttachmentRow)
    requires DrawnFrom(a, t, base) && CopiesAttachment(a, base, i, j, r)
    ensures AttachmentCopied(a, t, i, j, r)
  {
    assert EntryRowIds(t.entries)[i] == t.entries[i].id;
    ImageIsFileRow(a, t, base, a.journal[i].attachments[j].fileId, r.file);
  }

  lemma AttachmentsAreCopied(a: Archive, t: Tables, base: nat)
    requires DistinctIds(a) && ReferencesResolve(a) && DrawnFrom(a, t, base)
    requires t.attachments == AttachmentRows(a, FileMap(a, base), EntryBase(a, base), |a.journal|)
    ensures AttachmentsCopied(a, t)
  {
    forall r | r in t.attachments
      ensures exists i: nat, j: nat :: AttachmentCopied(a, t, i, j, r)
    {
      var i, j := AttachmentRowIsCopy(a, base, |a.journal|, r);
      AttachmentImage(a, t, base, i, j, r);
    }
    forall i: nat, j: nat | i < |a.journal| && j < |a.journal[i].attachments|
      ensures AttachmentHasRow(a, t, i, j)
    {
      var r := AttachmentIsCopied(a, base, |a.journal|, i, j);
      AttachmentImage(a, t, base, i, j, r);
    }
  }

  lemma LinkImage(a: Archive, t: Tables, base: nat, i: nat, j: nat, r: ChainRow)
    requires DistinctIds(a) && DrawnFrom(a, t, base) && CopiesLink(a, base, i, j, r)
    ensures LinkCopied(a, t, i, j, r)
  {
    assert SpecimenIds(a)[i] == a.specimens[i].id && SpecimenRowIds(t.specimens)[i] == t.specimens[i].id;
    assert Index(SpecimenIds(a), a.specimens[i].id) == i;
    ImageIsCollectorRow(a, t, base, a.specimens[i].collectorIds[j], r.collector);
  }

  lemma ChainsAreCopied(a: Archive, t: Tables, base: nat)
    requires DistinctIds(a) && ReferencesResolve(a) && DrawnFrom(a, t, base)
    requires t.chains == ChainRows(a, SpecimenMap(a, base), CollectorMap(a, base), |a.specimens|)
    ensures ChainsCopied(a, t)
  {
    forall r | r in t.chains
      ensures exists i: nat, j: nat :: LinkCopied(a, t, i, j, r)
    {
      var i, j := ChainRowIsCopy(a, base, |a.specimens|, r);
      LinkImage(a, t, base, i, j, r);
    }
    forall i: nat, j: nat | i < |a.specimens| && j < |a.specimens[i].collectorIds|
      ensures LinkHasRow(a, t, i, j)
    {
      var r := LinkIsCopied(a, base, |a.specimens|, i, j);
      LinkImage(a, t, base, i, j, r);
    }
  }

  lemma MembersArchived(a: Archive, t: Tables, skip: bool, base: nat, list: seq<Uuid>, x: Uuid)
    requires DistinctIds(a) && DrawnFrom(a, t, base) && TakesSheet(a, skip) && SheetRefs(a, a.qrsheets[0])
    requires list == Members(a, skip, base)
    ensures x in list <==> Archived(a, t, a.qrsheets[0].specimens, x)
  {
    MembersPointHome(a, skip, base, x);
    forall m: QrMember
      ensures IsSpecimen(a, base, m.specimenId, x) <==> SpecimenRowOf(a, t, m.specimenId, x)
    {
      ImageIsSpecimenRow(a, t, base, m.specimenId, x);
    }
  }

  lemma MembersOrdered(a: Archive, t: Tables, skip: bool, base: nat, list: seq<Uuid>, i: nat, j: nat)
    requires DistinctIds(a) && DrawnFrom(a, t, base) && TakesSheet(a, skip) && SheetRefs(a, a.qrsheets[0])
    requires list == Members(a, skip, base) && i < j < |list|
    ensures list[i] != list[j] && ArchivedInOrder(a, t, a.qrsheets[0].specimens, list[i], list[j])
  {
    MembersPointHome(a, skip, base, list[i]);
    var m, m' := MembersInOrder(a, skip, base, i, j);
    ImageIsSpecimenRow(a, t, base, m.specimenId, list[i]);
    ImageIsSpecimenRow(a, t, base, m'.specimenId, list[j]);
  }

  lemma OnSheetIff(t: Tables, sheet: Uuid, list: seq<Uuid>, x: Uuid)
    requires t.members == MemberRows(sheet, list)
    ensures OnSheet(t, x) <==> x in list
  {
    if x in list {
      var i :| 0 <= i < |list| && list[i] == x;
      assert t.members[i].specimen == x;
    }
  }

  lemma MembersAreCopied(user: Uuid, a: Archive, t: Tables, skip: bool, base: nat)
    requires DistinctIds(a) && ReferencesResolve(a) && DrawnFrom(a, t, base)
    requires t.sheets == SheetRows(user, a, skip, base) && t.members == MemberRows(SheetId(a, base), Members(a, skip, base))
    ensures MembersCopied(a, t, skip)
  {
    if TakesSheet(a, skip) {
      var ms, list := a.qrsheets[0].specimens, Members(a, skip, base);
      assert SheetRefs(a, a.qrsheets[0]);
      forall x
        ensures OnSheet(t, x) <==> Archived(a, t, ms, x)
      {
        OnSheetIff(t, SheetId(a, base), list, x);
        MembersArchived(a, t, skip, base, list, x);
      }
      forall i, j | 0 <= i < j < |t.members|
        ensures t.members[i].specimen != t.members[j].specimen
        ensures ArchivedInOrder(a, t, ms, t.members[i].specimen, t.members[j].specimen)
      {
        MembersOrdered(a, t, skip, base, list, i, j);
      }
    }
  }

  lemma CreatedMainImages(lib: Library, user: Uuid, a: Archive, files: IdMap, cat: map<string, Option<string>>, base: nat)
    ensures forall i :: 0 <= i < |a.specimens| ==>
              SpecimenRows(lib, user, a, files, cat, base)[i].mainImage == MainImage(files, a.specimens[i])
  {}

  /**
   The rows of a committed import are an isomorphic copy of the archive: every photo, entry,
   main image, attachment, link and sheet member points at the created row of its archive
   target, nothing is left out or invented, and no id was in use before.
   */
  lemma CommitCopiesGraph(before: Tables, lib: Library, user: Uuid, a: Archive, cat: map<string, Option<string>>, skip: bool, base: nat)
    requires RecordsValid(lib, a) && ReferencesResolve(a) && IdsBelow(before, base)
    ensures GraphCopied(a, Created(lib, user, a, cat, skip, base), skip)
    ensures forall x :: x in IdsOf(Created(lib, user, a, cat, skip, base)) ==> x !in IdsOf(before)
  {
    var t := Created(lib, user, a, cat, skip, base);
    ValidHasDistinctIds(lib, a);
    CreatedIdsAreDrawn(lib, user, a, cat, skip, base);
    CreatedMainImages(lib, user, a, FileMap(a, base), cat, SpecimenBase(a, base));
    PhotosAreCopied(a, t, base);
    EntriesAreCopied(user, a, t, base);
    MainImagesAreCopied(a, t, base);
    AttachmentsAreCopied(a, t, base);
    ChainsAreCopied(a, t, base);
    MembersAreCopied(user, a, t, skip, base);
    forall x | x in IdsOf(t)
      ensures x !in IdsOf(before)
    {
      NewIdsAreFresh(before, lib, user, a, cat, skip, base, x);
    }
  }
}
