/**
 The membership table of QR sheets, a position per (sheet, specimen), kept packed by
 row-by-row shifts (internal/db/qr_sheet_postgres.go). It stands for one ordered list of
 specimens per sheet.
 */
module QrSheet {
  import opened Options
  import opened Finite

  type User = nat
  type Sheet = nat
  type Specimen = nat

  /** qr_sheet_specimens: position by (sheet_id, specimen_id). */
  type Rows = map<(Sheet, Specimen), int>

  // ------------------------------------------------------ what it stands for

  /** Reading the sheet's rows by position yields exactly `list`; positions are distinct and at least 1. */
  ghost predicate Represents(rows: Rows, sheet: Sheet, list: seq<Specimen>) {
    && (forall s :: (sheet, s) in rows <==> s in list)
    && (forall i :: 0 <= i < |list| ==> 1 <= rows[(sheet, list[i])])
    && (forall i, j :: 0 <= i < j < |list| ==> rows[(sheet, list[i])] < rows[(sheet, list[j])])
  }

  /** Positions are 1..N without a hole. */
  ghost predicate Packed(rows: Rows, sheet: Sheet, list: seq<Specimen>)
    requires Represents(rows, sheet, list)
  {
    forall i :: 0 <= i < |list| ==> rows[(sheet, list[i])] == i + 1
  }

  function Without(list: seq<Specimen>, s: Specimen): seq<Specimen> {
    if list == [] then []
    else if list[0] == s then Without(list[1..], s)
    else [list[0]] + Without(list[1..], s)
  }

  // ---------------------------------------------------- statements on values

  function Positions(rows: Rows, sheet: Sheet): set<int> {
    set k | k in rows && k.0 == sheet :: rows[k]
  }

  /** COALESCE(MAX(position), 0). */
  function MaxPosition(rows: Rows, sheet: Sheet): int {
    var ps := Positions(rows, sheet);
    if ps == {} then 0 else MaxOf(ps)
  }

  function AddRow(rows: Rows, sheet: Sheet, s: Specimen): Rows {
    if (sheet, s) in rows then rows else rows[(sheet, s) := MaxPosition(rows, sheet) + 1]
  }

  /** The rows after deleting one and moving the rows in `moved` down by one. */
  function Shifted(rows: Rows, removed: (Sheet, Specimen), moved: set<(Sheet, Specimen)>): Rows {
    map k | k in rows && k != removed :: if k in moved then rows[k] - 1 else rows[k]
  }

  /** The rows the repacking UPDATE selects. */
  function AfterPosition(rows: Rows, removed: (Sheet, Specimen)): set<(Sheet, Specimen)>
    requires removed in rows
  {
    set k | k in rows && k.0 == removed.0 && rows[k] > rows[removed]
  }

  function RemoveRow(rows: Rows, sheet: Sheet, s: Specimen): Rows {
    var removed := (sheet, s);
    if removed !in rows then rows else Shifted(rows, removed, AfterPosition(rows, removed))
  }

  /** ON DELETE CASCADE from specimens. */
  function DropSpecimen(rows: Rows, s: Specimen): Rows {
    map k | k in rows && k.1 != s :: rows[k]
  }

  /** ON DELETE CASCADE from qr_sheets. */
  function DropSheet(rows: Rows, sheet: Sheet): Rows {
    map k | k in rows && k.0 != sheet :: rows[k]
  }

  // ------------------------------------------------------ refinement of a list

  lemma {:induction false} WithoutAt(list: seq<Specimen>, i: nat)
    requires i < |list| && forall j, k :: 0 <= j < k < |list| ==> list[j] != list[k]
    ensures Without(list, list[i]) == CutAt(list, i)
  {
    CutAtSteps(list, i);
    if i == 0 {
      WithoutAbsent(list[1..], list[0]);
    } else {
      WithoutAt(list[1..], i - 1);
    }
  }

  lemma CutAtSteps(list: seq<Specimen>, i: nat)
    requires i < |list|
    ensures CutAt(list, i) == if i == 0 then list[1..] else [list[0]] + CutAt(list[1..], i - 1)
  {}

  lemma {:induction false} WithoutAbsent(list: seq<Specimen>, s: Specimen)
    requires s !in list
    ensures Without(list, s) == list
  {
    if list != [] {
      WithoutAbsent(list[1..], s);
      assert [list[0]] + list[1..] == list;
    }
  }

  lemma RepresentsDistinct(rows: Rows, sheet: Sheet, list: seq<Specimen>)
    requires Represents(rows, sheet, list)
    ensures forall i, j :: 0 <= i < j < |list| ==> list[i] != list[j]
  {
    forall i, j | 0 <= i < j < |list|
      ensures list[i] != list[j]
    {
      assert rows[(sheet, list[i])] < rows[(sheet, list[j])];
    }
  }

  lemma MaxPositionIsLast(rows: Rows, sheet: Sheet, list: seq<Specimen>)
    requires Represents(rows, sheet, list)
    ensures MaxPosition(rows, sheet) == if list == [] then 0 else rows[(sheet, list[|list| - 1])]
  {
    var ps := Positions(rows, sheet);
    if list == [] {
      assert ps == {};
    } else {
      assert (sheet, list[0]) in rows;
      assert rows[(sheet, list[0])] in ps;
      var m := MaxOf(ps);
      var k :| k in rows && k.0 == sheet && rows[k] == m;
      assert k == (sheet, k.1);
      var i :| 0 <= i < |list| && list[i] == k.1;
      assert rows[(sheet, list[|list| - 1])] in ps by { assert (sheet, list[|list| - 1]) in rows; }
    }
  }

  lemma AppendRefines(rows: Rows, sheet: Sheet, list: seq<Specimen>, s: Specimen, p: int)
    requires Represents(rows, sheet, list) && s !in list
    requires p >= 1 && (list != [] ==> p > rows[(sheet, list[|list| - 1])])
    ensures Represents(rows[(sheet, s) := p], sheet, list + [s])
  {
    var rows', list' := rows[(sheet, s) := p], list + [s];
    forall i | 0 <= i < |list|
      ensures (sheet, list[i]) in rows && rows[(sheet, list[i])] < p && list'[i] == list[i] != s
    {}
  }

  /** Adding appends when absent; other sheets are untouched. */
  lemma AddRefines(rows: Rows, target: Sheet, s: Specimen, sheet: Sheet, list: seq<Specimen>)
    requires Represents(rows, sheet, list)
    ensures var list' := if target == sheet && s !in list then list + [s] else list;
            && Represents(AddRow(rows, target, s), sheet, list')
            && (Packed(rows, sheet, list) ==> Packed(AddRow(rows, target, s), sheet, list'))
  {
    if target == sheet && s !in list {
      NextPositionRefines(rows, sheet, list, s);
    } else {
      OtherRowRefines(rows, sheet, list, (target, s), MaxPosition(rows, target) + 1);
    }
  }

  lemma NextPositionRefines(rows: Rows, sheet: Sheet, list: seq<Specimen>, s: Specimen)
    requires Represents(rows, sheet, list) && s !in list
    ensures var rows' := rows[(sheet, s) := MaxPosition(rows, sheet) + 1];
            && Represents(rows', sheet, list + [s])
            && (Packed(rows, sheet, list) ==> Packed(rows', sheet, list + [s]))
  {
    var p := MaxPosition(rows, sheet) + 1;
    MaxPositionIsLast(rows, sheet, list);
    AppendRefines(rows, sheet, list, s, p);
    if Packed(rows, sheet, list) { AppendPacked(rows, sheet, list, s, p); }
  }

  lemma AppendPacked(rows: Rows, sheet: Sheet, list: seq<Specimen>, s: Specimen, p: int)
    requires Represents(rows, sheet, list) && Packed(rows, sheet, list) && s !in list && p == |list| + 1
    requires Represents(rows[(sheet, s) := p], sheet, list + [s])
    ensures Packed(rows[(sheet, s) := p], sheet, list + [s])
  {
    var rows', list' := rows[(sheet, s) := p], list + [s];
    forall i | 0 <= i < |list'|
      ensures rows'[(sheet, list'[i])] == i + 1
    {
      if i < |list| { assert list'[i] == list[i] && list[i] in list; }
    }
  }

  /** A row that is there already, or on another sheet, does not matter. */
  lemma OtherRowRefines(rows: Rows, sheet: Sheet, list: seq<Specimen>, k: (Sheet, Specimen), p: int)
    requires Represents(rows, sheet, list) && (k.0 != sheet || k in rows)
    ensures var rows' := if k in rows then rows else rows[k := p];
            Represents(rows', sheet, list) && (Packed(rows, sheet, list) ==> Packed(rows', sheet, list))
  {}

  /** Removing deletes and closes the gap; other sheets are untouched. */
  lemma RemoveRefines(rows: Rows, target: Sheet, s: Specimen, sheet: Sheet, list: seq<Specimen>)
    requires Represents(rows, sheet, list)
    ensures var list' := if target == sheet then Without(list, s) else list;
            && Represents(RemoveRow(rows, target, s), sheet, list')
            && (Packed(rows, sheet, list) ==> Packed(RemoveRow(rows, target, s), sheet, list'))
  {
    RepresentsDistinct(rows, sheet, list);
    if target == sheet {
      if s in list {
        var i :| 0 <= i < |list| && list[i] == s;
        WithoutAt(list, i);
        RemoveAt(rows, sheet, list, i);
      } else {
        WithoutAbsent(list, s);
      }
    }
  }

  /** The list without its i-th element. */
  function CutAt(list: seq<Specimen>, i: nat): (cut: seq<Specimen>)
    requires i < |list|
    ensures |cut| == |list| - 1
    ensures forall j :: 0 <= j < |cut| ==> cut[j] == if j < i then list[j] else list[j + 1]
  {
    list[..i] + list[i + 1..]
  }

  lemma CutAtMembers(list: seq<Specimen>, i: nat, s: Specimen)
    requires i < |list| && forall j, k :: 0 <= j < k < |list| ==> list[j] != list[k]
    ensures s in CutAt(list, i) <==> s in list && s != list[i]
  {
    var cut := CutAt(list, i);
    if s in list && s != list[i] {
      var j :| 0 <= j < |list| && list[j] == s;
      assert cut[if j < i then j else j - 1] == s;
    }
    if s in cut {
      var j :| 0 <= j < |cut| && cut[j] == s;
      assert list[if j < i then j else j + 1] == s;
    }
  }

  lemma RemovedPositions(rows: Rows, sheet: Sheet, list: seq<Specimen>, i: nat, j: nat)
    requires Represents(rows, sheet, list) && i < |list| && j < |list| && i != j
    ensures (sheet, list[j]) in RemoveRow(rows, sheet, list[i])
    ensures RemoveRow(rows, sheet, list[i])[(sheet, list[j])] == rows[(sheet, list[j])] - if j < i then 0 else 1
  {
    assert (sheet, list[i]) in rows && (sheet, list[j]) in rows;
    if j < i {
      assert rows[(sheet, list[j])] < rows[(sheet, list[i])];
    } else {
      assert rows[(sheet, list[i])] < rows[(sheet, list[j])];
    }
  }

  lemma RemovedMembers(rows: Rows, sheet: Sheet, list: seq<Specimen>, i: nat, s: Specimen)
    requires Represents(rows, sheet, list) && i < |list|
    requires forall j, k :: 0 <= j < k < |list| ==> list[j] != list[k]
    ensures (sheet, s) in RemoveRow(rows, sheet, list[i]) <==> s in CutAt(list, i)
  {
    assert (sheet, list[i]) in rows;
    CutAtMembers(list, i, s);
  }

  predicate PositionsIncrease(p: seq<int>) {
    (forall j :: 0 <= j < |p| ==> 1 <= p[j]) && forall j, k :: 0 <= j < k < |p| ==> p[j] < p[k]
  }

  function Gap(p: seq<int>, i: nat, j: nat): int
    requires i < |p| && j < |p| - 1
  {
    if j < i then p[j] else p[j + 1] - 1
  }

  /** Closing the gap keeps positions increasing and at least 1. */
  lemma ClosedGap(p: seq<int>, i: nat, q: seq<int>)
    requires PositionsIncrease(p) && i < |p| && |q| == |p| - 1
    requires forall j :: 0 <= j < |q| ==> q[j] == Gap(p, i, j)
    ensures PositionsIncrease(q)
  {}

  ghost function PositionsOf(rows: Rows, sheet: Sheet, list: seq<Specimen>): (p: seq<int>)
    requires forall s :: s in list ==> (sheet, s) in rows
    ensures |p| == |list| && forall i :: 0 <= i < |list| ==> p[i] == rows[(sheet, list[i])]
  {
    seq(|list|, i requires 0 <= i < |list| => assert list[i] in list; rows[(sheet, list[i])])
  }

  lemma RepresentsIff(rows: Rows, sheet: Sheet, list: seq<Specimen>)
    requires forall s :: (sheet, s) in rows <==> s in list
    ensures Represents(rows, sheet, list) <==> PositionsIncrease(PositionsOf(rows, sheet, list))
  {
    var p := PositionsOf(rows, sheet, list);
    if PositionsIncrease(p) {
      forall i | 0 <= i < |list|
        ensures rows[(sheet, list[i])] == p[i]
      {}
    }
  }

  lemma RemovedGap(rows: Rows, sheet: Sheet, list: seq<Specimen>, i: nat, q: seq<int>)
    requires Represents(rows, sheet, list) && i < |list| && |q| == |list| - 1
    requires forall j :: 0 <= j < |q| ==> q[j] == Gap(PositionsOf(rows, sheet, list), i, j)
    ensures PositionsIncrease(q)
    ensures Packed(rows, sheet, list) ==> forall j :: 0 <= j < |q| ==> q[j] == j + 1
  {
    RepresentsIff(rows, sheet, list);
    ClosedGap(PositionsOf(rows, sheet, list), i, q);
  }

  lemma RemoveAt(rows: Rows, sheet: Sheet, list: seq<Specimen>, i: nat)
    requires Represents(rows, sheet, list) && i < |list|
    requires forall j, k :: 0 <= j < k < |list| ==> list[j] != list[k]
    ensures Represents(RemoveRow(rows, sheet, list[i]), sheet, CutAt(list, i))
    ensures Packed(rows, sheet, list) ==> Packed(RemoveRow(rows, sheet, list[i]), sheet, CutAt(list, i))
  {
    var cut, rows' := CutAt(list, i), RemoveRow(rows, sheet, list[i]);
    forall s
      ensures (sheet, s) in rows' <==> s in cut
    {
      RemovedMembers(rows, sheet, list, i, s);
    }
    var q := PositionsOf(rows', sheet, cut);
    forall j | 0 <= j < |q|
      ensures q[j] == Gap(PositionsOf(rows, sheet, list), i, j)
    {
      RemovedPositions(rows, sheet, list, i, if j < i then j else j + 1);
    }
    RemovedGap(rows, sheet, list, i, q);
    RepresentsIff(rows', sheet, cut);
  }

  lemma DropAt(rows: Rows, sheet: Sheet, list: seq<Specimen>, i: nat)
    requires Represents(rows, sheet, list) && i < |list|
    requires forall j, k :: 0 <= j < k < |list| ==> list[j] != list[k]
    ensures Represents(DropSpecimen(rows, list[i]), sheet, CutAt(list, i))
  {
    var cut, rows' := CutAt(list, i), DropSpecimen(rows, list[i]);
    forall s
      ensures (sheet, s) in rows' <==> s in cut
    {
      CutAtMembers(list, i, s);
    }
    forall j | 0 <= j < |cut|
      ensures (sheet, cut[j]) in rows'
      ensures rows'[(sheet, cut[j])] == rows[(sheet, list[if j < i then j else j + 1])]
    {
      assert cut[j] in cut;
    }
  }

  /** Deleting a specimen filters every sheet that holds it, leaving a hole. */
  lemma DropSpecimenRefines(rows: Rows, s: Specimen, sheet: Sheet, list: seq<Specimen>)
    requires Represents(rows, sheet, list)
    ensures Represents(DropSpecimen(rows, s), sheet, Without(list, s))
  {
    RepresentsDistinct(rows, sheet, list);
    if s in list {
      var i :| 0 <= i < |list| && list[i] == s;
      WithoutAt(list, i);
      DropAt(rows, sheet, list, i);
    } else {
      WithoutAbsent(list, s);
    }
  }

  lemma DropLast(rows: Rows, sheet: Sheet, list: seq<Specimen>)
    requires Represents(rows, sheet, list) && list != []
    ensures Represents(DropSpecimen(rows, list[|list| - 1]), sheet, list[..|list| - 1])
  {
    var n := |list| - 1;
    RepresentsDistinct(rows, sheet, list);
    DropSpecimenRefines(rows, list[n], sheet, list);
    WithoutAt(list, n);
    assert CutAt(list, n) == list[..n];
  }

  lemma SameLast(rows: Rows, sheet: Sheet, a: seq<Specimen>, b: seq<Specimen>)
    requires Represents(rows, sheet, a) && Represents(rows, sheet, b) && a != [] && b != []
    ensures a[|a| - 1] == b[|b| - 1]
  {
    var s, t := a[|a| - 1], b[|b| - 1];
    MaxPositionIsLast(rows, sheet, a);
    MaxPositionIsLast(rows, sheet, b);
    assert (sheet, s) in rows && s in b;
    var i :| 0 <= i < |b| && b[i] == s;
    assert rows[(sheet, b[i])] == rows[(sheet, t)];
  }

  /** A table stands for one list per sheet only. */
  lemma {:induction false} RepresentsUnique(rows: Rows, sheet: Sheet, a: seq<Specimen>, b: seq<Specimen>)
    requires Represents(rows, sheet, a) && Represents(rows, sheet, b)
    ensures a == b
    decreases |a|
  {
    if a == [] {
      if b != [] { SomeRow(rows, sheet, b); }
    } else if b == [] {
      SomeRow(rows, sheet, a);
    } else {
      var m, n := |a| - 1, |b| - 1;
      SameLast(rows, sheet, a, b);
      DropLast(rows, sheet, a);
      DropLast(rows, sheet, b);
      RepresentsUnique(DropSpecimen(rows, a[m]), sheet, a[..m], b[..n]);
      assert a == a[..m] + [a[m]] && b == b[..n] + [b[n]];
    }
  }

  lemma SomeRow(rows: Rows, sheet: Sheet, list: seq<Specimen>)
    requires Represents(rows, sheet, list) && list != []
    ensures exists s :: (sheet, s) in rows
  {
    assert list[0] in list;
  }

  /**
   Why the position constraint must be deferred: moving the later of two neighbouring rows
   first puts both on one position.
   */
  lemma ShiftCollidesMidway(rows: Rows, sheet: Sheet, list: seq<Specimen>, i: nat, j: nat)
    requires Represents(rows, sheet, list) && Packed(rows, sheet, list) && i < j < |list| - 1
    ensures var removed := (sheet, list[i]);
            var midway := Shifted(rows, removed, {(sheet, list[j + 1])});
            && (sheet, list[j + 1]) in AfterPosition(rows, removed)
            && (sheet, list[j]) in midway && (sheet, list[j + 1]) in midway
            && midway[(sheet, list[j])] == midway[(sheet, list[j + 1])] && list[j] != list[j + 1]
  {
    RepresentsDistinct(rows, sheet, list);
    assert (sheet, list[i]) in rows && (sheet, list[j]) in rows && (sheet, list[j + 1]) in rows;
  }

  // ----------------------------------------------------------------- all runs

  datatype Op =
    | Add(sheet: Sheet, specimen: Specimen)
    | Remove(sheet: Sheet, specimen: Specimen)
    | DeleteSpecimen(specimen: Specimen)
    | DeleteSheet(sheet: Sheet)

  function Apply(rows: Rows, op: Op): Rows {
    match op
    case Add(sheet, s) => AddRow(rows, sheet, s)
    case Remove(sheet, s) => RemoveRow(rows, sheet, s)
    case DeleteSpecimen(s) => DropSpecimen(rows, s)
    case DeleteSheet(sheet) => DropSheet(rows, sheet)
  }

  function Run(ops: seq<Op>): Rows {
    if ops == [] then map[] else Apply(Run(ops[..|ops| - 1]), ops[|ops| - 1])
  }

  /** The same run on the sheet's plain list. */
  function ListStep(list: seq<Specimen>, sheet: Sheet, op: Op): seq<Specimen> {
    match op
    case Add(target, s) => if target == sheet && s !in list then list + [s] else list
    case Remove(target, s) => if target == sheet then Without(list, s) else list
    case DeleteSpecimen(s) => Without(list, s)
    case DeleteSheet(target) => if target == sheet then [] else list
  }

  function ListRun(ops: seq<Op>, sheet: Sheet): seq<Specimen> {
    if ops == [] then [] else ListStep(ListRun(ops[..|ops| - 1], sheet), sheet, ops[|ops| - 1])
  }

  lemma StepRefines(rows: Rows, op: Op, sheet: Sheet, list: seq<Specimen>)
    requires Represents(rows, sheet, list)
    ensures Represents(Apply(rows, op), sheet, ListStep(list, sheet, op))
    ensures Packed(rows, sheet, list) && !op.DeleteSpecimen? ==>
              Packed(Apply(rows, op), sheet, ListStep(list, sheet, op))
  {
    match op
    case Add(target, s) => AddRefines(rows, target, s, sheet, list);
    case Remove(target, s) => RemoveRefines(rows, target, s, sheet, list);
    case DeleteSpecimen(s) => DropSpecimenRefines(rows, s, sheet, list);
    case DeleteSheet(target) =>
  }

  /**
   After every run over any number of sheets the table reads as the plain list; in runs
   without a specimen deletion positions are exactly 1..N.
   */
  lemma {:induction false} RunRefines(ops: seq<Op>, sheet: Sheet)
    ensures Represents(Run(ops), sheet, ListRun(ops, sheet))
    ensures (forall op :: op in ops ==> !op.DeleteSpecimen?) ==> Packed(Run(ops), sheet, ListRun(ops, sheet))
  {
    if ops != [] {
      var n := |ops| - 1;
      RunRefines(ops[..n], sheet);
      assert ops[n] in ops && forall op :: op in ops[..n] ==> op in ops;
      StepRefines(Run(ops[..n]), ops[n], sheet, ListRun(ops[..n], sheet));
    }
  }

  // ----------------------------------------------------------- the repository

  datatype Error = Ok | SheetNotFound | SpecimenNotFound | MemberNotFound

  class Repo {
    var sheets: map<User, Sheet>
    var specimens: set<Specimen>
    var rows: Rows

    constructor ()
      ensures sheets == map[] && specimens == {} && rows == map[]
    {
      sheets, specimens, rows := map[], {}, map[];
    }

    method AddSpecimen(user: User, specimen: Specimen) returns (err: Error)
      modifies this
      ensures sheets == old(sheets) && specimens == old(specimens)
      ensures err == (if user !in sheets then SheetNotFound
                      else if (sheets[user], specimen) !in old(rows) && specimen !in specimens then SpecimenNotFound
                      else Ok)
      ensures rows == if err == Ok then AddRow(old(rows), sheets[user], specimen) else old(rows)
    {
      if user !in sheets { return SheetNotFound; }
      var sheet := sheets[user];
      if (sheet, specimen) in rows { return Ok; }
      var nextPos := MaxPosition(rows, sheet) + 1;
      if specimen !in specimens { return SpecimenNotFound; }
      rows := rows[(sheet, specimen) := nextPos];
      return Ok;
    }

    /** The repacking UPDATE moves its rows one by one, in any order. */
    method RemoveSpecimen(user: User, specimen: Specimen) returns (err: Error)
      modifies this
      ensures sheets == old(sheets) && specimens == old(specimens)
      ensures err == (if user !in sheets then SheetNotFound
                      else if (sheets[user], specimen) !in old(rows) then MemberNotFound
                      else Ok)
      ensures rows == if err == Ok then RemoveRow(old(rows), sheets[user], specimen) else old(rows)
    {
      if user !in sheets { return SheetNotFound; }
      var removed := (sheets[user], specimen);
      if removed !in rows { return MemberNotFound; }
      ghost var all := AfterPosition(rows, removed);
      var todo := AfterPosition(rows, removed);
      rows := rows - {removed};
      while todo != {}
        invariant sheets == old(sheets) && specimens == old(specimens)
        invariant todo <= all && rows == Shifted(old(rows), removed, all - todo)
        decreases |todo|
      {
        var k :| k in todo;
        assert all - (todo - {k}) == all - todo + {k};
        assert k in all && k != removed;
        rows := rows[k := rows[k] - 1];
        todo := todo - {k};
      }
      assert all - todo == all;
      return Ok;
    }

    /** ORDER BY position ASC: the row with the highest position is read last. */
    method ListSpecimens(sheet: Sheet) returns (out: seq<Specimen>)
      requires exists list :: Represents(rows, sheet, list)
      ensures Represents(rows, sheet, out)
    {
      ghost var list :| Represents(rows, sheet, list);
      ghost var left := list;
      var rest := rows;
      out := [];
      while Positions(rest, sheet) != {}
        invariant Represents(rest, sheet, left) && left + out == list
        decreases |left|
      {
        if left == [] { EmptyHasNoPositions(rest, sheet); }
        MaxPositionIsLast(rest, sheet, left);
        OnePerPosition(rest, sheet, left);
        var top := MaxPosition(rest, sheet);
        assert (sheet, left[|left| - 1]) in rest && rest[(sheet, left[|left| - 1])] == top;
        var k :| k in rest && k.0 == sheet && rest[k] == top;
        DropLast(rest, sheet, left);
        out := [k.1] + out;
        left := left[..|left| - 1];
        rest := DropSpecimen(rest, k.1);
      }
      if left != [] { HasPositions(rest, sheet, left); }
      assert out == list;
    }
  }

  lemma EmptyHasNoPositions(rows: Rows, sheet: Sheet)
    requires Represents(rows, sheet, [])
    ensures Positions(rows, sheet) == {}
  {
    forall k | k in rows
      ensures k.0 != sheet
    {
      assert k == (k.0, k.1);
    }
  }

  lemma HasPositions(rows: Rows, sheet: Sheet, list: seq<Specimen>)
    requires Represents(rows, sheet, list) && list != []
    ensures Positions(rows, sheet) != {}
  {
    assert (sheet, list[0]) in rows;
    assert rows[(sheet, list[0])] in Positions(rows, sheet);
  }

  lemma OnePerPosition(rows: Rows, sheet: Sheet, list: seq<Specimen>)
    requires Represents(rows, sheet, list)
    ensures forall s, t :: (sheet, s) in rows && (sheet, t) in rows && rows[(sheet, s)] == rows[(sheet, t)] ==> s == t
  {
    forall s, t | (sheet, s) in rows && (sheet, t) in rows && rows[(sheet, s)] == rows[(sheet, t)]
      ensures s == t
    {
      var i :| 0 <= i < |list| && list[i] == s;
      var j :| 0 <= j < |list| && list[j] == t;
    }
  }
}
