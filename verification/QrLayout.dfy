/**
 Label placement on printed QR sheets (internal/pdf/qr_sheet.go) and the page count shown
 for a sheet (internal/api/qr_sheets.go, internal/domain/domain.go). Lengths are exact
 reals in millimetres.
 */
module QrLayout {
  import opened Options
  import opened Arithmetic

  datatype Template = Template(
    pageW: real, pageH: real,  // of the named page size
    cols: nat, rows: nat,
    labelW: real, labelH: real,
    marginTop: real, marginLeft: real,
    gapH: real, gapV: real)
  {
    function Capacity(): nat {
      cols * rows
    }

    /** Distance from one column to the next, and from one row to the next. */
    function PitchH(): real {
      labelW + gapH
    }

    function PitchV(): real {
      labelH + gapV
    }
  }

  const INCH := 25.4
  const LETTER_W := 8.5 * INCH
  const LETTER_H := 11.0 * INCH
  const A4_W := 210.0
  const A4_H := 297.0

  const TEMPLATES: map<string, Template> := map[
    "avery-5160" := Template(LETTER_W, LETTER_H, 3, 10, 2.625 * INCH, 1.0 * INCH, 0.5 * INCH, 0.19 * INCH, 0.125 * INCH, 0.0),
    "avery-5163" := Template(LETTER_W, LETTER_H, 2, 5, 4.0 * INCH, 2.0 * INCH, 0.5 * INCH, 0.15 * INCH, 0.19 * INCH, 0.0),
    "avery-5164" := Template(LETTER_W, LETTER_H, 2, 3, 4.0 * INCH, 3.33 * INCH, 0.5 * INCH, 0.15 * INCH, 0.19 * INCH, 0.0),
    "avery-22806" := Template(LETTER_W, LETTER_H, 3, 4, 2.0 * INCH, 2.0 * INCH, 0.5 * INCH, 0.75 * INCH, 0.31 * INCH, 0.25 * INCH),
    "avery-l7160" := Template(A4_W, A4_H, 3, 7, 63.5, 38.1, 15.15, 4.65, 2.54, 0.0)]

  /** domain.QRSheetTemplateCapacity: a second table of the same templates. */
  function TemplateCapacity(name: string): Option<nat> {
    if name == "avery-5160" then Some(30)
    else if name == "avery-5163" then Some(10)
    else if name == "avery-5164" then Some(6)
    else if name == "avery-22806" then Some(12)
    else if name == "avery-l7160" then Some(21)
    else None
  }

  function SheetPageCount(name: string, count: nat): nat {
    if count == 0 then 0
    else match TemplateCapacity(name)
      case None => count
      case Some(capacity) => if capacity <= 0 then count else (count + capacity - 1) / capacity
  }

  // ------------------------------------------------------------------ placing

  datatype Rect = Rect(x: real, y: real, w: real, h: real)

  /** Where label i goes. */
  datatype Slot = Slot(page: nat, row: nat, col: nat)

  function SlotOf(t: Template, i: nat): Slot
    requires t.Capacity() > 0
  {
    CapacityFactors(t);
    var slot := i % t.Capacity();
    Slot(i / t.Capacity(), slot / t.cols, slot % t.cols)
  }

  function Steps(k: nat, pitch: real): real {
    k as real * pitch
  }

  function Along(margin: real, k: nat, pitch: real): real {
    margin + Steps(k, pitch)
  }

  function Cell(t: Template, row: nat, col: nat): Rect {
    Rect(Along(t.marginLeft, col, t.PitchH()), Along(t.marginTop, row, t.PitchV()), t.labelW, t.labelH)
  }

  const INSET := 0.05

  /** The largest square that honours the inset on both axes, centred in the cell. */
  function Square(t: Template, cell: Rect): Rect {
    var boxW, boxH := t.labelW * (1.0 - 2.0 * INSET), t.labelH * (1.0 - 2.0 * INSET);
    var size := if boxH < boxW then boxH else boxW;
    Rect(cell.x + (t.labelW - size) / 2.0, cell.y + (t.labelH - size) / 2.0, size, size)
  }

  function Placed(t: Template, i: nat): Rect
    requires t.Capacity() > 0
  {
    Square(t, Cell(t, SlotOf(t, i).row, SlotOf(t, i).col))
  }

  lemma CapacityFactors(t: Template)
    requires t.Capacity() > 0
    ensures t.cols > 0 && t.rows > 0
  {}

  /** The document under construction: one list of image boxes per page. */
  class Document {
    var pages: seq<seq<Rect>>

    constructor ()
      ensures pages == []
    {
      pages := [];
    }

    method AddPage()
      modifies this
      ensures pages == old(pages) + [[]]
    {
      pages := pages + [[]];
    }

    method Image(box: Rect)
      requires pages != []
      modifies this
      ensures pages == old(pages)[|old(pages)| - 1 := old(pages)[|old(pages)| - 1] + [box]]
    {
      var last := |pages| - 1;
      pages := pages[last := pages[last] + [box]];
    }

    /** One turn of the placement loop: a new page if the last one is full, then the code in its cell. */
    method Label(t: Template, slot: nat, encodes: bool, registers: bool) returns (ok: bool)
      requires t.cols > 0 && (slot > 0 ==> pages != [])
      modifies this
      ensures ok <==> encodes && registers
      ensures ok ==> pages == WithLabel(old(pages), slot, Square(t, Cell(t, slot / t.cols, slot % t.cols)))
    {
      if slot == 0 {
        AddPage();
      }
      var row := slot / t.cols;
      var col := slot % t.cols;
      if !encodes || !registers { return false; }
      Image(Square(t, Cell(t, row, col)));
      return true;
    }
  }

  // -------------------------------------------------------------- the printout

  /** q full pages and r labels on one more, each label in the box computed for its index. */
  ghost predicate LaidOut(t: Template, pages: seq<seq<Rect>>, q: nat, r: nat)
    requires t.Capacity() > 0
  {
    && |pages| == q + (if r > 0 then 1 else 0)
    && (forall p :: 0 <= p < q ==> |pages[p]| == t.Capacity())
    && (r > 0 ==> |pages[q]| == r)
    && forall p, s :: 0 <= p < |pages| && 0 <= s < |pages[p]| ==> pages[p][s] == Placed(t, p * t.Capacity() + s)
  }

  /** The pages once label number q * capacity + r is on them. */
  function WithLabel(pages: seq<seq<Rect>>, r: nat, box: Rect): seq<seq<Rect>>
    requires r > 0 ==> pages != []
  {
    var open := if r == 0 then pages + [[]] else pages;
    open[|open| - 1 := open[|open| - 1] + [box]]
  }

  lemma NextLabel(t: Template, pages: seq<seq<Rect>>, q: nat, r: nat)
    requires t.Capacity() > r && LaidOut(t, pages, q, r)
    ensures var pages' := WithLabel(pages, r, Placed(t, q * t.Capacity() + r));
            if r + 1 == t.Capacity() then LaidOut(t, pages', q + 1, 0) else LaidOut(t, pages', q, r + 1)
  {
    var pages' := WithLabel(pages, r, Placed(t, q * t.Capacity() + r));
    forall p, s | 0 <= p < |pages'| && 0 <= s < |pages'[p]|
      ensures pages'[p][s] == Placed(t, p * t.Capacity() + s)
    {
      if p < q || s < r { assert pages'[p][s] == pages[p][s]; }
    }
  }

  /** The pages after the first n labels. */
  function PagesOf(t: Template, n: nat): (pages: seq<seq<Rect>>)
    requires t.Capacity() > 0
    ensures n > 0 ==> pages != []
  {
    if n == 0 then [] else
      SlotOnPage(n - 1, t.Capacity());
      WithLabel(PagesOf(t, n - 1), (n - 1) % t.Capacity(), Placed(t, n - 1))
  }

  lemma SlotOnPage(i: nat, c: nat)
    requires c > 0
    ensures i % c > 0 ==> i > 0
  {
    if i == 0 { DivMod(0, c, 0); }
  }

  /** One label further is one slot further, or the next page. */
  lemma Advance(n: nat, c: nat, q: nat, r: nat)
    requires n == q * c + r && r < c
    ensures (n + 1) / c == if r + 1 == c then q + 1 else q
    ensures (n + 1) % c == if r + 1 == c then 0 else r + 1
  {
    if r + 1 == c {
      NextMultiple(q, c);
      DivMod(q + 1, c, 0);
    } else {
      DivMod(q, c, r + 1);
    }
  }

  lemma NextMultiple(q: nat, c: nat)
    ensures (q + 1) * c == q * c + c
  {}

  /** Label i goes in its computed box, full pages first. */
  lemma {:induction false} PagesLaidOut(t: Template, n: nat)
    requires t.Capacity() > 0
    ensures LaidOut(t, PagesOf(t, n), n / t.Capacity(), n % t.Capacity())
  {
    var c := t.Capacity();
    if n == 0 {
      DivMod(0, c, 0);
    } else {
      PagesLaidOut(t, n - 1);
      var q, r := (n - 1) / c, (n - 1) % c;
      Rejoin(n - 1, c);
      Advance(n - 1, c, q, r);
      NextLabel(t, PagesOf(t, n - 1), q, r);
    }
  }

  datatype Outcome = Printed(pages: seq<seq<Rect>>) | NoLabels | EncodeFailed(url: string) | RegisterFailed(index: nat) | OutputFailed

  /** What may go wrong outside: encoding a URL, registering image i, writing the document. */
  datatype Printer = Printer(encodes: string -> bool, registers: nat -> bool, writes: bool)

  predicate LabelOk(p: Printer, urls: seq<string>, i: nat)
    requires i < |urls|
  {
    p.encodes(urls[i]) && p.registers(i)
  }

  /** Label i is the first that fails, and this is what is reported for it. */
  ghost predicate FirstFailure(p: Printer, urls: seq<string>, i: nat, out: Outcome)
    requires i < |urls|
  {
    && (forall j :: 0 <= j < i ==> LabelOk(p, urls, j)) && !LabelOk(p, urls, i)
    && out == if !p.encodes(urls[i]) then EncodeFailed(urls[i]) else RegisterFailed(i)
  }

  /** Every label in row-major order, a new page whenever the last one is full. */
  method Generate(t: Template, urls: seq<string>, p: Printer) returns (out: Outcome)
    requires t.Capacity() > 0
    ensures out == NoLabels <==> urls == []
    ensures out.EncodeFailed? || out.RegisterFailed? <==> exists i :: 0 <= i < |urls| && FirstFailure(p, urls, i, out)
    ensures out.Printed? <==> urls != [] && p.writes && forall i :: 0 <= i < |urls| ==> LabelOk(p, urls, i)
    ensures out.Printed? ==> out.pages == PagesOf(t, |urls|)
  {
    if |urls| == 0 { return NoLabels; }
    var doc := new Document();
    var perPage := t.Capacity();
    CapacityFactors(t);
    for i := 0 to |urls|
      invariant doc.pages == PagesOf(t, i) && fresh(doc)
      invariant forall j :: 0 <= j < i ==> LabelOk(p, urls, j)
    {
      SlotOnPage(i, perPage);
      var ok := doc.Label(t, i % perPage, p.encodes(urls[i]), p.registers(i));
      if !ok {
        out := if !p.encodes(urls[i]) then EncodeFailed(urls[i]) else RegisterFailed(i);
        assert FirstFailure(p, urls, i, out);
        return;
      }
    }
    if !p.writes { return OutputFailed; }
    return Printed(doc.pages);
  }

  /** The two capacity tables agree, so the page count shown is the number of pages printed. */
  lemma PageCountShown(name: string, n: nat)
    requires name in TEMPLATES
    ensures TEMPLATES[name].Capacity() > 0 && TemplateCapacity(name) == Some(TEMPLATES[name].Capacity())
    ensures |PagesOf(TEMPLATES[name], n)| == SheetPageCount(name, n)
  {
    TemplatesFit(name);
    var c := TEMPLATES[name].Capacity();
    assert TemplateCapacity(name) == Some(c);
    PagesLaidOut(TEMPLATES[name], n);
    RoundUp(n, c);
  }

  /** A template is in both tables or in neither, and one in neither takes a page for each label. */
  lemma UnknownTemplates(name: string, n: nat)
    ensures TemplateCapacity(name).Some? <==> name in TEMPLATES
    ensures name !in TEMPLATES ==> SheetPageCount(name, n) == n
  {}

  lemma RoundUp(n: nat, c: nat)
    requires c > 0
    ensures (n + c - 1) / c == n / c + if n % c > 0 then 1 else 0
  {
    var q, r := n / c, n % c;
    assert n == q * c + r;
    if r == 0 {
      DivMod(q, c, c - 1);
    } else {
      assert (q + 1) * c + (r - 1) == n + c - 1;
      DivMod(q + 1, c, r - 1);
    }
  }

  /** Labels and (page, row, column) places correspond one to one. */
  lemma SlotInjective(t: Template, i: nat, j: nat)
    requires t.Capacity() > 0
    ensures SlotOf(t, i).row < t.rows && SlotOf(t, i).col < t.cols
    ensures SlotOf(t, i) == SlotOf(t, j) ==> i == j
  {
    CapacityFactors(t);
    RowFits(i % t.Capacity(), t.cols, t.rows);
    assert i == i / t.Capacity() * t.Capacity() + i % t.Capacity();
    assert j == j / t.Capacity() * t.Capacity() + j % t.Capacity();
    Rejoin(i % t.Capacity(), t.cols);
    Rejoin(j % t.Capacity(), t.cols);
  }

  lemma RowFits(slot: nat, cols: nat, rows: nat)
    requires cols > 0 && slot < cols * rows
    ensures slot / cols < rows
  {
    Rejoin(slot, cols);
    if slot / cols >= rows {
      ProductMonotone(rows, slot / cols, cols);
    }
  }

  lemma ProductMonotone(a: nat, b: nat, d: nat)
    requires a <= b
    ensures a * d <= b * d
  {}

  lemma SlotSurjective(t: Template, page: nat, row: nat, col: nat)
    requires row < t.rows && col < t.cols && t.Capacity() > 0
    ensures SlotOf(t, page * t.Capacity() + (row * t.cols + col)) == Slot(page, row, col)
  {
    ProductMonotone(row + 1, t.rows, t.cols);
    assert (row + 1) * t.cols == row * t.cols + t.cols;
    DivMod(page, t.Capacity(), row * t.cols + col);
    DivMod(row, t.cols, col);
  }

  // -------------------------------------------------------------- the geometry

  /** Labels of positive size, no overlap, and a grid that ends before the sheet does. */
  predicate FitsPage(t: Template) {
    && t.cols > 0 && t.rows > 0 && t.labelW > 0.0 && t.labelH > 0.0
    && t.gapH >= 0.0 && t.gapV >= 0.0 && t.marginLeft >= 0.0 && t.marginTop >= 0.0
    && Along(t.marginLeft, t.cols - 1, t.PitchH()) + t.labelW <= t.pageW
    && Along(t.marginTop, t.rows - 1, t.PitchV()) + t.labelH <= t.pageH
  }

  lemma TemplatesFit(name: string)
    requires name in TEMPLATES
    ensures FitsPage(TEMPLATES[name]) && TEMPLATES[name].Capacity() > 0
  {}

  predicate Inside(r: Rect, outer: Rect) {
    && outer.x <= r.x && r.x + r.w <= outer.x + outer.w
    && outer.y <= r.y && r.y + r.h <= outer.y + outer.h
  }

  /** No common interior point. */
  predicate Disjoint(a: Rect, b: Rect) {
    a.x + a.w <= b.x || b.x + b.w <= a.x || a.y + a.h <= b.y || b.y + b.h <= a.y
  }

  lemma Scale(x: real, y: real, p: real)
    requires x <= y && p >= 0.0
    ensures x * p <= y * p && (x + 1.0) * p == x * p + p
  {
    assert (y - x) * p >= 0.0;
  }

  lemma StepsIncrease(a: nat, b: nat, pitch: real)
    requires a <= b && pitch >= 0.0
    ensures Steps(a, pitch) <= Steps(b, pitch)
    ensures a < b ==> Steps(a, pitch) + pitch <= Steps(b, pitch)
  {
    Scale(a as real, b as real, pitch);
    if a < b { Scale(a as real + 1.0, b as real, pitch); }
  }

  lemma Stride(margin: real, a: nat, b: nat, pitch: real)
    requires a <= b && pitch >= 0.0
    ensures Along(margin, a, pitch) <= Along(margin, b, pitch)
    ensures a < b ==> Along(margin, a, pitch) + pitch <= Along(margin, b, pitch)
  {
    StepsIncrease(a, b, pitch);
  }

  lemma CellsDisjoint(t: Template, row: nat, col: nat, row': nat, col': nat)
    requires FitsPage(t) && (row != row' || col != col')
    ensures Disjoint(Cell(t, row, col), Cell(t, row', col'))
  {
    if col < col' {
      Stride(t.marginLeft, col, col', t.PitchH());
    } else if col' < col {
      Stride(t.marginLeft, col', col, t.PitchH());
    } else if row < row' {
      Stride(t.marginTop, row, row', t.PitchV());
    } else {
      Stride(t.marginTop, row', row, t.PitchV());
    }
  }

  lemma CellOnSheet(t: Template, row: nat, col: nat)
    requires FitsPage(t) && row < t.rows && col < t.cols
    ensures Inside(Cell(t, row, col), Rect(0.0, 0.0, t.pageW, t.pageH))
  {
    Stride(t.marginLeft, 0, col, t.PitchH());
    Stride(t.marginTop, 0, row, t.PitchV());
    Stride(t.marginLeft, col, t.cols - 1, t.PitchH());
    Stride(t.marginTop, row, t.rows - 1, t.PitchV());
  }

  /** The square keeps at least 5% of the cell clear on every side. */
  lemma SquareInset(t: Template, cell: Rect)
    requires FitsPage(t) && cell.w == t.labelW && cell.h == t.labelH
    ensures var clear := Rect(cell.x + INSET * cell.w, cell.y + INSET * cell.h,
                              cell.w * (1.0 - 2.0 * INSET), cell.h * (1.0 - 2.0 * INSET));
            Inside(Square(t, cell), clear) && Square(t, cell).w == Square(t, cell).h > 0.0
  {}

  /** It touches the clear area on one axis, and stands in the middle of the cell on both. */
  lemma SquareFills(t: Template, cell: Rect)
    requires FitsPage(t) && cell.w == t.labelW && cell.h == t.labelH
    ensures var sq := Square(t, cell);
            && (sq.w == cell.w * (1.0 - 2.0 * INSET) || sq.h == cell.h * (1.0 - 2.0 * INSET))
            && sq.x - cell.x == (cell.x + cell.w) - (sq.x + sq.w)
            && sq.y - cell.y == (cell.y + cell.h) - (sq.y + sq.h)
  {}

  /** The first cell stands at the margins, and neighbours are exactly the gaps apart. */
  lemma CellsByGaps(t: Template, row: nat, col: nat)
    ensures Cell(t, 0, 0) == Rect(t.marginLeft, t.marginTop, t.labelW, t.labelH)
    ensures Cell(t, row, col).w == t.labelW && Cell(t, row, col).h == t.labelH
    ensures Cell(t, row, col + 1).x - (Cell(t, row, col).x + t.labelW) == t.gapH
    ensures Cell(t, row, col + 1).y == Cell(t, row, col).y
    ensures Cell(t, row + 1, col).y - (Cell(t, row, col).y + t.labelH) == t.gapV
    ensures Cell(t, row + 1, col).x == Cell(t, row, col).x
  {
    NextStep(col, t.PitchH());
    NextStep(row, t.PitchV());
  }

  lemma NextStep(k: nat, pitch: real)
    ensures Steps(k + 1, pitch) == Steps(k, pitch) + pitch
  {
    assert (k + 1) as real == k as real + 1.0;
  }

  /**
   For every supported template and any two labels of a sheet: each label's code lies on its
   page inside its own cell with the inset clear, and two labels of one page never overlap.
   */
  lemma LabelsPrintClear(name: string, i: nat, j: nat)
    requires name in TEMPLATES
    ensures var t := TEMPLATES[name];
            && t.Capacity() > 0
            && var (a, b) := (SlotOf(t, i), SlotOf(t, j));
               && Inside(Cell(t, a.row, a.col), Rect(0.0, 0.0, t.pageW, t.pageH))
               && Inside(Placed(t, i), Cell(t, a.row, a.col))
               && (i != j && a.page == b.page ==>
                     Disjoint(Cell(t, a.row, a.col), Cell(t, b.row, b.col)) && Disjoint(Placed(t, i), Placed(t, j)))
  {
    var t := TEMPLATES[name];
    TemplatesFit(name);
    SlotInjective(t, i, j);
    SlotInjective(t, j, i);
    var a, b := SlotOf(t, i), SlotOf(t, j);
    CellOnSheet(t, a.row, a.col);
    SquareInset(t, Cell(t, a.row, a.col));
    SquareInset(t, Cell(t, b.row, b.col));
    if i != j && a.page == b.page {
      CellsDisjoint(t, a.row, a.col, b.row, b.col);
    }
  }
}
