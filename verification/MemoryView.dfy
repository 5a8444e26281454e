/** The debugger's hex view: rows of sixteen bytes under a scroll bar, with a highlighted range. */
module MemoryView {
  import opened Basics
  import opened Wrappers

  const BYTES_PER_LINE: nat := 16

  /** The conversion of a size to a signed 32-bit integer. */
  function AsInt(n: nat): int {
    var low := n % 0x1_0000_0000;
    if low < 0x8000_0000 then low else low - 0x1_0000_0000
  }

  /** A scroll bar from zero to a maximum; its value is clamped to the range. */
  datatype ScrollBar = ScrollBar(maximum: int, value: int) {
    predicate Valid() { 0 <= value <= maximum }

    function SetRange(max: int): ScrollBar {
      var m := Max(0, max);
      ScrollBar(m, Max(0, Min(value, m)))
    }

    function SetValue(v: int): ScrollBar {
      this.(value := Max(0, Min(v, maximum)))
    }
  }

  datatype View = View(addressOffset: nat, data: Option<seq<nat>>, dataSize: nat, highlightStart: nat, highlightEnd: nat,
                       charHeight: nat, viewportHeight: nat, rowsVisible: nat, scroll: ScrollBar)
  {
    function TotalRows(): nat { (dataSize + BYTES_PER_LINE - 1) / BYTES_PER_LINE }

    predicate Empty() { data.None? || dataSize == 0 }
  }

  /** What every caller keeps: a buffer of its stated size, a positive character height, and no more
      rows than an int can count. */
  predicate Sound(v: View) {
    && v.charHeight >= 1
    && (v.data.Some? ==> |v.data.value| == v.dataSize)
    && v.TotalRows() < 0x8000_0000
  }

  // ----- The operations

  function Adjusted(v: View): View
    requires v.charHeight >= 1
  {
    if v.Empty() then v.(scroll := v.scroll.SetRange(0)) else
    var visible := VisibleRows(v);
    var maximumRow := if v.TotalRows() > visible then AsInt(v.TotalRows() - visible) else 0;
    v.(rowsVisible := visible, scroll := v.scroll.SetRange(maximumRow))
  }

  datatype Op =
    | SetData(addressOffset: nat, data: Option<seq<nat>>, size: nat)
    | SetHighlight(start: nat, end: nat)
    | ClearHighlight
    | ScrollTo(offset: nat)
    | ScrollToAddress(address: nat)
    | DragTo(row: int)
    | Resize(height: nat)
    | SetFont(charHeight: nat)

  predicate Allowed(op: Op) {
    match op
    case SetData(_, data, size) =>
      (data.Some? ==> |data.value| == size) && (size + BYTES_PER_LINE - 1) / BYTES_PER_LINE < 0x8000_0000
    case SetFont(h) => h >= 1
    case _ => true
  }

  /** The scroll bar's change of value adjusts the content again. */
  function Scrolled(v: View, row: int): View
    requires v.charHeight >= 1
  {
    var moved := v.(scroll := v.scroll.SetValue(row));
    if moved.scroll.value != v.scroll.value then Adjusted(moved) else moved
  }

  function ScrolledTo(v: View, offset: nat): View
    requires v.charHeight >= 1
  {
    if v.dataSize == 0 then v else Scrolled(v, AsInt(Min(offset, v.dataSize - 1) / BYTES_PER_LINE))
  }

  function Step(v: View, op: Op): View
    requires v.charHeight >= 1 && Allowed(op)
  {
    match op
    case SetData(address, data, size) =>
      var w := v.(addressOffset := address, data := data, dataSize := size);
      Adjusted(if w.scroll.value != 0 then Scrolled(w, 0) else w)
    case SetHighlight(start, end) =>
      v.(highlightStart := Min(start, v.dataSize), highlightEnd := Min(Max(start, end), v.dataSize))
    case ClearHighlight => v.(highlightStart := 0, highlightEnd := 0)
    case ScrollTo(offset) => ScrolledTo(v, offset)
    case ScrollToAddress(address) =>
      ScrolledTo(v, if address > v.addressOffset then address - v.addressOffset else 0)
    case DragTo(row) => Scrolled(v, row)
    case Resize(height) => Adjusted(v.(viewportHeight := height))
    case SetFont(h) => Adjusted(v.(charHeight := h))
  }

  // ----- The scroll bar fits the data

  function VisibleRows(v: View): int
    requires v.charHeight >= 1
  {
    Max(1, v.viewportHeight / v.charHeight - 1)
  }

  /** The rows shown are those the viewport holds, and the range ends where the last row of the data
      is the last row shown. */
  predicate Fits(v: View) {
    && Sound(v) && v.rowsVisible >= 1 && v.scroll.Valid()
    && (!v.Empty() ==> v.rowsVisible == VisibleRows(v))
    && v.scroll.maximum == if v.Empty() then 0 else Max(0, v.TotalRows() - v.rowsVisible)
  }

  lemma SmallIsItself(n: nat)
    requires n < 0x8000_0000
    ensures AsInt(n) == n
  {
  }

  lemma AdjustedFits(v: View)
    requires Sound(v) && v.rowsVisible >= 1
    ensures Fits(Adjusted(v))
  {
    hide AsInt;
    if !v.Empty() {
      var visible := VisibleRows(v);
      if v.TotalRows() > visible { SmallIsItself(v.TotalRows() - visible); }
    }
  }

  lemma ScrolledFits(v: View, row: int)
    requires Fits(v)
    ensures Fits(Scrolled(v, row))
  {
    hide Adjusted;
    AdjustedFits(v.(scroll := v.scroll.SetValue(row)));
  }

  lemma ScrolledKeeps(v: View, row: int)
    requires Sound(v) && v.rowsVisible >= 1
    ensures Sound(Scrolled(v, row)) && Scrolled(v, row).rowsVisible >= 1
  {
    hide AsInt;
  }

  /** Every operation leaves the scroll bar fitted. */
  lemma StepFits(v: View, op: Op)
    requires Fits(v) && Allowed(op)
    ensures Fits(Step(v, op))
  {
    hide Adjusted, Scrolled, AsInt;
    match op
    case SetData(address, data, size) =>
      var w := v.(addressOffset := address, data := data, dataSize := size);
      ScrolledKeeps(w, 0);
      AdjustedFits(if w.scroll.value != 0 then Scrolled(w, 0) else w);
    case SetHighlight(_, _) =>
    case ClearHighlight =>
    case ScrollTo(offset) => ScrolledToFits(v, offset);
    case ScrollToAddress(address) =>
      ScrolledToFits(v, if address > v.addressOffset then address - v.addressOffset else 0);
    case DragTo(row) => ScrolledFits(v, row);
    case Resize(height) => AdjustedFits(v.(viewportHeight := height));
    case SetFont(h) => AdjustedFits(v.(charHeight := h));
  }

  lemma ScrolledToFits(v: View, offset: nat)
    requires Fits(v)
    ensures Fits(ScrolledTo(v, offset))
  {
    hide Scrolled, AsInt;
    if v.dataSize > 0 { ScrolledFits(v, AsInt(Min(offset, v.dataSize - 1) / BYTES_PER_LINE)); }
  }

  /** The signals that changing the scroll bar sends find nothing left to adjust. */
  lemma AdjustedIsSettled(v: View)
    requires v.charHeight >= 1
    ensures Adjusted(Adjusted(v)) == Adjusted(v)
  {
    hide AsInt;
  }

  function Run(v: View, ops: seq<Op>): View
    requires Fits(v) && forall i :: 0 <= i < |ops| ==> Allowed(ops[i])
    ensures Fits(Run(v, ops))
  {
    if ops == [] then v
    else
      var w := Run(v, ops[..|ops| - 1]);
      StepFits(w, ops[|ops| - 1]);
      Step(w, ops[|ops| - 1])
  }

  // ----- Painting

  function FirstRow(v: View): int { v.scroll.value }

  function LastRow(v: View): int { Min(v.TotalRows(), FirstRow(v) + v.rowsVisible) }

  datatype Cell = Cell(offset: nat, value: nat, highlighted: bool, hexX: int, asciiX: int, y: int)

  predicate Highlighted(v: View, offset: nat) {
    v.highlightStart <= offset < v.highlightEnd
  }

  /** The cell of one byte, from its place in the row and the row's place in the window. */
  function CellOf(v: View, charWidth: nat, horizontal: int, offset: nat): Cell
    requires v.data.Some? && offset < |v.data.value|
  {
    var col, row := offset % BYTES_PER_LINE, offset / BYTES_PER_LINE;
    Cell(offset, v.data.value[offset], Highlighted(v, offset),
         10 * charWidth - horizontal + col * 3 * charWidth, 59 * charWidth - horizontal + col * charWidth,
         (row - FirstRow(v) + 2) * v.charHeight)
  }

  /** The offsets painted: from the first row's to the last row's end or the end of the data. */
  function PaintedFrom(v: View): int { FirstRow(v) * BYTES_PER_LINE }

  function PaintedTo(v: View): int { Max(PaintedFrom(v), Min(LastRow(v) * BYTES_PER_LINE, v.dataSize)) }

  /** The bytes from the first painted on, in order. */
  ghost predicate CellsPainted(v: View, charWidth: nat, horizontal: int, cells: seq<Cell>)
    requires Fits(v) && !v.Empty()
  {
    forall i: nat :: i < |cells| ==> PaintedFrom(v) + i < v.dataSize
                                     && cells[i] == CellOf(v, charWidth, horizontal, PaintedFrom(v) + i)
  }

  /** Every byte of the window once, in order, each in its own cell. */
  ghost predicate PaintsWindow(v: View, charWidth: nat, horizontal: int, cells: seq<Cell>)
    requires Fits(v) && !v.Empty()
  {
    |cells| == PaintedTo(v) - PaintedFrom(v) && CellsPainted(v, charWidth, horizontal, cells)
  }

  lemma WindowInData(v: View)
    requires Fits(v) && !v.Empty()
    ensures 0 <= FirstRow(v) < LastRow(v) <= v.TotalRows()
    ensures PaintedFrom(v) < PaintedTo(v) <= v.dataSize
    ensures (LastRow(v) - 1) * BYTES_PER_LINE < v.dataSize
  {
  }

  method PaintEvent(v: View, charWidth: nat, horizontal: int) returns (cells: seq<Cell>)
    requires Fits(v)
    ensures v.Empty() ==> cells == []
    ensures !v.Empty() ==> PaintsWindow(v, charWidth, horizontal, cells)
  {
    cells := [];
    if v.data.None? || v.dataSize == 0 { return; }
    var hexX := 10 * charWidth - horizontal;
    var asciiX := 59 * charWidth - horizontal;
    var firstRow := v.scroll.value;
    var totalRows := (v.dataSize + BYTES_PER_LINE - 1) / BYTES_PER_LINE;
    var lastRow := Min(totalRows, firstRow + v.rowsVisible);
    WindowInData(v);
    for row := firstRow to lastRow
      invariant |cells| == Min(row * BYTES_PER_LINE, v.dataSize) - PaintedFrom(v)
      invariant CellsPainted(v, charWidth, horizontal, cells)
    {
      var rowOffset := row * BYTES_PER_LINE;
      var y := (row - firstRow + 2) * v.charHeight;
      for col := 0 to BYTES_PER_LINE
        invariant rowOffset + col <= v.dataSize
        invariant |cells| == rowOffset + col - PaintedFrom(v)
        invariant CellsPainted(v, charWidth, horizontal, cells)
      {
        var offset := rowOffset + col;
        if offset >= v.dataSize { break; }
        var highlighted := offset >= v.highlightStart && offset < v.highlightEnd;
        CellPlace(row, col);
        cells := cells + [Cell(offset, v.data.value[offset], highlighted, hexX + col * 3 * charWidth, asciiX + col * charWidth, y)];
        assert cells[|cells| - 1] == CellOf(v, charWidth, horizontal, offset);
      }
    }
  }

  lemma CellPlace(row: nat, col: nat)
    requires col < BYTES_PER_LINE
    ensures (row * BYTES_PER_LINE + col) / BYTES_PER_LINE == row && (row * BYTES_PER_LINE + col) % BYTES_PER_LINE == col
  {
  }

  /** A row of the data scrolled to is among those shown. */
  lemma ScrolledValue(v: View, row: int)
    requires Fits(v) && !v.Empty() && 0 <= row < v.TotalRows()
    ensures var w := Scrolled(v, row);
            && w.data == v.data && w.dataSize == v.dataSize
            && FirstRow(w) <= row < FirstRow(w) + w.rowsVisible
  {
    hide AsInt;
    var moved := v.(scroll := v.scroll.SetValue(row));
    if v.TotalRows() > v.rowsVisible { SmallIsItself(v.TotalRows() - v.rowsVisible); }
    AdjustedFitted(moved);
  }

  lemma AdjustedFitted(v: View)
    requires Fits(v)
    ensures Adjusted(v) == v
  {
    hide AsInt;
    if !v.Empty() && v.TotalRows() > v.rowsVisible { SmallIsItself(v.TotalRows() - v.rowsVisible); }
  }

  lemma OffsetRow(offset: nat, size: nat)
    requires offset < size && (size + BYTES_PER_LINE - 1) / BYTES_PER_LINE < 0x8000_0000
    ensures offset / BYTES_PER_LINE < (size + BYTES_PER_LINE - 1) / BYTES_PER_LINE
    ensures AsInt(offset / BYTES_PER_LINE) == offset / BYTES_PER_LINE
  {
    SmallIsItself(offset / BYTES_PER_LINE);
  }

  /** After scrolling to an offset, the byte there, or the last byte, is among those painted. */
  lemma ScrolledOffsetIsPainted(v: View, offset: nat, charWidth: nat, horizontal: int, cells: seq<Cell>)
    requires Fits(v) && !v.Empty() && Fits(ScrolledTo(v, offset)) && !ScrolledTo(v, offset).Empty()
    requires PaintsWindow(ScrolledTo(v, offset), charWidth, horizontal, cells)
    ensures exists i :: 0 <= i < |cells| && cells[i].offset == Min(offset, v.dataSize - 1)
  {
    hide Scrolled, AsInt;
    var at: nat := Min(offset, v.dataSize - 1);
    var row := at / BYTES_PER_LINE;
    OffsetRow(at, v.dataSize);
    SoundData(v);
    ScrolledValue(v, row);
    var w := ScrolledTo(v, offset);
    assert w == Scrolled(v, row);
    var i := at - PaintedFrom(w);
    assert 0 <= i < |cells|;
    assert cells[i] == CellOf(w, charWidth, horizontal, at);
  }

  lemma SoundData(v: View)
    requires Fits(v)
    ensures v.TotalRows() < 0x8000_0000
  {
  }

  /** No two cells share a place: later rows are at least a line lower, and within a row the
      hexadecimal columns are apart from each other, and so are the characters. */
  lemma CellsDoNotOverlap(v: View, charWidth: nat, horizontal: int, a: nat, b: nat)
    requires Fits(v) && !v.Empty() && charWidth >= 1 && a < b < v.dataSize
    ensures var p, q := CellOf(v, charWidth, horizontal, a), CellOf(v, charWidth, horizontal, b);
            || q.y >= p.y + v.charHeight
            || (q.y == p.y && q.hexX >= p.hexX + 3 * charWidth && q.asciiX >= p.asciiX + charWidth)
  {
    hide CellOf, Place, Fits;
    CellPlaced(v, charWidth, horizontal, a);
    CellPlaced(v, charWidth, horizontal, b);
    PlacesInOrder(a, b);
    Scale(v.charHeight, Place(a).0 - FirstRow(v) + 2, Place(b).0 - FirstRow(v) + 2);
    Scale(charWidth, Place(a).1, Place(b).1);
  }

  /** Every hexadecimal cell ends before the first character column begins. */
  lemma HexBeforeCharacters(v: View, charWidth: nat, horizontal: int, a: nat, b: nat)
    requires Fits(v) && !v.Empty() && a < v.dataSize && b < v.dataSize
    ensures CellOf(v, charWidth, horizontal, a).hexX + 3 * charWidth <= CellOf(v, charWidth, horizontal, b).asciiX
  {
    hide CellOf, Place, Fits;
    CellPlaced(v, charWidth, horizontal, a);
    CellPlaced(v, charWidth, horizontal, b);
    PlacesInOrder(a, a + 1);
    PlacesInOrder(b, b + 1);
    Scale(charWidth, Place(a).1, 15);
    Scale(charWidth, 0, Place(b).1);
  }

  lemma CellPlaced(v: View, charWidth: nat, horizontal: int, offset: nat)
    requires Fits(v) && !v.Empty() && offset < v.dataSize
    ensures var c, p := CellOf(v, charWidth, horizontal, offset), Place(offset);
            && c.hexX == 10 * charWidth - horizontal + 3 * (p.1 * charWidth)
            && c.asciiX == 59 * charWidth - horizontal + p.1 * charWidth
            && c.y == (p.0 - FirstRow(v) + 2) * v.charHeight
  {
    hide BYTES_PER_LINE, Highlighted;
    var p := Place(offset);
    Triple(p.1, charWidth);
    assert CellOf(v, charWidth, horizontal, offset).hexX == 10 * charWidth - horizontal + p.1 * 3 * charWidth;
  }

  lemma Triple(m: nat, unit: nat)
    ensures m * 3 * unit == 3 * (m * unit)
  {
  }

  function Place(offset: nat): (nat, nat) {
    (offset / BYTES_PER_LINE, offset % BYTES_PER_LINE)
  }

  lemma PlacesInOrder(a: nat, b: nat)
    requires a < b
    ensures Place(a).1 <= 15 && Place(b).1 <= 15
    ensures Place(a).0 < Place(b).0 || (Place(a).0 == Place(b).0 && Place(a).1 < Place(b).1)
  {
  }

  lemma {:induction false} Scale(unit: nat, m: int, n: int)
    ensures m < n ==> n * unit >= m * unit + unit
    ensures m <= n ==> m * unit <= n * unit
    decreases n - m
  {
    if m < n {
      Scale(unit, m, n - 1);
      assert n * unit == (n - 1) * unit + unit;
    }
  }

  // ----- What is on the screen, in numbers

  /** Sixteen bytes to a row, one line less than the viewport holds, and a scroll bar over the rest. */
  lemma ScreenHolds(v: View)
    requires Fits(v) && !v.Empty()
    ensures v.rowsVisible == if v.viewportHeight / v.charHeight > 2 then v.viewportHeight / v.charHeight - 1 else 1
    ensures var rows := (v.dataSize + 15) / 16;
            v.scroll.maximum == if rows > v.rowsVisible then rows - v.rowsVisible else 0
  {
  }

  /** Where a scroll goes: to the row of the offset, of the last byte beyond the end, and no further down
      than the bar; and to an address by its distance from the first one. */
  lemma ScrollGoes(v: View, offset: nat)
    requires Fits(v) && !v.Empty()
    ensures var row := (if offset < v.dataSize then offset else v.dataSize - 1) / 16;
            Step(v, ScrollTo(offset)).scroll.value == if row < v.scroll.maximum then row else v.scroll.maximum
    ensures Step(v, ScrollToAddress(v.addressOffset + offset)) == Step(v, ScrollTo(offset))
    ensures offset < v.addressOffset ==> Step(v, ScrollToAddress(offset)) == Step(v, ScrollTo(0))
  {
    hide Adjusted, AsInt, Scrolled;
    var at: nat := Min(offset, v.dataSize - 1);
    OffsetRow(at, v.dataSize);
    SoundData(v);
    ScrolledGoes(v, at / BYTES_PER_LINE);
  }

  lemma ScrolledGoes(v: View, row: nat)
    requires Fits(v)
    ensures Scrolled(v, row).scroll.value == if row < v.scroll.maximum then row else v.scroll.maximum
  {
    hide Adjusted;
    AdjustedFitted(v.(scroll := v.scroll.SetValue(row)));
  }

  /** The cells painted: how many, and of each its byte, its colour and its place. */
  lemma CellsRead(v: View, charWidth: nat, horizontal: int, cells: seq<Cell>, i: nat)
    requires Fits(v) && !v.Empty() && PaintsWindow(v, charWidth, horizontal, cells)
    ensures var end := (v.scroll.value + v.rowsVisible) * 16;
            |cells| == (if end < v.dataSize then end else v.dataSize) - v.scroll.value * 16
    ensures i < |cells| ==>
              var offset, c := v.scroll.value * 16 + i, cells[i];
              && c.offset == offset < v.dataSize && c.value == v.data.value[offset]
              && (c.highlighted <==> v.highlightStart <= offset < v.highlightEnd)
              && c.hexX == 10 * charWidth - horizontal + i % 16 * 3 * charWidth
              && c.asciiX == 59 * charWidth - horizontal + i % 16 * charWidth
              && c.y == (i / 16 + 2) * v.charHeight
  {
    WindowInData(v);
    hide Fits;
    if i < |cells| { RowsApart(v.scroll.value, i); }
  }

  lemma RowsApart(row: int, i: nat)
    requires row >= 0
    ensures (row * 16 + i) / 16 == row + i / 16 && (row * 16 + i) % 16 == i % 16
  {
  }

  /** What each of the other operations changes. */
  lemma OperationsRead(v: View, address: nat, data: seq<nat>, start: nat, end: nat, row: nat)
    requires Fits(v) && Allowed(SetData(address, Some(data), |data|))
    ensures var w := Step(v, SetData(address, Some(data), |data|));
            && w.addressOffset == address && w.data == Some(data) && w.dataSize == |data| && w.scroll.value == 0
            && w.highlightStart == v.highlightStart && w.highlightEnd == v.highlightEnd
    ensures var w := Step(v, SetHighlight(start, end));
            && w == v.(highlightStart := w.highlightStart, highlightEnd := w.highlightEnd)
            && (start <= end <= v.dataSize ==> w.highlightStart == start && w.highlightEnd == end)
            && (start > end && start <= v.dataSize ==> w.highlightStart == w.highlightEnd == start)
            && w.highlightStart <= w.highlightEnd <= v.dataSize
    ensures Step(v, ClearHighlight) == v.(highlightStart := 0, highlightEnd := 0)
    ensures Step(v, DragTo(row)).scroll.value == if row < v.scroll.maximum then row else v.scroll.maximum
  {
    hide AsInt, Scrolled;
    ScrolledGoes(v, row);
    var w := v.(addressOffset := address, data := Some(data), dataSize := |data|);
    if w.scroll.value != 0 { TopOf(w); }
  }

  lemma TopOf(v: View)
    requires v.charHeight >= 1 && 0 <= v.scroll.value <= v.scroll.maximum
    ensures Scrolled(v, 0).scroll.value == 0 && Scrolled(v, 0) == Scrolled(v, 0).(addressOffset := v.addressOffset,
      data := v.data, dataSize := v.dataSize, highlightStart := v.highlightStart, highlightEnd := v.highlightEnd)
  {
    hide AsInt;
  }

  // ----- The highlight

  predicate HighlightFits(v: View) {
    v.highlightStart <= v.highlightEnd <= v.dataSize
  }

  /** New data is at least as long as the range that is highlighted. */
  predicate Guarded(v: View, op: Op) {
    op.SetData? ==> v.highlightEnd <= op.size
  }

  /** An operation keeps the highlight within the data exactly when it is no shorter than the
      highlight's end. */
  lemma HighlightStaysIff(v: View, op: Op)
    requires Fits(v) && Allowed(op) && HighlightFits(v)
    ensures HighlightFits(Step(v, op)) <==> Guarded(v, op)
  {
    hide Fits, AsInt;
  }

  /** Over a run, the highlight is within the data at every point exactly when every new data was
      long enough for the highlight there was. */
  lemma {:induction false} HighlightRunIff(v: View, ops: seq<Op>, n: nat)
    requires Fits(v) && HighlightFits(v) && n <= |ops|
    requires forall i :: 0 <= i < |ops| ==> Allowed(ops[i])
    ensures (forall k :: 0 <= k <= n ==> HighlightFits(Run(v, ops[..k])))
            <==> (forall k :: 0 <= k < n ==> Guarded(Run(v, ops[..k]), ops[k]))
  {
    hide Fits, HighlightFits, Guarded, Step, Allowed;
    assert ops[..0] == [];
    if n > 0 {
      HighlightRunIff(v, ops, n - 1);
      assert ops[..n][..n - 1] == ops[..n - 1];
      var w := Run(v, ops[..n - 1]);
      if HighlightFits(w) { HighlightStaysIff(w, ops[n - 1]); }
    }
  }

  /** Shorter data under an old highlight: the range ends beyond the data. */
  lemma StaleHighlight()
    ensures var v := View(0, Some([7, 7, 7, 7]), 4, 2, 4, 1, 100, 99, ScrollBar(0, 0));
            Fits(v) && HighlightFits(v) && Allowed(SetData(0, Some([7]), 1)) && !HighlightFits(Step(v, SetData(0, Some([7]), 1)))
  {
    var v := View(0, Some([7, 7, 7, 7]), 4, 2, 4, 1, 100, 99, ScrollBar(0, 0));
    HighlightStaysIff(v, SetData(0, Some([7]), 1));
  }

  // ----- The widget

  class MemoryViewWidget {
    var addressOffset: nat
    var data: Option<seq<nat>>
    var dataSize: nat
    var highlightStart: nat
    var highlightEnd: nat
    var charHeight: nat
    var viewportHeight: nat
    var rowsVisible: nat
    var scroll: ScrollBar

    ghost function State(): View
      reads this
    {
      View(addressOffset, data, dataSize, highlightStart, highlightEnd, charHeight, viewportHeight, rowsVisible, scroll)
    }

    constructor (charHeight: nat, viewportHeight: nat)
      requires charHeight >= 1
      ensures Fits(State()) && HighlightFits(State())
    {
      addressOffset, data, dataSize, highlightStart, highlightEnd := 0, None, 0, 0, 0;
      this.charHeight, this.viewportHeight, rowsVisible, scroll := charHeight, viewportHeight, 1, ScrollBar(0, 0);
    }

    method AdjustContent()
      requires charHeight >= 1
      modifies this
      ensures State() == Adjusted(old(State()))
    {
      if data.None? || dataSize == 0 {
        scroll := scroll.SetRange(0);
        return;
      }
      rowsVisible := Max(1, viewportHeight / charHeight - 1);
      var totalRows := (dataSize + BYTES_PER_LINE - 1) / BYTES_PER_LINE;
      var maximumRow := if totalRows > rowsVisible then AsInt(totalRows - rowsVisible) else 0;
      scroll := scroll.SetRange(maximumRow);
    }

    method SetScrollValue(row: int)
      requires charHeight >= 1
      modifies this
      ensures State() == Scrolled(old(State()), row)
    {
      var before := scroll.value;
      scroll := scroll.SetValue(row);
      if scroll.value != before { AdjustContent(); }
    }

    method SetData(addressOffset: nat, data: Option<seq<nat>>, size: nat)
      requires charHeight >= 1 && Allowed(Op.SetData(addressOffset, data, size))
      modifies this
      ensures State() == Step(old(State()), Op.SetData(addressOffset, data, size))
    {
      this.addressOffset := addressOffset;
      this.data := data;
      dataSize := size;
      if scroll.value != 0 { SetScrollValue(0); }
      AdjustContent();
    }

    method SetHighlightRange(start: nat, end: nat)
      requires charHeight >= 1
      modifies this
      ensures State() == Step(old(State()), SetHighlight(start, end))
    {
      highlightStart := Min(start, dataSize);
      highlightEnd := Min(Max(start, end), dataSize);
    }

    method ClearHighlightRange()
      requires charHeight >= 1
      modifies this
      ensures State() == Step(old(State()), ClearHighlight)
    {
      highlightStart := 0;
      highlightEnd := 0;
    }

    method ScrollToOffset(offset: nat)
      requires charHeight >= 1
      modifies this
      ensures State() == Step(old(State()), ScrollTo(offset))
    {
      if dataSize == 0 { return; }
      var clamped := Min(offset, dataSize - 1);
      SetScrollValue(AsInt(clamped / BYTES_PER_LINE));
    }

    method ScrollToAddress(address: nat)
      requires charHeight >= 1
      modifies this
      ensures State() == Step(old(State()), Op.ScrollToAddress(address))
    {
      var offset := if address > addressOffset then address - addressOffset else 0;
      ScrollToOffset(offset);
    }

    method ResizeEvent(height: nat)
      requires charHeight >= 1
      modifies this
      ensures State() == Step(old(State()), Resize(height))
    {
      viewportHeight := height;
      AdjustContent();
    }

    method SetFont(charHeight: nat)
      requires charHeight >= 1 && this.charHeight >= 1
      modifies this
      ensures State() == Step(old(State()), Op.SetFont(charHeight))
    {
      this.charHeight := charHeight;
      AdjustContent();
    }
  }
}
