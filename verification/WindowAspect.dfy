/** Keeping a window's client area at 16:9 while it is resized by an edge or a corner. */
module WindowAspect {
  import opened Basics

  datatype Edge = Left | Right | Top | TopLeft | TopRight | Bottom | BottomLeft | BottomRight | OtherEdge(code: int)

  datatype Bounds = Bounds(left: int, top: int, right: int, bottom: int) {
    function Width(): int { right - left }
    function Height(): int { bottom - top }
  }

  function Distance(a: int, b: int): nat { if a < b then b - a else a - b }

  predicate DragsLeft(e: Edge) { e == Left || e == TopLeft || e == BottomLeft }

  predicate DragsTop(e: Edge) { e == Top || e == TopLeft || e == TopRight }

  /** The height is the nearest to nine sixteenths of the width, the greater of two. */
  predicate NearestHeight(width: int, height: int) {
    -7 <= 16 * height - 9 * width <= 8
  }

  /** The width is the nearest to sixteen ninths of the height. */
  predicate NearestWidth(width: int, height: int) {
    -4 <= 16 * height - 9 * width <= 4
  }

  function HeightFor(width: int): (height: int)
    requires width >= 16
    ensures NearestHeight(width, height) && height >= 9
    ensures forall h :: NearestHeight(width, h) ==> h == height
  {
    Max((width * 9 + 8) / 16, 1)
  }

  function WidthFor(height: int): (width: int)
    requires height >= 9
    ensures NearestWidth(width, height) && width >= 16
    ensures forall w :: NearestWidth(w, height) ==> w == width
  {
    Max((height * 16 + 4) / 9, 1)
  }

  /** The client size a drag asks for, never below 16 by 9. */
  function Asked(b: Bounds, extraWidth: int, extraHeight: int): (size: (int, int))
    ensures size.0 >= 16 && size.1 >= 9
  {
    (Max(b.Width() - extraWidth, 16), Max(b.Height() - extraHeight, 9))
  }

  /** A side keeps the dimension it drags; a corner keeps the one that changes the other least. */
  function Target(e: Edge, size: (int, int)): (int, int)
    requires size.0 >= 16 && size.1 >= 9
  {
    match e
    case Left | Right => (size.0, HeightFor(size.0))
    case Top | Bottom => (WidthFor(size.1), size.1)
    case _ =>
      if Distance(HeightFor(size.0), size.1) <= Distance(WidthFor(size.1), size.0) then (size.0, HeightFor(size.0))
      else (WidthFor(size.1), size.1)
  }

  function Constrained(b: Bounds, e: Edge, extraWidth: int, extraHeight: int): Bounds {
    var target := Target(e, Asked(b, extraWidth, extraHeight));
    var width, height := target.0 + extraWidth, target.1 + extraHeight;
    Bounds(if DragsLeft(e) then b.right - width else b.left, if DragsTop(e) then b.bottom - height else b.top,
           if DragsLeft(e) then b.right else b.left + width, if DragsTop(e) then b.bottom else b.top + height)
  }

  class Rect {
    var left: int
    var top: int
    var right: int
    var bottom: int

    constructor (b: Bounds)
      ensures Value() == b
    {
      left, top, right, bottom := b.left, b.top, b.right, b.bottom;
    }

    function Value(): Bounds
      reads this
    {
      Bounds(left, top, right, bottom)
    }
  }

  method TargetClientSize(edge: Edge, clientWidth: int, clientHeight: int) returns (targetWidth: int, targetHeight: int)
    requires clientWidth >= 16 && clientHeight >= 9
    ensures (targetWidth, targetHeight) == Target(edge, (clientWidth, clientHeight))
  {
    hide HeightFor, WidthFor;
    targetWidth := clientWidth;
    targetHeight := clientHeight;
    if edge == Left || edge == Right {
      targetHeight := HeightFor(clientWidth);
    } else if edge == Top || edge == Bottom {
      targetWidth := WidthFor(clientHeight);
    } else {
      var heightFromWidth := HeightFor(clientWidth);
      var widthFromHeight := WidthFor(clientHeight);
      if Distance(heightFromWidth, clientHeight) <= Distance(widthFromHeight, clientWidth) {
        targetHeight := heightFromWidth;
      } else {
        targetWidth := widthFromHeight;
      }
    }
  }

  method ConstrainWindowSizingRectTo16By9(rect: Rect, edge: Edge, extraWidth: int, extraHeight: int)
    modifies rect
    ensures rect.Value() == Constrained(old(rect.Value()), edge, extraWidth, extraHeight)
  {
    hide Target, HeightFor, WidthFor;
    var outerWidth := Max(rect.right - rect.left, extraWidth + 16);
    var outerHeight := Max(rect.bottom - rect.top, extraHeight + 9);
    var clientWidth := Max(outerWidth - extraWidth, 1);
    var clientHeight := Max(outerHeight - extraHeight, 1);
    assert (clientWidth, clientHeight) == Asked(rect.Value(), extraWidth, extraHeight);

    var targetWidth, targetHeight := TargetClientSize(edge, clientWidth, clientHeight);
    var targetOuterWidth := targetWidth + extraWidth;
    var targetOuterHeight := targetHeight + extraHeight;
    if DragsLeft(edge) {
      rect.left := rect.right - targetOuterWidth;
    } else {
      rect.right := rect.left + targetOuterWidth;
    }
    if DragsTop(edge) {
      rect.top := rect.bottom - targetOuterHeight;
    } else {
      rect.bottom := rect.top + targetOuterHeight;
    }
  }

  // ----- What the result is, whatever the rectangle, edge and frame

  /** The client area is 16:9 to within half a pixel of height, and not below 16 by 9. */
  lemma ResultIs16By9(b: Bounds, e: Edge, extraWidth: int, extraHeight: int)
    ensures var c := Constrained(b, e, extraWidth, extraHeight);
            var w, h := c.Width() - extraWidth, c.Height() - extraHeight;
            NearestHeight(w, h) && w >= 16 && h >= 9
  {
    hide HeightFor, WidthFor, Asked;
    var size := Asked(b, extraWidth, extraHeight);
    var t := Target(e, size);
    assert NearestHeight(t.0, t.1) && t.0 >= 16 && t.1 >= 9;
  }

  /** The edges opposite the dragged ones stay; a dragged side keeps its own dimension, at least the
      minimum; a corner changes one dimension only, by no more than the other change would be. */
  lemma OppositeEdgesStay(b: Bounds, e: Edge, extraWidth: int, extraHeight: int)
    ensures var c := Constrained(b, e, extraWidth, extraHeight);
            && (if DragsLeft(e) then c.right == b.right else c.left == b.left)
            && (if DragsTop(e) then c.bottom == b.bottom else c.top == b.top)
            && (e == Left || e == Right ==> c.Width() == Max(b.Width(), extraWidth + 16))
            && (e == Top || e == Bottom ==> c.Height() == Max(b.Height(), extraHeight + 9))
  {
    hide HeightFor, WidthFor;
  }

  /** Edge by edge: which two edges of the window stay where they are. */
  lemma EdgesStay(b: Bounds, extraWidth: int, extraHeight: int)
    ensures var c := Constrained(b, Left, extraWidth, extraHeight); c.right == b.right && c.top == b.top
    ensures var c := Constrained(b, Right, extraWidth, extraHeight); c.left == b.left && c.top == b.top
    ensures var c := Constrained(b, Top, extraWidth, extraHeight); c.left == b.left && c.bottom == b.bottom
    ensures var c := Constrained(b, Bottom, extraWidth, extraHeight); c.left == b.left && c.top == b.top
    ensures var c := Constrained(b, TopLeft, extraWidth, extraHeight); c.right == b.right && c.bottom == b.bottom
    ensures var c := Constrained(b, TopRight, extraWidth, extraHeight); c.left == b.left && c.bottom == b.bottom
    ensures var c := Constrained(b, BottomLeft, extraWidth, extraHeight); c.right == b.right && c.top == b.top
    ensures var c := Constrained(b, BottomRight, extraWidth, extraHeight); c.left == b.left && c.top == b.top
  {
    hide Target, Asked;
  }

  /** A window without a frame, in numbers: a side and a top. */
  lemma SideSizes()
    ensures Constrained(Bounds(100, 100, 740, 500), Right, 0, 0) == Bounds(100, 100, 740, 460)
    ensures Constrained(Bounds(100, 100, 740, 460), Top, 0, 0) == Bounds(100, 100, 740, 460)
  {
  }

  /** Changing the height is never the greater change, so a corner always keeps the width, at least the
      minimum, and the other branch is never taken. */
  lemma CornerKeepsWidth(b: Bounds, e: Edge, extraWidth: int, extraHeight: int)
    requires e !in {Left, Right, Top, Bottom}
    ensures Constrained(b, e, extraWidth, extraHeight).Width() == Max(b.Width(), extraWidth + 16)
  {
    hide HeightFor, WidthFor;
    var size := Asked(b, extraWidth, extraHeight);
    HeightMovesLess(size.0, size.1);
  }

  lemma HeightMovesLess(width: int, height: int)
    requires width >= 16 && height >= 9
    ensures Distance(HeightFor(width), height) <= Distance(WidthFor(height), width)
  {
    hide HeightFor, WidthFor;
    var h, w := HeightFor(width), WidthFor(height);
    assert NearestHeight(width, h) && NearestWidth(w, height);
  }

  /** Of the two ways a corner can restore the ratio, it takes the one that moves less. */
  lemma CornerMovesLeast(b: Bounds, e: Edge, extraWidth: int, extraHeight: int, width: int, height: int)
    requires e !in {Left, Right, Top, Bottom}
    requires var size := Asked(b, extraWidth, extraHeight);
             (width == size.0 && NearestHeight(width, height)) || (height == size.1 && NearestWidth(width, height))
    ensures var c := Constrained(b, e, extraWidth, extraHeight);
            var size := Asked(b, extraWidth, extraHeight);
            Distance(c.Width() - extraWidth, size.0) + Distance(c.Height() - extraHeight, size.1)
            <= Distance(width, size.0) + Distance(height, size.1)
  {
    hide HeightFor, WidthFor, Asked;
    var size := Asked(b, extraWidth, extraHeight);
    assert (height == HeightFor(size.0) && width == size.0) || (width == WidthFor(size.1) && height == size.1);
  }

  /** Once at 16:9, every side but top and bottom, and every corner, finds nothing to do; those two
      keep the height and move the width by a pixel at most. */
  lemma ReapplyingBarelyMoves(b: Bounds, e: Edge, again: Edge, extraWidth: int, extraHeight: int)
    ensures var c := Constrained(b, e, extraWidth, extraHeight);
            var d := Constrained(c, again, extraWidth, extraHeight);
            && (again == e || again !in {Top, Bottom} ==> d == c)
            && d.Height() == c.Height() && Distance(d.Width(), c.Width()) <= 1
            && Distance(d.left, c.left) <= 1 && Distance(d.right, c.right) <= 1 && d.top == c.top && d.bottom == c.bottom
  {
    hide HeightFor, WidthFor;
    ResultIs16By9(b, e, extraWidth, extraHeight);
    var c := Constrained(b, e, extraWidth, extraHeight);
    var size := Asked(c, extraWidth, extraHeight);
    assert size == (c.Width() - extraWidth, c.Height() - extraHeight);
    assert HeightFor(size.0) == size.1;
    assert Distance(WidthFor(size.1), size.0) <= 1;
  }

  // ----- The source's integers

  predicate InLong(x: int) {
    -0x8000_0000 <= x < 0x8000_0000
  }

  predicate Moderate(x: int) {
    -0x200_0000 <= x <= 0x200_0000
  }

  /** With coordinates and frame within thirty-two million, no value the routine computes leaves 32
      bits: the differences, the clamped outer and client sizes, the products, the distances of a
      corner, the target sizes and the four edges. */
  lemma NoOverflow(b: Bounds, e: Edge, extraWidth: int, extraHeight: int)
    requires Moderate(b.left) && Moderate(b.top) && Moderate(b.right) && Moderate(b.bottom)
    requires 0 <= extraWidth <= 0x200_0000 && 0 <= extraHeight <= 0x200_0000
    ensures InLong(b.Width()) && InLong(b.Height()) && InLong(extraWidth + 16) && InLong(extraHeight + 9)
    ensures InLong(Max(b.Width(), extraWidth + 16)) && InLong(Max(b.Height(), extraHeight + 9))
    ensures var size := Asked(b, extraWidth, extraHeight);
            && InLong(size.0) && InLong(size.1) && InLong(size.0 * 9 + 8) && InLong(size.1 * 16 + 4)
            && InLong(HeightFor(size.0) - size.1) && InLong(WidthFor(size.1) - size.0)
            && InLong(Target(e, size).0 + extraWidth) && InLong(Target(e, size).1 + extraHeight)
    ensures var c := Constrained(b, e, extraWidth, extraHeight);
            InLong(c.left) && InLong(c.top) && InLong(c.right) && InLong(c.bottom)
  {
    hide Asked, Target, HeightFor, WidthFor;
    var size := Asked(b, extraWidth, extraHeight);
    AskedIsModerate(b, extraWidth, extraHeight);
    TargetIsModerate(e, size);
  }

  lemma AskedIsModerate(b: Bounds, extraWidth: int, extraHeight: int)
    requires Moderate(b.left) && Moderate(b.top) && Moderate(b.right) && Moderate(b.bottom)
    requires 0 <= extraWidth <= 0x200_0000 && 0 <= extraHeight <= 0x200_0000
    ensures Asked(b, extraWidth, extraHeight).0 <= 0x400_0000 && Asked(b, extraWidth, extraHeight).1 <= 0x400_0000
  {
  }

  lemma TargetIsModerate(e: Edge, size: (int, int))
    requires 16 <= size.0 <= 0x400_0000 && 9 <= size.1 <= 0x400_0000
    ensures 9 <= HeightFor(size.0) <= 0x400_0000 && 16 <= WidthFor(size.1) <= 0x800_0000
    ensures 16 <= Target(e, size).0 <= 0x800_0000 && 9 <= Target(e, size).1 <= 0x400_0000
  {
  }
}
