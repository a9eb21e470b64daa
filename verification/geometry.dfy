/**
 * The rectangle value object: four stored integers (x, y, width, height) and
 * the edges derived from them.
 */
module Geometry {
  import opened Wrappers

  /** The four stored integers of a rectangle. */
  datatype Box = Box(x: int, y: int, width: int, height: int) {
    function Right(): int { x + width }
    function Bottom(): int { y + height }
  }

  const Origin := Box(0, 0, 0, 0)

  /** The keywords a rectangle accepts when built or called; `None` is an absent key. */
  datatype RectArgs = RectArgs(
    x: Option<int>, y: Option<int>, width: Option<int>, height: Option<int>,
    left: Option<int>, top: Option<int>, right: Option<int>, bottom: Option<int>)

  const NoArgs := RectArgs(None, None, None, None, None, None, None, None)

  /**
   * Calling a rectangle with keywords: x, y, width and height are written
   * first, then left and top, then right and bottom, each edge measured
   * against the already updated corner.
   */
  function Apply(b: Box, kw: RectArgs): (r: Box)
    ensures kw.left.Some? ==> r.x == kw.left.value
    ensures kw.left.None? && kw.x.Some? ==> r.x == kw.x.value
    ensures kw.left.None? && kw.x.None? ==> r.x == b.x
    ensures kw.top.Some? ==> r.y == kw.top.value
    ensures kw.top.None? && kw.y.Some? ==> r.y == kw.y.value
    ensures kw.top.None? && kw.y.None? ==> r.y == b.y
    ensures kw.right.Some? ==> r.Right() == kw.right.value
    ensures kw.right.None? && kw.width.Some? ==> r.width == kw.width.value
    ensures kw.right.None? && kw.width.None? ==> r.width == b.width
    ensures kw.bottom.Some? ==> r.Bottom() == kw.bottom.value
    ensures kw.bottom.None? && kw.height.Some? ==> r.height == kw.height.value
    ensures kw.bottom.None? && kw.height.None? ==> r.height == b.height
  {
    var x := if kw.x.Some? then kw.x.value else b.x;
    var y := if kw.y.Some? then kw.y.value else b.y;
    var width := if kw.width.Some? then kw.width.value else b.width;
    var height := if kw.height.Some? then kw.height.value else b.height;
    var x' := if kw.left.Some? then kw.left.value else x;
    var y' := if kw.top.Some? then kw.top.value else y;
    var width' := if kw.right.Some? then kw.right.value - x' else width;
    var height' := if kw.bottom.Some? then kw.bottom.value - y' else height;
    Box(x', y', width', height')
  }

  /** A call without keywords changes nothing. */
  lemma ApplyNothing(b: Box)
    ensures Apply(b, NoArgs) == b
  {
  }

  /** `(left=a, right=c)` spans from a to c whatever x and width say. */
  lemma LeftRightSpan(b: Box, kw: RectArgs)
    requires kw.left.Some? && kw.right.Some?
    ensures Apply(b, kw).x == kw.left.value
    ensures Apply(b, kw).width == kw.right.value - kw.left.value
  {
  }

  class Rect {
    var baseX: int
    var baseY: int
    var baseWidth: int
    var baseHeight: int

    function Value(): Box
      reads this
    {
      Box(baseX, baseY, baseWidth, baseHeight)
    }

    /** `Rect(**kwargs)`: starts at the origin with no extent, then applies the keywords. */
    constructor (kw: RectArgs)
      ensures Value() == Apply(Origin, kw)
      ensures kw == NoArgs ==> baseX == 0 && baseY == 0 && baseWidth == 0 && baseHeight == 0
    {
      baseX, baseY, baseWidth, baseHeight := 0, 0, 0, 0;
      new;
      Call(kw);
    }

    /** `rect(**kwargs)`: updates the fields in place, in the source's order. */
    method Call(kw: RectArgs)
      modifies this
      ensures Value() == Apply(old(Value()), kw)
    {
      if kw.x.Some? { baseX := kw.x.value; }
      if kw.y.Some? { baseY := kw.y.value; }
      if kw.width.Some? { baseWidth := kw.width.value; }
      if kw.height.Some? { baseHeight := kw.height.value; }
      if kw.left.Some? { baseX := kw.left.value; }
      if kw.top.Some? { baseY := kw.top.value; }
      if kw.right.Some? { baseWidth := kw.right.value - baseX; }
      if kw.bottom.Some? { baseHeight := kw.bottom.value - baseY; }
    }

    /** The left edge is the stored x. */
    function Left(): (r: int)
      reads this
      ensures r == Value().x
    {
      baseX
    }

    /** The top edge is the stored y. */
    function Top(): (r: int)
      reads this
      ensures r == Value().y
    {
      baseY
    }

    /** The stored width. */
    function Width(): (r: int)
      reads this
      ensures r == Value().width
    {
      baseWidth
    }

    /** The stored height. */
    function Height(): (r: int)
      reads this
      ensures r == Value().height
    {
      baseHeight
    }

    /** The right edge, always the left edge plus the width. */
    function Right(): (r: int)
      reads this
      ensures r == Left() + Width() && r == Value().Right()
    {
      baseX + baseWidth
    }

    /** The bottom edge, always the top edge plus the height. */
    function Bottom(): (r: int)
      reads this
      ensures r == Top() + Height() && r == Value().Bottom()
    {
      baseY + baseHeight
    }

    /** Moving the left edge keeps the width, so the right edge moves with it. */
    method SetLeft(v: int)
      modifies this
      ensures Left() == v && Width() == old(Width())
      ensures Right() == old(Right()) + (v - old(Left()))
      ensures Top() == old(Top()) && Height() == old(Height())
    {
      baseX := v;
    }

    /** Moving the top edge keeps the height, so the bottom edge moves with it. */
    method SetTop(v: int)
      modifies this
      ensures Top() == v && Height() == old(Height())
      ensures Bottom() == old(Bottom()) + (v - old(Top()))
      ensures Left() == old(Left()) && Width() == old(Width())
    {
      baseY := v;
    }

    /** Moving the right edge rewrites the width and keeps the left edge. */
    method SetRight(v: int)
      modifies this
      ensures Right() == v && Left() == old(Left())
      ensures Top() == old(Top()) && Height() == old(Height())
    {
      baseWidth := v - baseX;
    }

    /** Moving the bottom edge rewrites the height and keeps the top edge. */
    method SetBottom(v: int)
      modifies this
      ensures Bottom() == v && Top() == old(Top())
      ensures Left() == old(Left()) && Width() == old(Width())
    {
      baseHeight := v - baseY;
    }

    method SetWidth(v: int)
      modifies this
      ensures Width() == v
      ensures Left() == old(Left()) && Top() == old(Top()) && Height() == old(Height())
    {
      baseWidth := v;
    }

    method SetHeight(v: int)
      modifies this
      ensures Height() == v
      ensures Left() == old(Left()) && Top() == old(Top()) && Width() == old(Width())
    {
      baseHeight := v;
    }
  }
}
