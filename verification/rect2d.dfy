/** Integer rectangles (the C++ struct `Rect2d`): area, intersection and the two
    comparison operators.  Fields are C++ `int`s; they are modelled as unbounded
    integers, so every result below agrees with the source whenever the source's
    own arithmetic does not overflow (signed overflow is undefined behaviour). */
module Rect {

  datatype Rect2d = Rect2d(xPos: int, yPos: int, width: int, height: int)

  function Max(a: int, b: int): int { if a < b then b else a }
  function Min(a: int, b: int): int { if b < a then b else a }

  /** The integer point (x, y) lies inside `r`: the half-open box
      [xPos, xPos + width) x [yPos, yPos + height).  A rectangle with a
      non-positive width or height contains no point. */
  predicate Contains(r: Rect2d, x: int, y: int)
  {
    r.xPos <= x < r.xPos + r.width && r.yPos <= y < r.yPos + r.height
  }

  /** The set of integer points a rectangle covers; an independent
      reference for `Area`. */
  function Points(r: Rect2d): set<(int, int)>
  {
    set x, y | r.xPos <= x < r.xPos + r.width && r.yPos <= y < r.yPos + r.height :: (x, y)
  }

  /** The default constructor: every field is zero, so it covers nothing. */
  function Zero(): (r: Rect2d)
    ensures r.xPos == 0 && r.yPos == 0 && r.width == 0 && r.height == 0
    ensures Points(r) == {}
    ensures forall x, y :: !Contains(r, x, y)
  {
    Rect2d(0, 0, 0, 0)
  }

  /** `getArea`: width times height. */
  function Area(r: Rect2d): int
  {
    r.width * r.height
  }

  // ---------------------------------------------------------------------
  // Area counts the covered points
  // ---------------------------------------------------------------------

  function Row(x0: int, w: nat, y: int): set<(int, int)>
  {
    set x | x0 <= x < x0 + w :: (x, y)
  }

  lemma {:induction false} RowSize(x0: int, w: nat, y: int)
    ensures |Row(x0, w, y)| == w
  {
    if w > 0 {
      RowSize(x0, w - 1, y);
      assert Row(x0, w, y) == Row(x0, w - 1, y) + {(x0 + w - 1, y)};
      assert (x0 + w - 1, y) !in Row(x0, w - 1, y);
    } else {
      assert Row(x0, w, y) == {};
    }
  }

  lemma PointsSplitTopRow(x0: int, y0: int, w: nat, h: nat)
    requires h > 0
    ensures Points(Rect2d(x0, y0, w, h)) == Points(Rect2d(x0, y0, w, h - 1)) + Row(x0, w, y0 + h - 1)
    ensures Points(Rect2d(x0, y0, w, h - 1)) !! Row(x0, w, y0 + h - 1)
  {
    var all := Points(Rect2d(x0, y0, w, h));
    var lower := Points(Rect2d(x0, y0, w, h - 1));
    var top := Row(x0, w, y0 + h - 1);
    forall p | p in all ensures p in lower + top {
      if p.1 < y0 + h - 1 { assert p in lower; } else { assert p in top; }
    }
    forall p | p in lower + top ensures p in all {
      if p in lower { assert y0 <= p.1 < y0 + h - 1; } else { assert p.1 == y0 + h - 1; }
    }
  }

  lemma {:induction false} PointsSize(x0: int, y0: int, w: nat, h: nat)
    ensures |Points(Rect2d(x0, y0, w, h))| == w * h
  {
    if h == 0 {
      assert Points(Rect2d(x0, y0, w, h)) == {};
    } else {
      PointsSize(x0, y0, w, h - 1);
      RowSize(x0, w, y0 + h - 1);
      PointsSplitTopRow(x0, y0, w, h);
      assert w * h == w * (h - 1) + w;
    }
  }

  /** For a rectangle with non-negative extents, `getArea` is exactly the
      number of integer points it covers. */
  lemma AreaCountsPoints(r: Rect2d)
    requires r.width >= 0 && r.height >= 0
    ensures |Points(r)| == Area(r)
  {
    PointsSize(r.xPos, r.yPos, r.width, r.height);
  }

  // ---------------------------------------------------------------------
  // Intersection
  // ---------------------------------------------------------------------

  /** `getIntersection` with the x-extent computed from `other.xPos`: the
      overlap of two rectangles, or the all-zero rectangle when they share no
      point.  This is the definition the window model uses. */
  function Intersection(a: Rect2d, b: Rect2d): (r: Rect2d)
    ensures forall x, y :: Contains(r, x, y) <==> Contains(a, x, y) && Contains(b, x, y)
    ensures r == Zero() || (r.width > 0 && r.height > 0)
    ensures r != Zero() ==> r.xPos == Max(a.xPos, b.xPos) && r.yPos == Max(a.yPos, b.yPos)
  {
    var xStart := Max(a.xPos, b.xPos);
    var yStart := Max(a.yPos, b.yPos);
    var xEnd := Min(a.xPos + a.width, b.xPos + b.width);
    var yEnd := Min(a.yPos + a.height, b.yPos + b.height);
    if xStart < xEnd && yStart < yEnd then
      Rect2d(xStart, yStart, xEnd - xStart, yEnd - yStart)
    else
      Rect2d(0, 0, 0, 0)
  }

  /** `getIntersection` exactly as written: the x-end takes
      `other.yPos + other.width`.  The result is either all zero or a
      rectangle with positive extents whose origin is the larger of the two
      origins and whose far corner is the written minimum. */
  function IntersectionAsWritten(a: Rect2d, b: Rect2d): (r: Rect2d)
    ensures r == Zero() || (r.width > 0 && r.height > 0)
    ensures r != Zero() ==>
      && r.xPos == Max(a.xPos, b.xPos)
      && r.yPos == Max(a.yPos, b.yPos)
      && r.xPos + r.width == Min(a.xPos + a.width, b.yPos + b.width)
      && r.yPos + r.height == Min(a.yPos + a.height, b.yPos + b.height)
    ensures r == Zero() <==>
      (Max(a.xPos, b.xPos) >= Min(a.xPos + a.width, b.yPos + b.width)
       || Max(a.yPos, b.yPos) >= Min(a.yPos + a.height, b.yPos + b.height))
  {
    var xStart := Max(a.xPos, b.xPos);
    var yStart := Max(a.yPos, b.yPos);
    var xEnd := Min(a.xPos + a.width, b.yPos + b.width);
    var yEnd := Min(a.yPos + a.height, b.yPos + b.height);
    if xStart < xEnd && yStart < yEnd then
      Rect2d(xStart, yStart, xEnd - xStart, yEnd - yStart)
    else
      Rect2d(0, 0, 0, 0)
  }

  /** The written intersection loses points both rectangles cover: with
      a = (0, 0, 10, 10) and b = (0, -5, 10, 10) the point (7, 0) lies in
      both, but the written x-end is min(10, -5 + 10) = 5. */
  lemma IntersectionAsWrittenLosesPoints()
    ensures var a := Rect2d(0, 0, 10, 10);
            var b := Rect2d(0, -5, 10, 10);
            && Contains(a, 7, 0) && Contains(b, 7, 0)
            && !Contains(IntersectionAsWritten(a, b), 7, 0)
            && Contains(Intersection(a, b), 7, 0)
  {
    var a := Rect2d(0, 0, 10, 10);
    var b := Rect2d(0, -5, 10, 10);
    assert IntersectionAsWritten(a, b) == Rect2d(0, 0, 5, 5);
  }

  /** The slip is invisible whenever the second rectangle's origin lies on
      the diagonal (x equal to y), e.g. two rectangles both at the origin. */
  lemma IntersectionAsWrittenAgreesOnDiagonal(a: Rect2d, b: Rect2d)
    requires b.xPos == b.yPos
    ensures IntersectionAsWritten(a, b) == Intersection(a, b)
  {
  }

  /** `getIntersectionArea` with the corrected intersection. */
  function IntersectionArea(a: Rect2d, b: Rect2d): (r: int)
    ensures r >= 0
  {
    var i := Intersection(a, b);
    assert i.width >= 0 && i.height >= 0;
    Area(i)
  }

  /** The intersection area is positive exactly when the two rectangles
      share an integer point. */
  lemma IntersectionAreaPositiveIffOverlap(a: Rect2d, b: Rect2d)
    ensures IntersectionArea(a, b) > 0 <==> exists x, y :: Contains(a, x, y) && Contains(b, x, y)
  {
    var i := Intersection(a, b);
    if i == Zero() {
      assert IntersectionArea(a, b) == 0;
      forall x, y ensures !(Contains(a, x, y) && Contains(b, x, y)) {
        assert !Contains(i, x, y);
      }
    } else {
      assert i.width > 0 && i.height > 0;
      assert Area(i) > 0 by {
        assert i.width * i.height >= i.height;
      }
      assert Contains(i, i.xPos, i.yPos);
    }
  }

  /** `getIntersectionArea` as written: never negative, and positive exactly
      when the written intersection is non-empty. */
  function IntersectionAreaAsWritten(a: Rect2d, b: Rect2d): (r: int)
    ensures r >= 0
    ensures r > 0 <==> IntersectionAsWritten(a, b) != Zero()
  {
    var i := IntersectionAsWritten(a, b);
    assert i != Zero() ==> i.width * i.height >= i.height > 0;
    Area(i)
  }

  // ---------------------------------------------------------------------
  // Comparison operators
  // ---------------------------------------------------------------------

  /** `operator==`: field-wise equality, which is equality of the values. */
  function Equal(a: Rect2d, b: Rect2d): (r: bool)
    ensures r <==> a == b
  {
    a.xPos == b.xPos && a.yPos == b.yPos && a.width == b.width && a.height == b.height
  }

  lemma EqualIsReflexive(a: Rect2d)
    ensures Equal(a, a)
  {
  }

  /** `operator!=` as written: `&&` binds tighter than `||`, so the test is
      `dx || (dy && dw) || dh`.  It notices a change of `xPos` or `height`,
      and a change of `yPos` only together with a change of `width`. */
  function NotEqualAsWritten(a: Rect2d, b: Rect2d): (r: bool)
    ensures r ==> a != b
    ensures a.xPos != b.xPos || a.height != b.height ==> r
    ensures a.yPos != b.yPos && a.width != b.width ==> r
  {
    (a.xPos != b.xPos) || ((a.yPos != b.yPos) && (a.width != b.width)) || (a.height != b.height)
  }

  /** Two rectangles that differ only in `yPos`, or only in `width`, are
      reported as not different by the written operator. */
  lemma NotEqualAsWrittenMissesSingleFieldChanges(a: Rect2d, dy: int, dw: int)
    ensures !NotEqualAsWritten(a, a.(yPos := a.yPos + dy))
    ensures !NotEqualAsWritten(a, a.(width := a.width + dw))
  {
  }

  /** `operator!=` as evidently intended: the negation of `operator==`. */
  function NotEqual(a: Rect2d, b: Rect2d): (r: bool)
    ensures r <==> !Equal(a, b)
    ensures r <==> a != b
  {
    (a.xPos != b.xPos) || (a.yPos != b.yPos) || (a.width != b.width) || (a.height != b.height)
  }
}
