/** Boxes: FillBox and DrawBox of operation.go, built on SetPixel, and the
    point sets they paint. */
module Shapes {
  import opened PixelType
  import opened Display
  import opened Raster

  /** The points with x0 <= x < x1 and y0 <= y < y1. */
  function Span(x0: int, x1: int, y0: int, y1: int): set<Point> {
    set x, y | x0 <= x < x1 && y0 <= y < y1 :: Point(x, y)
  }

  lemma SpanMember(x0: int, x1: int, y0: int, y1: int, q: Point)
    ensures q in Span(x0, x1, y0, y1) <==> x0 <= q.x < x1 && y0 <= q.y < y1
  {
    if x0 <= q.x < x1 && y0 <= q.y < y1 {
      assert Point(q.x, q.y) in Span(x0, x1, y0, y1);
    }
  }

  /** Growing a span by one column. */
  lemma SpanExtendX(x0: int, x: int, y0: int, y1: int)
    requires x0 <= x
    ensures Span(x0, x + 1, y0, y1) == Span(x0, x, y0, y1) + Span(x, x + 1, y0, y1)
  {
    var x' := x + 1;
    forall q ensures q in Span(x0, x', y0, y1) <==> q in Span(x0, x, y0, y1) + Span(x, x', y0, y1) {
      SpanMember(x0, x', y0, y1, q);
      SpanMember(x0, x, y0, y1, q);
      SpanMember(x, x', y0, y1, q);
    }
  }

  /** Growing a span by one row. */
  lemma SpanExtendY(x0: int, x1: int, y0: int, y: int)
    requires y0 <= y
    ensures Span(x0, x1, y0, y + 1) == Span(x0, x1, y0, y) + Span(x0, x1, y, y + 1)
  {
    var y' := y + 1;
    forall q ensures q in Span(x0, x1, y0, y') <==> q in Span(x0, x1, y0, y) + Span(x0, x1, y, y') {
      SpanMember(x0, x1, y0, y', q);
      SpanMember(x0, x1, y0, y, q);
      SpanMember(x0, x1, y, y', q);
    }
  }

  /** A one-point span. */
  lemma SpanSingle(x: int, y: int)
    ensures Span(x, x + 1, y, y + 1) == {Point(x, y)}
  {
    var (x', y') := (x + 1, y + 1);
    forall q ensures q in Span(x, x', y, y') <==> q == Point(x, y) {
      SpanMember(x, x', y, y', q);
    }
  }

  /** A counted loop `for x := x0; x < x1; x++` ends at max(x0, x1); the span up
      to there is the span up to x1. */
  lemma SpanLoopEndX(x0: int, x: int, x1: int, y0: int, y1: int)
    requires x0 <= x && (x <= x1 || x == x0) && x1 <= x
    ensures Span(x0, x, y0, y1) == Span(x0, x1, y0, y1)
  {
    forall q ensures q in Span(x0, x, y0, y1) <==> q in Span(x0, x1, y0, y1) {
      SpanMember(x0, x, y0, y1, q);
      SpanMember(x0, x1, y0, y1, q);
    }
  }

  lemma SpanLoopEndY(x0: int, x1: int, y0: int, y: int, y1: int)
    requires y0 <= y && (y <= y1 || y == y0) && y1 <= y
    ensures Span(x0, x1, y0, y) == Span(x0, x1, y0, y1)
  {
    forall q ensures q in Span(x0, x1, y0, y) <==> q in Span(x0, x1, y0, y1) {
      SpanMember(x0, x1, y0, y, q);
      SpanMember(x0, x1, y0, y1, q);
    }
  }

  /** A span of a whole number of rows and columns has width * height points. */
  lemma {:induction false} SpanCard(x0: int, x1: int, y0: int, y1: int)
    requires x0 <= x1 && y0 <= y1
    ensures |Span(x0, x1, y0, y1)| == (x1 - x0) * (y1 - y0)
    decreases y1 - y0
  {
    if y1 == y0 {
      assert Span(x0, x1, y0, y1) == {} by {
        forall q | q in Span(x0, x1, y0, y1) ensures false {
          SpanMember(x0, x1, y0, y1, q);
        }
      }
    } else {
      SpanCard(x0, x1, y0, y1 - 1);
      RowCard(x0, x1, y1 - 1);
      SpanExtendY(x0, x1, y0, y1 - 1);
      var y := y1 - 1;
      assert Span(x0, x1, y0, y) !! Span(x0, x1, y, y1) by {
        forall q | q in Span(x0, x1, y0, y) && q in Span(x0, x1, y, y1) ensures false {
          SpanMember(x0, x1, y0, y, q);
          SpanMember(x0, x1, y, y1, q);
        }
      }
      CardDisjoint(Span(x0, x1, y0, y), Span(x0, x1, y, y1));
      MulSucc(x1 - x0, y - y0);
    }
  }

  lemma MulSucc(a: int, b: int)
    ensures a * b + a == a * (b + 1)
  {
  }

  /** A one-pixel-wide column has as many points as rows. */
  lemma ColumnCard(x: int, y0: int, y1: int)
    requires y0 <= y1
    ensures |Span(x, x + 1, y0, y1)| == y1 - y0
  {
    SpanCard(x, x + 1, y0, y1);
  }

  lemma {:induction false} RowCard(x0: int, x1: int, y: int)
    requires x0 <= x1
    ensures |Span(x0, x1, y, y + 1)| == x1 - x0
    decreases x1 - x0
  {
    var y' := y + 1;
    if x1 == x0 {
      assert Span(x0, x1, y, y') == {} by {
        forall q | q in Span(x0, x1, y, y') ensures false {
          SpanMember(x0, x1, y, y', q);
        }
      }
    } else {
      RowCard(x0, x1 - 1, y);
      SpanExtendX(x0, x1 - 1, y, y + 1);
      SpanSingle(x1 - 1, y);
      assert Point(x1 - 1, y) !in Span(x0, x1 - 1, y, y + 1) by {
        SpanMember(x0, x1 - 1, y, y + 1, Point(x1 - 1, y));
      }
    }
  }

  /** FillBox paints the half-open box [Min.X, Max.X) x [Min.Y, Max.Y). */
  function BoxArea(rect: Rectangle): set<Point> {
    Span(rect.min.x, rect.max.x, rect.min.y, rect.max.y)
  }

  /** DrawBox paints the rows Min.Y and Max.Y over Min.X <= x < Max.X and the
      columns Min.X and Max.X over Min.Y <= y < Max.Y. */
  function BoxOutline(rect: Rectangle): set<Point> {
    Edges(rect.min.x, rect.min.y, rect.max.x, rect.max.y)
  }

  function Edges(x0: int, y0: int, x1: int, y1: int): set<Point> {
    Span(x0, x1, y0, y0 + 1) + Span(x0, x1, y1, y1 + 1) + Span(x0, x0 + 1, y0, y1) + Span(x1, x1 + 1, y0, y1)
  }

  /** Fill the half-open box, row by row. */
  method FillBox(s: Screen, rect: Rectangle, p: Pixel) returns (r: Screen)
    requires s.Valid()
    ensures r == Paint(s, BoxArea(rect), p)
  {
    var (x0, y0, x1, y1) := (rect.min.x, rect.min.y, rect.max.x, rect.max.y);
    PaintEmpty(s, p);
    SpanLoopEndY(x0, x1, y0, y0, y0);
    r := s;
    var y := y0;
    while y < y1
      invariant y0 <= y && (y <= y1 || y == y0)
      invariant r == Paint(s, Span(x0, x1, y0, y), p)
    {
      ghost var done := Span(x0, x1, y0, y);
      SpanLoopEndX(x0, x0, x0, y, y + 1);
      assert done + Span(x0, x0, y, y + 1) == done;
      var x := x0;
      while x < x1
        invariant x0 <= x && (x <= x1 || x == x0)
        invariant r == Paint(s, done + Span(x0, x, y, y + 1), p)
      {
        PaintStep(s, done + Span(x0, x, y, y + 1), p, Point(x, y));
        r := SetPixel(r, x, y, p);
        SpanExtendX(x0, x, y, y + 1);
        SpanSingle(x, y);
        x := x + 1;
      }
      SpanLoopEndX(x0, x, x1, y, y + 1);
      SpanExtendY(x0, x1, y0, y);
      y := y + 1;
    }
    SpanLoopEndY(x0, x1, y0, y, y1);
  }

  /** Draw the box outline with two loops, as written: the corner
      (Max.X, Max.Y) is never drawn. */
  method DrawBox(s: Screen, rect: Rectangle, p: Pixel) returns (r: Screen)
    requires s.Valid()
    ensures r == Paint(s, BoxOutline(rect), p)
  {
    var (x0, y0, x1, y1) := (rect.min.x, rect.min.y, rect.max.x, rect.max.y);
    PaintEmpty(s, p);
    r := DrawRows(s, s, {}, x0, x1, y0, y1, p);
    r := DrawColumns(s, r, Span(x0, x1, y0, y0 + 1) + Span(x0, x1, y1, y1 + 1), x0, x1, y0, y1, p);
  }

  /** The shared half-open-row painter: rows ya and yb over x0 <= x < x1,
      drawn onto a screen t that already shows the points of base. It is
      the first loop of DrawBox and each inner loop pair of FillCircle. */
  method DrawRows(s: Screen, t: Screen, ghost base: set<Point>, x0: int, x1: int, ya: int, yb: int, p: Pixel)
    returns (r: Screen)
    requires s.Valid() && t == Paint(s, base, p)
    ensures r == Paint(s, base + Span(x0, x1, ya, ya + 1) + Span(x0, x1, yb, yb + 1), p)
  {
    r := t;
    SpanLoopEndX(x0, x0, x0, ya, ya + 1);
    SpanLoopEndX(x0, x0, x0, yb, yb + 1);
    assert base + Span(x0, x0, ya, ya + 1) + Span(x0, x0, yb, yb + 1) == base;
    var x := x0;
    while x < x1
      invariant x0 <= x && (x <= x1 || x == x0)
      invariant r == Paint(s, base + Span(x0, x, ya, ya + 1) + Span(x0, x, yb, yb + 1), p)
    {
      ghost var done := base + Span(x0, x, ya, ya + 1) + Span(x0, x, yb, yb + 1);
      PaintStep(s, done, p, Point(x, ya));
      r := SetPixel(r, x, ya, p);
      PaintStep(s, done + {Point(x, ya)}, p, Point(x, yb));
      r := SetPixel(r, x, yb, p);
      SpanExtendX(x0, x, ya, ya + 1);
      SpanSingle(x, ya);
      SpanExtendX(x0, x, yb, yb + 1);
      SpanSingle(x, yb);
      x := x + 1;
    }
    SpanLoopEndX(x0, x, x1, ya, ya + 1);
    SpanLoopEndX(x0, x, x1, yb, yb + 1);
  }

  /** The second loop of DrawBox: columns x0 and x1 over y0 <= y < y1, drawn
      onto a screen t that already shows the points of base. */
  method DrawColumns(s: Screen, t: Screen, ghost base: set<Point>, x0: int, x1: int, y0: int, y1: int, p: Pixel)
    returns (r: Screen)
    requires s.Valid() && t == Paint(s, base, p)
    ensures r == Paint(s, base + Span(x0, x0 + 1, y0, y1) + Span(x1, x1 + 1, y0, y1), p)
  {
    r := t;
    SpanLoopEndY(x0, x0 + 1, y0, y0, y0);
    SpanLoopEndY(x1, x1 + 1, y0, y0, y0);
    assert base + Span(x0, x0 + 1, y0, y0) + Span(x1, x1 + 1, y0, y0) == base;
    var y := y0;
    while y < y1
      invariant y0 <= y && (y <= y1 || y == y0)
      invariant r == Paint(s, base + Span(x0, x0 + 1, y0, y) + Span(x1, x1 + 1, y0, y), p)
    {
      ghost var done := base + Span(x0, x0 + 1, y0, y) + Span(x1, x1 + 1, y0, y);
      PaintStep(s, done, p, Point(x0, y));
      r := SetPixel(r, x0, y, p);
      PaintStep(s, done + {Point(x0, y)}, p, Point(x1, y));
      r := SetPixel(r, x1, y, p);
      SpanExtendY(x0, x0 + 1, y0, y);
      SpanSingle(x0, y);
      SpanExtendY(x1, x1 + 1, y0, y);
      SpanSingle(x1, y);
      y := y + 1;
    }
    SpanLoopEndY(x0, x0 + 1, y0, y, y1);
    SpanLoopEndY(x1, x1 + 1, y0, y, y1);
  }

  /** The corner (Max.X, Max.Y) is never part of what DrawBox draws. */
  lemma {:induction false} DrawBoxMissesCorner(rect: Rectangle)
    ensures rect.max !in BoxOutline(rect)
  {
    var (x0, y0, x1, y1) := (rect.min.x, rect.min.y, rect.max.x, rect.max.y);
    var (x0', y0', x1', y1') := (x0 + 1, y0 + 1, x1 + 1, y1 + 1);
    SpanMember(x0, x1, y0, y0', rect.max);
    SpanMember(x0, x1, y1, y1', rect.max);
    SpanMember(x0, x0', y0, y1, rect.max);
    SpanMember(x1, x1', y0, y1, rect.max);
  }

  lemma CardDisjoint(A: set<Point>, B: set<Point>)
    requires A !! B
    ensures |A + B| == |A| + |B|
  {
    assert A * B == {};
  }

  /** DrawBox's points as four disjoint pieces: the two rows, the left column
      below its top end, and the right column. */
  lemma {:induction false} OutlinePieces(x0: int, y0: int, x1: int, y1: int)
    requires x0 < x1 && y0 < y1
    ensures Edges(x0, y0, x1, y1)
            == Span(x0, x1, y0, y0 + 1) + Span(x0, x1, y1, y1 + 1) + Span(x0, x0 + 1, y0 + 1, y1) + Span(x1, x1 + 1, y0, y1)
  {
    var (x0', y0', x1', y1') := (x0 + 1, y0 + 1, x1 + 1, y1 + 1);
    var pieces := Span(x0, x1, y0, y0') + Span(x0, x1, y1, y1') + Span(x0, x0', y0', y1) + Span(x1, x1', y0, y1);
    forall q ensures q in Edges(x0, y0, x1, y1) <==> q in pieces {
      SpanMember(x0, x1, y0, y0', q);
      SpanMember(x0, x1, y1, y1', q);
      SpanMember(x0, x0', y0, y1, q);
      SpanMember(x0, x0', y0', y1, q);
      SpanMember(x1, x1', y0, y1, q);
    }
  }

  /** Spans whose column ranges or row ranges do not overlap share no point. */
  lemma SpanDisjoint(ax0: int, ax1: int, ay0: int, ay1: int, bx0: int, bx1: int, by0: int, by1: int)
    requires ax1 <= bx0 || bx1 <= ax0 || ay1 <= by0 || by1 <= ay0
    ensures Span(ax0, ax1, ay0, ay1) !! Span(bx0, bx1, by0, by1)
  {
    forall q | q in Span(ax0, ax1, ay0, ay1) ensures q !in Span(bx0, bx1, by0, by1) {
      SpanMember(ax0, ax1, ay0, ay1, q);
      SpanMember(bx0, bx1, by0, by1, q);
    }
  }

  /** A box at least one pixel wide and high: DrawBox draws 2 * width +
      2 * height - 1 distinct points (the closed outline less its far corner). */
  lemma {:induction false} DrawBoxCount(rect: Rectangle)
    requires rect.min.x < rect.max.x && rect.min.y < rect.max.y
    ensures |BoxOutline(rect)| == 2 * (rect.max.x - rect.min.x) + 2 * (rect.max.y - rect.min.y) - 1
  {
    EdgesCount(rect.min.x, rect.min.y, rect.max.x, rect.max.y);
  }

  lemma {:induction false} EdgesCount(x0: int, y0: int, x1: int, y1: int)
    requires x0 < x1 && y0 < y1
    ensures |Edges(x0, y0, x1, y1)| == 2 * (x1 - x0) + 2 * (y1 - y0) - 1
  {
    OutlinePieces(x0, y0, x1, y1);
    PiecesCard(x0, x1, y0, y1);
  }

  lemma {:induction false} PiecesCard(x0: int, x1: int, y0: int, y1: int)
    requires x0 < x1 && y0 < y1
    ensures |Span(x0, x1, y0, y0 + 1) + Span(x0, x1, y1, y1 + 1) + Span(x0, x0 + 1, y0 + 1, y1) + Span(x1, x1 + 1, y0, y1)|
            == 2 * (x1 - x0) + 2 * (y1 - y0) - 1
  {
    RowsCard(x0, x1, y0, y1);
    ColumnCard(x0, y0 + 1, y1);
    ColumnCard(x1, y0, y1);
    PiecesApart(x0, x1, y0, y1);
    CardThree(Span(x0, x1, y0, y0 + 1) + Span(x0, x1, y1, y1 + 1), Span(x0, x0 + 1, y0 + 1, y1), Span(x1, x1 + 1, y0, y1));
  }

  /** The rows, the shortened left column and the right column of DrawBox do
      not overlap. */
  lemma PiecesApart(x0: int, x1: int, y0: int, y1: int)
    requires x0 < x1 && y0 < y1
    ensures Span(x0, x1, y0, y0 + 1) + Span(x0, x1, y1, y1 + 1) !! Span(x0, x0 + 1, y0 + 1, y1)
    ensures Span(x0, x1, y0, y0 + 1) + Span(x0, x1, y1, y1 + 1) !! Span(x1, x1 + 1, y0, y1)
    ensures Span(x0, x0 + 1, y0 + 1, y1) !! Span(x1, x1 + 1, y0, y1)
  {
    SpanDisjoint(x0, x1, y0, y0 + 1, x0, x0 + 1, y0 + 1, y1);
    SpanDisjoint(x0, x1, y1, y1 + 1, x0, x0 + 1, y0 + 1, y1);
    SpanDisjoint(x0, x1, y0, y0 + 1, x1, x1 + 1, y0, y1);
    SpanDisjoint(x0, x1, y1, y1 + 1, x1, x1 + 1, y0, y1);
    SpanDisjoint(x0, x0 + 1, y0 + 1, y1, x1, x1 + 1, y0, y1);
  }

  /** Three pairwise disjoint sets: the union's size is the sum. */
  lemma CardThree(A: set<Point>, B: set<Point>, C: set<Point>)
    requires A !! B && A !! C && B !! C
    ensures |A + B + C| == |A| + |B| + |C|
  {
    CardDisjoint(A, B);
    CardDisjoint(A + B, C);
  }

  /** The top and bottom rows of a box at least one pixel high. */
  lemma RowsCard(x0: int, x1: int, y0: int, y1: int)
    requires x0 < x1 && y0 < y1
    ensures |Span(x0, x1, y0, y0 + 1) + Span(x0, x1, y1, y1 + 1)| == 2 * (x1 - x0)
  {
    RowCard(x0, x1, y0);
    RowCard(x0, x1, y1);
    SpanDisjoint(x0, x1, y0, y0 + 1, x0, x1, y1, y1 + 1);
    CardDisjoint(Span(x0, x1, y0, y0 + 1), Span(x0, x1, y1, y1 + 1));
  }


  /** FillBox draws (Max.X - Min.X) * (Max.Y - Min.Y) distinct points, and
      none at all when Max does not exceed Min in either direction. */
  lemma {:induction false} FillBoxCount(rect: Rectangle)
    ensures rect.min.x <= rect.max.x && rect.min.y <= rect.max.y ==>
              |BoxArea(rect)| == (rect.max.x - rect.min.x) * (rect.max.y - rect.min.y)
    ensures rect.max.x <= rect.min.x || rect.max.y <= rect.min.y ==> BoxArea(rect) == {}
  {
    var (x0, y0, x1, y1) := (rect.min.x, rect.min.y, rect.max.x, rect.max.y);
    if x0 <= x1 && y0 <= y1 {
      SpanCard(x0, x1, y0, y1);
    }
    if x1 <= x0 || y1 <= y0 {
      forall q | q in BoxArea(rect) ensures false {
        SpanMember(x0, x1, y0, y1, q);
      }
    }
  }

  /** For the 4 x 4 box at the origin FillBox draws 16 points and DrawBox 15:
      (4, 4) is missing from the outline. */
  lemma BoxCountsAtOrigin()
    ensures |BoxArea(Rectangle(Point(0, 0), Point(4, 4)))| == 16
    ensures |BoxOutline(Rectangle(Point(0, 0), Point(4, 4)))| == 15
    ensures Point(4, 4) !in BoxOutline(Rectangle(Point(0, 0), Point(4, 4)))
  {
    var rect := Rectangle(Point(0, 0), Point(4, 4));
    FillBoxCount(rect);
    DrawBoxCount(rect);
    DrawBoxMissesCorner(rect);
  }

  /** The closed outline of a rectangle: every point of [Min, Max] (both
      ends included) on one of its four edges. */
  function Perimeter(rect: Rectangle): set<Point> {
    var (x0, y0, x1, y1) := (rect.min.x, rect.min.y, rect.max.x, rect.max.y);
    set x, y | x0 <= x <= x1 && y0 <= y <= y1 && (x == x0 || x == x1 || y == y0 || y == y1) :: Point(x, y)
  }

  lemma PerimeterMember(rect: Rectangle, q: Point)
    ensures q in Perimeter(rect) <==>
              rect.min.x <= q.x <= rect.max.x && rect.min.y <= q.y <= rect.max.y
              && (q.x == rect.min.x || q.x == rect.max.x || q.y == rect.min.y || q.y == rect.max.y)
  {
    var (x0, y0, x1, y1) := (rect.min.x, rect.min.y, rect.max.x, rect.max.y);
    if x0 <= q.x <= x1 && y0 <= q.y <= y1 && (q.x == x0 || q.x == x1 || q.y == y0 || q.y == y1) {
      assert Point(q.x, q.y) in Perimeter(rect);
    }
  }

  /** For a normalised rectangle, DrawBox's points plus the missing corner are
      exactly the closed outline. */
  lemma {:induction false} OutlinePlusCorner(rect: Rectangle)
    requires rect.min.x <= rect.max.x && rect.min.y <= rect.max.y
    ensures BoxOutline(rect) + {rect.max} == Perimeter(rect)
  {
    var (x0, y0, x1, y1) := (rect.min.x, rect.min.y, rect.max.x, rect.max.y);
    var (x0', y0', x1', y1') := (x0 + 1, y0 + 1, x1 + 1, y1 + 1);
    forall q ensures q in BoxOutline(rect) + {rect.max} <==> q in Perimeter(rect) {
      SpanMember(x0, x1, y0, y0', q);
      SpanMember(x0, x1, y1, y1', q);
      SpanMember(x0, x0', y0, y1, q);
      SpanMember(x1, x1', y0, y1, q);
      PerimeterMember(rect, q);
    }
  }

  /** DrawBox with the corner (Max.X, Max.Y) drawn as well: for a normalised
      rectangle it draws the whole closed outline. */
  method DrawBoxClosed(s: Screen, rect: Rectangle, p: Pixel) returns (r: Screen)
    requires s.Valid()
    ensures rect.min.x <= rect.max.x && rect.min.y <= rect.max.y ==> r == Paint(s, Perimeter(rect), p)
    ensures r == Paint(s, BoxOutline(rect) + {rect.max}, p)
  {
    r := DrawBox(s, rect, p);
    PaintStep(s, BoxOutline(rect), p, rect.max);
    r := SetPixel(r, rect.max.x, rect.max.y, p);
    if rect.min.x <= rect.max.x && rect.min.y <= rect.max.y {
      OutlinePlusCorner(rect);
    }
  }

  /** The closed outline of a box at least one pixel wide and high has
      2 * width + 2 * height points; 16 for the 4 x 4 box at the origin. */
  lemma {:induction false} PerimeterCount(rect: Rectangle)
    requires rect.min.x < rect.max.x && rect.min.y < rect.max.y
    ensures |Perimeter(rect)| == 2 * (rect.max.x - rect.min.x) + 2 * (rect.max.y - rect.min.y)
  {
    OutlinePlusCorner(rect);
    DrawBoxCount(rect);
    DrawBoxMissesCorner(rect);
  }
}
