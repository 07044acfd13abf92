/** DrawLine of operation.go: the integer Bresenham walk from p0 to p1,
    stated against a functional reference walk. */
module Line {
  import opened PixelType
  import opened Display
  import opened Raster

  function Abs(a: int): nat {
    if a < 0 then -a else a
  }

  /** The direction DrawLine steps in along one axis to get from a to b:
      +1 when b is greater, -1 otherwise. */
  function Dir(a: int, b: int): int {
    if a - b < 0 then 1 else -1
  }

  /** The Bresenham error term after ux steps along x and uy steps along y:
      it starts at dx - dy, loses dy per x-step and gains dx per y-step. */
  function ErrorTerm(dx: int, dy: int, ux: int, uy: int): int {
    dx - dy - ux * dy + uy * dx
  }

  /** The point reached from p0 after ux steps towards p1 along x and uy
      along y. */
  function At(p0: Point, p1: Point, ux: int, uy: int): Point {
    Point(if p0.x < p1.x then p0.x + ux else p0.x - ux, if p0.y < p1.y then p0.y + uy else p0.y - uy)
  }

  /** Progress of a point along the walk: the number of axis steps taken to
      reach it from p0. */
  function Progress(p0: Point, p1: Point, q: Point): int {
    (if p0.x < p1.x then q.x - p0.x else p0.x - q.x) + (if p0.y < p1.y then q.y - p0.y else p0.y - q.y)
  }

  /** Within the box spanned by p0 and p1, the walk is at p1 exactly when it
      has taken all its steps on both axes. */
  lemma AtEnd(p0: Point, p1: Point, ux: int, uy: int)
    requires 0 <= ux <= Abs(p0.x - p1.x) && 0 <= uy <= Abs(p0.y - p1.y)
    ensures At(p0, p1, ux, uy) == p1 <==> ux == Abs(p0.x - p1.x) && uy == Abs(p0.y - p1.y)
    ensures Progress(p0, p1, At(p0, p1, ux, uy)) == ux + uy
  {
  }

  /** One step of the loop never overshoots: an x-step happens only while x
      steps remain, a y-step only while y steps remain, and short of p1 at
      least one of them happens. */
  lemma StepBounds(dx: int, dy: int, ux: int, uy: int)
    requires 0 <= ux <= dx && 0 <= uy <= dy && !(ux == dx && uy == dy)
    ensures 2 * ErrorTerm(dx, dy, ux, uy) > -dy ==> ux < dx
    ensures 2 * ErrorTerm(dx, dy, ux, uy) < dx ==> uy < dy
    ensures 2 * ErrorTerm(dx, dy, ux, uy) > -dy || 2 * ErrorTerm(dx, dy, ux, uy) < dx
  {
    if ux == dx {
      MulLe(uy - dy, -1, dx);
      assert ErrorTerm(dx, dy, ux, uy) == dx - dy + (uy - dy) * dx;
    }
    if uy == dy {
      MulLe(1, dx - ux, dy);
      assert ErrorTerm(dx, dy, ux, uy) == dx - dy + (dx - ux) * dy;
    }
  }

  /** The error term moves by -dy per x-step and +dx per y-step. */
  lemma ErrorTermStep(dx: int, dy: int, ux: int, uy: int)
    ensures ErrorTerm(dx, dy, ux + 1, uy) == ErrorTerm(dx, dy, ux, uy) - dy
    ensures ErrorTerm(dx, dy, ux, uy + 1) == ErrorTerm(dx, dy, ux, uy) + dx
  {
    assert (ux + 1) * dy == ux * dy + dy;
    assert (uy + 1) * dx == uy * dx + dx;
  }

  /** The step counts after one more iteration of the loop. */
  function NextX(p0: Point, p1: Point, ux: int, uy: int): int {
    var (dx, dy) := (Abs(p0.x - p1.x) as int, Abs(p0.y - p1.y) as int);
    if 2 * ErrorTerm(dx, dy, ux, uy) > -dy then ux + 1 else ux
  }

  function NextY(p0: Point, p1: Point, ux: int, uy: int): int {
    var (dx, dy) := (Abs(p0.x - p1.x) as int, Abs(p0.y - p1.y) as int);
    if 2 * ErrorTerm(dx, dy, ux, uy) < dx then uy + 1 else uy
  }

  lemma AtStep(p0: Point, p1: Point, ux: int, uy: int)
    ensures At(p0, p1, ux + 1, uy) == Point(At(p0, p1, ux, uy).x + Dir(p0.x, p1.x), At(p0, p1, ux, uy).y)
    ensures At(p0, p1, ux, uy + 1) == Point(At(p0, p1, ux, uy).x, At(p0, p1, ux, uy).y + Dir(p0.y, p1.y))
  {
  }

  /** NextX and NextY take the steps DrawLine's two tests on e2 = 2 * er take. */
  lemma NextStep(p0: Point, p1: Point, ux: int, uy: int, er: int)
    requires er == ErrorTerm(Abs(p0.x - p1.x), Abs(p0.y - p1.y), ux, uy)
    ensures NextX(p0, p1, ux, uy) == if er * 2 > 0 - Abs(p0.y - p1.y) then ux + 1 else ux
    ensures NextY(p0, p1, ux, uy) == if er * 2 < Abs(p0.x - p1.x) then uy + 1 else uy
  {
  }

  /** The points DrawLine plots from the state (ux, uy) on, ending with p1. */
  function Walk(p0: Point, p1: Point, ux: int, uy: int): (path: seq<Point>)
    requires 0 <= ux <= Abs(p0.x - p1.x) && 0 <= uy <= Abs(p0.y - p1.y)
    ensures |path| >= 1
    decreases Abs(p0.x - p1.x) - ux + Abs(p0.y - p1.y) - uy
  {
    AtEnd(p0, p1, ux, uy);
    if At(p0, p1, ux, uy) == p1 then
      [p1]
    else
      StepBounds(Abs(p0.x - p1.x), Abs(p0.y - p1.y), ux, uy);
      [At(p0, p1, ux, uy)] + Walk(p0, p1, NextX(p0, p1, ux, uy), NextY(p0, p1, ux, uy))
  }

  /** The walk starts at the current point and reaches p1 at its end and
      nowhere before. */
  lemma {:induction false} WalkEnds(p0: Point, p1: Point, ux: int, uy: int)
    requires 0 <= ux <= Abs(p0.x - p1.x) && 0 <= uy <= Abs(p0.y - p1.y)
    ensures Walk(p0, p1, ux, uy)[0] == At(p0, p1, ux, uy)
    ensures Walk(p0, p1, ux, uy)[|Walk(p0, p1, ux, uy)| - 1] == p1
    ensures forall k :: 0 <= k < |Walk(p0, p1, ux, uy)| - 1 ==> Walk(p0, p1, ux, uy)[k] != p1
    decreases Abs(p0.x - p1.x) - ux + Abs(p0.y - p1.y) - uy
  {
    AtEnd(p0, p1, ux, uy);
    if At(p0, p1, ux, uy) != p1 {
      StepBounds(Abs(p0.x - p1.x), Abs(p0.y - p1.y), ux, uy);
      var (nx, ny) := (NextX(p0, p1, ux, uy), NextY(p0, p1, ux, uy));
      WalkEnds(p0, p1, nx, ny);
      var (path, tail) := (Walk(p0, p1, ux, uy), Walk(p0, p1, nx, ny));
      assert path == [At(p0, p1, ux, uy)] + tail;
      forall k | 1 <= k < |path| - 1
        ensures path[k] != p1
      {
        assert path[k] == tail[k - 1];
      }
    }
  }

  /** The points DrawLine plots, in order. */
  function LinePoints(p0: Point, p1: Point): seq<Point> {
    Walk(p0, p1, 0, 0)
  }

  function Points(path: seq<Point>): set<Point> {
    set q | q in path
  }

  lemma PointsAppend(path: seq<Point>, q: Point)
    ensures Points(path + [q]) == Points(path) + {q}
  {
  }

  /** Plotting one more point of the walk paints the extended prefix. */
  lemma PlotStep(s: Screen, done: seq<Point>, p: Pixel, q: Point)
    requires s.Valid()
    ensures SetPixel(Paint(s, Points(done), p), q.x, q.y, p) == Paint(s, Points(done + [q]), p)
  {
    PaintStep(s, Points(done), p, q);
    PointsAppend(done, q);
  }

  /** DrawLine's SetPixel call: plot the next point of the walk. */
  method Plot(s: Screen, r: Screen, ghost done: seq<Point>, p: Pixel, q: Point) returns (r': Screen)
    requires s.Valid() && r == Paint(s, Points(done), p)
    ensures r' == Paint(s, Points(done + [q]), p)
  {
    PlotStep(s, done, p, q);
    r' := SetPixel(r, q.x, q.y, p);
  }

  /** One iteration of DrawLine's loop, short of p1: plot the current point
      and move on to the next state of the walk. */
  lemma WalkUnfold(p0: Point, p1: Point, ux: int, uy: int, done: seq<Point>)
    requires 0 <= ux <= Abs(p0.x - p1.x) && 0 <= uy <= Abs(p0.y - p1.y)
    requires At(p0, p1, ux, uy) != p1
    ensures 0 <= NextX(p0, p1, ux, uy) <= Abs(p0.x - p1.x) && 0 <= NextY(p0, p1, ux, uy) <= Abs(p0.y - p1.y)
    ensures NextX(p0, p1, ux, uy) + NextY(p0, p1, ux, uy) > ux + uy
    ensures Walk(p0, p1, ux, uy) == [At(p0, p1, ux, uy)] + Walk(p0, p1, NextX(p0, p1, ux, uy), NextY(p0, p1, ux, uy))
    ensures done + Walk(p0, p1, ux, uy)
            == (done + [At(p0, p1, ux, uy)]) + Walk(p0, p1, NextX(p0, p1, ux, uy), NextY(p0, p1, ux, uy))
  {
    AtEnd(p0, p1, ux, uy);
    StepBounds(Abs(p0.x - p1.x), Abs(p0.y - p1.y), ux, uy);
  }

  /** Draw a line with Bresenham's algorithm, as written: plot, stop once p1
      is plotted, otherwise step x and/or y by the sign towards p1. */
  method DrawLine(s: Screen, p0: Point, p1: Point, p: Pixel) returns (r: Screen)
    requires s.Valid()
    ensures r == Paint(s, Points(LinePoints(p0, p1)), p)
  {
    var sx, sy := -1, -1;
    var dx := p0.x - p1.x;
    if dx < 0 {
      dx := -dx;
      sx := 1;
    }
    var dy := p0.y - p1.y;
    if dy < 0 {
      dy := -dy;
      sy := 1;
    }
    var px, py := p0.x, p0.y;
    var er := dx - dy;
    ghost var ux, uy := 0, 0;
    ghost var done: seq<Point> := [];
    PaintEmpty(s, p);
    r := s;
    while true
      invariant dx == Abs(p0.x - p1.x) && dy == Abs(p0.y - p1.y)
      invariant sx == Dir(p0.x, p1.x) && sy == Dir(p0.y, p1.y)
      invariant 0 <= ux <= dx && 0 <= uy <= dy
      invariant Point(px, py) == At(p0, p1, ux, uy)
      invariant er == ErrorTerm(dx, dy, ux, uy)
      invariant done + Walk(p0, p1, ux, uy) == LinePoints(p0, p1)
      invariant r == Paint(s, Points(done), p)
      decreases dx - ux + dy - uy
    {
      r := Plot(s, r, done, p, Point(px, py));
      if px == p1.x && py == p1.y {
        WalkEnd(p0, p1, ux, uy, done);
        done := done + [Point(px, py)];
        break;
      }
      ghost var ux', uy' := WalkNext(p0, p1, ux, uy, done);
      done := done + [Point(px, py)];
      px, py, er := Advance(p0, p1, ux, uy, dx, dy, sx, sy, px, py, er);
      ux, uy := ux', uy';
    }
  }

  /** The walk ends once p1 is reached. */
  lemma WalkEnd(p0: Point, p1: Point, ux: int, uy: int, done: seq<Point>)
    requires 0 <= ux <= Abs(p0.x - p1.x) && 0 <= uy <= Abs(p0.y - p1.y)
    requires At(p0, p1, ux, uy) == p1
    ensures done + Walk(p0, p1, ux, uy) == done + [p1]
  {
  }

  /** The ghost step counts of the next iteration, and what the walk keeps. */
  lemma WalkNext(p0: Point, p1: Point, ux: int, uy: int, done: seq<Point>) returns (ux': int, uy': int)
    requires 0 <= ux <= Abs(p0.x - p1.x) && 0 <= uy <= Abs(p0.y - p1.y)
    requires At(p0, p1, ux, uy) != p1
    ensures ux' == NextX(p0, p1, ux, uy) && uy' == NextY(p0, p1, ux, uy)
    ensures 0 <= ux' <= Abs(p0.x - p1.x) && 0 <= uy' <= Abs(p0.y - p1.y)
    ensures ux' + uy' > ux + uy
    ensures done + Walk(p0, p1, ux, uy) == (done + [At(p0, p1, ux, uy)]) + Walk(p0, p1, ux', uy')
  {
    WalkUnfold(p0, p1, ux, uy, done);
    ux', uy' := NextX(p0, p1, ux, uy), NextY(p0, p1, ux, uy);
  }

  /** The second half of DrawLine's loop body: with e2 = 2 * er, step x when
      e2 > -dy and y when e2 < dx, adjusting er for each step taken. */
  method Advance(ghost p0: Point, ghost p1: Point, ghost ux: int, ghost uy: int,
                 dx: int, dy: int, sx: int, sy: int, px: int, py: int, er: int)
    returns (px': int, py': int, er': int)
    requires dx == Abs(p0.x - p1.x) && dy == Abs(p0.y - p1.y)
    requires sx == Dir(p0.x, p1.x) && sy == Dir(p0.y, p1.y)
    requires Point(px, py) == At(p0, p1, ux, uy) && er == ErrorTerm(dx, dy, ux, uy)
    ensures Point(px', py') == At(p0, p1, NextX(p0, p1, ux, uy), NextY(p0, p1, ux, uy))
    ensures er' == ErrorTerm(dx, dy, NextX(p0, p1, ux, uy), NextY(p0, p1, ux, uy))
  {
    ErrorTermStep(dx, dy, ux, uy);
    NextStep(p0, p1, ux, uy, er);
    ghost var ux' := NextX(p0, p1, ux, uy);
    px', py', er' := px, py, er;
    var e2 := er * 2;
    if e2 > -dy {
      AtStep(p0, p1, ux, uy);
      er' := er' - dy;
      px' := px' + sx;
    }
    assert Point(px', py') == At(p0, p1, ux', uy);
    if e2 < dx {
      ErrorTermStep(dx, dy, ux', uy);
      AtStep(p0, p1, ux', uy);
      er' := er' + dx;
      py' := py' + sy;
    }
  }

  /** One step of the walk: x moves by 0 or the x-direction, y by 0 or the
      y-direction, and at least one of them moves (8-connected, monotone). */
  predicate Adjacent(p0: Point, p1: Point, a: Point, b: Point) {
    && (b.x == a.x || b.x == a.x + Dir(p0.x, p1.x))
    && (b.y == a.y || b.y == a.y + Dir(p0.y, p1.y))
    && b != a
  }

  lemma {:induction false} WalkSteps(p0: Point, p1: Point, ux: int, uy: int)
    requires 0 <= ux <= Abs(p0.x - p1.x) && 0 <= uy <= Abs(p0.y - p1.y)
    ensures forall k :: 0 <= k < |Walk(p0, p1, ux, uy)| - 1 ==>
              Adjacent(p0, p1, Walk(p0, p1, ux, uy)[k], Walk(p0, p1, ux, uy)[k + 1])
    decreases Abs(p0.x - p1.x) - ux + Abs(p0.y - p1.y) - uy
  {
    var path := Walk(p0, p1, ux, uy);
    if At(p0, p1, ux, uy) != p1 {
      WalkUnfold(p0, p1, ux, uy, []);
      var (nx, ny) := (NextX(p0, p1, ux, uy), NextY(p0, p1, ux, uy));
      var tail := Walk(p0, p1, nx, ny);
      WalkSteps(p0, p1, nx, ny);
      AtStep(p0, p1, ux, uy);
      AtStep(p0, p1, nx, uy);
      AtEnd(p0, p1, ux, uy);
      AtEnd(p0, p1, nx, ny);
      assert Adjacent(p0, p1, path[0], path[1]);
      forall k | 1 <= k < |path| - 1
        ensures Adjacent(p0, p1, path[k], path[k + 1])
      {
        assert path[k] == tail[k - 1] && path[k + 1] == tail[k];
      }
    }
  }

  /** Every step of DrawLine moves to an 8-neighbour in the direction of p1:
      the plotted points start at p0, end at p1, reach p1 only at the end, and
      each is adjacent to the one before. */
  lemma {:induction false} LineShape(p0: Point, p1: Point)
    ensures LinePoints(p0, p1)[0] == p0
    ensures LinePoints(p0, p1)[|LinePoints(p0, p1)| - 1] == p1
    ensures forall k :: 0 <= k < |LinePoints(p0, p1)| - 1 ==> LinePoints(p0, p1)[k] != p1
    ensures forall k :: 0 <= k < |LinePoints(p0, p1)| - 1 ==>
              Adjacent(p0, p1, LinePoints(p0, p1)[k], LinePoints(p0, p1)[k + 1])
  {
    WalkEnds(p0, p1, 0, 0);
    WalkSteps(p0, p1, 0, 0);
  }

  /** Progress strictly increases along the walk, so no point is plotted twice. */
  lemma {:induction false} WalkIncreasing(p0: Point, p1: Point, ux: int, uy: int)
    requires 0 <= ux <= Abs(p0.x - p1.x) && 0 <= uy <= Abs(p0.y - p1.y)
    ensures forall k :: 0 <= k < |Walk(p0, p1, ux, uy)| ==> Progress(p0, p1, Walk(p0, p1, ux, uy)[k]) >= ux + uy
    ensures forall i, j :: 0 <= i < j < |Walk(p0, p1, ux, uy)| ==>
              Progress(p0, p1, Walk(p0, p1, ux, uy)[i]) < Progress(p0, p1, Walk(p0, p1, ux, uy)[j])
    decreases Abs(p0.x - p1.x) - ux + Abs(p0.y - p1.y) - uy
  {
    var path := Walk(p0, p1, ux, uy);
    AtEnd(p0, p1, ux, uy);
    if At(p0, p1, ux, uy) != p1 {
      WalkUnfold(p0, p1, ux, uy, []);
      var (nx, ny) := (NextX(p0, p1, ux, uy), NextY(p0, p1, ux, uy));
      var tail := Walk(p0, p1, nx, ny);
      WalkIncreasing(p0, p1, nx, ny);
      forall k | 1 <= k < |path|
        ensures Progress(p0, p1, path[k]) > ux + uy
      {
        assert path[k] == tail[k - 1];
      }
      forall i, j | 0 <= i < j < |path|
        ensures Progress(p0, p1, path[i]) < Progress(p0, p1, path[j])
      {
        if 0 < i {
          assert path[i] == tail[i - 1] && path[j] == tail[j - 1];
        }
      }
    }
  }

  /** A sequence without repeats has as many distinct elements as entries. */
  lemma {:induction false} DistinctCard(path: seq<Point>)
    requires forall i, j :: 0 <= i < j < |path| ==> path[i] != path[j]
    ensures |Points(path)| == |path|
  {
    if path != [] {
      var init := path[..|path| - 1];
      DistinctCard(init);
      assert path == init + [path[|path| - 1]];
      PointsAppend(init, path[|path| - 1]);
    }
  }

  /** DrawLine never plots a point twice: it plots |LinePoints| distinct pixels. */
  lemma {:induction false} LineDistinct(p0: Point, p1: Point)
    ensures forall i, j :: 0 <= i < j < |LinePoints(p0, p1)| ==> LinePoints(p0, p1)[i] != LinePoints(p0, p1)[j]
    ensures |Points(LinePoints(p0, p1))| == |LinePoints(p0, p1)|
  {
    WalkIncreasing(p0, p1, 0, 0);
    DistinctCard(LinePoints(p0, p1));
  }

  /** On a horizontal line only x steps: from step ux on, the walk is the
      remaining points of the row. */
  lemma {:induction false} WalkHorizontal(p0: Point, p1: Point, ux: int)
    requires p0.y == p1.y && 0 <= ux <= Abs(p0.x - p1.x)
    ensures |Walk(p0, p1, ux, 0)| == Abs(p0.x - p1.x) - ux + 1
    ensures forall k :: 0 <= k < |Walk(p0, p1, ux, 0)| ==> Walk(p0, p1, ux, 0)[k] == At(p0, p1, ux + k, 0)
    decreases Abs(p0.x - p1.x) - ux
  {
    var dx := Abs(p0.x - p1.x);
    AtEnd(p0, p1, ux, 0);
    if ux < dx {
      WalkUnfold(p0, p1, ux, 0, []);
      assert ErrorTerm(dx, 0, ux, 0) == dx;
      WalkHorizontal(p0, p1, ux + 1);
      var (path, tail) := (Walk(p0, p1, ux, 0), Walk(p0, p1, ux + 1, 0));
      forall k | 1 <= k < |path|
        ensures path[k] == At(p0, p1, ux + k, 0)
      {
        assert path[k] == tail[k - 1];
      }
    }
  }

  /** On a vertical line only y steps. */
  lemma {:induction false} WalkVertical(p0: Point, p1: Point, uy: int)
    requires p0.x == p1.x && 0 <= uy <= Abs(p0.y - p1.y)
    ensures |Walk(p0, p1, 0, uy)| == Abs(p0.y - p1.y) - uy + 1
    ensures forall k :: 0 <= k < |Walk(p0, p1, 0, uy)| ==> Walk(p0, p1, 0, uy)[k] == At(p0, p1, 0, uy + k)
    decreases Abs(p0.y - p1.y) - uy
  {
    var dy: int := Abs(p0.y - p1.y);
    AtEnd(p0, p1, 0, uy);
    if uy < dy {
      WalkUnfold(p0, p1, 0, uy, []);
      assert ErrorTerm(0, dy, 0, uy) == 0 - dy;
      WalkVertical(p0, p1, uy + 1);
      var (path, tail) := (Walk(p0, p1, 0, uy), Walk(p0, p1, 0, uy + 1));
      forall k | 1 <= k < |path|
        ensures path[k] == At(p0, p1, 0, uy + k)
      {
        assert path[k] == tail[k - 1];
      }
    }
  }

  /** A horizontal or vertical line plots exactly |dx| + 1 or |dy| + 1
      pixels: the k-th is k steps from p0 towards p1, and none repeats. */
  lemma {:induction false} StraightLineCount(p0: Point, p1: Point)
    ensures p0.y == p1.y ==>
              && |LinePoints(p0, p1)| == Abs(p0.x - p1.x) + 1
              && (forall k :: 0 <= k < |LinePoints(p0, p1)| ==> LinePoints(p0, p1)[k] == At(p0, p1, k, 0))
              && |Points(LinePoints(p0, p1))| == Abs(p0.x - p1.x) + 1
    ensures p0.x == p1.x ==>
              && |LinePoints(p0, p1)| == Abs(p0.y - p1.y) + 1
              && (forall k :: 0 <= k < |LinePoints(p0, p1)| ==> LinePoints(p0, p1)[k] == At(p0, p1, 0, k))
              && |Points(LinePoints(p0, p1))| == Abs(p0.y - p1.y) + 1
  {
    LineDistinct(p0, p1);
    if p0.y == p1.y {
      WalkHorizontal(p0, p1, 0);
    }
    if p0.x == p1.x {
      WalkVertical(p0, p1, 0);
    }
  }

  /** A line drawn rightwards along a row plots p0.x, p0.x + 1, .., p1.x in
      that order. */
  lemma LineAlongX(p0: Point, p1: Point)
    requires p0.y == p1.y && p0.x <= p1.x
    ensures |LinePoints(p0, p1)| == p1.x - p0.x + 1
    ensures forall k :: 0 <= k < |LinePoints(p0, p1)| ==> LinePoints(p0, p1)[k] == Point(p0.x + k, p0.y)
  {
    WalkHorizontal(p0, p1, 0);
  }

  lemma Three(path: seq<Point>, x: Point, y: Point, z: Point)
    requires path == [x] + ([y] + [z])
    ensures path == [x, y, z]
  {
  }

  /** From (0, 0) to (2, 1), DrawLine plots (1, 0) between the ends. */
  lemma LineForward(a: Point, b: Point)
    requires a == Point(0, 0) && b == Point(2, 1)
    ensures LinePoints(a, b) == [a, Point(1, 0), b]
  {
    AtEnd(a, b, 2, 1);
    var last := Walk(a, b, 2, 1);
    assert last == [b];
    WalkUnfold(a, b, 1, 0, []);
    assert NextX(a, b, 1, 0) == 2 && NextY(a, b, 1, 0) == 1;
    var mid := Walk(a, b, 1, 0);
    assert mid == [Point(1, 0)] + last;
    WalkUnfold(a, b, 0, 0, []);
    assert NextX(a, b, 0, 0) == 1 && NextY(a, b, 0, 0) == 0;
    Three(LinePoints(a, b), a, Point(1, 0), b);
  }

  /** From (2, 1) back to (0, 0), DrawLine plots (1, 1) between the ends. */
  lemma LineBackward(a: Point, b: Point)
    requires a == Point(2, 1) && b == Point(0, 0)
    ensures LinePoints(a, b) == [a, Point(1, 1), b]
  {
    AtEnd(a, b, 2, 1);
    var last := Walk(a, b, 2, 1);
    assert last == [b];
    WalkUnfold(a, b, 1, 0, []);
    assert NextX(a, b, 1, 0) == 2 && NextY(a, b, 1, 0) == 1;
    var mid := Walk(a, b, 1, 0);
    assert mid == [Point(1, 1)] + last;
    WalkUnfold(a, b, 0, 0, []);
    assert NextX(a, b, 0, 0) == 1 && NextY(a, b, 0, 0) == 0;
    Three(LinePoints(a, b), a, Point(1, 1), b);
  }

  /** DrawLine depends on which end comes first: the two directions of the
      same segment plot different pixels. */
  lemma LineNotReversible(a: Point, b: Point)
    requires a == Point(0, 0) && b == Point(2, 1)
    ensures Points(LinePoints(a, b)) != Points(LinePoints(b, a))
  {
    LineForward(a, b);
    LineBackward(b, a);
    CornersDiffer(LinePoints(a, b), LinePoints(b, a), a, b);
  }

  /** The two three-pixel paths of the example plot different sets. */
  lemma CornersDiffer(u: seq<Point>, v: seq<Point>, a: Point, b: Point)
    requires a == Point(0, 0) && b == Point(2, 1)
    requires u == [a, Point(1, 0), b] && v == [b, Point(1, 1), a]
    ensures Points(u) != Points(v)
  {
    assert Point(1, 0) in Points(u);
  }
}
