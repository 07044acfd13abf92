/** DrawCircle and FillCircle of operation.go: the integer midpoint circle
    loop, its octant points and the horizontal spans the fill draws. */
module Circle {
  import opened PixelType
  import opened Display
  import opened Raster
  import opened Shapes

  /** The loop state: the octant offsets x and y and the decision variable d. */
  datatype Step = Step(x: int, y: int, d: int)

  /** The state before the first iteration, for radius rad. */
  function Start(rad: int): Step {
    Step(rad, 0, rad * -2 + 3)
  }

  /** One iteration's update: when d >= 0, x moves one step inwards and d
      loses 4x (the new x); then y moves one step out and d gains 4y + 2
      (the new y). */
  function Next(c: Step): Step {
    var (x, d) := if c.d >= 0 then (c.x - 1, c.d - (c.x - 1) * 4) else (c.x, c.d);
    Step(x, c.y + 1, d + (c.y + 1) * 4 + 2)
  }

  /** How many more iterations the `x >= y` loop runs at most. */
  function Remaining(c: Step): nat {
    if c.x >= c.y then c.x - c.y + 1 else 0
  }

  /** The states at which the loop body runs, from c on. */
  function Visits(c: Step): seq<Step>
    decreases Remaining(c)
  {
    if c.x >= c.y then [c] + Visits(Next(c)) else []
  }

  /** The eight points one iteration of DrawCircle plots. */
  function Octants(px: int, py: int, c: Step): set<Point> {
    {Point(px + c.x, py + c.y), Point(px - c.x, py + c.y), Point(px + c.x, py - c.y), Point(px - c.x, py - c.y),
     Point(px + c.y, py + c.x), Point(px - c.y, py + c.x), Point(px + c.y, py - c.x), Point(px - c.y, py - c.x)}
  }

  /** A with the four half-open rows of one FillCircle iteration added, in
      the order they are drawn: rows py + y and py - y over [px - x, px + x),
      then rows py + x and py - x over [px - y, px + y). */
  function AddSpans(A: set<Point>, px: int, py: int, c: Step): set<Point> {
    A + Span(px - c.x, px + c.x, py + c.y, py + c.y + 1) + Span(px - c.x, px + c.x, py - c.y, py - c.y + 1)
      + Span(px - c.y, px + c.y, py + c.x, py + c.x + 1) + Span(px - c.y, px + c.y, py - c.x, py - c.x + 1)
  }

  /** Whether q lies on one of the four rows of the iteration at c. */
  predicate InSpans(px: int, py: int, c: Step, q: Point) {
    || (px - c.x <= q.x < px + c.x && (q.y == py + c.y || q.y == py - c.y))
    || (px - c.y <= q.x < px + c.y && (q.y == py + c.x || q.y == py - c.x))
  }

  lemma AddSpansMember(A: set<Point>, px: int, py: int, c: Step, q: Point)
    ensures q in AddSpans(A, px, py, c) <==> q in A || InSpans(px, py, c, q)
  {
    SpanMember(px - c.x, px + c.x, py + c.y, py + c.y + 1, q);
    SpanMember(px - c.x, px + c.x, py - c.y, py - c.y + 1, q);
    SpanMember(px - c.y, px + c.y, py + c.x, py + c.x + 1, q);
    SpanMember(px - c.y, px + c.y, py - c.x, py - c.x + 1, q);
  }

  /** The points DrawCircle plots for the visits vs. */
  function Outline(px: int, py: int, vs: seq<Step>): set<Point> {
    if vs == [] then {} else Outline(px, py, vs[..|vs| - 1]) + Octants(px, py, vs[|vs| - 1])
  }

  /** The points FillCircle draws for the visits vs. */
  function Disc(px: int, py: int, vs: seq<Step>): set<Point> {
    if vs == [] then {} else AddSpans(Disc(px, py, vs[..|vs| - 1]), px, py, vs[|vs| - 1])
  }

  function CircleOutline(px: int, py: int, rad: int): set<Point> {
    Outline(px, py, Visits(Start(rad)))
  }

  function CircleFill(px: int, py: int, rad: int): set<Point> {
    Disc(px, py, Visits(Start(rad)))
  }

  lemma OutlineAppend(px: int, py: int, vs: seq<Step>, c: Step)
    ensures Outline(px, py, vs + [c]) == Outline(px, py, vs) + Octants(px, py, c)
  {
    assert (vs + [c])[..|vs|] == vs;
  }

  lemma DiscAppend(px: int, py: int, vs: seq<Step>, c: Step)
    ensures Disc(px, py, vs + [c]) == AddSpans(Disc(px, py, vs), px, py, c)
  {
    assert (vs + [c])[..|vs|] == vs;
  }

  /** Unfolding step for FillStep: AddSpans by its definition, kept apart so
      the method does not unfold it itself. */
  lemma AddSpansUnfold(base: set<Point>, px: int, py: int, c: Step)
    ensures AddSpans(base, px, py, c) == base + Span(px - c.x, px + c.x, py + c.y, py + c.y + 1) + Span(px - c.x, px + c.x, py - c.y, py - c.y + 1)
              + Span(px - c.y, px + c.y, py + c.x, py + c.x + 1) + Span(px - c.y, px + c.y, py - c.x, py - c.x + 1)
  {
  }

  /** A point is plotted exactly when it is an octant point of some visit. */
  lemma {:induction false} OutlineMember(px: int, py: int, vs: seq<Step>, q: Point)
    ensures q in Outline(px, py, vs) <==> exists k :: 0 <= k < |vs| && q in Octants(px, py, vs[k])
  {
    if vs != [] {
      var init := vs[..|vs| - 1];
      OutlineMember(px, py, init, q);
      if q in Outline(px, py, init) {
        var k :| 0 <= k < |init| && q in Octants(px, py, init[k]);
        assert vs[k] == init[k];
      }
      if exists k :: 0 <= k < |vs| && q in Octants(px, py, vs[k]) {
        var k :| 0 <= k < |vs| && q in Octants(px, py, vs[k]);
        if k < |init| {
          assert vs[k] == init[k];
        }
      }
    }
  }

  /** A point is filled exactly when it lies on a row of some visit. */
  lemma {:induction false} DiscMember(px: int, py: int, vs: seq<Step>, q: Point)
    ensures q in Disc(px, py, vs) <==> exists k :: 0 <= k < |vs| && InSpans(px, py, vs[k], q)
  {
    if vs != [] {
      var init := vs[..|vs| - 1];
      DiscMember(px, py, init, q);
      AddSpansMember(Disc(px, py, init), px, py, vs[|vs| - 1], q);
      if q in Disc(px, py, init) {
        var k :| 0 <= k < |init| && InSpans(px, py, init[k], q);
        assert vs[k] == init[k];
      }
      if exists k :: 0 <= k < |vs| && InSpans(px, py, vs[k], q) {
        var k :| 0 <= k < |vs| && InSpans(px, py, vs[k], q);
        if k < |init| {
          assert vs[k] == init[k];
        }
      }
    }
  }

  /** Adding eight points one at a time adds the set of the eight. */
  lemma AddEight(base: set<Point>, q0: Point, q1: Point, q2: Point, q3: Point,
                 q4: Point, q5: Point, q6: Point, q7: Point)
    ensures base + {q0} + {q1} + {q2} + {q3} + {q4} + {q5} + {q6} + {q7}
            == base + {q0, q1, q2, q3, q4, q5, q6, q7}
  {
  }

  /** The eight SetPixel calls of one DrawCircle iteration, at the offsets of c. */
  method PlotOctants(s: Screen, t: Screen, ghost base: set<Point>, px: int, py: int, c: Step, p: Pixel)
    returns (r: Screen)
    requires s.Valid() && t == Paint(s, base, p)
    ensures r == Paint(s, base + Octants(px, py, c), p)
  {
    var (x, y) := (c.x, c.y);
    ghost var A := base;
    r := PaintOne(s, t, A, Point(px + x, py + y), p);
    A := A + {Point(px + x, py + y)};
    r := PaintOne(s, r, A, Point(px - x, py + y), p);
    A := A + {Point(px - x, py + y)};
    r := PaintOne(s, r, A, Point(px + x, py - y), p);
    A := A + {Point(px + x, py - y)};
    r := PaintOne(s, r, A, Point(px - x, py - y), p);
    A := A + {Point(px - x, py - y)};
    r := PaintOne(s, r, A, Point(px + y, py + x), p);
    A := A + {Point(px + y, py + x)};
    r := PaintOne(s, r, A, Point(px - y, py + x), p);
    A := A + {Point(px - y, py + x)};
    r := PaintOne(s, r, A, Point(px + y, py - x), p);
    A := A + {Point(px + y, py - x)};
    r := PaintOne(s, r, A, Point(px - y, py - x), p);
    AddEight(base, Point(px + x, py + y), Point(px - x, py + y), Point(px + x, py - y), Point(px - x, py - y),
             Point(px + y, py + x), Point(px - y, py + x), Point(px + y, py - x), Point(px - y, py - x));
  }

  /** The two inner loops of one FillCircle iteration, at the offsets of c. */
  method FillSpans(s: Screen, t: Screen, ghost base: set<Point>, px: int, py: int, c: Step, p: Pixel)
    returns (r: Screen)
    requires s.Valid() && t == Paint(s, base, p)
    ensures r == Paint(s, base + Span(px - c.x, px + c.x, py + c.y, py + c.y + 1) + Span(px - c.x, px + c.x, py - c.y, py - c.y + 1)
              + Span(px - c.y, px + c.y, py + c.x, py + c.x + 1) + Span(px - c.y, px + c.y, py - c.x, py - c.x + 1), p)
  {
    r := DrawRows(s, t, base, px - c.x, px + c.x, py + c.y, py - c.y, p);
    ghost var rows := base + Span(px - c.x, px + c.x, py + c.y, py + c.y + 1)
                      + Span(px - c.x, px + c.x, py - c.y, py - c.y + 1);
    r := DrawRows(s, r, rows, px - c.y, px + c.y, py + c.x, py - c.x, p);
  }

  /** One iteration of FillCircle's loop: on a screen showing the rows of
      the visits done, drawing the rows of c shows those of done + [c]. */
  method FillStep(s: Screen, t: Screen, ghost done: seq<Step>, px: int, py: int, c: Step, p: Pixel)
    returns (r: Screen)
    requires s.Valid() && t == Paint(s, Disc(px, py, done), p)
    ensures r == Paint(s, Disc(px, py, done + [c]), p)
  {
    r := FillSpans(s, t, Disc(px, py, done), px, py, c, p);
    DiscAppend(px, py, done, c);
    AddSpansUnfold(Disc(px, py, done), px, py, c);
  }

  /** One more iteration of the loop: the visits from c are c followed by
      the visits from Next(c). */
  lemma VisitsStep(done: seq<Step>, c: Step)
    requires c.x >= c.y
    ensures Remaining(Next(c)) < Remaining(c)
    ensures done + Visits(c) == (done + [c]) + Visits(Next(c))
  {
    var n := Next(c);
    assert n.y == c.y + 1 && n.x <= c.x;
    assert Visits(c) == [c] + Visits(n);
    assert done + ([c] + Visits(n)) == (done + [c]) + Visits(n);
  }

  /** The loop stops once x < y. */
  lemma VisitsEnd(done: seq<Step>, c: Step)
    requires c.x < c.y
    ensures done + Visits(c) == done
  {
  }

  /** The update at the end of both circle loops, as written. */
  method Advance(x: int, y: int, d: int) returns (x': int, y': int, d': int)
    ensures Step(x', y', d') == Next(Step(x, y, d))
  {
    x', y', d' := x, y, d;
    if d' >= 0 {
      x' := x' - 1;
      d' := d' - x' * 4;
    }
    y' := y' + 1;
    d' := d' + y' * 4 + 2;
  }

  /** Draw the outline of a circle of radius rad around (px, py). */
  method DrawCircle(s: Screen, px: int, py: int, rad: int, p: Pixel) returns (r: Screen)
    requires s.Valid()
    ensures r == Paint(s, CircleOutline(px, py, rad), p)
  {
    var x, y, d := rad, 0, rad * -2 + 3;
    ghost var done: seq<Step> := [];
    PaintEmpty(s, p);
    r := s;
    while x >= y
      invariant done + Visits(Step(x, y, d)) == Visits(Start(rad))
      invariant r == Paint(s, Outline(px, py, done), p)
      decreases Remaining(Step(x, y, d))
    {
      r := PlotOctants(s, r, Outline(px, py, done), px, py, Step(x, y, d), p);
      OutlineAppend(px, py, done, Step(x, y, d));
      VisitsStep(done, Step(x, y, d));
      done := done + [Step(x, y, d)];
      x, y, d := Advance(x, y, d);
    }
    VisitsEnd(done, Step(x, y, d));
  }

  /** Fill a circle of radius rad around (px, py) with half-open rows. */
  method FillCircle(s: Screen, px: int, py: int, rad: int, p: Pixel) returns (r: Screen)
    requires s.Valid()
    ensures r == Paint(s, CircleFill(px, py, rad), p)
  {
    var x, y, d := rad, 0, rad * -2 + 3;
    ghost var done: seq<Step> := [];
    PaintEmpty(s, p);
    r := s;
    while x >= y
      invariant done + Visits(Step(x, y, d)) == Visits(Start(rad))
      invariant r == Paint(s, Disc(px, py, done), p)
      decreases Remaining(Step(x, y, d))
    {
      r := FillStep(s, r, done, px, py, Step(x, y, d), p);
      VisitsStep(done, Step(x, y, d));
      done := done + [Step(x, y, d)];
      x, y, d := Advance(x, y, d);
    }
    VisitsEnd(done, Step(x, y, d));
  }

  /** Along the visits from c, y counts the iterations, x never grows and
      never drops by more than one per iteration, and y <= x throughout. */
  lemma {:induction false} VisitsShape(c: Step)
    ensures forall k :: 0 <= k < |Visits(c)| ==>
              Visits(c)[k].y == c.y + k && Visits(c)[k].y <= Visits(c)[k].x <= c.x
    ensures forall k :: 0 <= k < |Visits(c)| - 1 ==>
              Visits(c)[k + 1].x == Visits(c)[k].x || Visits(c)[k + 1].x == Visits(c)[k].x - 1
    decreases Remaining(c)
  {
    if c.x >= c.y {
      var (vs, rest) := (Visits(c), Visits(Next(c)));
      VisitsShape(Next(c));
      assert vs == [c] + rest;
      forall k | 1 <= k < |vs|
        ensures vs[k].y == c.y + k && vs[k].y <= vs[k].x <= c.x
      {
        assert vs[k] == rest[k - 1];
      }
      forall k | 0 <= k < |vs| - 1
        ensures vs[k + 1].x == vs[k].x || vs[k + 1].x == vs[k].x - 1
      {
        assert vs[k + 1] == rest[k];
        if 0 < k {
          assert vs[k] == rest[k - 1];
        }
      }
    }
  }

  /** Every state the circle loops visit has 0 <= y <= x <= rad, with y the
      number of the iteration; consecutive x differ by at most one. */
  lemma CircleVisits(rad: int)
    ensures forall k :: 0 <= k < |Visits(Start(rad))| ==>
              Visits(Start(rad))[k].y == k && 0 <= Visits(Start(rad))[k].y <= Visits(Start(rad))[k].x <= rad
    ensures forall k :: 0 <= k < |Visits(Start(rad))| - 1 ==>
              Visits(Start(rad))[k + 1].x == Visits(Start(rad))[k].x
              || Visits(Start(rad))[k + 1].x == Visits(Start(rad))[k].x - 1
  {
    VisitsShape(Start(rad));
  }

  /** How far (x, y) is off the circle of radius rad: x^2 + y^2 - rad^2. */
  function Off(rad: int, x: int, y: int): int {
    x * x + y * y - rad * rad
  }

  /** The decision variable of the loop at (x, y): the offsets of the two
      candidate next points (x, y + 1) and (x - 1, y + 1), added. */
  function Decision(rad: int, x: int, y: int): int {
    Off(rad, x, y + 1) + Off(rad, x - 1, y + 1)
  }

  lemma OffSteps(rad: int, x: int, y: int)
    ensures Off(rad, x, y + 1) == Off(rad, x, y) + 2 * y + 1
    ensures Off(rad, x - 1, y) == Off(rad, x, y) - 2 * x + 1
  {
    assert (y + 1) * (y + 1) == y * y + 2 * y + 1;
    assert (x - 1) * (x - 1) == x * x - 2 * x + 1;
  }

  /** One iteration moves y one step out and x at most one step in, keeps d
      equal to the decision variable, and a state it moves to that is still
      visited is within x of the circle. */
  lemma NextNear(rad: int, c: Step)
    requires 0 <= c.y <= c.x && c.d == Decision(rad, c.x, c.y)
    requires -c.x <= Off(rad, c.x, c.y) <= c.x
    ensures Next(c).y == c.y + 1 && (Next(c).x == c.x || Next(c).x == c.x - 1)
    ensures Next(c).d == Decision(rad, Next(c).x, Next(c).y)
    ensures Next(c).x >= Next(c).y ==> -Next(c).x <= Off(rad, Next(c).x, Next(c).y) <= Next(c).x
  {
    var (x, y) := (c.x, c.y);
    OffSteps(rad, x, y);
    OffSteps(rad, x, y + 1);
    OffSteps(rad, x, y + 2);
    OffSteps(rad, x - 1, y + 1);
    OffSteps(rad, x - 1, y + 2);
    OffSteps(rad, x - 1, y);
  }

  lemma {:induction false} VisitsNear(rad: int, c: Step)
    requires 0 <= c.y && c.d == Decision(rad, c.x, c.y)
    requires c.x >= c.y ==> -c.x <= Off(rad, c.x, c.y) <= c.x
    ensures forall k :: 0 <= k < |Visits(c)| ==>
              -Visits(c)[k].x <= Off(rad, Visits(c)[k].x, Visits(c)[k].y) <= Visits(c)[k].x
    decreases Remaining(c)
  {
    if c.x >= c.y {
      NextNear(rad, c);
      VisitsNear(rad, Next(c));
      var (vs, rest) := (Visits(c), Visits(Next(c)));
      assert vs == [c] + rest;
      forall k | 1 <= k < |vs|
        ensures -vs[k].x <= Off(rad, vs[k].x, vs[k].y) <= vs[k].x
      {
        assert vs[k] == rest[k - 1];
      }
    }
  }

  /** The midpoint loop stays close to the circle: at every visited (x, y),
      rad^2 - x <= x^2 + y^2 <= rad^2 + x. */
  lemma CircleNear(rad: int)
    ensures forall k :: 0 <= k < |Visits(Start(rad))| ==>
              rad * rad - Visits(Start(rad))[k].x
              <= Visits(Start(rad))[k].x * Visits(Start(rad))[k].x + Visits(Start(rad))[k].y * Visits(Start(rad))[k].y
              <= rad * rad + Visits(Start(rad))[k].x
  {
    OffSteps(rad, rad, 0);
    OffSteps(rad, rad - 1, 0);
    OffSteps(rad, rad, 1);
    assert Start(rad).d == Decision(rad, rad, 0);
    VisitsNear(rad, Start(rad));
  }

  /** Every octant point of c is at squared distance x^2 + y^2 from the centre. */
  lemma OctantsDistance(px: int, py: int, c: Step, q: Point)
    requires q in Octants(px, py, c)
    ensures (q.x - px) * (q.x - px) + (q.y - py) * (q.y - py) == c.x * c.x + c.y * c.y
  {
    assert (-c.x) * (-c.x) == c.x * c.x && (-c.y) * (-c.y) == c.y * c.y;
  }

  /** Every pixel DrawCircle plots lies within rounding of the circle:
      rad^2 - rad <= |q - (px, py)|^2 <= rad^2 + rad. */
  lemma CircleOutlineNear(px: int, py: int, rad: int, q: Point)
    requires q in CircleOutline(px, py, rad)
    ensures rad * rad - rad <= (q.x - px) * (q.x - px) + (q.y - py) * (q.y - py) <= rad * rad + rad
  {
    var vs := Visits(Start(rad));
    OutlineMember(px, py, vs, q);
    var k :| 0 <= k < |vs| && q in Octants(px, py, vs[k]);
    CircleVisits(rad);
    CircleNear(rad);
    OctantsDistance(px, py, vs[k], q);
  }

  /** The outline is symmetric in both axes through the centre and in the
      diagonal through it. */
  lemma CircleOutlineSymmetric(px: int, py: int, rad: int, q: Point)
    requires q in CircleOutline(px, py, rad)
    ensures Point(2 * px - q.x, q.y) in CircleOutline(px, py, rad)
    ensures Point(q.x, 2 * py - q.y) in CircleOutline(px, py, rad)
    ensures Point(px + (q.y - py), py + (q.x - px)) in CircleOutline(px, py, rad)
  {
    var vs := Visits(Start(rad));
    OutlineMember(px, py, vs, q);
    var k :| 0 <= k < |vs| && q in Octants(px, py, vs[k]);
    var (mx, my, sw) := (Point(2 * px - q.x, q.y), Point(q.x, 2 * py - q.y), Point(px + (q.y - py), py + (q.x - px)));
    OctantsSymmetric(px, py, vs[k], q);
    OutlineMember(px, py, vs, mx);
    OutlineMember(px, py, vs, my);
    OutlineMember(px, py, vs, sw);
  }

  lemma OctantsSymmetric(px: int, py: int, c: Step, q: Point)
    requires q in Octants(px, py, c)
    ensures Point(2 * px - q.x, q.y) in Octants(px, py, c)
    ensures Point(q.x, 2 * py - q.y) in Octants(px, py, c)
    ensures Point(px + (q.y - py), py + (q.x - px)) in Octants(px, py, c)
  {
  }

  /** Every pixel FillCircle writes lies in [px - rad, px + rad) x
      [py - rad, py + rad]: the rows are half-open on the right. */
  lemma CircleFillBounds(px: int, py: int, rad: int, q: Point)
    requires q in CircleFill(px, py, rad)
    ensures px - rad <= q.x < px + rad && py - rad <= q.y <= py + rad
  {
    var vs := Visits(Start(rad));
    DiscMember(px, py, vs, q);
    var k :| 0 <= k < |vs| && InSpans(px, py, vs[k], q);
    CircleVisits(rad);
  }

  /** A negative radius runs no iteration: nothing is drawn. */
  lemma CircleNegative(px: int, py: int, rad: int)
    requires rad < 0
    ensures CircleOutline(px, py, rad) == {} && CircleFill(px, py, rad) == {}
  {
    assert Visits(Start(rad)) == [];
  }

  /** Radius zero runs one iteration at (0, 0): DrawCircle plots only the
      centre and FillCircle's rows are all empty. */
  lemma CircleZero(px: int, py: int)
    ensures CircleOutline(px, py, 0) == {Point(px, py)}
    ensures CircleFill(px, py, 0) == {}
  {
    var c := Start(0);
    assert Next(c).x < Next(c).y;
    assert Visits(c) == [c];
    OutlineAppend(px, py, [], c);
    DiscAppend(px, py, [], c);
    assert [] + [c] == [c];
    forall q ensures q !in CircleFill(px, py, 0) {
      AddSpansMember({}, px, py, c, q);
    }
  }
}
