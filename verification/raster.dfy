/** The write primitive of operation.go and what everything else is stated in:
    SetPixel, the declarative Paint, Clear and the NewPixel dispatch. */
module Raster {
  import opened Wrappers
  import opened PixelType
  import opened Display

  /** SetPixel stores a word only when it handles the word's type and the
      screen has the word's depth; PIXEL8 is not handled at all. */
  predicate Accepts(s: Screen, p: Pixel) {
    !p.Pixel8? && p.Kind().Bits() == s.Depth()
  }

  /** Draw one pixel. Points off the screen and words of the wrong depth or
      of an unhandled type are dropped silently. */
  function SetPixel(s: Screen, px: int, py: int, p: Pixel): (r: Screen)
    requires s.Valid()
    ensures r.Valid() && SameShape(r, s)
    ensures !s.OnScreen(Point(px, py)) || !Accepts(s, p) ==> r == s
    ensures s.OnScreen(Point(px, py)) && Accepts(s, p) ==>
              Cell(r, Point(px, py)) == p
              && forall i :: 0 <= i < |s.view| && i != s.Index(Point(px, py)) ==> r.view[i] == s.view[i]
  {
    if px < 0 || py < 0 || px >= s.Width() || py >= s.Height() then
      s
    else
      CellIndex(s, Point(px, py));
      var at := px + py * s.pixelStride;
      match p
      case Pixel32(_, _, _, _) => if s.Depth() != 32 then s else s.(view := s.view[at := p])
      case Pixel24(_, _, _) => if s.Depth() != 24 then s else s.(view := s.view[at := p])
      case Pixel16(_, _) => if s.Depth() != 16 then s else s.(view := s.view[at := p])
      case Pixel8(_) => s
  }

  /** The screen after p is written at every on-screen point of A: the
      reference against which every shape operation is stated. */
  function Paint(s: Screen, A: set<Point>, p: Pixel): (r: Screen)
    requires s.Valid()
    ensures r.Valid() && SameShape(r, s)
  {
    if !Accepts(s, p) then
      s
    else
      s.(view := seq(|s.view|, i requires 0 <= i < |s.view| =>
                       if s.IsCellIndex(i) && s.CellOf(i) in A then p else s.view[i]))
  }

  /** Paint, cell by cell: exactly the accepted points of A show p, every
      other point keeps its word, and padding outside the visible lines is
      never touched. */
  lemma {:induction false} PaintCells(s: Screen, A: set<Point>, p: Pixel)
    requires s.Valid()
    ensures forall q :: s.OnScreen(q) ==>
              Cell(Paint(s, A, p), q) == if Accepts(s, p) && q in A then p else Cell(s, q)
    ensures forall i :: 0 <= i < |s.view| && !s.IsCellIndex(i) ==> Paint(s, A, p).view[i] == s.view[i]
  {
    forall q | s.OnScreen(q)
      ensures Cell(Paint(s, A, p), q) == if Accepts(s, p) && q in A then p else Cell(s, q)
    {
      CellIndex(s, q);
    }
  }

  /** Drawing one more point of a shape extends the painted set by that point. */
  lemma {:induction false} PaintStep(s: Screen, A: set<Point>, p: Pixel, q: Point)
    requires s.Valid()
    ensures SetPixel(Paint(s, A, p), q.x, q.y, p) == Paint(s, A + {q}, p)
  {
    var before := Paint(s, A, p);
    var after := Paint(s, A + {q}, p);
    var r := SetPixel(before, q.x, q.y, p);
    if Accepts(s, p) {
      if s.OnScreen(q) {
        CellIndex(s, q);
        forall i | 0 <= i < |s.view|
          ensures r.view[i] == after.view[i]
        {
          if s.IsCellIndex(i) && s.CellOf(i) == q {
            IndexOfCell(s, i);
          }
        }
      } else {
        forall i | 0 <= i < |s.view|
          ensures r.view[i] == after.view[i]
        {
          if s.IsCellIndex(i) {
            IndexOfCell(s, i);
          }
        }
      }
      assert r.view == after.view;
    }
  }

  /** SetPixel is the painting of a single point. */
  lemma {:induction false} SetPixelIsPaint(s: Screen, px: int, py: int, p: Pixel)
    requires s.Valid()
    ensures SetPixel(s, px, py, p) == Paint(s, {Point(px, py)}, p)
  {
    PaintEmpty(s, p);
    PaintStep(s, {}, p, Point(px, py));
  }

  /** Painting nothing leaves the screen as it was. */
  lemma {:induction false} PaintEmpty(s: Screen, p: Pixel)
    requires s.Valid()
    ensures Paint(s, {}, p) == s
  {
    assert Paint(s, {}, p).view == s.view;
  }

  /** One SetPixel call of a shape loop: on a screen showing the points of A,
      drawing q shows the points of A + {q}. */
  method PaintOne(s: Screen, t: Screen, ghost A: set<Point>, q: Point, p: Pixel) returns (r: Screen)
    requires s.Valid() && t == Paint(s, A, p)
    ensures r == Paint(s, A + {q}, p)
  {
    PaintStep(s, A, p, q);
    r := SetPixel(t, q.x, q.y, p);
  }

  /** Fill a view with one word, as the `for i := range pix` loops of Clear. */
  method FillView(view: seq<Pixel>, w: Pixel) returns (r: seq<Pixel>)
    ensures |r| == |view|
    ensures forall i :: 0 <= i < |r| ==> r[i] == w
  {
    r := view;
    var i := 0;
    while i < |r|
      invariant 0 <= i <= |r| && |r| == |view|
      invariant forall k :: 0 <= k < i ==> r[k] == w
    {
      r := r[i := w];
      i := i + 1;
    }
  }

  /** Clear: at depth 32, 24 or 16 every word of the view, padding and tail
      included, becomes the zero word of that depth; at any other depth
      nothing changes. */
  method Clear(s: Screen) returns (r: Screen)
    ensures SameShape(r, s)
    ensures s.Depth() == 32 || s.Depth() == 24 || s.Depth() == 16 ==>
              forall i :: 0 <= i < |r.view| ==>
                r.view[i].Kind().Bits() == s.Depth() && r.view[i].Bytes() == seq(r.view[i].Kind().Size(), _ => 0)
    ensures !(s.Depth() == 32 || s.Depth() == 24 || s.Depth() == 16) ==> r == s
  {
    r := s;
    var zero: Pixel;
    if s.Depth() == 32 {
      zero := Zero(K32);
    } else if s.Depth() == 24 {
      zero := Zero(K24);
    } else if s.Depth() == 16 {
      zero := Zero(K16);
    } else {
      return;
    }
    var view := FillView(s.view, zero);
    r := s.(view := view);
  }

  /** The word type NewPixel allocates for the screen's depth, or None (nil)
      when the depth has no word type; the colouring of the new word is not
      part of this model. A word of the chosen type is one SetPixel accepts. */
  function NewPixel(s: Screen): (r: Option<Kind>)
    ensures r.Some? <==> s.Depth() == 32 || s.Depth() == 24 || s.Depth() == 16
    ensures r.Some? ==> r.value.Bits() == s.Depth()
    ensures r.Some? ==> forall p: Pixel :: p.Kind() == r.value ==> Accepts(s, p)
  {
    if s.Depth() == 32 then Some(K32)
    else if s.Depth() == 24 then Some(K24)
    else if s.Depth() == 16 then Some(K16)
    else None
  }
}
