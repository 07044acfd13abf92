/** PutPxielArray and NewPixelArray of operation.go: the clip-then-copy of a
    pixel array into the strided screen, and the allocation of an empty
    array of the screen's word type. */
module Blit {
  import opened Wrappers
  import opened PixelType
  import opened Display

  /** The errors the blit and the allocation return. SliceOutOfRange stands
      for Go's run-time panic on a slice expression whose bounds do not fit. */
  datatype Error = UnmatchPixelDepth | UnsupportedPixelType | UnsupportedDisplayDepth | SliceOutOfRange

  /** The dynamic type behind a PIXELARRAY interface value: one of the three
      array types the blit handles, or any other implementation. */
  datatype ArrayType = Pixel32Array | Pixel24Array | Pixel16Array | OtherArray

  /** Whether an array type holds words of the given bits per pixel. */
  predicate Matches(t: ArrayType, depth: int) {
    || (t == Pixel32Array && depth == 32)
    || (t == Pixel24Array && depth == 24)
    || (t == Pixel16Array && depth == 16)
  }

  /** A pixel array: its type, GetWidth, GetHeight and its words row by row. */
  datatype PixelArray = PixelArray(kind: ArrayType, width: int, height: int, pix: seq<Pixel>) {

    /** A well-formed array holds exactly width * height words. */
    predicate Valid() {
      0 <= width && 0 <= height && |pix| == width * height
    }
  }

  /** The clip rectangle the blit computes: the first column and the row
      length it copies, the first row, and the end row (exclusive). */
  datatype Clip = Clip(startx: int, endx: int, starty: int, endy: int)

  function Min(a: int, b: int): int {
    if a < b then a else b
  }

  function Max(a: int, b: int): int {
    if a < b then b else a
  }

  /** No part of the array lands on the screen, by the blit's own test. */
  predicate OffScreen(s: Screen, px: int, py: int, a: PixelArray) {
    px + a.width < 0 || py + a.height < 0 || px >= s.Width() || py >= s.Height()
  }

  /** The clip as operation.go computes it. endx starts as the width and is
      shortened by the left overhang, then replaced when the right edge
      overhangs; endy is treated the same way, but the copy loop uses endx
      as a length and endy as an end row. */
  function ClipAsWritten(s: Screen, px: int, py: int, a: PixelArray): Clip {
    var (startx, endx) := if px < 0 then (0 - px, a.width + px) else (0, a.width);
    var endx := if a.width + px > s.Width() then s.Width() - px else endx;
    var (starty, endy) := if py < 0 then (0 - py, a.height + py) else (0, a.height);
    var endy := if a.height + py > s.Height() then s.Height() - py else endy;
    Clip(startx, endx, starty, endy)
  }

  /** The clip the copy loop needs: columns and rows of the array that land
      on the screen, with endx the number of columns and endy the end row. */
  function ClipIntended(s: Screen, px: int, py: int, a: PixelArray): Clip {
    var startx := Max(0, 0 - px);
    Clip(startx, Min(a.width, s.Width() - px) - startx, Max(0, 0 - py), Min(a.height, s.Height() - py))
  }

  /** Whether s[lo:hi] is a legal Go slice expression on a slice of length
      (and capacity) n. */
  predicate SliceOk(lo: int, hi: int, n: int) {
    0 <= lo <= hi <= n
  }

  /** copy(view[d:d+|row|], row): the words of row overwrite view from d on. */
  function CopyRow(view: seq<Pixel>, d: int, row: seq<Pixel>): (r: seq<Pixel>)
    requires 0 <= d && d + |row| <= |view|
    ensures |r| == |view|
    ensures forall i :: 0 <= i < |view| ==> r[i] == if d <= i < d + |row| then row[i - d] else view[i]
  {
    view[..d] + row + view[d + |row|..]
  }

  /** The copy loop from row srcy to c.endy, on the current words view. Each
      row copies c.endx words from array position c.startx + srcy * width to
      screen position c.startx + px + (srcy + py) * stride; a slice whose
      bounds do not fit stops the loop with SliceOutOfRange. */
  function CopyRows(s: Screen, a: PixelArray, px: int, py: int, c: Clip, view: seq<Pixel>, srcy: int)
    : (r: Result<seq<Pixel>, Error>)
    ensures r.Ok? ==> |r.value| == |view|
    decreases c.endy - srcy
  {
    if srcy >= c.endy then
      Ok(view)
    else
      var d := c.startx + px + (srcy + py) * s.pixelStride;
      var o := c.startx + srcy * a.width;
      if !SliceOk(d, d + c.endx, |view|) || !SliceOk(o, o + c.endx, |a.pix|) then
        Err(SliceOutOfRange)
      else
        CopyRows(s, a, px, py, c, CopyRow(view, d, a.pix[o..o + c.endx]), srcy + 1)
  }

  /** The type switch of the blit, once the clip c is known: the array's type
      must be one of the three handled and must match the screen's depth. */
  function PutWith(s: Screen, px: int, py: int, a: PixelArray, c: Clip): (r: Result<Screen, Error>)
    ensures a.kind == OtherArray ==> r == Err(UnsupportedPixelType)
    ensures a.kind != OtherArray && !Matches(a.kind, s.Depth()) ==> r == Err(UnmatchPixelDepth)
    ensures r.Ok? ==> Matches(a.kind, s.Depth()) && SameShape(r.value, s)
    ensures r.Ok? ==> CopyRows(s, a, px, py, c, s.view, c.starty) == Ok(r.value.view)
    ensures Matches(a.kind, s.Depth()) && CopyRows(s, a, px, py, c, s.view, c.starty).Ok? ==>
              r == Ok(s.(view := CopyRows(s, a, px, py, c, s.view, c.starty).value))
  {
    match a.kind
    case OtherArray => Err(UnsupportedPixelType)
    case _ =>
      if !Matches(a.kind, s.Depth()) then
        Err(UnmatchPixelDepth)
      else
        match CopyRows(s, a, px, py, c, s.view, c.starty)
        case Ok(view) => Ok(s.(view := view))
        case Err(e) => Err(e)
  }

  /** PutPxielArray as written: off-screen placements are a silent success;
      otherwise the clip of operation.go and the type switch. */
  function PutPxielArray(s: Screen, px: int, py: int, a: PixelArray): (r: Result<Screen, Error>)
    ensures OffScreen(s, px, py, a) ==> r == Ok(s)
    ensures !OffScreen(s, px, py, a) && a.kind == OtherArray ==> r == Err(UnsupportedPixelType)
    ensures !OffScreen(s, px, py, a) && a.kind != OtherArray && !Matches(a.kind, s.Depth()) ==>
              r == Err(UnmatchPixelDepth)
    ensures r.Ok? ==> SameShape(r.value, s)
  {
    if OffScreen(s, px, py, a) then Ok(s) else PutWith(s, px, py, a, ClipAsWritten(s, px, py, a))
  }

  /** PutPxielArray with the clip the copy loop needs. */
  function PutPixelArrayClipped(s: Screen, px: int, py: int, a: PixelArray): (r: Result<Screen, Error>)
    ensures OffScreen(s, px, py, a) ==> r == Ok(s)
    ensures !OffScreen(s, px, py, a) && a.kind == OtherArray ==> r == Err(UnsupportedPixelType)
    ensures !OffScreen(s, px, py, a) && a.kind != OtherArray && !Matches(a.kind, s.Depth()) ==>
              r == Err(UnmatchPixelDepth)
    ensures r.Ok? ==> SameShape(r.value, s)
  {
    if OffScreen(s, px, py, a) then Ok(s) else PutWith(s, px, py, a, ClipIntended(s, px, py, a))
  }

  /** NewPixelArray: an empty array of the type whose words have the screen's
      depth, or UnsupportedDisplayDepth. */
  function NewPixelArray(s: Screen): (r: Result<PixelArray, Error>)
    ensures r.Ok? <==> s.Depth() == 32 || s.Depth() == 24 || s.Depth() == 16
    ensures r.Err? ==> r.error == UnsupportedDisplayDepth
    ensures r.Ok? ==> Matches(r.value.kind, s.Depth()) && r.value.Valid() && r.value.pix == []
  {
    if s.Depth() == 32 then Ok(PixelArray(Pixel32Array, 0, 0, []))
    else if s.Depth() == 24 then Ok(PixelArray(Pixel24Array, 0, 0, []))
    else if s.Depth() == 16 then Ok(PixelArray(Pixel16Array, 0, 0, []))
    else Err(UnsupportedDisplayDepth)
  }

  /** The array NewPixelArray allocates is accepted by the blit anywhere, and
      copying it changes nothing. */
  lemma NewPixelArrayBlit(s: Screen, px: int, py: int)
    requires NewPixelArray(s).Ok?
    ensures PutPxielArray(s, px, py, NewPixelArray(s).value) == Ok(s)
  {
    var a := NewPixelArray(s).value;
    if !OffScreen(s, px, py, a) {
      assert ClipAsWritten(s, px, py, a).endy <= 0;
      assert s.(view := s.view) == s;
    }
  }

  // ---------------------------------------------------------------------
  // The reference: the array's words placed at (px, py).

  lemma {:induction false} WordBound(a: PixelArray, u: int, v: int)
    requires a.Valid() && 0 <= u < a.width && 0 <= v < a.height
    ensures 0 <= u + v * a.width < |a.pix|
  {
    MulLe(v, a.height - 1, a.width);
    MulLe(0, v, a.width);
  }

  /** The array's word in column u of row v. */
  function Word(a: PixelArray, u: int, v: int): Pixel
    requires a.Valid() && 0 <= u < a.width && 0 <= v < a.height
  {
    WordBound(a, u, v);
    a.pix[u + v * a.width]
  }

  /** Whether the array cell at screen point q, placed at (px, py), is in
      columns [u0, u1) and rows [v0, v1) of the array. */
  predicate InWindow(q: Point, px: int, py: int, u0: int, u1: int, v0: int, v1: int) {
    u0 <= q.x - px < u1 && v0 <= q.y - py < v1
  }

  /** The view after every array cell (u, v) in columns [u0, u1) and rows
      [v0, v1) is shown at screen point (px + u, py + v); points off the
      screen, line padding and the buffer's tail keep their words. */
  function Place(s: Screen, a: PixelArray, px: int, py: int, u0: int, u1: int, v0: int, v1: int): (r: seq<Pixel>)
    requires a.Valid() && 0 <= u0 && u1 <= a.width && 0 <= v0 && v1 <= a.height
    ensures |r| == |s.view|
  {
    seq(|s.view|, i requires 0 <= i < |s.view| => PlaceAt(s, a, px, py, u0, u1, v0, v1, i))
  }

  /** Word i of Place. */
  function PlaceAt(s: Screen, a: PixelArray, px: int, py: int, u0: int, u1: int, v0: int, v1: int, i: int): Pixel
    requires a.Valid() && 0 <= u0 && u1 <= a.width && 0 <= v0 && v1 <= a.height && 0 <= i < |s.view|
  {
    if s.IsCellIndex(i) && InWindow(s.CellOf(i), px, py, u0, u1, v0, v1) then
      Word(a, s.CellOf(i).x - px, s.CellOf(i).y - py)
    else
      s.view[i]
  }

  /** The screen with the whole array shown at (px, py), as far as it fits. */
  function Placed(s: Screen, px: int, py: int, a: PixelArray): Screen
    requires a.Valid()
  {
    s.(view := Place(s, a, px, py, 0, a.width, 0, a.height))
  }

  /** Placed, point by point: a screen point inside the placed rectangle
      shows the array's word for it, every other point keeps its word, and
      words that belong to no point are untouched. */
  lemma PlacedCells(s: Screen, px: int, py: int, a: PixelArray)
    requires s.Valid() && a.Valid()
    ensures SameShape(Placed(s, px, py, a), s)
    ensures forall q :: s.OnScreen(q) ==>
              Cell(Placed(s, px, py, a), q) ==
                if 0 <= q.x - px < a.width && 0 <= q.y - py < a.height then Word(a, q.x - px, q.y - py) else Cell(s, q)
    ensures forall i :: 0 <= i < |s.view| && !s.IsCellIndex(i) ==> Placed(s, px, py, a).view[i] == s.view[i]
  {
    forall q | s.OnScreen(q)
      ensures Cell(Placed(s, px, py, a), q) ==
                if 0 <= q.x - px < a.width && 0 <= q.y - py < a.height then Word(a, q.x - px, q.y - py) else Cell(s, q)
    {
      CellIndex(s, q);
    }
  }

  /** An empty window changes nothing. */
  lemma PlaceNone(s: Screen, a: PixelArray, px: int, py: int, u0: int, u1: int, v0: int)
    requires a.Valid() && 0 <= u0 && u1 <= a.width && 0 <= v0 <= a.height
    ensures Place(s, a, px, py, u0, u1, v0, v0) == s.view
  {
  }

  /** Row v of a window on the screen: its destination slice is in range. */
  lemma {:induction false} DestBounds(s: Screen, px: int, py: int, c: Clip, v: int)
    requires s.Valid()
    requires 0 <= c.startx + px && 0 <= c.endx && c.startx + c.endx + px <= s.Width() && 0 <= v + py < s.Height()
    ensures SliceOk(c.startx + px + (v + py) * s.pixelStride, c.startx + px + (v + py) * s.pixelStride + c.endx, |s.view|)
  {
    MulLe(0, v + py, s.pixelStride);
    MulLe(v + py, s.Height() - 1, s.pixelStride);
  }

  /** Row v of a window in the array: its source slice is in range. */
  lemma {:induction false} SourceBounds(a: PixelArray, c: Clip, v: int)
    requires a.Valid()
    requires 0 <= c.startx && 0 <= c.endx && c.startx + c.endx <= a.width && 0 <= v < a.height
    ensures SliceOk(c.startx + v * a.width, c.startx + v * a.width + c.endx, |a.pix|)
  {
    MulLe(0, v, a.width);
    MulLe(v, a.height - 1, a.width);
  }

  /** A word inside the destination run of row v is the word of the screen
      point in row py + v, column (its offset in the run) + c.startx + px. */
  lemma {:induction false} RowCell(s: Screen, px: int, py: int, c: Clip, v: int, d: int, i: int)
    requires s.Valid()
    requires 0 <= c.startx + px && c.startx + c.endx + px <= s.Width() && 0 <= v + py < s.Height()
    requires d == c.startx + px + (v + py) * s.pixelStride && d <= i < d + c.endx
    ensures 0 <= i < |s.view| && s.IsCellIndex(i) && s.CellOf(i) == Point(c.startx + px + (i - d), v + py)
  {
    var q := Point(c.startx + px + (i - d), v + py);
    CellIndex(s, q);
    assert s.Index(q) == i;
  }

  /** The word Place puts at the position of a window cell. */
  lemma PlaceCell(s: Screen, a: PixelArray, px: int, py: int, u0: int, u1: int, v0: int, v1: int, i: int, u: int, v: int)
    requires a.Valid() && 0 <= u0 && u1 <= a.width && 0 <= v0 && v1 <= a.height && 0 <= i < |s.view|
    requires s.IsCellIndex(i) && s.CellOf(i) == Point(px + u, py + v) && u0 <= u < u1 && v0 <= v < v1
    ensures Place(s, a, px, py, u0, u1, v0, v1)[i] == Word(a, u, v)
  {
  }

  /** One word outside the destination run: the window's next row does not
      reach it. */
  lemma {:induction false} RowWordOutside(s: Screen, a: PixelArray, px: int, py: int, c: Clip, v: int, i: int)
    requires s.Valid() && a.Valid()
    requires 0 <= c.startx && 0 <= c.endx && c.startx + c.endx <= a.width
    requires 0 <= c.starty <= v < c.endy <= a.height
    requires !(c.startx + px + (v + py) * s.pixelStride <= i < c.startx + px + (v + py) * s.pixelStride + c.endx)
    requires 0 <= i < |s.view|
    ensures Place(s, a, px, py, c.startx, c.startx + c.endx, c.starty, v + 1)[i]
            == Place(s, a, px, py, c.startx, c.startx + c.endx, c.starty, v)[i]
  {
    if s.IsCellIndex(i) {
      IndexOfCell(s, i);
    }
  }

  /** Copying row v of the window extends the window by that row. */
  lemma {:induction false} RowStep(s: Screen, a: PixelArray, px: int, py: int, c: Clip, v: int)
    requires s.Valid() && a.Valid()
    requires 0 <= c.startx && 0 <= c.endx && c.startx + c.endx <= a.width
    requires 0 <= c.starty <= v < c.endy <= a.height
    requires 0 <= c.startx + px && c.startx + c.endx + px <= s.Width() && 0 <= v + py < s.Height()
    ensures SliceOk(c.startx + px + (v + py) * s.pixelStride, c.startx + px + (v + py) * s.pixelStride + c.endx, |s.view|)
    ensures SliceOk(c.startx + v * a.width, c.startx + v * a.width + c.endx, |a.pix|)
    ensures CopyRow(Place(s, a, px, py, c.startx, c.startx + c.endx, c.starty, v),
                    c.startx + px + (v + py) * s.pixelStride,
                    a.pix[c.startx + v * a.width..c.startx + v * a.width + c.endx])
            == Place(s, a, px, py, c.startx, c.startx + c.endx, c.starty, v + 1)
  {
    DestBounds(s, px, py, c, v);
    SourceBounds(a, c, v);
    var d := c.startx + px + (v + py) * s.pixelStride;
    var o := c.startx + v * a.width;
    var r := CopyRow(Place(s, a, px, py, c.startx, c.startx + c.endx, c.starty, v), d, a.pix[o..o + c.endx]);
    var after := Place(s, a, px, py, c.startx, c.startx + c.endx, c.starty, v + 1);
    forall i | 0 <= i < |s.view|
      ensures r[i] == after[i]
    {
      if d <= i < d + c.endx {
        RowCell(s, px, py, c, v, d, i);
        PlaceCell(s, a, px, py, c.startx, c.startx + c.endx, c.starty, v + 1, i, c.startx + (i - d), v);
      } else {
        RowWordOutside(s, a, px, py, c, v, i);
      }
    }
  }

  /** The copy loop over rows [srcy, c.endy) of a window that lies on the
      screen and in the array finishes the window without a slice error. */
  lemma {:induction false} CopyRowsPlace(s: Screen, a: PixelArray, px: int, py: int, c: Clip, srcy: int)
    requires s.Valid() && a.Valid()
    requires 0 <= c.startx && 0 <= c.endx && c.startx + c.endx <= a.width
    requires 0 <= c.starty <= srcy <= c.endy <= a.height
    requires 0 <= c.startx + px && c.startx + c.endx + px <= s.Width()
    requires 0 <= c.starty + py && c.endy + py <= s.Height()
    ensures CopyRows(s, a, px, py, c, Place(s, a, px, py, c.startx, c.startx + c.endx, c.starty, srcy), srcy)
            == Ok(Place(s, a, px, py, c.startx, c.startx + c.endx, c.starty, c.endy))
    decreases c.endy - srcy
  {
    if srcy < c.endy {
      RowStep(s, a, px, py, c, srcy);
      CopyRowsPlace(s, a, px, py, c, srcy + 1);
    }
  }

  /** The loop's result from the untouched view. */
  lemma {:induction false} CopyRowsWindow(s: Screen, a: PixelArray, px: int, py: int, c: Clip)
    requires s.Valid() && a.Valid()
    requires 0 <= c.startx && 0 <= c.endx && c.startx + c.endx <= a.width
    requires 0 <= c.starty <= c.endy <= a.height
    requires 0 <= c.startx + px && c.startx + c.endx + px <= s.Width()
    requires 0 <= c.starty + py && c.endy + py <= s.Height()
    ensures CopyRows(s, a, px, py, c, s.view, c.starty)
            == Ok(Place(s, a, px, py, c.startx, c.startx + c.endx, c.starty, c.endy))
  {
    PlaceNone(s, a, px, py, c.startx, c.startx + c.endx, c.starty);
    CopyRowsPlace(s, a, px, py, c, c.starty);
  }

  /** The window of the intended clip is all of the array that is on the
      screen: placing it is placing the whole array. */
  lemma {:induction false} ClipWindow(s: Screen, px: int, py: int, a: PixelArray)
    requires s.Valid() && a.Valid() && !OffScreen(s, px, py, a)
    ensures var c := ClipIntended(s, px, py, a);
            && 0 <= c.startx && 0 <= c.endx && c.startx + c.endx <= a.width
            && 0 <= c.starty <= c.endy <= a.height
            && 0 <= c.startx + px && c.startx + c.endx + px <= s.Width()
            && 0 <= c.starty + py && c.endy + py <= s.Height()
            && Place(s, a, px, py, c.startx, c.startx + c.endx, c.starty, c.endy) == Placed(s, px, py, a).view
  {
    var c := ClipIntended(s, px, py, a);
    var window := Place(s, a, px, py, c.startx, c.startx + c.endx, c.starty, c.endy);
    var whole := Placed(s, px, py, a).view;
    forall i | 0 <= i < |s.view|
      ensures window[i] == whole[i]
    {
      if s.IsCellIndex(i) {
        IndexOfCell(s, i);
      }
    }
  }

  /** The corrected blit copies exactly the on-screen part of the array for
      every placement of a well-formed array of the screen's depth; an
      off-screen placement leaves the screen as it was. */
  lemma PutPixelArrayClippedPlaces(s: Screen, px: int, py: int, a: PixelArray)
    requires s.Valid() && a.Valid()
    requires Matches(a.kind, s.Depth())
    ensures PutPixelArrayClipped(s, px, py, a) == Ok(Placed(s, px, py, a))
  {
    if OffScreen(s, px, py, a) {
      var whole := Placed(s, px, py, a).view;
      forall i | 0 <= i < |s.view|
        ensures whole[i] == s.view[i]
      {
        if s.IsCellIndex(i) {
          IndexOfCell(s, i);
        }
      }
      assert whole == s.view;
    } else {
      ClipWindow(s, px, py, a);
      CopyRowsWindow(s, a, px, py, ClipIntended(s, px, py, a));
    }
  }

  /** The clip as written and the intended clip start at the same column and
      row; the row lengths differ exactly when the array overhangs both the
      left and the right edge, and the end rows differ exactly when it
      overhangs the top but not the bottom. */
  lemma ClipDifference(s: Screen, px: int, py: int, a: PixelArray)
    ensures ClipAsWritten(s, px, py, a).startx == ClipIntended(s, px, py, a).startx
    ensures ClipAsWritten(s, px, py, a).starty == ClipIntended(s, px, py, a).starty
    ensures ClipAsWritten(s, px, py, a).endx != ClipIntended(s, px, py, a).endx <==>
              px < 0 && a.width + px > s.Width()
    ensures ClipAsWritten(s, px, py, a).endy != ClipIntended(s, px, py, a).endy <==>
              py < 0 && a.height + py <= s.Height()
  {
  }

  /** Away from those two overhangs the blit as written is the corrected one,
      so it copies exactly the on-screen part of the array. */
  lemma PutPxielArrayAgrees(s: Screen, px: int, py: int, a: PixelArray)
    requires !(px < 0 && a.width + px > s.Width()) && !(py < 0 && a.height + py <= s.Height())
    ensures PutPxielArray(s, px, py, a) == PutPixelArrayClipped(s, px, py, a)
  {
    ClipDifference(s, px, py, a);
  }

  /** A placement fully inside the screen copies all width * height words to
      the rectangle at (px, py), and nothing else changes. */
  lemma PutPxielArrayInside(s: Screen, px: int, py: int, a: PixelArray)
    requires s.Valid() && a.Valid() && Matches(a.kind, s.Depth())
    requires 0 <= px && px + a.width <= s.Width() && 0 <= py && py + a.height <= s.Height()
    ensures PutPxielArray(s, px, py, a) == Ok(Placed(s, px, py, a))
  {
    PutPxielArrayAgrees(s, px, py, a);
    PutPixelArrayClippedPlaces(s, px, py, a);
  }

  // ---------------------------------------------------------------------
  // Where the clip as written goes wrong.

  /** An array that overhangs the top edge but not the bottom: the loop as
      written copies rows [-py, height + py) of the on-screen columns, so
      the rows height + py .. height - 1 that lie on the screen are skipped. */
  lemma PutPxielArrayTopOverhang(s: Screen, px: int, py: int, a: PixelArray)
    requires s.Valid() && a.Valid() && Matches(a.kind, s.Depth()) && !OffScreen(s, px, py, a)
    requires py < 0 && a.height + py <= s.Height() && !(px < 0 && a.width + px > s.Width())
    ensures var c := ClipIntended(s, px, py, a);
            PutPxielArray(s, px, py, a)
            == Ok(s.(view := Place(s, a, px, py, c.startx, c.startx + c.endx, 0 - py, Max(0 - py, a.height + py))))
  {
    ClipDifference(s, px, py, a);
    ClipWindow(s, px, py, a);
    var c := ClipIntended(s, px, py, a);
    var w := Clip(c.startx, c.endx, 0 - py, Max(0 - py, a.height + py));
    if a.height + py <= 0 - py {
      assert ClipAsWritten(s, px, py, a).endy <= ClipAsWritten(s, px, py, a).starty;
      PlaceNone(s, a, px, py, c.startx, c.startx + c.endx, 0 - py);
      assert s.(view := s.view) == s;
    } else {
      assert ClipAsWritten(s, px, py, a) == w;
      CopyRowsWindow(s, a, px, py, w);
    }
  }

  /** An array that overhangs both side edges: as written the row length is
      screenW - px, longer than the screen is wide, where the intended one
      is the screen's width. */
  lemma ClipOverlong(s: Screen, px: int, py: int, a: PixelArray)
    requires px < 0 && a.width + px > s.Width()
    ensures ClipAsWritten(s, px, py, a).endx == s.Width() - px > s.Width()
    ensures ClipIntended(s, px, py, a).endx == s.Width()
  {
  }

  /** A one-pixel-wide, four-row array placed one row above a one-by-four
      screen. The top row is clipped, so the loop starts at row 1; as written
      endy is first shortened to 3 and then used as the end row, so array row
      3 (D) is never copied although screen point (0, 2) shows array row 3.
      The corrected blit copies it. */
  lemma EndyCounterexample(s: Screen, a: PixelArray, Z: Pixel, A: Pixel, B: Pixel, C: Pixel, D: Pixel)
    requires s.Width() == 1 && s.Height() == 4 && s.pixelStride == 1 && s.Depth() == 32
    requires s.view == [Z, Z, Z, Z] && D != Z
    requires a == PixelArray(Pixel32Array, 1, 4, [A, B, C, D])
    ensures PutPxielArray(s, 0, -1, a) == Ok(s.(view := [B, C, Z, Z]))
    ensures PutPixelArrayClipped(s, 0, -1, a) == Ok(s.(view := [B, C, D, Z]))
    ensures PutPxielArray(s, 0, -1, a) != PutPixelArrayClipped(s, 0, -1, a)
  {
    var (w2, w3) := ([B, C, Z, Z], [B, C, D, Z]);
    EndyRows(s, a, Z, A, B, C, D);
    var intended := ClipIntended(s, 0, -1, a);
    assert intended == Clip(0, 1, 1, 4);
    assert CopyRow(w2, 2, a.pix[3..4]) == w3;
    assert CopyRows(s, a, 0, -1, intended, w3, 4) == Ok(w3);
    assert CopyRows(s, a, 0, -1, intended, w2, 3) == Ok(w3);
    assert w2[2] != w3[2];
  }

  /** The first two rows the loop copies, under either clip. */
  lemma EndyRows(s: Screen, a: PixelArray, Z: Pixel, A: Pixel, B: Pixel, C: Pixel, D: Pixel)
    requires s.Width() == 1 && s.Height() == 4 && s.pixelStride == 1 && s.Depth() == 32
    requires s.view == [Z, Z, Z, Z]
    requires a == PixelArray(Pixel32Array, 1, 4, [A, B, C, D])
    ensures ClipAsWritten(s, 0, -1, a) == Clip(0, 1, 1, 3)
    ensures PutPxielArray(s, 0, -1, a) == Ok(s.(view := [B, C, Z, Z]))
    ensures forall c: Clip :: c.startx == 0 && c.endx == 1 && c.starty == 1 && 3 <= c.endy ==>
              CopyRows(s, a, 0, -1, c, s.view, 1) == CopyRows(s, a, 0, -1, c, [B, C, Z, Z], 3)
  {
    var (w1, w2) := ([B, Z, Z, Z], [B, C, Z, Z]);
    assert CopyRow(s.view, 0, a.pix[1..2]) == w1;
    assert CopyRow(w1, 1, a.pix[2..3]) == w2;
    forall c: Clip | c.startx == 0 && c.endx == 1 && c.starty == 1 && 3 <= c.endy
      ensures CopyRows(s, a, 0, -1, c, s.view, 1) == CopyRows(s, a, 0, -1, c, w2, 3)
    {
      assert CopyRows(s, a, 0, -1, c, s.view, 1) == CopyRows(s, a, 0, -1, c, w1, 2);
    }
  }

  /** A four-pixel-wide, one-row array placed one column left of a two-by-two
      screen with a stride of two words. It overhangs both side edges; as
      written the row length becomes screenW - px = 3 instead of 2, so array
      word D lands at view position 2, which is screen point (0, 1): a point
      below the array that the corrected blit leaves alone. */
  lemma EndxCounterexample(s: Screen, a: PixelArray, Z: Pixel, A: Pixel, B: Pixel, C: Pixel, D: Pixel)
    requires s.Width() == 2 && s.Height() == 2 && s.pixelStride == 2 && s.Depth() == 32
    requires s.view == [Z, Z, Z, Z] && D != Z
    requires a == PixelArray(Pixel32Array, 4, 1, [A, B, C, D])
    ensures PutPxielArray(s, -1, 0, a) == Ok(s.(view := [B, C, D, Z]))
    ensures PutPixelArrayClipped(s, -1, 0, a) == Ok(s.(view := [B, C, Z, Z]))
    ensures s.IsCellIndex(2) && s.CellOf(2) == Point(0, 1)
    ensures PutPxielArray(s, -1, 0, a) != PutPixelArrayClipped(s, -1, 0, a)
  {
    var (long, short) := ([B, C, D, Z], [B, C, Z, Z]);
    var written := ClipAsWritten(s, -1, 0, a);
    assert written == Clip(1, 3, 0, 1);
    assert CopyRow(s.view, 0, a.pix[1..4]) == long;
    assert CopyRows(s, a, -1, 0, written, long, 1) == Ok(long);
    assert CopyRows(s, a, -1, 0, written, s.view, 0) == Ok(long);
    var intended := ClipIntended(s, -1, 0, a);
    assert intended == Clip(1, 2, 0, 1);
    assert CopyRow(s.view, 0, a.pix[1..3]) == short;
    assert CopyRows(s, a, -1, 0, intended, short, 1) == Ok(short);
    assert CopyRows(s, a, -1, 0, intended, s.view, 0) == Ok(short);
    assert long[2] != short[2];
  }
}
