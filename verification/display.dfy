/** The framebuffer as the raster operations see it: the geometry the device
    reports (FBinfo), the stride in whole pixels, and the buffer viewed as a
    sequence of pixel words, addressed as x + y * pixelStride. */
module Display {
  import opened PixelType

  newtype u32 = x: int | 0 <= x < 0x1_0000_0000
  newtype u64 = x: int | 0 <= x < 0x1_0000_0000_0000_0000

  /** Bit offset (from the right) and size of each colour channel. */
  datatype RGBMask = RGBMask(
    redOffset: u32, redSize: u32,
    greenOffset: u32, greenSize: u32,
    blueOffset: u32, blueSize: u32,
    alphaOffset: u32, alphaSize: u32)

  /** The device's description of its framebuffer. */
  datatype FBInfo = FBInfo(
    size: u64,          // framebuffer size in bytes
    offset: u64,        // start of the visible part in bytes
    width: u32,         // pixels per line
    height: u32,        // lines
    stride: u32,        // bytes per line
    bitsPerPixel: u32,
    pixelType: u32,
    rgbMask: RGBMask,
    flags: u32)

  datatype Point = Point(x: int, y: int)

  /** A rectangle given by two corners, as image.Rectangle; not normalised. */
  datatype Rectangle = Rectangle(min: Point, max: Point)

  /** The display: its geometry, the stride in pixels and the typed view of
      the mapped buffer. */
  datatype Screen = Screen(info: FBInfo, pixelStride: nat, view: seq<Pixel>) {

    function Width(): int { info.width as int }

    function Height(): int { info.height as int }

    function Depth(): int { info.bitsPerPixel as int }

    /** Every on-screen point has its word inside the view: a line fits in
        the stride and the last line ends inside the buffer. */
    predicate Valid() {
      Width() <= pixelStride && (Height() - 1) * pixelStride + Width() <= |view|
    }

    predicate OnScreen(q: Point) {
      0 <= q.x < Width() && 0 <= q.y < Height()
    }

    /** Position of a point's word in the view. */
    function Index(q: Point): int {
      q.x + q.y * pixelStride
    }

    /** Whether view position i holds the word of some on-screen point
        (rather than line padding or the tail of the buffer). */
    predicate IsCellIndex(i: int) {
      0 <= i && 0 < pixelStride && i % pixelStride < Width() && i / pixelStride < Height()
    }

    /** The point whose word sits at view position i. */
    function CellOf(i: int): Point
      requires 0 < pixelStride
    {
      Point(i % pixelStride, i / pixelStride)
    }
  }

  /** Two screens with the same geometry and the same view length. */
  predicate SameShape(r: Screen, s: Screen) {
    r.info == s.info && r.pixelStride == s.pixelStride && |r.view| == |s.view|
  }

  lemma MulLe(a: int, b: int, n: int)
    requires a <= b && 0 <= n
    ensures a * n <= b * n
  {
    assert b * n - a * n == (b - a) * n;
  }

  /** Quotient and remainder by a positive divisor are unique. */
  lemma DivModUnique(i: int, n: int, q: int, r: int)
    requires 0 < n && 0 <= r < n && i == q * n + r
    ensures i / n == q && i % n == r
  {
    var q', r' := i / n, i % n;
    assert i == q' * n + r';
    if q' < q {
      MulLe(q' + 1, q, n);
      assert false;
    } else if q < q' {
      MulLe(q + 1, q', n);
      assert false;
    }
  }

  /** An on-screen point has its word inside the view, and that position maps
      back to the point. */
  lemma {:induction false} CellIndex(s: Screen, q: Point)
    requires s.Valid() && s.OnScreen(q)
    ensures 0 <= s.Index(q) < |s.view|
    ensures s.IsCellIndex(s.Index(q)) && s.CellOf(s.Index(q)) == q
  {
    MulLe(q.y, s.Height() - 1, s.pixelStride);
    MulLe(0, q.y, s.pixelStride);
    DivModUnique(s.Index(q), s.pixelStride, q.y, q.x);
  }

  /** A cell position is the index of the on-screen point it maps to. */
  lemma {:induction false} IndexOfCell(s: Screen, i: int)
    requires s.IsCellIndex(i)
    ensures s.OnScreen(s.CellOf(i)) && s.Index(s.CellOf(i)) == i
  {
  }

  /** Distinct on-screen points have distinct words. */
  lemma {:induction false} IndexInjective(s: Screen, q: Point, q': Point)
    requires s.Valid() && s.OnScreen(q) && s.OnScreen(q')
    ensures s.Index(q) == s.Index(q') <==> q == q'
  {
    CellIndex(s, q);
    CellIndex(s, q');
  }

  /** The word shown at an on-screen point. */
  function Cell(s: Screen, q: Point): Pixel
    requires s.Valid() && s.OnScreen(q)
  {
    CellIndex(s, q);
    s.view[s.Index(q)]
  }
}
