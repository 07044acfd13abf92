# gowsdisplay raster and blit engine, in Dafny

This project models the drawing core of gowsdisplay (operation.go). That
core draws on a NetBSD wscons framebuffer. The framebuffer is a `Screen`
value: the geometry the device reports (`FBinfo`), the pixel stride, and
the mapped buffer seen as a sequence of depth-tagged pixel words
(`PIXEL32`, `PIXEL24`, `PIXEL16`, `PIXEL8`). Each operation of the Go
code is a function or method that returns the new screen.

- `SetPixel` is the only write the shape operations use. Every shape is stated against one
  reference, `Raster.Paint(s, A, p)`: "p is written at every on-screen
  point of the set A, when SetPixel accepts p; nothing else changes".
- Each shape method (`FillBox`, `DrawBox`, `DrawLine`, `DrawCircle`,
  `FillCircle`) runs the same loops as the Go code. It is proved to equal
  `Paint` of an independently defined point set:
  - a half-open span for boxes;
  - the Bresenham walk for lines;
  - the visits of the midpoint loop for circles.
  Lemmas then state what those sets contain.
- `PutPxielArray` (the Go spelling is kept) is a function. It does the
  clip arithmetic of the code and a row-by-row copy. A slice expression
  that would make Go panic returns `Err(SliceOutOfRange)`.
- The blit is compared with `Blit.Placed`. `Placed` is the screen with the
  array's words shown at the placement, as far as they fit.

Modules:
- `Wrappers`: Option and Result.
- `PixelType`: word kinds and sizes.
- `Display`: geometry, `Screen`, and the index arithmetic.
- `Raster`: `SetPixel`, `Paint`, `Clear` and `NewPixel`.
- `Shapes`: boxes.
- `Line`: `DrawLine`.
- `Circle`: `DrawCircle` and `FillCircle`.
- `Blit`: `PutPxielArray` and `NewPixelArray`.

Some behaviours of the code are easy to miss. The model keeps them as
written:
- `DrawLine` is not symmetric in its end points. `Line.LineNotReversible`
  shows that (0, 0)→(2, 1) and (2, 1)→(0, 0) plot different middle
  pixels.
- `DrawBox` of a 4 × 4 rectangle draws 15 points, because the corner
  (Max.X, Max.Y) is missing (`Shapes.BoxCountsAtOrigin`).
- `FillCircle` with radius 0 writes nothing, while `DrawCircle` with
  radius 0 plots the centre (`Circle.CircleZero`).
- `SetPixel` silently drops a word whose depth differs from the screen's.
  It is not an error.

## Model

| member | source | states |
|---|---|---|
| Display.CellIndex | operation.go:168-169 | The index px + py * stride of an on-screen point lies inside the view, and the point can be recovered from it. |
| Display.IndexInjective | operation.go:168-169 | Two on-screen points share a word exactly when they are the same point. |
| PixelType.Zero | operation.go:125 | The zero word of a kind has that kind, and all of its bytes are 0. |
| Raster.SetPixel | operation.go:155-185 | The screen is unchanged when the point is off the screen, when the word is PIXEL8, or when the word's depth differs from the screen's. Otherwise the point shows the word, and every other word of the buffer keeps its value. |
| Raster.SetPixelIsPaint | operation.go:155-185 | One SetPixel is Paint of the one-point set. |
| Raster.PaintCells | operation.go:155-185 | After Paint, an on-screen point shows p exactly when it is in the set and the word is accepted. Every other point keeps its word. Line padding and the buffer's tail are never touched. |
| Raster.PaintStep | operation.go:155-185 | SetPixel of q on a screen painted with A gives the screen painted with A + {q}. |
| Raster.PaintOne | operation.go:155-185 | Same as PaintStep, as the single step that shape loops call. |
| Raster.FillView | operation.go:124-126 | Returns a view of the same length with every word equal to the given one. |
| Raster.Clear | operation.go:120-138 | At depth 32, 24 or 16, every word of the buffer (padding included) becomes the all-zero word of that depth. At any other depth the screen is unchanged. |
| Raster.NewPixel | operation.go:140-153 | Gives a word type exactly when the depth is 32, 24 or 16, and None (nil) otherwise. The type's bits equal the depth, and SetPixel accepts every word of that type. |
| Shapes.SpanMember | operation.go:197-203 | A point is in Span(x0, x1, y0, y1) iff x0 ≤ x < x1 and y0 ≤ y < y1. |
| Shapes.FillBox | operation.go:197-203 | The result is the screen with p painted on the half-open box [Min.X, Max.X) × [Min.Y, Max.Y). |
| Shapes.FillBoxCount | operation.go:197-203 | The box has (Max.X − Min.X)(Max.Y − Min.Y) points, and none when it is empty in either direction. |
| Shapes.DrawBox | operation.go:187-196 | The result is Paint of rows Min.Y and Max.Y over [Min.X, Max.X) plus columns Min.X and Max.X over [Min.Y, Max.Y). |
| Shapes.DrawRows | operation.go:188-191 | The first loop adds two half-open rows to what is already painted. |
| Shapes.DrawColumns | operation.go:192-195 | The second loop adds two half-open columns to what is already painted. |
| Shapes.DrawBoxMissesCorner | operation.go:187-196 | The corner (Max.X, Max.Y) is never drawn. |
| Shapes.DrawBoxCount | operation.go:187-196 | A non-empty box outline has 2w + 2h − 1 distinct points. |
| Shapes.BoxCountsAtOrigin | operation.go:187-203 | The 4 × 4 box at the origin: FillBox draws 16 points and DrawBox draws 15, without (4, 4). |
| Shapes.OutlinePlusCorner | operation.go:187-196 | The DrawBox points plus the far corner are exactly the closed rectangle outline. |
| Shapes.PerimeterMember | operation.go:187-196 | Membership in the closed outline: inside the closed box and on one of its four edges. |
| Shapes.DrawBoxClosed | operation.go:187-196 | The corrected DrawBox paints the closed outline, including (Max.X, Max.Y). |
| Shapes.PerimeterCount | operation.go:187-196 | The closed outline of a non-empty box has 2w + 2h points. |
| Line.StepBounds | operation.go:270-278 | Each error-term test moves at least one axis, and never moves past p1 on either axis. |
| Line.Advance | operation.go:270-278 | One loop step takes the plotted point and the error term to the next point of the walk. |
| Line.WalkEnds | operation.go:265-269 | The walk starts at the current point, ends at p1, and reaches p1 only at its end. |
| Line.DrawLine | operation.go:247-280 | The result is Paint of the points of the Bresenham walk from p0 to p1. |
| Line.LineShape | operation.go:247-280 | p0 is plotted first and p1 last, and p1 is not plotted earlier. Each step moves each coordinate by 0 or by its sign sx / sy. |
| Line.WalkIncreasing | operation.go:270-278 | Progress towards p1 strictly increases along the walk. |
| Line.LineDistinct | operation.go:247-280 | No pixel is plotted twice, so the point set has as many points as the walk. |
| Line.StraightLineCount | operation.go:247-280 | A horizontal or vertical line plots \|Δ\| + 1 distinct pixels, the k-th being k steps from p0. |
| Line.LineAlongX | operation.go:247-280 | A line drawn rightwards along a row plots p0.x, p0.x + 1, …, p1.x in order. |
| Line.LineForward | operation.go:247-280 | (0, 0)→(2, 1) plots (0, 0), (1, 0), (2, 1). |
| Line.LineBackward | operation.go:247-280 | (2, 1)→(0, 0) plots (2, 1), (1, 1), (0, 0). |
| Line.LineNotReversible | operation.go:247-280 | Drawing the same segment in the two directions paints different point sets. |
| Circle.NextNear | operation.go:218-223 | One update of both circle loops moves y out by one and x in by at most one. It keeps d equal to the decision variable (the summed offsets of the two candidate points). A state that is still visited stays within x of the circle. |
| Circle.VisitsStep | operation.go:209-224 | While x ≥ y, the measure x − y + 1 decreases, so the loop terminates. |
| Circle.CircleVisits | operation.go:205-225 | At the k-th iteration y = k and 0 ≤ y ≤ x ≤ r, and x stays or drops by one per iteration. |
| Circle.CircleNear | operation.go:205-225 | Every visited (x, y) has r² − x ≤ x² + y² ≤ r² + x. |
| Circle.PlotOctants | operation.go:210-217 | One iteration paints the eight points (px ± x, py ± y) and (px ± y, py ± x). |
| Circle.DrawCircle | operation.go:205-225 | The result is Paint of the octant points of all the loop's iterations. |
| Circle.OutlineMember | operation.go:205-225 | A point is plotted iff it is an octant point of some iteration. |
| Circle.CircleOutlineNear | operation.go:205-225 | Every plotted point q has r² − r ≤ \|q − (px, py)\|² ≤ r² + r. |
| Circle.CircleOutlineSymmetric | operation.go:210-217 | The outline is closed under mirroring in both axes through the centre and under the diagonal swap. |
| Circle.FillSpans | operation.go:231-238 | One iteration paints rows py ± y over [px − x, px + x) and rows py ± x over [px − y, px + y). |
| Circle.FillStep | operation.go:230-245 | One iteration extends the filled set by that iteration's rows. |
| Circle.FillCircle | operation.go:226-246 | The result is Paint of the half-open rows of all the loop's iterations. |
| Circle.DiscMember | operation.go:226-246 | A point is filled iff it lies on a row of some iteration. |
| Circle.CircleFillBounds | operation.go:226-246 | Every filled point lies in [px − r, px + r) × [py − r, py + r]. |
| Circle.CircleNegative | operation.go:205-246 | For r < 0 neither operation draws anything. |
| Circle.CircleZero | operation.go:205-246 | For r = 0, DrawCircle plots only the centre and FillCircle draws nothing. |
| Blit.PutWith | operation.go:61-103 | The type switch: an unhandled array type gives UnsupportedPixelType, a depth mismatch gives UnmatchPixelDepth. A handled type of the screen's depth succeeds exactly when the copy loop finishes, with the loop's words as the new view. |
| Blit.PutPxielArray | operation.go:34-104 | An off-screen placement returns success with the screen unchanged. Otherwise an unhandled type or a depth mismatch fails before any write, and success keeps the screen's shape. |
| Blit.PutPixelArrayClipped | operation.go:34-104 | The corrected blit has the same error and off-screen behaviour. |
| Blit.NewPixelArray | operation.go:106-118 | Gives an empty array exactly at depth 32, 24 or 16, of the type matching the depth. Otherwise gives UnsupportedDisplayDepth. |
| Blit.NewPixelArrayBlit | operation.go:34-118 | The array NewPixelArray gives can be blitted anywhere: always success, with no change. |
| Blit.PlacedCells | operation.go:70-73 | In Placed, a screen point inside the placed rectangle shows the array's word for it, every other point keeps its word, and non-cell words are untouched. |
| Blit.RowStep | operation.go:70-74 | Copying one clipped row keeps both slices in range and adds that row to the placed window. |
| Blit.CopyRowsPlace | operation.go:70-74 | The row loop over an on-screen window completes the window without a slice error. |
| Blit.ClipWindow | operation.go:43-60 | The intended clip stays inside both the array and the screen, and covers every on-screen cell of the array. |
| Blit.PutPixelArrayClippedPlaces | operation.go:34-104 | For every placement of a well-formed array of the screen's depth, the corrected blit returns exactly Placed. |
| Blit.ClipDifference | operation.go:43-60 | Both clips have the same start column and row. The row lengths differ iff px < 0 and w + px > screenW. The end rows differ iff py < 0 and h + py ≤ screenH. |
| Blit.PutPxielArrayAgrees | operation.go:34-104 | Outside those two cases the blit as written equals the corrected one. |
| Blit.PutPxielArrayInside | operation.go:34-104 | A placement fully inside the screen copies all w × h words to the rectangle at (px, py), and nothing else changes. |
| Blit.PutPxielArrayTopOverhang | operation.go:34-104 | For every array that overhangs the top edge but not the bottom (and not both side edges), the blit as written copies only rows [−py, h + py) of the on-screen columns. The on-screen rows h + py … h − 1 are skipped. |
| Blit.ClipOverlong | operation.go:47-53 | When the array overhangs both side edges, the row length as written is screenW − px, which is longer than the screen is wide. The intended length is screenW. |
| Blit.EndyCounterexample | operation.go:54-60 | A 1 × 4 array at (0, −1) on a 1 × 4 screen: as written the last array row is never copied; the corrected blit copies it. |
| Blit.EndxCounterexample | operation.go:47-53 | A 4 × 1 array at (−1, 0) on a 2 × 2 screen: as written one word lands on screen point (0, 1), below the array; the corrected blit leaves that point alone. |

## Left out

- Device access is not modelled: `Open`, `Close`, `getFBinfo`, `mapFB`, `unmapFB`, `setMode` and `InitGraphics` in wsdisplay.go are ioctl, mmap and file-descriptor calls. Only the `FBinfo` and `RGBmask` records are kept, as the screen's geometry.
- Colour encoding is not modelled. `SetColor` (operation.go:151) is not part of this model, so `Raster.NewPixel` returns the word type it would allocate, not a coloured word. Words are opaque byte runs tagged with their depth.
- The accessors `GetBufferAsPixel32/24/16`, `GetPixelStride`, `GetWidth`, `GetHeight` and `GetDepth` are not part of this model. They read the screen's fields, and the buffer they return is the view. A slice's capacity is taken to equal its length.
- The types `PIXELARRAY`, `PIXEL32ARRAY`, `PIXEL24ARRAY` and `PIXEL16ARRAY` are not part of this model. An array is modelled as its dynamic type, width, height and words. Any other implementation of the interface is `OtherArray`. `Blit.NewPixelArray` assumes that `new(PIXEL32ARRAY)` and its 24- and 16-bit versions give width 0, height 0 and no words, as Go's zero value would; `Blit.NewPixelArrayBlit` rests on that assumption.
- Display.Screen.Valid: does not require every word of the view to have the screen's depth. Go's typed buffers (`GetBufferAsPixel32/24/16`) hold only words of that depth, but the model allows a view of mixed kinds, and no contract relies on it being uniform.
- Go's fixed-width `int` is not modelled. Coordinates and index arithmetic use unbounded integers, so wrap-around on huge coordinates is out of scope.
- Raster.SetPixel: requires the screen invariant `Valid` (every on-screen point's word is inside the buffer), because the code relies on the device reporting consistent geometry; with a short buffer Go would panic instead.
- Blit.PutPxielArray: a Go panic from a slice expression is returned as `Err(SliceOutOfRange)`. The rows copied before the panic are not kept in the result.
- Blit.PutPxielArray: its own contract covers only the off-screen and error paths. The copy is stated by separate lemmas. `Blit.PutPxielArrayAgrees` covers every placement outside the two overhang cases, and `Blit.PutPxielArrayTopOverhang` covers the top overhang for all inputs. For an array that overhangs both side edges, only the overlong row length is stated for all inputs (`Blit.ClipOverlong`). The resulting words are shown for one input (`Blit.EndxCounterexample`), because the overlong rows wrap into the next screen line or stop with a slice error depending on stride and position.
- The demonstration programs wsdraw.go and wspicview.go are not modelled. They do device setup, image decoding and sleeps.

## Findings

| source | as written | input that shows it | evidently intended | confidence | as-written member | corrected member |
|---|---|---|---|---|---|---|
| operation.go:54-60 | With a top overhang, endy is first shortened to h + py (a row count) and then used as the loop's end row. | A 1-wide, 4-high array at (0, −1) on a 1 × 4 screen: array row 3 should land on screen row 2 but is never copied. | The end row is min(h, screenH − py). | not executed | Blit.PutPxielArrayTopOverhang | Blit.PutPixelArrayClippedPlaces |
| operation.go:47-53 | When the array overhangs both side edges, endx = screenW − px is used as the row length, which is longer than the screen is wide. | A 4-wide, 1-high array at (−1, 0) on a 2 × 2 screen with stride 2: array word 3 is written to screen point (0, 1). | The row length is min(w, screenW − px) − startx. | not executed | Blit.EndxCounterexample | Blit.PutPixelArrayClippedPlaces |
| operation.go:192-195 | The column loop stops before Max.Y and the row loop stops before Max.X, so the corner (Max.X, Max.Y) is never drawn. | Rectangle (0, 0)–(4, 4): 15 points are drawn and (4, 4) is missing. | The closed outline of 2w + 2h points. | not executed | Shapes.DrawBoxMissesCorner | Shapes.DrawBoxClosed |
