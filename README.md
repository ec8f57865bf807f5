# gridgg placement and rendering core, in Dafny

gridgg lays out text and images on a `gg` drawing canvas by zero-based grid
intersections instead of pixels. A `Canvas` holds the image size, padding
and grid dimensions. `init` derives the cell offsets and the pixel position
(padding, width - padding) of grid intersection (0, 0). Because the row
position is taken from the width, this is the bottom-left corner inside
the padding only on a square canvas. `setGridPos` turns an intersection
(x, y) into an integer pixel position plus an anchor pair: the left, right,
bottom and top edges of the grid anchor a drawn element so that it extends
inward. On a square canvas with whole-number padding every intersection is
placed inside the padded square (`PlacementInsidePadding`).
`drawGridRef` visits every intersection and draws a `"x,y"` label and/or
an image there. `drawGridLines` draws faint guide lines symmetric
about the centre, then a heavier centre cross and the padding rectangle.

The model has three modules:

- `Grid` (grid.dfy): Go's `int(f)` conversion as truncation toward zero
  (`Trunc`), the placement transform `SetGridPos` over a value view of the
  canvas (`GridGeometry`), and the `Canvas` class whose `Init` method
  updates the four derived fields in place.
- `Draw` (draw.dfy): every call on the `gg` context becomes a `DrawOp`
  record, and the two rendering passes are methods that return those
  records in the order the program issues them. `DrawGridRef` keeps the
  program's nested loops. Its inner loop is the method `Sweep`. The
  visiting order is specified by the function `Traversal`. The draw calls
  are specified by `RefOps`. Lemmas prove that every intersection is
  visited exactly once, in which order, and what is drawn there.
  `DrawGridLines` keeps both shift-accumulating loops. It is specified by
  `HorizontalLines` and `VerticalLines`, whose closed forms are lemmas.
- `Decimal` (decimal.dfy): Go's `%d` rendering of an int, with a parser
  that inverts it, so that distinct intersections get distinct labels.

`float64` values are modelled as `real`, so every derived quantity is the
exact-arithmetic value, not the IEEE-754 one. Go's `int` is unbounded here.
Truncation toward zero is modelled exactly, and in the demonstration
canvas it matters: the 120.5-pixel cells become 120 before the
multiplication.

Points where the code's behaviour is easy to misread:

- `init` and `drawGridLines` take the canvas height from `width`
  (main.go:43 and main.go:55), so `offsetY`, `Y` and all vertical guide
  geometry depend on the width.
- `setGridPos` clamps only from above. A negative coordinate matches no
  branch and keeps Go's zero values 0 and 0.0.
- With `gridX == 0`, x == 0 matches both `case 0` and `case c.gridX` of the
  `switch`. Go takes the first, so the left-edge placement wins.
- There is no configuration error. The code never checks the grid
  dimensions; the model states instead what each operation needs.
- `drawGridRef` runs its outer loop over the smaller grid dimension.

## Model

| member | source | states |
|---|---|---|
| Grid.Trunc | main.go:161-162 | `int(r)` of a float is the integer part toward zero: for r >= 0, n <= r < n + 1; for r < 0, n - 1 < r <= n |
| Grid.Times | main.go:176-191 | the repeated addition used for the products `int(c.offsetX)*k` and `int(c.offsetY)*k`; it is non-negative for a non-negative factor and count, and TimesIsProduct shows it is the product |
| Grid.TimesIsProduct | main.go:176 | the repeated addition written for `int(c.offsetX)*k` equals the product, for every sign of k |
| Grid.SetGridPos | main.go:160-195 | every anchor component the transform returns is 0.0, 0.5 or 1.0 |
| Grid.ClampX | main.go:164-166 | every x at or above gridX is placed exactly as gridX |
| Grid.ClampY | main.go:168-170 | every y at or above gridY is placed exactly as gridY |
| Grid.AxesIndependent | main.go:172-192 | px and ax depend only on x; py and ay depend only on y |
| Grid.HorizontalPlacement | main.go:172-188 | for gridX >= 1 and 0 <= x <= gridX, px == int(X) + int(offsetX)*x in every branch; ax is 0.0 at x == 0, 1.0 at x == gridX, 0.5 strictly between |
| Grid.VerticalPlacement | main.go:179-192 | for gridY >= 1 and 0 <= y <= gridY, py == int(Y) - int(offsetY)*y; ay is 1.0 at y == 0, 0.0 at y == gridY, 0.5 strictly between |
| Grid.HorizontalMonotone | main.go:164-188 | with int(offsetX) >= 0, px never decreases as x grows, past gridX included |
| Grid.HorizontalStrict | main.go:172-188 | with int(offsetX) >= 1, px strictly increases from column to column |
| Grid.VerticalMonotone | main.go:168-192 | with int(offsetY) >= 0, py never increases as y grows |
| Grid.VerticalStrict | main.go:179-192 | with int(offsetY) >= 1, py strictly decreases from row to row |
| Grid.ZeroColumns | main.go:172-177 | with gridX == 0, `case 0` wins: px == int(X) and ax == 0.0 |
| Grid.ZeroRows | main.go:179-184 | with gridY == 0, `case 0` wins: py == int(Y) and ay == 1.0 |
| Grid.NegativeX | main.go:172-188 | a negative x matches no branch: px == 0 and ax == 0.0 |
| Grid.NegativeY | main.go:179-192 | a negative y matches no branch: py == 0 and ay == 0.0 |
| Grid.PlacementInsidePadding | main.go:42-195 | on a grid as `init` lays it out (origin (p, w - p), cells of (w - 2p) / grid), with whole-number padding p and 0 <= 2p <= w, every in-grid intersection is placed with p <= px <= w - p and p <= py <= w - p |
| Grid.Canvas.constructor | main.go:22-34 | a struct literal sets the six given fields and leaves the four derived ones at 0.0 |
| Grid.Canvas.Init | main.go:38-49 | only offsetX, offsetY, X and Y change; offsetX * gridX == width - 2p and offsetY * gridY == width - 2p (from width, not height); the origin is X == p, Y == width - p |
| Grid.DemoLayer | main.go:202-221 | the first demonstration canvas gets cells of 120.5 pixels and origin (30, 994) from init |
| Grid.DemoPlacements | main.go:160-195 | on that canvas, (0,0) is placed at (30, 994) anchored (0, 1); (8,8) at (990, 34) anchored (1, 0); (3,5) at (390, 394) anchored (0.5, 0.5); (12,-1) clamps x and zeroes y |
| Decimal.DigitChar | main.go:149 | the character for digit d is a decimal digit whose value is d |
| Decimal.IntToString | main.go:149 | `%d` of an int: at least one character, starting with '-' exactly when the int is negative |
| Decimal.NatToStringDigits | main.go:149 | `%d` of a nat is all digits and has a leading '0' only for 0 |
| Decimal.IntToStringShape | main.go:149 | `%d` of an int is all digits except a leading '-' on negative values |
| Decimal.ParseNatToString | main.go:149 | parsing the digits of a nat gives back the nat |
| Decimal.ParseIntToString | main.go:149 | parsing `%d` of any int gives back the int |
| Decimal.IntToStringInjective | main.go:149 | distinct ints render to distinct strings |
| Draw.Label | main.go:149 | the caption `fmt.Sprintf("%d,%d", x, y)`; its first comma comes right after the rendering of x |
| Draw.CommaIndexAfter | main.go:149 | in `"%d,%d"` the first comma is the one after the first number |
| Draw.LabelInjective | main.go:149 | distinct intersections get distinct `"x,y"` labels |
| Draw.SetMax | main.go:126-132 | the inner-loop bound is the larger of gridX and gridY |
| Draw.SetMin | main.go:126-132 | the outer-loop bound is the smaller of gridX and gridY |
| Draw.Visit | main.go:137-143 | the intersection for outer counter `smallGrid` and inner counter `largeGrid` (x is the outer counter unless gridX > gridY); it is in the grid exactly when 0 <= smallGrid <= setMin and 0 <= largeGrid <= setMax |
| Draw.Row | main.go:136-152 | one pass of the inner loop has as many visits as inner counters |
| Draw.Rows | main.go:134-154 | the visits of the first n passes of the outer loop; empty exactly when n == 0 or setMax < 0 |
| Draw.Traversal | main.go:134-154 | the visits of the whole nested loop in order; empty exactly when a grid dimension is negative |
| Draw.RowAt | main.go:136-143 | visit j of a pass has inner counter j |
| Draw.RowsAt | main.go:134-154 | after n passes of the outer loop there are n * (setMax + 1) visits; visit k has outer counter k / (setMax + 1) and inner counter k % (setMax + 1) |
| Draw.TraversalLength | main.go:134-154 | there are (gridX + 1) * (gridY + 1) visits, none when a dimension is negative |
| Draw.TraversalIndex | main.go:134-143 | visit k has outer counter k / (setMax + 1) and inner counter k % (setMax + 1) |
| Draw.TraversalAt | main.go:134-143 | outer counter i and inner counter j are visited at index i * (setMax + 1) + j |
| Draw.TraversalOrder | main.go:126-143 | with gridX <= gridY the outer loop runs over x; otherwise it runs over y |
| Draw.TraversalInGrid | main.go:134-143 | every visit is an intersection of the grid |
| Draw.TraversalCovers | main.go:134-143 | every intersection of the grid is visited |
| Draw.TraversalDistinct | main.go:134-143 | no intersection is visited twice |
| Draw.TraversalExactlyOnce | main.go:134-154 | the visits are exactly the intersections 0 <= x <= gridX, 0 <= y <= gridY, each once |
| Draw.TextSetup | main.go:103-111 | the colour and font-face calls issued before the loops: two of them when gridText is set, none otherwise |
| Draw.PerVisit | main.go:145-150 | the number of draw calls per visit: at most two, and zero exactly when neither flag is set |
| Draw.PlacedOps | main.go:145-150 | each visit issues one call per enabled flag |
| Draw.VisitOps | main.go:144-150 | the calls of one visit, placed by `setGridPos`: one per enabled flag |
| Draw.RefOps | main.go:134-154 | the calls of a sequence of visits, visit by visit in order; RefOpsLength, RefOpsSplit and RefOpsBlock state its shape |
| Draw.RefOpsLength | main.go:134-154 | the visits issue PerVisit calls each: one per enabled flag |
| Draw.RefOpsSplit | main.go:134-154 | the calls of visit k sit between those of the visits before it and those after it |
| Draw.RefOpsBlock | main.go:144-150 | block k of PerVisit calls is exactly the calls for visit k |
| Draw.RefOpsKinds | main.go:145-150 | images are drawn only when gridImage is set, labels only when gridText is set |
| Draw.VisitOpsAt | main.go:144-150 | at an in-grid intersection the image goes to (int(X) + int(offsetX)*x, int(Y) - int(offsetY)*y), the label to 5 pixels above it, both with the edge or interior anchors |
| Draw.Sweep | main.go:136-152 | one pass of the inner loop visits the row of the current outer counter and issues exactly the reference draw calls for those visits |
| Draw.DrawGridRef | main.go:100-155 | the intersections are visited in the traversal order, and the calls are the font setup when gridText is set, followed by the calls for each visit in that order |
| Draw.Shift | main.go:66-86 | the shift accumulator after n passes that each add the cell size; it stays non-negative for a non-negative cell size |
| Draw.ShiftIsProduct | main.go:66-73 | after n passes the shift accumulator equals n times the cell size |
| Draw.GuideStyle | main.go:63-64 | as at main.go:77-78, the thin (width 1, below the frame's 3) and faint (alpha 30) stroke settings of the guide lines |
| Draw.HorizontalPair | main.go:69-70 | the two segments of one horizontal pass: both horizontal, spanning p to w - p, mirrored about h / 2 |
| Draw.VerticalPair | main.go:82-83 | the two segments of one vertical pass: both vertical, spanning p to h - p, mirrored about w / 2 |
| Draw.HorizontalLines | main.go:68-73 | n passes of the horizontal loop draw 2n segments |
| Draw.VerticalLines | main.go:81-86 | n passes of the vertical loop draw 2n segments |
| Draw.HorizontalLinesAt | main.go:68-73 | pair k is at heights h/2 + k*sh and h/2 - k*sh, each spanning p to w - p |
| Draw.VerticalLinesAt | main.go:81-86 | pair k is at abscissae w/2 + k*sw and w/2 - k*sw, each spanning p to h - p |
| Draw.DrawGridLines | main.go:52-96 | styling, then gridY/2 + 1 horizontal pairs and a stroke, then restyling, gridX/2 + 1 vertical pairs and a stroke, then the red centre cross and padding rectangle; the height is the width; `shiftW` in the first loop and `shiftH` in the second have no effect |

## Left out

- The `gg` context is not modelled. This covers `NewContext`, `SetHexColor` and `Clear` in `init`, and `SavePNG`. Drawing calls are returned as `DrawOp` records, not rasterised.
- Text drawing keeps only the caption, the position and the anchors. The constant width 0, line spacing 1 and `AlignCenter` arguments of `DrawStringWrapped` are dropped.
- Font parsing (`truetype.Parse`, `NewFace`) is recorded only as a `SetFontFace(14.0)` call. Image loading (`gg.LoadPNG`) is not modelled. The `Image` record stands for the loaded image.
- The `log.Fatal` and `panic` error paths are foreign I/O failures and are not modelled.
- `main` is demonstration plumbing. Only the first canvas's `init` and its placements are modelled, as `DemoLayer` and `DemoPlacements`. The second canvas, both render calls and the file and console output are not.
- IEEE-754 rounding is not modelled: `float64` is `real`. 64-bit wrap-around of Go's `int` is not modelled either: `int` is unbounded.
- Grid.Canvas.Init requires gridX and gridY to be non-zero. Go's float division by zero would give an infinity or NaN, which `real` cannot represent.
- Draw.DrawGridLines requires gridX >= 1 and gridY >= 1, so it excludes cases the program does draw. With gridY == 0 the cell size sh is infinite, but the horizontal loop still runs once (0 / 2 == 0) and draws two finite lines through the centre, because sh is added to shiftH only after it is used; gridX == 0 is the same for the vertical loop. The model leaves these cases out because `real` has no infinity. For negative dimensions, Go's integer division truncates toward zero, which this contract does not model.
- Grid.PlacementInsidePadding: assumes a whole-number padding and a square canvas. With a fractional padding, truncating X and Y can move the edges by less than a pixel. With height != width, the row positions are computed from the width and can fall outside the canvas: a 1024 by 512 canvas with padding 30 puts row 0 at y == 994.
