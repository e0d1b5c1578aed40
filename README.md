# QR module styling, modelled in Dafny

This project models the styling layer that `utils.py` adds on top of the
`qrcode` encoder and Pillow. A module drawer (square, gapped square, circle,
rounded, vertical bars, horizontal bars) paints one QR module at a time onto
the shared canvas of a `StyledPilImage`. It pastes pre-rendered tiles at
integer offsets from the module's top-left corner, and it picks each tile
from the activity of the module and its four direct neighbours. When all
modules are drawn, `process` applies the colour mask and then places the
embedded logo, snapped to a module boundary, in the middle of the canvas.

The canvas is a `class Image` over an `array2` of colour tuples. Every
method that changes it states, pixel by pixel, the new colour as a pure
function of the old one (`Raster.Pasted`, `Shapes.RoundedPixel`,
`StyledPil.LogoPixel`, …). Lemmas about those functions state what the
drawers promise:

- an inactive module changes nothing;
- nothing outside the module box changes;
- the four corner tiles of a rounded module cover their square exactly once;
- the corner tiles are mirror images of the NW tile;
- bars look only along their own axis;
- the logo is centred, starts on a module boundary, and lies inside the
  canvas.

Pillow's rasterisation and resampling are parameters, not code. A `render`
function returns a tile of the requested size. The parameter `resize`
stands for resizing the logo. The parameter `over` stands for alpha
compositing. The parameter `mask` stands for the colour mask pass, and
`open` stands for `Image.open`. Float ratios are exact fractions
(`Geometry.Ratio`), and every `int(...)` of the source is written out as a
floor or a truncation toward zero.

Modules: `Raster` (colours, tiles, transposes, per-pixel paste), `Imaging`
(the mutable canvas), `Selection` (neighbour-to-tile rules), `Geometry`
(integer placement arithmetic), `Shapes` (each drawer's per-pixel footprint
and its properties), `StyledPil` (the image object, paint colour, mode and
logo), `Drawers` (the six drawer classes).

## Model

| member | source | states |
|---|---|---|
| Raster.Filled | utils.py:242-244 | `Image.new(mode, size, colour)`: a tile of exactly that width and height whose every pixel is the colour |
| Raster.FlipLeftRight | utils.py:261 | FLIP_LEFT_RIGHT keeps the size, and pixel (r, c) is the original's (r, w-1-c) |
| Raster.FlipTopBottom | utils.py:259 | FLIP_TOP_BOTTOM keeps the size, and pixel (r, c) is the original's (h-1-r, c) |
| Raster.Rotate180 | utils.py:260 | ROTATE_180 keeps the tile's size |
| Raster.FlipLeftRightInvolution | utils.py:261 | mirroring twice gives back the tile |
| Raster.FlipTopBottomInvolution | utils.py:259 | flipping twice gives back the tile |
| Raster.Rotate180IsBothFlips | utils.py:259-261 | the half turn equals both flips in either order, so pixel (r, c) is the original's (h-1-r, w-1-c) |
| Raster.Rectangled | utils.py:156 | `ImageDraw.rectangle` with inclusive corners is the paste of a filled tile of x1-x0+1 by y1-y0+1 pixels at (x0, y0); an inverted rectangle paints nothing (also utils.py:183) |
| Raster.Composited | utils.py:110 | `alpha_composite` at (x, y) leaves every pixel outside the tile's rectangle as it was |
| Raster.Pasted | utils.py:112 | `paste` at (x, y): a pixel inside the tile's rectangle takes the tile's pixel at the relative position, and every other pixel keeps its colour |
| Imaging.Image.New | utils.py:84 | a fresh canvas of the given width and height, filled with the colour |
| Imaging.Image.Composite | utils.py:110 | every canvas pixel becomes its `Raster.Composited` value; pixels off the tile are unchanged |
| Imaging.Image.Paste | utils.py:112 | every canvas pixel becomes its `Raster.Pasted` value; pixels off the tile are unchanged |
| Imaging.Image.FillRectangle | utils.py:156 | `ImageDraw.rectangle` with inclusive corners: exactly the pixels between them take the fill colour |
| Imaging.Image.MapPixels | utils.py:91 | the colour mask pass: pixel (x, y) of colour c becomes mask(x, y, c) |
| Selection.CornerRounded | utils.py:267-270 | a corner is rounded iff every neighbour on a side touching that corner is inactive |
| Selection.TopRounded | utils.py:326 | the top end is rounded iff the neighbour on the side both top corners touch is inactive |
| Selection.BottomRounded | utils.py:327 | the bottom end is rounded iff the neighbour on the side both bottom corners touch is inactive |
| Selection.LeftRounded | utils.py:381 | the left end is rounded iff the neighbour on the side both left corners touch is inactive |
| Selection.RightRounded | utils.py:382 | the right end is rounded iff the neighbour on the side both right corners touch is inactive |
| Selection.Turned | utils.py:267-270 | turning the neighbourhood a quarter clockwise turns the set of rounded corners with it |
| Selection.RoundedCount | utils.py:267-270 | a module has 0, 1, 2 or 4 rounded corners, never 3; 4 exactly when no neighbour is active; 0 exactly when N and S, or E and W, are both active |
| Selection.RoundingExtremes | utils.py:267-275 | four active neighbours give four SQUARE tiles; no active neighbour gives four rounded tiles |
| Selection.BarsIgnoreCrossAxis | utils.py:326-327 | the top/bottom choice ignores E and W, and the left/right choice (utils.py:381-382) ignores N and S |
| Selection.BarsAgreeWithCorners | utils.py:326-327 | with no E/W neighbour, a vertical bar end is round exactly when both corners at that end would be; likewise for horizontal bars with no N/S neighbour |
| Geometry.TruncDiv | utils.py:102 | `int(a / b)` for b > 0, with a of either sign, truncates toward zero: q·b lies between 0 and a, less than b away from a (also the int() of utils.py:299) |
| Geometry.Scale | utils.py:309 | `int(x * ratio)` is the floor of the exact product, and is at most x for a ratio of at most 1 |
| Geometry.Half | utils.py:235 | `int(n / 2)`: two halves fill n, or all of n but one pixel when n is odd |
| Geometry.CirclePadding | utils.py:199 | `padding = floor(box_size * padding_ratio)` |
| Geometry.CircleSideBounds | utils.py:200-209 | the circle's side box_size - 2·padding is at most box_size, and is never negative for a padding ratio of at most one half |
| Geometry.GappedInset | utils.py:173 | delta equals (1 - size_ratio)·box_size / 2 exactly, and lies between 0 and half the box for a ratio between 0 and 1 |
| Geometry.TruncShift | utils.py:177-183 | the int cast Pillow applies to a float corner x + f truncates toward zero: x + floor(f) when x + f ≥ 0, x + ceil(f) otherwise |
| Geometry.FloorCeil | utils.py:177-182 | ceil(f) is floor(f), or floor(f) + 1 exactly when f is not whole, and ceil(-f) = -floor(f) |
| Geometry.BarInset | utils.py:299 | delta = int((1 - shrink)·half) is non-negative and at most (1 - shrink)·half for shrink ≤ 1, and never positive for shrink > 1 |
| Geometry.BarFits | utils.py:298-309 | for shrink ≤ 1, a bar tile of `int(2·half·shrink)` inset by delta fits in 2·half, and its far margin 2·half - delta - len is at least delta and at most delta + 2 |
| Geometry.LogoPlacement | utils.py:100-106 | the logo offset is a multiple of box_size and both margins equal it; when `int(total·ratio)` ≤ total the logo lies inside the canvas and its side is within two modules of `int(total·ratio)`; otherwise the offset is not positive |
| Geometry.DefaultCircleFits | utils.py:193-200 | with the default padding ratio 0.15 the circle's side is between 0 and box_size, so `CircleDrawer.Initialize` succeeds for every box size |
| Geometry.DefaultShrinkFits | utils.py:293-299 | the default 0.8 (also utils.py:167 and 346) is at most 1, so the default gap lies between 0 and half the box and the default bars meet `BarFits` |
| Shapes.SquarePixel | utils.py:154-156 | an active square module paints exactly the pixels of its box and leaves every other pixel |
| Shapes.GappedPixel | utils.py:175-183 | an inactive gapped module changes nothing, and an active one only ever paints the paint colour |
| Shapes.CirclePixel | utils.py:212-214 | only pixels under the circle tile pasted `padding` in, and only for an active module, change |
| Shapes.SquareFillsModule | utils.py:154-156 | an active square module paints exactly its module box, and an inactive one paints nothing |
| Shapes.GappedInsideModule | utils.py:175-183 | for a module at non-negative coordinates and a ratio ≤ 1 nothing outside the box changes; on boxes of at least two pixels the square covers exactly the box less floor(delta) on the near sides and ceil(delta) on the far sides |
| Shapes.GappedCorners | utils.py:177-182 | Pillow's corners are x0 + floor(delta) and y0 + floor(delta), the far ones never pass x1 and y1, and are x1 - ceil(delta) and y1 - ceil(delta) on boxes of at least two pixels |
| Shapes.GappedUnevenGaps | utils.py:173-183 | box_size 10 with size_ratio 0.7 has delta 1.5: columns 1 to 7 are painted, column 8 and column 0 are not, a near gap of one pixel and a far gap of two |
| Shapes.CircleCentredInModule | utils.py:212-214 | the circle tile, pasted `padding` in, shows exactly inside the box less `padding` on all four sides; nothing outside the box changes |
| Shapes.CornerTile | utils.py:272-275 | a corner shows its rounded tile when no neighbour touching it is active, and SQUARE as soon as one is |
| Shapes.CornerTileChoice | utils.py:267-275 | each corner's tile, read from the same flags drawrect reads |
| Shapes.RoundedPixel | utils.py:263-281 | an inactive rounded module changes nothing |
| Shapes.RoundedPixelIsFourPastes | utils.py:276-281 | an active rounded module is the four pastes in the order NW, NE, SE, SW |
| Shapes.CornersFrom | utils.py:259-261 | NE[r][c] = NW[r][cw-1-c], SW[r][c] = NW[cw-1-r][c], SE[r][c] = NW[cw-1-r][cw-1-c], and all five tiles have side cw |
| Shapes.RoundedQuadrants | utils.py:276-281 | each pixel of the 2cw square shows the tile of the quadrant it lies in; no pixel outside the square changes |
| Shapes.RoundedInsideModule | utils.py:235 | with cw = int(box_size / 2) the rounded module stays in its box, and for an odd box_size the last row and the last column are untouched |
| Shapes.VerticalPixel | utils.py:323-334 | an inactive vertical bar module changes nothing |
| Shapes.HorizontalPixel | utils.py:378-389 | an inactive horizontal bar module changes nothing |
| Shapes.VerticalHalves | utils.py:329-334 | the top tile shows at (x+delta, y) and the bottom tile at (x+delta, y+half_height), rounded by N and S alone; nothing else changes |
| Shapes.HorizontalHalves | utils.py:384-389 | the left tile shows at (x, y+delta) and the right tile at (x+half_width, y+delta), rounded by W and E alone; nothing else changes |
| Shapes.BarsIgnoreCrossNeighbours | utils.py:326-330 | E and W never change a vertical bar's pixels, and N and S never change a horizontal bar's pixels (utils.py:381-385) |
| Shapes.BarsInsideModule | utils.py:298-334 | for shrink ≤ 1, a vertical bar module changes nothing outside its box |
| Shapes.HorizontalBarsInsideModule | utils.py:351-389 | for shrink ≤ 1, a horizontal bar module changes nothing outside its box |
| Shapes.InactiveModuleUntouched | utils.py:263-265 | every one of the six drawers leaves every pixel as it was for an inactive module (also utils.py:155, 176, 213, 324, 379) |
| StyledPil.PaintColor | utils.py:66-68 | without transparency, all zeros of back_color's length; with it, back_color[:3] followed by 255 |
| StyledPil.PaintColorDistinguishable | utils.py:63-68 | the paint colour equals the background exactly when the background is all zeros (no transparency) or is an opaque four-channel colour (with transparency) |
| StyledPil.EmbeddedImage.HasAlpha | utils.py:109 | an image has alpha iff one of its bands is "A" (also utils.py:77) |
| StyledPil.PaintFitsMode | utils.py:66-80 | with transparency, the paint colour made from a colour of three or more channels has the canvas mode's four channels and is opaque |
| StyledPil.AlphaLogoOnRgbaCanvas | utils.py:73-80 | an embedded image with an alpha band, the one draw_embeded_image alpha-composites (utils.py:109-110), always gets an RGBA canvas; an RGB canvas means no transparency and no alpha band |
| StyledPil.ChosenEmbedded | utils.py:55-61 | a given image wins; otherwise there is one exactly when the path is present and non-empty |
| StyledPil.LogoPixel | utils.py:95-112 | with no embedded image, or with box_size 0, no pixel changes |
| StyledPil.LogoInsideCanvas | utils.py:100-112 | for ratio ≤ 1 the logo starts on a module boundary, has equal margins, lies in the canvas, changes nothing outside its square, and without alpha shows the resized logo inside it |
| StyledPil.MaskBeforeLogo | utils.py:90-93 | under an opaque logo the mask's colours do not survive; everywhere else the mask's colour is what remains |
| StyledPil.StyledImage.constructor | utils.py:52-84 | the fields, the chosen embedded image and the paint colour are as above; the mode is RGBA iff the mask has transparency, the given image has an "A" band, or no image is given and the opened path's image has one; the canvas is pixel_size × pixel_size, filled with back_color; the defaults are no image, no path, ratio 0.25 and an opaque white background |
| StyledPil.StyledImage.DrawEmbeddedImage | utils.py:95-112 | every pixel becomes its `LogoPixel` value; `ok` is false only for box_size 0 with an image present (the division by zero); an image it alpha-composites is on an RGBA canvas |
| StyledPil.StyledImage.Process | utils.py:90-93 | every pixel becomes the `LogoPixel` of its masked colour: the mask runs first, then the logo |
| Drawers.SquareDrawer.constructor | utils.py:145-148 | no image yet |
| Drawers.SquareDrawer.Initialize | utils.py:150-152 | the drawer now draws onto the given image |
| Drawers.SquareDrawer.DrawRect | utils.py:154-156 | every pixel becomes its `SquarePixel` value |
| Drawers.GappedSquareDrawer.constructor | utils.py:167-168 | keeps size_ratio, 0.8 by default |
| Drawers.GappedSquareDrawer.Initialize | utils.py:170-173 | delta is `GappedInset(box_size, size_ratio)`, the exact (1 - size_ratio)·box_size / 2 |
| Drawers.GappedSquareDrawer.DrawRect | utils.py:175-183 | every pixel becomes its `GappedPixel` value, each float corner cast to int as Pillow does |
| Drawers.CircleDrawer.constructor | utils.py:193-194 | keeps padding_ratio, 0.15 by default |
| Drawers.CircleDrawer.Initialize | utils.py:196-210 | `ok` iff the circle's side is non-negative; then padding is `CirclePadding` and the circle tile has side box_size - 2·padding |
| Drawers.CircleDrawer.DrawRect | utils.py:212-214 | every pixel becomes its `CirclePixel` value |
| Drawers.RoundedDrawer.constructor | utils.py:230-231 | keeps radius_ratio, 1 by default |
| Drawers.RoundedDrawer.Initialize | utils.py:233-236 | corner_width is `Half(box_size)`, and the five tiles have that side and are the reflections of NW_ROUND |
| Drawers.RoundedDrawer.SetupCorners | utils.py:238-261 | SQUARE is filled with the paint colour, and the other three corners are `CornersFrom` NW_ROUND |
| Drawers.RoundedDrawer.DrawRect | utils.py:263-281 | every pixel becomes its `RoundedPixel` value |
| Drawers.PasteCorners | utils.py:276-281 | the four pastes in order, each pixel nesting the four `Pasted` values |
| Drawers.VerticalBarsDrawer.constructor | utils.py:293-294 | keeps horizontal_shrink, 0.8 by default |
| Drawers.VerticalBarsDrawer.Initialize | utils.py:296-300 | half_height is `Half(box_size)` and delta is `BarInset`; the tiles have `Scale(2·half_height, shrink)` columns and half_height rows |
| Drawers.VerticalBarsDrawer.SetupEdges | utils.py:302-321 | SQUARE is filled with the paint colour, and ROUND_BOTTOM is ROUND_TOP flipped top to bottom |
| Drawers.VerticalBarsDrawer.DrawRect | utils.py:323-334 | every pixel becomes its `VerticalPixel` value |
| Drawers.HorizontalBarsDrawer.constructor | utils.py:346-347 | keeps vertical_shrink, 0.8 by default |
| Drawers.HorizontalBarsDrawer.Initialize | utils.py:349-353 | half_width is `Half(box_size)` and delta is `BarInset`; the tiles have half_width columns and `Scale(2·half_width, shrink)` rows |
| Drawers.HorizontalBarsDrawer.SetupEdges | utils.py:355-376 | SQUARE is filled with the paint colour, and ROUND_RIGHT is ROUND_LEFT mirrored |
| Drawers.HorizontalBarsDrawer.DrawRect | utils.py:378-389 | every pixel becomes its `HorizontalPixel` value |

## Left out

- Pillow rasterisation is not modelled. This covers `ellipse` and `rectangle` on the 4× antialiasing canvas and the LANCZOS `resize`. Each rendered tile comes from a `render` parameter that is only required to return the requested size. The tiles' colours and shapes are therefore not stated.
- Alpha compositing is the parameter `over`. Only its footprint (the tile's rectangle) is modelled.
- The colour mask (`initialize`, `apply_mask`) is a library class. Its pass is the per-pixel parameter `mask`; `init_new_image` is not modelled.
- The default SolidFillColorMask is represented only by its background colour (opaque white) and its lack of transparency, as defaults of the image's constructor.
- `Image.open`, `save` and `__getattr__` are file I/O and delegation. `open` is a parameter; the other two are not modelled.
- `CustomStyledPilImage` is not modelled. It reads `self._color`, which nothing shown sets, and it calls a library `rounded_rectangle`.
- main.py is not part of this model. It is a one-shot script of library calls.
- The qrcode encoder is not modelled. This covers error correction, the row/column-to-box mapping, the `drawrect_context` loop and the construction of the neighbour flags. Boxes and flags are inputs. The four diagonal flags are omitted because no drawer reads them.
- Geometry.Ratio: ratios are exact non-negative fractions. Float rounding is not modelled. For example, (1 - 0.8) · 5 is 0.999… in floating point and `int` of it is 0. Negative ratios are not modelled.
- Shapes.GappedInsideModule: the exact near and far gaps are stated only for boxes of at least two pixels at non-negative coordinates. On a one-pixel box at row or column 0 with a size ratio below 1, the far corner -delta is negative and truncates up to 0.
- Imaging.Image.FillRectangle: an inverted rectangle paints nothing. Recent Pillow raises an error on one instead. The same holds for other argument checks Pillow makes, such as a zero-sized resize.
- Drawers.RoundedDrawer.constructor: radius_ratio only shapes the rasterised NW_ROUND, so nothing in the model depends on it.
- Raster.Rotate180: its own contract states only the size. The pixel-by-pixel form is stated by `Raster.Rotate180IsBothFlips`.
- Drawers.CircleDrawer.Initialize: the circle is created in the image's mode and background colour. That part is rasterisation and is not stated.
- Pixels pasted outside the canvas are clipped, as `paste` does. A logo ratio above 1 is therefore clipped, not rejected.
