# cmdpxl editing engine in Dafny

cmdpxl is a terminal pixel-art editor. This project models its editing engine:

- the pixel buffer;
- the per-key state machine of the main loop: movement, paint, flood fill, undo, brush colour stepping, the filter menu and the quit menu;
- the recursive flood fill;
- the quantised HSV brush;
- the Invert filter;
- the renderer, as the strings it writes: the `draw` escape sequences with their contrast rule, the cell layout with the `[]` cursor marker, the box around the image and the horizontal padding;
- the resize watcher's repaint guard;
- the `Color` and `Pos` value classes.

The repository contains three versions of the editor, and the model covers all of them through a `Variant` flag:

- `cmdpxl/main.py` is the reference.
- The `Application`/`Drawer` classes under `src/pixely/_internal` are the pixely version.
- The older `main.py` at the root differs in these ways:
  - only `e` paints;
  - it has no fill and no filters;
  - `c` cancels the quit menu;
  - a new canvas is 255 rather than 250;
  - it has no menu flag.

Everything is a pure function over immutable values. Each recursive fill call runs on `np.copy(img)` and its result is threaded back, which a pure function models directly. The model's fill terminates on the number of pixels the recursion guard would still let it enter. It gives the image the recursion returns; the source's RecursionError on deep fills is listed under "Left out".

Modules:

- `Results`: `Option` and `Result`.
- `Datatypes`: `Color`, `Pos` and the `Color(*args)` constructor.
- `Grids`: the image, pixel writes, canvas creation, per-pixel filters and Invert.
- `ColorSteps`: `change_hue`, `change_saturation` and `change_value`.
- `FloodFill`: the fill, its termination measure, and its frame, closure and reachability contracts.
- `Decimal`: how f-strings print integers, and a reader for it.
- `Draw`: `draw`, as the string it writes, with a decoder proving what the string carries.
- `Variants`: the three versions' differences.
- `Layout`: `draw_image`, `draw_image_box` and the padding formula.
- `Resize`: the resize watcher.
- `Editor`: the state machine.

The library calls the key loop makes are parameters of the model (`Editor.Env`):

- HSV to RGB conversion;
- the colour-map filters;
- the blur.

Terminal input is the key sequence handed to `Editor.Run`. A key is a string because the key reader can return names such as `up`, or the empty string at end of input.

## Model

| member | source | states |
|---|---|---|
| Datatypes.Construct | cmdpxl/cmdpxl_datatypes.py:2-7 | `Color(*args)`. Its contract is carried by `ConstructRoundTrip` and `ConstructSucceeds`: one three-item iterable or three numbers build the colour in r, g, b order, and anything else raises |
| Datatypes.ConstructRoundTrip | cmdpxl/cmdpxl_datatypes.py:2-7 | Unpacking a colour's own iteration through the one-argument constructor rebuilds it; three numbers are assigned to r, g, b in order |
| Datatypes.ConstructSucceeds | cmdpxl/cmdpxl_datatypes.py:2-4 | Construction succeeds exactly for one iterable of three values or three numbers; every other argument list raises |
| Datatypes.Copy | cmdpxl/cmdpxl_datatypes.py:9-10 | The copy iterates to the same channels as the original |
| Datatypes.PosUnpacksInOrder | cmdpxl/cmdpxl_datatypes.py:13-18 | Unpacking `i, j = Pos(a, b)` binds a then b |
| Grids.SetCell | cmdpxl/main.py:401 | Writing a pixel keeps the shape, sets that pixel and leaves every other pixel as it was |
| Grids.SetCellIdempotent | cmdpxl/main.py:399-401 | Writing the same pixel with the same colour twice equals writing it once |
| Grids.SetCellSame | cmdpxl/main.py:401 | Writing a pixel's own colour leaves the image unchanged |
| Grids.NewCanvas | cmdpxl/main.py:368-369 | A canvas exists exactly for non-negative dimensions; it has the requested rows and columns, and every channel at the given level |
| Grids.MapPixels | cmdpxl/main.py:458-463 | A per-pixel filter keeps the shape and puts f of each pixel in its place |
| Grids.Neighbourhood | cmdpxl/main.py:455-456 | A whole-image filter such as the blur keeps the shape |
| Grids.InvertBytes | cmdpxl/main.py:453-454 | An inverted image has byte channels exactly when the original has |
| Grids.Invert | cmdpxl/main.py:453-454 | `cv2.bitwise_not`. Its contract is carried by `InvertFacts` and `InvertBytes`: same shape, each channel x becomes 255 - x, an involution that keeps byte images |
| Grids.InvertFacts | cmdpxl/main.py:453-454 | Invert keeps the shape, maps each channel x to 255 - x, and inverting twice gives the image back |
| Grids.InvertExample | cmdpxl/main.py:453-454 | Illustration: (10, 20, 30) inverts to (245, 235, 225) |
| ColorSteps.ChangeHue | cmdpxl/main.py:256-259 | `change_hue`. Through `Change` with `Hue`: the hue becomes the largest multiple of 18 not above the sum clamped to [0, 180], and saturation and value are kept |
| ColorSteps.ChangeSaturation | cmdpxl/main.py:262-265 | `change_saturation`. Through `Change` with `Saturation`: the multiple of 25 below the sum clamped to [0, 255], at most 250, with the other channels kept |
| ColorSteps.ChangeValue | cmdpxl/main.py:268-271 | `change_value`. Through `Change` with `Value`: the same rule on the third channel |
| ColorSteps.Change | cmdpxl/main.py:256-271 | The stepped channel becomes the largest tick multiple (of 18 or 25) not above the clamped sum, in [0, 180] or [0, 250]; the other two channels are unchanged |
| ColorSteps.ChangeKeepsOnTicks | cmdpxl/main.py:256-271 | A brush on its tick grids stays on them after any step |
| ColorSteps.QuantizeFixesTicks | cmdpxl/main.py:258 | A value already on its tick grid is its own quantisation |
| ColorSteps.ListChange | src/pixely/_internal/drawer.py:128-141 | The list version returns a three-element list. It changes only the indexed element, which lands on its tick grid as the largest tick not above the clamped sum |
| ColorSteps.ListChangeAgrees | main.py:176-194 | Stepping channel k of a colour's list gives the list of the colour `change_*` steps in the reference |
| ColorSteps.StepToThenBack | cmdpxl/main.py:256-271 | From an interior tick, up then down (or down then up) returns to it; past the top or below zero the value stays |
| ColorSteps.StepThenBack | cmdpxl/main.py:414-426 | On whole brushes: a colour key and its opposite undo each other from an interior tick |
| ColorSteps.StepAtEnds | cmdpxl/main.py:262-271 | Stepping past either end keeps the brush; a saturation of 255 floors to 250 |
| ColorSteps.RepeatConverges | cmdpxl/main.py:414-426 | n presses of an up key climb one tick per press and stop at the top; n presses of a down key descend and stop at 0 |
| ColorSteps.TickNeighbours | cmdpxl/main.py:256-271 | One step from a tick lands on the next tick up or down, or stays at an end |
| FloodFill.OpenCountUpdate | cmdpxl/main.py:115 | Painting one pixel changes the count of pixels the guard would enter by exactly that pixel's contribution |
| FloodFill.Fill | cmdpxl/main.py:114-128 | The fill keeps the image's shape and never increases the number of pixels the guard would enter |
| FloodFill.Visit | cmdpxl/main.py:122-127 | Visiting one neighbour, whether the guard lets the recursion in or not, keeps the shape |
| FloodFill.VisitOk | cmdpxl/main.py:122-127 | After a neighbour's visit, that neighbour no longer has the original colour, and only original-colour pixels turned into the fill colour |
| FloodFill.FillFacts | cmdpxl/main.py:114-128 | A fill started on an original-colour pixel paints it; changed pixels went from the original colour to the fill colour; no painted pixel keeps an original-colour neighbour |
| FloodFill.FillConfined | cmdpxl/main.py:116-127 | Every pixel a fill changes is connected to the origin through original-colour pixels |
| FloodFill.VisitConfined | cmdpxl/main.py:122-127 | A neighbour's visit changes only pixels connected to that neighbour |
| FloodFill.PathFilled | cmdpxl/main.py:116-127 | Along a walk of original-colour pixels from a painted origin, every pixel is painted |
| FloodFill.FillCoversRegion | cmdpxl/main.py:116-127 | After a fill, every pixel on an original-colour walk from the origin has the fill colour |
| FloodFill.FillContract | cmdpxl/main.py:114-128 | A top-level fill keeps the shape and paints the origin; changed pixels had the origin's colour, now have the fill colour, and are connected to the origin |
| FloodFill.FillNoOp | cmdpxl/main.py:123-126 | Filling with the colour the origin already has changes nothing |
| FloodFill.NeighbourListsAgree | cmdpxl/main.py:116-127 | The `Pos(row, col)` list unpacked as `i, j`, and the pixely `[row, col]` list, both visit up, down, left, right in that order |
| FloodFill.FillFrom | cmdpxl/main.py:114-128 | A fill from a pixel of the original colour keeps the step contract and stays within the origin's region |
| FloodFill.FillCoversPaths | cmdpxl/main.py:116-127 | Every original-colour walk from the origin ends on a painted pixel |
| FloodFill.FillAt | cmdpxl/main.py:403-405 | The fill as key `f` starts it keeps the shape and paints the cursor; it changes only pixels of the cursor's colour connected to the cursor, and paints all of them; filling with the cursor's own colour changes nothing |
| FloodFill.ListFill | src/pixely/_internal/drawer.py:106-122 | The pixely fill keeps the shape and never raises the number of pixels its guard would enter, so the recursion ends |
| FloodFill.ListStepIsVisit | src/pixely/_internal/drawer.py:117-120 | One turn of the loop over the `[row, col]` entry `[i, j]`, which bounds-checks against the shape and recurses at `[j, i]`, is the reference fill's visit of column j, row i |
| FloodFill.ListFillIsFill | src/pixely/_internal/drawer.py:106-122 | The pixely recursion produces exactly the reference fill's image, for every image, origin and pair of colours (by induction on the termination measure) |
| FloodFill.ListFillContract | src/pixely/_internal/drawer.py:106-122 | From an origin of the original colour, the pixely fill paints the origin, changes only original-colour pixels connected to it into the fill colour, and leaves no original-colour neighbour beside a painted pixel |
| FloodFill.ListFillAgrees | src/pixely/_internal/application.py:129-131 | The pixely fill at the cursor is the reference fill at the cursor |
| FloodFill.FillUniform | cmdpxl/main.py:403-405 | Filling a one-colour image from any pixel paints every pixel |
| Decimal.NatToString | cmdpxl/main.py:55 | A natural number prints as a non-empty string of digits without a leading zero |
| Decimal.IntToString | cmdpxl/main.py:55 | An integer prints with a leading minus exactly when it is negative, followed by digits |
| Decimal.NatToStringValue | cmdpxl/main.py:55 | The printed digits denote the number printed |
| Decimal.ParseIntRoundTrip | cmdpxl/main.py:55 | Reading back a printed integer followed by a non-digit gives the integer and the rest of the text |
| Decimal.IntToStringInjective | cmdpxl/main.py:55 | Different integers print differently |
| Decimal.IntToStringExamples | cmdpxl/main.py:60 | Illustration: 0, 250 and -3 print as "0", "250" and "-3" |
| Draw.ParseSgrRoundTrip | cmdpxl/main.py:52-55 | A 24-bit SGR sequence decodes to its colour and leaves the rest of the text |
| Draw.ParseLocateRoundTrip | cmdpxl/main.py:60 | The cursor save-and-move sequence decodes to its position |
| Draw.ParseInkRoundTrip | cmdpxl/main.py:49-52 | The text part decodes to the foreground it was wrapped in, or none, and the text itself |
| Draw.ParseBackgroundRoundTrip | cmdpxl/main.py:54-59 | A solid background decodes to its colour; TRANSPARENT writes no background sequence |
| Draw.Draw | cmdpxl/main.py:36-62 | The reference `draw`. Its contract is carried by `DrawShape`, `DrawRoundTrip` and `DrawInjective`: the string decodes back to its background, position, text and the ink the contrast rule picks, and different calls write different strings |
| Draw.DrawShape | cmdpxl/main.py:49-62 | The output is background, position, text wrapped in at most one foreground (the one the contrast rule picks), restore, and reset when there was a background |
| Draw.DrawRoundTrip | cmdpxl/main.py:36-62 | The string `draw` writes decodes to its background, its position, the chosen foreground and the text; the foreground is the explicit one, else black above a channel sum of 350, else none |
| Draw.DrawInjective | cmdpxl/main.py:36-62 | Two draws writing the same string drew the same background, position, text and foreground |
| Draw.ListDraw | src/pixely/_internal/drawer.py:29-47 | The list `draw`. Its contract is carried by `ListDrawAgrees` and `ListDrawTreatsMinusOneAsTransparent`: it writes the reference's string except when the first channel is -1, and then exactly a transparent draw with black ink above a sum of 350 |
| Draw.ListDrawAgrees | src/pixely/_internal/drawer.py:29-47 | The list version of `draw` writes the same string as the reference for TRANSPARENT and for every solid colour whose red channel is not -1, which covers every byte pixel (`Editor.ImagePixelsDrawAlike`) |
| Draw.ListDrawTreatsMinusOneAsTransparent | src/pixely/_internal/drawer.py:35-45 | A list whose first channel is -1 is drawn with no background. Its text gets black ink when no text colour is given and g + b - 1 > 350; the reference never gives TRANSPARENT that ink. The draw equals TRANSPARENT's exactly when a text colour is given or g + b - 1 <= 350 |
| Layout.DrawImage | cmdpxl/main.py:93-108 | One call per pixel on its own colour at column i*2+2+padding_x and row j+7+padding_y, with `[]` exactly at the cursor and two spaces elsewhere |
| Layout.OneMarker | cmdpxl/main.py:97-102 | With the cursor inside the image, exactly one cell carries the marker |
| Layout.DrawImageSticky | src/pixely/_internal/drawer.py:49-66 | As written: the same calls, but the cursor cell and every later cell in row-major order carry the marker |
| Layout.StickyMarkers | src/pixely/_internal/drawer.py:53-58 | The as-written version draws (h - y) * w - x markers |
| Layout.StickyMarkerExample | src/pixely/_internal/drawer.py:53-58 | Illustration: On a 1x2 image with the cursor on the left pixel, the right pixel is marked by the pixely version and not by the reference |
| Layout.StickyAgreesUpToCursor | src/pixely/_internal/drawer.py:55-58 | Both versions agree on every cell up to the cursor, and everywhere when the cursor is on the last pixel |
| Layout.DrawImageBox | cmdpxl/main.py:65-90 | height + 2 transparent calls in the edge colour from row 6 + padding_y down, each 2 * width + 2 wide: top, one middle per row, bottom |
| Layout.VersionBox | main.py:9 | Every line of the box is drawn transparent, in (77, 77, 77) in the older main.py and in (200, 200, 200) in the reference (cmdpxl/main.py:17) and pixely versions |
| Layout.BoxEnclosesCells | cmdpxl/main.py:72-105 | Every pixel's two columns lie strictly inside the box's borders, on its own middle line |
| Layout.CellsDisjoint | cmdpxl/main.py:105 | Two different pixels never overlap on screen |
| Layout.PaddingX | cmdpxl/main.py:381 | The horizontal padding of each version. Its contract is carried by `PaddingCentres` and `PaddingVersions`: it centres the drawn area to within one column, and the pixely value differs from the reference by 24 - w below width 24 |
| Layout.PaddingCentres | cmdpxl/main.py:286 | The padding centres the drawn area: the right margin equals the left one or exceeds it by one column |
| Layout.PaddingVersions | src/pixely/_internal/application.py:66 | The pixely padding equals the reference one for images at least 24 wide, and is 24 - w columns larger otherwise |
| Resize.Update | src/pixely/_internal/drawer.py:21-23 | Both paddings are replaced by the given ones |
| Resize.Initial | cmdpxl/main.py:377-381 | Only the older main.py starts with a remembered size; every version starts with equal paddings and padding_y 1 |
| Resize.Tick | cmdpxl/main.py:277-289 | One pass of the resize loop. Its contract is carried by `TickFacts`, `TickKeepsPadsInSync`, `NoRepaintInMenu`, `FirstTick` and `TickSettles` |
| Resize.TickFacts | cmdpxl/main.py:282-286 | A tick repaints exactly when the size changed and no menu holds the screen; a repaint records the size and sets the padding for it; otherwise nothing changes |
| Resize.TickKeepsPadsInSync | src/pixely/_internal/application.py:66-67 | The Drawer's paddings stay equal to the application's |
| Resize.NoRepaintInMenu | src/pixely/_internal/application.py:62 | With a menu open, a tick does nothing |
| Resize.FirstTick | cmdpxl/main.py:279-282 | The first tick outside a menu repaints in the flagged versions, and in the older main.py only after a size change |
| Resize.TickSettles | cmdpxl/main.py:282-284 | A second tick at the same size does not repaint |
| Editor.StartValid | cmdpxl/main.py:358-374 | The start state (cursor (0, 0), brush (90, 125, 125), no snapshots) satisfies the loop invariant exactly for non-empty rectangular images whose channels are all bytes |
| Editor.CreateCanvas | src/pixely/_internal/application.py:270-271 | A new canvas has the requested rows and columns, with every channel 250 (255 in the older main.py) |
| Editor.ApplyFilter | cmdpxl/main.py:451-463 | Every filter keeps the image's shape |
| Editor.ImagePixelsDrawAlike | src/pixely/_internal/drawer.py:35-45 | Every pixel of a valid image is drawn by the list `draw` exactly as the reference draws it as a solid colour |
| Editor.FilterBytes | cmdpxl/main.py:453-463 | Every filter turns a `uint8` image into a `uint8` image |
| Editor.NormalKey | cmdpxl/main.py:388-426 | A main-loop key keeps the loop invariant and the image's shape |
| Editor.Upper | cmdpxl/main.py:449 | `getch().upper()`. Its effect is stated by `InvertKey` and `FilterMenuFacts`: `i` and `I` select the same filter |
| Editor.FilterKey | cmdpxl/main.py:447-467 | A filter-menu key keeps the loop invariant and the image's shape |
| Editor.Lower | cmdpxl/main.py:482 | `getch().lower()`. Its effect is stated by `QuitMenuFacts`: `s` and `S` both save and exit |
| Editor.QuitKey | cmdpxl/main.py:480-494 | A quit-menu key keeps the loop invariant and never changes the image or the snapshots |
| Editor.Step | cmdpxl/main.py:384-494 | Any key in any mode keeps the loop invariant: a non-empty rectangular image, the cursor on it, snapshots of its shape, the brush on its tick grids, and the menu flag up exactly in the menus |
| Editor.Run | cmdpxl/main.py:384-386 | Any key sequence keeps the loop invariant and the image's shape |
| Editor.Move | cmdpxl/main.py:389-396 | The four movement keys with Python's `%`. Its contract is carried by `MoveFacts` and the `Repeat*` lemmas: one place along one axis, wrapping, and nothing else changes |
| Editor.MoveFacts | cmdpxl/main.py:389-396 | Each movement key moves the cursor one place along one axis, wrapping at the edges, and changes nothing else |
| Editor.MoveSideways | src/pixely/_internal/application.py:119-122 | `a` and `d` move the column one place, wrapping, and keep the row |
| Editor.MoveUpDown | src/pixely/_internal/application.py:115-118 | `w` and `s` move the row one place, wrapping, and keep the column |
| Editor.SidewaysUndo | cmdpxl/main.py:393-396 | `a` undoes `d` and `d` undoes `a` |
| Editor.UpDownUndo | cmdpxl/main.py:389-392 | `w` undoes `s` and `s` undoes `w` |
| Editor.RepeatRight | main.py:249-252 | n presses of `d`, n up to the width, move the cursor to (x + n) mod width |
| Editor.RepeatLeft | cmdpxl/main.py:393-394 | n presses of `a`, n up to the width, move the cursor to (x - n) mod width |
| Editor.RepeatDown | cmdpxl/main.py:391-392 | n presses of `s`, n up to the height, move the cursor to (y + n) mod height |
| Editor.RepeatUp | cmdpxl/main.py:389-390 | n presses of `w`, n up to the height, move the cursor to (y - n) mod height |
| Editor.AroundTheImage | cmdpxl/main.py:389-396 | Pressing `d` or `a` width times, or `s` or `w` height times, returns to the starting state |
| Editor.PaintFacts | cmdpxl/main.py:399-401 | Paint pushes the pre-paint image, sets the cursor pixel to the brush's RGB and leaves every other pixel; space also paints, except in the older main.py |
| Editor.PaintTwice | src/pixely/_internal/application.py:125-127 | Painting twice gives the same image as painting once |
| Editor.FillKeyFacts | src/pixely/_internal/application.py:129-131 | Fill pushes the pre-fill image and fills from the cursor, taking the cursor's colour before any mutation as the original; only original-colour pixels change, to the brush's RGB |
| Editor.UndoInverse | cmdpxl/main.py:407-411 | Any main-loop key that changed the image pushed the old one, and undo right after it restores the state exactly |
| Editor.UndoAfterPush | src/pixely/_internal/application.py:133-137 | Undo right after a snapshot restores the state the snapshot was taken in |
| Editor.UndoPaint | main.py:254-262 | Paint then undo restores the state exactly |
| Editor.UndoFill | cmdpxl/main.py:403-411 | Fill then undo restores the state exactly |
| Editor.UndoEmpty | main.py:258-262 | Undo with no snapshots changes nothing |
| Editor.Undo | cmdpxl/main.py:407-411 | The undo key. Its contract is carried by `UndoFacts`, `UndoEmpty` and `UndoValid`: the last snapshot becomes the image and is popped; with no snapshots nothing changes |
| Editor.UndoFacts | src/pixely/_internal/application.py:133-137 | Undo makes the last snapshot the image and pops it, leaving cursor and brush |
| Editor.OnlyEditsTouchImage | cmdpxl/main.py:388-426 | Keys other than paint, fill and undo change neither the image nor the snapshots |
| Editor.ColorKeyFacts | src/pixely/_internal/application.py:140-152 | `u/i/o` step hue, saturation and value down by their tick, `j/k/l` up; nothing but the brush changes |
| Editor.BrushStaysOnTicks | cmdpxl/main.py:414-426 | Whatever keys are read, the brush stays on its tick grids |
| Editor.OpenFilterMenu | cmdpxl/main.py:429-430 | `t` opens the filter menu and raises the flag, changing nothing else; the older main.py ignores it |
| Editor.FilterMenuFacts | src/pixely/_internal/application.py:183-209 | Esc returns with image and snapshots unchanged; a filter code in either case pushes one snapshot and applies the filter; any other key is read again; the flag is down once the menu is left |
| Editor.InvertKey | cmdpxl/main.py:447-454 | `i` and `I` both invert: one snapshot pushed, each channel x becomes 255 - x |
| Editor.UndoFilter | cmdpxl/main.py:451-452 | `t`, a filter code, then undo restores the state from before `t` |
| Editor.OpenQuitMenu | src/pixely/_internal/application.py:212-214 | Esc opens the quit menu and raises the flag where there is one |
| Editor.QuitMenuFacts | main.py:286-298 | `s` (either case) exits saving the image, `q` exits without saving, the cancel key (esc, or `c` in the older main.py) returns with the flag down, and the other version's cancel key is read again |
| Editor.EmptyKeyCancelsQuit | cmdpxl/main.py:480-482 | An empty read cancels the quit menu, because Python's substring test accepts the empty string |
| Editor.ExitedIsFinal | cmdpxl/main.py:484-490 | After exit nothing changes |
| Editor.LegacyIgnores | main.py:254-256 | The older main.py ignores space, `f` and `t` |
| Editor.LegacyNeverFlags | main.py:278-298 | The older main.py never raises a menu flag |
| Editor.PaintCentre | cmdpxl/main.py:368-401 | Illustration: On a new 3x3 canvas, `d s e` paints only the centre pixel and leaves the blank canvas as the one snapshot |
| Editor.FillNewCanvas | src/pixely/_internal/application.py:129-131 | Illustration: Filling a new canvas paints every pixel with the brush's RGB and leaves the blank canvas as the one snapshot |
| Editor.PaintThenUndo | cmdpxl/main.py:399-411 | Illustration: Paint then undo on a new canvas gives the blank canvas back with no snapshots |
| Editor.InvertOnePixel | cmdpxl/main.py:453-454 | Illustration: Through the filter menu, a one-pixel image (10, 20, 30) becomes (245, 235, 225) |

## Left out

- HSV to RGB conversion (`cv2.cvtColor` with OpenCV's half-range hue) is the uninterpreted `Env.toRgb`. Paint and fill only need some RGB value from it.
- The colour-map filters (Bone, Pink, Ocean, Jet after grayscale) and `cv2.blur` depend on OpenCV's tables and border rules. They are abstract functions in `Env`. Only their shape and their byte channels are stated. Invert is modelled exactly.
- Editor.FilterMenuFacts: the colour-map path converts to grey with `cv2.cv2.COLOR_RGB2GRAY` (cmdpxl/main.py:458, src/pixely/_internal/application.py:196), and the OpenCV version is not pinned. Releases without the `cv2.cv2` submodule raise AttributeError on G, S, O and H, after the snapshot has been pushed. The model always applies the filter, as with a release that has the submodule.
- Editor.ApplyFilter: the same `cv2.cv2` dependence for the colour-map codes. Invert and blur do not use it.
- The tick markers of `color_select` use `round` and float division, and are not modelled. The colour preview is not modelled either.
- Terminal I/O is not modelled:
  - `getch` and its escape decoding;
  - `clear`;
  - showing and hiding the cursor;
  - `os.get_terminal_size`;
  - writing to `sys.stdout`.
  - The interface text drawn around the image (title and key help) is not modelled either.
- The resize thread, its 0.2 s sleep and its races with the main loop are not modelled. A tick is a pure call with the size that was read.
- File loading and saving are not modelled, including the BGR swap, `cv2.imwrite`, `exit()` and the `input()` prompts. The CLI and packaging are left out as well. Saving is the `Exited(Some(img))` mode.
- Datatypes.Construct: Python would accept a non-numeric value in a three-argument call, because it never checks the channel types. The model reports `NonNumericChannel` instead.
- Datatypes.Copy: values are immutable here, so "a distinct object that can be mutated independently" is not expressible. Only the equal channels are stated.
- FloodFill.Fill: the source recurses once per open neighbour (cmdpxl/main.py:127). On a one-colour region the first branch can snake through every pixel before returning, so the calls nest about as deep as the region is large. Past Python's recursion limit (1000 by default) the source raises RecursionError, which neither key loop catches, so the program ends and the unsaved image is lost. The model has no depth bound: it gives the image the recursion returns whenever it does return.
- FloodFill.ListFill: the same recursion limit applies to the pixely recursion (src/pixely/_internal/drawer.py:120), and the model has no depth bound either.
- FloodFill.FillAt: its promise to paint every connected pixel of the cursor's colour holds only when the source's recursion stays within Python's limit. A one-colour region of about 1000 pixels filled from a corner already exceeds it.
- FloodFill.FillUniform: the full repaint of a one-colour image holds in the source only below the recursion limit, roughly 1000 pixels when filling from a corner. Larger images raise RecursionError.
- Editor.FillNewCanvas: the same limit. A new canvas of about 1000 pixels or more makes the source's fill raise RecursionError instead of painting it.
- Editor.Step: requires a non-empty image. On a zero-sized canvas the source raises (ZeroDivisionError on movement, IndexError on paint), and that crash is not modelled.
- Editor.Upper: upper- and lower-casing act on ASCII letters only. Python's full Unicode case mapping is not modelled.
- Draw.ListDraw: the contrast test's channel sum is taken over unbounded integers. A pixel is a numpy `uint8` triple, and whether `sum` wraps over it depends on the numpy version, which is not modelled.
- Draw.Draw: the same unbounded sum. The reference passes `Color(img[j][i])` with `uint8` channels to `sum(list(color))` (cmdpxl/main.py:49, :104), so the same numpy dependence applies.
- Layout.DrawImage: draws each pixel through `Draw.Draw` with the same unbounded sum.
- Layout.DrawImageSticky: every pixel is drawn as a solid background. Under the editor's invariant every channel is a byte, so the first channel is never -1 and the list `draw` never treats a pixel as transparent (`Editor.ImagePixelsDrawAlike`).
- Editor.Env: HSV to RGB, the colour maps and the blur are trusted to return byte channels, as OpenCV's `uint8` arrays do. That range is part of their type (`Grids.Pixel`) rather than proved.
- Resize.Tick: the pixely thread captures the image once at start, so its later repaints use a stale image. The model tracks only the guard and the paddings.
- ColorSteps.Change: `change_saturation` and `change_value` clamp at 255 and then floor to a multiple of 25, so the top tick reachable is 250, not 255. The model follows the code.

## Findings

| source | as written | input that shows it | evidently intended | confidence | as-written member | corrected member |
|---|---|---|---|---|---|---|
| src/pixely/_internal/drawer.py:53-58 | `text` starts as two spaces once, before both loops, and is set to `[]` at the cursor but never reset, so every cell after the cursor is marked too (`Layout.StickyMarkers`: (h - y) * w - x markers) | a 1x2 image with the cursor at [0, 0]: pixel (1, 0) is also drawn as `[]` (`Layout.StickyMarkerExample`) | the marker only at the cursor, as cmdpxl/main.py:99-102 draws it (`Layout.OneMarker`: exactly one marker) | not executed | Layout.DrawImageSticky | Layout.DrawImage |
