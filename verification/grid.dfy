/** The pixel buffer: a row-major grid of RGB pixels indexed `[y][x]`, the
    numpy array `img` of shape (height, width, 3). */
module Grids {
  import opened Results
  import opened Datatypes

  type Grid = seq<seq<Color>>

  /** `img.shape[0]`. */
  function Height(g: Grid): nat {
    |g|
  }

  /** `img.shape[1]`: the length of the first row (0 for an empty grid). */
  function Width(g: Grid): nat {
    if |g| == 0 then 0 else |g[0]|
  }

  /** Every row has the same length, as in a numpy array. */
  predicate IsRect(g: Grid) {
    forall j :: 0 <= j < |g| ==> |g[j]| == Width(g)
  }

  /** `0 <= y < shape[0] and 0 <= x < shape[1]`; on a rectangular grid
      the row's own length is `shape[1]`. */
  predicate InBounds(g: Grid, x: int, y: int) {
    0 <= y < |g| && 0 <= x < |g[y]|
  }

  predicate SameShape(a: Grid, b: Grid) {
    |a| == |b| && forall j :: 0 <= j < |a| ==> |a[j]| == |b[j]|
  }

  /** A channel of a numpy `uint8` image. */
  predicate IsByte(x: int) {
    0 <= x <= 255
  }

  predicate IsPixel(c: Color) {
    IsByte(c.r) && IsByte(c.g) && IsByte(c.b)
  }

  /** A colour that fits one pixel of an `np.uint8` image. */
  type Pixel = c: Color | IsPixel(c) witness Color(0, 0, 0)

  /** Every channel of every pixel fits in a `uint8`. */
  predicate AllBytes(g: Grid) {
    forall j, i :: 0 <= j < |g| && 0 <= i < |g[j]| ==> IsPixel(g[j][i])
  }

  lemma SameShapeKeepsRect(a: Grid, b: Grid)
    requires IsRect(a) && SameShape(a, b)
    ensures IsRect(b) && Width(b) == Width(a)
  {
  }

  /** `img[y][x] = v`: the grid with one pixel replaced. */
  function SetCell(g: Grid, x: int, y: int, v: Color): (r: Grid)
    requires IsRect(g) && InBounds(g, x, y)
    ensures SameShape(r, g) && IsRect(r)
    ensures r[y][x] == v
    ensures forall j, i :: InBounds(g, i, j) && (i != x || j != y) ==> r[j][i] == g[j][i]
  {
    g[y := g[y][x := v]]
  }

  /** Writing the same pixel twice is writing it once. */
  lemma SetCellIdempotent(g: Grid, x: int, y: int, v: Color)
    requires IsRect(g) && InBounds(g, x, y)
    ensures SetCell(SetCell(g, x, y, v), x, y, v) == SetCell(g, x, y, v)
  {
    var row := g[y][x := v];
    assert row[x := v] == row;
    assert g[y := row][y := row] == g[y := row];
  }

  /** Writing a pixel's own value leaves the grid as it was. */
  lemma SetCellSame(g: Grid, x: int, y: int)
    requires IsRect(g) && InBounds(g, x, y)
    ensures SetCell(g, x, y, g[y][x]) == g
  {
    assert g[y][x := g[y][x]] == g[y];
    assert g[y := g[y]] == g;
  }

  datatype CanvasError = NegativeDimension

  /** `np.zeros((rows, cols, 3), np.uint8)` followed by `img[:, :, :] = level`.
      numpy refuses a negative dimension; a zero one gives an empty array. */
  function NewCanvas(rows: int, cols: int, level: int): (r: Result<Grid, CanvasError>)
    ensures r.Ok? <==> rows >= 0 && cols >= 0
    ensures r.Ok? ==> |r.value| == rows && IsRect(r.value)
    ensures r.Ok? ==> forall j :: 0 <= j < rows ==> |r.value[j]| == cols
    ensures r.Ok? ==> forall j, i :: 0 <= j < rows && 0 <= i < cols ==>
      r.value[j][i] == Color(level, level, level)
  {
    if rows < 0 || cols < 0 then Err(NegativeDimension)
    else Ok(seq(rows, _ => seq(cols, _ => Color(level, level, level))))
  }

  /** `cv2.bitwise_not` on one uint8 pixel. */
  function InvertPixel(c: Color): Color {
    Color(255 - c.r, 255 - c.g, 255 - c.b)
  }

  /** A per-pixel filter applied to the whole grid. */
  function MapPixels(g: Grid, f: Color -> Color): (r: Grid)
    ensures SameShape(r, g)
    ensures forall j, i :: 0 <= j < |g| && 0 <= i < |g[j]| ==> r[j][i] == f(g[j][i])
  {
    seq(|g|, j requires 0 <= j < |g| => seq(|g[j]|, i requires 0 <= i < |g[j]| => f(g[j][i])))
  }

  /** The Invert filter: every channel `x` becomes `255 - x`. */
  function Invert(g: Grid): Grid {
    MapPixels(g, InvertPixel)
  }

  /** A filter that may look at the whole grid to compute each output pixel
      (the shape of `cv2.blur`): the result always has the input's shape. */
  function Neighbourhood(g: Grid, at: (Grid, int, int) -> Color): (r: Grid)
    ensures SameShape(r, g)
    ensures forall j, i :: 0 <= j < |g| && 0 <= i < |g[j]| ==> r[j][i] == at(g, i, j)
  {
    seq(|g|, j requires 0 <= j < |g| => seq(|g[j]|, i => at(g, i, j)))
  }

  /** Inverting keeps the shape, maps every channel to 255 minus itself, and
      inverting twice gives back the original grid. */
  lemma InvertFacts(g: Grid)
    ensures SameShape(Invert(g), g)
    ensures forall j, i :: 0 <= j < |g| && 0 <= i < |g[j]| ==>
      Invert(g)[j][i] == Color(255 - g[j][i].r, 255 - g[j][i].g, 255 - g[j][i].b)
    ensures Invert(Invert(g)) == g
  {
    var h := Invert(Invert(g));
    assert |h| == |g|;
    forall j | 0 <= j < |g|
      ensures h[j] == g[j]
    {
      assert |h[j]| == |g[j]|;
      forall i | 0 <= i < |g[j]|
        ensures h[j][i] == g[j][i]
      {
      }
    }
  }

  /** `bitwise_not` is `255 - x` only on bytes, and there it gives bytes
      back: an inverted uint8 image is a uint8 image. */
  lemma InvertBytes(g: Grid)
    ensures AllBytes(Invert(g)) <==> AllBytes(g)
  {
    InvertFacts(g);
    assert forall j, i :: 0 <= j < |g| && 0 <= i < |g[j]| ==>
      (IsPixel(Invert(g)[j][i]) <==> IsPixel(g[j][i]));
  }

  /** Inverting a one-pixel image of (10, 20, 30) gives (245, 235, 225). */
  lemma InvertExample()
    ensures Invert([[Color(10, 20, 30)]]) == [[Color(245, 235, 225)]]
  {
    var g := [[Color(10, 20, 30)]];
    InvertFacts(g);
    assert Invert(g)[0][0] == Color(245, 235, 225);
    assert Invert(g)[0] == [Color(245, 235, 225)];
  }
}
