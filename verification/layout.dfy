/** Where the image goes on the screen: one `draw` call per pixel with the
    `[]` cursor marker, the rounded box around the image, and the
    horizontal padding that centres it. */
module Layout {
  import opened Results
  import opened Datatypes
  import opened Grids
  import opened Draw
  import opened Variants

  /** One `draw` call, as its arguments. */
  datatype Call = Call(bg: Background, at: Pos, text: string, textcolor: Option<Color>)

  /** Rows above the image box, not counting the vertical padding. */
  const OffsetY: int := 6

  const Marker: string := "[]"
  const Blank: string := "  "

  /** The screen position of pixel (i, j): two columns per pixel, starting
      one column right of the box's left edge, one row below its top. */
  function CellAt(i: int, j: int, padX: int, padY: int): Pos {
    Pos(i * 2 + 2 + padX, j + 1 + OffsetY + padY)
  }

  // ----- The cells -----

  /** `draw_image` of cmdpxl/main.py (and of the older main.py): the marker
      exactly at the cursor. */
  predicate AtCursor(cursor: Pos, i: int, j: int) {
    i == cursor.x && j == cursor.y
  }

  /** The cell calls of an image: one per pixel, on the pixel's own colour,
      at `CellAt`, without a text colour, and with the text `marked` gives. */
  ghost predicate CellCalls(rows: seq<seq<Call>>, g: Grid, padX: int, padY: int, marked: (int, int) -> bool) {
    |rows| == |g| &&
    forall j :: 0 <= j < |g| ==> (|rows[j]| == |g[j]| &&
      forall i :: 0 <= i < |g[j]| ==>
        rows[j][i] == Call(Solid(g[j][i]), CellAt(i, j, padX, padY), if marked(i, j) then Marker else Blank, None))
  }

  /** `draw_image(img, img_pos)`: the calls it makes, row by row (the order
      they are made in is row-major). */
  method DrawImage(g: Grid, cursor: Pos, padX: int, padY: int) returns (rows: seq<seq<Call>>)
    requires IsRect(g)
    ensures CellCalls(rows, g, padX, padY, (i, j) => AtCursor(cursor, i, j))
  {
    rows := [];
    var j := 0;
    while j < |g|
      invariant 0 <= j <= |g| && |rows| == j
      invariant forall jj :: 0 <= jj < j ==> (|rows[jj]| == |g[jj]| &&
        forall i :: 0 <= i < |g[jj]| ==>
          rows[jj][i] == Call(Solid(g[jj][i]), CellAt(i, jj, padX, padY), if AtCursor(cursor, i, jj) then Marker else Blank, None))
    {
      var row := [];
      var i := 0;
      while i < |g[j]|
        invariant 0 <= i <= |g[j]| && |row| == i
        invariant forall ii :: 0 <= ii < i ==>
          row[ii] == Call(Solid(g[j][ii]), CellAt(ii, j, padX, padY), if AtCursor(cursor, ii, j) then Marker else Blank, None)
      {
        var text := if i == cursor.x && j == cursor.y then Marker else Blank;
        row := row + [Call(Solid(g[j][i]), CellAt(i, j, padX, padY), text, None)];
        i := i + 1;
      }
      rows := rows + [row];
      j := j + 1;
    }
  }

  /** The pixely `draw_image` sets its text to the marker when it reaches
      the cursor and never sets it back: a cell is marked when the cursor is
      in the image and comes at or before the cell in row-major order. */
  predicate AtOrAfterCursor(w: int, h: int, cx: int, cy: int, i: int, j: int) {
    0 <= cx < w && 0 <= cy < h && (cy < j || (cy == j && cx <= i))
  }

  /** `Drawer.draw_image(img, pos)` with `pos = [x, y]`, as written: the
      `text` variable is set to `"  "` once, before the loops. */
  method DrawImageSticky(g: Grid, pos: seq<int>, padX: int, padY: int) returns (rows: seq<seq<Call>>)
    requires IsRect(g) && |pos| == 2
    ensures CellCalls(rows, g, padX, padY, (i, j) => AtOrAfterCursor(Width(g), |g|, pos[0], pos[1], i, j))
  {
    var w := Width(g);
    var h := |g|;
    var text := Blank;
    rows := [];
    var j := 0;
    while j < h
      invariant 0 <= j <= h && |rows| == j
      invariant text == (if 0 <= pos[0] < w && 0 <= pos[1] < h && pos[1] < j then Marker else Blank)
      invariant forall jj :: 0 <= jj < j ==> (|rows[jj]| == |g[jj]| &&
        forall i :: 0 <= i < |g[jj]| ==>
          rows[jj][i] == Call(Solid(g[jj][i]), CellAt(i, jj, padX, padY),
                              if AtOrAfterCursor(w, h, pos[0], pos[1], i, jj) then Marker else Blank, None))
    {
      var row := [];
      var i := 0;
      while i < w
        invariant 0 <= i <= w && |row| == i && |g[j]| == w
        invariant text == (if 0 <= pos[0] < w && 0 <= pos[1] < h && (pos[1] < j || (pos[1] == j && pos[0] < i))
                           then Marker else Blank)
        invariant forall ii :: 0 <= ii < i ==>
          row[ii] == Call(Solid(g[j][ii]), CellAt(ii, j, padX, padY),
                          if AtOrAfterCursor(w, h, pos[0], pos[1], ii, j) then Marker else Blank, None)
      {
        if i == pos[0] && j == pos[1] {
          text := Marker;
        }
        row := row + [Call(Solid(g[j][i]), CellAt(i, j, padX, padY), text, None)];
        i := i + 1;
      }
      rows := rows + [row];
      j := j + 1;
    }
  }

  /** How many cells of a row carry the marker. */
  function RowMarkers(row: seq<Call>): nat
    decreases |row|
  {
    if |row| == 0 then 0 else RowMarkers(row[..|row| - 1]) + (if row[|row| - 1].text == Marker then 1 else 0)
  }

  function Markers(rows: seq<seq<Call>>): nat
    decreases |rows|
  {
    if |rows| == 0 then 0 else Markers(rows[..|rows| - 1]) + RowMarkers(rows[|rows| - 1])
  }

  /** A row whose cells are marked exactly from column `from` on (for
      `from` in 0..|row|) carries `|row| - from` markers. */
  lemma {:induction false} RowMarkersFrom(row: seq<Call>, from: int)
    requires 0 <= from <= |row|
    requires forall i :: 0 <= i < |row| ==> (row[i].text == Marker <==> i >= from)
    ensures RowMarkers(row) == |row| - from
    decreases |row|
  {
    if |row| > 0 {
      var front := row[..|row| - 1];
      if from == |row| {
        RowMarkersFrom(front, from - 1);
        RowMarkersNone(front);
      } else {
        RowMarkersFrom(front, from);
      }
    }
  }

  lemma {:induction false} RowMarkersNone(row: seq<Call>)
    requires forall i :: 0 <= i < |row| ==> row[i].text != Marker
    ensures RowMarkers(row) == 0
    decreases |row|
  {
    if |row| > 0 {
      RowMarkersNone(row[..|row| - 1]);
    }
  }

  /** The reference draws exactly one marker, at the cursor, whenever the
      cursor is inside the image (which the editor keeps true). */
  lemma {:induction false} OneMarker(rows: seq<seq<Call>>, g: Grid, padX: int, padY: int, cursor: Pos)
    requires IsRect(g) && CellCalls(rows, g, padX, padY, (i, j) => AtCursor(cursor, i, j))
    requires InBounds(g, cursor.x, cursor.y)
    ensures Markers(rows) == 1
  {
    MarkersUpTo(rows, g, padX, padY, cursor, |g|);
    assert rows[..|g|] == rows;
  }

  lemma {:induction false} MarkersUpTo(rows: seq<seq<Call>>, g: Grid, padX: int, padY: int, cursor: Pos, n: int)
    requires IsRect(g) && CellCalls(rows, g, padX, padY, (i, j) => AtCursor(cursor, i, j))
    requires InBounds(g, cursor.x, cursor.y) && 0 <= n <= |g|
    ensures Markers(rows[..n]) == (if cursor.y < n then 1 else 0)
    decreases n
  {
    if n > 0 {
      MarkersUpTo(rows, g, padX, padY, cursor, n - 1);
      assert rows[..n][..n - 1] == rows[..n - 1];
      var row := rows[n - 1];
      if cursor.y == n - 1 {
        RowMarkersSingle(row, cursor.x);
      } else {
        RowMarkersNone(row);
      }
    }
  }

  lemma {:induction false} RowMarkersSingle(row: seq<Call>, at: int)
    requires 0 <= at < |row|
    requires forall i :: 0 <= i < |row| ==> (row[i].text == Marker <==> i == at)
    ensures RowMarkers(row) == 1
    decreases |row|
  {
    var front := row[..|row| - 1];
    if at == |row| - 1 {
      RowMarkersNone(front);
    } else {
      RowMarkersSingle(front, at);
    }
  }

  /** The pixely version marks every cell from the cursor to the end of the
      image: `h * w - (y * w + x)` markers instead of one. */
  lemma StickyMarkers(rows: seq<seq<Call>>, g: Grid, padX: int, padY: int, x: int, y: int)
    requires IsRect(g) && CellCalls(rows, g, padX, padY, (i, j) => AtOrAfterCursor(Width(g), |g|, x, y, i, j))
    requires InBounds(g, x, y)
    ensures Markers(rows) == (|g| - y) * Width(g) - x
  {
    StickyRows(rows, g, padX, padY, x, y);
    StickyUpTo(rows, Width(g), x, y, |g|);
    assert rows[..|g|] == rows;
  }

  /** How many markers row `j` of the pixely layout carries. */
  function StickyRowCount(w: int, x: int, y: int, j: int): int {
    if j < y then 0 else if j == y then w - x else w
  }

  lemma {:induction false} StickyUpTo(rows: seq<seq<Call>>, w: int, x: int, y: int, n: int)
    requires 0 <= y
    requires 0 <= n <= |rows|
    requires forall j :: 0 <= j < |rows| ==> RowMarkers(rows[j]) == StickyRowCount(w, x, y, j)
    ensures Markers(rows[..n]) == if n <= y then 0 else (n - y) * w - x
    decreases n
  {
    if n > 0 {
      StickyUpTo(rows, w, x, y, n - 1);
      assert rows[..n][..n - 1] == rows[..n - 1];
      assert Markers(rows[..n]) == Markers(rows[..n - 1]) + RowMarkers(rows[n - 1]);
      if n - 1 > y {
        MulStep(n - 1 - y, w);
      }
    }
  }

  lemma StickyRows(rows: seq<seq<Call>>, g: Grid, padX: int, padY: int, x: int, y: int)
    requires IsRect(g) && CellCalls(rows, g, padX, padY, (i, j) => AtOrAfterCursor(Width(g), |g|, x, y, i, j))
    requires InBounds(g, x, y)
    ensures forall j :: 0 <= j < |rows| ==> RowMarkers(rows[j]) == StickyRowCount(Width(g), x, y, j)
  {
    forall j | 0 <= j < |rows|
      ensures RowMarkers(rows[j]) == StickyRowCount(Width(g), x, y, j)
    {
      StickyRow(rows, g, padX, padY, x, y, j);
    }
  }

  /** Row `j` of the pixely layout: no markers before the cursor's row, the
      cells from the cursor on in its row, every cell after it. */
  lemma StickyRow(rows: seq<seq<Call>>, g: Grid, padX: int, padY: int, x: int, y: int, j: int)
    requires IsRect(g) && CellCalls(rows, g, padX, padY, (i, j) => AtOrAfterCursor(Width(g), |g|, x, y, i, j))
    requires InBounds(g, x, y) && 0 <= j < |g|
    ensures RowMarkers(rows[j]) == StickyRowCount(Width(g), x, y, j)
  {
    var w := Width(g);
    var row := rows[j];
    assert |row| == w;
    assert forall i :: 0 <= i < |row| ==> (row[i].text == Marker <==> AtOrAfterCursor(w, |g|, x, y, i, j));
    if j < y {
      RowMarkersNone(row);
    } else if j == y {
      RowMarkersFrom(row, x);
    } else {
      RowMarkersFrom(row, 0);
    }
  }

  lemma MulStep(a: int, w: int)
    ensures (a + 1) * w == a * w + w
  {
  }

  /** The smallest case that shows the difference: a 1x2 image with the
      cursor on the left pixel. The reference marks only that pixel; the
      pixely version marks the right one too. */
  lemma StickyMarkerExample()
    ensures var g := [[Color(250, 250, 250), Color(250, 250, 250)]];
      AtOrAfterCursor(Width(g), |g|, 0, 0, 1, 0) && !AtCursor(Pos(0, 0), 1, 0)
  {
  }

  /** The two versions agree on every cell at or before the cursor, and
      everywhere when the cursor is the last pixel. */
  lemma StickyAgreesUpToCursor(w: int, h: int, cx: int, cy: int, i: int, j: int)
    requires 0 <= cx < w && 0 <= cy < h && 0 <= i < w && 0 <= j < h
    requires j < cy || (j == cy && i <= cx) || (cx == w - 1 && cy == h - 1)
    ensures AtOrAfterCursor(w, h, cx, cy, i, j) == AtCursor(Pos(cx, cy), i, j)
  {
  }

  // ----- The box -----

  function Repeat(ch: char, n: nat): (s: string)
    ensures |s| == n && forall k :: 0 <= k < n ==> s[k] == ch
  {
    seq(n, _ => ch)
  }

  function BoxTop(w: nat): string {
    "╭" + Repeat('─', 2 * w) + "╮"
  }

  function BoxMid(w: nat): string {
    "│" + Repeat(' ', 2 * w) + "│"
  }

  function BoxBot(w: nat): string {
    "╰" + Repeat('─', 2 * w) + "╯"
  }

  /** `draw_image_box(img)`: a top line at row `6 + padding_y`, one middle
      line per image row, and a bottom line, all transparent, in the edge
      colour, from column `1 + padding_x`. */
  function DrawImageBox(g: Grid, padX: int, padY: int, edge: Color): (calls: seq<Call>)
    ensures |calls| == |g| + 2
    ensures forall k :: 0 <= k < |calls| ==>
      calls[k].bg == Transparent && calls[k].textcolor == Some(edge) &&
      calls[k].at == Pos(1 + padX, OffsetY + padY + k) && |calls[k].text| == 2 * Width(g) + 2
    ensures calls[0].text == BoxTop(Width(g)) && calls[|g| + 1].text == BoxBot(Width(g))
    ensures forall k :: 1 <= k <= |g| ==> calls[k].text == BoxMid(Width(g))
  {
    var w := Width(g);
    [Call(Transparent, Pos(1 + padX, OffsetY + padY), BoxTop(w), Some(edge))] +
    seq(|g|, i => Call(Transparent, Pos(1 + padX, OffsetY + padY + 1 + i), BoxMid(w), Some(edge))) +
    [Call(Transparent, Pos(1 + padX, OffsetY + padY + 1 + |g|), BoxBot(w), Some(edge))]
  }

  /** The box each version draws: light grey (200, 200, 200) in the reference
      and pixely versions, dark grey (77, 77, 77) in the older main.py. */
  function VersionBox(v: Variant, g: Grid, padX: int, padY: int): (calls: seq<Call>)
    ensures |calls| == |g| + 2
    ensures forall k :: 0 <= k < |calls| ==>
      calls[k].bg == Transparent &&
      calls[k].textcolor == Some(if v == Legacy then Color(77, 77, 77) else Color(200, 200, 200))
  {
    DrawImageBox(g, padX, padY, EdgeColor(v))
  }

  /** The box frames the cells: every pixel's two columns lie strictly
      between the box's left and right borders, on the row of the box's
      middle line for that image row, strictly between its top and bottom
      lines. */
  lemma BoxEnclosesCells(g: Grid, padX: int, padY: int, edge: Color, i: int, j: int)
    requires IsRect(g) && InBounds(g, i, j)
    ensures var box := DrawImageBox(g, padX, padY, edge);
      var cell := CellAt(i, j, padX, padY);
      var left := box[0].at.x;
      var right := left + |box[0].text| - 1;
      left < cell.x && cell.x + 1 < right &&
      box[0].at.y < cell.y < box[|g| + 1].at.y &&
      box[j + 1].at.y == cell.y && box[j + 1].text == BoxMid(Width(g))
  {
    var box := DrawImageBox(g, padX, padY, edge);
    assert box[0].at == Pos(1 + padX, OffsetY + padY);
    assert box[j + 1].at == Pos(1 + padX, OffsetY + padY + j + 1);
    assert box[|g| + 1].at == Pos(1 + padX, OffsetY + padY + |g| + 1);
    assert |box[0].text| == 2 * Width(g) + 2;
    assert |g[j]| == Width(g);
  }

  /** Neighbouring pixels are two columns apart, so no two cells overlap. */
  lemma CellsDisjoint(i1: int, j1: int, i2: int, j2: int, padX: int, padY: int)
    requires (i1, j1) != (i2, j2)
    ensures var a := CellAt(i1, j1, padX, padY); var b := CellAt(i2, j2, padX, padY);
      a.y != b.y || a.x + 1 < b.x || b.x + 1 < a.x
  {
  }

  // ----- Padding -----

  function Max(a: int, b: int): int {
    if a >= b then a else b
  }

  /** The horizontal padding for a terminal `cols` wide and an image `w`
      pixels wide. Python's `//` floors, as Dafny's `/` does for a positive
      divisor. cmdpxl/main.py centres at least 48 columns; the pixely
      version centres the image alone; the older main.py keeps 1. */
  function PaddingX(v: Variant, cols: int, w: int): int {
    match v
    case Reference => (cols - Max(48, w * 2)) / 2
    case Pixely => (cols - w * 2) / 2
    case Legacy => 1
  }

  /** The padding centres an area of `m` columns (the image, at least 48
      columns wide in the reference): the margins on its two sides differ
      by at most one column, the odd one going to the right. */
  lemma PaddingCentres(v: Variant, cols: int, w: int)
    requires v != Legacy
    ensures var m := if v == Reference then Max(48, w * 2) else w * 2;
      var left := PaddingX(v, cols, w);
      var right := cols - m - left;
      left <= right <= left + 1
  {
  }

  /** The two responsive versions agree for images at least 24 pixels wide;
      for narrower images the reference sits `24 - w` columns further left. */
  lemma PaddingVersions(cols: int, w: int)
    ensures w >= 24 ==> PaddingX(Reference, cols, w) == PaddingX(Pixely, cols, w)
    ensures w < 24 ==> PaddingX(Reference, cols, w) == PaddingX(Pixely, cols, w) - (24 - w)
  {
  }
}
