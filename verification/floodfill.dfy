/** The recursive 4-neighbour flood fill of cmdpxl/main.py and of the pixely
    Drawer. Each call paints its origin, then visits the neighbours above,
    below, left and right in that order, recursing into every one that still
    has the original colour and not yet the fill colour. The recursion works
    on a copy and threads the returned grid on, so it is a pure function. */
module FloodFill {
  import opened Datatypes
  import opened Grids

  /** The source's recursion guard on a neighbour's current colour. */
  predicate Open(v: Color, c: Color, o: Color) {
    v == o && v != c
  }

  function RowOpen(row: seq<Color>, c: Color, o: Color): nat
    decreases |row|
  {
    if |row| == 0 then 0 else (if Open(row[0], c, o) then 1 else 0) + RowOpen(row[1..], c, o)
  }

  /** How many pixels the guard would still let the fill enter. */
  function OpenCount(g: Grid, c: Color, o: Color): nat
    decreases |g|
  {
    if |g| == 0 then 0 else RowOpen(g[0], c, o) + OpenCount(g[1..], c, o)
  }

  lemma {:induction false} RowOpenUpdate(row: seq<Color>, i: int, v: Color, c: Color, o: Color)
    requires 0 <= i < |row|
    ensures RowOpen(row[i := v], c, o) + (if Open(row[i], c, o) then 1 else 0)
         == RowOpen(row, c, o) + (if Open(v, c, o) then 1 else 0)
    decreases |row|
  {
    if i == 0 {
      assert row[i := v][1..] == row[1..];
    } else {
      assert row[i := v][1..] == row[1..][i - 1 := v];
      RowOpenUpdate(row[1..], i - 1, v, c, o);
    }
  }

  /** Replacing one pixel changes the count by exactly what that pixel
      contributed before and after. */
  lemma {:induction false} OpenCountUpdate(g: Grid, x: int, y: int, v: Color, c: Color, o: Color)
    requires 0 <= y < |g| && 0 <= x < |g[y]|
    ensures OpenCount(g[y := g[y][x := v]], c, o) + (if Open(g[y][x], c, o) then 1 else 0)
         == OpenCount(g, c, o) + (if Open(v, c, o) then 1 else 0)
    decreases |g|
  {
    var h := g[y := g[y][x := v]];
    if y == 0 {
      assert h[1..] == g[1..];
      RowOpenUpdate(g[0], x, v, c, o);
    } else {
      assert h[1..] == g[1..][y - 1 := g[1..][y - 1][x := v]];
      OpenCountUpdate(g[1..], x, y - 1, v, c, o);
    }
  }

  /** The neighbours in visiting order: above, below, left, right. */
  function Neighbours(x: int, y: int): seq<(int, int)> {
    [(x, y - 1), (x, y + 1), (x - 1, y), (x + 1, y)]
  }

  /** The fill moves on to (nx, ny) when it is inside the image and passes
      the guard. */
  predicate Spreads(g: Grid, nx: int, ny: int, c: Color, o: Color) {
    InBounds(g, nx, ny) && Open(g[ny][nx], c, o)
  }

  /** `flood_fill(fill_pos, img, fill_color, original_color)`. */
  function Fill(g: Grid, x: int, y: int, c: Color, o: Color): (r: Grid)
    requires IsRect(g) && InBounds(g, x, y)
    ensures SameShape(r, g) && IsRect(r) && Width(r) == Width(g)
    ensures OpenCount(r, c, o) <= OpenCount(g, c, o)
    decreases OpenCount(g, c, o), if Open(g[y][x], c, o) then 0 else 1
  {
    var g0 := SetCell(g, x, y, c);
    OpenCountUpdate(g, x, y, c, c, o);
    SameShapeKeepsRect(g, g0);
    var g1 := if Spreads(g0, x, y - 1, c, o) then Fill(g0, x, y - 1, c, o) else g0;
    var g2 := if Spreads(g1, x, y + 1, c, o) then Fill(g1, x, y + 1, c, o) else g1;
    var g3 := if Spreads(g2, x - 1, y, c, o) then Fill(g2, x - 1, y, c, o) else g2;
    if Spreads(g3, x + 1, y, c, o) then Fill(g3, x + 1, y, c, o) else g3
  }

  /** Every pixel keeps its colour or turns from `o` into `c`. */
  ghost predicate Grows(a: Grid, b: Grid, c: Color, o: Color) {
    SameShape(a, b) &&
    forall j, i :: 0 <= j < |a| && 0 <= i < |a[j]| ==>
      b[j][i] == a[j][i] || (a[j][i] == o && b[j][i] == c)
  }

  /** (nx, ny) is outside the image or not of colour `o`. */
  predicate NotOriginal(b: Grid, nx: int, ny: int, o: Color) {
    InBounds(b, nx, ny) ==> b[ny][nx] != o
  }

  /** No 4-neighbour of (x, y) inside the image still has colour `o`. */
  predicate Blocked(b: Grid, x: int, y: int, o: Color) {
    NotOriginal(b, x, y - 1, o) && NotOriginal(b, x, y + 1, o) &&
    NotOriginal(b, x - 1, y, o) && NotOriginal(b, x + 1, y, o)
  }

  /** Every pixel that changed from `a` to `b` has no neighbour of colour `o` left. */
  ghost predicate Sealed(a: Grid, b: Grid, o: Color) {
    SameShape(a, b) &&
    forall j, i :: 0 <= j < |a| && 0 <= i < |a[j]| && b[j][i] != a[j][i] ==> Blocked(b, i, j, o)
  }

  ghost predicate StepOk(a: Grid, b: Grid, c: Color, o: Color) {
    Grows(a, b, c, o) && (c != o ==> Sealed(a, b, o))
  }

  /** Once a pixel is not `o`, a growing step keeps it so. */
  lemma GrowsKeepsBlocked(b: Grid, d: Grid, c: Color, o: Color, x: int, y: int)
    requires IsRect(b) && Grows(b, d, c, o) && c != o && Blocked(b, x, y, o)
    ensures Blocked(d, x, y, o)
  {
    SameShapeKeepsRect(b, d);
  }

  lemma StepOkCompose(a: Grid, b: Grid, d: Grid, c: Color, o: Color)
    requires IsRect(a) && StepOk(a, b, c, o) && StepOk(b, d, c, o)
    ensures StepOk(a, d, c, o)
  {
    SameShapeKeepsRect(a, b);
    if c != o {
      forall j, i | 0 <= j < |a| && 0 <= i < |a[j]| && d[j][i] != a[j][i]
        ensures Blocked(d, i, j, o)
      {
        if b[j][i] != a[j][i] {
          GrowsKeepsBlocked(b, d, c, o, i, j);
        }
      }
    }
  }

  lemma GrowsTrans(a: Grid, b: Grid, d: Grid, c: Color, o: Color)
    requires Grows(a, b, c, o) && Grows(b, d, c, o)
    ensures Grows(a, d, c, o)
  {
  }

  lemma StepOkRefl(a: Grid, c: Color, o: Color)
    ensures StepOk(a, a, c, o)
  {
  }

  /** One visit of a neighbour keeps the fill's step contract, and leaves
      the neighbour not of colour `o` (when `c != o`). */
  lemma {:induction false} VisitOk(a: Grid, nx: int, ny: int, c: Color, o: Color)
    requires IsRect(a)
    ensures StepOk(a, Visit(a, nx, ny, c, o), c, o)
    ensures c != o ==> NotOriginal(Visit(a, nx, ny, c, o), nx, ny, o)
    decreases OpenCount(a, c, o), 1
  {
    if Spreads(a, nx, ny, c, o) {
      FillFacts(a, nx, ny, c, o);
    } else {
      StepOkRefl(a, c, o);
    }
  }

  /** The contract of one fill call started on a pixel of the original
      colour, which is how every call in the source is made: the origin ends
      as `c`, every pixel either keeps its colour or turns from `o` into `c`,
      and (when `c != o`) every changed pixel has no neighbour of colour `o`
      left. */
  lemma {:induction false} FillFacts(g: Grid, x: int, y: int, c: Color, o: Color)
    requires IsRect(g) && InBounds(g, x, y) && g[y][x] == o
    ensures Fill(g, x, y, c, o)[y][x] == c
    ensures StepOk(g, Fill(g, x, y, c, o), c, o)
    decreases OpenCount(g, c, o), if Open(g[y][x], c, o) then 0 else 2
  {
    var g0 := SetCell(g, x, y, c);
    OpenCountUpdate(g, x, y, c, c, o);
    SameShapeKeepsRect(g, g0);
    var g1 := Visit(g0, x, y - 1, c, o);
    VisitOk(g0, x, y - 1, c, o);
    var g2 := Visit(g1, x, y + 1, c, o);
    VisitOk(g1, x, y + 1, c, o);
    var g3 := Visit(g2, x - 1, y, c, o);
    VisitOk(g2, x - 1, y, c, o);
    var g4 := Visit(g3, x + 1, y, c, o);
    VisitOk(g3, x + 1, y, c, o);
    FillUnfold(g, x, y, c, o);
    Assemble(g, g0, g1, g2, g3, g4, x, y, c, o);
  }

  /** Putting one call together: painting the origin, then four visits. */
  lemma Assemble(g: Grid, g0: Grid, g1: Grid, g2: Grid, g3: Grid, g4: Grid,
                 x: int, y: int, c: Color, o: Color)
    requires IsRect(g) && InBounds(g, x, y) && g[y][x] == o
    requires g0 == SetCell(g, x, y, c)
    requires StepOk(g0, g1, c, o) && StepOk(g1, g2, c, o)
    requires StepOk(g2, g3, c, o) && StepOk(g3, g4, c, o)
    requires c != o ==> NotOriginal(g1, x, y - 1, o) && NotOriginal(g2, x, y + 1, o) &&
                        NotOriginal(g3, x - 1, y, o) && NotOriginal(g4, x + 1, y, o)
    ensures g4[y][x] == c
    ensures StepOk(g, g4, c, o)
  {
    SameShapeKeepsRect(g, g0);
    SameShapeKeepsRect(g0, g1);
    SameShapeKeepsRect(g1, g2);
    SameShapeKeepsRect(g2, g3);
    StepOkCompose(g2, g3, g4, c, o);
    StepOkCompose(g1, g2, g4, c, o);
    StepOkCompose(g0, g1, g4, c, o);
    assert Grows(g, g0, c, o);
    GrowsTrans(g, g0, g4, c, o);
    if c != o {
      GrowsKeepsNotOriginal(g1, g4, c, o, x, y - 1);
      GrowsKeepsNotOriginal(g2, g4, c, o, x, y + 1);
      GrowsKeepsNotOriginal(g3, g4, c, o, x - 1, y);
      assert Blocked(g4, x, y, o);
      forall j, i | 0 <= j < |g| && 0 <= i < |g[j]| && g4[j][i] != g[j][i]
        ensures Blocked(g4, i, j, o)
      {
        if i != x || j != y {
          assert g0[j][i] == g[j][i];
        }
      }
    }
  }

  lemma GrowsKeepsNotOriginal(b: Grid, d: Grid, c: Color, o: Color, nx: int, ny: int)
    requires IsRect(b) && Grows(b, d, c, o) && c != o && NotOriginal(b, nx, ny, o)
    ensures NotOriginal(d, nx, ny, o)
  {
    SameShapeKeepsRect(b, d);
  }

  /** 4-adjacency: `q` is one of the neighbours the fill visits from `p`. */
  predicate Adjacent(p: (int, int), q: (int, int)) {
    q in Neighbours(p.0, p.1)
  }

  /** A walk of adjacent in-bounds cells, every one of colour `o` in `g`. */
  ghost predicate OriginalPath(g: Grid, path: seq<(int, int)>, o: Color) {
    (forall k :: 0 <= k < |path| ==> InBounds(g, path[k].0, path[k].1) && g[path[k].1][path[k].0] == o) &&
    (forall k :: 0 < k < |path| ==> Adjacent(path[k - 1], path[k]))
  }

  /** `q` is connected to `p` through pixels of colour `o`. */
  ghost predicate Reaches(g: Grid, o: Color, p: (int, int), q: (int, int)) {
    exists path :: |path| > 0 && path[0] == p && path[|path| - 1] == q && OriginalPath(g, path, o)
  }

  /** Every pixel that changed from `a` to `b` is connected to `p`. */
  ghost predicate Confined(a: Grid, b: Grid, o: Color, p: (int, int)) {
    SameShape(a, b) &&
    forall j, i :: 0 <= j < |a| && 0 <= i < |a[j]| && b[j][i] != a[j][i] ==> Reaches(a, o, p, (i, j))
  }

  /** A connection found in a later grid, started next to `p`, is a
      connection from `p` in the earlier grid: the later grid's `o` pixels
      were already `o`. */
  lemma ReachesLift(g: Grid, a: Grid, c: Color, o: Color, p: (int, int), n: (int, int), q: (int, int))
    requires Grows(g, a, c, o) && c != o
    requires InBounds(g, p.0, p.1) && g[p.1][p.0] == o && Adjacent(p, n)
    requires Reaches(a, o, n, q)
    ensures Reaches(g, o, p, q)
  {
    var path: seq<(int, int)> :| |path| > 0 && path[0] == n && path[|path| - 1] == q && OriginalPath(a, path, o);
    var longer := [p] + path;
    forall k | 0 <= k < |path|
      ensures InBounds(g, path[k].0, path[k].1) && g[path[k].1][path[k].0] == o
    {
      assert InBounds(a, path[k].0, path[k].1) && a[path[k].1][path[k].0] == o;
    }
    assert longer[|longer| - 1] == q;
    assert OriginalPath(g, longer, o);
  }

  lemma AssembleConfined(g: Grid, g0: Grid, g1: Grid, g2: Grid, g3: Grid, g4: Grid,
                         x: int, y: int, c: Color, o: Color)
    requires IsRect(g) && InBounds(g, x, y) && g[y][x] == o
    requires g0 == SetCell(g, x, y, c)
    requires Grows(g0, g1, c, o) && Grows(g1, g2, c, o)
    requires Grows(g2, g3, c, o) && Grows(g3, g4, c, o)
    requires Confined(g0, g1, o, (x, y - 1)) && Confined(g1, g2, o, (x, y + 1))
    requires Confined(g2, g3, o, (x - 1, y)) && Confined(g3, g4, o, (x + 1, y))
    ensures Confined(g, g4, o, (x, y))
  {
    assert Grows(g, g0, c, o);
    GrowsTrans(g, g0, g1, c, o);
    GrowsTrans(g, g1, g2, c, o);
    GrowsTrans(g, g2, g3, c, o);
    forall j, i | 0 <= j < |g| && 0 <= i < |g[j]| && g4[j][i] != g[j][i]
      ensures Reaches(g, o, (x, y), (i, j))
    {
      if i == x && j == y {
        var path := [(x, y)];
        assert OriginalPath(g, path, o);
      } else {
        assert g0[j][i] == g[j][i];
        if g1[j][i] != g0[j][i] {
          ReachesLift(g, g0, c, o, (x, y), (x, y - 1), (i, j));
        } else if g2[j][i] != g1[j][i] {
          ReachesLift(g, g1, c, o, (x, y), (x, y + 1), (i, j));
        } else if g3[j][i] != g2[j][i] {
          ReachesLift(g, g2, c, o, (x, y), (x - 1, y), (i, j));
        } else {
          ReachesLift(g, g3, c, o, (x, y), (x + 1, y), (i, j));
        }
      }
    }
  }

  /** One visit of neighbour (nx, ny): a recursive fill when the guard
      lets it through, nothing otherwise. */
  function Visit(a: Grid, nx: int, ny: int, c: Color, o: Color): (b: Grid)
    requires IsRect(a)
    ensures SameShape(b, a) && IsRect(b)
    ensures OpenCount(b, c, o) <= OpenCount(a, c, o)
  {
    if Spreads(a, nx, ny, c, o) then Fill(a, nx, ny, c, o) else a
  }

  /** A fill is the origin's repaint followed by the four visits in order. */
  lemma FillUnfold(g: Grid, x: int, y: int, c: Color, o: Color)
    requires IsRect(g) && InBounds(g, x, y)
    ensures var g0 := SetCell(g, x, y, c);
      var g1 := Visit(g0, x, y - 1, c, o);
      var g2 := Visit(g1, x, y + 1, c, o);
      var g3 := Visit(g2, x - 1, y, c, o);
      Fill(g, x, y, c, o) == Visit(g3, x + 1, y, c, o)
  {
    SameShapeKeepsRect(g, SetCell(g, x, y, c));
  }

  /** No pixel outside the origin's region changes: every pixel the fill
      recolours is connected to the origin through pixels of the original
      colour. */
  lemma {:induction false} FillConfined(g: Grid, x: int, y: int, c: Color, o: Color)
    requires IsRect(g) && InBounds(g, x, y) && g[y][x] == o
    ensures Confined(g, Fill(g, x, y, c, o), o, (x, y))
    decreases OpenCount(g, c, o), if Open(g[y][x], c, o) then 0 else 2
  {
    var g0 := SetCell(g, x, y, c);
    OpenCountUpdate(g, x, y, c, c, o);
    SameShapeKeepsRect(g, g0);
    var g1 := Visit(g0, x, y - 1, c, o);
    VisitConfined(g0, x, y - 1, c, o);
    var g2 := Visit(g1, x, y + 1, c, o);
    VisitConfined(g1, x, y + 1, c, o);
    var g3 := Visit(g2, x - 1, y, c, o);
    VisitConfined(g2, x - 1, y, c, o);
    var g4 := Visit(g3, x + 1, y, c, o);
    VisitConfined(g3, x + 1, y, c, o);
    FillUnfold(g, x, y, c, o);
    AssembleConfined(g, g0, g1, g2, g3, g4, x, y, c, o);
  }

  /** One visit of a neighbour inside a fill changes only pixels connected to
      that neighbour, and only from `o` to `c`. */
  lemma {:induction false} VisitConfined(a: Grid, nx: int, ny: int, c: Color, o: Color)
    requires IsRect(a)
    ensures Grows(a, Visit(a, nx, ny, c, o), c, o) && Confined(a, Visit(a, nx, ny, c, o), o, (nx, ny))
    decreases OpenCount(a, c, o), 1
  {
    if Spreads(a, nx, ny, c, o) {
      FillFacts(a, nx, ny, c, o);
      FillConfined(a, nx, ny, c, o);
    }
  }

  /** Walking a path of original-colour pixels from the origin, each pixel of
      the filled grid has the fill colour. */
  lemma {:induction false} PathFilled(g: Grid, r: Grid, path: seq<(int, int)>, c: Color, o: Color, k: nat)
    requires IsRect(g) && StepOk(g, r, c, o)
    requires OriginalPath(g, path, o) && k < |path|
    requires r[path[0].1][path[0].0] == c
    ensures r[path[k].1][path[k].0] == c
    decreases k
  {
    if k > 0 {
      PathFilled(g, r, path, c, o, k - 1);
      var (px, py) := path[k - 1];
      var (qx, qy) := path[k];
      if c != o {
        assert r[py][px] != g[py][px];
        assert Blocked(r, px, py, o);
        assert Adjacent(path[k - 1], path[k]);
        assert NotOriginal(r, qx, qy, o);
      }
    }
  }

  /** After a fill at (x, y), every pixel connected to the origin through
      pixels of the origin's original colour has the fill colour. */
  lemma FillCoversRegion(g: Grid, x: int, y: int, c: Color, path: seq<(int, int)>)
    requires IsRect(g) && InBounds(g, x, y)
    requires |path| > 0 && path[0] == (x, y) && OriginalPath(g, path, g[y][x])
    ensures forall k :: 0 <= k < |path| ==>
      Fill(g, x, y, c, g[y][x])[path[k].1][path[k].0] == c
  {
    var o := g[y][x];
    FillFacts(g, x, y, c, o);
    forall k | 0 <= k < |path|
      ensures Fill(g, x, y, c, o)[path[k].1][path[k].0] == c
    {
      PathFilled(g, Fill(g, x, y, c, o), path, c, o, k);
    }
  }

  /** The whole contract of a top-level fill (the origin's own colour as the
      original colour): the grid keeps its shape, the origin gets the fill
      colour, a pixel that changes was of the original colour and becomes the
      fill colour, and it is connected to the origin through such pixels. */
  lemma FillContract(g: Grid, x: int, y: int, c: Color)
    requires IsRect(g) && InBounds(g, x, y)
    ensures var r := Fill(g, x, y, c, g[y][x]);
      SameShape(r, g) && r[y][x] == c &&
      (forall j, i :: 0 <= j < |g| && 0 <= i < |g[j]| && r[j][i] != g[j][i] ==>
         g[j][i] == g[y][x] && r[j][i] == c && Reaches(g, g[y][x], (x, y), (i, j)))
  {
    FillFacts(g, x, y, c, g[y][x]);
    FillConfined(g, x, y, c, g[y][x]);
  }

  /** Filling with the colour the origin already has changes nothing. */
  lemma FillNoOp(g: Grid, x: int, y: int)
    requires IsRect(g) && InBounds(g, x, y)
    ensures Fill(g, x, y, g[y][x], g[y][x]) == g
  {
    var o := g[y][x];
    SetCellSame(g, x, y);
    assert SetCell(g, x, y, o) == g;
    assert !Spreads(g, x, y - 1, o, o) && !Spreads(g, x, y + 1, o, o);
    assert !Spreads(g, x - 1, y, o, o) && !Spreads(g, x + 1, y, o, o);
  }

  /** The neighbour list of cmdpxl/main.py, built as `Pos(row, column)`. */
  function PosNeighbours(p: Pos): seq<Pos> {
    [Pos(p.y - 1, p.x), Pos(p.y + 1, p.x), Pos(p.y, p.x - 1), Pos(p.y, p.x + 1)]
  }

  /** The neighbour list of the pixely Drawer, built as `[row, column]`
      from `pos = [x, y]`. */
  function ListNeighbours(pos: seq<int>): seq<seq<int>>
    requires |pos| == 2
  {
    [[pos[1] - 1, pos[0]], [pos[1] + 1, pos[0]], [pos[1], pos[0] - 1], [pos[1], pos[0] + 1]]
  }

  /** Unpacking each entry as `i, j` and recursing at `Pos(j, i)` (or at
      `[j, i]`) visits exactly `Neighbours`, in the same order, in both
      versions: the row/column swap in the lists is undone by the swap in
      the recursive call. */
  lemma NeighbourListsAgree(p: Pos)
    ensures forall k :: 0 <= k < 4 ==>
      var (i, j) := PosPair(PosNeighbours(p)[k]);
      (j, i) == Neighbours(p.x, p.y)[k]
    ensures forall k :: 0 <= k < 4 ==>
      var n := ListNeighbours([p.x, p.y])[k];
      |n| == 2 && (n[1], n[0]) == Neighbours(p.x, p.y)[k]
  {
  }

  /** A fill started on any pixel keeps its step contract whenever that
      pixel has the original colour, which is how every call is made. */
  lemma FillFrom(g: Grid, x: int, y: int, c: Color, o: Color)
    requires IsRect(g) && InBounds(g, x, y)
    ensures g[y][x] == o ==> Fill(g, x, y, c, o)[y][x] == c && StepOk(g, Fill(g, x, y, c, o), c, o)
    ensures g[y][x] == o ==> Confined(g, Fill(g, x, y, c, o), o, (x, y))
  {
    if g[y][x] == o {
      FillFacts(g, x, y, c, o);
      FillConfined(g, x, y, c, o);
    }
  }

  /** Every path of original-colour pixels from the origin ends on a pixel
      the fill recoloured. */
  lemma FillCoversPaths(g: Grid, x: int, y: int, c: Color)
    requires IsRect(g) && InBounds(g, x, y)
    ensures forall path: seq<(int, int)> :: |path| > 0 && path[0] == (x, y) && OriginalPath(g, path, g[y][x]) ==>
      Fill(g, x, y, c, g[y][x])[path[|path| - 1].1][path[|path| - 1].0] == c
  {
    forall path: seq<(int, int)> | |path| > 0 && path[0] == (x, y) && OriginalPath(g, path, g[y][x])
      ensures Fill(g, x, y, c, g[y][x])[path[|path| - 1].1][path[|path| - 1].0] == c
    {
      FillCoversRegion(g, x, y, c, path);
    }
  }

  /** The fill as the editor starts it on key `f`: at the cursor, with the
      cursor pixel's colour copied before anything is painted as the
      original colour. */
  function FillAt(g: Grid, p: Pos, c: Color): (r: Grid)
    requires IsRect(g) && InBounds(g, p.x, p.y)
    ensures SameShape(r, g) && IsRect(r) && r[p.y][p.x] == c
    ensures forall j, i :: 0 <= j < |g| && 0 <= i < |g[j]| && r[j][i] != g[j][i] ==>
      g[j][i] == g[p.y][p.x] && r[j][i] == c && Reaches(g, g[p.y][p.x], (p.x, p.y), (i, j))
    ensures forall path: seq<(int, int)> :: |path| > 0 && path[0] == (p.x, p.y) && OriginalPath(g, path, g[p.y][p.x]) ==>
      r[path[|path| - 1].1][path[|path| - 1].0] == c
    ensures c == g[p.y][p.x] ==> r == g
  {
    FillContract(g, p.x, p.y, c);
    FillCoversPaths(g, p.x, p.y, c);
    FillNoOp(g, p.x, p.y);
    Fill(g, p.x, p.y, c, g[p.y][p.x])
  }

  /** `Drawer.flood_fill(pos, img, color, original_color)` with `pos = [x, y]`:
      paint the origin, then run through `ListNeighbours(pos)` in order. */
  function ListFill(g: Grid, pos: seq<int>, c: Color, o: Color): (r: Grid)
    requires |pos| == 2 && IsRect(g) && InBounds(g, pos[0], pos[1])
    ensures SameShape(r, g) && IsRect(r)
    ensures OpenCount(r, c, o) <= OpenCount(g, c, o)
    decreases OpenCount(g, c, o), if Open(g[pos[1]][pos[0]], c, o) then 0 else 1, 0
  {
    var g0 := SetCell(g, pos[0], pos[1], c);
    OpenCountUpdate(g, pos[0], pos[1], c, c, o);
    ListVisits(g0, ListNeighbours(pos), 0, c, o)
  }

  /** The `for i, j in neighbors` loop from entry `k` on, each iteration
      working on the image the previous one returned. */
  function ListVisits(a: Grid, ns: seq<seq<int>>, k: nat, c: Color, o: Color): (r: Grid)
    requires IsRect(a) && k <= |ns|
    requires forall m :: 0 <= m < |ns| ==> |ns[m]| == 2
    ensures SameShape(r, a) && IsRect(r)
    ensures OpenCount(r, c, o) <= OpenCount(a, c, o)
    decreases OpenCount(a, c, o), 0, |ns| - k + 2
  {
    if k == |ns| then a
    else
      var a' := ListStep(a, ns[k], c, o);
      SameShapeKeepsRect(a, a');
      ListVisits(a', ns, k + 1, c, o)
  }

  /** One iteration: entry `[i, j]` is row `i`, column `j`; the guard checks
      both bounds against the shape and the two colour tests, and the
      recursion starts at `[j, i]`. */
  function ListStep(a: Grid, n: seq<int>, c: Color, o: Color): (r: Grid)
    requires IsRect(a) && |n| == 2
    ensures SameShape(r, a) && IsRect(r)
    ensures OpenCount(r, c, o) <= OpenCount(a, c, o)
    decreases OpenCount(a, c, o), 0, 1
  {
    var i, j := n[0], n[1];
    if i >= 0 && j >= 0 && i < Height(a) && j < Width(a) && a[i][j] == o && a[i][j] != c then
      ListFill(a, [j, i], c, o)
    else a
  }

  /** One iteration of the pixely loop on entry `[i, j]` is the reference
      fill's visit of (j, i). */
  lemma {:induction false} ListStepIsVisit(a: Grid, i: int, j: int, c: Color, o: Color)
    requires IsRect(a)
    ensures ListStep(a, [i, j], c, o) == Visit(a, j, i, c, o)
    decreases OpenCount(a, c, o), 0, 1
  {
    if Spreads(a, j, i, c, o) {
      ListFillIsFill(a, j, i, c, o);
    }
  }

  /** The pixely recursion computes the reference fill: the row/column
      order of its neighbour lists is undone by the `[j, i]` of its
      recursive call, so it visits the same neighbours in the same order
      and on the same intermediate images. */
  lemma {:induction false} ListFillIsFill(g: Grid, x: int, y: int, c: Color, o: Color)
    requires IsRect(g) && InBounds(g, x, y)
    ensures ListFill(g, [x, y], c, o) == Fill(g, x, y, c, o)
    decreases OpenCount(g, c, o), if Open(g[y][x], c, o) then 0 else 1, 0
  {
    var ns := ListNeighbours([x, y]);
    var g0 := SetCell(g, x, y, c);
    OpenCountUpdate(g, x, y, c, c, o);
    assert ListFill(g, [x, y], c, o) == ListVisits(g0, ns, 0, c, o);
    ListVisitsFour(g0, ns, c, o);
    var g1 := Visit(g0, x, y - 1, c, o);
    ListStepIsVisit(g0, y - 1, x, c, o);
    var g2 := Visit(g1, x, y + 1, c, o);
    ListStepIsVisit(g1, y + 1, x, c, o);
    var g3 := Visit(g2, x - 1, y, c, o);
    ListStepIsVisit(g2, y, x - 1, c, o);
    ListStepIsVisit(g3, y, x + 1, c, o);
    FillUnfold(g, x, y, c, o);
  }

  /** One turn of the pixely loop. */
  lemma ListVisitsUnfold(a: Grid, ns: seq<seq<int>>, k: nat, c: Color, o: Color)
    requires IsRect(a) && k < |ns|
    requires forall m :: 0 <= m < |ns| ==> |ns[m]| == 2
    ensures ListVisits(a, ns, k, c, o) == ListVisits(ListStep(a, ns[k], c, o), ns, k + 1, c, o)
  {
  }

  /** The pixely loop over four neighbours is four turns in a row. */
  lemma ListVisitsFour(a: Grid, ns: seq<seq<int>>, c: Color, o: Color)
    requires IsRect(a) && |ns| == 4
    requires forall m :: 0 <= m < |ns| ==> |ns[m]| == 2
    ensures var a1 := ListStep(a, ns[0], c, o);
      var a2 := ListStep(a1, ns[1], c, o);
      var a3 := ListStep(a2, ns[2], c, o);
      ListVisits(a, ns, 0, c, o) == ListStep(a3, ns[3], c, o)
  {
    var a1 := ListStep(a, ns[0], c, o);
    var a2 := ListStep(a1, ns[1], c, o);
    var a3 := ListStep(a2, ns[2], c, o);
    ListVisitsUnfold(a, ns, 0, c, o);
    ListVisitsUnfold(a1, ns, 1, c, o);
    ListVisitsUnfold(a2, ns, 2, c, o);
    ListVisitsUnfold(a3, ns, 3, c, o);
  }

  /** The pixely fill carries the reference fill's contract: it paints an
      origin of the original colour, changes only original-colour pixels
      connected to the origin, and leaves no original-colour neighbour
      beside a painted pixel. */
  lemma ListFillContract(g: Grid, pos: seq<int>, c: Color, o: Color)
    requires |pos| == 2 && IsRect(g) && InBounds(g, pos[0], pos[1])
    ensures var r := ListFill(g, pos, c, o);
      g[pos[1]][pos[0]] == o ==> r[pos[1]][pos[0]] == c && StepOk(g, r, c, o) && Confined(g, r, o, (pos[0], pos[1]))
  {
    assert pos == [pos[0], pos[1]];
    ListFillIsFill(g, pos[0], pos[1], c, o);
    FillFrom(g, pos[0], pos[1], c, o);
  }

  /** The pixely editor's fill at `POSITION = [x, y]`, with the cursor
      pixel's colour as the original, is the reference editor's fill at the
      cursor. */
  lemma ListFillAgrees(g: Grid, p: Pos, c: Color)
    requires IsRect(g) && InBounds(g, p.x, p.y)
    ensures ListFill(g, [p.x, p.y], c, g[p.y][p.x]) == FillAt(g, p, c)
  {
    ListFillIsFill(g, p.x, p.y, c, g[p.y][p.x]);
  }

  /** One step from `p` towards `q`: along the row first, then the column. */
  function Toward(p: (int, int), q: (int, int)): (r: (int, int))
    requires p != q
    ensures Adjacent(p, r)
  {
    if p.0 < q.0 then (p.0 + 1, p.1)
    else if p.0 > q.0 then (p.0 - 1, p.1)
    else if p.1 < q.1 then (p.0, p.1 + 1)
    else (p.0, p.1 - 1)
  }

  function Dist(p: (int, int), q: (int, int)): nat {
    (if p.0 < q.0 then q.0 - p.0 else p.0 - q.0) + (if p.1 < q.1 then q.1 - p.1 else p.1 - q.1)
  }

  /** The walk from `p` to `q` that takes `Toward` steps. */
  function Walk(p: (int, int), q: (int, int)): seq<(int, int)>
    decreases Dist(p, q)
  {
    if p == q then [p] else [p] + Walk(Toward(p, q), q)
  }

  /** In an image of one colour, the walk between two of its pixels stays
      inside the image and is a walk of that colour. */
  lemma {:induction false} WalkIsPath(g: Grid, o: Color, p: (int, int), q: (int, int))
    requires IsRect(g) && InBounds(g, p.0, p.1) && InBounds(g, q.0, q.1)
    requires forall j, i :: 0 <= j < |g| && 0 <= i < |g[j]| ==> g[j][i] == o
    ensures var w := Walk(p, q); |w| > 0 && w[0] == p && w[|w| - 1] == q && OriginalPath(g, w, o)
    decreases Dist(p, q)
  {
    if p != q {
      var n := Toward(p, q);
      assert InBounds(g, n.0, n.1);
      WalkIsPath(g, o, n, q);
      var rest := Walk(n, q);
      var w := [p] + rest;
      assert w == Walk(p, q);
      forall k | 0 < k < |w|
        ensures Adjacent(w[k - 1], w[k])
      {
        if k > 1 {
          assert w[k - 1] == rest[k - 2] && w[k] == rest[k - 1];
        }
      }
    }
  }

  /** Filling an image of one colour, from anywhere, colours all of it. */
  lemma FillUniform(g: Grid, p: Pos, c: Color)
    requires IsRect(g) && InBounds(g, p.x, p.y)
    requires forall j, i :: 0 <= j < |g| && 0 <= i < |g[j]| ==> g[j][i] == g[p.y][p.x]
    ensures forall j, i :: 0 <= j < |g| && 0 <= i < |g[j]| ==> FillAt(g, p, c)[j][i] == c
  {
    forall j, i | 0 <= j < |g| && 0 <= i < |g[j]|
      ensures FillAt(g, p, c)[j][i] == c
    {
      WalkIsPath(g, g[p.y][p.x], (p.x, p.y), (i, j));
      var w := Walk((p.x, p.y), (i, j));
      assert w[|w| - 1] == (i, j);
    }
  }
}
