/** The editing loop as a state machine. Each key the loop reads is one call
    of `Step`: in the main dispatch, or inside the filter menu's or the quit
    menu's own key loop. Keys are strings because the key reader can return
    names such as "up", or the empty string at the end of input. */
module Editor {
  import opened Results
  import opened Datatypes
  import opened Grids
  import opened ColorSteps
  import opened FloodFill
  import opened Draw
  import opened Variants

  /** Where the loop is. `Exited` is the end of the process, with the image
      that was written to the file when the user chose to save. */
  datatype Mode = Normal | FilterMenu | QuitMenu | Exited(saved: Option<Grid>)

  /** The image, the cursor (x, y), the HSV brush, the undo snapshots (most
      recent last), the `in_menu` flag, and the mode. */
  datatype Editor = Editor(img: Grid, pos: Pos, color: Color, history: seq<Grid>, inMenu: bool, mode: Mode)

  /** The library calls the loop makes and the model leaves abstract: HSV
      to RGB conversion, the colour-map filters (grey level then palette,
      pixel by pixel) and the blur (any shape-keeping filter). OpenCV
      returns `uint8` arrays from each, so each yields a `Pixel`. */
  datatype Env = Env(toRgb: Color -> Pixel, colormap: (string, Color) -> Pixel, blurAt: (Grid, int, int) -> Pixel)

  const EscKey: string := [Esc]

  /** The keys the filter menu accepts after upper-casing. */
  const FilterCodes: seq<string> := ["G", "S", "O", "H", "I", "B"]

  /** What the loop keeps true: a non-empty rectangular `uint8` image with
      the cursor on it, `uint8` snapshots of the same shape, a brush on its
      tick grids, the flag down in the main dispatch and raised (where it
      exists) in the menus, and no filter menu where there is none. */
  predicate Valid(v: Variant, e: Editor) {
    IsRect(e.img) && |e.img| > 0 && Width(e.img) > 0 && AllBytes(e.img) &&
    InBounds(e.img, e.pos.x, e.pos.y) &&
    (forall k :: 0 <= k < |e.history| ==> SameShape(e.history[k], e.img) && AllBytes(e.history[k])) &&
    OnTicks(e.color) &&
    (e.mode.Normal? ==> !e.inMenu) &&
    (e.mode.FilterMenu? || e.mode.QuitMenu? ==> e.inMenu == HasMenuFlag(v)) &&
    (e.mode.FilterMenu? ==> HasFillAndFilters(v))
  }

  /** The state the loop starts in on a given canvas. */
  function StartState(canvas: Grid): Editor {
    Editor(canvas, Pos(0, 0), StartColor, [], false, Normal)
  }

  lemma StartValid(v: Variant, canvas: Grid)
    ensures Valid(v, StartState(canvas)) <==> IsRect(canvas) && |canvas| > 0 && Width(canvas) > 0 && AllBytes(canvas)
  {
  }

  /** A new canvas of a given size at the version's canvas level. */
  function CreateCanvas(v: Variant, rows: int, cols: int): (r: Result<Grid, CanvasError>)
    ensures r.Ok? <==> rows >= 0 && cols >= 0
    ensures r.Ok? ==> (|r.value| == rows && IsRect(r.value) &&
      forall j :: 0 <= j < rows ==> |r.value[j]| == cols)
    ensures r.Ok? ==> forall j, i :: 0 <= j < rows && 0 <= i < cols ==>
      r.value[j][i] == Color(CanvasLevel(v), CanvasLevel(v), CanvasLevel(v))
    ensures r.Ok? ==> AllBytes(r.value)
  {
    NewCanvas(rows, cols, CanvasLevel(v))
  }

  // ----- Text -----

  /** Python's `str.upper` on ASCII letters. */
  function Upper(s: string): (r: string)
    ensures |r| == |s|
  {
    seq(|s|, i requires 0 <= i < |s| => if 'a' <= s[i] <= 'z' then (s[i] as int - 32) as char else s[i])
  }

  /** Python's `str.lower` on ASCII letters. */
  function Lower(s: string): (r: string)
    ensures |r| == |s|
  {
    seq(|s|, i requires 0 <= i < |s| => if 'A' <= s[i] <= 'Z' then (s[i] as int + 32) as char else s[i])
  }

  /** Python's `a in b` on two strings: `a` occurs in `b` as a substring. */
  predicate Substring(a: string, b: string)
    decreases |b|
  {
    a <= b || (|b| > 0 && Substring(a, b[1..]))
  }

  // ----- Movement -----

  /** The cursor after one of the four movement keys: `(y - 1) % h`,
      `(y + 1) % h`, `(x - 1) % w` or `(x + 1) % w`. */
  function Move(pos: Pos, m: string, w: int, h: int): Pos
    requires w > 0 && h > 0
  {
    if m == "w" then Pos(pos.x, (pos.y - 1) % h)
    else if m == "s" then Pos(pos.x, (pos.y + 1) % h)
    else if m == "a" then Pos((pos.x - 1) % w, pos.y)
    else if m == "d" then Pos((pos.x + 1) % w, pos.y)
    else pos
  }

  predicate IsMove(m: string) {
    m == "w" || m == "s" || m == "a" || m == "d"
  }

  /** One step forward on a cycle of `n` positions. */
  lemma NextOnCycle(x: int, n: int)
    requires 0 <= x < n
    ensures (x + 1) % n == if x == n - 1 then 0 else x + 1
    ensures (x - 1) % n == if x == 0 then n - 1 else x - 1
  {
    if x == n - 1 {
      assert x + 1 == 1 * n + 0;
    }
    if x == 0 {
      assert x - 1 == (-1) * n + (n - 1);
    }
  }

  // ----- Painting, undo, colour -----

  /** The colour the paint and fill keys use. */
  function BrushRgb(e: Editor, env: Env): Color {
    env.toRgb(e.color)
  }

  /** The brush channel and step of each colour key. */
  function ColorKey(m: string): Option<(Channel, int)> {
    if m == "u" then Some((Hue, -18))
    else if m == "i" then Some((Saturation, -25))
    else if m == "o" then Some((Value, -25))
    else if m == "j" then Some((Hue, 18))
    else if m == "k" then Some((Saturation, 25))
    else if m == "l" then Some((Value, 25))
    else None
  }

  /** A filter applied to the image. */
  function ApplyFilter(code: string, g: Grid, env: Env): (r: Grid)
    ensures SameShape(r, g)
  {
    if code == "I" then Invert(g)
    else if code == "B" then Neighbourhood(g, (h, x, y) => env.blurAt(h, x, y))
    else MapPixels(g, p => env.colormap(code, p))
  }

  /** Every filter turns a `uint8` image into a `uint8` image: Invert
      because `255 - x` of a byte is a byte, the OpenCV filters because
      they return `uint8` arrays. */
  lemma FilterBytes(code: string, g: Grid, env: Env)
    requires AllBytes(g)
    ensures AllBytes(ApplyFilter(code, g, env))
  {
    var r := ApplyFilter(code, g, env);
    if code == "I" {
      InvertBytes(g);
    } else {
      forall j, i | 0 <= j < |r| && 0 <= i < |r[j]|
        ensures IsPixel(r[j][i])
      {
        assert |r[j]| == |g[j]|;
        var p: Pixel := if code == "B" then env.blurAt(g, i, j) else env.colormap(code, g[j][i]);
        assert r[j][i] == p;
      }
    }
  }

  lemma SameShapeTrans(a: Grid, b: Grid, c: Grid)
    requires SameShape(a, b) && SameShape(b, c)
    ensures SameShape(a, c)
  {
  }

  /** The state after the current image is snapshotted and replaced by
      `next`, of the same shape. */
  function Push(e: Editor, next: Grid): (r: Editor)
    requires SameShape(next, e.img)
    ensures r.history == e.history + [e.img] && r.img == next
  {
    e.(history := e.history + [e.img], img := next)
  }

  lemma PushValid(v: Variant, e: Editor, next: Grid)
    requires Valid(v, e) && SameShape(next, e.img) && AllBytes(next)
    ensures Valid(v, Push(e, next))
  {
    var r := Push(e, next);
    SameShapeKeepsRect(e.img, next);
    forall k | 0 <= k < |r.history|
      ensures SameShape(r.history[k], r.img)
    {
      if k < |e.history| {
        SameShapeTrans(r.history[k], e.img, next);
      }
    }
  }

  /** The undo key: the last snapshot becomes the image and is dropped. */
  function Undo(e: Editor): Editor {
    if |e.history| > 0 then e.(img := e.history[|e.history| - 1], history := e.history[..|e.history| - 1])
    else e
  }

  lemma UndoValid(v: Variant, e: Editor)
    requires Valid(v, e)
    ensures Valid(v, Undo(e)) && SameShape(Undo(e).img, e.img)
  {
    if |e.history| > 0 {
      var last := e.history[|e.history| - 1];
      SameShapeKeepsRect(e.img, last);
      forall k | 0 <= k < |e.history| - 1
        ensures SameShape(e.history[k], last)
      {
        SameShapeTrans(e.history[k], e.img, last);
      }
    }
  }

  // ----- The dispatch -----

  /** One key in the main dispatch. The source tests the keys one after the
      other; as they are distinct strings at most one test succeeds. */
  function NormalKey(v: Variant, e: Editor, m: string, env: Env): (r: Editor)
    requires Valid(v, e) && e.mode.Normal?
    ensures Valid(v, r) && SameShape(r.img, e.img)
  {
    if IsMove(m) then
      var p := Move(e.pos, m, Width(e.img), |e.img|);
      assert |e.img[p.y]| == Width(e.img);
      e.(pos := p)
    else if m == "e" || (m == " " && SpacePaints(v)) then
      PushValid(v, e, SetCell(e.img, e.pos.x, e.pos.y, BrushRgb(e, env)));
      Push(e, SetCell(e.img, e.pos.x, e.pos.y, BrushRgb(e, env)))
    else if m == "f" && HasFillAndFilters(v) then
      PushValid(v, e, FillAt(e.img, e.pos, BrushRgb(e, env)));
      Push(e, FillAt(e.img, e.pos, BrushRgb(e, env)))
    else if m == "z" then
      UndoValid(v, e);
      Undo(e)
    else if ColorKey(m).Some? then
      var (ch, amount) := ColorKey(m).value;
      ChangeKeepsOnTicks(e.color, ch, amount);
      e.(color := Change(e.color, ch, amount))
    else if m == "t" && HasFillAndFilters(v) then
      e.(mode := FilterMenu, inMenu := HasMenuFlag(v))
    else if m == EscKey then
      e.(mode := QuitMenu, inMenu := HasMenuFlag(v))
    else e
  }

  /** One key inside the filter menu's loop: it ends on a filter code or
      escape (after upper-casing); any other key is read again. */
  function FilterKey(v: Variant, e: Editor, m: string, env: Env): (r: Editor)
    requires Valid(v, e) && e.mode.FilterMenu?
    ensures Valid(v, r) && SameShape(r.img, e.img)
  {
    var option := Upper(m);
    if option in FilterCodes || option == EscKey then
      var back := e.(mode := Normal, inMenu := false);
      if option == EscKey then back
      else
        FilterBytes(option, e.img, env);
        PushValid(v, back, ApplyFilter(option, e.img, env));
        Push(back, ApplyFilter(option, e.img, env))
    else e
  }

  /** One key inside the quit menu's loop: it ends on any key whose
      lower-cased text occurs in the version's key string. */
  function QuitKey(v: Variant, e: Editor, m: string): (r: Editor)
    requires Valid(v, e) && e.mode.QuitMenu?
    ensures Valid(v, r) && r.img == e.img && r.history == e.history
  {
    var option := Lower(m);
    if Substring(option, QuitKeys(v)) then
      if option == "s" then e.(mode := Exited(Some(e.img)))
      else if option == "q" then e.(mode := Exited(None))
      else e.(mode := Normal, inMenu := false)
    else e
  }

  /** One key read by the loop, in whatever mode it is in. */
  function Step(v: Variant, e: Editor, m: string, env: Env): (r: Editor)
    requires Valid(v, e)
    ensures Valid(v, r) && SameShape(r.img, e.img)
  {
    match e.mode
    case Normal => NormalKey(v, e, m, env)
    case FilterMenu => FilterKey(v, e, m, env)
    case QuitMenu => QuitKey(v, e, m)
    case Exited(_) => e
  }

  /** A sequence of keys, read one after the other. */
  function Run(v: Variant, e: Editor, keys: seq<string>, env: Env): (r: Editor)
    requires Valid(v, e)
    ensures Valid(v, r) && SameShape(r.img, e.img)
    decreases |keys|
  {
    if |keys| == 0 then e
    else
      var e1 := Step(v, e, keys[0], env);
      var r := Run(v, e1, keys[1..], env);
      SameShapeTrans(r.img, e1.img, e.img);
      r
  }

  // ----- Movement laws -----

  /** Each movement key moves the cursor one place along one axis, wrapping
      at the edges, and changes nothing else. */
  lemma MoveFacts(v: Variant, e: Editor, env: Env)
    requires Valid(v, e) && e.mode.Normal?
    ensures var w := Width(e.img); var h := |e.img|; var x := e.pos.x; var y := e.pos.y;
      Step(v, e, "d", env) == e.(pos := Pos(if x == w - 1 then 0 else x + 1, y)) &&
      Step(v, e, "a", env) == e.(pos := Pos(if x == 0 then w - 1 else x - 1, y)) &&
      Step(v, e, "s", env) == e.(pos := Pos(x, if y == h - 1 then 0 else y + 1)) &&
      Step(v, e, "w", env) == e.(pos := Pos(x, if y == 0 then h - 1 else y - 1))
  {
    MoveSideways(v, e, env);
    MoveUpDown(v, e, env);
  }

  lemma MoveSideways(v: Variant, e: Editor, env: Env)
    requires Valid(v, e) && e.mode.Normal?
    ensures var w := Width(e.img); var x := e.pos.x;
      Step(v, e, "d", env) == e.(pos := Pos(if x == w - 1 then 0 else x + 1, e.pos.y)) &&
      Step(v, e, "a", env) == e.(pos := Pos(if x == 0 then w - 1 else x - 1, e.pos.y))
  {
    NextOnCycle(e.pos.x, Width(e.img));
  }

  lemma MoveUpDown(v: Variant, e: Editor, env: Env)
    requires Valid(v, e) && e.mode.Normal?
    ensures var h := |e.img|; var y := e.pos.y;
      Step(v, e, "s", env) == e.(pos := Pos(e.pos.x, if y == h - 1 then 0 else y + 1)) &&
      Step(v, e, "w", env) == e.(pos := Pos(e.pos.x, if y == 0 then h - 1 else y - 1))
  {
    NextOnCycle(e.pos.y, |e.img|);
  }

  /** `a` undoes `d`, and the other way round. */
  lemma SidewaysUndo(v: Variant, e: Editor, env: Env)
    requires Valid(v, e) && e.mode.Normal?
    ensures Run(v, e, ["d", "a"], env) == e && Run(v, e, ["a", "d"], env) == e
  {
    MoveFacts(v, e, env);
    MoveFacts(v, Step(v, e, "d", env), env);
    MoveFacts(v, Step(v, e, "a", env), env);
    assert ["d", "a"][1..] == ["a"] && ["a", "d"][1..] == ["d"];
  }

  /** `w` undoes `s`, and the other way round. */
  lemma UpDownUndo(v: Variant, e: Editor, env: Env)
    requires Valid(v, e) && e.mode.Normal?
    ensures Run(v, e, ["s", "w"], env) == e && Run(v, e, ["w", "s"], env) == e
  {
    MoveFacts(v, e, env);
    MoveFacts(v, Step(v, e, "s", env), env);
    MoveFacts(v, Step(v, e, "w", env), env);
    assert ["s", "w"][1..] == ["w"] && ["w", "s"][1..] == ["s"];
  }

  /** Pressing `d` n times, for n up to the width, moves the cursor n places
      right, wrapping once past the right edge: `(x + n) % w`. */
  lemma {:induction false} RepeatRight(v: Variant, e: Editor, env: Env, n: nat)
    requires Valid(v, e) && e.mode.Normal? && n <= Width(e.img)
    ensures var x := e.pos.x + n;
      Run(v, e, seq(n, _ => "d"), env) == e.(pos := Pos(if x < Width(e.img) then x else x - Width(e.img), e.pos.y))
    decreases n
  {
    var w := Width(e.img);
    if n == 0 {
      assert e.(pos := Pos(e.pos.x, e.pos.y)) == e;
    } else {
      var keys := seq(n, _ => "d");
      assert keys[0] == "d";
      assert keys[1..] == seq(n - 1, _ => "d");
      MoveFacts(v, e, env);
      var e1 := Step(v, e, "d", env);
      RepeatRight(v, e1, env, n - 1);
    }
  }

  /** Pressing `a` n times, for n up to the width, moves the cursor n places
      left, wrapping once past the left edge: `(x - n) % w`. */
  lemma {:induction false} RepeatLeft(v: Variant, e: Editor, env: Env, n: nat)
    requires Valid(v, e) && e.mode.Normal? && n <= Width(e.img)
    ensures var x := e.pos.x - n;
      Run(v, e, seq(n, _ => "a"), env) == e.(pos := Pos(if x >= 0 then x else x + Width(e.img), e.pos.y))
    decreases n
  {
    if n == 0 {
      assert e.(pos := Pos(e.pos.x, e.pos.y)) == e;
    } else {
      var keys := seq(n, _ => "a");
      assert keys[0] == "a";
      assert keys[1..] == seq(n - 1, _ => "a");
      MoveSideways(v, e, env);
      RepeatLeft(v, Step(v, e, "a", env), env, n - 1);
    }
  }

  /** Pressing `s` n times, for n up to the height, moves the cursor n rows
      down, wrapping once past the bottom: `(y + n) % h`. */
  lemma {:induction false} RepeatDown(v: Variant, e: Editor, env: Env, n: nat)
    requires Valid(v, e) && e.mode.Normal? && n <= |e.img|
    ensures var y := e.pos.y + n;
      Run(v, e, seq(n, _ => "s"), env) == e.(pos := Pos(e.pos.x, if y < |e.img| then y else y - |e.img|))
    decreases n
  {
    if n == 0 {
      assert e.(pos := Pos(e.pos.x, e.pos.y)) == e;
    } else {
      var keys := seq(n, _ => "s");
      assert keys[0] == "s";
      assert keys[1..] == seq(n - 1, _ => "s");
      MoveUpDown(v, e, env);
      RepeatDown(v, Step(v, e, "s", env), env, n - 1);
    }
  }

  /** Pressing `w` n times, for n up to the height, moves the cursor n rows
      up, wrapping once past the top: `(y - n) % h`. */
  lemma {:induction false} RepeatUp(v: Variant, e: Editor, env: Env, n: nat)
    requires Valid(v, e) && e.mode.Normal? && n <= |e.img|
    ensures var y := e.pos.y - n;
      Run(v, e, seq(n, _ => "w"), env) == e.(pos := Pos(e.pos.x, if y >= 0 then y else y + |e.img|))
    decreases n
  {
    if n == 0 {
      assert e.(pos := Pos(e.pos.x, e.pos.y)) == e;
    } else {
      var keys := seq(n, _ => "w");
      assert keys[0] == "w";
      assert keys[1..] == seq(n - 1, _ => "w");
      MoveUpDown(v, e, env);
      RepeatUp(v, Step(v, e, "w", env), env, n - 1);
    }
  }

  /** Pressing `d` or `a` as many times as the image is wide, or `s` or `w`
      as many times as it is high, brings the cursor back to where it
      started. */
  lemma AroundTheImage(v: Variant, e: Editor, env: Env)
    requires Valid(v, e) && e.mode.Normal?
    ensures Run(v, e, seq(Width(e.img), _ => "d"), env) == e
    ensures Run(v, e, seq(Width(e.img), _ => "a"), env) == e
    ensures Run(v, e, seq(|e.img|, _ => "s"), env) == e
    ensures Run(v, e, seq(|e.img|, _ => "w"), env) == e
  {
    assert e.(pos := Pos(e.pos.x, e.pos.y)) == e;
    RepeatRight(v, e, env, Width(e.img));
    RepeatLeft(v, e, env, Width(e.img));
    RepeatDown(v, e, env, |e.img|);
    RepeatUp(v, e, env, |e.img|);
  }

  // ----- Drawing the image -----

  /** Every pixel of the image is drawn the same way by the list-based
      `draw` of the pixely and older versions and by the reference `draw`:
      a `uint8` pixel never has -1 as its first channel. */
  lemma ImagePixelsDrawAlike(v: Variant, e: Editor, i: int, j: int, at: Pos, text: string, textcolor: Option<Color>)
    requires Valid(v, e) && InBounds(e.img, i, j)
    ensures ListDraw(Channels(e.img[j][i]), at.x, at.y, text, textcolor) == Draw.Draw(Solid(e.img[j][i]), at, text, textcolor)
  {
    ListDrawAgrees(Solid(e.img[j][i]), at, text, textcolor);
  }

  // ----- Paint, fill and undo laws -----

  /** Painting snapshots the image first and changes only the pixel under the
      cursor, to the brush's RGB colour. The space bar does the same, except
      in the older main.py, where it does nothing. */
  lemma PaintFacts(v: Variant, e: Editor, m: string, env: Env)
    requires Valid(v, e) && e.mode.Normal? && (m == "e" || (m == " " && SpacePaints(v)))
    ensures var r := Step(v, e, m, env);
      r.history == e.history + [e.img] && r.pos == e.pos && r.color == e.color && r.mode == Normal &&
      SameShape(r.img, e.img) && r.img[e.pos.y][e.pos.x] == BrushRgb(e, env) &&
      forall j, i :: InBounds(e.img, i, j) && (i, j) != (e.pos.x, e.pos.y) ==> r.img[j][i] == e.img[j][i]
  {
  }

  /** Painting twice gives the same image as painting once. */
  lemma PaintTwice(v: Variant, e: Editor, env: Env)
    requires Valid(v, e) && e.mode.Normal?
    ensures Run(v, e, ["e", "e"], env).img == Step(v, e, "e", env).img
  {
    var e1 := Step(v, e, "e", env);
    SetCellIdempotent(e.img, e.pos.x, e.pos.y, BrushRgb(e, env));
    assert Run(v, e, ["e", "e"], env) == Run(v, e1, ["e"], env);
  }

  /** The fill key snapshots the image first, then fills from the cursor
      with the brush's RGB colour, taking the cursor pixel's colour before
      anything is painted as the colour to replace. */
  lemma FillKeyFacts(v: Variant, e: Editor, env: Env)
    requires Valid(v, e) && e.mode.Normal? && HasFillAndFilters(v)
    ensures var r := Step(v, e, "f", env);
      r.history == e.history + [e.img] && r.pos == e.pos && r.color == e.color &&
      r.img == Fill(e.img, e.pos.x, e.pos.y, BrushRgb(e, env), e.img[e.pos.y][e.pos.x]) &&
      r.img[e.pos.y][e.pos.x] == BrushRgb(e, env) &&
      forall j, i :: InBounds(e.img, i, j) && r.img[j][i] != e.img[j][i] ==>
        e.img[j][i] == e.img[e.pos.y][e.pos.x] && r.img[j][i] == BrushRgb(e, env)
  {
  }

  /** Two keys read one after the other. */
  lemma RunTwo(v: Variant, e: Editor, m1: string, m2: string, env: Env)
    requires Valid(v, e)
    ensures Run(v, e, [m1, m2], env) == Step(v, Step(v, e, m1, env), m2, env)
  {
    var e1 := Step(v, e, m1, env);
    assert [m1, m2][0] == m1 && [m1, m2][1..] == [m2];
    calc {
      Run(v, e, [m1, m2], env);
      Run(v, e1, [m2], env);
      Run(v, Step(v, e1, m2, env), [], env);
    }
  }

  /** Undo right after a snapshot gives back the state it was taken in. */
  lemma UndoAfterPush(v: Variant, e: Editor, e1: Editor, env: Env)
    requires Valid(v, e) && Valid(v, e1) && e.mode.Normal?
    requires e1 == e.(history := e.history + [e.img], img := e1.img)
    ensures Step(v, e1, "z", env) == e
  {
  }

  /** Undo right after any key that changed the image in the main dispatch
      gives back exactly the state before that key. */
  lemma UndoInverse(v: Variant, e: Editor, m: string, env: Env)
    requires Valid(v, e) && e.mode.Normal? && m != "z"
    ensures Step(v, e, m, env).img != e.img ==>
      Step(v, e, m, env).history == e.history + [e.img] && Run(v, e, [m, "z"], env) == e
  {
    var r := Step(v, e, m, env);
    if r.img != e.img {
      assert r == e.(history := e.history + [e.img], img := r.img);
      UndoAfterPush(v, e, r, env);
      RunTwo(v, e, m, "z", env);
    }
  }

  /** Paint followed by undo restores the state exactly, even when the
      pixel already had the brush's colour. */
  lemma UndoPaint(v: Variant, e: Editor, env: Env)
    requires Valid(v, e) && e.mode.Normal?
    ensures Run(v, e, ["e", "z"], env) == e
  {
    UndoAfterPush(v, e, Step(v, e, "e", env), env);
    RunTwo(v, e, "e", "z", env);
  }

  /** Fill followed by undo restores the state exactly. */
  lemma UndoFill(v: Variant, e: Editor, env: Env)
    requires Valid(v, e) && e.mode.Normal? && HasFillAndFilters(v)
    ensures Run(v, e, ["f", "z"], env) == e
  {
    UndoAfterPush(v, e, Step(v, e, "f", env), env);
    RunTwo(v, e, "f", "z", env);
  }

  /** Undo with no snapshots changes nothing. */
  lemma UndoEmpty(v: Variant, e: Editor, env: Env)
    requires Valid(v, e) && e.mode.Normal? && e.history == []
    ensures Step(v, e, "z", env) == e
  {
  }

  /** Undo takes the most recent snapshot and drops it. */
  lemma UndoFacts(v: Variant, e: Editor, env: Env)
    requires Valid(v, e) && e.mode.Normal? && |e.history| > 0
    ensures var r := Step(v, e, "z", env);
      r.img == e.history[|e.history| - 1] && r.history + [r.img] == e.history &&
      r.pos == e.pos && r.color == e.color && r.mode == Normal
  {
    assert e.history[..|e.history| - 1] + [e.history[|e.history| - 1]] == e.history;
  }

  /** Only the image keys and undo touch the image and the snapshots. */
  lemma OnlyEditsTouchImage(v: Variant, e: Editor, m: string, env: Env)
    requires Valid(v, e) && e.mode.Normal?
    requires m != "e" && m != " " && m != "f" && m != "z"
    ensures Step(v, e, m, env).img == e.img && Step(v, e, m, env).history == e.history
  {
  }

  // ----- Colour keys -----

  /** `u`, `i`, `o` step hue, saturation and value down by 18, 25 and 25;
      `j`, `k`, `l` step them up; nothing but the brush changes. */
  lemma ColorKeyFacts(v: Variant, e: Editor, m: string, env: Env)
    requires Valid(v, e) && e.mode.Normal? && ColorKey(m).Some?
    ensures var (ch, amount) := ColorKey(m).value;
      Step(v, e, m, env) == e.(color := Change(e.color, ch, amount)) &&
      (m in ["u", "i", "o"] <==> amount < 0) &&
      amount == (if m in ["u", "i", "o"] then -Tick(ch) else Tick(ch))
  {
  }

  /** The brush never leaves its tick grids, whatever keys are read. */
  lemma BrushStaysOnTicks(v: Variant, e: Editor, keys: seq<string>, env: Env)
    requires Valid(v, e)
    ensures OnTicks(Run(v, e, keys, env).color)
  {
  }

  // ----- The filter menu -----

  /** `t` opens the filter menu, raising the flag, and changes nothing else;
      the older main.py has no such key. */
  lemma OpenFilterMenu(v: Variant, e: Editor, env: Env)
    requires Valid(v, e) && e.mode.Normal?
    ensures var r := Step(v, e, "t", env);
      if HasFillAndFilters(v) then r == e.(mode := FilterMenu, inMenu := true) else r == e
  {
  }

  /** In the filter menu: escape goes back without touching the image or the
      snapshots; a filter code (in either case) snapshots the image once and
      applies the filter; any other key is read again with nothing changed.
      The flag is down whenever the menu has been left. */
  lemma FilterMenuFacts(v: Variant, e: Editor, m: string, env: Env)
    requires Valid(v, e) && e.mode.FilterMenu?
    ensures var r := Step(v, e, m, env);
      (Upper(m) == EscKey ==> r == e.(mode := Normal, inMenu := false)) &&
      (Upper(m) in FilterCodes ==>
         r == e.(mode := Normal, inMenu := false, history := e.history + [e.img], img := ApplyFilter(Upper(m), e.img, env))) &&
      (Upper(m) != EscKey && Upper(m) !in FilterCodes ==> r == e) &&
      (r.mode.Normal? ==> !r.inMenu) && (r.mode.FilterMenu? ==> r.inMenu)
  {
  }

  /** Both `i` and `I` pick Invert, which maps every channel to 255 minus it. */
  lemma InvertKey(v: Variant, e: Editor, env: Env)
    requires Valid(v, e) && e.mode.FilterMenu?
    ensures Step(v, e, "i", env) == Step(v, e, "I", env)
    ensures var r := Step(v, e, "i", env);
      r.history == e.history + [e.img] && r.img == Invert(e.img) &&
      forall j, i :: 0 <= j < |e.img| && 0 <= i < |e.img[j]| ==>
        r.img[j][i] == Color(255 - e.img[j][i].r, 255 - e.img[j][i].g, 255 - e.img[j][i].b)
  {
    assert Upper("i") == "I";
    assert Upper("I") == "I";
    InvertFacts(e.img);
  }

  /** Applying a filter from the main dispatch and undoing it gives back the
      state before `t` was pressed. */
  lemma UndoFilter(v: Variant, e: Editor, m: string, env: Env)
    requires Valid(v, e) && e.mode.Normal? && HasFillAndFilters(v) && Upper(m) in FilterCodes
    ensures Run(v, e, ["t", m, "z"], env) == e
  {
    var e1 := Step(v, e, "t", env);
    var e2 := Step(v, e1, m, env);
    assert e2.history == e.history + [e.img];
    assert (e.history + [e.img])[..|e.history|] == e.history;
    assert Run(v, e, ["t", m, "z"], env) == Run(v, e2, ["z"], env);
  }

  // ----- The quit menu -----

  /** Escape opens the quit menu, raising the flag where there is one. */
  lemma OpenQuitMenu(v: Variant, e: Editor, env: Env)
    requires Valid(v, e) && e.mode.Normal?
    ensures Step(v, e, EscKey, env) == e.(mode := QuitMenu, inMenu := HasMenuFlag(v))
  {
  }

  /** In the quit menu: `s` ends the program saving the image, `q` ends it
      without saving, the cancel key (escape; `c` in the older main.py) goes
      back with the flag down; the image never changes. */
  lemma QuitMenuFacts(v: Variant, e: Editor, env: Env)
    requires Valid(v, e) && e.mode.QuitMenu?
    ensures Step(v, e, "s", env).mode == Exited(Some(e.img))
    ensures Step(v, e, "S", env).mode == Exited(Some(e.img))
    ensures Step(v, e, "q", env).mode == Exited(None)
    ensures v != Legacy ==> Step(v, e, EscKey, env) == e.(mode := Normal, inMenu := false)
    ensures v == Legacy ==> Step(v, e, "c", env) == e.(mode := Normal, inMenu := false)
    ensures v == Legacy ==> Step(v, e, EscKey, env) == e
    ensures v != Legacy ==> Step(v, e, "c", env) == e
  {
    assert Lower("S") == "s";
    assert Lower("s") == "s";
    assert Lower("q") == "q";
    assert Lower("c") == "c";
    assert Lower(EscKey) == EscKey;
    assert QuitKeys(v)[..1] == "s";
    assert QuitKeys(v)[1..][..1] == "q";
    assert QuitKeys(v)[1..][1..] == [QuitKeys(v)[2]];
    assert Substring("s", QuitKeys(v));
    assert Substring("q", QuitKeys(v));
    assert Substring([QuitKeys(v)[2]], QuitKeys(v));
    if v == Legacy {
      assert !Substring(EscKey, "c");
      assert !Substring(EscKey, "qc");
    } else {
      assert QuitKeys(v) == ['s', 'q', Esc];
      assert !Substring("c", []);
      assert !Substring("c", [Esc]);
      assert ['q', Esc][1..] == [Esc];
      assert !Substring("c", ['q', Esc]);
      assert ['s', 'q', Esc][1..] == ['q', Esc];
      assert !Substring("c", ['s', 'q', Esc]);
    }
  }

  /** Python's substring test accepts the empty string, so an empty read
      (the end of input) leaves the quit menu as a cancel. */
  lemma EmptyKeyCancelsQuit(v: Variant, e: Editor, env: Env)
    requires Valid(v, e) && e.mode.QuitMenu?
    ensures Step(v, e, "", env) == e.(mode := Normal, inMenu := false)
  {
    assert Lower("") == "";
  }

  /** Once the program has ended, nothing changes. */
  lemma ExitedIsFinal(v: Variant, e: Editor, keys: seq<string>, env: Env)
    requires Valid(v, e) && e.mode.Exited?
    ensures Run(v, e, keys, env) == e
  {
  }

  // ----- The older main.py -----

  /** The older main.py ignores the space bar, `f` and `t`. */
  lemma LegacyIgnores(e: Editor, env: Env)
    requires Valid(Legacy, e) && e.mode.Normal?
    ensures Step(Legacy, e, " ", env) == e
    ensures Step(Legacy, e, "f", env) == e
    ensures Step(Legacy, e, "t", env) == e
  {
  }

  /** The flag never goes up in the older main.py. */
  lemma {:induction false} LegacyNeverFlags(e: Editor, keys: seq<string>, env: Env)
    requires Valid(Legacy, e) && !e.inMenu
    ensures !Run(Legacy, e, keys, env).inMenu
    decreases |keys|
  {
    if |keys| > 0 {
      LegacyNeverFlags(Step(Legacy, e, keys[0], env), keys[1..], env);
    }
  }

  // ----- Whole sessions -----

  /** On a new 3x3 canvas, moving right and down and painting colours the
      centre pixel only, and leaves one snapshot: the blank canvas. */
  lemma PaintCentre(env: Env)
    ensures var canvas := CreateCanvas(Reference, 3, 3).value;
      var r := Run(Reference, StartState(canvas), ["d", "s", "e"], env);
      r.pos == Pos(1, 1) && r.history == [canvas] && |r.img| == 3 &&
      r.img[1][1] == env.toRgb(StartColor) &&
      forall j, i :: 0 <= j < 3 && 0 <= i < |r.img[j]| && (i, j) != (1, 1) ==> r.img[j][i] == Color(250, 250, 250)
  {
    var canvas := CreateCanvas(Reference, 3, 3).value;
    var e0 := StartState(canvas);
    assert Valid(Reference, e0);
    MoveFacts(Reference, e0, env);
    var e1 := Step(Reference, e0, "d", env);
    MoveFacts(Reference, e1, env);
    var e2 := Step(Reference, e1, "s", env);
    assert e2.pos == Pos(1, 1);
    PaintFacts(Reference, e2, "e", env);
    var e3 := Step(Reference, e2, "e", env);
    assert ["d", "s", "e"][1..] == ["s", "e"] && ["s", "e"][1..] == ["e"];
    calc {
      Run(Reference, e0, ["d", "s", "e"], env);
      Run(Reference, e1, ["s", "e"], env);
      Run(Reference, e2, ["e"], env);
      Run(Reference, e3, [], env);
    }
  }

  /** Filling a new canvas colours every pixel. */
  lemma FillNewCanvas(v: Variant, rows: int, cols: int, env: Env)
    requires v != Legacy && rows > 0 && cols > 0
    ensures var canvas := CreateCanvas(v, rows, cols).value;
      var r := Step(v, StartState(canvas), "f", env);
      r.history == [canvas] && SameShape(r.img, canvas) &&
      forall j, i :: 0 <= j < rows && 0 <= i < cols ==> r.img[j][i] == env.toRgb(StartColor)
  {
    var canvas := CreateCanvas(v, rows, cols).value;
    var e := StartState(canvas);
    assert Valid(v, e);
    FillKeyFacts(v, e, env);
    FillUniform(canvas, Pos(0, 0), BrushRgb(e, env));
  }

  /** Painting on a new canvas and undoing gives back the blank canvas with
      no snapshots left. */
  lemma PaintThenUndo(v: Variant, rows: int, cols: int, env: Env)
    requires rows > 0 && cols > 0
    ensures var canvas := CreateCanvas(v, rows, cols).value;
      var r := Run(v, StartState(canvas), ["e", "z"], env);
      r.img == canvas && r.history == []
  {
    var canvas := CreateCanvas(v, rows, cols).value;
    assert Valid(v, StartState(canvas));
    UndoPaint(v, StartState(canvas), env);
  }

  /** Inverting a one-pixel image of (10, 20, 30) through the filter menu
      gives (245, 235, 225). */
  lemma InvertOnePixel(env: Env)
    ensures Run(Reference, StartState([[Color(10, 20, 30)]]), ["t", "I"], env).img == [[Color(245, 235, 225)]]
  {
    var e0 := StartState([[Color(10, 20, 30)]]);
    assert Valid(Reference, e0);
    var e1 := Step(Reference, e0, "t", env);
    assert e1 == e0.(mode := FilterMenu, inMenu := true);
    InvertKey(Reference, e1, env);
    var e2 := Step(Reference, e1, "I", env);
    assert ["t", "I"][1..] == ["I"];
    assert Run(Reference, e0, ["t", "I"], env) == Run(Reference, e1, ["I"], env) == Run(Reference, e2, [], env);
    InvertExample();
  }
}
