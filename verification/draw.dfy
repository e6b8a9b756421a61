/** The `draw` routine: one piece of text at a screen position, written as
    ANSI escape sequences. A background colour is set with a 24-bit SGR
    sequence (`ESC [48;2;r;g;b m`), the cursor is saved and moved
    (`ESC 7`, `ESC [y;x f`), the text is written (wrapped in a foreground
    SGR `ESC [38;2;r;g;b m` ... `ESC [0m` when it has a text colour), and
    the cursor is restored (`ESC 8`) before the background is reset. */
module Draw {
  import opened Results
  import opened Datatypes
  import opened Decimal

  const Esc: char := 27 as char

  /** `ESC [0m`: resets every attribute. */
  const Reset: string := [Esc] + "[0m"

  /** `ESC 8`: restores the saved cursor. */
  const Restore: string := [Esc] + "8"

  const Black: Color := Color(0, 0, 0)

  /** The background argument of `draw`. The reference tests `color is not
      TRANSPARENT`, an identity test against the one `Color(-1, 0, 0)`
      object, so only callers that pass that object draw without one. */
  datatype Background = Transparent | Solid(c: Color)

  /** `sum(list(color))` of the background; TRANSPARENT is `(-1, 0, 0)`. */
  function BgSum(bg: Background): int {
    match bg
    case Transparent => -1
    case Solid(c) => c.r + c.g + c.b
  }

  /** `ESC [{kind};2;{r};{g};{b}m`: a 24-bit colour selection; kind 38 is
      the foreground and 48 the background. */
  function Sgr(kind: string, c: Color): string {
    [Esc] + "[" + kind + ";2;" + IntToString(c.r) + ";" + IntToString(c.g) + ";" + IntToString(c.b) + "m"
  }

  /** `ESC 7 ESC [{y};{x}f`: save the cursor, then move it to row y, column x. */
  function Locate(at: Pos): string {
    [Esc] + "7" + [Esc] + "[" + IntToString(at.y) + ";" + IntToString(at.x) + "f"
  }

  /** The contrast rule as a decision table: an explicit text colour always
      wins; without one, text on a background whose channels sum to more
      than 350 is black; otherwise the terminal's own colour is kept. */
  function Ink(bg: Background, textcolor: Option<Color>): Option<Color> {
    if textcolor.Some? then textcolor
    else if BgSum(bg) > 350 then Some(Black)
    else None
  }

  /** `draw(color, text_pos, text, textcolor)` of cmdpxl/main.py, as the
      string it writes to the terminal. */
  function Draw(bg: Background, at: Pos, text: string, textcolor: Option<Color>): string {
    var text1 := if BgSum(bg) > 350 && textcolor.None? then Sgr("38", Black) + text + Reset else text;
    var text2 := if textcolor.Some? then Sgr("38", textcolor.value) + text1 + Reset else text1;
    var colorStart := if bg.Solid? then Sgr("48", bg.c) else "";
    var colorEnd := if bg.Solid? then Reset else "";
    colorStart + Locate(at) + text2 + Restore + colorEnd
  }

  /** `sum(color)` over a list or a pixel. */
  function Sum(s: seq<int>): int
    decreases |s|
  {
    if |s| == 0 then 0 else Sum(s[..|s| - 1]) + s[|s| - 1]
  }

  /** `Drawer.draw(color, x, y, text, textcolor)` of the pixely version; the
      older main.py has the same body. The background is a list: `[-1]`
      marks transparency through its first element, anything else is read
      as `[r, g, b]`. */
  function ListDraw(color: seq<int>, x: int, y: int, text: string, textcolor: Option<Color>): string
    requires |color| > 0 && (color[0] != -1 ==> |color| >= 3)
  {
    var text1 := if Sum(color) > 350 && textcolor.None? then Sgr("38", Black) + text + Reset else text;
    var text2 := if textcolor.Some? then Sgr("38", textcolor.value) + text1 + Reset else text1;
    var colorStart := if color[0] != -1 then Sgr("48", Color(color[0], color[1], color[2])) else "";
    var colorEnd := if color[0] != -1 then Reset else "";
    colorStart + Locate(Pos(x, y)) + text2 + Restore + colorEnd
  }

  /** The list a background is passed as in the list-based versions. */
  function AsList(bg: Background): seq<int> {
    match bg
    case Transparent => [-1]
    case Solid(c) => Channels(c)
  }

  /** The sum of a colour's list is the sum of its channels. */
  lemma SumChannels(c: Color)
    ensures Sum(Channels(c)) == c.r + c.g + c.b
  {
    assert [c.r][..0] == [];
    assert Sum([c.r]) == c.r;
    assert [c.r, c.g][..1] == [c.r];
    assert Sum([c.r, c.g]) == c.r + c.g;
    assert [c.r, c.g, c.b][..2] == [c.r, c.g];
  }

  /** The list-based `draw` writes exactly what the reference writes, for
      every background whose red channel is not -1. A solid colour with
      red -1 is where they part: the list versions treat it as transparent. */
  lemma ListDrawAgrees(bg: Background, at: Pos, text: string, textcolor: Option<Color>)
    requires bg.Solid? ==> bg.c.r != -1
    ensures ListDraw(AsList(bg), at.x, at.y, text, textcolor) == Draw(bg, at, text, textcolor)
  {
    if bg.Solid? {
      SumChannels(bg.c);
    } else {
      assert AsList(bg)[..0] == [];
      assert Sum(AsList(bg)) == -1;
    }
  }

  /** A list whose first channel is -1 is drawn with no background, as the
      reference draws TRANSPARENT, but its contrast test still sums all
      three channels: with no text colour and g + b - 1 > 350 the text is
      inked black, which TRANSPARENT (sum -1) never is. */
  lemma ListDrawTreatsMinusOneAsTransparent(c: Color, at: Pos, text: string, textcolor: Option<Color>)
    requires c.r == -1
    ensures ListDraw(Channels(c), at.x, at.y, text, textcolor) ==
      Draw(Transparent, at, text, if textcolor.None? && c.g + c.b - 1 > 350 then Some(Black) else textcolor)
    ensures ListDraw(Channels(c), at.x, at.y, text, textcolor) == Draw(Transparent, at, text, textcolor)
      <==> (textcolor.Some? || c.g + c.b - 1 <= 350)
  {
    SumChannels(c);
    var inked := Sgr("38", Black) + text + Reset;
    assert |inked| > |text|;
    assert |Draw(Transparent, at, text, Some(Black))| > |Draw(Transparent, at, text, None)|;
  }

  // ----- Reading a drawn string back -----

  /** What one `draw` call put on the screen. */
  datatype Drawn = Drawn(bg: Background, at: Pos, ink: Option<Color>, text: string)

  predicate NoEsc(text: string) {
    forall i :: 0 <= i < |text| ==> text[i] != Esc
  }

  /** Drops the literal `lit` from the front of `s`. */
  function Expect(s: string, lit: string): Option<string> {
    if lit <= s then Some(s[|lit|..]) else None
  }

  /** Drops the literal `t` from the end of `s`. */
  function StripSuffix(s: string, t: string): Option<string> {
    if |t| <= |s| && s[|s| - |t|..] == t then Some(s[..|s| - |t|]) else None
  }

  /** Reads `ESC [{kind};2;{r};{g};{b}m` off the front of `s`. */
  function ParseSgr(s: string, kind: string): Option<(Color, string)> {
    var s1 :- Expect(s, [Esc] + "[" + kind + ";2;");
    var r :- ParseInt(s1);
    var s2 :- Expect(r.1, ";");
    var g :- ParseInt(s2);
    var s3 :- Expect(g.1, ";");
    var b :- ParseInt(s3);
    var s4 :- Expect(b.1, "m");
    Some((Color(r.0, g.0, b.0), s4))
  }

  /** Reads `ESC 7 ESC [{y};{x}f` off the front of `s`. */
  function ParseLocate(s: string): Option<(Pos, string)> {
    var s1 :- Expect(s, [Esc] + "7" + [Esc] + "[");
    var y :- ParseInt(s1);
    var s2 :- Expect(y.1, ";");
    var x :- ParseInt(s2);
    var s3 :- Expect(x.1, "f");
    Some((Pos(x.0, y.0), s3))
  }

  function ParseBackground(s: string): Option<(Background, string)> {
    if [Esc] + "[48" <= s then
      var p :- ParseSgr(s, "48");
      Some((Solid(p.0), p.1))
    else Some((Transparent, s))
  }

  function ParseInk(s: string): Option<(Option<Color>, string)> {
    if [Esc] + "[38" <= s then
      var p :- ParseSgr(s, "38");
      var t :- StripSuffix(p.1, Reset);
      Some((Some(p.0), t))
    else Some((None, s))
  }

  /** Decodes the output of one `draw` call. */
  function ParseDraw(s: string): Option<Drawn> {
    var b :- ParseBackground(s);
    var l :- ParseLocate(b.1);
    var body :- StripSuffix(l.1, Tail(b.0));
    var k :- ParseInk(body);
    Some(Drawn(b.0, l.0, k.0, k.1))
  }

  lemma ExpectConcat(lit: string, rest: string)
    ensures Expect(lit + rest, lit) == Some(rest)
  {
    assert (lit + rest)[..|lit|] == lit;
    assert (lit + rest)[|lit|..] == rest;
  }

  lemma StripConcat(s: string, t: string)
    ensures StripSuffix(s + t, t) == Some(s)
  {
    assert (s + t)[|s|..] == t;
    assert (s + t)[..|s|] == s;
  }

  lemma ParseSgrRoundTrip(kind: string, c: Color, rest: string)
    ensures ParseSgr(Sgr(kind, c) + rest, kind) == Some((c, rest))
  {
    var head := [Esc] + "[" + kind + ";2;";
    var tb := IntToString(c.b) + ("m" + rest);
    var tg := IntToString(c.g) + (";" + tb);
    var tr := IntToString(c.r) + (";" + tg);
    assert Sgr(kind, c) + rest == head + tr;
    ExpectConcat(head, tr);
    ParseIntRoundTrip(c.r, ";" + tg);
    ExpectConcat(";", tg);
    ParseIntRoundTrip(c.g, ";" + tb);
    ExpectConcat(";", tb);
    ParseIntRoundTrip(c.b, "m" + rest);
    ExpectConcat("m", rest);
  }

  lemma ParseLocateRoundTrip(at: Pos, rest: string)
    ensures ParseLocate(Locate(at) + rest) == Some((at, rest))
  {
    var head := [Esc] + "7" + [Esc] + "[";
    var tx := IntToString(at.x) + ("f" + rest);
    var ty := IntToString(at.y) + (";" + tx);
    assert Locate(at) + rest == head + ty;
    ExpectConcat(head, ty);
    ParseIntRoundTrip(at.y, ";" + tx);
    ExpectConcat(";", tx);
    ParseIntRoundTrip(at.x, "f" + rest);
    ExpectConcat("f", rest);
  }

  /** Everything after the background and position, for the given ink. */
  function Body(ink: Option<Color>, text: string): string {
    if ink.Some? then Sgr("38", ink.value) + text + Reset else text
  }

  function Start(bg: Background): string {
    if bg.Solid? then Sgr("48", bg.c) else ""
  }

  function End(bg: Background): string {
    if bg.Solid? then Reset else ""
  }

  function Tail(bg: Background): string {
    Restore + End(bg)
  }

  lemma Assoc5(a: string, b: string, c: string, d: string, e: string)
    ensures a + b + c + d + e == a + (b + (c + (d + e)))
  {
  }

  /** The two wraps of `draw` apply at most one foreground: the one `Ink`
      chooses. */
  lemma DrawShape(bg: Background, at: Pos, text: string, textcolor: Option<Color>)
    ensures Draw(bg, at, text, textcolor) == Start(bg) + (Locate(at) + (Body(Ink(bg, textcolor), text) + Tail(bg)))
  {
    var text1 := if BgSum(bg) > 350 && textcolor.None? then Sgr("38", Black) + text + Reset else text;
    var text2 := if textcolor.Some? then Sgr("38", textcolor.value) + text1 + Reset else text1;
    assert text2 == Body(Ink(bg, textcolor), text);
    assert Draw(bg, at, text, textcolor) == Start(bg) + Locate(at) + text2 + Restore + End(bg);
    Assoc5(Start(bg), Locate(at), text2, Restore, End(bg));
  }

  lemma ParseInkRoundTrip(ink: Option<Color>, text: string)
    requires NoEsc(text)
    ensures ParseInk(Body(ink, text)) == Some((ink, text))
  {
    if ink.Some? {
      ParseInkSome(ink.value, text);
    } else if |text| > 0 {
      assert text[0] != Esc;
    }
  }

  lemma ParseInkSome(c: Color, text: string)
    ensures ParseInk(Sgr("38", c) + text + Reset) == Some((Some(c), text))
  {
    var s := Sgr("38", c) + (text + Reset);
    assert Sgr("38", c) + text + Reset == s;
    SgrPrefix("38", c, text + Reset);
    assert [Esc] + "[" + "38" == [Esc] + "[38";
    ParseSgrRoundTrip("38", c, text + Reset);
    StripConcat(text, Reset);
  }

  /** An SGR sequence starts with `ESC [` and its kind. */
  lemma SgrPrefix(kind: string, c: Color, rest: string)
    ensures [Esc] + "[" + kind <= Sgr(kind, c) + rest
  {
    var head := [Esc] + "[" + kind;
    var s := Sgr(kind, c) + rest;
    assert forall i :: 0 <= i < |head| ==> s[i] == head[i];
  }

  lemma ParseBackgroundSolid(c: Color, after: string)
    ensures ParseBackground(Sgr("48", c) + after) == Some((Solid(c), after))
  {
    SgrPrefix("48", c, after);
    assert [Esc] + "[" + "48" == [Esc] + "[48";
    ParseSgrRoundTrip("48", c, after);
  }

  lemma ParseBackgroundTransparent(at: Pos, rest: string)
    ensures ParseBackground(Locate(at) + rest) == Some((Transparent, Locate(at) + rest))
  {
    assert (Locate(at) + rest)[1] == '7';
  }

  lemma ParseBackgroundRoundTrip(bg: Background, at: Pos, rest: string)
    ensures ParseBackground(Start(bg) + (Locate(at) + rest)) == Some((bg, Locate(at) + rest))
  {
    if bg.Solid? {
      ParseBackgroundSolid(bg.c, Locate(at) + rest);
    } else {
      assert Start(bg) + (Locate(at) + rest) == Locate(at) + rest;
      ParseBackgroundTransparent(at, rest);
    }
  }

  /** What `draw` writes decodes to the background it was given, the
      position, the foreground the contrast rule picks, and the text itself,
      for any text free of escape characters. */
  lemma DrawRoundTrip(bg: Background, at: Pos, text: string, textcolor: Option<Color>)
    requires NoEsc(text)
    ensures ParseDraw(Draw(bg, at, text, textcolor)) == Some(Drawn(bg, at, Ink(bg, textcolor), text))
  {
    DrawShape(bg, at, text, textcolor);
    var body := Body(Ink(bg, textcolor), text);
    ParseBackgroundRoundTrip(bg, at, body + Tail(bg));
    ParseLocateRoundTrip(at, body + Tail(bg));
    StripConcat(body, Tail(bg));
    ParseInkRoundTrip(Ink(bg, textcolor), text);
  }

  /** Two draws that write the same string drew the same thing. */
  lemma DrawInjective(bg1: Background, at1: Pos, text1: string, bg2: Background, at2: Pos, text2: string,
                      tc1: Option<Color>, tc2: Option<Color>)
    requires NoEsc(text1) && NoEsc(text2)
    requires Draw(bg1, at1, text1, tc1) == Draw(bg2, at2, text2, tc2)
    ensures bg1 == bg2 && at1 == at2 && text1 == text2 && Ink(bg1, tc1) == Ink(bg2, tc2)
  {
    DrawRoundTrip(bg1, at1, text1, tc1);
    DrawRoundTrip(bg2, at2, text2, tc2);
  }
}
