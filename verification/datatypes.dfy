/** The two value classes of cmdpxl/cmdpxl_datatypes.py: `Color` and `Pos`. */
module Datatypes {
  import opened Results

  /** Three integer channels. The same class carries RGB pixels, the HSV brush
      (hue, saturation, value) and the TRANSPARENT marker `Color(-1, 0, 0)`. */
  datatype Color = Color(r: int, g: int, b: int)

  /** A screen or image position; `x` is the column and `y` the row. */
  datatype Pos = Pos(x: int, y: int)

  /** One positional argument of `Color(*rgb_colors)`: a number, or an
      iterable of numbers (a tuple, a list or a numpy pixel). */
  datatype Arg = Num(n: int) | Items(items: seq<int>)

  /** Why Python's tuple unpacking in `Color.__init__` raises. */
  datatype ConstructError =
    | NotIterable             // one argument that is a plain number (TypeError)
    | WrongCount(count: nat)  // not exactly three values to unpack (ValueError)
    | NonNumericChannel       // a three-argument call with an iterable channel

  /** `Color(*args)`: one argument is unpacked into r, g, b; otherwise the
      arguments themselves are assigned in order. */
  function Construct(args: seq<Arg>): Result<Color, ConstructError> {
    if |args| == 1 then
      match args[0]
      case Num(_) => Err(NotIterable)
      case Items(t) =>
        if |t| == 3 then Ok(Color(t[0], t[1], t[2])) else Err(WrongCount(|t|))
    else if |args| != 3 then Err(WrongCount(|args|))
    else if args[0].Num? && args[1].Num? && args[2].Num? then
      Ok(Color(args[0].n, args[1].n, args[2].n))
    else Err(NonNumericChannel)
  }

  /** `Color.__iter__`: the channels in the order r, g, b. */
  function Channels(c: Color): seq<int> {
    [c.r, c.g, c.b]
  }

  /** `Color.copy`: a new colour with the same channels. */
  function Copy(c: Color): (d: Color)
    ensures Channels(d) == Channels(c)
  {
    Color(c.r, c.g, c.b)
  }

  /** `Pos.__iter__`: the pair (x, y). */
  function PosPair(p: Pos): (int, int) {
    (p.x, p.y)
  }

  /** Unpacking a colour's iteration back through the one-argument
      constructor gives the colour back, and the three-argument form assigns
      its arguments to r, g and b in order. */
  lemma ConstructRoundTrip(c: Color, a: int, b: int, d: int)
    ensures Construct([Items(Channels(c))]) == Ok(c)
    ensures Construct([Num(a), Num(b), Num(d)]).Ok?
    ensures Channels(Construct([Num(a), Num(b), Num(d)]).value) == [a, b, d]
  {
  }

  /** Exactly one iterable of three values, or exactly three numbers, builds
      a colour; every other argument list raises. */
  lemma ConstructSucceeds(args: seq<Arg>)
    ensures Construct(args).Ok? <==>
      (|args| == 1 && args[0].Items? && |args[0].items| == 3) ||
      (|args| == 3 && args[0].Num? && args[1].Num? && args[2].Num?)
  {
  }

  /** Iterating a position yields x first, then y, so the two-name unpacking
      `i, j = Pos(a, b)` binds `i := a` and `j := b`. */
  lemma PosUnpacksInOrder(a: int, b: int)
    ensures PosPair(Pos(a, b)).0 == a && PosPair(Pos(a, b)).1 == b
  {
  }
}
