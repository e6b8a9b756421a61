/** Quantised stepping of the HSV brush (`change_hue`, `change_saturation`,
    `change_value`): add the amount, clamp to [0, ceiling], then floor to a
    multiple of the tick size. */
module ColorSteps {
  import opened Datatypes

  datatype Channel = Hue | Saturation | Value

  /** Tick size: 18 for hue, 25 for saturation and value. */
  function Tick(ch: Channel): int {
    if ch == Hue then 18 else 25
  }

  /** Clamp bound used by the source: 180 for hue, 255 otherwise. */
  function Ceiling(ch: Channel): nat {
    if ch == Hue then 180 else 255
  }

  /** The highest multiple of the tick not above the ceiling: 180, or 250. */
  function Top(ch: Channel): nat {
    if ch == Hue then 180 else 250
  }

  /** The brush stores hue in r, saturation in g and value in b. */
  function Get(c: Color, ch: Channel): int {
    match ch
    case Hue => c.r
    case Saturation => c.g
    case Value => c.b
  }

  predicate OnTick(v: int, ch: Channel) {
    0 <= v <= Top(ch) && v % Tick(ch) == 0
  }

  /** Every channel of the brush sits on its tick grid. */
  predicate OnTicks(c: Color) {
    OnTick(c.r, Hue) && OnTick(c.g, Saturation) && OnTick(c.b, Value)
  }

  /** Python's `min(max(0, v), hi)`. */
  function Clamp(v: int, hi: nat): int {
    if v < 0 then 0 else if v > hi then hi else v
  }

  /** `min(max(0, v), hi) // step * step`: the largest multiple of `step`
      that does not exceed the clamped value. */
  function Quantize(v: int, hi: nat, step: int): int
    requires step > 0
  {
    Clamp(v, hi) / step * step
  }

  function ChangeHue(c: Color, amount: int): Color {
    c.(r := Quantize(c.r + amount, 180, 18))
  }

  function ChangeSaturation(c: Color, amount: int): Color {
    c.(g := Quantize(c.g + amount, 255, 25))
  }

  function ChangeValue(c: Color, amount: int): Color {
    c.(b := Quantize(c.b + amount, 255, 25))
  }

  /** The three `change_*` functions, selected by channel. The stepped
      channel becomes the largest tick not above the clamped sum, and the
      other two channels are untouched. */
  function Change(c: Color, ch: Channel, amount: int): (r: Color)
    ensures OnTick(Get(r, ch), ch)
    ensures Get(r, ch) <= Clamp(Get(c, ch) + amount, Ceiling(ch)) < Get(r, ch) + Tick(ch)
    ensures forall other :: other != ch ==> Get(r, other) == Get(c, other)
  {
    match ch
    case Hue => ChangeHue(c, amount)
    case Saturation => ChangeSaturation(c, amount)
    case Value => ChangeValue(c, amount)
  }

  /** Stepping keeps a brush on its tick grids. */
  lemma ChangeKeepsOnTicks(c: Color, ch: Channel, amount: int)
    requires OnTicks(c)
    ensures OnTicks(Change(c, ch, amount))
  {
    var r := Change(c, ch, amount);
    assert forall other :: other != ch ==> Get(r, other) == Get(c, other);
    assert Get(r, Hue) == r.r && Get(r, Saturation) == r.g && Get(r, Value) == r.b;
  }

  /** A tick value is its own quantisation. */
  lemma QuantizeFixesTicks(v: int, ch: Channel)
    requires OnTick(v, ch)
    ensures Quantize(v, Ceiling(ch), Tick(ch)) == v
  {
    var q := Quantize(v, Ceiling(ch), Tick(ch));
    assert v - q < Tick(ch) && (v - q) % Tick(ch) == 0;
  }

  /** What a step does to the stepped channel, on plain numbers. */
  function StepTo(v: int, ch: Channel, amount: int): int {
    Quantize(v + amount, Ceiling(ch), Tick(ch))
  }

  /** `Change` on whole colours is `StepTo` on the stepped channel. */
  lemma ChangeIsStepTo(c: Color, ch: Channel, amount: int)
    ensures Get(Change(c, ch, amount), ch) == StepTo(Get(c, ch), ch, amount)
    ensures forall other :: other != ch ==> Get(Change(c, ch, amount), other) == Get(c, other)
  {
  }

  /** The list index of each channel: `color[0]`, `color[1]`, `color[2]`. */
  function Index(ch: Channel): (k: nat)
    ensures k < 3
  {
    match ch
    case Hue => 0
    case Saturation => 1
    case Value => 2
  }

  function ChannelAt(k: nat): (ch: Channel)
    requires k < 3
    ensures Index(ch) == k
  {
    if k == 0 then Hue else if k == 1 then Saturation else Value
  }

  /** The pixely Drawer's and the older main.py's `change_*` on a Python
      list: `color[k] += amount`, then `color[k]` is clamped and floored in
      place; the list is returned. */
  function ListChange(color: seq<int>, k: nat, amount: int): (r: seq<int>)
    requires |color| == 3 && k < 3
    ensures |r| == 3
    ensures forall i :: 0 <= i < 3 && i != k ==> r[i] == color[i]
    ensures OnTick(r[k], ChannelAt(k))
    ensures r[k] <= Clamp(color[k] + amount, Ceiling(ChannelAt(k))) < r[k] + Tick(ChannelAt(k))
  {
    var hi := if k == 0 then 180 else 255;
    var step := if k == 0 then 18 else 25;
    var bumped := color[k := color[k] + amount];
    bumped[k := Clamp(bumped[k], hi) / step * step]
  }

  /** The list version and the reference's `Color` version agree: stepping
      a channel of the list of a colour gives the list of the stepped
      colour. */
  lemma ListChangeAgrees(c: Color, ch: Channel, amount: int)
    ensures ListChange(Channels(c), Index(ch), amount) == Channels(Change(c, ch, amount))
  {
    var l := ListChange(Channels(c), Index(ch), amount);
    var r := Channels(Change(c, ch, amount));
    assert ChannelAt(Index(ch)) == ch;
    assert l[Index(ch)] == r[Index(ch)];
    assert forall i :: 0 <= i < 3 ==> l[i] == r[i];
  }

  /** Two colours with equal channels are equal. */
  lemma ChannelsDetermine(a: Color, b: Color)
    requires forall ch :: Get(a, ch) == Get(b, ch)
    ensures a == b
  {
    assert Get(a, Hue) == Get(b, Hue) && Get(a, Saturation) == Get(b, Saturation);
    assert Get(a, Value) == Get(b, Value);
  }

  /** On tick values: up then down, and down then up, from an interior tick. */
  lemma StepToThenBack(v: int, ch: Channel)
    requires OnTick(v, ch)
    ensures v < Top(ch) ==> StepTo(StepTo(v, ch, Tick(ch)), ch, -Tick(ch)) == v
    ensures v > 0 ==> StepTo(StepTo(v, ch, -Tick(ch)), ch, Tick(ch)) == v
    ensures v == Top(ch) ==> StepTo(v, ch, Tick(ch)) == v
    ensures v == 0 ==> StepTo(v, ch, -Tick(ch)) == v
  {
    TickNeighbours(v, ch);
    if v < Top(ch) {
      TickNeighbours(v + Tick(ch), ch);
    }
    if v > 0 {
      TickNeighbours(v - Tick(ch), ch);
    }
  }

  /** From an interior tick, one step up then one step down returns to it,
      and one step down then one up does too. */
  lemma StepThenBack(c: Color, ch: Channel)
    requires OnTick(Get(c, ch), ch)
    ensures Get(c, ch) < Top(ch) ==> Change(Change(c, ch, Tick(ch)), ch, -Tick(ch)) == c
    ensures Get(c, ch) > 0 ==> Change(Change(c, ch, -Tick(ch)), ch, Tick(ch)) == c
  {
    var t := Tick(ch);
    StepToThenBack(Get(c, ch), ch);
    var up := Change(c, ch, t);
    var down := Change(c, ch, -t);
    ChangeIsStepTo(c, ch, t);
    ChangeIsStepTo(c, ch, -t);
    ChangeIsStepTo(up, ch, -t);
    ChangeIsStepTo(down, ch, t);
    if Get(c, ch) < Top(ch) {
      ChannelsDetermine(Change(up, ch, -t), c);
    }
    if Get(c, ch) > 0 {
      ChannelsDetermine(Change(down, ch, t), c);
    }
  }

  /** Stepping past either end stays at that end: up from the top tick and
      down from zero change nothing. For saturation and value the top tick is
      250, because 255 floors to 250. */
  lemma StepAtEnds(c: Color, ch: Channel)
    ensures Get(c, ch) == Top(ch) ==> Change(c, ch, Tick(ch)) == c
    ensures Get(c, ch) == 0 ==> Change(c, ch, -Tick(ch)) == c
    ensures Get(Change(c.(g := 255), Saturation, 0), Saturation) == 250
  {
    ChangeIsStepTo(c, ch, Tick(ch));
    ChangeIsStepTo(c, ch, -Tick(ch));
    if Get(c, ch) == Top(ch) {
      StepToThenBack(Get(c, ch), ch);
      ChannelsDetermine(Change(c, ch, Tick(ch)), c);
    }
    if Get(c, ch) == 0 {
      StepToThenBack(Get(c, ch), ch);
      ChannelsDetermine(Change(c, ch, -Tick(ch)), c);
    }
  }

  /** `n` presses of the same colour key, on the stepped channel's value. */
  function RepeatTo(v: int, ch: Channel, amount: int, n: nat): int
    decreases n
  {
    if n == 0 then v else RepeatTo(StepTo(v, ch, amount), ch, amount, n - 1)
  }

  /** Pressing "up" n times from a tick climbs one tick per press until the
      top and then stays there; pressing "down" descends to 0 and stays. */
  lemma {:induction false} RepeatConverges(v: int, ch: Channel, n: nat)
    requires OnTick(v, ch)
    ensures RepeatTo(v, ch, Tick(ch), n) ==
      if v + n * Tick(ch) > Top(ch) then Top(ch) else v + n * Tick(ch)
    ensures RepeatTo(v, ch, -Tick(ch), n) ==
      if v - n * Tick(ch) < 0 then 0 else v - n * Tick(ch)
    decreases n
  {
    if n > 0 {
      var t := Tick(ch);
      TickNeighbours(v, ch);
      RepeatConverges(StepTo(v, ch, t), ch, n - 1);
      RepeatConverges(StepTo(v, ch, -t), ch, n - 1);
      assert (n - 1) * t + t == n * t;
    }
  }

  /** One step from a tick lands on the neighbouring tick, or stays at an end. */
  lemma TickNeighbours(v: int, ch: Channel)
    requires OnTick(v, ch)
    ensures OnTick(StepTo(v, ch, Tick(ch)), ch) && OnTick(StepTo(v, ch, -Tick(ch)), ch)
    ensures StepTo(v, ch, Tick(ch)) == if v == Top(ch) then v else v + Tick(ch)
    ensures StepTo(v, ch, -Tick(ch)) == if v == 0 then v else v - Tick(ch)
  {
    var t := Tick(ch);
    var k := v / t;
    assert v == k * t;
    if v < Top(ch) {
      assert (v + t) / t == k + 1;
      assert StepTo(v, ch, t) == (k + 1) * t;
    }
    if v > 0 {
      assert (v - t) / t == k - 1;
      assert StepTo(v, ch, -t) == (k - 1) * t;
    }
  }
}
