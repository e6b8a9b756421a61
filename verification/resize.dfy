/** The resize watcher: on each tick it compares the terminal size with the
    size it last repainted for and, when they differ and no menu is open,
    recomputes the horizontal padding and repaints. The thread, its sleep
    and the terminal query are outside the model: a tick is a call with the
    size that was read. */
module Resize {
  import opened Results
  import opened Variants
  import opened Layout

  /** A terminal size, (columns, rows). */
  type Size = (int, int)

  /** The paddings the drawing code reads. */
  datatype Pads = Pads(x: int, y: int)

  /** `Drawer.update(padding_x, padding_y)`: the pixely Drawer's own copy of
      the paddings, replaced as a whole. */
  function Update(d: Pads, x: int, y: int): (r: Pads)
    ensures r.x == x && r.y == y
  {
    d.(x := x, y := y)
  }

  /** What the watcher keeps between ticks: the size it last repainted for
      (`None` before the first repaint: the reference and the pixely version
      start from the list `[0, 0]`, which never equals the tuple the size
      query returns), the application's paddings, and the paddings the
      drawing code uses (the same globals in cmdpxl/main.py; the Drawer's
      copy in the pixely version). */
  datatype Watch = Watch(last: Option<Size>, app: Pads, drawer: Pads)

  /** The repaint guard: the size changed, and no menu holds the screen. */
  predicate ShouldRepaint(v: Variant, last: Option<Size>, current: Size, inMenu: bool) {
    (last.None? || last.value != current) && !(HasMenuFlag(v) && inMenu)
  }

  /** The watcher before its first tick. The reference computes its padding
      from the starting width; the pixely version starts from its class
      default of 1; the older main.py remembers the starting size and keeps
      a padding of 1. */
  function Initial(v: Variant, start: Size, imgWidth: int): (w: Watch)
    ensures v == Legacy <==> w.last.Some?
    ensures w.app == w.drawer && w.app.y == 1
  {
    match v
    case Reference => Watch(None, Pads(PaddingX(Reference, start.0, imgWidth), 1), Pads(PaddingX(Reference, start.0, imgWidth), 1))
    case Pixely => Watch(None, Pads(1, 1), Pads(1, 1))
    case Legacy => Watch(Some(start), Pads(1, 1), Pads(1, 1))
  }

  /** One tick: the new watcher state and whether it repainted. */
  function Tick(v: Variant, w: Watch, current: Size, inMenu: bool, imgWidth: int): (Watch, bool) {
    if ShouldRepaint(v, w.last, current, inMenu) then
      var padX := if v == Legacy then w.app.x else PaddingX(v, current.0, imgWidth);
      var app := w.app.(x := padX);
      (Watch(Some(current), app, Update(w.drawer, app.x, app.y)), true)
    else (w, false)
  }

  /** A tick repaints exactly when the size differs from the last repainted
      one and no menu is open; a repaint records the size and sets the
      padding for it (the older main.py keeps 1), and a tick that does not
      repaint changes nothing. */
  lemma TickFacts(v: Variant, w: Watch, current: Size, inMenu: bool, imgWidth: int)
    ensures var (w', repainted) := Tick(v, w, current, inMenu, imgWidth);
      (repainted <==> (w.last != Some(current) && !(HasMenuFlag(v) && inMenu))) &&
      (repainted ==> w'.last == Some(current) && w'.app.y == w.app.y &&
                     w'.app.x == (if v == Legacy then w.app.x else PaddingX(v, current.0, imgWidth))) &&
      (!repainted ==> w' == w)
  {
  }

  /** The drawing code never sees stale paddings: if it agreed with the
      application before a tick, it agrees after. */
  lemma TickKeepsPadsInSync(v: Variant, w: Watch, current: Size, inMenu: bool, imgWidth: int)
    requires w.drawer == w.app
    ensures Tick(v, w, current, inMenu, imgWidth).0.drawer == Tick(v, w, current, inMenu, imgWidth).0.app
  {
  }

  /** While a menu is open the watcher of the flagged versions does nothing. */
  lemma NoRepaintInMenu(v: Variant, w: Watch, current: Size, imgWidth: int)
    requires HasMenuFlag(v)
    ensures Tick(v, w, current, true, imgWidth) == (w, false)
  {
  }

  /** The first tick outside a menu always repaints in the flagged versions,
      whatever the size; the older main.py repaints only after a change. */
  lemma FirstTick(v: Variant, start: Size, current: Size, imgWidth: int)
    ensures Tick(v, Initial(v, start, imgWidth), current, false, imgWidth).1 <==> (v != Legacy || current != start)
  {
  }

  /** A second tick at the same size does not repaint again. */
  lemma TickSettles(v: Variant, w: Watch, current: Size, inMenu: bool, imgWidth: int)
    ensures var w' := Tick(v, w, current, inMenu, imgWidth).0;
      Tick(v, w', current, inMenu, imgWidth) == (w', false)
  {
  }
}
