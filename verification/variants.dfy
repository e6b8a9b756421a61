/** The three versions of the editor and the places where they differ.
    `Reference` is cmdpxl/main.py, `Pixely` is the Application and Drawer
    classes under src/pixely/_internal, `Legacy` is the older main.py at the
    root of the repository. */
module Variants {
  import opened Datatypes
  import opened Draw

  datatype Variant = Reference | Pixely | Legacy

  /** The space bar paints as well as `e` (not in the older main.py). */
  predicate SpacePaints(v: Variant) {
    v != Legacy
  }

  /** Fill (`f`) and the filter menu (`t`) exist (not in the older main.py). */
  predicate HasFillAndFilters(v: Variant) {
    v != Legacy
  }

  /** The menus raise the `in_menu` flag that holds off the resize repaint
      (the older main.py checks the size in its own loop and has no flag). */
  predicate HasMenuFlag(v: Variant) {
    v != Legacy
  }

  /** The text the quit menu's key is looked up in with Python's `in`:
      save, quit, and escape to cancel; the older main.py cancels with `c`. */
  function QuitKeys(v: Variant): string {
    if v == Legacy then "sqc" else "sq" + [Esc]
  }

  /** Every channel of a new canvas: 250, or 255 in the older main.py. */
  function CanvasLevel(v: Variant): int {
    if v == Legacy then 255 else 250
  }

  /** The colour of the box drawn around the image. */
  function EdgeColor(v: Variant): Color {
    if v == Legacy then Color(77, 77, 77) else Color(200, 200, 200)
  }

  /** The brush colour every version starts with (hue, saturation, value). */
  const StartColor: Color := Color(90, 125, 125)
}
