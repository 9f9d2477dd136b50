/** The persisted split between the course sidebar and the main pane. */
module SidebarLayout {

  /** Both sizes are percentages of the window width. */
  datatype Layout = Layout(sidebarSize: real, mainSize: real)

  const DefaultLayout := Layout(20.0, 80.0)

  /** A field of the stored object: a number, or anything else (missing, a string, ...). */
  datatype Field = Number(value: real) | NotNumber

  /** What reading the storage key yields: nothing (or an empty string), text that does not parse, or an object. */
  datatype Stored = NothingStored | Unparsable | Parsed(sidebar: Field, main: Field)

  /** The bounds a loaded layout must satisfy to be kept: sidebar in [15, 30], main in [50, 85]. */
  predicate InRange(l: Layout) {
    15.0 <= l.sidebarSize <= 30.0 && 50.0 <= l.mainSize <= 85.0
  }

  /** The layout a stored value describes, when both fields are numbers. */
  function StoredLayout(saved: Stored): (l: Layout)
    requires saved.Parsed? && saved.sidebar.Number? && saved.main.Number?
  {
    Layout(saved.sidebar.value, saved.main.value)
  }

  /** A stored value the loader accepts. */
  predicate Accepted(saved: Stored) {
    saved.Parsed? && saved.sidebar.Number? && saved.main.Number? && InRange(StoredLayout(saved))
  }

  /** The initial layout: the stored one if it passes the check, otherwise the default. */
  function InitialLayout(onServer: bool, saved: Stored): (l: Layout)
    ensures InRange(l)
    ensures !onServer && Accepted(saved) ==> l == StoredLayout(saved)
    ensures onServer || !Accepted(saved) ==> l == DefaultLayout
  {
    if onServer then DefaultLayout
    else if Accepted(saved) then StoredLayout(saved)
    else DefaultLayout
  }

  /** The default itself passes the check, so the loaded layout always lies in range. */
  lemma DefaultInRange()
    ensures InRange(DefaultLayout)
  {
  }

  /** The hook's state: the layout shown and what the storage key holds. */
  class LayoutState {
    var layout: Layout
    var stored: Stored

    constructor(onServer: bool, saved: Stored)
      ensures layout == InitialLayout(onServer, saved)
      ensures stored == saved
    {
      layout := InitialLayout(onServer, saved);
      stored := saved;
    }

    /** `saveLayout`: the first two sizes become the layout and are stored; shorter lists change nothing. */
    method SaveLayout(sizes: seq<real>)
      modifies this
      ensures |sizes| < 2 ==> layout == old(layout) && stored == old(stored)
      ensures |sizes| >= 2 ==> layout == Layout(sizes[0], sizes[1])
      ensures |sizes| >= 2 ==> stored == Parsed(Number(sizes[0]), Number(sizes[1]))
    {
      if |sizes| >= 2 {
        var newLayout := Layout(sizes[0], sizes[1]);
        layout := newLayout;
        stored := Parsed(Number(newLayout.sidebarSize), Number(newLayout.mainSize));
      }
    }
  }

  /** What a later page load shows after `saveLayout(sizes)`. */
  function ReloadAfterSave(sizes: seq<real>): Layout
    requires |sizes| >= 2
  {
    InitialLayout(false, Parsed(Number(sizes[0]), Number(sizes[1])))
  }

  /**
   * Saving does no range check but loading does: a saved layout comes back
   * on the next load exactly when it is in range, and otherwise the default
   * comes back in its place.
   */
  lemma SaveThenReload(sizes: seq<real>)
    requires |sizes| >= 2
    ensures InRange(Layout(sizes[0], sizes[1])) ==> ReloadAfterSave(sizes) == Layout(sizes[0], sizes[1])
    ensures !InRange(Layout(sizes[0], sizes[1])) ==> ReloadAfterSave(sizes) == DefaultLayout
  {
    assert StoredLayout(Parsed(Number(sizes[0]), Number(sizes[1]))) == Layout(sizes[0], sizes[1]);
  }
}
