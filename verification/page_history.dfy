/** The PDF preview's page navigation (`goToPage`, `undoPage` and
    `redoPage` in frontend/src/App.tsx): the current page, the page count
    once the document has loaded, and a browser-style back/forward history
    of visited pages with a position in it. */
module PageHistory {
  import opened Wrappers

  /** The four pieces of React state the navigator reads and writes. The
      page count is `null` until the renderer reports it. */
  datatype Viewer = Viewer(page: int, pageCount: Option<int>, history: seq<int>, index: int)

  /** The position always points into the history. */
  predicate Valid(v: Viewer) {
    0 <= v.index < |v.history|
  }

  /** The state after a compile: page 1, no count, history `[1]`. */
  const Compiled := Viewer(1, None, [1], 0)

  /** JavaScript's `!pdfPageCount` for a count that is `null` or a number. */
  predicate NoCount(count: Option<int>) {
    count.None? || count.value == 0
  }

  /** `Math.min(Math.max(next, 1), count)`. */
  function ClampPage(next: int, count: int): (r: int)
    ensures count >= 1 ==> 1 <= r <= count
    ensures 1 <= next <= count ==> r == next
    ensures count >= 1 && next < 1 ==> r == 1
    ensures count >= 1 && next > count ==> r == count
    ensures r <= count
  {
    var lo := if next > 1 then next else 1;
    if lo < count then lo else count
  }

  /** `goToPage(next, pushHistory)`: nothing without a page count;
      otherwise the clamped page becomes current and, when pushing, the
      forward part of the history is dropped and the page appended. */
  function GoToPage(v: Viewer, next: int, push: bool): (w: Viewer)
    requires Valid(v)
    ensures Valid(w)
    ensures NoCount(v.pageCount) ==> w == v
    ensures !NoCount(v.pageCount) ==> w.page == ClampPage(next, v.pageCount.value)
    ensures !push ==> w.history == v.history && w.index == v.index
    ensures !NoCount(v.pageCount) && push ==>
      && w.history == v.history[..v.index + 1] + [w.page]
      && w.index == v.index + 1
    ensures w.pageCount == v.pageCount
  {
    if NoCount(v.pageCount) then v
    else
      var clamped := ClampPage(next, v.pageCount.value);
      if push then
        var hist := v.history[..v.index + 1] + [clamped];
        Viewer(clamped, v.pageCount, hist, |hist| - 1)
      else v.(page := clamped)
  }

  /** `undoPage()`: one step back, unless already at the first entry. */
  function UndoPage(v: Viewer): (w: Viewer)
    requires Valid(v)
    ensures Valid(w)
    ensures v.index <= 0 ==> w == v
    ensures v.index > 0 ==> w == v.(index := v.index - 1, page := v.history[v.index - 1])
  {
    if v.index <= 0 then v
    else v.(index := v.index - 1, page := v.history[v.index - 1])
  }

  /** `redoPage()`: one step forward, unless already at the last entry. */
  function RedoPage(v: Viewer): (w: Viewer)
    requires Valid(v)
    ensures Valid(w)
    ensures v.index >= |v.history| - 1 ==> w == v
    ensures v.index < |v.history| - 1 ==> w == v.(index := v.index + 1, page := v.history[v.index + 1])
  {
    if v.index >= |v.history| - 1 then v
    else v.(index := v.index + 1, page := v.history[v.index + 1])
  }

  /** The renderer reports `totalPages`: the count is recorded and, when the
      current page lies beyond it, page and history restart at the last
      page. */
  function DocumentLoaded(v: Viewer, totalPages: nat): (w: Viewer)
    requires Valid(v)
    ensures Valid(w)
    ensures w.pageCount == Some(totalPages as int)
    ensures w.page <= totalPages
    ensures v.page <= totalPages ==> w == v.(pageCount := Some(totalPages as int))
    ensures v.page > totalPages ==>
      && w.page == totalPages
      && w.history == [totalPages as int]
      && w.index == 0
  {
    if v.page > totalPages then Viewer(totalPages, Some(totalPages), [totalPages], 0)
    else v.(pageCount := Some(totalPages))
  }

  // ---------------------------------------------------------------------
  // Navigation laws
  // ---------------------------------------------------------------------

  /** The page shown is the history entry at the position. */
  predicate InSync(v: Viewer)
    requires Valid(v)
  {
    v.page == v.history[v.index]
  }

  /** Going back and then forward again returns to where one was, and so
      does going forward and then back. */
  lemma UndoRedo(v: Viewer)
    requires Valid(v) && InSync(v)
    ensures v.index > 0 ==> RedoPage(UndoPage(v)) == v
    ensures v.index < |v.history| - 1 ==> UndoPage(RedoPage(v)) == v
  {
  }

  /** Right after pushing a page, back returns to the page one left, and
      there is nothing to go forward to. */
  lemma UndoAfterGoTo(v: Viewer, next: int)
    requires Valid(v) && !NoCount(v.pageCount)
    ensures var w := GoToPage(v, next, true);
      && UndoPage(w).page == v.history[v.index]
      && UndoPage(w).index == v.index
      && UndoPage(w).history[..v.index + 1] == v.history[..v.index + 1]
      && RedoPage(w) == w
  {
  }

  /** A jump does not change the visited pages behind the position. */
  lemma GoToKeepsPast(v: Viewer, next: int, push: bool)
    requires Valid(v)
    ensures var w := GoToPage(v, next, push);
      w.history[..v.index + 1] == v.history[..v.index + 1]
  {
  }

  /** With a count, every page the navigator shows or records lies within
      the document. */
  predicate PagesInRange(v: Viewer, count: int) {
    1 <= v.page <= count && forall i :: 0 <= i < |v.history| ==> 1 <= v.history[i] <= count
  }

  lemma NavigationStaysInDocument(v: Viewer, next: int, push: bool)
    requires Valid(v) && v.pageCount.Some? && v.pageCount.value >= 1
    requires PagesInRange(v, v.pageCount.value)
    ensures PagesInRange(GoToPage(v, next, push), v.pageCount.value)
    ensures PagesInRange(UndoPage(v), v.pageCount.value)
    ensures PagesInRange(RedoPage(v), v.pageCount.value)
  {
  }
}
