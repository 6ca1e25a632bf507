/** The widths of the resizable panes (`clamp`, `startSidebarResize` and
    `startLayoutResize` in frontend/src/App.tsx): a file sidebar, and an
    editor, an assistant and a right-hand preview separated by two
    splitters. Widths are whole pixels here. */
module PaneLayout {
  import opened Wrappers

  const SplitterPx := 6
  const MinSidebarPx := 240
  const MaxSidebarPx := 520
  const MinPanePx := 280

  /** `Math.max(min, Math.min(max, n))`: the point of `[min, max]` nearest
      to `n` when the interval is not empty, and `min` otherwise. */
  function Clamp(n: int, min: int, max: int): (r: int)
    ensures r >= min
    ensures min <= max ==> r <= max
    ensures min <= n <= max ==> r == n
    ensures n < min ==> r == min
    ensures min <= max < n ==> r == max
    ensures max < min ==> r == min
  {
    var m := if max < n then max else n;
    if min > m then min else m
  }

  /** The sidebar width during a drag that started at `startW` and has
      moved `dx` pixels. */
  function SidebarDrag(startW: int, dx: int): (w: int)
    ensures MinSidebarPx <= w <= MaxSidebarPx
    ensures MinSidebarPx <= startW + dx <= MaxSidebarPx ==> w == startW + dx
  {
    Clamp(startW + dx, MinSidebarPx, MaxSidebarPx)
  }

  datatype Panes = Panes(editor: int, assistant: int, right: int)

  /** Which splitter is dragged. */
  datatype Splitter = EditorAssistant | AssistantRight

  function Total(p: Panes): int {
    p.editor + p.assistant + p.right
  }

  /** The width shared by the three panes: the host's width less the two
      splitters (the start widths plus the splitters when there is no
      host element), but never less than three minimal panes. */
  function Usable(host: Option<int>, start: Panes): (u: int)
    ensures u >= 3 * MinPanePx
    ensures host.None? ==> u >= Total(start)
  {
    var hostW := match host
      case Some(w) => w
      case None => Total(start) + SplitterPx * 2;
    var avail := hostW - SplitterPx * 2;
    if 3 * MinPanePx > avail then 3 * MinPanePx else avail
  }

  /** The pane widths during a drag of `which` by `dx` pixels from `start`. */
  function LayoutDrag(which: Splitter, start: Panes, host: Option<int>, dx: int): (p: Panes)
    ensures p.editor >= MinPanePx && p.assistant >= MinPanePx && p.right >= MinPanePx
  {
    var usable := Usable(host, start);
    match which
    case EditorAssistant =>
      var editor := Clamp(start.editor + dx, MinPanePx, usable - MinPanePx - MinPanePx);
      var assistant := Clamp(start.assistant - dx, MinPanePx, usable - editor - MinPanePx);
      var right := Clamp(usable - editor - assistant, MinPanePx, usable);
      Panes(editor, assistant, right)
    case AssistantRight =>
      var assistant := Clamp(start.assistant + dx, MinPanePx, usable - MinPanePx - MinPanePx);
      var right := Clamp(start.right - dx, MinPanePx, usable - start.editor - MinPanePx);
      var editor := Clamp(usable - assistant - right, MinPanePx, usable);
      Panes(editor, assistant, right)
  }

  // ---------------------------------------------------------------------
  // Properties of a drag
  // ---------------------------------------------------------------------

  /** Dragging the editor/assistant splitter always fills the usable width
      exactly, and leaves every pane at most `usable - 2 * MinPanePx`. */
  lemma EditorAssistantFills(start: Panes, host: Option<int>, dx: int)
    ensures var p, u := LayoutDrag(EditorAssistant, start, host, dx), Usable(host, start);
      && Total(p) == u
      && p.editor <= u - 2 * MinPanePx && p.assistant <= u - 2 * MinPanePx && p.right <= u - 2 * MinPanePx
  {
  }

  /** Dragging the assistant/right splitter fills the usable width exactly
      when the editor started at least minimal and the three panes started
      within the usable width, as they do without a host element. */
  lemma AssistantRightFills(start: Panes, host: Option<int>, dx: int)
    requires start.editor >= MinPanePx
    requires Total(start) <= Usable(host, start)
    ensures Total(LayoutDrag(AssistantRight, start, host, dx)) == Usable(host, start)
  {
  }

  /** Moving the assistant/right splitter keeps the assistant and the right
      pane summing to what they summed to, as long as neither hits a bound. */
  lemma AssistantRightTradesWidth(start: Panes, host: Option<int>, dx: int)
    requires var u := Usable(host, start);
      && MinPanePx <= start.assistant + dx <= u - 2 * MinPanePx
      && MinPanePx <= start.right - dx <= u - start.editor - MinPanePx
    ensures var p := LayoutDrag(AssistantRight, start, host, dx);
      p.assistant == start.assistant + dx && p.right == start.right - dx
  {
  }

  /** Without a host element, and with the editor not smaller than a pane,
      the usable width is exactly what the three panes started with, so a
      drag of either splitter preserves their total. */
  lemma DragWithoutHostKeepsTotal(which: Splitter, start: Panes, dx: int)
    requires start.editor >= MinPanePx
    requires Total(start) >= 3 * MinPanePx
    ensures Total(LayoutDrag(which, start, None, dx)) == Total(start)
  {
    if which == AssistantRight {
      AssistantRightFills(start, None, dx);
    }
  }
}
