/** The context-building endpoint (`POST /api/context/build`,
    backend/app/api/context.py): request validation, then either a
    selection or a cursor turned into a centre for the structured context. */
module ContextApi {
  import opened Text
  import opened Wrappers
  import opened ContextExtract

  /** `ContextBuildRequest`; absent optional fields are `None`. */
  datatype Request = Request(
    source: string,
    cursor: Option<int>,
    selectionStart: Option<int>,
    selectionEnd: Option<int>,
    maxChars: int,
    maxTokens: int)

  /** A request with only the source given takes the declared defaults:
      it passes validation unchanged and is centred on the end of the
      source. */
  function DefaultRequest(source: string): (r: Request)
    ensures r.source == source
    ensures ValidateBounds(r) == Success(r)
    ensures Center(r) == |source|
    ensures r.maxChars == 4000 && r.maxTokens == 1000
  {
    Request(source, None, None, None, 4000, 1000)
  }

  /** The reasons `_validate_bounds` rejects a request, checked in this
      order. */
  datatype BoundsError = BadLimits | SelectionHalfGiven | CursorOutOfBounds | SelectionOutOfBounds

  function BoundsMessage(e: BoundsError): string {
    match e
    case BadLimits => "maxContextChars and maxContextTokens must be > 0"
    case SelectionHalfGiven => "selectionStart and selectionEnd must be provided together"
    case CursorOutOfBounds => "cursorIndex out of bounds"
    case SelectionOutOfBounds => "selectionStart/selectionEnd out of bounds"
  }

  predicate InSource(i: int, n: nat) {
    0 <= i <= n
  }

  /** `_validate_bounds`: the first failing check, or the request itself. */
  function ValidateBounds(req: Request): (r: Result<Request, BoundsError>)
    ensures r.Success? ==> r.value == req
  {
    var n := |req.source|;
    if req.maxChars <= 0 || req.maxTokens <= 0 then Failure(BadLimits)
    else if req.selectionStart.None? != req.selectionEnd.None? then Failure(SelectionHalfGiven)
    else if req.cursor.Some? && !InSource(req.cursor.value, n) then Failure(CursorOutOfBounds)
    else if req.selectionStart.Some? && req.selectionEnd.Some?
      && (!InSource(req.selectionStart.value, n) || !InSource(req.selectionEnd.value, n))
    then Failure(SelectionOutOfBounds)
    else Success(req)
  }

  /** What a request that passes validation satisfies. */
  predicate Admissible(req: Request) {
    var n := |req.source|;
    && req.maxChars > 0 && req.maxTokens > 0
    && req.selectionStart.None? == req.selectionEnd.None?
    && (req.cursor.Some? ==> InSource(req.cursor.value, n))
    && (req.selectionStart.Some? ==> InSource(req.selectionStart.value, n) && InSource(req.selectionEnd.value, n))
  }

  /** A request is accepted exactly when it is admissible; a rejection
      names the first check in source order that fails. */
  lemma ValidationIff(req: Request)
    ensures ValidateBounds(req).Success? <==> Admissible(req)
    ensures ValidateBounds(req) == Failure(BadLimits) <==> req.maxChars <= 0 || req.maxTokens <= 0
    ensures ValidateBounds(req) == Failure(SelectionHalfGiven) <==>
      req.maxChars > 0 && req.maxTokens > 0 && req.selectionStart.None? != req.selectionEnd.None?
    ensures ValidateBounds(req) == Failure(CursorOutOfBounds) <==>
      && req.maxChars > 0 && req.maxTokens > 0 && req.selectionStart.None? == req.selectionEnd.None?
      && req.cursor.Some? && !InSource(req.cursor.value, |req.source|)
    ensures ValidateBounds(req) == Failure(SelectionOutOfBounds) <==>
      && req.maxChars > 0 && req.maxTokens > 0 && req.selectionStart.None? == req.selectionEnd.None?
      && (req.cursor.Some? ==> InSource(req.cursor.value, |req.source|))
      && req.selectionStart.Some?
      && (!InSource(req.selectionStart.value, |req.source|) || !InSource(req.selectionEnd.value, |req.source|))
  {
  }

  /** `_slice_window(source, center, window)`. */
  function SliceWindow(source: string, center: int, window: int): (r: string)
    ensures IsSubstring(r, source)
    ensures window >= 0 && center + window >= 0 ==> |r| <= 2 * window
  {
    var start, end := WindowStart(center, window), WindowEnd(|source|, center, window);
    var r := Slice(source, start, end);
    var lo, hi := SliceBound(start, |source|), SliceBound(end, |source|);
    if lo <= hi then
      assert r == source[lo..hi];
      r
    else
      assert r == source[0..0];
      r
  }

  /** `max(0, min(i, n))`. */
  function ClampIndex(i: int, n: nat): (r: nat)
    ensures r <= n
    ensures InSource(i, n) ==> r == i
    ensures i < 0 ==> r == 0
    ensures i > n ==> r == n
  {
    var m := if i < n then i else n;
    if m > 0 then m else 0
  }

  /** The normalised selection: both ends clamped into the source, swapped
      when reversed; the selected text and its centre. */
  datatype Selection = Selection(start: nat, end: nat, text: string, center: int)

  function NormalizeSelection(source: string, selStart: int, selEnd: int): (s: Selection)
    ensures s.start <= s.end <= |source|
    ensures |s.text| == s.end - s.start
    ensures forall i :: 0 <= i < |s.text| ==> s.start + i < |source| && s.text[i] == source[s.start + i]
    ensures s.start <= s.center <= s.end
    ensures s.start + s.end - 1 <= 2 * s.center <= s.start + s.end
    ensures || (s.start == ClampIndex(selStart, |source|) && s.end == ClampIndex(selEnd, |source|))
            || (s.start == ClampIndex(selEnd, |source|) && s.end == ClampIndex(selStart, |source|))
  {
    var a := ClampIndex(selStart, |source|);
    var b := ClampIndex(selEnd, |source|);
    var start, end := if b < a then b else a, if b < a then a else b;
    Selection(start, end, Slice(source, start, end), (start + end) / 2)
  }

  /** The cursor: the end of the source when absent, clamped into it. */
  function CursorOf(req: Request): (c: nat)
    ensures c <= |req.source|
    ensures req.cursor.None? ==> c == |req.source|
    ensures req.cursor.Some? && InSource(req.cursor.value, |req.source|) ==> c == req.cursor.value
  {
    ClampIndex(req.cursor.GetOr(|req.source|), |req.source|)
  }

  /** The two shapes of the response's metadata. */
  datatype Mode = SelectionMode(selection: string) | CursorMode(cursorIndex: nat)

  datatype Response = Response(context: string, mode: Mode, structured: Structured)

  /** The centre the structured context is built around. */
  function Center(req: Request): (c: int)
    ensures 0 <= c <= |req.source|
  {
    if req.selectionStart.Some? && req.selectionEnd.Some? then
      NormalizeSelection(req.source, req.selectionStart.value, req.selectionEnd.value).center
    else CursorOf(req)
  }

  /** `build(req)` for a validated request; `found` and `ast` are what the
      parser reports on the source's window and on the combined text. */
  function Build(req: Request, found: Found, ast: LatexAst): (r: Response)
    ensures |r.context| <= if req.maxChars <= 0 then 0 else req.maxChars
    ensures EstimateTokens(r.context) <= if req.maxTokens <= 0 then 0 else req.maxTokens
    ensures r.structured.start == WindowStart(Center(req), 2000)
    ensures r.structured.end == WindowEnd(|req.source|, Center(req), 2000)
  {
    var center := Center(req);
    var built := BuildStructured(req.source, center, req.maxChars, req.maxTokens, found, ast);
    var mode := if req.selectionStart.Some? && req.selectionEnd.Some? then
      SelectionMode(NormalizeSelection(req.source, req.selectionStart.value, req.selectionEnd.value).text)
    else CursorMode(CursorOf(req));
    Response(built.0, mode, built.1)
  }

  // ---------------------------------------------------------------------
  // Properties
  // ---------------------------------------------------------------------

  /** After validation the clamps change nothing: the selection is the
      given range (in increasing order) and the cursor is the given one. */
  lemma ValidatedNeedsNoClamp(req: Request)
    requires ValidateBounds(req).Success?
    ensures req.selectionStart.Some? ==>
      var s := NormalizeSelection(req.source, req.selectionStart.value, req.selectionEnd.value);
      var a, b := req.selectionStart.value, req.selectionEnd.value;
      s.start == (if a <= b then a else b) && s.end == (if a <= b then b else a)
    ensures req.cursor.Some? ==> CursorOf(req) == req.cursor.value
  {
    ValidationIff(req);
  }

  /** The structured window of a request always lies within the source and
      holds the centre. */
  lemma WindowInsideSource(req: Request, found: Found, ast: LatexAst)
    ensures var r := Build(req, found, ast);
      0 <= r.structured.start <= Center(req) <= r.structured.end <= |req.source|
  {
    WindowBounds(|req.source|, Center(req), 2000);
  }

  /** Selecting characters 4 to 11 of `AAA BBB CCC DDD` selects
      `BBB CCC`. */
  lemma SelectionExample()
    ensures NormalizeSelection("AAA BBB CCC DDD", 4, 11).text == "BBB CCC"
    ensures NormalizeSelection("AAA BBB CCC DDD", 11, 4).text == "BBB CCC"
  {
  }
}
