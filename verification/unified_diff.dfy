/** The assistant pane's unified-diff applier (`applyUnifiedDiff` in
    frontend/src/App.tsx): a single forward pass over the patch lines that
    trusts each hunk header's target position, never fails, and skips lines
    it does not understand. */
module UnifiedDiff {
  import opened Text
  import opened Wrappers

  // ---------------------------------------------------------------------
  // The hunk-header recogniser: /@@\s-\d+(?:,\d+)?\s\+(\d+)(?:,\d+)?\s@@/
  // ---------------------------------------------------------------------

  /** ECMAScript `\s`: the WhiteSpace and LineTerminator code points. */
  predicate IsJsSpace(c: char) {
    || c == '\t' || c == '\n' || c == '\U{000B}' || c == '\U{000C}' || c == '\r' || c == ' '
    || c == '\U{00A0}' || c == '\U{1680}' || ('\U{2000}' <= c <= '\U{200A}')
    || c == '\U{2028}' || c == '\U{2029}' || c == '\U{202F}' || c == '\U{205F}'
    || c == '\U{3000}' || c == '\U{FEFF}'
  }

  /** ECMAScript `\d`: ASCII digits only. */
  predicate IsDigit(c: char) {
    '0' <= c <= '9'
  }

  predicate AllDigits(ds: string) {
    forall k :: 0 <= k < |ds| ==> IsDigit(ds[k])
  }

  /** The length of the maximal run of digits in `s` that starts at `p`. */
  function DigitRun(s: string, p: nat): (n: nat)
    requires p <= |s|
    ensures p + n <= |s|
    decreases |s| - p
  {
    if p < |s| && IsDigit(s[p]) then 1 + DigitRun(s, p + 1) else 0
  }

  /** The run is all digits and cannot be extended. */
  lemma {:induction false} DigitRunMaximal(s: string, p: nat)
    requires p <= |s|
    ensures AllDigits(s[p..p + DigitRun(s, p)])
    ensures p + DigitRun(s, p) == |s| || !IsDigit(s[p + DigitRun(s, p)])
    decreases |s| - p
  {
    if p < |s| && IsDigit(s[p]) {
      DigitRunMaximal(s, p + 1);
      assert s[p..p + DigitRun(s, p)] == [s[p]] + s[p + 1..p + 1 + DigitRun(s, p + 1)];
    }
  }

  /** The value of a digit string, as `Number.parseInt(ds, 10)` reads it. */
  function DecimalValue(ds: string): nat
  {
    if |ds| == 0 then 0
    else
      var d := ds[|ds| - 1] as int - '0' as int;
      DecimalValue(ds[..|ds| - 1]) * 10 + (if 0 <= d then d else 0)
  }

  /** Matches `\d+(?:,\d+)?` at `p` and returns where the match ends. Both
      digit runs are greedy; the regex cannot backtrack into a shorter run,
      since the character that must follow it (`,` or white space) is never
      a digit. */
  function RangeEnd(s: string, p: nat): (r: Option<nat>)
    requires p <= |s|
    ensures r.Some? ==> p < r.value <= |s|
  {
    var d := DigitRun(s, p);
    if d == 0 then None
    else
      var q := p + d;
      if q < |s| && s[q] == ',' && DigitRun(s, q + 1) > 0 then Some(q + 1 + DigitRun(s, q + 1))
      else Some(q)
  }

  /** `@@\s-` at `p`. */
  predicate OpensHeader(s: string, p: nat) {
    p + 4 <= |s| && s[p] == '@' && s[p + 1] == '@' && IsJsSpace(s[p + 2]) && s[p + 3] == '-'
  }

  /** `\s@@` at `p`. */
  predicate ClosesHeader(s: string, p: nat) {
    p + 3 <= |s| && IsJsSpace(s[p]) && s[p + 1] == '@' && s[p + 2] == '@'
  }

  /** `\s\+(\d+)(?:,\d+)?\s@@` at `p`, yielding the captured number. */
  function TargetRange(s: string, p: nat): Option<nat>
    requires p <= |s|
  {
    if !(p + 2 <= |s| && IsJsSpace(s[p]) && s[p + 1] == '+') then None
    else match RangeEnd(s, p + 2)
      case None => None
      case Some(q) =>
        if ClosesHeader(s, q) then Some(DecimalValue(s[p + 2..p + 2 + DigitRun(s, p + 2)])) else None
  }

  /** The header pattern anchored at position `p`, yielding the captured
      target start. When an optional `,len` group is present but no white
      space follows it, dropping the group leaves `,` where white space is
      needed, so the match fails either way. */
  function MatchAt(s: string, p: nat): Option<nat>
  {
    if !OpensHeader(s, p) then None
    else match RangeEnd(s, p + 4)
      case None => None
      case Some(q) => TargetRange(s, q)
  }

  /** The first answer `f` gives at positions `p`, `p + 1`, ..., `last`:
      how `RegExp.prototype.exec` reports the leftmost match of an
      unanchored pattern. */
  function FindFirst<T>(f: nat -> Option<T>, p: nat, last: nat): Option<T>
    decreases last - p
  {
    if p >= last then f(p)
    else if f(p).Some? then f(p)
    else FindFirst(f, p + 1, last)
  }

  /** The search returns the answer at the leftmost position that has one,
      and finds nothing only when no position has one. */
  lemma {:induction false} FindFirstIsLeftmost<T>(f: nat -> Option<T>, p: nat, last: nat)
    requires p <= last
    ensures FindFirst(f, p, last).Some? ==>
      exists q :: p <= q <= last && f(q) == FindFirst(f, p, last) &&
        forall q' :: p <= q' < q ==> f(q').None?
    ensures FindFirst(f, p, last).None? <==> forall q :: p <= q <= last ==> f(q).None?
    decreases last - p
  {
    if p < last && f(p).None? {
      FindFirstIsLeftmost(f, p + 1, last);
      if FindFirst(f, p, last).Some? {
        var q :| p + 1 <= q <= last && f(q) == FindFirst(f, p + 1, last) &&
          forall q' :: p + 1 <= q' < q ==> f(q').None?;
        assert forall q' :: p <= q' < q ==> f(q').None?;
      }
    }
  }

  /** `RegExp.prototype.exec` on the header pattern: the leftmost match in
      the line (a match needs at least seven characters, so none starts at
      the very end). */
  function FindHeader(s: string): Option<nat> {
    FindFirst(q => MatchAt(s, q), 0, |s|)
  }

  /** The 1-based target start of a hunk header line, or `None` when the
      applier skips the line: it must start with `@@` and contain a match of
      the header pattern. */
  function HunkTarget(line: string): (r: Option<nat>)
    ensures r.Some? ==> StartsWith(line, "@@")
  {
    if StartsWith(line, "@@") then FindHeader(line) else None
  }

  // ---------------------------------------------------------------------
  // Applying the patch, one patch line at a time
  // ---------------------------------------------------------------------

  /** Everything the applier carries from one patch line to the next:
      whether it is inside a hunk body, the cursor into the original lines,
      the lines emitted so far and the two counters. */
  datatype ApplyState = ApplyState(inBody: bool, index: nat, output: seq<string>, added: nat, removed: nat)

  const Start := ApplyState(false, 0, [], 0, 0)

  /** The result the applier returns. */
  datatype Applied = Applied(text: string, added: nat, removed: nat)

  /** JavaScript's `Math.max(0, n - 1)`: a 1-based line number as a cursor. */
  function CursorOf(n: nat): nat {
    if n >= 1 then n - 1 else 0
  }

  /** How the applier reads one patch line. */
  datatype LineKind =
    | Header(target: nat)        // `@@` line matching the header pattern
    | BadHeader                  // `@@` line that does not match it
    | Context(text: string)      // ` ` line, marker stripped
    | Removal                    // `-` line, including `---`
    | Addition(text: string)     // `+` line, including `+++`, marker stripped
    | Ignored                    // anything else: `\`, empty, other

  function Classify(line: string): (k: LineKind)
    ensures (k.Header? || k.BadHeader?) <==> StartsWith(line, "@@")
    ensures k.Header? <==> HunkTarget(line).Some?
    ensures k.Header? ==> HunkTarget(line) == Some(k.target)
    ensures k.Context? <==> StartsWith(line, " ")
    ensures k.Removal? <==> StartsWith(line, "-")
    ensures k.Addition? <==> StartsWith(line, "+")
    ensures k.Context? || k.Addition? ==> k.text == line[1..]
  {
    if StartsWith(line, "@@") then
      match HunkTarget(line)
      case Some(n) => Header(n)
      case None => BadHeader
    else if StartsWith(line, " ") then Context(line[1..])
    else if StartsWith(line, "-") then Removal
    else if StartsWith(line, "+") then Addition(line[1..])
    else Ignored
  }

  /** Entering a hunk whose first original line sits at cursor `t`: the
      original lines between the cursor and `t` are copied, and the cursor
      moves to `t`; a `t` at or before the cursor copies nothing. */
  function Enter(orig: seq<string>, c: ApplyState, t: nat): (d: ApplyState)
    ensures d.inBody
    ensures d.index == if t > c.index then t else c.index
    ensures d.output == c.output + Slice(orig, c.index, d.index)
    ensures d.added == c.added && d.removed == c.removed
  {
    if t > c.index then ApplyState(true, t, c.output + Slice(orig, c.index, t), c.added, c.removed)
    else
      assert Slice(orig, c.index, c.index) == [];
      c.(inBody := true)
  }

  /** The effect of one patch line. A line starting with `@@` is a header
      attempt wherever it occurs; any other line only matters inside a hunk
      body. Outside a body `---`/`+++` headers, like every other non-`@@`
      line, leave the state alone; inside a body a `---` line is a removal. */
  function Step(orig: seq<string>, c: ApplyState, line: string): (d: ApplyState)
    ensures c.index <= d.index
    ensures c.output <= d.output
    ensures c.added <= d.added && c.removed <= d.removed
  {
    StepOn(orig, c, Classify(line))
  }

  /** The effect of a patch line of the given kind. */
  function StepOn(orig: seq<string>, c: ApplyState, k: LineKind): (d: ApplyState)
    ensures c.index <= d.index
    ensures c.output <= d.output
    ensures c.added <= d.added && c.removed <= d.removed
  {
    match k
    case Header(n) => Enter(orig, c, CursorOf(n))
    case BadHeader => c.(inBody := false)
    case Context(text) =>
      if !c.inBody then c
      else c.(index := c.index + 1, output := c.output + [if c.index < |orig| then orig[c.index] else text])
    case Removal =>
      if !c.inBody then c
      else c.(index := c.index + 1, removed := c.removed + 1)
    case Addition(text) =>
      if !c.inBody then c
      else c.(output := c.output + [text], added := c.added + 1)
    case Ignored => c
  }

  /** The state after the given patch lines, read first to last. */
  function Walk(orig: seq<string>, lines: seq<string>): ApplyState
    decreases |lines|
  {
    if |lines| == 0 then Start
    else Step(orig, Walk(orig, lines[..|lines| - 1]), lines[|lines| - 1])
  }

  function FinalState(original: string, patch: string): ApplyState {
    Walk(Split(original, '\n'), Split(patch, '\n'))
  }

  /** The lines a state stands for once the patch is exhausted: everything
      emitted, then the original from the cursor on. */
  function Finish(orig: seq<string>, c: ApplyState): seq<string> {
    c.output + Slice(orig, c.index, |orig|)
  }

  /** The result's lines. */
  function ResultLines(original: string, patch: string): seq<string> {
    Finish(Split(original, '\n'), FinalState(original, patch))
  }

  /** `applyUnifiedDiff(original, patch)`. */
  function Apply(original: string, patch: string): Applied {
    var c := FinalState(original, patch);
    Applied(Join(ResultLines(original, patch), "\n"), c.added, c.removed)
  }

  lemma WalkNext(orig: seq<string>, lines: seq<string>, i: nat)
    requires i < |lines|
    ensures Walk(orig, lines[..i + 1]) == Step(orig, Walk(orig, lines[..i]), lines[i])
  {
    assert lines[..i + 1][..i] == lines[..i];
  }

  /** Outside a hunk body only `@@` lines have an effect. */
  lemma OutsideBodyIgnored(orig: seq<string>, c: ApplyState, line: string)
    requires !c.inBody && !StartsWith(line, "@@")
    ensures Step(orig, c, line) == c
  {
  }

  /** How one line inside a hunk body changes the state. */
  lemma BodyLineStep(orig: seq<string>, c: ApplyState, line: string)
    requires c.inBody && !StartsWith(line, "@@")
    ensures StartsWith(line, " ") ==>
      Step(orig, c, line) == c.(index := c.index + 1, output := c.output + [if c.index < |orig| then orig[c.index] else line[1..]])
    ensures StartsWith(line, "-") ==> Step(orig, c, line) == c.(index := c.index + 1, removed := c.removed + 1)
    ensures StartsWith(line, "+") ==> Step(orig, c, line) == c.(output := c.output + [line[1..]], added := c.added + 1)
    ensures !StartsWith(line, " ") && !StartsWith(line, "-") && !StartsWith(line, "+") ==> Step(orig, c, line) == c
  {
  }

  /** The inner loop of the applier: consumes hunk-body lines up to the
      next `@@` line or the end of the patch. */
  method ApplyHunkBody(origLines: seq<string>, patchLines: seq<string>, i0: nat,
                       index0: nat, output0: seq<string>, added0: nat, removed0: nat)
    returns (i: nat, index: nat, output: seq<string>, added: nat, removed: nat)
    requires i0 <= |patchLines|
    requires Walk(origLines, patchLines[..i0]) == ApplyState(true, index0, output0, added0, removed0)
    ensures i0 <= i <= |patchLines|
    ensures i == |patchLines| || StartsWith(patchLines[i], "@@")
    ensures Walk(origLines, patchLines[..i]) == ApplyState(true, index, output, added, removed)
  {
    i, index, output, added, removed := i0, index0, output0, added0, removed0;
    while i < |patchLines| && !StartsWith(patchLines[i], "@@")
      invariant i0 <= i <= |patchLines|
      invariant Walk(origLines, patchLines[..i]) == ApplyState(true, index, output, added, removed)
    {
      var hunkLine := patchLines[i];
      WalkNext(origLines, patchLines, i);
      BodyLineStep(origLines, ApplyState(true, index, output, added, removed), hunkLine);
      if StartsWith(hunkLine, " ") {
        output := output + [if index < |origLines| then origLines[index] else hunkLine[1..]];
        index := index + 1;
      } else if StartsWith(hunkLine, "-") {
        removed := removed + 1;
        index := index + 1;
      } else if StartsWith(hunkLine, "+") {
        added := added + 1;
        output := output + [hunkLine[1..]];
      } else if StartsWith(hunkLine, "\\") {
        // no newline marker, ignore
      }
      i := i + 1;
    }
  }

  /** The applier as the source writes it: an outer loop looking for hunk
      headers, handing each hunk body to the inner loop. */
  method ApplyUnifiedDiff(original: string, patch: string) returns (text: string, added: nat, removed: nat)
    ensures Applied(text, added, removed) == Apply(original, patch)
  {
    var origLines := Split(original, '\n');
    var patchLines := Split(patch, '\n');
    var output: seq<string> := [];
    var index: nat := 0;
    added, removed := 0, 0;
    ghost var inBody := false;

    var i := 0;
    while i < |patchLines|
      invariant 0 <= i <= |patchLines|
      invariant Walk(origLines, patchLines[..i]) == ApplyState(inBody, index, output, added, removed)
      invariant inBody ==> i == |patchLines| || StartsWith(patchLines[i], "@@")
    {
      var line := patchLines[i];
      WalkNext(origLines, patchLines, i);
      if StartsWith(line, "---") || StartsWith(line, "+++") {
        OutsideBodyIgnored(origLines, ApplyState(inBody, index, output, added, removed), line);
        i := i + 1;
        continue;
      }
      if !StartsWith(line, "@@") {
        OutsideBodyIgnored(origLines, ApplyState(inBody, index, output, added, removed), line);
        i := i + 1;
        continue;
      }
      var header := HunkTarget(line);
      if header.None? {
        assert Step(origLines, ApplyState(inBody, index, output, added, removed), line)
            == ApplyState(false, index, output, added, removed);
        inBody := false;
        i := i + 1;
        continue;
      }
      var targetStart := CursorOf(header.value);
      HeaderCopiesGap(origLines, ApplyState(inBody, index, output, added, removed), line, header.value);
      if targetStart > index {
        output := output + Slice(origLines, index, targetStart);
        index := targetStart;
      }
      inBody := true;
      i := i + 1;
      i, index, output, added, removed := ApplyHunkBody(origLines, patchLines, i, index, output, added, removed);
    }
    assert patchLines[..i] == patchLines;
    output := output + Slice(origLines, index, |origLines|);
    text := Join(output, "\n");
  }

  // ---------------------------------------------------------------------
  // Properties
  // ---------------------------------------------------------------------

  /** A patch in which no line is a recognisable hunk header leaves the
      state where it started. */
  lemma {:induction false} WalkWithoutHeaders(orig: seq<string>, lines: seq<string>)
    requires forall k :: 0 <= k < |lines| ==> HunkTarget(lines[k]).None?
    ensures Walk(orig, lines) == Start
    decreases |lines|
  {
    if |lines| > 0 {
      WalkWithoutHeaders(orig, lines[..|lines| - 1]);
    }
  }

  /** Without a hunk header the original comes back unchanged, with both
      counters at zero. */
  lemma NoHunkIsIdentity(original: string, patch: string)
    requires forall k :: 0 <= k < |Split(patch, '\n')| ==> HunkTarget(Split(patch, '\n')[k]).None?
    ensures Apply(original, patch) == Applied(original, 0, 0)
  {
    var orig := Split(original, '\n');
    WalkWithoutHeaders(orig, Split(patch, '\n'));
    assert FinalState(original, patch) == Start;
    assert ResultLines(original, patch) == orig by {
      assert Slice(orig, 0, |orig|) == orig;
    }
    JoinSplit(original, '\n');
  }

  /** After a header targeting line `t` and `k - 1` context lines, the
      applier has copied the original up to the cursor and changed
      nothing, as long as the context stays within the original. */
  lemma {:induction false} ContextPrefix(orig: seq<string>, lines: seq<string>, t: nat, k: nat)
    requires 1 <= k <= |lines|
    requires HunkTarget(lines[0]) == Some(t)
    requires forall i :: 1 <= i < |lines| ==> StartsWith(lines[i], " ")
    requires CursorOf(t) + k - 1 <= |orig|
    ensures Walk(orig, lines[..k]) == ApplyState(true, CursorOf(t) + k - 1, orig[..CursorOf(t) + k - 1], 0, 0)
    decreases k
  {
    WalkNext(orig, lines, k - 1);
    if k == 1 {
      assert lines[..0] == [];
    } else {
      ContextPrefix(orig, lines, t, k - 1);
      var m := CursorOf(t) + k - 2;
      assert StartsWith(lines[k - 1], " ");
      ContextCopies(orig, Walk(orig, lines[..k - 1]), lines[k - 1], m);
    }
  }

  /** A context line read with the output equal to the original up to the
      cursor copies the next original line. */
  lemma ContextCopies(orig: seq<string>, c: ApplyState, line: string, m: nat)
    requires m < |orig| && c == ApplyState(true, m, orig[..m], 0, 0)
    requires StartsWith(line, " ")
    ensures Step(orig, c, line) == ApplyState(true, m + 1, orig[..m + 1], 0, 0)
  {
    assert line[0] == ' ';
    BodyLineStep(orig, c, line);
    assert orig[..m] + [orig[m]] == orig[..m + 1];
  }

  /** The applier on an empty original and a hunk adding `Hello` before
      line 1: the empty original is one empty line, which the final copy
      appends after the added line. */
  lemma EmptyOriginalWalk(o: seq<string>, p: seq<string>)
    requires o == [""] && |p| == 2
    requires HunkTarget(p[0]) == Some(1) && p[1] == "+Hello"
    ensures Finish(o, Walk(o, p)) == ["Hello", ""]
    ensures Walk(o, p).added == 1 && Walk(o, p).removed == 0
  {
    assert p[..0] == [];
    WalkNext(o, p, 0);
    HeaderCopiesGap(o, Start, p[0], 1);
    var c1 := ApplyState(true, 0, [], 0, 0);
    assert Walk(o, p[..1]) == c1;
    WalkNext(o, p, 1);
    assert p[1][0] == '+';
    BodyLineStep(o, c1, p[1]);
    assert p[..2] == p;
    assert Slice(o, 0, 1) == [""];
  }

  /** `@@ -1,0 +1,1 @@` targets line 1. */
  lemma OneLineHeader()
    ensures HunkTarget("@@ -1,0 +1,1 @@") == Some(1)
  {
    assert NatToDecimal(1) == "1" && NatToDecimal(0) == "0";
    assert RenderHeader(1, 0, 1, 1) == "@@ -1,0 +1,1 @@";
    HeaderRoundTrip(1, 0, 1, 1);
  }

  lemma HelloPatchLines()
    ensures Split("@@ -1,0 +1,1 @@\n+Hello", '\n') == ["@@ -1,0 +1,1 @@", "+Hello"]
  {
    var p := ["@@ -1,0 +1,1 @@", "+Hello"];
    assert Join(p, "\n") == "@@ -1,0 +1,1 @@\n+Hello";
    SplitJoin(p, '\n');
  }

  /** Adding `Hello` to the empty text gives `Hello` followed by a line
      feed, with one addition. */
  lemma EmptyOriginalKeepsLine()
    ensures Apply("", "@@ -1,0 +1,1 @@\n+Hello") == Applied("Hello\n", 1, 0)
  {
    var o, p := Split("", '\n'), Split("@@ -1,0 +1,1 @@\n+Hello", '\n');
    assert o == [""];
    HelloPatchLines();
    OneLineHeader();
    EmptyOriginalWalk(o, p);
    HelloJoin();
  }

  lemma HelloJoin()
    ensures Join(["Hello", ""], "\n") == "Hello\n"
  {
    assert ["Hello", ""][1..] == [""];
  }

  /** A single hunk made only of context lines that stay within the
      original gives the original back unchanged, with both counters at
      zero. */
  lemma ContextOnlyHunk(original: string, patch: string, t: nat)
    requires HunkTarget(Split(patch, '\n')[0]) == Some(t)
    requires forall i :: 1 <= i < |Split(patch, '\n')| ==> StartsWith(Split(patch, '\n')[i], " ")
    requires CursorOf(t) + |Split(patch, '\n')| - 1 <= |Split(original, '\n')|
    ensures Apply(original, patch) == Applied(original, 0, 0)
  {
    var orig := Split(original, '\n');
    var lines := Split(patch, '\n');
    ContextPrefix(orig, lines, t, |lines|);
    assert lines[..|lines|] == lines;
    FinishAfterPrefix(orig, FinalState(original, patch), CursorOf(t) + |lines| - 1);
    JoinSplit(original, '\n');
  }

  /** A state that has emitted the original up to its cursor finishes with
      the original itself. */
  lemma FinishAfterPrefix(orig: seq<string>, c: ApplyState, m: nat)
    requires m <= |orig| && c.index == m && c.output == orig[..m]
    ensures Finish(orig, c) == orig
  {
    assert orig[..m] + orig[m..] == orig;
  }

  /** Patch line `k` (exclusive) is preceded by a recognised hunk header with
      no `@@` line in between: a line read at `k` belongs to a hunk body. */
  ghost predicate AfterHeader(lines: seq<string>, k: nat)
    requires k <= |lines|
  {
    exists j :: 0 <= j < k && HunkTarget(lines[j]).Some? &&
      forall m :: j < m < k ==> !StartsWith(lines[m], "@@")
  }

  /** How many of the first `k` patch lines are hunk-body lines starting
      with `marker`. */
  ghost function BodyCount(lines: seq<string>, k: nat, marker: string): nat
    requires k <= |lines|
  {
    if k == 0 then 0
    else BodyCount(lines, k - 1, marker) + (if AfterHeader(lines, k - 1) && StartsWith(lines[k - 1], marker) then 1 else 0)
  }

  lemma AfterRecognisedHeader(lines: seq<string>, k: nat)
    requires 0 < k <= |lines| && HunkTarget(lines[k - 1]).Some?
    ensures AfterHeader(lines, k)
  {
    assert HunkTarget(lines[k - 1]).Some?;
  }

  lemma AfterBadHeader(lines: seq<string>, k: nat)
    requires 0 < k <= |lines| && StartsWith(lines[k - 1], "@@") && HunkTarget(lines[k - 1]).None?
    ensures !AfterHeader(lines, k)
  {
    forall j | 0 <= j < k && HunkTarget(lines[j]).Some?
      ensures exists m :: j < m < k && StartsWith(lines[m], "@@")
    {
      assert j != k - 1;
      assert StartsWith(lines[k - 1], "@@");
    }
  }

  lemma AfterOtherLine(lines: seq<string>, k: nat)
    requires 0 < k <= |lines| && !StartsWith(lines[k - 1], "@@")
    ensures AfterHeader(lines, k) <==> AfterHeader(lines, k - 1)
  {
    if AfterHeader(lines, k - 1) {
      var j :| 0 <= j < k - 1 && HunkTarget(lines[j]).Some? &&
        forall m :: j < m < k - 1 ==> !StartsWith(lines[m], "@@");
      assert forall m :: j < m < k ==> !StartsWith(lines[m], "@@");
    }
    if AfterHeader(lines, k) {
      var j :| 0 <= j < k && HunkTarget(lines[j]).Some? &&
        forall m :: j < m < k ==> !StartsWith(lines[m], "@@");
      assert j != k - 1;
      assert AfterHeader(lines, k - 1);
    }
  }

  /** After `k` patch lines the applier is inside a hunk body exactly when
      a recognised header came before with no `@@` line since. */
  lemma {:induction false} WalkMode(orig: seq<string>, lines: seq<string>, k: nat)
    requires k <= |lines|
    ensures Walk(orig, lines[..k]).inBody <==> AfterHeader(lines, k)
  {
    if k > 0 {
      WalkMode(orig, lines, k - 1);
      WalkNext(orig, lines, k - 1);
      var line := lines[k - 1];
      if !StartsWith(line, "@@") {
        AfterOtherLine(lines, k);
      } else if HunkTarget(line).Some? {
        AfterRecognisedHeader(lines, k);
      } else {
        AfterBadHeader(lines, k);
      }
    }
  }

  lemma {:induction false} WalkCounts(orig: seq<string>, lines: seq<string>, k: nat)
    requires k <= |lines|
    ensures Walk(orig, lines[..k]).added == BodyCount(lines, k, "+")
    ensures Walk(orig, lines[..k]).removed == BodyCount(lines, k, "-")
  {
    if k > 0 {
      WalkCounts(orig, lines, k - 1);
      WalkMode(orig, lines, k - 1);
      WalkNext(orig, lines, k - 1);
    }
  }

  /** `added` counts the `+` lines and `removed` the `-` lines that sit in
      hunk bodies; header lines outside a body and `\` lines count toward
      neither. */
  lemma CountsAreBodyLines(original: string, patch: string)
    ensures Apply(original, patch).added == BodyCount(Split(patch, '\n'), |Split(patch, '\n')|, "+")
    ensures Apply(original, patch).removed == BodyCount(Split(patch, '\n'), |Split(patch, '\n')|, "-")
  {
    var lines := Split(patch, '\n');
    WalkCounts(Split(original, '\n'), lines, |lines|);
    assert lines[..|lines|] == lines;
  }

  /** The cursor never moves back, and emitted lines are never taken back:
      the state after a shorter prefix of the patch is behind the state
      after a longer one. */
  lemma {:induction false} CursorNeverBacksUp(orig: seq<string>, lines: seq<string>, j: nat, k: nat)
    requires j <= k <= |lines|
    ensures Walk(orig, lines[..j]).index <= Walk(orig, lines[..k]).index
    ensures Walk(orig, lines[..j]).output <= Walk(orig, lines[..k]).output
    decreases k - j
  {
    if j < k {
      CursorNeverBacksUp(orig, lines, j, k - 1);
      WalkNext(orig, lines, k - 1);
    }
  }

  /** A recognised hunk header whose target lies beyond the cursor copies
      the original lines in the gap verbatim, in order, and moves the
      cursor to the target; a target at or before the cursor copies
      nothing. */
  lemma HeaderCopiesGap(orig: seq<string>, c: ApplyState, line: string, n: nat)
    requires HunkTarget(line) == Some(n)
    ensures var d := Step(orig, c, line);
      && d.inBody
      && d.index == (if CursorOf(n) > c.index then CursorOf(n) else c.index)
      && d.output == c.output + Slice(orig, c.index, d.index)
      && d.added == c.added && d.removed == c.removed
  {
  }

  /** Patch lines before the first hunk header are ignored, and a first
      header targeting line `n` makes the output start with the first
      `n - 1` original lines, copied verbatim. */
  lemma LeadingLinesCopied(orig: seq<string>, lines: seq<string>, k: nat, n: nat)
    requires k < |lines|
    requires forall m :: 0 <= m < k ==> HunkTarget(lines[m]).None?
    requires HunkTarget(lines[k]) == Some(n)
    ensures Walk(orig, lines[..k + 1]).output == Slice(orig, 0, CursorOf(n))
    ensures Walk(orig, lines[..k + 1]).index == CursorOf(n)
  {
    WalkWithoutHeaders(orig, lines[..k]);
    WalkNext(orig, lines, k);
  }

  /** While the cursor stays within the original, every emitted line is
      either an original line passed by the cursor or an added line, and
      every original line passed by the cursor is emitted unless removed. */
  lemma {:induction false} LineBalance(orig: seq<string>, lines: seq<string>, k: nat)
    requires k <= |lines|
    requires Walk(orig, lines[..k]).index <= |orig|
    ensures var c := Walk(orig, lines[..k]);
      |c.output| + c.removed == c.index + c.added
  {
    if k > 0 {
      WalkNext(orig, lines, k - 1);
      LineBalance(orig, lines, k - 1);
    }
  }

  /** If the cursor never passes the end of the original, the result has
      exactly `|original lines| - removed + added` lines. */
  lemma ResultLineCount(original: string, patch: string)
    requires FinalState(original, patch).index <= |Split(original, '\n')|
    ensures |ResultLines(original, patch)|
         == |Split(original, '\n')| - Apply(original, patch).removed + Apply(original, patch).added
  {
    var lines := Split(patch, '\n');
    assert lines[..|lines|] == lines;
    LineBalance(Split(original, '\n'), lines, |lines|);
  }

  /** None of the strings contains a line break. */
  predicate NoLineBreaks(xs: seq<string>) {
    forall i :: 0 <= i < |xs| ==> '\n' !in xs[i]
  }

  lemma SliceKeepsLines(xs: seq<string>, a: int, b: int)
    requires NoLineBreaks(xs)
    ensures NoLineBreaks(Slice(xs, a, b))
  {
    var r := Slice(xs, a, b);
    var lo, hi := SliceBound(a, |xs|), SliceBound(b, |xs|);
    if lo <= hi {
      forall i | 0 <= i < |r|
        ensures '\n' !in r[i]
      {
        assert r[i] == xs[lo + i];
      }
    }
  }

  lemma AppendKeepsLines(xs: seq<string>, ys: seq<string>)
    requires NoLineBreaks(xs) && NoLineBreaks(ys)
    ensures NoLineBreaks(xs + ys)
  {
    forall i | 0 <= i < |xs + ys|
      ensures '\n' !in (xs + ys)[i]
    {
      if i >= |xs| {
        assert (xs + ys)[i] == ys[i - |xs|];
      }
    }
  }

  lemma StepKeepsLines(orig: seq<string>, c: ApplyState, line: string)
    requires NoLineBreaks(orig) && NoLineBreaks(c.output) && '\n' !in line
    ensures NoLineBreaks(Step(orig, c, line).output)
  {
    assert |line| >= 1 ==> '\n' !in line[1..];
    match Classify(line)
    case Header(n) =>
      var d := Enter(orig, c, CursorOf(n));
      SliceKeepsLines(orig, c.index, d.index);
      AppendKeepsLines(c.output, Slice(orig, c.index, d.index));
    case _ =>
  }

  lemma {:induction false} OutputLinesAreLines(orig: seq<string>, lines: seq<string>, k: nat)
    requires k <= |lines|
    requires NoLineBreaks(orig) && NoLineBreaks(lines)
    ensures NoLineBreaks(Walk(orig, lines[..k]).output)
  {
    if k > 0 {
      OutputLinesAreLines(orig, lines, k - 1);
      WalkNext(orig, lines, k - 1);
      StepKeepsLines(orig, Walk(orig, lines[..k - 1]), lines[k - 1]);
    }
  }

  /** The returned text, split at line feeds, gives back exactly the
      result's lines: the gap and tail copies of the original and the
      emitted hunk lines. */
  lemma TextSplitsIntoResultLines(original: string, patch: string)
    requires |ResultLines(original, patch)| >= 1
    ensures Split(Apply(original, patch).text, '\n') == ResultLines(original, patch)
  {
    var orig := Split(original, '\n');
    var lines := Split(patch, '\n');
    OutputLinesAreLines(orig, lines, |lines|);
    assert lines[..|lines|] == lines;
    var c := Walk(orig, lines);
    SliceKeepsLines(orig, c.index, |orig|);
    AppendKeepsLines(c.output, Slice(orig, c.index, |orig|));
    SplitJoin(ResultLines(original, patch), '\n');
  }

  // ---------------------------------------------------------------------
  // Hunk headers as a diff generator writes them
  // ---------------------------------------------------------------------

  /** `@@ -a,b +c,d @@` with every number in decimal. */
  function RenderHeader(origStart: nat, origLen: nat, targetStart: nat, targetLen: nat): string {
    HeaderText(NatToDecimal(origStart), NatToDecimal(origLen), NatToDecimal(targetStart), NatToDecimal(targetLen))
  }

  lemma {:induction false} DecimalRoundTrip(n: nat)
    ensures DecimalValue(NatToDecimal(n)) == n
  {
    var ds := NatToDecimal(n);
    if n >= 10 {
      DecimalRoundTrip(n / 10);
      assert ds[..|ds| - 1] == NatToDecimal(n / 10);
    }
  }

  lemma {:induction false} DigitRunOver(s: string, p: nat, ds: string)
    requires p + |ds| <= |s| && s[p..p + |ds|] == ds
    requires AllDigits(ds)
    requires p + |ds| == |s| || !IsDigit(s[p + |ds|])
    ensures DigitRun(s, p) == |ds|
    decreases |ds|
  {
    if |ds| > 0 {
      assert s[p] == ds[0];
      assert s[p + 1..p + 1 + |ds[1..]|] == ds[1..];
      DigitRunOver(s, p + 1, ds[1..]);
    }
  }

  /** `\d+,\d+` at `p` with digit runs of lengths `m` and `n`. */
  lemma RangeEndPair(s: string, p: nat, m: nat, n: nat)
    requires p + m + 1 + n <= |s|
    requires m > 0 && n > 0
    requires DigitRun(s, p) == m && s[p + m] == ',' && DigitRun(s, p + m + 1) == n
    ensures RangeEnd(s, p) == Some(p + m + 1 + n)
  {
  }

  lemma MatchAtOpening(s: string, p: nat, q: nat)
    requires OpensHeader(s, p)
    requires RangeEnd(s, p + 4) == Some(q)
    ensures MatchAt(s, p) == TargetRange(s, q)
  {
  }

  /** `\s\+C,D\s@@` at `p`, given the lengths of the digit runs `C` and
      `D`, captures `C`. */
  lemma TargetRangeLayout(s: string, p: nat, lc: nat, ld: nat)
    requires lc > 0 && ld > 0
    requires p + 6 + lc + ld <= |s|
    requires IsJsSpace(s[p]) && s[p + 1] == '+'
    requires DigitRun(s, p + 2) == lc && s[p + 2 + lc] == ',' && DigitRun(s, p + 3 + lc) == ld
    requires ClosesHeader(s, p + 3 + lc + ld)
    ensures TargetRange(s, p) == Some(DecimalValue(s[p + 2..p + 2 + lc]))
  {
    RangeEndPair(s, p + 2, lc, ld);
  }

  lemma HunkTargetAtStart(s: string, t: nat)
    requires StartsWith(s, "@@")
    requires MatchAt(s, 0) == Some(t)
    ensures HunkTarget(s) == Some(t)
  {
  }

  /** `s` is laid out as `@@ -A,B +C,D @@`, with digit runs `A`, `B`, `C`
      and `D` of lengths `la`, `lb`, `lc` and `ld`. */
  predicate Laid(s: string, la: int, lb: int, lc: int, ld: int) {
    && la > 0 && lb > 0 && lc > 0 && ld > 0
    && |s| == 11 + la + lb + lc + ld
    && s[0] == '@' && s[1] == '@' && s[2] == ' ' && s[3] == '-'
    && DigitRun(s, 4) == la && s[4 + la] == ',' && DigitRun(s, 5 + la) == lb
    && s[5 + la + lb] == ' ' && s[6 + la + lb] == '+'
    && DigitRun(s, 7 + la + lb) == lc && s[7 + la + lb + lc] == ','
    && DigitRun(s, 8 + la + lb + lc) == ld
    && s[8 + la + lb + lc + ld] == ' '
    && s[9 + la + lb + lc + ld] == '@' && s[10 + la + lb + lc + ld] == '@'
  }

  /** A line laid out as `@@ -A,B +C,D @@` matches the header pattern at
      its start, capturing `C`. The layout is a hypothesis of the
      conclusion rather than a precondition, so that callers hand over
      the layout as one fact. */
  lemma LayoutMatches(s: string, la: int, lb: int, lc: int, ld: int)
    ensures Laid(s, la, lb, lc, ld) ==>
      && StartsWith(s, "@@")
      && MatchAt(s, 0) == Some(DecimalValue(s[7 + la + lb..7 + la + lb + lc]))
  {
    if Laid(s, la, lb, lc, ld) {
      assert s[..2] == "@@";
      var q1 := 5 + la + lb;
      RangeEndPair(s, 4, la, lb);
      assert OpensHeader(s, 0);
      MatchAtOpening(s, 0, q1);
      assert ClosesHeader(s, q1 + 3 + lc + ld);
      TargetRangeLayout(s, q1, lc, ld);
    }
  }

  /** A prefix shifts digit runs without changing them. */
  lemma {:induction false} DigitRunShift(x: string, s: string, p: nat)
    requires p <= |s|
    ensures DigitRun(x + s, |x| + p) == DigitRun(s, p)
    decreases |s| - p
  {
    if p < |s| {
      assert (x + s)[|x| + p] == s[p];
      DigitRunShift(x, s, p + 1);
    }
  }

  /** A digit string followed by a non-digit is a maximal digit run. */
  lemma DigitRunHead(ds: string, y: string)
    requires AllDigits(ds)
    requires |y| > 0 && !IsDigit(y[0])
    ensures DigitRun(ds + y, 0) == |ds|
    ensures (ds + y)[..|ds|] == ds
  {
    var s := ds + y;
    assert s[0..|ds|] == ds;
    assert s[|ds|] == y[0];
    DigitRunOver(s, 0, ds);
  }

  /** ` +C,D @@`: the target range and the closing marks of a header. */
  function HeaderTail(c: string, d: string): string {
    " +" + (c + ("," + (d + " @@")))
  }

  /** `@@ -A,B` followed by `tail`. */
  function HeaderLead(a: string, b: string, tail: string): string {
    "@@ -" + (a + ("," + (b + tail)))
  }

  /** `@@ -A,B +C,D @@` with the four digit strings given. */
  function HeaderText(a: string, b: string, c: string, d: string): string {
    HeaderLead(a, b, HeaderTail(c, d))
  }

  /** Where the punctuation of `@@ -A,B +C,D @@` sits. */
  lemma HeaderPunctuation(a: string, b: string, c: string, d: string)
    ensures var s, la, lb, lc, ld := HeaderText(a, b, c, d), |a|, |b|, |c|, |d|;
      && |s| == 11 + la + lb + lc + ld
      && s[0] == '@' && s[1] == '@' && s[2] == ' ' && s[3] == '-'
      && s[4 + la] == ',' && s[5 + la + lb] == ' ' && s[6 + la + lb] == '+'
      && s[7 + la + lb + lc] == ',' && s[8 + la + lb + lc + ld] == ' '
      && s[9 + la + lb + lc + ld] == '@' && s[10 + la + lb + lc + ld] == '@'
  {
  }

  /** Where the digit runs of `@@ -A,B +C,D @@` sit, one run at a time:
      each is found by peeling the pieces in front of it. */
  lemma HeaderRunA(a: string, b: string, tail: string)
    requires AllDigits(a)
    ensures DigitRun(HeaderLead(a, b, tail), 4) == |a|
  {
    var ta := "," + (b + tail);
    DigitRunShift("@@ -", a + ta, 0);
    DigitRunHead(a, ta);
  }

  lemma HeaderRunB(a: string, b: string, tail: string)
    requires AllDigits(b)
    requires |tail| > 0 && !IsDigit(tail[0])
    ensures DigitRun(HeaderLead(a, b, tail), 5 + |a|) == |b|
  {
    var ra := "," + (b + tail);
    DigitRunShift("@@ -", a + ra, |a| + 1);
    DigitRunShift(a, ra, 1);
    DigitRunShift(",", b + tail, 0);
    DigitRunHead(b, tail);
  }

  /** Past `@@ -A,B`, the lead leaves the tail's digit runs and characters
      as they are. */
  lemma HeaderLeadShift(a: string, b: string, tail: string, p: nat)
    requires p <= |tail|
    ensures DigitRun(HeaderLead(a, b, tail), 5 + |a| + |b| + p) == DigitRun(tail, p)
    ensures forall i :: 0 <= i < |tail| ==> HeaderLead(a, b, tail)[5 + |a| + |b| + i] == tail[i]
  {
    var ra := "," + (b + tail);
    DigitRunShift("@@ -", a + ra, |a| + 1 + |b| + p);
    DigitRunShift(a, ra, 1 + |b| + p);
    DigitRunShift(",", b + tail, |b| + p);
    DigitRunShift(b, tail, p);
  }

  lemma HeaderTailRunC(c: string, d: string)
    requires AllDigits(c)
    ensures var t := HeaderTail(c, d);
      DigitRun(t, 2) == |c| && t[2..2 + |c|] == c
  {
    var rc := "," + (d + " @@");
    DigitRunShift(" +", c + rc, 0);
    DigitRunHead(c, rc);
  }

  lemma HeaderTailRunD(c: string, d: string)
    requires AllDigits(d)
    ensures DigitRun(HeaderTail(c, d), 3 + |c|) == |d|
  {
    var rc := "," + (d + " @@");
    DigitRunShift(" +", c + rc, 1 + |c|);
    DigitRunShift(c, rc, 1);
    DigitRunShift(",", d + " @@", 0);
    DigitRunHead(d, " @@");
  }

  /** The digit runs of the target range `C,D` of a whole header. */
  lemma HeaderRunsCD(a: string, b: string, c: string, d: string)
    requires AllDigits(c) && AllDigits(d)
    ensures var s, la, lb, lc := HeaderText(a, b, c, d), |a|, |b|, |c|;
      && DigitRun(s, 7 + la + lb) == lc && DigitRun(s, 8 + la + lb + lc) == |d|
      && s[7 + la + lb..7 + la + lb + lc] == c
  {
    var t := HeaderTail(c, d);
    HeaderTailRunC(c, d);
    HeaderTailRunD(c, d);
    TailRunShift(a, b, t, 2, 7 + |a| + |b|);
    TailRunShift(a, b, t, 3 + |c|, 8 + |a| + |b| + |c|);
    LeadThenTail(a, b, t);
    SliceAfter("@@ -" + (a + ("," + b)), t, 2, 2 + |c|);
  }

  /** A digit run in the tail is a digit run of the header, `5 + |A| + |B|`
      further on. */
  lemma TailRunShift(a: string, b: string, tail: string, p: nat, q: nat)
    requires p <= |tail| && q == 5 + |a| + |b| + p
    ensures DigitRun(HeaderLead(a, b, tail), q) == DigitRun(tail, p)
  {
    HeaderLeadShift(a, b, tail, p);
  }

  /** The lead of a header is `@@ -A,B` followed by the tail. */
  lemma LeadThenTail(a: string, b: string, tail: string)
    ensures HeaderLead(a, b, tail) == ("@@ -" + (a + ("," + b))) + tail
  {
  }

  lemma SliceAfter(x: string, y: string, i: nat, j: nat)
    requires i <= j <= |y|
    ensures (x + y)[|x| + i..|x| + j] == y[i..j]
  {
  }

  /** The digit runs of a whole header. */
  lemma HeaderRuns(a: string, b: string, c: string, d: string)
    requires AllDigits(a) && AllDigits(b) && AllDigits(c) && AllDigits(d)
    ensures var s, la, lb, lc := HeaderText(a, b, c, d), |a|, |b|, |c|;
      && DigitRun(s, 4) == la && DigitRun(s, 5 + la) == lb
      && DigitRun(s, 7 + la + lb) == lc && DigitRun(s, 8 + la + lb + lc) == |d|
      && s[7 + la + lb..7 + la + lb + lc] == c
  {
    var t := HeaderTail(c, d);
    HeaderRunA(a, b, t);
    HeaderRunB(a, b, t);
    HeaderRunsCD(a, b, c, d);
  }

  /** A header written with nonempty digit strings is laid out as the
      header pattern wants, with `C` where the pattern captures it. Like
      `LayoutMatches`, the hypotheses sit inside the conclusion, so that a
      caller that already has them owes no separate obligation. */
  lemma HeaderLaid(a: string, b: string, c: string, d: string)
    ensures
      && |a| > 0 && |b| > 0 && |c| > 0 && |d| > 0
      && AllDigits(a) && AllDigits(b) && AllDigits(c) && AllDigits(d)
      ==>
      && Laid(HeaderText(a, b, c, d), |a|, |b|, |c|, |d|)
      && HeaderText(a, b, c, d)[7 + |a| + |b|..7 + |a| + |b| + |c|] == c
  {
    if && |a| > 0 && |b| > 0 && |c| > 0 && |d| > 0
       && AllDigits(a) && AllDigits(b) && AllDigits(c) && AllDigits(d)
    {
      HeaderPunctuation(a, b, c, d);
      HeaderRuns(a, b, c, d);
    }
  }

  /** A header written with digit strings opens with `@@` and matches the
      header pattern at its start, capturing the value of `C`. */
  lemma HeaderTextMatches(a: string, b: string, c: string, d: string)
    requires |a| > 0 && |b| > 0 && |c| > 0 && |d| > 0
    requires AllDigits(a) && AllDigits(b) && AllDigits(c) && AllDigits(d)
    ensures var s := HeaderText(a, b, c, d);
      StartsWith(s, "@@") && MatchAt(s, 0) == Some(DecimalValue(c))
  {
    var s := HeaderText(a, b, c, d);
    HeaderLaid(a, b, c, d);
    LaidCapture(s, |a|, |b|, |c|, |d|, c);
  }

  /** The capture of a laid-out line, named. */
  lemma LaidCapture(s: string, la: int, lb: int, lc: int, ld: int, c: string)
    ensures Laid(s, la, lb, lc, ld) && s[7 + la + lb..7 + la + lb + lc] == c ==>
      StartsWith(s, "@@") && MatchAt(s, 0) == Some(DecimalValue(c))
  {
    LayoutMatches(s, la, lb, lc, ld);
  }

  /** Parsing a rendered header recovers its target start: the recogniser
      accepts every header a diff generator writes in the full
      `-a,b +c,d` form. */
  lemma HeaderRoundTrip(origStart: nat, origLen: nat, targetStart: nat, targetLen: nat)
    ensures HunkTarget(RenderHeader(origStart, origLen, targetStart, targetLen)) == Some(targetStart)
  {
    var a, b := NatToDecimal(origStart), NatToDecimal(origLen);
    var c, d := NatToDecimal(targetStart), NatToDecimal(targetLen);
    HeaderTextMatches(a, b, c, d);
    DecimalRoundTrip(targetStart);
    HunkTargetAtStart(HeaderText(a, b, c, d), targetStart);
  }
}
