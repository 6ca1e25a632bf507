/** Where a hunk belongs in the original. The applier in
    frontend/src/App.tsx positions every hunk by the `+c` number of its
    header, which counts lines of the new file; once an earlier hunk has
    added or removed lines, that number no longer points into the original
    and the hunk lands in the wrong place. This module exhibits that, and
    gives the applier that positions hunks by the header's `-a,b` range
    instead, with the round trip that a diff generator's output promises. */
module HunkPlacement {
  import opened Text
  import opened Wrappers
  import opened UnifiedDiff

  // ---------------------------------------------------------------------
  // The original-side range of a hunk header
  // ---------------------------------------------------------------------

  /** The `-a,b` range of a hunk header: 1-based start and length. */
  datatype Span = Span(start: nat, len: nat)

  /** The header pattern anchored at `p`, yielding the original-side range
      instead of the target start; a missing `,b` means a length of one. */
  function SourceAt(s: string, p: nat): (r: Option<Span>)
    ensures r.Some? <==> MatchAt(s, p).Some?
  {
    if MatchAt(s, p).None? then None
    else match RangeEnd(s, p + 4)
      case None => None
      case Some(q) =>
        var da := DigitRun(s, p + 4);
        var len := if q > p + 4 + da then DecimalValue(s[p + 5 + da..q]) else 1;
        Some(Span(DecimalValue(s[p + 4..p + 4 + da]), len))
  }

  /** The original-side range of a hunk header line, found the way the
      applier finds the header. */
  function HunkSource(line: string): Option<Span> {
    if StartsWith(line, "@@") then FindFirst(q => SourceAt(line, q), 0, |line|) else None
  }

  /** Two searches whose probes succeed at the same positions succeed
      together. */
  lemma {:induction false} FindFirstAgree<T, U>(f: nat -> Option<T>, g: nat -> Option<U>, p: nat, last: nat)
    requires forall q :: f(q).Some? <==> g(q).Some?
    ensures FindFirst(f, p, last).Some? <==> FindFirst(g, p, last).Some?
    decreases last - p
  {
    if p < last && f(p).None? {
      FindFirstAgree(f, g, p + 1, last);
    }
  }

  /** Exactly the lines the applier takes for hunk headers have an
      original-side range. */
  lemma SourceIffTarget(line: string)
    ensures HunkSource(line).Some? <==> HunkTarget(line).Some?
  {
    if StartsWith(line, "@@") {
      FindFirstAgree(q => SourceAt(line, q), q => MatchAt(line, q), 0, |line|);
    }
  }

  /** Where `@@ -A,B` puts its two digit strings. */
  lemma HeaderDigitsAB(a: string, b: string, tail: string)
    ensures var s := HeaderLead(a, b, tail);
      && |s| == 5 + |a| + |b| + |tail|
      && s[4..4 + |a|] == a && s[5 + |a|..5 + |a| + |b|] == b
  {
    var s := HeaderLead(a, b, tail);
    var ra := "," + (b + tail);
    assert s[4..] == a + ra;
    assert s[4..4 + |a|] == (a + ra)[..|a|];
    assert s[5 + |a|..] == b + tail;
    assert s[5 + |a|..5 + |a| + |b|] == (b + tail)[..|b|];
  }

  /** A header opening `@@ -A,B` with digit runs of lengths `la` and `lb`
      has the range those runs spell. */
  lemma SourceAtLayout(s: string, la: nat, lb: nat)
    requires MatchAt(s, 0).Some?
    requires la > 0 && lb > 0 && 5 + la + lb <= |s|
    requires DigitRun(s, 4) == la
    requires RangeEnd(s, 4) == Some(5 + la + lb)
    ensures SourceAt(s, 0) == Some(Span(DecimalValue(s[4..4 + la]), DecimalValue(s[5 + la..5 + la + lb])))
  {
  }

  /** A search whose first probe succeeds answers with it. */
  lemma FindFirstHere<T>(f: nat -> Option<T>, last: nat)
    requires last > 0 && f(0).Some?
    ensures FindFirst(f, 0, last) == f(0)
  {
  }

  /** A rendered header matches the header pattern at its start. */
  lemma HeaderMatches(a: string, b: string, c: string, d: string)
    requires |a| > 0 && |b| > 0 && |c| > 0 && |d| > 0
    requires AllDigits(a) && AllDigits(b) && AllDigits(c) && AllDigits(d)
    ensures MatchAt(HeaderText(a, b, c, d), 0).Some?
  {
    HeaderTextMatches(a, b, c, d);
  }

  /** In a rendered header the range `A,B` starts at position 4 and ends
      just before ` +`. */
  lemma HeaderSourceRange(a: string, b: string, c: string, d: string)
    requires |a| > 0 && |b| > 0
    requires AllDigits(a) && AllDigits(b) && AllDigits(c) && AllDigits(d)
    ensures var s := HeaderText(a, b, c, d);
      && 5 + |a| + |b| <= |s|
      && DigitRun(s, 4) == |a|
      && RangeEnd(s, 4) == Some(5 + |a| + |b|)
  {
    var s := HeaderText(a, b, c, d);
    HeaderPunctuation(a, b, c, d);
    HeaderRuns(a, b, c, d);
    RangeEndPair(s, 4, |a|, |b|);
  }

  /** A rendered header's original-side range is spelled by `A` and `B`. */
  lemma HeaderSource(a: string, b: string, c: string, d: string)
    requires |a| > 0 && |b| > 0 && |c| > 0 && |d| > 0
    requires AllDigits(a) && AllDigits(b) && AllDigits(c) && AllDigits(d)
    ensures SourceAt(HeaderText(a, b, c, d), 0) == Some(Span(DecimalValue(a), DecimalValue(b)))
  {
    var s := HeaderText(a, b, c, d);
    HeaderMatches(a, b, c, d);
    HeaderSourceRange(a, b, c, d);
    HeaderDigitsAB(a, b, HeaderTail(c, d));
    SourceAtLayout(s, |a|, |b|);
  }

  /** Parsing a rendered header recovers its original-side range. */
  lemma SourceRoundTrip(origStart: nat, origLen: nat, targetStart: nat, targetLen: nat)
    ensures HunkSource(RenderHeader(origStart, origLen, targetStart, targetLen)) == Some(Span(origStart, origLen))
  {
    var a, b := NatToDecimal(origStart), NatToDecimal(origLen);
    var c, d := NatToDecimal(targetStart), NatToDecimal(targetLen);
    var s := HeaderText(a, b, c, d);
    HeaderSource(a, b, c, d);
    DecimalRoundTrip(origStart);
    DecimalRoundTrip(origLen);
    assert s[..2] == "@@" by {
      HeaderPunctuation(a, b, c, d);
    }
    FindFirstHere(q => SourceAt(s, q), |s|);
  }

  // ---------------------------------------------------------------------
  // The applier positioning hunks by their original-side range
  // ---------------------------------------------------------------------

  /** The cursor a range places a hunk at: `-a,b` with `b > 0` starts at
      original line `a`; `-a,0` is an empty range just after line `a`. */
  function SourceCursor(sp: Span): (t: nat)
    ensures sp.len == 0 ==> t == sp.start
    ensures sp.len > 0 ==> t + 1 == sp.start || (sp.start == 0 && t == 0)
  {
    if sp.len == 0 then sp.start else CursorOf(sp.start)
  }

  /** What the applier needs to know about a patch line: its original-side
      range, if it is a hunk header, and how the applier classifies it. */
  datatype Reading = Reading(source: Option<Span>, kind: LineKind)

  function Read(line: string): (r: Reading)
    ensures r.source.Some? <==> r.kind.Header?
  {
    SourceIffTarget(line);
    Reading(HunkSource(line), Classify(line))
  }

  function ReadAll(lines: seq<string>): (rs: seq<Reading>)
    ensures |rs| == |lines|
    ensures forall i :: 0 <= i < |lines| ==> rs[i] == Read(lines[i])
  {
    if |lines| == 0 then [] else [Read(lines[0])] + ReadAll(lines[1..])
  }

  /** One patch line: a header enters its hunk at its original-side range;
      every other line has the effect it has in the applier as written. */
  function FixedStep(orig: seq<string>, c: ApplyState, r: Reading): (d: ApplyState)
    ensures c.index <= d.index
    ensures c.output <= d.output
    ensures c.added <= d.added && c.removed <= d.removed
    ensures r.source.Some? ==> d.inBody && d.added == c.added && d.removed == c.removed
  {
    match r.source
    case Some(sp) => Enter(orig, c, SourceCursor(sp))
    case None => StepOn(orig, c, r.kind)
  }

  /** The state after the given patch lines, read first to last. */
  function Run(orig: seq<string>, c: ApplyState, rs: seq<Reading>): ApplyState
    decreases |rs|
  {
    if |rs| == 0 then c else Run(orig, FixedStep(orig, c, rs[0]), rs[1..])
  }

  lemma {:induction false} RunAppend(orig: seq<string>, c: ApplyState, xs: seq<Reading>, ys: seq<Reading>)
    ensures Run(orig, c, xs + ys) == Run(orig, Run(orig, c, xs), ys)
    decreases |xs|
  {
    if |xs| > 0 {
      assert (xs + ys)[0] == xs[0];
      assert (xs + ys)[1..] == xs[1..] + ys;
      RunAppend(orig, FixedStep(orig, c, xs[0]), xs[1..], ys);
    } else {
      assert xs + ys == ys;
    }
  }

  lemma RunCons(orig: seq<string>, c: ApplyState, r: Reading, rs: seq<Reading>)
    ensures Run(orig, c, [r] + rs) == Run(orig, FixedStep(orig, c, r), rs)
  {
    assert ([r] + rs)[1..] == rs;
  }

  /** A patch line that both appliers place alike: a hunk header whose
      `-a,b` range gives the cursor its `+c` start gives, or any line that
      is not a hunk header. */
  predicate PlacedAlike(line: string) {
    var r := Read(line);
    r.source.Some? ==> r.kind.Header? && SourceCursor(r.source.value) == CursorOf(r.kind.target)
  }

  /** On a line placed alike, the corrected step is the step as written. */
  lemma FixedStepAgrees(orig: seq<string>, c: ApplyState, line: string)
    requires PlacedAlike(line)
    ensures FixedStep(orig, c, Read(line)) == Step(orig, c, line)
  {
  }

  /** On lines all placed alike, the corrected applier walks the patch
      exactly as the applier as written does. */
  lemma {:induction false} RunAgrees(orig: seq<string>, lines: seq<string>)
    requires forall i :: 0 <= i < |lines| ==> PlacedAlike(lines[i])
    ensures Run(orig, Start, ReadAll(lines)) == Walk(orig, lines)
    decreases |lines|
  {
    if |lines| > 0 {
      var front, last := lines[..|lines| - 1], lines[|lines| - 1];
      RunAgrees(orig, front);
      assert ReadAll(lines) == ReadAll(front) + [Read(last)];
      RunAppend(orig, Start, ReadAll(front), [Read(last)]);
      FixedStepAgrees(orig, Walk(orig, front), last);
    }
  }

  /** `applyUnifiedDiff` with every hunk placed by its original-side
      range. */
  function ApplyFixed(original: string, patch: string): Applied {
    var orig := Split(original, '\n');
    var c := Run(orig, Start, ReadAll(Split(patch, '\n')));
    Applied(Join(Finish(orig, c), "\n"), c.added, c.removed)
  }

  /** The correction changes nothing where the applier as written was
      already right: when every header places its hunk alike by both
      ranges, both appliers return the same text and counts. */
  lemma ApplyFixedAgrees(original: string, patch: string)
    requires forall i :: 0 <= i < |Split(patch, '\n')| ==> PlacedAlike(Split(patch, '\n')[i])
    ensures ApplyFixed(original, patch) == Apply(original, patch)
  {
    RunAgrees(Split(original, '\n'), Split(patch, '\n'));
  }

  // ---------------------------------------------------------------------
  // Diffs as a generator writes them
  // ---------------------------------------------------------------------

  /** One line of a hunk body: kept, dropped from the original, or added. */
  datatype BodyLine = Keep(text: string) | Drop(text: string) | Add(text: string)

  /** A hunk: the 0-based position in the original where its original side
      starts, the 1-based start of its new side, and its body. */
  datatype Hunk = Hunk(at: nat, newStart: nat, body: seq<BodyLine>)

  /** The lines the body takes from the original, in order. */
  function OldSide(body: seq<BodyLine>): (r: seq<string>)
    ensures |r| <= |body|
  {
    if |body| == 0 then []
    else (if body[0].Add? then [] else [body[0].text]) + OldSide(body[1..])
  }

  /** The lines the body leaves in the new file, in order. */
  function NewSide(body: seq<BodyLine>): (r: seq<string>)
    ensures |r| <= |body|
  {
    if |body| == 0 then []
    else (if body[0].Drop? then [] else [body[0].text]) + NewSide(body[1..])
  }

  function RenderLine(b: BodyLine): (line: string)
    ensures |line| == |b.text| + 1 && line[1..] == b.text
    ensures line[0] == match b case Keep(_) => ' ' case Drop(_) => '-' case Add(_) => '+'
  {
    match b
    case Keep(t) => " " + t
    case Drop(t) => "-" + t
    case Add(t) => "+" + t
  }

  function RenderBody(body: seq<BodyLine>): (lines: seq<string>)
    ensures |lines| == |body|
    ensures forall i :: 0 <= i < |body| ==> lines[i] == RenderLine(body[i])
  {
    if |body| == 0 then [] else [RenderLine(body[0])] + RenderBody(body[1..])
  }

  /** The header a generator writes: the original side starts at line
      `at + 1`, or is the empty range after line `at`. */
  function HunkHeader(h: Hunk): string {
    var oldLen := |OldSide(h.body)|;
    RenderHeader(if oldLen == 0 then h.at else h.at + 1, oldLen, h.newStart, |NewSide(h.body)|)
  }

  function RenderHunks(hunks: seq<Hunk>): (lines: seq<string>)
    ensures |lines| >= |hunks|
  {
    if |hunks| == 0 then []
    else [HunkHeader(hunks[0])] + RenderBody(hunks[0].body) + RenderHunks(hunks[1..])
  }

  /** The whole patch: the two file header lines, then the hunks. */
  function RenderPatch(oldName: string, newName: string, hunks: seq<Hunk>): seq<string> {
    ["--- " + oldName, "+++ " + newName] + RenderHunks(hunks)
  }

  /** `side` is what the original holds from cursor `i` on. */
  predicate SideAt(orig: seq<string>, i: nat, side: seq<string>) {
    i + |side| <= |orig| && orig[i..i + |side|] == side
  }

  /** Hunks that a diff of `orig` can contain, read from cursor `from`:
      in order, not overlapping, and each one's original side is what the
      original holds at its position. */
  predicate WellFormed(orig: seq<string>, hunks: seq<Hunk>, from: nat)
    decreases |hunks|
  {
    if |hunks| == 0 then from <= |orig|
    else
      var h := hunks[0];
      && from <= h.at
      && SideAt(orig, h.at, OldSide(h.body))
      && WellFormed(orig, hunks[1..], h.at + |OldSide(h.body)|)
  }

  /** The new file the hunks describe, from cursor `from` on: each gap of
      the original, then each hunk's new side. */
  function Patched(orig: seq<string>, hunks: seq<Hunk>, from: nat): seq<string>
    requires WellFormed(orig, hunks, from)
    decreases |hunks|
  {
    if |hunks| == 0 then orig[from..]
    else
      var h := hunks[0];
      orig[from..h.at] + NewSide(h.body) + Patched(orig, hunks[1..], h.at + |OldSide(h.body)|)
  }

  /** How the applier reads a rendered body line. */
  function BodyReading(b: BodyLine): Reading {
    match b
    case Keep(t) => Reading(None, Context(t))
    case Drop(_) => Reading(None, Removal)
    case Add(t) => Reading(None, Addition(t))
  }

  function BodyReadings(body: seq<BodyLine>): (rs: seq<Reading>)
    ensures |rs| == |body|
  {
    if |body| == 0 then [] else [BodyReading(body[0])] + BodyReadings(body[1..])
  }

  /** The original-side range a generator writes for a hunk. */
  function HunkSpan(h: Hunk): Span {
    var oldLen := |OldSide(h.body)|;
    Span(if oldLen == 0 then h.at else h.at + 1, oldLen)
  }

  /** How the applier reads the rendered hunks. */
  function HunkReading(h: Hunk): seq<Reading> {
    [Reading(Some(HunkSpan(h)), Header(h.newStart))] + BodyReadings(h.body)
  }

  function HunkReadings(hunks: seq<Hunk>): seq<Reading> {
    if |hunks| == 0 then [] else HunkReading(hunks[0]) + HunkReadings(hunks[1..])
  }

  // ---------------------------------------------------------------------
  // Reading a rendered patch
  // ---------------------------------------------------------------------

  lemma {:induction false} ReadAllAppend(xs: seq<string>, ys: seq<string>)
    ensures ReadAll(xs + ys) == ReadAll(xs) + ReadAll(ys)
  {
    var l, r := ReadAll(xs + ys), ReadAll(xs) + ReadAll(ys);
    assert |l| == |r|;
    forall i | 0 <= i < |l|
      ensures l[i] == r[i]
    {
      if i < |xs| {
        assert (xs + ys)[i] == xs[i];
      } else {
        assert (xs + ys)[i] == ys[i - |xs|];
      }
    }
  }

  /** A rendered body line is read as a kept, dropped or added line, never
      as a header. */
  lemma ReadBodyLine(b: BodyLine)
    ensures Read(RenderLine(b)) == BodyReading(b)
  {
    var line := RenderLine(b);
    assert !StartsWith(line, "@@");
  }

  lemma {:induction false} ReadBody(body: seq<BodyLine>)
    ensures ReadAll(RenderBody(body)) == BodyReadings(body)
    decreases |body|
  {
    if |body| > 0 {
      var lines := RenderBody(body);
      assert lines[0] == RenderLine(body[0]);
      assert lines[1..] == RenderBody(body[1..]);
      ReadBodyLine(body[0]);
      ReadBody(body[1..]);
    }
  }

  /** A rendered hunk header is read with both of its ranges. */
  lemma ReadHeader(h: Hunk)
    ensures Read(HunkHeader(h)) == Reading(Some(HunkSpan(h)), Header(h.newStart))
  {
    var sp := HunkSpan(h);
    SourceRoundTrip(sp.start, sp.len, h.newStart, |NewSide(h.body)|);
    HeaderRoundTrip(sp.start, sp.len, h.newStart, |NewSide(h.body)|);
  }

  lemma {:induction false} ReadHunks(hunks: seq<Hunk>)
    ensures ReadAll(RenderHunks(hunks)) == HunkReadings(hunks)
    decreases |hunks|
  {
    if |hunks| > 0 {
      var h := hunks[0];
      var rest := RenderHunks(hunks[1..]);
      assert RenderHunks(hunks) == [HunkHeader(h)] + (RenderBody(h.body) + rest);
      ReadAllAppend([HunkHeader(h)], RenderBody(h.body) + rest);
      ReadAllAppend(RenderBody(h.body), rest);
      ReadHeader(h);
      ReadBody(h.body);
      ReadHunks(hunks[1..]);
    }
  }

  /** The two file header lines are read as a removal and an addition,
      which outside a hunk have no effect. */
  lemma ReadFileHeaders(oldName: string, newName: string)
    ensures Read("--- " + oldName) == Reading(None, Removal)
    ensures Read("+++ " + newName) == Reading(None, Addition("++ " + newName))
  {
    var l1, l2 := "--- " + oldName, "+++ " + newName;
    assert l1[0] == '-' && l2[0] == '+';
    assert l1[..1] == "-" && l2[..1] == "+";
    assert l2[1..] == "++ " + newName;
    assert !StartsWith(l1, "@@") && !StartsWith(l2, "@@");
    assert !StartsWith(l1, " ") && !StartsWith(l2, " ") && !StartsWith(l2, "-");
  }

  lemma ReadPatch(oldName: string, newName: string, hunks: seq<Hunk>)
    ensures ReadAll(RenderPatch(oldName, newName, hunks))
         == [Reading(None, Removal), Reading(None, Addition("++ " + newName))] + HunkReadings(hunks)
  {
    var l1, l2 := "--- " + oldName, "+++ " + newName;
    ReadFileHeaders(oldName, newName);
    ReadAllAppend([l1, l2], RenderHunks(hunks));
    ReadHunks(hunks);
  }

  // ---------------------------------------------------------------------
  // The round trip
  // ---------------------------------------------------------------------

  lemma AppendAssoc<T>(a: seq<T>, b: seq<T>, c: seq<T>)
    ensures (a + b) + c == a + (b + c)
  {
  }

  /** A side matching at cursor `i` starts with the original line at `i`
      and matches on from `i + 1`. */
  lemma SideAtCons(orig: seq<string>, i: nat, x: string, rest: seq<string>)
    requires SideAt(orig, i, [x] + rest)
    ensures i < |orig| && orig[i] == x
    ensures SideAt(orig, i + 1, rest)
  {
    var side := [x] + rest;
    assert orig[i] == orig[i..i + |side|][0];
    assert orig[i + 1..i + 1 + |rest|] == orig[i..i + |side|][1..];
    assert side[1..] == rest;
  }

  /** A kept line passes the cursor over the original line and emits it. */
  lemma KeepApplies(orig: seq<string>, c: ApplyState, t: string, olds: seq<string>, news: seq<string>)
    requires c.inBody
    requires SideAt(orig, c.index, [t] + olds)
    ensures var d := FixedStep(orig, c, BodyReading(Keep(t)));
      && d.inBody
      && SideAt(orig, d.index, olds)
      && d.index == c.index + 1
      && d.output + news == c.output + ([t] + news)
  {
    SideAtCons(orig, c.index, t, olds);
    AppendAssoc(c.output, [t], news);
  }

  /** A dropped line only passes the cursor over the original line. */
  lemma DropApplies(orig: seq<string>, c: ApplyState, t: string, olds: seq<string>)
    requires c.inBody
    requires SideAt(orig, c.index, [t] + olds)
    ensures var d := FixedStep(orig, c, BodyReading(Drop(t)));
      && d.inBody
      && SideAt(orig, d.index, olds)
      && d.index == c.index + 1
      && d.output == c.output
  {
    SideAtCons(orig, c.index, t, olds);
  }

  /** An added line only emits its text. */
  lemma AddApplies(orig: seq<string>, c: ApplyState, t: string, news: seq<string>)
    requires c.inBody
    ensures var d := FixedStep(orig, c, BodyReading(Add(t)));
      && d.inBody
      && d.index == c.index
      && d.output + news == c.output + ([t] + news)
  {
    AppendAssoc(c.output, [t], news);
  }

  /** The first line of a body matching at the cursor leaves the rest of
      the body matching at the new cursor, with the output and the cursor
      on track for the whole body. */
  lemma HeadApplies(orig: seq<string>, c: ApplyState, body: seq<BodyLine>)
    requires |body| > 0
    requires c.inBody
    requires SideAt(orig, c.index, OldSide(body))
    ensures var d := FixedStep(orig, c, BodyReading(body[0]));
      && d.inBody
      && SideAt(orig, d.index, OldSide(body[1..]))
      && d.index + |OldSide(body[1..])| == c.index + |OldSide(body)|
      && d.output + NewSide(body[1..]) == c.output + NewSide(body)
  {
    var tail := body[1..];
    match body[0]
    case Keep(t) =>
      assert OldSide(body) == [t] + OldSide(tail);
      assert NewSide(body) == [t] + NewSide(tail);
      KeepApplies(orig, c, t, OldSide(tail), NewSide(tail));
    case Drop(t) =>
      assert OldSide(body) == [t] + OldSide(tail);
      assert NewSide(body) == NewSide(tail);
      DropApplies(orig, c, t, OldSide(tail));
    case Add(t) =>
      assert OldSide(body) == OldSide(tail);
      assert NewSide(body) == [t] + NewSide(tail);
      AddApplies(orig, c, t, NewSide(tail));
  }

  /** Reading a body is reading its first line, then the rest. */
  lemma ReadingsCons(orig: seq<string>, c: ApplyState, body: seq<BodyLine>)
    requires |body| > 0
    ensures Run(orig, c, BodyReadings(body)) == Run(orig, FixedStep(orig, c, BodyReading(body[0])), BodyReadings(body[1..]))
  {
    RunCons(orig, c, BodyReading(body[0]), BodyReadings(body[1..]));
  }

  /** A body whose original side matches the original at the cursor moves
      the cursor over that side and emits the new side. */
  lemma {:induction false} BodyApplies(orig: seq<string>, c: ApplyState, body: seq<BodyLine>)
    requires c.inBody
    requires SideAt(orig, c.index, OldSide(body))
    ensures var d := Run(orig, c, BodyReadings(body));
      && d.inBody
      && d.index == c.index + |OldSide(body)|
      && d.output == c.output + NewSide(body)
    decreases |body|
  {
    if |body| > 0 {
      HeadApplies(orig, c, body);
      ReadingsCons(orig, c, body);
      BodyApplies(orig, FixedStep(orig, c, BodyReading(body[0])), body[1..]);
    }
  }

  /** A hunk header enters the body at the hunk's position, having copied
      the gap before it. */
  lemma HeaderEnters(orig: seq<string>, c: ApplyState, h: Hunk)
    requires c.index <= h.at <= |orig|
    ensures var d := FixedStep(orig, c, Reading(Some(HunkSpan(h)), Header(h.newStart)));
      && d.inBody && d.index == h.at
      && d.output == c.output + orig[c.index..h.at]
  {
  }

  /** One well-formed hunk, header and body, read from a cursor at or
      before it: the gap is copied, then the new side emitted, and the
      cursor ends just past the original side. */
  lemma HunkApplies(orig: seq<string>, c: ApplyState, h: Hunk)
    requires c.index <= h.at
    requires SideAt(orig, h.at, OldSide(h.body))
    ensures var d := Run(orig, c, HunkReading(h));
      && d.index == h.at + |OldSide(h.body)|
      && d.output == c.output + (orig[c.index..h.at] + NewSide(h.body))
  {
    var header := Reading(Some(HunkSpan(h)), Header(h.newStart));
    RunCons(orig, c, header, BodyReadings(h.body));
    HeaderEnters(orig, c, h);
    var c1 := FixedStep(orig, c, header);
    BodyApplies(orig, c1, h.body);
    AppendAssoc(c.output, orig[c.index..h.at], NewSide(h.body));
  }

  /** The patched file from cursor `from` is the first hunk's gap and new
      side, then the patched file past its original side. */
  lemma PatchedCons(orig: seq<string>, hunks: seq<Hunk>, from: nat, to: nat)
    requires |hunks| > 0
    requires WellFormed(orig, hunks, from)
    requires to == hunks[0].at + |OldSide(hunks[0].body)|
    ensures var h := hunks[0];
      && from <= h.at
      && SideAt(orig, h.at, OldSide(h.body))
      && WellFormed(orig, hunks[1..], to)
      && Patched(orig, hunks, from) == (orig[from..h.at] + NewSide(h.body)) + Patched(orig, hunks[1..], to)
  {
  }

  /** Reading the hunks is reading the first hunk, then the others. */
  lemma HunksCons(orig: seq<string>, c: ApplyState, hunks: seq<Hunk>)
    requires |hunks| > 0
    requires c.index <= hunks[0].at
    requires SideAt(orig, hunks[0].at, OldSide(hunks[0].body))
    ensures var h, c2 := hunks[0], Run(orig, c, HunkReading(hunks[0]));
      && Run(orig, c, HunkReadings(hunks)) == Run(orig, c2, HunkReadings(hunks[1..]))
      && c2.index == h.at + |OldSide(h.body)|
      && c2.output == c.output + (orig[c.index..h.at] + NewSide(h.body))
  {
    RunAppend(orig, c, HunkReading(hunks[0]), HunkReadings(hunks[1..]));
    HunkApplies(orig, c, hunks[0]);
  }

  /** `x` is `o2` and a tail, where `o2` extends `o` by a piece: then `x`
      is `o` followed by the piece and the tail. */
  lemma Regroup(x: seq<string>, o: seq<string>, o2: seq<string>, piece: seq<string>, tail: seq<string>, whole: seq<string>)
    requires x == o2 + tail
    requires o2 == o + piece
    requires whole == piece + tail
    ensures x == o + whole
  {
    assert (o + piece) + tail == o + (piece + tail);
  }

  /** The inductive step: if the hunks after the first produce their
      patched file from where the first one leaves the cursor, all the
      hunks produce theirs. */
  lemma HunksStep(orig: seq<string>, c: ApplyState, hunks: seq<Hunk>)
    requires |hunks| > 0
    requires WellFormed(orig, hunks, c.index)
    requires var c2 := Run(orig, c, HunkReading(hunks[0]));
      && WellFormed(orig, hunks[1..], c2.index)
      && Finish(orig, Run(orig, c2, HunkReadings(hunks[1..]))) == c2.output + Patched(orig, hunks[1..], c2.index)
    ensures Finish(orig, Run(orig, c, HunkReadings(hunks))) == c.output + Patched(orig, hunks, c.index)
  {
    var h, rest := hunks[0], hunks[1..];
    var c2 := Run(orig, c, HunkReading(h));
    HunksCons(orig, c, hunks);
    PatchedCons(orig, hunks, c.index, c2.index);
    var piece, tail := orig[c.index..h.at] + NewSide(h.body), Patched(orig, rest, c2.index);
    Regroup(Finish(orig, Run(orig, c, HunkReadings(hunks))), c.output, c2.output, piece, tail, Patched(orig, hunks, c.index));
  }

  /** Well-formed hunks read from the cursor produce the patched file. */
  lemma {:induction false} HunksApply(orig: seq<string>, c: ApplyState, hunks: seq<Hunk>)
    requires WellFormed(orig, hunks, c.index)
    ensures Finish(orig, Run(orig, c, HunkReadings(hunks))) == c.output + Patched(orig, hunks, c.index)
    decreases |hunks|
  {
    if |hunks| == 0 {
      assert Slice(orig, c.index, |orig|) == orig[c.index..];
    } else {
      var c2 := Run(orig, c, HunkReading(hunks[0]));
      HunksCons(orig, c, hunks);
      PatchedCons(orig, hunks, c.index, c2.index);
      HunksApply(orig, c2, hunks[1..]);
      HunksStep(orig, c, hunks);
    }
  }

  /** The file header lines outside any hunk change nothing. */
  lemma FileHeadersSkipped(orig: seq<string>, newName: string)
    ensures Run(orig, Start, [Reading(None, Removal), Reading(None, Addition("++ " + newName))]) == Start
  {
    var r1, r2 := Reading(None, Removal), Reading(None, Addition("++ " + newName));
    RunCons(orig, Start, r1, [r2]);
    RunCons(orig, Start, r2, []);
    assert [r1, r2] == [r1] + [r2];
    assert [r2] == [r2] + [];
  }

  /** Applying a generated patch of well-formed hunks to the original it was
      made from gives the new file. */
  lemma RoundTrip(orig: seq<string>, oldName: string, newName: string, hunks: seq<Hunk>)
    requires WellFormed(orig, hunks, 0)
    ensures Finish(orig, Run(orig, Start, ReadAll(RenderPatch(oldName, newName, hunks)))) == Patched(orig, hunks, 0)
  {
    ReadPatch(oldName, newName, hunks);
    var heads := [Reading(None, Removal), Reading(None, Addition("++ " + newName))];
    FileHeadersSkipped(orig, newName);
    RunAppend(orig, Start, heads, HunkReadings(hunks));
    HunksApply(orig, Start, hunks);
  }

  /** The same on texts: a patch whose lines are a generated diff of the
      original's lines turns the original into the new file. */
  lemma ApplyFixedRoundTrip(original: string, patch: string, oldName: string, newName: string, hunks: seq<Hunk>)
    requires WellFormed(Split(original, '\n'), hunks, 0)
    requires Split(patch, '\n') == RenderPatch(oldName, newName, hunks)
    ensures ApplyFixed(original, patch).text == Join(Patched(Split(original, '\n'), hunks, 0), "\n")
  {
    RoundTrip(Split(original, '\n'), oldName, newName, hunks);
  }

  // ---------------------------------------------------------------------
  // A patch the applier as written misplaces
  // ---------------------------------------------------------------------

  /** `a b c`, and a diff that inserts `X` after `a` and replaces `c` by
      `C`. The first hunk adds a line, so the second one's new side starts
      one line later than its original side: `@@ -3,1 +4,1 @@`. */
  const ShiftOrig: seq<string> := ["a", "b", "c"]
  const ShiftHunks: seq<Hunk> := [Hunk(1, 2, [Add("X")]), Hunk(2, 4, [Drop("c"), Add("C")])]

  lemma ShiftPatchLines()
    ensures RenderHunks(ShiftHunks) == [RenderHeader(1, 0, 2, 1), "+X", RenderHeader(3, 1, 4, 1), "-c", "+C"]
  {
    var h1, h2 := ShiftHunks[0], ShiftHunks[1];
    assert OldSide(h1.body) == [] && NewSide(h1.body) == ["X"];
    assert OldSide(h2.body) == ["c"] && NewSide(h2.body) == ["C"];
    assert h1.body[1..] == [] && h2.body[1..][1..] == [];
    assert RenderLine(Add("X")) == "+X" && RenderLine(Drop("c")) == "-c" && RenderLine(Add("C")) == "+C";
    assert RenderBody(h1.body) == ["+X"];
    assert RenderBody(h2.body) == ["-c", "+C"];
    assert RenderHunks(ShiftHunks[1..]) == [HunkHeader(h2)] + RenderBody(h2.body) + RenderHunks(ShiftHunks[2..]);
  }

  lemma ShiftIntended()
    ensures WellFormed(ShiftOrig, ShiftHunks, 0)
    ensures Patched(ShiftOrig, ShiftHunks, 0) == ["a", "X", "b", "C"]
  {
    var h1, h2 := ShiftHunks[0], ShiftHunks[1];
    assert OldSide(h1.body) == [] && NewSide(h1.body) == ["X"];
    assert OldSide(h2.body) == ["c"] && NewSide(h2.body) == ["C"];
    assert ShiftHunks[1..][1..] == [];
    assert SideAt(ShiftOrig, 2, ["c"]);
  }

  /** The applier as written on the lines of the diff, with the two
      headers given only by the line they target: the first hunk. */
  lemma ShiftWalkFirst(o: seq<string>, p: seq<string>)
    requires o == ShiftOrig && |p| == 5
    requires HunkTarget(p[0]) == Some(2) && p[1] == "+X"
    ensures Walk(o, p[..2]) == ApplyState(true, 1, ["a", "X"], 1, 0)
  {
    assert p[..0] == [];
    WalkNext(o, p, 0);
    HeaderCopiesGap(o, Start, p[0], 2);
    var c1 := ApplyState(true, 1, ["a"], 0, 0);
    assert Walk(o, p[..1]) == c1;
    WalkNext(o, p, 1);
    BodyLineStep(o, c1, p[1]);
  }

  /** The second header, entered at the cursor of line 4 of the new file,
      copies `b` and `c`. */
  lemma ShiftWalkSecond(o: seq<string>, p: seq<string>)
    requires o == ShiftOrig && |p| == 5
    requires HunkTarget(p[0]) == Some(2) && HunkTarget(p[2]) == Some(4) && p[1] == "+X"
    ensures Walk(o, p[..3]) == ApplyState(true, 3, ["a", "X", "b", "c"], 1, 0)
  {
    ShiftWalkFirst(o, p);
    var c2 := ApplyState(true, 1, ["a", "X"], 1, 0);
    WalkNext(o, p, 2);
    HeaderCopiesGap(o, c2, p[2], 4);
    assert Slice(o, 1, 3) == ["b", "c"];
  }

  /** The second body then removes past the end and adds `C`. */
  lemma ShiftWalk(o: seq<string>, p: seq<string>)
    requires o == ShiftOrig && |p| == 5
    requires HunkTarget(p[0]) == Some(2) && HunkTarget(p[2]) == Some(4)
    requires p[1] == "+X" && p[3] == "-c" && p[4] == "+C"
    ensures Finish(o, Walk(o, p)) == ["a", "X", "b", "c", "C"]
  {
    ShiftWalkSecond(o, p);
    var c3 := ApplyState(true, 3, ["a", "X", "b", "c"], 1, 0);
    WalkNext(o, p, 3);
    BodyLineStep(o, c3, p[3]);
    var c4 := ApplyState(true, 4, ["a", "X", "b", "c"], 1, 1);
    assert Walk(o, p[..4]) == c4;
    WalkNext(o, p, 4);
    BodyLineStep(o, c4, p[4]);
    assert p[..5] == p;
  }

  /** The applier as written enters the second hunk at line 4 of the new
      file, copies `c` from the original, and then removes nothing. */
  lemma ShiftAsWritten()
    ensures Finish(ShiftOrig, Walk(ShiftOrig, RenderHunks(ShiftHunks))) == ["a", "X", "b", "c", "C"]
  {
    ShiftPatchLines();
    HeaderRoundTrip(1, 0, 2, 1);
    HeaderRoundTrip(3, 1, 4, 1);
    ShiftWalk(ShiftOrig, RenderHunks(ShiftHunks));
  }

  /** The misplacement: the applier as written keeps `c` and appends `C`
      after it, while the diff asks for `a X b C`; placing hunks by their
      original-side range gives `a X b C`. */
  lemma SecondHunkMisplaced()
    ensures Patched(ShiftOrig, ShiftHunks, 0) == ["a", "X", "b", "C"]
    ensures Finish(ShiftOrig, Walk(ShiftOrig, RenderHunks(ShiftHunks))) != Patched(ShiftOrig, ShiftHunks, 0)
    ensures Finish(ShiftOrig, Run(ShiftOrig, Start, ReadAll(RenderHunks(ShiftHunks)))) == Patched(ShiftOrig, ShiftHunks, 0)
  {
    ShiftIntended();
    ShiftAsWritten();
    ReadHunks(ShiftHunks);
    HunksApply(ShiftOrig, Start, ShiftHunks);
  }
}
