/** Context budgeting for the assistant (backend/app/context/extract.py):
    a summary header in front of the LaTeX source, cut to a character
    budget and then, 100 characters at a time, to a token budget; and the
    window of source around a cursor that the structured context shows.

    What the LaTeX parser finds (`parse_latex_to_ast`, and the nearby
    sections, labels, citations and equations) is an input here. */
module ContextExtract {
  import opened Text
  import opened Wrappers

  /** `LatexAst`: what the parser found in a text. */
  datatype LatexAst = LatexAst(sections: seq<string>, labels: seq<string>, equations: seq<string>)

  // ---------------------------------------------------------------------
  // Token estimate
  // ---------------------------------------------------------------------

  /** `estimate_tokens(text)`: about four characters per token, rounded up,
      and at least one token for any non-empty text. */
  function EstimateTokens(text: string): (r: nat)
    ensures r == 0 <==> |text| == 0
    ensures |text| <= 4 * r
    ensures |text| > 0 ==> 4 * (r - 1) < |text|
  {
    if |text| == 0 then 0
    else
      var q := (|text| + 3) / 4;
      if q > 1 then q else 1
  }

  /** A longer text is never estimated at fewer tokens. */
  lemma EstimateMonotone(a: string, b: string)
    requires |a| <= |b|
    ensures EstimateTokens(a) <= EstimateTokens(b)
  {
  }

  /** A non-empty text fits `maxTokens` exactly when it has at most four
      characters per allowed token. */
  lemma EstimateFits(text: string, maxTokens: int)
    requires |text| > 0
    ensures EstimateTokens(text) <= maxTokens <==> |text| <= 4 * maxTokens
  {
  }

  // ---------------------------------------------------------------------
  // build_context
  // ---------------------------------------------------------------------

  /** The summary header `build_context` puts in front of the source: the
      first 10 section titles, the first 20 labels and the equation count. */
  function ContextHeader(ast: LatexAst): (h: string)
    ensures StartsWith(h, "LaTeX Context\nSections: ")
    ensures EndsWith(h, "\n---\n")
  {
    var h := "LaTeX Context\n"
      + "Sections: " + Join(Take(ast.sections, 10), ", ") + "\n"
      + "Labels: " + Join(Take(ast.labels, 20), ", ") + "\n"
      + "Equations: " + NatToDecimal(|ast.equations|) + "\n"
      + "---\n";
    assert h[..24] == "LaTeX Context\nSections: ";
    h
  }

  /** `build_context(source, max_chars)` with the parser's answer for
      `source` given as `ast`: nothing for a non-positive budget, otherwise
      the header followed by as much of the source as the remaining budget
      allows, all cut to the budget. */
  function BuildContext(ast: LatexAst, source: string, maxChars: int): (r: string)
    ensures maxChars <= 0 ==> r == ""
    ensures |r| <= if maxChars <= 0 then 0 else maxChars
    ensures StartsWith(ContextHeader(ast) + source, r)
  {
    if maxChars <= 0 then ""
    else
      var header := ContextHeader(ast);
      var bodyBudget := if maxChars - |header| > 0 then maxChars - |header| else 0;
      Take(header + Take(source, bodyBudget), maxChars)
  }

  /** Cutting the source first and the whole again is the same as cutting
      header and source together once. */
  lemma BuildContextIsPrefix(ast: LatexAst, source: string, maxChars: int)
    requires maxChars > 0
    ensures BuildContext(ast, source, maxChars) == Take(ContextHeader(ast) + source, maxChars)
  {
    var h := ContextHeader(ast);
    var budget := if maxChars - |h| > 0 then maxChars - |h| else 0;
    var a := h + Take(source, budget);
    var r := BuildContext(ast, source, maxChars);
    var t := Take(h + source, maxChars);
    assert |r| == |t|;
    forall i | 0 <= i < |r|
      ensures r[i] == t[i]
    {
      assert r[i] == a[i];
      if i >= |h| {
        assert a[i] == Take(source, budget)[i - |h|];
      }
    }
  }

  // ---------------------------------------------------------------------
  // build_context_with_limits
  // ---------------------------------------------------------------------

  /** One round of the truncation loop: drop the last 100 characters, or
      everything when fewer remain. */
  function Cut(ctx: string): (r: string)
    ensures |r| == if |ctx| > 100 then |ctx| - 100 else 0
    ensures r == ctx[..|r|]
  {
    Slice(ctx, 0, if |ctx| - 100 > 0 then |ctx| - 100 else 0)
  }

  /** `while ctx and estimate_tokens(ctx) > max_tokens: ctx = cut(ctx)`. */
  function TrimToTokens(ctx: string, maxTokens: int): (r: string)
    ensures |r| <= |ctx| && r == ctx[..|r|]
    ensures maxTokens >= 0 ==> EstimateTokens(r) <= maxTokens
    decreases |ctx|
  {
    if |ctx| > 0 && EstimateTokens(ctx) > maxTokens then TrimToTokens(Cut(ctx), maxTokens)
    else ctx
  }

  /** The truncation loop as the source writes it. Each round strictly
      shortens a non-empty `ctx`, so the loop ends. */
  method TrimLoop(ctx0: string, maxTokens: int) returns (ctx: string)
    ensures ctx == TrimToTokens(ctx0, maxTokens)
  {
    ctx := ctx0;
    while |ctx| > 0 && EstimateTokens(ctx) > maxTokens
      invariant TrimToTokens(ctx, maxTokens) == TrimToTokens(ctx0, maxTokens)
      decreases |ctx|
    {
      ctx := ctx[..if |ctx| - 100 > 0 then |ctx| - 100 else 0];
    }
  }

  /** How long the loop leaves a text of `n` characters: untouched when it
      fits, otherwise cut by the fewest hundreds that make it fit (or to
      nothing). */
  function KeptLength(n: nat, maxTokens: int): nat {
    if n <= 4 * maxTokens then n
    else
      var rounds := (n - 4 * maxTokens + 99) / 100;
      if n - 100 * rounds > 0 then n - 100 * rounds else 0
  }

  lemma {:induction false} TrimLength(ctx: string, maxTokens: int)
    ensures |TrimToTokens(ctx, maxTokens)| == KeptLength(|ctx|, maxTokens)
    decreases |ctx|
  {
    var n := |ctx|;
    if n > 0 && EstimateTokens(ctx) > maxTokens {
      EstimateFits(ctx, maxTokens);
      TrimLength(Cut(ctx), maxTokens);
      var m := |Cut(ctx)|;
      var d := n - 4 * maxTokens;
      assert d > 0;
      if n > 100 {
        assert m == n - 100;
        if m <= 4 * maxTokens {
          assert (d + 99) / 100 == 1;
        } else {
          assert (d + 99) / 100 == 1 + (d - 100 + 99) / 100;
        }
      } else {
        assert m == 0;
        if maxTokens >= 0 {
        } else {
          assert (d + 99) / 100 >= 1;
        }
      }
    } else if n > 0 {
      EstimateFits(ctx, maxTokens);
    }
  }

  /** `build_context_with_limits(source, max_chars, max_tokens)`. */
  function BuildContextWithLimits(ast: LatexAst, source: string, maxChars: int, maxTokens: int): (r: string)
    ensures maxChars <= 0 || maxTokens <= 0 ==> r == ""
    ensures StartsWith(BuildContext(ast, source, maxChars), r)
    ensures |r| <= if maxChars <= 0 then 0 else maxChars
    ensures EstimateTokens(r) <= if maxTokens <= 0 then 0 else maxTokens
  {
    if maxChars <= 0 || maxTokens <= 0 then ""
    else TrimToTokens(BuildContext(ast, source, maxChars), maxTokens)
  }

  /** The result is the longest cut of `build_context`'s answer that the
      loop can reach: one more round's worth of characters would not fit. */
  lemma LimitsCutMinimally(ast: LatexAst, source: string, maxChars: int, maxTokens: int)
    requires maxChars > 0 && maxTokens > 0
    ensures var c, r := BuildContext(ast, source, maxChars), BuildContextWithLimits(ast, source, maxChars, maxTokens);
      |r| < |c| ==> |r| + 100 > |c| || |r| + 100 > 4 * maxTokens
  {
    var c := BuildContext(ast, source, maxChars);
    TrimLength(c, maxTokens);
  }

  // ---------------------------------------------------------------------
  // The structured context
  // ---------------------------------------------------------------------

  /** `start = max(0, c - w)` and `end = min(len(source), c + w)`. */
  function WindowStart(center: int, window: int): (start: int)
    ensures start >= 0
    ensures start >= center - window
    ensures start == 0 || start == center - window
  {
    if center - window > 0 then center - window else 0
  }

  function WindowEnd(n: nat, center: int, window: int): (end: int)
    ensures end <= n
    ensures end <= center + window
    ensures end == n || end == center + window
  {
    if n < center + window then n else center + window
  }

  /** For a cursor inside the source and a non-negative window, the window
      lies within the source, holds the cursor and spans at most `2w`. */
  lemma WindowBounds(n: nat, center: int, window: int)
    requires 0 <= center <= n && window >= 0
    ensures var s, e := WindowStart(center, window), WindowEnd(n, center, window);
      0 <= s <= center <= e <= n && e - s <= 2 * window
      && (s == 0 || s == center - window) && (e == n || e == center + window)
  {
  }

  /** The citation keys of one `\cite{...}` argument: split at commas,
      stripped, empty ones dropped. */
  function CiteKeys(arg: string): (keys: seq<string>)
    ensures forall i :: 0 <= i < |keys| ==> IsKey(keys[i])
    ensures multiset(keys) == multiset(StripAll(Split(arg, ',')))["" := 0]
  {
    StrippedKeysAreKeys(Split(arg, ','));
    StrippedKeysContents(Split(arg, ','));
    StrippedKeys(Split(arg, ','))
  }

  /** A citation key: non-empty, without commas, not starting or ending in
      white space. */
  predicate IsKey(k: string) {
    |k| > 0 && ',' !in k && !IsPySpace(k[0]) && !IsPySpace(k[|k| - 1])
  }

  /** Stripping adds no character. */
  lemma StripKeepsOut(s: string, c: char)
    requires c !in s
    ensures c !in PyStrip(s)
  {
    var p := PyStrip(s);
    var a, b :| 0 <= a <= b <= |s| && p == s[a..b];
  }

  function StripAll(xs: seq<string>): (r: seq<string>)
    ensures |r| == |xs|
    ensures forall i :: 0 <= i < |xs| ==> r[i] == PyStrip(xs[i])
  {
    if |xs| == 0 then [] else [PyStrip(xs[0])] + StripAll(xs[1..])
  }

  /** `[x.strip() for x in parts if x.strip()]`. */
  function StrippedKeys(parts: seq<string>): (keys: seq<string>)
    ensures |keys| <= |parts|
  {
    if |parts| == 0 then []
    else
      var k := PyStrip(parts[0]);
      (if |k| > 0 then [k] else []) + StrippedKeys(parts[1..])
  }

  /** The kept keys are the stripped pieces, counted with multiplicity,
      less the blank ones. */
  lemma {:induction false} StrippedKeysContents(parts: seq<string>)
    ensures multiset(StrippedKeys(parts)) == multiset(StripAll(parts))["" := 0]
    decreases |parts|
  {
    if |parts| > 0 {
      var k := PyStrip(parts[0]);
      StrippedKeysContents(parts[1..]);
      assert StripAll(parts) == [k] + StripAll(parts[1..]);
      assert multiset(StripAll(parts)) == multiset{k} + multiset(StripAll(parts[1..]));
    }
  }

  /** The keys of consecutive pieces are the keys of each, in order. */
  lemma {:induction false} StrippedKeysAppend(xs: seq<string>, ys: seq<string>)
    ensures StrippedKeys(xs + ys) == StrippedKeys(xs) + StrippedKeys(ys)
    decreases |xs|
  {
    if |xs| == 0 {
      assert xs + ys == ys;
    } else {
      var k := PyStrip(xs[0]);
      var head: seq<string> := if |k| > 0 then [k] else [];
      assert (xs + ys)[0] == xs[0];
      assert (xs + ys)[1..] == xs[1..] + ys;
      StrippedKeysAppend(xs[1..], ys);
      assert head + (StrippedKeys(xs[1..]) + StrippedKeys(ys)) == (head + StrippedKeys(xs[1..])) + StrippedKeys(ys);
    }
  }

  /** A key strips to itself. */
  lemma KeyStripped(k: string)
    requires IsKey(k)
    ensures PyStrip(k) == k
  {
    assert LeadingSpace(k) == 0;
  }

  /** Keys already stripped come through unchanged. */
  lemma {:induction false} StrippedKeysOfKeys(keys: seq<string>)
    requires forall i :: 0 <= i < |keys| ==> IsKey(keys[i])
    ensures StrippedKeys(keys) == keys
    decreases |keys|
  {
    if |keys| > 0 {
      KeyStripped(keys[0]);
      StrippedKeysOfKeys(keys[1..]);
    }
  }

  /** Writing keys comma-separated and reading the argument back gives the
      keys, in order. */
  lemma CiteKeysRoundTrip(keys: seq<string>)
    requires forall i :: 0 <= i < |keys| ==> IsKey(keys[i])
    ensures CiteKeys(Join(keys, ",")) == keys
  {
    if |keys| == 0 {
      assert Split("", ',') == [""];
    } else {
      SplitJoin(keys, ',');
      StrippedKeysOfKeys(keys);
    }
  }

  /** The comma pieces of all the arguments, in order. */
  function Pieces(args: seq<string>): (ps: seq<string>)
    ensures |ps| >= |args|
    ensures forall i :: 0 <= i < |ps| ==> ',' !in ps[i]
  {
    if |args| == 0 then [] else Split(args[0], ',') + Pieces(args[1..])
  }

  /** Pieces without commas give keys. */
  lemma {:induction false} StrippedKeysAreKeys(parts: seq<string>)
    requires forall i :: 0 <= i < |parts| ==> ',' !in parts[i]
    ensures forall i :: 0 <= i < |StrippedKeys(parts)| ==> IsKey(StrippedKeys(parts)[i])
  {
    if |parts| > 0 {
      var k := PyStrip(parts[0]);
      StripKeepsOut(parts[0], ',');
      StrippedKeysAreKeys(parts[1..]);
      var head: seq<string> := if |k| > 0 then [k] else [];
      assert forall i :: 0 <= i < |head| ==> IsKey(head[i]);
      assert StrippedKeys(parts) == head + StrippedKeys(parts[1..]);
    }
  }

  /** The flattened citation keys of all `\cite` arguments, in order. */
  function FlattenCitations(args: seq<string>): (keys: seq<string>)
    ensures forall i :: 0 <= i < |keys| ==> IsKey(keys[i])
    ensures keys == StrippedKeys(Pieces(args))
  {
    if |args| == 0 then []
    else
      StrippedKeysAppend(Split(args[0], ','), Pieces(args[1..]));
      CiteKeys(args[0]) + FlattenCitations(args[1..])
  }

  /** What the extraction found near the cursor, before truncation: the
      current section, the labels, the raw `\cite` arguments and the
      equation bodies. */
  datatype Found = Found(currentSection: Option<string>, labels: seq<string>, citeArgs: seq<string>, equations: seq<string>)

  /** The metadata `extract_structured_context` returns. */
  datatype Structured = Structured(
    currentSection: Option<string>,
    labelsNear: seq<string>,
    citationsNear: seq<string>,
    equationsNear: seq<string>,
    start: int,
    end: int)

  /** `extract_structured_context(source, center_index=c, window_chars=w)`
      given what either extraction path found: at most 50 labels, 50
      citation keys and 10 stripped equations. */
  function ExtractStructured(source: string, center: int, window: int, found: Found): (m: Structured)
    ensures |m.labelsNear| <= 50 && |m.citationsNear| <= 50 && |m.equationsNear| <= 10
    ensures |m.labelsNear| <= |found.labels| && m.labelsNear == found.labels[..|m.labelsNear|]
    ensures |m.citationsNear| <= |FlattenCitations(found.citeArgs)|
    ensures m.citationsNear == FlattenCitations(found.citeArgs)[..|m.citationsNear|]
    ensures |m.labelsNear| == if |found.labels| < 50 then |found.labels| else 50
    ensures var keys := FlattenCitations(found.citeArgs);
      |m.citationsNear| == if |keys| < 50 then |keys| else 50
    ensures |m.equationsNear| == if |found.equations| < 10 then |found.equations| else 10
    ensures forall i :: 0 <= i < |m.equationsNear| ==> m.equationsNear[i] == PyStrip(found.equations[i])
    ensures m.currentSection == found.currentSection
    ensures m.start == WindowStart(center, window) && m.end == WindowEnd(|source|, center, window)
  {
    Structured(
      found.currentSection,
      Take(found.labels, 50),
      Take(FlattenCitations(found.citeArgs), 50),
      Take(StripAll(found.equations), 10),
      WindowStart(center, window),
      WindowEnd(|source|, center, window))
  }

  /** The header of the structured context, line by line. */
  function StructuredHeader(m: Structured): (h: string)
    ensures StartsWith(h, "Structured LaTeX Context\n")
    ensures EndsWith(h, "\n---\n")
  {
    var section := match m.currentSection
      case Some(s) => s
      case None => "";
    var body := "Structured LaTeX Context\n"
      + PyRStrip("Current Section: " + section) + "\n"
      + "Nearby Labels: " + Join(m.labelsNear, ", ") + "\n"
      + "Nearby Citations: " + Join(m.citationsNear, ", ") + "\n"
      + "Nearby Equations: " + NatToDecimal(|m.equationsNear|);
    var h := body + "\n---\n";
    assert h[..25] == "Structured LaTeX Context\n";
    assert h[|h| - 5..] == "\n---\n";
    h
  }

  /** `build_structured_context_with_limits`: the structured header, then
      the window of source, given to `build_context_with_limits`; `ast` is
      the parser's answer for that combined text. */
  function BuildStructured(source: string, center: int, maxChars: int, maxTokens: int, found: Found, ast: LatexAst): (r: (string, Structured))
    ensures |r.0| <= if maxChars <= 0 then 0 else maxChars
    ensures EstimateTokens(r.0) <= if maxTokens <= 0 then 0 else maxTokens
    ensures StartsWith(ContextHeader(ast) + (StructuredHeader(r.1) + Slice(source, r.1.start, r.1.end)), r.0)
  {
    var meta := ExtractStructured(source, center, 2000, found);
    var combined := StructuredHeader(meta) + Slice(source, meta.start, meta.end);
    var text := BuildContextWithLimits(ast, combined, maxChars, maxTokens);
    StartsWithTrans(ContextHeader(ast) + combined, BuildContext(ast, combined, maxChars), text);
    (text, meta)
  }
}
