/** The editor's "Format LaTeX" action (`formatLatex` in
    frontend/src/App.tsx): trailing spaces and tabs are removed from every
    line, and every run of three or more line feeds becomes a single blank
    line. */
module FormatLatex {
  import opened Text

  /** The characters of the class `[ \t]`. */
  predicate IsBlank(c: char) {
    c == ' ' || c == '\t'
  }

  /** A line that does not end in a space or a tab. */
  predicate Trimmed(line: string) {
    |line| == 0 || !IsBlank(line[|line| - 1])
  }

  /** `line.replace(/[ \t]+$/g, "")` on a line without line feeds: the
      longest prefix that does not end in a space or tab. */
  function TrimEnd(line: string): (r: string)
    ensures |r| <= |line| && r == line[..|r|]
    ensures forall i :: |r| <= i < |line| ==> IsBlank(line[i])
    ensures Trimmed(r)
  {
    if |line| > 0 && IsBlank(line[|line| - 1]) then TrimEnd(line[..|line| - 1]) else line
  }

  /** Trimming leaves a trimmed line alone, and only a trimmed line. */
  lemma TrimEndFixes(line: string)
    ensures TrimEnd(line) == line <==> Trimmed(line)
  {
  }

  function TrimLines(lines: seq<string>): (r: seq<string>)
    ensures |r| == |lines|
    ensures forall i :: 0 <= i < |lines| ==> r[i] == TrimEnd(lines[i])
  {
    if |lines| == 0 then [] else [TrimEnd(lines[0])] + TrimLines(lines[1..])
  }

  /** The number of line feeds at the start of `s`. */
  function LeadingBreaks(s: string): (n: nat)
    ensures n <= |s|
    ensures forall i :: 0 <= i < n ==> s[i] == '\n'
    ensures n == |s| || s[n] != '\n'
  {
    if |s| > 0 && s[0] == '\n' then 1 + LeadingBreaks(s[1..]) else 0
  }

  /** No three consecutive line feeds. */
  predicate NoTripleBreak(s: string) {
    forall i :: 0 <= i < |s| - 2 ==> !(s[i] == '\n' && s[i + 1] == '\n' && s[i + 2] == '\n')
  }

  /** No space or tab at the end of a line: every one is followed by a
      character other than a line feed. */
  predicate NoTrailingBlank(s: string) {
    forall i :: 0 <= i < |s| && IsBlank(s[i]) ==> i + 1 < |s| && s[i + 1] != '\n'
  }

  /** What the action produces. */
  predicate Clean(s: string) {
    NoTripleBreak(s) && NoTrailingBlank(s)
  }

  /** `s.replace(/\n{3,}/g, "\n\n")`: scanning left to right, each maximal
      run of at least three line feeds is replaced by two; everything else
      is copied. */
  function Collapse(s: string): (r: string)
    ensures |r| <= |s|
    ensures LeadingBreaks(r) == if LeadingBreaks(s) < 2 then LeadingBreaks(s) else 2
    ensures |s| > 0 ==> |r| > 0
    ensures |s| > 0 && s[0] != '\n' ==> r[0] == s[0]
    ensures NoTripleBreak(r)
    decreases |s|
  {
    if |s| == 0 then ""
    else
      var n := LeadingBreaks(s);
      if n >= 3 then
        var r := "\n\n" + Collapse(s[n..]);
        assert r[2..] == Collapse(s[n..]);
        r
      else
        var r := [s[0]] + Collapse(s[1..]);
        assert r[1..] == Collapse(s[1..]);
        r
  }

  /** The characters of `s` other than line feeds, in order. */
  function Unbroken(s: string): (r: string)
    ensures |r| <= |s|
    ensures '\n' !in r
  {
    if |s| == 0 then ""
    else (if s[0] == '\n' then "" else [s[0]]) + Unbroken(s[1..])
  }

  /** Dropping leading line feeds does not change the other characters. */
  lemma {:induction false} UnbrokenSkipsBreaks(s: string, n: nat)
    requires n <= LeadingBreaks(s)
    ensures Unbroken(s[n..]) == Unbroken(s)
    decreases n
  {
    if n > 0 {
      UnbrokenSkipsBreaks(s[1..], n - 1);
      assert s[1..][n - 1..] == s[n..];
    }
  }

  /** The collapse only ever removes line feeds: every other character
      survives, in its original order. */
  lemma {:induction false} CollapseKeepsText(s: string)
    ensures Unbroken(Collapse(s)) == Unbroken(s)
    decreases |s|
  {
    if |s| > 0 {
      var n := LeadingBreaks(s);
      if n >= 3 {
        CollapseKeepsText(s[n..]);
        UnbrokenSkipsBreaks(s, n);
        var r := Collapse(s);
        assert r == "\n\n" + Collapse(s[n..]);
        assert r[1..] == "\n" + Collapse(s[n..]);
        assert r[1..][1..] == Collapse(s[n..]);
      } else {
        CollapseKeepsText(s[1..]);
        var r := Collapse(s);
        assert r[1..] == Collapse(s[1..]);
      }
    }
  }

  /** `k` line feeds. */
  function Breaks(k: nat): (r: string)
    ensures |r| == k
    ensures forall i :: 0 <= i < k ==> r[i] == '\n'
  {
    if k == 0 then "" else "\n" + Breaks(k - 1)
  }

  /** A run of `k` line feeds in front of text that does not start with
      one is a leading run of exactly `k`. */
  lemma BreaksLead(k: nat, t: string)
    requires |t| == 0 || t[0] != '\n'
    ensures LeadingBreaks(Breaks(k) + t) == k
    ensures (Breaks(k) + t)[k..] == t
  {
    var s := Breaks(k) + t;
    assert s[k..] == t;
    assert forall i :: 0 <= i < k ==> s[i] == '\n';
  }

  /** One line feed, then `k - 1` more and the rest, is `k` and the rest. */
  lemma BreakThenRest(k: nat, rest: string)
    requires k > 0
    ensures "\n" + (Breaks(k - 1) + rest) == Breaks(k) + rest
  {
    assert Breaks(k) == "\n" + Breaks(k - 1);
  }

  /** A run of three or more line feeds becomes two. */
  lemma CollapseLongRun(k: nat, t: string)
    requires k >= 3
    requires |t| == 0 || t[0] != '\n'
    ensures Collapse(Breaks(k) + t) == "\n\n" + Collapse(t)
  {
    BreaksLead(k, t);
  }

  /** A run of one or two line feeds: the first one is copied. */
  lemma CollapseShortStep(k: nat, t: string)
    requires 1 <= k < 3
    requires |t| == 0 || t[0] != '\n'
    ensures Collapse(Breaks(k) + t) == "\n" + Collapse(Breaks(k - 1) + t)
  {
    BreaksLead(k, t);
    var s := Breaks(k) + t;
    assert s[1..] == Breaks(k - 1) + t;
  }

  /** A maximal run of `k` line feeds becomes `min(k, 2)` line feeds, and
      the collapse carries on after it. */
  lemma {:induction false} CollapseRun(k: nat, t: string)
    requires |t| == 0 || t[0] != '\n'
    ensures Collapse(Breaks(k) + t) == Breaks(if k < 3 then k else 2) + Collapse(t)
    decreases k
  {
    if k == 0 {
      assert Breaks(k) + t == t;
    } else if k >= 3 {
      CollapseLongRun(k, t);
      assert Breaks(2) == "\n\n";
    } else {
      CollapseRun(k - 1, t);
      CollapseShortStep(k, t);
      BreakThenRest(k, Collapse(t));
    }
  }

  /** A character other than a line feed is copied, and the collapse
      carries on after it. */
  lemma CollapseChar(c: char, t: string)
    requires c != '\n'
    ensures Collapse([c] + t) == [c] + Collapse(t)
  {
    var s := [c] + t;
    assert s[1..] == t;
  }

  /** `formatLatex`. */
  function Format(input: string): string {
    Collapse(Join(TrimLines(Split(input, '\n')), "\n"))
  }

  // ---------------------------------------------------------------------
  // Properties
  // ---------------------------------------------------------------------

  /** Collapsing keeps a string without trailing blanks free of them. */
  lemma {:induction false} CollapseKeepsTrimmed(s: string)
    requires NoTrailingBlank(s)
    ensures NoTrailingBlank(Collapse(s))
    decreases |s|
  {
    if |s| > 0 {
      var n := LeadingBreaks(s);
      if n >= 3 {
        CollapseKeepsTrimmed(s[n..]);
        var r := Collapse(s);
        assert r[2..] == Collapse(s[n..]);
        forall i | 0 <= i < |r| && IsBlank(r[i])
          ensures i + 1 < |r| && r[i + 1] != '\n'
        {
          assert r[i] == Collapse(s[n..])[i - 2];
        }
      } else {
        CollapseKeepsTrimmed(s[1..]);
        var r := Collapse(s);
        assert r[1..] == Collapse(s[1..]);
        if IsBlank(s[0]) {
          assert s[1] != '\n';
        }
        forall i | 0 <= i < |r| && IsBlank(r[i])
          ensures i + 1 < |r| && r[i + 1] != '\n'
        {
          if i > 0 {
            assert r[i] == Collapse(s[1..])[i - 1];
          }
        }
      }
    }
  }

  /** A string without a triple line feed is left alone by the collapse. */
  lemma {:induction false} CollapseFixes(s: string)
    requires NoTripleBreak(s)
    ensures Collapse(s) == s
    decreases |s|
  {
    if |s| > 0 {
      assert LeadingBreaks(s) < 3 by {
        if |s| >= 3 {
          assert !(s[0] == '\n' && s[1] == '\n' && s[2] == '\n');
        }
      }
      CollapseFixes(s[1..]);
      assert s == [s[0]] + s[1..];
    }
  }

  /** Joining trimmed, line-feed-free lines gives a text without trailing
      blanks. */
  lemma {:induction false} JoinTrimmed(lines: seq<string>)
    requires forall i :: 0 <= i < |lines| ==> Trimmed(lines[i]) && '\n' !in lines[i]
    ensures NoTrailingBlank(Join(lines, "\n"))
    decreases |lines|
  {
    if |lines| >= 2 {
      JoinTrimmed(lines[1..]);
      var l := lines[0];
      var rest := Join(lines[1..], "\n");
      var s := Join(lines, "\n");
      assert s == l + "\n" + rest;
      forall i | 0 <= i < |s| && IsBlank(s[i])
        ensures i + 1 < |s| && s[i + 1] != '\n'
      {
        if i < |l| {
          assert s[i] == l[i];
          assert i + 1 < |l| by {
            assert Trimmed(lines[0]);
          }
          assert s[i + 1] == l[i + 1];
          assert l[i + 1] in l;
        } else if i > |l| {
          assert s[i] == rest[i - |l| - 1];
        }
      }
    }
  }

  /** Trimming never lengthens the joined text. */
  lemma {:induction false} JoinTrimmedShorter(lines: seq<string>)
    ensures |Join(TrimLines(lines), "\n")| <= |Join(lines, "\n")|
    decreases |lines|
  {
    if |lines| >= 2 {
      JoinTrimmedShorter(lines[1..]);
      assert TrimLines(lines)[1..] == TrimLines(lines[1..]);
    }
  }

  /** The first line of `s` is empty exactly when `s` is empty or starts
      with a line feed. */
  lemma SplitFirstEmpty(s: string)
    ensures Split(s, '\n')[0] == "" <==> |s| == 0 || s[0] == '\n'
  {
  }

  /** The lines of a text without trailing blanks are all trimmed. */
  lemma {:induction false} SplitTrimmed(s: string)
    requires NoTrailingBlank(s)
    ensures forall i :: 0 <= i < |Split(s, '\n')| ==> Trimmed(Split(s, '\n')[i])
    decreases |s|
  {
    if |s| > 0 {
      var t := s[1..];
      assert NoTrailingBlank(t) by {
        forall i | 0 <= i < |t| && IsBlank(t[i])
          ensures i + 1 < |t| && t[i + 1] != '\n'
        {
          assert s[i + 1] == t[i];
        }
      }
      SplitTrimmed(t);
      var rest := Split(t, '\n');
      if s[0] != '\n' {
        var first := [s[0]] + rest[0];
        if |rest[0]| == 0 {
          SplitFirstEmpty(t);
          assert !IsBlank(s[0]);
        } else {
          assert first[|first| - 1] == rest[0][|rest[0]| - 1];
        }
        assert Split(s, '\n') == [first] + rest[1..];
      }
    }
  }

  /** The output never ends a line in a space or tab and never holds three
      line feeds in a row. */
  lemma FormatIsClean(input: string)
    ensures Clean(Format(input))
  {
    var lines := TrimLines(Split(input, '\n'));
    forall i | 0 <= i < |lines|
      ensures Trimmed(lines[i]) && '\n' !in lines[i]
    {
      var l := Split(input, '\n')[i];
      assert TrimEnd(l) == l[..|TrimEnd(l)|];
      assert forall k :: 0 <= k < |TrimEnd(l)| ==> TrimEnd(l)[k] == l[k];
    }
    JoinTrimmed(lines);
    CollapseKeepsTrimmed(Join(lines, "\n"));
  }

  /** The output is never longer than the input. */
  lemma FormatShortens(input: string)
    ensures |Format(input)| <= |input|
  {
    JoinTrimmedShorter(Split(input, '\n'));
    JoinSplit(input, '\n');
  }

  /** A clean text is exactly a text the action leaves alone. */
  lemma FormatFixes(t: string)
    ensures Format(t) == t <==> Clean(t)
  {
    if Clean(t) {
      var lines := Split(t, '\n');
      SplitTrimmed(t);
      assert TrimLines(lines) == lines;
      JoinSplit(t, '\n');
      CollapseFixes(t);
    } else {
      FormatIsClean(t);
    }
  }

  /** Formatting twice is formatting once: the auto-format step, which
      compares the formatted text with the stored content, reaches a
      fixpoint after one pass. */
  lemma FormatIdempotent(input: string)
    ensures Format(Format(input)) == Format(input)
  {
    FormatIsClean(input);
    FormatFixes(Format(input));
  }
}
