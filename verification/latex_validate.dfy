/** The structural LaTeX check (`validate_latex` in
    backend/app/latex/validate.py, answered by `POST /api/latex/validate`):
    a brace-count comparison and a stack matcher over the `\begin{..}` and
    `\end{..}` commands of the source, in the order they occur. */
module LatexValidate {
  import opened Text

  /** One match of `\\begin\{([^}]+)\}|\\end\{([^}]+)\}`. The pattern makes
      every name non-empty, so the source's truthiness tests on the two
      groups only tell which alternative matched. */
  datatype Token = Begin(name: string) | End(name: string)

  /** The errors the check reports, in the order the source appends them. */
  datatype Error =
    | UnbalancedBraces
    | UnexpectedEnd(ended: string)
    | Mismatch(began: string, ended: string)
    | Unclosed(began: string)

  /** The exact text of each error. */
  function Message(e: Error): (m: string)
    ensures |m| > 0
  {
    match e
    case UnbalancedBraces => "Unbalanced brace count"
    case UnexpectedEnd(x) => "Environment mismatch: unexpected end '" + x + "'"
    case Mismatch(y, x) => "Environment mismatch: began '" + y + "' ended '" + x + "'"
    case Unclosed(y) => "Environment mismatch: unclosed '" + y + "'"
  }

  /** The errors reported so far and the open environments, innermost
      last. */
  datatype Scan = Scan(errors: seq<Error>, stack: seq<string>)

  /** One token: a begin is pushed; an end with nothing open is unexpected;
      otherwise the innermost environment is popped, and reported when its
      name differs. */
  function Step(s: Scan, t: Token): (r: Scan)
    ensures |r.errors| + |r.stack| <= |s.errors| + |s.stack| + 1
    ensures |s.errors| <= |r.errors| && r.errors[..|s.errors|] == s.errors
  {
    match t
    case Begin(x) => s.(stack := s.stack + [x])
    case End(x) =>
      if |s.stack| == 0 then s.(errors := s.errors + [UnexpectedEnd(x)])
      else
        var top := s.stack[|s.stack| - 1];
        var popped := s.stack[..|s.stack| - 1];
        if top != x then Scan(s.errors + [Mismatch(top, x)], popped)
        else s.(stack := popped)
  }

  /** The scan over the tokens, first to last. */
  function Run(s: Scan, ts: seq<Token>): (r: Scan)
    ensures |r.errors| + |r.stack| <= |s.errors| + |s.stack| + |ts|
    ensures |s.errors| <= |r.errors| && r.errors[..|s.errors|] == s.errors
    decreases |ts|
  {
    if |ts| == 0 then s else Run(Step(s, ts[0]), ts[1..])
  }

  function Reverse<T>(xs: seq<T>): (r: seq<T>)
    ensures |r| == |xs|
    ensures forall i :: 0 <= i < |xs| ==> r[i] == xs[|xs| - 1 - i]
  {
    if |xs| == 0 then [] else Reverse(xs[1..]) + [xs[0]]
  }

  /** One `unclosed` error per name, in the given order. */
  function UnclosedErrors(names: seq<string>): (r: seq<Error>)
    ensures |r| == |names|
    ensures forall i :: 0 <= i < |names| ==> r[i] == Unclosed(names[i])
  {
    if |names| == 0 then [] else [Unclosed(names[0])] + UnclosedErrors(names[1..])
  }

  /** `validate_latex(source)`, with the regular expression's matches given
      as `tokens`. */
  function Validate(source: string, tokens: seq<Token>): seq<Error> {
    var braces := if Count(source, '{') != Count(source, '}') then [UnbalancedBraces] else [];
    var s := Run(Scan(braces, []), tokens);
    s.errors + UnclosedErrors(Reverse(s.stack))
  }

  /** The response's `ok` flag. */
  predicate Ok(source: string, tokens: seq<Token>) {
    |Validate(source, tokens)| == 0
  }

  // ---------------------------------------------------------------------
  // The loop of the source, proved against the fold
  // ---------------------------------------------------------------------

  lemma RunSnoc(s: Scan, ts: seq<Token>, t: Token)
    ensures Run(s, ts + [t]) == Step(Run(s, ts), t)
    decreases |ts|
  {
    if |ts| > 0 {
      assert (ts + [t])[1..] == ts[1..] + [t];
      RunSnoc(Step(s, ts[0]), ts[1..], t);
    }
  }

  /** The `for m in re.finditer(...)` loop, from the given errors and an
      empty stack. */
  method ScanTokens(errors0: seq<Error>, tokens: seq<Token>) returns (errors: seq<Error>, stack: seq<string>)
    ensures Scan(errors, stack) == Run(Scan(errors0, []), tokens)
  {
    errors, stack := errors0, [];
    for i := 0 to |tokens|
      invariant Scan(errors, stack) == Run(Scan(errors0, []), tokens[..i])
    {
      RunSnoc(Scan(errors0, []), tokens[..i], tokens[i]);
      assert tokens[..i + 1] == tokens[..i] + [tokens[i]];
      match tokens[i]
      case Begin(x) =>
        stack := stack + [x];
      case End(x) =>
        if |stack| == 0 {
          errors := errors + [UnexpectedEnd(x)];
        } else {
          var top := stack[|stack| - 1];
          stack := stack[..|stack| - 1];
          if top != x {
            errors := errors + [Mismatch(top, x)];
          }
        }
    }
    assert tokens[..|tokens|] == tokens;
  }

  /** `for unclosed in reversed(stack)`. */
  method ReportUnclosed(stack: seq<string>) returns (errors: seq<Error>)
    ensures errors == UnclosedErrors(Reverse(stack))
  {
    errors := [];
    var j := |stack|;
    while j > 0
      invariant 0 <= j <= |stack|
      invariant errors == UnclosedErrors(Reverse(stack))[..|stack| - j]
    {
      j := j - 1;
      assert UnclosedErrors(Reverse(stack))[..|stack| - j]
        == UnclosedErrors(Reverse(stack))[..|stack| - j - 1] + [Unclosed(stack[j])];
      errors := errors + [Unclosed(stack[j])];
    }
    assert UnclosedErrors(Reverse(stack))[..|stack|] == UnclosedErrors(Reverse(stack));
  }

  /** `validate_latex`: the brace check, the scan, then one error per
      environment left open, innermost first. */
  method ValidateLatex(source: string, tokens: seq<Token>) returns (errors: seq<Error>)
    ensures errors == Validate(source, tokens)
  {
    var braces: seq<Error> := [];
    if Count(source, '{') != Count(source, '}') {
      braces := [UnbalancedBraces];
    }
    var stack, unclosed;
    errors, stack := ScanTokens(braces, tokens);
    unclosed := ReportUnclosed(stack);
    errors := errors + unclosed;
  }

  // ---------------------------------------------------------------------
  // Properties
  // ---------------------------------------------------------------------

  /** The error the brace check contributes, if any. */
  function BraceErrors(source: string): seq<Error> {
    if Count(source, '{') != Count(source, '}') then [UnbalancedBraces] else []
  }

  /** Scanning never reports a brace error. */
  lemma {:induction false} RunAddsNoBraceError(s: Scan, ts: seq<Token>)
    ensures forall i :: |s.errors| <= i < |Run(s, ts).errors| ==> Run(s, ts).errors[i] != UnbalancedBraces
    decreases |ts|
  {
    if |ts| > 0 {
      var s' := Step(s, ts[0]);
      RunAddsNoBraceError(s', ts[1..]);
      assert forall i :: |s.errors| <= i < |s'.errors| ==> s'.errors[i] != UnbalancedBraces;
    }
  }

  /** "Unbalanced brace count" is reported exactly when the source holds
      different numbers of `{` and `}`, and then it comes first. */
  lemma BraceErrorIff(source: string, tokens: seq<Token>)
    ensures UnbalancedBraces in Validate(source, tokens) <==> Count(source, '{') != Count(source, '}')
    ensures Count(source, '{') != Count(source, '}') ==> Validate(source, tokens)[0] == UnbalancedBraces
  {
    var braces := BraceErrors(source);
    var s := Run(Scan(braces, []), tokens);
    RunAddsNoBraceError(Scan(braces, []), tokens);
    var errs := Validate(source, tokens);
    var unclosed := UnclosedErrors(Reverse(s.stack));
    assert errs == s.errors + unclosed;
    if UnbalancedBraces in errs {
      assert |braces| > 0;
    }
    if |braces| > 0 {
      assert errs[0] == s.errors[0] == braces[0];
    }
  }

  /** At most one error per token, plus the brace error. */
  lemma ErrorBound(source: string, tokens: seq<Token>)
    ensures |Validate(source, tokens)| <= 1 + |tokens|
  {
  }

  /** `ok` holds exactly when the braces balance and the scan ends with no
      error and nothing open. */
  lemma OkIff(source: string, tokens: seq<Token>)
    ensures Ok(source, tokens) <==>
      Count(source, '{') == Count(source, '}') && Run(Scan([], []), tokens) == Scan([], [])
  {
    var s := Run(Scan(BraceErrors(source), []), tokens);
    assert |BraceErrors(source)| <= |s.errors|;
  }

  function Begins(names: seq<string>): (ts: seq<Token>)
    ensures |ts| == |names|
    ensures forall i :: 0 <= i < |names| ==> ts[i] == Begin(names[i])
  {
    if |names| == 0 then [] else [Begin(names[0])] + Begins(names[1..])
  }

  /** Begins only push, in order. */
  lemma {:induction false} RunBegins(errs: seq<Error>, stack: seq<string>, names: seq<string>)
    ensures Run(Scan(errs, stack), Begins(names)) == Scan(errs, stack + names)
    decreases |names|
  {
    if |names| > 0 {
      assert Begins(names)[1..] == Begins(names[1..]);
      RunBegins(errs, stack + [names[0]], names[1..]);
      assert stack + [names[0]] + names[1..] == stack + names;
    }
  }

  /** Environments that are opened and never closed are each reported as
      unclosed, innermost first. */
  lemma UnclosedInnermostFirst(source: string, names: seq<string>)
    ensures Validate(source, Begins(names)) == BraceErrors(source) + UnclosedErrors(Reverse(names))
  {
    RunBegins(BraceErrors(source), [], names);
    assert [] + names == names;
  }

  /** A run of begins followed by one end: with nothing open the end is
      unexpected; otherwise the innermost environment is popped whether or
      not its name matches, and only a differing name is reported. */
  lemma EndAfterBegins(source: string, names: seq<string>, x: string)
    ensures var errs, braces := Validate(source, Begins(names) + [End(x)]), BraceErrors(source);
      && (|names| == 0 ==> errs == braces + [UnexpectedEnd(x)])
      && (|names| > 0 && names[|names| - 1] != x ==>
            errs == braces + [Mismatch(names[|names| - 1], x)] + UnclosedErrors(Reverse(names[..|names| - 1])))
      && (|names| > 0 && names[|names| - 1] == x ==>
            errs == braces + UnclosedErrors(Reverse(names[..|names| - 1])))
  {
    var braces := BraceErrors(source);
    RunSnoc(Scan(braces, []), Begins(names), End(x));
    RunBegins(braces, [], names);
    assert [] + names == names;
    assert UnclosedErrors(Reverse([])) == [];
  }

  /** A well-formed environment: `\begin{name}`, the children, `\end{name}`. */
  datatype Env = Env(name: string, children: seq<Env>)

  function Flatten(e: Env): seq<Token>
    decreases e, 1
  {
    [Begin(e.name)] + FlattenAll(e.children) + [End(e.name)]
  }

  function FlattenAll(es: seq<Env>): seq<Token>
    decreases es, 0
  {
    if |es| == 0 then [] else Flatten(es[0]) + FlattenAll(es[1..])
  }

  lemma {:induction false} RunAppend(s: Scan, a: seq<Token>, b: seq<Token>)
    ensures Run(s, a + b) == Run(Run(s, a), b)
    decreases |a|
  {
    if |a| > 0 {
      assert (a + b)[0] == a[0];
      assert (a + b)[1..] == a[1..] + b;
      RunAppend(Step(s, a[0]), a[1..], b);
    } else {
      assert a + b == b;
    }
  }

  /** Properly nested environments leave the scan as it was: no error is
      reported and the open environments are the same afterwards. */
  lemma {:induction false} NestedLeavesScan(s: Scan, e: Env)
    ensures Run(s, Flatten(e)) == s
    decreases e, 1
  {
    var inner := FlattenAll(e.children);
    RunAppend(s, [Begin(e.name)] + inner, [End(e.name)]);
    RunAppend(s, [Begin(e.name)], inner);
    var pushed := s.(stack := s.stack + [e.name]);
    NestedAllLeaveScan(pushed, e.children);
    assert pushed.stack[..|pushed.stack| - 1] == s.stack;
  }

  lemma {:induction false} NestedAllLeaveScan(s: Scan, es: seq<Env>)
    ensures Run(s, FlattenAll(es)) == s
    decreases es, 0
  {
    if |es| > 0 {
      RunAppend(s, Flatten(es[0]), FlattenAll(es[1..]));
      NestedLeavesScan(s, es[0]);
      NestedAllLeaveScan(s, es[1..]);
    }
  }

  /** A source whose braces balance and whose environments nest properly
      passes the check. */
  lemma NestedIsOk(source: string, es: seq<Env>)
    requires Count(source, '{') == Count(source, '}')
    ensures Ok(source, FlattenAll(es))
  {
    NestedAllLeaveScan(Scan([], []), es);
  }

  /** An `equation` closed by `\end{align}` is reported as an environment
      mismatch naming both. */
  lemma EquationClosedByAlign(source: string)
    requires Count(source, '{') == Count(source, '}')
    ensures Validate(source, [Begin("equation"), End("align")]) == [Mismatch("equation", "align")]
    ensures Message(Mismatch("equation", "align")) == "Environment mismatch: began 'equation' ended 'align'"
  {
    EndAfterBegins(source, ["equation"], "align");
    assert Begins(["equation"]) == [Begin("equation")];
    assert Begins(["equation"]) + [End("align")] == [Begin("equation"), End("align")];
  }
}
