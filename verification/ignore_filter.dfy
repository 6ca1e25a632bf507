/** The file-tree ignore filter (`matchesIgnore` and `shouldIgnorePath` in
    frontend/src/App.tsx): `*`-glob patterns matched case-insensitively
    against the `/`-separated segments of a workspace path. */
module IgnoreFilter {
  import opened Text

  /** The ECMAScript line terminators, which `.` does not match. */
  predicate IsLineTerminator(c: char) {
    c == '\n' || c == '\r' || c == '\U{2028}' || c == '\U{2029}'
  }

  /** Two characters equal under the regular expression's `i` flag,
      restricted to ASCII letters. */
  predicate SameLetter(a: char, b: char) {
    AsciiLower(a) == AsciiLower(b)
  }

  /** Whether the whole of `name` is in the language of `^P$`, where `P` is
      the pattern with every `*` read as `.*` and every other character
      (escaped when special) read literally. */
  predicate GlobMatch(p: string, name: string)
    decreases |p|, |name|
  {
    if |p| == 0 then |name| == 0
    else if p[0] == '*' then
      GlobMatch(p[1..], name)
      || (|name| > 0 && !IsLineTerminator(name[0]) && GlobMatch(p, name[1..]))
    else |name| > 0 && SameLetter(p[0], name[0]) && GlobMatch(p[1..], name[1..])
  }

  /** `matchesIgnore(name, pattern)`: an empty pattern matches nothing, a
      pattern equal to the name matches it, and otherwise the glob decides. */
  predicate MatchesIgnore(name: string, pattern: string)
    requires '?' !in pattern
  {
    if |pattern| == 0 then false
    else if pattern == name then true
    else GlobMatch(pattern, name)
  }

  /** Both strings have the same length and agree letter by letter up to
      ASCII case. */
  predicate SameLetters(a: string, b: string) {
    |a| == |b| && forall i :: 0 <= i < |a| ==> SameLetter(a[i], b[i])
  }

  predicate NoLineTerminators(s: string) {
    forall i :: 0 <= i < |s| ==> !IsLineTerminator(s[i])
  }

  // ---------------------------------------------------------------------
  // What a glob matches
  // ---------------------------------------------------------------------

  /** Every pattern matches its own text, so the source's early `===` test
      never changes the answer. */
  lemma {:induction false} GlobMatchesItself(p: string)
    ensures GlobMatch(p, p)
    decreases |p|
  {
    if |p| > 0 {
      GlobMatchesItself(p[1..]);
      if p[0] == '*' {
        assert GlobMatch(p[1..], p[1..]);
        assert GlobMatch(p, p[1..]);
      }
    }
  }

  /** Without `*`, a pattern matches exactly the names that spell it up to
      ASCII case. */
  lemma {:induction false} LiteralGlob(p: string, name: string)
    requires '*' !in p
    ensures GlobMatch(p, name) <==> SameLetters(p, name)
    decreases |p|
  {
    if |p| > 0 && |name| > 0 {
      assert p[0] in p;
      assert '*' !in p[1..] by {
        forall c | c in p[1..]
          ensures c != '*'
        {
          assert c in p;
        }
      }
      LiteralGlob(p[1..], name[1..]);
      if SameLetters(p, name) {
        assert SameLetters(p[1..], name[1..]) by {
          forall i | 0 <= i < |p[1..]|
            ensures SameLetter(p[1..][i], name[1..][i])
          {
            assert SameLetter(p[i + 1], name[i + 1]);
          }
        }
      }
      if GlobMatch(p, name) {
        forall i | 0 <= i < |p|
          ensures SameLetter(p[i], name[i])
        {
          if i > 0 {
            assert SameLetter(p[1..][i - 1], name[1..][i - 1]);
          }
        }
      }
    }
  }

  /** `*` followed by a literal matches exactly the names that end in that
      literal (up to ASCII case) and hold no line terminator before it; the
      default patterns `*.aux`, `*.log`, ... are of this form. */
  lemma {:induction false} StarThenLiteral(lit: string, name: string)
    requires '*' !in lit
    ensures GlobMatch("*" + lit, name) <==>
      |lit| <= |name| && NoLineTerminators(name[..|name| - |lit|])
      && SameLetters(lit, name[|name| - |lit|..])
    decreases |name|
  {
    var p := "*" + lit;
    assert p[1..] == lit;
    LiteralGlob(lit, name);
    if |name| > 0 {
      StarThenLiteral(lit, name[1..]);
      var k := |name| - |lit|;
      if k > 0 {
        assert name[1..][|name| - 1 - |lit|..] == name[k..];
        assert name[1..][..k - 1] == name[1..k];
        if NoLineTerminators(name[..k]) {
          assert !IsLineTerminator(name[..k][0]);
          assert NoLineTerminators(name[1..k]) by {
            forall i | 0 <= i < k - 1
              ensures !IsLineTerminator(name[1..k][i])
            {
              assert name[1..k][i] == name[..k][i + 1];
            }
          }
        }
        if !IsLineTerminator(name[0]) && NoLineTerminators(name[1..k]) {
          assert NoLineTerminators(name[..k]) by {
            forall i | 0 <= i < k
              ensures !IsLineTerminator(name[..k][i])
            {
              if i > 0 {
                assert name[..k][i] == name[1..k][i - 1];
              }
            }
          }
        }
      } else if k == 0 {
        assert name[k..] == name;
      }
    } else {
      if |lit| == 0 {
        assert GlobMatch(p[1..], name);
      }
    }
  }

  /** The pattern reads the name case-insensitively: lower-casing the name
      changes nothing. */
  lemma {:induction false} GlobIgnoresCase(p: string, name: string)
    ensures GlobMatch(p, name) <==> GlobMatch(p, Lower(name))
    decreases |p|, |name|
  {
    var low := Lower(name);
    if |name| > 0 {
      assert low[1..] == Lower(name[1..]);
      assert AsciiLower(AsciiLower(name[0])) == AsciiLower(name[0]);
      assert IsLineTerminator(low[0]) <==> IsLineTerminator(name[0]);
    }
    if |p| > 0 {
      if p[0] == '*' {
        GlobIgnoresCase(p[1..], name);
        if |name| > 0 {
          GlobIgnoresCase(p, name[1..]);
        }
      } else if |name| > 0 {
        GlobIgnoresCase(p[1..], name[1..]);
      }
    }
  }

  // ---------------------------------------------------------------------
  // Paths
  // ---------------------------------------------------------------------

  /** `pat.startsWith("*.") && file.toLowerCase().endsWith(pat.slice(1).toLowerCase())`. */
  predicate ExtensionMatch(file: string, pat: string) {
    StartsWith(pat, "*.") && EndsWith(Lower(file), Lower(pat[1..]))
  }

  /** Some `/`-segment of the path matches the pattern. */
  predicate SomeSegmentMatches(parts: seq<string>, pat: string)
    requires '?' !in pat
  {
    exists i :: 0 <= i < |parts| && MatchesIgnore(parts[i], pat)
  }

  /** One pattern hides the path: it is not empty, and it matches a segment
      or is an extension pattern the last segment ends with. */
  predicate PatternHides(path: string, pat: string)
    requires '?' !in pat
  {
    var parts := Split(path, '/');
    |pat| > 0 && (SomeSegmentMatches(parts, pat) || ExtensionMatch(parts[|parts| - 1], pat))
  }

  /** `shouldIgnorePath` as a statement: some pattern of the list hides the
      path. */
  predicate Ignored(path: string, patterns: seq<string>)
    requires forall j :: 0 <= j < |patterns| ==> '?' !in patterns[j]
  {
    exists j :: 0 <= j < |patterns| && PatternHides(path, patterns[j])
  }

  /** `shouldIgnorePath(path)` over the current pattern list, with the
      loops of the source: patterns in order, skipping empty ones, first
      the segments, then the last segment again, then the extension test. */
  method ShouldIgnorePath(path: string, patterns: seq<string>) returns (ignored: bool)
    requires forall j :: 0 <= j < |patterns| ==> '?' !in patterns[j]
    ensures ignored <==> Ignored(path, patterns)
  {
    var parts := Split(path, '/');
    var file := parts[|parts| - 1];
    for j := 0 to |patterns|
      invariant forall j' :: 0 <= j' < j ==> !PatternHides(path, patterns[j'])
    {
      var pat := patterns[j];
      if |pat| == 0 {
        continue;
      }
      var some := false;
      for i := 0 to |parts|
        invariant some <==> exists i' :: 0 <= i' < i && MatchesIgnore(parts[i'], pat)
      {
        if MatchesIgnore(parts[i], pat) {
          some := true;
        }
      }
      if some {
        return true;
      }
      if MatchesIgnore(file, pat) {
        return true;
      }
      if StartsWith(pat, "*.") && EndsWith(Lower(file), Lower(pat[1..])) {
        return true;
      }
    }
    return false;
  }

  /** An empty pattern hides nothing, and a pattern equal to a segment hides
      the path. */
  lemma EmptyAndExactPatterns(path: string, pat: string, i: nat)
    requires '?' !in pat
    requires i < |Split(path, '/')|
    ensures !PatternHides(path, "")
    ensures |pat| > 0 && Split(path, '/')[i] == pat ==> PatternHides(path, pat)
  {
  }

  /** A default extension pattern `*.ext` hides exactly the paths whose
      last segment ends in `.ext` up to ASCII case, or whose some segment
      does and has no line terminator before it. */
  lemma ExtensionPatternHides(path: string, ext: string)
    requires '?' !in ext && '*' !in ext
    ensures var parts := Split(path, '/');
      PatternHides(path, "*." + ext) <==>
        (EndsWith(Lower(parts[|parts| - 1]), "." + Lower(ext))
         || exists i :: 0 <= i < |parts| && GlobMatch("*." + ext, parts[i]))
  {
    var pat := "*." + ext;
    assert pat[1..] == "." + ext;
    assert Lower("." + ext) == "." + Lower(ext);
    assert StartsWith(pat, "*.");
    var parts := Split(path, '/');
    forall i | 0 <= i < |parts|
      ensures MatchesIgnore(parts[i], pat) <==> GlobMatch(pat, parts[i])
    {
      if pat == parts[i] {
        GlobMatchesItself(pat);
      }
    }
  }
}
