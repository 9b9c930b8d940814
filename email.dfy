/**
 * The e-mail shape the form accepts: the regular expression
 * `^[^\s@]+@[^\s@]+\.[^\s@]+$`, given once as the language it denotes and once as
 * a direct scan of the string, and proved to agree.
 */
module EmailPattern {
  import opened Text

  /** A character the class `[^\s@]` matches. */
  predicate IsRunChar(c: char) {
    !IsWhitespace(c) && c != '@'
  }

  /** A string the sub-pattern `[^\s@]+` matches in full. */
  predicate IsRun(s: string) {
    s != [] && forall k :: 0 <= k < |s| ==> IsRunChar(s[k])
  }

  /**
   * The language of the regular expression: the string splits as A "@" B "." C with
   * A, B and C each a run. Backtracking lets any dot of the part after the `@` be
   * the one the pattern's `\.` matches, so B may itself contain dots.
   */
  ghost predicate MatchesEmailPattern(s: string) {
    exists i, j :: SplitsAt(s, i, j)
  }

  /** The pattern matches with its `@` at position `i` and its `\.` at position `j`. */
  ghost predicate SplitsAt(s: string, i: int, j: int) {
    && 0 <= i < j < |s| && s[i] == '@' && s[j] == '.'
    && IsRun(s[..i]) && IsRun(s[i + 1..j]) && IsRun(s[j + 1..])
  }

  /** Position of the first occurrence of `c`, or `|s|` when there is none. */
  function IndexOf(s: string, c: char): nat {
    if s == [] then 0
    else if s[0] == c then 0
    else 1 + IndexOf(s[1..], c)
  }

  /** `IndexOf` finds the first occurrence, or runs off the end. */
  lemma {:induction false} IndexOfSpec(s: string, c: char)
    ensures IndexOf(s, c) <= |s|
    ensures IndexOf(s, c) < |s| ==> s[IndexOf(s, c)] == c
    ensures forall k :: 0 <= k < IndexOf(s, c) ==> s[k] != c
  {
    if s != [] && s[0] != c {
      IndexOfSpec(s[1..], c);
    }
  }

  /**
   * The test the form runs: a run before the first `@`, a run after it, and in
   * that second run a dot that is neither its first nor its last character. An
   * accepted value has exactly one `@`.
   */
  predicate IsEmailFormat(s: string)
    ensures IsEmailFormat(s) ==> 5 <= |s| && IndexOf(s, '@') < |s| && s[IndexOf(s, '@')] == '@'
    ensures IsEmailFormat(s) ==> forall k :: 0 <= k < |s| && k != IndexOf(s, '@') ==> s[k] != '@'
  {
    IndexOfSpec(s, '@');
    var at := IndexOf(s, '@');
    assert at < |s| ==> forall k :: at < k < |s| ==> s[k] == s[at + 1..][k - at - 1];
    && at < |s|
    && IsRun(s[..at])
    && IsRun(s[at + 1..])
    && at + 3 < |s|
    && '.' in s[at + 2..|s| - 1]
  }

  /** Without an `@` the format check fails: the search for it runs off the end. */
  lemma NoAtSign(s: string)
    requires '@' !in s
    ensures !IsEmailFormat(s)
  {
    IndexOfSpec(s, '@');
  }

  /** A dot strictly inside a run splits it into two runs. */
  lemma RunSplit(d: string, k: nat)
    requires IsRun(d) && 0 < k < |d| - 1
    ensures IsRun(d[..k]) && IsRun(d[k + 1..])
  {
  }

  /** Everything the scan accepts, the regular expression matches. */
  lemma EmailFormatSound(s: string)
    requires IsEmailFormat(s)
    ensures MatchesEmailPattern(s)
  {
    var at := IndexOf(s, '@');
    IndexOfSpec(s, '@');
    var domain := s[at + 1..];
    var middle := s[at + 2..|s| - 1];
    var k :| 0 <= k < |middle| && middle[k] == '.';
    var j := at + 2 + k;
    RunSplit(domain, k + 1);
    assert s[at + 1..j] == domain[..k + 1];
    assert s[j + 1..] == domain[k + 2..];
    assert SplitsAt(s, at, j);
  }

  /** Two runs joined by a run character form a run. */
  lemma RunJoin(a: string, c: char, b: string)
    requires IsRun(a) && IsRunChar(c) && IsRun(b)
    ensures IsRun(a + [c] + b)
  {
  }

  /** A position holding `c` with no `c` before it is the first occurrence. */
  lemma {:induction false} IndexOfFirst(s: string, c: char, i: nat)
    requires i < |s| && s[i] == c
    requires forall k :: 0 <= k < i ==> s[k] != c
    ensures IndexOf(s, c) == i
  {
    if i > 0 {
      IndexOfFirst(s[1..], c, i - 1);
    }
  }

  /** Everything the regular expression matches, the scan accepts. */
  lemma EmailFormatComplete(s: string)
    requires MatchesEmailPattern(s)
    ensures IsEmailFormat(s)
  {
    var i, j :| SplitsAt(s, i, j);
    assert IndexOf(s, '@') == i by {
      assert forall k :: 0 <= k < i ==> s[..i][k] == s[k];
      IndexOfFirst(s, '@', i);
    }
    assert IsRun(s[i + 1..]) by {
      RunJoin(s[i + 1..j], '.', s[j + 1..]);
      assert s[i + 1..] == s[i + 1..j] + [s[j]] + s[j + 1..];
    }
    assert '.' in s[i + 2..|s| - 1] by {
      assert s[i + 2..|s| - 1][j - i - 2] == '.';
    }
  }

  /** The scan accepts exactly the strings the regular expression matches. */
  lemma EmailFormatMatchesPattern(s: string)
    ensures IsEmailFormat(s) <==> MatchesEmailPattern(s)
  {
    if IsEmailFormat(s) {
      EmailFormatSound(s);
    }
    if MatchesEmailPattern(s) {
      EmailFormatComplete(s);
    }
  }
}
