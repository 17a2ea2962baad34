/** The glob matcher (`glob_match` in `fs/binding.rs`): a loop with one backtrack point. */
module Glob {

  /** A star at `pi`, and where the pattern goes on after it: past `*`, `**` or `**` with its slash. */
  predicate StarAt(pat: string, pi: nat) {
    pi < |pat| && pat[pi] == '*'
  }

  function AfterStar(pat: string, pi: nat): (next: nat)
    requires StarAt(pat, pi)
    ensures pi < next <= |pat|
  {
    if pi + 1 < |pat| && pat[pi + 1] == '*' then
      if pi + 2 < |pat| && pat[pi + 2] == '/' then pi + 3 else pi + 2
    else pi + 1
  }

  predicate AllStars(pat: string, pi: nat) {
    forall i :: pi <= i < |pat| ==> pat[i] == '*'
  }

  /**
   * What the pattern from `pi` means for the text from `si`: with text left, a star stands for any
   * stretch of it, a double star also taking along a slash of the pattern, and any other
   * character for itself; with no text left only stars may remain.
   */
  ghost predicate Matches(pat: string, pi: nat, s: string, si: nat)
    requires pi <= |pat| && si <= |s|
    decreases |pat| - pi
  {
    if si == |s| then AllStars(pat, pi)
    else if pi == |pat| then false
    else if pat[pi] == '*' then exists k :: si <= k <= |s| && Matches(pat, AfterStar(pat, pi), s, k)
    else pat[pi] == s[si] && Matches(pat, pi + 1, s, si + 1)
  }

  /** The last star was met at `at`, and the text it now spares starts at `from`. */
  datatype Backtrack = NoStar | Star(at: nat, from: nat)

  /** A later match of what follows the star is still possible. */
  ghost predicate Retry(pat: string, s: string, back: Backtrack) {
    && back.Star? && StarAt(pat, back.at)
    && exists k :: back.from < k <= |s| && Matches(pat, AfterStar(pat, back.at), s, k)
  }

  /** Since the last star the text has been matched character by character. */
  predicate Literal(pat: string, s: string, back: Backtrack, pi: nat, si: nat) {
    back.Star? ==>
      && StarAt(pat, back.at) && AfterStar(pat, back.at) <= pi <= |pat| && back.from <= si <= |s|
      && pi - AfterStar(pat, back.at) == si - back.from
      && forall i :: AfterStar(pat, back.at) <= i < pi ==> pat[i] != '*'
  }

  /** Matching past literal pattern characters costs as many text characters. */
  lemma {:induction false} MatchesPastLiteral(pat: string, pi: nat, s: string, si: nat, n: nat)
    requires pi + n <= |pat| && si <= |s| && Matches(pat, pi, s, si)
    requires forall i :: pi <= i < pi + n ==> pat[i] != '*'
    ensures si + n <= |s| && Matches(pat, pi + n, s, si + n)
    decreases n
  {
    if n > 0 {
      assert pat[pi] != '*';
      MatchesPastLiteral(pat, pi + 1, s, si + 1, n - 1);
    }
  }

  /** One backtrack point is enough: a new star can do whatever retrying the old one could. */
  lemma NewStarSuffices(pat: string, s: string, back: Backtrack, pi: nat, si: nat)
    requires StarAt(pat, pi) && si < |s| && Literal(pat, s, back, pi, si)
    ensures Retry(pat, s, back) ==> Matches(pat, pi, s, si)
  {
    if Retry(pat, s, back) {
      var k :| back.from < k <= |s| && Matches(pat, AfterStar(pat, back.at), s, k);
      var n := pi - AfterStar(pat, back.at);
      MatchesPastLiteral(pat, AfterStar(pat, back.at), s, k, n);
      assert Matches(pat, pi, s, k + n);
      if k + n < |s| {
        var j :| k + n <= j <= |s| && Matches(pat, AfterStar(pat, pi), s, j);
      } else {
        assert Matches(pat, AfterStar(pat, pi), s, |s|);
      }
    }
  }

  /** With a star, matching now or retrying later is what the star means. */
  lemma StarMeaning(pat: string, s: string, pi: nat, si: nat)
    requires StarAt(pat, pi) && si < |s|
    ensures Matches(pat, pi, s, si) <==>
            Matches(pat, AfterStar(pat, pi), s, si) || Retry(pat, s, Star(pi, si))
  {}

  /** After a mismatch the star takes one character more. */
  lemma RetryStep(pat: string, s: string, back: Backtrack)
    requires back.Star? && StarAt(pat, back.at) && back.from < |s|
    ensures Retry(pat, s, back) <==>
            Matches(pat, AfterStar(pat, back.at), s, back.from + 1) || Retry(pat, s, Star(back.at, back.from + 1))
  {}

  /** The loop accepts exactly what the pattern means. */
  method GlobMatch(pat: string, s: string) returns (ok: bool)
    ensures ok <==> Matches(pat, 0, s, 0)
  {
    var pi, si := 0, 0;
    var starPi: int := -1;
    var starSi := 0;
    ghost var back := NoStar;
    while si < |s|
      invariant 0 <= pi <= |pat| && 0 <= si <= |s|
      invariant if starPi < 0 then back == NoStar else back == Star(starPi, starSi)
      invariant back.Star? ==> StarAt(pat, starPi) && 0 <= starSi <= |s|
      invariant Literal(pat, s, back, pi, si)
      invariant Matches(pat, 0, s, 0) <==> Matches(pat, pi, s, si) || Retry(pat, s, back)
      decreases |pat| - starPi, |s| - starSi, |pat| - pi
    {
      if pi < |pat| {
        if pi + 1 < |pat| && pat[pi] == '*' && pat[pi + 1] == '*' {
          NewStarSuffices(pat, s, back, pi, si);
          StarMeaning(pat, s, pi, si);
          starPi := pi;
          pi := pi + 2;
          if pi < |pat| && pat[pi] == '/' {
            pi := pi + 1;
          }
          starSi := si;
          back := Star(starPi, starSi);
          continue;
        }
        if pat[pi] == '*' {
          NewStarSuffices(pat, s, back, pi, si);
          StarMeaning(pat, s, pi, si);
          starPi := pi;
          pi := pi + 1;
          starSi := si;
          back := Star(starPi, starSi);
          continue;
        }
        if pat[pi] == s[si] {
          pi := pi + 1;
          si := si + 1;
          continue;
        }
      }
      assert !Matches(pat, pi, s, si);
      if starPi >= 0 {
        RetryStep(pat, s, back);
        pi := starPi + 1;
        if starPi + 1 < |pat| && pat[starPi + 1] == '*' {
          pi := starPi + 2;
          if pi < |pat| && pat[pi] == '/' {
            pi := pi + 1;
          }
        }
        starSi := starSi + 1;
        si := starSi;
        back := Star(starPi, starSi);
        continue;
      }
      return false;
    }
    ExhaustedRetry(pat, s, back, pi, si);
    ghost var rest := pi;
    while pi < |pat| && pat[pi] == '*'
      invariant rest <= pi <= |pat|
      invariant forall i :: rest <= i < pi ==> pat[i] == '*'
    {
      pi := pi + 1;
    }
    return pi == |pat|;
  }

  /** With the text used up, no retry of the star can succeed. */
  lemma ExhaustedRetry(pat: string, s: string, back: Backtrack, pi: nat, si: nat)
    requires si == |s| && pi <= |pat| && Literal(pat, s, back, pi, si)
    ensures !Retry(pat, s, back)
  {
    if Retry(pat, s, back) {
      var k :| back.from < k <= |s| && Matches(pat, AfterStar(pat, back.at), s, k);
      MatchesPastLiteral(pat, AfterStar(pat, back.at), s, k, pi - AfterStar(pat, back.at));
    }
  }

  method GlobMatchAny(pats: seq<string>, path: string) returns (ok: bool)
    ensures ok <==> exists i :: 0 <= i < |pats| && Matches(pats[i], 0, path, 0)
  {
    for i := 0 to |pats|
      invariant forall k :: 0 <= k < i ==> !Matches(pats[k], 0, path, 0)
    {
      var hit := GlobMatch(pats[i], path);
      if hit {
        return true;
      }
    }
    return false;
  }

  // ---- What the default patterns accept ----

  lemma {:induction false} LiteralMeaning(pat: string, pi: nat, s: string, si: nat)
    requires pi <= |pat| && si <= |s|
    requires forall i :: pi <= i < |pat| ==> pat[i] != '*'
    ensures Matches(pat, pi, s, si) <==> pat[pi..] == s[si..]
    decreases |pat| - pi
  {
    if si == |s| {
      assert AllStars(pat, pi) <==> pi == |pat| by {
        assert pi < |pat| ==> pat[pi] != '*';
      }
    } else if pi < |pat| {
      LiteralMeaning(pat, pi + 1, s, si + 1);
      assert pat[pi..] == [pat[pi]] + pat[pi + 1..] && s[si..] == [s[si]] + s[si + 1..];
    }
  }

  /** The text ends in `tail`, at or after `from`. */
  predicate EndsIn(s: string, from: nat, tail: string) {
    from + |tail| <= |s| && s[|s| - |tail|..] == tail
  }

  lemma StarThenTail(pat: string, pi: nat, s: string, si: nat, tail: string)
    requires StarAt(pat, pi) && si <= |s| && tail != ""
    requires pat[AfterStar(pat, pi)..] == tail && '*' !in tail
    ensures Matches(pat, pi, s, si) <==> EndsIn(s, si, tail)
  {
    var next := AfterStar(pat, pi);
    forall i | next <= i < |pat| ensures pat[i] != '*' {
      assert pat[i] == tail[i - next];
    }
    assert pat[next] == tail[0];
    forall k | si <= k <= |s| ensures Matches(pat, next, s, k) <==> s[k..] == tail {
      LiteralMeaning(pat, next, s, k);
    }
    if EndsIn(s, si, tail) {
      assert Matches(pat, next, s, |s| - |tail|);
    }
    if si < |s| && Matches(pat, pi, s, si) {
      var k := StarWitness(pat, pi, s, si);
      assert s[k..] == tail;
    }
  }

  lemma StarWitness(pat: string, pi: nat, s: string, si: nat) returns (k: nat)
    requires StarAt(pat, pi) && si < |s| && Matches(pat, pi, s, si)
    ensures si <= k <= |s| && Matches(pat, AfterStar(pat, pi), s, k)
  {
    k :| si <= k <= |s| && Matches(pat, AfterStar(pat, pi), s, k);
  }

  /** For an extension without stars, its include pattern accepts exactly the paths ending in it. */
  lemma ExtensionPattern(ext: string, path: string)
    requires '*' !in ext
    ensures Matches("**/*." + ext, 0, path, 0) <==> EndsIn(path, 0, "." + ext)
  {
    var pat, tail := "**/*." + ext, "." + ext;
    assert AfterStar(pat, 0) == 3 && AfterStar(pat, 3) == 4 && pat[4..] == tail;
    forall k | 0 <= k <= |path| ensures Matches(pat, 3, path, k) <==> EndsIn(path, k, tail) {
      StarThenTail(pat, 3, path, k, tail);
    }
    if path == "" {
      assert pat[2] == '/';
    } else if EndsIn(path, 0, tail) {
      assert Matches(pat, 3, path, 0);
    }
  }

  /** A leftover double star with its slash does not match the empty rest of a text. */
  lemma LeftoverSlash()
    ensures !Matches("a**/", 0, "a", 0) && Matches("a**/", 0, "ab", 0)
  {
    assert Matches("a**/", 4, "ab", 2);
    assert AfterStar("a**/", 1) == 4;
    assert Matches("a**/", 1, "ab", 1);
    assert "a**/"[3] == '/';
    assert !AllStars("a**/", 1);
  }
}
