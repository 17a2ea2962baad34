/** Vault paths (`path.rs`): relative POSIX paths as strings of ASCII characters. */
module Paths {
  import opened Wrappers
  import opened Segments

  type Path = string

  datatype PathError = EmptyPath | AbsolutePath | ParentTraversal | NulByte | ResolvesToEmpty

  /** `a` is a proper ancestor directory of `p`: `p` continues after `a` with a slash. */
  predicate IsAncestor(a: string, p: string) {
    |a| < |p| && a == p[..|a|] && p[|a|] == '/'
  }

  /** `child` is `prefix` itself or lies below it; the empty prefix is the vault root. */
  predicate Under(prefix: string, child: string) {
    prefix == "" || child == prefix || IsAncestor(prefix, child)
  }

  lemma AncestorTransitive(a: string, b: string, c: string)
    requires IsAncestor(a, b) && IsAncestor(b, c)
    ensures IsAncestor(a, c)
  {
    assert c[..|a|] == b[..|a|];
    assert c[|a|] == b[|a|];
  }

  // ---- Normalization ----

  /** A segment a normalized path may contain. */
  predicate GoodSegment(seg: string) {
    seg != "" && seg != "." && seg != ".." && '\0' !in seg && '\\' !in seg
  }

  /** What every path stored in the document looks like. */
  predicate IsNormal(p: string) {
    forall i :: 0 <= i < |Split(p, '/')| ==> GoodSegment(Split(p, '/')[i])
  }

  predicate Skipped(seg: string) {
    seg == "" || seg == "."
  }

  /** The segments `normalize` keeps: all but the empty ones and ".". */
  function Kept(segs: seq<string>): (kept: seq<string>)
    ensures forall i :: 0 <= i < |kept| ==> kept[i] in segs && !Skipped(kept[i])
  {
    if segs == [] then []
    else if Skipped(segs[|segs| - 1]) then Kept(segs[..|segs| - 1])
    else Kept(segs[..|segs| - 1]) + [segs[|segs| - 1]]
  }

  function Unify(c: char): char {
    if c == '\\' then '/' else c
  }

  function Unified(input: string): (s: string)
    ensures '\\' !in s
  {
    seq(|input|, i requires 0 <= i < |input| => Unify(input[i]))
  }

  /** `..` or a NUL anywhere makes the path invalid. */
  predicate Rejected(seg: string) {
    seg == ".." || '\0' in seg
  }

  /** The loop of `normalize` over the segments, with its early exits. */
  method Normalize(input: string) returns (r: Result<Path, PathError>)
    ensures r == Normalized(input)
  {
    if input == "" {
      return Err(EmptyPath);
    }
    var unified := Unified(input);
    if unified[0] == '/' {
      return Err(AbsolutePath);
    }
    var segs := Split(unified, '/');
    var parts: seq<string> := [];
    for i := 0 to |segs|
      invariant parts == Kept(segs[..i])
      invariant FirstError(segs) == FirstError(segs[i..])
    {
      var seg := segs[i];
      assert segs[..i + 1][..i] == segs[..i];
      assert segs[i..][1..] == segs[i + 1..];
      if Skipped(seg) {
        continue;
      }
      if seg == ".." {
        return Err(ParentTraversal);
      }
      if '\0' in seg {
        return Err(NulByte);
      }
      parts := parts + [seg];
    }
    assert segs[..|segs|] == segs;
    if parts == [] {
      return Err(ResolvesToEmpty);
    }
    r := Ok(Join(parts, '/'));
  }

  /** The error of the first segment `normalize` refuses, if there is one. */
  function FirstError(segs: seq<string>): Option<PathError> {
    if segs == [] then None
    else if segs[0] == ".." then Some(ParentTraversal)
    else if '\0' in segs[0] then Some(NulByte)
    else FirstError(segs[1..])
  }

  /** The value of `normalize`, for use in specifications. */
  function Normalized(input: string): Result<Path, PathError> {
    if input == "" then Err(EmptyPath)
    else if Unified(input)[0] == '/' then Err(AbsolutePath)
    else
      var segs := Split(Unified(input), '/');
      match FirstError(segs)
      case Some(e) => Err(e)
      case None => if Kept(segs) == [] then Err(ResolvesToEmpty) else Ok(Join(Kept(segs), '/'))
  }

  lemma {:induction false} FirstErrorNone(segs: seq<string>)
    ensures FirstError(segs) == None <==> forall i :: 0 <= i < |segs| ==> !Rejected(segs[i])
  {
    if segs != [] {
      FirstErrorNone(segs[1..]);
      assert forall i :: 1 <= i < |segs| ==> segs[i] == segs[1..][i - 1];
      assert forall i :: 0 <= i < |segs| - 1 ==> segs[1..][i] == segs[i + 1];
    }
  }

  lemma NormalizedIsNormal(input: string)
    requires Normalized(input).Ok?
    ensures IsNormal(Normalized(input).value) && Normalized(input).value != ""
    ensures Split(Normalized(input).value, '/') == Kept(Split(Unified(input), '/'))
  {
    var segs := Split(Unified(input), '/');
    var kept := Kept(segs);
    FirstErrorNone(segs);
    forall i | 0 <= i < |kept| ensures '/' !in kept[i] && GoodSegment(kept[i]) {
      var k :| 0 <= k < |segs| && segs[k] == kept[i];
      NoBackslash(segs, k);
    }
    SplitJoin(kept, '/');
    assert |Join(kept, '/')| >= |kept[0]| > 0;
  }

  /** A backslash stands for a slash and nothing else is replaced: both spellings normalize alike. */
  lemma BackslashIsSlash(windows: string, posix: string)
    requires |windows| == |posix|
    requires forall i :: 0 <= i < |windows| ==> posix[i] == if windows[i] == '\\' then '/' else windows[i]
    ensures Normalized(windows) == Normalized(posix)
  {
    assert Unified(windows) == posix == Unified(posix);
  }

  /** Empty and dot segments do not count, wherever they stand; the others stay in order. */
  lemma {:induction false} KeptAround(a: seq<string>, seg: string, b: seq<string>)
    ensures Kept(a + [seg] + b) == Kept(a) + (if seg == "" || seg == "." then [] else [seg]) + Kept(b)
  {
    if b == [] {
      assert a + [seg] + b == a + [seg] && (a + [seg])[..|a|] == a;
    } else {
      var init := b[..|b| - 1];
      assert (a + [seg] + b)[..|a| + |b|] == a + [seg] + init;
      KeptAround(a, seg, init);
    }
  }

  lemma {:induction false} KeptAll(segs: seq<string>)
    requires forall i :: 0 <= i < |segs| ==> GoodSegment(segs[i])
    ensures Kept(segs) == segs && FirstError(segs) == None
  {
    FirstErrorNone(segs);
    if segs != [] {
      var init := segs[..|segs| - 1];
      KeptAll(init);
      assert Kept(segs) == Kept(init) + [segs[|segs| - 1]];
      assert segs == init + [segs[|segs| - 1]];
    }
  }

  /** Exactly the normal paths are left alone, so normalizing twice is normalizing once. */
  lemma NormalizeFixpoint(p: string)
    ensures p != "" && IsNormal(p) <==> Normalized(p) == Ok(p)
  {
    if Normalized(p) == Ok(p) {
      NormalizedIsNormal(p);
    }
    if p != "" && IsNormal(p) {
      var segs := Split(p, '/');
      KeptAll(segs);
      JoinKeepsClean(segs);
      assert Unified(p) == p;
      assert GoodSegment(segs[0]);
      assert p[0] != '/';
    }
  }

  lemma {:induction false} JoinKeepsClean(segs: seq<string>)
    requires forall i :: 0 <= i < |segs| ==> GoodSegment(segs[i])
    ensures '\\' !in Join(segs, '/')
  {
    if |segs| > 1 {
      JoinKeepsClean(segs[1..]);
    }
  }

  lemma {:induction false} NoBackslash(segs: seq<string>, k: nat)
    requires k < |segs| && '\\' !in Join(segs, '/')
    ensures '\\' !in segs[k]
  {
    if |segs| > 1 {
      assert Join(segs, '/') == segs[0] + "/" + Join(segs[1..], '/');
      if k > 0 {
        NoBackslash(segs[1..], k - 1);
      }
    }
  }

  lemma NormalIsRelative(p: string)
    requires IsNormal(p)
    ensures p != "" && p[0] != '/'
  {
    assert GoodSegment(Split(p, '/')[0]);
  }

  /** Every ancestor directory of a normal path is a normal path. */
  lemma AncestorIsNormal(a: string, p: string)
    requires IsNormal(p) && IsAncestor(a, p)
    ensures IsNormal(a)
  {
    var rest := p[|a| + 1..];
    assert p == a + "/" + rest;
    SplitConcat(a, rest, '/');
    assert forall i :: 0 <= i < |Split(a, '/')| ==> Split(a, '/')[i] == Split(p, '/')[i];
  }

  /** Moving a path from below `from` to below `to` keeps it normal. */
  lemma RebasedIsNormal(from: string, to: string, p: string)
    requires IsNormal(to) && IsNormal(p) && IsAncestor(from, p)
    ensures IsNormal(to + p[|from|..])
  {
    var rest := p[|from| + 1..];
    assert p == from + "/" + rest;
    SplitConcat(from, rest, '/');
    assert forall i :: 0 <= i < |Split(rest, '/')| ==> Split(rest, '/')[i] == Split(p, '/')[|Split(from, '/')| + i];
    assert to + p[|from|..] == to + "/" + rest;
    SplitConcat(to, rest, '/');
  }

  // ---- Ancestors ----

  /** The prefixes of `p` that end before one of its first `n` slashes-or-letters, root first. */
  function AncestorsWithin(p: string, n: nat): (out: seq<string>)
    requires n <= |p|
  {
    if n == 0 then []
    else if p[n - 1] == '/' then AncestorsWithin(p, n - 1) + [p[..n - 1]]
    else AncestorsWithin(p, n - 1)
  }

  lemma {:induction false} AncestorsWithinExact(p: string, n: nat)
    requires n <= |p|
    ensures forall a :: a in AncestorsWithin(p, n) <==> IsAncestor(a, p) && |a| < n
    ensures forall i, j :: 0 <= i < j < |AncestorsWithin(p, n)| ==>
      |AncestorsWithin(p, n)[i]| < |AncestorsWithin(p, n)[j]|
  {
    if n > 0 {
      AncestorsWithinExact(p, n - 1);
      var before := AncestorsWithin(p, n - 1);
      forall i | 0 <= i < |before| ensures |before[i]| < n - 1 {
        assert before[i] in before;
      }
    }
  }

  /** Slash-free text adds no ancestors. */
  lemma {:induction false} NoAncestorsWithin(p: string, m: nat, n: nat)
    requires m <= n <= |p|
    requires forall i :: m <= i < n ==> p[i] != '/'
    ensures AncestorsWithin(p, n) == AncestorsWithin(p, m)
  {
    if m < n {
      NoAncestorsWithin(p, m, n - 1);
    }
  }

  lemma AncestorStep(p: string, pre: string, parts: seq<string>)
    requires |parts| > 1 && '/' !in parts[0] && p == pre + Join(parts, '/')
    ensures p == (pre + parts[0] + "/") + Join(parts[1..], '/')
    ensures AncestorsWithin(p, |pre| + |parts[0]| + 1) == AncestorsWithin(p, |pre|) + [pre + parts[0]]
  {
    var seg, rest := parts[0], Join(parts[1..], '/');
    assert p == pre + seg + "/" + rest;
    var n := |pre| + |seg|;
    assert forall i :: |pre| <= i < n ==> p[i] == seg[i - |pre|];
    NoAncestorsWithin(p, |pre|, n);
    assert p[n] == '/' && p[..n] == pre + seg;
  }

  /** The loop of `ancestors` has joined the first `k` segments into `acc`. */
  ghost predicate Joined(p: string, parts: seq<string>, k: nat, acc: string, out: seq<string>) {
    && k < |parts|
    && (k == 0 <==> acc == "")
    && p == WithSlash(acc) + Join(parts[k..], '/')
    && out == AncestorsWithin(p, |WithSlash(acc)|)
  }

  function WithSlash(acc: string): string {
    if acc == "" then "" else acc + "/"
  }

  lemma JoinedStep(p: string, parts: seq<string>, k: nat, acc: string, out: seq<string>)
    requires Joined(p, parts, k, acc, out) && k < |parts| - 1 && '/' !in parts[k]
    requires p != "" && p[0] != '/'
    ensures var acc' := WithSlash(acc) + parts[k]; Joined(p, parts, k + 1, acc', out + [acc'])
  {
    var pre, left := WithSlash(acc), parts[k..];
    AncestorStep(p, pre, left);
    var acc' := pre + parts[k];
    assert left[0] == parts[k] && left[1..] == parts[k + 1..];
    assert p == (acc' + "/") + Join(parts[k + 1..], '/');
    assert acc' != "";
  }

  lemma JoinedLast(p: string, parts: seq<string>, k: nat, acc: string, out: seq<string>)
    requires Joined(p, parts, k, acc, out) && k == |parts| - 1 && '/' !in parts[k]
    ensures forall a :: a in out <==> IsAncestor(a, p)
    ensures forall i, j :: 0 <= i < j < |out| ==> |out[i]| < |out[j]|
  {
    var pre, last := WithSlash(acc), parts[k];
    assert parts[k..] == [last];
    assert p == pre + last;
    assert forall i :: |pre| <= i < |p| ==> p[i] == last[i - |pre|];
    NoAncestorsWithin(p, |pre|, |p|);
    AncestorsWithinExact(p, |p|);
  }

  /** All proper ancestors of a relative path, from the root toward the leaf. */
  method Ancestors(path: string) returns (out: seq<string>)
    requires path != "" && path[0] != '/'
    ensures forall a :: a in out <==> IsAncestor(a, path)
    ensures forall i, j :: 0 <= i < j < |out| ==> |out[i]| < |out[j]|
  {
    out := [];
    var acc := "";
    var parts := Split(path, '/');
    assert parts[0..] == parts;
    var k := 0;
    while k < |parts| - 1
      invariant Joined(path, parts, k, acc, out)
    {
      JoinedStep(path, parts, k, acc, out);
      if acc != "" {
        acc := acc + "/";
      }
      acc := acc + parts[k];
      out := out + [acc];
      k := k + 1;
    }
    JoinedLast(path, parts, k, acc, out);
  }
}
