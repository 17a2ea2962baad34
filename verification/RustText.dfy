/** The string operations of the Rust standard library that the key files rely on. */
module RustText {
  import opened Wrappers
  import opened Segments

  /** `char::is_whitespace`: the White_Space property of Unicode. */
  predicate IsWhitespace(c: char) {
    var n := c as int;
    || 9 <= n <= 13 || n == 32 || n == 0x85 || n == 0xA0 || n == 0x1680 || 0x2000 <= n <= 0x200A
    || n == 0x2028 || n == 0x2029 || n == 0x202F || n == 0x205F || n == 0x3000
  }

  const CONTROLS := "\t\n\U{B}\U{C}\r\U{85}"
  const SPACES := " \U{A0}\U{1680}\U{2000}\U{2001}\U{2002}\U{2003}\U{2004}\U{2005}\U{2006}\U{2007}\U{2008}\U{2009}\U{200A}"
  const LINE_ENDS := "\U{2028}\U{2029}\U{202F}\U{205F}\U{3000}"

  /** The 25 characters it names. */
  lemma WhitespaceExactly(c: char)
    ensures IsWhitespace(c) <==> c in CONTROLS || c in SPACES || c in LINE_ENDS
  {
  }

  predicate NoWhitespace(s: string) {
    forall i :: 0 <= i < |s| ==> !IsWhitespace(s[i])
  }

  /** `trim_start_matches(p)`. */
  function TrimStart(s: string, p: char -> bool): (r: string)
    ensures |r| <= |s| && r == s[|s| - |r|..]
    ensures r != "" ==> !p(r[0])
  {
    if s != "" && p(s[0]) then TrimStart(s[1..], p) else s
  }

  /** `trim_end_matches(p)`. */
  function TrimEnd(s: string, p: char -> bool): (r: string)
    ensures |r| <= |s| && r == s[..|r|]
    ensures r != "" ==> !p(r[|r| - 1])
  {
    if s != "" && p(s[|s| - 1]) then TrimEnd(s[..|s| - 1], p) else s
  }

  function TrimMatches(s: string, p: char -> bool): string {
    TrimEnd(TrimStart(s, p), p)
  }

  function Trim(s: string): string {
    TrimMatches(s, IsWhitespace)
  }

  /** No white space at either end. */
  predicate Trimmed(s: string) {
    s == "" || (!IsWhitespace(s[0]) && !IsWhitespace(s[|s| - 1]))
  }

  /** Trimming makes a string trimmed, leaves trimmed strings alone, and adds no character. */
  lemma TrimExactly(s: string)
    ensures Trimmed(Trim(s))
    ensures Trim(s) == s <==> Trimmed(s)
    ensures forall c :: c in Trim(s) ==> c in s
  {
    var t := TrimStart(s, IsWhitespace);
    var r := Trim(s);
    assert r == t[..|r|];
    if r != "" {
      assert r[0] == t[0];
    }
  }

  /** The text before the first white space, and the text after it if there is one. */
  function CutAtSpace(s: string): (r: (string, Option<string>))
    ensures NoWhitespace(r.0)
    ensures r.1.None? ==> r.0 == s
    ensures r.1.Some? ==> exists c :: IsWhitespace(c) && s == r.0 + [c] + r.1.value
  {
    if s == "" then ("", None)
    else if IsWhitespace(s[0]) then
      assert s == "" + [s[0]] + s[1..];
      ("", Some(s[1..]))
    else
      var (head, tail) := CutAtSpace(s[1..]);
      assert tail.Some? ==> exists c :: IsWhitespace(c) && s == [s[0]] + head + [c] + tail.value by {
        if tail.Some? {
          var c :| IsWhitespace(c) && s[1..] == head + [c] + tail.value;
          assert s == [s[0]] + head + [c] + tail.value;
        }
      }
      ([s[0]] + head, tail)
  }

  lemma {:induction false} CutAtSpaceIs(head: string, c: char, tail: string)
    requires NoWhitespace(head) && IsWhitespace(c)
    ensures CutAtSpace(head + [c] + tail) == (head, Some(tail))
  {
    if head == "" {
      assert head + [c] + tail == [c] + tail;
    } else {
      assert (head + [c] + tail)[1..] == head[1..] + [c] + tail;
      assert (head + [c] + tail)[0] == head[0] && [head[0]] + head[1..] == head;
      CutAtSpaceIs(head[1..], c, tail);
    }
  }

  lemma {:induction false} CutNothing(head: string)
    requires NoWhitespace(head)
    ensures CutAtSpace(head) == (head, None)
  {
    if head != "" {
      CutNothing(head[1..]);
    }
  }

  /** `split_whitespace`: the non-empty pieces. */
  function Words(s: string): (ws: seq<string>)
    ensures forall i :: 0 <= i < |ws| ==> ws[i] != "" && NoWhitespace(ws[i])
    decreases |s|
  {
    var (head, tail) := CutAtSpace(s);
    assert tail.Some? ==> |tail.value| < |s|;
    (if head == "" then [] else [head]) + (if tail.None? then [] else Words(tail.value))
  }

  // ---- Lines ----

  /** `strip_suffix` of one carriage return. */
  function StripCarriageReturn(s: string): string {
    if s != "" && s[|s| - 1] == '\r' then s[..|s| - 1] else s
  }

  /** The lines of the pieces between newlines: a final empty piece is no line. */
  function LinesOf(parts: seq<string>): seq<string>
    requires |parts| >= 1
  {
    if |parts| == 1 then (if parts[0] == "" then [] else parts)
    else [StripCarriageReturn(parts[0])] + LinesOf(parts[1..])
  }

  /** `str::lines`. */
  function Lines(s: string): seq<string> {
    LinesOf(Split(s, '\n'))
  }

  lemma {:induction false} LinesOfHaveNoNewline(parts: seq<string>)
    requires |parts| >= 1 && forall i :: 0 <= i < |parts| ==> '\n' !in parts[i]
    ensures forall i :: 0 <= i < |LinesOf(parts)| ==> '\n' !in LinesOf(parts)[i]
  {
    if |parts| > 1 {
      LinesOfHaveNoNewline(parts[1..]);
    }
  }

  /** A line that a newline ends is read back first. */
  lemma LinesCons(line: string, rest: string)
    requires '\n' !in line && (line == "" || line[|line| - 1] != '\r')
    ensures Lines(line + "\n" + rest) == [line] + Lines(rest)
  {
    SplitConcat(line, rest, '\n');
    SplitJoin([line], '\n');
    assert ([line] + Split(rest, '\n'))[1..] == Split(rest, '\n');
  }

  /** So is one that a carriage return and a newline end. */
  lemma LinesConsReturn(line: string, rest: string)
    requires '\n' !in line
    ensures Lines(line + "\r\n" + rest) == [line] + Lines(rest)
  {
    var first := line + ['\r'];
    assert line + "\r\n" + rest == first + ['\n'] + rest;
    SplitConcat(first, rest, '\n');
    SplitJoin([first], '\n');
    assert ([first] + Split(rest, '\n'))[1..] == Split(rest, '\n');
    assert first[..|line|] == line;
  }

  // ---- Substrings ----

  /** `find`: where `sep` first occurs. */
  function Find(s: string, sep: string): (r: Option<nat>)
    ensures r.Some? ==> r.value + |sep| <= |s|
  {
    if sep <= s then Some(0)
    else if s == "" then None
    else
      match Find(s[1..], sep)
      case Some(i) => Some(i + 1)
      case None => None
  }

  /** `sub` stands somewhere in `s`. */
  ghost predicate Occurs(s: string, sub: string) {
    exists i :: 0 <= i <= |s| && sub <= s[i..]
  }

  /** `find` succeeds exactly if the text occurs, and gives its first place. */
  lemma {:induction false} FindExactly(s: string, sub: string)
    requires sub != ""
    ensures Find(s, sub).Some? <==> Occurs(s, sub)
    ensures Find(s, sub).Some? ==> sub <= s[Find(s, sub).value..] && forall j :: 0 <= j < Find(s, sub).value ==> !(sub <= s[j..])
  {
    assert s[0..] == s;
    if !(sub <= s) && s != "" {
      FindExactly(s[1..], sub);
      OccursLater(s, sub);
      if Find(s[1..], sub).Some? {
        var at := Find(s[1..], sub).value;
        forall j | 0 <= j < at + 1 ensures !(sub <= s[j..]) {
          if j > 0 {
            assert s[j..] == s[1..][j - 1..];
          }
        }
        assert s[at + 1..] == s[1..][at..];
      }
    }
  }

  lemma OccursLater(s: string, sub: string)
    requires s != "" && !(sub <= s)
    ensures Occurs(s, sub) <==> Occurs(s[1..], sub)
  {
    if Occurs(s, sub) {
      var i :| 0 <= i <= |s| && sub <= s[i..];
      assert s[0..] == s;
      assert s[i..] == s[1..][i - 1..];
    }
    if Occurs(s[1..], sub) {
      var i :| 0 <= i <= |s[1..]| && sub <= s[1..][i..];
      assert s[i + 1..] == s[1..][i..];
    }
  }

  /** White space in front is trimmed off. */
  lemma {:induction false} TrimStartSkips(front: string, s: string, p: char -> bool)
    requires (forall i :: 0 <= i < |front| ==> p(front[i])) && s != "" && !p(s[0])
    ensures TrimStart(front + s, p) == s
  {
    if front == "" {
      assert front + s == s;
    } else {
      assert (front + s)[1..] == front[1..] + s;
      TrimStartSkips(front[1..], s, p);
    }
  }

  /** Trimming the end stops at the last character that is not trimmed. */
  lemma {:induction false} TrimEndKeeps(s: string, i: nat, p: char -> bool)
    requires i < |s| && !p(s[i])
    ensures |TrimEnd(s, p)| > i
  {
    if p(s[|s| - 1]) {
      TrimEndKeeps(s[..|s| - 1], i, p);
    }
  }

  /** `replace` of one character by another. */
  function Replace(s: string, c: char, d: char): string {
    seq(|s|, i requires 0 <= i < |s| => if s[i] == c then d else s[i])
  }
}
