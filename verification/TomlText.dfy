/** Characters, strings, integers and comments of the configuration codec (`config.ts`). */
module TomlText {
  import opened Wrappers

  // ---- White space ----

  /** What `trim` removes: the white space and line terminators of ECMAScript. */
  predicate IsSpace(c: char) {
    var n := c as int;
    || 9 <= n <= 13 || n == 32 || n == 0xA0 || n == 0x1680 || 0x2000 <= n <= 0x200A
    || n == 0x2028 || n == 0x2029 || n == 0x202F || n == 0x205F || n == 0x3000 || n == 0xFEFF
  }

  function TrimStart(s: string): string {
    if s != "" && IsSpace(s[0]) then TrimStart(s[1..]) else s
  }

  function TrimEnd(s: string): string {
    if s != "" && IsSpace(s[|s| - 1]) then TrimEnd(s[..|s| - 1]) else s
  }

  function Trim(s: string): string {
    TrimEnd(TrimStart(s))
  }

  /** White space as people type it. */
  predicate Blanks(s: string) {
    forall i :: 0 <= i < |s| ==> s[i] == ' ' || s[i] == '\t' || s[i] == '\r'
  }

  lemma {:induction false} BlanksGoInFront(a: string, s: string)
    requires Blanks(a)
    ensures TrimStart(a + s) == TrimStart(s)
  {
    if a == "" {
      assert a + s == s;
    } else {
      assert (a + s)[0] == a[0] && (a + s)[1..] == a[1..] + s;
      BlanksGoInFront(a[1..], s);
    }
  }

  lemma {:induction false} TrimEndStops(s: string, t: string)
    requires s != "" && !IsSpace(s[|s| - 1])
    ensures TrimEnd(s + t) == s + TrimEnd(t)
  {
    if t == "" {
      assert s + t == s && s + TrimEnd(t) == s;
    } else {
      var last := t[|t| - 1];
      assert (s + t)[..|s + t| - 1] == s + t[..|t| - 1] && (s + t)[|s + t| - 1] == last;
      if IsSpace(last) {
        TrimEndStops(s, t[..|t| - 1]);
      }
    }
  }

  lemma {:induction false} BlanksGoBehind(t: string)
    requires Blanks(t)
    ensures TrimEnd(t) == ""
  {
    if t != "" {
      BlanksGoBehind(t[..|t| - 1]);
    }
  }

  /** Text that starts and ends bare keeps what follows it, up to that text's own end. */
  lemma TrimAround(a: string, s: string, t: string)
    requires Blanks(a) && s != "" && !IsSpace(s[0]) && !IsSpace(s[|s| - 1])
    ensures Trim(a + (s + t)) == s + TrimEnd(t)
  {
    BlanksGoInFront(a, s + t);
    assert (s + t)[0] == s[0];
    TrimEndStops(s, t);
  }

  lemma TrimBlanks(a: string, s: string, t: string)
    requires Blanks(a) && s != "" && !IsSpace(s[0]) && !IsSpace(s[|s| - 1]) && Blanks(t)
    ensures Trim(a + (s + t)) == s
  {
    TrimAround(a, s, t);
    BlanksGoBehind(t);
    assert s + "" == s;
  }

  // ---- Escapes ----

  function EscapeChar(c: char): string {
    if c == '\\' then "\\\\"
    else if c == '"' then "\\\""
    else if c == '\n' then "\\n"
    else if c == '\t' then "\\t"
    else [c]
  }

  function Escape(s: string): string {
    if s == "" then "" else EscapeChar(s[0]) + Escape(s[1..])
  }

  /** `s.replace(/c/g, by)`. */
  function ReplaceAll(s: string, c: char, sub: string): string {
    if s == "" then "" else (if s[0] == c then sub else [s[0]]) + ReplaceAll(s[1..], c, sub)
  }

  lemma {:induction false} ReplaceAppend(a: string, b: string, c: char, sub: string)
    ensures ReplaceAll(a + b, c, sub) == ReplaceAll(a, c, sub) + ReplaceAll(b, c, sub)
  {
    if a == "" {
      assert a + b == b;
    } else {
      assert (a + b)[1..] == a[1..] + b;
      ReplaceAppend(a[1..], b, c, sub);
    }
  }

  /** The four replacements of the original, one after the other. */
  function Replacements(s: string): string {
    ReplaceAll(ReplaceAll(ReplaceAll(ReplaceAll(s, '\\', "\\\\"), '"', "\\\""), '\n', "\\n"), '\t', "\\t")
  }

  /** None of the replacements disturbs another: together they escape each character once. */
  lemma {:induction false} ReplacementsEscape(s: string)
    ensures Replacements(s) == Escape(s)
  {
    if s != "" {
      ReplacementsEscape(s[1..]);
      ReplacementsAppend([s[0]], s[1..]);
      assert [s[0]] + s[1..] == s;
      ReplacementsOne(s[0]);
    }
  }

  lemma ReplacementsAppend(a: string, b: string)
    ensures Replacements(a + b) == Replacements(a) + Replacements(b)
  {
    var a1, b1 := ReplaceAll(a, '\\', "\\\\"), ReplaceAll(b, '\\', "\\\\");
    var a2, b2 := ReplaceAll(a1, '"', "\\\""), ReplaceAll(b1, '"', "\\\"");
    var a3, b3 := ReplaceAll(a2, '\n', "\\n"), ReplaceAll(b2, '\n', "\\n");
    ReplaceAppend(a, b, '\\', "\\\\");
    ReplaceAppend(a1, b1, '"', "\\\"");
    ReplaceAppend(a2, b2, '\n', "\\n");
    ReplaceAppend(a3, b3, '\t', "\\t");
  }

  lemma ReplaceOne(c: char, d: char, sub: string)
    ensures ReplaceAll([c], d, sub) == if c == d then sub else [c]
  {
    assert [c][1..] == "";
    assert sub + "" == sub;
  }

  lemma ReplaceTwo(c: char, e: char, d: char, sub: string)
    requires c != d && e != d
    ensures ReplaceAll([c, e], d, sub) == [c, e]
  {
    ReplaceAppend([c], [e], d, sub);
    ReplaceOne(c, d, sub);
    ReplaceOne(e, d, sub);
    assert [c] + [e] == [c, e];
  }

  lemma ReplacementsOne(c: char)
    ensures Replacements([c]) == EscapeChar(c)
  {
    ReplaceOne(c, '\\', "\\\\");
    if c == '\\' {
      ReplaceTwo('\\', '\\', '"', "\\\"");
      ReplaceTwo('\\', '\\', '\n', "\\n");
      ReplaceTwo('\\', '\\', '\t', "\\t");
    } else {
      ReplaceOne(c, '"', "\\\"");
      if c == '"' {
        ReplaceTwo('\\', '"', '\n', "\\n");
        ReplaceTwo('\\', '"', '\t', "\\t");
      } else {
        ReplaceOne(c, '\n', "\\n");
        if c == '\n' {
          ReplaceTwo('\\', 'n', '\t', "\\t");
        } else {
          ReplaceOne(c, '\t', "\\t");
        }
      }
    }
  }

  /** In escaped text each quote follows a backslash, and line breaks and tabs are gone. */
  lemma {:induction false} EscapeShape(s: string)
    ensures forall i :: 0 <= i < |Escape(s)| && Escape(s)[i] == '"' ==> i > 0 && Escape(s)[i - 1] == '\\'
    ensures '\n' !in Escape(s) && '\t' !in Escape(s)
    ensures Escape(s) != "" ==> (Escape(s)[|Escape(s)| - 1] == '\\' <==> s[|s| - 1] == '\\')
    ensures Escape(s) == "" <==> s == ""
    ensures ']' in Escape(s) <==> ']' in s
  {
    if s != "" {
      EscapeShape(s[1..]);
      EscapeCharShape(s[0]);
      ShapeAppend(EscapeChar(s[0]), Escape(s[1..]));
      assert s == [s[0]] + s[1..];
    }
  }

  lemma EscapeCharShape(c: char)
    ensures var e := EscapeChar(c);
      && e != "" && (forall i :: 0 <= i < |e| && e[i] == '"' ==> i > 0 && e[i - 1] == '\\')
      && '\n' !in e && '\t' !in e && (e[|e| - 1] == '\\' <==> c == '\\') && (']' in e <==> c == ']')
  {
  }

  lemma ShapeAppend(e: string, x: string)
    requires forall i :: 0 <= i < |e| && e[i] == '"' ==> i > 0 && e[i - 1] == '\\'
    requires forall i :: 0 <= i < |x| && x[i] == '"' ==> i > 0 && x[i - 1] == '\\'
    ensures forall i :: 0 <= i < |e + x| && (e + x)[i] == '"' ==> i > 0 && (e + x)[i - 1] == '\\'
  {
    forall i | 0 <= i < |e + x| && (e + x)[i] == '"' ensures i > 0 && (e + x)[i - 1] == '\\' {
      if i >= |e| {
        assert x[i - |e|] == '"' && (e + x)[i - 1] == x[i - |e| - 1];
      } else {
        assert e[i] == '"' && (e + x)[i - 1] == e[i - 1];
      }
    }
  }

  lemma {:induction false} EscapeAppend(a: string, b: string)
    ensures Escape(a + b) == Escape(a) + Escape(b)
  {
    if a == "" {
      assert a + b == b;
    } else {
      assert (a + b)[1..] == a[1..] + b;
      EscapeAppend(a[1..], b);
    }
  }

  // ---- Quoted strings ----

  function Prepend(p: string, r: Option<string>): Option<string> {
    if r.Some? then Some(p + r.value) else None
  }

  function Unescaped(e: char): char {
    if e == 'n' then '\n' else if e == 't' then '\t' else if e == 'r' then '\r' else e
  }

  function Take(s: string, n: nat): string {
    if |s| <= n then s else s[..n]
  }

  function Drop(s: string, n: nat): string {
    if |s| <= n then "" else s[n..]
  }

  /** The string up to the next real quote; `hex` turns four characters after `\u` into one. */
  function Unquote(t: string, hex: string -> char): Option<string>
    decreases |t|
  {
    if t == "" then None
    else if t[0] == '"' then Some("")
    else if t[0] != '\\' then Prepend([t[0]], Unquote(t[1..], hex))
    else if |t| == 1 then None
    else if t[1] == 'u' then Prepend([hex(Take(t[2..], 4))], Unquote(Drop(t, 6), hex))
    else Prepend([Unescaped(t[1])], Unquote(t[2..], hex))
  }

  method ParseTomlString(s: string, hex: string -> char) returns (r: Option<string>)
    ensures r == if s != "" && s[0] == '"' then Unquote(s[1..], hex) else None
  {
    if s == "" || s[0] != '"' {
      return None;
    }
    var out := "";
    var i := 1;
    PrependNothing(Unquote(s[1..], hex));
    assert Drop(s, 1) == s[1..];
    while i < |s|
      invariant 1 <= i
      invariant Unquote(s[1..], hex) == Prepend(out, Unquote(Drop(s, i), hex))
    {
      var c := s[i];
      ghost var t := Drop(s, i);
      assert t == s[i..];
      if c == '"' {
        assert out + "" == out;
        return Some(out);
      }
      if c != '\\' {
        PrependPrepend(out, [c], Unquote(t[1..], hex));
        assert t[1..] == Drop(s, i + 1);
        out := out + [c];
        i := i + 1;
        continue;
      }
      if i + 1 < |s| {
        var e := s[i + 1];
        if e == 'u' {
          var ch := hex(Take(Drop(s, i + 2), 4));
          assert t[2..] == Drop(s, i + 2) && Drop(t, 6) == Drop(s, i + 6);
          PrependPrepend(out, [ch], Unquote(Drop(s, i + 6), hex));
          out := out + [ch];
          i := i + 4;
        } else {
          PrependPrepend(out, [Unescaped(e)], Unquote(t[2..], hex));
          assert t[2..] == Drop(s, i + 2);
          out := out + [Unescaped(e)];
        }
      }
      i := i + 2;
    }
    return None;
  }

  lemma PrependNothing(r: Option<string>)
    ensures Prepend("", r) == r
  {
    if r.Some? {
      assert "" + r.value == r.value;
    }
  }

  lemma PrependPrepend(a: string, b: string, r: Option<string>)
    ensures Prepend(a, Prepend(b, r)) == Prepend(a + b, r)
  {
    if r.Some? {
      assert a + (b + r.value) == a + b + r.value;
    }
  }

  lemma UnquoteOne(c: char, more: string, hex: string -> char)
    ensures Unquote(EscapeChar(c) + more, hex) == Prepend([c], Unquote(more, hex))
  {
    var e := EscapeChar(c);
    assert (e + more)[|e|..] == more;
  }

  /** Reading an escaped string back gives the string, whatever follows its closing quote. */
  lemma {:induction false} UnquoteEscape(s: string, rest: string, hex: string -> char)
    ensures Unquote(Escape(s) + "\"" + rest, hex) == Some(s)
  {
    if s == "" {
      assert Escape(s) + "\"" + rest == "\"" + rest;
    } else {
      var more := Escape(s[1..]) + "\"" + rest;
      UnquoteEscape(s[1..], rest, hex);
      UnquoteOne(s[0], more, hex);
      assert Escape(s) + "\"" + rest == EscapeChar(s[0]) + more;
      assert [s[0]] + s[1..] == s;
    }
  }

  /** Without a closing quote there is no string. */
  lemma {:induction false} UnquoteOpen(s: string, hex: string -> char)
    ensures Unquote(Escape(s), hex) == None
  {
    if s != "" {
      UnquoteOpen(s[1..], hex);
      UnquoteOne(s[0], Escape(s[1..]), hex);
    }
  }

  // ---- Comments ----

  /** Where `stripComment` cuts a line, scanning from `i`. */
  function CutAt(line: string, i: nat, inString: bool): nat
    requires i <= |line|
    ensures i <= CutAt(line, i, inString) <= |line|
    decreases |line| - i
  {
    if i == |line| then i
    else if line[i] == '"' && (i == 0 || line[i - 1] != '\\') then CutAt(line, i + 1, !inString)
    else if line[i] == '#' && !inString then i
    else CutAt(line, i + 1, inString)
  }

  method StripComment(line: string) returns (r: string)
    ensures r == line[..CutAt(line, 0, false)]
  {
    var inString := false;
    for i := 0 to |line|
      invariant CutAt(line, 0, false) == CutAt(line, i, inString)
    {
      var c := line[i];
      if c == '"' && (i == 0 || line[i - 1] != '\\') {
        inString := !inString;
      } else if c == '#' && !inString {
        return line[..i];
      }
    }
    return line;
  }

  lemma {:induction false} CutPastPlain(line: string, i: nat, n: nat)
    requires i <= n <= |line| && forall j :: i <= j < n ==> line[j] != '"' && line[j] != '#'
    ensures CutAt(line, i, false) == CutAt(line, n, false)
    decreases n - i
  {
    if i < n {
      CutPastPlain(line, i + 1, n);
    }
  }

  /** Inside a string whose only bare quote can be the last character nothing is cut. */
  lemma {:induction false} CutInString(line: string, i: nat)
    requires i <= |line|
    requires forall j :: i <= j < |line| - 1 && line[j] == '"' ==> j > 0 && line[j - 1] == '\\'
    ensures CutAt(line, i, true) == |line|
    decreases |line| - i
  {
    if i + 1 < |line| {
      CutInString(line, i + 1);
    } else if i < |line| {
      assert CutAt(line, |line|, false) == |line| && CutAt(line, |line|, true) == |line|;
    }
  }

  // ---- Integers ----

  const MAX_SAFE := 9007199254740991

  predicate IsDigit(c: char) {
    '0' <= c <= '9'
  }

  function Digit(n: nat): char
    requires n < 10
  {
    '0' + n as char
  }

  function FormatNat(n: nat): (s: string)
    ensures s != "" && forall i :: 0 <= i < |s| ==> IsDigit(s[i])
  {
    if n < 10 then [Digit(n)] else FormatNat(n / 10) + [Digit(n % 10)]
  }

  /** `String(n)` for a safe integer. */
  function FormatInt(n: int): string {
    if n < 0 then "-" + FormatNat(-n) else FormatNat(n)
  }

  /** The value of a run of digits, with underscores passed over. */
  function DigitsValue(s: string): nat {
    if s == "" then 0
    else
      var c := s[|s| - 1];
      if IsDigit(c) then 10 * DigitsValue(s[..|s| - 1]) + (c as int - '0' as int) else DigitsValue(s[..|s| - 1])
  }

  predicate HasSign(s: string) {
    s != "" && (s[0] == '+' || s[0] == '-')
  }

  function Unsigned(s: string): string {
    if HasSign(s) then s[1..] else s
  }

  /** `[+-]?[0-9_]+`. */
  predicate LooksLikeInt(s: string) {
    var body := Unsigned(s);
    body != "" && forall i :: 0 <= i < |body| ==> IsDigit(body[i]) || body[i] == '_'
  }

  predicate OnlyUnderscores(s: string) {
    forall i :: 0 <= i < |s| ==> s[i] == '_'
  }

  /** A sign with underscores only is not a number; a result outside the safe range is refused. */
  function ParseInt(s: string): Option<int>
    requires LooksLikeInt(s)
  {
    var body := Unsigned(s);
    var n: int := if s[0] == '-' then -(DigitsValue(body) as int) else DigitsValue(body);
    if HasSign(s) && OnlyUnderscores(body) then None
    else if -MAX_SAFE <= n <= MAX_SAFE then Some(n) else None
  }

  lemma {:induction false} DigitsOfFormat(n: nat)
    ensures DigitsValue(FormatNat(n)) == n
  {
    if n < 10 {
      assert [Digit(n)][..0] == "";
    } else {
      DigitsOfFormat(n / 10);
      var front := FormatNat(n / 10);
      assert FormatNat(n)[..|front|] == front;
    }
  }

  lemma FormatParseInt(n: int)
    requires -MAX_SAFE <= n <= MAX_SAFE
    ensures LooksLikeInt(FormatInt(n)) && ParseInt(FormatInt(n)) == Some(n)
  {
    var digits := FormatNat(if n < 0 then -n else n);
    DigitsOfFormat(if n < 0 then -n else n);
    assert IsDigit(digits[0]) && !HasSign(digits);
    var s := FormatInt(n);
    assert Unsigned(s) == digits;
    assert digits[0] != '_' && !OnlyUnderscores(digits);
    assert s[0] == '-' <==> n < 0;
    assert (if s[0] == '-' then -(DigitsValue(digits) as int) else DigitsValue(digits)) == n;
  }
}
