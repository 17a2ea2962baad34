/** Configuration text as people write it: white space, comments, grouped digits, arrays on one line (`config.ts`). */
module TomlLayout {
  import opened Wrappers
  import opened TomlText
  import opened TomlArrays
  import opened TomlCodec
  import opened TomlKeys
  import opened TomlRoundTrip

  predicate IsComment(s: string) {
    s == "" || s[0] == '#'
  }

  /** A bare key of the TOML language. */
  predicate PlainKey(k: string) {
    k != "" && forall i :: 0 <= i < |k| ==>
      'a' <= k[i] <= 'z' || 'A' <= k[i] <= 'Z' || '0' <= k[i] <= '9' || k[i] == '_' || k[i] == '-'
  }

  // ---- Bare keys ----

  lemma PlainKeyIsBare(k: string)
    requires PlainKey(k)
    ensures Bare(k) && '=' !in k && '\n' !in k && '"' !in k && '#' !in k && k[0] != '[' && '\\' !in k
  {
  }

  /** Bare keys of the language are printed and read back, and name sections too. */
  lemma PlainKeysAreOk(k: string)
    requires PlainKey(k)
    ensures KeyOk(k) && NameOk(k)
  {
    PlainKeyIsBare(k);
    PlainQuotes(k, 0);
    var line := "[" + k + "]";
    forall j | 0 <= j < |line| ensures line[j] != '"' && line[j] != '#' {
      assert 0 < j < |line| - 1 ==> line[j] == k[j - 1];
    }
    CutPastPlain(line, 0, |line|);
    forall j | 0 <= j < |k| ensures k[j] != ']' {
    }
  }

  // ---- The comment scan over a line ----

  /** The scan of `f` behind text that does not end in a backslash. */
  lemma {:induction false} QuotesShift(pre: string, f: string, i: nat, b: bool)
    requires i <= |f| && (pre == "" || pre[|pre| - 1] != '\\')
    ensures QuotesAfter(pre + f, |pre| + i, b) == QuotesAfter(f, i, b)
    decreases |f| - i
  {
    if i < |f| {
      assert (pre + f)[|pre| + i] == f[i];
      assert i > 0 ==> (pre + f)[|pre| + i - 1] == f[i - 1];
      QuotesShift(pre, f, i + 1, b);
      QuotesShift(pre, f, i + 1, !b);
    }
  }

  lemma {:induction false} QuotesJoin(pre: string, f: string, i: nat, b: bool)
    requires i <= |pre| && QuotesAfter(pre, i, b).Some?
    ensures QuotesAfter(pre + f, i, b) == QuotesAfter(pre + f, |pre|, QuotesAfter(pre, i, b).value)
    decreases |pre| - i
  {
    if i < |pre| {
      assert (pre + f)[i] == pre[i];
      assert i > 0 ==> (pre + f)[i - 1] == pre[i - 1];
      if pre[i] == '"' && (i == 0 || pre[i - 1] != '\\') {
        QuotesJoin(pre, f, i + 1, !b);
      } else {
        QuotesJoin(pre, f, i + 1, b);
      }
    }
  }

  /** Behind plain text the scan of `f` starts afresh. */
  lemma QuotesBehind(pre: string, f: string)
    requires forall i :: 0 <= i < |pre| ==> pre[i] != '"' && pre[i] != '#' && pre[i] != '\\'
    ensures QuotesAfter(pre + f, 0, false) == QuotesAfter(f, 0, false)
  {
    PlainQuotes(pre, 0);
    QuotesJoin(pre, f, 0, false);
    QuotesShift(pre, f, 0, false);
    assert |pre| + 0 == |pre|;
  }

  /** Where the line `s`, blanks and a comment are cut: not within `s`, and right before the comment if no string is open. */
  lemma CutOutside(s: string, after: string, comment: string, cut: nat)
    requires Blanks(after) && IsComment(comment) && QuotesAfter(s, 0, false).Some?
    requires cut == CutAt(s + (after + comment), 0, false)
    ensures |s| <= cut <= |s + (after + comment)|
    ensures QuotesAfter(s, 0, false) == Some(false) ==> cut == |s| + |after|
  {
    var line := s + (after + comment);
    CutBehind(s, after + comment, 0, false);
    if QuotesAfter(s, 0, false) == Some(false) {
      var n := |s| + |after|;
      forall j | |s| <= j < n ensures line[j] != '"' && line[j] != '#' {
        assert line[j] == after[j - |s|];
      }
      CutPastPlain(line, |s|, n);
      assert comment != "" ==> line[n] == comment[0];
    }
  }

  /** The bare line `s` with white space around it and a comment behind. */
  lemma ContentAround(before: string, s: string, after: string, comment: string) returns (rest: string)
    requires Blanks(before) && s != "" && Bare(s) && Blanks(after) && IsComment(comment)
    requires QuotesAfter(s, 0, false).Some?
    ensures Content(before + (s + (after + comment))) == s + rest && Bare(s + rest)
    ensures QuotesAfter(s, 0, false) == Some(false) ==> rest == ""
  {
    var line := before + (s + (after + comment));
    var bs, cut := before + s, CutAt(line, 0, false);
    assert line == bs + (after + comment);
    QuotesBehind(before, s);
    CutOutside(bs, after, comment, cut);
    var t := line[|bs|..cut];
    assert line[..cut] == before + (s + t);
    TrimAround(before, s, t);
    rest := TrimEnd(t);
    TrimEndShape(t);
    assert Bare(s + rest);
    if QuotesAfter(s, 0, false) == Some(false) {
      assert t == after;
      BlanksGoBehind(after);
    }
  }

  /** White space around a line whose strings are closed and a comment behind it do not change its content. */
  lemma ContentIgnoresLayout(before: string, s: string, after: string, comment: string)
    requires Blanks(before) && s != "" && Bare(s) && Blanks(after) && IsComment(comment)
    requires QuotesAfter(s, 0, false) == Some(false)
    ensures Content(before + (s + (after + comment))) == s == Content(s)
  {
    var rest := ContentAround(before, s, after, comment);
    var none := ContentAround("", s, "", "");
    assert "" + (s + ("" + "")) == s && s + "" == s;
  }

  /** Lines of white space, with or without a comment, have no content. */
  lemma CommentLine(before: string, comment: string)
    requires Blanks(before) && IsComment(comment)
    ensures Content(before + comment) == ""
  {
    assert QuotesAfter("", 0, false) == Some(false);
    var cut := CutAt("" + (before + comment), 0, false);
    CutOutside("", before, comment, cut);
    assert "" + (before + comment) == before + comment && (before + comment)[..cut] == before;
    assert before + "" == before;
    BlanksGoInFront(before, "");
  }

  // ---- A key, an equals sign and a value ----

  /** Key and value text with any white space around the equals sign. */
  function Pair(k: string, gap: string, gap': string, f: string): string {
    k + (gap + ("=" + (gap' + f)))
  }

  lemma PairParts(k: string, gap: string, gap': string, f: string)
    requires PlainKey(k) && Blanks(gap) && Blanks(gap') && f != "" && Bare(f)
    ensures IsPair(Pair(k, gap, gap', f), k, f)
  {
    var line := Pair(k, gap, gap', f);
    PlainKeyIsBare(k);
    var front := k + gap;
    assert '=' !in front;
    assert line == front + ['='] + (gap' + f);
    IndexOfFirst(front, '=', gap' + f);
    assert line[..|front|] == front && line[|front| + 1..] == gap' + f && line[0] == k[0];
    KeyTrimmed(k, gap);
    ValueTrimmed(gap', f);
  }

  lemma KeyTrimmed(k: string, gap: string)
    requires k != "" && Bare(k) && Blanks(gap)
    ensures Trim(k + gap) == k
  {
    assert "" + (k + gap) == k + gap;
    TrimBlanks("", k, gap);
  }

  lemma ValueTrimmed(gap: string, f: string)
    requires f != "" && Bare(f) && Blanks(gap)
    ensures Trim(gap + f) == f
  {
    assert gap + (f + "") == gap + f;
    TrimBlanks(gap, f, "");
  }

  lemma PairIsPlain(k: string, gap: string, gap': string, f: string)
    requires PlainKey(k) && Blanks(gap) && Blanks(gap') && f != "" && Bare(f)
    ensures var line := Pair(k, gap, gap', f);
      line != "" && Bare(line) && QuotesAfter(line, 0, false) == QuotesAfter(f, 0, false)
  {
    var line := Pair(k, gap, gap', f);
    var pre := k + (gap + ("=" + gap'));
    PlainKeyIsBare(k);
    assert line == pre + f;
    forall i | 0 <= i < |pre| ensures pre[i] != '"' && pre[i] != '#' && pre[i] != '\\' {
      assert pre[i] in k || pre[i] in gap || pre[i] == '=' || pre[i] in gap';
    }
    QuotesBehind(pre, f);
    assert line[0] == k[0] && line[|line| - 1] == f[|f| - 1];
  }

  lemma PairGrows(k: string, gap: string, gap': string, f: string, rest: string)
    requires f != "" && Bare(f) && Bare(Pair(k, gap, gap', f) + rest)
    ensures Pair(k, gap, gap', f) + rest == Pair(k, gap, gap', f + rest) && Bare(f + rest)
  {
    var pair := Pair(k, gap, gap', f);
    assert pair + rest == Pair(k, gap, gap', f + rest);
    assert (pair + rest)[|pair + rest| - 1] == (f + rest)[|f + rest| - 1];
  }

  /** A laid-out line: white space, key and value, white space, a comment. */
  function Laid(before: string, pair: string, after: string, comment: string): string {
    before + (pair + (after + comment))
  }

  /** What is read from a laid-out line: the key, and the value text with `rest` behind it if a string seems open. */
  lemma LaidOutLine(before: string, k: string, gap: string, gap': string, f: string, after: string, comment: string)
    returns (rest: string)
    requires Blanks(before) && PlainKey(k) && Blanks(gap) && Blanks(gap') && Blanks(after) && IsComment(comment)
    requires f != "" && Bare(f) && QuotesAfter(f, 0, false).Some?
    ensures IsPair(Content(Laid(before, Pair(k, gap, gap', f), after, comment)), k, f + rest)
    ensures QuotesAfter(f, 0, false) == Some(false) ==> rest == ""
  {
    var pair := Pair(k, gap, gap', f);
    PairIsPlain(k, gap, gap', f);
    rest := ContentAround(before, pair, after, comment);
    PairGrows(k, gap, gap', f, rest);
    PairParts(k, gap, gap', f + rest);
  }

  // ---- Values ----

  lemma StringIsClosed(s: string)
    ensures var f := "\"" + Escape(s) + "\""; Bare(f) && QuotesAfter(f, 0, false).Some?
  {
    var x := Escape(s);
    var f := "\"" + x + "\"";
    EscapeShape(s);
    forall j | 1 <= j < |f| - 1 && f[j] == '"' ensures f[j - 1] == '\\' {
      assert f[j] == x[j - 1] && (j > 1 ==> f[j - 1] == x[j - 2]);
    }
    QuotesInString(f, 1);
  }

  lemma {:induction false} QuotesInString(f: string, i: nat)
    requires 0 < i <= |f| && forall j :: i <= j < |f| - 1 && f[j] == '"' ==> f[j - 1] == '\\'
    ensures QuotesAfter(f, i, true).Some?
    decreases |f| - i
  {
    if i + 1 < |f| {
      QuotesInString(f, i + 1);
    } else if i < |f| {
      assert QuotesAfter(f, |f|, false).Some? && QuotesAfter(f, |f|, true).Some?;
    }
  }

  lemma ReadOne(line: string, k: string, rhs: string, v: Value, more: seq<string>, doc: TomlDoc, table: string, hex: string -> char)
    requires IsPair(Content(line), k, rhs) && rhs != "" && rhs[0] != '[' && ParseScalar(rhs, hex) == Some(v)
    ensures ParseLines([line] + more, doc, table, hex) == ParseLines(more, PutIn(doc, table, k, v), table, hex)
  {
    var lines := [line] + more;
    assert lines[0..] == lines && lines[1..] == more;
    ScalarFound(lines, 0, k, rhs, doc, table, hex);
  }

  lemma StringIsRead(s: string, rest: string, hex: string -> char)
    ensures var f := "\"" + Escape(s) + "\"" + rest; f[0] != '[' && ParseScalar(f, hex) == Some(Str(s))
  {
    UnquoteEscape(s, rest, hex);
    assert ("\"" + Escape(s) + "\"" + rest)[1..] == Escape(s) + "\"" + rest;
  }

  /** A string is read whatever stands around it, even if it ends in a backslash. */
  lemma LaidOutString(before: string, k: string, gap: string, gap': string, s: string, after: string, comment: string,
                      more: seq<string>, doc: TomlDoc, table: string, hex: string -> char)
    requires Blanks(before) && PlainKey(k) && Blanks(gap) && Blanks(gap') && Blanks(after) && IsComment(comment)
    ensures ParseLines([Laid(before, Pair(k, gap, gap', "\"" + Escape(s) + "\""), after, comment)] + more, doc, table, hex)
         == ParseLines(more, PutIn(doc, table, k, Str(s)), table, hex)
  {
    var f := "\"" + Escape(s) + "\"";
    StringIsClosed(s);
    var rest := LaidOutLine(before, k, gap, gap', f, after, comment);
    StringIsRead(s, rest, hex);
    ReadOne(Laid(before, Pair(k, gap, gap', f), after, comment), k, f + rest, Str(s), more, doc, table, hex);
  }

  lemma IntIsPlain(s: string)
    requires LooksLikeInt(s)
    ensures s != "" && Bare(s) && QuotesAfter(s, 0, false) == Some(false) && s[0] != '"' && s[0] != '[' && s[0] != 't' && s[0] != 'f'
  {
    forall i | 0 <= i < |s| ensures '0' <= s[i] <= '9' || s[i] == '_' || s[i] == '+' || s[i] == '-' {
      assert HasSign(s) && i > 0 ==> s[i] == s[1..][i - 1];
    }
    PlainQuotes(s, 0);
  }

  lemma IntIsRead(s: string, n: int, hex: string -> char)
    requires LooksLikeInt(s) && ParseInt(s) == Some(n)
    ensures s[0] != '[' && ParseScalar(s, hex) == Some(Int(n))
  {
    IntIsPlain(s);
  }

  /** An integer, with underscores and a sign or without, is read whatever stands around it. */
  lemma LaidOutInt(before: string, k: string, gap: string, gap': string, s: string, after: string, comment: string,
                   more: seq<string>, doc: TomlDoc, table: string, hex: string -> char)
    requires Blanks(before) && PlainKey(k) && Blanks(gap) && Blanks(gap') && Blanks(after) && IsComment(comment)
    requires LooksLikeInt(s) && ParseInt(s).Some?
    ensures ParseLines([Laid(before, Pair(k, gap, gap', s), after, comment)] + more, doc, table, hex)
         == ParseLines(more, PutIn(doc, table, k, Int(ParseInt(s).value)), table, hex)
  {
    IntIsPlain(s);
    var rest := LaidOutLine(before, k, gap, gap', s, after, comment);
    assert s + rest == s;
    IntIsRead(s, ParseInt(s).value, hex);
    ReadOne(Laid(before, Pair(k, gap, gap', s), after, comment), k, s, Int(ParseInt(s).value), more, doc, table, hex);
  }

  // ---- Arrays on one line ----

  /** Each element in quotes, with `gaps[i]` in front of it. */
  function Row(items: seq<string>, gaps: seq<string>, last: string): string
    requires |gaps| == |items|
  {
    if items == [] then last else gaps[0] + ("\"" + Escape(items[0]) + "\"" + Row(items[1..], gaps[1..], last))
  }

  /** Commas and white space. */
  predicate Gap(s: string) {
    forall i :: 0 <= i < |s| ==> s[i] == ' ' || s[i] == '\t' || s[i] == ','
  }

  predicate Gaps(gaps: seq<string>) {
    forall i :: 0 <= i < |gaps| ==> Gap(gaps[i])
  }

  predicate PlainEnds(items: seq<string>) {
    forall i :: 0 <= i < |items| ==> !EndsInBackslash(items[i])
  }

  /** The elements are read with any commas and white space between them, or none. */
  lemma {:induction false} RowScans(items: seq<string>, gaps: seq<string>, last: string, hex: string -> char)
    requires |gaps| == |items| && Gaps(gaps) && Gap(last) && PlainEnds(items)
    ensures Scan(Row(items, gaps, last), hex) == Some(items)
  {
    if items == [] {
      assert last + "" == last;
      ScanSkip(last, "", hex);
    } else {
      var rest := Row(items[1..], gaps[1..], last);
      RowScans(items[1..], gaps[1..], last, hex);
      ScanSkip(gaps[0], "\"" + Escape(items[0]) + "\"" + rest, hex);
      ScanGood(items[0], rest, hex);
      assert [items[0]] + items[1..] == items;
    }
  }

  lemma StringCloses(s: string, rest: string)
    requires !EndsInBackslash(s)
    ensures QuotesAfter("\"" + Escape(s) + "\"" + rest, 0, false) == QuotesAfter(rest, 0, false)
  {
    var f := "\"" + Escape(s) + "\"";
    StringEndsOutside(s);
    QuotesJoin(f, rest, 0, false);
    QuotesShift(f, rest, 0, false);
    assert |f| + 0 == |f|;
  }

  lemma StringEndsOutside(s: string)
    requires !EndsInBackslash(s)
    ensures QuotesAfter("\"" + Escape(s) + "\"", 0, false) == Some(false)
  {
    var x := Escape(s);
    var f := "\"" + x + "\"";
    EscapeShape(s);
    forall j | 1 <= j < |f| - 1 && f[j] == '"' ensures f[j - 1] == '\\' {
      assert f[j] == x[j - 1] && (j > 1 ==> f[j - 1] == x[j - 2]);
    }
    assert f[|f| - 2] == if x == "" then '"' else x[|x| - 1];
    QuotesToEnd(f, 1);
  }

  lemma {:induction false} QuotesToEnd(f: string, i: nat)
    requires 0 < i < |f| && f[|f| - 1] == '"' && f[|f| - 2] != '\\'
    requires forall j :: i <= j < |f| - 1 && f[j] == '"' ==> f[j - 1] == '\\'
    ensures QuotesAfter(f, i, true) == Some(false)
    decreases |f| - i
  {
    if i + 1 < |f| {
      QuotesToEnd(f, i + 1);
    } else {
      assert QuotesAfter(f, |f|, false) == Some(false);
    }
  }

  lemma {:induction false} RowCloses(items: seq<string>, gaps: seq<string>, last: string, rest: string)
    requires |gaps| == |items| && Gaps(gaps) && Gap(last) && PlainEnds(items)
    ensures QuotesAfter(Row(items, gaps, last) + rest, 0, false) == QuotesAfter(rest, 0, false)
  {
    if items == [] {
      QuotesBehind(last, rest);
    } else {
      var tail := Row(items[1..], gaps[1..], last) + rest;
      var string' := "\"" + Escape(items[0]) + "\"" + tail;
      assert Row(items, gaps, last) + rest == gaps[0] + string';
      RowCloses(items[1..], gaps[1..], last, rest);
      StringCloses(items[0], tail);
      QuotesBehind(gaps[0], string');
    }
  }

  /** The text of an array on one line. */
  function Brackets(row: string): string {
    "[" + row + "]"
  }

  lemma BracketsAreClosed(items: seq<string>, gaps: seq<string>, last: string)
    requires |gaps| == |items| && Gaps(gaps) && Gap(last) && PlainEnds(items)
    ensures var f := Brackets(Row(items, gaps, last)); f != "" && Bare(f) && QuotesAfter(f, 0, false) == Some(false)
  {
    var row := Row(items, gaps, last);
    RowCloses(items, gaps, last, "]");
    PlainQuotes("]", 0);
    QuotesBehind("[", row + "]");
    assert Brackets(row) == "[" + (row + "]");
  }

  lemma BracketsScan(row: string, more: seq<string>)
    ensures Gather(Brackets(row), more) == Some((Brackets(row), 0)) && Inner(Brackets(row)) == row
  {
    InnerAt(row, "");
    assert Brackets(row) == "[" + row + "]" + "";
    assert Brackets(row)[|row| + 1] == ']';
  }

  lemma ReadArrayLine(line: string, k: string, row: string, items: seq<string>, more: seq<string>, doc: TomlDoc, table: string,
                      hex: string -> char)
    requires IsPair(Content(line), k, Brackets(row)) && Scan(row, hex) == Some(items)
    ensures ParseLines([line] + more, doc, table, hex) == ParseLines(more, PutIn(doc, table, k, Arr(items)), table, hex)
  {
    BracketsScan(row, more);
    ArrayRead(line, more, [line] + more, more, k, Brackets(row), Brackets(row), 0, Some(items), doc, table, hex);
  }

  /** An array on one line is read with any commas and white space, whatever stands around it. */
  lemma LaidOutArray(before: string, k: string, gap: string, gap': string, items: seq<string>, gaps: seq<string>, last: string,
                     after: string, comment: string, more: seq<string>, doc: TomlDoc, table: string, hex: string -> char)
    requires Blanks(before) && PlainKey(k) && Blanks(gap) && Blanks(gap') && Blanks(after) && IsComment(comment)
    requires |gaps| == |items| && Gaps(gaps) && Gap(last) && PlainEnds(items)
    ensures var f := Brackets(Row(items, gaps, last));
      ParseLines([Laid(before, Pair(k, gap, gap', f), after, comment)] + more, doc, table, hex)
         == ParseLines(more, PutIn(doc, table, k, Arr(items)), table, hex)
  {
    var row := Row(items, gaps, last);
    BracketsAreClosed(items, gaps, last);
    var rest := LaidOutLine(before, k, gap, gap', Brackets(row), after, comment);
    assert Brackets(row) + rest == Brackets(row);
    RowScans(items, gaps, last, hex);
    ReadArrayLine(Laid(before, Pair(k, gap, gap', Brackets(row)), after, comment), k, row, items, more, doc, table, hex);
  }

  // ---- Headers and other values ----

  /** A section header with white space inside and outside of its brackets, and a comment behind. */
  lemma LaidOutHeader(before: string, gap: string, name: string, gap': string, after: string, comment: string,
                      more: seq<string>, doc: TomlDoc, table: string, hex: string -> char)
    requires Blanks(before) && Blanks(gap) && PlainKey(name) && Blanks(gap') && Blanks(after) && IsComment(comment)
    ensures ParseLines([Laid(before, Brackets(gap + (name + gap')), after, comment)] + more, doc, table, hex)
         == ParseLines(more, EnsureSection(doc, name), name, hex)
  {
    var inner := gap + (name + gap');
    var line := Laid(before, Brackets(inner), after, comment);
    PlainKeyIsBare(name);
    PlainInner(gap, name, gap', inner);
    PlainHeader(inner);
    ContentIgnoresLayout(before, Brackets(inner), after, comment);
    TrimBlanks(gap, name, gap');
    assert Brackets(inner)[1..|inner| + 1] == inner;
    assert ([line] + more)[1..] == more;
  }

  lemma PlainInner(gap: string, name: string, gap': string, inner: string)
    requires Blanks(gap) && PlainKey(name) && Blanks(gap') && inner == gap + (name + gap')
    ensures inner != "" && forall i :: 0 <= i < |inner| ==> inner[i] != '"' && inner[i] != '#' && inner[i] != ']'
  {
    forall i | 0 <= i < |inner| ensures inner[i] != '"' && inner[i] != '#' && inner[i] != ']' {
      assert inner[i] in gap || inner[i] in name || inner[i] in gap';
    }
  }

  lemma PlainHeader(inner: string)
    requires forall i :: 0 <= i < |inner| ==> inner[i] != '"' && inner[i] != '#' && inner[i] != ']'
    ensures var s := Brackets(inner); Bare(s) && QuotesAfter(s, 0, false) == Some(false) && ']' !in s[1..|s| - 1]
  {
    var s := Brackets(inner);
    assert s[1..|s| - 1] == inner;
    forall i | 0 <= i < |s| ensures s[i] != '"' && s[i] != '#' {
      assert 0 < i < |s| - 1 ==> s[i] == inner[i - 1];
    }
    PlainQuotes(s, 0);
  }

  /** Besides quoted strings the two words and integers are the only scalars. */
  lemma NothingElseIsAScalar(s: string, hex: string -> char)
    requires s == "" || s[0] != '"'
    ensures ParseScalar("true", hex) == Some(Bool(true)) && ParseScalar("false", hex) == Some(Bool(false))
    ensures ParseScalar(s, hex).Some? ==>
              s == "true" || s == "false" || (s != "" && forall i :: 0 <= i < |s| ==> '0' <= s[i] <= '9' || s[i] in "_+-")
  {
    if LooksLikeInt(s) {
      forall i | 0 <= i < |s| ensures '0' <= s[i] <= '9' || s[i] in "_+-" {
        assert HasSign(s) && i > 0 ==> s[i] == s[1..][i - 1];
      }
    }
  }

  // ---- Escapes ----

  /** Each escape sequence and what it stands for; `\u` takes four characters, another letter itself. */
  lemma EscapesMean(e: char, four: string, more: string, hex: string -> char)
    requires |four| == 4
    ensures Unquote("\\n" + more, hex) == Prepend("\n", Unquote(more, hex))
    ensures Unquote("\\t" + more, hex) == Prepend("\t", Unquote(more, hex))
    ensures Unquote("\\r" + more, hex) == Prepend("\r", Unquote(more, hex))
    ensures Unquote("\\u" + four + more, hex) == Prepend([hex(four)], Unquote(more, hex))
    ensures e !in "ntru" ==> Unquote("\\" + [e] + more, hex) == Prepend([e], Unquote(more, hex))
  {
    EscapeOf('n', more, hex);
    EscapeOf('t', more, hex);
    EscapeOf('r', more, hex);
    if e != 'u' {
      EscapeOf(e, more, hex);
    }
    var t := "\\u" + four + more;
    assert t[0] == '\\' && t[1] == 'u' && Take(t[2..], 4) == four && Drop(t, 6) == more;
  }

  lemma EscapeOf(e: char, more: string, hex: string -> char)
    requires e != 'u'
    ensures Unquote("\\" + [e] + more, hex) == Prepend([Unescaped(e)], Unquote(more, hex))
  {
    var t := "\\" + [e] + more;
    assert t[0] == '\\' && t[1] == e && t[2..] == more;
  }
}
