/**
 * String arrays of the configuration codec: printed one element a line, read back by a scan for
 * quotes. Reading back succeeds for exactly the arrays characterised by `Faithful`.
 */
module TomlArrays {
  import opened Wrappers
  import opened TomlText

  // ---- Reading ----

  /** The first quote at or after `j` that does not directly follow a backslash, or the end. */
  function CloseFrom(t: string, j: nat): (k: nat)
    requires 1 <= j <= |t|
    ensures j <= k <= |t|
    decreases |t| - j
  {
    if j == |t| then j
    else if t[j] == '"' && t[j - 1] != '\\' then j
    else CloseFrom(t, j + 1)
  }

  function Cons(v: string, r: Option<seq<string>>): Option<seq<string>> {
    if r.Some? then Some([v] + r.value) else None
  }

  /** The strings found from here on; nothing if one of them never ends. */
  function Scan(t: string, hex: string -> char): Option<seq<string>>
    decreases |t|
  {
    if t == "" then Some([])
    else if t[0] != '"' then Scan(t[1..], hex)
    else
      var j := CloseFrom(t, 1);
      var v := Unquote(Take(t, j + 1)[1..], hex);
      if v.None? then None else Cons(v.value, Scan(Drop(t, j + 1), hex))
  }

  function LastIndex(s: string, c: char): nat
    requires c in s
  {
    if s[|s| - 1] == c then |s| - 1 else LastIndex(s[..|s| - 1], c)
  }

  lemma {:induction false} LastIndexIsLast(s: string, c: char)
    requires c in s
    ensures LastIndex(s, c) < |s| && s[LastIndex(s, c)] == c
    ensures forall i :: LastIndex(s, c) < i < |s| ==> s[i] != c
  {
    if s[|s| - 1] != c {
      LastIndexIsLast(s[..|s| - 1], c);
    }
  }

  /** What stands between the brackets of an array text. */
  function Inner(s: string): string
    requires s != "" && s[0] == '[' && ']' in s
  {
    LastIndexIsLast(s, ']');
    s[1..LastIndex(s, ']')]
  }

  function Attach(out: seq<string>, r: Option<seq<string>>): Option<seq<string>> {
    if r.Some? then Some(out + r.value) else None
  }

  method ParseStringArray(s: string, hex: string -> char) returns (r: Option<seq<string>>)
    requires s != "" && s[0] == '[' && ']' in s
    ensures r == Scan(Inner(s), hex)
  {
    var inner := Inner(s);
    var out: seq<string> := [];
    var i := 0;
    ScanStarts(inner, hex);
    while i < |inner|
      invariant 0 <= i && ScannedTo(inner, i, out, hex)
    {
      if inner[i] != '"' {
        ScanPast(inner, i, out, hex);
        i := i + 1;
        continue;
      }
      var j := FindClose(inner, i);
      var v := ParseTomlString(Take(inner, j + 1)[i..], hex);
      ScanFrom(inner, i, j, out, hex);
      if v.None? {
        return None;
      }
      out := out + [v.value];
      i := j + 1;
    }
    ScanEnds(inner, i, out, hex);
    return Some(out);
  }

  /** What is out, and what the rest of the text holds, are what the text holds. */
  ghost predicate ScannedTo(inner: string, i: nat, out: seq<string>, hex: string -> char) {
    Scan(inner, hex) == Attach(out, Scan(Drop(inner, i), hex))
  }

  lemma ScanStarts(inner: string, hex: string -> char)
    ensures ScannedTo(inner, 0, [], hex)
  {
    assert Drop(inner, 0) == inner;
    AttachNothing(Scan(inner, hex));
  }

  lemma ScanEnds(inner: string, i: nat, out: seq<string>, hex: string -> char)
    requires |inner| <= i && ScannedTo(inner, i, out, hex)
    ensures Scan(inner, hex) == Some(out)
  {
    assert Drop(inner, i) == "";
    assert out + [] == out;
  }

  lemma ScanPast(inner: string, i: nat, out: seq<string>, hex: string -> char)
    requires i < |inner| && inner[i] != '"' && ScannedTo(inner, i, out, hex)
    ensures ScannedTo(inner, i + 1, out, hex)
  {
    assert Drop(inner, i)[1..] == Drop(inner, i + 1);
  }

  lemma ScanFrom(inner: string, i: nat, j: nat, out: seq<string>, hex: string -> char)
    requires i < |inner| && inner[i] == '"' && i < j <= |inner| && CloseFrom(inner[i..], 1) == j - i
    requires ScannedTo(inner, i, out, hex)
    ensures var v := Unquote(Take(inner, j + 1)[i..][1..], hex);
      (v.None? ==> Scan(inner, hex) == None) && (v.Some? ==> ScannedTo(inner, j + 1, out + [v.value], hex))
  {
    var t := Drop(inner, i);
    assert t == inner[i..];
    assert Take(inner, j + 1)[i..] == Take(t, j - i + 1);
    assert Drop(inner, j + 1) == Drop(t, j - i + 1);
    var v := Unquote(Take(inner, j + 1)[i..][1..], hex);
    if v.Some? {
      AttachCons(out, v.value, Scan(Drop(inner, j + 1), hex));
    }
  }

  /** Walk to the matching quote: the first after `i` not right after a backslash. */
  method FindClose(inner: string, i: nat) returns (j: nat)
    requires i < |inner|
    ensures i < j <= |inner| && CloseFrom(inner[i..], 1) == j - i
  {
    j := i + 1;
    while j < |inner| && !(inner[j] == '"' && inner[j - 1] != '\\')
      invariant i + 1 <= j <= |inner|
      invariant CloseFrom(inner[i..], 1) == CloseFrom(inner[i..], j - i)
    {
      j := j + 1;
    }
  }

  lemma AttachNothing(r: Option<seq<string>>)
    ensures Attach([], r) == r
  {
    if r.Some? {
      assert [] + r.value == r.value;
    }
  }

  lemma AttachCons(out: seq<string>, v: string, r: Option<seq<string>>)
    ensures Attach(out, Cons(v, r)) == Attach(out + [v], r)
  {
    if r.Some? {
      assert out + ([v] + r.value) == out + [v] + r.value;
    }
  }

  /** Add lines to `rhs` until it has a closing bracket: the text, and the number of lines used. */
  function Gather(rhs: string, lines: seq<string>): Option<(string, nat)>
    decreases |lines|
  {
    if ']' in rhs then Some((rhs, 0))
    else if lines == [] then None
    else
      match Gather(rhs + "\n" + lines[0], lines[1..])
      case None => None
      case Some((text, n)) => Some((text, n + 1))
  }

  lemma {:induction false} GatherShape(rhs: string, lines: seq<string>)
    requires rhs != "" && rhs[0] == '['
    ensures Gather(rhs, lines).Some? ==>
              var (text, n) := Gather(rhs, lines).value;
              text != "" && text[0] == '[' && ']' in text && n <= |lines|
    decreases |lines|
  {
    if ']' !in rhs && lines != [] {
      GatherShape(rhs + "\n" + lines[0], lines[1..]);
    }
  }

  // ---- Printing ----

  const INDENT := "    "

  function ElementLine(e: string): string {
    INDENT + "\"" + Escape(e) + "\","
  }

  function ArrayLines(items: seq<string>): seq<string> {
    if items == [] then ["]"] else [ElementLine(items[0])] + ArrayLines(items[1..])
  }

  /** The element lines of an array, each with its line break. */
  function Items(es: seq<string>): string {
    if es == [] then "" else ElementLine(es[0]) + "\n" + Items(es[1..])
  }

  predicate EndsInBackslash(e: string) {
    e != "" && e[|e| - 1] == '\\'
  }

  /** No element has a closing bracket, and only the last may end in a backslash. */
  predicate Faithful(items: seq<string>) {
    && (forall i :: 0 <= i < |items| ==> ']' !in items[i])
    && (forall i :: 0 <= i < |items| - 1 ==> !EndsInBackslash(items[i]))
  }

  /** Reading the lines after the one that opened the array. */
  function ReadArray(lines: seq<string>, hex: string -> char): Option<seq<string>> {
    match Gather("[", lines)
    case None => None
    case Some((text, _)) =>
      GatherShape("[", lines);
      Scan(Inner(text), hex)
  }

  // ---- Scanning printed elements ----

  lemma {:induction false} ScanSkip(pre: string, t: string, hex: string -> char)
    requires '"' !in pre
    ensures Scan(pre + t, hex) == Scan(t, hex)
  {
    if pre == "" {
      assert pre + t == t;
    } else {
      assert pre[0] in pre;
      assert (pre + t)[1..] == pre[1..] + t;
      ScanSkip(pre[1..], t, hex);
    }
  }

  lemma {:induction false} CloseSkip(t: string, a: nat, b: nat)
    requires 1 <= a <= b <= |t|
    requires forall k :: a <= k < b && t[k] == '"' ==> t[k - 1] == '\\'
    ensures CloseFrom(t, a) == CloseFrom(t, b)
    decreases b - a
  {
    if a < b {
      CloseSkip(t, a + 1, b);
    }
  }

  /** Quotes come only right after backslashes. */
  predicate Guarded(x: string) {
    forall i :: 0 <= i < |x| && x[i] == '"' ==> i > 0 && x[i - 1] == '\\'
  }

  lemma CloseSkipsGuarded(x: string, rest: string)
    requires Guarded(x)
    ensures CloseFrom("\"" + x + rest, 1) == CloseFrom("\"" + x + rest, |x| + 1)
  {
    var t := "\"" + x + rest;
    forall k | 1 <= k < |x| + 1 && t[k] == '"' ensures t[k - 1] == '\\' {
      assert t[k] == x[k - 1] && t[k - 1] == x[k - 2];
    }
    CloseSkip(t, 1, |x| + 1);
  }

  /** After an opening quote, the escaped text of `e` holds no closing one. */
  lemma CloseSkipsEscaped(e: string, rest: string)
    ensures CloseFrom("\"" + Escape(e) + rest, 1) == CloseFrom("\"" + Escape(e) + rest, |Escape(e)| + 1)
  {
    EscapeShape(e);
    CloseSkipsGuarded(Escape(e), rest);
  }

  /** An element that does not end in a backslash is read and its closing quote is found. */
  lemma ScanGood(e: string, rest: string, hex: string -> char)
    requires !EndsInBackslash(e)
    ensures Scan("\"" + Escape(e) + "\"" + rest, hex) == Cons(e, Scan(rest, hex))
  {
    EscapeShape(e);
    UnquoteEscape(e, "", hex);
    ScanGuarded(Escape(e), e, rest, hex);
  }

  lemma ScanGuarded(x: string, e: string, rest: string, hex: string -> char)
    requires Guarded(x) && !EndsInBackslash(x) && Unquote(x + "\"" + "", hex) == Some(e)
    ensures Scan("\"" + x + "\"" + rest, hex) == Cons(e, Scan(rest, hex))
  {
    var t := "\"" + x + "\"" + rest;
    var j := |x| + 1;
    assert t == "\"" + x + ("\"" + rest);
    CloseSkipsGuarded(x, "\"" + rest);
    assert t[j] == '"' && t[j - 1] == if x == "" then '"' else x[|x| - 1];
    assert CloseFrom(t, 1) == j;
    assert Take(t, j + 1)[1..] == x + "\"" + "";
    assert Drop(t, j + 1) == rest;
    ScanPiece(t, j, e, hex);
  }

  /** The closing quote of an element ending in a backslash is not seen, nor is anything without quotes. */
  lemma BadClose(x: string, mid: string, rest: string)
    requires Guarded(x) && EndsInBackslash(x) && '"' !in mid
    ensures CloseFrom("\"" + x + "\"" + mid + rest, 1) == CloseFrom("\"" + x + "\"" + mid + rest, |x| + 2 + |mid|)
  {
    var t := "\"" + x + "\"" + mid + rest;
    assert forall k :: |x| + 2 <= k < |x| + 2 + |mid| ==> t[k] == mid[k - |x| - 2];
    forall k | 1 <= k < |x| + 2 + |mid| && t[k] == '"' ensures t[k - 1] == '\\' {
      if k < |x| + 1 {
        assert t[k] == x[k - 1] && t[k - 1] == x[k - 2];
      } else if k == |x| + 1 {
        assert t[k - 1] == x[|x| - 1];
      }
    }
    CloseSkip(t, 1, |x| + 2 + |mid|);
  }

  lemma ScanPiece(t: string, j: nat, v: string, hex: string -> char)
    requires t != "" && t[0] == '"' && CloseFrom(t, 1) == j && Unquote(Take(t, j + 1)[1..], hex) == Some(v)
    ensures Scan(t, hex) == Cons(v, Scan(Drop(t, j + 1), hex))
  {}

  /** After an element ending in a backslash the next quote is taken for its closing one. */
  lemma ScanBad(e: string, mid: string, rest: string, hex: string -> char)
    requires EndsInBackslash(e) && '"' !in mid && mid != "" && mid[|mid| - 1] != '\\'
    ensures Scan("\"" + Escape(e) + "\"" + mid + "\"" + rest, hex) == Cons(e, Scan(rest, hex))
  {
    var x := Escape(e);
    var t := "\"" + x + "\"" + mid + "\"" + rest;
    var j := |x| + 2 + |mid|;
    assert t == "\"" + x + "\"" + mid + ("\"" + rest);
    EscapeShape(e);
    BadClose(x, mid, "\"" + rest);
    BadPieces(x, mid, rest);
    UnquoteEscape(e, mid + "\"", hex);
    ScanPiece(t, j, e, hex);
  }

  lemma BadPieces(x: string, mid: string, rest: string)
    requires mid != ""
    ensures var t, j := "\"" + x + "\"" + mid + "\"" + rest, |x| + 2 + |mid|;
      && j < |t| && t[j] == '"' && t[j - 1] == mid[|mid| - 1]
      && Take(t, j + 1)[1..] == x + "\"" + (mid + "\"") && Drop(t, j + 1) == rest
  {}

  /** With no quote left, such an element is read all the same and ends the scan. */
  lemma ScanBadLast(e: string, mid: string, hex: string -> char)
    requires EndsInBackslash(e) && '"' !in mid
    ensures Scan("\"" + Escape(e) + "\"" + mid, hex) == Some([e])
  {
    var x := Escape(e);
    var t := "\"" + x + "\"" + mid;
    assert t == "\"" + x + "\"" + mid + "";
    EscapeShape(e);
    BadClose(x, mid, "");
    assert Take(t, |t| + 1)[1..] == x + "\"" + mid;
    UnquoteEscape(e, mid, hex);
    ScanToEnd(t, e, hex);
  }

  /** A string that takes the rest of the text is the last one found. */
  lemma ScanToEnd(t: string, e: string, hex: string -> char)
    requires t != "" && t[0] == '"' && CloseFrom(t, 1) == |t| && Unquote(Take(t, |t| + 1)[1..], hex) == Some(e)
    ensures Scan(t, hex) == Some([e])
  {
    ScanPiece(t, |t|, e, hex);
    assert Scan(Drop(t, |t| + 1), hex) == Some([]);
    assert [e] + [] == [e];
  }

  /** An opening quote with escaped text and nothing more makes the scan fail. */
  lemma ScanCut(y: string, hex: string -> char)
    ensures Scan("\"" + Escape(y), hex) == None
  {
    var t := "\"" + Escape(y);
    assert t == "\"" + Escape(y) + "";
    CloseSkipsEscaped(y, "");
    assert Take(t, |t| + 1)[1..] == Escape(y);
    UnquoteOpen(y, hex);
    ScanOpen(t, |t|, hex);
  }

  lemma ScanOpen(t: string, j: nat, hex: string -> char)
    requires t != "" && t[0] == '"' && CloseFrom(t, 1) == j && Unquote(Take(t, j + 1)[1..], hex) == None
    ensures Scan(t, hex) == None
  {}

  /** The first quote in escaped text starts the escaped rest of the original after that quote. */
  lemma {:induction false} FirstQuote(e: string) returns (pre: string, suffix: string)
    requires '"' in e
    ensures '"' !in pre && Escape(e) == pre + "\"" + Escape(suffix) && |suffix| < |e|
  {
    if e[0] == '"' {
      pre, suffix := "\\", e[1..];
      assert Escape(e) == "\\" + "\"" + Escape(suffix);
    } else {
      assert e == [e[0]] + e[1..];
      pre, suffix := FirstQuote(e[1..]);
      var c := EscapeChar(e[0]);
      assert '"' !in c;
      pre := c + pre;
      assert Escape(e) == c + Escape(e[1..]);
    }
  }

  lemma {:induction false} NoQuote(e: string)
    requires '"' !in e
    ensures '"' !in Escape(e)
  {
    if e != "" {
      assert e == [e[0]] + e[1..];
      NoQuote(e[1..]);
    }
  }

  lemma ScanEscapedQuote(y: string, hex: string -> char)
    requires '"' in y
    ensures Scan(Escape(y), hex) == None
  {
    var pre, suffix := FirstQuote(y);
    var rest := "\"" + Escape(suffix);
    assert Escape(y) == pre + rest;
    ScanCut(suffix, hex);
    ScanSkip(pre, rest, hex);
  }

  /** Escaped text on its own holds no complete string. */
  lemma ScanEscaped(y: string, hex: string -> char)
    ensures Scan(Escape(y), hex) == if '"' in y then None else Some([])
  {
    if '"' in y {
      ScanEscapedQuote(y, hex);
    } else {
      NoQuote(y);
      assert Escape(y) == Escape(y) + "";
      ScanSkip(Escape(y), "", hex);
    }
  }

  lemma {:induction false} ItemsScan(es: seq<string>, hex: string -> char)
    requires forall i :: 0 <= i < |es| - 1 ==> !EndsInBackslash(es[i])
    ensures Scan(Items(es), hex) == Some(es)
  {
    if es != [] {
      var rest := Items(es[1..]);
      assert Items(es) == INDENT + ("\"" + Escape(es[0]) + "\"" + (",\n" + rest));
      ScanSkip(INDENT, "\"" + Escape(es[0]) + "\"" + (",\n" + rest), hex);
      if EndsInBackslash(es[0]) {
        assert ",\n" + rest == ",\n";
        ScanBadLast(es[0], ",\n", hex);
      } else {
        ScanGood(es[0], ",\n" + rest, hex);
        ScanSkip(",\n", rest, hex);
        ItemsScan(es[1..], hex);
      }
      assert [es[0]] + es[1..] == es;
    }
  }

  // ---- When scanning goes wrong ----

  /** What follows the whole elements: nothing, or the beginning of an element cut off at a bracket. */
  datatype Tail = NoTail | Cut(y: string) {
    function Text(): string {
      match this
      case NoTail => ""
      case Cut(y) => INDENT + "\"" + Escape(y)
    }

    /** The elements still missing when the tail is reached. */
    predicate Missing(more: seq<string>) {
      NoTail? <==> more == []
    }
  }

  const SEPARATOR := ",\n    "

  /** The rest of a printed array from just after the opening quote of `es[0]`. */
  function MidText(es: seq<string>, tail: Tail): string
    requires es != []
  {
    Escape(es[0]) + ("\"" + AfterQuote(es, tail))
  }

  /** The rest of a printed array from just after the closing quote of `es[0]`. */
  function AfterQuote(es: seq<string>, tail: Tail): string
    requires es != []
  {
    ",\n" + (Items(es[1..]) + tail.Text())
  }

  lemma ItemsText(es: seq<string>, tail: Tail)
    requires es != []
    ensures Items(es) + tail.Text() == INDENT + ("\"" + MidText(es, tail))
    ensures Items(es) + tail.Text() == INDENT + ("\"" + Escape(es[0]) + "\"" + AfterQuote(es, tail))
  {
    Regroup(INDENT, Escape(es[0]), Items(es[1..]), tail.Text());
  }

  lemma Regroup(a: string, x: string, i: string, t: string)
    ensures (a + "\"" + x + "\",") + "\n" + i + t == a + ("\"" + (x + ("\"" + (",\n" + (i + t)))))
    ensures (a + "\"" + x + "\",") + "\n" + i + t == a + ("\"" + x + "\"" + (",\n" + (i + t)))
  {}

  /** Between two elements there is a separator from quote to quote. */
  lemma AfterQuoteText(es: seq<string>, tail: Tail)
    requires |es| > 1
    ensures AfterQuote(es, tail) == SEPARATOR + "\"" + MidText(es[1..], tail)
  {
    ItemsText(es[1..], tail);
  }

  lemma AfterLastText(es: seq<string>, tail: Tail)
    requires |es| == 1
    ensures AfterQuote(es, tail) == if tail.Cut? then SEPARATOR + "\"" + Escape(tail.y) else ",\n"
  {
    assert Items(es[1..]) == "";
  }

  /** Started in the middle of an element, the scan never produces the elements from there on. */
  lemma {:induction false} MidWrong(es: seq<string>, tail: Tail, more: seq<string>, hex: string -> char)
    requires es != [] && tail.Missing(more)
    ensures Scan(MidText(es, tail), hex) != Some(es + more)
    decreases |es|
  {
    assert (es + more)[0] == es[0];
    if '"' in es[0] {
      MidQuoteWrong(es[0], AfterQuote(es, tail), hex);
    } else {
      NoQuote(es[0]);
      ScanSkip(Escape(es[0]), "\"" + AfterQuote(es, tail), hex);
      if |es| > 1 {
        MidWrong(es[1..], tail, more, hex);
        SeparatorWrong(es, tail, more, hex);
      } else {
        MidLast(es, tail, more, hex);
      }
    }
  }

  lemma SeparatorWrong(es: seq<string>, tail: Tail, more: seq<string>, hex: string -> char)
    requires |es| > 1 && Scan(MidText(es[1..], tail), hex) != Some(es[1..] + more)
    ensures Scan("\"" + AfterQuote(es, tail), hex) != Some(es + more)
  {
    SeparatorScan(es, tail, hex);
    ConsOfRest(SEPARATOR, Scan(MidText(es[1..], tail), hex), es, more);
  }

  lemma ConsOfRest(v: string, r: Option<seq<string>>, es: seq<string>, more: seq<string>)
    requires es != [] && r != Some(es[1..] + more)
    ensures Cons(v, r) != Some(es + more)
  {
    assert (es + more)[1..] == es[1..] + more;
    ConsTail(v, r, es + more);
  }

  lemma SeparatorScan(es: seq<string>, tail: Tail, hex: string -> char)
    requires |es| > 1
    ensures Scan("\"" + AfterQuote(es, tail), hex) == Cons(SEPARATOR, Scan(MidText(es[1..], tail), hex))
  {
    var next := MidText(es[1..], tail);
    AfterQuoteText(es, tail);
    QuoteFirst(SEPARATOR, next);
    ScanSeparator(next, hex);
  }

  lemma QuoteFirst(a: string, b: string)
    ensures "\"" + (a + "\"" + b) == "\"" + a + "\"" + b
  {}

  lemma MidLast(es: seq<string>, tail: Tail, more: seq<string>, hex: string -> char)
    requires |es| == 1 && tail.Missing(more)
    ensures Scan("\"" + AfterQuote(es, tail), hex) != Some(es + more)
  {
    AfterLastText(es, tail);
    if tail.NoTail? {
      assert "\"" + ",\n" == "\",\n";
      NoStringInComma(hex);
    } else {
      QuoteFirst(SEPARATOR, Escape(tail.y));
      ScanSeparator(Escape(tail.y), hex);
      ScanEscaped(tail.y, hex);
      assert |es + more| > 1;
      ConsTail(SEPARATOR, Scan(Escape(tail.y), hex), es + more);
    }
  }

  /** Whatever follows, a scan that starts with a quoted string yields that string first, if anything. */
  lemma ScanFirst(e: string, rest: string, hex: string -> char)
    ensures var r := Scan("\"" + Escape(e) + "\"" + rest, hex); r.Some? ==> r.value != [] && r.value[0] == e
  {
    var t := "\"" + Escape(e) + "\"" + rest;
    var j := CloseFrom(t, 1);
    assert t == "\"" + Escape(e) + ("\"" + rest);
    CloseSkipsEscaped(e, "\"" + rest);
    var n := |Escape(e)| + 1;
    var beyond := Take(t, j + 1)[n + 1..];
    TakeBehindQuote(Escape(e), rest, j);
    UnquoteEscape(e, beyond, hex);
    ScanPiece(t, j, e, hex);
  }

  lemma TakeBehindQuote(x: string, rest: string, j: nat)
    requires |x| + 1 <= j
    ensures var t := "\"" + x + "\"" + rest;
      |Take(t, j + 1)| >= |x| + 2 && Take(t, j + 1)[1..] == x + "\"" + Take(t, j + 1)[|x| + 2..]
  {}

  lemma MidQuoteWrong(e: string, rest: string, hex: string -> char)
    requires '"' in e
    ensures var r := Scan(Escape(e) + ("\"" + rest), hex); r.Some? ==> r.value != [] && r.value[0] != e
  {
    var pre, suffix := FirstQuote(e);
    var t := "\"" + Escape(suffix) + "\"" + rest;
    RegroupQuote(pre, Escape(suffix), rest);
    ScanSkip(pre, t, hex);
    ScanFirst(suffix, rest, hex);
  }

  lemma RegroupQuote(pre: string, x: string, rest: string)
    ensures pre + "\"" + x + ("\"" + rest) == pre + ("\"" + x + "\"" + rest)
  {}

  lemma ScanSeparator(rest: string, hex: string -> char)
    ensures Scan("\"" + SEPARATOR + "\"" + rest, hex) == Cons(SEPARATOR, Scan(rest, hex))
  {
    var t := "\"" + SEPARATOR + "\"" + rest;
    CloseSkip(t, 1, 7);
    assert t[7] == '"' && t[6] == ' ';
    assert CloseFrom(t, 1) == 7;
    assert Take(t, 8)[1..] == SEPARATOR + "\"";
    UnquoteSeparator(hex);
    assert Drop(t, 8) == rest;
  }

  lemma UnquotePlain(p: string, t: string, hex: string -> char)
    requires '"' !in p && '\\' !in p
    ensures Unquote(p + t, hex) == Prepend(p, Unquote(t, hex))
  {
    if p == "" {
      assert p + t == t;
      PrependNothing(Unquote(t, hex));
    } else {
      assert p[0] in p;
      assert (p + t)[1..] == p[1..] + t;
      UnquotePlain(p[1..], t, hex);
      PrependPrepend([p[0]], p[1..], Unquote(t, hex));
      assert [p[0]] + p[1..] == p;
    }
  }

  lemma UnquoteSeparator(hex: string -> char)
    ensures Unquote(SEPARATOR + "\"", hex) == Some(SEPARATOR)
  {
    UnquotePlain(SEPARATOR, "\"", hex);
    assert SEPARATOR + "" == SEPARATOR;
  }

  lemma NoStringInComma(hex: string -> char)
    ensures Scan("\",\n", hex) == None
  {
    var t := "\",\n";
    CloseSkip(t, 1, 3);
    assert Take(t, 4)[1..] == ",\n" + "";
    UnquotePlain(",\n", "", hex);
  }

  /** An element before the last that ends in a backslash, or a cut, spoils the scan for good. */
  lemma {:induction false} ItemsWrong(es: seq<string>, tail: Tail, more: seq<string>, hex: string -> char)
    requires tail.Missing(more)
    requires tail.NoTail? ==> exists i :: 0 <= i < |es| - 1 && EndsInBackslash(es[i])
    ensures Scan(Items(es) + tail.Text(), hex) != Some(es + more)
    decreases |es|
  {
    if es == [] {
      CutAlone(tail, hex);
    } else {
      ItemsScanFirst(es, tail, hex);
      if EndsInBackslash(es[0]) {
        SpoiledWrong(es, tail, more, hex);
      } else {
        if tail.NoTail? {
          var i :| 0 <= i < |es| - 1 && EndsInBackslash(es[i]);
          assert EndsInBackslash(es[1..][i - 1]);
        }
        ItemsWrong(es[1..], tail, more, hex);
        GoodThenWrong(es, tail, more, hex);
      }
    }
  }

  lemma CutAlone(tail: Tail, hex: string -> char)
    requires tail.Cut?
    ensures Scan(Items([]) + tail.Text(), hex) == None
  {
    assert Items([]) + tail.Text() == INDENT + ("\"" + Escape(tail.y));
    ScanSkip(INDENT, "\"" + Escape(tail.y), hex);
    ScanCut(tail.y, hex);
  }

  lemma ItemsScanFirst(es: seq<string>, tail: Tail, hex: string -> char)
    requires es != []
    ensures Scan(Items(es) + tail.Text(), hex) == Scan("\"" + Escape(es[0]) + "\"" + AfterQuote(es, tail), hex)
  {
    ItemsText(es, tail);
    ScanSkip(INDENT, "\"" + Escape(es[0]) + "\"" + AfterQuote(es, tail), hex);
  }

  lemma GoodThenWrong(es: seq<string>, tail: Tail, more: seq<string>, hex: string -> char)
    requires es != [] && !EndsInBackslash(es[0])
    requires Scan(Items(es[1..]) + tail.Text(), hex) != Some(es[1..] + more)
    ensures Scan("\"" + Escape(es[0]) + "\"" + AfterQuote(es, tail), hex) != Some(es + more)
  {
    ScanGood(es[0], AfterQuote(es, tail), hex);
    ScanSkip(",\n", Items(es[1..]) + tail.Text(), hex);
    assert (es + more)[1..] == es[1..] + more;
    ConsTail(es[0], Scan(AfterQuote(es, tail), hex), es + more);
  }

  lemma SpoiledWrong(es: seq<string>, tail: Tail, more: seq<string>, hex: string -> char)
    requires es != [] && tail.Missing(more) && EndsInBackslash(es[0]) && (tail.NoTail? ==> |es| > 1)
    ensures Scan("\"" + Escape(es[0]) + "\"" + AfterQuote(es, tail), hex) != Some(es + more)
  {
    assert (es + more)[1..] == es[1..] + more;
    if |es| > 1 {
      AfterQuoteText(es, tail);
      MidWrong(es[1..], tail, more, hex);
      SpoiledBy(es[0], MidText(es[1..], tail), es + more, hex);
    } else {
      AfterLastText(es, tail);
      ScanEscaped(tail.y, hex);
      assert |es + more| > 1;
      SpoiledBy(es[0], Escape(tail.y), es + more, hex);
    }
  }

  lemma SpoiledBy(e: string, next: string, xs: seq<string>, hex: string -> char)
    requires EndsInBackslash(e) && xs != [] && Scan(next, hex) != Some(xs[1..])
    ensures Scan("\"" + Escape(e) + "\"" + (SEPARATOR + "\"" + next), hex) != Some(xs)
  {
    QuoteSecond(Escape(e), SEPARATOR, next);
    ScanBad(e, SEPARATOR, next, hex);
    ConsTail(e, Scan(next, hex), xs);
  }

  lemma QuoteSecond(x: string, a: string, b: string)
    ensures "\"" + x + "\"" + (a + "\"" + b) == "\"" + x + "\"" + a + "\"" + b
  {}

  lemma ConsTail(v: string, r: Option<seq<string>>, xs: seq<string>)
    requires xs != [] && r != Some(xs[1..])
    ensures Cons(v, r) != Some(xs)
  {
    assert r.Some? ==> ([v] + r.value)[1..] == r.value;
  }

  // ---- The printed array as a whole ----

  lemma LastIndexAt(a: string, c: char, b: string)
    requires c !in b
    ensures c in a + [c] + b && LastIndex(a + [c] + b, c) == |a|
  {
    var s := a + [c] + b;
    assert s[|a|] == c;
    LastIndexIsLast(s, c);
    assert forall k :: |a| < k < |s| ==> s[k] == b[k - |a| - 1];
  }

  lemma ElementLineBracket(e: string)
    ensures ']' in ElementLine(e) <==> ']' in e
  {
    EscapeShape(e);
  }

  lemma {:induction false} GatherAll(rhs: string, items: seq<string>, more: seq<string>)
    requires ']' !in rhs && forall i :: 0 <= i < |items| ==> ']' !in items[i]
    ensures Gather(rhs, ArrayLines(items) + more) == Some((rhs + "\n" + Items(items) + "]", |items| + 1))
    decreases |items|
  {
    var lines := ArrayLines(items) + more;
    if items == [] {
      assert lines[0] == "]";
      assert rhs + "\n" + "]" == rhs + "\n" + "" + "]";
    } else {
      var line := ElementLine(items[0]);
      ElementLineBracket(items[0]);
      var rhs' := rhs + "\n" + line;
      assert lines[0] == line && lines[1..] == ArrayLines(items[1..]) + more;
      GatherAll(rhs', items[1..], more);
      RegroupItems(rhs, line, Items(items[1..]));
    }
  }

  lemma RegroupItems(rhs: string, line: string, rest: string)
    ensures (rhs + "\n" + line) + "\n" + rest + "]" == rhs + "\n" + (line + "\n" + rest) + "]"
  {}

  lemma {:induction false} GatherCut(rhs: string, items: seq<string>, c: nat, more: seq<string>)
    requires ']' !in rhs && c < |items| && ']' in items[c]
    requires forall i :: 0 <= i < c ==> ']' !in items[i]
    ensures Gather(rhs, ArrayLines(items) + more) ==
            Some((rhs + "\n" + (Items(items[..c]) + ElementLine(items[c])), c + 1))
    decreases |items|
  {
    var lines := ArrayLines(items) + more;
    var line := ElementLine(items[0]);
    ElementLineBracket(items[0]);
    var rhs' := rhs + "\n" + line;
    assert lines[0] == line && lines[1..] == ArrayLines(items[1..]) + more;
    if c == 0 {
      assert Items(items[..0]) + line == line;
    } else {
      GatherCut(rhs', items[1..], c - 1, more);
      RegroupLines(rhs, line, Items(items[1..][..c - 1]), ElementLine(items[c]));
      ItemsTake(items, c);
    }
  }

  lemma ItemsTake(items: seq<string>, c: nat)
    requires 0 < c <= |items|
    ensures Items(items[..c]) == ElementLine(items[0]) + "\n" + Items(items[1..][..c - 1])
  {
    assert items[1..][..c - 1] == items[..c][1..];
  }

  lemma RegroupLines(rhs: string, line: string, rest: string, e: string)
    ensures (rhs + "\n" + line) + "\n" + (rest + e) == rhs + "\n" + ((line + "\n" + rest) + e)
  {}

  lemma InnerOfAll(items: seq<string>)
    ensures var text := "[" + "\n" + Items(items) + "]"; ']' in text && Inner(text) == "\n" + Items(items)
  {
    InnerAt("\n" + Items(items), "");
    Enclosed(Items(items));
  }

  lemma Enclosed(x: string)
    ensures "[" + "\n" + x + "]" == "[" + ("\n" + x) + "]" + ""
  {}

  lemma SplitAtLast(e: string) returns (y: string, z: string)
    requires ']' in e
    ensures ']' !in z && e == y + ("]" + z)
  {
    LastIndexIsLast(e, ']');
    var k := LastIndex(e, ']');
    y, z := e[..k], e[k + 1..];
    assert forall i :: 0 <= i < |z| ==> z[i] == e[k + 1 + i];
  }

  /** The last bracket of an escaped element is the last bracket of the element. */
  lemma SplitAtBracket(e: string) returns (y: string, z: string)
    requires ']' in e
    ensures ']' !in Escape(z) && Escape(e) == Escape(y) + ("]" + Escape(z))
  {
    y, z := SplitAtLast(e);
    EscapeAppend(y, "]" + z);
    EscapeAppend("]", z);
    EscapeShape(z);
    assert Escape("]") == "]";
  }

  lemma InnerOfCut(es: seq<string>, e: string) returns (y: string)
    requires ']' in e
    ensures var text := "[" + "\n" + (Items(es) + ElementLine(e));
            ']' in text && Inner(text) == "\n" + (Items(es) + Cut(y).Text())
  {
    var z;
    y, z := SplitAtBracket(e);
    CutText(Items(es), Escape(y), Escape(z));
    InnerAt("\n" + (Items(es) + (INDENT + "\"" + Escape(y))), Escape(z) + "\",");
  }

  lemma InnerAt(inner: string, b: string)
    requires ']' !in b
    ensures ']' in "[" + inner + "]" + b && Inner("[" + inner + "]" + b) == inner
  {
    LastIndexAt("[" + inner, ']', b);
    assert "[" + inner + "]" + b == ("[" + inner) + [']'] + b;
  }

  lemma CutText(i: string, y: string, z: string)
    ensures "[" + "\n" + (i + (INDENT + "\"" + (y + ("]" + z)) + "\","))
         == "[" + ("\n" + (i + (INDENT + "\"" + y))) + "]" + (z + "\",")
  {}

  /** A printed array reads back as itself exactly if it is faithful, whatever lines follow it. */
  lemma ArrayRoundTripsExactly(items: seq<string>, more: seq<string>, hex: string -> char)
    ensures ReadArray(ArrayLines(items) + more, hex) == Some(items) <==> Faithful(items)
  {
    if c :| 0 <= c < |items| && ']' in items[c] {
      BracketBreaks(items, c, more, hex);
    } else {
      GatherAll("[", items, more);
      InnerOfAll(items);
      ScanSkip("\n", Items(items), hex);
      if Faithful(items) {
        ItemsScan(items, hex);
      } else {
        assert Items(items) + NoTail.Text() == Items(items) && items + [] == items;
        ItemsWrong(items, NoTail, [], hex);
      }
    }
  }

  lemma BracketBreaks(items: seq<string>, some: nat, more: seq<string>, hex: string -> char)
    requires some < |items| && ']' in items[some]
    ensures ReadArray(ArrayLines(items) + more, hex) != Some(items)
  {
    if c :| 0 <= c < some && ']' in items[c] {
      BracketBreaks(items, c, more, hex);
    } else {
      var y := ReadCut(items, some, more, hex);
      ItemsWrong(items[..some], Cut(y), items[some..], hex);
      assert items[..some] + items[some..] == items;
    }
  }

  /** What is read when the first bracket is in element `c`: the elements before it and a cut one. */
  lemma ReadCut(items: seq<string>, c: nat, more: seq<string>, hex: string -> char) returns (y: string)
    requires c < |items| && ']' in items[c] && forall k :: 0 <= k < c ==> ']' !in items[k]
    ensures ReadArray(ArrayLines(items) + more, hex) == Scan(Items(items[..c]) + Cut(y).Text(), hex)
  {
    GatherCut("[", items, c, more);
    y := InnerOfCut(items[..c], items[c]);
    ScanSkip("\n", Items(items[..c]) + Cut(y).Text(), hex);
  }
}
