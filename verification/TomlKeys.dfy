/** Which keys and section names come back from a printed line, whatever the value (`config.ts`). */
module TomlKeys {
  import opened Wrappers
  import opened TomlText
  import opened TomlCodec

  /** No white space at either end. */
  predicate Bare(s: string) {
    s != "" ==> !IsSpace(s[0]) && !IsSpace(s[|s| - 1])
  }

  /** Where the comment scan stands after `s`: inside a string or not; nothing if it cuts within `s`. */
  function QuotesAfter(s: string, i: nat, inString: bool): Option<bool>
    requires i <= |s|
    decreases |s| - i
  {
    if i == |s| then Some(inString)
    else if s[i] == '"' && (i == 0 || s[i - 1] != '\\') then QuotesAfter(s, i + 1, !inString)
    else if s[i] == '#' && !inString then None
    else QuotesAfter(s, i + 1, inString)
  }

  /** The scan leaves the key outside a string, and its first equals sign and bracket are not mistaken. */
  predicate KeyOk(k: string) {
    && Bare(k) && '=' !in k && '\n' !in k && QuotesAfter(k, 0, false) == Some(false)
    && (k != "" && k[0] == '[' ==> ']' in k)
  }

  predicate NameOk(name: string) {
    && name != "" && Bare(name) && ']' !in name && '\n' !in name
    && CutAt("[" + name + "]", 0, false) == |name| + 2
  }

  // ---- Trimming and searching ----

  lemma TrimBare(s: string)
    requires Bare(s)
    ensures Trim(s) == s
  {}

  lemma TrimLeft(s: string)
    requires Bare(s)
    ensures Trim(" " + s) == s
  {
    assert (" " + s)[1..] == s;
    assert TrimStart(" " + s) == TrimStart(s) == s;
    TrimBare(s);
  }

  lemma TrimRight(s: string)
    requires Bare(s)
    ensures Trim(s + " ") == s
  {
    if s == "" {
      assert (s + " ")[1..] == "";
      assert TrimStart(s + " ") == TrimStart("") == "";
    } else {
      assert (s + " ")[..|s|] == s;
      assert TrimStart(s + " ") == s + " ";
      assert TrimEnd(s + " ") == TrimEnd(s) == s;
    }
  }

  lemma IndexOfFirst(a: string, c: char, b: string)
    requires c !in a
    ensures c in a + [c] + b && IndexOf(a + [c] + b, c) == |a|
  {
    var s := a + [c] + b;
    assert s[|a|] == c;
    var i := IndexOf(s, c);
    assert forall j :: 0 <= j < |a| ==> s[j] == a[j];
    forall j | 0 <= j < i ensures s[j] != c {
      assert s[j] in s[..i];
    }
  }

  /** How a formatted value looks as the rest of its line. */
  predicate Formatted(f: string) {
    f != "" && Bare(f) && CutAt(" = " + f, 3, false) == |f| + 3
  }

  lemma {:induction false} CutShift(pre: string, line: string, i: nat, b: bool)
    requires i <= |line| && (i == 0 ==> pre == "" || pre[|pre| - 1] != '\\')
    ensures CutAt(pre + line, |pre| + i, b) == |pre| + CutAt(line, i, b)
    decreases |line| - i
  {
    if i < |line| {
      assert (pre + line)[|pre| + i] == line[i];
      if i > 0 {
        assert (pre + line)[|pre| + i - 1] == line[i - 1];
      }
      CutShift(pre, line, i + 1, true);
      CutShift(pre, line, i + 1, false);
    }
  }

  lemma PlainFormatted(f: string)
    requires f != "" && Bare(f) && '"' !in f && '#' !in f
    ensures Formatted(f)
  {
    var t := " = " + f;
    forall j | 3 <= j < |t| ensures t[j] != '"' && t[j] != '#' {
      assert t[j] == f[j - 3];
    }
    CutPastPlain(t, 3, |t|);
  }

  lemma StringFormatted(s: string)
    ensures Formatted("\"" + Escape(s) + "\"")
  {
    var x := Escape(s);
    var t := " = " + ("\"" + x + "\"");
    EscapeShape(s);
    assert t[3] == '"' && t[2] == ' ';
    forall j | 4 <= j < |t| - 1 && t[j] == '"' ensures t[j - 1] == '\\' {
      assert t[j] == x[j - 4] && t[j - 1] == x[j - 5];
    }
    CutInString(t, 4);
  }

  /** What trimming gives is bare, and has no other characters. */
  lemma TrimIsBare(s: string)
    ensures Bare(Trim(s)) && forall c :: c in Trim(s) ==> c in s
  {
    TrimStartShape(s);
    TrimEndShape(TrimStart(s));
  }

  lemma {:induction false} TrimStartShape(s: string)
    ensures TrimStart(s) != "" ==> !IsSpace(TrimStart(s)[0])
    ensures forall c :: c in TrimStart(s) ==> c in s
  {
    if s != "" && IsSpace(s[0]) {
      TrimStartShape(s[1..]);
    }
  }

  lemma {:induction false} TrimEndShape(s: string)
    ensures TrimEnd(s) <= s && (TrimEnd(s) != "" ==> !IsSpace(TrimEnd(s)[|TrimEnd(s)| - 1]))
  {
    if s != "" && IsSpace(s[|s| - 1]) {
      TrimEndShape(s[..|s| - 1]);
    }
  }

  // ---- The comment scan ----

  /** The scan of a line that starts with `k` goes on behind `k` as it stands there, or has cut already. */
  lemma {:induction false} CutBehind(k: string, rest: string, i: nat, b: bool)
    requires i <= |k|
    ensures QuotesAfter(k, i, b).Some? ==> CutAt(k + rest, i, b) == CutAt(k + rest, |k|, QuotesAfter(k, i, b).value)
    ensures QuotesAfter(k, i, b).None? ==> CutAt(k + rest, i, b) < |k|
    decreases |k| - i
  {
    if i < |k| {
      assert (k + rest)[i] == k[i];
      if i > 0 {
        assert (k + rest)[i - 1] == k[i - 1];
      }
      CutBehind(k, rest, i + 1, b);
      CutBehind(k, rest, i + 1, !b);
    }
  }

  lemma {:induction false} PlainQuotes(s: string, i: nat)
    requires i <= |s| && forall j :: i <= j < |s| ==> s[j] != '"' && s[j] != '#'
    ensures QuotesAfter(s, i, false) == Some(false)
    decreases |s| - i
  {
    if i < |s| {
      PlainQuotes(s, i + 1);
    }
  }

  lemma Uncut(k: string, f: string)
    requires QuotesAfter(k, 0, false) == Some(false) && Formatted(f)
    ensures var line := k + " = " + f; CutAt(line, 0, false) == |line| && line[..CutAt(line, 0, false)] == line
  {
    var line := k + " = " + f;
    assert line == k + (" = " + f);
    CutBehind(k, " = " + f, 0, false);
    CutPastPlain(line, |k|, |k| + 3);
    CutShift(k, " = " + f, 3, false);
  }

  // ---- Key lines ----

  /** The line of `k` and `f` is read as key `k` with value text `f`. */
  predicate ReadsBack(k: string, f: string) {
    var c := Content(k + " = " + f);
    && c != "" && HeaderName(c) == None && '=' in c
    && Trim(c[..IndexOf(c, '=')]) == k && Trim(c[IndexOf(c, '=') + 1..]) == f
  }

  lemma KeyLine(k: string, f: string)
    requires KeyOk(k) && Formatted(f)
    ensures ReadsBack(k, f)
  {
    Uncut(k, f);
    if k == "" {
      EmptyKeyLine(f);
    } else {
      NamedKeyLine(k, f);
      NoHeader(k, f);
    }
  }

  lemma EmptyKeyLine(f: string)
    requires Formatted(f) && Content("" + " = " + f) == Trim("" + " = " + f)
    ensures ReadsBack("", f)
  {
    var line := "" + " = " + f;
    TrimLeft(f);
    assert line == " " + ("= " + f);
    TrimLeft("= " + f);
    IndexOfFirst("", '=', " " + f);
    assert "" + ['='] + (" " + f) == "= " + f;
    assert Trim("") == "";
  }

  lemma NamedKeyLine(k: string, f: string)
    requires k != "" && Bare(k) && '=' !in k && f != "" && Bare(f)
    ensures var line := k + " = " + f;
      && Trim(line) == line && '=' in line
      && Trim(line[..IndexOf(line, '=')]) == k && Trim(line[IndexOf(line, '=') + 1..]) == f
  {
    var line := k + " = " + f;
    TrimBare(line);
    SplitAtEquals(k, f);
    TrimRight(k);
    TrimLeft(f);
  }

  lemma SplitAtEquals(k: string, f: string)
    requires '=' !in k
    ensures var line := k + " = " + f;
      '=' in line && line[..IndexOf(line, '=')] == k + " " && line[IndexOf(line, '=') + 1..] == " " + f
  {
    var line := k + " = " + f;
    IndexOfFirst(k + " ", '=', " " + f);
    assert (k + " ") + ['='] + (" " + f) == line;
  }

  /** A bracket inside the key keeps the line from reading as a header. */
  lemma NoHeader(k: string, f: string)
    requires k != "" && (k[0] == '[' ==> ']' in k)
    ensures HeaderName(k + " = " + f) == None
  {
    var line := k + " = " + f;
    if k[0] == '[' {
      var j :| 0 <= j < |k| && k[j] == ']';
      assert line[1..|line| - 1][j - 1] == ']';
    }
    assert line[0] == k[0];
  }

  /** A key is read back with every value text exactly if it is fine. */
  lemma KeyOkExactly(k: string)
    requires '\n' !in k
    ensures (forall f :: Formatted(f) ==> ReadsBack(k, f)) <==> KeyOk(k)
  {
    if KeyOk(k) {
      forall f | Formatted(f) ensures ReadsBack(k, f) {
        KeyLine(k, f);
      }
    }
    if forall f :: Formatted(f) ==> ReadsBack(k, f) {
      PlainFormatted("[]");
      HashFormatted();
      OnlyFineKeys(k, "[]", "\"" + "#" + "\"");
    }
  }

  lemma HashFormatted()
    ensures Formatted("\"" + "#" + "\"")
  {
    StringFormatted("#");
    assert Escape("#") == "#";
  }

  /** The empty array and the string `#` tell the other keys. */
  lemma OnlyFineKeys(k: string, empty: string, hash: string)
    requires '\n' !in k && empty == "[]" && hash == "\"" + "#" + "\""
    requires ReadsBack(k, empty) && ReadsBack(k, hash)
    ensures KeyOk(k)
  {
    KeyIsBare(k, empty);
    CutKeyIsLost(k, empty);
    HashIsCut(k, hash);
    var q := QuotesAfter(k, 0, false);
    assert q.Some? && q == Some(q.value);
    assert q.value ==> q == Some(true);
    assert !q.value ==> q == Some(false);
    KeyIsNoHeader(k, empty);
  }

  lemma KeyIsBare(k: string, f: string)
    requires ReadsBack(k, f)
    ensures Bare(k) && '=' !in k
  {
    var c := Content(k + " = " + f);
    TrimIsBare(c[..IndexOf(c, '=')]);
  }

  lemma CutKeyIsLost(k: string, f: string)
    requires '=' !in k
    ensures QuotesAfter(k, 0, false).None? ==> !ReadsBack(k, f)
  {
    if QuotesAfter(k, 0, false).None? {
      var line := k + " = " + f;
      assert line == k + (" = " + f);
      CutBehind(k, " = " + f, 0, false);
      var cut := CutAt(line, 0, false);
      assert line[..cut] == k[..cut];
      TrimIsBare(line[..cut]);
    }
  }

  /** Behind a key that leaves the scan in a string, the string `#` is cut at its hash. */
  lemma HashIsCut(k: string, f: string)
    requires Bare(k) && '=' !in k && f == "\"" + "#" + "\""
    ensures QuotesAfter(k, 0, false) == Some(true) ==> !ReadsBack(k, f)
  {
    if QuotesAfter(k, 0, false) == Some(true) {
      CutAtHash(k, f);
      NamedKeyLine(k, "\"");
      assert Content(k + " = " + f) == k + " = " + "\"";
    }
  }

  lemma CutAtHash(k: string, f: string)
    requires QuotesAfter(k, 0, false) == Some(true) && f == "\"" + "#" + "\""
    ensures var line := k + " = " + f; line[..CutAt(line, 0, false)] == k + " = " + "\""
  {
    var line := k + " = " + f;
    var n := |k|;
    assert line == k + (" = " + f);
    CutBehind(k, " = " + f, 0, false);
    assert line[n] == ' ' && line[n + 1] == '=' && line[n + 2] == ' ' && line[n + 3] == '"' && line[n + 4] == '#';
    assert CutAt(line, n, true) == CutAt(line, n + 1, true) == CutAt(line, n + 2, true) == CutAt(line, n + 3, true);
    assert CutAt(line, n + 3, true) == CutAt(line, n + 4, false) == n + 4;
    assert line[..n + 4] == k + " = " + "\"";
  }

  /** Before the empty array, a key with only an opening bracket makes a header. */
  lemma KeyIsNoHeader(k: string, f: string)
    requires Bare(k) && '=' !in k && f == "[]"
    ensures QuotesAfter(k, 0, false) == Some(false) && ReadsBack(k, f) ==> k != "" && k[0] == '[' ==> ']' in k
  {
    if QuotesAfter(k, 0, false) == Some(false) && k != "" && k[0] == '[' && ']' !in k {
      PlainFormatted("[]");
      Uncut(k, f);
      NamedKeyLine(k, f);
      BracketIsHeader(k);
      assert Content(k + " = " + f) == k + " = " + f;
    }
  }

  lemma BracketIsHeader(k: string)
    requires k != "" && k[0] == '[' && ']' !in k
    ensures HeaderName(k + " = " + "[]").Some?
  {
    var line := k + " = " + "[]";
    var inner := line[1..|line| - 1];
    forall i | 0 <= i < |inner| ensures inner[i] != ']' {
      assert inner[i] == line[i + 1];
      if i + 1 < |k| {
        assert line[i + 1] == k[i + 1];
      }
    }
    assert line[0] == '[' && line[|line| - 1] == ']';
  }

  // ---- Header lines ----

  lemma HeaderLine(name: string)
    requires NameOk(name)
    ensures var c := Content("[" + name + "]"); c != "" && HeaderName(c) == Some(name)
  {
    var line := "[" + name + "]";
    assert line[..|line|] == line;
    TrimBare(line);
    assert line[1..|line| - 1] == name;
    TrimBare(name);
  }

  lemma OnlyBracketIsLast(name: string, cut: nat)
    requires cut <= |name| + 2
    ensures cut < |name| + 2 && ']' in ("[" + name + "]")[..cut] ==> ']' in name
  {
    var line := "[" + name + "]";
    forall j | 0 < j < cut && cut < |line| ensures line[j] == name[j - 1] {
    }
  }

  /** Empty brackets are no header. */
  lemma EmptyHeader()
    ensures HeaderName(Content("[]")) == None && "[" + "" + "]" == "[]"
  {
    CutPastPlain("[]", 0, 2);
    TrimBare("[]");
  }

  /** A section name is read back from its header exactly if it is fine. */
  lemma NameOkExactly(name: string)
    requires '\n' !in name
    ensures HeaderName(Content("[" + name + "]")) == Some(name) <==> NameOk(name)
  {
    if NameOk(name) {
      HeaderLine(name);
    }
    var line := "[" + name + "]";
    var c := Content(line);
    if name == "" {
      EmptyHeader();
    } else if HeaderName(c) == Some(name) {
      TrimIsBare(c[1..|c| - 1]);
      var cut := CutAt(line, 0, false);
      TrimIsBare(line[..cut]);
      assert c[|c| - 1] in c && ']' in line[..cut];
      OnlyBracketIsLast(name, cut);
    }
  }
}
