/** The configuration document: sections in order, keys in order, printed and parsed (`config.ts`). */
module TomlCodec {
  import opened Wrappers
  import opened Segments
  import opened TomlText
  import opened TomlArrays

  datatype Value = Str(s: string) | Int(n: int) | Bool(b: bool) | Arr(items: seq<string>)

  datatype Entry = Entry(key: string, value: Value)

  /** The section with the empty name is the root: the keys before any header. */
  datatype Section = Section(name: string, table: seq<Entry>)

  type TomlDoc = seq<Section>

  // ---- Ordered maps ----

  function Put(table: seq<Entry>, key: string, v: Value): seq<Entry> {
    if table == [] then [Entry(key, v)]
    else if table[0].key == key then [Entry(key, v)] + table[1..]
    else [table[0]] + Put(table[1..], key, v)
  }

  function EnsureSection(doc: TomlDoc, name: string): TomlDoc {
    if doc == [] then [Section(name, [])]
    else if doc[0].name == name then doc
    else [doc[0]] + EnsureSection(doc[1..], name)
  }

  /** Set a key in the section of this name; without one, nothing happens. */
  function PutIn(doc: TomlDoc, name: string, key: string, v: Value): TomlDoc {
    if doc == [] then []
    else if doc[0].name == name then [doc[0].(table := Put(doc[0].table, key, v))] + doc[1..]
    else [doc[0]] + PutIn(doc[1..], name, key, v)
  }

  // ---- Parsing ----

  function ParseScalar(s: string, hex: string -> char): Option<Value> {
    if s != "" && s[0] == '"' then
      match Unquote(s[1..], hex)
      case Some(t) => Some(Str(t))
      case None => None
    else if s == "true" then Some(Bool(true))
    else if s == "false" then Some(Bool(false))
    else if LooksLikeInt(s) then
      match ParseInt(s)
      case Some(n) => Some(Int(n))
      case None => None
    else None
  }

  /** `[name]` with no bracket inside. */
  function HeaderName(line: string): Option<string> {
    if |line| >= 3 && line[0] == '[' && line[|line| - 1] == ']' && ']' !in line[1..|line| - 1]
    then Some(Trim(line[1..|line| - 1])) else None
  }

  function IndexOf(s: string, c: char): (i: nat)
    requires c in s
    ensures i < |s| && s[i] == c && c !in s[..i]
  {
    if s[0] == c then 0
    else
      var i := IndexOf(s[1..], c);
      assert s[..i + 1] == [s[0]] + s[1..][..i];
      i + 1
  }

  /** What is left of a line without its comment and outer white space. */
  function Content(line: string): string {
    Trim(line[..CutAt(line, 0, false)])
  }

  function ParseLines(lines: seq<string>, doc: TomlDoc, table: string, hex: string -> char): Option<TomlDoc>
    decreases |lines|
  {
    if lines == [] then Some(doc)
    else
      var line := Content(lines[0]);
      if line == "" then ParseLines(lines[1..], doc, table, hex)
      else
        match HeaderName(line)
        case Some(name) => ParseLines(lines[1..], EnsureSection(doc, name), name, hex)
        case None =>
          if '=' !in line then None
          else
            var eq := IndexOf(line, '=');
            var key, rhs := Trim(line[..eq]), Trim(line[eq + 1..]);
            if rhs != "" && rhs[0] == '[' then
              match Gather(rhs, lines[1..])
              case None => None
              case Some((text, used)) =>
                GatherShape(rhs, lines[1..]);
                match Scan(Inner(text), hex)
                case None => None
                case Some(items) => ParseLines(lines[1..][used..], PutIn(doc, table, key, Arr(items)), table, hex)
            else
              match ParseScalar(rhs, hex)
              case None => None
              case Some(v) => ParseLines(lines[1..], PutIn(doc, table, key, v), table, hex)
  }

  function Parsed(text: string, hex: string -> char): Option<TomlDoc> {
    ParseLines(Split(text, '\n'), [Section("", [])], "", hex)
  }

  // ---- What one line does ----

  lemma FirstLine(lines: seq<string>, i: nat)
    requires i < |lines|
    ensures lines[i..] != [] && lines[i..][0] == lines[i] && lines[i..][1..] == lines[i + 1..]
  {
  }

  lemma EmptyLine(lines: seq<string>, i: nat, doc: TomlDoc, table: string, hex: string -> char)
    requires i < |lines| && Content(lines[i]) == ""
    ensures ParseLines(lines[i..], doc, table, hex) == ParseLines(lines[i + 1..], doc, table, hex)
  {
    FirstLine(lines, i);
  }

  lemma HeaderFound(lines: seq<string>, i: nat, name: string, doc: TomlDoc, table: string, hex: string -> char)
    requires i < |lines| && Content(lines[i]) != "" && HeaderName(Content(lines[i])) == Some(name)
    ensures ParseLines(lines[i..], doc, table, hex) == ParseLines(lines[i + 1..], EnsureSection(doc, name), name, hex)
  {
    FirstLine(lines, i);
  }

  lemma NoEquals(lines: seq<string>, i: nat, doc: TomlDoc, table: string, hex: string -> char)
    requires i < |lines| && Content(lines[i]) != "" && HeaderName(Content(lines[i])) == None && '=' !in Content(lines[i])
    ensures ParseLines(lines[i..], doc, table, hex) == None
  {
    FirstLine(lines, i);
  }

  /** A line of a key and a value text. */
  predicate IsPair(line: string, key: string, rhs: string) {
    && line != "" && HeaderName(line) == None && '=' in line
    && key == Trim(line[..IndexOf(line, '=')]) && rhs == Trim(line[IndexOf(line, '=') + 1..])
  }

  lemma ScalarFound(lines: seq<string>, i: nat, key: string, rhs: string, doc: TomlDoc, table: string, hex: string -> char)
    requires i < |lines| && IsPair(Content(lines[i]), key, rhs) && !(rhs != "" && rhs[0] == '[')
    ensures ParseScalar(rhs, hex).None? ==> ParseLines(lines[i..], doc, table, hex) == None
    ensures ParseScalar(rhs, hex).Some? ==>
              ParseLines(lines[i..], doc, table, hex)
              == ParseLines(lines[i + 1..], PutIn(doc, table, key, ParseScalar(rhs, hex).value), table, hex)
  {
    FirstLine(lines, i);
  }

  lemma ArrayNotClosed(lines: seq<string>, i: nat, key: string, rhs: string, doc: TomlDoc, table: string, hex: string -> char)
    requires i < |lines| && IsPair(Content(lines[i]), key, rhs) && rhs != "" && rhs[0] == '['
    ensures Gather(rhs, lines[i + 1..]).None? ==> ParseLines(lines[i..], doc, table, hex) == None
  {
    FirstLine(lines, i);
  }

  /** An array that ends `used` lines further on. */
  lemma ArrayRead(line: string, rest: seq<string>, all: seq<string>, after: seq<string>, key: string, rhs: string, text: string,
                  used: nat, items: Option<seq<string>>, doc: TomlDoc, table: string, hex: string -> char)
    requires IsPair(Content(line), key, rhs) && rhs != "" && rhs[0] == '['
    requires Gather(rhs, rest) == Some((text, used)) && used <= |rest| && text != "" && text[0] == '[' && ']' in text
    requires items == Scan(Inner(text), hex) && all == [line] + rest && after == rest[used..]
    ensures items.None? ==> ParseLines(all, doc, table, hex) == None
    ensures items.Some? ==> ParseLines(all, doc, table, hex) == ParseLines(after, PutIn(doc, table, key, Arr(items.value)), table, hex)
  {
    assert all[0] == line && all[1..] == rest;
  }

  lemma TailOf(lines: seq<string>, i: nat, next: nat)
    requires i < next <= |lines|
    ensures lines[i..] == [lines[i]] + lines[i + 1..] && lines[i + 1..][next - (i + 1)..] == lines[next..]
  {
  }

  lemma ArrayFound(lines: seq<string>, i: nat, key: string, rhs: string, text: string, next: nat, items: Option<seq<string>>,
                   doc: TomlDoc, table: string, hex: string -> char)
    requires i < next <= |lines| && IsPair(Content(lines[i]), key, rhs) && rhs != "" && rhs[0] == '['
    requires Gather(rhs, lines[i + 1..]) == Some((text, next - (i + 1))) && text != "" && text[0] == '[' && ']' in text
    requires items == Scan(Inner(text), hex)
    ensures items.None? ==> ParseLines(lines[i..], doc, table, hex) == None
    ensures items.Some? ==>
              ParseLines(lines[i..], doc, table, hex) == ParseLines(lines[next..], PutIn(doc, table, key, Arr(items.value)), table, hex)
  {
    TailOf(lines, i, next);
    ArrayRead(lines[i], lines[i + 1..], lines[i..], lines[next..], key, rhs, text, next - (i + 1), items, doc, table, hex);
  }

  /** The parser's loop over lines; an array takes further lines along. */
  method ParseTomlDoc(text: string, hex: string -> char) returns (r: Option<TomlDoc>)
    ensures r == Parsed(text, hex)
  {
    var doc := [Section("", [])];
    var table := "";
    var lines := Split(text, '\n');
    var i := 0;
    while i < |lines|
      invariant 0 <= i <= |lines|
      invariant Parsed(text, hex) == ParseLines(lines[i..], doc, table, hex)
    {
      ghost var at := i;
      var bare := StripComment(lines[i]);
      var line := Trim(bare);
      i := i + 1;
      if line == "" {
        EmptyLine(lines, at, doc, table, hex);
        continue;
      }
      var header := HeaderName(line);
      if header.Some? {
        HeaderFound(lines, at, header.value, doc, table, hex);
        table := header.value;
        doc := EnsureSection(doc, table);
        continue;
      }
      if '=' !in line {
        NoEquals(lines, at, doc, table, hex);
        return None;
      }
      var eq := IndexOf(line, '=');
      var key := Trim(line[..eq]);
      var rhs := Trim(line[eq + 1..]);
      if rhs != "" && rhs[0] == '[' {
        var gathered, next := GatherArray(rhs, lines, i);
        if gathered.None? {
          ArrayNotClosed(lines, at, key, rhs, doc, table, hex);
          return None;
        }
        var items := ParseStringArray(gathered.value, hex);
        ArrayFound(lines, at, key, rhs, gathered.value, next, items, doc, table, hex);
        if items.None? {
          return None;
        }
        doc := PutIn(doc, table, key, Arr(items.value));
        i := next;
      } else {
        ScalarFound(lines, at, key, rhs, doc, table, hex);
        var v := ParseScalar(rhs, hex);
        if v.None? {
          return None;
        }
        doc := PutIn(doc, table, key, v.value);
      }
    }
    return Some(doc);
  }

  /** The inner loop: take lines until a closing bracket has come along. */
  method GatherArray(start: string, lines: seq<string>, from: nat) returns (r: Option<string>, next: nat)
    requires from <= |lines| && start != "" && start[0] == '['
    ensures from <= next <= |lines|
    ensures r.None? <==> Gather(start, lines[from..]).None?
    ensures r.Some? ==> Gather(start, lines[from..]) == Some((r.value, next - from))
    ensures r.Some? ==> r.value != "" && r.value[0] == '[' && ']' in r.value
  {
    var rhs := start;
    next := from;
    while ']' !in rhs
      invariant from <= next <= |lines| && rhs != "" && rhs[0] == '['
      invariant Gather(start, lines[from..]).None? <==> Gather(rhs, lines[next..]).None?
      invariant Gather(rhs, lines[next..]).Some? ==>
                  Gather(start, lines[from..]) ==
                  Some((Gather(rhs, lines[next..]).value.0, Gather(rhs, lines[next..]).value.1 + (next - from)))
      decreases |lines| - next
    {
      if next == |lines| {
        return None, next;
      }
      assert lines[next..][0] == lines[next] && lines[next..][1..] == lines[next + 1..];
      rhs := rhs + "\n" + lines[next];
      next := next + 1;
    }
    return Some(rhs), next;
  }

  // ---- Printing ----

  function FormatValue(v: Value): string {
    match v
    case Str(s) => "\"" + Escape(s) + "\""
    case Int(n) => FormatInt(n)
    case Bool(b) => if b then "true" else "false"
    case Arr(items) =>
      if items == [] then "[]" else "[\n" + Join(seq(|items|, i requires 0 <= i < |items| => ElementLine(items[i])), '\n') + "\n]"
  }

  function EntryText(e: Entry): string {
    e.key + " = " + FormatValue(e.value)
  }

  function Texts(table: seq<Entry>): seq<string> {
    if table == [] then [] else [EntryText(table[0])] + Texts(table[1..])
  }

  /** The non-root sections, each a header and its entries. */
  function SectionBlocks(doc: TomlDoc): seq<string> {
    if doc == [] then []
    else if doc[0].name == "" then SectionBlocks(doc[1..])
    else [Join(["[" + doc[0].name + "]"] + Texts(doc[0].table), '\n')] + SectionBlocks(doc[1..])
  }

  /** The entries of the root section, wherever it stands. */
  function Root(doc: TomlDoc): seq<Entry> {
    if doc == [] then [] else if doc[0].name == "" then doc[0].table else Root(doc[1..])
  }

  function Blocks(doc: TomlDoc): seq<string> {
    (if Root(doc) == [] then [] else [Join(Texts(Root(doc)), '\n')]) + SectionBlocks(doc)
  }

  /** `blocks.join('\n\n')`. */
  function JoinBlocks(blocks: seq<string>): string {
    if |blocks| == 0 then ""
    else if |blocks| == 1 then blocks[0]
    else blocks[0] + "\n\n" + JoinBlocks(blocks[1..])
  }

  function StringifyTomlDoc(doc: TomlDoc): string {
    if Blocks(doc) == [] then "" else JoinBlocks(Blocks(doc)) + "\n"
  }

  // ---- The printed text, line by line ----

  function EntryLines(e: Entry): seq<string> {
    if e.value.Arr? && e.value.items != [] then [e.key + " = ["] + ArrayLines(e.value.items) else [EntryText(e)]
  }

  function TableLines(table: seq<Entry>): seq<string> {
    if table == [] then [] else EntryLines(table[0]) + TableLines(table[1..])
  }

  function SectionLines(doc: TomlDoc): seq<seq<string>> {
    if doc == [] then []
    else if doc[0].name == "" then SectionLines(doc[1..])
    else [["[" + doc[0].name + "]"] + TableLines(doc[0].table)] + SectionLines(doc[1..])
  }

  function BlockLines(doc: TomlDoc): seq<seq<string>> {
    (if Root(doc) == [] then [] else [TableLines(Root(doc))]) + SectionLines(doc)
  }

  /** Blocks with an empty line after each, the last one coming from the final line break. */
  function Spread(blocks: seq<seq<string>>): seq<string> {
    if blocks == [] then [] else blocks[0] + [""] + Spread(blocks[1..])
  }

  lemma {:induction false} ArrayLinesText(items: seq<string>)
    requires items != []
    ensures Join(ArrayLines(items), '\n') ==
            Join(seq(|items|, i requires 0 <= i < |items| => ElementLine(items[i])), '\n') + "\n]"
  {
    var all := seq(|items|, i requires 0 <= i < |items| => ElementLine(items[i]));
    if |items| == 1 {
      assert ArrayLines(items) == [ElementLine(items[0]), "]"];
      assert all == [ElementLine(items[0])];
      assert ArrayLines(items)[1..] == ["]"];
    } else {
      var rest := items[1..];
      ArrayLinesText(rest);
      assert all[1..] == seq(|rest|, i requires 0 <= i < |rest| => ElementLine(rest[i]));
      assert ArrayLines(items)[1..] == ArrayLines(rest) && |ArrayLines(rest)| > 0;
    }
  }

  lemma EntryLinesText(e: Entry)
    ensures EntryLines(e) != [] && EntryText(e) == Join(EntryLines(e), '\n')
  {
    if e.value.Arr? && e.value.items != [] {
      var first, rest := e.key + " = [", ArrayLines(e.value.items);
      ArrayLinesText(e.value.items);
      assert ([first] + rest)[1..] == rest && |rest| > 0;
    }
  }

  lemma {:induction false} TableLinesText(table: seq<Entry>)
    requires table != []
    ensures TableLines(table) != [] && Join(Texts(table), '\n') == Join(TableLines(table), '\n')
  {
    EntryLinesText(table[0]);
    if |table| == 1 {
      assert TableLines(table) == EntryLines(table[0]);
      assert Texts(table) == [EntryText(table[0])];
    } else {
      TableLinesText(table[1..]);
      JoinAppend(EntryLines(table[0]), TableLines(table[1..]), '\n');
      assert Texts(table)[1..] == Texts(table[1..]) && |Texts(table[1..])| > 0;
    }
  }

  lemma SectionLinesText(header: string, table: seq<Entry>)
    ensures Join([header] + Texts(table), '\n') == Join([header] + TableLines(table), '\n')
  {
    if table == [] {
      assert Texts(table) == [] && TableLines(table) == [];
    } else {
      TableLinesText(table);
      JoinAppend([header], Texts(table), '\n');
      JoinAppend([header], TableLines(table), '\n');
    }
  }

  /** `texts` are the joined `lines`, block by block. */
  ghost predicate Joins(texts: seq<string>, lines: seq<seq<string>>) {
    |texts| == |lines| && forall i :: 0 <= i < |texts| ==> lines[i] != [] && texts[i] == Join(lines[i], '\n')
  }

  lemma {:induction false} SectionBlocksJoin(doc: TomlDoc)
    ensures Joins(SectionBlocks(doc), SectionLines(doc))
  {
    if doc != [] {
      SectionBlocksJoin(doc[1..]);
      SectionLinesText("[" + doc[0].name + "]", doc[0].table);
    }
  }

  lemma {:induction false} SpreadText(texts: seq<string>, lines: seq<seq<string>>)
    requires texts != [] && Joins(texts, lines)
    ensures Spread(lines) != [] && JoinBlocks(texts) + "\n" == Join(Spread(lines), '\n')
  {
    JoinAppend(lines[0], [""], '\n');
    if |texts| == 1 {
      assert Spread(lines) == lines[0] + [""];
      assert texts[0] == Join(lines[0], '\n');
    } else {
      SpreadText(texts[1..], lines[1..]);
      JoinAppend(lines[0] + [""], Spread(lines[1..]), '\n');
      assert texts[0] == Join(lines[0], '\n');
    }
  }

  /** The printed document is its lines, and has none if it has no blocks. */
  lemma PrintedLines(doc: TomlDoc)
    ensures BlockLines(doc) == [] ==> StringifyTomlDoc(doc) == ""
    ensures BlockLines(doc) != [] ==> Spread(BlockLines(doc)) != [] && StringifyTomlDoc(doc) == Join(Spread(BlockLines(doc)), '\n')
  {
    SectionBlocksJoin(doc);
    if Root(doc) != [] {
      TableLinesText(Root(doc));
    }
    assert Joins(Blocks(doc), BlockLines(doc));
    if Blocks(doc) != [] {
      SpreadText(Blocks(doc), BlockLines(doc));
    }
  }
}
