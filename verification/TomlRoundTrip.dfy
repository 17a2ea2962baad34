/** Parsing what was printed gives the document back. */
module TomlRoundTrip {
  import opened Wrappers
  import opened Segments
  import opened TomlText
  import opened TomlArrays
  import opened TomlCodec
  import opened TomlKeys

  // ---- Documents that can be printed ----

  /** Every string is fine; integers are safe ones; arrays are those that read back. */
  predicate ValueOk(v: Value) {
    (v.Int? ==> -MAX_SAFE <= v.n <= MAX_SAFE) && (v.Arr? ==> Faithful(v.items))
  }

  predicate TableOk(table: seq<Entry>) {
    && (forall i :: 0 <= i < |table| ==> KeyOk(table[i].key) && ValueOk(table[i].value))
    && (forall i, j :: 0 <= i < j < |table| ==> table[i].key != table[j].key)
  }

  predicate DocOk(doc: TomlDoc) {
    && (forall i :: 0 <= i < |doc| ==> TableOk(doc[i].table) && (doc[i].name != "" ==> NameOk(doc[i].name)))
    && (forall i, j :: 0 <= i < j < |doc| ==> doc[i].name != doc[j].name)
  }

  /** The sections other than the root, in order. */
  function Others(doc: TomlDoc): TomlDoc {
    if doc == [] then []
    else if doc[0].name == "" then Others(doc[1..])
    else [doc[0]] + Others(doc[1..])
  }

  /** The document with its root, possibly empty, in front. */
  function RootFirst(doc: TomlDoc): TomlDoc {
    [Section("", Root(doc))] + Others(doc)
  }

  // ---- Values on a line ----

  lemma {:induction false} NatFormatted(n: nat)
    ensures '"' !in FormatNat(n) && '#' !in FormatNat(n) && Bare(FormatNat(n))
  {
    var f := FormatNat(n);
    forall i | 0 <= i < |f| ensures f[i] != '"' && f[i] != '#' && !IsSpace(f[i]) {
      assert IsDigit(f[i]);
    }
  }

  lemma IntFormatted(n: int)
    ensures Formatted(FormatInt(n)) && FormatInt(n)[0] != '"' && FormatInt(n)[0] != '[' && FormatInt(n)[0] != 't' && FormatInt(n)[0] != 'f'
  {
    NatFormatted(if n < 0 then -n else n);
    PlainFormatted(FormatInt(n));
    assert IsDigit(FormatNat(if n < 0 then -n else n)[0]);
  }

  /** A value on one line is read back as itself. */
  lemma ScalarBack(v: Value, hex: string -> char)
    requires !v.Arr? && ValueOk(v)
    ensures Formatted(FormatValue(v)) && FormatValue(v)[0] != '['
    ensures ParseScalar(FormatValue(v), hex) == Some(v)
  {
    match v
    case Str(s) =>
      StringFormatted(s);
      UnquoteEscape(s, "", hex);
      assert FormatValue(v)[1..] == Escape(s) + "\"" + "";
    case Int(n) =>
      IntFormatted(n);
      FormatParseInt(n);
    case Bool(b) =>
      PlainFormatted(FormatValue(v));
  }

  // ---- Entries ----

  lemma ScalarStep(e: Entry, more: seq<string>, doc: TomlDoc, table: string, hex: string -> char)
    requires KeyOk(e.key) && ValueOk(e.value) && !e.value.Arr?
    ensures ParseLines([EntryText(e)] + more, doc, table, hex) == ParseLines(more, PutIn(doc, table, e.key, e.value), table, hex)
  {
    var f := FormatValue(e.value);
    ScalarBack(e.value, hex);
    KeyLine(e.key, f);
    var lines := [EntryText(e)] + more;
    assert lines[1..] == more;
  }

  lemma EmptyArrayStep(e: Entry, more: seq<string>, doc: TomlDoc, table: string, hex: string -> char)
    requires KeyOk(e.key) && e.value == Arr([])
    ensures ParseLines([EntryText(e)] + more, doc, table, hex) == ParseLines(more, PutIn(doc, table, e.key, e.value), table, hex)
  {
    PlainFormatted("[]");
    KeyLine(e.key, "[]");
    NothingGathered(more, hex);
    ArrayRead(EntryText(e), more, [EntryText(e)] + more, more, e.key, "[]", "[]", 0, Some([]), doc, table, hex);
  }

  lemma NothingGathered(more: seq<string>, hex: string -> char)
    ensures Gather("[]", more) == Some(("[]", 0)) && Scan(Inner("[]"), hex) == Some([])
  {
    LastIndexAt("[", ']', "");
    assert "[" + [']'] + "" == "[]";
    assert Inner("[]") == "";
  }

  lemma ArrayStep(e: Entry, more: seq<string>, doc: TomlDoc, table: string, hex: string -> char)
    requires KeyOk(e.key) && ValueOk(e.value) && e.value.Arr? && e.value.items != []
    ensures ParseLines(EntryLines(e) + more, doc, table, hex) == ParseLines(more, PutIn(doc, table, e.key, e.value), table, hex)
  {
    var items := e.value.items;
    var rest := ArrayLines(items) + more;
    assert EntryLines(e) + more == [e.key + " = ["] + rest;
    ArrayRoundTripsExactly(items, more, hex);
    GatherAll("[", items, more);
    ArrayLinesCount(items);
    assert rest[|items| + 1..] == more;
    OpenArray(e.key, rest, doc, table, hex);
  }

  /** A line that opens an array hands over to the lines after it. */
  lemma OpenArray(key: string, rest: seq<string>, doc: TomlDoc, table: string, hex: string -> char)
    requires KeyOk(key) && Gather("[", rest).Some? && ReadArray(rest, hex).Some?
    ensures Gather("[", rest).value.1 <= |rest|
    ensures ParseLines([key + " = ["] + rest, doc, table, hex) ==
            ParseLines(rest[Gather("[", rest).value.1..], PutIn(doc, table, key, Arr(ReadArray(rest, hex).value)), table, hex)
  {
    PlainFormatted("[");
    KeyLine(key, "[");
    GatherShape("[", rest);
    assert key + " = [" == key + " = " + "[";
    ArrayLineRead(key + " = [", key, "[", rest, doc, table, hex);
  }

  /** A line read as a key and an opening bracket is followed by the lines of its array. */
  lemma ArrayLineRead(line: string, key: string, f: string, rest: seq<string>, doc: TomlDoc, table: string, hex: string -> char)
    requires line == key + " = " + f && ReadsBack(key, f) && f == "["
    requires Gather(f, rest).Some? && Gather(f, rest).value.1 <= |rest| && ReadArray(rest, hex).Some?
    ensures ParseLines([line] + rest, doc, table, hex) ==
            ParseLines(rest[Gather(f, rest).value.1..], PutIn(doc, table, key, Arr(ReadArray(rest, hex).value)), table, hex)
  {
    var lines := [line] + rest;
    assert lines[1..] == rest && lines[0] == line;
    GatherShape(f, rest);
  }

  lemma {:induction false} ArrayLinesCount(items: seq<string>)
    ensures |ArrayLines(items)| == |items| + 1
  {
    if items != [] {
      ArrayLinesCount(items[1..]);
    }
  }

  lemma EntryStep(e: Entry, more: seq<string>, doc: TomlDoc, table: string, hex: string -> char)
    requires KeyOk(e.key) && ValueOk(e.value)
    ensures ParseLines(EntryLines(e) + more, doc, table, hex) == ParseLines(more, PutIn(doc, table, e.key, e.value), table, hex)
  {
    if !e.value.Arr? {
      ScalarStep(e, more, doc, table, hex);
    } else if e.value.items == [] {
      EmptyArrayStep(e, more, doc, table, hex);
    } else {
      ArrayStep(e, more, doc, table, hex);
    }
  }

  function PutAll(doc: TomlDoc, name: string, table: seq<Entry>): TomlDoc
    decreases |table|
  {
    if table == [] then doc else PutAll(PutIn(doc, name, table[0].key, table[0].value), name, table[1..])
  }

  lemma {:induction false} TableStep(table: seq<Entry>, more: seq<string>, doc: TomlDoc, name: string, hex: string -> char)
    requires TableOk(table)
    ensures ParseLines(TableLines(table) + more, doc, name, hex) == ParseLines(more, PutAll(doc, name, table), name, hex)
    decreases |table|
  {
    if table == [] {
      assert TableLines(table) + more == more;
    } else {
      var e, rest := table[0], table[1..];
      EntryStep(e, TableLines(rest) + more, doc, name, hex);
      assert EntryLines(e) + (TableLines(rest) + more) == TableLines(table) + more;
      TableStep(rest, more, PutIn(doc, name, e.key, e.value), name, hex);
    }
  }

  lemma BlankStep(more: seq<string>, doc: TomlDoc, name: string, hex: string -> char)
    ensures ParseLines([""] + more, doc, name, hex) == ParseLines(more, doc, name, hex)
  {
    assert ([""] + more)[1..] == more;
    assert Content("") == "";
  }

  lemma HeaderStep(header: string, more: seq<string>, doc: TomlDoc, name: string, hex: string -> char)
    requires NameOk(header)
    ensures ParseLines(["[" + header + "]"] + more, doc, name, hex) == ParseLines(more, EnsureSection(doc, header), header, hex)
  {
    HeaderLine(header);
    assert (["[" + header + "]"] + more)[1..] == more;
  }

  // ---- Rebuilding the sections ----

  predicate Unnamed(doc: TomlDoc, name: string) {
    forall i :: 0 <= i < |doc| ==> doc[i].name != name
  }

  lemma {:induction false} EnsureAppends(doc: TomlDoc, name: string)
    requires Unnamed(doc, name)
    ensures EnsureSection(doc, name) == doc + [Section(name, [])]
  {
    if doc != [] {
      assert doc[0].name != name;
      EnsureAppends(doc[1..], name);
    }
  }

  lemma {:induction false} PutAppends(table: seq<Entry>, key: string, v: Value)
    requires forall i :: 0 <= i < |table| ==> table[i].key != key
    ensures Put(table, key, v) == table + [Entry(key, v)]
  {
    if table != [] {
      PutAppends(table[1..], key, v);
    }
  }

  lemma {:induction false} PutInLast(doc: TomlDoc, name: string, table: seq<Entry>, key: string, v: Value)
    requires Unnamed(doc, name)
    ensures PutIn(doc + [Section(name, table)], name, key, v) == doc + [Section(name, Put(table, key, v))]
  {
    var all := doc + [Section(name, table)];
    if doc == [] {
      assert all == [Section(name, table)];
    } else {
      assert doc[0].name != name && all[0] == doc[0] && all[1..] == doc[1..] + [Section(name, table)];
      PutInLast(doc[1..], name, table, key, v);
      assert [doc[0]] + (doc[1..] + [Section(name, Put(table, key, v))]) == doc + [Section(name, Put(table, key, v))];
    }
  }

  /** Setting the entries of a table one by one, into a section that has `done`, appends them. */
  lemma {:induction false} PutAllAppends(doc: TomlDoc, name: string, done: seq<Entry>, table: seq<Entry>)
    requires Unnamed(doc, name) && TableOk(done + table)
    ensures PutAll(doc + [Section(name, done)], name, table) == doc + [Section(name, done + table)]
    decreases |table|
  {
    if table == [] {
      assert done + table == done;
    } else {
      var e := table[0];
      forall i | 0 <= i < |done| ensures done[i].key != e.key {
        assert (done + table)[i].key != (done + table)[|done|].key;
      }
      PutAppends(done, e.key, e.value);
      PutInLast(doc, name, done, e.key, e.value);
      assert done + [e] + table[1..] == done + table;
      PutAllAppends(doc, name, done + [e], table[1..]);
    }
  }

  lemma SectionStep(s: Section, more: seq<string>, doc: TomlDoc, name: string, hex: string -> char)
    requires NameOk(s.name) && TableOk(s.table) && Unnamed(doc, s.name)
    ensures ParseLines(["[" + s.name + "]"] + TableLines(s.table) + [""] + more, doc, name, hex) ==
            ParseLines(more, doc + [s], s.name, hex)
  {
    var after := TableLines(s.table) + ([""] + more);
    assert ["[" + s.name + "]"] + TableLines(s.table) + [""] + more == ["[" + s.name + "]"] + after;
    HeaderStep(s.name, after, doc, name, hex);
    EnsureAppends(doc, s.name);
    TableStep(s.table, [""] + more, doc + [Section(s.name, [])], s.name, hex);
    assert [] + s.table == s.table;
    PutAllAppends(doc, s.name, [], s.table);
    BlankStep(more, doc + [s], s.name, hex);
  }

  /** Each section of `doc` can be added in turn to what is built already. */
  predicate Addable(doc: TomlDoc, built: TomlDoc)
    decreases |doc|
  {
    doc == [] ||
    if doc[0].name == "" then Addable(doc[1..], built)
    else
      && NameOk(doc[0].name) && TableOk(doc[0].table) && Unnamed(built, doc[0].name)
      && Addable(doc[1..], built + [doc[0]])
  }

  lemma {:induction false} OkIsAddable(doc: TomlDoc, built: TomlDoc)
    requires DocOk(doc)
    requires forall i :: 0 <= i < |doc| && doc[i].name != "" ==> Unnamed(built, doc[i].name)
    ensures Addable(doc, built)
    decreases |doc|
  {
    if doc != [] {
      StillUnnamed(doc, built);
      OkIsAddable(doc[1..], if doc[0].name == "" then built else built + [doc[0]]);
    }
  }

  lemma {:induction false} SectionsStep(doc: TomlDoc, built: TomlDoc, name: string, hex: string -> char)
    requires Addable(doc, built)
    ensures ParseLines(Spread(SectionLines(doc)), built, name, hex) == Some(built + Others(doc))
    decreases |doc|
  {
    if doc == [] {
      assert built + [] == built;
    } else if doc[0].name == "" {
      SectionsStep(doc[1..], built, name, hex);
    } else {
      SectionsStep(doc[1..], built + [doc[0]], doc[0].name, hex);
      OneMoreSection(doc, built, name, hex);
      assert built + [doc[0]] + Others(doc[1..]) == built + Others(doc);
    }
  }

  lemma OneMoreSection(doc: TomlDoc, built: TomlDoc, name: string, hex: string -> char)
    requires doc != [] && NameOk(doc[0].name) && TableOk(doc[0].table) && Unnamed(built, doc[0].name)
    ensures ParseLines(Spread(SectionLines(doc)), built, name, hex) ==
            ParseLines(Spread(SectionLines(doc[1..])), built + [doc[0]], doc[0].name, hex)
  {
    FirstSection(doc);
    SectionStep(doc[0], Spread(SectionLines(doc[1..])), built, name, hex);
  }

  lemma FirstSection(doc: TomlDoc)
    requires doc != [] && doc[0].name != ""
    ensures Spread(SectionLines(doc)) ==
            ["[" + doc[0].name + "]"] + TableLines(doc[0].table) + [""] + Spread(SectionLines(doc[1..]))
  {
    assert SectionLines(doc)[1..] == SectionLines(doc[1..]);
  }

  lemma StillUnnamed(doc: TomlDoc, built: TomlDoc)
    requires DocOk(doc) && doc != []
    requires forall i :: 0 <= i < |doc| && doc[i].name != "" ==> Unnamed(built, doc[i].name)
    ensures forall i :: 0 <= i < |doc| - 1 && doc[1..][i].name != "" ==> Unnamed(built + [doc[0]], doc[1..][i].name)
    ensures DocOk(doc[1..])
  {
    forall i | 0 <= i < |doc| - 1 && doc[1..][i].name != "" ensures Unnamed(built + [doc[0]], doc[1..][i].name) {
      assert doc[i + 1].name != doc[0].name && Unnamed(built, doc[i + 1].name);
    }
  }

  lemma {:induction false} RootIsOk(doc: TomlDoc)
    requires DocOk(doc)
    ensures TableOk(Root(doc))
  {
    if doc != [] && doc[0].name != "" {
      RootIsOk(doc[1..]);
    }
  }

  // ---- No line holds a line break ----

  predicate OneLine(s: string) {
    '\n' !in s
  }

  lemma {:induction false} ArrayLinesSingle(items: seq<string>)
    ensures forall i :: 0 <= i < |ArrayLines(items)| ==> OneLine(ArrayLines(items)[i])
  {
    if items != [] {
      ArrayLinesSingle(items[1..]);
      EscapeShape(items[0]);
    }
  }

  lemma EntryLinesSingle(e: Entry)
    requires KeyOk(e.key) && ValueOk(e.value)
    ensures forall i :: 0 <= i < |EntryLines(e)| ==> OneLine(EntryLines(e)[i])
  {
    match e.value
    case Str(s) => EscapeShape(s);
    case Int(n) =>
      var f := FormatNat(if n < 0 then -n else n);
      assert forall i :: 0 <= i < |f| ==> IsDigit(f[i]);
    case Bool(b) =>
    case Arr(items) => ArrayLinesSingle(items);
  }

  lemma {:induction false} TableLinesSingle(table: seq<Entry>)
    requires TableOk(table)
    ensures forall i :: 0 <= i < |TableLines(table)| ==> OneLine(TableLines(table)[i])
  {
    if table != [] {
      TableLinesSingle(table[1..]);
      EntryLinesSingle(table[0]);
    }
  }

  ghost predicate AllSingle(blocks: seq<seq<string>>) {
    forall b, i :: 0 <= b < |blocks| && 0 <= i < |blocks[b]| ==> OneLine(blocks[b][i])
  }

  lemma {:induction false} SectionLinesSingle(doc: TomlDoc)
    requires DocOk(doc)
    ensures AllSingle(SectionLines(doc))
  {
    if doc != [] {
      SectionLinesSingle(doc[1..]);
      TableLinesSingle(doc[0].table);
    }
  }

  lemma {:induction false} SpreadSingle(blocks: seq<seq<string>>)
    requires AllSingle(blocks)
    ensures forall i :: 0 <= i < |Spread(blocks)| ==> OneLine(Spread(blocks)[i])
  {
    if blocks != [] {
      SpreadSingle(blocks[1..]);
    }
  }

  /** The lines the parser sees are the lines that were printed. */
  lemma SplitPrinted(doc: TomlDoc)
    requires DocOk(doc)
    ensures Split(StringifyTomlDoc(doc), '\n') == if BlockLines(doc) == [] then [""] else Spread(BlockLines(doc))
  {
    PrintedLines(doc);
    SectionLinesSingle(doc);
    RootIsOk(doc);
    TableLinesSingle(Root(doc));
    SpreadSingle(BlockLines(doc));
    if BlockLines(doc) != [] {
      SplitJoin(Spread(BlockLines(doc)), '\n');
    }
  }

  /**
   * Parsing the printed form of a well-formed document gives the same sections, keys and values
   * in the same order, with the root in front.
   */
  lemma PrintThenParse(doc: TomlDoc, hex: string -> char)
    requires DocOk(doc)
    ensures Parsed(StringifyTomlDoc(doc), hex) == Some(RootFirst(doc))
  {
    SplitPrinted(doc);
    RootIsOk(doc);
    OkIsAddable(doc, [Section("", Root(doc))]);
    SectionsStep(doc, [Section("", Root(doc))], "", hex);
    if Root(doc) == [] {
      NoRootLines(doc, hex);
    } else {
      RootLines(doc, hex);
    }
  }

  lemma NoRootLines(doc: TomlDoc, hex: string -> char)
    requires Root(doc) == []
    ensures var lines := if BlockLines(doc) == [] then [""] else Spread(BlockLines(doc));
            ParseLines(lines, [Section("", [])], "", hex) == ParseLines(Spread(SectionLines(doc)), [Section("", [])], "", hex)
  {
    assert BlockLines(doc) == SectionLines(doc);
    BlankStep([], [Section("", [])], "", hex);
    assert [""] + [] == [""];
  }

  lemma RootLines(doc: TomlDoc, hex: string -> char)
    requires Root(doc) != [] && TableOk(Root(doc))
    ensures ParseLines(Spread(BlockLines(doc)), [Section("", [])], "", hex) ==
            ParseLines(Spread(SectionLines(doc)), [Section("", Root(doc))], "", hex)
  {
    var root, sections := Root(doc), Spread(SectionLines(doc));
    RootSpread(doc);
    TableStep(root, [""] + sections, [Section("", [])], "", hex);
    RootPut(root);
    BlankStep(sections, [Section("", root)], "", hex);
  }

  lemma RootSpread(doc: TomlDoc)
    requires Root(doc) != []
    ensures Spread(BlockLines(doc)) == TableLines(Root(doc)) + ([""] + Spread(SectionLines(doc)))
  {
    assert BlockLines(doc)[1..] == SectionLines(doc);
  }

  lemma RootPut(root: seq<Entry>)
    requires TableOk(root)
    ensures PutAll([Section("", [])], "", root) == [Section("", root)]
  {
    assert [] + root == root && [] + [Section("", [])] == [Section("", [])] && [] + [Section("", root)] == [Section("", root)];
    PutAllAppends([], "", [], root);
  }

  /** Printing what was parsed back prints the same text. */
  lemma PrintParsePrint(doc: TomlDoc, hex: string -> char)
    requires DocOk(doc)
    ensures var r := Parsed(StringifyTomlDoc(doc), hex); r.Some? && StringifyTomlDoc(r.value) == StringifyTomlDoc(doc)
  {
    PrintThenParse(doc, hex);
    OthersHaveNoRoot(doc);
    assert RootFirst(doc)[1..] == Others(doc);
  }

  lemma {:induction false} OthersHaveNoRoot(doc: TomlDoc)
    ensures SectionBlocks(Others(doc)) == SectionBlocks(doc)
  {
    if doc != [] {
      OthersHaveNoRoot(doc[1..]);
      if doc[0].name != "" {
        assert Others(doc)[1..] == Others(doc[1..]);
      }
    }
  }
}
