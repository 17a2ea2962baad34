/** The authorized-keys file: reading, writing (`peers_md.rs`) and merging keys into it (`watch.rs`). */
module AuthorizedKeys {
  import opened Wrappers
  import opened RustText
  import opened Segments
  import opened SshWire

  /** A key and the label behind it. */
  datatype AuthorizedPeer = AuthorizedPeer(pubkey: Pubkey, tag: string)

  // ---- Reading ----

  function StripListMarker(line: string): string {
    if "- " <= line || "* " <= line then line[2..] else line
  }

  const SEPARATORS := [" \U{2014} ", " \U{2013} ", " -- ", " - "]

  function LabelFrom(s: string, from: nat): string
    requires from <= |s|
  {
    Trim(s[from..])
  }

  /** Cut at the first occurrence of the first separator that occurs at all. */
  function SplitKeyAndLabel(s: string, seps: seq<string>): (string, string) {
    if seps == [] then (s, "")
    else
      match Find(s, seps[0])
      case Some(at) => (s[..at], LabelFrom(s, at + |seps[0]|))
      case None => SplitKeyAndLabel(s, seps[1..])
  }

  predicate IsBacktick(c: char) {
    c == '`'
  }

  /** The key text and the label of a line that opens with a backtick. */
  function LegacyParts(body: string): (string, string) {
    var (keyPart, tag) := SplitKeyAndLabel(body, SEPARATORS);
    (Trim(TrimMatches(Trim(keyPart), IsBacktick)), tag)
  }

  /** The first two pieces as key text, the trimmed rest as label. */
  function PlainParts(body: string): Option<(string, string)> {
    var (kind, rest) := CutAtSpace(body);
    if rest.None? then None
    else
      var (blob, tail) := CutAtSpace(rest.value);
      Some((kind + [' '] + blob, Trim(tail.GetOr(""))))
  }

  /** The key text and the label of a line that is no comment. */
  function LineParts(raw: string): Option<(string, string)> {
    var trimmed := TrimStart(raw, IsWhitespace);
    if trimmed == "" then None
    else if trimmed[0] == '#' then None
    else BodyParts(StripListMarker(trimmed))
  }

  function BodyParts(body: string): Option<(string, string)> {
    if body != "" && body[0] == '`' then Some(LegacyParts(body)) else PlainParts(body)
  }

  function ParseLine(raw: string): Option<AuthorizedPeer> {
    match LineParts(raw)
    case None => None
    case Some((key, tag)) =>
      match FromSshString(key)
      case Ok(pk) => Some(AuthorizedPeer(pk, tag))
      case Err(_) => None
  }

  function Entry(line: string): seq<AuthorizedPeer> {
    match ParseLine(line)
    case Some(peer) => [peer]
    case None => []
  }

  /** The entries of all lines, one line after the other. */
  function Collect<A, B>(lines: seq<A>, entry: A -> seq<B>): seq<B> {
    if lines == [] then [] else entry(lines[0]) + Collect(lines[1..], entry)
  }

  function ParsedText(content: string): seq<AuthorizedPeer> {
    Collect(Lines(content), Entry)
  }

  lemma {:induction false} CollectAppend<A, B>(a: seq<A>, b: seq<A>, entry: A -> seq<B>)
    ensures Collect(a + b, entry) == Collect(a, entry) + Collect(b, entry)
  {
    if a == [] {
      assert a + b == b;
    } else {
      assert (a + b)[1..] == a[1..] + b;
      CollectAppend(a[1..], b, entry);
    }
  }

  lemma CollectSnoc<A, B>(lines: seq<A>, i: nat, entry: A -> seq<B>)
    requires i < |lines|
    ensures Collect(lines[..i + 1], entry) == Collect(lines[..i], entry) + entry(lines[i])
  {
    assert lines[..i + 1] == lines[..i] + [lines[i]];
    CollectAppend(lines[..i], [lines[i]], entry);
    assert [lines[i]][1..] == [];
  }

  /** Lines with one entry each are collected into those entries. */
  lemma {:induction false} CollectSingles<A, B>(lines: seq<A>, entry: A -> seq<B>, all: seq<B>)
    requires |lines| == |all| && forall i :: 0 <= i < |lines| ==> entry(lines[i]) == [all[i]]
    ensures Collect(lines, entry) == all
  {
    if lines != [] {
      CollectSingles(lines[1..], entry, all[1..]);
      assert [all[0]] + all[1..] == all;
    }
  }

  lemma {:induction false} CollectNothing<A, B>(lines: seq<A>, entry: A -> seq<B>)
    requires forall i :: 0 <= i < |lines| ==> entry(lines[i]) == []
    ensures Collect(lines, entry) == []
  {
    if lines != [] {
      CollectNothing(lines[1..], entry);
    }
  }

  method ParseAuthorizedKeys(content: string) returns (out: seq<AuthorizedPeer>)
    ensures out == ParsedText(content)
  {
    out := [];
    var lines := Lines(content);
    for i := 0 to |lines|
      invariant out == Collect(lines[..i], Entry)
    {
      CollectSnoc(lines, i, Entry);
      var peer := ParseLine(lines[i]);
      if peer.Some? {
        out := out + [peer.value];
      }
    }
    assert lines[..|lines|] == lines;
  }

  // ---- Labels ----

  /** What a rendered label can carry: no newline, and no white space at its ends. */
  predicate GoodLabel(tag: string) {
    Trimmed(tag) && '\n' !in tag
  }

  predicate AllGood(peers: seq<AuthorizedPeer>) {
    forall i :: 0 <= i < |peers| ==> GoodLabel(peers[i].tag)
  }

  lemma TailLabelIsGood(s: string, from: nat)
    requires '\n' !in s && from <= |s|
    ensures GoodLabel(LabelFrom(s, from))
  {
    TrimExactly(s[from..]);
    assert forall c :: c in s[from..] ==> c in s;
  }

  /** The label is empty, or what follows some position. */
  lemma {:induction false} LabelIsTail(s: string, seps: seq<string>) returns (from: nat)
    ensures from <= |s| && (SplitKeyAndLabel(s, seps).1 == "" || SplitKeyAndLabel(s, seps).1 == LabelFrom(s, from))
  {
    if seps == [] {
      from := 0;
    } else {
      match Find(s, seps[0])
      case Some(at) => from := at + |seps[0]|;
      case None => from := LabelIsTail(s, seps[1..]);
    }
  }

  lemma SplitLabelIsGood(s: string, seps: seq<string>)
    requires '\n' !in s
    ensures GoodLabel(SplitKeyAndLabel(s, seps).1)
  {
    var from := LabelIsTail(s, seps);
    TailLabelIsGood(s, from);
  }

  lemma PlainLabelIsGood(body: string)
    requires '\n' !in body
    ensures PlainParts(body).Some? ==> GoodLabel(PlainParts(body).value.1)
  {
    var (kind, rest) := CutAtSpace(body);
    if rest.Some? {
      var c :| body == kind + [c] + rest.value;
      assert forall d :: d in rest.value ==> d in body;
      var (blob, tail) := CutAtSpace(rest.value);
      if tail.Some? {
        var e :| rest.value == blob + [e] + tail.value;
        assert forall d :: d in tail.value ==> d in rest.value;
      }
      TrimExactly(tail.GetOr(""));
    }
  }

  lemma BodyOfLine(raw: string, trimmed: string)
    requires '\n' !in raw && trimmed == TrimStart(raw, IsWhitespace)
    ensures '\n' !in StripListMarker(trimmed)
  {
    assert forall c :: c in trimmed ==> c in raw;
    assert forall c :: c in StripListMarker(trimmed) ==> c in trimmed;
  }

  lemma LineLabelIsGood(raw: string)
    requires '\n' !in raw
    ensures LineParts(raw).Some? ==> GoodLabel(LineParts(raw).value.1)
  {
    var trimmed := TrimStart(raw, IsWhitespace);
    var body := StripListMarker(trimmed);
    BodyOfLine(raw, trimmed);
    if body != "" && body[0] == '`' {
      SplitLabelIsGood(body, SEPARATORS);
    } else {
      PlainLabelIsGood(body);
    }
  }

  lemma EntryLabelIsGood(raw: string)
    requires '\n' !in raw
    ensures AllGood(Entry(raw))
  {
    LineLabelIsGood(raw);
  }

  lemma {:induction false} CollectedAreGood(lines: seq<string>, entry: string -> seq<AuthorizedPeer>)
    requires forall i :: 0 <= i < |lines| ==> AllGood(entry(lines[i]))
    ensures AllGood(Collect(lines, entry))
  {
    if lines != [] {
      CollectedAreGood(lines[1..], entry);
    }
  }

  /** Whatever the text, the labels read from it can be rendered. */
  lemma ParsedTextIsGood(content: string)
    ensures AllGood(ParsedText(content))
  {
    LinesOfHaveNoNewline(Split(content, '\n'));
    var lines := Lines(content);
    forall i | 0 <= i < |lines| ensures AllGood(Entry(lines[i])) {
      EntryLabelIsGood(lines[i]);
    }
    CollectedAreGood(lines, Entry);
  }

  // ---- Writing ----

  // Long literals are written in pieces: the verifier searches short ones far more cheaply.
  const ABOUT_KEYS := "# One ssh-ed25519 public key" + " per line. Lines starting" + " with '#' are"
  const ABOUT_PASTING := "# comments. Paste `agentsync" + " key show` output from" + " any device you"
  const HEADER := ["# agentsync authorized_keys", "#", ABOUT_KEYS, ABOUT_PASTING, "# want to authorize.", ""]

  function Row(key: string, tag: string): string {
    if tag == "" then key else key + [' '] + tag
  }

  function RowText(p: AuthorizedPeer): string {
    Row(ToSshString(p.pubkey), p.tag)
  }

  function RowTexts(peers: seq<AuthorizedPeer>): seq<string> {
    seq(|peers|, i requires 0 <= i < |peers| => RowText(peers[i]))
  }

  /** Each line with its newline. */
  function Unlines(lines: seq<string>): string {
    if lines == [] then "" else lines[0] + "\n" + Unlines(lines[1..])
  }

  function Rendered(peers: seq<AuthorizedPeer>): string {
    Unlines(HEADER + RowTexts(peers))
  }

  lemma {:induction false} UnlinesAppend(a: seq<string>, b: seq<string>)
    ensures Unlines(a + b) == Unlines(a) + Unlines(b)
  {
    if a == [] {
      assert a + b == b;
    } else {
      assert (a + b)[1..] == a[1..] + b;
      UnlinesAppend(a[1..], b);
    }
  }

  lemma RowTextsSnoc(peers: seq<AuthorizedPeer>, i: nat)
    requires i < |peers|
    ensures RowTexts(peers[..i + 1]) == RowTexts(peers[..i]) + [RowText(peers[i])]
  {
  }

  lemma UnlinesSnoc(before: string, lines: seq<string>, line: string)
    ensures before + Unlines(lines + [line]) == before + Unlines(lines) + (line + "\n")
  {
    UnlinesAppend(lines, [line]);
    assert [line][1..] == [];
  }

  method PushRows(before: string, peers: seq<AuthorizedPeer>) returns (out: string)
    ensures out == before + Unlines(RowTexts(peers))
  {
    out := before;
    for i := 0 to |peers|
      invariant out == before + Unlines(RowTexts(peers[..i]))
    {
      RowTextsSnoc(peers, i);
      UnlinesSnoc(before, RowTexts(peers[..i]), RowText(peers[i]));
      var key, tag := ToSshString(peers[i].pubkey), peers[i].tag;
      if tag == "" {
        out := out + (key + "\n");
      } else {
        out := out + (key + [' '] + tag + "\n");
      }
    }
    assert peers[..|peers|] == peers;
  }

  method RenderAuthorizedKeys(peers: seq<AuthorizedPeer>) returns (out: string)
    ensures out == Rendered(peers)
  {
    out := PushRows(Unlines(HEADER), peers);
    UnlinesAppend(HEADER, RowTexts(peers));
  }

  // ---- Round trip ----

  /** What `Lines` gives back after `Unlines`. */
  predicate IsLine(line: string) {
    '\n' !in line && (line == "" || line[|line| - 1] != '\r')
  }

  lemma {:induction false} LinesOfUnlines(lines: seq<string>)
    requires forall i :: 0 <= i < |lines| ==> IsLine(lines[i])
    ensures Lines(Unlines(lines)) == lines
  {
    if lines != [] {
      LinesCons(lines[0], Unlines(lines[1..]));
      LinesOfUnlines(lines[1..]);
    }
  }

  lemma CommentIsSkipped(line: string)
    requires line == "" || line[0] == '#'
    ensures LineParts(line) == None
  {
    assert TrimStart(line, IsWhitespace) == line;
  }

  lemma NoPartsNoEntry(line: string)
    requires LineParts(line) == None
    ensures Entry(line) == []
  {
  }

  predicate IsComment(line: string) {
    IsLine(line) && (line == "" || line[0] == '#')
  }

  lemma KeysComment()
    ensures IsComment(ABOUT_KEYS)
  {
  }

  lemma PastingComment()
    ensures IsComment(ABOUT_PASTING)
  {
  }

  lemma ShortComments()
    ensures IsComment("# agentsync authorized_keys") && IsComment("#") && IsComment("# want to authorize.") && IsComment("")
  {
  }

  /** The lines every rendered file opens with, and the rows behind them. */
  lemma FileOpens(peers: seq<AuthorizedPeer>)
    ensures HEADER == ["# agentsync authorized_keys", "#", ABOUT_KEYS, ABOUT_PASTING, "# want to authorize.", ""]
    ensures Rendered(peers) == Unlines(HEADER) + Unlines(RowTexts(peers))
  {
    UnlinesAppend(HEADER, RowTexts(peers));
  }

  lemma HeaderIsComments()
    ensures forall i :: 0 <= i < |HEADER| ==> IsComment(HEADER[i])
  {
    ShortComments();
    KeysComment();
    PastingComment();
  }

  /** Reading a row: type, key and label, each up to the next space. */
  lemma PlainRow(kind: string, blob: string, tag: string)
    requires NoWhitespace(kind) && NoWhitespace(blob) && Trimmed(tag)
    ensures PlainParts(Row(kind + [' '] + blob, tag)) == Some((kind + [' '] + blob, tag))
  {
    TrimExactly(tag);
    if tag == "" {
      CutAtSpaceIs(kind, ' ', blob);
      CutNothing(blob);
    } else {
      assert Row(kind + [' '] + blob, tag) == kind + [' '] + (blob + [' '] + tag);
      CutAtSpaceIs(kind, ' ', blob + [' '] + tag);
      CutAtSpaceIs(blob, ' ', tag);
    }
  }

  /** A plain body has its key in front of the second white space, even if nothing stands there, and its label behind. */
  lemma PlainBody(kind: string, c: char, blob: string, d: char, tail: string)
    requires NoWhitespace(kind) && NoWhitespace(blob) && IsWhitespace(c) && IsWhitespace(d) && (kind == "" || kind[0] != '`')
    ensures BodyParts(kind + [c] + (blob + [d] + tail)) == Some((kind + [' '] + blob, Trim(tail)))
    ensures BodyParts(kind + [c] + blob) == Some((kind + [' '] + blob, ""))
    ensures BodyParts(kind) == None
  {
    assert !IsWhitespace('`');
    CutAtSpaceIs(kind, c, blob + [d] + tail);
    CutAtSpaceIs(kind, c, blob);
    CutAtSpaceIs(blob, d, tail);
    CutNothing(blob);
    CutNothing(kind);
    TrimExactly("");
  }

  lemma LetterStartsPlain(line: string)
    requires line != "" && line[0] == 's'
    ensures LineParts(line) == PlainParts(line)
  {
    LetterStaysFirst(line);
    assert LineParts(line) == BodyParts(line);
  }

  lemma LetterStaysFirst(line: string)
    requires line != "" && line[0] == 's'
    ensures TrimStart(line, IsWhitespace) == line && StripListMarker(line) == line
  {
    assert !IsWhitespace('s');
    assert line[..1] != "-" && line[..1] != "*";
  }

  lemma PartsDecide(line: string, key: string, p: AuthorizedPeer)
    requires LineParts(line) == Some((key, p.tag)) && FromSshString(key) == Ok(p.pubkey)
    ensures Entry(line) == [p]
  {
  }

  lemma RowIsLine(key: string, tag: string)
    requires key != "" && NoWhitespace([key[|key| - 1]]) && '\n' !in key && GoodLabel(tag)
    ensures IsLine(Row(key, tag)) && Row(key, tag)[0] == key[0]
  {
    assert !IsWhitespace([key[|key| - 1]][0]);
  }

  lemma RowParses(p: AuthorizedPeer)
    requires GoodLabel(p.tag)
    ensures IsLine(RowText(p)) && Entry(RowText(p)) == [p]
  {
    var blob := Base64.Padded(KeyWire(p.pubkey));
    BlobOfKey(p.pubkey);
    KeyRoundTrip(p.pubkey);
    RowOfParts(SSH_KEY_TYPE, blob, p);
  }

  lemma RowOfParts(kind: string, blob: string, p: AuthorizedPeer)
    requires kind == SSH_KEY_TYPE && blob != "" && NoWhitespace(blob) && GoodLabel(p.tag)
    requires ToSshString(p.pubkey) == kind + [' '] + blob && FromSshString(kind + [' '] + blob) == Ok(p.pubkey)
    ensures IsLine(RowText(p)) && Entry(RowText(p)) == [p]
  {
    var key := kind + [' '] + blob;
    KeyTypeIsWord();
    KeyIsLine(kind, blob);
    RowIsLine(key, p.tag);
    PlainRow(kind, blob, p.tag);
    LetterStartsPlain(Row(key, p.tag));
    PartsDecide(Row(key, p.tag), key, p);
  }

  lemma KeyIsLine(kind: string, blob: string)
    requires kind == SSH_KEY_TYPE && blob != "" && NoWhitespace(blob)
    ensures var key := kind + [' '] + blob;
      key[0] == 's' && NoWhitespace([key[|key| - 1]]) && '\n' !in key
  {
    KeyTypeIsWord();
    assert forall c :: c in kind + [' '] + blob ==> c in kind || c == ' ' || c in blob;
  }

  /** A list of peers is read back from its rendering exactly if all its labels are good. */
  lemma RenderRoundTripsExactly(peers: seq<AuthorizedPeer>)
    ensures ParsedText(Rendered(peers)) == peers <==> AllGood(peers)
  {
    ParsedTextIsGood(Rendered(peers));
    if AllGood(peers) {
      var rows := RowTexts(peers);
      HeaderIsComments();
      forall i | 0 <= i < |HEADER| ensures Entry(HEADER[i]) == [] {
        CommentIsSkipped(HEADER[i]);
        NoPartsNoEntry(HEADER[i]);
      }
      forall i | 0 <= i < |rows| ensures IsLine(rows[i]) && Entry(rows[i]) == [peers[i]] {
        RowParses(peers[i]);
      }
      ReadBack(HEADER, rows, peers);
    }
  }

  lemma ReadBack(header: seq<string>, rows: seq<string>, peers: seq<AuthorizedPeer>)
    requires forall i :: 0 <= i < |header| ==> IsLine(header[i]) && Entry(header[i]) == []
    requires |rows| == |peers| && forall i :: 0 <= i < |rows| ==> IsLine(rows[i]) && Entry(rows[i]) == [peers[i]]
    ensures ParsedText(Unlines(header + rows)) == peers
  {
    LinesOfUnlines(header + rows);
    CollectAppend(header, rows, Entry);
    CollectNothing(header, Entry);
    CollectSingles(rows, Entry, peers);
  }

  /** Reading, rendering and reading again changes nothing, for every text. */
  lemma ParseRenderParse(content: string)
    ensures ParsedText(Rendered(ParsedText(content))) == ParsedText(content)
  {
    ParsedTextIsGood(content);
    RenderRoundTripsExactly(ParsedText(content));
  }

  // ---- Merging ----

  predicate HasKey(peers: seq<AuthorizedPeer>, pk: Pubkey) {
    exists i :: 0 <= i < |peers| && peers[i].pubkey == pk
  }

  /** `news` one after the other behind `merged`, each unless its key is there already. */
  function MergedWith(merged: seq<AuthorizedPeer>, news: seq<AuthorizedPeer>): seq<AuthorizedPeer>
    decreases |news|
  {
    if news == [] then merged
    else MergedWith(if HasKey(merged, news[0].pubkey) then merged else merged + [news[0]], news[1..])
  }

  function NewPeers(raw: string): seq<AuthorizedPeer> {
    ParsedText(Replace(raw, ',', '\n'))
  }

  /** The text written, if any, when `raw` is merged into a file. */
  function Merge(raw: string, existing: string): Option<string> {
    var had := ParsedText(existing);
    var merged := MergedWith(had, NewPeers(raw));
    if merged == had then None else Some(Rendered(merged))
  }

  method MergeAuthorizedKeys(raw: string, file: Option<string>) returns (written: Option<string>)
    ensures written == Merge(raw, file.GetOr(""))
  {
    var newPeers := ParseAuthorizedKeys(Replace(raw, ',', '\n'));
    if newPeers == [] {
      return None;
    }
    var existing := file.GetOr("");
    var had := ParseAuthorizedKeys(existing);
    var merged, added := PushMissing(had, newPeers);
    if added > 0 {
      var rendered := RenderAuthorizedKeys(merged);
      return Some(rendered);
    }
    return None;
  }

  /** The merging loop: each new peer goes behind the list unless its key is there, and is counted. */
  method PushMissing(had: seq<AuthorizedPeer>, newPeers: seq<AuthorizedPeer>)
    returns (merged: seq<AuthorizedPeer>, added: nat)
    ensures merged == MergedWith(had, newPeers) && (added == 0 <==> merged == had)
  {
    merged, added := had, 0;
    for i := 0 to |newPeers|
      invariant MergedWith(merged, newPeers[i..]) == MergedWith(had, newPeers)
      invariant |merged| == |had| + added && had <= merged
    {
      assert newPeers[i..][1..] == newPeers[i + 1..];
      var peer := newPeers[i];
      var known := KeyKnown(merged, peer.pubkey);
      if !known {
        merged := merged + [peer];
        added := added + 1;
      }
    }
  }

  method KeyKnown(peers: seq<AuthorizedPeer>, pk: Pubkey) returns (known: bool)
    ensures known <==> HasKey(peers, pk)
  {
    known := false;
    for i := 0 to |peers|
      invariant known <==> HasKey(peers[..i], pk)
    {
      assert peers[..i + 1] == peers[..i] + [peers[i]];
      if peers[i].pubkey == pk {
        assert peers[..i + 1][i].pubkey == pk;
        known := true;
      } else {
        assert forall k :: 0 <= k < i ==> peers[..i + 1][k] == peers[..i][k];
      }
    }
    assert peers[..|peers|] == peers;
  }

  /** `p` is the first entry of `news` with its key. */
  predicate FirstOfItsKey(p: AuthorizedPeer, news: seq<AuthorizedPeer>) {
    exists n :: 0 <= n < |news| && news[n] == p && !HasKey(news[..n], p.pubkey)
  }

  /** Entry `j` is in the list for the first time. */
  predicate FreshAt(peers: seq<AuthorizedPeer>, j: nat)
    requires j < |peers|
  {
    !HasKey(peers[..j], peers[j].pubkey)
  }

  /** Old entries stay in front in order; each new key is added once, as it first came, and none is missed. */
  lemma {:induction false} MergeMeaning(had: seq<AuthorizedPeer>, news: seq<AuthorizedPeer>)
    ensures var m := MergedWith(had, news);
      && had <= m
      && (forall j :: |had| <= j < |m| ==> FreshAt(m, j) && FirstOfItsKey(m[j], news))
      && (forall n :: 0 <= n < |news| ==> HasKey(m, news[n].pubkey))
      && (m == had <==> forall n :: 0 <= n < |news| ==> HasKey(had, news[n].pubkey))
    decreases |news|
  {
    if news != [] {
      var first, rest := news[0], news[1..];
      var mid := if HasKey(had, first.pubkey) then had else had + [first];
      assert HasKey(mid, first.pubkey) by {
        assert mid == had || mid[|had|].pubkey == first.pubkey;
      }
      MergeMeaning(mid, rest);
      var m := MergedWith(mid, rest);
      KeyStays(mid, m, first.pubkey);
      forall j | |had| <= j < |m| ensures FreshAt(m, j) && FirstOfItsKey(m[j], news) {
        if j < |mid| {
          assert m[j] == first && m[..j] == had && news[..0] == [];
        } else {
          FirstShifts(m, j, mid, news);
        }
      }
      forall n | 0 <= n < |news| ensures HasKey(m, news[n].pubkey) {
        assert n > 0 ==> news[n] == rest[n - 1];
      }
      assert mid != had ==> |m| > |had| && !HasKey(had, news[0].pubkey);
      assert (forall n :: 0 <= n < |news| ==> HasKey(had, news[n].pubkey)) ==> m == had by {
        assert forall n :: 0 <= n < |rest| ==> rest[n] == news[n + 1];
      }
    }
  }

  lemma KeyStays(a: seq<AuthorizedPeer>, b: seq<AuthorizedPeer>, pk: Pubkey)
    requires a <= b && HasKey(a, pk)
    ensures HasKey(b, pk)
  {
    var i :| 0 <= i < |a| && a[i].pubkey == pk;
    assert b[i].pubkey == pk;
  }

  lemma FirstShifts(m: seq<AuthorizedPeer>, j: nat, mid: seq<AuthorizedPeer>, news: seq<AuthorizedPeer>)
    requires news != [] && mid <= m && |mid| <= j < |m|
    requires HasKey(mid, news[0].pubkey) && FreshAt(m, j) && FirstOfItsKey(m[j], news[1..])
    ensures FirstOfItsKey(m[j], news)
  {
    var pk := m[j].pubkey;
    var n :| 0 <= n < |news[1..]| && news[1..][n] == m[j] && !HasKey(news[1..][..n], pk);
    KeyStays(mid, m[..j], news[0].pubkey);
    assert news[0].pubkey != pk;
    assert news[..n + 1] == [news[0]] + news[1..][..n];
    assert !HasKey(news[..n + 1], pk) by {
      var first := news[..n + 1];
      assert forall i :: 0 < i < |first| ==> first[i] == news[1..][..n][i - 1];
    }
    assert news[n + 1] == m[j];
  }

  lemma {:induction false} PiecesRead<B>(a: seq<string>, b: seq<string>, entry: string -> seq<B>)
    requires |a| >= 1 && |b| >= 1 && StripCarriageReturn(a[|a| - 1]) == a[|a| - 1] && entry("") == []
    ensures Collect(LinesOf(a + b), entry) == Collect(LinesOf(a), entry) + Collect(LinesOf(b), entry)
  {
    var piece, rest := a[0], a[1..];
    FirstPieceReads(piece, rest + b, entry);
    assert a == [piece] + rest && a + b == [piece] + (rest + b);
    if rest == [] {
      OneLine(piece, entry);
    } else {
      PiecesRead(rest, b, entry);
      FirstPieceReads(piece, rest, entry);
    }
  }

  lemma FirstPieceReads<B>(piece: string, rest: seq<string>, entry: string -> seq<B>)
    requires |rest| >= 1
    ensures Collect(LinesOf([piece] + rest), entry) == entry(StripCarriageReturn(piece)) + Collect(LinesOf(rest), entry)
  {
    var lines := [StripCarriageReturn(piece)] + LinesOf(rest);
    assert ([piece] + rest)[1..] == rest && lines[1..] == LinesOf(rest);
  }

  lemma OneLine<B>(line: string, entry: string -> seq<B>)
    requires entry("") == []
    ensures Collect(LinesOf([line]), entry) == entry(line)
  {
    assert [line][1..] == [];
    assert Collect([line], entry) == entry(line) + [];
  }

  lemma EmptyLineReads()
    ensures Entry("") == []
  {
    assert LineParts("") == None;
  }

  /** Pasted keys may be separated by commas or by line breaks: each piece is read on its own. */
  lemma CommasSeparate(a: string, c: char, b: string)
    requires (c == ',' || c == '\n') && (a == "" || a[|a| - 1] != '\r')
    ensures NewPeers(a + [c] + b) == NewPeers(a) + NewPeers(b)
  {
    var a', b' := Replace(a, ',', '\n'), Replace(b, ',', '\n');
    assert Replace(a + [c] + b, ',', '\n') == a' + ['\n'] + b';
    assert a != "" ==> a'[|a| - 1] == (if a[|a| - 1] == ',' then '\n' else a[|a| - 1]);
    LinesSeparate(a', b');
  }

  lemma LinesSeparate(a: string, b: string)
    requires a == "" || a[|a| - 1] != '\r'
    ensures ParsedText(a + ['\n'] + b) == ParsedText(a) + ParsedText(b)
  {
    EmptyLineReads();
    LinesApart(a, b, Entry);
  }

  lemma LinesApart<B>(a: string, b: string, entry: string -> seq<B>)
    requires (a == "" || a[|a| - 1] != '\r') && entry("") == []
    ensures Collect(Lines(a + ['\n'] + b), entry) == Collect(Lines(a), entry) + Collect(Lines(b), entry)
  {
    SplitConcat(a, b, '\n');
    LastPiece(a);
    PiecesRead(Split(a, '\n'), Split(b, '\n'), entry);
  }

  lemma LastPiece(s: string)
    requires s == "" || s[|s| - 1] != '\r'
    ensures var pieces := Split(s, '\n'); StripCarriageReturn(pieces[|pieces| - 1]) == pieces[|pieces| - 1]
  {
    var pieces := Split(s, '\n');
    var last := pieces[|pieces| - 1];
    if |pieces| > 1 {
      var init := pieces[..|pieces| - 1];
      assert pieces == init + [last];
      JoinAppend(init, [last], '\n');
      assert s == Join(init, '\n') + ['\n'] + last;
    }
    assert last != "" ==> last[|last| - 1] == s[|s| - 1];
  }

  /** A piece without commas and line breaks is one line. */
  lemma OnePiece(line: string)
    requires ',' !in line && '\n' !in line
    ensures NewPeers(line) == Entry(line)
  {
    assert Replace(line, ',', '\n') == line;
    SplitJoin([line], '\n');
    EmptyLineReads();
    OneLine(line, Entry);
  }

  lemma MergeTwice(raw: string, existing: string)
    ensures Merge(raw, Merge(raw, existing).GetOr(existing)) == None
  {
    var had, news := ParsedText(existing), NewPeers(raw);
    var m := MergedWith(had, news);
    MergeMeaning(had, news);
    MergeMeaning(m, news);
    MergedIsGood(raw, existing);
    RenderRoundTripsExactly(m);
  }

  lemma MergedIsGood(raw: string, existing: string)
    ensures AllGood(MergedWith(ParsedText(existing), NewPeers(raw)))
  {
    var had, news := ParsedText(existing), NewPeers(raw);
    ParsedTextIsGood(existing);
    ParsedTextIsGood(Replace(raw, ',', '\n'));
    MergeMeaning(had, news);
    var m := MergedWith(had, news);
    forall i | 0 <= i < |m| ensures GoodLabel(m[i].tag) {
      if i >= |had| {
        assert FirstOfItsKey(m[i], news);
      } else {
        assert m[i] == had[i];
      }
    }
  }

  /** The file after a merge holds the old entries in order and then the keys that were missing, and nothing is written if none was. */
  lemma MergedFile(raw: string, existing: string)
    ensures ParsedText(Merge(raw, existing).GetOr(existing)) == MergedWith(ParsedText(existing), NewPeers(raw))
    ensures Merge(raw, existing).None? <==>
      forall n :: 0 <= n < |NewPeers(raw)| ==> HasKey(ParsedText(existing), NewPeers(raw)[n].pubkey)
  {
    MergedIsGood(raw, existing);
    MergeMeaning(ParsedText(existing), NewPeers(raw));
    RenderRoundTripsExactly(MergedWith(ParsedText(existing), NewPeers(raw)));
  }
}
