/** The older key lines: a list marker, the key in backticks, a dash and the label (`peers_md.rs`). */
module LegacyLines {
  import opened Wrappers
  import opened Base64
  import opened RustText
  import opened SshWire
  import opened AuthorizedKeys

  /** Em dash, en dash, two hyphens, one hyphen: tried in this order. */
  const DASHES := [" \U{2014} ", " \U{2013} ", " -- ", " - "]

  predicate IsMarker(marker: string) {
    marker == "- " || marker == "* " || marker == ""
  }

  predicate AllSpace(s: string) {
    forall i :: 0 <= i < |s| ==> IsWhitespace(s[i])
  }

  predicate IsDash(c: char) {
    c == '\U{2014}' || c == '\U{2013}' || c == '-'
  }

  // ---- In front of the body ----

  lemma LineBody(space: string, marker: string, body: string)
    requires AllSpace(space) && IsMarker(marker) && body != "" && (body[0] == '`' || body[0] == 's')
    ensures LineParts(space + marker + body) == BodyParts(body)
  {
    var line := marker + body;
    assert space + marker + body == space + line;
    assert !IsWhitespace('-') && !IsWhitespace('*') && !IsWhitespace('`') && !IsWhitespace('s');
    TrimStartSkips(space, line, IsWhitespace);
    MarkerComesOff(marker, body);
  }

  lemma MarkerComesOff(marker: string, body: string)
    requires IsMarker(marker) && body != "" && (body[0] == '`' || body[0] == 's')
    ensures StripListMarker(marker + body) == body && (marker + body)[0] != '#'
  {
    if marker == "" {
      assert marker + body == body;
      assert body[..1] != "-" && body[..1] != "*";
    } else {
      assert (marker + body)[2..] == body && marker == (marker + body)[..2];
    }
  }

  /** A line of the present form behind any marker. */
  lemma PlainLineReads(space: string, marker: string, p: AuthorizedPeer)
    requires AllSpace(space) && IsMarker(marker) && GoodLabel(p.tag)
    ensures var key := ToSshString(p.pubkey);
      Entry(space + marker + (if p.tag == "" then key else key + [' '] + p.tag)) == [p]
  {
    var row := RowText(p);
    RowParses(p);
    RowStartsWithS(p);
    LetterStartsPlain(row);
    LineBody(space, marker, row);
    assert BodyParts(row) == PlainParts(row);
    SameParts(space + marker + row, row);
  }

  lemma RowStartsWithS(p: AuthorizedPeer)
    requires GoodLabel(p.tag)
    ensures RowText(p) != "" && RowText(p)[0] == 's'
  {
    var blob := Padded(KeyWire(p.pubkey));
    BlobOfKey(p.pubkey);
    KeyIsLine(SSH_KEY_TYPE, blob);
    RowIsLine(SSH_KEY_TYPE + [' '] + blob, p.tag);
  }

  lemma SameParts(a: string, b: string)
    requires LineParts(a) == LineParts(b)
    ensures Entry(a) == Entry(b)
  {
  }

  // ---- Finding the dash ----

  /** No space with a dash behind it, and no space at the end. */
  predicate Quiet(q: string) {
    forall i :: 0 <= i < |q| ==> QuietAt(q, i)
  }

  predicate QuietAt(q: string, i: nat)
    requires i < |q|
  {
    q[i] == ' ' ==> i + 1 < |q| && !IsDash(q[i + 1])
  }

  predicate Dashed(sep: string) {
    |sep| >= 3 && sep[0] == ' ' && IsDash(sep[1])
  }

  lemma {:induction false} FindBehind(q: string, rest: string, sep: string)
    requires Quiet(q) && Dashed(sep)
    ensures Find(rest, sep).Some? ==> Find(q + rest, sep) == Some(|q| + Find(rest, sep).value)
    ensures Find(rest, sep).None? ==> Find(q + rest, sep).None?
  {
    if q == "" {
      assert q + rest == rest;
    } else {
      assert (q + rest)[1..] == q[1..] + rest && (q + rest)[0] == q[0];
      assert QuietAt(q, 0);
      assert q[0] == ' ' ==> (q + rest)[1] == q[1] && !IsDash(q[1]);
      forall i | 0 <= i < |q[1..]| ensures QuietAt(q[1..], i) {
        assert QuietAt(q, i + 1);
      }
      FindBehind(q[1..], rest, sep);
    }
  }

  /** None of the first `n` separators is found. */
  ghost predicate NoneFound(s: string, seps: seq<string>, n: nat)
    requires n <= |seps|
  {
    forall m :: 0 <= m < n ==> Find(s, seps[m]).None?
  }

  /** The separators that are not found change nothing. */
  lemma {:induction false} SplitReaches(s: string, seps: seq<string>, n: nat)
    requires n < |seps| && NoneFound(s, seps, n)
    ensures SplitKeyAndLabel(s, seps) == SplitKeyAndLabel(s, seps[n..])
  {
    if n == 0 {
      assert seps[0..] == seps;
    } else {
      var more := seps[1..];
      FoundFurther(s, seps, more, n);
      SplitPasses(s, seps, more);
      SplitReaches(s, more, n - 1);
      assert more[n - 1..] == seps[n..];
    }
  }

  /** The first separator found decides. */
  lemma SplitFound(s: string, seps: seq<string>, n: nat, at: nat, end: nat)
    requires n < |seps| && Find(s, seps[n]) == Some(at) && NoneFound(s, seps, n) && end == at + |seps[n]|
    ensures end <= |s| && SplitKeyAndLabel(s, seps) == (s[..at], LabelFrom(s, end))
  {
    var rest := seps[n..];
    assert rest[0] == seps[n];
    SplitReaches(s, seps, n);
    SplitHere(s, rest, at, end);
  }

  lemma SplitHere(s: string, seps: seq<string>, at: nat, end: nat)
    requires seps != [] && Find(s, seps[0]) == Some(at) && end == at + |seps[0]|
    ensures end <= |s| && SplitKeyAndLabel(s, seps) == (s[..at], LabelFrom(s, end))
  {
  }

  lemma FoundFurther(s: string, seps: seq<string>, more: seq<string>, n: nat)
    requires 0 < n < |seps| && more == seps[1..] && NoneFound(s, seps, n)
    ensures NoneFound(s, more, n - 1) && more[n - 1] == seps[n] && Find(s, seps[0]).None?
  {
    assert forall m :: 0 <= m < n - 1 ==> more[m] == seps[m + 1];
  }

  lemma SplitPasses(s: string, seps: seq<string>, more: seq<string>)
    requires seps != [] && Find(s, seps[0]).None? && more == seps[1..]
    ensures SplitKeyAndLabel(s, seps) == SplitKeyAndLabel(s, more)
  {
  }

  lemma {:induction false} SplitNotFound(s: string, seps: seq<string>)
    requires forall m :: 0 <= m < |seps| ==> Find(s, seps[m]).None?
    ensures SplitKeyAndLabel(s, seps) == (s, "")
  {
    if seps != [] {
      SplitNotFound(s, seps[1..]);
    }
  }

  lemma DashesAreDashed()
    ensures SEPARATORS == DASHES && forall n :: 0 <= n < 4 ==> Dashed(DASHES[n])
  {
  }

  // ---- The quoted key ----

  function Quoted(key: string): string {
    "`" + key + "`"
  }

  /** What the backticks enclose. */
  lemma Unquoting(key: string)
    requires key != "" && Trimmed(key) && key[0] != '`' && key[|key| - 1] != '`'
    ensures Trim(TrimMatches(Trim(Quoted(key)), IsBacktick)) == key
  {
    var q := Quoted(key);
    assert !IsWhitespace('`') && q[0] == '`' && q[|q| - 1] == '`';
    TrimExactly(q);
    assert q == "`" + (key + "`");
    TrimStartSkips("`", key + "`", IsBacktick);
    assert (key + "`")[..|key|] == key;
    assert TrimEnd(key + "`", IsBacktick) == TrimEnd(key, IsBacktick) == key;
    TrimExactly(key);
  }

  /** The parts of a key text, as the lemmas below need them. */
  predicate KeyShape(kind: string, blob: string) {
    && kind == SSH_KEY_TYPE && blob != "" && NoWhitespace(kind) && NoWhitespace(blob)
    && !IsDash(blob[0]) && '`' !in blob
  }

  lemma KeyHasShape(pk: Pubkey)
    ensures var blob := Padded(KeyWire(pk));
      ToSshString(pk) == SSH_KEY_TYPE + [' '] + blob && KeyShape(SSH_KEY_TYPE, blob)
  {
    var blob := Padded(KeyWire(pk));
    KeyTypeIsWord();
    BlobOfKey(pk);
    EncodedLength(KeyWire(pk));
    assert forall v: Sextet :: !IsDash(CharOf(v)) && CharOf(v) != '`';
  }

  lemma QuotedIsQuiet(kind: string, blob: string)
    requires KeyShape(kind, blob)
    ensures Quiet(Quoted(kind + [' '] + blob))
  {
    var q := Quoted(kind + [' '] + blob);
    assert IsWhitespace(' ');
    forall i | 0 <= i < |q| ensures QuietAt(q, i) {
      if 0 < i <= |kind| {
        assert q[i] == kind[i - 1] && !IsWhitespace(kind[i - 1]);
      } else if i == |kind| + 1 {
        assert q[i + 1] == blob[0];
      } else if 0 < i < |q| - 1 {
        assert q[i] == blob[i - |kind| - 2] && !IsWhitespace(blob[i - |kind| - 2]);
      }
    }
  }

  lemma KeyUnquoted(kind: string, blob: string)
    requires KeyShape(kind, blob)
    ensures Trim(TrimMatches(Trim(Quoted(kind + [' '] + blob)), IsBacktick)) == kind + [' '] + blob
  {
    var key := kind + [' '] + blob;
    assert key[|key| - 1] == blob[|blob| - 1] && blob[|blob| - 1] in blob;
    assert key[0] == kind[0];
    Unquoting(key);
  }

  // ---- Lines that are read ----

  /** None of the separators tried earlier occurs behind the key. */
  ghost predicate Clear(n: nat, tag: string)
    requires n < 4
  {
    forall m :: 0 <= m < n ==> !Occurs(DASHES[n] + tag, DASHES[m])
  }

  lemma NoneEarlier(q: string, rest: string, n: nat)
    requires Quiet(q) && n <= 4 && forall m :: 0 <= m < n ==> !Occurs(rest, DASHES[m])
    ensures NoneFound(q + rest, DASHES, n)
  {
    DashesAreDashed();
    forall m | 0 <= m < n ensures Find(q + rest, DASHES[m]).None? {
      FindBehind(q, rest, DASHES[m]);
      FindExactly(rest, DASHES[m]);
    }
  }

  lemma LegacyRead(kind: string, blob: string, n: nat, tag: string)
    requires KeyShape(kind, blob) && n < 4 && GoodLabel(tag) && Clear(n, tag)
    ensures var key := kind + [' '] + blob; BodyParts(Quoted(key) + (DASHES[n] + tag)) == Some((key, tag))
  {
    var key := kind + [' '] + blob;
    var q, rest := Quoted(key), DASHES[n] + tag;
    var body := q + rest;
    DashesAreDashed();
    QuotedIsQuiet(kind, blob);
    NoneEarlier(q, rest, n);
    FindBehind(q, rest, DASHES[n]);
    assert DASHES[n] <= rest && Find(rest, DASHES[n]) == Some(0);
    SplitRightBehind(q, DASHES[n], tag, DASHES, n);
    KeyUnquoted(kind, blob);
    PartsOfSplit(body, q, tag);
  }

  lemma SplitRightBehind(q: string, sep: string, tag: string, seps: seq<string>, n: nat)
    requires n < |seps| && seps[n] == sep && Find(q + (sep + tag), sep) == Some(|q|) && Trimmed(tag)
    requires NoneFound(q + (sep + tag), seps, n)
    ensures SplitKeyAndLabel(q + (sep + tag), seps) == (q, tag)
  {
    var body := q + (sep + tag);
    var end := |q| + |sep|;
    SplitFound(body, seps, n, |q|, end);
    assert body[..|q|] == q && body[end..] == tag;
    LabelIs(body, end, tag);
  }

  lemma LabelIs(body: string, end: nat, tag: string)
    requires end <= |body| && body[end..] == tag && Trimmed(tag)
    ensures LabelFrom(body, end) == tag
  {
    TrimExactly(tag);
  }

  lemma PartsOfSplit(body: string, keyPart: string, tag: string)
    requires body != "" && body[0] == '`' && SplitKeyAndLabel(body, SEPARATORS) == (keyPart, tag)
    ensures BodyParts(body) == Some((Trim(TrimMatches(Trim(keyPart), IsBacktick)), tag))
  {
  }

  lemma LegacyAlone(kind: string, blob: string)
    requires KeyShape(kind, blob)
    ensures var key := kind + [' '] + blob; BodyParts(Quoted(key)) == Some((key, ""))
  {
    var q := Quoted(kind + [' '] + blob);
    DashesAreDashed();
    QuotedIsQuiet(kind, blob);
    forall m | 0 <= m < |SEPARATORS| ensures Find(q, SEPARATORS[m]).None? {
      FindBehind(q, "", SEPARATORS[m]);
      assert q + "" == q;
    }
    SplitNotFound(q, SEPARATORS);
    KeyUnquoted(kind, blob);
    PartsOfSplit(q, q, "");
  }

  // ---- Lines that are dropped ----

  lemma BacktickIsForeign(b: string)
    ensures DecodePadded(b + "`") == None
  {
    var s := b + "`";
    assert s[|s| - 1] == '`' && StripEquals(s) == s;
    assert '`' in s;
    assert forall v: Sextet :: CharOf(v) != '`';
  }

  /** With a dash left behind the closing backtick, the backtick stays on the key's second word. */
  lemma BacktickStays(kind: string, blob: string, dash: char, more: string, x: string) returns (w: string, words: seq<string>)
    requires kind != "" && NoWhitespace(kind) && NoWhitespace(blob) && blob != "" && kind[0] != '`' && IsDash(dash)
    requires x == "`" + (kind + [' '] + blob + "`" + [' ', dash] + more)
    ensures w == Trim(TrimMatches(Trim(x), IsBacktick)) && Words(Trim(w)) == [kind] + ([blob + "`"] + words)
  {
    w := QuoteOff(kind, blob, dash, more, x);
    var tail := w[|kind| + |blob| + 3..];
    BacktickWord(blob);
    WordsOfTwo(kind, blob + "`", tail, w);
    words := Words(tail);
  }

  lemma BacktickWord(blob: string)
    requires NoWhitespace(blob)
    ensures NoWhitespace(blob + "`")
  {
    assert !IsWhitespace('`');
  }

  lemma QuoteOff(kind: string, blob: string, dash: char, more: string, x: string) returns (w: string)
    requires kind != "" && NoWhitespace(kind) && kind[0] != '`' && IsDash(dash)
    requires x == "`" + (kind + [' '] + blob + "`" + [' ', dash] + more)
    ensures w == Trim(TrimMatches(Trim(x), IsBacktick)) && Trimmed(w)
    ensures |w| >= |kind| + |blob| + 4 && w == kind + [' '] + (blob + "`" + [' '] + w[|kind| + |blob| + 3..])
  {
    CharsOfQuoted(kind, blob, dash, more, x);
    w := TrimmedTwice(x, |kind| + |blob| + 4);
    PrefixShape(kind, blob, dash, more, w);
  }

  lemma CharsOfQuoted(kind: string, blob: string, dash: char, more: string, x: string)
    requires kind != "" && NoWhitespace(kind) && kind[0] != '`' && IsDash(dash)
    requires x == "`" + (kind + [' '] + blob + "`" + [' ', dash] + more)
    ensures var n := |kind| + |blob| + 4;
      && n < |x| && x[n] == dash && x[0] == '`' && x[1] == kind[0]
      && x[1..] == kind + [' '] + blob + "`" + [' ', dash] + more
      && !IsWhitespace(x[0]) && !IsWhitespace(x[n]) && !IsWhitespace(x[1]) && !IsBacktick(x[1]) && !IsBacktick(x[n])
  {
    assert !IsWhitespace('`') && !IsWhitespace(dash);
  }

  lemma PrefixShape(kind: string, blob: string, dash: char, more: string, w: string)
    requires w <= kind + [' '] + blob + "`" + [' ', dash] + more && |w| >= |kind| + |blob| + 4
    ensures w == kind + [' '] + (blob + "`" + [' '] + w[|kind| + |blob| + 3..])
  {
    var all := kind + [' '] + blob + "`" + [' ', dash] + more;
    assert w == all[..|w|];
  }

  lemma ForeignSecondWord(w: string, kind: string, blob: string, more: seq<string>)
    requires Words(Trim(w)) == [kind] + ([blob + "`"] + more) && kind == SSH_KEY_TYPE
    ensures FromSshString(w).Err?
  {
    var parts := [kind] + ([blob + "`"] + more);
    assert parts[0] == kind && parts[1] == blob + "`";
    WordsThatDecide(w, parts);
    BacktickIsForeign(blob);
  }

  lemma TrimmedTo(x: string, n: nat)
    requires n < |x| && !IsWhitespace(x[0]) && !IsWhitespace(x[n])
    ensures Trim(x) <= x && |Trim(x)| > n && Trimmed(Trim(x))
  {
    TrimStartSkips("", x, IsWhitespace);
    assert "" + x == x;
    TrimEndKeeps(x, n, IsWhitespace);
    TrimExactly(x);
  }

  lemma BacktickOff(y: string, n: nat)
    requires 1 < n < |y| && y[0] == '`' && !IsBacktick(y[1]) && !IsBacktick(y[n])
    ensures TrimMatches(y, IsBacktick) <= y[1..] && |TrimMatches(y, IsBacktick)| >= n
  {
    assert y == "`" + y[1..];
    TrimStartSkips("`", y[1..], IsBacktick);
    TrimEndKeeps(y[1..], n - 1, IsBacktick);
  }

  /** Trimming white space, backticks and white space again takes the first backtick off and stops at `n` at the latest. */
  lemma TrimmedTwice(x: string, n: nat) returns (w: string)
    requires 1 < n < |x| && x[0] == '`' && !IsWhitespace(x[0])
    requires !IsWhitespace(x[1]) && !IsBacktick(x[1]) && !IsWhitespace(x[n]) && !IsBacktick(x[n])
    ensures w == Trim(TrimMatches(Trim(x), IsBacktick)) && w <= x[1..] && |w| >= n && Trimmed(w)
  {
    var y := Trim(x);
    TrimmedTo(x, n);
    PrefixParts(y, x, n);
    var z := TrimMatches(y, IsBacktick);
    BacktickOff(y, n);
    ShorterPrefix(z, y[1..], n);
    TrimmedTo(z, n - 1);
    w := Trim(z);
    PrefixOf(w, z, y[1..]);
    PrefixOf(w, y[1..], x[1..]);
  }

  lemma PrefixParts(y: string, x: string, n: nat)
    requires y <= x && 1 < n < |y|
    ensures y[0] == x[0] && y[1] == x[1] && y[n] == x[n] && y[1..] <= x[1..]
  {
  }

  lemma ShorterPrefix(z: string, y: string, n: nat)
    requires z <= y && 1 < n <= |z|
    ensures z[0] == y[0] && z[n - 1] == y[n - 1]
  {
  }

  lemma PrefixOf(a: string, b: string, c: string)
    requires a <= b <= c
    ensures a <= c
  {
  }

  lemma WordsOfTwo(kind: string, word: string, tail: string, w: string)
    requires NoWhitespace(kind) && NoWhitespace(word) && word != "" && kind != ""
    requires w == kind + [' '] + (word + [' '] + tail) && Trimmed(w)
    ensures Words(Trim(w)) == [kind] + ([word] + Words(tail))
  {
    TrimExactly(w);
    WordFirst(kind, word + [' '] + tail);
    WordFirst(word, tail);
  }

  lemma WordFirst(word: string, tail: string)
    requires word != "" && NoWhitespace(word)
    ensures Words(word + [' '] + tail) == [word] + Words(tail)
  {
    CutAtSpaceIs(word, ' ', tail);
  }

  lemma WordsThatDecide(s: string, parts: seq<string>)
    requires Words(Trim(s)) == parts && |parts| >= 2 && parts[0] == SSH_KEY_TYPE
    ensures FromSshString(s) == KeyOfBlob(parts[1])
  {
  }

  /** The first of the earlier separators that occurs. */
  lemma {:induction false} FirstEarlier(rest: string, n: nat) returns (m: nat)
    requires n <= 4 && exists k :: 0 <= k < n && Occurs(rest, DASHES[k])
    ensures m < n && Occurs(rest, DASHES[m]) && forall k :: 0 <= k < m ==> !Occurs(rest, DASHES[k])
  {
    if k :| 0 <= k < n - 1 && Occurs(rest, DASHES[k]) {
      m := FirstEarlier(rest, n - 1);
    } else {
      m := n - 1;
    }
  }

  /** An earlier separator can only stand behind the dash of the later one. */
  lemma EarlierStandsBehind(n: nat, tag: string, m: nat)
    requires m < n < 4 && Occurs(DASHES[n] + tag, DASHES[m])
    ensures Find(DASHES[n] + tag, DASHES[m]).Some? && Find(DASHES[n] + tag, DASHES[m]).value >= 2
  {
    var rest := DASHES[n] + tag;
    FindExactly(rest, DASHES[m]);
    DashesAreDashed();
    NotAtStart(n, tag, m);
    var at := Find(rest, DASHES[m]).value;
    assert rest[0..] == rest && DASHES[m] <= rest[at..];
    assert rest[at] == ' ' && rest[1] == DASHES[n][1];
  }

  lemma NotAtStart(n: nat, tag: string, m: nat)
    requires m < n < 4
    ensures !(DASHES[m] <= DASHES[n] + tag)
  {
    DashesAreDashed();
    DashesDiffer(m, n);
    if DASHES[m] <= DASHES[n] + tag {
      SameStart(DASHES[m], DASHES[n], tag);
    }
  }

  lemma SameStart(a: string, b: string, tag: string)
    requires |a| >= 3 && |b| >= 3 && a <= b + tag
    ensures a[..3] == b[..3]
  {
    assert a[..3] == (b + tag)[..3];
  }

  lemma DashesDiffer(m: nat, n: nat)
    requires m < n < 4
    ensures DASHES[m][..3] != DASHES[n][..3]
  {
    assert DASHES[0][1] == '\U{2014}' && DASHES[1][1] == '\U{2013}' && DASHES[2][1] == '-' && DASHES[3][1] == '-';
    assert DASHES[2][2] == '-' && DASHES[3][2] == ' ';
    assert DASHES[m][..3][1] == DASHES[m][1] && DASHES[n][..3][1] == DASHES[n][1];
    assert DASHES[m][..3][2] == DASHES[m][2] && DASHES[n][..3][2] == DASHES[n][2];
  }

  lemma LegacyDropped(kind: string, blob: string, n: nat, tag: string)
    requires KeyShape(kind, blob) && n < 4 && !Clear(n, tag)
    ensures Dropped(Quoted(kind + [' '] + blob) + (DASHES[n] + tag))
  {
    var q, rest := Quoted(kind + [' '] + blob), DASHES[n] + tag;
    QuotedIsQuiet(kind, blob);
    var more, label' := SplitLate(q, n, tag, rest);
    var keyPart := q + [' ', rest[1]] + more;
    NotRead(kind, blob, rest[1], more, keyPart);
    DashesAreDashed();
    BadSplit(q + rest, DASHES, keyPart, label');
  }

  /** The line has a key text, but it does not read as a key. */
  predicate Dropped(body: string) {
    BodyParts(body).Some? && FromSshString(BodyParts(body).value.0).Err?
  }

  /** A separator found behind the dash cuts too late. */
  lemma SplitLate(q: string, n: nat, tag: string, rest: string) returns (more: string, label': string)
    requires Quiet(q) && n < 4 && !Clear(n, tag) && rest == DASHES[n] + tag
    ensures |rest| >= 2 && IsDash(rest[1]) && SplitKeyAndLabel(q + rest, DASHES) == (q + [' ', rest[1]] + more, label')
  {
    var m, at := FirstFound(q, n, tag, rest);
    SplitFurtherBehind(q, rest, DASHES, m);
    more, label' := rest[2..at], SplitKeyAndLabel(q + rest, DASHES).1;
  }

  lemma FirstFound(q: string, n: nat, tag: string, rest: string) returns (m: nat, at: nat)
    requires Quiet(q) && n < 4 && !Clear(n, tag) && rest == DASHES[n] + tag
    ensures |rest| >= 2 && rest[0] == ' ' && IsDash(rest[1]) && m < 4 && 2 <= at <= |rest|
    ensures Find(rest, DASHES[m]) == Some(at) && Find(q + rest, DASHES[m]) == Some(|q| + at) && NoneFound(q + rest, DASHES, m)
  {
    DashesAreDashed();
    m := FirstEarlier(rest, n);
    EarlierStandsBehind(n, tag, m);
    at := Find(rest, DASHES[m]).value;
    NoneEarlier(q, rest, m);
    FoundBehind(q, rest, DASHES[m]);
  }

  lemma FoundBehind(q: string, rest: string, sep: string)
    requires Quiet(q) && Dashed(sep) && Find(rest, sep).Some?
    ensures Find(q + rest, sep) == Some(|q| + Find(rest, sep).value)
  {
    FindBehind(q, rest, sep);
  }

  lemma BadSplit(body: string, seps: seq<string>, keyPart: string, tag: string)
    requires body != "" && body[0] == '`' && seps == SEPARATORS && SplitKeyAndLabel(body, seps) == (keyPart, tag)
    requires FromSshString(Trim(TrimMatches(Trim(keyPart), IsBacktick))).Err?
    ensures Dropped(body)
  {
    PartsOfSplit(body, keyPart, tag);
  }

  lemma SplitFurtherBehind(q: string, rest: string, seps: seq<string>, m: nat)
    requires m < |seps| && Find(rest, seps[m]).Some? && Find(rest, seps[m]).value >= 2 && |rest| >= 2 && rest[0] == ' '
    requires Find(q + rest, seps[m]) == Some(|q| + Find(rest, seps[m]).value)
    requires NoneFound(q + rest, seps, m)
    ensures SplitKeyAndLabel(q + rest, seps).0 == q + [' ', rest[1]] + rest[2..Find(rest, seps[m]).value]
  {
    var at := Find(rest, seps[m]).value;
    var body := q + rest;
    KeyPartAt(body, q, rest, at);
    SplitFound(body, seps, m, |q| + at, |q| + at + |seps[m]|);
  }

  lemma KeyPartAt(body: string, q: string, rest: string, at: nat)
    requires body == q + rest && 2 <= at <= |rest| && rest[0] == ' '
    ensures body[..|q| + at] == q + [' ', rest[1]] + rest[2..at]
  {
  }

  lemma NotRead(kind: string, blob: string, dash: char, more: string, x: string)
    requires KeyShape(kind, blob) && IsDash(dash) && x == Quoted(kind + [' '] + blob) + [' ', dash] + more
    ensures FromSshString(Trim(TrimMatches(Trim(x), IsBacktick))).Err?
  {
    assert x == "`" + (kind + [' '] + blob + "`" + [' ', dash] + more);
    var w, words := BacktickStays(kind, blob, dash, more, x);
    ForeignSecondWord(w, kind, blob, words);
  }

  // ---- The law ----

  /**
   * A key in backticks, a separator and a label, behind any marker and white space, are read as that
   * key with that label exactly if no separator tried earlier occurs behind the key; otherwise the
   * line is dropped.
   */
  lemma LegacyLineReadsExactly(space: string, marker: string, pk: Pubkey, n: nat, tag: string)
    requires AllSpace(space) && IsMarker(marker) && n < 4 && GoodLabel(tag)
    ensures Entry(space + marker + ("`" + ToSshString(pk) + "`" + ([" \U{2014} ", " \U{2013} ", " -- ", " - "][n] + tag)))
         == if Clear(n, tag) then [AuthorizedPeer(pk, tag)] else []
  {
    var blob := Padded(KeyWire(pk));
    var key := ToSshString(pk);
    var body := Quoted(key) + (DASHES[n] + tag);
    KeyHasShape(pk);
    LineBody(space, marker, body);
    var line := space + marker + body;
    if Clear(n, tag) {
      LegacyRead(SSH_KEY_TYPE, blob, n, tag);
      KeyRoundTrip(pk);
      PartsDecide(line, key, AuthorizedPeer(pk, tag));
    } else {
      LegacyDropped(SSH_KEY_TYPE, blob, n, tag);
      BadPartsDecide(line);
    }
  }

  lemma BadPartsDecide(line: string)
    requires LineParts(line).Some? && FromSshString(LineParts(line).value.0).Err?
    ensures Entry(line) == []
  {
  }

  /** Without a separator the label is empty. */
  lemma LegacyLineAlone(space: string, marker: string, pk: Pubkey)
    requires AllSpace(space) && IsMarker(marker)
    ensures Entry(space + marker + ("`" + ToSshString(pk) + "`")) == [AuthorizedPeer(pk, "")]
  {
    var key := ToSshString(pk);
    KeyHasShape(pk);
    LegacyAlone(SSH_KEY_TYPE, Padded(KeyWire(pk)));
    LineBody(space, marker, Quoted(key));
    KeyRoundTrip(pk);
    PartsDecide(space + marker + Quoted(key), key, AuthorizedPeer(pk, ""));
  }

  /** A label that starts with an em dash, behind a hyphen: the line is dropped. */
  lemma DashInLabelDrops(pk: Pubkey)
    ensures Entry("- `" + ToSshString(pk) + "` - \U{2014} bob") == []
  {
    var tag := "\U{2014} bob";
    BobIsUnclear(tag);
    LegacyLineReadsExactly("", "- ", pk, 3, tag);
    BobLine(ToSshString(pk), tag);
  }

  lemma BobIsUnclear(tag: string)
    requires tag == "\U{2014} bob"
    ensures !Clear(3, tag) && GoodLabel(tag)
  {
    var rest := DASHES[3] + tag;
    assert rest[2..] == " \U{2014} bob" && DASHES[0] <= rest[2..];
    assert Occurs(rest, DASHES[0]);
    assert !IsWhitespace(tag[0]) && !IsWhitespace(tag[|tag| - 1]);
  }

  lemma BobLine(key: string, tag: string)
    requires tag == "\U{2014} bob"
    ensures "" + "- " + ("`" + key + "`" + (" - " + tag)) == "- `" + key + "` - \U{2014} bob"
  {
    assert "- `" == "- " + "`" && "` - \U{2014} bob" == "`" + (" - " + tag);
  }
}
