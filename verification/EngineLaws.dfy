/** What a pass achieves, what it leaves alone, and how it meets the ingest side. */
module EngineLaws {
  import opened Wrappers
  import opened Paths
  import opened DocumentState
  import opened DocumentRuns
  import opened Suppression
  import opened Engine

  /** The map tells the truth about the disk. */
  predicate Truthful(c: Cell) {
    c.materialized.Some? ==> c.disk.Some? && Digest(c.disk.value) == c.materialized.value
  }

  /** The document may take over what is on disk: nothing, the same bytes, or bytes it already has. */
  predicate Free(c: Cell, b: Bytes) {
    Owned(c) || c.disk == Some(b)
  }

  /** Nothing on disk, or what the engine last wrote or last took in. */
  predicate Owned(c: Cell) {
    c.disk.None? || c.materialized == Some(Digest(c.disk.value)) || c.ingested == Some(Digest(c.disk.value))
  }

  /** The pass writes or adopts: the map does not hold the wanted hash, and the disk is free for it. */
  predicate TakesOver(c: Cell, b: Bytes) {
    c.materialized != Some(Digest(b)) && Free(c, b)
  }

  /** Blobs are stored under their own digests. */
  predicate Addressed(blobs: map<Hash, Bytes>) {
    forall h :: h in blobs ==> h == Digest(blobs[h])
  }

  /**
   * One pass without I/O failure, for any path. Content the document may take over becomes the
   * document's, unless the map says it is there already; any other content stays. A dead path is
   * removed from the maps, and from disk if it was materialized and not edited since.
   */
  lemma PassConverges(files: Files, blobs: map<Hash, Bytes>, live: map<Path, Listed>, p: Path, c: Cell)
    requires Lists(files, live) && Addressed(blobs)
    ensures var t, c' := TargetOf(files, blobs, live, p), PassCell(c, TargetOf(files, blobs, live, p), true);
            && (Truthful(c) ==> Truthful(c'))
            && (c'.materialized.Some? ==> LiveFileAt(files, p) || c' == c)
            && (!LiveFileAt(files, p) ==>
                  && c'.materialized.None? && c'.ingested.None?
                  && c'.disk == (if c.materialized.Some? && Owned(c) then None else c.disk))
            && (t.Wanted? ==> (c'.disk == Some(t.bytes) <==> c.disk == Some(t.bytes) || TakesOver(c, t.bytes)))
            && (t.Wanted? && TakesOver(c, t.bytes) ==> c'.materialized == Some(Digest(t.bytes)))
            && (t.Wanted? && !TakesOver(c, t.bytes) ==> c' == c)
            && (t.Unavailable? ==> c' == c)
            && (t.Wanted? && Truthful(c) ==> (c'.disk == Some(t.bytes) <==> Free(c, t.bytes)))
    ensures UniqueFiles(files) ==> forall id :: id in files && files[id].LiveAt(p) && files[id].kind.Text? ==>
              var text := files[id].text.GetOr([]); TargetOf(files, blobs, live, p) == Wanted(Digest(text), text)
    ensures UniqueFiles(files) ==> forall id :: id in files && files[id].LiveAt(p) && files[id].kind.Attachment? ==>
              TargetOf(files, blobs, live, p) ==
              match files[id].binaryHash
              case Some(h) => if h in blobs then Wanted(h, blobs[h]) else Unavailable
              case None => Unavailable
  {
    if p in live {
      assert files[live[p].id].LiveAt(p);
    }
    if UniqueFiles(files) {
      forall id | id in files && files[id].LiveAt(p) && files[id].kind.Text?
        ensures var text := files[id].text.GetOr([]); TargetOf(files, blobs, live, p) == Wanted(Digest(text), text)
      {
        TextIsWanted(files, blobs, live, id);
      }
    }
  }

  /** A pass deletes a file exactly if it was materialized, is dead, and has not been edited since. */
  lemma DeletesExactly(files: Files, blobs: map<Hash, Bytes>, live: map<Path, Listed>, p: Path, c: Cell)
    requires Lists(files, live)
    ensures c.disk.Some? && PassCell(c, TargetOf(files, blobs, live, p), true).disk.None?
       <==> c.disk.Some? && c.materialized.Some? && !LiveFileAt(files, p) && Owned(c)
  {
    if p in live {
      assert files[live[p].id].LiveAt(p);
    }
  }

  /** Content that is not the wanted one gives way exactly if it is what was last materialized or last taken in. */
  lemma OverwritesExactly(c: Cell, t: Target, b: Bytes)
    requires t.Wanted? && t.hash == Digest(t.bytes) && c.disk == Some(b) && c.materialized != Some(t.hash)
    ensures PassCell(c, t, true).disk == Some(t.bytes)
       <==> b == t.bytes || c.materialized == Some(Digest(b)) || c.ingested == Some(Digest(b))
    ensures PassCell(c, t, true).disk != Some(t.bytes) ==> PassCell(c, t, true) == c
  {}

  /** So does the content of a dead path, if the path was materialized at all. */
  lemma DeadGivesWayExactly(c: Cell, b: Bytes)
    requires c.disk == Some(b)
    ensures PassCell(c, Dead, true).disk.None?
       <==> c.materialized.Some? && (c.materialized == Some(Digest(b)) || c.ingested == Some(Digest(b)))
  {}

  /**
   * What a pass has written and nobody has touched since, the next pass makes the document's, however
   * the document moves in between and whatever was taken in before: new content, or nothing.
   */
  method PassAfterPass(b: Binding, path: Path, now: int, later: int, moved: State) returns (wrote: bool, live: map<Path, Listed>)
    requires Addressed(b.blobs)
    modifies b, b.doc, b.dirty
    ensures wrote ==> Lists(moved.files, live) && b.doc.S() == moved && b.blobs == old(b.blobs)
    ensures wrote && TargetOf(moved.files, b.blobs, live, path).Wanted? ==>
              Lookup(b.disk, path) == Some(TargetOf(moved.files, b.blobs, live, path).bytes)
    ensures wrote && !LiveFileAt(moved.files, path) ==> path !in b.disk && path !in b.materialized
    ensures wrote && UniqueFiles(moved.files) ==> forall id ::
              id in moved.files && moved.files[id].LiveAt(path) && moved.files[id].kind.Text? ==>
              Lookup(b.disk, path) == Some(moved.files[id].text.GetOr([]))
  {
    var bytes;
    wrote, bytes := PassWrites(b, path, now, now);
    if !wrote {
      return wrote, map[];
    }
    b.doc.files, b.doc.dirs := moved.files, moved.dirs;
    ghost var c := b.StateAt(path, later).cell;
    assert c.disk == Some(bytes) && c.materialized == Some(Digest(bytes));
    live := b.Materialize(later, _ => true);
    ghost var t := TargetOf(moved.files, b.blobs, live, path);
    PassConverges(moved.files, b.blobs, live, path, c);
    assert b.StateAt(path, later).cell == PassCell(c, t, true);
  }

  /** What is missing on disk is written back exactly if the map does not hold the wanted hash already. */
  lemma MissingIsWrittenExactly(c: Cell, t: Target)
    requires t.Wanted? && c.disk.None?
    ensures PassCell(c, t, true).disk == Some(t.bytes) <==> c.materialized != Some(t.hash)
    ensures c.materialized == Some(t.hash) ==> PassCell(c, t, true) == c
  {}

  /** A live text file is always wanted, with the text the document has for it. */
  lemma TextIsWanted(files: Files, blobs: map<Hash, Bytes>, live: map<Path, Listed>, id: FileId)
    requires Lists(files, live) && UniqueFiles(files)
    requires id in files && files[id].Live() && files[id].kind.Text?
    ensures TargetOf(files, blobs, live, files[id].path) ==
            Wanted(Digest(files[id].text.GetOr([])), files[id].text.GetOr([]))
  {
    assert files[id].LiveAt(files[id].path);
  }

  /** From any start, a second pass over an unchanged document touches neither disk nor maps. */
  lemma SecondPassIdle(c: Cell, t: Target)
    ensures var c' := PassCell(c, t, true);
            PassCell(c', t, true) == c' && MarkLeft(c', t, true) == None
  {}

  /** With unique live paths there is only one listing. */
  lemma OneListing(files: Files, a: map<Path, Listed>, b: map<Path, Listed>)
    requires UniqueFiles(files) && Lists(files, a) && Lists(files, b)
    ensures a == b
  {
    forall p ensures p in a <==> p in b {
      assert p in a ==> files[a[p].id].LiveAt(p);
      assert p in b ==> files[b[p].id].LiveAt(p);
    }
  }

  /** Running both passes for real: the second changes no path and marks nothing. */
  method MaterializeTwice(b: Binding, now: int) returns (live: map<Path, Listed>, live': map<Path, Listed>)
    modifies b, b.dirty
    ensures UniqueFiles(b.doc.files) ==> live == live'
    ensures live == live' ==>
              forall p :: b.StateAt(p, now) == PassState(old(b.StateAt(p, now)), TargetOf(b.doc.files, b.blobs, live, p), true, now)
  {
    ghost var d0, m0, i0, e0, files, store := b.disk, b.materialized, b.lastIngested, b.dirty.entries, b.doc.files, b.blobs;
    live := b.Materialize(now, _ => true);
    ghost var d1, m1, i1, e1 := b.disk, b.materialized, b.lastIngested, b.dirty.entries;
    assert forall p :: b.StateAt(p, now) == PassState(Observe(d0, m0, i0, e0, p, now), TargetOf(files, store, live, p), true, now);
    assert forall p :: b.StateAt(p, now) == Observe(d1, m1, i1, e1, p, now);
    live' := b.Materialize(now, _ => true);
    if UniqueFiles(files) {
      OneListing(files, live, live');
    }
    forall p | live == live'
      ensures b.StateAt(p, now) == PassState(Observe(d0, m0, i0, e0, p, now), TargetOf(files, store, live, p), true, now)
    {
      var t := TargetOf(files, store, live, p);
      SecondPassIdle(Observe(d0, m0, i0, e0, p, now).cell, t);
    }
  }

  // ---- Echoes ----

  lemma {:induction false} MarkStillCounts(marks: seq<Mark>, m: Mark, later: int)
    requires m in marks && later - m.at < TTL
    ensures HasMark(Unexpired(marks, later), m.hash)
  {
    var init, last := marks[..|marks| - 1], marks[|marks| - 1];
    if m == last {
      var kept := Unexpired(marks, later);
      assert kept[|kept| - 1].hash == m.hash;
    } else {
      MarkStillCounts(init, m, later);
      var i :| 0 <= i < |Unexpired(init, later)| && Unexpired(init, later)[i].hash == m.hash;
      assert Unexpired(marks, later)[i].hash == m.hash;
    }
  }

  /** A pass that put new content at a path left a mark that answers for it until the TTL is over. */
  lemma EchoMark(s: PathState, t: Target, marks: seq<Mark>, now: int, later: int)
    requires Unexpired(marks, now) == PassState(s, t, true, now).marks && now <= later < now + TTL
    requires PassState(s, t, true, now).cell.disk.Some? && PassState(s, t, true, now).cell.disk != s.cell.disk
    ensures t.Wanted? && PassState(s, t, true, now).cell.disk == Some(t.bytes)
    ensures HasMark(Unexpired(marks, later), t.hash)
  {
    assert Unexpired(marks, now) == s.marks + [Mark(t.hash, now)];
    UnexpiredLater(marks, now, later);
    MarkStillCounts(Unexpired(marks, now), Mark(t.hash, now), later);
  }

  /**
   * A pass writes `path`. Within five seconds the document moves on to any state, the disk changes
   * anywhere but at `path`, and the file is taken in. The ingest is suppressed (or refused for
   * size), so the document keeps what it has become.
   */
  method WriteThenEcho(b: Binding, path: Path, now: int, later: int, moved: State, others: map<Path, Bytes>)
    returns (wrote: bool, outcome: Outcome)
    requires IsNormal(path) && now <= later < now + TTL && Addressed(b.blobs)
    modifies b, b.doc, b.dirty
    ensures wrote ==> outcome == Suppressed || outcome == TooLarge
    ensures wrote ==> b.doc.S() == moved && b.blobs == old(b.blobs)
    ensures wrote ==> path in b.disk && b.disk == others[path := b.disk[path]]
    ensures wrote <==> path in b.disk && old(Lookup(b.disk, path)) != Some(b.disk[path])
  {
    var bytes;
    wrote, bytes := PassWrites(b, path, now, later);
    if !wrote {
      return wrote, Unread;
    }
    b.doc.files, b.doc.dirs := moved.files, moved.dirs;
    b.disk := others[path := bytes];
    var seen;
    seen, outcome := b.IngestFile(path, later, Some(bytes));
  }

  /** One pass, and whether it put new content at `path`; if so, a mark answers for that content until `later`. */
  method PassWrites(b: Binding, path: Path, now: int, later: int) returns (wrote: bool, bytes: Bytes)
    requires now <= later < now + TTL && Addressed(b.blobs)
    modifies b, b.dirty
    ensures b.doc.S() == old(b.doc.S()) && b.blobs == old(b.blobs)
    ensures wrote <==> path in b.disk && old(Lookup(b.disk, path)) != Some(b.disk[path])
    ensures wrote ==> b.disk[path] == bytes && Lookup(b.materialized, path) == Some(Digest(bytes))
    ensures wrote ==> HasMark(Unexpired(MarksAt(b.dirty.entries, path), later), Digest(bytes))
  {
    var before := Lookup(b.disk, path);
    ghost var s0 := b.StateAt(path, now);
    var live := b.Materialize(now, _ => true);
    wrote := path in b.disk && before != Some(b.disk[path]);
    bytes := if wrote then b.disk[path] else [];
    if wrote {
      EchoMark(s0, TargetOf(b.doc.files, b.blobs, live, path), MarksAt(b.dirty.entries, path), now, later);
    }
  }

  /**
   * An empty file while the document has text for it: only what a second read finds is taken in. If
   * that fails nothing happens; if it finds content, the text does not become empty.
   */
  method TruncatedIsReadAgain(b: Binding, path: Path, now: int, reread: Option<Bytes>, ghost id: FileId)
    returns (seen: Option<Bytes>, outcome: Outcome)
    requires IsNormal(path) && UniqueFiles(b.doc.files) && path in b.disk && b.disk[path] == []
    requires id in b.doc.files && b.doc.files[id].LiveAt(path)
    requires b.doc.files[id].text.Some? && b.doc.files[id].text.value != []
    modifies b, b.doc, b.dirty
    ensures seen == reread
    ensures reread.None? ==> outcome == Unread && b.doc.S() == old(b.doc.S()) && b.blobs == old(b.blobs)
    ensures reread.Some? && reread.value != [] ==>
              id in b.doc.files && b.doc.files[id].text.Some? && b.doc.files[id].text.value != []
  {
    assert MayHoldContent(b.doc.files, path);
    seen, outcome := b.IngestFile(path, now, reread);
  }

  // ---- Edits taken in, then materialized ----

  /**
   * The live file at `p` became an attachment but its entry still holds the text `b` from before.
   * Ingest compares with that text and finds nothing to do.
   */
  ghost predicate StaleText(files: Files, blobs: map<Hash, Bytes>, p: Path, b: Bytes) {
    exists id :: id in files && files[id].LiveAt(p) && files[id].text == Some(b)
      && files[id].kind.Attachment? && files[id].binaryHash.Some?
      && files[id].binaryHash.value in blobs && files[id].binaryHash.value != Digest(b)
  }

  /** What ingest leaves behind for the path it took in, whichever of its three ways it went. */
  ghost predicate TakenIn(files: Files, blobs: map<Hash, Bytes>, p: Path, b: Bytes) {
    || TextHeldAt(files, p, b)
    || exists id :: id in files && files[id].LiveAt(p) && files[id].kind.Attachment?
         && files[id].binaryHash == Some(Digest(b)) && Digest(b) in blobs
  }

  /** Each capturing outcome of ingest leaves the path taken in. */
  lemma CaptureTakesIn(s: State, s': State, blobs: map<Hash, Bytes>, p: Path, b: Bytes, now: int, id: FileId)
    ensures TextWritten(s, s', p, b, now, id) ==> TakenIn(s'.files, blobs, p, b)
    ensures AttachmentWritten(s, s', p, Digest(b), |b|, now, id) ==> TakenIn(s'.files, Stored(blobs, b), p, b)
  {
    if TextWritten(s, s', p, b, now, id) {
      assert s'.files[id].LiveAt(p) && s'.files[id].text == Some(b);
    }
    if AttachmentWritten(s, s', p, Digest(b), |b|, now, id) {
      assert s'.files[id].LiveAt(p);
    }
  }

  /**
   * After an edit is taken in, the next pass leaves it on disk exactly when its entry is not an
   * attachment with stale text; in that one case the pass puts the old attachment back.
   */
  lemma TakenInSurvivesExactly(files: Files, blobs: map<Hash, Bytes>, live: map<Path, Listed>, p: Path, b: Bytes)
    requires Lists(files, live) && UniqueFiles(files) && Addressed(blobs)
    requires TakenIn(files, blobs, p, b)
    ensures var c := Cell(Some(b), Some(Digest(b)), Some(Digest(b)));
            PassCell(c, TargetOf(files, blobs, live, p), true).disk == Some(b) <==> !StaleText(files, blobs, p, b)
  {
    assert LiveFileAt(files, p);
    var here := live[p].id;
    assert files[here].LiveAt(p);
    forall id | id in files && files[id].LiveAt(p) ensures id == here {}
  }

  /**
   * The one case is reached by three ordinary edits: text `a`, then undecodable bytes `z`, then
   * `a` again. The third is not recorded and the pass restores `z`.
   */
  lemma StaleTextReverts(a: Bytes, z: Bytes) returns (s1: State, s2: State, live: map<Path, Listed>)
    requires a != z
    ensures TextWritten(State(map[], map[]), s1, "n.md", a, 1, 0)
    ensures AttachmentWritten(s1, s2, "n.md", Digest(z), |z|, 2, 0)
    ensures TextHeldAt(s2.files, "n.md", a) && Lists(s2.files, live)
    ensures PassCell(Cell(Some(a), Some(Digest(a)), Some(Digest(a))),
                     TargetOf(s2.files, map[Digest(z) := z], live, "n.md"), true).disk == Some(z)
  {
    var e1 := FileEntry("n.md", Text, |a|, 1, 1, None, Some(a), None);
    var e2 := e1.(kind := Attachment, size := |z|, updatedAt := 2, binaryHash := Some(Digest(z)));
    s1, s2 := State(map[0 := e1], map[]), State(map[0 := e2], map[]);
    live := map["n.md" := Listed(0, Attachment, Some(Digest(z)))];
    assert s1.files[0].LiveAt("n.md") && s2.files[0].LiveAt("n.md");
    forall d ensures !IsAncestor(d, "n.md") {
      assert forall i :: 0 <= i < 4 ==> "n.md"[i] != '/';
    }
  }
}
