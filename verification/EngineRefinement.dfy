/**
 * The loops of the binding are runs: what `Materialize` and `IngestFile` do is done by a sequence
 * of the moves over which no loss is proved.
 */
module EngineRefinement {
  import opened Wrappers
  import opened Paths
  import opened DocumentState
  import opened Engine
  import opened EngineRuns

  // ---- Sequences of moves ----

  ghost predicate Leads(w: World, acts: seq<Move>, w': World)
    decreases |acts|
  {
    if acts == [] then w == w' else exists mid :: Step(w, acts[0], mid) && Leads(mid, acts[1..], w')
  }

  lemma {:induction false} LeadsAppend(w: World, a: seq<Move>, mid: World, b: seq<Move>, w': World)
    requires Leads(w, a, mid) && Leads(mid, b, w')
    ensures Leads(w, a + b, w')
    decreases |a|
  {
    if a == [] {
      assert a + b == b;
    } else {
      var next :| Step(w, a[0], next) && Leads(next, a[1..], mid);
      LeadsAppend(next, a[1..], mid, b, w');
      assert (a + b)[1..] == a[1..] + b && (a + b)[0] == a[0];
    }
  }

  /** The moves a pass makes. */
  predicate OfPass(acts: seq<Move>) {
    forall i :: 0 <= i < |acts| ==>
      acts[i].PassLists? || acts[i].PassCopiesMaterialized? || acts[i].PassCopiesIngested? || acts[i].PassDeletes?
      || acts[i].PassLoads? || acts[i].PassDecides? || acts[i].PassRecords?
      || acts[i].PassForgetsMaterialized? || acts[i].PassForgetsIngested?
  }

  lemma OneMove(w: World, a: Move, w': World)
    requires Step(w, a, w')
    ensures Leads(w, [a], w')
  {
    assert [a][1..] == [];
    assert Leads(w', [], w');
  }

  /** A sequence of moves is a stretch of a run. */
  lemma {:induction false} LeadsExtendsRun(run: seq<World>, before: seq<Move>, acts: seq<Move>, w': World)
    returns (longer: seq<World>)
    requires IsRun(run, before) && Leads(run[|before|], acts, w')
    ensures IsRun(longer, before + acts) && run <= longer && longer[|longer| - 1] == w'
    decreases |acts|
  {
    if acts == [] {
      assert before + acts == before;
      longer := run;
    } else {
      var mid :| Step(run[|before|], acts[0], mid) && Leads(mid, acts[1..], w');
      longer := LeadsExtendsRun(run + [mid], before + [acts[0]], acts[1..], w');
      assert before + [acts[0]] + acts[1..] == before + acts;
    }
  }

  // ---- One path of a pass ----

  function CellAt(w: World, p: Path): Cell {
    Cell(Lookup(w.disk, p), Lookup(w.materialized, p), Lookup(w.lastIngested, p))
  }

  /** Nothing but the cell of `p` and the notes of pass `k` differ. */
  ghost predicate OnlyAt(w: World, w': World, k: nat, p: Path) {
    && k in w.passes && k in w'.passes && w'.passes[k].live == w.passes[k].live
    && w'.passes[k].existing == w.passes[k].existing && w'.passes[k].ingested == w.passes[k].ingested
    && w'.doc == w.doc && w'.blobs == w.blobs && w'.intakes == w.intakes && w'.passes - {k} == w.passes - {k}
    && (forall q :: q != p ==> CellAt(w', q) == CellAt(w, q))
  }

  /** The pass has its copies, and `p` is as it was when they were made. */
  ghost predicate Untouched(w: World, k: nat, p: Path) {
    Ready(w, k) && Existing(w, k, p) == Lookup(w.materialized, p) && Ingested(w, k, p) == Lookup(w.lastIngested, p)
  }

  lemma DeleteMoves(w: World, k: nat, p: Path, io: bool) returns (acts: seq<Move>, w': World)
    requires Untouched(w, k, p) && p !in w.passes[k].live
    ensures Leads(w, acts, w') && OfPass(acts) && OnlyAt(w, w', k, p) && CellAt(w', p) == DeleteStep(CellAt(w, p), io)
  {
    if p !in w.materialized || !io || DeleteAction(Lookup(w.disk, p), Existing(w, k, p), Ingested(w, k, p)) == Defer {
      acts, w' := [], w;
    } else {
      w' := w.(disk := w.disk - {p});
      acts := [PassDeletes(k, p)];
      assert p in w.passes[k].existing.value;
      OneMove(w, acts[0], w');
    }
  }

  lemma WriteMoves(w: World, k: nat, p: Path, io: bool) returns (acts: seq<Move>, w': World)
    requires Untouched(w, k, p)
    ensures var t := TargetOf(w.doc.files, w.blobs, w.passes[k].live, p);
      Leads(w, acts, w') && OfPass(acts) && OnlyAt(w, w', k, p) && CellAt(w', p) == WriteStep(CellAt(w, p), t, io)
  {
    var t := TargetOf(w.doc.files, w.blobs, w.passes[k].live, p);
    if !t.Wanted? {
      return [], w;
    }
    var w1 := WithPass(w, k, w.passes[k].(loaded := w.passes[k].loaded[p := (t.hash, t.bytes)]));
    OneMove(w, PassLoads(k, p), w1);
    var more;
    more, w' := DecideMoves(w1, k, p, io, t);
    acts := [PassLoads(k, p)] + more;
    LeadsAppend(w, [PassLoads(k, p)], w1, more, w');
    OnlyNotes(w, w1, k, p);
    OnlyAtThen(w, w1, w', k, p);
  }

  lemma OnlyNotes(w: World, w': World, k: nat, p: Path)
    requires k in w.passes && k in w'.passes && w' == WithPass(w, k, w'.passes[k])
    requires w'.passes[k].live == w.passes[k].live
    requires w'.passes[k].existing == w.passes[k].existing && w'.passes[k].ingested == w.passes[k].ingested
    ensures OnlyAt(w, w', k, p) && CellAt(w', p) == CellAt(w, p)
  {
    assert w'.passes - {k} == w.passes - {k};
  }

  lemma OnlyAtThen(w: World, mid: World, w': World, k: nat, p: Path)
    requires OnlyAt(w, mid, k, p) && OnlyAt(mid, w', k, p)
    ensures OnlyAt(w, w', k, p)
  {
  }

  /** With the target in hand: skip, adopt, defer or overwrite, and record what was done. */
  lemma DecideMoves(w: World, k: nat, p: Path, io: bool, t: Target) returns (acts: seq<Move>, w': World)
    requires Untouched(w, k, p) && t.Wanted? && p in w.passes[k].loaded && w.passes[k].loaded[p] == (t.hash, t.bytes)
    ensures Leads(w, acts, w') && OfPass(acts) && OnlyAt(w, w', k, p) && CellAt(w', p) == WriteStep(CellAt(w, p), t, io)
  {
    var action := WriteAction(Lookup(w.disk, p), Existing(w, k, p), Ingested(w, k, p), t.hash);
    if action == Skip || action == Defer || (action == Overwrite && !io) {
      return [], w;
    }
    var noted := WithPass(w, k, w.passes[k].(done := w.passes[k].done[p := t.hash]));
    OnlyNotes(w, noted, k, p);
    var mid := if action == Adopt then noted else noted.(disk := w.disk[p := t.bytes]);
    assert Step(w, PassDecides(k, p, io), mid);
    OneMove(w, PassDecides(k, p, io), mid);
    DiskOnly(w, noted, mid, k, p, t.bytes);
    acts, w' := RecordMoves(w, mid, k, p, io, t.hash);
  }

  lemma DiskOnly(w: World, noted: World, mid: World, k: nat, p: Path, b: Bytes)
    requires OnlyAt(w, noted, k, p) && noted.disk == w.disk
    requires mid == noted || mid == noted.(disk := w.disk[p := b])
    ensures OnlyAt(w, mid, k, p)
  {
  }

  lemma RecordMoves(w: World, mid: World, k: nat, p: Path, io: bool, hash: Hash) returns (acts: seq<Move>, w': World)
    requires Leads(w, [PassDecides(k, p, io)], mid) && OnlyAt(w, mid, k, p)
    requires p in mid.passes[k].done && mid.passes[k].done[p] == hash
    ensures Leads(w, acts, w') && OfPass(acts) && OnlyAt(w, w', k, p)
    ensures CellAt(w', p) == CellAt(mid, p).(materialized := Some(hash))
  {
    w' := mid.(materialized := mid.materialized[p := hash]);
    OneMove(mid, PassRecords(k, p), w');
    acts := [PassDecides(k, p, io)] + [PassRecords(k, p)];
    LeadsAppend(w, [PassDecides(k, p, io)], mid, [PassRecords(k, p)], w');
  }

  // ---- All paths of a pass ----

  /** What both loops make of one path: only dead paths are deleted, only live ones are written. */
  function LoopStep(files: Files, blobs: map<Hash, Bytes>, live: map<Path, Listed>, p: Path, c: Cell, io: bool): Cell {
    if p in live then WriteStep(c, TargetOf(files, blobs, live, p), io) else DeleteStep(c, io)
  }

  lemma PathMoves(w: World, k: nat, p: Path, io: bool) returns (acts: seq<Move>, w': World)
    requires Untouched(w, k, p)
    ensures Leads(w, acts, w') && OfPass(acts) && OnlyAt(w, w', k, p)
    ensures CellAt(w', p) == LoopStep(w.doc.files, w.blobs, w.passes[k].live, p, CellAt(w, p), io)
  {
    if p in w.passes[k].live {
      acts, w' := WriteMoves(w, k, p, io);
    } else {
      acts, w' := DeleteMoves(w, k, p, io);
    }
  }

  /** Everything a pass does not work on is the same. */
  ghost predicate SamePass(w: World, w': World, k: nat) {
    && k in w.passes && k in w'.passes && w'.passes[k].live == w.passes[k].live
    && w'.passes[k].existing == w.passes[k].existing && w'.passes[k].ingested == w.passes[k].ingested
    && w'.doc == w.doc && w'.blobs == w.blobs && w'.intakes == w.intakes && w'.passes - {k} == w.passes - {k}
  }

  lemma StillUntouched(w: World, mid: World, k: nat, p: Path, q: Path)
    requires OnlyAt(w, mid, k, p) && q != p && Untouched(w, k, q)
    ensures Untouched(mid, k, q)
  {
    assert CellAt(mid, q) == CellAt(w, q);
  }

  lemma {:induction false} LoopMoves(w: World, k: nat, paths: set<Path>, io: Path -> bool, files: Files,
                                     blobs: map<Hash, Bytes>, live: map<Path, Listed>)
    returns (acts: seq<Move>, w': World)
    requires k in w.passes && files == w.doc.files && blobs == w.blobs && live == w.passes[k].live
    requires forall p :: p in paths ==> Untouched(w, k, p)
    ensures Leads(w, acts, w') && OfPass(acts) && SamePass(w, w', k)
    ensures forall p :: p in paths ==> CellAt(w', p) == LoopStep(files, blobs, live, p, CellAt(w, p), io(p))
    ensures forall p :: p !in paths ==> CellAt(w', p) == CellAt(w, p)
    decreases |paths|
  {
    if paths == {} {
      acts, w' := [], w;
    } else {
      var p :| p in paths;
      var first, mid := PathMoves(w, k, p, io(p));
      forall q | q in paths - {p} ensures Untouched(mid, k, q) {
        StillUntouched(w, mid, k, p, q);
      }
      var rest;
      rest, w' := LoopMoves(mid, k, paths - {p}, io, files, blobs, live);
      acts := first + rest;
      LeadsAppend(w, first, mid, rest, w');
      LoopJoins(w, mid, w', k, p, paths, io, files, blobs, live);
    }
  }

  lemma LoopJoins(w: World, mid: World, w': World, k: nat, p: Path, paths: set<Path>, io: Path -> bool,
                  files: Files, blobs: map<Hash, Bytes>, live: map<Path, Listed>)
    requires OnlyAt(w, mid, k, p) && SamePass(mid, w', k) && p in paths
    requires CellAt(mid, p) == LoopStep(files, blobs, live, p, CellAt(w, p), io(p))
    requires forall q :: q in paths - {p} ==> CellAt(w', q) == LoopStep(files, blobs, live, q, CellAt(mid, q), io(q))
    requires forall q :: q !in paths - {p} ==> CellAt(w', q) == CellAt(mid, q)
    ensures SamePass(w, w', k)
    ensures forall q :: q in paths ==> CellAt(w', q) == LoopStep(files, blobs, live, q, CellAt(w, q), io(q))
    ensures forall q :: q !in paths ==> CellAt(w', q) == CellAt(w, q)
  {
    forall q | q in paths ensures CellAt(w', q) == LoopStep(files, blobs, live, q, CellAt(w, q), io(q)) {
      if q != p {
        assert q in paths - {p} && CellAt(mid, q) == CellAt(w, q);
      }
    }
  }

  lemma StartMoves(w: World, k: nat, live: map<Path, Listed>) returns (acts: seq<Move>, w': World)
    requires Lists(w.doc.files, live)
    ensures Leads(w, acts, w') && OfPass(acts) && k in w'.passes && w'.passes[k].live == live
    ensures w' == w.(passes := w.passes[k := w'.passes[k]]) && forall p :: Untouched(w', k, p)
  {
    var w1 := WithPass(w, k, Pass(live, None, None, map[], map[]));
    var w2 := WithPass(w1, k, w1.passes[k].(existing := Some(w.materialized)));
    w' := WithPass(w2, k, w2.passes[k].(ingested := Some(w.lastIngested)));
    OneMove(w, PassLists(k, live), w1);
    OneMove(w1, PassCopiesMaterialized(k), w2);
    OneMove(w2, PassCopiesIngested(k), w');
    LeadsAppend(w, [PassLists(k, live)], w1, [PassCopiesMaterialized(k)], w2);
    acts := [PassLists(k, live)] + [PassCopiesMaterialized(k)] + [PassCopiesIngested(k)];
    LeadsAppend(w, [PassLists(k, live)] + [PassCopiesMaterialized(k)], w2, [PassCopiesIngested(k)], w');
    assert w'.passes == w.passes[k := w'.passes[k]];
  }

  lemma ForgetMoves(w: World, k: nat) returns (acts: seq<Move>, w': World)
    requires k in w.passes
    ensures Leads(w, acts, w') && OfPass(acts)
    ensures w'.doc == w.doc && w'.blobs == w.blobs && w'.intakes == w.intakes && w'.passes == w.passes - {k}
    ensures forall p :: p in w.passes[k].live ==> CellAt(w', p) == CellAt(w, p)
    ensures forall p :: p !in w.passes[k].live ==> CellAt(w', p) == CellAt(w, p).(materialized := None, ingested := None)
  {
    var live := w.passes[k].live;
    var kept := Retain(w.materialized, live);
    var w1 := w.(materialized := kept);
    w' := w1.(lastIngested := Retain(w.lastIngested, live), passes := w1.passes - {k});
    OneMove(w, PassForgetsMaterialized(k), w1);
    OneMove(w1, PassForgetsIngested(k), w');
    acts := [PassForgetsMaterialized(k)] + [PassForgetsIngested(k)];
    LeadsAppend(w, [PassForgetsMaterialized(k)], w1, [PassForgetsIngested(k)], w');
  }

  /** `retain` of the live paths. */
  function Retain(m: map<Path, Hash>, live: map<Path, Listed>): (r: map<Path, Hash>)
    ensures forall p :: Lookup(r, p) == if p in live then Lookup(m, p) else None
  {
    map p | p in m && p in live :: m[p]
  }

  /** A whole pass, in moves: every path ends as one pass leaves it. */
  lemma PassMoves(w: World, k: nat, live: map<Path, Listed>, io: Path -> bool) returns (acts: seq<Move>, w': World)
    requires Lists(w.doc.files, live) && k !in w.passes
    ensures Leads(w, acts, w') && OfPass(acts)
    ensures w'.doc == w.doc && w'.blobs == w.blobs && w'.intakes == w.intakes && w'.passes == w.passes
    ensures forall p :: CellAt(w', p) == PassCell(CellAt(w, p), TargetOf(w.doc.files, w.blobs, live, p), io(p))
  {
    var a, w1 := StartMoves(w, k, live);
    var paths := live.Keys + w.materialized.Keys;
    var b, w2 := LoopMoves(w1, k, paths, io, w.doc.files, w.blobs, live);
    var c, w3 := ForgetMoves(w2, k);
    LeadsAppend(w, a, w1, b, w2);
    LeadsAppend(w, a + b, w2, c, w3);
    acts, w' := a + b + c, w3;
    forall p ensures CellAt(w', p) == PassCell(CellAt(w, p), TargetOf(w.doc.files, w.blobs, live, p), io(p)) {
      assert CellAt(w1, p) == CellAt(w, p);
      var loops := if p in paths then LoopStep(w.doc.files, w.blobs, live, p, CellAt(w, p), io(p)) else CellAt(w, p);
      assert CellAt(w2, p) == loops;
      CellOfPass(w.doc.files, w.blobs, live, p, CellAt(w, p), io(p));
    }
    assert w1.passes - {k} == w.passes;
  }

  /** The loops and then the forgetting are the pass; a dead path that was not materialized is not looped over. */
  lemma CellOfPass(files: Files, blobs: map<Hash, Bytes>, live: map<Path, Listed>, p: Path, c: Cell, io: bool)
    requires Lists(files, live)
    ensures p in live ==> PassCell(c, TargetOf(files, blobs, live, p), io) == LoopStep(files, blobs, live, p, c, io)
    ensures p !in live ==> PassCell(c, TargetOf(files, blobs, live, p), io)
                           == LoopStep(files, blobs, live, p, c, io).(materialized := None, ingested := None)
    ensures p !in live && c.materialized.None? ==> LoopStep(files, blobs, live, p, c, io) == c
  {
  }

  // ---- The methods of the binding ----

  /** The world as the binding has it. */
  ghost predicate Shows(w: World, b: Binding)
    reads b, b.doc
  {
    w.doc == b.doc.S() && w.blobs == b.blobs && w.disk == b.disk
    && w.materialized == b.materialized && w.lastIngested == b.lastIngested
  }

  /** Running a pass of the binding moves the world it shows by a sequence of moves. */
  method MaterializeIsMoves(b: Binding, now: int, io: Path -> bool, ghost w: World, ghost k: nat)
    returns (ghost acts: seq<Move>, ghost w': World)
    requires Shows(w, b) && k !in w.passes
    modifies b, b.dirty
    ensures Leads(w, acts, w') && OfPass(acts) && Shows(w', b)
  {
    assert forall p :: b.StateAt(p, now).cell == CellAt(w, p);
    var live := b.Materialize(now, io);
    acts, w' := PassMoves(w, k, live, io);
    forall p ensures CellAt(w', p) == Cell(Lookup(b.disk, p), Lookup(b.materialized, p), Lookup(b.lastIngested, p)) {
      assert CellAt(w', p) == b.StateAt(p, now).cell;
    }
    SameCells(w', b.disk, b.materialized, b.lastIngested);
  }

  lemma SameCells(w: World, disk: map<Path, Bytes>, materialized: map<Path, Hash>, ingested: map<Path, Hash>)
    requires forall p :: CellAt(w, p) == Cell(Lookup(disk, p), Lookup(materialized, p), Lookup(ingested, p))
    ensures w.disk == disk && w.materialized == materialized && w.lastIngested == ingested
  {
    forall p ensures Lookup(w.disk, p) == Lookup(disk, p) && Lookup(w.materialized, p) == Lookup(materialized, p)
                     && Lookup(w.lastIngested, p) == Lookup(ingested, p)
    {
      assert CellAt(w, p) == Cell(Lookup(disk, p), Lookup(materialized, p), Lookup(ingested, p));
    }
    SameMap(w.disk, disk);
    SameMap(w.materialized, materialized);
    SameMap(w.lastIngested, ingested);
  }

  /** An intake that reads, captures, lets the document follow, and records. */
  lemma IntakeMoves(w: World, k: nat, path: Path, capture: Move, captured: World, doc: State)
    returns (acts: seq<Move>, w': World)
    requires path in w.disk
    requires captured == WithIntake(w, k, Intake(path, w.disk[path], true)).(doc := captured.doc, blobs := captured.blobs)
    requires Step(WithIntake(w, k, Intake(path, w.disk[path], false)), capture, captured)
    ensures Leads(w, acts, w')
    ensures var h := Digest(w.disk[path]);
      w' == captured.(doc := doc, materialized := w.materialized[path := h], lastIngested := w.lastIngested[path := h])
  {
    var w1 := WithIntake(w, k, Intake(path, w.disk[path], false));
    var w2 := captured.(doc := doc);
    acts, w' := IntakeRecordMoves(w2, k, path, w.disk[path]);
    acts := MoveFirst(captured, DocumentMoves(doc), w2, acts, w');
    acts := MoveFirst(w1, capture, captured, acts, w');
    acts := MoveFirst(w, IntakeReads(k, path), w1, acts, w');
  }

  lemma IntakeRecordMoves(w: World, k: nat, path: Path, bytes: Bytes) returns (acts: seq<Move>, w': World)
    requires k in w.intakes && w.intakes[k] == Intake(path, bytes, true)
    ensures Leads(w, acts, w')
    ensures var h := Digest(bytes);
      w' == w.(materialized := w.materialized[path := h], lastIngested := w.lastIngested[path := h])
  {
    var h := Digest(bytes);
    var mid := w.(materialized := w.materialized[path := h]);
    w' := mid.(lastIngested := mid.lastIngested[path := h]);
    OneMove(mid, IntakeRecordsIngested(k), w');
    acts := MoveFirst(w, IntakeRecords(k), mid, [IntakeRecordsIngested(k)], w');
  }

  lemma MoveFirst(w: World, a: Move, mid: World, acts: seq<Move>, w': World) returns (more: seq<Move>)
    requires Step(w, a, mid) && Leads(mid, acts, w')
    ensures more == [a] + acts && Leads(w, more, w')
  {
    OneMove(w, a, mid);
    more := [a] + acts;
    LeadsAppend(w, [a], mid, acts, w');
  }

  /** What an ingest did to document, store and maps, by its outcome. */
  ghost predicate TookIn(w: World, path: Path, bytes: Bytes, now: int, o: Outcome, after: World) {
    && after.disk == w.disk
    && (match o
        case AlreadyThere => TextHeldAt(w.doc.files, path, bytes) && after.doc == w.doc && after.blobs == w.blobs
        case TextTaken(id) => TextWritten(w.doc, after.doc, path, bytes, now, id) && after.blobs == w.blobs
        case BlobTaken(id) => after.blobs == Stored(w.blobs, bytes)
        case _ => after.doc == w.doc && after.blobs == w.blobs)
    && after.materialized == (if Captures(o) then w.materialized[path := Digest(bytes)] else w.materialized)
    && after.lastIngested == (if Captures(o) then w.lastIngested[path := Digest(bytes)] else w.lastIngested)
  }

  lemma TakingInIsMoves(w: World, k: nat, path: Path, bytes: Bytes, now: int, o: Outcome, after: World)
    returns (acts: seq<Move>, w': World)
    requires path in w.disk && w.disk[path] == bytes && TookIn(w, path, bytes, now, o, after)
    ensures Leads(w, acts, w') && w'.doc == after.doc && w'.blobs == after.blobs && w'.disk == after.disk
    ensures w'.materialized == after.materialized && w'.lastIngested == after.lastIngested
  {
    var reading, read := WithIntake(w, k, Intake(path, bytes, false)), WithIntake(w, k, Intake(path, bytes, true));
    Captured(reading, k);
    match o {
      case AlreadyThere =>
        assert Step(reading, IntakeFindsText(k), read);
        acts, w' := IntakeMoves(w, k, path, IntakeFindsText(k), read, after.doc);
      case TextTaken(id) =>
        var capture, taken := IntakeWritesText(k, after.doc, now, id), read.(doc := after.doc);
        assert Step(reading, capture, taken);
        acts, w' := IntakeMoves(w, k, path, capture, taken, after.doc);
      case BlobTaken(id) =>
        var taken := read.(blobs := after.blobs);
        assert Step(reading, IntakeStoresBlob(k), taken);
        acts, w' := IntakeMoves(w, k, path, IntakeStoresBlob(k), taken, after.doc);
      case _ =>
        acts, w' := [], w;
    }
  }

  /** Marking an intake captured. */
  lemma Captured(w: World, k: nat)
    requires k in w.intakes
    ensures WithIntake(w, k, w.intakes[k].(captured := true)).intakes
         == w.intakes[k := Intake(w.intakes[k].path, w.intakes[k].bytes, true)]
  {
  }

  /**
   * So does taking in a file. When it reads as empty and the second read finds content, the user
   * has written that content in between, and the world shows it.
   */
  method IngestIsMoves(b: Binding, path: Path, now: int, reread: Option<Bytes>, ghost w: World, ghost k: nat)
    returns (seen: Option<Bytes>, ghost acts: seq<Move>, ghost w': World)
    requires IsNormal(path) && Shows(w, b)
    modifies b, b.doc, b.dirty
    ensures Leads(w, acts, w')
    ensures Shows(w'.(disk := b.disk), b) && w'.disk == if seen.Some? then b.disk[path := seen.value] else b.disk
    ensures seen.Some? ==> path in b.disk && (seen == Some(b.disk[path]) || seen == reread)
  {
    var outcome;
    seen, outcome := b.IngestFile(path, now, reread);
    if seen.None? {
      acts, w' := [], w;
      return;
    }
    ghost var bytes := seen.value;
    ghost var w0 := w.(disk := w.disk[path := bytes]);
    OneMove(w, UserWrites(path, Some(bytes)), w0);
    ghost var after := w0.(doc := b.doc.S(), blobs := b.blobs, materialized := b.materialized, lastIngested := b.lastIngested);
    ghost var more;
    more, w' := TakingInIsMoves(w0, k, path, bytes, now, outcome, after);
    acts := [UserWrites(path, Some(bytes))] + more;
    LeadsAppend(w, [UserWrites(path, Some(bytes))], w0, more, w');
  }

  // ---- No loss, for the methods ----

  /** If a stretch of pass moves changes what is at `p`, one of them found the old content there and changed it. */
  lemma {:induction false} SomeMoveChanged(run: seq<World>, acts: seq<Move>, n: nat, p: Path) returns (i: nat)
    requires IsRun(run, acts) && n <= |acts| && OfPass(acts[n..])
    requires p in run[n].disk && Lookup(run[|acts|].disk, p) != Some(run[n].disk[p])
    ensures n <= i < |acts| && TouchesDisk(acts[i])
    ensures p in run[i].disk && run[i].disk[p] == run[n].disk[p]
    ensures Lookup(run[i + 1].disk, p) != Some(run[i].disk[p])
    decreases |acts| - n
  {
    if n == |acts| {
      assert false;
    }
    assert Step(run[n], acts[n], run[n + 1]);
    assert acts[n..][0] == acts[n] && acts[n..][1..] == acts[n + 1..];
    if Lookup(run[n + 1].disk, p) != Some(run[n].disk[p]) {
      i := n;
    } else {
      i := SomeMoveChanged(run, acts, n + 1, p);
    }
  }

  /**
   * A pass of the binding, run in a world that a run has led to, leads that run on, and every
   * non-empty content it overwrites or deletes was held by the document or the blob store by then.
   */
  method MaterializeLosesNothing(b: Binding, now: int, io: Path -> bool, ghost run: seq<World>, ghost before: seq<Move>, ghost k: nat)
    returns (ghost longer: seq<World>, ghost acts: seq<Move>)
    requires IsRun(run, before) && Shows(run[|before|], b) && k !in run[|before|].passes
    modifies b, b.dirty
    ensures IsRun(longer, before + acts) && run <= longer && OfPass(acts) && Shows(longer[|longer| - 1], b)
    ensures forall p :: p in old(b.disk) && Lookup(b.disk, p) != Some(old(b.disk)[p]) && old(b.disk)[p] != [] ==>
              HeldBy(longer, |longer| - 1, old(b.disk)[p])
  {
    ghost var w, disk0 := run[|before|], b.disk;
    ghost var w';
    acts, w' := MaterializeIsMoves(b, now, io, w, k);
    longer := LeadsExtendsRun(run, before, acts, w');
    ghost var all := before + acts;
    assert all[|before|..] == acts;
    forall p | p in disk0 && Lookup(b.disk, p) != Some(disk0[p]) && disk0[p] != []
      ensures HeldBy(longer, |longer| - 1, disk0[p])
    {
      var i := SomeMoveChanged(longer, all, |before|, p);
      NoLoss(longer, all, i, p);
    }
  }

  // ---- The exception for empty content ----

  /** Pass moves leave document and blob store alone. */
  lemma {:induction false} PassKeepsDocument(run: seq<World>, acts: seq<Move>, n: nat, i: nat)
    requires IsRun(run, acts) && n <= i <= |acts| && OfPass(acts[n..])
    ensures run[i].doc == run[n].doc && run[i].blobs == run[n].blobs
  {
    if n < i {
      PassKeepsDocument(run, acts, n, i - 1);
      assert Step(run[i - 1], acts[i - 1], run[i]) && acts[n..][i - 1 - n] == acts[i - 1];
    }
  }

  function OneFile(text: Option<Bytes>): State {
    State(map[0 := FileEntry("n.md", Text, 0, 1, 1, None, text, None)], map[])
  }

  lemma OneFileListed(text: Option<Bytes>) returns (live: map<Path, Listed>)
    ensures live == map["n.md" := Listed(0, Text, None)] && Lists(OneFile(text).files, live)
  {
    live := map["n.md" := Listed(0, Text, None)];
    assert OneFile(text).files[0].LiveAt("n.md");
  }

  /**
   * The exception to no loss: an entry without a text object is materialized as an empty file, and
   * when the entry gets a text the empty content is overwritten although nothing ever held it.
   */
  lemma EmptyContentUnheld(text: Bytes) returns (run: seq<World>, acts: seq<Move>, i: nat)
    requires text != []
    ensures IsRun(run, acts) && i < |acts| && TouchesDisk(acts[i])
    ensures "n.md" in run[i].disk && run[i].disk["n.md"] == [] && Lookup(run[i + 1].disk, "n.md") != Some([])
    ensures !HeldBy(run, i, [])
  {
    var w0 := World(OneFile(None), map[], map[], map[], map[], map[], map[]);
    var first, w1 := FilePass(w0, 0, None);
    var w2 := w1.(doc := OneFile(Some(text)));
    var second, w3 := FilePass(w2, 0, Some(text));
    var run1;
    run1, run, acts := TwoStretches(w0, first, w1, DocumentMoves(w2.doc), w2, second, w3);
    i := SomeMoveChanged(run, acts, |first| + 1, "n.md");
    NothingHeldEmpty(run1, first, run, acts, |first| + 1, text, i);
  }

  lemma TwoStretches(w0: World, first: seq<Move>, w1: World, a: Move, w2: World, second: seq<Move>, w3: World)
    returns (run1: seq<World>, run: seq<World>, acts: seq<Move>)
    requires Start(w0) && Leads(w0, first, w1) && Step(w1, a, w2) && Leads(w2, second, w3)
    ensures IsRun(run1, first) && run1[0] == w0 && IsRun(run, acts) && run1 <= run
    ensures acts == first + [a] + second && acts[|first| + 1..] == second
    ensures run[|first| + 1] == w2 && run[|acts|] == w3
  {
    run1 := LeadsExtendsRun([w0], [], first, w1);
    assert [] + first == first;
    RunGoesOn(run1, first, a, w2);
    run := LeadsExtendsRun(run1 + [w2], first + [a], second, w3);
    acts := first + [a] + second;
    assert run1 <= run1 + [w2] && (run1 + [w2])[|first| + 1] == w2;
  }

  lemma RunGoesOn(run: seq<World>, acts: seq<Move>, a: Move, w: World)
    requires IsRun(run, acts) && Step(run[|acts|], a, w)
    ensures IsRun(run + [w], acts + [a])
  {
    var run', acts' := run + [w], acts + [a];
    forall i | 0 <= i < |acts'| ensures Step(run'[i], acts'[i], run'[i + 1]) {
      if i < |acts| {
        assert Step(run[i], acts[i], run[i + 1]);
      }
    }
  }

  /** One pass over the document of one file, from an empty disk or from empty content that was materialized. */
  lemma FilePass(w: World, k: nat, text: Option<Bytes>) returns (acts: seq<Move>, w': World)
    requires w.doc == OneFile(text) && w.blobs == map[] && w.passes == map[]
    requires CellAt(w, "n.md") == if text.None? then Cell(None, None, None) else Cell(Some([]), Some(Digest([])), None)
    requires text != Some([])
    ensures Leads(w, acts, w') && OfPass(acts) && w'.doc == w.doc && w'.blobs == w.blobs && w'.passes == map[]
    ensures CellAt(w', "n.md") == Cell(Some(text.GetOr([])), Some(Digest(text.GetOr([]))), None)
    ensures "n.md" in w'.disk && w'.disk["n.md"] == text.GetOr([])
  {
    var live := OneFileListed(text);
    acts, w' := PassMoves(w, k, live, _ => true);
    assert TargetOf(w.doc.files, w.blobs, live, "n.md") == Wanted(Digest(text.GetOr([])), text.GetOr([]));
    assert CellAt(w', "n.md").disk == Lookup(w'.disk, "n.md");
  }

  lemma NothingHeldEmpty(run1: seq<World>, first: seq<Move>, run: seq<World>, acts: seq<Move>, n: nat, text: Bytes, i: nat)
    requires text != [] && IsRun(run1, first) && OfPass(first) && IsRun(run, acts) && run1 <= run && n == |first| + 1
    requires n <= |acts| && OfPass(acts[n..]) && i < |run|
    requires run1[0].doc == OneFile(None) && run1[0].blobs == map[]
    requires run[n].doc == OneFile(Some(text)) && run[n].blobs == map[]
    ensures !HeldBy(run, i, [])
  {
    forall j | 0 <= j <= i ensures !Holds(run[j], []) {
      if j < n {
        assert first[0..] == first && run[j] == run1[j];
        PassKeepsDocument(run1, first, 0, j);
      } else {
        PassKeepsDocument(run, acts, n, j);
      }
    }
  }
}
