/**
 * No loss, over every interleaving of user writes, document changes, blob arrivals, ingests and
 * any number of concurrent passes working from snapshots that may be stale: whatever the engine
 * overwrites or deletes on disk was held by the document or the blob store before.
 */
module EngineRuns {
  import opened Wrappers
  import opened Paths
  import opened DocumentState
  import opened Engine
  import opened EngineLaws

  /** A pass in flight: its listing, its copies of the maps, targets read, hashes still to record. */
  datatype Pass = Pass(
    live: map<Path, Listed>,
    existing: Option<map<Path, Hash>>,
    ingested: Option<map<Path, Hash>>,
    loaded: map<Path, (Hash, Bytes)>,
    done: map<Path, Hash>)

  /** An ingest in flight: what it read, and whether the document or the store has it yet. */
  datatype Intake = Intake(path: Path, bytes: Bytes, captured: bool)

  datatype World = World(
    doc: State, blobs: map<Hash, Bytes>, disk: map<Path, Bytes>,
    materialized: map<Path, Hash>, lastIngested: map<Path, Hash>,
    passes: map<nat, Pass>, intakes: map<nat, Intake>)

  datatype Move =
    | UserWrites(path: Path, content: Option<Bytes>)
    | DocumentMoves(doc: State)
    | BlobArrives(bytes: Bytes)
    | PassLists(k: nat, live: map<Path, Listed>)
    | PassCopiesMaterialized(k: nat)
    | PassCopiesIngested(k: nat)
    | PassDeletes(k: nat, path: Path)
    | PassLoads(k: nat, path: Path)
    | PassDecides(k: nat, path: Path, io: bool)
    | PassRecords(k: nat, path: Path)
    | PassForgetsMaterialized(k: nat)
    | PassForgetsIngested(k: nat)
    | IntakeReads(k: nat, path: Path)
    | IntakeFindsText(k: nat)
    | IntakeWritesText(k: nat, doc: State, now: int, id: FileId)
    | IntakeStoresBlob(k: nat)
    | IntakeRecords(k: nat)
    | IntakeRecordsIngested(k: nat)

  /** Only these two actions of the engine touch the disk. */
  predicate TouchesDisk(a: Move) {
    a.PassDeletes? || a.PassDecides?
  }

  ghost predicate Start(w: World) {
    w.materialized == map[] && w.lastIngested == map[] && w.passes == map[] && w.intakes == map[] && Addressed(w.blobs)
  }

  function WithPass(w: World, k: nat, p: Pass): World {
    w.(passes := w.passes[k := p])
  }

  function WithIntake(w: World, k: nat, i: Intake): World {
    w.(intakes := w.intakes[k := i])
  }

  ghost predicate Step(w: World, a: Move, w': World) {
    match a
    case UserWrites(p, content) =>
      w' == w.(disk := if content.Some? then w.disk[p := content.value] else w.disk - {p})
    case DocumentMoves(doc) => w' == w.(doc := doc)
    case BlobArrives(bytes) => w' == w.(blobs := Stored(w.blobs, bytes))
    case PassLists(k, live) => Lists(w.doc.files, live) && w' == WithPass(w, k, Pass(live, None, None, map[], map[]))
    case PassCopiesMaterialized(k) =>
      k in w.passes && w' == WithPass(w, k, w.passes[k].(existing := Some(w.materialized)))
    case PassCopiesIngested(k) =>
      k in w.passes && w' == WithPass(w, k, w.passes[k].(ingested := Some(w.lastIngested)))
    case PassDeletes(k, p) =>
      && Ready(w, k) && p in w.passes[k].existing.value && p !in w.passes[k].live
      && w' == if DeleteAction(Lookup(w.disk, p), Existing(w, k, p), Ingested(w, k, p)) == Defer then w
               else w.(disk := w.disk - {p})
    case PassLoads(k, p) =>
      && Ready(w, k) && TargetOf(w.doc.files, w.blobs, w.passes[k].live, p).Wanted?
      && var t := TargetOf(w.doc.files, w.blobs, w.passes[k].live, p);
         w' == WithPass(w, k, w.passes[k].(loaded := w.passes[k].loaded[p := (t.hash, t.bytes)]))
    case PassDecides(k, p, io) =>
      && Ready(w, k) && p in w.passes[k].loaded
      && var (hash, bytes) := w.passes[k].loaded[p];
         w' == (match WriteAction(Lookup(w.disk, p), Existing(w, k, p), Ingested(w, k, p), hash)
               case Adopt => WithPass(w, k, w.passes[k].(done := w.passes[k].done[p := hash]))
               case Overwrite =>
                 if io then WithPass(w, k, w.passes[k].(done := w.passes[k].done[p := hash])).(disk := w.disk[p := bytes])
                 else w
               case _ => w)
    case PassRecords(k, p) =>
      k in w.passes && p in w.passes[k].done && w' == w.(materialized := w.materialized[p := w.passes[k].done[p]])
    case PassForgetsMaterialized(k) =>
      && k in w.passes
      && w' == w.(materialized := map p | p in w.materialized && p in w.passes[k].live :: w.materialized[p])
    case PassForgetsIngested(k) =>
      && k in w.passes
      && w' == w.(lastIngested := map p | p in w.lastIngested && p in w.passes[k].live :: w.lastIngested[p],
                  passes := w.passes - {k})
    case IntakeReads(k, p) => p in w.disk && w' == WithIntake(w, k, Intake(p, w.disk[p], false))
    case IntakeFindsText(k) =>
      && k in w.intakes && TextHeldAt(w.doc.files, w.intakes[k].path, w.intakes[k].bytes)
      && w' == WithIntake(w, k, w.intakes[k].(captured := true))
    case IntakeWritesText(k, doc, now, id) =>
      && k in w.intakes && TextWritten(w.doc, doc, w.intakes[k].path, w.intakes[k].bytes, now, id)
      && w' == WithIntake(w, k, w.intakes[k].(captured := true)).(doc := doc)
    case IntakeStoresBlob(k) =>
      && k in w.intakes
      && w' == WithIntake(w, k, w.intakes[k].(captured := true)).(blobs := Stored(w.blobs, w.intakes[k].bytes))
    case IntakeRecords(k) =>
      && k in w.intakes && w.intakes[k].captured
      && w' == w.(materialized := w.materialized[w.intakes[k].path := Digest(w.intakes[k].bytes)])
    case IntakeRecordsIngested(k) =>
      && k in w.intakes && w.intakes[k].captured
      && w' == w.(lastIngested := w.lastIngested[w.intakes[k].path := Digest(w.intakes[k].bytes)])
  }

  /** The pass has listed the files and copied both maps. */
  predicate Ready(w: World, k: nat) {
    k in w.passes && w.passes[k].existing.Some? && w.passes[k].ingested.Some?
  }

  function Existing(w: World, k: nat, p: Path): Option<Hash>
    requires Ready(w, k)
  {
    Lookup(w.passes[k].existing.value, p)
  }

  function Ingested(w: World, k: nat, p: Path): Option<Hash>
    requires Ready(w, k)
  {
    Lookup(w.passes[k].ingested.value, p)
  }

  ghost predicate IsRun(run: seq<World>, acts: seq<Move>) {
    && |run| == |acts| + 1 && Start(run[0])
    && forall i :: 0 <= i < |acts| ==> Step(run[i], acts[i], run[i + 1])
  }

  /** Some file entry or some blob has exactly these bytes. */
  ghost predicate Holds(w: World, b: Bytes) {
    || (exists id :: id in w.doc.files && w.doc.files[id].text == Some(b))
    || (exists h :: h in w.blobs && w.blobs[h] == b)
  }

  ghost predicate HeldBy(run: seq<World>, i: nat, b: Bytes) {
    exists j :: 0 <= j <= i < |run| && Holds(run[j], b)
  }

  /**
   * The digest of bytes held by then. Without `strict`, the digest of nothing is let through: a
   * text file whose entry has no text object reads as empty.
   */
  ghost predicate Known(run: seq<World>, i: nat, h: Hash, strict: bool) {
    h.Digest? && (HeldBy(run, i, h.of) || (!strict && h.of == []))
  }

  ghost predicate AllKnown(run: seq<World>, i: nat, m: map<Path, Hash>, strict: bool) {
    forall p :: p in m ==> Known(run, i, m[p], strict)
  }

  /** Every file listed as text was a text file at some earlier point of the run. */
  ghost predicate ListedByThen(run: seq<World>, i: nat, live: map<Path, Listed>) {
    forall p :: p in live && live[p].kind.Text? ==> WasText(run, i, live[p].id)
  }

  ghost predicate WasText(run: seq<World>, i: nat, id: FileId) {
    exists j :: 0 <= j <= i < |run| && id in run[j].doc.files && run[j].doc.files[id].kind.Text?
  }

  /** Entries never vanish, and one that was ever a text file keeps a text. */
  ghost predicate TextsKept(run: seq<World>) {
    forall i, id :: 0 <= i < |run| && WasText(run, i, id) ==> id in run[i].doc.files && run[i].doc.files[id].text.Some?
  }

  ghost predicate PassKnown(run: seq<World>, i: nat, p: Pass, strict: bool) {
    && (p.existing.Some? ==> AllKnown(run, i, p.existing.value, strict))
    && (p.ingested.Some? ==> AllKnown(run, i, p.ingested.value, strict))
    && (forall q :: q in p.loaded ==> Known(run, i, p.loaded[q].0, strict))
    && AllKnown(run, i, p.done, strict)
    && ListedByThen(run, i, p.live)
  }

  ghost predicate Inv(run: seq<World>, i: nat, strict: bool)
    requires i < |run|
  {
    var w := run[i];
    && Addressed(w.blobs)
    && AllKnown(run, i, w.materialized, strict)
    && AllKnown(run, i, w.lastIngested, strict)
    && (forall k :: k in w.passes ==> PassKnown(run, i, w.passes[k], strict))
    && (forall k :: k in w.intakes && w.intakes[k].captured ==> HeldBy(run, i, w.intakes[k].bytes))
  }

  lemma KnownLater(run: seq<World>, i: nat, m: map<Path, Hash>, strict: bool)
    requires i + 1 < |run| && AllKnown(run, i, m, strict)
    ensures AllKnown(run, i + 1, m, strict)
  {
    forall p | p in m ensures Known(run, i + 1, m[p], strict) {
      if HeldBy(run, i, m[p].of) {
        HeldLater(run, i, m[p].of);
      }
    }
  }

  lemma HeldLater(run: seq<World>, i: nat, b: Bytes)
    requires i + 1 < |run| && HeldBy(run, i, b)
    ensures HeldBy(run, i + 1, b)
  {
    var j :| 0 <= j <= i && Holds(run[j], b);
  }

  lemma PassKnownLater(run: seq<World>, i: nat, p: Pass, strict: bool)
    requires i + 1 < |run| && PassKnown(run, i, p, strict)
    ensures PassKnown(run, i + 1, p, strict)
  {
    if p.existing.Some? {
      KnownLater(run, i, p.existing.value, strict);
    }
    if p.ingested.Some? {
      KnownLater(run, i, p.ingested.value, strict);
    }
    KnownLater(run, i, p.done, strict);
    var hashes := map q | q in p.loaded :: p.loaded[q].0;
    assert forall q :: q in p.loaded ==> hashes[q] == p.loaded[q].0;
    KnownLater(run, i, hashes, strict);
    forall q | q in p.live && p.live[q].kind.Text? ensures WasText(run, i + 1, p.live[q].id) {
      var j :| 0 <= j <= i && p.live[q].id in run[j].doc.files && run[j].doc.files[p.live[q].id].kind.Text?;
    }
  }

  /** Everything known at `i` is known at `i + 1`. */
  lemma InvCarries(run: seq<World>, i: nat, strict: bool)
    requires i + 1 < |run| && Inv(run, i, strict)
    ensures AllKnown(run, i + 1, run[i].materialized, strict) && AllKnown(run, i + 1, run[i].lastIngested, strict)
    ensures forall k :: k in run[i].passes ==> PassKnown(run, i + 1, run[i].passes[k], strict)
    ensures forall k :: k in run[i].intakes && run[i].intakes[k].captured ==> HeldBy(run, i + 1, run[i].intakes[k].bytes)
  {
    KnownLater(run, i, run[i].materialized, strict);
    KnownLater(run, i, run[i].lastIngested, strict);
    forall k | k in run[i].passes ensures PassKnown(run, i + 1, run[i].passes[k], strict) {
      PassKnownLater(run, i, run[i].passes[k], strict);
    }
    forall k | k in run[i].intakes && run[i].intakes[k].captured ensures HeldBy(run, i + 1, run[i].intakes[k].bytes) {
      HeldLater(run, i, run[i].intakes[k].bytes);
    }
  }

  /** What a pass reads as its target has been held: a text by its entry, a blob by the store. */
  lemma TargetIsKnown(run: seq<World>, i: nat, live: map<Path, Listed>, p: Path, strict: bool)
    requires i < |run| && Addressed(run[i].blobs) && ListedByThen(run, i, live)
    requires strict ==> TextsKept(run)
    requires TargetOf(run[i].doc.files, run[i].blobs, live, p).Wanted?
    ensures Known(run, i, TargetOf(run[i].doc.files, run[i].blobs, live, p).hash, strict)
  {
    var w := run[i];
    var t := TargetOf(w.doc.files, w.blobs, live, p);
    if live[p].kind.Text? {
      var id := live[p].id;
      assert WasText(run, i, id);
      if id in w.doc.files && w.doc.files[id].text.Some? {
        assert Holds(w, t.bytes);
      }
    } else {
      assert Holds(w, t.bytes);
    }
  }

  /** The facts of `Inv`, carried over to the next state's history but about this state's data. */
  ghost predicate Carried(run: seq<World>, i: nat, strict: bool)
    requires i + 1 < |run|
  {
    var w := run[i];
    && Addressed(w.blobs)
    && AllKnown(run, i + 1, w.materialized, strict)
    && AllKnown(run, i + 1, w.lastIngested, strict)
    && (forall k :: k in w.passes ==> PassKnown(run, i + 1, w.passes[k], strict))
    && (forall k :: k in w.intakes && w.intakes[k].captured ==> HeldBy(run, i + 1, w.intakes[k].bytes))
  }

  lemma OutsideStep(run: seq<World>, a: Move, i: nat, strict: bool)
    requires i + 1 < |run| && Carried(run, i, strict) && Step(run[i], a, run[i + 1])
    requires a.UserWrites? || a.DocumentMoves? || a.BlobArrives?
    ensures Inv(run, i + 1, strict)
  {}

  lemma PassStep(run: seq<World>, a: Move, i: nat, strict: bool)
    requires i + 1 < |run| && Carried(run, i, strict) && Step(run[i], a, run[i + 1])
    requires a.PassCopiesMaterialized? || a.PassCopiesIngested? || a.PassDeletes? || a.PassRecords? || a.PassForgetsMaterialized? || a.PassForgetsIngested?
    ensures Inv(run, i + 1, strict)
  {
    if a.PassRecords? {
      assert PassKnown(run, i + 1, run[i].passes[a.k], strict);
    }
  }

  lemma PassDecidesStep(run: seq<World>, a: Move, i: nat, strict: bool)
    requires i + 1 < |run| && Carried(run, i, strict) && Step(run[i], a, run[i + 1])
    requires a.PassDecides?
    ensures Inv(run, i + 1, strict)
  {
    var w, w' := run[i], run[i + 1];
    assert PassKnown(run, i + 1, w.passes[a.k], strict);
    assert Known(run, i + 1, w.passes[a.k].loaded[a.path].0, strict);
    assert w'.passes.Keys == w.passes.Keys;
    forall k | k in w'.passes ensures PassKnown(run, i + 1, w'.passes[k], strict) {
      assert PassKnown(run, i + 1, w.passes[k], strict);
    }
  }

  lemma PassListsStep(run: seq<World>, a: Move, i: nat, strict: bool)
    requires i + 1 < |run| && Carried(run, i, strict) && Step(run[i], a, run[i + 1])
    requires a.PassLists?
    ensures Inv(run, i + 1, strict)
  {
    forall p | p in a.live && a.live[p].kind.Text? ensures WasText(run, i + 1, a.live[p].id) {
      assert a.live[p].id in run[i].doc.files && run[i].doc.files[a.live[p].id].kind.Text?;
    }
    assert PassKnown(run, i + 1, run[i + 1].passes[a.k], strict);
  }

  lemma PassLoadsStep(run: seq<World>, a: Move, i: nat, strict: bool)
    requires i + 1 < |run| && Carried(run, i, strict) && Step(run[i], a, run[i + 1])
    requires a.PassLoads? && Inv(run, i, strict)
    requires strict ==> TextsKept(run)
    ensures Inv(run, i + 1, strict)
  {
    var w := run[i];
    assert PassKnown(run, i, w.passes[a.k], strict);
    TargetIsKnown(run, i, w.passes[a.k].live, a.path, strict);
    var hash := TargetOf(w.doc.files, w.blobs, w.passes[a.k].live, a.path).hash;
    if HeldBy(run, i, hash.of) {
      HeldLater(run, i, hash.of);
    }
    assert PassKnown(run, i + 1, w.passes[a.k], strict);
    assert PassKnown(run, i + 1, run[i + 1].passes[a.k], strict);
  }

  lemma IntakeStep(run: seq<World>, a: Move, i: nat, strict: bool)
    requires i + 1 < |run| && Carried(run, i, strict) && Step(run[i], a, run[i + 1])
    requires a.IntakeReads? || a.IntakeFindsText? || a.IntakeWritesText? || a.IntakeStoresBlob?
             || a.IntakeRecords? || a.IntakeRecordsIngested?
    ensures Inv(run, i + 1, strict)
  {
    var w, w' := run[i], run[i + 1];
    match a
    case IntakeFindsText(k) =>
      assert Holds(w, w.intakes[k].bytes);
    case IntakeWritesText(k, doc, now, id) =>
      assert w'.doc.files[id].text == Some(w.intakes[k].bytes);
      assert Holds(w', w.intakes[k].bytes);
    case IntakeStoresBlob(k) =>
      assert w'.blobs[Digest(w.intakes[k].bytes)] == w.intakes[k].bytes;
      assert Holds(w', w.intakes[k].bytes);
    case _ =>
  }

  lemma InvStep(run: seq<World>, acts: seq<Move>, i: nat, strict: bool)
    requires IsRun(run, acts) && i < |acts| && Inv(run, i, strict)
    requires strict ==> TextsKept(run)
    ensures Inv(run, i + 1, strict)
  {
    InvCarries(run, i, strict);
    var a := acts[i];
    assert Carried(run, i, strict) && Step(run[i], a, run[i + 1]);
    if a.UserWrites? || a.DocumentMoves? || a.BlobArrives? {
      OutsideStep(run, a, i, strict);
    } else if a.PassLists? {
      PassListsStep(run, a, i, strict);
    } else if a.PassLoads? {
      PassLoadsStep(run, a, i, strict);
    } else if a.PassDecides? {
      PassDecidesStep(run, a, i, strict);
    } else if a.PassCopiesMaterialized? || a.PassCopiesIngested? || a.PassDeletes? || a.PassRecords? || a.PassForgetsMaterialized? || a.PassForgetsIngested? {
      PassStep(run, a, i, strict);
    } else {
      IntakeStep(run, a, i, strict);
    }
  }

  lemma {:induction false} InvHolds(run: seq<World>, acts: seq<Move>, i: nat, strict: bool)
    requires IsRun(run, acts) && i < |run|
    requires strict ==> TextsKept(run)
    ensures Inv(run, i, strict)
  {
    if i > 0 {
      InvHolds(run, acts, i - 1, strict);
      InvStep(run, acts, i - 1, strict);
    }
  }

  lemma TouchedIsKnown(run: seq<World>, acts: seq<Move>, i: nat, p: Path, strict: bool)
    requires IsRun(run, acts) && i < |acts| && Inv(run, i, strict)
    requires TouchesDisk(acts[i]) && p in run[i].disk && Lookup(run[i + 1].disk, p) != Some(run[i].disk[p])
    ensures Known(run, i, Digest(run[i].disk[p]), strict)
  {
    var w, a := run[i], acts[i];
    assert Step(w, a, run[i + 1]);
    assert PassKnown(run, i, w.passes[a.k], strict);
    assert a.path == p;
    assert IsSafeToOverwrite(Digest(w.disk[p]), Existing(w, a.k, p), Ingested(w, a.k, p));
  }

  /**
   * No loss: whatever non-empty content the engine overwrites or deletes, at any point of any
   * run, was held by a file of the document or by the blob store at that point or before.
   */
  lemma NoLoss(run: seq<World>, acts: seq<Move>, i: nat, p: Path)
    requires IsRun(run, acts) && i < |acts|
    requires TouchesDisk(acts[i]) && p in run[i].disk && Lookup(run[i + 1].disk, p) != Some(run[i].disk[p])
    ensures HeldBy(run, i, run[i].disk[p]) || run[i].disk[p] == []
  {
    InvHolds(run, acts, i, false);
    TouchedIsKnown(run, acts, i, p, false);
  }

  /** If every text file keeps a text object, as all operations here see to, not even emptiness is excepted. */
  lemma NoLossAtAll(run: seq<World>, acts: seq<Move>, i: nat, p: Path)
    requires IsRun(run, acts) && i < |acts| && TextsKept(run)
    requires TouchesDisk(acts[i]) && p in run[i].disk && Lookup(run[i + 1].disk, p) != Some(run[i].disk[p])
    ensures HeldBy(run, i, run[i].disk[p])
  {
    InvHolds(run, acts, i, true);
    TouchedIsKnown(run, acts, i, p, true);
  }
}
