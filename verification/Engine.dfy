/**
 * One folder bound to the document (`fs/ingest.rs`, `materialize_inner` in `vault.rs`): disk
 * contents become document changes, and the document's live files are written to disk.
 */
module Engine {
  import opened Wrappers
  import opened Paths
  import opened DocumentState
  import opened Document
  import opened DocumentRuns
  import opened Suppression

  /** The binding's options and the foreign UTF-8 check. */
  datatype Policy = Policy(isText: Path -> bool, overSize: (Path, nat) -> bool, utf8: Bytes -> bool)

  /** Content may be overwritten if it is what the engine last wrote or last took in. */
  predicate IsSafeToOverwrite(onDisk: Hash, materialized: Option<Hash>, ingested: Option<Hash>) {
    materialized == Some(onDisk) || ingested == Some(onDisk)
  }

  datatype Action = Skip | Adopt | Defer | Overwrite

  /** The decision on a live path, from the disk now and the maps as the pass read them. */
  function WriteAction(disk: Option<Bytes>, materialized: Option<Hash>, ingested: Option<Hash>, wanted: Hash): Action {
    if materialized == Some(wanted) then Skip
    else if disk.None? then Overwrite
    else if Digest(disk.value) == wanted then Adopt
    else if !IsSafeToOverwrite(Digest(disk.value), materialized, ingested) then Defer
    else Overwrite
  }

  /** The decision on a path that was materialized and is no longer live. */
  function DeleteAction(disk: Option<Bytes>, materialized: Option<Hash>, ingested: Option<Hash>): Action {
    if disk.Some? && !IsSafeToOverwrite(Digest(disk.value), materialized, ingested) then Defer else Overwrite
  }

  /** What one path looks like on disk and in the two maps. */
  datatype Cell = Cell(disk: Option<Bytes>, materialized: Option<Hash>, ingested: Option<Hash>)

  /** What the document wants at a path; a listed attachment may lack its blob. */
  datatype Target = Dead | Unavailable | Wanted(hash: Hash, bytes: Bytes)

  function DeleteStep(c: Cell, deletes: bool): Cell {
    if c.materialized.None? || DeleteAction(c.disk, c.materialized, c.ingested) == Defer || !deletes then c
    else c.(disk := None)
  }

  function WriteStep(c: Cell, t: Target, writes: bool): Cell {
    if !t.Wanted? then c
    else
      match WriteAction(c.disk, c.materialized, c.ingested, t.hash)
      case Adopt => c.(materialized := Some(t.hash))
      case Overwrite => if writes then c.(disk := Some(t.bytes), materialized := Some(t.hash)) else c
      case _ => c
  }

  /** A whole pass as seen from one path; `io` says whether its disk operation succeeds. */
  function PassCell(c: Cell, t: Target, io: bool): Cell {
    if t.Dead? then DeleteStep(c, io).(materialized := None, ingested := None) else WriteStep(c, t, io)
  }

  /** The hash of the mark a pass leaves for one path. */
  function MarkLeft(c: Cell, t: Target, io: bool): Option<Hash> {
    if t.Dead? then
      if c.materialized.Some? && DeleteAction(c.disk, c.materialized, c.ingested) != Defer && io
      then Some(DELETED) else None
    else if t.Wanted? && WriteAction(c.disk, c.materialized, c.ingested, t.hash) == Overwrite then Some(t.hash)
    else None
  }

  /** A path's cell together with its marks that still count. */
  datatype PathState = PathState(cell: Cell, marks: seq<Mark>)

  function Observe(disk: map<Path, Bytes>, materialized: map<Path, Hash>, ingested: map<Path, Hash>,
                   entries: Entries, p: Path, now: int): PathState {
    PathState(Cell(Lookup(disk, p), Lookup(materialized, p), Lookup(ingested, p)), Unexpired(MarksAt(entries, p), now))
  }

  function Marked(s: PathState, t: Target, io: bool, now: int): seq<Mark> {
    match MarkLeft(s.cell, t, io)
    case Some(h) => s.marks + [Mark(h, now)]
    case None => s.marks
  }

  function DeleteState(s: PathState, io: bool, now: int): PathState {
    PathState(DeleteStep(s.cell, io), Marked(s, Dead, io, now))
  }

  function WriteState(s: PathState, t: Target, io: bool, now: int): PathState {
    PathState(WriteStep(s.cell, t, io), if t.Dead? then s.marks else Marked(s, t, io, now))
  }

  function PassState(s: PathState, t: Target, io: bool, now: int): PathState {
    PathState(PassCell(s.cell, t, io), Marked(s, t, io, now))
  }

  /** A pass is the delete loop, then the write loop, then the forgetting, as seen from one path. */
  lemma PassInTwo(s: PathState, t: Target, io: bool, now: int)
    ensures PassState(s, t, io, now) ==
            if t.Dead? then Retained(DeleteState(s, io, now), false) else WriteState(s, t, io, now)
  {}

  lemma NothingToDelete(s: PathState, io: bool, now: int)
    requires s.cell.materialized.None?
    ensures DeleteState(s, io, now) == s
  {}

  function Retained(s: PathState, live: bool): PathState {
    if live then s else s.(cell := s.cell.(materialized := None, ingested := None))
  }

  datatype Listed = Listed(id: FileId, kind: FileKind, hash: Option<Hash>)

  /** `live` is a listing by path of the live files; of several at one path, any may be listed. */
  ghost predicate Lists(files: Files, live: map<Path, Listed>) {
    && (forall p :: p in live ==>
          && live[p].id in files && files[live[p].id].LiveAt(p)
          && live[p] == Listed(live[p].id, files[live[p].id].kind, files[live[p].id].binaryHash))
    && (forall p :: LiveFileAt(files, p) ==> p in live)
  }

  /** `read_file_id(..).unwrap_or_default()`. */
  function TextOf(files: Files, id: FileId): Bytes {
    if id in files then files[id].text.GetOr([]) else []
  }

  function TargetOf(files: Files, blobs: map<Hash, Bytes>, live: map<Path, Listed>, p: Path): Target {
    if p !in live then Dead
    else
      match live[p].kind
      case Text => Wanted(Digest(TextOf(files, live[p].id)), TextOf(files, live[p].id))
      case Attachment =>
        if live[p].hash.Some? && live[p].hash.value in blobs then Wanted(live[p].hash.value, blobs[live[p].hash.value])
        else Unavailable
  }

  /** A live file at `p` whose text object holds `b`, whatever kind the file now has. */
  ghost predicate TextHeldAt(files: Files, p: Path, b: Bytes) {
    exists id :: id in files && files[id].LiveAt(p) && files[id].text == Some(b)
  }

  /** Some live file at `p` has a text object that is not empty. */
  ghost predicate MayHoldContent(files: Files, p: Path) {
    exists id :: id in files && files[id].LiveAt(p) && files[id].text.Some? && files[id].text.value != []
  }

  /** The marks left when `hash` was asked for at `path`: expired ones are gone everywhere, and the first match there. */
  function MarksAfterCheck(entries: Entries, p: Path, path: Path, hash: Hash, now: int): seq<Mark> {
    var left := Unexpired(MarksAt(entries, p), now);
    if p == path then WithoutFirst(left, hash) else left
  }

  datatype Outcome =
    | Unread
    | TooLarge
    | Suppressed
    | AlreadyThere
    | TextTaken(id: FileId)
    | BlobTaken(id: FileId)

  /** The outcomes after which the document or the blob store holds what was read. */
  predicate Captures(o: Outcome) {
    o.AlreadyThere? || o.TextTaken? || o.BlobTaken?
  }

  /** The blob store after a `put`, which does nothing if the blob is there. */
  function Stored(blobs: map<Hash, Bytes>, bytes: Bytes): map<Hash, Bytes> {
    if Digest(bytes) in blobs then blobs else blobs[Digest(bytes) := bytes]
  }

  class Binding {
    const doc: Doc
    const dirty: DirtySet
    const policy: Policy
    var blobs: map<Hash, Bytes>
    var disk: map<Path, Bytes>
    var materialized: map<Path, Hash>
    var lastIngested: map<Path, Hash>

    constructor (doc: Doc, policy: Policy, blobs: map<Hash, Bytes>, disk: map<Path, Bytes>)
      ensures this.doc == doc && this.policy == policy && this.blobs == blobs && this.disk == disk
      ensures materialized == lastIngested == map[] && fresh(dirty) && dirty.entries == map[]
    {
      this.doc, this.policy, this.blobs, this.disk := doc, policy, blobs, disk;
      dirty := new DirtySet();
      materialized, lastIngested := map[], map[];
    }

    ghost function StateAt(p: Path, now: int): PathState
      reads this, dirty
    {
      Observe(disk, materialized, lastIngested, dirty.entries, p, now)
    }

    // ---- Disk to document ----

    /**
     * Take in the file at `path`. `reread` is what a second read 300 ms later would give; it is
     * used when the file reads as empty while the document has content for it.
     */
    method IngestFile(path: Path, now: int, reread: Option<Bytes>) returns (seen: Option<Bytes>, outcome: Outcome)
      requires IsNormal(path)
      modifies this, doc, dirty
      ensures disk == old(disk)
      ensures seen == None ==> outcome == Unread
      ensures outcome == Unread ==> seen == None
      ensures path !in disk ==> seen == None
      ensures path in disk && disk[path] != [] ==> seen == Some(disk[path])
      ensures path in disk && disk[path] == [] && !MayHoldContent(old(doc.files), path) ==> seen == Some([])
      ensures path in disk && disk[path] == [] && MayHoldContent(old(doc.files), path) ==>
                seen == reread || (seen == Some([]) && !UniqueFiles(old(doc.files)))
      ensures forall p :: MarksAt(dirty.entries, p) ==
                if outcome == Unread || outcome == TooLarge then MarksAt(old(dirty.entries), p)
                else MarksAfterCheck(old(dirty.entries), p, path, Digest(seen.value), now)
      ensures outcome.TextTaken? && UniqueFiles(old(doc.files)) ==> !TextHeldAt(old(doc.files), path, seen.value)
      ensures seen.Some? ==>
                && (outcome == TooLarge <==> policy.overSize(path, |seen.value|))
                && (outcome == Suppressed <==>
                      && !policy.overSize(path, |seen.value|)
                      && HasMark(Unexpired(MarksAt(old(dirty.entries), path), now), Digest(seen.value)))
                && (outcome == AlreadyThere ==>
                      policy.isText(path) && policy.utf8(seen.value) && TextHeldAt(doc.files, path, seen.value))
                && (outcome.TextTaken? ==>
                      && policy.isText(path) && policy.utf8(seen.value)
                      && TextWritten(old(doc.S()), doc.S(), path, seen.value, now, outcome.id))
                && (outcome.BlobTaken? ==>
                      && !(policy.isText(path) && policy.utf8(seen.value))
                      && AttachmentWritten(old(doc.S()), doc.S(), path, Digest(seen.value), |seen.value|, now, outcome.id)
                      && blobs == Stored(old(blobs), seen.value))
      ensures !outcome.BlobTaken? ==> blobs == old(blobs)
      ensures !outcome.TextTaken? && !outcome.BlobTaken? ==> doc.S() == old(doc.S())
      ensures materialized == if Captures(outcome) then old(materialized)[path := Digest(seen.value)] else old(materialized)
      ensures lastIngested == if Captures(outcome) then old(lastIngested)[path := Digest(seen.value)] else old(lastIngested)
    {
      if path !in disk {
        return None, Unread;
      }
      var bytes := disk[path];
      if bytes == [] {
        NormalizeFixpoint(path);
        NormalIsRelative(path);
        var held := doc.ReadFile(path);
        if held.Ok? && held.value != [] {
          assert TextHeldAt(doc.files, path, held.value) && MayHoldContent(doc.files, path);
          if reread.None? {
            return None, Unread;
          }
          bytes := reread.value;
        }
      }
      seen := Some(bytes);
      outcome := IngestBytes(path, bytes, now);
    }

    method IngestBytes(path: Path, bytes: Bytes, now: int) returns (outcome: Outcome)
      requires IsNormal(path)
      modifies this`blobs, this`materialized, this`lastIngested, doc`files, doc`dirs, dirty
      ensures outcome != Unread
      ensures forall p :: MarksAt(dirty.entries, p) ==
                if outcome == TooLarge then MarksAt(old(dirty.entries), p)
                else MarksAfterCheck(old(dirty.entries), p, path, Digest(bytes), now)
      ensures outcome.TextTaken? && UniqueFiles(old(doc.files)) ==> !TextHeldAt(old(doc.files), path, bytes)
      ensures outcome == TooLarge <==> policy.overSize(path, |bytes|)
      ensures outcome == Suppressed <==>
                && !policy.overSize(path, |bytes|)
                && HasMark(Unexpired(MarksAt(old(dirty.entries), path), now), Digest(bytes))
      ensures outcome == AlreadyThere ==> policy.isText(path) && policy.utf8(bytes) && TextHeldAt(doc.files, path, bytes)
      ensures outcome.TextTaken? ==>
                && policy.isText(path) && policy.utf8(bytes)
                && TextWritten(old(doc.S()), doc.S(), path, bytes, now, outcome.id)
      ensures outcome.BlobTaken? ==>
                && !(policy.isText(path) && policy.utf8(bytes))
                && AttachmentWritten(old(doc.S()), doc.S(), path, Digest(bytes), |bytes|, now, outcome.id)
                && blobs == Stored(old(blobs), bytes)
      ensures !outcome.BlobTaken? ==> blobs == old(blobs)
      ensures !outcome.TextTaken? && !outcome.BlobTaken? ==> doc.S() == old(doc.S())
      ensures materialized == if Captures(outcome) then old(materialized)[path := Digest(bytes)] else old(materialized)
      ensures lastIngested == if Captures(outcome) then old(lastIngested)[path := Digest(bytes)] else old(lastIngested)
    {
      if policy.overSize(path, |bytes|) {
        return TooLarge;
      }
      var hash := Digest(bytes);
      var echo := dirty.CheckAndConsume(path, hash, now);
      if echo {
        return Suppressed;
      }
      outcome := TakeIn(path, bytes, now);
    }

    /** The text way or the blob way, and the records of both maps. */
    method TakeIn(path: Path, bytes: Bytes, now: int) returns (outcome: Outcome)
      requires IsNormal(path)
      modifies this`blobs, this`materialized, this`lastIngested, doc`files, doc`dirs
      ensures Captures(outcome)
      ensures outcome.TextTaken? && UniqueFiles(old(doc.files)) ==> !TextHeldAt(old(doc.files), path, bytes)
      ensures outcome == AlreadyThere ==> policy.isText(path) && policy.utf8(bytes) && TextHeldAt(doc.files, path, bytes)
      ensures outcome.TextTaken? ==>
                && policy.isText(path) && policy.utf8(bytes)
                && TextWritten(old(doc.S()), doc.S(), path, bytes, now, outcome.id)
      ensures outcome.BlobTaken? ==>
                && !(policy.isText(path) && policy.utf8(bytes))
                && AttachmentWritten(old(doc.S()), doc.S(), path, Digest(bytes), |bytes|, now, outcome.id)
                && blobs == Stored(old(blobs), bytes)
      ensures !outcome.BlobTaken? ==> blobs == old(blobs)
      ensures outcome == AlreadyThere ==> doc.S() == old(doc.S())
      ensures materialized == old(materialized)[path := Digest(bytes)]
      ensures lastIngested == old(lastIngested)[path := Digest(bytes)]
    {
      var hash := Digest(bytes);
      if policy.isText(path) && policy.utf8(bytes) {
        outcome := TakeText(path, bytes, now);
      } else {
        if hash !in blobs {
          blobs := blobs[hash := bytes];
        }
        outcome := TakeBlob(path, hash, |bytes|, now);
      }
      materialized := materialized[path := hash];
      lastIngested := lastIngested[path := hash];
    }

    method TakeText(path: Path, bytes: Bytes, now: int) returns (outcome: Outcome)
      requires IsNormal(path)
      modifies doc`files, doc`dirs
      ensures outcome.TextTaken? || outcome == AlreadyThere
      ensures UniqueFiles(old(doc.files)) && TextHeldAt(old(doc.files), path, bytes) ==> outcome == AlreadyThere
      ensures outcome == AlreadyThere ==> doc.S() == old(doc.S()) && TextHeldAt(doc.files, path, bytes)
      ensures outcome.TextTaken? ==> TextWritten(old(doc.S()), doc.S(), path, bytes, now, outcome.id)
    {
      NormalizeFixpoint(path);
      NormalIsRelative(path);
      var held := doc.ReadFile(path);
      if held == Ok(bytes) {
        return AlreadyThere;
      }
      var written := doc.WriteTextFile(path, bytes, now);
      return TextTaken(written.value);
    }

    method TakeBlob(path: Path, hash: Hash, size: nat, now: int) returns (outcome: Outcome)
      requires IsNormal(path)
      modifies doc`files, doc`dirs
      ensures outcome.BlobTaken? && AttachmentWritten(old(doc.S()), doc.S(), path, hash, size, now, outcome.id)
    {
      NormalizeFixpoint(path);
      NormalIsRelative(path);
      var written := doc.WriteAttachment(path, hash, size, now);
      return BlobTaken(written.value);
    }

    // ---- Document to disk ----

    /** The live files by path, listed in some order; a later listing of a path replaces an earlier one. */
    method ListLive() returns (live: map<Path, Listed>)
      ensures Lists(doc.files, live)
    {
      live := map[];
      var todo := doc.files.Keys;
      while todo != {}
        invariant todo <= doc.files.Keys
        invariant forall p :: p in live ==>
                    && live[p].id in doc.files && doc.files[live[p].id].LiveAt(p)
                    && live[p] == Listed(live[p].id, doc.files[live[p].id].kind, doc.files[live[p].id].binaryHash)
        invariant forall id :: id in doc.files && id !in todo && doc.files[id].Live() ==> doc.files[id].path in live
        decreases |todo|
      {
        var id :| id in todo;
        todo := todo - {id};
        var e := doc.files[id];
        if e.deletedAt.None? {
          live := live[e.path := Listed(id, e.kind, e.binaryHash)];
        }
      }
    }

    /** One pass; `io(p)` says whether the disk operation on `p`, if tried, succeeds. */
    method Materialize(now: int, io: Path -> bool) returns (live: map<Path, Listed>)
      modifies this`disk, this`materialized, this`lastIngested, dirty
      ensures Lists(doc.files, live)
      ensures forall p :: StateAt(p, now) ==
                          PassState(old(StateAt(p, now)), TargetOf(doc.files, blobs, live, p), io(p), now)
    {
      live := ListLive();
      var existing := materialized;
      var ingested := lastIngested;
      ghost var d0, e0, files, store := disk, dirty.entries, doc.files, blobs;
      DeleteDead(existing, ingested, live, now, io);
      WriteLive(existing, ingested, live, now, io);
      RetainLive(live, now);
      forall p ensures StateAt(p, now) ==
                       PassState(Observe(d0, existing, ingested, e0, p, now), TargetOf(files, store, live, p), io(p), now)
      {
        PassInTwo(Observe(d0, existing, ingested, e0, p, now), TargetOf(files, store, live, p), io(p), now);
      }
    }

    /** Forget the paths that are not live. */
    method RetainLive(live: map<Path, Listed>, now: int)
      modifies this`materialized, this`lastIngested
      ensures forall p :: StateAt(p, now) == Retained(old(StateAt(p, now)), p in live)
    {
      materialized := map p | p in materialized && p in live :: materialized[p];
      lastIngested := map p | p in lastIngested && p in live :: lastIngested[p];
    }

    method DeleteDead(existing: map<Path, Hash>, ingested: map<Path, Hash>, live: map<Path, Listed>, now: int, io: Path -> bool)
      requires existing == materialized && ingested == lastIngested
      modifies this`disk, dirty
      ensures forall p :: StateAt(p, now) ==
                          if p in live then old(StateAt(p, now)) else DeleteState(old(StateAt(p, now)), io(p), now)
    {
      ghost var d0, e0 := disk, dirty.entries;
      var todo := existing.Keys;
      forall p | p !in existing
        ensures DeleteState(Observe(d0, existing, ingested, e0, p, now), io(p), now) == Observe(d0, existing, ingested, e0, p, now)
      {
        NothingToDelete(Observe(d0, existing, ingested, e0, p, now), io(p), now);
      }
      while todo != {}
        invariant todo <= existing.Keys
        invariant forall p :: StateAt(p, now) ==
                              var was := Observe(d0, existing, ingested, e0, p, now);
                              if p in live || p in todo then was else DeleteState(was, io(p), now)
        decreases |todo|
      {
        var path :| path in todo;
        todo := todo - {path};
        if path !in live {
          ghost var s := StateAt(path, now);
          DeleteOne(path, existing[path], Lookup(ingested, path), now, io(path));
        }
      }
    }

    method DeleteOne(path: Path, existing: Hash, ingested: Option<Hash>, now: int, ok: bool)
      requires Lookup(materialized, path) == Some(existing) && Lookup(lastIngested, path) == ingested
      modifies this`disk, dirty
      ensures forall p :: StateAt(p, now) ==
                          if p == path then DeleteState(old(StateAt(p, now)), ok, now) else old(StateAt(p, now))
    {
      var found := Lookup(disk, path);
      if found.Some? && !IsSafeToOverwrite(Digest(found.value), Some(existing), ingested) {
        return;
      }
      if ok {
        disk := disk - {path};
        MarkAndCollect(path, Other("<deleted>"), now);
      }
    }

    method WriteLive(existing: map<Path, Hash>, ingested: map<Path, Hash>, live: map<Path, Listed>, now: int, io: Path -> bool)
      requires existing == materialized && ingested == lastIngested
      modifies this`disk, this`materialized, dirty
      ensures forall p :: StateAt(p, now) ==
                          WriteState(old(StateAt(p, now)), TargetOf(doc.files, blobs, live, p), io(p), now)
    {
      ghost var d0, e0, files, store := disk, dirty.entries, doc.files, blobs;
      var todo := live.Keys;
      while todo != {}
        invariant todo <= live.Keys && ingested == lastIngested && doc.files == files && blobs == store
        invariant forall p :: StateAt(p, now) ==
                              var was := Observe(d0, existing, ingested, e0, p, now);
                              if p in todo then was else WriteState(was, TargetOf(files, store, live, p), io(p), now)
        decreases |todo|
      {
        var path :| path in todo;
        todo := todo - {path};
        ghost var s := StateAt(path, now);
        WriteListed(path, live, Lookup(existing, path), Lookup(ingested, path), now, io(path));
      }
    }

    /** One live path: the text is read from the document now, a blob from the store. */
    method WriteListed(path: Path, live: map<Path, Listed>, existing: Option<Hash>, ingested: Option<Hash>, now: int, ok: bool)
      requires path in live
      requires Lookup(materialized, path) == existing && Lookup(lastIngested, path) == ingested
      modifies this`disk, this`materialized, dirty
      ensures forall p :: StateAt(p, now) ==
                          if p == path then WriteState(old(StateAt(p, now)), TargetOf(doc.files, blobs, live, p), ok, now)
                          else old(StateAt(p, now))
    {
      match live[path].kind {
        case Text =>
          var target := TextOf(doc.files, live[path].id);
          WriteOne(path, Digest(target), target, existing, ingested, now, ok);
        case Attachment =>
          if live[path].hash.Some? && live[path].hash.value in blobs {
            var h := live[path].hash.value;
            WriteOne(path, h, blobs[h], existing, ingested, now, ok);
          }
      }
    }

    /** Decide for one live path, and adopt, overwrite or leave what is on disk. */
    method WriteOne(path: Path, hash: Hash, bytes: Bytes, existing: Option<Hash>, ingested: Option<Hash>, now: int, ok: bool)
      requires Lookup(materialized, path) == existing && Lookup(lastIngested, path) == ingested
      modifies this`disk, this`materialized, dirty
      ensures forall p :: StateAt(p, now) ==
                          if p == path then WriteState(old(StateAt(p, now)), Wanted(hash, bytes), ok, now) else old(StateAt(p, now))
    {
      if existing == Some(hash) {
        return;
      }
      var found := Lookup(disk, path);
      if found.Some? {
        if Digest(found.value) == hash {
          materialized := materialized[path := hash];
          return;
        }
        if !IsSafeToOverwrite(Digest(found.value), existing, ingested) {
          return;
        }
      }
      assert WriteAction(found, existing, ingested, hash) == Overwrite;
      Overwriting(path, hash, bytes, now, ok);
    }

    /** Mark first, then write, then record. */
    method Overwriting(path: Path, hash: Hash, bytes: Bytes, now: int, ok: bool)
      modifies this`disk, this`materialized, dirty
      ensures forall p :: StateAt(p, now).marks ==
                          old(StateAt(p, now)).marks + (if p == path then [Mark(hash, now)] else [])
      ensures disk == (if ok then old(disk)[path := bytes] else old(disk))
      ensures materialized == (if ok then old(materialized)[path := hash] else old(materialized))
    {
      MarkAndCollect(path, hash, now);
      if !ok {
        return;
      }
      disk := disk[path := bytes];
      materialized := materialized[path := hash];
    }

    /** Leave a mark; expired marks are dropped on the way, which changes nothing that counts. */
    method MarkAndCollect(path: Path, hash: Hash, now: int)
      modifies dirty
      ensures forall p :: Unexpired(MarksAt(dirty.entries, p), now) ==
                          if p == path then Unexpired(MarksAt(old(dirty.entries), p), now) + [Mark(hash, now)]
                          else Unexpired(MarksAt(old(dirty.entries), p), now)
    {
      ghost var before := dirty.entries;
      dirty.MarkWritten(path, hash, now);
      forall p ensures Unexpired(MarksAt(dirty.entries, p), now) ==
                       if p == path then Unexpired(MarksAt(before, p), now) + [Mark(hash, now)]
                       else Unexpired(MarksAt(before, p), now)
      {
        var kept := Unexpired(MarksAt(before, p), now);
        UnexpiredLater(MarksAt(before, p), now, now);
        UnexpiredAppend(kept, [Mark(hash, now)], now);
        assert kept + [] == kept;
      }
    }
  }
}
