/**
 * What every run of the document operations on one replica keeps: live file paths are distinct,
 * live directory paths are distinct, live paths are normal, and all ancestors of a live path
 * are live directories.
 */
module DocumentRuns {
  import opened Wrappers
  import opened Paths
  import opened DocumentState

  ghost predicate UniqueFiles(files: Files) {
    forall a, b :: a in files && b in files && a != b && files[a].Live() && files[b].Live() ==> files[a].path != files[b].path
  }

  ghost predicate UniqueDirs(dirs: Dirs) {
    forall a, b :: a in dirs && b in dirs && a != b && dirs[a].Live() && dirs[b].Live() ==> dirs[a].path != dirs[b].path
  }

  ghost predicate AncestorsLive(dirs: Dirs, p: Path) {
    forall a :: IsAncestor(a, p) ==> LiveDirAt(dirs, a)
  }

  ghost predicate Coherent(s: State) {
    && UniqueFiles(s.files)
    && UniqueDirs(s.dirs)
    && NormalPaths(s)
    && (forall id :: id in s.files && s.files[id].Live() ==> AncestorsLive(s.dirs, s.files[id].path))
    && (forall id :: id in s.dirs && s.dirs[id].Live() ==> AncestorsLive(s.dirs, s.dirs[id].path))
  }

  /** Everything about directories that holds once the ancestors of `p` are in place. */
  ghost predicate CoherentBut(files: Files, dirs: Dirs, p: Path) {
    && UniqueFiles(files)
    && UniqueDirs(dirs)
    && NormalPaths(State(files, dirs))
    && IsNormal(p)
    && (forall id, a :: id in files && files[id].Live() && IsAncestor(a, files[id].path) ==>
          LiveDirAt(dirs, a) || IsAncestor(a, p))
    && (forall id, a :: id in dirs && dirs[id].Live() && IsAncestor(a, dirs[id].path) ==>
          LiveDirAt(dirs, a) || IsAncestor(a, p))
  }

  /** Creating the missing ancestors of `p` completes a document that lacked only those. */
  lemma EnsuringCompletes(files: Files, before: Dirs, after: Dirs, p: Path, now: int)
    requires CoherentBut(files, before, p)
    requires AncestorsEnsured(before, after, p, now)
    ensures Coherent(State(files, after))
  {
    forall a | LiveDirAt(before, a) ensures LiveDirAt(after, a) {
      var id :| id in before && before[id].LiveAt(a);
      assert after[id].LiveAt(a);
    }
    forall id | id in after && after[id].Live()
      ensures AncestorsLive(after, after[id].path) && IsNormal(after[id].path)
    {
      if id !in before {
        AncestorIsNormal(after[id].path, p);
        forall a | IsAncestor(a, after[id].path) ensures LiveDirAt(after, a) {
          AncestorTransitive(a, after[id].path, p);
        }
      }
    }
    forall a, b | a in after && b in after && a != b && after[a].Live() && after[b].Live()
      ensures after[a].path != after[b].path
    {
      if a in before && b !in before {
        assert before[a].LiveAt(before[a].path);
      } else if b in before && a !in before {
        assert before[b].LiveAt(before[b].path);
      }
    }
  }

  lemma TextWrittenCoherent(s: State, s': State, p: Path, content: Bytes, now: int, id: FileId)
    requires Coherent(s) && IsNormal(p) && TextWritten(s, s', p, content, now, id)
    ensures Coherent(s')
  {
    if !LiveFileAt(s.files, p) {
      forall other | other in s.files && s.files[other].Live() ensures s.files[other].path != p {
        assert !s.files[other].LiveAt(p);
      }
      EnsuringCompletes(s'.files, s.dirs, s'.dirs, p, now);
    }
  }

  lemma AttachmentWrittenCoherent(s: State, s': State, p: Path, hash: Hash, size: nat, now: int, id: FileId)
    requires Coherent(s) && IsNormal(p) && AttachmentWritten(s, s', p, hash, size, now, id)
    ensures Coherent(s')
  {
    if !LiveFileAt(s.files, p) {
      forall other | other in s.files && s.files[other].Live() ensures s.files[other].path != p {
        assert !s.files[other].LiveAt(p);
      }
      EnsuringCompletes(s'.files, s.dirs, s'.dirs, p, now);
    }
  }

  lemma FileRenamedCoherent(s: State, s': State, from: Path, to: Path, now: int, id: FileId)
    requires Coherent(s) && IsNormal(to) && FileRenamed(s, s', from, to, now, id)
    ensures Coherent(s')
  {
    forall other | other in s.files && s.files[other].Live() ensures s.files[other].path != to {
      assert !s.files[other].LiveAt(to);
    }
    EnsuringCompletes(s'.files, s.dirs, s'.dirs, to, now);
  }

  lemma DirectoryCreatedCoherent(s: State, s': State, p: Path, now: int, id: DirId)
    requires Coherent(s) && IsNormal(p) && DirectoryCreated(s, s', p, now, id)
    ensures Coherent(s')
  {
    if !LiveDirAt(s.dirs, p) {
      var before := s.dirs[id := DirEntry(p, now, None)];
      forall other | other in s.dirs && s.dirs[other].Live() ensures s.dirs[other].path != p {
        assert !s.dirs[other].LiveAt(p);
      }
      forall a | LiveDirAt(s.dirs, a) ensures LiveDirAt(before, a) {
        var w :| w in s.dirs && s.dirs[w].LiveAt(a);
        assert before[w].LiveAt(a);
      }
      EnsuringCompletes(s.files, before, s'.dirs, p, now);
    }
  }

  /** A recursive delete leaves nothing live at or below the directory, so nothing loses an ancestor. */
  lemma DirectoryDeletedCoherent(s: State, s': State, p: Path, now: int, root: Option<DirId>)
    requires Coherent(s) && DirectoryDeleted(s, s', p, true, now, root)
    ensures Coherent(s')
  {
    forall a, q | IsAncestor(a, q) && LiveDirAt(s.dirs, a) && !IsAncestor(p, q)
      ensures LiveDirAt(s'.dirs, a)
    {
      AncestorSurvives(s, s', p, now, root, a, q);
    }
    forall id | id in s'.files && s'.files[id].Live() ensures AncestorsLive(s'.dirs, s'.files[id].path) {
      assert s'.files[id] == s.files[id] && AncestorsLive(s.dirs, s.files[id].path);
    }
    forall id | id in s'.dirs && s'.dirs[id].Live() ensures AncestorsLive(s'.dirs, s'.dirs[id].path) {
      assert s'.dirs[id] == s.dirs[id] && AncestorsLive(s.dirs, s.dirs[id].path);
    }
  }

  /** A live directory above something that is not below `p` is not below `p` either, nor is it `p`. */
  lemma AncestorSurvives(s: State, s': State, p: Path, now: int, root: Option<DirId>, a: Path, q: Path)
    requires DirectoryDeleted(s, s', p, true, now, root) && UniqueDirs(s.dirs)
    requires IsAncestor(a, q) && LiveDirAt(s.dirs, a) && !IsAncestor(p, q)
    ensures LiveDirAt(s'.dirs, a)
  {
    var id :| id in s.dirs && s.dirs[id].LiveAt(a);
    if IsAncestor(p, a) {
      AncestorTransitive(p, a, q);
    }
    assert s'.dirs[id].LiveAt(a);
  }

  /** Without recursion only child files are looked at, so a live directory below `p` can lose its parent. */
  ghost predicate LeavesOrphans(s: State, p: Path, root: Option<DirId>) {
    root.Some? && exists id :: id in s.dirs && s.dirs[id].Live() && IsAncestor(p, s.dirs[id].path)
  }

  /** A deletion without recursion keeps the document coherent exactly if no live directory lies below the one removed. */
  lemma PlainDeletionCoherentExactly(s: State, s': State, p: Path, now: int, root: Option<DirId>)
    requires Coherent(s) && DirectoryDeleted(s, s', p, false, now, root)
    ensures Coherent(s') <==> !LeavesOrphans(s, p, root)
  {
    if LeavesOrphans(s, p, root) {
      var id :| id in s.dirs && s.dirs[id].Live() && IsAncestor(p, s.dirs[id].path);
      assert s'.dirs[id] == s.dirs[id];
      assert !LiveDirAt(s'.dirs, p);
      assert !AncestorsLive(s'.dirs, s'.dirs[id].path);
    } else {
      forall a | LiveDirAt(s.dirs, a) && (root.Some? ==> a != p) ensures LiveDirAt(s'.dirs, a) {
        var id :| id in s.dirs && s.dirs[id].LiveAt(a);
        assert s'.dirs[id].LiveAt(a);
      }
    }
  }

  // ---- Restoring ----

  /** What a reader sees of a live file: not its history of ids, but also not its clock of last update. */
  datatype FileView = FileView(path: Path, kind: FileKind, size: nat, createdAt: int, text: Bytes, hash: Option<Hash>)

  function ViewFile(e: FileEntry): FileView {
    FileView(e.path, e.kind, e.size, e.createdAt,
             if e.kind.Text? then e.text.GetOr([]) else [],
             if e.kind.Attachment? then e.binaryHash else None)
  }

  function FilesView(files: Files): map<FileId, FileView> {
    map id | id in files && files[id].Live() :: ViewFile(files[id])
  }

  function DirsView(dirs: Dirs): map<DirId, DirEntry> {
    map id | id in dirs && dirs[id].Live() :: dirs[id]
  }

  /** The live view: ids, paths, kinds, sizes, creation times, texts, hashes, and live directories. */
  datatype View = View(files: map<FileId, FileView>, dirs: map<DirId, DirEntry>)

  function LiveView(s: State): View {
    View(FilesView(s.files), DirsView(s.dirs))
  }

  /** An attachment that was live without a hash keeps whatever hash its id has by now. */
  ghost predicate HashKept(current: Files, past: Files) {
    forall id :: id in past && past[id].Live() && past[id].kind.Attachment? && past[id].binaryHash.None? ==>
      id in current ==> current[id].binaryHash.None?
  }

  lemma DirsViewRestored(current: Dirs, past: Dirs, clock: int)
    ensures DirsView(DirsRestored(current, past, clock)) == DirsView(past)
  {
    var r := DirsRestored(current, past, clock);
    forall id ensures id in r && r[id].Live() <==> id in past && past[id].Live() {
      assert id in past && past[id].Live() <==> id in LiveDirs(past);
    }
  }

  lemma FileViewRestored(current: Files, past: Files, clock: int, id: FileId)
    ensures id in FilesView(FilesRestored(current, past, clock)) <==> id in FilesView(past)
    ensures id in FilesView(past) ==>
              (FilesView(FilesRestored(current, past, clock))[id] == FilesView(past)[id] <==>
               !(past[id].kind.Attachment? && past[id].binaryHash.None? && id in current && current[id].binaryHash.Some?))
  {
    assert id in past && past[id].Live() <==> id in LiveFiles(past);
  }

  /** Restoring brings back exactly the past live view, unless a hashless attachment gained a hash. */
  lemma RestoreBringsBackView(current: State, past: State, clock: int)
    ensures LiveView(Restored(current, past, clock)) == LiveView(past) <==> HashKept(current.files, past.files)
    ensures LiveView(Restored(current, past, clock)).dirs == LiveView(past).dirs
    ensures current.files.Keys <= Restored(current, past, clock).files.Keys
    ensures current.dirs.Keys <= Restored(current, past, clock).dirs.Keys
  {
    DirsViewRestored(current.dirs, past.dirs, clock);
    var before, after := FilesView(past.files), FilesView(FilesRestored(current.files, past.files, clock));
    forall id
      ensures id in after <==> id in before
      ensures id in before ==>
                (after[id] == before[id] <==>
                 !(past.files[id].kind.Attachment? && past.files[id].binaryHash.None?
                   && id in current.files && current.files[id].binaryHash.Some?))
    {
      FileViewRestored(current.files, past.files, clock, id);
    }
    assert after == before <==> forall id :: id in before ==> after[id] == before[id];
  }

  /** The exception: an attachment listed without a hash in the past shows the hash it has been given since. */
  lemma HashlessAttachmentShows(h: Hash, clock: int) returns (current: State, past: State)
    ensures past.files.Keys == {0} && past.files[0].kind.Attachment? && past.files[0].Live() && past.files[0].binaryHash.None?
    ensures current == past.(files := past.files[0 := past.files[0].(binaryHash := Some(h))])
    ensures LiveView(Restored(current, past, clock)) != LiveView(past)
  {
    var e := FileEntry("a.png", Attachment, 0, 1, 1, None, None, None);
    past := State(map[0 := e], map[]);
    current := State(map[0 := e.(binaryHash := Some(h))], map[]);
    assert past.files[0] == e && e.Live() && current.files[0].binaryHash == Some(h);
    RestoreBringsBackView(current, past, clock);
  }

  /** Every attachment entry carries its hash, as `write_attachment` always stores one. */
  ghost predicate Hashed(files: Files) {
    forall id :: id in files && files[id].kind.Attachment? ==> files[id].binaryHash.Some?
  }

  /** Restoring a state once more changes nothing in view, hashless attachments included. */
  lemma RestoringTwiceIsOnce(current: State, past: State, clock1: int, clock2: int)
    ensures LiveView(Restored(Restored(current, past, clock1), past, clock2)) == LiveView(Restored(current, past, clock1))
  {
    var once := Restored(current, past, clock1);
    var twice := Restored(once, past, clock2);
    DirsViewRestored(current.dirs, past.dirs, clock1);
    DirsViewRestored(once.dirs, past.dirs, clock2);
    forall id
      ensures id in FilesView(twice.files) <==> id in FilesView(once.files)
      ensures id in FilesView(once.files) ==> FilesView(twice.files)[id] == FilesView(once.files)[id]
    {
      FileViewRestored(current.files, past.files, clock1, id);
      FileViewRestored(once.files, past.files, clock2, id);
      assert id in past.files && past.files[id].Live() <==> id in LiveFiles(past.files);
    }
  }

  /** Restoring elsewhere in between makes no difference to the last restore, if the past attachments carry hashes. */
  lemma LastRestoreWins(current: State, other: State, past: State, clock1: int, clock2: int, clock3: int)
    requires Hashed(past.files)
    ensures LiveView(Restored(Restored(current, other, clock1), past, clock2)) == LiveView(Restored(current, past, clock3))
    ensures LiveView(Restored(Restored(current, past, clock1), past, clock2)) == LiveView(past)
  {
    RestoreBringsBackView(Restored(current, other, clock1), past, clock2);
    RestoreBringsBackView(current, past, clock3);
    RestoreBringsBackView(Restored(current, past, clock1), past, clock2);
  }

  lemma RestoredCoherent(current: State, past: State, clock: int)
    requires Coherent(past)
    ensures Coherent(Restored(current, past, clock))
  {
    var r := Restored(current, past, clock);
    LiveOfRestored(current, past, clock);
    forall a | LiveDirAt(past.dirs, a) ensures LiveDirAt(r.dirs, a) {
      var id :| id in past.dirs && past.dirs[id].LiveAt(a);
      assert r.dirs[id].LiveAt(a);
    }
    forall id | id in r.files && r.files[id].Live() ensures AncestorsLive(r.dirs, r.files[id].path) {
      assert AncestorsLive(past.dirs, past.files[id].path);
    }
    forall id | id in r.dirs && r.dirs[id].Live() ensures AncestorsLive(r.dirs, r.dirs[id].path) {
      assert AncestorsLive(past.dirs, past.dirs[id].path);
    }
  }

  lemma LiveOfRestored(current: State, past: State, clock: int)
    ensures var r := Restored(current, past, clock);
      && (forall id :: id in r.files && r.files[id].Live() ==>
            id in past.files && past.files[id].Live() && r.files[id].path == past.files[id].path)
      && (forall id :: id in r.dirs && r.dirs[id].Live() ==>
            id in past.dirs && past.dirs[id].Live() && r.dirs[id].path == past.dirs[id].path)
      && (forall id :: id in past.dirs && past.dirs[id].Live() ==>
            id in r.dirs && r.dirs[id].Live() && r.dirs[id].path == past.dirs[id].path)
  {}
}
