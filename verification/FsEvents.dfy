/** Removal events from the file system (`fs/ingest.rs`) and the paths a binding admits (`fs/binding.rs`). */
module FsEvents {
  import opened Wrappers
  import opened Segments
  import opened Paths
  import opened DocumentState
  import opened Document
  import opened DocumentRuns
  import opened Engine
  import opened EngineLaws
  import Glob

  const AUTHORIZED_KEYS_FILE := "authorized_keys"
  const SYNC_IGNORE_FILENAME := ".syncignore"
  const ALWAYS_EXCLUDED := [".agentsync", ".git"]

  /** Include patterns, and the ignore rules as a predicate on a path and on whether it is a directory. */
  datatype Filter = Filter(includes: seq<string>, ignored: (Path, bool) -> bool)

  predicate AlwaysExcluded(path: Path) {
    Split(path, '/')[0] in ALWAYS_EXCLUDED
  }

  predicate IsSyncIgnore(path: Path) {
    var segs := Split(path, '/'); segs[|segs| - 1] == SYNC_IGNORE_FILENAME
  }

  ghost predicate Included(f: Filter, path: Path) {
    f.includes == [] || exists i :: 0 <= i < |f.includes| && Glob.Matches(f.includes[i], 0, path, 0)
  }

  /** The files a binding mirrors: its own two files come before the ignore rules and the include patterns. */
  ghost predicate Allowed(f: Filter, path: Path) {
    && !AlwaysExcluded(path)
    && (path == AUTHORIZED_KEYS_FILE || IsSyncIgnore(path) || (!f.ignored(path, false) && Included(f, path)))
  }

  predicate DirAllowed(f: Filter, path: Path) {
    !AlwaysExcluded(path) && !f.ignored(path, true)
  }

  method PathAllowed(f: Filter, path: Path) returns (ok: bool)
    ensures ok <==> Allowed(f, path)
  {
    if AlwaysExcluded(path) {
      return false;
    }
    if path == AUTHORIZED_KEYS_FILE || IsSyncIgnore(path) {
      return true;
    }
    if f.ignored(path, false) {
      return false;
    }
    if f.includes != [] {
      ok := Glob.GlobMatchAny(f.includes, path);
      return ok;
    }
    return true;
  }

  // ---- Which paths are admitted ----

  lemma FirstSegment(path: Path, top: string)
    requires '/' !in top
    ensures Split(path, '/')[0] == top <==> path == top || IsAncestor(top, path)
  {
    var segs := Split(path, '/');
    if segs[0] == top {
      assert |segs| > 1 ==> path == segs[0] + ['/'] + Join(segs[1..], '/');
    }
    if path == top {
      SplitJoin([top], '/');
    }
    if IsAncestor(top, path) {
      var rest := path[|top| + 1..];
      assert path == top + ['/'] + rest;
      SplitConcat(top, rest, '/');
      SplitJoin([top], '/');
    }
  }

  /** The path of a file with this name, in any directory. */
  ghost predicate Named(path: Path, leaf: string) {
    path == leaf || exists dir :: path == dir + ['/'] + leaf
  }

  lemma LastSegment(path: Path, leaf: string)
    requires '/' !in leaf
    ensures var segs := Split(path, '/'); segs[|segs| - 1] == leaf <==> Named(path, leaf)
  {
    var segs := Split(path, '/');
    SplitJoin([leaf], '/');
    assert Join([leaf], '/') == leaf;
    if segs[|segs| - 1] == leaf && |segs| > 1 {
      var init := segs[..|segs| - 1];
      assert segs == init + [leaf];
      JoinAppend(init, [leaf], '/');
      assert path == Join(init, '/') + ['/'] + leaf;
    }
    if dir :| path == dir + ['/'] + leaf {
      SplitConcat(dir, leaf, '/');
    }
  }

  /** The engine's own directory and the repository's, with all below them. */
  predicate Private(path: Path) {
    path == ".agentsync" || path == ".git" || IsAncestor(".agentsync", path) || IsAncestor(".git", path)
  }

  lemma PrivateIsExcluded(path: Path)
    ensures AlwaysExcluded(path) <==> Private(path)
  {
    FirstSegment(path, ".agentsync");
    FirstSegment(path, ".git");
  }

  lemma SyncIgnoreIsNamed(path: Path)
    ensures IsSyncIgnore(path) <==> Named(path, ".syncignore")
  {
    var leaf := SYNC_IGNORE_FILENAME;
    NoSlashInIgnore();
    LastSegment(path, leaf);
  }

  lemma NoSlashInIgnore()
    ensures '/' !in SYNC_IGNORE_FILENAME
  {
  }

  /** Private paths are never admitted; elsewhere the key file and every `.syncignore` always are. */
  lemma OwnFilesAreAdmitted(f: Filter, path: Path)
    ensures Private(path) ==> !Allowed(f, path) && !DirAllowed(f, path)
    ensures !Private(path) && (path == "authorized_keys" || Named(path, ".syncignore")) ==> Allowed(f, path)
  {
    PrivateIsExcluded(path);
    SyncIgnoreIsNamed(path);
  }

  /** Every other file is admitted exactly if no ignore rule takes it and, with extensions given, it ends in one of them. */
  lemma OthersAreAdmittedExactly(f: Filter, path: Path, exts: seq<string>)
    requires !Private(path) && path != "authorized_keys" && !Named(path, ".syncignore")
    requires |f.includes| == |exts| && forall i :: 0 <= i < |exts| ==> '*' !in exts[i] && f.includes[i] == "**/*." + exts[i]
    ensures Allowed(f, path) <==>
              !f.ignored(path, false) && (exts == [] || exists i :: 0 <= i < |exts| && Glob.EndsIn(path, 0, "." + exts[i]))
    ensures DirAllowed(f, path) <==> !f.ignored(path, true)
  {
    PrivateIsExcluded(path);
    SyncIgnoreIsNamed(path);
    ExtensionsInclude(f, path, exts);
  }

  lemma ExtensionsInclude(f: Filter, path: Path, exts: seq<string>)
    requires |f.includes| == |exts| && forall i :: 0 <= i < |exts| ==> '*' !in exts[i] && f.includes[i] == "**/*." + exts[i]
    ensures Included(f, path) <==> exts == [] || exists i :: 0 <= i < |exts| && Glob.EndsIn(path, 0, "." + exts[i])
  {
    forall i | 0 <= i < |exts| ensures Glob.Matches(f.includes[i], 0, path, 0) <==> Glob.EndsIn(path, 0, "." + exts[i]) {
      Glob.ExtensionPattern(exts[i], path);
    }
  }

  // ---- What a removal does ----

  /** `p` is gone from disk: tombstone the file there, else the directory there with all below it. */
  ghost predicate Removed(f: Filter, s: State, s': State, p: Path, now: int) {
    if Allowed(f, p) && p == AUTHORIZED_KEYS_FILE then s' == s
    else if Allowed(f, p) && LiveFileAt(s.files, p) then exists id :: FileDeleted(s, s', p, now, id)
    else if DirAllowed(f, p) && LiveDirAt(s.dirs, p) then
      exists root: Option<DirId> :: DirectoryDeleted(s, s', p, true, now, root)
    else s' == s
  }

  /** `rel` is the event's path below the bound root; `exists'` is what the adapter says when asked again. */
  method HandleRemoved(doc: Doc, f: Filter, rel: string, exists': bool, now: int)
    requires NormalPaths(doc.S())
    modifies doc
    ensures exists' || Normalized(rel).Err? ==> doc.S() == old(doc.S())
    ensures !exists' && Normalized(rel).Ok? ==> Removed(f, old(doc.S()), doc.S(), Normalized(rel).value, now)
  {
    if exists' {
      return;
    }
    var n := Normalize(rel);
    if n.Err? {
      return;
    }
    var p := n.value;
    NormalizedIsNormal(rel);
    NormalizeFixpoint(p);
    var allowed := PathAllowed(f, p);
    if allowed {
      if p == AUTHORIZED_KEYS_FILE {
        return;
      }
      var live := doc.FileExists(p);
      if live {
        var r := doc.DeleteFile(p, now);
        return;
      }
    }
    if DirAllowed(f, p) {
      var dir := doc.FindDirectory(p);
      if dir.Some? {
        var r := doc.DeleteDirectory(p, true, now);
      }
    }
  }

  // ---- What removals keep ----

  lemma KeysFileHasNoAncestor(p: Path)
    ensures !IsAncestor(p, AUTHORIZED_KEYS_FILE)
  {
    assert '/' !in AUTHORIZED_KEYS_FILE;
  }

  lemma KeysFileIsAllowed(f: Filter)
    ensures Allowed(f, AUTHORIZED_KEYS_FILE)
  {
    SplitJoin([AUTHORIZED_KEYS_FILE], '/');
    assert Join([AUTHORIZED_KEYS_FILE], '/') == AUTHORIZED_KEYS_FILE;
    assert |AUTHORIZED_KEYS_FILE| == 15 && |ALWAYS_EXCLUDED[0]| == 10 && |ALWAYS_EXCLUDED[1]| == 4;
  }

  /** Nothing but tombstones is added, and none to the key file. */
  ghost predicate OnlyTombstones(s: State, s': State, now: int) {
    && s'.files.Keys == s.files.Keys && s'.dirs.Keys == s.dirs.Keys
    && (forall id :: id in s.files ==>
          s'.files[id] == s.files[id] || s'.files[id] == s.files[id].(deletedAt := Some(now)))
    && (forall id :: id in s.files && s.files[id].LiveAt(AUTHORIZED_KEYS_FILE) ==> s'.files[id] == s.files[id])
  }

  lemma FileGone(s: State, s': State, p: Path, now: int, id: FileId)
    requires Coherent(s) && FileDeleted(s, s', p, now, id) && p != AUTHORIZED_KEYS_FILE
    ensures Coherent(s') && OnlyTombstones(s, s', now)
  {
  }

  lemma DirectoryGone(s: State, s': State, p: Path, now: int, root: Option<DirId>)
    requires Coherent(s) && DirectoryDeleted(s, s', p, true, now, root)
    ensures Coherent(s') && OnlyTombstones(s, s', now)
  {
    KeysFileHasNoAncestor(p);
    DirectoryDeletedCoherent(s, s', p, now, root);
  }

  /** A removal keeps the document coherent, only ever tombstones, and never the key file. */
  lemma RemovedKeeps(f: Filter, s: State, s': State, p: Path, now: int)
    requires Coherent(s) && Removed(f, s, s', p, now)
    ensures Coherent(s') && OnlyTombstones(s, s', now)
  {
    KeysFileIsAllowed(f);
    if s' != s {
      if Allowed(f, p) && LiveFileAt(s.files, p) {
        var id :| FileDeleted(s, s', p, now, id);
        FileGone(s, s', p, now, id);
      } else {
        var root: Option<DirId> :| DirectoryDeleted(s, s', p, true, now, root);
        DirectoryGone(s, s', p, now, root);
      }
    }
  }

  /** After a removal that was for an admitted path, nothing is live where the disk has nothing. */
  lemma RemovedMirrors(f: Filter, s: State, s': State, p: Path, now: int)
    requires Coherent(s) && Removed(f, s, s', p, now) && p != AUTHORIZED_KEYS_FILE
    ensures Allowed(f, p) ==> !LiveFileAt(s'.files, p)
    ensures DirAllowed(f, p) && !LiveFileAt(s.files, p) ==>
      !LiveDirAt(s'.dirs, p)
      && (LiveDirAt(s.dirs, p) ==> forall id :: id in s'.files && s'.files[id].Live() ==> !Under(p, s'.files[id].path))
  {
  }

  ghost predicate IsRun(run: seq<State>, f: Filter, paths: seq<Path>, times: seq<int>) {
    && |run| == |paths| + 1 && |times| == |paths|
    && forall i :: 0 <= i < |paths| ==> Removed(f, run[i], run[i + 1], paths[i], times[i])
  }

  /** However much of the folder disappears, the live key file of the document stays as it was. */
  lemma {:induction false} KeysSurviveRemovals(run: seq<State>, f: Filter, paths: seq<Path>, times: seq<int>, i: nat, id: FileId)
    requires IsRun(run, f, paths, times) && Coherent(run[0]) && i < |run|
    requires id in run[0].files && run[0].files[id].LiveAt(AUTHORIZED_KEYS_FILE)
    ensures Coherent(run[i]) && id in run[i].files && run[i].files[id] == run[0].files[id]
  {
    if i > 0 {
      KeysSurviveRemovals(run, f, paths, times, i - 1, id);
      RemovedKeeps(f, run[i - 1], run[i], paths[i - 1], times[i - 1]);
    }
  }

  /**
   * The folder's copy of the key file stays away until the document's text changes: the next pass
   * writes it back exactly if the map does not hold the hash of the live text.
   */
  lemma RemovedKeysFileReturnsExactly(f: Filter, s: State, s': State, now: int, id: FileId,
                                      blobs: map<Hash, Bytes>, live: map<Path, Listed>, c: Cell)
    requires Coherent(s) && Removed(f, s, s', AUTHORIZED_KEYS_FILE, now)
    requires id in s.files && s.files[id].LiveAt(AUTHORIZED_KEYS_FILE) && s.files[id].kind.Text?
    requires Lists(s'.files, live) && c.disk.None?
    ensures var text := s.files[id].text.GetOr([]);
            var c' := PassCell(c, TargetOf(s'.files, blobs, live, AUTHORIZED_KEYS_FILE), true);
            (c'.disk == Some(text) <==> c.materialized != Some(Digest(text)))
            && (c.materialized == Some(Digest(text)) ==> c' == c)
  {
    RemovedKeeps(f, s, s', AUTHORIZED_KEYS_FILE, now);
    TextIsWanted(s'.files, blobs, live, id);
    MissingIsWrittenExactly(c, TargetOf(s'.files, blobs, live, AUTHORIZED_KEYS_FILE));
  }

  // ---- The echo of the engine's own deletions ----

  /** A removal tombstones the file at its path exactly if the path is admitted, not the key file's, and live. */
  lemma RemovalTombstonesExactly(f: Filter, s: State, s': State, p: Path, now: int)
    requires UniqueFiles(s.files) && Removed(f, s, s', p, now)
    ensures LiveFileAt(s.files, p) && !LiveFileAt(s'.files, p)
       <==> LiveFileAt(s.files, p) && Allowed(f, p) && p != AUTHORIZED_KEYS_FILE
  {
    if LiveFileAt(s.files, p) && !(Allowed(f, p) && p != AUTHORIZED_KEYS_FILE) {
      var id :| id in s.files && s.files[id].LiveAt(p);
      assert id in s'.files && s'.files[id] == s.files[id];
    }
  }

  /**
   * A pass deletes `path`; the document and the disk move on in any way; then the removal event of
   * that deletion is handled. No mark holds it back: a file that has come to live at the path again
   * is tombstoned exactly if the disk has nothing there, the path is admitted and not the key file's.
   */
  method DeleteThenEcho(b: Binding, f: Filter, path: Path, now: int, later: int, moved: State, others: map<Path, Bytes>)
    returns (deleted: bool)
    requires path != "" && IsNormal(path) && NormalPaths(moved) && UniqueFiles(moved.files)
    modifies b, b.doc, b.dirty
    ensures deleted <==> old(path in b.disk && path in b.materialized && !LiveFileAt(b.doc.files, path)
                             && Owned(b.StateAt(path, now).cell))
    ensures deleted ==> b.disk == others
    ensures deleted ==> (LiveFileAt(moved.files, path) && !LiveFileAt(b.doc.files, path) <==>
      LiveFileAt(moved.files, path) && path !in others && Allowed(f, path) && path != AUTHORIZED_KEYS_FILE)
  {
    deleted := PassDeletes(b, path, now);
    if !deleted {
      return;
    }
    b.doc.files, b.doc.dirs := moved.files, moved.dirs;
    b.disk := others;
    NormalizeFixpoint(path);
    HandleRemoved(b.doc, f, path, path in others, later);
    if path !in others {
      RemovalTombstonesExactly(f, moved, b.doc.S(), path, later);
    }
  }

  /** One pass, and whether it deleted `path`: exactly if the file was materialized, is dead, and is the engine's own. */
  method PassDeletes(b: Binding, path: Path, now: int) returns (deleted: bool)
    modifies b, b.dirty
    ensures deleted <==> old(path in b.disk) && path !in b.disk
    ensures deleted <==> old(path in b.disk && path in b.materialized && !LiveFileAt(b.doc.files, path)
                             && Owned(b.StateAt(path, now).cell))
  {
    var before := path in b.disk;
    ghost var c := b.StateAt(path, now).cell;
    var live := b.Materialize(now, _ => true);
    deleted := before && path !in b.disk;
    DeletesExactly(b.doc.files, b.blobs, live, path, c);
    assert b.StateAt(path, now).cell == PassCell(c, TargetOf(b.doc.files, b.blobs, live, path), true);
  }
}
