/** What `rename_directory` moves, when it keeps the document coherent, and when it can be undone. */
module RenameDirectory {
  import opened Wrappers
  import opened Paths
  import opened DocumentState
  import opened DocumentRuns

  /** The paths that a rename of `from` carries along. */
  predicate Within(from: Path, p: Path) {
    p == from || IsAncestor(from, p)
  }

  lemma RebaseInjective(from: Path, to: Path, p: Path, q: Path)
    requires Within(from, p) && Within(from, q) && Rebase(from, to, p) == Rebase(from, to, q)
    ensures p == q
  {
    assert p == from + p[|from|..] && q == from + q[|from|..];
    assert Rebase(from, to, p)[|to|..] == p[|from|..];
    assert Rebase(from, to, q)[|to|..] == q[|from|..];
  }

  lemma RebaseBack(from: Path, to: Path, p: Path)
    requires Within(from, p)
    ensures Within(to, Rebase(from, to, p)) && Rebase(to, from, Rebase(from, to, p)) == p
  {
    var moved := Rebase(from, to, p);
    assert moved[|to|..] == p[|from|..] && moved[..|to|] == to;
    assert p == from + p[|from|..];
  }

  lemma WithinTransitive(a: Path, b: Path, c: Path)
    requires Within(a, b) && Within(b, c)
    ensures Within(a, c)
  {
    if IsAncestor(a, b) && IsAncestor(b, c) {
      AncestorTransitive(a, b, c);
    }
  }

  /** An ancestor of a moved path is an ancestor of `to`, or is itself a moved path. */
  lemma AncestorOfRebased(from: Path, to: Path, p: Path, a: Path)
    requires Within(from, p) && IsAncestor(a, Rebase(from, to, p)) && !IsAncestor(a, to)
    ensures Within(to, a) && IsAncestor(Rebase(to, from, a), p)
    ensures Within(from, Rebase(to, from, a)) && Rebase(from, to, Rebase(to, from, a)) == a
  {
    var moved := Rebase(from, to, p);
    assert moved == to + p[|from|..];
    assert p == from + p[|from|..];
    assert forall n :: 0 <= n < |to| ==> to[..n] == moved[..n];
    assert a[..|to|] == moved[..|to|] == to;
    var rest := a[|to|..];
    assert a == to + rest;
    assert rest == p[|from|..][..|rest|];
    var b := from + rest;
    assert p[..|b|] == b;
    assert p[|b|] == moved[|a|];
    if |rest| > 0 {
      assert rest[0] == p[|from|];
      assert b[..|from|] == from && b[|from|] == '/';
      assert a[..|to|] == to && a[|to|] == '/';
    }
    assert Rebase(to, from, a) == b;
    assert Rebase(from, to, b) == to + rest;
  }

  /** Where an entry's path goes: moved if live at or below `from`. */
  function PathAfter(live: bool, p: Path, from: Path, to: Path): Path {
    if live && Within(from, p) then Rebase(from, to, p) else p
  }

  /** Each entry of `s` is still in `t`, equal but for its moved path (and a file's update time). */
  ghost predicate Moved(s: State, t: State, from: Path, to: Path, now: int) {
    && s.files.Keys == t.files.Keys
    && s.dirs.Keys <= t.dirs.Keys
    && (forall id :: id in s.files ==> MovedFile(s.files[id], t.files[id], from, to, now))
    && (forall id :: id in s.dirs ==> MovedDir(s.dirs[id], t.dirs[id], from, to))
  }

  predicate MovedFile(e: FileEntry, e': FileEntry, from: Path, to: Path, now: int) {
    if e.Live() && Within(from, e.path) then e' == e.(path := Rebase(from, to, e.path), updatedAt := now) else e' == e
  }

  predicate MovedDir(e: DirEntry, e': DirEntry, from: Path, to: Path) {
    e' == e.(path := PathAfter(e.Live(), e.path, from, to))
  }

  /**
   * With unique live directories and `to` not below `from`: each live entry at or below `from`
   * gets `to` plus its old suffix, no other entry changes, and only ancestors of `to` are added.
   */
  lemma RenameMoves(s: State, s': State, from: Path, to: Path, now: int, root: Option<DirId>)
    requires UniqueDirs(s.dirs) && !IsAncestor(from, to) && from != to
    requires DirectoryRenamed(s, s', from, to, now, root)
    ensures Moved(s, s', from, to, now)
    ensures forall id :: id in s'.dirs && id !in s.dirs ==>
              s'.dirs[id] == DirEntry(s'.dirs[id].path, now, None) && IsAncestor(s'.dirs[id].path, to)
  {
    RootIsFound(s, from, root);
    assert from[|from|..] == "";
    assert Rebase(from, to, from) == to;
    assert s'.files == FilesMoved(s.files, from, to, now);
    forall id | id in s.files ensures MovedFile(s.files[id], s'.files[id], from, to, now) {}
  }

  lemma RootIsFound(s: State, from: Path, root: Option<DirId>)
    requires UniqueDirs(s.dirs) && FoundDir(s.dirs, from, root)
    ensures forall id :: id in s.dirs && s.dirs[id].LiveAt(from) ==> root == Some(id)
  {
    forall id | id in s.dirs && s.dirs[id].LiveAt(from) ensures root == Some(id) {
      assert LiveDirAt(s.dirs, from);
    }
  }

  /** No live entry outside `from` holds a path that an entry inside `from` moves to. */
  ghost predicate NoCollision(s: State, from: Path, to: Path) {
    && (forall a, b :: a in s.files && b in s.files && s.files[a].Live() && s.files[b].Live()
                       && Within(from, s.files[a].path) && !Within(from, s.files[b].path) ==>
          Rebase(from, to, s.files[a].path) != s.files[b].path)
    && (forall a, b :: a in s.dirs && b in s.dirs && s.dirs[a].Live() && s.dirs[b].Live()
                       && Within(from, s.dirs[a].path) && !Within(from, s.dirs[b].path) ==>
          Rebase(from, to, s.dirs[a].path) != s.dirs[b].path)
  }

  lemma DistinctAfter(p: Path, q: Path, from: Path, to: Path)
    requires p != q
    requires Within(from, p) && !Within(from, q) ==> Rebase(from, to, p) != q
    requires Within(from, q) && !Within(from, p) ==> Rebase(from, to, q) != p
    ensures PathAfter(true, p, from, to) != PathAfter(true, q, from, to)
  {
    if Within(from, p) && Within(from, q) && Rebase(from, to, p) == Rebase(from, to, q) {
      RebaseInjective(from, to, p, q);
    }
  }

  lemma MovedStaysUnique(s: State, t: State, from: Path, to: Path, now: int)
    requires Moved(s, t, from, to, now) && s.dirs.Keys == t.dirs.Keys
    requires UniqueFiles(s.files) && UniqueDirs(s.dirs) && NoCollision(s, from, to)
    ensures UniqueFiles(t.files) && UniqueDirs(t.dirs)
  {
    forall a, b | a in t.files && b in t.files && a != b && t.files[a].Live() && t.files[b].Live()
      ensures t.files[a].path != t.files[b].path
    {
      assert MovedFile(s.files[a], t.files[a], from, to, now) && MovedFile(s.files[b], t.files[b], from, to, now);
      DistinctAfter(s.files[a].path, s.files[b].path, from, to);
    }
    forall a, b | a in t.dirs && b in t.dirs && a != b && t.dirs[a].Live() && t.dirs[b].Live()
      ensures t.dirs[a].path != t.dirs[b].path
    {
      assert MovedDir(s.dirs[a], t.dirs[a], from, to) && MovedDir(s.dirs[b], t.dirs[b], from, to);
      DistinctAfter(s.dirs[a].path, s.dirs[b].path, from, to);
    }
  }

  lemma MovedIsNormal(p: Path, from: Path, to: Path)
    requires IsNormal(p) && IsNormal(to)
    ensures IsNormal(PathAfter(true, p, from, to))
  {
    if p == from {
      assert Rebase(from, to, p) == to;
    } else if IsAncestor(from, p) {
      RebasedIsNormal(from, to, p);
    }
  }

  /** After the move, the ancestors of a live path live on, but for those of `to`. */
  lemma MovedAncestorLives(s: State, t: State, from: Path, to: Path, now: int, p: Path, a: Path)
    requires Moved(s, t, from, to, now) && AncestorsLive(s.dirs, p)
    requires IsAncestor(a, PathAfter(true, p, from, to))
    ensures LiveDirAt(t.dirs, a) || IsAncestor(a, to)
  {
    if Within(from, p) && !IsAncestor(a, to) {
      AncestorOfRebased(from, to, p, a);
      var b := Rebase(to, from, a);
      assert LiveDirAt(s.dirs, b);
      var id :| id in s.dirs && s.dirs[id].LiveAt(b);
      assert MovedDir(s.dirs[id], t.dirs[id], from, to);
      assert t.dirs[id].LiveAt(a);
    } else if !Within(from, p) {
      assert LiveDirAt(s.dirs, a);
      var id :| id in s.dirs && s.dirs[id].LiveAt(a);
      if Within(from, a) {
        WithinTransitive(from, a, p);
      }
      assert MovedDir(s.dirs[id], t.dirs[id], from, to);
      assert t.dirs[id].LiveAt(a);
    }
  }

  lemma MovedIsCoherentBut(s: State, t: State, from: Path, to: Path, now: int)
    requires Coherent(s) && IsNormal(to) && NoCollision(s, from, to)
    requires Moved(s, t, from, to, now) && s.dirs.Keys == t.dirs.Keys
    ensures CoherentBut(t.files, t.dirs, to)
  {
    MovedStaysUnique(s, t, from, to, now);
    forall id | id in t.files && t.files[id].Live()
      ensures IsNormal(t.files[id].path)
      ensures forall a :: IsAncestor(a, t.files[id].path) ==> LiveDirAt(t.dirs, a) || IsAncestor(a, to)
    {
      var p := s.files[id].path;
      assert MovedFile(s.files[id], t.files[id], from, to, now);
      assert t.files[id].path == PathAfter(true, p, from, to);
      MovedIsNormal(p, from, to);
      forall a | IsAncestor(a, t.files[id].path) ensures LiveDirAt(t.dirs, a) || IsAncestor(a, to) {
        MovedAncestorLives(s, t, from, to, now, p, a);
      }
    }
    forall id | id in t.dirs && t.dirs[id].Live()
      ensures IsNormal(t.dirs[id].path)
      ensures forall a :: IsAncestor(a, t.dirs[id].path) ==> LiveDirAt(t.dirs, a) || IsAncestor(a, to)
    {
      var p := s.dirs[id].path;
      assert MovedDir(s.dirs[id], t.dirs[id], from, to);
      assert t.dirs[id].path == PathAfter(true, p, from, to);
      MovedIsNormal(p, from, to);
      forall a | IsAncestor(a, t.dirs[id].path) ensures LiveDirAt(t.dirs, a) || IsAncestor(a, to) {
        MovedAncestorLives(s, t, from, to, now, p, a);
      }
    }
  }

  /** The state after the moves of `rename_directory`, before the ancestors of `to` are created. */
  function AfterMoves(s: State, from: Path, to: Path, now: int, root: Option<DirId>): State {
    State(FilesMoved(s.files, from, to, now), DirsMoved(RootMoved(s.dirs, root, to), from, to))
  }

  lemma SafeOutwardRename(s: State, s': State, from: Path, to: Path, now: int, root: Option<DirId>)
    requires Coherent(s) && IsNormal(to) && from != to && !IsAncestor(from, to)
    requires DirectoryRenamed(s, s', from, to, now, root)
    requires NoCollision(s, from, to)
    ensures Coherent(s')
  {
    RenameMoves(s, s', from, to, now, root);
    var t := AfterMoves(s, from, to, now, root);
    assert Moved(s, t, from, to, now);
    MovedIsCoherentBut(s, t, from, to, now);
    EnsuringCompletes(t.files, t.dirs, s'.dirs, to, now);
  }

  lemma CollisionBreaks(s: State, s': State, from: Path, to: Path, now: int, root: Option<DirId>)
    requires UniqueDirs(s.dirs) && from != to && !IsAncestor(from, to)
    requires DirectoryRenamed(s, s', from, to, now, root)
    requires UniqueFiles(s'.files) && UniqueDirs(s'.dirs)
    ensures NoCollision(s, from, to)
  {
    RenameMoves(s, s', from, to, now, root);
    forall a, b | a in s.files && b in s.files && s.files[a].Live() && s.files[b].Live()
                  && Within(from, s.files[a].path) && !Within(from, s.files[b].path)
      ensures Rebase(from, to, s.files[a].path) != s.files[b].path
    {
      assert MovedFile(s.files[a], s'.files[a], from, to, now) && MovedFile(s.files[b], s'.files[b], from, to, now);
    }
    forall a, b | a in s.dirs && b in s.dirs && s.dirs[a].Live() && s.dirs[b].Live()
                  && Within(from, s.dirs[a].path) && !Within(from, s.dirs[b].path)
      ensures Rebase(from, to, s.dirs[a].path) != s.dirs[b].path
    {
      assert MovedDir(s.dirs[a], s'.dirs[a], from, to) && MovedDir(s.dirs[b], s'.dirs[b], from, to);
    }
  }

  // ---- Renaming a directory into its own subtree ----

  /** The root is moved twice and ends below `to`, where no directory is. */
  lemma InwardRenameBreaks(s: State, s': State, from: Path, to: Path, now: int, root: Option<DirId>)
    requires IsAncestor(from, to) && LiveDirAt(s.dirs, from)
    requires UniqueDirs(s.dirs) && DirectoryRenamed(s, s', from, to, now, root)
    ensures !LiveDirAt(s'.dirs, to)
    ensures s'.dirs[root.value].LiveAt(Rebase(from, to, to)) && IsAncestor(to, Rebase(from, to, to))
    ensures !Coherent(s')
  {
    var moved := DirsMoved(RootMoved(s.dirs, root, to), from, to);
    assert moved[root.value].LiveAt(Rebase(from, to, to));
    assert s'.dirs[root.value] == moved[root.value];
    assert to[|from|] == '/';
    assert IsAncestor(to, Rebase(from, to, to)) by {
      assert Rebase(from, to, to)[..|to|] == to;
      assert Rebase(from, to, to)[|to|] == to[|from|..][0];
    }
    forall id | id in s'.dirs && s'.dirs[id].Live() ensures s'.dirs[id].path != to {
      if id in moved && IsAncestor(from, RootMoved(s.dirs, root, to)[id].path) {
        assert |moved[id].path| > |to|;
      }
    }
  }

  /** In a coherent document nothing lives below a path where no directory lives. */
  lemma NothingBelowMissing(s: State, p: Path)
    requires Coherent(s) && !LiveDirAt(s.dirs, p)
    ensures forall id :: id in s.files && s.files[id].Live() ==> !IsAncestor(p, s.files[id].path)
    ensures forall id :: id in s.dirs && s.dirs[id].Live() ==> !IsAncestor(p, s.dirs[id].path) && s.dirs[id].path != p
  {
    forall id | id in s.files && s.files[id].Live() ensures !IsAncestor(p, s.files[id].path) {
      assert AncestorsLive(s.dirs, s.files[id].path);
    }
    forall id | id in s.dirs && s.dirs[id].Live() ensures !IsAncestor(p, s.dirs[id].path) && s.dirs[id].path != p {
      assert AncestorsLive(s.dirs, s.dirs[id].path) && s.dirs[id].LiveAt(s.dirs[id].path);
    }
  }

  /** So moving such a path moves at most a file. */
  lemma OnlyFileMoves(s: State, from: Path, to: Path, now: int, root: Option<DirId>)
    requires Coherent(s) && !LiveDirAt(s.dirs, from) && FoundDir(s.dirs, from, root) && IsAncestor(from, to)
    requires forall id :: id in s.files && s.files[id].Live() ==> !IsAncestor(from, s.files[id].path)
    requires forall id :: id in s.dirs && s.dirs[id].Live() ==> !IsAncestor(from, s.dirs[id].path) && s.dirs[id].path != from
    ensures Moved(s, AfterMoves(s, from, to, now, root), from, to, now) && NoCollision(s, from, to)
  {
    assert from[|from|..] == "";
  }

  /** A file at `from`, with no directory there, may move below its own old path. */
  lemma InwardFileRename(s: State, s': State, from: Path, to: Path, now: int, root: Option<DirId>)
    requires Coherent(s) && IsNormal(to) && IsAncestor(from, to) && !LiveDirAt(s.dirs, from)
    requires DirectoryRenamed(s, s', from, to, now, root)
    ensures Coherent(s') && NoCollision(s, from, to)
  {
    NothingBelowMissing(s, from);
    var t := AfterMoves(s, from, to, now, root);
    OnlyFileMoves(s, from, to, now, root);
    MovedIsCoherentBut(s, t, from, to, now);
    EnsuringCompletes(t.files, t.dirs, s'.dirs, to, now);
  }

  /** A check a caller could make before the rename. */
  ghost predicate RenameSafe(s: State, from: Path, to: Path) {
    NoCollision(s, from, to) && (IsAncestor(from, to) ==> !LiveDirAt(s.dirs, from))
  }

  /** `rename_directory` keeps a coherent document coherent exactly when the rename is safe. */
  lemma RenameCoherentExactly(s: State, s': State, from: Path, to: Path, now: int, root: Option<DirId>)
    requires Coherent(s) && IsNormal(from) && IsNormal(to) && from != to
    requires DirectoryRenamed(s, s', from, to, now, root)
    ensures Coherent(s') <==> RenameSafe(s, from, to)
  {
    if IsAncestor(from, to) {
      if LiveDirAt(s.dirs, from) {
        InwardRenameBreaks(s, s', from, to, now, root);
      } else {
        InwardFileRename(s, s', from, to, now, root);
      }
    } else if NoCollision(s, from, to) {
      SafeOutwardRename(s, s', from, to, now, root);
    } else if Coherent(s') {
      CollisionBreaks(s, s', from, to, now, root);
    }
  }

  // ---- Renaming back ----

  ghost predicate NothingWithin(s: State, p: Path) {
    && (forall id :: id in s.files && s.files[id].Live() ==> !Within(p, s.files[id].path))
    && (forall id :: id in s.dirs && s.dirs[id].Live() ==> !Within(p, s.dirs[id].path))
  }

  lemma PathThereAndBack(p: Path, from: Path, to: Path)
    requires !Within(to, p)
    ensures PathAfter(true, PathAfter(true, p, from, to), to, from) == p
    ensures Within(to, PathAfter(true, p, from, to)) <==> Within(from, p)
  {
    if Within(from, p) {
      RebaseBack(from, to, p);
    }
  }

  lemma NothingWithinNoCollision(s: State, from: Path, to: Path)
    requires NothingWithin(s, to)
    ensures NoCollision(s, from, to)
  {
    forall p, q | Within(from, p) && !Within(to, q) ensures Rebase(from, to, p) != q {
      RebaseBack(from, to, p);
    }
  }

  /** Renaming to an unused path and back restores every path; only update times and ancestors of `to` remain. */
  lemma RenameBackRestores(s: State, s1: State, s2: State, from: Path, to: Path, now1: int, now2: int,
                           root1: Option<DirId>, root2: Option<DirId>)
    requires Coherent(s) && IsNormal(from) && IsNormal(to) && from != to
    requires !IsAncestor(from, to) && !IsAncestor(to, from) && NothingWithin(s, to)
    requires DirectoryRenamed(s, s1, from, to, now1, root1)
    requires DirectoryRenamed(s1, s2, to, from, now2, root2)
    ensures Coherent(s1)
    ensures s2.files.Keys == s.files.Keys
    ensures forall id :: id in s.files ==>
              s2.files[id] == s.files[id].(updatedAt := s2.files[id].updatedAt)
    ensures s.dirs.Keys <= s2.dirs.Keys && forall id :: id in s.dirs ==> s2.dirs[id] == s.dirs[id]
    ensures forall id :: id in s2.dirs && id !in s.dirs ==>
              IsAncestor(s2.dirs[id].path, to) || IsAncestor(s2.dirs[id].path, from)
  {
    NothingWithinNoCollision(s, from, to);
    SafeOutwardRename(s, s1, from, to, now1, root1);
    RenameMoves(s, s1, from, to, now1, root1);
    RenameMoves(s1, s2, to, from, now2, root2);
    MovedThereAndBack(s, s1, s2, from, to, now1, now2);
    forall id | id in s2.dirs && id !in s.dirs
      ensures IsAncestor(s2.dirs[id].path, to) || IsAncestor(s2.dirs[id].path, from)
    {
      if id in s1.dirs {
        assert IsAncestor(s1.dirs[id].path, to) && !Within(to, s1.dirs[id].path);
        assert MovedDir(s1.dirs[id], s2.dirs[id], to, from);
      }
    }
  }

  lemma MovedThereAndBack(s: State, s1: State, s2: State, from: Path, to: Path, now1: int, now2: int)
    requires NothingWithin(s, to)
    requires Moved(s, s1, from, to, now1) && Moved(s1, s2, to, from, now2)
    ensures forall id :: id in s.files ==>
              s2.files[id] == s.files[id].(updatedAt := s2.files[id].updatedAt)
    ensures forall id :: id in s.dirs ==> s2.dirs[id] == s.dirs[id]
  {
    forall id | id in s.files ensures s2.files[id] == s.files[id].(updatedAt := s2.files[id].updatedAt) {
      var e, e1, e2 := s.files[id], s1.files[id], s2.files[id];
      assert MovedFile(e, e1, from, to, now1) && MovedFile(e1, e2, to, from, now2);
      if e.Live() {
        PathThereAndBack(e.path, from, to);
      }
    }
    forall id | id in s.dirs ensures s2.dirs[id] == s.dirs[id] {
      var e, e1, e2 := s.dirs[id], s1.dirs[id], s2.dirs[id];
      assert MovedDir(e, e1, from, to) && MovedDir(e1, e2, to, from);
      if e.Live() {
        PathThereAndBack(e.path, from, to);
      }
    }
  }
}
