/**
 * The document of one replica (`doc/files.rs`, `doc/directories.rs`, `doc/history.rs`).
 * Fields stand for the Automerge maps; `snapshots` is the history, giving the state at a set of
 * heads. `now` is the reading of the clock. Each operation of the original ends in a commit;
 * here the commit is the separate method `Commit`.
 */
module Document {
  import opened Wrappers
  import opened Paths
  import opened DocumentState
  import opened Heads
  import opened ChangeGraph

  /** A label entry: a map with encoded heads, or the older bare byte string. */
  datatype Label =
    | Labelled(heads: Option<seq<Byte>>, createdAt: Option<int>)
    | Legacy(bytes: seq<Byte>)
  {
    function Stored(): Option<seq<Byte>> {
      match this
      case Labelled(h, _) => h
      case Legacy(b) => Some(b)
    }
  }

  ghost predicate WellEncoded(labels: map<string, Label>) {
    forall n :: n in labels && labels[n].Stored().Some? ==> |labels[n].Stored().value| % HASH_LENGTH == 0
  }

  function HeadSet(heads: seq<ChangeHash>): set<ChangeHash> {
    set h | h in heads
  }

  /** The heads are changes of the document, and the state they stand for is one the replica has held. */
  predicate Holds(changes: seq<Change>, snapshots: map<set<ChangeHash>, State>, heads: set<ChangeHash>) {
    heads <= Hashes(changes) && ClosureOf(changes, heads) in snapshots
  }

  class Doc {
    var files: Files
    var dirs: Dirs
    var labels: map<string, Label>
    var heads: seq<ChangeHash>
    var changes: seq<Change>
    /** The state a set of changes makes, for the sets whose states this replica has held. */
    var snapshots: map<set<ChangeHash>, State>

    /** An empty document; its first change is the genesis change. */
    constructor (genesis: ChangeHash, stamp: int)
      ensures S() == State(map[], map[]) && labels == map[]
      ensures heads == [genesis] && changes == [Change(genesis, stamp, {})]
      ensures snapshots == map[{genesis} := State(map[], map[])]
    {
      files, dirs, labels := map[], map[], map[];
      heads, changes := [genesis], [Change(genesis, stamp, {})];
      snapshots := map[{genesis} := State(map[], map[])];
    }

    function S(): State
      reads this
    {
      State(files, dirs)
    }

    // ---- Lookups ----

    /** Scan the file entries, in whatever order, for a live one at `path`. */
    method FindFile(path: Path) returns (r: Option<FileId>)
      ensures FoundFile(files, path, r)
    {
      var todo := files.Keys;
      while todo != {}
        invariant todo <= files.Keys
        invariant forall id :: id in files && id !in todo ==> !files[id].LiveAt(path)
        decreases |todo|
      {
        var id :| id in todo;
        todo := todo - {id};
        if files[id].deletedAt.Some? {
          continue;
        }
        if files[id].path == path {
          return Some(id);
        }
      }
      return None;
    }

    method FindDirectory(path: Path) returns (r: Option<DirId>)
      ensures FoundDir(dirs, path, r)
    {
      var todo := dirs.Keys;
      while todo != {}
        invariant todo <= dirs.Keys
        invariant forall id :: id in dirs && id !in todo ==> !dirs[id].LiveAt(path)
        decreases |todo|
      {
        var id :| id in todo;
        todo := todo - {id};
        if dirs[id].deletedAt.Some? {
          continue;
        }
        if dirs[id].path == path {
          return Some(id);
        }
      }
      return None;
    }

    method FileExists(path: string) returns (b: bool)
      ensures b <==> Normalized(path).Ok? && LiveFileAt(files, Normalized(path).value)
    {
      var p := Normalize(path);
      if p.Err? {
        return false;
      }
      var r := FindFile(p.value);
      return r.Some?;
    }

    method ReadFile(path: string) returns (r: Result<Bytes, DocError>)
      ensures Normalized(path).Err? ==> r == Err(InvalidPath(Normalized(path).error))
      ensures Normalized(path).Ok? ==>
                var p := Normalized(path).value;
                if LiveFileAt(files, p) then
                  exists id :: id in files && files[id].LiveAt(p)
                            && r == match files[id].text case Some(t) => Ok(t) case None => Err(NotATextFile(p))
                else r == Err(NotFound(p))
    {
      var p := Normalize(path);
      if p.Err? {
        return Err(InvalidPath(p.error));
      }
      var found := FindFile(p.value);
      if found.None? {
        return Err(NotFound(p.value));
      }
      match files[found.value].text
      case Some(t) => return Ok(t);
      case None => return Err(NotATextFile(p.value));
    }

    /** An id no entry uses, as a random UUID is. */
    static method NewId(used: set<nat>) returns (id: nat)
      ensures id !in used
    {
      id := 0;
      var todo := used;
      while todo != {}
        invariant forall u :: u in used ==> u in todo || u < id
        decreases |todo|
      {
        var u :| u in todo;
        todo := todo - {u};
        if u >= id {
          id := u + 1;
        }
      }
    }

    // ---- Files ----

    /** Each of `done` has a live directory, and those that had none before have got exactly one. */
    static ghost predicate EnsuredSoFar(before: Dirs, dirs: Dirs, done: seq<Path>, now: int) {
      && before.Keys <= dirs.Keys
      && (forall id :: id in before ==> dirs[id] == before[id])
      && (forall id :: id in dirs && id !in before ==>
            dirs[id] == DirEntry(dirs[id].path, now, None) && dirs[id].path in done && !LiveDirAt(before, dirs[id].path))
      && (forall a, b :: a in dirs && b in dirs && a !in before && b !in before && a != b ==> dirs[a].path != dirs[b].path)
      && (forall k :: 0 <= k < |done| ==> LiveDirAt(dirs, done[k]))
    }

    static lemma OneMoreEnsured(before: Dirs, dirs: Dirs, done: seq<Path>, p: Path, id: DirId, now: int)
      requires EnsuredSoFar(before, dirs, done, now) && !LiveDirAt(dirs, p) && id !in dirs
      ensures EnsuredSoFar(before, dirs[id := DirEntry(p, now, None)], done + [p], now)
    {
      ghost var more := dirs[id := DirEntry(p, now, None)];
      forall k | 0 <= k < |done + [p]| ensures LiveDirAt(more, (done + [p])[k]) {
        if k < |done| {
          assert (done + [p])[k] == done[k] && LiveDirAt(dirs, done[k]);
          ghost var w :| w in dirs && dirs[w].LiveAt(done[k]);
          assert more[w].LiveAt(done[k]);
        } else {
          assert more[id].LiveAt(p);
        }
      }
      forall w | w in dirs && w !in before ensures dirs[w].path != p {
        assert dirs[w].LiveAt(dirs[w].path);
      }
      forall w | w in before ensures !before[w].LiveAt(p) {
        assert dirs[w] == before[w];
      }
    }

    static lemma NothingToEnsure(before: Dirs, dirs: Dirs, done: seq<Path>, p: Path, now: int)
      requires EnsuredSoFar(before, dirs, done, now) && LiveDirAt(dirs, p)
      ensures EnsuredSoFar(before, dirs, done + [p], now)
    {
      assert forall k :: 0 <= k < |done + [p]| ==> (done + [p])[k] == if k < |done| then done[k] else p;
    }

    method EnsureAncestorDirectories(path: Path, now: int)
      requires IsNormal(path)
      modifies this`dirs
      ensures AncestorsEnsured(old(dirs), dirs, path, now)
    {
      NormalIsRelative(path);
      var list := Ancestors(path);
      ghost var before := dirs;
      for i := 0 to |list|
        invariant EnsuredSoFar(before, dirs, list[..i], now)
      {
        assert list[..i + 1] == list[..i] + [list[i]];
        var found := FindDirectory(list[i]);
        if found.None? {
          var id := NewId(dirs.Keys);
          OneMoreEnsured(before, dirs, list[..i], list[i], id, now);
          dirs := dirs[id := DirEntry(list[i], now, None)];
        } else {
          NothingToEnsure(before, dirs, list[..i], list[i], now);
        }
      }
      assert list[..|list|] == list;
      forall a | IsAncestor(a, path) ensures LiveDirAt(dirs, a) {
        assert a in list;
      }
    }

    method WriteTextFile(path: string, content: Bytes, now: int) returns (r: Result<FileId, DocError>)
      modifies this`files, this`dirs
      ensures match Normalized(path)
              case Err(e) => r == Err(InvalidPath(e)) && S() == old(S())
              case Ok(p) => r.Ok? && TextWritten(old(S()), S(), p, content, now, r.value)
    {
      var p := Normalize(path);
      if p.Err? {
        return Err(InvalidPath(p.error));
      }
      var found := FindFile(p.value);
      if found.Some? {
        var id := found.value;
        var entry := files[id];
        match entry.text {
          case Some(current) =>
            if current != content {
              entry := entry.(text := Some(content));
            }
          case None =>
            entry := entry.(text := Some(content));
        }
        entry := entry.(size := |content|, updatedAt := now, kind := Text, deletedAt := None);
        files := files[id := entry];
        return Ok(id);
      }
      var id := NewId(files.Keys);
      files := files[id := FileEntry(p.value, Text, |content|, now, now, None, Some(content), None)];
      NormalizedIsNormal(path);
      EnsureAncestorDirectories(p.value, now);
      return Ok(id);
    }

    method WriteAttachment(path: string, hash: Hash, size: nat, now: int) returns (r: Result<FileId, DocError>)
      modifies this`files, this`dirs
      ensures match Normalized(path)
              case Err(e) => r == Err(InvalidPath(e)) && S() == old(S())
              case Ok(p) => r.Ok? && AttachmentWritten(old(S()), S(), p, hash, size, now, r.value)
    {
      var p := Normalize(path);
      if p.Err? {
        return Err(InvalidPath(p.error));
      }
      var found := FindFile(p.value);
      if found.Some? {
        var id := found.value;
        files := files[id := files[id].(binaryHash := Some(hash), kind := Attachment, size := size,
                                        updatedAt := now, deletedAt := None)];
        return Ok(id);
      }
      var id := NewId(files.Keys);
      files := files[id := FileEntry(p.value, Attachment, size, now, now, None, None, Some(hash))];
      NormalizedIsNormal(path);
      EnsureAncestorDirectories(p.value, now);
      return Ok(id);
    }

    method DeleteFile(path: string, now: int) returns (r: Result<FileId, DocError>)
      modifies this`files
      ensures match Normalized(path)
              case Err(e) => r == Err(InvalidPath(e)) && S() == old(S())
              case Ok(p) =>
                if LiveFileAt(old(files), p) then r.Ok? && FileDeleted(old(S()), S(), p, now, r.value)
                else r == Err(NotFound(p)) && S() == old(S())
    {
      var p := Normalize(path);
      if p.Err? {
        return Err(InvalidPath(p.error));
      }
      var found := FindFile(p.value);
      if found.None? {
        return Err(NotFound(p.value));
      }
      files := files[found.value := files[found.value].(deletedAt := Some(now))];
      return Ok(found.value);
    }

    method RenameFile(from: string, to: string, now: int) returns (r: Result<Option<FileId>, DocError>)
      modifies this`files, this`dirs
      ensures Normalized(from).Err? ==> r == Err(InvalidPath(Normalized(from).error)) && S() == old(S())
      ensures Normalized(from).Ok? && Normalized(to).Err? ==>
                r == Err(InvalidPath(Normalized(to).error)) && S() == old(S())
      ensures Normalized(from).Ok? && Normalized(to).Ok? ==>
                var f, t := Normalized(from).value, Normalized(to).value;
                if f == t then r == Ok(None) && S() == old(S())
                else if !LiveFileAt(old(files), f) then r == Err(NotFound(f)) && S() == old(S())
                else if LiveFileAt(old(files), t) then r == Err(AlreadyExists(t)) && S() == old(S())
                else r.Ok? && r.value.Some? && FileRenamed(old(S()), S(), f, t, now, r.value.value)
    {
      var f := Normalize(from);
      if f.Err? {
        return Err(InvalidPath(f.error));
      }
      var t := Normalize(to);
      if t.Err? {
        return Err(InvalidPath(t.error));
      }
      if f.value == t.value {
        return Ok(None);
      }
      var found := FindFile(f.value);
      if found.None? {
        return Err(NotFound(f.value));
      }
      var clash := FindFile(t.value);
      if clash.Some? {
        return Err(AlreadyExists(t.value));
      }
      files := files[found.value := files[found.value].(path := t.value, updatedAt := now)];
      NormalizedIsNormal(to);
      EnsureAncestorDirectories(t.value, now);
      return Ok(Some(found.value));
    }

    // ---- Directories ----

    method CreateDirectory(path: string, now: int) returns (r: Result<DirId, DocError>)
      modifies this`dirs
      ensures match Normalized(path)
              case Err(e) => r == Err(InvalidPath(e)) && S() == old(S())
              case Ok(p) => r.Ok? && DirectoryCreated(old(S()), S(), p, now, r.value)
    {
      var p := Normalize(path);
      if p.Err? {
        return Err(InvalidPath(p.error));
      }
      var found := FindDirectory(p.value);
      if found.Some? {
        return Ok(found.value);
      }
      var id := NewId(dirs.Keys);
      dirs := dirs[id := DirEntry(p.value, now, None)];
      NormalizedIsNormal(path);
      EnsureAncestorDirectories(p.value, now);
      return Ok(id);
    }

    /** The paths of the live files strictly below `path`, one for each such file. */
    method ChildFiles(path: Path) returns (list: seq<Path>)
      requires path != ""
      ensures Tally(files, files.Keys, path, list)
    {
      list := [];
      var todo := files.Keys;
      while todo != {}
        invariant todo <= files.Keys
        invariant Tally(files, files.Keys - todo, path, list)
        decreases |todo|
      {
        var id :| id in todo;
        ghost var seen := files.Keys - todo;
        todo := todo - {id};
        assert files.Keys - todo == seen + {id};
        TallyStep(files, seen, path, list, id);
        if files[id].Live() && Under(path, files[id].path) && files[id].path != path {
          list := list + [files[id].path];
        }
      }
      assert files.Keys - todo == files.Keys;
    }

    /** Each file is as it was, or cleared. */
    static ghost predicate PartlyCleared(first: Files, files: Files, path: Path, now: int) {
      && files.Keys == first.Keys
      && forall id :: id in files ==> files[id] == first[id] || files[id] == FilesCleared(first, path, now)[id]
    }

    static lemma PartlyClearedStep(first: Files, before: Files, after: Files, path: Path, p: Path, id: FileId, now: int)
      requires PartlyCleared(first, before, path, now) && IsAncestor(path, p)
      requires id in before && before[id].LiveAt(p) && after == before[id := before[id].(deletedAt := Some(now))]
      ensures PartlyCleared(first, after, path, now)
    {
      assert before[id] == first[id];
    }

    static lemma PartlyClearedEnds(first: Files, files: Files, path: Path, now: int)
      requires PartlyCleared(first, files, path, now)
      requires forall id :: id in files && files[id].Live() ==> !IsAncestor(path, files[id].path)
      ensures files == FilesCleared(first, path, now)
    {
      ghost var cleared := FilesCleared(first, path, now);
      assert files.Keys == cleared.Keys;
      forall id | id in files ensures files[id] == cleared[id] {
      }
    }

    /** Delete one live file per listed path; with normal paths none of the deletions can fail. */
    method DeleteListed(path: Path, list: seq<Path>, now: int) returns (r: Result<(), DocError>)
      requires Tally(files, files.Keys, path, list)
      modifies this`files
      ensures NormalPaths(old(S())) ==> r == Ok(()) && files == FilesCleared(old(files), path, now)
    {
      ghost var normal, first := NormalPaths(S()), files;
      for i := 0 to |list|
        invariant normal ==> Tally(files, files.Keys, path, list[i..]) && PartlyCleared(first, files, path, now)
      {
        ghost var before, rest := files, list[i..];
        assert rest[0] == list[i] && rest[1..] == list[i + 1..];
        if normal {
          TallyHead(before, path, rest);
          ghost var id :| id in before && before[id].LiveAt(list[i]);
          assert first[id].LiveAt(list[i]);
          NormalIsRelative(list[i]);
          NormalizeFixpoint(list[i]);
        }
        var deleted := DeleteFile(list[i], now);
        if deleted.Err? {
          return Err(deleted.error);
        }
        if normal {
          TallyDelete(before, files, path, rest, list[i], deleted.value, now);
          PartlyClearedStep(first, before, files, path, list[i], deleted.value, now);
        }
      }
      if normal {
        assert list[|list|..] == [];
        TallyEmpty(files, path);
        PartlyClearedEnds(first, files, path, now);
      }
      return Ok(());
    }

    method DeleteDirectory(path: string, recursive: bool, now: int) returns (r: Result<Option<DirId>, DocError>)
      modifies this`files, this`dirs
      ensures Normalized(path).Err? ==> r == Err(InvalidPath(Normalized(path).error)) && S() == old(S())
      ensures NormalPaths(old(S())) && Normalized(path).Ok? ==>
                var p := Normalized(path).value;
                if !recursive && exists id :: id in old(files) && old(files)[id].Live() && IsAncestor(p, old(files)[id].path)
                then r == Err(DirectoryNotEmpty(p)) && S() == old(S())
                else r.Ok? && DirectoryDeleted(old(S()), S(), p, recursive, now, r.value)
    {
      var p := Normalize(path);
      if p.Err? {
        return Err(InvalidPath(p.error));
      }
      NormalizedIsNormal(path);
      var childFiles := ChildFiles(p.value);
      if childFiles != [] && !recursive {
        TallyHead(files, p.value, childFiles);
        return Err(DirectoryNotEmpty(p.value));
      }
      if recursive {
        var deleted := DeleteListed(p.value, childFiles, now);
        if deleted.Err? {
          return Err(deleted.error);
        }
        ClearDirs(p.value, now);
      } else {
        TallyEmpty(files, p.value);
      }
      var root := FindDirectory(p.value);
      if root.Some? {
        dirs := dirs[root.value := dirs[root.value].(deletedAt := Some(now))];
      }
      return Ok(root);
    }

    /** Tombstone the live directories strictly below `path`. */
    method ClearDirs(path: Path, now: int)
      requires path != ""
      modifies this`dirs
      ensures dirs == DirsCleared(old(dirs), path, now)
      ensures forall r :: FoundDir(dirs, path, r) ==> FoundDir(old(dirs), path, r)
    {
      ghost var before := dirs;
      var childDirs := set id | id in dirs && dirs[id].Live() && Under(path, dirs[id].path) && dirs[id].path != path;
      var todo := childDirs;
      while todo != {}
        invariant todo <= childDirs && dirs.Keys == before.Keys
        invariant forall id :: id in dirs ==>
                    dirs[id] == if id in childDirs - todo then before[id].(deletedAt := Some(now)) else before[id]
        decreases |todo|
      {
        var id :| id in todo;
        todo := todo - {id};
        dirs := dirs[id := dirs[id].(deletedAt := Some(now))];
      }
      ghost var cleared := DirsCleared(before, path, now);
      assert dirs.Keys == cleared.Keys;
      forall id | id in dirs ensures dirs[id] == cleared[id] {
        assert id in childDirs <==> before[id].Live() && IsAncestor(path, before[id].path);
      }
      assert dirs == cleared;
      assert forall id :: id in before && before[id].LiveAt(path) ==> dirs[id].LiveAt(path);
    }

    method RenameDirectory(from: string, to: string, now: int) returns (r: Result<Option<DirId>, DocError>)
      modifies this`files, this`dirs
      ensures Normalized(from).Err? ==> r == Err(InvalidPath(Normalized(from).error)) && S() == old(S())
      ensures Normalized(from).Ok? && Normalized(to).Err? ==>
                r == Err(InvalidPath(Normalized(to).error)) && S() == old(S())
      ensures Normalized(from).Ok? && Normalized(to).Ok? ==>
                var f, t := Normalized(from).value, Normalized(to).value;
                if f == t then r == Ok(None) && S() == old(S())
                else r.Ok? && DirectoryRenamed(old(S()), S(), f, t, now, r.value)
    {
      var f := Normalize(from);
      if f.Err? {
        return Err(InvalidPath(f.error));
      }
      var t := Normalize(to);
      if t.Err? {
        return Err(InvalidPath(t.error));
      }
      if f.value == t.value {
        return Ok(None);
      }
      NormalizedIsNormal(from);
      NormalizedIsNormal(to);
      var root := FindDirectory(f.value);
      if root.Some? {
        dirs := dirs[root.value := dirs[root.value].(path := t.value)];
      }
      MoveDirs(f.value, t.value);
      MoveFiles(f.value, t.value, now);
      EnsureAncestorDirectories(t.value, now);
      return Ok(root);
    }

    method MoveDirs(from: Path, to: Path)
      requires from != ""
      modifies this`dirs
      ensures dirs == DirsMoved(old(dirs), from, to)
    {
      var todo := dirs.Keys;
      while todo != {}
        invariant todo <= old(dirs).Keys == dirs.Keys
        invariant forall id :: id in dirs ==>
                    dirs[id] == if id in todo then old(dirs)[id] else DirsMoved(old(dirs), from, to)[id]
        decreases |todo|
      {
        var id :| id in todo;
        todo := todo - {id};
        if dirs[id].deletedAt.Some? {
          continue;
        }
        var p := dirs[id].path;
        if Under(from, p) && p != from {
          dirs := dirs[id := dirs[id].(path := to + p[|from|..])];
        }
      }
    }

    method MoveFiles(from: Path, to: Path, now: int)
      requires from != ""
      modifies this`files
      ensures files == FilesMoved(old(files), from, to, now)
    {
      var todo := files.Keys;
      while todo != {}
        invariant todo <= old(files).Keys == files.Keys
        invariant forall id :: id in files ==>
                    files[id] == if id in todo then old(files)[id] else FilesMoved(old(files), from, to, now)[id]
        decreases |todo|
      {
        var id :| id in todo;
        todo := todo - {id};
        if files[id].deletedAt.Some? {
          continue;
        }
        var p := files[id].path;
        if Under(from, p) {
          var moved := if p == from then to else to + p[|from|..];
          assert p == from ==> to + p[|from|..] == to;
          files := files[id := files[id].(path := moved, updatedAt := now)];
        }
      }
    }

    // ---- History ----

    /** Make the current state one more change, on top of the heads. */
    method Commit(hash: ChangeHash, stamp: int)
      modifies this`heads, this`changes, this`snapshots
      ensures heads == [hash]
      ensures changes == old(changes) + [Change(hash, stamp, HeadSet(old(heads)))]
      ensures snapshots == old(snapshots)[ClosureOf(changes, {hash}) := S()]
    {
      changes := changes + [Change(hash, stamp, HeadSet(heads))];
      heads := [hash];
      snapshots := snapshots[ClosureOf(changes, {hash}) := State(files, dirs)];
    }

    method CreateLabel(name: string, now: int)
      modifies this`labels
      ensures labels == old(labels)[name := Labelled(Some(Encoded(heads)), Some(now))]
    {
      var encoded := EncodeHeads(heads);
      labels := labels[name := Labelled(Some(encoded), Some(now))];
    }

    method DeleteLabel(name: string)
      modifies this`labels
      ensures labels == old(labels) - {name}
    {
      labels := labels - {name};
    }

    /**
     * The heads of label `name`. All labels are decoded on the way, so one badly encoded label
     * makes every lookup fail.
     */
    method GetLabelHeads(name: string) returns (r: Result<seq<ChangeHash>, DocError>)
      ensures r == Err(BadEncoding) <==> !WellEncoded(labels)
      ensures r.Ok? ==> name in labels && labels[name].Stored() == Some(Encoded(r.value))
      ensures r.Err? && r.error != BadEncoding ==>
                r == Err(UnknownLabel(name)) && (name in labels ==> labels[name].Stored().None?)
      ensures r != Err(BadEncoding) && name in labels && labels[name].Legacy? ==> r.Ok? && labels[name] == Legacy(Encoded(r.value))
    {
      var todo := labels.Keys;
      r := Err(UnknownLabel(name));
      while todo != {}
        invariant todo <= labels.Keys
        invariant forall n :: n in labels && n !in todo && labels[n].Stored().Some? ==>
                    |labels[n].Stored().value| % HASH_LENGTH == 0
        invariant r.Ok? ==> name in labels && labels[name].Stored() == Some(Encoded(r.value))
        invariant r.Err? ==> r == Err(UnknownLabel(name))
        invariant r.Err? && name in labels && name !in todo ==> labels[name].Stored().None?
        decreases |todo|
      {
        var n :| n in todo;
        todo := todo - {n};
        var stored := labels[n].Stored();
        if stored.None? {
          continue;
        }
        var decoded := DecodeHeads(stored.value);
        if decoded.None? {
          return Err(BadEncoding);
        }
        if n == name {
          r := Ok(decoded.value);
        }
      }
    }

    /** Restore the state the document had at `target`, by new forward-going writes. */
    method RestoreToHeads(target: seq<ChangeHash>, now: int) returns (r: Result<(), DocError>)
      modifies this`files, this`dirs
      ensures r == if Holds(changes, snapshots, HeadSet(target)) then Ok(()) else Err(UnknownHeads)
      ensures S() == if r.Ok? then Restored(old(S()), snapshots[ClosureOf(changes, HeadSet(target))], now) else old(S())
      ensures (exists i :: 0 <= i < |target| && forall k :: 0 <= k < |changes| ==> changes[k].hash != target[i]) ==> r == Err(UnknownHeads)
    {
      r := RestoreToSet(HeadSet(target), now);
      if i :| 0 <= i < |target| && forall k :: 0 <= k < |changes| ==> changes[k].hash != target[i] {
        assert target[i] in HeadSet(target) && target[i] !in Hashes(changes);
      }
    }

    method RestoreToSet(target: set<ChangeHash>, now: int) returns (r: Result<(), DocError>)
      modifies this`files, this`dirs
      ensures r == if Holds(changes, snapshots, target) then Ok(()) else Err(UnknownHeads)
      ensures S() == if r.Ok? then Restored(old(S()), snapshots[ClosureOf(changes, target)], now) else old(S())
    {
      if !Holds(changes, snapshots, target) {
        return Err(UnknownHeads);
      }
      var past := snapshots[ClosureOf(changes, target)];
      RestoreFiles(past.files, now);
      RestoreDirs(past.dirs, now);
      return Ok(());
    }

    /** Restore to the heads as of a point in time. */
    method RestoreToTime(time: int, now: int) returns (r: Result<(), DocError>)
      requires Ordered(changes)
      modifies this`files, this`dirs
      ensures var heads' := HeadsOf(SetOf(changes), time);
              && r == (if Holds(changes, snapshots, heads') then Ok(()) else Err(UnknownHeads))
              && S() == if r.Ok? then Restored(old(S()), snapshots[ClosureOf(changes, heads')], now) else old(S())
    {
      var targetHeads := HeadsAtTime(changes, time);
      r := RestoreToSet(targetHeads, now);
    }

    /** Look the label up and restore to its heads; `hs` is what the label was made with. */
    method RestoreLabel(name: string, now: int, ghost hs: seq<ChangeHash>) returns (r: Result<(), DocError>)
      modifies this`files, this`dirs
      ensures WellEncoded(labels) && name in labels && labels[name].Stored() == Some(Encoded(hs)) ==>
                r == if Holds(changes, snapshots, HeadSet(hs)) then Ok(()) else Err(UnknownHeads)
      ensures WellEncoded(labels) && name in labels && labels[name].Stored() == Some(Encoded(hs)) && r.Ok? ==>
                S() == Restored(old(S()), snapshots[ClosureOf(changes, HeadSet(hs))], now)
      ensures r.Err? ==> S() == old(S())
    {
      var found := GetLabelHeads(name);
      if found.Err? {
        return Err(found.error);
      }
      if Encoded(found.value) == Encoded(hs) {
        EncodedInjective(found.value, hs);
      }
      r := RestoreToHeads(found.value, now);
    }

    method RestoreFiles(past: Files, now: int)
      modifies this`files
      ensures files == FilesRestored(old(files), past, now)
    {
      SweepFiles(past, now);
      WriteBackFiles(past, now);
      assert files == FilesRestored(old(files), past, now);
    }

    /** Tombstone what is live now but was not in the past. */
    method SweepFiles(past: Files, now: int)
      modifies this`files
      ensures files.Keys == old(files).Keys
      ensures forall id :: id in files ==>
                files[id] == if old(files)[id].Live() && id !in LiveFiles(past)
                             then old(files)[id].(deletedAt := Some(now)) else old(files)[id]
    {
      var todo := files.Keys;
      while todo != {}
        invariant todo <= files.Keys == old(files).Keys
        invariant forall id :: id in files ==>
                    files[id] == if id !in todo && old(files)[id].Live() && id !in LiveFiles(past)
                                 then old(files)[id].(deletedAt := Some(now)) else old(files)[id]
        decreases |todo|
      {
        var id :| id in todo;
        todo := todo - {id};
        var aliveNow := files[id].deletedAt.None?;
        var alivePast := id in past && past[id].deletedAt.None?;
        if aliveNow && !alivePast {
          files := files[id := files[id].(deletedAt := Some(now))];
        }
      }
    }

    method WriteBackFiles(past: Files, now: int)
      modifies this`files
      ensures forall id :: id in files <==> id in old(files) || id in LiveFiles(past)
      ensures forall id :: id in files ==>
                files[id] == if id in LiveFiles(past) then RestoredFile(Lookup(old(files), id), past[id], now)
                             else old(files)[id]
    {
      ghost var before := files;
      var pastLive := LiveFiles(past);
      var todo := pastLive;
      while todo != {}
        invariant todo <= pastLive
        invariant forall id :: id in files <==> id in before || (id in pastLive && id !in todo)
        invariant forall id :: id in files ==>
                    files[id] == if id in pastLive && id !in todo
                                 then RestoredFile(Lookup(before, id), past[id], now) else before[id]
        decreases |todo|
      {
        var id :| id in todo;
        todo := todo - {id};
        WriteBackFile(id, past[id], now);
      }
    }

    method WriteBackFile(id: FileId, was: FileEntry, now: int)
      modifies this`files
      ensures files == old(files)[id := RestoredFile(Lookup(old(files), id), was, now)]
    {
      var entry := if id in files then files[id] else FileEntry(was.path, was.kind, 0, 0, 0, None, None, None);
      entry := entry.(path := was.path, kind := was.kind, size := was.size, createdAt := was.createdAt,
                      updatedAt := now, deletedAt := None);
      match was.kind {
        case Text =>
          var target := was.text.GetOr([]);
          if entry.text != Some(target) {
            entry := entry.(text := Some(target));
          }
        case Attachment =>
          if was.binaryHash.Some? {
            entry := entry.(binaryHash := was.binaryHash);
          }
      }
      files := files[id := entry];
    }

    method RestoreDirs(past: Dirs, now: int)
      modifies this`dirs
      ensures dirs == DirsRestored(old(dirs), past, now)
    {
      SweepDirs(past, now);
      WriteBackDirs(past);
      assert dirs == DirsRestored(old(dirs), past, now);
    }

    method SweepDirs(past: Dirs, now: int)
      modifies this`dirs
      ensures dirs.Keys == old(dirs).Keys
      ensures forall id :: id in dirs ==>
                dirs[id] == if old(dirs)[id].Live() && id !in LiveDirs(past)
                            then old(dirs)[id].(deletedAt := Some(now)) else old(dirs)[id]
    {
      var todo := dirs.Keys;
      while todo != {}
        invariant todo <= dirs.Keys == old(dirs).Keys
        invariant forall id :: id in dirs ==>
                    dirs[id] == if id !in todo && old(dirs)[id].Live() && id !in LiveDirs(past)
                                then old(dirs)[id].(deletedAt := Some(now)) else old(dirs)[id]
        decreases |todo|
      {
        var id :| id in todo;
        todo := todo - {id};
        var aliveNow := dirs[id].deletedAt.None?;
        var alivePast := id in past && past[id].deletedAt.None?;
        if aliveNow && !alivePast {
          dirs := dirs[id := dirs[id].(deletedAt := Some(now))];
        }
      }
    }

    method WriteBackDirs(past: Dirs)
      modifies this`dirs
      ensures forall id :: id in dirs <==> id in old(dirs) || id in LiveDirs(past)
      ensures forall id :: id in dirs ==>
                dirs[id] == if id in LiveDirs(past) then DirEntry(past[id].path, past[id].createdAt, None) else old(dirs)[id]
    {
      ghost var before := dirs;
      var pastLive := LiveDirs(past);
      var todo := pastLive;
      while todo != {}
        invariant todo <= pastLive
        invariant forall id :: id in dirs <==> id in before || (id in pastLive && id !in todo)
        invariant forall id :: id in dirs ==>
                    dirs[id] == if id in pastLive && id !in todo
                                then DirEntry(past[id].path, past[id].createdAt, None) else before[id]
        decreases |todo|
      {
        var id :| id in todo;
        todo := todo - {id};
        dirs := dirs[id := DirEntry(past[id].path, past[id].createdAt, None)];
      }
    }
  }
}
