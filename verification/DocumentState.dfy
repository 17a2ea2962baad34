/**
 * The replicated document as plain maps (`doc/mod.rs`), and what each document operation does
 * to it. Automerge hands out keys in an order of its own and ids are random, so the operations
 * are relations: any key order and any unused id is allowed.
 */
module DocumentState {
  import opened Wrappers
  import opened Paths

  type Bytes = seq<Byte>
  type FileId = nat
  type DirId = nat

  /** `content_hash`, without collisions; `Other` is any string that is no digest. */
  datatype Hash = Digest(of: Bytes) | Other(tag: string)

  datatype FileKind = Text | Attachment

  datatype FileEntry = FileEntry(
    path: Path, kind: FileKind, size: nat, createdAt: int, updatedAt: int,
    deletedAt: Option<int>, text: Option<Bytes>, binaryHash: Option<Hash>)
  {
    predicate Live() { deletedAt == None }

    predicate LiveAt(p: Path) { Live() && path == p }
  }

  datatype DirEntry = DirEntry(path: Path, createdAt: int, deletedAt: Option<int>) {
    predicate Live() { deletedAt == None }

    predicate LiveAt(p: Path) { Live() && path == p }
  }

  type Files = map<FileId, FileEntry>
  type Dirs = map<DirId, DirEntry>

  datatype State = State(files: Files, dirs: Dirs)

  datatype DocError =
    | InvalidPath(cause: PathError)
    | NotFound(path: Path)
    | AlreadyExists(path: Path)
    | NotATextFile(path: Path)
    | DirectoryNotEmpty(path: Path)
    | UnknownHeads
    | UnknownLabel(name: string)
    | BadEncoding

  ghost predicate LiveFileAt(files: Files, p: Path) {
    exists id :: id in files && files[id].LiveAt(p)
  }

  ghost predicate LiveDirAt(dirs: Dirs, p: Path) {
    exists id :: id in dirs && dirs[id].LiveAt(p)
  }

  /** What a scan for a live file at `p` may return. */
  ghost predicate FoundFile(files: Files, p: Path, r: Option<FileId>) {
    match r
    case Some(id) => id in files && files[id].LiveAt(p)
    case None => !LiveFileAt(files, p)
  }

  ghost predicate FoundDir(dirs: Dirs, p: Path, r: Option<DirId>) {
    match r
    case Some(id) => id in dirs && dirs[id].LiveAt(p)
    case None => !LiveDirAt(dirs, p)
  }

  /** `after` extends `before` by one live directory for each ancestor of `p` that had none. */
  ghost predicate AncestorsEnsured(before: Dirs, after: Dirs, p: Path, now: int) {
    && before.Keys <= after.Keys
    && (forall id :: id in before ==> after[id] == before[id])
    && (forall id :: id in after && id !in before ==>
          && after[id] == DirEntry(after[id].path, now, None)
          && IsAncestor(after[id].path, p)
          && !LiveDirAt(before, after[id].path))
    && (forall id1, id2 :: id1 in after && id2 in after && id1 !in before && id2 !in before && id1 != id2 ==>
          after[id1].path != after[id2].path)
    && (forall a :: IsAncestor(a, p) ==> LiveDirAt(after, a))
  }

  ghost predicate TextWritten(s: State, s': State, p: Path, content: Bytes, now: int, id: FileId) {
    if LiveFileAt(s.files, p) then
      && id in s.files && s.files[id].LiveAt(p)
      && s' == s.(files := s.files[id := s.files[id].(
                    kind := Text, size := |content|, updatedAt := now, text := Some(content))])
    else
      && id !in s.files
      && s'.files == s.files[id := FileEntry(p, Text, |content|, now, now, None, Some(content), None)]
      && AncestorsEnsured(s.dirs, s'.dirs, p, now)
  }

  ghost predicate AttachmentWritten(s: State, s': State, p: Path, hash: Hash, size: nat, now: int, id: FileId) {
    if LiveFileAt(s.files, p) then
      && id in s.files && s.files[id].LiveAt(p)
      && s' == s.(files := s.files[id := s.files[id].(
                    kind := Attachment, size := size, updatedAt := now, binaryHash := Some(hash))])
    else
      && id !in s.files
      && s'.files == s.files[id := FileEntry(p, Attachment, size, now, now, None, None, Some(hash))]
      && AncestorsEnsured(s.dirs, s'.dirs, p, now)
  }

  ghost predicate FileDeleted(s: State, s': State, p: Path, now: int, id: FileId) {
    && id in s.files && s.files[id].LiveAt(p)
    && s' == s.(files := s.files[id := s.files[id].(deletedAt := Some(now))])
  }

  ghost predicate FileRenamed(s: State, s': State, from: Path, to: Path, now: int, id: FileId) {
    && id in s.files && s.files[id].LiveAt(from)
    && !LiveFileAt(s.files, to)
    && s'.files == s.files[id := s.files[id].(path := to, updatedAt := now)]
    && AncestorsEnsured(s.dirs, s'.dirs, to, now)
  }

  ghost predicate DirectoryCreated(s: State, s': State, p: Path, now: int, id: DirId) {
    if LiveDirAt(s.dirs, p) then
      s' == s && id in s.dirs && s.dirs[id].LiveAt(p)
    else
      && id !in s.dirs && s'.files == s.files
      && AncestorsEnsured(s.dirs[id := DirEntry(p, now, None)], s'.dirs, p, now)
  }

  /** Tombstone every live file strictly below `p`. */
  function FilesCleared(files: Files, p: Path, now: int): Files {
    map id | id in files ::
      if files[id].Live() && IsAncestor(p, files[id].path) then files[id].(deletedAt := Some(now)) else files[id]
  }

  function DirsCleared(dirs: Dirs, p: Path, now: int): Dirs {
    map id | id in dirs ::
      if dirs[id].Live() && IsAncestor(p, dirs[id].path) then dirs[id].(deletedAt := Some(now)) else dirs[id]
  }

  function DirRemoved(dirs: Dirs, root: Option<DirId>, now: int): Dirs {
    if root.Some? && root.value in dirs then dirs[root.value := dirs[root.value].(deletedAt := Some(now))] else dirs
  }

  /** `delete_directory`; `root` is the live directory found at `p`, if any. */
  ghost predicate DirectoryDeleted(s: State, s': State, p: Path, recursive: bool, now: int, root: Option<DirId>) {
    && FoundDir(s.dirs, p, root)
    && if recursive then
         s' == State(FilesCleared(s.files, p, now), DirRemoved(DirsCleared(s.dirs, p, now), root, now))
       else
         && (forall id :: id in s.files && s.files[id].Live() ==> !IsAncestor(p, s.files[id].path))
         && s' == s.(dirs := DirRemoved(s.dirs, root, now))
  }

  /** Where a path at or below `from` ends up when `from` becomes `to`. */
  function Rebase(from: Path, to: Path, p: Path): Path
    requires p == from || IsAncestor(from, p)
  {
    to + p[|from|..]
  }

  function FilesMoved(files: Files, from: Path, to: Path, now: int): Files {
    map id | id in files ::
      if files[id].Live() && (files[id].path == from || IsAncestor(from, files[id].path))
      then files[id].(path := Rebase(from, to, files[id].path), updatedAt := now) else files[id]
  }

  function DirsMoved(dirs: Dirs, from: Path, to: Path): Dirs {
    map id | id in dirs ::
      if dirs[id].Live() && IsAncestor(from, dirs[id].path)
      then dirs[id].(path := Rebase(from, to, dirs[id].path)) else dirs[id]
  }

  function RootMoved(dirs: Dirs, root: Option<DirId>, to: Path): Dirs {
    if root.Some? && root.value in dirs then dirs[root.value := dirs[root.value].(path := to)] else dirs
  }

  /** `rename_directory` for distinct paths: the root directory first, then what lies below `from`. */
  ghost predicate DirectoryRenamed(s: State, s': State, from: Path, to: Path, now: int, root: Option<DirId>) {
    && FoundDir(s.dirs, from, root)
    && s'.files == FilesMoved(s.files, from, to, now)
    && AncestorsEnsured(DirsMoved(RootMoved(s.dirs, root, to), from, to), s'.dirs, to, now)
  }

  // ---- Restoring a past state ----

  /** A file that was live in the past, written over what the id holds now. */
  function RestoredFile(now: Option<FileEntry>, past: FileEntry, clock: int): FileEntry {
    FileEntry(
      past.path, past.kind, past.size, past.createdAt, clock, None,
      if past.kind.Text? then Some(past.text.GetOr([])) else if now.Some? then now.value.text else None,
      if past.kind.Attachment? && past.binaryHash.Some? then past.binaryHash
      else if now.Some? then now.value.binaryHash else None)
  }

  function LiveFiles(files: Files): set<FileId> {
    set id | id in files && files[id].Live()
  }

  function LiveDirs(dirs: Dirs): set<DirId> {
    set id | id in dirs && dirs[id].Live()
  }

  function FilesRestored(current: Files, past: Files, clock: int): Files {
    map id | id in current.Keys + LiveFiles(past) ::
      if id in LiveFiles(past) then RestoredFile(Lookup(current, id), past[id], clock)
      else if current[id].Live() then current[id].(deletedAt := Some(clock))
      else current[id]
  }

  function DirsRestored(current: Dirs, past: Dirs, clock: int): Dirs {
    map id | id in current.Keys + LiveDirs(past) ::
      if id in LiveDirs(past) then DirEntry(past[id].path, past[id].createdAt, None)
      else if current[id].Live() then current[id].(deletedAt := Some(clock))
      else current[id]
  }

  function Restored(current: State, past: State, clock: int): State {
    State(FilesRestored(current.files, past.files, clock), DirsRestored(current.dirs, past.dirs, clock))
  }

  // ---- Counting the files below a directory ----

  /** All live paths are normal, as all paths written through the operations are. */
  ghost predicate NormalPaths(s: State) {
    && (forall id :: id in s.files && s.files[id].Live() ==> IsNormal(s.files[id].path))
    && (forall id :: id in s.dirs && s.dirs[id].Live() ==> IsNormal(s.dirs[id].path))
  }

  ghost function LiveAmong(files: Files, ids: set<FileId>, q: Path): set<FileId> {
    set id | id in ids && id in files && files[id].LiveAt(q)
  }

  /** `list` names each path strictly below `p` as often as a file of `ids` is live there. */
  ghost predicate Tally(files: Files, ids: set<FileId>, p: Path, list: seq<Path>) {
    && (forall q :: q in list ==> IsAncestor(p, q))
    && (forall q :: IsAncestor(p, q) ==> multiset(list)[q] == |LiveAmong(files, ids, q)|)
  }

  lemma TallyStep(files: Files, seen: set<FileId>, p: Path, list: seq<Path>, id: FileId)
    requires Tally(files, seen, p, list) && id in files && id !in seen && p != ""
    ensures files[id].Live() && IsAncestor(p, files[id].path) ==>
              Tally(files, seen + {id}, p, list + [files[id].path])
    ensures !(files[id].Live() && IsAncestor(p, files[id].path)) ==> Tally(files, seen + {id}, p, list)
  {
    var path := files[id].path;
    forall q ensures LiveAmong(files, seen + {id}, q) ==
      if files[id].LiveAt(q) then LiveAmong(files, seen, q) + {id} else LiveAmong(files, seen, q)
    {}
  }

  lemma TallyHead(files: Files, p: Path, list: seq<Path>)
    requires Tally(files, files.Keys, p, list) && list != []
    ensures LiveFileAt(files, list[0])
  {
    var q := list[0];
    assert q in multiset(list);
    var here := LiveAmong(files, files.Keys, q);
    assert |here| > 0;
    var id :| id in here;
    assert files[id].LiveAt(q);
  }

  lemma TallyDelete(files: Files, files': Files, p: Path, list: seq<Path>, q0: Path, id: FileId, now: int)
    requires Tally(files, files.Keys, p, list) && list != []
    requires id in files && files[id].LiveAt(q0)
    requires q0 == list[0]
    requires files' == files[id := files[id].(deletedAt := Some(now))]
    ensures Tally(files', files'.Keys, p, list[1..])
  {
    assert list == [q0] + list[1..];
    forall q ensures LiveAmong(files', files'.Keys, q) ==
      if q == q0 then LiveAmong(files, files.Keys, q) - {id} else LiveAmong(files, files.Keys, q)
    {}
  }

  lemma TallyEmpty(files: Files, p: Path)
    requires Tally(files, files.Keys, p, [])
    ensures forall id :: id in files && files[id].Live() ==> !IsAncestor(p, files[id].path)
  {
    forall id | id in files && files[id].Live() ensures !IsAncestor(p, files[id].path) {
      assert id in LiveAmong(files, files.Keys, files[id].path);
    }
  }
}
