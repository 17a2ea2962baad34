/**
 * Runs of one replica: document operations, commits, labels and restores in any order.
 * Every run keeps the document coherent, and a label keeps naming the state it was made at.
 */
module ReplicaRuns {
  import opened Wrappers
  import opened Paths
  import opened DocumentState
  import opened Heads
  import opened ChangeGraph
  import opened Document
  import opened DocumentRuns
  import opened RenameDirectory
  import Segments

  datatype Replica = Replica(
    state: State, labels: map<string, Label>,
    heads: seq<ChangeHash>, changes: seq<Change>, snapshots: map<set<ChangeHash>, State>)

  /** The operations, with the ids and clock readings that resolve their nondeterminism. */
  datatype Op =
    | WriteText(path: Path, content: Bytes, now: int, id: FileId)
    | WriteBlob(path: Path, hash: Hash, size: nat, now: int, id: FileId)
    | CreateDir(path: Path, now: int, id: DirId)
    | DeleteFile(path: Path, now: int, id: FileId)
    | RenameFile(from: Path, to: Path, now: int, id: FileId)
    | DeleteDir(path: Path, recursive: bool, now: int, root: Option<DirId>)
    | RenameDir(from: Path, to: Path, now: int, root: Option<DirId>)
    | RestoreTo(target: seq<ChangeHash>, now: int)
    | RestoreToTime(time: int, now: int)
    | MakeLabel(name: string, now: int)
    | DropLabel(name: string)
    | CommitChange(change: ChangeHash, stamp: int)

  /** The state the replica has held at these heads. */
  function StateAt(r: Replica, heads: set<ChangeHash>): State
    requires Holds(r.changes, r.snapshots, heads)
  {
    r.snapshots[ClosureOf(r.changes, heads)]
  }

  /** The state at the current heads is the current state. */
  predicate Committed(r: Replica) {
    Holds(r.changes, r.snapshots, HeadSet(r.heads)) && StateAt(r, HeadSet(r.heads)) == r.state
  }

  /** The heads of restoring to a time. */
  function TimeHeads(r: Replica, time: int): set<ChangeHash> {
    HeadsOf(SetOf(r.changes), time)
  }

  /** What `op` does to the document proper. */
  ghost predicate DocStep(r: Replica, op: Op, s': State) {
    var s := r.state;
    match op
    case WriteText(p, content, now, id) => IsNormal(p) && TextWritten(s, s', p, content, now, id)
    case WriteBlob(p, hash, size, now, id) => IsNormal(p) && AttachmentWritten(s, s', p, hash, size, now, id)
    case CreateDir(p, now, id) => IsNormal(p) && DirectoryCreated(s, s', p, now, id)
    case DeleteFile(p, now, id) => FileDeleted(s, s', p, now, id)
    case RenameFile(from, to, now, id) => IsNormal(to) && FileRenamed(s, s', from, to, now, id)
    case DeleteDir(p, recursive, now, root) => DirectoryDeleted(s, s', p, recursive, now, root)
    case RenameDir(from, to, now, root) =>
      IsNormal(from) && IsNormal(to) && from != to && DirectoryRenamed(s, s', from, to, now, root)
    case RestoreTo(target, now) =>
      Holds(r.changes, r.snapshots, HeadSet(target)) && s' == Restored(s, StateAt(r, HeadSet(target)), now)
    case RestoreToTime(time, now) =>
      Holds(r.changes, r.snapshots, TimeHeads(r, time)) && s' == Restored(s, StateAt(r, TimeHeads(r, time)), now)
    case MakeLabel(_, _) => s' == s
    case DropLabel(_) => s' == s
    case CommitChange(_, _) => s' == s
  }

  ghost predicate SameHistory(r: Replica, r': Replica) {
    r'.heads == r.heads && r'.changes == r.changes && r'.snapshots == r.snapshots
  }

  /** A new change has a hash no earlier change has, and depends on the heads. */
  ghost predicate Step(r: Replica, op: Op, r': Replica) {
    && DocStep(r, op, r'.state)
    && match op
       case MakeLabel(n, now) =>
         && Committed(r) && SameHistory(r, r')
         && r'.labels == r.labels[n := Labelled(Some(Encoded(r.heads)), Some(now))]
       case DropLabel(n) => r'.labels == r.labels - {n} && SameHistory(r, r')
       case CommitChange(hash, stamp) =>
         && hash !in Hashes(r.changes)
         && r'.labels == r.labels && r'.heads == [hash]
         && r'.changes == r.changes + [Change(hash, stamp, HeadSet(r.heads))]
         && r'.snapshots == r.snapshots[ClosureOf(r'.changes, {hash}) := r.state]
       case _ => r'.labels == r.labels && SameHistory(r, r')
  }

  ghost predicate IsRun(run: seq<Replica>, ops: seq<Op>) {
    |run| == |ops| + 1 && forall i :: 0 <= i < |ops| ==> Step(run[i], ops[i], run[i + 1])
  }

  // ---- Coherence over runs ----

  ghost predicate AllCoherent(r: Replica) {
    Coherent(r.state) && forall k :: k in r.snapshots ==> Coherent(r.snapshots[k])
  }

  /** The two operations that do not check all they should, called as they should be. */
  ghost predicate SafeCall(s: State, op: Op) {
    && (op.RenameDir? ==> RenameSafe(s, op.from, op.to))
    && (op.DeleteDir? && !op.recursive ==> !LeavesOrphans(s, op.path, op.root))
  }

  lemma StepCoherent(r: Replica, op: Op, r': Replica)
    requires AllCoherent(r) && Step(r, op, r') && SafeCall(r.state, op)
    ensures AllCoherent(r')
  {
    match op
    case WriteText(p, content, now, id) => TextWrittenCoherent(r.state, r'.state, p, content, now, id);
    case WriteBlob(p, hash, size, now, id) => AttachmentWrittenCoherent(r.state, r'.state, p, hash, size, now, id);
    case CreateDir(p, now, id) => DirectoryCreatedCoherent(r.state, r'.state, p, now, id);
    case DeleteFile(p, now, id) =>
    case RenameFile(from, to, now, id) => FileRenamedCoherent(r.state, r'.state, from, to, now, id);
    case DeleteDir(p, recursive, now, root) =>
      if recursive {
        DirectoryDeletedCoherent(r.state, r'.state, p, now, root);
      } else {
        PlainDeletionCoherentExactly(r.state, r'.state, p, now, root);
      }
    case RenameDir(from, to, now, root) => RenameCoherentExactly(r.state, r'.state, from, to, now, root);
    case RestoreTo(target, now) => RestoredCoherent(r.state, StateAt(r, HeadSet(target)), now);
    case RestoreToTime(time, now) => RestoredCoherent(r.state, StateAt(r, TimeHeads(r, time)), now);
    case MakeLabel(_, _) =>
    case DropLabel(_) =>
    case CommitChange(_, _) =>
  }

  /** Every state of every run from a coherent start is coherent, if its directory renames and plain deletions are safe. */
  lemma {:induction false} RunCoherent(run: seq<Replica>, ops: seq<Op>, i: nat)
    requires IsRun(run, ops) && i < |run| && AllCoherent(run[0])
    requires forall k :: 0 <= k < |ops| ==> SafeCall(run[k].state, ops[k])
    ensures AllCoherent(run[i])
  {
    if i > 0 {
      RunCoherent(run, ops, i - 1);
      StepCoherent(run[i - 1], ops[i - 1], run[i]);
    }
  }

  // ---- Labels ----

  /** Attachments carry hashes and labels decode, now and in all of history. */
  ghost predicate Healthy(r: Replica) {
    && Hashed(r.state.files)
    && (forall k :: k in r.snapshots ==> Hashed(r.snapshots[k].files))
    && WellEncoded(r.labels)
  }

  lemma RestoringKeepsHashes(current: State, past: State, now: int)
    requires Hashed(current.files) && Hashed(past.files)
    ensures Hashed(Restored(current, past, now).files)
  {
    var files := Restored(current, past, now).files;
    forall id | id in files && files[id].kind.Attachment? ensures files[id].binaryHash.Some? {
      if id in LiveFiles(past.files) {
        assert files[id] == RestoredFile(Lookup(current.files, id), past.files[id], now);
      }
    }
  }

  lemma StepHealthy(r: Replica, op: Op, r': Replica)
    requires Healthy(r) && Step(r, op, r')
    ensures Healthy(r')
  {
    EncodedLength(r.heads);
    if op.RestoreTo? {
      RestoringKeepsHashes(r.state, StateAt(r, HeadSet(op.target)), op.now);
    } else if op.RestoreToTime? {
      RestoringKeepsHashes(r.state, StateAt(r, TimeHeads(r, op.time)), op.now);
    }
  }

  // ---- History ----

  /** The changes are in order, the heads stand for all of them, and every state held is one of theirs. */
  ghost predicate Recorded(r: Replica) {
    && Ordered(r.changes)
    && HeadSet(r.heads) <= Hashes(r.changes) && ClosureOf(r.changes, HeadSet(r.heads)) == Hashes(r.changes)
    && forall k :: k in r.snapshots ==> k <= Hashes(r.changes)
  }

  lemma OneMoreChange(changes: seq<Change>, c: Change)
    requires Ordered(changes) && c.hash !in Hashes(changes) && c.deps <= Hashes(changes)
    ensures Ordered(changes + [c]) && Hashes(changes + [c]) == Hashes(changes) + {c.hash}
    ensures ClosureOf(changes + [c], {c.hash}) == {c.hash} + ClosureOf(changes, {c.hash} + c.deps)
    ensures forall hs :: hs <= Hashes(changes) ==> ClosureOf(changes + [c], hs) == ClosureOf(changes, hs)
  {
    var longer := changes + [c];
    assert longer[..|changes|] == changes;
    forall i, d | 0 <= i < |longer| && d in longer[i].deps ensures d in Hashes(longer[..i]) {
      if i < |changes| {
        assert longer[..i] == changes[..i];
      }
    }
    forall i, j | 0 <= i < j < |longer| ensures longer[i].hash != longer[j].hash {
      if j == |changes| {
        assert changes[i] in changes;
      }
    }
  }

  lemma {:induction false} ForeignWish(changes: seq<Change>, wanted: set<ChangeHash>, h: ChangeHash)
    requires Ordered(changes) && h !in Hashes(changes)
    ensures ClosureOf(changes, {h} + wanted) == ClosureOf(changes, wanted)
  {
    if changes != [] {
      var init, last := changes[..|changes| - 1], changes[|changes| - 1];
      OrderedInit(changes);
      if last.hash in wanted {
        ForeignWish(init, wanted + last.deps, h);
        assert {h} + wanted + last.deps == {h} + (wanted + last.deps);
      } else {
        ForeignWish(init, wanted, h);
      }
    }
  }

  /** A change on top of everything covers everything. */
  lemma OneMoreCovers(changes: seq<Change>, c: Change)
    requires Ordered(changes) && c.hash !in Hashes(changes) && c.deps <= Hashes(changes)
    requires ClosureOf(changes, c.deps) == Hashes(changes)
    ensures ClosureOf(changes + [c], {c.hash}) == Hashes(changes + [c])
  {
    OneMoreChange(changes, c);
    ForeignWish(changes, c.deps, c.hash);
  }

  /** A commit is recorded under the hashes of all changes so far, its own included. */
  lemma CommitRecorded(r: Replica, op: Op, r': Replica)
    requires Recorded(r) && op.CommitChange? && Step(r, op, r')
    ensures Recorded(r') && ClosureOf(r'.changes, {op.change}) == Hashes(r'.changes)
    ensures Hashes(r'.changes) !in r.snapshots && Hashes(r.changes) <= Hashes(r'.changes)
    ensures forall hs :: hs <= Hashes(r.changes) ==> ClosureOf(r'.changes, hs) == ClosureOf(r.changes, hs)
  {
    var c := CommitFacts(r, op, r');
    OneMoreChange(r.changes, c);
    OneMoreCovers(r.changes, c);
    assert HeadSet([op.change]) == {op.change};
    assert op.change in Hashes(r'.changes) && Hashes(r.changes) <= Hashes(r'.changes);
  }

  lemma CommitFacts(r: Replica, op: Op, r': Replica) returns (c: Change)
    requires op.CommitChange? && Step(r, op, r')
    ensures c == Change(op.change, op.stamp, HeadSet(r.heads)) && c.hash !in Hashes(r.changes)
    ensures r'.heads == [c.hash] && r'.changes == r.changes + [c]
    ensures r'.snapshots == r.snapshots[ClosureOf(r'.changes, {c.hash}) := r.state]
  {
    c := Change(op.change, op.stamp, HeadSet(r.heads));
  }

  predicate Touches(op: Op, name: string) {
    (op.MakeLabel? && op.name == name) || (op.DropLabel? && op.name == name)
  }

  /** `later` has all changes and states of `earlier`, and the same heads stand for the same changes in it. */
  ghost predicate Extends(earlier: Replica, later: Replica) {
    && Hashes(earlier.changes) <= Hashes(later.changes)
    && (forall hs :: hs <= Hashes(earlier.changes) ==> ClosureOf(later.changes, hs) == ClosureOf(earlier.changes, hs))
    && (forall k :: k in earlier.snapshots ==> k in later.snapshots && later.snapshots[k] == earlier.snapshots[k])
  }

  lemma CommitExtends(r: Replica, op: Op, r': Replica)
    requires Recorded(r) && op.CommitChange? && Step(r, op, r')
    ensures Recorded(r') && Extends(r, r')
  {
    var c := CommitFacts(r, op, r');
    CommitRecorded(r, op, r');
    SnapshotAdded(r.snapshots, r'.snapshots, Hashes(r'.changes), r.state);
  }

  lemma SnapshotAdded(before: map<set<ChangeHash>, State>, after: map<set<ChangeHash>, State>, key: set<ChangeHash>, s: State)
    requires after == before[key := s] && key !in before
    ensures forall k :: k in before ==> k in after && after[k] == before[k]
  {
  }

  lemma StepExtends(r: Replica, op: Op, r': Replica)
    requires Healthy(r) && Recorded(r) && Step(r, op, r')
    ensures Healthy(r') && Recorded(r') && Extends(r, r')
  {
    StepHealthy(r, op, r');
    if op.CommitChange? {
      CommitExtends(r, op, r');
    } else {
      assert SameHistory(r, r');
    }
  }

  /** No change and no state held is ever lost, and heads keep their meaning. */
  lemma {:induction false} AlwaysRecorded(run: seq<Replica>, ops: seq<Op>, i: nat, j: nat)
    requires IsRun(run, ops) && i <= j < |run| && Healthy(run[i]) && Recorded(run[i])
    ensures Healthy(run[j]) && Recorded(run[j]) && Extends(run[i], run[j])
  {
    if i < j {
      AlwaysRecorded(run, ops, i, j - 1);
      StepExtends(run[j - 1], ops[j - 1], run[j]);
    }
  }

  /** From one state of a run to a later one: the history is extended, and an untouched label is kept. */
  lemma {:induction false} HistoryKept(run: seq<Replica>, ops: seq<Op>, i: nat, j: nat, name: string)
    requires IsRun(run, ops) && i <= j < |run| && Healthy(run[i]) && Recorded(run[i])
    requires forall k :: i <= k < j ==> !Touches(ops[k], name)
    ensures Healthy(run[j]) && Recorded(run[j]) && Extends(run[i], run[j])
    ensures Lookup(run[j].labels, name) == Lookup(run[i].labels, name)
  {
    AlwaysRecorded(run, ops, i, j);
    if i < j {
      HistoryKept(run, ops, i, j - 1, name);
      assert Step(run[j - 1], ops[j - 1], run[j]);
    }
  }

  /**
   * After the label is made, whatever else is done to the replica (restores included), its stored
   * heads decode to the heads of that moment alone, and restoring them brings back the live view.
   */
  lemma LabelSurvives(run: seq<Replica>, ops: seq<Op>, name: string, clock: int)
    requires IsRun(run, ops) && |ops| > 0 && Healthy(run[0]) && Recorded(run[0])
    requires ops[0].MakeLabel? && ops[0].name == name
    requires forall k :: 1 <= k < |ops| ==> !Touches(ops[k], name)
    ensures var end := run[|ops|]; var heads := HeadSet(run[0].heads);
            && WellEncoded(end.labels)
            && name in end.labels && end.labels[name].Stored() == Some(Encoded(run[0].heads))
            && (forall hs: seq<ChangeHash> :: Encoded(hs) == Encoded(run[0].heads) ==> hs == run[0].heads)
            && Holds(end.changes, end.snapshots, heads)
            && LiveView(Restored(end.state, StateAt(end, heads), clock)) == LiveView(run[0].state)
  {
    assert Step(run[0], ops[0], run[1]);
    StepHealthy(run[0], ops[0], run[1]);
    HistoryKept(run, ops, 1, |ops|, name);
    var end := run[|ops|];
    RestoreBringsBackView(end.state, StateAt(end, HeadSet(run[0].heads)), clock);
    forall hs: seq<ChangeHash> | Encoded(hs) == Encoded(run[0].heads) ensures hs == run[0].heads {
      EncodedInjective(hs, run[0].heads);
    }
    assert name in end.labels by {
      assert Lookup(end.labels, name) == Lookup(run[1].labels, name);
    }
  }

  // ---- Restoring to a time ----

  lemma {:induction false} LaterChanges(run: seq<Replica>, ops: seq<Op>, i: nat, j: nat, time: int)
    requires IsRun(run, ops) && i <= j < |run|
    requires forall k :: i <= k < j && ops[k].CommitChange? ==> ops[k].stamp > time
    ensures run[i].changes <= run[j].changes
    ensures forall c :: c in run[j].changes ==> c in run[i].changes || c.timestamp > time
  {
    if i < j {
      LaterChanges(run, ops, i, j - 1, time);
      assert Step(run[j - 1], ops[j - 1], run[j]);
    }
  }

  lemma DepsAreKnown(changes: seq<Change>, c: Change)
    requires Ordered(changes) && c in changes
    ensures c.deps <= Hashes(changes)
  {
    var i :| 0 <= i < |changes| && changes[i] == c;
    assert forall d :: d in c.deps ==> d in Hashes(changes[..i]);
    assert forall e :: e in changes[..i] ==> e in changes;
  }

  /** Nothing up to a change depends on it. */
  lemma NoneDependsOnLast(changes: seq<Change>, e: Change)
    requires Ordered(changes) && changes != [] && e in changes
    ensures changes[|changes| - 1].hash !in e.deps
  {
    var init, last := changes[..|changes| - 1], changes[|changes| - 1];
    OrderedInit(changes);
    assert changes == init + [last];
    if e in init {
      DepsAreKnown(init, e);
    }
  }

  /** If the last change of a prefix is stamped in time and nothing after it is, it is a head at that time, and all heads are in the prefix. */
  lemma LastOfPrefixIsHead(prefix: seq<Change>, all: seq<Change>, time: int)
    requires Ordered(prefix) && prefix != [] && prefix <= all && prefix[|prefix| - 1].timestamp <= time
    requires forall c :: c in all && c.timestamp <= time ==> c in prefix
    ensures var heads := HeadsOf(SetOf(all), time); prefix[|prefix| - 1].hash in heads && heads <= Hashes(prefix)
  {
    var last := prefix[|prefix| - 1];
    assert last in prefix && prefix[|prefix| - 1] == all[|prefix| - 1];
    assert last.hash in Included(SetOf(all), time);
    forall e | e in SetOf(all) && e.timestamp <= time ensures last.hash !in e.deps {
      NoneDependsOnLast(prefix, e);
    }
  }

  /** A prefix whose last change covers it is covered by the heads at any time that reaches that change and none later. */
  lemma PrefixIsCovered(prefix: seq<Change>, all: seq<Change>, time: int)
    requires Ordered(prefix) && prefix != [] && prefix <= all && prefix[|prefix| - 1].timestamp <= time
    requires forall c :: c in all && c.timestamp <= time ==> c in prefix
    requires ClosureOf(prefix, {prefix[|prefix| - 1].hash}) == Hashes(prefix)
    ensures var heads := HeadsOf(SetOf(all), time); heads <= Hashes(prefix) && ClosureOf(prefix, heads) == Hashes(prefix)
  {
    var heads := HeadsOf(SetOf(all), time);
    LastOfPrefixIsHead(prefix, all, time);
    ClosureOfCloses(prefix, heads);
    ClosureOfIsLeast(prefix, {prefix[|prefix| - 1].hash}, ClosureOf(prefix, heads));
  }

  /**
   * Whatever the clocks: if a commit is stamped by `time` and every later one after it, restoring
   * to that time brings back the live view of that commit, whatever was done to the replica since.
   */
  lemma TimeBringsBackView(run: seq<Replica>, ops: seq<Op>, k: nat, time: int, clock: int)
    requires IsRun(run, ops) && Healthy(run[0]) && Recorded(run[0])
    requires k < |ops| && ops[k].CommitChange? && ops[k].stamp <= time
    requires forall j :: k < j < |ops| && ops[j].CommitChange? ==> ops[j].stamp > time
    ensures var end := run[|ops|]; var heads := TimeHeads(end, time);
            && Holds(end.changes, end.snapshots, heads)
            && StateAt(end, heads) == run[k].state
            && LiveView(Restored(end.state, StateAt(end, heads), clock)) == LiveView(run[k].state)
  {
    var end, prefix := run[|ops|], run[k + 1].changes;
    AlwaysRecorded(run, ops, 0, k);
    assert Step(run[k], ops[k], run[k + 1]);
    var c := CommitFacts(run[k], ops[k], run[k + 1]);
    CommitRecorded(run[k], ops[k], run[k + 1]);
    StepHealthy(run[k], ops[k], run[k + 1]);
    AlwaysRecorded(run, ops, k + 1, |ops|);
    LaterChanges(run, ops, k + 1, |ops|, time);
    PrefixIsCovered(prefix, end.changes, time);
    RestoreBringsBackView(end.state, run[k].state, clock);
  }

  /** The last of the first `n` operations that is a commit stamped by `time`. */
  lemma {:induction false} LastCommitBy(ops: seq<Op>, n: nat, time: int) returns (k: nat)
    requires n <= |ops| && exists j :: 0 <= j < n && ops[j].CommitChange? && ops[j].stamp <= time
    ensures k < n && ops[k].CommitChange? && ops[k].stamp <= time
    ensures forall j :: k < j < n && ops[j].CommitChange? ==> ops[j].stamp > time
  {
    if ops[n - 1].CommitChange? && ops[n - 1].stamp <= time {
      k := n - 1;
    } else {
      k := LastCommitBy(ops, n - 1, time);
    }
  }

  /** So restoring to any time by which something was committed shows the last commit stamped by then, in the order they were made. */
  lemma LastCommitByThenReturns(run: seq<Replica>, ops: seq<Op>, time: int, clock: int) returns (k: nat)
    requires IsRun(run, ops) && Healthy(run[0]) && Recorded(run[0])
    requires exists j :: 0 <= j < |ops| && ops[j].CommitChange? && ops[j].stamp <= time
    ensures k < |ops| && ops[k].CommitChange? && ops[k].stamp <= time
    ensures forall j :: k < j < |ops| && ops[j].CommitChange? ==> ops[j].stamp > time
    ensures var end := run[|ops|]; var heads := TimeHeads(end, time);
            && Holds(end.changes, end.snapshots, heads)
            && LiveView(Restored(end.state, StateAt(end, heads), clock)) == LiveView(run[k].state)
  {
    k := LastCommitBy(ops, |ops|, time);
    TimeBringsBackView(run, ops, k, time, clock);
  }

  function Fresh(genesis: ChangeHash, stamp: int): Replica {
    Replica(State(map[], map[]), map[], [genesis], [Change(genesis, stamp, {})], map[{genesis} := State(map[], map[])])
  }

  /** A fresh document starts every run in good order. */
  lemma FreshIsCoherent(genesis: ChangeHash, stamp: int)
    ensures var r := Fresh(genesis, stamp); AllCoherent(r) && Healthy(r) && Recorded(r) && Committed(r)
  {
    var changes := [Change(genesis, stamp, {})];
    assert HeadSet([genesis]) == {genesis} && Hashes(changes) == {genesis};
    assert changes[..0] == [] && ClosureOf([], {genesis}) == {};
    assert ClosureOf(changes, {genesis}) == {genesis};
  }

  /**
   * With a clock set back: a file is written and committed at 9, the next commit is stamped 5, and
   * restoring to time 5 shows the file.
   */
  lemma SkewedClockShowsLater(genesis: ChangeHash, x: ChangeHash, y: ChangeHash, text: Bytes, clock: int)
    returns (run: seq<Replica>, ops: seq<Op>)
    requires genesis != x && genesis != y && x != y
    ensures IsRun(run, ops) && run[0] == Fresh(genesis, 0)
    ensures ops == [WriteText("n.md", text, 8, 0), CommitChange(x, 9), CommitChange(y, 5)]
    ensures var end := run[3]; var heads := TimeHeads(end, 5);
            && Holds(end.changes, end.snapshots, heads)
            && 0 in LiveView(Restored(end.state, StateAt(end, heads), clock)).files
  {
    run, ops := SkewedRun(genesis, x, y, text);
    FreshIsCoherent(genesis, 0);
    ShownAtFive(run, ops, clock);
  }

  lemma SkewedRun(genesis: ChangeHash, x: ChangeHash, y: ChangeHash, text: Bytes) returns (run: seq<Replica>, ops: seq<Op>)
    requires genesis != x && genesis != y && x != y
    ensures ops == [WriteText("n.md", text, 8, 0), CommitChange(x, 9), CommitChange(y, 5)]
    ensures IsRun(run, ops) && run[0] == Fresh(genesis, 0) && 0 in FilesView(run[2].state.files)
  {
    var r0 := Fresh(genesis, 0);
    var r1 := FirstNote(genesis, text);
    var r2 := CommitNext(r1, x, 9);
    var r3 := CommitNext(r2, y, 5);
    ops := [WriteText("n.md", text, 8, 0), CommitChange(x, 9), CommitChange(y, 5)];
    run := [r0, r1, r2, r3];
    ThreeSteps(run, ops);
  }

  lemma ShownAtFive(run: seq<Replica>, ops: seq<Op>, clock: int)
    requires IsRun(run, ops) && |ops| == 3 && Healthy(run[0]) && Recorded(run[0])
    requires ops[2].CommitChange? && ops[2].stamp == 5 && 0 in FilesView(run[2].state.files)
    ensures var end := run[3]; var heads := TimeHeads(end, 5);
            && Holds(end.changes, end.snapshots, heads)
            && 0 in LiveView(Restored(end.state, StateAt(end, heads), clock)).files
  {
    TimeBringsBackView(run, ops, 2, 5, clock);
  }

  lemma ThreeSteps(run: seq<Replica>, ops: seq<Op>)
    requires |run| == 4 && |ops| == 3
    requires Step(run[0], ops[0], run[1]) && Step(run[1], ops[1], run[2]) && Step(run[2], ops[2], run[3])
    ensures IsRun(run, ops)
  {
    forall i | 0 <= i < |ops| ensures Step(run[i], ops[i], run[i + 1]) {
      assert i == 0 || i == 1 || i == 2;
    }
  }

  lemma FirstNote(genesis: ChangeHash, text: Bytes) returns (r: Replica)
    ensures Step(Fresh(genesis, 0), WriteText("n.md", text, 8, 0), r)
    ensures Recorded(r) && Hashes(r.changes) == {genesis} && Hashed(r.state.files) && 0 in FilesView(r.state.files)
  {
    var e := FileEntry("n.md", Text, |text|, 8, 8, None, Some(text), None);
    r := Fresh(genesis, 0).(state := State(map[0 := e], map[]));
    PlainName();
    FreshIsCoherent(genesis, 0);
    assert Change(genesis, 0, {}) in r.changes;
    assert DocStep(Fresh(genesis, 0), WriteText("n.md", text, 8, 0), r.state);
  }

  lemma CommitNext(r: Replica, hash: ChangeHash, stamp: int) returns (r': Replica)
    requires Recorded(r) && hash !in Hashes(r.changes)
    ensures Step(r, CommitChange(hash, stamp), r') && Recorded(r')
    ensures r'.state == r.state && Hashes(r'.changes) == Hashes(r.changes) + {hash}
  {
    var c := Change(hash, stamp, HeadSet(r.heads));
    var changes := r.changes + [c];
    r' := r.(heads := [hash], changes := changes, snapshots := r.snapshots[ClosureOf(changes, {hash}) := r.state]);
    CommitRecorded(r, CommitChange(hash, stamp), r');
    OneMoreChange(r.changes, c);
  }

  lemma PlainName()
    ensures IsNormal("n.md") && forall d :: !IsAncestor(d, "n.md")
  {
    var name := "n.md";
    assert name[0] == 'n' && name[1] == '.' && name[2] == 'm' && name[3] == 'd';
    Segments.SplitJoin([name], '/');
  }

  // ---- Texts ----

  /** Every text file has a text object, now and in all of history. */
  ghost predicate Texted(r: Replica) {
    && TextedFiles(r.state.files)
    && forall k :: k in r.snapshots ==> TextedFiles(r.snapshots[k].files)
  }

  ghost predicate TextedFiles(files: Files) {
    forall id :: id in files && files[id].kind.Text? ==> files[id].text.Some?
  }

  lemma RestoringKeepsTexts(current: State, past: State, now: int)
    requires TextedFiles(current.files) && TextedFiles(past.files)
    ensures TextedFiles(Restored(current, past, now).files)
    ensures forall id :: id in current.files ==>
              id in Restored(current, past, now).files
              && (current.files[id].text.Some? ==> Restored(current, past, now).files[id].text.Some?)
  {
    var files := Restored(current, past, now).files;
    forall id | id in files && id in LiveFiles(past.files)
      ensures files[id] == RestoredFile(Lookup(current.files, id), past.files[id], now)
    {}
  }

  /** No operation drops an entry or takes a text object away. */
  lemma StepKeepsTexts(r: Replica, op: Op, r': Replica)
    requires Texted(r) && Step(r, op, r')
    ensures Texted(r')
    ensures forall id :: id in r.state.files ==>
              id in r'.state.files && (r.state.files[id].text.Some? ==> r'.state.files[id].text.Some?)
  {
    if op.RestoreTo? {
      RestoringKeepsTexts(r.state, StateAt(r, HeadSet(op.target)), op.now);
    } else if op.RestoreToTime? {
      RestoringKeepsTexts(r.state, StateAt(r, TimeHeads(r, op.time)), op.now);
    }
  }
}
