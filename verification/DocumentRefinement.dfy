/** The methods of the document move a replica by the steps over which its laws are proved. */
module DocumentRefinement {
  import opened Wrappers
  import opened Paths
  import opened DocumentState
  import opened Heads
  import opened ChangeGraph
  import opened Document
  import opened DocumentRuns
  import opened ReplicaRuns

  /** The replica as the document has it. */
  function Shown(d: Doc): Replica
    reads d
  {
    Replica(d.S(), d.labels, d.heads, d.changes, d.snapshots)
  }

  datatype FileCall =
    | PutText(path: string, content: Bytes, now: int)
    | PutBlob(path: string, hash: Hash, size: nat, now: int)
    | RemoveFile(path: string, now: int)
    | MoveFile(from: string, to: string, now: int)

  datatype DirectoryCall =
    | MakeDirectory(path: string, now: int)
    | RemoveDirectory(path: string, recursive: bool, now: int)
    | MoveDirectory(from: string, to: string, now: int)

  datatype HistoryCall =
    | ToHeads(target: seq<ChangeHash>, now: int)
    | ToTime(time: int, now: int)
    | SaveLabel(name: string, now: int)
    | ForgetLabel(name: string)
    | NewChange(hash: ChangeHash, stamp: int)

  /** A call did `op`, or nothing; and `op`, called as it should be, kept all states coherent. */
  ghost predicate Did(r: Replica, op: Option<Op>, r': Replica) {
    match op
    case None => r' == r
    case Some(o) => Step(r, o, r') && (AllCoherent(r) && SafeCall(r.state, o) ==> AllCoherent(r'))
  }

  lemma StepIsDone(r: Replica, op: Op, r': Replica)
    requires Step(r, op, r')
    ensures Did(r, Some(op), r')
  {
    if AllCoherent(r) && SafeCall(r.state, op) {
      StepCoherent(r, op, r');
    }
  }

  /** Each file operation is a step, or an error that changes nothing; a rename onto itself is neither. */
  method CallFile(d: Doc, call: FileCall) returns (ok: bool, ghost op: Option<Op>)
    modifies d
    ensures Did(old(Shown(d)), op, Shown(d))
    ensures op.Some? ==> ok
    ensures ok && op.None? ==> call.MoveFile? && Normalized(call.from) == Normalized(call.to)
  {
    ghost var r := Shown(d);
    match call {
      case PutText(path, content, now) =>
        var result := d.WriteTextFile(path, content, now);
        ok, op := result.Ok?, None;
        if ok {
          NormalizedIsNormal(path);
          op := Some(WriteText(Normalized(path).value, content, now, result.value));
        }
      case PutBlob(path, hash, size, now) =>
        var result := d.WriteAttachment(path, hash, size, now);
        ok, op := result.Ok?, None;
        if ok {
          NormalizedIsNormal(path);
          op := Some(WriteBlob(Normalized(path).value, hash, size, now, result.value));
        }
      case RemoveFile(path, now) =>
        var result := d.DeleteFile(path, now);
        ok, op := result.Ok?, None;
        if ok {
          op := Some(DeleteFile(Normalized(path).value, now, result.value));
        }
      case MoveFile(from, to, now) =>
        var result := d.RenameFile(from, to, now);
        ok, op := result.Ok?, None;
        if ok && result.value.Some? {
          NormalizedIsNormal(to);
          op := Some(RenameFile(Normalized(from).value, Normalized(to).value, now, result.value.value));
        }
    }
    if op.Some? {
      StepIsDone(r, op.value, Shown(d));
    }
  }

  /** So is each directory operation. */
  method CallDirectory(d: Doc, call: DirectoryCall) returns (ok: bool, ghost op: Option<Op>)
    requires NormalPaths(d.S())
    modifies d
    ensures Did(old(Shown(d)), op, Shown(d))
    ensures op.Some? ==> ok
    ensures ok && op.None? ==> call.MoveDirectory? && Normalized(call.from) == Normalized(call.to)
  {
    ghost var r := Shown(d);
    match call {
      case MakeDirectory(path, now) =>
        var result := d.CreateDirectory(path, now);
        ok, op := result.Ok?, None;
        if ok {
          NormalizedIsNormal(path);
          op := Some(CreateDir(Normalized(path).value, now, result.value));
        }
      case RemoveDirectory(path, recursive, now) =>
        var result := d.DeleteDirectory(path, recursive, now);
        ok, op := result.Ok?, None;
        if ok {
          op := Some(DeleteDir(Normalized(path).value, recursive, now, result.value));
        }
      case MoveDirectory(from, to, now) =>
        var result := d.RenameDirectory(from, to, now);
        ok, op := result.Ok?, None;
        if ok && Normalized(from) != Normalized(to) {
          NormalizedIsNormal(from);
          NormalizedIsNormal(to);
          op := Some(RenameDir(Normalized(from).value, Normalized(to).value, now, result.value));
        }
    }
    if op.Some? {
      StepIsDone(r, op.value, Shown(d));
    }
  }

  /** And each operation on the history, a label being made of a committed state and a change having a new hash. */
  method CallHistory(d: Doc, call: HistoryCall) returns (ok: bool, ghost op: Option<Op>)
    requires Ordered(d.changes)
    requires call.SaveLabel? ==> Committed(Shown(d))
    requires call.NewChange? ==> call.hash !in Hashes(d.changes)
    modifies d
    ensures Did(old(Shown(d)), op, Shown(d))
    ensures ok <==> op.Some?
    ensures call.ToHeads? ==> (ok <==> old(Holds(d.changes, d.snapshots, HeadSet(call.target))))
    ensures call.ToTime? ==> (ok <==> old(Holds(d.changes, d.snapshots, TimeHeads(Shown(d), call.time))))
    ensures !call.ToHeads? && !call.ToTime? ==> ok
  {
    ghost var r := Shown(d);
    ok := true;
    match call {
      case ToHeads(target, now) =>
        var result := d.RestoreToHeads(target, now);
        ok := result.Ok?;
        op := if ok then Some(RestoreTo(target, now)) else None;
      case ToTime(time, now) =>
        var result := d.RestoreToTime(time, now);
        ok := result.Ok?;
        op := if ok then Some(Op.RestoreToTime(time, now)) else None;
      case SaveLabel(name, now) =>
        d.CreateLabel(name, now);
        op := Some(MakeLabel(name, now));
      case ForgetLabel(name) =>
        d.DeleteLabel(name);
        op := Some(DropLabel(name));
      case NewChange(hash, stamp) =>
        d.Commit(hash, stamp);
        op := Some(CommitChange(hash, stamp));
    }
    if op.Some? {
      StepIsDone(r, op.value, Shown(d));
    }
  }
}
