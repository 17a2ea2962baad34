/** Heads as of a point in time on the change graph (`heads_at_time` in `doc/history.rs`). */
module ChangeGraph {
  import opened Heads

  /** One change: its hash, its wall-clock stamp and the changes it depends on. */
  datatype Change = Change(hash: ChangeHash, timestamp: int, deps: set<ChangeHash>)

  /** Hashes name changes, dependencies are present, and some ranking decreases along them. */
  ghost predicate IsGraph(changes: set<Change>) {
    && (forall a, b :: a in changes && b in changes && a.hash == b.hash ==> a == b)
    && (forall c, d :: c in changes && d in c.deps ==> exists e :: e in changes && e.hash == d)
    && exists rank: map<ChangeHash, nat> :: Ranked(changes, rank)
  }

  ghost predicate Ranked(changes: set<Change>, rank: map<ChangeHash, nat>) {
    && (forall c :: c in changes ==> c.hash in rank)
    && (forall c, d :: c in changes && d in c.deps ==> d in rank && rank[d] < rank[c.hash])
  }

  /** The changes stamped at or before `target`. */
  function Included(changes: set<Change>, target: int): set<ChangeHash> {
    set c | c in changes && c.timestamp <= target :: c.hash
  }

  /** The included changes no included change depends on. */
  function HeadsOf(changes: set<Change>, target: int): set<ChangeHash> {
    Included(changes, target) - (set c, d | c in changes && c.timestamp <= target && d in c.deps :: d)
  }

  /** The two loops of `heads_at_time`, over the changes in any listed order. */
  method HeadsAtTime(changes: seq<Change>, target: int) returns (heads: set<ChangeHash>)
    requires forall i, j :: 0 <= i < j < |changes| ==> changes[i].hash != changes[j].hash
    ensures heads == HeadsOf((set c | c in changes), target)
  {
    var included: set<ChangeHash> := {};
    for i := 0 to |changes|
      invariant included == set k | 0 <= k < i && changes[k].timestamp <= target :: changes[k].hash
    {
      if changes[i].timestamp <= target {
        included := included + {changes[i].hash};
      }
    }
    heads := included;
    for i := 0 to |changes|
      invariant heads == included - (set k, d | 0 <= k < i && changes[k].timestamp <= target && d in changes[k].deps :: d)
    {
      if changes[i].hash in included {
        assert changes[i].timestamp <= target;
        heads := RemoveAll(heads, changes[i].deps);
      }
    }
    ghost var all := set c | c in changes;
    assert included == Included(all, target);
    assert (set k, d | 0 <= k < |changes| && changes[k].timestamp <= target && d in changes[k].deps :: d)
        == (set c, d | c in all && c.timestamp <= target && d in c.deps :: d);
  }

  method RemoveAll(from: set<ChangeHash>, deps: set<ChangeHash>) returns (left: set<ChangeHash>)
    ensures left == from - deps
  {
    left := from;
    var todo := deps;
    while todo != {}
      invariant todo <= deps && left == from - (deps - todo)
      decreases |todo|
    {
      var d :| d in todo;
      todo := todo - {d};
      left := left - {d};
    }
  }

  // ---- Ancestry ----

  /** `path` walks from a change to one of its dependencies, and so on. */
  ghost predicate IsPath(changes: set<Change>, path: seq<ChangeHash>) {
    && path != []
    && forall i :: 0 <= i < |path| - 1 ==> DependsOn(changes, path[i], path[i + 1])
  }

  ghost predicate DependsOn(changes: set<Change>, h: ChangeHash, d: ChangeHash) {
    exists c :: c in changes && c.hash == h && d in c.deps
  }

  /** `a` is `h` or an ancestor of `h`. */
  ghost predicate Reaches(changes: set<Change>, h: ChangeHash, a: ChangeHash) {
    exists path :: IsPath(changes, path) && path[0] == h && path[|path| - 1] == a
  }

  /** What a fork at `heads` contains. */
  ghost predicate InClosure(changes: set<Change>, heads: set<ChangeHash>, a: ChangeHash) {
    exists h :: h in heads && Reaches(changes, h, a)
  }

  lemma ReachesSelf(changes: set<Change>, h: ChangeHash)
    ensures Reaches(changes, h, h)
  {
    assert IsPath(changes, [h]);
  }

  lemma ReachesThrough(changes: set<Change>, h: ChangeHash, m: ChangeHash, a: ChangeHash)
    requires Reaches(changes, h, m) && DependsOn(changes, m, a)
    ensures Reaches(changes, h, a)
  {
    var path :| IsPath(changes, path) && path[0] == h && path[|path| - 1] == m;
    var longer := path + [a];
    forall i | 0 <= i < |longer| - 1 ensures DependsOn(changes, longer[i], longer[i + 1]) {
      if i < |path| - 1 {
        assert DependsOn(changes, path[i], path[i + 1]);
      }
    }
    assert IsPath(changes, longer);
  }

  /** Nothing included is lost: each included change is a head or an ancestor of one. */
  lemma {:induction false} IncludedIsCovered(changes: set<Change>, target: int, rank: map<ChangeHash, nat>, bound: nat, c: Change)
    requires Ranked(changes, rank) && c in changes && c.timestamp <= target
    requires forall d :: d in changes ==> rank[d.hash] < bound
    ensures InClosure(changes, HeadsOf(changes, target), c.hash)
    decreases bound - rank[c.hash]
  {
    if c.hash in HeadsOf(changes, target) {
      ReachesSelf(changes, c.hash);
    } else {
      var later :| later in changes && later.timestamp <= target && c.hash in later.deps;
      IncludedIsCovered(changes, target, rank, bound, later);
      var h :| h in HeadsOf(changes, target) && Reaches(changes, h, later.hash);
      assert DependsOn(changes, later.hash, c.hash);
      ReachesThrough(changes, h, later.hash, c.hash);
    }
  }

  lemma {:induction false} RankBound(changes: set<Change>, all: set<Change>, rank: map<ChangeHash, nat>) returns (bound: nat)
    requires changes <= all && Ranked(all, rank)
    ensures forall c :: c in changes ==> rank[c.hash] < bound
    decreases |changes|
  {
    if changes == {} {
      bound := 0;
    } else {
      var c :| c in changes;
      var rest := RankBound(changes - {c}, all, rank);
      bound := if rank[c.hash] < rest then rest else rank[c.hash] + 1;
    }
  }

  lemma AllIncludedCovered(changes: set<Change>, target: int)
    requires IsGraph(changes)
    ensures forall h :: h in Included(changes, target) ==> InClosure(changes, HeadsOf(changes, target), h)
  {
    var rank :| Ranked(changes, rank);
    var bound := RankBound(changes, changes, rank);
    forall h | h in Included(changes, target) ensures InClosure(changes, HeadsOf(changes, target), h) {
      var c :| c in changes && c.timestamp <= target && c.hash == h;
      IncludedIsCovered(changes, target, rank, bound, c);
    }
  }

  /** No included change depends on one that is stamped later than the target. */
  ghost predicate ClosedAt(changes: set<Change>, target: int) {
    forall c, d :: c in changes && c.timestamp <= target && d in c.deps ==> d in Included(changes, target)
  }

  /** Stamps never decrease from a change to one that depends on it. */
  ghost predicate Monotone(changes: set<Change>) {
    forall c, d :: c in changes && d in changes && d.hash in c.deps ==> d.timestamp <= c.timestamp
  }

  lemma MonotoneIsClosed(changes: set<Change>, target: int)
    requires IsGraph(changes) && Monotone(changes)
    ensures ClosedAt(changes, target)
  {
    forall c, d | c in changes && c.timestamp <= target && d in c.deps
      ensures d in Included(changes, target)
    {
      var e :| e in changes && e.hash == d;
    }
  }

  lemma {:induction false} ClosedPathStays(changes: set<Change>, target: int, path: seq<ChangeHash>, i: nat)
    requires IsGraph(changes) && ClosedAt(changes, target) && IsPath(changes, path) && i < |path|
    requires path[0] in Included(changes, target)
    ensures path[i] in Included(changes, target)
  {
    if i > 0 {
      ClosedPathStays(changes, target, path, i - 1);
      assert DependsOn(changes, path[i - 1], path[i]);
    }
  }

  lemma ClosedGivesExact(changes: set<Change>, target: int, h: ChangeHash)
    requires IsGraph(changes) && ClosedAt(changes, target)
    requires InClosure(changes, HeadsOf(changes, target), h)
    ensures h in Included(changes, target)
  {
    var top :| top in HeadsOf(changes, target) && Reaches(changes, top, h);
    var path :| IsPath(changes, path) && path[0] == top && path[|path| - 1] == h;
    ClosedPathStays(changes, target, path, |path| - 1);
  }

  lemma DependencyInClosure(changes: set<Change>, heads: set<ChangeHash>, c: Change, d: ChangeHash)
    requires c in changes && d in c.deps && InClosure(changes, heads, c.hash)
    ensures InClosure(changes, heads, d)
  {
    var top :| top in heads && Reaches(changes, top, c.hash);
    assert DependsOn(changes, c.hash, d);
    ReachesThrough(changes, top, c.hash, d);
  }

  /** The heads stand for the changes stamped in time and no others. */
  ghost predicate ExactAt(changes: set<Change>, target: int) {
    forall h :: InClosure(changes, HeadsOf(changes, target), h) <==> h in Included(changes, target)
  }

  /** That is so precisely when no change stamped in time depends on a later-stamped one. */
  lemma ClosureIsIncluded(changes: set<Change>, target: int)
    requires IsGraph(changes)
    ensures ExactAt(changes, target) <==> ClosedAt(changes, target)
  {
    var heads := HeadsOf(changes, target);
    AllIncludedCovered(changes, target);
    if ClosedAt(changes, target) {
      forall h | InClosure(changes, heads, h) ensures h in Included(changes, target) {
        ClosedGivesExact(changes, target, h);
      }
    }
    if ExactAt(changes, target) {
      forall c, d | c in changes && c.timestamp <= target && d in c.deps ensures d in Included(changes, target) {
        assert c.hash in Included(changes, target);
        DependencyInClosure(changes, heads, c, d);
      }
    }
  }

  /** No head is an ancestor of another. */
  lemma HeadsAreAntichain(changes: set<Change>, target: int, a: ChangeHash, b: ChangeHash)
    requires IsGraph(changes) && ClosedAt(changes, target)
    requires a in HeadsOf(changes, target) && b in HeadsOf(changes, target) && a != b
    ensures !Reaches(changes, a, b)
  {
    if Reaches(changes, a, b) {
      var path :| IsPath(changes, path) && path[0] == a && path[|path| - 1] == b;
      var k := |path| - 2;
      ClosedPathStays(changes, target, path, k);
    }
  }

  /** The changes a fork at `heads` is built from. */
  ghost function Closure(changes: set<Change>, heads: set<ChangeHash>): set<ChangeHash> {
    set c | c in changes && InClosure(changes, heads, c.hash) :: c.hash
  }

  /**
   * With stamps that never decrease along dependencies, restoring to a time builds on exactly the
   * changes made by then: the fork's change set is the included set, whatever state it stands for.
   */
  lemma RestoreToTimeTakesExactlyIncluded(changes: set<Change>, target: int)
    requires IsGraph(changes) && Monotone(changes)
    ensures Closure(changes, HeadsOf(changes, target)) == Included(changes, target)
    ensures forall a, b :: a in HeadsOf(changes, target) && b in HeadsOf(changes, target) && a != b ==> !Reaches(changes, a, b)
  {
    MonotoneIsClosed(changes, target);
    ClosureIsIncluded(changes, target);
    forall a, b | a in HeadsOf(changes, target) && b in HeadsOf(changes, target) && a != b
      ensures !Reaches(changes, a, b)
    {
      HeadsAreAntichain(changes, target, a, b);
    }
  }

  /**
   * With a clock set back, a change stamped 5 may depend on one stamped 9: restoring to time 5
   * then brings in the later-stamped change too.
   */
  lemma SkewedClockTakesMore(x: ChangeHash, y: ChangeHash)
    requires x != y
    ensures var changes := {Change(x, 9, {}), Change(y, 5, {x})};
            IsGraph(changes) && x !in Included(changes, 5) && x in Closure(changes, HeadsOf(changes, 5))
  {
    var changes := {Change(x, 9, {}), Change(y, 5, {x})};
    assert Ranked(changes, map[x := 0, y := 1]);
    assert Change(x, 9, {}) in changes && Change(y, 5, {x}) in changes;
    assert y in HeadsOf(changes, 5);
    ReachesSelf(changes, y);
    assert DependsOn(changes, y, x);
    ReachesThrough(changes, y, y, x);
    assert InClosure(changes, HeadsOf(changes, 5), Change(x, 9, {}).hash);
  }

  // ---- Change lists, as a document keeps them ----

  function SetOf(changes: seq<Change>): set<Change> {
    set c | c in changes
  }

  function Hashes(changes: seq<Change>): set<ChangeHash> {
    set c | c in changes :: c.hash
  }

  /** No hash twice, and dependencies before their dependents. */
  ghost predicate Ordered(changes: seq<Change>) {
    && (forall i, j :: 0 <= i < j < |changes| ==> changes[i].hash != changes[j].hash)
    && (forall i, d :: 0 <= i < |changes| && d in changes[i].deps ==> d in Hashes(changes[..i]))
  }

  /** The hashes a fork at `wanted` is built from: one walk back over the list, gathering dependencies. */
  function ClosureOf(changes: seq<Change>, wanted: set<ChangeHash>): set<ChangeHash> {
    if changes == [] then {}
    else
      var init, last := changes[..|changes| - 1], changes[|changes| - 1];
      if last.hash in wanted then {last.hash} + ClosureOf(init, wanted + last.deps) else ClosureOf(init, wanted)
  }

  /** `s` contains the dependencies of its changes. */
  ghost predicate DepsIn(changes: seq<Change>, s: set<ChangeHash>) {
    forall c :: c in changes && c.hash in s ==> c.deps <= s
  }

  lemma OrderedInit(changes: seq<Change>)
    requires Ordered(changes) && changes != []
    ensures var init, last := changes[..|changes| - 1], changes[|changes| - 1];
      Ordered(init) && last.deps <= Hashes(init) && last.hash !in Hashes(init)
      && Hashes(changes) == Hashes(init) + {last.hash}
  {
    var init, last := changes[..|changes| - 1], changes[|changes| - 1];
    assert changes == init + [last];
    forall i, d | 0 <= i < |init| && d in init[i].deps ensures d in Hashes(init[..i]) {
      assert init[..i] == changes[..i] && changes[i] == init[i];
    }
  }

  /** The walk finds the wanted hashes and everything they depend on. */
  lemma {:induction false} ClosureOfCloses(changes: seq<Change>, wanted: set<ChangeHash>)
    requires Ordered(changes)
    ensures ClosureOf(changes, wanted) <= Hashes(changes)
    ensures wanted * Hashes(changes) <= ClosureOf(changes, wanted)
    ensures DepsIn(changes, ClosureOf(changes, wanted))
  {
    if changes != [] {
      var init, last := changes[..|changes| - 1], changes[|changes| - 1];
      OrderedInit(changes);
      assert changes == init + [last];
      var more := if last.hash in wanted then wanted + last.deps else wanted;
      ClosureOfCloses(init, more);
      OneMoreCloses(init, last, ClosureOf(init, more), last.hash in wanted);
    }
  }

  lemma OneMoreCloses(init: seq<Change>, last: Change, s: set<ChangeHash>, taken: bool)
    requires DepsIn(init, s) && s <= Hashes(init) && last.hash !in Hashes(init) && (taken ==> last.deps <= s)
    ensures DepsIn(init + [last], if taken then {last.hash} + s else s)
  {
    var all := if taken then {last.hash} + s else s;
    forall c | c in init + [last] && c.hash in all ensures c.deps <= all {
      if c in init {
        assert c.hash in Hashes(init);
      }
    }
  }

  /** And nothing more. */
  lemma {:induction false} ClosureOfIsLeast(changes: seq<Change>, wanted: set<ChangeHash>, s: set<ChangeHash>)
    requires Ordered(changes) && wanted <= s && DepsIn(changes, s)
    ensures ClosureOf(changes, wanted) <= s
  {
    if changes != [] {
      var init, last := changes[..|changes| - 1], changes[|changes| - 1];
      OrderedInit(changes);
      assert changes == init + [last];
      ClosureOfIsLeast(init, if last.hash in wanted then wanted + last.deps else wanted, s);
    }
  }

  lemma {:induction false} PathStaysIn(changes: seq<Change>, s: set<ChangeHash>, path: seq<ChangeHash>, i: nat)
    requires DepsIn(changes, s) && IsPath(SetOf(changes), path) && i < |path| && path[0] in s
    ensures path[i] in s
  {
    if i > 0 {
      PathStaysIn(changes, s, path, i - 1);
      assert DependsOn(SetOf(changes), path[i - 1], path[i]);
    }
  }

  /** An ordered list is a graph: positions rank it. */
  lemma {:induction false} OrderedIsGraph(changes: seq<Change>)
    requires Ordered(changes)
    ensures IsGraph(SetOf(changes))
  {
    var rank := OrderedIsRanked(changes);
    assert Ranked(SetOf(changes), rank);
    forall c, d | c in SetOf(changes) && d in c.deps ensures exists e :: e in SetOf(changes) && e.hash == d {
      var i :| 0 <= i < |changes| && changes[i] == c;
      assert d in Hashes(changes[..i]);
      var e :| e in changes[..i] && e.hash == d;
      assert e in SetOf(changes);
    }
  }

  lemma {:induction false} OrderedIsRanked(changes: seq<Change>) returns (rank: map<ChangeHash, nat>)
    requires Ordered(changes)
    ensures Ranked(SetOf(changes), rank) && rank.Keys == Hashes(changes)
    ensures forall h :: h in rank ==> rank[h] < |changes|
  {
    if changes == [] {
      rank := map[];
    } else {
      var init, last := changes[..|changes| - 1], changes[|changes| - 1];
      OrderedInit(changes);
      assert changes == init + [last];
      var shorter := OrderedIsRanked(init);
      rank := shorter[last.hash := |init|];
      RankOneMore(init, last, shorter);
      assert SetOf(changes) == SetOf(init) + {last};
    }
  }

  lemma RankOneMore(init: seq<Change>, last: Change, rank: map<ChangeHash, nat>)
    requires Ranked(SetOf(init), rank) && rank.Keys == Hashes(init) && forall h :: h in rank ==> rank[h] < |init|
    requires last.hash !in Hashes(init) && last.deps <= Hashes(init)
    ensures Ranked(SetOf(init) + {last}, rank[last.hash := |init|])
  {
    forall c | c in SetOf(init) ensures c.hash in rank && c.hash != last.hash && last.hash !in c.deps {
      assert c.hash in Hashes(init);
    }
  }

  /** The walk computes the closure of the graph. */
  lemma ClosureOfIsClosure(changes: seq<Change>, heads: set<ChangeHash>)
    requires Ordered(changes) && heads <= Hashes(changes)
    ensures ClosureOf(changes, heads) == Closure(SetOf(changes), heads)
  {
    var all, found, meant := SetOf(changes), ClosureOf(changes, heads), Closure(SetOf(changes), heads);
    ClosureOfCloses(changes, heads);
    forall h | h in meant ensures h in found {
      var top :| top in heads && Reaches(all, top, h);
      var path :| IsPath(all, path) && path[0] == top && path[|path| - 1] == h;
      PathStaysIn(changes, found, path, |path| - 1);
    }
    forall h | h in heads ensures h in meant {
      ReachesSelf(all, h);
      var c :| c in changes && c.hash == h;
      assert c in all && InClosure(all, heads, c.hash);
    }
    OrderedIsGraph(changes);
    forall c | c in changes && c.hash in meant ensures c.deps <= meant {
      forall d | d in c.deps ensures d in meant {
        DependencyInClosure(all, heads, c, d);
        var e :| e in all && e.hash == d;
      }
    }
    ClosureOfIsLeast(changes, heads, meant);
  }

  /** If nothing stamped in time depends on a later stamp, restoring to that time builds on exactly what is stamped in time. */
  lemma TimeClosure(changes: seq<Change>, target: int)
    requires Ordered(changes) && ClosedAt(SetOf(changes), target)
    ensures var heads := HeadsOf(SetOf(changes), target);
      heads <= Hashes(changes) && ClosureOf(changes, heads) == Included(SetOf(changes), target)
  {
    var all := SetOf(changes);
    var heads := HeadsOf(all, target);
    OrderedIsGraph(changes);
    ClosureIsIncluded(all, target);
    ClosureOfIsClosure(changes, heads);
    forall h ensures h in Closure(all, heads) <==> h in Included(all, target) {
      assert InClosure(all, heads, h) <==> h in Included(all, target);
      if h in Included(all, target) {
        var c :| c in all && c.timestamp <= target && c.hash == h;
        assert c.hash in Closure(all, heads);
      }
    }
  }
}
