/** Startup convergence of the two sides (`reconcile.ts`, `runReconcile` in `sync-controller.ts`). */
module Reconcile {
  import opened Wrappers
  import opened Paths

  /** A path on the document side: live with a text, or a tombstone. */
  datatype SdkFile = Alive(text: string) | Tombstone

  datatype Write = Write(path: Path, content: string)

  datatype Plan = Plan(pushToSdk: seq<Write>, applyToObsidian: seq<Write>, deleteInObsidian: seq<Path>)

  type Obsidian = map<Path, string>
  type Sdk = map<Path, SdkFile>

  // ---- What is to be done about one path ----

  predicate MustPush(obs: Obsidian, sdk: Sdk, p: Path) {
    p in obs && (p !in sdk || (sdk[p].Alive? && sdk[p].text != obs[p]))
  }

  predicate MustApply(obs: Obsidian, sdk: Sdk, p: Path) {
    p !in obs && p in sdk && sdk[p].Alive?
  }

  predicate MustDelete(obs: Obsidian, sdk: Sdk, p: Path) {
    p in obs && p in sdk && sdk[p].Tombstone?
  }

  function PathsOf(writes: seq<Write>): seq<Path> {
    seq(|writes|, i requires 0 <= i < |writes| => writes[i].path)
  }

  ghost predicate Distinct(paths: seq<Path>) {
    forall i, j :: 0 <= i < j < |paths| ==> paths[i] != paths[j]
  }

  /** The lists of `plan` are right for exactly the paths in `done`. */
  ghost predicate PlansFor(plan: Plan, obs: Obsidian, sdk: Sdk, done: set<Path>) {
    && Distinct(PathsOf(plan.pushToSdk)) && Distinct(PathsOf(plan.applyToObsidian)) && Distinct(plan.deleteInObsidian)
    && (forall p :: p in PathsOf(plan.pushToSdk) <==> p in done && MustPush(obs, sdk, p))
    && (forall p :: p in PathsOf(plan.applyToObsidian) <==> p in done && MustApply(obs, sdk, p))
    && (forall p :: p in plan.deleteInObsidian <==> p in done && MustDelete(obs, sdk, p))
    && (forall w :: w in plan.pushToSdk ==> w.path in obs && w.content == obs[w.path])
    && (forall w :: w in plan.applyToObsidian ==> w.path in sdk && sdk[w.path] == Alive(w.content))
  }

  const EMPTY_PLAN := Plan([], [], [])

  /** The paths of either side that the filter admits. */
  function Admitted(obs: Obsidian, sdk: Sdk, filter: Path -> bool): set<Path> {
    set p | p in obs.Keys + sdk.Keys && filter(p)
  }

  /** The planning loop over the admitted paths of both sides, in any order. */
  method PlanReconcile(obs: Obsidian, sdk: Sdk, filter: Path -> bool) returns (plan: Plan)
    ensures PlansFor(plan, obs, sdk, Admitted(obs, sdk, filter))
  {
    var obsPaths := set p | p in obs && filter(p);
    var sdkPaths := set p | p in sdk && filter(p);
    var allPaths := obsPaths + sdkPaths;
    assert allPaths == Admitted(obs, sdk, filter);
    plan := PlanPaths(obs, sdk, allPaths);
  }

  method PlanPaths(obs: Obsidian, sdk: Sdk, paths: set<Path>) returns (plan: Plan)
    ensures PlansFor(plan, obs, sdk, paths)
  {
    plan := EMPTY_PLAN;
    PlanEmpty(obs, sdk);
    var todo := paths;
    ghost var done: set<Path> := {};
    while todo != {}
      invariant todo <= paths && done == paths - todo
      invariant PlansFor(plan, obs, sdk, done)
      decreases |todo|
    {
      var p :| p in todo;
      plan := PlanPath(plan, obs, sdk, done, p);
      todo := todo - {p};
      done := done + {p};
    }
    assert done == paths;
  }

  lemma PlanEmpty(obs: Obsidian, sdk: Sdk)
    ensures PlansFor(EMPTY_PLAN, obs, sdk, {})
  {
    assert PathsOf([]) == [];
  }

  /** The loop body: what one path adds to the plan. */
  method PlanPath(plan: Plan, obs: Obsidian, sdk: Sdk, ghost done: set<Path>, p: Path) returns (next: Plan)
    requires PlansFor(plan, obs, sdk, done) && p !in done
    ensures PlansFor(next, obs, sdk, done + {p})
  {
    if p in obs && p in sdk && sdk[p].Tombstone? {
      PlanDelete(plan, obs, sdk, done, p);
      return plan.(deleteInObsidian := plan.deleteInObsidian + [p]);
    }
    if p in obs && p in sdk && sdk[p].Alive? {
      if obs[p] != sdk[p].text {
        PlanPush(plan, obs, sdk, done, p);
        return plan.(pushToSdk := plan.pushToSdk + [Write(p, obs[p])]);
      }
      PlanNothing(plan, obs, sdk, done, p);
      return plan;
    }
    if p in obs && p !in sdk {
      PlanPush(plan, obs, sdk, done, p);
      return plan.(pushToSdk := plan.pushToSdk + [Write(p, obs[p])]);
    }
    if p !in obs && p in sdk && sdk[p].Alive? {
      PlanApply(plan, obs, sdk, done, p);
      return plan.(applyToObsidian := plan.applyToObsidian + [Write(p, sdk[p].text)]);
    }
    PlanNothing(plan, obs, sdk, done, p);
    return plan;
  }

  lemma PlanNothing(plan: Plan, obs: Obsidian, sdk: Sdk, done: set<Path>, p: Path)
    requires PlansFor(plan, obs, sdk, done) && p !in done
    requires !MustPush(obs, sdk, p) && !MustApply(obs, sdk, p) && !MustDelete(obs, sdk, p)
    ensures PlansFor(plan, obs, sdk, done + {p})
  {}

  lemma DistinctAppend(paths: seq<Path>, p: Path)
    requires Distinct(paths) && p !in paths
    ensures Distinct(paths + [p])
  {}

  lemma PathsAppend(writes: seq<Write>, w: Write)
    ensures PathsOf(writes + [w]) == PathsOf(writes) + [w.path]
  {}

  lemma PlanDelete(plan: Plan, obs: Obsidian, sdk: Sdk, done: set<Path>, p: Path)
    requires PlansFor(plan, obs, sdk, done) && p !in done && MustDelete(obs, sdk, p)
    ensures PlansFor(plan.(deleteInObsidian := plan.deleteInObsidian + [p]), obs, sdk, done + {p})
  {
    DistinctAppend(plan.deleteInObsidian, p);
  }

  lemma PlanPush(plan: Plan, obs: Obsidian, sdk: Sdk, done: set<Path>, p: Path)
    requires PlansFor(plan, obs, sdk, done) && p !in done && MustPush(obs, sdk, p)
    ensures PlansFor(plan.(pushToSdk := plan.pushToSdk + [Write(p, obs[p])]), obs, sdk, done + {p})
  {
    PathsAppend(plan.pushToSdk, Write(p, obs[p]));
    DistinctAppend(PathsOf(plan.pushToSdk), p);
  }

  lemma PlanApply(plan: Plan, obs: Obsidian, sdk: Sdk, done: set<Path>, p: Path)
    requires PlansFor(plan, obs, sdk, done) && p !in done && MustApply(obs, sdk, p)
    ensures PlansFor(plan.(applyToObsidian := plan.applyToObsidian + [Write(p, sdk[p].text)]), obs, sdk, done + {p})
  {
    PathsAppend(plan.applyToObsidian, Write(p, sdk[p].text));
    DistinctAppend(PathsOf(plan.applyToObsidian), p);
  }

  // ---- Carrying the plan out ----

  /** `listFiles`: what the document shows of itself, its live files. */
  function Listing(sdk: Sdk): Sdk {
    map p | p in sdk && sdk[p].Alive? :: sdk[p]
  }

  /** What is to be pulled is admitted, and the pushes have not changed it. */
  lemma PulledAreUnpushed(plan: Plan, obs: Obsidian, sdk: Sdk, pushed: Sdk, filter: Path -> bool)
    requires PlansFor(plan, obs, Listing(sdk), Admitted(obs, Listing(sdk), filter))
    requires forall p :: Lookup(pushed, p) ==
               if p in PathsOf(plan.pushToSdk) then Some(Alive(obs[p])) else Lookup(sdk, p)
    ensures forall w :: w in plan.applyToObsidian ==>
              w.path in pushed && pushed[w.path] == Alive(w.content) && filter(w.path)
  {
    var listed := Listing(sdk);
    forall w | w in plan.applyToObsidian
      ensures w.path in pushed && pushed[w.path] == Alive(w.content) && filter(w.path)
    {
      var i :| 0 <= i < |plan.applyToObsidian| && plan.applyToObsidian[i] == w;
      assert PathsOf(plan.applyToObsidian)[i] == w.path;
      assert w.path in PathsOf(plan.applyToObsidian);
      assert MustApply(obs, listed, w.path) && w.path in Admitted(obs, listed, filter);
      assert w.path !in PathsOf(plan.pushToSdk);
      assert Lookup(pushed, w.path) == Lookup(sdk, w.path);
    }
  }

  lemma FirstIsMember(paths: seq<Path>)
    ensures paths == [] || exists p :: p in paths
  {
    if paths != [] {
      assert paths[0] in paths;
    }
  }

  /** A plan made from a listing deletes nothing: a listing has no tombstones to act on. */
  lemma ListingDeletesNothing(plan: Plan, obs: Obsidian, sdk: Sdk, done: set<Path>)
    requires PlansFor(plan, obs, Listing(sdk), done)
    ensures plan.deleteInObsidian == []
  {
    var paths := plan.deleteInObsidian;
    assert forall p :: p !in paths;
    FirstIsMember(paths);
  }

  class Sides {
    var obs: Obsidian
    var sdk: Sdk

    constructor (obs: Obsidian, sdk: Sdk)
      ensures this.obs == obs && this.sdk == sdk
    {
      this.obs, this.sdk := obs, sdk;
    }

    /** Pushes, then pulls, then deletions, of a plan made from the listing of the document. */
    method Execute(plan: Plan, filter: Path -> bool)
      requires PlansFor(plan, obs, Listing(sdk), Admitted(obs, Listing(sdk), filter))
      modifies this
      ensures forall p :: Lookup(obs, p) ==
                if filter(p) && MustApply(old(obs), Listing(old(sdk)), p) then Some(old(sdk)[p].text) else Lookup(old(obs), p)
      ensures forall p :: Lookup(sdk, p) ==
                if filter(p) && MustPush(old(obs), Listing(old(sdk)), p) then Some(Alive(old(obs)[p])) else Lookup(old(sdk), p)
    {
      ListingDeletesNothing(plan, obs, sdk, Admitted(obs, Listing(sdk), filter));
      Push(plan);
      PulledAreUnpushed(plan, old(obs), old(sdk), sdk, filter);
      Pull(plan, filter);
      Remove(plan.deleteInObsidian);
    }

    method Push(plan: Plan)
      requires forall w :: w in plan.pushToSdk ==> w.path in obs && w.content == obs[w.path]
      modifies this`sdk
      ensures forall p :: Lookup(sdk, p) ==
                if p in PathsOf(plan.pushToSdk) then Some(Alive(obs[p])) else Lookup(old(sdk), p)
    {
      ghost var paths := PathsOf(plan.pushToSdk);
      for i := 0 to |plan.pushToSdk|
        invariant forall p :: Lookup(sdk, p) == if p in paths[..i] then Some(Alive(obs[p])) else Lookup(old(sdk), p)
      {
        var op := plan.pushToSdk[i];
        assert op in plan.pushToSdk && paths[i] == op.path;
        assert paths[..i + 1] == paths[..i] + [op.path];
        sdk := sdk[op.path := Alive(op.content)];
      }
      assert paths[..|paths|] == paths;
    }

    method Pull(plan: Plan, filter: Path -> bool)
      requires forall w :: w in plan.applyToObsidian ==> w.path in sdk && sdk[w.path] == Alive(w.content) && filter(w.path)
      modifies this`obs
      ensures forall p :: Lookup(obs, p) ==
                if p in PathsOf(plan.applyToObsidian) then Some(sdk[p].text) else Lookup(old(obs), p)
    {
      ghost var paths := PathsOf(plan.applyToObsidian);
      for i := 0 to |plan.applyToObsidian|
        invariant forall p :: Lookup(obs, p) == if p in paths[..i] then Some(sdk[p].text) else Lookup(old(obs), p)
      {
        var op := plan.applyToObsidian[i];
        assert op in plan.applyToObsidian && paths[i] == op.path;
        assert paths[..i + 1] == paths[..i] + [op.path];
        ApplyOneRemoteFile(op.path, filter);
      }
      assert paths[..|paths|] == paths;
    }

    method Remove(paths: seq<Path>)
      modifies this`obs
      ensures forall p :: Lookup(obs, p) == if p in paths then None else Lookup(old(obs), p)
    {
      for i := 0 to |paths|
        invariant forall p :: Lookup(obs, p) == if p in paths[..i] then None else Lookup(old(obs), p)
      {
        assert paths[..i + 1] == paths[..i] + [paths[i]];
        obs := obs - {paths[i]};
      }
      assert paths[..|paths|] == paths;
    }

    /** Bring one live remote file over: create it, or rewrite it if it differs. */
    method ApplyOneRemoteFile(path: Path, filter: Path -> bool)
      requires path in sdk && sdk[path].Alive?
      modifies this`obs
      ensures obs == if filter(path) then old(obs)[path := sdk[path].text] else old(obs)
    {
      if !filter(path) {
        return;
      }
      var content := sdk[path].text;
      if path in obs {
        if obs[path] == content {
          assert obs == obs[path := content];
          return;
        }
        obs := obs[path := content];
        return;
      }
      obs := obs[path := content];
    }

    /**
     * Plan from the listing and execute. Both sides agree on every admitted path, nothing else is
     * touched, and no file of Obsidian is changed or deleted: it goes to the document instead.
     */
    method RunReconcile(filter: Path -> bool) returns (plan: Plan)
      modifies this
      ensures PlansFor(plan, old(obs), Listing(old(sdk)), Admitted(old(obs), Listing(old(sdk)), filter))
      ensures plan.deleteInObsidian == []
      ensures forall p :: Lookup(obs, p) ==
                if filter(p) && MustApply(old(obs), Listing(old(sdk)), p) then Some(old(sdk)[p].text) else Lookup(old(obs), p)
      ensures forall p :: Lookup(sdk, p) ==
                if filter(p) && MustPush(old(obs), Listing(old(sdk)), p) then Some(Alive(old(obs)[p])) else Lookup(old(sdk), p)
      ensures forall p :: filter(p) ==> Agree(obs, sdk, p)
      ensures forall p :: !filter(p) ==> Lookup(obs, p) == Lookup(old(obs), p) && Lookup(sdk, p) == Lookup(old(sdk), p)
      ensures forall p :: p in old(obs) ==> Lookup(obs, p) == Some(old(obs)[p])
      ensures forall p :: filter(p) && p in old(sdk) && old(sdk)[p].Tombstone? ==>
                (Lookup(sdk, p) == Some(Tombstone) <==> p !in old(obs))
    {
      ghost var obs0, sdk0 := obs, sdk;
      plan := PlanReconcile(obs, Listing(sdk), filter);
      ListingDeletesNothing(plan, obs, sdk, Admitted(obs, Listing(sdk), filter));
      Execute(plan, filter);
      forall p | filter(p) ensures Agree(obs, sdk, p) {
        assert Lookup(obs, p) == if MustApply(obs0, Listing(sdk0), p) then Some(sdk0[p].text) else Lookup(obs0, p);
        assert Lookup(sdk, p) == if MustPush(obs0, Listing(sdk0), p) then Some(Alive(obs0[p])) else Lookup(sdk0, p);
      }
    }
  }

  /** Same text on both sides, or gone from both. */
  predicate Agree(obs: Obsidian, sdk: Sdk, p: Path) {
    if p in obs then p in sdk && sdk[p] == Alive(obs[p]) else p in sdk ==> sdk[p].Tombstone?
  }

  /** A plan is empty exactly when the sides agree on every admitted path. */
  lemma EmptyPlanMeansAgreement(plan: Plan, obs: Obsidian, sdk: Sdk, filter: Path -> bool)
    requires PlansFor(plan, obs, sdk, Admitted(obs, sdk, filter))
    ensures plan == EMPTY_PLAN <==> forall p :: filter(p) ==> Agree(obs, sdk, p)
  {
    if plan == EMPTY_PLAN {
      forall p | filter(p) ensures Agree(obs, sdk, p) {
        assert p !in PathsOf(plan.pushToSdk) && p !in PathsOf(plan.applyToObsidian) && p !in plan.deleteInObsidian;
      }
    }
    if forall p :: filter(p) ==> Agree(obs, sdk, p) {
      NoPaths(PathsOf(plan.pushToSdk), obs, sdk, filter);
      NoPaths(PathsOf(plan.applyToObsidian), obs, sdk, filter);
      NoPaths(plan.deleteInObsidian, obs, sdk, filter);
    }
  }

  lemma NoPaths(paths: seq<Path>, obs: Obsidian, sdk: Sdk, filter: Path -> bool)
    requires forall p :: filter(p) ==> Agree(obs, sdk, p)
    requires forall p :: p in paths ==>
               filter(p) && (MustPush(obs, sdk, p) || MustApply(obs, sdk, p) || MustDelete(obs, sdk, p))
    ensures paths == []
  {
    if paths != [] {
      NotAllAgree(paths[0], obs, sdk, filter);
    }
  }

  lemma NotAllAgree(p: Path, obs: Obsidian, sdk: Sdk, filter: Path -> bool)
    requires filter(p) && (MustPush(obs, sdk, p) || MustApply(obs, sdk, p) || MustDelete(obs, sdk, p))
    ensures !forall q :: filter(q) ==> Agree(obs, sdk, q)
  {
    assert !Agree(obs, sdk, p);
  }

  /** Each path is in at most one of the three lists. */
  lemma ListsAreDisjoint(plan: Plan, obs: Obsidian, sdk: Sdk, done: set<Path>, p: Path)
    requires PlansFor(plan, obs, sdk, done)
    ensures !(p in PathsOf(plan.pushToSdk) && p in PathsOf(plan.applyToObsidian))
    ensures !(p in PathsOf(plan.pushToSdk) && p in plan.deleteInObsidian)
    ensures !(p in PathsOf(plan.applyToObsidian) && p in plan.deleteInObsidian)
  {}

  /** Running twice in a row: the second plan is empty. */
  method ReconcileTwice(s: Sides, filter: Path -> bool) returns (first: Plan, second: Plan)
    modifies s
    ensures second == EMPTY_PLAN
  {
    first := s.RunReconcile(filter);
    ghost var obs, sdk := s.obs, s.sdk;
    second := s.RunReconcile(filter);
    forall p | filter(p) ensures Agree(obs, Listing(sdk), p) {
      assert Agree(obs, sdk, p);
    }
    EmptyPlanMeansAgreement(second, obs, Listing(sdk), filter);
  }

  /** A file deleted in the document while Obsidian still has it comes back to life. */
  method DeletedFileComesBack(path: Path, text: string) returns (s: Sides)
    ensures s.obs == map[path := text] && s.sdk == map[path := Alive(text)]
  {
    s := new Sides(map[path := text], map[path := Tombstone]);
    var plan := s.RunReconcile(p => true);
    assert forall p :: Lookup(s.obs, p) == Lookup(map[path := text], p);
    assert forall p :: Lookup(s.sdk, p) == Lookup(map[path := Alive(text)], p);
    SameMap(s.obs, map[path := text]);
    SameMap(s.sdk, map[path := Alive(text)]);
  }
}
