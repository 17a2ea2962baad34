/**
 * Echo suppression (`fs/suppression.rs`): marks left by the engine's own writes, each good for one
 * watcher event within five seconds. Proved to refine a ledger that keeps every mark ever made.
 */
module Suppression {
  import opened Paths
  import opened DocumentState

  /** Time to live of a mark, in milliseconds. */
  const TTL := 5000

  datatype Mark = Mark(hash: Hash, at: int)

  function Unexpired(marks: seq<Mark>, now: int): (r: seq<Mark>)
    ensures |r| <= |marks|
  {
    if marks == [] then []
    else
      var rest := Unexpired(marks[..|marks| - 1], now);
      var last := marks[|marks| - 1];
      if now - last.at < TTL then rest + [last] else rest
  }

  /** Position of the first mark with this hash, or the length. */
  function Position(marks: seq<Mark>, hash: Hash): (i: nat)
    ensures i <= |marks|
    ensures i < |marks| ==> marks[i].hash == hash
    ensures forall k :: 0 <= k < i ==> marks[k].hash != hash
  {
    if marks == [] then 0
    else if marks[0].hash == hash then 0
    else 1 + Position(marks[1..], hash)
  }

  function WithoutFirst(marks: seq<Mark>, hash: Hash): seq<Mark> {
    var i := Position(marks, hash);
    if i < |marks| then RemovedAt(marks, i) else marks
  }

  function RemovedAt(marks: seq<Mark>, i: nat): seq<Mark>
    requires i < |marks|
  {
    marks[..i] + marks[i + 1..]
  }

  predicate HasMark(marks: seq<Mark>, hash: Hash) {
    exists i :: 0 <= i < |marks| && marks[i].hash == hash
  }

  type Entries = map<Path, seq<Mark>>

  function MarksAt(entries: Entries, p: Path): seq<Mark> {
    if p in entries then entries[p] else []
  }

  class DirtySet {
    var entries: Entries

    constructor ()
      ensures entries == map[]
    {
      entries := map[];
    }

    method Gc(now: int)
      modifies this
      ensures forall p :: MarksAt(entries, p) == Unexpired(MarksAt(old(entries), p), now)
    {
      entries := map p | p in entries && Unexpired(entries[p], now) != [] :: Unexpired(entries[p], now);
    }

    method MarkWritten(path: Path, hash: Hash, now: int)
      modifies this
      ensures forall p :: MarksAt(entries, p) ==
                          Unexpired(MarksAt(old(entries), p), now) + (if p == path then [Mark(hash, now)] else [])
    {
      Gc(now);
      var list := if path in entries then entries[path] else [];
      entries := entries[path := list + [Mark(hash, now)]];
    }

    /** The position of the first mark with this hash. */
    static method FindMark(list: seq<Mark>, hash: Hash) returns (i: nat)
      ensures i == Position(list, hash)
    {
      i := 0;
      while i < |list| && list[i].hash != hash
        invariant 0 <= i <= |list|
        invariant forall k :: 0 <= k < i ==> list[k].hash != hash
      {
        i := i + 1;
      }
    }

    method CheckAndConsume(path: Path, hash: Hash, now: int) returns (suppress: bool)
      modifies this
      ensures suppress <==> HasMark(Unexpired(MarksAt(old(entries), path), now), hash)
      ensures forall p :: MarksAt(entries, p) ==
                          var left := Unexpired(MarksAt(old(entries), p), now);
                          if p == path then WithoutFirst(left, hash) else left
    {
      Gc(now);
      if path !in entries {
        return false;
      }
      var list := entries[path];
      var i := FindMark(list, hash);
      assert list == Unexpired(MarksAt(old(entries), path), now);
      if i == |list| {
        return false;
      }
      assert list[i].hash == hash;
      list := list[..i] + list[i + 1..];
      if list == [] {
        entries := entries - {path};
      } else {
        entries := entries[path := list];
      }
      return true;
    }
  }

  // ---- The ledger: every mark ever made, in order, with what became of it ----

  datatype Item = Item(path: Path, hash: Hash, at: int, consumed: bool) {
    predicate Usable(p: Path, h: Hash, now: int) {
      path == p && hash == h && !consumed && now - at < 5000
    }
  }

  /** The marks of the ledger for one path that are neither consumed nor five seconds old. */
  function Active(ledger: seq<Item>, p: Path, now: int): seq<Mark> {
    if ledger == [] then []
    else
      var rest := Active(ledger[..|ledger| - 1], p, now);
      var last := ledger[|ledger| - 1];
      if last.path == p && !last.consumed && now - last.at < 5000 then rest + [Mark(last.hash, last.at)] else rest
  }

  /** Index of the oldest usable mark, or the length. */
  function Oldest(ledger: seq<Item>, p: Path, h: Hash, now: int): (i: nat)
    ensures i <= |ledger|
    ensures i < |ledger| ==> ledger[i].Usable(p, h, now)
    ensures forall k :: 0 <= k < i ==> !ledger[k].Usable(p, h, now)
  {
    if ledger == [] then 0
    else
      var i := Oldest(ledger[..|ledger| - 1], p, h, now);
      if i < |ledger| - 1 then i
      else if ledger[|ledger| - 1].Usable(p, h, now) then i else |ledger|
  }

  /** Use up the oldest usable mark, if there is one. */
  function Spend(ledger: seq<Item>, p: Path, h: Hash, now: int): seq<Item> {
    var i := Oldest(ledger, p, h, now);
    if i < |ledger| then ledger[i := ledger[i].(consumed := true)] else ledger
  }

  /** The set holds, for each path, exactly the marks of the ledger that still count. */
  ghost predicate Represents(entries: Entries, ledger: seq<Item>, now: int) {
    forall p :: Unexpired(MarksAt(entries, p), now) == Active(ledger, p, now)
  }

  lemma {:induction false} UnexpiredAppend(a: seq<Mark>, b: seq<Mark>, now: int)
    ensures Unexpired(a + b, now) == Unexpired(a, now) + Unexpired(b, now)
  {
    if b == [] {
      assert a + b == a;
    } else {
      UnexpiredAppend(a, b[..|b| - 1], now);
      assert (a + b)[..|a + b| - 1] == a + b[..|b| - 1];
    }
  }

  /** Collecting earlier changes nothing later: an expired mark stays expired. */
  lemma {:induction false} UnexpiredLater(marks: seq<Mark>, earlier: int, later: int)
    requires earlier <= later
    ensures Unexpired(Unexpired(marks, earlier), later) == Unexpired(marks, later)
  {
    if marks != [] {
      var init, last := marks[..|marks| - 1], marks[|marks| - 1];
      UnexpiredLater(init, earlier, later);
      if earlier - last.at < TTL {
        var kept := Unexpired(init, earlier);
        assert (kept + [last])[..|kept|] == kept;
      }
    }
  }

  lemma {:induction false} ActiveLater(ledger: seq<Item>, p: Path, earlier: int, later: int)
    requires earlier <= later
    ensures Unexpired(Active(ledger, p, earlier), later) == Active(ledger, p, later)
  {
    if ledger != [] {
      var init, last := ledger[..|ledger| - 1], ledger[|ledger| - 1];
      ActiveLater(init, p, earlier, later);
      if last.path == p && !last.consumed && earlier - last.at < TTL {
        var kept := Active(init, p, earlier);
        assert (kept + [Mark(last.hash, last.at)])[..|kept|] == kept;
      }
    }
  }

  lemma RepresentsLater(entries: Entries, ledger: seq<Item>, earlier: int, later: int)
    requires Represents(entries, ledger, earlier) && earlier <= later
    ensures Represents(entries, ledger, later)
  {
    forall p ensures Unexpired(MarksAt(entries, p), later) == Active(ledger, p, later) {
      UnexpiredLater(MarksAt(entries, p), earlier, later);
      ActiveLater(ledger, p, earlier, later);
    }
  }

  /** What `MarkWritten` does keeps the set in step with a ledger that gained the mark. */
  lemma MarkRefines(before: Entries, after: Entries, ledger: seq<Item>, path: Path, hash: Hash, now: int)
    requires Represents(before, ledger, now)
    requires forall p :: MarksAt(after, p) ==
                         Unexpired(MarksAt(before, p), now) + (if p == path then [Mark(hash, now)] else [])
    ensures Represents(after, ledger + [Item(path, hash, now, false)], now)
  {
    var longer := ledger + [Item(path, hash, now, false)];
    assert longer[..|ledger|] == ledger;
    forall p ensures Unexpired(MarksAt(after, p), now) == Active(longer, p, now) {
      var old' := MarksAt(before, p);
      UnexpiredLater(old', now, now);
      UnexpiredAppend(Unexpired(old', now), if p == path then [Mark(hash, now)] else [], now);
    }
  }

  lemma {:induction false} SpendOther(ledger: seq<Item>, i: nat, p: Path, now: int)
    requires i < |ledger| && ledger[i].path != p
    ensures Active(ledger[i := ledger[i].(consumed := true)], p, now) == Active(ledger, p, now)
  {
    var spent := ledger[i := ledger[i].(consumed := true)];
    var init := ledger[..|ledger| - 1];
    if i < |init| {
      SpendOther(init, i, p, now);
      assert spent[..|ledger| - 1] == init[i := init[i].(consumed := true)];
    } else {
      assert spent[..|ledger| - 1] == init;
    }
  }

  lemma {:induction false} PositionAppend(marks: seq<Mark>, last: Mark, hash: Hash)
    ensures Position(marks + [last], hash) ==
            if Position(marks, hash) < |marks| then Position(marks, hash)
            else if last.hash == hash then |marks| else |marks| + 1
  {
    if marks != [] {
      assert (marks + [last])[1..] == marks[1..] + [last];
      PositionAppend(marks[1..], last, hash);
    } else {
      assert marks + [last] == [last];
    }
  }

  lemma {:induction false} NoneUsable(ledger: seq<Item>, p: Path, h: Hash, now: int)
    ensures HasMark(Active(ledger, p, now), h) <==> Oldest(ledger, p, h, now) < |ledger|
    ensures Position(Active(ledger, p, now), h) < |Active(ledger, p, now)| <==> Oldest(ledger, p, h, now) < |ledger|
  {
    var active := Active(ledger, p, now);
    assert HasMark(active, h) <==> Position(active, h) < |active|;
    if ledger != [] {
      var init, last := ledger[..|ledger| - 1], ledger[|ledger| - 1];
      NoneUsable(init, p, h, now);
      PositionAppend(Active(init, p, now), Mark(last.hash, last.at), h);
    }
  }

  lemma DropAppend(marks: seq<Mark>, last: Mark, i: nat)
    requires i < |marks|
    ensures RemovedAt(marks + [last], i) == RemovedAt(marks, i) + [last]
  {
  }

  lemma DropLast(marks: seq<Mark>, last: Mark)
    ensures RemovedAt(marks + [last], |marks|) == marks
  {
  }

  lemma WithoutFirstAppend(marks: seq<Mark>, last: Mark, h: Hash)
    ensures WithoutFirst(marks + [last], h) ==
            if Position(marks, h) < |marks| then WithoutFirst(marks, h) + [last]
            else if last.hash == h then marks else marks + [last]
  {
    PositionAppend(marks, last, h);
    if Position(marks, h) < |marks| {
      DropAppend(marks, last, Position(marks, h));
    } else if last.hash == h {
      DropLast(marks, last);
    }
  }

  lemma ActiveSnoc(init: seq<Item>, last: Item, p: Path, now: int)
    ensures Active(init + [last], p, now) ==
            Active(init, p, now) +
            (if last.path == p && !last.consumed && now - last.at < TTL then [Mark(last.hash, last.at)] else [])
  {
    assert (init + [last])[..|init|] == init;
  }

  lemma SpendSnoc(init: seq<Item>, last: Item, p: Path, h: Hash, now: int)
    ensures Spend(init + [last], p, h, now) ==
            if Oldest(init, p, h, now) < |init| then Spend(init, p, h, now) + [last]
            else if last.Usable(p, h, now) then init + [last.(consumed := true)] else init + [last]
  {
    assert (init + [last])[..|init|] == init;
  }

  lemma {:induction false} SpendHere(ledger: seq<Item>, p: Path, h: Hash, now: int)
    ensures Active(Spend(ledger, p, h, now), p, now) == WithoutFirst(Active(ledger, p, now), h)
  {
    if ledger != [] {
      var init, last := ledger[..|ledger| - 1], ledger[|ledger| - 1];
      assert ledger == init + [last];
      var active := Active(init, p, now);
      SpendHere(init, p, h, now);
      NoneUsable(init, p, h, now);
      SpendSnoc(init, last, p, h, now);
      SpendHereStep(active, Spend(ledger, p, h, now), Oldest(init, p, h, now) < |init|, init, last, p, h, now);
    }
  }

  lemma SpendHereStep(active: seq<Mark>, spent: seq<Item>, found: bool, init: seq<Item>, last: Item, p: Path, h: Hash, now: int)
    requires active == Active(init, p, now)
    requires found <==> Position(active, h) < |active|
    requires found ==> spent == Spend(init, p, h, now) + [last] && Active(Spend(init, p, h, now), p, now) == WithoutFirst(active, h)
    requires !found ==> spent == init + [if last.Usable(p, h, now) then last.(consumed := true) else last]
    ensures Active(spent, p, now) == WithoutFirst(Active(init + [last], p, now), h)
  {
    ActiveSnoc(init, last, p, now);
    WithoutFirstAppend(active, Mark(last.hash, last.at), h);
    if found {
      ActiveSnoc(Spend(init, p, h, now), last, p, now);
    } else {
      ActiveSnoc(init, if last.Usable(p, h, now) then last.(consumed := true) else last, p, now);
    }
  }

  /**
   * The answer is yes exactly when the ledger has an unconsumed, unexpired mark for this path and
   * hash, and then the oldest such mark is used up.
   */
  lemma CheckRefines(before: Entries, after: Entries, ledger: seq<Item>, path: Path, hash: Hash, now: int)
    requires Represents(before, ledger, now)
    requires forall p :: MarksAt(after, p) ==
                         var left := Unexpired(MarksAt(before, p), now);
                         if p == path then WithoutFirst(left, hash) else left
    ensures HasMark(Unexpired(MarksAt(before, path), now), hash) <==>
            exists i :: 0 <= i < |ledger| && ledger[i].Usable(path, hash, now)
    ensures Represents(after, Spend(ledger, path, hash, now), now)
  {
    NoneUsable(ledger, path, hash, now);
    forall p ensures Unexpired(MarksAt(after, p), now) == Active(Spend(ledger, path, hash, now), p, now) {
      if p == path {
        SpendHere(ledger, path, hash, now);
        ActiveLater(Spend(ledger, path, hash, now), p, now, now);
      } else {
        var i := Oldest(ledger, path, hash, now);
        if i < |ledger| {
          SpendOther(ledger, i, p, now);
        }
        UnexpiredLater(MarksAt(before, p), now, now);
      }
    }
  }

  // ---- Runs ----

  datatype Event =
    | Marked(path: Path, hash: Hash, at: int)
    | Checked(path: Path, hash: Hash, at: int, suppressed: bool)

  /** One call on the set, as the methods above specify it. */
  ghost predicate Call(before: Entries, e: Event, after: Entries) {
    match e
    case Marked(path, hash, now) =>
      forall p :: MarksAt(after, p) ==
                  Unexpired(MarksAt(before, p), now) + (if p == path then [Mark(hash, now)] else [])
    case Checked(path, hash, now, suppressed) =>
      && suppressed == HasMark(Unexpired(MarksAt(before, path), now), hash)
      && forall p :: MarksAt(after, p) ==
                     var left := Unexpired(MarksAt(before, p), now);
                     if p == path then WithoutFirst(left, hash) else left
  }

  ghost predicate IsRun(sets: seq<Entries>, events: seq<Event>) {
    && |sets| == |events| + 1 && sets[0] == map[]
    && (forall i :: 0 <= i < |events| ==> Call(sets[i], events[i], sets[i + 1]))
    && (forall i, j :: 0 <= i < j < |events| ==> events[i].at <= events[j].at)
  }

  function LedgerStep(ledger: seq<Item>, e: Event): seq<Item> {
    match e
    case Marked(path, hash, now) => ledger + [Item(path, hash, now, false)]
    case Checked(path, hash, now, _) => Spend(ledger, path, hash, now)
  }

  function LedgerAfter(events: seq<Event>): seq<Item> {
    if events == [] then [] else LedgerStep(LedgerAfter(events[..|events| - 1]), events[|events| - 1])
  }

  lemma CallRefines(before: Entries, e: Event, after: Entries, ledger: seq<Item>)
    requires Represents(before, ledger, e.at) && Call(before, e, after)
    ensures Represents(after, LedgerStep(ledger, e), e.at)
  {
    match e
    case Marked(path, hash, at) => MarkRefines(before, after, ledger, path, hash, at);
    case Checked(path, hash, at, _) => CheckRefines(before, after, ledger, path, hash, at);
  }

  lemma LedgerSnoc(events: seq<Event>, n: nat)
    requires 0 < n <= |events|
    ensures LedgerAfter(events[..n]) == LedgerStep(LedgerAfter(events[..n - 1]), events[n - 1])
  {
    assert events[..n][..n - 1] == events[..n - 1];
  }

  lemma {:induction false} RunRepresents(sets: seq<Entries>, events: seq<Event>, n: nat, now: int)
    requires IsRun(sets, events) && n <= |events| && (n > 0 ==> events[n - 1].at <= now)
    ensures Represents(sets[n], LedgerAfter(events[..n]), now)
  {
    if n > 0 {
      var e := events[n - 1];
      RunRepresents(sets, events, n - 1, e.at);
      var ledger := LedgerAfter(events[..n - 1]);
      LedgerSnoc(events, n);
      CallRefines(sets[n - 1], e, sets[n], ledger);
      RepresentsLater(sets[n], LedgerAfter(events[..n]), e.at, now);
    }
  }

  /** In every run, an event is suppressed exactly when the ledger has a usable mark for it. */
  lemma SuppressedExactly(sets: seq<Entries>, events: seq<Event>, n: nat)
    requires IsRun(sets, events) && n < |events| && events[n].Checked?
    ensures var e := events[n];
            var ledger := LedgerAfter(events[..n]);
            e.suppressed <==> exists i :: 0 <= i < |ledger| && ledger[i].Usable(e.path, e.hash, e.at)
  {
    var e := events[n];
    RunRepresents(sets, events, n, e.at);
    assert Call(sets[n], e, sets[n + 1]);
    CheckRefines(sets[n], sets[n + 1], LedgerAfter(events[..n]), e.path, e.hash, e.at);
  }

  function MarksFor(events: seq<Event>, p: Path, h: Hash): nat {
    if events == [] then 0
    else
      var e := events[|events| - 1];
      MarksFor(events[..|events| - 1], p, h) + (if e.Marked? && e.path == p && e.hash == h then 1 else 0)
  }

  function SuppressionsFor(events: seq<Event>, p: Path, h: Hash): nat {
    if events == [] then 0
    else
      var e := events[|events| - 1];
      SuppressionsFor(events[..|events| - 1], p, h)
      + (if e.Checked? && e.suppressed && e.path == p && e.hash == h then 1 else 0)
  }

  function Consumed(ledger: seq<Item>, p: Path, h: Hash): nat {
    if ledger == [] then 0
    else
      var last := ledger[|ledger| - 1];
      Consumed(ledger[..|ledger| - 1], p, h) + (if last.path == p && last.hash == h && last.consumed then 1 else 0)
  }

  function Made(ledger: seq<Item>, p: Path, h: Hash): nat {
    if ledger == [] then 0
    else
      var last := ledger[|ledger| - 1];
      Made(ledger[..|ledger| - 1], p, h) + (if last.path == p && last.hash == h then 1 else 0)
  }

  lemma {:induction false} ConsumedAtMostMade(ledger: seq<Item>, p: Path, h: Hash)
    ensures Consumed(ledger, p, h) <= Made(ledger, p, h)
  {
    if ledger != [] {
      ConsumedAtMostMade(ledger[..|ledger| - 1], p, h);
    }
  }

  lemma {:induction false} SpendCounts(ledger: seq<Item>, i: nat, p: Path, h: Hash)
    requires i < |ledger| && !ledger[i].consumed
    ensures var spent := ledger[i := ledger[i].(consumed := true)];
            && Made(spent, p, h) == Made(ledger, p, h)
            && Consumed(spent, p, h) ==
               Consumed(ledger, p, h) + (if ledger[i].path == p && ledger[i].hash == h then 1 else 0)
  {
    var spent := ledger[i := ledger[i].(consumed := true)];
    var init := ledger[..|ledger| - 1];
    if i < |init| {
      SpendCounts(init, i, p, h);
      assert spent[..|init|] == init[i := init[i].(consumed := true)];
    } else {
      assert spent[..|init|] == init;
    }
  }

  lemma {:induction false} LedgerCounts(sets: seq<Entries>, events: seq<Event>, n: nat, p: Path, h: Hash)
    requires IsRun(sets, events) && n <= |events|
    ensures Made(LedgerAfter(events[..n]), p, h) == MarksFor(events[..n], p, h)
    ensures Consumed(LedgerAfter(events[..n]), p, h) == SuppressionsFor(events[..n], p, h)
  {
    if n > 0 {
      var e := events[n - 1];
      LedgerCounts(sets, events, n - 1, p, h);
      if e.Checked? {
        SuppressedExactly(sets, events, n - 1);
      }
      assert events[..n] == events[..n - 1] + [e];
      StepCounts(events[..n - 1], e, p, h);
    }
  }

  /** One more event changes the counts of the ledger and of the events alike. */
  lemma StepCounts(events: seq<Event>, e: Event, p: Path, h: Hash)
    requires var ledger := LedgerAfter(events);
      && Made(ledger, p, h) == MarksFor(events, p, h) && Consumed(ledger, p, h) == SuppressionsFor(events, p, h)
      && (e.Checked? ==> (e.suppressed <==> exists i :: 0 <= i < |ledger| && ledger[i].Usable(e.path, e.hash, e.at)))
    ensures var longer := events + [e];
      && Made(LedgerAfter(longer), p, h) == MarksFor(longer, p, h)
      && Consumed(LedgerAfter(longer), p, h) == SuppressionsFor(longer, p, h)
  {
    var longer, ledger := events + [e], LedgerAfter(events);
    assert longer[..|longer| - 1] == events;
    assert LedgerAfter(longer) == LedgerStep(ledger, e);
    if e.Marked? {
      MarkCounts(ledger, Item(e.path, e.hash, e.at, false), p, h);
    } else {
      CheckCounts(ledger, e.path, e.hash, e.at, p, h);
    }
  }

  lemma MarkCounts(ledger: seq<Item>, item: Item, p: Path, h: Hash)
    requires !item.consumed
    ensures Made(ledger + [item], p, h) == Made(ledger, p, h) + (if item.path == p && item.hash == h then 1 else 0)
    ensures Consumed(ledger + [item], p, h) == Consumed(ledger, p, h)
  {
    assert (ledger + [item])[..|ledger|] == ledger;
  }

  lemma CheckCounts(ledger: seq<Item>, q: Path, g: Hash, at: int, p: Path, h: Hash)
    ensures var usable := exists i :: 0 <= i < |ledger| && ledger[i].Usable(q, g, at);
      && Made(Spend(ledger, q, g, at), p, h) == Made(ledger, p, h)
      && Consumed(Spend(ledger, q, g, at), p, h)
      == Consumed(ledger, p, h) + (if usable && q == p && g == h then 1 else 0)
  {
    var i := Oldest(ledger, q, g, at);
    if i < |ledger| {
      SpendCounts(ledger, i, p, h);
    }
  }

  /** No run suppresses more events for a path and hash than the engine marked writes of it. */
  lemma SuppressionsNeverExceedMarks(sets: seq<Entries>, events: seq<Event>, p: Path, h: Hash)
    requires IsRun(sets, events)
    ensures SuppressionsFor(events, p, h) <= MarksFor(events, p, h)
  {
    assert events[..|events|] == events;
    LedgerCounts(sets, events, |events|, p, h);
    ConsumedAtMostMade(LedgerAfter(events), p, h);
  }

  /** The mark a pass leaves for a deletion. */
  const DELETED := Other("<deleted>")

  /** Ingest checks the hashes of contents only, so no run ever suppresses the echo of a deletion. */
  lemma {:induction false} DeletionsNeverSuppressed(events: seq<Event>, p: Path)
    requires forall i :: 0 <= i < |events| && events[i].Checked? ==> events[i].hash.Digest?
    ensures SuppressionsFor(events, p, DELETED) == 0
  {
    if events != [] {
      DeletionsNeverSuppressed(events[..|events| - 1], p);
    }
  }
}
