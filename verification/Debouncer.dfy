/** The debounced loop over file system events (`debounced_fs_loop`, `flush_expired` in `vault.rs`). */
module Debouncer {
  import opened Wrappers
  import opened Paths

  /** Milliseconds a path must be quiet before its event is handled. */
  const DEBOUNCE := 150

  /** What the loop sleeps when nothing is pending. */
  const IDLE_WAIT := 3600000

  datatype FsEvent = Touched(path: Path) | Removed(path: Path) | Renamed(from: Path, to: Path) {
    function Key(): Path {
      match this
      case Touched(p) => p
      case Removed(p) => p
      case Renamed(_, to) => to
    }
  }

  datatype Waiting = Waiting(event: FsEvent, deadline: int)

  /** What happened, in order: events received and events handled. */
  datatype Entry =
    | Received(event: FsEvent, at: int)
    | Handled(event: FsEvent, at: int, forced: bool)

  datatype Input = Event(event: FsEvent, at: int) | Tick(at: int) | Closed(at: int)

  /** The last entry about `p`. */
  function Last(log: seq<Entry>, p: Path): Option<Entry> {
    if log == [] then None
    else if log[|log| - 1].event.Key() == p then Some(log[|log| - 1])
    else Last(log[..|log| - 1], p)
  }

  /**
   * Each handling follows a receipt of the same event with nothing about its path in between, so
   * it handles the latest event; and unless forced, it comes at least 150 milliseconds after it.
   */
  predicate Faithful(log: seq<Entry>) {
    log == [] ||
    var init, e := log[..|log| - 1], log[|log| - 1];
    && Faithful(init)
    && (e.Handled? ==>
          && Last(init, e.event.Key()).Some? && Last(init, e.event.Key()).value.Received?
          && Last(init, e.event.Key()).value.event == e.event
          && (!e.forced ==> Last(init, e.event.Key()).value.at + 150 <= e.at))
  }

  /** Exactly the paths whose last entry is a receipt are pending, with that event and its deadline. */
  ghost predicate InStep(pending: map<Path, Waiting>, log: seq<Entry>) {
    forall p :: Lookup(pending, p) ==
                if Last(log, p).Some? && Last(log, p).value.Received?
                then Some(Waiting(Last(log, p).value.event, Last(log, p).value.at + DEBOUNCE)) else None
  }

  function Receipts(log: seq<Entry>): seq<Entry> {
    if log == [] then []
    else
      var e := log[|log| - 1];
      Receipts(log[..|log| - 1]) + if e.Received? then [e] else []
  }

  lemma LastSnoc(log: seq<Entry>, e: Entry, p: Path)
    ensures Last(log + [e], p) == if e.event.Key() == p then Some(e) else Last(log, p)
  {
    assert (log + [e])[..|log|] == log;
  }

  lemma FaithfulSnoc(log: seq<Entry>, e: Entry)
    requires Faithful(log)
    requires e.Handled? ==>
               && Last(log, e.event.Key()).Some? && Last(log, e.event.Key()).value.Received?
               && Last(log, e.event.Key()).value.event == e.event
               && (!e.forced ==> Last(log, e.event.Key()).value.at + DEBOUNCE <= e.at)
    ensures Faithful(log + [e])
    ensures Receipts(log + [e]) == Receipts(log) + if e.Received? then [e] else []
  {
    assert (log + [e])[..|log|] == log;
  }

  /** The handling of a path that was waiting: its event, at its deadline or at `now` if that is later. */
  ghost predicate OnTime(waiting: map<Path, Waiting>, e: Entry, now: int) {
    var p := e.event.Key();
    p in waiting && e == Handled(waiting[p].event, if waiting[p].deadline < now then now else waiting[p].deadline, false)
  }

  lemma Shrinks(less: map<Path, Waiting>, more: map<Path, Waiting>, gone: Path)
    requires less.Keys <= more.Keys && gone in more && gone !in less
    ensures |less| < |more|
  {
    Subsets(less.Keys, more.Keys - {gone});
    assert |less.Keys| == |less| && |more.Keys| == |more|;
  }

  lemma {:induction false} Subsets(a: set<Path>, b: set<Path>)
    requires a <= b
    ensures |a| <= |b|
  {
    if a != {} {
      var x :| x in a;
      Subsets(a - {x}, b - {x});
    }
  }

  /** A handling is due to a tick of the timer at that time or, if forced, to the closing of the channel. */
  predicate Prompted(e: Entry, inputs: seq<Input>) {
    e.Handled? ==> if e.forced then Closed(e.at) in inputs else Tick(e.at) in inputs
  }

  class EventLoop {
    var pending: map<Path, Waiting>
    var log: seq<Entry>

    ghost predicate Valid()
      reads this
    {
      Faithful(log) && InStep(pending, log)
    }

    constructor ()
      ensures Valid() && pending == map[] && log == []
    {
      pending, log := map[], [];
    }

    /** How long to sleep: until the earliest deadline, not at all if one has passed. */
    method NextWait(now: int) returns (wait: nat)
      ensures pending == map[] ==> wait == 3600000
      ensures pending != map[] ==> exists p :: p in pending && pending[p].deadline <= now + wait
      ensures forall p :: p in pending ==> wait == 0 || now + wait <= pending[p].deadline
    {
      if pending == map[] {
        return IDLE_WAIT;
      }
      var some :| some in pending;
      wait := if pending[some].deadline > now then pending[some].deadline - now else 0;
      ghost var soonest := some;
      var todo := pending.Keys;
      while todo != {}
        invariant todo <= pending.Keys && soonest in pending && pending[soonest].deadline <= now + wait
        invariant forall p :: p in pending && p !in todo ==> wait == 0 || now + wait <= pending[p].deadline
        decreases |todo|
      {
        var p :| p in todo;
        todo := todo - {p};
        var left := if pending[p].deadline > now then pending[p].deadline - now else 0;
        if left < wait {
          wait := left;
          soonest := p;
        }
      }
    }

    method Receive(event: FsEvent, now: int)
      requires Valid()
      modifies this
      ensures Valid()
      ensures pending == old(pending)[event.Key() := Waiting(event, now + DEBOUNCE)]
      ensures (match event {
                 case Touched(path) => path
                 case Removed(path) => path
                 case Renamed(_, to) => to
               }) in pending
      ensures log == old(log) + [Received(event, now)]
    {
      pending := pending[event.Key() := Waiting(event, now + DEBOUNCE)];
      forall p {:trigger Last(log + [Received(event, now)], p)} ensures Last(log + [Received(event, now)], p) ==
        if event.Key() == p then Some(Received(event, now)) else Last(log, p)
      {
        LastSnoc(log, Received(event, now), p);
      }
      FaithfulSnoc(log, Received(event, now));
      log := log + [Received(event, now)];
    }

    /**
     * Handle what has expired, or everything when forced, in any order. Exactly those paths stop
     * being pending, each handled once.
     */
    method FlushExpired(now: int, forceAll: bool)
      requires Valid()
      modifies this
      ensures Valid()
      ensures pending == map p | p in old(pending) && !(forceAll || old(pending)[p].deadline <= now) :: old(pending)[p]
      ensures old(log) <= log && |log| == |old(log)| + |old(pending)| - |pending|
      ensures forall i :: |old(log)| <= i < |log| ==>
                && log[i].event.Key() in old(pending) && log[i].event.Key() !in pending
                && log[i] == Handled(old(pending)[log[i].event.Key()].event, now, forceAll)
      ensures Receipts(log) == Receipts(old(log))
    {
      ghost var before := pending;
      var expired := set p | p in pending && (forceAll || pending[p].deadline <= now);
      var todo := expired;
      while todo != {}
        invariant todo <= expired && Valid()
        invariant pending == map p | p in before && p !in expired - todo :: before[p]
        invariant old(log) <= log && |log| == |old(log)| + |before| - |pending|
        invariant forall i :: |old(log)| <= i < |log| ==>
                    && log[i].event.Key() in expired - todo
                    && log[i] == Handled(before[log[i].event.Key()].event, now, forceAll)
        invariant Receipts(log) == Receipts(old(log))
        decreases |todo|
      {
        var p :| p in todo;
        todo := todo - {p};
        KeyOfWaiting(p);
        HandleOne(p, now, forceAll);
      }
    }

    lemma KeyOfWaiting(p: Path)
      requires Valid() && p in pending
      ensures pending[p].event.Key() == p
    {
      LastKey(log, p);
    }

    method HandleOne(p: Path, now: int, forced: bool)
      requires Valid() && p in pending && pending[p].event.Key() == p && (forced || pending[p].deadline <= now)
      modifies this
      ensures Valid()
      ensures pending == old(pending) - {p}
      ensures log == old(log) + [Handled(old(pending)[p].event, now, forced)]
      ensures Receipts(log) == Receipts(old(log))
    {
      var e := Handled(pending[p].event, now, forced);
      forall q {:trigger Last(log + [e], q)} ensures Last(log + [e], q) == if q == p then Some(e) else Last(log, q) {
        LastSnoc(log, e, q);
      }
      assert Lookup(pending, p) == Some(pending[p]);
      FaithfulSnoc(log, e);
      pending := pending - {p};
      log := log + [e];
    }

    /** One turn of the loop in which no event comes: sleep, then flush. Something pending is handled. */
    method SleepAndFlush(now: int) returns (woken: int)
      requires Valid()
      modifies this
      ensures Valid() && now <= woken
      ensures old(pending) != map[] ==> |pending| < |old(pending)|
      ensures pending == map p | p in old(pending) && old(pending)[p].deadline > woken :: old(pending)[p]
      ensures forall p :: p in old(pending) && p !in pending ==> woken == now || old(pending)[p].deadline == woken
      ensures old(log) <= log && |log| == |old(log)| + |old(pending)| - |pending|
      ensures forall i :: |old(log)| <= i < |log| ==>
                && log[i].event.Key() in old(pending) && log[i].event.Key() !in pending
                && log[i] == Handled(old(pending)[log[i].event.Key()].event, woken, false)
      ensures Receipts(log) == Receipts(old(log))
    {
      var wait := NextWait(now);
      woken := now + wait;
      FlushExpired(woken, false);
      assert pending.Keys <= old(pending).Keys;
      if old(pending) != map[] {
        ghost var p :| p in old(pending) && old(pending)[p].deadline <= woken;
        Shrinks(pending, old(pending), p);
      }
    }

    /**
     * If no more events come, the loop handles everything pending, each path once with its latest
     * event, and each at its deadline, or at once if that has passed.
     */
    method RunQuietly(now: int) returns (end: int)
      requires Valid()
      modifies this
      ensures Valid() && pending == map[] && Receipts(log) == Receipts(old(log))
      ensures old(log) <= log && |log| == |old(log)| + |old(pending)|
      ensures forall i :: |old(log)| <= i < |log| ==> OnTime(old(pending), log[i], now)
    {
      end := now;
      ghost var before := pending;
      while pending != map[]
        invariant Valid() && now <= end && Receipts(log) == Receipts(old(log))
        invariant forall p :: p in pending ==> p in before && pending[p] == before[p] && (end == now || pending[p].deadline > end)
        invariant old(log) <= log && |log| == |old(log)| + |before| - |pending|
        invariant forall i :: |old(log)| <= i < |log| ==> OnTime(before, log[i], now)
        decreases |pending|
      {
        ghost var was, logged := pending, log;
        end := SleepAndFlush(end);
        forall i | |old(log)| <= i < |log| ensures OnTime(before, log[i], now) {
          if i < |logged| {
            assert log[i] == logged[i];
          } else {
            assert log[i].event.Key() in was && was[log[i].event.Key()] == before[log[i].event.Key()];
          }
        }
      }
    }

    /** One turn of the loop, on whatever the channel or the timer delivered. */
    method Turn(input: Input)
      requires Valid()
      modifies this
      ensures Valid() && old(log) <= log
      ensures Receipts(log) == Receipts(old(log)) + EventsOf([input])
      ensures input.Closed? ==> pending == map[]
      ensures input.Tick? ==> forall p :: p in pending ==> pending[p].deadline > input.at
      ensures forall i :: |old(log)| <= i < |log| && log[i].Handled? ==> !input.Event? && log[i].at == input.at && log[i].forced == input.Closed?
    {
      assert [input][..0] == [] && EventsOf([]) == [];
      match input {
        case Event(e, at) =>
          FaithfulSnoc(log, Received(e, at));
          Receive(e, at);
        case Tick(at) =>
          FlushExpired(at, false);
        case Closed(at) =>
          FlushExpired(at, true);
      }
    }

    /** Drive the loop with whatever the channel and the timer deliver, until the channel closes. */
    method Run(inputs: seq<Input>) returns (closed: bool, used: nat)
      requires Valid() && log == [] && pending == map[]
      modifies this
      ensures Valid() && used <= |inputs|
      ensures Receipts(log) == EventsOf(inputs[..used])
      ensures if closed then used > 0 && inputs[used - 1].Closed? && pending == map[] else used == |inputs|
      ensures forall i :: 0 <= i < used - 1 ==> !inputs[i].Closed?
      ensures used > 0 && inputs[used - 1].Tick? ==> forall p :: p in pending ==> pending[p].deadline > inputs[used - 1].at
      ensures forall i :: 0 <= i < |log| ==> Prompted(log[i], inputs[..used])
    {
      used, closed := 0, false;
      while used < |inputs| && !closed
        invariant Valid() && used <= |inputs|
        invariant Receipts(log) == EventsOf(inputs[..used])
        invariant closed ==> used > 0 && inputs[used - 1].Closed? && pending == map[]
        invariant used > 0 && inputs[used - 1].Tick? ==> forall p :: p in pending ==> pending[p].deadline > inputs[used - 1].at
        invariant forall i :: 0 <= i < |log| ==> Prompted(log[i], inputs[..used])
        invariant forall i :: 0 <= i < used && (!closed || i < used - 1) ==> !inputs[i].Closed?
        decreases |inputs| - used, !closed
      {
        var input := inputs[used];
        ghost var before := log;
        Turn(input);
        EventsOfSnoc(inputs[..used], input);
        PromptedStill(before, log, inputs[..used], input);
        assert inputs[..used + 1] == inputs[..used] + [input];
        closed := input.Closed?;
        used := used + 1;
      }
    }
  }

  lemma EventsOfSnoc(inputs: seq<Input>, input: Input)
    ensures EventsOf(inputs + [input]) == EventsOf(inputs) + EventsOf([input])
  {
    assert (inputs + [input])[..|inputs|] == inputs && [input][..0] == [] && EventsOf([]) == [];
  }

  lemma PromptedStill(before: seq<Entry>, log: seq<Entry>, inputs: seq<Input>, input: Input)
    requires before <= log
    requires forall i :: 0 <= i < |before| ==> Prompted(before[i], inputs)
    requires forall i :: |before| <= i < |log| && log[i].Handled? ==> !input.Event? && log[i].at == input.at && log[i].forced == input.Closed?
    ensures forall i :: 0 <= i < |log| ==> Prompted(log[i], inputs + [input])
  {
    forall i | 0 <= i < |log| ensures Prompted(log[i], inputs + [input]) {
      assert i < |before| ==> log[i] == before[i];
      assert (inputs + [input])[|inputs|] == input;
    }
  }

  function EventsOf(inputs: seq<Input>): seq<Entry> {
    if inputs == [] then []
    else
      var x := inputs[|inputs| - 1];
      EventsOf(inputs[..|inputs| - 1]) + if x.Event? then [Received(x.event, x.at)] else []
  }

  lemma {:induction false} LastKey(log: seq<Entry>, p: Path)
    ensures Last(log, p).Some? ==> Last(log, p).value.event.Key() == p
  {
    if log != [] {
      LastKey(log[..|log| - 1], p);
    }
  }

  function ReceivedCount(log: seq<Entry>, p: Path): nat {
    if log == [] then 0
    else
      var e := log[|log| - 1];
      ReceivedCount(log[..|log| - 1], p) + if e.Received? && e.event.Key() == p then 1 else 0
  }

  function HandledCount(log: seq<Entry>, p: Path): nat {
    if log == [] then 0
    else
      var e := log[|log| - 1];
      HandledCount(log[..|log| - 1], p) + if e.Handled? && e.event.Key() == p then 1 else 0
  }

  /** In a faithful log no path is handled more often than it was reported; while pending, less often. */
  lemma {:induction false} HandledAtMostReceived(log: seq<Entry>, p: Path)
    requires Faithful(log)
    ensures HandledCount(log, p) + (if Last(log, p).Some? && Last(log, p).value.Received? then 1 else 0) <= ReceivedCount(log, p)
  {
    if log != [] {
      HandledAtMostReceived(log[..|log| - 1], p);
    }
  }

  /** Each received path is pending with its latest event, or its latest event was the one handled. */
  lemma {:induction false} LatestIsPendingOrHandled(log: seq<Entry>, pending: map<Path, Waiting>, i: nat)
    requires Faithful(log) && InStep(pending, log)
    requires i < |log| && log[i].Received?
    requires forall k :: i < k < |log| && log[k].Received? ==> log[k].event.Key() != log[i].event.Key()
    ensures var p := log[i].event.Key();
            if p in pending then pending[p] == Waiting(log[i].event, log[i].at + DEBOUNCE)
            else exists k :: i < k < |log| && log[k].Handled? && log[k].event == log[i].event
                             && (log[k].forced || log[i].at + DEBOUNCE <= log[k].at)
  {
    var p := log[i].event.Key();
    LastAfter(log, i);
    var here := Lookup(pending, p);
    assert here.Some? <==> p in pending;
  }

  /** After the last receipt of a path, its last entry is that receipt or the handling of it. */
  lemma {:induction false} LastAfter(log: seq<Entry>, i: nat)
    requires Faithful(log) && i < |log| && log[i].Received?
    requires forall k :: i < k < |log| && log[k].Received? ==> log[k].event.Key() != log[i].event.Key()
    ensures var p := log[i].event.Key();
            || Last(log, p) == Some(log[i])
            || (Last(log, p).Some? && Last(log, p).value.Handled?
                && exists k :: i < k < |log| && log[k].Handled? && log[k].event == log[i].event
                               && (log[k].forced || log[i].at + DEBOUNCE <= log[k].at))
  {
    var init := log[..|log| - 1];
    if i < |init| {
      LastAfter(init, i);
    }
  }

  /** Between two handlings of a path there is a receipt of it, so a flush handles no path twice. */
  lemma {:induction false} ReceiptBetweenHandlings(log: seq<Entry>, i: nat, j: nat)
    requires Faithful(log) && i < j < |log| && log[i].Handled? && log[j].Handled?
    requires log[i].event.Key() == log[j].event.Key()
    ensures exists k :: i < k < j && log[k].Received? && log[k].event.Key() == log[j].event.Key()
  {
    var init := log[..|log| - 1];
    if j < |init| {
      ReceiptBetweenHandlings(init, i, j);
      var k :| i < k < j && init[k].Received? && init[k].event.Key() == init[j].event.Key();
      assert log[k].Received?;
    } else {
      LastIndex(init, log[j].event.Key(), i);
    }
  }

  lemma {:induction false} LastIndex(log: seq<Entry>, p: Path, i: nat)
    requires i < |log| && log[i].event.Key() == p
    ensures Last(log, p).Some? && exists k :: i <= k < |log| && log[k] == Last(log, p).value && log[k].event.Key() == p
  {
    var init := log[..|log| - 1];
    if log[|log| - 1].event.Key() == p {
      assert log[|log| - 1] == Last(log, p).value;
    } else {
      LastIndex(init, p, i);
      var k :| i <= k < |init| && init[k] == Last(init, p).value && init[k].event.Key() == p;
      assert log[k] == Last(log, p).value;
    }
  }
}
