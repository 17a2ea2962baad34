/** Scheduling of remote-state passes in the Obsidian bridge (`bridge.ts`): one timer, one pass at a time. */
module Bridge {

  /** The fields of the debounce machinery. */
  datatype Schedule = Schedule(timer: bool, pending: bool, inFlight: bool, disposed: bool)

  /** A pass ends well or by throwing. */
  datatype Event = Notify | TimerFires | PassEnds(ok: bool) | Dispose

  const IDLE := Schedule(false, false, false, false)

  /** The host fires only a timer that is set, and only a running pass ends. */
  predicate Enabled(s: Schedule, e: Event) {
    (e.TimerFires? ==> s.timer) && (e.PassEnds? ==> s.inFlight)
  }

  /** Whether this event starts a pass. */
  predicate Starts(s: Schedule, e: Event) {
    e.TimerFires? && s.timer && !s.disposed
  }

  function Scheduled(s: Schedule): Schedule {
    if s.disposed then s
    else if s.inFlight || s.timer then s.(pending := true)
    else s.(timer := true)
  }

  function After(s: Schedule, e: Event): Schedule {
    match e
    case Notify => Scheduled(s)
    case TimerFires => if s.disposed then s.(timer := false) else s.(timer := false, inFlight := true)
    case PassEnds(ok) =>
      var idle := s.(inFlight := false);
      if ok && s.pending && !s.disposed then Scheduled(idle.(pending := false)) else idle
    case Dispose => s.(disposed := true, timer := false, pending := false)
  }

  /** The bridge's methods; a scheduled pass is the stretch from `TimerFires` to `PassEnds`. */
  class ObsidianVaultBridge {
    var applyTimer: bool
    var applyPending: bool
    var applyInFlight: bool
    var disposed: bool

    constructor ()
      ensures View() == IDLE
    {
      applyTimer, applyPending, applyInFlight, disposed := false, false, false, false;
    }

    function View(): Schedule
      reads this
    {
      Schedule(applyTimer, applyPending, applyInFlight, disposed)
    }

    method ScheduleApplyRemoteState()
      modifies this
      ensures View() == After(old(View()), Notify)
    {
      if disposed {
        return;
      }
      if applyInFlight {
        applyPending := true;
        return;
      }
      if applyTimer {
        applyPending := true;
        return;
      }
      applyTimer := true;
    }

    /** The timer callback; it runs a scheduled pass up to its first suspension. */
    method OnTimer() returns (started: bool)
      modifies this
      ensures View() == After(old(View()), TimerFires)
      ensures started <==> !old(disposed)
    {
      applyTimer := false;
      if disposed {
        return false;
      }
      applyInFlight := true;
      return true;
    }

    /** What follows the awaited pass; a throwing pass only resets the flag. */
    method OnPassEnd(ok: bool)
      requires applyInFlight && !applyTimer
      modifies this
      ensures View() == After(old(View()), PassEnds(ok))
    {
      applyInFlight := false;
      if !ok {
        return;
      }
      if applyPending && !disposed {
        applyPending := false;
        ScheduleApplyRemoteState();
      }
    }

    method DisposeBridge()
      modifies this
      ensures View() == After(old(View()), Dispose)
    {
      disposed := true;
      if applyTimer {
        applyTimer := false;
      }
      applyPending := false;
    }
  }

  // ---- Runs ----

  ghost predicate IsRun(run: seq<Schedule>, events: seq<Event>) {
    && |run| == |events| + 1 && run[0] == IDLE
    && forall i :: 0 <= i < |events| ==> Enabled(run[i], events[i]) && run[i + 1] == After(run[i], events[i])
  }

  /** A set timer excludes a running pass, and a disposed bridge has neither timer nor pending work. */
  predicate Orderly(s: Schedule) {
    (s.timer ==> !s.inFlight) && (s.disposed ==> !s.timer && !s.pending)
  }

  lemma {:induction false} AlwaysOrderly(run: seq<Schedule>, events: seq<Event>, i: nat)
    requires IsRun(run, events) && i < |run|
    ensures Orderly(run[i])
  {
    if i > 0 {
      AlwaysOrderly(run, events, i - 1);
      assert run[i] == After(run[i - 1], events[i - 1]);
    }
  }

  lemma {:induction false} InFlightUntilEnd(run: seq<Schedule>, events: seq<Event>, i: nat, j: nat)
    requires IsRun(run, events) && i < j < |run| && Starts(run[i], events[i])
    requires forall k :: i < k < j ==> !events[k].PassEnds?
    ensures run[j].inFlight
    decreases j
  {
    assert run[j] == After(run[j - 1], events[j - 1]);
    if j > i + 1 {
      InFlightUntilEnd(run, events, i, j - 1);
    }
  }

  /** Between the starts of two passes the first one ends: scheduled passes never overlap. */
  lemma PassesNeverOverlap(run: seq<Schedule>, events: seq<Event>, i: nat, j: nat)
    requires IsRun(run, events) && i < j < |events|
    requires Starts(run[i], events[i]) && Starts(run[j], events[j])
    ensures exists k :: i < k < j && events[k].PassEnds?
  {
    AlwaysOrderly(run, events, j);
    if forall k :: i < k < j ==> !events[k].PassEnds? {
      InFlightUntilEnd(run, events, i, j);
    }
  }

  lemma {:induction false} StaysDisposed(run: seq<Schedule>, events: seq<Event>, i: nat, j: nat)
    requires IsRun(run, events) && i <= j < |run| && run[i].disposed
    ensures run[j].disposed
    decreases j
  {
    if i < j {
      StaysDisposed(run, events, i, j - 1);
      assert run[j] == After(run[j - 1], events[j - 1]);
    }
  }

  /** After `dispose` no pass starts. */
  lemma NoStartAfterDispose(run: seq<Schedule>, events: seq<Event>, i: nat, j: nat)
    requires IsRun(run, events) && i < j < |events| && events[i] == Dispose
    ensures !Starts(run[j], events[j])
  {
    assert run[i + 1] == After(run[i], events[i]);
    StaysDisposed(run, events, i + 1, j);
  }

  /** A pass is on its way: the timer is set, or one is to be scheduled when the running one ends. */
  predicate Covered(s: Schedule) {
    s.timer || (s.inFlight && s.pending)
  }

  /** Short of a start, cover is lost exactly by a pass that throws, and by disposal. */
  lemma CoverLostExactly(s: Schedule, e: Event)
    requires Orderly(s) && Covered(s) && !s.disposed && Enabled(s, e) && !Starts(s, e)
    ensures Covered(After(s, e)) <==> e != PassEnds(false) && e != Dispose
  {}

  /**
   * If no pass throws and the bridge is not disposed, a notification is covered until a later
   * pass has started.
   */
  lemma {:induction false} NotificationCovered(run: seq<Schedule>, events: seq<Event>, i: nat, j: nat)
    requires IsRun(run, events) && i < j < |run| && events[i] == Notify && !run[i].disposed
    requires forall k :: i < k < j ==> events[k] != Dispose && events[k] != PassEnds(false)
    ensures (exists k :: i < k < j && Starts(run[k], events[k])) || (Covered(run[j]) && !run[j].disposed)
    decreases j
  {
    assert run[j] == After(run[j - 1], events[j - 1]);
    AlwaysOrderly(run, events, j - 1);
    if j > i + 1 {
      NotificationCovered(run, events, i, j - 1);
      if k :| i < k < j - 1 && Starts(run[k], events[k]) {
      } else if !Starts(run[j - 1], events[j - 1]) {
        CoverLostExactly(run[j - 1], events[j - 1]);
      }
    }
  }

  /** Cover leads to a start: the running pass ends, the timer fires, the next pass starts. */
  lemma CoverLeadsToStart(s: Schedule)
    requires Orderly(s) && Covered(s) && !s.disposed
    ensures var ready := if s.inFlight then After(s, PassEnds(true)) else s;
            Enabled(ready, TimerFires) && Starts(ready, TimerFires) && After(ready, TimerFires).inFlight
  {}
}
