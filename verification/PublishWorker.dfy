/**
 * The publish worker: one loop that waits, publishes and retries, fed by
 * requests that coalesce in a channel of capacity one. Steps interleave freely;
 * what the clock and the publisher do is whatever it is.
 */
module PublishWorker {
  /** Where the loop stands: in its select, in the debounce sleep, about to publish, publishing, or returned. */
  datatype Phase = Waiting | Settling | Due | Publishing | Stopped

  datatype Report = Report(attempt: nat, ok: bool)

  /** full: the channel holds a request. reports: what onResult was given. */
  datatype Loop = Loop(full: bool, phase: Phase, failures: nat, reports: seq<Report>)

  /** Enqueue and Cancel come from outside; the rest is the loop's own next move. */
  datatype Event = Enqueue | Receive | Settle | Timer | Begin | End(ok: bool) | Cancel

  const IDLE := Loop(false, Waiting, 0, [])

  predicate Enabled(w: Loop, e: Event) {
    match e
    case Enqueue => true
    case Receive => w.phase == Waiting && w.full
    case Settle => w.phase == Settling
    case Timer => w.phase == Waiting && w.failures > 0
    case Begin => w.phase == Due
    case End(_) => w.phase == Publishing
    case Cancel => w.phase == Waiting || w.phase == Settling
  }

  /** What an enabled event does; any other does nothing. */
  function Step(w: Loop, e: Event): Loop {
    if !Enabled(w, e) then w
    else
      match e
      case Enqueue => w.(full := true)
      case Receive => w.(full := false, phase := Settling)
      case Settle => w.(phase := Due)
      case Timer => w.(phase := Due)
      case Begin => w.(phase := Publishing)
      case End(ok) =>
        Loop(w.full, Waiting, if ok then 0 else w.failures + 1, w.reports + [Report(w.failures + 1, ok)])
      case Cancel => w.(phase := Stopped)
  }

  function Run(events: seq<Event>): Loop {
    if events == [] then IDLE else Step(Run(events[..|events| - 1]), events[|events| - 1])
  }

  class Worker {
    var full: bool

    constructor ()
      ensures !full
    { full := false; }

    /** Non-blocking: a request that finds the channel full coalesces with the one in it. */
    method Enqueue()
      modifies this
      ensures full
    {
      if !full { full := true; }
    }

    /** The channel and the loop's variables, when the first i events have happened. */
    ghost predicate At(events: seq<Event>, i: nat, phase: Phase, failures: nat, reports: seq<Report>)
      reads this
    {
      i <= |events| && Run(events[..i]) == Loop(full, phase, failures, reports)
    }

    /**
     * Lets events happen until one is for the loop to act on: until the first
     * that moves it out of phase, or the last. Requests arrive meanwhile.
     */
    method Block(
          events: seq<Event>, i: nat, phase: Phase, ghost failures: nat, ghost reports: seq<Report>, retrying: bool)
      returns (j: nat)
      requires At(events, i, phase, failures, reports) && retrying == (failures > 0)
      modifies this
      ensures i <= j && At(events, j, phase, failures, reports)
      ensures j < |events| ==> events[j] != Event.Enqueue && Enabled(Loop(full, phase, failures, reports), events[j])
    {
      j := i;
      while j < |events|
        invariant i <= j && At(events, j, phase, failures, reports)
      {
        var e := events[j];
        Happens(events, j);
        if e.Enqueue? {
          this.Enqueue();
        } else if Moves(full, phase, retrying, e) {
          return;
        }
        j := j + 1;
      }
    }

    /** Waits out the debounce, or stops if the context ends first. */
    method SleepOrDone(events: seq<Event>, i: nat, ghost failures: nat, ghost reports: seq<Report>, retrying: bool)
      returns (j: nat, phase: Phase)
      requires At(events, i, Settling, failures, reports) && retrying == (failures > 0)
      modifies this
      ensures i <= j && At(events, j, phase, failures, reports)
      ensures phase == Due || phase == Stopped || (phase == Settling && j == |events|)
    {
      j := Block(events, i, Settling, failures, reports, retrying);
      phase := Settling;
      if j < |events| {
        Happens(events, j);
        phase := if events[j] == Settle then Due else Stopped;
        j := j + 1;
      }
    }

    /** With no failure outstanding: waits for a request, then for the debounce. */
    method WaitForRequest(events: seq<Event>, i: nat, ghost reports: seq<Report>) returns (j: nat, phase: Phase)
      requires At(events, i, Waiting, 0, reports)
      modifies this
      ensures i <= j && At(events, j, phase, 0, reports)
      ensures phase == Due || phase == Stopped || ((phase == Waiting || phase == Settling) && j == |events|)
    {
      j := Block(events, i, Waiting, 0, reports, false);
      phase := Waiting;
      if j == |events| { return; }
      Happens(events, j);
      if events[j] == Receive {
        full := false;
        j, phase := SleepOrDone(events, j + 1, 0, reports, false);
      } else {
        j, phase := j + 1, Stopped;
      }
    }

    /** With one outstanding: waits for the backoff or a request, whichever lands first. */
    method WaitBeforeRetry(events: seq<Event>, i: nat, ghost failures: nat, ghost reports: seq<Report>)
      returns (j: nat, phase: Phase)
      requires At(events, i, Waiting, failures, reports) && failures > 0
      modifies this
      ensures i <= j && At(events, j, phase, failures, reports)
      ensures phase == Due || phase == Stopped || ((phase == Waiting || phase == Settling) && j == |events|)
    {
      j := Block(events, i, Waiting, failures, reports, true);
      phase := Waiting;
      if j == |events| { return; }
      Happens(events, j);
      if events[j] == Timer {
        j, phase := j + 1, Due;
      } else if events[j] == Receive {
        full := false;
        j, phase := SleepOrDone(events, j + 1, failures, reports, true);
      } else {
        j, phase := j + 1, Stopped;
      }
    }

    /** One publish, begun and ended; requests made meanwhile stay in the channel. */
    method PublishOnce(events: seq<Event>, i: nat, ghost failures: nat, ghost reports: seq<Report>, retrying: bool)
      returns (j: nat, phase: Phase, ok: bool)
      requires At(events, i, Due, failures, reports) && retrying == (failures > 0)
      modifies this
      ensures i <= j <= |events|
      ensures phase == Waiting ==>
        At(events, j, Waiting, if ok then 0 else failures + 1, reports + [Report(failures + 1, ok)])
      ensures phase != Waiting ==> j == |events| && At(events, j, phase, failures, reports)
      ensures phase == Waiting ==> i < j
    {
      phase, ok := Due, false;
      j := Block(events, i, Due, failures, reports, retrying);
      if j == |events| { return; }
      Happens(events, j);
      phase := Publishing;
      j := Block(events, j + 1, Publishing, failures, reports, retrying);
      if j == |events| { return; }
      Happens(events, j);
      phase, ok := Waiting, events[j].ok;
      j := j + 1;
    }

    /** The loop: one of its two waits, then a publish, until the context ends. */
    method Start(events: seq<Event>) returns (phase: Phase, failures: nat, reports: seq<Report>)
      requires !full
      modifies this
      ensures Loop(full, phase, failures, reports) == Run(events)
    {
      phase, failures, reports := Waiting, 0, [];
      var i := 0;
      while i < |events| && phase == Waiting
        invariant At(events, i, phase, failures, reports)
        invariant phase == Waiting || phase == Stopped || i == |events|
        decreases |events| - i, phase == Waiting
      {
        if failures == 0 {
          i, phase := WaitForRequest(events, i, reports);
        } else {
          i, phase := WaitBeforeRetry(events, i, failures, reports);
        }
        if phase == Due {
          var attempt, ok := failures + 1, false;
          i, phase, ok := PublishOnce(events, i, failures, reports, failures > 0);
          if phase == Waiting {
            if ok {
              failures := 0;
            } else {
              failures := failures + 1;
            }
            reports := reports + [Report(attempt, ok)];
          }
        }
      }
      // Once the loop has returned, requests still reach the channel and nothing takes them out.
      while i < |events|
        invariant At(events, i, phase, failures, reports) && (phase == Stopped || i == |events|)
      {
        Happens(events, i);
        if events[i].Enqueue? { this.Enqueue(); }
        i := i + 1;
      }
      assert events[..|events|] == events;
    }
  }

  /** Whether the event is one the loop acts on where it stands. */
  predicate Moves(full: bool, phase: Phase, retrying: bool, e: Event) {
    match e
    case Enqueue => false
    case Receive => phase == Waiting && full
    case Timer => phase == Waiting && retrying
    case Settle => phase == Settling
    case Begin => phase == Due
    case End(_) => phase == Publishing
    case Cancel => phase == Waiting || phase == Settling
  }

  lemma {:induction false} Happens(events: seq<Event>, i: nat)
    requires i < |events|
    ensures Run(events[..i + 1]) == Step(Run(events[..i]), events[i])
  {
    assert events[..i + 1][..i] == events[..i];
  }

  // ---- What each run keeps ------------------------------------------------

  /**
   * Requests made and received so far; how many had been made when the last
   * publish began, and when the last successful one did; and how many publishes
   * began with no failure outstanding.
   */
  datatype History = History(requests: nat, received: nat, begun: nat, published: nat, firsts: nat)

  function Record(h: History, w: Loop, e: Event): History {
    if !Enabled(w, e) then h
    else
      match e
      case Enqueue => h.(requests := h.requests + 1)
      case Receive => h.(received := h.received + 1)
      case Begin => h.(begun := h.requests, firsts := h.firsts + if w.failures == 0 then 1 else 0)
      case End(ok) => if ok then h.(published := h.begun) else h
      case _ => h
  }

  function HistoryOf(events: seq<Event>): History {
    if events == [] then History(0, 0, 0, 0, 0)
    else Record(HistoryOf(events[..|events| - 1]), Run(events[..|events| - 1]), events[|events| - 1])
  }

  /** How many reports at the end are failures. */
  function Streak(reports: seq<Report>): nat {
    if reports == [] || reports[|reports| - 1].ok then 0 else 1 + Streak(reports[..|reports| - 1])
  }

  predicate OnItsWay(w: Loop) { w.full || w.phase == Settling || w.phase == Due }

  /** A request made since the last publish began is in the channel or already on its way to a publish. */
  predicate NothingLost(w: Loop, h: History) {
    && h.published <= h.begun <= h.requests
    && (w.phase != Stopped && h.begun < h.requests ==> OnItsWay(w))
    && (w.phase != Publishing && w.phase != Stopped && w.failures == 0 ==> h.published == h.begun)
  }

  /** Every report's attempt is one more than the failures just before it. */
  ghost predicate AllCounted(reports: seq<Report>) {
    forall k :: 0 <= k < |reports| ==> reports[k].attempt == 1 + Streak(reports[..k])
  }

  ghost predicate AttemptsCounted(w: Loop) { w.failures == Streak(w.reports) && AllCounted(w.reports) }

  /** A first attempt spends a request received for it. */
  predicate FirstsPaidFor(w: Loop, h: History) {
    && h.received + (if w.full then 1 else 0) <= h.requests
    && h.firsts + (if (w.phase == Settling || w.phase == Due) && w.failures == 0 then 1 else 0) <= h.received
  }

  lemma {:induction false} StepLosesNothing(w: Loop, h: History, e: Event)
    requires NothingLost(w, h) && FirstsPaidFor(w, h)
    ensures NothingLost(Step(w, e), Record(h, w, e)) && FirstsPaidFor(Step(w, e), Record(h, w, e))
  {}

  /** A report given the attempt after the streak counts its attempt, and the streak goes on or ends. */
  lemma {:induction false} ReportCounts(reports: seq<Report>, ok: bool)
    requires AllCounted(reports)
    ensures var next := reports + [Report(1 + Streak(reports), ok)];
      AllCounted(next) && Streak(next) == if ok then 0 else 1 + Streak(reports)
  {
    var next := reports + [Report(1 + Streak(reports), ok)];
    assert next[..|reports|] == reports;
    assert forall k :: 0 <= k < |reports| ==> next[..k] == reports[..k];
  }

  lemma {:induction false} StepCountsAttempts(w: Loop, e: Event)
    requires AttemptsCounted(w)
    ensures AttemptsCounted(Step(w, e))
  {
    hide AllCounted, Streak;
    if e.End? { ReportCounts(w.reports, e.ok); }
  }

  lemma {:induction false} RunKeepsPromises(events: seq<Event>)
    ensures NothingLost(Run(events), HistoryOf(events))
    ensures FirstsPaidFor(Run(events), HistoryOf(events))
    ensures AttemptsCounted(Run(events))
  {
    if events != [] {
      var front, e := events[..|events| - 1], events[|events| - 1];
      RunKeepsPromises(front);
      StepLosesNothing(Run(front), HistoryOf(front), e);
      StepCountsAttempts(Run(front), e);
    }
  }

  /**
   * An idle worker has published: with no failure outstanding and an empty
   * channel, the last successful publish began after the last request.
   */
  lemma {:induction false} IdleHasPublishedAll(events: seq<Event>)
    requires var w := Run(events); w.phase == Waiting && w.failures == 0 && !w.full
    ensures HistoryOf(events).published == HistoryOf(events).requests
  {
    RunKeepsPromises(events);
  }

  /** Only a publish that succeeds counts as one. */
  lemma {:induction false} OnlySuccessPublishes(events: seq<Event>)
    ensures HistoryOf(events).published > 0 ==> exists r <- Run(events).reports :: r.ok
  {
    if events != [] {
      var front, e := events[..|events| - 1], events[|events| - 1];
      OnlySuccessPublishes(front);
      var w, w' := Run(front), Step(Run(front), e);
      assert forall r <- w.reports :: r in w'.reports;
      if e.End? && w.phase == Publishing { assert w'.reports[|w.reports|] in w'.reports; }
    }
  }

  /** The loop's own moves to its next publish. */
  function Onward(w: Loop): seq<Event> {
    match w.phase
    case Waiting => if w.full then [Receive, Settle, Begin] else [Timer, Begin]
    case Settling => [Settle, Begin]
    case Due => [Begin]
    case _ => []
  }

  /** The loop and its history after more events. */
  function Later(w: Loop, h: History, more: seq<Event>): (Loop, History)
    decreases |more|
  {
    if more == [] then (w, h) else Later(Step(w, more[0]), Record(h, w, more[0]), more[1..])
  }

  lemma {:induction false} RunsOn(events: seq<Event>, more: seq<Event>)
    ensures (Run(events + more), HistoryOf(events + more)) == Later(Run(events), HistoryOf(events), more)
    decreases |more|
  {
    if more == [] {
      assert events + more == events;
    } else {
      assert (events + [more[0]])[..|events|] == events;
      assert events + more == events + [more[0]] + more[1..];
      RunsOn(events + [more[0]], more[1..]);
    }
  }

  lemma {:induction false} ThreeMoves(w: Loop, h: History, a: Event, b: Event, c: Event)
    ensures Later(w, h, [a, b, c]) == Later(Step(w, a), Record(h, w, a), [b, c])
    ensures Later(w, h, [b, c]) == Later(Step(w, b), Record(h, w, b), [c])
    ensures Later(w, h, [c]) == (Step(w, c), Record(h, w, c))
  {
    assert [a, b, c][1..] == [b, c] && [b, c][1..] == [c];
  }

  lemma {:induction false} OnwardPublishes(w: Loop, h: History)
    requires NothingLost(w, h) && w.phase != Stopped && w.phase != Publishing
    requires (h.begun < h.requests || w.failures > 0)
    ensures var (w', h') := Later(w, h, Onward(w)); w'.phase == Publishing && h'.begun == h.requests
  {
    ThreeMoves(w, h, Receive, Settle, Begin);
    var (s, g) := (Step(w, Receive), Record(h, w, Receive));
    ThreeMoves(s, g, Receive, Settle, Begin);
    ThreeMoves(Step(s, Settle), Record(g, s, Settle), Receive, Settle, Begin);
    ThreeMoves(w, h, Receive, Timer, Begin);
    ThreeMoves(Step(w, Timer), Record(h, w, Timer), Receive, Settle, Begin);
    ThreeMoves(Step(w, Settle), Record(h, w, Settle), Receive, Settle, Begin);
  }

  /**
   * The loop is never stuck with work: while a request waits or a failure is
   * outstanding, its own moves alone, with no further request, reach a publish
   * that begins after every request made so far.
   */
  lemma {:induction false} PublishIsAtHand(events: seq<Event>)
    requires var w := Run(events);
      && w.phase != Stopped && w.phase != Publishing
      && (HistoryOf(events).begun < HistoryOf(events).requests || w.failures > 0)
    ensures var more := Onward(Run(events));
      Run(events + more).phase == Publishing && HistoryOf(events + more).begun == HistoryOf(events).requests
  {
    RunKeepsPromises(events);
    OnwardPublishes(Run(events), HistoryOf(events));
    RunsOn(events, Onward(Run(events)));
  }

  /** Once the loop has returned, nothing starts it again: no publish begins and nothing is reported. */
  lemma {:induction false} StoppedIsFinal(w: Loop, h: History, more: seq<Event>)
    requires w.phase == Stopped
    ensures var (w', h') := Later(w, h, more);
      w'.phase == Stopped && w'.reports == w.reports && h'.begun == h.begun && h'.published == h.published
    decreases |more|
  {
    if more != [] { StoppedIsFinal(Step(w, more[0]), Record(h, w, more[0]), more[1..]); }
  }

  /**
   * A context that ends while the loop waits, for a request, a retry or the
   * debounce, ends the loop, and no continuation publishes or reports anything;
   * while a publish is due or under way it is not looked at.
   */
  lemma {:induction false} CancelStops(events: seq<Event>, more: seq<Event>)
    ensures var w, w' := Run(events), Run(events + [Cancel] + more);
      if w.phase == Due || w.phase == Publishing then Run(events + [Cancel]) == w
      else w'.phase == Stopped && w'.reports == w.reports &&
           HistoryOf(events + [Cancel] + more).begun == HistoryOf(events).begun
  {
    RunsOn(events, [Cancel]);
    ThreeMoves(Run(events), HistoryOf(events), Cancel, Cancel, Cancel);
    hide Run, HistoryOf;
    RunsOn(events + [Cancel], more);
    if Run(events).phase != Due && Run(events).phase != Publishing {
      StoppedIsFinal(Run(events + [Cancel]), HistoryOf(events + [Cancel]), more);
    }
  }
}
