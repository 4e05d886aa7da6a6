/**
 * The concurrency cap as a value, against the plain count of outstanding
 * acquires it stands for, over any interleaving of acquires, releases (repeated
 * ones included) and sweeps. Every acquire returns a handle; a refused one's
 * handle releases nothing.
 */
module ConcurrencyModel {
  import opened Options
  import opened LogSampler

  datatype Slot = Slot(n: int, idleSince: real, lastLogged: Option<real>)

  /** taken is false for a refused acquire; spent once released. */
  datatype Handle = Handle(key: string, taken: bool, spent: bool)

  datatype Caps = Caps(max: int, ttl: real)

  datatype State = State(slots: map<string, Slot>, handles: seq<Handle>)

  datatype Event =
    | Acquire(key: string, at: real, sample: bool)
    | ReleaseHandle(h: nat, at: real)
    | Sweep(at: real)

  // ---- One step -----------------------------------------------------------

  function SlotOf(s: map<string, Slot>, key: string): Slot {
    if key in s then s[key] else Slot(0, 0.0, None)
  }

  function AcquireSlot(
        c: Caps, s: map<string, Slot>, key: string, now: real, sample: bool): (map<string, Slot>, bool, bool) {
    if c.max <= 0 then (s, true, false)
    else
      var slot := SlotOf(s, key);
      if slot.n >= c.max then
        (s[key := if sample then slot.(lastLogged := Stamp(slot.lastLogged, now)) else slot], false,
         sample && SampleLog(slot.lastLogged, now))
      else (s[key := slot.(n := slot.n + 1)], true, false)
  }

  function ReleaseSlot(s: map<string, Slot>, key: string, now: real): map<string, Slot> {
    if key !in s || s[key].n == 0 then s
    else
      var n := s[key].n - 1;
      s[key := s[key].(n := n, idleSince := if n == 0 then now else s[key].idleSince)]
  }

  function SweepIdle(c: Caps, s: map<string, Slot>, now: real): map<string, Slot> {
    map k | k in s && (s[k].n > 0 || now - s[k].idleSince < c.ttl) :: s[k]
  }

  function Step(c: Caps, st: State, e: Event): State {
    match e
    case Acquire(key, at, sample) =>
      var (slots, ok, _) := AcquireSlot(c, st.slots, key, at, sample);
      State(slots, st.handles + [Handle(key, ok && c.max > 0, false)])
    case ReleaseHandle(h, at) =>
      if h >= |st.handles| || !st.handles[h].taken || st.handles[h].spent then st
      else State(ReleaseSlot(st.slots, st.handles[h].key, at), st.handles[h := st.handles[h].(spent := true)])
    case Sweep(at) => st.(slots := SweepIdle(c, st.slots, at))
  }

  function Run(c: Caps, st: State, es: seq<Event>): State
    decreases |es|
  {
    if es == [] then st else Run(c, Step(c, st, es[0]), es[1..])
  }

  // ---- The plain count ----------------------------------------------------

  function Outstanding(hs: seq<Handle>, key: string): nat {
    if hs == [] then 0
    else Outstanding(hs[..|hs| - 1], key) +
         (var h := hs[|hs| - 1]; if h.key == key && h.taken && !h.spent then 1 else 0)
  }

  lemma {:induction false} SpendOne(hs: seq<Handle>, i: nat, key: string)
    requires i < |hs| && hs[i].taken && !hs[i].spent
    ensures var left := Outstanding(hs[i := hs[i].(spent := true)], key);
      left == Outstanding(hs, key) - (if hs[i].key == key then 1 else 0)
    ensures hs[i].key == key ==> Outstanding(hs, key) > 0
    decreases |hs|
  {
    var last := |hs| - 1;
    var hs' := hs[i := hs[i].(spent := true)];
    if i < last {
      SpendOne(hs[..last], i, key);
      assert hs'[..last] == hs[..last][i := hs[i].(spent := true)];
    } else {
      assert hs'[..last] == hs[..last];
    }
  }

  /** Slots hold exactly the outstanding acquires, and never more than the cap. */
  ghost predicate Counts(c: Caps, st: State) {
    c.max > 0 && forall k :: SlotOf(st.slots, k).n == Outstanding(st.handles, k) <= c.max
  }

  lemma {:induction false} StepCounts(c: Caps, st: State, e: Event)
    requires Counts(c, st)
    ensures Counts(c, Step(c, st, e))
  {
    var st' := Step(c, st, e);
    match e
    case Acquire(key, at, sample) =>
      assert st'.handles[..|st.handles|] == st.handles;
    case ReleaseHandle(h, at) =>
      if st' != st {
        forall k ensures SlotOf(st'.slots, k).n == Outstanding(st'.handles, k) <= c.max {
          SpendOne(st.handles, h, k);
          SpendOne(st.handles, h, st.handles[h].key);
          assert SlotOf(st.slots, k).n == Outstanding(st.handles, k);
        }
      }
    case Sweep(at) =>
      forall k ensures SlotOf(st'.slots, k).n == Outstanding(st'.handles, k) <= c.max {
        assert SlotOf(st.slots, k).n == Outstanding(st.handles, k);
      }
  }

  const START := State(map[], [])

  lemma {:induction false} RunCounts(c: Caps, st: State, es: seq<Event>)
    requires Counts(c, st)
    ensures Counts(c, Run(c, st, es))
    decreases |es|
  {
    if es != [] {
      StepCounts(c, st, es[0]);
      RunCounts(c, Step(c, st, es[0]), es[1..]);
    }
  }

  // ---- Refinement ---------------------------------------------------------

  /** The specification: nothing but the handles, a call being admitted while fewer than max are outstanding. */
  function PlainStep(c: Caps, hs: seq<Handle>, e: Event): seq<Handle> {
    match e
    case Acquire(key, _, _) => hs + [Handle(key, Outstanding(hs, key) < c.max, false)]
    case ReleaseHandle(h, _) => if h < |hs| && hs[h].taken then hs[h := hs[h].(spent := true)] else hs
    case Sweep(_) => hs
  }

  function PlainRun(c: Caps, hs: seq<Handle>, es: seq<Event>): seq<Handle>
    decreases |es|
  {
    if es == [] then hs else PlainRun(c, PlainStep(c, hs, es[0]), es[1..])
  }

  /**
   * Under every interleaving the limiter admits exactly the calls the plain
   * count admits: sweeps, repeated releases and releases of refused handles
   * change no decision.
   */
  lemma {:induction false} RefinesPlainCount(c: Caps, st: State, es: seq<Event>)
    requires Counts(c, st)
    ensures Run(c, st, es).handles == PlainRun(c, st.handles, es)
    decreases |es|
  {
    if es != [] {
      var e := es[0];
      if e.Acquire? { assert SlotOf(st.slots, e.key).n == Outstanding(st.handles, e.key); }
      if e.ReleaseHandle? && e.h < |st.handles| && st.handles[e.h].spent {
        assert st.handles[e.h := st.handles[e.h].(spent := true)] == st.handles;
      }
      StepCounts(c, st, e);
      RefinesPlainCount(c, Step(c, st, e), es[1..]);
    }
  }

  /**
   * In every reachable state a key's slot counts its outstanding acquires, at
   * most max; an acquire succeeds exactly when fewer than max are outstanding;
   * a first release always finds a live count to decrement; and no sweep drops
   * a live count.
   */
  lemma {:induction false} CapHolds(c: Caps, es: seq<Event>, key: string, now: real, sample: bool, h: nat)
    requires c.max > 0
    ensures var st := Run(c, START, es);
      && SlotOf(st.slots, key).n == Outstanding(st.handles, key) <= c.max
      && (AcquireSlot(c, st.slots, key, now, sample).1 <==> Outstanding(st.handles, key) < c.max)
      && (h < |st.handles| && st.handles[h].taken && !st.handles[h].spent ==>
            st.handles[h].key in st.slots && st.slots[st.handles[h].key].n > 0)
      && (forall k <- st.slots :: Outstanding(st.handles, k) > 0 ==> k in SweepIdle(c, st.slots, now))
  {
    assert Counts(c, START);
    RunCounts(c, START, es);
    var st := Run(c, START, es);
    assert SlotOf(st.slots, key).n == Outstanding(st.handles, key) <= c.max;
    if h < |st.handles| && st.handles[h].taken && !st.handles[h].spent {
      SpendOne(st.handles, h, st.handles[h].key);
      assert SlotOf(st.slots, st.handles[h].key).n == Outstanding(st.handles, st.handles[h].key);
    }
    forall k <- st.slots | Outstanding(st.handles, k) > 0 ensures k in SweepIdle(c, st.slots, now) {
      assert SlotOf(st.slots, k).n == Outstanding(st.handles, k);
    }
  }

  /**
   * A key is forgotten by a sweep exactly from ttl after its last release on;
   * until then its slot is kept as it was. Other keys with calls outstanding
   * are kept whenever the sweep comes.
   */
  lemma {:induction false} SweptAfterLastRelease(c: Caps, es: seq<Event>, h: nat, at: real, now: real, other: string)
    requires c.max > 0
    requires var hs := Run(c, START, es).handles;
      h < |hs| && hs[h].taken && !hs[h].spent && Outstanding(hs, hs[h].key) == 1 && Outstanding(hs, other) > 0
    ensures var st := Run(c, START, es);
      var key, slots := st.handles[h].key, Step(c, Step(c, st, ReleaseHandle(h, at)), Sweep(now)).slots;
      && (key in slots <==> now - at < c.ttl)
      && (key in slots ==> slots[key] == st.slots[key].(n := 0, idleSince := at))
      && (other != key ==> other in slots && slots[other] == st.slots[other])
  {
    assert Counts(c, START);
    RunCounts(c, START, es);
    var st := Run(c, START, es);
    assert SlotOf(st.slots, st.handles[h].key).n == Outstanding(st.handles, st.handles[h].key);
    assert SlotOf(st.slots, other).n == Outstanding(st.handles, other);
  }

  /** With no cap set, every acquire of every run is admitted, and none is counted. */
  lemma {:induction false} DisabledAdmitsAll(c: Caps, st: State, es: seq<Event>, key: string, now: real, sample: bool)
    requires c.max <= 0 && st.slots == map[] && forall h <- st.handles :: !h.taken
    ensures var st' := Run(c, st, es);
      && st'.slots == map[] && (forall h <- st'.handles :: !h.taken)
      && AcquireSlot(c, st'.slots, key, now, sample) == (map[], true, false)
    decreases |es|
  {
    if es != [] { DisabledAdmitsAll(c, Step(c, st, es[0]), es[1..], key, now, sample); }
  }

  // ---- The log ------------------------------------------------------------

  /** When the key's reported refusals happen, or only those that are logged. */
  function Refusals(c: Caps, st: State, es: seq<Event>, key: string, onlyLogged: bool): seq<real>
    decreases |es|
  {
    if es == [] then []
    else
      var rest := Refusals(c, Step(c, st, es[0]), es[1..], key, onlyLogged);
      if !es[0].Acquire? || es[0].key != key || !es[0].sample then rest
      else
        var (_, ok, logged) := AcquireSlot(c, st.slots, key, es[0].at, true);
        if !ok && (onlyLogged ==> logged) then [es[0].at] + rest else rest
  }

  lemma {:induction false} RefusalCounts(c: Caps, st: State, e: Event, es: seq<Event>)
    requires c.max > 0 && e.Acquire? && e.sample
    ensures var rest := Refusals(c, Step(c, st, e), es, e.key, false);
      Refusals(c, st, [e] + es, e.key, false) == if SlotOf(st.slots, e.key).n < c.max then rest else [e.at] + rest
  {
    assert ([e] + es)[1..] == es;
    hide Step;
  }

  ghost predicate Survives(c: Caps, st: State, es: seq<Event>, key: string)
    decreases |es|
  {
    key in st.slots && (es != [] ==> Survives(c, Step(c, st, es[0]), es[1..], key))
  }

  /** While a key's slot survives, its logged lines are exactly those the sampler writes for its reported refusals. */
  lemma {:induction false} LogIsSampled(c: Caps, st: State, es: seq<Event>, key: string)
    requires c.max > 0 && Survives(c, st, es, key)
    ensures Refusals(c, st, es, key, true) == Lines(st.slots[key].lastLogged, Refusals(c, st, es, key, false))
    ensures Spaced(Refusals(c, st, es, key, true))
    decreases |es|
  {
    if es != [] { LogIsSampled(c, Step(c, st, es[0]), es[1..], key); }
    LinesAreSpaced(st.slots[key].lastLogged, Refusals(c, st, es, key, false));
  }

  /** A surviving slot remembers the latest line written for its key. */
  lemma {:induction false} SlotKeepsLatest(c: Caps, st: State, es: seq<Event>, key: string)
    requires c.max > 0 && Survives(c, st, es, key)
    ensures var st' := Run(c, st, es);
      key in st'.slots && st'.slots[key].lastLogged == Latest(st.slots[key].lastLogged, Refusals(c, st, es, key, true))
    decreases |es|
  {
    if es != [] { SlotKeepsLatest(c, Step(c, st, es[0]), es[1..], key); }
  }

  /**
   * After any run through which the key's slot survives, a reported refusal is
   * logged exactly when no line was written for the key, or the latest is at
   * least an interval old.
   */
  lemma {:induction false} RefusalIsLoggedIff(c: Caps, st: State, es: seq<Event>, key: string, at: real)
    requires c.max > 0 && Survives(c, st, es, key)
    ensures var (_, ok, logged) := AcquireSlot(c, Run(c, st, es).slots, key, at, true);
      var latest := Latest(st.slots[key].lastLogged, Refusals(c, st, es, key, true));
      !ok ==> (logged <==> latest == None || at - latest.value >= 60.0)
  {
    SlotKeepsLatest(c, st, es, key);
  }
}
