/**
 * Main results about whole runs of the rate limiter: when the idle sweep cannot
 * be observed, how much a window admits, how large the map grows, which entry
 * the ceiling drops, and how often a key's rejections are logged.
 */
module LimiterTheorems {
  import opened Options
  import opened CallerKey
  import opened LogSampler
  import opened TokenBucket
  import opened LimiterModel

  // ---- Sweeping -----------------------------------------------------------

  ghost predicate Monotone(es: seq<Event>) {
    forall i, j :: 0 <= i < j < |es| ==> es[i].at <= es[j].at
  }

  /** On every run that never finds the map full, sweeping changes no answer. */
  ghost predicate SweepIsInvisible(l: Limits)
    requires l.rate.burst >= 1
  {
    forall es: seq<Event> | Monotone(es) && EvictionFree(l, map[], es) ::
      Answers(l, map[], es) == Answers(Unbounded(l), map[], CallsOnly(es))
  }

  /** The sweep is invisible exactly when an idle key has refilled by the time it may be dropped. */
  lemma {:induction false} SweepIsInvisibleIff(l: Limits)
    requires l.rate.Ok() && l.ttl > 0.0
    ensures SweepIsInvisible(l) <==> l.rate.rps * l.ttl >= l.rate.burst as real
  {
    assert Gain(l.rate, 0.0, l.ttl) == l.rate.rps * l.ttl;
    if l.rate.rps * l.ttl >= l.rate.burst as real {
      forall es: seq<Event> | Monotone(es) && EvictionFree(l, map[], es)
        ensures Answers(l, map[], es) == Answers(Unbounded(l), map[], CallsOnly(es))
      {
        if es != [] { SweptAnswersAlike(l, map[], map[], es, es[0].at); }
      }
    } else {
      SweepShows(l);
    }
  }

  function Burst(key: string, at: real, n: nat): seq<Event> {
    if n == 0 then [] else [Call(key, at, false, [])] + Burst(key, at, n - 1)
  }

  ghost predicate AllAllowed(answers: seq<Answer>) { forall i :: 0 <= i < |answers| ==> answers[i].allowed }

  ghost predicate OneKey(m: Buckets, at: real) {
    m.Keys <= {"k"} && ("k" in m ==> m["k"].b.last <= at)
  }

  lemma {:induction false} BurstIsOrderly(l: Limits, m: Buckets, at: real, n: nat)
    requires l.rate.Ok() && OneKey(m, at)
    ensures |Burst("k", at, n)| == n && (forall i :: 0 <= i < n ==> Burst("k", at, n)[i] == Call("k", at, false, []))
    ensures EvictionFree(l, m, Burst("k", at, n)) && CallsOnly(Burst("k", at, n)) == Burst("k", at, n)
    decreases n
  {
    if n > 0 {
      assert Burst("k", at, n)[1..] == Burst("k", at, n - 1);
      if "k" !in m { assert m == map[]; }
      CallShape(l, m, Burst("k", at, n)[0]);
      BurstIsOrderly(l, Step(l, m, Burst("k", at, n)[0]), at, n - 1);
    }
  }

  /** A burst at one instant is admitted whole exactly when the key holds that many tokens. */
  lemma {:induction false} BurstDrains(l: Limits, m: Buckets, at: real, n: nat)
    requires l.rate.Ok() && OneKey(m, at)
    ensures var x := TokensAt(l.rate, BucketOf(l, m, "k"), at);
      && (AllAllowed(Answers(l, m, Burst("k", at, n))) <==> x >= n as real || n == 0)
      && (n > 0 && x >= n as real ==>
            var m' := After(l, m, Burst("k", at, n));
            m'.Keys == {"k"} && m'["k"].b == Bucket(x - n as real, at) && m'["k"].lastUsed == at)
    decreases n
  {
    if n > 0 {
      var e, rest := Burst("k", at, n)[0], Burst("k", at, n)[1..];
      assert rest == Burst("k", at, n - 1);
      if "k" !in m { assert m == map[]; }
      CallShape(l, m, e);
      var m', x := Step(l, m, e), TokensAt(l.rate, BucketOf(l, m, "k"), at);
      ChargedAt(l.rate, BucketOf(l, m, "k"), at);
      BurstDrains(l, m', at, n - 1);
      var answers := Answers(l, m, Burst("k", at, n));
      assert answers == [Decide(l, m, "k", at, false, []).1] + Answers(l, m', rest);
      assert answers[0].allowed <==> x >= 1.0;
      assert answers[1..] == Answers(l, m', rest);
      assert AllAllowed(answers) <==> answers[0].allowed && AllAllowed(answers[1..]);
    }
  }

  /** In a burst at one instant the first calls, as many as the key holds whole tokens, are admitted and no other. */
  lemma {:induction false} BurstAnswers(l: Limits, m: Buckets, key: string, at: real, n: nat, i: nat)
    requires l.rate.Ok() && key in m && i < n
    ensures var answers := Answers(l, m, Burst(key, at, n));
      |answers| == n && (answers[i].allowed <==> TokensAt(l.rate, m[key].b, at) >= i as real + 1.0)
    decreases n
  {
    var e, rest := Burst(key, at, n)[0], Burst(key, at, n)[1..];
    assert rest == Burst(key, at, n - 1);
    CallShape(l, m, e);
    ChargedAt(l.rate, m[key].b, at);
    assert Answers(l, m, Burst(key, at, n)) == [Decide(l, m, key, at, false, []).1] + Answers(l, Step(l, m, e), rest);
    if i > 0 {
      BurstAnswers(l, Step(l, m, e), key, at, n - 1, i - 1);
    } else if n > 1 {
      BurstAnswers(l, Step(l, m, e), key, at, n - 1, 0);
    } else {
      assert rest == [] && Answers(l, Step(l, m, e), rest) == [];
    }
  }

  /** With no rate set, every call of every run is admitted, at once, and no call touches the map. */
  lemma {:induction false} DisabledAdmitsAll(l: Limits, m: Buckets, es: seq<Event>)
    requires l.rate.burst >= 1 && l.rate.rps <= 0.0
    ensures forall a <- Answers(l, m, es) :: a == Answer(true, 0.0)
    ensures |Answers(l, m, es)| == |CallsOnly(es)|
    ensures (forall e <- es :: e.Call?) ==> After(l, m, es) == m
    decreases |es|
  {
    if es != [] {
      var rest := Answers(l, Step(l, m, es[0]), es[1..]);
      DisabledAdmitsAll(l, Step(l, m, es[0]), es[1..]);
      assert Answers(l, m, es) == if es[0].Call? then [Answer(true, 0.0)] + rest else rest;
      assert es[0] in es && forall e <- es[1..] :: e in es;
    }
  }

  /**
   * In the terms the caller set: of any number of calls at one instant by a key
   * the map does not hold, exactly the first max(burst, 1) are admitted,
   * whatever else the map holds; or all of them when no rate is set.
   */
  lemma {:induction false} NewKeyGetsItsBurst(
        rps: real, burst: int, ttl: real, maxEntries: int, m: Buckets, key: string, at: real, n: nat, i: nat)
    requires key !in m && i < n
    ensures var l := Limits(Rate(rps, ClampBurst(burst)), ttl, maxEntries);
      var answers := Answers(l, m, Burst(key, at, n));
      |answers| == n && (answers[i].allowed <==> rps <= 0.0 || i < if burst < 1 then 1 else burst)
  {
    var l := Limits(Rate(rps, ClampBurst(burst)), ttl, maxEntries);
    BurstCalls(key, at, n);
    if rps <= 0.0 {
      DisabledAdmitsAll(l, m, Burst(key, at, n));
      assert Answers(l, m, Burst(key, at, n))[i] in Answers(l, m, Burst(key, at, n));
    } else {
      var m0 := EvictIfFull(l, m, [])[key := Entry(Fresh(l.rate), at, None)];
      FreshIsFull(l.rate, at);
      FirstCallAlike(l, m, m0, Burst(key, at, n)[0]);
      assert Burst(key, at, n)[1..] == Burst(key, at, n - 1);
      hide Decide, Step;
      assert Answers(l, m, Burst(key, at, n)) == Answers(l, m0, Burst(key, at, n));
      BurstAnswers(l, m0, key, at, n, i);
    }
  }

  /** A new key's first call is answered as if its bucket had been there, full. */
  lemma {:induction false} FirstCallAlike(l: Limits, m: Buckets, m0: Buckets, e: Event)
    requires l.rate.Ok() && e.Call? && e.key !in m
    requires m0 == EvictIfFull(l, m, e.order)[e.key := Entry(Fresh(l.rate), e.at, None)]
    ensures Decide(l, m, e.key, e.at, e.sample, e.order) == Decide(l, m0, e.key, e.at, e.sample, e.order)
    ensures Step(l, m, e) == Step(l, m0, e)
  {}

  lemma {:induction false} BurstCalls(key: string, at: real, n: nat)
    ensures |Burst(key, at, n)| == n && CallsOnly(Burst(key, at, n)) == Burst(key, at, n)
    decreases n
  {
    if n > 0 {
      assert Burst(key, at, n)[1..] == Burst(key, at, n - 1);
      BurstCalls(key, at, n - 1);
    }
  }

  lemma {:induction false} AfterComposes(l: Limits, m: Buckets, a: seq<Event>, b: seq<Event>)
    requires l.rate.burst >= 1
    ensures After(l, m, a + b) == After(l, After(l, m, a), b)
    decreases |a|
  {
    if a == [] {
      assert a + b == b;
    } else {
      hide Step;
      assert (a + b)[1..] == a[1..] + b;
      AfterComposes(l, Step(l, m, a[0]), a[1..], b);
    }
  }

  lemma {:induction false} AnswersCompose(l: Limits, m: Buckets, a: seq<Event>, b: seq<Event>)
    requires l.rate.burst >= 1
    ensures Answers(l, m, a + b) == Answers(l, m, a) + Answers(l, After(l, m, a), b)
    decreases |a|
  {
    if a == [] {
      assert a + b == b;
    } else {
      hide Step, Decide;
      assert (a + b)[1..] == a[1..] + b;
      AnswersCompose(l, Step(l, m, a[0]), a[1..], b);
    }
  }

  lemma {:induction false} EvictionsCompose(l: Limits, m: Buckets, a: seq<Event>, b: seq<Event>)
    requires l.rate.burst >= 1
    ensures EvictionFree(l, m, a + b) <==> EvictionFree(l, m, a) && EvictionFree(l, After(l, m, a), b)
    decreases |a|
  {
    if a == [] {
      assert a + b == b;
    } else {
      hide Step;
      assert (a + b)[1..] == a[1..] + b;
      EvictionsCompose(l, Step(l, m, a[0]), a[1..], b);
    }
  }

  lemma {:induction false} CallsCompose(a: seq<Event>, b: seq<Event>)
    ensures CallsOnly(a + b) == CallsOnly(a) + CallsOnly(b)
    decreases |a|
  {
    if a == [] {
      assert a + b == b;
    } else {
      assert (a + b)[1..] == a[1..] + b && (a + b)[0] == a[0];
      CallsCompose(a[1..], b);
      var first := if a[0].Call? then [a[0]] else [];
      assert CallsOnly(a + b) == first + (CallsOnly(a[1..]) + CallsOnly(b));
      assert CallsOnly(a) == first + CallsOnly(a[1..]);
    }
  }

  lemma {:induction false} RunsCompose(l: Limits, m: Buckets, a: seq<Event>, b: seq<Event>)
    requires l.rate.burst >= 1
    ensures After(l, m, a + b) == After(l, After(l, m, a), b)
    ensures Answers(l, m, a + b) == Answers(l, m, a) + Answers(l, After(l, m, a), b)
    ensures EvictionFree(l, m, a + b) <==> EvictionFree(l, m, a) && EvictionFree(l, After(l, m, a), b)
    ensures CallsOnly(a + b) == CallsOnly(a) + CallsOnly(b)
  {
    AfterComposes(l, m, a, b);
    AnswersCompose(l, m, a, b);
    EvictionsCompose(l, m, a, b);
    CallsCompose(a, b);
  }

  /** A moment after the key may be swept but before it has refilled. */
  ghost function TooEarly(l: Limits): real
    requires l.rate.Ok()
  {
    (l.ttl + l.rate.burst as real / l.rate.rps) / 2.0
  }

  lemma {:induction false} TooEarlyIsBetween(l: Limits)
    requires l.rate.Ok() && l.ttl > 0.0 && l.rate.rps * l.ttl < l.rate.burst as real
    ensures l.ttl < TooEarly(l) && Gain(l.rate, 0.0, TooEarly(l)) < l.rate.burst as real
  {
    var full := l.rate.burst as real / l.rate.rps;
    assert l.rate.rps * full == l.rate.burst as real;
    assert l.ttl < full by { if l.ttl >= full { GainGrows(l.rate, full, l.ttl); } }
    GainStrict(l.rate, TooEarly(l), full);
    GainSplits(l.rate, 0.0, TooEarly(l), full);
  }

  lemma {:induction false} DrainedThenSwept(l: Limits) returns (m: Buckets, u: Buckets)
    requires l.rate.Ok() && l.ttl > 0.0 && l.rate.rps * l.ttl < l.rate.burst as real
    ensures var first, n, at := Burst("k", 0.0, l.rate.burst), l.rate.burst, TooEarly(l);
      && m == After(l, map[], first) && u == After(Unbounded(l), map[], first)
      && EvictionFree(l, map[], first) && CallsOnly(first) == first && |first| == n
      && SweepIdle(l, m, at) == map[] && OneKey(u, at) && TokensAt(l.rate, BucketOf(l, u, "k"), at) < n as real
      && AllAllowed(Answers(l, map[], first))
  {
    TooEarlyIsBetween(l);
    BurstIsOrderly(l, map[], 0.0, l.rate.burst);
    BurstDrains(l, map[], 0.0, l.rate.burst);
    BurstDrains(Unbounded(l), map[], 0.0, l.rate.burst);
    m, u := After(l, map[], Burst("k", 0.0, l.rate.burst)), After(Unbounded(l), map[], Burst("k", 0.0, l.rate.burst));
  }

  lemma {:induction false} AppendAllowed(a: seq<Answer>, b: seq<Answer>)
    ensures AllAllowed(a + b) <==> AllAllowed(a) && AllAllowed(b)
  {
    if AllAllowed(a + b) {
      assert forall i :: 0 <= i < |a| ==> (a + b)[i] == a[i];
      assert forall i :: 0 <= i < |b| ==> (a + b)[|a| + i] == b[i];
    }
  }

  ghost function GapRun(l: Limits): seq<Event>
    requires l.rate.Ok()
  {
    Burst("k", 0.0, l.rate.burst) + ([Sweep(TooEarly(l))] + Burst("k", TooEarly(l), l.rate.burst))
  }

  lemma {:induction false} GapRunIsMonotone(l: Limits)
    requires l.rate.Ok() && 0.0 <= TooEarly(l)
    ensures Monotone(GapRun(l))
  {
    BurstIsOrderly(l, map[], 0.0, l.rate.burst);
    BurstIsOrderly(l, map[], TooEarly(l), l.rate.burst);
    assert forall i :: 0 <= i < |GapRun(l)| ==> GapRun(l)[i].at == if i < l.rate.burst then 0.0 else TooEarly(l);
  }

  lemma {:induction false} GapTail(l: Limits, m: Buckets)
    requires l.rate.Ok() && SweepIdle(l, m, TooEarly(l)) == map[]
    ensures var second := Burst("k", TooEarly(l), l.rate.burst); var tail := [Sweep(TooEarly(l))] + second;
      Answers(l, m, tail) == Answers(l, map[], second) && EvictionFree(l, m, tail) && CallsOnly(tail) == second
  {
    BurstIsOrderly(l, map[], TooEarly(l), l.rate.burst);
    assert ([Sweep(TooEarly(l))] + Burst("k", TooEarly(l), l.rate.burst))[1..] == Burst("k", TooEarly(l), l.rate.burst);
  }

  /** Drain a key, sweep it too early, and burst again: the swept limiter admits what the other refuses. */
  lemma {:induction false} SweepShows(l: Limits)
    requires l.rate.Ok() && l.ttl > 0.0 && l.rate.rps * l.ttl < l.rate.burst as real
    ensures Monotone(GapRun(l)) && EvictionFree(l, map[], GapRun(l))
    ensures AllAllowed(Answers(l, map[], GapRun(l))) && !AllAllowed(Answers(Unbounded(l), map[], CallsOnly(GapRun(l))))
  {
    var n, at := l.rate.burst, TooEarly(l);
    TooEarlyIsBetween(l);
    var m, u := DrainedThenSwept(l);
    var first, second := Burst("k", 0.0, n), Burst("k", at, n);
    GapRunIsMonotone(l);
    GapTail(l, m);
    BurstDrains(l, map[], at, n);
    BurstDrains(Unbounded(l), u, at, n);
    FreshIsFull(l.rate, at);
    RunsCompose(l, map[], first, [Sweep(at)] + second);
    RunsCompose(Unbounded(l), map[], first, second);
    AppendAllowed(Answers(l, map[], first), Answers(l, map[], second));
    AppendAllowed(Answers(Unbounded(l), map[], first), Answers(Unbounded(l), u, second));
  }

  // ---- Admissions in a window ---------------------------------------------

  ghost function AdmittedTo(l: Limits, m: Buckets, es: seq<Event>, key: string): nat
    requires l.rate.burst >= 1
    decreases |es|
  {
    if es == [] then 0
    else
      var e := es[0];
      AdmittedTo(l, Step(l, m, e), es[1..], key) +
      if e.Call? && e.key == key && Decide(l, m, key, e.at, e.sample, e.order).1.allowed then 1 else 0
  }

  function One(b: bool): nat { if b then 1 else 0 }

  /** Tokens plus the refill still to come until t1 pays for the admission, if there is one. */
  lemma {:induction false} PotentialPays(r: Rate, b: Bucket, t: real, at: real, t1: real, charged: bool)
    requires r.Ok() && b.Ok(r) && (b.last <= t || b == Fresh(r)) && t <= at <= t1
    ensures var b' := if charged then Allow(r, b, at).0 else b;
      TokensAt(r, b, t) + Gain(r, t, t1) >=
        TokensAt(r, b', at) + One(charged && Allow(r, b, at).1) as real + Gain(r, at, t1)
  {
    GainSplits(r, t, at, t1);
    GainGrows(r, t, at);
    FreshIsFull(r, t);
    FreshIsFull(r, at);
    if b.last <= t { Refill(r, b, t, at); }
    ChargedAt(r, b, at);
  }

  lemma {:induction false} FreshIsFull(r: Rate, t: real)
    requires r.Ok()
    ensures TokensAt(r, Fresh(r), t) == r.burst as real
  {
    if 0.0 < t { GainGrows(r, 0.0, t); }
  }

  ghost predicate EntryOk(l: Limits, m: Buckets, key: string, t: real) {
    key in m ==> m[key].b.Ok(l.rate) && m[key].b.last <= m[key].lastUsed <= t
  }

  /** The ceiling never drops the key's own bucket; the sweep may, and other keys' may be dropped by either. */
  ghost predicate KeepsKey(l: Limits, m: Buckets, es: seq<Event>, key: string)
    requires l.rate.burst >= 1
    decreases |es|
  {
    es != [] ==>
      && (es[0].Call? && key in m ==> key in Step(l, m, es[0]))
      && KeepsKey(l, Step(l, m, es[0]), es[1..], key)
  }

  /** What one event does to the key's own entry. */
  lemma {:induction false} OwnEntryStep(l: Limits, m: Buckets, e: Event, key: string)
    requires l.rate.Ok()
    ensures var m' := Step(l, m, e);
      && (e.Call? && e.key == key ==>
            var (b, ok) := Allow(l.rate, BucketOf(l, m, key), e.at);
            && key in m' && m'[key].b == b && m'[key].lastUsed == e.at
            && Decide(l, m, key, e.at, e.sample, e.order).1.allowed == ok)
      && (e.Call? && e.key != key && key in m' ==> key in m && m'[key] == m[key])
      && (e.Sweep? ==>
            && (key in m' ==> key in m && m'[key] == m[key])
            && (key in m && key !in m' ==> m[key].lastUsed < e.at - l.ttl))
  {}

  /** A call leaves a bucket in order, refilled or charged up to now. */
  lemma {:induction false} AllowKeepsOk(r: Rate, b: Bucket, t: real)
    requires r.Ok() && b.Ok(r) && (b.last <= t || b == Fresh(r))
    ensures Allow(r, b, t).0.Ok(r) && Allow(r, b, t).0.last <= t
  {
    if b.last <= t { GainGrows(r, b.last, t); }
  }

  lemma {:induction false} EntryStaysOk(l: Limits, m: Buckets, e: Event, key: string, t: real)
    requires l.rate.Ok() && EntryOk(l, m, key, t) && t <= e.at
    ensures EntryOk(l, Step(l, m, e), key, e.at)
  {
    OwnEntryStep(l, m, e, key);
    AllowKeepsOk(l.rate, BucketOf(l, m, key), e.at);
  }

  /** A bucket idle for the whole ttl is as full as a new one. */
  lemma {:induction false} IdleIsFull(l: Limits, b: Bucket, at: real)
    requires l.rate.Ok() && b.Ok(l.rate) && b.last < at - l.ttl && Gain(l.rate, 0.0, l.ttl) >= l.rate.burst as real
    ensures TokensAt(l.rate, b, at) == l.rate.burst as real
  {
    GainShifts(l.rate, 0.0, l.ttl, b.last);
    GainSplits(l.rate, b.last, b.last + l.ttl, at);
    GainGrows(l.rate, b.last + l.ttl, at);
    if at < b.last { GainGrows(l.rate, at, b.last); }
  }

  function AdmittedBy(l: Limits, m: Buckets, e: Event, key: string): bool
    requires l.rate.Ok()
  {
    e.Call? && e.key == key && Allow(l.rate, BucketOf(l, m, key), e.at).1
  }

  /** Whatever an event does, the key's tokens and the refill to come pay for what it admits to the key. */
  lemma {:induction false} EventIsPaid(l: Limits, m: Buckets, e: Event, key: string, t: real, t1: real)
    requires l.rate.Ok() && Gain(l.rate, 0.0, l.ttl) >= l.rate.burst as real
    requires EntryOk(l, m, key, t) && t <= e.at <= t1 && (e.Call? && key in m ==> key in Step(l, m, e))
    ensures var b, b' := BucketOf(l, m, key), BucketOf(l, Step(l, m, e), key);
      TokensAt(l.rate, b, t) + Gain(l.rate, t, t1) >=
        TokensAt(l.rate, b', e.at) + One(AdmittedBy(l, m, e, key)) as real + Gain(l.rate, e.at, t1)
  {
    var b := BucketOf(l, m, key);
    OwnEntryStep(l, m, e, key);
    PotentialPays(l.rate, b, t, e.at, t1, e.Call? && e.key == key);
    if e.Sweep? && key in m && key !in Step(l, m, e) {
      IdleIsFull(l, b, e.at);
      FreshIsFull(l.rate, e.at);
    }
  }

  lemma {:induction false} AdmittedBound(l: Limits, m: Buckets, es: seq<Event>, key: string, t: real, t1: real)
    requires l.rate.Ok() && Gain(l.rate, 0.0, l.ttl) >= l.rate.burst as real
    requires EntryOk(l, m, key, t) && ClockFrom(es, t) && KeepsKey(l, m, es, key)
    requires t <= t1 && forall i :: 0 <= i < |es| ==> es[i].at <= t1
    ensures AdmittedTo(l, m, es, key) as real <= TokensAt(l.rate, BucketOf(l, m, key), t) + Gain(l.rate, t, t1)
    decreases |es|
  {
    if es == [] {
      GainGrows(l.rate, t, t1);
      if key in m { GainGrows(l.rate, m[key].b.last, t); }
      FreshIsFull(l.rate, t);
    } else {
      var e, rest := es[0], es[1..];
      hide Gain, TokensAt, EntryOk, Allow;
      EventIsPaid(l, m, e, key, t, t1);
      EntryStaysOk(l, m, e, key, t);
      OwnEntryStep(l, m, e, key);
      AdmittedBound(l, Step(l, m, e), rest, key, e.at, t1);
    }
  }

  lemma {:induction false} EntriesStayOk(l: Limits, m: Buckets, es: seq<Event>, key: string, t: real, t0: real)
    requires l.rate.Ok() && EntryOk(l, m, key, t) && ClockFrom(es, t)
    requires t <= t0 && forall i :: 0 <= i < |es| ==> es[i].at <= t0
    ensures EntryOk(l, After(l, m, es), key, t0)
    decreases |es|
  {
    if es != [] {
      EntryStaysOk(l, m, es[0], key, t);
      EntriesStayOk(l, Step(l, m, es[0]), es[1..], key, es[0].at, t0);
    }
  }

  /**
   * Whatever came before, whatever was swept and whichever other keys the
   * ceiling drops, a window through which it does not drop the key's own bucket
   * admits the key at most burst plus the refill over its length.
   */
  lemma {:induction false} WindowAdmitsAtMost(
        l: Limits, pre: seq<Event>, win: seq<Event>, key: string, t0: real, t1: real)
    requires l.rate.Ok() && l.rate.rps * l.ttl >= l.rate.burst as real
    requires Monotone(pre) && Monotone(win) && KeepsKey(l, After(l, map[], pre), win, key)
    requires t0 <= t1 && (forall i :: 0 <= i < |win| ==> t0 <= win[i].at <= t1)
    requires forall i :: 0 <= i < |pre| ==> pre[i].at <= t0
    ensures AdmittedTo(l, After(l, map[], pre), win, key) as real <= l.rate.burst as real + l.rate.rps * (t1 - t0)
  {
    var m := After(l, map[], pre);
    assert Gain(l.rate, 0.0, l.ttl) == l.rate.rps * l.ttl && Gain(l.rate, t0, t1) == l.rate.rps * (t1 - t0);
    EntriesStayOk(l, map[], pre, key, if pre == [] then t0 else pre[0].at, t0);
    AdmittedBound(l, m, win, key, t0, t1);
    assert TokensAt(l.rate, BucketOf(l, m, key), t0) <= l.rate.burst as real;
  }

  /** On a run that never finds the map full the ceiling drops nothing, so the bound holds for every key. */
  lemma {:induction false} UnfullRunKeepsKey(l: Limits, m: Buckets, es: seq<Event>, key: string)
    requires l.rate.Ok() && EvictionFree(l, m, es)
    ensures KeepsKey(l, m, es, key)
    decreases |es|
  {
    if es != [] {
      if es[0].Call? { CallShape(l, m, es[0]); }
      UnfullRunKeepsKey(l, Step(l, m, es[0]), es[1..], key);
    }
  }

  lemma {:induction false} BurstAdmits(l: Limits, m: Buckets, key: string, at: real, n: nat, k: nat)
    requires l.rate.Ok() && key in m && TokensAt(l.rate, m[key].b, at) == k as real
    ensures AdmittedTo(l, m, Burst(key, at, n), key) == if n < k then n else k
    decreases n
  {
    if n > 0 {
      var e := Burst(key, at, n)[0];
      assert Burst(key, at, n)[1..] == Burst(key, at, n - 1);
      CallShape(l, m, e);
      ChargedAt(l.rate, m[key].b, at);
      BurstAdmits(l, Step(l, m, e), key, at, n - 1, if k > 0 then k - 1 else 0);
    }
  }

  /** The bound is reached: a key the map does not hold is admitted its whole burst in a window of no length. */
  lemma {:induction false} WindowBoundIsReached(l: Limits, m: Buckets, key: string, at: real, n: nat)
    requires l.rate.Ok() && key !in m
    ensures AdmittedTo(l, m, Burst(key, at, n), key) == if n < l.rate.burst then n else l.rate.burst
  {
    if n > 0 {
      var e := Burst(key, at, n)[0];
      var m0 := EvictIfFull(l, m, [])[key := Entry(Fresh(l.rate), at, None)];
      assert Burst(key, at, n)[1..] == Burst(key, at, n - 1);
      FreshIsFull(l.rate, at);
      FirstCallAlike(l, m, m0, e);
      hide Decide, Step;
      assert AdmittedTo(l, m, Burst(key, at, n), key) == AdmittedTo(l, m0, Burst(key, at, n), key);
      BurstAdmits(l, m0, key, at, n, l.rate.burst);
    }
  }

  // ---- The ceiling --------------------------------------------------------

  /** Every scan of a full map goes through exactly its keys. */
  ghost predicate ScansOk(l: Limits, m: Buckets, es: seq<Event>)
    requires l.rate.burst >= 1
    decreases |es|
  {
    es != [] ==>
      && (es[0].Call? && es[0].key !in m && |m| >= l.maxEntries ==> IsOrder(es[0].order, m))
      && ScansOk(l, Step(l, m, es[0]), es[1..])
  }

  lemma {:induction false} EvictionMakesRoom(l: Limits, m: Buckets, order: seq<string>)
    requires l.maxEntries > 0 && |m| <= l.maxEntries && (|m| >= l.maxEntries ==> IsOrder(order, m))
    ensures |EvictIfFull(l, m, order)| < l.maxEntries
  {
    if |m| >= l.maxEntries {
      assert m.Keys != {};
      var any :| any in m.Keys;
      assert any in order;
      var k := ScanOldest(m, order);
      assert (m - {k}).Keys == m.Keys - {k};
    }
  }

  lemma {:induction false} StepFits(l: Limits, m: Buckets, e: Event)
    requires l.rate.Ok() && l.maxEntries > 0 && |m| <= l.maxEntries
    requires e.Call? && e.key !in m && |m| >= l.maxEntries ==> IsOrder(e.order, m)
    ensures |Step(l, m, e)| <= l.maxEntries
    ensures e.Call? && e.key !in m ==> Decide(l, m, e.key, e.at, e.sample, e.order).1 == Answer(true, 0.0)
  {
    match e
    case Call(key, at, sample, order) =>
      FreshIsFull(l.rate, at);
      if key in m {
        assert Step(l, m, e).Keys == m.Keys;
      } else {
        EvictionMakesRoom(l, m, order);
        assert Step(l, m, e).Keys == EvictIfFull(l, m, order).Keys + {key};
      }
    case Sweep(at) =>
      SizeOfSubset(SweepIdle(l, m, at).Keys, m.Keys);
  }

  lemma {:induction false} SizeOfSubset(a: set<string>, b: set<string>)
    requires a <= b
    ensures |a| <= |b|
  {
    if a != {} {
      var x :| x in a;
      SizeOfSubset(a - {x}, b - {x});
    }
  }

  /** In every run the map stays within its ceiling, and a key the map does not hold is admitted at once. */
  lemma {:induction false} MapStaysWithinCeiling(
        l: Limits, m: Buckets, es: seq<Event>, key: string, now: real, sample: bool, order: seq<string>)
    requires l.rate.Ok() && l.maxEntries > 0 && |m| <= l.maxEntries && ScansOk(l, m, es)
    ensures var m' := After(l, m, es);
      |m'| <= l.maxEntries && (key !in m' && (|m'| >= l.maxEntries ==> IsOrder(order, m')) ==>
        Decide(l, m', key, now, sample, order).1 == Answer(true, 0.0))
    decreases |es|
  {
    if es == [] {
      if key !in m && (|m| >= l.maxEntries ==> IsOrder(order, m)) { StepFits(l, m, Call(key, now, sample, order)); }
    } else {
      StepFits(l, m, es[0]);
      MapStaysWithinCeiling(l, Step(l, m, es[0]), es[1..], key, now, sample, order);
    }
  }

  /** Part-way through a scan with no empty key in sight, the candidate is the oldest of what was seen. */
  lemma {:induction false} ScanFindsOldest(m: Buckets, order: seq<string>)
    requires forall k <- order :: k in m
    requires order != [] && "" !in order
    ensures forall j <- order :: m[ScanOldest(m, order)].lastUsed <= m[j].lastUsed
    decreases |order|
  {
    var front := order[..|order| - 1];
    assert order == front + [order[|order| - 1]];
    if front != [] { ScanFindsOldest(m, front); }
  }

  /**
   * With another entry as old as the empty key's, the scan still settles on an
   * oldest one once it has seen that entry.
   */
  lemma {:induction false} ScanSettles(m: Buckets, order: seq<string>, k: string)
    requires forall j <- order :: j in m
    requires k != "" && k in order && IsOldest(m, k)
    ensures ScanOldest(m, order) != "" && IsOldest(m, ScanOldest(m, order))
    decreases |order|
  {
    var front, last := order[..|order| - 1], order[|order| - 1];
    assert order == front + [last];
    if k in front { ScanSettles(m, front, k); }
  }

  /** The empty key scanned first is always displaced, and never comes back. */
  lemma {:induction false} ScanLosesSentinel(m: Buckets, order: seq<string>)
    requires forall j <- order :: j in m
    requires |order| >= 2 && order[0] == "" && "" !in order[1..]
    ensures ScanOldest(m, order) != ""
    decreases |order|
  {
    var front, last := order[..|order| - 1], order[|order| - 1];
    assert last == order[1..][|order| - 2];
    if |order| > 2 {
      assert front[1..] == order[1..][..|order| - 2];
      ScanLosesSentinel(m, front);
    } else {
      assert front == [""];
      assert ScanOldest(m, [""][..0]) == "";
    }
  }

  lemma {:induction false} AnyOrder(ks: set<string>) returns (order: seq<string>)
    ensures (forall k :: k in order <==> k in ks) && forall i, j :: 0 <= i < j < |order| ==> order[i] != order[j]
  {
    if ks == {} {
      order := [];
    } else {
      var k :| k in ks;
      order := AnyOrder(ks - {k});
      order := [k] + order;
    }
  }

  ghost predicate AlwaysDropsOldest(m: Buckets) {
    forall order | IsOrder(order, m) :: IsOldest(m, ScanOldest(m, order))
  }

  lemma {:induction false} SomeOldest(m: Buckets, ks: set<string>) returns (k: string)
    requires ks != {} && ks <= m.Keys
    ensures k in ks && forall j <- ks :: m[k].lastUsed <= m[j].lastUsed
  {
    k :| k in ks;
    if ks != {k} {
      var j := SomeOldest(m, ks - {k});
      if m[j].lastUsed < m[k].lastUsed { k := j; }
    }
  }

  /**
   * Whatever order the map is scanned in, the ceiling drops a least recently
   * used entry, exactly when the empty key is not the only oldest of several.
   */
  lemma {:induction false} CeilingDropsOldestIff(m: Buckets)
    requires m != map[]
    ensures AlwaysDropsOldest(m) <==> SentinelHarmless(m)
  {
    if SentinelHarmless(m) {
      forall order | IsOrder(order, m) ensures IsOldest(m, ScanOldest(m, order)) {
        OrderDropsOldest(m, order);
      }
    } else {
      var rest := AnyOrder(m.Keys - {""});
      var order := [""] + rest;
      assert IsOrder(order, m);
      assert order[1..] == rest;
      assert m.Keys - {""} != {};
      var j :| j in m.Keys - {""};
      assert j in rest;
      ScanLosesSentinel(m, order);
      assert !IsOldest(m, ScanOldest(m, order));
    }
  }

  lemma {:induction false} OrderDropsOldest(m: Buckets, order: seq<string>)
    requires m != map[] && IsOrder(order, m) && SentinelHarmless(m)
    ensures IsOldest(m, ScanOldest(m, order))
  {
    var any :| any in m;
    assert order != [];
    if "" !in m {
      ScanFindsOldest(m, order);
      assert ScanOldest(m, order) in m;
    } else if m.Keys == {""} {
      assert ScanOldest(m, order) in order;
    } else {
      var k := SomeOldest(m, m.Keys - {""});
      ScanSettles(m, order, k);
    }
  }

  /**
   * The condition matters: with the empty key used first and "a" after it, the
   * ceiling makes room for a third key by dropping the newer "a" when the scan
   * meets the empty key first.
   */
  lemma {:induction false} CeilingDropsNewer(rate: Rate, ttl: real)
    requires rate.Ok()
    ensures var l := Limits(rate, ttl, 2);
      var es := [Call("", 0.0, false, []), Call("a", 1.0, false, []), Call("b", 2.0, false, ["", "a"])];
      var m := After(l, map[], es[..2]);
      && ScansOk(l, map[], es) && m.Keys == {"", "a"} && m[""].lastUsed < m["a"].lastUsed
      && After(l, map[], es).Keys == {"", "b"}
  {
    var l := Limits(rate, ttl, 2);
    var a, b, c := Call("", 0.0, false, []), Call("a", 1.0, false, []), Call("b", 2.0, false, ["", "a"]);
    var m1 := Step(l, map[], a);
    var m2 := Step(l, m1, b);
    EmptyKeyThenA(l, a, b);
    TwoKeyScan(m2);
    NewerDropped(l, m2, c);
    hide Step;
    OneMoreEvent(l, map[], a, [b]);
    OneMoreEvent(l, m1, b, []);
    OneMoreEvent(l, map[], a, [b, c]);
    OneMoreEvent(l, m1, b, [c]);
    OneMoreEvent(l, m2, c, []);
    assert [a] + [b] == [a, b, c][..2] && [b] + [] == [b] && [c] + [] == [c];
    assert [a] + [b, c] == [a, b, c] && [b] + [c] == [b, c];
  }

  lemma {:induction false} EmptyKeyThenA(l: Limits, a: Event, b: Event)
    requires l.rate.Ok() && l.maxEntries == 2 && a == Call("", 0.0, false, []) && b == Call("a", 1.0, false, [])
    ensures var m1 := Step(l, map[], a);
      var m2 := Step(l, m1, b);
      && |m1| == 1 && m2.Keys == {"", "a"} && |m2| == 2 && m2[""].lastUsed == 0.0 && m2["a"].lastUsed == 1.0
  {
    var m1 := Step(l, map[], a);
    assert m1.Keys == {""} && |m1| == 1;
  }

  lemma {:induction false} NewerDropped(l: Limits, m: Buckets, c: Event)
    requires l.rate.Ok() && l.maxEntries == 2 && c == Call("b", 2.0, false, ["", "a"])
    requires m.Keys == {"", "a"} && |m| == 2 && IsOrder(c.order, m) && ScanOldest(m, c.order) == "a"
    ensures Step(l, m, c).Keys == {"", "b"}
  {
    assert EvictIfFull(l, m, c.order) == m - {"a"};
  }

  lemma {:induction false} TwoKeyScan(m: Buckets)
    requires m.Keys == {"", "a"}
    ensures IsOrder(["", "a"], m) && ScanOldest(m, ["", "a"]) == "a"
  {
    assert ["", "a"][..1] == [""] && [""][..0] == [];
    assert ScanOldest(m, [""]) == "";
  }

  lemma {:induction false} OneMoreEvent(l: Limits, m: Buckets, e: Event, rest: seq<Event>)
    requires l.rate.burst >= 1
    ensures After(l, m, [e] + rest) == After(l, Step(l, m, e), rest)
    ensures ScansOk(l, m, [e] + rest) <==>
      (e.Call? && e.key !in m && |m| >= l.maxEntries ==> IsOrder(e.order, m)) && ScansOk(l, Step(l, m, e), rest)
  {
    assert ([e] + rest)[1..] == rest;
  }

  /**
   * Calls keyed on callers that have a subject never put the scan's sentinel in
   * the map, so the ceiling always drops an oldest entry.
   */
  lemma {:induction false} CallersDropOldest(l: Limits, m: Buckets, es: seq<Event>)
    requires l.rate.burst >= 1 && "" !in m
    requires forall e <- es | e.Call? :: exists subject, clientID :: subject != "" && e.key == KeyFor(subject, clientID)
    ensures After(l, m, es) != map[] ==> AlwaysDropsOldest(After(l, m, es))
    decreases |es|
  {
    if es == [] {
      if m != map[] { CeilingDropsOldestIff(m); }
    } else {
      assert es[0] in es;
      assert forall e <- es[1..] :: e in es;
      CallersDropOldest(l, Step(l, m, es[0]), es[1..]);
    }
  }

  // ---- The log ------------------------------------------------------------

  /** The key's entry is there throughout: neither swept nor dropped by the ceiling. */
  ghost predicate Survives(l: Limits, m: Buckets, es: seq<Event>, key: string)
    requires l.rate.burst >= 1
    decreases |es|
  {
    key in m && (es != [] ==> Survives(l, Step(l, m, es[0]), es[1..], key))
  }

  /** When the key's reported rejections happen, and when they are logged. */
  ghost function Rejections(l: Limits, m: Buckets, es: seq<Event>, key: string, onlyLogged: bool): seq<real>
    requires l.rate.burst >= 1
    decreases |es|
  {
    if es == [] then []
    else
      var rest := Rejections(l, Step(l, m, es[0]), es[1..], key, onlyLogged);
      if es[0].Sweep? || es[0].key != key || !es[0].sample then rest
      else
        var (_, a, logged) := Decide(l, m, key, es[0].at, true, es[0].order);
        if !a.allowed && (onlyLogged ==> logged) then [es[0].at] + rest else rest
  }

  lemma {:induction false} RejectionCounts(l: Limits, m: Buckets, e: Event, es: seq<Event>)
    requires l.rate.burst >= 1 && e.Call? && e.sample
    ensures var rest := Rejections(l, Step(l, m, e), es, e.key, false);
      Rejections(l, m, [e] + es, e.key, false) ==
        if Decide(l, m, e.key, e.at, true, e.order).1.allowed then rest else [e.at] + rest
  {
    assert ([e] + es)[1..] == es;
    hide Decide, Step;
  }

  lemma {:induction false} EntryLogStep(l: Limits, m: Buckets, e: Event, key: string)
    requires l.rate.Ok() && key in m && key in Step(l, m, e)
    ensures var last := m[key].lastLogged;
      Step(l, m, e)[key].lastLogged ==
        if e.Call? && e.key == key && e.sample && !Decide(l, m, key, e.at, true, e.order).1.allowed
        then Stamp(last, e.at) else last
  {
    if e.Call? && e.key != key && e.key !in m { assert Step(l, m, e)[key] == m[key]; }
  }

  /**
   * While a key's bucket survives, whatever other keys do, its logged lines are
   * exactly those the sampler writes for its reported rejections; calls that do
   * not report and calls that are admitted leave no trace.
   */
  lemma {:induction false} LogIsSampled(l: Limits, m: Buckets, es: seq<Event>, key: string)
    requires l.rate.Ok() && Survives(l, m, es, key)
    ensures Rejections(l, m, es, key, true) == Lines(m[key].lastLogged, Rejections(l, m, es, key, false))
    ensures Spaced(Rejections(l, m, es, key, true))
    decreases |es|
  {
    if es != [] {
      EntryLogStep(l, m, es[0], key);
      LogIsSampled(l, Step(l, m, es[0]), es[1..], key);
    }
    LinesAreSpaced(m[key].lastLogged, Rejections(l, m, es, key, false));
  }

  /** A surviving bucket remembers the latest line written for its key. */
  lemma {:induction false} EntryKeepsLatest(l: Limits, m: Buckets, es: seq<Event>, key: string)
    requires l.rate.Ok() && Survives(l, m, es, key)
    ensures var m' := After(l, m, es);
      key in m' && m'[key].lastLogged == Latest(m[key].lastLogged, Rejections(l, m, es, key, true))
    decreases |es|
  {
    if es != [] {
      EntryLogStep(l, m, es[0], key);
      EntryKeepsLatest(l, Step(l, m, es[0]), es[1..], key);
    }
  }

  /**
   * After any run through which the key's bucket survives, a reported rejection
   * is logged exactly when no line was written for the key, or the latest is at
   * least an interval old.
   */
  lemma {:induction false} RejectionIsLoggedIff(l: Limits, m: Buckets, es: seq<Event>, e: Event)
    requires l.rate.Ok() && e.Call? && e.sample && Survives(l, m, es, e.key)
    ensures var (_, a, logged) := Decide(l, After(l, m, es), e.key, e.at, true, e.order);
      var latest := Latest(m[e.key].lastLogged, Rejections(l, m, es, e.key, true));
      !a.allowed ==> (logged <==> latest.None? || e.at - latest.value >= 60.0)
  {
    EntryKeepsLatest(l, m, es, e.key);
  }
}
