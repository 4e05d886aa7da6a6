/**
 * The keyed rate limiter as a value: a map of token buckets bounded by an idle
 * sweep and a least-recently-used ceiling, driven by any sequence of calls and
 * sweeps. Times are seconds.
 */
module LimiterModel {
  import opened Options
  import opened LogSampler
  import opened TokenBucket

  datatype Limits = Limits(rate: Rate, ttl: real, maxEntries: int)
  datatype Entry = Entry(b: Bucket, lastUsed: real, lastLogged: Option<real>)
  type Buckets = map<string, Entry>

  datatype Answer = Answer(allowed: bool, retryAfter: real)

  /** order is the order in which a full map happens to be scanned. */
  datatype Event = Call(key: string, at: real, sample: bool, order: seq<string>) | Sweep(at: real)

  /** A burst below one would deny everything, so it is raised to one. */
  function ClampBurst(burst: int): nat { if burst < 1 then 1 else burst }

  // ---- The least-recently-used ceiling ------------------------------------

  ghost predicate IsOrder(order: seq<string>, m: Buckets) {
    (forall k :: k in order <==> k in m) && forall i, j :: 0 <= i < j < |order| ==> order[i] != order[j]
  }

  /** The scan's running candidate, the empty string standing for none yet. */
  function ScanOldest(m: Buckets, order: seq<string>): string
    requires forall k <- order :: k in m
    ensures order != [] ==> ScanOldest(m, order) in order
    ensures order == [] ==> ScanOldest(m, order) == ""
  {
    if order == [] then ""
    else
      var k, oldest := order[|order| - 1], ScanOldest(m, order[..|order| - 1]);
      if oldest == "" || m[k].lastUsed < m[oldest].lastUsed then k else oldest
  }

  ghost function EvictIfFull(l: Limits, m: Buckets, order: seq<string>): Buckets {
    if l.maxEntries <= 0 || |m| < l.maxEntries || !IsOrder(order, m) then m else m - {ScanOldest(m, order)}
  }

  ghost predicate IsOldest(m: Buckets, k: string) {
    k in m && forall j <- m :: m[k].lastUsed <= m[j].lastUsed
  }

  /** No key is the empty string, or it cannot be the only oldest entry, or it is alone. */
  ghost predicate SentinelHarmless(m: Buckets) {
    "" !in m || (exists k <- m :: k != "" && m[k].lastUsed <= m[""].lastUsed) || m.Keys == {""}
  }

  // ---- One call, one sweep ------------------------------------------------

  ghost function Charge(l: Limits, m: Buckets, key: string, now: real, sample: bool): (Buckets, Answer, bool)
    requires l.rate.Ok() && key in m
  {
    var e := m[key];
    var (b, ok) := Allow(l.rate, e.b, now);
    if ok then (m[key := Entry(b, now, e.lastLogged)], Answer(true, 0.0), false)
    else
      (m[key := Entry(b, now, if sample then Stamp(e.lastLogged, now) else e.lastLogged)],
       Answer(false, RetryAfter(l.rate, b, now)),
       sample && SampleLog(e.lastLogged, now))
  }

  ghost function Admit(l: Limits, m: Buckets, key: string, now: real, order: seq<string>): Buckets {
    if key in m then m else EvictIfFull(l, m, order)[key := Entry(Fresh(l.rate), now, None)]
  }

  ghost function Decide(
        l: Limits, m: Buckets, key: string, now: real, sample: bool, order: seq<string>): (Buckets, Answer, bool)
    requires l.rate.burst >= 1
  {
    if l.rate.rps <= 0.0 then (m, Answer(true, 0.0), false)
    else Charge(l, Admit(l, m, key, now, order), key, now, sample)
  }

  function SweepIdle(l: Limits, m: Buckets, now: real): Buckets {
    map k | k in m && !(m[k].lastUsed < now - l.ttl) :: m[k]
  }

  // ---- Runs ---------------------------------------------------------------

  ghost function Step(l: Limits, m: Buckets, e: Event): Buckets
    requires l.rate.burst >= 1
  {
    match e
    case Call(key, at, sample, order) => Decide(l, m, key, at, sample, order).0
    case Sweep(at) => SweepIdle(l, m, at)
  }

  ghost function After(l: Limits, m: Buckets, es: seq<Event>): Buckets
    requires l.rate.burst >= 1
    decreases |es|
  {
    if es == [] then m else After(l, Step(l, m, es[0]), es[1..])
  }

  ghost function Answers(l: Limits, m: Buckets, es: seq<Event>): seq<Answer>
    requires l.rate.burst >= 1
    decreases |es|
  {
    if es == [] then []
    else
      var rest := Answers(l, Step(l, m, es[0]), es[1..]);
      match es[0]
      case Call(key, at, sample, order) => [Decide(l, m, key, at, sample, order).1] + rest
      case Sweep(_) => rest
  }

  ghost predicate ClockFrom(es: seq<Event>, t: real) {
    (forall i :: 0 <= i < |es| ==> t <= es[i].at) && forall i, j :: 0 <= i < j < |es| ==> es[i].at <= es[j].at
  }

  /** No call in the run finds the map full. */
  ghost predicate EvictionFree(l: Limits, m: Buckets, es: seq<Event>)
    requires l.rate.burst >= 1
    decreases |es|
  {
    es != [] ==>
      && (es[0].Call? && es[0].key !in m ==> l.maxEntries <= 0 || |m| < l.maxEntries)
      && EvictionFree(l, Step(l, m, es[0]), es[1..])
  }

  // ---- The map that never forgets -----------------------------------------

  function Unbounded(l: Limits): Limits { l.(maxEntries := 0) }

  function CallsOnly(es: seq<Event>): seq<Event> {
    if es == [] then [] else (if es[0].Call? then [es[0]] else []) + CallsOnly(es[1..])
  }

  /** The swept map m against the map u that kept everything: what is missing from m would be full anyway. */
  ghost predicate Agrees(l: Limits, m: Buckets, u: Buckets, t: real) {
    && (forall k <- m :: k in u && m[k].b == u[k].b && m[k].b.last <= m[k].lastUsed)
    && (forall k <- u ::
          u[k].b.Ok(l.rate) && u[k].b.last <= t && (k in m || TokensAt(l.rate, u[k].b, t) == l.rate.burst as real))
    && (forall k <- m :: m[k].lastUsed <= t)
  }

  lemma {:induction false} LaterStillAgrees(l: Limits, m: Buckets, u: Buckets, t: real, t': real)
    requires l.rate.Ok() && Agrees(l, m, u, t) && t <= t'
    ensures Agrees(l, m, u, t')
  {
    forall k <- u | k !in m ensures TokensAt(l.rate, u[k].b, t') == l.rate.burst as real {
      Refill(l.rate, u[k].b, t, t');
      GainGrows(l.rate, t, t');
    }
  }

  function BucketOf(l: Limits, m: Buckets, key: string): Bucket {
    if key in m then m[key].b else Fresh(l.rate)
  }

  lemma {:induction false} ChargesAlike(l: Limits, m: Buckets, u: Buckets, key: string, t: real)
    requires l.rate.Ok() && Agrees(l, m, u, t)
    ensures var a, b := Allow(l.rate, BucketOf(l, m, key), t), Allow(l.rate, BucketOf(l, u, key), t); a == b || !a.1
    ensures TokensAt(l.rate, BucketOf(l, m, key), t) == TokensAt(l.rate, BucketOf(l, u, key), t)
    ensures BucketOf(l, m, key) != BucketOf(l, u, key) ==> Allow(l.rate, BucketOf(l, m, key), t).1
    ensures var b := Allow(l.rate, BucketOf(l, m, key), t).0; b.Ok(l.rate) && (key in m || b.last <= t)
  {
    if key in u { GainGrows(l.rate, u[key].b.last, t); }
    if 0.0 < t { GainGrows(l.rate, 0.0, t); }
  }

  /** A call that finds room changes its own key's entry and nothing else. */
  lemma {:induction false} CallShape(l: Limits, m: Buckets, e: Event)
    requires l.rate.Ok() && e.Call? && (e.key !in m ==> l.maxEntries <= 0 || |m| < l.maxEntries)
    ensures var (m', a, _) := Decide(l, m, e.key, e.at, e.sample, e.order);
      var (b, ok) := Allow(l.rate, BucketOf(l, m, e.key), e.at);
      && a == (if ok then Answer(true, 0.0) else Answer(false, RetryAfter(l.rate, b, e.at)))
      && e.key in m' && m' == m[e.key := m'[e.key]] && m'[e.key].b == b && m'[e.key].lastUsed == e.at
  {
    hide Allow, RetryAfter, SampleLog, IsOrder, ScanOldest;
  }

  /**
   * One call under a rate, in plain numbers: the bucket holds what it held when
   * last charged plus the refill since, up to the burst; the call is admitted
   * exactly if that is at least one token, which it then costs; a rejection is
   * told how long the missing part takes to accrue.
   */
  lemma {:induction false} CallIsExact(l: Limits, m: Buckets, e: Event)
    requires l.rate.Ok() && e.Call? && e.key in m
    ensures var (m', a, _) := Decide(l, m, e.key, e.at, e.sample, e.order);
      var b, cap := m[e.key].b, l.rate.burst as real;
      var held := b.tokens + if e.at <= b.last then 0.0 else l.rate.rps * (e.at - b.last);
      var tokens := if held < cap then held else cap;
      && e.key in m' && m' == m[e.key := m'[e.key]] && m'[e.key].lastUsed == e.at
      && (tokens >= 1.0 ==> a == Answer(true, 0.0) && m'[e.key].b == Bucket(tokens - 1.0, e.at))
      && (tokens < 1.0 ==> a == Answer(false, (1.0 - tokens) / l.rate.rps) && m'[e.key].b == b)
  {
    CallShape(l, m, e);
  }

  lemma {:induction false} CallAgrees(l: Limits, m: Buckets, u: Buckets, e: Event, m': Buckets, u': Buckets)
    requires l.rate.Ok() && e.Call? && Agrees(l, m, u, e.at)
    requires e.key in m' && e.key in u' && m' == m[e.key := m'[e.key]] && u' == u[e.key := u'[e.key]]
    requires m'[e.key].b == u'[e.key].b == Allow(l.rate, BucketOf(l, m, e.key), e.at).0
    requires m'[e.key].lastUsed == u'[e.key].lastUsed == e.at
    ensures Agrees(l, m', u', e.at)
  {
    ChargesAlike(l, m, u, e.key, e.at);
  }

  lemma {:induction false} SweepAgrees(l: Limits, m: Buckets, u: Buckets, t: real)
    requires l.rate.Ok() && Agrees(l, m, u, t) && Gain(l.rate, 0.0, l.ttl) >= l.rate.burst as real
    ensures Agrees(l, SweepIdle(l, m, t), u, t)
  {
    var m' := SweepIdle(l, m, t);
    forall k <- u | k !in m' ensures TokensAt(l.rate, u[k].b, t) == l.rate.burst as real {
      if k in m {
        var last := u[k].b.last;
        GainSplits(l.rate, last, last + l.ttl, t);
        GainGrows(l.rate, last + l.ttl, t);
        GainShifts(l.rate, 0.0, l.ttl, last);
      }
    }
  }

  lemma {:induction false} GainShifts(r: Rate, t: real, t': real, d: real)
    ensures Gain(r, t + d, t' + d) == Gain(r, t, t')
  {
    assert t' + d - (t + d) == t' - t;
  }

  /** From related states one call is answered alike, and the states stay related. */
  lemma {:induction false} CallAnsweredAlike(l: Limits, m: Buckets, u: Buckets, e: Event)
    requires l.rate.Ok() && e.Call? && (e.key !in m ==> l.maxEntries <= 0 || |m| < l.maxEntries)
    requires Agrees(l, m, u, e.at)
    ensures Decide(l, m, e.key, e.at, e.sample, e.order).1 == Decide(Unbounded(l), u, e.key, e.at, e.sample, e.order).1
    ensures Agrees(l, Step(l, m, e), Step(Unbounded(l), u, e), e.at)
  {
    CallShape(l, m, e);
    CallShape(Unbounded(l), u, e);
    ChargesAlike(l, m, u, e.key, e.at);
    hide Gain, TokensAt, Agrees, Decide;
    CallAgrees(l, m, u, e, Step(l, m, e), Step(Unbounded(l), u, e));
  }

  /** From related states, the swept map and the map that keeps everything answer alike. */
  lemma {:induction false} SweptAnswersAlike(l: Limits, m: Buckets, u: Buckets, es: seq<Event>, t: real)
    requires l.rate.Ok() && Gain(l.rate, 0.0, l.ttl) >= l.rate.burst as real
    requires Agrees(l, m, u, t) && ClockFrom(es, t) && EvictionFree(l, m, es)
    ensures Answers(l, m, es) == Answers(Unbounded(l), u, CallsOnly(es))
    ensures es != [] ==> Agrees(l, After(l, m, es), After(Unbounded(l), u, CallsOnly(es)), es[|es| - 1].at)
    decreases |es|
  {
    if es != [] {
      hide Gain, TokensAt, Agrees, Decide, SweepIdle, Unbounded;
      var e, rest := es[0], es[1..];
      LaterStillAgrees(l, m, u, t, e.at);
      assert ClockFrom(rest, e.at);
      if e.Call? {
        CallAnsweredAlike(l, m, u, e);
        assert CallsOnly(es) == [e] + CallsOnly(rest) && CallsOnly(es)[1..] == CallsOnly(rest);
        SweptAnswersAlike(l, Step(l, m, e), Step(Unbounded(l), u, e), rest, e.at);
      } else {
        SweepAgrees(l, m, u, e.at);
        assert CallsOnly(es) == CallsOnly(rest);
        SweptAnswersAlike(l, Step(l, m, e), u, rest, e.at);
      }
    }
  }
}
