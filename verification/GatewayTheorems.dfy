/**
 * Main results about whole runs of the gateway: no session is lost or closed
 * twice, shutdown is final, the idle rule is inert exactly under its clock
 * margin, and a concrete run that reaches a reclaimed session.
 */
module GatewayTheorems {
  import opened Options
  import opened SessionModel
  import opened GatewayRuns

  /**
   * Every session ever handed to put is held by the cache or has been closed
   * exactly once, never both; and an insertion never displaces a live entry.
   */
  lemma {:induction false} SessionsAreConserved(cfg: Config, lag: Time, es: seq<Event>)
    requires 0 <= lag
    ensures var w := Run(Start(cfg, lag), es);
      && (forall s <- w.c.info ::
            (w.c.Current(s) && w.c.info[s].closes == 0) || (!w.c.Current(s) && w.c.info[s].closes == 1))
      && (forall k <- w.c.m :: w.c.Current(w.c.m[k]) && w.c.info[w.c.m[k]].cacheKey == k)
      && (forall key, s, subject, tenantID, now ::
            Enabled(w, BuildPut(key, s, subject, tenantID, now)) ==> key !in w.c.m)
  {
    RunKeepsInv(Start(cfg, lag), es);
    var w := Run(Start(cfg, lag), es);
    forall key, s, subject, tenantID, now | Enabled(w, BuildPut(key, s, subject, tenantID, now)) ensures key !in w.c.m {
      assert FlightOk(w.c, key, w.flights[key]);
    }
  }

  /**
   * In every run a request carrying an id that was not minted by a session built
   * under the request's own key is refused, unless it is a DELETE.
   */
  lemma {:induction false} ForeignIdIsRefused(cfg: Config, lag: Time, es: seq<Event>, r: nat)
    requires 0 <= lag && Enabled(Run(Start(cfg, lag), es), Decide(r))
    requires var w := Run(Start(cfg, lag), es);
      var req := w.reqs[r].req;
      req.inbound != "" && !req.isDelete && !(req.inbound in w.minted && BuiltFor(w, w.minted[req.inbound], req.key))
    ensures Step(Run(Start(cfg, lag), es), Decide(r)).reqs[r].stage.Refused?
  {
    RunExtends(Start(cfg, lag), es, Decide(r));
    ForwardedOnlyToMinter(cfg, lag, es + [Decide(r)], r);
    hide Run, WInv;
  }

  lemma {:induction false} ClosedStep(w: World, e: Event)
    requires WInv(w) && w.c.closed
    ensures Step(w, e).c.closed && Step(w, e).c.bound.Keys <= w.c.bound.Keys
    ensures forall s <- Step(w, e).c.info :: s !in w.c.info ==> Step(w, e).c.info[s].closes == 1
  {
    if !e.BuildPut? && !e.Mint? { StepAdvances(w, e); }
  }

  /** After closeAll nothing is cached, the id set never grows, and a late build is closed, not inserted. */
  lemma {:induction false} ShutdownIsFinal(w: World, es: seq<Event>)
    requires WInv(w) && w.c.closed
    ensures var w' := Run(w, es);
      && w'.c.closed && w'.c.m == map[] && w'.c.bound.Keys <= w.c.bound.Keys
      && forall s <- w'.c.info :: s !in w.c.info ==> w'.c.info[s].closes == 1
    decreases |es|
  {
    if es != [] {
      var w1 := Step(w, es[0]);
      StepKeepsInv(w, es[0]);
      ClosedStep(w, es[0]);
      ShutdownIsFinal(w1, es[1..]);
      RunKeepsInv(w1, es[1..]);
      var w' := Run(w1, es[1..]);
      forall s <- w'.c.info | s !in w.c.info ensures w'.c.info[s].closes == 1 {
        if s in w1.c.info {
          assert s in Evicted(w1.c);
          EvictedForever(w1, es[1..], s);
        }
      }
    }
  }

  lemma {:induction false} EvictedForever(w: World, es: seq<Event>, s: SessionRef)
    requires WInv(w) && s in Evicted(w.c)
    ensures s in Evicted(Run(w, es).c)
    decreases |es|
  {
    if es != [] {
      StepKeepsInv(w, es[0]);
      EvictedStays(w, es[0]);
      EvictedForever(Step(w, es[0]), es[1..], s);
    }
  }

  // ---- The idle rule ------------------------------------------------------

  /**
   * From the moment an eviction leaves its reason on an id, every request that
   * carries the id is refused with that very reason, or, once the id has been
   * forgotten, as unbound.
   */
  lemma {:induction false} RefusalNamesReason(w: World, es: seq<Event>, r: nat, id: string)
    requires WInv(w) && id in w.c.bound && w.c.bound[id].Tombstone?
    requires var w' := Run(w, es);
      Enabled(w', Decide(r)) && w'.reqs[r].req.inbound == id && !w'.reqs[r].req.isDelete
    ensures var w' := Run(w, es);
      Step(w', Decide(r)).reqs[r].stage ==
        Refused(if id in w'.c.bound then Reclaimed(w.c.bound[id].cause) else Unbound, SameAsHeader)
  {
    RunKeepsInv(w, es);
    IdMovesForward(w, es, id);
    hide Run, WInv;
  }

  ghost predicate IdleFires(w: World, key: string, now: Time) {
    && key in w.c.m && w.c.m[key] in w.c.info && OnTime(w, now)
    && var rec := w.c.info[w.c.m[key]];
      !rec.dirty && now - rec.builtAt <= w.c.cfg.maxAge && now - rec.lastSeen > w.c.cfg.ttl
  }

  lemma {:induction false} SettingsStep(w: World, e: Event)
    ensures Step(w, e).c.cfg == w.c.cfg && Step(w, e).lag == w.lag
  {}

  lemma {:induction false} SettingsAreFixed(w: World, es: seq<Event>)
    ensures Run(w, es).c.cfg == w.c.cfg && Run(w, es).lag == w.lag
    decreases |es|
  {
    if es != [] {
      SettingsStep(w, es[0]);
      SettingsAreFixed(Step(w, es[0]), es[1..]);
    }
  }

  ghost predicate IdleReachable(cfg: Config, lag: Time) {
    exists es, key, now :: IdleFires(Run(Start(cfg, lag), es), key, now)
  }

  /**
   * The idle rule can never be the reported cause, in any reachable state,
   * exactly when the clocks lag the real order by at most ttl - maxAge.
   */
  lemma {:induction false} IdleRuleIsInertIff(cfg: Config, lag: Time)
    requires 0 <= lag && 0 <= cfg.maxAge && 0 <= cfg.ttl
    ensures IdleReachable(cfg, lag) <==> lag > cfg.ttl - cfg.maxAge
  {
    if lag <= cfg.ttl - cfg.maxAge {
      forall es, key, now ensures !IdleFires(Run(Start(cfg, lag), es), key, now) {
        RunKeepsInv(Start(cfg, lag), es);
        SettingsAreFixed(Start(cfg, lag), es);
        var w := Run(Start(cfg, lag), es);
        if key in w.c.m { assert w.c.Current(w.c.m[key]); }
      }
    } else {
      IdleRun(cfg, lag);
    }
  }

  const PLAIN := Request("k", "alice", "", false)

  function OneSession(cfg: Config): Cache {
    Cache(cfg, map["k" := 0], map[], map[0 := NewSession("alice", "t").(cacheKey := "k")], false)
  }

  /** Session 0 has just been built for key k at time 0, and its flight has not finished. */
  lemma {:induction false} BuiltRun(cfg: Config, lag: Time) returns (es: seq<Event>, v: World)
    requires 0 <= lag
    ensures v == Run(Start(cfg, lag), es)
    ensures v == World(OneSession(cfg), lag, 0, map[0 := ReqState(PLAIN, {}, Waiting(Led))],
      map["k" := Ready(Some(0))], map[], map[0 := "k"])
  {
    var w := Start(cfg, lag);
    es := [];
    es, v := Then(w, es, Begin(0, PLAIN, 0));
    assert Evicted(w.c) == {};
    assert v == w.(reqs := map[0 := ReqState(PLAIN, {}, Missed)]);
    es, v := Then(w, es, JoinFlight(0));
    es, v := Then(w, es, FlightCheck("k", 0));
    assert v == w.(reqs := map[0 := ReqState(PLAIN, {}, Waiting(Led))], flights := map["k" := Building]);
    es, v := Then(w, es, BuildPut("k", 0, "alice", "t", 0));
  }

  /** A caller that read its clock just before the build rewinds lastSeen behind builtAt. */
  lemma {:induction false} IdleRun(cfg: Config, lag: Time)
    requires 0 <= lag && 0 <= cfg.maxAge && 0 <= cfg.ttl && lag > cfg.ttl - cfg.maxAge
    ensures IdleReachable(cfg, lag)
  {
    hide Run, WInv, Reap, CloseAll, MarkDirty, Put, BindTransport, Admit, Delivered, InvalidateTenant;
    var w := Start(cfg, lag);
    var es, v := BuiltRun(cfg, lag);
    es, v := Then(w, es, Begin(1, PLAIN, -lag));
    assert v.c.cfg == cfg && v.c.m["k"] == 0 && v.c.info[0].lastSeen == -lag && v.c.info[0].builtAt == 0;
    es, v := Then(w, es, Advance(cfg.maxAge));
    assert IdleFires(Run(w, es), "k", cfg.maxAge);
  }

  /** Extends a run by one event. */
  lemma {:induction false} Then(w: World, es: seq<Event>, e: Event) returns (es': seq<Event>, w': World)
    ensures w' == Run(w, es') == Step(Run(w, es), e)
  {
    es' := es + [e];
    RunExtends(w, es, e);
    w' := Run(w, es');
  }

  // ---- The one gap --------------------------------------------------------

  /** The session is evicted, then an id is minted against it; the flight still has not finished. */
  ghost predicate LateBound(v: World) {
    && v.c.TypeOk() && v.c.m == map[] && 0 in Evicted(v.c) && v.c.bound == map["A" := Live(0)]
    && v.flights == map["k" := Ready(Some(0))] && v.clock == 0 && v.lag == 0 && 2 !in v.reqs
  }

  lemma {:induction false} EvictedRun(cfg: Config) returns (es: seq<Event>, v: World)
    requires 0 <= cfg.maxAge && 0 <= cfg.ttl
    ensures v == Run(Start(cfg, 0), es)
    ensures v == World(Cache(cfg, map[], map[], map[0 := RetiredRec(OneSession(cfg).info[0])], false), 0, 0,
      map[0 := ReqState(PLAIN, {}, Waiting(Led)), 1 := ReqState(PLAIN, {}, Got(0, Hit))],
      map["k" := Ready(Some(0))], map[], map[0 := "k"])
  {
    hide Run, WInv, Reap, CloseAll, MarkDirty, Put, BindTransport, Admit, Delivered;
    var w := Start(cfg, 0);
    es, v := BuiltRun(cfg, 0);
    assert Evicted(v.c) == {};
    es, v := Then(w, es, Begin(1, PLAIN, 0));
    assert v.c == OneSession(cfg);
    es, v := Then(w, es, Nudge("t", 0));
    assert Victim(OneSession(cfg), OfTenant(OneSession(cfg), "t"), 0);
  }

  lemma {:induction false} LateBoundRun(cfg: Config) returns (es: seq<Event>, v: World)
    requires 0 <= cfg.maxAge && 0 <= cfg.ttl
    ensures v == Run(Start(cfg, 0), es) && LateBound(v)
  {
    hide Run, WInv, Reap, CloseAll, MarkDirty, Put, Delivered, InvalidateTenant;
    var w := Start(cfg, 0);
    es, v := EvictedRun(cfg);
    es, v := Then(w, es, Decide(1));
    assert v.reqs[1].stage == Forwarded(0, Hit);
    es, v := Then(w, es, Mint(1, "A"));
  }

  /**
   * The single-flight gap is real: a run in which session 0 is evicted between
   * its insertion and the end of the flight that built it, an id is bound to it
   * just after, and a request that begins later with that id is forwarded to it.
   */
  lemma {:induction false} GapRun(cfg: Config) returns (es: seq<Event>)
    requires 0 <= cfg.maxAge && 0 <= cfg.ttl
    ensures var w := Run(Start(cfg, 0), es);
      && 2 in w.reqs && w.reqs[2].stage == Forwarded(0, JoinedLate)
      && w.reqs[2].req.inbound == "A" && 0 in w.reqs[2].goneAtStart
  {
    hide Run, WInv, EvictAll, Reap, InvalidateTenant, CloseAll, MarkDirty, Put, BindTransport;
    var w := Start(cfg, 0);
    var v;
    es, v := LateBoundRun(cfg);
    es, v := Then(w, es, Begin(2, PLAIN.(inbound := "A"), 0));
    assert v.reqs[2].stage == Missed && 0 in v.reqs[2].goneAtStart;
    es, v := Then(w, es, JoinFlight(2));
    assert v.reqs[2].stage == Waiting(JoinedLate);
    es, v := Then(w, es, FinishFlight("k"));
    assert v.reqs[2].stage == Got(0, JoinedLate) && v.c.bound["A"] == Live(0);
    es, v := Then(w, es, Decide(2));
  }
}
