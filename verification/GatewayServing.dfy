/**
 * Which sessions the requests still to come can be handed, whatever the
 * interleaving, and why no request of theirs is ever stuck.
 */
module GatewayServing {
  import opened Options
  import opened SessionModel
  import opened GatewayRuns

  ghost predicate Handed(w: World, r: nat, s: SessionRef) {
    r in w.reqs && (w.reqs[r].stage.Got? || w.reqs[r].stage.Forwarded?) && w.reqs[r].stage.sess == s
  }

  /** s has not been closed and is clean, and the slowest clock still finds it within both ceilings. */
  ghost predicate Servable(w: World, s: SessionRef) {
    && s in w.c.info && w.c.info[s].closes == 0 && !w.c.info[s].dirty
    && w.clock - w.lag - w.c.info[s].builtAt <= w.c.cfg.maxAge
    && w.clock - w.lag - w.c.info[s].lastSeen <= w.c.cfg.ttl
  }

  /** A single-flight call has settled on s and not yet finished. */
  ghost predicate Decided(w: World, s: SessionRef) { exists k <- w.flights :: w.flights[k] == Ready(Some(s)) }

  // ---- What a step does to one session ------------------------------------

  /** s may have been closed or flagged; nothing about it got better. */
  ghost predicate NoBetter(c: Cache, c': Cache, s: SessionRef)
    requires s in c.info
  {
    s in c'.info && (c'.info[s].closes == 0 ==>
      && c.info[s].closes == 0 && c'.info[s].builtAt == c.info[s].builtAt && c'.info[s].lastSeen == c.info[s].lastSeen
      && (c.info[s].dirty ==> c'.info[s].dirty))
  }

  lemma {:induction false} EvictNoBetter(c: Cache, why: map<string, Cause>, now: Time, s: SessionRef)
    requires Inv(c) && s in c.info
    ensures NoBetter(c, EvictAll(c, why, now), s)
  {
    EvictionIsExact(c, why, now, s);
  }

  /** Get makes nothing better but the session it hands out, which was good at its now. */
  lemma {:induction false} GetNoBetter(w: World, key: string, now: Time, s: SessionRef)
    requires WInv(w) && OnTime(w, now) && s in w.c.info
    ensures var (c, got) := Get(w.c, key, now); if got == Some(s) then Servable(w, s) else NoBetter(w.c, c, s)
  {
    if key in w.c.m {
      GetDecides(w.c, key, now);
      assert w.c.Current(w.c.m[key]);
    }
    hide EvictAll, ReclaimCause, FlightOk, ReqOk, MintOk;
  }

  lemma {:induction false} OthersNoBetter(w: World, e: Event, s: SessionRef)
    requires WInv(w) && Enabled(w, e) && s in w.c.info && !e.Begin? && !e.FlightCheck?
    ensures NoBetter(w.c, Next(w, e).c, s)
  {
    hide Inv, FlightOk, ReqOk, TimeOk, MintOk, EvictAll, Admit, Delivered, WithStage;
    match e
    case ReapTick(now) => EvictNoBetter(w.c, Expired(w.c, now), now, s);
    case Nudge(tenantID, now) => EvictNoBetter(w.c, OfTenant(w.c, tenantID), now, s);
    case Shutdown(now) => EvictNoBetter(w.c, map k <- w.c.m :: ExplicitClose, now, s);
    case _ =>
  }

  lemma {:induction false} StaysUnservable(w: World, e: Event, s: SessionRef)
    requires WInv(w) && s in w.c.info && !Servable(w, s)
    ensures !Servable(Step(w, e), s) && s in Step(w, e).c.info
  {
    if Enabled(w, e) {
      if e.Begin? {
        GetNoBetter(w, e.req.key, e.now, s);
      } else if e.FlightCheck? {
        GetNoBetter(w, e.key, e.now, s);
      } else {
        OthersNoBetter(w, e, s);
      }
      Settings(w, e);
      BeginCache(w, e);
      hide WInv, Next, Enabled;
    }
  }

  lemma {:induction false} Settings(w: World, e: Event)
    requires Enabled(w, e)
    ensures var w' := Next(w, e); w'.c.cfg == w.c.cfg && w'.lag == w.lag && w.clock <= w'.clock
  {}

  lemma {:induction false} BeginCache(w: World, e: Event)
    requires Enabled(w, e)
    ensures e.Begin? ==> Next(w, e).c == Get(w.c, e.req.key, e.now).0
    ensures e.FlightCheck? ==> Next(w, e).c == Get(w.c, e.key, e.now).0
  {}

  // ---- What later requests can be handed ----------------------------------

  /** r does not hold s, and no request that does not can come by it. */
  ghost predicate OutOfPlay(w: World, r: nat, s: SessionRef) {
    s in w.c.info && !Servable(w, s) && !Decided(w, s) && !Handed(w, r, s)
  }

  lemma {:induction false} CheckDecides(w: World, key: string, now: Time, s: SessionRef)
    requires WInv(w) && Enabled(w, FlightCheck(key, now)) && s in w.c.info && !Servable(w, s) && !Decided(w, s)
    ensures !Decided(Next(w, FlightCheck(key, now)), s)
  {
    GetNoBetter(w, key, now, s);
    GetIsFresh(w.c, key, now);
    hide WInv, Get;
    var w' := Next(w, FlightCheck(key, now));
    forall k <- w'.flights ensures w'.flights[k] != Ready(Some(s)) {
      assert k in w.flights ==> w.flights[k] != Ready(Some(s));
    }
  }

  /** A flight settles only on a session it finds good or has just built. */
  lemma {:induction false} DecidesOnServable(w: World, e: Event, s: SessionRef)
    requires WInv(w) && s in w.c.info && !Servable(w, s) && !Decided(w, s)
    ensures !Decided(Step(w, e), s)
  {
    if Enabled(w, e) && e.FlightCheck? {
      CheckDecides(w, e.key, e.now, s);
    } else if Enabled(w, e) {
      hide WInv, Get, Reap, InvalidateTenant, CloseAll, MarkDirty, Put, BindTransport, Delivered, WithStage, Admit;
      forall k <- Next(w, e).flights ensures Next(w, e).flights[k] != Ready(Some(s)) {
        assert k in w.flights ==> w.flights[k] != Ready(Some(s));
      }
    }
  }

  /** A request comes by a session from the cache as it begins, or from a flight that has settled. */
  lemma {:induction false} ComesFrom(w: World, e: Event, r: nat, s: SessionRef)
    requires WInv(w) && !Handed(w, r, s) && Handed(Step(w, e), r, s)
    ensures (e.Begin? && Enabled(w, e) && Get(w.c, e.req.key, e.now).1 == Some(s)) || Decided(w, s)
  {
    hide WInv, Get, Reap, InvalidateTenant, CloseAll, MarkDirty, Put, BindTransport, Admit;
    if r in w.reqs { StageStep(w, e, r); }
  }

  lemma {:induction false} StaysOutOfPlay(w: World, e: Event, r: nat, s: SessionRef)
    requires WInv(w) && OutOfPlay(w, r, s)
    ensures OutOfPlay(Step(w, e), r, s)
  {
    StaysUnservable(w, e, s);
    DecidesOnServable(w, e, s);
    if Handed(Step(w, e), r, s) {
      ComesFrom(w, e, r, s);
      GetNoBetter(w, e.req.key, e.now, s);
    }
  }

  lemma {:induction false} RunStaysOutOfPlay(w: World, es: seq<Event>, r: nat, s: SessionRef)
    requires WInv(w) && OutOfPlay(w, r, s)
    ensures OutOfPlay(Run(w, es), r, s)
    decreases |es|
  {
    if es != [] {
      StepKeepsInv(w, es[0]);
      StaysOutOfPlay(w, es[0], r, s);
      RunStaysOutOfPlay(Step(w, es[0]), es[1..], r, s);
    }
  }

  lemma {:induction false} ServableIsHanded(w: World, r: nat, s: SessionRef)
    requires WInv(w) && r !in w.reqs && Servable(w, s)
    ensures exists e :: Handed(Step(w, e), r, s)
  {
    var key, now := w.c.info[s].cacheKey, w.clock - w.lag;
    assert w.c.Current(s);
    GetDecides(w.c, key, now);
    var e := Begin(r, Request(key, "", "", false), now);
    assert Enabled(w, e) && Handed(Step(w, e), r, s);
  }

  lemma {:induction false} OneStep(w: World, e: Event)
    ensures Run(w, [e]) == Step(w, e)
  {
    assert [e][1..] == [];
  }

  lemma {:induction false} BeginFinds(w: World, r: nat, s: SessionRef, k: string)
    requires WInv(w) && r !in w.reqs && k in w.flights && w.flights[k] == Ready(Some(s))
    ensures var w' := Step(w, Begin(r, Request(k, "", "", false), w.clock));
      && w'.flights == w.flights && r in w'.reqs && w'.reqs[r].req.key == k
      && (w'.reqs[r].stage == Missed || w'.reqs[r].stage == Got(s, Hit)) && w'.c.TypeOk()
  {
    assert FlightOk(w.c, k, w.flights[k]);
    GetIsFresh(w.c, k, w.clock);
    assert Enabled(w, Begin(r, Request(k, "", "", false), w.clock));
    hide Get, Evicted, FlightOk, MintOk, ReqOk, TimeOk;
  }

  lemma {:induction false} JoinedIsHanded(w: World, r: nat, s: SessionRef, k: string)
    requires w.c.TypeOk() && k in w.flights && w.flights[k] == Ready(Some(s))
    requires r in w.reqs && w.reqs[r].req.key == k && w.reqs[r].stage == Missed
    ensures Handed(Step(Step(w, JoinFlight(r)), FinishFlight(k)), r, s)
  {
    hide Get, Reap, InvalidateTenant, CloseAll, MarkDirty, Put, BindTransport, Admit;
    var w' := Step(w, JoinFlight(r));
    assert w'.reqs[r].stage == Waiting(JoinedLate) && w'.reqs[r].req.key == k && w'.flights == w.flights;
  }

  lemma {:induction false} DecidedIsHanded(w: World, r: nat, s: SessionRef, k: string)
    requires WInv(w) && r !in w.reqs && k in w.flights && w.flights[k] == Ready(Some(s))
    ensures exists es :: Handed(Run(w, es), r, s)
  {
    hide Step, Run, WInv;
    var a, b, c := Begin(r, Request(k, "", "", false), w.clock), JoinFlight(r), FinishFlight(k);
    BeginFinds(w, r, s, k);
    if Step(w, a).reqs[r].stage == Missed {
      JoinedIsHanded(Step(w, a), r, s, k);
      ThreeSteps(w, a, b, c);
      assert Handed(Run(w, [a, b, c]), r, s);
    } else {
      OneStep(w, a);
      assert Handed(Run(w, [a]), r, s);
    }
  }

  /**
   * Some continuation hands s to a request that has not begun exactly if a
   * single-flight call has already settled on s, or s is open, clean and within
   * both ceilings by the slowest clock. From the moment neither holds, no
   * schedule hands s out again.
   */
  lemma {:induction false} CanBeHandedOutIff(w: World, r: nat, s: SessionRef)
    requires WInv(w) && r !in w.reqs && s in w.c.info
    ensures (exists es :: Handed(Run(w, es), r, s)) <==>
      || (exists k <- w.flights :: w.flights[k] == Ready(Some(s)))
      || (w.c.info[s].closes == 0 && !w.c.info[s].dirty &&
          w.clock - w.lag - w.c.info[s].builtAt <= w.c.cfg.maxAge &&
          w.clock - w.lag - w.c.info[s].lastSeen <= w.c.cfg.ttl)
  {
    hide WInv, Run, Step;
    if k :| k in w.flights && w.flights[k] == Ready(Some(s)) {
      DecidedIsHanded(w, r, s, k);
    } else if Servable(w, s) {
      ServableIsHanded(w, r, s);
      var e :| Handed(Step(w, e), r, s);
      OneStep(w, e);
      assert Handed(Run(w, [e]), r, s);
    } else {
      forall es ensures !Handed(Run(w, es), r, s) { RunStaysOutOfPlay(w, es, r, s); }
    }
  }

  /**
   * A change takes effect: once a session is flagged dirty, its tenant's
   * entitlements have changed or the cache is shut down, no request that begins
   * afterwards is ever handed it, unless a single-flight call had settled on it.
   */
  lemma {:induction false} ChangeTakesEffect(w: World, e: Event, es: seq<Event>, r: nat, s: SessionRef)
    requires WInv(w) && Enabled(w, e) && r !in w.reqs && s in w.c.info
    requires forall k <- w.flights :: w.flights[k] != Ready(Some(s))
    requires e == Dirtied(s) || e.Shutdown? || (e.Nudge? && e.tenantID == w.c.info[s].tenantID)
    ensures !Handed(Run(Step(w, e), es), r, s)
  {
    ClosesOrFlags(w, e, s);
    StepKeepsInv(w, e);
    QuietFlights(w, e);
    hide WInv, Run, Step, Enabled;
    RunStaysOutOfPlay(Step(w, e), es, r, s);
  }

  lemma {:induction false} ClosesOrFlags(w: World, e: Event, s: SessionRef)
    requires WInv(w) && Enabled(w, e) && s in w.c.info
    requires e == Dirtied(s) || e.Shutdown? || (e.Nudge? && e.tenantID == w.c.info[s].tenantID)
    ensures s in Step(w, e).c.info && !Servable(Step(w, e), s)
  {
    hide FlightOk, ReqOk, TimeOk, MintOk, EvictAll;
    match e {
      case Nudge(tenantID, now) => InvalidationIsExact(w.c, tenantID, now, s);
      case Shutdown(now) => ShutdownIsExact(w.c, now, s);
      case Dirtied(_) =>
    }
  }

  lemma {:induction false} QuietFlights(w: World, e: Event)
    requires Enabled(w, e) && (e.Dirtied? || e.Shutdown? || e.Nudge?)
    ensures Step(w, e).flights == w.flights && Step(w, e).reqs == w.reqs
  {}

  lemma {:induction false} ReapJudges(c: Cache, now: Time, s: SessionRef)
    requires Inv(c) && s in c.info
    ensures var c' := Reap(c, now);
      && s in c'.info
      && (c'.info[s].closes == 0 <==>
            && c.info[s].closes == 0 && !c.info[s].dirty
            && now - c.info[s].builtAt <= c.cfg.maxAge && now - c.info[s].lastSeen <= c.cfg.ttl)
      && (c'.info[s].closes == 0 ==> c'.info[s] == c.info[s])
  {
    EvictionIsExact(c, Expired(c, now), now, s);
    if c.Current(s) { ReapDecides(c, now, c.info[s].cacheKey); }
    hide Expired;
  }

  /**
   * After a reap tick the sessions still open are exactly those that were and
   * that the tick's clock finds clean and within both ceilings, and they are as
   * they were; no tombstone is older than twice the age ceiling.
   */
  lemma {:induction false} TickSettles(w: World, now: Time, s: SessionRef, id: string)
    requires WInv(w) && OnTime(w, now) && s in w.c.info && 0 <= w.c.cfg.maxAge
    ensures var c, c' := w.c, Step(w, ReapTick(now)).c;
      && s in c'.info
      && (c'.info[s].closes == 0 <==>
            && c.info[s].closes == 0 && !c.info[s].dirty
            && now - c.info[s].builtAt <= c.cfg.maxAge && now - c.info[s].lastSeen <= c.cfg.ttl)
      && (c'.info[s].closes == 0 ==> c'.info[s] == c.info[s])
      && (id in c'.bound && c'.bound[id].Tombstone? ==> now - c'.bound[id].staleAt <= 2 * c.cfg.maxAge)
  {
    assert Step(w, ReapTick(now)).c == Reap(w.c, now) && Inv(w.c);
    hide WInv, Step, Inv;
    ReapJudges(w.c, now, s);
    TombstonesAreYoung(w.c, now, id);
    hide Reap;
  }

  lemma {:induction false} TombstonesAreYoung(c: Cache, now: Time, id: string)
    requires c.TypeOk() && 0 <= c.cfg.maxAge
    ensures var b := Reap(c, now).bound; id in b && b[id].Tombstone? ==> now - b[id].staleAt <= 2 * c.cfg.maxAge
  {
    hide Expired, EvictAll, SweepTransports;
    EvictionKeepsIds(c, Expired(c, now), now);
    SweepSettles(EvictAll(c, Expired(c, now), now), now);
  }

  // ---- An evicted session -------------------------------------------------

  /**
   * A request that begins after a session was evicted can be handed it exactly
   * if a single-flight call for the request's own key has settled on it.
   */
  lemma {:induction false} EvictedIsHandedIff(w: World, r: nat, req: Request, now: Time, s: SessionRef)
    requires WInv(w) && Enabled(w, Begin(r, req, now)) && s in Evicted(w.c)
    ensures (exists es :: Handed(Run(Step(w, Begin(r, req, now)), es), r, s)) <==>
      req.key in w.flights && w.flights[req.key] == Ready(Some(s))
  {
    var e := Begin(r, req, now);
    var w' := Step(w, e);
    StepKeepsInv(w, e);
    BeginsOutside(w, r, req, now, s);
    hide WInv, Step, Run, OutOfReach;
    if req.key in w.flights && w.flights[req.key] == Ready(Some(s)) {
      JoinedIsHanded(w', r, s, req.key);
      TwoSteps(w', JoinFlight(r), FinishFlight(req.key));
      assert Handed(Run(w', [JoinFlight(r), FinishFlight(req.key)]), r, s);
    } else {
      forall es ensures !Handed(Run(w', es), r, s) {
        RunStaysOutOfReach(w', es, r, s);
        ReachIsHanding(Run(w', es), r, s);
      }
    }
  }

  lemma {:induction false} BeginsOutside(w: World, r: nat, req: Request, now: Time, s: SessionRef)
    requires WInv(w) && Enabled(w, Begin(r, req, now)) && s in Evicted(w.c)
    ensures var w' := Step(w, Begin(r, req, now));
      && w'.flights == w.flights && w'.c.TypeOk() && r in w'.reqs && w'.reqs[r].req == req
      && if req.key in w.flights && w.flights[req.key] == Ready(Some(s)) then w'.reqs[r].stage == Missed
         else OutOfReach(w', r, s)
  {
    EvictedStays(w, Begin(r, req, now));
    EvictedIsNotCurrent(w.c, req.key, s);
    GetIsFresh(w.c, req.key, now);
    assert req.key in w.flights ==> FlightOk(w.c, req.key, w.flights[req.key]);
    hide Get, Evicted, Inv, ReqOk, TimeOk, MintOk;
  }

  lemma {:induction false} ReachIsHanding(w: World, r: nat, s: SessionRef)
    requires OutOfReach(w, r, s)
    ensures !Handed(w, r, s)
  {}

  lemma {:induction false} TwoSteps(w: World, a: Event, b: Event)
    ensures Run(w, [a, b]) == Step(Step(w, a), b)
  {
    hide Step;
    assert [a, b][1..] == [b] && [b][1..] == [];
    assert Run(Step(w, a), [b]) == Run(Step(Step(w, a), b), []);
  }

  /** Every session of c is in c' under the owner it had. */
  ghost predicate SameOwners(c: Cache, c': Cache) {
    forall s <- c.info :: s in c'.info &&
      c'.info[s].subject == c.info[s].subject && c'.info[s].tenantID == c.info[s].tenantID
  }

  lemma {:induction false} EvictKeepsOwners(c: Cache, why: map<string, Cause>, now: Time)
    requires c.TypeOk()
    ensures SameOwners(c, EvictAll(c, why, now))
  {
    hide StaleBinding, Victim;
  }

  lemma {:induction false} GetKeepsOwners(c: Cache, key: string, now: Time)
    requires c.TypeOk()
    ensures SameOwners(c, Get(c, key, now).0)
  {
    hide EvictAll;
    if key in c.m && ReclaimCause(c.cfg, c.info[c.m[key]], now).Some? {
      EvictKeepsOwners(c, map[key := ReclaimCause(c.cfg, c.info[c.m[key]], now).value], now);
    }
  }

  lemma {:induction false} LossKeepsOwners(c: Cache, tenantID: string, now: Time)
    requires c.TypeOk()
    ensures SameOwners(c, Reap(c, now)) && SameOwners(c, InvalidateTenant(c, tenantID, now))
    ensures SameOwners(c, CloseAll(c, now))
  {
    EvictKeepsOwners(c, Expired(c, now), now);
    EvictKeepsOwners(c, OfTenant(c, tenantID), now);
    EvictKeepsOwners(c, map k <- c.m :: ExplicitClose, now);
    hide EvictAll, Expired, OfTenant;
  }

  lemma {:induction false} PutKeepsOwners(c: Cache, key: string, s: SessionRef, rec: SessionRec, now: Time)
    requires c.TypeOk() && s !in c.info
    ensures SameOwners(c, Put(c, key, s, rec, now))
  {}

  lemma {:induction false} MarksKeepOwners(c: Cache, id: string, s: SessionRef)
    requires c.TypeOk() && s in c.info
    ensures SameOwners(c, BindTransport(c, id, s)) && SameOwners(c, MarkDirty(c, s))
  {}

  lemma {:induction false} TakingKeepsOwners(w: World, e: Event)
    requires Enabled(w, e) && (e.Begin? || e.FlightCheck? || e.ReapTick? || e.Nudge? || e.Shutdown?)
    ensures SameOwners(w.c, Next(w, e).c)
  {
    hide Get, Reap, InvalidateTenant, CloseAll, SameOwners;
    match e
    case Begin(_, req, now) => GetKeepsOwners(w.c, req.key, now);
    case FlightCheck(key, now) => GetKeepsOwners(w.c, key, now);
    case ReapTick(now) => LossKeepsOwners(w.c, "", now);
    case Nudge(tenantID, now) => LossKeepsOwners(w.c, tenantID, now);
    case Shutdown(now) => LossKeepsOwners(w.c, "", now);
  }

  lemma {:induction false} GivingKeepsOwners(w: World, e: Event)
    requires Enabled(w, e) && (e.BuildPut? || e.Mint? || e.Dirtied?)
    ensures SameOwners(w.c, Next(w, e).c)
  {
    hide Put, BindTransport, MarkDirty, SameOwners;
    match e
    case BuildPut(key, s, subject, tenantID, now) => PutKeepsOwners(w.c, key, s, NewSession(subject, tenantID), now);
    case Mint(r, id) => MarksKeepOwners(w.c, id, w.reqs[r].stage.sess);
    case Dirtied(s) => MarksKeepOwners(w.c, "", s);
  }

  lemma {:induction false} StepKeepsOwner(w: World, e: Event, s: SessionRef)
    requires s in w.c.info
    ensures s in Step(w, e).c.info
    ensures Step(w, e).c.info[s].subject == w.c.info[s].subject && Step(w, e).c.info[s].tenantID == w.c.info[s].tenantID
  {
    if Enabled(w, e) {
      if e.Begin? || e.FlightCheck? || e.ReapTick? || e.Nudge? || e.Shutdown? {
        TakingKeepsOwners(w, e);
        hide Next, Enabled;
      } else if e.BuildPut? || e.Mint? || e.Dirtied? {
        GivingKeepsOwners(w, e);
        hide Next, Enabled;
      } else {
        assert Next(w, e).c == w.c;
      }
    }
  }

  lemma {:induction false} RunKeepsOwner(w: World, es: seq<Event>, s: SessionRef)
    requires s in w.c.info
    ensures s in Run(w, es).c.info
    ensures Run(w, es).c.info[s].subject == w.c.info[s].subject && Run(w, es).c.info[s].tenantID == w.c.info[s].tenantID
    decreases |es|
  {
    if es != [] {
      StepKeepsOwner(w, es[0], s);
      RunKeepsOwner(Step(w, es[0]), es[1..], s);
    }
  }

  /** A session belongs, in every run, to the subject and the tenant it was built for. */
  lemma {:induction false} SessionKeepsOwner(
        w: World, key: string, s: SessionRef, subject: string, tenantID: string, now: Time, es: seq<Event>)
    requires Enabled(w, BuildPut(key, s, subject, tenantID, now))
    ensures var w' := Run(Step(w, BuildPut(key, s, subject, tenantID, now)), es);
      s in w'.c.info && w'.c.info[s].subject == subject && w'.c.info[s].tenantID == tenantID
  {
    var w1 := Step(w, BuildPut(key, s, subject, tenantID, now));
    assert w1.c.info[s].subject == subject && w1.c.info[s].tenantID == tenantID;
    RunKeepsOwner(w1, es, s);
    hide Run, Step;
  }

  // ---- No request is stuck ------------------------------------------------

  /** A waiting request waits on a flight that is there. */
  ghost predicate WaitersOk(w: World) {
    forall r <- w.reqs :: w.reqs[r].stage.Waiting? ==> w.reqs[r].req.key in w.flights
  }

  lemma {:induction false} StepKeepsWaiters(w: World, e: Event)
    requires WaitersOk(w)
    ensures WaitersOk(Step(w, e))
  {
    hide Get, Reap, InvalidateTenant, CloseAll, MarkDirty, Put, BindTransport, Admit;
  }

  lemma {:induction false} RunKeepsWaiters(w: World, es: seq<Event>)
    requires WaitersOk(w)
    ensures WaitersOk(Run(w, es))
    decreases |es|
  {
    if es != [] {
      StepKeepsWaiters(w, es[0]);
      RunKeepsWaiters(Step(w, es[0]), es[1..]);
    }
  }

  /** How many of its own moves a request is from its decision, at most. */
  function Distance(w: World, r: nat): nat
    requires r in w.reqs
  {
    match w.reqs[r].stage
    case Missed => 5
    case Waiting(_) =>
      if w.reqs[r].req.key !in w.flights then 5
      else (match w.flights[w.reqs[r].req.key] case Recheck => 4 case Building => 3 case Ready(_) => 2)
    case Got(_, _) => 1
    case _ => 0
  }

  function NextMove(w: World, r: nat): Event
    requires r in w.reqs
  {
    var key := w.reqs[r].req.key;
    match w.reqs[r].stage
    case Missed => JoinFlight(r)
    case Waiting(_) =>
      if key !in w.flights then JoinFlight(r)
      else
        (match w.flights[key]
         case Recheck => FlightCheck(key, w.clock)
         case Building => BuildFails(key)
         case Ready(_) => FinishFlight(key))
    case _ => Decide(r)
  }

  lemma {:induction false} MovesOn(w: World, r: nat)
    requires WInv(w) && WaitersOk(w) && r in w.reqs && Distance(w, r) > 0
    ensures var w' := Step(w, NextMove(w, r)); r in w'.reqs && Distance(w', r) < Distance(w, r)
  {
    assert ReqOk(w, w.reqs[r]) && w.c.TypeOk() && 0 <= w.lag;
    hide WInv;
    MoveCounts(w, r);
  }

  lemma {:induction false} MoveCounts(w: World, r: nat)
    requires w.c.TypeOk() && 0 <= w.lag && WaitersOk(w) && r in w.reqs && Distance(w, r) > 0
    requires w.reqs[r].stage.Got? ==> w.reqs[r].stage.sess in w.c.info
    ensures var w' := Step(w, NextMove(w, r)); r in w'.reqs && Distance(w', r) < Distance(w, r)
  {
    hide Get, Reap, InvalidateTenant, CloseAll, MarkDirty, Put, BindTransport, Admit;
    assert Enabled(w, NextMove(w, r));
  }

  lemma {:induction false} CanBeAnswered(w: World, r: nat) returns (es: seq<Event>)
    requires WInv(w) && WaitersOk(w) && r in w.reqs
    ensures r in Run(w, es).reqs && Distance(Run(w, es), r) == 0
    decreases Distance(w, r)
  {
    es := [];
    if Distance(w, r) > 0 {
      var e := NextMove(w, r);
      StepKeepsInv(w, e);
      StepKeepsWaiters(w, e);
      MovesOn(w, r);
      hide WInv, WaitersOk, Step, NextMove, Distance;
      var rest := CanBeAnswered(Step(w, e), r);
      es := [e] + rest;
      assert es[1..] == rest;
    }
  }

  /** In every run a request that has begun can still be forwarded, refused or told that no session could be built. */
  lemma {:induction false} NoRequestIsStuck(cfg: Config, lag: Time, es: seq<Event>, r: nat)
    requires 0 <= lag && r in Run(Start(cfg, lag), es).reqs
    ensures exists more ::
      var w := Run(Run(Start(cfg, lag), es), more);
      r in w.reqs && (w.reqs[r].stage.Forwarded? || w.reqs[r].stage.Refused? || w.reqs[r].stage.Unavailable?)
  {
    RunKeepsInv(Start(cfg, lag), es);
    RunKeepsWaiters(Start(cfg, lag), es);
    var more := CanBeAnswered(Run(Start(cfg, lag), es), r);
    hide Run, WInv, WaitersOk;
  }
}
