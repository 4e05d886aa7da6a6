/**
 * The gateway under every interleaving: requests, single-flight builds, id
 * minting and the four eviction paths, one atomic step (one hold of the cache
 * mutex, or one of the single-flight group's) at a time.
 *
 * A run is any sequence of events; an event that is not enabled changes nothing.
 * The clock is the real step order; an operation's now may lag it by at most
 * lag, because callers read their clock before they take the mutex.
 */
module GatewayRuns {
  import opened Options
  import opened SessionModel

  datatype Request = Request(key: string, subject: string, inbound: string, isDelete: bool)

  /** How getOrBuild found the session; JoinedLate is a single-flight call whose result was already decided. */
  datatype Via = Hit | Led | JoinedEarly | JoinedLate

  datatype Marker = Reclaimed(cause: Cause) | Unbound
  datatype LogCause = SameAsHeader | CrossSubject
  datatype Verdict = Forward | Reject(header: Marker, logged: LogCause)

  datatype Stage =
    | Missed
    | Waiting(via: Via)
    | Got(sess: SessionRef, via: Via)
    | Forwarded(sess: SessionRef, via: Via)
    | Refused(header: Marker, logged: LogCause)
    | Unavailable

  /** goneAtStart is what had been evicted before this request's getOrBuild began. */
  datatype ReqState = ReqState(req: Request, goneAtStart: set<SessionRef>, stage: Stage)

  /** The single-flight call in progress for one key. */
  datatype Flight = Recheck | Building | Ready(result: Option<SessionRef>)

  /** minted and built are history: the session that minted each id, and the key each session was built under. */
  datatype World = World(
    c: Cache, lag: Time, clock: Time,
    reqs: map<nat, ReqState>,
    flights: map<string, Flight>,
    minted: map<string, SessionRef>,
    built: map<SessionRef, string>)

  datatype Event =
    | Advance(to: Time)
    | Begin(r: nat, req: Request, now: Time)
    | JoinFlight(r: nat)
    | FlightCheck(key: string, now: Time)
    | BuildFails(key: string)
    | BuildPut(key: string, s: SessionRef, subject: string, tenantID: string, now: Time)
    | FinishFlight(key: string)
    | Decide(r: nat)
    | Mint(r: nat, id: string)
    | Dirtied(s: SessionRef)
    | ReapTick(now: Time)
    | Nudge(tenantID: string, now: Time)
    | Shutdown(now: Time)

  /** The switch that forwards a request or answers 404 with a marker and a logged cause. */
  function Admit(c: Cache, req: Request, sess: SessionRef): Verdict
    requires c.TypeOk()
  {
    if req.inbound == "" || req.isDelete then Forward
    else
      match LookupTransport(c, req.inbound)
      case None => Reject(Unbound, SameAsHeader)
      case Some(Tombstone(cause, _)) => Reject(Reclaimed(cause), SameAsHeader)
      case Some(Live(s)) =>
        if s == sess then Forward
        else Reject(Reclaimed(Unknown), if c.info[s].subject != req.subject then CrossSubject else SameAsHeader)
  }

  // ---- Steps --------------------------------------------------------------

  function Start(cfg: Config, lag: Time): World {
    World(Empty(cfg), lag, 0, map[], map[], map[], map[])
  }

  predicate OnTime(w: World, now: Time) { w.clock - w.lag <= now <= w.clock }

  predicate AtStage(w: World, r: nat, p: Stage -> bool) { r in w.reqs && p(w.reqs[r].stage) }

  predicate InFlight(w: World, key: string, p: Flight -> bool) { key in w.flights && p(w.flights[key]) }

  predicate Enabled(w: World, e: Event) {
    w.c.TypeOk() &&
    match e
    case Advance(to) => w.clock <= to
    case Begin(r, _, now) => r !in w.reqs && OnTime(w, now)
    case JoinFlight(r) => AtStage(w, r, (g: Stage) => g.Missed?)
    case FlightCheck(key, now) => InFlight(w, key, (f: Flight) => f.Recheck?) && OnTime(w, now)
    case BuildFails(key) => InFlight(w, key, (f: Flight) => f.Building?)
    case BuildPut(key, s, _, _, now) => InFlight(w, key, (f: Flight) => f.Building?) && s !in w.c.info && OnTime(w, now)
    case FinishFlight(key) => InFlight(w, key, (f: Flight) => f.Ready?)
    case Decide(r) => AtStage(w, r, (g: Stage) => g.Got? && g.sess in w.c.info)
    case Mint(r, id) =>
      && AtStage(w, r, (g: Stage) => g.Forwarded? && g.sess in w.c.info) && w.reqs[r].req.inbound == ""
      && id != "" && id !in w.minted
    case Dirtied(s) => s in w.c.info
    case ReapTick(now) => OnTime(w, now)
    case Nudge(_, now) => OnTime(w, now)
    case Shutdown(now) => OnTime(w, now)
  }

  function WithStage(w: World, r: nat, stage: Stage): map<nat, ReqState>
    requires r in w.reqs
  {
    w.reqs[r := w.reqs[r].(stage := stage)]
  }

  /** What a caller waiting on the flight for key is handed when it finishes. */
  function Delivered(w: World, key: string, rs: ReqState): ReqState
    requires InFlight(w, key, (f: Flight) => f.Ready?)
  {
    if rs.req.key == key && rs.stage.Waiting? then
      match w.flights[key].result
      case None => rs.(stage := Unavailable)
      case Some(s) => rs.(stage := Got(s, rs.stage.via))
    else rs
  }

  function NewSession(subject: string, tenantID: string): SessionRec {
    SessionRec(subject, tenantID, "", 0, 0, false, [], 0)
  }

  function Next(w: World, e: Event): World
    requires Enabled(w, e)
  {
    match e
    case Advance(to) => w.(clock := to)
    case Begin(r, req, now) =>
      var (c, got) := Get(w.c, req.key, now);
      w.(c := c, reqs := w.reqs[r := ReqState(req, Evicted(w.c), if got.Some? then Got(got.value, Hit) else Missed)])
    case JoinFlight(r) =>
      var key := w.reqs[r].req.key;
      if key !in w.flights then w.(flights := w.flights[key := Recheck], reqs := WithStage(w, r, Waiting(Led)))
      else w.(reqs := WithStage(w, r, Waiting(if w.flights[key].Ready? then JoinedLate else JoinedEarly)))
    case FlightCheck(key, now) =>
      var (c, got) := Get(w.c, key, now);
      w.(c := c, flights := w.flights[key := if got.Some? then Ready(got) else Building])
    case BuildFails(key) => w.(flights := w.flights[key := Ready(None)])
    case BuildPut(key, s, subject, tenantID, now) =>
      w.(c := Put(w.c, key, s, NewSession(subject, tenantID), now),
         flights := w.flights[key := Ready(Some(s))],
         built := w.built[s := key])
    case FinishFlight(key) =>
      w.(flights := w.flights - {key}, reqs := map r <- w.reqs :: Delivered(w, key, w.reqs[r]))
    case Decide(r) =>
      var rs := w.reqs[r];
      w.(reqs := WithStage(w, r,
        match Admit(w.c, rs.req, rs.stage.sess)
        case Forward => Forwarded(rs.stage.sess, rs.stage.via)
        case Reject(header, logged) => Refused(header, logged)))
    case Mint(r, id) =>
      var s := w.reqs[r].stage.sess;
      w.(c := BindTransport(w.c, id, s), minted := w.minted[id := s])
    case Dirtied(s) => w.(c := MarkDirty(w.c, s))
    case ReapTick(now) => w.(c := Reap(w.c, now))
    case Nudge(tenantID, now) => w.(c := InvalidateTenant(w.c, tenantID, now))
    case Shutdown(now) => w.(c := CloseAll(w.c, now))
  }

  function Step(w: World, e: Event): World {
    if Enabled(w, e) then Next(w, e) else w
  }

  function Run(w: World, es: seq<Event>): World
    decreases |es|
  {
    if es == [] then w else Run(Step(w, es[0]), es[1..])
  }

  // ---- The inductive invariant --------------------------------------------

  ghost predicate FlightOk(c: Cache, key: string, f: Flight) {
    && (f.Building? ==> key !in c.m)
    && (f.Ready? && f.result.Some? ==> f.result.value in c.info)
    && (f.Ready? && key in c.m ==> f.result == Some(c.m[key]))
  }

  ghost predicate ReqOk(w: World, rs: ReqState) {
    && rs.goneAtStart <= Evicted(w.c)
    && match rs.stage
       case Waiting(via) =>
         (via != JoinedLate && InFlight(w, rs.req.key, (f: Flight) => f.Ready? && f.result.Some?)) ==>
           w.flights[rs.req.key].result.value !in rs.goneAtStart
       case Got(s, via) => s in w.c.info && (via != JoinedLate ==> s !in rs.goneAtStart)
       case Forwarded(s, via) =>
         && s in w.c.info && (via != JoinedLate ==> s !in rs.goneAtStart)
         && (rs.req.inbound != "" && !rs.req.isDelete ==> rs.req.inbound in w.minted && w.minted[rs.req.inbound] == s)
       case _ => true
  }

  ghost predicate TimeOk(w: World) {
    forall s <- w.c.info :: w.c.info[s].closes == 0 ==>
      w.c.info[s].builtAt <= w.clock && w.c.info[s].builtAt - w.lag <= w.c.info[s].lastSeen
  }

  ghost predicate MintOk(w: World) {
    && "" !in w.minted
    && (forall id <- w.minted :: w.minted[id] in w.c.info)
    && (forall id <- w.c.bound :: id in w.minted && (w.c.bound[id].Live? ==> w.c.bound[id].sess == w.minted[id]))
  }

  ghost predicate WInv(w: World) {
    && Inv(w.c) && 0 <= w.lag && TimeOk(w) && MintOk(w)
    && (forall k <- w.flights :: FlightOk(w.c, k, w.flights[k]))
    && (forall r <- w.reqs :: ReqOk(w, w.reqs[r]))
  }

  /** The cache may move on underneath a world if nothing it relies on is lost. */
  ghost predicate CacheAdvances(w: World, c: Cache) {
    && Inv(c) && c.cfg == w.c.cfg
    && (forall s <- w.c.info :: s in c.info)
    && Evicted(w.c) <= Evicted(c)
    && (forall k <- c.m :: k in w.c.m && c.m[k] == w.c.m[k])
    && (forall s <- c.info :: c.info[s].closes == 0 ==>
          s in w.c.info && w.c.info[s].closes == 0 && c.info[s].builtAt == w.c.info[s].builtAt &&
          c.info[s].subject == w.c.info[s].subject &&
          (c.info[s].lastSeen == w.c.info[s].lastSeen || w.clock - w.lag <= c.info[s].lastSeen))
    && (forall id <- c.bound :: id in w.c.bound &&
          (c.bound[id].Live? || w.c.bound[id].Tombstone? ==> c.bound[id] == w.c.bound[id]))
  }

  lemma {:induction false} AdvanceKeepsInv(w: World, c: Cache)
    requires WInv(w) && CacheAdvances(w, c)
    ensures WInv(w.(c := c))
  {
    var w' := w.(c := c);
    forall r <- w'.reqs ensures ReqOk(w', w'.reqs[r]) { assert ReqOk(w, w.reqs[r]); }
    forall k <- w'.flights ensures FlightOk(c, k, w'.flights[k]) { assert FlightOk(w.c, k, w.flights[k]); }
  }

  lemma {:induction false} EvictAdvances(w: World, why: map<string, Cause>, now: Time)
    requires WInv(w)
    ensures CacheAdvances(w, EvictAll(w.c, why, now))
  {
    EvictAllKeepsInv(w.c, why, now);
  }

  lemma {:induction false} TouchAdvances(w: World, s: SessionRef, now: Time)
    requires WInv(w) && OnTime(w, now) && s in w.c.info
    requires Inv(w.c.(info := w.c.info[s := w.c.info[s].(lastSeen := now)]))
    ensures CacheAdvances(w, w.c.(info := w.c.info[s := w.c.info[s].(lastSeen := now)]))
  {
    hide Inv;
  }

  lemma {:induction false} GetAdvances(w: World, key: string, now: Time)
    requires WInv(w) && OnTime(w, now)
    ensures CacheAdvances(w, Get(w.c, key, now).0)
  {
    hide CacheAdvances, EvictAll;
    GetKeepsInv(w.c, key, now);
    if key !in w.c.m {
      NothingAdvances(w);
    } else {
      match ReclaimCause(w.c.cfg, w.c.info[w.c.m[key]], now)
      case Some(cause) => EvictAdvances(w, map[key := cause], now);
      case None => TouchAdvances(w, w.c.m[key], now);
    }
  }

  lemma {:induction false} ReapAdvances(w: World, now: Time)
    requires WInv(w)
    ensures CacheAdvances(w, Reap(w.c, now))
  {
    hide EvictAll, Expired, CacheAdvances;
    EvictAdvances(w, Expired(w.c, now), now);
    ReapKeepsInv(w.c, now);
    SweepAdvances(w, EvictAll(w.c, Expired(w.c, now), now), now);
  }

  lemma {:induction false} SweepAdvances(w: World, c: Cache, now: Time)
    requires CacheAdvances(w, c) && Inv(SweepTransports(c, now))
    ensures CacheAdvances(w, SweepTransports(c, now))
  {
    assert Evicted(SweepTransports(c, now)) == Evicted(c);
  }

  lemma {:induction false} BeginKeeps(w: World, r: nat, req: Request, now: Time)
    requires WInv(w) && Enabled(w, Begin(r, req, now))
    ensures WInv(Next(w, Begin(r, req, now)))
  {
    GetAdvances(w, req.key, now);
    var (c, got) := Get(w.c, req.key, now);
    AdvanceKeepsInv(w, c);
    GetIsFresh(w.c, req.key, now);
    var w' := Next(w, Begin(r, req, now));
    forall q <- w'.reqs ensures ReqOk(w', w'.reqs[q]) {
      if q != r { assert ReqOk(w.(c := c), w.reqs[q]); }
    }
  }

  lemma {:induction false} JoinKeeps(w: World, r: nat)
    requires WInv(w) && Enabled(w, JoinFlight(r))
    ensures WInv(Next(w, JoinFlight(r)))
  {
    hide Inv, Evicted, Admit, Delivered, Get, Put, Reap, InvalidateTenant, CloseAll, MarkDirty, BindTransport;
    var w' := Next(w, JoinFlight(r));
    forall q <- w'.reqs ensures ReqOk(w', w'.reqs[q]) { assert ReqOk(w, w.reqs[q]); }
  }

  /** A flight may move on to a session that is not gone. */
  lemma {:induction false} FlightMoves(w: World, key: string, f: Flight)
    requires WInv(w) && FlightOk(w.c, key, f)
    requires f.Ready? && f.result.Some? ==> f.result.value !in Evicted(w.c)
    ensures WInv(w.(flights := w.flights[key := f]))
  {
    hide Inv, Evicted;
    var w' := w.(flights := w.flights[key := f]);
    forall q <- w'.reqs ensures ReqOk(w', w'.reqs[q]) { assert ReqOk(w, w.reqs[q]); }
  }

  lemma {:induction false} FlightCheckKeeps(w: World, key: string, now: Time)
    requires WInv(w) && Enabled(w, FlightCheck(key, now))
    ensures WInv(Next(w, FlightCheck(key, now)))
  {
    GetAdvances(w, key, now);
    var (c, got) := Get(w.c, key, now);
    AdvanceKeepsInv(w, c);
    GetIsFresh(w.c, key, now);
    hide WInv, CacheAdvances, EvictAll;
    FlightMoves(w.(c := c), key, if got.Some? then Ready(got) else Building);
  }

  lemma {:induction false} BuildPutKeeps(
        w: World, key: string, s: SessionRef, subject: string, tenantID: string, now: Time)
    requires WInv(w) && Enabled(w, BuildPut(key, s, subject, tenantID, now))
    ensures WInv(Next(w, BuildPut(key, s, subject, tenantID, now)))
  {
    hide Inv, Admit, Delivered, Get, Reap, InvalidateTenant, CloseAll, MarkDirty;
    var w' := Next(w, BuildPut(key, s, subject, tenantID, now));
    assert FlightOk(w.c, key, w.flights[key]);
    PutKeepsInvIff(w.c, key, s, NewSession(subject, tenantID), now);
    assert Evicted(w.c) <= Evicted(w'.c);
    forall q <- w'.reqs ensures ReqOk(w', w'.reqs[q]) { assert ReqOk(w, w.reqs[q]); }
    forall k <- w'.flights ensures FlightOk(w'.c, k, w'.flights[k]) {
      assert FlightOk(w.c, k, w.flights[k]);
    }
  }

  lemma {:induction false} FinishKeeps(w: World, key: string)
    requires WInv(w) && Enabled(w, FinishFlight(key))
    ensures WInv(Next(w, FinishFlight(key)))
  {
    var w' := Next(w, FinishFlight(key));
    assert FlightOk(w.c, key, w.flights[key]);
    forall q <- w'.reqs ensures ReqOk(w', w'.reqs[q]) { assert ReqOk(w, w.reqs[q]); }
  }

  lemma {:induction false} DecideKeeps(w: World, r: nat)
    requires WInv(w) && Enabled(w, Decide(r))
    ensures WInv(Next(w, Decide(r)))
  {
    var w' := Next(w, Decide(r));
    forall q <- w'.reqs ensures ReqOk(w', w'.reqs[q]) { assert ReqOk(w, w.reqs[q]); }
  }

  lemma {:induction false} BindTouchesIdsOnly(c: Cache, id: string, s: SessionRef)
    requires c.TypeOk() && s in c.info
    ensures var r := BindTransport(c, id, s);
      && r.m == c.m && r.info.Keys == c.info.Keys
      && forall t <- c.info :: r.info[t] == c.info[t].(transportIDs := r.info[t].transportIDs)
  {}

  lemma {:induction false} BindKeepsTimes(w: World, id: string, s: SessionRef)
    requires WInv(w) && s in w.c.info
    ensures var c := BindTransport(w.c, id, s);
      c.m == w.c.m && c.info.Keys == w.c.info.Keys && Evicted(c) == Evicted(w.c) && TimeOk(w.(c := c))
  {
    BindTouchesIdsOnly(w.c, id, s);
    assert w.c.TypeOk() && TimeOk(w);
    hide WInv, BindTransport;
    assert Evicted(w.c) == Evicted(BindTransport(w.c, id, s));
  }

  lemma {:induction false} MintRecords(w: World, c: Cache, id: string, s: SessionRef)
    requires WInv(w) && s in w.c.info && id != "" && id !in w.minted && c == BindTransport(w.c, id, s)
    ensures MintOk(w.(c := c, minted := w.minted[id := s]))
  {
    hide Inv;
  }

  lemma {:induction false} MintChangesNoOther(w: World, c: Cache, id: string, s: SessionRef)
    requires WInv(w) && Inv(c) && c.m == w.c.m && c.info.Keys == w.c.info.Keys && Evicted(c) == Evicted(w.c)
    requires TimeOk(w.(c := c))
    requires id !in w.minted && MintOk(w.(c := c, minted := w.minted[id := s]))
    ensures WInv(w.(c := c, minted := w.minted[id := s]))
  {
    hide Inv, MintOk, Evicted;
    var w' := w.(c := c, minted := w.minted[id := s]);
    assert TimeOk(w');
    forall q <- w'.reqs ensures ReqOk(w', w'.reqs[q]) { assert ReqOk(w, w.reqs[q]); }
    forall k <- w'.flights ensures FlightOk(w'.c, k, w'.flights[k]) { assert FlightOk(w.c, k, w.flights[k]); }
  }

  lemma {:induction false} MintKeeps(w: World, r: nat, id: string)
    requires WInv(w) && Enabled(w, Mint(r, id))
    ensures WInv(Next(w, Mint(r, id)))
  {
    var s := w.reqs[r].stage.sess;
    var c := BindTransport(w.c, id, s);
    BindKeepsInv(w.c, id, s);
    BindKeepsTimes(w, id, s);
    MintRecords(w, c, id, s);
    hide WInv, Inv, MintOk, TimeOk, Evicted, BindTransport;
    MintChangesNoOther(w, c, id, s);
  }

  lemma {:induction false} QuietKeeps(w: World, w': World)
    requires WInv(w)
    requires w'.c == w.c && w'.lag == w.lag && w.clock <= w'.clock && w'.minted == w.minted && w'.reqs == w.reqs
    requires w'.flights == w.flights ||
      exists key <- w.flights :: w.flights[key].Building? && w'.flights == w.flights[key := Ready(None)]
    ensures WInv(w')
  {
    forall q <- w'.reqs ensures ReqOk(w', w'.reqs[q]) { assert ReqOk(w, w.reqs[q]); }
    forall k <- w'.flights ensures FlightOk(w'.c, k, w'.flights[k]) { assert FlightOk(w.c, k, w.flights[k]); }
  }

  lemma {:induction false} NudgeAdvances(w: World, tenantID: string, now: Time)
    requires WInv(w)
    ensures CacheAdvances(w, InvalidateTenant(w.c, tenantID, now))
  {
    if !w.c.closed { EvictAdvances(w, OfTenant(w.c, tenantID), now); }
  }

  lemma {:induction false} ShutdownAdvances(w: World, now: Time)
    requires WInv(w)
    ensures CacheAdvances(w, CloseAll(w.c, now))
  {
    EvictAdvances(w, map k <- w.c.m :: ExplicitClose, now);
    CloseAllKeepsInv(w.c, now);
  }

  lemma {:induction false} DirtiedAdvances(w: World, s: SessionRef)
    requires WInv(w) && s in w.c.info
    ensures CacheAdvances(w, MarkDirty(w.c, s))
  {
    MarkDirtyKeepsInv(w.c, s);
  }

  lemma {:induction false} NothingAdvances(w: World)
    requires WInv(w)
    ensures CacheAdvances(w, w.c)
  {}

  /** Every step but an insertion or a mint only takes from the cache. */
  lemma {:induction false} StepAdvances(w: World, e: Event)
    requires WInv(w) && !e.BuildPut? && !e.Mint?
    ensures CacheAdvances(w, Step(w, e).c)
  {
    hide WInv, CacheAdvances, Get, Reap, InvalidateTenant, CloseAll, MarkDirty, Put, BindTransport;
    hide Delivered, WithStage, Admit;
    NothingAdvances(w);
    if Enabled(w, e) {
      match e
      case Begin(_, req, now) => GetAdvances(w, req.key, now);
      case FlightCheck(key, now) => GetAdvances(w, key, now);
      case Dirtied(s) => DirtiedAdvances(w, s);
      case ReapTick(now) => ReapAdvances(w, now);
      case Nudge(tenantID, now) => NudgeAdvances(w, tenantID, now);
      case Shutdown(now) => ShutdownAdvances(w, now);
      case _ =>
    }
  }

  lemma {:induction false} StepKeepsInv(w: World, e: Event)
    requires WInv(w)
    ensures WInv(Step(w, e))
  {
    hide WInv, Get, Reap, InvalidateTenant, CloseAll, MarkDirty, Put, BindTransport, Delivered, WithStage, Admit;
    if Enabled(w, e) {
      match e
      case Advance(to) => QuietKeeps(w, Next(w, e));
      case Begin(r, req, now) => BeginKeeps(w, r, req, now);
      case JoinFlight(r) => JoinKeeps(w, r);
      case FlightCheck(key, now) => FlightCheckKeeps(w, key, now);
      case BuildFails(key) => QuietKeeps(w, Next(w, e));
      case BuildPut(key, s, subject, tenantID, now) => BuildPutKeeps(w, key, s, subject, tenantID, now);
      case FinishFlight(key) => FinishKeeps(w, key);
      case Decide(r) => DecideKeeps(w, r);
      case Mint(r, id) => MintKeeps(w, r, id);
      case _ => StepAdvances(w, e); AdvanceKeepsInv(w, Next(w, e).c);
    }
  }

  lemma {:induction false} RunKeepsInv(w: World, es: seq<Event>)
    requires WInv(w)
    ensures WInv(Run(w, es))
    decreases |es|
  {
    if es != [] {
      StepKeepsInv(w, es[0]);
      RunKeepsInv(Step(w, es[0]), es[1..]);
    }
  }

  // ---- Whose session it is ------------------------------------------------

  predicate BuiltFor(w: World, s: SessionRef, key: string) { s in w.built && w.built[s] == key }

  /**
   * What the cache holds under a key, what a flight for it has decided on and
   * what a request for it has been handed was built under that very key.
   */
  ghost predicate KeysOk(w: World) {
    && (forall s <- w.built :: s in w.c.info)
    && (forall k <- w.c.m :: BuiltFor(w, w.c.m[k], k))
    && (forall k <- w.flights :: w.flights[k].Ready? && w.flights[k].result.Some? ==>
          BuiltFor(w, w.flights[k].result.value, k))
    && (forall r <- w.reqs :: HandedOwn(w, w.reqs[r]))
  }

  ghost predicate HandedOwn(w: World, rs: ReqState) {
    rs.stage.Got? || rs.stage.Forwarded? ==> BuiltFor(w, rs.stage.sess, rs.req.key)
  }

  lemma {:induction false} InsertKeepsKeys(
        w: World, key: string, s: SessionRef, subject: string, tenantID: string, now: Time)
    requires KeysOk(w) && Enabled(w, BuildPut(key, s, subject, tenantID, now))
    ensures KeysOk(Next(w, BuildPut(key, s, subject, tenantID, now)))
  {
    var w' := Next(w, BuildPut(key, s, subject, tenantID, now));
    assert forall t, k :: BuiltFor(w, t, k) ==> t != s && BuiltFor(w', t, k);
    forall r <- w'.reqs ensures HandedOwn(w', w'.reqs[r]) { assert HandedOwn(w, w.reqs[r]); }
  }

  /** A flight of w' is one of w's, or holds what the key map held for its key. */
  ghost predicate FlightKept(w: World, w': World, k: string)
    requires k in w'.flights
  {
    w'.flights[k].Ready? && w'.flights[k].result.Some? ==>
      (k in w.flights && w'.flights[k] == w.flights[k]) || (k in w.c.m && w.c.m[k] == w'.flights[k].result.value)
  }

  /** The key map and the flights of w' hold nothing that w's did not. */
  ghost predicate HoldsNoMore(w: World, w': World) {
    && w'.built == w.built && (forall s <- w.c.info :: s in w'.c.info)
    && (forall k <- w'.c.m :: k in w.c.m && w'.c.m[k] == w.c.m[k])
    && (forall k <- w'.flights :: FlightKept(w, w', k))
  }

  /** Every other step only loses entries of the key map, and hands out what a key or a flight holds. */
  lemma {:induction false} StepKeepsKeys(w: World, e: Event)
    requires WInv(w) && KeysOk(w)
    ensures KeysOk(Step(w, e))
  {
    if Enabled(w, e) {
      if e.BuildPut? {
        InsertKeepsKeys(w, e.key, e.s, e.subject, e.tenantID, e.now);
      } else {
        HoldsNoMoreAfter(w, e);
        RequestsKeepKeys(w, e);
        KeysCarry(w, Next(w, e));
      }
    }
  }

  lemma {:induction false} KeysCarry(w: World, w': World)
    requires KeysOk(w) && HoldsNoMore(w, w') && forall r <- w'.reqs :: HandedOwn(w', w'.reqs[r])
    ensures KeysOk(w')
  {
    hide HandedOwn;
    forall k <- w'.flights | w'.flights[k].Ready? && w'.flights[k].result.Some?
      ensures BuiltFor(w', w'.flights[k].result.value, k)
    {
      assert FlightKept(w, w', k);
    }
  }

  lemma {:induction false} MapShrinksAfter(w: World, e: Event)
    requires WInv(w) && Enabled(w, e) && !e.BuildPut?
    ensures var w' := Next(w, e);
      && w'.built == w.built && (forall s <- w.c.info :: s in w'.c.info)
      && (forall k <- w'.c.m :: k in w.c.m && w'.c.m[k] == w.c.m[k])
  {
    if e.Mint? {
      hide WInv;
    } else {
      StepAdvances(w, e);
      hide WInv, Get, Reap, InvalidateTenant, CloseAll, MarkDirty, Delivered, WithStage, Admit, Evicted, Inv;
    }
  }

  lemma {:induction false} FlightsKeptAfter(w: World, e: Event, k: string)
    requires WInv(w) && Enabled(w, e) && !e.BuildPut? && k in Next(w, e).flights
    ensures FlightKept(w, Next(w, e), k)
  {
    if e.FlightCheck? { GetIsFresh(w.c, e.key, e.now); }
    hide WInv, Get, Reap, InvalidateTenant, CloseAll, MarkDirty, BindTransport, Delivered, WithStage, Admit;
  }

  lemma {:induction false} HoldsNoMoreAfter(w: World, e: Event)
    requires WInv(w) && Enabled(w, e) && !e.BuildPut?
    ensures HoldsNoMore(w, Next(w, e))
  {
    MapShrinksAfter(w, e);
    forall k <- Next(w, e).flights ensures FlightKept(w, Next(w, e), k) { FlightsKeptAfter(w, e, k); }
    hide WInv, Next, Enabled, FlightKept;
  }

  lemma {:induction false} RequestsKeepKeys(w: World, e: Event)
    requires WInv(w) && KeysOk(w) && Enabled(w, e) && !e.BuildPut?
    ensures var w' := Next(w, e); forall r <- w'.reqs :: HandedOwn(w', w'.reqs[r])
  {
    var w' := Next(w, e);
    if e.Begin? { GetIsFresh(w.c, e.req.key, e.now); }
    hide WInv, Reap, InvalidateTenant, CloseAll, MarkDirty, Put, BindTransport, EvictAll;
    forall r <- w'.reqs ensures HandedOwn(w', w'.reqs[r]) {
      if r in w.reqs { assert HandedOwn(w, w.reqs[r]); }
    }
  }

  lemma {:induction false} RunKeepsKeys(w: World, es: seq<Event>)
    requires WInv(w) && KeysOk(w)
    ensures KeysOk(Run(w, es))
    decreases |es|
  {
    if es != [] {
      StepKeepsInv(w, es[0]);
      StepKeepsKeys(w, es[0]);
      RunKeepsKeys(Step(w, es[0]), es[1..]);
    }
  }

  // ---- One decision -------------------------------------------------------

  /**
   * A request that holds its session is forwarded exactly if it carries no id,
   * is a DELETE, or carries an id live on that session. A refusal names an id
   * not bound as unbound, a tombstone by its reason, and an id live on another
   * session as reclaimed for a reason unknown; the log tells the request's own
   * subject's session from another subject's. Nothing else changes.
   */
  lemma {:induction false} DecisionIsExact(w: World, r: nat)
    requires Enabled(w, Decide(r))
    ensures var w', rs := Step(w, Decide(r)), w.reqs[r];
      var id, s, after := rs.req.inbound, rs.stage.sess, w'.reqs[r].stage;
      && w' == w.(reqs := w.reqs[r := rs.(stage := after)])
      && (after == Forwarded(s, rs.stage.via) <==>
            id == "" || rs.req.isDelete || (id in w.c.bound && w.c.bound[id] == Live(s)))
      && (after != Forwarded(s, rs.stage.via) ==>
            if id !in w.c.bound then after == Refused(Unbound, SameAsHeader)
            else
              match w.c.bound[id]
              case Tombstone(cause, _) => after == Refused(Reclaimed(cause), SameAsHeader)
              case Live(other) =>
                after == Refused(Reclaimed(Unknown),
                  if w.c.info[other].subject == rs.req.subject then SameAsHeader else CrossSubject))
  {
    var after := Step(w, Decide(r)).reqs[r].stage;
    assert Step(w, Decide(r)).reqs == w.reqs[r := w.reqs[r].(stage := after)];
  }

  // ---- Theorems over whole runs -------------------------------------------

  /**
   * Whatever the interleaving, a request that carries an id and is forwarded
   * (other than a DELETE) reaches the session that minted that very id, which
   * was built under the request's own key; and the session had not been evicted
   * before the request's getOrBuild began unless getOrBuild joined a
   * single-flight call that had already decided its result.
   */
  lemma {:induction false} ForwardedOnlyToMinter(cfg: Config, lag: Time, es: seq<Event>, r: nat)
    requires 0 <= lag
    ensures var w := Run(Start(cfg, lag), es);
      r in w.reqs && w.reqs[r].stage.Forwarded? ==>
        var rs := w.reqs[r];
        && BuiltFor(w, rs.stage.sess, rs.req.key)
        && (rs.req.inbound != "" && !rs.req.isDelete ==>
              && rs.req.inbound in w.minted && w.minted[rs.req.inbound] == rs.stage.sess
              && BuiltFor(w, w.minted[rs.req.inbound], rs.req.key))
        && (rs.stage.via != JoinedLate ==> rs.stage.sess !in rs.goneAtStart)
  {
    RunKeepsInv(Start(cfg, lag), es);
    RunKeepsKeys(Start(cfg, lag), es);
    var w := Run(Start(cfg, lag), es);
    if r in w.reqs {
      assert ReqOk(w, w.reqs[r]);
      assert HandedOwn(w, w.reqs[r]);
    }
  }

  // ---- One id's life ------------------------------------------------------

  /** unminted, live, tombstone, forgotten */
  function Rank(w: World, id: string): nat {
    if id !in w.minted then 0
    else if id !in w.c.bound then 3
    else if w.c.bound[id].Live? then 1 else 2
  }

  /** An id moves forward only, keeps its minter, and a tombstone keeps its reason and time. */
  ghost predicate IdForward(w: World, w': World, id: string) {
    && Rank(w, id) <= Rank(w', id)
    && (id in w.minted ==> id in w'.minted && w'.minted[id] == w.minted[id])
    && (Rank(w, id) == Rank(w', id) == 1 ==> w'.c.bound[id] == w.c.bound[id])
    && (Rank(w, id) == Rank(w', id) == 2 ==> w'.c.bound[id] == w.c.bound[id])
  }

  lemma {:induction false} MintIsForward(w: World, r: nat, minted: string, id: string)
    requires WInv(w) && Enabled(w, Mint(r, minted))
    ensures IdForward(w, Next(w, Mint(r, minted)), id)
  {
    hide Inv, ReqOk, FlightOk, TimeOk;
  }

  /** A step that only takes from the cache and mints nothing moves no id back. */
  lemma {:induction false} LosingIsForward(w: World, w': World, id: string)
    requires CacheAdvances(w, w'.c) && w'.minted == w.minted
    ensures IdForward(w, w', id)
  {
    hide Inv, Evicted;
  }

  lemma {:induction false} OnlyMintMints(w: World, e: Event)
    requires !e.Mint?
    ensures Step(w, e).minted == w.minted
    ensures e.BuildPut? ==> Step(w, e).c.bound == w.c.bound
  {
    hide Get, Reap, InvalidateTenant, CloseAll, MarkDirty, BindTransport, Delivered, Admit, WithStage;
  }

  lemma {:induction false} StepIsForward(w: World, e: Event, id: string)
    requires WInv(w)
    ensures IdForward(w, Step(w, e), id)
  {
    if e.Mint? {
      if Enabled(w, e) { MintIsForward(w, e.r, e.id, id); }
      hide Next, Enabled, WInv;
    } else {
      if !e.BuildPut? { StepAdvances(w, e); }
      OnlyMintMints(w, e);
      hide WInv, Step, CacheAdvances;
      if !e.BuildPut? { LosingIsForward(w, Step(w, e), id); }
    }
  }

  lemma {:induction false} IdMovesForward(w: World, es: seq<Event>, id: string)
    requires WInv(w)
    ensures IdForward(w, Run(w, es), id)
    decreases |es|
  {
    if es != [] {
      StepIsForward(w, es[0], id);
      StepKeepsInv(w, es[0]);
      RunKeepsInv(Step(w, es[0]), es[1..]);
      IdMovesForward(Step(w, es[0]), es[1..], id);
    }
  }

  /** A request is fixed from the start; only its own decision forwards it. */
  lemma {:induction false} RequestStep(w: World, e: Event, r: nat)
    requires r in w.reqs
    ensures r in Step(w, e).reqs && Step(w, e).reqs[r].req == w.reqs[r].req
    ensures e != Decide(r) && Step(w, e).reqs[r].stage.Forwarded? ==> Step(w, e).reqs[r] == w.reqs[r]
  {}

  lemma {:induction false} DeadIdStep(w: World, e: Event, r: nat, id: string)
    requires WInv(w) && Rank(w, id) >= 2 && !ForwardedUnder(w, r, id)
    ensures !ForwardedUnder(Step(w, e), r, id)
  {
    hide Inv, TimeOk, ReqOk, FlightOk;
    if r in w.reqs { RequestStep(w, e, r); }
  }

  /** Once an id has left the live state, no run forwards a request carrying it. */
  lemma {:induction false} DeadIdIsRefused(w: World, es: seq<Event>, r: nat, id: string)
    requires WInv(w) && Rank(w, id) >= 2
    requires r in w.reqs ==> !ForwardedUnder(w, r, id)
    ensures !ForwardedUnder(Run(w, es), r, id)
    decreases |es|
  {
    if es != [] {
      var w' := Step(w, es[0]);
      StepKeepsInv(w, es[0]);
      StepIsForward(w, es[0], id);
      DeadIdStep(w, es[0], r, id);
      DeadIdIsRefused(w', es[1..], r, id);
    }
  }

  ghost predicate ForwardedUnder(w: World, r: nat, id: string) {
    r in w.reqs && w.reqs[r].stage.Forwarded? && w.reqs[r].req.inbound == id && !w.reqs[r].req.isDelete
  }

  // ---- Reaching a reclaimed session ---------------------------------------

  ghost predicate ForwardedTo(w: World, r: nat, s: SessionRef) {
    r in w.reqs && w.reqs[r].stage.Forwarded? && w.reqs[r].stage.sess == s
  }

  /** Request r can no longer be handed the evicted session s. */
  ghost predicate OutOfReach(w: World, r: nat, s: SessionRef) {
    && r in w.reqs && s in Evicted(w.c)
    && match w.reqs[r].stage
       case Missed | Waiting(_) => !(w.reqs[r].req.key in w.flights && w.flights[w.reqs[r].req.key] == Ready(Some(s)))
       case Got(t, _) => t != s
       case Forwarded(t, _) => t != s
       case _ => true
  }

  lemma {:induction false} EvictedStays(w: World, e: Event)
    requires WInv(w)
    ensures Evicted(w.c) <= Evicted(Step(w, e).c)
  {
    if !e.BuildPut? && !e.Mint? { StepAdvances(w, e); }
  }

  /** A flight never newly decides on a session that is already gone. */
  lemma {:induction false} FlightDecidesAlive(w: World, e: Event, key: string, s: SessionRef)
    requires WInv(w) && s in Evicted(w.c)
    requires key in Step(w, e).flights && Step(w, e).flights[key] == Ready(Some(s))
    ensures key in w.flights && w.flights[key] == Ready(Some(s))
  {
    EvictedIsNotCurrent(w.c, key, s);
    if e.BuildPut? {
      hide WInv, Put;
    } else if Enabled(w, e) {
      FlightsKeptAfter(w, e, key);
      hide WInv, Next, Enabled;
    }
  }

  lemma {:induction false} StepStaysOutOfReach(w: World, e: Event, r: nat, s: SessionRef)
    requires WInv(w) && OutOfReach(w, r, s)
    ensures OutOfReach(Step(w, e), r, s)
  {
    EvictedStays(w, e);
    RequestStep(w, e, r);
    var key := w.reqs[r].req.key;
    var w' := Step(w, e);
    if key in w'.flights && w'.flights[key] == Ready(Some(s)) { FlightDecidesAlive(w, e, key, s); }
    StageStep(w, e, r);
  }

  /** A request gets its session from the flight for its key, and keeps it. */
  lemma {:induction false} StageStep(w: World, e: Event, r: nat)
    requires r in w.reqs && r in Step(w, e).reqs
    ensures var was, now := w.reqs[r], Step(w, e).reqs[r];
      match now.stage
      case Missed | Waiting(_) => was.stage.Missed? || was.stage.Waiting?
      case Got(t, _) => was.stage == now.stage ||
        (was.stage.Waiting? && was.req.key in w.flights && w.flights[was.req.key] == Ready(Some(t)))
      case Forwarded(t, via) => was.stage == now.stage || was.stage == Got(t, via)
      case _ => true
  {}

  /** A join is late exactly if the flight it finds for its key has already settled. */
  lemma {:induction false} JoinsLateIff(w: World, r: nat)
    requires Enabled(w, JoinFlight(r))
    ensures var key, was := w.reqs[r].req.key, w.flights;
      var stage := Step(w, JoinFlight(r)).reqs[r].stage;
      && stage.Waiting? && (stage.via == Led <==> key !in was)
      && (stage.via == JoinedLate <==> key in was && exists result :: was[key] == Ready(result))
  {}

  lemma {:induction false} RunStaysOutOfReach(w: World, es: seq<Event>, r: nat, s: SessionRef)
    requires WInv(w) && OutOfReach(w, r, s)
    ensures OutOfReach(Run(w, es), r, s)
    decreases |es|
  {
    if es != [] {
      StepKeepsInv(w, es[0]);
      StepStaysOutOfReach(w, es[0], r, s);
      RunStaysOutOfReach(Step(w, es[0]), es[1..], r, s);
    }
  }

  /** The single-flight call for key has already decided on s, and id is still live on s. */
  ghost predicate StaleFlight(w: World, key: string, id: string, s: SessionRef) {
    key in w.flights && w.flights[key] == Ready(Some(s)) && id in w.c.bound && w.c.bound[id] == Live(s)
  }

  /**
   * A request whose getOrBuild begins after the session that minted its id was
   * evicted can still be forwarded to that session in exactly one situation: a
   * single-flight call for its key is finishing with that very session, and the
   * id was bound after the eviction. In every other world no continuation does it.
   */
  lemma {:induction false} ReclaimedSessionReach(w: World, r: nat, req: Request, now: Time)
    requires WInv(w) && Enabled(w, Begin(r, req, now))
    requires !req.isDelete && req.inbound in w.minted && w.minted[req.inbound] in Evicted(w.c)
    ensures var s := w.minted[req.inbound];
      (exists es :: ForwardedTo(Run(Step(w, Begin(r, req, now)), es), r, s)) <==>
        StaleFlight(w, req.key, req.inbound, s)
  {
    hide Run, ReqOk, TimeOk, Admit, Delivered, Reap, InvalidateTenant, CloseAll, Put, BindTransport, EvictAll;
    var s, e := w.minted[req.inbound], Begin(r, req, now);
    var w' := Step(w, e);
    StepKeepsInv(w, e);
    StepAdvances(w, e);
    StepIsForward(w, e, req.inbound);
    GetIsFresh(w.c, req.key, now);
    if StaleFlight(w, req.key, req.inbound, s) {
      StaleFlightForwards(w, r, req, now);
    } else if Rank(w, req.inbound) >= 2 {
      forall es ensures !ForwardedTo(Run(w', es), r, s) {
        DeadIdIsRefused(w', es, r, req.inbound);
        RequestIsFixed(w', es, r);
      }
    } else {
      forall es ensures !ForwardedTo(Run(w', es), r, s) { RunStaysOutOfReach(w', es, r, s); }
    }
  }

  lemma {:induction false} RequestIsFixed(w: World, es: seq<Event>, r: nat)
    requires r in w.reqs
    ensures r in Run(w, es).reqs && Run(w, es).reqs[r].req == w.reqs[r].req
    decreases |es|
  {
    if es != [] {
      RequestStep(w, es[0], r);
      hide Step;
      RequestIsFixed(Step(w, es[0]), es[1..], r);
    }
  }

  lemma {:induction false} RunExtends(w: World, es: seq<Event>, e: Event)
    ensures Run(w, es + [e]) == Step(Run(w, es), e)
    decreases |es|
  {
    if es == [] {
      assert es + [e] == [e] && [e][1..] == [];
    } else {
      assert (es + [e])[1..] == es[1..] + [e];
      RunExtends(Step(w, es[0]), es[1..], e);
    }
  }

  lemma {:induction false} StaleFlightForwards(w: World, r: nat, req: Request, now: Time)
    requires WInv(w) && Enabled(w, Begin(r, req, now))
    requires !req.isDelete && req.inbound in w.minted && w.minted[req.inbound] in Evicted(w.c)
    requires StaleFlight(w, req.key, req.inbound, w.minted[req.inbound])
    ensures exists es :: ForwardedTo(Run(Step(w, Begin(r, req, now)), es), r, w.minted[req.inbound])
  {
    hide Step, Evicted, ReqOk, TimeOk, MintOk;
    var w0 := Step(w, Begin(r, req, now));
    assert req.key !in w.c.m by {
      assert FlightOk(w.c, req.key, w.flights[req.key]);
      EvictedIsNotCurrent(w.c, req.key, w.minted[req.inbound]);
    }
    StaleFlightSteps(w, r, req, now, w.minted[req.inbound]);
    ThreeSteps(w0, JoinFlight(r), FinishFlight(req.key), Decide(r));
    assert ForwardedTo(Run(w0, [JoinFlight(r), FinishFlight(req.key), Decide(r)]), r, w.minted[req.inbound]);
  }

  lemma {:induction false} EvictedIsNotCurrent(c: Cache, key: string, s: SessionRef)
    requires Inv(c) && s in Evicted(c)
    ensures key in c.m ==> c.m[key] != s
  {}

  lemma {:induction false} StaleFlightSteps(w: World, r: nat, req: Request, now: Time, s: SessionRef)
    requires Enabled(w, Begin(r, req, now)) && req.key !in w.c.m && s in w.c.info
    requires !req.isDelete && StaleFlight(w, req.key, req.inbound, s)
    ensures var w1 := Step(Step(w, Begin(r, req, now)), JoinFlight(r));
      ForwardedTo(Step(Step(w1, FinishFlight(req.key)), Decide(r)), r, s)
  {
    hide Reap, InvalidateTenant, CloseAll, MarkDirty, Put, BindTransport, EvictAll;
    var w1 := Step(Step(w, Begin(r, req, now)), JoinFlight(r));
    assert w1.c == w.c && w1.reqs[r].stage == Waiting(JoinedLate) && w1.reqs[r].req == req && w1.flights == w.flights;
    var w2 := Step(w1, FinishFlight(req.key));
    assert w2.c == w.c && w2.reqs[r].stage == Got(s, JoinedLate) && w2.reqs[r].req == req;
  }

  lemma {:induction false} ThreeSteps(w: World, a: Event, b: Event, c: Event)
    ensures Run(w, [a, b, c]) == Step(Step(Step(w, a), b), c)
  {
    hide Step;
    assert [a, b, c][1..] == [b, c] && [b, c][1..] == [c] && [c][1..] == [];
    assert Run(Step(w, a), [b, c]) == Run(Step(Step(w, a), b), [c]);
    assert Run(Step(Step(w, a), b), [c]) == Run(Step(Step(Step(w, a), b), c), []);
  }
}
