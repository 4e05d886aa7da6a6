/**
 * The gateway session cache as a value: what each operation of the cache does
 * to the key map, the transport-binding index and the session records, with
 * every eviction path expressed through one order-free batch step.
 *
 * Sessions are named by a number (their identity); times are nanoseconds.
 */
module SessionModel {
  import opened Options

  type Time = int
  type SessionRef = nat

  datatype Cause = Dirty | MaxAge | IdleTimeout | ExplicitClose | EntitlementChange | Unknown

  /** closes counts how often the session's upstream connections were torn down. */
  datatype SessionRec = SessionRec(
    subject: string, tenantID: string, cacheKey: string,
    builtAt: Time, lastSeen: Time, dirty: bool,
    transportIDs: seq<string>, closes: nat)

  /** A binding is live on one session, or a tombstone keeping only the reason and the time. */
  datatype Binding = Live(sess: SessionRef) | Tombstone(cause: Cause, staleAt: Time)

  datatype Config = Config(ttl: Time, maxAge: Time)

  datatype Cache = Cache(
    cfg: Config,
    m: map<string, SessionRef>,
    bound: map<string, Binding>,
    info: map<SessionRef, SessionRec>,
    closed: bool)
  {
    /** s is the entry the cache holds under its own key. */
    predicate Current(s: SessionRef) {
      s in info && info[s].cacheKey in m && m[info[s].cacheKey] == s
    }

    predicate TypeOk() {
      && (forall k <- m :: m[k] in info)
      && (forall id <- bound :: bound[id].Live? ==> bound[id].sess in info)
    }
  }

  function Empty(cfg: Config): Cache {
    Cache(cfg, map[], map[], map[], false)
  }

  /** The sessions whose connections have been torn down. */
  function Evicted(c: Cache): set<SessionRef> {
    set s <- c.info | c.info[s].closes > 0
  }

  /** First matching rule wins: dirty, then age, then idleness. */
  function ReclaimCause(cfg: Config, s: SessionRec, now: Time): Option<Cause> {
    if s.dirty then Some(Dirty)
    else if now - s.builtAt > cfg.maxAge then Some(MaxAge)
    else if now - s.lastSeen > cfg.ttl then Some(IdleTimeout)
    else None
  }

  function TombstoneHorizon(cfg: Config): Time { 2 * cfg.maxAge }

  // ---- Eviction -----------------------------------------------------------

  /** Whether s is one of the entries named by why. */
  predicate Victim(c: Cache, why: map<string, Cause>, s: SessionRef) {
    c.Current(s) && c.info[s].cacheKey in why
  }

  function StaleBinding(c: Cache, why: map<string, Cause>, now: Time, id: string): Binding
    requires c.TypeOk() && id in c.bound
  {
    match c.bound[id]
    case Live(s) =>
      if Victim(c, why, s) && id in c.info[s].transportIDs
      then Tombstone(why[c.info[s].cacheKey], now) else Live(s)
    case Tombstone(_, _) => c.bound[id]
  }

  function RetiredRec(r: SessionRec): SessionRec {
    r.(transportIDs := [], closes := r.closes + 1)
  }

  /** Evicts every entry named by why at once: tombstones its bindings, removes it, closes it. */
  function EvictAll(c: Cache, why: map<string, Cause>, now: Time): (r: Cache)
    requires c.TypeOk()
    ensures r.TypeOk()
  {
    c.(m := c.m - why.Keys,
       bound := map id <- c.bound :: StaleBinding(c, why, now, id),
       info := map s <- c.info :: if Victim(c, why, s) then RetiredRec(c.info[s]) else c.info[s])
  }

  // ---- Operations ---------------------------------------------------------

  function Get(c: Cache, key: string, now: Time): (r: (Cache, Option<SessionRef>))
    requires c.TypeOk()
    ensures r.0.TypeOk()
    ensures r.1.Some? ==> r.1.value in r.0.info
  {
    if key !in c.m then (c, None)
    else
      var s := c.m[key];
      match ReclaimCause(c.cfg, c.info[s], now)
      case Some(cause) => (EvictAll(c, map[key := cause], now), None)
      case None => (c.(info := c.info[s := c.info[s].(lastSeen := now)]), Some(s))
  }

  /** Inserts the session just built, or closes it at once when the cache is already closed. */
  function Put(c: Cache, key: string, s: SessionRef, rec: SessionRec, now: Time): (r: Cache)
    requires c.TypeOk() && s !in c.info
    ensures r.TypeOk()
  {
    if c.closed then c.(info := c.info[s := RetiredRec(rec)])
    else c.(m := c.m[key := s],
            info := c.info[s := rec.(cacheKey := key, builtAt := now, lastSeen := now)])
  }

  function BindTransport(c: Cache, id: string, s: SessionRef): (r: Cache)
    requires c.TypeOk() && s in c.info
    ensures r.TypeOk()
  {
    if id == "" || c.closed || id in c.bound then c
    else c.(bound := c.bound[id := Live(s)],
            info := c.info[s := c.info[s].(transportIDs := c.info[s].transportIDs + [id])])
  }

  function LookupTransport(c: Cache, id: string): Option<Binding> {
    if id != "" && id in c.bound then Some(c.bound[id]) else None
  }

  function MarkDirty(c: Cache, s: SessionRef): (r: Cache)
    requires c.TypeOk() && s in c.info
    ensures r.TypeOk()
  {
    c.(info := c.info[s := c.info[s].(dirty := true)])
  }

  /** Tombstones the bindings no current entry owns, and forgets tombstones past the horizon. */
  function SweepTransports(c: Cache, now: Time): (r: Cache)
    requires c.TypeOk()
    ensures r.TypeOk()
  {
    c.(bound := map id | id in c.bound &&
                  !(c.bound[id].Tombstone? && now - c.bound[id].staleAt > TombstoneHorizon(c.cfg))
         :: if c.bound[id].Live? && !c.Current(c.bound[id].sess) then Tombstone(Unknown, now) else c.bound[id])
  }

  function Expired(c: Cache, now: Time): map<string, Cause>
    requires c.TypeOk()
  {
    map k | k in c.m && ReclaimCause(c.cfg, c.info[c.m[k]], now).Some?
      :: ReclaimCause(c.cfg, c.info[c.m[k]], now).value
  }

  function Reap(c: Cache, now: Time): (r: Cache)
    requires c.TypeOk()
    ensures r.TypeOk()
  {
    SweepTransports(EvictAll(c, Expired(c, now), now), now)
  }

  function OfTenant(c: Cache, tenantID: string): map<string, Cause>
    requires c.TypeOk()
  {
    map k | k in c.m && c.info[c.m[k]].tenantID == tenantID :: EntitlementChange
  }

  function InvalidateTenant(c: Cache, tenantID: string, now: Time): (r: Cache)
    requires c.TypeOk()
    ensures r.TypeOk()
  {
    if c.closed then c else EvictAll(c, OfTenant(c, tenantID), now)
  }

  function CloseAll(c: Cache, now: Time): (r: Cache)
    requires c.TypeOk()
    ensures r.TypeOk()
  {
    EvictAll(c, map k <- c.m :: ExplicitClose, now).(closed := true)
  }

  // ---- What every operation keeps -----------------------------------------

  /**
   * The invariant of the three linked structures: an entry knows its own key, a
   * session is held exactly while it has not been closed and is closed at most
   * once, a live binding is listed by the session it names, and a closed cache
   * holds nothing.
   */
  ghost predicate Inv(c: Cache) {
    && c.TypeOk()
    && (forall k <- c.m :: c.info[c.m[k]].cacheKey == k)
    && (forall s <- c.info :: c.info[s].closes <= 1 && (c.info[s].closes == 0 <==> c.Current(s)))
    && (forall id <- c.bound :: c.bound[id].Live? ==> id in c.info[c.bound[id].sess].transportIDs)
    && (c.closed ==> c.m == map[])
  }

  lemma {:induction false} EvictAllKeepsInv(c: Cache, why: map<string, Cause>, now: Time)
    requires Inv(c)
    ensures Inv(EvictAll(c, why, now))
  {
    var r := EvictAll(c, why, now);
    forall s <- r.info ensures r.info[s].closes == 0 <==> r.Current(s) {
      assert r.info[s].cacheKey == c.info[s].cacheKey;
    }
  }

  lemma {:induction false} GetKeepsInv(c: Cache, key: string, now: Time)
    requires Inv(c)
    ensures Inv(Get(c, key, now).0)
  {
    if key in c.m {
      match ReclaimCause(c.cfg, c.info[c.m[key]], now)
      case Some(cause) => EvictAllKeepsInv(c, map[key := cause], now);
      case None =>
        var r := Get(c, key, now).0;
        assert forall s <- r.info :: r.Current(s) == c.Current(s);
    }
  }

  /**
   * An insertion keeps the invariant exactly into an empty place; over a live
   * entry it would lose that entry unclosed.
   */
  lemma {:induction false} PutKeepsInvIff(c: Cache, key: string, s: SessionRef, rec: SessionRec, now: Time)
    requires Inv(c) && s !in c.info && rec.closes == 0
    ensures Inv(Put(c, key, s, rec, now)) <==> key !in c.m
  {
    var r := Put(c, key, s, rec, now);
    if key in c.m {
      var lost := c.m[key];
      assert r.info[lost].closes == 0 && !r.Current(lost);
    } else {
      forall t <- r.info ensures r.info[t].closes <= 1 && (r.info[t].closes == 0 <==> r.Current(t)) {
        if t != s { assert r.info[t] == c.info[t]; }
      }
    }
  }

  lemma {:induction false} BindKeepsInv(c: Cache, id: string, s: SessionRef)
    requires Inv(c) && s in c.info
    ensures Inv(BindTransport(c, id, s))
  {
    var r := BindTransport(c, id, s);
    assert forall t <- r.info :: r.Current(t) == c.Current(t);
  }

  lemma {:induction false} MarkDirtyKeepsInv(c: Cache, s: SessionRef)
    requires Inv(c) && s in c.info
    ensures Inv(MarkDirty(c, s))
  {
    var r := MarkDirty(c, s);
    assert forall t <- r.info :: r.Current(t) == c.Current(t);
  }

  lemma {:induction false} ReapKeepsInv(c: Cache, now: Time)
    requires Inv(c)
    ensures Inv(Reap(c, now))
  {
    EvictAllKeepsInv(c, Expired(c, now), now);
    var e := EvictAll(c, Expired(c, now), now);
    assert forall t <- e.info :: Reap(c, now).Current(t) == e.Current(t);
  }

  lemma {:induction false} InvalidateKeepsInv(c: Cache, tenantID: string, now: Time)
    requires Inv(c)
    ensures Inv(InvalidateTenant(c, tenantID, now))
  {
    if !c.closed { EvictAllKeepsInv(c, OfTenant(c, tenantID), now); }
  }

  lemma {:induction false} CloseAllKeepsInv(c: Cache, now: Time)
    requires Inv(c)
    ensures Inv(CloseAll(c, now))
  {
    var why := map k <- c.m :: ExplicitClose;
    var e := EvictAll(c, why, now);
    EvictAllKeepsInv(c, why, now);
    assert e.m == map[];
    assert forall s <- e.info :: CloseAll(c, now).Current(s) == e.Current(s);
  }

  // ---- What the operations mean -------------------------------------------

  /** Every eviction path leaves exactly the named entries closed and everything else as it was. */
  lemma {:induction false} EvictionIsExact(c: Cache, why: map<string, Cause>, now: Time, s: SessionRef)
    requires Inv(c) && s in c.info
    ensures var r := EvictAll(c, why, now);
      if c.info[s].closes == 0 && c.info[s].cacheKey in why
      then s in Evicted(r) && !r.Current(s) && forall id <- r.bound ::
             && r.bound[id] != Live(s)
             && (c.bound[id] == Live(s) ==> r.bound[id] == Tombstone(why[c.info[s].cacheKey], now))
      else r.info[s] == c.info[s] && r.Current(s) == c.Current(s) &&
           forall id <- c.bound :: c.bound[id] == Live(s) ==> r.bound[id] == Live(s)
  {
    var r := EvictAll(c, why, now);
    assert r.info[s].cacheKey == c.info[s].cacheKey;
    if c.info[s].closes == 0 && c.info[s].cacheKey in why {
      assert Victim(c, why, s);
      forall id <- r.bound
        ensures r.bound[id] != Live(s)
        ensures c.bound[id] == Live(s) ==> r.bound[id] == Tombstone(why[c.info[s].cacheKey], now)
      {
        if c.bound[id] == Live(s) { assert id in c.info[s].transportIDs; }
      }
    }
  }

  /** Get hands out what its key holds exactly if that is clean and within both ceilings, and stamps this use. */
  lemma {:induction false} GetIsFresh(c: Cache, key: string, now: Time)
    requires Inv(c)
    ensures var (r, got) := Get(c, key, now);
      match got
      case Some(s) =>
        && c.m[key] == s && r.m == c.m && r.bound == c.bound && s !in Evicted(r)
        && !c.info[s].dirty && now - c.info[s].builtAt <= c.cfg.maxAge && now - c.info[s].lastSeen <= c.cfg.ttl
        && r.info[s].lastSeen == now
      case None =>
        && key !in r.m
        && (key in c.m ==> c.m[key] in Evicted(r))
        && (key in c.m ==>
              var rec := c.info[c.m[key]];
              rec.dirty || now - rec.builtAt > c.cfg.maxAge || now - rec.lastSeen > c.cfg.ttl)
  {
    var r := Get(c, key, now).0;
    if key in c.m {
      var s := c.m[key];
      assert c.Current(s) && c.info[s].closes == 0;
      if ReclaimCause(c.cfg, c.info[s], now).Some? {
        EvictionIsExact(c, map[key := ReclaimCause(c.cfg, c.info[s], now).value], now, s);
      }
    }
  }

  lemma {:induction false} SweepSettles(c: Cache, now: Time)
    requires c.TypeOk()
    ensures var r := SweepTransports(c, now);
      && (forall id :: id in r.bound <==>
            id in c.bound && !(c.bound[id].Tombstone? && now - c.bound[id].staleAt > 2 * c.cfg.maxAge))
      && (forall id <- r.bound :: c.bound[id].Tombstone? ==> r.bound[id] == c.bound[id])
      && (forall id <- r.bound | c.bound[id].Live? ::
            r.bound[id] == if c.Current(c.bound[id].sess) then c.bound[id] else Tombstone(Unknown, now))
      && r.m == c.m && r.info == c.info
  {}

  /**
   * Get hands out the session its key holds exactly while that is clean and
   * within both ceilings, and then only stamps it. Any other is closed and its
   * key emptied, and each id live on it keeps the reason, the first that applies
   * of dirty, age and idleness; no other session or id changes.
   */
  lemma {:induction false} GetDecides(c: Cache, key: string, now: Time)
    requires Inv(c) && key in c.m
    ensures var (r, got) := Get(c, key, now);
      var s := c.m[key];
      var rec := c.info[s];
      if !rec.dirty && now - rec.builtAt <= c.cfg.maxAge && now - rec.lastSeen <= c.cfg.ttl
      then got == Some(s) && r == c.(info := c.info[s := rec.(lastSeen := now)])
      else
        && got == None && r.m == c.m - {key} && s in Evicted(r)
        && (forall t <- c.info :: t != s ==> t in r.info && r.info[t] == c.info[t])
        && r.bound == map id <- c.bound ::
             if c.bound[id] != Live(s) then c.bound[id]
             else Tombstone(if rec.dirty then Dirty else if now - rec.builtAt > c.cfg.maxAge then MaxAge
                            else IdleTimeout, now)
  {
    var s := c.m[key];
    assert c.Current(s);
    if ReclaimCause(c.cfg, c.info[s], now).Some? {
      var why := map[key := ReclaimCause(c.cfg, c.info[s], now).value];
      var e := EvictAll(c, why, now);
      assert forall t <- c.info :: Victim(c, why, t) <==> t == s;
      assert e.info[s].closes == c.info[s].closes + 1;
    }
  }

  /**
   * A session inserted at one moment is what get hands out for its key at any
   * later one up to both ceilings, counted from the insertion, and no longer;
   * into a closed cache it is not inserted but closed.
   */
  lemma {:induction false} PutThenGet(c: Cache, key: string, s: SessionRef, rec: SessionRec, now: Time, later: Time)
    requires Inv(c) && key !in c.m && s !in c.info && rec.closes == 0 && !rec.dirty
    ensures var r := Put(c, key, s, rec, now);
      && (Get(r, key, later).1 == Some(s) <==> !c.closed && later - now <= c.cfg.maxAge && later - now <= c.cfg.ttl)
      && (c.closed ==> s in Evicted(r) && r.m == c.m)
      && r.bound == c.bound && forall k <- c.m :: k in r.m && r.m[k] == c.m[k]
  {
    PutKeepsInvIff(c, key, s, rec, now);
    var r := Put(c, key, s, rec, now);
    if c.closed { assert r.info[s].closes == 1; } else { GetDecides(r, key, later); }
  }

  /** A session flagged dirty is refused at its next use, with that reason on every id live on it. */
  lemma {:induction false} DirtyIsRefused(c: Cache, s: SessionRef, key: string, now: Time)
    requires Inv(c) && s in c.info
    ensures var marked := MarkDirty(c, s);
      var (r, got) := Get(marked, key, now);
      if key in c.m && c.m[key] == s
      then got == None && key !in r.m && s in Evicted(r) &&
           forall id <- c.bound :: c.bound[id] == Live(s) ==> id in r.bound && r.bound[id] == Tombstone(Dirty, now)
      else got == Get(c, key, now).1 && marked.m == c.m && marked.bound == c.bound
  {
    MarkDirtyKeepsInv(c, s);
    if key in c.m {
      GetDecides(c, key, now);
      GetDecides(MarkDirty(c, s), key, now);
    }
  }

  /** Binding shows in lookup, once: a known id, the empty id and any id of a closed cache stay as they were. */
  lemma {:induction false} BindThenLookup(c: Cache, id: string, s: SessionRef, other: string)
    requires c.TypeOk() && s in c.info
    ensures LookupTransport(BindTransport(c, id, s), other) ==
      if other == "" then None
      else if other in c.bound then Some(c.bound[other])
      else if other == id && !c.closed then Some(Live(s))
      else None
  {}

  /** Dropping a tenant closes exactly its own sessions, with that reason on their ids; every other is left alone. */
  lemma {:induction false} InvalidationIsExact(c: Cache, tenantID: string, now: Time, s: SessionRef)
    requires Inv(c) && s in c.info
    ensures var r := InvalidateTenant(c, tenantID, now);
      if c.info[s].closes == 0 && c.info[s].tenantID == tenantID
      then s in Evicted(r) && !r.Current(s) &&
           forall id <- c.bound :: c.bound[id] == Live(s) ==>
             id in r.bound && r.bound[id] == Tombstone(EntitlementChange, now)
      else s in r.info && r.info[s] == c.info[s] && r.Current(s) == c.Current(s) &&
           forall id <- c.bound :: c.bound[id] == Live(s) ==> id in r.bound && r.bound[id] == Live(s)
    ensures var r := InvalidateTenant(c, tenantID, now); forall id <- c.bound | c.bound[id].Tombstone? ::
      id in r.bound && r.bound[id] == c.bound[id]
  {
    if !c.closed {
      EvictionIsExact(c, OfTenant(c, tenantID), now, s);
    }
  }

  /** Shutdown closes every session still open, with that reason on its ids, and empties the cache for good. */
  lemma {:induction false} ShutdownIsExact(c: Cache, now: Time, s: SessionRef)
    requires Inv(c) && s in c.info
    ensures var r := CloseAll(c, now);
      && r.closed && r.m == map[] && s in Evicted(r)
      && (c.info[s].closes == 0 ==> forall id <- c.bound :: c.bound[id] == Live(s) ==>
            id in r.bound && r.bound[id] == Tombstone(ExplicitClose, now))
      && (c.info[s].closes > 0 ==> r.info[s] == c.info[s])
      && forall id <- c.bound | c.bound[id].Tombstone? :: id in r.bound && r.bound[id] == c.bound[id]
  {
    EvictionIsExact(c, map k <- c.m :: ExplicitClose, now, s);
    assert c.m - c.m.Keys == map[];
  }

  /**
   * A reap keeps exactly the entries that are clean and within both ceilings,
   * their records untouched and their ids live. Any other session is closed, and
   * each id live on it keeps the reason: dirty, age or idleness, the first that
   * applies.
   */
  lemma {:induction false} ReapDecides(c: Cache, now: Time, k: string)
    requires Inv(c) && k in c.m
    ensures var r, s := Reap(c, now), c.m[k];
      var rec := c.info[s];
      if !rec.dirty && now - rec.builtAt <= c.cfg.maxAge && now - rec.lastSeen <= c.cfg.ttl
      then k in r.m && r.m[k] == s && s in r.info && r.info[s] == rec &&
           forall id <- c.bound :: c.bound[id] == Live(s) ==> id in r.bound && r.bound[id] == Live(s)
      else k !in r.m && s in Evicted(r) &&
           forall id <- c.bound | c.bound[id] == Live(s) ::
             && (id in r.bound <==> 0 <= c.cfg.maxAge)
             && (id in r.bound ==>
                   r.bound[id] == Tombstone(if rec.dirty then Dirty
                     else if now - rec.builtAt > c.cfg.maxAge then MaxAge else IdleTimeout, now))
  {
    var s := c.m[k];
    assert c.Current(s) && c.info[s].closes == 0;
    assert k in Expired(c, now) ==> Expired(c, now)[k] == ReclaimCause(c.cfg, c.info[s], now).value;
    EvictionIsExact(c, Expired(c, now), now, s);
    var e := EvictAll(c, Expired(c, now), now);
    SweepSettles(e, now);
    assert k in e.m <==> k !in Expired(c, now);
  }

  /** The entries a reap leaves are exactly those that are clean and within both ceilings. */
  lemma {:induction false} ReapKeepsGood(c: Cache, now: Time, k: string)
    requires Inv(c)
    ensures var m := Reap(c, now).m;
      k in m <==>
        && k in c.m && !c.info[c.m[k]].dirty
        && now - c.info[c.m[k]].builtAt <= c.cfg.maxAge && now - c.info[c.m[k]].lastSeen <= c.cfg.ttl
  {
    assert Reap(c, now).m == c.m - Expired(c, now).Keys;
    if k in c.m { ReapDecides(c, now, k); }
  }

  lemma {:induction false} EvictionKeepsIds(c: Cache, why: map<string, Cause>, now: Time)
    requires c.TypeOk()
    ensures var e := EvictAll(c, why, now);
      && e.cfg == c.cfg && e.bound.Keys == c.bound.Keys
      && forall id <- c.bound :: e.bound[id] == c.bound[id] ||
           (c.bound[id].Live? && e.bound[id].Tombstone? && e.bound[id].staleAt == now)
  {}

  lemma {:induction false} ReapSettlesIds(c: Cache, now: Time)
    requires c.TypeOk() && 0 <= c.cfg.maxAge
    ensures var r := Reap(c, now);
      && (forall id :: id in r.bound <==>
            id in c.bound && !(c.bound[id].Tombstone? && now - c.bound[id].staleAt > 2 * c.cfg.maxAge))
      && (forall id <- r.bound :: c.bound[id].Tombstone? ==> r.bound[id] == c.bound[id])
      && (forall id <- r.bound :: r.bound[id].Live? ==> r.bound[id] == c.bound[id] && r.Current(r.bound[id].sess))
  {
    hide SweepTransports, Expired, EvictAll;
    EvictionKeepsIds(c, Expired(c, now), now);
    SweepSettles(EvictAll(c, Expired(c, now), now), now);
  }

  /**
   * After a reap, an id is still known exactly if it was known and was not a
   * tombstone past the horizon, every remaining live binding names the session
   * its key holds, and the entries left are exactly those still within the rules.
   */
  lemma {:induction false} ReapSettles(c: Cache, now: Time)
    requires Inv(c) && 0 <= c.cfg.maxAge
    ensures var r := Reap(c, now);
      && (forall id :: id in r.bound <==>
            id in c.bound && !(c.bound[id].Tombstone? && now - c.bound[id].staleAt > 2 * c.cfg.maxAge))
      && (forall id <- r.bound :: c.bound[id].Tombstone? ==> r.bound[id] == c.bound[id])
      && (forall id <- r.bound :: r.bound[id].Live? ==> r.bound[id] == c.bound[id] && r.Current(r.bound[id].sess))
    ensures forall k :: k in Reap(c, now).m <==>
      && k in c.m && !c.info[c.m[k]].dirty
      && now - c.info[c.m[k]].builtAt <= c.cfg.maxAge && now - c.info[c.m[k]].lastSeen <= c.cfg.ttl
  {
    hide Reap;
    ReapSettlesIds(c, now);
    forall k { ReapKeepsGood(c, now, k); }
  }
}
