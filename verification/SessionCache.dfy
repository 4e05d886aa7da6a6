/**
 * The session cache itself: the key map, the transport-binding index and the
 * session records are fields updated in place, and the eviction loops delete
 * while they range over the map in any order. Each method is proved against
 * the function of SessionModel it carries out.
 */
module SessionCaching {
  import opened Options
  import opened SessionModel
  import opened GatewayRuns

  function Restrict(why: map<string, Cause>, ks: set<string>): map<string, Cause> {
    map k | k in why && k in ks :: why[k]
  }

  lemma {:induction false} VictimsAdd(
        c: Cache, why: map<string, Cause>, k: string, cause: Cause, now: Time, s: SessionRef)
    requires Inv(c) && k in c.m && k !in why && s in c.info
    ensures var c1 := EvictAll(c, why, now);
      && Victim(c, why[k := cause], s) == (Victim(c, why, s) || Victim(c1, map[k := cause], s))
      && (Victim(c1, map[k := cause], s) ==> c.info[s].cacheKey == k && c1.info[s] == c.info[s] && !Victim(c, why, s))
  {
    var c1 := EvictAll(c, why, now);
    assert c1.info[s].cacheKey == c.info[s].cacheKey;
  }

  lemma {:induction false} InfoAdds(c: Cache, why: map<string, Cause>, k: string, cause: Cause, now: Time)
    requires Inv(c) && k in c.m && k !in why
    ensures EvictAll(EvictAll(c, why, now), map[k := cause], now).info == EvictAll(c, why[k := cause], now).info
  {
    hide Victim, RetiredRec, StaleBinding;
    var x, y := EvictAll(EvictAll(c, why, now), map[k := cause], now).info, EvictAll(c, why[k := cause], now).info;
    forall s <- c.info ensures x[s] == y[s] { VictimsAdd(c, why, k, cause, now, s); }
  }

  lemma {:induction false} BoundAdds(c: Cache, why: map<string, Cause>, k: string, cause: Cause, now: Time)
    requires Inv(c) && k in c.m && k !in why
    ensures EvictAll(EvictAll(c, why, now), map[k := cause], now).bound == EvictAll(c, why[k := cause], now).bound
  {
    hide RetiredRec;
    var x, y := EvictAll(EvictAll(c, why, now), map[k := cause], now).bound, EvictAll(c, why[k := cause], now).bound;
    forall id <- c.bound ensures x[id] == y[id] {
      if c.bound[id].Live? { VictimsAdd(c, why, k, cause, now, c.bound[id].sess); }
    }
  }

  lemma {:induction false} MapAdds(c: Cache, why: map<string, Cause>, k: string, cause: Cause, now: Time)
    requires c.TypeOk()
    ensures EvictAll(EvictAll(c, why, now), map[k := cause], now).m == EvictAll(c, why[k := cause], now).m
  {
    hide StaleBinding, Victim, RetiredRec;
    var c1 := EvictAll(c, why, now);
    assert c1.m == c.m - why.Keys;
    assert c1.m - {k} == c.m - why[k := cause].Keys;
  }

  lemma {:induction false} RemoveOne(m: map<string, SessionRef>, k: string)
    requires k in m
    ensures |m - {k}| == |m| - 1
  {
    assert (m - {k}).Keys == m.Keys - {k};
  }

  /** Evicting entries one at a time, in any order, adds up to evicting them at once. */
  lemma {:induction false} EvictOneMore(c: Cache, why: map<string, Cause>, k: string, cause: Cause, now: Time)
    requires Inv(c) && k in c.m && k !in why
    ensures EvictAll(EvictAll(c, why, now), map[k := cause], now) == EvictAll(c, why[k := cause], now)
  {
    InfoAdds(c, why, k, cause, now);
    BoundAdds(c, why, k, cause, now);
    MapAdds(c, why, k, cause, now);
  }

  /** An eviction loop part-way through: the keys in todo have not been visited. */
  function Partly(c: Cache, why: map<string, Cause>, todo: set<string>, now: Time): (r: Cache)
    requires c.TypeOk()
    ensures r.TypeOk()
  {
    EvictAll(c, Restrict(why, c.m.Keys - todo), now)
  }

  lemma {:induction false} PartlyEnds(c: Cache, why: map<string, Cause>, now: Time)
    requires c.TypeOk() && why.Keys <= c.m.Keys
    ensures Partly(c, why, c.m.Keys, now) == c && Partly(c, why, {}, now) == EvictAll(c, why, now)
  {
    assert Restrict(why, c.m.Keys - c.m.Keys) == map[];
    assert EvictAll(c, map[], now).bound == c.bound;
    assert EvictAll(c, map[], now).info == c.info;
    assert Restrict(why, c.m.Keys - {}) == why;
  }

  lemma {:induction false} PartlyUntouched(c: Cache, why: map<string, Cause>, todo: set<string>, now: Time, k: string)
    requires Inv(c) && k in todo && k in c.m
    ensures var r := Partly(c, why, todo, now); k in r.m && r.m[k] == c.m[k] && r.info[r.m[k]] == c.info[c.m[k]]
  {
    assert !Victim(c, Restrict(why, c.m.Keys - todo), c.m[k]);
  }

  lemma {:induction false} PartlyStep(c: Cache, why: map<string, Cause>, todo: set<string>, now: Time, k: string)
    requires Inv(c) && k in todo && todo <= c.m.Keys
    ensures var r, r' := Partly(c, why, todo, now), Partly(c, why, todo - {k}, now);
      if k in why then r' == EvictAll(r, map[k := why[k]], now) else r' == r
  {
    hide EvictAll, Inv;
    var was := Restrict(why, c.m.Keys - todo);
    if k in why {
      EvictOneMore(c, was, k, why[k], now);
      assert Restrict(why, c.m.Keys - (todo - {k})) == was[k := why[k]];
    } else {
      assert Restrict(why, c.m.Keys - (todo - {k})) == was;
    }
  }

  /** What one eviction amounts to, entry by entry. */
  lemma {:induction false} EvictOne(c: Cache, key: string, cause: Cause, now: Time)
    requires Inv(c) && key in c.m
    ensures var s, e := c.m[key], EvictAll(c, map[key := cause], now);
      && e.m == c.m - {key}
      && e.info == c.info[s := RetiredRec(c.info[s])]
      && e.bound == map id <- c.bound ::
           if c.bound[id] == Live(s) && id in c.info[s].transportIDs then Tombstone(cause, now) else c.bound[id]
  {
    var s, e := c.m[key], EvictAll(c, map[key := cause], now);
    assert forall t <- c.info :: Victim(c, map[key := cause], t) <==> t == s;
    assert e.info == c.info[s := RetiredRec(c.info[s])];
  }

  class SessionCache {
    const cfg: Config
    var m: map<string, SessionRef>
    var bound: map<string, Binding>
    var sessions: map<SessionRef, SessionRec>
    var closed: bool

    constructor (cfg: Config)
      ensures Valid() && View() == Empty(cfg)
    {
      this.cfg, m, bound, sessions, closed := cfg, map[], map[], map[], false;
    }

    ghost function View(): Cache
      reads this
    {
      Cache(cfg, m, bound, sessions, closed)
    }

    ghost predicate Valid()
      reads this
    {
      Inv(View())
    }

    /** Tombstones every id bound to s, and no other session's binding. */
    method StaleTransportsLocked(s: SessionRef, cause: Cause, now: Time)
      requires s in sessions
      modifies `bound, `sessions
      ensures sessions == old(sessions)[s := old(sessions)[s].(transportIDs := [])]
      ensures bound == map id <- old(bound) ::
          if old(bound)[id] == Live(s) && id in old(sessions)[s].transportIDs then Tombstone(cause, now)
          else old(bound)[id]
    {
      var ids := sessions[s].transportIDs;
      for i := 0 to |ids|
        invariant sessions == old(sessions)
        invariant bound == map id <- old(bound) ::
            if old(bound)[id] == Live(s) && id in ids[..i] then Tombstone(cause, now) else old(bound)[id]
      {
        assert ids[..i + 1] == ids[..i] + [ids[i]];
        if ids[i] in bound && bound[ids[i]] == Live(s) {
          bound := bound[ids[i] := Tombstone(cause, now)];
        }
      }
      assert ids[..|ids|] == ids;
      sessions := sessions[s := sessions[s].(transportIDs := [])];
    }

    method Close(s: SessionRef)
      requires s in sessions
      modifies `sessions
      ensures sessions == old(sessions)[s := old(sessions)[s].(closes := old(sessions)[s].closes + 1)]
    {
      sessions := sessions[s := sessions[s].(closes := sessions[s].closes + 1)];
    }

    /** One eviction: tombstone, remove, close. */
    method Drop(key: string, cause: Cause, now: Time)
      requires Valid() && key in m
      modifies `m, `bound, `sessions
      ensures Valid() && View() == EvictAll(old(View()), map[key := cause], now) && m == old(m) - {key}
    {
      ghost var c := View();
      var s := m[key];
      StaleTransportsLocked(s, cause, now);
      m := m - {key};
      Close(s);
      EvictOne(c, key, cause, now);
      assert sessions == c.info[s := RetiredRec(c.info[s])];
      assert View() == EvictAll(c, map[key := cause], now);
      EvictAllKeepsInv(c, map[key := cause], now);
    }

    method Get(key: string, now: Time) returns (s: SessionRef, ok: bool)
      requires Valid()
      modifies `m, `bound, `sessions
      ensures Valid() && (View(), if ok then Some(s) else None) == SessionModel.Get(old(View()), key, now)
      ensures ok <==>
        && key in old(m) && !old(sessions)[old(m)[key]].dirty
        && now - old(sessions)[old(m)[key]].builtAt <= cfg.maxAge
        && now - old(sessions)[old(m)[key]].lastSeen <= cfg.ttl
      ensures ok ==> s == old(m)[key] && m == old(m) && bound == old(bound)
      ensures !ok ==> m == old(m) - {key}
      ensures key !in old(m) ==> View() == old(View())
    {
      GetKeepsInv(View(), key, now);
      if key in m { GetDecides(View(), key, now); }
      if key !in m { return 0, false; }
      s := m[key];
      var cause := ReclaimCause(cfg, sessions[s], now);
      if cause.Some? {
        Drop(key, cause.value, now);
        return 0, false;
      }
      sessions := sessions[s := sessions[s].(lastSeen := now)];
      ok := true;
    }

    method Put(key: string, s: SessionRef, rec: SessionRec, now: Time)
      requires Valid() && s !in sessions && rec.closes == 0
      modifies `m, `bound, `sessions
      ensures View() == SessionModel.Put(old(View()), key, s, rec, now)
      ensures Valid() <==> key !in old(m)
    {
      ghost var c := View();
      if closed {
        sessions := sessions[s := rec];
        StaleTransportsLocked(s, ExplicitClose, now);
        Close(s);
        assert bound == c.bound;
        assert sessions == c.info[s := RetiredRec(rec)];
      } else {
        sessions := sessions[s := rec.(lastSeen := now, builtAt := now, cacheKey := key)];
        m := m[key := s];
      }
      PutKeepsInvIff(c, key, s, rec, now);
    }

    method BindTransport(id: string, s: SessionRef)
      requires Valid() && s in sessions
      modifies `bound, `sessions
      ensures Valid() && View() == SessionModel.BindTransport(old(View()), id, s)
    {
      BindKeepsInv(View(), id, s);
      if id == "" || closed || id in bound { return; }
      bound := bound[id := Live(s)];
      sessions := sessions[s := sessions[s].(transportIDs := sessions[s].transportIDs + [id])];
    }

    method LookupTransport(id: string) returns (found: bool, b: Binding)
      ensures (if found then Some(b) else None) == SessionModel.LookupTransport(View(), id)
      ensures found <==> id != "" && id in bound
      ensures found ==> b == bound[id]
    {
      b := Tombstone(Unknown, 0);
      found := id != "" && id in bound;
      if found { b := bound[id]; }
    }

    method MarkDirty(s: SessionRef)
      requires Valid() && s in sessions
      modifies `sessions
      ensures Valid() && View() == SessionModel.MarkDirty(old(View()), s)
    {
      MarkDirtyKeepsInv(View(), s);
      sessions := sessions[s := sessions[s].(dirty := true)];
    }

    method SweepTransportsLocked(now: Time)
      requires View().TypeOk()
      modifies `bound
      ensures View() == SweepTransports(old(View()), now)
    {
      ghost var swept := SweepTransports(View(), now).bound;
      var todo := bound.Keys;
      while todo != {}
        invariant todo <= bound.Keys <= old(bound).Keys
        invariant forall id <- todo :: bound[id] == old(bound)[id]
        invariant forall id :: id !in todo ==> (id in bound <==> id in swept)
        invariant forall id <- bound :: id !in todo ==> bound[id] == swept[id]
      {
        var id :| id in todo;
        match bound[id] {
          case Live(s) =>
            if !(sessions[s].cacheKey in m && m[sessions[s].cacheKey] == s) {
              bound := bound[id := Tombstone(Unknown, now)];
            }
          case Tombstone(_, staleAt) =>
            if now - staleAt > 2 * cfg.maxAge {
              bound := bound - {id};
            }
        }
        todo := todo - {id};
      }
      assert bound.Keys == swept.Keys;
      assert bound == swept;
    }

    method Reap(now: Time)
      requires Valid()
      modifies `m, `bound, `sessions
      ensures Valid() && View() == SessionModel.Reap(old(View()), now)
      ensures forall k :: k in m <==>
        && k in old(m) && !old(sessions)[old(m)[k]].dirty
        && now - old(sessions)[old(m)[k]].builtAt <= cfg.maxAge && now - old(sessions)[old(m)[k]].lastSeen <= cfg.ttl
    {
      forall k { ReapKeepsGood(View(), now, k); }
      ghost var c, why := View(), Expired(View(), now);
      PartlyEnds(c, why, now);
      var todo := m.Keys;
      while todo != {}
        invariant Valid() && todo <= c.m.Keys && View() == Partly(c, why, todo, now)
      {
        var k :| k in todo;
        PartlyUntouched(c, why, todo, now, k);
        PartlyStep(c, why, todo, now, k);
        var cause := ReclaimCause(cfg, sessions[m[k]], now);
        if cause.Some? {
          Drop(k, cause.value, now);
        }
        todo := todo - {k};
      }
      SweepTransportsLocked(now);
      ReapKeepsInv(c, now);
    }

    method InvalidateTenant(tenantID: string, now: Time) returns (n: nat)
      requires Valid()
      modifies `m, `bound, `sessions
      ensures Valid() && View() == SessionModel.InvalidateTenant(old(View()), tenantID, now)
      ensures n == |old(m)| - |m|
    {
      if closed { return 0; }
      ghost var c, why := View(), OfTenant(View(), tenantID);
      PartlyEnds(c, why, now);
      var todo := m.Keys;
      n := 0;
      while todo != {}
        invariant Valid() && todo <= c.m.Keys && View() == Partly(c, why, todo, now)
        invariant n == |old(m)| - |m|
      {
        var k :| k in todo;
        PartlyUntouched(c, why, todo, now, k);
        PartlyStep(c, why, todo, now, k);
        if sessions[m[k]].tenantID == tenantID {
          RemoveOne(m, k);
          Drop(k, EntitlementChange, now);
          n := n + 1;
        }
        todo := todo - {k};
      }
    }

    /** closed is set under the same hold of the mutex as the loop, so the order inside does not show. */
    method CloseAll(now: Time)
      requires Valid()
      modifies `m, `bound, `sessions, `closed
      ensures Valid() && View() == SessionModel.CloseAll(old(View()), now)
    {
      ghost var c := View();
      ghost var why := map k <- c.m :: ExplicitClose;
      PartlyEnds(c, why, now);
      var todo := m.Keys;
      while todo != {}
        invariant Valid() && todo <= c.m.Keys && View() == Partly(c, why, todo, now)
      {
        var k :| k in todo;
        PartlyUntouched(c, why, todo, now, k);
        PartlyStep(c, why, todo, now, k);
        Drop(k, ExplicitClose, now);
        todo := todo - {k};
      }
      closed := true;
      CloseAllKeepsInv(c, now);
    }

    /** What withSession does with a request once it has its session. */
    method WithSession(req: Request, sess: SessionRef) returns (v: Verdict)
      requires Valid() && sess in sessions
      ensures v == Admit(View(), req, sess)
      ensures v == Forward <==>
        req.inbound == "" || req.isDelete || (req.inbound in bound && bound[req.inbound] == Live(sess))
      ensures v != Forward ==>
        if req.inbound !in bound then v == Reject(Unbound, SameAsHeader)
        else
          match bound[req.inbound]
          case Tombstone(cause, _) => v == Reject(Reclaimed(cause), SameAsHeader)
          case Live(s) =>
            v == Reject(Reclaimed(Unknown), if sessions[s].subject == req.subject then SameAsHeader else CrossSubject)
    {
      var known, b := LookupTransport(req.inbound);
      if req.inbound == "" || req.isDelete { return Forward; }
      if !known { return Reject(Unbound, SameAsHeader); }
      match b {
        case Live(s) =>
          if s == sess { return Forward; }
          var logged := SameAsHeader;
          if sessions[s].subject != req.subject { logged := CrossSubject; }
          v := Reject(Reclaimed(Unknown), logged);
        case Tombstone(cause, _) =>
          v := Reject(Reclaimed(cause), SameAsHeader);
      }
    }
  }
}
