/**
 * The keyed rate limiter itself: the bucket map is updated in place, and the
 * sweep and the ceiling's scan range over it in any order.
 */
module RateLimiting {
  import opened Options
  import opened LogSampler
  import opened TokenBucket
  import opened LimiterModel

  /** Part-way through ranging over m: order is what was visited, todo what was not. */
  ghost predicate Ranged(order: seq<string>, m: Buckets, todo: set<string>) {
    && todo <= m.Keys && (forall k :: k in order <==> k in m && k !in todo)
    && forall i, j :: 0 <= i < j < |order| ==> order[i] != order[j]
  }

  lemma {:induction false} RangeOn(order: seq<string>, m: Buckets, todo: set<string>, k: string)
    requires Ranged(order, m, todo) && k in todo
    ensures Ranged(order + [k], m, todo - {k})
    ensures var oldest := ScanOldest(m, order);
      ScanOldest(m, order + [k]) == if oldest == "" || m[k].lastUsed < m[oldest].lastUsed then k else oldest
  {
    assert (order + [k])[..|order|] == order;
  }

  lemma {:induction false} RangedOver(order: seq<string>, m: Buckets)
    requires Ranged(order, m, {})
    ensures IsOrder(order, m)
  {}

  class Limiter {
    const limits: Limits
    var buckets: map<string, Entry>

    constructor (rps: real, burst: int, ttl: real, maxEntries: int)
      ensures limits == Limits(Rate(rps, ClampBurst(burst)), ttl, maxEntries) && limits.rate.burst >= 1
      ensures burst >= 1 ==> limits.rate.burst == burst
      ensures burst < 1 ==> limits.rate.burst == 1
      ensures buckets == map[]
    {
      limits := Limits(Rate(rps, ClampBurst(burst)), ttl, maxEntries);
      buckets := map[];
    }

    /** Makes room for one new key; order is the order the map happened to be ranged over. */
    method EvictIfFullLocked() returns (ghost order: seq<string>)
      modifies this
      ensures IsOrder(order, old(buckets))
      ensures buckets == EvictIfFull(limits, old(buckets), order)
    {
      order := [];
      if limits.maxEntries <= 0 || |buckets| < limits.maxEntries {
        order := AnyScan(buckets);
        return;
      }
      var oldestKey, oldest := "", 0.0;
      var todo := buckets.Keys;
      while todo != {}
        invariant buckets == old(buckets) && Ranged(order, buckets, todo)
        invariant oldestKey == ScanOldest(buckets, order)
        invariant oldestKey != "" ==> oldestKey in buckets && oldest == buckets[oldestKey].lastUsed
      {
        var k :| k in todo;
        RangeOn(order, buckets, todo, k);
        if oldestKey == "" || buckets[k].lastUsed < oldest {
          oldestKey, oldest := k, buckets[k].lastUsed;
        }
        order, todo := order + [k], todo - {k};
      }
      RangedOver(order, buckets);
      buckets := buckets - {oldestKey};
    }

    ghost method AnyScan(m: Buckets) returns (order: seq<string>)
      ensures IsOrder(order, m)
    {
      order := [];
      var todo := m.Keys;
      while todo != {}
        invariant Ranged(order, m, todo)
      {
        var k :| k in todo;
        RangeOn(order, m, todo, k);
        order, todo := order + [k], todo - {k};
      }
      RangedOver(order, m);
    }

    /** The one locked decision behind every allow call. */
    method DecideAt(
          key: string, now: real,
          sample: bool)
      returns (allowed: bool, retryAfter: real, logRejection: bool, ghost order: seq<string>)
      requires limits.rate.burst >= 1
      modifies this
      ensures IsOrder(order, old(buckets)) || key in old(buckets) || limits.rate.rps <= 0.0
      ensures (buckets, Answer(allowed, retryAfter), logRejection) ==
        Decide(limits, old(buckets), key, now, sample, order)
      ensures limits.rate.rps <= 0.0 ==> allowed && retryAfter == 0.0 && !logRejection && buckets == old(buckets)
    {
      order := [];
      if limits.rate.rps <= 0.0 {
        return true, 0.0, false, order;
      }
      ghost var m := Admit(limits, buckets, key, now, order);
      if key !in buckets {
        order := EvictIfFullLocked();
        buckets := buckets[key := Entry(Fresh(limits.rate), now, None)];
        m := buckets;
      }
      var e := buckets[key];
      var (b, ok) := Allow(limits.rate, e.b, now);
      buckets := buckets[key := e.(b := b, lastUsed := now)];
      if ok {
        assert buckets == m[key := Entry(b, now, e.lastLogged)];
        return true, 0.0, false, order;
      }
      logRejection := sample && SampleLog(e.lastLogged, now);
      if logRejection {
        buckets := buckets[key := buckets[key].(lastLogged := Some(now))];
      }
      assert buckets == m[key := Entry(b, now, if sample then Stamp(e.lastLogged, now) else e.lastLogged)];
      var need := 1.0 - TokensAt(limits.rate, b, now);
      if need < 0.0 {
        need := 0.0;
      }
      allowed, retryAfter := false, need / limits.rate.rps;
    }

    method SweepAt(now: real) returns (n: nat)
      modifies this
      ensures buckets == SweepIdle(limits, old(buckets), now) && n == |old(buckets)| - |buckets|
      ensures forall k :: k in buckets <==> k in old(buckets) && now - old(buckets)[k].lastUsed <= limits.ttl
      ensures forall k <- buckets :: buckets[k] == old(buckets)[k]
    {
      var cutoff, todo := now - limits.ttl, buckets.Keys;
      n := 0;
      while todo != {}
        invariant todo <= buckets.Keys <= old(buckets).Keys
        invariant forall k <- buckets :: buckets[k] == old(buckets)[k]
        invariant forall k <- old(buckets) :: k !in todo ==> (k in buckets <==> !(old(buckets)[k].lastUsed < cutoff))
        invariant n == |old(buckets)| - |buckets|
      {
        var k :| k in todo;
        if buckets[k].lastUsed < cutoff {
          assert (buckets - {k}).Keys == buckets.Keys - {k};
          buckets := buckets - {k};
          n := n + 1;
        }
        todo := todo - {k};
      }
    }
  }
}
