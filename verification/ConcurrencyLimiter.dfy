/** The concurrency cap itself: the slot map and the one-shot release handles are updated in place. */
module ConcurrencyLimiting {
  import opened Options
  import opened LogSampler
  import opened ConcurrencyModel

  /** What acquire hands back; calling it again does nothing. */
  class Release {
    const key: string
    const taken: bool
    var spent: bool

    constructor (key: string, taken: bool)
      ensures this.key == key && this.taken == taken && !spent
    {
      this.key, this.taken, spent := key, taken, false;
    }
  }

  class ConcurrencyLimiter {
    const caps: Caps
    var slots: map<string, Slot>

    constructor (max: int, ttl: real)
      ensures caps == Caps(max, ttl) && slots == map[]
    {
      caps, slots := Caps(max, ttl), map[];
    }

    method AcquireAt(key: string, now: real, sample: bool) returns (release: Release, ok: bool, logRejection: bool)
      modifies this
      ensures (slots, ok, logRejection) == AcquireSlot(caps, old(slots), key, now, sample)
      ensures ok <==> caps.max <= 0 || (if key in old(slots) then old(slots)[key].n else 0) < caps.max
      ensures caps.max <= 0 ==> slots == old(slots) && !logRejection
      ensures fresh(release) && release.key == key && release.taken == (ok && caps.max > 0) && !release.spent
    {
      if caps.max <= 0 {
        release := new Release(key, false);
        return release, true, false;
      }
      if key !in slots {
        slots := slots[key := Slot(0, 0.0, None)];
      }
      var s := slots[key];
      if s.n >= caps.max {
        logRejection := sample && SampleLog(s.lastLogged, now);
        if logRejection {
          slots := slots[key := s.(lastLogged := Some(now))];
        }
        assert slots == old(slots)[key := if sample then s.(lastLogged := Stamp(s.lastLogged, now)) else s];
        release := new Release(key, false);
        return release, false, logRejection;
      }
      slots := slots[key := s.(n := s.n + 1)];
      assert slots == old(slots)[key := SlotOf(old(slots), key).(n := s.n + 1)];
      release := new Release(key, true);
      return release, true, false;
    }

    method CallRelease(r: Release, now: real)
      modifies this, r
      ensures slots == if r.taken && !old(r.spent) then ReleaseSlot(old(slots), r.key, now) else old(slots)
      ensures r.spent == (r.taken || old(r.spent))
    {
      if !r.taken || r.spent { return; }
      r.spent := true;
      if r.key !in slots || slots[r.key].n == 0 { return; }
      var s := slots[r.key];
      s := s.(n := s.n - 1);
      if s.n == 0 {
        s := s.(idleSince := now);
      }
      slots := slots[r.key := s];
    }

    method InFlight(key: string) returns (n: int)
      ensures n == SlotOf(slots, key).n
      ensures n == if key in slots then slots[key].n else 0
    {
      return if key in slots then slots[key].n else 0;
    }

    /** Never drops an entry with a live count. */
    method SweepAt(now: real) returns (removed: nat)
      modifies this
      ensures slots == SweepIdle(caps, old(slots), now) && removed == |old(slots)| - |slots|
      ensures forall k :: k in slots <==>
        k in old(slots) && (old(slots)[k].n > 0 || now - old(slots)[k].idleSince < caps.ttl)
      ensures forall k <- slots :: slots[k] == old(slots)[k]
    {
      var todo := slots.Keys;
      removed := 0;
      while todo != {}
        invariant todo <= slots.Keys <= old(slots).Keys
        invariant forall k <- slots :: slots[k] == old(slots)[k]
        invariant forall k <- old(slots) :: k !in todo ==> (k in slots <==> k in SweepIdle(caps, old(slots), now))
        invariant removed == |old(slots)| - |slots|
      {
        var k :| k in todo;
        if slots[k].n <= 0 && now - slots[k].idleSince >= caps.ttl {
          assert (slots - {k}).Keys == slots.Keys - {k};
          slots := slots - {k};
          removed := removed + 1;
        }
        todo := todo - {k};
      }
    }
  }
}
