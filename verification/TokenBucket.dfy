/**
 * One key's token bucket, in exact arithmetic: it starts full, refills
 * continuously and is charged only by an admission.
 */
module TokenBucket {
  datatype Rate = Rate(rps: real, burst: nat) {
    predicate Ok() { rps > 0.0 && burst >= 1 }
  }

  datatype Bucket = Bucket(tokens: real, last: real) {
    predicate Ok(r: Rate) { 0.0 <= tokens <= r.burst as real }
  }

  function Min(x: real, y: real): real { if x <= y then x else y }

  function Fresh(r: Rate): Bucket { Bucket(r.burst as real, 0.0) }

  /** The tokens that accrue between two moments. */
  function Gain(r: Rate, t: real, t': real): real { r.rps * (t' - t) }

  /** A reading before the last admission refills nothing. */
  function TokensAt(r: Rate, b: Bucket, t: real): real {
    Min(r.burst as real, b.tokens + (if t <= b.last then 0.0 else Gain(r, b.last, t)))
  }

  function Allow(r: Rate, b: Bucket, t: real): (Bucket, bool) {
    if TokensAt(r, b, t) >= 1.0 then (Bucket(TokensAt(r, b, t) - 1.0, t), true) else (b, false)
  }

  function RetryAfter(r: Rate, b: Bucket, t: real): real
    requires r.Ok()
  {
    if TokensAt(r, b, t) >= 1.0 then 0.0 else (1.0 - TokensAt(r, b, t)) / r.rps
  }

  lemma {:induction false} GainSplits(r: Rate, t: real, u: real, v: real)
    ensures Gain(r, t, v) == Gain(r, t, u) + Gain(r, u, v) && Gain(r, t, t) == 0.0
  {
    var x, y := u - t, v - u;
    assert r.rps * (x + y) == r.rps * x + r.rps * y;
  }

  lemma {:induction false} GainGrows(r: Rate, t: real, u: real)
    requires r.rps >= 0.0 && t <= u
    ensures Gain(r, t, u) >= 0.0
  {}

  lemma {:induction false} GainStrict(r: Rate, t: real, u: real)
    requires r.rps > 0.0 && t < u
    ensures Gain(r, t, u) > 0.0
  {}

  /** Between two readings a bucket gains up to its capacity exactly the elapsed time's worth. */
  lemma {:induction false} Refill(r: Rate, b: Bucket, t: real, t': real)
    requires r.Ok() && b.last <= t <= t'
    ensures TokensAt(r, b, t') == Min(r.burst as real, TokensAt(r, b, t) + Gain(r, t, t'))
  {
    GainSplits(r, b.last, t, t');
    GainGrows(r, t, t');
    GainGrows(r, b.last, t);
  }

  /**
   * After a rejection at t, a later call with no admission in between succeeds
   * exactly from t plus the returned delay on: a retry at that moment is
   * admitted, and any earlier one is not.
   */
  lemma {:induction false} RetryIsExact(r: Rate, b: Bucket, t: real, t': real)
    requires r.Ok() && b.last <= t <= t' && !Allow(r, b, t).1
    ensures Allow(r, b, t).0 == b
    ensures Allow(r, b, t').1 <==> t' >= t + RetryAfter(r, b, t)
  {
    Refill(r, b, t, t');
    var need := 1.0 - TokensAt(r, b, t);
    var wait := need / r.rps;
    assert r.rps * wait == need;
    GainSplits(r, t, t + wait, t');
    assert Gain(r, t, t + wait) == need by { assert t + wait - t == wait; }
    if t' >= t + wait {
      GainGrows(r, t + wait, t');
    } else {
      GainStrict(r, t', t + wait);
      GainSplits(r, t, t', t + wait);
    }
  }

  /** An admission costs one token at that moment, a rejection nothing. */
  lemma {:induction false} ChargedAt(r: Rate, b: Bucket, t: real)
    ensures TokensAt(r, Allow(r, b, t).0, t) == TokensAt(r, b, t) - (if Allow(r, b, t).1 then 1.0 else 0.0)
  {}

  // ---- How much a window can admit ----------------------------------------

  ghost predicate Ordered(ts: seq<real>) {
    forall i, j :: 0 <= i < j < |ts| ==> ts[i] <= ts[j]
  }

  function Admitted(r: Rate, b: Bucket, ts: seq<real>): nat
    decreases |ts|
  {
    if ts == [] then 0
    else (if Allow(r, b, ts[0]).1 then 1 else 0) + Admitted(r, Allow(r, b, ts[0]).0, ts[1..])
  }

  /** Where the tokens last, every call is admitted, so the bound below is reached. */
  lemma {:induction false} TokensAdmit(r: Rate, b: Bucket, t: real, ts: seq<real>)
    requires |ts| as real <= TokensAt(r, b, t) && forall i :: 0 <= i < |ts| ==> ts[i] == t
    ensures Admitted(r, b, ts) == |ts|
    decreases |ts|
  {
    if ts != [] {
      ChargedAt(r, b, t);
      TokensAdmit(r, Allow(r, b, t).0, t, ts[1..]);
    }
  }

  /** From any moment t0, the calls admitted until t1 number at most the tokens then plus the refill. */
  lemma {:induction false} WindowBound(r: Rate, b: Bucket, ts: seq<real>, t0: real, t1: real)
    requires r.Ok() && b.Ok(r) && b.last <= t0 <= t1
    requires Ordered(ts) && forall t <- ts :: t0 <= t <= t1
    ensures Admitted(r, b, ts) as real <= TokensAt(r, b, t0) + Gain(r, t0, t1)
    decreases |ts|
  {
    GainGrows(r, t0, t1);
    GainGrows(r, b.last, t0);
    if ts != [] {
      var t, b' := ts[0], Allow(r, b, ts[0]).0;
      assert t in ts;
      assert forall u <- ts[1..] :: u in ts && t <= u;
      Refill(r, b, t0, t);
      GainGrows(r, t0, t);
      GainSplits(r, t0, t, t1);
      WindowBound(r, b', ts[1..], t, t1);
    }
  }
}
