/**
 * The rejection-log sampler both limiters share: per key, a line is written for
 * a reported rejection only if none was written within the sampling interval.
 */
module LogSampler {
  import opened Options

  /** One minute, in seconds. */
  const INTERVAL: real := 60.0

  predicate SampleLog(lastLogged: Option<real>, now: real) {
    lastLogged == None || now - lastLogged.value >= INTERVAL
  }

  /** What a caller stores back: now when a line was written, what was there otherwise. */
  function Stamp(lastLogged: Option<real>, now: real): Option<real> {
    if SampleLog(lastLogged, now) then Some(now) else lastLogged
  }

  /** The times of the lines written for reported rejections at times ts. */
  function Lines(lastLogged: Option<real>, ts: seq<real>): seq<real>
    decreases |ts|
  {
    if ts == [] then []
    else (if SampleLog(lastLogged, ts[0]) then [ts[0]] else []) + Lines(Stamp(lastLogged, ts[0]), ts[1..])
  }

  ghost predicate Spaced(ls: seq<real>) {
    forall i :: 0 <= i < |ls| - 1 ==> ls[i + 1] - ls[i] >= INTERVAL
  }

  lemma {:induction false} LinesAreSpaced(last: Option<real>, ts: seq<real>)
    ensures Spaced(Lines(last, ts))
    ensures last.Some? && Lines(last, ts) != [] ==> Lines(last, ts)[0] - last.value >= INTERVAL
    decreases |ts|
  {
    if ts != [] { LinesAreSpaced(Stamp(last, ts[0]), ts[1..]); }
  }

  lemma {:induction false} LinesAreRejections(last: Option<real>, ts: seq<real>, lo: real, hi: real)
    requires forall t <- ts :: lo <= t <= hi
    ensures forall t <- Lines(last, ts) :: lo <= t <= hi
    decreases |ts|
  {
    if ts != [] {
      assert ts[0] in ts;
      assert forall t <- ts[1..] :: t in ts;
      LinesAreRejections(Stamp(last, ts[0]), ts[1..], lo, hi);
    }
  }

  lemma {:induction false} SpacedReach(ls: seq<real>)
    requires Spaced(ls) && ls != []
    ensures ls[|ls| - 1] - ls[0] >= (|ls| - 1) as real * INTERVAL
  {
    if |ls| > 1 {
      SpacedReach(ls[1..]);
      assert ls[1] - ls[0] >= INTERVAL;
    }
  }

  /**
   * However many rejections fall in a window of length hi - lo, at most one line
   * per interval, plus one, is written.
   */
  lemma {:induction false} LinesInWindow(last: Option<real>, ts: seq<real>, lo: real, hi: real)
    requires lo <= hi && forall t <- ts :: lo <= t <= hi
    ensures (|Lines(last, ts)| as real - 1.0) * 60.0 <= hi - lo
  {
    var ls := Lines(last, ts);
    if ls != [] {
      LinesAreSpaced(last, ts);
      LinesAreRejections(last, ts, lo, hi);
      SpacedReach(ls);
      assert ls[0] in ls && ls[|ls| - 1] in ls;
    }
  }

  /** The latest line there is: the last of ls, or the one before them. */
  function Latest(last: Option<real>, ls: seq<real>): Option<real> {
    if ls == [] then last else Some(ls[|ls| - 1])
  }

  /** What is written later depends on what was written before through its latest line only. */
  lemma {:induction false} LinesGoOn(last: Option<real>, a: seq<real>, b: seq<real>)
    ensures Lines(last, a + b) == Lines(last, a) + Lines(Latest(last, Lines(last, a)), b)
    decreases |a|
  {
    if a == [] {
      assert a + b == b;
    } else {
      var next := Stamp(last, a[0]);
      assert (a + b)[1..] == a[1..] + b;
      LinesGoOn(next, a[1..], b);
      assert Latest(last, Lines(last, a)) == Latest(next, Lines(next, a[1..]));
    }
  }

  /**
   * A reported rejection is logged exactly when no line was written before it,
   * or the latest of those is at least an interval old; later rejections take
   * nothing back.
   */
  lemma {:induction false} NoSilentGap(last: Option<real>, ts: seq<real>, i: nat)
    requires i < |ts|
    ensures var before := Lines(last, ts[..i]);
      var latest := Latest(last, before);
      && (Lines(last, ts[..i + 1]) == before + [ts[i]] <==> latest == None || ts[i] - latest.value >= 60.0)
      && (Lines(last, ts[..i + 1]) == before <==> latest != None && ts[i] - latest.value < 60.0)
    ensures Lines(last, ts[..i + 1]) <= Lines(last, ts)
  {
    var before := Lines(last, ts[..i]);
    var latest := Latest(last, before);
    assert ts[..i + 1] == ts[..i] + [ts[i]];
    LinesGoOn(last, ts[..i], [ts[i]]);
    assert Lines(latest, [ts[i]]) == if SampleLog(latest, ts[i]) then [ts[i]] else [];
    assert ts == ts[..i + 1] + ts[i + 1..];
    LinesGoOn(last, ts[..i + 1], ts[i + 1..]);
  }
}
