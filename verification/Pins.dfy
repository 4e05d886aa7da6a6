/**
 * Version pins, from the clamp on the server to the client's account of what it
 * got. A pin is clamped into the servable window, never obeyed.
 */
module Pins {
  import opened Options
  import opened PinWire

  /** Why a pin was not honoured; None when it was, or when there was none. The last two are the client's own. */
  datatype Override = NotOverridden | Floor | Pruned | Ahead | Unsupported | Unknown

  datatype Resolution = Resolution(served: int, oldest: int, reason: Override)

  function Max(a: int, b: int): int { if a >= b then a else b }

  function Min(a: int, b: int): int { if a <= b then a else b }

  /** A pin of 0 or less is no pin. */
  function PinResolve(pin: int, floor: int, minNum: int, maxNum: int): Resolution {
    var low := Max(floor, minNum);
    if pin <= 0 then Resolution(maxNum, low, NotOverridden)
    else
      var served := Min(Max(pin, low), maxNum);
      Resolution(served, low,
        if served == pin then NotOverridden
        else if pin > maxNum then Ahead
        else if floor > minNum then Floor
        else Pruned)
  }

  /**
   * Of the revisions no older than the floor or the oldest one stored, up to the
   * latest, the one served lies between the pin and any other; without a pin, or
   * with no such revision, it is the latest.
   */
  lemma {:induction false} ClampServesNearest(pin: int, floor: int, minNum: int, maxNum: int, other: int)
    ensures var r := PinResolve(pin, floor, minNum, maxNum);
      && r.oldest >= floor && r.oldest >= minNum && (r.oldest == floor || r.oldest == minNum)
      && (pin > 0 && floor <= other && minNum <= other && other <= maxNum ==>
            && floor <= r.served && minNum <= r.served && r.served <= maxNum
            && (pin <= r.served <= other || other <= r.served <= pin))
      && (pin <= 0 || floor > maxNum || minNum > maxNum ==> r.served == maxNum)
      && (pin <= 0 ==> r.reason == NotOverridden)
  {}

  /** A pin is honoured exactly when it lies in the advertised window, or is the latest with the window empty. */
  lemma {:induction false} HonouredIff(pin: int, floor: int, minNum: int, maxNum: int)
    requires pin > 0
    ensures var r := PinResolve(pin, floor, minNum, maxNum);
      && (r.reason == NotOverridden <==> r.served == pin)
      && (r.reason == NotOverridden <==> pin <= maxNum && (r.oldest <= pin || pin == maxNum))
      && (r.reason == Ahead <==> pin > maxNum)
  {}

  /**
   * The reason names the bound that binds. Where it says pruned, no lower floor
   * would change what is served; where it says floor, a lower one would, exactly
   * if more than one revision survives.
   */
  lemma {:induction false} ReasonNamesBindingBound(pin: int, floor: int, minNum: int, maxNum: int)
    requires pin > 0
    ensures var r := PinResolve(pin, floor, minNum, maxNum);
      && (r.reason == Pruned ==>
            forall lower: int :: lower <= floor ==> PinResolve(pin, lower, minNum, maxNum).served == r.served)
      && (r.reason == Floor ==>
            (minNum < maxNum <==>
               exists lower: int :: lower <= floor && PinResolve(pin, lower, minNum, maxNum).served != r.served))
  {
    var r := PinResolve(pin, floor, minNum, maxNum);
    if r.reason == Floor && minNum < maxNum {
      assert PinResolve(pin, minNum, minNum, maxNum).served != r.served;
    }
  }

  /**
   * The condition matters: with revision 3 the only survivor and the floor above
   * it, pin 2 is answered "floor", and no floor at all would serve anything else.
   */
  lemma {:induction false} FloorReasonMisleads()
    ensures PinResolve(2, 5, 3, 3) == Resolution(3, 5, Floor)
    ensures forall lower: int :: lower <= 5 ==> PinResolve(2, lower, 3, 3).served == 3
  {}

  /** With the floor above latest revision 3 the window is empty, and a pin on 3 is still honoured. */
  lemma {:induction false} LatestHonouredBelowFloor()
    ensures PinResolve(3, 5, 1, 3) == Resolution(3, 5, NotOverridden)
  {}

  // ---- What one artifact is served ----------------------------------------

  /** What an approval froze: identity, content and memory. */
  datatype Snapshot = Snapshot(typ: string, name: string, content: string, memoryScope: string, memorySeed: string)

  /** An entitled artifact's live row: its approved snapshot is revision number latest. */
  datatype Artifact = Artifact(id: string, approved: Snapshot, floor: int, oldest: int, latest: int)

  datatype Key = Key(artifactID: string, revision: int)

  /** Stored revisions, and how a snapshot is rendered to a file. */
  type Rows = map<Key, Snapshot>
  type Render = Snapshot -> string

  datatype Choice = Choice(source: Snapshot, revision: int, override: Override)

  function ResolvePayload(a: Artifact, res: Resolution, payloads: Rows): Choice {
    if res.served >= a.latest then Choice(a.approved, a.latest, res.reason)
    else if Key(a.id, res.served) in payloads then Choice(payloads[Key(a.id, res.served)], res.served, res.reason)
    else Choice(a.approved, a.latest, Pruned)
  }

  method ResolveSyncPayload(a: Artifact, res: Resolution, payloads: Rows)
    returns (source: Snapshot, revision: int, override: Override)
    ensures Choice(source, revision, override) == ResolvePayload(a, res, payloads)
  {
    source := a.approved;
    revision, override := a.latest, res.reason;
    if res.served < a.latest {
      if Key(a.id, res.served) in payloads {
        source := payloads[Key(a.id, res.served)];
        revision := res.served;
      } else {
        override := Pruned;
      }
    }
  }

  function PinFor(pins: map<string, int>, id: string): int { if id in pins then pins[id] else 0 }

  function ResolveFor(pins: map<string, int>, a: Artifact): Resolution {
    PinResolve(PinFor(pins, a.id), a.floor, a.oldest, a.latest)
  }

  // ---- The whole response -------------------------------------------------

  datatype Served = Served(
    id: string, revision: int, typ: string, name: string, content: string,
    memoryScope: string, memorySeed: string, oldestServable: int, latest: int, override: Override)

  /** A memory seed goes out only with a user- or project-scope subagent. */
  predicate SeedIsDelivered(s: Snapshot) {
    s.typ == "subagent" && s.memorySeed != "" && (s.memoryScope == "user" || s.memoryScope == "project")
  }

  /** The window and the override are told only where pinning is supported. */
  function Dto(a: Artifact, res: Resolution, c: Choice, pinning: bool, render: Render): Served {
    Served(a.id, c.revision, c.source.typ, c.source.name, render(c.source),
      if SeedIsDelivered(c.source) then c.source.memoryScope else "",
      if SeedIsDelivered(c.source) then c.source.memorySeed else "",
      if pinning then res.oldest else 0, if pinning then a.latest else 0, if pinning then c.override else NotOverridden)
  }

  /** What the request is answered for one artifact, from the stored revisions. */
  function Answer(pins: map<string, int>, a: Artifact, stored: Rows, pinning: bool, render: Render): Served {
    Dto(a, ResolveFor(pins, a), ResolvePayload(a, ResolveFor(pins, a), stored), pinning, render)
  }

  const MAX_GRANT_NAMES := 50

  datatype Counts = Counts(pinned: nat, overridden: nat, names: seq<string>, truncated: bool)

  function Add(c: Counts, hasPin: bool, override: Override, name: string): Counts {
    var pinned := if hasPin then c.pinned + 1 else c.pinned;
    if override == NotOverridden then c.(pinned := pinned)
    else if |c.names| < MAX_GRANT_NAMES then Counts(pinned, c.overridden + 1, c.names + [name], c.truncated)
    else Counts(pinned, c.overridden + 1, c.names, true)
  }

  class AuditCounts {
    var pinned: nat
    var overridden: nat
    var names: seq<string>
    var truncated: bool

    constructor ()
      ensures Value() == Counts(0, 0, [], false)
    { pinned, overridden, names, truncated := 0, 0, [], false; }

    function Value(): Counts
      reads this
    { Counts(pinned, overridden, names, truncated) }

    method AddOne(hasPin: bool, reason: Override, override: Override, name: string)
      modifies this
      ensures Value() == Add(old(Value()), hasPin, override, name)
    {
      if hasPin { pinned := pinned + 1; }
      if override != NotOverridden {
        overridden := overridden + 1;
        if |names| < MAX_GRANT_NAMES {
          names := names + [name];
        } else {
          truncated := true;
        }
      }
    }
  }

  function CountsOf(pins: map<string, int>, arts: seq<Artifact>, stored: Rows): Counts {
    if arts == [] then Counts(0, 0, [], false)
    else
      var a := arts[|arts| - 1];
      Add(CountsOf(pins, arts[..|arts| - 1], stored), PinFor(pins, a.id) > 0,
        ResolvePayload(a, ResolveFor(pins, a), stored).override, a.approved.name)
  }

  /** One batched read: the rows stored under the keys asked for. */
  function Fetch(stored: Rows, keys: seq<Key>): Rows {
    map k | k in keys && k in stored :: stored[k]
  }

  /**
   * Windows are resolved for every artifact first, then every pinned payload is
   * read at once, then the response is built; the result is the same as if each
   * artifact had been answered on its own.
   */
  method HandleSyncArtifacts(pinning: bool, query: seq<string>, arts: seq<Artifact>, stored: Rows, render: Render)
    returns (r: Result<seq<Served>>, counts: Counts)
    ensures r.Err? <==> pinning && (|query| > MAX_PINS || ReadPins(query).Err?)
    ensures r.Ok? ==>
      var pins := if pinning then ReadPins(query).value else map[];
      && |r.value| == |arts|
      && (forall i :: 0 <= i < |arts| ==> r.value[i] == Answer(pins, arts[i], stored, pinning, render))
      && counts == CountsOf(pins, arts, stored)
  {
    counts := Counts(0, 0, [], false);
    var pins: map<string, int> := map[];
    if pinning {
      var parsed := ParsePins(query);
      if parsed.Err? { return Err(parsed.error), counts; }
      pins := parsed.value;
    }
    var res, keys := Resolve(pins, arts);
    var payloads := map[];
    if |keys| > 0 { payloads := Fetch(stored, keys); }
    var out := Respond(pinning, pins, arts, res, payloads, stored, render);
    counts := out.1;
    r := Ok(out.0);
  }

  method Respond(pinning: bool, pins: map<string, int>, arts: seq<Artifact>, res: seq<Resolution>,
      payloads: Rows, ghost stored: Rows, render: Render)
    returns (out: (seq<Served>, Counts))
    requires |res| == |arts| && forall i :: 0 <= i < |arts| ==> res[i] == ResolveFor(pins, arts[i])
    requires forall i :: 0 <= i < |arts| ==>
      ResolvePayload(arts[i], res[i], payloads) == ResolvePayload(arts[i], res[i], stored)
    ensures |out.0| == |arts|
    ensures forall i :: 0 <= i < |arts| ==> out.0[i] == Answer(pins, arts[i], stored, pinning, render)
    ensures out.1 == CountsOf(pins, arts, stored)
  {
    hide ResolvePayload, ResolveFor, Dto, Add;
    var dtos: seq<Served> := [];
    var audit := new AuditCounts();
    for i := 0 to |arts|
      invariant |dtos| == i && forall j :: 0 <= j < i ==> dtos[j] == Answer(pins, arts[j], stored, pinning, render)
      invariant audit.Value() == CountsOf(pins, arts[..i], stored)
    {
      assert arts[..i + 1][..i] == arts[..i];
      var a := arts[i];
      var source, revision, override := ResolveSyncPayload(a, res[i], payloads);
      assert Choice(source, revision, override) == ResolvePayload(a, ResolveFor(pins, a), stored);
      var dto := Dto(a, res[i], Choice(source, revision, override), pinning, render);
      assert dto == Answer(pins, a, stored, pinning, render);
      dtos := dtos + [dto];
      audit.AddOne(PinFor(pins, a.id) > 0, res[i].reason, override, a.approved.name);
    }
    assert arts[..|arts|] == arts;
    out := (dtos, audit.Value());
  }

  method Resolve(pins: map<string, int>, arts: seq<Artifact>) returns (res: seq<Resolution>, keys: seq<Key>)
    ensures |res| == |arts| && forall i :: 0 <= i < |arts| ==> res[i] == ResolveFor(pins, arts[i])
    ensures forall i :: 0 <= i < |arts| && res[i].served < arts[i].latest ==> Key(arts[i].id, res[i].served) in keys
  {
    res, keys := [], [];
    for i := 0 to |arts|
      invariant |res| == i && forall j :: 0 <= j < i ==> res[j] == ResolveFor(pins, arts[j])
      invariant forall j :: 0 <= j < i && res[j].served < arts[j].latest ==> Key(arts[j].id, res[j].served) in keys
    {
      var a := arts[i];
      res := res + [PinResolve(PinFor(pins, a.id), a.floor, a.oldest, a.latest)];
      if res[i].served < a.latest {
        keys := keys + [Key(a.id, res[i].served)];
      }
    }
  }

  // ---- The audit counts ---------------------------------------------------

  /** The names, in order, of the artifacts served with an override. */
  function OverriddenNames(pins: map<string, int>, arts: seq<Artifact>, stored: Rows): seq<string> {
    if arts == [] then []
    else
      var a := arts[|arts| - 1];
      OverriddenNames(pins, arts[..|arts| - 1], stored) +
        if ResolvePayload(a, ResolveFor(pins, a), stored).override != NotOverridden then [a.approved.name] else []
  }

  function PinnedCount(pins: map<string, int>, arts: seq<Artifact>): nat {
    if arts == [] then 0
    else PinnedCount(pins, arts[..|arts| - 1]) + if PinFor(pins, arts[|arts| - 1].id) > 0 then 1 else 0
  }

  /** The counts are exact; only the list of names is capped, and truncated says exactly whether it was. */
  lemma {:induction false} CountsAreExact(pins: map<string, int>, arts: seq<Artifact>, stored: Rows)
    ensures var c, names := CountsOf(pins, arts, stored), OverriddenNames(pins, arts, stored);
      && c.pinned == PinnedCount(pins, arts) && c.overridden == |names|
      && c.names == names[..if |names| < 50 then |names| else 50] && (c.truncated <==> |names| > 50)
  {
    if arts != [] {
      var front := arts[..|arts| - 1];
      CountsAreExact(pins, front, stored);
      var before, names := OverriddenNames(pins, front, stored), OverriddenNames(pins, arts, stored);
      assert before == names[..|before|];
    }
  }

  // ---- The client's account -----------------------------------------------

  datatype Outcome = Outcome(name: string, requested: int, got: int, reason: Override)

  function Label(p: Pin): string { p.typ + "/" + p.name }

  function ByID(served: seq<Served>): map<string, Served> {
    if served == [] then map[]
    else ByID(served[..|served| - 1])[served[|served| - 1].id := served[|served| - 1]]
  }

  method IndexByID(served: seq<Served>) returns (byID: map<string, Served>)
    ensures byID == ByID(served)
  {
    byID := map[];
    for i := 0 to |served|
      invariant byID == ByID(served[..i])
    {
      assert served[..i + 1][..i] == served[..i];
      byID := byID[served[i].id := served[i]];
    }
    assert served[..|served|] == served;
  }

  function ReasonFor(s: Served, forced: Override): Override { if forced == NotOverridden then s.override else forced }

  function Outcomes(pins: seq<Pin>, byID: map<string, Served>, forced: Override): seq<Outcome> {
    if pins == [] then []
    else
      var p := pins[|pins| - 1];
      Outcomes(pins[..|pins| - 1], byID, forced) +
        if p.artifactID in byID && ReasonFor(byID[p.artifactID], forced) != NotOverridden
        then [Outcome(Label(p), p.revision, byID[p.artifactID].revision, ReasonFor(byID[p.artifactID], forced))] else []
  }

  method PinOutcomes(pins: seq<Pin>, served: seq<Served>, forced: Override) returns (out: seq<Outcome>)
    ensures out == Outcomes(pins, ByID(served), forced)
  {
    var byID := IndexByID(served);
    out := [];
    for i := 0 to |pins|
      invariant out == Outcomes(pins[..i], byID, forced)
    {
      assert pins[..i + 1][..i] == pins[..i];
      var p := pins[i];
      if p.artifactID !in byID { continue; }
      var reason := forced;
      if reason == NotOverridden { reason := byID[p.artifactID].override; }
      if reason == NotOverridden { continue; }
      out := out + [Outcome(Label(p), p.revision, byID[p.artifactID].revision, reason)];
    }
    assert pins[..|pins|] == pins;
  }

  /** The artifacts the client reports as held by a pin. */
  function Reported(pins: seq<Pin>, byID: map<string, Served>): set<string> {
    if pins == [] then {}
    else
      var p := pins[|pins| - 1];
      Reported(pins[..|pins| - 1], byID) +
        if p.artifactID in byID && byID[p.artifactID].override == NotOverridden then {byID[p.artifactID].id} else {}
  }

  method ReportedPinned(pins: seq<Pin>, served: seq<Served>, supported: bool) returns (out: set<string>)
    ensures out == if supported then Reported(pins, ByID(served)) else {}
    ensures supported ==> forall id :: id in out <==>
      && id in ByID(served) && ByID(served)[id].override == NotOverridden
      && exists i :: 0 <= i < |pins| && pins[i].artifactID == id
  {
    forall id { ReportedHolds(pins, served, id); }
    out := {};
    if !supported || |pins| == 0 { return; }
    var byID := IndexByID(served);
    for i := 0 to |pins|
      invariant out == Reported(pins[..i], byID)
    {
      assert pins[..i + 1][..i] == pins[..i];
      var p := pins[i];
      if p.artifactID !in byID || byID[p.artifactID].override != NotOverridden { continue; }
      out := out + {byID[p.artifactID].id};
    }
    assert pins[..|pins|] == pins;
  }

  /** Reported exactly if served, not overridden, and named by a pin. */
  lemma {:induction false} ReportedHolds(pins: seq<Pin>, served: seq<Served>, id: string)
    ensures id in Reported(pins, ByID(served)) <==>
      && id in ByID(served) && ByID(served)[id].override == NotOverridden
      && exists i :: 0 <= i < |pins| && pins[i].artifactID == id
    decreases |pins|
  {
    ByIDKeepsID(served);
    if pins != [] {
      var front, last := pins[..|pins| - 1], |pins| - 1;
      ReportedHolds(front, served, id);
      assert forall i :: 0 <= i < last ==> front[i] == pins[i];
    }
  }

  lemma {:induction false} ByIDKeepsID(served: seq<Served>)
    ensures forall id <- ByID(served) :: ByID(served)[id].id == id && ByID(served)[id] in served
  {
    if served != [] { ByIDKeepsID(served[..|served| - 1]); }
  }

  lemma {:induction false} ByIDFinds(served: seq<Served>, i: nat)
    requires i < |served| && forall j, k :: 0 <= j < k < |served| ==> served[j].id != served[k].id
    ensures served[i].id in ByID(served) && ByID(served)[served[i].id] == served[i]
    decreases |served|
  {
    if i < |served| - 1 { ByIDFinds(served[..|served| - 1], i); }
  }

  /** o is what is said of p: its artifact is served, under a reason that is the forced one if there is one. */
  predicate ListedAs(p: Pin, byID: map<string, Served>, forced: Override, o: Outcome) {
    && p.artifactID in byID
    && o.name == p.typ + "/" + p.name && o.requested == p.revision && o.got == byID[p.artifactID].revision
    && o.reason != NotOverridden
    && if forced == NotOverridden then o.reason == byID[p.artifactID].override else o.reason == forced
  }

  /** The list holds what each held pin's artifact says of it, and nothing else. */
  lemma {:induction false} OutcomesHold(pins: seq<Pin>, byID: map<string, Served>, forced: Override, o: Outcome)
    ensures o in Outcomes(pins, byID, forced) <==> exists i :: 0 <= i < |pins| && ListedAs(pins[i], byID, forced, o)
  {
    if pins != [] {
      var front, last := pins[..|pins| - 1], |pins| - 1;
      OutcomesHold(front, byID, forced, o);
      assert forall i :: 0 <= i < last ==> front[i] == pins[i];
    }
  }

  // ---- End to end ---------------------------------------------------------

  /** The snapshot that a revision number names: the approved one for the latest, a stored row for any other. */
  function RevisionOf(a: Artifact, stored: Rows, revision: int): Option<Snapshot> {
    if revision == a.latest then Some(a.approved)
    else if Key(a.id, revision) in stored then Some(stored[Key(a.id, revision)])
    else None
  }

  /** What goes out comes from the revision whose number goes with it. */
  ghost predicate FromItsRevision(s: Served, a: Artifact, stored: Rows, render: Render) {
    && s.id == a.id && RevisionOf(a, stored, s.revision).Some?
    && var source := RevisionOf(a, stored, s.revision).value;
      && s.typ == source.typ && s.name == source.name && s.content == render(source)
      && if source.typ == "subagent" && (source.memoryScope == "user" || source.memoryScope == "project")
         then
           s.memorySeed == source.memorySeed &&
           s.memoryScope == if s.memorySeed == "" then "" else source.memoryScope
         else s.memorySeed == "" && s.memoryScope == ""
  }

  /**
   * What is sent comes from the revision named with it, a seed and its scope with
   * a user- or project-scope subagent only. With pinning the window goes out, and
   * no override exactly if the pin was served; a pinned row that has gone is
   * answered with the latest, as pruned. Without pinning it is the latest and no more.
   */
  lemma {:induction false} AnswerIsTrue(
      pins: map<string, int>, a: Artifact, stored: Rows, pinning: bool, render: Render)
    ensures var s := Answer(pins, a, stored, pinning, render);
      && FromItsRevision(s, a, stored, render)
      && (a.id !in pins || pins[a.id] <= 0 ==> s.override == NotOverridden && s.revision == a.latest)
      && (if pinning
          then s.latest == a.latest && s.oldestServable == (if a.floor >= a.oldest then a.floor else a.oldest)
          else s.latest == 0 && s.oldestServable == 0 && s.override == NotOverridden)
    ensures var s := Answer(pins, a, stored, true, render);
      a.id in pins && pins[a.id] > 0 ==>
        && (s.override == NotOverridden <==> s.revision == pins[a.id])
        && (s.revision == a.latest || Key(a.id, s.revision) in stored)
        && (s.oldestServable <= pins[a.id] < a.latest ==>
              if Key(a.id, pins[a.id]) in stored then s.revision == pins[a.id]
              else s.revision == a.latest && s.override == Pruned)
  {}

  ghost predicate AnsweredFrom(
      served: seq<Served>, pins: map<string, int>, arts: seq<Artifact>, stored: Rows, render: Render)
  {
    |served| == |arts| && forall i :: 0 <= i < |arts| ==> served[i] == Answer(pins, arts[i], stored, true, render)
  }

  ghost predicate DistinctIDs(arts: seq<Artifact>) { forall i, j :: 0 <= i < j < |arts| ==> arts[i].id != arts[j].id }

  lemma {:induction false} AnswersFound(
      served: seq<Served>, pins: map<string, int>, arts: seq<Artifact>, stored: Rows, render: Render, a: nat)
    requires AnsweredFrom(served, pins, arts, stored, render) && DistinctIDs(arts) && a < |arts|
    ensures arts[a].id in ByID(served) && ByID(served)[arts[a].id] == served[a]
  {
    assert forall i :: 0 <= i < |arts| ==> served[i].id == arts[i].id;
    ByIDFinds(served, a);
  }

  /**
   * Pins are truthful end to end. For a pin the client holds on an artifact that
   * is served, the client reports it pinned exactly when the revision served is
   * the one requested, and otherwise lists it as overridden with the revision it
   * got, even when the payload had gone between the two reads.
   */
  lemma {:induction false} PinsAreTruthful(
      pins: seq<Pin>, sent: map<string, int>, arts: seq<Artifact>, stored: Rows, render: Render,
      served: seq<Served>, p: nat, a: nat)
    requires WellFormed(pins) && ReadPins(WriteEach(pins)) == Ok(sent)
    requires AnsweredFrom(served, sent, arts, stored, render) && DistinctIDs(arts)
    requires p < |pins| && a < |arts| && pins[p].artifactID == arts[a].id
    ensures FromItsRevision(served[a], arts[a], stored, render)
    ensures arts[a].id in ByID(served) && ByID(served)[arts[a].id] == served[a]
    ensures served[a].override == NotOverridden <==> served[a].revision == pins[p].revision
    ensures arts[a].id in Reported(pins, ByID(served)) <==> served[a].revision == pins[p].revision
    ensures var o := Outcome(Label(pins[p]), pins[p].revision, served[a].revision, served[a].override);
      o in Outcomes(pins, ByID(served), NotOverridden) <==> served[a].revision != pins[p].revision
  {
    ServerReadsWhatClientWrote(pins);
    AnswersFound(served, sent, arts, stored, render, a);
    AnswerIsTrue(sent, arts[a], stored, true, render);
    hide Answer, FromItsRevision;
    ReportedHolds(pins, served, arts[a].id);
    var o := Outcome(Label(pins[p]), pins[p].revision, served[a].revision, served[a].override);
    OutcomesHold(pins, ByID(served), NotOverridden, o);
    assert served[a].override != NotOverridden ==> ListedAs(pins[p], ByID(served), NotOverridden, o);
  }

  /**
   * A server that cannot pin, or cannot be asked, is accounted for by one forced
   * reason: every held pin on an artifact it serves is listed with that reason
   * and the revision it got, and nothing else is listed.
   */
  lemma {:induction false} ForcedReasonListsAll(
      pins: seq<Pin>, served: seq<Served>, forced: Override, p: nat, s: nat, o: Outcome)
    requires forced != NotOverridden && p < |pins| && s < |served| && pins[p].artifactID == served[s].id
    requires forall i, j :: 0 <= i < j < |served| ==> served[i].id != served[j].id
    ensures Outcome(pins[p].typ + "/" + pins[p].name, pins[p].revision, served[s].revision, forced)
      in Outcomes(pins, ByID(served), forced)
    ensures o in Outcomes(pins, ByID(served), forced) ==> o.reason == forced && exists i, j ::
      && 0 <= i < |pins| && 0 <= j < |served| && pins[i].artifactID == served[j].id
      && o.name == pins[i].typ + "/" + pins[i].name && o.requested == pins[i].revision && o.got == served[j].revision
  {
    ByIDFinds(served, s);
    ByIDKeepsID(served);
    var it := Outcome(pins[p].typ + "/" + pins[p].name, pins[p].revision, served[s].revision, forced);
    assert ListedAs(pins[p], ByID(served), forced, it);
    OutcomesHold(pins, ByID(served), forced, it);
    OutcomesHold(pins, ByID(served), forced, o);
    if o in Outcomes(pins, ByID(served), forced) {
      var i :| 0 <= i < |pins| && ListedAs(pins[i], ByID(served), forced, o);
      var found := ByID(served)[pins[i].artifactID];
      var j :| 0 <= j < |served| && served[j] == found;
    }
  }
}
