/**
 * How a session build turns dialled upstreams into routes: which candidate wins
 * a slug, which tools are registered on which connection, and why a call that
 * passes authorization reaches the server that authorized it. Dial outcomes,
 * listing failures and watchdogs are whatever they are.
 */
module SessionBuild {
  import opened Options
  import opened Naming
  import opened Rbac

  datatype Server = Server(id: string, name: string, status: string)

  /**
   * tools is what the upstream listed, listFails whether the listing then failed,
   * severed whether the watchdog had fired.
   */
  datatype DialOutcome =
    | NotConnected(reason: string)
    | Connected(slug: string, serverID: string, tools: seq<string>, listFails: bool, severed: bool)

  /** A registered proxy calls tool over the connection of the candidate numbered conn. */
  datatype Proxy = Proxy(conn: nat, tool: string)

  datatype Build = Build(slugToServer: map<string, string>, upstreams: seq<nat>, registry: map<string, Proxy>)

  /** What dialling guarantees of a connection: its server's id, and its server's non-empty slug. */
  ghost predicate Dialled(cands: seq<Server>, results: seq<DialOutcome>) {
    |results| == |cands| && forall i :: 0 <= i < |results| && results[i].Connected? ==>
      results[i].slug == Slugify(cands[i].name) != "" && results[i].serverID == cands[i].id
  }

  // ---- Candidates and phase 1 ---------------------------------------------

  function Live(servers: seq<Server>, visible: set<string>): seq<Server> {
    if servers == [] then []
    else
      (if servers[0].id in visible && servers[0].status == "active" then [servers[0]] else []) +
      Live(servers[1..], visible)
  }

  method Candidates(servers: seq<Server>, visible: set<string>) returns (out: seq<Server>)
    ensures out == Live(servers, visible)
  {
    out := [];
    for i := 0 to |servers|
      invariant out + Live(servers[i..], visible) == Live(servers, visible)
    {
      assert servers[i..][0] == servers[i] && servers[i..][1..] == servers[i + 1..];
      if servers[i].id !in visible { continue; }
      if servers[i].status != "active" { continue; }
      out := out + [servers[i]];
    }
  }

  /** The candidates are the active servers the caller may see, a later part of the list after an earlier one. */
  lemma {:induction false} LiveIffActiveAndVisible(
        servers: seq<Server>, more: seq<Server>, visible: set<string>, srv: Server)
    ensures srv in Live(servers, visible) <==> srv in servers && srv.id in visible && srv.status == "active"
    ensures Live(servers + more, visible) == Live(servers, visible) + Live(more, visible)
    decreases |servers|
  {
    if servers == [] {
      assert servers + more == more;
    } else {
      LiveIffActiveAndVisible(servers[1..], more, visible, srv);
      assert (servers + more)[1..] == servers[1..] + more;
      assert servers == [servers[0]] + servers[1..];
    }
  }

  /** The i'th candidate's dial ended with this outcome. */
  datatype Ended = Ended(i: nat, outcome: DialOutcome)

  /** Every one of n dials ends, once; in whatever order, and however one's outcome depends on the others'. */
  ghost predicate AllEnd(n: nat, ended: seq<Ended>) {
    && |ended| == n && (forall k :: 0 <= k < n ==> ended[k].i < n)
    && (forall k, l :: 0 <= k < l < n ==> ended[k].i != ended[l].i)
  }

  /** Each dial, as it ends, writes its own place. */
  method DialAll(n: nat, ended: seq<Ended>) returns (results: array<DialOutcome>)
    requires AllEnd(n, ended)
    ensures fresh(results) && results.Length == n
    ensures forall k :: 0 <= k < n ==> results[ended[k].i] == ended[k].outcome
  {
    results := new DialOutcome[n](_ => NotConnected(""));
    for k := 0 to n
      invariant forall l :: 0 <= l < k ==> results[ended[l].i] == ended[l].outcome
    {
      results[ended[k].i] := ended[k].outcome;
    }
  }

  /** results holds what the dials ended with. */
  ghost predicate Gathered(results: seq<DialOutcome>, ended: seq<Ended>) {
    && |results| == |ended|
    && forall k :: 0 <= k < |ended| ==> ended[k].i < |ended| && results[ended[k].i] == ended[k].outcome
  }

  /** n distinct places below n are all of them. */
  lemma {:induction false} EveryPlaceIsWritten(n: nat, ended: seq<Ended>, i: nat) returns (k: nat)
    requires AllEnd(n, ended) && i < n
    ensures k < n && ended[k].i == i
  {
    var seen := PlacesUpTo(ended, n);
    PlacesCount(ended, n);
    assert seen <= Below(n);
    Pigeonhole(seen, Below(n));
    assert i in seen;
    k :| 0 <= k < n && ended[k].i == i;
  }

  function PlacesUpTo(ended: seq<Ended>, n: nat): set<nat>
    requires n <= |ended|
    ensures forall j :: j in PlacesUpTo(ended, n) <==> exists k :: 0 <= k < n && ended[k].i == j
  {
    if n == 0 then {} else PlacesUpTo(ended, n - 1) + {ended[n - 1].i}
  }

  lemma {:induction false} PlacesCount(ended: seq<Ended>, n: nat)
    requires n <= |ended| && forall k, l :: 0 <= k < l < n ==> ended[k].i != ended[l].i
    ensures |PlacesUpTo(ended, n)| == n
  {
    if n > 0 { PlacesCount(ended, n - 1); }
  }

  function Below(n: nat): (s: set<nat>)
    ensures (forall j: nat :: j in s <==> j < n) && |s| == n
  {
    if n == 0 then {} else Below(n - 1) + {n - 1}
  }

  lemma {:induction false} Pigeonhole(a: set<nat>, b: set<nat>)
    requires a <= b && |a| == |b|
    ensures a == b
  {
    assert |b - a| == |b| - |a|;
    assert b == a + (b - a);
  }

  /** The order in which dials end does not show in what phase 2 is given. */
  lemma {:induction false} OrderDoesNotShow(
        ended: seq<Ended>, again: seq<Ended>, results: seq<DialOutcome>, results': seq<DialOutcome>)
    requires AllEnd(|ended|, ended) && Gathered(results, ended) && Gathered(results', again)
    requires multiset(ended) == multiset(again)
    ensures results == results'
  {
    assert |multiset(ended)| == |ended| && |multiset(again)| == |again|;
    forall i: nat | i < |results| ensures results[i] == results'[i] {
      var k := EveryPlaceIsWritten(|ended|, ended, i);
      assert ended[k] in multiset(again);
      var l :| 0 <= l < |again| && again[l] == ended[k];
    }
  }

  // ---- Registering one upstream's tools -----------------------------------

  /** What registration asks: the call is authorized with the connection's own slug and server alone. */
  predicate CallableOn(name: string, slug: string, serverID: string, c: Caller) {
    ToolCallAllowed(name, map[slug := serverID], c)
  }

  function Registered(
        reg: map<string, Proxy>, conn: nat, slug: string, serverID: string, tools: seq<string>,
        c: Caller): map<string, Proxy> {
    if tools == [] then reg
    else
      var front, t := Registered(reg, conn, slug, serverID, tools[..|tools| - 1], c), tools[|tools| - 1];
      if CallableOn(Namespace(slug, t), slug, serverID, c) then front[Namespace(slug, t) := Proxy(conn, t)] else front
  }

  /** n is the proxy name of a listed tool that the caller may call. */
  ghost predicate NamedBy(n: string, r: DialOutcome, tools: seq<string>, c: Caller)
    requires r.Connected?
  {
    CallableOn(n, r.slug, r.serverID, c) && exists t <- tools :: n == Namespace(r.slug, t)
  }

  lemma {:induction false} OneMoreTool(n: string, r: DialOutcome, tools: seq<string>, t: string, c: Caller)
    requires r.Connected?
    ensures NamedBy(n, r, tools + [t], c) <==>
      NamedBy(n, r, tools, c) || (n == Namespace(r.slug, t) && CallableOn(n, r.slug, r.serverID, c))
  {
    hide CallableOn, Namespace;
  }

  lemma {:induction false} OneMoreRegistered(
      reg: map<string, Proxy>, conn: nat, r: DialOutcome, tools: seq<string>, t: string, c: Caller)
    requires r.Connected?
    ensures var front := Registered(reg, conn, r.slug, r.serverID, tools, c);
      Registered(reg, conn, r.slug, r.serverID, tools + [t], c) ==
        if CallableOn(Namespace(r.slug, t), r.slug, r.serverID, c)
        then front[Namespace(r.slug, t) := Proxy(conn, t)] else front
  {
    hide CallableOn, Namespace;
    assert (tools + [t])[..|tools|] == tools;
  }

  /** Adds a proxy for every listed tool the caller is entitled to; a same-named one is replaced. */
  method RegisterProxies(reg: map<string, Proxy>, conn: nat, r: DialOutcome, c: Caller)
    returns (reg': map<string, Proxy>, names: seq<string>, ok: bool)
    requires r.Connected?
    ensures reg' == Registered(reg, conn, r.slug, r.serverID, r.tools, c) && ok == !r.listFails
    ensures ok ==> forall n :: n in names <==> NamedBy(n, r, r.tools, c)
  {
    reg', names := reg, [];
    for i := 0 to |r.tools|
      invariant reg' == Registered(reg, conn, r.slug, r.serverID, r.tools[..i], c)
      invariant forall n :: n in names <==> NamedBy(n, r, r.tools[..i], c)
    {
      hide NamedBy, CallableOn, Namespace, Registered;
      forall n { OneMoreTool(n, r, r.tools[..i], r.tools[i], c); }
      OneMoreRegistered(reg, conn, r, r.tools[..i], r.tools[i], c);
      assert r.tools[..i + 1] == r.tools[..i] + [r.tools[i]];
      var proxyName := Namespace(r.slug, r.tools[i]);
      if !CallableOn(proxyName, r.slug, r.serverID, c) { continue; }
      reg' := reg'[proxyName := Proxy(conn, r.tools[i])];
      names := names + [proxyName];
    }
    assert r.tools[..|r.tools|] == r.tools;
    ok := !r.listFails;
    if !ok { names := []; }
  }

  // ---- Phase 2: one pass in list order ------------------------------------

  function BuildStep(b: Build, i: nat, srv: Server, r: DialOutcome, c: Caller): Build {
    if r.NotConnected? || Slugify(srv.name) in b.slugToServer then b
    else
      var reg := Registered(b.registry, i, r.slug, r.serverID, r.tools, c);
      if r.listFails || r.severed then b.(registry := reg)
      else Build(b.slugToServer[r.slug := srv.id], b.upstreams + [i], reg)
  }

  function BuildUpTo(cands: seq<Server>, results: seq<DialOutcome>, c: Caller, n: nat): Build
    requires n <= |cands| == |results|
  {
    if n == 0 then Build(map[], [], map[])
    else BuildStep(BuildUpTo(cands, results, c, n - 1), n - 1, cands[n - 1], results[n - 1], c)
  }

  method BuildSession(cands: seq<Server>, results: seq<DialOutcome>, c: Caller)
    returns (slugToServer: map<string, string>, upstreams: seq<nat>, registry: map<string, Proxy>)
    requires |cands| == |results|
    ensures Build(slugToServer, upstreams, registry) == BuildUpTo(cands, results, c, |cands|)
  {
    slugToServer, upstreams, registry := map[], [], map[];
    for i := 0 to |results|
      invariant Build(slugToServer, upstreams, registry) == BuildUpTo(cands, results, c, i)
    {
      var r, srv := results[i], cands[i];
      if r.NotConnected? { continue; }
      if Slugify(srv.name) in slugToServer { continue; }
      var reg, _, ok := RegisterProxies(registry, i, r, c);
      registry := reg;
      if !ok { continue; }
      if r.severed { continue; }
      slugToServer := slugToServer[r.slug := srv.id];
      upstreams := upstreams + [i];
    }
  }

  // ---- Who wins -----------------------------------------------------------

  /** The candidate connected, registered its tools and beat its watchdog. */
  predicate Survived(r: DialOutcome) { r.Connected? && !r.listFails && !r.severed }

  /** i is the first candidate in list order, among those with its slug, to survive. */
  ghost predicate FirstSurvivor(results: seq<DialOutcome>, i: nat) {
    i < |results| && Survived(results[i]) &&
    forall j :: 0 <= j < i && Survived(results[j]) ==> results[j].slug != results[i].slug
  }

  /** After n candidates, the slugs that have an owner are those of first survivors, and each owns its own. */
  ghost predicate Owners(cands: seq<Server>, results: seq<DialOutcome>, owners: map<string, string>, n: nat)
    requires n <= |cands| == |results|
  {
    && (forall i: nat :: i < n && FirstSurvivor(results, i) ==>
          results[i].slug in owners && owners[results[i].slug] == cands[i].id)
    && (forall slug <- owners :: exists i: nat :: i < n && FirstSurvivor(results, i) && results[i].slug == slug)
  }

  /** After n candidates, the open upstreams are the first survivors among them, in list order. */
  ghost predicate Opened(results: seq<DialOutcome>, upstreams: seq<nat>, n: nat)
    requires n <= |results|
  {
    && (forall i: nat :: i in upstreams <==> i < n && FirstSurvivor(results, i))
    && (forall p, q :: 0 <= p < q < |upstreams| ==> upstreams[p] < upstreams[q])
  }

  /** A candidate survives first exactly if it survives and finds its slug free. */
  lemma {:induction false} NextWinsIff(
        cands: seq<Server>, results: seq<DialOutcome>, owners: map<string, string>, n: nat)
    requires n < |cands| == |results| && Owners(cands, results, owners, n)
    ensures FirstSurvivor(results, n) <==> Survived(results[n]) && results[n].slug !in owners
  {
    var r := results[n];
    if Survived(r) && r.slug !in owners {
      forall j: nat | j < n && Survived(results[j]) ensures results[j].slug != r.slug {
        if results[j].slug == r.slug {
          var i := FirstWithSlug(results, j);
        }
      }
    }
  }

  /** The owners and open upstreams after n candidates, told from the dial results alone. */
  function Outcome(cands: seq<Server>, results: seq<DialOutcome>, n: nat): (map<string, string>, seq<nat>)
    requires n <= |cands| == |results|
  {
    if n == 0 then (map[], [])
    else
      var (owners, upstreams) := Outcome(cands, results, n - 1);
      if Survived(results[n - 1]) && results[n - 1].slug !in owners
      then (owners[results[n - 1].slug := cands[n - 1].id], upstreams + [n - 1]) else (owners, upstreams)
  }

  lemma {:induction false} BuildHasOutcome(cands: seq<Server>, results: seq<DialOutcome>, c: Caller, n: nat)
    requires Dialled(cands, results) && n <= |cands|
    ensures var b := BuildUpTo(cands, results, c, n); (b.slugToServer, b.upstreams) == Outcome(cands, results, n)
  {
    if n > 0 { BuildHasOutcome(cands, results, c, n - 1); }
  }

  lemma {:induction false} OwnerIsAdded(
        cands: seq<Server>, results: seq<DialOutcome>, owners: map<string, string>, n: nat)
    requires n < |cands| == |results| && Owners(cands, results, owners, n)
    ensures var owners' := if FirstSurvivor(results, n) then owners[results[n].slug := cands[n].id] else owners;
      Owners(cands, results, owners', n + 1)
  {
    NextWinsIff(cands, results, owners, n);
    forall slug <- owners ensures exists i: nat :: i < n + 1 && FirstSurvivor(results, i) && results[i].slug == slug {
      var i: nat :| i < n && FirstSurvivor(results, i) && results[i].slug == slug;
      assert i < n + 1;
    }
  }

  lemma {:induction false} OutcomeIsFirst(cands: seq<Server>, results: seq<DialOutcome>, n: nat)
    requires n <= |cands| == |results|
    ensures Owners(cands, results, Outcome(cands, results, n).0, n) && Opened(results, Outcome(cands, results, n).1, n)
  {
    if n > 0 {
      hide Owners, Opened, FirstSurvivor;
      OutcomeIsFirst(cands, results, n - 1);
      var (owners, upstreams) := Outcome(cands, results, n - 1);
      NextWinsIff(cands, results, owners, n - 1);
      OwnerIsAdded(cands, results, owners, n - 1);
      OpenedGrows(results, upstreams, n - 1);
    }
  }

  /**
   * Whatever order the dials finish in, a slug belongs to the first candidate in
   * list order that connects, registers its tools and beats its watchdog.
   */
  lemma {:induction false} FirstSurvivorWins(cands: seq<Server>, results: seq<DialOutcome>, c: Caller, n: nat)
    requires Dialled(cands, results) && n <= |cands|
    ensures Owners(cands, results, BuildUpTo(cands, results, c, n).slugToServer, n)
    ensures Opened(results, BuildUpTo(cands, results, c, n).upstreams, n)
  {
    BuildHasOutcome(cands, results, c, n);
    OutcomeIsFirst(cands, results, n);
  }

  lemma {:induction false} OpenedGrows(results: seq<DialOutcome>, upstreams: seq<nat>, n: nat)
    requires n < |results| && Opened(results, upstreams, n)
    ensures Opened(results, if FirstSurvivor(results, n) then upstreams + [n] else upstreams, n + 1)
  {
    assert forall p :: 0 <= p < |upstreams| ==> upstreams[p] in upstreams;
  }

  lemma {:induction false} FirstWithSlug(results: seq<DialOutcome>, j: nat) returns (i: nat)
    requires j < |results| && Survived(results[j])
    ensures i <= j && FirstSurvivor(results, i) && results[i].slug == results[j].slug
    decreases j
  {
    if k: nat :| k < j && Survived(results[k]) && results[k].slug == results[j].slug {
      i := FirstWithSlug(results, k);
    } else {
      i := j;
    }
  }

  // ---- Where a call goes --------------------------------------------------

  lemma {:induction false} RegisteredHolds(
        reg: map<string, Proxy>, conn: nat, slug: string, serverID: string, tools: seq<string>, c: Caller, name: string)
    ensures var reg' := Registered(reg, conn, slug, serverID, tools, c);
      if exists t <- tools :: name == Namespace(slug, t) && CallableOn(name, slug, serverID, c)
      then name in reg' && reg'[name].conn == conn && name == Namespace(slug, reg'[name].tool)
           && reg'[name].tool in tools && CallableOn(name, slug, serverID, c)
      else (name in reg' <==> name in reg) && (name in reg ==> reg'[name] == reg[name])
    decreases |tools|
  {
    if tools != [] {
      RegisteredHolds(reg, conn, slug, serverID, tools[..|tools| - 1], c, name);
      assert tools == tools[..|tools| - 1] + [tools[|tools| - 1]];
    }
  }

  /**
   * Every proxy was registered by a connected candidate under its own slug, for a
   * tool it listed and the caller may call there.
   */
  ghost predicate Registrar(results: seq<DialOutcome>, c: Caller, name: string, p: Proxy) {
    && p.conn < |results| && results[p.conn].Connected? && name == Namespace(results[p.conn].slug, p.tool)
    && p.tool in results[p.conn].tools && CallableOn(name, results[p.conn].slug, results[p.conn].serverID, c)
  }

  lemma {:induction false} ProxyIsItsRegistrar(
        cands: seq<Server>, results: seq<DialOutcome>, c: Caller, n: nat, name: string)
    requires Dialled(cands, results) && n <= |cands|
    ensures var reg := BuildUpTo(cands, results, c, n).registry; name in reg ==> Registrar(results, c, name, reg[name])
  {
    if n > 0 {
      ProxyIsItsRegistrar(cands, results, c, n - 1, name);
      var b, r := BuildUpTo(cands, results, c, n - 1), results[n - 1];
      if r.Connected? { RegisteredHolds(b.registry, n - 1, r.slug, r.serverID, r.tools, c, name); }
    }
  }

  lemma {:induction false} SlugOfServerSplits(cands: seq<Server>, results: seq<DialOutcome>, i: nat, tool: string)
    requires Dialled(cands, results) && i < |results| && results[i].Connected?
    ensures Split(Namespace(results[i].slug, tool)) == Some((results[i].slug, tool))
  {
    SlugifyIsCanonical(ToLower(cands[i].name), tool);
  }

  /**
   * Every call that passes authorization and is proxied over a connection the
   * session still holds open goes to the server whose entitlement authorized
   * it, for the very tool it granted, whichever dials failed, registered half
   * their tools, or lost their watchdog race.
   */
  lemma {:induction false} CallsReachTheirAuthorizer(
        cands: seq<Server>, results: seq<DialOutcome>, c: Caller, name: string)
    requires Dialled(cands, results)
    ensures var b := BuildUpTo(cands, results, c, |cands|);
      var auth := ToolCallAuthorization(name, b.slugToServer, c);
      auth.Some? && name in b.registry && b.registry[name].conn in b.upstreams ==>
        && b.registry[name].conn < |results| && results[b.registry[name].conn].Connected?
        && results[b.registry[name].conn].serverID == auth.value.serverID
        && b.registry[name].tool == auth.value.tool
        && exists e <- c.ents ::
             && e.roleID == auth.value.roleID && e.serverID == auth.value.serverID
             && (e.allowedTools == None || auth.value.tool in e.allowedTools.value)
  {
    var b := BuildUpTo(cands, results, c, |cands|);
    if name in b.registry && b.registry[name].conn in b.upstreams {
      var p := b.registry[name];
      ProxyIsItsRegistrar(cands, results, c, |cands|, name);
      FirstSurvivorWins(cands, results, c, |cands|);
      SlugOfServerSplits(cands, results, p.conn, p.tool);
      AuthorizedIff(name, b.slugToServer, c);
    }
  }

  lemma {:induction false} WinnerRegisters(
        cands: seq<Server>, results: seq<DialOutcome>, c: Caller, i: nat, tool: string)
    requires Dialled(cands, results) && i < |cands| && FirstSurvivor(results, i)
    requires tool in results[i].tools
    requires CallableOn(Namespace(results[i].slug, tool), results[i].slug, results[i].serverID, c)
    ensures var reg, name := BuildUpTo(cands, results, c, i + 1).registry, Namespace(results[i].slug, tool);
      name in reg && reg[name] == Proxy(i, tool)
  {
    var r, name := results[i], Namespace(results[i].slug, tool);
    var b, reg := BuildUpTo(cands, results, c, i), BuildUpTo(cands, results, c, i + 1).registry;
    FirstSurvivorWins(cands, results, c, i);
    NextWinsIff(cands, results, b.slugToServer, i);
    RegisteredHolds(b.registry, i, r.slug, r.serverID, r.tools, c, name);
    assert reg == Registered(b.registry, i, r.slug, r.serverID, r.tools, c);
    SlugOfServerSplits(cands, results, i, tool);
    SlugOfServerSplits(cands, results, i, reg[name].tool);
  }

  /** Once a slug has an owner, later candidates leave the registry's names under it alone. */
  lemma {:induction false} OwnedNamesAreKept(
        cands: seq<Server>, results: seq<DialOutcome>, c: Caller, i: nat, n: nat, tool: string)
    requires Dialled(cands, results) && i < n < |cands| && FirstSurvivor(results, i)
    ensures var reg, reg' := BuildUpTo(cands, results, c, n).registry, BuildUpTo(cands, results, c, n + 1).registry;
      var name := Namespace(results[i].slug, tool);
      name in reg ==> name in reg' && reg'[name] == reg[name]
  {
    var b, r, name := BuildUpTo(cands, results, c, n), results[n], Namespace(results[i].slug, tool);
    FirstSurvivorWins(cands, results, c, n);
    if r.Connected? && r.slug != results[i].slug {
      SlugOfServerSplits(cands, results, i, tool);
      forall t <- r.tools ensures Namespace(r.slug, t) != name { SlugOfServerSplits(cands, results, n, t); }
      RegisteredHolds(b.registry, n, r.slug, r.serverID, r.tools, c, name);
    }
  }

  lemma {:induction false} WinnerKeepsItsNames(
        cands: seq<Server>, results: seq<DialOutcome>, c: Caller, i: nat, n: nat, tool: string)
    requires Dialled(cands, results) && i < n <= |cands| && FirstSurvivor(results, i)
    requires tool in results[i].tools
    requires CallableOn(Namespace(results[i].slug, tool), results[i].slug, results[i].serverID, c)
    ensures var reg, name := BuildUpTo(cands, results, c, n).registry, Namespace(results[i].slug, tool);
      name in reg && reg[name] == Proxy(i, tool)
    decreases n
  {
    if i == n - 1 {
      WinnerRegisters(cands, results, c, i, tool);
    } else {
      WinnerKeepsItsNames(cands, results, c, i, n - 1, tool);
      OwnedNamesAreKept(cands, results, c, i, n - 1, tool);
    }
  }

  /**
   * For an open upstream, what tools/list advertises on it is exactly what it
   * listed and tools/call would authorize: one predicate decides both.
   */
  lemma {:induction false} ListedIffCallable(
        cands: seq<Server>, results: seq<DialOutcome>, c: Caller, i: nat, tool: string)
    requires Dialled(cands, results) && i < |results| && results[i].Connected?
    requires i in BuildUpTo(cands, results, c, |cands|).upstreams
    ensures var b := BuildUpTo(cands, results, c, |cands|); var name := Namespace(results[i].slug, tool);
      (name in b.registry && b.registry[name] == Proxy(i, tool)) <==>
        (tool in results[i].tools && ToolCallAllowed(name, b.slugToServer, c))
  {
    var b, name := BuildUpTo(cands, results, c, |cands|), Namespace(results[i].slug, tool);
    FirstSurvivorWins(cands, results, c, |cands|);
    ProxyIsItsRegistrar(cands, results, c, |cands|, name);
    SlugOfServerSplits(cands, results, i, tool);
    AuthorizedIff(name, b.slugToServer, c);
    AuthorizedIff(name, map[results[i].slug := results[i].serverID], c);
    if tool in results[i].tools && ToolCallAllowed(name, b.slugToServer, c) {
      WinnerKeepsItsNames(cands, results, c, i, |cands|, tool);
    }
  }
}
