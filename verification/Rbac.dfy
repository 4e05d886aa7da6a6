/** Per-call authorization over a session's entitlements, and a virtual key's narrowing of them. */
module Rbac {
  import opened Options
  import opened Naming

  /** allowedTools is None for every tool on the server. */
  datatype Entitlement = Entitlement(roleID: string, serverID: string, allowedTools: Option<seq<string>>)

  datatype Authorized = Authorized(serverID: string, tool: string, roleID: string)

  /** keyID is empty for a human; keyNarrow holds namespaced tool ids, None for no narrowing. */
  datatype Caller = Caller(ents: seq<Entitlement>, keyID: string, keyNarrow: Option<seq<string>>)

  predicate Grants(e: Entitlement, serverID: string, tool: string) {
    e.serverID == serverID && (e.allowedTools == None || tool in e.allowedTools.value)
  }

  /** r is the first entitlement, in order, that grants the tool. */
  ghost predicate IsFirstGrant(ents: seq<Entitlement>, serverID: string, tool: string, r: Option<Entitlement>) {
    && (r == None <==> forall e <- ents :: !Grants(e, serverID, tool))
    && (r.Some? ==> exists i: nat ::
          && i < |ents| && ents[i] == r.value && Grants(ents[i], serverID, tool)
          && forall j :: 0 <= j < i ==> !Grants(ents[j], serverID, tool))
  }

  lemma {:induction false} FirstGrantOfRest(
        ents: seq<Entitlement>, serverID: string, tool: string, r: Option<Entitlement>)
    requires ents != [] && !Grants(ents[0], serverID, tool) && IsFirstGrant(ents[1..], serverID, tool, r)
    ensures IsFirstGrant(ents, serverID, tool, r)
  {
    hide Grants;
    assert forall e <- ents :: e == ents[0] || e in ents[1..];
    if r.Some? {
      var i: nat :| i < |ents[1..]| && ents[1..][i] == r.value && Grants(ents[1..][i], serverID, tool)
        && forall j :: 0 <= j < i ==> !Grants(ents[1..][j], serverID, tool);
      assert ents[i + 1] == r.value;
      forall j | 0 <= j < i + 1 ensures !Grants(ents[j], serverID, tool) {
        if j > 0 { assert ents[j] == ents[1..][j - 1]; }
      }
    }
  }

  function AuthorizingEntitlement(ents: seq<Entitlement>, serverID: string, tool: string): (r: Option<Entitlement>)
    ensures r == None <==>
      !exists e <- ents :: e.serverID == serverID && (e.allowedTools == None || tool in e.allowedTools.value)
    ensures r.Some? ==> exists i: nat ::
      && i < |ents| && ents[i] == r.value
      && ents[i].serverID == serverID && (ents[i].allowedTools == None || tool in ents[i].allowedTools.value)
      && forall j :: 0 <= j < i ==>
           ents[j].serverID != serverID || (ents[j].allowedTools.Some? && tool !in ents[j].allowedTools.value)
  {
    if ents == [] then None
    else if Grants(ents[0], serverID, tool) then Some(ents[0])
    else
      var r := AuthorizingEntitlement(ents[1..], serverID, tool);
      FirstGrantOfRest(ents, serverID, tool, r);
      r
  }

  predicate ToolAllowed(ents: seq<Entitlement>, serverID: string, tool: string) {
    AuthorizingEntitlement(ents, serverID, tool).Some?
  }

  predicate KeyToolAllowed(ents: seq<Entitlement>, narrow: Option<seq<string>>, serverID: string, tool: string) {
    ToolAllowed(ents, serverID, tool) && (narrow == None || tool in narrow.value)
  }

  /** The bare tool names a key's narrowing holds for one server. */
  function NarrowFor(narrow: seq<string>, slug: string): seq<string> {
    if narrow == [] then []
    else
      var front, last := NarrowFor(narrow[..|narrow| - 1], slug), Split(narrow[|narrow| - 1]);
      if last.Some? && last.value.0 == slug then front + [last.value.1] else front
  }

  method FilterKeyNarrowForServer(narrow: Option<seq<string>>, slug: string) returns (out: Option<seq<string>>)
    ensures out == if narrow == None then None else Some(NarrowFor(narrow.value, slug))
  {
    if narrow == None { return None; }
    var names := [];
    for i := 0 to |narrow.value|
      invariant names == NarrowFor(narrow.value[..i], slug)
    {
      assert narrow.value[..i + 1][..i] == narrow.value[..i];
      var n := Split(narrow.value[i]);
      if n.Some? && n.value.0 == slug {
        names := names + [n.value.1];
      }
    }
    assert narrow.value[..|narrow.value|] == narrow.value;
    out := Some(names);
  }

  function NarrowedTo(narrow: Option<seq<string>>, slug: string): Option<seq<string>> {
    if narrow == None then None else Some(NarrowFor(narrow.value, slug))
  }

  function ToolCallAuthorization(namespaced: string, slugToServer: map<string, string>, c: Caller): Option<Authorized> {
    match Split(namespaced)
    case None => None
    case Some((slug, tool)) =>
      if slug !in slugToServer then None
      else
        var srv := slugToServer[slug];
        var allowed :=
          if c.keyID == "" then ToolAllowed(c.ents, srv, tool)
          else KeyToolAllowed(c.ents, NarrowedTo(c.keyNarrow, slug), srv, tool);
        if !allowed then None
        else
          match AuthorizingEntitlement(c.ents, srv, tool)
          case None => None
          case Some(e) => Some(Authorized(srv, tool, e.roleID))
  }

  predicate ToolCallAllowed(namespaced: string, slugToServer: map<string, string>, c: Caller) {
    ToolCallAuthorization(namespaced, slugToServer, c).Some?
  }

  method VisibleServerIDs(ents: seq<Entitlement>) returns (out: set<string>)
    ensures forall id :: id in out <==> exists e <- ents :: e.serverID == id
  {
    out := {};
    for i := 0 to |ents|
      invariant forall id :: id in out <==> exists e <- ents[..i] :: e.serverID == id
    {
      assert ents[..i + 1] == ents[..i] + [ents[i]];
      out := out + {ents[i].serverID};
    }
    assert ents[..|ents|] == ents;
  }

  // ---- What a decision means ----------------------------------------------

  lemma {:induction false} NarrowForHolds(narrow: seq<string>, slug: string, tool: string)
    ensures tool in NarrowFor(narrow, slug) <==> exists n <- narrow :: Split(n) == Some((slug, tool))
    decreases |narrow|
  {
    if narrow != [] {
      var front, last := narrow[..|narrow| - 1], narrow[|narrow| - 1];
      NarrowForHolds(front, slug, tool);
      assert narrow == front + [last];
    }
  }

  lemma {:induction false} SplitIsInjective(a: string, b: string)
    requires Split(a).Some? && Split(a) == Split(b)
    ensures a == b
  {
    var (slug, tool) := Split(a).value;
    SplitUndoesNamespaceIff(a, slug, tool);
    SplitUndoesNamespaceIff(b, slug, tool);
  }

  /**
   * A virtual key's call is decided as the role's own call would be, and then
   * allowed exactly if there is no narrowing or the narrowing names the whole
   * id: filtering per server loses and leaks nothing.
   */
  lemma {:induction false} KeyOnlyNarrows(namespaced: string, slugToServer: map<string, string>, c: Caller)
    requires c.keyID != ""
    ensures var asRole := ToolCallAuthorization(namespaced, slugToServer, c.(keyID := ""));
      ToolCallAuthorization(namespaced, slugToServer, c) ==
        if c.keyNarrow == None || namespaced in c.keyNarrow.value then asRole else None
  {
    if Split(namespaced).Some? && c.keyNarrow.Some? {
      var (slug, tool) := Split(namespaced).value;
      NarrowForHolds(c.keyNarrow.value, slug, tool);
      forall n <- c.keyNarrow.value | Split(n) == Some((slug, tool)) ensures n == namespaced {
        SplitIsInjective(n, namespaced);
      }
    }
  }

  /**
   * A call is authorized exactly when its id splits to a known slug, some
   * entitlement on that slug's server allows every tool or names this one, and the
   * key, if any, does not narrow it away; the role reported is that of the first
   * such entitlement.
   */
  lemma {:induction false} AuthorizedIff(namespaced: string, slugToServer: map<string, string>, c: Caller)
    ensures var r := ToolCallAuthorization(namespaced, slugToServer, c);
      && (r.Some? <==>
            && Split(namespaced).Some? && Split(namespaced).value.0 in slugToServer
            && (exists e <- c.ents ::
                  && e.serverID == slugToServer[Split(namespaced).value.0]
                  && (e.allowedTools == None || Split(namespaced).value.1 in e.allowedTools.value))
            && (c.keyID == "" || c.keyNarrow == None || namespaced in c.keyNarrow.value))
      && (r.Some? ==>
            && Split(namespaced) == Some((Split(namespaced).value.0, r.value.tool))
            && r.value.serverID == slugToServer[Split(namespaced).value.0]
            && exists i: nat ::
                 && i < |c.ents| && c.ents[i].roleID == r.value.roleID && c.ents[i].serverID == r.value.serverID
                 && (c.ents[i].allowedTools == None || r.value.tool in c.ents[i].allowedTools.value)
                 && forall j :: 0 <= j < i ==>
                      || c.ents[j].serverID != r.value.serverID
                      || (c.ents[j].allowedTools.Some? && r.value.tool !in c.ents[j].allowedTools.value))
  {
    if c.keyID != "" { KeyOnlyNarrows(namespaced, slugToServer, c); }
  }
}
