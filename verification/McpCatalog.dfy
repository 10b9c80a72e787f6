/** The catalog object of one session: activation, search and call. */
module McpCatalog {
  import opened Messages
  import opened Terms
  import opened CatalogIndex
  import opened CatalogRanking
  import opened CatalogRelevance
  import opened CatalogState
  import Seqs

  datatype ActivationError =
    | NotAudited
    | UnknownServer(server: string)
    | NotAllowed(server: string)
    | CannotConnect(server: string)
    | CannotList(server: string)

  datatype Result<+T, +E> = Ok(value: T) | Err(error: E)

  datatype Hit = Hit(server: string, tool: string, description: string, inputSchema: string)

  datatype SearchError = SearchNotAudited

  /** What dispatching a call to a server comes to. */
  datatype Dispatch = Answered(value: string) | CapabilityDenied | DispatchFailed

  datatype CallError = NotPublished | Denied | Failed

  // ---- Capabilities ----

  function SplitOn(s: string, separator: char): (parts: seq<string>)
    ensures parts != []
  {
    if s == "" then [""]
    else
      var parts := SplitOn(s[1..], separator);
      if s[0] == separator then [""] + parts else [[s[0]] + parts[0]] + parts[1..]
  }

  predicate PatternAllows(pattern: string, server: string) {
    var parts := SplitOn(pattern, ':');
    |parts| >= 3 && parts[0] == "mcp" && (parts[1] == server || parts[1] == "*")
  }

  /** The pattern reads "mcp:", the name, ":" and anything; the name has no colon and is the server's or a star. */
  ghost predicate Names(pattern: string, server: string, name: string, rest: string) {
    pattern == "mcp:" + name + ":" + rest && ':' !in name && (name == server || name == "*")
  }

  /** Some capability names the server, or any server. */
  ghost predicate Permits(capability: seq<string>, server: string) {
    exists k, name, rest :: 0 <= k < |capability| && Names(capability[k], server, name, rest)
  }

  lemma {:induction false} FirstPart(s: string, separator: char) returns (n: nat)
    ensures n <= |s| && separator !in s[..n] && (n < |s| ==> s[n] == separator)
    ensures SplitOn(s, separator) == [s[..n]] + if n < |s| then SplitOn(s[n + 1..], separator) else []
  {
    if s == "" || s[0] == separator {
      n := 0;
    } else {
      var m := FirstPart(s[1..], separator);
      n := m + 1;
      assert s[..n] == [s[0]] + s[1..][..m];
      if n < |s| {
        Seqs.DropMore(s, 1, m + 1);
      }
    }
  }

  /** Where a string is split in front of a separator is where the separator first stands. */
  lemma SameFirstPart(s: string, separator: char, n: nat, first: string, others: string)
    requires n <= |s| && separator !in s[..n] && (n < |s| ==> s[n] == separator)
    requires s == first + [separator] + others && separator !in first
    ensures n == |first| && s[..n] == first && s[n + 1..] == others
  {
    assert s[|first|] == separator && s[..|first|] == first;
    assert forall p :: 0 <= p < n ==> s[p] == s[..n][p];
    assert forall p :: 0 <= p < |first| ==> s[p] == first[p];
  }

  lemma SplitFront(s: string, separator: char, first: string, others: string)
    requires separator !in first && s == first + [separator] + others
    ensures SplitOn(s, separator) == [first] + SplitOn(others, separator)
  {
    var n := FirstPart(s, separator);
    SameFirstPart(s, separator, n, first, others);
  }

  lemma SplitTail(s: string, separator: char) returns (others: string)
    requires |SplitOn(s, separator)| > 1
    ensures separator !in SplitOn(s, separator)[0]
    ensures s == SplitOn(s, separator)[0] + [separator] + others
    ensures SplitOn(s, separator)[1..] == SplitOn(others, separator)
  {
    var n := FirstPart(s, separator);
    others := s[n + 1..];
    assert s == s[..n] + [s[n]] + s[n + 1..];
  }

  lemma PatternAllowsExactly(pattern: string, server: string)
    ensures PatternAllows(pattern, server) <==> exists name, rest :: Names(pattern, server, name, rest)
  {
    if PatternAllows(pattern, server) {
      var behind := SplitTail(pattern, ':');
      assert SplitOn(pattern, ':')[1..][0] == SplitOn(pattern, ':')[1];
      var rest := SplitTail(behind, ':');
      var name := SplitOn(behind, ':')[0];
      NamesByParts(pattern, server, name, rest, behind);
    }
    if name, rest :| Names(pattern, server, name, rest) {
      var behind := name + [':'] + rest;
      assert pattern == "mcp" + [':'] + behind;
      SplitFront(pattern, ':', "mcp", behind);
      SplitFront(behind, ':', name, rest);
    }
  }

  lemma NamesByParts(pattern: string, server: string, name: string, rest: string, behind: string)
    requires pattern == "mcp" + [':'] + behind && behind == name + [':'] + rest
    requires ':' !in name && (name == server || name == "*")
    ensures Names(pattern, server, name, rest)
  {
    assert pattern == "mcp:" + name + ":" + rest;
  }

  /** A server is allowed exactly when some capability names it or any server. */
  lemma CapabilityAllowsExactly(capability: seq<string>, server: string)
    ensures CapabilityAllows(capability, server) <==> Permits(capability, server)
  {
    forall k | 0 <= k < |capability|
      ensures PatternAllows(capability[k], server) <==> exists name, rest :: Names(capability[k], server, name, rest)
    {
      PatternAllowsExactly(capability[k], server);
    }
  }

  predicate CapabilityAllows(capability: seq<string>, server: string) {
    exists k :: 0 <= k < |capability| && PatternAllows(capability[k], server)
  }

  // ---- What activation comes to ----

  /** The first server that is unknown or not allowed. */
  function FirstRefused(servers: seq<string>, descriptors: set<string>, capability: seq<string>): Option<ActivationError> {
    if servers == [] then None
    else if servers[0] !in descriptors then Some(UnknownServer(servers[0]))
    else if !CapabilityAllows(capability, servers[0]) then Some(NotAllowed(servers[0]))
    else FirstRefused(servers[1..], descriptors, capability)
  }

  /** The first server whose handshake or inventory fails. */
  function FirstUnreachable(servers: seq<string>, network: string -> Handshake): Option<ActivationError> {
    if servers == [] then None
    else match network(servers[0])
      case ConnectFails => Some(CannotConnect(servers[0]))
      case ListFails => Some(CannotList(servers[0]))
      case Listed(_) => FirstUnreachable(servers[1..], network)
  }

  function ToolCount(servers: seq<string>, network: string -> Handshake): nat {
    if servers == [] then 0
    else (match network(servers[0]) case Listed(tools) => |tools| case _ => 0) + ToolCount(servers[1..], network)
  }

  function ActivationResult(session: Session, activated: Inventories, servers: seq<string>, capability: seq<string>,
                            audited: bool, network: string -> Handshake): Result<nat, ActivationError>
  {
    if !audited then Err(NotAudited)
    else match FirstRefused(Distinct(servers), session.descriptors, capability)
      case Some(error) => Err(error)
      case None =>
        var added := session.NewServers(servers, activated);
        match FirstUnreachable(added, network)
        case Some(error) => Err(error)
        case None => Ok(ToolCount(added, network))
  }

  lemma {:induction false} NoneRefused(servers: seq<string>, descriptors: set<string>, capability: seq<string>)
    ensures FirstRefused(servers, descriptors, capability).None?
       <==> forall s :: s in servers ==> s in descriptors && CapabilityAllows(capability, s)
  {
    if servers != [] {
      NoneRefused(servers[1..], descriptors, capability);
      assert servers == [servers[0]] + servers[1..];
    }
  }

  lemma {:induction false} NoneUnreachable(servers: seq<string>, network: string -> Handshake)
    ensures FirstUnreachable(servers, network).None? <==> forall s :: s in servers ==> network(s).Listed?
  {
    if servers != [] {
      NoneUnreachable(servers[1..], network);
      assert servers == [servers[0]] + servers[1..];
    }
  }

  /** Activation succeeds exactly when it is audited, allowed, and every new server answers. */
  lemma ActivationSucceeds(session: Session, activated: Inventories, servers: seq<string>, capability: seq<string>,
                           audited: bool, network: string -> Handshake)
    ensures ActivationResult(session, activated, servers, capability, audited, network).Ok?
       <==> && audited
            && (forall s :: s in servers ==> s in session.descriptors && CapabilityAllows(capability, s))
            && (forall s :: s in servers && s !in activated ==> network(s).Listed?)
    ensures var r := ActivationResult(session, activated, servers, capability, audited, network);
            r.Ok? ==> r.value == ToolsIn(Gathered(session.NewServers(servers, activated), network))
  {
    UnseenExactly(servers, {});
    NoneRefused(Distinct(servers), session.descriptors, capability);
    session.NewServersAreNew(servers, activated);
    var added := session.NewServers(servers, activated);
    NoneUnreachable(added, network);
    assert forall s :: s in added <==> s in Elements(added);
    if FirstUnreachable(added, network).None? {
      AllAnswer(added, network);
      GatheredTools(added, network);
    }
  }

  lemma {:induction false} ToolCountExtend(servers: seq<string>, server: string, network: string -> Handshake)
    requires network(server).Listed?
    ensures ToolCount(servers + [server], network) == ToolCount(servers, network) + |network(server).tools|
  {
    if servers != [] {
      assert (servers + [server])[1..] == servers[1..] + [server];
      ToolCountExtend(servers[1..], server, network);
    }
  }

  /** Counting tools server by server counts what was gathered. */
  lemma {:induction false} GatheredTools(servers: seq<string>, network: string -> Handshake)
    requires AllListed(servers, network) && NoRepeats(servers)
    ensures ToolCount(servers, network) == ToolsIn(Gathered(servers, network))
  {
    if servers != [] {
      var below, server := servers[..|servers| - 1], servers[|servers| - 1];
      GatheredTools(below, network);
      GatheredExactly(below, network);
      Seqs.SplitLast(servers);
      ToolCountExtend(below, server, network);
      GatheredLast(servers, network);
      ToolsInWith(Gathered(below, network), server, network(server).tools);
    }
  }

  lemma GatheredLast(servers: seq<string>, network: string -> Handshake)
    requires servers != [] && AllListed(servers, network) && NoRepeats(servers)
    ensures var below, server := servers[..|servers| - 1], servers[|servers| - 1];
            && server !in below && network(server).Listed?
            && Gathered(servers, network) == Gathered(below, network)[server := network(server).tools]
  {
  }

  ghost predicate Admitted(descriptors: set<string>, capability: seq<string>, server: string) {
    server in descriptors && Permits(capability, server)
  }

  /** `servers[k]` is the first not to be admitted. */
  ghost predicate RefusedAt(servers: seq<string>, descriptors: set<string>, capability: seq<string>, k: nat) {
    && k < |servers| && !Admitted(descriptors, capability, servers[k])
    && forall j :: 0 <= j < k ==> Admitted(descriptors, capability, servers[j])
  }

  /** `servers[k]` is the first not to list its tools. */
  ghost predicate SilentAt(servers: seq<string>, network: string -> Handshake, k: nat) {
    && k < |servers| && !network(servers[k]).Listed?
    && forall j :: 0 <= j < k ==> network(servers[j]).Listed?
  }

  lemma {:induction false} RefusedExactly(servers: seq<string>, descriptors: set<string>, capability: seq<string>)
    returns (k: nat)
    ensures match FirstRefused(servers, descriptors, capability)
            case None => forall s :: s in servers ==> Admitted(descriptors, capability, s)
            case Some(error) =>
              && RefusedAt(servers, descriptors, capability, k)
              && error == if servers[k] !in descriptors then UnknownServer(servers[k]) else NotAllowed(servers[k])
  {
    k := 0;
    if servers != [] {
      CapabilityAllowsExactly(capability, servers[0]);
      if servers[0] in descriptors && CapabilityAllows(capability, servers[0]) {
        var inner := RefusedExactly(servers[1..], descriptors, capability);
        k := inner + 1;
        assert forall j :: 0 < j < |servers| ==> servers[j] == servers[1..][j - 1];
      }
    }
  }

  lemma {:induction false} UnreachableExactly(servers: seq<string>, network: string -> Handshake) returns (k: nat)
    ensures match FirstUnreachable(servers, network)
            case None => forall s :: s in servers ==> network(s).Listed?
            case Some(error) =>
              && SilentAt(servers, network, k)
              && error == if network(servers[k]).ConnectFails? then CannotConnect(servers[k]) else CannotList(servers[k])
  {
    k := 0;
    if servers != [] && network(servers[0]).Listed? {
      var inner := UnreachableExactly(servers[1..], network);
      k := inner + 1;
      assert forall j :: 0 < j < |servers| ==> servers[j] == servers[1..][j - 1];
    }
  }

  /**
   * What an activation answers: success, or the first thing that goes wrong,
   * the audit first, then the servers as listed, then the handshakes of the new ones.
   */
  ghost predicate Outcome(session: Session, activated: Inventories, servers: seq<string>, capability: seq<string>,
                          audited: bool, network: string -> Handshake, r: Result<nat, ActivationError>)
  {
    var unique, added := Distinct(servers), session.NewServers(servers, activated);
    var admitted := forall s :: s in servers ==> Admitted(session.descriptors, capability, s);
    match r
    case Ok(_) => audited && admitted && forall s :: s in servers && s !in activated ==> network(s).Listed?
    case Err(NotAudited) => !audited
    case Err(UnknownServer(s)) =>
      && audited && s !in session.descriptors
      && exists k: nat :: RefusedAt(unique, session.descriptors, capability, k) && unique[k] == s
    case Err(NotAllowed(s)) =>
      && audited && s in session.descriptors && !Permits(capability, s)
      && exists k: nat :: RefusedAt(unique, session.descriptors, capability, k) && unique[k] == s
    case Err(CannotConnect(s)) =>
      && audited && admitted && network(s).ConnectFails?
      && exists k: nat :: SilentAt(added, network, k) && added[k] == s
    case Err(CannotList(s)) =>
      && audited && admitted && network(s).ListFails?
      && exists k: nat :: SilentAt(added, network, k) && added[k] == s
  }

  lemma SilentAnswers(session: Session, activated: Inventories, servers: seq<string>, network: string -> Handshake)
    ensures FirstUnreachable(session.NewServers(servers, activated), network).None?
        ==> forall s :: s in servers && s !in activated ==> network(s).Listed?
  {
    var added := session.NewServers(servers, activated);
    session.NewServersAreNew(servers, activated);
    var k := UnreachableExactly(added, network);
    assert forall s :: s in added <==> s in Elements(added);
  }

  lemma ActivationAnswers(session: Session, activated: Inventories, servers: seq<string>, capability: seq<string>,
                          audited: bool, network: string -> Handshake)
    ensures Outcome(session, activated, servers, capability, audited, network,
              ActivationResult(session, activated, servers, capability, audited, network))
  {
    var unique := Distinct(servers);
    var k := RefusedExactly(unique, session.descriptors, capability);
    UnseenExactly(servers, {});
    assert forall s :: s in servers ==> s in unique;
    SilentAnswers(session, activated, servers, network);
    var i := UnreachableExactly(session.NewServers(servers, activated), network);
  }

  /** The inventories that listing `servers` in order gathers. */
  function Gathered(servers: seq<string>, network: string -> Handshake): Inventories {
    if servers == [] then map[]
    else
      var last := |servers| - 1;
      var below := Gathered(servers[..last], network);
      match network(servers[last])
      case Listed(tools) => below[servers[last] := tools]
      case _ => below
  }

  ghost predicate AllListed(servers: seq<string>, network: string -> Handshake) {
    forall k :: 0 <= k < |servers| ==> network(servers[k]).Listed?
  }

  lemma {:induction false} GatheredExactly(servers: seq<string>, network: string -> Handshake)
    requires AllListed(servers, network)
    ensures Gathered(servers, network).Keys == Elements(servers)
    ensures forall s :: s in servers ==> network(s).Listed? && Gathered(servers, network)[s] == network(s).tools
  {
    if servers != [] {
      var last := |servers| - 1;
      GatheredExactly(servers[..last], network);
      assert servers == servers[..last] + [servers[last]];
    }
  }

  lemma {:induction false} GatheredSize(servers: seq<string>, network: string -> Handshake)
    requires AllListed(servers, network) && NoRepeats(servers)
    ensures |Gathered(servers, network)| == |servers|
  {
    if servers != [] {
      var last := |servers| - 1;
      var below := Gathered(servers[..last], network);
      GatheredSize(servers[..last], network);
      GatheredExactly(servers[..last], network);
      assert servers[last] !in servers[..last];
      assert |below[servers[last] := network(servers[last]).tools].Keys| == |below.Keys + {servers[last]}|;
    }
  }

  lemma GatheredStep(servers: seq<string>, i: nat, network: string -> Handshake)
    requires i < |servers|
    ensures Gathered(servers[..i + 1], network)
         == match network(servers[i])
            case Listed(tools) => Gathered(servers[..i], network)[servers[i] := tools]
            case _ => Gathered(servers[..i], network)
    ensures Elements(servers[..i + 1]) == Elements(servers[..i]) + {servers[i]}
  {
    assert servers[..i + 1][..i] == servers[..i];
    assert servers[..i + 1] == servers[..i] + [servers[i]];
  }

  /**
   * What a successful activation adds: exactly the listed servers that were
   * not there, each with the tools it answered, and nothing else changes.
   */
  lemma ActivationAddsExactly(session: Session, c: Catalog, servers: seq<string>, network: string -> Handshake)
    requires forall s :: s in servers && s !in c.activated ==> network(s).Listed?
    ensures var after := AfterHandshakes(session, c, session.NewServers(servers, c.activated), network);
            && after.activated.Keys == c.activated.Keys + Elements(servers)
            && session.Extends(after.activated, c.activated)
            && (forall s :: s in servers && s !in c.activated ==> after.activated[s] == network(s).tools)
            && after.connections == c.connections + (Elements(servers) - c.activated.Keys)
            && after.published == c.published
            && after.snapshot == SnapshotOf(session.alphabet, after.activated)
            && ToolsIn(after.activated)
               == ToolsIn(c.activated) + ToolsIn(Gathered(session.NewServers(servers, c.activated), network))
  {
    var pending := session.NewServers(servers, c.activated);
    session.NewServersAreNew(servers, c.activated);
    forall k | 0 <= k < |pending| ensures network(pending[k]).Listed? {
      assert pending[k] in Elements(pending);
    }
    AllAnswer(pending, network);
    GatheredExactly(pending, network);
    assert forall s :: s in pending <==> s in Elements(pending);
    ToolsInBoth(c.activated, Gathered(pending, network));
  }

  /** What a successful activation returns is what the index grows by. */
  lemma ActivationCounts(session: Session, c: Catalog, servers: seq<string>, network: string -> Handshake)
    requires session.Quiescent(c)
    ensures var pending := session.NewServers(servers, c.activated);
            FirstUnreachable(pending, network).None? ==>
              |AfterHandshakes(session, c, pending, network).snapshot.entries|
              == |c.snapshot.entries| + ToolCount(pending, network)
  {
    var pending := session.NewServers(servers, c.activated);
    session.NewServersAreNew(servers, c.activated);
    if FirstUnreachable(pending, network).None? {
      AllAnswer(pending, network);
      GatheredExactly(pending, network);
      GatheredTools(pending, network);
      ToolsInBoth(c.activated, Gathered(pending, network));
      SnapshotCount(session.alphabet, c.activated);
      SnapshotCount(session.alphabet, c.activated + Gathered(pending, network));
    }
  }

  // ---- One operation as a run of steps ----

  ghost predicate Leads(session: Session, w: World, v: World) {
    exists run :: session.Run(run) && run[0] == w && run[|run| - 1] == v
  }

  /** `after` is reached from `before` with no other operation in between. */
  ghost predicate Reaches(session: Session, before: Catalog, after: Catalog) {
    Leads(session, World(before, None, map[]), World(after, None, map[]))
  }

  lemma LeadsNowhere(session: Session, w: World)
    ensures Leads(session, w, w)
  {
    assert session.Run([w]);
  }

  lemma RunOn(session: Session, run: seq<World>, next: World, step: Step)
    requires session.Run(run) && session.NextBy(run[|run| - 1], next, step)
    ensures session.Run(run + [next])
  {
    var longer := run + [next];
    assert session.Next(run[|run| - 1], next);
    forall i: nat | 0 < i < |longer| ensures session.StepAt(longer, i) {
      if i < |run| {
        assert session.StepAt(run, i);
      }
    }
  }

  lemma LeadsOn(session: Session, w: World, v: World, next: World, step: Step)
    requires Leads(session, w, v) && session.NextBy(v, next, step)
    ensures Leads(session, w, next)
  {
    var run :| session.Run(run) && run[0] == w && run[|run| - 1] == v;
    RunOn(session, run, next, step);
    var longer := run + [next];
    assert longer[0] == w && longer[|longer| - 1] == next;
  }

  lemma LeadsConnecting(session: Session, w: World, v: World, next: World, handshake: Handshake)
    requires Leads(session, w, v) && session.ConnectStep(v, next, handshake)
    ensures Leads(session, w, next)
  {
    LeadsOn(session, w, v, next, ConnectNext(handshake));
  }

  /** The catalog after handshakes with `pending`: all of them are added, or none. */
  ghost function AfterHandshakes(session: Session, c: Catalog, pending: seq<string>, network: string -> Handshake): Catalog {
    if FirstUnreachable(pending, network).Some? then c
    else
      var activated := c.activated + Gathered(pending, network);
      Catalog(c.connections + Elements(pending), activated, SnapshotOf(session.alphabet, activated), c.published)
  }

  lemma AllAnswer(pending: seq<string>, network: string -> Handshake)
    ensures FirstUnreachable(pending, network).None? <==> AllListed(pending, network)
  {
    NoneUnreachable(pending, network);
    assert forall k :: 0 <= k < |pending| ==> pending[k] in pending;
  }

  lemma HandshakesStayQuiet(session: Session, c: Catalog, pending: seq<string>, network: string -> Handshake)
    requires session.Quiescent(c)
    requires Elements(pending) <= session.descriptors && Elements(pending) !! c.activated.Keys
    ensures session.Quiescent(AfterHandshakes(session, c, pending, network))
    ensures pending == [] ==> AfterHandshakes(session, c, pending, network) == c
  {
    if FirstUnreachable(pending, network).None? {
      AllAnswer(pending, network);
      GatheredExactly(pending, network);
      AddedStaysQuiet(session, c, Gathered(pending, network));
    }
  }

  lemma AddedStaysQuiet(session: Session, c: Catalog, added: Inventories)
    requires session.Quiescent(c) && added.Keys <= session.descriptors && added.Keys !! c.activated.Keys
    ensures var activated := c.activated + added;
            session.Quiescent(Catalog(c.connections + added.Keys, activated, SnapshotOf(session.alphabet, activated), c.published))
    ensures added == map[] ==> c.activated + added == c.activated
  {
    var activated := c.activated + added;
    forall p | p in c.published ensures session.Offers(activated, p) {
      session.OffersExtended(c.activated, activated, p);
    }
  }

  /** Midway through `pending`: its first `i` servers are connected and listed. */
  ghost function Midway(session: Session, c: Catalog, pending: seq<string>, network: string -> Handshake, i: nat): World
    requires i <= |pending|
  {
    World(c.(connections := c.connections + Elements(pending[..i])),
          Some(Activation(pending, Gathered(pending[..i], network), false)), map[])
  }

  lemma GatheredCount(pending: seq<string>, network: string -> Handshake, i: nat)
    requires NoRepeats(pending) && i <= |pending| && AllListed(pending[..i], network)
    ensures |Gathered(pending[..i], network)| == i
  {
    GatheredSize(pending[..i], network);
  }

  lemma AllListedBefore(pending: seq<string>, network: string -> Handshake, i: nat)
    requires 0 < i <= |pending| && AllListed(pending[..i], network)
    ensures AllListed(pending[..i - 1], network) && network(pending[i - 1]).Listed?
  {
    assert pending[..i][i - 1] == pending[i - 1];
    assert forall k :: 0 <= k < i - 1 ==> pending[..i - 1][k] == pending[..i][k];
  }

  lemma LeadsToBegun(session: Session, c: Catalog, servers: seq<string>, network: string -> Handshake)
    requires Elements(servers) <= session.descriptors
    ensures Leads(session, World(c, None, map[]), Midway(session, c, session.NewServers(servers, c.activated), network, 0))
  {
    var start, now := World(c, None, map[]), Midway(session, c, session.NewServers(servers, c.activated), network, 0);
    LeadsNowhere(session, start);
    assert now.catalog.connections == c.connections;
    LeadsOn(session, start, start, now, Begin(servers));
  }

  lemma {:induction false} LeadsMidway(session: Session, c: Catalog, servers: seq<string>, pending: seq<string>,
                                       network: string -> Handshake, i: nat)
    requires Elements(servers) <= session.descriptors && pending == session.NewServers(servers, c.activated)
    requires i <= |pending| && NoRepeats(pending) && AllListed(pending[..i], network)
    ensures Leads(session, World(c, None, map[]), Midway(session, c, pending, network, i))
  {
    if i == 0 {
      LeadsToBegun(session, c, servers, network);
    } else {
      AllListedBefore(pending, network, i);
      LeadsMidway(session, c, servers, pending, network, i - 1);
      MidwayStep(session, c, pending, network, i - 1);
      LeadsConnecting(session, World(c, None, map[]), Midway(session, c, pending, network, i - 1),
        Midway(session, c, pending, network, i), network(pending[i - 1]));
    }
  }

  lemma MidwayStep(session: Session, c: Catalog, pending: seq<string>, network: string -> Handshake, i: nat)
    requires i < |pending| && NoRepeats(pending) && AllListed(pending[..i], network) && network(pending[i]).Listed?
    ensures session.ConnectStep(Midway(session, c, pending, network, i), Midway(session, c, pending, network, i + 1),
                                network(pending[i]))
  {
    GatheredCount(pending, network, i);
    GatheredStep(pending, i, network);
    var before, after := Midway(session, c, pending, network, i), Midway(session, c, pending, network, i + 1);
    assert after.catalog.connections == before.catalog.connections + {pending[i]};
  }

  lemma {:induction false} UnreachableAt(pending: seq<string>, network: string -> Handshake) returns (i: nat)
    ensures i <= |pending| && AllListed(pending[..i], network)
    ensures i == |pending| <==> FirstUnreachable(pending, network).None?
    ensures i < |pending| ==> !network(pending[i]).Listed?
  {
    i := 0;
    while i < |pending| && network(pending[i]).Listed?
      invariant i <= |pending| && AllListed(pending[..i], network)
    {
      i := i + 1;
    }
    AllAnswer(pending, network);
    Seqs.DropNothing(pending);
  }

  lemma PendingReaches(session: Session, c: Catalog, start: World, pending: seq<string>, network: string -> Handshake, i: nat)
    requires NoRepeats(pending) && Elements(pending) !! c.connections
    requires i <= |pending| && AllListed(pending[..i], network)
    requires i == |pending| <==> FirstUnreachable(pending, network).None?
    requires i < |pending| ==> !network(pending[i]).Listed?
    requires Leads(session, start, Midway(session, c, pending, network, i))
    ensures Leads(session, start, World(AfterHandshakes(session, c, pending, network), None, map[]))
  {
    if i == |pending| {
      Seqs.DropNothing(pending);
      CommittedReaches(session, c, start, pending, network);
    } else {
      FailedReaches(session, c, start, pending, network, i);
    }
  }

  /** An activation, successful or not, has the effect of a run of steps. */
  lemma ActivationReaches(session: Session, c: Catalog, servers: seq<string>, network: string -> Handshake)
    requires session.Quiescent(c) && Elements(servers) <= session.descriptors
    ensures Reaches(session, c, AfterHandshakes(session, c, session.NewServers(servers, c.activated), network))
  {
    var pending := session.NewServers(servers, c.activated);
    session.NewServersAreNew(servers, c.activated);
    var i := UnreachableAt(pending, network);
    LeadsMidway(session, c, servers, pending, network, i);
    PendingReaches(session, c, World(c, None, map[]), pending, network, i);
  }

  lemma CommittedReaches(session: Session, c: Catalog, start: World, pending: seq<string>, network: string -> Handshake)
    requires NoRepeats(pending) && AllListed(pending, network) && FirstUnreachable(pending, network).None?
    requires Leads(session, start, Midway(session, c, pending, network, |pending|))
    ensures Leads(session, start, World(AfterHandshakes(session, c, pending, network), None, map[]))
  {
    Seqs.DropNothing(pending);
    GatheredCount(pending, network, |pending|);
    LeadsOn(session, start, Midway(session, c, pending, network, |pending|),
            World(AfterHandshakes(session, c, pending, network), None, map[]), Commit);
  }

  lemma FailedReaches(session: Session, c: Catalog, start: World, pending: seq<string>, network: string -> Handshake, i: nat)
    requires NoRepeats(pending) && Elements(pending) !! c.connections
    requires i < |pending| && AllListed(pending[..i], network) && !network(pending[i]).Listed?
    requires Leads(session, start, Midway(session, c, pending, network, i))
    ensures Leads(session, start, World(c, None, map[]))
  {
    var now := Midway(session, c, pending, network, i);
    var a := now.activation.value;
    GatheredCount(pending, network, i);
    var left := if network(pending[i]).ListFails? then now.catalog.connections + {pending[i]} else now.catalog.connections;
    var failed := World(c.(connections := left), Some(a.(failed := true)), map[]);
    LeadsOn(session, start, now, failed, ConnectNext(network(pending[i])));
    assert left - Elements(pending) == c.connections;
    LeadsOn(session, start, failed, World(c, None, map[]), Abandon);
  }

  /** The catalog once the entries in `order` are published. */
  ghost function AfterPublishing(session: Session, c: Catalog, order: seq<nat>): Catalog
    requires forall k :: 0 <= k < |order| ==> order[k] < |c.snapshot.entries|
  {
    c.(published := c.published + session.Pairs(c.snapshot.entries, order))
  }

  /** A search takes its snapshot, then publishes what it ranked: a run of two steps. */
  lemma SearchReaches(session: Session, c: Catalog, query: string, order: seq<nat>)
    requires session.Quiescent(c)
    requires var entries, terms := c.snapshot.entries, QueryTerms(session.alphabet, query);
             IsTop(entries, terms, ScanAll(entries, terms), order, MAX_RESULTS)
    ensures session.Quiescent(AfterPublishing(session, c, order))
    ensures Reaches(session, c, AfterPublishing(session, c, order))
  {
    var start, search := World(c, None, map[]), Outstanding(c.snapshot.entries, order);
    var ranked, done := World(c, None, map[0 := search]), World(AfterPublishing(session, c, order), None, map[]);
    LeadsNowhere(session, start);
    LeadsOn(session, start, start, ranked, TakeSnapshot(0, query));
    assert ranked.searches - {0} == map[];
    LeadsOn(session, start, ranked, done, Publish(0));
    session.SnapshotResolves(c.activated);
    session.RankedAreOffered(c, search);
  }

  /** The hits are the ranked entries in order, each with its tool as the inventories have it. */
  ghost predicate Shows(inventories: Inventories, entries: seq<SearchEntry>, order: seq<nat>, hits: seq<Hit>) {
    && |hits| == |order|
    && forall k :: 0 <= k < |order| ==>
         && order[k] < |entries|
         && var entry, hit := entries[order[k]], hits[k];
         && entry.server in inventories && entry.toolIndex < |inventories[entry.server]|
         && var tool := inventories[entry.server][entry.toolIndex];
         && hit.server == entry.server && hit.tool == entry.toolName == tool.name
         && hit.description == tool.description && hit.inputSchema == tool.inputSchema
  }

  /** The hits show the best five matches of the query (all when there are fewer), and those are published. */
  ghost predicate Answers(session: Session, before: Catalog, query: string, hits: seq<Hit>, after: Catalog) {
    var entries, terms := before.snapshot.entries, QueryTerms(session.alphabet, query);
    var found := ScanAll(entries, terms);
    && |hits| == (if |found| < 5 then |found| else 5)
    && exists order ::
         && IsTop(entries, terms, found, order, MAX_RESULTS)
         && Shows(before.activated, entries, order, hits)
         && after == AfterPublishing(session, before, order)
  }

  /** Publishing a full ranking answers the query, in a run of steps that keeps the state in order. */
  lemma SearchAnswers(session: Session, c: Catalog, query: string, order: seq<nat>, hits: seq<Hit>, after: Catalog)
    requires session.Quiescent(c)
    requires var entries, terms := c.snapshot.entries, QueryTerms(session.alphabet, query);
             var found := ScanAll(entries, terms);
             && IsTop(entries, terms, found, order, MAX_RESULTS)
             && Shows(c.activated, entries, order, hits)
             && |hits| == if |found| < 5 then |found| else 5
    requires after == c.(published := c.published + session.Pairs(c.snapshot.entries, order))
    ensures session.Quiescent(after) && Answers(session, c, query, hits, after) && Reaches(session, c, after)
  {
    SearchReaches(session, c, query, order);
  }

  class McpCatalog {
    const session: Session
    var connections: set<string>
    var activated: Inventories
    var snapshot: Snapshot
    var published: set<(string, string)>

    function View(): Catalog
      reads this
    {
      Catalog(connections, activated, snapshot, published)
    }

    ghost predicate Valid()
      reads this
    {
      session.Quiescent(View())
    }

    constructor (alphabet: Alphabet, descriptors: set<string>)
      ensures Valid() && session == Session(alphabet, descriptors)
      ensures View() == session.Initial().catalog
    {
      session := Session(alphabet, descriptors);
      connections, activated, published := {}, map[], {};
      new;
      snapshot := Build(alphabet, map[]);
    }

    method Activate(servers: seq<string>, capability: seq<string>, audited: bool, network: string -> Handshake)
      returns (r: Result<nat, ActivationError>)
      requires Valid()
      modifies this
      ensures Valid()
      ensures r == ActivationResult(session, old(activated), servers, capability, audited, network)
      ensures Outcome(session, old(activated), servers, capability, audited, network, r)
      ensures r.Err? ==> View() == old(View())
      ensures r.Ok? ==> View() == AfterHandshakes(session, old(View()), session.NewServers(servers, old(activated)), network)
      ensures r.Ok? ==> |snapshot.entries| == old(|snapshot.entries|) + r.value
      ensures Reaches(session, old(View()), View())
    {
      LeadsNowhere(session, World(View(), None, map[]));
      ActivationAnswers(session, activated, servers, capability, audited, network);
      var unique := Deduplicate(servers);
      if !audited {
        return Err(NotAudited);
      }
      var refused := ValidateDependencies(unique, capability);
      if refused.Some? {
        return Err(refused.value);
      }
      AllKnown(session, servers, capability);
      ActivationReaches(session, View(), servers, network);
      ActivationCounts(session, View(), servers, network);
      session.NewServersAreNew(servers, activated);
      var pending := NotActivated(unique);
      HandshakesStayQuiet(session, View(), pending, network);
      if pending == [] {
        return Ok(0);
      }
      r := ActivatePending(pending, network);
    }

    method Deduplicate(servers: seq<string>) returns (unique: seq<string>)
      ensures unique == Distinct(servers)
    {
      unique := [];
      for i := 0 to |servers|
        invariant unique == Distinct(servers[..i])
      {
        DistinctExtend(servers, i);
        if servers[i] !in unique {
          unique := unique + [servers[i]];
        }
      }
      Seqs.DropNothing(servers);
    }

    method NotActivated(unique: seq<string>) returns (pending: seq<string>)
      ensures pending == Without(unique, activated.Keys)
    {
      pending := [];
      for i := 0 to |unique|
        invariant pending == Without(unique[..i], activated.Keys)
      {
        WithoutExtend(unique, i, activated.Keys);
        if unique[i] !in activated {
          pending := pending + [unique[i]];
        }
      }
      Seqs.DropNothing(unique);
    }

    method ValidateDependencies(servers: seq<string>, capability: seq<string>) returns (refused: Option<ActivationError>)
      ensures refused == FirstRefused(servers, session.descriptors, capability)
    {
      for i := 0 to |servers|
        invariant FirstRefused(servers[i..], session.descriptors, capability)
               == FirstRefused(servers, session.descriptors, capability)
      {
        if servers[i] !in session.descriptors {
          return Some(UnknownServer(servers[i]));
        }
        if !CapabilityAllows(capability, servers[i]) {
          return Some(NotAllowed(servers[i]));
        }
        Seqs.DropDrop(servers, i, i + 1);
      }
      return None;
    }

    /** Handshake with every pending server, then commit them all or discard them all. */
    method ActivatePending(pending: seq<string>, network: string -> Handshake)
      returns (r: Result<nat, ActivationError>)
      requires Elements(pending) !! connections
      modifies this
      ensures r == match FirstUnreachable(pending, network)
                   case Some(error) => Err(error)
                   case None => Ok(ToolCount(pending, network))
      ensures View() == AfterHandshakes(session, old(View()), pending, network)
    {
      var temporary, failure := ConnectAll(pending, network);
      if failure.Some? {
        Discard(pending);
        assert connections == old(connections);
        return Err(failure.value);
      }
      var count := CountTools(pending, temporary, network);
      activated := activated + temporary;
      snapshot := Build(session.alphabet, activated);
      return Ok(count);
    }

    /** Handshake and list, one server at a time, until all are listed or one fails. */
    method ConnectAll(pending: seq<string>, network: string -> Handshake)
      returns (temporary: Inventories, failure: Option<ActivationError>)
      modifies this`connections
      ensures failure == FirstUnreachable(pending, network)
      ensures failure.None? ==>
                && temporary == Gathered(pending, network)
                && connections == old(connections) + Elements(pending)
      ensures old(connections) <= connections <= old(connections) + Elements(pending)
    {
      temporary, failure := map[], None;
      var i := 0;
      while i < |pending| && failure.None?
        invariant i <= |pending|
        invariant temporary == Gathered(pending[..i], network)
        invariant failure.None? ==> connections == old(connections) + Elements(pending[..i])
        invariant old(connections) <= connections <= old(connections) + Elements(pending)
        invariant FirstUnreachable(pending, network)
               == if failure.Some? then failure else FirstUnreachable(pending[i..], network)
        decreases |pending| - i, failure.None?
      {
        var server := pending[i];
        assert server in Elements(pending);
        Seqs.DropDrop(pending, i, i + 1);
        GatheredStep(pending, i, network);
        match network(server) {
          case ConnectFails =>
            failure := Some(CannotConnect(server));
          case ListFails =>
            connections := connections + {server};
            failure := Some(CannotList(server));
          case Listed(tools) =>
            connections := connections + {server};
            temporary := temporary[server := tools];
            i := i + 1;
        }
      }
      Seqs.DropNothing(pending);
    }

    /** Drop the connection of every pending server. */
    method Discard(pending: seq<string>)
      modifies this`connections
      ensures connections == old(connections) - Elements(pending)
    {
      for i := 0 to |pending|
        invariant connections == old(connections) - Elements(pending[..i])
      {
        assert pending[..i + 1] == pending[..i] + [pending[i]];
        connections := connections - {pending[i]};
      }
      Seqs.DropNothing(pending);
    }

    method CountTools(pending: seq<string>, temporary: Inventories, ghost network: string -> Handshake)
      returns (count: nat)
      requires temporary == Gathered(pending, network) && FirstUnreachable(pending, network).None?
      ensures count == ToolCount(pending, network)
    {
      AllAnswer(pending, network);
      GatheredExactly(pending, network);
      count := 0;
      for i := 0 to |pending|
        invariant count + ToolCount(pending[i..], network) == ToolCount(pending, network)
      {
        assert pending[i] in pending;
        Seqs.DropDrop(pending, i, i + 1);
        count := count + |temporary[pending[i]]|;
      }
    }

    // ---- Search and call ----

    /** Rank against the snapshot of the moment; nothing is published yet. */
    method Rank(query: string) returns (taken: Snapshot, winners: seq<RankedMatch>)
      requires Valid()
      ensures taken == snapshot
      ensures var terms := QueryTerms(session.alphabet, query);
              && Scored(taken.entries, terms, winners)
              && IsTop(taken.entries, terms, ScanAll(taken.entries, terms), Indices(winners), MAX_RESULTS)
              && var found := ScanAll(taken.entries, terms);
              |winners| == if |found| < 5 then |found| else 5
    {
      taken := snapshot;
      var terms := QueryTerms(session.alphabet, query);
      var candidates := Candidates(taken, terms);
      winners := BestFive(taken.entries, terms, candidates);
      TopSize(taken.entries, terms, candidates, Indices(winners));
    }

    /**
     * Publish ranked results against whatever the inventories are by now. The
     * entries ranked earlier must still resolve, which every interleaving keeps.
     */
    method PublishWinners(entries: seq<SearchEntry>, winners: seq<RankedMatch>) returns (hits: seq<Hit>)
      requires session.AllResolve(entries, activated)
      requires forall k :: 0 <= k < |winners| ==> winners[k].entryIndex < |entries|
      modifies this`published
      ensures View() == old(View()).(published := old(published) + session.Pairs(entries, Indices(winners)))
      ensures hits == HitsFor(entries, Indices(winners), activated)
      ensures Shows(activated, entries, Indices(winners), hits)
    {
      hits := [];
      ghost var order := Indices(winners);
      for k := 0 to |winners|
        invariant published == old(published) + session.Pairs(entries, order[..k])
        invariant hits == HitsFor(entries, order, activated)[..k]
      {
        var entry := entries[winners[k].entryIndex];
        PublishNext(entries, order, activated, k);
        published := published + {(entry.server, entry.toolName)};
        var tool := activated[entry.server][entry.toolIndex];
        hits := hits + [Hit(entry.server, tool.name, tool.description, tool.inputSchema)];
      }
      Seqs.DropNothing(order);
      Seqs.DropNothing(HitsFor(entries, order, activated));
      HitsShow(entries, order);
    }

    lemma PublishNext(entries: seq<SearchEntry>, order: seq<nat>, inventories: Inventories, k: nat)
      requires session.AllResolve(entries, inventories)
      requires forall i :: 0 <= i < |order| ==> order[i] < |entries|
      requires k < |order|
      ensures var entry := entries[order[k]];
              && session.Resolves(entry, inventories)
              && session.Pairs(entries, order[..k + 1])
                 == session.Pairs(entries, order[..k]) + {(entry.server, entry.toolName)}
              && HitsFor(entries, order, inventories)[..k + 1]
                 == HitsFor(entries, order, inventories)[..k] + [HitOf(entry, inventories)]
    {
      TakeOneMore(order, k);
      PairsExtend(session, entries, order[..k], order[k]);
      TakeOneMore(HitsFor(entries, order, inventories), k);
    }

    /** What a search answers for an entry, taken from the inventories. */
    function HitOf(entry: SearchEntry, inventories: Inventories): (hit: Hit)
      requires session.Resolves(entry, inventories)
      ensures hit.server == entry.server && hit.tool == entry.toolName
    {
      var tool := inventories[entry.server][entry.toolIndex];
      Hit(entry.server, tool.name, tool.description, tool.inputSchema)
    }

    function HitsFor(entries: seq<SearchEntry>, order: seq<nat>, inventories: Inventories): (hits: seq<Hit>)
      requires session.AllResolve(entries, inventories)
      requires forall k :: 0 <= k < |order| ==> order[k] < |entries|
      ensures |hits| == |order|
      ensures forall k :: 0 <= k < |hits| ==>
                && session.Resolves(entries[order[k]], inventories)
                && hits[k] == HitOf(entries[order[k]], inventories)
    {
      seq(|order|, k requires 0 <= k < |order| =>
        assert session.Resolves(entries[order[k]], inventories);
        HitOf(entries[order[k]], inventories))
    }

    lemma HitsShow(entries: seq<SearchEntry>, order: seq<nat>)
      requires session.AllResolve(entries, activated)
      requires forall k :: 0 <= k < |order| ==> order[k] < |entries|
      ensures Shows(activated, entries, order, HitsFor(entries, order, activated))
    {
      assert forall k :: 0 <= k < |order| ==> session.Resolves(entries[order[k]], activated);
    }

    method Search(query: string, audited: bool) returns (r: Result<seq<Hit>, SearchError>)
      requires Valid()
      modifies this`published
      ensures Valid()
      ensures r.Ok? <==> audited
      ensures r.Err? ==> View() == old(View())
      ensures r.Ok? ==> Answers(session, old(View()), query, r.value, View())
      ensures Reaches(session, old(View()), View())
    {
      LeadsNowhere(session, World(View(), None, map[]));
      ghost var before := View();
      var taken, winners := Rank(query);
      if !audited {
        return Err(SearchNotAudited);
      }
      session.SnapshotResolves(activated);
      var hits := PublishWinners(taken.entries, winners);
      SearchAnswers(session, before, query, Indices(winners), hits, View());
      return Ok(hits);
    }

    /** Only a published pair is dispatched, and then its server is connected and offers it. */
    method Call(server: string, tool: string, dispatch: (string, string) -> Dispatch) returns (r: Result<string, CallError>)
      requires Valid()
      ensures r.Ok? <==> (server, tool) in published && dispatch(server, tool).Answered?
      ensures r.Ok? ==> r.value == dispatch(server, tool).value
      ensures r == Err(NotPublished) <==> (server, tool) !in published
      ensures r == Err(Denied) <==> (server, tool) in published && dispatch(server, tool).CapabilityDenied?
      ensures r != Err(NotPublished) ==> session.Offers(activated, (server, tool)) && server in connections
    {
      if (server, tool) !in published {
        return Err(NotPublished);
      }
      match dispatch(server, tool)
      case Answered(value) => return Ok(value);
      case CapabilityDenied => return Err(Denied);
      case DispatchFailed => return Err(Failed);
    }
  }

  // ---- Facts the methods use ----

  lemma PairsExtend(session: Session, entries: seq<SearchEntry>, order: seq<nat>, i: nat)
    requires i < |entries| && forall k :: 0 <= k < |order| ==> order[k] < |entries|
    ensures session.Pairs(entries, order + [i]) == session.Pairs(entries, order) + {(entries[i].server, entries[i].toolName)}
  {
    var more := order + [i];
    forall p ensures p in session.Pairs(entries, more)
                <==> p in session.Pairs(entries, order) || p == (entries[i].server, entries[i].toolName)
    {
      if p in session.Pairs(entries, order) {
        var k :| 0 <= k < |order| && p == (entries[order[k]].server, entries[order[k]].toolName);
        assert more[k] == order[k];
      }
      assert more[|order|] == i;
    }
  }

  lemma AllKnown(session: Session, servers: seq<string>, capability: seq<string>)
    requires FirstRefused(Distinct(servers), session.descriptors, capability).None?
    ensures Elements(servers) <= session.descriptors
  {
    UnseenExactly(servers, {});
    NoneRefused(Distinct(servers), session.descriptors, capability);
  }

  lemma {:induction false} UnseenExtend(terms: seq<string>, term: string, seen: set<string>)
    ensures Unseen(terms + [term], seen)
         == Unseen(terms, seen) + if term in seen || term in terms then [] else [term]
  {
    if terms == [] {
      Seqs.DropNothing([term]);
    } else {
      assert (terms + [term])[1..] == terms[1..] + [term];
      assert terms == [terms[0]] + terms[1..];
      UnseenExtend(terms[1..], term, if terms[0] in seen then seen else seen + {terms[0]});
    }
  }

  lemma DistinctExtend(servers: seq<string>, i: nat)
    requires i < |servers|
    ensures Distinct(servers[..i + 1])
         == Distinct(servers[..i]) + if servers[i] in Distinct(servers[..i]) then [] else [servers[i]]
  {
    assert servers[..i + 1] == servers[..i] + [servers[i]];
    UnseenExtend(servers[..i], servers[i], {});
    UnseenExactly(servers[..i], {});
  }

  lemma {:induction false} WithoutConcat(a: seq<string>, b: seq<string>, gone: set<string>)
    ensures Without(a + b, gone) == Without(a, gone) + Without(b, gone)
  {
    if a == [] {
      Seqs.DropNothing(b);
    } else {
      assert (a + b)[1..] == a[1..] + b;
      WithoutConcat(a[1..], b, gone);
    }
  }

  lemma WithoutExtend(servers: seq<string>, i: nat, gone: set<string>)
    requires i < |servers|
    ensures Without(servers[..i + 1], gone)
         == Without(servers[..i], gone) + if servers[i] in gone then [] else [servers[i]]
  {
    assert servers[..i + 1] == servers[..i] + [servers[i]];
    WithoutConcat(servers[..i], [servers[i]], gone);
    assert Without([servers[i]], gone) == if servers[i] in gone then [] else [servers[i]];
  }
}
