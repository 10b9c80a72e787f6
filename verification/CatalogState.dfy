/** The catalog's state, and every way its operations can interleave. */
module CatalogState {
  import opened Messages
  import opened Lexicographic
  import opened Terms
  import opened CatalogIndex
  import opened CatalogRanking
  import Seqs

  /** What the session's catalog holds between two awaits. */
  datatype Catalog = Catalog(
    connections: set<string>,
    activated: Inventories,
    snapshot: Snapshot,
    published: set<(string, string)>)

  /** What connecting a server and listing its tools leads to. */
  datatype Handshake = ConnectFails | ListFails | Listed(tools: seq<ToolDefinition>)

  /** An activation holding the activation lock. */
  datatype Activation = Activation(pending: seq<string>, temporary: Inventories, failed: bool)

  /** A search that has ranked its snapshot and not yet published. */
  datatype Outstanding = Outstanding(entries: seq<SearchEntry>, order: seq<nat>)

  datatype World = World(catalog: Catalog, activation: Option<Activation>, searches: map<nat, Outstanding>)

  datatype Step =
    | Begin(servers: seq<string>)
    | ConnectNext(handshake: Handshake)
    | Abandon
    | Commit
    | TakeSnapshot(id: nat, query: string)
    | Publish(id: nat)
    | Forget(id: nat)

  function Elements(servers: seq<string>): set<string> {
    set s | s in servers
  }

  datatype Session = Session(alphabet: Alphabet, descriptors: set<string>) {

    // ---- One step ----

    /** Servers not activated yet, each once, in the order first listed. */
    function NewServers(servers: seq<string>, activated: Inventories): seq<string> {
      Without(Distinct(servers), activated.Keys)
    }

    function Pairs(entries: seq<SearchEntry>, order: seq<nat>): set<(string, string)>
      requires forall k :: 0 <= k < |order| ==> order[k] < |entries|
    {
      set k | 0 <= k < |order| :: (entries[order[k]].server, entries[order[k]].toolName)
    }

    ghost predicate BeginStep(w: World, v: World, servers: seq<string>) {
      && w.activation.None?
      && Elements(servers) <= descriptors
      && v == w.(activation := Some(Activation(NewServers(servers, w.catalog.activated), map[], false)))
    }

    ghost predicate ConnectStep(w: World, v: World, handshake: Handshake) {
      && w.activation.Some? && !w.activation.value.failed
      && var a := w.activation.value;
      && |a.temporary| < |a.pending|
      && var server := a.pending[|a.temporary|];
      match handshake
      case Listed(tools) =>
        v == w.(catalog := w.catalog.(connections := w.catalog.connections + {server}),
                activation := Some(a.(temporary := a.temporary[server := tools])))
      case ListFails =>
        v == w.(catalog := w.catalog.(connections := w.catalog.connections + {server}),
                activation := Some(a.(failed := true)))
      case ConnectFails =>
        v == w.(activation := Some(a.(failed := true)))
    }

    ghost predicate AbandonStep(w: World, v: World) {
      && w.activation.Some? && w.activation.value.failed
      && v == w.(catalog := w.catalog.(connections := w.catalog.connections - Elements(w.activation.value.pending)),
                 activation := None)
    }

    ghost predicate CommitStep(w: World, v: World) {
      && w.activation.Some? && !w.activation.value.failed
      && var a := w.activation.value;
      && |a.temporary| == |a.pending|
      && var activated := w.catalog.activated + a.temporary;
      v == w.(catalog := w.catalog.(activated := activated, snapshot := SnapshotOf(alphabet, activated)),
              activation := None)
    }

    ghost predicate TakeSnapshotStep(w: World, v: World, id: nat, query: string) {
      && id !in w.searches
      && var entries := w.catalog.snapshot.entries;
      && var terms := QueryTerms(alphabet, query);
      exists order ::
        && IsTop(entries, terms, ScanAll(entries, terms), order, MAX_RESULTS)
        && v == w.(searches := w.searches[id := Outstanding(entries, order)])
    }

    ghost predicate PublishStep(w: World, v: World, id: nat) {
      && id in w.searches
      && var search := w.searches[id];
      && (forall k :: 0 <= k < |search.order| ==> search.order[k] < |search.entries|)
      && v == w.(catalog := w.catalog.(published := w.catalog.published + Pairs(search.entries, search.order)),
                 searches := w.searches - {id})
    }

    ghost predicate NextBy(w: World, v: World, step: Step) {
      match step
      case Begin(servers) => BeginStep(w, v, servers)
      case ConnectNext(handshake) => ConnectStep(w, v, handshake)
      case Abandon => AbandonStep(w, v)
      case Commit => CommitStep(w, v)
      case TakeSnapshot(id, query) => TakeSnapshotStep(w, v, id, query)
      case Publish(id) => PublishStep(w, v, id)
      case Forget(id) => v == w.(searches := w.searches - {id})
    }

    ghost predicate Next(w: World, v: World) {
      exists step :: NextBy(w, v, step)
    }

    ghost predicate StepAt(run: seq<World>, i: nat) {
      0 < i < |run| && Next(run[i - 1], run[i])
    }

    ghost predicate Run(run: seq<World>) {
      run != [] && forall i: nat :: 0 < i < |run| ==> StepAt(run, i)
    }

    ghost function Initial(): World {
      World(Catalog({}, map[], SnapshotOf(alphabet, map[]), {}), None, map[])
    }

    // ---- What every reachable state keeps ----

    /** `entry` describes a tool of the inventories, at the place it says. */
    predicate Resolves(entry: SearchEntry, activated: Inventories) {
      && entry.server in activated
      && entry.toolIndex < |activated[entry.server]|
      && entry == EntryFor(alphabet, entry.server, entry.toolIndex, activated[entry.server][entry.toolIndex])
    }

    ghost predicate AllResolve(entries: seq<SearchEntry>, activated: Inventories) {
      forall k :: 0 <= k < |entries| ==> Resolves(entries[k], activated)
    }

    predicate Offers(activated: Inventories, pair: (string, string)) {
      && pair.0 in activated
      && exists i :: 0 <= i < |activated[pair.0]| && activated[pair.0][i].name == pair.1
    }

    lemma OffersExtended(a: Inventories, b: Inventories, pair: (string, string))
      requires Extends(b, a) && Offers(a, pair)
      ensures Offers(b, pair)
    {
      var i :| 0 <= i < |a[pair.0]| && a[pair.0][i].name == pair.1;
      assert b[pair.0][i].name == pair.1;
    }

    ghost predicate Consistent(c: Catalog) {
      && c.snapshot == SnapshotOf(alphabet, c.activated)
      && c.activated.Keys <= descriptors
      && c.activated.Keys <= c.connections
      && forall p :: p in c.published ==> Offers(c.activated, p)
    }

    /** Nothing is connected but what is activated. */
    ghost predicate Quiescent(c: Catalog) {
      Consistent(c) && c.connections == c.activated.Keys
    }

    /** While an activation holds the lock, what it will add cannot be there already. */
    ghost predicate InFlight(c: Catalog, a: Activation) {
      && Elements(a.pending) <= descriptors
      && Elements(a.pending) !! c.activated.Keys
      && NoRepeats(a.pending)
      && |a.temporary| <= |a.pending|
      && a.temporary.Keys == Elements(a.pending[..|a.temporary|])
      && c.connections <= c.activated.Keys + Elements(a.pending)
      && a.temporary.Keys <= c.connections
    }

    ghost predicate SearchSafe(c: Catalog, search: Outstanding) {
      && AllResolve(search.entries, c.activated)
      && forall k :: 0 <= k < |search.order| ==> search.order[k] < |search.entries|
    }

    ghost predicate Inv(w: World) {
      && Consistent(w.catalog)
      && (w.activation.None? ==> Quiescent(w.catalog))
      && (w.activation.Some? ==> InFlight(w.catalog, w.activation.value))
      && forall id :: id in w.searches ==> SearchSafe(w.catalog, w.searches[id])
    }

    /** Every inventory of `a` is in `b`, unchanged. */
    ghost predicate Extends(b: Inventories, a: Inventories) {
      forall s :: s in a ==> s in b && b[s] == a[s]
    }

    lemma {:induction false} EntriesResolve(inventories: Inventories, servers: seq<string>)
      requires forall s :: s in servers ==> s in inventories
      ensures AllResolve(EntriesOf(alphabet, inventories, servers), inventories)
    {
      if servers != [] {
        EntriesResolve(inventories, servers[..|servers| - 1]);
      }
    }

    lemma SnapshotResolves(inventories: Inventories)
      ensures AllResolve(SnapshotOf(alphabet, inventories).entries, inventories)
    {
      EntriesResolve(inventories, SortedKeys(inventories.Keys));
    }

    lemma NewServersAreNew(servers: seq<string>, activated: Inventories)
      ensures NoRepeats(NewServers(servers, activated))
      ensures Elements(NewServers(servers, activated)) == Elements(servers) - activated.Keys
    {
      UnseenExactly(servers, {});
      WithoutExactly(Distinct(servers), activated.Keys);
    }

    lemma InitialInv()
      ensures Inv(Initial())
    {
    }

    /** Whatever is activated or published in `w` still is in `v`. */
    ghost predicate NothingLost(w: World, v: World) {
      && Extends(v.catalog.activated, w.catalog.activated)
      && w.catalog.published <= v.catalog.published
    }

    /** What a step from `w` to `v` owes: the invariant, and nothing lost. */
    ghost predicate Kept(w: World, v: World) {
      Inv(v) && NothingLost(w, v)
    }

    lemma BeginKeepsInv(w: World, v: World, servers: seq<string>)
      requires Inv(w) && BeginStep(w, v, servers)
      ensures Kept(w, v)
    {
      NewServersAreNew(servers, w.catalog.activated);
    }

    lemma TemporaryGrows(pending: seq<string>, temporary: Inventories, tools: seq<ToolDefinition>)
      requires NoRepeats(pending) && |temporary| < |pending|
      requires temporary.Keys == Elements(pending[..|temporary|])
      ensures var server := pending[|temporary|];
              && server in Elements(pending) && server !in temporary
              && temporary[server := tools].Keys == Elements(pending[..|temporary| + 1])
              && |temporary[server := tools]| == |temporary| + 1
    {
      var n := |temporary|;
      var server := pending[n];
      ElementsGrow(pending, n);
      assert server !in temporary by {
        assert server !in pending[..n];
      }
      GrownMap(temporary, server, tools);
    }

    lemma ElementsGrow(pending: seq<string>, n: nat)
      requires n < |pending|
      ensures Elements(pending[..n + 1]) == Elements(pending[..n]) + {pending[n]}
      ensures pending[n] in Elements(pending)
    {
      assert pending[..n + 1] == pending[..n] + [pending[n]];
    }

    lemma GrownMap(temporary: Inventories, server: string, tools: seq<ToolDefinition>)
      requires server !in temporary
      ensures temporary[server := tools].Keys == temporary.Keys + {server}
      ensures |temporary[server := tools]| == |temporary| + 1
    {
      var grown := temporary[server := tools];
      assert grown.Keys == temporary.Keys + {server};
      assert |grown| == |grown.Keys|;
    }

    lemma ConnectStaysInFlight(c: Catalog, a: Activation, handshake: Handshake)
      requires InFlight(c, a) && |a.temporary| < |a.pending|
      ensures var server := a.pending[|a.temporary|];
              match handshake
              case Listed(tools) =>
                InFlight(c.(connections := c.connections + {server}), a.(temporary := a.temporary[server := tools]))
              case ListFails =>
                InFlight(c.(connections := c.connections + {server}), a.(failed := true))
              case ConnectFails =>
                InFlight(c, a.(failed := true))
    {
      TemporaryGrows(a.pending, a.temporary, if handshake.Listed? then handshake.tools else []);
    }

    lemma ConnectKeepsInv(w: World, v: World, handshake: Handshake)
      requires Inv(w) && ConnectStep(w, v, handshake)
      ensures Kept(w, v)
    {
      ConnectStaysInFlight(w.catalog, w.activation.value, handshake);
      SearchesUntouched(w, v);
    }

    lemma SearchesUntouched(w: World, v: World)
      requires forall id :: id in w.searches ==> SearchSafe(w.catalog, w.searches[id])
      requires Extends(v.catalog.activated, w.catalog.activated)
      requires forall id :: id in v.searches ==> id in w.searches && v.searches[id] == w.searches[id]
      ensures forall id :: id in v.searches ==> SearchSafe(v.catalog, v.searches[id])
    {
      forall id | id in v.searches ensures SearchSafe(v.catalog, v.searches[id]) {
        assert SearchSafe(w.catalog, w.searches[id]);
      }
    }

    lemma AbandonKeepsInv(w: World, v: World)
      requires Inv(w) && AbandonStep(w, v)
      ensures Kept(w, v)
    {
      SearchesUntouched(w, v);
    }

    lemma CommitKeepsInv(w: World, v: World)
      requires Inv(w) && CommitStep(w, v)
      ensures Kept(w, v)
      ensures v.catalog.activated.Keys == w.catalog.activated.Keys + Elements(w.activation.value.pending)
    {
      var a := w.activation.value;
      Seqs.DropNothing(a.pending);
      assert Extends(v.catalog.activated, w.catalog.activated);
      forall p | p in v.catalog.published ensures Offers(v.catalog.activated, p) {
        OffersExtended(w.catalog.activated, v.catalog.activated, p);
      }
      SearchesUntouched(w, v);
    }

    lemma TakeSnapshotKeepsInv(w: World, v: World, id: nat, query: string)
      requires Inv(w) && TakeSnapshotStep(w, v, id, query)
      ensures Kept(w, v)
    {
      SnapshotResolves(w.catalog.activated);
      forall x | x in v.searches ensures SearchSafe(v.catalog, v.searches[x]) {
        if x != id {
          assert SearchSafe(w.catalog, w.searches[x]);
        }
      }
    }

    /** Whatever a search publishes names a tool of an activated inventory. */
    lemma RankedAreOffered(c: Catalog, search: Outstanding)
      requires SearchSafe(c, search)
      ensures forall p :: p in Pairs(search.entries, search.order) ==> Offers(c.activated, p)
    {
      forall p | p in Pairs(search.entries, search.order) ensures Offers(c.activated, p) {
        var k :| 0 <= k < |search.order|
          && p == (search.entries[search.order[k]].server, search.entries[search.order[k]].toolName);
        var entry := search.entries[search.order[k]];
        assert Resolves(entry, c.activated);
        assert c.activated[entry.server][entry.toolIndex].name == entry.toolName;
      }
    }

    lemma PublishKeepsInv(w: World, v: World, id: nat)
      requires Inv(w) && PublishStep(w, v, id)
      ensures Kept(w, v)
    {
      RankedAreOffered(w.catalog, w.searches[id]);
      SearchesUntouched(w, v);
    }

    lemma ForgetKeepsInv(w: World, v: World, id: nat)
      requires Inv(w) && v == w.(searches := w.searches - {id})
      ensures Kept(w, v)
    {
      SearchesUntouched(w, v);
    }

    lemma NextKeepsInv(w: World, v: World)
      requires Inv(w) && Next(w, v)
      ensures Kept(w, v)
    {
      var step :| NextBy(w, v, step);
      match step
      case Begin(servers) => BeginKeepsInv(w, v, servers);
      case ConnectNext(handshake) => ConnectKeepsInv(w, v, handshake);
      case Abandon => AbandonKeepsInv(w, v);
      case Commit => CommitKeepsInv(w, v);
      case TakeSnapshot(id, query) => TakeSnapshotKeepsInv(w, v, id, query);
      case Publish(id) => PublishKeepsInv(w, v, id);
      case Forget(id) => ForgetKeepsInv(w, v, id);
    }

    lemma NothingLostTransitive(u: World, w: World, v: World)
      requires NothingLost(u, w) && NothingLost(w, v)
      ensures NothingLost(u, v)
    {
    }

    lemma StepKeeps(run: seq<World>, i: nat)
      requires Run(run) && 0 < i < |run| && Inv(run[i - 1])
      ensures Inv(run[i]) && NothingLost(run[i - 1], run[i])
    {
      assert StepAt(run, i);
      NextKeepsInv(run[i - 1], run[i]);
    }

    lemma {:induction false} ReachableInv(run: seq<World>, i: nat)
      requires Run(run) && i < |run| && Inv(run[0])
      ensures Inv(run[i])
    {
      if i > 0 {
        ReachableInv(run, i - 1);
        StepKeeps(run, i);
      }
    }

    /**
     * Over any interleaving, inventories and publications only accumulate: no
     * activated inventory is ever overwritten and no publication is withdrawn.
     */
    lemma {:induction false} NothingIsLost(run: seq<World>, i: nat, j: nat)
      requires Run(run) && i <= j < |run| && Inv(run[0])
      ensures NothingLost(run[i], run[j])
      decreases j
    {
      if i < j {
        NothingIsLost(run, i, j - 1);
        ReachableInv(run, j - 1);
        StepKeeps(run, j);
        NothingLostTransitive(run[i], run[j - 1], run[j]);
      }
    }

    /**
     * In every reachable state, each entry of a snapshot that an outstanding
     * search holds still resolves: the inventories have a tool of its name at
     * its place. The search has ranked entries of that snapshot only; every
     * published pair names an activated tool of a connected server; and the
     * snapshot is the index of the inventories, with nothing else connected
     * once no activation is running.
     */
    lemma InterleavingSafety(run: seq<World>, i: nat)
      requires Run(run) && run[0] == Initial() && i < |run|
      ensures var w := run[i];
              && (forall id :: id in w.searches ==> AllResolve(w.searches[id].entries, w.catalog.activated))
              && (forall id, k :: id in w.searches && 0 <= k < |w.searches[id].order| ==>
                    w.searches[id].order[k] < |w.searches[id].entries|)
              && (forall p :: p in w.catalog.published ==> Offers(w.catalog.activated, p) && p.0 in w.catalog.connections)
              && w.catalog.snapshot == SnapshotOf(alphabet, w.catalog.activated)
              && (w.activation.None? ==> w.catalog.connections == w.catalog.activated.Keys)
    {
      InitialInv();
      ReachableInv(run, i);
      var w := run[i];
      forall id | id in w.searches
        ensures AllResolve(w.searches[id].entries, w.catalog.activated)
        ensures forall k :: 0 <= k < |w.searches[id].order| ==> w.searches[id].order[k] < |w.searches[id].entries|
      {
        assert SearchSafe(w.catalog, w.searches[id]);
      }
    }

    /**
     * A pair once published can be called from then on: whatever steps come
     * between the check of its publication and the dispatch, its server is
     * still connected and still offers the tool.
     */
    lemma PublishedStaysOffered(run: seq<World>, i: nat, j: nat, pair: (string, string))
      requires Run(run) && run[0] == Initial() && i <= j < |run|
      requires pair in run[i].catalog.published
      ensures pair in run[j].catalog.published
      ensures Offers(run[j].catalog.activated, pair) && pair.0 in run[j].catalog.connections
    {
      InitialInv();
      NothingIsLost(run, i, j);
      InterleavingSafety(run, j);
    }
  }

  function Without(servers: seq<string>, gone: set<string>): seq<string> {
    if servers == [] then []
    else (if servers[0] in gone then [] else [servers[0]]) + Without(servers[1..], gone)
  }

  lemma {:induction false} WithoutExactly(servers: seq<string>, gone: set<string>)
    requires NoRepeats(servers)
    ensures NoRepeats(Without(servers, gone))
    ensures forall s :: s in Without(servers, gone) <==> s in servers && s !in gone
  {
    if servers != [] {
      WithoutExactly(servers[1..], gone);
      assert servers[0] !in servers[1..];
      assert servers == [servers[0]] + servers[1..];
    }
  }
}
