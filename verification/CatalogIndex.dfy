/** The inverted index over the tools of activated servers. */
module CatalogIndex {
  import opened Lexicographic
  import opened Terms
  import Seqs

  datatype ToolDefinition = ToolDefinition(name: string, description: string, inputSchema: string)

  type Inventories = map<string, seq<ToolDefinition>>

  datatype SearchEntry = SearchEntry(
    server: string,
    toolIndex: nat,
    toolName: string,
    normalizedToolName: string,
    serverTokens: seq<string>,
    toolTokens: seq<string>,
    descriptionTokens: seq<string>)
  {
    function Tokens(): set<string> {
      (set t | t in serverTokens) + (set t | t in toolTokens) + (set t | t in descriptionTokens)
    }
  }

  datatype Snapshot = Snapshot(entries: seq<SearchEntry>, postings: map<string, seq<nat>>)

  // ---- What an index is ----

  function EntryFor(alphabet: Alphabet, server: string, toolIndex: nat, tool: ToolDefinition): SearchEntry {
    var toolTokens := alphabet.NormalizeTokens(tool.name);
    SearchEntry(server, toolIndex, tool.name, Join(toolTokens), alphabet.NormalizeTokens(server),
                toolTokens, alphabet.NormalizeTokens(tool.description))
  }

  function ServerEntries(alphabet: Alphabet, server: string, tools: seq<ToolDefinition>): (entries: seq<SearchEntry>)
    ensures |entries| == |tools|
  {
    seq(|tools|, i requires 0 <= i < |tools| => EntryFor(alphabet, server, i, tools[i]))
  }

  /** One entry for each tool of `servers`, in that order. */
  function EntriesOf(alphabet: Alphabet, inventories: Inventories, servers: seq<string>): seq<SearchEntry>
    requires forall s :: s in servers ==> s in inventories
  {
    if servers == [] then []
    else
      var last := |servers| - 1;
      EntriesOf(alphabet, inventories, servers[..last])
      + ServerEntries(alphabet, servers[last], inventories[servers[last]])
  }

  /** Positions of the entries holding `token`, ascending. */
  function Holders(entries: seq<SearchEntry>, token: string): seq<nat> {
    if entries == [] then []
    else
      var last := |entries| - 1;
      Holders(entries[..last], token) + if token in entries[last].Tokens() then [last] else []
  }

  function AllTokens(entries: seq<SearchEntry>): set<string> {
    if entries == [] then {}
    else AllTokens(entries[..|entries| - 1]) + entries[|entries| - 1].Tokens()
  }

  function PostingsOf(entries: seq<SearchEntry>): map<string, seq<nat>> {
    map token | token in AllTokens(entries) :: Holders(entries, token)
  }

  ghost function SnapshotOf(alphabet: Alphabet, inventories: Inventories): Snapshot {
    var entries := EntriesOf(alphabet, inventories, SortedKeys(inventories.Keys));
    Snapshot(entries, PostingsOf(entries))
  }

  predicate Indexed(snapshot: Snapshot) {
    snapshot.postings == PostingsOf(snapshot.entries)
  }

  lemma {:induction false} HoldersExactly(entries: seq<SearchEntry>, token: string, i: nat)
    ensures i in Holders(entries, token) <==> i < |entries| && token in entries[i].Tokens()
    ensures token in AllTokens(entries) <==> Holders(entries, token) != []
  {
    if entries != [] {
      var last := |entries| - 1;
      HoldersExactly(entries[..last], token, i);
    }
  }

  // ---- Building it ----

  method IndexTokens(postings0: map<string, seq<nat>>, tokens: set<string>, entryIndex: nat)
    returns (postings: map<string, seq<nat>>)
    ensures postings.Keys == postings0.Keys + tokens
    ensures forall t :: t in postings ==>
              postings[t] == (if t in postings0 then postings0[t] else []) + if t in tokens then [entryIndex] else []
  {
    postings := postings0;
    var left := tokens;
    while left != {}
      invariant left <= tokens && postings.Keys == postings0.Keys + (tokens - left)
      invariant forall t :: t in postings ==>
                  postings[t] == (if t in postings0 then postings0[t] else [])
                               + if t in tokens - left then [entryIndex] else []
      decreases left
    {
      var token :| token in left;
      left := left - {token};
      var posting := if token in postings then postings[token] else [];
      Seqs.DropNothing(posting);
      postings := postings[token := posting + [entryIndex]];
    }
  }

  lemma PostingsExtend(entries: seq<SearchEntry>, entry: SearchEntry, postings: map<string, seq<nat>>)
    requires var before := PostingsOf(entries);
             && postings.Keys == before.Keys + entry.Tokens()
             && forall t :: t in postings ==>
                  postings[t] == (if t in before then before[t] else [])
                               + if t in entry.Tokens() then [|entries|] else []
    ensures postings == PostingsOf(entries + [entry])
  {
    var after := PostingsOf(entries + [entry]);
    assert (entries + [entry])[..|entries|] == entries;
    assert postings.Keys == after.Keys;
    forall t | t in postings ensures postings[t] == after[t] {
      if t !in AllTokens(entries) {
        HoldersExactly(entries, t, 0);
      }
    }
  }

  /** Append the tools of one server to the entries and to their postings. */
  method IndexServer(alphabet: Alphabet, server: string, tools: seq<ToolDefinition>,
                     entries0: seq<SearchEntry>, postings0: map<string, seq<nat>>)
    returns (entries: seq<SearchEntry>, postings: map<string, seq<nat>>)
    requires postings0 == PostingsOf(entries0)
    ensures entries == entries0 + ServerEntries(alphabet, server, tools)
    ensures postings == PostingsOf(entries)
  {
    entries, postings := entries0, postings0;
    ghost var added := ServerEntries(alphabet, server, tools);
    Seqs.DropNothing(entries0);
    for i := 0 to |tools|
      invariant entries == entries0 + added[..i]
      invariant postings == PostingsOf(entries)
    {
      var entry := EntryFor(alphabet, server, i, tools[i]);
      var indexed := IndexTokens(postings, entry.Tokens(), |entries|);
      PostingsExtend(entries, entry, indexed);
      TakeOneMore(added, i);
      Seqs.ConcatAssociative(entries0, added[..i], [entry]);
      postings := indexed;
      entries := entries + [entry];
    }
    Seqs.DropNothing(added);
  }

  lemma TakeOneMore<T>(s: seq<T>, i: nat)
    requires i < |s|
    ensures s[..i + 1] == s[..i] + [s[i]]
  {
  }

  /** The entries of the first `s` servers. */
  function EntriesUpTo(alphabet: Alphabet, inventories: Inventories, servers: seq<string>, s: nat): seq<SearchEntry>
    requires s <= |servers| && forall k :: 0 <= k < |servers| ==> servers[k] in inventories
  {
    EntriesOf(alphabet, inventories, servers[..s])
  }

  lemma EntriesOfNext(alphabet: Alphabet, inventories: Inventories, servers: seq<string>, s: nat)
    requires s < |servers| && forall k :: 0 <= k < |servers| ==> servers[k] in inventories
    ensures EntriesUpTo(alphabet, inventories, servers, s + 1)
         == EntriesUpTo(alphabet, inventories, servers, s)
            + ServerEntries(alphabet, servers[s], inventories[servers[s]])
  {
    assert servers[..s + 1][..s] == servers[..s];
  }

  lemma EntriesOfAll(alphabet: Alphabet, inventories: Inventories, servers: seq<string>)
    requires forall k :: 0 <= k < |servers| ==> servers[k] in inventories
    ensures EntriesUpTo(alphabet, inventories, servers, 0) == []
    ensures EntriesUpTo(alphabet, inventories, servers, |servers|) == EntriesOf(alphabet, inventories, servers)
  {
    Seqs.DropNothing(servers);
  }

  method Build(alphabet: Alphabet, inventories: Inventories) returns (snapshot: Snapshot)
    ensures snapshot == SnapshotOf(alphabet, inventories)
  {
    var entries: seq<SearchEntry>, postings: map<string, seq<nat>> := [], map[];
    var servers := InOrder(inventories.Keys);
    assert forall k :: 0 <= k < |servers| ==> servers[k] in servers;
    EntriesOfAll(alphabet, inventories, servers);
    for s := 0 to |servers|
      invariant entries == EntriesUpTo(alphabet, inventories, servers, s)
      invariant postings == PostingsOf(entries)
    {
      entries, postings := IndexServer(alphabet, servers[s], inventories[servers[s]], entries, postings);
      EntriesOfNext(alphabet, inventories, servers, s);
    }
    snapshot := Snapshot(entries, postings);
  }

  // ---- How many tools there are ----

  /** The summed length of the inventories. */
  ghost function ToolsIn(inventories: Inventories): nat
    decreases inventories.Keys
  {
    if inventories == map[] then 0
    else
      var server :| server in inventories;
      |inventories[server]| + ToolsIn(inventories - {server})
  }

  lemma {:induction false} ToolsInWithout(inventories: Inventories, server: string)
    requires server in inventories
    ensures ToolsIn(inventories) == |inventories[server]| + ToolsIn(inventories - {server})
    decreases inventories.Keys
  {
    var first :| first in inventories
              && ToolsIn(inventories) == |inventories[first]| + ToolsIn(inventories - {first});
    if first != server {
      ToolsInWithout(inventories - {first}, server);
      ToolsInWithout(inventories - {server}, first);
      assert inventories - {first} - {server} == inventories - {server} - {first};
    }
  }

  lemma ToolsInWith(inventories: Inventories, server: string, tools: seq<ToolDefinition>)
    requires server !in inventories
    ensures ToolsIn(inventories[server := tools]) == ToolsIn(inventories) + |tools|
  {
    var more := inventories[server := tools];
    ToolsInWithout(more, server);
    assert more - {server} == inventories;
  }

  lemma {:induction false} ToolsInBoth(a: Inventories, b: Inventories)
    requires a.Keys !! b.Keys
    ensures ToolsIn(a + b) == ToolsIn(a) + ToolsIn(b)
    decreases b.Keys
  {
    if b == map[] {
      assert a + b == a;
    } else {
      var server :| server in b;
      ToolsInWithout(b, server);
      ToolsInWithout(a + b, server);
      assert a + b - {server} == a + (b - {server});
      ToolsInBoth(a, b - {server});
    }
  }

  /** The inventories of `servers` alone. */
  ghost function Among(inventories: Inventories, servers: seq<string>): Inventories {
    map s | s in inventories && s in servers :: inventories[s]
  }

  lemma {:induction false} EntriesCount(alphabet: Alphabet, inventories: Inventories, servers: seq<string>)
    requires NoRepeats(servers) && forall s :: s in servers ==> s in inventories
    ensures |EntriesOf(alphabet, inventories, servers)| == ToolsIn(Among(inventories, servers))
  {
    if servers == [] {
      assert Among(inventories, servers) == map[];
    } else {
      var below, server := servers[..|servers| - 1], servers[|servers| - 1];
      assert server !in below && servers == below + [server];
      EntriesCount(alphabet, inventories, below);
      ToolsInWith(Among(inventories, below), server, inventories[server]);
      assert Among(inventories, servers) == Among(inventories, below)[server := inventories[server]];
    }
  }

  lemma AscendingKeysDiffer(keys: seq<string>)
    requires Ascending(keys)
    ensures NoRepeats(keys)
  {
    forall i, j | 0 <= i < j < |keys| ensures keys[i] != keys[j] {
      LessIrreflexive(keys[i]);
    }
  }

  /** The index holds one entry for each tool. */
  lemma SnapshotCount(alphabet: Alphabet, inventories: Inventories)
    ensures |SnapshotOf(alphabet, inventories).entries| == ToolsIn(inventories)
  {
    var servers := SortedKeys(inventories.Keys);
    AscendingKeysDiffer(servers);
    EntriesCount(alphabet, inventories, servers);
    assert Among(inventories, servers) == inventories;
  }

  // ---- Looking terms up ----

  function FieldScore(tokens: seq<string>, term: string, exact: nat, prefix: nat): nat {
    if term in tokens then exact
    else if |term| >= 3 && exists k :: 0 <= k < |tokens| && StartsWith(tokens[k], term) then prefix
    else 0
  }

  function Max(a: nat, b: nat): nat {
    if a < b then b else a
  }

  /** The strongest field match of one term. */
  function TermScore(entry: SearchEntry, term: string): nat {
    Max(FieldScore(entry.toolTokens, term, 6, 5),
        Max(FieldScore(entry.serverTokens, term, 4, 3), FieldScore(entry.descriptionTokens, term, 2, 1)))
  }

  /** The entries a scan of every field would accept for one term. */
  function Scan(entries: seq<SearchEntry>, term: string): set<nat> {
    set i: nat | i < |entries| && TermScore(entries[i], term) > 0
  }

  predicate TokenMatches(token: string, term: string) {
    token == term || (|term| >= 3 && StartsWith(token, term))
  }

  lemma ScoredMeansTokenMatches(entry: SearchEntry, term: string)
    ensures TermScore(entry, term) > 0 <==> exists t :: t in entry.Tokens() && TokenMatches(t, term)
  {
    if TermScore(entry, term) > 0 {
      FieldMatches(entry.toolTokens, term);
      FieldMatches(entry.serverTokens, term);
      FieldMatches(entry.descriptionTokens, term);
      var tokens := if FieldScore(entry.toolTokens, term, 1, 1) > 0 then entry.toolTokens
                    else if FieldScore(entry.serverTokens, term, 1, 1) > 0 then entry.serverTokens
                    else entry.descriptionTokens;
      var k :| 0 <= k < |tokens| && TokenMatches(tokens[k], term);
      assert tokens[k] in entry.Tokens();
    }
    if t :| t in entry.Tokens() && TokenMatches(t, term) {
      var tokens := if t in entry.toolTokens then entry.toolTokens
                    else if t in entry.serverTokens then entry.serverTokens
                    else entry.descriptionTokens;
      var k :| 0 <= k < |tokens| && tokens[k] == t;
      FieldMatches(tokens, term);
    }
  }

  lemma FieldMatches(tokens: seq<string>, term: string)
    ensures FieldScore(tokens, term, 1, 1) > 0 <==> exists k :: 0 <= k < |tokens| && TokenMatches(tokens[k], term)
  {
    if term in tokens {
      var k :| 0 <= k < |tokens| && tokens[k] == term;
      assert TokenMatches(tokens[k], term);
    }
    if FieldScore(tokens, term, 1, 1) > 0 && term !in tokens {
      var k :| 0 <= k < |tokens| && StartsWith(tokens[k], term);
      assert TokenMatches(tokens[k], term);
    }
  }

  function Members(posting: seq<nat>): set<nat> {
    set i | i in posting
  }

  /**
   * Exact and prefix postings, stopping at the first key that does not start
   * with the term, find exactly what a scan of all entries finds.
   */
  method CandidatesForTerm(snapshot: Snapshot, term: string) returns (candidates: set<nat>)
    requires Indexed(snapshot)
    ensures candidates == Scan(snapshot.entries, term)
  {
    candidates := {};
    ghost var found := {};
    if term in snapshot.postings {
      candidates := Members(snapshot.postings[term]);
      found := {term};
    }
    if |term| >= 3 {
      candidates, found := AddPrefixed(snapshot, term, candidates, found);
    }
    FoundAll(snapshot, term, found, candidates);
  }

  method AddPrefixed(snapshot: Snapshot, term: string, exact: set<nat>, ghost found0: set<string>)
    returns (candidates: set<nat>, ghost found: set<string>)
    requires found0 <= snapshot.postings.Keys && Collects(snapshot, found0, exact)
    requires forall t :: t in found0 ==> t == term
    ensures found <= snapshot.postings.Keys && Collects(snapshot, found, candidates)
    ensures forall t :: t in snapshot.postings ==> (StartsWith(t, term) <==> t in found)
  {
    candidates, found := exact, found0;
    var keys := InOrder(set t | t in snapshot.postings && !Less(t, term));
    var i := 0;
    while i < |keys|
      invariant i <= |keys|
      invariant forall k :: 0 <= k < i ==> StartsWith(keys[k], term) && keys[k] in found
      invariant forall t :: t in found ==> StartsWith(t, term)
      invariant found <= snapshot.postings.Keys && Collects(snapshot, found, candidates)
    {
      assert keys[i] in keys;
      if !StartsWith(keys[i], term) {
        break;
      }
      CollectsMore(snapshot, found, candidates, keys[i]);
      candidates := candidates + Members(snapshot.postings[keys[i]]);
      found := found + {keys[i]};
      i := i + 1;
    }
    forall t | t in snapshot.postings && StartsWith(t, term) ensures t in found {
      PrefixComesFirst(term, t);
      assert t in keys;
      RunIsComplete(keys, term, i, t);
    }
  }

  lemma RunIsComplete(keys: seq<string>, term: string, i: nat, t: string)
    requires Ascending(keys) && i <= |keys|
    requires forall k :: k in keys ==> !Less(k, term)
    requires i < |keys| ==> !StartsWith(keys[i], term)
    requires t in keys && StartsWith(t, term)
    ensures exists k :: 0 <= k < i && keys[k] == t
  {
    var k :| 0 <= k < |keys| && keys[k] == t;
    if i < k {
      assert keys[i] in keys;
      PrefixesAreContiguous(term, keys[i], t);
    }
  }

  /** `candidates` is the union of the postings of the tokens in `found`. */
  ghost predicate Collects(snapshot: Snapshot, found: set<string>, candidates: set<nat>)
    requires found <= snapshot.postings.Keys
  {
    forall i :: i in candidates <==> exists t :: t in found && i in snapshot.postings[t]
  }

  lemma CollectsMore(snapshot: Snapshot, found: set<string>, candidates: set<nat>, token: string)
    requires found <= snapshot.postings.Keys && token in snapshot.postings
    requires Collects(snapshot, found, candidates)
    ensures Collects(snapshot, found + {token}, candidates + Members(snapshot.postings[token]))
  {
    forall i ensures i in candidates + Members(snapshot.postings[token])
                <==> exists t :: t in found + {token} && i in snapshot.postings[t]
    {
      if i in candidates {
        var t :| t in found && i in snapshot.postings[t];
        assert t in found + {token};
      }
    }
  }

  lemma FoundAll(snapshot: Snapshot, term: string, found: set<string>, candidates: set<nat>)
    requires Indexed(snapshot) && found <= snapshot.postings.Keys && Collects(snapshot, found, candidates)
    requires forall t :: t in snapshot.postings ==> (TokenMatches(t, term) <==> t in found)
    ensures candidates == Scan(snapshot.entries, term)
  {
    forall i: nat ensures i in candidates <==> i in Scan(snapshot.entries, term) {
      if i in candidates {
        var t :| t in found && i in snapshot.postings[t];
        HoldersExactly(snapshot.entries, t, i);
        ScoredMeansTokenMatches(snapshot.entries[i], term);
      }
      if i in Scan(snapshot.entries, term) {
        ScoredMeansTokenMatches(snapshot.entries[i], term);
        var t :| t in snapshot.entries[i].Tokens() && TokenMatches(t, term);
        HoldersExactly(snapshot.entries, t, i);
      }
    }
  }

  /** The entries in which every term scores in some field; all of them if there is no term. */
  function ScanAll(entries: seq<SearchEntry>, terms: seq<string>): set<nat> {
    set i: nat | i < |entries| && forall k :: 0 <= k < |terms| ==> TermScore(entries[i], terms[k]) > 0
  }

  function Below(n: nat): (s: set<nat>)
    ensures forall i: nat :: i in s <==> i < n
  {
    if n == 0 then {} else Below(n - 1) + {n - 1}
  }

  /** Intersecting the candidates of each term agrees with the scan. */
  method Candidates(snapshot: Snapshot, terms: seq<string>) returns (candidates: set<nat>)
    requires Indexed(snapshot)
    ensures candidates == ScanAll(snapshot.entries, terms)
  {
    if terms == [] {
      candidates := Below(|snapshot.entries|);
      return;
    }
    candidates := CandidatesForTerm(snapshot, terms[0]);
    for k := 1 to |terms|
      invariant candidates == ScanAll(snapshot.entries, terms[..k])
    {
      var found := CandidatesForTerm(snapshot, terms[k]);
      candidates := set i | i in candidates && i in found;
      assert terms[..k + 1] == terms[..k] + [terms[k]];
      ScanMore(snapshot.entries, terms[..k], terms[k]);
    }
    Seqs.DropNothing(terms);
  }

  lemma ScanMore(entries: seq<SearchEntry>, terms: seq<string>, term: string)
    ensures ScanAll(entries, terms + [term]) == ScanAll(entries, terms) * Scan(entries, term)
  {
    forall i: nat | i < |entries|
      ensures i in ScanAll(entries, terms + [term]) <==> i in ScanAll(entries, terms) && i in Scan(entries, term)
    {
      if i in ScanAll(entries, terms + [term]) {
        assert (terms + [term])[|terms|] == term;
        forall k | 0 <= k < |terms| ensures TermScore(entries[i], terms[k]) > 0 {
          assert (terms + [term])[k] == terms[k];
        }
      }
    }
  }
}
