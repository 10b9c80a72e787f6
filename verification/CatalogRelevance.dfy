/**
 * Search in terms of the tools themselves: which tools the index finds, and in
 * what order, by the words of their names, servers and descriptions.
 */
module CatalogRelevance {
  import opened Lexicographic
  import opened Terms
  import opened CatalogIndex
  import opened CatalogRanking
  import Seqs

  // ---- Entries and tools ----

  /** Entry `p` stands for tool `index` of `server`. */
  ghost predicate StandsFor(inventories: Inventories, entries: seq<SearchEntry>, p: nat, server: string, index: nat) {
    && p < |entries| && entries[p].server == server && entries[p].toolIndex == index
    && server in inventories && index < |inventories[server]|
    && entries[p].toolName == inventories[server][index].name
  }

  ghost predicate HasEntry(inventories: Inventories, entries: seq<SearchEntry>, server: string, index: nat) {
    exists p: nat :: StandsFor(inventories, entries, p, server, index)
  }

  /** Every entry was made of a tool of the inventories. */
  ghost predicate MadeOfTools(alphabet: Alphabet, inventories: Inventories, entries: seq<SearchEntry>) {
    forall p :: 0 <= p < |entries| ==>
      && entries[p].server in inventories && entries[p].toolIndex < |inventories[entries[p].server]|
      && entries[p] == EntryFor(alphabet, entries[p].server, entries[p].toolIndex,
                                inventories[entries[p].server][entries[p].toolIndex])
  }

  lemma {:induction false} EntriesAreMade(alphabet: Alphabet, inventories: Inventories, servers: seq<string>)
    requires forall s :: s in servers ==> s in inventories
    ensures MadeOfTools(alphabet, inventories, EntriesOf(alphabet, inventories, servers))
    ensures forall p :: 0 <= p < |EntriesOf(alphabet, inventories, servers)| ==>
              EntriesOf(alphabet, inventories, servers)[p].server in servers
  {
    if servers != [] {
      EntriesAreMade(alphabet, inventories, servers[..|servers| - 1]);
    }
  }

  lemma {:induction false} ToolHasEntry(alphabet: Alphabet, inventories: Inventories, servers: seq<string>,
                                        server: string, index: nat) returns (p: nat)
    requires forall s :: s in servers ==> s in inventories
    requires server in servers && index < |inventories[server]|
    ensures StandsFor(inventories, EntriesOf(alphabet, inventories, servers), p, server, index)
  {
    var below, last := servers[..|servers| - 1], servers[|servers| - 1];
    var before := EntriesOf(alphabet, inventories, below);
    if server == last {
      p := |before| + index;
    } else {
      p := ToolHasEntry(alphabet, inventories, below, server, index);
      assert EntriesOf(alphabet, inventories, servers)[p] == before[p];
    }
  }

  /** Entries come by server, and a server's tools in the order it listed them. */
  ghost predicate InOrder(entries: seq<SearchEntry>, p: nat, q: nat)
    requires p < |entries| && q < |entries|
  {
    Less(entries[p].server, entries[q].server)
    || (entries[p].server == entries[q].server && entries[p].toolIndex < entries[q].toolIndex)
  }

  lemma {:induction false} EntriesInOrder(alphabet: Alphabet, inventories: Inventories, servers: seq<string>, p: nat, q: nat)
    requires Ascending(servers) && forall s :: s in servers ==> s in inventories
    requires p < q < |EntriesOf(alphabet, inventories, servers)|
    ensures InOrder(EntriesOf(alphabet, inventories, servers), p, q)
  {
    var below, last := servers[..|servers| - 1], servers[|servers| - 1];
    var before := EntriesOf(alphabet, inventories, below);
    EntriesAreMade(alphabet, inventories, below);
    if q < |before| {
      EntriesInOrder(alphabet, inventories, below, p, q);
    } else if p < |before| {
      var i :| 0 <= i < |below| && below[i] == before[p].server;
      assert Less(servers[i], last);
    }
  }

  /** The index holds exactly one entry for each tool of the inventories, in order, and nothing else. */
  lemma EntriesAreTools(alphabet: Alphabet, inventories: Inventories)
    ensures var entries := SnapshotOf(alphabet, inventories).entries;
            && MadeOfTools(alphabet, inventories, entries)
            && (forall server, index: nat :: server in inventories && index < |inventories[server]| ==>
                  HasEntry(inventories, entries, server, index))
            && forall p: nat, q: nat :: p < q < |entries| ==> InOrder(entries, p, q)
  {
    var servers := SortedKeys(inventories.Keys);
    var entries := EntriesOf(alphabet, inventories, servers);
    EntriesAreMade(alphabet, inventories, servers);
    forall server, index: nat | server in inventories && index < |inventories[server]|
      ensures HasEntry(inventories, entries, server, index)
    {
      var p := ToolHasEntry(alphabet, inventories, servers, server, index);
    }
    forall p: nat, q: nat | p < q < |entries| ensures InOrder(entries, p, q) {
      EntriesInOrder(alphabet, inventories, servers, p, q);
    }
  }

  // ---- The terms of a query ----

  /** The terms are the query's words, lower-cased, each where it first occurs. */
  lemma QueryWords(alphabet: Alphabet, query: string) returns (runs: seq<(nat, nat)>, words: seq<string>, at: seq<nat>)
    ensures alphabet.AreRuns(query, 0, runs) && alphabet.AreFolded(query, runs, words)
    ensures AtFirstPositions(words, QueryTerms(alphabet, query), at)
  {
    words := alphabet.NormalizeTokens(query);
    runs := alphabet.NormalizedAreRuns(query);
    at := DistinctInOrder(words);
  }

  // ---- Which tools a search finds ----

  /** A word of the tool's server, name or description is the term, or starts with one of three characters or more. */
  ghost predicate Matches(alphabet: Alphabet, server: string, tool: ToolDefinition, term: string) {
    exists word ::
      && (|| word in alphabet.NormalizeTokens(server)
          || word in alphabet.NormalizeTokens(tool.name)
          || word in alphabet.NormalizeTokens(tool.description))
      && (word == term || (|term| >= 3 && term <= word))
  }

  lemma EntryMatches(alphabet: Alphabet, server: string, index: nat, tool: ToolDefinition, term: string)
    ensures TermScore(EntryFor(alphabet, server, index, tool), term) > 0 <==> Matches(alphabet, server, tool, term)
  {
    var entry := EntryFor(alphabet, server, index, tool);
    ScoredMeansTokenMatches(entry, term);
    forall word ensures word in entry.Tokens() && TokenMatches(word, term) <==>
      && (|| word in alphabet.NormalizeTokens(server)
          || word in alphabet.NormalizeTokens(tool.name)
          || word in alphabet.NormalizeTokens(tool.description))
      && (word == term || (|term| >= 3 && term <= word))
    {
    }
  }

  /** The candidates of a query are the entries of exactly the tools that every one of its terms matches. */
  lemma FoundByWords(alphabet: Alphabet, inventories: Inventories, terms: seq<string>, p: nat)
    ensures var entries := SnapshotOf(alphabet, inventories).entries;
            p in ScanAll(entries, terms) <==>
              && p < |entries|
              && entries[p].server in inventories && entries[p].toolIndex < |inventories[entries[p].server]|
              && forall k :: 0 <= k < |terms| ==>
                   Matches(alphabet, entries[p].server, inventories[entries[p].server][entries[p].toolIndex], terms[k])
  {
    var entries := SnapshotOf(alphabet, inventories).entries;
    EntriesAreTools(alphabet, inventories);
    if p < |entries| {
      var server, index := entries[p].server, entries[p].toolIndex;
      forall k | 0 <= k < |terms|
        ensures TermScore(entries[p], terms[k]) > 0
           <==> Matches(alphabet, server, inventories[server][index], terms[k])
      {
        EntryMatches(alphabet, server, index, inventories[server][index], terms[k]);
      }
    }
  }

  // ---- In what order ----

  /** Where a term meets a tool, from the strongest kind of match to none. */
  datatype Relevance =
    | NameWord | NamePrefix | ServerWord | ServerPrefix | DescriptionWord | DescriptionPrefix | Nowhere
  {
    /** Its place in that order. */
    function Place(): nat {
      match this
      case NameWord => 0
      case NamePrefix => 1
      case ServerWord => 2
      case ServerPrefix => 3
      case DescriptionWord => 4
      case DescriptionPrefix => 5
      case Nowhere => 6
    }
  }

  ghost predicate SomeStartWith(words: seq<string>, term: string) {
    |term| >= 3 && exists k :: 0 <= k < |words| && term <= words[k]
  }

  ghost function StrongestMatch(alphabet: Alphabet, server: string, tool: ToolDefinition, term: string): Relevance {
    if term in alphabet.NormalizeTokens(tool.name) then NameWord
    else if SomeStartWith(alphabet.NormalizeTokens(tool.name), term) then NamePrefix
    else if term in alphabet.NormalizeTokens(server) then ServerWord
    else if SomeStartWith(alphabet.NormalizeTokens(server), term) then ServerPrefix
    else if term in alphabet.NormalizeTokens(tool.description) then DescriptionWord
    else if SomeStartWith(alphabet.NormalizeTokens(tool.description), term) then DescriptionPrefix
    else Nowhere
  }

  lemma FieldScoreIs(words: seq<string>, term: string, exact: nat, prefix: nat)
    ensures FieldScore(words, term, exact, prefix)
         == if term in words then exact else if SomeStartWith(words, term) then prefix else 0
  {
  }

  lemma ScoreByPlace(alphabet: Alphabet, server: string, index: nat, tool: ToolDefinition, term: string)
    ensures TermScore(EntryFor(alphabet, server, index, tool), term)
         == 6 - StrongestMatch(alphabet, server, tool, term).Place()
  {
    FieldScoreIs(alphabet.NormalizeTokens(tool.name), term, 6, 5);
    FieldScoreIs(alphabet.NormalizeTokens(server), term, 4, 3);
    FieldScoreIs(alphabet.NormalizeTokens(tool.description), term, 2, 1);
  }

  /** The kind of match of entry `p`, taken from the tool it stands for. */
  ghost function PlaceOf(alphabet: Alphabet, inventories: Inventories, entries: seq<SearchEntry>, p: nat, term: string): nat
    requires MadeOfTools(alphabet, inventories, entries) && p < |entries|
  {
    var server, index := entries[p].server, entries[p].toolIndex;
    StrongestMatch(alphabet, server, inventories[server][index], term).Place()
  }

  lemma EntryScore(alphabet: Alphabet, inventories: Inventories, entries: seq<SearchEntry>, p: nat, term: string)
    requires MadeOfTools(alphabet, inventories, entries) && p < |entries|
    ensures TermScore(entries[p], term) == 6 - PlaceOf(alphabet, inventories, entries, p, term)
  {
    var server, index := entries[p].server, entries[p].toolIndex;
    ScoreByPlace(alphabet, server, index, inventories[server][index], term);
  }

  /** A stronger match scores strictly higher, matches of one kind alike. */
  lemma StrongerMatchScoresHigher(alphabet: Alphabet, inventories: Inventories, p: nat, q: nat, term: string)
    requires p < |SnapshotOf(alphabet, inventories).entries| && q < |SnapshotOf(alphabet, inventories).entries|
    ensures MadeOfTools(alphabet, inventories, SnapshotOf(alphabet, inventories).entries)
    ensures var entries := SnapshotOf(alphabet, inventories).entries;
            var atP, atQ := PlaceOf(alphabet, inventories, entries, p, term), PlaceOf(alphabet, inventories, entries, q, term);
            && (TermScore(entries[p], term) > TermScore(entries[q], term) <==> atP < atQ)
            && (TermScore(entries[p], term) == TermScore(entries[q], term) <==> atP == atQ)
  {
    EntriesAreTools(alphabet, inventories);
    EntryScore(alphabet, inventories, SnapshotOf(alphabet, inventories).entries, p, term);
    EntryScore(alphabet, inventories, SnapshotOf(alphabet, inventories).entries, q, term);
  }

  /** The places of all terms, in their order. */
  ghost function Places(alphabet: Alphabet, inventories: Inventories, entries: seq<SearchEntry>,
                        terms: seq<string>, p: nat): (places: seq<nat>)
    requires MadeOfTools(alphabet, inventories, entries) && p < |entries|
    ensures |places| == |terms|
  {
    seq(|terms|, k requires 0 <= k < |terms| => PlaceOf(alphabet, inventories, entries, p, terms[k]))
  }

  lemma {:induction false} BaseScoreByPlaces(alphabet: Alphabet, inventories: Inventories, entries: seq<SearchEntry>,
                                             terms: seq<string>, p: nat)
    requires MadeOfTools(alphabet, inventories, entries) && p < |entries|
    ensures BaseScore(entries[p], terms) == 6 * |terms| - Seqs.Sum(Places(alphabet, inventories, entries, terms, p))
  {
    if terms != [] {
      var places := Places(alphabet, inventories, entries, terms, p);
      EntryScore(alphabet, inventories, entries, p, terms[0]);
      BaseScoreByPlaces(alphabet, inventories, entries, terms[1..], p);
      assert places[1..] == Places(alphabet, inventories, entries, terms[1..], p);
    }
  }

  /**
   * Relevance adds up over the terms: of two tools that are both the complete
   * name or both not, the one with the smaller sum ranks ahead, and equal sums tie.
   */
  lemma SmallerSumRanksAhead(alphabet: Alphabet, inventories: Inventories, entries: seq<SearchEntry>,
                             terms: seq<string>, p: nat, q: nat)
    requires MadeOfTools(alphabet, inventories, entries) && p < |entries| && q < |entries|
    requires NameMatches(entries[p], terms) == NameMatches(entries[q], terms)
    ensures var sumP := Seqs.Sum(Places(alphabet, inventories, entries, terms, p));
            var sumQ := Seqs.Sum(Places(alphabet, inventories, entries, terms, q));
            && (sumP < sumQ ==> Precedes(entries, terms, p, q))
            && (sumP == sumQ <==> Score(entries[p], terms) == Score(entries[q], terms))
  {
    BaseScoreByPlaces(alphabet, inventories, entries, terms, p);
    BaseScoreByPlaces(alphabet, inventories, entries, terms, q);
  }

  /** Meeting every term at least as strongly, and some term more strongly, ranks ahead. */
  lemma StrongerMatchRanksAhead(alphabet: Alphabet, inventories: Inventories, terms: seq<string>, p: nat, q: nat, k: nat)
    requires p < |SnapshotOf(alphabet, inventories).entries| && q < |SnapshotOf(alphabet, inventories).entries|
    requires k < |terms|
    requires var entries := SnapshotOf(alphabet, inventories).entries;
             && MadeOfTools(alphabet, inventories, entries)
             && NameMatches(entries[p], terms) == NameMatches(entries[q], terms)
             && var atP, atQ := Places(alphabet, inventories, entries, terms, p), Places(alphabet, inventories, entries, terms, q);
             && atP[k] < atQ[k] && forall i :: 0 <= i < |terms| ==> atP[i] <= atQ[i]
    ensures Precedes(SnapshotOf(alphabet, inventories).entries, terms, p, q)
  {
    var entries := SnapshotOf(alphabet, inventories).entries;
    var atP, atQ := Places(alphabet, inventories, entries, terms, p), Places(alphabet, inventories, entries, terms, q);
    Seqs.SumsCompare(atP, atQ, k);
    SmallerSumRanksAhead(alphabet, inventories, entries, terms, p, q);
  }

  /** Tools of equal score come by server, then by tool name, then by position. */
  lemma TiesByName(entries: seq<SearchEntry>, terms: seq<string>, p: nat, q: nat)
    requires p < |entries| && q < |entries| && Score(entries[p], terms) == Score(entries[q], terms)
    ensures Less(entries[p].server, entries[q].server) ==> Precedes(entries, terms, p, q)
    ensures entries[p].server == entries[q].server && Less(entries[p].toolName, entries[q].toolName)
        ==> Precedes(entries, terms, p, q)
    ensures entries[p].server == entries[q].server && entries[p].toolName == entries[q].toolName
        ==> (Precedes(entries, terms, p, q) <==> p < q)
  {
    LessIrreflexive(entries[p].server);
    LessIrreflexive(entries[p].toolName);
  }

  /** A query without terms scores every tool alike, so its results are alphabetical. */
  lemma EmptyQueryIsAlphabetical(entries: seq<SearchEntry>, p: nat, q: nat)
    requires p < |entries| && q < |entries|
    ensures Score(entries[p], []) == Score(entries[q], [])
    ensures Less(entries[p].server, entries[q].server) ==> Precedes(entries, [], p, q)
    ensures entries[p].server == entries[q].server && Less(entries[p].toolName, entries[q].toolName)
        ==> Precedes(entries, [], p, q)
  {
    TiesByName(entries, [], p, q);
  }

  function Chosen(order: seq<nat>): set<nat> {
    set c | c in order
  }

  lemma {:induction false} RankedElements(entries: seq<SearchEntry>, terms: seq<string>, order: seq<nat>)
    requires Ranked(entries, terms, order)
    ensures |Chosen(order)| == |order|
  {
    if order != [] {
      RankedElements(entries, terms, order[1..]);
      forall c ensures c in Chosen(order[1..]) <==> c in Chosen(order) && c != order[0] {
        RankedHead(entries, terms, order, c);
      }
      assert Chosen(order[1..]) == Chosen(order) - {order[0]};
    }
  }

  lemma NoneLeftOut(entries: seq<SearchEntry>, terms: seq<string>, candidates: set<nat>, best: seq<nat>)
    requires IsTop(entries, terms, candidates, best, MAX_RESULTS)
    ensures Chosen(best) <= candidates && (Chosen(best) == candidates || |best| == 5)
  {
    forall c | c in Chosen(best) ensures c in candidates {
      var k :| 0 <= k < |best| && best[k] == c;
    }
    if |best| < 5 {
      forall c | c in candidates ensures c in Chosen(best) {
      }
    }
  }

  /** The best are five, or all candidates where there are fewer. */
  lemma TopSize(entries: seq<SearchEntry>, terms: seq<string>, candidates: set<nat>, best: seq<nat>)
    requires IsTop(entries, terms, candidates, best, MAX_RESULTS)
    ensures |best| == if |candidates| < 5 then |candidates| else 5
  {
    RankedElements(entries, terms, best);
    NoneLeftOut(entries, terms, candidates, best);
    SubsetSize(Chosen(best), candidates);
  }

  lemma {:induction false} SubsetSize(a: set<nat>, b: set<nat>)
    requires a <= b
    ensures |a| <= |b|
  {
    if x :| x in a {
      SubsetSize(a - {x}, b - {x});
    }
  }
}
