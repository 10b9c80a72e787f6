/** Ranking candidates, and keeping the best five of them. */
module CatalogRanking {
  import opened Lexicographic
  import opened Terms
  import opened CatalogIndex
  import Seqs

  const NAME_BOOST := 1000
  const MAX_RESULTS := 5

  datatype RankedMatch = RankedMatch(entryIndex: nat, score: nat)

  /** Terms of a query: normalised, each kept where it first occurs. */
  function QueryTerms(alphabet: Alphabet, query: string): seq<string> {
    Distinct(alphabet.NormalizeTokens(query))
  }

  function BaseScore(entry: SearchEntry, terms: seq<string>): nat {
    if terms == [] then 0 else TermScore(entry, terms[0]) + BaseScore(entry, terms[1..])
  }

  predicate NameMatches(entry: SearchEntry, terms: seq<string>) {
    Join(terms) != "" && Join(terms) == entry.normalizedToolName
  }

  function Score(entry: SearchEntry, terms: seq<string>): nat {
    BaseScore(entry, terms) + if NameMatches(entry, terms) then NAME_BOOST else 0
  }

  // ---- The order of results ----

  predicate NameLess(a: SearchEntry, b: SearchEntry) {
    Less(a.server, b.server) || (a.server == b.server && Less(a.toolName, b.toolName))
  }

  /** Strictly better by score, then server, then tool name. */
  predicate Better(a: SearchEntry, b: SearchEntry, terms: seq<string>) {
    Score(a, terms) > Score(b, terms) || (Score(a, terms) == Score(b, terms) && NameLess(a, b))
  }

  /** The order of a stable sort: ties stay in index order. */
  predicate Precedes(entries: seq<SearchEntry>, terms: seq<string>, i: nat, j: nat)
    requires i < |entries| && j < |entries|
  {
    Better(entries[i], entries[j], terms) || (!Better(entries[j], entries[i], terms) && i < j)
  }

  lemma NameLessOrder(a: SearchEntry, b: SearchEntry, c: SearchEntry)
    ensures !(NameLess(a, b) && NameLess(b, a))
    ensures NameLess(a, b) && NameLess(b, c) ==> NameLess(a, c)
    ensures !NameLess(a, b) && !NameLess(b, a) ==> a.server == b.server && a.toolName == b.toolName
  {
    if NameLess(a, b) {
      if Less(a.server, b.server) {
        LessAsymmetric(a.server, b.server);
      } else {
        LessAsymmetric(a.toolName, b.toolName);
        LessIrreflexive(a.server);
      }
      if NameLess(b, c) {
        if Less(a.server, b.server) && Less(b.server, c.server) {
          LessTransitive(a.server, b.server, c.server);
        } else if a.server == b.server && b.server == c.server && Less(a.toolName, b.toolName) && Less(b.toolName, c.toolName) {
          LessTransitive(a.toolName, b.toolName, c.toolName);
        }
      }
    }
    LessTotal(a.server, b.server);
    LessTotal(a.toolName, b.toolName);
  }

  lemma PrecedesTransitive(entries: seq<SearchEntry>, terms: seq<string>, i: nat, j: nat, k: nat)
    requires i < |entries| && j < |entries| && k < |entries|
    requires Precedes(entries, terms, i, j) && Precedes(entries, terms, j, k)
    ensures Precedes(entries, terms, i, k)
  {
    NameLessOrder(entries[i], entries[j], entries[k]);
    NameLessOrder(entries[j], entries[k], entries[i]);
    NameLessOrder(entries[k], entries[i], entries[j]);
    NameLessOrder(entries[k], entries[j], entries[i]);
    NameLessOrder(entries[i], entries[k], entries[j]);
  }

  lemma PrecedesTotal(entries: seq<SearchEntry>, terms: seq<string>, i: nat, j: nat)
    requires i < |entries| && j < |entries|
    ensures i == j || Precedes(entries, terms, i, j) || Precedes(entries, terms, j, i)
    ensures !(Precedes(entries, terms, i, j) && Precedes(entries, terms, j, i))
  {
    NameLessOrder(entries[i], entries[j], entries[i]);
    NameLessOrder(entries[i], entries[i], entries[i]);
  }

  ghost predicate Ranked(entries: seq<SearchEntry>, terms: seq<string>, order: seq<nat>) {
    && (forall k :: 0 <= k < |order| ==> order[k] < |entries|)
    && forall i, j :: 0 <= i < j < |order| ==> Precedes(entries, terms, order[i], order[j])
  }

  /** `best` holds the first `limit` candidates in order. */
  ghost predicate IsTop(entries: seq<SearchEntry>, terms: seq<string>, candidates: set<nat>, best: seq<nat>, limit: nat) {
    && |best| <= limit
    && Ranked(entries, terms, best)
    && (forall k :: 0 <= k < |best| ==> best[k] in candidates)
    && forall c :: c in candidates && c !in best ==>
         |best| == limit && c < |entries| && (limit > 0 ==> Precedes(entries, terms, best[limit - 1], c))
  }

  function Indices(winners: seq<RankedMatch>): (indices: seq<nat>)
    ensures |indices| == |winners|
  {
    seq(|winners|, k requires 0 <= k < |winners| => winners[k].entryIndex)
  }

  ghost predicate Scored(entries: seq<SearchEntry>, terms: seq<string>, winners: seq<RankedMatch>) {
    forall k :: 0 <= k < |winners| ==>
      winners[k].entryIndex < |entries| && winners[k].score == Score(entries[winners[k].entryIndex], terms)
  }

  method InsertionPoint(entries: seq<SearchEntry>, terms: seq<string>, winners: seq<RankedMatch>, offered: RankedMatch)
    returns (insertion: nat)
    requires Scored(entries, terms, winners)
    requires offered.entryIndex < |entries| && offered.score == Score(entries[offered.entryIndex], terms)
    requires forall k :: 0 <= k < |winners| ==> winners[k].entryIndex < offered.entryIndex
    ensures insertion <= |winners|
    ensures forall k :: 0 <= k < insertion ==>
              Precedes(entries, terms, winners[k].entryIndex, offered.entryIndex)
    ensures insertion < |winners| ==>
              Precedes(entries, terms, offered.entryIndex, winners[insertion].entryIndex)
  {
    insertion := 0;
    while insertion < |winners|
      invariant insertion <= |winners|
      invariant forall k :: 0 <= k < insertion ==>
                  Precedes(entries, terms, winners[k].entryIndex, offered.entryIndex)
    {
      var entry, other := entries[offered.entryIndex], entries[winners[insertion].entryIndex];
      if offered.score > winners[insertion].score
         || (offered.score == winners[insertion].score && NameLess(entry, other)) {
        return;
      }
      PrecedesTotal(entries, terms, winners[insertion].entryIndex, offered.entryIndex);
      insertion := insertion + 1;
    }
  }

  /** Candidates in index order, kept in a list that never outgrows five. */
  method BestFive(entries: seq<SearchEntry>, terms: seq<string>, candidates: set<nat>) returns (winners: seq<RankedMatch>)
    requires forall c :: c in candidates ==> c < |entries|
    ensures Scored(entries, terms, winners)
    ensures IsTop(entries, terms, candidates, Indices(winners), MAX_RESULTS)
  {
    winners := [];
    for c := 0 to |entries|
      invariant Scored(entries, terms, winners)
      invariant IsTop(entries, terms, Seen(candidates, c), Indices(winners), MAX_RESULTS)
    {
      if c in candidates {
        winners := Offer(entries, terms, candidates, winners, c);
      } else {
        assert Seen(candidates, c + 1) == Seen(candidates, c);
      }
    }
    assert Seen(candidates, |entries|) == candidates;
  }

  /** Offer one more candidate to the winners so far. */
  method Offer(entries: seq<SearchEntry>, terms: seq<string>, ghost candidates: set<nat>,
               winners0: seq<RankedMatch>, c: nat)
    returns (winners: seq<RankedMatch>)
    requires c < |entries| && c in candidates
    requires Scored(entries, terms, winners0)
    requires IsTop(entries, terms, Seen(candidates, c), Indices(winners0), MAX_RESULTS)
    ensures Scored(entries, terms, winners)
    ensures IsTop(entries, terms, Seen(candidates, c + 1), Indices(winners), MAX_RESULTS)
  {
    winners := winners0;
    var next := RankedMatch(c, Score(entries[c], terms));
    ghost var best := Indices(winners0);
    TopComesBefore(entries, terms, candidates, c, winners);
    var insertion := InsertionPoint(entries, terms, winners, next);
    InsertedIsTop(entries, terms, candidates, c, best, insertion);
    if insertion < MAX_RESULTS {
      IndicesInserted(entries, terms, winners, insertion, next);
      winners := winners[..insertion] + [next] + winners[insertion..];
      if |winners| > MAX_RESULTS {
        IndicesTaken(entries, terms, winners, MAX_RESULTS);
        winners := winners[..MAX_RESULTS];
      }
    }
  }

  lemma TopComesBefore(entries: seq<SearchEntry>, terms: seq<string>, candidates: set<nat>, c: nat,
                       winners: seq<RankedMatch>)
    requires IsTop(entries, terms, Seen(candidates, c), Indices(winners), MAX_RESULTS)
    ensures forall k :: 0 <= k < |winners| ==> winners[k].entryIndex < c
  {
    forall k | 0 <= k < |winners| ensures winners[k].entryIndex < c {
      assert Indices(winners)[k] in Seen(candidates, c);
    }
  }

  lemma IndicesInserted(entries: seq<SearchEntry>, terms: seq<string>, winners: seq<RankedMatch>, at: nat, next: RankedMatch)
    requires at <= |winners| && Scored(entries, terms, winners) && Scored(entries, terms, [next])
    ensures var more := winners[..at] + [next] + winners[at..];
            Scored(entries, terms, more) && Indices(more) == Inserted(Indices(winners), at, next.entryIndex)
  {
    var more := winners[..at] + [next] + winners[at..];
    forall k | 0 <= k < |more| ensures more[k] in winners || more[k] == next {
    }
    assert [next][0] == next;
  }

  lemma IndicesTaken(entries: seq<SearchEntry>, terms: seq<string>, winners: seq<RankedMatch>, n: nat)
    requires n <= |winners| && Scored(entries, terms, winners)
    ensures Scored(entries, terms, winners[..n]) && Indices(winners[..n]) == Indices(winners)[..n]
  {
  }

  function Seen(candidates: set<nat>, c: nat): set<nat> {
    set x | x in candidates && x < c
  }

  function Inserted(best: seq<nat>, at: nat, c: nat): seq<nat>
    requires at <= |best|
  {
    best[..at] + [c] + best[at..]
  }

  lemma InsertedIsRanked(entries: seq<SearchEntry>, terms: seq<string>, best: seq<nat>, at: nat, c: nat)
    requires Ranked(entries, terms, best) && c < |entries| && at <= |best|
    requires forall k :: 0 <= k < at ==> Precedes(entries, terms, best[k], c)
    requires at < |best| ==> Precedes(entries, terms, c, best[at])
    ensures Ranked(entries, terms, Inserted(best, at, c))
  {
    var more := Inserted(best, at, c);
    forall i, j | 0 <= i < j < |more| ensures Precedes(entries, terms, more[i], more[j]) {
      if i == at && at + 1 < j {
        PrecedesTransitive(entries, terms, c, best[at], best[j - 1]);
      }
    }
  }

  function Topped(best: seq<nat>, at: nat, c: nat): seq<nat>
    requires at <= |best|
  {
    var more := Inserted(best, at, c);
    if at >= MAX_RESULTS then best else if |more| > MAX_RESULTS then more[..MAX_RESULTS] else more
  }

  lemma InsertedHolds(best: seq<nat>, at: nat, c: nat, x: nat)
    requires at <= |best|
    ensures x in Inserted(best, at, c) <==> x == c || x in best
  {
    if x in best {
      var k :| 0 <= k < |best| && best[k] == x;
      assert Inserted(best, at, c)[if k < at then k else k + 1] == x;
    }
    assert Inserted(best, at, c)[at] == c;
  }

  lemma InsertedIsTop(entries: seq<SearchEntry>, terms: seq<string>, candidates: set<nat>, c: nat,
                      best: seq<nat>, at: nat)
    requires c < |entries| && c in candidates && at <= |best|
    requires IsTop(entries, terms, Seen(candidates, c), best, MAX_RESULTS)
    requires forall k :: 0 <= k < at ==> Precedes(entries, terms, best[k], c)
    requires at < |best| ==> Precedes(entries, terms, c, best[at])
    ensures IsTop(entries, terms, Seen(candidates, c + 1), Topped(best, at, c), MAX_RESULTS)
  {
    var more, top := Inserted(best, at, c), Topped(best, at, c);
    InsertedIsRanked(entries, terms, best, at, c);
    forall k | 0 <= k < |top| ensures top[k] in Seen(candidates, c + 1) {
      assert top[k] in if at < MAX_RESULTS then more else best;
      InsertedHolds(best, at, c, top[k]);
    }
    forall x | x in Seen(candidates, c + 1) && x !in top
      ensures |top| == MAX_RESULTS && Precedes(entries, terms, top[MAX_RESULTS - 1], x)
    {
      InsertedHolds(best, at, c, x);
      LeftOutComesLater(entries, terms, candidates, c, best, at, x);
    }
  }

  lemma LeftOutComesLater(entries: seq<SearchEntry>, terms: seq<string>, candidates: set<nat>, c: nat,
                          best: seq<nat>, at: nat, x: nat)
    requires c < |entries| && c in candidates && at <= |best|
    requires IsTop(entries, terms, Seen(candidates, c), best, MAX_RESULTS)
    requires forall k :: 0 <= k < at ==> Precedes(entries, terms, best[k], c)
    requires Ranked(entries, terms, Inserted(best, at, c))
    requires x in Seen(candidates, c + 1) && x !in Topped(best, at, c)
    requires x in Inserted(best, at, c) <==> x == c || x in best
    ensures |Topped(best, at, c)| == MAX_RESULTS
    ensures Precedes(entries, terms, Topped(best, at, c)[MAX_RESULTS - 1], x)
  {
    var more := Inserted(best, at, c);
    if at < MAX_RESULTS {
      assert x != c ==> x in Seen(candidates, c);
      assert |more| == MAX_RESULTS + 1;
      assert more == more[..MAX_RESULTS] + [best[MAX_RESULTS - 1]];
      if x !in more {
        PrecedesTransitive(entries, terms, more[MAX_RESULTS - 1], more[MAX_RESULTS], x);
      }
    }
  }

  lemma SamePrefix(best: seq<nat>, all: seq<nat>, n: nat)
    requires best != [] && 0 < n <= |all| && best[0] == all[0] && best[1..] == all[1..][..n - 1]
    ensures best == all[..n]
  {
    assert best == [best[0]] + best[1..];
  }

  lemma RestIsRanked(entries: seq<SearchEntry>, terms: seq<string>, candidates: set<nat>, all: seq<nat>)
    requires Ranked(entries, terms, all) && all != [] && forall c :: c in all <==> c in candidates
    ensures Ranked(entries, terms, all[1..]) && forall c :: c in all[1..] <==> c in candidates - {all[0]}
  {
    forall c ensures c in all[1..] <==> c in candidates - {all[0]} {
      RankedHead(entries, terms, all, c);
    }
  }

  lemma RestIsTop(entries: seq<SearchEntry>, terms: seq<string>, candidates: set<nat>, best: seq<nat>, limit: nat)
    requires IsTop(entries, terms, candidates, best, limit) && best != [] && limit > 0
    ensures IsTop(entries, terms, candidates - {best[0]}, best[1..], limit - 1)
  {
    forall c ensures c in best[1..] <==> c in best && c != best[0] {
      RankedHead(entries, terms, best, c);
    }
    forall k | 0 <= k < |best[1..]| ensures best[1..][k] in candidates - {best[0]} {
      assert best[1..][k] in best[1..];
    }
  }

  /** Being the best `limit` candidates leaves no choice: they open every full ranking. */
  lemma {:induction false} TopOpensRanking(entries: seq<SearchEntry>, terms: seq<string>, candidates: set<nat>,
                                           best: seq<nat>, all: seq<nat>, limit: nat)
    requires IsTop(entries, terms, candidates, best, limit)
    requires Ranked(entries, terms, all) && forall c :: c in all <==> c in candidates
    ensures best == all[..if |all| < limit then |all| else limit]
  {
    assert all != [] ==> all[0] in all;
    assert best != [] ==> best[0] in candidates;
    if all != [] && limit > 0 {
      FirstIsFirst(entries, terms, candidates, best, all, limit);
      var first := all[0];
      RestIsRanked(entries, terms, candidates, all);
      RestIsTop(entries, terms, candidates, best, limit);
      TopOpensRanking(entries, terms, candidates - {first}, best[1..], all[1..], limit - 1);
      SamePrefix(best, all, if |all| < limit then |all| else limit);
    }
  }

  lemma RankedHead(entries: seq<SearchEntry>, terms: seq<string>, order: seq<nat>, c: nat)
    requires Ranked(entries, terms, order) && order != []
    ensures c in order[1..] <==> c in order && c != order[0]
  {
    if c in order && c != order[0] {
      var i :| 0 <= i < |order| && order[i] == c;
      assert order[1..][i - 1] == c;
    }
    if c in order[1..] {
      var i :| 0 <= i < |order[1..]| && order[1..][i] == c;
      PrecedesTotal(entries, terms, order[0], order[i + 1]);
    }
  }

  lemma FirstIsFirst(entries: seq<SearchEntry>, terms: seq<string>, candidates: set<nat>,
                     best: seq<nat>, all: seq<nat>, limit: nat)
    requires IsTop(entries, terms, candidates, best, limit) && limit > 0 && all != []
    requires Ranked(entries, terms, all) && forall c :: c in all <==> c in candidates
    ensures best != [] && best[0] == all[0]
  {
    assert all[0] in all;
    if all[0] !in best {
      assert best[limit - 1] in all;
      var j :| 0 <= j < |all| && all[j] == best[limit - 1];
      PrecedesTotal(entries, terms, all[0], best[limit - 1]);
    } else {
      var i :| 0 <= i < |best| && best[i] == all[0];
      assert best[0] in all;
      var j :| 0 <= j < |all| && all[j] == best[0];
      PrecedesTotal(entries, terms, all[0], best[0]);
    }
  }

  lemma {:induction false} PointExists(entries: seq<SearchEntry>, terms: seq<string>, order: seq<nat>, c: nat)
    returns (at: nat)
    requires Ranked(entries, terms, order) && c < |entries| && c !in order
    ensures at <= |order|
    ensures forall k :: 0 <= k < at ==> Precedes(entries, terms, order[k], c)
    ensures at < |order| ==> Precedes(entries, terms, c, order[at])
  {
    at := 0;
    while at < |order| && !Precedes(entries, terms, c, order[at])
      invariant at <= |order|
      invariant forall k :: 0 <= k < at ==> Precedes(entries, terms, order[k], c)
    {
      PrecedesTotal(entries, terms, order[at], c);
      at := at + 1;
    }
  }

  /** Any candidates can be ranked in full. */
  lemma {:induction false} RankingExists(entries: seq<SearchEntry>, terms: seq<string>, candidates: set<nat>)
    returns (all: seq<nat>)
    requires forall c :: c in candidates ==> c < |entries|
    ensures Ranked(entries, terms, all) && forall c :: c in all <==> c in candidates
  {
    all := [];
    var left := candidates;
    while left != {}
      invariant left <= candidates
      invariant Ranked(entries, terms, all) && forall c :: c in all <==> c in candidates - left
      decreases left
    {
      var c :| c in left;
      var at := PointExists(entries, terms, all, c);
      InsertedIsRanked(entries, terms, all, at, c);
      forall x: nat ensures x in Inserted(all, at, c) <==> x in candidates - (left - {c}) {
        InsertedHolds(all, at, c, x);
      }
      all, left := Inserted(all, at, c), left - {c};
    }
  }

  // ---- The complete name ----

  const BEST_TERM_SCORE := 6

  lemma {:induction false} BaseScoreAtMost(entry: SearchEntry, terms: seq<string>)
    ensures BaseScore(entry, terms) <= BEST_TERM_SCORE * |terms|
  {
    if terms != [] {
      BaseScoreAtMost(entry, terms[1..]);
    }
  }

  lemma {:induction false} BaseScoreOfName(entry: SearchEntry, terms: seq<string>)
    requires forall k :: 0 <= k < |terms| ==> terms[k] in entry.toolTokens
    ensures BaseScore(entry, terms) == BEST_TERM_SCORE * |terms|
  {
    if terms != [] {
      BaseScoreOfName(entry, terms[1..]);
    }
  }

  lemma QueryTermsAreTokens(alphabet: Alphabet, query: string)
    requires alphabet.Sound()
    ensures AreTokens(QueryTerms(alphabet, query)) && NoRepeats(QueryTerms(alphabet, query))
  {
    var terms := alphabet.NormalizeTokens(query);
    alphabet.NormalizedAreTokens(query);
    UnseenExactly(terms, {});
    forall k | 0 <= k < |Distinct(terms)| ensures IsToken(Distinct(terms)[k]) {
      assert Distinct(terms)[k] in terms;
    }
  }

  /** The boost goes to names whose tokens are exactly the query's distinct terms. */
  lemma NameMatchesExactly(alphabet: Alphabet, server: string, toolIndex: nat, tool: ToolDefinition, query: string)
    requires alphabet.Sound()
    ensures NameMatches(EntryFor(alphabet, server, toolIndex, tool), QueryTerms(alphabet, query))
       <==> QueryTerms(alphabet, query) != [] && QueryTerms(alphabet, query) == alphabet.NormalizeTokens(tool.name)
  {
    var terms, name := QueryTerms(alphabet, query), alphabet.NormalizeTokens(tool.name);
    QueryTermsAreTokens(alphabet, query);
    alphabet.NormalizedAreTokens(tool.name);
    if Join(terms) == Join(name) {
      JoinInjective(terms, name);
    }
    if terms != [] {
      JoinSplits(terms);
    }
  }

  /**
   * Every tool whose complete name is the query outranks every tool whose
   * name is not, wherever the two stand and however many terms there are.
   */
  lemma CompleteNameDominates(alphabet: Alphabet, entries: seq<SearchEntry>, query: string, i: nat, j: nat)
    requires alphabet.Sound() && i < |entries| && j < |entries|
    requires exists server, index, tool :: entries[i] == EntryFor(alphabet, server, index, tool)
    requires NameMatches(entries[i], QueryTerms(alphabet, query))
    requires !NameMatches(entries[j], QueryTerms(alphabet, query))
    ensures Score(entries[i], QueryTerms(alphabet, query)) > Score(entries[j], QueryTerms(alphabet, query))
    ensures Precedes(entries, QueryTerms(alphabet, query), i, j)
  {
    var terms := QueryTerms(alphabet, query);
    var server, index, tool :| entries[i] == EntryFor(alphabet, server, index, tool);
    NameMatchesExactly(alphabet, server, index, tool, query);
    BaseScoreOfName(entries[i], terms);
    BaseScoreAtMost(entries[j], terms);
  }

  /**
   * A query that normalises to a tool's complete name gets that tool the boost
   * exactly when the name has tokens and repeats none of them.
   */
  lemma CompleteNameBoosted(alphabet: Alphabet, server: string, toolIndex: nat, tool: ToolDefinition, query: string)
    requires alphabet.Sound()
    requires alphabet.NormalizeTokens(query) == alphabet.NormalizeTokens(tool.name)
    ensures NameMatches(EntryFor(alphabet, server, toolIndex, tool), QueryTerms(alphabet, query))
       <==> alphabet.NormalizeTokens(tool.name) != [] && NoRepeats(alphabet.NormalizeTokens(tool.name))
  {
    var name := alphabet.NormalizeTokens(tool.name);
    NameMatchesExactly(alphabet, server, toolIndex, tool, query);
    UnseenExactly(name, {});
    if NoRepeats(name) {
      UnseenKeepsDistinct(name, {});
    }
    assert name != [] ==> name[0] in name;
    assert Distinct(name) == [] ==> name == [];
  }

  /** A name that repeats a token: queried in full, it is not taken for the complete name. */
  lemma RepeatedNameIsNotBoosted()
    ensures var alphabet := Alphabet(c => c != ' ', s => s);
            alphabet.Sound() && !NameMatches(EntryFor(alphabet, "s", 0, ToolDefinition("a a", "", "")), QueryTerms(alphabet, "a a"))
  {
    var alphabet := Alphabet(c => c != ' ', s => s);
    assert "a a"[1..] == " a" && " a"[1..] == "a" && "a"[1..] == "";
    assert alphabet.Split("") == [""];
    assert ['a'] + "" == "a";
    assert ["a"] + [""][1..] == ["a"];
    assert alphabet.Split("a") == ["a"];
    assert alphabet.Split(" a") == ["", "a"];
    assert ["a"] + ["", "a"][1..] == ["a", "a"];
    assert alphabet.Split("a a") == ["a", "a"];
    assert ["a", "a"][1..] == ["a"] && ["a"][1..] == [];
    assert alphabet.NormalizeTokens("a a") == ["a", "a"];
    CompleteNameBoosted(alphabet, "s", 0, ToolDefinition("a a", "", ""), "a a");
    assert ["a", "a"][0] == ["a", "a"][1];
  }

  // ---- The order of the terms ----

  lemma {:induction false} BaseScoreConcat(entry: SearchEntry, a: seq<string>, b: seq<string>)
    ensures BaseScore(entry, a + b) == BaseScore(entry, a) + BaseScore(entry, b)
  {
    if a == [] {
      Seqs.DropNothing(b);
    } else {
      assert (a + b)[1..] == a[1..] + b;
      BaseScoreConcat(entry, a[1..], b);
    }
  }

  /** Reordering terms changes neither which tools match nor their base score. */
  lemma {:induction false} TermOrderIsIrrelevant(entries: seq<SearchEntry>, entry: SearchEntry, a: seq<string>, b: seq<string>)
    requires multiset(a) == multiset(b)
    ensures BaseScore(entry, a) == BaseScore(entry, b)
    ensures ScanAll(entries, a) == ScanAll(entries, b)
  {
    forall t ensures t in a <==> t in b {
      assert t in multiset(a) <==> t in multiset(b);
    }
    forall i: nat | i < |entries| ensures i in ScanAll(entries, a) <==> i in ScanAll(entries, b) {
      assert (forall k :: 0 <= k < |a| ==> TermScore(entries[i], a[k]) > 0) <==> forall t :: t in a ==> TermScore(entries[i], t) > 0;
      assert (forall k :: 0 <= k < |b| ==> TermScore(entries[i], b[k]) > 0) <==> forall t :: t in b ==> TermScore(entries[i], t) > 0;
    }
    BaseScorePermuted(entry, a, b);
  }

  lemma BaseScoreWithout(entry: SearchEntry, terms: seq<string>, k: nat)
    requires k < |terms|
    ensures BaseScore(entry, terms) == TermScore(entry, terms[k]) + BaseScore(entry, terms[..k] + terms[k + 1..])
  {
    var before, after := terms[..k], terms[k + 1..];
    assert terms == before + ([terms[k]] + after);
    BaseScoreConcat(entry, before, [terms[k]] + after);
    BaseScoreConcat(entry, [terms[k]], after);
    BaseScoreConcat(entry, before, after);
  }

  lemma MultisetWithout(terms: seq<string>, k: nat)
    requires k < |terms|
    ensures multiset(terms[..k] + terms[k + 1..]) == multiset(terms) - multiset{terms[k]}
  {
    assert terms == terms[..k] + ([terms[k]] + terms[k + 1..]);
  }

  lemma SameWithout(a: seq<string>, b: seq<string>, k: nat)
    requires multiset(a) == multiset(b) && a != [] && k < |b| && b[k] == a[0]
    ensures multiset(a[1..]) == multiset(b[..k] + b[k + 1..])
  {
    MultisetWithout(a, 0);
    MultisetWithout(b, k);
    Seqs.DropNothing(a[1..]);
    assert a[..0] == [];
  }

  lemma Occurs(a: seq<string>, b: seq<string>) returns (k: nat)
    requires multiset(a) == multiset(b) && a != []
    ensures k < |b| && b[k] == a[0]
  {
    assert a[0] in multiset(b);
    k :| k < |b| && b[k] == a[0];
  }

  lemma {:induction false} BaseScorePermuted(entry: SearchEntry, a: seq<string>, b: seq<string>)
    requires multiset(a) == multiset(b)
    ensures BaseScore(entry, a) == BaseScore(entry, b)
  {
    if a == [] {
      assert |multiset(b)| == |b|;
    } else {
      var k := Occurs(a, b);
      SameWithout(a, b, k);
      BaseScorePermuted(entry, a[1..], b[..k] + b[k + 1..]);
      BaseScoreWithout(entry, b, k);
    }
  }
}
