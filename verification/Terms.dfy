/** Search terms: how names, descriptions and queries are normalised. */
module Terms {
  import Seqs

  /** Character classes and case folding, left abstract. */
  datatype Alphabet = Alphabet(isAlphanumeric: char -> bool, toLowercase: string -> string) {

    predicate IsWord(s: string) {
      s != "" && forall i :: 0 <= i < |s| ==> isAlphanumeric(s[i])
    }

    /** Folding a word leaves it non-empty and free of spaces. */
    ghost predicate Sound() {
      forall s :: IsWord(s) ==> IsToken(toLowercase(s))
    }

    /** Split at every non-alphanumeric character. */
    function Split(value: string): (pieces: seq<string>)
      ensures pieces != []
    {
      if value == "" then [""]
      else
        var pieces := Split(value[1..]);
        if isAlphanumeric(value[0]) then [[value[0]] + pieces[0]] + pieces[1..]
        else [""] + pieces
    }

    function Lowercased(pieces: seq<string>): seq<string> {
      if pieces == [] then []
      else (if pieces[0] == "" then [] else [toLowercase(pieces[0])]) + Lowercased(pieces[1..])
    }

    function NormalizeTokens(value: string): seq<string> {
      Lowercased(Split(value))
    }

    lemma {:induction false} PiecesAreWords(value: string)
      ensures forall k :: 0 <= k < |Split(value)| ==> Split(value)[k] == "" || IsWord(Split(value)[k])
    {
      if value != "" {
        PiecesAreWords(value[1..]);
      }
    }

    lemma {:induction false} LowercasedAreTokens(pieces: seq<string>)
      requires Sound() && forall k :: 0 <= k < |pieces| ==> pieces[k] == "" || IsWord(pieces[k])
      ensures AreTokens(Lowercased(pieces))
    {
      if pieces != [] {
        LowercasedAreTokens(pieces[1..]);
      }
    }

    // ---- Which words a value has ----

    /** From `a` to `b` stand alphanumeric characters that go on to neither side. */
    ghost predicate IsRun(value: string, a: nat, b: nat) {
      && a < b <= |value|
      && (forall p :: a <= p < b ==> isAlphanumeric(value[p]))
      && (a > 0 ==> !isAlphanumeric(value[a - 1]))
      && (b < |value| ==> !isAlphanumeric(value[b]))
    }

    /** All such runs at or after `from`, in order. */
    ghost predicate AreRuns(value: string, from: nat, runs: seq<(nat, nat)>) {
      && (forall k :: 0 <= k < |runs| ==> from <= runs[k].0 && IsRun(value, runs[k].0, runs[k].1))
      && (forall j, k :: 0 <= j < k < |runs| ==> runs[j].1 < runs[k].0)
      && forall a: nat, b: nat :: from <= a && IsRun(value, a, b) ==> (a, b) in runs
    }

    /** The first piece is what stands before the first separator. */
    lemma {:induction false} FirstPiece(value: string) returns (n: nat)
      ensures n <= |value| && (n < |value| ==> !isAlphanumeric(value[n]))
      ensures forall p :: 0 <= p < n ==> isAlphanumeric(value[p])
      ensures Split(value) == [value[..n]] + if n < |value| then Split(value[n + 1..]) else []
    {
      if value == "" || !isAlphanumeric(value[0]) {
        n := 0;
      } else {
        var m := FirstPiece(value[1..]);
        n := m + 1;
        assert value[..n] == [value[0]] + value[1..][..m];
        if n < |value| {
          Seqs.DropMore(value, 1, m + 1);
        }
      }
    }

    lemma LowercasedStep(first: string, others: seq<string>)
      ensures Lowercased([first] + others) == (if first == "" then [] else [toLowercase(first)]) + Lowercased(others)
    {
    }

    /** A run that starts within alphanumeric characters up to `end` is all of them. */
    lemma OnlyRun(value: string, from: nat, end: nat, a: nat, b: nat)
      requires from <= a < end <= |value| && IsRun(value, a, b)
      requires forall p :: from <= p < end ==> isAlphanumeric(value[p])
      requires end < |value| ==> !isAlphanumeric(value[end])
      ensures a == from && b == end
    {
    }

    lemma RunsInOrder(value: string, from: nat, n: nat, runs: seq<(nat, nat)>)
      requires from + n < |value| && AreRuns(value, from + n + 1, runs)
      requires n > 0 ==> IsRun(value, from, from + n)
      ensures var all := (if n == 0 then [] else [(from, from + n)]) + runs;
              && (forall k :: 0 <= k < |all| ==> from <= all[k].0 && IsRun(value, all[k].0, all[k].1))
              && forall j, k :: 0 <= j < k < |all| ==> all[j].1 < all[k].0
    {
    }

    lemma RunsBehind(value: string, from: nat, n: nat, runs: seq<(nat, nat)>) returns (all: seq<(nat, nat)>)
      requires from + n < |value| && !isAlphanumeric(value[from + n]) && AreRuns(value, from + n + 1, runs)
      requires from > 0 ==> !isAlphanumeric(value[from - 1])
      requires forall p :: from <= p < from + n ==> isAlphanumeric(value[p])
      ensures all == (if n == 0 then [] else [(from, from + n)]) + runs && AreRuns(value, from, all)
    {
      all := (if n == 0 then [] else [(from, from + n)]) + runs;
      RunsInOrder(value, from, n, runs);
      forall a: nat, b: nat | from <= a && IsRun(value, a, b) ensures (a, b) in all {
        assert isAlphanumeric(value[a]);
        if a < from + n {
          OnlyRun(value, from, from + n, a, b);
        } else {
          assert (a, b) in runs;
        }
      }
    }

    lemma LastRun(value: string, from: nat, n: nat) returns (all: seq<(nat, nat)>)
      requires from + n == |value| && (from > 0 ==> !isAlphanumeric(value[from - 1]))
      requires forall p :: from <= p < from + n ==> isAlphanumeric(value[p])
      ensures all == (if n == 0 then [] else [(from, from + n)]) + [] && AreRuns(value, from, all)
    {
      all := (if n == 0 then [] else [(from, from + n)]) + [];
      forall a: nat, b: nat | from <= a && IsRun(value, a, b) ensures (a, b) in all {
        OnlyRun(value, from, from + n, a, b);
      }
    }

    lemma FirstPieceFrom(value: string, from: nat) returns (n: nat)
      requires from <= |value|
      ensures from + n <= |value| && (from + n < |value| ==> !isAlphanumeric(value[from + n]))
      ensures forall p :: from <= p < from + n ==> isAlphanumeric(value[p])
      ensures Split(value[from..])
           == [value[from..from + n]] + if from + n < |value| then Split(value[from + n + 1..]) else []
    {
      var rest := value[from..];
      n := FirstPiece(rest);
      assert forall p :: from <= p < from + n ==> value[p] == rest[p - from];
      assert rest[..n] == value[from..from + n];
      if n < |rest| {
        Seqs.DropMore(value, from, n + 1);
      }
    }

    lemma FoldedBehind(value: string, from: nat, n: nat, runs: seq<(nat, nat)>, tokens: seq<string>)
      requires from + n <= |value| && AreFolded(value, runs, tokens)
      ensures AreFolded(value, (if n == 0 then [] else [(from, from + n)]) + runs,
                (if n == 0 then [] else [toLowercase(value[from..from + n])]) + tokens)
    {
    }

    lemma TokensStep(value: string, from: nat, n: nat, others: seq<string>)
      requires from + n <= |value|
      requires Split(value[from..]) == [value[from..from + n]] + others
      ensures NormalizeTokens(value[from..])
           == (if n == 0 then [] else [toLowercase(value[from..from + n])]) + Lowercased(others)
    {
      LowercasedStep(value[from..from + n], others);
    }

    lemma RunAndBehind(value: string, from: nat, n: nat, behind: seq<(nat, nat)>) returns (runs: seq<(nat, nat)>)
      requires from + n < |value| && !isAlphanumeric(value[from + n]) && (from > 0 ==> !isAlphanumeric(value[from - 1]))
      requires forall p :: from <= p < from + n ==> isAlphanumeric(value[p])
      requires Split(value[from..]) == [value[from..from + n]] + Split(value[from + n + 1..])
      requires AreRuns(value, from + n + 1, behind) && AreFolded(value, behind, NormalizeTokens(value[from + n + 1..]))
      ensures AreRuns(value, from, runs) && AreFolded(value, runs, NormalizeTokens(value[from..]))
    {
      runs := RunsBehind(value, from, n, behind);
      TokensStep(value, from, n, Split(value[from + n + 1..]));
      FoldedBehind(value, from, n, behind, NormalizeTokens(value[from + n + 1..]));
    }

    lemma RunAtEnd(value: string, from: nat, n: nat) returns (runs: seq<(nat, nat)>)
      requires from + n == |value| && (from > 0 ==> !isAlphanumeric(value[from - 1]))
      requires forall p :: from <= p < from + n ==> isAlphanumeric(value[p])
      requires Split(value[from..]) == [value[from..from + n]]
      ensures AreRuns(value, from, runs) && AreFolded(value, runs, NormalizeTokens(value[from..]))
    {
      runs := LastRun(value, from, n);
      TokensStep(value, from, n, []);
      FoldedBehind(value, from, n, [], []);
    }

    /** The tokens from `from` on are the lower-cased runs there, none missing and in order. */
    lemma {:induction false} TokensFrom(value: string, from: nat) returns (runs: seq<(nat, nat)>)
      requires from <= |value| && (from > 0 ==> !isAlphanumeric(value[from - 1]))
      ensures AreRuns(value, from, runs) && AreFolded(value, runs, NormalizeTokens(value[from..]))
      decreases |value| - from
    {
      var n := FirstPieceFrom(value, from);
      if from + n < |value| {
        var behind := TokensFrom(value, from + n + 1);
        runs := RunAndBehind(value, from, n, behind);
      } else {
        runs := RunAtEnd(value, from, n);
      }
    }

    ghost predicate AreFolded(value: string, runs: seq<(nat, nat)>, tokens: seq<string>) {
      && |tokens| == |runs|
      && forall k :: 0 <= k < |runs| ==>
           runs[k].0 <= runs[k].1 <= |value| && tokens[k] == toLowercase(value[runs[k].0..runs[k].1])
    }

    /** Normalising keeps exactly the maximal alphanumeric runs, lower-cased, in order. */
    lemma NormalizedAreRuns(value: string) returns (runs: seq<(nat, nat)>)
      ensures AreRuns(value, 0, runs) && AreFolded(value, runs, NormalizeTokens(value))
    {
      Seqs.DropNothing(value);
      runs := TokensFrom(value, 0);
    }

    lemma NormalizedAreTokens(value: string)
      requires Sound()
      ensures AreTokens(NormalizeTokens(value))
    {
      PiecesAreWords(value);
      LowercasedAreTokens(Split(value));
    }
  }

  predicate IsToken(s: string) {
    s != "" && ' ' !in s
  }

  predicate AreTokens(tokens: seq<string>) {
    forall k :: 0 <= k < |tokens| ==> IsToken(tokens[k])
  }

  function Join(tokens: seq<string>): string {
    if tokens == [] then ""
    else if |tokens| == 1 then tokens[0]
    else tokens[0] + " " + Join(tokens[1..])
  }

  // ---- Joining tokens by a space loses nothing ----

  lemma {:induction false} FirstSpaceSplits(a: string, b: string, restA: string, restB: string)
    requires ' ' !in a && ' ' !in b
    requires restA == "" || restA[0] == ' '
    requires restB == "" || restB[0] == ' '
    requires a + restA == b + restB
    ensures a == b && restA == restB
  {
    assert a != "" ==> (a + restA)[0] == a[0];
    assert b != "" ==> (b + restB)[0] == b[0];
    assert (a == "" ==> a + restA == restA) && (b == "" ==> b + restB == restB);
    if a != "" && b != "" {
      assert (a + restA)[1..] == a[1..] + restA && (b + restB)[1..] == b[1..] + restB;
      FirstSpaceSplits(a[1..], b[1..], restA, restB);
      assert a == [a[0]] + a[1..] && b == [b[0]] + b[1..];
    }
  }

  function Tail(tokens: seq<string>): string
    requires tokens != []
  {
    if |tokens| == 1 then "" else " " + Join(tokens[1..])
  }

  lemma JoinSplits(tokens: seq<string>)
    requires tokens != []
    ensures Join(tokens) == tokens[0] + Tail(tokens)
  {
    if |tokens| == 1 {
      Seqs.DropNothing(tokens[0]);
    } else {
      Seqs.ConcatAssociative(tokens[0], " ", Join(tokens[1..]));
    }
  }

  lemma JoinNotEmpty(tokens: seq<string>)
    requires AreTokens(tokens) && tokens != []
    ensures Join(tokens) != ""
  {
    JoinSplits(tokens);
  }

  /** Equal joins agree on the first token and on the join of the rest. */
  lemma FirstTokenAgrees(a: seq<string>, b: seq<string>)
    requires AreTokens(a) && AreTokens(b) && a != [] && b != [] && Join(a) == Join(b)
    ensures a[0] == b[0] && Join(a[1..]) == Join(b[1..]) && (|a| == 1 <==> |b| == 1)
  {
    JoinSplits(a);
    JoinSplits(b);
    FirstSpaceSplits(a[0], b[0], Tail(a), Tail(b));
    assert |a| > 1 ==> Tail(a)[1..] == Join(a[1..]);
    assert |b| > 1 ==> Tail(b)[1..] == Join(b[1..]);
  }

  lemma {:induction false} JoinInjective(a: seq<string>, b: seq<string>)
    requires AreTokens(a) && AreTokens(b) && Join(a) == Join(b)
    ensures a == b
  {
    if a != [] && b != [] {
      FirstTokenAgrees(a, b);
      JoinInjective(a[1..], b[1..]);
      assert a == [a[0]] + a[1..] && b == [b[0]] + b[1..];
    } else if a != [] {
      JoinNotEmpty(a);
    } else if b != [] {
      JoinNotEmpty(b);
    }
  }

  // ---- Distinct terms, in order of first occurrence ----

  function Unseen(terms: seq<string>, seen: set<string>): seq<string> {
    if terms == [] then []
    else if terms[0] in seen then Unseen(terms[1..], seen)
    else [terms[0]] + Unseen(terms[1..], seen + {terms[0]})
  }

  function Distinct(terms: seq<string>): seq<string> {
    Unseen(terms, {})
  }

  predicate NoRepeats(terms: seq<string>) {
    forall i, j :: 0 <= i < j < |terms| ==> terms[i] != terms[j]
  }

  lemma {:induction false} UnseenExactly(terms: seq<string>, seen: set<string>)
    ensures NoRepeats(Unseen(terms, seen))
    ensures forall t :: t in Unseen(terms, seen) <==> t in terms && t !in seen
  {
    if terms != [] {
      assert terms == [terms[0]] + terms[1..];
      UnseenExactly(terms[1..], if terms[0] in seen then seen else seen + {terms[0]});
    }
  }

  /** `i` is where a term first stands. */
  ghost predicate FirstAt(terms: seq<string>, i: nat) {
    i < |terms| && terms[i] !in terms[..i]
  }

  /** The distinct terms are those at their first positions, in the order of these. */
  ghost predicate AtFirstPositions(terms: seq<string>, distinct: seq<string>, at: seq<nat>) {
    && |at| == |distinct|
    && (forall k :: 0 <= k < |at| ==> FirstAt(terms, at[k]) && terms[at[k]] == distinct[k])
    && (forall j, k :: 0 <= j < k < |at| ==> at[j] < at[k])
    && forall i: nat :: FirstAt(terms, i) ==> i in at
  }

  lemma {:induction false} DistinctExtended(terms: seq<string>, last: string, seen: set<string>)
    ensures Unseen(terms + [last], seen)
         == Unseen(terms, seen) + if last in terms || last in seen then [] else [last]
  {
    if terms == [] {
      assert [last][1..] == [];
    } else {
      assert (terms + [last])[1..] == terms[1..] + [last];
      DistinctExtended(terms[1..], last, if terms[0] in seen then seen else seen + {terms[0]});
      assert last in terms <==> last == terms[0] || last in terms[1..];
    }
  }

  lemma DistinctLast(terms: seq<string>, last: string)
    ensures Distinct(terms + [last]) == if last in terms then Distinct(terms) else Distinct(terms) + [last]
  {
    DistinctExtended(terms, last, {});
    Seqs.DropNothing(Distinct(terms));
  }

  lemma FirstPositionsExtended(terms: seq<string>, last: string, distinct: seq<string>, at: seq<nat>)
    requires AtFirstPositions(terms, distinct, at)
    ensures if last in terms then AtFirstPositions(terms + [last], distinct, at)
            else AtFirstPositions(terms + [last], distinct + [last], at + [|terms|])
  {
    var more := terms + [last];
    assert more[..|terms|] == terms;
    assert forall i :: 0 <= i < |terms| ==> more[..i] == terms[..i];
    forall i: nat ensures FirstAt(more, i) <==> FirstAt(terms, i) || (i == |terms| && last !in terms) {
    }
  }

  lemma {:induction false} DistinctInOrder(terms: seq<string>) returns (at: seq<nat>)
    ensures AtFirstPositions(terms, Distinct(terms), at)
  {
    if terms == [] {
      at := [];
    } else {
      var before, last := terms[..|terms| - 1], terms[|terms| - 1];
      var below := DistinctInOrder(before);
      DistinctLast(before, last);
      Seqs.SplitLast(terms);
      FirstPositionsExtended(before, last, Distinct(before), below);
      at := if last in before then below else below + [|before|];
    }
  }

  lemma {:induction false} UnseenKeepsDistinct(terms: seq<string>, seen: set<string>)
    requires NoRepeats(terms) && forall t :: t in terms ==> t !in seen
    ensures Unseen(terms, seen) == terms
  {
    if terms != [] {
      UnseenKeepsDistinct(terms[1..], seen + {terms[0]});
    }
  }
}
