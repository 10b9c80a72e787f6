/** The sliding-window strategy: a fixed head, and as much of the recent tail as fits. */
module SlidingWindow {
  import opened Messages
  import opened Budget
  import opened BudgetBounds
  import opened Exchanges
  import Seqs

  /** The head: a leading system message and the pinned prefix, up to an exchange edge. */
  function HeadEnd(messages: seq<Message>, pinned: nat): (end: nat)
    requires messages != []
    ensures end <= |messages|
  {
    var offset := if messages[0].role.System? then 1 else 0;
    var end := Min(offset + pinned, |messages|);
    if pinned > 0 then Edge(messages, end) else end
  }

  /** Start of the longest suffix costing at most `budget`. */
  function LongestFit(e: Estimator, rest: seq<Message>, budget: nat): (start: nat)
    ensures start <= |rest|
  {
    if rest == [] || e.Total(rest) <= budget then 0 else 1 + LongestFit(e, rest[1..], budget)
  }

  function SelectedWindow(e: Estimator, pinned: nat, messages: seq<Message>, limit: u64): seq<Message>
    requires messages != []
  {
    var end := HeadEnd(messages, pinned);
    var head, rest := messages[..end], messages[end..];
    head + rest[TailStart(e, head, rest, limit)..]
  }

  function TailStart(e: Estimator, head: seq<Message>, rest: seq<Message>, limit: u64): (start: nat)
    ensures start <= |rest|
  {
    WindowStart(rest, LongestFit(e, rest, SaturatingSub(limit, e.Total(head))))
  }

  function Compacted(e: Estimator, pinned: nat, messages: seq<Message>, limit: u64): seq<Message> {
    if messages == [] then []
    else Enforced(e, SelectedWindow(e, pinned, messages, limit), limit, HeadEnd(messages, pinned))
  }

  lemma {:induction false} LongestFitIsLongest(e: Estimator, rest: seq<Message>, budget: nat)
    ensures var start := LongestFit(e, rest, budget);
            && e.Total(rest[start..]) <= budget
            && forall s :: 0 <= s < start ==> e.Total(rest[s..]) > budget
  {
    Seqs.DropNothing(rest);
    if rest != [] && e.Total(rest) > budget {
      LongestFitIsLongest(e, rest[1..], budget);
      var start := LongestFit(e, rest, budget);
      Seqs.DropDrop(rest, 1, start);
      forall s | 0 <= s < start ensures e.Total(rest[s..]) > budget {
        if s > 0 {
          Seqs.DropDrop(rest, 1, s);
        }
      }
    }
  }

  /** The walk may stop at the first message that does not fit: none before it can. */
  lemma {:induction false} LongestFitFound(e: Estimator, rest: seq<Message>, budget: nat, start: nat)
    requires start <= |rest|
    requires e.Total(rest[start..]) <= budget
    requires start > 0 ==> e.Total(rest[start - 1..]) > budget
    ensures LongestFit(e, rest, budget) == start
  {
    Seqs.DropNothing(rest);
    if start > 0 {
      e.TotalSplit(rest, start - 1);
      if start > 1 {
        Seqs.DropDrop(rest, 1, start - 1);
      }
      Seqs.DropDrop(rest, 1, start);
      LongestFitFound(e, rest[1..], budget, start - 1);
    }
  }

  // ---- Which window is handed to enforcement ----

  /**
   * The head ends behind a leading system message and the pinned messages. A
   * pin moves that end over the results of the exchange it lands in, if it
   * lands in one: the last message before it that is no result has calls.
   */
  ghost predicate HeadAt(messages: seq<Message>, pinned: nat, end: nat)
    requires messages != []
  {
    var offset := if messages[0].role.System? then 1 else 0;
    var want := if offset + pinned < |messages| then offset + pinned else |messages|;
    && want <= end <= |messages|
    && (forall p :: want <= p < end ==> messages[p].role.Tool?)
    && if pinned == 0 then end == want
       else exists owner :: 0 <= owner < want && OwnsBefore(messages, owner, want)
                         && if messages[owner].toolCalls == [] then end == want else IsEdge(messages, end)
  }

  /** Only results stand between `owner` and `end`, and `owner` is none unless it is the first message. */
  ghost predicate OwnsBefore(messages: seq<Message>, owner: nat, end: nat)
    requires owner < end <= |messages|
  {
    && (owner == 0 || !messages[owner].role.Tool?)
    && forall p :: owner < p < end ==> messages[p].role.Tool?
  }

  /**
   * Behind the head, the suffix from `s` is the longest that the head leaves
   * room for, or costs nothing when it leaves none; the tail starts at `start`.
   */
  ghost predicate WindowFor(e: Estimator, pinned: nat, messages: seq<Message>, limit: u64, end: nat, s: nat, start: nat)
    requires messages != []
  {
    && HeadAt(messages, pinned, end)
    && var head, rest := e.Total(messages[..end]), messages[end..];
    && var most := if head < limit then limit else head;
    && s <= |rest| && head + e.Total(rest[s..]) <= most
    && (forall j :: 0 <= j < s ==> head + e.Total(rest[j..]) > most)
    && StartsRight(rest, s, start)
  }

  lemma {:induction false} OwnerOwns(messages: seq<Message>, i: nat)
    requires i < |messages|
    ensures OwnsBefore(messages, Owner(messages, i), i + 1)
  {
    if i > 0 && messages[i].role.Tool? {
      OwnerOwns(messages, i - 1);
    }
  }

  lemma PinnedEdge(messages: seq<Message>, want: nat) returns (owner: nat)
    requires 0 < want <= |messages|
    ensures owner < want && OwnsBefore(messages, owner, want)
    ensures var end := Edge(messages, want);
            && want <= end <= |messages|
            && (forall p :: want <= p < end ==> messages[p].role.Tool?)
            && if messages[owner].toolCalls == [] then end == want else IsEdge(messages, end)
  {
    owner := Owner(messages, want - 1);
    OwnerOwns(messages, want - 1);
    forall p | want <= p < Edge(messages, want) ensures messages[p].role.Tool? {
      SkippedAreTools(messages, want, p);
    }
  }

  lemma HeadIsAt(messages: seq<Message>, pinned: nat)
    requires messages != []
    ensures HeadAt(messages, pinned, HeadEnd(messages, pinned))
  {
    if pinned > 0 {
      var owner := PinnedEdge(messages, Min((if messages[0].role.System? then 1 else 0) + pinned, |messages|));
    }
  }

  lemma WalkIsLongest(e: Estimator, head: nat, rest: seq<Message>, limit: u64) returns (s: nat)
    ensures s == LongestFit(e, rest, SaturatingSub(limit, head))
    ensures var most := if head < limit then limit else head;
            && head + e.Total(rest[s..]) <= most
            && forall j :: 0 <= j < s ==> head + e.Total(rest[j..]) > most
  {
    s := LongestFit(e, rest, SaturatingSub(limit, head));
    LongestFitIsLongest(e, rest, SaturatingSub(limit, head));
  }

  lemma WindowIsChosen(e: Estimator, pinned: nat, messages: seq<Message>, limit: u64)
    returns (end: nat, s: nat, start: nat)
    requires messages != []
    ensures WindowFor(e, pinned, messages, limit, end, s, start)
    ensures SelectedWindow(e, pinned, messages, limit) == messages[..end] + messages[end..][start..]
    ensures end == HeadEnd(messages, pinned)
  {
    end := HeadEnd(messages, pinned);
    HeadIsAt(messages, pinned);
    s := WalkIsLongest(e, e.Total(messages[..end]), messages[end..], limit);
    TailStartsRight(messages[end..], s);
    start := TailStart(e, messages[..end], messages[end..], limit);
  }

  /** `result` is what enforcement leaves of the window for `messages`. */
  ghost predicate EnforcesWindow(e: Estimator, pinned: nat, messages: seq<Message>, limit: u64, result: seq<Message>)
    requires messages != []
  {
    exists end: nat, s: nat, start: nat ::
      && WindowFor(e, pinned, messages, limit, end, s, start)
      && result == Enforced(e, messages[..end] + messages[end..][start..], limit, end)
  }

  lemma CompactedEnforcesWindow(e: Estimator, pinned: nat, messages: seq<Message>, limit: u64)
    requires messages != []
    ensures EnforcesWindow(e, pinned, messages, limit, Compacted(e, pinned, messages, limit))
  {
    var end, s, start := WindowIsChosen(e, pinned, messages, limit);
  }

  /** There is only one such window: the three positions are determined. */
  lemma OnlyOneWindow(e: Estimator, pinned: nat, messages: seq<Message>, limit: u64,
                      a: (nat, nat, nat), b: (nat, nat, nat))
    requires messages != []
    requires WindowFor(e, pinned, messages, limit, a.0, a.1, a.2) && WindowFor(e, pinned, messages, limit, b.0, b.1, b.2)
    ensures a == b
  {
    OnlyOneHead(messages, pinned, a.0, b.0);
    TailStartsRight(messages[a.0..], a.1);
  }

  lemma OnlyOneHead(messages: seq<Message>, pinned: nat, a: nat, b: nat)
    requires messages != [] && HeadAt(messages, pinned, a) && HeadAt(messages, pinned, b)
    ensures a == b
  {
  }

  datatype Strategy = Strategy(pinnedPrefix: nat, estimator: Estimator) {

    method Compact(messages: seq<Message>, limit: u64) returns (result: seq<Message>)
      ensures result == Compacted(estimator, pinnedPrefix, messages, limit)
      ensures if messages == [] then result == []
              else EnforcesWindow(estimator, pinnedPrefix, messages, limit, result)
    {
      if messages == [] {
        return [];
      }
      var offset := if messages[0].role.System? then 1 else 0;
      var headEnd := Min(offset + pinnedPrefix, |messages|);
      if pinnedPrefix > 0 {
        headEnd := ExchangeEdge(messages, headEnd);
      }
      var head, rest := messages[..headEnd], messages[headEnd..];
      var remaining := RemainingAfter(head, limit);
      var start := WalkBack(rest, remaining);
      start := KeptWindowStart(rest, start);
      var window := new Window(head + rest[start..]);
      window.EnforceTokenBudget(estimator, limit, headEnd);
      result := window.messages;
      CompactedEnforcesWindow(estimator, pinnedPrefix, messages, limit);
    }

    /** What a head leaves of the limit: the head is kept even when it leaves nothing. */
    method RemainingAfter(head: seq<Message>, limit: u64) returns (remaining: nat)
      ensures remaining == SaturatingSub(limit, estimator.Total(head))
    {
      remaining := limit;
      for i := 0 to |head|
        invariant remaining == SaturatingSub(limit, estimator.Total(head[..i]))
      {
        remaining := SaturatingSub(remaining, estimator.MessageTokens(head[i]));
        TotalExtend(estimator, head, i);
      }
      Seqs.DropNothing(head);
    }

    /** Walk from the end until a message no longer fits. */
    method WalkBack(rest: seq<Message>, budget: nat) returns (start: nat)
      ensures start == LongestFit(estimator, rest, budget)
    {
      var remaining := budget;
      start := |rest|;
      Seqs.DropNothing(rest);
      while start > 0
        invariant start <= |rest|
        invariant remaining == budget - estimator.Total(rest[start..])
      {
        var cost := estimator.MessageTokens(rest[start - 1]);
        TotalFrom(estimator, rest, start - 1);
        if cost > remaining {
          break;
        }
        remaining := remaining - cost;
        start := start - 1;
      }
      LongestFitFound(estimator, rest, budget, start);
    }
  }

  lemma TotalFrom(e: Estimator, messages: seq<Message>, i: nat)
    requires i < |messages|
    ensures e.Total(messages[i..]) == e.MessageTokens(messages[i]) + e.Total(messages[i + 1..])
  {
    assert messages[i..][1..] == messages[i + 1..];
  }

  lemma TotalExtend(e: Estimator, messages: seq<Message>, i: nat)
    requires i < |messages|
    ensures e.Total(messages[..i + 1]) == e.Total(messages[..i]) + e.MessageTokens(messages[i])
  {
    assert messages[..i + 1] == messages[..i] + [messages[i]];
    e.TotalConcat(messages[..i], [messages[i]]);
    e.TotalSingle(messages[i]);
  }

  // ---- Exchange integrity ----

  /** The boundary moves to the nearest edge at or after it. */
  lemma EdgeIsEdge(messages: seq<Message>, headEnd: nat)
    requires WellFormed(messages) && 0 < headEnd <= |messages|
    ensures var end := Edge(messages, headEnd);
            && headEnd <= end <= |messages| && IsEdge(messages, end)
            && forall p :: headEnd <= p < end ==> !IsEdge(messages, p)
  {
    var owner := Owner(messages, headEnd - 1);
    if headEnd < |messages| && messages[headEnd].role.Tool? {
      assert Placed(messages, headEnd) && Placed(messages, 0);
      if owner < headEnd - 1 {
        OwnedAreTools(messages, headEnd - 1, owner + 1);
        assert Placed(messages, owner + 1);
      }
    }
    forall p | headEnd <= p < Edge(messages, headEnd) ensures !IsEdge(messages, p) {
      SkippedAreTools(messages, headEnd, p);
    }
  }

  lemma HeadEndsOnEdge(messages: seq<Message>, pinned: nat)
    requires messages != [] && WellFormed(messages)
    ensures IsEdge(messages, HeadEnd(messages, pinned))
  {
    assert Placed(messages, 0);
    if pinned > 0 {
      EdgeIsEdge(messages, Min((if messages[0].role.System? then 1 else 0) + pinned, |messages|));
    } else if messages[0].role.System? && |messages| > 1 {
      assert Placed(messages, 1);
    }
  }

  lemma WindowSelects(messages: seq<Message>, end: nat, start: nat, whole: bool)
    requires end + start <= |messages|
    requires whole ==> WellFormed(messages) && IsEdge(messages, end) && IsEdge(messages[end..], start)
    ensures var window := messages[..end] + messages[end..][start..];
            Selects(messages, window, whole) && (whole ==> WellFormed(window) && IsEdge(window, end))
  {
    Seqs.DropDrop(messages, end, end + start);
    SelectsCut(messages, end, end + start, whole);
    if whole {
      SelectsWellFormed(messages, messages[..end] + messages[end..][start..]);
    }
  }

  lemma SelectedWindowSelects(e: Estimator, pinned: nat, messages: seq<Message>, limit: u64, whole: bool)
    requires messages != [] && (whole ==> WellFormed(messages))
    ensures var window := SelectedWindow(e, pinned, messages, limit);
            && HeadEnd(messages, pinned) <= |window|
            && Selects(messages, window, whole)
            && (whole ==> WellFormed(window) && IsEdge(window, HeadEnd(messages, pinned)))
  {
    var end := HeadEnd(messages, pinned);
    if whole {
      HeadEndsOnEdge(messages, pinned);
    }
    WindowSelects(messages, end, TailStart(e, messages[..end], messages[end..], limit), whole);
  }

  lemma CompactedSelects(e: Estimator, pinned: nat, messages: seq<Message>, limit: u64, whole: bool)
    requires messages != [] && (whole ==> WellFormed(messages))
    ensures var out := Compacted(e, pinned, messages, limit);
            && Selects(messages, out, whole)
            && (whole ==> WellFormed(out) && IsEdge(out, HeadEnd(messages, pinned)))
  {
    var window := SelectedWindow(e, pinned, messages, limit);
    SelectedWindowSelects(e, pinned, messages, limit, whole);
    EnforcedSelects(e, window, limit, HeadEnd(messages, pinned), whole);
    SelectsTransitive(messages, window, Compacted(e, pinned, messages, limit), whole);
    if whole {
      SelectsWellFormed(messages, Compacted(e, pinned, messages, limit));
    }
  }

  /**
   * Wherever the pin or the budget falls, compaction keeps each call with its
   * whole run of results or drops all of it, and changes nothing but content.
   */
  lemma ExchangeIntegrity(e: Estimator, pinned: nat, messages: seq<Message>, limit: u64)
    requires WellFormed(messages)
    ensures var out := Compacted(e, pinned, messages, limit);
            && WellFormed(out)
            && exists keep :: AllOrNothing(messages, keep) && SameShapes(Retain(messages, keep), out)
  {
    var out := Compacted(e, pinned, messages, limit);
    if messages == [] {
      assert AllOrNothing(messages, []) && SameShapes(Retain(messages, []), out);
    } else {
      CompactedSelects(e, pinned, messages, limit, true);
      var keep :| SelectedBy(messages, out, true, keep);
      TiedIsAllOrNothing(messages, keep);
    }
  }

  // ---- Anchoring ----

  function LastUserTurn(messages: seq<Message>): Option<Message> {
    match LastOf(messages, User)
    case None => None
    case Some(i) => Some(messages[i])
  }

  predicate SameTurn(a: Option<Message>, b: Option<Message>) {
    a.Some? == b.Some? && (a.Some? ==> SameShape(a.value, b.value))
  }

  /** `after` ends on the same message as `before` and has the same last user turn. */
  predicate SameAnchors(before: seq<Message>, after: seq<Message>) {
    && before != [] && after != []
    && SameShape(before[|before| - 1], after[|after| - 1])
    && SameTurn(LastUserTurn(before), LastUserTurn(after))
  }

  /** A user turn leads, if there is any. */
  predicate UserFirst(tail: seq<Message>) {
    LastUserTurn(tail).Some? ==> tail[0].role.User?
  }

  lemma {:induction false} LastUserTurnConcat(a: seq<Message>, b: seq<Message>)
    ensures LastUserTurn(a + b) == if LastUserTurn(b).Some? then LastUserTurn(b) else LastUserTurn(a)
  {
    if b == [] {
      Seqs.DropNothing(a);
    } else {
      var n := |a + b| - 1;
      assert (a + b)[..n] == a + b[..|b| - 1];
      LastUserTurnConcat(a, b[..|b| - 1]);
    }
  }

  lemma {:induction false} LastUserTurnShapes(a: seq<Message>, b: seq<Message>)
    requires SameShapes(a, b)
    ensures SameTurn(LastUserTurn(a), LastUserTurn(b))
  {
    if a != [] {
      LastUserTurnShapes(a[..|a| - 1], b[..|b| - 1]);
    }
  }

  lemma NormalizedParts(messages: seq<Message>, head: seq<Message>, tail: seq<Message>)
    requires |head| <= |messages| && head == messages[..|head|] && tail == messages[|head|..]
    ensures var first := FirstOf(tail, User);
            Normalized(messages, |head|) == if first.Some? then head + messages[|head| + first.value..] else messages
  {
  }

  lemma NormalizedTail(head: seq<Message>, tail: seq<Message>)
    ensures var first := FirstOf(tail, User);
            Normalized(head + tail, |head|) == head + if first.Some? then tail[first.value..] else tail
  {
    Seqs.Parts(head, tail);
    NormalizedParts(head + tail, head, tail);
    var first := FirstOf(tail, User);
    if first.Some? {
      Seqs.DropMore(head + tail, |head|, first.value);
    }
  }

  lemma SameLastUser(tail: seq<Message>, start: nat, after: seq<Message>, u: Option<nat>, v: Option<nat>)
    requires start <= |tail| && after == tail[start..]
    requires u == LastOf(tail, User) && v == LastOf(after, User)
    requires u.Some? == v.Some? && (u.Some? ==> start <= u.value && v.value == u.value - start)
    ensures LastUserTurn(after) == LastUserTurn(tail)
  {
  }

  lemma LastUserTurnSuffix(tail: seq<Message>, start: nat)
    requires start <= |tail| && (LastOf(tail, User).Some? ==> start <= LastOf(tail, User).value)
    ensures LastUserTurn(tail[start..]) == LastUserTurn(tail)
  {
    LastOfSuffix(tail, start);
    SameLastUser(tail, start, tail[start..], LastOf(tail, User), LastOf(tail[start..], User));
  }

  lemma SameFinal(tail: seq<Message>, start: nat, after: seq<Message>)
    requires start < |tail| && after == tail[start..]
    ensures after != [] && SameShape(tail[|tail| - 1], after[|after| - 1])
  {
    assert after[|after| - 1] == tail[|tail| - 1];
  }

  lemma AnchorsAgree(before: seq<Message>, after: seq<Message>, turn: Option<Message>)
    requires before != [] && after != [] && SameShape(before[|before| - 1], after[|after| - 1])
    requires LastUserTurn(before) == turn && LastUserTurn(after) == turn
    ensures SameAnchors(before, after)
  {
  }

  /** A suffix that holds the last user turn has the same anchors. */
  lemma SuffixAnchors(tail: seq<Message>, start: nat)
    requires start < |tail| && (LastOf(tail, User).Some? ==> start <= LastOf(tail, User).value)
    ensures SameAnchors(tail, tail[start..])
  {
    LastUserTurnSuffix(tail, start);
    SameFinal(tail, start, tail[start..]);
    AnchorsAgree(tail, tail[start..], LastUserTurn(tail));
  }

  lemma UserTailAnchors(tail: seq<Message>, first: nat)
    requires FirstOf(tail, User) == Some(first)
    ensures first < |tail| && SameAnchors(tail, tail[first..]) && UserFirst(tail[first..])
  {
    LastOfIsLast(tail, User, first);
    SuffixAnchors(tail, first);
  }

  lemma NoUserAnchors(tail: seq<Message>)
    requires tail != [] && FirstOf(tail, User).None?
    ensures SameAnchors(tail, tail) && UserFirst(tail)
  {
    if LastOf(tail, User).Some? {
      FirstOfIsFirst(tail, User, LastOf(tail, User).value);
    }
  }

  lemma NormalizedAnchors(head: seq<Message>, tail: seq<Message>) returns (after: seq<Message>)
    requires tail != []
    ensures Normalized(head + tail, |head|) == head + after
    ensures SameAnchors(tail, after) && UserFirst(after)
  {
    NormalizedTail(head, tail);
    var first := FirstOf(tail, User);
    if first.Some? {
      UserTailAnchors(tail, first.value);
      after := tail[first.value..];
    } else {
      NoUserAnchors(tail);
      after := tail;
    }
  }

  lemma PrefixedAnchors(block: seq<Message>, tail: seq<Message>, inner: seq<Message>)
    requires SameAnchors(tail, inner)
    ensures SameAnchors(block + tail, block + inner)
  {
    LastUserTurnConcat(block, tail);
    LastUserTurnConcat(block, inner);
    assert LastUserTurn(block).Some? ==> SameShape(LastUserTurn(block).value, LastUserTurn(block).value);
  }

  lemma {:induction false} DropOldestAnchors(e: Estimator, kept: seq<Message>, rest: seq<Message>, limit: u64)
    returns (after: seq<Message>)
    requires rest != []
    ensures DropOldest(e, kept, rest, limit) == kept + after
    ensures SameAnchors(rest, after)
    decreases |rest|
  {
    var n := BlockLength(rest);
    if e.Total(kept + rest) <= limit || n == |rest| {
      after := rest;
    } else {
      var block, tail := rest[..n], rest[n..];
      FirstBlockDropped(e, kept, rest, n, block, tail, limit);
      if HoldsLastUser(rest, n) {
        var inner := DropOldestAnchors(e, kept + block, tail, limit);
        after := block + inner;
        Seqs.Rejoin(rest, n);
        PrefixedAnchors(block, tail, inner);
        Seqs.ConcatAssociative(kept, block, inner);
      } else {
        after := DropOldestAnchors(e, kept, tail, limit);
        SuffixAnchors(rest, n);
        AnchorsTransitive(rest, tail, after);
      }
    }
  }

  lemma SplitShapes(head: seq<Message>, tail: seq<Message>, out: seq<Message>)
    requires SameShapes(head + tail, out)
    ensures SameShapes(head, out[..|head|]) && SameShapes(tail, out[|head|..])
    ensures out == out[..|head|] + out[|head|..]
    ensures tail != [] ==> SameAnchors(tail, out[|head|..])
    ensures UserFirst(tail) ==> UserFirst(out[|head|..])
  {
    forall i | 0 <= i < |head| ensures SameShape(head[i], out[..|head|][i]) {
      assert SameShape((head + tail)[i], out[i]);
    }
    forall i | 0 <= i < |tail| ensures SameShape(tail[i], out[|head|..][i]) {
      assert SameShape((head + tail)[|head| + i], out[|head| + i]);
    }
    LastUserTurnShapes(tail, out[|head|..]);
  }

  lemma DropPassAnchors(e: Estimator, head: seq<Message>, tail: seq<Message>, limit: u64)
    returns (after: seq<Message>)
    requires tail != [] && UserFirst(tail)
    ensures DropPass(e, head + tail, limit, |head|) == head + after
    ensures SameAnchors(tail, after) && UserFirst(after)
  {
    var messages := head + tail;
    assert messages[..|head|] == head && messages[|head|..] == tail;
    var left := DropOldestAnchors(e, head, tail, limit);
    if |head + left| == |messages| {
      after := tail;
    } else {
      after := NormalizedAnchors(head, left);
      AnchorsTransitive(tail, left, after);
    }
  }

  lemma AnchorsTransitive(a: seq<Message>, b: seq<Message>, c: seq<Message>)
    requires SameAnchors(a, b) && SameAnchors(b, c)
    ensures SameAnchors(a, c)
  {
  }

  lemma EnforcedAnchors(e: Estimator, head: seq<Message>, tail: seq<Message>, limit: u64)
    requires tail != []
    ensures var out := Enforced(e, head + tail, limit, |head|);
            && |head| < |out|
            && SameShapes(head, out[..|head|])
            && SameAnchors(tail, out[|head|..])
            && UserFirst(out[|head|..])
  {
    var normal := NormalizedAnchors(head, tail);
    var shrunk := Shrunk(e, head + tail, limit, |head|);
    ShrunkShape(e, head + tail, limit, |head|);
    SplitShapes(head, normal, shrunk);
    var head1, tail1 := shrunk[..|head|], shrunk[|head|..];
    var after := DropPassAnchors(e, head1, tail1, limit);
    var out := Enforced(e, head + tail, limit, |head|);
    assert out == head1 + after;
    assert out[..|head|] == head1 && out[|head|..] == after;
    AnchorsTransitive(tail, normal, tail1);
    AnchorsTransitive(tail, tail1, after);
  }

  lemma EnforcedHeadOnly(e: Estimator, head: seq<Message>, limit: u64)
    ensures SameShapes(head, Enforced(e, head, limit, |head|))
  {
    assert head[|head|..] == [];
    ShrunkShape(e, head, limit, |head|);
    var shrunk := Shrunk(e, head, limit, |head|);
    Seqs.DropNothing(shrunk);
  }

  /** `out` keeps the first `end` messages in place, leads on with a user turn, and keeps both anchors. */
  ghost predicate Anchored(messages: seq<Message>, end: nat, out: seq<Message>)
    requires end <= |messages|
  {
    var rest := messages[end..];
    && end <= |out|
    && SameShapes(messages[..end], out[..end])
    && UserFirst(out[end..])
    && (LastUserTurn(rest).Some? ==> end < |out| && SameAnchors(rest, out[end..]))
  }

  /** What the choice of `start` gives: the last user turn is never cut off. */
  lemma WindowAnchors(e: Estimator, messages: seq<Message>, end: nat, start: nat, limit: u64)
    requires end <= |messages| && start <= |messages[end..]|
    requires var last := LastOf(messages[end..], User); last.Some? ==> start <= last.value
    ensures Anchored(messages, end, Enforced(e, messages[..end] + messages[end..][start..], limit, end))
  {
    var head, rest := messages[..end], messages[end..];
    var tail := rest[start..];
    var out := Enforced(e, head + tail, limit, end);
    if tail == [] {
      Seqs.DropNothing(head);
      EnforcedHeadOnly(e, head, limit);
      Seqs.DropNothing(out);
    } else {
      EnforcedAnchors(e, head, tail, limit);
      SuffixAnchors(rest, start);
      AnchorsTransitive(rest, tail, out[end..]);
    }
  }

  lemma CompactedAnchored(e: Estimator, pinned: nat, messages: seq<Message>, limit: u64)
    requires messages != []
    ensures Anchored(messages, HeadEnd(messages, pinned), Compacted(e, pinned, messages, limit))
  {
    var end := HeadEnd(messages, pinned);
    WindowAnchors(e, messages, end, TailStart(e, messages[..end], messages[end..], limit), limit);
  }

  /** `Anchored`, spelled out for the transcript as a whole. */
  lemma AnchoredMeans(messages: seq<Message>, end: nat, out: seq<Message>)
    requires end <= |messages| && Anchored(messages, end, out)
    requires LastUserTurn(messages[end..]).Some?
    ensures end < |out| && out[end].role.User?
    ensures SameTurn(LastUserTurn(messages[end..]), LastUserTurn(out[end..]))
    ensures SameShape(messages[|messages| - 1], out[|out| - 1])
  {
    assert out[end..][0] == out[end];
    assert messages[end..][|messages| - end - 1] == messages[|messages| - 1];
    assert out[end..][|out| - end - 1] == out[|out| - 1];
  }

  /**
   * The fixed head survives in place. When a user turn follows it, the next
   * message kept is a user turn, and both the last user turn and the final
   * message of the transcript are still there.
   */
  lemma Anchoring(e: Estimator, pinned: nat, messages: seq<Message>, limit: u64) returns (end: nat, out: seq<Message>)
    requires messages != []
    ensures end == HeadEnd(messages, pinned) && out == Compacted(e, pinned, messages, limit)
    ensures end <= |out| && SameShapes(messages[..end], out[..end]) && UserFirst(out[end..])
    ensures LastUserTurn(messages[end..]).Some? ==>
              && end < |out|
              && out[end].role.User?
              && SameTurn(LastUserTurn(messages[end..]), LastUserTurn(out[end..]))
              && SameShape(messages[|messages| - 1], out[|out| - 1])
  {
    end, out := HeadEnd(messages, pinned), Compacted(e, pinned, messages, limit);
    CompactedAnchored(e, pinned, messages, limit);
    if LastUserTurn(messages[end..]).Some? {
      AnchoredMeans(messages, end, out);
    }
  }

  // ---- The bound ----

  /** `NumericBound` for a whole compaction. */
  lemma CompactedBound(e: Estimator, pinned: nat, messages: seq<Message>, limit: u64)
    requires e.Sound() && LengthsFit(messages)
    ensures var out := Compacted(e, pinned, messages, limit);
            && e.Total(out) <= e.Total(messages)
            && (|| e.Total(out) <= limit + MAX_TRUNCATION_MARKER
                || (messages != [] &&
                    OnlyResidue(e, SelectedWindow(e, pinned, messages, limit), limit, HeadEnd(messages, pinned))))
  {
    if messages != [] {
      var end := HeadEnd(messages, pinned);
      var rest := messages[end..];
      var start := TailStart(e, messages[..end], rest, limit);
      e.TotalSplit(messages, end);
      e.TotalSplit(rest, start);
      e.TotalConcat(messages[..end], rest[start..]);
      NumericBound(e, SelectedWindow(e, pinned, messages, limit), limit, end);
    }
  }

  // ---- Compaction is settled once it fits ----

  lemma {:induction false} SkipToolsReaches(messages: seq<Message>, start: nat, idx: nat)
    requires start <= idx <= |messages| && IsEdge(messages, idx)
    requires forall k :: start <= k < idx ==> messages[k].role.Tool?
    ensures SkipTools(messages, start) == idx
    decreases idx - start
  {
    if start < idx {
      SkipToolsReaches(messages, start + 1, idx);
    }
  }

  lemma {:induction false} OwnerShapes(a: seq<Message>, b: seq<Message>, i: nat, end: nat)
    requires i < end <= |a| && end <= |b| && SameShapes(a[..end], b[..end])
    ensures Owner(a, i) == Owner(b, i)
  {
    assert SameShape(a[..end][i], b[..end][i]);
    if i > 0 && a[i].role.Tool? {
      OwnerShapes(a, b, i - 1, end);
    }
  }

  /** The same head boundary is found again behind a head of the same shape. */
  lemma EdgeFoundAgain(messages: seq<Message>, out: seq<Message>, headEnd: nat)
    requires 0 < headEnd <= |messages|
    requires var end := Edge(messages, headEnd);
             end <= |out| && SameShapes(messages[..end], out[..end]) && IsEdge(out, end)
    ensures Edge(out, headEnd) == Edge(messages, headEnd)
  {
    var end := Edge(messages, headEnd);
    var owner := Owner(messages, headEnd - 1);
    OwnerShapes(messages, out, headEnd - 1, end);
    assert SameShape(messages[..end][owner], out[..end][owner]);
    if messages[owner].toolCalls != [] {
      forall k | headEnd <= k < end ensures out[k].role.Tool? {
        SkippedAreTools(messages, headEnd, k);
        assert SameShape(messages[..end][k], out[..end][k]);
      }
      SkipToolsReaches(out, headEnd, end);
    }
  }

  lemma HeadFoundAgain(messages: seq<Message>, out: seq<Message>, pinned: nat)
    requires messages != [] && out != [] && |out| <= |messages|
    requires var end := HeadEnd(messages, pinned);
             end <= |out| && SameShapes(messages[..end], out[..end]) && IsEdge(out, end)
    requires pinned > 0 || messages[0].role.System? || !out[0].role.System?
    ensures HeadEnd(out, pinned) == HeadEnd(messages, pinned)
  {
    var end := HeadEnd(messages, pinned);
    var offset := if messages[0].role.System? then 1 else 0;
    if end > 0 {
      assert SameShape(messages[..end][0], out[..end][0]);
      if pinned > 0 {
        EdgeFoundAgain(messages, out, Min(offset + pinned, |messages|));
      }
    }
  }

  lemma FittingStartsAtZero(e: Estimator, messages: seq<Message>, end: nat, limit: u64)
    requires end <= |messages| && e.Total(messages) <= limit && IsEdge(messages, end)
    ensures TailStart(e, messages[..end], messages[end..], limit) == 0
  {
    e.TotalSplit(messages, end);
  }

  lemma UserLedIsNormal(messages: seq<Message>, end: nat)
    requires end <= |messages| && UserFirst(messages[end..])
    ensures Normalized(messages, end) == messages
  {
    var rest := messages[end..];
    Seqs.Rejoin(messages, end);
    NormalizedTail(messages[..end], rest);
    Seqs.DropNothing(rest);
    var first := FirstOf(rest, User);
    if first.Some? {
      LastOfIsLast(rest, User, first.value);
      FirstOfIsFirst(rest, User, 0);
    }
  }

  /** A transcript that fits and starts as compaction leaves it is not touched. */
  lemma SettledIsKept(e: Estimator, pinned: nat, messages: seq<Message>, limit: u64)
    requires messages != [] && e.Total(messages) <= limit
    requires IsEdge(messages, HeadEnd(messages, pinned)) && UserFirst(messages[HeadEnd(messages, pinned)..])
    ensures Compacted(e, pinned, messages, limit) == messages
  {
    var end := HeadEnd(messages, pinned);
    FittingStartsAtZero(e, messages, end, limit);
    Seqs.DropNothing(messages[end..]);
    Seqs.Rejoin(messages, end);
    UserLedIsNormal(messages, end);
    WithinLimit(e, messages, limit, end);
  }

  lemma SelectsFewer(messages: seq<Message>, out: seq<Message>)
    requires Selects(messages, out, true)
    ensures |out| <= |messages|
  {
    var keep :| SelectedBy(messages, out, true, keep);
  }

  lemma SystemLedTail(out: seq<Message>)
    requires out != [] && out[0].role.System? && UserFirst(out[0..])
    ensures UserFirst(out[1..])
  {
    Seqs.DropNothing(out);
    LastOfSuffix(out, 1);
  }

  /** `out` keeps the head of `messages`, fits, and leads with a user turn. */
  lemma SettledBehindHead(e: Estimator, pinned: nat, messages: seq<Message>, out: seq<Message>, end: nat, limit: u64)
    requires messages != [] && out != [] && |out| <= |messages| && end == HeadEnd(messages, pinned) <= |out|
    requires SameShapes(messages[..end], out[..end]) && IsEdge(out, end) && UserFirst(out[end..])
    requires WellFormed(out) && e.Total(out) <= limit
    ensures Compacted(e, pinned, out, limit) == out
    ensures HeadEnd(out, pinned) == end <==> pinned > 0 || messages[0].role.System? || !out[0].role.System?
  {
    HeadEndsOnEdge(out, pinned);
    if pinned > 0 || messages[0].role.System? || !out[0].role.System? {
      HeadFoundAgain(messages, out, pinned);
    } else {
      SystemLedTail(out);
    }
    SettledIsKept(e, pinned, out, limit);
  }

  /** With a user turn to lead it, a result whose head is empty starts with that turn. */
  lemma UserLeadsHeadless(e: Estimator, messages: seq<Message>, limit: u64)
    requires messages != [] && !messages[0].role.System? && LastUserTurn(messages).Some?
    ensures Compacted(e, 0, messages, limit) != [] && Compacted(e, 0, messages, limit)[0].role.User?
  {
    Seqs.DropNothing(messages);
    var end, out := Anchoring(e, 0, messages, limit);
  }

  lemma NoUserIsNormal(messages: seq<Message>)
    requires LastOf(messages, User).None?
    ensures Normalized(messages, 0) == messages
  {
    Seqs.DropNothing(messages);
    if FirstOf(messages, User).Some? {
      LastOfIsLast(messages, User, FirstOf(messages, User).value);
    }
  }

  lemma SuffixWithinLimit(e: Estimator, messages: seq<Message>, limit: u64)
    ensures var s := TailStart(e, [], messages, limit);
            LastOf(messages, User).None? ==> LastOf(messages[s..], User).None? && e.Total(messages[s..]) <= limit
  {
    if LastOf(messages, User).None? {
      var fit, s := LongestFit(e, messages, limit), TailStart(e, [], messages, limit);
      LongestFitIsLongest(e, messages, limit);
      LastOfSuffix(messages, s);
      e.TotalSplit(messages[fit..], s - fit);
      Seqs.DropDrop(messages, fit, s);
    }
  }

  /** Without a head or a user turn, compaction keeps a suffix of the transcript as it is. */
  lemma UserlessIsSuffix(e: Estimator, messages: seq<Message>, limit: u64)
    requires messages != [] && !messages[0].role.System? && LastOf(messages, User).None?
    ensures Compacted(e, 0, messages, limit) == messages[TailStart(e, [], messages, limit)..]
  {
    var s := TailStart(e, [], messages, limit);
    var tail := messages[s..];
    Seqs.DropNothing(messages);
    Seqs.DropNothing(tail);
    assert messages[..0] == [];
    SuffixWithinLimit(e, messages, limit);
    NoUserIsNormal(tail);
    WithinLimit(e, tail, limit, 0);
  }

  /**
   * Something keeps the head where it is: a pin, a leading system message, a
   * user turn, or a tail that does not begin with a system message.
   */
  predicate HeadSettles(e: Estimator, pinned: nat, messages: seq<Message>, limit: u64)
    requires messages != []
  {
    || pinned > 0
    || messages[0].role.System?
    || LastOf(messages, User).Some?
    || var start := TailStart(e, [], messages, limit);
       start < |messages| ==> !messages[start].role.System?
  }

  lemma HeadSettlesExactly(e: Estimator, pinned: nat, messages: seq<Message>, limit: u64)
    requires messages != [] && Compacted(e, pinned, messages, limit) != []
    ensures HeadSettles(e, pinned, messages, limit)
       <==> pinned > 0 || messages[0].role.System? || !Compacted(e, pinned, messages, limit)[0].role.System?
  {
    if pinned == 0 && !messages[0].role.System? {
      if LastOf(messages, User).Some? {
        UserLeadsHeadless(e, messages, limit);
      } else {
        UserlessIsSuffix(e, messages, limit);
      }
    }
  }

  /**
   * Compacting a result that fits returns it unchanged, and recomputes the head
   * boundary in the same place if and only if the transcript settles its head.
   */
  lemma Fixpoint(e: Estimator, pinned: nat, messages: seq<Message>, limit: u64)
    requires WellFormed(messages)
    requires e.Total(Compacted(e, pinned, messages, limit)) <= limit
    ensures var out := Compacted(e, pinned, messages, limit);
            && Compacted(e, pinned, out, limit) == out
            && (out != [] ==>
                  (HeadEnd(out, pinned) == HeadEnd(messages, pinned) <==> HeadSettles(e, pinned, messages, limit)))
  {
    if Compacted(e, pinned, messages, limit) != [] {
      CompactedSelects(e, pinned, messages, limit, true);
      var end, out := Anchoring(e, pinned, messages, limit);
      SelectsFewer(messages, out);
      SettledBehindHead(e, pinned, messages, out, end, limit);
      HeadSettlesExactly(e, pinned, messages, limit);
    }
  }

  lemma HeadKeepsSomething(e: Estimator, pinned: nat, messages: seq<Message>, limit: u64)
    requires messages != []
    ensures HeadEnd(messages, pinned) > 0 <==> pinned > 0 || messages[0].role.System?
    ensures HeadEnd(messages, pinned) > 0 ==> Compacted(e, pinned, messages, limit) != []
  {
    var end, out := Anchoring(e, pinned, messages, limit);
  }

  /**
   * A transcript is compacted to nothing if and only if it has no head to keep and no user
   * turn to anchor on, and all that is left of the longest fitting suffix are leading tool results.
   */
  lemma EmptyExactly(e: Estimator, pinned: nat, messages: seq<Message>, limit: u64)
    requires messages != []
    ensures Compacted(e, pinned, messages, limit) == []
       <==> && pinned == 0 && !messages[0].role.System? && LastOf(messages, User).None?
            && TailStart(e, [], messages, limit) == |messages|
  {
    HeadKeepsSomething(e, pinned, messages, limit);
    if pinned == 0 && !messages[0].role.System? {
      if LastOf(messages, User).Some? {
        UserLeadsHeadless(e, messages, limit);
      } else {
        UserlessIsSuffix(e, messages, limit);
      }
    }
  }

  /** A lone reply over its limit leaves nothing. */
  lemma LoneReplyVanishes(e: Estimator, messages: seq<Message>, limit: u64)
    requires |messages| == 1 && messages[0].role.Assistant? && e.Total(messages) > limit
    ensures Compacted(e, 0, messages, limit) == []
  {
    Seqs.DropNothing(messages);
    LongestFitFound(e, messages, limit, 1);
    assert LastOf(messages, User).None?;
    EmptyExactly(e, 0, messages, limit);
  }

  lemma SecondStands(e: Estimator, messages: seq<Message>, limit: u64)
    requires |messages| == 2 && messages[1].role.System? && LastOf(messages, User).None?
    requires e.Total(messages) > limit && e.Total(messages[1..]) <= limit
    ensures TailStart(e, [], messages, limit) == 1
  {
    Seqs.DropNothing(messages);
    LongestFitFound(e, messages, limit, 1);
  }

  lemma NoUserInPair(messages: seq<Message>)
    requires |messages| == 2 && !messages[0].role.User? && !messages[1].role.User?
    ensures LastOf(messages, User).None?
  {
    assert messages[..1] == [messages[0]];
    assert LastOf([messages[0]], User).None?;
  }

  lemma NoteOutlivesReply(e: Estimator, messages: seq<Message>, limit: u64)
    requires |messages| == 2 && messages[0].role.Assistant? && messages[1].role.System?
    requires e.Total(messages) > limit && e.Total(messages[1..]) <= limit
    ensures Compacted(e, 0, messages, limit) == messages[1..]
    ensures !HeadSettles(e, 0, messages, limit)
  {
    NoUserInPair(messages);
    SecondStands(e, messages, limit);
    UserlessIsSuffix(e, messages, limit);
  }

  /** Without a pin, a leading system message or a user turn, the boundary can move. */
  lemma HeadBoundaryMoves(e: Estimator, messages: seq<Message>, limit: u64)
    requires |messages| == 2 && messages[0].role.Assistant? && messages[1].role.System?
    requires messages[0].toolCalls == [] == messages[1].toolCalls
    requires e.Total(messages) > limit && e.Total(messages[1..]) <= limit
    ensures var out := Compacted(e, 0, messages, limit);
            && WellFormed(messages) && out == messages[1..] && e.Total(out) <= limit
            && HeadEnd(messages, 0) == 0 && HeadEnd(out, 0) == 1
            && !HeadSettles(e, 0, messages, limit)
  {
    NoteOutlivesReply(e, messages, limit);
  }

  /** A concrete such transcript: each message costs one token, and the limit is one. */
  lemma HeadBoundaryMovesSomewhere() returns (e: Estimator, messages: seq<Message>, limit: u64)
    ensures messages != [] && HeadEnd(messages, 0) == 0
    ensures Compacted(e, 0, messages, limit) != [] && HeadEnd(Compacted(e, 0, messages, limit), 0) == 1
  {
    e, limit := Estimator((t: Text) => if t == [] then [] else [0], (ids: seq<TokenId>) => None, 0), 1;
    var reply, note := Message(Assistant, [0x41], [], None, []), Message(System, [0x42], [], None, []);
    messages := [reply, note];
    assert messages[1..] == [note];
    e.TotalSingle(note);
    HeadBoundaryMoves(e, messages, limit);
  }
}
