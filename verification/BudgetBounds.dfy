/** How far over its limit an enforced window can be, and what is left of it then. */
module BudgetBounds {
  import opened Messages
  import opened Budget
  import Seqs

  predicate LengthsFit(messages: seq<Message>) {
    forall i :: 0 <= i < |messages| ==> |messages[i].content| <= U64_MAX
  }

  /** Content that no pass would shrink further. */
  predicate AtFloor(e: Estimator, m: Message) {
    m.role.System? || e.Count(m.content) <= MIN_KEPT_CONTENT_TOKENS
  }

  predicate AllAtFloor(e: Estimator, messages: seq<Message>) {
    forall i :: 0 <= i < |messages| ==> AtFloor(e, messages[i])
  }

  // ---- One message at a time ----

  lemma ShapeFixesImmutable(e: Estimator, a: Message, b: Message)
    requires SameShape(a, b)
    ensures e.MessageTokens(b) == e.MessageTokens(a) - e.Count(a.content) + e.Count(b.content)
  {
    e.CostSplit(a);
    e.CostSplit(b);
  }

  /** Eliding compares byte lengths, yet never raises the token cost. */
  lemma ElidedNeverGrows(e: Estimator, m: Message, spared: bool)
    requires e.SpansBytes() && |m.content| <= U64_MAX
    ensures var r := Elided(e, m, spared);
            SameShape(m, r) && |r.content| <= |m.content| && e.MessageTokens(r) <= e.MessageTokens(m)
  {
    MarkerLengths(|m.content|);
    e.TokensNeedBytes(ElidedMarker(|m.content|));
    ShapeFixesImmutable(e, m, Elided(e, m, spared));
  }

  lemma TruncationCost(e: Estimator, content: Text, target: nat)
    requires e.Sound() && |content| <= U64_MAX
    requires e.Count(content) > target && e.Count(content) > MIN_KEPT_CONTENT_TOKENS
    ensures var shrunk := TruncateToTokens(e, content, target);
            && shrunk != []
            && e.Count(shrunk) < e.Count(content)
            && e.Count(TruncationMarker(|content|)) <= MAX_TRUNCATION_MARKER
            && (e.Count(shrunk) <= target || shrunk == TruncationMarker(|content|))
            && (|shrunk| < |content| ||
                var marker := TruncationMarker(|content|);
                |marker| <= MAX_TRUNCATION_MARKER && e.Count(content) + e.Count(marker) <= target + |marker|)
  {
    var marker := TruncationMarker(|content|);
    MarkerLengths(|content|);
    e.TokensNeedBytes(marker);
    e.TokensNeedBytes(content);
    if e.Count(marker) < target {
      var keep := target - e.Count(marker);
      assert e.PrefixTakesMarker(content, keep);
      assert e.TokensSpanBytes(content, keep);
    }
  }

  /**
   * The arithmetic at the heart of the second pass: the guard compares bytes
   * while the budget is in tokens, and what slips between is one marker.
   */
  lemma TruncatedBound(e: Estimator, m: Message, total: nat, limit: u64)
    requires e.Sound() && |m.content| <= U64_MAX
    requires e.MessageTokens(m) <= total && limit < total
    ensures var r := Truncated(e, m, total, limit);
            && SameShape(m, r) && |r.content| <= |m.content| && e.MessageTokens(r) <= e.MessageTokens(m)
            && (AtFloor(e, r) || total - e.MessageTokens(m) + e.MessageTokens(r) <= limit + MAX_TRUNCATION_MARKER)
  {
    if !AtFloor(e, m) {
      e.CostSplit(m);
      TruncationCost(e, m.content, Allowance(e, m, total, limit));
      ShapeFixesImmutable(e, m, Truncated(e, m, total, limit));
    }
  }

  // ---- A pass at a time ----

  lemma {:induction false} ElidePassShape(e: Estimator, messages: seq<Message>, limit: u64, lastTool: Option<nat>, i: nat)
    ensures SameShapes(messages, ElidePass(e, messages, limit, lastTool, i))
    decreases |messages| - i
  {
    if i < |messages| {
      ElidePassShape(e, messages[i := Elided(e, messages[i], lastTool == Some(i))], limit, lastTool, i + 1);
    }
  }

  lemma {:induction false} TruncatePassShape(e: Estimator, messages: seq<Message>, limit: u64, i: nat)
    ensures SameShapes(messages, TruncatePass(e, messages, limit, i))
    decreases |messages| - i
  {
    if i < |messages| {
      TruncatePassShape(e, messages[i := Truncated(e, messages[i], e.Total(messages), limit)], limit, i + 1);
    }
  }

  lemma ShrunkShape(e: Estimator, messages: seq<Message>, limit: u64, fixedHead: nat)
    ensures SameShapes(Normalized(messages, fixedHead), Shrunk(e, messages, limit, fixedHead))
  {
    var window := Normalized(messages, fixedHead);
    ElidePassShape(e, window, limit, LastOf(window, Tool), 0);
    TruncatePassShape(e, ElidePass(e, window, limit, LastOf(window, Tool), 0), limit, 0);
  }

  lemma {:induction false} ElidePassNeverGrows(e: Estimator, messages: seq<Message>, limit: u64, lastTool: Option<nat>, i: nat)
    requires e.SpansBytes() && LengthsFit(messages)
    ensures var r := ElidePass(e, messages, limit, lastTool, i);
            LengthsFit(r) && e.Total(r) <= e.Total(messages)
    decreases |messages| - i
  {
    if i < |messages| {
      var m := Elided(e, messages[i], lastTool == Some(i));
      ElidedNeverGrows(e, messages[i], lastTool == Some(i));
      e.TotalUpdate(messages, i, m);
      ElidePassNeverGrows(e, messages[i := m], limit, lastTool, i + 1);
    }
  }

  lemma {:induction false} TruncatePassBound(e: Estimator, messages: seq<Message>, limit: u64, i: nat)
    requires e.Sound() && LengthsFit(messages) && i <= |messages|
    requires e.Total(messages) <= limit + MAX_TRUNCATION_MARKER || AllAtFloor(e, messages[..i])
    ensures var r := TruncatePass(e, messages, limit, i);
            && e.Total(r) <= e.Total(messages)
            && (e.Total(r) <= limit + MAX_TRUNCATION_MARKER || AllAtFloor(e, r))
    decreases |messages| - i
  {
    if i < |messages| && e.Total(messages) > limit {
      var m := Truncated(e, messages[i], e.Total(messages), limit);
      e.TotalUpdate(messages, i, m);
      TruncatedBound(e, messages[i], e.Total(messages), limit);
      assert messages[i := m][..i + 1] == messages[..i] + [m];
      TruncatePassBound(e, messages[i := m], limit, i + 1);
    } else {
      assert messages[..|messages|] == messages;
    }
  }

  // ---- Removing messages ----

  /** `b` costs no more than `a` and holds nothing that `a` does not. */
  ghost predicate PartOf(e: Estimator, b: seq<Message>, a: seq<Message>) {
    e.Total(b) <= e.Total(a) && forall m :: m in b ==> m in a
  }

  lemma CutIsPart(e: Estimator, messages: seq<Message>, head: nat, cut: nat)
    requires head <= cut <= |messages|
    ensures PartOf(e, messages[..head] + messages[cut..], messages)
  {
    e.TotalSplit(messages, head);
    e.TotalSplit(messages[head..], cut - head);
    Seqs.DropDrop(messages, head, cut);
    e.TotalConcat(messages[..head], messages[cut..]);
  }

  lemma NormalizedIsPart(e: Estimator, messages: seq<Message>, fixedHead: nat)
    ensures PartOf(e, Normalized(messages, fixedHead), messages)
  {
    var head := Min(fixedHead, |messages|);
    var found := FirstOf(messages[head..], User);
    if found.Some? {
      CutIsPart(e, messages, head, head + found.value);
    }
  }

  lemma {:induction false} DropOldestIsPart(e: Estimator, kept: seq<Message>, rest: seq<Message>, limit: u64)
    ensures PartOf(e, DropOldest(e, kept, rest, limit), kept + rest)
    ensures |DropOldest(e, kept, rest, limit)| <= |kept + rest|
    ensures |DropOldest(e, kept, rest, limit)| == |kept + rest| ==> DropOldest(e, kept, rest, limit) == kept + rest
    decreases |rest|
  {
    if rest != [] && BlockLength(rest) < |rest| {
      var n := BlockLength(rest);
      assert kept + rest == (kept + rest[..n]) + rest[n..];
      DropOldestIsPart(e, kept + rest[..n], rest[n..], limit);
      DropOldestIsPart(e, kept, rest[n..], limit);
      e.TotalConcat(kept + rest[..n], rest[n..]);
      e.TotalConcat(kept, rest[..n]);
      e.TotalConcat(kept, rest[n..]);
    }
  }

  lemma DropPassIsPart(e: Estimator, messages: seq<Message>, limit: u64, fixedHead: nat)
    ensures PartOf(e, DropPass(e, messages, limit, fixedHead), messages)
  {
    var head := Min(fixedHead, |messages|);
    assert messages == messages[..head] + messages[head..];
    DropOldestIsPart(e, messages[..head], messages[head..], limit);
    NormalizedIsPart(e, DropOldest(e, messages[..head], messages[head..], limit), fixedHead);
  }

  // ---- What no budget can remove ----

  /** The blocks never dropped: the one holding the last user turn, and the final one. */
  function Protected(rest: seq<Message>): seq<Message>
    decreases |rest|
  {
    if rest == [] then []
    else
      var n := BlockLength(rest);
      (if n == |rest| || HoldsLastUser(rest, n) then rest[..n] else []) + Protected(rest[n..])
  }

  function FinalBlockStart(rest: seq<Message>): (start: nat)
    requires rest != []
    ensures start < |rest|
    decreases |rest|
  {
    var n := BlockLength(rest);
    if n == |rest| then 0 else n + FinalBlockStart(rest[n..])
  }

  lemma LastUserStartsBlock(rest: seq<Message>)
    requires rest != [] && HoldsLastUser(rest, BlockLength(rest))
    ensures LastOf(rest, User) == Some(0)
  {
    var u := LastOf(rest, User).value;
    if u > 0 {
      SkippedAreTools(rest, 1, u);
    }
  }

  lemma ProtectedStep(rest: seq<Message>)
    requires rest != []
    ensures var n := BlockLength(rest);
            if n == |rest| then Protected(rest) == rest
            else if HoldsLastUser(rest, n) then Protected(rest) == rest[..n] + Protected(rest[n..])
            else Protected(rest) == Protected(rest[n..])
  {
    var n := BlockLength(rest);
    Seqs.DropNothing(rest);
    Seqs.DropNothing(Protected(rest[n..]));
  }

  lemma FinalBlockBehind(rest: seq<Message>)
    requires rest != [] && BlockLength(rest) < |rest|
    requires LastOf(rest, User).Some? ==> FinalBlockStart(rest) <= LastOf(rest, User).value
    ensures var n := BlockLength(rest);
            && FinalBlockStart(rest) == n + FinalBlockStart(rest[n..])
            && (LastOf(rest[n..], User).Some? ==> FinalBlockStart(rest[n..]) <= LastOf(rest[n..], User).value)
            && !HoldsLastUser(rest, n)
  {
    LastOfSuffix(rest, BlockLength(rest));
  }

  lemma {:induction false} FinalBlockOnly(rest: seq<Message>)
    requires rest != []
    requires LastOf(rest, User).Some? ==> FinalBlockStart(rest) <= LastOf(rest, User).value
    ensures Protected(rest) == rest[FinalBlockStart(rest)..]
    decreases |rest|
  {
    ProtectedStep(rest);
    var n := BlockLength(rest);
    if n < |rest| {
      FinalBlockBehind(rest);
      FinalBlockOnly(rest[n..]);
      Seqs.DropDrop(rest, n, FinalBlockStart(rest));
    } else {
      Seqs.DropNothing(rest);
    }
  }

  function BlockAt(rest: seq<Message>, start: nat): seq<Message>
    requires start < |rest|
  {
    rest[start..][..BlockLength(rest[start..])]
  }

  lemma AnchorBlockFirst(rest: seq<Message>)
    requires rest != [] && HoldsLastUser(rest, BlockLength(rest)) && BlockLength(rest) < |rest|
    ensures LastOf(rest, User) == Some(0)
    ensures Protected(rest) == BlockAt(rest, 0) + rest[FinalBlockStart(rest)..]
  {
    var n := BlockLength(rest);
    ProtectedStep(rest);
    LastUserStartsBlock(rest);
    LastOfSuffix(rest, n);
    FinalBlockOnly(rest[n..]);
    Seqs.DropDrop(rest, n, FinalBlockStart(rest));
    Seqs.DropNothing(rest);
  }

  lemma BlockAtSuffix(rest: seq<Message>, n: nat, k: nat)
    requires n <= k < |rest|
    ensures BlockAt(rest[n..], k - n) == BlockAt(rest, k)
  {
    Seqs.DropDrop(rest, n, k);
  }

  /** Leaving off a first block that is dropped. */
  lemma WithoutFirstBlock(rest: seq<Message>, lastUser: nat)
    requires rest != [] && LastOf(rest, User) == Some(lastUser) && lastUser < FinalBlockStart(rest)
    requires BlockLength(rest) <= lastUser
    ensures var n := BlockLength(rest);
            && n < |rest|
            && LastOf(rest[n..], User) == Some(lastUser - n)
            && FinalBlockStart(rest[n..]) == FinalBlockStart(rest) - n
            && Protected(rest) == Protected(rest[n..])
  {
    var n := BlockLength(rest);
    LastOfSuffix(rest, n);
    ProtectedStep(rest);
  }

  lemma {:induction false} AnchorAndFinalBlock(rest: seq<Message>, lastUser: nat)
    requires rest != [] && LastOf(rest, User) == Some(lastUser) && lastUser < FinalBlockStart(rest)
    ensures Protected(rest) == BlockAt(rest, lastUser) + rest[FinalBlockStart(rest)..]
    decreases |rest|
  {
    var n := BlockLength(rest);
    if lastUser < n {
      AnchorBlockFirst(rest);
    } else {
      WithoutFirstBlock(rest, lastUser);
      AnchorAndFinalBlock(rest[n..], lastUser - n);
      Seqs.DropDrop(rest, n, FinalBlockStart(rest));
      BlockAtSuffix(rest, n, lastUser);
    }
  }

  /** `Protected` by position: at most two blocks, however long the tail. */
  lemma ProtectedIsTwoBlocks(rest: seq<Message>)
    requires rest != []
    ensures Protected(rest) ==
            var lastUser, final := LastOf(rest, User), FinalBlockStart(rest);
            (if lastUser.Some? && lastUser.value < final then BlockAt(rest, lastUser.value) else [])
            + rest[final..]
  {
    var lastUser, final := LastOf(rest, User), FinalBlockStart(rest);
    if lastUser.Some? && lastUser.value < final {
      AnchorAndFinalBlock(rest, lastUser.value);
    } else {
      FinalBlockOnly(rest);
      Seqs.DropNothing(rest[final..]);
    }
  }

  lemma {:induction false} DropOldestOutcome(e: Estimator, kept: seq<Message>, rest: seq<Message>, limit: u64)
    ensures var left := DropOldest(e, kept, rest, limit);
            e.Total(left) <= limit || left == kept + Protected(rest)
    decreases |rest|
  {
    if rest != [] {
      ProtectedStep(rest);
      var n := BlockLength(rest);
      if n < |rest| {
        if HoldsLastUser(rest, n) {
          DropOldestOutcome(e, kept + rest[..n], rest[n..], limit);
          Seqs.ConcatAssociative(kept, rest[..n], Protected(rest[n..]));
        } else {
          DropOldestOutcome(e, kept, rest[n..], limit);
        }
      }
    }
  }

  lemma {:induction false} ProtectedStartsWithUser(rest: seq<Message>)
    requires LastOf(rest, User).Some?
    ensures Protected(rest) != [] && Protected(rest)[0].role.User?
    decreases |rest|
  {
    var n := BlockLength(rest);
    if HoldsLastUser(rest, n) {
      LastUserStartsBlock(rest);
    } else {
      LastOfSuffix(rest, n);
      ProtectedStartsWithUser(rest[n..]);
    }
  }

  lemma {:induction false} ProtectedComesFrom(rest: seq<Message>)
    ensures forall m :: m in Protected(rest) ==> m in rest
    decreases |rest|
  {
    if rest != [] {
      ProtectedComesFrom(rest[BlockLength(rest)..]);
    }
  }

  lemma NormalizedProtected(head: seq<Message>, rest: seq<Message>)
    ensures Normalized(head + Protected(rest), |head|) == head + Protected(rest)
  {
    var messages := head + Protected(rest);
    assert messages[|head|..] == Protected(rest);
    ProtectedComesFrom(rest);
    var found := FirstOf(Protected(rest), User);
    if found.Some? {
      assert Protected(rest)[found.value] in rest;
      var k :| 0 <= k < |rest| && rest[k] == Protected(rest)[found.value];
      LastOfIsLast(rest, User, k);
      ProtectedStartsWithUser(rest);
      assert found.value == 0;
    }
  }

  /** The drop pass alone. */
  lemma DropPassOutcome(e: Estimator, messages: seq<Message>, limit: u64, head: nat)
    requires head <= |messages|
    ensures var out := DropPass(e, messages, limit, head);
            e.Total(out) <= limit || out == messages[..head] + Protected(messages[head..])
  {
    var kept, rest := messages[..head], messages[head..];
    var left := DropOldest(e, kept, rest, limit);
    Seqs.Rejoin(messages, head);
    DropOldestOutcome(e, kept, rest, limit);
    DropOldestIsPart(e, kept, rest, limit);
    NormalizedIsPart(e, left, head);
    if e.Total(left) > limit && |left| < |messages| {
      NormalizedProtected(kept, rest);
    }
  }

  lemma DropPassClamped(e: Estimator, messages: seq<Message>, limit: u64, fixedHead: nat)
    ensures DropPass(e, messages, limit, fixedHead) == DropPass(e, messages, limit, Min(fixedHead, |messages|))
  {
    var head := Min(fixedHead, |messages|);
    var left := DropOldest(e, messages[..head], messages[head..], limit);
    if head < fixedHead {
      assert messages[head..] == [] && left == messages;
    }
  }

  /**
   * After the drop pass either the window fits, or nothing is left but the
   * fixed head, the block of the last user turn and the final block.
   */
  lemma BlockDropOutcome(e: Estimator, messages: seq<Message>, limit: u64, fixedHead: nat)
    ensures var shrunk := Shrunk(e, messages, limit, fixedHead);
            var head := Min(fixedHead, |shrunk|);
            var out := Enforced(e, messages, limit, fixedHead);
            e.Total(out) <= limit || out == shrunk[..head] + Protected(shrunk[head..])
  {
    var shrunk := Shrunk(e, messages, limit, fixedHead);
    DropPassClamped(e, shrunk, limit, fixedHead);
    DropPassOutcome(e, shrunk, limit, Min(fixedHead, |shrunk|));
  }

  // ---- The bound ----

  /** The share of a window that shrinking content cannot reach. */
  function Residual(e: Estimator, messages: seq<Message>): nat {
    if messages == [] then 0
    else
      e.ImmutableTokens(messages[0])
      + (if messages[0].role.System? then e.Count(messages[0].content) else MIN_KEPT_CONTENT_TOKENS)
      + Residual(e, messages[1..])
  }

  lemma {:induction false} FloorCost(e: Estimator, messages: seq<Message>)
    requires AllAtFloor(e, messages)
    ensures e.Total(messages) <= Residual(e, messages)
  {
    if messages != [] {
      assert AtFloor(e, messages[0]);
      e.CostSplit(messages[0]);
      FloorCost(e, messages[1..]);
    }
  }

  lemma ShrunkBound(e: Estimator, messages: seq<Message>, limit: u64, fixedHead: nat)
    requires e.Sound() && LengthsFit(messages)
    ensures var shrunk := Shrunk(e, messages, limit, fixedHead);
            && e.Total(shrunk) <= e.Total(messages)
            && (e.Total(shrunk) <= limit + MAX_TRUNCATION_MARKER || AllAtFloor(e, shrunk))
  {
    var window := Normalized(messages, fixedHead);
    NormalizedIsPart(e, messages, fixedHead);
    forall i | 0 <= i < |window| ensures |window[i].content| <= U64_MAX {
      assert window[i] in messages;
    }
    ElidePassNeverGrows(e, window, limit, LastOf(window, Tool), 0);
    TruncatePassBound(e, ElidePass(e, window, limit, LastOf(window, Tool), 0), limit, 0);
  }

  /**
   * Nothing is left to reclaim: all content is at the floor, only the head and
   * the protected blocks remain, and the cost is bounded by theirs alone.
   */
  ghost predicate OnlyResidue(e: Estimator, messages: seq<Message>, limit: u64, fixedHead: nat) {
    var shrunk := Shrunk(e, messages, limit, fixedHead);
    var head := Min(fixedHead, |shrunk|);
    var out := Enforced(e, messages, limit, fixedHead);
    && AllAtFloor(e, out)
    && out == shrunk[..head] + Protected(shrunk[head..])
    && e.Total(out) <= Residual(e, out)
  }

  /**
   * The enforced window never costs more than it did, and at most the limit plus one
   * truncation marker, unless only the residue is left.
   */
  lemma NumericBound(e: Estimator, messages: seq<Message>, limit: u64, fixedHead: nat)
    requires e.Sound() && LengthsFit(messages)
    ensures var out := Enforced(e, messages, limit, fixedHead);
            && e.Total(out) <= e.Total(messages)
            && (e.Total(out) <= limit + MAX_TRUNCATION_MARKER || OnlyResidue(e, messages, limit, fixedHead))
  {
    var shrunk := Shrunk(e, messages, limit, fixedHead);
    var out := Enforced(e, messages, limit, fixedHead);
    ShrunkBound(e, messages, limit, fixedHead);
    DropPassIsPart(e, shrunk, limit, fixedHead);
    BlockDropOutcome(e, messages, limit, fixedHead);
    if e.Total(out) > limit + MAX_TRUNCATION_MARKER {
      forall i | 0 <= i < |out| ensures AtFloor(e, out[i]) {
        assert out[i] in shrunk;
      }
      FloorCost(e, out);
    }
  }
}
