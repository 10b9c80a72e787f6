/**
 * When exactly enforcement ends over its limit, and inputs on which it does:
 * with content left above the floor, and with more than the head and the final block.
 */
module BudgetSlack {
  import opened Messages
  import opened Budget
  import opened BudgetBounds
  import opened OldestFirst
  import Seqs

  // ---- Content left above the floor ----

  /** There is content to cut, and cutting it to what the others leave frees no byte. */
  predicate Stuck(e: Estimator, m: Message, total: nat, limit: u64) {
    && !AtFloor(e, m)
    && |TruncateToTokens(e, m.content, Allowance(e, m, total, limit))| >= |m.content|
  }

  /** One step of the second pass fails to end at the limit or the floor just when its guard fails. */
  lemma OverExactlyWhenStuck(e: Estimator, m: Message, total: nat, limit: u64)
    requires e.Sound() && |m.content| <= U64_MAX
    requires e.MessageTokens(m) <= total && limit < total <= U64_MAX
    ensures var r := Truncated(e, m, total, limit);
            !AtFloor(e, r) && total - e.MessageTokens(m) + e.MessageTokens(r) > limit <==> Stuck(e, m, total, limit)
  {
    if !AtFloor(e, m) {
      e.CostSplit(m);
      TruncationCost(e, m.content, Allowance(e, m, total, limit));
      ShapeFixesImmutable(e, m, Truncated(e, m, total, limit));
    }
  }

  lemma {:induction false} TruncatingNeverGrows(e: Estimator, messages: seq<Message>, limit: u64, k: nat)
    requires e.Sound() && LengthsFit(messages) && k <= |messages|
    requires forall j :: 0 <= j < k ==> e.Total(TruncatedUpTo(e, messages, limit, j)) > limit
    ensures e.Total(TruncatedUpTo(e, messages, limit, k)) <= e.Total(messages)
  {
    if k > 0 {
      var before := TruncatedUpTo(e, messages, limit, k - 1);
      TruncatingNeverGrows(e, messages, limit, k - 1);
      e.TotalUpdate(before, k - 1, Truncated(e, before[k - 1], e.Total(before), limit));
      TruncatedBound(e, messages[k - 1], e.Total(before), limit);
    }
  }

  lemma {:induction false} TruncatedStays(e: Estimator, messages: seq<Message>, limit: u64, i: nat, k: nat)
    requires i < k <= |messages|
    ensures TruncatedUpTo(e, messages, limit, k)[i]
         == Truncated(e, messages[i], e.Total(TruncatedUpTo(e, messages, limit, i)), limit)
  {
    if i < k - 1 {
      TruncatedStays(e, messages, limit, i, k - 1);
    }
  }

  /** Over its limit, the second pass has gone through every message. */
  lemma OverMeansAll(e: Estimator, messages: seq<Message>, limit: u64)
    requires e.Total(TruncatePass(e, messages, limit, 0)) > limit
    ensures TruncatePass(e, messages, limit, 0) == TruncatedUpTo(e, messages, limit, |messages|)
    ensures forall j :: 0 <= j <= |messages| ==> e.Total(TruncatedUpTo(e, messages, limit, j)) > limit
  {
    var k := TruncatesOldestFirst(e, messages, limit);
  }

  /**
   * When the second pass ends over the limit, the messages it leaves above the
   * floor are exactly those that were stuck when their turn came.
   */
  lemma LeftAboveFloorExactly(e: Estimator, messages: seq<Message>, limit: u64, i: nat)
    requires e.Sound() && LengthsFit(messages) && e.Total(messages) <= U64_MAX && i < |messages|
    requires e.Total(TruncatePass(e, messages, limit, 0)) > limit
    ensures i < |TruncatePass(e, messages, limit, 0)|
    ensures !AtFloor(e, TruncatePass(e, messages, limit, 0)[i])
       <==> Stuck(e, messages[i], e.Total(TruncatedUpTo(e, messages, limit, i)), limit)
  {
    OverMeansAll(e, messages, limit);
    var before := TruncatedUpTo(e, messages, limit, i);
    var total := e.Total(before);
    TruncatedStays(e, messages, limit, i, |messages|);
    TruncatingNeverGrows(e, messages, limit, i);
    e.TotalUpdate(before, i, Truncated(e, messages[i], total, limit));
    OverExactlyWhenStuck(e, messages[i], total, limit);
    assert e.Total(TruncatedUpTo(e, messages, limit, i + 1)) > limit;
  }

  /** No message is stuck when its turn comes. */
  ghost predicate NoneStuck(e: Estimator, messages: seq<Message>, limit: u64) {
    forall i :: 0 <= i < |messages| ==> !Stuck(e, messages[i], e.Total(TruncatedUpTo(e, messages, limit, i)), limit)
  }

  function ElidedWindow(e: Estimator, messages: seq<Message>, limit: u64, fixedHead: nat): seq<Message> {
    var window := Normalized(messages, fixedHead);
    ElidePass(e, window, limit, LastOf(window, Tool), 0)
  }

  lemma ElidedWindowFits(e: Estimator, messages: seq<Message>, limit: u64, fixedHead: nat)
    requires e.Sound() && LengthsFit(messages)
    ensures LengthsFit(ElidedWindow(e, messages, limit, fixedHead))
    ensures e.Total(ElidedWindow(e, messages, limit, fixedHead)) <= e.Total(messages)
  {
    var window := Normalized(messages, fixedHead);
    NormalizedIsPart(e, messages, fixedHead);
    forall i | 0 <= i < |window| ensures |window[i].content| <= U64_MAX {
      assert window[i] in messages;
    }
    ElidePassNeverGrows(e, window, limit, LastOf(window, Tool), 0);
  }

  /**
   * A window still over its limit after the content passes is all at the floor
   * if and only if no message was stuck; only then is nothing left to shrink.
   */
  lemma AtFloorUnlessStuck(e: Estimator, messages: seq<Message>, limit: u64, fixedHead: nat)
    requires e.Sound() && LengthsFit(messages) && e.Total(messages) <= U64_MAX
    requires e.Total(Shrunk(e, messages, limit, fixedHead)) > limit
    ensures AllAtFloor(e, Shrunk(e, messages, limit, fixedHead))
       <==> NoneStuck(e, ElidedWindow(e, messages, limit, fixedHead), limit)
  {
    var elided := ElidedWindow(e, messages, limit, fixedHead);
    ElidedWindowFits(e, messages, limit, fixedHead);
    OverMeansAll(e, elided, limit);
    forall i | 0 <= i < |elided|
      ensures !AtFloor(e, Shrunk(e, messages, limit, fixedHead)[i])
         <==> Stuck(e, elided[i], e.Total(TruncatedUpTo(e, elided, limit, i)), limit)
    {
      LeftAboveFloorExactly(e, elided, limit, i);
    }
  }

  // ---- What survives ----

  /** Message `i` stands in the head, in the block of the last user turn behind it, or in the final block. */
  predicate Survives(window: seq<Message>, head: nat, i: nat)
    requires head <= |window| && i < |window|
  {
    i < head || Shielded(window[head..], i - head)
  }

  predicate Shielded(tail: seq<Message>, k: nat)
    requires k < |tail|
  {
    || k >= FinalBlockStart(tail)
    || (LastOf(tail, User).Some? &&
        var u := LastOf(tail, User).value; u <= k < u + BlockLength(tail[u..]))
  }

  lemma FloorConcat(e: Estimator, a: seq<Message>, b: seq<Message>)
    ensures AllAtFloor(e, a + b) <==> AllAtFloor(e, a) && AllAtFloor(e, b)
  {
    assert forall i :: 0 <= i < |a| ==> (a + b)[i] == a[i];
    assert forall i :: 0 <= i < |b| ==> (a + b)[|a| + i] == b[i];
  }

  lemma FloorSlice(e: Estimator, messages: seq<Message>, i: nat, j: nat)
    requires i <= j <= |messages|
    ensures AllAtFloor(e, messages[i..j]) <==> forall k :: i <= k < j ==> AtFloor(e, messages[k])
  {
    assert forall k :: i <= k < j ==> messages[k] == messages[i..j][k - i];
  }

  lemma TwoSlices(e: Estimator, tail: seq<Message>, u: nat, end: nat, final: nat)
    requires u <= end <= |tail| && final <= |tail|
    ensures AllAtFloor(e, tail[u..end] + tail[final..])
       <==> forall k :: 0 <= k < |tail| && (k >= final || u <= k < end) ==> AtFloor(e, tail[k])
  {
    FloorConcat(e, tail[u..end], tail[final..]);
    FloorSlice(e, tail, u, end);
    FloorSlice(e, tail, final, |tail|);
    assert tail[final..|tail|] == tail[final..];
  }

  /** The anchor block as a range, empty where it adds nothing to the final block. */
  function AnchorRange(tail: seq<Message>): (range: (nat, nat))
    requires tail != []
    ensures range.0 <= range.1 <= |tail|
  {
    var last := LastOf(tail, User);
    if last.Some? && last.value < FinalBlockStart(tail) then (last.value, last.value + BlockLength(tail[last.value..]))
    else (0, 0)
  }

  lemma ProtectedRanges(tail: seq<Message>)
    requires tail != []
    ensures Protected(tail) == tail[AnchorRange(tail).0..AnchorRange(tail).1] + tail[FinalBlockStart(tail)..]
  {
    ProtectedIsTwoBlocks(tail);
    var last := LastOf(tail, User);
    if last.Some? && last.value < FinalBlockStart(tail) {
      Seqs.DropDrop(tail, last.value, AnchorRange(tail).1);
    }
  }

  lemma ShieldedIsProtected(e: Estimator, tail: seq<Message>)
    requires tail != []
    ensures AllAtFloor(e, Protected(tail))
       <==> forall k :: 0 <= k < |tail| && Shielded(tail, k) ==> AtFloor(e, tail[k])
  {
    var range, final := AnchorRange(tail), FinalBlockStart(tail);
    ProtectedRanges(tail);
    TwoSlices(e, tail, range.0, range.1, final);
    forall k | 0 <= k < |tail| ensures Shielded(tail, k) <==> k >= final || range.0 <= k < range.1 {
    }
  }

  lemma SurvivorsAtFloor(e: Estimator, window: seq<Message>, head: nat)
    requires head <= |window|
    ensures AllAtFloor(e, window[..head] + Protected(window[head..]))
       <==> forall i :: 0 <= i < |window| && Survives(window, head, i) ==> AtFloor(e, window[i])
  {
    var tail := window[head..];
    FloorConcat(e, window[..head], Protected(tail));
    assert forall i :: 0 <= i < head ==> Survives(window, head, i) && window[i] == window[..head][i];
    if tail != [] {
      ShieldedIsProtected(e, tail);
    }
    forall k | 0 <= k < |tail| ensures Survives(window, head, head + k) == Shielded(tail, k) && tail[k] == window[head + k] {
    }
    assert forall i :: head <= i < |window| ==> Survives(window, head, i) == Shielded(tail, i - head);
  }

  /**
   * A window enforced but left over its limit has nothing more to give, as the
   * pass documents it, if and only if no surviving message was stuck.
   */
  lemma OnlyResidueUnlessStuck(e: Estimator, messages: seq<Message>, limit: u64, fixedHead: nat)
    requires e.Sound() && LengthsFit(messages) && e.Total(messages) <= U64_MAX
    requires e.Total(Enforced(e, messages, limit, fixedHead)) > limit
    ensures var elided, shrunk := ElidedWindow(e, messages, limit, fixedHead), Shrunk(e, messages, limit, fixedHead);
            && |elided| == |shrunk|
            && (OnlyResidue(e, messages, limit, fixedHead) <==>
                  forall i :: 0 <= i < |shrunk| && Survives(shrunk, Min(fixedHead, |shrunk|), i) ==>
                    !Stuck(e, elided[i], e.Total(TruncatedUpTo(e, elided, limit, i)), limit))
  {
    var elided, shrunk := ElidedWindow(e, messages, limit, fixedHead), Shrunk(e, messages, limit, fixedHead);
    var head := Min(fixedHead, |shrunk|);
    var out := Enforced(e, messages, limit, fixedHead);
    ElidedWindowFits(e, messages, limit, fixedHead);
    DropPassIsPart(e, shrunk, limit, fixedHead);
    BlockDropOutcome(e, messages, limit, fixedHead);
    SurvivorsAtFloor(e, shrunk, head);
    TruncatePassShape(e, elided, limit, 0);
    forall i | 0 <= i < |shrunk|
      ensures !AtFloor(e, shrunk[i]) <==> Stuck(e, elided[i], e.Total(TruncatedUpTo(e, elided, limit, i)), limit)
    {
      LeftAboveFloorExactly(e, elided, limit, i);
    }
    if AllAtFloor(e, out) {
      FloorCost(e, out);
    }
  }

  // ---- The slack of one marker is used ----

  const LETTER: byte := 0x42

  function Letters(n: nat): (text: Text)
    ensures |text| == n
  {
    seq(n, _ => LETTER)
  }

  /** A tokenizer to which one letter is a token and everything else is free. */
  function LetterTokens(text: Text): seq<TokenId> {
    if text == [] then [] else (if text[0] == LETTER then [0] else []) + LetterTokens(text[1..])
  }

  function LetterCounter(): Estimator {
    Estimator(LetterTokens, (ids: seq<TokenId>) => Some(Letters(|ids|)), 0)
  }

  lemma {:induction false} LetterTokensConcat(a: Text, b: Text)
    ensures LetterTokens(a + b) == LetterTokens(a) + LetterTokens(b)
  {
    if a == [] {
      Seqs.DropNothing(b);
    } else {
      Seqs.TailOfConcat(a, b);
      LetterTokensConcat(a[1..], b);
      Seqs.ConcatAssociative(if a[0] == LETTER then [0] else [], LetterTokens(a[1..]), LetterTokens(b));
    }
  }

  lemma {:induction false} LettersCount(n: nat)
    ensures |LetterTokens(Letters(n))| == n
  {
    if n > 0 {
      assert Letters(n)[1..] == Letters(n - 1);
      LettersCount(n - 1);
    }
  }

  lemma {:induction false} LettersAreBytes(text: Text)
    ensures |LetterTokens(text)| <= |text|
  {
    if text != [] {
      LettersAreBytes(text[1..]);
    }
  }

  lemma LetterCounterIsSound()
    ensures LetterCounter().Sound()
  {
    var e := LetterCounter();
    forall text, k: nat ensures e.TokensSpanBytes(text, k) {
      LettersAreBytes(text);
    }
    forall text, k: nat ensures e.PrefixTakesMarker(text, k) {
      if k <= e.Count(text) {
        LetterTokensConcat(Letters(k), TruncationMarker(|text|));
        LettersCount(k);
      }
    }
  }

  lemma {:induction false} NoLetters(text: Text)
    requires LETTER !in text
    ensures LetterTokens(text) == []
  {
    if text != [] {
      NoLetters(text[1..]);
    }
  }

  lemma {:induction false} DecimalHasNoLetters(n: nat)
    ensures LETTER !in Decimal(n)
  {
    if n >= 10 {
      DecimalHasNoLetters(n / 10);
    }
  }

  lemma MarkerHasNoLetters(n: nat)
    ensures LETTER !in TruncationMarker(n)
  {
    DecimalHasNoLetters(n);
    assert LETTER !in Ascii("\n[");
    assert LETTER !in Ascii("truncated ");
    assert LETTER !in Ascii(" ");
    assert LETTER !in Ascii(" chars total]");
  }

  lemma LettersPrefix(n: nat, k: nat)
    requires k <= n
    ensures LetterCounter().Count(Letters(n)) == n
    ensures LetterCounter().TokenPrefix(Letters(n), k) == Letters(k)
  {
    LettersCount(n);
    assert |LetterTokens(Letters(n))[..k]| == k;
  }

  lemma MarkerIsFree(n: nat)
    ensures LetterCounter().Count(TruncationMarker(n)) == 0
  {
    MarkerHasNoLetters(n);
    NoLetters(TruncationMarker(n));
  }

  /** Cutting `n` letters to `target` leaves the letters that fit, and a marker that costs nothing. */
  lemma LettersCut(n: nat, target: nat)
    requires 0 < target < n
    ensures TruncateToTokens(LetterCounter(), Letters(n), target) == Letters(target) + TruncationMarker(n)
  {
    LettersPrefix(n, target);
    MarkerIsFree(n);
  }

  lemma LettersCost(n: nat)
    ensures LetterCounter().MessageTokens(Message(User, Letters(n), [], None, [])) == n
    ensures LetterCounter().ImmutableTokens(Message(User, Letters(n), [], None, [])) == 0
  {
    LettersCount(n);
  }

  lemma LettersAreStuck(n: nat, m: Message)
    requires 100 <= n <= U64_MAX && m == Message(User, Letters(n), [], None, [])
    ensures var e, limit := LetterCounter(), n - |TruncationMarker(n)|;
            && limit > 0 && e.MessageTokens(m) == n
            && Stuck(e, m, n, limit) && Truncated(e, m, n, limit) == m
  {
    var e, limit := LetterCounter(), n - |TruncationMarker(n)|;
    MarkerLengths(n);
    LettersCost(n);
    LettersCount(n);
    assert Allowance(e, m, n, limit) == limit;
    LettersCut(n, limit);
  }

  lemma LoneMessageKept(e: Estimator, m: Message, limit: u64)
    requires m.role.User? && e.Total([m]) > limit
    requires Truncated(e, m, e.Total([m]), limit) == m
    ensures Enforced(e, [m], limit, 0) == [m]
  {
    assert [m][0..] == [m] && [m][..0] == [];
    assert [m][0 := m] == [m];
    assert Normalized([m], 0) == [m];
    assert ElidePass(e, [m], limit, LastOf([m], Tool), 0) == [m];
    assert TruncatePass(e, [m], limit, 0) == [m];
    assert DropPass(e, [m], limit, 0) == [m];
  }

  lemma LettersKept(n: nat, m: Message, limit: u64)
    requires 100 <= n <= U64_MAX && m == Message(User, Letters(n), [], None, [])
    requires limit == n - |TruncationMarker(n)|
    ensures LetterCounter().Total([m]) == n && !AtFloor(LetterCounter(), m)
    ensures Enforced(LetterCounter(), [m], limit, 0) == [m]
  {
    var e := LetterCounter();
    MarkerLengths(n);
    LettersAreStuck(n, m);
    e.TotalSingle(m);
    LoneMessageKept(e, m, limit);
  }

  /**
   * The bound of `NumericBound` is met with equality: a sound tokenizer and a
   * message of any length from 100 bytes on, left a whole marker over its limit
   * with all its content above the floor. From 10^19 bytes on the marker has its full length.
   */
  lemma SlackIsAttained(n: nat) returns (e: Estimator, m: Message, limit: u64, marker: Text)
    requires 100 <= n <= U64_MAX
    ensures e.Sound() && |m.content| == n && !AtFloor(e, m)
    ensures marker == TruncationMarker(n) && (n >= 10_000_000_000_000_000_000 ==> |marker| == MAX_TRUNCATION_MARKER)
    ensures Enforced(e, [m], limit, 0) == [m] && e.Total([m]) == limit + |marker|
  {
    e, m, marker := LetterCounter(), Message(User, Letters(n), [], None, []), TruncationMarker(n);
    LetterCounterIsSound();
    MarkerLengths(n);
    limit := n - |marker|;
    LettersKept(n, m, limit);
    if n >= 10_000_000_000_000_000_000 {
      LongestMarker(n);
    }
  }

  // ---- More than the head and the final block ----

  /** Only the final block is protected if and only if the last user turn does not stand before it. */
  lemma OnlyFinalBlockProtected(rest: seq<Message>)
    requires rest != []
    ensures Protected(rest) == rest[FinalBlockStart(rest)..]
       <==> (LastOf(rest, User).Some? ==> FinalBlockStart(rest) <= LastOf(rest, User).value)
  {
    ProtectedIsTwoBlocks(rest);
  }

  lemma {:induction false} SkipToolsShapes(a: seq<Message>, b: seq<Message>, start: nat)
    requires SameShapes(a, b)
    ensures SkipTools(a, start) == SkipTools(b, start)
    decreases |a| - start
  {
    assert start < |a| ==> SameShape(a[start], b[start]);
    if start < |a| && a[start].role.Tool? {
      SkipToolsShapes(a, b, start + 1);
    }
  }

  lemma {:induction false} LastOfShapes(a: seq<Message>, b: seq<Message>, role: Role)
    requires SameShapes(a, b)
    ensures LastOf(a, role) == LastOf(b, role)
  {
    if a != [] {
      assert SameShape(a[|a| - 1], b[|b| - 1]);
      LastOfShapes(a[..|a| - 1], b[..|b| - 1], role);
    }
  }

  lemma {:induction false} FinalBlockShapes(a: seq<Message>, b: seq<Message>)
    requires a != [] && SameShapes(a, b)
    ensures FinalBlockStart(a) == FinalBlockStart(b)
    decreases |a|
  {
    assert SameShape(a[0], b[0]);
    SkipToolsShapes(a, b, 1);
    var n := BlockLength(a);
    if n < |a| {
      FinalBlockShapes(a[n..], b[n..]);
    }
  }

  /** The last user turn behind the head stands before the final block. */
  predicate AnchorBeforeFinalBlock(window: seq<Message>, fixedHead: nat) {
    var tail := window[Min(fixedHead, |window|)..];
    tail != [] && LastOf(tail, User).Some? && LastOf(tail, User).value < FinalBlockStart(tail)
  }

  lemma AnchorShapes(a: seq<Message>, b: seq<Message>, fixedHead: nat)
    requires SameShapes(a, b)
    ensures AnchorBeforeFinalBlock(a, fixedHead) == AnchorBeforeFinalBlock(b, fixedHead)
  {
    var head := Min(fixedHead, |a|);
    forall i | 0 <= i < |a[head..]| ensures SameShape(a[head..][i], b[head..][i]) {
      assert SameShape(a[head + i], b[head + i]);
    }
    LastOfShapes(a[head..], b[head..], User);
    if a[head..] != [] {
      FinalBlockShapes(a[head..], b[head..]);
    }
  }

  /**
   * A window left over its limit is no more than the head and the final block,
   * as the pass documents it, if and only if the last user turn of the
   * normalised transcript does not stand before its final block.
   */
  lemma ResidualIsHeadAndFinalBlock(e: Estimator, messages: seq<Message>, limit: u64, fixedHead: nat)
    requires fixedHead < |Normalized(messages, fixedHead)|
    requires e.Total(Enforced(e, messages, limit, fixedHead)) > limit
    ensures var shrunk := Shrunk(e, messages, limit, fixedHead);
            && fixedHead < |shrunk|
            && (Enforced(e, messages, limit, fixedHead)
                == shrunk[..fixedHead] + shrunk[fixedHead..][FinalBlockStart(shrunk[fixedHead..])..]
                <==> !AnchorBeforeFinalBlock(Normalized(messages, fixedHead), fixedHead))
  {
    var shrunk := Shrunk(e, messages, limit, fixedHead);
    ShrunkShape(e, messages, limit, fixedHead);
    AnchorShapes(Normalized(messages, fixedHead), shrunk, fixedHead);
    BlockDropOutcome(e, messages, limit, fixedHead);
    var head, tail := shrunk[..fixedHead], shrunk[fixedHead..];
    OnlyFinalBlockProtected(tail);
    SameAfterHead(head, Protected(tail), tail[FinalBlockStart(tail)..]);
  }

  lemma SameAfterHead(head: seq<Message>, a: seq<Message>, b: seq<Message>)
    ensures head + a == head + b <==> a == b
  {
    Seqs.Parts(head, a);
    Seqs.Parts(head, b);
  }

  /** Neither content pass touches what is at the floor. */
  lemma {:induction false} FloorUntouched(e: Estimator, messages: seq<Message>, limit: u64, lastTool: Option<nat>, i: nat)
    requires AllAtFloor(e, messages)
    ensures ElidePass(e, messages, limit, lastTool, i) == messages
    ensures TruncatePass(e, messages, limit, i) == messages
    decreases |messages| - i
  {
    if i < |messages| {
      assert AtFloor(e, messages[i]) && messages[i := messages[i]] == messages;
      FloorUntouched(e, messages, limit, lastTool, i + 1);
    }
  }

  lemma FloorOnlyLosesBlocks(e: Estimator, messages: seq<Message>, limit: u64, fixedHead: nat)
    requires AllAtFloor(e, messages) && Normalized(messages, fixedHead) == messages
    ensures Enforced(e, messages, limit, fixedHead) == DropPass(e, messages, limit, fixedHead)
  {
    FloorUntouched(e, messages, limit, LastOf(messages, Tool), 0);
  }

  /** A question and its reply: two blocks, the reply the final one. */
  predicate IsExchange(messages: seq<Message>) {
    && |messages| == 2
    && messages[0].role.User? && messages[1].role.Assistant?
    && messages[0].toolCalls == [] == messages[1].toolCalls
  }

  lemma ExchangeShape(messages: seq<Message>)
    requires IsExchange(messages)
    ensures messages[0..] == messages && messages[..0] == []
    ensures LastOf(messages, User) == Some(0) && Normalized(messages, 0) == messages
    ensures BlockLength(messages) == 1 && BlockLength(messages[1..]) == 1
  {
    assert messages[..1] == [messages[0]];
    assert LastOf([messages[0]], User) == Some(0);
  }

  lemma ExchangeAnchored(messages: seq<Message>)
    requires IsExchange(messages)
    ensures AnchorBeforeFinalBlock(messages, 0)
  {
    ExchangeShape(messages);
  }

  lemma ExchangeStays(e: Estimator, messages: seq<Message>, limit: u64)
    requires IsExchange(messages)
    ensures DropPass(e, messages, limit, 0) == messages
  {
    ExchangeShape(messages);
    Seqs.DropNothing(messages);
    Seqs.DropNothing(messages[..1]);
    Seqs.Rejoin(messages, 1);
    assert DropOldest(e, [], messages, limit) == messages;
  }

  /** When both are at the floor, no limit removes the question, which stands before the final block. */
  lemma LastUserTurnStays(e: Estimator, messages: seq<Message>, limit: u64)
    requires IsExchange(messages) && AllAtFloor(e, messages)
    ensures Enforced(e, messages, limit, 0) == messages
    ensures AnchorBeforeFinalBlock(Normalized(messages, 0), 0)
  {
    ExchangeAnchored(messages);
    ExchangeShape(messages);
    FloorOnlyLosesBlocks(e, messages, limit, 0);
    ExchangeStays(e, messages, limit);
  }
}
