/**
 * How far each pass goes: it takes messages, or blocks, from the oldest on,
 * and stops at the first point where the window fits.
 */
module OldestFirst {
  import opened Messages
  import opened Budget
  import opened BudgetBounds
  import Seqs

  // ---- Pass 1 ----

  /** The window with the first `k` messages elided. */
  function ElidedUpTo(e: Estimator, messages: seq<Message>, lastTool: Option<nat>, k: nat): (r: seq<Message>)
    ensures |r| == |messages|
  {
    seq(|messages|, i requires 0 <= i < |messages| =>
      if i < k then Elided(e, messages[i], lastTool == Some(i)) else messages[i])
  }

  lemma ElideOneMore(e: Estimator, messages: seq<Message>, limit: u64, lastTool: Option<nat>, i: nat)
    requires i < |messages| && e.Total(ElidedUpTo(e, messages, lastTool, i)) > limit
    ensures ElidePass(e, ElidedUpTo(e, messages, lastTool, i), limit, lastTool, i)
         == ElidePass(e, ElidedUpTo(e, messages, lastTool, i + 1), limit, lastTool, i + 1)
  {
    var now := ElidedUpTo(e, messages, lastTool, i);
    assert now[i := Elided(e, now[i], lastTool == Some(i))] == ElidedUpTo(e, messages, lastTool, i + 1);
  }

  lemma {:induction false} ElidingFrom(e: Estimator, messages: seq<Message>, limit: u64, lastTool: Option<nat>, i: nat)
    returns (k: nat)
    requires i <= |messages|
    ensures i <= k <= |messages|
    ensures ElidePass(e, ElidedUpTo(e, messages, lastTool, i), limit, lastTool, i) == ElidedUpTo(e, messages, lastTool, k)
    ensures k < |messages| ==> e.Total(ElidedUpTo(e, messages, lastTool, k)) <= limit
    ensures forall j :: i <= j < k ==> e.Total(ElidedUpTo(e, messages, lastTool, j)) > limit
    decreases |messages| - i
  {
    var now := ElidedUpTo(e, messages, lastTool, i);
    if i == |messages| || e.Total(now) <= limit {
      k := i;
    } else {
      ElideOneMore(e, messages, limit, lastTool, i);
      k := ElidingFrom(e, messages, limit, lastTool, i + 1);
    }
  }

  /** Pass 1 elides the least number of leading messages that makes the window fit. */
  lemma ElidesOldestFirst(e: Estimator, messages: seq<Message>, limit: u64, lastTool: Option<nat>) returns (k: nat)
    ensures k <= |messages|
    ensures ElidePass(e, messages, limit, lastTool, 0) == ElidedUpTo(e, messages, lastTool, k)
    ensures k < |messages| ==> e.Total(ElidedUpTo(e, messages, lastTool, k)) <= limit
    ensures forall j :: 0 <= j < k ==> e.Total(ElidedUpTo(e, messages, lastTool, j)) > limit
  {
    assert ElidedUpTo(e, messages, lastTool, 0) == messages;
    k := ElidingFrom(e, messages, limit, lastTool, 0);
  }

  // ---- Pass 2 ----

  /** The window with the first `k` messages truncated, each against what the others then cost. */
  function TruncatedUpTo(e: Estimator, messages: seq<Message>, limit: u64, k: nat): (r: seq<Message>)
    requires k <= |messages|
    ensures |r| == |messages|
    ensures forall i :: k <= i < |r| ==> r[i] == messages[i]
  {
    if k == 0 then messages
    else
      var before := TruncatedUpTo(e, messages, limit, k - 1);
      before[k - 1 := Truncated(e, before[k - 1], e.Total(before), limit)]
  }

  lemma {:induction false} TruncatingFrom(e: Estimator, messages: seq<Message>, limit: u64, i: nat) returns (k: nat)
    requires i <= |messages|
    ensures i <= k <= |messages|
    ensures TruncatePass(e, TruncatedUpTo(e, messages, limit, i), limit, i) == TruncatedUpTo(e, messages, limit, k)
    ensures k < |messages| ==> e.Total(TruncatedUpTo(e, messages, limit, k)) <= limit
    ensures forall j :: i <= j < k ==> e.Total(TruncatedUpTo(e, messages, limit, j)) > limit
    decreases |messages| - i
  {
    if i == |messages| || e.Total(TruncatedUpTo(e, messages, limit, i)) <= limit {
      k := i;
    } else {
      k := TruncatingFrom(e, messages, limit, i + 1);
    }
  }

  /** Pass 2 truncates the least number of leading messages that makes the window fit. */
  lemma TruncatesOldestFirst(e: Estimator, messages: seq<Message>, limit: u64) returns (k: nat)
    ensures k <= |messages|
    ensures TruncatePass(e, messages, limit, 0) == TruncatedUpTo(e, messages, limit, k)
    ensures k < |messages| ==> e.Total(TruncatedUpTo(e, messages, limit, k)) <= limit
    ensures forall j :: 0 <= j < k ==> e.Total(TruncatedUpTo(e, messages, limit, j)) > limit
  {
    k := TruncatingFrom(e, messages, limit, 0);
  }

  // ---- What both passes leave alone ----

  /**
   * Content is rewritten only while the window is over its limit, and never
   * that of a system message or of one at the floor; the most recent tool
   * result is never elided, only ever cut.
   */
  lemma ShrinkingSpares(e: Estimator, messages: seq<Message>, limit: u64, fixedHead: nat, i: nat)
    requires i < |Normalized(messages, fixedHead)|
    ensures var window, shrunk := Normalized(messages, fixedHead), Shrunk(e, messages, limit, fixedHead);
            && |shrunk| == |window|
            && (shrunk[i] != window[i] ==> !AtFloor(e, window[i]) && e.Total(window) > limit)
            && (LastOf(window, Tool) == Some(i) ==>
                  shrunk[i] == window[i] || exists total: nat :: shrunk[i] == Truncated(e, window[i], total, limit))
  {
    var window := Normalized(messages, fixedHead);
    var lastTool := LastOf(window, Tool);
    var k := ElidesOldestFirst(e, window, limit, lastTool);
    var elided := ElidePass(e, window, limit, lastTool, 0);
    var n := TruncatesOldestFirst(e, elided, limit);
    TruncatedOnce(e, elided, limit, n, i);
  }

  lemma {:induction false} TruncatedOnce(e: Estimator, messages: seq<Message>, limit: u64, k: nat, i: nat)
    requires i < |messages| && k <= |messages|
    ensures var m := TruncatedUpTo(e, messages, limit, k)[i];
            m == messages[i] || exists total: nat :: m == Truncated(e, messages[i], total, limit)
  {
    if k > 0 && i < k - 1 {
      TruncatedOnce(e, messages, limit, k - 1, i);
    }
  }

  // ---- Pass 3 ----

  function BlockCount(rest: seq<Message>): nat
    decreases |rest|
  {
    if rest == [] then 0 else 1 + BlockCount(rest[BlockLength(rest)..])
  }

  /** What the first block leaves behind when it is considered. */
  function Held(rest: seq<Message>): seq<Message>
    requires rest != []
  {
    if HoldsLastUser(rest, BlockLength(rest)) then rest[..BlockLength(rest)] else []
  }

  /** `rest` without its first `b` blocks, but for the one that holds the last user turn. */
  function DroppedUpTo(rest: seq<Message>, b: nat): seq<Message>
    decreases |rest|
  {
    if rest == [] || b == 0 then rest else Held(rest) + DroppedUpTo(rest[BlockLength(rest)..], b - 1)
  }

  lemma DroppedBehind(kept: seq<Message>, rest: seq<Message>, b: nat)
    requires rest != [] && b > 0
    ensures kept + DroppedUpTo(rest, b) == (kept + Held(rest)) + DroppedUpTo(rest[BlockLength(rest)..], b - 1)
  {
    Seqs.ConcatAssociative(kept, Held(rest), DroppedUpTo(rest[BlockLength(rest)..], b - 1));
  }

  lemma ConsideredBehind(e: Estimator, kept: seq<Message>, rest: seq<Message>, limit: u64)
    requires rest != [] && BlockLength(rest) < |rest| && e.Total(kept + rest) > limit
    ensures DropOldest(e, kept, rest, limit) == DropOldest(e, kept + Held(rest), rest[BlockLength(rest)..], limit)
  {
    var n := BlockLength(rest);
    FirstBlockDropped(e, kept, rest, n, rest[..n], rest[n..], limit);
    Seqs.DropNothing(kept);
  }

  /** Dropping the first `c` blocks is not enough. */
  ghost predicate StillOver(e: Estimator, kept: seq<Message>, rest: seq<Message>, limit: u64, c: nat) {
    e.Total(kept + DroppedUpTo(rest, c)) > limit
  }

  lemma StillOverBehind(e: Estimator, kept: seq<Message>, rest: seq<Message>, limit: u64, c: nat)
    requires rest != [] && e.Total(kept + rest) > limit
    requires c > 0 ==> StillOver(e, kept + Held(rest), rest[BlockLength(rest)..], limit, c - 1)
    ensures StillOver(e, kept, rest, limit, c)
  {
    if c > 0 {
      DroppedBehind(kept, rest, c);
    }
  }

  /** Dropping fewer than `b` blocks is not enough. */
  ghost predicate FewerFail(e: Estimator, kept: seq<Message>, rest: seq<Message>, limit: u64, b: nat) {
    forall c: nat :: c < b ==> StillOver(e, kept, rest, limit, c)
  }

  lemma FewerFailBehind(e: Estimator, kept: seq<Message>, rest: seq<Message>, limit: u64, b: nat)
    requires rest != [] && e.Total(kept + rest) > limit
    requires FewerFail(e, kept + Held(rest), rest[BlockLength(rest)..], limit, b)
    ensures FewerFail(e, kept, rest, limit, b + 1)
  {
    forall c: nat | c < b + 1 ensures StillOver(e, kept, rest, limit, c) {
      StillOverBehind(e, kept, rest, limit, c);
    }
  }

  /** `b` leading blocks are enough, or all that may go: the final one stays. */
  ghost predicate Suffices(e: Estimator, kept: seq<Message>, rest: seq<Message>, limit: u64, b: nat) {
    rest != [] ==> b < BlockCount(rest) && (StillOver(e, kept, rest, limit, b) ==> b + 1 == BlockCount(rest))
  }

  lemma SufficesBehind(e: Estimator, kept: seq<Message>, rest: seq<Message>, limit: u64, b: nat)
    requires rest != [] && BlockLength(rest) < |rest|
    requires Suffices(e, kept + Held(rest), rest[BlockLength(rest)..], limit, b)
    ensures Suffices(e, kept, rest, limit, b + 1)
  {
    DroppedBehind(kept, rest, b + 1);
  }

  /** Dropping `b` blocks is what the pass does. */
  ghost predicate Leaves(e: Estimator, kept: seq<Message>, rest: seq<Message>, limit: u64, b: nat) {
    DropOldest(e, kept, rest, limit) == kept + DroppedUpTo(rest, b)
  }

  lemma LeavesBehind(e: Estimator, kept: seq<Message>, rest: seq<Message>, limit: u64, b: nat)
    requires rest != [] && BlockLength(rest) < |rest| && e.Total(kept + rest) > limit
    requires Leaves(e, kept + Held(rest), rest[BlockLength(rest)..], limit, b)
    ensures Leaves(e, kept, rest, limit, b + 1)
  {
    ConsideredBehind(e, kept, rest, limit);
    DroppedBehind(kept, rest, b + 1);
  }

  /**
   * Pass 3 drops the least number of leading blocks that makes the window fit,
   * never counting the one with the last user turn nor reaching the final one.
   */
  lemma {:induction false} DropsOldestFirst(e: Estimator, kept: seq<Message>, rest: seq<Message>, limit: u64)
    returns (b: nat)
    ensures Leaves(e, kept, rest, limit, b)
    ensures Suffices(e, kept, rest, limit, b) && FewerFail(e, kept, rest, limit, b)
    decreases |rest|
  {
    if rest == [] || e.Total(kept + rest) <= limit || BlockLength(rest) == |rest| {
      b := 0;
      NothingDropped(e, kept, rest, limit);
    } else {
      var inner := DropsOldestFirst(e, kept + Held(rest), rest[BlockLength(rest)..], limit);
      b := inner + 1;
      LeavesBehind(e, kept, rest, limit, inner);
      SufficesBehind(e, kept, rest, limit, inner);
      FewerFailBehind(e, kept, rest, limit, inner);
    }
  }

  lemma NothingDropped(e: Estimator, kept: seq<Message>, rest: seq<Message>, limit: u64)
    requires rest == [] || e.Total(kept + rest) <= limit || BlockLength(rest) == |rest|
    ensures Leaves(e, kept, rest, limit, 0)
    ensures Suffices(e, kept, rest, limit, 0)
  {
  }
}
