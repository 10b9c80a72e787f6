/**
 * Bounding a window of messages by a token limit.
 *
 * Each pass is given twice: as a function that recomputes the window's cost
 * from scratch, and as a method of `Window` that rewrites the window in place
 * while keeping a cost vector, a running total and a mask up to date.
 */
module Budget {
  import opened Messages
  import Seqs

  /** Content at or below this cost is left alone. */
  const MIN_KEPT_CONTENT_TOKENS := 64

  // ---- Positions in a window ----

  /** First index at or after `start` that is past the run of tool results there. */
  function SkipTools(messages: seq<Message>, start: nat): (idx: nat)
    ensures start <= idx
    ensures start <= |messages| ==> idx <= |messages|
    ensures idx < |messages| ==> !messages[idx].role.Tool?
    decreases |messages| - start
  {
    if start < |messages| && messages[start].role.Tool? then SkipTools(messages, start + 1) else start
  }

  /** Last index at or below `i` that is 0 or holds no tool result. */
  function Owner(messages: seq<Message>, i: nat): (owner: nat)
    requires i < |messages|
    ensures owner <= i
    ensures owner == 0 || !messages[owner].role.Tool?
  {
    if i > 0 && messages[i].role.Tool? then Owner(messages, i - 1) else i
  }

  function FirstOf(messages: seq<Message>, role: Role): (found: Option<nat>)
    ensures found.Some? ==> found.value < |messages| && messages[found.value].role == role
  {
    if messages == [] then None
    else if messages[0].role == role then Some(0)
    else match FirstOf(messages[1..], role)
      case None => None
      case Some(i) => Some(i + 1)
  }

  function LastOf(messages: seq<Message>, role: Role): (found: Option<nat>)
    ensures found.Some? ==> found.value < |messages| && messages[found.value].role == role
  {
    if messages == [] then None
    else if messages[|messages| - 1].role == role then Some(|messages| - 1)
    else LastOf(messages[..|messages| - 1], role)
  }

  lemma {:induction false} SkippedAreTools(messages: seq<Message>, start: nat, k: nat)
    requires start <= k < SkipTools(messages, start)
    ensures k < |messages| && messages[k].role.Tool?
    decreases |messages| - start
  {
    if start < k {
      SkippedAreTools(messages, start + 1, k);
    }
  }

  lemma {:induction false} OwnedAreTools(messages: seq<Message>, i: nat, k: nat)
    requires i < |messages| && Owner(messages, i) < k <= i
    ensures messages[k].role.Tool?
  {
    if k < i {
      OwnedAreTools(messages, i - 1, k);
    }
  }

  lemma {:induction false} FirstOfIsFirst(messages: seq<Message>, role: Role, k: nat)
    requires k < |messages| && messages[k].role == role
    ensures FirstOf(messages, role).Some? && FirstOf(messages, role).value <= k
  {
    if k > 0 {
      FirstOfIsFirst(messages[1..], role, k - 1);
    }
  }

  lemma {:induction false} LastOfIsLast(messages: seq<Message>, role: Role, k: nat)
    requires k < |messages| && messages[k].role == role
    ensures LastOf(messages, role).Some? && k <= LastOf(messages, role).value
  {
    if k < |messages| - 1 {
      LastOfIsLast(messages[..|messages| - 1], role, k);
    }
  }

  method AdjustToolBoundary(messages: seq<Message>, start: nat) returns (idx: nat)
    ensures idx == SkipTools(messages, start)
  {
    idx := start;
    while idx < |messages| && messages[idx].role.Tool?
      invariant SkipTools(messages, idx) == SkipTools(messages, start)
    {
      idx := idx + 1;
    }
  }

  function WindowStart(messages: seq<Message>, start: nat): nat {
    var adjusted := SkipTools(messages, start);
    match LastOf(messages, User)
    case Some(lastUser) => Min(adjusted, lastUser)
    case None => adjusted
  }

  /**
   * The kept tail starts behind the results that lead it, unless the last user
   * turn stands further back, and then on that turn.
   */
  ghost predicate StartsRight(messages: seq<Message>, start: nat, idx: nat) {
    && idx <= |messages| && (idx < |messages| ==> !messages[idx].role.Tool?)
    && (forall p :: start <= p < idx ==> messages[p].role.Tool?)
    && (LastOf(messages, User).Some? ==> idx <= LastOf(messages, User).value)
    && (idx < start ==> LastOf(messages, User) == Some(idx))
  }

  lemma TailStartsRight(messages: seq<Message>, start: nat)
    requires start <= |messages|
    ensures StartsRight(messages, start, WindowStart(messages, start))
    ensures forall idx: nat :: StartsRight(messages, start, idx) ==> idx == WindowStart(messages, start)
  {
    forall p | start <= p < SkipTools(messages, start) ensures p < |messages| && messages[p].role.Tool? {
      SkippedAreTools(messages, start, p);
    }
  }

  method KeptWindowStart(messages: seq<Message>, start: nat) returns (idx: nat)
    ensures idx == WindowStart(messages, start)
    ensures start <= |messages| ==> StartsRight(messages, start, idx)
  {
    if start <= |messages| {
      TailStartsRight(messages, start);
    }
    var adjusted := AdjustToolBoundary(messages, start);
    match LastOf(messages, User)
    case Some(lastUser) => idx := Min(adjusted, lastUser);
    case None => idx := adjusted;
  }

  /** Where a head boundary moves to so that no exchange straddles it. */
  function Edge(messages: seq<Message>, headEnd: nat): (end: nat)
    ensures headEnd <= end
    ensures headEnd <= |messages| ==> end <= |messages|
  {
    if headEnd == 0 || headEnd > |messages| then headEnd
    else if messages[Owner(messages, headEnd - 1)].toolCalls == [] then headEnd
    else SkipTools(messages, headEnd)
  }

  method ExchangeEdge(messages: seq<Message>, headEnd: nat) returns (end: nat)
    ensures end == Edge(messages, headEnd)
  {
    if headEnd == 0 || headEnd > |messages| {
      return headEnd;
    }
    var owner: nat := headEnd - 1;
    while owner > 0 && messages[owner].role.Tool?
      invariant owner < |messages|
      invariant Owner(messages, owner) == Owner(messages, headEnd - 1)
    {
      owner := owner - 1;
    }
    if messages[owner].toolCalls == [] {
      return headEnd;
    }
    end := headEnd;
    while end < |messages| && messages[end].role.Tool?
      invariant SkipTools(messages, end) == SkipTools(messages, headEnd)
    {
      end := end + 1;
    }
  }

  // ---- The passes, as functions of the window ----

  /** Pass 0: drop what stands between the head and the first user turn after it. */
  function Normalized(messages: seq<Message>, fixedHead: nat): seq<Message> {
    var head := Min(fixedHead, |messages|);
    match FirstOf(messages[head..], User)
    case None => messages
    case Some(user) => messages[..head] + messages[head + user..]
  }

  /**
   * What stands between the head and the first user turn behind it is dropped;
   * a window without such a turn is left as it is.
   */
  lemma NormalizedIsLed(messages: seq<Message>, fixedHead: nat) returns (head: nat, cut: nat)
    ensures head == Min(fixedHead, |messages|) && head <= cut <= |messages|
    ensures forall j :: head <= j < cut ==> !messages[j].role.User?
    ensures if cut < |messages| then messages[cut].role.User? && Normalized(messages, fixedHead) == messages[..head] + messages[cut..]
            else Normalized(messages, fixedHead) == messages
  {
    head := Min(fixedHead, |messages|);
    var tail := messages[head..];
    var first := FirstOf(tail, User);
    cut := if first.Some? then head + first.value else |messages|;
    forall j | head <= j < cut ensures !messages[j].role.User? {
      if messages[j].role.User? {
        FirstOfIsFirst(tail, User, j - head);
      }
    }
  }

  function Elided(e: Estimator, m: Message, spared: bool): Message {
    if !m.role.Tool? || spared || e.Count(m.content) <= MIN_KEPT_CONTENT_TOKENS then m
    else
      var marker := ElidedMarker(|m.content|);
      if |marker| < |m.content| then m.(content := marker) else m
  }

  /** Pass 1, from message `i` on. */
  function ElidePass(e: Estimator, messages: seq<Message>, limit: u64, lastTool: Option<nat>, i: nat): seq<Message>
    decreases |messages| - i
  {
    if i >= |messages| || e.Total(messages) <= limit then messages
    else ElidePass(e, messages[i := Elided(e, messages[i], lastTool == Some(i))], limit, lastTool, i + 1)
  }

  function TruncateToTokens(e: Estimator, content: Text, target: nat): Text {
    if e.Count(content) <= target then content
    else
      var marker := TruncationMarker(|content|);
      if e.Count(marker) >= target then marker
      else e.TokenPrefix(content, target - e.Count(marker)) + marker
  }

  /** What the rest of a window costing `total` leaves for the content of `m`. */
  function Allowance(e: Estimator, m: Message, total: nat, limit: u64): nat {
    var others := SaturatingSub(total, e.MessageTokens(m));
    SaturatingSub(limit, SaturatingAdd(others, e.ImmutableTokens(m)))
  }

  function Truncated(e: Estimator, m: Message, total: nat, limit: u64): Message {
    if m.role.System? || e.Count(m.content) <= MIN_KEPT_CONTENT_TOKENS then m
    else
      var shrunk := TruncateToTokens(e, m.content, Allowance(e, m, total, limit));
      if shrunk != [] && |shrunk| < |m.content| then m.(content := shrunk) else m
  }

  /** Pass 2, from message `i` on. */
  function TruncatePass(e: Estimator, messages: seq<Message>, limit: u64, i: nat): seq<Message>
    decreases |messages| - i
  {
    if i >= |messages| || e.Total(messages) <= limit then messages
    else TruncatePass(e, messages[i := Truncated(e, messages[i], e.Total(messages), limit)], limit, i + 1)
  }

  /** Length of the block at the front: a caller takes its tool results with it. */
  function BlockLength(messages: seq<Message>): (n: nat)
    requires messages != []
    ensures 0 < n <= |messages|
  {
    if messages[0].toolCalls == [] then 1 else SkipTools(messages, 1)
  }

  predicate HoldsLastUser(messages: seq<Message>, n: nat) {
    var lastUser := LastOf(messages, User);
    lastUser.Some? && lastUser.value < n
  }

  /** Pass 3: `kept` is settled, the blocks of `rest` are still to be considered. */
  function DropOldest(e: Estimator, kept: seq<Message>, rest: seq<Message>, limit: u64): seq<Message>
    decreases |rest|
  {
    if rest == [] || e.Total(kept + rest) <= limit || BlockLength(rest) == |rest| then kept + rest
    else
      var n := BlockLength(rest);
      if HoldsLastUser(rest, n) then DropOldest(e, kept + rest[..n], rest[n..], limit)
      else DropOldest(e, kept, rest[n..], limit)
  }

  function DropPass(e: Estimator, messages: seq<Message>, limit: u64, fixedHead: nat): seq<Message> {
    var head := Min(fixedHead, |messages|);
    var left := DropOldest(e, messages[..head], messages[head..], limit);
    if |left| == |messages| then messages else Normalized(left, fixedHead)
  }

  /** The window after the passes that rewrite content. */
  function Shrunk(e: Estimator, messages: seq<Message>, limit: u64, fixedHead: nat): seq<Message> {
    var window := Normalized(messages, fixedHead);
    TruncatePass(e, ElidePass(e, window, limit, LastOf(window, Tool), 0), limit, 0)
  }

  /** The four passes in order. */
  function Enforced(e: Estimator, messages: seq<Message>, limit: u64, fixedHead: nat): seq<Message> {
    DropPass(e, Shrunk(e, messages, limit, fixedHead), limit, fixedHead)
  }

  // ---- The passes, in place ----

  /** Keep the messages whose mask bit is set, in order. */
  function Retain(messages: seq<Message>, keep: seq<bool>): (kept: seq<Message>)
    requires |keep| == |messages|
    ensures |kept| <= |messages|
  {
    if messages == [] then []
    else (if keep[0] then [messages[0]] else []) + Retain(messages[1..], keep[1..])
  }

  lemma {:induction false} RetainConcat(a: seq<Message>, b: seq<Message>, ka: seq<bool>, kb: seq<bool>)
    requires |a| == |ka| && |b| == |kb|
    ensures Retain(a + b, ka + kb) == Retain(a, ka) + Retain(b, kb)
  {
    if a == [] {
      assert a + b == b && ka + kb == kb;
    } else {
      Seqs.TailOfConcat(a, b);
      Seqs.TailOfConcat(ka, kb);
      RetainConcat(a[1..], b, ka[1..], kb);
      Seqs.ConcatAssociative(if ka[0] then [a[0]] else [], Retain(a[1..], ka[1..]), Retain(b, kb));
    }
  }

  lemma {:induction false} RetainUniform(messages: seq<Message>, keep: seq<bool>, bit: bool)
    requires |keep| == |messages|
    requires forall k :: 0 <= k < |keep| ==> keep[k] == bit
    ensures Retain(messages, keep) == if bit then messages else []
  {
    if messages != [] {
      RetainUniform(messages[1..], keep[1..], bit);
    }
  }

  lemma {:induction false} RetainLength(messages: seq<Message>, keep: seq<bool>)
    requires |keep| == |messages|
    ensures |Retain(messages, keep)| == |messages| <==> forall k :: 0 <= k < |keep| ==> keep[k]
  {
    if messages != [] {
      RetainLength(messages[1..], keep[1..]);
      assert forall k :: 0 < k < |keep| ==> keep[k] == keep[1..][k - 1];
      if forall k :: 0 <= k < |keep| ==> keep[k] {
        assert forall k :: 0 <= k < |keep| - 1 ==> keep[1..][k] == keep[k + 1];
      }
    }
  }

  datatype Block = Block(start: nat, end: nat)

  function BlocksFrom(messages: seq<Message>, i: nat): seq<Block>
    decreases |messages| - i
  {
    if i >= |messages| then []
    else
      var end := i + BlockLength(messages[i..]);
      [Block(i, end)] + BlocksFrom(messages, end)
  }

  lemma {:induction false} SkipToolsShift(messages: seq<Message>, i: nat, start: nat)
    requires i <= |messages| && start <= |messages| - i
    ensures SkipTools(messages, i + start) == i + SkipTools(messages[i..], start)
    decreases |messages| - start
  {
    if i + start < |messages| && messages[i + start].role.Tool? {
      SkipToolsShift(messages, i, start + 1);
    }
  }

  predicate Priced(e: Estimator, messages: seq<Message>, costs: seq<nat>) {
    |costs| == |messages| && forall i :: 0 <= i < |costs| ==> costs[i] == e.MessageTokens(messages[i])
  }

  lemma {:induction false} SumIsTotal(e: Estimator, messages: seq<Message>, costs: seq<nat>)
    requires Priced(e, messages, costs)
    ensures Seqs.Sum(costs) == e.Total(messages)
  {
    if messages != [] {
      SumIsTotal(e, messages[1..], costs[1..]);
    }
  }

  /** A message vector that the passes rewrite in place. */
  class Window {
    var messages: seq<Message>

    constructor (messages: seq<Message>)
      ensures this.messages == messages
    {
      this.messages := messages;
    }

    method NormalizeLeading(fixedHead: nat)
      modifies this
      ensures messages == Normalized(old(messages), fixedHead)
    {
      var head := Min(fixedHead, |messages|);
      Seqs.Rejoin(messages, head);
      var found := FirstOf(messages[head..], User);
      if found.Some? && found.value > 0 {
        messages := messages[..head] + messages[head + found.value..];
      }
    }

    /** Store `m` at `i`, keeping the cost vector and the running total in step. */
    method Replace(e: Estimator, i: nat, m: Message, costs: seq<nat>, total: nat)
      returns (newCosts: seq<nat>, newTotal: nat)
      requires i < |messages| && Priced(e, messages, costs) && total == e.Total(messages)
      modifies this
      ensures messages == old(messages)[i := m]
      ensures Priced(e, messages, newCosts) && newTotal == e.Total(messages)
    {
      e.TotalUpdate(messages, i, m);
      messages := messages[i := m];
      var newCost := e.MessageTokens(m);
      newTotal := total - costs[i];
      newTotal := newTotal + newCost;
      newCosts := costs[i := newCost];
    }

    method ElideToolResults(e: Estimator, limit: u64, costs0: seq<nat>, total0: nat)
      returns (costs: seq<nat>, total: nat)
      requires Priced(e, messages, costs0) && total0 == e.Total(messages)
      modifies this
      ensures messages == ElidePass(e, old(messages), limit, LastOf(old(messages), Tool), 0)
      ensures Priced(e, messages, costs) && total == e.Total(messages)
    {
      costs, total := costs0, total0;
      var lastTool := LastOf(messages, Tool);
      var i := 0;
      while i < |messages|
        invariant i <= |messages|
        invariant Priced(e, messages, costs) && total == e.Total(messages)
        invariant ElidePass(e, messages, limit, lastTool, i)
               == ElidePass(e, old(messages), limit, lastTool, 0)
        decreases |messages| - i
      {
        if total <= limit {
          return;
        }
        if messages[i].role.Tool? && lastTool != Some(i)
           && e.Count(messages[i].content) > MIN_KEPT_CONTENT_TOKENS {
          var marker := ElidedMarker(|messages[i].content|);
          if |marker| < |messages[i].content| {
            costs, total := Replace(e, i, messages[i].(content := marker), costs, total);
          } else {
            assert messages == messages[i := messages[i]];
          }
        } else {
          assert messages == messages[i := messages[i]];
        }
        i := i + 1;
      }
    }

    method TruncateContent(e: Estimator, limit: u64, costs0: seq<nat>, total0: nat)
      returns (costs: seq<nat>, total: nat)
      requires Priced(e, messages, costs0) && total0 == e.Total(messages)
      modifies this
      ensures messages == TruncatePass(e, old(messages), limit, 0)
      ensures Priced(e, messages, costs) && total == e.Total(messages)
    {
      costs, total := costs0, total0;
      var i := 0;
      while i < |messages|
        invariant i <= |messages|
        invariant Priced(e, messages, costs) && total == e.Total(messages)
        invariant TruncatePass(e, messages, limit, i) == TruncatePass(e, old(messages), limit, 0)
        decreases |messages| - i
      {
        if total <= limit {
          return;
        }
        if !messages[i].role.System? && e.Count(messages[i].content) > MIN_KEPT_CONTENT_TOKENS {
          var others := SaturatingSub(total, costs[i]);
          var allowance := SaturatingSub(limit, SaturatingAdd(others, e.ImmutableTokens(messages[i])));
          var shrunk := TruncateToTokens(e, messages[i].content, allowance);
          if shrunk != [] && |shrunk| < |messages[i].content| {
            costs, total := Replace(e, i, messages[i].(content := shrunk), costs, total);
          } else {
            assert messages == messages[i := messages[i]];
          }
        } else {
          assert messages == messages[i := messages[i]];
        }
        i := i + 1;
      }
    }

    /** The blocks of the window from `head` on, oldest first. */
    method CollectBlocks(head: nat) returns (blocks: seq<Block>)
      requires head <= |messages|
      ensures blocks == BlocksFrom(messages, head)
    {
      blocks := [];
      var i := head;
      while i < |messages|
        invariant head <= i <= |messages|
        invariant blocks + BlocksFrom(messages, i) == BlocksFrom(messages, head)
      {
        var end := i + 1;
        if messages[i].toolCalls != [] {
          while end < |messages| && messages[end].role.Tool?
            invariant i < end <= |messages|
            invariant SkipTools(messages, end) == SkipTools(messages, i + 1)
          {
            end := end + 1;
          }
        }
        BlocksStep(messages, i, end, blocks);
        blocks := blocks + [Block(i, end)];
        i := end;
      }
    }

    /** Mark one block as dropped and take its cost off the running total. */
    method MarkBlock(e: Estimator, block: Block, costs: seq<nat>, dropped0: seq<bool>, total0: nat,
                     ghost kept: seq<Message>)
      returns (dropped: seq<bool>, total: nat)
      requires block.start <= block.end <= |messages| == |dropped0|
      requires Priced(e, messages, costs) && total0 == e.Total(kept + messages[block.start..])
      ensures |dropped| == |dropped0|
      ensures forall k :: 0 <= k < |dropped| ==> dropped[k] == (dropped0[k] || block.start <= k < block.end)
      ensures total == e.Total(kept + messages[block.end..])
    {
      dropped, total := dropped0, total0;
      var j := block.start;
      while j < block.end
        invariant block.start <= j <= block.end && |dropped| == |messages|
        invariant forall k :: 0 <= k < |dropped| ==> dropped[k] == (dropped0[k] || block.start <= k < j)
        invariant total == e.Total(kept + messages[j..])
      {
        dropped := dropped[j := true];
        OneDropped(e, kept, messages, j);
        total := total - costs[j];
        j := j + 1;
      }
    }

    /** Mark a block with others behind it, unless it holds the last user turn. */
    method ConsiderBlock(e: Estimator, limit: u64, ghost head: nat, block: Block, lastUser: Option<nat>, costs: seq<nat>,
                         dropped0: seq<bool>, total0: nat, ghost kept0: seq<Message>)
      returns (dropped: seq<bool>, total: nat, ghost kept: seq<Message>)
      requires Priced(e, messages, costs) && lastUser == LastOf(messages, User)
      requires Marked(e, messages, limit, head, block.start, kept0, dropped0)
      requires total0 == e.Total(kept0 + messages[block.start..]) > limit
      requires block.start < block.end < |messages| && block.end == block.start + BlockLength(messages[block.start..])
      ensures Marked(e, messages, limit, head, block.end, kept, dropped)
      ensures total == e.Total(kept + messages[block.end..])
    {
      if lastUser.Some? && block.start <= lastUser.value < block.end {
        MarkedKeep(e, messages, limit, head, block.start, block.end, kept0, dropped0);
        dropped, total, kept := dropped0, total0, kept0 + messages[block.start..block.end];
      } else {
        dropped, total := MarkBlock(e, block, costs, dropped0, total0, kept0);
        MarkedDrop(e, messages, limit, head, block.start, block.end, kept0, dropped0, dropped);
        kept := kept0;
      }
    }

    /** Mark blocks as dropped, oldest first, until the rest fits. */
    method MarkDropped(e: Estimator, limit: u64, head: nat, costs: seq<nat>, total0: nat)
      returns (dropped: seq<bool>)
      requires head <= |messages|
      requires Priced(e, messages, costs) && total0 == e.Total(messages)
      ensures |dropped| == |messages|
      ensures Retain(messages, Not(dropped)) == DropOldest(e, messages[..head], messages[head..], limit)
    {
      var total := total0;
      var lastUser := LastOf(messages, User);
      var blocks := CollectBlocks(head);
      dropped := seq(|messages|, _ => false);
      var b := 0;
      ghost var s := head;
      ghost var kept := messages[..head];
      MarkedStart(e, messages, limit, head, dropped);
      while b < |blocks|
        invariant b <= |blocks| && Marked(e, messages, limit, head, s, kept, dropped)
        invariant blocks[b..] == BlocksFrom(messages, s)
        invariant total == e.Total(kept + messages[s..])
      {
        var block := blocks[b];
        BlocksShape(messages, s, blocks[b..]);
        if total <= limit {
          break;
        }
        if b == |blocks| - 1 {
          break;
        }
        NextBlocks(blocks, b);
        dropped, total, kept := ConsiderBlock(e, limit, head, block, lastUser, costs, dropped, total, kept);
        s := block.end;
        b := b + 1;
      }
      MarkedDone(e, messages, limit, head, s, kept, dropped);
    }

    method DropBlocks(e: Estimator, limit: u64, fixedHead: nat, costs: seq<nat>, total: nat)
      requires Priced(e, messages, costs) && total == e.Total(messages)
      modifies this
      ensures messages == DropPass(e, old(messages), limit, fixedHead)
    {
      var head := Min(fixedHead, |messages|);
      var dropped := MarkDropped(e, limit, head, costs, total);
      RetainLength(messages, Not(dropped));
      if exists k :: 0 <= k < |dropped| && dropped[k] {
        messages := Retain(messages, Not(dropped));
        NormalizeLeading(fixedHead);
      }
    }

    method EnforceTokenBudget(e: Estimator, limit: u64, fixedHead: nat)
      modifies this
      ensures messages == Enforced(e, old(messages), limit, fixedHead)
    {
      NormalizeLeading(fixedHead);
      ghost var window := messages;
      var costs := [];
      for i := 0 to |messages|
        invariant Priced(e, messages[..i], costs)
      {
        costs := costs + [e.MessageTokens(messages[i])];
      }
      var total := Seqs.Sum(costs);
      assert messages[..|messages|] == messages;
      SumIsTotal(e, messages, costs);
      if total <= limit {
        WithinLimit(e, messages, limit, fixedHead);
        return;
      }
      costs, total := ElideToolResults(e, limit, costs, total);
      costs, total := TruncateContent(e, limit, costs, total);
      if total > limit {
        DropBlocks(e, limit, fixedHead, costs, total);
      } else {
        WithinLimit(e, messages, limit, fixedHead);
      }
    }
  }

  function Not(mask: seq<bool>): (m: seq<bool>)
    ensures |m| == |mask|
    ensures forall k :: 0 <= k < |m| ==> m[k] == !mask[k]
  {
    seq(|mask|, k requires 0 <= k < |mask| => !mask[k])
  }

  lemma {:induction false} LastOfSuffix(messages: seq<Message>, s: nat)
    requires s <= |messages|
    ensures LastOf(messages[s..], User)
         == var all := LastOf(messages, User);
            if all.Some? && s <= all.value then Some(all.value - s) else None
  {
    if s < |messages| {
      var last := |messages| - 1;
      assert messages[s..][..last - s] == messages[..last][s..];
      LastOfSuffix(messages[..last], s);
    }
  }

  lemma BlockEnd(messages: seq<Message>, i: nat)
    requires i < |messages|
    ensures i + BlockLength(messages[i..]) == if messages[i].toolCalls == [] then i + 1 else SkipTools(messages, i + 1)
  {
    SkipToolsShift(messages, i, 1);
  }

  lemma FirstBlockOf(messages: seq<Message>, i: nat, end: nat)
    requires i < |messages| && end == i + BlockLength(messages[i..])
    ensures BlocksFrom(messages, i) == [Block(i, end)] + BlocksFrom(messages, end)
  {
  }

  lemma BlocksStep(messages: seq<Message>, i: nat, end: nat, before: seq<Block>)
    requires i < |messages|
    requires end == if messages[i].toolCalls == [] then i + 1 else SkipTools(messages, i + 1)
    ensures before + BlocksFrom(messages, i) == (before + [Block(i, end)]) + BlocksFrom(messages, end)
  {
    BlockEnd(messages, i);
    FirstBlockOf(messages, i, end);
    Seqs.ConcatAssociative(before, [Block(i, end)], BlocksFrom(messages, end));
  }

  lemma BlocksShape(messages: seq<Message>, s: nat, blocks: seq<Block>)
    requires s <= |messages| && blocks != [] && blocks == BlocksFrom(messages, s)
    ensures s < |messages| && blocks[0] == Block(s, s + BlockLength(messages[s..]))
    ensures blocks[1..] == BlocksFrom(messages, blocks[0].end)
    ensures |blocks| == 1 <==> blocks[0].end == |messages|
  {
  }

  lemma NextBlocks(blocks: seq<Block>, b: nat)
    requires b < |blocks|
    ensures blocks[b..][0] == blocks[b] && blocks[b..][1..] == blocks[b + 1..]
    ensures |blocks[b..]| == |blocks| - b
  {
    Seqs.DropDrop(blocks, b, b + 1);
  }

  lemma FirstBlockDropped(e: Estimator, kept: seq<Message>, rest: seq<Message>, n: nat,
                          block: seq<Message>, left: seq<Message>, limit: u64)
    requires 0 < n < |rest| && n == BlockLength(rest)
    requires block == rest[..n] && left == rest[n..]
    requires e.Total(kept + rest) > limit
    ensures DropOldest(e, kept, rest, limit)
         == if HoldsLastUser(rest, n) then DropOldest(e, kept + block, left, limit)
            else DropOldest(e, kept, left, limit)
  {
  }

  lemma LastUserInBlock(messages: seq<Message>, s: nat, end: nat)
    requires s < end <= |messages|
    ensures HoldsLastUser(messages[s..], end - s)
       <==> LastOf(messages, User).Some? && s <= LastOf(messages, User).value < end
  {
    LastOfSuffix(messages, s);
  }

  lemma DropStep(e: Estimator, kept: seq<Message>, messages: seq<Message>, s: nat, end: nat, limit: u64)
    requires s < end < |messages| && end == s + BlockLength(messages[s..])
    requires e.Total(kept + messages[s..]) > limit
    ensures DropOldest(e, kept, messages[s..], limit)
         == if LastOf(messages, User).Some? && s <= LastOf(messages, User).value < end
            then DropOldest(e, kept + messages[s..end], messages[end..], limit)
            else DropOldest(e, kept, messages[end..], limit)
  {
    LastUserInBlock(messages, s, end);
    Seqs.DropDrop(messages, s, end);
    FirstBlockDropped(e, kept, messages[s..], end - s, messages[s..end], messages[end..], limit);
  }

  lemma DropDone(e: Estimator, kept: seq<Message>, messages: seq<Message>, s: nat, limit: u64)
    requires s <= |messages|
    requires s < |messages| ==>
               e.Total(kept + messages[s..]) <= limit || BlockLength(messages[s..]) == |messages[s..]|
    ensures DropOldest(e, kept, messages[s..], limit) == kept + messages[s..]
  {
  }

  lemma StartMask(messages: seq<Message>, keep: seq<bool>, head: nat)
    requires head <= |messages| == |keep| && forall k :: 0 <= k < |keep| ==> keep[k]
    ensures Retain(messages[..head], keep[..head]) == messages[..head]
    ensures messages[..head] + messages[head..] == messages
  {
    RetainUniform(messages[..head], keep[..head], true);
  }

  lemma ExtendMask(messages: seq<Message>, keep: seq<bool>, s: nat, end: nat, bit: bool)
    requires |keep| == |messages| && s <= end <= |messages|
    requires forall k :: s <= k < end ==> keep[k] == bit
    ensures Retain(messages[..end], keep[..end])
         == Retain(messages[..s], keep[..s]) + if bit then messages[s..end] else []
  {
    assert messages[..end] == messages[..s] + messages[s..end];
    assert keep[..end] == keep[..s] + keep[s..end];
    RetainConcat(messages[..s], messages[s..end], keep[..s], keep[s..end]);
    RetainUniform(messages[s..end], keep[s..end], bit);
  }

  /** The state of the drop loop once the blocks before `s` are settled. */
  ghost predicate Marked(e: Estimator, messages: seq<Message>, limit: u64, head: nat,
                         s: nat, kept: seq<Message>, dropped: seq<bool>)
  {
    && head <= s <= |messages| == |dropped|
    && (forall k :: s <= k < |dropped| ==> !dropped[k])
    && kept == Retain(messages[..s], Not(dropped)[..s])
    && DropOldest(e, kept, messages[s..], limit) == DropOldest(e, messages[..head], messages[head..], limit)
  }

  lemma MarkedKeep(e: Estimator, messages: seq<Message>, limit: u64, head: nat,
                   s: nat, end: nat, kept: seq<Message>, dropped: seq<bool>)
    requires Marked(e, messages, limit, head, s, kept, dropped)
    requires s < end < |messages| && end == s + BlockLength(messages[s..])
    requires e.Total(kept + messages[s..]) > limit
    requires LastOf(messages, User).Some? && s <= LastOf(messages, User).value < end
    ensures Marked(e, messages, limit, head, end, kept + messages[s..end], dropped)
    ensures kept + messages[s..end] + messages[end..] == kept + messages[s..]
  {
    DropStep(e, kept, messages, s, end, limit);
    ExtendMask(messages, Not(dropped), s, end, true);
    Seqs.CutDrop(messages, s, end);
    Seqs.ConcatAssociative(kept, messages[s..end], messages[end..]);
  }

  lemma MarkedDrop(e: Estimator, messages: seq<Message>, limit: u64, head: nat,
                   s: nat, end: nat, kept: seq<Message>, before: seq<bool>, dropped: seq<bool>)
    requires Marked(e, messages, limit, head, s, kept, before)
    requires s < end < |messages| && end == s + BlockLength(messages[s..])
    requires e.Total(kept + messages[s..]) > limit
    requires !(LastOf(messages, User).Some? && s <= LastOf(messages, User).value < end)
    requires |dropped| == |before|
    requires forall k :: 0 <= k < |dropped| ==> dropped[k] == (before[k] || s <= k < end)
    ensures Marked(e, messages, limit, head, end, kept, dropped)
  {
    DropStep(e, kept, messages, s, end, limit);
    assert Not(dropped)[..s] == Not(before)[..s];
    ExtendMask(messages, Not(dropped), s, end, false);
  }

  lemma FinishMask(messages: seq<Message>, keep: seq<bool>, s: nat)
    requires |keep| == |messages| && s <= |messages|
    requires forall k :: s <= k < |keep| ==> keep[k]
    ensures Retain(messages, keep) == Retain(messages[..s], keep[..s]) + messages[s..]
  {
    ExtendMask(messages, keep, s, |messages|, true);
    assert messages[..|messages|] == messages && keep[..|messages|] == keep;
  }

  lemma TotalDropped(e: Estimator, kept: seq<Message>, messages: seq<Message>, s: nat, end: nat)
    requires s <= end <= |messages|
    ensures e.Total(kept + messages[s..])
         == e.Total(kept + messages[end..]) + e.Total(messages[s..end])
  {
    e.TotalConcat(kept, messages[s..]);
    e.TotalConcat(kept, messages[end..]);
    assert messages[s..] == messages[s..end] + messages[end..];
    e.TotalConcat(messages[s..end], messages[end..]);
  }

  lemma OneDropped(e: Estimator, kept: seq<Message>, messages: seq<Message>, j: nat)
    requires j < |messages|
    ensures e.Total(kept + messages[j..]) == e.Total(kept + messages[j + 1..]) + e.MessageTokens(messages[j])
  {
    TotalDropped(e, kept, messages, j, j + 1);
    e.TotalSingle(messages[j]);
    assert messages[j..j + 1] == [messages[j]];
  }

  lemma MarkedStart(e: Estimator, messages: seq<Message>, limit: u64, head: nat, dropped: seq<bool>)
    requires head <= |messages| == |dropped| && forall k :: 0 <= k < |dropped| ==> !dropped[k]
    ensures Marked(e, messages, limit, head, head, messages[..head], dropped)
    ensures messages[..head] + messages[head..] == messages
  {
    StartMask(messages, Not(dropped), head);
  }

  lemma MarkedDone(e: Estimator, messages: seq<Message>, limit: u64, head: nat,
                   s: nat, kept: seq<Message>, dropped: seq<bool>)
    requires Marked(e, messages, limit, head, s, kept, dropped)
    requires s < |messages| ==>
               e.Total(kept + messages[s..]) <= limit || BlockLength(messages[s..]) == |messages[s..]|
    ensures Retain(messages, Not(dropped)) == DropOldest(e, messages[..head], messages[head..], limit)
  {
    FinishMask(messages, Not(dropped), s);
    DropDone(e, kept, messages, s, limit);
  }

  /** A window within the limit is left as it is by every pass but the first. */
  lemma WithinLimit(e: Estimator, messages: seq<Message>, limit: u64, fixedHead: nat)
    requires e.Total(messages) <= limit
    ensures ElidePass(e, messages, limit, LastOf(messages, Tool), 0) == messages
    ensures TruncatePass(e, messages, limit, 0) == messages
    ensures DropPass(e, messages, limit, fixedHead) == messages
  {
    var head := Min(fixedHead, |messages|);
    assert messages[..head] + messages[head..] == messages;
  }
}
