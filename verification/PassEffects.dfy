/** What the two content passes write, message by message and byte by byte. */
module PassEffects {
  import opened Messages
  import opened Budget
  import opened BudgetBounds
  import opened OldestFirst
  import opened BudgetSlack
  import Seqs

  // ---- Pass 1 ----

  ghost predicate LaterTool(messages: seq<Message>, i: nat) {
    exists j :: i < j < |messages| && messages[j].role.Tool?
  }

  /** A tool result, not the newest, that is worth eliding and shorter once elided. */
  ghost predicate Reclaimable(e: Estimator, messages: seq<Message>, i: nat)
    requires i < |messages|
  {
    && messages[i].role.Tool? && LaterTool(messages, i)
    && e.Count(messages[i].content) > 64
    && |ElidedMarker(|messages[i].content|)| < |messages[i].content|
  }

  /** Of the first `k` messages, the reclaimable ones hold a marker with their byte length instead of their content. */
  ghost function Blanked(e: Estimator, messages: seq<Message>, k: nat): (r: seq<Message>)
    ensures |r| == |messages|
  {
    seq(|messages|, i requires 0 <= i < |messages| =>
      if i < k && Reclaimable(e, messages, i) then messages[i].(content := ElidedMarker(|messages[i].content|))
      else messages[i])
  }

  lemma LastToolHasNoLater(messages: seq<Message>, i: nat)
    requires i < |messages| && messages[i].role.Tool?
    ensures LastOf(messages, Tool) == Some(i) <==> !LaterTool(messages, i)
  {
    LastOfIsLast(messages, Tool, i);
    if j :| i < j < |messages| && messages[j].role.Tool? {
      LastOfIsLast(messages, Tool, j);
    }
  }

  lemma ElidedIsBlanked(e: Estimator, messages: seq<Message>, k: nat)
    ensures ElidedUpTo(e, messages, LastOf(messages, Tool), k) == Blanked(e, messages, k)
  {
    forall i | 0 <= i < |messages|
      ensures ElidedUpTo(e, messages, LastOf(messages, Tool), k)[i] == Blanked(e, messages, k)[i]
    {
      if messages[i].role.Tool? {
        LastToolHasNoLater(messages, i);
      }
    }
  }

  /**
   * The first pass blanks every reclaimable tool result among the least number
   * of leading messages that makes the window fit, among all of them if none
   * does, and changes nothing else.
   */
  lemma ElidesExactly(e: Estimator, messages: seq<Message>, limit: u64) returns (k: nat)
    ensures k <= |messages|
    ensures ElidePass(e, messages, limit, LastOf(messages, Tool), 0) == Blanked(e, messages, k)
    ensures k < |messages| ==> e.Total(Blanked(e, messages, k)) <= limit
    ensures forall j :: 0 <= j < k ==> e.Total(Blanked(e, messages, j)) > limit
  {
    k := ElidesOldestFirst(e, messages, limit, LastOf(messages, Tool));
    ElidedIsBlanked(e, messages, k);
    forall j | 0 <= j < k ensures e.Total(Blanked(e, messages, j)) > limit {
      ElidedIsBlanked(e, messages, j);
    }
  }

  // ---- Pass 2 ----

  /** As many leading tokens as leave room for the marker, decoded, then the marker; the marker alone if none do. */
  function CutTo(e: Estimator, content: Text, room: nat): Text
    requires room <= e.Count(content)
  {
    var marker := TruncationMarker(|content|);
    var tokens := e.encode(content);
    if |e.encode(marker)| >= room then marker
    else match e.decode(tokens[..room - |e.encode(marker)|])
      case Some(kept) => kept + marker
      case None => marker
  }

  lemma CutsExactly(e: Estimator, content: Text, target: nat)
    requires e.Count(content) > target
    ensures TruncateToTokens(e, content, target) == CutTo(e, content, target)
  {
    Seqs.DropNothing(TruncationMarker(|content|));
  }

  /** A message in a window of cost `total`, cut to the room the rest leaves for its content if that frees bytes. */
  function Cut(e: Estimator, m: Message, total: nat, limit: u64): Message
    requires e.Count(m.content) <= total && limit < total
  {
    if m.role.System? || e.Count(m.content) <= 64 then m
    else
      var others := total - e.Count(m.content);
      var cut := CutTo(e, m.content, if others < limit then limit - others else 0);
      if |cut| < |m.content| then m.(content := cut) else m
  }

  lemma CutIsNotEmpty(e: Estimator, content: Text, room: nat)
    requires room <= e.Count(content)
    ensures CutTo(e, content, room) != []
  {
    assert TruncationMarker(|content|) != [];
  }

  lemma TruncatesExactly(e: Estimator, m: Message, total: nat, limit: u64)
    requires e.MessageTokens(m) <= total && limit < total <= U64_MAX
    ensures Truncated(e, m, total, limit) == Cut(e, m, total, limit)
  {
    e.CostSplit(m);
    if !m.role.System? && e.Count(m.content) > 64 {
      var others := total - e.Count(m.content);
      var room := if others < limit then limit - others else 0;
      assert Allowance(e, m, total, limit) == room;
      CutsExactly(e, m.content, room);
      CutIsNotEmpty(e, m.content, room);
    }
  }

  /** The window with its first `k` messages cut, one after the other. */
  function CutUpTo(e: Estimator, messages: seq<Message>, limit: u64, k: nat): (r: seq<Message>)
    requires k <= |messages|
    ensures |r| == |messages|
  {
    if k == 0 then messages
    else
      var before := CutUpTo(e, messages, limit, k - 1);
      var m, total := before[k - 1], e.Total(before);
      if e.Count(m.content) <= total && limit < total then before[k - 1 := Cut(e, m, total, limit)] else before
  }

  lemma {:induction false} TruncatedIsCut(e: Estimator, messages: seq<Message>, limit: u64, k: nat)
    requires e.Sound() && LengthsFit(messages) && e.Total(messages) <= U64_MAX && k <= |messages|
    requires forall j :: 0 <= j < k ==> e.Total(TruncatedUpTo(e, messages, limit, j)) > limit
    ensures TruncatedUpTo(e, messages, limit, k) == CutUpTo(e, messages, limit, k)
  {
    if k > 0 {
      var before := TruncatedUpTo(e, messages, limit, k - 1);
      TruncatedIsCut(e, messages, limit, k - 1);
      TruncatingNeverGrows(e, messages, limit, k - 1);
      e.TotalUpdate(before, k - 1, before[k - 1]);
      e.CostSplit(before[k - 1]);
      TruncatesExactly(e, before[k - 1], e.Total(before), limit);
    }
  }

  /** The second pass cuts the least number of leading messages that makes the window fit, each to its room. */
  lemma TruncatePassExactly(e: Estimator, messages: seq<Message>, limit: u64) returns (k: nat)
    requires e.Sound() && LengthsFit(messages) && e.Total(messages) <= U64_MAX
    ensures k <= |messages|
    ensures TruncatePass(e, messages, limit, 0) == CutUpTo(e, messages, limit, k)
    ensures k < |messages| ==> e.Total(CutUpTo(e, messages, limit, k)) <= limit
    ensures forall j :: 0 <= j < k ==> e.Total(CutUpTo(e, messages, limit, j)) > limit
  {
    k := TruncatesOldestFirst(e, messages, limit);
    TruncatedIsCut(e, messages, limit, k);
    forall j | 0 <= j < k ensures e.Total(CutUpTo(e, messages, limit, j)) > limit {
      TruncatedIsCut(e, messages, limit, j);
    }
  }

  // ---- All passes ----

  /** `window` is `messages` led by a user turn behind the head, if there is one: the first, at `cut`. */
  ghost predicate LedFrom(messages: seq<Message>, head: nat, cut: nat, window: seq<Message>) {
    && head <= cut <= |messages|
    && (forall j :: head <= j < cut ==> !messages[j].role.User?)
    && if cut < |messages| then messages[cut].role.User? && window == messages[..head] + messages[cut..]
       else window == messages
  }

  /** `k` messages blanked are the least that fit the window, or all there are. */
  ghost predicate LeastBlanked(e: Estimator, window: seq<Message>, limit: u64, k: nat) {
    && k <= |window|
    && (k < |window| ==> e.Total(Blanked(e, window, k)) <= limit)
    && forall j :: 0 <= j < k ==> e.Total(Blanked(e, window, j)) > limit
  }

  ghost predicate LeastCut(e: Estimator, window: seq<Message>, limit: u64, k: nat) {
    && k <= |window|
    && (k < |window| ==> e.Total(CutUpTo(e, window, limit, k)) <= limit)
    && forall j :: 0 <= j < k ==> e.Total(CutUpTo(e, window, limit, j)) > limit
  }

  /** The content passes: normalise the front, blank the least number of messages, cut the least number. */
  lemma ShrunkExactly(e: Estimator, messages: seq<Message>, limit: u64, fixedHead: nat)
    returns (cut: nat, window: seq<Message>, k: nat, n: nat)
    requires e.Sound() && LengthsFit(messages) && e.Total(messages) <= U64_MAX
    ensures LedFrom(messages, Min(fixedHead, |messages|), cut, window)
    ensures LeastBlanked(e, window, limit, k) && LeastCut(e, Blanked(e, window, k), limit, n)
    ensures Shrunk(e, messages, limit, fixedHead) == CutUpTo(e, Blanked(e, window, k), limit, n)
  {
    window := Normalized(messages, fixedHead);
    var head;
    head, cut := NormalizedIsLed(messages, fixedHead);
    k := ElidesExactly(e, window, limit);
    ElidedWindowFits(e, messages, limit, fixedHead);
    n := TruncatePassExactly(e, Blanked(e, window, k), limit);
  }

  /** `shrunk` is what the content passes make of `messages`. */
  ghost predicate ShrinksTo(e: Estimator, messages: seq<Message>, limit: u64, fixedHead: nat, shrunk: seq<Message>) {
    exists cut: nat, window, k: nat, n: nat ::
      && LedFrom(messages, Min(fixedHead, |messages|), cut, window)
      && LeastBlanked(e, window, limit, k) && LeastCut(e, Blanked(e, window, k), limit, n)
      && shrunk == CutUpTo(e, Blanked(e, window, k), limit, n)
  }

  /** `b` leading blocks go, and if that removed anything the front is normalised again, at `cut`. */
  ghost predicate DropsBy(e: Estimator, messages: seq<Message>, limit: u64, fixedHead: nat,
                          b: nat, cut: nat, out: seq<Message>)
  {
    var head := Min(fixedHead, |messages|);
    var left := messages[..head] + DroppedUpTo(messages[head..], b);
    && Suffices(e, messages[..head], messages[head..], limit, b)
    && FewerFail(e, messages[..head], messages[head..], limit, b)
    && if |left| == |messages| then out == messages else LedFrom(left, Min(fixedHead, |left|), cut, out)
  }

  /** `out` is what the drop pass makes of `messages`. */
  ghost predicate DropsTo(e: Estimator, messages: seq<Message>, limit: u64, fixedHead: nat, out: seq<Message>) {
    exists b: nat, cut: nat :: DropsBy(e, messages, limit, fixedHead, b, cut, out)
  }

  /** The drop pass: drop the least number of blocks behind the head, and normalise the front again if any went. */
  lemma DropsExactly(e: Estimator, messages: seq<Message>, limit: u64, fixedHead: nat)
    returns (b: nat, cut: nat)
    ensures DropsBy(e, messages, limit, fixedHead, b, cut, DropPass(e, messages, limit, fixedHead))
  {
    var head := Min(fixedHead, |messages|);
    b := DropsOldestFirst(e, messages[..head], messages[head..], limit);
    var left := messages[..head] + DroppedUpTo(messages[head..], b);
    var clamped;
    clamped, cut := NormalizedIsLed(left, fixedHead);
  }

  /** Enforcement is the drop pass on what the content passes leave. */
  lemma EnforcedExactly(e: Estimator, messages: seq<Message>, limit: u64, fixedHead: nat) returns (shrunk: seq<Message>)
    requires e.Sound() && LengthsFit(messages) && e.Total(messages) <= U64_MAX
    ensures ShrinksTo(e, messages, limit, fixedHead, shrunk)
    ensures DropsTo(e, shrunk, limit, fixedHead, Enforced(e, messages, limit, fixedHead))
  {
    shrunk := Shrunk(e, messages, limit, fixedHead);
    ShrunkShrinks(e, messages, limit, fixedHead);
    DropPassDrops(e, shrunk, limit, fixedHead);
  }

  lemma ShrunkShrinks(e: Estimator, messages: seq<Message>, limit: u64, fixedHead: nat)
    requires e.Sound() && LengthsFit(messages) && e.Total(messages) <= U64_MAX
    ensures ShrinksTo(e, messages, limit, fixedHead, Shrunk(e, messages, limit, fixedHead))
  {
    var cut, window, k, n := ShrunkExactly(e, messages, limit, fixedHead);
  }

  lemma DropPassDrops(e: Estimator, messages: seq<Message>, limit: u64, fixedHead: nat)
    ensures DropsTo(e, messages, limit, fixedHead, DropPass(e, messages, limit, fixedHead))
  {
    var b, cut := DropsExactly(e, messages, limit, fixedHead);
  }

  // ---- What a message costs ----

  /** A call is charged its id, name and arguments. */
  lemma CallIsCharged(e: Estimator, m: Message, call: ToolCall)
    ensures e.MessageTokens(m.(toolCalls := [call] + m.toolCalls))
         == e.MessageTokens(m) + |e.encode(call.id)| + |e.encode(call.name)| + |e.encode(call.arguments)|
  {
    assert ([call] + m.toolCalls)[1..] == m.toolCalls;
  }

  /** A provider block is charged its provider and its rendering, an image its flat price. */
  lemma BlockIsCharged(e: Estimator, m: Message, block: ProviderBlock)
    ensures e.MessageTokens(m.(providerContent := [block] + m.providerContent))
         == e.MessageTokens(m) + |e.encode(block.provider)|
            + if block.isImage then e.imageTokens else |e.encode(block.rendered)|
  {
    assert ([block] + m.providerContent)[1..] == m.providerContent;
  }

  /** A message without calls and blocks is charged its content and the id of the call it answers. */
  lemma BareMessageIsCharged(e: Estimator, m: Message)
    requires m.toolCalls == [] && m.providerContent == []
    ensures e.MessageTokens(m)
         == |e.encode(m.content)| + match m.toolCallId case Some(id) => |e.encode(id)| case None => 0
  {
  }
}
