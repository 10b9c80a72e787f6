/** Compaction by masking: old tool results lose their content, and a window is cut only if that is not enough. */
module ObservationMasking {
  import opened Messages
  import opened Budget
  import opened BudgetBounds
  import opened Exchanges
  import opened SlidingWindow
  import Seqs

  /** Positions of the tool results, in order. */
  function ToolIndices(messages: seq<Message>): seq<nat> {
    if messages == [] then []
    else
      var last := |messages| - 1;
      ToolIndices(messages[..last]) + if messages[last].role.Tool? then [last] else []
  }

  /** Positions of all tool results but the last `keepRecent`. */
  function OldToolIndices(messages: seq<Message>, keepRecent: nat): set<nat> {
    var indices := ToolIndices(messages);
    var cutoff := SaturatingSub(|indices|, keepRecent);
    set i | i in indices[..cutoff]
  }

  function Placeholder(m: Message): Message {
    Message(Tool, ElidedMarker(|m.content|), m.toolCalls, m.toolCallId, m.providerContent)
  }

  function Masked(messages: seq<Message>, keepRecent: nat): (masked: seq<Message>)
    ensures |masked| == |messages|
  {
    var aged := OldToolIndices(messages, keepRecent);
    seq(|messages|, i requires 0 <= i < |messages| => if i in aged then Placeholder(messages[i]) else messages[i])
  }

  function MaskCompacted(e: Estimator, keepRecent: nat, messages: seq<Message>, limit: u64): seq<Message> {
    var masked := Masked(messages, keepRecent);
    if e.Total(masked) <= limit then masked else Compacted(e, 0, masked, limit)
  }

  datatype Strategy = Strategy(keepRecentToolResults: nat, estimator: Estimator) {

    /** Over the limit, masking hands on to what is a sliding window without a pin. */
    method Compact(messages: seq<Message>, limit: u64) returns (result: seq<Message>)
      ensures result == MaskCompacted(estimator, keepRecentToolResults, messages, limit)
      ensures var masked := Masked(messages, keepRecentToolResults);
              if estimator.Total(masked) <= limit then result == masked
              else masked != [] && EnforcesWindow(estimator, 0, masked, limit, result)
    {
      if messages == [] {
        return [];
      }
      var masked := Masked(messages, keepRecentToolResults);
      if estimator.Total(masked) <= limit {
        return masked;
      }
      var system := masked[0].role.System?;
      var remaining: nat := limit;
      var head, rest := [], masked;
      if system {
        remaining := SaturatingSub(remaining, estimator.MessageTokens(masked[0]));
        head, rest := [masked[0]], masked[1..];
      }
      var fixedHead := if system then 1 else 0;
      SystemHead(estimator, masked);
      var start := SlidingWindow.Strategy(0, estimator).WalkBack(rest, remaining);
      start := KeptWindowStart(rest, start);
      var window := new Window(head + rest[start..]);
      window.EnforceTokenBudget(estimator, limit, fixedHead);
      result := window.messages;
      CompactedEnforcesWindow(estimator, 0, masked, limit);
    }
  }

  lemma SystemHead(e: Estimator, messages: seq<Message>)
    requires messages != []
    ensures var end := if messages[0].role.System? then 1 else 0;
            && HeadEnd(messages, 0) == end
            && messages[..end] == (if messages[0].role.System? then [messages[0]] else [])
            && messages[end..] == (if messages[0].role.System? then messages[1..] else messages)
            && e.Total(messages[..end]) == (if messages[0].role.System? then e.MessageTokens(messages[0]) else 0)
  {
    Seqs.DropNothing(messages);
    e.TotalSingle(messages[0]);
  }

  // ---- Which results are masked ----

  function CountTools(messages: seq<Message>): nat {
    if messages == [] then 0
    else (if messages[0].role.Tool? then 1 else 0) + CountTools(messages[1..])
  }

  lemma {:induction false} CountToolsConcat(a: seq<Message>, b: seq<Message>)
    ensures CountTools(a + b) == CountTools(a) + CountTools(b)
  {
    if a == [] {
      Seqs.DropNothing(b);
    } else {
      assert (a + b)[1..] == a[1..] + b;
      CountToolsConcat(a[1..], b);
    }
  }

  lemma {:induction false} ToolIndicesCount(messages: seq<Message>)
    ensures |ToolIndices(messages)| == CountTools(messages)
  {
    if messages != [] {
      var last := |messages| - 1;
      ToolIndicesCount(messages[..last]);
      CountToolsConcat(messages[..last], [messages[last]]);
      assert messages == messages[..last] + [messages[last]];
    }
  }

  lemma {:induction false} AmongIndices(messages: seq<Message>, i: nat)
    ensures i in ToolIndices(messages) <==> i < |messages| && messages[i].role.Tool?
  {
    if messages != [] {
      AmongIndices(messages[..|messages| - 1], i);
    }
  }

  lemma {:induction false} AmongFirstIndices(messages: seq<Message>, cutoff: nat, i: nat)
    requires cutoff <= |ToolIndices(messages)|
    ensures i in ToolIndices(messages)[..cutoff]
       <==> i < |messages| && messages[i].role.Tool? && |ToolIndices(messages[..i])| < cutoff
  {
    if cutoff == |ToolIndices(messages)| {
      AmongAllIndices(messages, i);
    } else {
      var last := |messages| - 1;
      var below := ToolIndices(messages[..last]);
      AmongFirstIndices(messages[..last], cutoff, i);
      assert ToolIndices(messages)[..cutoff] == below[..cutoff];
      if i < last {
        assert messages[..last][..i] == messages[..i];
      }
    }
  }

  lemma AmongAllIndices(messages: seq<Message>, i: nat)
    ensures i in ToolIndices(messages)[..|ToolIndices(messages)|]
       <==> i < |messages| && messages[i].role.Tool? && |ToolIndices(messages[..i])| < |ToolIndices(messages)|
  {
    Seqs.DropNothing(ToolIndices(messages));
    AmongIndices(messages, i);
    if i < |messages| && messages[i].role.Tool? {
      IndicesGrow(messages, i);
    }
  }

  lemma {:induction false} IndicesGrow(messages: seq<Message>, i: nat)
    requires i < |messages| && messages[i].role.Tool?
    ensures |ToolIndices(messages[..i])| < |ToolIndices(messages)|
  {
    ToolIndicesCount(messages);
    ToolIndicesCount(messages[..i]);
    assert messages == messages[..i] + messages[i..];
    CountToolsConcat(messages[..i], messages[i..]);
  }

  /** A tool result is old when at least `keepRecent` more come after it. */
  lemma OldMeansFollowed(messages: seq<Message>, keepRecent: nat, i: nat)
    ensures i in OldToolIndices(messages, keepRecent)
       <==> i < |messages| && messages[i].role.Tool? && CountTools(messages[i + 1..]) >= keepRecent
  {
    var cutoff := SaturatingSub(|ToolIndices(messages)|, keepRecent);
    AmongFirstIndices(messages, cutoff, i);
    if i < |messages| && messages[i].role.Tool? {
      ToolIndicesCount(messages);
      ToolIndicesCount(messages[..i]);
      assert messages == messages[..i] + messages[i..];
      CountToolsConcat(messages[..i], messages[i..]);
    }
  }

  /** Masking rewrites the content of old tool results and nothing else. */
  lemma MaskedExactly(messages: seq<Message>, keepRecent: nat)
    ensures var masked := Masked(messages, keepRecent);
            && SameShapes(messages, masked)
            && forall i :: 0 <= i < |messages| ==>
                 masked[i].content ==
                   if messages[i].role.Tool? && CountTools(messages[i + 1..]) >= keepRecent
                   then ElidedMarker(|messages[i].content|)
                   else messages[i].content
  {
    var masked := Masked(messages, keepRecent);
    forall i | 0 <= i < |messages|
      ensures SameShape(messages[i], masked[i])
      ensures masked[i].content ==
                if messages[i].role.Tool? && CountTools(messages[i + 1..]) >= keepRecent
                then ElidedMarker(|messages[i].content|)
                else messages[i].content
    {
      OldMeansFollowed(messages, keepRecent, i);
    }
  }

  // ---- What the strategy keeps ----

  /** The positions a mask selects. */
  function Positions(keep: seq<bool>): (at: seq<nat>)
    ensures forall k :: 0 <= k < |at| ==> at[k] < |keep| && keep[at[k]]
    ensures forall j, k :: 0 <= j < k < |at| ==> at[j] < at[k]
  {
    if keep == [] then []
    else
      var last := |keep| - 1;
      var below := Positions(keep[..last]);
      assert forall k :: 0 <= k < |below| ==> keep[below[k]] == keep[..last][below[k]];
      below + if keep[last] then [last] else []
  }

  lemma RetainOne(m: Message, bit: bool)
    ensures Retain([m], [bit]) == if bit then [m] else []
  {
    assert [m][1..] == [] && [bit][1..] == [];
  }

  lemma RetainLast(messages: seq<Message>, keep: seq<bool>)
    requires |keep| == |messages| && messages != []
    ensures var last := |messages| - 1;
            Retain(messages, keep) == Retain(messages[..last], keep[..last]) + if keep[last] then [messages[last]] else []
  {
    var last := |messages| - 1;
    Seqs.SplitLast(messages);
    Seqs.SplitLast(keep);
    RetainConcat(messages[..last], [messages[last]], keep[..last], [keep[last]]);
    RetainOne(messages[last], keep[last]);
  }

  lemma {:induction false} RetainAtPositions(messages: seq<Message>, keep: seq<bool>)
    requires |keep| == |messages|
    ensures |Positions(keep)| == |Retain(messages, keep)|
    ensures forall k :: 0 <= k < |Positions(keep)| ==> Retain(messages, keep)[k] == messages[Positions(keep)[k]]
  {
    if messages != [] {
      var last := |messages| - 1;
      RetainAtPositions(messages[..last], keep[..last]);
      RetainLast(messages, keep);
    }
  }

  /** `at` maps the messages of `out` to their strictly increasing places in `messages`. */
  ghost predicate EmbedsAt(messages: seq<Message>, out: seq<Message>, at: seq<nat>) {
    && |at| == |out|
    && (forall k :: 0 <= k < |at| ==> at[k] < |messages| && SameShape(messages[at[k]], out[k]))
    && (forall j, k :: 0 <= j < k < |at| ==> at[j] < at[k])
  }

  lemma SelectsEmbeds(messages: seq<Message>, out: seq<Message>, whole: bool)
    requires Selects(messages, out, whole)
    ensures exists at :: EmbedsAt(messages, out, at)
  {
    var keep :| SelectedBy(messages, out, whole, keep);
    RetainAtPositions(messages, keep);
    assert EmbedsAt(messages, out, Positions(keep));
  }

  lemma MaskCompactedSelects(e: Estimator, keepRecent: nat, messages: seq<Message>, limit: u64, whole: bool)
    requires whole ==> WellFormed(messages)
    ensures Selects(messages, MaskCompacted(e, keepRecent, messages, limit), whole)
  {
    var masked := Masked(messages, keepRecent);
    MaskedExactly(messages, keepRecent);
    EverythingSelects(messages, masked, whole);
    if masked != [] {
      if whole {
        WellFormedShapes(messages, masked);
      }
      CompactedSelects(e, 0, masked, limit, whole);
      SelectsTransitive(messages, masked, Compacted(e, 0, masked, limit), whole);
    }
  }

  lemma EverythingSelects(messages: seq<Message>, out: seq<Message>, whole: bool)
    requires SameShapes(messages, out)
    ensures Selects(messages, out, whole)
  {
    var keep := Uniform(|messages|, true);
    RetainUniform(messages, keep, true);
    assert SelectedBy(messages, out, whole, keep);
  }

  /**
   * On any transcript the output embeds in the input by a strictly increasing
   * map that changes nothing but content; when the masked transcript fits,
   * nothing is removed and only old tool results differ.
   */
  lemma StructurePreserved(e: Estimator, keepRecent: nat, messages: seq<Message>, limit: u64)
    ensures var out := MaskCompacted(e, keepRecent, messages, limit);
            && (exists at :: EmbedsAt(messages, out, at))
            && (e.Total(Masked(messages, keepRecent)) <= limit ==>
                  && SameShapes(messages, out)
                  && forall i :: 0 <= i < |messages| && out[i] != messages[i] ==>
                       messages[i].role.Tool? && CountTools(messages[i + 1..]) >= keepRecent)
  {
    MaskCompactedSelects(e, keepRecent, messages, limit, false);
    SelectsEmbeds(messages, MaskCompacted(e, keepRecent, messages, limit), false);
    MaskedExactly(messages, keepRecent);
  }

  /** Masking splits no exchange either. */
  lemma MaskingKeepsExchanges(e: Estimator, keepRecent: nat, messages: seq<Message>, limit: u64)
    requires WellFormed(messages)
    ensures var out := MaskCompacted(e, keepRecent, messages, limit);
            && WellFormed(out)
            && exists keep :: AllOrNothing(messages, keep) && SameShapes(Retain(messages, keep), out)
  {
    var out := MaskCompacted(e, keepRecent, messages, limit);
    MaskCompactedSelects(e, keepRecent, messages, limit, true);
    SelectsWellFormed(messages, out);
    var keep :| SelectedBy(messages, out, true, keep);
    TiedIsAllOrNothing(messages, keep);
  }

  /** The numeric bound holds of what masking hands on. */
  lemma MaskingBound(e: Estimator, keepRecent: nat, messages: seq<Message>, limit: u64)
    requires e.Sound() && LengthsFit(messages)
    ensures var out := MaskCompacted(e, keepRecent, messages, limit);
            || e.Total(out) <= limit + MAX_TRUNCATION_MARKER
            || (messages != [] &&
                var masked := Masked(messages, keepRecent);
                OnlyResidue(e, SelectedWindow(e, 0, masked, limit), limit, HeadEnd(masked, 0)))
  {
    var masked := Masked(messages, keepRecent);
    MaskedExactly(messages, keepRecent);
    forall i | 0 <= i < |masked| ensures |masked[i].content| <= U64_MAX {
      MarkerLengths(|messages[i].content|);
    }
    CompactedBound(e, 0, masked, limit);
  }
}
