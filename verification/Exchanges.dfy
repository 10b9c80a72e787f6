/**
 * Tool exchanges, and what it means to remove messages without splitting one.
 *
 * A caller and the tool results right behind it belong together: whatever is
 * kept of a transcript keeps all of them or none.
 */
module Exchanges {
  import opened Messages
  import opened Budget
  import opened BudgetBounds
  import Seqs

  /** A tool result stands in a run behind a caller, and only assistants call. */
  predicate Placed(messages: seq<Message>, i: nat)
    requires i < |messages|
  {
    && (messages[i].role.Tool? ==> i > 0 && (messages[i - 1].role.Tool? || messages[i - 1].toolCalls != []))
    && (messages[i].toolCalls != [] ==> messages[i].role.Assistant?)
  }

  ghost predicate WellFormed(messages: seq<Message>) {
    forall i :: 0 <= i < |messages| ==> Placed(messages, i)
  }

  /** No exchange straddles position `i`. */
  predicate IsEdge(messages: seq<Message>, i: nat) {
    i < |messages| ==> !messages[i].role.Tool?
  }

  function ExchangeEnd(messages: seq<Message>, i: nat): nat {
    SkipTools(messages, i + 1)
  }

  /** A tool result is kept exactly when the message before it is. */
  ghost predicate Tied(messages: seq<Message>, keep: seq<bool>) {
    && |keep| == |messages|
    && forall i :: 0 < i < |messages| && messages[i].role.Tool? ==> keep[i] == keep[i - 1]
  }

  /** Every exchange is kept whole or removed whole. */
  ghost predicate AllOrNothing(messages: seq<Message>, keep: seq<bool>) {
    && |keep| == |messages|
    && forall i, r :: 0 <= i <= r < ExchangeEnd(messages, i) && r < |messages| ==> keep[r] == keep[i]
  }

  lemma {:induction false} TiedAlongRun(messages: seq<Message>, keep: seq<bool>, i: nat, r: nat)
    requires Tied(messages, keep)
    requires i <= r < ExchangeEnd(messages, i) && r < |messages|
    ensures keep[r] == keep[i]
  {
    if i < r {
      SkippedAreTools(messages, i + 1, r);
      TiedAlongRun(messages, keep, i, r - 1);
    }
  }

  lemma TiedIsAllOrNothing(messages: seq<Message>, keep: seq<bool>)
    requires Tied(messages, keep)
    ensures AllOrNothing(messages, keep)
  {
    forall i, r | 0 <= i <= r < ExchangeEnd(messages, i) && r < |messages| ensures keep[r] == keep[i] {
      TiedAlongRun(messages, keep, i, r);
    }
  }

  /** `out` is what `keep` selects, in order, with nothing but content rewritten. */
  ghost predicate SelectedBy(messages: seq<Message>, out: seq<Message>, whole: bool, keep: seq<bool>) {
    && |keep| == |messages|
    && (whole ==> Tied(messages, keep))
    && SameShapes(Retain(messages, keep), out)
  }

  /** Some selection gives `out`; if `whole`, one that splits no exchange. */
  ghost predicate Selects(messages: seq<Message>, out: seq<Message>, whole: bool) {
    exists keep :: SelectedBy(messages, out, whole, keep)
  }

  // ---- Masks compose ----

  function Compose(outer: seq<bool>, inner: seq<bool>): (keep: seq<bool>)
    ensures |keep| == |outer|
  {
    if outer == [] then []
    else if outer[0] && inner != [] then [inner[0]] + Compose(outer[1..], inner[1..])
    else [false] + Compose(outer[1..], inner)
  }

  lemma {:induction false} RetainCompose(messages: seq<Message>, outer: seq<bool>, inner: seq<bool>)
    requires |outer| == |messages| && |inner| == |Retain(messages, outer)|
    ensures Retain(messages, Compose(outer, inner)) == Retain(Retain(messages, outer), inner)
  {
    if messages != [] {
      var below := Retain(messages[1..], outer[1..]);
      Seqs.DropNothing(below);
      if outer[0] {
        assert Retain(messages, outer)[1..] == below;
        RetainCompose(messages[1..], outer[1..], inner[1..]);
      } else {
        RetainCompose(messages[1..], outer[1..], inner);
      }
    }
  }

  lemma TiedTail(messages: seq<Message>, keep: seq<bool>)
    requires messages != [] && Tied(messages, keep)
    ensures Tied(messages[1..], keep[1..])
  {
    forall i | 0 < i < |messages[1..]| && messages[1..][i].role.Tool? ensures keep[1..][i] == keep[1..][i - 1] {
      assert messages[i + 1].role.Tool?;
    }
  }

  lemma TiedCons(messages: seq<Message>, keep: seq<bool>)
    requires messages != [] && |keep| == |messages| && Tied(messages[1..], keep[1..])
    requires |messages| > 1 && messages[1].role.Tool? ==> keep[1] == keep[0]
    ensures Tied(messages, keep)
  {
    forall i | 0 < i < |messages| && messages[i].role.Tool? ensures keep[i] == keep[i - 1] {
      if i > 1 {
        assert messages[1..][i - 1].role.Tool?;
        assert keep[1..][i - 1] == keep[1..][i - 2];
      }
    }
  }

  lemma {:induction false} TiedCompose(messages: seq<Message>, outer: seq<bool>, inner: seq<bool>)
    requires Tied(messages, outer) && Tied(Retain(messages, outer), inner)
    ensures Tied(messages, Compose(outer, inner))
  {
    if messages != [] {
      var below := Retain(messages[1..], outer[1..]);
      var composed := Compose(outer, inner);
      TiedTail(messages, outer);
      Seqs.DropNothing(below);
      if outer[0] {
        assert Retain(messages, outer) == [messages[0]] + below;
        assert Retain(messages, outer)[1..] == below;
        TiedTail(Retain(messages, outer), inner);
        TiedCompose(messages[1..], outer[1..], inner[1..]);
        assert composed[1..] == Compose(outer[1..], inner[1..]);
        if |messages| > 1 && messages[1].role.Tool? {
          assert outer[1..][0];
          assert below[0] == messages[1] == Retain(messages, outer)[1];
        }
      } else {
        assert Retain(messages, outer) == below;
        TiedCompose(messages[1..], outer[1..], inner);
        assert composed[1..] == Compose(outer[1..], inner);
        if |messages| > 1 && messages[1].role.Tool? {
          assert !outer[1..][0];
        }
      }
      TiedCons(messages, composed);
    }
  }

  lemma {:induction false} RetainShapes(a: seq<Message>, b: seq<Message>, keep: seq<bool>)
    requires SameShapes(a, b) && |keep| == |a|
    ensures SameShapes(Retain(a, keep), Retain(b, keep))
  {
    if a != [] {
      RetainShapes(a[1..], b[1..], keep[1..]);
    }
  }

  lemma SelectsTransitive(a: seq<Message>, b: seq<Message>, c: seq<Message>, whole: bool)
    requires Selects(a, b, whole) && Selects(b, c, whole)
    ensures Selects(a, c, whole)
  {
    var outer :| SelectedBy(a, b, whole, outer);
    var inner :| SelectedBy(b, c, whole, inner);
    var kept := Retain(a, outer);
    RetainShapes(kept, b, inner);
    RetainCompose(a, outer, inner);
    if whole {
      assert Tied(kept, inner);
      TiedCompose(a, outer, inner);
    }
    assert SelectedBy(a, c, whole, Compose(outer, inner));
  }

  lemma SelectsRewrite(a: seq<Message>, b: seq<Message>, c: seq<Message>, whole: bool)
    requires Selects(a, b, whole) && SameShapes(b, c)
    ensures Selects(a, c, whole)
  {
    var keep :| SelectedBy(a, b, whole, keep);
    assert SelectedBy(a, c, whole, keep);
  }

  // ---- Removing exchanges keeps a transcript well-formed ----

  lemma WellFormedShapes(a: seq<Message>, b: seq<Message>)
    requires SameShapes(a, b) && WellFormed(a)
    ensures WellFormed(b)
  {
    forall i | 0 <= i < |b| ensures Placed(b, i) {
      assert Placed(a, i);
    }
  }

  /** A suffix that starts on an edge is a transcript of its own. */
  lemma WellFormedSuffix(messages: seq<Message>, i: nat)
    requires WellFormed(messages) && i <= |messages| && IsEdge(messages, i)
    ensures WellFormed(messages[i..])
  {
    forall k | 0 <= k < |messages[i..]| ensures Placed(messages[i..], k) {
      assert Placed(messages, i + k);
    }
  }

  lemma {:induction false} FirstKeptIsNoResult(messages: seq<Message>, keep: seq<bool>)
    requires Tied(messages, keep)
    requires messages != [] && messages[0].role.Tool? ==> !keep[0]
    ensures IsEdge(Retain(messages, keep), 0)
  {
    if messages != [] && !keep[0] {
      TiedTail(messages, keep);
      FirstKeptIsNoResult(messages[1..], keep[1..]);
    }
  }

  /** Each message but the first of `messages` may stand where it does. */
  ghost predicate Chained(messages: seq<Message>) {
    forall i :: 0 < i < |messages| ==> Placed(messages, i)
  }

  lemma {:induction false} RetainChained(messages: seq<Message>, keep: seq<bool>)
    requires Tied(messages, keep) && Chained(messages)
    ensures Chained(Retain(messages, keep))
  {
    if messages != [] {
      var below, kept := Retain(messages[1..], keep[1..]), Retain(messages, keep);
      TiedTail(messages, keep);
      forall i | 0 < i < |messages[1..]| ensures Placed(messages[1..], i) {
        assert Placed(messages, i + 1);
      }
      RetainChained(messages[1..], keep[1..]);
      Seqs.DropNothing(below);
      if keep[0] && |below| > 0 {
        forall i | 0 < i < |kept| ensures Placed(kept, i) {
          if i > 1 {
            assert Placed(below, i - 1);
          } else if keep[1] {
            assert below[0] == messages[1..][0];
            assert Placed(messages, 1);
          } else {
            FirstKeptIsNoResult(messages[1..], keep[1..]);
            RetainedCallers(messages, keep, below[0]);
          }
        }
      }
    }
  }

  lemma {:induction false} RetainedCome(messages: seq<Message>, keep: seq<bool>, m: Message)
    requires |keep| == |messages| && m in Retain(messages, keep)
    ensures m in messages
  {
    if !(keep[0] && m == messages[0]) {
      RetainedCome(messages[1..], keep[1..], m);
    }
  }

  lemma RetainedCallers(messages: seq<Message>, keep: seq<bool>, m: Message)
    requires messages != [] && |keep| == |messages| && Chained(messages)
    requires m in Retain(messages[1..], keep[1..])
    ensures m.toolCalls != [] ==> m.role.Assistant?
  {
    RetainedCome(messages[1..], keep[1..], m);
    var i :| 0 <= i < |messages[1..]| && messages[1..][i] == m;
    assert Placed(messages, i + 1);
  }

  lemma SelectsWellFormed(messages: seq<Message>, out: seq<Message>)
    requires WellFormed(messages) && Selects(messages, out, true)
    ensures WellFormed(out)
  {
    var keep :| SelectedBy(messages, out, true, keep);
    var kept := Retain(messages, keep);
    if messages != [] {
      assert Placed(messages, 0);
    }
    RetainChained(messages, keep);
    FirstKeptIsNoResult(messages, keep);
    forall i | 0 <= i < |kept| ensures Placed(kept, i) {
      if i == 0 {
        RetainedCome(messages, keep, kept[0]);
        var j :| 0 <= j < |messages| && messages[j] == kept[0];
        assert Placed(messages, j);
      }
    }
    WellFormedShapes(kept, out);
  }

  // ---- The passes remove exchanges whole ----

  lemma TiedConcat(a: seq<Message>, b: seq<Message>, ka: seq<bool>, kb: seq<bool>)
    requires Tied(a, ka) && Tied(b, kb) && IsEdge(b, 0)
    ensures Tied(a + b, ka + kb)
  {
    forall i | 0 < i < |a + b| && (a + b)[i].role.Tool? ensures (ka + kb)[i] == (ka + kb)[i - 1] {
      if i < |a| {
        assert a[i].role.Tool?;
      } else {
        assert b[i - |a|].role.Tool?;
      }
    }
  }

  function Uniform(n: nat, bit: bool): (keep: seq<bool>)
    ensures |keep| == n && forall i :: 0 <= i < n ==> keep[i] == bit
  {
    seq(n, _ => bit)
  }

  lemma RetainPrefixed(a: seq<Message>, b: seq<Message>, bit: bool, kb: seq<bool>, whole: bool)
    requires |kb| == |b| && (whole ==> Tied(b, kb) && IsEdge(b, 0))
    ensures whole ==> Tied(a + b, Uniform(|a|, bit) + kb)
    ensures Retain(a + b, Uniform(|a|, bit) + kb) == (if bit then a else []) + Retain(b, kb)
  {
    if whole {
      TiedConcat(a, b, Uniform(|a|, bit), kb);
    }
    RetainConcat(a, b, Uniform(|a|, bit), kb);
    RetainUniform(a, Uniform(|a|, bit), bit);
  }

  lemma SelectsMiddleCut(a: seq<Message>, b: seq<Message>, c: seq<Message>, whole: bool)
    requires whole ==> IsEdge(b + c, 0) && IsEdge(c, 0)
    ensures Selects(a + (b + c), a + c, whole)
  {
    RetainUniform(c, Uniform(|c|, true), true);
    RetainPrefixed(b, c, false, Uniform(|c|, true), whole);
    Seqs.DropNothing(c);
    var keep := Uniform(|b|, false) + Uniform(|c|, true);
    RetainPrefixed(a, b + c, true, keep, whole);
    assert SelectedBy(a + (b + c), a + c, whole, Uniform(|a|, true) + keep);
  }

  lemma SelectsCut(messages: seq<Message>, head: nat, cut: nat, whole: bool)
    requires head <= cut <= |messages|
    requires whole ==> IsEdge(messages, head) && IsEdge(messages, cut)
    ensures Selects(messages, messages[..head] + messages[cut..], whole)
  {
    var b, c := messages[head..cut], messages[cut..];
    assert b + c == messages[head..];
    assert messages == messages[..head] + (b + c);
    SelectsMiddleCut(messages[..head], b, c, whole);
  }

  lemma SelectsAll(messages: seq<Message>, whole: bool)
    ensures Selects(messages, messages, whole)
  {
    RetainUniform(messages, Uniform(|messages|, true), true);
    assert SelectedBy(messages, messages, whole, Uniform(|messages|, true));
  }

  lemma SelectsFromUser(messages: seq<Message>, head: nat, cut: nat, whole: bool)
    requires head <= cut < |messages| && messages[cut].role.User? && (whole ==> IsEdge(messages, head))
    ensures var out := messages[..head] + messages[cut..];
            Selects(messages, out, whole) && head <= |out| && (whole ==> IsEdge(out, head))
  {
    SelectsCut(messages, head, cut, whole);
  }

  lemma NormalizedSelects(messages: seq<Message>, head: nat, whole: bool)
    requires head <= |messages| && (whole ==> IsEdge(messages, head))
    ensures Selects(messages, Normalized(messages, head), whole)
    ensures head <= |Normalized(messages, head)| && (whole ==> IsEdge(Normalized(messages, head), head))
  {
    var found := FirstOf(messages[head..], User);
    if found.Some? {
      var cut := head + found.value;
      assert messages[head..][found.value] == messages[cut];
      assert Normalized(messages, head) == messages[..head] + messages[cut..];
      SelectsFromUser(messages, head, cut, whole);
    } else {
      assert Normalized(messages, head) == messages;
      SelectsAll(messages, whole);
    }
  }

  lemma BlockEndsOnEdge(rest: seq<Message>)
    requires rest != [] && WellFormed(rest)
    ensures IsEdge(rest, BlockLength(rest))
  {
    if |rest| > 1 {
      assert Placed(rest, 1) && Placed(rest, 0);
    }
  }

  lemma {:induction false} DropOldestMask(e: Estimator, kept: seq<Message>, rest: seq<Message>, limit: u64, whole: bool)
    returns (keep: seq<bool>)
    requires whole ==> WellFormed(rest)
    ensures |keep| == |rest| && (whole ==> Tied(rest, keep))
    ensures DropOldest(e, kept, rest, limit) == kept + Retain(rest, keep)
    decreases |rest|
  {
    if rest == [] || e.Total(kept + rest) <= limit || BlockLength(rest) == |rest| {
      keep := Uniform(|rest|, true);
      RetainUniform(rest, keep, true);
    } else {
      var n := BlockLength(rest);
      var block, tail := rest[..n], rest[n..];
      var held := HoldsLastUser(rest, n);
      if whole {
        BlockEndsOnEdge(rest);
        WellFormedSuffix(rest, n);
      }
      var inner := DropOldestMask(e, if held then kept + block else kept, tail, limit, whole);
      RetainPrefixed(block, tail, held, inner, whole);
      keep := Uniform(n, held) + inner;
      assert rest == block + tail;
      Seqs.ConcatAssociative(kept, if held then block else [], Retain(tail, inner));
      Seqs.DropNothing(kept);
    }
  }

  /** Behind a head that ends on an edge, whatever a tied mask keeps starts on an edge. */
  lemma HeadThenMask(messages: seq<Message>, head: nat, keep: seq<bool>, left: seq<Message>, whole: bool)
    requires head <= |messages| && |keep| == |messages| - head
    requires whole ==> WellFormed(messages) && IsEdge(messages, head) && Tied(messages[head..], keep)
    requires left == messages[..head] + Retain(messages[head..], keep)
    ensures Selects(messages, left, whole) && (whole ==> IsEdge(left, head))
  {
    RetainPrefixed(messages[..head], messages[head..], true, keep, whole);
    Seqs.Rejoin(messages, head);
    if whole {
      WellFormedSuffix(messages, head);
      FirstKeptIsNoResult(messages[head..], keep);
    }
    assert SelectedBy(messages, left, whole, Uniform(head, true) + keep);
  }

  lemma DropOldestSelects(e: Estimator, messages: seq<Message>, head: nat, limit: u64, whole: bool)
    requires head <= |messages| && (whole ==> WellFormed(messages) && IsEdge(messages, head))
    ensures var left := DropOldest(e, messages[..head], messages[head..], limit);
            Selects(messages, left, whole) && head <= |left| && (whole ==> IsEdge(left, head))
  {
    if whole {
      WellFormedSuffix(messages, head);
    }
    var keep := DropOldestMask(e, messages[..head], messages[head..], limit, whole);
    HeadThenMask(messages, head, keep, DropOldest(e, messages[..head], messages[head..], limit), whole);
  }

  /**
   * Enforcing a budget only removes messages and rewrites content; behind a
   * head that ends on an edge it splits no exchange.
   */
  lemma EnforcedSelects(e: Estimator, messages: seq<Message>, limit: u64, head: nat, whole: bool)
    requires head <= |messages| && (whole ==> WellFormed(messages) && IsEdge(messages, head))
    ensures Selects(messages, Enforced(e, messages, limit, head), whole)
    ensures whole ==> IsEdge(Enforced(e, messages, limit, head), head)
  {
    var window, shrunk := Normalized(messages, head), Shrunk(e, messages, limit, head);
    NormalizedSelects(messages, head, whole);
    ShrunkShape(e, messages, limit, head);
    SelectsRewrite(messages, window, shrunk, whole);
    if whole {
      SelectsWellFormed(messages, shrunk);
    }
    DropOldestSelects(e, shrunk, head, limit, whole);
    var left := DropOldest(e, shrunk[..head], shrunk[head..], limit);
    NormalizedSelects(left, head, whole);
    SelectsTransitive(messages, shrunk, left, whole);
    SelectsTransitive(messages, left, Normalized(left, head), whole);
  }
}
