/** Splitting a text into overlapping windows of whitespace-separated tokens. */
module FixedTokenChunker {
  import opened Chunks
  import opened Messages
  import Arithmetic
  import Seqs

  // ---- Tokens ----

  /** A token as the characters it covers. */
  datatype Token = Token(start: nat, end: nat)

  /** A token as the bytes it covers. */
  datatype TokenSpan = TokenSpan(byteStart: nat, byteEnd: nat)

  predicate Inside(source: string, k: nat, tokens: seq<Token>) {
    forall i :: 0 <= i < |tokens| ==> k <= tokens[i].start < tokens[i].end <= |source|
  }

  /** The parts of the string library a chunker relies on. */
  datatype Unicode = Unicode(
    isWhitespace: char -> bool,
    encode: char -> Text,
    decode: Text -> Option<string>)
  {
    /** A character takes bytes, and what decodes is the encoding of what it decodes to. */
    ghost predicate Sound() {
      && (forall c :: encode(c) != [])
      && (forall content :: decode(content).Some? ==> Utf8(decode(content).value) == content)
    }

    // ---- The bytes of a text ----

    function Utf8(source: string): Text {
      if source == [] then []
      else Utf8(source[..|source| - 1]) + encode(source[|source| - 1])
    }

    /** Where character `k` begins, in bytes. */
    function Offset(source: string, k: nat): nat
      requires k <= |source|
    {
      |Utf8(source[..k])|
    }

    lemma OffsetStep(source: string, k: nat)
      requires k < |source|
      ensures Offset(source, k + 1) == Offset(source, k) + |encode(source[k])|
    {
      assert source[..k + 1][..k] == source[..k];
    }

    lemma OffsetEnds(source: string)
      ensures Offset(source, 0) == 0 && Offset(source, |source|) == |Utf8(source)|
    {
      Seqs.DropNothing(source);
    }

    /** Characters occupy at least a byte each, so offsets grow with positions. */
    lemma {:induction false} OffsetGrows(source: string, j: nat, k: nat)
      requires Sound() && j <= k <= |source|
      ensures Offset(source, j) + (k - j) <= Offset(source, k)
    {
      if j < k {
        OffsetGrows(source, j, k - 1);
        OffsetStep(source, k - 1);
      }
    }

    lemma {:induction false} Utf8Concat(a: string, b: string)
      ensures Utf8(a + b) == Utf8(a) + Utf8(b)
    {
      if b == [] {
        Seqs.DropNothing(a);
        Seqs.DropNothing(Utf8(a));
      } else {
        var init, last := b[..|b| - 1], b[|b| - 1];
        assert (a + b)[..|a + b| - 1] == a + init;
        Utf8Concat(a, init);
        Seqs.ConcatAssociative(Utf8(a), Utf8(init), encode(last));
      }
    }

    /** Cutting the bytes at character offsets cuts the text between characters. */
    lemma SliceIsText(source: string, a: nat, b: nat)
      requires a <= b <= |source|
      ensures Offset(source, a) <= Offset(source, b) <= |Utf8(source)|
      ensures Utf8(source)[Offset(source, a)..Offset(source, b)] == Utf8(source[a..b])
    {
      assert source[..b] == source[..a] + source[a..b];
      assert source == source[..b] + source[b..];
      Utf8Concat(source[..a], source[a..b]);
      Utf8Concat(source[..b], source[b..]);
    }

    // ---- Tokenizing ----

    function SkipWhitespace(source: string, k: nat): (p: nat)
      requires k <= |source|
      ensures k <= p <= |source|
      ensures forall j :: k <= j < p ==> isWhitespace(source[j])
      ensures p < |source| ==> !isWhitespace(source[p])
      decreases |source| - k
    {
      if k < |source| && isWhitespace(source[k]) then SkipWhitespace(source, k + 1) else k
    }

    function SkipToken(source: string, k: nat): (p: nat)
      requires k <= |source|
      ensures k <= p <= |source|
      ensures forall j :: k <= j < p ==> !isWhitespace(source[j])
      ensures p < |source| ==> isWhitespace(source[p])
      decreases |source| - k
    {
      if k < |source| && !isWhitespace(source[k]) then SkipToken(source, k + 1) else k
    }

    /** The tokens at or after position `k`. */
    function Tokens(source: string, k: nat): (tokens: seq<Token>)
      requires k <= |source|
      ensures Inside(source, k, tokens) && |tokens| <= |source| - k
      decreases |source| - k
    {
      var start := SkipWhitespace(source, k);
      if start == |source| then [] else
        var end := SkipToken(source, start);
        [Token(start, end)] + Tokens(source, end)
    }

    /** The bytes of the tokens at or after position `k`. */
    function Spans(source: string, k: nat): seq<TokenSpan>
      requires k <= |source|
      decreases |source| - k
    {
      var start := SkipWhitespace(source, k);
      if start == |source| then [] else
        var end := SkipToken(source, start);
        [TokenSpan(Offset(source, start), Offset(source, end))] + Spans(source, end)
    }

    lemma {:induction false} SpansOfTokens(source: string, k: nat)
      requires k <= |source|
      ensures |Spans(source, k)| == |Tokens(source, k)|
      ensures forall i :: 0 <= i < |Tokens(source, k)| ==>
                var t := Tokens(source, k)[i];
                Spans(source, k)[i] == TokenSpan(Offset(source, t.start), Offset(source, t.end))
      decreases |source| - k
    {
      var start := SkipWhitespace(source, k);
      if start < |source| {
        SpansOfTokens(source, SkipToken(source, start));
      }
    }

    /** A run of non-whitespace that cannot be extended at either side. */
    ghost predicate IsRun(source: string, t: Token) {
      && t.start < t.end <= |source|
      && (forall j :: t.start <= j < t.end ==> !isWhitespace(source[j]))
      && (t.start > 0 ==> isWhitespace(source[t.start - 1]))
      && (t.end < |source| ==> isWhitespace(source[t.end]))
    }

    /** Position `k` does not fall inside a token. */
    ghost predicate BetweenTokens(source: string, k: nat) {
      0 < k < |source| ==> isWhitespace(source[k]) || isWhitespace(source[k - 1])
    }

    /** The first token at or after `k` is the one run that starts before its end. */
    lemma FirstRun(source: string, k: nat, t: Token)
      requires k <= |source| && BetweenTokens(source, k)
      requires t.start == SkipWhitespace(source, k) < |source|
      requires t.end == SkipToken(source, t.start)
      ensures IsRun(source, t) && BetweenTokens(source, t.end)
      ensures forall other :: IsRun(source, other) && k <= other.start < t.end ==> other == t
    {
      forall other | IsRun(source, other) && k <= other.start < t.end ensures other == t {
        assert !isWhitespace(source[other.start]);
        assert other.start == t.start;
        assert other.end == t.end;
      }
    }

    /** The tokens are exactly the maximal runs, and come in order. */
    lemma {:induction false} TokensAreRuns(source: string, k: nat)
      requires k <= |source| && BetweenTokens(source, k)
      ensures forall t :: t in Tokens(source, k) <==> k <= t.start && IsRun(source, t)
      ensures forall i, j :: 0 <= i < j < |Tokens(source, k)|
                ==> Tokens(source, k)[i].end < Tokens(source, k)[j].start
      decreases |source| - k
    {
      var start := SkipWhitespace(source, k);
      if start < |source| {
        var first := Token(start, SkipToken(source, start));
        var rest := Tokens(source, first.end);
        FirstRun(source, k, first);
        TokensAreRuns(source, first.end);
        AddFirst(source, k, first, rest);
        assert Tokens(source, k) == [first] + rest;
      } else {
        forall t: Token | k <= t.start ensures !IsRun(source, t) {
          assert t.start < |source| ==> isWhitespace(source[t.start]);
        }
      }
    }

    lemma AddFirst(source: string, k: nat, first: Token, rest: seq<Token>)
      requires k <= first.start && IsRun(source, first)
      requires forall t :: IsRun(source, t) && k <= t.start < first.end ==> t == first
      requires forall t :: t in rest <==> first.end <= t.start && IsRun(source, t)
      requires forall i, j :: 0 <= i < j < |rest| ==> rest[i].end < rest[j].start
      ensures forall t :: t in [first] + rest <==> k <= t.start && IsRun(source, t)
      ensures var all := [first] + rest; forall i, j :: 0 <= i < j < |all| ==> all[i].end < all[j].start
    {
      forall t ensures t in [first] + rest <==> k <= t.start && IsRun(source, t) {
        assert t in [first] + rest <==> t == first || t in rest;
      }
      forall j | 0 <= j < |rest| ensures first.end < rest[j].start {
        assert rest[j] in rest;
        assert IsRun(source, rest[j]);
        assert !isWhitespace(source[rest[j].start]);
      }
    }

    /** Characters of `rest` before the next token, and their bytes. */
    method FindStart(rest: string, ghost source: string, ghost at: nat) returns (n: nat, off: nat)
      requires at <= |source| && rest == source[at..]
      ensures at + n == SkipWhitespace(source, at)
      ensures Offset(source, at) + off == Offset(source, at + n)
    {
      n, off := 0, 0;
      while n < |rest| && isWhitespace(rest[n])
        invariant n <= |rest| && Offset(source, at) + off == Offset(source, at + n)
        invariant SkipWhitespace(source, at) == SkipWhitespace(source, at + n)
      {
        OffsetStep(source, at + n);
        n, off := n + 1, off + |encode(rest[n])|;
      }
    }

    /** Characters of `rest` up to the end of the token at `from`, and their bytes. */
    method FindEnd(rest: string, from: nat, fromOff: nat, ghost source: string, ghost at: nat)
      returns (n: nat, off: nat)
      requires at <= |source| && rest == source[at..]
      requires from < |rest| && !isWhitespace(rest[from])
      requires Offset(source, at) + fromOff == Offset(source, at + from)
      ensures from < n <= |rest| && at + n == SkipToken(source, at + from)
      ensures Offset(source, at) + off == Offset(source, at + n)
    {
      OffsetStep(source, at + from);
      n, off := from + 1, fromOff + |encode(rest[from])|;
      while n < |rest| && !isWhitespace(rest[n])
        invariant from < n <= |rest| && Offset(source, at) + off == Offset(source, at + n)
        invariant SkipToken(source, at + from) == SkipToken(source, at + n)
      {
        assert rest[n] == source[at + n];
        OffsetStep(source, at + n);
        n, off := n + 1, off + |encode(rest[n])|;
      }
    }

    /** The tokens before position `at` are done with; `i` is its byte. */
    ghost predicate Scanned(source: string, at: nat, i: nat, spans: seq<TokenSpan>) {
      && at <= |source| && i == Offset(source, at)
      && Spans(source, 0) == spans + Spans(source, at)
    }

    lemma ScanStart(source: string)
      ensures Scanned(source, 0, 0, [])
    {
      OffsetEnds(source);
      Seqs.DropNothing(source);
      Seqs.DropNothing(Spans(source, 0));
    }

    lemma SpansStep(source: string, at: nat, end: nat, before: seq<TokenSpan>, span: TokenSpan)
      requires at <= |source| && SkipWhitespace(source, at) < |source|
      requires end == SkipToken(source, SkipWhitespace(source, at))
      requires span == TokenSpan(Offset(source, SkipWhitespace(source, at)), Offset(source, end))
      ensures before + Spans(source, at) == (before + [span]) + Spans(source, end)
    {
      var later := Spans(source, end);
      assert Spans(source, at) == [span] + later;
      Seqs.ConcatAssociative(before, [span], later);
    }

    lemma ScanToken(source: string, at: nat, i: nat, spans: seq<TokenSpan>,
                    n: nat, startRel: nat, m: nat, endRel: nat)
      requires Scanned(source, at, i, spans)
      requires at + n == SkipWhitespace(source, at) < |source| && at + m == SkipToken(source, at + n)
      requires Offset(source, at) + startRel == Offset(source, at + n)
      requires Offset(source, at) + endRel == Offset(source, at + m)
      ensures Scanned(source, at + m, i + endRel, spans + [TokenSpan(i + startRel, i + endRel)])
    {
      SpansStep(source, at, at + m, spans, TokenSpan(i + startRel, i + endRel));
    }

    lemma ScanEnd(source: string, at: nat, i: nat, spans: seq<TokenSpan>)
      requires Scanned(source, at, i, spans)
      requires SkipWhitespace(source, at) == |source|
      ensures spans == Spans(source, 0)
    {
      Seqs.DropNothing(spans);
    }

    /** `rest` is the text still to scan and `i` the byte it begins at. */
    method TokenizeWithSpans(source: string) returns (spans: seq<TokenSpan>)
      requires Sound()
      ensures spans == Spans(source, 0)
    {
      spans := [];
      var rest, i: nat, len := source, 0, |Utf8(source)|;
      ghost var at := 0;
      ScanStart(source);
      OffsetEnds(source);
      while i < len
        invariant Scanned(source, at, i, spans) && rest == source[at..]
        decreases |rest|
      {
        var n, startRel := FindStart(rest, source, at);
        if n == |rest| {
          ScanEnd(source, at, i, spans);
          return;
        }
        var m, endRel := FindEnd(rest, n, startRel, source, at);
        ScanToken(source, at, i, spans, n, startRel, m, endRel);
        Seqs.DropMore(source, at, m);
        spans := spans + [TokenSpan(i + startRel, i + endRel)];
        i, rest, at := i + endRel, rest[m..], at + m;
      }
      OffsetGrows(source, at, |source|);
      ScanEnd(source, at, i, spans);
    }

    // ---- Passages ----

    lemma TokensInOrder(source: string, first: nat, last: nat)
      requires first <= last < |Tokens(source, 0)|
      ensures Tokens(source, 0)[first].start < Tokens(source, 0)[last].end
    {
      TokensAreRuns(source, 0);
    }

    /** The text from token `first` to token `last`, with the bytes it covers. */
    ghost predicate IsPassage(source: string, chunk: Chunk, first: int, last: int) {
      var tokens := Tokens(source, 0);
      && 0 <= first <= last < |tokens|
      && var start, end := tokens[first].start, tokens[last].end;
      && start < end
      && chunk.byteStart == Offset(source, start) && chunk.byteEnd == Offset(source, end)
      && chunk.text == Utf8(source[start..end])
    }

    lemma CutPassage(source: string, content: Text, spans: seq<TokenSpan>, index: nat, first: nat, last: nat)
      requires content == Utf8(source) && spans == Spans(source, 0)
      requires first <= last < |Tokens(source, 0)|
      ensures last < |spans| && spans[first].byteStart <= spans[last].byteEnd <= |content|
      ensures var start, end := spans[first].byteStart, spans[last].byteEnd;
              IsPassage(source, Chunk(index, start, end, content[start..end]), first, last)
    {
      var tokens := Tokens(source, 0);
      SpansOfTokens(source, 0);
      TokensInOrder(source, first, last);
      SliceIsText(source, tokens[first].start, tokens[last].end);
    }

    lemma TokensNest(source: string, first: nat, i: nat, last: nat)
      requires first <= i <= last < |Tokens(source, 0)|
      ensures var tokens := Tokens(source, 0);
              && tokens[first].start <= tokens[i].start <= |source|
              && tokens[i].end <= tokens[last].end <= |source|
    {
      TokensAreRuns(source, 0);
    }

    lemma PassageCovers(source: string, chunk: Chunk, first: nat, last: nat, i: nat)
      requires Sound() && IsPassage(source, chunk, first, last) && first <= i <= last
      ensures i < |Spans(source, 0)|
      ensures chunk.byteStart <= Spans(source, 0)[i].byteStart
      ensures Spans(source, 0)[i].byteEnd <= chunk.byteEnd
    {
      var tokens := Tokens(source, 0);
      SpansOfTokens(source, 0);
      TokensNest(source, first, i, last);
      OffsetGrows(source, tokens[first].start, tokens[i].start);
      OffsetGrows(source, tokens[i].end, tokens[last].end);
    }
  }

  // ---- Windows ----

  /** Windows of `window` tokens, one starting every `step` tokens. */
  datatype Layout = Layout(window: u64, step: u64) {

    predicate Valid() {
      0 < step <= window
    }

    /** Window `k` holds the tokens from `First(k)` up to `End(k, n)` of `n`. */
    function First(k: nat): nat
      requires Valid()
    {
      k * step
    }

    function End(k: nat, n: nat): nat
      requires Valid()
    {
      Min(First(k) + window, n)
    }

    /** One window, and one more for each step, begun or whole, of the tokens beyond it. */
    function Count(n: nat): nat
      requires Valid()
    {
      if n == 0 then 0
      else if n <= window then 1
      else 1 + (n - window + step - 1) / step
    }

    lemma FirstWindow(n: nat)
      requires Valid()
      ensures First(0) == 0 && (n > 0 ==> Count(n) > 0)
    {
    }

    lemma FirstStep(k: nat)
      requires Valid()
      ensures First(k + 1) == First(k) + step
    {
    }

    lemma {:induction false} FirstGrows(j: nat, k: nat)
      requires Valid() && j <= k
      ensures First(j) <= First(k)
    {
      if j < k {
        FirstGrows(j, k - 1);
        FirstStep(k - 1);
      }
    }

    /** The last window to begin at or before token `a`. */
    lemma Quotient(a: nat)
      requires Valid()
      ensures First(a / step) <= a < First(a / step) + step
    {
    }

    lemma LastWindow(n: nat)
      requires Valid() && n > window
      ensures Count(n) >= 2
      ensures First(Count(n) - 2) + window < n <= First(Count(n) - 1) + window
    {
      Quotient(n - window + step - 1);
      assert Count(n) - 1 == (n - window + step - 1) / step;
      assert First(0) == 0;
      FirstStep(Count(n) - 2);
    }

    /** Each window begins inside the text, and all but the last end before its end. */
    lemma WindowsFit(n: nat, k: nat)
      requires Valid() && k < Count(n)
      ensures First(k) < n
      ensures k + 1 == Count(n) <==> n <= First(k) + window
    {
      if n <= window {
        FirstWindow(n);
      } else {
        LastWindow(n);
        if k + 1 < Count(n) {
          FirstGrows(k, Count(n) - 2);
        } else {
          FirstStep(Count(n) - 2);
        }
      }
    }

    lemma NextWindow(n: nat, k: nat)
      requires Valid() && k < Count(n)
      ensures First(k) < End(k, n) <= n
      ensures if End(k, n) == n then k + 1 == Count(n)
              else k + 1 < Count(n) && First(k) + step == First(k + 1) < n
    {
      WindowsFit(n, k);
      FirstStep(k);
    }

    /** Neighbouring windows share exactly `window - step` tokens, and only the last window ends at the last token. */
    lemma WindowsOverlap(n: nat, k: nat)
      requires Valid() && k < Count(n)
      ensures if k + 1 < Count(n) then First(k + 1) + (window - step) == End(k, n) < n else End(k, n) == n
    {
      WindowsFit(n, k);
      FirstStep(k);
    }

    lemma FullWindow(n: nat, k: nat)
      requires Valid() && k < Count(n)
      ensures First(k) < End(k, n) && (k + 1 < Count(n) ==> First(k) + window == End(k, n))
    {
      WindowsFit(n, k);
    }

    /** Every token is in a window. */
    lemma WindowsCover(n: nat, i: nat) returns (k: nat)
      requires Valid() && i < n
      ensures k < Count(n) && First(k) <= i < End(k, n)
    {
      if i < window {
        k := 0;
        FirstWindow(n);
      } else {
        var before := (i - window) / step;
        k := before + 1;
        Quotient(i - window);
        FirstStep(before);
        LastWindow(n);
        if k >= Count(n) {
          FirstGrows(Count(n) - 1, before);
        }
      }
    }
  }

  const ISIZE_MAX := 0x7FFF_FFFF_FFFF_FFFF

  datatype FixedTokenChunker = FixedTokenChunker(tokensPerChunk: u64, overlapTokens: u64) {

    /** At least one token a window, and an overlap short of it: each step advances. */
    function Windows(): (layout: Layout)
      ensures layout.Valid()
    {
      var window := if tokensPerChunk > 1 then tokensPerChunk else 1;
      var overlap := Min(overlapTokens, SaturatingSub(window, 1));
      Layout(window, window - overlap)
    }

    /** The windows of a text, in order and numbered. */
    ghost predicate Windowed(u: Unicode, source: string, chunks: seq<Chunk>) {
      var layout, n := Windows(), |u.Tokens(source, 0)|;
      && |chunks| == layout.Count(n)
      && AreWindows(u, source, layout, chunks)
    }

    ghost predicate AreWindows(u: Unicode, source: string, layout: Layout, chunks: seq<Chunk>)
      requires layout.Valid()
    {
      forall k :: 0 <= k < |chunks| ==>
        && chunks[k].chunkIndex == k
        && u.IsPassage(source, chunks[k], layout.First(k), layout.End(k, |u.Tokens(source, 0)|) - 1)
    }

    /** Windows cut so far; the next begins at token `start` of `n`. */
    ghost predicate Cut(u: Unicode, source: string, n: nat, chunks: seq<Chunk>, start: nat) {
      var layout := Windows();
      && start < n == |u.Tokens(source, 0)|
      && start == layout.First(|chunks|) && |chunks| < layout.Count(n)
      && AreWindows(u, source, layout, chunks)
    }

    lemma CutNothing(u: Unicode, source: string, n: nat)
      requires 0 < n == |u.Tokens(source, 0)|
      ensures Cut(u, source, n, [], 0)
    {
      Windows().FirstWindow(n);
    }

    lemma AddToWindows(u: Unicode, source: string, layout: Layout, chunks: seq<Chunk>, chunk: Chunk)
      requires layout.Valid() && AreWindows(u, source, layout, chunks)
      requires chunk.chunkIndex == |chunks|
      requires u.IsPassage(source, chunk, layout.First(|chunks|), layout.End(|chunks|, |u.Tokens(source, 0)|) - 1)
      ensures AreWindows(u, source, layout, chunks + [chunk])
    {
    }

    lemma AddCut(u: Unicode, source: string, n: nat, chunks: seq<Chunk>, start: nat, end: nat, chunk: Chunk)
      requires Cut(u, source, n, chunks, start) && end == Min(start + Windows().window, n)
      requires chunk.chunkIndex == |chunks| && u.IsPassage(source, chunk, start, end - 1)
      ensures end == n ==> Windowed(u, source, chunks + [chunk])
      ensures end < n ==> Cut(u, source, n, chunks + [chunk], start + Windows().step)
    {
      var layout := Windows();
      layout.NextWindow(n, |chunks|);
      AddToWindows(u, source, layout, chunks, chunk);
    }

    lemma AddWindow(u: Unicode, source: string, content: Text, spans: seq<TokenSpan>,
                    chunks: seq<Chunk>, start: nat, end: nat)
      requires content == u.Utf8(source) && spans == u.Spans(source, 0)
      requires Cut(u, source, |spans|, chunks, start) && end == Min(start + Windows().window, |spans|)
      ensures start < end && spans[start].byteStart <= spans[end - 1].byteEnd <= |content|
      ensures var byteStart, byteEnd := spans[start].byteStart, spans[end - 1].byteEnd;
              var more := chunks + [Chunk(|chunks|, byteStart, byteEnd, content[byteStart..byteEnd])];
              if end == |spans| then Windowed(u, source, more)
              else Cut(u, source, |spans|, more, start + Windows().step)
    {
      u.CutPassage(source, content, spans, |chunks|, start, end - 1);
      var byteStart, byteEnd := spans[start].byteStart, spans[end - 1].byteEnd;
      var chunk := Chunk(|chunks|, byteStart, byteEnd, content[byteStart..byteEnd]);
      AddCut(u, source, |spans|, chunks, start, end, chunk);
    }

    method ChunkText(u: Unicode, content: Text) returns (r: ChunkResult)
      requires u.Sound() && |content| <= ISIZE_MAX
      ensures r.InvalidUtf8? <==> content != [] && u.decode(content).None?
      ensures content == [] ==> r == Chunks([])
      ensures content != [] && r.Chunks? ==> Windowed(u, u.decode(content).value, r.chunks)
    {
      if content == [] {
        return Chunks([]);
      }
      var decoded := u.decode(content);
      if decoded.None? {
        return InvalidUtf8;
      }
      var source := decoded.value;
      var spans := u.TokenizeWithSpans(source);
      u.SpansOfTokens(source, 0);
      if spans == [] {
        return Chunks([]);
      }
      u.OffsetGrows(source, 0, |source|);
      u.OffsetEnds(source);
      var chunks := CutWindows(u, source, content, spans);
      return Chunks(chunks);
    }

    method CutWindows(u: Unicode, ghost source: string, content: Text, spans: seq<TokenSpan>)
      returns (chunks: seq<Chunk>)
      requires content == u.Utf8(source) && spans == u.Spans(source, 0)
      requires 0 < |spans| == |u.Tokens(source, 0)| <= ISIZE_MAX
      ensures Windowed(u, source, chunks)
    {
      var layout, n := Windows(), |spans|;
      chunks := [];
      var startIdx: u64 := 0;
      CutNothing(u, source, n);
      while startIdx < n
        invariant startIdx == 0 || layout.window < n
        invariant startIdx < n ==> Cut(u, source, n, chunks, startIdx)
        invariant startIdx >= n ==> Windowed(u, source, chunks)
        decreases n - startIdx
      {
        var reach: u64 := startIdx + layout.window;
        var endIdx := Min(reach, n);
        AddWindow(u, source, content, spans, chunks, startIdx, endIdx);
        var byteStart := spans[startIdx].byteStart;
        var byteEnd := spans[endIdx - 1].byteEnd;
        chunks := chunks + [Chunk(|chunks|, byteStart, byteEnd, content[byteStart..byteEnd])];
        if endIdx == n {
          break;
        }
        startIdx := startIdx + layout.step;
      }
    }

    /** Every token's bytes are inside some chunk. */
    lemma ChunksCover(u: Unicode, source: string, chunks: seq<Chunk>, i: nat) returns (k: nat)
      requires u.Sound() && Windowed(u, source, chunks) && i < |u.Tokens(source, 0)|
      ensures k < |chunks| && i < |u.Spans(source, 0)|
      ensures chunks[k].byteStart <= u.Spans(source, 0)[i].byteStart
      ensures u.Spans(source, 0)[i].byteEnd <= chunks[k].byteEnd
    {
      var layout, n := Windows(), |u.Tokens(source, 0)|;
      k := layout.WindowsCover(n, i);
      u.PassageCovers(source, chunks[k], layout.First(k), layout.End(k, n) - 1, i);
    }

    lemma Clamped()
      ensures Windows().window == SaturatingSub(tokensPerChunk, 1) + 1
      ensures Windows().window - Windows().step == Min(overlapTokens, SaturatingSub(tokensPerChunk, 1))
    {
    }

    lemma Shared(n: nat, k: nat) returns (first: nat, last: nat, next: nat, nextLast: nat)
      requires k < Windows().Count(n)
      ensures first == Windows().First(k) && last + 1 == Windows().End(k, n)
      ensures next == Windows().First(k + 1) && nextLast + 1 == Windows().End(k + 1, n)
      ensures k + 1 == Windows().Count(n) <==> last + 1 == n
      ensures k + 1 < Windows().Count(n) ==>
                && last + 1 - first == SaturatingSub(tokensPerChunk, 1) + 1
                && last + 1 - next == Min(overlapTokens, SaturatingSub(tokensPerChunk, 1))
    {
      var layout := Windows();
      layout.FullWindow(n, k);
      layout.WindowsOverlap(n, k);
      Clamped();
      first, last := layout.First(k), layout.End(k, n) - 1;
      next, nextLast := layout.First(k + 1), layout.End(k + 1, n) - 1;
    }

    lemma WindowIs(u: Unicode, source: string, chunks: seq<Chunk>, k: nat, first: nat, last: nat)
      requires Windowed(u, source, chunks) && k < |chunks|
      requires first == Windows().First(k) && last + 1 == Windows().End(k, |u.Tokens(source, 0)|)
      ensures u.IsPassage(source, chunks[k], first, last)
    {
    }

    /**
     * Neighbouring chunks share exactly the configured overlap, clamped to what
     * a window leaves, and the last chunk ends with the last token.
     */
    lemma Neighbours(u: Unicode, source: string, chunks: seq<Chunk>, k: nat)
      returns (first: nat, last: nat, next: nat, nextLast: nat)
      requires Windowed(u, source, chunks) && k < |chunks|
      ensures u.IsPassage(source, chunks[k], first, last)
      ensures k + 1 == |chunks| <==> last + 1 == |u.Tokens(source, 0)|
      ensures k + 1 < |chunks| ==>
                && u.IsPassage(source, chunks[k + 1], next, nextLast)
                && last + 1 - first == SaturatingSub(tokensPerChunk, 1) + 1
                && last + 1 - next == Min(overlapTokens, SaturatingSub(tokensPerChunk, 1))
    {
      var layout, n := Windows(), |u.Tokens(source, 0)|;
      first, last, next, nextLast := Shared(n, k);
      WindowIs(u, source, chunks, k, first, last);
      if k + 1 < |chunks| {
        WindowIs(u, source, chunks, k + 1, next, nextLast);
      }
    }
  }
}
