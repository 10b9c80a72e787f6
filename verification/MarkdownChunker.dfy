/** What a chunker produces. */
module Chunks {
  import opened Messages

  /** Part of a source, with the bytes it covers. */
  datatype Chunk = Chunk(chunkIndex: nat, byteStart: nat, byteEnd: nat, text: Text)

  datatype ChunkResult = Chunks(chunks: seq<Chunk>) | InvalidUtf8
}

/** Splitting a Markdown source at its headings. */
module MarkdownChunker {
  import opened Chunks
  import opened Messages
  import Seqs

  const NEWLINE: byte := 0x0A
  const HASH: byte := 0x23
  const SPACE: byte := 0x20

  /** One to three hashes and a space. */
  predicate StartsHeading(line: Text, hashes: nat) {
    && 1 <= hashes <= 3 && hashes < |line| && line[hashes] == SPACE
    && forall k :: 0 <= k < hashes ==> line[k] == HASH
  }

  predicate IsHeading(line: Text) {
    exists n: nat | n <= 3 :: StartsHeading(line, n)
  }

  method IsMdHeading(line: Text) returns (heading: bool)
    ensures heading <==> IsHeading(line)
  {
    var count := 0;
    var i := 0;
    while i < |line|
      invariant i == count <= 3 && count <= |line|
      invariant forall k :: 0 <= k < count ==> line[k] == HASH
    {
      if line[i] == HASH {
        count := count + 1;
        if count > 3 {
          assert line[0] == line[1] == line[2] == line[3] == HASH;
          return false;
        }
      } else {
        heading := 1 <= count <= 3 && line[i] == SPACE;
        assert heading ==> StartsHeading(line, count);
        return;
      }
      i := i + 1;
    }
    return false;
  }

  // ---- Lines and headings of a source ----

  predicate StartsLine(source: Text, p: nat) {
    p < |source| && (p == 0 || source[p - 1] == NEWLINE)
  }

  /** A line of the source that starts at `p` is a heading. */
  predicate HeadingAt(source: Text, p: nat) {
    StartsLine(source, p) && IsHeading(source[p..])
  }

  /** End of the line at `p`, past its newline if it has one. */
  function LineEnd(source: Text, p: nat): (end: nat)
    requires p <= |source|
    ensures p <= end <= |source|
    ensures p < |source| ==> p < end
    ensures forall k :: p <= k < end - 1 ==> source[k] != NEWLINE
    ensures end < |source| ==> source[end - 1] == NEWLINE
    decreases |source| - p
  {
    if p == |source| then p
    else if source[p] == NEWLINE then p + 1
    else LineEnd(source, p + 1)
  }

  /** Stripping the newline and what follows it changes no heading. */
  lemma LineIsEnough(source: Text, p: nat, line: Text)
    requires p < |source| && p + |line| <= |source| && source[p..p + |line|] == line
    requires p + |line| == |source| || source[p + |line|] == NEWLINE
    ensures IsHeading(line) <==> IsHeading(source[p..])
  {
    var rest := source[p..];
    assert forall k :: 0 <= k < |line| ==> line[k] == rest[k];
    if IsHeading(line) {
      var n: nat :| n <= 3 && StartsHeading(line, n);
      assert StartsHeading(rest, n);
    }
    if IsHeading(rest) {
      var n: nat :| n <= 3 && StartsHeading(rest, n);
      if |line| < |rest| {
        assert rest[|line|] == NEWLINE;
      }
      assert StartsHeading(line, n);
    }
  }

  ghost predicate Increasing(starts: seq<nat>) {
    forall i, j :: 0 <= i < j < |starts| ==> starts[i] < starts[j]
  }

  /** `starts` lists the headings below `end`, in order. */
  ghost predicate HeadingsBelow(source: Text, starts: seq<nat>, end: nat) {
    && Increasing(starts)
    && forall p: nat :: p in starts <==> p < end && HeadingAt(source, p)
  }

  method SectionStarts(source: Text) returns (starts: seq<nat>)
    ensures HeadingsBelow(source, starts, |source|)
  {
    starts := [];
    var at := 0;
    while at < |source|
      invariant at <= |source| && (at < |source| ==> StartsLine(source, at))
      invariant HeadingsBelow(source, starts, at)
    {
      var end := LineEnd(source, at);
      var line := source[at..end];
      var bare := if source[end - 1] == NEWLINE then source[at..end - 1] else line;
      var heading := IsMdHeading(bare);
      LineIsEnough(source, at, bare);
      OnlyLineStart(source, at, end);
      if heading {
        AddStart(source, starts, at, end);
        starts := starts + [at];
      }
      at := at + |line|;
    }
  }

  lemma AddStart(source: Text, starts: seq<nat>, at: nat, end: nat)
    requires HeadingsBelow(source, starts, at) && HeadingAt(source, at) && at < end
    requires forall p :: at < p < end ==> !HeadingAt(source, p)
    ensures HeadingsBelow(source, starts + [at], end)
  {
    assert forall p: nat :: p in starts + [at] <==> p in starts || p == at;
    assert forall k :: 0 <= k < |starts| ==> starts[k] in starts;
  }

  lemma OnlyLineStart(source: Text, at: nat, end: nat)
    requires at < |source| && end == LineEnd(source, at)
    ensures forall p :: at < p < end ==> !HeadingAt(source, p)
  {
    forall p | at < p < end ensures !HeadingAt(source, p) {
      assert source[p - 1] != NEWLINE;
    }
  }

  // ---- Sections ----

  function Section(source: Text, index: nat, start: nat, end: nat): Chunk
    requires start <= end <= |source|
  {
    Chunk(index, start, end, source[start..end])
  }

  /** `chunk` is the `index`th part of `source`, and no heading starts inside it. */
  ghost predicate IsSection(source: Text, chunk: Chunk, index: nat) {
    && chunk.byteStart < chunk.byteEnd <= |source|
    && chunk == Section(source, index, chunk.byteStart, chunk.byteEnd)
    && (index > 0 ==> HeadingAt(source, chunk.byteStart))
    && forall p :: chunk.byteStart < p < chunk.byteEnd ==> !HeadingAt(source, p)
  }

  /**
   * The chunks cover the source from `from` to its end without gap or
   * overlap, and but for the first of all each begins at a heading.
   */
  ghost predicate Sectioned(source: Text, chunks: seq<Chunk>, end: nat) {
    && (forall i :: 0 <= i < |chunks| ==> IsSection(source, chunks[i], i))
    && (forall i :: 0 <= i < |chunks| - 1 ==> chunks[i].byteEnd == chunks[i + 1].byteStart)
    && (if chunks == [] then end == 0 else chunks[0].byteStart == 0 && chunks[|chunks| - 1].byteEnd == end)
  }

  lemma AddSection(source: Text, chunks: seq<Chunk>, start: nat, end: nat)
    requires Sectioned(source, chunks, start)
    requires start < end <= |source| && IsSection(source, Section(source, |chunks|, start, end), |chunks|)
    ensures Sectioned(source, chunks + [Section(source, |chunks|, start, end)], end)
  {
  }

  method ChunkMarkdown(content: Text, isUtf8: Text -> bool) returns (r: ChunkResult)
    ensures r.InvalidUtf8? <==> content != [] && !isUtf8(content)
    ensures r.Chunks? ==> Sectioned(content, r.chunks, |content|)
  {
    if content == [] {
      return Chunks([]);
    }
    if !isUtf8(content) {
      return InvalidUtf8;
    }
    var starts := SectionStarts(content);
    var chunks: seq<Chunk> := [];
    if starts == [] {
      assert forall p: nat :: p < |content| ==> !HeadingAt(content, p);
      Seqs.DropNothing(content);
      return Chunks([Section(content, 0, 0, |content|)]);
    }
    assert starts[0] in starts;
    if starts[0] > 0 {
      FirstHeading(content, starts);
      chunks := [Section(content, |chunks|, 0, starts[0])];
    }
    for i := 0 to |starts|
      invariant Sectioned(content, chunks, if i < |starts| then starts[i] else |content|)
      invariant |chunks| == 0 ==> i == 0
    {
      var end := if i + 1 < |starts| then starts[i + 1] else |content|;
      NextHeading(content, starts, i, end);
      AddSection(content, chunks, starts[i], end);
      chunks := chunks + [Section(content, |chunks|, starts[i], end)];
    }
    return Chunks(chunks);
  }

  lemma FirstHeading(source: Text, starts: seq<nat>)
    requires HeadingsBelow(source, starts, |source|) && starts != []
    ensures forall p :: 0 <= p < starts[0] ==> !HeadingAt(source, p)
  {
    forall p | 0 <= p < starts[0] ensures !HeadingAt(source, p) {
      assert p !in starts;
      assert starts[0] in starts;
    }
  }

  lemma NextHeading(source: Text, starts: seq<nat>, i: nat, end: nat)
    requires HeadingsBelow(source, starts, |source|) && i < |starts|
    requires end == if i + 1 < |starts| then starts[i + 1] else |source|
    ensures starts[i] < end <= |source| && HeadingAt(source, starts[i])
    ensures forall p :: starts[i] < p < end ==> !HeadingAt(source, p)
  {
    assert starts[i] in starts;
    assert i + 1 < |starts| ==> starts[i + 1] in starts;
    forall k | 0 <= k < |starts| ensures starts[k] <= starts[i] || end <= starts[k] {
    }
    forall p | starts[i] < p < end ensures !HeadingAt(source, p) {
      assert p !in starts;
    }
  }

  // ---- What sectioning means ----

  function Texts(chunks: seq<Chunk>): Text {
    if chunks == [] then [] else Texts(chunks[..|chunks| - 1]) + chunks[|chunks| - 1].text
  }

  lemma WithoutLastSection(source: Text, chunks: seq<Chunk>, end: nat)
    requires Sectioned(source, chunks, end) && chunks != []
    ensures var last := chunks[|chunks| - 1];
            && Sectioned(source, chunks[..|chunks| - 1], last.byteStart)
            && last.byteStart <= end <= |source| && last.text == source[last.byteStart..end]
  {
    var others := chunks[..|chunks| - 1];
    assert forall i :: 0 <= i < |others| ==> others[i] == chunks[i];
    assert IsSection(source, chunks[|chunks| - 1], |chunks| - 1);
  }

  /** The texts of the chunks, put together, are the source. */
  lemma {:induction false} TextsGiveSource(source: Text, chunks: seq<Chunk>, end: nat)
    requires Sectioned(source, chunks, end)
    ensures end <= |source| && Texts(chunks) == source[..end]
  {
    if chunks != [] {
      var last := chunks[|chunks| - 1];
      WithoutLastSection(source, chunks, end);
      TextsGiveSource(source, chunks[..|chunks| - 1], last.byteStart);
      Seqs.CutTake(source, last.byteStart, end);
    }
  }

  /** There is only one way to section a source. */
  lemma {:induction false} SectioningUnique(source: Text, a: seq<Chunk>, b: seq<Chunk>, i: nat)
    requires Sectioned(source, a, |source|) && Sectioned(source, b, |source|)
    requires i < |a| && i < |b|
    ensures a[i] == b[i]
  {
    assert IsSection(source, a[i], i) && IsSection(source, b[i], i);
    if i > 0 {
      SectioningUnique(source, a, b, i - 1);
    }
    assert a[i].byteStart == b[i].byteStart;
    EndsAtHeading(source, a, i);
    EndsAtHeading(source, b, i);
  }

  lemma EndsAtHeading(source: Text, chunks: seq<Chunk>, i: nat)
    requires Sectioned(source, chunks, |source|) && i < |chunks|
    ensures i + 1 < |chunks| ==> chunks[i].byteEnd < |source| && HeadingAt(source, chunks[i].byteEnd)
    ensures i + 1 == |chunks| ==> chunks[i].byteEnd == |source|
  {
    if i + 1 < |chunks| {
      assert IsSection(source, chunks[i + 1], i + 1);
    }
  }

  lemma SectioningsAgree(source: Text, a: seq<Chunk>, b: seq<Chunk>)
    requires Sectioned(source, a, |source|) && Sectioned(source, b, |source|)
    ensures a == b
  {
    var n := if |a| < |b| then |a| else |b|;
    assert a != [] ==> IsSection(source, a[0], 0);
    assert b != [] ==> IsSection(source, b[0], 0);
    if source != [] {
      SectioningUnique(source, a, b, n - 1);
      EndsAtHeading(source, a, n - 1);
      EndsAtHeading(source, b, n - 1);
      forall i | 0 <= i < n ensures a[i] == b[i] {
        SectioningUnique(source, a, b, i);
      }
    }
  }
}
