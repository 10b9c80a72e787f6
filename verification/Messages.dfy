/** Chat messages, the text they carry, and what a message costs in tokens. */
module Messages {

  datatype Option<+T> = None | Some(value: T)

  newtype byte = b: int | 0 <= b < 0x100

  /** UTF-8 text. Lengths are byte lengths, as `str::len` reports them. */
  type Text = seq<byte>

  const U64_MAX := 0xFFFF_FFFF_FFFF_FFFF

  type u64 = n: int | 0 <= n <= U64_MAX

  function SaturatingAdd(a: nat, b: nat): nat {
    if a + b <= U64_MAX then a + b else U64_MAX
  }

  function SaturatingSub(a: nat, b: nat): nat {
    if b <= a then a - b else 0
  }

  function Min(a: nat, b: nat): nat {
    if a <= b then a else b
  }

  datatype Role = System | User | Assistant | Tool

  datatype ToolCall = ToolCall(id: Text, name: Text, arguments: Text)

  /** `rendered` is the JSON rendering of the block's value. */
  datatype ProviderBlock = ProviderBlock(provider: Text, isImage: bool, rendered: Text)

  datatype Message = Message(
    role: Role,
    content: Text,
    toolCalls: seq<ToolCall>,
    toolCallId: Option<Text>,
    providerContent: seq<ProviderBlock>)

  /** Equal in everything but content: the one field compaction may rewrite. */
  predicate SameShape(a: Message, b: Message) {
    a.(content := b.content) == b
  }

  predicate SameShapes(a: seq<Message>, b: seq<Message>) {
    |a| == |b| && forall i :: 0 <= i < |a| ==> SameShape(a[i], b[i])
  }

  // ---- The markers left in place of removed text ----

  function Ascii(s: string): (t: Text)
    requires forall i :: 0 <= i < |s| ==> s[i] < '\U{80}'
    ensures |t| == |s|
  {
    seq(|s|, i requires 0 <= i < |s| => s[i] as int as byte)
  }

  /** The three UTF-8 bytes of an em dash. */
  const EM_DASH: Text := [0xE2, 0x80, 0x94]

  /** The three UTF-8 bytes of a horizontal ellipsis. */
  const ELLIPSIS: Text := [0xE2, 0x80, 0xA6]

  function Decimal(n: nat): (t: Text) {
    var digit := [(0x30 + n % 10) as byte];
    if n < 10 then digit else Decimal(n / 10) + digit
  }

  /** The number that decimal digits spell. */
  function ReadDecimal(t: Text): int {
    if t == [] then 0 else 10 * ReadDecimal(t[..|t| - 1]) + (t[|t| - 1] as int - 0x30)
  }

  /** Decimal digits without a leading zero that read back to the number. */
  lemma {:induction false} DecimalReadsBack(n: nat)
    ensures ReadDecimal(Decimal(n)) == n
    ensures Decimal(n) != [] && (n > 0 ==> Decimal(n)[0] != 0x30)
    ensures forall k :: 0 <= k < |Decimal(n)| ==> 0x30 <= Decimal(n)[k] <= 0x39
  {
    var digit := [(0x30 + n % 10) as byte];
    if n < 10 {
      assert digit[..0] == [];
    } else {
      DecimalReadsBack(n / 10);
      assert (Decimal(n / 10) + digit)[..|Decimal(n / 10)|] == Decimal(n / 10);
    }
  }

  function ElidedMarker(originalLen: nat): Text {
    Ascii("[output elided ") + EM_DASH + Ascii(" ") + Decimal(originalLen) + Ascii(" chars]")
  }

  function TruncationMarker(originalLen: nat): Text {
    Ascii("\n[") + ELLIPSIS + Ascii("truncated ") + EM_DASH + Ascii(" ")
    + Decimal(originalLen) + Ascii(" chars total]")
  }

  function Pow10(k: nat): nat {
    if k == 0 then 1 else 10 * Pow10(k - 1)
  }

  lemma {:induction false} DecimalLength(n: nat, k: nat)
    requires k > 0 && n < Pow10(k)
    ensures 1 <= |Decimal(n)| <= k
    ensures k > 1 && n >= Pow10(k - 1) ==> |Decimal(n)| == k
  {
    if n >= 10 {
      DecimalLength(n / 10, k - 1);
    }
  }

  /** A marker's byte length for any length a 64-bit machine can report. */
  const MAX_ELIDED_MARKER := 46
  const MAX_TRUNCATION_MARKER := 52

  lemma MarkerLengths(originalLen: nat)
    requires originalLen <= U64_MAX
    ensures 0 < |ElidedMarker(originalLen)| <= MAX_ELIDED_MARKER
    ensures 0 < |TruncationMarker(originalLen)| <= MAX_TRUNCATION_MARKER
  {
    assert Pow10(5) == 100_000;
    assert Pow10(10) == 10_000_000_000;
    assert Pow10(15) == 1_000_000_000_000_000;
    assert Pow10(20) == 100_000_000_000_000_000_000;
    DecimalLength(originalLen, 20);
  }

  lemma LongestMarker(originalLen: nat)
    requires 10_000_000_000_000_000_000 <= originalLen <= U64_MAX
    ensures |TruncationMarker(originalLen)| == MAX_TRUNCATION_MARKER
  {
    assert Pow10(5) == 100_000;
    assert Pow10(10) == 10_000_000_000;
    assert Pow10(15) == 1_000_000_000_000_000;
    assert Pow10(19) == 10_000_000_000_000_000_000;
    DecimalLength(originalLen, 20);
  }

  // ---- Token counting ----

  type TokenId = nat

  /** The tokenizer, left abstract, and the host's price for one image block. */
  datatype Estimator = Estimator(
    encode: Text -> seq<TokenId>,
    decode: seq<TokenId> -> Option<Text>,
    imageTokens: nat)
  {
    function Count(text: Text): nat {
      |encode(text)|
    }

    function CallTokens(calls: seq<ToolCall>): nat {
      if calls == [] then 0
      else Count(calls[0].id) + Count(calls[0].name) + Count(calls[0].arguments) + CallTokens(calls[1..])
    }

    function BlockTokens(blocks: seq<ProviderBlock>): nat {
      if blocks == [] then 0
      else
        Count(blocks[0].provider)
        + (if blocks[0].isImage then imageTokens else Count(blocks[0].rendered))
        + BlockTokens(blocks[1..])
    }

    function MessageTokens(m: Message): nat {
      Count(m.content)
      + CallTokens(m.toolCalls)
      + (if m.toolCallId.Some? then Count(m.toolCallId.value) else 0)
      + BlockTokens(m.providerContent)
    }

    function ImmutableTokens(m: Message): nat {
      SaturatingSub(MessageTokens(m), Count(m.content))
    }

    function Total(messages: seq<Message>): nat {
      if messages == [] then 0 else MessageTokens(messages[0]) + Total(messages[1..])
    }

    /** Text of the first `k` tokens; a decoding failure leaves nothing. */
    function TokenPrefix(text: Text, k: nat): Text
      requires k <= Count(text)
    {
      match decode(encode(text)[..k])
      case Some(prefix) => prefix
      case None => []
    }

    /** Each token dropped from the end of a text frees at least one byte. */
    ghost predicate TokensSpanBytes(text: Text, k: nat) {
      k <= Count(text) ==> |TokenPrefix(text, k)| + (Count(text) - k) <= |text|
    }

    /** A decoded token prefix takes the truncation marker at no more than the cost of the two apart. */
    ghost predicate PrefixTakesMarker(text: Text, k: nat) {
      var marker := TruncationMarker(|text|);
      k <= Count(text) ==> Count(TokenPrefix(text, k) + marker) <= k + Count(marker)
    }

    ghost predicate SpansBytes() {
      forall text, k {:trigger TokensSpanBytes(text, k)} :: TokensSpanBytes(text, k)
    }

    /** What the numeric results assume of the tokenizer. */
    ghost predicate Sound() {
      SpansBytes() && forall text, k {:trigger PrefixTakesMarker(text, k)} :: PrefixTakesMarker(text, k)
    }

    lemma TokensNeedBytes(text: Text)
      requires SpansBytes()
      ensures Count(text) <= |text|
    {
      assert TokensSpanBytes(text, 0);
    }

    lemma CostSplit(m: Message)
      ensures MessageTokens(m) == Count(m.content) + ImmutableTokens(m)
    {
    }

    lemma {:induction false} TotalConcat(a: seq<Message>, b: seq<Message>)
      ensures Total(a + b) == Total(a) + Total(b)
    {
      if a == [] {
        assert a + b == b;
      } else {
        assert (a + b)[1..] == a[1..] + b;
        TotalConcat(a[1..], b);
      }
    }

    lemma TotalSplit(messages: seq<Message>, i: nat)
      requires i <= |messages|
      ensures Total(messages) == Total(messages[..i]) + Total(messages[i..])
    {
      assert messages == messages[..i] + messages[i..];
      TotalConcat(messages[..i], messages[i..]);
    }

    lemma TotalSingle(m: Message)
      ensures Total([m]) == MessageTokens(m)
    {
      assert [m][1..] == [];
    }

    lemma TotalAround(messages: seq<Message>, i: nat)
      requires i < |messages|
      ensures Total(messages) == Total(messages[..i]) + MessageTokens(messages[i]) + Total(messages[i + 1..])
    {
      TotalSplit(messages, i);
      assert messages[i..][1..] == messages[i + 1..];
    }

    lemma TotalUpdate(messages: seq<Message>, i: nat, m: Message)
      requires i < |messages|
      ensures Total(messages) >= MessageTokens(messages[i])
      ensures Total(messages[i := m]) == Total(messages) - MessageTokens(messages[i]) + MessageTokens(m)
    {
      TotalAround(messages, i);
      TotalAround(messages[i := m], i);
      assert messages[i := m][..i] == messages[..i];
      assert messages[i := m][i + 1..] == messages[i + 1..];
    }
  }

  /** One token a byte satisfies every assumption, so they are consistent. */
  lemma ByteTokenizerIsSound(imageTokens: nat)
    ensures Estimator((t: Text) => seq(|t|, i requires 0 <= i < |t| => t[i] as nat),
                      (ids: seq<TokenId>) =>
                        if forall i :: 0 <= i < |ids| ==> ids[i] < 0x100
                        then Some(seq(|ids|, i requires 0 <= i < |ids| && ids[i] < 0x100 => ids[i] as byte))
                        else None,
                      imageTokens).Sound()
  {
  }
}
