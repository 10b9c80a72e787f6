/**
 * The text codec of blobs: UTF-16 code units to bytes and back, and the
 * concatenation of the parts a blob is made of.
 */
module BlobCodec {
  import Arithmetic
  import opened Bits
  import Seqs

  type Unit = n: int | 0 <= n < 0x1_0000

  type Byte = n: int | 0 <= n < 0x100

  // ---- Code units (section 2 of RFC 2781) ----

  predicate IsHigh(u: Unit) {
    0xD800 <= u <= 0xDBFF
  }

  predicate IsLow(u: Unit) {
    0xDC00 <= u <= 0xDFFF
  }

  /** Each high surrogate is followed by a low one. */
  predicate Paired(s: seq<Unit>) {
    s == [] ||
    if IsHigh(s[0]) then |s| > 1 && IsLow(s[1]) && Paired(s[2..])
    else Paired(s[1..])
  }

  ghost predicate HasPartner(s: seq<Unit>, i: nat)
    requires i < |s|
  {
    IsHigh(s[i]) ==> i + 1 < |s| && IsLow(s[i + 1])
  }

  /** `Paired` by position. */
  lemma {:induction false} PairedByPosition(s: seq<Unit>)
    ensures Paired(s) <==> forall i :: 0 <= i < |s| ==> HasPartner(s, i)
  {
    if s != [] {
      var n := Taken(s);
      PairedByPosition(s[n..]);
      assert forall i :: n <= i < |s| ==> HasPartner(s, i) == HasPartner(s[n..], i - n);
      assert forall i :: 0 <= i < |s[n..]| ==> HasPartner(s[n..], i) == HasPartner(s, n + i);
      assert Paired(s) <==> HasPartner(s, 0) && Paired(s[n..]);
    }
  }

  // ---- Encoding ----

  /** A number stored in a byte array keeps its low eight bits. */
  function ToByte(n: nat): Byte {
    n % 0x100
  }

  /** A number passed to `fromCharCode` keeps its low sixteen bits. */
  function ToUnit(n: nat): Unit {
    n % 0x1_0000
  }

  function FourBytes(cp: nat): seq<Byte> {
    [ToByte(Or(0xF0, ShiftRight(cp, 18))), ToByte(Or(0x80, And(ShiftRight(cp, 12), 0x3F))),
     ToByte(Or(0x80, And(ShiftRight(cp, 6), 0x3F))), ToByte(Or(0x80, And(cp, 0x3F)))]
  }

  function TwoBytes(code: nat): seq<Byte> {
    [ToByte(Or(0xC0, ShiftRight(code, 6))), ToByte(Or(0x80, And(code, 0x3F)))]
  }

  function ThreeBytes(code: nat): seq<Byte> {
    [ToByte(Or(0xE0, ShiftRight(code, 12))), ToByte(Or(0x80, And(ShiftRight(code, 6), 0x3F))),
     ToByte(Or(0x80, And(code, 0x3F)))]
  }

  function PairCodePoint(high: Unit, next: Unit): nat
    requires IsHigh(high)
  {
    ShiftLeft(high - 0xD800, 10) + (next - 0xDC00 + 0x10000)
  }

  /** How many units the encoder takes at the front. */
  function Taken(s: seq<Unit>): (n: nat)
    requires s != []
    ensures 0 < n <= |s|
  {
    if IsHigh(s[0]) && |s| > 1 then 2 else 1
  }

  /**
   * Whatever follows a high surrogate is taken for its partner; past the end
   * there is no number, and shifting it gives zero.
   */
  function FrontBytes(s: seq<Unit>): seq<Byte>
    requires s != []
  {
    if s[0] < 0x80 then [ToByte(s[0])]
    else if s[0] < 0x800 then TwoBytes(s[0])
    else if IsHigh(s[0]) then FourBytes(if |s| > 1 then PairCodePoint(s[0], s[1]) else 0)
    else ThreeBytes(s[0])
  }

  function Encode(s: seq<Unit>): seq<Byte> {
    if s == [] then [] else FrontBytes(s) + Encode(s[Taken(s)..])
  }

  method PartToBytes(part: seq<Unit>) returns (bytes: seq<Byte>)
    ensures bytes == Encode(part)
  {
    bytes := [];
    var i := 0;
    while i < |part|
      invariant i <= |part|
      invariant bytes + Encode(part[i..]) == Encode(part)
    {
      var code := part[i];
      ghost var rest := part[i..];
      var added;
      if code < 0x80 {
        added := [ToByte(code)];
      } else if code < 0x800 {
        added := TwoBytes(code);
      } else if code >= 0xD800 && code <= 0xDBFF {
        i := i + 1;
        added := FourBytes(if i < |part| then PairCodePoint(code, part[i]) else 0);
        i := if i < |part| then i else i - 1;
      } else {
        added := ThreeBytes(code);
      }
      i := i + 1;
      assert added == FrontBytes(rest) && rest[Taken(rest)..] == part[i..];
      Seqs.ConcatAssociative(bytes, added, Encode(part[i..]));
      bytes := bytes + added;
    }
    Seqs.DropNothing(bytes);
    Seqs.DropNothing(part);
  }

  // ---- Decoding ----

  /** Reading past the end gives nothing, and masking it gives zero. */
  function At(bytes: seq<Byte>, i: nat): Byte {
    if i < |bytes| then bytes[i] else 0
  }

  function Consumed(bytes: seq<Byte>): (n: nat)
    requires bytes != []
    ensures n > 0
  {
    if bytes[0] < 0x80 then 1
    else if And(bytes[0], 0xE0) == 0xC0 then 2
    else if And(bytes[0], 0xF0) == 0xE0 then 3
    else if And(bytes[0], 0xF8) == 0xF0 then 4
    else 1
  }

  function CodePointUnits(cp: nat): seq<Unit> {
    if cp > 0xFFFF then
      [ToUnit(0xD800 + ShiftRight(cp - 0x10000, 10)), ToUnit(0xDC00 + And(cp - 0x10000, 0x3FF))]
    else [ToUnit(cp)]
  }

  function TwoByteCode(b0: Byte, b1: Byte): nat {
    Or(ShiftLeft(And(b0, 0x1F), 6), And(b1, 0x3F))
  }

  function ThreeByteCode(b0: Byte, b1: Byte, b2: Byte): nat {
    Or(Or(ShiftLeft(And(b0, 0x0F), 12), ShiftLeft(And(b1, 0x3F), 6)), And(b2, 0x3F))
  }

  function FourByteCode(b0: Byte, b1: Byte, b2: Byte, b3: Byte): nat {
    Or(Or(Or(ShiftLeft(And(b0, 0x07), 18), ShiftLeft(And(b1, 0x3F), 12)), ShiftLeft(And(b2, 0x3F), 6)), And(b3, 0x3F))
  }

  function FrontUnits(bytes: seq<Byte>): seq<Unit>
    requires bytes != []
  {
    if bytes[0] < 0x80 then [ToUnit(bytes[0])]
    else if And(bytes[0], 0xE0) == 0xC0 then [ToUnit(TwoByteCode(bytes[0], At(bytes, 1)))]
    else if And(bytes[0], 0xF0) == 0xE0 then [ToUnit(ThreeByteCode(bytes[0], At(bytes, 1), At(bytes, 2)))]
    else if And(bytes[0], 0xF8) == 0xF0 then CodePointUnits(FourByteCode(bytes[0], At(bytes, 1), At(bytes, 2), At(bytes, 3)))
    else [0xFFFD]
  }

  function Rest(bytes: seq<Byte>, n: nat): (rest: seq<Byte>)
    ensures n > 0 && bytes != [] ==> |rest| < |bytes|
  {
    if n <= |bytes| then bytes[n..] else []
  }

  function Decode(bytes: seq<Byte>): seq<Unit>
    decreases |bytes|
  {
    if bytes == [] then [] else FrontUnits(bytes) + Decode(Rest(bytes, Consumed(bytes)))
  }

  /** The units decoded at `i`, and where the next ones start. */
  method TextAt(bytes: seq<Byte>, i: nat) returns (added: seq<Unit>, next: nat)
    requires i < |bytes|
    ensures added == FrontUnits(bytes[i..]) && next == i + Consumed(bytes[i..])
  {
    var b := bytes[i];
    ghost var rest := bytes[i..];
    assert rest[0] == b;
    assert At(rest, 1) == At(bytes, i + 1) && At(rest, 2) == At(bytes, i + 2) && At(rest, 3) == At(bytes, i + 3);
    if b < 0x80 {
      added, next := [ToUnit(b)], i + 1;
    } else if And(b, 0xE0) == 0xC0 {
      added, next := [ToUnit(TwoByteCode(b, At(bytes, i + 1)))], i + 2;
    } else if And(b, 0xF0) == 0xE0 {
      added, next := [ToUnit(ThreeByteCode(b, At(bytes, i + 1), At(bytes, i + 2)))], i + 3;
    } else if And(b, 0xF8) == 0xF0 {
      added := CodePointUnits(FourByteCode(b, At(bytes, i + 1), At(bytes, i + 2), At(bytes, i + 3)));
      next := i + 4;
    } else {
      added, next := [0xFFFD], i + 1;
    }
  }

  method Text(bytes: seq<Byte>) returns (result: seq<Unit>)
    ensures result == Decode(bytes)
  {
    result := [];
    var i := 0;
    Seqs.DropNothing(bytes);
    while i < |bytes|
      invariant result + Decode(Rest(bytes, i)) == Decode(bytes)
      decreases |bytes| - i
    {
      var added, next := TextAt(bytes, i);
      DecodeOneMore(bytes, i, result);
      result := result + added;
      i := next;
    }
    Seqs.DropNothing(result);
  }

  lemma DecodeOneMore(bytes: seq<Byte>, at: nat, done: seq<Unit>)
    requires at < |bytes|
    ensures var rest := bytes[at..];
            done + Decode(Rest(bytes, at)) == (done + FrontUnits(rest)) + Decode(Rest(bytes, at + Consumed(rest)))
  {
    var rest := bytes[at..];
    RestOfRest(bytes, at, Consumed(rest));
    Seqs.ConcatAssociative(done, FrontUnits(rest), Decode(Rest(bytes, at + Consumed(rest))));
  }

  lemma RestOfRest(bytes: seq<Byte>, i: nat, n: nat)
    requires i <= |bytes|
    ensures Rest(bytes[i..], n) == Rest(bytes, i + n)
  {
  }

  // ---- The bit operations, in arithmetic ----

  /** The octets of section 3 of RFC 3629: a lead octet by range, then six bits at a time. */
  function Octets(v: nat): seq<Byte>
    requires v < 0x200000
  {
    if v < 0x80 then [v]
    else if v < 0x800 then [0xC0 + v / 0x40, 0x80 + v % 0x40]
    else if v < 0x10000 then [0xE0 + v / 0x1000, 0x80 + v / 0x40 % 0x40, 0x80 + v % 0x40]
    else FourOctets(v)
  }

  function FourOctets(v: nat): seq<Byte>
    requires v < 0x200000
  {
    [0xF0 + v / 0x40000, 0x80 + v / 0x1000 % 0x40, 0x80 + v / 0x40 % 0x40, 0x80 + v % 0x40]
  }

  /** A marker in the high bits of a byte and a field below it. */
  lemma LowByte(marker: nat, n: nat, k: nat, p: nat)
    requires p == Pow2(k) && n < p && marker * p + p <= 0x100
    ensures ToByte(Or(marker * p, n)) == marker * p + n
  {
    Join(marker, n, k, p);
    FitsByte(marker * p + n);
  }

  lemma FitsByte(n: nat)
    requires n < 0x100
    ensures ToByte(n) == n
  {
  }

  lemma Continuation(n: nat)
    ensures ToByte(Or(0x80, And(n, 0x3F))) == 0x80 + n % 0x40
  {
    Fields(n);
    LowByte(2, n % 0x40, 6, 0x40);
  }

  lemma LeadByteOfTwo(n: nat)
    requires n < 0x20
    ensures ToByte(Or(0xC0, n)) == 0xC0 + n
  {
    LowByte(6, n, 5, 0x20);
  }

  lemma LeadByteOfThree(n: nat)
    requires n < 0x10
    ensures ToByte(Or(0xE0, n)) == 0xE0 + n
  {
    LowByte(14, n, 4, 0x10);
  }

  lemma LeadByteOfFour(n: nat)
    requires n < 0x08
    ensures ToByte(Or(0xF0, n)) == 0xF0 + n
  {
    LowByte(30, n, 3, 0x08);
  }

  lemma RightShifts(n: nat)
    ensures ShiftRight(n, 6) == n / 0x40 && ShiftRight(n, 12) == n / 0x1000 && ShiftRight(n, 18) == n / 0x40000
  {
    Powers();
    Right(n, 6, 0x40);
    Right(n, 12, 0x1000);
    Right(n, 18, 0x40000);
  }

  lemma TwoBytesAreOctets(code: nat)
    requires 0x80 <= code < 0x800
    ensures TwoBytes(code) == Octets(code)
  {
    RightShifts(code);
    LeadByteOfTwo(code / 0x40);
    Continuation(code);
  }

  lemma ThreeBytesAreOctets(code: nat)
    requires 0x800 <= code < 0x10000
    ensures ThreeBytes(code) == Octets(code)
  {
    RightShifts(code);
    LeadByteOfThree(code / 0x1000);
    Continuation(code / 0x40);
    Continuation(code);
  }

  lemma FourOctetsFrom(a: nat, b: nat, c: nat, d: nat)
    requires a < 0x08
    ensures ToByte(Or(0xF0, a)) == 0xF0 + a
    ensures ToByte(Or(0x80, And(b, 0x3F))) == 0x80 + b % 0x40
    ensures ToByte(Or(0x80, And(c, 0x3F))) == 0x80 + c % 0x40
    ensures ToByte(Or(0x80, And(d, 0x3F))) == 0x80 + d % 0x40
  {
    LeadByteOfFour(a);
    Continuation(b);
    Continuation(c);
    Continuation(d);
  }

  lemma FourBytesAreOctets(cp: nat)
    requires cp < 0x200000
    ensures FourBytes(cp) == FourOctets(cp)
  {
    RightShifts(cp);
    FourOctetsFrom(cp / 0x40000, cp / 0x1000, cp / 0x40, cp);
  }

  lemma PairCodePointIs(high: Unit, next: Unit)
    requires IsHigh(high)
    ensures PairCodePoint(high, next) == (high - 0xD800) * 0x400 + (next - 0xDC00) + 0x10000 < 0x200000
  {
    Powers();
    Left(high - 0xD800, 10, 0x400);
  }

  lemma UnitBytesAre(s: seq<Unit>)
    requires s != [] && !IsHigh(s[0])
    ensures FrontBytes(s) == Octets(s[0])
  {
    if 0x80 <= s[0] < 0x800 {
      TwoBytesAreOctets(s[0]);
    } else if 0x800 <= s[0] {
      ThreeBytesAreOctets(s[0]);
    }
  }

  /** A high surrogate taken with the unit behind it, low or not; alone, it comes to nothing. */
  function Joined(s: seq<Unit>): (v: nat)
    requires s != [] && IsHigh(s[0])
    ensures v < 0x200000
  {
    if |s| == 1 then 0
    else var high: int, next: int := s[0], s[1]; (high - 0xD800) * 0x400 + (next - 0xDC00) + 0x10000
  }

  lemma PairBytesAre(s: seq<Unit>)
    requires s != [] && IsHigh(s[0])
    ensures FrontBytes(s) == FourOctets(Joined(s))
  {
    FourBytesAreOctets(Joined(s));
    if |s| > 1 {
      PairCodePointIs(s[0], s[1]);
    }
  }

  /**
   * Every unit but a high surrogate gives the octets of its value; a high one
   * is joined with the next unit, low or not, and gives zero at the very end.
   */
  lemma FrontBytesIs(s: seq<Unit>)
    requires s != []
    ensures FrontBytes(s) == if IsHigh(s[0]) then FourOctets(Joined(s)) else Octets(s[0])
  {
    if IsHigh(s[0]) {
      PairBytesAre(s);
    } else {
      UnitBytesAre(s);
    }
  }

  /** The lead byte tests single out the ranges of lead octets. */
  lemma LeadOfTwo(b: Byte)
    ensures And(b, 0xE0) == 0xC0 <==> 0xC0 <= b < 0xE0
  {
    Powers();
    TopBits(b, 5, 0x20, 3, 0x08, 0xE0, 0xC0);
  }

  lemma LeadOfThree(b: Byte)
    ensures And(b, 0xF0) == 0xE0 <==> 0xE0 <= b < 0xF0
  {
    Powers();
    TopBits(b, 4, 0x10, 4, 0x10, 0xF0, 0xE0);
  }

  lemma LeadOfFour(b: Byte)
    ensures And(b, 0xF8) == 0xF0 <==> 0xF0 <= b < 0xF8
  {
    Powers();
    TopBits(b, 3, 0x08, 5, 0x20, 0xF8, 0xF0);
  }

  lemma TwoByteCodeIs(b0: Byte, b1: Byte)
    ensures TwoByteCode(b0, b1) == b0 % 0x20 * 0x40 + b1 % 0x40
  {
    Powers();
    Mask(b0, 5, 0x20);
    Mask(b1, 6, 0x40);
    Left(b0 % 0x20, 6, 0x40);
    Join(b0 % 0x20, b1 % 0x40, 6, 0x40);
  }

  lemma Fields(b: nat)
    ensures And(b, 0x3F) == b % 0x40 && And(b, 0x0F) == b % 0x10 && And(b, 0x07) == b % 0x08
  {
    Powers();
    Mask(b, 6, 0x40);
    Mask(b, 4, 0x10);
    Mask(b, 3, 0x08);
  }

  lemma LeftShifts(n: nat)
    ensures ShiftLeft(n, 6) == n * 0x40 && ShiftLeft(n, 12) == n * 0x1000 && ShiftLeft(n, 18) == n * 0x40000
  {
    Powers();
    Left(n, 6, 0x40);
    Left(n, 12, 0x1000);
    Left(n, 18, 0x40000);
  }

  lemma JoinTopTwo(a: nat, b: nat)
    requires b < 0x40
    ensures Or(a * 0x1000, b * 0x40) == (a * 0x40 + b) * 0x40
  {
    Powers();
    Join(a, b * 0x40, 12, 0x1000);
  }

  lemma JoinThree(a: nat, b: nat, c: nat)
    requires b < 0x40 && c < 0x40
    ensures Or(Or(a * 0x1000, b * 0x40), c) == a * 0x1000 + b * 0x40 + c
  {
    JoinTopTwo(a, b);
    Powers();
    Join(a * 0x40 + b, c, 6, 0x40);
  }

  lemma JoinTwo(a: nat, b: nat)
    requires b < 0x40
    ensures Or(a * 0x40000, b * 0x1000) == (a * 0x40 + b) * 0x1000
  {
    Powers();
    Join(a, b * 0x1000, 18, 0x40000);
  }

  lemma ThreeByteCodeIs(b0: Byte, b1: Byte, b2: Byte)
    ensures ThreeByteCode(b0, b1, b2) == b0 % 0x10 * 0x1000 + b1 % 0x40 * 0x40 + b2 % 0x40
  {
    Fields(b0);
    Fields(b1);
    Fields(b2);
    LeftShifts(b0 % 0x10);
    LeftShifts(b1 % 0x40);
    JoinThree(b0 % 0x10, b1 % 0x40, b2 % 0x40);
  }

  lemma JoinFields(a: nat, b: nat, c: nat, d: nat)
    requires b < 0x40 && c < 0x40 && d < 0x40
    ensures Or(Or(Or(a * 0x40000, b * 0x1000), c * 0x40), d) == a * 0x40000 + b * 0x1000 + c * 0x40 + d
  {
    JoinTwo(a, b);
    JoinThree(a * 0x40 + b, c, d);
  }

  lemma JoinFour(a: nat, b: nat, c: nat, d: nat)
    requires b < 0x40 && c < 0x40 && d < 0x40
    ensures Or(Or(Or(ShiftLeft(a, 18), ShiftLeft(b, 12)), ShiftLeft(c, 6)), d)
         == a * 0x40000 + b * 0x1000 + c * 0x40 + d
  {
    Powers();
    Left(a, 18, 0x40000);
    Left(b, 12, 0x1000);
    Left(c, 6, 0x40);
    JoinFields(a, b, c, d);
  }

  lemma FourByteCodeIs(b0: Byte, b1: Byte, b2: Byte, b3: Byte)
    ensures FourByteCode(b0, b1, b2, b3) == b0 % 0x08 * 0x40000 + b1 % 0x40 * 0x1000 + b2 % 0x40 * 0x40 + b3 % 0x40
  {
    Fields(b0);
    Fields(b1);
    Fields(b2);
    Fields(b3);
    JoinFour(b0 % 0x08, b1 % 0x40, b2 % 0x40, b3 % 0x40);
  }

  /** How many bytes the lead byte announces, by range. */
  function OctetCount(lead: Byte): nat {
    if 0xC0 <= lead < 0xE0 then 2 else if 0xE0 <= lead < 0xF0 then 3 else if 0xF0 <= lead < 0xF8 then 4 else 1
  }

  /** The units decoded from the front, in arithmetic. */
  function UnitsOf(b0: Byte, b1: Byte, b2: Byte, b3: Byte): seq<Unit> {
    match OctetCount(b0)
    case 2 => [b0 % 0x20 * 0x40 + b1 % 0x40]
    case 3 => [b0 % 0x10 * 0x1000 + b1 % 0x40 * 0x40 + b2 % 0x40]
    case 4 => UnitsOfCodePoint(b0 % 0x08 * 0x40000 + b1 % 0x40 * 0x1000 + b2 % 0x40 * 0x40 + b3 % 0x40)
    case _ => [LoneUnit(b0)]
  }

  function LoneUnit(b: Byte): Unit {
    if b < 0x80 then b else 0xFFFD
  }

  function UnitsOfCodePoint(cp: nat): seq<Unit>
    requires cp < 0x200000
  {
    if cp > 0xFFFF then [0xD800 + (cp - 0x10000) / 0x400, 0xDC00 + (cp - 0x10000) % 0x400] else [cp]
  }

  lemma SurrogatesFit(n: nat)
    requires n < 0x1F0000
    ensures ToUnit(0xD800 + n / 0x400) == 0xD800 + n / 0x400
    ensures ToUnit(0xDC00 + n % 0x400) == 0xDC00 + n % 0x400
  {
  }

  lemma SurrogateFields(n: nat)
    requires n < 0x1F0000
    ensures ToUnit(0xD800 + ShiftRight(n, 10)) == 0xD800 + n / 0x400
    ensures ToUnit(0xDC00 + And(n, 0x3FF)) == 0xDC00 + n % 0x400
  {
    Powers();
    Right(n, 10, 0x400);
    Mask(n, 10, 0x400);
    SurrogatesFit(n);
  }

  lemma CodePointUnitsAre(cp: nat)
    requires cp < 0x200000
    ensures CodePointUnits(cp) == UnitsOfCodePoint(cp)
  {
    if cp > 0xFFFF {
      SurrogateFields(cp - 0x10000);
    }
  }

  lemma Leads(b: Byte)
    ensures And(b, 0xE0) == 0xC0 <==> 0xC0 <= b < 0xE0
    ensures And(b, 0xF0) == 0xE0 <==> 0xE0 <= b < 0xF0
    ensures And(b, 0xF8) == 0xF0 <==> 0xF0 <= b < 0xF8
  {
    LeadOfTwo(b);
    LeadOfThree(b);
    LeadOfFour(b);
  }

  lemma ConsumedIs(bytes: seq<Byte>)
    requires bytes != []
    ensures Consumed(bytes) == OctetCount(bytes[0])
  {
    Leads(bytes[0]);
  }

  /** The branch the decoder takes, when the tests on the lead byte are as its range says. */
  lemma FrontByTests(bytes: seq<Byte>, tested: nat, code: nat)
    requires bytes != [] && 0x80 <= bytes[0] && 2 <= tested <= 4
    requires And(bytes[0], 0xE0) == 0xC0 <==> tested == 2
    requires And(bytes[0], 0xF0) == 0xE0 <==> tested == 3
    requires And(bytes[0], 0xF8) == 0xF0 <==> tested == 4
    requires tested == 2 ==> code == TwoByteCode(bytes[0], At(bytes, 1))
    requires tested == 3 ==> code == ThreeByteCode(bytes[0], At(bytes, 1), At(bytes, 2))
    requires tested == 4 ==> code == FourByteCode(bytes[0], At(bytes, 1), At(bytes, 2), At(bytes, 3))
    ensures FrontUnits(bytes) == if tested < 4 then [ToUnit(code)] else CodePointUnits(code)
  {
  }

  lemma FrontByNoTest(bytes: seq<Byte>)
    requires bytes != []
    requires bytes[0] < 0x80
          || !(And(bytes[0], 0xE0) == 0xC0 || And(bytes[0], 0xF0) == 0xE0 || And(bytes[0], 0xF8) == 0xF0)
    ensures FrontUnits(bytes) == [LoneUnit(bytes[0])]
  {
  }

  lemma FrontWithoutCode(bytes: seq<Byte>)
    requires bytes != [] && OctetCount(bytes[0]) == 1
    ensures FrontUnits(bytes) == [LoneUnit(bytes[0])]
  {
    Leads(bytes[0]);
    FrontByNoTest(bytes);
  }

  lemma FitsUnit(n: nat)
    requires n < 0x1_0000
    ensures ToUnit(n) == n
  {
  }

  lemma FrontOfTwo(bytes: seq<Byte>, code: nat)
    requires bytes != [] && 0xC0 <= bytes[0] < 0xE0
    requires code == bytes[0] % 0x20 * 0x40 + At(bytes, 1) % 0x40
    ensures code < 0x1_0000 && FrontUnits(bytes) == [code]
  {
    FitsUnit(code);
    Leads(bytes[0]);
    TwoByteCodeIs(bytes[0], At(bytes, 1));
    FrontByTests(bytes, 2, code);
  }

  lemma FrontOfThree(bytes: seq<Byte>, code: nat)
    requires bytes != [] && 0xE0 <= bytes[0] < 0xF0
    requires code == bytes[0] % 0x10 * 0x1000 + At(bytes, 1) % 0x40 * 0x40 + At(bytes, 2) % 0x40
    ensures code < 0x1_0000 && FrontUnits(bytes) == [code]
  {
    FitsUnit(code);
    Leads(bytes[0]);
    ThreeByteCodeIs(bytes[0], At(bytes, 1), At(bytes, 2));
    FrontByTests(bytes, 3, code);
  }

  lemma FrontOfFour(bytes: seq<Byte>, code: nat)
    requires bytes != [] && 0xF0 <= bytes[0] < 0xF8
    requires code == bytes[0] % 0x08 * 0x40000 + At(bytes, 1) % 0x40 * 0x1000 + At(bytes, 2) % 0x40 * 0x40 + At(bytes, 3) % 0x40
    ensures code < 0x200000 && FrontUnits(bytes) == UnitsOfCodePoint(code)
  {
    Leads(bytes[0]);
    FourByteCodeIs(bytes[0], At(bytes, 1), At(bytes, 2), At(bytes, 3));
    FrontByTests(bytes, 4, code);
    CodePointUnitsAre(code);
  }

  lemma FrontIs(bytes: seq<Byte>)
    requires bytes != []
    ensures FrontUnits(bytes) == UnitsOf(bytes[0], At(bytes, 1), At(bytes, 2), At(bytes, 3))
  {
    var b0: int, b1: int, b2: int, b3: int := bytes[0], At(bytes, 1), At(bytes, 2), At(bytes, 3);
    match OctetCount(b0)
    case 2 => FrontOfTwo(bytes, b0 % 0x20 * 0x40 + b1 % 0x40);
    case 3 => FrontOfThree(bytes, b0 % 0x10 * 0x1000 + b1 % 0x40 * 0x40 + b2 % 0x40);
    case 4 => FrontOfFour(bytes, b0 % 0x08 * 0x40000 + b1 % 0x40 * 0x1000 + b2 % 0x40 * 0x40 + b3 % 0x40);
    case _ => FrontWithoutCode(bytes);
  }

  // ---- Round trip ----

  lemma OctetsBack(v: nat)
    requires v < 0x10000
    ensures var o := Octets(v);
            OctetCount(o[0]) == |o| && UnitsOf(o[0], At(o, 1), At(o, 2), At(o, 3)) == [v]
  {
    var o := Octets(v);
    if 0x80 <= v < 0x800 {
      assert o[0] % 0x20 == v / 0x40 && o[1] % 0x40 == v % 0x40;
    } else if 0x800 <= v {
      assert v / 0x1000 == v / 0x40 / 0x40;
      assert o[0] % 0x10 == v / 0x1000 && o[1] % 0x40 == v / 0x40 % 0x40 && o[2] % 0x40 == v % 0x40;
    }
  }

  lemma FourDigits(v: nat)
    requires v < 0x200000
    ensures v == v / 0x40000 * 0x40000 + v / 0x1000 % 0x40 * 0x1000 + v / 0x40 % 0x40 * 0x40 + v % 0x40
    ensures v / 0x40000 < 0x08
  {
    var q := v / 0x40;
    var r := q / 0x40;
    assert v / 0x1000 == r && v / 0x40000 == r / 0x40;
  }

  lemma FourOctetsBack(v: nat)
    requires v < 0x200000
    ensures var o := FourOctets(v);
            OctetCount(o[0]) == 4 && UnitsOf(o[0], o[1], o[2], o[3]) == UnitsOfCodePoint(v)
  {
    var o := FourOctets(v);
    FourDigits(v);
    assert o[0] % 0x08 == v / 0x40000;
    assert o[1] % 0x40 == v / 0x1000 % 0x40;
    assert o[2] % 0x40 == v / 0x40 % 0x40;
    assert o[3] % 0x40 == v % 0x40;
  }

  /** Bytes of one unit come back as that unit. */
  lemma UnitRoundTrip(s: seq<Unit>)
    requires s != [] && !IsHigh(s[0])
    ensures var front := FrontBytes(s);
            front != [] && Consumed(front) == |front| && FrontUnits(front) == [s[0]] && front == Octets(s[0])
  {
    var code := s[0];
    UnitBytesAre(s);
    ConsumedIs(Octets(code));
    FrontIs(Octets(code));
    OctetsBack(code);
  }

  /** A code point below 2^21 survives its four bytes. */
  lemma FourBytesRoundTrip(cp: nat)
    requires cp < 0x200000
    ensures Consumed(FourBytes(cp)) == 4 && FrontUnits(FourBytes(cp)) == UnitsOfCodePoint(cp)
  {
    FourBytesAreOctets(cp);
    ConsumedIs(FourOctets(cp));
    FrontIs(FourOctets(cp));
    FourOctetsBack(cp);
  }

  /** What comes back for a high surrogate and what follows: themselves only if that is low. */
  lemma PairRoundTrip(high: Unit, next: Unit)
    requires IsHigh(high)
    ensures PairCodePoint(high, next) < 0x200000
    ensures UnitsOfCodePoint(PairCodePoint(high, next)) == [high, next] <==> IsLow(next)
  {
    PairCodePointIs(high, next);
  }

  /** The front of a longer byte string decodes as it does alone. */
  lemma DecodePrefixed(front: seq<Byte>, rest: seq<Byte>)
    requires front != [] && Consumed(front) == |front|
    ensures Decode(front + rest) == FrontUnits(front) + Decode(rest)
  {
    var bytes := front + rest;
    assert Rest(bytes, |front|) == rest;
    assert bytes[0] == front[0];
    assert forall i :: 0 <= i < |front| ==> At(bytes, i) == At(front, i);
    ConsumedIs(front);
    ConsumedIs(bytes);
    FrontIs(front);
    FrontIs(bytes);
  }

  lemma PairFront(s: seq<Unit>)
    requires |s| > 1 && IsHigh(s[0])
    ensures var front := FrontBytes(s);
            && |front| == 4 == Consumed(front)
            && 0 < |FrontUnits(front)| <= 2
            && (FrontUnits(front) == [s[0], s[1]] <==> IsLow(s[1]))
  {
    PairRoundTrip(s[0], s[1]);
    FourBytesRoundTrip(PairCodePoint(s[0], s[1]));
  }

  lemma LoneFront(s: seq<Unit>)
    requires |s| == 1 && IsHigh(s[0])
    ensures var front := FrontBytes(s); |front| == 4 == Consumed(front) && FrontUnits(front) == [0]
  {
    FourBytesRoundTrip(0);
  }

  /** What the encoder makes of the front of a string decodes to at most what it took. */
  lemma FrontRoundTrip(s: seq<Unit>)
    requires s != []
    ensures var front := FrontBytes(s);
            && front != [] && Consumed(front) == |front|
            && 0 < |FrontUnits(front)| <= Taken(s)
            && (FrontUnits(front) == s[..Taken(s)] <==> HasPartner(s, 0))
  {
    if IsHigh(s[0]) && |s| > 1 {
      PairFront(s);
      assert s[..2] == [s[0], s[1]];
    } else {
      if IsHigh(s[0]) {
        LoneFront(s);
      } else {
        UnitRoundTrip(s);
      }
      assert s[..1] == [s[0]];
    }
  }

  lemma {:induction false} DecodedNoLonger(s: seq<Unit>)
    ensures |Decode(Encode(s))| <= |s|
  {
    if s != [] {
      FrontRoundTrip(s);
      DecodePrefixed(FrontBytes(s), Encode(s[Taken(s)..]));
      DecodedNoLonger(s[Taken(s)..]);
    }
  }

  /** Text comes back from its bytes exactly when every high surrogate has its partner. */
  lemma {:induction false} RoundTrip(s: seq<Unit>)
    ensures Decode(Encode(s)) == s <==> Paired(s)
  {
    if s != [] {
      var n := Taken(s);
      var front, rest := FrontUnits(FrontBytes(s)), s[n..];
      FrontRoundTrip(s);
      DecodePrefixed(FrontBytes(s), Encode(rest));
      DecodedNoLonger(rest);
      RoundTrip(rest);
      PrefixesAgree(front, Decode(Encode(rest)), s, n);
    }
  }

  lemma PrefixesAgree(front: seq<Unit>, back: seq<Unit>, s: seq<Unit>, n: nat)
    requires n <= |s| && |front| <= n && |back| <= |s| - n
    ensures front + back == s <==> front == s[..n] && back == s[n..]
  {
    assert s == s[..n] + s[n..];
    if front + back == s {
      assert front == (front + back)[..n] && back == (front + back)[n..];
    }
  }

  // ---- Conformance ----

  /** Paired, and no low surrogate stands alone. */
  predicate WellFormed(s: seq<Unit>) {
    s == [] ||
    if IsHigh(s[0]) then |s| > 1 && IsLow(s[1]) && WellFormed(s[2..])
    else !IsLow(s[0]) && WellFormed(s[1..])
  }

  predicate IsScalar(v: nat) {
    v < 0x110000 && !(0xD800 <= v <= 0xDFFF)
  }

  /** The characters of a string, by section 2.2 of RFC 2781. */
  function Scalars(s: seq<Unit>): (scalars: seq<nat>)
    requires WellFormed(s)
    ensures forall k :: 0 <= k < |scalars| ==> IsScalar(scalars[k])
  {
    if s == [] then [] else [FrontScalar(s)] + Scalars(s[Taken(s)..])
  }

  function AllOctets(scalars: seq<nat>): seq<Byte>
    requires forall k :: 0 <= k < |scalars| ==> IsScalar(scalars[k])
  {
    if scalars == [] then []
    else
      assert IsScalar(scalars[0]);
      Octets(scalars[0]) + AllOctets(scalars[1..])
  }

  /** Ten low bits of each half, above 0x10000. */
  function PairScalar(high: nat, low: nat): nat {
    0x10000 + high % 0x400 * 0x400 + low % 0x400
  }

  lemma PairScalarIs(high: Unit, low: Unit)
    requires IsHigh(high) && IsLow(low)
    ensures PairScalar(high, low) == (high - 0xD800) * 0x400 + (low - 0xDC00) + 0x10000
    ensures 0x10000 <= PairScalar(high, low) < 0x110000
  {
    Arithmetic.DivModUnique(high, 0x400, 54, high - 0xD800);
    Arithmetic.DivModUnique(low, 0x400, 55, low - 0xDC00);
  }

  lemma PairIsScalar(high: Unit, low: Unit)
    requires IsHigh(high) && IsLow(low)
    ensures PairCodePoint(high, low) == PairScalar(high, low)
    ensures 0x10000 <= PairScalar(high, low) < 0x110000
    ensures FourBytes(PairCodePoint(high, low)) == Octets(PairScalar(high, low))
  {
    PairCodePointIs(high, low);
    PairScalarIs(high, low);
    FourBytesAreOctets(PairCodePoint(high, low));
  }

  /** The character at the front of a string. */
  function FrontScalar(s: seq<Unit>): (v: nat)
    requires s != [] && WellFormed(s)
    ensures IsScalar(v)
  {
    if IsHigh(s[0]) then PairScalar(s[0], s[1]) else s[0]
  }

  lemma FrontAsRequired(s: seq<Unit>)
    requires s != [] && WellFormed(s)
    ensures FrontBytes(s) == Octets(FrontScalar(s))
  {
    if IsHigh(s[0]) {
      PairIsScalar(s[0], s[1]);
    } else {
      UnitRoundTrip(s);
    }
  }

  /** Well-formed text is encoded as RFC 3629 requires. */
  lemma {:induction false} EncodesAsRequired(s: seq<Unit>)
    requires WellFormed(s)
    ensures Encode(s) == AllOctets(Scalars(s))
  {
    if s != [] {
      FrontAsRequired(s);
      EncodesAsRequired(s[Taken(s)..]);
      assert Scalars(s)[1..] == Scalars(s[Taken(s)..]);
    }
  }

  // ---- Blobs of several parts ----

  datatype Part = Str(units: seq<Unit>) | Raw(bytes: seq<Byte>)

  function PartBytes(part: Part): seq<Byte> {
    match part
    case Str(units) => Encode(units)
    case Raw(bytes) => bytes
  }

  function Flatten<T>(lists: seq<seq<T>>): seq<T> {
    if lists == [] then [] else lists[0] + Flatten(lists[1..])
  }

  function AllPartBytes(parts: seq<Part>): (all: seq<seq<Byte>>)
    ensures |all| == |parts|
  {
    seq(|parts|, k requires 0 <= k < |parts| => PartBytes(parts[k]))
  }

  lemma {:induction false} FlattenExtend<T>(lists: seq<seq<T>>, last: seq<T>)
    ensures Flatten(lists + [last]) == Flatten(lists) + last
  {
    if lists == [] {
      Seqs.DropNothing(last);
    } else {
      assert (lists + [last])[1..] == lists[1..] + [last];
      FlattenExtend(lists[1..], last);
      Seqs.ConcatAssociative(lists[0], Flatten(lists[1..]), last);
    }
  }

  /** Copy `bytes` over `target` from `offset` on. */
  method Set(target: array<Byte>, bytes: seq<Byte>, offset: nat)
    requires offset + |bytes| <= target.Length
    modifies target
    ensures target[..] == old(target[..offset]) + bytes + old(target[offset + |bytes|..])
  {
    forall k | 0 <= k < |bytes| {
      target[offset + k] := bytes[k];
    }
  }

  method ConcatArrays(arrays: seq<seq<Byte>>) returns (result: array<Byte>)
    ensures fresh(result) && result[..] == Flatten(arrays)
  {
    var total := 0;
    for i := 0 to |arrays|
      invariant total == |Flatten(arrays[..i])|
    {
      FlattenPrefix(arrays, i);
      total := total + |arrays[i]|;
    }
    Seqs.DropNothing(arrays);
    result := new Byte[total](_ => 0);
    var offset := 0;
    for j := 0 to |arrays|
      invariant offset == |Flatten(arrays[..j])| <= result.Length == |Flatten(arrays)|
      invariant fresh(result) && result[..offset] == Flatten(arrays[..j])
    {
      FlattenPrefix(arrays, j);
      FlattenBound(arrays, j + 1);
      Set(result, arrays[j], offset);
      offset := offset + |arrays[j]|;
      assert result[..offset] == Flatten(arrays[..j]) + arrays[j];
    }
    Seqs.DropNothing(arrays);
    assert result[..] == result[..offset];
  }

  lemma FlattenPrefix<T>(lists: seq<seq<T>>, i: nat)
    requires i < |lists|
    ensures Flatten(lists[..i + 1]) == Flatten(lists[..i]) + lists[i]
  {
    assert lists[..i + 1] == lists[..i] + [lists[i]];
    FlattenExtend(lists[..i], lists[i]);
  }

  lemma {:induction false} FlattenBound<T>(lists: seq<seq<T>>, i: nat)
    requires i <= |lists|
    ensures |Flatten(lists[..i])| <= |Flatten(lists)|
    decreases |lists| - i
  {
    if i < |lists| {
      FlattenPrefix(lists, i);
      FlattenBound(lists, i + 1);
    } else {
      Seqs.DropNothing(lists);
    }
  }

  /** The storage of a new blob: the bytes of its parts, one after the other. */
  method NewBlob(parts: seq<Part>) returns (storage: array<Byte>)
    ensures (|parts| == 1 && parts[0].Raw?) || fresh(storage)
    ensures storage[..] == Flatten(AllPartBytes(parts))
  {
    var allParts: seq<seq<Byte>> := [];
    for i := 0 to |parts|
      invariant allParts == AllPartBytes(parts)[..i]
    {
      var bytes;
      match parts[i] {
        case Str(units) => bytes := PartToBytes(units);
        case Raw(raw) => bytes := raw;
      }
      assert AllPartBytes(parts)[..i + 1] == AllPartBytes(parts)[..i] + [bytes];
      allParts := allParts + [bytes];
    }
    assert allParts == AllPartBytes(parts);
    if |allParts| == 0 {
      storage := new Byte[0];
    } else if |allParts| == 1 {
      storage := new Byte[|allParts[0]|](k requires 0 <= k < |allParts[0]| => allParts[0][k]);
      assert Flatten(allParts) == allParts[0] + Flatten([]);
      Seqs.DropNothing(allParts[0]);
    } else {
      storage := ConcatArrays(allParts);
    }
  }

  /** What follows encoded text does not change how it decodes. */
  lemma {:induction false} DecodeEncoded(s: seq<Unit>, rest: seq<Byte>)
    ensures Decode(Encode(s) + rest) == Decode(Encode(s)) + Decode(rest)
  {
    if s == [] {
      Seqs.DropNothing(rest);
      Seqs.DropNothing(Decode(rest));
    } else {
      var front, tail := FrontBytes(s), Encode(s[Taken(s)..]);
      FrontRoundTrip(s);
      Seqs.ConcatAssociative(front, tail, rest);
      DecodePrefixed(front, tail + rest);
      DecodePrefixed(front, tail);
      DecodeEncoded(s[Taken(s)..], rest);
      Seqs.ConcatAssociative(FrontUnits(front), Decode(tail), Decode(rest));
    }
  }

  function Encoded(strings: seq<seq<Unit>>): (all: seq<seq<Byte>>)
    ensures |all| == |strings|
  {
    seq(|strings|, k requires 0 <= k < |strings| => Encode(strings[k]))
  }

  lemma {:induction false} PartsDecodeNoLonger(strings: seq<seq<Unit>>)
    ensures |Decode(Flatten(Encoded(strings)))| <= |Flatten(strings)|
  {
    if strings != [] {
      assert Encoded(strings)[1..] == Encoded(strings[1..]);
      DecodeEncoded(strings[0], Flatten(Encoded(strings[1..])));
      DecodedNoLonger(strings[0]);
      PartsDecodeNoLonger(strings[1..]);
    }
  }

  /**
   * The text of a blob made of strings is their concatenation exactly when
   * each part on its own pairs its surrogates: a pair split across two parts
   * is lost even though the whole text is paired.
   */
  lemma {:induction false} MultiPartText(strings: seq<seq<Unit>>)
    ensures Decode(Flatten(Encoded(strings))) == Flatten(strings)
       <==> forall k :: 0 <= k < |strings| ==> Paired(strings[k])
  {
    if strings != [] {
      var first, others := strings[0], strings[1..];
      assert Encoded(strings)[1..] == Encoded(others);
      DecodeEncoded(first, Flatten(Encoded(others)));
      DecodedNoLonger(first);
      PartsDecodeNoLonger(others);
      RoundTrip(first);
      MultiPartText(others);
      PrefixesAgree(Decode(Encode(first)), Decode(Flatten(Encoded(others))), Flatten(strings), |first|);
      assert Flatten(strings)[..|first|] == first && Flatten(strings)[|first|..] == Flatten(others);
      assert (forall k :: 0 <= k < |strings| ==> Paired(strings[k]))
        <==> Paired(first) && forall k :: 0 <= k < |others| ==> Paired(others[k]) by {
        assert forall k :: 0 <= k < |others| ==> others[k] == strings[k + 1];
        assert forall k :: 1 <= k < |strings| ==> strings[k] == others[k - 1];
      }
    }
  }

  /** Encoding the parts and concatenating equals encoding the concatenation. */
  lemma {:induction false} EncodeConcat(a: seq<Unit>, b: seq<Unit>)
    requires Paired(a)
    ensures Encode(a + b) == Encode(a) + Encode(b)
  {
    if a == [] {
      Seqs.DropNothing(b);
      Seqs.DropNothing(Encode(b));
    } else {
      var n := Taken(a);
      assert (a + b)[n..] == a[n..] + b;
      EncodeConcat(a[n..], b);
      Seqs.ConcatAssociative(FrontBytes(a), Encode(a[n..]), Encode(b));
    }
  }

  lemma {:induction false} EncodeFlatten(strings: seq<seq<Unit>>)
    requires forall k :: 0 <= k < |strings| ==> Paired(strings[k])
    ensures Flatten(Encoded(strings)) == Encode(Flatten(strings))
  {
    if strings != [] {
      assert Encoded(strings)[1..] == Encoded(strings[1..]);
      EncodeFlatten(strings[1..]);
      EncodeConcat(strings[0], Flatten(strings[1..]));
    }
  }
}
