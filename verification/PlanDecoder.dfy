/** The decoder `apply --from-plan` reads a plan file with: UTF-8 or UTF-16, either byte order,
    with or without a byte-order mark (RFC 3629 section 3, RFC 2781 sections 2.1 and 3). */
module PlanDecoder {
  import opened Text

  type Byte = b: int | 0 <= b < 0x100
  /** A JavaScript string is a sequence of these. */
  type CodeUnit = u: int | 0 <= u < 0x10000
  /** A Unicode scalar value. */
  type Scalar = c: int | 0 <= c < 0x110000 && !(0xD800 <= c < 0xE000)

  const UTF8_BOM: seq<Byte> := [0xEF, 0xBB, 0xBF]
  const UTF16LE_BOM: seq<Byte> := [0xFF, 0xFE]
  const UTF16BE_BOM: seq<Byte> := [0xFE, 0xFF]

  datatype ByteOrder = LittleEndian | BigEndian
  datatype Decoded = Decoded(text: seq<CodeUnit>, likelyShellEncodingIssue: bool)
  /** Swapping the bytes of a buffer of odd length throws. */
  datatype DecodeError = InvalidBufferSize

  predicate StartsWithBom(t: seq<CodeUnit>) { t != [] && t[0] == 0xFEFF }

  function StripLeadingBom(t: seq<CodeUnit>): seq<CodeUnit> {
    if StartsWithBom(t) then t[1..] else t
  }

  // ----- Reading bytes as text, and swapping them -----

  /** Little-endian UTF-16: pairs of bytes, an odd last byte dropped. */
  function FromUtf16LE(b: seq<Byte>): seq<CodeUnit> {
    if |b| < 2 then [] else [b[0] as int + 0x100 * b[1] as int] + FromUtf16LE(b[2..])
  }

  function Swapped(b: seq<Byte>): seq<Byte> {
    if |b| < 2 then b else [b[1], b[0]] + Swapped(b[2..])
  }

  predicate Continuation(b: seq<Byte>, i: nat) { i < |b| && 0x80 <= b[i] < 0xC0 }

  /** The second byte of a longer sequence, narrowed after E0, ED, F0 and F4. */
  predicate SecondByte(b: seq<Byte>)
    requires b != []
  {
    Continuation(b, 1) &&
    (b[0] == 0xE0 ==> 0xA0 <= b[1]) && (b[0] == 0xED ==> b[1] < 0xA0) &&
    (b[0] == 0xF0 ==> 0x90 <= b[1]) && (b[0] == 0xF4 ==> b[1] < 0x90)
  }

  /** The UTF-16 form of one scalar value. */
  function ToUnits(c: Scalar): seq<CodeUnit> {
    if c < 0x10000 then [c] else [0xD800 + (c - 0x10000) / 0x400, 0xDC00 + (c - 0x10000) % 0x400]
  }

  /** The bits of the first byte followed by six bits of each continuation byte. */
  function Bits(lead: int, b: seq<Byte>, length: nat): int
    requires 2 <= length <= 4 && length <= |b|
  {
    var two := lead * 0x40 + (b[1] as int - 0x80);
    if length == 2 then two
    else
      var three := two * 0x40 + (b[2] as int - 0x80);
      if length == 3 then three else three * 0x40 + (b[3] as int - 0x80)
  }

  /** One step of reading UTF-8: what it emits and how many bytes it takes.
      An ill-formed sequence gives U+FFFD for its longest well-formed start. */
  function Utf8Step(b: seq<Byte>): (seq<CodeUnit>, nat)
    requires b != []
    ensures 1 <= Utf8Step(b).1 <= |b|
  {
    var bad := [0xFFFD];
    if b[0] < 0x80 then ([b[0]], 1)
    else if 0xC2 <= b[0] < 0xE0 then
      if !SecondByte(b) then (bad, 1) else (ToUnits(Bits(b[0] as int - 0xC0, b, 2)), 2)
    else if 0xE0 <= b[0] < 0xF0 then
      if !SecondByte(b) then (bad, 1)
      else if !Continuation(b, 2) then (bad, 2)
      else (ToUnits(Bits(b[0] as int - 0xE0, b, 3)), 3)
    else if 0xF0 <= b[0] < 0xF5 then
      if !SecondByte(b) then (bad, 1)
      else if !Continuation(b, 2) then (bad, 2)
      else if !Continuation(b, 3) then (bad, 3)
      else (ToUnits(Bits(b[0] as int - 0xF0, b, 4)), 4)
    else (bad, 1)
  }

  function FromUtf8(b: seq<Byte>): seq<CodeUnit>
    decreases |b|
  {
    if b == [] then []
    else
      var (units, taken) := Utf8Step(b);
      units + FromUtf8(b[taken..])
  }

  // ----- The decoder as a function of the bytes -----

  /** Zero bytes at even, respectively odd, positions. */
  function EvenZeros(b: seq<Byte>): nat {
    if |b| < 2 then 0 else (if b[0] == 0 then 1 else 0) + EvenZeros(b[2..])
  }

  function OddZeros(b: seq<Byte>): nat {
    if |b| < 2 then 0 else (if b[1] == 0 then 1 else 0) + OddZeros(b[2..])
  }

  function Threshold(pairs: nat): nat {
    if pairs * 3 / 5 < 2 then 2 else pairs * 3 / 5
  }

  function Inferred(b: seq<Byte>): Option<ByteOrder> {
    if |b| < 4 || |b| % 2 != 0 then None
    else if OddZeros(b) >= Threshold(|b| / 2) && EvenZeros(b) == 0 then Some(LittleEndian)
    else if EvenZeros(b) >= Threshold(|b| / 2) && OddZeros(b) == 0 then Some(BigEndian)
    else None
  }

  function Decode(b: seq<Byte>): Result<Decoded, DecodeError> {
    if UTF8_BOM <= b then Ok(Decoded(StripLeadingBom(FromUtf8(b)), false))
    else if UTF16LE_BOM <= b then Ok(Decoded(StripLeadingBom(FromUtf16LE(b[2..])), true))
    else if UTF16BE_BOM <= b then
      if |b[2..]| % 2 != 0 then Err(InvalidBufferSize)
      else Ok(Decoded(StripLeadingBom(FromUtf16LE(Swapped(b[2..]))), true))
    else match Inferred(b)
      case Some(LittleEndian) => Ok(Decoded(StripLeadingBom(FromUtf16LE(b)), true))
      case Some(BigEndian) => Ok(Decoded(StripLeadingBom(FromUtf16LE(Swapped(b))), true))
      case None => Ok(Decoded(StripLeadingBom(FromUtf8(b)), false))
  }

  // ----- The decoder as the code runs it -----

  method InferUtf16WithoutBom(buffer: array<Byte>) returns (r: Option<ByteOrder>)
    ensures r == Inferred(buffer[..])
  {
    if buffer.Length < 4 || buffer.Length % 2 != 0 {
      return None;
    }
    ghost var b := buffer[..];
    var evenNulls, oddNulls := 0, 0;
    var pairCount := buffer.Length / 2;
    var index := 0;
    while index < buffer.Length
      invariant 0 <= index <= buffer.Length && index % 2 == 0
      invariant evenNulls + EvenZeros(b[index..]) == EvenZeros(b)
      invariant oddNulls + OddZeros(b[index..]) == OddZeros(b)
    {
      assert b[index..][2..] == b[index + 2..];
      if buffer[index] == 0x00 { evenNulls := evenNulls + 1; }
      if buffer[index + 1] == 0x00 { oddNulls := oddNulls + 1; }
      index := index + 2;
    }
    var threshold := Threshold(pairCount);
    if oddNulls >= threshold && evenNulls == 0 { return Some(LittleEndian); }
    if evenNulls >= threshold && oddNulls == 0 { return Some(BigEndian); }
    return None;
  }

  lemma {:induction false} SwappedAt(b: seq<Byte>)
    requires |b| % 2 == 0
    ensures |Swapped(b)| == |b|
    ensures forall i | 0 <= i < |b| / 2 :: Swapped(b)[2 * i] == b[2 * i + 1] && Swapped(b)[2 * i + 1] == b[2 * i]
  {
    if |b| >= 2 {
      SwappedAt(b[2..]);
      forall i | 0 <= i < |b| / 2
        ensures Swapped(b)[2 * i] == b[2 * i + 1] && Swapped(b)[2 * i + 1] == b[2 * i]
      {
        if i > 0 {
          assert Swapped(b)[2 * i] == Swapped(b[2..])[2 * (i - 1)];
          assert Swapped(b)[2 * i + 1] == Swapped(b[2..])[2 * (i - 1) + 1];
        }
      }
    }
  }

  /** Swaps the two bytes of every pair, in place. */
  method Swap16(a: array<Byte>) returns (r: Result<(), DecodeError>)
    modifies a
    ensures r == if a.Length % 2 != 0 then Err(InvalidBufferSize) else Ok(())
    ensures a[..] == if r.Err? then old(a[..]) else Swapped(old(a[..]))
  {
    if a.Length % 2 != 0 {
      return Err(InvalidBufferSize);
    }
    ghost var was := a[..];
    SwappedAt(was);
    var i := 0;
    while i < a.Length
      invariant 0 <= i <= a.Length && i % 2 == 0
      invariant a[..i] == Swapped(was)[..i] && a[i..] == was[i..]
    {
      assert a[i] == was[i] && a[i + 1] == was[i + 1];
      assert Swapped(was)[2 * (i / 2)] == was[2 * (i / 2) + 1];
      assert was[i + 2..] == a[i..][2..];
      a[i], a[i + 1] := a[i + 1], a[i];
      assert a[..i + 2] == a[..i] + [a[i], a[i + 1]];
      assert Swapped(was)[..i + 2] == Swapped(was)[..i] + [was[i + 1], was[i]];
      i := i + 2;
    }
    assert a[..] == a[..i];
    return Ok(());
  }

  /** A copy of the buffer from a position on. */
  method CopyFrom(buffer: array<Byte>, start: nat) returns (copy: array<Byte>)
    requires start <= buffer.Length
    ensures fresh(copy) && copy[..] == buffer[start..]
  {
    copy := new Byte[buffer.Length - start](
      i requires 0 <= i < buffer.Length - start reads buffer => buffer[start + i]);
  }

  /** The caller's buffer is left as it was: swapping happens on a copy. */
  method DecodePlanPayload(buffer: array<Byte>) returns (r: Result<Decoded, DecodeError>)
    ensures r == Decode(buffer[..])
  {
    if UTF8_BOM <= buffer[..] {
      return Ok(Decoded(StripLeadingBom(FromUtf8(buffer[..])), false));
    }
    if UTF16LE_BOM <= buffer[..] {
      return Ok(Decoded(StripLeadingBom(FromUtf16LE(buffer[..][2..])), true));
    }
    if UTF16BE_BOM <= buffer[..] {
      var littleEndianBuffer := CopyFrom(buffer, 2);
      assert littleEndianBuffer[..] == buffer[..][2..];
      assert littleEndianBuffer.Length == |littleEndianBuffer[..]|;
      var swapped := Swap16(littleEndianBuffer);
      if swapped.Err? { return Err(swapped.error); }
      return Ok(Decoded(StripLeadingBom(FromUtf16LE(littleEndianBuffer[..])), true));
    }
    var inferredUtf16 := InferUtf16WithoutBom(buffer);
    if inferredUtf16 == Some(LittleEndian) {
      return Ok(Decoded(StripLeadingBom(FromUtf16LE(buffer[..])), true));
    }
    if inferredUtf16 == Some(BigEndian) {
      var littleEndianBuffer := CopyFrom(buffer, 0);
      assert littleEndianBuffer[..] == buffer[..];
      assert littleEndianBuffer.Length == |littleEndianBuffer[..]|;
      var swapped := Swap16(littleEndianBuffer);
      assert swapped.Ok?;
      return Ok(Decoded(StripLeadingBom(FromUtf16LE(littleEndianBuffer[..])), true));
    }
    return Ok(Decoded(StripLeadingBom(FromUtf8(buffer[..])), false));
  }

  // ----- Encoders: what a program that writes the plan does -----

  function ToUtf16(t: seq<CodeUnit>, order: ByteOrder): seq<Byte> {
    if t == [] then []
    else (if order == LittleEndian then [t[0] % 0x100, t[0] / 0x100] else [t[0] / 0x100, t[0] % 0x100]) +
         ToUtf16(t[1..], order)
  }

  function EncodeScalar(c: Scalar): seq<Byte> {
    if c < 0x80 then [c]
    else if c < 0x800 then [0xC0 + c / 0x40, 0x80 + c % 0x40]
    else if c < 0x10000 then [0xE0 + c / 0x1000, 0x80 + c / 0x40 % 0x40, 0x80 + c % 0x40]
    else [0xF0 + c / 0x40000, 0x80 + c / 0x1000 % 0x40, 0x80 + c / 0x40 % 0x40, 0x80 + c % 0x40]
  }

  function ToUtf8(t: seq<Scalar>): seq<Byte> {
    if t == [] then [] else EncodeScalar(t[0]) + ToUtf8(t[1..])
  }

  function AsUnits(t: seq<Scalar>): seq<CodeUnit> {
    if t == [] then [] else ToUnits(t[0]) + AsUnits(t[1..])
  }

  // ----- UTF-16 -----

  lemma {:induction false} LittleEndianRoundTrip(t: seq<CodeUnit>)
    ensures FromUtf16LE(ToUtf16(t, LittleEndian)) == t
    ensures |ToUtf16(t, LittleEndian)| == 2 * |t|
  {
    if t != [] {
      LittleEndianRoundTrip(t[1..]);
      assert ToUtf16(t, LittleEndian)[2..] == ToUtf16(t[1..], LittleEndian);
    }
  }

  lemma {:induction false} SwapChangesOrder(t: seq<CodeUnit>)
    ensures Swapped(ToUtf16(t, BigEndian)) == ToUtf16(t, LittleEndian)
    ensures Swapped(ToUtf16(t, LittleEndian)) == ToUtf16(t, BigEndian)
  {
    if t != [] {
      SwapChangesOrder(t[1..]);
      assert ToUtf16(t, BigEndian)[2..] == ToUtf16(t[1..], BigEndian);
      assert ToUtf16(t, LittleEndian)[2..] == ToUtf16(t[1..], LittleEndian);
    }
  }

  function OrderMark(order: ByteOrder): seq<Byte> {
    if order == LittleEndian then UTF16LE_BOM else UTF16BE_BOM
  }

  /** With a byte-order mark, in either order: any text comes back, less one leading U+FEFF of its own. */
  lemma MarkedUtf16(t: seq<CodeUnit>, order: ByteOrder)
    ensures Decode(OrderMark(order) + ToUtf16(t, order)) == Ok(Decoded(StripLeadingBom(t), true))
    ensures Decode(OrderMark(order) + ToUtf16(t, order)) == Ok(Decoded(t, true)) <==> !StartsWithBom(t)
  {
    var b := OrderMark(order) + ToUtf16(t, order);
    assert b[2..] == ToUtf16(t, order);
    assert b[0] >= 0xFE;
    LittleEndianRoundTrip(t);
    SwapChangesOrder(t);
    LittleEndianLength(t);
  }

  lemma {:induction false} LittleEndianLength(t: seq<CodeUnit>)
    ensures |ToUtf16(t, BigEndian)| == 2 * |t|
  {
    if t != [] { LittleEndianLength(t[1..]); }
  }

  function Narrow(t: seq<CodeUnit>): nat {
    if t == [] then 0 else (if t[0] < 0x100 then 1 else 0) + Narrow(t[1..])
  }

  function LowZeros(t: seq<CodeUnit>): nat {
    if t == [] then 0 else (if t[0] % 0x100 == 0 then 1 else 0) + LowZeros(t[1..])
  }

  lemma {:induction false} ZerosOfText(t: seq<CodeUnit>)
    ensures EvenZeros(ToUtf16(t, LittleEndian)) == LowZeros(t) == OddZeros(ToUtf16(t, BigEndian))
    ensures OddZeros(ToUtf16(t, LittleEndian)) == Narrow(t) == EvenZeros(ToUtf16(t, BigEndian))
  {
    if t != [] {
      ZerosOfText(t[1..]);
      assert ToUtf16(t, BigEndian)[2..] == ToUtf16(t[1..], BigEndian);
      assert ToUtf16(t, LittleEndian)[2..] == ToUtf16(t[1..], LittleEndian);
    }
  }

  /** At least two of n, and at least 60 percent of them rounded down. */
  predicate MostOf(n: nat, count: nat) { count >= 2 && 5 * count > 3 * n - 5 }

  /** Two or more units, none with a zero low byte, most of them below U+0100. */
  predicate LooksLatin(t: seq<CodeUnit>) {
    |t| >= 2 && LowZeros(t) == 0 && MostOf(|t|, Narrow(t))
  }

  /** Two or more pairs of bytes, with a zero byte in most of them, always at the same place. */
  predicate LooksUtf16(b: seq<Byte>) {
    |b| >= 4 && |b| % 2 == 0 &&
    ((EvenZeros(b) == 0 && MostOf(|b| / 2, OddZeros(b))) || (OddZeros(b) == 0 && MostOf(|b| / 2, EvenZeros(b))))
  }

  /** The byte order read off the zero bytes: the zero bytes are the high ones. */
  lemma InferredExactly(b: seq<Byte>)
    ensures Inferred(b) == None <==> !LooksUtf16(b)
    ensures Inferred(b) == Some(LittleEndian) <==> LooksUtf16(b) && EvenZeros(b) == 0
    ensures Inferred(b) == Some(BigEndian) <==> LooksUtf16(b) && OddZeros(b) == 0
  {
  }

  predicate HasMark(b: seq<Byte>) {
    UTF8_BOM <= b || UTF16LE_BOM <= b || UTF16BE_BOM <= b
  }

  function Other(order: ByteOrder): ByteOrder {
    if order == LittleEndian then BigEndian else LittleEndian
  }

  lemma InferredOfText(t: seq<CodeUnit>, order: ByteOrder)
    ensures Inferred(ToUtf16(t, order)) == Some(order) <==> LooksLatin(t)
    ensures Inferred(ToUtf16(t, order)) == Some(Other(order)) ==> LowZeros(t) > 0 && Narrow(t) == 0
  {
    ZerosOfText(t);
    LittleEndianRoundTrip(t);
    LittleEndianLength(t);
  }

  /** Without a mark a UTF-16 text comes back, flagged as a shell encoding issue, exactly when it has two or more units,
      none with a zero low byte, 60 percent of them rounded down and at least two below U+0100, and its first bytes are
      not one of the three marks. */
  lemma UnmarkedUtf16(t: seq<CodeUnit>, order: ByteOrder)
    ensures Decode(ToUtf16(t, order)) == Ok(Decoded(t, true)) <==>
            |t| >= 2 && LowZeros(t) == 0 && Narrow(t) >= 2 && 5 * Narrow(t) > 3 * |t| - 5 && !HasMark(ToUtf16(t, order))
  {
    var b := ToUtf16(t, order);
    if HasMark(b) {
      MarkLosesText(t, order);
    } else {
      InferredOfText(t, order);
      ReadInOrder(t, order);
      if Inferred(b) == Some(Other(order)) {
        GarbledOrder(t, order);
      }
    }
  }

  function ReadIn(b: seq<Byte>, order: ByteOrder): seq<CodeUnit> {
    FromUtf16LE(if order == LittleEndian then b else Swapped(b))
  }

  lemma ReadInOrder(t: seq<CodeUnit>, order: ByteOrder)
    ensures ReadIn(ToUtf16(t, order), order) == t
    ensures !HasMark(ToUtf16(t, order)) ==> !StartsWithBom(t)
  {
    LittleEndianRoundTrip(t);
    SwapChangesOrder(t);
    if StartsWithBom(t) { assert ToUtf16(t, order)[..2] == OrderMark(order); }
  }

  /** A text whose own first bytes are a mark is never returned whole. */
  lemma MarkLosesText(t: seq<CodeUnit>, order: ByteOrder)
    requires HasMark(ToUtf16(t, order))
    ensures Decode(ToUtf16(t, order)) != Ok(Decoded(t, true))
  {
    var b := ToUtf16(t, order);
    LittleEndianRoundTrip(t);
    LittleEndianLength(t);
    FromUtf16Length(b[2..]);
    SwappedAt(b[2..]);
    FromUtf16Length(Swapped(b[2..]));
  }

  lemma {:induction false} FromUtf16Length(b: seq<Byte>)
    ensures |FromUtf16LE(b)| == |b| / 2
  {
    if |b| >= 2 { FromUtf16Length(b[2..]); }
  }

  /** Read in the wrong order, a text with a zero low byte and no narrow unit differs from itself. */
  lemma GarbledOrder(t: seq<CodeUnit>, order: ByteOrder)
    requires LowZeros(t) > 0 && Narrow(t) == 0
    ensures StripLeadingBom(ReadIn(ToUtf16(t, order), Other(order))) != t
  {
    SwapChangesOrder(t);
    FromUtf16Length(ToUtf16(t, BigEndian));
    LittleEndianLength(t);
    WrongOrderDiffers(t);
  }

  lemma {:induction false} WrongOrderDiffers(t: seq<CodeUnit>)
    requires LowZeros(t) > 0 && Narrow(t) == 0
    ensures FromUtf16LE(ToUtf16(t, BigEndian)) != t
  {
    var read := FromUtf16LE(ToUtf16(t, BigEndian));
    assert ToUtf16(t, BigEndian)[2..] == ToUtf16(t[1..], BigEndian);
    assert read == [t[0] / 0x100 + 0x100 * (t[0] % 0x100)] + FromUtf16LE(ToUtf16(t[1..], BigEndian));
    if t[0] % 0x100 != 0 {
      WrongOrderDiffers(t[1..]);
      assert read[1..] == FromUtf16LE(ToUtf16(t[1..], BigEndian));
    }
  }

  // ----- UTF-8 -----

  lemma EncodedStep(c: Scalar, rest: seq<Byte>)
    ensures Utf8Step(EncodeScalar(c) + rest) == (ToUnits(c), |EncodeScalar(c)|)
  {
    var e := EncodeScalar(c);
    var b := e + rest;
    assert forall i | 0 <= i < |e| :: b[i] == e[i];
    SixBits(c);
    SixBits(c / 0x40);
    SixBits(c / 0x1000);
    if c < 0x80 {
    } else if c < 0x800 {
      assert Bits(b[0] as int - 0xC0, b, 2) == c;
    } else if c < 0x10000 {
      assert c / 0x40 / 0x40 == c / 0x1000;
      assert Bits(b[0] as int - 0xE0, b, 3) == c;
    } else {
      assert c / 0x40 / 0x40 == c / 0x1000 && c / 0x1000 / 0x40 == c / 0x40000;
      assert Bits(b[0] as int - 0xF0, b, 4) == c;
    }
  }

  lemma SixBits(c: int)
    ensures c == c / 0x40 * 0x40 + c % 0x40
  {
  }

  lemma {:induction false} Utf8RoundTrip(t: seq<Scalar>)
    ensures FromUtf8(ToUtf8(t)) == AsUnits(t)
  {
    if t != [] {
      Utf8RoundTrip(t[1..]);
      EncodedStep(t[0], ToUtf8(t[1..]));
      assert ToUtf8(t)[|EncodeScalar(t[0])|..] == ToUtf8(t[1..]);
    }
  }

  /** The first bytes of an encoded text: a UTF-8 mark exactly for U+FEFF, never a UTF-16 mark. */
  lemma EncodedHead(t: seq<Scalar>)
    ensures UTF8_BOM <= ToUtf8(t) <==> t != [] && t[0] == 0xFEFF
    ensures !(UTF16LE_BOM <= ToUtf8(t)) && !(UTF16BE_BOM <= ToUtf8(t))
    ensures StartsWithBom(AsUnits(t)) <==> t != [] && t[0] == 0xFEFF
  {
    if t != [] {
      var c := t[0];
      var e := EncodeScalar(c);
      assert ToUtf8(t)[..|e|] == e;
      assert ToUtf8(t)[0] == e[0];
      EncodedBom(c);
      if UTF8_BOM <= ToUtf8(t) {
        assert e[0] == 0xEF;
        assert |e| == 3;
        assert e == UTF8_BOM;
      }
    }
  }

  lemma EncodedBom(c: Scalar)
    ensures EncodeScalar(c) == UTF8_BOM <==> c == 0xFEFF
    ensures EncodeScalar(c)[0] < 0xF5
    ensures EncodeScalar(c)[0] == 0xEF ==> |EncodeScalar(c)| == 3
  {
    SixBits(c);
    SixBits(c / 0x40);
    if 0x800 <= c < 0x10000 { assert c / 0x40 / 0x40 == c / 0x1000; }
  }

  /** With a UTF-8 mark every text comes back, and is never blamed on the shell. */
  lemma MarkedUtf8(t: seq<Scalar>)
    ensures Decode(UTF8_BOM + ToUtf8(t)) == Ok(Decoded(AsUnits(t), false))
  {
    var marked := [0xFEFF as Scalar] + t;
    assert marked[1..] == t;
    assert ToUtf8(marked) == UTF8_BOM + ToUtf8(t);
    Utf8RoundTrip(marked);
    assert AsUnits(marked) == [0xFEFF] + AsUnits(t);
    assert ([0xFEFF] + AsUnits(t))[1..] == AsUnits(t);
  }

  lemma {:induction false} NoZeroLow(b: seq<Byte>)
    requires EvenZeros(b) == 0
    ensures 0 !in FromUtf16LE(b)
  {
    if |b| >= 2 { NoZeroLow(b[2..]); }
  }

  lemma {:induction false} SwappedZeros(b: seq<Byte>)
    ensures EvenZeros(Swapped(b)) == OddZeros(b)
  {
    if |b| >= 2 {
      SwappedZeros(b[2..]);
      assert Swapped(b)[2..] == Swapped(b[2..]);
    }
  }

  lemma {:induction false} ZerosAreThere(b: seq<Byte>)
    requires EvenZeros(b) > 0 || OddZeros(b) > 0
    ensures 0 in b
  {
    if |b| >= 2 && b[0] != 0 && b[1] != 0 {
      ZerosAreThere(b[2..]);
      assert b == b[..2] + b[2..];
    }
  }

  lemma {:induction false} ZeroUnit(t: seq<Scalar>)
    requires 0 in ToUtf8(t)
    ensures 0 in AsUnits(t)
  {
    if t != [] {
      if t[0] != 0 {
        assert 0 !in EncodeScalar(t[0]);
        ZeroUnit(t[1..]);
      }
    }
  }

  /** Taken for UTF-16, the bytes give a text without U+0000, although the encoded text has one. */
  lemma MistakenText(t: seq<Scalar>, order: ByteOrder)
    requires Inferred(ToUtf8(t)) == Some(order)
    ensures StripLeadingBom(ReadIn(ToUtf8(t), order)) != AsUnits(t)
  {
    var b := ToUtf8(t);
    ZerosAreThere(b);
    ZeroUnit(t);
    if order == LittleEndian {
      NoZeroLow(b);
    } else {
      SwappedZeros(b);
      NoZeroLow(Swapped(b));
    }
    assert 0 !in StripLeadingBom(ReadIn(b, order));
  }

  /** Without a mark a text comes back exactly when it does not start with U+FEFF and its zero bytes do not make it look
      like UTF-16; it is then not flagged, and otherwise the text itself is another. */
  lemma UnmarkedUtf8(t: seq<Scalar>)
    ensures var decoded := Decode(ToUtf8(t));
            var kept := !(t != [] && t[0] == 0xFEFF) && !LooksUtf16(ToUtf8(t));
            decoded.Ok? && (decoded.value.text == AsUnits(t) <==> kept) &&
            (kept ==> !decoded.value.likelyShellEncodingIssue)
  {
    Utf8RoundTrip(t);
    EncodedHead(t);
    InferredExactly(ToUtf8(t));
    if !(t != [] && t[0] == 0xFEFF) {
      match Inferred(ToUtf8(t))
      case Some(order) => MistakenText(t, order);
      case None =>
    }
  }

  lemma {:induction false} NoZeroByte(t: seq<Scalar>)
    requires 0 !in t
    ensures 0 !in ToUtf8(t)
  {
    if t != [] { NoZeroByte(t[1..]); }
  }

  lemma {:induction false} NoZeros(b: seq<Byte>)
    requires 0 !in b
    ensures EvenZeros(b) == 0 && OddZeros(b) == 0
  {
    if |b| >= 2 { NoZeros(b[2..]); }
  }

  /** Text without U+0000 is never taken for UTF-16. */
  lemma TextWithoutNul(t: seq<Scalar>)
    requires 0 !in t && !(t != [] && t[0] == 0xFEFF)
    ensures Decode(ToUtf8(t)) == Ok(Decoded(AsUnits(t), false))
  {
    NoZeroByte(t);
    NoZeros(ToUtf8(t));
    UnmarkedUtf8(t);
  }

  /** The four bytes of "A", U+0000, "B", U+0000 are read as the UTF-16 text "AB". */
  lemma NulsLookLikeUtf16()
    ensures var t: seq<Scalar> := [0x41, 0, 0x42, 0]; Decode(ToUtf8(t)) == Ok(Decoded([0x41, 0x42], true))
  {
    var t: seq<Scalar> := [0x41, 0, 0x42, 0];
    var latin: seq<CodeUnit> := [0x41, 0x42];
    assert t[1..] == [0, 0x42, 0] && t[1..][1..] == [0x42, 0] && t[1..][1..][1..] == [0];
    assert ToUtf8(t) == [0x41, 0, 0x42, 0];
    assert latin[1..] == [0x42];
    assert ToUtf16(latin, LittleEndian) == [0x41, 0, 0x42, 0];
    assert LowZeros(latin[1..]) == 0 && Narrow(latin[1..]) == 1;
    UnmarkedUtf16(latin, LittleEndian);
  }

  // ----- Bytes that are no text -----

  lemma {:induction false} OddByteDropped(b: seq<Byte>, last: Byte)
    requires |b| % 2 == 0
    ensures FromUtf16LE(b + [last]) == FromUtf16LE(b)
  {
    if b != [] {
      OddByteDropped(b[2..], last);
      assert (b + [last])[2..] == b[2..] + [last];
    }
  }

  /** After the little-endian mark an odd last byte is dropped. */
  lemma OddLittleEndian(t: seq<CodeUnit>, last: Byte)
    ensures Decode(UTF16LE_BOM + ToUtf16(t, LittleEndian) + [last]) == Ok(Decoded(StripLeadingBom(t), true))
  {
    var b := UTF16LE_BOM + ToUtf16(t, LittleEndian) + [last];
    LittleEndianRoundTrip(t);
    OddByteDropped(ToUtf16(t, LittleEndian), last);
    assert b[0] == 0xFF && b[2..] == ToUtf16(t, LittleEndian) + [last];
  }

  /** After the big-endian mark it is an error. */
  lemma OddBigEndian(t: seq<CodeUnit>, last: Byte)
    ensures Decode(UTF16BE_BOM + ToUtf16(t, BigEndian) + [last]) == Err(InvalidBufferSize)
  {
    var b := UTF16BE_BOM + ToUtf16(t, BigEndian) + [last];
    LittleEndianLength(t);
    assert b[0] == 0xFE && b[2..] == ToUtf16(t, BigEndian) + [last];
  }

  /** The bytes start with the encoding of this scalar value. */
  predicate Begins(b: seq<Byte>, c: Scalar) { EncodeScalar(c) <= b }

  /** The encoding of some scalar value starts with these bytes. */
  ghost predicate BeginsSome(b: seq<Byte>) { exists c: Scalar :: b <= EncodeScalar(c) }

  lemma TwoByteScalar(x: int, y: int) returns (c: Scalar)
    requires 0xC2 <= x < 0xE0 && 0x80 <= y < 0xC0
    ensures EncodeScalar(c) == [x, y]
  {
    c := (x - 0xC0) * 0x40 + (y - 0x80);
  }

  lemma ThreeByteScalar(x: int, y: int, z: int) returns (c: Scalar)
    requires 0xE0 <= x < 0xF0 && 0x80 <= y < 0xC0 && 0x80 <= z < 0xC0
    requires (x == 0xE0 ==> 0xA0 <= y) && (x == 0xED ==> y < 0xA0)
    ensures EncodeScalar(c) == [x, y, z]
  {
    c := (x - 0xE0) * 0x1000 + (y - 0x80) * 0x40 + (z - 0x80);
    assert c / 0x40 == (x - 0xE0) * 0x40 + (y - 0x80);
  }

  lemma FourByteScalar(x: int, y: int, z: int, w: int) returns (c: Scalar)
    requires 0xF0 <= x < 0xF5 && 0x80 <= y < 0xC0 && 0x80 <= z < 0xC0 && 0x80 <= w < 0xC0
    requires (x == 0xF0 ==> 0x90 <= y) && (x == 0xF4 ==> y < 0x90)
    ensures EncodeScalar(c) == [x, y, z, w]
  {
    c := (x - 0xF0) * 0x40000 + (y - 0x80) * 0x1000 + (z - 0x80) * 0x40 + (w - 0x80);
    assert c / 0x40 == (x - 0xF0) * 0x1000 + (y - 0x80) * 0x40 + (z - 0x80);
    assert c / 0x1000 == (x - 0xF0) * 0x40 + (y - 0x80);
  }

  /** What the bytes of an encoding can be. */
  lemma EncodedBytes(c: Scalar)
    ensures var e := EncodeScalar(c);
            |e| == (if e[0] < 0x80 then 1 else if e[0] < 0xE0 then 2 else if e[0] < 0xF0 then 3 else 4) &&
            (e[0] < 0x80 || 0xC2 <= e[0] < 0xF5) && (|e| > 1 ==> SecondByte(e)) &&
            forall i | 2 <= i < |e| :: Continuation(e, i)
  {
    SixBits(c);
    SixBits(c / 0x40);
    SixBits(c / 0x1000);
    if 0x800 <= c { assert c / 0x40 / 0x40 == c / 0x1000; }
    if 0x10000 <= c { assert c / 0x1000 / 0x40 == c / 0x40000; }
  }

  /** What the first n bytes are if an encoding starts with them. */
  lemma BegunBytes(b: seq<Byte>, n: nat, c: Scalar)
    requires 1 <= n <= |b| && b[..n] <= EncodeScalar(c)
    ensures n <= if b[0] < 0x80 then 1 else if b[0] < 0xE0 then 2 else if b[0] < 0xF0 then 3 else 4
    ensures (b[0] < 0x80 || 0xC2 <= b[0] < 0xF5) && (n > 1 ==> SecondByte(b)) &&
            forall i | 2 <= i < n :: Continuation(b, i)
  {
    var e := EncodeScalar(c);
    EncodedBytes(c);
    forall i | 0 <= i < n ensures b[i] == e[i] { assert b[..n][i] == e[i]; }
    assert forall i | 2 <= i < n :: Continuation(e, i);
  }

  /** Bytes that end an ill-formed start: no encoding goes on like this. */
  lemma NotBegun(b: seq<Byte>, n: nat)
    requires 1 <= n <= |b|
    requires !(b[0] < 0x80 || 0xC2 <= b[0] < 0xF5) || (n == 2 && !SecondByte(b)) || (n > 2 && !Continuation(b, n - 1))
    ensures !BeginsSome(b[..n])
  {
    if c: Scalar :| b[..n] <= EncodeScalar(c) { BegunBytes(b, n, c); }
  }

  /** A well-formed sequence is taken whole. */
  lemma WellFormedTaken(b: seq<Byte>, c: Scalar)
    requires Begins(b, c)
    ensures b != [] && Utf8Step(b) == (ToUnits(c), |EncodeScalar(c)|)
  {
    assert b == EncodeScalar(c) + b[|EncodeScalar(c)|..];
    EncodedStep(c, b[|EncodeScalar(c)|..]);
  }

  /** The bytes start with a whole sequence, by their ranges. */
  predicate WholeSequence(b: seq<Byte>)
    requires b != []
  {
    b[0] < 0x80 ||
    (0xC2 <= b[0] < 0xF5 && SecondByte(b) && (0xE0 <= b[0] ==> Continuation(b, 2)) &&
     (0xF0 <= b[0] ==> Continuation(b, 3)))
  }

  lemma WholeSequenceBegins(b: seq<Byte>) returns (c: Scalar)
    requires b != [] && WholeSequence(b)
    ensures Begins(b, c)
  {
    if b[0] < 0x80 {
      c := b[0];
    } else if b[0] < 0xE0 {
      c := TwoByteScalar(b[0], b[1]);
    } else if b[0] < 0xF0 {
      c := ThreeByteScalar(b[0], b[1], b[2]);
    } else {
      c := FourByteScalar(b[0], b[1], b[2], b[3]);
    }
  }

  lemma TruncatedBegins(b: seq<Byte>, n: nat)
    requires 2 <= n < 4 && n <= |b| && SecondByte(b) && (n == 3 ==> Continuation(b, 2))
    requires 0xE0 <= b[0] < 0xF5 && (n == 3 ==> 0xF0 <= b[0])
    ensures BeginsSome(b[..n])
  {
    var c: Scalar;
    if b[0] < 0xF0 {
      c := ThreeByteScalar(b[0], b[1], 0x80);
    } else {
      c := FourByteScalar(b[0], b[1], if n == 3 then b[2] else 0x80, 0x80);
    }
    assert b[..n] <= EncodeScalar(c);
  }

  /** Where no scalar value's encoding starts, U+FFFD is emitted for the longest start of one, at least one byte. */
  lemma IllFormedTaken(b: seq<Byte>)
    requires b != [] && forall c: Scalar :: !Begins(b, c)
    ensures var (units, taken) := Utf8Step(b);
            units == [0xFFFD] && (taken > 1 ==> BeginsSome(b[..taken])) &&
            (taken < |b| ==> !BeginsSome(b[..taken + 1]))
  {
    if WholeSequence(b) {
      var c := WholeSequenceBegins(b);
      assert false;
    }
    var taken := Utf8Step(b).1;
    if taken > 1 { TruncatedBegins(b, taken); }
    if taken < |b| { NotBegun(b, taken + 1); }
  }
}
