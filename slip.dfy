/**
 * Framing of the serial bootloader protocol: packet direction, the SLIP
 * escaping pass (END 0xC0, ESC 0xDB, ESC_END 0xDC, ESC_ESC 0xDD, as in
 * RFC 1055), the XOR checksum primitive and the header lookups made when a
 * frame is read back.
 *
 * The escaping functions of the source compare `byte.toInt()` (sign-extended,
 * so -128..127) with the `Int` literals 0xC0, 0xDB, 0xDC and 0xDD (192 and up).
 * Those comparisons never succeed, so as written no byte is ever escaped or
 * unescaped: `EncodeSlip` and `DecodeSlip` below prove what the code does.
 * The functions whose names end in `Intended` are NOT what the source does:
 * they are the RFC 1055 escaping the code evidently means, with its round trip.
 */
module Slip {
  import opened Wrappers
  import opened EnumLookup
  import opened JvmBytes
  import CommandTypes

  const End: bv8 := 0xC0
  const Esc: bv8 := 0xDB
  const EscEnd: bv8 := 0xDC
  const EscEsc: bv8 := 0xDD

  /** The exceptions the packet code can throw. */
  datatype PacketError =
    | UnknownDirection   // error("unknown direction")
    | UnknownCommand     // error("unknown command")
    | BufferUnderflow    // BufferUnderflowException from ByteBuffer.get/getInt
    | IndexOutOfBounds   // ArrayIndexOutOfBoundsException reading past the input
    | NotImplemented     // NotImplementedError from TODO(...)

  datatype Direction = Request | Response

  const DirectionEntries: seq<Direction> := [Request, Response]

  function DirectionValue(d: Direction): bv8 {
    match d
    case Request => 0x00
    case Response => 0x01
  }

  /** `Direction.getByValue`. */
  function DirectionGetByValue(b: bv8): Option<Direction> {
    AssociateBy(DirectionEntries, DirectionValue, b)
  }

  /** REQUEST is 0x00, RESPONSE is 0x01, and every other byte is null. */
  lemma DirectionGetByValueTable(b: bv8)
    ensures DirectionGetByValue(b) ==
      if b == 0x00 then Some(Request) else if b == 0x01 then Some(Response) else None
  {
    assert DistinctKeys(DirectionEntries, DirectionValue);
    AssociateByFindsEntry(DirectionEntries, DirectionValue, Request);
    AssociateByFindsEntry(DirectionEntries, DirectionValue, Response);
  }

  lemma DirectionGetByValueOfValue(d: Direction)
    ensures DirectionGetByValue(DirectionValue(d)) == Some(d)
  {
    DirectionGetByValueTable(DirectionValue(d));
  }

  // ----- encodeSLIP / decodeSLIP as written -----

  /** What the `when` in `encodeSLIP` writes for the `Int` it is given. */
  function EncodeByte(v: int): seq<bv8> {
    if v == 0xC0 then [Esc, EscEnd]
    else if v == 0xDB then [Esc, EscEsc]
    else [LowByte(v)]
  }

  /** `encodeSLIP`: as written, the input wrapped in END bytes and not escaped. */
  method EncodeSlip(input: seq<bv8>) returns (output: seq<bv8>)
    ensures output == [End] + input + [End]
    ensures output[0] == End && output[|output| - 1] == End
  {
    output := [End];
    for i := 0 to |input|
      invariant output == [End] + input[..i]
    {
      ToIntBelow128(input[i], 0xC0);
      ToIntBelow128(input[i], 0xDB);
      LowByteOfToInt(input[i]);
      output := output + EncodeByte(ToInt(input[i]));
      assert input[..i + 1] == input[..i] + [input[i]];
    }
    output := output + [End];
    assert input[..|input|] == input;
  }

  /**
   * One step of the `decodeSLIP` loop for the byte value `v` (sign-extended)
   * and the value of the byte after it, if any: the bytes written and the
   * number of input bytes consumed, or None where `input[i]` is read past the end.
   */
  function DecodeStep(v: int, next: Option<int>): Option<(seq<bv8>, nat)> {
    if v == 0xDB then
      match next
      case None => None
      case Some(n) =>
        Some((if n == 0xDC then [End] else if n == 0xDD then [Esc] else [], 2))
    else
      Some(([LowByte(v)], 1))
  }

  /** `decodeSLIP`: as written, the identity; it never fails and strips no delimiter. */
  method DecodeSlip(input: seq<bv8>) returns (r: Result<seq<bv8>, PacketError>)
    ensures r == Success(input)
  {
    var output: seq<bv8> := [];
    var i := 0;
    while i < |input|
      invariant 0 <= i <= |input|
      invariant output == input[..i]
    {
      var next := if i + 1 < |input| then Some(ToInt(input[i + 1])) else None;
      ToIntBelow128(input[i], 0xDB);
      LowByteOfToInt(input[i]);
      match DecodeStep(ToInt(input[i]), next) {
        case None =>
          return Failure(IndexOutOfBounds);
        case Some((written, consumed)) =>
          output := output + written;
          i := i + consumed;
      }
      assert output == input[..i];
    }
    assert input[..i] == input;
    return Success(output);
  }

  // ----- calculateChecksum -----

  const ChecksumSeed: bv8 := 0xEF

  /** The XOR of all bytes. */
  function XorAll(data: seq<bv8>): bv8 {
    if data == [] then 0 else XorAll(data[..|data| - 1]) ^ data[|data| - 1]
  }

  /** `calculateChecksum`: 0xEF XOR-ed with every byte (0xEF for no bytes). */
  method CalculateChecksum(data: seq<bv8>) returns (checksum: bv8)
    ensures checksum == ChecksumSeed ^ XorAll(data)
  {
    checksum := ChecksumSeed;
    for i := 0 to |data|
      invariant checksum == ChecksumSeed ^ XorAll(data[..i])
    {
      assert data[..i + 1][..i] == data[..i];
      checksum := checksum ^ data[i];
    }
    assert data[..|data|] == data;
  }

  lemma {:induction false} XorAllConcat(a: seq<bv8>, b: seq<bv8>)
    ensures XorAll(a + b) == XorAll(a) ^ XorAll(b)
  {
    if b == [] {
      assert a + b == a;
    } else {
      assert (a + b)[..|a + b| - 1] == a + b[..|b| - 1];
      XorAllConcat(a, b[..|b| - 1]);
    }
  }

  lemma XorSwap(l: bv8, x: bv8, r: bv8)
    ensures (l ^ x) ^ r == (l ^ r) ^ x
  {
  }

  lemma XorAllSplit(b: seq<bv8>, i: nat)
    requires i < |b|
    ensures XorAll(b) == XorAll(b[..i] + [b[i]]) ^ XorAll(b[i + 1..])
  {
    var l, r := b[..i] + [b[i]], b[i + 1..];
    SplitAt(b, i);
    XorAllConcat(l, r);
  }

  lemma SplitAt(b: seq<bv8>, i: nat)
    requires i < |b|
    ensures b == (b[..i] + [b[i]]) + b[i + 1..]
  {
  }

  lemma XorAllSnoc(s: seq<bv8>, x: bv8)
    ensures XorAll(s + [x]) == XorAll(s) ^ x
  {
    assert (s + [x])[..|s|] == s;
  }

  /** Taking one byte out of the middle changes the XOR by that byte. */
  lemma XorAllWithout(b: seq<bv8>, i: nat)
    requires i < |b|
    ensures XorAll(b) == XorAll(b[..i] + b[i + 1..]) ^ b[i]
  {
    XorAllSplit(b, i);
    XorAllSnoc(b[..i], b[i]);
    XorAllConcat(b[..i], b[i + 1..]);
    XorSwap(XorAll(b[..i]), b[i], XorAll(b[i + 1..]));
  }

  /** The last byte of `a` occurs in any `b` with the same multiset of bytes; `i` is one place. */
  lemma LastOccursIn(a: seq<bv8>, b: seq<bv8>) returns (i: nat)
    requires a != [] && multiset(a) == multiset(b)
    ensures i < |b| && b[i] == a[|a| - 1]
  {
    assert a[|a| - 1] in multiset(a);
    i :| 0 <= i < |b| && b[i] == a[|a| - 1];
  }

  /** Removing the last byte of `a` and the same byte at `i` from `b` keeps the multisets equal. */
  lemma MultisetRemoveOne(a: seq<bv8>, b: seq<bv8>, i: nat)
    requires a != [] && i < |b| && b[i] == a[|a| - 1]
    requires multiset(a) == multiset(b)
    ensures multiset(a[..|a| - 1]) == multiset(b[..i] + b[i + 1..])
  {
    var x, a', rest := a[|a| - 1], a[..|a| - 1], b[..i] + b[i + 1..];
    assert a == a' + [x];
    assert b == b[..i] + [x] + b[i + 1..];
    assert multiset(b) == multiset(rest) + multiset{x};
    assert multiset(a) == multiset(a') + multiset{x};
    assert multiset(a') == (multiset(a') + multiset{x}) - multiset{x};
    assert multiset(rest) == (multiset(rest) + multiset{x}) - multiset{x};
  }

  /** Equal XORs without two equal bytes stay equal with them. */
  lemma ChecksumStep(a: seq<bv8>, b: seq<bv8>, i: nat)
    requires a != [] && i < |b| && b[i] == a[|a| - 1]
    requires XorAll(a[..|a| - 1]) == XorAll(b[..i] + b[i + 1..])
    ensures XorAll(a) == XorAll(b)
  {
    XorAllWithout(b, i);
  }

  /** The checksum does not depend on the order of the bytes. */
  lemma {:induction false} ChecksumIgnoresOrder(a: seq<bv8>, b: seq<bv8>)
    requires multiset(a) == multiset(b)
    ensures XorAll(a) == XorAll(b)
    ensures ChecksumSeed ^ XorAll(a) == ChecksumSeed ^ XorAll(b)
  {
    if a != [] {
      var i := LastOccursIn(a, b);
      MultisetRemoveOne(a, b, i);
      ChecksumIgnoresOrder(a[..|a| - 1], b[..i] + b[i + 1..]);
      ChecksumStep(a, b, i);
    } else {
      assert |b| == |multiset(b)| == 0;
    }
  }


  // ----- fromByteArray's lookups -----

  /**
   * What `fromByteArray` reads from the decoded bytes before it builds a
   * packet: the direction (first byte), then the command (second byte).
   */
  function ReadHeader(decoded: seq<bv8>): Result<(Direction, CommandTypes.CommandType), PacketError> {
    if |decoded| < 1 then Failure(BufferUnderflow)
    else match DirectionGetByValue(decoded[0])
      case None => Failure(UnknownDirection)
      case Some(d) =>
        if |decoded| < 2 then Failure(BufferUnderflow)
        else match CommandTypes.GetByValue(decoded[1])
          case None => Failure(UnknownCommand)
          case Some(c) => Success((d, c))
  }

  /** Reading a header succeeds exactly on a known direction byte followed by a known command byte. */
  lemma ReadHeaderAccepts(decoded: seq<bv8>)
    ensures ReadHeader(decoded).Success? <==>
      |decoded| >= 2 && decoded[0] <= 0x01 && 0x02 <= decoded[1] <= 0x0a
    ensures |decoded| == 0 ==> ReadHeader(decoded) == Failure(BufferUnderflow)
    ensures |decoded| >= 1 && decoded[0] > 0x01 ==> ReadHeader(decoded) == Failure(UnknownDirection)
    ensures |decoded| == 1 && decoded[0] <= 0x01 ==> ReadHeader(decoded) == Failure(BufferUnderflow)
    ensures |decoded| >= 2 && decoded[0] <= 0x01 && !(0x02 <= decoded[1] <= 0x0a) ==>
      ReadHeader(decoded) == Failure(UnknownCommand)
  {
    if |decoded| >= 1 {
      DirectionGetByValueTable(decoded[0]);
      if |decoded| >= 2 {
        CommandTypes.GetByValueDomain(decoded[1]);
      }
    }
  }

  /** As written, a frame read back starts with its END byte, so every frame fails with "unknown direction". */
  lemma AsWrittenFrameIsRejected(buffer: seq<bv8>)
    ensures ReadHeader([End] + buffer + [End]) == Failure(UnknownDirection)
  {
    ReadHeaderAccepts([End] + buffer + [End]);
  }

  // ----- RFC 1055 escaping as intended (not what the source does) -----

  /** The escape sequence for one byte, in the intended codec. */
  function EscapeByteIntended(b: bv8): seq<bv8> {
    if b == End then [Esc, EscEnd] else if b == Esc then [Esc, EscEsc] else [b]
  }

  /** Intended escaping (not what the source does): END and ESC become two-byte sequences. */
  function EscapeIntended(x: seq<bv8>): seq<bv8> {
    if x == [] then [] else EscapeByteIntended(x[0]) + EscapeIntended(x[1..])
  }

  /** Intended framing (not what the source does). */
  function FrameIntended(x: seq<bv8>): seq<bv8> {
    [End] + EscapeIntended(x) + [End]
  }

  /** Intended unescaping (not what the source does); None on a bare END or a bad escape. */
  function UnescapeIntended(x: seq<bv8>): Option<seq<bv8>>
    decreases |x|
  {
    if x == [] then Some([])
    else if x[0] == End then None
    else if x[0] == Esc then
      if |x| < 2 then None
      else if x[1] != EscEnd && x[1] != EscEsc then None
      else match UnescapeIntended(x[2..])
        case None => None
        case Some(rest) => Some([if x[1] == EscEnd then End else Esc] + rest)
    else match UnescapeIntended(x[1..])
      case None => None
      case Some(rest) => Some([x[0]] + rest)
  }

  /** Intended unframing (not what the source does): strip the END bytes, then unescape. */
  function UnframeIntended(frame: seq<bv8>): Option<seq<bv8>> {
    if |frame| >= 2 && frame[0] == End && frame[|frame| - 1] == End
    then UnescapeIntended(frame[1..|frame| - 1])
    else None
  }

  /** No END byte survives the intended escaping, so END only delimits frames. */
  lemma {:induction false} EscapedHasNoEnd(x: seq<bv8>)
    ensures End !in EscapeIntended(x)
  {
    if x != [] {
      EscapedHasNoEnd(x[1..]);
    }
  }

  lemma {:induction false} UnescapeEscapeIntended(x: seq<bv8>)
    ensures UnescapeIntended(EscapeIntended(x)) == Some(x)
  {
    if x != [] {
      var e := EscapeIntended(x);
      var tail := EscapeIntended(x[1..]);
      UnescapeEscapeIntended(x[1..]);
      if x[0] == End || x[0] == Esc {
        assert e[2..] == tail;
      } else {
        assert e[1..] == tail;
      }
      assert x == [x[0]] + x[1..];
    }
  }

  /** The intended codec round-trips every byte string, including ones holding 0xC0 and 0xDB. */
  lemma IntendedRoundTrip(x: seq<bv8>)
    ensures UnframeIntended(FrameIntended(x)) == Some(x)
    ensures End !in FrameIntended(x)[1..|FrameIntended(x)| - 1]
  {
    var f := FrameIntended(x);
    assert f[1..|f| - 1] == EscapeIntended(x);
    UnescapeEscapeIntended(x);
    EscapedHasNoEnd(x);
  }

  /** With the intended codec, a frame's header is read back as written. */
  lemma IntendedHeaderRoundTrip(d: Direction, c: CommandTypes.CommandType, rest: seq<bv8>)
    ensures var decoded := UnframeIntended(FrameIntended([DirectionValue(d), CommandTypes.Value(c)] + rest));
      decoded.Some? && ReadHeader(decoded.value) == Success((d, c))
  {
    var buffer := [DirectionValue(d), CommandTypes.Value(c)] + rest;
    IntendedRoundTrip(buffer);
    DirectionGetByValueOfValue(d);
    CommandTypes.GetByValueOfValue(c);
  }

  /**
   * The byte string [0xC0] shows the discrepancy: as written it is framed as
   * END END END, which the intended decoder rejects, instead of END ESC ESC_END END.
   */
  lemma AsWrittenEndIsNotEscaped()
    ensures [End] + [End] + [End] != FrameIntended([End])
    ensures FrameIntended([End]) == [End, Esc, EscEnd, End]
    ensures UnframeIntended([End] + [End] + [End]) == None
  {
    assert EscapeIntended([End]) == [Esc, EscEnd] + EscapeIntended([]);
    assert [End, End, End][1..2] == [End];
  }
}
