/** The 32-byte RTCP XR feedback packet (ScreamRx::createFeedback, ScreamTx::incomingFeedback). */
module FeedbackPacket {
  import opened Words

  datatype Option<+T> = None | Some(value: T)

  type byte = n: nat | n < 256

  /** What one feedback packet says about one source. */
  datatype Feedback = Feedback(ssrc: u32, timestamp: u32, highest: u16, ack: Word64, ecnCeBytes: u16)

  const PACKET_SIZE := 32

  function Bytes16(n: u16): (b: seq<byte>)
    ensures |b| == 2
  {
    [n / 256, n % 256]
  }

  function Bytes32(n: u32): (b: seq<byte>)
    ensures |b| == 4
  {
    [n / 0x100_0000, n / 0x1_0000 % 256, n / 256 % 256, n % 256]
  }

  function Number16(b: seq<byte>): u16
    requires |b| == 2
  {
    256 * (b[0] as int) + b[1]
  }

  function Number32(b: seq<byte>): u32
    requires |b| == 4
  {
    0x100_0000 * (b[0] as int) + 0x1_0000 * (b[1] as int) + 256 * (b[2] as int) + b[3]
  }

  /** `uint32_t(w >> 32)` and `uint32_t(w & 0xFFFFFFFF)`. */
  function Upper32(w: Word64): u32 {
    HalfBound(w[32..]);
    Value(w[32..])
  }

  function Lower32(w: Word64): u32 {
    HalfBound(w[..32]);
    Value(w[..32])
  }

  lemma HalfBound(half: seq<bool>)
    requires |half| == 32
    ensures Value(half) < 0x1_0000_0000
  {
    ValueBound(half);
    Pow2Of32();
  }

  /** `(uint64_t(upper) << 32) | lower`. */
  function Join64(upper: u32, lower: u32): Word64 {
    Bits(lower, 32) + Bits(upper, 32)
  }

  lemma JoinHalves(w: Word64)
    ensures Join64(Upper32(w), Lower32(w)) == w
  {
    BitsOfValue(w[32..]);
    BitsOfValue(w[..32]);
  }

  /** The RTCP and block headers. */
  function Header(session: u32): (head: seq<byte>)
    ensures |head| == 12
  {
    [0x80, 207] + Bytes16(6) + Bytes32(session) + [0xFF, 0] + Bytes16(4)
  }

  /** The packet the receiver of session `session` builds. */
  function Encode(session: u32, f: Feedback): (buf: seq<byte>)
    ensures |buf| == PACKET_SIZE
  {
    Header(session)
    + Bytes32(f.ssrc) + Bytes16(f.highest) + Bytes16(f.ecnCeBytes)
    + Bytes32(Upper32(f.ack)) + Bytes32(Lower32(f.ack)) + Bytes32(f.timestamp)
  }

  /** What the sender reads from a buffer; None when it discards it. */
  function Decode(buf: seq<byte>): Option<Feedback> {
    if !(|buf| == PACKET_SIZE && buf[0] == 0x80 && buf[1] == 207 && buf[8] == 255) then None
    else
      Some(Feedback(Number32(buf[12..16]), Number32(buf[28..32]), Number16(buf[16..18]),
                    Join64(Number32(buf[20..24]), Number32(buf[24..28])), Number16(buf[18..20])))
  }

  lemma Number16OfBytes(n: u16)
    ensures Number16(Bytes16(n)) == n
  {
  }

  lemma Number32OfBytes(n: u32)
    ensures Number32(Bytes32(n)) == n
  {
    assert n / 0x1_0000 == 256 * (n / 0x100_0000) + n / 0x1_0000 % 256;
    assert n / 256 == 256 * (n / 0x1_0000) + n / 256 % 256;
  }

  /** Where the fields of a packet are, behind a header of 12 bytes. */
  lemma Fields(head: seq<byte>, ssrc: seq<byte>, highest: seq<byte>, ecn: seq<byte>, upper: seq<byte>, lower: seq<byte>,
               timestamp: seq<byte>)
    requires |head| == 12 && |ssrc| == |upper| == |lower| == |timestamp| == 4 && |highest| == |ecn| == 2
    ensures var buf := head + ssrc + highest + ecn + upper + lower + timestamp;
            && buf[..12] == head
            && buf[12..16] == ssrc && buf[16..18] == highest && buf[18..20] == ecn
            && buf[20..24] == upper && buf[24..28] == lower && buf[28..32] == timestamp
            && buf[12..] == ssrc + highest + ecn + upper + lower + timestamp
  {
    var buf := head + ssrc + highest + ecn + upper + lower + timestamp;
    assert buf[12..16] == ssrc;
    assert buf[16..18] == highest && buf[18..20] == ecn;
    assert buf[20..24] == upper;
    assert buf[24..28] == lower;
    assert buf[28..32] == timestamp;
  }

  lemma EncodedFields(session: u32, f: Feedback)
    ensures var buf := Encode(session, f);
            && buf[..12] == Header(session)
            && buf[12..16] == Bytes32(f.ssrc) && buf[16..18] == Bytes16(f.highest) && buf[18..20] == Bytes16(f.ecnCeBytes)
            && buf[20..24] == Bytes32(Upper32(f.ack)) && buf[24..28] == Bytes32(Lower32(f.ack))
            && buf[28..32] == Bytes32(f.timestamp)
            && buf[12..] == Bytes32(f.ssrc) + Bytes16(f.highest) + Bytes16(f.ecnCeBytes) + Bytes32(Upper32(f.ack))
                            + Bytes32(Lower32(f.ack)) + Bytes32(f.timestamp)
  {
    Fields(Header(session), Bytes32(f.ssrc), Bytes16(f.highest), Bytes16(f.ecnCeBytes), Bytes32(Upper32(f.ack)),
           Bytes32(Lower32(f.ack)), Bytes32(f.timestamp));
  }

  /** Every feedback packet is read back exactly as it was built, for every session number. */
  lemma DecodeEncode(session: u32, f: Feedback)
    ensures Decode(Encode(session, f)) == Some(f)
  {
    EncodedFields(session, f);
    var buf := Encode(session, f);
    assert buf[0] == buf[..12][0] && buf[1] == buf[..12][1] && buf[8] == buf[..12][8];
    Number32OfBytes(f.ssrc);
    Number16OfBytes(f.highest);
    Number16OfBytes(f.ecnCeBytes);
    Number32OfBytes(Upper32(f.ack));
    Number32OfBytes(Lower32(f.ack));
    Number32OfBytes(f.timestamp);
    JoinHalves(f.ack);
  }

  lemma Bytes16OfNumber(b: seq<byte>)
    requires |b| == 2
    ensures Bytes16(Number16(b)) == b
  {
  }

  lemma Bytes32OfNumber(b: seq<byte>)
    requires |b| == 4
    ensures Bytes32(Number32(b)) == b
  {
    var n: int := Number32(b);
    var upper: int := 256 * (b[0] as int) + b[1];
    var lower: int := 256 * (b[2] as int) + b[3];
    assert n == 0x1_0000 * upper + lower;
    assert n / 0x1_0000 == upper && n % 0x1_0000 == lower;
    assert n / 0x100_0000 == upper / 256;
    assert n / 256 == 256 * upper + b[2];
  }

  lemma HalvesOfJoin(upper: u32, lower: u32)
    ensures Upper32(Join64(upper, lower)) == upper && Lower32(Join64(upper, lower)) == lower
  {
    var w := Join64(upper, lower);
    assert w[32..] == Bits(upper, 32) && w[..32] == Bits(lower, 32);
    Pow2Of32();
    ValueOfBits(upper, 32);
    ValueOfBits(lower, 32);
  }

  lemma CutFields(buf: seq<byte>)
    requires |buf| == PACKET_SIZE
    ensures buf[12..] == buf[12..16] + buf[16..18] + buf[18..20] + buf[20..24] + buf[24..28] + buf[28..32]
  {
    assert buf == buf[..12] + buf[12..16] + buf[16..18] + buf[18..20] + buf[20..24] + buf[24..28] + buf[28..32];
  }

  /** Decoding loses nothing but the header and the session: an accepted buffer carries exactly
      the content bytes of the packet built from what was decoded. */
  lemma EncodeDecode(buf: seq<byte>, session: u32)
    requires Decode(buf).Some?
    ensures Encode(session, Decode(buf).value)[12..] == buf[12..]
  {
    var f := Decode(buf).value;
    HalvesOfJoin(Number32(buf[20..24]), Number32(buf[24..28]));
    Bytes32OfNumber(buf[12..16]);
    Bytes16OfNumber(buf[16..18]);
    Bytes16OfNumber(buf[18..20]);
    Bytes32OfNumber(buf[20..24]);
    Bytes32OfNumber(buf[24..28]);
    Bytes32OfNumber(buf[28..32]);
    EncodedFields(session, f);
    CutFields(buf);
  }

  // ---- the bytes on the wire ----

  /** The four bytes of buf from i on as one number, most significant byte first. */
  function BigEndian(buf: seq<byte>, i: nat): nat
    requires i + 4 <= |buf|
  {
    0x1_0000 * BigEndian16(buf, i) + BigEndian16(buf, i + 2)
  }

  function BigEndian16(buf: seq<byte>, i: nat): nat
    requires i + 2 <= |buf|
  {
    256 * (buf[i] as int) + buf[i + 1]
  }

  lemma Bytes32AreBigEndian(n: u32)
    ensures BigEndian(Bytes32(n), 0) == n
  {
    Number32OfBytes(n);
  }

  /** The header is that of an extended report of 6 words with one block of type 255 and 4 words; all numbers are in
      network byte order. */
  lemma NetworkOrder(session: u32, f: Feedback)
    ensures var buf := Encode(session, f);
            && |buf| == 32 && buf[0] == 128 && buf[1] == 207 && BigEndian16(buf, 2) == 6
            && BigEndian(buf, 4) == session
            && buf[8] == 255 && buf[9] == 0 && BigEndian16(buf, 10) == 4
            && BigEndian(buf, 12) == f.ssrc
            && BigEndian16(buf, 16) == f.highest && BigEndian16(buf, 18) == f.ecnCeBytes
            && BigEndian(buf, 28) == f.timestamp
  {
    var buf := Encode(session, f);
    EncodedFields(session, f);
    FourAt(buf, 4, session);
    FourAt(buf, 12, f.ssrc);
    FourAt(buf, 28, f.timestamp);
    TwoAt(buf, 16, f.highest);
    TwoAt(buf, 18, f.ecnCeBytes);
    HeaderBytes(buf, session);
  }

  lemma HeaderBytes(buf: seq<byte>, session: u32)
    requires |buf| >= 12 && buf[..12] == Header(session)
    ensures buf[0] == 128 && buf[1] == 207 && buf[2] == 0 && buf[3] == 6 && buf[4..8] == Bytes32(session)
    ensures buf[8] == 255 && buf[9] == 0 && buf[10] == 0 && buf[11] == 4
  {
    var head := Header(session);
    assert forall i :: 0 <= i < 12 ==> buf[i] == head[i];
    assert head[4..8] == Bytes32(session);
    assert buf[4..8] == buf[..12][4..8];
  }

  lemma FourAt(buf: seq<byte>, i: nat, n: u32)
    requires i + 4 <= |buf| && buf[i..i + 4] == Bytes32(n)
    ensures BigEndian(buf, i) == n
  {
    Bytes32AreBigEndian(n);
    var part := buf[i..i + 4];
    assert part[0] == buf[i] && part[1] == buf[i + 1] && part[2] == buf[i + 2] && part[3] == buf[i + 3];
  }

  lemma TwoAt(buf: seq<byte>, i: nat, n: u16)
    requires i + 2 <= |buf| && buf[i..i + 2] == Bytes16(n)
    ensures BigEndian16(buf, i) == n
  {
    var part := buf[i..i + 2];
    assert part[0] == buf[i] && part[1] == buf[i + 1];
  }

  /** The byte of number n with bits 8j to 8j + 7. */
  lemma ByteOfBits(bits: seq<bool>, j: nat)
    requires |bits| == 32 && j < 4
    ensures Value(bits) < 0x1_0000_0000 && Bytes32(Value(bits))[3 - j] == Value(bits[8 * j..8 * j + 8])
  {
    HalfBound(bits);
    var b0, b1, b2, b3 := bits[..8], bits[8..16], bits[16..24], bits[24..];
    FourParts(bits);
    ValueBound(b0);
    ValueBound(b1);
    ValueBound(b2);
    ValueBound(b3);
    FourBytes(Value(b3), Value(b2), Value(b1), Value(b0));
    assert bits[24..32] == b3 && bits[0..8] == b0;
  }

  lemma FourParts(bits: seq<bool>)
    requires |bits| == 32
    ensures Value(bits) == Value(bits[..8]) + 256 * (Value(bits[8..16]) + 256 * (Value(bits[16..24]) + 256 * Value(bits[24..])))
    ensures Pow2(8) == 256
  {
    var b0, b1, b2, b3 := bits[..8], bits[8..16], bits[16..24], bits[24..];
    assert bits == b0 + (b1 + (b2 + b3));
    ValueOfJoined(b0, b1 + (b2 + b3));
    ValueOfJoined(b1, b2 + b3);
    ValueOfJoined(b2, b3);
    assert Pow2(8) == 256;
  }

  lemma FourBytes(a: byte, b: byte, c: byte, d: byte)
    ensures Bytes32(d + 256 * (c + 256 * (b + 256 * a))) == [a, b, c, d]
  {
    Bytes32OfNumber([a, b, c, d]);
  }

  /** Four bytes of a packet that hold 32 bits. */
  lemma DigitOfByte(buf: seq<byte>, i: nat, half: seq<bool>, k: nat)
    requires |half| == 32 && k < 32 && i + 4 <= |buf| && Value(half) < 0x1_0000_0000 && buf[i..i + 4] == Bytes32(Value(half))
    ensures Digit(buf[i + 3 - k / 8], k % 8) <==> half[k]
  {
    var j := k / 8;
    ByteOfBits(half, j);
    var bits := half[8 * j..8 * j + 8];
    assert buf[i + 3 - j] == buf[i..i + 4][3 - j] == Value(bits);
    DigitOfValue(bits, k % 8);
    assert bits[k % 8] == half[k];
  }

  lemma AckBytes(session: u32, f: Feedback)
    ensures var buf := Encode(session, f);
            && Value(f.ack[..32]) < 0x1_0000_0000 && buf[24..24 + 4] == Bytes32(Value(f.ack[..32]))
            && Value(f.ack[32..]) < 0x1_0000_0000 && buf[20..20 + 4] == Bytes32(Value(f.ack[32..]))
  {
    HalfBound(f.ack[..32]);
    HalfBound(f.ack[32..]);
    EncodedFields(session, f);
  }

  lemma ByteIndex(k: nat)
    requires k < 64
    ensures k % 32 % 8 == k % 8 && (if k < 32 then 24 else 20) + 3 - k % 32 / 8 == 27 - k / 8
  {
  }

  /** Bit k of the ACK vector is bit k % 8 of byte 27 - k / 8. */
  lemma AckBit(session: u32, f: Feedback, k: nat)
    requires k < 64
    ensures Digit(Encode(session, f)[27 - k / 8], k % 8) <==> f.ack[k]
  {
    var buf := Encode(session, f);
    AckBytes(session, f);
    var i, half, n := if k < 32 then 24 else 20, if k < 32 then f.ack[..32] else f.ack[32..], k % 32;
    DigitOfByte(buf, i, half, n);
    ByteIndex(k);
    assert buf[i + 3 - n / 8] == buf[27 - k / 8] && half[n] == f.ack[k];
  }
}
