/**
 * The RTP packetizer: the 12-byte fixed header of section 5.1 of RFC 3550
 * (version 2, no padding, no extension, no CSRC, marker set, payload type
 * 100, 16-bit sequence number, 32-bit timestamp, 32-bit SSRC), all fields
 * big-endian, followed by the encoded payload. The same function appears in
 * `server.js` and in `server/mediasoupHandler.js`; both are modelled here.
 */
module Rtp {

  import opened Wrappers
  import opened Buffers

  /** The RTP payload type agreed with the media router for Opus. */
  const PayloadType: nat := 100

  /** Byte 0: version 2 in the top two bits, no padding, no extension, no CSRC. */
  const VersionByte: byte := 0x80

  /** Byte 1: `0x80 | payloadType`, so the marker bit is set on every packet. */
  const MarkerByte: byte := ((0x80 as bv8) | (PayloadType as bv8)) as int

  const HeaderLength: nat := 12

  /** `writeUInt32BE` accepts values below this bound only. */
  const TwoTo32: nat := 0x1_0000_0000

  /** Which `write*BE` call threw, and with what value. */
  datatype RangeError = OutOfRange(offset: nat, value: nat)

  /**
   * The packet `createRtpPacket(payload, sequenceNumber, timestamp, ssrc)`
   * returns, or the `RangeError` it throws when the timestamp or the SSRC does
   * not fit in 32 bits. The sequence number is reduced mod 65536 first, so it
   * never throws.
   */
  function RtpPacket(payload: seq<byte>, sequenceNumber: nat, timestamp: nat, ssrc: nat): Result<seq<byte>, RangeError>
  {
    if timestamp >= TwoTo32 then Failure(OutOfRange(4, timestamp))
    else if ssrc >= TwoTo32 then Failure(OutOfRange(8, ssrc))
    else Success([VersionByte, MarkerByte] + BigEndian(sequenceNumber % 0x1_0000, 2)
                 + BigEndian(timestamp, 4) + BigEndian(ssrc, 4) + payload)
  }

  /**
   * Allocates a zero-filled buffer of `12 + |payload|` bytes and fills it in
   * the source's order: the two constant bytes, the sequence number, the
   * timestamp, the SSRC and then the payload.
   */
  method CreateRtpPacket(payload: seq<byte>, sequenceNumber: nat, timestamp: nat, ssrc: nat)
    returns (r: Result<seq<byte>, RangeError>)
    ensures r == RtpPacket(payload, sequenceNumber, timestamp, ssrc)
    ensures r.Success? ==> |r.value| == HeaderLength + |payload| && r.value[HeaderLength..] == payload
  {
    var packet := new byte[HeaderLength + |payload|];
    packet[0] := VersionByte;
    packet[1] := MarkerByte;
    assert packet[..2] == [VersionByte, MarkerByte];
    var ok := WriteUIntBE(packet, sequenceNumber % 0x1_0000, 2, 2);
    assert Pow256(2) == 0x1_0000;
    ok := WriteUIntBE(packet, timestamp, 4, 4);
    assert Pow256(4) == TwoTo32;
    if !ok {
      return Failure(OutOfRange(4, timestamp));
    }
    ok := WriteUIntBE(packet, ssrc, 8, 4);
    if !ok {
      return Failure(OutOfRange(8, ssrc));
    }
    SetAt(packet, payload, HeaderLength);
    assert packet[..] == packet[..HeaderLength + |payload|];
    r := Success(packet[..]);
  }

  /** The fields of the fixed RTP header (section 5.1 of RFC 3550). */
  datatype RtpHeader = RtpHeader(
    version: nat, padding: bool, extension: bool, csrcCount: nat,
    marker: bool, payloadType: nat,
    sequenceNumber: nat, timestamp: nat, ssrc: nat)

  /**
   * Reads the fixed header and returns it with the bytes after the CSRC list,
   * as a receiver does; None when the packet is too short. Header extensions
   * and padding are not interpreted.
   */
  function ParseRtp(packet: seq<byte>): Option<(RtpHeader, seq<byte>)>
  {
    if |packet| < HeaderLength then None
    else
      var h := RtpHeader(
        packet[0] / 64, (packet[0] / 32) % 2 == 1, (packet[0] / 16) % 2 == 1, packet[0] % 16,
        packet[1] / 128 == 1, packet[1] % 128,
        FromBigEndian(packet[2..4]), FromBigEndian(packet[4..8]), FromBigEndian(packet[8..12]));
      var start := HeaderLength + 4 * h.csrcCount;
      if |packet| < start then None else Some((h, packet[start..]))
  }

  /** The header every packet of this stream carries. */
  function StreamHeader(sequenceNumber: nat, timestamp: nat, ssrc: nat): RtpHeader
  {
    RtpHeader(2, false, false, 0, true, PayloadType, sequenceNumber % 0x1_0000, timestamp, ssrc)
  }

  /**
   * `createRtpPacket` succeeds exactly when the timestamp and the SSRC fit in
   * 32 bits, and a receiver then reads back version 2, no padding, no
   * extension, no CSRC, the marker bit SET, payload type 100, the sequence
   * number mod 65536, the timestamp and the SSRC, followed by the payload
   * verbatim; the packet is `12 + |payload|` bytes long.
   */
  lemma RtpPacketParses(payload: seq<byte>, sequenceNumber: nat, timestamp: nat, ssrc: nat)
    ensures RtpPacket(payload, sequenceNumber, timestamp, ssrc).Success? <==> timestamp < TwoTo32 && ssrc < TwoTo32
    ensures RtpPacket(payload, sequenceNumber, timestamp, ssrc).Success? ==>
      var p := RtpPacket(payload, sequenceNumber, timestamp, ssrc).value;
      && |p| == HeaderLength + |payload|
      && ParseRtp(p) == Some((StreamHeader(sequenceNumber, timestamp, ssrc), payload))
  {
    if timestamp < TwoTo32 && ssrc < TwoTo32 {
      var p := RtpPacket(payload, sequenceNumber, timestamp, ssrc).value;
      var s, ts, id := BigEndian(sequenceNumber % 0x1_0000, 2), BigEndian(timestamp, 4), BigEndian(ssrc, 4);
      assert p[..2] == [VersionByte, MarkerByte];
      assert p[2..4] == s && p[4..8] == ts && p[8..12] == id && p[12..] == payload;
      assert Pow256(2) == 0x1_0000 && Pow256(4) == TwoTo32;
      BigEndianRoundTrip(sequenceNumber % 0x1_0000, 2);
      BigEndianRoundTrip(timestamp, 4);
      BigEndianRoundTrip(ssrc, 4);
      ParseStreamPacket(p, sequenceNumber, timestamp, ssrc, payload);
    }
  }

  /** A packet laid out as this stream's packets are parses to its fields. */
  lemma ParseStreamPacket(p: seq<byte>, sequenceNumber: nat, timestamp: nat, ssrc: nat, payload: seq<byte>)
    requires |p| >= HeaderLength && p[..2] == [VersionByte, MarkerByte]
    requires FromBigEndian(p[2..4]) == sequenceNumber % 0x1_0000
    requires FromBigEndian(p[4..8]) == timestamp && FromBigEndian(p[8..12]) == ssrc
    requires p[HeaderLength..] == payload
    ensures ParseRtp(p) == Some((StreamHeader(sequenceNumber, timestamp, ssrc), payload))
  {
    assert p[0] == p[..2][0] && p[1] == p[..2][1];
    assert MarkerByte == 0xE4;
  }

  /**
   * The sequence-number field is the counter mod 65536: two counters 65536
   * apart give the same packet, so the field returns to 0 after 65536 packets.
   */
  lemma SequenceFieldWraps(payload: seq<byte>, sequenceNumber: nat, timestamp: nat, ssrc: nat)
    ensures RtpPacket(payload, sequenceNumber + 0x1_0000, timestamp, ssrc) == RtpPacket(payload, sequenceNumber, timestamp, ssrc)
    ensures timestamp < TwoTo32 && ssrc < TwoTo32 ==>
      RtpPacket(payload, 0x1_0000, timestamp, ssrc).value[2..4] == [0, 0]
  {
    assert (sequenceNumber + 0x1_0000) % 0x1_0000 == sequenceNumber % 0x1_0000;
  }

  /** The worked packet's header fields, byte by byte. */
  lemma ExampleFields()
    ensures MarkerByte == 0xE4
    ensures BigEndian(5 % 0x1_0000, 2) == [0x00, 0x05]
    ensures BigEndian(9600, 4) == [0x00, 0x00, 0x25, 0x80]
    ensures BigEndian(111111, 4) == [0x00, 0x01, 0xB2, 0x07]
  {
    assert BigEndian(37, 3) == [0x00, 0x00, 0x25];
    assert BigEndian(434, 3) == [0x00, 0x01, 0xB2];
  }

  /**
   * The worked packet: payload type 100, sequence 5, timestamp 9600, SSRC
   * 111111 and payload `01 02` give `80 E4 00 05 00 00 25 80 00 01 B2 07 01 02`.
   */
  lemma RtpPacketExample()
    ensures RtpPacket([0x01, 0x02], 5, 9600, 111111)
         == Success([0x80, 0xE4, 0x00, 0x05, 0x00, 0x00, 0x25, 0x80, 0x00, 0x01, 0xB2, 0x07, 0x01, 0x02])
  {
    ExampleFields();
    var expected: seq<byte> := [0x80, 0xE4, 0x00, 0x05, 0x00, 0x00, 0x25, 0x80, 0x00, 0x01, 0xB2, 0x07, 0x01, 0x02];
    assert [VersionByte, MarkerByte] + [0x00, 0x05] + [0x00, 0x00, 0x25, 0x80]
           + [0x00, 0x01, 0xB2, 0x07] + [0x01, 0x02] == expected;
  }
}
