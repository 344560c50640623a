/**
 * The UDP message handler of `server.js` and of `setupMediasoup` in
 * `server/mediasoupHandler.js` (the two are the same code): every completed
 * frame is encoded, packetized with the current `sequenceNumber` and
 * `timestamp`, the counters are advanced, and the packet is sent to the
 * media router's port once that port is known.
 */
module Forwarder {

  import opened Wrappers
  import opened Buffers
  import opened Rtp
  import opened Accumulator

  /** Timestamp units per frame: 20 ms at 48 kHz. */
  const FrameDuration: nat := 960

  /** The SSRC registered with the media router's producer. */
  const Ssrc: nat := 111111

  /** Packets go to the router on the local host. */
  const Loopback: string := "127.0.0.1"

  /** The handler's two counters, both starting at 0. */
  datatype Counters = Counters(sequenceNumber: nat, timestamp: nat)

  /** A UDP port number; `dgram`'s `send` refuses anything outside 0..65535. */
  type Port = p: nat | p < 65536

  /** A packet handed to `rtpSocket.send`, with its destination port and host. */
  datatype Datagram = Datagram(packet: seq<byte>, port: Port, host: string)

  /**
   * The timestamp after a packet has been built: as written the counter just
   * grows; with `wrap` it is kept modulo 2^32 as RTP timestamps are.
   */
  function Advance(timestamp: nat, wrap: bool): nat
  {
    if wrap then (timestamp + FrameDuration) % TwoTo32 else timestamp + FrameDuration
  }

  /**
   * One pass of the `for (const frame of frames)` body, given what the
   * encoder did with the frame (None when it threw). A failed encode leaves
   * both counters alone. Otherwise `sequenceNumber++` is evaluated as an
   * argument, so the sequence number advances even when `createRtpPacket`
   * then throws its `RangeError`; that throw is caught by the same `catch`
   * and skips the timestamp update.
   */
  function Step(c: Counters, encoded: Option<seq<byte>>, ssrc: nat, wrap: bool): (Counters, Option<seq<byte>>)
  {
    match encoded
    case None => (c, None)
    case Some(opus) =>
      match RtpPacket(opus, c.sequenceNumber, c.timestamp, ssrc)
      case Failure(_) => (Counters(c.sequenceNumber + 1, c.timestamp), None)
      case Success(packet) => (Counters(c.sequenceNumber + 1, Advance(c.timestamp, wrap)), Some(packet))
  }

  /** The loop over a list of encoder outcomes: final counters and the packets built, in order. */
  function Run(c: Counters, encoded: seq<Option<seq<byte>>>, ssrc: nat, wrap: bool): (Counters, seq<seq<byte>>)
    decreases |encoded|
  {
    if encoded == [] then (c, [])
    else
      var (c', packets) := Run(c, encoded[..|encoded| - 1], ssrc, wrap);
      var (c'', packet) := Step(c', encoded[|encoded| - 1], ssrc, wrap);
      (c'', packets + if packet.Some? then [packet.value] else [])
  }

  /** The payloads of the frames whose encode succeeded, in order. */
  function Payloads(encoded: seq<Option<seq<byte>>>): seq<seq<byte>>
    decreases |encoded|
  {
    if encoded == [] then []
    else
      var last := encoded[|encoded| - 1];
      Payloads(encoded[..|encoded| - 1]) + if last.Some? then [last.value] else []
  }

  /** What the encoder makes of each frame, in order. */
  function EncodeAll<T>(encode: seq<T> -> Option<seq<byte>>, frames: seq<seq<T>>): seq<Option<seq<byte>>>
  {
    seq(|frames|, i requires 0 <= i < |frames| => encode(frames[i]))
  }

  /** The datagrams sent for `packets`: all of them once the port is known, none before. */
  function Deliveries(packets: seq<seq<byte>>, transportPort: Option<Port>): seq<Datagram>
  {
    if transportPort.Some? && transportPort.value != 0
    then seq(|packets|, i requires 0 <= i < |packets| => Datagram(packets[i], transportPort.value, Loopback))
    else []
  }

  /** Step on a frame that encoded, in terms of what `createRtpPacket` did. */
  lemma StepBuilds(c: Counters, opus: seq<byte>, ssrc: nat, wrap: bool, r: Result<seq<byte>, RangeError>)
    requires r == RtpPacket(opus, c.sequenceNumber, c.timestamp, ssrc)
    ensures Step(c, Some(opus), ssrc, wrap)
         == if r.Success? then (Counters(c.sequenceNumber + 1, Advance(c.timestamp, wrap)), Some(r.value))
            else (Counters(c.sequenceNumber + 1, c.timestamp), None)
  {
  }

  /** Running one element further along a list. */
  lemma RunPrefixStep(c: Counters, encoded: seq<Option<seq<byte>>>, k: nat, ssrc: nat, wrap: bool)
    requires k < |encoded|
    ensures var (c', packets) := Run(c, encoded[..k], ssrc, wrap);
      var (c'', packet) := Step(c', encoded[k], ssrc, wrap);
      Run(c, encoded[..k + 1], ssrc, wrap) == (c'', packets + if packet.Some? then [packet.value] else [])
  {
    assert encoded[..k + 1][..k] == encoded[..k];
  }

  lemma DeliveriesAppend(packets: seq<seq<byte>>, more: seq<seq<byte>>, transportPort: Option<Port>)
    ensures Deliveries(packets + more, transportPort) == Deliveries(packets, transportPort) + Deliveries(more, transportPort)
  {
  }

  function Min(a: nat, b: nat): nat
  {
    if a < b then a else b
  }

  /**
   * How many more packets the unwrapped timestamp allows: `createRtpPacket`
   * refuses a timestamp of 2^32 or more.
   */
  function Room(timestamp: nat): nat
  {
    if timestamp < TwoTo32 then (TwoTo32 - 1 - timestamp) / FrameDuration + 1 else 0
  }

  /** The `m`-th packet after `timestamp` still fits in 32 bits exactly when `m < Room(timestamp)`. */
  lemma RoomSpec(timestamp: nat, m: nat)
    ensures timestamp + FrameDuration * m < TwoTo32 <==> m < Room(timestamp)
  {
  }

  /**
   * The loop as written. Every frame whose encode succeeds advances the
   * sequence number by one; the first `Room(timestamp)` of them produce
   * packets, the `i`-th carrying that frame's payload, sequence number
   * `sequenceNumber + i` and timestamp `timestamp + 960 * i`; the timestamp
   * advances by 960 per packet built.
   */
  lemma {:induction false} RunAsWritten(c: Counters, encoded: seq<Option<seq<byte>>>, ssrc: nat)
    requires ssrc < TwoTo32
    ensures var (c', packets) := Run(c, encoded, ssrc, false);
      && c'.sequenceNumber == c.sequenceNumber + |Payloads(encoded)|
      && |packets| == Min(|Payloads(encoded)|, Room(c.timestamp))
      && c'.timestamp == c.timestamp + FrameDuration * |packets|
      && forall i | 0 <= i < |packets| ::
           RtpPacket(Payloads(encoded)[i], c.sequenceNumber + i, c.timestamp + FrameDuration * i, ssrc)
             == Success(packets[i])
    decreases |encoded|
  {
    if encoded != [] {
      var pre := encoded[..|encoded| - 1];
      RunAsWritten(c, pre, ssrc);
      var (c', packets') := Run(c, pre, ssrc, false);
      var m' := |packets'|;
      RoomSpec(c.timestamp, m');
      var last := encoded[|encoded| - 1];
      if last.Some? {
        var ps := Payloads(encoded);
        assert ps == Payloads(pre) + [last.value];
        RtpPacketParses(last.value, c'.sequenceNumber, c'.timestamp, ssrc);
        if m' < Room(c.timestamp) {
          var packets := Run(c, encoded, ssrc, false).1;
          assert packets == packets' + [RtpPacket(last.value, c'.sequenceNumber, c'.timestamp, ssrc).value];
          assert FrameDuration * (m' + 1) == FrameDuration * m' + FrameDuration;
          forall i | 0 <= i < |packets|
            ensures RtpPacket(ps[i], c.sequenceNumber + i, c.timestamp + FrameDuration * i, ssrc) == Success(packets[i])
          {
            if i < m' {
              assert ps[i] == Payloads(pre)[i] && packets[i] == packets'[i];
            }
          }
        }
      }
    }
  }

  /**
   * From the initial counters, `N` successfully encoded frames leave
   * `sequenceNumber == N`; while `N` is at most 4473925 they also leave
   * `timestamp == 960 * N` and every one of them produced a packet.
   */
  lemma RunFromStart(encoded: seq<Option<seq<byte>>>)
    ensures var (c', packets) := Run(Counters(0, 0), encoded, Ssrc, false);
      && c'.sequenceNumber == |Payloads(encoded)|
      && (|Payloads(encoded)| <= 4473925 ==>
            c'.timestamp == FrameDuration * |Payloads(encoded)| && |packets| == |Payloads(encoded)|)
  {
    RunAsWritten(Counters(0, 0), encoded, Ssrc);
    assert Room(0) == 4473925;
  }

  /**
   * The flaw: the timestamp is never wrapped, so from the initial counters the
   * 4473926th successfully encoded frame (about 24.85 hours of audio) meets a
   * timestamp of 4294968000; `writeUInt32BE` throws, the `catch` reports an
   * encode failure, the timestamp never moves again and no packet is built
   * from then on.
   */
  lemma TimestampStalls(encoded: seq<Option<seq<byte>>>)
    requires |Payloads(encoded)| > 4473925
    ensures var (c', packets) := Run(Counters(0, 0), encoded, Ssrc, false);
      && |packets| == 4473925 < |Payloads(encoded)|
      && c'.timestamp == 4294968000 >= TwoTo32
  {
    RunAsWritten(Counters(0, 0), encoded, Ssrc);
    assert Room(0) == 4473925;
  }

  lemma ModAdd(a: nat, b: nat, m: nat)
    requires m > 0
    ensures (a % m + b) % m == (a + b) % m
  {
    var q := a / m;
    assert a == q * m + a % m;
    assert a + b == (a % m + b) + q * m;
    ModShift(a % m + b, q, m);
  }

  lemma ModShift(x: nat, q: nat, m: nat)
    requires m > 0
    ensures (x + q * m) % m == x % m
  {
    DivModUnique(x + q * m, m, x / m + q, x % m);
    assert x == (x / m) * m + x % m;
    assert (x / m + q) * m == (x / m) * m + q * m;
  }

  /** One more packet on the wrapped timestamp. */
  lemma WrapStep(timestamp: nat, m: nat)
    ensures Advance((timestamp + FrameDuration * m) % TwoTo32, true) == (timestamp + FrameDuration * (m + 1)) % TwoTo32
  {
    ModAdd(timestamp + FrameDuration * m, FrameDuration, TwoTo32);
    assert FrameDuration * (m + 1) == FrameDuration * m + FrameDuration;
  }

  /** The counters and the packet count of the wrapped loop. */
  lemma {:induction false} RunWrappedCount(c: Counters, encoded: seq<Option<seq<byte>>>, ssrc: nat)
    requires c.timestamp < TwoTo32 && ssrc < TwoTo32
    ensures var (c', packets) := Run(c, encoded, ssrc, true);
      && c'.sequenceNumber == c.sequenceNumber + |Payloads(encoded)|
      && |packets| == |Payloads(encoded)|
      && c'.timestamp == (c.timestamp + FrameDuration * |packets|) % TwoTo32
    decreases |encoded|
  {
    if encoded == [] {
      assert c.timestamp % TwoTo32 == c.timestamp;
    } else {
      var pre := encoded[..|encoded| - 1];
      RunWrappedCount(c, pre, ssrc);
      var (c', packets') := Run(c, pre, ssrc, true);
      var m' := |packets'|;
      var last := encoded[|encoded| - 1];
      if last.Some? {
        WrapStep(c.timestamp, m');
      }
    }
  }

  /**
   * The loop with the timestamp kept modulo 2^32: every successfully encoded
   * frame produces a packet, the `i`-th carrying that frame's payload,
   * sequence number `sequenceNumber + i` and timestamp
   * `(timestamp + 960 * i) mod 2^32`.
   */
  lemma {:induction false} RunWrapped(c: Counters, encoded: seq<Option<seq<byte>>>, ssrc: nat)
    requires c.timestamp < TwoTo32 && ssrc < TwoTo32
    ensures var (c', packets) := Run(c, encoded, ssrc, true);
      && c'.sequenceNumber == c.sequenceNumber + |Payloads(encoded)|
      && |packets| == |Payloads(encoded)|
      && c'.timestamp == (c.timestamp + FrameDuration * |packets|) % TwoTo32
      && forall i | 0 <= i < |packets| ::
           RtpPacket(Payloads(encoded)[i], c.sequenceNumber + i, (c.timestamp + FrameDuration * i) % TwoTo32, ssrc)
             == Success(packets[i])
    decreases |encoded|
  {
    RunWrappedCount(c, encoded, ssrc);
    if encoded != [] {
      var pre := encoded[..|encoded| - 1];
      RunWrapped(c, pre, ssrc);
      var (c', packets') := Run(c, pre, ssrc, true);
      var m' := |packets'|;
      var last := encoded[|encoded| - 1];
      if last.Some? {
        var ps := Payloads(encoded);
        assert ps == Payloads(pre) + [last.value];
        RtpPacketParses(last.value, c'.sequenceNumber, c'.timestamp, ssrc);
        var packets := Run(c, encoded, ssrc, true).1;
        assert packets == packets' + [RtpPacket(last.value, c'.sequenceNumber, c'.timestamp, ssrc).value];
        forall i | 0 <= i < |packets|
          ensures RtpPacket(ps[i], c.sequenceNumber + i, (c.timestamp + FrameDuration * i) % TwoTo32, ssrc) == Success(packets[i])
        {
          if i < m' {
            assert ps[i] == Payloads(pre)[i] && packets[i] == packets'[i];
          }
        }
      }
    }
  }

  /** The handler's state: its accumulator, its encoder, its counters and the router's port. */
  class Bridge<T(0)> {
    const accumulator: AudioAccumulator<T>
    /** `encoder.encode(float32ToInt16(frame), 960)`; None when it throws. */
    const encode: seq<T> -> Option<seq<byte>>
    const ssrc: nat
    /**
     * False for the code as written, whose timestamp grows without bound;
     * true for the corrected handler that keeps it modulo 2^32.
     */
    const wrapTimestamp: bool
    var sequenceNumber: nat
    var timestamp: nat
    /** `transportPort`: undefined until the tuple-discovery timer fires. */
    var transportPort: Option<Port>
    /** Every datagram handed to `rtpSocket.send`, in order. */
    var sent: seq<Datagram>

    ghost predicate Valid()
      reads this, accumulator
    {
      accumulator.Valid()
    }

    constructor (encode: seq<T> -> Option<seq<byte>>, wrapTimestamp: bool)
      ensures Valid() && fresh(accumulator) && fresh(accumulator.buffer)
      ensures accumulator.frameSize == 960 && accumulator.channels == 2 && accumulator.Pending() == []
      ensures this.encode == encode && ssrc == Ssrc && this.wrapTimestamp == wrapTimestamp
      ensures sequenceNumber == 0 && timestamp == 0
      ensures transportPort == None && sent == []
    {
      accumulator := new AudioAccumulator<T>(960, 2);
      this.encode := encode;
      this.wrapTimestamp := wrapTimestamp;
      ssrc := Ssrc;
      sequenceNumber, timestamp := 0, 0;
      transportPort := None;
      sent := [];
    }

    /**
     * The `setTimeout` callback: if the transport has a tuple by then, its
     * local port becomes the destination; otherwise nothing changes.
     */
    method DiscoverTuple(localPort: Option<Port>)
      modifies this
      ensures transportPort == if localPort.Some? then localPort else old(transportPort)
      ensures sequenceNumber == old(sequenceNumber) && timestamp == old(timestamp) && sent == old(sent)
    {
      if localPort.Some? {
        transportPort := localPort;
      }
    }

    /**
     * The `for (const frame of frames)` loop: the counters follow `Run` over
     * the encoder's outcomes whether or not anything is sent, and the packets
     * built are sent, in order, only when the port is known.
     */
    method ForwardFrames(frames: seq<seq<T>>)
      modifies this
      ensures var (c, packets) := Run(old(Counters(sequenceNumber, timestamp)), EncodeAll(encode, frames), ssrc, wrapTimestamp);
        && Counters(sequenceNumber, timestamp) == c
        && sent == old(sent) + Deliveries(packets, transportPort)
      ensures transportPort == old(transportPort)
    {
      ghost var c0 := Counters(sequenceNumber, timestamp);
      ghost var encoded := EncodeAll(encode, frames);
      ghost var sent0 := sent;
      ghost var built: seq<seq<byte>> := [];
      for k := 0 to |frames|
        invariant transportPort == old(transportPort)
        invariant Run(c0, encoded[..k], ssrc, wrapTimestamp) == (Counters(sequenceNumber, timestamp), built)
        invariant sent == sent0 + Deliveries(built, transportPort)
      {
        RunPrefixStep(c0, encoded, k, ssrc, wrapTimestamp);
        var opus := encode(frames[k]);
        ghost var packet := Step(Counters(sequenceNumber, timestamp), opus, ssrc, wrapTimestamp).1;
        ghost var one := if packet.Some? then [packet.value] else [];
        ForwardEncoded(opus);
        DeliveriesAppend(built, one, transportPort);
        built := built + one;
      }
      assert encoded[..|frames|] == encoded;
    }

    /**
     * One pass of the loop body once the encoder has run (None when it
     * threw): build the packet, advance the counters, send if the port is
     * known.
     */
    method ForwardEncoded(opus: Option<seq<byte>>)
      modifies this
      ensures var (c, packet) := Step(old(Counters(sequenceNumber, timestamp)), opus, ssrc, wrapTimestamp);
        && Counters(sequenceNumber, timestamp) == c
        && sent == old(sent) + Deliveries(if packet.Some? then [packet.value] else [], transportPort)
      ensures transportPort == old(transportPort)
    {
      if opus.Some? {
        var seqArg := sequenceNumber;
        sequenceNumber := sequenceNumber + 1;
        var rtpPacket := CreateRtpPacket(opus.value, seqArg, timestamp, ssrc);
        StepBuilds(Counters(seqArg, timestamp), opus.value, ssrc, wrapTimestamp, rtpPacket);
        if rtpPacket.Success? {
          timestamp := Advance(timestamp, wrapTimestamp);
          if transportPort.Some? && transportPort.value != 0 {
            sent := sent + [Datagram(rtpPacket.value, transportPort.value, Loopback)];
          }
        }
      }
    }

    /**
     * The `udpSocket.on('message')` handler after PCM decoding: the samples go
     * through the accumulator and the frames it completes through the loop.
     */
    method OnMessage(samples: seq<T>)
      requires Valid()
      modifies this, accumulator, accumulator.buffer
      ensures Valid()
      ensures var r := Ingest(old(accumulator.Pending()), samples, accumulator.targetSamples);
        && accumulator.Pending() == r.pending
        && var (c, packets) := Run(old(Counters(sequenceNumber, timestamp)), EncodeAll(encode, r.frames), ssrc, wrapTimestamp);
        && Counters(sequenceNumber, timestamp) == c
        && sent == old(sent) + Deliveries(packets, transportPort)
      ensures transportPort == old(transportPort)
    {
      var frames := accumulator.AddSamples(samples);
      ForwardFrames(frames);
    }
  }
}
