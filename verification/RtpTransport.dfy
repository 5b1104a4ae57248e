/**
 RTP packets (RFC 3550, section 5.1), their `$` framing on an RTSP connection (RFC 2326, section
 10.12), and the stream object that sends the packets of each frame.
 */
module RtpTransport {
  import opened Bytes
  import opened Common
  import opened RtspMessage
  import AnnexB
  import H264 = H264Packetizer
  import Vp9 = Vp9Packetizer

  const VIDEO_PAYLOAD_TYPE: byte := 96

  /** Units of the 90 kHz clock from one frame to the next. */
  function FrameTicks(fps: bv32): bv32 {
    if fps > 0 then 90000 / fps else 3000
  }

  lemma FrameTicksWitness()
    ensures FrameTicks(0) == 3000 && FrameTicks(1) == 90000 && FrameTicks(24) == 3750 && FrameTicks(25) == 3600
    ensures FrameTicks(30) == 3000 && FrameTicks(60) == 1500 && FrameTicks(90001) == 0
    ensures VIDEO_PAYLOAD_TYPE == 96
  {
  }

  // ----- RTP packets -----

  datatype Rtp = Rtp(marker: bool, payloadType: byte, seqNo: bv16, timestamp: bv32, ssrc: bv32, payload: seq<byte>)

  function MarkerByte(marker: bool, payloadType: byte): byte {
    (if marker then 0x80 else 0x00) | payloadType
  }

  function BuildPacket(r: Rtp): (b: seq<byte>)
    ensures |b| == 12 + |r.payload|
  {
    [2 << 6, MarkerByte(r.marker, r.payloadType)]
    + BytesOf16(r.seqNo) + BytesOf32(r.timestamp) + BytesOf32(r.ssrc) + r.payload
  }

  /** Behind the header extension at `at`, if the X bit announces one. */
  function AfterExtension(p: seq<byte>, at: nat, extended: bool): Option<nat> {
    if !extended then Some(at)
    else if at + 4 > |p| then None
    else Some(at + 4 + 4 * LengthValue(p[at + 2..at + 4]))
  }

  /** The end of the payload: padding counts itself in its last octet. */
  function PayloadEnd(p: seq<byte>, padded: bool): int
    requires p != []
  {
    if padded then |p| - (NatOf(p[|p| - 1]) as int) else |p|
  }

  /** The packet as section 5.1 lays it out: CSRC list, extension and padding included. */
  function ParsePacket(p: seq<byte>): Option<Rtp> {
    if |p| < 12 || p[0] >> 6 != 2 then None
    else
      var afterCsrc := 12 + 4 * NatOf(p[0] & 0x0F);
      var start := AfterExtension(p, afterCsrc, p[0] & 0x10 != 0);
      var end := PayloadEnd(p, p[0] & 0x20 != 0);
      if start.None? || start.value > end || end > |p| then None
      else Some(Rtp(p[1] & 0x80 != 0, p[1] & 0x7F, Value16(p[2..4]), Value32(p[4..8]), Value32(p[8..12]),
                    p[start.value..end]))
  }

  lemma FirstOctets(r: Rtp)
    requires r.payloadType & 0x80 == 0
    ensures (2 as byte) << 6 == 0x80 && (0x80 as byte) >> 6 == 2
    ensures NatOf((0x80 as byte) & 0x0F) == 0
    ensures MarkerByte(r.marker, r.payloadType) & 0x7F == r.payloadType
    ensures MarkerByte(r.marker, r.payloadType) & 0x80 != 0 <==> r.marker
    ensures MarkerByte(r.marker, r.payloadType) == if r.marker then 0x80 | r.payloadType else r.payloadType
  {
  }

  lemma PacketParts(r: Rtp)
    ensures var p := BuildPacket(r);
            && p[0] == 2 << 6 && p[1] == MarkerByte(r.marker, r.payloadType)
            && p[2..4] == BytesOf16(r.seqNo) && p[4..8] == BytesOf32(r.timestamp)
            && p[8..12] == BytesOf32(r.ssrc) && p[12..] == r.payload
  {
  }

  /** Where section 5.1 puts the fields: version 2 and no options, marker and type, then big-endian numbers. */
  lemma PacketLayout(r: Rtp)
    requires r.payloadType & 0x80 == 0
    ensures var p := BuildPacket(r);
            && p[0] == 0x80 && p[1] == (if r.marker then 0x80 | r.payloadType else r.payloadType)
            && ((p[2] as bv16) << 8) | (p[3] as bv16) == r.seqNo
            && ((p[4] as bv32) << 24) | ((p[5] as bv32) << 16) | ((p[6] as bv32) << 8) | (p[7] as bv32) == r.timestamp
            && ((p[8] as bv32) << 24) | ((p[9] as bv32) << 16) | ((p[10] as bv32) << 8) | (p[11] as bv32) == r.ssrc
            && p[12..] == r.payload
  {
    hide BytesOf16, BytesOf32, BuildPacket;
    var p := BuildPacket(r);
    PacketParts(r);
    FirstOctets(r);
    Value16Inverts(r.seqNo);
    Value32Inverts(r.timestamp);
    Value32Inverts(r.ssrc);
    assert p[2] == p[2..4][0] && p[3] == p[2..4][1];
    assert p[4] == p[4..8][0] && p[5] == p[4..8][1] && p[6] == p[4..8][2] && p[7] == p[4..8][3];
    assert p[8] == p[8..12][0] && p[9] == p[8..12][1] && p[10] == p[8..12][2] && p[11] == p[8..12][3];
  }

  /** A receiver reads back every field of a packet. */
  lemma PacketRoundTrip(r: Rtp)
    requires r.payloadType & 0x80 == 0
    ensures ParsePacket(BuildPacket(r)) == Some(r)
  {
    hide BytesOf16, BytesOf32, Value16, Value32, MarkerByte, BuildPacket, NatOf;
    var p := BuildPacket(r);
    PacketParts(r);
    FirstOctets(r);
    Value16Inverts(r.seqNo);
    Value32Inverts(r.timestamp);
    Value32Inverts(r.ssrc);
    assert p[12..|p|] == p[12..];
  }

  // ----- Framing on the RTSP connection -----

  datatype Interleaved = Interleaved(channel: byte, data: seq<byte>)

  function FrameBytes(f: Interleaved): (b: seq<byte>)
    ensures |b| == 4 + |f.data|
  {
    [0x24, f.channel] + LengthBytes(|f.data|) + f.data
  }

  /** The frame at the front of a connection, and what follows it. */
  function ReadFrame(s: seq<byte>): Option<(Interleaved, seq<byte>)> {
    if |s| < 4 || s[0] != 0x24 then None
    else
      var len := LengthValue(s[2..4]);
      if 4 + len > |s| then None
      else Some((Interleaved(s[1], s[4..4 + len]), s[4 + len..]))
  }

  /** What else than frames the writer of the connection carries: RTSP messages. */
  datatype Traffic = Framed(frame: Interleaved) | Message(text: seq<byte>)

  /** A message that is delimited whatever follows it, and that is not taken for a frame. */
  ghost predicate IsMessage(text: seq<byte>) {
    text != [] && text[0] != 0x24 && forall rest: seq<byte> :: MessageLength(text + rest) == Some(|text|)
  }

  /** All frames on a connection; messages in between are passed over. */
  function Deframe(s: seq<byte>): Option<seq<Interleaved>>
    decreases |s|
  {
    if s == [] then Some([])
    else if s[0] == 0x24 then
      var first := ReadFrame(s);
      if first.None? then None
      else
        var rest := Deframe(first.value.1);
        if rest.None? then None else Some([first.value.0] + rest.value)
    else
      var n := MessageLength(s);
      if n.None? then None else Deframe(s[n.value..])
  }

  function TrafficBytes(t: Traffic): seq<byte> {
    if t.Framed? then FrameBytes(t.frame) else t.text
  }

  function Wire(traffic: seq<Traffic>): seq<byte> {
    if traffic == [] then [] else TrafficBytes(traffic[0]) + Wire(traffic[1..])
  }

  function FramesOf(traffic: seq<Traffic>): seq<Interleaved> {
    if traffic == [] then []
    else (if traffic[0].Framed? then [traffic[0].frame] else []) + FramesOf(traffic[1..])
  }

  ghost predicate IsReadable(t: Traffic) {
    if t.Framed? then |t.frame.data| < 0x1_0000 else IsMessage(t.text)
  }

  lemma FrameParts(f: Interleaved, rest: seq<byte>)
    ensures var s := FrameBytes(f) + rest;
            && s[0] == 0x24 && s[1] == f.channel && s[2..4] == LengthBytes(|f.data|)
            && s[4..] == f.data + rest
  {
  }

  /** Section 10.12: a dollar sign, the channel, the length with the high byte first, the data. */
  lemma FrameLayout(f: Interleaved)
    ensures var s := FrameBytes(f);
            && s[0] == '$' as byte && s[1] == f.channel && s[4..] == f.data
            && (s[2] as nat) * 0x100 + (s[3] as nat) == |f.data| % 0x1_0000
  {
    hide FrameBytes, LengthBytes;
    var s := FrameBytes(f);
    FrameParts(f, []);
    assert s + [] == s && f.data + [] == f.data;
    LengthTruncates(|f.data|);
    assert s[2] == s[2..4][0] && s[3] == s[2..4][1];
  }

  /** The 16-bit length cast is harmless exactly when the data is shorter than 2^16 bytes. */
  lemma FrameRoundTrip(f: Interleaved, rest: seq<byte>)
    ensures ReadFrame(FrameBytes(f) + rest) == Some((f, rest)) <==> |f.data| < 0x1_0000
  {
    hide LengthBytes, LengthValue, FrameBytes;
    var s := FrameBytes(f) + rest;
    FrameParts(f, rest);
    LengthTruncates(|f.data|);
    var len := |f.data|;
    if len < 0x1_0000 {
      assert s[4..4 + len] == s[4..][..len] == f.data;
      assert s[4 + len..] == s[4..][len..] == rest;
    }
  }

  lemma {:induction false} DeframeInverts(traffic: seq<Traffic>)
    requires forall t :: t in traffic ==> IsReadable(t)
    ensures Deframe(Wire(traffic)) == Some(FramesOf(traffic))
  {
    hide ReadFrame, FrameBytes, IsMessage, MessageLength;
    if traffic != [] {
      var t, rest := traffic[0], traffic[1..];
      assert t in traffic;
      DeframeInverts(rest);
      if t.Framed? {
        FrameRoundTrip(t.frame, Wire(rest));
        FrameParts(t.frame, Wire(rest));
      } else {
        MessagePassed(t.text, Wire(rest));
        assert FramesOf(traffic) == FramesOf(rest);
      }
    }
  }

  lemma MessagePassed(text: seq<byte>, rest: seq<byte>)
    requires IsMessage(text)
    ensures text + rest != [] && (text + rest)[0] != 0x24
    ensures Deframe(text + rest) == Deframe(rest)
  {
    hide ReadFrame, MessageLength;
    assert (text + rest)[|text|..] == rest;
  }

  /** The responses of the server are such messages, with a body and without. */
  lemma ResponseIsMessage(front: seq<seq<byte>>, back: seq<seq<byte>>, body: seq<byte>)
    requires forall k :: 0 <= k < |front| ==> IsOtherLine(front[k])
    requires forall k :: 0 <= k < |back| ==> IsOtherLine(back[k])
    requires |body| <= USIZE_MAX && front != [] && front[0] != [] && front[0][0] != 0x24
    ensures IsMessage(Joined(front + [Ascii(LengthLine(|body|))] + back) + ([CR, LF] + body))
    ensures IsMessage(Joined(front) + [CR, LF])
  {
    hide IsOtherLine, Ascii, LengthLine, MessageLength;
    forall rest: seq<byte>
      ensures var message := Joined(front + [Ascii(LengthLine(|body|))] + back) + ([CR, LF] + body);
              MessageLength(message + rest) == Some(|message|)
      ensures var message := Joined(front) + [CR, LF]; MessageLength(message + rest) == Some(|message|)
    {
      ResponseRead(front, back, body, rest);
    }
    FirstByte(front, []);
    FirstByte(front, [Ascii(LengthLine(|body|))] + back);
    assert front + [Ascii(LengthLine(|body|))] + back == front + ([Ascii(LengthLine(|body|))] + back);
    assert front + [] == front;
  }

  lemma FirstByte(front: seq<seq<byte>>, back: seq<seq<byte>>)
    requires front != [] && front[0] != []
    ensures Joined(front + back) != [] && Joined(front + back)[0] == front[0][0]
  {
  }

  // ----- Sending one frame, as a function -----

  /** What does not change over the life of a stream. */
  datatype Source = Source(ssrc: bv32, payloadType: byte, increment: bv32)

  /** Where the stream stands: number and time of the next packet. */
  datatype Position = Position(seqNo: bv16, timestamp: bv32)

  /** A frame as packetized, and how many of its packets the connection takes before an error. */
  datatype Call = Call(payloads: seq<seq<byte>>, accepted: nat)

  predicate Completed(call: Call) {
    |call.payloads| <= call.accepted
  }

  lemma CompletedMeans(call: Call)
    ensures Completed(call) <==> |call.payloads| <= call.accepted
  {
  }

  function SentCount(call: Call): (n: nat)
    ensures n <= |call.payloads|
  {
    if Completed(call) then |call.payloads| else call.accepted
  }

  function PacketFor(src: Source, pos: Position, payloads: seq<seq<byte>>, i: nat): Rtp
    requires i < |payloads|
  {
    Rtp(i == |payloads| - 1, src.payloadType, pos.seqNo, pos.timestamp, src.ssrc, payloads[i])
  }

  /** The number after `seqNo`, modulo 2^16. */
  function Succ(seqNo: bv16): bv16 {
    seqNo + 1
  }

  function Step(pos: Position): Position {
    pos.(seqNo := Succ(pos.seqNo))
  }

  /** The packets for `payloads[i..n]`, of which the first takes the number in `pos`. */
  function PacketsFrom(src: Source, pos: Position, payloads: seq<seq<byte>>, i: nat, n: nat): (r: seq<Rtp>)
    requires i <= n <= |payloads|
    ensures |r| == n - i
    decreases n - i
  {
    if i == n then [] else [PacketFor(src, pos, payloads, i)] + PacketsFrom(src, Step(pos), payloads, i + 1, n)
  }

  function Emitted(src: Source, pos: Position, call: Call): (r: seq<Rtp>)
    ensures |r| == SentCount(call)
  {
    PacketsFrom(src, pos, call.payloads, 0, SentCount(call))
  }

  /** `n` packets on; the number wraps at 2^16. */
  function Advance(seqNo: bv16, n: nat): bv16
    decreases n
  {
    if n == 0 then seqNo else Advance(Succ(seqNo), n - 1)
  }

  /** The clock of a stream, which wraps at 2^32. */
  function Later(timestamp: bv32, increment: bv32): bv32 {
    timestamp + increment
  }

  lemma LaterAdds(timestamp: bv32, increment: bv32)
    ensures Later(timestamp, increment) == timestamp + increment
  {
  }

  function After(src: Source, pos: Position, call: Call): Position {
    Position(Advance(pos.seqNo, SentCount(call)),
             if Completed(call) then Later(pos.timestamp, src.increment) else pos.timestamp)
  }

  function TotalBytes(packets: seq<Rtp>): nat {
    if packets == [] then 0 else |BuildPacket(packets[0])| + TotalBytes(packets[1..])
  }

  // ----- The stream -----

  /** UDP sends the packet as it is, TCP in a frame on the channel of the stream. */
  datatype Output = Udp | Tcp(channel: byte)

  function Delivered(output: Output, packet: seq<byte>): seq<byte> {
    if output.Udp? then packet else FrameBytes(Interleaved(output.channel, packet))
  }

  function DeliveredAll(output: Output, packets: seq<Rtp>): seq<seq<byte>> {
    if packets == [] then []
    else [Delivered(output, BuildPacket(packets[0]))] + DeliveredAll(output, packets[1..])
  }

  /** The part of a stream that sending changes: position, health counters, output so far. */
  datatype State = State(pos: Position, packetsSent: nat, bytesSent: nat, log: seq<seq<byte>>)

  /** What a call does to a stream: everything in it counts the packets emitted. */
  function AfterCall(output: Output, src: Source, st: State, call: Call): State {
    var emitted := Emitted(src, st.pos, call);
    State(After(src, st.pos, call), st.packetsSent + |emitted|, st.bytesSent + TotalBytes(emitted),
          st.log + DeliveredAll(output, emitted))
  }

  /** One packet has gone out. */
  function AfterPacket(output: Output, st: State, packet: seq<byte>): State {
    State(Step(st.pos), st.packetsSent + 1, st.bytesSent + |packet|, st.log + [Delivered(output, packet)])
  }

  /** The packets for `payloads[i..n]` go out one by one. */
  function AfterPackets(output: Output, src: Source, st: State, payloads: seq<seq<byte>>, i: nat, n: nat): State
    requires i <= n <= |payloads|
    decreases n - i
  {
    if i == n then st
    else
      var packet := BuildPacket(PacketFor(src, st.pos, payloads, i));
      AfterPackets(output, src, AfterPacket(output, st, packet), payloads, i + 1, n)
  }

  lemma {:induction false} OneByOne(output: Output, src: Source, st: State, payloads: seq<seq<byte>>, i: nat, n: nat)
    requires i <= n <= |payloads|
    ensures var ps := PacketsFrom(src, st.pos, payloads, i, n);
            AfterPackets(output, src, st, payloads, i, n)
            == State(Position(Advance(st.pos.seqNo, n - i), st.pos.timestamp), st.packetsSent + |ps|,
                     st.bytesSent + TotalBytes(ps), st.log + DeliveredAll(output, ps))
    decreases n - i
  {
    hide BuildPacket, Delivered, PacketFor, Succ;
    var ps := PacketsFrom(src, st.pos, payloads, i, n);
    if i == n {
      assert st.log + DeliveredAll(output, ps) == st.log;
    } else {
      var packet := BuildPacket(PacketFor(src, st.pos, payloads, i));
      var st' := AfterPacket(output, st, packet);
      OneByOne(output, src, st', payloads, i + 1, n);
      var rest := PacketsFrom(src, Step(st.pos), payloads, i + 1, n);
      assert ps[1..] == rest;
      assert st.log + ([Delivered(output, packet)] + DeliveredAll(output, rest))
          == st'.log + DeliveredAll(output, rest);
    }
  }

  datatype VideoPacketizer = ForVp9(vp9: Vp9.Packetizer) | ForH264(h264: H264.Packetizer)

  class RtpVideoStream {
    const output: Output
    const source: Source
    const packetizer: VideoPacketizer
    var sequenceNumber: bv16
    var timestamp: bv32
    var packetsSent: nat
    var bytesSent: nat
    /** Everything handed to the socket so far. */
    var log: seq<seq<byte>>

    ghost predicate Valid()
      reads Owned()
    {
      && source.payloadType == VIDEO_PAYLOAD_TYPE
      && (packetizer.ForVp9? ==> packetizer.vp9.Valid())
    }

    /** The objects besides the stream itself that a call may change. */
    function Owned(): set<object> {
      if packetizer.ForVp9? then {packetizer.vp9} else {}
    }

    constructor (output: Output, ssrc: bv32, fps: bv32, packetizer: VideoPacketizer)
      requires packetizer.ForVp9? ==> packetizer.vp9.Valid()
      ensures Valid() && this.output == output && this.packetizer == packetizer
      ensures View() == State(Position(0, 0), 0, 0, [])
      ensures source == Source(ssrc, VIDEO_PAYLOAD_TYPE, FrameTicks(fps))
    {
      hide FrameTicks;
      this.output := output;
      this.packetizer := packetizer;
      source := Source(ssrc, VIDEO_PAYLOAD_TYPE, FrameTicks(fps));
      sequenceNumber, timestamp := 0, 0;
      packetsSent, bytesSent := 0, 0;
      log := [];
    }

    function View(): State
      reads this
    {
      State(Position(sequenceNumber, timestamp), packetsSent, bytesSent, log)
    }

    /** The payloads the next frame is cut into. */
    function PayloadsFor(frame: seq<byte>, isKeyframe: bool): seq<seq<byte>>
      requires Valid()
      reads Owned()
    {
      match packetizer
      case ForVp9(p) => Vp9.PayloadsOf(p.NextPicture(isKeyframe), frame, p.mtu)
      case ForH264(p) => H264.Payloads(AnnexB.Nals(frame), H264.MaxPayload(p))
    }

    method PacketizeFrame(frame: seq<byte>, isKeyframe: bool) returns (payloads: seq<seq<byte>>)
      requires Valid()
      modifies Owned()
      ensures Valid() && payloads == old(PayloadsFor(frame, isKeyframe))
    {
      match packetizer {
        case ForVp9(p) => payloads := p.Packetize(frame, isKeyframe);
        case ForH264(p) => payloads := H264.Packetize(p, frame);
      }
    }

    /**
     `accepted` is how many sends succeed; the one after fails, and the error ends the call before
     the failing packet is counted and before the time moves on.
     */
    method SendFrame(frame: seq<byte>, isKeyframe: bool, accepted: nat) returns (ok: bool)
      requires Valid()
      modifies this, Owned()
      ensures Valid()
      ensures var call := Call(old(PayloadsFor(frame, isKeyframe)), accepted);
              ok == Completed(call) && View() == AfterCall(output, source, old(View()), call)
      ensures ok <==> |old(PayloadsFor(frame, isKeyframe))| <= accepted
      ensures ok ==> packetsSent == old(packetsSent) + |old(PayloadsFor(frame, isKeyframe))|
      ensures !ok ==> packetsSent == old(packetsSent) + accepted
      ensures ok ==> timestamp == old(timestamp) + source.increment
      ensures !ok ==> timestamp == old(timestamp)
    {
      hide *;
      LaterAdds(timestamp, source.increment);
      ok := PacketizeAndSend(frame, isKeyframe, accepted);
    }

    method PacketizeAndSend(frame: seq<byte>, isKeyframe: bool, accepted: nat) returns (ok: bool)
      requires Valid()
      modifies this, Owned()
      ensures Valid()
      ensures var call := Call(old(PayloadsFor(frame, isKeyframe)), accepted);
              ok == Completed(call) && View() == AfterCall(output, source, old(View()), call)
      ensures ok <==> |old(PayloadsFor(frame, isKeyframe))| <= accepted
      ensures ok ==> packetsSent == old(packetsSent) + |old(PayloadsFor(frame, isKeyframe))|
      ensures !ok ==> packetsSent == old(packetsSent) + accepted
      ensures timestamp == if ok then Later(old(timestamp), source.increment) else old(timestamp)
    {
      hide AfterCall, AfterPackets, Completed, SentCount, PayloadsFor, Later;
      var payloads := PacketizeFrame(frame, isKeyframe);
      CompletedMeans(Call(payloads, accepted));
      CallFromPackets(output, source, View(), Call(payloads, accepted));
      CallCounts(output, source, View(), Call(payloads, accepted));
      ok := SendPayloads(payloads, accepted);
      if ok {
        timestamp := Later(timestamp, source.increment);
      }
    }

    /** The loop over the payloads of a frame. */
    method SendPayloads(payloads: seq<seq<byte>>, accepted: nat) returns (ok: bool)
      modifies this
      ensures ok == Completed(Call(payloads, accepted))
      ensures View() == AfterPackets(output, source, old(View()), payloads, 0, SentCount(Call(payloads, accepted)))
    {
      hide AfterPackets, BuildPacket;
      ghost var n := SentCount(Call(payloads, accepted));
      var i := 0;
      while i < |payloads|
        invariant i <= n
        invariant AfterPackets(output, source, View(), payloads, i, n)
               == AfterPackets(output, source, old(View()), payloads, 0, n)
      {
        AfterPacketsUnfold(output, source, View(), payloads, i, n);
        if i >= accepted {
          return false;
        }
        SendPacket(payloads[i], i == |payloads| - 1);
        i := i + 1;
      }
      AfterPacketsUnfold(output, source, View(), payloads, n, n);
      return true;
    }

    /** A send that succeeds, and what is recorded of it. */
    method SendPacket(payload: seq<byte>, isLast: bool)
      modifies this
      ensures var packet := Rtp(isLast, source.payloadType, old(sequenceNumber), old(timestamp), source.ssrc, payload);
              View() == AfterPacket(output, old(View()), BuildPacket(packet))
    {
      hide BuildPacket, Delivered, Succ;
      var packet := BuildPacket(Rtp(isLast, source.payloadType, sequenceNumber, timestamp, source.ssrc, payload));
      log := log + [Delivered(output, packet)];
      packetsSent := packetsSent + 1;
      bytesSent := bytesSent + |packet|;
      sequenceNumber := Succ(sequenceNumber);
    }
  }

  lemma AfterPacketsUnfold(output: Output, src: Source, st: State, payloads: seq<seq<byte>>, i: nat, n: nat)
    requires i <= n <= |payloads|
    ensures AfterPackets(output, src, st, payloads, i, n) ==
            if i == n then st else
            AfterPackets(output, src, AfterPacket(output, st, BuildPacket(PacketFor(src, st.pos, payloads, i))),
                         payloads, i + 1, n)
  {
  }

  lemma CallFromPackets(output: Output, src: Source, st: State, call: Call)
    ensures var st' := AfterPackets(output, src, st, call.payloads, 0, SentCount(call));
            && st'.pos.timestamp == st.pos.timestamp
            && AfterCall(output, src, st, call)
               == if Completed(call) then Ticked(st', src.increment) else st'
  {
    hide *;
    OneByOne(output, src, st, call.payloads, 0, SentCount(call));
    CallFields(output, src, st, call);
  }

  lemma CallFields(output: Output, src: Source, st: State, call: Call)
    ensures var ps := PacketsFrom(src, st.pos, call.payloads, 0, SentCount(call));
            var st' := State(Position(Advance(st.pos.seqNo, SentCount(call)), st.pos.timestamp),
                             st.packetsSent + |ps|, st.bytesSent + TotalBytes(ps), st.log + DeliveredAll(output, ps));
            AfterCall(output, src, st, call) == if Completed(call) then Ticked(st', src.increment) else st'
  {
  }

  lemma CallCounts(output: Output, src: Source, st: State, call: Call)
    ensures AfterCall(output, src, st, call).packetsSent
            == st.packetsSent + if Completed(call) then |call.payloads| else call.accepted
  {
    hide Later, Advance, PacketsFrom;
  }

  /** The time moves on by one frame. */
  function Ticked(st: State, increment: bv32): State {
    st.(pos := Position(st.pos.seqNo, Later(st.pos.timestamp, increment)))
  }
}
