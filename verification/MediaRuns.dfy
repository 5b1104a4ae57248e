/**
 Whole runs of a video stream: what the packets of a run look like whatever sends fail, and that
 a receiver at the other end of the RTSP connection gets every frame back.
 */
module MediaRuns {
  import opened Bytes
  import opened Common
  import opened RtpTransport
  import AnnexB
  import H264 = H264Packetizer
  import Vp9 = Vp9Packetizer

  // ----- Runs of `send_frame` -----

  /** The packets that leave, call by call. */
  function Run(src: Source, pos: Position, calls: seq<Call>): (r: seq<seq<Rtp>>)
    ensures |r| == |calls|
    decreases |calls|
  {
    if calls == [] then [] else [Emitted(src, pos, calls[0])] + Run(src, After(src, pos, calls[0]), calls[1..])
  }

  function Flat(packets: seq<seq<Rtp>>): seq<Rtp> {
    if packets == [] then [] else packets[0] + Flat(packets[1..])
  }

  /** What a run does to a stream: `SendFrame`, call after call. */
  function AfterAll(output: Output, src: Source, st: State, calls: seq<Call>): State
    decreases |calls|
  {
    if calls == [] then st else AfterAll(output, src, AfterCall(output, src, st, calls[0]), calls[1..])
  }

  /** The time at which call `c` of a run starts: one increment for every call completed before. */
  function TimeAt(src: Source, time: bv32, calls: seq<Call>, c: nat): bv32
    requires c <= |calls|
    decreases c
  {
    if c == 0 then time
    else
      var before := TimeAt(src, time, calls, c - 1);
      if Completed(calls[c - 1]) then Later(before, src.increment) else before
  }

  lemma {:induction false} TotalBytesAppend(a: seq<Rtp>, b: seq<Rtp>)
    ensures TotalBytes(a + b) == TotalBytes(a) + TotalBytes(b)
  {
    hide BuildPacket;
    if a == [] {
      assert a + b == b;
    } else {
      assert (a + b)[1..] == a[1..] + b;
      TotalBytesAppend(a[1..], b);
    }
  }

  lemma {:induction false} DeliveredAllAppend(output: Output, a: seq<Rtp>, b: seq<Rtp>)
    ensures DeliveredAll(output, a + b) == DeliveredAll(output, a) + DeliveredAll(output, b)
  {
    hide BuildPacket, Delivered;
    if a == [] {
      assert a + b == b;
    } else {
      assert (a + b)[1..] == a[1..] + b;
      DeliveredAllAppend(output, a[1..], b);
    }
  }

  /** The health counters equal the packets and bytes emitted, and the output is those packets. */
  lemma {:induction false} CountersMatch(output: Output, src: Source, st: State, calls: seq<Call>)
    ensures var packets, st' := Flat(Run(src, st.pos, calls)), AfterAll(output, src, st, calls);
            && st'.packetsSent == st.packetsSent + |packets|
            && st'.bytesSent == st.bytesSent + TotalBytes(packets)
            && st'.log == st.log + DeliveredAll(output, packets)
    decreases |calls|
  {
    hide *;
    FlatUnfold(src, st.pos, calls);
    AfterAllUnfold(output, src, st, calls);
    if calls == [] {
      NothingSent(output);
      assert st.log + [] == st.log;
    } else {
      var st1 := AfterCall(output, src, st, calls[0]);
      CountersMatch(output, src, st1, calls[1..]);
      var first, rest := Emitted(src, st.pos, calls[0]), Flat(Run(src, st1.pos, calls[1..]));
      TotalBytesAppend(first, rest);
      DeliveredAllAppend(output, first, rest);
      assert (st.log + DeliveredAll(output, first)) + DeliveredAll(output, rest)
          == st.log + (DeliveredAll(output, first) + DeliveredAll(output, rest));
    }
  }

  lemma NothingSent(output: Output)
    ensures TotalBytes([]) == 0 && DeliveredAll(output, []) == []
  {
  }

  lemma AfterAllUnfold(output: Output, src: Source, st: State, calls: seq<Call>)
    ensures calls == [] ==> AfterAll(output, src, st, calls) == st
    ensures calls != [] ==>
              var emitted, st' := Emitted(src, st.pos, calls[0]), AfterCall(output, src, st, calls[0]);
              && AfterAll(output, src, st, calls) == AfterAll(output, src, st', calls[1..])
              && st'.pos == After(src, st.pos, calls[0])
              && st'.packetsSent == st.packetsSent + |emitted| && st'.bytesSent == st.bytesSent + TotalBytes(emitted)
              && st'.log == st.log + DeliveredAll(output, emitted)
  {
    hide Emitted, After, TotalBytes, DeliveredAll;
  }

  lemma FlatUnfold(src: Source, pos: Position, calls: seq<Call>)
    ensures Flat(Run(src, pos, calls)) == if calls == [] then [] else
            Emitted(src, pos, calls[0]) + Flat(Run(src, After(src, pos, calls[0]), calls[1..]))
  {
  }

  // ----- Numbers -----

  lemma {:induction false} AdvanceAdd(seqNo: bv16, m: nat, n: nat)
    ensures Advance(seqNo, m + n) == Advance(Advance(seqNo, m), n)
    decreases m
  {
    if m > 0 {
      AdvanceAdd(Succ(seqNo), m - 1, n);
    }
  }

  lemma {:induction false} PacketNumbers(src: Source, pos: Position, payloads: seq<seq<byte>>, i: nat, n: nat, k: nat)
    requires i <= n <= |payloads| && k < n - i
    ensures PacketsFrom(src, pos, payloads, i, n)[k].seqNo == Advance(pos.seqNo, k)
    decreases n - i
  {
    if k > 0 {
      PacketNumbers(src, Step(pos), payloads, i + 1, n, k - 1);
    }
  }

  lemma {:induction false} RunNumber(src: Source, pos: Position, calls: seq<Call>, k: nat)
    requires k < |Flat(Run(src, pos, calls))|
    ensures Flat(Run(src, pos, calls))[k].seqNo == Advance(pos.seqNo, k)
    decreases |calls|
  {
    hide PacketsFrom, Run, Flat, Advance;
    FlatUnfold(src, pos, calls);
    var first := Emitted(src, pos, calls[0]);
    if k < |first| {
      PacketNumbers(src, pos, calls[0].payloads, 0, |first|, k);
    } else {
      RunNumber(src, After(src, pos, calls[0]), calls[1..], k - |first|);
      AdvanceAdd(pos.seqNo, |first|, k - |first|);
    }
  }

  /** Whatever sends fail, the packets that leave are numbered consecutively modulo 2^16. */
  lemma NumbersAreConsecutive(src: Source, pos: Position, calls: seq<Call>)
    ensures var packets := Flat(Run(src, pos, calls));
            && (packets != [] ==> packets[0].seqNo == pos.seqNo)
            && forall k :: 0 < k < |packets| ==> packets[k].seqNo == packets[k - 1].seqNo + 1
  {
    hide Run, Flat, Advance;
    var packets := Flat(Run(src, pos, calls));
    if packets != [] {
      RunNumber(src, pos, calls, 0);
      AdvanceZero(pos.seqNo);
    }
    forall k | 0 < k < |packets| ensures packets[k].seqNo == packets[k - 1].seqNo + 1 {
      RunNumber(src, pos, calls, k);
      RunNumber(src, pos, calls, k - 1);
      AdvanceAdd(pos.seqNo, k - 1, 1);
      AdvanceOne(Advance(pos.seqNo, k - 1));
    }
  }

  lemma AdvanceZero(seqNo: bv16)
    ensures Advance(seqNo, 0) == seqNo
  {
  }

  lemma AdvanceOne(seqNo: bv16)
    ensures Advance(seqNo, 1) == Succ(seqNo)
  {
  }

  // ----- Times and markers -----

  /** A packet of call `c`: its time, its marker, its place. */
  ghost predicate IsPacketOf(r: Rtp, src: Source, call: Call, time: bv32, i: nat) {
    && i < SentCount(call)
    && r.payload == call.payloads[i]
    && r.timestamp == time && r.ssrc == src.ssrc && r.payloadType == src.payloadType
    && (r.marker <==> Completed(call) && i == SentCount(call) - 1)
  }

  lemma {:induction false} PacketAt(src: Source, pos: Position, payloads: seq<seq<byte>>, i: nat, n: nat, k: nat)
    requires i <= n <= |payloads| && k < n - i
    ensures var r := PacketsFrom(src, pos, payloads, i, n)[k];
            r == Rtp(i + k == |payloads| - 1, src.payloadType, r.seqNo, pos.timestamp, src.ssrc, payloads[i + k])
    decreases n - i
  {
    if k > 0 {
      PacketAt(src, Step(pos), payloads, i + 1, n, k - 1);
    }
  }

  /**
   All packets of a frame carry one time, the times move on with the frames completed, and the
   marker is on exactly the last packet of each completed frame.
   */
  lemma {:induction false} TimesAndMarkers(src: Source, pos: Position, calls: seq<Call>, c: nat, i: nat)
    requires c < |calls| && i < SentCount(calls[c])
    ensures |Run(src, pos, calls)[c]| == SentCount(calls[c])
    ensures IsPacketOf(Run(src, pos, calls)[c][i], src, calls[c], TimeAt(src, pos.timestamp, calls, c), i)
    decreases c
  {
    hide PacketsFrom, Advance, Later;
    var run := Run(src, pos, calls);
    if c == 0 {
      PacketAt(src, pos, calls[0].payloads, 0, SentCount(calls[0]), i);
    } else {
      var pos' := After(src, pos, calls[0]);
      TimesAndMarkers(src, pos', calls[1..], c - 1, i);
      TimeShift(src, pos.timestamp, calls, c);
      assert run[c] == Run(src, pos', calls[1..])[c - 1];
    }
  }

  lemma {:induction false} TimeShift(src: Source, time: bv32, calls: seq<Call>, c: nat)
    requires 0 < c <= |calls|
    ensures TimeAt(src, time, calls, c)
            == TimeAt(src, if Completed(calls[0]) then Later(time, src.increment) else time, calls[1..], c - 1)
    decreases c
  {
    hide Later;
    if c > 1 {
      TimeShift(src, time, calls, c - 1);
      assert calls[c - 1] == calls[1..][c - 2];
    }
  }

  /** The clock over a run, in 32-bit arithmetic: it moves on with each call that is completed. */
  lemma ClockTicks(src: Source, time: bv32, calls: seq<Call>, c: nat, before: bv32, after: bv32, increment: bv32)
    requires c < |calls| && increment == src.increment
    requires before == TimeAt(src, time, calls, c) && after == TimeAt(src, time, calls, c + 1)
    ensures TimeAt(src, time, calls, 0) == time
    ensures |calls[c].payloads| <= calls[c].accepted ==> after == before + increment
    ensures |calls[c].payloads| > calls[c].accepted ==> after == before
  {
    hide *;
    TimeAtNext(src, time, calls, c);
    CompletedMeans(calls[c]);
    LaterAdds(before, increment);
  }

  lemma TimeAtNext(src: Source, time: bv32, calls: seq<Call>, c: nat)
    requires c < |calls|
    ensures TimeAt(src, time, calls, 0) == time
    ensures TimeAt(src, time, calls, c + 1)
            == if Completed(calls[c]) then Later(TimeAt(src, time, calls, c), src.increment)
               else TimeAt(src, time, calls, c)
  {
    hide Later, Completed;
  }

  /**
   The packets of the first call carry the time at which the stream stands.  Those of the next call
   are one increment later exactly when the call before was completed, and else carry the same time.
   */
  lemma TimesMoveOn(src: Source, pos: Position, calls: seq<Call>, c: nat, i: nat, j: nat,
                    before: bv32, after: bv32, increment: bv32)
    requires c + 1 < |calls| && i < |Run(src, pos, calls)[c]| && j < |Run(src, pos, calls)[c + 1]|
    requires before == Run(src, pos, calls)[c][i].timestamp && after == Run(src, pos, calls)[c + 1][j].timestamp
    requires increment == src.increment
    ensures c == 0 ==> before == pos.timestamp
    ensures |calls[c].payloads| <= calls[c].accepted ==> after == before + increment
    ensures |calls[c].payloads| > calls[c].accepted ==> after == before
  {
    hide *;
    TimeOfPacket(src, pos, calls, c, i);
    TimeOfPacket(src, pos, calls, c + 1, j);
    ClockTicks(src, pos.timestamp, calls, c, before, after, increment);
  }

  lemma TimeOfPacket(src: Source, pos: Position, calls: seq<Call>, c: nat, i: nat)
    requires c < |calls| && i < |Run(src, pos, calls)[c]|
    ensures Run(src, pos, calls)[c][i].timestamp == TimeAt(src, pos.timestamp, calls, c)
  {
    hide Run, Completed, TimeAt;
    RunSizes(src, pos, calls, c);
    TimesAndMarkers(src, pos, calls, c, i);
  }

  lemma {:induction false} RunSizes(src: Source, pos: Position, calls: seq<Call>, c: nat)
    requires c < |calls|
    ensures |Run(src, pos, calls)[c]| == SentCount(calls[c])
    decreases c
  {
    hide Emitted, After;
    if c > 0 {
      RunSizes(src, After(src, pos, calls[0]), calls[1..], c - 1);
    }
  }

  // ----- The receiving end -----

  /** The packets that came in on a channel of the connection. */
  function OnChannel(frames: seq<Interleaved>, channel: byte): seq<seq<byte>> {
    if frames == [] then []
    else (if frames[0].channel == channel then [frames[0].data] else []) + OnChannel(frames[1..], channel)
  }

  function ParseAll(packets: seq<seq<byte>>): Option<seq<Rtp>> {
    if packets == [] then Some([])
    else
      var first := ParsePacket(packets[0]);
      var rest := ParseAll(packets[1..]);
      if first.None? || rest.None? then None else Some([first.value] + rest.value)
  }

  /** A frame of which some packets are in. */
  datatype Partial = Partial(timestamp: bv32, payloads: seq<seq<byte>>)

  function Prepend(group: seq<seq<byte>>, rest: Option<seq<seq<seq<byte>>>>): Option<seq<seq<seq<byte>>>> {
    if rest.Some? then Some([group] + rest.value) else None
  }

  /** The frames whose last packet is in, and what is in of the next. */
  datatype Assembly = Assembly(groups: seq<seq<seq<byte>>>, rest: Option<Partial>)

  function Add(group: seq<seq<byte>>, assembly: Option<Assembly>): Option<Assembly> {
    if assembly.None? then None else Some(Assembly([group] + assembly.value.groups, assembly.value.rest))
  }

  /**
   The payloads of each frame: packets in order without a gap, one time within a frame, the last
   packet of a frame marked.  `None` when a packet is missing.
   */
  function Assemble(packets: seq<Rtp>, next: bv16, partial: Option<Partial>): Option<Assembly> {
    if packets == [] then Some(Assembly([], partial))
    else
      var r := packets[0];
      if r.seqNo != next || (partial.Some? && partial.value.timestamp != r.timestamp) then None
      else
        var group := (if partial.Some? then partial.value.payloads else []) + [r.payload];
        if r.marker then Add(group, Assemble(packets[1..], Succ(next), None))
        else Assemble(packets[1..], Succ(next), Some(Partial(r.timestamp, group)))
  }

  /** From packets as they come in to the payloads of each complete frame. */
  function ReceivePackets(data: seq<seq<byte>>, firstSeq: bv16): Option<seq<seq<seq<byte>>>> {
    var packets := ParseAll(data);
    if packets.None? then None
    else
      var assembly := Assemble(packets.value, firstSeq, None);
      if assembly.None? then None else Some(assembly.value.groups)
  }

  /** From the bytes of the connection to the payloads of each complete frame sent on a channel. */
  function ReceiveGroups(wire: seq<byte>, channel: byte, firstSeq: bv16): Option<seq<seq<seq<byte>>>> {
    var frames := Deframe(wire);
    if frames.None? then None else ReceivePackets(OnChannel(frames.value, channel), firstSeq)
  }

  function PacketBytes(packets: seq<Rtp>): seq<seq<byte>> {
    if packets == [] then [] else [BuildPacket(packets[0])] + PacketBytes(packets[1..])
  }

  /** A sender stops at its first error, so that only the last call can be incomplete. */
  ghost predicate StopsAtError(calls: seq<Call>) {
    forall k :: 0 <= k < |calls| - 1 ==> Completed(calls[k])
  }

  /** The completed frames that put packets on the wire. */
  function Groups(calls: seq<Call>): seq<seq<seq<byte>>> {
    if calls == [] then []
    else (if Completed(calls[0]) && calls[0].payloads != [] then [calls[0].payloads] else []) + Groups(calls[1..])
  }

  /** The payloads that got out of the call that failed. */
  function CutShort(calls: seq<Call>): Option<seq<seq<byte>>> {
    if calls == [] || Completed(calls[|calls| - 1]) || calls[|calls| - 1].accepted == 0 then None
    else Some(calls[|calls| - 1].payloads[..calls[|calls| - 1].accepted])
  }

  function PartialAt(pos: Position, payloads: seq<seq<byte>>, i: nat): Option<Partial>
    requires i <= |payloads|
  {
    if i == 0 then None else Some(Partial(pos.timestamp, payloads[..i]))
  }

  /** A packet that may come next is taken in. */
  lemma AssembleStep(packets: seq<Rtp>, partial: Option<Partial>)
    requires packets != [] && (partial.Some? ==> partial.value.timestamp == packets[0].timestamp)
    ensures var r := packets[0];
            var group := (if partial.Some? then partial.value.payloads else []) + [r.payload];
            Assemble(packets, r.seqNo, partial)
            == if r.marker then Add(group, Assemble(packets[1..], Succ(r.seqNo), None))
               else Assemble(packets[1..], Succ(r.seqNo), Some(Partial(r.timestamp, group)))
  {
  }

  lemma {:induction false} FrameAssembled(src: Source, pos: Position, payloads: seq<seq<byte>>, i: nat, tail: seq<Rtp>)
    requires i < |payloads|
    ensures Assemble(PacketsFrom(src, pos, payloads, i, |payloads|) + tail, pos.seqNo, PartialAt(pos, payloads, i))
            == Add(payloads, Assemble(tail, Advance(pos.seqNo, |payloads| - i), None))
    decreases |payloads| - i
  {
    hide PacketsFrom, Advance, Assemble, Succ;
    var ps := PacketsFrom(src, pos, payloads, i, |payloads|);
    var rest := PacketsFrom(src, Step(pos), payloads, i + 1, |payloads|);
    PacketsUnfold(src, pos, payloads, i, |payloads|);
    assert (ps + tail)[1..] == rest + tail;
    assert (ps + tail)[0] == PacketFor(src, pos, payloads, i);
    assert payloads[..i] + [payloads[i]] == payloads[..i + 1];
    AssembleStep(ps + tail, PartialAt(pos, payloads, i));
    if i + 1 == |payloads| {
      assert rest == [] && rest + tail == tail;
      assert payloads[..i + 1] == payloads;
      AdvanceOne(pos.seqNo);
    } else {
      FrameAssembled(src, Step(pos), payloads, i + 1, tail);
    }
  }

  lemma PacketsUnfold(src: Source, pos: Position, payloads: seq<seq<byte>>, i: nat, n: nat)
    requires i < n <= |payloads|
    ensures PacketsFrom(src, pos, payloads, i, n)
            == [PacketFor(src, pos, payloads, i)] + PacketsFrom(src, Step(pos), payloads, i + 1, n)
    ensures Advance(pos.seqNo, n - i) == Advance(Succ(pos.seqNo), n - (i + 1))
  {
  }

  /** The packets of a call that fails are kept, and no frame is completed by them. */
  lemma {:induction false} FrameCutShort(src: Source, pos: Position, payloads: seq<seq<byte>>, i: nat, n: nat)
    requires i <= n < |payloads|
    ensures Assemble(PacketsFrom(src, pos, payloads, i, n), pos.seqNo, PartialAt(pos, payloads, i))
            == Some(Assembly([], PartialAt(pos, payloads, n)))
    decreases n - i
  {
    hide PacketsFrom, Advance, Assemble, Succ;
    var ps := PacketsFrom(src, pos, payloads, i, n);
    if i == n {
      AssembleNone(pos.seqNo, PartialAt(pos, payloads, n));
    } else {
      PacketsUnfold(src, pos, payloads, i, n);
      assert ps[1..] == PacketsFrom(src, Step(pos), payloads, i + 1, n);
      assert payloads[..i] + [payloads[i]] == payloads[..i + 1];
      AssembleStep(ps, PartialAt(pos, payloads, i));
      FrameCutShort(src, Step(pos), payloads, i + 1, n);
    }
  }

  /** A receiver has exactly the completed frames, and the packets of the frame that failed. */
  lemma {:induction false} RunAssembled(src: Source, pos: Position, calls: seq<Call>)
    requires StopsAtError(calls)
    ensures var assembly := Assemble(Flat(Run(src, pos, calls)), pos.seqNo, None);
            && assembly.Some? && assembly.value.groups == Groups(calls)
            && (assembly.value.rest.Some? <==> CutShort(calls).Some?)
            && (assembly.value.rest.Some? ==> Some(assembly.value.rest.value.payloads) == CutShort(calls))
    decreases |calls|
  {
    hide PacketsFrom, Flat, Run, Assemble, Advance, Later, Completed;
    FlatUnfold(src, pos, calls);
    if calls == [] {
      AssembleNone(pos.seqNo, None);
    } else {
      var payloads := calls[0].payloads;
      var pos' := After(src, pos, calls[0]);
      var tail := Flat(Run(src, pos', calls[1..]));
      if !Completed(calls[0]) {
        FailingCall(src, pos, calls[0]);
        assert calls == [calls[0]] && calls[1..] == [];
        NoMore(src, pos');
        assert Emitted(src, pos, calls[0]) + [] == Emitted(src, pos, calls[0]);
      } else {
        assert StopsAtError(calls[1..]) by { StopsLater(calls); }
        RunAssembled(src, pos', calls[1..]);
        CompletedCall(src, pos, calls[0], tail);
        assert |calls| > 1 ==> calls[1..][|calls| - 2] == calls[|calls| - 1];
      }
    }
  }

  lemma StopsLater(calls: seq<Call>)
    requires StopsAtError(calls) && calls != []
    ensures StopsAtError(calls[1..])
  {
    hide Completed;
    forall k | 0 <= k < |calls[1..]| - 1 ensures Completed(calls[1..][k]) {
      assert calls[1..][k] == calls[k + 1];
    }
  }

  lemma NoMore(src: Source, pos: Position)
    ensures Flat(Run(src, pos, [])) == []
  {
  }

  lemma FailingCall(src: Source, pos: Position, call: Call)
    requires !Completed(call)
    ensures Assemble(Emitted(src, pos, call), pos.seqNo, None)
            == Some(Assembly([], PartialAt(pos, call.payloads, call.accepted)))
  {
    hide Assemble, PacketsFrom;
    FrameCutShort(src, pos, call.payloads, 0, call.accepted);
  }

  lemma CompletedCall(src: Source, pos: Position, call: Call, tail: seq<Rtp>)
    requires Completed(call)
    ensures var after := Assemble(tail, After(src, pos, call).seqNo, None);
            Assemble(Emitted(src, pos, call) + tail, pos.seqNo, None)
            == if call.payloads == [] then after else Add(call.payloads, after)
  {
    hide Assemble, PacketsFrom, Advance, Later;
    if call.payloads == [] {
      assert Emitted(src, pos, call) + tail == tail;
      AdvanceZero(pos.seqNo);
    } else {
      FrameAssembled(src, pos, call.payloads, 0, tail);
    }
  }

  lemma AssembleNone(next: bv16, partial: Option<Partial>)
    ensures Assemble([], next, partial) == Some(Assembly([], partial))
  {
  }

  lemma {:induction false} ParseAllInverts(packets: seq<Rtp>)
    requires forall r :: r in packets ==> r.payloadType & 0x80 == 0
    ensures ParseAll(PacketBytes(packets)) == Some(packets)
  {
    hide BuildPacket, ParsePacket;
    if packets != [] {
      assert packets[0] in packets;
      PacketRoundTrip(packets[0]);
      ParseAllInverts(packets[1..]);
      assert [packets[0]] + packets[1..] == packets;
    }
  }

  lemma {:induction false} RunPayloadType(src: Source, pos: Position, calls: seq<Call>)
    requires src.payloadType & 0x80 == 0
    ensures forall r :: r in Flat(Run(src, pos, calls)) ==> r.payloadType & 0x80 == 0
    decreases |calls|
  {
    hide PacketsFrom, Flat, Run, Advance, Later;
    FlatUnfold(src, pos, calls);
    if calls != [] {
      RunPayloadType(src, After(src, pos, calls[0]), calls[1..]);
      forall r | r in Emitted(src, pos, calls[0]) ensures r.payloadType & 0x80 == 0 {
        var k :| 0 <= k < SentCount(calls[0]) && Emitted(src, pos, calls[0])[k] == r;
        PacketAt(src, pos, calls[0].payloads, 0, SentCount(calls[0]), k);
      }
    }
  }

  lemma PacketsReceived(src: Source, pos: Position, calls: seq<Call>)
    requires src.payloadType == VIDEO_PAYLOAD_TYPE && StopsAtError(calls)
    ensures ReceivePackets(PacketBytes(Flat(Run(src, pos, calls))), pos.seqNo) == Some(Groups(calls))
  {
    hide ParseAll, PacketBytes, Flat, Run, Assemble, Groups, StopsAtError;
    VideoPayloadType();
    RunPayloadType(src, pos, calls);
    ParseAllInverts(Flat(Run(src, pos, calls)));
    RunAssembled(src, pos, calls);
  }

  /**
   The connection may carry frames of other channels and RTSP messages in between: the frames
   completed on this channel arrive, in order and whole.
   */
  lemma GroupsArrive(src: Source, pos: Position, calls: seq<Call>, channel: byte, shared: seq<Traffic>)
    requires src.payloadType == VIDEO_PAYLOAD_TYPE && StopsAtError(calls)
    requires OnChannel(FramesOf(shared), channel) == PacketBytes(Flat(Run(src, pos, calls)))
    requires forall t :: t in shared ==> IsReadable(t)
    ensures ReceiveGroups(Wire(shared), channel, pos.seqNo) == Some(Groups(calls))
  {
    hide Wire, Deframe, FramesOf, PacketBytes, OnChannel, Flat, Run, Groups, IsReadable, StopsAtError, ReceivePackets;
    DeframeInverts(shared);
    PacketsReceived(src, pos, calls);
  }

  /** Over UDP each packet is a datagram by itself: what a run has sent is received frame by frame. */
  lemma DatagramsArrive(src: Source, st: State, calls: seq<Call>)
    requires src.payloadType == VIDEO_PAYLOAD_TYPE && StopsAtError(calls) && st.log == []
    ensures ReceivePackets(AfterAll(Udp, src, st, calls).log, st.pos.seqNo) == Some(Groups(calls))
  {
    hide PacketBytes, Flat, Run, Groups, StopsAtError, ReceivePackets, AfterAll, DeliveredAll;
    var packets := Flat(Run(src, st.pos, calls));
    PacketsReceived(src, st.pos, calls);
    CountersMatch(Udp, src, st, calls);
    UdpLog(packets);
    assert st.log + DeliveredAll(Udp, packets) == DeliveredAll(Udp, packets);
  }

  lemma {:induction false} UdpLog(packets: seq<Rtp>)
    ensures DeliveredAll(Udp, packets) == PacketBytes(packets)
  {
    hide BuildPacket;
    if packets != [] {
      UdpLog(packets[1..]);
    }
  }

  lemma VideoPayloadType()
    ensures VIDEO_PAYLOAD_TYPE & 0x80 == 0
  {
  }

  /** What the stream itself puts on a TCP connection is such traffic. */
  function OwnFrames(channel: byte, packets: seq<Rtp>): seq<Traffic> {
    if packets == [] then []
    else [Framed(Interleaved(channel, BuildPacket(packets[0])))] + OwnFrames(channel, packets[1..])
  }

  function Concat(log: seq<seq<byte>>): seq<byte> {
    if log == [] then [] else log[0] + Concat(log[1..])
  }

  lemma {:induction false} LogIsWire(channel: byte, packets: seq<Rtp>)
    ensures Concat(DeliveredAll(Tcp(channel), packets)) == Wire(OwnFrames(channel, packets))
    ensures OnChannel(FramesOf(OwnFrames(channel, packets)), channel) == PacketBytes(packets)
  {
    hide BuildPacket, FrameBytes;
    if packets != [] {
      LogIsWire(channel, packets[1..]);
      var head := Interleaved(channel, BuildPacket(packets[0]));
      var own, rest := OwnFrames(channel, packets), OwnFrames(channel, packets[1..]);
      assert own == [Framed(head)] + rest && own[1..] == rest;
      assert Wire(own) == FrameBytes(head) + Wire(rest);
      assert FramesOf(own) == [head] + FramesOf(rest) && FramesOf(own)[1..] == FramesOf(rest);
      assert DeliveredAll(Tcp(channel), packets)[1..] == DeliveredAll(Tcp(channel), packets[1..]);
    }
  }

  /** The health counters tell what was written: packets, and bytes without the four of each frame on TCP. */
  lemma CountersAreOutput(output: Output, src: Source, st: State, calls: seq<Call>)
    ensures var st' := AfterAll(output, src, st, calls);
            && st.log <= st'.log
            && |st'.log| - |st.log| == st'.packetsSent - st.packetsSent
            && |Concat(st'.log[|st.log|..])|
               == st'.bytesSent - st.bytesSent + if output.Tcp? then 4 * (st'.packetsSent - st.packetsSent) else 0
  {
    hide AfterAll, Flat, Run, DeliveredAll, TotalBytes, Concat;
    var packets := Flat(Run(src, st.pos, calls));
    CountersMatch(output, src, st, calls);
    OutputSize(output, packets);
    assert (st.log + DeliveredAll(output, packets))[|st.log|..] == DeliveredAll(output, packets);
  }

  lemma {:induction false} OutputSize(output: Output, packets: seq<Rtp>)
    ensures |DeliveredAll(output, packets)| == |packets|
    ensures |Concat(DeliveredAll(output, packets))|
            == TotalBytes(packets) + if output.Tcp? then 4 * |packets| else 0
  {
    hide BuildPacket, FrameBytes;
    if packets != [] {
      OutputSize(output, packets[1..]);
      assert DeliveredAll(output, packets)[1..] == DeliveredAll(output, packets[1..]);
    }
  }

  // ----- Sizes -----

  /** All payloads of all calls leave room for the RTP header below 2^16 bytes. */
  ghost predicate SmallPayloads(calls: seq<Call>) {
    forall k, i :: 0 <= k < |calls| && 0 <= i < |calls[k].payloads| ==> 12 + |calls[k].payloads[i]| < 0x1_0000
  }

  lemma {:induction false} FramesSmall(src: Source, pos: Position, calls: seq<Call>, channel: byte)
    requires SmallPayloads(calls)
    ensures forall t :: t in OwnFrames(channel, Flat(Run(src, pos, calls))) ==> IsReadable(t)
    decreases |calls|
  {
    hide PacketsFrom, Flat, Run, Advance, Later;
    FlatUnfold(src, pos, calls);
    if calls == [] {
      assert OwnFrames(channel, []) == [];
    } else {
      var first, rest := Emitted(src, pos, calls[0]), Flat(Run(src, After(src, pos, calls[0]), calls[1..]));
      assert SmallPayloads(calls[1..]) by {
        forall k, i | 0 <= k < |calls| - 1 && 0 <= i < |calls[1..][k].payloads|
          ensures 12 + |calls[1..][k].payloads[i]| < 0x1_0000
        {
          assert calls[1..][k] == calls[k + 1];
        }
      }
      FramesSmall(src, After(src, pos, calls[0]), calls[1..], channel);
      forall r | r in first ensures 12 + |r.payload| < 0x1_0000 {
        var k :| 0 <= k < |first| && first[k] == r;
        PacketAt(src, pos, calls[0].payloads, 0, SentCount(calls[0]), k);
      }
      OwnFramesAppend(channel, first, rest);
      OwnFramesSmall(channel, first);
    }
  }

  lemma {:induction false} OwnFramesSmall(channel: byte, packets: seq<Rtp>)
    requires forall r :: r in packets ==> 12 + |r.payload| < 0x1_0000
    ensures forall t :: t in OwnFrames(channel, packets) ==> IsReadable(t)
  {
    hide BuildPacket;
    if packets != [] {
      assert packets[0] in packets;
      OwnFramesSmall(channel, packets[1..]);
    }
  }

  lemma {:induction false} OwnFramesAppend(channel: byte, a: seq<Rtp>, b: seq<Rtp>)
    ensures OwnFrames(channel, a + b) == OwnFrames(channel, a) + OwnFrames(channel, b)
  {
    hide BuildPacket;
    if a == [] {
      assert a + b == b;
    } else {
      assert (a + b)[1..] == a[1..] + b;
      OwnFramesAppend(channel, a[1..], b);
    }
  }

  // ----- H.264, end to end -----

  function H264Payloads(p: H264.Packetizer, frame: seq<byte>): seq<seq<byte>> {
    H264.Payloads(AnnexB.Nals(frame), H264.MaxPayload(p))
  }

  /** A run up to its first error: all of `frames` get out, and `accepted` packets of `last`. */
  function H264Run(p: H264.Packetizer, frames: seq<seq<byte>>, last: seq<byte>, accepted: nat): (calls: seq<Call>)
    ensures |calls| == |frames| + 1
  {
    if frames == [] then [Call(H264Payloads(p, last), accepted)]
    else
      var payloads := H264Payloads(p, frames[0]);
      [Call(payloads, |payloads|)] + H264Run(p, frames[1..], last, accepted)
  }

  /** The frames of such a run that get out. */
  function Sent(p: H264.Packetizer, frames: seq<seq<byte>>, last: seq<byte>, accepted: nat): seq<seq<byte>> {
    frames + if |H264Payloads(p, last)| <= accepted then [last] else []
  }

  ghost predicate FrameSendable(frame: seq<byte>) {
    forall nal :: nal in AnnexB.Nals(frame) ==> H264.IsSendable(nal)
  }

  ghost predicate AllSendable(frames: seq<seq<byte>>) {
    forall k :: 0 <= k < |frames| ==> FrameSendable(frames[k])
  }

  /** The NAL units of each frame; `None` when some group of payloads is malformed. */
  function DecodeH264(groups: seq<seq<seq<byte>>>): Option<seq<seq<seq<byte>>>> {
    if groups == [] then Some([])
    else
      var nals := H264.Depacketize(groups[0], None);
      if nals.None? then None else Prepend(nals.value, DecodeH264(groups[1..]))
  }

  /** The frames that have NAL units, as lists of NAL units. */
  function NalLists(frames: seq<seq<byte>>): seq<seq<seq<byte>>> {
    if frames == [] then []
    else (if AnnexB.Nals(frames[0]) == [] then [] else [AnnexB.Nals(frames[0])]) + NalLists(frames[1..])
  }

  lemma {:induction false} H264RunFacts(p: H264.Packetizer, frames: seq<seq<byte>>, last: seq<byte>, accepted: nat)
    requires p.mtu < 0x1_0000
    ensures StopsAtError(H264Run(p, frames, last, accepted)) && SmallPayloads(H264Run(p, frames, last, accepted))
  {
    hide H264Payloads, StopsAtError, SmallPayloads, Completed;
    if frames == [] {
      H264PayloadsSmall(p, last);
      OneCall(Call(H264Payloads(p, last), accepted));
    } else {
      H264PayloadsSmall(p, frames[0]);
      H264RunFacts(p, frames[1..], last, accepted);
      var payloads := H264Payloads(p, frames[0]);
      MoreCalls(Call(payloads, |payloads|), H264Run(p, frames[1..], last, accepted));
    }
  }

  lemma H264PayloadsSmall(p: H264.Packetizer, frame: seq<byte>)
    requires p.mtu < 0x1_0000
    ensures AllSmall(H264Payloads(p, frame))
  {
    hide AnnexB.Nals, H264.Payloads;
    H264.PayloadsFit(AnnexB.Nals(frame), H264.MaxPayload(p));
    var ps := H264Payloads(p, frame);
    forall i | 0 <= i < |ps| ensures 12 + |ps[i]| < 0x1_0000 {
      assert ps[i] in ps;
    }
  }

  ghost predicate AllSmall(payloads: seq<seq<byte>>) {
    forall i :: 0 <= i < |payloads| ==> 12 + |payloads[i]| < 0x1_0000
  }

  lemma OneCall(call: Call)
    requires AllSmall(call.payloads)
    ensures StopsAtError([call]) && SmallPayloads([call])
  {
  }

  lemma MoreCalls(call: Call, rest: seq<Call>)
    requires AllSmall(call.payloads) && call.accepted == |call.payloads|
    requires StopsAtError(rest) && SmallPayloads(rest)
    ensures StopsAtError([call] + rest) && SmallPayloads([call] + rest)
  {
  }

  lemma NalsSurvive(p: H264.Packetizer, frame: seq<byte>)
    requires FrameSendable(frame)
    ensures var nals := AnnexB.Nals(frame);
            var payloads := H264.Payloads(nals, H264.MaxPayload(p));
            && H264.Depacketize(payloads, None) == Some(nals)
            && (payloads == [] <==> nals == [])
  {
    hide AnnexB.Nals;
    var nals := AnnexB.Nals(frame);
    H264.DepacketizeInverts(nals, H264.MaxPayload(p));
  }

  lemma {:induction false} GroupsDecoded(p: H264.Packetizer, frames: seq<seq<byte>>, last: seq<byte>, accepted: nat)
    requires AllSendable(Sent(p, frames, last, accepted))
    ensures DecodeH264(Groups(H264Run(p, frames, last, accepted))) == Some(NalLists(Sent(p, frames, last, accepted)))
    decreases |frames|
  {
    hide AnnexB.Nals, H264.Payloads, H264.Depacketize, FrameSendable;
    var calls, sent := H264Run(p, frames, last, accepted), Sent(p, frames, last, accepted);
    if sent != [] {
      NalsSurvive(p, sent[0]);
    }
    if frames == [] {
      assert calls[1..] == [] && (sent != [] ==> sent[1..] == []);
    } else {
      assert calls[1..] == H264Run(p, frames[1..], last, accepted);
      assert sent[1..] == Sent(p, frames[1..], last, accepted) && sent[0] == frames[0];
      forall k | 0 <= k < |sent[1..]| ensures FrameSendable(sent[1..][k]) {
        assert sent[1..][k] == sent[k + 1];
      }
      GroupsDecoded(p, frames[1..], last, accepted);
      OneMoreGroup(calls, sent);
    }
  }

  /** One more completed frame in front. */
  lemma {:induction false} OneMoreGroup(calls: seq<Call>, sent: seq<seq<byte>>)
    requires calls != [] && sent != [] && Completed(calls[0])
    requires H264.Depacketize(calls[0].payloads, None) == Some(AnnexB.Nals(sent[0]))
    requires calls[0].payloads == [] <==> AnnexB.Nals(sent[0]) == []
    requires DecodeH264(Groups(calls[1..])) == Some(NalLists(sent[1..]))
    ensures DecodeH264(Groups(calls)) == Some(NalLists(sent))
  {
    hide AnnexB.Nals, H264.Depacketize, Completed;
    var payloads, nals := calls[0].payloads, AnnexB.Nals(sent[0]);
    if payloads != [] {
      assert Groups(calls) == [payloads] + Groups(calls[1..]) && Groups(calls)[1..] == Groups(calls[1..]);
      assert NalLists(sent) == [nals] + NalLists(sent[1..]);
    } else {
      assert Groups(calls) == Groups(calls[1..]);
      assert NalLists(sent) == NalLists(sent[1..]);
    }
  }

  /**
   For every run of H.264 frames of NAL units of types 1 to 23, up to its end or its first error,
   whatever frames of other channels and RTSP messages share the connection: deframing, stripping
   the RTP headers, cutting at the marker bits and undoing FU-A gives back the NAL units of each
   frame sent that has any, in order.
   */
  lemma H264EndToEnd(src: Source, pos: Position, p: H264.Packetizer, frames: seq<seq<byte>>, last: seq<byte>,
                     accepted: nat, channel: byte, shared: seq<Traffic>)
    requires src.payloadType == VIDEO_PAYLOAD_TYPE && p.mtu < 0x1_0000
    requires AllSendable(Sent(p, frames, last, accepted))
    requires OnChannel(FramesOf(shared), channel)
          == PacketBytes(Flat(Run(src, pos, H264Run(p, frames, last, accepted))))
    requires forall t :: t in shared ==> IsReadable(t)
    ensures var groups := ReceiveGroups(Wire(shared), channel, pos.seqNo);
            groups.Some? && DecodeH264(groups.value) == Some(NalLists(Sent(p, frames, last, accepted)))
  {
    hide Flat, Run, PacketBytes, OnChannel, FramesOf, Wire, ReceiveGroups, DecodeH264, NalLists, Sent, AllSendable,
         Groups, SmallPayloads, StopsAtError, IsReadable;
    H264RunFacts(p, frames, last, accepted);
    GroupsArrive(src, pos, H264Run(p, frames, last, accepted), channel, shared);
    GroupsDecoded(p, frames, last, accepted);
  }

  /** The same for the bytes the stream writes, where the 16-bit length never truncates. */
  lemma H264StreamDecodes(src: Source, st: State, p: H264.Packetizer, frames: seq<seq<byte>>, last: seq<byte>,
                          accepted: nat, channel: byte)
    requires src.payloadType == VIDEO_PAYLOAD_TYPE && p.mtu < 0x1_0000 && st.log == []
    requires AllSendable(Sent(p, frames, last, accepted))
    ensures var wire := Concat(AfterAll(Tcp(channel), src, st, H264Run(p, frames, last, accepted)).log);
            var groups := ReceiveGroups(wire, channel, st.pos.seqNo);
            groups.Some? && DecodeH264(groups.value) == Some(NalLists(Sent(p, frames, last, accepted)))
  {
    hide Flat, Run, PacketBytes, OnChannel, FramesOf, Wire, ReceiveGroups, DecodeH264, NalLists, Sent, AllSendable,
         SmallPayloads, StopsAtError, IsReadable, AfterAll, DeliveredAll, OwnFrames, Concat;
    var calls := H264Run(p, frames, last, accepted);
    var packets := Flat(Run(src, st.pos, calls));
    H264RunFacts(p, frames, last, accepted);
    CountersMatch(Tcp(channel), src, st, calls);
    LogIsWire(channel, packets);
    FramesSmall(src, st.pos, calls, channel);
    assert st.log + DeliveredAll(Tcp(channel), packets) == DeliveredAll(Tcp(channel), packets);
    H264EndToEnd(src, st.pos, p, frames, last, accepted, channel, OwnFrames(channel, packets));
  }

  /** The same over UDP. */
  lemma H264DatagramsDecode(src: Source, st: State, p: H264.Packetizer, frames: seq<seq<byte>>, last: seq<byte>,
                            accepted: nat)
    requires src.payloadType == VIDEO_PAYLOAD_TYPE && p.mtu < 0x1_0000 && st.log == []
    requires AllSendable(Sent(p, frames, last, accepted))
    ensures var groups := ReceivePackets(AfterAll(Udp, src, st, H264Run(p, frames, last, accepted)).log, st.pos.seqNo);
            groups.Some? && DecodeH264(groups.value) == Some(NalLists(Sent(p, frames, last, accepted)))
  {
    hide ReceivePackets, DecodeH264, NalLists, Sent, AllSendable, Groups, SmallPayloads, StopsAtError, AfterAll;
    H264RunFacts(p, frames, last, accepted);
    DatagramsArrive(src, st, H264Run(p, frames, last, accepted));
    GroupsDecoded(p, frames, last, accepted);
  }

  // ----- VP9, end to end -----

  /** A run up to its first error; picture ids count on from `id`. */
  function Vp9Run(calls: seq<Vp9.Call>, last: Vp9.Call, accepted: nat, id: bv16, mtu: nat): (r: seq<Call>)
    requires mtu >= 100
    ensures |r| == |calls| + 1
  {
    if calls == [] then [Call(Vp9.PayloadsOf(Vp9.PictureOf(last, id), last.frame, mtu), accepted)]
    else
      var payloads := Vp9.PayloadsOf(Vp9.PictureOf(calls[0], id), calls[0].frame, mtu);
      [Call(payloads, |payloads|)] + Vp9Run(calls[1..], last, accepted, Vp9.NextPictureId(id), mtu)
  }

  /** The frames of such a run that get out. */
  function Vp9Sent(calls: seq<Vp9.Call>, last: Vp9.Call, accepted: nat, id: bv16, mtu: nat): seq<Vp9.Call>
    requires mtu >= 100
  {
    if Completed(Vp9Run(calls, last, accepted, id, mtu)[|calls|]) then calls + [last] else calls
  }

  /** One frame from each group of payloads. */
  function DecodeVp9(groups: seq<seq<seq<byte>>>): Option<seq<Vp9.Frame>> {
    if groups == [] then Some([])
    else
      var frames := Vp9.Receive(groups[0], None);
      if frames.None? || |frames.value| != 1 then None else Vp9.Prepend(frames.value[0], DecodeVp9(groups[1..]))
  }

  lemma ReceiveNone()
    ensures Vp9.Receive([], None) == Some([])
  {
  }

  lemma Vp9FrameAlone(pic: Vp9.Picture, frame: seq<byte>, mtu: nat)
    requires pic.id <= 0x7FFF && mtu >= 100
    ensures var ps := Vp9.PayloadsOf(pic, frame, mtu);
            && ps != [] && Vp9.Receive(ps, None) == Some([Vp9.FrameOf(pic, frame)])
            && (mtu + 12 < 0x1_0000 ==> AllSmall(ps))
  {
    hide Vp9.PayloadsOf, Vp9.FrameOf, Vp9.Parse, Vp9.Receive;
    var ps := Vp9.PayloadsOf(pic, frame, mtu);
    Vp9.FrameReceived(pic, frame, mtu, []);
    ReceiveNone();
    Vp9.FrameShape(pic, frame, mtu);
    assert ps + [] == ps && [Vp9.FrameOf(pic, frame)] + [] == [Vp9.FrameOf(pic, frame)];
    forall k | 0 <= k < |ps| ensures |ps[k]| <= mtu {
      assert Vp9.IsPacketOf(ps[k], pic, mtu, k == 0, k == |ps| - 1);
    }
  }

  lemma {:induction false} Vp9GroupsDecoded(calls: seq<Vp9.Call>, last: Vp9.Call, accepted: nat, id: bv16, mtu: nat)
    requires 100 <= mtu && mtu + 12 < 0x1_0000 && id <= 0x7FFF
    ensures var cs := Vp9Run(calls, last, accepted, id, mtu);
            && StopsAtError(cs) && SmallPayloads(cs)
            && DecodeVp9(Groups(cs)) == Some(Vp9.FramesFrom(Vp9Sent(calls, last, accepted, id, mtu), id))
    decreases |calls|
  {
    hide Vp9.PayloadsOf, Vp9.FrameOf, Vp9.NextPictureId, Vp9.FramesFrom, Vp9.Receive, StopsAtError, SmallPayloads,
         AllSmall, Completed, Groups, DecodeVp9;
    var cs, sent := Vp9Run(calls, last, accepted, id, mtu), Vp9Sent(calls, last, accepted, id, mtu);
    var call := if calls == [] then last else calls[0];
    var pic := Vp9.PictureOf(call, id);
    Vp9FrameAlone(pic, call.frame, mtu);
    if calls == [] {
      OneCall(cs[0]);
      LastVp9(cs[0], last, id);
      assert cs == [cs[0]] && sent == if Completed(cs[0]) then [last] else [];
    } else {
      var id' := Vp9.NextPictureId(id);
      Vp9.NextPictureIdWraps(id);
      var rest := Vp9Run(calls[1..], last, accepted, id', mtu);
      Vp9GroupsDecoded(calls[1..], last, accepted, id', mtu);
      assert cs[1..] == rest && cs == [cs[0]] + rest;
      assert cs[|calls|] == rest[|calls| - 1];
      assert sent[0] == calls[0] && sent[1..] == Vp9Sent(calls[1..], last, accepted, id', mtu);
      MoreCalls(cs[0], rest);
      OneMoreVp9(cs, sent, id);
    }
  }

  lemma {:induction false} LastVp9(call: Call, last: Vp9.Call, id: bv16)
    requires call.payloads != []
    requires Vp9.Receive(call.payloads, None) == Some([Vp9.FrameOf(Vp9.PictureOf(last, id), last.frame)])
    ensures DecodeVp9(Groups([call])) == Some(Vp9.FramesFrom(if Completed(call) then [last] else [], id))
  {
    hide Vp9.Receive, Vp9.FrameOf, Vp9.NextPictureId, Completed;
    assert [call][1..] == [] && [last][1..] == [];
    assert Groups([call]) == if Completed(call) then [call.payloads] else [];
    assert [call.payloads][1..] == [];
  }

  lemma {:induction false} OneMoreVp9(calls: seq<Call>, sent: seq<Vp9.Call>, id: bv16)
    requires calls != [] && sent != [] && Completed(calls[0]) && calls[0].payloads != []
    requires Vp9.Receive(calls[0].payloads, None) == Some([Vp9.FrameOf(Vp9.PictureOf(sent[0], id), sent[0].frame)])
    requires DecodeVp9(Groups(calls[1..])) == Some(Vp9.FramesFrom(sent[1..], Vp9.NextPictureId(id)))
    ensures DecodeVp9(Groups(calls)) == Some(Vp9.FramesFrom(sent, id))
  {
    hide Vp9.Receive, Vp9.FrameOf, Vp9.NextPictureId, Completed;
    assert Groups(calls) == [calls[0].payloads] + Groups(calls[1..]) && Groups(calls)[1..] == Groups(calls[1..]);
  }

  /** Every VP9 frame of a run that gets out arrives, with its picture id, over the same connections. */
  lemma Vp9EndToEnd(src: Source, pos: Position, calls: seq<Vp9.Call>, last: Vp9.Call, accepted: nat, id: bv16,
                    mtu: nat, channel: byte, shared: seq<Traffic>)
    requires src.payloadType == VIDEO_PAYLOAD_TYPE && 100 <= mtu && mtu + 12 < 0x1_0000 && id <= 0x7FFF
    requires OnChannel(FramesOf(shared), channel)
          == PacketBytes(Flat(Run(src, pos, Vp9Run(calls, last, accepted, id, mtu))))
    requires forall t :: t in shared ==> IsReadable(t)
    ensures var groups := ReceiveGroups(Wire(shared), channel, pos.seqNo);
            && groups.Some?
            && DecodeVp9(groups.value) == Some(Vp9.FramesFrom(Vp9Sent(calls, last, accepted, id, mtu), id))
  {
    hide Flat, Run, PacketBytes, OnChannel, FramesOf, Wire, ReceiveGroups, DecodeVp9, Groups, SmallPayloads,
         StopsAtError, IsReadable;
    Vp9GroupsDecoded(calls, last, accepted, id, mtu);
    GroupsArrive(src, pos, Vp9Run(calls, last, accepted, id, mtu), channel, shared);
  }
}
