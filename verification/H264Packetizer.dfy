/**
 RTP payloads for H.264 (RFC 6184): NAL units that fit are sent as they are (section 5.6), longer
 ones as FU-A fragments (section 5.8).  The repository only sends; the receiver here is the one
 those sections describe, and it is proved to undo the sender.
 */
module H264Packetizer {
  import opened Bytes
  import opened Common
  import opened AnnexB

  const DEFAULT_MTU: nat := 1200
  const RTP_HEADER_SIZE: nat := 12
  const FU_A: byte := 28

  datatype PacketizerConfig = Config(mtu: nat)

  /** The two constructors allow no MTU below 100. */
  type Packetizer = p: PacketizerConfig | p.mtu >= 100 witness Config(1200)

  function New(): (p: Packetizer)
    ensures p.mtu == 1200
  {
    Config(DEFAULT_MTU)
  }

  function WithMtu(mtu: nat): (p: Packetizer)
    ensures p.mtu >= 100 && p.mtu >= mtu && (p.mtu == mtu || p.mtu == 100)
  {
    Config(if mtu < 100 then 100 else mtu)
  }

  function MaxPayload(p: Packetizer): nat {
    p.mtu - RTP_HEADER_SIZE
  }

  // ----- The sender, as a function -----

  /** Octet 0 of a fragment: F and NRI of the NAL unit, type 28. */
  function FuIndicator(header: byte): byte {
    (header & 0xE0) | FU_A
  }

  /** Octet 1 of a fragment: start bit, end bit, type of the NAL unit. */
  function FuHeader(header: byte, first: bool, last: bool): byte {
    (header & 0x1F) | (if first then 0x80 else 0) | (if last then 0x40 else 0)
  }

  /** End of the chunk that starts at `at`, an index into the NAL unit past its header. */
  function ChunkEnd(nal: seq<byte>, max: nat, at: nat): (end: nat)
    requires 1 <= at < |nal| && max > 2
    ensures at < end <= |nal| && end - at <= max - 2
  {
    if |nal| - at <= max - 2 then |nal| else at + (max - 2)
  }

  function Fragment(nal: seq<byte>, max: nat, at: nat): seq<byte>
    requires 1 <= at < |nal| && max > 2
  {
    var end := ChunkEnd(nal, max, at);
    [FuIndicator(nal[0]), FuHeader(nal[0], at == 1, end == |nal|)] + nal[at..end]
  }

  /** The fragments of `nal` from `at` on. */
  function Fragments(nal: seq<byte>, max: nat, at: nat): seq<seq<byte>>
    requires 1 <= at <= |nal| && max > 2
    decreases |nal| - at
  {
    if at == |nal| then [] else [Fragment(nal, max, at)] + Fragments(nal, max, ChunkEnd(nal, max, at))
  }

  function PayloadsOfNal(nal: seq<byte>, max: nat): seq<seq<byte>>
    requires nal != [] && max > 2
  {
    if |nal| <= max then [nal] else Fragments(nal, max, 1)
  }

  function Payloads(nals: seq<seq<byte>>, max: nat): seq<seq<byte>>
    requires max > 2
  {
    if nals == [] then
      []
    else
      (if nals[0] == [] then [] else PayloadsOfNal(nals[0], max)) + Payloads(nals[1..], max)
  }

  // ----- The sender, as the program runs it -----

  method Packetize(p: Packetizer, annexB: seq<byte>) returns (payloads: seq<seq<byte>>)
    ensures payloads == Payloads(Nals(annexB), MaxPayload(p))
  {
    hide Nals, PayloadsOfNal;
    var nals := SplitAnnexB(annexB);
    var maxPayload := MaxPayload(p);
    payloads := [];
    for k := 0 to |nals|
      invariant payloads + Payloads(nals[k..], maxPayload) == Payloads(nals, maxPayload)
    {
      var nal := nals[k];
      ghost var before := payloads;
      assert nals[k..][1..] == nals[k + 1..];
      if nal != [] {
        payloads := PushNal(nal, maxPayload, payloads);
        assert before + (PayloadsOfNal(nal, maxPayload) + Payloads(nals[k + 1..], maxPayload))
            == payloads + Payloads(nals[k + 1..], maxPayload);
      }
    }
  }

  /** One round of the loop over the NAL units: sent whole, or in fragments. */
  method PushNal(nal: seq<byte>, maxPayload: nat, payloads: seq<seq<byte>>) returns (r: seq<seq<byte>>)
    requires nal != [] && maxPayload > 2
    ensures r == payloads + PayloadsOfNal(nal, maxPayload)
  {
    if |nal| <= maxPayload {
      r := payloads + [nal];
    } else {
      r := FragmentFuA(nal, maxPayload, payloads);
    }
  }

  method FragmentFuA(nal: seq<byte>, maxPayload: nat, payloads: seq<seq<byte>>) returns (r: seq<seq<byte>>)
    requires |nal| > maxPayload > 2
    ensures r == payloads + Fragments(nal, maxPayload, 1)
  {
    hide Fragment, Fragments, ChunkEnd;
    r := payloads;
    var dataLen := |nal| - 1;
    var offset := 0;
    while offset < dataLen
      invariant 0 <= offset <= dataLen
      invariant r + Fragments(nal, maxPayload, offset + 1) == payloads + Fragments(nal, maxPayload, 1)
    {
      var pkt, chunkSize := NextFragment(nal, maxPayload, offset);
      FragmentsUnfold(nal, maxPayload, offset + 1);
      assert r + ([pkt] + Fragments(nal, maxPayload, offset + chunkSize + 1))
          == (r + [pkt]) + Fragments(nal, maxPayload, offset + chunkSize + 1);
      r := r + [pkt];
      offset := offset + chunkSize;
    }
    FragmentsUnfold(nal, maxPayload, offset + 1);
  }

  /** The body of the fragmenting loop; `offset` counts from behind the NAL header. */
  method NextFragment(nal: seq<byte>, maxPayload: nat, offset: nat) returns (pkt: seq<byte>, chunkSize: nat)
    requires maxPayload > 2 && offset < |nal| - 1
    ensures pkt == Fragment(nal, maxPayload, offset + 1)
    ensures ChunkEnd(nal, maxPayload, offset + 1) == offset + chunkSize + 1
  {
    hide FuIndicator, FuHeader;
    var data := nal[1..];
    var fragMax := maxPayload - 2;
    var remaining := |data| - offset;
    chunkSize := if remaining < fragMax then remaining else fragMax;
    var isFirst := offset == 0;
    var isLast := offset + chunkSize >= |data|;
    var fuIndicator, fuHeader := FuBytes(nal[0], isFirst, isLast);
    pkt := [fuIndicator, fuHeader] + data[offset..offset + chunkSize];
    assert data[offset..offset + chunkSize] == nal[offset + 1..offset + 1 + chunkSize];
  }

  /** The two octets in front of a chunk. */
  method FuBytes(nalHeader: byte, isFirst: bool, isLast: bool) returns (fuIndicator: byte, fuHeader: byte)
    ensures fuIndicator == FuIndicator(nalHeader) && fuHeader == FuHeader(nalHeader, isFirst, isLast)
  {
    var fNri := nalHeader & 0xE0;
    var nalType := nalHeader & 0x1F;
    fuIndicator := fNri | FU_A;
    fuHeader := nalType;
    if isFirst {
      fuHeader := fuHeader | 0x80;
    }
    if isLast {
      fuHeader := fuHeader | 0x40;
    }
  }

  lemma FragmentsUnfold(nal: seq<byte>, max: nat, at: nat)
    requires 1 <= at <= |nal| && max > 2
    ensures Fragments(nal, max, at) == if at == |nal| then [] else
                                       [Fragment(nal, max, at)] + Fragments(nal, max, ChunkEnd(nal, max, at))
  {
  }

  // ----- What goes on the wire -----

  lemma FuBits(header: byte, first: bool, last: bool)
    ensures FuIndicator(header) & 0x1F == 28 && FuIndicator(header) & 0xE0 == header & 0xE0
    ensures var fu := FuHeader(header, first, last);
            && (fu & 0x80 != 0 <==> first) && (fu & 0x40 != 0 <==> last) && fu & 0x20 == 0
            && fu & 0x1F == header & 0x1F
            && (FuIndicator(header) & 0xE0) | (fu & 0x1F) == header
  {
  }

  /** A fragment of section 5.8, within the limit, of a NAL unit with the given header. */
  predicate IsFuA(p: seq<byte>, max: nat, header: byte, first: bool, last: bool) {
    && 2 < |p| <= max
    && p[0] & 0x1F == 28 && p[0] & 0xE0 == header & 0xE0
    && p[1] & 0x1F == header & 0x1F && p[1] & 0x20 == 0
    && (p[1] & 0x80 != 0 <==> first)
    && (p[1] & 0x40 != 0 <==> last)
  }

  /**
   The fragments of a NAL unit that is too long: at least two, so that the start bit, on the
   first alone, and the end bit, on the last alone, never meet.
   */
  lemma FragmentShape(nal: seq<byte>, max: nat)
    requires |nal| > max > 2
    ensures var fs := Fragments(nal, max, 1);
            && |fs| >= 2
            && forall k :: 0 <= k < |fs| ==> IsFuA(fs[k], max, nal[0], k == 0, k == |fs| - 1)
  {
    hide IsFuA;
    FragmentShapeFrom(nal, max, 1);
    var end := ChunkEnd(nal, max, 1);
    assert end < |nal|;
  }

  lemma {:induction false} FragmentShapeFrom(nal: seq<byte>, max: nat, at: nat)
    requires 1 <= at < |nal| && max > 2
    ensures var fs := Fragments(nal, max, at);
            && |fs| >= 1 && (ChunkEnd(nal, max, at) < |nal| ==> |fs| >= 2)
            && forall k :: 0 <= k < |fs| ==> IsFuA(fs[k], max, nal[0], k == 0 && at == 1, k == |fs| - 1)
    decreases |nal| - at
  {
    hide Fragment, IsFuA;
    var end := ChunkEnd(nal, max, at);
    FragmentIsFuA(nal, max, at);
    if end < |nal| {
      FragmentShapeFrom(nal, max, end);
    }
  }

  lemma FragmentIsFuA(nal: seq<byte>, max: nat, at: nat)
    requires 1 <= at < |nal| && max > 2
    ensures IsFuA(Fragment(nal, max, at), max, nal[0], at == 1, ChunkEnd(nal, max, at) == |nal|)
  {
  }

  /** Every payload is non-empty and leaves room for the RTP header within the MTU. */
  lemma {:induction false} PayloadsFit(nals: seq<seq<byte>>, max: nat)
    requires max > 2
    ensures forall p :: p in Payloads(nals, max) ==> 0 < |p| <= max
  {
    hide PayloadsOfNal;
    if nals != [] {
      PayloadsFit(nals[1..], max);
      if nals[0] != [] {
        NalPayloadsFit(nals[0], max);
      }
    }
  }

  lemma NalPayloadsFit(nal: seq<byte>, max: nat)
    requires nal != [] && max > 2
    ensures PayloadsOfNal(nal, max) != []
    ensures forall p :: p in PayloadsOfNal(nal, max) ==> 0 < |p| <= max
  {
    hide Fragments;
    if |nal| > max {
      FragmentShape(nal, max);
      forall p | p in Fragments(nal, max, 1) ensures 0 < |p| <= max {
        var fs := Fragments(nal, max, 1);
        var k :| 0 <= k < |fs| && fs[k] == p;
        assert IsFuA(fs[k], max, nal[0], k == 0, k == |fs| - 1);
      }
    }
  }

  /**
   A NAL unit goes out whole exactly when it fits behind the RTP header, and no packet but the last of a
   fragmented one leaves room for more.
   */
  lemma WholeOrFull(p: Packetizer, nal: seq<byte>)
    requires nal != []
    ensures var ps := PayloadsOfNal(nal, MaxPayload(p));
            && (ps == [nal] <==> 12 + |nal| <= p.mtu)
            && (12 + |nal| > p.mtu ==> forall k :: 0 <= k < |ps| - 1 ==> 12 + |ps[k]| == p.mtu)
  {
    hide Fragments;
    if |nal| > MaxPayload(p) {
      FragmentShape(nal, MaxPayload(p));
      FragmentsFull(nal, MaxPayload(p), 1);
    }
  }

  lemma {:induction false} FragmentsFull(nal: seq<byte>, max: nat, at: nat)
    requires 1 <= at <= |nal| && max > 2
    ensures var fs := Fragments(nal, max, at);
            forall k :: 0 <= k < |fs| - 1 ==> |fs[k]| == max
    decreases |nal| - at
  {
    hide Fragment;
    if at < |nal| {
      var end := ChunkEnd(nal, max, at);
      FragmentsUnfold(nal, max, at);
      FragmentsUnfold(nal, max, end);
      FragmentsFull(nal, max, end);
      assert |Fragment(nal, max, at)| == 2 + (end - at) by {
        FragmentSize(nal, max, at);
      }
    }
  }

  lemma FragmentSize(nal: seq<byte>, max: nat, at: nat)
    requires 1 <= at < |nal| && max > 2
    ensures |Fragment(nal, max, at)| == 2 + (ChunkEnd(nal, max, at) - at)
  {
  }

  // ----- The receiver of sections 5.2, 5.6 and 5.8 -----

  function NalType(payload: seq<byte>): byte
    requires payload != []
  {
    payload[0] & 0x1F
  }

  predicate IsSingleType(t: byte) {
    1 <= t <= 23
  }

  function Prepend(nal: seq<byte>, rest: Option<seq<seq<byte>>>): Option<seq<seq<byte>>> {
    if rest.Some? then Some([nal] + rest.value) else None
  }

  /** The NAL unit as far as known after fragment `p`, or `None` when `p` cannot come here. */
  function Extend(partial: Option<seq<byte>>, p: seq<byte>): Option<seq<byte>>
    requires |p| >= 2
    ensures Extend(partial, p).Some? ==> Extend(partial, p).value != []
  {
    var header := (p[0] & 0xE0) | (p[1] & 0x1F);
    var start := p[1] & 0x80 != 0;
    if start && p[1] & 0x40 != 0 then None
    else if start then if partial.None? then Some([header] + p[2..]) else None
    else if partial.None? || partial.value == [] || partial.value[0] != header then None
    else Some(partial.value + p[2..])
  }

  /** The NAL units carried by a sequence of payloads; `None` when it is malformed or incomplete. */
  function Depacketize(payloads: seq<seq<byte>>, partial: Option<seq<byte>>): Option<seq<seq<byte>>> {
    if payloads == [] then
      if partial.None? then Some([]) else None
    else
      var p, rest := payloads[0], payloads[1..];
      if p == [] then
        None
      else if IsSingleType(NalType(p)) then
        if partial.None? then Prepend(p, Depacketize(rest, None)) else None
      else if NalType(p) == 28 && |p| >= 2 then
        var nal := Extend(partial, p);
        if nal.None? then None
        else if p[1] & 0x40 != 0 then Prepend(nal.value, Depacketize(rest, None))
        else Depacketize(rest, nal)
      else
        None
  }

  /** What the receiver makes of one fragment. */
  lemma TakesFragment(nal: seq<byte>, max: nat, at: nat)
    requires 1 <= at < |nal| && max > 2 && |nal| > max
    ensures var p := Fragment(nal, max, at);
            && |p| >= 2 && NalType(p) == 28 && !IsSingleType(NalType(p))
            && (p[1] & 0x40 != 0 <==> ChunkEnd(nal, max, at) == |nal|)
            && Extend(Received(nal, at), p) == Some(nal[..ChunkEnd(nal, max, at)])
  {
    hide FuIndicator, FuHeader;
    var end := ChunkEnd(nal, max, at);
    FuBits(nal[0], at == 1, end == |nal|);
    assert Fragment(nal, max, at)[2..] == nal[at..end];
    assert nal[..end] == nal[..at] + nal[at..end];
    assert nal[..1] == [nal[0]];
  }

  /** The part of `nal` a receiver holds when the fragment from `at` is next. */
  function Received(nal: seq<byte>, at: nat): Option<seq<byte>>
    requires 1 <= at <= |nal|
  {
    if at == 1 then None else Some(nal[..at])
  }

  lemma {:induction false} FragmentsReassemble(nal: seq<byte>, max: nat, at: nat, tail: seq<seq<byte>>)
    requires 1 <= at < |nal| && max > 2 && |nal| > max
    ensures Depacketize(Fragments(nal, max, at) + tail, Received(nal, at)) == Prepend(nal, Depacketize(tail, None))
    decreases |nal| - at
  {
    hide Fragment, Fragments, Extend, NalType, IsSingleType;
    var end := ChunkEnd(nal, max, at);
    var p, fs := Fragment(nal, max, at), Fragments(nal, max, at);
    FragmentsUnfold(nal, max, at);
    TakesFragment(nal, max, at);
    assert (fs + tail)[1..] == Fragments(nal, max, end) + tail;
    if end == |nal| {
      FragmentsUnfold(nal, max, end);
      assert nal[..end] == nal;
      assert Fragments(nal, max, end) + tail == tail;
    } else {
      FragmentsReassemble(nal, max, end, tail);
    }
  }

  /** A NAL unit of one of the types that section 5.6 sends whole. */
  predicate IsSendable(nal: seq<byte>) {
    nal != [] && IsSingleType(NalType(nal))
  }

  /** NAL units of the types that may be sent whole survive the trip. */
  lemma {:induction false} DepacketizeInverts(nals: seq<seq<byte>>, max: nat)
    requires max > 2
    requires forall nal :: nal in nals ==> IsSendable(nal)
    ensures Depacketize(Payloads(nals, max), None) == Some(nals)
  {
    if nals != [] {
      var nal, rest := nals[0], nals[1..];
      assert nal in nals;
      DepacketizeInverts(rest, max);
      if |nal| <= max {
        assert ([nal] + Payloads(rest, max))[1..] == Payloads(rest, max);
      } else {
        FragmentsReassemble(nal, max, 1, Payloads(rest, max));
      }
      assert [nal] + rest == nals;
    }
  }

  /** Depacketizing what the packetizer sends gives the NAL units of the stream. */
  lemma PacketizeRoundTrip(p: Packetizer, annexB: seq<byte>)
    requires forall nal :: nal in Nals(annexB) ==> IsSendable(nal)
    ensures var payloads := Payloads(Nals(annexB), MaxPayload(p));
            && Depacketize(payloads, None) == Some(Nals(annexB))
            && forall x :: x in payloads ==> 0 < |x| <= p.mtu - RTP_HEADER_SIZE
  {
    DepacketizeInverts(Nals(annexB), MaxPayload(p));
    PayloadsFit(Nals(annexB), MaxPayload(p));
  }
}
