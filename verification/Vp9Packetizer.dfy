/**
 RTP payloads for VP9 (RFC 9628): a payload descriptor and a piece of the frame.  The repository
 only sends; the receiver here reads descriptors as section 4.2 lays them out, optional fields
 included, and is proved to get every frame back.
 */
module Vp9Packetizer {
  import opened Bytes
  import opened Common

  const DEFAULT_MTU: nat := 1200

  /** What a descriptor is built from besides the position within the frame. */
  datatype Picture = Picture(key: bool, id: bv16, width: bv16, height: bv16)

  // ----- The sender, as a function -----

  function Bit(b: bool): byte {
    if b then 1 else 0
  }

  /** I|P|L|F|B|E|V|Z, with I set and L, F and Z clear. */
  function Flags(key: bool, isStart: bool, isEnd: bool, includeSs: bool): byte {
    (1 << 7) | (Bit(!key) << 6) | (Bit(isStart) << 3) | (Bit(isEnd) << 2) | (Bit(includeSs) << 1)
  }

  function IdBytes(id: bv16): (b: seq<byte>)
    ensures |b| == 2
  {
    [0x80 | (((id >> 8) & 0x7F) as byte), (id & 0xFF) as byte]
  }

  function Structure(pic: Picture): (b: seq<byte>)
    ensures |b| == 5
  {
    [0x10] + BytesOf16(pic.width) + BytesOf16(pic.height)
  }

  function BuildDescriptor(pic: Picture, isStart: bool, isEnd: bool, includeSs: bool): (d: seq<byte>)
    ensures |d| == if includeSs then 8 else 3
  {
    [Flags(pic.key, isStart, isEnd, includeSs)] + IdBytes(pic.id) + if includeSs then Structure(pic) else []
  }

  function NextPictureId(id: bv16): bv16 {
    (id + 1) & 0x7FFF
  }

  /** Bytes of the frame that fit behind the descriptor of the first packet. */
  function FirstMax(pic: Picture, mtu: nat): (n: nat)
    requires mtu >= 100
    ensures n < mtu
  {
    mtu - if pic.key then 8 else 3
  }

  function ChunkEnd(frame: seq<byte>, mtu: nat, at: nat): (end: nat)
    requires at < |frame| && mtu >= 100
    ensures at < end <= |frame| && end - at <= mtu - 3
  {
    if |frame| - at <= mtu - 3 then |frame| else at + (mtu - 3)
  }

  function Continuation(pic: Picture, frame: seq<byte>, mtu: nat, at: nat): seq<byte>
    requires at < |frame| && mtu >= 100
  {
    var end := ChunkEnd(frame, mtu, at);
    BuildDescriptor(pic, false, end == |frame|, false) + frame[at..end]
  }

  function Continuations(pic: Picture, frame: seq<byte>, mtu: nat, at: nat): seq<seq<byte>>
    requires at <= |frame| && mtu >= 100
    decreases |frame| - at
  {
    if at == |frame| then []
    else [Continuation(pic, frame, mtu, at)] + Continuations(pic, frame, mtu, ChunkEnd(frame, mtu, at))
  }

  function PayloadsOf(pic: Picture, frame: seq<byte>, mtu: nat): seq<seq<byte>>
    requires mtu >= 100
  {
    var first := FirstMax(pic, mtu);
    if frame == [] then
      [BuildDescriptor(pic, true, true, true)]
    else if |frame| <= first then
      [BuildDescriptor(pic, true, true, pic.key) + frame]
    else
      [BuildDescriptor(pic, true, false, pic.key) + frame[..first]] + Continuations(pic, frame, mtu, first)
  }

  // ----- The sender, as the program runs it -----

  class Packetizer {
    var pictureId: bv16
    var width: bv16
    var height: bv16
    const mtu: nat

    ghost predicate Valid()
      reads this
    {
      mtu >= 100 && pictureId <= 0x7FFF
    }

    constructor New(width: bv16, height: bv16)
      ensures Valid() && pictureId == 0 && mtu == 1200
      ensures this.width == width && this.height == height
    {
      pictureId := 0;
      this.width := width;
      this.height := height;
      mtu := DEFAULT_MTU;
    }

    constructor WithMtu(width: bv16, height: bv16, mtu: nat)
      ensures Valid() && pictureId == 0 && this.mtu == if mtu < 100 then 100 else mtu
      ensures this.width == width && this.height == height
    {
      pictureId := 0;
      this.width := width;
      this.height := height;
      this.mtu := if mtu < 100 then 100 else mtu;
    }

    method SetResolution(width: bv16, height: bv16)
      requires Valid()
      modifies this`width, this`height
      ensures Valid() && this.width == width && this.height == height
    {
      this.width := width;
      this.height := height;
    }

    /** The picture the next call of `Packetize` sends. */
    function NextPicture(isKeyframe: bool): Picture
      reads this
    {
      Picture(isKeyframe, pictureId, width, height)
    }

    method Packetize(frame: seq<byte>, isKeyframe: bool) returns (packets: seq<seq<byte>>)
      requires Valid()
      modifies this`pictureId
      ensures Valid() && pictureId == NextPictureId(old(pictureId))
      ensures packets == PayloadsOf(old(NextPicture(isKeyframe)), frame, mtu)
      ensures Receive(packets, None)
           == Some([Frame(isKeyframe, Some(old(pictureId)),
                          if isKeyframe || frame == [] then [(width, height)] else [], frame)])
    {
      hide PayloadsOf, Receive;
      var pic := NextPicture(isKeyframe);
      NextPictureIdWraps(pictureId);
      pictureId := NextPictureId(pictureId);
      packets := PacketsOf(pic, frame);
      FrameAlone(pic, frame, mtu);
    }

    /** The rest of `Packetize`, which changes nothing. */
    method PacketsOf(pic: Picture, frame: seq<byte>) returns (packets: seq<seq<byte>>)
      requires Valid()
      ensures packets == PayloadsOf(pic, frame, mtu)
    {
      hide BuildDescriptor, Continuations;
      if frame == [] {
        return [BuildDescriptor(pic, true, true, true)];
      }
      var firstDescriptor := BuildDescriptor(pic, true, false, pic.key);
      var firstMaxPayload := mtu - |firstDescriptor|;
      if |frame| <= firstMaxPayload {
        var desc := BuildDescriptor(pic, true, true, pic.key);
        return [desc + frame];
      }
      packets := Fragment(pic, frame, firstDescriptor);
    }

    /** A frame that needs several packets: the first packet, then continuations until the frame is used up. */
    method Fragment(pic: Picture, frame: seq<byte>, firstDescriptor: seq<byte>) returns (packets: seq<seq<byte>>)
      requires Valid() && |frame| > FirstMax(pic, mtu)
      requires firstDescriptor == BuildDescriptor(pic, true, false, pic.key)
      ensures packets == PayloadsOf(pic, frame, mtu)
    {
      hide BuildDescriptor, Continuation, Continuations;
      var offset := mtu - |firstDescriptor|;
      packets := [firstDescriptor + frame[..offset]];
      while offset < |frame|
        invariant offset <= |frame|
        invariant packets + Continuations(pic, frame, mtu, offset) == PayloadsOf(pic, frame, mtu)
      {
        var pkt, end := NextChunk(pic, frame, offset);
        ContinuationsUnfold(pic, frame, mtu, offset);
        assert packets + ([pkt] + Continuations(pic, frame, mtu, end))
            == (packets + [pkt]) + Continuations(pic, frame, mtu, end);
        packets := packets + [pkt];
        offset := end;
      }
      ContinuationsUnfold(pic, frame, mtu, offset);
    }

    /** The body of the loop over the continuation packets. */
    method NextChunk(pic: Picture, frame: seq<byte>, offset: nat) returns (pkt: seq<byte>, end: nat)
      requires Valid() && offset < |frame|
      ensures end == ChunkEnd(frame, mtu, offset) && pkt == Continuation(pic, frame, mtu, offset)
    {
      hide Flags, IdBytes, Structure, BuildDescriptor;
      var isLast := |frame| - offset <= mtu - |BuildDescriptor(pic, false, true, false)|;
      var desc := BuildDescriptor(pic, false, isLast, false);
      var maxPayload := mtu - |desc|;
      end := if offset + maxPayload < |frame| then offset + maxPayload else |frame|;
      pkt := desc + frame[offset..end];
    }
  }

  lemma ContinuationsUnfold(pic: Picture, frame: seq<byte>, mtu: nat, at: nat)
    requires at <= |frame| && mtu >= 100
    ensures Continuations(pic, frame, mtu, at) == if at == |frame| then [] else
      [Continuation(pic, frame, mtu, at)] + Continuations(pic, frame, mtu, ChunkEnd(frame, mtu, at))
  {
  }

  /** Picture ids count to 2^15 - 1 and start over. */
  lemma NextPictureIdWraps(id: bv16)
    requires id <= 0x7FFF
    ensures NextPictureId(id) == (if id == 0x7FFF then 0 else id + 1) && NextPictureId(id) <= 0x7FFF
  {
  }

  // ----- The descriptor of section 4.2, as a receiver reads it -----

  datatype Header = Header(inter: bool, begins: bool, ends: bool, id: Option<bv16>, sizes: seq<(bv16, bv16)>)

  /** A descriptor and where the piece of the frame starts. */
  datatype Parsed = Parsed(header: Header, start: nat)

  /** Behind the 7- or 15-bit picture id at `at`. */
  function AfterId(p: seq<byte>, at: nat): (next: Option<nat>)
    ensures next.Some? ==> at < next.value <= |p|
  {
    if at >= |p| then None
    else if p[at] & 0x80 == 0 then Some(at + 1)
    else if at + 2 <= |p| then Some(at + 2)
    else None
  }

  function IdAt(p: seq<byte>, at: nat): bv16
    requires AfterId(p, at).Some?
  {
    if p[at] & 0x80 == 0 then p[at] as bv16 else (((p[at] & 0x7F) as bv16) << 8) | (p[at + 1] as bv16)
  }

  /** Behind the layer indices: one octet, and TL0PICIDX outside flexible mode. */
  function AfterLayers(p: seq<byte>, at: nat, flexible: bool): Option<nat> {
    var next := at + if flexible then 1 else 2;
    if next <= |p| then Some(next) else None
  }

  /** Behind the reference differences, of which each says whether another follows; three at most. */
  function AfterReferences(p: seq<byte>, at: nat, left: nat): Option<nat>
    decreases left
  {
    if left == 0 || at >= |p| then None
    else if p[at] & 0x01 == 0 then Some(at + 1)
    else AfterReferences(p, at + 1, left - 1)
  }

  /** `layers` pairs of width and height. */
  function SizesAt(p: seq<byte>, at: nat, layers: nat): Option<seq<(bv16, bv16)>>
    decreases layers
  {
    if layers == 0 then Some([])
    else if at + 4 > |p| then None
    else
      var rest := SizesAt(p, at + 4, layers - 1);
      if rest.None? then None
      else Some([(Value16(p[at..at + 2]), Value16(p[at + 2..at + 4]))] + rest.value)
  }

  /** Behind `pictures` entries of a picture group, each with up to three reference differences. */
  function AfterGroup(p: seq<byte>, at: nat, pictures: nat): Option<nat>
    decreases pictures
  {
    if pictures == 0 then (if at <= |p| then Some(at) else None)
    else if at >= |p| then None
    else AfterGroup(p, at + 1 + NatOf((p[at] >> 2) & 0x03), pictures - 1)
  }

  /** The scalability structure at `at`: the sizes of the layers, and where it ends. */
  function StructureAt(p: seq<byte>, at: nat): Option<(seq<(bv16, bv16)>, nat)> {
    if at >= |p| then None
    else
      var layers := if p[at] & 0x10 != 0 then NatOf(p[at] >> 5) + 1 else 0;
      var sizes := SizesAt(p, at + 1, layers);
      var next := at + 1 + 4 * layers;
      if sizes.None? then None
      else if p[at] & 0x08 == 0 then Some((sizes.value, next))
      else if next >= |p| then None
      else
        var end := AfterGroup(p, next + 1, NatOf(p[next]));
        if end.None? then None else Some((sizes.value, end.value))
  }

  function Parse(p: seq<byte>): Option<Parsed> {
    if p == [] then None
    else
      var flags := p[0];
      var flexible := flags & 0x10 != 0;
      var afterId := if flags & 0x80 != 0 then AfterId(p, 1) else Some(1);
      if afterId.None? then None
      else
        var id := if flags & 0x80 != 0 then Some(IdAt(p, 1)) else None;
        var afterLayers := if flags & 0x20 != 0 then AfterLayers(p, afterId.value, flexible) else afterId;
        if afterLayers.None? then None
        else
          var afterRefs :=
            if flags & 0x40 != 0 && flexible then AfterReferences(p, afterLayers.value, 3) else afterLayers;
          if afterRefs.None? then None
          else
            var ss := if flags & 0x02 != 0 then StructureAt(p, afterRefs.value) else Some(([], afterRefs.value));
            if ss.None? || ss.value.1 > |p| then None
            else Some(Parsed(Header(flags & 0x40 != 0, flags & 0x08 != 0, flags & 0x04 != 0, id, ss.value.0),
                             ss.value.1))
  }

  // ----- The receiver -----

  datatype Frame = Frame(key: bool, id: Option<bv16>, sizes: seq<(bv16, bv16)>, data: seq<byte>)

  /** The frame as far as known after one more payload, or `None` when the payload cannot come here. */
  function Extend(partial: Option<Frame>, p: seq<byte>): Option<Frame> {
    var parsed := Parse(p);
    if parsed.None? || parsed.value.start > |p| then None
    else
      var h, piece := parsed.value.header, p[parsed.value.start..];
      if h.begins then
        if partial.None? then Some(Frame(!h.inter, h.id, h.sizes, piece)) else None
      else if partial.Some? && partial.value.id == h.id && partial.value.key == !h.inter && h.sizes == [] then
        Some(partial.value.(data := partial.value.data + piece))
      else
        None
  }

  predicate Ends(p: seq<byte>) {
    Parse(p).Some? && Parse(p).value.header.ends
  }

  function Prepend(frame: Frame, rest: Option<seq<Frame>>): Option<seq<Frame>> {
    if rest.Some? then Some([frame] + rest.value) else None
  }

  /** The frames carried by a sequence of payloads; `None` when it is malformed or incomplete. */
  function Receive(payloads: seq<seq<byte>>, partial: Option<Frame>): Option<seq<Frame>> {
    if payloads == [] then
      if partial.None? then Some([]) else None
    else
      var frame := Extend(partial, payloads[0]);
      if frame.None? then None
      else if Ends(payloads[0]) then Prepend(frame.value, Receive(payloads[1..], None))
      else Receive(payloads[1..], frame)
  }

  // ----- The sender's descriptors are read as meant -----

  lemma FlagBits(key: bool, isStart: bool, isEnd: bool, includeSs: bool)
    ensures var f := Flags(key, isStart, isEnd, includeSs);
            && f & 0x80 != 0 && (f & 0x40 != 0 <==> !key) && f & 0x20 == 0 && f & 0x10 == 0
            && (f & 0x08 != 0 <==> isStart) && (f & 0x04 != 0 <==> isEnd) && (f & 0x02 != 0 <==> includeSs)
            && f & 0x01 == 0
  {
  }

  lemma IdBits(id: bv16)
    requires id <= 0x7FFF
    ensures var b := IdBytes(id);
            b[0] & 0x80 != 0 && (((b[0] & 0x7F) as bv16) << 8) | (b[1] as bv16) == id
  {
  }

  /** The sizes a receiver reads from a descriptor with a scalability structure. */
  function SizesOf(pic: Picture, includeSs: bool): seq<(bv16, bv16)> {
    if includeSs then [(pic.width, pic.height)] else []
  }

  lemma StructureRead(p: seq<byte>, at: nat, pic: Picture)
    requires at + 5 <= |p| && p[at..at + 5] == Structure(pic)
    ensures StructureAt(p, at) == Some((SizesOf(pic, true), at + 5))
  {
    hide BytesOf16, Value16, NatOf;
    LayersOfOne();
    StructureParts(pic);
    var s := Structure(pic);
    assert p[at] == p[at..at + 5][0] == 0x10;
    SliceOfSlice(p, at, at + 5, 1, 3);
    SliceOfSlice(p, at, at + 5, 3, 5);
    Value16Inverts(pic.width);
    Value16Inverts(pic.height);
    OneLayer(p, at + 1);
  }

  lemma StructureParts(pic: Picture)
    ensures var s := Structure(pic);
            s[0] == 0x10 && s[1..3] == BytesOf16(pic.width) && s[3..5] == BytesOf16(pic.height)
  {
  }

  lemma OneLayer(p: seq<byte>, at: nat)
    requires at + 4 <= |p|
    ensures SizesAt(p, at, 1) == Some([(Value16(p[at..at + 2]), Value16(p[at + 2..at + 4]))])
  {
    hide Value16;
    var one := [(Value16(p[at..at + 2]), Value16(p[at + 2..at + 4]))];
    assert SizesAt(p, at + 4, 0) == Some([]);
    assert one + [] == one;
  }

  lemma LayersOfOne()
    ensures NatOf((0x10 as byte) >> 5) == 0
  {
  }

  lemma DescriptorRead(pic: Picture, isStart: bool, isEnd: bool, includeSs: bool, piece: seq<byte>)
    requires pic.id <= 0x7FFF
    ensures var d := BuildDescriptor(pic, isStart, isEnd, includeSs);
            Parse(d + piece)
              == Some(Parsed(Header(!pic.key, isStart, isEnd, Some(pic.id), SizesOf(pic, includeSs)), |d|))
  {
    hide Flags, IdBytes, Structure, Parse;
    var d := BuildDescriptor(pic, isStart, isEnd, includeSs);
    var p := d + piece;
    assert p[0] == Flags(pic.key, isStart, isEnd, includeSs);
    assert p[1] == IdBytes(pic.id)[0] && p[2] == IdBytes(pic.id)[1];
    assert includeSs ==> p[3..8] == Structure(pic);
    FieldsRead(p, pic, isStart, isEnd, includeSs);
  }

  /** A stream that starts with these bytes. */
  lemma FieldsRead(p: seq<byte>, pic: Picture, isStart: bool, isEnd: bool, includeSs: bool)
    requires pic.id <= 0x7FFF && |p| >= if includeSs then 8 else 3
    requires p[0] == Flags(pic.key, isStart, isEnd, includeSs)
    requires p[1] == IdBytes(pic.id)[0] && p[2] == IdBytes(pic.id)[1]
    requires includeSs ==> p[3..8] == Structure(pic)
    ensures Parse(p) == Some(Parsed(Header(!pic.key, isStart, isEnd, Some(pic.id), SizesOf(pic, includeSs)),
                                    if includeSs then 8 else 3))
  {
    hide Flags, IdBytes, Structure, StructureAt;
    FlagBits(pic.key, isStart, isEnd, includeSs);
    IdBits(pic.id);
    if includeSs {
      StructureRead(p, 3, pic);
    }
  }

  // ----- Shape and round trip -----

  /** The shape promised of a frame's packets. */
  predicate IsPacketOf(p: seq<byte>, pic: Picture, mtu: nat, first: bool, last: bool) {
    && 0 < |p| <= mtu
    && var h := Parse(p);
       h.Some? && h.value.header.begins == first && h.value.header.ends == last && h.value.header.id == Some(pic.id)
  }

  /** B on the first packet alone, E on the last alone, one picture id, nothing over the MTU. */
  lemma FrameShape(pic: Picture, frame: seq<byte>, mtu: nat)
    requires pic.id <= 0x7FFF && mtu >= 100
    ensures var ps := PayloadsOf(pic, frame, mtu);
            ps != [] && forall k :: 0 <= k < |ps| ==> IsPacketOf(ps[k], pic, mtu, k == 0, k == |ps| - 1)
  {
    hide IsPacketOf, BuildDescriptor, Continuation, Continuations, Parse;
    var first := FirstMax(pic, mtu);
    if frame == [] {
      var d := BuildDescriptor(pic, true, true, true);
      DescriptorPacket(pic, mtu, true, true, true, []);
      assert d + [] == d;
    } else if |frame| <= first {
      DescriptorPacket(pic, mtu, true, true, pic.key, frame);
    } else {
      DescriptorPacket(pic, mtu, true, false, pic.key, frame[..first]);
      ContinuationsShape(pic, frame, mtu, first);
    }
  }

  lemma DescriptorPacket(pic: Picture, mtu: nat, isStart: bool, isEnd: bool, includeSs: bool, piece: seq<byte>)
    requires pic.id <= 0x7FFF && |piece| + (if includeSs then 8 else 3) <= mtu
    ensures IsPacketOf(BuildDescriptor(pic, isStart, isEnd, includeSs) + piece, pic, mtu, isStart, isEnd)
  {
    hide BuildDescriptor, Parse;
    DescriptorRead(pic, isStart, isEnd, includeSs, piece);
  }

  lemma {:induction false} ContinuationsShape(pic: Picture, frame: seq<byte>, mtu: nat, at: nat)
    requires pic.id <= 0x7FFF && mtu >= 100 && at < |frame|
    ensures var ps := Continuations(pic, frame, mtu, at);
            ps != [] && forall k :: 0 <= k < |ps| ==> IsPacketOf(ps[k], pic, mtu, false, k == |ps| - 1)
    decreases |frame| - at
  {
    hide IsPacketOf, BuildDescriptor;
    var end := ChunkEnd(frame, mtu, at);
    DescriptorPacket(pic, mtu, false, end == |frame|, false, frame[at..end]);
    if end < |frame| {
      ContinuationsShape(pic, frame, mtu, end);
    }
  }

  /** What the receiver should make of a frame; an empty frame always announces its size. */
  function FrameOf(pic: Picture, data: seq<byte>): Frame {
    Frame(pic.key, Some(pic.id), SizesOf(pic, pic.key || data == []), data)
  }

  /** The frame of which the receiver has the first `at` bytes. */
  function Received(pic: Picture, data: seq<byte>, at: nat): Option<Frame>
    requires 0 < at <= |data|
  {
    Some(FrameOf(pic, data).(data := data[..at]))
  }

  lemma TakesContinuation(pic: Picture, frame: seq<byte>, mtu: nat, at: nat)
    requires pic.id <= 0x7FFF && mtu >= 100 && 0 < at < |frame|
    ensures var p, end := Continuation(pic, frame, mtu, at), ChunkEnd(frame, mtu, at);
            Extend(Received(pic, frame, at), p) == Received(pic, frame, end) && (Ends(p) <==> end == |frame|)
  {
    hide BuildDescriptor, Parse;
    var end := ChunkEnd(frame, mtu, at);
    var d := BuildDescriptor(pic, false, end == |frame|, false);
    DescriptorRead(pic, false, end == |frame|, false, frame[at..end]);
    assert (d + frame[at..end])[3..] == frame[at..end];
    assert frame[..at] + frame[at..end] == frame[..end];
  }

  lemma {:induction false} ContinuationsReceived(pic: Picture, frame: seq<byte>, mtu: nat, at: nat,
                                                 tail: seq<seq<byte>>)
    requires pic.id <= 0x7FFF && mtu >= 100 && 0 < at < |frame|
    ensures Receive(Continuations(pic, frame, mtu, at) + tail, Received(pic, frame, at))
            == Prepend(FrameOf(pic, frame), Receive(tail, None))
    decreases |frame| - at
  {
    hide Continuation, Continuations, Extend, Ends;
    var end := ChunkEnd(frame, mtu, at);
    var ps := Continuations(pic, frame, mtu, at);
    ContinuationsUnfold(pic, frame, mtu, at);
    TakesContinuation(pic, frame, mtu, at);
    assert (ps + tail)[0] == Continuation(pic, frame, mtu, at);
    assert (ps + tail)[1..] == Continuations(pic, frame, mtu, end) + tail;
    if end == |frame| {
      ContinuationsUnfold(pic, frame, mtu, end);
      assert frame[..end] == frame;
      assert Continuations(pic, frame, mtu, end) + tail == tail;
    } else {
      ContinuationsReceived(pic, frame, mtu, end, tail);
    }
  }

  lemma TakesFirst(pic: Picture, isEnd: bool, includeSs: bool, piece: seq<byte>)
    requires pic.id <= 0x7FFF
    ensures var p := BuildDescriptor(pic, true, isEnd, includeSs) + piece;
            && Extend(None, p) == Some(Frame(pic.key, Some(pic.id), SizesOf(pic, includeSs), piece))
            && (Ends(p) <==> isEnd)
  {
    hide BuildDescriptor, Parse;
    var d := BuildDescriptor(pic, true, isEnd, includeSs);
    DescriptorRead(pic, true, isEnd, includeSs, piece);
    assert (d + piece)[|d|..] == piece;
  }

  /** A frame followed by anything is received as that frame followed by what the rest gives. */
  lemma FrameReceived(pic: Picture, frame: seq<byte>, mtu: nat, tail: seq<seq<byte>>)
    requires pic.id <= 0x7FFF && mtu >= 100
    ensures Receive(PayloadsOf(pic, frame, mtu) + tail, None) == Prepend(FrameOf(pic, frame), Receive(tail, None))
  {
    hide BuildDescriptor, Continuations, Extend, Ends;
    var first := FirstMax(pic, mtu);
    var ps := PayloadsOf(pic, frame, mtu);
    if frame == [] {
      TakesFirst(pic, true, true, []);
      var d := BuildDescriptor(pic, true, true, true);
      assert d + [] == d;
      assert (ps + tail)[0] == d && (ps + tail)[1..] == tail;
    } else if |frame| <= first {
      TakesFirst(pic, true, pic.key, frame);
      assert (ps + tail)[0] == ps[0] && (ps + tail)[1..] == tail;
    } else {
      TakesFirst(pic, false, pic.key, frame[..first]);
      assert (ps + tail)[0] == ps[0];
      assert (ps + tail)[1..] == Continuations(pic, frame, mtu, first) + tail;
      ContinuationsReceived(pic, frame, mtu, first, tail);
    }
  }

  /** The packets of a frame by themselves. */
  lemma FrameAlone(pic: Picture, frame: seq<byte>, mtu: nat)
    requires pic.id <= 0x7FFF && mtu >= 100
    ensures Receive(PayloadsOf(pic, frame, mtu), None)
            == Some([Frame(pic.key, Some(pic.id),
                           if pic.key || frame == [] then [(pic.width, pic.height)] else [], frame)])
  {
    hide PayloadsOf;
    FrameReceived(pic, frame, mtu, []);
    assert PayloadsOf(pic, frame, mtu) + [] == PayloadsOf(pic, frame, mtu);
    assert Receive([], None) == Some([]);
    assert [FrameOf(pic, frame)] + [] == [FrameOf(pic, frame)];
  }

  /** No packet of a frame but the last leaves room for more. */
  lemma PacketsFull(pic: Picture, frame: seq<byte>, mtu: nat)
    requires mtu >= 100
    ensures var ps := PayloadsOf(pic, frame, mtu);
            && (forall k :: 0 <= k < |ps| - 1 ==> |ps[k]| == mtu)
            && (|ps| == 1 <==> frame == [] || |frame| + (if pic.key then 8 else 3) <= mtu)
  {
    hide BuildDescriptor, Continuations;
    var first := FirstMax(pic, mtu);
    if |frame| > first {
      ContinuationsFull(pic, frame, mtu, first);
      ContinuationsUnfold(pic, frame, mtu, first);
    }
  }

  lemma {:induction false} ContinuationsFull(pic: Picture, frame: seq<byte>, mtu: nat, at: nat)
    requires mtu >= 100 && at <= |frame|
    ensures var ps := Continuations(pic, frame, mtu, at);
            forall k :: 0 <= k < |ps| - 1 ==> |ps[k]| == mtu
    decreases |frame| - at
  {
    hide BuildDescriptor;
    if at < |frame| {
      var end := ChunkEnd(frame, mtu, at);
      ContinuationsUnfold(pic, frame, mtu, at);
      ContinuationsUnfold(pic, frame, mtu, end);
      ContinuationsFull(pic, frame, mtu, end);
    }
  }

  // ----- Runs -----

  /** A call of `packetize`, with the resolution set at the time. */
  datatype Call = Call(frame: seq<byte>, key: bool, width: bv16, height: bv16)

  function PictureOf(call: Call, id: bv16): Picture {
    Picture(call.key, id, call.width, call.height)
  }

  function Sent(calls: seq<Call>, id: bv16, mtu: nat): seq<seq<byte>>
    requires mtu >= 100
  {
    if calls == [] then [] else
    PayloadsOf(PictureOf(calls[0], id), calls[0].frame, mtu) + Sent(calls[1..], NextPictureId(id), mtu)
  }

  /** The frames of a run, numbered from `id` on modulo 2^15. */
  function FramesFrom(calls: seq<Call>, id: bv16): seq<Frame> {
    if calls == [] then [] else
    [FrameOf(PictureOf(calls[0], id), calls[0].frame)] + FramesFrom(calls[1..], NextPictureId(id))
  }

  /** Whatever frames are sent, with whatever changes of resolution in between, all are received. */
  lemma {:induction false} RunRoundTrip(calls: seq<Call>, id: bv16, mtu: nat)
    requires mtu >= 100 && id <= 0x7FFF
    ensures Receive(Sent(calls, id, mtu), None) == Some(FramesFrom(calls, id))
  {
    hide PayloadsOf, NextPictureId, FrameOf, Extend, Ends;
    if calls != [] {
      NextPictureIdWraps(id);
      FrameReceived(PictureOf(calls[0], id), calls[0].frame, mtu, Sent(calls[1..], NextPictureId(id), mtu));
      RunRoundTrip(calls[1..], NextPictureId(id), mtu);
    }
  }

  /** The frames received are those sent, byte for byte, with the sizes set at the time and consecutive ids. */
  lemma {:induction false} FramesFromShape(calls: seq<Call>, id: bv16)
    requires id <= 0x7FFF
    ensures var fs := FramesFrom(calls, id);
            && |fs| == |calls|
            && forall k :: 0 <= k < |fs| ==>
                 && fs[k].data == calls[k].frame && fs[k].key == calls[k].key
                 && fs[k].sizes == (if calls[k].key || calls[k].frame == [] then [(calls[k].width, calls[k].height)]
                                    else [])
                 && fs[k].id == (if k == 0 then Some(id) else NextId(fs[k - 1].id))
  {
    hide NextPictureId;
    if calls != [] {
      NextPictureIdWraps(id);
      FramesFromShape(calls[1..], NextPictureId(id));
    }
  }

  function NextId(id: Option<bv16>): Option<bv16> {
    if id.None? then None else Some(NextPictureId(id.value))
  }
}
