/**
 Byte streams of NAL units separated by start codes (ITU-T H.264 Annex B).

 The splitter of the packetizer is a scan with an index; here it is proved to compute the one
 way of cutting the stream at its start codes.  The receiver of Annex B takes zero bytes behind a
 NAL unit for padding, which the splitter leaves on the unit; the two agree exactly on streams
 without such bytes.
 */
module AnnexB {
  import opened Bytes

  const START_CODE_3: seq<byte> := [0, 0, 1]
  const START_CODE_4: seq<byte> := [0, 0, 0, 1]

  predicate Code3At(s: seq<byte>, i: nat) {
    i + 3 <= |s| && s[i] == 0 && s[i + 1] == 0 && s[i + 2] == 1
  }

  predicate Code4At(s: seq<byte>, i: nat) {
    i + 4 <= |s| && s[i] == 0 && s[i + 1] == 0 && s[i + 2] == 0 && s[i + 3] == 1
  }

  /** Length of the start code at `i`, if any; the four-byte form is tried first. */
  function CodeLength(s: seq<byte>, i: nat): (n: nat)
    ensures i <= |s| ==> i + n <= |s|
  {
    if Code4At(s, i) then 4 else if Code3At(s, i) then 3 else 0
  }

  /** Where the first start code at or after `i` begins, or the end. */
  function FirstCode(s: seq<byte>, i: nat): (n: nat)
    requires i <= |s|
    ensures i <= n <= |s| && (n < |s| ==> CodeLength(s, n) > 0)
    decreases |s| - i
  {
    if i == |s| || CodeLength(s, i) > 0 then i else FirstCode(s, i + 1)
  }

  lemma {:induction false} NoneEarlier(s: seq<byte>, i: nat, k: nat)
    requires i <= |s| && i <= k < FirstCode(s, i)
    ensures CodeLength(s, k) == 0
    decreases |s| - i
  {
    if i < k {
      NoneEarlier(s, i + 1, k);
    }
  }

  // ----- The one way to cut a stream -----

  /** A start code and the bytes up to the next one. */
  datatype Segment = Segment(code: seq<byte>, nal: seq<byte>)

  /** Cuts a stream from `i`, where a start code or the end is. */
  function Segments(s: seq<byte>, i: nat): seq<Segment>
    requires i <= |s| && (i < |s| ==> CodeLength(s, i) > 0)
    decreases |s| - i
  {
    if i == |s| then
      []
    else
      var j := i + CodeLength(s, i);
      var n := FirstCode(s, j);
      [Segment(s[i..j], s[j..n])] + Segments(s, n)
  }

  /** What stands before the first start code; the splitter drops it. */
  function Prefix(s: seq<byte>): seq<byte> {
    s[..FirstCode(s, 0)]
  }

  function SegmentsOf(s: seq<byte>): seq<Segment> {
    Segments(s, FirstCode(s, 0))
  }

  function NonEmpty(segs: seq<Segment>): seq<seq<byte>> {
    if segs == [] then
      []
    else
      (if segs[0].nal == [] then [] else [segs[0].nal]) + NonEmpty(segs[1..])
  }

  /** The NAL units of a stream: the non-empty pieces between start codes. */
  function Nals(s: seq<byte>): seq<seq<byte>> {
    NonEmpty(SegmentsOf(s))
  }

  function Join(segs: seq<Segment>): seq<byte> {
    if segs == [] then [] else segs[0].code + segs[0].nal + Join(segs[1..])
  }

  // ----- The splitter -----

  /** The NAL units from `j` on, which is just past a start code. */
  function NalsAfter(s: seq<byte>, j: nat): seq<seq<byte>>
    requires j <= |s|
  {
    var n := FirstCode(s, j);
    (if j == n then [] else [s[j..n]]) + NonEmpty(Segments(s, n))
  }

  lemma NalsPastCode(s: seq<byte>, i: nat)
    requires i < |s| && CodeLength(s, i) > 0
    ensures NonEmpty(Segments(s, i)) == NalsAfter(s, i + CodeLength(s, i))
  {
  }

  lemma CodeBySlice(s: seq<byte>, i: nat)
    requires i <= |s|
    ensures Code4At(s, i) <==> i + 4 <= |s| && s[i..i + 4] == START_CODE_4
    ensures Code3At(s, i) <==> i + 3 <= |s| && s[i..i + 3] == START_CODE_3
  {
  }

  /** The first loop of the splitter: the index just past the first start code, or the end. */
  method SkipToFirstCode(data: seq<byte>) returns (i: nat)
    ensures i == FirstCode(data, 0) + CodeLength(data, FirstCode(data, 0))
    ensures i <= |data| && Nals(data) == NalsAfter(data, i)
  {
    i := 0;
    while i < |data|
      invariant i <= |data|
      invariant FirstCode(data, 0) == FirstCode(data, i)
    {
      CodeBySlice(data, i);
      if i + 4 <= |data| && data[i..i + 4] == START_CODE_4 {
        NalsPastCode(data, i);
        i := i + 4;
        return;
      }
      if i + 3 <= |data| && data[i..i + 3] == START_CODE_3 {
        NalsPastCode(data, i);
        i := i + 3;
        return;
      }
      i := i + 1;
    }
  }

  /** The NAL unit that begins at `start` ends at `i`, where a start code or the end is. */
  lemma NalEnds(s: seq<byte>, start: nat, i: nat)
    requires start <= |s| && FirstCode(s, start) == i
    ensures NalsAfter(s, start) == (if start < i then [s[start..i]] else [])
                                   + if i < |s| then NalsAfter(s, i + CodeLength(s, i)) else []
  {
  }

  lemma FirstCodeStep(s: seq<byte>, i: nat)
    requires i <= |s|
    ensures CodeLength(s, i) == if Code4At(s, i) then 4 else if Code3At(s, i) then 3 else 0
    ensures i < |s| ==> FirstCode(s, i) == if CodeLength(s, i) > 0 then i else FirstCode(s, i + 1)
    ensures i == |s| ==> FirstCode(s, i) == i
  {
  }

  method SplitAnnexB(data: seq<byte>) returns (nals: seq<seq<byte>>)
    ensures nals == Nals(data)
  {
    hide Code3At, Code4At, CodeLength, FirstCode, NalsAfter, Nals;
    nals := [];
    var i: nat := SkipToFirstCode(data);
    var nalStart: nat := i;
    while i < |data|
      invariant nalStart <= i <= |data|
      invariant Nals(data) == nals + NalsAfter(data, nalStart)
      invariant FirstCode(data, nalStart) == FirstCode(data, i)
    {
      CodeBySlice(data, i);
      FirstCodeStep(data, i);
      var found4 := i + 4 <= |data| && data[i..i + 4] == START_CODE_4;
      var found3 := !found4 && i + 3 <= |data| && data[i..i + 3] == START_CODE_3;
      if found4 || found3 {
        NalEnds(data, nalStart, i);
        if nalStart < i {
          nals := nals + [data[nalStart..i]];
        }
        i := i + if found4 then 4 else 3;
        nalStart := i;
      } else {
        i := i + 1;
      }
    }
    FirstCodeStep(data, i);
    NalEnds(data, nalStart, i);
    assert data[nalStart..i] == data[nalStart..];
    if nalStart < |data| {
      nals := nals + [data[nalStart..]];
    }
  }

  // ----- What the cut means -----

  /** `s` holds no start code. */
  ghost predicate CodeFree(s: seq<byte>) {
    forall k: nat :: !Code3At(s, k)
  }

  /** Empty, or ending in a byte other than zero. */
  predicate EndsNonZero(s: seq<byte>) {
    s == [] || s[|s| - 1] != 0
  }

  /**
   A cut at start codes: codes between pieces without codes, and a zero byte just before a
   three-byte code belongs to the code.
   */
  ghost predicate IsCut(before: seq<byte>, segs: seq<Segment>)
    decreases |segs|
  {
    && CodeFree(before)
    && (segs != [] ==>
          && (segs[0].code == START_CODE_4 || (segs[0].code == START_CODE_3 && EndsNonZero(before)))
          && IsCut(segs[0].nal, segs[1..]))
  }

  /** Dropped prefix, start codes and pieces rebuild the stream, and the pieces are a cut of it. */
  lemma CutRebuilds(s: seq<byte>)
    ensures Prefix(s) + Join(SegmentsOf(s)) == s
    ensures IsCut(Prefix(s), SegmentsOf(s))
  {
    hide Code3At, Code4At, CodeLength, Segments, IsCut;
    PieceRebuilds(s, 0);
    assert s[..FirstCode(s, 0)] == s[0..FirstCode(s, 0)];
    assert s[..FirstCode(s, 0)] + s[FirstCode(s, 0)..] == s;
  }

  /** The same for a piece and the segments after it. */
  lemma {:induction false} PieceRebuilds(s: seq<byte>, i: nat)
    requires i <= |s|
    ensures Join(Segments(s, FirstCode(s, i))) == s[FirstCode(s, i)..]
    ensures IsCut(s[i..FirstCode(s, i)], Segments(s, FirstCode(s, i)))
    decreases |s| - i
  {
    hide Code3At, Code4At, CodeFree, EndsNonZero, FirstCode, Segments;
    var n := FirstCode(s, i);
    PieceCodeFree(s, i);
    SegmentsUnfold(s, n);
    if n < |s| {
      var j := n + CodeLength(s, n);
      var m := FirstCode(s, j);
      PieceRebuilds(s, j);
      var segs := Segments(s, n);
      assert segs[0] == Segment(s[n..j], s[j..m]) && segs[1..] == Segments(s, m);
      ThreeParts(s, n, j, m);
      CodeBySlice(s, n);
    }
  }

  lemma ThreeParts(s: seq<byte>, n: nat, j: nat, m: nat)
    requires n <= j <= m <= |s|
    ensures s[n..j] + s[j..m] + s[m..] == s[n..]
  {
  }

  lemma PieceCodeFree(s: seq<byte>, i: nat)
    requires i <= |s|
    ensures var n := FirstCode(s, i);
            CodeFree(s[i..n]) && (n < |s| && CodeLength(s, n) == 3 ==> EndsNonZero(s[i..n]))
  {
    var n := FirstCode(s, i);
    forall k: nat ensures !Code3At(s[i..n], k) {
      if k + 3 <= n - i {
        NoneEarlier(s, i, i + k);
      }
    }
    if i < n < |s| && CodeLength(s, n) == 3 {
      NoneEarlier(s, i, n - 1);
    }
  }

  /** A stream has only one cut, and the splitter finds it. */
  lemma CutIsUnique(before: seq<byte>, segs: seq<Segment>)
    requires IsCut(before, segs)
    ensures Prefix(before + Join(segs)) == before
    ensures SegmentsOf(before + Join(segs)) == segs
  {
    var s := before + Join(segs);
    assert s[0..] == s;
    CutFound(s, 0, before, segs);
  }

  lemma {:induction false} CutFound(s: seq<byte>, i: nat, before: seq<byte>, segs: seq<Segment>)
    requires IsCut(before, segs) && i <= |s| && s[i..] == before + Join(segs)
    ensures FirstCode(s, i) == i + |before|
    ensures Segments(s, i + |before|) == segs
    decreases |segs|
  {
    hide Code3At, Code4At, CodeLength, FirstCode, CodeFree, EndsNonZero, Segments;
    var n := i + |before|;
    SliceParts(s, i, before, Join(segs));
    if segs == [] {
      NoCodeBefore(s, i, n);
      SegmentsUnfold(s, n);
    } else {
      FirstSegment(s, i, before, segs);
      CutFound(s, n + |segs[0].code|, segs[0].nal, segs[1..]);
      SegmentFound(s, n, segs[0], segs[1..]);
      assert segs == [segs[0]] + segs[1..];
    }
  }

  /** The first code is found where the piece before it ends. */
  lemma FirstSegment(s: seq<byte>, i: nat, before: seq<byte>, segs: seq<Segment>)
    requires segs != [] && IsCut(before, segs) && i <= |s| && s[i..] == before + Join(segs)
    ensures var n, code := i + |before|, segs[0].code;
            && n + |code| <= |s| && FirstCode(s, i) == n && CodeLength(s, n) == |code| > 0
            && s[n..n + |code|] == code && s[n + |code|..] == segs[0].nal + Join(segs[1..])
  {
    hide Code3At, Code4At, CodeLength, FirstCode, CodeFree, EndsNonZero;
    SliceParts(s, i, before, Join(segs));
    SegmentBytes(s, i + |before|, segs[0].code, segs[0].nal, Join(segs[1..]));
    NoCodeBefore(s, i, i + |before|);
  }

  lemma SegmentFound(s: seq<byte>, n: nat, seg: Segment, rest: seq<Segment>)
    requires n + |seg.code| <= |s| && CodeLength(s, n) == |seg.code| > 0 && s[n..n + |seg.code|] == seg.code
    requires s[n + |seg.code|..] == seg.nal + Join(rest)
    requires var m := n + |seg.code| + |seg.nal|; FirstCode(s, n + |seg.code|) == m && Segments(s, m) == rest
    ensures Segments(s, n) == [seg] + rest
  {
    hide CodeLength, FirstCode, Segments;
    SliceParts(s, n + |seg.code|, seg.nal, Join(rest));
    SegmentsUnfold(s, n);
  }

  lemma SegmentsUnfold(s: seq<byte>, i: nat)
    requires i <= |s| && (i < |s| ==> CodeLength(s, i) > 0)
    ensures Segments(s, i) == if i == |s| then [] else
                              var j := i + CodeLength(s, i);
                              [Segment(s[i..j], s[j..FirstCode(s, j)])] + Segments(s, FirstCode(s, j))
  {
  }

  lemma SliceParts(s: seq<byte>, i: nat, head: seq<byte>, tail: seq<byte>)
    requires i <= |s| && s[i..] == head + tail
    ensures i + |head| <= |s| && s[i..i + |head|] == head && s[i + |head|..] == tail
  {
  }

  /** A start code spelled out at `n`. */
  lemma SegmentBytes(s: seq<byte>, n: nat, code: seq<byte>, nal: seq<byte>, tail: seq<byte>)
    requires code == START_CODE_3 || code == START_CODE_4
    requires n <= |s| && s[n..] == code + nal + tail
    ensures n + |code| <= |s| && CodeLength(s, n) == |code|
    ensures s[n..n + |code|] == code && s[n + |code|..] == nal + tail
  {
  }

  /** No start code begins inside a piece that is followed by a start code or the end. */
  lemma {:induction false} NoCodeBefore(s: seq<byte>, i: nat, n: nat)
    requires i <= n <= |s| && CodeFree(s[i..n])
    requires n < |s| ==> CodeLength(s, n) == 4 || (CodeLength(s, n) == 3 && EndsNonZero(s[i..n]))
    ensures FirstCode(s, i) == n
    decreases n - i
  {
    if i < n {
      assert !Code3At(s[i..n], 0) && !Code3At(s[i..n], 1);
      assert CodeLength(s, i) == 0;
      var t := s[i + 1..n];
      forall k: nat ensures !Code3At(t, k) {
        assert !Code3At(s[i..n], k + 1);
      }
      NoCodeBefore(s, i + 1, n);
    }
  }

  // ----- The promises of the splitter -----

  /** NAL units are non-empty and hold no start code. */
  lemma NalsAreClean(s: seq<byte>)
    ensures forall nal :: nal in Nals(s) ==> nal != [] && CodeFree(nal)
  {
    CutRebuilds(s);
    CutPiecesClean(Prefix(s), SegmentsOf(s));
  }

  /** Byte by byte: 00 00 01 stands nowhere in a NAL unit. */
  lemma NalHoldsNoCode(s: seq<byte>, nal: seq<byte>, k: nat)
    requires nal in Nals(s) && k + 2 < |nal|
    ensures nal[k] != 0 || nal[k + 1] != 0 || nal[k + 2] != 1
  {
    hide Nals;
    NalsAreClean(s);
    assert CodeFree(nal) && !Code3At(nal, k);
  }

  lemma {:induction false} CutPiecesClean(before: seq<byte>, segs: seq<Segment>)
    requires IsCut(before, segs)
    ensures forall nal :: nal in NonEmpty(segs) ==> nal != [] && CodeFree(nal)
    decreases |segs|
  {
    if segs != [] {
      CutPiecesClean(segs[0].nal, segs[1..]);
    }
  }

  /** Codes of either length in front of NAL units. */
  function Coded(codes: seq<seq<byte>>, nals: seq<seq<byte>>): seq<Segment>
    requires |codes| == |nals|
  {
    if nals == [] then [] else [Segment(codes[0], nals[0])] + Coded(codes[1..], nals[1..])
  }

  predicate IsStartCode(code: seq<byte>) {
    code == [0, 0, 1] || code == [0, 0, 0, 1]
  }

  ghost predicate IsNal(nal: seq<byte>) {
    nal != [] && CodeFree(nal) && EndsNonZero(nal)
  }

  /** Splitting NAL units joined by start codes gives them back, whatever precedes the first code. */
  lemma {:induction false} SplitOfJoin(prefix: seq<byte>, codes: seq<seq<byte>>, nals: seq<seq<byte>>)
    requires |codes| == |nals| && CodeFree(prefix) && EndsNonZero(prefix)
    requires forall code :: code in codes ==> IsStartCode(code)
    requires forall nal :: nal in nals ==> IsNal(nal)
    ensures Nals(prefix + Join(Coded(codes, nals))) == nals
  {
    CodedIsCut(prefix, codes, nals);
    CutIsUnique(prefix, Coded(codes, nals));
  }

  lemma {:induction false} CodedIsCut(before: seq<byte>, codes: seq<seq<byte>>, nals: seq<seq<byte>>)
    requires |codes| == |nals| && CodeFree(before) && EndsNonZero(before)
    requires forall code :: code in codes ==> IsStartCode(code)
    requires forall nal :: nal in nals ==> IsNal(nal)
    ensures IsCut(before, Coded(codes, nals))
    ensures NonEmpty(Coded(codes, nals)) == nals
    decreases |nals|
  {
    if nals != [] {
      assert codes[0] in codes && nals[0] in nals;
      CodedIsCut(nals[0], codes[1..], nals[1..]);
      assert Coded(codes, nals)[1..] == Coded(codes[1..], nals[1..]);
    }
  }

  // ----- The receiver of Annex B -----

  /** Where the next three-byte start code prefix begins, or the end. */
  function NextPrefix(s: seq<byte>, i: nat): (n: nat)
    requires i <= |s|
    ensures i <= n <= |s| && (n < |s| ==> Code3At(s, n))
    decreases |s| - i
  {
    if i == |s| || Code3At(s, i) then i else NextPrefix(s, i + 1)
  }

  predicate TripleZeroAt(s: seq<byte>, i: nat) {
    i + 3 <= |s| && s[i] == 0 && s[i + 1] == 0 && s[i + 2] == 0
  }

  /** A NAL unit goes up to 00 00 00, 00 00 01 or the end (clause B.2). */
  function UnitEnd(s: seq<byte>, i: nat): (n: nat)
    requires i <= |s|
    ensures i <= n <= |s|
    decreases |s| - i
  {
    if i == |s| || TripleZeroAt(s, i) || Code3At(s, i) then i else UnitEnd(s, i + 1)
  }

  /** Zero bytes at its end are trailing_zero_8bits: a NAL unit never ends in one (clause 7.4.1). */
  function WithoutZeros(u: seq<byte>): (r: seq<byte>)
    ensures r <= u && EndsNonZero(r)
  {
    if EndsNonZero(u) then u else WithoutZeros(u[..|u| - 1])
  }

  /** The NAL units a receiver extracts from `i` on. */
  function StandardFrom(s: seq<byte>, i: nat): seq<seq<byte>>
    requires i <= |s|
    decreases |s| - i
  {
    var p := NextPrefix(s, i);
    if p == |s| then []
    else
      var e := UnitEnd(s, p + 3);
      var unit := WithoutZeros(s[p + 3..e]);
      (if unit == [] then [] else [unit]) + StandardFrom(s, e)
  }

  function StandardNals(s: seq<byte>): seq<seq<byte>> {
    StandardFrom(s, 0)
  }

  /** No zero bytes that the receiver would take for padding. */
  ghost predicate IsUnpadded(piece: seq<byte>) {
    EndsNonZero(piece) && forall k: nat :: !TripleZeroAt(piece, k)
  }

  /** The splitter agrees with Annex B exactly when none of its NAL units ends in 00 or holds 00 00 00. */
  lemma StandardIffUnpadded(s: seq<byte>)
    ensures Nals(s) == StandardNals(s) <==> forall nal :: nal in Nals(s) ==> IsUnpadded(nal)
  {
    hide CodeLength, FirstCode, Segments, StandardFrom, IsUnpadded;
    StandardOfPieces(s, 0);
  }

  function TotalLength(nals: seq<seq<byte>>): nat {
    if nals == [] then 0 else |nals[0]| + TotalLength(nals[1..])
  }

  /** The same, or, where some NAL unit is padded, shorter in total. */
  ghost predicate SameOrShorter(nals: seq<seq<byte>>, units: seq<seq<byte>>) {
    if forall nal :: nal in nals ==> IsUnpadded(nal) then units == nals
    else TotalLength(units) < TotalLength(nals)
  }

  lemma {:induction false} StandardOfPieces(s: seq<byte>, i: nat)
    requires i <= |s|
    ensures SameOrShorter(NonEmpty(Segments(s, FirstCode(s, i))), StandardFrom(s, i))
    decreases |s| - i
  {
    hide CodeLength, FirstCode, UnitEnd, WithoutZeros, Segments, StandardFrom, NonEmpty, SameOrShorter, IsUnpadded;
    var n := FirstCode(s, i);
    if n == |s| {
      NothingFrom(s, i);
    } else {
      var j := n + CodeLength(s, n);
      UnitOfPiece(s, j);
      FirstUnit(s, i);
      StandardOfPieces(s, UnitEnd(s, j));
      OneMoreNal(s[j..FirstCode(s, j)], WithoutZeros(s[j..UnitEnd(s, j)]), NonEmpty(Segments(s, FirstCode(s, j))),
                 StandardFrom(s, UnitEnd(s, j)));
    }
  }

  lemma NothingFrom(s: seq<byte>, i: nat)
    requires i <= |s| && FirstCode(s, i) == |s|
    ensures SameOrShorter(NonEmpty(Segments(s, |s|)), StandardFrom(s, i))
  {
    hide CodeLength, FirstCode;
    PrefixOfCode(s, i);
  }

  /** The first piece from `i` on, and the first unit. */
  lemma FirstUnit(s: seq<byte>, i: nat)
    requires i <= |s| && FirstCode(s, i) < |s|
    ensures var n := FirstCode(s, i);
            var j := n + CodeLength(s, n);
            var piece, unit := s[j..FirstCode(s, j)], WithoutZeros(s[j..UnitEnd(s, j)]);
            && NonEmpty(Segments(s, n))
               == (if piece == [] then [] else [piece]) + NonEmpty(Segments(s, FirstCode(s, j)))
            && StandardFrom(s, i) == (if unit == [] then [] else [unit]) + StandardFrom(s, UnitEnd(s, j))
  {
    hide CodeLength, FirstCode, NextPrefix, UnitEnd, WithoutZeros, Segments, StandardFrom, NonEmpty;
    var n := FirstCode(s, i);
    PrefixOfCode(s, i);
    StandardUnfold(s, i);
    NalsPastCode(s, n);
  }

  lemma StandardUnfold(s: seq<byte>, i: nat)
    requires i <= |s| && NextPrefix(s, i) < |s|
    ensures var e := UnitEnd(s, NextPrefix(s, i) + 3);
            var unit := WithoutZeros(s[NextPrefix(s, i) + 3..e]);
            StandardFrom(s, i) == (if unit == [] then [] else [unit]) + StandardFrom(s, e)
  {
    hide NextPrefix, UnitEnd, WithoutZeros;
  }

  /** One more piece in front of a comparison. */
  lemma OneMoreNal(piece: seq<byte>, unit: seq<byte>, rest: seq<seq<byte>>, units: seq<seq<byte>>)
    requires if IsUnpadded(piece) then unit == piece else |unit| < |piece|
    requires SameOrShorter(rest, units)
    ensures SameOrShorter((if piece == [] then [] else [piece]) + rest, (if unit == [] then [] else [unit]) + units)
  {
    hide IsUnpadded;
    var nals := (if piece == [] then [] else [piece]) + rest;
    var us := (if unit == [] then [] else [unit]) + units;
    assert piece != [] ==> nals[1..] == rest && piece in nals;
    assert unit != [] ==> us[1..] == units;
    assert piece == [] ==> nals == rest;
    assert unit == [] ==> us == units;
    assert forall nal :: nal in nals <==> nal in rest || (piece != [] && nal == piece);
  }

  /** The three-byte prefix the receiver looks for ends where the splitter's code ends. */
  lemma {:induction false} PrefixOfCode(s: seq<byte>, i: nat)
    requires i <= |s|
    ensures var n := FirstCode(s, i);
            if n == |s| then NextPrefix(s, i) == |s|
            else NextPrefix(s, i) < |s| && NextPrefix(s, i) + 3 == n + CodeLength(s, n)
    decreases |s| - i
  {
    if i < |s| && CodeLength(s, i) == 0 {
      PrefixOfCode(s, i + 1);
    } else if Code4At(s, i) {
      assert Code3At(s, i + 1);
    }
  }

  /** The unit in a piece: the piece itself if it is unpadded, and less otherwise. */
  lemma UnitOfPiece(s: seq<byte>, j: nat)
    requires j <= |s|
    ensures var m, e := FirstCode(s, j), UnitEnd(s, j);
            var piece, unit := s[j..m], WithoutZeros(s[j..e]);
            && e <= m && FirstCode(s, e) == m
            && if IsUnpadded(piece) then unit == piece else |unit| < |piece|
  {
    hide CodeLength, FirstCode, UnitEnd;
    var m, e := FirstCode(s, j), UnitEnd(s, j);
    var piece := s[j..m];
    UnitEndFirst(s, j);
    if e == m {
      if EndsNonZero(piece) {
        forall k: nat ensures !TripleZeroAt(piece, k) {
          if k + 3 <= |piece| {
            UnitEndNotBefore(s, j, j + k);
          }
        }
      }
    } else if e + 3 <= m {
      assert TripleZeroAt(piece, e - j);
    } else {
      assert piece[m - j - 1] == s[m - 1] == 0;
    }
  }

  /** A unit ends no later than its piece, and then in three zero bytes or just where the piece does. */
  lemma {:induction false} UnitEndFirst(s: seq<byte>, j: nat)
    requires j <= |s|
    ensures var m, e := FirstCode(s, j), UnitEnd(s, j);
            e <= m && FirstCode(s, e) == m && (e < m ==> TripleZeroAt(s, e))
    decreases |s| - j
  {
    if j < |s| && CodeLength(s, j) == 0 && !TripleZeroAt(s, j) {
      UnitEndFirst(s, j + 1);
    }
  }

  lemma {:induction false} UnitEndNotBefore(s: seq<byte>, j: nat, k: nat)
    requires j <= |s| && j <= k < UnitEnd(s, j)
    ensures !TripleZeroAt(s, k)
    decreases k - j
  {
    if j < k {
      UnitEndNotBefore(s, j + 1, k);
    }
  }

  /**
   From `j` on, 00 00 00 stands only as the front of a four-byte start code, and the stream does
   not end in a zero byte.
   */
  ghost predicate NoPadding(s: seq<byte>, j: nat)
    requires j <= |s|
  {
    (forall k: nat :: j <= k && TripleZeroAt(s, k) ==> Code4At(s, k)) && EndsNonZero(s[j..])
  }

  /**
   The splitter agrees with Annex B exactly on the streams in which, behind the first start code,
   00 00 00 stands only as the front of a four-byte start code, and which do not end in 00 there.
   */
  lemma StandardIffNoPadding(s: seq<byte>)
    ensures Nals(s) == StandardNals(s) <==>
            NoPadding(s, FirstCode(s, 0) + CodeLength(s, FirstCode(s, 0)))
  {
    hide CodeLength, FirstCode, Segments, NalsAfter, StandardNals, IsUnpadded, NoPadding;
    var n := FirstCode(s, 0);
    StandardIffUnpadded(s);
    UnpaddedIffNoPadding(s, n + CodeLength(s, n));
    FirstPiece(s);
  }

  lemma FirstPiece(s: seq<byte>)
    ensures var n := FirstCode(s, 0); Nals(s) == NalsAfter(s, n + CodeLength(s, n))
  {
    hide CodeLength, Segments;
    var n := FirstCode(s, 0);
    if n < |s| {
      NalsPastCode(s, n);
    } else {
      NoCodeAtEnd(s);
    }
  }

  lemma NoCodeAtEnd(s: seq<byte>)
    ensures CodeLength(s, |s|) == 0 && FirstCode(s, |s|) == |s| && NonEmpty(Segments(s, |s|)) == []
  {
  }

  ghost predicate AllUnpadded(nals: seq<seq<byte>>) {
    forall nal :: nal in nals ==> IsUnpadded(nal)
  }

  /** The pieces from `j` on, piece by piece. */
  lemma {:induction false} UnpaddedIffNoPadding(s: seq<byte>, j: nat)
    requires j <= |s|
    ensures AllUnpadded(NalsAfter(s, j)) <==> NoPadding(s, j)
    decreases |s| - j
  {
    hide CodeLength, FirstCode, Segments, NonEmpty, NalsAfter, IsUnpadded, NoPadding;
    var n := FirstCode(s, j);
    NalEnds(s, j, n);
    if n == |s| {
      LastPiece(s, j);
      assert s[j..n] == s[j..];
    } else {
      UnpaddedIffNoPadding(s, n + CodeLength(s, n));
      PieceThenRest(s, j);
    }
    EmptyUnpadded();
  }

  lemma EmptyUnpadded()
    ensures IsUnpadded([])
  {
  }

  lemma LastPiece(s: seq<byte>, j: nat)
    requires j <= |s| && FirstCode(s, j) == |s|
    ensures IsUnpadded(s[j..]) <==> NoPadding(s, j)
  {
    hide FirstCode;
    forall k: nat | j <= k ensures !Code4At(s, k) {
      if k < |s| {
        NoneEarlier(s, j, k);
      }
    }
    assert s[j..|s|] == s[j..];
    SameTriples(s, j, |s|);
  }

  lemma SameTriples(s: seq<byte>, j: nat, n: nat)
    requires j <= n <= |s|
    ensures forall k: nat :: TripleZeroAt(s[j..n], k) ==> TripleZeroAt(s, j + k)
    ensures forall k: nat :: j <= k && k + 3 <= n && TripleZeroAt(s, k) ==> TripleZeroAt(s[j..n], k - j)
  {
  }

  /** A piece, its code, and the rest of the stream. */
  lemma PieceThenRest(s: seq<byte>, j: nat)
    requires j <= |s| && FirstCode(s, j) < |s|
    ensures var n := FirstCode(s, j);
            NoPadding(s, j) <==> IsUnpadded(s[j..n]) && NoPadding(s, n + CodeLength(s, n))
  {
    hide FirstCode, CodeLength, NoPadding, IsUnpadded;
    var n := FirstCode(s, j);
    if IsUnpadded(s[j..n]) && NoPadding(s, n + CodeLength(s, n)) {
      JoinNoPadding(s, j);
    }
    if NoPadding(s, j) {
      SplitNoPadding(s, j);
    }
  }

  /** Three zero bytes and the start code at `n`. */
  lemma TripleAtCode(s: seq<byte>, n: nat, k: nat)
    requires n < |s| && CodeLength(s, n) > 0 && TripleZeroAt(s, k)
    ensures n <= k < n + CodeLength(s, n) ==> Code4At(s, k)
    ensures k < n < k + 3 ==> s[n - 1] == 0
  {
  }

  lemma ZeroBeforeCode(s: seq<byte>, n: nat)
    requires 0 < n < |s| && CodeLength(s, n) > 0
    ensures s[n - 1] == 0 ==> TripleZeroAt(s, n - 1) || CodeLength(s, n - 1) > 0
  {
  }

  lemma JoinNoPadding(s: seq<byte>, j: nat)
    requires j <= |s| && FirstCode(s, j) < |s|
    requires var n := FirstCode(s, j); IsUnpadded(s[j..n]) && NoPadding(s, n + CodeLength(s, n))
    ensures NoPadding(s, j)
  {
    hide FirstCode;
    var n := FirstCode(s, j);
    SameTriples(s, j, n);
    assert j < n ==> s[j..n][n - j - 1] == s[n - 1];
    forall k: nat | j <= k && TripleZeroAt(s, k) ensures Code4At(s, k) {
      TripleAtCode(s, n, k);
    }
  }

  lemma SplitNoPadding(s: seq<byte>, j: nat)
    requires j <= |s| && FirstCode(s, j) < |s| && NoPadding(s, j)
    ensures var n := FirstCode(s, j); IsUnpadded(s[j..n]) && NoPadding(s, n + CodeLength(s, n))
  {
    hide FirstCode;
    var n := FirstCode(s, j);
    forall k: nat | j <= k < n ensures !Code4At(s, k) && !TripleZeroAt(s, k) {
      NoneEarlier(s, j, k);
    }
    if j < n {
      NoneEarlier(s, j, n - 1);
      ZeroBeforeCode(s, n);
    }
    SameTriples(s, j, n);
  }

  /** A stream with one byte of padding, which the splitter takes for part of the NAL unit. */
  lemma PaddingWitness()
    ensures var s: seq<byte> := [0, 0, 1, 0x65, 0, 0, 0, 0, 1, 0x41];
            Nals(s) == [[0x65, 0], [0x41]] && StandardNals(s) == [[0x65], [0x41]]
  {
    hide FirstCode, Segments, StandardFrom, UnitEnd, NextPrefix, WithoutZeros, NonEmpty, Nals, StandardNals;
    var s: seq<byte> := [0, 0, 1, 0x65, 0, 0, 0, 0, 1, 0x41];
    WitnessNals(s);
    WitnessUnits(s);
  }

  lemma WitnessNals(s: seq<byte>)
    requires s == [0, 0, 1, 0x65, 0, 0, 0, 0, 1, 0x41]
    ensures Nals(s) == [[0x65, 0], [0x41]]
  {
    hide NonEmpty, Segments, CodeLength;
    var last := [Segment(START_CODE_4, [0x41])];
    var segs := [Segment(START_CODE_3, [0x65, 0])] + last;
    assert last[1..] == [] && segs[1..] == last;
    assert Join(last) == [0, 0, 0, 1, 0x41];
    assert s == [] + Join(segs);
    assert IsCut([0x41], []) && IsCut([0x65, 0], last) && IsCut([], segs);
    CutIsUnique([], segs);
    TwoNals(segs);
  }

  lemma TwoNals(segs: seq<Segment>)
    requires |segs| == 2 && segs[0].nal != [] && segs[1].nal != []
    ensures NonEmpty(segs) == [segs[0].nal, segs[1].nal]
  {
    assert NonEmpty(segs[1..][1..]) == [];
  }

  lemma WitnessUnits(s: seq<byte>)
    requires s == [0, 0, 1, 0x65, 0, 0, 0, 0, 1, 0x41]
    ensures StandardNals(s) == [[0x65], [0x41]]
  {
    hide WithoutZeros;
    assert NextPrefix(s, 6) == 6 && NextPrefix(s, 5) == 6 && NextPrefix(s, 4) == 6;
    assert UnitEnd(s, 3) == 4 && UnitEnd(s, 9) == UnitEnd(s, 10) == 10;
    OneByteUnit(s, 3);
    OneByteUnit(s, 9);
    assert StandardFrom(s, 10) == [];
    assert StandardFrom(s, 4) == [[0x41]];
  }

  lemma OneByteUnit(s: seq<byte>, i: nat)
    requires i < |s| && s[i] != 0
    ensures WithoutZeros(s[i..i + 1]) == [s[i]]
  {
    assert s[i..i + 1] == [s[i]];
  }
}
