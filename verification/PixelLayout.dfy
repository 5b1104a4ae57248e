/**
 Where pixels go: padding a frame to even width and height, and the planes of a 4:2:0 picture.
 The colour arithmetic is a parameter; what is proved is which pixel ends up in which cell.
 */
module PixelLayout {
  import opened Bytes
  import opened Common

  // ----- Cells of a plane -----

  /** Cell `k` of row `row` in a plane whose rows are `stride` long. */
  function At(row: nat, k: nat, stride: nat): nat {
    row * stride + k
  }

  lemma RowFits(row: nat, rows: nat, stride: nat)
    requires row < rows
    ensures row * stride + stride <= rows * stride
  {
    assert row * stride + stride == (row + 1) * stride;
    Product(row + 1, rows, stride);
  }

  lemma AtBound(row: nat, k: nat, rows: nat, stride: nat)
    requires row < rows && k < stride
    ensures At(row, k, stride) < rows * stride
  {
    RowFits(row, rows, stride);
  }

  lemma Product(a: nat, b: nat, stride: nat)
    requires a <= b
    ensures a * stride <= b * stride
  {
  }

  /** Different cells stand at different places. */
  lemma AtInjective(row: nat, k: nat, row': nat, k': nat, stride: nat)
    requires k < stride && k' < stride
    ensures At(row, k, stride) == At(row', k', stride) <==> row == row' && k == k'
  {
    if row < row' {
      AtBound(row, k, row', stride);
    } else if row' < row {
      AtBound(row', k', row, stride);
    }
  }

  /** Every place of a plane is a cell. */
  lemma AtCovers(n: nat, rows: nat, stride: nat) returns (row: nat, k: nat)
    requires n < rows * stride
    ensures row < rows && k < stride && At(row, k, stride) == n
  {
    assert stride == 0 ==> rows * stride == 0;
    row, k := n / stride, n % stride;
    assert n == row * stride + k;
    if row >= rows {
      Product(rows, row, stride);
    }
  }

  // ----- Padding -----

  /** `(n + 1) & !1` */
  function RoundUp(n: nat): (r: nat)
    ensures r % 2 == 0 && n <= r <= n + 1
  {
    (n + 1) / 2 * 2
  }

  class RgbFrame {
    var data: seq<byte>
    var width: nat
    var height: nat

    constructor (data: seq<byte>, width: nat, height: nat)
      ensures this.data == data && this.width == width && this.height == height
    {
      this.data, this.width, this.height := data, width, height;
    }
  }

  /** Three bytes a pixel, row after row. */
  predicate HoldsFrame(data: seq<byte>, width: nat, height: nat) {
    |data| >= height * (3 * width)
  }

  /** Byte `k` of row `row`, black beyond the frame. */
  function ByteAt(data: seq<byte>, width: nat, height: nat, row: nat, k: nat): byte
    requires HoldsFrame(data, width, height)
  {
    if row < height && k < 3 * width then AtBound(row, k, height, 3 * width); data[At(row, k, 3 * width)] else 0
  }

  /** `padded` shows the frame at its place and black beside and below it. */
  ghost predicate IsPadded(data: seq<byte>, width: nat, height: nat, padded: seq<byte>)
    requires HoldsFrame(data, width, height)
  {
    && HoldsFrame(padded, RoundUp(width), RoundUp(height))
    && forall row, k :: 0 <= row < RoundUp(height) && 0 <= k < 3 * RoundUp(width) ==>
         ByteAt(padded, RoundUp(width), RoundUp(height), row, k) == ByteAt(data, width, height, row, k)
  }

  method PadToEven(frame: RgbFrame)
    requires frame.width % 2 == 1 || frame.height % 2 == 1 ==> HoldsFrame(frame.data, frame.width, frame.height)
    modifies frame
    ensures frame.width == RoundUp(old(frame.width)) && frame.height == RoundUp(old(frame.height))
    ensures HoldsFrame(old(frame.data), old(frame.width), old(frame.height)) ==>
              IsPadded(old(frame.data), old(frame.width), old(frame.height), frame.data)
    ensures frame.width == old(frame.width) && frame.height == old(frame.height) ==> frame.data == old(frame.data)
  {
    var targetW, targetH := RoundUp(frame.width), RoundUp(frame.height);
    if targetW == frame.width && targetH == frame.height {
      return;
    }
    var oldStride, newStride := 3 * frame.width, 3 * targetW;
    var padded := new byte[targetH * newStride](_ => 0);
    CopyRows(frame.data, frame.width, frame.height, padded, targetW, targetH);
    var data := padded[..];
    PlaneIsPadded(frame.data, frame.width, frame.height, data);
    frame.data := data;
    frame.width := targetW;
    frame.height := targetH;
  }

  /** What the rows copied so far, or all of them, look like. */
  ghost predicate RowsCopied(data: seq<byte>, width: nat, height: nat, padded: seq<byte>, targetW: nat, targetH: nat)
    requires HoldsFrame(data, width, height)
  {
    && |padded| == targetH * (3 * targetW)
    && forall row, k :: 0 <= row < targetH && 0 <= k < 3 * targetW ==>
         At(row, k, 3 * targetW) < |padded| && padded[At(row, k, 3 * targetW)] == ByteAt(data, width, height, row, k)
  }

  /** The loop over the rows; each row is copied as a slice. */
  method CopyRows(data: seq<byte>, width: nat, height: nat, padded: array<byte>, targetW: nat, targetH: nat)
    requires HoldsFrame(data, width, height) && width <= targetW && height <= targetH
    requires padded.Length == targetH * (3 * targetW) && forall n :: 0 <= n < padded.Length ==> padded[n] == 0
    modifies padded
    ensures RowsCopied(data, width, height, padded[..], targetW, targetH)
  {
    hide At, HoldsFrame, RowsCopied, ByteAt;
    NoneCopied(data, width, padded[..], targetW, targetH);
    var row := 0;
    while row < height
      invariant row <= height && HoldsFrame(data, width, row)
      invariant RowsCopied(data, width, row, padded[..], targetW, targetH)
    {
      HoldsFewer(data, width, row + 1, height);
      CopyRow(data, width, row, padded, targetW, targetH);
      row := row + 1;
    }
  }

  lemma HoldsFewer(data: seq<byte>, width: nat, rows: nat, height: nat)
    requires HoldsFrame(data, width, height) && rows <= height
    ensures HoldsFrame(data, width, rows)
  {
  }

  lemma NoneCopied(data: seq<byte>, width: nat, padded: seq<byte>, targetW: nat, targetH: nat)
    requires |padded| == targetH * (3 * targetW) && forall n :: 0 <= n < |padded| ==> padded[n] == 0
    ensures HoldsFrame(data, width, 0) && RowsCopied(data, width, 0, padded, targetW, targetH)
  {
    hide At;
    forall row: nat, k: nat | row < targetH && k < 3 * targetW
      ensures At(row, k, 3 * targetW) < |padded|
    {
      AtBound(row, k, targetH, 3 * targetW);
    }
  }

  method CopyRow(data: seq<byte>, width: nat, row: nat, padded: array<byte>, targetW: nat, targetH: nat)
    requires HoldsFrame(data, width, row) && HoldsFrame(data, width, row + 1) && width <= targetW && row < targetH
    requires padded.Length == targetH * (3 * targetW)
    requires RowsCopied(data, width, row, padded[..], targetW, targetH)
    modifies padded
    ensures RowsCopied(data, width, row + 1, padded[..], targetW, targetH)
  {
    hide ByteAt, RowsCopied;
    ghost var before := padded[..];
    var src, dst := row * (3 * width), row * (3 * targetW);
    RowFits(row, targetH, 3 * targetW);
    RowFits(row, row + 1, 3 * width);
    forall k | 0 <= k < 3 * width {
      padded[dst + k] := data[src + k];
    }
    RowAdded(data, width, row, before, padded[..], targetW, targetH);
  }

  lemma RowAdded(data: seq<byte>, width: nat, row: nat, before: seq<byte>, after: seq<byte>, targetW: nat, targetH: nat)
    requires HoldsFrame(data, width, row) && HoldsFrame(data, width, row + 1) && width <= targetW && row < targetH
    requires RowsCopied(data, width, row, before, targetW, targetH)
    requires var src, dst := row * (3 * width), row * (3 * targetW);
             && |after| == |before| && 0 <= dst && dst + 3 * targetW <= |after| && src + 3 * width <= |data|
             && (forall n :: dst <= n < dst + 3 * width ==> after[n] == data[n - dst + src])
             && (forall n :: 0 <= n < |after| && !(dst <= n < dst + 3 * width) ==> after[n] == before[n])
    ensures RowsCopied(data, width, row + 1, after, targetW, targetH)
  {
    hide HoldsFrame;
    var oldStride, newStride := 3 * width, 3 * targetW;
    forall r: nat, k: nat | r < targetH && k < newStride
      ensures At(r, k, newStride) < |after|
      ensures after[At(r, k, newStride)] == ByteAt(data, width, row + 1, r, k)
    {
      assert before[At(r, k, newStride)] == ByteAt(data, width, row, r, k);
      CellOfRow(r, k, row, oldStride, newStride);
    }
  }

  /** The cells written with row `row` are the first ones of that row. */
  lemma CellOfRow(r: nat, k: nat, row: nat, length: nat, stride: nat)
    requires k < stride && length <= stride
    ensures row * stride <= At(r, k, stride) < row * stride + length <==> r == row && k < length
  {
    if r < row {
      RowFits(r, row, stride);
    } else if row < r {
      RowFits(row, r, stride);
    }
  }

  lemma PlaneIsPadded(data: seq<byte>, width: nat, height: nat, padded: seq<byte>)
    requires HoldsFrame(data, width, height)
    requires RowsCopied(data, width, height, padded, RoundUp(width), RoundUp(height))
    ensures IsPadded(data, width, height, padded)
  {
  }

  // ----- 4:2:0 -----

  /** The three colour functions: from red, green and blue to a sample of a plane. */
  datatype Colour = Colour(luma: (byte, byte, byte) -> byte, cb: (byte, byte, byte) -> byte,
                           cr: (byte, byte, byte) -> byte)

  datatype I420 = I420(y: seq<byte>, u: seq<byte>, v: seq<byte>, width: nat, height: nat)

  datatype VideoError = InvalidResolution | ConversionFailed

  /** Half, rounded up: the width or height of a chroma plane. */
  function Half(n: nat): nat {
    (n + 1) / 2
  }

  /** A plane function applied to the pixel at `row` and `col`. */
  function Sample(f: (byte, byte, byte) -> byte, data: seq<byte>, width: nat, height: nat, row: nat, col: nat): byte
    requires HoldsFrame(data, width, height)
  {
    f(ByteAt(data, width, height, row, 3 * col), ByteAt(data, width, height, row, 3 * col + 1),
      ByteAt(data, width, height, row, 3 * col + 2))
  }

  /** Every luma cell comes from its own pixel. */
  ghost predicate IsLuma(f: (byte, byte, byte) -> byte, data: seq<byte>, width: nat, height: nat, plane: seq<byte>)
    requires HoldsFrame(data, width, height)
  {
    && |plane| == height * width
    && forall row, col :: 0 <= row < height && 0 <= col < width ==>
         At(row, col, width) < |plane| && plane[At(row, col, width)] == Sample(f, data, width, height, row, col)
  }

  /** Every chroma cell comes from the top left pixel of its block of four. */
  ghost predicate IsChroma(f: (byte, byte, byte) -> byte, data: seq<byte>, width: nat, height: nat, plane: seq<byte>)
    requires HoldsFrame(data, width, height)
  {
    && |plane| == Half(height) * Half(width)
    && forall j, i :: 0 <= j < Half(height) && 0 <= i < Half(width) ==>
         At(j, i, Half(width)) < |plane|
         && plane[At(j, i, Half(width))] == Sample(f, data, width, height, 2 * j, 2 * i)
  }

  /** The cells of a plane before `(row, col)` in reading order are filled. */
  ghost predicate LumaUpTo(f: (byte, byte, byte) -> byte, data: seq<byte>, width: nat, height: nat,
                           plane: seq<byte>, row: nat, col: nat)
    requires HoldsFrame(data, width, height)
  {
    && |plane| == height * width
    && forall r, c :: 0 <= r < height && 0 <= c < width && (r < row || (r == row && c < col)) ==>
         At(r, c, width) < |plane| && plane[At(r, c, width)] == Sample(f, data, width, height, r, c)
  }

  ghost predicate ChromaUpTo(f: (byte, byte, byte) -> byte, data: seq<byte>, width: nat, height: nat,
                             plane: seq<byte>, row: nat, col: nat)
    requires HoldsFrame(data, width, height)
  {
    && |plane| == Half(height) * Half(width)
    && forall j, i ::
         0 <= j < Half(height) && 0 <= i < Half(width) && (2 * j < row || (2 * j == row && 2 * i < col)) ==>
         At(j, i, Half(width)) < |plane|
         && plane[At(j, i, Half(width))] == Sample(f, data, width, height, 2 * j, 2 * i)
  }

  lemma LumaStep(f: (byte, byte, byte) -> byte, data: seq<byte>, width: nat, height: nat,
                 before: seq<byte>, after: seq<byte>, row: nat, col: nat)
    requires HoldsFrame(data, width, height) && row < height && col < width
    requires LumaUpTo(f, data, width, height, before, row, col)
    requires At(row, col, width) < |before|
    requires after == before[At(row, col, width) := Sample(f, data, width, height, row, col)]
    ensures LumaUpTo(f, data, width, height, after, row, col + 1)
  {
    hide At, HoldsFrame, Sample;
    forall r: nat, c: nat | r < height && c < width && (r < row || (r == row && c < col + 1))
      ensures At(r, c, width) < |after|
      ensures after[At(r, c, width)] == Sample(f, data, width, height, r, c)
    {
      AtInjective(r, c, row, col, width);
    }
  }

  lemma ChromaStep(f: (byte, byte, byte) -> byte, data: seq<byte>, width: nat, height: nat,
                   before: seq<byte>, after: seq<byte>, j: nat, i: nat)
    requires HoldsFrame(data, width, height) && j < Half(height) && i < Half(width)
    requires ChromaUpTo(f, data, width, height, before, 2 * j, 2 * i)
    requires At(j, i, Half(width)) < |before|
    requires after == before[At(j, i, Half(width)) := Sample(f, data, width, height, 2 * j, 2 * i)]
    ensures ChromaUpTo(f, data, width, height, after, 2 * j, 2 * i + 1)
  {
    hide At, HoldsFrame, Sample, Half;
    forall b: nat, a: nat |
      b < Half(height) && a < Half(width) && (2 * b < 2 * j || (2 * b == 2 * j && 2 * a < 2 * i + 1))
      ensures At(b, a, Half(width)) < |after|
      ensures after[At(b, a, Half(width))] == Sample(f, data, width, height, 2 * b, 2 * a)
    {
      AtInjective(b, a, j, i, Half(width));
    }
  }

  /** Pixels off the chroma grid leave nothing to do. */
  lemma ChromaSkip(f: (byte, byte, byte) -> byte, data: seq<byte>, width: nat, height: nat, plane: seq<byte>,
                   row: nat, col: nat)
    requires HoldsFrame(data, width, height) && ChromaUpTo(f, data, width, height, plane, row, col)
    requires row % 2 == 1 || col % 2 == 1
    ensures ChromaUpTo(f, data, width, height, plane, row, col + 1)
  {
  }

  /** The next row starts where the last one ended. */
  lemma NextRow(f: (byte, byte, byte) -> byte, g: (byte, byte, byte) -> byte, data: seq<byte>, width: nat, height: nat,
                y: seq<byte>, uv: seq<byte>, row: nat)
    requires HoldsFrame(data, width, height)
    ensures LumaUpTo(f, data, width, height, y, row, width) ==> LumaUpTo(f, data, width, height, y, row + 1, 0)
    ensures ChromaUpTo(g, data, width, height, uv, row, width) ==> ChromaUpTo(g, data, width, height, uv, row + 1, 0)
  {
  }

  lemma AllRows(f: (byte, byte, byte) -> byte, g: (byte, byte, byte) -> byte, data: seq<byte>, width: nat, height: nat,
                y: seq<byte>, uv: seq<byte>)
    requires HoldsFrame(data, width, height)
    ensures LumaUpTo(f, data, width, height, y, height, 0) ==> IsLuma(f, data, width, height, y)
    ensures ChromaUpTo(g, data, width, height, uv, height, 0) ==> IsChroma(g, data, width, height, uv)
  {
  }

  /** The bytes the loops read. */
  lemma PixelBytes(data: seq<byte>, width: nat, height: nat, row: nat, col: nat)
    requires HoldsFrame(data, width, height) && row < height && col < width
    ensures var idx := (row * width + col) * 3;
            && idx + 2 < |data|
            && data[idx] == ByteAt(data, width, height, row, 3 * col)
            && data[idx + 1] == ByteAt(data, width, height, row, 3 * col + 1)
            && data[idx + 2] == ByteAt(data, width, height, row, 3 * col + 2)
  {
    assert (row * width + col) * 3 == row * (3 * width) + 3 * col;
    RowFits(row, height, 3 * width);
  }

  method RgbToI420Sw(colour: Colour, rgb: seq<byte>, w: nat, h: nat, y: array<byte>, u: array<byte>, v: array<byte>)
    requires HoldsFrame(rgb, w, h) && y != u && y != v && u != v
    requires y.Length == h * w && u.Length == v.Length == Half(h) * Half(w)
    modifies y, u, v
    ensures IsLuma(colour.luma, rgb, w, h, y[..])
    ensures IsChroma(colour.cb, rgb, w, h, u[..]) && IsChroma(colour.cr, rgb, w, h, v[..])
  {
    hide At, HoldsFrame, LumaUpTo, ChromaUpTo, IsLuma, IsChroma, Half;
    Nothing(colour.luma, colour.cb, rgb, w, h, y[..], u[..]);
    Nothing(colour.luma, colour.cr, rgb, w, h, y[..], v[..]);
    for row := 0 to h
      invariant LumaUpTo(colour.luma, rgb, w, h, y[..], row, 0)
      invariant ChromaUpTo(colour.cb, rgb, w, h, u[..], row, 0) && ChromaUpTo(colour.cr, rgb, w, h, v[..], row, 0)
    {
      ConvertRow(colour, rgb, w, h, y, u, v, row);
      NextRow(colour.luma, colour.cb, rgb, w, h, y[..], u[..], row);
      NextRow(colour.luma, colour.cr, rgb, w, h, y[..], v[..], row);
    }
    AllRows(colour.luma, colour.cb, rgb, w, h, y[..], u[..]);
    AllRows(colour.luma, colour.cr, rgb, w, h, y[..], v[..]);
  }

  lemma Nothing(f: (byte, byte, byte) -> byte, g: (byte, byte, byte) -> byte, data: seq<byte>, width: nat, height: nat,
                y: seq<byte>, uv: seq<byte>)
    requires HoldsFrame(data, width, height) && |y| == height * width && |uv| == Half(height) * Half(width)
    ensures LumaUpTo(f, data, width, height, y, 0, 0) && ChromaUpTo(g, data, width, height, uv, 0, 0)
  {
  }

  /** The inner loop. */
  method ConvertRow(colour: Colour, rgb: seq<byte>, w: nat, h: nat, y: array<byte>, u: array<byte>, v: array<byte>,
                    row: nat)
    requires HoldsFrame(rgb, w, h) && y != u && y != v && u != v && row < h
    requires LumaUpTo(colour.luma, rgb, w, h, y[..], row, 0)
    requires ChromaUpTo(colour.cb, rgb, w, h, u[..], row, 0) && ChromaUpTo(colour.cr, rgb, w, h, v[..], row, 0)
    requires y.Length == h * w && u.Length == v.Length == Half(h) * Half(w)
    modifies y, u, v
    ensures LumaUpTo(colour.luma, rgb, w, h, y[..], row, w)
    ensures ChromaUpTo(colour.cb, rgb, w, h, u[..], row, w) && ChromaUpTo(colour.cr, rgb, w, h, v[..], row, w)
  {
    hide HoldsFrame, LumaUpTo, ChromaUpTo, ByteAt, Half;
    for col := 0 to w
      invariant LumaUpTo(colour.luma, rgb, w, h, y[..], row, col)
      invariant ChromaUpTo(colour.cb, rgb, w, h, u[..], row, col) && ChromaUpTo(colour.cr, rgb, w, h, v[..], row, col)
    {
      ghost var y0, u0, v0 := y[..], u[..], v[..];
      PixelBytes(rgb, w, h, row, col);
      AtBound(row, col, h, w);
      var idx := (row * w + col) * 3;
      var r, g, b := rgb[idx], rgb[idx + 1], rgb[idx + 2];
      y[row * w + col] := colour.luma(r, g, b);
      LumaStep(colour.luma, rgb, w, h, y0, y[..], row, col);
      if row % 2 == 0 && col % 2 == 0 {
        InGrid(row, col, h, w);
        AtBound(row / 2, col / 2, Half(h), Half(w));
        var uvIdx := row / 2 * Half(w) + col / 2;
        u[uvIdx] := colour.cb(r, g, b);
        v[uvIdx] := colour.cr(r, g, b);
        ChromaStep(colour.cb, rgb, w, h, u0, u[..], row / 2, col / 2);
        ChromaStep(colour.cr, rgb, w, h, v0, v[..], row / 2, col / 2);
      } else {
        ChromaSkip(colour.cb, rgb, w, h, u0, row, col);
        ChromaSkip(colour.cr, rgb, w, h, v0, row, col);
      }
    }
  }

  lemma InGrid(row: nat, col: nat, h: nat, w: nat)
    requires row < h && col < w
    ensures row / 2 < Half(h) && col / 2 < Half(w)
  {
  }

  method RgbToI420(colour: Colour, data: seq<byte>, width: nat, height: nat) returns (r: Result<I420, VideoError>)
    ensures r == Err(InvalidResolution) <==> width == 0 || height == 0
    ensures r == Err(ConversionFailed) <==> width != 0 && height != 0 && |data| < width * height * 3
    ensures r.Ok? ==> HoldsFrame(data, width, height) && IsI420(colour, data, width, height, r.value)
  {
    hide IsLuma, IsChroma;
    if width == 0 || height == 0 {
      return Err(InvalidResolution);
    }
    if |data| < height * (3 * width) {
      return Err(ConversionFailed);
    }
    var y := new byte[height * width](_ => 0);
    var u := new byte[Half(height) * Half(width)](_ => 0);
    var v := new byte[Half(height) * Half(width)](_ => 0);
    RgbToI420Sw(colour, data, width, height, y, u, v);
    return Ok(I420(y[..], u[..], v[..], width, height));
  }

  ghost predicate IsI420(colour: Colour, data: seq<byte>, width: nat, height: nat, picture: I420)
    requires HoldsFrame(data, width, height)
  {
    && picture.width == width && picture.height == height
    && IsLuma(colour.luma, data, width, height, picture.y)
    && IsChroma(colour.cb, data, width, height, picture.u) && IsChroma(colour.cr, data, width, height, picture.v)
  }

  // ----- Padding and subsampling together -----

  /** Padding never shows in the chroma planes: those of the padded frame are those of the frame itself. */
  lemma PaddingKeepsChroma(f: (byte, byte, byte) -> byte, data: seq<byte>, width: nat, height: nat, padded: seq<byte>,
                           plane: seq<byte>, planeOfPadded: seq<byte>)
    requires HoldsFrame(data, width, height) && IsPadded(data, width, height, padded)
    requires IsChroma(f, data, width, height, plane)
    requires IsChroma(f, padded, RoundUp(width), RoundUp(height), planeOfPadded)
    ensures plane == planeOfPadded
  {
    hide At, HoldsFrame, ByteAt, IsChroma, Half;
    SameHalf(width);
    SameHalf(height);
    ChromaSize(f, data, width, height, plane);
    ChromaSize(f, padded, RoundUp(width), RoundUp(height), planeOfPadded);
    forall n: nat | n < |plane| ensures n < |planeOfPadded| && plane[n] == planeOfPadded[n] {
      var j, i := AtCovers(n, Half(height), Half(width));
      InsideFrame(j, height);
      InsideFrame(i, width);
      SamePixel(f, data, width, height, padded, 2 * j, 2 * i);
      ChromaCell(f, data, width, height, plane, j, i);
      ChromaCell(f, padded, RoundUp(width), RoundUp(height), planeOfPadded, j, i);
    }
  }

  lemma SameHalf(n: nat)
    ensures Half(RoundUp(n)) == Half(n)
  {
  }

  /** Chroma cells come from pixels of the frame, never from padding. */
  lemma InsideFrame(j: nat, n: nat)
    requires j < Half(n)
    ensures 2 * j < n
  {
  }

  lemma ChromaSize(f: (byte, byte, byte) -> byte, data: seq<byte>, width: nat, height: nat, plane: seq<byte>)
    requires HoldsFrame(data, width, height) && IsChroma(f, data, width, height, plane)
    ensures |plane| == Half(height) * Half(width)
  {
  }

  lemma ChromaCell(f: (byte, byte, byte) -> byte, data: seq<byte>, width: nat, height: nat, plane: seq<byte>,
                   j: nat, i: nat)
    requires HoldsFrame(data, width, height) && IsChroma(f, data, width, height, plane)
    requires j < Half(height) && i < Half(width)
    ensures At(j, i, Half(width)) < |plane|
    ensures plane[At(j, i, Half(width))] == Sample(f, data, width, height, 2 * j, 2 * i)
  {
  }

  /** A pixel of the frame is the same pixel of the padded frame. */
  lemma SamePixel(f: (byte, byte, byte) -> byte, data: seq<byte>, width: nat, height: nat, padded: seq<byte>,
                  row: nat, col: nat)
    requires HoldsFrame(data, width, height) && IsPadded(data, width, height, padded)
    requires row < RoundUp(height) && col < RoundUp(width)
    ensures Sample(f, padded, RoundUp(width), RoundUp(height), row, col) == Sample(f, data, width, height, row, col)
  {
  }

  /** The luma of the padded frame: that of the frame at its place, that of black elsewhere. */
  lemma PaddedLuma(f: (byte, byte, byte) -> byte, data: seq<byte>, width: nat, height: nat, padded: seq<byte>,
                   plane: seq<byte>, planeOfPadded: seq<byte>, row: nat, col: nat)
    requires HoldsFrame(data, width, height) && IsPadded(data, width, height, padded)
    requires IsLuma(f, data, width, height, plane)
    requires IsLuma(f, padded, RoundUp(width), RoundUp(height), planeOfPadded)
    requires row < RoundUp(height) && col < RoundUp(width)
    ensures At(row, col, RoundUp(width)) < |planeOfPadded|
    ensures row < height && col < width ==> At(row, col, width) < |plane|
    ensures planeOfPadded[At(row, col, RoundUp(width))]
            == if row < height && col < width then plane[At(row, col, width)] else f(0, 0, 0)
  {
  }

  // ----- Cell by cell, with the indices written out -----

  /** The bytes from `p` on of the frame make the luma sample at `n` and the chroma samples at `m`. */
  lemma I420Cells(colour: Colour, data: seq<byte>, width: nat, height: nat, picture: I420, row: nat, col: nat,
                  n: nat, p: nat, m: nat)
    requires HoldsFrame(data, width, height) && IsI420(colour, data, width, height, picture)
    requires row < height && col < width
    requires n == row * width + col && p == 3 * n && m == row / 2 * ((width + 1) / 2) + col / 2
    ensures |picture.y| == height * width
    ensures |picture.u| == |picture.v| == ((height + 1) / 2) * ((width + 1) / 2)
    ensures n < |picture.y| && p + 2 < |data| && picture.y[n] == colour.luma(data[p], data[p + 1], data[p + 2])
    ensures row % 2 == 0 && col % 2 == 0 ==>
              && m < |picture.u| && m < |picture.v|
              && picture.u[m] == colour.cb(data[p], data[p + 1], data[p + 2])
              && picture.v[m] == colour.cr(data[p], data[p + 1], data[p + 2])
  {
    hide ByteAt, HoldsFrame, IsLuma, IsChroma;
    PixelBytes(data, width, height, row, col);
    LumaCell(colour.luma, data, width, height, picture.y, row, col);
    ChromaSize(colour.cb, data, width, height, picture.u);
    ChromaSize(colour.cr, data, width, height, picture.v);
    if row % 2 == 0 && col % 2 == 0 {
      InGrid(row, col, height, width);
      ChromaCell(colour.cb, data, width, height, picture.u, row / 2, col / 2);
      ChromaCell(colour.cr, data, width, height, picture.v, row / 2, col / 2);
    }
  }

  lemma LumaCell(f: (byte, byte, byte) -> byte, data: seq<byte>, width: nat, height: nat, plane: seq<byte>,
                 row: nat, col: nat)
    requires HoldsFrame(data, width, height) && IsLuma(f, data, width, height, plane)
    requires row < height && col < width
    ensures |plane| == height * width && At(row, col, width) < |plane|
    ensures plane[At(row, col, width)] == Sample(f, data, width, height, row, col)
  {
  }

  /** Where each byte of a padded frame comes from: at `n` of the padded frame stands what is at `p` of the frame. */
  lemma PaddedCells(data: seq<byte>, width: nat, height: nat, padded: seq<byte>, row: nat, k: nat, n: nat, p: nat)
    requires HoldsFrame(data, width, height) && IsPadded(data, width, height, padded)
    requires row < height + height % 2 && k < 3 * (width + width % 2)
    requires n == row * (3 * (width + width % 2)) + k && p == row * (3 * width) + k
    ensures n < |padded|
    ensures row < height && k < 3 * width ==> p < |data|
    ensures padded[n] == if row < height && k < 3 * width then data[p] else 0
  {
    assert RoundUp(width) == width + width % 2 && RoundUp(height) == height + height % 2;
    AtBound(row, k, RoundUp(height), 3 * RoundUp(width));
    if row < height && k < 3 * width {
      AtBound(row, k, height, 3 * width);
    }
    assert ByteAt(padded, RoundUp(width), RoundUp(height), row, k) == ByteAt(data, width, height, row, k);
  }
}
