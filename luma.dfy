/** The strided luma samplers of the UVC driver (avgLumaYuyvSample and
    avgLumaRgbaSample in uvc_camera.cpp): the mean luma of a grid of about
    64 x 36 pixels of a frame, which feeds the software auto-exposure. */
module Luma {
  import opened Common

  /** The two frame layouts: packed YUYV (2 bytes per pixel, the luma of
      pixel x at byte 2x of its row) and RGBA (4 bytes per pixel). */
  datatype Layout = Yuyv | Rgba

  function BytesPerPixel(l: Layout): int
  {
    if l == Yuyv then 2 else 4
  }

  /** The luma of an RGBA pixel, (77 R + 150 G + 29 B) >> 8. */
  function RgbLuma(r: byte, g: byte, b: byte): (y: int)
    ensures 0 <= y <= 255
    ensures r == g == b ==> y == r as int
  {
    (77 * r as int + 150 * g as int + 29 * b as int) / 256
  }

  /** The byte offset of pixel (x, y) in a frame of width w, rows packed. */
  function Offset(l: Layout, w: int, y: int, x: int): int
  {
    BytesPerPixel(l) * (y * w + x)
  }

  /** Every byte of every pixel of a w x h frame lies inside the buffer. */
  lemma OffsetInBounds(l: Layout, w: int, h: int, y: int, x: int)
    requires 0 <= y < h && 0 <= x < w
    ensures 0 <= Offset(l, w, y, x) && Offset(l, w, y, x) + BytesPerPixel(l) <= BytesPerPixel(l) * w * h
  {
    MulMonotone(y, h - 1, w);
    assert y * w + x <= (h - 1) * w + w - 1;
    assert (h - 1) * w + w - 1 == w * h - 1;
    MulMonotone(y * w + x, w * h - 1, BytesPerPixel(l));
    assert BytesPerPixel(l) * w * h == BytesPerPixel(l) * (w * h);
  }

  /** The luma of pixel (x, y); a pixel outside the buffer, which the
      samplers never read, counts as 0. */
  function PixelLuma(l: Layout, s: seq<byte>, w: int, y: int, x: int): (v: int)
    ensures 0 <= v <= 255
  {
    var p := Offset(l, w, y, x);
    if !(0 <= p && p + BytesPerPixel(l) <= |s|) then 0
    else if l == Yuyv then s[p] as int
    else RgbLuma(s[p], s[p + 1], s[p + 2])
  }

  /** The sum and the number of the samples of row y from column x on,
      every stepX-th column. */
  function RowSum(l: Layout, s: seq<byte>, w: int, y: int, x: int, stepX: int): (r: int)
    requires 0 <= x && stepX >= 1
    ensures 0 <= r <= 255 * RowCount(w, x, stepX)
    decreases w - x
  {
    if x >= w then 0 else PixelLuma(l, s, w, y, x) + RowSum(l, s, w, y, x + stepX, stepX)
  }

  function RowCount(w: int, x: int, stepX: int): (n: nat)
    requires stepX >= 1
    ensures x < w ==> n >= 1
    decreases w - x
  {
    if x >= w then 0 else 1 + RowCount(w, x + stepX, stepX)
  }

  /** The sum and the number of the samples of rows y, y + stepY, ... */
  function FrameSum(l: Layout, s: seq<byte>, w: int, h: int, y: int, stepX: int, stepY: int): (r: int)
    requires 0 <= y && stepX >= 1 && stepY >= 1
    ensures 0 <= r <= 255 * FrameCount(w, h, y, stepX, stepY)
    decreases h - y
  {
    if y >= h then 0 else RowSum(l, s, w, y, 0, stepX) + FrameSum(l, s, w, h, y + stepY, stepX, stepY)
  }

  function FrameCount(w: int, h: int, y: int, stepX: int, stepY: int): (n: nat)
    requires stepX >= 1 && stepY >= 1
    ensures w > 0 && y < h ==> n >= 1
    decreases h - y
  {
    if y >= h then 0 else RowCount(w, 0, stepX) + FrameCount(w, h, y + stepY, stepX, stepY)
  }

  function StepX(w: int): int { Max(1, w / 64) }

  function StepY(h: int): int { Max(1, h / 36) }

  /** The sampled mean: the integer quotient of the samples' sum by their number. */
  function SampledAverage(l: Layout, s: seq<byte>, w: int, h: int): (avg: int)
    requires w > 0 && h > 0
    ensures 0 <= avg <= 255
  {
    var n := FrameCount(w, h, 0, StepX(w), StepY(h));
    var total := FrameSum(l, s, w, h, 0, StepX(w), StepY(h));
    QuotientBound(total, n);
    total / n
  }

  lemma QuotientBound(total: int, n: int)
    requires n > 0 && 0 <= total <= 255 * n
    ensures 0 <= total / n <= 255
  {
    DivMonotone(total, 255 * n, n);
    MulModZero(255, n);
  }

  /** The inner loop of the samplers: row y, every stepX-th pixel. */
  method SampleRow(l: Layout, buf: array<byte>, w: int, h: int, y: int, stepX: int) returns (sum: int, cnt: int)
    requires 0 <= y < h && stepX >= 1 && buf.Length >= BytesPerPixel(l) * w * h
    ensures sum == RowSum(l, buf[..], w, y, 0, stepX) && cnt == RowCount(w, 0, stepX)
  {
    sum, cnt := 0, 0;
    var x := 0;
    while x < w
      invariant 0 <= x
      invariant sum + RowSum(l, buf[..], w, y, x, stepX) == RowSum(l, buf[..], w, y, 0, stepX)
      invariant cnt + RowCount(w, x, stepX) == RowCount(w, 0, stepX)
      decreases w - x
    {
      OffsetInBounds(l, w, h, y, x);
      var p := BytesPerPixel(l) * (y * w + x);
      if l == Yuyv {
        sum := sum + buf[p] as int;
      } else {
        var r, g, b := buf[p] as int, buf[p + 1] as int, buf[p + 2] as int;
        sum := sum + (77 * r + 150 * g + 29 * b) / 256;
      }
      cnt := cnt + 1;
      x := x + stepX;
    }
  }

  /** The shared sampling loops of both samplers. */
  method SampleLoop(l: Layout, buf: array<byte>, w: int, h: int) returns (avg: int)
    requires w > 0 && h > 0 && buf.Length >= BytesPerPixel(l) * w * h
    ensures avg == SampledAverage(l, buf[..], w, h)
  {
    var stepX := Max(1, w / 64);
    var stepY := Max(1, h / 36);
    var sum := 0;
    var cnt := 0;
    var y := 0;
    while y < h
      invariant 0 <= y
      invariant sum + FrameSum(l, buf[..], w, h, y, stepX, stepY) == FrameSum(l, buf[..], w, h, 0, stepX, stepY)
      invariant cnt + FrameCount(w, h, y, stepX, stepY) == FrameCount(w, h, 0, stepX, stepY)
      decreases h - y
    {
      var rowSum, rowCnt := SampleRow(l, buf, w, h, y, stepX);
      assert FrameSum(l, buf[..], w, h, y, stepX, stepY)
          == RowSum(l, buf[..], w, y, 0, stepX) + FrameSum(l, buf[..], w, h, y + stepY, stepX, stepY);
      assert FrameCount(w, h, y, stepX, stepY) == RowCount(w, 0, stepX) + FrameCount(w, h, y + stepY, stepX, stepY);
      sum, cnt := sum + rowSum, cnt + rowCnt;
      y := y + stepY;
    }
    avg := if cnt != 0 then sum / cnt else 0;
  }

  /** avgLumaYuyvSample: 0 for a missing buffer or an empty frame, otherwise
      the sampled mean of the Y bytes, a value in [0, 255]. */
  method AvgLumaYuyvSample(yuyv: array?<byte>, w: int, h: int) returns (avg: int)
    requires yuyv != null && w > 0 && h > 0 ==> yuyv.Length >= 2 * w * h
    ensures yuyv == null || w <= 0 || h <= 0 ==> avg == 0
    ensures yuyv != null && w > 0 && h > 0 ==> avg == SampledAverage(Yuyv, yuyv[..], w, h)
    ensures 0 <= avg <= 255
  {
    if yuyv == null || w <= 0 || h <= 0 {
      return 0;
    }
    avg := SampleLoop(Yuyv, yuyv, w, h);
  }

  /** avgLumaRgbaSample: 0 for a missing buffer or an empty frame, otherwise
      the sampled mean of the pixels' (77 R + 150 G + 29 B) >> 8, a value in
      [0, 255]. */
  method AvgLumaRgbaSample(rgba: array?<byte>, w: int, h: int) returns (avg: int)
    requires rgba != null && w > 0 && h > 0 ==> rgba.Length >= 4 * w * h
    ensures rgba == null || w <= 0 || h <= 0 ==> avg == 0
    ensures rgba != null && w > 0 && h > 0 ==> avg == SampledAverage(Rgba, rgba[..], w, h)
    ensures 0 <= avg <= 255
  {
    if rgba == null || w <= 0 || h <= 0 {
      return 0;
    }
    avg := SampleLoop(Rgba, rgba, w, h);
  }

  /** Every byte of the frame holds the same value. */
  ghost predicate Uniform(s: seq<byte>, v: byte)
  {
    forall i :: 0 <= i < |s| ==> s[i] == v
  }

  lemma Distribute(v: int, a: int, b: int)
    ensures v * (a + b) == v * a + v * b
  {
  }

  lemma PixelLumaUniform(l: Layout, s: seq<byte>, w: int, h: int, y: int, x: int, v: byte)
    requires 0 <= y < h && 0 <= x < w && |s| >= BytesPerPixel(l) * w * h && Uniform(s, v)
    ensures PixelLuma(l, s, w, y, x) == v as int
  {
    OffsetInBounds(l, w, h, y, x);
    var p := Offset(l, w, y, x);
    assert s[p] == v;
    if l == Rgba {
      assert s[p + 1] == v && s[p + 2] == v;
    }
  }

  lemma {:induction false} RowSumUniform(l: Layout, s: seq<byte>, w: int, h: int, y: int, x: int, stepX: int, v: byte)
    requires 0 <= y < h && 0 <= x && stepX >= 1 && |s| >= BytesPerPixel(l) * w * h && Uniform(s, v)
    ensures RowSum(l, s, w, y, x, stepX) == v as int * RowCount(w, x, stepX)
    decreases w - x
  {
    if x < w {
      PixelLumaUniform(l, s, w, h, y, x, v);
      RowSumUniform(l, s, w, h, y, x + stepX, stepX, v);
      assert RowSum(l, s, w, y, x, stepX) == v as int + RowSum(l, s, w, y, x + stepX, stepX);
      assert RowCount(w, x, stepX) == 1 + RowCount(w, x + stepX, stepX);
      Distribute(v as int, 1, RowCount(w, x + stepX, stepX));
    }
  }

  lemma {:induction false} FrameSumUniform(l: Layout, s: seq<byte>, w: int, h: int, y: int, stepX: int, stepY: int, v: byte)
    requires 0 <= y && stepX >= 1 && stepY >= 1 && |s| >= BytesPerPixel(l) * w * h && Uniform(s, v)
    ensures FrameSum(l, s, w, h, y, stepX, stepY) == v as int * FrameCount(w, h, y, stepX, stepY)
    decreases h - y
  {
    if y < h {
      RowSumUniform(l, s, w, h, y, 0, stepX, v);
      FrameSumUniform(l, s, w, h, y + stepY, stepX, stepY, v);
      Distribute(v as int, RowCount(w, 0, stepX), FrameCount(w, h, y + stepY, stepX, stepY));
    }
  }

  /** A frame of one grey level v samples to exactly v, in both layouts:
      the RGBA weights 77 + 150 + 29 add up to 256, so grey keeps its value. */
  lemma UniformFrameAverage(l: Layout, s: seq<byte>, w: int, h: int, v: byte)
    requires w > 0 && h > 0 && |s| >= BytesPerPixel(l) * w * h && Uniform(s, v)
    ensures SampledAverage(l, s, w, h) == v as int
  {
    FrameSumUniform(l, s, w, h, 0, StepX(w), StepY(h), v);
    MulModZero(v as int, FrameCount(w, h, 0, StepX(w), StepY(h)));
  }
}
