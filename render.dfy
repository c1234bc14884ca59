/** renderRgbaToWindow (uvc_camera.cpp): copy an RGBA frame into a locked
    window buffer, top-left aligned, clipping what does not fit and painting
    the rest of the buffer black. The window buffer is an array of bytes
    whose rows are `stride` pixels of 4 bytes apart. */
module Render {
  import opened Common

  /** The byte at offset i of the window buffer after rendering: inside the
      copied area the frame's byte, elsewhere 0. */
  function Rendered(src: seq<byte>, w: int, h: int, outW: int, stride: int, i: int): byte
    requires stride >= 1
  {
    var row, col := i / (stride * 4), i % (stride * 4);
    var j := row * (w * 4) + col;
    if row < h && col < Min(w, outW) * 4 && 0 <= j < |src| then src[j] else 0
  }

  lemma SourceIndexInBounds(w: int, h: int, row: int, col: int)
    requires 0 <= row < h && 0 <= col < w * 4
    ensures 0 <= row * (w * 4) + col < h * (w * 4)
  {
    MulMonotone(row, h - 1, w * 4);
    assert (h - 1) * (w * 4) + w * 4 == h * (w * 4);
  }

  /** The offset of byte c of pixel (px, py) in a buffer with rows of
      `rowBytes` bytes splits back into that row and column. */
  lemma RowColumn(rowBytes: int, py: int, k: int)
    requires rowBytes >= 1 && 0 <= py && 0 <= k < rowBytes
    ensures (py * rowBytes + k) / rowBytes == py && (py * rowBytes + k) % rowBytes == k
  {
    DivModUnique(py * rowBytes + k, rowBytes, py, k);
  }

  /** The window shows the frame's top-left min(w, outW) x min(h, outH)
      pixels unchanged, every channel of every pixel. */
  lemma RenderedShowsFrame(src: seq<byte>, w: int, h: int, outW: int, outH: int, stride: int, px: int, py: int, c: int)
    requires 0 <= w && 0 <= h && outW <= stride && stride >= 1 && |src| >= h * (w * 4)
    requires 0 <= px < Min(w, outW) && 0 <= py < Min(h, outH) && 0 <= c < 4
    ensures 0 <= (py * w + px) * 4 + c < |src|
    ensures Rendered(src, w, h, outW, stride, py * (stride * 4) + px * 4 + c) == src[(py * w + px) * 4 + c]
  {
    RowColumn(stride * 4, py, px * 4 + c);
    SourceIndexInBounds(w, h, py, px * 4 + c);
    assert (py * w + px) * 4 + c == py * (w * 4) + (px * 4 + c);
  }

  /** Every byte of a row outside the copied columns, and every byte of a
      row below the copied rows, is painted black. */
  lemma RenderedPadsBlack(src: seq<byte>, w: int, h: int, outW: int, stride: int, py: int, k: int)
    requires 0 <= w && 0 <= h && stride >= 1 && |src| >= h * (w * 4)
    requires 0 <= py && 0 <= k < stride * 4 && (py >= h || k >= Min(w, outW) * 4)
    ensures Rendered(src, w, h, outW, stride, py * (stride * 4) + k) == 0
  {
    MulMonotone(0, py, stride * 4);
    RowColumn(stride * 4, py, k);
  }

  /** The bytes of buffer row y: the frame's row y in the copied columns,
      black elsewhere. */
  lemma RenderedRow(src: seq<byte>, w: int, h: int, outW: int, stride: int, y: int, k: int)
    requires 0 <= w && 0 <= h && stride >= 1 && |src| >= h * (w * 4)
    requires 0 <= y && 0 <= k < stride * 4
    ensures y < h && k < Min(w, outW) * 4 ==> 0 <= y * (w * 4) + k < |src|
    ensures Rendered(src, w, h, outW, stride, y * (stride * 4) + k)
         == if y < h && k < Min(w, outW) * 4 then src[y * (w * 4) + k] else 0
  {
    MulMonotone(0, y, stride * 4);
    RowColumn(stride * 4, y, k);
    if y < h && k < Min(w, outW) * 4 {
      SourceIndexInBounds(w, h, y, k);
    }
  }

  /** memcpy(dst + dstBase, src + srcBase, n). */
  method CopyBytes(dst: array<byte>, dstBase: int, src: seq<byte>, srcBase: int, n: int)
    requires 0 <= dstBase && 0 <= srcBase && 0 <= n && dstBase + n <= dst.Length && srcBase + n <= |src|
    modifies dst
    ensures forall i :: dstBase <= i < dstBase + n ==> dst[i] == src[srcBase + (i - dstBase)]
    ensures forall i :: 0 <= i < dst.Length && !(dstBase <= i < dstBase + n) ==> dst[i] == old(dst[i])
  {
    var k := 0;
    while k < n
      invariant 0 <= k <= n
      invariant forall i :: dstBase <= i < dstBase + k ==> dst[i] == src[srcBase + (i - dstBase)]
      invariant forall i :: 0 <= i < dst.Length && !(dstBase <= i < dstBase + k) ==> dst[i] == old(dst[i])
    {
      dst[dstBase + k] := src[srcBase + k];
      k := k + 1;
    }
  }

  /** memset(dst + from, 0, to - from). */
  method ZeroBytes(dst: array<byte>, from: int, to: int)
    requires 0 <= from <= to <= dst.Length
    modifies dst
    ensures forall i :: from <= i < to ==> dst[i] == 0
    ensures forall i :: 0 <= i < dst.Length && !(from <= i < to) ==> dst[i] == old(dst[i])
  {
    var i := from;
    while i < to
      invariant from <= i <= to
      invariant forall j :: from <= j < i ==> dst[j] == 0
      invariant forall j :: 0 <= j < dst.Length && !(from <= j < i) ==> dst[j] == old(dst[j])
    {
      dst[i] := 0;
      i := i + 1;
    }
  }

  /** One row of the first loop: copy the visible bytes, black out the rest
      of the row. */
  method CopyRow(dst: array<byte>, src: seq<byte>, w: int, h: int, outW: int, stride: int, y: int, base: int)
    requires 0 <= w && 0 <= h && 0 <= outW <= stride && |src| >= h * (w * 4)
    requires 0 <= y < h && base == y * (stride * 4) && base + stride * 4 <= dst.Length
    modifies dst
    ensures forall i :: base <= i < base + stride * 4 ==> dst[i] == Rendered(src, w, h, outW, stride, i)
    ensures forall i :: 0 <= i < dst.Length && !(base <= i < base + stride * 4) ==> dst[i] == old(dst[i])
  {
    var copyWBytes := Min(w, outW) * 4;
    assert y * (w * 4) + w * 4 <= h * (w * 4) by {
      MulMonotone(y + 1, h, w * 4);
      assert (y + 1) * (w * 4) == y * (w * 4) + w * 4;
    }
    MulMonotone(0, y, w * 4);
    CopyBytes(dst, base, src, y * (w * 4), copyWBytes);
    if copyWBytes < stride * 4 {
      ZeroBytes(dst, base + copyWBytes, base + stride * 4);
    }
    forall i | base <= i < base + stride * 4
      ensures dst[i] == Rendered(src, w, h, outW, stride, i)
    {
      RenderedRow(src, w, h, outW, stride, y, i - base);
    }
  }

  /** One row of the second loop: below the frame, black. Rows from
      `start` up to this one are already rendered and stay so. */
  method BlackRow(dst: array<byte>, src: seq<byte>, w: int, h: int, outW: int, stride: int, y: int, base: int, ghost start: int)
    requires 0 <= w && 0 <= h && stride >= 1 && |src| >= h * (w * 4)
    requires h <= y && base == y * (stride * 4) && base + stride * 4 <= dst.Length && 0 <= start <= base
    requires forall i :: start <= i < base ==> dst[i] == Rendered(src, w, h, outW, stride, i)
    modifies dst
    ensures forall i :: start <= i < base + stride * 4 ==> dst[i] == Rendered(src, w, h, outW, stride, i)
    ensures forall i :: 0 <= i < start ==> dst[i] == old(dst[i])
    ensures forall i :: base + stride * 4 <= i < dst.Length ==> dst[i] == old(dst[i])
  {
    ZeroBytes(dst, base, base + stride * 4);
    forall i | base <= i < base + stride * 4
      ensures dst[i] == Rendered(src, w, h, outW, stride, i)
    {
      RenderedRow(src, w, h, outW, stride, y, i - base);
    }
  }

  /** The first loop: rows 0 .. copyH - 1 copied from the frame. */
  method CopyRows(dst: array<byte>, src: seq<byte>, w: int, h: int, outW: int, outH: int, stride: int)
    requires 0 <= w && 0 <= h && |src| >= h * (w * 4)
    requires 0 <= outW <= stride && 1 <= stride && 0 <= outH && outH * (stride * 4) <= dst.Length
    modifies dst
    ensures forall i :: 0 <= i < Min(h, outH) * (stride * 4) ==> dst[i] == Rendered(src, w, h, outW, stride, i)
    ensures forall i :: Min(h, outH) * (stride * 4) <= i < dst.Length ==> dst[i] == old(dst[i])
  {
    var dstStride := stride * 4;
    var copyH := Min(h, outH);
    var y := 0;
    var base := 0;
    while y < copyH
      invariant 0 <= y <= copyH && base == y * dstStride
      invariant forall i :: 0 <= i < base ==> dst[i] == Rendered(src, w, h, outW, stride, i)
      invariant forall i :: base <= i < dst.Length ==> dst[i] == old(dst[i])
    {
      assert (y + 1) * dstStride == base + dstStride;
      MulMonotone(y + 1, outH, dstStride);
      CopyRow(dst, src, w, h, outW, stride, y, base);
      y, base := y + 1, base + dstStride;
    }
  }

  /** The second loop: rows copyH .. outH - 1 painted black. */
  method BlackRows(dst: array<byte>, src: seq<byte>, w: int, h: int, outW: int, outH: int, stride: int)
    requires 0 <= w && 0 <= h && |src| >= h * (w * 4)
    requires 1 <= stride && 0 <= outH && outH * (stride * 4) <= dst.Length
    modifies dst
    ensures forall i :: Min(h, outH) * (stride * 4) <= i < outH * (stride * 4) ==> dst[i] == Rendered(src, w, h, outW, stride, i)
    ensures forall i :: 0 <= i < Min(h, outH) * (stride * 4) ==> dst[i] == old(dst[i])
    ensures forall i :: outH * (stride * 4) <= i < dst.Length ==> dst[i] == old(dst[i])
  {
    var dstStride := stride * 4;
    var y := Min(h, outH);
    var base := y * dstStride;
    ghost var start := base;
    while y < outH
      invariant Min(h, outH) <= y <= outH && base == y * dstStride && start <= base
      invariant y < outH ==> h <= y
      invariant forall i :: start <= i < base ==> dst[i] == Rendered(src, w, h, outW, stride, i)
      invariant forall i :: 0 <= i < start ==> dst[i] == old(dst[i])
      invariant forall i :: base <= i < dst.Length ==> dst[i] == old(dst[i])
    {
      assert (y + 1) * dstStride == base + dstStride;
      MulMonotone(y + 1, outH, dstStride);
      BlackRow(dst, src, w, h, outW, stride, y, base, start);
      y, base := y + 1, base + dstStride;
    }
    assert start == Min(h, outH) * (stride * 4) && base == outH * (stride * 4);
  }

  /** renderRgbaToWindow. `locked` is whether there is a window and
      ANativeWindow_lock succeeded; when it did not, nothing is written.
      The window buffer holds outH rows of `stride` pixels. */
  method RenderRgbaToWindow(dst: array<byte>, locked: bool, outW: int, outH: int, stride: int,
                            src: seq<byte>, w: int, h: int)
    requires 0 <= w && 0 <= h && |src| >= h * (w * 4)
    requires 0 <= outW <= stride && 1 <= stride && 0 <= outH && outH * (stride * 4) <= dst.Length
    modifies dst
    ensures !locked ==> dst[..] == old(dst[..])
    ensures locked ==> forall i :: 0 <= i < outH * (stride * 4) ==> dst[i] == Rendered(src, w, h, outW, stride, i)
    ensures forall i :: outH * (stride * 4) <= i < dst.Length ==> dst[i] == old(dst[i])
  {
    if !locked {
      return;
    }
    MulMonotone(Min(h, outH), outH, stride * 4);
    CopyRows(dst, src, w, h, outW, outH, stride);
    BlackRows(dst, src, w, h, outW, outH, stride);
  }
}
