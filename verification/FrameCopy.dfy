/**
 aic-emu's display path: GetOneFrame reads one content frame, cropped to the surface, and Copy lays the rows
 out at the surface's pitch in the mapped buffer object.
 */
module FrameCopy {
  import opened Bytes
  import opened Sequences
  import opened Strides

  const PIXEL_SIZE := 4

  datatype Surface = Surface(width: nat, height: nat, pitch: nat, format: nat, pixelSize: nat, totalSize: nat)

  datatype Status = None | Gfx | StreamParams

  /** A product of unsigned ints. */
  function Wrapped(n: nat): nat {
    n % 0x1_0000_0000
  }

  /** AdjustSurfaceParams: the driver's pixel size and the size of the buffer object. */
  function AdjustSurfaceParams(s: Surface): (r: (Status, Surface))
    ensures r.0.None? <==> s.width != 0 && s.height != 0 && s.format != 0
    ensures r.0.None? ==> r.1.pixelSize == PIXEL_SIZE && r.1.totalSize == Wrapped(Times(s.height, s.pitch) * PIXEL_SIZE)
  {
    if s.width == 0 || s.height == 0 || s.format == 0 then (Gfx, s)
    else (None, s.(pixelSize := PIXEL_SIZE, totalSize := Wrapped(Times(s.height, s.pitch) * PIXEL_SIZE)))
  }

  /** What AdjustSurfaceParams makes sure of. */
  predicate Adjusted(s: Surface) {
    && s.width > 0 && s.height > 0 && s.pixelSize == PIXEL_SIZE
    && s.totalSize == Wrapped(Times(s.height, s.pitch) * PIXEL_SIZE)
  }

  lemma AdjustedExactly(s: Surface)
    ensures AdjustSurfaceParams(s).0.None? ==> Adjusted(AdjustSurfaceParams(s).1)
    ensures Adjusted(s) && s.format != 0 ==> AdjustSurfaceParams(s) == (None, s)
  {
    hide Times, Wrapped;
  }

  /** The size of the picture itself does not wrap, so the buffer for it has room for all rows. */
  predicate PictureFits(s: Surface) {
    Times(s.height, s.width * PIXEL_SIZE) < 0x1_0000_0000
  }

  function RowBytes(s: Surface): nat {
    Wrapped(s.width * PIXEL_SIZE)
  }

  lemma RowAtMost(s: Surface)
    ensures RowBytes(s) <= s.width * PIXEL_SIZE
  {
  }

  lemma RowIsWhole(s: Surface)
    requires s.height > 0 && PictureFits(s)
    ensures RowBytes(s) == s.width * PIXEL_SIZE
  {
    TimesMonotone(1, s.height, s.width * PIXEL_SIZE);
  }

  // ----- the pictures -----

  /** The first `n` rows of a crop: the first `row` bytes of every `stride` bytes. */
  function Crop(frame: seq<byte>, stride: nat, row: nat, n: nat): (r: seq<byte>)
    requires row <= stride && Times(n, stride) <= |frame|
    ensures |r| == Times(n, row)
  {
    if n == 0 then []
    else
      Crop(frame, stride, row, n - 1) + frame[Times(n - 1, stride)..Times(n - 1, stride) + row]
  }

  lemma {:induction false} CropOfPrefix(frame: seq<byte>, more: seq<byte>, stride: nat, row: nat, n: nat)
    requires row <= stride && Times(n, stride) <= |frame| && frame <= more
    ensures Crop(frame, stride, row, n) == Crop(more, stride, row, n)
  {
    if n > 0 {
      CropOfPrefix(frame, more, stride, row, n - 1);
    }
  }

  /** Row `i` of a packed picture. */
  function PackedRow(picture: seq<byte>, row: nat, i: nat): seq<byte>
    requires Times(i, row) + row <= |picture|
  {
    picture[Times(i, row)..Times(i, row) + row]
  }

  lemma {:induction false} CropRow(frame: seq<byte>, stride: nat, row: nat, n: nat, i: nat)
    requires row <= stride && Times(n, stride) <= |frame| && i < n
    ensures Times(i, row) + row <= Times(n, row) && Times(i, stride) + row <= |frame|
    ensures PackedRow(Crop(frame, stride, row, n), row, i) == frame[Times(i, stride)..Times(i, stride) + row]
  {
    hide Times;
    NextRow(n, row, i);
    NextRow(n, stride, i);
    NextRow(n, stride, n - 1);
    if i < n - 1 {
      CropRow(frame, stride, row, n - 1, i);
      var c := Crop(frame, stride, row, n - 1);
      NextRow(n - 1, row, i);
      assert PackedRow(Crop(frame, stride, row, n), row, i) == PackedRow(c, row, i);
    }
  }

  // ----- Copy -----

  /** The buffer object's memory after `n` rows of `row` bytes, `pitch` bytes apart. */
  function CopyRows(mem: seq<byte>, picture: seq<byte>, row: nat, pitch: nat, n: nat): (r: seq<byte>)
    requires RowsInBounds(row, pitch, n, |mem|) && Times(n, row) <= |picture|
    ensures |r| == |mem|
  {
    if n == 0 then mem
    else
      BoundsShrink(row, pitch, n, |mem|);
      var m, at := CopyRows(mem, picture, row, pitch, n - 1), Times(n - 1, pitch);
      m[..at] + PackedRow(picture, row, n - 1) + m[at + row..]
  }

  /** The last row's last byte is inside the memory. */
  predicate RowsInBounds(row: nat, pitch: nat, n: nat, size: nat) {
    n == 0 || Times(n - 1, pitch) + row <= size
  }

  lemma BoundsShrink(row: nat, pitch: nat, n: nat, size: nat)
    requires n > 0 && RowsInBounds(row, pitch, n, size)
    ensures RowsInBounds(row, pitch, n - 1, size)
  {
    if n > 1 {
      TimesMonotone(n - 2, n - 1, pitch);
    }
  }

  /** Row `i` of a pitched surface. */
  function SurfaceRow(mem: seq<byte>, row: nat, pitch: nat, i: nat): seq<byte>
    requires Times(i, pitch) + row <= |mem|
  {
    mem[Times(i, pitch)..Times(i, pitch) + row]
  }

  /** Rows that do not overlap keep their bytes, and bytes between rows keep theirs. */
  lemma {:induction false} CopiedRow(mem: seq<byte>, picture: seq<byte>, row: nat, pitch: nat, n: nat, i: nat)
    requires RowsInBounds(row, pitch, n, |mem|) && Times(n, row) <= |picture| && row <= pitch && i < n
    ensures Times(i, pitch) + row <= |mem| && Times(i, row) + row <= |picture|
    ensures SurfaceRow(CopyRows(mem, picture, row, pitch, n), row, pitch, i) == PackedRow(picture, row, i)
  {
    hide CopyRows, PackedRow, Times, RowsInBounds;
    TimesMonotone(i, n - 1, pitch);
    TimesMonotone(i + 1, n, row);
    TimesMonotone(n - 1, n, row);
    LastRowInBounds(row, pitch, n, |mem|);
    NextRow(n, row, i);
    NextRow(n, row, n - 1);
    BoundsShrink(row, pitch, n, |mem|);
    CopyRowsNext(mem, picture, row, pitch, n);
    var m, at := CopyRows(mem, picture, row, pitch, n - 1), Times(n - 1, pitch);
    if i < n - 1 {
      CopiedRow(mem, picture, row, pitch, n - 1, i);
      NextRow(n - 1, pitch, i);
    }
    Patched(m, PackedRow(picture, row, n - 1), at, Times(i, pitch), row);
  }

  lemma LastRowInBounds(row: nat, pitch: nat, n: nat, size: nat)
    requires n > 0 && RowsInBounds(row, pitch, n, size)
    ensures Times(n - 1, pitch) + row <= size
  {
  }

  lemma CopyRowsNext(mem: seq<byte>, picture: seq<byte>, row: nat, pitch: nat, n: nat)
    requires n > 0 && RowsInBounds(row, pitch, n, |mem|) && Times(n, row) <= |picture|
    ensures RowsInBounds(row, pitch, n - 1, |mem|) && Times(n - 1, row) + row <= |picture|
    ensures var m, at := CopyRows(mem, picture, row, pitch, n - 1), Times(n - 1, pitch);
            CopyRows(mem, picture, row, pitch, n) == m[..at] + PackedRow(picture, row, n - 1) + m[at + row..]
  {
    BoundsShrink(row, pitch, n, |mem|);
  }

  /** Writing over `row` bytes at one place: what stands there after, and before it. */
  lemma Patched(m: seq<byte>, patch: seq<byte>, at: nat, from: nat, row: nat)
    requires |patch| == row && at + row <= |m| && (from + row <= at || from == at)
    ensures (m[..at] + patch + m[at + row..])[from..from + row] == if from == at then patch else m[from..from + row]
  {
  }

  lemma {:induction false} BetweenRowsKept(mem: seq<byte>, picture: seq<byte>, row: nat, pitch: nat, n: nat, k: nat)
    requires RowsInBounds(row, pitch, n, |mem|) && Times(n, row) <= |picture| && k < |mem|
    requires forall i :: 0 <= i < n ==> k < Times(i, pitch) || Times(i, pitch) + row <= k
    ensures CopyRows(mem, picture, row, pitch, n)[k] == mem[k]
  {
    if n > 0 {
      BoundsShrink(row, pitch, n, |mem|);
      BetweenRowsKept(mem, picture, row, pitch, n - 1, k);
      assert k < Times(n - 1, pitch) || Times(n - 1, pitch) + row <= k;
    }
  }

  /** Every row of the surface is a row of the picture, for every picture and whatever was in the memory. */
  ghost predicate RowsKept(row: nat, pitch: nat, n: nat) {
    forall mem: seq<byte>, picture: seq<byte>, i: nat ::
      RowsInBounds(row, pitch, n, |mem|) && Times(n, row) <= |picture| && i < n ==>
        && Times(i, pitch) + row <= |mem| && Times(i, row) + row <= |picture|
        && SurfaceRow(CopyRows(mem, picture, row, pitch, n), row, pitch, i) == PackedRow(picture, row, i)
  }

  lemma FirstRowDiffers(mem: seq<byte>, picture: seq<byte>, row: nat, pitch: nat, n: nat)
    requires pitch < row && n >= 2 && RowsInBounds(row, pitch, n, |mem|) && Times(n, row) <= |picture|
    requires forall k :: 0 <= k < Times(n, row) ==> picture[k] == if k < row then 0 else 1
    ensures Times(0, pitch) + row <= |mem| && Times(0, row) + row <= |picture|
    ensures SurfaceRow(CopyRows(mem, picture, row, pitch, n), row, pitch, 0) != PackedRow(picture, row, 0)
  {
    OverlapByte(mem, picture, row, pitch, n);
    TimesMonotone(1, n, row);
    TimesMonotone(0, n - 1, pitch);
    assert Times(1, row) == row;
    hide CopyRows;
    var s := CopyRows(mem, picture, row, pitch, n);
    assert SurfaceRow(s, row, pitch, 0)[pitch] == s[pitch] == 1;
    assert PackedRow(picture, row, 0)[pitch] == picture[pitch] == 0;
  }

  lemma OverlapLosesRow(row: nat, pitch: nat, n: nat)
    requires pitch < row && n >= 2
    ensures !RowsKept(row, pitch, n)
  {
    hide CopyRows, SurfaceRow, PackedRow, Times;
    var mem: seq<byte> := seq(Times(n - 1, pitch) + row, _ => 0);
    var picture: seq<byte> := seq(Times(n, row), k => if k < row then 0 else 1);
    FirstRowDiffers(mem, picture, row, pitch, n);
  }

  /** With rows closer than their length, the byte `pitch` of the first row belongs to a later row. */
  lemma {:induction false} OverlapByte(mem: seq<byte>, picture: seq<byte>, row: nat, pitch: nat, n: nat)
    requires pitch < row && n >= 2 && RowsInBounds(row, pitch, n, |mem|) && Times(n, row) <= |picture|
    requires forall k :: row <= k < Times(n, row) ==> picture[k] == 1
    ensures pitch < |mem| && CopyRows(mem, picture, row, pitch, n)[pitch] == 1
  {
    BoundsShrink(row, pitch, n, |mem|);
    TimesMonotone(1, n - 1, pitch);
    TimesMonotone(1, n - 1, row);
    assert Times(1, pitch) == pitch && Times(1, row) == row;
    if n > 2 {
      OverlapByte(mem, picture, row, pitch, n - 1);
    }
  }

  /** Copy keeps all rows exactly when the pitch is at least a row's length (or there is at most one row). */
  lemma RowsKeptIffPitchCoversRow(row: nat, pitch: nat, n: nat)
    ensures RowsKept(row, pitch, n) <==> row <= pitch || n <= 1
  {
    if row <= pitch || n <= 1 {
      forall mem: seq<byte>, picture: seq<byte>, i: nat
        | RowsInBounds(row, pitch, n, |mem|) && Times(n, row) <= |picture| && i < n
        ensures && Times(i, pitch) + row <= |mem| && Times(i, row) + row <= |picture|
                && SurfaceRow(CopyRows(mem, picture, row, pitch, n), row, pitch, i) == PackedRow(picture, row, i)
      {
        if row <= pitch { CopiedRow(mem, picture, row, pitch, n, i); }
      }
    } else {
      OverlapLosesRow(row, pitch, n);
    }
  }

  /** Every byte that Copy writes is inside the buffer object. */
  ghost predicate WritesInside(s: Surface) {
    forall i, k :: 0 <= i < s.height && 0 <= k < RowBytes(s) ==> At(s, i, k) < s.totalSize
  }

  function At(s: Surface, i: nat, k: nat): nat {
    Times(i, s.pitch) + k
  }

  /** Copy stays inside exactly when the product, as it wraps, reaches the end of the last row, if rows have bytes. */
  lemma WritesInsideIffProductReaches(s: Surface)
    requires Adjusted(s)
    ensures WritesInside(s) <==>
            || RowBytes(s) == 0
            || Times(s.height - 1, s.pitch) + RowBytes(s) <= Wrapped(Times(s.height, s.pitch) * PIXEL_SIZE)
  {
    hide Times, Wrapped, RowBytes;
    if RowBytes(s) == 0 {
    } else if Times(s.height - 1, s.pitch) + RowBytes(s) <= s.totalSize {
      forall i, k | 0 <= i < s.height && 0 <= k < RowBytes(s)
        ensures At(s, i, k) < s.totalSize
      {
        TimesMonotone(i, s.height - 1, s.pitch);
      }
    } else {
      assert At(s, s.height - 1, RowBytes(s) - 1) >= s.totalSize;
    }
  }

  /** So it does for a pitch that covers the row, if the product is below 2^32. */
  lemma WritesInsideTotalSize(s: Surface)
    requires Adjusted(s) && RowBytes(s) <= s.pitch && Times(s.height, s.pitch) * PIXEL_SIZE < 0x1_0000_0000
    ensures WritesInside(s) && RowsInBounds(RowBytes(s), s.pitch, s.height, s.totalSize)
  {
    WritesInsideIffProductReaches(s);
    hide WritesInside;
  }

  /** And not when the product wraps to less than the rows before the last take up. */
  lemma WrappedProductEscapes(s: Surface)
    requires Adjusted(s) && RowBytes(s) > 0
    requires Wrapped(Times(s.height, s.pitch) * PIXEL_SIZE) < Times(s.height - 1, s.pitch) + RowBytes(s)
    ensures !WritesInside(s)
  {
    WritesInsideIffProductReaches(s);
    hide WritesInside;
  }

  /** A surface of 1024 by 262145 pixels, which is asked for with 16384 bytes: room for four rows. */
  const TALL := Surface(1024, 0x4_0001, 4096, 1, PIXEL_SIZE, 16384)

  lemma TallEscapes()
    ensures AdjustSurfaceParams(TALL) == (None, TALL) && PictureFits(TALL) && RowBytes(TALL) <= TALL.pitch
    ensures !WritesInside(TALL)
  {
    TimesIsProduct(0x4_0001, 4096);
    TimesIsProduct(0x4_0000, 4096);
    hide Times;
    WrappedProductEscapes(TALL);
  }

  /** `mapped` and `unmapped` tell whether MmapBo and UnmapBo succeed. */
  method Copy(mem: array<byte>, picture: array<byte>, s: Surface, mapped: bool, unmapped: bool) returns (status: Status)
    requires mem != picture && Adjusted(s) && mem.Length == s.totalSize
    requires RowsInBounds(RowBytes(s), s.pitch, s.height, s.totalSize)
    requires Times(s.height, RowBytes(s)) <= picture.Length
    modifies mem
    ensures status == if mapped && unmapped then None else Gfx
    ensures mem[..] == if mapped then CopyRows(old(mem[..]), picture[..], RowBytes(s), s.pitch, s.height)
                       else old(mem[..])
  {
    hide CopyRows, Times, RowBytes, Wrapped, Adjusted, PackedRow;
    if !mapped {
      return Gfx;
    }
    var dst, src := 0, 0;
    ghost var was, row, pixels := mem[..], RowBytes(s), picture[..];
    CopyStarts(was, pixels, row, s.pitch);
    var i := 0;
    while i < s.height
      invariant i <= s.height && dst == Times(i, s.pitch) && src == Times(i, row)
      invariant RowsInBounds(row, s.pitch, i, |was|) && Times(i, row) <= |pixels|
      invariant mem[..] == CopyRows(was, pixels, row, s.pitch, i)
    {
      CopyNext(was, pixels, row, s.pitch, s.height, i);
      Memcpy(mem, dst, picture, src, RowBytes(s));
      dst := dst + s.pitch;
      src := src + RowBytes(s);
      i := i + 1;
    }
    return if unmapped then None else Gfx;
  }

  lemma CopyStarts(mem: seq<byte>, picture: seq<byte>, row: nat, pitch: nat)
    ensures Times(0, pitch) == 0 && Times(0, row) == 0
    ensures CopyRows(mem, picture, row, pitch, 0) == mem
  {
  }

  lemma CopyNext(mem: seq<byte>, picture: seq<byte>, row: nat, pitch: nat, n: nat, i: nat)
    requires i < n && RowsInBounds(row, pitch, n, |mem|) && Times(n, row) <= |picture|
    ensures Times(i + 1, pitch) == Times(i, pitch) + pitch && Times(i + 1, row) == Times(i, row) + row <= |picture|
    ensures RowsInBounds(row, pitch, i, |mem|) && RowsInBounds(row, pitch, i + 1, |mem|)
    ensures CopyRows(mem, picture, row, pitch, i + 1)
         == CopyRows(mem, picture, row, pitch, i)[..Times(i, pitch)]
            + picture[Times(i, row)..Times(i, row) + row]
            + CopyRows(mem, picture, row, pitch, i)[Times(i, pitch) + row..]
  {
    TimesMonotone(i + 1, n, row);
    TimesMonotone(i, n - 1, pitch);
    BoundsShrink(row, pitch, i + 1, |mem|);
  }

  method Memcpy(dst: array<byte>, to: nat, src: array<byte>, from: nat, n: nat)
    requires dst != src && to + n <= dst.Length && from + n <= src.Length
    modifies dst
    ensures dst[..] == old(dst[..])[..to] + src[from..from + n] + old(dst[..])[to + n..]
  {
    forall k | 0 <= k < n {
      dst[to + k] := src[from + k];
    }
  }

  // ----- GetOneFrame -----

  /** std::ifstream in binary mode: a short read sets eofbit and failbit together. */
  class InputStream {
    const content: seq<byte>
    var pos: nat
    var failed: bool

    ghost predicate Valid()
      reads this
    {
      pos <= |content|
    }

    constructor (content: seq<byte>)
      ensures this.content == content && Valid() && pos == 0 && !failed
    {
      this.content := content;
      pos, failed := 0, false;
    }

    /** read(): nothing from a failed stream, else as much as there is. */
    method Read(data: array<byte>, at: nat, n: nat)
      requires Valid() && at + n <= data.Length
      modifies this, data
      ensures Valid()
      ensures forall k :: 0 <= k < at || at + n <= k < data.Length ==> data[k] == old(data[k])
      ensures !old(failed) && old(pos) + n <= |content| ==>
                !failed && pos == old(pos) + n && data[at..at + n] == content[old(pos)..old(pos) + n]
      ensures old(failed) ==> failed && pos == old(pos) && data[..] == old(data[..])
      ensures !old(failed) && old(pos) + n > |content| ==>
                && failed && pos == |content|
                && data[at..at + (pos - old(pos))] == content[old(pos)..]
                && data[at + (pos - old(pos))..] == old(data[..])[at + (pos - old(pos))..]
    {
      if failed {
        return;
      }
      var m := if n <= |content| - pos then n else |content| - pos;
      forall k | 0 <= k < m {
        data[at + k] := content[pos + k];
      }
      pos := pos + m;
      failed := m < n;
    }
  }

  /** The emulator's src-res option: 0x0 means content frames match each surface. */
  datatype Source = Source(width: nat, height: nat)
  {
    predicate IsDirectRead() {
      width == 0 && height == 0
    }

    /** Bytes of content one displayed frame uses up. */
    function FrameBytes(s: Surface): nat {
      if IsDirectRead() then Times(s.height, RowBytes(s)) else Times(height, width * PIXEL_SIZE)
    }

    /** The content frame is at least as large as the surface. */
    predicate Covers(s: Surface) {
      IsDirectRead() || (s.width <= width && s.height <= height)
    }

    /** The picture cut out of a content frame. */
    function Picture(frame: seq<byte>, s: Surface): (r: seq<byte>)
      requires Covers(s) && |frame| == FrameBytes(s)
      ensures |r| == Times(s.height, RowBytes(s))
    {
      if IsDirectRead() then frame
      else
        TimesMonotone(s.height, height, width * PIXEL_SIZE);
        Crop(frame, width * PIXEL_SIZE, RowBytes(s), s.height)
    }
  }

  /** A fresh buffer of the picture's size, filled by GetOneFrame from the stream's next frame. */
  method GetOneFrame(stream: InputStream, source: Source, s: Surface, pFrame: array<byte>) returns (status: Status)
    requires stream.Valid() && Adjusted(s) && PictureFits(s) && pFrame.Length == Times(s.height, RowBytes(s))
    modifies stream, pFrame
    ensures stream.Valid()
    ensures status == if source.Covers(s) then None else StreamParams
    ensures var pos := if old(stream.failed) then 0 else old(stream.pos);
            source.Covers(s) && pos + source.FrameBytes(s) <= |stream.content| ==>
              && !stream.failed && stream.pos == pos + source.FrameBytes(s)
              && pFrame[..] == source.Picture(stream.content[pos..pos + source.FrameBytes(s)], s)
  {
    if stream.failed {
      stream.failed := false;
      stream.pos := 0;
    }
    if source.IsDirectRead() {
      stream.Read(pFrame, 0, pFrame.Length);
      assert pFrame[0..pFrame.Length] == pFrame[..];
      return None;
    }
    if source.width < s.width || source.height < s.height {
      return StreamParams;
    }
    ReadRows(stream, source, s, pFrame);
    return None;
  }

  /** One row of content into the scratch row, its front into the picture. */
  method ReadRow(stream: InputStream, src: array<byte>, pFrame: array<byte>, dst: nat, srcStride: nat, dstStride: nat)
    requires stream.Valid() && src != pFrame && src.Length == srcStride && dstStride <= srcStride
    requires dst + dstStride <= pFrame.Length
    modifies stream, src, pFrame
    ensures stream.Valid()
    ensures var pos := old(stream.pos);
            !old(stream.failed) && pos + srcStride <= |stream.content| ==>
              && !stream.failed && stream.pos == pos + srcStride
              && pFrame[..dst + dstStride] == old(pFrame[..dst]) + stream.content[pos..pos + srcStride][..dstStride]
  {
    stream.Read(src, 0, srcStride);
    assert src[0..dstStride] == src[0..srcStride][..dstStride];
    ghost var before := pFrame[..];
    Memcpy(pFrame, dst, src, 0, dstStride);
    assert pFrame[..dst + dstStride] == before[..dst] + src[0..dstStride];
  }

  /** The row loops of GetOneFrame: the crop's rows, then the rest of the frame. */
  method ReadRows(stream: InputStream, source: Source, s: Surface, pFrame: array<byte>)
    requires stream.Valid() && !stream.failed && !source.IsDirectRead() && source.Covers(s)
    requires pFrame.Length == Times(s.height, RowBytes(s))
    modifies stream, pFrame
    ensures stream.Valid()
    ensures var pos := old(stream.pos);
            pos + source.FrameBytes(s) <= |stream.content| ==>
              && !stream.failed && stream.pos == pos + source.FrameBytes(s)
              && pFrame[..] == source.Picture(stream.content[pos..pos + source.FrameBytes(s)], s)
  {
    RowAtMost(s);
    hide Times, Crop, RowBytes;
    var srcStride, dstStride := source.width * PIXEL_SIZE, RowBytes(s);
    var src := new byte[srcStride](_ => 0);
    var dst := 0;
    ghost var start := stream.pos;
    ghost var enough := start + source.FrameBytes(s) <= |stream.content|;
    ghost var frame := if enough then stream.content[start..start + source.FrameBytes(s)] else [];
    CropStarts(frame, srcStride, dstStride);
    var row := 0;
    while row < s.height
      invariant row <= s.height && stream.Valid() && dst == Times(row, dstStride) <= pFrame.Length
      invariant enough ==> !stream.failed && stream.pos == start + Times(row, srcStride)
      invariant enough ==> Times(row, srcStride) <= |frame|
      invariant enough ==> pFrame[..dst] == Crop(frame, srcStride, dstStride, row)
    {
      NextRow(source.height, srcStride, row);
      NextRow(s.height, dstStride, row);
      ghost var at := Times(row, srcStride);
      if enough {
        SliceOfSlice(stream.content, start, source.FrameBytes(s), at, srcStride);
      }
      ReadRow(stream, src, pFrame, dst, srcStride, dstStride);
      if enough {
        CropNext(frame, srcStride, dstStride, row);
      }
      dst := dst + dstStride;
      row := row + 1;
    }
    assert pFrame[..dst] == pFrame[..];
    SkipRows(stream, source, s, src, row, frame, start, enough);
  }

  lemma CropStarts(frame: seq<byte>, stride: nat, row: nat)
    requires row <= stride
    ensures Times(0, stride) == 0 && Times(0, row) == 0 && Crop(frame, stride, row, 0) == []
  {
  }

  lemma NextRow(n: nat, stride: nat, i: nat)
    requires i < n
    ensures Times(i + 1, stride) == Times(i, stride) + stride <= Times(n, stride)
  {
    TimesMonotone(i + 1, n, stride);
  }

  lemma CropNext(frame: seq<byte>, stride: nat, row: nat, i: nat)
    requires row <= stride && Times(i + 1, stride) <= |frame|
    ensures Times(i, stride) + stride <= |frame|
    ensures Crop(frame, stride, row, i + 1) == Crop(frame, stride, row, i)
              + frame[Times(i, stride)..Times(i, stride) + stride][..row]
  {
  }

  /** Reads the rows below the crop, to stand at the next frame. */
  method SkipRows(stream: InputStream, source: Source, s: Surface, src: array<byte>, from: nat,
                  ghost frame: seq<byte>, ghost start: nat, ghost enough: bool)
    requires stream.Valid() && from <= source.height && src.Length == source.width * PIXEL_SIZE
    requires enough ==> !stream.failed && stream.pos == start + Times(from, src.Length)
    requires enough ==> start + Times(source.height, src.Length) <= |stream.content|
    modifies stream, src
    ensures stream.Valid()
    ensures enough ==> !stream.failed && stream.pos == start + Times(source.height, src.Length)
  {
    hide Times;
    var row := from;
    while row < source.height
      invariant from <= row <= source.height && stream.Valid()
      invariant enough ==> !stream.failed && stream.pos == start + Times(row, src.Length)
    {
      NextRow(source.height, src.Length, row);
      stream.Read(src, 0, src.Length);
      row := row + 1;
    }
  }

  // ----- a run of displayed frames -----

  class BufferObject {
    const surf: Surface
    const mem: array<byte>

    constructor (surf: Surface)
      requires Adjusted(surf)
      ensures this.surf == surf && fresh(mem) && mem.Length == surf.totalSize
    {
      this.surf := surf;
      mem := new byte[surf.totalSize](_ => 0);
    }
  }

  /** A buffer object that a frame of this source can be shown on. */
  ghost predicate Showable(source: Source, bo: BufferObject) {
    && Adjusted(bo.surf) && PictureFits(bo.surf) && bo.mem.Length == bo.surf.totalSize
    && source.Covers(bo.surf) && RowBytes(bo.surf) <= bo.surf.pitch && WritesInside(bo.surf)
  }

  /** The surface shows the picture row by row. */
  ghost predicate Shows(mem: seq<byte>, s: Surface, picture: seq<byte>)
    requires Adjusted(s) && RowBytes(s) <= s.pitch && |mem| == s.totalSize && |picture| == Times(s.height, RowBytes(s))
  {
    forall i :: 0 <= i < s.height ==>
      && Times(i, s.pitch) + RowBytes(s) <= |mem| && Times(i, RowBytes(s)) + RowBytes(s) <= |picture|
      && SurfaceRow(mem, RowBytes(s), s.pitch, i) == PackedRow(picture, RowBytes(s), i)
  }

  lemma CopyShows(mem: seq<byte>, picture: seq<byte>, s: Surface)
    requires Adjusted(s) && RowBytes(s) <= s.pitch && |mem| == s.totalSize && |picture| == Times(s.height, RowBytes(s))
    requires RowsInBounds(RowBytes(s), s.pitch, s.height, s.totalSize)
    ensures Shows(CopyRows(mem, picture, RowBytes(s), s.pitch, s.height), s, picture)
  {
    forall i | 0 <= i < s.height
      ensures && Times(i, s.pitch) + RowBytes(s) <= |mem| && Times(i, RowBytes(s)) + RowBytes(s) <= |picture|
              && SurfaceRow(CopyRows(mem, picture, RowBytes(s), s.pitch, s.height), RowBytes(s), s.pitch, i)
              == PackedRow(picture, RowBytes(s), i)
    {
      CopiedRow(mem, picture, RowBytes(s), s.pitch, s.height, i);
    }
  }

  /** One display request: the next content frame goes to the buffer object's surface. */
  method DisplayFrame(stream: InputStream, source: Source, bo: BufferObject)
    requires stream.Valid() && !stream.failed && Showable(source, bo)
    requires stream.pos + source.FrameBytes(bo.surf) <= |stream.content|
    modifies stream, bo.mem
    ensures stream.Valid() && !stream.failed
    ensures stream.pos == old(stream.pos) + source.FrameBytes(bo.surf)
    ensures Shows(bo.mem[..], bo.surf, source.Picture(stream.content[old(stream.pos)..stream.pos], bo.surf))
  {
    hide CopyRows, Times;
    var pFrame := new byte[Times(bo.surf.height, RowBytes(bo.surf))](_ => 0);
    var _ := GetOneFrame(stream, source, bo.surf, pFrame);
    WritesInsideIffProductReaches(bo.surf);
    RowIsWhole(bo.surf);
    CopyShows(bo.mem[..], pFrame[..], bo.surf);
    var _ := Copy(bo.mem, pFrame, bo.surf, true, true);
  }

  /**
   A run of display requests with content frames of the source's size, surfaces of any sizes no larger, any
   buffer object any number of times: the k-th display shows the crop of the k-th content frame, and the
   stream stands at frame k + 1 after it.
   */
  method DisplayRun(stream: InputStream, source: Source, bos: seq<BufferObject>) returns (ghost shown: seq<seq<byte>>)
    requires stream.Valid() && !stream.failed && stream.pos == 0
    requires source.width > 0 && source.height > 0
    requires forall i :: 0 <= i < |bos| ==> Showable(source, bos[i])
    requires Times(|bos|, Times(source.height, source.width * PIXEL_SIZE)) <= |stream.content|
    modifies stream, set bo | bo in bos :: bo.mem
    ensures var size := Times(source.height, source.width * PIXEL_SIZE);
            && !stream.failed && stream.pos == Times(|bos|, size)
            && |shown| == |bos|
            && forall k :: 0 <= k < |bos| ==>
                 && Showable(source, bos[k]) && |shown[k]| == bos[k].surf.totalSize
                 && Times(k, size) + size <= |stream.content|
                 && Shows(shown[k], bos[k].surf, source.Picture(stream.content[Times(k, size)..Times(k, size) + size],
                                                          bos[k].surf))
  {
    hide Times, Shows, RowBytes, Wrapped, WritesInside, Adjusted, PictureFits;
    shown := [];
    ghost var size := Times(source.height, source.width * PIXEL_SIZE);
    CropStarts([], size, 0);
    var k := 0;
    while k < |bos|
      invariant k <= |bos| && |shown| == k
      invariant stream.Valid() && !stream.failed && stream.pos == Times(k, size)
      invariant forall i :: 0 <= i < k ==>
                 && Showable(source, bos[i]) && |shown[i]| == bos[i].surf.totalSize
                 && Times(i, size) + size <= |stream.content|
                 && Shows(shown[i], bos[i].surf, source.Picture(stream.content[Times(i, size)..Times(i, size) + size],
                                                          bos[i].surf))
    {
      NextRow(|bos|, size, k);
      DisplayFrame(stream, source, bos[k]);
      shown := shown + [bos[k].mem[..]];
      k := k + 1;
    }
  }
}
