/**
 yuyv422_to_yuv420sp: packed YUYV (Y0 V Y1 U for every two pixels) to a luma plane and two quarter-size
 chroma planes.  The loops move one source cursor and three destination cursors over the same buffer; the
 luma cursor moves in steps of four bytes, on every second pixel pair of a row.
 */
module PixelConversion {
  import opened Bytes
  import opened Stores
  import opened Strides

  // ----- what the loops compute -----

  /** The luma bytes of `n` pixel pairs from pair `s` on. */
  function RowLuma(src: seq<byte>, s: nat, n: nat): (r: seq<byte>)
    requires 4 * (s + n) <= |src|
    ensures |r| == 2 * n
    ensures forall k :: 0 <= k < 2 * n ==> r[k] == src[4 * s + 2 * k]
  {
    seq(2 * n, k requires 0 <= k < 2 * n => src[4 * s + 2 * k])
  }

  /** The chroma bytes at offset `which` (V is 1, U is 3) of `n` pixel pairs from pair `s` on. */
  function RowChroma(src: seq<byte>, s: nat, n: nat, which: nat): (r: seq<byte>)
    requires 4 * (s + n) <= |src| && which < 4
    ensures |r| == n
    ensures forall k :: 0 <= k < n ==> r[k] == src[4 * (s + k) + which]
  {
    seq(n, k requires 0 <= k < n => src[4 * (s + k) + which])
  }

  /** Whole groups of two pairs: what the luma cursor leaves behind in a row of `m` pairs. */
  function Whole(m: nat): nat {
    2 * (m / 2)
  }

  /** The cursors before row `r`: pixel pair, luma position and chroma offset. */
  function PairAt(m: nat, r: nat): nat {
    Times(r, m)
  }

  function LumaAt(m: nat, r: nat): nat {
    Times(r, 2 * Whole(m))
  }

  function ChromaAt(m: nat, r: nat): nat {
    Times((r + 1) / 2, m)
  }

  lemma NextRow(m: nat, r: nat)
    ensures PairAt(m, r + 1) == PairAt(m, r) + m
    ensures LumaAt(m, r + 1) == LumaAt(m, r) + 2 * Whole(m)
    ensures ChromaAt(m, r + 1) == ChromaAt(m, r) + (if r % 2 == 0 then m else 0)
  {
    if r % 2 == 0 {
      assert (r + 1 + 1) / 2 == (r + 1) / 2 + 1;
    } else {
      assert (r + 1 + 1) / 2 == (r + 1) / 2;
    }
  }

  /** The luma bytes behind the cursor after `r` rows of `m` pairs. */
  function Luma(src: seq<byte>, m: nat, r: nat): (l: seq<byte>)
    requires 4 * PairAt(m, r) <= |src|
    ensures |l| == LumaAt(m, r)
  {
    if r == 0 then []
    else
      NextRow(m, r - 1);
      Luma(src, m, r - 1) + RowLuma(src, PairAt(m, r - 1), Whole(m))
  }

  /** In a row with an odd number of pairs the last pair is written ahead of the cursor. */
  function Dangling(src: seq<byte>, m: nat, r: nat): (l: seq<byte>)
    requires 4 * PairAt(m, r) <= |src|
    ensures |l| == if r == 0 || m % 2 == 0 then 0 else 2
  {
    if r == 0 || m % 2 == 0 then []
    else
      NextRow(m, r - 1);
      RowLuma(src, PairAt(m, r) - 1, 1)
  }

  /** The chroma bytes of the even-indexed rows among the first `r`. */
  function Chroma(src: seq<byte>, m: nat, r: nat, which: nat): (l: seq<byte>)
    requires 4 * PairAt(m, r) <= |src| && which < 4
    ensures |l| == ChromaAt(m, r)
  {
    if r == 0 then []
    else
      NextRow(m, r - 1);
      if (r - 1) % 2 == 0 then
        Chroma(src, m, r - 1, which) + RowChroma(src, PairAt(m, r - 1), m, which)
      else
        Chroma(src, m, r - 1, which)
  }

  /** Pixels in the picture. */
  function Area(width: nat, height: nat): nat {
    width * height
  }

  predicate Sized(src: seq<byte>, dst: seq<byte>, width: nat, height: nat) {
    && width % 2 == 0 && height % 2 == 0
    && 2 * (Area(width, height)) <= |src|
    && 3 * (Area(width, height)) <= 2 * |dst|
  }

  lemma {:induction false} LumaAgainstPairs(m: nat, r: nat)
    ensures LumaAt(m, r) == 2 * PairAt(m, r) - (if m % 2 == 0 then 0 else 2 * r)
  {
    if r > 0 {
      LumaAgainstPairs(m, r - 1);
    }
  }

  lemma {:induction false} ChromaAgainstPairs(m: nat, n: nat)
    ensures 2 * ChromaAt(m, 2 * n) == PairAt(m, 2 * n)
  {
    if n > 0 {
      ChromaAgainstPairs(m, n - 1);
      NextRow(m, 2 * n - 2);
      NextRow(m, 2 * n - 1);
    }
  }

  lemma HalfWidth(width: nat, m: nat, height: nat)
    requires width == 2 * m
    ensures 2 * PairAt(m, height) == Area(width, height)
    ensures height > 0 ==> Area(width, height) >= width
  {
    TimesIsProduct(height, m);
    hide Times;
  }

  lemma PlaneSizes(width: nat, height: nat)
    requires width % 2 == 0 && height % 2 == 0
    ensures var m, size := width / 2, Area(width, height);
            && size % 4 == 0
            && 2 * PairAt(m, height) == size
            && 4 * ChromaAt(m, height) == size
            && (height > 0 ==> size >= width)
            && LumaAt(m, height) == (if m % 2 == 0 then size else size - 2 * height)
  {
    hide PairAt, LumaAt, ChromaAt, Area;
    var m := width / 2;
    HalfWidth(width, m, height);
    ChromaAgainstPairs(m, height / 2);
    LumaAgainstPairs(m, height);
  }

  /** The destination buffer after the conversion, for any even width and height. */
  function Converted(src: seq<byte>, dst: seq<byte>, width: nat, height: nat, flipuv: bool): (r: seq<byte>)
    requires Sized(src, dst, width, height)
    ensures |r| == |dst|
  {
    PlaneSizes(width, height);
    var m, size := width / 2, Area(width, height);
    var luma := LumaBytes(src, m, height);
    luma + dst[|luma|..size]
    + Chroma(src, m, height, if flipuv then 3 else 1)
    + Chroma(src, m, height, if flipuv then 1 else 3)
    + dst[size + size / 2..]
  }

  // ----- the writes, one pixel pair at a time -----

  /** The buffer after one pair: its luma bytes go to `at`, its chroma bytes to `p2` and `p3` in odd-numbered rows. */
  function PutPair(dst: seq<byte>, src: seq<byte>, s: nat, at: nat, p2: nat, p3: nat, chroma: bool,
      flipuv: bool): (r: seq<byte>)
    requires 4 * s + 4 <= |src| && at + 2 <= |dst| && (chroma ==> p2 < |dst| && p3 < |dst|)
    ensures |r| == |dst|
  {
    var y := dst[at := src[4 * s]][at + 1 := src[4 * s + 2]];
    if !chroma then y
    else if flipuv then y[p2 := src[4 * s + 3]][p3 := src[4 * s + 1]]
    else y[p2 := src[4 * s + 1]][p3 := src[4 * s + 3]]
  }

  /** Where a row of `m` pairs goes: room for it, and no overlap. */
  predicate RowFits(dst: seq<byte>, src: seq<byte>, s: nat, at: nat, p2: nat, p3: nat, chroma: bool, m: nat) {
    var c := if chroma then m else 0;
    4 * (s + m) <= |src| && at + 2 * m <= p2 && p2 + c <= p3 && p3 + c <= |dst|
  }

  /** The buffer after the first `n` pairs of a row. */
  function PutRow(dst: seq<byte>, src: seq<byte>, s: nat, at: nat, p2: nat, p3: nat, chroma: bool, flipuv: bool,
      n: nat): (r: seq<byte>)
    requires RowFits(dst, src, s, at, p2, p3, chroma, n)
    ensures |r| == |dst|
  {
    if n == 0 then dst
    else
      var d := PutRow(dst, src, s, at, p2, p3, chroma, flipuv, n - 1);
      PutPair(d, src, s + n - 1, at + 2 * (n - 1), p2 + n - 1, p3 + n - 1, chroma, flipuv)
  }

  lemma PutPairAt(d: seq<byte>, src: seq<byte>, s: nat, at: nat, p2: nat, p3: nat, chroma: bool, flipuv: bool, k: nat)
    requires 4 * s + 4 <= |src| && at + 2 <= |d| && k < |d|
    requires chroma ==> at + 2 <= p2 < p3 < |d|
    ensures PutPair(d, src, s, at, p2, p3, chroma, flipuv)[k] ==
            if k == at then src[4 * s]
            else if k == at + 1 then src[4 * s + 2]
            else if chroma && k == p2 then src[4 * s + (if flipuv then 3 else 1)]
            else if chroma && k == p3 then src[4 * s + (if flipuv then 1 else 3)]
            else d[k]
  {
  }

  /** One byte of the buffer after part of a row. */
  lemma {:induction false} PutRowAt(dst: seq<byte>, src: seq<byte>, s: nat, at: nat, p2: nat, p3: nat, chroma: bool,
      flipuv: bool, n: nat, k: nat)
    requires RowFits(dst, src, s, at, p2, p3, chroma, n) && k < |dst|
    ensures PutRow(dst, src, s, at, p2, p3, chroma, flipuv, n)[k] ==
            if at <= k < at + 2 * n then src[4 * s + 2 * (k - at)]
            else if chroma && p2 <= k < p2 + n then src[4 * (s + (k - p2)) + (if flipuv then 3 else 1)]
            else if chroma && p3 <= k < p3 + n then src[4 * (s + (k - p3)) + (if flipuv then 1 else 3)]
            else dst[k]
  {
    hide PutPair;
    if n > 0 {
      PutRowAt(dst, src, s, at, p2, p3, chroma, flipuv, n - 1, k);
      PutPairAt(PutRow(dst, src, s, at, p2, p3, chroma, flipuv, n - 1), src,
                s + n - 1, at + 2 * (n - 1), p2 + n - 1, p3 + n - 1, chroma, flipuv, k);
    }
  }

  /** Every row finds room: the cursors stay inside their planes. */
  lemma RowsInside(width: nat, height: nat, r: nat)
    requires width % 2 == 0 && height % 2 == 0 && r < height
    ensures var m, size := width / 2, Area(width, height);
            && size % 4 == 0
            && 2 * (PairAt(m, r) + m) <= size
            && LumaAt(m, r) + 2 * m <= size
            && ChromaAt(m, r) + (if r % 2 == 0 then m else 0) <= size / 4
  {
    var m := width / 2;
    PlaneSizes(width, height);
    NextRow(m, r);
    TimesMonotone(r + 1, height, m);
    TimesMonotone((r + 2) / 2, (height + 1) / 2, m);
    LumaAgainstPairs(m, r);
  }

  lemma RowFitsAt(d: seq<byte>, src: seq<byte>, width: nat, height: nat, r: nat)
    requires Sized(src, d, width, height) && r < height
    ensures var m, size := width / 2, Area(width, height);
            RowFits(d, src, PairAt(m, r), LumaAt(m, r), size + ChromaAt(m, r), size + ChromaAt(m, r) + size / 4,
                    r % 2 == 0, m)
  {
    hide PairAt, LumaAt, ChromaAt, Area;
    RowsInside(width, height, r);
  }

  /** The buffer after row `r`, counted from 0. */
  function PutRowNumber(d: seq<byte>, src: seq<byte>, width: nat, height: nat, flipuv: bool, r: nat): (d': seq<byte>)
    requires Sized(src, d, width, height) && r < height
    ensures |d'| == |d|
  {
    var m, size := width / 2, Area(width, height);
    RowFitsAt(d, src, width, height, r);
    PutRow(d, src, PairAt(m, r), LumaAt(m, r), size + ChromaAt(m, r), size + ChromaAt(m, r) + size / 4, r % 2 == 0,
        flipuv, m)
  }

  /** The buffer after the first `r` rows. */
  function PutRows(dst: seq<byte>, src: seq<byte>, width: nat, height: nat, flipuv: bool, r: nat): (d: seq<byte>)
    requires Sized(src, dst, width, height) && r <= height
    ensures |d| == |dst|
  {
    if r == 0 then dst
    else PutRowNumber(PutRows(dst, src, width, height, flipuv, r - 1), src, width, height, flipuv, r - 1)
  }

  /** One byte of the buffer after `r` rows, read off the planes. */
  function PlaneByte(dst: seq<byte>, src: seq<byte>, width: nat, height: nat, flipuv: bool, r: nat, k: nat): byte
    requires Sized(src, dst, width, height) && r <= height && k < |dst|
    requires 4 * PairAt(width / 2, r) <= |src|
  {
    var m, size := width / 2, Area(width, height);
    var luma := LumaBytes(src, m, r);
    var u := Chroma(src, m, r, if flipuv then 3 else 1);
    var v := Chroma(src, m, r, if flipuv then 1 else 3);
    if k < |luma| then luma[k]
    else if size <= k < size + |u| then u[k - size]
    else if size + size / 4 <= k < size + size / 4 + |v| then v[k - (size + size / 4)]
    else dst[k]
  }

  /** The luma bytes behind and ahead of the cursor. */
  function LumaBytes(src: seq<byte>, m: nat, r: nat): (l: seq<byte>)
    requires 4 * PairAt(m, r) <= |src|
    ensures |l| == LumaAt(m, r) + if r == 0 || m % 2 == 0 then 0 else 2
  {
    Luma(src, m, r) + Dangling(src, m, r)
  }

  lemma LumaPart(src: seq<byte>, m: nat, r: nat, k: nat)
    requires 4 * PairAt(m, r + 1) <= |src|
    ensures 4 * (PairAt(m, r) + m) <= |src|
    ensures var l, l', at := LumaBytes(src, m, r), LumaBytes(src, m, r + 1), LumaAt(m, r);
            && at <= |l| <= |l'| == at + 2 * m
            && (k < at ==> l'[k] == l[k])
            && (at <= k < at + 2 * m ==> l'[k] == src[4 * PairAt(m, r) + 2 * (k - at)])
  {
    hide PairAt, LumaAt;
    NextRow(m, r);
    if LumaAt(m, r + 1) <= k < LumaAt(m, r) + 2 * m {
      DanglingAt(src, m, r, k - LumaAt(m, r + 1));
    }
  }

  lemma DanglingAt(src: seq<byte>, m: nat, r: nat, k: nat)
    requires 4 * PairAt(m, r + 1) <= |src| && m % 2 == 1 && k < 2
    ensures 4 * (PairAt(m, r) + m) <= |src|
    ensures |Dangling(src, m, r + 1)| == 2
    ensures Dangling(src, m, r + 1)[k] == src[4 * PairAt(m, r) + 2 * (2 * Whole(m) + k)]
  {
    hide PairAt;
    NextRow(m, r);
    assert Whole(m) == m - 1;
  }

  lemma ChromaPart(src: seq<byte>, m: nat, r: nat, which: nat)
    requires 4 * PairAt(m, r + 1) <= |src| && which < 4
    ensures 4 * (PairAt(m, r) + m) <= |src|
    ensures var c, c', at := Chroma(src, m, r, which), Chroma(src, m, r + 1, which), ChromaAt(m, r);
            && |c| == at && |c'| == at + (if r % 2 == 0 then m else 0)
            && (forall k :: 0 <= k < at ==> c'[k] == c[k])
            && (forall k :: at <= k < |c'| ==> c'[k] == src[4 * (PairAt(m, r) + (k - at)) + which])
  {
    hide PairAt, ChromaAt;
    NextRow(m, r);
  }

  lemma PlaneByteStep(dst: seq<byte>, src: seq<byte>, width: nat, height: nat, flipuv: bool, r: nat, k: nat)
    requires Sized(src, dst, width, height) && r < height && k < |dst|
    requires 4 * PairAt(width / 2, r + 1) <= |src|
    ensures var m, size := width / 2, Area(width, height);
            var at, p2 := LumaAt(m, r), size + ChromaAt(m, r);
            var p3 := p2 + size / 4;
            && 4 * PairAt(m, r) <= |src|
            && PlaneByte(dst, src, width, height, flipuv, r + 1, k) ==
               if at <= k < at + 2 * m then src[4 * PairAt(m, r) + 2 * (k - at)]
               else if r % 2 == 0 && p2 <= k < p2 + m then src[4 * (PairAt(m, r) + (k - p2))
                   + (if flipuv then 3 else 1)]
               else if r % 2 == 0 && p3 <= k < p3 + m then src[4 * (PairAt(m, r) + (k - p3))
                   + (if flipuv then 1 else 3)]
               else PlaneByte(dst, src, width, height, flipuv, r, k)
  {
    hide PairAt, LumaAt, ChromaAt, Area, LumaBytes, Chroma, Whole;
    RowsInside(width, height, r);
    NextRow(width / 2, r);
    LumaPart(src, width / 2, r, k);
    ChromaPart(src, width / 2, r, if flipuv then 3 else 1);
    ChromaPart(src, width / 2, r, if flipuv then 1 else 3);
  }

  lemma PutRowNumberAt(d: seq<byte>, src: seq<byte>, width: nat, height: nat, flipuv: bool, r: nat, k: nat)
    requires Sized(src, d, width, height) && r < height && k < |d|
    ensures var m, size := width / 2, Area(width, height);
            var at, p2 := LumaAt(m, r), size + ChromaAt(m, r);
            var p3 := p2 + size / 4;
            && 4 * (PairAt(m, r) + m) <= |src|
            && PutRowNumber(d, src, width, height, flipuv, r)[k] ==
               if at <= k < at + 2 * m then src[4 * PairAt(m, r) + 2 * (k - at)]
               else if r % 2 == 0 && p2 <= k < p2 + m then src[4 * (PairAt(m, r) + (k - p2))
                   + (if flipuv then 3 else 1)]
               else if r % 2 == 0 && p3 <= k < p3 + m then src[4 * (PairAt(m, r) + (k - p3))
                   + (if flipuv then 1 else 3)]
               else d[k]
  {
    hide PutRow, Times;
    var m, size := width / 2, Area(width, height);
    RowsInside(width, height, r);
    PutRowAt(d, src, PairAt(m, r), LumaAt(m, r), size + ChromaAt(m, r), size + ChromaAt(m, r) + size / 4, r % 2 == 0,
        flipuv, m, k);
  }

  lemma PlaneByteNone(dst: seq<byte>, src: seq<byte>, width: nat, height: nat, flipuv: bool, k: nat)
    requires Sized(src, dst, width, height) && k < |dst|
    ensures PlaneByte(dst, src, width, height, flipuv, 0, k) == dst[k]
  {
  }

  lemma {:induction false} PutRowsAt(dst: seq<byte>, src: seq<byte>, width: nat, height: nat, flipuv: bool, r: nat,
      k: nat)
    requires Sized(src, dst, width, height) && r <= height && k < |dst|
    requires 4 * PairAt(width / 2, r) <= |src|
    ensures PutRows(dst, src, width, height, flipuv, r)[k] == PlaneByte(dst, src, width, height, flipuv, r, k)
    decreases r
  {
    hide PlaneByte, PutRowNumber, PairAt, LumaAt, ChromaAt;
    if r == 0 {
      PlaneByteNone(dst, src, width, height, flipuv, k);
    } else {
      PlaneByteStep(dst, src, width, height, flipuv, r - 1, k);
      PutRowsAt(dst, src, width, height, flipuv, r - 1, k);
      PutRowNumberAt(PutRows(dst, src, width, height, flipuv, r - 1), src, width, height, flipuv, r - 1, k);
    }
  }

  /** All rows together are the three planes, each byte of them written, and nothing else. */
  lemma PutRowsAreConverted(dst: seq<byte>, src: seq<byte>, width: nat, height: nat, flipuv: bool)
    requires Sized(src, dst, width, height)
    ensures PutRows(dst, src, width, height, flipuv, height) == Converted(src, dst, width, height, flipuv)
  {
    PlaneSizes(width, height);
    forall k | 0 <= k < |dst|
      ensures PutRows(dst, src, width, height, flipuv, height)[k] == Converted(src, dst, width, height, flipuv)[k]
    {
      PutRowsAt(dst, src, width, height, flipuv, height, k);
      PlanesJoined(dst, src, width, height, flipuv, k);
    }
  }

  lemma PlanesJoined(dst: seq<byte>, src: seq<byte>, width: nat, height: nat, flipuv: bool, k: nat)
    requires Sized(src, dst, width, height) && k < |dst|
    requires 4 * PairAt(width / 2, height) <= |src|
    ensures PlaneByte(dst, src, width, height, flipuv, height, k) == Converted(src, dst, width, height, flipuv)[k]
  {
    hide Luma, Dangling, Chroma;
    PlaneSizes(width, height);
  }

  // ----- the stores, in the order the loops make them -----

  function PairStores(src: seq<byte>, s: nat, at: nat, p2: nat, p3: nat, chroma: bool, flipuv: bool): seq<Store>
    requires 4 * s + 4 <= |src|
  {
    [Store(at, src[4 * s]), Store(at + 1, src[4 * s + 2])]
    + (if !chroma then []
       else if flipuv then [Store(p2, src[4 * s + 3]), Store(p3, src[4 * s + 1])]
       else [Store(p2, src[4 * s + 1]), Store(p3, src[4 * s + 3])])
  }

  function RowStores(src: seq<byte>, s: nat, at: nat, p2: nat, p3: nat, chroma: bool, flipuv: bool,
      n: nat): seq<Store>
    requires 4 * (s + n) <= |src|
  {
    if n == 0 then []
    else
      RowStores(src, s, at, p2, p3, chroma, flipuv, n - 1)
      + PairStores(src, s + n - 1, at + 2 * (n - 1), p2 + n - 1, p3 + n - 1, chroma, flipuv)
  }

  function RowNumberStores(src: seq<byte>, width: nat, height: nat, flipuv: bool, r: nat): seq<Store>
    requires width % 2 == 0 && height % 2 == 0 && 2 * Area(width, height) <= |src| && r < height
  {
    var m, size := width / 2, Area(width, height);
    RowsInside(width, height, r);
    RowStores(src, PairAt(m, r), LumaAt(m, r), size + ChromaAt(m, r), size + ChromaAt(m, r) + size / 4, r % 2 == 0,
        flipuv, m)
  }

  /** All stores of the first `r` rows. */
  function PictureStores(src: seq<byte>, width: nat, height: nat, flipuv: bool, r: nat): seq<Store>
    requires width % 2 == 0 && height % 2 == 0 && 2 * Area(width, height) <= |src| && r <= height
  {
    if r == 0 then []
    else PictureStores(src, width, height, flipuv, r - 1) + RowNumberStores(src, width, height, flipuv, r - 1)
  }

  // ----- the loops -----

  /** One turn of the inner loop: pair `j` of a row, counted from 1. */
  method ConvertPair(src: array<byte>, dst: array<byte>, j: nat, chroma: bool, flipuv: bool, s: nat, q: nat, p2: nat,
      p3: nat)
    returns (p1: nat, ghost stores: seq<Store>)
    requires src != dst && 4 * s + 4 <= src.Length && 4 * q + 4 <= dst.Length + (if j % 2 == 1 then 2 else 0)
    requires chroma ==> p2 < dst.Length && p3 < dst.Length
    modifies dst
    ensures p1 == if j % 2 == 1 then q else q + 1
    ensures var at := if j % 2 == 1 then 4 * q else 4 * q + 2;
            && dst[..] == PutPair(old(dst[..]), src[..], s, at, p2, p3, chroma, flipuv)
            && stores == PairStores(src[..], s, at, p2, p3, chroma, flipuv)
  {
    p1 := q;
    if j % 2 == 1 {
      dst[4 * p1] := src[4 * s];
      dst[4 * p1 + 1] := src[4 * s + 2];
      stores := [Store(4 * p1, src[4 * s]), Store(4 * p1 + 1, src[4 * s + 2])];
    } else {
      dst[4 * p1 + 2] := src[4 * s];
      dst[4 * p1 + 3] := src[4 * s + 2];
      stores := [Store(4 * p1 + 2, src[4 * s]), Store(4 * p1 + 3, src[4 * s + 2])];
      p1 := p1 + 1;
    }
    if chroma {
      if flipuv {
        dst[p2] := src[4 * s + 3];
        dst[p3] := src[4 * s + 1];
        stores := stores + [Store(p2, src[4 * s + 3]), Store(p3, src[4 * s + 1])];
      } else {
        dst[p2] := src[4 * s + 1];
        dst[p3] := src[4 * s + 3];
        stores := stores + [Store(p2, src[4 * s + 1]), Store(p3, src[4 * s + 3])];
      }
    }
  }

  /** The inner loop: row number `i`, counted from 1, of `m` pairs. */
  method ConvertRow(src: array<byte>, dst: array<byte>, m: nat, i: nat, flipuv: bool, s0: nat, q: nat, u0: nat, v0: nat)
    returns (s: nat, p1: nat, p2: nat, p3: nat, ghost stores: seq<Store>)
    requires src != dst && RowFits(dst[..], src[..], s0, 4 * q, u0, v0, i % 2 == 1, m)
    modifies dst
    ensures s == s0 + m && 4 * p1 == 4 * q + 2 * Whole(m)
    ensures p2 == u0 + (if i % 2 == 1 then m else 0) && p3 == v0 + (if i % 2 == 1 then m else 0)
    ensures dst[..] == PutRow(old(dst[..]), src[..], s0, 4 * q, u0, v0, i % 2 == 1, flipuv, m)
    ensures stores == RowStores(src[..], s0, 4 * q, u0, v0, i % 2 == 1, flipuv, m)
  {
    hide PutRow, PutPair, PairStores, RowStores;
    var chroma := i % 2 == 1;
    s, p1, p2, p3, stores := s0, q, u0, v0, [];
    ghost var before, pixels := dst[..], src[..];
    FirstPair(before, pixels, s0, 4 * q, u0, v0, chroma, flipuv);
    var j := 1;
    while j <= m
      invariant 1 <= j <= m + 1
      invariant s == s0 + (j - 1) && p1 == q + (j - 1) / 2
      invariant p2 == u0 + (if chroma then j - 1 else 0) && p3 == v0 + (if chroma then j - 1 else 0)
      invariant dst[..] == PutRow(before, pixels, s0, 4 * q, u0, v0, chroma, flipuv, j - 1)
      invariant stores == RowStores(pixels, s0, 4 * q, u0, v0, chroma, flipuv, j - 1)
    {
      NextPair(before, pixels, s0, 4 * q, u0, v0, chroma, flipuv, j, p2, p3);
      ghost var pair;
      p1, pair := ConvertPair(src, dst, j, chroma, flipuv, s, p1, p2, p3);
      stores := stores + pair;
      if chroma {
        p2 := p2 + 1;
        p3 := p3 + 1;
      }
      s := s + 1;
      j := j + 1;
    }
  }

  method Yuyv422ToYuv420sp(src: array<byte>, dst: array<byte>, width: nat, height: nat, flipuv: bool)
    returns (ghost stores: seq<Store>)
    requires src != dst && Sized(src[..], dst[..], width, height)
    modifies dst
    ensures dst[..] == Converted(src[..], old(dst[..]), width, height, flipuv)
    ensures stores == PictureStores(src[..], width, height, flipuv, height)
  {
    hide Times, PutRow, PutRows, RowStores, PictureStores, Converted, PairAt, LumaAt, ChromaAt, Whole, Area, RowFits;
    PlaneSizes(width, height);
    ghost var m, size, pixels, was := width / 2, Area(width, height), src[..], dst[..];
    var s, p1, p2, p3 := 0, 0, Area(width, height), Area(width, height) + Area(width, height) / 4;
    FirstRow(was, pixels, width, height, flipuv);
    stores := [];
    var i := 1;
    while i <= height
      invariant 1 <= i <= height + 1
      invariant s == PairAt(m, i - 1) && 4 * p1 == LumaAt(m, i - 1)
      invariant p2 == size + ChromaAt(m, i - 1) && p3 == p2 + size / 4
      invariant dst[..] == PutRows(was, pixels, width, height, flipuv, i - 1)
      invariant stores == PictureStores(pixels, width, height, flipuv, i - 1)
    {
      RowFitsAt(dst[..], pixels, width, height, i - 1);
      NextRow(m, i - 1);
      NextRows(was, pixels, width, height, flipuv, i);
      ghost var row;
      s, p1, p2, p3, row := ConvertRow(src, dst, width / 2, i, flipuv, s, p1, p2, p3);
      stores := stores + row;
      i := i + 1;
    }
    PutRowsAreConverted(was, pixels, width, height, flipuv);
  }

  lemma FirstRow(dst: seq<byte>, src: seq<byte>, width: nat, height: nat, flipuv: bool)
    requires Sized(src, dst, width, height)
    ensures PutRows(dst, src, width, height, flipuv, 0) == dst && PictureStores(src, width, height, flipuv, 0) == []
    ensures PairAt(width / 2, 0) == 0 && LumaAt(width / 2, 0) == 0 && ChromaAt(width / 2, 0) == 0
  {
  }

  lemma NextRows(dst: seq<byte>, src: seq<byte>, width: nat, height: nat, flipuv: bool, i: nat)
    requires Sized(src, dst, width, height) && 1 <= i <= height
    ensures PutRows(dst, src, width, height, flipuv, i)
         == PutRowNumber(PutRows(dst, src, width, height, flipuv, i - 1), src, width, height, flipuv, i - 1)
    ensures PictureStores(src, width, height, flipuv, i)
         == PictureStores(src, width, height, flipuv, i - 1) + RowNumberStores(src, width, height, flipuv, i - 1)
  {
    hide PutRowNumber, RowNumberStores;
  }

  lemma FirstPair(dst: seq<byte>, src: seq<byte>, s: nat, at: nat, p2: nat, p3: nat, chroma: bool, flipuv: bool)
    requires RowFits(dst, src, s, at, p2, p3, chroma, 0)
    ensures PutRow(dst, src, s, at, p2, p3, chroma, flipuv, 0) == dst
    ensures RowStores(src, s, at, p2, p3, chroma, flipuv, 0) == []
  {
  }

  /** Where chroma goes does not matter if none is written. */
  lemma PairAlike(d: seq<byte>, src: seq<byte>, s: nat, at: nat, u: nat, v: nat, p2: nat, p3: nat, chroma: bool,
      flipuv: bool)
    requires 4 * s + 4 <= |src| && at + 2 <= |d|
    requires chroma ==> u == p2 && v == p3 && p2 < |d| && p3 < |d|
    ensures PutPair(d, src, s, at, u, v, chroma, flipuv) == PutPair(d, src, s, at, p2, p3, chroma, flipuv)
    ensures PairStores(src, s, at, u, v, chroma, flipuv) == PairStores(src, s, at, p2, p3, chroma, flipuv)
  {
  }

  lemma NextPair(dst: seq<byte>, src: seq<byte>, s: nat, at: nat, u: nat, v: nat, chroma: bool, flipuv: bool, j: nat,
      p2: nat, p3: nat)
    requires j > 0 && RowFits(dst, src, s, at, u, v, chroma, j)
    requires chroma ==> p2 == u + j - 1 && p3 == v + j - 1
    ensures PutRow(dst, src, s, at, u, v, chroma, flipuv, j)
         == PutPair(PutRow(dst, src, s, at, u, v, chroma, flipuv, j - 1), src,
                    s + j - 1, at + 2 * (j - 1), p2, p3, chroma, flipuv)
    ensures RowStores(src, s, at, u, v, chroma, flipuv, j)
         == RowStores(src, s, at, u, v, chroma, flipuv, j - 1)
            + PairStores(src, s + j - 1, at + 2 * (j - 1), p2, p3, chroma, flipuv)
  {
    hide PutPair, PairStores;
    PairAlike(PutRow(dst, src, s, at, u, v, chroma, flipuv, j - 1), src,
              s + j - 1, at + 2 * (j - 1), u + j - 1, v + j - 1, p2, p3, chroma, flipuv);
  }

  // ----- what the conversion is for -----

  /** Flat position of row `r`, column `c` in a plane of rows of `width` bytes. */
  function Cell(width: nat, r: nat, c: nat): nat {
    r * width + c
  }

  lemma CellInside(width: nat, height: nat, r: nat, c: nat)
    requires r < height && c < width
    ensures Cell(width, r, c) < Area(width, height)
  {
    assert r * width + width == (r + 1) * width;
    assert (r + 1) * width <= height * width;
  }

  lemma CellIsTimes(m: nat, r: nat, c: nat)
    ensures Cell(m, r, c) == Times(r, m) + c
  {
    TimesIsProduct(r, m);
  }

  lemma {:induction false} LumaFlat(src: seq<byte>, m: nat, r: nat, k: nat)
    requires 4 * PairAt(m, r) <= |src| && m % 2 == 0 && k < 2 * PairAt(m, r)
    ensures |Luma(src, m, r)| == 2 * PairAt(m, r) && Luma(src, m, r)[k] == src[2 * k]
  {
    LumaAgainstPairs(m, r);
    LumaAgainstPairs(m, r - 1);
    if k < 2 * PairAt(m, r - 1) {
      LumaFlat(src, m, r - 1, k);
    }
  }

  /** Chroma row `t` comes from source row `2t`. */
  lemma {:induction false} ChromaFlat(src: seq<byte>, m: nat, r: nat, which: nat, t: nat, c: nat)
    requires 4 * PairAt(m, r) <= |src| && which < 4 && 2 * t < r && c < m
    ensures Times(t, m) + c < |Chroma(src, m, r, which)|
    ensures 4 * (PairAt(m, 2 * t) + c) + which < |src|
    ensures Chroma(src, m, r, which)[Times(t, m) + c] == src[4 * (PairAt(m, 2 * t) + c) + which]
    decreases r
  {
    NextRow(m, r - 1);
    if r == 2 * t + 1 {
      assert (r - 1 + 1) / 2 == t;
    } else {
      ChromaFlat(src, m, r - 1, which, t, c);
    }
  }

  /**
   Pixel conversion: for a width divisible by 4 and an even height, luma (r, c) is source byte 2wr + 2c, the
   two chroma planes hold the V and U bytes of the even-indexed rows in order, swapped exactly by flipuv,
   and no byte after the planes changes.
   */
  lemma PlanesAreRight(src: seq<byte>, dst: seq<byte>, width: nat, height: nat, flipuv: bool)
    requires Sized(src, dst, width, height) && width % 4 == 0
    ensures var d, size := Converted(src, dst, width, height, flipuv), Area(width, height);
            && (forall r, c :: 0 <= r < height && 0 <= c < width ==>
                  Cell(width, r, c) < |d| && 2 * Cell(width, r, c) < |src|
                      && d[Cell(width, r, c)] == src[2 * Cell(width, r, c)])
            && (forall k :: size + size / 2 <= k < |d| ==> d[k] == dst[k])
  {
    hide Area, Cell, Luma, Dangling, Chroma, Times;
    var d, size := Converted(src, dst, width, height, flipuv), Area(width, height);
    PlaneSizes(width, height);
    forall r, c | 0 <= r < height && 0 <= c < width
      ensures Cell(width, r, c) < |d| && 2 * Cell(width, r, c) < |src|
                && d[Cell(width, r, c)] == src[2 * Cell(width, r, c)]
    {
      CellInside(width, height, r, c);
      LumaFlat(src, width / 2, height, Cell(width, r, c));
    }
  }

  lemma ChromaIsRight(src: seq<byte>, dst: seq<byte>, width: nat, height: nat, flipuv: bool, t: nat, c: nat)
    requires Sized(src, dst, width, height) && t < height / 2 && c < width / 2
    ensures var d, size, m := Converted(src, dst, width, height, flipuv), Area(width, height), width / 2;
            var from, to := 4 * Cell(m, 2 * t, c), Cell(m, t, c);
            && from + 3 < |src| && to < size / 4
            && d[size + to] == src[from + if flipuv then 3 else 1]
            && d[size + size / 4 + to] == src[from + if flipuv then 1 else 3]
  {
    hide Area, Cell, Luma, Dangling, Chroma, Times;
    var m, size := width / 2, Area(width, height);
    PlaneSizes(width, height);
    CellIsTimes(m, t, c);
    CellIsTimes(m, 2 * t, c);
    ChromaFlat(src, m, height, if flipuv then 3 else 1, t, c);
    ChromaFlat(src, m, height, if flipuv then 1 else 3, t, c);
  }

  predicate LumaByteRight(src: seq<byte>, dst: seq<byte>, width: nat, height: nat, flipuv: bool, k: nat)
    requires Sized(src, dst, width, height) && k < Area(width, height)
  {
    PlaneSizes(width, height);
    Converted(src, dst, width, height, flipuv)[k] == src[2 * k]
  }

  /** The luma plane is the picture's, whatever was in the buffer before. */
  ghost predicate LumaRight(width: nat, height: nat) {
    forall src: seq<byte>, dst: seq<byte>, flipuv: bool, k: nat ::
      Sized(src, dst, width, height) && k < Area(width, height) ==> LumaByteRight(src, dst, width, height, flipuv, k)
  }

  lemma LumaKept(src: seq<byte>, dst: seq<byte>, width: nat, height: nat, flipuv: bool, k: nat)
    requires Sized(src, dst, width, height) && (width % 4 == 0 || height == 0) && k < Area(width, height)
    ensures k < |Converted(src, dst, width, height, flipuv)| && 2 * k < |src|
    ensures Converted(src, dst, width, height, flipuv)[k] == src[2 * k]
  {
    hide Area, Luma, Chroma, Dangling, Times;
    PlaneSizes(width, height);
    LumaFlat(src, width / 2, height, k);
  }

  lemma LastByteUntouched(src: seq<byte>, dst: seq<byte>, width: nat, height: nat, flipuv: bool)
    requires Sized(src, dst, width, height) && width % 4 == 2 && height > 0
    ensures Area(width, height) >= 2
    ensures Converted(src, dst, width, height, flipuv)[Area(width, height) - 1] == dst[Area(width, height) - 1]
  {
    hide Area, Luma, Chroma, Dangling, Times;
    PlaneSizes(width, height);
  }

  lemma LumaAllRight(width: nat, height: nat)
    requires width % 2 == 0 && height % 2 == 0 && (width % 4 == 0 || height == 0)
    ensures LumaRight(width, height)
  {
    hide Area, Converted, Sized;
    forall src: seq<byte>, dst: seq<byte>, flipuv: bool, k: nat
      | Sized(src, dst, width, height) && k < Area(width, height)
      ensures LumaByteRight(src, dst, width, height, flipuv, k)
    {
      LumaKept(src, dst, width, height, flipuv, k);
    }
  }

  lemma BlackPicture(size: nat, src: seq<byte>, dst: seq<byte>, width: nat, height: nat)
    requires width % 2 == 0 && width % 4 == 2 && height % 2 == 0 && height > 0 && size == Area(width, height)
    requires |src| == |dst| == 2 * size && forall i :: 0 <= i < 2 * size ==> src[i] == 0 && dst[i] == 1
    ensures Sized(src, dst, width, height) && size > 0
    ensures !LumaByteRight(src, dst, width, height, false, size - 1)
  {
    hide Area, Converted;
    LastByteUntouched(src, dst, width, height, false);
    hide Sized;
    assert Converted(src, dst, width, height, false)[size - 1] == 1 && src[2 * (size - 1)] == 0;
  }

  lemma EvenRemainder(width: nat)
    requires width % 2 == 0
    ensures width % 4 == 0 || width % 4 == 2
  {
  }

  lemma LumaSometimesWrong(width: nat, height: nat)
    requires width % 2 == 0 && width % 4 == 2 && height % 2 == 0 && height > 0
    ensures !LumaRight(width, height)
  {
    var size := Area(width, height);
    var src: seq<byte> := seq(2 * size, _ => 0);
    var dst: seq<byte> := seq(2 * size, _ => 1);
    BlackPicture(size, src, dst, width, height);
    hide Area, Sized, LumaByteRight;
  }

  /**
   The luma plane comes out right exactly when the width is a multiple of 4 (or the picture is empty): with
   an odd number of pixel pairs the cursor falls two bytes behind on every row.
   */
  lemma LumaRightIffWidthMultipleOfFour(width: nat, height: nat)
    requires width % 2 == 0 && height % 2 == 0
    ensures LumaRight(width, height) <==> width % 4 == 0 || height == 0
  {
    hide LumaRight;
    EvenRemainder(width);
    if width % 4 == 0 || height == 0 {
      LumaAllRight(width, height);
    } else {
      LumaSometimesWrong(width, height);
    }
  }
}
