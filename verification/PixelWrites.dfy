/** The stores that the conversion's loops make: together they are the conversion, and each byte gets one. */
module PixelWrites {
  import opened Bytes
  import opened PixelConversion
  import opened Stores
  import opened Strides

  lemma PairIsStores(dst: seq<byte>, src: seq<byte>, s: nat, at: nat, p2: nat, p3: nat, chroma: bool, flipuv: bool)
    requires 4 * s + 4 <= |src| && at + 2 <= |dst| && (chroma ==> p2 < |dst| && p3 < |dst|)
    ensures var stores := PairStores(src, s, at, p2, p3, chroma, flipuv);
            Inside(stores, |dst|) && Stored(dst, stores) == PutPair(dst, src, s, at, p2, p3, chroma, flipuv)
  {
    hide Stored;
    var a, b := Store(at, src[4 * s]), Store(at + 1, src[4 * s + 2]);
    StoredTwo(dst, a, b);
    assert [a, b] + [] == [a, b];
    if chroma {
      var x, y := src[4 * s + 1], src[4 * s + 3];
      var u, v := if flipuv then Store(p2, y) else Store(p2, x), if flipuv then Store(p3, x) else Store(p3, y);
      assert PairStores(src, s, at, p2, p3, chroma, flipuv) == [a, b] + [u, v];
      hide PairStores;
      StoredTwo(Stored(dst, [a, b]), u, v);
      StoredConcat(dst, [a, b], [u, v]);
    }
  }

  lemma {:induction false} RowIsStores(dst: seq<byte>, src: seq<byte>, s: nat, at: nat, p2: nat, p3: nat,
      chroma: bool, flipuv: bool, n: nat)
    requires RowFits(dst, src, s, at, p2, p3, chroma, n)
    ensures var stores := RowStores(src, s, at, p2, p3, chroma, flipuv, n);
            Inside(stores, |dst|) && Stored(dst, stores) == PutRow(dst, src, s, at, p2, p3, chroma, flipuv, n)
  {
    hide PutPair, PairStores, PutRow, RowStores, Stored, Inside;
    if n == 0 {
      FirstPair(dst, src, s, at, p2, p3, chroma, flipuv);
      NothingStored(dst);
    } else {
      RowIsStores(dst, src, s, at, p2, p3, chroma, flipuv, n - 1);
      NextPair(dst, src, s, at, p2, p3, chroma, flipuv, n, p2 + n - 1, p3 + n - 1);
      var d := PutRow(dst, src, s, at, p2, p3, chroma, flipuv, n - 1);
      PairIsStores(d, src, s + n - 1, at + 2 * (n - 1), p2 + n - 1, p3 + n - 1, chroma, flipuv);
      StoredConcat(dst, RowStores(src, s, at, p2, p3, chroma, flipuv, n - 1),
                   PairStores(src, s + n - 1, at + 2 * (n - 1), p2 + n - 1, p3 + n - 1, chroma, flipuv));
    }
  }

  lemma NothingStored(dst: seq<byte>)
    ensures Inside([], |dst|) && Stored(dst, []) == dst
  {
  }

  lemma RowNumberIsStores(d: seq<byte>, src: seq<byte>, width: nat, height: nat, flipuv: bool, r: nat)
    requires Sized(src, d, width, height) && r < height
    ensures var stores := RowNumberStores(src, width, height, flipuv, r);
            Inside(stores, |d|) && Stored(d, stores) == PutRowNumber(d, src, width, height, flipuv, r)
  {
    hide PutRow, RowStores, Stored, PairAt, LumaAt, ChromaAt, Inside, Area, RowFits, Sized;
    var m, size := width / 2, Area(width, height);
    RowFitsAt(d, src, width, height, r);
    RowIsStores(d, src, PairAt(m, r), LumaAt(m, r), size + ChromaAt(m, r), size + ChromaAt(m, r) + size / 4,
                r % 2 == 0, flipuv, m);
  }

  lemma {:induction false} RowsAreStores(dst: seq<byte>, src: seq<byte>, width: nat, height: nat, flipuv: bool, r: nat)
    requires Sized(src, dst, width, height) && r <= height
    ensures var stores := PictureStores(src, width, height, flipuv, r);
            Inside(stores, |dst|) && Stored(dst, stores) == PutRows(dst, src, width, height, flipuv, r)
  {
    hide PutRowNumber, RowNumberStores, Area;
    if r == 0 {
    } else {
      RowsAreStores(dst, src, width, height, flipuv, r - 1);
      RowNumberIsStores(PutRows(dst, src, width, height, flipuv, r - 1), src, width, height, flipuv, r - 1);
      StoredConcat(dst, PictureStores(src, width, height, flipuv, r - 1),
                   RowNumberStores(src, width, height, flipuv, r - 1));
    }
  }

  /** The stores, made in order on any buffer, give the conversion. */
  lemma StoresAreConverted(dst: seq<byte>, src: seq<byte>, width: nat, height: nat, flipuv: bool)
    requires Sized(src, dst, width, height)
    ensures var stores := PictureStores(src, width, height, flipuv, height);
            Inside(stores, |dst|) && Stored(dst, stores) == Converted(src, dst, width, height, flipuv)
  {
    RowsAreStores(dst, src, width, height, flipuv, height);
    PutRowsAreConverted(dst, src, width, height, flipuv);
    hide PutRows, PictureStores, Converted, Stored;
  }

  lemma CountPair(src: seq<byte>, s: nat, at: nat, p2: nat, p3: nat, chroma: bool, flipuv: bool, k: nat)
    requires 4 * s + 4 <= |src|
    ensures CountAt(PairStores(src, s, at, p2, p3, chroma, flipuv), k)
         == One(k == at) + One(k == at + 1) + One(chroma && k == p2) + One(chroma && k == p3)
  {
    var a, b := Store(at, src[4 * s]), Store(at + 1, src[4 * s + 2]);
    CountTwo(a, b, k);
    assert [a, b] + [] == [a, b];
    if chroma {
      var u, v := Store(p2, src[4 * s + if flipuv then 3 else 1]), Store(p3, src[4 * s + if flipuv then 1 else 3]);
      CountTwo(u, v, k);
      CountConcat([a, b], [u, v], k);
    }
    hide CountAt;
  }

  lemma {:induction false} CountRow(src: seq<byte>, s: nat, at: nat, p2: nat, p3: nat, chroma: bool, flipuv: bool,
      n: nat, k: nat)
    requires 4 * (s + n) <= |src|
    ensures CountAt(RowStores(src, s, at, p2, p3, chroma, flipuv, n), k)
         == One(at <= k < at + 2 * n) + One(chroma && p2 <= k < p2 + n) + One(chroma && p3 <= k < p3 + n)
  {
    hide PairStores, RowStores, CountAt;
    NextStores(src, s, at, p2, p3, chroma, flipuv, n);
    if n == 0 {
      NoneCounted(k);
    } else {
      hide One;
      var pair := PairStores(src, s + n - 1, at + 2 * (n - 1), p2 + n - 1, p3 + n - 1, chroma, flipuv);
      CountRow(src, s, at, p2, p3, chroma, flipuv, n - 1, k);
      CountPair(src, s + n - 1, at + 2 * (n - 1), p2 + n - 1, p3 + n - 1, chroma, flipuv, k);
      CountConcat(RowStores(src, s, at, p2, p3, chroma, flipuv, n - 1), pair, k);
      TwoMore(at, 2 * (n - 1), k);
      OneMore(p2, n - 1, k, chroma);
      OneMore(p3, n - 1, k, chroma);
    }
  }

  lemma NextStores(src: seq<byte>, s: nat, at: nat, p2: nat, p3: nat, chroma: bool, flipuv: bool, n: nat)
    requires 4 * (s + n) <= |src|
    ensures n == 0 ==> RowStores(src, s, at, p2, p3, chroma, flipuv, n) == []
    ensures n > 0 ==>
              RowStores(src, s, at, p2, p3, chroma, flipuv, n)
              == RowStores(src, s, at, p2, p3, chroma, flipuv, n - 1)
                 + PairStores(src, s + n - 1, at + 2 * (n - 1), p2 + n - 1, p3 + n - 1, chroma, flipuv)
  {
    hide PairStores;
  }

  lemma NoneCounted(k: nat)
    ensures CountAt([], k) == 0
  {
  }

  lemma TwoMore(at: nat, n: nat, k: nat)
    ensures One(at <= k < at + n + 2) == One(at <= k < at + n) + One(k == at + n) + One(k == at + n + 1)
  {
  }

  lemma OneMore(at: nat, n: nat, k: nat, chroma: bool)
    ensures One(chroma && at <= k < at + n + 1) == One(chroma && at <= k < at + n) + One(chroma && k == at + n)
  {
  }

  lemma CountRowNumber(src: seq<byte>, width: nat, height: nat, flipuv: bool, r: nat, k: nat)
    requires width % 2 == 0 && height % 2 == 0 && 2 * Area(width, height) <= |src| && r < height
    ensures var m, size := width / 2, Area(width, height);
            var at, p2, p3 := LumaAt(m, r), size + ChromaAt(m, r), size + ChromaAt(m, r) + size / 4;
            CountAt(RowNumberStores(src, width, height, flipuv, r), k)
            == One(at <= k < at + 2 * m) + One(r % 2 == 0 && p2 <= k < p2 + m) + One(r % 2 == 0 && p3 <= k < p3 + m)
  {
    hide RowStores, Times, PairAt, LumaAt, ChromaAt, CountAt;
    var m, size := width / 2, Area(width, height);
    RowsInside(width, height, r);
    CountRow(src, PairAt(m, r), LumaAt(m, r), size + ChromaAt(m, r), size + ChromaAt(m, r) + size / 4, r % 2 == 0,
        flipuv, m, k);
  }

  lemma {:induction false} CountSoFar(src: seq<byte>, width: nat, height: nat, flipuv: bool, r: nat, k: nat)
    requires width % 4 == 0 && height % 2 == 0 && 2 * Area(width, height) <= |src| && r <= height
    ensures CountAt(PictureStores(src, width, height, flipuv, r), k)
         == Covered(Area(width, height), LumaAt(width / 2, r), ChromaAt(width / 2, r), k)
    decreases r
  {
    hide RowNumberStores, Area, LumaAt, ChromaAt, CountAt, Covered;
    var m := width / 2;
    if r == 0 {
      NothingYet(Area(width, height), m, k);
    } else {
      NextEvenRow(m, r - 1);
      CountSoFar(src, width, height, flipuv, r - 1, k);
      CountRowNumber(src, width, height, flipuv, r - 1, k);
      CountConcat(PictureStores(src, width, height, flipuv, r - 1),
                  RowNumberStores(src, width, height, flipuv, r - 1), k);
      CoveredMore(Area(width, height), LumaAt(m, r - 1), 2 * m, ChromaAt(m, r - 1), if (r - 1) % 2 == 0 then m else 0,
                  k);
    }
  }

  lemma NextEvenRow(m: nat, r: nat)
    requires m % 2 == 0
    ensures LumaAt(m, r + 1) == LumaAt(m, r) + 2 * m
    ensures ChromaAt(m, r + 1) == ChromaAt(m, r) + (if r % 2 == 0 then m else 0)
  {
    NextRow(m, r);
    hide LumaAt, ChromaAt;
  }

  lemma NothingYet(size: nat, m: nat, k: nat)
    ensures CountAt([], k) == 0 && Covered(size, LumaAt(m, 0), ChromaAt(m, 0), k) == 0
  {
  }

  /** Once for every plane whose first bytes, `luma` or `chroma` many, include byte `k`. */
  function Covered(size: nat, luma: nat, chroma: nat, k: nat): nat {
    One(k < luma) + One(size <= k < size + chroma) + One(size + size / 4 <= k < size + size / 4 + chroma)
  }

  lemma CoveredMore(size: nat, luma: nat, l: nat, chroma: nat, c: nat, k: nat)
    ensures var p2, p3 := size + chroma, size + chroma + size / 4;
            Covered(size, luma + l, chroma + c, k)
            == Covered(size, luma, chroma, k) + One(luma <= k < luma + l) + One(p2 <= k < p2 + c)
               + One(p3 <= k < p3 + c)
  {
  }

  /**
   With a width divisible by 4, the stores the loops make, which in order give the conversion, go once to each
   of the 3wh/2 output bytes and never to any other.
   */
  lemma WrittenExactlyOnce(src: seq<byte>, dst: seq<byte>, width: nat, height: nat, flipuv: bool, k: nat)
    requires Sized(src, dst, width, height) && width % 4 == 0
    ensures var stores, size := PictureStores(src, width, height, flipuv, height), Area(width, height);
            && Inside(stores, |dst|) && Stored(dst, stores) == Converted(src, dst, width, height, flipuv)
            && CountAt(stores, k) == One(k < size + size / 2)
  {
    hide Area, PictureStores, CountAt, Stored, Converted, LumaAt, ChromaAt, PairAt, Inside;
    PlaneSizes(width, height);
    CountSoFar(src, width, height, flipuv, height, k);
    StoresAreConverted(dst, src, width, height, flipuv);
  }
}
