/**
 YmlParser: structs back from the tree.  A decode function throws on a bad scalar, refuses a node without the
 parts it looks for, or gives the value.
 */
module LogDecode {
  import opened Wrappers
  import opened DisplayProtocol
  import opened YmlTree
  import opened YmlScalars
  import opened LogStructs

  datatype Decoded<+T> = Threw | Refused | Decoded(value: T)

  const MAX_I16 := 0x8000
  const MAX_I32 := 0x8000_0000
  const MAX_U32 := 0x1_0000_0000
  const MAX_U64 := 0x1_0000_0000_0000_0000

  /** node[key].as<T>() for an integer T. */
  function AsInt(entries: seq<Entry>, key: Key, lo: int, hi: int): (r: Option<int>)
    requires lo <= 0 < hi
    ensures r.Some? ==> lo <= r.value < hi
  {
    match Lookup(entries, key)
    case Some(Leaf(Plain(text))) => ReadInt(text, lo, hi)
    case _ => None
  }

  function AsU32(entries: seq<Entry>, key: Key): Option<u32> {
    AsInt(entries, key, 0, MAX_U32)
  }

  function AsI32(entries: seq<Entry>, key: Key): Option<i32> {
    AsInt(entries, key, -MAX_I32, MAX_I32)
  }

  function AsU64(entries: seq<Entry>, key: Key): Option<u64> {
    AsInt(entries, key, 0, MAX_U64)
  }

  function AsI16(entries: seq<Entry>, key: Key): Option<i16> {
    AsInt(entries, key, -MAX_I16, MAX_I16)
  }

  /** node[key].as<float>(), as its text. */
  function AsFloat(entries: seq<Entry>, key: Key): Option<string> {
    match Lookup(entries, key)
    case Some(Leaf(Plain(text))) => Some(text)
    case _ => None
  }

  function AsWord(entries: seq<Entry>, key: Key): Option<Word> {
    match Lookup(entries, key)
    case Some(Leaf(Named(w))) => Some(w)
    case _ => None
  }

  /**
   GetSequence into a zeroed array of `length` elements: left zero if the node is no sequence.  A sequence
   longer than the array is outside the model.
   */
  function AsArray(entries: seq<Entry>, key: Key, length: nat, lo: int, hi: int): (r: Option<seq<int>>)
    requires lo <= 0 < hi
    ensures r.Some? ==> |r.value| == length && forall i :: 0 <= i < length ==> lo <= r.value[i] < hi
  {
    match Lookup(entries, key)
    case Some(Leaf(Plain(text))) =>
      if !IsSequence(text) then Some(seq(length, _ => 0))
      else
        var items :- ReadAll(Items(text), lo, hi);
        if |items| <= length then Some(items + seq(length - |items|, _ => 0)) else None
    case _ => Some(seq(length, _ => 0))
  }

  function AsU32s(entries: seq<Entry>, key: Key, length: nat): (r: Option<seq<u32>>)
    ensures r.Some? ==> |r.value| == length
  {
    AsArray(entries, key, length, 0, MAX_U32)
  }

  function AsI32s(entries: seq<Entry>, key: Key, length: nat): (r: Option<seq<i32>>)
    ensures r.Some? ==> |r.value| == length
  {
    AsArray(entries, key, length, -MAX_I32, MAX_I32)
  }

  /** node[key] if it is a map. */
  function AsMap(entries: seq<Entry>, key: Key): Option<seq<Entry>> {
    match Lookup(entries, key)
    case Some(Mapping(inner)) => Some(inner)
    case _ => None
  }

  // ----- one field among others -----

  lemma IntAt(entries: seq<Entry>, k: nat, key: Key, n: int, lo: int, hi: int)
    requires lo <= 0 < hi && k < |entries| && entries[k] == Int(key, n) && Absent(entries[..k], key)
    ensures AsInt(entries, key, lo, hi) == if lo <= n < hi then Some(n) else None
  {
    hide Lookup, ReadInt, Absent;
    LookupAt(entries, k);
    ReadDec(n, lo, hi);
  }

  /** An unsigned field printed with %d comes back exactly when it is below 2^31; otherwise as<unsigned> throws. */
  lemma UnsignedAt(entries: seq<Entry>, k: nat, key: Key, n: u32)
    requires k < |entries| && entries[k] == Unsigned(key, n) && Absent(entries[..k], key)
    ensures AsU32(entries, key) == if n < MAX_I32 then Some(n) else None
  {
    Signed32Of(n);
    hide Signed32, AsInt, Absent;
    IntAt(entries, k, key, Signed32(n), 0, MAX_U32);
  }

  lemma Signed32Of(n: u32)
    ensures Signed32(n) == if n < MAX_I32 then n else n - 0x1_0000_0000
  {
  }

  lemma SignedAt(entries: seq<Entry>, k: nat, key: Key, n: i32)
    requires k < |entries| && entries[k] == Int(key, n) && Absent(entries[..k], key)
    ensures AsI32(entries, key) == Some(n)
  {
    IntAt(entries, k, key, n, -MAX_I32, MAX_I32);
  }

  lemma HexAt(entries: seq<Entry>, k: nat, key: Key, n: u32)
    requires k < |entries| && entries[k] == Hex(key, n) && Absent(entries[..k], key)
    ensures AsU32(entries, key) == Some(n)
  {
    LookupAt(entries, k);
    ReadHex(n, 0, MAX_U32);
  }

  lemma MapAt(entries: seq<Entry>, k: nat, key: Key, inner: seq<Entry>)
    requires k < |entries| && entries[k] == Entry(key, Mapping(inner)) && Absent(entries[..k], key)
    ensures AsMap(entries, key) == Some(inner)
  {
    LookupAt(entries, k);
  }

  predicate Small(a: seq<u32>) {
    forall i :: 0 <= i < |a| ==> a[i] < MAX_I32
  }

  lemma ArrayAt(entries: seq<Entry>, k: nat, key: Key, a: seq<int>, lo: int, hi: int)
    requires |a| > 0 && lo <= 0 < hi
    requires k < |entries| && entries[k] == Array(key, a) && Absent(entries[..k], key)
    ensures AsArray(entries, key, |a|, lo, hi)
         == if forall i :: 0 <= i < |a| ==> lo <= Signed32(a[i]) < hi then Some(AsSigned(a)) else None
  {
    hide ArrayText, Items, ReadAll, Absent, Lookup, Signed32, IsSequence;
    var s := AsSigned(a);
    LookupAt(entries, k);
    ItemsOfArrayText(s);
    ArrayReadsBack(s, lo, hi);
    assert s + seq(0, _ => 0) == s;
    InRangeAlike(a, lo, hi);
    hide AsSigned;
  }

  lemma InRangeAlike(a: seq<int>, lo: int, hi: int)
    ensures var s := AsSigned(a);
            (forall i :: 0 <= i < |s| ==> lo <= s[i] < hi) <==>
                (forall i :: 0 <= i < |a| ==> lo <= Signed32(a[i]) < hi)
  {
    hide Signed32;
    var s := AsSigned(a);
    assert |s| == |a| && forall i :: 0 <= i < |s| ==> s[i] == Signed32(a[i]);
    if forall i :: 0 <= i < |s| ==> lo <= s[i] < hi {
      assert forall i :: 0 <= i < |a| ==> lo <= s[i] < hi;
    }
  }

  lemma UnsignedsAt(entries: seq<Entry>, k: nat, key: Key, a: seq<u32>)
    requires |a| > 0 && k < |entries| && entries[k] == Array(key, a) && Absent(entries[..k], key)
    ensures AsU32s(entries, key, |a|) == if Small(a) then Some(a) else None
  {
    hide Array, AsArray;
    ArrayAt(entries, k, key, a, 0, MAX_U32);
    assert forall i :: 0 <= i < |a| ==> (0 <= Signed32(a[i]) <==> a[i] < MAX_I32);
    assert Small(a) ==> AsSigned(a) == a;
  }

  lemma SignedsAt(entries: seq<Entry>, k: nat, key: Key, a: seq<i32>)
    requires |a| > 0 && k < |entries| && entries[k] == Array(key, a) && Absent(entries[..k], key)
    ensures AsI32s(entries, key, |a|) == Some(a)
  {
    hide Array, AsArray;
    ArrayAt(entries, k, key, a, -MAX_I32, MAX_I32);
    assert AsSigned(a) == a;
  }
}
