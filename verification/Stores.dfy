/** Single-byte stores into a buffer, in order: what they make of it and how many go to one byte. */
module Stores {
  import opened Bytes

  datatype Store = Store(at: nat, value: byte)

  predicate Inside(stores: seq<Store>, size: nat) {
    forall i :: 0 <= i < |stores| ==> stores[i].at < size
  }

  /** A buffer after some stores. */
  function Stored(dst: seq<byte>, stores: seq<Store>): (r: seq<byte>)
    requires Inside(stores, |dst|)
    ensures |r| == |dst|
  {
    if stores == [] then dst
    else
      var last := stores[|stores| - 1];
      Stored(dst, stores[..|stores| - 1])[last.at := last.value]
  }

  lemma {:induction false} StoredConcat(dst: seq<byte>, a: seq<Store>, b: seq<Store>)
    requires Inside(a, |dst|) && Inside(b, |dst|)
    ensures Inside(a + b, |dst|) && Stored(dst, a + b) == Stored(Stored(dst, a), b)
    decreases |b|
  {
    if b == [] {
      assert a + b == a;
    } else {
      var front := b[..|b| - 1];
      StoredConcat(dst, a, front);
      assert (a + b)[..|a + b| - 1] == a + front;
    }
  }

  lemma StoredTwo(dst: seq<byte>, a: Store, b: Store)
    requires a.at < |dst| && b.at < |dst|
    ensures Inside([a, b], |dst|) && Stored(dst, [a, b]) == dst[a.at := a.value][b.at := b.value]
  {
    assert [a][..0] == [] && [a, b][..1] == [a];
    assert Stored(dst, [a]) == dst[a.at := a.value];
  }

  function One(b: bool): nat {
    if b then 1 else 0
  }

  /** How many of the stores go to byte `k`. */
  function CountAt(stores: seq<Store>, k: nat): nat {
    if stores == [] then 0 else CountAt(stores[..|stores| - 1], k) + One(stores[|stores| - 1].at == k)
  }

  lemma {:induction false} CountConcat(a: seq<Store>, b: seq<Store>, k: nat)
    ensures CountAt(a + b, k) == CountAt(a, k) + CountAt(b, k)
    decreases |b|
  {
    if b == [] {
      assert a + b == a;
    } else {
      CountConcat(a, b[..|b| - 1], k);
      assert (a + b)[..|a + b| - 1] == a + b[..|b| - 1];
    }
  }

  lemma CountTwo(a: Store, b: Store, k: nat)
    ensures CountAt([a, b], k) == One(a.at == k) + One(b.at == k)
  {
    assert [a][..0] == [] && [a, b][..1] == [a];
    assert CountAt([a], k) == One(a.at == k);
  }
}
