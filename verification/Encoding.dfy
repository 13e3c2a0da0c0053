/**
 The length-prefixed serialisation under the audit hashes.

 A hash input is a list of items, each either a byte string written with an
 8-byte big-endian length in front of it or a 64-bit number written as its
 two's-complement bit pattern. Which kind stands where is fixed by the caller,
 so two inputs are only ever compared when they have the same shape.
 */
module Encoding {
  import opened Prelude

  datatype Item = Sized(bytes: Bytes) | Word(value: Int64)

  function BigEndian(v: nat, width: nat): (r: seq<Byte>)
    ensures |r| == width
  {
    if width == 0 then [] else BigEndian(v / 256, width - 1) + [v % 256]
  }

  function FromBigEndian(bs: seq<Byte>): nat {
    if |bs| == 0 then 0 else FromBigEndian(bs[..|bs| - 1]) * 256 + bs[|bs| - 1]
  }

  function Capacity(width: nat): nat {
    if width == 0 then 1 else 256 * Capacity(width - 1)
  }

  /** Reading the digits back recovers the number, so the digits determine it. */
  lemma {:induction false} BigEndianRoundTrip(v: nat, width: nat)
    requires v < Capacity(width)
    ensures FromBigEndian(BigEndian(v, width)) == v
  {
    if width > 0 {
      BigEndianRoundTrip(v / 256, width - 1);
      var r := BigEndian(v, width);
      assert r[..|r| - 1] == BigEndian(v / 256, width - 1);
    }
  }

  lemma BigEndian64RoundTrip(v: nat)
    requires v < TWO_64
    ensures FromBigEndian(BigEndian(v, 8)) == v
  {
    assert Capacity(2) == 65536;
    assert Capacity(4) == 256 * Capacity(3);
    assert Capacity(6) == 256 * Capacity(5);
    assert Capacity(8) == 256 * Capacity(7);
    BigEndianRoundTrip(v, 8);
  }

  /** The uint64 with the same bit pattern. */
  function Unsigned(v: Int64): (r: nat)
    ensures r < TWO_64
  {
    if v < 0 then v + TWO_64 else v
  }

  function EncodeItem(x: Item): seq<Byte> {
    match x
    case Sized(b) => BigEndian(|b|, 8) + b
    case Word(v) => BigEndian(Unsigned(v), 8)
  }

  function Encode(xs: seq<Item>): seq<Byte> {
    if |xs| == 0 then [] else EncodeItem(xs[0]) + Encode(xs[1..])
  }

  predicate SameShape(xs: seq<Item>, ys: seq<Item>) {
    |xs| == |ys| && forall i :: 0 <= i < |xs| ==> xs[i].Sized? == ys[i].Sized?
  }

  /** Neither kind of item can be mistaken for a longer or shorter one of its kind. */
  lemma ItemUniquelyReadable(x: Item, y: Item, r: seq<Byte>, s: seq<Byte>)
    requires x.Sized? == y.Sized?
    requires EncodeItem(x) + r == EncodeItem(y) + s
    ensures x == y && r == s
  {
    var m, n := if x.Sized? then |x.bytes| else Unsigned(x.value), if y.Sized? then |y.bytes| else Unsigned(y.value);
    var whole := EncodeItem(x) + r;
    assert whole[..8] == BigEndian(m, 8);
    assert whole[..8] == BigEndian(n, 8);
    BigEndian64RoundTrip(m);
    BigEndian64RoundTrip(n);
    assert m == n;
    if x.Sized? {
      assert whole[8..8 + m] == x.bytes;
      assert whole[8..8 + m] == y.bytes;
    }
    var k := |EncodeItem(x)|;
    assert whole[k..] == r;
    assert whole[k..] == s;
  }

  lemma EncodeHead(xs: seq<Item>, r: seq<Byte>)
    requires |xs| > 0
    ensures Encode(xs) + r == EncodeItem(xs[0]) + (Encode(xs[1..]) + r)
  {
  }

  /** The serialisation is prefix-free among inputs of one shape, hence injective. */
  lemma {:induction false} EncodeUniquelyReadable(xs: seq<Item>, ys: seq<Item>, r: seq<Byte>, s: seq<Byte>)
    requires SameShape(xs, ys)
    requires Encode(xs) + r == Encode(ys) + s
    ensures xs == ys && r == s
  {
    if |xs| == 0 {
      assert Encode(xs) + r == r && Encode(ys) + s == s;
    } else {
      EncodeHead(xs, r);
      EncodeHead(ys, s);
      ItemUniquelyReadable(xs[0], ys[0], Encode(xs[1..]) + r, Encode(ys[1..]) + s);
      EncodeUniquelyReadable(xs[1..], ys[1..], r, s);
      SplitHead(xs);
      SplitHead(ys);
    }
  }

  lemma SplitHead(xs: seq<Item>)
    requires |xs| > 0
    ensures xs == [xs[0]] + xs[1..]
  {
  }

  lemma EncodeInjective(xs: seq<Item>, ys: seq<Item>)
    requires SameShape(xs, ys)
    ensures Encode(xs) == Encode(ys) <==> xs == ys
  {
    if Encode(xs) == Encode(ys) {
      EncodeUniquelyReadable(xs, ys, [], []);
    }
  }

  lemma {:induction false} EncodeAppend(xs: seq<Item>, x: Item)
    ensures Encode(xs + [x]) == Encode(xs) + EncodeItem(x)
  {
    if |xs| == 0 {
      assert (xs + [x])[1..] == [];
    } else {
      assert (xs + [x])[1..] == xs[1..] + [x];
      EncodeAppend(xs[1..], x);
    }
  }

  /** The running state of a digest: everything written to it so far. */
  class HashState {
    const sum: HashFn
    ghost var items: seq<Item>
    var written: seq<Byte>

    ghost predicate Valid()
      reads this
    {
      written == Encode(items)
    }

    constructor (sum: HashFn)
      ensures Valid() && this.sum == sum && items == []
    {
      this.sum := sum;
      items := [];
      written := [];
    }

    method WriteField(b: Bytes)
      requires Valid()
      modifies this
      ensures Valid() && items == old(items) + [Sized(b)]
    {
      EncodeAppend(items, Sized(b));
      Regroup(written, BigEndian(|b|, 8), b);
      written := written + BigEndian(|b|, 8);
      written := written + b;
      items := items + [Sized(b)];
    }

    method WriteUint64(v: Int64)
      requires Valid()
      modifies this
      ensures Valid() && items == old(items) + [Word(v)]
    {
      EncodeAppend(items, Word(v));
      written := written + BigEndian(Unsigned(v), 8);
      items := items + [Word(v)];
    }

    method Sum() returns (d: Digest)
      requires Valid()
      ensures d == sum(Encode(items))
    {
      d := sum(written);
    }
  }
}
