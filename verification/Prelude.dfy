/** Types shared by every module of the model. */
module Prelude {

  datatype Option<+T> = None | Some(value: T)

  /** A byte, kept as an integer so that big-endian arithmetic stays linear. */
  type Byte = b: int | 0 <= b < 256

  const TWO_63 := 0x8000_0000_0000_0000
  const TWO_64 := 0x1_0000_0000_0000_0000

  /** A Go byte slice or string: its length is a non-negative int64. */
  type Bytes = s: seq<Byte> | |s| < TWO_63

  /** A Go int64. */
  type Int64 = x: int | -TWO_63 <= x < TWO_63

  /** The int64 a computation leaves behind when it overflows. */
  function Wrap64(x: int): (r: Int64)
    ensures (x - r) % TWO_64 == 0
    ensures -TWO_63 <= x < TWO_63 ==> r == x
  {
    var m := x % TWO_64;
    if m < TWO_63 then m else m - TWO_64
  }

  const HASH_SIZE := 32

  /** A SHA-256 sum. */
  type Digest = s: seq<Byte> | |s| == HASH_SIZE witness seq(32, _ => 0)

  /** SHA-256, about which nothing is assumed but the length of its result. */
  type HashFn = seq<Byte> -> Digest

  /** The bytes of an ASCII literal. */
  function Ascii(s: string): (r: Bytes)
    requires |s| < TWO_63
    ensures |r| == |s|
    ensures forall i :: 0 <= i < |s| ==> r[i] == s[i] as int % 256
  {
    seq(|s|, i requires 0 <= i < |s| => s[i] as int % 256)
  }

  lemma Regroup(a: seq<Byte>, b: seq<Byte>, c: seq<Byte>)
    ensures (a + b) + c == a + (b + c)
  {
  }
}
