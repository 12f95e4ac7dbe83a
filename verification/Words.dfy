/** Machine words, little-endian byte groups and the small arithmetic shared by every module. */
module Words {

  datatype Option<+T> = None | Some(value: T)

  type Byte = b: int | 0 <= b < 0x100
  type Word = w: int | 0 <= w < 0x1_0000_0000

  const TWO32: int := 0x1_0000_0000

  /** The operand sizes of the machine, in bytes. */
  predicate IsSize(n: int) {
    n == 1 || n == 2 || n == 4
  }

  /** 2^(8n) for an operand size n. */
  function Range(size: int): int
    requires IsSize(size)
  {
    if size == 1 then 0x100 else if size == 2 then 0x1_0000 else TWO32
  }

  function Half(size: int): int
    requires IsSize(size)
  {
    if size == 1 then 0x80 else if size == 2 then 0x8000 else 0x8000_0000
  }

  function Mask32(x: int): Word {
    x % TWO32
  }

  /** Two's-complement reading of an unsigned value of `size` bytes. */
  function Signed(v: int, size: int): int
    requires IsSize(size)
  {
    if v >= Half(size) then v - Range(size) else v
  }

  /** The unsigned value of a little-endian group of 1, 2 or 4 bytes. */
  function Num(bs: seq<Byte>): Word
    requires IsSize(|bs|)
  {
    var b0: int := bs[0];
    if |bs| == 1 then b0
    else
      var b1: int := bs[1];
      if |bs| == 2 then b0 + 0x100 * b1
      else
        var b2: int, b3: int := bs[2], bs[3];
        b0 + 0x100 * b1 + 0x1_0000 * b2 + 0x100_0000 * b3
  }

  /** The little-endian bytes of v, truncated to `size` bytes. */
  function Bytes(v: int, size: int): (bs: seq<Byte>)
    requires IsSize(size)
    ensures |bs| == size
  {
    if size == 1 then [v % 0x100]
    else if size == 2 then [v % 0x100, v / 0x100 % 0x100]
    else [v % 0x100, v / 0x100 % 0x100, v / 0x1_0000 % 0x100, v / 0x100_0000 % 0x100]
  }

  lemma NumOfBytes(v: int, size: int)
    requires IsSize(size)
    ensures Num(Bytes(v, size)) == v % Range(size)
  {
    var q1 := v / 0x100;
    var q2 := q1 / 0x100;
    var q3 := q2 / 0x100;
    assert v / 0x1_0000 == q2;
    assert v / 0x100_0000 == q3;
    assert v == v % 0x100 + 0x100 * (q1 % 0x100) + 0x1_0000 * (q2 % 0x100) + 0x100_0000 * q3;
    assert q3 == q3 % 0x100 + 0x100 * (q3 / 0x100);
  }

  lemma BytesOfNum(bs: seq<Byte>)
    requires IsSize(|bs|)
    ensures Bytes(Num(bs), |bs|) == bs
    ensures Num(bs) < Range(|bs|)
  {
    if |bs| == 4 {
      var v := Num(bs);
      var b1: int, b2: int, b3: int := bs[1], bs[2], bs[3];
      assert v / 0x100 == b1 + 0x100 * b2 + 0x1_0000 * b3;
      assert v / 0x1_0000 == b2 + 0x100 * b3;
      assert v / 0x100_0000 == b3;
    }
  }

  function Max(a: int, b: int): int {
    if a >= b then a else b
  }

  function Min(a: int, b: int): int {
    if a <= b then a else b
  }

  function Pow2(n: nat): (p: int)
    ensures p >= 1
  {
    if n == 0 then 1 else 2 * Pow2(n - 1)
  }

  /** 0 .. n. */
  function UpTo(n: nat): (s: set<nat>)
    ensures forall i: nat :: i in s <==> i <= n
  {
    if n == 0 then {0} else UpTo(n - 1) + {n}
  }

  /** n zero bytes. */
  function Zeros(n: nat): (z: seq<Byte>)
    ensures |z| == n && forall i :: 0 <= i < n ==> z[i] == 0
  {
    seq(n, _ => 0)
  }

  lemma Pow2Word()
    ensures Pow2(32) == TWO32
  {
    assert Pow2(8) == 0x100;
    assert Pow2(14) == 0x4000 && Pow2(20) == 0x10_0000 && Pow2(26) == 0x400_0000;
  }
}
