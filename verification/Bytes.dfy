/**
 Bytes, fixed-width words and exclusive or, shared by every module of the model.
 */
module Bytes {

  type byte = b: int | 0 <= b < 256

  const UINT32_LIMIT: nat := 0x1_0000_0000
  const UINT64_LIMIT: nat := 0x1_0000_0000_0000_0000
  const UINT128_LIMIT: nat := 0x1_0000_0000_0000_0000_0000_0000_0000_0000

  /** A sixteen-byte initialisation vector or cipher block. */
  type Block16 = s: seq<byte> | |s| == 16 witness seq(16, _ => 0)

  const ZERO_BLOCK: Block16 := [0, 0, 0, 0, 0, 0, 0, 0, 0, 0, 0, 0, 0, 0, 0, 0]

  datatype Option<+T> = None | Some(value: T)

  /** Pieces of data, one behind the other. */
  function Joined(chunks: seq<seq<byte>>): seq<byte> {
    if chunks == [] then [] else Joined(chunks[..|chunks| - 1]) + chunks[|chunks| - 1]
  }

  function Min(a: int, b: int): int {
    if a <= b then a else b
  }

  function Max(a: int, b: int): int {
    if a >= b then a else b
  }

  /** The bitwise exclusive or of two natural numbers. */
  function XorBits(a: nat, b: nat): (r: nat)
    decreases a + b
  {
    if a == 0 && b == 0 then 0
    else (if a % 2 != b % 2 then 1 else 0) + 2 * XorBits(a / 2, b / 2)
  }

  function Xor(a: byte, b: byte): (r: byte) {
    XorBitsBound(a, b, 8);
    XorBits(a, b)
  }

  lemma {:induction false} XorBitsBound(a: nat, b: nat, n: nat)
    requires a < Pow2(n) && b < Pow2(n)
    ensures XorBits(a, b) < Pow2(n)
    decreases n
  {
    if n != 0 {
      XorBitsBound(a / 2, b / 2, n - 1);
    }
  }

  function Pow2(n: nat): nat {
    if n == 0 then 1 else 2 * Pow2(n - 1)
  }

  lemma {:induction false} XorBitsInvolutive(a: nat, b: nat)
    ensures XorBits(XorBits(a, b), b) == a
    decreases a + b
  {
    if a + b != 0 {
      XorBitsInvolutive(a / 2, b / 2);
      var x := XorBits(a / 2, b / 2);
      assert XorBits(a, b) / 2 == x;
    }
  }

  /** Adding the same mask twice gives the byte back. */
  lemma {:induction false} XorInvolutive(a: byte, b: byte)
    ensures Xor(Xor(a, b), b) == a
  {
    XorBitsInvolutive(a, b);
  }

  lemma {:induction false} XorBitsCommutes(a: nat, b: nat)
    ensures XorBits(a, b) == XorBits(b, a)
    decreases a + b
  {
    if a + b != 0 {
      XorBitsCommutes(a / 2, b / 2);
    }
  }

  lemma {:induction false} XorBitsZero(a: nat)
    ensures XorBits(a, 0) == a
  {
    if a != 0 {
      XorBitsZero(a / 2);
    }
  }

  lemma {:induction false} XorZero(a: byte)
    ensures Xor(a, 0) == a
  {
    XorBitsZero(a);
  }

  /** Two masks give the byte back exactly when they are one mask. */
  lemma {:induction false} TwoMasks(b: byte, m1: byte, m2: byte)
    ensures Xor(Xor(b, m1), m2) == b <==> m1 == m2
  {
    XorInvolutive(b, m1);
    var x := Xor(b, m1);
    XorBitsCommutes(x, m1);
    XorBitsCommutes(x, m2);
    XorBitsInvolutive(m1, x);
    XorBitsInvolutive(m2, x);
  }

  /** The number whose big-endian digits are the given bytes. */
  function BigEndian(s: seq<byte>): (r: nat)
    decreases |s|
  {
    if s == [] then 0 else BigEndian(s[..|s| - 1]) * 256 + s[|s| - 1]
  }

  /** The `n` big-endian digits of a number, dropping what does not fit. */
  function ToBigEndian(v: nat, n: nat): (r: seq<byte>)
    ensures |r| == n
  {
    seq(n, i requires 0 <= i < n => (v / Pow256(n - 1 - i)) % 256)
  }

  lemma {:induction false} ToBigEndianStep(v: nat, n: nat)
    requires n > 0
    ensures ToBigEndian(v, n) == ToBigEndian(v / 256, n - 1) + [v % 256]
  {
    var r, q := ToBigEndian(v, n), ToBigEndian(v / 256, n - 1);
    forall i | 0 <= i < n - 1
      ensures r[i] == q[i]
    {
      DivDiv(v, 256, Pow256(n - 2 - i));
      assert Pow256(n - 1 - i) == 256 * Pow256(n - 2 - i);
      assert r[i] == (v / Pow256(n - 1 - i)) % 256;
      assert q[i] == (v / 256 / Pow256(n - 2 - i)) % 256;
    }
    assert r[n - 1] == (v / Pow256(0)) % 256;
  }

  function Pow256(n: nat): (r: nat)
    ensures r > 0
  {
    if n == 0 then 1 else 256 * Pow256(n - 1)
  }

  lemma {:induction false} BigEndianBound(s: seq<byte>)
    ensures BigEndian(s) < Pow256(|s|)
    decreases |s|
  {
    if s != [] {
      BigEndianBound(s[..|s| - 1]);
    }
  }

  lemma {:induction false} BigEndianSplit(a: seq<byte>, b: seq<byte>)
    ensures BigEndian(a + b) == BigEndian(a) * Pow256(|b|) + BigEndian(b)
    decreases |b|
  {
    if b == [] {
      assert a + b == a;
    } else {
      var front := b[..|b| - 1];
      assert (a + b)[..|a + b| - 1] == a + front;
      BigEndianSplit(a, front);
      assert BigEndian(a) * Pow256(|b|) == BigEndian(a) * Pow256(|front|) * 256;
    }
  }

  /** Leading zeros count for nothing. */
  lemma {:induction false} BigEndianZeros(n: nat, s: seq<byte>)
    ensures BigEndian(seq(n, _ => 0) + s) == BigEndian(s)
    decreases n
  {
    var zeros := seq<byte>(n, _ => 0);
    BigEndianSplit(zeros, s);
    OnlyZeros(zeros);
  }

  lemma {:induction false} OnlyZeros(s: seq<byte>)
    requires forall i :: 0 <= i < |s| ==> s[i] == 0
    ensures BigEndian(s) == 0
  {
    if s != [] {
      OnlyZeros(s[..|s| - 1]);
    }
  }

  /** Writing a number out in bytes and reading it back loses nothing but the overflow. */
  lemma {:induction false} BigEndianRoundTrip(v: nat, n: nat)
    requires v < Pow256(n)
    ensures BigEndian(ToBigEndian(v, n)) == v
    decreases n
  {
    if n != 0 {
      ToBigEndianStep(v, n);
      BigEndianRoundTrip(v / 256, n - 1);
      assert ToBigEndian(v, n)[..n - 1] == ToBigEndian(v / 256, n - 1);
    }
  }

  /** The leading digits of a number are the digits of its quotient. */
  lemma {:induction false} ToBigEndianPrefix(v: nat, n: nat, k: nat)
    ensures ToBigEndian(v, n + k)[..n] == ToBigEndian(v / Pow256(k), n)
    decreases k
  {
    if k != 0 {
      ToBigEndianStep(v, n + k);
      assert ToBigEndian(v, n + k)[..n] == ToBigEndian(v / 256, n + k - 1)[..n];
      ToBigEndianPrefix(v / 256, n, k - 1);
      DivDiv(v, 256, Pow256(k - 1));
    }
  }

  lemma {:induction false} DivDiv(v: nat, a: nat, b: nat)
    requires a > 0 && b > 0
    ensures a * b > 0
    ensures v / a / b == v / (a * b)
  {
    var q := v / a;
    var s := q / b;
    var r := (v % a) + a * (q % b);
    assert v == a * q + v % a;
    assert q == b * s + q % b;
    assert a * q == a * (b * s) + a * (q % b);
    assert a * (b * s) == (a * b) * s;
    assert v == (a * b) * s + r;
    assert a * (q % b) <= a * (b - 1) by {
      MulLe(q % b, b - 1, a);
    }
    assert a * (b - 1) == a * b - a;
    assert 0 <= r < a * b;
    DivUnique(v, a * b, s, r);
  }

  lemma {:induction false} MulLe(x: nat, y: nat, a: nat)
    requires x <= y
    ensures a * x <= a * y
  {
  }

  /** A quotient and remainder are determined by the division equation. */
  lemma {:induction false} DivUnique(v: int, d: nat, q: int, r: nat)
    requires d > 0
    requires v == d * q + r
    requires r < d
    ensures v / d == q
    ensures v % d == r
  {
    var k := v / d - q;
    assert d * k == d * (v / d) - d * q;
    MultipleIsFar(d, k);
  }

  lemma {:induction false} MultipleIsFar(d: nat, k: int)
    ensures k >= 1 ==> d * k >= d
    ensures k <= -1 ==> d * k <= 0 - d
  {
  }
}
