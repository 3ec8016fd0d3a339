/**
 The initialisation vector of a WAL segment, src/access/open_pg_tde_xlog_smgr.c:640-708,
 in both of its forms: the native 128-bit addition and the fallback on two 64-bit halves.
 */
module WalIv {
  import opened Bytes
  import opened StreamCipher

  const BIT_32: nat := 0x1_0000_0000
  const BIT_48: nat := 0x1_0000_0000_0000
  const BIT_80: nat := 0x1_0000_0000_0000_0000_0000
  const BIT_96: nat := 0x1_0000_0000_0000_0000_0000_0000
  const BIT_112: nat := 0x1_0000_0000_0000_0000_0000_0000_0000

  function ClearBit32(v: nat): (r: nat)
    ensures r <= v
  {
    v - ((v / BIT_32) % 2) * BIT_32
  }

  /** What the segment adds to the base vector; the shift keeps only 16 bits of the timeline. */
  function IvOffset(tli: nat, segno: nat): nat {
    (tli * BIT_112) % UINT128_LIMIT + segno * BIT_32
  }

  function IvValue(tli: nat, segno: nat, base: nat): nat {
    (ClearBit32(base) + IvOffset(tli, segno)) % UINT128_LIMIT
  }

  /** The native form. */
  function IvPrefix(tli: nat, segno: nat, baseIv: Block16): (iv: Block16) {
    ToBigEndian(IvValue(tli, segno, BigEndian(baseIv)), 16)
  }

  /** The fallback's two words, high and low. */
  function IvHalves(tli: nat, segno: nat, baseHi: nat, base: nat): (nat, nat) {
    var baseLo := ClearBit32(base);
    var offsetLo := (segno * BIT_32) % UINT64_LIMIT;
    var offsetHi := segno / BIT_32 + (tli % 65536) * BIT_48;
    var ivLo := (baseLo + offsetLo) % UINT64_LIMIT;
    var carry := if ivLo < baseLo then 1 else 0;
    var ivHi := (baseHi + offsetHi + carry) % UINT64_LIMIT;
    (ivHi, ivLo)
  }

  /** The fallback: two 64-bit halves and a carry. */
  function IvPrefixByHalves(tli: nat, segno: nat, baseIv: Block16): (iv: Block16) {
    var (hi, lo) := IvHalves(tli, segno, BigEndian(baseIv[..8]), BigEndian(baseIv[8..]));
    ToBigEndian(hi, 8) + ToBigEndian(lo, 8)
  }

  lemma {:induction false} Powers()
    ensures Pow256(4) == BIT_32
    ensures Pow256(8) == UINT64_LIMIT
    ensures Pow256(12) == BIT_96
    ensures Pow256(16) == UINT128_LIMIT
  {
  }

  lemma {:induction false} ToBigEndianSplit(hi: nat, lo: nat, n: nat, k: nat)
    requires lo < Pow256(k)
    ensures ToBigEndian(hi * Pow256(k) + lo, n + k) == ToBigEndian(hi, n) + ToBigEndian(lo, k)
    decreases k
  {
    if k == 0 {
      assert ToBigEndian(hi, n) + ToBigEndian(lo, 0) == ToBigEndian(hi, n);
    } else {
      var v := hi * Pow256(k) + lo;
      assert v == 256 * (hi * Pow256(k - 1) + lo / 256) + lo % 256;
      DivUnique(v, 256, hi * Pow256(k - 1) + lo / 256, lo % 256);
      ToBigEndianSplit(hi, lo / 256, n, k - 1);
      ToBigEndianStep(v, n + k);
      ToBigEndianStep(lo, k);
    }
  }

  /** Adding by halves with a carry is adding modulo 2^128. */
  lemma {:induction false} HalvesAddUp(baseHi: nat, baseLo: nat, offsetHi: nat, offsetLo: nat)
    requires baseLo < UINT64_LIMIT && offsetLo < UINT64_LIMIT
    ensures var ivLo := (baseLo + offsetLo) % UINT64_LIMIT;
            var carry := if ivLo < baseLo then 1 else 0;
            var ivHi := (baseHi + offsetHi + carry) % UINT64_LIMIT;
            (baseHi * UINT64_LIMIT + baseLo + offsetHi * UINT64_LIMIT + offsetLo) % UINT128_LIMIT == ivHi * UINT64_LIMIT + ivLo
  {
    var sum := baseLo + offsetLo;
    var ivLo := sum % UINT64_LIMIT;
    var carry := if ivLo < baseLo then 1 else 0;
    assert sum == carry * UINT64_LIMIT + ivLo;
    var hi := baseHi + offsetHi + carry;
    var total := baseHi * UINT64_LIMIT + baseLo + offsetHi * UINT64_LIMIT + offsetLo;
    assert total == hi * UINT64_LIMIT + ivLo;
    assert hi == (hi / UINT64_LIMIT) * UINT64_LIMIT + hi % UINT64_LIMIT;
    DivUnique(total, UINT128_LIMIT, hi / UINT64_LIMIT, (hi % UINT64_LIMIT) * UINT64_LIMIT + ivLo);
  }

  lemma {:induction false} ClearBitInLowHalf(hi: nat, lo: nat)
    requires lo < UINT64_LIMIT
    ensures ClearBit32(hi * UINT64_LIMIT + lo) == hi * UINT64_LIMIT + ClearBit32(lo)
  {
    DivUnique(hi * UINT64_LIMIT + lo, BIT_32, hi * BIT_32 + lo / BIT_32, lo % BIT_32);
    DivUnique(hi * BIT_32 + lo / BIT_32, 2, hi * (BIT_32 / 2) + lo / BIT_32 / 2, (lo / BIT_32) % 2);
  }

  lemma {:induction false} OffsetByHalves(tli: nat, segno: nat)
    ensures IvOffset(tli, segno) ==
            (segno / BIT_32 + (tli % 65536) * BIT_48) * UINT64_LIMIT + (segno * BIT_32) % UINT64_LIMIT
  {
  }

  lemma {:induction false} HalvesValue(tli: nat, segno: nat, hi: nat, lo: nat)
    requires lo < UINT64_LIMIT
    ensures var (ivHi, ivLo) := IvHalves(tli, segno, hi, lo);
            && IvValue(tli, segno, hi * UINT64_LIMIT + lo) == ivHi * UINT64_LIMIT + ivLo
            && ivLo < UINT64_LIMIT
  {
    ClearBitInLowHalf(hi, lo);
    OffsetByHalves(tli, segno);
    HalvesAddUp(hi, ClearBit32(lo), segno / BIT_32 + (tli % 65536) * BIT_48, (segno * BIT_32) % UINT64_LIMIT);
  }

  lemma {:induction false} BaseByHalves(baseIv: Block16)
    ensures BigEndian(baseIv) == BigEndian(baseIv[..8]) * UINT64_LIMIT + BigEndian(baseIv[8..])
    ensures BigEndian(baseIv[8..]) < UINT64_LIMIT
  {
    Powers();
    assert baseIv == baseIv[..8] + baseIv[8..];
    BigEndianSplit(baseIv[..8], baseIv[8..]);
    BigEndianBound(baseIv[8..]);
  }

  /** The fallback is byte-identical to the native form. */
  lemma {:induction false} FallbackAgrees(tli: nat, segno: nat, baseIv: Block16)
    ensures IvPrefixByHalves(tli, segno, baseIv) == IvPrefix(tli, segno, baseIv)
  {
    var hi, lo := BigEndian(baseIv[..8]), BigEndian(baseIv[8..]);
    BaseByHalves(baseIv);
    HalvesValue(tli, segno, hi, lo);
    var (ivHi, ivLo) := IvHalves(tli, segno, hi, lo);
    DigitsByHalves(ivHi, ivLo);
  }

  lemma {:induction false} DigitsByHalves(hi: nat, lo: nat)
    requires lo < UINT64_LIMIT
    ensures ToBigEndian(hi * UINT64_LIMIT + lo, 16) == ToBigEndian(hi, 8) + ToBigEndian(lo, 8)
  {
    Powers();
    ToBigEndianSplit(hi, lo, 8, 8);
  }

  lemma {:induction false} TimelineTruncates(tli: nat)
    ensures (tli * BIT_112) % UINT128_LIMIT == (tli % 65536) * BIT_112
  {
  }

  lemma {:induction false} LeadingDigits(v: nat, n: nat, k: nat)
    requires v / Pow256(k) < Pow256(n)
    ensures BigEndian(ToBigEndian(v, n + k)[..n]) == v / Pow256(k)
  {
    ToBigEndianPrefix(v, n, k);
    BigEndianRoundTrip(v / Pow256(k), n);
  }

  /** The upper 96 bits: the low 32 bits of the base neither carry nor disturb them. */
  lemma {:induction false} IvValueHigh(tli: nat, segno: nat, base: nat)
    ensures IvValue(tli, segno, base) / BIT_32 == (ClearBit32(base) / BIT_32 + (tli % 65536) * BIT_80 + segno) % BIT_96
  {
    TimelineTruncates(tli);
    var b := ClearBit32(base);
    var m := (tli % 65536) * BIT_80 + segno;
    HighPart(b, m);
  }

  lemma {:induction false} HighPart(b: nat, m: nat)
    ensures ((b + BIT_32 * m) % UINT128_LIMIT) / BIT_32 == (b / BIT_32 + m) % BIT_96
  {
  }

  /** The twelve bytes that reach the counter block, as a number. */
  lemma {:induction false} PrefixValue(tli: nat, segno: nat, baseIv: Block16)
    ensures BigEndian(IvPrefix(tli, segno, baseIv)[..12]) ==
            (ClearBit32(BigEndian(baseIv)) / BIT_32 + (tli % 65536) * BIT_80 + segno) % BIT_96
  {
    var base := BigEndian(baseIv);
    IvValueHigh(tli, segno, base);
    Powers();
    LeadingDigits(IvValue(tli, segno, base), 12, 4);
  }

  /**
   Under one base vector a counter block is used for exactly one sixteen-byte block of one
   segment, up to timelines that agree modulo 65536.
   */
  lemma {:induction false} CounterBlocksNeverCollide(baseIv: Block16, tli1: nat, segno1: nat, block1: nat, tli2: nat, segno2: nat, block2: nat)
    requires segno1 < UINT64_LIMIT && segno2 < UINT64_LIMIT
    requires block1 < UINT32_LIMIT && block2 < UINT32_LIMIT
    ensures CounterBlock(IvPrefix(tli1, segno1, baseIv), block1) == CounterBlock(IvPrefix(tli2, segno2, baseIv), block2)
            <==> tli1 % 65536 == tli2 % 65536 && segno1 == segno2 && block1 == block2
  {
    var iv1, iv2 := IvPrefix(tli1, segno1, baseIv), IvPrefix(tli2, segno2, baseIv);
    CounterBlockInjective(iv1, block1, iv2, block2);
    TimelineTruncates(tli1);
    TimelineTruncates(tli2);
    if iv1[..12] == iv2[..12] {
      PrefixValue(tli1, segno1, baseIv);
      PrefixValue(tli2, segno2, baseIv);
      var c := ClearBit32(BigEndian(baseIv)) / BIT_32;
      SameResidue(c, (tli1 % 65536) * BIT_80 + segno1, (tli2 % 65536) * BIT_80 + segno2);
      DivUnique((tli1 % 65536) * BIT_80 + segno1, BIT_80, tli1 % 65536, segno1);
      DivUnique((tli2 % 65536) * BIT_80 + segno2, BIT_80, tli2 % 65536, segno2);
    }
  }

  lemma {:induction false} SameResidue(c: nat, m1: nat, m2: nat)
    requires m1 < BIT_96 && m2 < BIT_96
    requires (c + m1) % BIT_96 == (c + m2) % BIT_96
    ensures m1 == m2
  {
  }

  /** The bits of a number with bit 32 cleared. */
  predicate WithoutBit32(v: nat, r: nat) {
    r % BIT_32 == v % BIT_32 && (r / BIT_32) % 2 == 0 && r / (2 * BIT_32) == v / (2 * BIT_32)
  }

  lemma {:induction false} ClearedIs(v: nat, r: nat)
    requires WithoutBit32(v, r)
    ensures ClearBit32(v) == r
  {
    assert v == BIT_32 * (v / BIT_32) + v % BIT_32;
    assert r == BIT_32 * (r / BIT_32) + r % BIT_32;
    DivDiv(v, BIT_32, 2);
    DivDiv(r, BIT_32, 2);
  }

  lemma {:induction false} ModOfSum(a: nat, b: nat, m: nat)
    requires m > 0
    ensures (a + b % m) % m == (a + b) % m
  {
    var q, r := (a + b % m) / m, (a + b % m) % m;
    assert a + b % m == m * q + r;
    assert b == m * (b / m) + b % m;
    assert a + b == m * (q + b / m) + r;
    DivUnique(a + b, m, q + b / m, r);
  }

  /** The vector as a number: the base without bit 32, plus the segment 32 bits up and the timeline 112 bits up, in 128 bits. */
  lemma {:induction false} PrefixIsASum(tli: nat, segno: nat, baseIv: Block16, r: nat)
    requires WithoutBit32(BigEndian(baseIv), r)
    ensures BigEndian(IvPrefix(tli, segno, baseIv)) == (r + tli * BIT_112 + segno * BIT_32) % UINT128_LIMIT
  {
    ClearedIs(BigEndian(baseIv), r);
    ModOfSum(r + segno * BIT_32, tli * BIT_112, UINT128_LIMIT);
    Powers();
    BigEndianRoundTrip(IvValue(tli, segno, BigEndian(baseIv)), 16);
  }
}
