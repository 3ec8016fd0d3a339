/**
 Piecewise encryption of a WAL buffer across key ranges, TDEXLogCryptBuffer of
 src/access/open_pg_tde_xlog_smgr.c:482-620.
 */
module WalCrypt {
  import opened Bytes
  import opened StreamCipher
  import opened WalIv
  import opened WalLocations
  import opened WalKeys

  /** Segments are at most 1 GB. */
  type SegSize = n: nat | 0 < n <= 0x4000_0000 witness 1

  /** One byte of the WAL, masked (or unmasked) under the key that governs its position. */
  function CryptByte(aes: BlockCipher, segSize: SegSize, key: Option<WalKey>, l: WalLocation, b: byte): byte {
    match key
    case None => b
    case Some(k) =>
      Xor(b, KeystreamByte(aes, k.key, IvPrefix(l.tli, l.lsn / segSize, k.baseIv), l.lsn % segSize))
  }

  lemma {:induction false} CryptByteInvolutive(aes: BlockCipher, segSize: SegSize, key: Option<WalKey>, l: WalLocation, b: byte)
    ensures CryptByte(aes, segSize, key, l, CryptByte(aes, segSize, key, l, b)) == b
  {
    if key.Some? {
      var k := key.value;
      XorInvolutive(b, KeystreamByte(aes, k.key, IvPrefix(l.tli, l.lsn / segSize, k.baseIv), l.lsn % segSize));
    }
  }

  /** What a byte at a position is masked with under a key, or under none. */
  function Mask(aes: BlockCipher, segSize: SegSize, key: Option<WalKey>, l: WalLocation): byte {
    match key
    case None => 0
    case Some(k) => KeystreamByte(aes, k.key, IvPrefix(l.tli, l.lsn / segSize, k.baseIv), l.lsn % segSize)
  }

  lemma {:induction false} CryptByteMasks(aes: BlockCipher, segSize: SegSize, key: Option<WalKey>, l: WalLocation, b: byte)
    ensures CryptByte(aes, segSize, key, l, b) == Xor(b, Mask(aes, segSize, key, l))
  {
    XorZero(b);
  }

  // ----- The part of a buffer that one range covers

  function StartLsn(r: WalRange, loc: WalLocation): nat {
    if loc.tli > r.start.tli then loc.lsn else Max(loc.lsn, r.start.lsn)
  }

  function EndLsn(r: WalRange, end: WalLocation): nat {
    if end.tli < r.end.tli then end.lsn else Min(end.lsn, r.end.lsn)
  }

  /** The overlap test of the program, on the first and one-past-last positions of the data. */
  predicate Overlaps(r: WalRange, loc: WalLocation, count: nat) {
    Before(loc, r.end) && Before(r.start, At(loc, count))
  }

  lemma {:induction false} CoversIsBetween(r: WalRange, loc: WalLocation, count: nat, k: nat)
    requires Before(r.start, r.end)
    requires k < count && Overlaps(r, loc, count)
    ensures Covers(r, At(loc, k)) <==> StartLsn(r, loc) <= loc.lsn + k < EndLsn(r, At(loc, count))
  {
  }

  lemma {:induction false} OffsetInSegment(segSize: SegSize, segno: nat, lsn: nat)
    requires segno * segSize <= lsn <= segno * segSize + segSize
    ensures lsn % segSize == if lsn == segno * segSize + segSize then 0 else lsn - segno * segSize
    ensures lsn < segno * segSize + segSize ==> lsn / segSize == segno
  {
    if lsn < segno * segSize + segSize {
      DivUnique(lsn, segSize, segno, lsn - segno * segSize);
    } else {
      assert segSize * (segno + 1) == segno * segSize + segSize;
      DivUnique(lsn, segSize, segno + 1, 0);
    }
  }

  function DecryptOffset(segSize: SegSize, r: WalRange, loc: WalLocation): nat {
    StartLsn(r, loc) % segSize
  }

  function DecryptEnd(segSize: SegSize, r: WalRange, loc: WalLocation, offset: nat, count: nat): nat {
    var end := EndLsn(r, At(loc, count)) % segSize;
    if end == 0 then offset + count else end
  }

  /**
   For data inside one segment the clipped bounds are offsets inside the data, in order, and
   they enclose exactly the positions of the data that the range covers.
   */
  lemma {:induction false} ClippedBounds(segSize: SegSize, r: WalRange, segno: nat, offset: nat, loc: WalLocation, count: nat)
    requires 0 < count && offset + count <= segSize
    requires loc.lsn == segno * segSize + offset
    requires Before(r.start, r.end)
    requires Overlaps(r, loc, count)
    ensures offset <= DecryptOffset(segSize, r, loc) < DecryptEnd(segSize, r, loc, offset, count) <= offset + count
    ensures forall k :: 0 <= k < count ==>
      (Covers(r, At(loc, k)) <==> DecryptOffset(segSize, r, loc) <= offset + k < DecryptEnd(segSize, r, loc, offset, count))
  {
    var s, e := StartLsn(r, loc), EndLsn(r, At(loc, count));
    assert loc.lsn <= s < e <= loc.lsn + count;
    OffsetInSegment(segSize, segno, s);
    OffsetInSegment(segSize, segno, e);
    forall k | 0 <= k < count
      ensures Covers(r, At(loc, k)) <==> DecryptOffset(segSize, r, loc) <= offset + k < DecryptEnd(segSize, r, loc, offset, count)
    {
      CoversIsBetween(r, loc, count, k);
    }
  }

  lemma {:induction false} NoOverlapNoCover(r: WalRange, loc: WalLocation, count: nat, k: nat)
    requires !Overlaps(r, loc, count) && k < count
    ensures !Covers(r, At(loc, k))
  {
  }

  /** A position covered by one range is covered by no earlier one. */
  lemma {:induction false} NotCoveredEarlier(keys: seq<WalRange>, i: nat, l: WalLocation)
    requires InOrder(keys) && i < |keys| && !Before(l, keys[i].start)
    ensures KeyAt(keys[..i], l) == None
    decreases i
  {
    if i > 0 {
      assert keys[..i][..i - 1] == keys[..i - 1];
      assert !Before(keys[i].start, keys[i - 1].end);
      assert !Before(l, keys[i - 1].start);
      NotCoveredEarlier(keys, i - 1, l);
    }
  }

  // ----- The loop over the cached ranges

  /** Byte `k` of the output: masked if some range encrypts its position, otherwise what was there. */
  ghost function CryptedByte(aes: BlockCipher, segSize: SegSize, keys: seq<WalRange>, loc: WalLocation, count: nat,
                             buf0: seq<byte>, out0: seq<byte>, k: nat): byte
    requires count <= |buf0| && k < |out0|
  {
    if k < count && KeyAt(keys, At(loc, k)).Some?
    then CryptByte(aes, segSize, KeyAt(keys, At(loc, k)), At(loc, k), buf0[k])
    else out0[k]
  }

  ghost predicate Crypted(aes: BlockCipher, segSize: SegSize, keys: seq<WalRange>, loc: WalLocation, count: nat,
                          buf0: seq<byte>, out0: seq<byte>, out: seq<byte>)
    requires count <= |buf0|
  {
    && |out| == |out0|
    && forall k :: 0 <= k < |out| ==> out[k] == CryptedByte(aes, segSize, keys, loc, count, buf0, out0, k)
  }

  /** The stream cipher on a slice of a segment masks each byte for its own WAL position. */
  lemma {:induction false} SliceIsCryptByte(aes: BlockCipher, segSize: SegSize, key: WalKey, segno: nat, offset: nat, loc: WalLocation,
                                            data: seq<byte>, k: nat)
    requires loc.lsn == segno * segSize + offset
    requires offset + |data| <= segSize && k < |data|
    ensures CtrXor(aes, key.key, IvPrefix(loc.tli, segno, key.baseIv), offset, data)[k] ==
            CryptByte(aes, segSize, Some(key), At(loc, k), data[k])
  {
    OffsetInSegment(segSize, segno, loc.lsn + k);
  }

  /** A range that is not encrypted or does not overlap changes nothing. */
  lemma {:induction false} RangeSkipped(aes: BlockCipher, segSize: SegSize, keys: seq<WalRange>, i: nat, loc: WalLocation, count: nat,
                                        buf0: seq<byte>, out0: seq<byte>, out: seq<byte>)
    requires InOrder(keys) && i < |keys|
    requires count <= |buf0|
    requires !(IsSet(keys[i].start) && keys[i].rangeType == Encrypted && Overlaps(keys[i], loc, count))
    requires Crypted(aes, segSize, keys[..i], loc, count, buf0, out0, out)
    ensures Crypted(aes, segSize, keys[..i + 1], loc, count, buf0, out0, out)
  {
    assert keys[..i + 1][..i] == keys[..i];
    forall k | 0 <= k < |out|
      ensures out[k] == CryptedByte(aes, segSize, keys[..i + 1], loc, count, buf0, out0, k)
    {
      if k < count {
        if Covers(keys[i], At(loc, k)) {
          NotCoveredEarlier(keys, i, At(loc, k));
          if !Overlaps(keys[i], loc, count) {
            NoOverlapNoCover(keys[i], loc, count, k);
          }
        }
      }
    }
  }

  /** What one stream-cipher call does to the buffer. */
  ghost predicate Sliced(aes: BlockCipher, segSize: SegSize, key: WalKey, segno: nat, loc: WalLocation,
                         from: nat, to: nat, decOff: nat, source: seq<byte>, before: seq<byte>, out: seq<byte>)
    requires from <= to <= |before| && to <= |source|
  {
    && |out| == |before|
    && out[from..to] == CtrXor(aes, key.key, IvPrefix(loc.tli, segno, key.baseIv), decOff, source[from..to])
    && forall k :: 0 <= k < |out| && !(from <= k < to) ==> out[k] == before[k]
  }

  /** What one more range does to the byte at a position: its key if it covers it, and nothing otherwise. */
  lemma {:induction false} OneMoreRange(aes: BlockCipher, segSize: SegSize, keys: seq<WalRange>, i: nat, loc: WalLocation, count: nat,
                                       buf0: seq<byte>, out0: seq<byte>, k: nat)
    requires InOrder(keys) && i < |keys| && IsSet(keys[i].start) && keys[i].rangeType == Encrypted
    requires count <= |buf0| && k < |out0|
    ensures CryptedByte(aes, segSize, keys[..i + 1], loc, count, buf0, out0, k)
      == if k < count && Covers(keys[i], At(loc, k)) then CryptByte(aes, segSize, Some(keys[i].key), At(loc, k), buf0[k])
         else CryptedByte(aes, segSize, keys[..i], loc, count, buf0, out0, k)
  {
    assert keys[..i + 1][..i] == keys[..i];
    if k < count && Covers(keys[i], At(loc, k)) {
      NotCoveredEarlier(keys, i, At(loc, k));
    }
  }

  /** A position that one range covers was not touched before, in place or not. */
  lemma {:induction false} Untouched(aes: BlockCipher, segSize: SegSize, keys: seq<WalRange>, i: nat, loc: WalLocation, count: nat,
                                    buf0: seq<byte>, out0: seq<byte>, before: seq<byte>, k: nat)
    requires InOrder(keys) && i < |keys| && count <= |buf0| && k < count && k < |out0|
    requires Covers(keys[i], At(loc, k)) && Crypted(aes, segSize, keys[..i], loc, count, buf0, out0, before)
    ensures before[k] == out0[k]
  {
    NotCoveredEarlier(keys, i, At(loc, k));
  }

  lemma {:induction false} RangeTurn(aes: BlockCipher, segSize: SegSize, keys: seq<WalRange>, i: nat, segno: nat, offset: nat, loc: WalLocation,
                                     count: nat, decOff: nat, decEnd: nat,
                                     buf0: seq<byte>, out0: seq<byte>, source: seq<byte>, before: seq<byte>, out: seq<byte>)
    requires InOrder(keys) && i < |keys| && IsSet(keys[i].start) && keys[i].rangeType == Encrypted
    requires count <= |buf0| && count <= |out0| && offset + count <= segSize
    requires loc.lsn == segno * segSize + offset
    requires offset <= decOff < decEnd <= offset + count
    requires forall k :: 0 <= k < count ==> (Covers(keys[i], At(loc, k)) <==> decOff <= offset + k < decEnd)
    requires Crypted(aes, segSize, keys[..i], loc, count, buf0, out0, before)
    requires |source| == |buf0|
    requires (source == before && buf0 == out0) || source == buf0
    requires Sliced(aes, segSize, keys[i].key, segno, loc, decOff - offset, decEnd - offset, decOff, source, before, out)
    ensures Crypted(aes, segSize, keys[..i + 1], loc, count, buf0, out0, out)
  {
    forall k | 0 <= k < |out|
      ensures out[k] == CryptedByte(aes, segSize, keys[..i + 1], loc, count, buf0, out0, k)
    {
      assert k < count ==> (Covers(keys[i], At(loc, k)) <==> decOff - offset <= k < decEnd - offset);
      ByteTurn(aes, segSize, keys, i, segno, loc, count, decOff - offset, decEnd - offset, decOff, buf0, out0, source, before, out, k);
    }
  }

  lemma {:induction false} ByteTurn(aes: BlockCipher, segSize: SegSize, keys: seq<WalRange>, i: nat, segno: nat, loc: WalLocation,
                                    count: nat, from: nat, to: nat, decOff: nat,
                                    buf0: seq<byte>, out0: seq<byte>, source: seq<byte>, before: seq<byte>, out: seq<byte>, k: nat)
    requires InOrder(keys) && i < |keys| && IsSet(keys[i].start) && keys[i].rangeType == Encrypted
    requires count <= |buf0| && count <= |out0| && from < to <= count && k < |out0|
    requires decOff + (to - from) <= segSize && loc.lsn + from == segno * segSize + decOff
    requires k < count ==> (Covers(keys[i], At(loc, k)) <==> from <= k < to)
    requires Crypted(aes, segSize, keys[..i], loc, count, buf0, out0, before)
    requires |source| == |buf0| && ((source == before && buf0 == out0) || source == buf0)
    requires Sliced(aes, segSize, keys[i].key, segno, loc, from, to, decOff, source, before, out)
    ensures out[k] == CryptedByte(aes, segSize, keys[..i + 1], loc, count, buf0, out0, k)
  {
    OneMoreRange(aes, segSize, keys, i, loc, count, buf0, out0, k);
    if from <= k < to {
      Untouched(aes, segSize, keys, i, loc, count, buf0, out0, before, k);
      SlicedByte(aes, segSize, keys[i].key, segno, loc, from, to, decOff, source, before, out, k);
    }
  }

  lemma {:induction false} SlicedByte(aes: BlockCipher, segSize: SegSize, key: WalKey, segno: nat, loc: WalLocation,
                                      from: nat, to: nat, decOff: nat, source: seq<byte>, before: seq<byte>, out: seq<byte>, k: nat)
    requires from <= k < to <= |before| && to <= |source|
    requires decOff + (to - from) <= segSize && loc.lsn + from == segno * segSize + decOff
    requires Sliced(aes, segSize, key, segno, loc, from, to, decOff, source, before, out)
    ensures out[k] == CryptByte(aes, segSize, Some(key), At(loc, k), source[k])
  {
    SliceIsCryptByte(aes, segSize, key, segno, decOff, At(loc, from), source[from..to], k - from);
    assert At(At(loc, from), k - from) == At(loc, k);
    assert out[k] == out[from..to][k - from];
  }

  /** Crypts the part of the buffer between two indices under a range's key. */
  method CryptSlice(aes: BlockCipher, segSize: SegSize, key: WalKey, segno: nat, loc: WalLocation, from: nat, to: nat, decOff: nat,
                    buf: array<byte>, out: array<byte>)
    requires from <= to <= buf.Length && to <= out.Length && decOff + (to - from) <= segSize
    modifies out
    ensures Sliced(aes, segSize, key, segno, loc, from, to, decOff, old(buf[..]), old(out[..]), out[..])
  {
    ghost var source, before := buf[..], out[..];
    var iv := IvPrefix(loc.tli, segno, key.baseIv);
    // The context kept with a cached range is only ever given that range's key.
    var held := StreamCrypt(aes, None, key.key, iv, decOff, buf, from, to - from, out);
    assert source[from..to] == old(buf[from..to]) && out[..][from..to] == out[from..to];
  }

  /** One turn of the loop, for the range `keys[i]`. */
  method CryptRange(aes: BlockCipher, segSize: SegSize, ghost keys: seq<WalRange>, ghost i: nat, r: WalRange,
                    buf: array<byte>, out: array<byte>, count: nat, offset: nat, loc: WalLocation, segno: nat,
                    ghost buf0: seq<byte>, ghost out0: seq<byte>)
    requires InOrder(keys) && i < |keys| && r == keys[i]
    requires 0 < count <= buf.Length && count <= out.Length
    requires offset + count <= segSize && loc.lsn == segno * segSize + offset
    requires |buf0| == buf.Length && |out0| == out.Length
    requires if buf == out then buf0 == out0 else buf[..] == buf0
    requires Crypted(aes, segSize, keys[..i], loc, count, buf0, out0, out[..])
    modifies out
    ensures buf != out ==> buf[..] == buf0
    ensures Crypted(aes, segSize, keys[..i + 1], loc, count, buf0, out0, out[..])
  {
    ghost var before, source := out[..], buf[..];
    if IsSet(r.start) && r.rangeType == Encrypted && Overlaps(r, loc, count) {
      ClippedBounds(segSize, r, segno, offset, loc, count);
      var decOff := DecryptOffset(segSize, r, loc);
      assert decOff >= offset;
      var decEnd := DecryptEnd(segSize, r, loc, offset, count);
      assert decEnd > decOff;
      CryptSlice(aes, segSize, r.key, segno, loc, decOff - offset, decEnd - offset, decOff, buf, out);
      RangeTurn(aes, segSize, keys, i, segno, offset, loc, count, decOff, decEnd, buf0, out0, source, before, out[..]);
    } else {
      RangeSkipped(aes, segSize, keys, i, loc, count, buf0, out0, before);
    }
  }

  /**
   Every byte of the buffer whose position lies in an encrypted cached range is masked once,
   under that range's key at its absolute position; all other bytes of `out` are left alone.
   */
  method CryptBuffer(aes: BlockCipher, segSize: SegSize, keys: seq<WalRange>,
                     buf: array<byte>, out: array<byte>, count: nat, offset: nat, tli: nat, segno: nat)
    requires InOrder(keys)
    requires 0 < count <= buf.Length && count <= out.Length
    requires offset + count <= segSize
    modifies out
    ensures Crypted(aes, segSize, keys, WalLocation(tli, segno * segSize + offset), count, old(buf[..]), old(out[..]), out[..])
    ensures buf != out ==> buf[..] == old(buf[..])
  {
    ghost var buf0, out0 := buf[..], out[..];
    var loc := WalLocation(tli, segno * segSize + offset);
    var i := 0;
    while i < |keys|
      invariant 0 <= i <= |keys|
      invariant buf != out ==> buf[..] == buf0
      invariant Crypted(aes, segSize, keys[..i], loc, count, buf0, out0, out[..])
    {
      CryptRange(aes, segSize, keys, i, keys[i], buf, out, count, offset, loc, segno, buf0, out0);
      i := i + 1;
    }
    assert keys[..|keys|] == keys;
  }

  /** Starting from a copy, or in place, every byte of the data ends up masked for its position. */
  lemma {:induction false} CryptedOverCopy(aes: BlockCipher, segSize: SegSize, keys: seq<WalRange>, loc: WalLocation, count: nat,
                                           buf0: seq<byte>, out0: seq<byte>, out: seq<byte>)
    requires count <= |buf0| && count <= |out0|
    requires Crypted(aes, segSize, keys, loc, count, buf0, out0, out)
    requires buf0[..count] == out0[..count]
    ensures forall k :: 0 <= k < count ==> out[k] == CryptByte(aes, segSize, KeyAt(keys, At(loc, k)), At(loc, k), buf0[k])
  {
  }
}
