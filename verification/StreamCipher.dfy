/**
 The counter-mode stream cipher of src/encryption/enc_tde.c and enc_aes.c.

 AES itself is a parameter: `aes(key, block, i)` is byte `i` of the encryption of
 `block`.  Nothing is assumed about it, so every statement holds for any cipher.
 */
module StreamCipher {
  import opened Bytes
  import opened Keys

  const AES_BLOCK_SIZE: nat := 16
  const NUM_AES_BLOCKS_IN_BATCH: nat := 200

  type BlockCipher = (KeyData, seq<byte>, nat) -> byte

  /** The native (little-endian) memory image of a 32-bit counter. */
  function CounterBytes(n: nat): (r: seq<byte>)
    ensures |r| == 4
  {
    [n % 256, (n / 256) % 256, (n / 65536) % 256, (n / 16777216) % 256]
  }

  /** Twelve bytes of the initialisation vector followed by the counter. */
  function CounterBlock(iv: Block16, block: nat): (r: Block16) {
    iv[..12] + CounterBytes(block)
  }

  /** Two counter blocks agree exactly when prefix and counter do. */
  lemma {:induction false} CounterBlockInjective(iv1: Block16, n1: nat, iv2: Block16, n2: nat)
    requires n1 < UINT32_LIMIT && n2 < UINT32_LIMIT
    ensures CounterBlock(iv1, n1) == CounterBlock(iv2, n2) <==> iv1[..12] == iv2[..12] && n1 == n2
  {
    var b1, b2 := CounterBlock(iv1, n1), CounterBlock(iv2, n2);
    assert b1[..12] == iv1[..12] && b2[..12] == iv2[..12];
    assert b1[12..] == CounterBytes(n1) && b2[12..] == CounterBytes(n2);
    if CounterBytes(n1) == CounterBytes(n2) {
      CounterFromBytes(n1);
      CounterFromBytes(n2);
      assert CounterBytes(n1)[0] == CounterBytes(n2)[0];
      assert CounterBytes(n1)[1] == CounterBytes(n2)[1];
      assert CounterBytes(n1)[2] == CounterBytes(n2)[2];
      assert CounterBytes(n1)[3] == CounterBytes(n2)[3];
    }
  }

  lemma {:induction false} CounterFromBytes(n: nat)
    requires n < UINT32_LIMIT
    ensures n == n % 256 + 256 * ((n / 256) % 256) + 65536 * ((n / 65536) % 256) + 16777216 * ((n / 16777216) % 256)
  {
  }

  /** Byte by byte: twelve of the vector, then the counter with its low byte first. */
  lemma {:induction false} CounterBlockLayout(iv: Block16, n: nat)
    requires n < UINT32_LIMIT
    ensures var b := CounterBlock(iv, n);
      && (forall i :: 0 <= i < 12 ==> b[i] == iv[i])
      && (b[12] as nat) + 256 * (b[13] as nat) + 65536 * (b[14] as nat) + 16777216 * (b[15] as nat) == n
  {
    CounterFromBytes(n);
  }

  /** The keystream byte at an absolute file position. */
  function KeystreamByte(aes: BlockCipher, key: KeyData, iv: Block16, position: nat): byte {
    aes(key, CounterBlock(iv, position / AES_BLOCK_SIZE), position % AES_BLOCK_SIZE)
  }

  /** Per-byte counter mode: byte `i` of the data is masked for position `start + i`. */
  function CtrXor(aes: BlockCipher, key: KeyData, iv: Block16, start: nat, data: seq<byte>): (r: seq<byte>)
    ensures |r| == |data|
  {
    seq(|data|, i requires 0 <= i < |data| => Xor(data[i], KeystreamByte(aes, key, iv, start + i)))
  }

  /** Data that goes on behind what has been crypted. */
  lemma {:induction false} CtrXorAppend(aes: BlockCipher, key: KeyData, iv: Block16, start: nat, a: seq<byte>, b: seq<byte>, crypted: seq<byte>)
    requires CtrXor(aes, key, iv, start, a) == crypted
    ensures CtrXor(aes, key, iv, start, a + b) == crypted + CtrXor(aes, key, iv, start + |a|, b)
  {
    var whole, rest := CtrXor(aes, key, iv, start, a + b), CtrXor(aes, key, iv, start + |a|, b);
    forall i | 0 <= i < |whole| ensures whole[i] == (crypted + rest)[i] {
      if i >= |a| {
        assert rest[i - |a|] == Xor(b[i - |a|], KeystreamByte(aes, key, iv, start + |a| + (i - |a|)));
      }
    }
  }

  /** Each piece encrypted by a separate call at the position where it starts. */
  function CryptPieces(aes: BlockCipher, key: KeyData, iv: Block16, start: nat, pieces: seq<seq<byte>>): seq<byte> {
    if pieces == [] then []
    else
      var front, last := pieces[..|pieces| - 1], pieces[|pieces| - 1];
      CryptPieces(aes, key, iv, start, front) + CtrXor(aes, key, iv, start + |Joined(front)|, last)
  }

  /** However the data is cut, each piece treated at its own position gives the same bytes. */
  lemma {:induction false} CtrXorOfPieces(aes: BlockCipher, key: KeyData, iv: Block16, start: nat, pieces: seq<seq<byte>>)
    ensures CtrXor(aes, key, iv, start, Joined(pieces)) == CryptPieces(aes, key, iv, start, pieces)
  {
    if pieces != [] {
      var front, last := pieces[..|pieces| - 1], pieces[|pieces| - 1];
      CtrXorOfPieces(aes, key, iv, start, front);
      CtrXorAppend(aes, key, iv, start, Joined(front), last, CryptPieces(aes, key, iv, start, front));
      PiecesStep(aes, key, iv, start, pieces, Joined(front) + last);
    }
  }

  lemma {:induction false} PiecesStep(aes: BlockCipher, key: KeyData, iv: Block16, start: nat, pieces: seq<seq<byte>>, joined: seq<byte>)
    requires pieces != [] && joined == Joined(pieces[..|pieces| - 1]) + pieces[|pieces| - 1]
    ensures joined == Joined(pieces)
    ensures CryptPieces(aes, key, iv, start, pieces) == CryptPieces(aes, key, iv, start, pieces[..|pieces| - 1])
      + CtrXor(aes, key, iv, start + |Joined(pieces[..|pieces| - 1])|, pieces[|pieces| - 1])
  {
  }

  /** Decryption is encryption. */
  lemma {:induction false} CtrXorInvolutive(aes: BlockCipher, key: KeyData, iv: Block16, start: nat, data: seq<byte>)
    ensures CtrXor(aes, key, iv, start, CtrXor(aes, key, iv, start, data)) == data
  {
    var once := CtrXor(aes, key, iv, start, data);
    var twice := CtrXor(aes, key, iv, start, once);
    forall i | 0 <= i < |data|
      ensures twice[i] == data[i]
    {
      XorInvolutive(data[i], KeystreamByte(aes, key, iv, start + i));
    }
  }

  ghost predicate IsCounters(iv: Block16, first: nat, s: seq<byte>, from: nat, to: nat)
    requires to <= |s|
  {
    forall k :: from <= k < to ==> s[k] == CounterBlock(iv, first + k / AES_BLOCK_SIZE)[k % AES_BLOCK_SIZE]
  }

  /** The first `to` bytes of `s` are the keystream from the given position. */
  ghost predicate IsKeystream(aes: BlockCipher, key: KeyData, iv: Block16, position: nat, s: seq<byte>, to: nat)
    requires to <= |s|
  {
    forall k :: 0 <= k < to ==> s[k] == KeystreamByte(aes, key, iv, position + k)
  }

  lemma {:induction false} BytesOfBlock(first: nat, j: nat, k: nat)
    requires j * AES_BLOCK_SIZE <= k < (j + 1) * AES_BLOCK_SIZE
    ensures k / AES_BLOCK_SIZE == j && k % AES_BLOCK_SIZE == k - j * AES_BLOCK_SIZE
    ensures (first * AES_BLOCK_SIZE + k) / AES_BLOCK_SIZE == first + j
    ensures (first * AES_BLOCK_SIZE + k) % AES_BLOCK_SIZE == k - j * AES_BLOCK_SIZE
  {
  }

  // ----- Cipher contexts

  /** The key that encrypts: the one a context holds, or the one given if there is no context yet. */
  function KeyUsed(held: Option<KeyData>, key: KeyData): KeyData {
    if held.Some? then held.value else key
  }

  /** The keystream of the blocks `first .. last`: counter blocks laid out, then encrypted in place. */
  method EncryptedZeroBlocks(aes: BlockCipher, held: Option<KeyData>, key: KeyData, iv: Block16, first: nat, last: nat)
    returns (out: array<byte>, now: Option<KeyData>)
    requires first <= last
    ensures now == Some(KeyUsed(held, key))
    ensures fresh(out)
    ensures out.Length == (last - first) * AES_BLOCK_SIZE
    ensures IsKeystream(aes, KeyUsed(held, key), iv, first * AES_BLOCK_SIZE, out[..], out.Length)
  {
    out := new byte[(last - first) * AES_BLOCK_SIZE](_ => 0);
    var j := 0;
    while j < last - first
      invariant 0 <= j <= last - first
      invariant IsCounters(iv, first, out[..], 0, j * AES_BLOCK_SIZE)
    {
      var block := CounterBlock(iv, first + j);
      forall i | 0 <= i < AES_BLOCK_SIZE {
        out[j * AES_BLOCK_SIZE + i] := block[i];
      }
      forall k | j * AES_BLOCK_SIZE <= k < (j + 1) * AES_BLOCK_SIZE
        ensures out[k] == CounterBlock(iv, first + k / AES_BLOCK_SIZE)[k % AES_BLOCK_SIZE]
      {
        BytesOfBlock(first, j, k);
        assert out[j * AES_BLOCK_SIZE + k % AES_BLOCK_SIZE] == block[k % AES_BLOCK_SIZE];
      }
      j := j + 1;
    }
    ghost var counters := out[..];
    now := EncryptEcb(aes, held, key, last - first, out);
    CountersGiveKeystream(aes, KeyUsed(held, key), iv, first, last - first, counters, out[..]);
  }

  function BlockAt(s: seq<byte>, j: nat): Block16
    requires (j + 1) * AES_BLOCK_SIZE <= |s|
  {
    s[j * AES_BLOCK_SIZE..(j + 1) * AES_BLOCK_SIZE]
  }

  /** Block `j` of `after` is the encryption of block `j` of `before`. */
  ghost predicate BlockEncrypted(aes: BlockCipher, key: KeyData, before: seq<byte>, after: seq<byte>, j: nat)
    requires (j + 1) * AES_BLOCK_SIZE <= |before| == |after|
  {
    forall i :: 0 <= i < AES_BLOCK_SIZE ==> after[j * AES_BLOCK_SIZE + i] == aes(key, BlockAt(before, j), i)
  }

  /** Electronic-codebook encryption of a buffer of whole blocks, in place; a context is keyed once and never again. */
  method EncryptEcb(aes: BlockCipher, held: Option<KeyData>, key: KeyData, blocks: nat, out: array<byte>) returns (now: Option<KeyData>)
    requires out.Length == blocks * AES_BLOCK_SIZE
    modifies out
    ensures now == (if held.Some? then held else Some(key)) == Some(KeyUsed(held, key))
    ensures forall j :: 0 <= j < blocks ==> BlockEncrypted(aes, KeyUsed(held, key), old(out[..]), out[..], j)
  {
    now := if held.None? then Some(key) else held;
    var j := 0;
    ghost var before := out[..];
    while j < blocks
      invariant 0 <= j <= blocks
      invariant forall i :: 0 <= i < j ==> BlockEncrypted(aes, now.value, before, out[..], i)
      invariant forall k :: j * AES_BLOCK_SIZE <= k < out.Length ==> out[k] == before[k]
    {
      EncryptOneBlock(aes, now.value, before, j, out);
      j := j + 1;
    }
  }

  method EncryptOneBlock(aes: BlockCipher, key: KeyData, ghost before: seq<byte>, j: nat, out: array<byte>)
    requires (j + 1) * AES_BLOCK_SIZE <= out.Length == |before|
    requires forall i :: 0 <= i < j ==> BlockEncrypted(aes, key, before, out[..], i)
    requires forall k :: j * AES_BLOCK_SIZE <= k < out.Length ==> out[k] == before[k]
    modifies out
    ensures forall i :: 0 <= i < j + 1 ==> BlockEncrypted(aes, key, before, out[..], i)
    ensures forall k :: (j + 1) * AES_BLOCK_SIZE <= k < out.Length ==> out[k] == before[k]
  {
    var base := j * AES_BLOCK_SIZE;
    var block := out[base..base + AES_BLOCK_SIZE];
    assert block == BlockAt(before, j);
    ghost var was := out[..];
    forall i | 0 <= i < AES_BLOCK_SIZE {
      out[base + i] := aes(key, block, i);
    }
    forall i | 0 <= i < j ensures BlockEncrypted(aes, key, before, out[..], i) {
      assert BlockEncrypted(aes, key, before, was, i);
      forall m | 0 <= m < AES_BLOCK_SIZE ensures out[..][i * AES_BLOCK_SIZE + m] == aes(key, BlockAt(before, i), m) {
        assert was[i * AES_BLOCK_SIZE + m] == aes(key, BlockAt(before, i), m);
      }
    }
  }

  /** Counter blocks, encrypted, are the keystream. */
  lemma {:induction false} CountersGiveKeystream(aes: BlockCipher, key: KeyData, iv: Block16, first: nat, blocks: nat,
                                                 before: seq<byte>, after: seq<byte>)
    requires |before| == |after| == blocks * AES_BLOCK_SIZE && IsCounters(iv, first, before, 0, |before|)
    requires forall j :: 0 <= j < blocks ==> BlockEncrypted(aes, key, before, after, j)
    ensures IsKeystream(aes, key, iv, first * AES_BLOCK_SIZE, after, |after|)
  {
    forall k | 0 <= k < |after| ensures after[k] == KeystreamByte(aes, key, iv, first * AES_BLOCK_SIZE + k) {
      var j := k / AES_BLOCK_SIZE;
      BytesOfBlock(first, j, k);
      BlockIsCounter(iv, first, before, j);
      assert BlockEncrypted(aes, key, before, after, j);
      assert after[j * AES_BLOCK_SIZE + k % AES_BLOCK_SIZE] == aes(key, BlockAt(before, j), k % AES_BLOCK_SIZE);
    }
  }

  lemma {:induction false} BlockIsCounter(iv: Block16, first: nat, s: seq<byte>, j: nat)
    requires (j + 1) * AES_BLOCK_SIZE <= |s| && IsCounters(iv, first, s, 0, |s|)
    ensures BlockAt(s, j) == CounterBlock(iv, first + j)
  {
    forall i | 0 <= i < AES_BLOCK_SIZE ensures BlockAt(s, j)[i] == CounterBlock(iv, first + j)[i] {
      BytesOfBlock(first, j, j * AES_BLOCK_SIZE + i);
      assert s[j * AES_BLOCK_SIZE + i] == BlockAt(s, j)[i];
    }
  }

  /** `after` is `before` with the `n` bytes from `pos` replaced by masked bytes of `data`. */
  ghost predicate Masked(aes: BlockCipher, key: KeyData, iv: Block16, start: nat,
                         data: seq<byte>, before: seq<byte>, after: seq<byte>, pos: nat, n: nat)
    requires pos + n <= |data|
  {
    && |after| == |before|
    && forall k :: 0 <= k < |after| ==>
         after[k] == if pos <= k < pos + n then Xor(data[k], KeystreamByte(aes, key, iv, start + (k - pos))) else before[k]
  }

  lemma {:induction false} MaskedIsCtrXor(aes: BlockCipher, key: KeyData, iv: Block16, start: nat,
                                          data: seq<byte>, before: seq<byte>, after: seq<byte>, pos: nat, n: nat)
    requires pos + n <= |data| && pos + n <= |before|
    requires Masked(aes, key, iv, start, data, before, after, pos, n)
    ensures after[pos..pos + n] == CtrXor(aes, key, iv, start, data[pos..pos + n])
    ensures forall k :: 0 <= k < |after| && !(pos <= k < pos + n) ==> after[k] == before[k]
  {
  }

  /** Where a batch stands: its first keystream byte that is used belongs to the next data byte. */
  ghost predicate InStep(start: nat, len: nat, done: nat, batchStart: nat, endBlock: nat, keyOffset: nat) {
    && done <= len
    && keyOffset < AES_BLOCK_SIZE
    && (batchStart < endBlock ==> start + done == batchStart * AES_BLOCK_SIZE + keyOffset)
    && (batchStart >= endBlock ==> done == len)
  }

  lemma {:induction false} FirstBatch(start: nat, len: nat)
    ensures InStep(start, len, 0, start / AES_BLOCK_SIZE, (start + len + (AES_BLOCK_SIZE - 1)) / AES_BLOCK_SIZE, start % AES_BLOCK_SIZE)
  {
  }

  function BatchBytes(len: nat, done: nat, blocks: nat, keyOffset: nat): int {
    var bytes := blocks * AES_BLOCK_SIZE - keyOffset;
    if done + bytes > len then len - done else bytes
  }

  /** One batch ends where the next one starts and never reads past its keystream. */
  lemma {:induction false} BatchAdvances(start: nat, len: nat, done: nat, batchStart: nat, batchEnd: nat, endBlock: nat, keyOffset: nat)
    requires endBlock == (start + len + (AES_BLOCK_SIZE - 1)) / AES_BLOCK_SIZE
    requires batchStart < endBlock && batchEnd == Min(batchStart + NUM_AES_BLOCKS_IN_BATCH, endBlock)
    requires InStep(start, len, done, batchStart, endBlock, keyOffset)
    ensures var n := BatchBytes(len, done, batchEnd - batchStart, keyOffset);
            && 0 <= n
            && keyOffset + n <= (batchEnd - batchStart) * AES_BLOCK_SIZE
            && InStep(start, len, done + n, batchStart + NUM_AES_BLOCKS_IN_BATCH, endBlock, 0)
  {
  }

  /**
   Encrypts or decrypts `len` bytes from index `pos`, whose absolute file position is
   `startOffset`, in batches of two hundred cipher blocks.  `out` may be `data` itself.
   The length sum is 32-bit in the program, hence the bound.  A context that is held already
   decides the key; one that is not is keyed by the first batch.
   */
  method StreamCrypt(aes: BlockCipher, held: Option<KeyData>, key: KeyData, iv: Block16, startOffset: nat,
                     data: array<byte>, pos: nat, len: nat, out: array<byte>) returns (now: Option<KeyData>)
    requires startOffset + len + (AES_BLOCK_SIZE - 1) < UINT32_LIMIT
    requires pos + len <= data.Length && pos + len <= out.Length
    modifies out
    ensures now == held || now == Some(KeyUsed(held, key))
    ensures out[pos..pos + len] == CtrXor(aes, KeyUsed(held, key), iv, startOffset, old(data[pos..pos + len]))
    ensures forall k :: 0 <= k < out.Length && !(pos <= k < pos + len) ==> out[k] == old(out[k])
  {
    var endBlock := ((startOffset + len + (AES_BLOCK_SIZE - 1)) % UINT32_LIMIT) / AES_BLOCK_SIZE;
    var batchNo: nat, dataIndex: nat := 0, 0;
    var batchStart := startOffset / AES_BLOCK_SIZE;
    ghost var data0, out0, used := data[..], out[..], KeyUsed(held, key);
    now := held;
    FirstBatch(startOffset, len);
    while batchStart < endBlock
      invariant InStep(startOffset, len, dataIndex, batchStart, endBlock, if batchNo > 0 then 0 else startOffset % AES_BLOCK_SIZE)
      invariant (now == held || now == Some(used)) && KeyUsed(now, key) == used
      invariant data != out ==> data[..] == data0
      invariant Masked(aes, used, iv, startOffset, data0, out0, out[..], pos, dataIndex)
    {
      var batchEnd := Min(batchStart + NUM_AES_BLOCKS_IN_BATCH, endBlock);
      var keyOffset := if batchNo > 0 then 0 else startOffset % AES_BLOCK_SIZE;
      BatchAdvances(startOffset, len, dataIndex, batchStart, batchEnd, endBlock, keyOffset);
      var batchBytes := BatchBytes(len, dataIndex, batchEnd - batchStart, keyOffset);
      now := CryptBatch(aes, now, key, iv, startOffset, dataIndex, data, pos, batchBytes, out, batchStart, batchEnd, keyOffset, data0, out0);
      dataIndex := dataIndex + batchBytes;
      batchNo := batchNo + 1;
      batchStart := batchStart + NUM_AES_BLOCKS_IN_BATCH;
    }
    MaskedIsCtrXor(aes, used, iv, startOffset, data0, out0, out[..], pos, len);
  }

  /** One batch: the keystream of its blocks, then the masking. */
  method CryptBatch(aes: BlockCipher, held: Option<KeyData>, key: KeyData, iv: Block16, ghost start: nat, done: nat,
                    data: array<byte>, pos: nat, n: nat, out: array<byte>,
                    first: nat, last: nat, keyOffset: nat, ghost data0: seq<byte>, ghost out0: seq<byte>)
    returns (now: Option<KeyData>)
    requires first <= last
    requires start + done == first * AES_BLOCK_SIZE + keyOffset
    requires keyOffset + n <= (last - first) * AES_BLOCK_SIZE
    requires pos + done + n <= data.Length && pos + done + n <= out.Length
    requires |data0| == data.Length
    requires if data == out then out0 == data0 else data[..] == data0
    requires Masked(aes, KeyUsed(held, key), iv, start, data0, out0, out[..], pos, done)
    modifies out
    ensures now == Some(KeyUsed(held, key))
    ensures data != out ==> data[..] == data0
    ensures Masked(aes, KeyUsed(held, key), iv, start, data0, out0, out[..], pos, done + n)
  {
    var keystream;
    keystream, now := EncryptedZeroBlocks(aes, held, key, iv, first, last);
    XorStream(aes, KeyUsed(held, key), iv, start, done, data, pos, n, out, keystream, keyOffset, data0, out0);
  }

  /** Masks the next `n` bytes with the keystream buffer, read from byte `keyOffset`. */
  method XorStream(ghost aes: BlockCipher, ghost key: KeyData, ghost iv: Block16, ghost start: nat, done: nat,
                   data: array<byte>, pos: nat, n: nat, out: array<byte>, keystream: array<byte>, keyOffset: nat,
                   ghost data0: seq<byte>, ghost out0: seq<byte>)
    requires pos + done + n <= data.Length && pos + done + n <= out.Length && keyOffset + n <= keystream.Length
    requires keystream != out
    requires keyOffset <= start + done
    requires IsKeystream(aes, key, iv, start + done - keyOffset, keystream[..], keystream.Length)
    requires |data0| == data.Length
    requires if data == out then out0 == data0 else data[..] == data0
    requires Masked(aes, key, iv, start, data0, out0, out[..], pos, done)
    modifies out
    ensures data != out ==> data[..] == data0
    ensures Masked(aes, key, iv, start, data0, out0, out[..], pos, done + n)
  {
    var i := 0;
    while i < n
      invariant 0 <= i <= n
      invariant data != out ==> data[..] == data0
      invariant Masked(aes, key, iv, start, data0, out0, out[..], pos, done + i)
    {
      var at := pos + done + i;
      assert data[..][at] == data0[at];
      assert keystream[..][keyOffset + i] == KeystreamByte(aes, key, iv, start + done + i);
      out[at] := Xor(data[at], keystream[keyOffset + i]);
      i := i + 1;
    }
  }
}
