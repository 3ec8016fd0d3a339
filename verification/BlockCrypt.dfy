/**
 Encrypting single pages: the block's initialisation vector (src/encryption/enc_tde.c:181-254)
 and the keyed contexts shared by all relations (src/encryption/enc_aes.c:40-246).
 */
module BlockCrypt {
  import opened Bytes
  import opened Keys
  import opened PageFormat

  const MAX_KEY: nat := 64

  type Page = s: seq<byte> | |s| == BLCKSZ witness seq(BLCKSZ, _ => 0)

  datatype Fork = Main | Fsm | Vm | Init

  function ForkNumber(f: Fork): byte {
    match f case Main => 0 case Fsm => 1 case Vm => 2 case Init => 3
  }

  // ----- The block's initialisation vector

  /** The fork whose pages a fork shares its vectors with. */
  function IvFork(f: Fork): Fork {
    if f == Init then Main else f
  }

  /** What is added to the base: fork number and block number, in fixed places. */
  function Position(f: Fork, bn: nat): (s: Block16) {
    [0, 0, 0, 0, 0, 0, 0, ForkNumber(IvFork(f)), 0, 0, 0, 0] + ToBigEndian(bn, 4)
  }

  function BlockIv(f: Fork, bn: nat, base: Block16): (iv: Block16) {
    seq(16, i requires 0 <= i < 16 => Xor(Position(f, bn)[i], base[i]))
  }

  /** Fork number and block number, put in their places byte by byte. */
  method PutPosition(f: Fork, bn: nat, iv: array<byte>)
    requires iv.Length == 16
    modifies iv
    ensures iv[..] == Position(f, bn)
  {
    var i := 0;
    while i < 16
      invariant 0 <= i <= 16
      invariant forall j :: 0 <= j < i ==> iv[j] == 0
    {
      iv[i] := 0;
      i := i + 1;
    }
    var number := ToBigEndian(bn, 4);
    iv[7] := ForkNumber(if f == Init then Main else f);
    iv[12], iv[13], iv[14], iv[15] := number[0], number[1], number[2], number[3];
  }

  /** The position, masked in place with the base. */
  method CalcBlockIv(f: Fork, bn: nat, base: Block16, iv: array<byte>)
    requires iv.Length == 16
    modifies iv
    ensures iv[..] == BlockIv(f, bn, base)
  {
    PutPosition(f, bn, iv);
    ghost var position := iv[..];
    var i := 0;
    while i < 16
      invariant 0 <= i <= 16
      invariant forall j :: 0 <= j < i ==> iv[j] == Xor(position[j], base[j])
      invariant forall j :: i <= j < 16 ==> iv[j] == position[j]
    {
      iv[i] := Xor(iv[i], base[i]);
      i := i + 1;
    }
  }

  lemma {:induction false} IvGivesPosition(f: Fork, bn: nat, base: Block16, g: Fork, cn: nat)
    requires BlockIv(f, bn, base) == BlockIv(g, cn, base)
    ensures Position(f, bn) == Position(g, cn)
  {
    forall i | 0 <= i < 16 ensures Position(f, bn)[i] == Position(g, cn)[i] {
      XorInvolutive(Position(f, bn)[i], base[i]);
      XorInvolutive(Position(g, cn)[i], base[i]);
      assert BlockIv(f, bn, base)[i] == BlockIv(g, cn, base)[i];
    }
  }

  lemma {:induction false} PositionGivesBlock(f: Fork, bn: nat, g: Fork, cn: nat)
    requires bn < UINT32_LIMIT && cn < UINT32_LIMIT
    requires Position(f, bn) == Position(g, cn)
    ensures IvFork(f) == IvFork(g) && bn == cn
  {
    assert Position(f, bn)[7] == ForkNumber(IvFork(f));
    assert Position(g, cn)[7] == ForkNumber(IvFork(g));
    assert Position(f, bn)[12..] == ToBigEndian(bn, 4);
    assert Position(g, cn)[12..] == ToBigEndian(cn, 4);
    assert Pow256(4) == UINT32_LIMIT;
    BigEndianRoundTrip(bn, 4);
    BigEndianRoundTrip(cn, 4);
  }

  /** Read as one big-endian number, what is added is the block number and, 64 bits up, the fork number. */
  lemma {:induction false} PositionIsANumber(f: Fork, bn: nat)
    requires bn < UINT32_LIMIT
    ensures BigEndian(Position(f, bn)) == (match f case Main => 0 case Init => 0 case Fsm => 1 case Vm => 2) * UINT64_LIMIT + bn
  {
    var fork, number := ForkNumber(IvFork(f)), ToBigEndian(bn, 4);
    var zeros7, zeros4 := seq<byte>(7, _ => 0), seq<byte>(4, _ => 0);
    assert Position(f, bn) == (zeros7 + [fork]) + (zeros4 + number);
    BigEndianSplit(zeros7 + [fork], zeros4 + number);
    BigEndianZeros(7, [fork]);
    BigEndianZeros(4, number);
    assert [fork][..0] == [];
    assert Pow256(4) == UINT32_LIMIT;
    assert Pow256(8) == UINT64_LIMIT;
    BigEndianRoundTrip(bn, 4);
  }

  /** Two blocks of a relation share a vector exactly when they are one block, the init fork counting as the main fork. */
  lemma {:induction false} BlockIvsDiffer(f: Fork, bn: nat, g: Fork, cn: nat, base: Block16)
    requires bn < UINT32_LIMIT && cn < UINT32_LIMIT
    ensures BlockIv(f, bn, base) == BlockIv(g, cn, base) <==> IvFork(f) == IvFork(g) && bn == cn
  {
    if BlockIv(f, bn, base) == BlockIv(g, cn, base) {
      IvGivesPosition(f, bn, base, g, cn);
      PositionGivesBlock(f, bn, g, cn);
    }
  }

  // ----- Keyed contexts

  datatype Algorithm = Cbc128 | Cbc256 | Xts128 | Xts256

  /** One OpenSSL run: algorithm, key, direction, vector, page. */
  type Evp = (Algorithm, seq<byte>, bool, Block16, Page) -> Page

  datatype Direction = Nothing | Decrypting | Encrypting

  /** An OpenSSL context together with a copy of the key and direction last loaded into it. */
  class KeyedContext {
    const algorithm: Algorithm
    // What OpenSSL holds.
    var loaded: seq<byte>
    var encrypting: bool
    var iv: Block16
    // The copy.
    var key: seq<byte>
    var keyLen: nat
    var direction: Direction

    /** The copy, once there is one, is what OpenSSL holds. */
    ghost predicate Valid()
      reads this
    {
      && |key| == MAX_KEY && keyLen <= MAX_KEY
      && (direction != Nothing ==> loaded == key[..keyLen] && encrypting == (direction == Encrypting))
    }

    constructor (algorithm: Algorithm)
      ensures Valid() && this.algorithm == algorithm
    {
      this.algorithm := algorithm;
      loaded, encrypting, iv := [], true, ZERO_BLOCK;
      key, keyLen, direction := seq(MAX_KEY, _ => 0), 0, Nothing;
    }

    /** Loads key, direction and vector, the first two only if the copy differs. */
    method Prepare(enc: bool, k: seq<byte>, v: Block16) returns (ok: bool)
      requires Valid()
      modifies this
      ensures Valid()
      ensures ok <==> |k| <= MAX_KEY
      ensures ok ==> loaded == k && encrypting == enc && iv == v
    {
      if |k| > MAX_KEY {
        return false;
      }
      ok := true;
      var wanted := if enc then Encrypting else Decrypting;
      if keyLen == |k| && direction == wanted && key[..|k|] == k {
        iv := v;
        return;
      }
      loaded, encrypting, iv := k, enc, v;
      key := k + key[|k|..];
      keyLen, direction := |k|, wanted;
      assert key[..keyLen] == k;
    }

    /** A page through the context; what chaining leaves in the vector does not matter. */
    method Run(evp: Evp, enc: bool, k: seq<byte>, v: Block16, page: Page) returns (out: Option<Page>)
      requires Valid()
      modifies this
      ensures Valid()
      ensures out == if |k| <= MAX_KEY then Some(evp(algorithm, k, enc, v, page)) else None
    {
      var ok := Prepare(enc, k, v);
      if !ok {
        return None;
      }
      out := Some(evp(algorithm, loaded, encrypting, iv, page));
      iv := *;
    }
  }

  /** The algorithm that a relation key's cipher and key length select. */
  function AlgorithmOf(k: InternalKey): Algorithm {
    if k.cipher.Aes128? || k.cipher.Aes256? then (if |k.key| == 32 then Cbc256 else Cbc128)
    else (if |k.key| == 64 then Xts256 else Xts128)
  }

  /** What the four ciphers select at their key lengths. */
  lemma {:induction false} CiphersSelect(k: InternalKey)
    ensures k.cipher == Aes128 && |k.key| == 16 ==> AlgorithmOf(k) == Cbc128
    ensures k.cipher == Aes256 && |k.key| == 32 ==> AlgorithmOf(k) == Cbc256
    ensures k.cipher == Aes128Xts && |k.key| == 32 ==> AlgorithmOf(k) == Xts128
    ensures k.cipher == Aes256Xts && |k.key| == 64 ==> AlgorithmOf(k) == Xts256
  {
  }

  /** A page under a relation key, as if the key were loaded for this page alone. */
  function Crypt(evp: Evp, k: InternalKey, enc: bool, iv: Block16, page: Page): Page {
    evp(AlgorithmOf(k), k.key, enc, iv, page)
  }

  /** The four contexts shared by all relations. */
  class Contexts {
    const cbc128: KeyedContext
    const cbc256: KeyedContext
    const xts128: KeyedContext
    const xts256: KeyedContext

    ghost predicate Valid()
      reads cbc128, cbc256, xts128, xts256
    {
      && cbc128.Valid() && cbc256.Valid() && xts128.Valid() && xts256.Valid()
      && cbc128.algorithm == Cbc128 && cbc256.algorithm == Cbc256
      && xts128.algorithm == Xts128 && xts256.algorithm == Xts256
    }

    constructor ()
      ensures Valid() && fresh(cbc128) && fresh(cbc256) && fresh(xts128) && fresh(xts256)
    {
      cbc128 := new KeyedContext(Cbc128);
      cbc256 := new KeyedContext(Cbc256);
      xts128 := new KeyedContext(Xts128);
      xts256 := new KeyedContext(Xts256);
    }

    /** Whatever ran before, over whichever relations, the page comes out as if the context had been keyed for it. */
    method CryptPage(evp: Evp, k: InternalKey, enc: bool, iv: Block16, page: Page) returns (out: Page)
      requires Valid() && |k.key| <= MAX_KEY
      modifies cbc128, cbc256, xts128, xts256
      ensures Valid()
      ensures out == Crypt(evp, k, enc, iv, page)
    {
      var context;
      match k.cipher {
        case Aes128 | Aes256 => context := if |k.key| == 32 then cbc256 else cbc128;
        case Aes128Xts | Aes256Xts => context := if |k.key| == 64 then xts256 else xts128;
      }
      var r := context.Run(evp, enc, k.key, iv, page);
      out := r.value;
    }
  }

  // ----- Pages

  /** Decryption undoes encryption under the same key and vector. */
  ghost predicate Inverse(evp: Evp) {
    forall a: Algorithm, k: seq<byte>, iv: Block16, p: Page :: evp(a, k, false, iv, evp(a, k, true, iv, p)) == p
  }

  predicate ZeroHead(p: Page) {
    forall i :: 0 <= i < 32 ==> p[i] == 0
  }

  function EncryptedPage(evp: Evp, k: InternalKey, f: Fork, bn: nat, p: Page): Page {
    Crypt(evp, k, true, BlockIv(f, bn, k.baseIv), p)
  }

  /** A page that starts with zeros counts as never encrypted. */
  function DecryptedPage(evp: Evp, k: InternalKey, f: Fork, bn: nat, p: Page): Page {
    if ZeroHead(p) then p else Crypt(evp, k, false, BlockIv(f, bn, k.baseIv), p)
  }

  /** A page reads back exactly unless its ciphertext happens to start with 32 zero bytes and differs from it. */
  lemma {:induction false} PageRoundTrip(evp: Evp, k: InternalKey, f: Fork, bn: nat, p: Page)
    requires Inverse(evp)
    ensures var c := EncryptedPage(evp, k, f, bn, p);
      DecryptedPage(evp, k, f, bn, c) == p <==> !ZeroHead(c) || c == p
  {
  }

  function ZeroPage(): (p: Page)
    ensures forall i :: 0 <= i < BLCKSZ ==> p[i] == 0
  {
    seq(BLCKSZ, _ => 0)
  }

  /** Every page is the encryption of its decryption, as under any block cipher. */
  ghost predicate Bijective(evp: Evp) {
    forall a: Algorithm, k: seq<byte>, iv: Block16, c: Page :: evp(a, k, true, iv, evp(a, k, false, iv, c)) == c
  }

  /**
   The pages that are lost, under any cipher: each page `c` that starts with 32 zero bytes and is
   not its own decryption is the ciphertext of one, and that one reads back as `c`.
   */
  lemma {:induction false} PageIsLost(evp: Evp, k: InternalKey, f: Fork, bn: nat, c: Page)
    requires Bijective(evp) && ZeroHead(c)
    ensures var p := Crypt(evp, k, false, BlockIv(f, bn, k.baseIv), c);
      && EncryptedPage(evp, k, f, bn, p) == c
      && DecryptedPage(evp, k, f, bn, EncryptedPage(evp, k, f, bn, p)) == c
      && (p != c ==> DecryptedPage(evp, k, f, bn, EncryptedPage(evp, k, f, bn, p)) != p)
  {
    var iv := BlockIv(f, bn, k.baseIv);
    assert evp(AlgorithmOf(k), k.key, true, iv, evp(AlgorithmOf(k), k.key, false, iv, c)) == c;
  }

  /** A page encrypted for the init fork decrypts as a page of the main fork. */
  lemma {:induction false} InitForkReadsAsMain(evp: Evp, k: InternalKey, bn: nat, p: Page)
    ensures DecryptedPage(evp, k, Main, bn, p) == DecryptedPage(evp, k, Init, bn, p)
    ensures EncryptedPage(evp, k, Main, bn, p) == EncryptedPage(evp, k, Init, bn, p)
  {
    assert Position(Main, bn) == Position(Init, bn);
    assert BlockIv(Main, bn, k.baseIv) == BlockIv(Init, bn, k.baseIv);
  }
}
