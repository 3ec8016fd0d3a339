/**
 The layout of a record's fragment headers as they are put together, and the round trip: the
 parser of fetools/pg18/xlogreader.c:1723-1913 gives back what a record was put together from.
 */
module RecordFormat {
  import opened Bytes
  import opened PageFormat
  import opened RecordDecoder

  // ----- Bytes at a position

  ghost predicate HasAt(rec: seq<byte>, pos: nat, s: seq<byte>) {
    pos + |s| <= |rec| && rec[pos..pos + |s|] == s
  }

  lemma {:induction false} HasParts(rec: seq<byte>, pos: nat, a: seq<byte>, b: seq<byte>)
    requires HasAt(rec, pos, a + b)
    ensures HasAt(rec, pos, a) && HasAt(rec, pos + |a|, b)
  {
    var s := rec[pos..pos + |a + b|];
    assert s[..|a|] == a && s[|a|..] == b;
    assert rec[pos..pos + |a|] == s[..|a|];
    assert rec[pos + |a|..pos + |a| + |b|] == s[|a|..];
  }

  function Le16(v: nat): (s: seq<byte>)
    requires v < 65536
    ensures |s| == 2
  {
    [v % 256, v / 256]
  }

  function Le32(v: nat): (s: seq<byte>)
    requires v < UINT32_LIMIT
    ensures |s| == 4
  {
    Le16(v % 65536) + Le16(v / 65536)
  }

  lemma {:induction false} ByteAt(rec: seq<byte>, pos: nat, b: byte)
    requires HasAt(rec, pos, [b])
    ensures rec[pos] == b
  {
    assert rec[pos] == rec[pos..pos + 1][0];
  }

  lemma {:induction false} U16At(rec: seq<byte>, pos: nat, v: nat)
    requires v < 65536 && HasAt(rec, pos, Le16(v))
    ensures U16(rec, pos) == v
  {
    var s := rec[pos..pos + 2];
    assert rec[pos] == s[0] && rec[pos + 1] == s[1];
  }

  lemma {:induction false} U32At(rec: seq<byte>, pos: nat, v: nat)
    requires v < UINT32_LIMIT && HasAt(rec, pos, Le32(v))
    ensures U32(rec, pos) == v
  {
    HasParts(rec, pos, Le16(v % 65536), Le16(v / 65536));
    U16At(rec, pos, v % 65536);
    U16At(rec, pos + 2, v / 65536);
  }

  // ----- Fragment headers as bytes

  datatype Item = BlockItem(b: Block) | OriginItem(origin: nat) | XidItem(xid: nat)

  datatype MainData = NoMain | ShortMain(len: nat) | LongMain(len: nat)

  predicate ImageFits(i: Image) {
    && i.len < 65536 && i.holeOffset < 65536 && i.holeLength < 65536 && i.info < 256
    && ImageOk(i)
    && (!Compressed(i.info) ==> i.holeLength == (BLCKSZ - i.len) % 65536)
    && (Compressed(i.info) && !Bit(i.info, 1) ==> i.holeLength == 0)
  }

  function EncodeImage(i: Image): seq<byte>
    requires ImageFits(i)
  {
    (Le16(i.len) + (Le16(i.holeOffset) + [i.info as byte]))
    + (if Compressed(i.info) && Bit(i.info, 1) then Le16(i.holeLength) else [])
  }

  /** The flags say what follows: an image, data, and whether the relation is the previous block's. */
  predicate BlockFits(b: Block, h: Headers) {
    && b.id <= MAX_BLOCK_ID && b.flags < 256 && b.dataLen < 65536 && b.blkno < UINT32_LIMIT && |b.rlocator| == 12
    && (h.blocks != [] ==> b.id > h.blocks[|h.blocks| - 1].id)
    && Bit(b.flags, 32) == (b.dataLen != 0)
    && Bit(b.flags, 16) == b.image.Some?
    && (b.image.Some? ==> ImageFits(b.image.value))
    && (Bit(b.flags, 128) ==> h.lastRel == Some(b.rlocator))
  }

  function EncodeRel(b: Block): seq<byte> {
    if Bit(b.flags, 128) then [] else b.rlocator
  }

  function EncodeBlock(b: Block, h: Headers): seq<byte>
    requires BlockFits(b, h)
  {
    [b.id as byte] + (([b.flags as byte] + Le16(b.dataLen))
      + ((if b.image.Some? then EncodeImage(b.image.value) else []) + (EncodeRel(b) + Le32(b.blkno))))
  }

  predicate ItemFits(it: Item, h: Headers) {
    match it
    case BlockItem(b) => BlockFits(b, h)
    case OriginItem(o) => o < 65536
    case XidItem(x) => x < UINT32_LIMIT
  }

  function EncodeItem(it: Item, h: Headers): (s: seq<byte>)
    requires ItemFits(it, h)
    ensures s != []
  {
    match it
    case BlockItem(b) => EncodeBlock(b, h)
    case OriginItem(o) => [ID_ORIGIN as byte] + Le16(o)
    case XidItem(x) => [ID_TOPLEVEL_XID as byte] + Le32(x)
  }

  /** The headers with one more fragment. */
  function Apply(it: Item, h: Headers): Headers
    requires ItemFits(it, h)
  {
    var pos := h.pos + |EncodeItem(it, h)|;
    match it
    case BlockItem(b) =>
      h.(pos := pos, declared := h.declared + b.dataLen + ImageLen(b), blocks := h.blocks + [b], lastRel := Some(b.rlocator))
    case OriginItem(o) => h.(pos := pos, origin := Some(o))
    case XidItem(x) => h.(pos := pos, toplevelXid := Some(x))
  }

  predicate MainFits(m: MainData) {
    match m
    case NoMain => true
    case ShortMain(n) => n < 256
    case LongMain(n) => n < UINT32_LIMIT
  }

  function EncodeMain(m: MainData): seq<byte>
    requires MainFits(m)
  {
    match m
    case NoMain => []
    case ShortMain(n) => [ID_DATA_SHORT as byte] + [n as byte]
    case LongMain(n) => [ID_DATA_LONG as byte] + Le32(n)
  }

  function ApplyMain(m: MainData, h: Headers): Headers
    requires MainFits(m)
  {
    if m.NoMain? then h
    else h.(pos := h.pos + |EncodeMain(m)|, mainLen := m.len, declared := h.declared + m.len)
  }

  // ----- The parser on one fragment header

  lemma {:induction false} ParseImageBack(rec: seq<byte>, pos: nat, i: Image)
    requires ImageFits(i) && HasAt(rec, pos, EncodeImage(i))
    ensures ParseImage(rec, pos) == Some((i, pos + |EncodeImage(i)|))
  {
    var fixed := Le16(i.len) + (Le16(i.holeOffset) + [i.info as byte]);
    var hole: seq<byte> := if Compressed(i.info) && Bit(i.info, 1) then Le16(i.holeLength) else [];
    HasParts(rec, pos, fixed, hole);
    HasParts(rec, pos, Le16(i.len), Le16(i.holeOffset) + [i.info as byte]);
    HasParts(rec, pos + 2, Le16(i.holeOffset), [i.info as byte]);
    U16At(rec, pos, i.len);
    U16At(rec, pos + 2, i.holeOffset);
    ByteAt(rec, pos + 4, i.info as byte);
    if hole != [] {
      U16At(rec, pos + 5, i.holeLength);
    }
  }

  lemma {:induction false} ParseRelBack(rec: seq<byte>, pos: nat, b: Block, lastRel: Option<seq<byte>>)
    requires |b.rlocator| == 12 && pos <= |rec| && HasAt(rec, pos, EncodeRel(b))
    requires Bit(b.flags, 128) ==> lastRel == Some(b.rlocator)
    ensures ParseRel(rec, pos, Bit(b.flags, 128), lastRel) == Some((b.rlocator, pos + |EncodeRel(b)|))
  {
  }

  /** The parts of a block header, each at its place. */
  lemma {:induction false} BlockParts(rec: seq<byte>, pos: nat, b: Block, h: Headers, image: seq<byte>)
    requires BlockFits(b, h) && HasAt(rec, pos, EncodeBlock(b, h))
    requires image == if b.image.Some? then EncodeImage(b.image.value) else []
    ensures HasAt(rec, pos, [b.id as byte]) && HasAt(rec, pos + 1, [b.flags as byte]) && HasAt(rec, pos + 2, Le16(b.dataLen))
    ensures HasAt(rec, pos + 4, image) && HasAt(rec, pos + 4 + |image|, EncodeRel(b))
    ensures HasAt(rec, pos + 4 + |image| + |EncodeRel(b)|, Le32(b.blkno))
    ensures |EncodeBlock(b, h)| == 8 + |image| + |EncodeRel(b)|
  {
    var head, rest := [b.flags as byte] + Le16(b.dataLen), EncodeRel(b) + Le32(b.blkno);
    HasParts(rec, pos, [b.id as byte], head + (image + rest));
    HasParts(rec, pos + 1, head, image + rest);
    HasParts(rec, pos + 1, [b.flags as byte], Le16(b.dataLen));
    HasParts(rec, pos + 4, image, rest);
    HasParts(rec, pos + 4 + |image|, EncodeRel(b), Le32(b.blkno));
  }

  /** With every field where it should be, the block header parses. */
  lemma {:induction false} ParseBlockFields(rec: seq<byte>, h: Headers, b: Block, pos: nat, pos2: nat, pos3: nat)
    requires BlockFits(b, h) && pos + 3 <= pos2 <= pos3 && pos3 + 4 <= |rec|
    requires rec[pos] == b.flags && U16(rec, pos + 1) == b.dataLen
    requires if b.image.Some? then ParseImage(rec, pos + 3) == Some((b.image.value, pos2)) else pos2 == pos + 3
    requires ParseRel(rec, pos2, Bit(b.flags, 128), h.lastRel) == Some((b.rlocator, pos3))
    requires U32(rec, pos3) == b.blkno && pos3 + 4 == h.pos + |EncodeBlock(b, h)|
    ensures ParseBlock(rec, h, b.id, pos) == Some(Apply(BlockItem(b), h))
  {
  }

  lemma {:induction false} ParseBlockBack(rec: seq<byte>, h: Headers, b: Block)
    requires BlockFits(b, h) && HasAt(rec, h.pos, EncodeBlock(b, h))
    ensures rec[h.pos] == b.id
    ensures ParseBlock(rec, h, b.id, h.pos + 1) == Some(Apply(BlockItem(b), h))
  {
    var pos := h.pos;
    var image: seq<byte> := if b.image.Some? then EncodeImage(b.image.value) else [];
    BlockParts(rec, pos, b, h, image);
    ByteAt(rec, pos, b.id as byte);
    ByteAt(rec, pos + 1, b.flags as byte);
    U16At(rec, pos + 2, b.dataLen);
    if b.image.Some? {
      ParseImageBack(rec, pos + 4, b.image.value);
    }
    ParseRelBack(rec, pos + 4 + |image|, b, h.lastRel);
    U32At(rec, pos + 4 + |image| + |EncodeRel(b)|, b.blkno);
    ParseBlockFields(rec, h, b, pos + 1, pos + 4 + |image|, pos + 4 + |image| + |EncodeRel(b)|);
  }

  lemma {:induction false} ParseOriginBack(rec: seq<byte>, h: Headers, o: nat)
    requires o < 65536 && HasAt(rec, h.pos, [ID_ORIGIN as byte] + Le16(o))
    ensures ParseOne(rec, h) == More(Apply(OriginItem(o), h))
  {
    HasParts(rec, h.pos, [ID_ORIGIN as byte], Le16(o));
    ByteAt(rec, h.pos, ID_ORIGIN as byte);
    U16At(rec, h.pos + 1, o);
  }

  lemma {:induction false} ParseXidBack(rec: seq<byte>, h: Headers, x: nat)
    requires x < UINT32_LIMIT && HasAt(rec, h.pos, [ID_TOPLEVEL_XID as byte] + Le32(x))
    ensures ParseOne(rec, h) == More(Apply(XidItem(x), h))
  {
    HasParts(rec, h.pos, [ID_TOPLEVEL_XID as byte], Le32(x));
    ByteAt(rec, h.pos, ID_TOPLEVEL_XID as byte);
    U32At(rec, h.pos + 1, x);
  }

  lemma {:induction false} ParseItemBack(rec: seq<byte>, h: Headers, it: Item)
    requires ItemFits(it, h) && HasAt(rec, h.pos, EncodeItem(it, h))
    ensures ParseOne(rec, h) == More(Apply(it, h))
  {
    match it {
      case BlockItem(b) => ParseBlockBack(rec, h, b);
      case OriginItem(o) => ParseOriginBack(rec, h, o);
      case XidItem(x) => ParseXidBack(rec, h, x);
    }
  }

  lemma {:induction false} ParseMainBack(rec: seq<byte>, h: Headers, m: MainData)
    requires MainFits(m) && !m.NoMain? && HasAt(rec, h.pos, EncodeMain(m))
    ensures ParseOne(rec, h) == Last(ApplyMain(m, h))
  {
    match m {
      case ShortMain(n) =>
        HasParts(rec, h.pos, [ID_DATA_SHORT as byte], [n as byte]);
        ByteAt(rec, h.pos, ID_DATA_SHORT as byte);
        ByteAt(rec, h.pos + 1, n as byte);
      case LongMain(n) =>
        HasParts(rec, h.pos, [ID_DATA_LONG as byte], Le32(n));
        ByteAt(rec, h.pos, ID_DATA_LONG as byte);
        U32At(rec, h.pos + 1, n);
    }
  }

  // ----- Whole records

  /** Every fragment fits behind the ones before it. */
  predicate ItemsFit(its: seq<Item>, h: Headers)
    decreases |its|
  {
    its == [] || (ItemFits(its[0], h) && ItemsFit(its[1..], Apply(its[0], h)))
  }

  /** All fragment headers, the main data's last. */
  function EncodeAll(its: seq<Item>, m: MainData, h: Headers): seq<byte>
    requires ItemsFit(its, h) && MainFits(m)
    decreases |its|
  {
    if its == [] then EncodeMain(m) else EncodeItem(its[0], h) + EncodeAll(its[1..], m, Apply(its[0], h))
  }

  function ApplyAll(its: seq<Item>, m: MainData, h: Headers): (r: Headers)
    requires ItemsFit(its, h) && MainFits(m)
    ensures h.declared <= r.declared
    decreases |its|
  {
    if its == [] then ApplyMain(m, h) else ApplyAll(its[1..], m, Apply(its[0], h))
  }

  lemma {:induction false} ApplyAllEnd(its: seq<Item>, m: MainData, h: Headers)
    requires ItemsFit(its, h) && MainFits(m)
    ensures ApplyAll(its, m, h).pos == h.pos + |EncodeAll(its, m, h)|
    decreases |its|
  {
    if its != [] {
      ApplyAllEnd(its[1..], m, Apply(its[0], h));
    }
  }

  lemma {:induction false} SmallTotal(h: Headers)
    requires h.declared < UINT32_LIMIT
    ensures DataTotal(h) == h.declared
  {
  }

  lemma {:induction false} ParseMore(rec: seq<byte>, h: Headers, h': Headers)
    requires h.pos <= |rec| && h.declared < UINT32_LIMIT && |rec| - h.pos > h.declared && ParseOne(rec, h) == More(h')
    ensures ParseFrom(rec, h) == ParseFrom(rec, h')
  {
    SmallTotal(h);
  }

  lemma {:induction false} ParseEnd(rec: seq<byte>, h: Headers, m: MainData)
    requires MainFits(m) && HasAt(rec, h.pos, EncodeMain(m))
    requires |rec| == h.pos + |EncodeMain(m)| + ApplyMain(m, h).declared && ApplyMain(m, h).declared < UINT32_LIMIT
    ensures ParseFrom(rec, h) == Some(ApplyMain(m, h))
  {
    SmallTotal(h);
    SmallTotal(ApplyMain(m, h));
    if !m.NoMain? {
      ParseMainBack(rec, h, m);
    }
  }

  lemma {:induction false} ParseAllBack(rec: seq<byte>, its: seq<Item>, m: MainData, h: Headers)
    requires ItemsFit(its, h) && MainFits(m)
    requires HasAt(rec, h.pos, EncodeAll(its, m, h))
    requires |rec| == h.pos + |EncodeAll(its, m, h)| + ApplyAll(its, m, h).declared
    requires ApplyAll(its, m, h).declared < UINT32_LIMIT
    ensures ParseFrom(rec, h) == Some(ApplyAll(its, m, h))
    decreases |its|
  {
    if its == [] {
      ParseEnd(rec, h, m);
    } else {
      var h', first := Apply(its[0], h), EncodeItem(its[0], h);
      var rest := EncodeAll(its[1..], m, h');
      assert EncodeAll(its, m, h) == first + rest;
      HasParts(rec, h.pos, first, rest);
      ParseItemBack(rec, h, its[0]);
      ParseMore(rec, h, h');
      ParseAllBack(rec, its[1..], m, h');
    }
  }

  /** A record put together from fragments is parsed into exactly those fragments. */
  lemma {:induction false} RecordRoundTrip(head: seq<byte>, its: seq<Item>, m: MainData, payload: seq<byte>)
    requires |head| == RECORD_HEADER
    requires ItemsFit(its, InitialHeaders()) && MainFits(m)
    requires |payload| == ApplyAll(its, m, InitialHeaders()).declared < UINT32_LIMIT
    ensures var rec := head + EncodeAll(its, m, InitialHeaders()) + payload;
      var h := ApplyAll(its, m, InitialHeaders());
      ParseFrom(rec, InitialHeaders()) == Some(h) && h.pos <= |rec| && rec[h.pos..] == payload
  {
    var h := InitialHeaders();
    var headers := EncodeAll(its, m, h);
    var rec := head + headers + payload;
    assert rec[h.pos..h.pos + |headers|] == headers;
    ApplyAllEnd(its, m, h);
    ParseAllBack(rec, its, m, h);
  }

  // ----- What is accepted was put together

  lemma {:induction false} HasBoth(rec: seq<byte>, pos: nat, a: seq<byte>, b: seq<byte>)
    requires HasAt(rec, pos, a) && HasAt(rec, pos + |a|, b)
    ensures HasAt(rec, pos, a + b)
  {
    assert rec[pos..pos + |a + b|] == rec[pos..pos + |a|] + rec[pos + |a|..pos + |a| + |b|];
  }

  lemma {:induction false} HasByte(rec: seq<byte>, pos: nat)
    requires pos < |rec|
    ensures HasAt(rec, pos, [rec[pos]])
  {
  }

  lemma {:induction false} HasU16(rec: seq<byte>, pos: nat)
    requires pos + 2 <= |rec|
    ensures HasAt(rec, pos, Le16(U16(rec, pos)))
  {
    DivUnique(U16(rec, pos), 256, rec[pos + 1] as nat, rec[pos] as nat);
    assert rec[pos..pos + 2] == [rec[pos], rec[pos + 1]];
  }

  lemma {:induction false} HasU32(rec: seq<byte>, pos: nat)
    requires pos + 4 <= |rec|
    ensures HasAt(rec, pos, Le32(U32(rec, pos)))
  {
    DivUnique(U32(rec, pos), 65536, U16(rec, pos + 2), U16(rec, pos));
    HasU16(rec, pos);
    HasU16(rec, pos + 2);
    HasBoth(rec, pos, Le16(U16(rec, pos)), Le16(U16(rec, pos + 2)));
  }

  lemma {:induction false} ImageWasEncoded(rec: seq<byte>, pos: nat, i: Image, end: nat)
    requires pos <= |rec| && ParseImage(rec, pos) == Some((i, end))
    ensures ImageFits(i) && HasAt(rec, pos, EncodeImage(i)) && end == pos + |EncodeImage(i)|
  {
    HasU16(rec, pos);
    HasU16(rec, pos + 2);
    HasByte(rec, pos + 4);
    HasBoth(rec, pos + 2, Le16(i.holeOffset), [i.info as byte]);
    HasBoth(rec, pos, Le16(i.len), Le16(i.holeOffset) + [i.info as byte]);
    var hole: seq<byte> := if Compressed(i.info) && Bit(i.info, 1) then Le16(i.holeLength) else [];
    if hole != [] {
      HasU16(rec, pos + 5);
    }
    HasBoth(rec, pos, Le16(i.len) + (Le16(i.holeOffset) + [i.info as byte]), hole);
  }

  /** The relation that later blocks may refer to has a relation's length. */
  predicate LastRelOk(h: Headers) {
    h.lastRel.Some? ==> |h.lastRel.value| == 12
  }

  lemma {:induction false} RelWasEncoded(rec: seq<byte>, pos: nat, b: Block, h: Headers, end: nat)
    requires pos <= |rec| && LastRelOk(h) && ParseRel(rec, pos, Bit(b.flags, 128), h.lastRel) == Some((b.rlocator, end))
    ensures |b.rlocator| == 12 && (Bit(b.flags, 128) ==> h.lastRel == Some(b.rlocator))
    ensures HasAt(rec, pos, EncodeRel(b)) && end == pos + |EncodeRel(b)|
  {
  }

  /** Fields that lie one behind the other are a block header. */
  lemma {:induction false} BlockFromParts(rec: seq<byte>, pos: nat, b: Block, h: Headers, image: seq<byte>)
    requires BlockFits(b, h) && image == if b.image.Some? then EncodeImage(b.image.value) else []
    requires HasAt(rec, pos, [b.id as byte]) && HasAt(rec, pos + 1, [b.flags as byte]) && HasAt(rec, pos + 2, Le16(b.dataLen))
    requires HasAt(rec, pos + 4, image) && HasAt(rec, pos + 4 + |image|, EncodeRel(b))
    requires HasAt(rec, pos + 4 + |image| + |EncodeRel(b)|, Le32(b.blkno))
    ensures HasAt(rec, pos, EncodeBlock(b, h)) && |EncodeBlock(b, h)| == 8 + |image| + |EncodeRel(b)|
  {
    var head, rest := [b.flags as byte] + Le16(b.dataLen), EncodeRel(b) + Le32(b.blkno);
    HasBoth(rec, pos + 4 + |image|, EncodeRel(b), Le32(b.blkno));
    HasBoth(rec, pos + 4, image, rest);
    HasBoth(rec, pos + 1, [b.flags as byte], Le16(b.dataLen));
    HasBoth(rec, pos + 1, head, image + rest);
    HasBoth(rec, pos, [b.id as byte], head + (image + rest));
  }

  /** Where the parts of a block header that parses lie. */
  lemma {:induction false} BlockFieldsParsed(rec: seq<byte>, h: Headers, id: nat, pos: nat) returns (b: Block, pos2: nat, pos3: nat)
    requires pos <= |rec| && ParseBlock(rec, h, id, pos).Some?
    ensures pos + 3 <= pos2 <= pos3 && pos3 + 4 <= |rec|
    ensures (h.blocks != [] ==> id > h.blocks[|h.blocks| - 1].id) && b.id == id
    ensures rec[pos] == b.flags && U16(rec, pos + 1) == b.dataLen && U32(rec, pos3) == b.blkno
    ensures Bit(b.flags, 32) == (b.dataLen != 0) && Bit(b.flags, 16) == b.image.Some?
    ensures if b.image.Some? then ParseImage(rec, pos + 3) == Some((b.image.value, pos2)) else pos2 == pos + 3
    ensures ParseRel(rec, pos2, Bit(b.flags, 128), h.lastRel) == Some((b.rlocator, pos3))
  {
    var flags := rec[pos] as nat;
    pos2 := if Bit(flags, 16) then ParseImage(rec, pos + 3).value.1 else pos + 3;
    pos3 := ParseRel(rec, pos2, Bit(flags, 128), h.lastRel).value.1;
    b := ParseBlock(rec, h, id, pos).value.blocks[|h.blocks|];
  }

  lemma {:induction false} FieldsWereEncoded(rec: seq<byte>, h: Headers, b: Block, pos: nat, pos2: nat, pos3: nat)
    requires pos + 4 <= pos2 <= pos3 && pos3 + 4 <= |rec| && LastRelOk(h) && b.id <= MAX_BLOCK_ID
    requires h.blocks != [] ==> b.id > h.blocks[|h.blocks| - 1].id
    requires rec[pos] == b.id && rec[pos + 1] == b.flags && U16(rec, pos + 2) == b.dataLen && U32(rec, pos3) == b.blkno
    requires Bit(b.flags, 32) == (b.dataLen != 0) && Bit(b.flags, 16) == b.image.Some?
    requires if b.image.Some? then ParseImage(rec, pos + 4) == Some((b.image.value, pos2)) else pos2 == pos + 4
    requires ParseRel(rec, pos2, Bit(b.flags, 128), h.lastRel) == Some((b.rlocator, pos3))
    ensures BlockFits(b, h) && HasAt(rec, pos, EncodeBlock(b, h))
  {
    var image: seq<byte> := [];
    if b.image.Some? {
      ImageWasEncoded(rec, pos + 4, b.image.value, pos2);
      image := EncodeImage(b.image.value);
    }
    RelWasEncoded(rec, pos2, b, h, pos3);
    HasByte(rec, pos);
    HasByte(rec, pos + 1);
    HasU16(rec, pos + 2);
    HasU32(rec, pos3);
    BlockFromParts(rec, pos, b, h, image);
  }

  lemma {:induction false} BlockWasEncoded(rec: seq<byte>, h: Headers) returns (b: Block)
    requires h.pos < |rec| && LastRelOk(h) && rec[h.pos] as nat <= MAX_BLOCK_ID
    requires ParseBlock(rec, h, rec[h.pos] as nat, h.pos + 1).Some?
    ensures BlockFits(b, h) && HasAt(rec, h.pos, EncodeBlock(b, h))
  {
    var pos2, pos3;
    b, pos2, pos3 := BlockFieldsParsed(rec, h, rec[h.pos] as nat, h.pos + 1);
    FieldsWereEncoded(rec, h, b, h.pos, pos2, pos3);
  }

  lemma {:induction false} ItemWasEncoded(rec: seq<byte>, h: Headers) returns (it: Item)
    requires h.pos < |rec| && LastRelOk(h) && ParseOne(rec, h).More?
    ensures ItemFits(it, h) && HasAt(rec, h.pos, EncodeItem(it, h))
  {
    var pos := h.pos;
    HasByte(rec, pos);
    if rec[pos] as nat == ID_ORIGIN {
      it := OriginItem(U16(rec, pos + 1));
      HasU16(rec, pos + 1);
      HasBoth(rec, pos, [rec[pos]], Le16(it.origin));
    } else if rec[pos] as nat == ID_TOPLEVEL_XID {
      it := XidItem(U32(rec, pos + 1));
      HasU32(rec, pos + 1);
      HasBoth(rec, pos, [rec[pos]], Le32(it.xid));
    } else {
      var b := BlockWasEncoded(rec, h);
      it := BlockItem(b);
    }
  }

  lemma {:induction false} MainWasEncoded(rec: seq<byte>, h: Headers) returns (m: MainData)
    requires h.pos < |rec| && ParseOne(rec, h).Last?
    ensures MainFits(m) && HasAt(rec, h.pos, EncodeMain(m)) && ParseOne(rec, h).h == ApplyMain(m, h)
  {
    var pos := h.pos;
    HasByte(rec, pos);
    if rec[pos] as nat == ID_DATA_SHORT {
      m := ShortMain(rec[pos + 1] as nat);
      HasByte(rec, pos + 1);
      HasBoth(rec, pos, [rec[pos]], [rec[pos + 1]]);
    } else {
      m := LongMain(U32(rec, pos + 1));
      HasU32(rec, pos + 1);
      HasBoth(rec, pos, [rec[pos]], Le32(m.len));
    }
  }

  lemma {:induction false} OneMoreItem(rec: seq<byte>, h: Headers, it: Item, rest: seq<Item>, m: MainData)
    requires ItemFits(it, h) && ItemsFit(rest, Apply(it, h)) && MainFits(m)
    requires HasAt(rec, h.pos, EncodeItem(it, h)) && HasAt(rec, Apply(it, h).pos, EncodeAll(rest, m, Apply(it, h)))
    ensures var its := [it] + rest;
      && ItemsFit(its, h)
      && HasAt(rec, h.pos, EncodeAll(its, m, h))
      && ApplyAll(its, m, h) == ApplyAll(rest, m, Apply(it, h))
  {
    var its := [it] + rest;
    var a, b := EncodeItem(it, h), EncodeAll(rest, m, Apply(it, h));
    HasBoth(rec, h.pos, a, b);
    assert its[0] == it && its[1..] == rest;
    assert EncodeAll(its, m, h) == a + b;
  }

  lemma {:induction false} AllWereEncoded(rec: seq<byte>, h: Headers) returns (its: seq<Item>, m: MainData)
    requires h.pos <= |rec| && LastRelOk(h) && ParseFrom(rec, h).Some?
    ensures ItemsFit(its, h) && MainFits(m) && HasAt(rec, h.pos, EncodeAll(its, m, h))
    ensures ParseFrom(rec, h) == Some(ApplyAll(its, m, h))
    decreases |rec| - h.pos
  {
    its, m := [], NoMain;
    if |rec| - h.pos > DataTotal(h) {
      var r := ParseOne(rec, h);
      if r.Last? {
        m := MainWasEncoded(rec, h);
      } else {
        var it := ItemWasEncoded(rec, h);
        ParseItemBack(rec, h, it);
        var rest;
        rest, m := AllWereEncoded(rec, r.h);
        OneMoreItem(rec, h, it, rest, m);
        its := [it] + rest;
      }
    }
  }

  /** The record is a head, the headers of these fragments, and the bytes that they announce. */
  ghost predicate PutTogether(rec: seq<byte>, its: seq<Item>, m: MainData, h: Headers) {
    && ItemsFit(its, InitialHeaders()) && MainFits(m)
    && HasAt(rec, RECORD_HEADER, EncodeAll(its, m, InitialHeaders()))
    && h == ApplyAll(its, m, InitialHeaders())
    && |rec| == h.pos + h.declared
  }

  /**
   The parser accepts what was put together from fragments, and nothing else, unless the
   announced lengths wrap: then the main data announced is longer than what is left.
   */
  lemma {:induction false} AcceptedIff(rec: seq<byte>, h: Headers)
    requires RECORD_HEADER <= |rec| < UINT32_LIMIT
    ensures ParseFrom(rec, InitialHeaders()) == Some(h) && h.mainLen <= |rec| - h.pos <==> exists its, m :: PutTogether(rec, its, m, h)
  {
    if ParseFrom(rec, InitialHeaders()) == Some(h) && h.mainLen <= |rec| - h.pos {
      var its, m := AllWereEncoded(rec, InitialHeaders());
      AcceptedFits(rec, h);
      assert PutTogether(rec, its, m, h);
    }
    if its, m :| PutTogether(rec, its, m, h) {
      ApplyAllEnd(its, m, InitialHeaders());
      ParseAllBack(rec, its, m, InitialHeaders());
      AcceptedFits(rec, h);
    }
  }

  // ----- A record whose announced lengths wrap

  /** A block that announces 65535 bytes of data and no image. */
  function WideBlock(rel: seq<byte>): (b: Block)
    requires |rel| == 12
    ensures BlockFits(b, InitialHeaders())
  {
    Block(0, 32, None, 65535, rel, 0)
  }

  lemma {:induction false} ParseLast(rec: seq<byte>, h: Headers, h': Headers)
    requires h.pos <= |rec| && h.declared < UINT32_LIMIT && |rec| - h.pos > h.declared && ParseOne(rec, h) == Last(h')
    requires h'.declared == UINT32_LIMIT + (|rec| - h'.pos) && |rec| - h'.pos < UINT32_LIMIT
    ensures ParseFrom(rec, h) == Some(h')
  {
    SmallTotal(h);
    DivUnique(h'.declared, UINT32_LIMIT, 1, |rec| - h'.pos);
  }

  /**
   Block data of 65535 bytes and main data of 4294967292 bytes announced, 65531 bytes there: the
   announced lengths wrap to what is there, and the record is accepted.
   */
  lemma {:induction false} WrappedLengthsAreAccepted(head: seq<byte>, rel: seq<byte>, payload: seq<byte>)
    requires |head| == RECORD_HEADER && |rel| == 12 && |payload| == 65531
    ensures var it, m := BlockItem(WideBlock(rel)), LongMain(4294967292);
      var h := ApplyMain(m, Apply(it, InitialHeaders()));
      var rec := head + (EncodeItem(it, InitialHeaders()) + EncodeMain(m)) + payload;
      && ParseFrom(rec, InitialHeaders()) == Some(h)
      && h.pos <= |rec| && rec[h.pos..] == payload
      && h.declared != |payload| && h.mainLen > |payload|
  {
    var it, m, h := BlockItem(WideBlock(rel)), LongMain(4294967292), InitialHeaders();
    var first, second := EncodeItem(it, h), EncodeMain(m);
    var rec := head + (first + second) + payload;
    var h1 := Apply(it, h);
    var h2 := ApplyMain(m, h1);
    assert rec[h.pos..h.pos + |first + second|] == first + second;
    HasParts(rec, h.pos, first, second);
    ParseItemBack(rec, h, it);
    ParseMore(rec, h, h1);
    ParseMainBack(rec, h1, m);
    assert |rec| - h2.pos == |payload|;
    ParseLast(rec, h1, h2);
  }
}
