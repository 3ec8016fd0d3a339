/**
 Decoding a WAL record into its fragments, fetools/pg18/xlogreader.c:1666-1990.

 The first part parses the fragment headers, the second copies the fragments behind the
 block array of the decoded record, aligning data fragments.
 */
module RecordDecoder {
  import opened Bytes
  import opened PageFormat

  const MAX_BLOCK_ID: nat := 32
  const ID_DATA_SHORT: nat := 255
  const ID_DATA_LONG: nat := 254
  const ID_ORIGIN: nat := 253
  const ID_TOPLEVEL_XID: nat := 252

  predicate Bit(x: nat, mask: nat)
    requires mask > 0
  {
    (x / mask) % 2 == 1
  }

  // ----- Fragment headers

  datatype Image = Image(len: nat, holeOffset: nat, holeLength: nat, info: nat)

  datatype Block = Block(id: nat, flags: nat, image: Option<Image>, dataLen: nat, rlocator: seq<byte>, blkno: nat)

  /**
   The parser's variables.  `declared` is the true sum of the announced lengths; the program
   keeps it in 32 bits, as `datatotal`.
   */
  datatype Headers = Headers(pos: nat, declared: nat, blocks: seq<Block>, mainLen: nat,
                             lastRel: Option<seq<byte>>, origin: Option<nat>, toplevelXid: Option<nat>)

  function DataTotal(h: Headers): nat {
    h.declared % UINT32_LIMIT
  }

  function InitialHeaders(): Headers {
    Headers(RECORD_HEADER, 0, [], 0, None, None, None)
  }

  datatype Parsed = More(h: Headers) | Last(h: Headers) | Invalid

  predicate Compressed(info: nat) {
    Bit(info, 4) || Bit(info, 8) || Bit(info, 16)
  }

  /** The consistency checks on a block image header. */
  predicate ImageOk(i: Image) {
    var hole := Bit(i.info, 1);
    && !(hole && (i.holeOffset == 0 || i.holeLength == 0 || i.len == BLCKSZ))
    && !(!hole && (i.holeOffset != 0 || i.holeLength != 0))
    && !(Compressed(i.info) && i.len == BLCKSZ)
    && !(!hole && !Compressed(i.info) && i.len != BLCKSZ)
  }

  /** An image header and the position behind it; an uncompressed image's hole is the 16-bit rest of the page. */
  function ParseImage(rec: seq<byte>, pos: nat): (r: Option<(Image, nat)>)
    requires pos <= |rec|
    ensures r.Some? ==> pos < r.value.1 <= |rec| && r.value.0.len < 65536
  {
    if |rec| - pos < 5 then None
    else
      var len, info := U16(rec, pos), rec[pos + 4] as nat;
      if Compressed(info) && Bit(info, 1) && |rec| - pos < 7 then None
      else
        var end := if Compressed(info) && Bit(info, 1) then pos + 7 else pos + 5;
        var hole := if !Compressed(info) then (BLCKSZ - len) % 65536 else if Bit(info, 1) then U16(rec, pos + 5) else 0;
        var image := Image(len, U16(rec, pos + 2), hole, info);
        if ImageOk(image) then Some((image, end)) else None
  }

  /**
    * Which image headers are accepted, on the bytes themselves. An accepted uncompressed image and its hole make up
    * a page if and only if the image is not longer than one: the hole's length is computed in 16 bits.
    */
  lemma ImageAcceptedIff(rec: seq<byte>, pos: nat)
    requires pos + 5 <= |rec|
    ensures var r, len, offset, info := ParseImage(rec, pos), U16(rec, pos), U16(rec, pos + 2), rec[pos + 4] as nat;
            var hole, compressed := info % 2 == 1, (info / 4) % 8 != 0;
            && (r.Some? <==>
                if compressed then
                  && len != BLCKSZ
                  && if hole then pos + 7 <= |rec| && offset != 0 && U16(rec, pos + 5) != 0 else offset == 0
                else if hole then len != BLCKSZ && offset != 0
                else len == BLCKSZ && offset == 0)
            && (r.Some? ==>
                var Image(imageLen, holeOffset, holeLength, imageInfo) := r.value.0;
                && imageLen == len && holeOffset == offset && imageInfo == info
                && (if compressed && hole then r.value.1 == pos + 7 && holeLength == U16(rec, pos + 5) else r.value.1 == pos + 5)
                && (!hole ==> holeLength == 0)
                && (!compressed ==> (imageLen + holeLength == BLCKSZ <==> imageLen <= BLCKSZ)))
  {
    var info := rec[pos + 4] as nat;
    CompressionBits(info);
  }

  /** Compression of any of the three kinds shows in bits two to four. */
  lemma CompressionBits(info: nat)
    ensures Compressed(info) <==> (info / 4) % 8 != 0
  {
    DivDiv(info, 4, 2);
    DivDiv(info, 4, 4);
    LowBits(info / 4);
  }

  lemma LowBits(q: nat)
    ensures q % 8 != 0 <==> q % 2 == 1 || (q / 2) % 2 == 1 || (q / 4) % 2 == 1
  {
    var a := q / 8;
    var r := q % 8;
    DivUnique(q, 2, 4 * a + r / 2, r % 2);
    DivUnique(q, 4, 2 * a + r / 4, r % 4);
  }

  /** The relation of a block: given here, or the previous block's. */
  function ParseRel(rec: seq<byte>, pos: nat, sameRel: bool, lastRel: Option<seq<byte>>): (r: Option<(seq<byte>, nat)>)
    requires pos <= |rec|
    ensures r.Some? ==> pos <= r.value.1 <= |rec|
  {
    if sameRel then (if lastRel.None? then None else Some((lastRel.value, pos)))
    else if |rec| - pos < 12 then None
    else Some((rec[pos..pos + 12], pos + 12))
  }

  /** A block header, read from behind its id. */
  function ParseBlock(rec: seq<byte>, h: Headers, id: nat, pos: nat): (r: Option<Headers>)
    requires pos <= |rec|
    ensures r.Some? ==> pos < r.value.pos <= |rec|
  {
    if h.blocks != [] && id <= h.blocks[|h.blocks| - 1].id then None
    else if |rec| - pos < 3 then None
    else
      var flags, dataLen := rec[pos] as nat, U16(rec, pos + 1);
      if Bit(flags, 32) != (dataLen != 0) then None
      else
        var image: Option<Option<(Image, nat)>> :=
          if !Bit(flags, 16) then Some(None)
          else (match ParseImage(rec, pos + 3) case None => None case Some(i) => Some(Some(i)));
        if image.None? then None
        else
          var pos2 := if image.value.Some? then image.value.value.1 else pos + 3;
          var img := if image.value.Some? then Some(image.value.value.0) else None;
          match ParseRel(rec, pos2, Bit(flags, 128), h.lastRel)
          case None => None
          case Some((rel, pos3)) =>
            if |rec| - pos3 < 4 then None
            else Some(h.(pos := pos3 + 4,
                         declared := h.declared + dataLen + (if img.Some? then img.value.len else 0),
                         blocks := h.blocks + [Block(id, flags, img, dataLen, rel, U32(rec, pos3))],
                         lastRel := Some(rel)))
  }

  /** One fragment header; main data is always the last. */
  function ParseOne(rec: seq<byte>, h: Headers): (r: Parsed)
    requires h.pos < |rec|
    ensures !r.Invalid? ==> h.pos < r.h.pos <= |rec|
  {
    var id, pos, left := rec[h.pos] as nat, h.pos + 1, |rec| - h.pos - 1;
    if id == ID_DATA_SHORT then
      if left < 1 then Invalid
      else Last(h.(pos := pos + 1, mainLen := rec[pos] as nat, declared := h.declared + (rec[pos] as nat)))
    else if id == ID_DATA_LONG then
      if left < 4 then Invalid
      else Last(h.(pos := pos + 4, mainLen := U32(rec, pos), declared := h.declared + U32(rec, pos)))
    else if id == ID_ORIGIN then
      if left < 2 then Invalid else More(h.(pos := pos + 2, origin := Some(U16(rec, pos))))
    else if id == ID_TOPLEVEL_XID then
      if left < 4 then Invalid else More(h.(pos := pos + 4, toplevelXid := Some(U32(rec, pos))))
    else if id <= MAX_BLOCK_ID then
      match ParseBlock(rec, h, id, pos)
      case None => Invalid
      case Some(h') => More(h')
    else Invalid
  }

  /** All fragment headers, and the final check that what is left is what was announced. */
  function ParseFrom(rec: seq<byte>, h: Headers): (r: Option<Headers>)
    requires h.pos <= |rec|
    decreases |rec| - h.pos
  {
    if |rec| - h.pos <= DataTotal(h) then Accept(rec, h)
    else
      match ParseOne(rec, h)
      case Invalid => None
      case Last(h') => Accept(rec, h')
      case More(h') => ParseFrom(rec, h')
  }

  function Accept(rec: seq<byte>, h: Headers): Option<Headers>
    requires h.pos <= |rec|
  {
    if |rec| - h.pos == DataTotal(h) then Some(h) else None
  }

  method ParseHeaders(rec: seq<byte>) returns (r: Option<Headers>)
    requires |rec| >= RECORD_HEADER
    ensures r == ParseFrom(rec, InitialHeaders())
  {
    var h := InitialHeaders();
    while |rec| - h.pos > DataTotal(h)
      invariant h.pos <= |rec|
      invariant ParseFrom(rec, InitialHeaders()) == ParseFrom(rec, h)
      decreases |rec| - h.pos
    {
      match ParseOne(rec, h) {
        case Invalid => return None;
        case Last(h') => return Accept(rec, h');
        case More(h') => h := h';
      }
    }
    return Accept(rec, h);
  }

  // ----- What accepted headers look like

  function ImageLen(b: Block): nat {
    if b.image.Some? then b.image.value.len else 0
  }

  function LensOf(blocks: seq<Block>): nat {
    if blocks == [] then 0
    else LensOf(blocks[..|blocks| - 1]) + ImageLen(blocks[|blocks| - 1]) + blocks[|blocks| - 1].dataLen
  }

  predicate BlockOk(b: Block, i: nat) {
    i <= b.id <= MAX_BLOCK_ID && ImageLen(b) < 65536 && b.dataLen < 65536
  }

  /** Block ids increase, so that there are at most as many blocks as ids; lengths come from 16-bit fields. */
  ghost predicate BlocksOk(blocks: seq<Block>) {
    && |blocks| <= MAX_BLOCK_ID + 1
    && (forall i :: 0 <= i < |blocks| ==> BlockOk(blocks[i], i))
    && (forall i, j :: 0 <= i < j < |blocks| ==> blocks[i].id < blocks[j].id)
  }

  ghost predicate HeadersOk(rec: seq<byte>, h: Headers) {
    && RECORD_HEADER <= h.pos <= |rec|
    && h.declared == LensOf(h.blocks) + h.mainLen
    && BlocksOk(h.blocks)
  }

  lemma {:induction false} OneMoreBlock(blocks: seq<Block>, b: Block)
    requires BlocksOk(blocks) && b.id <= MAX_BLOCK_ID && ImageLen(b) < 65536 && b.dataLen < 65536
    requires blocks != [] ==> b.id > blocks[|blocks| - 1].id
    ensures BlocksOk(blocks + [b])
  {
    if blocks != [] {
      assert BlockOk(blocks[|blocks| - 1], |blocks| - 1);
    }
  }

  lemma {:induction false} LensOneMore(blocks: seq<Block>, b: Block)
    ensures LensOf(blocks + [b]) == LensOf(blocks) + ImageLen(b) + b.dataLen
  {
    assert (blocks + [b])[..|blocks|] == blocks;
  }

  lemma {:induction false} ParseBlockKeepsOk(rec: seq<byte>, h: Headers, id: nat, pos: nat)
    requires HeadersOk(rec, h) && h.mainLen == 0 && h.pos <= pos <= |rec| && id <= MAX_BLOCK_ID
    requires ParseBlock(rec, h, id, pos).Some?
    ensures HeadersOk(rec, ParseBlock(rec, h, id, pos).value) && ParseBlock(rec, h, id, pos).value.mainLen == 0
  {
    var h' := ParseBlock(rec, h, id, pos).value;
    var b := h'.blocks[|h.blocks|];
    OneMoreBlock(h.blocks, b);
    LensOneMore(h.blocks, b);
  }

  lemma {:induction false} ParseOneKeepsOk(rec: seq<byte>, h: Headers)
    requires HeadersOk(rec, h) && h.mainLen == 0 && h.pos < |rec|
    requires !ParseOne(rec, h).Invalid?
    ensures HeadersOk(rec, ParseOne(rec, h).h)
    ensures ParseOne(rec, h).More? ==> ParseOne(rec, h).h.mainLen == 0
  {
    var id := rec[h.pos] as nat;
    if id <= MAX_BLOCK_ID {
      ParseBlockKeepsOk(rec, h, id, h.pos + 1);
    } else {
      assert ParseOne(rec, h).h.blocks == h.blocks;
    }
  }

  lemma {:induction false} ParseKeepsOk(rec: seq<byte>, h: Headers)
    requires HeadersOk(rec, h) && h.mainLen == 0
    requires ParseFrom(rec, h).Some?
    ensures HeadersOk(rec, ParseFrom(rec, h).value)
    decreases |rec| - h.pos
  {
    if |rec| - h.pos > DataTotal(h) {
      ParseOneKeepsOk(rec, h);
      var r := ParseOne(rec, h);
      if r.More? {
        ParseKeepsOk(rec, r.h);
      }
    }
  }

  lemma {:induction false} LensBound(blocks: seq<Block>)
    requires BlocksOk(blocks)
    ensures LensOf(blocks) <= |blocks| * 131070
  {
    if blocks != [] {
      assert BlockOk(blocks[|blocks| - 1], |blocks| - 1);
      LensBound(blocks[..|blocks| - 1]);
    }
  }

  /**
   An accepted record holds exactly the announced bytes if and only if the main data announced
   is not longer than what is left of the record.
   */
  lemma {:induction false} AcceptedFits(rec: seq<byte>, h: Headers)
    requires RECORD_HEADER <= |rec| < UINT32_LIMIT
    requires ParseFrom(rec, InitialHeaders()) == Some(h)
    ensures HeadersOk(rec, h)
    ensures h.declared == |rec| - h.pos <==> h.mainLen <= |rec| - h.pos
    ensures h.declared < UINT32_LIMIT <==> h.mainLen <= |rec| - h.pos
  {
    ParseKeepsOk(rec, InitialHeaders());
    AcceptedTotal(rec, InitialHeaders());
    LensBound(h.blocks);
    WrapsOnce(h.declared, LensOf(h.blocks), h.mainLen);
  }

  lemma {:induction false} WrapsOnce(declared: nat, lens: nat, mainLen: nat)
    requires declared == lens + mainLen && lens < UINT32_LIMIT
    ensures declared % UINT32_LIMIT == declared <==> declared < UINT32_LIMIT
    ensures mainLen <= declared % UINT32_LIMIT <==> declared < UINT32_LIMIT
  {
    if declared >= UINT32_LIMIT && mainLen < UINT32_LIMIT {
      DivUnique(declared, UINT32_LIMIT, 1, declared - UINT32_LIMIT);
    }
  }

  lemma {:induction false} AcceptedTotal(rec: seq<byte>, h: Headers)
    requires h.pos <= |rec| && ParseFrom(rec, h).Some?
    ensures var a := ParseFrom(rec, h).value; a.pos <= |rec| && |rec| - a.pos == DataTotal(a)
    decreases |rec| - h.pos
  {
    if |rec| - h.pos > DataTotal(h) {
      var r := ParseOne(rec, h);
      if r.More? {
        AcceptedTotal(rec, r.h);
      }
    }
  }

  // ----- The decoded layout

  /** Sizes of the fixed part of a decoded record and of one block entry; both multiples of eight. */
  datatype Layout = Layout(fixedSize: nat, blockSize: nat)

  function RequiredSpace(l: Layout, totLen: nat): nat {
    l.fixedSize + l.blockSize * (MAX_BLOCK_ID + 1) + totLen + 7 + 7 * (MAX_BLOCK_ID + 1) + 7
  }

  /** A copied fragment: where it was put and its bytes. */
  datatype Fragment = Fragment(at: nat, bytes: seq<byte>, aligned: bool)

  function PayloadOf(frags: seq<Fragment>): seq<byte> {
    if frags == [] then [] else PayloadOf(frags[..|frags| - 1]) + frags[|frags| - 1].bytes
  }

  predicate OnBoundary(f: Fragment) {
    f.aligned ==> f.at % 8 == 0
  }

  /** Fragments lie one behind the other between `from` and `to`, data fragments on multiples of eight. */
  ghost predicate Placed(frags: seq<Fragment>, from: nat, to: nat) {
    && from <= to
    && (forall i :: 0 <= i < |frags| ==> from <= frags[i].at && frags[i].at + |frags[i].bytes| <= to)
    && (forall i, j :: 0 <= i < j < |frags| ==> frags[i].at + |frags[i].bytes| <= frags[j].at)
    && (forall i :: 0 <= i < |frags| ==> OnBoundary(frags[i]))
  }

  /** What the fragments must be, by length and alignment: per block its image, unaligned, and its data, aligned. */
  function ExpectedLens(blocks: seq<Block>): seq<(nat, bool)> {
    if blocks == [] then []
    else
      ExpectedLens(blocks[..|blocks| - 1]) + BlockLens(blocks[|blocks| - 1])
  }

  function BlockLens(b: Block): seq<(nat, bool)> {
    (if b.image.Some? then [(b.image.value.len, false)] else []) + (if b.dataLen > 0 then [(b.dataLen, true)] else [])
  }

  function Lens(frags: seq<Fragment>): seq<(nat, bool)> {
    seq(|frags|, i requires 0 <= i < |frags| => (|frags[i].bytes|, frags[i].aligned))
  }

  /** The copying loop's state. */
  datatype Copier = Copier(ptr: nat, out: nat, frags: seq<Fragment>)

  ghost predicate CopierOk(rec: seq<byte>, payload: nat, base: nat, c: Copier, padded: nat) {
    && payload <= c.ptr <= |rec|
    && PayloadOf(c.frags) == rec[payload..c.ptr]
    && Placed(c.frags, base, c.out)
    && c.out <= base + (c.ptr - payload) + 7 * padded
  }

  lemma {:induction false} PlacedAppend(frags: seq<Fragment>, from: nat, to: nat, f: Fragment)
    requires Placed(frags, from, to) && to <= f.at && OnBoundary(f)
    ensures Placed(frags + [f], from, f.at + |f.bytes|)
  {
    var all := frags + [f];
    forall i | 0 <= i < |all| ensures from <= all[i].at && all[i].at + |all[i].bytes| <= f.at + |f.bytes| && OnBoundary(all[i]) {
      assert i < |frags| ==> all[i] == frags[i] && OnBoundary(frags[i]);
    }
  }

  lemma {:induction false} PayloadAppend(frags: seq<Fragment>, f: Fragment)
    ensures PayloadOf(frags + [f]) == PayloadOf(frags) + f.bytes
  {
    assert (frags + [f])[..|frags|] == frags;
  }

  lemma {:induction false} LensAppend(frags: seq<Fragment>, f: Fragment)
    ensures Lens(frags + [f]) == Lens(frags) + [(|f.bytes|, f.aligned)]
  {
  }

  lemma {:induction false} JoinSlices(s: seq<byte>, i: nat, j: nat, k: nat)
    requires i <= j <= k <= |s|
    ensures s[i..j] + s[j..k] == s[i..k]
  {
  }

  /** One more fragment, put at most seven bytes behind the last if that is counted. */
  lemma {:induction false} FragmentCopied(rec: seq<byte>, payload: nat, base: nat, c: Copier, f: Fragment, c': Copier, padded: nat, padded': nat)
    requires CopierOk(rec, payload, base, c, padded) && OnBoundary(f) && MovedOn(rec, c, f, c')
    requires padded <= padded' && c.out <= f.at <= c.out + 7 * (padded' - padded)
    ensures CopierOk(rec, payload, base, c', padded')
    ensures Lens(c'.frags) == Lens(c.frags) + [(|f.bytes|, f.aligned)]
  {
    PlacedAppend(c.frags, base, c.out, f);
    PayloadAppend(c.frags, f);
    LensAppend(c.frags, f);
    JoinSlices(rec, payload, c.ptr, c'.ptr);
  }

  /** Where the next fragment goes. */
  method Position(out: nat, aligned: bool) returns (at: nat)
    ensures out <= at <= out + if aligned then 7 else 0
    ensures aligned ==> at % 8 == 0
  {
    at := if aligned then Align8(out) else out;
  }

  /** The copier moved on behind a fragment that holds the record's next bytes. */
  predicate MovedOn(rec: seq<byte>, c: Copier, f: Fragment, c': Copier) {
    && c'.ptr == c.ptr + |f.bytes| <= |rec| && f.bytes == rec[c.ptr..c'.ptr]
    && c'.out == f.at + |f.bytes| && c'.frags == c.frags + [f]
  }

  /** Copies the next fragment to the output. */
  method CopyFragment(rec: seq<byte>, c: Copier, n: nat, aligned: bool) returns (c': Copier, f: Fragment)
    requires c.ptr + n <= |rec|
    ensures MovedOn(rec, c, f, c') && |f.bytes| == n && f.aligned == aligned && OnBoundary(f)
    ensures c.out <= f.at <= c.out + if aligned then 7 else 0
  {
    var at := Position(c.out, aligned);
    f := Fragment(at, rec[c.ptr..c.ptr + n], aligned);
    c' := Copier(c.ptr + n, at + n, c.frags + [f]);
  }

  /** A block's image, unaligned. */
  method CopyImage(rec: seq<byte>, ghost payload: nat, ghost base: nat, c: Copier, b: Block, ghost padded: nat) returns (c': Copier)
    requires CopierOk(rec, payload, base, c, padded)
    requires c.ptr + ImageLen(b) <= |rec|
    ensures CopierOk(rec, payload, base, c', padded)
    ensures c'.ptr == c.ptr + ImageLen(b)
    ensures Lens(c'.frags) == Lens(c.frags) + if b.image.Some? then [(b.image.value.len, false)] else []
  {
    c' := c;
    if b.image.Some? {
      var f;
      c', f := CopyFragment(rec, c, b.image.value.len, false);
      FragmentCopied(rec, payload, base, c, f, c', padded, padded);
    }
  }

  /** Data of a block or of the record, aligned. */
  method CopyData(rec: seq<byte>, ghost payload: nat, ghost base: nat, c: Copier, n: nat, ghost padded: nat) returns (c': Copier)
    requires CopierOk(rec, payload, base, c, padded)
    requires c.ptr + n <= |rec|
    ensures CopierOk(rec, payload, base, c', padded + 1)
    ensures c'.ptr == c.ptr + n
    ensures Lens(c'.frags) == Lens(c.frags) + if n > 0 then [(n, true)] else []
  {
    c' := c;
    if n > 0 {
      var f;
      c', f := CopyFragment(rec, c, n, true);
      FragmentCopied(rec, payload, base, c, f, c', padded, padded + 1);
    }
  }

  /** A block's image and its data. */
  method CopyBlock(rec: seq<byte>, ghost payload: nat, ghost base: nat, c: Copier, b: Block, ghost padded: nat) returns (c': Copier)
    requires CopierOk(rec, payload, base, c, padded)
    requires c.ptr + ImageLen(b) + b.dataLen <= |rec|
    ensures CopierOk(rec, payload, base, c', padded + 1)
    ensures c'.ptr == c.ptr + ImageLen(b) + b.dataLen
    ensures Lens(c'.frags) == Lens(c.frags) + BlockLens(b)
  {
    c' := CopyImage(rec, payload, base, c, b, padded);
    c' := CopyData(rec, payload, base, c', b.dataLen, padded);
  }

  /** Behind the fixed part and the entry of every block; entries are found by block id. */
  ghost predicate BehindEntries(l: Layout, blocks: seq<Block>, at: nat) {
    l.fixedSize <= at && forall i :: 0 <= i < |blocks| ==> l.fixedSize + l.blockSize * (blocks[i].id + 1) <= at
  }

  lemma {:induction false} BaseIsBehindEntries(l: Layout, h: Headers, at: nat)
    requires BlocksOk(h.blocks) && BaseOf(l, h) <= at
    ensures BehindEntries(l, h.blocks, at)
  {
    forall i | 0 <= i < |h.blocks| ensures l.fixedSize + l.blockSize * (h.blocks[i].id + 1) <= at {
      assert h.blocks[i].id <= h.blocks[|h.blocks| - 1].id;
      MulLe(h.blocks[i].id + 1, h.blocks[|h.blocks| - 1].id + 1, l.blockSize);
    }
  }

  /** A decoded record: its size and its fragments in copying order. */
  datatype Decoded = Decoded(size: nat, frags: seq<Fragment>)

  /**
   The block images, block data and main data, in order, are the record's payload; they lie
   apart from each other behind every block's entry, data on multiples of eight; and the space
   used never exceeds the space that was asked for.
   */
  ghost predicate DecodedOk(l: Layout, rec: seq<byte>, h: Headers, d: Decoded)
    requires h.pos <= |rec|
  {
    && PayloadOf(d.frags) == rec[h.pos..]
    && Lens(d.frags) == ExpectedLens(h.blocks) + (if h.mainLen > 0 then [(h.mainLen, true)] else [])
    && Placed(d.frags, BaseOf(l, h), d.size)
    && (forall i :: 0 <= i < |d.frags| ==> BehindEntries(l, h.blocks, d.frags[i].at))
    && d.size % 8 == 0
    && d.size <= RequiredSpace(l, |rec|)
  }

  /** The copying loop over the blocks. */
  method CopyBlocks(l: Layout, rec: seq<byte>, h: Headers) returns (c: Copier)
    requires HeadersOk(rec, h) && h.declared == |rec| - h.pos
    ensures CopierOk(rec, h.pos, BaseOf(l, h), c, |h.blocks|)
    ensures c.ptr == h.pos + LensOf(h.blocks)
    ensures Lens(c.frags) == ExpectedLens(h.blocks)
  {
    c := Copier(h.pos, BaseOf(l, h), []);
    var i := 0;
    assert h.blocks[..0] == [];
    while i < |h.blocks|
      invariant 0 <= i <= |h.blocks|
      invariant c.ptr == h.pos + LensOf(h.blocks[..i])
      invariant CopierOk(rec, h.pos, BaseOf(l, h), c, i)
      invariant Lens(c.frags) == ExpectedLens(h.blocks[..i])
    {
      PrefixLens(h.blocks, i);
      c := CopyBlock(rec, h.pos, BaseOf(l, h), c, h.blocks[i], i);
      i := i + 1;
    }
    assert h.blocks[..|h.blocks|] == h.blocks;
  }

  method CopyFragments(l: Layout, rec: seq<byte>, h: Headers) returns (d: Decoded)
    requires HeadersOk(rec, h) && h.declared == |rec| - h.pos
    ensures DecodedOk(l, rec, h, d)
  {
    var c := CopyBlocks(l, rec, h);
    c := CopyData(rec, h.pos, BaseOf(l, h), c, h.mainLen, |h.blocks|);
    var size := Position(c.out, true);
    d := Decoded(size, c.frags);
    SpaceSuffices(l, h, |rec|, c.out, size, |h.blocks| + 1);
    forall i | 0 <= i < |d.frags| ensures BehindEntries(l, h.blocks, d.frags[i].at) {
      BaseIsBehindEntries(l, h, d.frags[i].at);
    }
    assert rec[h.pos..c.ptr] == rec[h.pos..];
  }

  /** Where the fragments start: behind the block array, which reaches to the highest block id. */
  function BaseOf(l: Layout, h: Headers): nat {
    l.fixedSize + l.blockSize * (if h.blocks == [] then 0 else h.blocks[|h.blocks| - 1].id + 1)
  }

  lemma {:induction false} SpaceSuffices(l: Layout, h: Headers, totLen: nat, out: nat, size: nat, padded: nat)
    requires h.blocks != [] ==> h.blocks[|h.blocks| - 1].id <= MAX_BLOCK_ID
    requires padded <= MAX_BLOCK_ID + 2 && RECORD_HEADER <= h.pos <= totLen
    requires out <= BaseOf(l, h) + (totLen - h.pos) + 7 * padded
    requires size <= out + 7
    ensures size <= RequiredSpace(l, totLen)
  {
    var n := if h.blocks == [] then 0 else h.blocks[|h.blocks| - 1].id + 1;
    MulLe(n, MAX_BLOCK_ID + 1, l.blockSize);
  }

  lemma {:induction false} PrefixLens(blocks: seq<Block>, i: nat)
    requires i < |blocks|
    ensures LensOf(blocks[..i + 1]) == LensOf(blocks[..i]) + ImageLen(blocks[i]) + blocks[i].dataLen
    ensures ExpectedLens(blocks[..i + 1]) == ExpectedLens(blocks[..i]) + BlockLens(blocks[i])
    ensures LensOf(blocks[..i + 1]) <= LensOf(blocks)
  {
    assert blocks[..i + 1][..i] == blocks[..i];
    LensMonotone(blocks, i + 1);
  }

  lemma {:induction false} LensMonotone(blocks: seq<Block>, i: nat)
    requires i <= |blocks|
    ensures LensOf(blocks[..i]) <= LensOf(blocks)
    decreases |blocks|
  {
    if i < |blocks| {
      var front := blocks[..|blocks| - 1];
      assert front[..i] == blocks[..i];
      LensMonotone(front, i);
    } else {
      assert blocks[..i] == blocks;
    }
  }

  /** Decoding a record whose announced main data fits what is left: refused by the parser, or laid out as it should be. */
  method Decode(l: Layout, rec: seq<byte>) returns (h: Option<Headers>, d: Decoded)
    requires RECORD_HEADER <= |rec| < UINT32_LIMIT
    requires match ParseFrom(rec, InitialHeaders()) case None => true case Some(h) => h.mainLen <= |rec| - h.pos
    ensures h == ParseFrom(rec, InitialHeaders())
    ensures h.Some? ==> h.value.pos <= |rec| && DecodedOk(l, rec, h.value, d)
  {
    d := Decoded(0, []);
    h := ParseHeaders(rec);
    if h.Some? {
      AcceptedFits(rec, h.value);
      d := CopyFragments(l, rec, h.value);
    }
  }
}

/** What the decoder leaves is what the circular buffer takes. */
module DecodedRecords {
  import opened Bytes
  import RecordDecoder
  import DecodeBuffer

  /** A decoded record's size is legal for the space that was asked for it, and keeps the buffer aligned. */
  lemma {:induction false} DecodedFitsItsSpace(l: RecordDecoder.Layout, rec: seq<byte>, h: RecordDecoder.Headers,
                                               d: RecordDecoder.Decoded, oversized: bool)
    requires h.pos <= |rec| && l.fixedSize > 0 && RecordDecoder.DecodedOk(l, rec, h, d)
    ensures DecodeBuffer.OpOk(DecodeBuffer.Decode(RecordDecoder.RequiredSpace(l, |rec|), oversized, Some(d.size)))
    ensures d.size % 8 == 0
  {
    assert RecordDecoder.BaseOf(l, h) >= l.fixedSize;
  }
}
