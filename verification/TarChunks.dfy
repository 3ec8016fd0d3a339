/**
 The typed chunks that streamers pass to each other and what a receiver makes of them,
 fetools/pg16/pg_basebackup/bbstreamer.h:34-80.
 */
module TarChunks {
  import opened Bytes

  const TAR_BLOCK: nat := 512

  datatype Member = Member(pathname: string, size: nat, mode: nat, uid: nat, gid: nat,
                           isDirectory: bool, isLink: bool, linktarget: string)

  datatype Context = MemberHeader | MemberContents | MemberTrailer | ArchiveTrailer

  datatype Chunk = Chunk(context: Context, member: Option<Member>, data: seq<byte>)

  /** An archive member with the bytes that were sent for it. */
  datatype File = File(member: Member, header: seq<byte>, contents: seq<byte>, padding: seq<byte>)

  /** What a receiver has seen: whole members, the member being received, the archive trailer. */
  datatype Archive = Archive(files: seq<File>, current: Option<File>, trailer: Option<seq<byte>>)

  const NOTHING: Archive := Archive([], None, None)

  /** Bytes that fill the last block of a member of this size. */
  function Padding(size: nat): (r: nat)
    ensures r < TAR_BLOCK
  {
    if size == 0 then 0 else if size <= TAR_BLOCK then TAR_BLOCK - size else Padding(size - TAR_BLOCK)
  }

  lemma {:induction false} PaddingFills(size: nat)
    ensures (size + Padding(size)) % TAR_BLOCK == 0
  {
    if size > TAR_BLOCK {
      PaddingFills(size - TAR_BLOCK);
    }
  }

  function Zeros(n: nat): (r: seq<byte>)
    ensures |r| == n
    ensures forall i :: 0 <= i < n ==> r[i] == 0
  {
    seq(n, _ => 0)
  }

  predicate AllZero(s: seq<byte>) {
    forall i :: 0 <= i < |s| ==> s[i] == 0
  }

  /**
   The chunk protocol: one header and one trailer for each member with the same details, contents
   only in between, and one archive trailer behind the last member.  None is a breach.  That
   contents too carry their member's details is a rule of its own, `SameDetails`.
   */
  function Receive(a: Option<Archive>, c: Chunk): Option<Archive> {
    if a.None? || a.value.trailer.Some? then None
    else
      var Archive(files, current, _) := a.value;
      if c.context == ArchiveTrailer then
        if current.Some? then None else Some(Archive(files, None, Some(c.data)))
      else if c.member.None? || (c.context == MemberHeader) != current.None? then None
      else
        match c.context
        case MemberHeader => Some(Archive(files, Some(File(c.member.value, c.data, [], [])), None))
        case MemberContents =>
          var f := current.value;
          Some(Archive(files, Some(f.(contents := f.contents + c.data)), None))
        case MemberTrailer =>
          var f := current.value;
          if c.member.value == f.member then Some(Archive(files + [f.(padding := c.data)], None, None)) else None
  }

  function ReceiveAll(a: Option<Archive>, cs: seq<Chunk>): Option<Archive> {
    if cs == [] then a else Receive(ReceiveAll(a, cs[..|cs| - 1]), cs[|cs| - 1])
  }

  lemma {:induction false} ReceiveAppend(a: Option<Archive>, cs: seq<Chunk>, ds: seq<Chunk>)
    ensures ReceiveAll(a, cs + ds) == ReceiveAll(ReceiveAll(a, cs), ds)
    decreases |ds|
  {
    if ds == [] {
      assert cs + ds == cs;
    } else {
      var front := ds[..|ds| - 1];
      assert (cs + ds)[..|cs + ds| - 1] == cs + front;
      ReceiveAppend(a, cs, front);
    }
  }

  lemma {:induction false} ReceiveOne(a: Option<Archive>, cs: seq<Chunk>, c: Chunk)
    ensures ReceiveAll(a, cs + [c]) == Receive(ReceiveAll(a, cs), c)
  {
  }

  // ----- The details of contents

  /** Contents carry the details that their member's header carried. */
  predicate Detailed(a: Option<Archive>, c: Chunk) {
    c.context == MemberContents ==> a.Some? && a.value.current.Some? && c.member == Some(a.value.current.value.member)
  }

  /** All contents among the chunks do, for a receiver that has seen `a` before. */
  predicate SameDetails(a: Option<Archive>, cs: seq<Chunk>) {
    cs == [] || (SameDetails(a, cs[..|cs| - 1]) && Detailed(ReceiveAll(a, cs[..|cs| - 1]), cs[|cs| - 1]))
  }

  lemma {:induction false} SameDetailsAppend(a: Option<Archive>, cs: seq<Chunk>, ds: seq<Chunk>)
    ensures SameDetails(a, cs + ds) <==> SameDetails(a, cs) && SameDetails(ReceiveAll(a, cs), ds)
    decreases |ds|
  {
    if ds == [] {
      assert cs + ds == cs;
    } else {
      var front := ds[..|ds| - 1];
      assert (cs + ds)[..|cs + ds| - 1] == cs + front;
      SameDetailsAppend(a, cs, front);
      ReceiveAppend(a, cs, front);
    }
  }

  lemma {:induction false} SameDetailsOne(a: Option<Archive>, cs: seq<Chunk>, c: Chunk)
    ensures SameDetails(a, cs + [c]) <==> SameDetails(a, cs) && Detailed(ReceiveAll(a, cs), c)
  {
    assert (cs + [c])[..|cs|] == cs;
  }

  /** Up to three chunks, one by one. */
  lemma {:induction false} FewChunks(a: Option<Archive>, x: Chunk, y: Chunk, z: Chunk)
    ensures ReceiveAll(a, [x]) == Receive(a, x)
    ensures ReceiveAll(a, [x, y]) == Receive(Receive(a, x), y)
    ensures ReceiveAll(a, [x, y, z]) == Receive(Receive(Receive(a, x), y), z)
    ensures SameDetails(a, [x]) <==> Detailed(a, x)
    ensures SameDetails(a, [x, y]) <==> Detailed(a, x) && Detailed(Receive(a, x), y)
    ensures SameDetails(a, [x, y, z]) <==> Detailed(a, x) && Detailed(Receive(a, x), y) && Detailed(Receive(Receive(a, x), y), z)
  {
    assert [x][..0] == [] && [x, y][..1] == [x] && [x, y, z][..2] == [x, y];
  }

  // ----- Bytes

  function Encode(f: File): seq<byte> {
    f.header + f.contents + f.padding
  }

  function EncodeAll(files: seq<File>): seq<byte> {
    if files == [] then [] else EncodeAll(files[..|files| - 1]) + Encode(files[|files| - 1])
  }

  lemma {:induction false} EncodeOneMore(files: seq<File>, f: File)
    ensures EncodeAll(files + [f]) == EncodeAll(files) + Encode(f)
  {
  }

  function ArchiveBytes(a: Archive): seq<byte> {
    EncodeAll(a.files)
    + (if a.current.Some? then a.current.value.header + a.current.value.contents else [])
    + (if a.trailer.Some? then a.trailer.value else [])
  }

  function Flat(cs: seq<Chunk>): seq<byte> {
    if cs == [] then [] else Flat(cs[..|cs| - 1]) + cs[|cs| - 1].data
  }

  lemma {:induction false} ReceiveBytes(a: Archive, c: Chunk)
    requires Receive(Some(a), c).Some?
    ensures ArchiveBytes(Receive(Some(a), c).value) == ArchiveBytes(a) + c.data
  {
  }

  /** No byte is lost or moved between the chunks and the members they make up. */
  lemma {:induction false} ReceivedBytes(cs: seq<Chunk>)
    requires ReceiveAll(Some(NOTHING), cs).Some?
    ensures ArchiveBytes(ReceiveAll(Some(NOTHING), cs).value) == Flat(cs)
  {
    if cs != [] {
      var front := cs[..|cs| - 1];
      ReceivedBytes(front);
      ReceiveBytes(ReceiveAll(Some(NOTHING), front).value, cs[|cs| - 1]);
    }
  }
}
