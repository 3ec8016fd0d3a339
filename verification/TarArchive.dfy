/**
 The archiver, which makes a stream of chunks into a tar file again, and the whole pipeline of
 parser, injector and archiver, fetools/pg16/pg_basebackup/bbstreamer_tar.c:396-443.
 */
module TarArchive {
  import opened Bytes
  import opened TarChunks
  import opened TarParser
  import opened TarInject

  /** PostgreSQL's header writer: a block from the details and the time. */
  type HeaderWriter = (Member, nat) -> seq<byte>

  ghost predicate WritesBlocks(mk: HeaderWriter) {
    forall m, t :: |mk(m, t)| == TAR_BLOCK
  }

  /** A member as it is archived: its own header and padding, or both made anew. */
  ghost predicate Archived(mk: HeaderWriter, f: File, g: File) {
    && g.member == f.member && g.contents == f.contents
    && if |f.header| == TAR_BLOCK then g == f
       else (exists t: nat :: g.header == mk(f.member, t)) && g.padding == Zeros(Padding(f.member.size))
  }

  ghost predicate ArchivedAll(mk: HeaderWriter, fs: seq<File>, gs: seq<File>) {
    |fs| == |gs| && forall i :: 0 <= i < |fs| ==> Archived(mk, fs[i], gs[i])
  }

  /** The member being received, before its padding. */
  ghost predicate Started(mk: HeaderWriter, f: File, g: File) {
    && g.member == f.member && g.contents == f.contents
    && if |f.header| == TAR_BLOCK then g == f else exists t: nat :: g.header == mk(f.member, t)
  }

  ghost predicate Follows(mk: HeaderWriter, a: Archive, b: Archive) {
    && ArchivedAll(mk, a.files, b.files)
    && (a.current.Some? <==> b.current.Some?)
    && (a.current.Some? ==> Started(mk, a.current.value, b.current.value))
    && b.trailer == if a.trailer.Some? then Some(Zeros(2 * TAR_BLOCK)) else None
  }

  // ----- One chunk

  /** The chunk that goes out for a chunk that comes in. */
  function Rewritten(mk: HeaderWriter, c: Chunk, rearchive: bool, now: nat): Chunk {
    if c.context == MemberHeader && |c.data| != TAR_BLOCK && c.member.Some? then c.(data := mk(c.member.value, now))
    else if c.context == MemberTrailer && rearchive && c.member.Some? then c.(data := Zeros(Padding(c.member.value.size)))
    else if c.context == ArchiveTrailer then c.(data := Zeros(2 * TAR_BLOCK))
    else c
  }

  /** The note to replace padding is set exactly inside a member whose header was replaced. */
  predicate NoteOk(a: Archive, rearchive: bool) {
    rearchive <==> a.current.Some? && |a.current.value.header| != TAR_BLOCK
  }

  lemma {:induction false} RewrittenFollows(mk: HeaderWriter, a: Archive, b: Archive, c: Chunk, rearchive: bool, now: nat)
    requires Follows(mk, a, b) && NoteOk(a, rearchive) && Receive(Some(a), c).Some?
    ensures var b' := Receive(Some(b), Rewritten(mk, c, rearchive, now));
      b'.Some? && Follows(mk, Receive(Some(a), c).value, b'.value)
  {
  }

  class Archiver {
    const mk: HeaderWriter
    var rearchive: bool
    var out: seq<Chunk>
    /** What has come in, and what that makes the next streamer see. */
    ghost var seen: Archive
    ghost var told: Archive

    ghost predicate Valid()
      reads this
    {
      && ReceiveAll(Some(NOTHING), out) == Some(told)
      && Follows(mk, seen, told)
      && NoteOk(seen, rearchive)
    }

    constructor (mk: HeaderWriter)
      ensures Valid() && this.mk == mk && seen == NOTHING && out == []
    {
      this.mk := mk;
      rearchive, out := false, [];
      seen, told := NOTHING, NOTHING;
    }

    /** Handles a chunk that respects the protocol, at the given time. */
    method Content(c: Chunk, now: nat)
      requires Valid() && Receive(Some(seen), c).Some?
      modifies this
      ensures Valid() && Some(seen) == Receive(Some(old(seen)), c)
      ensures out == old(out) + [Rewritten(mk, c, old(rearchive), now)]
    {
      var data := c.data;
      ghost var noted := rearchive;
      if c.context == MemberHeader && |c.data| != TAR_BLOCK {
        data := mk(c.member.value, now);
        rearchive := true;
      } else if c.context == MemberTrailer && rearchive {
        data := Zeros(Padding(c.member.value.size));
        rearchive := false;
      } else if c.context == ArchiveTrailer {
        data := Zeros(2 * TAR_BLOCK);
      }
      ReceiveOne(Some(NOTHING), out, c.(data := data));
      out := out + [c.(data := data)];
      RewrittenFollows(mk, seen, told, c, noted, now);
      seen, told := Receive(Some(seen), c).value, Receive(Some(told), c.(data := data)).value;
    }
  }

  /** Archives a whole stream of chunks; the clock is read once for each chunk. */
  method ArchiveChunks(mk: HeaderWriter, clock: nat -> nat, cs: seq<Chunk>) returns (out: seq<Chunk>)
    requires ReceiveAll(Some(NOTHING), cs).Some?
    ensures var b := ReceiveAll(Some(NOTHING), out);
      b.Some? && Follows(mk, ReceiveAll(Some(NOTHING), cs).value, b.value)
  {
    var ar := new Archiver(mk);
    var i := 0;
    while i < |cs|
      invariant 0 <= i <= |cs| && ar.Valid() && ar.mk == mk && fresh(ar)
      invariant ReceiveAll(Some(NOTHING), cs[..i]) == Some(ar.seen)
    {
      ReceivedSoFar(Some(NOTHING), cs, i + 1);
      assert cs[..i + 1][..i] == cs[..i];
      ar.Content(cs[i], clock(i));
      i := i + 1;
    }
    assert cs[..i] == cs;
    out := ar.out;
  }

  // ----- Sizes

  /** Contents of the declared size; a header block with the right padding, or neither. */
  predicate Sized(f: File) {
    && |f.contents| == f.member.size
    && (|f.header| == TAR_BLOCK ==> |f.padding| == Padding(f.member.size))
  }

  /** A whole number of blocks with contents of the declared size. */
  predicate InBlocks(f: File) {
    |f.header| == TAR_BLOCK && |f.contents| == f.member.size && |f.padding| == Padding(f.member.size)
  }

  lemma {:induction false} EditKeepsSized(s: Settings, files: seq<File>)
    requires forall i :: 0 <= i < |files| ==> Sized(files[i])
    ensures forall i :: 0 <= i < |EditFiles(s, files)| ==> Sized(EditFiles(s, files)[i])
  {
    if files != [] {
      EditKeepsSized(s, files[..|files| - 1]);
      assert Sized(files[|files| - 1]);
    }
  }

  lemma {:induction false} ArchivedInBlocks(mk: HeaderWriter, f: File, g: File)
    requires WritesBlocks(mk) && Archived(mk, f, g) && Sized(f)
    ensures InBlocks(g)
  {
  }

  lemma {:induction false} BlocksAdd(a: nat, b: nat)
    requires a % TAR_BLOCK == 0 && b % TAR_BLOCK == 0
    ensures (a + TAR_BLOCK + b) % TAR_BLOCK == 0
  {
    DivUnique(a + TAR_BLOCK + b, TAR_BLOCK, a / TAR_BLOCK + 1 + b / TAR_BLOCK, 0);
  }

  lemma {:induction false} BlocksAddUp(files: seq<File>)
    requires forall i :: 0 <= i < |files| ==> InBlocks(files[i])
    ensures |EncodeAll(files)| % TAR_BLOCK == 0
  {
    if files != [] {
      BlocksAddUp(files[..|files| - 1]);
      var last := files[|files| - 1];
      assert InBlocks(last);
      PaddingFills(last.member.size);
      BlocksAdd(|EncodeAll(files[..|files| - 1])|, last.member.size + Padding(last.member.size));
    }
  }

  // ----- The pipeline

  /** What the archive of the given members, edited, may come out as. */
  ghost predicate PipelineOk(mk: HeaderWriter, s: Settings, files: seq<File>, out: seq<byte>, made: seq<File>) {
    && ArchivedAll(mk, Edited(s, files), made)
    && out == EncodeAll(made) + Zeros(2 * TAR_BLOCK)
    && (forall i :: 0 <= i < |made| ==> InBlocks(made[i]))
    && |out| % TAR_BLOCK == 0
  }

  lemma {:induction false} PipelineSizes(parse: HeaderParser, mk: HeaderWriter, s: Settings, files: seq<File>, made: seq<File>)
    requires WritesBlocks(mk) && AllWellFormed(parse, files) && ArchivedAll(mk, Edited(s, files), made)
    ensures forall i :: 0 <= i < |made| ==> InBlocks(made[i])
    ensures |EncodeAll(made) + Zeros(2 * TAR_BLOCK)| % TAR_BLOCK == 0
  {
    forall i | 0 <= i < |files| ensures Sized(files[i]) {
      assert WellFormed(parse, files[i]);
    }
    EditKeepsSized(s, files);
    forall i | 0 <= i < |made| ensures InBlocks(made[i]) {
      assert Sized(Edited(s, files)[i]);
      ArchivedInBlocks(mk, Edited(s, files)[i], made[i]);
    }
    BlocksAddUp(made);
  }

  /**
   A stream cut anyhow goes through parser, injector and archiver: refused exactly when the
   parser refuses its bytes, else the archive of the edited members, in whole blocks, each with
   contents of its declared size.
   */
  method Pipeline(parse: HeaderParser, mk: HeaderWriter, clock: nat -> nat, s: Settings, chunks: seq<seq<byte>>)
    returns (out: Option<seq<byte>>, ghost made: seq<File>)
    requires WritesBlocks(mk)
    ensures out.Some? <==> Finish(Feed(parse, START, Joined(chunks))).Some?
    ensures out.Some? ==> PipelineOk(mk, s, Finish(Feed(parse, START, Joined(chunks))).value.files, out.value, made)
  {
    made := [];
    var parsed := ParseStream(parse, chunks);
    if parsed.None? {
      return None, made;
    }
    ghost var a := Finish(Feed(parse, START, Joined(chunks))).value;
    FeedOk(parse, Joined(chunks));
    var edited := Inject(s, parsed.value);
    var archived := ArchiveChunks(mk, clock, edited);
    ghost var b := ReceiveAll(Some(NOTHING), archived).value;
    made := b.files;
    PipelineSizes(parse, mk, s, a.files, made);
    ReceivedBytes(archived);
    assert ArchiveBytes(b) == EncodeAll(made) + Zeros(2 * TAR_BLOCK);
    out := Some(Flat(archived));
  }

  // ----- Reading the result back

  const SIZE_LIMIT: nat := 0x8000_0000_0000_0000
  const ID_LIMIT: nat := 0x1_0000_0000
  /** A header holds the permission bits of a mode and nothing else. */
  const MODE_LIMIT: nat := 4096

  /** Members whose headers are made anew: the three recovery files, as plain files with details that a header can hold. */
  predicate Regenerable(m: Member) {
    && m.size < SIZE_LIMIT && m.mode < MODE_LIMIT && m.uid < ID_LIMIT && m.gid < ID_LIMIT
    && (m.pathname == AUTO_CONF || m.pathname == STANDBY_SIGNAL || m.pathname == RECOVERY_CONF)
    && !m.isDirectory && !m.isLink && m.linktarget == ""
  }

  /** The header writer and the header parser agree on those members. */
  ghost predicate Agree(parse: HeaderParser, mk: HeaderWriter) {
    forall m: Member, t: nat :: Regenerable(m) ==> !AllZero(mk(m, t)) && parse(mk(m, t)) == Some(m)
  }

  ghost predicate Readable(parse: HeaderParser, f: File) {
    && Sized(f)
    && if |f.header| == TAR_BLOCK then WellFormed(parse, f) else Regenerable(f.member)
  }

  lemma {:induction false} EditKeepsReadable(parse: HeaderParser, s: Settings, files: seq<File>)
    requires AllWellFormed(parse, files)
    requires forall i :: 0 <= i < |files| && Appended(s, files[i].member) ==> Regenerable(EditedMember(s, files[i].member))
    ensures forall i :: 0 <= i < |EditFiles(s, files)| ==> Readable(parse, EditFiles(s, files)[i])
  {
    if files != [] {
      var front, last := files[..|files| - 1], files[|files| - 1];
      EditKeepsReadable(parse, s, front);
      assert WellFormed(parse, last);
    }
  }

  lemma {:induction false} ArchivedReadsBack(parse: HeaderParser, mk: HeaderWriter, f: File, g: File)
    requires WritesBlocks(mk) && Agree(parse, mk) && Archived(mk, f, g) && Readable(parse, f)
    ensures WellFormed(parse, g)
  {
  }

  /**
   Parsing what the pipeline put out gives the edited members with their contents, and two
   zero blocks, if every postgresql.auto.conf that came in is a plain file.
   */
  lemma {:induction false} PipelineRoundTrip(parse: HeaderParser, mk: HeaderWriter, s: Settings, files: seq<File>, out: seq<byte>,
                                             made: seq<File>)
    requires WritesBlocks(mk) && Agree(parse, mk) && AllWellFormed(parse, files)
    requires forall i :: 0 <= i < |files| && Appended(s, files[i].member) ==> Regenerable(EditedMember(s, files[i].member))
    requires |s.conf| < SIZE_LIMIT && s.mode < MODE_LIMIT
    requires PipelineOk(mk, s, files, out, made)
    ensures Finish(Feed(parse, START, out)) == Some(Archive(made, None, Some(Zeros(2 * TAR_BLOCK))))
    ensures |made| == |Edited(s, files)|
    ensures forall i :: 0 <= i < |made| ==> made[i].member == Edited(s, files)[i].member && made[i].contents == Edited(s, files)[i].contents
  {
    EditKeepsReadable(parse, s, files);
    forall i | 0 <= i < |made| ensures WellFormed(parse, made[i]) {
      assert Readable(parse, Edited(s, files)[i]);
      ArchivedReadsBack(parse, mk, Edited(s, files)[i], made[i]);
    }
    AcceptedIff(parse, out, made, Zeros(2 * TAR_BLOCK));
  }
}
