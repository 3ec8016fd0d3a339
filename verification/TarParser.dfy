/**
 The tar parser, fetools/pg16/pg_basebackup/bbstreamer_tar.c:89-341, fed chunks of any size.

 The reference is a machine that takes one byte at a time and derives what it expects next from
 the member it is in; the parser keeps a context, counters and a buffer and takes whole chunks.
 Turning a header block into member details is PostgreSQL's code and a parameter: None stands
 for a header that ends the program.
 */
module TarParser {
  import opened Bytes
  import opened TarChunks

  type HeaderParser = seq<byte> -> Option<Member>

  // ----- One byte at a time

  datatype Machine =
    | Machine(files: seq<File>, current: Option<File>, buffer: seq<byte>, ended: bool)
    | Fatal

  const START: Machine := Machine([], None, [], false)

  /** A whole header block. */
  function PushHeader(parse: HeaderParser, files: seq<File>, block: seq<byte>): Machine {
    if AllZero(block) then Machine(files, None, block, true)
    else
      match parse(block)
      case None => Fatal
      case Some(m) => Begun(files, block, m)
  }

  function Begun(files: seq<File>, block: seq<byte>, m: Member): Machine {
    var f := File(m, block, [], []);
    if m.size == 0 then Machine(files + [f], None, [], false) else Machine(files, Some(f), [], false)
  }

  /** A byte inside a member: contents up to its size, then padding to the block boundary. */
  function PushInside(files: seq<File>, f: File, buffer: seq<byte>, b: byte): Machine {
    if |f.contents| < f.member.size then
      var f' := f.(contents := f.contents + [b]);
      if |f'.contents| == f.member.size && Padding(f.member.size) == 0 then Machine(files + [f'], None, [], false)
      else Machine(files, Some(f'), [], false)
    else if |buffer| + 1 < Padding(f.member.size) then Machine(files, Some(f), buffer + [b], false)
    else Machine(files + [f.(padding := buffer + [b])], None, [], false)
  }

  function Push(parse: HeaderParser, m: Machine, b: byte): Machine {
    if m.Fatal? then Fatal
    else if m.ended then m.(buffer := m.buffer + [b])
    else if m.current.Some? then PushInside(m.files, m.current.value, m.buffer, b)
    else if |m.buffer| + 1 < TAR_BLOCK then m.(buffer := m.buffer + [b])
    else PushHeader(parse, m.files, m.buffer + [b])
  }

  function Feed(parse: HeaderParser, m: Machine, s: seq<byte>): Machine {
    if s == [] then m else Push(parse, Feed(parse, m, s[..|s| - 1]), s[|s| - 1])
  }

  /** The end of the stream: an archive trailer is sent even if empty; inside a member or header it is fatal. */
  function Finish(m: Machine): Option<Archive> {
    if m.Fatal? || (!m.ended && (m.current.Some? || m.buffer != [])) then None
    else Some(Archive(m.files, None, Some(m.buffer)))
  }

  lemma {:induction false} SplitLast<T>(a: seq<T>, s: seq<T>)
    requires s != []
    ensures (a + s[..|s| - 1]) + [s[|s| - 1]] == a + s
  {
  }

  lemma {:induction false} FeedAppend(parse: HeaderParser, m: Machine, s: seq<byte>, t: seq<byte>)
    ensures Feed(parse, m, s + t) == Feed(parse, Feed(parse, m, s), t)
    decreases |t|
  {
    if t == [] {
      assert s + t == s;
    } else {
      assert (s + t)[..|s + t| - 1] == s + t[..|t| - 1];
      FeedAppend(parse, m, s, t[..|t| - 1]);
    }
  }

  lemma {:induction false} FeedSplit(parse: HeaderParser, m: Machine, s: seq<byte>, k: nat)
    requires k <= |s|
    ensures Feed(parse, m, s) == Feed(parse, Feed(parse, m, s[..k]), s[k..])
  {
    assert s == s[..k] + s[k..];
    FeedAppend(parse, m, s[..k], s[k..]);
  }

  // ----- Runs of bytes

  /** Bytes that do not complete what is being collected only go to the buffer. */
  lemma {:induction false} BufferRun(parse: HeaderParser, m: Machine, s: seq<byte>)
    requires m.Machine?
    requires !m.ended && m.current.None? ==> |m.buffer| + |s| < TAR_BLOCK
    requires !m.ended && m.current.Some? ==> |m.current.value.contents| >= m.current.value.member.size
    requires !m.ended && m.current.Some? ==> |m.buffer| + |s| < Padding(m.current.value.member.size)
    ensures Feed(parse, m, s) == m.(buffer := m.buffer + s)
  {
    if s == [] {
      assert m.buffer + s == m.buffer;
    } else {
      BufferRun(parse, m, s[..|s| - 1]);
      SplitLast(m.buffer, s);
    }
  }

  function InContents(files: seq<File>, f: File): Machine {
    Machine(files, Some(f), [], false)
  }

  lemma {:induction false} ContentsRun(parse: HeaderParser, files: seq<File>, f: File, s: seq<byte>)
    requires |f.contents| + |s| < f.member.size
    ensures Feed(parse, InContents(files, f), s) == InContents(files, f.(contents := f.contents + s))
  {
    if s == [] {
      assert f.contents + s == f.contents;
    } else {
      ContentsRun(parse, files, f, s[..|s| - 1]);
      SplitLast(f.contents, s);
    }
  }

  lemma {:induction false} LastHeaderByte(parse: HeaderParser, files: seq<File>, buffer: seq<byte>, b: byte)
    requires |buffer| + 1 == TAR_BLOCK
    ensures Push(parse, Machine(files, None, buffer, false), b) == PushHeader(parse, files, buffer + [b])
  {
  }

  lemma {:induction false} LastContentsByte(parse: HeaderParser, files: seq<File>, f: File, b: byte)
    requires |f.contents| + 1 == f.member.size
    ensures Push(parse, InContents(files, f), b) == AfterContents(files, f.(contents := f.contents + [b]))
  {
  }

  /** A member whose contents are complete. */
  function AfterContents(files: seq<File>, f: File): Machine {
    if Padding(f.member.size) == 0 then Machine(files + [f], None, [], false) else InContents(files, f)
  }

  lemma {:induction false} FeedLast(parse: HeaderParser, m: Machine, s: seq<byte>, mid: Machine)
    requires s != [] && Feed(parse, m, s[..|s| - 1]) == mid
    ensures Feed(parse, m, s) == Push(parse, mid, s[|s| - 1])
  {
  }

  /** The rest of a header block. */
  lemma {:induction false} HeaderRun(parse: HeaderParser, files: seq<File>, buffer: seq<byte>, s: seq<byte>)
    requires s != [] && |buffer| + |s| == TAR_BLOCK
    ensures Feed(parse, Machine(files, None, buffer, false), s) == PushHeader(parse, files, buffer + s)
  {
    var front, last := s[..|s| - 1], s[|s| - 1];
    var m, mid := Machine(files, None, buffer, false), Machine(files, None, buffer + front, false);
    BufferRun(parse, m, front);
    FeedLast(parse, m, s, mid);
    LastHeaderByte(parse, files, buffer + front, last);
    SplitLast(buffer, s);
  }

  /** The rest of a member's contents. */
  lemma {:induction false} LastContentsRun(parse: HeaderParser, files: seq<File>, f: File, s: seq<byte>)
    requires s != [] && |f.contents| + |s| == f.member.size
    ensures Feed(parse, InContents(files, f), s) == AfterContents(files, f.(contents := f.contents + s))
  {
    var front, last := s[..|s| - 1], s[|s| - 1];
    var almost := f.(contents := f.contents + front);
    ContentsRun(parse, files, f, front);
    FeedLast(parse, InContents(files, f), s, InContents(files, almost));
    LastContentsByte(parse, files, almost, last);
    SplitLast(f.contents, s);
  }

  /** The rest of a member's padding. */
  lemma {:induction false} PaddingRun(parse: HeaderParser, files: seq<File>, f: File, buffer: seq<byte>, s: seq<byte>)
    requires |f.contents| == f.member.size
    requires s != [] && |buffer| + |s| == Padding(f.member.size)
    ensures Feed(parse, Machine(files, Some(f), buffer, false), s)
            == Machine(files + [f.(padding := buffer + s)], None, [], false)
  {
    var front := s[..|s| - 1];
    BufferRun(parse, Machine(files, Some(f), buffer, false), front);
    SplitLast(buffer, s);
  }

  // ----- What is accepted

  /** A member as tar lays it out: details from its header block, contents of the declared size, full blocks. */
  predicate WellFormed(parse: HeaderParser, f: File) {
    && |f.header| == TAR_BLOCK
    && !AllZero(f.header)
    && parse(f.header) == Some(f.member)
    && |f.contents| == f.member.size
    && |f.padding| == Padding(f.member.size)
  }

  ghost predicate AllWellFormed(parse: HeaderParser, files: seq<File>) {
    forall i :: 0 <= i < |files| ==> WellFormed(parse, files[i])
  }

  /** An archive trailer is nothing, or starts with a block of zeros; anything may follow that block. */
  predicate TailOk(tail: seq<byte>) {
    tail == [] || (|tail| >= TAR_BLOCK && AllZero(tail[..TAR_BLOCK]))
  }

  function Received(m: Machine): seq<byte>
    requires m.Machine?
  {
    EncodeAll(m.files) + (if m.current.Some? then m.current.value.header + m.current.value.contents else []) + m.buffer
  }

  /** Outside a member, all that was received has been sent once the buffer goes out as the archive trailer. */
  lemma {:induction false} EndedBytes(m: Machine)
    requires m.Machine? && m.current.None?
    ensures ArchiveBytes(Archive(m.files, None, Some(m.buffer))) == Received(m)
  {
  }

  ghost predicate MachineOk(parse: HeaderParser, m: Machine) {
    m.Machine? ==>
      && AllWellFormed(parse, m.files)
      && (m.ended ==> m.current.None? && m.buffer != [] && TailOk(m.buffer))
      && (!m.ended && m.current.None? ==> |m.buffer| < TAR_BLOCK)
      && (m.current.Some? ==> CurrentOk(parse, m.current.value, m.buffer))
  }

  ghost predicate CurrentOk(parse: HeaderParser, f: File, buffer: seq<byte>) {
    && |f.header| == TAR_BLOCK && !AllZero(f.header) && parse(f.header) == Some(f.member)
    && |f.contents| <= f.member.size && f.padding == []
    && |buffer| <= Padding(f.member.size)
    && (|f.contents| < f.member.size ==> buffer == [])
    && (|f.contents| == f.member.size ==> |buffer| < Padding(f.member.size))
  }

  lemma {:induction false} AppendInside(a: seq<byte>, header: seq<byte>, contents: seq<byte>, b: byte)
    ensures a + (header + (contents + [b])) == a + (header + contents) + [b]
  {
  }

  lemma {:induction false} ReceivedInContents(files: seq<File>, f: File)
    ensures Received(InContents(files, f)) == EncodeAll(files) + (f.header + f.contents)
    ensures f.padding == [] ==> EncodeAll(files + [f]) == EncodeAll(files) + (f.header + f.contents)
  {
  }

  lemma {:induction false} PushContentsOk(parse: HeaderParser, files: seq<File>, f: File, b: byte)
    requires AllWellFormed(parse, files) && CurrentOk(parse, f, []) && |f.contents| < f.member.size
    ensures var m := PushInside(files, f, [], b);
      m.Machine? && MachineOk(parse, m) && Received(m) == Received(InContents(files, f)) + [b]
  {
    var f' := f.(contents := f.contents + [b]);
    AppendInside(EncodeAll(files), f.header, f.contents, b);
    ReceivedInContents(files, f);
    ReceivedInContents(files, f');
    if |f'.contents| == f.member.size && Padding(f.member.size) == 0 {
      assert WellFormed(parse, f');
    }
  }

  lemma {:induction false} PushInsideOk(parse: HeaderParser, m: Machine, b: byte)
    requires MachineOk(parse, m) && m.Machine? && !m.ended && m.current.Some?
    ensures var m' := PushInside(m.files, m.current.value, m.buffer, b);
      m'.Machine? && MachineOk(parse, m') && Received(m') == Received(m) + [b]
  {
    var f := m.current.value;
    if |f.contents| < f.member.size {
      PushContentsOk(parse, m.files, f, b);
    } else {
      var f' := f.(padding := m.buffer + [b]);
      EncodeOneMore(m.files, f');
      assert Encode(f') == f.header + f.contents + m.buffer + [b];
    }
  }

  lemma {:induction false} PushEmptyMemberOk(parse: HeaderParser, files: seq<File>, f: File)
    requires AllWellFormed(parse, files) && WellFormed(parse, f) && f.contents == [] == f.padding
    ensures AllWellFormed(parse, files + [f])
    ensures EncodeAll(files + [f]) == EncodeAll(files) + f.header
  {
  }

  lemma {:induction false} PushHeaderOk(parse: HeaderParser, files: seq<File>, block: seq<byte>)
    requires AllWellFormed(parse, files) && |block| == TAR_BLOCK
    requires PushHeader(parse, files, block).Machine?
    ensures var m := PushHeader(parse, files, block);
      MachineOk(parse, m) && Received(m) == EncodeAll(files) + block
  {
    if AllZero(block) {
      assert block[..TAR_BLOCK] == block;
    } else {
      var f := File(parse(block).value, block, [], []);
      if f.member.size == 0 {
        PushEmptyMemberOk(parse, files, f);
      }
    }
  }

  lemma {:induction false} PushOk(parse: HeaderParser, m: Machine, b: byte)
    requires MachineOk(parse, m)
    requires Push(parse, m, b).Machine?
    ensures m.Machine? && MachineOk(parse, Push(parse, m, b))
    ensures Received(Push(parse, m, b)) == Received(m) + [b]
  {
    if !m.ended && m.current.Some? {
      PushInsideOk(parse, m, b);
    } else if !m.ended && |m.buffer| + 1 == TAR_BLOCK {
      PushHeaderOk(parse, m.files, m.buffer + [b]);
    } else if m.ended {
      assert (m.buffer + [b])[..TAR_BLOCK] == m.buffer[..TAR_BLOCK];
    }
  }

  lemma {:induction false} FeedKeepsOk(parse: HeaderParser, m: Machine, s: seq<byte>)
    requires m.Machine? && MachineOk(parse, m)
    requires Feed(parse, m, s).Machine?
    ensures MachineOk(parse, Feed(parse, m, s)) && Received(Feed(parse, m, s)) == Received(m) + s
  {
    if s == [] {
      assert Received(m) + s == Received(m);
    } else {
      var front, last := s[..|s| - 1], s[|s| - 1];
      FeedKeepsOk(parse, m, front);
      PushOk(parse, Feed(parse, m, front), last);
      assert Received(m) + s == (Received(m) + front) + [last];
    }
  }

  lemma {:induction false} FeedOk(parse: HeaderParser, s: seq<byte>)
    requires Feed(parse, START, s).Machine?
    ensures MachineOk(parse, Feed(parse, START, s)) && Received(Feed(parse, START, s)) == s
  {
    FeedKeepsOk(parse, START, s);
    assert Received(START) == [];
    assert [] + s == s;
  }

  lemma {:induction false} FeedFile(parse: HeaderParser, files: seq<File>, f: File)
    requires WellFormed(parse, f)
    ensures Feed(parse, Machine(files, None, [], false), Encode(f)) == Machine(files + [f], None, [], false)
  {
    var m := Machine(files, None, [], false);
    assert Encode(f) == f.header + (f.contents + f.padding);
    FeedAppend(parse, m, f.header, f.contents + f.padding);
    HeaderRun(parse, files, [], f.header);
    assert [] + f.header == f.header;
    var begun := File(f.member, f.header, [], []);
    if f.member.size > 0 {
      FeedAppend(parse, InContents(files, begun), f.contents, f.padding);
      LastContentsRun(parse, files, begun, f.contents);
      assert [] + f.contents == f.contents;
      if f.padding != [] {
        PaddingRun(parse, files, begun.(contents := f.contents), [], f.padding);
        assert [] + f.padding == f.padding;
      }
    }
  }

  lemma {:induction false} FeedOneMore(parse: HeaderParser, m: Machine, files: seq<File>, mid: Machine)
    requires files != [] && Feed(parse, m, EncodeAll(files[..|files| - 1])) == mid
    ensures Feed(parse, m, EncodeAll(files)) == Feed(parse, mid, Encode(files[|files| - 1]))
  {
    FeedAppend(parse, m, EncodeAll(files[..|files| - 1]), Encode(files[|files| - 1]));
  }

  lemma {:induction false} FeedFiles(parse: HeaderParser, before: seq<File>, files: seq<File>)
    requires AllWellFormed(parse, files)
    ensures Feed(parse, Machine(before, None, [], false), EncodeAll(files)) == Machine(before + files, None, [], false)
  {
    if files == [] {
      assert before + files == before;
    } else {
      var front, last := files[..|files| - 1], files[|files| - 1];
      FeedFiles(parse, before, front);
      FeedFile(parse, before + front, last);
      FeedOneMore(parse, Machine(before, None, [], false), files, Machine(before + front, None, [], false));
      SplitLast(before, files);
    }
  }

  lemma {:induction false} FeedTail(parse: HeaderParser, files: seq<File>, tail: seq<byte>)
    requires TailOk(tail)
    ensures Finish(Feed(parse, Machine(files, None, [], false), tail)) == Some(Archive(files, None, Some(tail)))
  {
    if tail != [] {
      var m := Machine(files, None, [], false);
      FeedSplit(parse, m, tail, TAR_BLOCK);
      HeaderRun(parse, files, [], tail[..TAR_BLOCK]);
      assert [] + tail[..TAR_BLOCK] == tail[..TAR_BLOCK];
      BufferRun(parse, Machine(files, None, tail[..TAR_BLOCK], true), tail[TAR_BLOCK..]);
      assert tail[..TAR_BLOCK] + tail[TAR_BLOCK..] == tail;
    }
  }

  /** A stream is accepted with these members and trailer if and only if it is their concatenation. */
  lemma {:induction false} AcceptedIff(parse: HeaderParser, input: seq<byte>, files: seq<File>, tail: seq<byte>)
    ensures Finish(Feed(parse, START, input)) == Some(Archive(files, None, Some(tail)))
       <==> AllWellFormed(parse, files) && TailOk(tail) && input == EncodeAll(files) + tail
  {
    if AllWellFormed(parse, files) && TailOk(tail) && input == EncodeAll(files) + tail {
      FeedAppend(parse, START, EncodeAll(files), tail);
      FeedFiles(parse, [], files);
      assert [] + files == files;
      FeedTail(parse, files, tail);
    }
    if Finish(Feed(parse, START, input)) == Some(Archive(files, None, Some(tail))) {
      FeedOk(parse, input);
    }
  }

  // ----- The parser

  class Parser {
    const parse: HeaderParser
    var next: Context
    var member: Option<Member>
    var sent: nat
    var pad: nat
    var buffer: seq<byte>
    /** What has been passed to the next streamer. */
    var out: seq<Chunk>

    ghost function Seen(): Option<Archive>
      reads this
    {
      ReceiveAll(Some(NOTHING), out)
    }

    ghost predicate Valid()
      reads this
    {
      && Seen().Some? && Seen().value.trailer.None? && SameDetails(Some(NOTHING), out)
      && (Seen().value.current.Some? ==> Seen().value.current.value.padding == [])
      && var current := Seen().value.current;
         match next
         case MemberHeader => current.None? && |buffer| < TAR_BLOCK
         case MemberContents => current.Some? && member == Some(current.value.member) && buffer == []
                                && sent == |current.value.contents| < current.value.member.size
                                && pad == Padding(current.value.member.size)
         case MemberTrailer => current.Some? && member == Some(current.value.member)
                               && |current.value.contents| == current.value.member.size
                               && |buffer| < pad == Padding(current.value.member.size)
         case ArchiveTrailer => current.None?
    }

    /** The reference machine's state. */
    ghost function State(): Machine
      requires Valid()
      reads this
    {
      Machine(Seen().value.files, Seen().value.current, buffer, next == ArchiveTrailer)
    }

    constructor (parse: HeaderParser)
      ensures Valid() && State() == START && this.parse == parse && out == []
    {
      this.parse := parse;
      next, member, sent, pad, buffer, out := MemberHeader, None, 0, 0, [], [];
    }

    /** Moves bytes to the buffer until it holds `target`; `n` is how many were taken. */
    method BufferUntil(data: seq<byte>, target: nat) returns (n: nat, reached: bool)
      requires |buffer| < target
      modifies this`buffer
      ensures reached <==> |old(buffer)| + |data| >= target
      ensures n == if reached then target - |old(buffer)| else |data|
      ensures n <= |data| && buffer == old(buffer) + data[..n]
    {
      reached := |buffer| + |data| >= target;
      n := if reached then target - |buffer| else |data|;
      buffer := buffer + data[..n];
    }

    method Send(context: Context, data: seq<byte>)
      modifies this`out
      ensures out == old(out) + [Chunk(context, member, data)]
      ensures Seen() == Receive(old(Seen()), Chunk(context, member, data))
      ensures SameDetails(Some(NOTHING), out) <==> old(SameDetails(Some(NOTHING), out)) && Detailed(old(Seen()), Chunk(context, member, data))
    {
      SameDetailsOne(Some(NOTHING), out, Chunk(context, member, data));
      ReceiveOne(Some(NOTHING), out, Chunk(context, member, data));
      out := out + [Chunk(context, member, data)];
    }

    /** Passes a header on. */
    method SendHeader(m: Member)
      requires Seen().Some? && Seen().value.trailer.None? && Seen().value.current.None? && SameDetails(Some(NOTHING), out)
      modifies this`out, this`member, this`pad
      ensures member == Some(m) && pad == Padding(m.size)
      ensures Seen() == Some(Archive(old(Seen()).value.files, Some(File(m, buffer, [], [])), None)) && SameDetails(Some(NOTHING), out)
    {
      member, pad := Some(m), Padding(m.size);
      Send(MemberHeader, buffer);
    }

    /** Begins a member; an empty one gets its empty trailer at once. */
    method Begin(m: Member)
      requires next == MemberHeader && |buffer| == TAR_BLOCK
      requires Seen().Some? && Seen().value.trailer.None? && Seen().value.current.None? && SameDetails(Some(NOTHING), out)
      modifies this
      ensures Valid() && State() == Begun(old(Seen()).value.files, old(buffer), m)
    {
      SendHeader(m);
      if m.size == 0 {
        SendTrailer([], old(Seen()).value.files, File(m, buffer, [], []));
      } else {
        next := MemberContents;
      }
      buffer, sent := [], 0;
    }

    /** A full header block is in the buffer. */
    method Header() returns (ok: bool)
      requires next == MemberHeader && |buffer| == TAR_BLOCK
      requires Seen().Some? && Seen().value.trailer.None? && Seen().value.current.None? && SameDetails(Some(NOTHING), out)
      modifies this
      ensures ok == PushHeader(parse, old(Seen()).value.files, old(buffer)).Machine?
      ensures ok ==> Valid() && State() == PushHeader(parse, old(Seen()).value.files, old(buffer))
    {
      ok := true;
      if AllZero(buffer) {
        next := ArchiveTrailer;
      } else {
        var m := parse(buffer);
        if m.None? {
          return false;
        }
        Begin(m.value);
      }
    }

    /** The next streamer is inside this member. */
    ghost predicate Inside(files: seq<File>, f: File)
      reads this
    {
      Seen() == Some(Archive(files, Some(f), None)) && member == Some(f.member) && SameDetails(Some(NOTHING), out)
    }

    method SendContents(data: seq<byte>, ghost files: seq<File>, ghost f: File)
      requires Inside(files, f)
      modifies this`out
      ensures Inside(files, f.(contents := f.contents + data))
    {
      Send(MemberContents, data);
    }

    method SendTrailer(data: seq<byte>, ghost files: seq<File>, ghost f: File)
      requires Inside(files, f)
      modifies this`out
      ensures Seen() == Some(Archive(files + [f.(padding := data)], None, None)) && SameDetails(Some(NOTHING), out)
    {
      Send(MemberTrailer, data);
    }

    /** Contents: as much as there is, but not more than the member still has. */
    method Contents(data: seq<byte>) returns (n: nat)
      requires Valid() && next == MemberContents && data != []
      modifies this
      ensures Valid() && 0 < n <= |data|
      ensures State() == Feed(parse, old(State()), data[..n])
    {
      ghost var f, files := Seen().value.current.value, Seen().value.files;
      n := if member.value.size - sent <= |data| then member.value.size - sent else |data|;
      SendContents(data[..n], files, f);
      sent := sent + n;
      if sent == member.value.size {
        LastContentsRun(parse, files, f, data[..n]);
        if pad == 0 {
          SendTrailer([], files, f.(contents := f.contents + data[..n]));
          next := MemberHeader;
        } else {
          next := MemberTrailer;
        }
        buffer := [];
      } else {
        ContentsRun(parse, files, f, data[..n]);
      }
    }

    /** Padding: sent as one trailer once it is complete. */
    method Trailer(data: seq<byte>) returns (n: nat)
      requires Valid() && next == MemberTrailer && data != []
      modifies this
      ensures Valid() && 0 < n <= |data|
      ensures State() == Feed(parse, old(State()), data[..n])
    {
      ghost var f, files, had := Seen().value.current.value, Seen().value.files, buffer;
      var reached;
      n, reached := BufferUntil(data, pad);
      if reached {
        PaddingRun(parse, files, f, had, data[..n]);
        assert buffer[..pad] == buffer;
        SendTrailer(buffer[..pad], files, f);
        next, buffer := MemberHeader, [];
      } else {
        BufferRun(parse, Machine(files, Some(f), had, false), data[..n]);
      }
    }

    /** Header bytes. */
    method CollectHeader(data: seq<byte>) returns (n: nat, ok: bool)
      requires Valid() && next == MemberHeader && data != []
      modifies this
      ensures 0 < n <= |data|
      ensures ok == Feed(parse, old(State()), data[..n]).Machine?
      ensures ok ==> Valid() && State() == Feed(parse, old(State()), data[..n])
    {
      ghost var files, had := Seen().value.files, buffer;
      var reached;
      n, reached := BufferUntil(data, TAR_BLOCK);
      if reached {
        HeaderRun(parse, files, had, data[..n]);
        ok := Header();
      } else {
        BufferRun(parse, Machine(files, None, had, false), data[..n]);
        ok := true;
      }
    }

    /** One turn of the loop, by context. */
    method Step(data: seq<byte>) returns (n: nat, ok: bool)
      requires Valid() && data != []
      modifies this
      ensures 0 < n <= |data|
      ensures ok == Feed(parse, old(State()), data[..n]).Machine?
      ensures ok ==> Valid() && State() == Feed(parse, old(State()), data[..n])
    {
      ok := true;
      match next {
        case MemberHeader => n, ok := CollectHeader(data);
        case MemberContents => n := Contents(data);
        case MemberTrailer => n := Trailer(data);
        case ArchiveTrailer =>
          n := |data|;
          assert data[..n] == data;
          BufferRun(parse, State(), data);
          buffer := buffer + data;
      }
    }

    /** Takes a chunk of the stream; `ok` is false when the program has ended with an error. */
    method Content(data: seq<byte>) returns (ok: bool)
      requires Valid()
      modifies this
      ensures ok == Feed(parse, old(State()), data).Machine?
      ensures ok ==> Valid() && State() == Feed(parse, old(State()), data)
    {
      var at := 0;
      while at < |data|
        invariant 0 <= at <= |data| && Valid()
        invariant State() == Feed(parse, old(State()), data[..at])
      {
        var n;
        n, ok := Step(data[at..]);
        Advance(parse, old(State()), data, at, n);
        at := at + n;
        if !ok {
          FatalStays(parse, old(State()), data, at);
          return;
        }
      }
      assert data[..at] == data;
      ok := true;
    }

    /** The end of the stream. */
    method Finalize() returns (ok: bool)
      requires Valid()
      modifies this`out, this`member
      ensures ok == Finish(old(State())).Some?
      ensures ok ==> ReceiveAll(Some(NOTHING), out) == Finish(old(State()))
      ensures ok ==> Flat(out) == Received(old(State())) && SameDetails(Some(NOTHING), out)
    {
      if next != ArchiveTrailer && (next != MemberHeader || |buffer| > 0) {
        return false;
      }
      EndedBytes(State());
      member := None;
      Send(ArchiveTrailer, buffer);
      ReceivedBytes(out);
      ok := true;
    }
  }

  lemma {:induction false} Advance(parse: HeaderParser, m: Machine, data: seq<byte>, at: nat, n: nat)
    requires at + n <= |data|
    ensures Feed(parse, m, data[..at + n]) == Feed(parse, Feed(parse, m, data[..at]), data[at..][..n])
  {
    FeedAppend(parse, m, data[..at], data[at..][..n]);
    assert data[..at] + data[at..][..n] == data[..at + n];
  }

  lemma {:induction false} FatalStays(parse: HeaderParser, m: Machine, data: seq<byte>, k: nat)
    requires k <= |data| && Feed(parse, m, data[..k]).Fatal?
    ensures Feed(parse, m, data).Fatal?
    decreases |data| - k
  {
    if k < |data| {
      assert data[..k + 1][..k] == data[..k];
      FatalStays(parse, m, data, k + 1);
    } else {
      assert data[..k] == data;
    }
  }

  /**
   A whole stream cut anyhow: the outcome depends only on the bytes; the members passed on are
   the ones the stream consists of, all their chunks carry their details, and the bytes passed
   on are the bytes received.
   */
  method ParseStream(parse: HeaderParser, chunks: seq<seq<byte>>) returns (out: Option<seq<Chunk>>)
    ensures out.Some? <==> Finish(Feed(parse, START, Joined(chunks))).Some?
    ensures out.Some? ==> ReceiveAll(Some(NOTHING), out.value) == Finish(Feed(parse, START, Joined(chunks)))
    ensures out.Some? ==> Flat(out.value) == Joined(chunks) && SameDetails(Some(NOTHING), out.value)
  {
    var p := new Parser(parse);
    var i := 0;
    while i < |chunks|
      invariant 0 <= i <= |chunks| && p.Valid() && p.parse == parse && fresh(p)
      invariant p.State() == Feed(parse, START, Joined(chunks[..i]))
    {
      FeedAppend(parse, START, Joined(chunks[..i]), chunks[i]);
      assert chunks[..i + 1][..i] == chunks[..i];
      var ok := p.Content(chunks[i]);
      i := i + 1;
      if !ok {
        JoinedPrefix(chunks, i);
        FatalStays(parse, START, Joined(chunks), |Joined(chunks[..i])|);
        return None;
      }
    }
    assert chunks[..i] == chunks;
    var ok := p.Finalize();
    if ok {
      FeedOk(parse, Joined(chunks));
      return Some(p.out);
    }
    return None;
  }

  lemma {:induction false} JoinedPrefix(chunks: seq<seq<byte>>, i: nat)
    requires i <= |chunks|
    ensures |Joined(chunks[..i])| <= |Joined(chunks)|
    ensures Joined(chunks)[..|Joined(chunks[..i])|] == Joined(chunks[..i])
    decreases |chunks|
  {
    if i == |chunks| {
      assert chunks[..i] == chunks;
    } else {
      var front := chunks[..|chunks| - 1];
      assert front[..i] == chunks[..i];
      JoinedPrefix(front, i);
    }
  }
}
