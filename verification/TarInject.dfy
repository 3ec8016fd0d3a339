/**
 Editing recovery settings into an archive, fetools/pg16/pg_basebackup/bbstreamer_inject.c:65-249.

 The reference edits a list of members; the injector edits a stream of chunks.
 */
module TarInject {
  import opened Bytes
  import opened TarChunks

  /** The server takes recovery settings as parameters or not, the settings' text, the mode for new files. */
  datatype Settings = Settings(gucs: bool, conf: seq<byte>, mode: nat)

  const AUTO_CONF: string := "postgresql.auto.conf"
  const STANDBY_SIGNAL: string := "standby.signal"
  const RECOVERY_CONF: string := "recovery.conf"

  predicate Dropped(s: Settings, m: Member) {
    m.pathname == if s.gucs then STANDBY_SIGNAL else RECOVERY_CONF
  }

  predicate Appended(s: Settings, m: Member) {
    s.gucs && m.pathname == AUTO_CONF
  }

  /** The details of a member after editing. */
  function EditedMember(s: Settings, m: Member): Member {
    if Appended(s, m) then m.(size := m.size + |s.conf|) else m
  }

  /** A new member: no header and no padding of its own. */
  function New(s: Settings, name: string, data: seq<byte>): File {
    File(Member(name, |data|, s.mode, 2048, 1024, false, false, ""), [], data, [])
  }

  // ----- Editing a list of members

  function EditFile(s: Settings, f: File): seq<File> {
    if Dropped(s, f.member) then []
    else if Appended(s, f.member) then [File(EditedMember(s, f.member), [], f.contents + s.conf, f.padding)]
    else [f]
  }

  function EditFiles(s: Settings, files: seq<File>): seq<File> {
    if files == [] then [] else EditFiles(s, files[..|files| - 1]) + EditFile(s, files[|files| - 1])
  }

  predicate HasAutoConf(files: seq<File>) {
    exists i :: 0 <= i < |files| && files[i].member.pathname == AUTO_CONF
  }

  function Added(s: Settings, files: seq<File>): seq<File> {
    if !s.gucs then [New(s, RECOVERY_CONF, s.conf)]
    else if HasAutoConf(files) then [New(s, STANDBY_SIGNAL, [])]
    else [New(s, AUTO_CONF, s.conf), New(s, STANDBY_SIGNAL, [])]
  }

  function Edited(s: Settings, files: seq<File>): seq<File> {
    EditFiles(s, files) + Added(s, files)
  }

  function EditCurrent(s: Settings, current: Option<File>): Option<File> {
    if current.None? || Dropped(s, current.value.member) then None
    else if Appended(s, current.value.member) then
      Some(File(EditedMember(s, current.value.member), [], current.value.contents, current.value.padding))
    else current
  }

  /** What the next streamer has been told when this much has come in. */
  function EditArchive(s: Settings, a: Archive): Archive {
    if a.trailer.Some? then Archive(Edited(s, a.files), None, a.trailer)
    else Archive(EditFiles(s, a.files), EditCurrent(s, a.current), None)
  }

  lemma {:induction false} EditOneMore(s: Settings, files: seq<File>, f: File)
    ensures EditFiles(s, files + [f]) == EditFiles(s, files) + EditFile(s, f)
  {
  }

  // ----- What editing means

  /** The members with one name. */
  function Named(name: string, files: seq<File>): seq<File> {
    if files == [] then []
    else Named(name, files[..|files| - 1])
         + (if files[|files| - 1].member.pathname == name then [files[|files| - 1]] else [])
  }

  lemma {:induction false} NamedAppend(name: string, a: seq<File>, b: seq<File>)
    ensures Named(name, a + b) == Named(name, a) + Named(name, b)
    decreases |b|
  {
    if b == [] {
      assert a + b == a;
    } else {
      assert (a + b)[..|a + b| - 1] == a + b[..|b| - 1];
      NamedAppend(name, a, b[..|b| - 1]);
    }
  }

  lemma {:induction false} NamedOne(name: string, f: File)
    ensures Named(name, [f]) == if f.member.pathname == name then [f] else []
  {
  }

  lemma {:induction false} NamedEdit(s: Settings, name: string, f: File)
    ensures Named(name, EditFile(s, f)) == if f.member.pathname == name then EditFile(s, f) else []
  {
  }

  /** Every member of one name is edited in its place: dropped, appended to, or left alone. */
  lemma {:induction false} EditByName(s: Settings, name: string, files: seq<File>)
    ensures Named(name, EditFiles(s, files)) == EditFiles(s, Named(name, files))
    decreases |files|
  {
    if files != [] {
      var front, last := files[..|files| - 1], files[|files| - 1];
      EditByName(s, name, front);
      NamedAppend(name, EditFiles(s, front), EditFile(s, last));
      NamedEdit(s, name, last);
      if last.member.pathname == name {
        EditOneMore(s, Named(name, front), last);
      } else {
        assert Named(name, front) + [] == Named(name, front);
      }
    }
  }

  lemma {:induction false} NamedHaveTheName(name: string, files: seq<File>)
    ensures forall i :: 0 <= i < |Named(name, files)| ==> Named(name, files)[i].member.pathname == name
    ensures Named(name, files) == [] <==> forall i :: 0 <= i < |files| ==> files[i].member.pathname != name
  {
    if files != [] {
      NamedHaveTheName(name, files[..|files| - 1]);
    }
  }

  lemma {:induction false} EditDropsAll(s: Settings, files: seq<File>)
    requires forall i :: 0 <= i < |files| ==> Dropped(s, files[i].member)
    ensures EditFiles(s, files) == []
  {
    if files != [] {
      EditDropsAll(s, files[..|files| - 1]);
    }
  }

  lemma {:induction false} EditKeepsAll(s: Settings, files: seq<File>)
    requires forall i :: 0 <= i < |files| ==> !Dropped(s, files[i].member) && !Appended(s, files[i].member)
    ensures EditFiles(s, files) == files
  {
    if files != [] {
      EditKeepsAll(s, files[..|files| - 1]);
    }
  }

  lemma {:induction false} EditAppendsToAll(s: Settings, files: seq<File>)
    requires forall i :: 0 <= i < |files| ==> !Dropped(s, files[i].member) && Appended(s, files[i].member)
    ensures AppendedTo(s, files, EditFiles(s, files))
  {
    if files != [] {
      EditAppendsToAll(s, files[..|files| - 1]);
    }
  }

  /** Members of one name are all dropped, all appended to, or all kept. */
  lemma {:induction false} EditSameName(s: Settings, name: string, files: seq<File>)
    requires forall i :: 0 <= i < |files| ==> files[i].member.pathname == name
    ensures name == (if s.gucs then STANDBY_SIGNAL else RECOVERY_CONF) ==> EditFiles(s, files) == []
    ensures s.gucs && name == AUTO_CONF ==> AppendedTo(s, files, EditFiles(s, files))
    ensures name != (if s.gucs then STANDBY_SIGNAL else RECOVERY_CONF) && !(s.gucs && name == AUTO_CONF) ==> EditFiles(s, files) == files
  {
    NamesDiffer();
    if name == if s.gucs then STANDBY_SIGNAL else RECOVERY_CONF {
      EditDropsAll(s, files);
    } else if s.gucs && name == AUTO_CONF {
      EditAppendsToAll(s, files);
    } else {
      EditKeepsAll(s, files);
    }
  }

  /** Each member with the settings behind its contents, its header to be made anew and its size, but no other detail, changed. */
  ghost predicate AppendedTo(s: Settings, was: seq<File>, now: seq<File>) {
    |now| == |was| && forall i :: 0 <= i < |was| ==>
      && now[i].contents == was[i].contents + s.conf && now[i].header == [] && now[i].padding == was[i].padding
      && now[i].member == was[i].member.(size := was[i].member.size + |s.conf|)
  }

  lemma {:induction false} NamesDiffer()
    ensures |AUTO_CONF| == 20 && |STANDBY_SIGNAL| == 14 && |RECOVERY_CONF| == 13
  {
  }

  /**
   What the archive holds afterwards.  With parameters: one empty standby.signal; every
   postgresql.auto.conf that was there with the settings behind its contents, or else a new one
   with just the settings.  Without: one recovery.conf with the settings.  Members of any other
   name are the ones that were there.
   */
  lemma {:induction false} RecoveryIsConfigured(s: Settings, name: string, files: seq<File>)
    ensures var was, now := Named(name, files), Named(name, Edited(s, files));
      if !s.gucs then now == if name == RECOVERY_CONF then [New(s, name, s.conf)] else was
      else if name == STANDBY_SIGNAL then now == [New(s, name, [])]
      else if name == AUTO_CONF && was == [] then now == [New(s, name, s.conf)]
      else if name == AUTO_CONF then AppendedTo(s, was, now)
      else now == was
  {
    var was := Named(name, files);
    NamesDiffer();
    NamedEdited(s, name, files);
    NamedHaveTheName(name, files);
    EditSameName(s, name, was);
    NamedAdded(s, name, files);
    var edited, added := EditFiles(s, was), Named(name, Added(s, files));
    if name == (if s.gucs then STANDBY_SIGNAL else RECOVERY_CONF) {
      assert edited == [] && edited + added == added;
    } else if s.gucs && name == AUTO_CONF {
      HasAutoConfIff(files);
      if was == [] {
        assert edited + added == added;
      } else {
        assert edited + added == edited;
      }
    } else {
      assert edited + added == was;
    }
  }

  lemma {:induction false} HasAutoConfIff(files: seq<File>)
    ensures HasAutoConf(files) <==> Named(AUTO_CONF, files) != []
  {
    NamedHaveTheName(AUTO_CONF, files);
  }

  lemma {:induction false} NamedEdited(s: Settings, name: string, files: seq<File>)
    ensures Named(name, Edited(s, files)) == EditFiles(s, Named(name, files)) + Named(name, Added(s, files))
  {
    EditByName(s, name, files);
    NamedAppend(name, EditFiles(s, files), Added(s, files));
  }

  /** A file that is added: its contents, and the details the program gives it. */
  lemma {:induction false} NewFile(s: Settings, name: string, data: seq<byte>)
    ensures var f := New(s, name, data);
      && f.contents == data && f.header == [] && f.member.pathname == name && f.member.size == |data| && f.member.mode == s.mode
      && f.member.uid == 0x800 && f.member.gid == 0x400 && !f.member.isDirectory && !f.member.isLink
  {
  }

  lemma {:induction false} NamedAdded(s: Settings, name: string, files: seq<File>)
    ensures Named(name, Added(s, files))
      == if !s.gucs then (if name == RECOVERY_CONF then [New(s, name, s.conf)] else [])
         else if name == STANDBY_SIGNAL then [New(s, name, [])]
         else if name == AUTO_CONF && !HasAutoConf(files) then [New(s, name, s.conf)]
         else []
  {
    NamesDiffer();
    if !s.gucs {
      NamedOne(name, New(s, RECOVERY_CONF, s.conf));
    } else {
      NamedOne(name, New(s, STANDBY_SIGNAL, []));
      if !HasAutoConf(files) {
        NamedOne(name, New(s, AUTO_CONF, s.conf));
        NamedAppend(name, [New(s, AUTO_CONF, s.conf)], [New(s, STANDBY_SIGNAL, [])]);
        assert Added(s, files) == [New(s, AUTO_CONF, s.conf)] + [New(s, STANDBY_SIGNAL, [])];
      }
    }
  }

  // ----- Editing a stream of chunks

  /** A new member as chunks: an empty header and an empty trailer, to be made up by a later streamer. */
  function NewChunks(s: Settings, name: string, data: seq<byte>): seq<Chunk> {
    var m := Some(New(s, name, data).member);
    [Chunk(MemberHeader, m, []), Chunk(MemberContents, m, data), Chunk(MemberTrailer, m, [])]
  }

  function AddedChunks(s: Settings, hasAutoConf: bool): seq<Chunk> {
    if !s.gucs then NewChunks(s, RECOVERY_CONF, s.conf)
    else if hasAutoConf then NewChunks(s, STANDBY_SIGNAL, [])
    else NewChunks(s, AUTO_CONF, s.conf) + NewChunks(s, STANDBY_SIGNAL, [])
  }

  /** The injector's copy of the details: of the member being received, else of the last one. */
  function CopiedMember(s: Settings, a: Archive): Option<Member> {
    if a.current.Some? then Some(EditedMember(s, a.current.value.member))
    else if a.files == [] then None
    else Some(EditedMember(s, a.files[|a.files| - 1].member))
  }

  /** The chunks sent for a chunk, when `a` has come in; settings are appended under the details of the trailer. */
  function Sent(s: Settings, a: Archive, c: Chunk): seq<Chunk>
    requires Receive(Some(a), c).Some?
  {
    match c.context
    case MemberHeader =>
      var m := c.member.value;
      if Dropped(s, m) then []
      else [Chunk(MemberHeader, Some(EditedMember(s, m)), if Appended(s, m) then [] else c.data)]
    case MemberContents =>
      if Dropped(s, a.current.value.member) then [] else [Chunk(MemberContents, CopiedMember(s, a), c.data)]
    case MemberTrailer =>
      var m, last := a.current.value.member, Chunk(MemberTrailer, CopiedMember(s, a), c.data);
      if Dropped(s, m) then []
      else if Appended(s, m) then [Chunk(MemberContents, c.member, s.conf), last]
      else [last]
    case ArchiveTrailer => AddedChunks(s, HasAutoConf(a.files)) + [Chunk(ArchiveTrailer, CopiedMember(s, a), c.data)]
  }

  function Injected(s: Settings, cs: seq<Chunk>): seq<Chunk> {
    if cs == [] then []
    else
      var a, c := ReceiveAll(Some(NOTHING), cs[..|cs| - 1]), cs[|cs| - 1];
      Injected(s, cs[..|cs| - 1]) + if Receive(a, c).Some? then Sent(s, a.value, c) else []
  }

  /** The one case in which details go wrong: settings are appended to a member. */
  predicate AppendsNow(s: Settings, a: Archive, c: Chunk) {
    c.context == MemberTrailer && a.current.Some? && Appended(s, a.current.value.member) && s.conf != []
  }

  lemma {:induction false} NewIsReceived(s: Settings, a: Archive, name: string, data: seq<byte>)
    requires a.current.None? && a.trailer.None?
    ensures ReceiveAll(Some(a), NewChunks(s, name, data)) == Some(Archive(a.files + [New(s, name, data)], None, None))
    ensures SameDetails(Some(a), NewChunks(s, name, data))
  {
    var cs := NewChunks(s, name, data);
    FewChunks(Some(a), cs[0], cs[1], cs[2]);
    assert [] + data == data;
  }

  lemma {:induction false} AddedAreReceived(s: Settings, a: Archive, files: seq<File>)
    requires a.current.None? && a.trailer.None?
    ensures ReceiveAll(Some(a), AddedChunks(s, HasAutoConf(files))) == Some(Archive(a.files + Added(s, files), None, None))
    ensures SameDetails(Some(a), AddedChunks(s, HasAutoConf(files)))
  {
    if !s.gucs {
      NewIsReceived(s, a, RECOVERY_CONF, s.conf);
    } else if HasAutoConf(files) {
      NewIsReceived(s, a, STANDBY_SIGNAL, []);
    } else {
      var auto', standby := NewChunks(s, AUTO_CONF, s.conf), NewChunks(s, STANDBY_SIGNAL, []);
      var b := Archive(a.files + [New(s, AUTO_CONF, s.conf)], None, None);
      NewIsReceived(s, a, AUTO_CONF, s.conf);
      NewIsReceived(s, b, STANDBY_SIGNAL, []);
      ReceiveAppend(Some(a), auto', standby);
      SameDetailsAppend(Some(a), auto', standby);
      assert b.files + [New(s, STANDBY_SIGNAL, [])] == a.files + Added(s, files);
    }
  }

  /** What is sent for a member's header or contents. */
  lemma {:induction false} InsideIsEdited(s: Settings, a: Archive, c: Chunk)
    requires Receive(Some(a), c).Some? && (c.context == MemberHeader || c.context == MemberContents)
    ensures var e := Some(EditArchive(s, a));
      && ReceiveAll(e, Sent(s, a, c)) == Some(EditArchive(s, Receive(Some(a), c).value))
      && SameDetails(e, Sent(s, a, c))
  {
    NamesDiffer();
    var sent := Sent(s, a, c);
    if sent != [] {
      FewChunks(Some(EditArchive(s, a)), sent[0], sent[0], sent[0]);
    }
  }

  /** The edited archive once a member's trailer has come in. */
  lemma {:induction false} EditedAfterTrailer(s: Settings, a: Archive, c: Chunk)
    requires Receive(Some(a), c).Some? && c.context == MemberTrailer
    ensures var f := a.current.value.(padding := c.data);
      EditArchive(s, Receive(Some(a), c).value) == Archive(EditFiles(s, a.files) + EditFile(s, f), None, None)
  {
    EditOneMore(s, a.files, a.current.value.(padding := c.data));
  }

  lemma {:induction false} DroppedTrailer(s: Settings, a: Archive, c: Chunk)
    requires Receive(Some(a), c).Some? && c.context == MemberTrailer && Dropped(s, a.current.value.member)
    ensures Sent(s, a, c) == [] && EditArchive(s, Receive(Some(a), c).value) == EditArchive(s, a)
  {
    EditedAfterTrailer(s, a, c);
    assert EditFiles(s, a.files) + [] == EditFiles(s, a.files);
  }

  /** A receiver inside a member gets its trailer, or more contents under other details and then its trailer. */
  lemma {:induction false} TrailerChunks(files: seq<File>, g: File, m: Member, more: seq<byte>, padding: seq<byte>)
    ensures var e, last := Some(Archive(files, Some(g), None)), Chunk(MemberTrailer, Some(g.member), padding);
      && ReceiveAll(e, [last]) == Some(Archive(files + [g.(padding := padding)], None, None)) && SameDetails(e, [last])
      && var both := [Chunk(MemberContents, Some(m), more), last];
         && ReceiveAll(e, both) == Some(Archive(files + [g.(contents := g.contents + more, padding := padding)], None, None))
         && (SameDetails(e, both) <==> m == g.member)
  {
    var e, last := Some(Archive(files, Some(g), None)), Chunk(MemberTrailer, Some(g.member), padding);
    var first := Chunk(MemberContents, Some(m), more);
    FewChunks(e, last, last, last);
    FewChunks(e, first, last, last);
  }

  lemma {:induction false} PlainTrailer(s: Settings, a: Archive, c: Chunk)
    requires Receive(Some(a), c).Some? && c.context == MemberTrailer
    requires !Dropped(s, a.current.value.member) && !Appended(s, a.current.value.member)
    ensures var e := Some(EditArchive(s, a));
      ReceiveAll(e, Sent(s, a, c)) == Some(EditArchive(s, Receive(Some(a), c).value)) && SameDetails(e, Sent(s, a, c))
  {
    var g := a.current.value;
    EditedAfterTrailer(s, a, c);
    TrailerChunks(EditFiles(s, a.files), g, g.member, [], c.data);
    assert Sent(s, a, c) == [Chunk(MemberTrailer, Some(g.member), c.data)];
  }

  lemma {:induction false} AppendedTrailer(s: Settings, a: Archive, c: Chunk)
    requires Receive(Some(a), c).Some? && c.context == MemberTrailer
    requires !Dropped(s, a.current.value.member) && Appended(s, a.current.value.member)
    ensures var e := Some(EditArchive(s, a));
      && ReceiveAll(e, Sent(s, a, c)) == Some(EditArchive(s, Receive(Some(a), c).value))
      && (SameDetails(e, Sent(s, a, c)) <==> s.conf == [])
  {
    var f := a.current.value;
    var g := File(EditedMember(s, f.member), [], f.contents, f.padding);
    EditedAfterTrailer(s, a, c);
    TrailerChunks(EditFiles(s, a.files), g, f.member, s.conf, c.data);
    assert Sent(s, a, c) == [Chunk(MemberContents, Some(f.member), s.conf), Chunk(MemberTrailer, Some(g.member), c.data)];
  }

  /** What is sent for a member's trailer completes the edited member. */
  lemma {:induction false} TrailerIsEdited(s: Settings, a: Archive, c: Chunk)
    requires Receive(Some(a), c).Some? && c.context == MemberTrailer
    ensures var e := Some(EditArchive(s, a));
      && ReceiveAll(e, Sent(s, a, c)) == Some(EditArchive(s, Receive(Some(a), c).value))
      && (SameDetails(e, Sent(s, a, c)) <==> !AppendsNow(s, a, c))
  {
    if Dropped(s, a.current.value.member) {
      NamesDiffer();
      DroppedTrailer(s, a, c);
    } else if Appended(s, a.current.value.member) {
      AppendedTrailer(s, a, c);
    } else {
      PlainTrailer(s, a, c);
    }
  }

  lemma {:induction false} EndIsEdited(s: Settings, a: Archive, c: Chunk)
    requires Receive(Some(a), c).Some? && c.context == ArchiveTrailer
    ensures var e := Some(EditArchive(s, a));
      && ReceiveAll(e, Sent(s, a, c)) == Some(EditArchive(s, Receive(Some(a), c).value))
      && SameDetails(e, Sent(s, a, c))
  {
    var e := EditArchive(s, a);
    var added, last := AddedChunks(s, HasAutoConf(a.files)), Chunk(ArchiveTrailer, CopiedMember(s, a), c.data);
    AddedAreReceived(s, e, a.files);
    ReceiveOne(Some(e), added, last);
    SameDetailsOne(Some(e), added, last);
  }

  lemma {:induction false} SentIsEdited(s: Settings, a: Archive, c: Chunk)
    requires Receive(Some(a), c).Some?
    ensures var e := Some(EditArchive(s, a));
      && ReceiveAll(e, Sent(s, a, c)) == Some(EditArchive(s, Receive(Some(a), c).value))
      && (SameDetails(e, Sent(s, a, c)) <==> !AppendsNow(s, a, c))
  {
    match c.context
    case MemberTrailer => TrailerIsEdited(s, a, c);
    case ArchiveTrailer => EndIsEdited(s, a, c);
    case _ => InsideIsEdited(s, a, c);
  }

  /** Chunks that make up an archive come out as chunks that make up the edited archive. */
  lemma {:induction false} InjectedIsEdited(s: Settings, cs: seq<Chunk>)
    requires ReceiveAll(Some(NOTHING), cs).Some?
    ensures ReceiveAll(Some(NOTHING), Injected(s, cs)) == Some(EditArchive(s, ReceiveAll(Some(NOTHING), cs).value))
  {
    if cs != [] {
      var front, c := cs[..|cs| - 1], cs[|cs| - 1];
      var a := ReceiveAll(Some(NOTHING), front).value;
      InjectedIsEdited(s, front);
      ReceiveAppend(Some(NOTHING), Injected(s, front), Sent(s, a, c));
      SentIsEdited(s, a, c);
    }
  }

  predicate BreaksDetails(s: Settings, files: seq<File>) {
    s.gucs && s.conf != [] && HasAutoConf(files)
  }

  lemma {:induction false} BreaksOneMore(s: Settings, a: Archive, c: Chunk)
    requires Receive(Some(a), c).Some?
    ensures BreaksDetails(s, Receive(Some(a), c).value.files) <==> BreaksDetails(s, a.files) || AppendsNow(s, a, c)
  {
    if c.context == MemberTrailer {
      AutoConfOneMore(a.files, a.current.value.(padding := c.data));
    }
  }

  /**
   All contents put out carry their member's details if and only if nothing is appended: the
   settings are empty or not parameters, or no postgresql.auto.conf has come in.
   */
  lemma {:induction false} DetailsKeptIff(s: Settings, cs: seq<Chunk>)
    requires ReceiveAll(Some(NOTHING), cs).Some?
    ensures SameDetails(Some(NOTHING), Injected(s, cs)) <==> !BreaksDetails(s, ReceiveAll(Some(NOTHING), cs).value.files)
  {
    if cs != [] {
      var front, c := cs[..|cs| - 1], cs[|cs| - 1];
      var a := ReceiveAll(Some(NOTHING), front).value;
      DetailsKeptIff(s, front);
      InjectedIsEdited(s, front);
      SameDetailsAppend(Some(NOTHING), Injected(s, front), Sent(s, a, c));
      SentIsEdited(s, a, c);
      BreaksOneMore(s, a, c);
    }
  }

  /** An empty postgresql.auto.conf and one byte of settings: details that were right come out wrong. */
  lemma {:induction false} DetailsBreak(mode: nat, header: seq<byte>)
    ensures var s := Settings(true, [10], mode);
      var m := Some(New(s, AUTO_CONF, []).member);
      var cs := [Chunk(MemberHeader, m, header), Chunk(MemberTrailer, m, []), Chunk(ArchiveTrailer, None, [])];
      && ReceiveAll(Some(NOTHING), cs).Some? && SameDetails(Some(NOTHING), cs)
      && !SameDetails(Some(NOTHING), Injected(s, cs))
  {
    var s := Settings(true, [10], mode);
    var m := Some(New(s, AUTO_CONF, []).member);
    var cs := [Chunk(MemberHeader, m, header), Chunk(MemberTrailer, m, []), Chunk(ArchiveTrailer, None, [])];
    FewChunks(Some(NOTHING), cs[0], cs[1], cs[2]);
    var files := ReceiveAll(Some(NOTHING), cs).value.files;
    assert files[0].member.pathname == AUTO_CONF;
    DetailsKeptIff(s, cs);
  }

  // ----- The injector

  class Injector {
    const s: Settings
    var skip: bool
    var isAutoConf: bool
    var foundAutoConf: bool
    var member: Option<Member>
    /** What has been passed to the next streamer. */
    var out: seq<Chunk>
    /** What has come in. */
    ghost var seen: Archive

    ghost predicate FlagsOk()
      reads this
    {
      && foundAutoConf == (s.gucs && (HasAutoConf(seen.files) || (seen.current.Some? && seen.current.value.member.pathname == AUTO_CONF)))
      && member == CopiedMember(s, seen)
      && (seen.current.Some? ==>
            && skip == Dropped(s, seen.current.value.member)
            && isAutoConf == Appended(s, seen.current.value.member))
    }

    /** The next streamer has been told of exactly the edited members. */
    ghost predicate Valid()
      reads this
    {
      FlagsOk() && ReceiveAll(Some(NOTHING), out) == Some(EditArchive(s, seen))
    }

    constructor (s: Settings)
      ensures Valid() && this.s == s && seen == NOTHING && out == []
    {
      this.s := s;
      skip, isAutoConf, foundAutoConf, member, out := false, false, false, None, [];
      seen := NOTHING;
    }

    method InjectFile(name: string, data: seq<byte>)
      modifies this`out
      ensures out == old(out) + NewChunks(s, name, data)
    {
      var m := Some(Member(name, |data|, s.mode, 2048, 1024, false, false, ""));
      out := out + [Chunk(MemberHeader, m, [])];
      out := out + [Chunk(MemberContents, m, data)];
      out := out + [Chunk(MemberTrailer, m, [])];
    }

    method Header(c: Chunk)
      requires FlagsOk() && c.context == MemberHeader && Receive(Some(seen), c).Some?
      modifies this`skip, this`isAutoConf, this`foundAutoConf, this`member, this`out, this`seen
      ensures FlagsOk() && Some(seen) == Receive(Some(old(seen)), c) && out == old(out) + Sent(s, old(seen), c)
    {
      NamesDiffer();
      var m := c.member.value;
      var data := c.data;
      member := c.member;
      if s.gucs {
        skip := m.pathname == STANDBY_SIGNAL;
        isAutoConf := m.pathname == AUTO_CONF;
        if isAutoConf {
          foundAutoConf := true;
          member := Some(m.(size := m.size + |s.conf|));
          data := [];
        }
      } else {
        skip := m.pathname == RECOVERY_CONF;
        isAutoConf := false;
      }
      seen := Receive(Some(seen), c).value;
      if !skip {
        out := out + [Chunk(MemberHeader, member, data)];
      }
    }

    method Contents(c: Chunk)
      requires FlagsOk() && c.context == MemberContents && Receive(Some(seen), c).Some?
      modifies this`out, this`seen
      ensures FlagsOk() && Some(seen) == Receive(Some(old(seen)), c) && out == old(out) + Sent(s, old(seen), c)
    {
      seen := Receive(Some(seen), c).value;
      if !skip {
        out := out + [Chunk(MemberContents, member, c.data)];
      }
    }

    /** The settings go behind the contents, with the details as they came in. */
    method Trailer(c: Chunk)
      requires FlagsOk() && c.context == MemberTrailer && Receive(Some(seen), c).Some?
      modifies this`out, this`seen
      ensures FlagsOk() && Some(seen) == Receive(Some(old(seen)), c) && out == old(out) + Sent(s, old(seen), c)
    {
      AutoConfOneMore(seen.files, seen.current.value.(padding := c.data));
      seen := Receive(Some(seen), c).value;
      if skip {
        return;
      }
      if isAutoConf {
        out := out + [Chunk(MemberContents, c.member, s.conf)];
      }
      out := out + [Chunk(MemberTrailer, member, c.data)];
    }

    method ArchiveEnd(c: Chunk)
      requires FlagsOk() && c.context == ArchiveTrailer && Receive(Some(seen), c).Some?
      modifies this`out, this`seen
      ensures FlagsOk() && Some(seen) == Receive(Some(old(seen)), c) && out == old(out) + Sent(s, old(seen), c)
    {
      if s.gucs {
        if !foundAutoConf {
          InjectFile(AUTO_CONF, s.conf);
        }
        InjectFile(STANDBY_SIGNAL, []);
      } else {
        InjectFile(RECOVERY_CONF, s.conf);
      }
      seen := Receive(Some(seen), c).value;
      out := out + [Chunk(ArchiveTrailer, member, c.data)];
    }

    /** Handles a chunk that respects the protocol. */
    method Content(c: Chunk)
      requires Valid() && Receive(Some(seen), c).Some?
      modifies this
      ensures Valid() && Some(seen) == Receive(Some(old(seen)), c)
      ensures out == old(out) + Sent(s, old(seen), c)
    {
      SentIsEdited(s, seen, c);
      ReceiveAppend(Some(NOTHING), out, Sent(s, seen, c));
      match c.context {
        case MemberHeader => Header(c);
        case MemberContents => Contents(c);
        case MemberTrailer => Trailer(c);
        case ArchiveTrailer => ArchiveEnd(c);
      }
    }
  }

  lemma {:induction false} AutoConfOneMore(files: seq<File>, f: File)
    ensures HasAutoConf(files + [f]) <==> HasAutoConf(files) || f.member.pathname == AUTO_CONF
  {
    if HasAutoConf(files) {
      var i :| 0 <= i < |files| && files[i].member.pathname == AUTO_CONF;
      assert (files + [f])[i].member.pathname == AUTO_CONF;
    }
    if f.member.pathname == AUTO_CONF {
      assert (files + [f])[|files|].member.pathname == AUTO_CONF;
    }
  }

  /** A whole stream of chunks through the injector. */
  method Inject(s: Settings, cs: seq<Chunk>) returns (out: seq<Chunk>)
    requires ReceiveAll(Some(NOTHING), cs).Some?
    ensures out == Injected(s, cs)
    ensures ReceiveAll(Some(NOTHING), out) == Some(EditArchive(s, ReceiveAll(Some(NOTHING), cs).value))
    ensures SameDetails(Some(NOTHING), out) <==> !BreaksDetails(s, ReceiveAll(Some(NOTHING), cs).value.files)
  {
    var inj := new Injector(s);
    var i := 0;
    while i < |cs|
      invariant 0 <= i <= |cs| && inj.Valid() && inj.s == s && fresh(inj)
      invariant ReceiveAll(Some(NOTHING), cs[..i]) == Some(inj.seen)
      invariant inj.out == Injected(s, cs[..i])
    {
      ReceivedSoFar(Some(NOTHING), cs, i + 1);
      assert cs[..i + 1][..i] == cs[..i];
      inj.Content(cs[i]);
      i := i + 1;
    }
    assert cs[..i] == cs;
    out := inj.out;
    DetailsKeptIff(s, cs);
  }

  lemma {:induction false} ReceivedSoFar(a: Option<Archive>, cs: seq<Chunk>, i: nat)
    requires i <= |cs| && ReceiveAll(a, cs).Some?
    ensures ReceiveAll(a, cs[..i]).Some?
    decreases |cs| - i
  {
    if i < |cs| {
      ReceivedSoFar(a, cs, i + 1);
      assert cs[..i + 1][..i] == cs[..i];
    } else {
      assert cs[..i] == cs;
    }
  }
}
