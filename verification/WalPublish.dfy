/**
 The lock-free publication of a new WAL key, src/access/open_pg_tde_xlog_smgr.c:96-108 and
 431-519, as every interleaving of one writer and any number of readers.

 The writer goes through: key file, published timeline, published LSN, then data under the
 new key.  A reader goes through: data, a fetch if its cache is empty, published LSN,
 published timeline, a fetch if what was published is newer than its cache, decryption.
 Each arrow is one step; the barriers of the program keep the steps in this order.
 */
module WalPublish {
  import opened WalLocations
  import opened WalKeys

  /** The key file before the writer starts, and the position of its first eligible write. */
  datatype Setting = Setting(base: seq<KeyEntry>, loc: WalLocation)

  ghost predicate SettingOk(s: Setting) {
    && s.base != [] && FileOk(s.base)
    && !IsSet(s.base[|s.base| - 1].start)
    && IsSet(s.loc) && Before(s.loc, MAX_LOCATION)
    && UsedBefore(s.base, s.loc)
  }

  datatype WriterAt = Idle | FileWritten | TliWritten | Published

  datatype ReaderAt = Reading | LsnPending | TliPending | FetchPending | Decrypting

  /** `seenOld` and `seenNew` are the positions read so far, by the key their bytes were written under. */
  datatype Reader = Reader(at: ReaderAt, cache: seq<WalRange>, lsn: nat, tli: nat,
                           seenOld: set<WalLocation>, seenNew: set<WalLocation>)

  datatype State = State(
    writer: WriterAt,
    file: seq<KeyEntry>,
    encTli: nat,
    encLsn: nat,
    newBytes: set<WalLocation>,
    readers: map<int, Reader>)

  datatype Action =
    | WriterAdvance
    | WriteNew(at: WalLocation)
    | WriteOld(at: WalLocation)
    | ReadByte(reader: int, at: WalLocation)
    | ReaderAdvance(reader: int)
    | ReaderRestart(reader: int)

  /** When the program can take the action. */
  predicate Enabled(s: Setting, st: State, a: Action) {
    match a
    case WriterAdvance => st.writer != Published
    case WriteNew(l) => st.writer == Published && !Before(l, s.loc)
    case WriteOld(l) => st.writer == Idle || (st.writer == Published && Before(l, s.loc))
    case ReadByte(r, _) => r in st.readers && st.readers[r].at == Reading
    case ReaderAdvance(r) => r in st.readers && st.readers[r].at != Decrypting
    case ReaderRestart(r) => r in st.readers && st.readers[r].at == Decrypting
  }

  function Next(s: Setting, st: State, a: Action): State
    requires s.base != []
    requires Enabled(s, st, a)
  {
    match a
    case WriterAdvance =>
      (match st.writer
       case Idle => st.(writer := FileWritten, file := SetLastLocation(s.base, s.loc))
       case FileWritten => st.(writer := TliWritten, encTli := s.loc.tli)
       case TliWritten => st.(writer := Published, encLsn := s.loc.lsn)
       case Published => st)
    case WriteNew(l) => st.(newBytes := st.newBytes + {l})
    case WriteOld(l) => st.(newBytes := st.newBytes - {l})
    case ReadByte(r, l) =>
      var rd := st.readers[r];
      var seen := if l in st.newBytes then rd.(seenNew := rd.seenNew + {l}) else rd.(seenOld := rd.seenOld + {l});
      st.(readers := st.readers[r := seen])
    case ReaderAdvance(r) => st.(readers := st.readers[r := Advance(st, st.readers[r])])
    case ReaderRestart(r) => st.(readers := st.readers[r := st.readers[r].(at := Reading, seenOld := {}, seenNew := {})])
  }

  function Advance(st: State, rd: Reader): Reader {
    match rd.at
    case Reading => rd.(at := LsnPending, cache := if rd.cache == [] then Fetch([], st.file, FIRST) else rd.cache)
    case LsnPending => rd.(at := TliPending, lsn := st.encLsn)
    case TliPending => rd.(at := FetchPending, tli := if rd.lsn != 0 then st.encTli else rd.tli)
    case FetchPending =>
      var last := |rd.cache| - 1;
      if rd.lsn != 0 && rd.cache != [] && Before(rd.cache[last].start, WalLocation(rd.tli, rd.lsn))
      then rd.(at := Decrypting, cache := Fetch(rd.cache, st.file, WalLocation(rd.tli, rd.lsn)))
      else rd.(at := Decrypting)
    case Decrypting => rd
  }

  function OldChain(s: Setting): seq<WalRange> {
    Chain(s.base)
  }

  function NewChain(s: Setting): seq<WalRange>
    requires s.base != []
  {
    Chain(SetLastLocation(s.base, s.loc))
  }

  // ----- Invariant

  ghost predicate WriterOk(s: Setting, st: State)
    requires s.base != []
  {
    && st.file == (if st.writer == Idle then s.base else SetLastLocation(s.base, s.loc))
    && (st.writer == TliWritten || st.writer == Published ==> st.encTli == s.loc.tli)
    && st.encLsn == (if st.writer == Published then s.loc.lsn else 0)
    && (st.newBytes != {} ==> st.writer == Published)
    && (forall l :: l in st.newBytes ==> !Before(l, s.loc))
  }

  ghost predicate ReaderOk(s: Setting, st: State, rd: Reader)
    requires s.base != []
  {
    && (rd.cache == [] || rd.cache == OldChain(s) || rd.cache == NewChain(s))
    && (forall l :: l in rd.seenNew ==> !Before(l, s.loc))
    && (rd.seenNew != {} ==> st.writer == Published)
    && (rd.at != Reading ==> rd.cache == OldChain(s) || rd.cache == NewChain(s))
    && (rd.at != Reading && rd.seenNew != {} ==> rd.cache != [])
    && (rd.at == TliPending || rd.at == FetchPending || rd.at == Decrypting ==>
          && (rd.lsn != 0 ==> st.writer == Published && rd.lsn == s.loc.lsn)
          && (rd.seenNew != {} ==> rd.lsn == s.loc.lsn))
    && (rd.at == FetchPending || rd.at == Decrypting ==> (rd.lsn != 0 ==> rd.tli == s.loc.tli))
    && (rd.at == Decrypting && rd.seenNew != {} ==> rd.cache == NewChain(s))
  }

  ghost predicate Inv(s: Setting, st: State)
    requires s.base != []
  {
    WriterOk(s, st) && forall r :: r in st.readers ==> ReaderOk(s, st, st.readers[r])
  }

  /** The new chain is never empty, and fetching from the published start turns the old one into it. */
  lemma {:induction false} Chains(s: Setting)
    requires SettingOk(s)
    ensures NewChain(s) != []
    ensures NewChain(s)[|NewChain(s)| - 1].start == s.loc
    ensures OldChain(s) != [] ==> Before(OldChain(s)[|OldChain(s)| - 1].start, s.loc)
    ensures Fetch(OldChain(s), SetLastLocation(s.base, s.loc), s.loc) == NewChain(s)
  {
    IncrementalFetch(s.base, s.loc);
    SetLastLocationIsLocal(s.base, s.loc);
    var f := SetLastLocation(s.base, s.loc);
    assert Used(f[|f| - 1]);
    LinkUsedIsSound(s.base);
    if OldChain(s) != [] {
      assert IsLatestStart(s.base, OldChain(s)[|OldChain(s)| - 1].start);
    }
  }

  lemma {:induction false} AdvanceKeepsReader(s: Setting, st: State, rd: Reader)
    requires SettingOk(s) && WriterOk(s, st) && ReaderOk(s, st, rd)
    ensures ReaderOk(s, st, Advance(st, rd))
  {
    Chains(s);
  }

  lemma {:induction false} StepKeepsInv(s: Setting, st: State, a: Action)
    requires SettingOk(s) && Inv(s, st) && Enabled(s, st, a)
    ensures Inv(s, Next(s, st, a))
  {
    var st' := Next(s, st, a);
    if a.ReaderAdvance? {
      AdvanceKeepsReader(s, st, st.readers[a.reader]);
    }
    forall r | r in st'.readers
      ensures ReaderOk(s, st', st'.readers[r])
    {
      assert ReaderOk(s, st, st.readers[r]);
    }
  }

  /** Nothing published, no data under the new key; readers start with an empty or an old cache. */
  ghost predicate Init(s: Setting, st: State) {
    && st.writer == Idle && st.file == s.base && st.encTli == 0 && st.encLsn == 0 && st.newBytes == {}
    && forall r :: r in st.readers ==>
         && st.readers[r].at == Reading && st.readers[r].seenOld == {} && st.readers[r].seenNew == {}
         && (st.readers[r].cache == [] || st.readers[r].cache == OldChain(s))
  }

  ghost predicate Run(s: Setting, states: seq<State>, actions: seq<Action>)
    requires s.base != []
  {
    && |states| == |actions| + 1
    && Init(s, states[0])
    && forall i :: 0 <= i < |actions| ==> Enabled(s, states[i], actions[i]) && states[i + 1] == Next(s, states[i], actions[i])
  }

  lemma {:induction false} RunKeepsInv(s: Setting, states: seq<State>, actions: seq<Action>, n: nat)
    requires SettingOk(s) && Run(s, states, actions) && n <= |actions|
    ensures Inv(s, states[n])
    decreases n
  {
    if n > 0 {
      RunKeepsInv(s, states, actions, n - 1);
      StepKeepsInv(s, states[n - 1], actions[n - 1]);
    }
  }

  /**
   In every interleaving, a reader about to decrypt has the new key for every byte it saw
   that was written under it, and the old keys for every earlier position.
   */
  lemma {:induction false} ReadersHaveTheKey(s: Setting, states: seq<State>, actions: seq<Action>, n: nat, r: int)
    requires SettingOk(s) && Run(s, states, actions) && n <= |actions|
    requires r in states[n].readers && states[n].readers[r].at == Decrypting
    ensures var rd := states[n].readers[r]; var newest := s.base[|s.base| - 1];
            && (forall l :: l in rd.seenNew && Before(l, MAX_LOCATION) ==> KeyAt(rd.cache, l) == EncryptionKey(newest.rangeType, newest.key))
            && (forall l :: l in rd.seenOld && Before(l, s.loc) ==> KeyAt(rd.cache, l) == GoverningKey(s.base, l))
  {
    RunKeepsInv(s, states, actions, n);
    var rd := states[n].readers[r];
    assert ReaderOk(s, states[n], rd);
    var f := SetLastLocation(s.base, s.loc);
    SetLastLocationIsLocal(s.base, s.loc);
    ChainIsSound(s.base);
    ChainIsSound(f);
    forall l | Before(l, MAX_LOCATION)
      ensures GoverningKey(f, l) == if Before(l, s.loc) then GoverningKey(s.base, l)
                                    else EncryptionKey(s.base[|s.base| - 1].rangeType, s.base[|s.base| - 1].key)
    {
      GoverningAfterFix(s.base, s.loc, l);
    }
  }

  /** In every interleaving, a published LSN is only ever paired with its own timeline. */
  lemma {:induction false} NoStaleTimeline(s: Setting, states: seq<State>, actions: seq<Action>, n: nat, r: int)
    requires SettingOk(s) && Run(s, states, actions) && n <= |actions|
    requires r in states[n].readers
    requires states[n].readers[r].at == FetchPending || states[n].readers[r].at == Decrypting
    requires states[n].readers[r].lsn != 0
    ensures WalLocation(states[n].readers[r].tli, states[n].readers[r].lsn) == s.loc
  {
    RunKeepsInv(s, states, actions, n);
    assert ReaderOk(s, states[n], states[n].readers[r]);
  }
}

/** Where the publication protocol starts from: any world that a run of servers reaches. */
module WalPublishedRuns {
  import opened StreamCipher
  import opened WalLocations
  import opened WalKeys
  import opened WalCrypt
  import WalRuns
  import WalPublish

  /** Every process of the world as a reader, before the writer's first step. */
  function Begin(w: WalRuns.World): WalPublish.State {
    WalPublish.State(WalPublish.Idle, w.file, w.published.tli, w.published.lsn, {},
                     map pid | pid in w.caches :: WalPublish.Reader(WalPublish.Reading, w.caches[pid], 0, 0, {}, {}))
  }

  /** Whenever a write in a run fixes a start, what it publishes goes through the protocol from its initial state. */
  lemma {:induction false} PublicationIsReachable(aes: BlockCipher, segSize: SegSize, worlds: seq<WalRuns.World>,
                                                  events: seq<WalRuns.Event>, n: nat,
                                                  pid: WalRuns.Pid, loc: WalLocation, count: nat, crashRecovery: bool)
    requires WalRuns.Run(aes, segSize, worlds, events) && n <= |events| && pid in worlds[n].caches
    requires WalRuns.WriteOk(loc, count) && worlds[n].file != []
    requires WalRuns.FixesStart(WalRuns.KeysOf(worlds[n], worlds[n].caches[pid]), loc, crashRecovery)
    ensures var s := WalPublish.Setting(worlds[n].file, loc);
      && WalPublish.SettingOk(s)
      && WalPublish.Init(s, Begin(worlds[n]))
      && WalRuns.AfterWrite(WalRuns.KeysOf(worlds[n], worlds[n].caches[pid]), loc, crashRecovery).file == SetLastLocation(s.base, loc)
  {
    var w := worlds[n];
    WalRuns.RunKeepsInv(aes, segSize, worlds, events, n);
    var k := WalRuns.KeysOf(w, w.caches[pid]);
    assert WalRuns.KeysOk(k);
    WalRuns.FixKeepsFile(k, loc, crashRecovery);
    assert w.published == UNSET;
    forall r | r in w.caches ensures w.caches[r] == Chain(w.file) {
      assert WalRuns.CacheOk(WalRuns.KeysOf(w, w.caches[r]));
    }
  }
}
