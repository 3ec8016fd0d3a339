/**
 The encrypted WAL over any number of server runs, src/access/open_pg_tde_xlog_smgr.c:235-477.

 A `World` is everything that survives a step: the key file, the shared published start of
 the newest key, the current range, each process's range cache and the bytes on disk.  The
 field `live` is history: the plaintext last written at a position, as long as no key start
 fixed later has cut the WAL off at or before it.
 */
module WalRuns {
  import opened Bytes
  import opened StreamCipher
  import opened WalLocations
  import opened WalKeys
  import opened WalCrypt

  const NO_RANGE := WalRange(Invalid, NO_KEY, UNSET, MAX_LOCATION)

  // ----- Keys as one process sees them

  /** The key file, the current range, the published start of the newest key, and the process's cache. */
  datatype KeyState = KeyState(file: seq<KeyEntry>, current: WalRange, published: WalLocation, cache: seq<WalRange>)

  /** The cache a process decrypts with: built if empty, extended if a newer start was published. */
  function Refresh(k: KeyState): seq<WalRange> {
    var c := if k.cache == [] then Fetch([], k.file, FIRST) else k.cache;
    if k.published.lsn != 0 && c != [] && Before(c[|c| - 1].start, k.published) then Fetch(c, k.file, k.published) else c
  }

  /** The first eligible write fixes the start of the newest key. */
  predicate FixesStart(k: KeyState, loc: WalLocation, crashRecovery: bool) {
    && k.current.rangeType != Invalid
    && k.published.lsn == 0
    && !Before(loc, k.published)
    && !crashRecovery
    && (k.cache == [] || Before(k.cache[|k.cache| - 1].start, loc))
  }

  function EnsureLocation(k: KeyState, loc: WalLocation, crashRecovery: bool): KeyState {
    if k.file != [] && FixesStart(k, loc, crashRecovery)
    then k.(file := SetLastLocation(k.file, loc), current := k.current.(start := loc), published := loc)
    else k
  }

  predicate UsesOldKeys(k: KeyState, loc: WalLocation) {
    && (k.published.lsn == 0 || Before(loc, k.published))
    && k.current.rangeType != Invalid
  }

  /** The key state after a write at `loc`; only the path that uses older keys touches the cache. */
  function AfterWrite(k: KeyState, loc: WalLocation, crashRecovery: bool): KeyState {
    var f := EnsureLocation(k, loc, crashRecovery);
    if UsesOldKeys(f, loc) then f.(cache := Refresh(f)) else f
  }

  /** The key under which a write at `loc` stores the byte at `l`, given the key state it leaves. */
  function WriteKey(k: KeyState, loc: WalLocation, l: WalLocation): Option<WalKey> {
    if UsesOldKeys(k, loc) then KeyAt(k.cache, l) else EncryptionKey(k.current.rangeType, k.current.key)
  }

  /** What a start-up does to the key file, the current range and the published start. */
  function StartFile(file: seq<KeyEntry>, encrypt: bool, key: WalKey): seq<KeyEntry> {
    if encrypt then file + [KeyEntry(Encrypted, UNSET, key)]
    else if file != [] && file[|file| - 1].rangeType == Encrypted then file + [KeyEntry(Unencrypted, UNSET, key)]
    else file
  }

  function AfterStart(file: seq<KeyEntry>, current: WalRange, encrypt: bool, key: WalKey): KeyState {
    var f := StartFile(file, encrypt, key);
    KeyState(f,
             if f == [] then current else RangeOf(f[|f| - 1]),
             if f == file && file != [] then file[|file| - 1].start else UNSET,
             Fetch([], f, FIRST))
  }

  /** A child that runs the start-up code for itself adopts the newest entry and creates nothing. */
  function AfterExec(k: KeyState): KeyState {
    k.(current := if k.file == [] then k.current else RangeOf(k.file[|k.file| - 1]), cache := Fetch([], k.file, FIRST))
  }

  /** The file as it was before the newest key's start was fixed. */
  function Unfixed(file: seq<KeyEntry>): seq<KeyEntry>
    requires file != []
  {
    file[|file| - 1 := file[|file| - 1].(start := UNSET)]
  }

  /** The current range is the newest entry and its start is what is published. */
  ghost predicate CurrentOk(k: KeyState) {
    if k.file == [] then k.current.rangeType == Invalid && k.published == UNSET
    else
      var last := k.file[|k.file| - 1];
      k.current.rangeType == last.rangeType && k.current.key == last.key && k.published == last.start
  }

  /** The cache is the full chain, or the chain from before the start that this run fixed. */
  ghost predicate CacheOk(k: KeyState) {
    || k.cache == Chain(k.file)
    || (k.file != [] && IsSet(k.published) && k.cache == Chain(Unfixed(k.file)))
  }

  ghost predicate KeysOk(k: KeyState) {
    FileOk(k.file) && CurrentOk(k) && CacheOk(k)
  }

  lemma {:induction false} UnfixedIsOk(file: seq<KeyEntry>)
    requires file != [] && FileOk(file) && IsSet(file[|file| - 1].start)
    ensures var u := Unfixed(file); var loc := file[|file| - 1].start;
            && FileOk(u) && UsedBefore(u, loc) && SetLastLocation(u, loc) == file
  {
    var u, loc := Unfixed(file), file[|file| - 1].start;
    assert Used(file[|file| - 1]);
    SetLastLocationIsLocal(u, loc);
    assert SetLastLocation(u, loc) == file;
  }

  lemma {:induction false} CacheTiles(k: KeyState)
    requires KeysOk(k)
    ensures Tiles(k.cache)
  {
    ChainIsSound(k.file);
    if k.cache != Chain(k.file) {
      UnfixedIsOk(k.file);
      ChainIsSound(Unfixed(k.file));
    }
  }

  lemma {:induction false} RefreshGivesChain(k: KeyState)
    requires KeysOk(k)
    ensures Refresh(k) == Chain(k.file)
  {
    if k.file != [] && IsSet(k.published) {
      UnfixedIsOk(k.file);
      IncrementalFetch(Unfixed(k.file), k.published);
      ChainEndsAtPublished(k);
    }
  }

  /** Whatever cache a process holds, refreshing it gives the full chain. */
  lemma {:induction false} RefreshIsChain(k: KeyState)
    requires KeysOk(k)
    ensures Refresh(k) == Chain(k.file)
    ensures Tiles(Chain(k.file)) && Tiles(k.cache) && InOrder(Chain(k.file))
    ensures forall l :: Before(l, MAX_LOCATION) ==> KeyAt(Chain(k.file), l) == GoverningKey(k.file, l)
  {
    RefreshGivesChain(k);
    CacheTiles(k);
    ChainIsSound(k.file);
    TilesInOrder(Chain(k.file));
  }

  lemma {:induction false} ChainEndsAtPublished(k: KeyState)
    requires k.file != [] && FileOk(k.file) && CurrentOk(k) && IsSet(k.published)
    ensures var c := Chain(k.file); c != [] && c[|c| - 1].start == k.published
    ensures var u := Chain(Unfixed(k.file)); u != [] ==> Before(u[|u| - 1].start, k.published)
  {
    UnfixedIsOk(k.file);
    LinkUsedIsSound(Unfixed(k.file));
    var u := Chain(Unfixed(k.file));
    if u != [] {
      assert IsLatestStart(Unfixed(k.file), u[|u| - 1].start);
    }
    assert Used(k.file[|k.file| - 1]);
  }

  /** A write that fixes the start: the file stays in order and no other entry changes. */
  lemma {:induction false} FixKeepsFile(k: KeyState, loc: WalLocation, crashRecovery: bool)
    requires KeysOk(k) && IsSet(loc) && Before(loc, MAX_LOCATION)
    requires k.file != [] && FixesStart(k, loc, crashRecovery)
    ensures !IsSet(k.file[|k.file| - 1].start) && UsedBefore(k.file, loc)
    ensures FileOk(SetLastLocation(k.file, loc))
    ensures Unfixed(SetLastLocation(k.file, loc)) == k.file
    ensures var f := SetLastLocation(k.file, loc);
            f[|f| - 1] == k.file[|k.file| - 1].(start := loc) && f[..|f| - 1] == k.file[..|k.file| - 1]
  {
    ChainIsSound(k.file);
    SetLastLocationIsLocal(k.file, loc);
    var f := SetLastLocation(k.file, loc);
    assert Unfixed(f) == k.file;
  }

  /** A write keeps the key state in order, and every other process's cache stays good. */
  lemma {:induction false} WriteKeepsKeys(k: KeyState, loc: WalLocation, crashRecovery: bool)
    requires KeysOk(k) && IsSet(loc) && Before(loc, MAX_LOCATION)
    ensures KeysOk(EnsureLocation(k, loc, crashRecovery))
    ensures KeysOk(AfterWrite(k, loc, crashRecovery))
    ensures forall cache :: CacheOk(k.(cache := cache)) ==> CacheOk(AfterWrite(k, loc, crashRecovery).(cache := cache))
  {
    if k.file != [] && FixesStart(k, loc, crashRecovery) {
      FixKeepsFile(k, loc, crashRecovery);
    }
    RefreshIsChain(EnsureLocation(k, loc, crashRecovery));
  }

  /** Each byte of a write is stored under the key that governs its position afterwards. */
  lemma {:induction false} WriteUsesGoverningKey(k: KeyState, loc: WalLocation, crashRecovery: bool, l: WalLocation)
    requires KeysOk(k) && IsSet(loc) && Before(loc, MAX_LOCATION)
    requires !Before(l, loc) && Before(l, MAX_LOCATION)
    ensures var k' := AfterWrite(k, loc, crashRecovery); WriteKey(k', loc, l) == GoverningKey(k'.file, l)
  {
    WriteKeepsKeys(k, loc, crashRecovery);
    var f := EnsureLocation(k, loc, crashRecovery);
    RefreshIsChain(f);
    if f.file != [] && !UsesOldKeys(f, loc) {
      assert Used(f.file[|f.file| - 1]);
    }
  }

  /** A write changes the key of no earlier position, and of none at all unless it fixes a start. */
  lemma {:induction false} WriteKeepsGoverning(k: KeyState, loc: WalLocation, crashRecovery: bool, l: WalLocation)
    requires KeysOk(k) && IsSet(loc) && Before(loc, MAX_LOCATION)
    requires Before(l, loc) || !FixesStart(k, loc, crashRecovery) || k.file == []
    ensures GoverningKey(AfterWrite(k, loc, crashRecovery).file, l) == GoverningKey(k.file, l)
  {
    if k.file != [] && FixesStart(k, loc, crashRecovery) {
      FixKeepsFile(k, loc, crashRecovery);
      GoverningAfterFix(k.file, loc, l);
    }
  }

  /** A start-up appends at most one fresh entry, which governs nothing yet. */
  lemma {:induction false} StartKeepsKeys(file: seq<KeyEntry>, current: WalRange, encrypt: bool, key: WalKey)
    requires FileOk(file)
    requires file == [] ==> current.rangeType == Invalid
    ensures KeysOk(AfterStart(file, current, encrypt, key))
    ensures forall l :: GoverningKey(StartFile(file, encrypt, key), l) == GoverningKey(file, l)
  {
    forall l
      ensures GoverningKey(StartFile(file, encrypt, key), l) == GoverningKey(file, l)
    {
      GoverningAfterCreate(file, KeyEntry(Encrypted, UNSET, key), l);
      GoverningAfterCreate(file, KeyEntry(Unencrypted, UNSET, key), l);
    }
  }

  // ----- The whole system

  type Disk = WalLocation -> byte

  type Pid = int

  const POSTMASTER: Pid := 0

  datatype World = World(
    file: seq<KeyEntry>,
    current: WalRange,
    published: WalLocation,
    caches: map<Pid, seq<WalRange>>,
    disk: Disk,
    live: WalLocation -> Option<byte>)

  function KeysOf(w: World, cache: seq<WalRange>): KeyState {
    KeyState(w.file, w.current, w.published, cache)
  }

  datatype Event =
    | Start(soft: bool, encrypt: bool, key: WalKey)
    | Fork(pid: Pid)
    | Exec(pid: Pid)
    | Write(pid: Pid, loc: WalLocation, data: seq<byte>, crashRecovery: bool)
    | Read(pid: Pid)

  /**
   WAL positions are never zero and never reach the end of the address space.  A write of no or
   of fewer bytes than were meant is one that a crash cut off, with its start fixed or not.
   */
  predicate WriteOk(loc: WalLocation, n: nat) {
    && IsSet(loc)
    && loc.tli <= MAX_TLI
    && loc.lsn < MAX_LSN && loc.lsn + n <= MAX_LSN
  }

  predicate EventOk(w: World, e: Event) {
    match e
    case Start(_, _, _) => true
    case Fork(_) => POSTMASTER in w.caches
    case Exec(_) => true
    case Write(pid, loc, data, _) => pid in w.caches && WriteOk(loc, |data|)
    case Read(pid) => pid in w.caches
  }

  predicate InSpan(l: WalLocation, loc: WalLocation, n: nat) {
    l.tli == loc.tli && loc.lsn <= l.lsn < loc.lsn + n
  }

  function Step(aes: BlockCipher, segSize: SegSize, w: World, e: Event): World
    requires EventOk(w, e)
  {
    match e
    case Start(soft, encrypt, key) =>
      var k := AfterStart(w.file, if soft then w.current else NO_RANGE, encrypt, key);
      World(k.file, k.current, k.published, map[POSTMASTER := k.cache], w.disk, w.live)
    case Fork(pid) =>
      w.(caches := w.caches[pid := w.caches[POSTMASTER]])
    case Exec(pid) =>
      var k := AfterExec(KeysOf(w, []));
      w.(current := k.current, caches := w.caches[pid := k.cache])
    case Write(pid, loc, data, crashRecovery) =>
      StepWrite(aes, segSize, w, pid, loc, data, crashRecovery)
    case Read(pid) =>
      w.(caches := w.caches[pid := Refresh(KeysOf(w, w.caches[pid]))])
  }

  function StepWrite(aes: BlockCipher, segSize: SegSize, w: World, pid: Pid, loc: WalLocation, data: seq<byte>, crashRecovery: bool): World
    requires pid in w.caches
  {
    var k := AfterWrite(KeysOf(w, w.caches[pid]), loc, crashRecovery);
    World(k.file, k.current, k.published, w.caches[pid := k.cache],
          l => if InSpan(l, loc, |data|)
               then CryptByte(aes, segSize, WriteKey(k, loc, l), l, data[l.lsn - loc.lsn])
               else w.disk(l),
          l => if InSpan(l, loc, |data|) then Some(data[l.lsn - loc.lsn])
               else if k.file != w.file && !Before(l, loc) then None
               else w.live(l))
  }

  /** What process `pid` sees at a position: the stored byte under the key its refreshed cache gives. */
  function ReadByte(aes: BlockCipher, segSize: SegSize, k: KeyState, disk: Disk, l: WalLocation): byte {
    CryptByte(aes, segSize, KeyAt(Refresh(k), l), l, disk(l))
  }

  // ----- The invariant

  ghost predicate DiskOk(aes: BlockCipher, segSize: SegSize, w: World) {
    forall l :: w.live(l).Some? ==>
      Before(l, MAX_LOCATION) && w.disk(l) == CryptByte(aes, segSize, GoverningKey(w.file, l), l, w.live(l).value)
  }

  ghost predicate Inv(aes: BlockCipher, segSize: SegSize, w: World) {
    && FileOk(w.file)
    && CurrentOk(KeysOf(w, []))
    && (forall pid :: pid in w.caches ==> CacheOk(KeysOf(w, w.caches[pid])))
    && DiskOk(aes, segSize, w)
  }

  function Initial(disk: Disk): World {
    World([], NO_RANGE, UNSET, map[], disk, _ => None)
  }

  lemma {:induction false} WriteKeepsByte(aes: BlockCipher, segSize: SegSize, w: World, pid: Pid, loc: WalLocation, data: seq<byte>,
                                          crashRecovery: bool,
                                          l: WalLocation)
    requires Inv(aes, segSize, w) && pid in w.caches && WriteOk(loc, |data|)
    requires StepWrite(aes, segSize, w, pid, loc, data, crashRecovery).live(l).Some?
    ensures var w' := StepWrite(aes, segSize, w, pid, loc, data, crashRecovery);
            && Before(l, MAX_LOCATION)
            && w'.disk(l) == CryptByte(aes, segSize, GoverningKey(w'.file, l), l, w'.live(l).value)
  {
    var k := KeysOf(w, w.caches[pid]);
    if InSpan(l, loc, |data|) {
      WriteUsesGoverningKey(k, loc, crashRecovery, l);
    } else {
      if k.file != [] && FixesStart(k, loc, crashRecovery) {
        FixKeepsFile(k, loc, crashRecovery);
      }
      WriteKeepsGoverning(k, loc, crashRecovery, l);
    }
  }

  lemma {:induction false} WriteKeepsInv(aes: BlockCipher, segSize: SegSize, w: World, pid: Pid, loc: WalLocation, data: seq<byte>,
                                         crashRecovery: bool)
    requires Inv(aes, segSize, w) && pid in w.caches && WriteOk(loc, |data|)
    ensures Inv(aes, segSize, StepWrite(aes, segSize, w, pid, loc, data, crashRecovery))
  {
    var w' := StepWrite(aes, segSize, w, pid, loc, data, crashRecovery);
    var k := KeysOf(w, w.caches[pid]);
    WriteKeepsKeys(k, loc, crashRecovery);
    var k' := AfterWrite(k, loc, crashRecovery);
    forall p | p in w'.caches
      ensures CacheOk(KeysOf(w', w'.caches[p]))
    {
      if p == pid {
        assert KeysOf(w', w'.caches[p]) == k';
      } else {
        assert CacheOk(k.(cache := w.caches[p]));
        assert KeysOf(w', w'.caches[p]) == k'.(cache := w.caches[p]);
      }
    }
    assert DiskOk(aes, segSize, w') by {
      forall l | w'.live(l).Some?
        ensures Before(l, MAX_LOCATION)
        ensures w'.disk(l) == CryptByte(aes, segSize, GoverningKey(w'.file, l), l, w'.live(l).value)
      {
        WriteKeepsByte(aes, segSize, w, pid, loc, data, crashRecovery, l);
      }
    }
  }

  lemma {:induction false} SameBytes(aes: BlockCipher, segSize: SegSize, w: World, w': World)
    requires DiskOk(aes, segSize, w) && w'.disk == w.disk && w'.live == w.live
    requires forall l :: GoverningKey(w'.file, l) == GoverningKey(w.file, l)
    ensures DiskOk(aes, segSize, w')
  {
  }

  /** A fresh set of processes that all start from one key state. */
  lemma {:induction false} FreshCaches(aes: BlockCipher, segSize: SegSize, w: World, k: KeyState)
    requires KeysOk(k) && DiskOk(aes, segSize, w)
    requires KeysOf(w, k.cache) == k && w.caches == map[POSTMASTER := k.cache]
    ensures Inv(aes, segSize, w)
  {
  }

  lemma {:induction false} StartKeepsInv(aes: BlockCipher, segSize: SegSize, w: World, soft: bool, encrypt: bool, key: WalKey)
    requires Inv(aes, segSize, w)
    ensures Inv(aes, segSize, Step(aes, segSize, w, Start(soft, encrypt, key)))
  {
    var current := if soft then w.current else NO_RANGE;
    StartKeepsKeys(w.file, current, encrypt, key);
    var w' := Step(aes, segSize, w, Start(soft, encrypt, key));
    SameBytes(aes, segSize, w, w');
    FreshCaches(aes, segSize, w', AfterStart(w.file, current, encrypt, key));
  }

  lemma {:induction false} ExecKeepsInv(aes: BlockCipher, segSize: SegSize, w: World, pid: Pid)
    requires Inv(aes, segSize, w)
    ensures Inv(aes, segSize, Step(aes, segSize, w, Exec(pid)))
  {
    var w' := Step(aes, segSize, w, Exec(pid));
    forall p | p in w'.caches ensures CacheOk(KeysOf(w', w'.caches[p])) {
      assert p != pid ==> CacheOk(KeysOf(w, w.caches[p]));
    }
  }

  lemma {:induction false} StepKeepsInv(aes: BlockCipher, segSize: SegSize, w: World, e: Event)
    requires Inv(aes, segSize, w) && EventOk(w, e)
    ensures Inv(aes, segSize, Step(aes, segSize, w, e))
  {
    match e
    case Start(soft, encrypt, key) =>
      StartKeepsInv(aes, segSize, w, soft, encrypt, key);
    case Fork(pid) =>
    case Exec(pid) => ExecKeepsInv(aes, segSize, w, pid);
    case Write(pid, loc, data, crashRecovery) =>
      WriteKeepsInv(aes, segSize, w, pid, loc, data, crashRecovery);
    case Read(pid) =>
      RefreshIsChain(KeysOf(w, w.caches[pid]));
  }

  // ----- Whole runs

  /** `worlds` is what a sequence of events passes through, from a cluster without keys. */
  ghost predicate Run(aes: BlockCipher, segSize: SegSize, worlds: seq<World>, events: seq<Event>) {
    && |worlds| == |events| + 1
    && worlds[0] == Initial(worlds[0].disk)
    && forall i :: 0 <= i < |events| ==> EventOk(worlds[i], events[i]) && worlds[i + 1] == Step(aes, segSize, worlds[i], events[i])
  }

  lemma {:induction false} RunKeepsInv(aes: BlockCipher, segSize: SegSize, worlds: seq<World>, events: seq<Event>, n: nat)
    requires Run(aes, segSize, worlds, events)
    requires n <= |events|
    ensures Inv(aes, segSize, worlds[n])
    decreases n
  {
    if n > 0 {
      RunKeepsInv(aes, segSize, worlds, events, n - 1);
      StepKeepsInv(aes, segSize, worlds[n - 1], events[n - 1]);
    }
  }

  /**
   Over any number of start-ups, forks, reads and writes, by any process, any process reads
   at each live position the plaintext last written there.
   */
  lemma {:induction false} ReadsReturnLastWritten(aes: BlockCipher, segSize: SegSize, worlds: seq<World>, events: seq<Event>, n: nat,
                                                  pid: Pid, l: WalLocation)
    requires Run(aes, segSize, worlds, events)
    requires n <= |events| && pid in worlds[n].caches
    requires worlds[n].live(l).Some?
    ensures ReadByte(aes, segSize, KeysOf(worlds[n], worlds[n].caches[pid]), worlds[n].disk, l) == worlds[n].live(l).value
  {
    RunKeepsInv(aes, segSize, worlds, events, n);
    var w := worlds[n];
    RefreshIsChain(KeysOf(w, w.caches[pid]));
    CryptByteInvolutive(aes, segSize, GoverningKey(w.file, l), l, w.live(l).value);
  }

  /**
   In every run the used key starts increase in file order, every cache tiles the WAL, and the
   incremental refresh of any process's cache equals a full rebuild.
   */
  lemma {:induction false} KeyFileStaysOrdered(aes: BlockCipher, segSize: SegSize, worlds: seq<World>, events: seq<Event>, n: nat, pid: Pid)
    requires Run(aes, segSize, worlds, events)
    requires n <= |events| && pid in worlds[n].caches
    ensures StartsIncrease(worlds[n].file)
    ensures Tiles(worlds[n].caches[pid])
    ensures Refresh(KeysOf(worlds[n], worlds[n].caches[pid])) == Chain(worlds[n].file)
  {
    RunKeepsInv(aes, segSize, worlds, events, n);
    RefreshIsChain(KeysOf(worlds[n], worlds[n].caches[pid]));
  }

  ghost predicate NoneInvalid(file: seq<KeyEntry>) {
    forall i :: 0 <= i < |file| ==> file[i].rangeType != Invalid
  }

  lemma {:induction false} WriteInvalidatesNothing(k: KeyState, loc: WalLocation, crashRecovery: bool)
    requires KeysOk(k) && IsSet(loc) && Before(loc, MAX_LOCATION) && NoneInvalid(k.file)
    ensures NoneInvalid(AfterWrite(k, loc, crashRecovery).file)
  {
    if k.file != [] && FixesStart(k, loc, crashRecovery) {
      FixKeepsFile(k, loc, crashRecovery);
      var f := SetLastLocation(k.file, loc);
      assert forall i :: 0 <= i < |f| - 1 ==> f[i] == f[..|f| - 1][i] == k.file[i];
    }
  }

  lemma {:induction false} StepInvalidatesNothing(aes: BlockCipher, segSize: SegSize, w: World, e: Event)
    requires Inv(aes, segSize, w) && EventOk(w, e) && NoneInvalid(w.file)
    ensures NoneInvalid(Step(aes, segSize, w, e).file)
  {
    if e.Write? {
      WriteInvalidatesNothing(KeysOf(w, w.caches[e.pid]), e.loc, e.crashRecovery);
    }
  }

  /** As long as every writer's cache comes from its own start-up, no entry is ever invalidated. */
  lemma {:induction false} NoKeyIsInvalidated(aes: BlockCipher, segSize: SegSize, worlds: seq<World>, events: seq<Event>, n: nat)
    requires Run(aes, segSize, worlds, events)
    requires n <= |events|
    ensures NoneInvalid(worlds[n].file)
    decreases n
  {
    if n > 0 {
      NoKeyIsInvalidated(aes, segSize, worlds, events, n - 1);
      RunKeepsInv(aes, segSize, worlds, events, n - 1);
      StepInvalidatesNothing(aes, segSize, worlds[n - 1], events[n - 1]);
    }
  }

  /**
   A live byte outside the span of a write is lost exactly when the write fixes a start at or
   before it; in particular a write at or after everything live loses nothing.
   */
  lemma {:induction false} WritesLoseOnlyPastTheStart(aes: BlockCipher, segSize: SegSize, w: World, pid: Pid, loc: WalLocation, data: seq<byte>,
                                                      crashRecovery: bool, l: WalLocation)
    requires Inv(aes, segSize, w) && pid in w.caches && WriteOk(loc, |data|)
    requires !InSpan(l, loc, |data|) && w.live(l).Some?
    ensures StepWrite(aes, segSize, w, pid, loc, data, crashRecovery).live(l) != w.live(l)
            <==> w.file != [] && FixesStart(KeysOf(w, w.caches[pid]), loc, crashRecovery) && !Before(l, loc)
  {
    var k := KeysOf(w, w.caches[pid]);
    if w.file != [] && FixesStart(k, loc, crashRecovery) {
      FixKeepsFile(k, loc, crashRecovery);
    }
  }

  /**
   What any process reads afterwards at a position that was cut off: the byte under the masks of its
   old and of the newest key, so that it survives exactly when the two masks agree there.
   */
  lemma {:induction false} CutOffReadsMixed(aes: BlockCipher, segSize: SegSize, w: World, pid: Pid, loc: WalLocation, data: seq<byte>,
                                            crashRecovery: bool, l: WalLocation, reader: Pid)
    requires Inv(aes, segSize, w) && pid in w.caches && reader in w.caches && WriteOk(loc, |data|)
    requires w.file != [] && FixesStart(KeysOf(w, w.caches[pid]), loc, crashRecovery)
    requires !Before(l, loc) && !InSpan(l, loc, |data|) && w.live(l).Some?
    ensures var w' := StepWrite(aes, segSize, w, pid, loc, data, crashRecovery);
            var newest, b := w.file[|w.file| - 1], w.live(l).value;
            var was := Mask(aes, segSize, GoverningKey(w.file, l), l);
            var now := Mask(aes, segSize, EncryptionKey(newest.rangeType, newest.key), l);
            var read := ReadByte(aes, segSize, KeysOf(w', w'.caches[reader]), w'.disk, l);
            read == Xor(Xor(b, was), now) && (read == b <==> was == now)
  {
    var k := KeysOf(w, w.caches[pid]);
    var w' := StepWrite(aes, segSize, w, pid, loc, data, crashRecovery);
    var newest, b := w.file[|w.file| - 1], w.live(l).value;
    var new', old' := EncryptionKey(newest.rangeType, newest.key), GoverningKey(w.file, l);
    FixKeepsFile(k, loc, crashRecovery);
    GoverningAfterFix(w.file, loc, l);
    WriteKeepsInv(aes, segSize, w, pid, loc, data, crashRecovery);
    RefreshIsChain(KeysOf(w', w'.caches[reader]));
    assert w'.file == SetLastLocation(w.file, loc) && w'.disk(l) == w.disk(l);
    CryptByteMasks(aes, segSize, old', l, b);
    CryptByteMasks(aes, segSize, new', l, w.disk(l));
    TwoMasks(b, Mask(aes, segSize, old', l), Mask(aes, segSize, new', l));
  }
}
