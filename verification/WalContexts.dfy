/**
 The cipher context that a process keeps for writes under the newest key,
 src/access/open_pg_tde_xlog_smgr.c:46 and 374-384.  It is keyed by the first such write and
 never again (src/encryption/enc_aes.c:121-134), so what it holds is a matter of whole runs.
 */
module WalContexts {
  import opened Bytes
  import opened Keys
  import opened StreamCipher
  import opened WalKeys
  import opened WalCrypt
  import opened WalRuns

  /** The key held by each process's write context, where there is one. */
  type Contexts = map<Pid, KeyData>

  function HeldBy(ctx: Contexts, pid: Pid): Option<KeyData> {
    if pid in ctx then Some(ctx[pid]) else None
  }

  /** The write goes through the write context: under the newest key, which encrypts. */
  predicate UsesContext(w: World, e: Event)
    requires e.Write? && e.pid in w.caches
  {
    var k := EnsureLocation(KeysOf(w, w.caches[e.pid]), e.loc, e.crashRecovery);
    e.data != [] && !UsesOldKeys(k, e.loc) && k.current.rangeType == Encrypted
  }

  /** A child inherits the postmaster's context; only the postmaster outlives a soft restart. */
  function After(w: World, e: Event, ctx: Contexts): Contexts
    requires EventOk(w, e)
  {
    match e
    case Start(soft, _, _) => if soft && POSTMASTER in ctx then map[POSTMASTER := ctx[POSTMASTER]] else map[]
    case Fork(pid) => if POSTMASTER in ctx then ctx[pid := ctx[POSTMASTER]] else ctx - {pid}
    case Exec(pid) => ctx - {pid}
    case Write(pid, _, _, _) => if UsesContext(w, e) then ctx[pid := KeyUsed(HeldBy(ctx, pid), w.current.key.key)] else ctx
    case Read(_) => ctx
  }

  /** Every context holds the newest key. */
  ghost predicate ContextsOk(w: World, ctx: Contexts) {
    forall pid :: pid in ctx ==> ctx[pid] == w.current.key.key
  }

  /** A soft restart that changes the newest key under a postmaster that has written. */
  predicate LeavesStale(aes: BlockCipher, segSize: SegSize, w: World, e: Event, ctx: Contexts)
    requires EventOk(w, e)
  {
    e.Start? && e.soft && POSTMASTER in ctx && Step(aes, segSize, w, e).current.key.key != ctx[POSTMASTER]
  }

  /** Contexts stay right through a step exactly when it does not leave the postmaster's stale. */
  lemma {:induction false} StepKeepsContexts(aes: BlockCipher, segSize: SegSize, w: World, e: Event, ctx: Contexts)
    requires Inv(aes, segSize, w) && EventOk(w, e) && ContextsOk(w, ctx)
    ensures ContextsOk(Step(aes, segSize, w, e), After(w, e, ctx)) <==> !LeavesStale(aes, segSize, w, e, ctx)
  {
    var w' := Step(aes, segSize, w, e);
    if e.Start? {
      var ctx' := After(w, e, ctx);
      assert POSTMASTER in ctx' ==> e.soft && ctx'[POSTMASTER] == ctx[POSTMASTER];
    } else {
      assert w'.current.key == w.current.key;
    }
  }

  /** The contexts along a run. */
  function ContextsAt(worlds: seq<World>, events: seq<Event>, n: nat): Contexts
    requires n <= |events| < |worlds| && forall i :: 0 <= i < |events| ==> EventOk(worlds[i], events[i])
  {
    if n == 0 then map[] else After(worlds[n - 1], events[n - 1], ContextsAt(worlds, events, n - 1))
  }

  predicate WritesItself(e: Event) {
    e.Write? && e.pid == POSTMASTER
  }

  /**
   Over every run in which the postmaster leaves writing to its children, every write under the
   newest key is encrypted with it, whatever context the process has kept or inherited.
   */
  lemma {:induction false} ContextsHoldTheNewestKey(aes: BlockCipher, segSize: SegSize, worlds: seq<World>, events: seq<Event>, n: nat)
    requires Run(aes, segSize, worlds, events) && n <= |events|
    requires forall i :: 0 <= i < |events| ==> !WritesItself(events[i])
    ensures var ctx := ContextsAt(worlds, events, n);
      && POSTMASTER !in ctx && ContextsOk(worlds[n], ctx)
      && forall pid :: KeyUsed(HeldBy(ctx, pid), worlds[n].current.key.key) == worlds[n].current.key.key
    decreases n
  {
    if n > 0 {
      ContextsHoldTheNewestKey(aes, segSize, worlds, events, n - 1);
      RunKeepsInv(aes, segSize, worlds, events, n - 1);
      var ctx := ContextsAt(worlds, events, n - 1);
      assert !WritesItself(events[n - 1]);
      StepKeepsContexts(aes, segSize, worlds[n - 1], events[n - 1], ctx);
    }
  }

  /** A postmaster that wrote under one key would keep it through a soft restart that creates another. */
  lemma {:induction false} PostmasterContextGoesStale(aes: BlockCipher, segSize: SegSize, w: World, ctx: Contexts, key: WalKey)
    requires Inv(aes, segSize, w) && ContextsOk(w, ctx) && POSTMASTER in ctx && key.key != ctx[POSTMASTER]
    ensures !ContextsOk(Step(aes, segSize, w, Start(true, true, key)), After(w, Start(true, true, key), ctx))
  {
    StepKeepsContexts(aes, segSize, w, Start(true, true, key), ctx);
  }
}
