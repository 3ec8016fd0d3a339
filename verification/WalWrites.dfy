/**
 What start-ups and writes leave on disk and in the key file, said in terms of entries, keys and
 bytes alone: src/access/open_pg_tde_xlog_smgr.c:235-297 and 392-453.
 */
module WalWrites {
  import opened Bytes
  import opened StreamCipher
  import opened WalLocations
  import opened WalKeys
  import opened WalCrypt
  import opened WalRuns

  /** The start of an entry that is neither unset nor invalidated. */
  predicate HasStart(e: KeyEntry) {
    (e.rangeType == Encrypted || e.rangeType == Unencrypted) && e.start.tli != 0 && e.start.lsn != 0
  }

  /** Every start lies before the position. */
  ghost predicate StartsBefore(file: seq<KeyEntry>, loc: WalLocation) {
    forall i :: 0 <= i < |file| && HasStart(file[i]) ==> Before(file[i].start, loc)
  }

  // ----- Which entry a position belongs to

  /** A position belongs to the entry with the last start at or before it, masked if that entry is encrypted. */
  lemma {:induction false} KeyOfTheLastStart(file: seq<KeyEntry>, i: nat, l: WalLocation)
    requires i < |file| && HasStart(file[i]) && !Before(l, file[i].start)
    requires forall j :: i < j < |file| && HasStart(file[j]) ==> Before(l, file[j].start)
    ensures GoverningKey(file, l) == if file[i].rangeType == Encrypted then Some(file[i].key) else None
    decreases |file|
  {
    if i < |file| - 1 {
      var front := file[..|file| - 1];
      assert HasStart(file[|file| - 1]) ==> Before(l, file[|file| - 1].start);
      KeyOfTheLastStart(front, i, l);
    }
  }

  /** Before the first start nothing is masked. */
  lemma {:induction false} NoKeyBeforeTheFirstStart(file: seq<KeyEntry>, l: WalLocation)
    requires forall i :: 0 <= i < |file| && HasStart(file[i]) ==> Before(l, file[i].start)
    ensures GoverningKey(file, l) == None
    decreases |file|
  {
    if file != [] {
      assert HasStart(file[|file| - 1]) ==> Before(l, file[|file| - 1].start);
      NoKeyBeforeTheFirstStart(file[..|file| - 1], l);
    }
  }

  // ----- When a start is fixed

  lemma {:induction false} SameUsed(file: seq<KeyEntry>, loc: WalLocation)
    ensures StartsBefore(file, loc) <==> UsedBefore(file, loc)
  {
    forall i | 0 <= i < |file| ensures HasStart(file[i]) <==> Used(file[i]) {
    }
  }

  lemma {:induction false} LastCachedStart(file: seq<KeyEntry>, loc: WalLocation)
    requires file != [] && FileOk(file) && IsSet(loc)
    ensures var c := Chain(file); StartsBefore(file, loc) <==> c == [] || Before(c[|c| - 1].start, loc)
  {
    ChainIsSound(file);
    LinkUsedIsSound(file);
    SameUsed(file, loc);
    var c := Chain(file);
    if c != [] && StartsBefore(file, loc) {
      assert IsLatestStart(file, c[|c| - 1].start);
    }
  }

  /**
   A write fixes the newest entry's start exactly when that start is open, the server is not in
   crash recovery, and every start lies before the write; the start is then the write's position.
   */
  lemma {:induction false} StartIsFixedIff(k: KeyState, loc: WalLocation, crashRecovery: bool)
    requires KeysOk(k) && IsSet(loc) && Before(loc, MAX_LOCATION)
    ensures var k' := EnsureLocation(k, loc, crashRecovery);
      if k.file != [] && k.published == UNSET && !crashRecovery && StartsBefore(k.file, loc)
      then && k'.published == loc && |k'.file| == |k.file|
           && k'.file[..|k.file| - 1] == k.file[..|k.file| - 1]
           && k'.file[|k.file| - 1] == k.file[|k.file| - 1].(start := loc)
      else k' == k
  {
    if k.file != [] {
      LastCachedStart(k.file, loc);
      assert IsSet(k.published) <==> k.published != UNSET;
      if k.published == UNSET && !crashRecovery && StartsBefore(k.file, loc) {
        assert FixesStart(k, loc, crashRecovery);
        FixKeepsFile(k, loc, crashRecovery);
      }
    }
  }

  /** Nothing is fixed during crash recovery. */
  lemma {:induction false} CrashRecoveryFixesNothing(k: KeyState, loc: WalLocation)
    ensures EnsureLocation(k, loc, true) == k
  {
  }

  /** Once a start is fixed, everything from there on belongs to the newest entry. */
  lemma {:induction false} FixedStartGoverns(k: KeyState, loc: WalLocation, l: WalLocation)
    requires KeysOk(k) && IsSet(loc) && Before(loc, MAX_LOCATION) && !Before(l, loc)
    requires k.file != [] && k.published == UNSET && StartsBefore(k.file, loc)
    ensures var newest := k.file[|k.file| - 1];
      GoverningKey(EnsureLocation(k, loc, false).file, l) == if newest.rangeType == Encrypted then Some(newest.key) else None
  {
    StartIsFixedIff(k, loc, false);
    KeyOfTheLastStart(EnsureLocation(k, loc, false).file, |k.file| - 1, l);
  }

  // ----- What a write after a start-up leaves on disk

  /** The world after a start-up, the fork of a process, and its write outside crash recovery. */
  ghost function StartForkWrite(aes: BlockCipher, segSize: SegSize, w: World, soft: bool, encrypt: bool, key: WalKey,
                                pid: Pid, loc: WalLocation, data: seq<byte>): World
    requires WriteOk(loc, |data|)
  {
    var w1 := Step(aes, segSize, w, Start(soft, encrypt, key));
    Step(aes, segSize, Step(aes, segSize, w1, Fork(pid)), Write(pid, loc, data, false))
  }

  /** A write by a process whose key state has an open newest entry. */
  lemma {:induction false} WriteUnderTheNewest(aes: BlockCipher, segSize: SegSize, w: World, pid: Pid, loc: WalLocation, data: seq<byte>,
                                               l: WalLocation)
    requires Inv(aes, segSize, w) && pid in w.caches && WriteOk(loc, |data|) && InSpan(l, loc, |data|)
    requires w.file != [] && w.published == UNSET && StartsBefore(w.file, loc)
    ensures var newest := w.file[|w.file| - 1];
      Step(aes, segSize, w, Write(pid, loc, data, false)).disk(l)
      == CryptByte(aes, segSize, if newest.rangeType == Encrypted then Some(newest.key) else None, l, data[l.lsn - loc.lsn])
  {
    var k := KeysOf(w, w.caches[pid]);
    FixedStartGoverns(k, loc, l);
    WriteUsesGoverningKey(k, loc, false, l);
  }

  lemma {:induction false} StartedWorld(aes: BlockCipher, segSize: SegSize, w: World, soft: bool, encrypt: bool, key: WalKey, pid: Pid)
    requires Inv(aes, segSize, w)
    requires encrypt || (w.file != [] && w.file[|w.file| - 1].rangeType == Encrypted)
    ensures var w1 := Step(aes, segSize, w, Start(soft, encrypt, key)); var w2 := Step(aes, segSize, w1, Fork(pid));
      && Inv(aes, segSize, w2) && pid in w2.caches && w2.published == UNSET
      && w2.file == w.file + [KeyEntry(if encrypt then Encrypted else Unencrypted, UNSET, key)]
  {
    var w1 := Step(aes, segSize, w, Start(soft, encrypt, key));
    StepKeepsInv(aes, segSize, w, Start(soft, encrypt, key));
    StepKeepsInv(aes, segSize, w1, Fork(pid));
  }

  /** After a start with encryption on, what is first written lies on disk masked under the new key. */
  lemma {:induction false} EncryptedStartMasks(aes: BlockCipher, segSize: SegSize, w: World, soft: bool, key: WalKey,
                                               pid: Pid, loc: WalLocation, data: seq<byte>, l: WalLocation)
    requires Inv(aes, segSize, w) && WriteOk(loc, |data|) && StartsBefore(w.file, loc) && InSpan(l, loc, |data|)
    ensures StartForkWrite(aes, segSize, w, soft, true, key, pid, loc, data).disk(l)
      == CryptByte(aes, segSize, Some(key), l, data[l.lsn - loc.lsn])
  {
    StartedWorld(aes, segSize, w, soft, true, key, pid);
    WriteUnderTheNewest(aes, segSize, Step(aes, segSize, Step(aes, segSize, w, Start(soft, true, key)), Fork(pid)), pid, loc, data, l);
  }

  /** After a start with encryption off behind an encrypted entry, it lies there as it is. */
  lemma {:induction false} PlainStartUnmasks(aes: BlockCipher, segSize: SegSize, w: World, soft: bool, key: WalKey,
                                             pid: Pid, loc: WalLocation, data: seq<byte>, l: WalLocation)
    requires Inv(aes, segSize, w) && WriteOk(loc, |data|) && StartsBefore(w.file, loc) && InSpan(l, loc, |data|)
    requires w.file != [] && w.file[|w.file| - 1].rangeType == Encrypted
    ensures StartForkWrite(aes, segSize, w, soft, false, key, pid, loc, data).disk(l) == data[l.lsn - loc.lsn]
  {
    StartedWorld(aes, segSize, w, soft, false, key, pid);
    WriteUnderTheNewest(aes, segSize, Step(aes, segSize, Step(aes, segSize, w, Start(soft, false, key)), Fork(pid)), pid, loc, data, l);
  }

  /** A start with encryption off that finds no encrypted newest entry creates nothing and goes on under the last one. */
  lemma {:induction false} PlainStartGoesOn(aes: BlockCipher, segSize: SegSize, w: World, soft: bool, key: WalKey)
    requires Inv(aes, segSize, w) && (w.file != [] ==> w.file[|w.file| - 1].rangeType != Encrypted)
    ensures var w' := Step(aes, segSize, w, Start(soft, false, key));
      w'.file == w.file && w'.published == if w.file == [] then UNSET else w.file[|w.file| - 1].start
  {
  }
}
