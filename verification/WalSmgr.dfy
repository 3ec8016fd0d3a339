/**
 The WAL storage manager as one process runs it: the mutable state and buffers of
 src/access/open_pg_tde_xlog_smgr.c, proved against the steps of module `WalRuns`.
 */
module WalSmgr {
  import opened Bytes
  import opened Keys
  import opened StreamCipher
  import opened WalIv
  import opened WalLocations
  import opened WalKeys
  import opened WalCrypt
  import opened WalRuns

  /** What storing `data` at `loc` does to the disk, each byte under the key the write uses for it. */
  ghost predicate Stored(aes: BlockCipher, segSize: SegSize, before: Disk, after: Disk, loc: WalLocation, data: seq<byte>, k: KeyState) {
    forall l :: after(l) == if InSpan(l, loc, |data|)
                            then CryptByte(aes, segSize, WriteKey(k, loc, l), l, data[l.lsn - loc.lsn])
                            else before(l)
  }

  /** The class's write is the run model's write: same keys, same bytes. */
  lemma {:induction false} StoredIsStep(aes: BlockCipher, segSize: SegSize, w: World, pid: Pid, loc: WalLocation, data: seq<byte>,
                                        crashRecovery: bool,
                                        disk: Disk)
    requires pid in w.caches
    requires Stored(aes, segSize, w.disk, disk, loc, data, AfterWrite(KeysOf(w, w.caches[pid]), loc, crashRecovery))
    ensures forall l :: disk(l) == StepWrite(aes, segSize, w, pid, loc, data, crashRecovery).disk(l)
  {
  }

  /** What the class's reads and writes ask of the key state holds in every world of every run. */
  lemma {:induction false} KeysReady(aes: BlockCipher, segSize: SegSize, worlds: seq<World>, events: seq<Event>, n: nat, pid: Pid,
                                     loc: WalLocation, crashRecovery: bool)
    requires Run(aes, segSize, worlds, events)
    requires n <= |events| && pid in worlds[n].caches
    requires IsSet(loc) && Before(loc, MAX_LOCATION)
    ensures var k := KeysOf(worlds[n], worlds[n].caches[pid]);
            && (k.file == [] ==> k.current.rangeType == Invalid)
            && InOrder(Refresh(k))
            && InOrder(Refresh(EnsureLocation(k, loc, crashRecovery)))
  {
    RunKeepsInv(aes, segSize, worlds, events, n);
    var k := KeysOf(worlds[n], worlds[n].caches[pid]);
    RefreshIsChain(k);
    WriteKeepsKeys(k, loc, crashRecovery);
    RefreshIsChain(EnsureLocation(k, loc, crashRecovery));
  }

  /** Each byte masked under the key the write uses for its position. */
  ghost predicate Prepared(aes: BlockCipher, segSize: SegSize, k: KeyState, loc: WalLocation, data: seq<byte>, bytes: seq<byte>) {
    && |bytes| == |data|
    && forall i :: 0 <= i < |data| ==> bytes[i] == CryptByte(aes, segSize, WriteKey(k, loc, At(loc, i)), At(loc, i), data[i])
  }

  lemma {:induction false} PreparedIsStored(aes: BlockCipher, segSize: SegSize, before: Disk, after: Disk, loc: WalLocation,
                                            data: seq<byte>, bytes: seq<byte>,
                                            k: KeyState)
    requires Prepared(aes, segSize, k, loc, data, bytes)
    requires forall l :: after(l) == if InSpan(l, loc, |bytes|) then bytes[l.lsn - loc.lsn] else before(l)
    ensures Stored(aes, segSize, before, after, loc, data, k)
  {
    forall l
      ensures after(l) == if InSpan(l, loc, |data|)
                          then CryptByte(aes, segSize, WriteKey(k, loc, l), l, data[l.lsn - loc.lsn])
                          else before(l)
    {
      if InSpan(l, loc, |data|) {
        assert At(loc, l.lsn - loc.lsn) == l;
      }
    }
  }

  class WalStorage {
    const segSize: SegSize
    const keys: WalKeyStore
    const encryptionBuf: array<byte>
    var current: WalRange
    var encKeyTli: nat
    var encKeyLsn: nat
    var disk: Disk
    /** The key held by the context for writes under the newest key, once there is one. */
    var writeContext: Option<KeyData>

    constructor (segSize: SegSize, keys: WalKeyStore, bufSize: nat, segments: Disk)
      ensures this.segSize == segSize && this.keys == keys && disk == segments
      ensures fresh(encryptionBuf) && encryptionBuf.Length == bufSize
      ensures current == NO_RANGE && Published() == UNSET && writeContext == None
    {
      this.segSize := segSize;
      this.keys := keys;
      encryptionBuf := new byte[bufSize](_ => 0);
      current := NO_RANGE;
      encKeyTli, encKeyLsn := 0, 0;
      disk := segments;
      writeContext := None;
    }

    function Published(): WalLocation
      reads this
    {
      WalLocation(encKeyTli, encKeyLsn)
    }

    function Keys(): KeyState
      reads this, keys
    {
      KeyState(keys.file, current, Published(), keys.cache)
    }

    /** The write context, once there is one, holds the current range's key. */
    predicate ContextOk()
      reads this
    {
      writeContext.Some? ==> writeContext.value == current.key.key
    }

    method SetEncKeyLocation(loc: WalLocation)
      modifies this`encKeyTli, this`encKeyLsn
      ensures Published() == loc
    {
      encKeyTli := loc.tli;
      encKeyLsn := loc.lsn;
    }

    /**
     Start-up.  In the postmaster shared memory has just been set up, so nothing is published; a
     child that runs this again finds what the postmaster has left.
     */
    method InitWrite(encrypt: bool, newKey: WalKey, underPostmaster: bool)
      requires !underPostmaster ==> Published() == UNSET
      modifies this`current, this`encKeyTli, this`encKeyLsn, keys
      ensures Keys() == if underPostmaster then AfterExec(old(Keys())) else AfterStart(old(keys.file), old(current), encrypt, newKey)
      ensures underPostmaster ==> keys.file == old(keys.file)
      ensures !underPostmaster && encrypt ==> keys.file == old(keys.file) + [KeyEntry(Encrypted, UNSET, newKey)]
      ensures !underPostmaster && !encrypt ==>
        keys.file == if old(keys.file) != [] && old(keys.file)[|old(keys.file)| - 1].rangeType == Encrypted
                     then old(keys.file) + [KeyEntry(Unencrypted, UNSET, newKey)] else old(keys.file)
    {
      keys.FreeCache();
      var range := keys.ReadLastRange();
      if underPostmaster {
        if range.Some? {
          current := range.value;
        }
      } else if encrypt {
        current := keys.CreateRange(Encrypted, newKey);
      } else if range.Some? && range.value.rangeType == Encrypted {
        current := keys.CreateRange(Unencrypted, newKey);
      } else if range.Some? {
        current := range.value;
        SetEncKeyLocation(current.start);
      }
      if |keys.cache| == 0 {
        keys.FetchKeys(FIRST);
      }
    }

    /** Fixes the newest key's start if this write may; says whether the newest key is to be used. */
    method EnsureKeyLocation(loc: WalLocation, crashRecovery: bool) returns (usable: bool)
      requires keys.file == [] ==> current.rangeType == Invalid
      requires IsSet(loc)
      modifies this`current, this`encKeyTli, this`encKeyLsn, keys`file
      ensures Keys() == EnsureLocation(old(Keys()), loc, crashRecovery) && current.key == old(current.key)
      ensures usable <==> Published().lsn != 0 && !Before(loc, Published())
      ensures crashRecovery || old(Published()).lsn != 0 ==> keys.file == old(keys.file) && Published() == old(Published())
    {
      var lastKeyUsable := encKeyLsn != 0;
      var afterWriteKey := !Before(loc, WalLocation(encKeyTli, encKeyLsn));
      if current.rangeType != Invalid && !lastKeyUsable && afterWriteKey && !crashRecovery {
        if |keys.cache| == 0 || Before(keys.cache[|keys.cache| - 1].start, loc) {
          keys.SetLastRangeLocation(loc);
          current := current.(start := loc);
          SetEncKeyLocation(loc);
          lastKeyUsable := true;
        }
      }
      usable := lastKeyUsable && afterWriteKey;
    }

    /** Brings the cache up to date with what has been published. */
    method RefreshCache()
      modifies keys`cache
      ensures keys.cache == Refresh(old(Keys()))
    {
      if |keys.cache| == 0 {
        keys.FetchKeys(FIRST);
      }
      if encKeyLsn != 0 && |keys.cache| != 0 {
        var writeLoc := WalLocation(encKeyTli, encKeyLsn);
        if Before(keys.cache[|keys.cache| - 1].start, writeLoc) {
          keys.FetchKeys(writeLoc);
        }
      }
    }

    /** The write of `n` bytes at a position of a segment file. */
    method PWrite(bytes: seq<byte>, loc: WalLocation)
      modifies this`disk
      ensures forall l :: disk(l) == if InSpan(l, loc, |bytes|) then bytes[l.lsn - loc.lsn] else old(disk)(l)
    {
      var before := disk;
      disk := l => if InSpan(l, loc, |bytes|) then bytes[l.lsn - loc.lsn] else before(l);
    }

    /** The whole buffer under the newest key: the one the write context holds, if there is one. */
    method EncryptPages(aes: BlockCipher, buf: array<byte>, count: nat, offset: nat, loc: WalLocation, segno: nat)
      requires buf != encryptionBuf && count <= buf.Length && count <= encryptionBuf.Length
      requires offset + count <= segSize && loc.lsn == segno * segSize + offset
      modifies encryptionBuf, this`writeContext
      ensures writeContext == old(writeContext) || writeContext == Some(KeyUsed(old(writeContext), current.key.key))
      ensures var used := current.key.(key := KeyUsed(old(writeContext), current.key.key));
        forall k :: 0 <= k < count ==> encryptionBuf[k] == CryptByte(aes, segSize, Some(used), At(loc, k), buf[k])
    {
      var iv := IvPrefix(loc.tli, segno, current.key.baseIv);
      ghost var used := current.key.(key := KeyUsed(writeContext, current.key.key));
      writeContext := StreamCrypt(aes, writeContext, current.key.key, iv, offset, buf, 0, count, encryptionBuf);
      forall k | 0 <= k < count
        ensures encryptionBuf[k] == CryptByte(aes, segSize, Some(used), At(loc, k), buf[k])
      {
        SliceIsCryptByte(aes, segSize, used, segno, offset, loc, buf[0..count], k);
        assert encryptionBuf[0..count][k] == encryptionBuf[k];
      }
    }

    /** A copy of the buffer with each encrypted range's part masked. */
    method EncryptPagesOldKeys(aes: BlockCipher, buf: array<byte>, count: nat, offset: nat, loc: WalLocation, segno: nat)
      requires InOrder(Refresh(Keys()))
      requires buf != encryptionBuf && 0 < count <= buf.Length && count <= encryptionBuf.Length
      requires offset + count <= segSize && loc.lsn == segno * segSize + offset
      modifies encryptionBuf, keys`cache
      ensures keys.cache == Refresh(old(Keys()))
      ensures forall k :: 0 <= k < count ==>
        encryptionBuf[k] == CryptByte(aes, segSize, KeyAt(keys.cache, At(loc, k)), At(loc, k), buf[k])
    {
      forall i | 0 <= i < count {
        encryptionBuf[i] := buf[i];
      }
      RefreshCache();
      ghost var copied := encryptionBuf[..];
      CryptBuffer(aes, segSize, keys.cache, buf, encryptionBuf, count, offset, loc.tli, segno);
      CryptedOverCopy(aes, segSize, keys.cache, loc, count, buf[..], copied, encryptionBuf[..]);
    }

    /** The three ways to prepare a buffer, chosen by the newest key's state. */
    method PreparePages(aes: BlockCipher, usable: bool, buf: array<byte>, count: nat, offset: nat, loc: WalLocation, segno: nat)
      returns (bytes: seq<byte>)
      requires InOrder(Refresh(Keys())) && ContextOk()
      requires usable <==> Published().lsn != 0 && !Before(loc, Published())
      requires buf != encryptionBuf && 0 < count <= buf.Length && count <= encryptionBuf.Length
      requires offset + count <= segSize && loc.lsn == segno * segSize + offset
      modifies encryptionBuf, keys`cache, this`writeContext
      ensures Keys() == if UsesOldKeys(old(Keys()), loc) then old(Keys()).(cache := Refresh(old(Keys()))) else old(Keys())
      ensures ContextOk()
      ensures Prepared(aes, segSize, Keys(), loc, buf[..count], bytes)
    {
      bytes := buf[..count];
      if !usable && current.rangeType != Invalid {
        EncryptPagesOldKeys(aes, buf, count, offset, loc, segno);
        bytes := encryptionBuf[..count];
      } else if current.rangeType == Encrypted {
        EncryptPages(aes, buf, count, offset, loc, segno);
        bytes := encryptionBuf[..count];
      }
    }

    /** Prepares a buffer and writes it. */
    method StorePages(aes: BlockCipher, usable: bool, buf: array<byte>, count: nat, offset: nat, loc: WalLocation, segno: nat)
      requires InOrder(Refresh(Keys())) && ContextOk()
      requires usable <==> Published().lsn != 0 && !Before(loc, Published())
      requires buf != encryptionBuf && 0 < count <= buf.Length && count <= encryptionBuf.Length
      requires offset + count <= segSize && loc.lsn == segno * segSize + offset
      modifies encryptionBuf, keys`cache, this`writeContext, this`disk
      ensures Keys() == if UsesOldKeys(old(Keys()), loc) then old(Keys()).(cache := Refresh(old(Keys()))) else old(Keys())
      ensures ContextOk()
      ensures Stored(aes, segSize, old(disk), disk, loc, buf[..count], Keys())
    {
      var bytes := PreparePages(aes, usable, buf, count, offset, loc, segno);
      PWrite(bytes, loc);
      PreparedIsStored(aes, segSize, old(disk), disk, loc, buf[..count], bytes, Keys());
    }

    /**
     One write is one `Write` step of the run model.  Its precondition on the cache holds in
     every key state of a run (`KeysReady`), and so does the one of `SegRead`.
     */
    method SegWrite(aes: BlockCipher, buf: array<byte>, count: nat, offset: nat, tli: nat, segno: nat, crashRecovery: bool)
      requires buf != encryptionBuf && count <= buf.Length && count <= encryptionBuf.Length
      requires offset + count <= segSize
      requires 0 < count && WriteOk(WalLocation(tli, segno * segSize + offset), count)
      requires ContextOk() && (keys.file == [] ==> current.rangeType == Invalid)
      requires InOrder(Refresh(EnsureLocation(Keys(), WalLocation(tli, segno * segSize + offset), crashRecovery)))
      modifies this`current, this`encKeyTli, this`encKeyLsn, this`disk, this`writeContext, encryptionBuf, keys
      ensures Keys() == AfterWrite(old(Keys()), WalLocation(tli, segno * segSize + offset), crashRecovery)
      ensures ContextOk()
      ensures Stored(aes, segSize, old(disk), disk, WalLocation(tli, segno * segSize + offset), buf[..count], Keys())
    {
      var loc := WalLocation(tli, segno * segSize + offset);
      var usable := EnsureKeyLocation(loc, crashRecovery);
      StorePages(aes, usable, buf, count, offset, loc, segno);
    }

    /** The read of up to `count` bytes; the system gives `readSize` of them. */
    method PRead(buf: array<byte>, readSize: nat, loc: WalLocation)
      requires readSize <= buf.Length
      modifies buf
      ensures forall k :: 0 <= k < buf.Length ==> buf[k] == if k < readSize then disk(At(loc, k)) else old(buf[k])
    {
      forall k | 0 <= k < readSize {
        buf[k] := disk(WalLocation(loc.tli, loc.lsn + k));
      }
    }

    /**
     A read decrypts what is stored in place, byte by byte under the key of each position.  After
     a short read the rest of the buffer, which holds what it held before, is masked as well; a
     read that fails or gives nothing changes nothing.
     */
    method SegRead(aes: BlockCipher, buf: array<byte>, count: nat, offset: nat, tli: nat, segno: nat, given: int) returns (readSize: int)
      requires InOrder(Refresh(Keys()))
      requires given <= count <= buf.Length && offset + count <= segSize
      modifies buf, keys`cache
      ensures readSize == given
      ensures given <= 0 ==> keys.cache == old(keys.cache) && buf[..] == old(buf[..])
      ensures given > 0 ==> keys.cache == Refresh(old(Keys()))
      ensures forall k :: 0 <= k < given ==>
        buf[k] == ReadByte(aes, segSize, old(Keys()), disk, At(WalLocation(tli, segno * segSize + offset), k))
      ensures given > 0 ==> forall k :: given <= k < count ==>
        var l := At(WalLocation(tli, segno * segSize + offset), k);
        buf[k] == CryptByte(aes, segSize, KeyAt(Refresh(old(Keys())), l), l, old(buf[k]))
    {
      readSize := given;
      if readSize <= 0 {
        return;
      }
      var loc := WalLocation(tli, segno * segSize + offset);
      PRead(buf, readSize, loc);
      RefreshCache();
      ghost var stored := buf[..];
      CryptBuffer(aes, segSize, keys.cache, buf, buf, count, offset, tli, segno);
      CryptedOverCopy(aes, segSize, keys.cache, loc, count, stored, stored, buf[..]);
    }
  }
}
