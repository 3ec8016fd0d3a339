/**
 The WAL key file under the server's principal key: rotation and format migration,
 src/access/open_pg_tde_xlog_keys.c:617-796 and 934-1172.

 Entries are sealed.  The seal authenticates the range type (from version 2 on) and the base
 vector (from version 3 on) but never the range start, which is written in place later.
 */
module WalServerKey {
  import opened Bytes
  import opened Keys
  import opened Seals
  import opened WalLocations
  import opened WalKeys

  datatype Version = W1 | W2 | W3

  /** The cipher field is 0 in version 1, which always means AES-128. */
  datatype Aad = AadW1 | AadW2(cipher: nat, rangeType: RangeType) | AadW3(cipher: nat, rangeType: RangeType, baseIv: Block16)

  datatype SealedEntry = SealedEntry(cipher: nat, rangeType: RangeType, start: WalLocation, baseIv: Block16, seal: Seal<Aad>)

  function AadOf(version: Version, e: SealedEntry): Aad {
    match version
    case W1 => AadW1
    case W2 => AadW2(e.cipher, e.rangeType)
    case W3 => AadW3(e.cipher, e.rangeType, e.baseIv)
  }

  /** The entry in the clear, as the range cache works with it. */
  function Decoded(e: SealedEntry): KeyEntry {
    KeyEntry(e.rangeType, e.start, WalKey(e.seal.secret, e.baseIv))
  }

  function DecodedAll(entries: seq<SealedEntry>): seq<KeyEntry> {
    seq(|entries|, i requires 0 <= i < |entries| => Decoded(entries[i]))
  }

  predicate CanOpen(version: Version, e: SealedEntry, serverKey: KeyData) {
    Open(e.seal, serverKey, AadOf(version, e)).Some?
  }

  ghost predicate AllOpen(version: Version, entries: seq<SealedEntry>, serverKey: KeyData) {
    forall i :: 0 <= i < |entries| ==> CanOpen(version, entries[i], serverKey)
  }

  const AES_128: nat := 0

  function SealEntry(serverKey: KeyData, cipher: nat, e: KeyEntry): SealedEntry {
    SealedEntry(cipher, e.rangeType, e.start, e.key.baseIv, Seal(serverKey, AadW3(cipher, e.rangeType, e.key.baseIv), e.key.key))
  }

  function Resealed(version: Version, e: SealedEntry, newKey: KeyData): SealedEntry {
    SealEntry(newKey, if version == W1 then AES_128 else e.cipher, Decoded(e))
  }

  function ResealedAll(version: Version, entries: seq<SealedEntry>, newKey: KeyData): seq<SealedEntry> {
    seq(|entries|, i requires 0 <= i < |entries| => Resealed(version, entries[i], newKey))
  }

  /** Re-sealing changes no range type, start, key or base vector, and the new key opens everything. */
  lemma {:induction false} ResealKeepsRanges(version: Version, entries: seq<SealedEntry>, newKey: KeyData)
    ensures DecodedAll(ResealedAll(version, entries, newKey)) == DecodedAll(entries)
    ensures AllOpen(W3, ResealedAll(version, entries, newKey), newKey)
  {
  }

  /** One entry before and after: only the seal's key changes, and the cipher that version 1 does not name. */
  predicate SameEntry(version: Version, e: SealedEntry, f: SealedEntry) {
    && f.rangeType == e.rangeType && f.start == e.start && f.baseIv == e.baseIv
    && f.seal.secret == e.seal.secret && f.cipher == if version == W1 then 0 else e.cipher
  }

  ghost predicate CarriedOver(version: Version, entries: seq<SealedEntry>, r: seq<SealedEntry>, newKey: KeyData) {
    && |r| == |entries|
    && forall i :: 0 <= i < |r| ==> SameEntry(version, entries[i], r[i]) && r[i].seal.under == newKey
  }

  lemma {:induction false} ResealCarriesOver(version: Version, entries: seq<SealedEntry>, newKey: KeyData)
    ensures CarriedOver(version, entries, ResealedAll(version, entries, newKey), newKey)
  {
  }

  /** Which fields of an entry cannot be changed under its seal, by format version; the start always can. */
  lemma {:induction false} SealCovers(version: Version, e: SealedEntry, f: SealedEntry, serverKey: KeyData)
    requires f.seal == e.seal && CanOpen(version, e, serverKey)
    ensures CanOpen(version, f, serverKey)
       <==> && (version != W1 ==> f.cipher == e.cipher && f.rangeType == e.rangeType)
            && (version == W3 ==> f.baseIv == e.baseIv)
  {
  }

  // ----- In-place updates of sealed entries

  /** Fixing a start in place, and invalidating the previous entry if it does not start earlier. */
  function SetLastSealed(entries: seq<SealedEntry>, loc: WalLocation): (f: seq<SealedEntry>)
    requires entries != []
    ensures |f| == |entries|
  {
    var n := |entries|;
    var f := entries[n - 1 := entries[n - 1].(start := loc)];
    if n > 1 && !Before(f[n - 2].start, loc) then f[n - 2 := f[n - 2].(rangeType := Invalid)] else f
  }

  lemma {:induction false} SetLastSealedDecodes(entries: seq<SealedEntry>, loc: WalLocation)
    requires entries != []
    ensures DecodedAll(SetLastSealed(entries, loc)) == SetLastLocation(DecodedAll(entries), loc)
  {
  }

  ghost predicate NoneInvalidSealed(entries: seq<SealedEntry>) {
    forall i :: 0 <= i < |entries| ==> entries[i].rangeType != Invalid
  }

  /**
   From a file whose every entry opens and is valid, fixing a start leaves every entry
   openable exactly when it invalidates none: an invalidated entry is lost to its key.
   */
  lemma {:induction false} FixingKeepsOpen(entries: seq<SealedEntry>, serverKey: KeyData, loc: WalLocation)
    requires entries != [] && AllOpen(W3, entries, serverKey) && NoneInvalidSealed(entries)
    ensures AllOpen(W3, SetLastSealed(entries, loc), serverKey)
            <==> |entries| == 1 || Before(entries[|entries| - 2].start, loc)
    ensures AllOpen(W3, SetLastSealed(entries, loc), serverKey) <==> NoneInvalidSealed(SetLastSealed(entries, loc))
  {
    var n, f := |entries|, SetLastSealed(entries, loc);
    if n > 1 && !Before(entries[n - 2].start, loc) {
      assert f[n - 2].rangeType == Invalid;
      assert CanOpen(W3, entries[n - 2], serverKey);
      assert !CanOpen(W3, f[n - 2], serverKey);
    } else {
      assert forall i :: 0 <= i < n ==> AadOf(W3, f[i]) == AadOf(W3, entries[i]) && f[i].seal == entries[i].seal;
    }
  }

  // ----- The operations

  datatype WalKeyFile = WalKeyFile(version: Version, header: KeyData, entries: seq<SealedEntry>)

  /** The key file and the temporary file beside it. */
  datatype WalDirectory = WalDirectory(main: Option<WalKeyFile>, tmp: Option<WalKeyFile>)

  /** The header's key opens every entry. */
  ghost predicate Opens(f: WalKeyFile) {
    AllOpen(f.version, f.entries, f.header)
  }

  function Rewritten(f: WalKeyFile, newKey: KeyData): WalKeyFile {
    WalKeyFile(W3, newKey, ResealedAll(f.version, f.entries, newKey))
  }

  /** The directory after `n` durable steps: truncate and write the header, append each entry, rename. */
  function AfterSteps(d: WalDirectory, f: WalKeyFile, newKey: KeyData, n: nat): WalDirectory {
    if n == 0 then d
    else if n <= |f.entries| + 1 then d.(tmp := Some(WalKeyFile(W3, newKey, ResealedAll(f.version, f.entries[..n - 1], newKey))))
    else WalDirectory(Some(Rewritten(f, newKey)), None)
  }

  /** Wherever a rewrite is cut off, the key file opens under its header's key and holds the same ranges. */
  lemma {:induction false} CrashKeepsRanges(d: WalDirectory, newKey: KeyData, n: nat)
    requires d.main.Some? && Opens(d.main.value)
    ensures var d' := AfterSteps(d, d.main.value, newKey, n);
            && d'.main.Some? && Opens(d'.main.value)
            && DecodedAll(d'.main.value.entries) == DecodedAll(d.main.value.entries)
  {
    ResealKeepsRanges(d.main.value.version, d.main.value.entries, newKey);
  }

  /** Start-up migration: current and missing files are left alone, older ones rewritten under their own key. */
  function Migrated(d: WalDirectory): WalDirectory {
    if d.main.None? || d.main.value.version == W3 then d
    else WalDirectory(Some(Rewritten(d.main.value, d.main.value.header)), None)
  }

  /** Running migration again after a crash at any step reaches the directory an undisturbed migration reaches. */
  lemma {:induction false} WalMigrationIsRestartable(d: WalDirectory, n: nat)
    requires d.main.Some? && d.main.value.version != W3 && Opens(d.main.value)
    ensures var crashed := AfterSteps(d, d.main.value, d.main.value.header, n);
            && Migrated(crashed) == Migrated(d)
            && Opens(Migrated(crashed).main.value)
            && DecodedAll(Migrated(crashed).main.value.entries) == DecodedAll(d.main.value.entries)
  {
    ResealKeepsRanges(d.main.value.version, d.main.value.entries, d.main.value.header);
  }

  class WalKeyDirectory {
    var main: Option<WalKeyFile>
    var tmp: Option<WalKeyFile>

    constructor (file: Option<WalKeyFile>)
      ensures main == file && tmp == None
    {
      main, tmp := file, None;
    }

    ghost function Contents(): WalDirectory
      reads this
    {
      WalDirectory(main, tmp)
    }

    /**
     Copies entries until one fails to open, each durable state being one of `AfterSteps`; the key
     file itself is not touched.
     */
    method CopyResealed(f: WalKeyFile, oldKey: KeyData, newKey: KeyData) returns (ok: bool)
      modifies this`tmp
      ensures ok <==> AllOpen(f.version, f.entries, oldKey)
      ensures ok ==> tmp == Some(Rewritten(f, newKey))
    {
      var written: seq<SealedEntry> := [];
      tmp := Some(WalKeyFile(W3, newKey, written));
      var i := 0;
      while i < |f.entries|
        invariant 0 <= i <= |f.entries|
        invariant forall j :: 0 <= j < i ==> CanOpen(f.version, f.entries[j], oldKey)
        invariant written == ResealedAll(f.version, f.entries[..i], newKey)
        invariant tmp == Some(WalKeyFile(W3, newKey, written))
        invariant Contents() == AfterSteps(old(Contents()), f, newKey, i + 1)
      {
        var e := f.entries[i];
        if !CanOpen(f.version, e, oldKey) {
          return false;
        }
        written := written + [Resealed(f.version, e, newKey)];
        tmp := Some(WalKeyFile(W3, newKey, written));
        i := i + 1;
      }
      assert f.entries[..|f.entries|] == f.entries;
      return true;
    }

    /**
     Rotation of the server key: it goes through exactly when every entry opens, which an
     invalidated entry never does; ranges are then unchanged and all under the new key.
     */
    method RotateServerKey(oldKey: KeyData, newKey: KeyData) returns (ok: bool)
      modifies this
      ensures ok <==> old(main).Some? && old(main).value.version == W3 && AllOpen(W3, old(main).value.entries, oldKey)
      ensures ok ==> Contents() == AfterSteps(old(Contents()), old(main).value, newKey, |old(main).value.entries| + 2)
      ensures ok ==> main.Some? && main.value.header == newKey && CarriedOver(W3, old(main).value.entries, main.value.entries, newKey)
      ensures ok ==> DecodedAll(main.value.entries) == DecodedAll(old(main).value.entries) && AllOpen(W3, main.value.entries, newKey)
      ensures !ok ==> main == old(main)
    {
      if main.None? || main.value.version != W3 {
        return false;
      }
      ok := CopyResealed(main.value, oldKey, newKey);
      if ok {
        ResealKeepsRanges(main.value.version, main.value.entries, newKey);
        ResealCarriesOver(main.value.version, main.value.entries, newKey);
        main, tmp := tmp, None;
      }
    }

    /** Migration to the current version, under the key the header names; no file is nothing to do. */
    method Migrate() returns (ok: bool)
      modifies this
      ensures ok <==> old(main).None? || old(main).value.version == W3
                      || AllOpen(old(main).value.version, old(main).value.entries, old(main).value.header)
      ensures old(main).None? || old(main).value.version == W3 || !ok ==> main == old(main)
      ensures ok ==> Contents() == Migrated(old(Contents()))
      ensures ok && old(main).Some? ==>
        && main.Some? && main.value.version == W3 && main.value.header == old(main).value.header
        && DecodedAll(main.value.entries) == DecodedAll(old(main).value.entries)
        && (old(main).value.version != W3 ==>
              && AllOpen(W3, main.value.entries, main.value.header)
              && CarriedOver(old(main).value.version, old(main).value.entries, main.value.entries, main.value.header))
    {
      if main.None? || main.value.version == W3 {
        return true;
      }
      ok := CopyResealed(main.value, main.value.header, main.value.header);
      if ok {
        ResealKeepsRanges(main.value.version, main.value.entries, main.value.header);
        ResealCarriesOver(main.value.version, main.value.entries, main.value.header);
        main, tmp := tmp, None;
      }
    }
  }
}
