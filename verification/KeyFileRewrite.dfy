/**
 Rewriting a key map file: principal key rotation (src/access/open_pg_tde_tdemap.c:309-391)
 and format migration (src/access/open_pg_tde_tdemap.c:964-1260).

 Both build a temporary file slot by slot and then rename it over the key file, so a crash
 is a stop between two durable steps.
 */
module KeyFileRewrite {
  import opened Bytes
  import opened Keys
  import opened KeyMap

  /** The header names (and is signed under) the principal key. */
  datatype KeyFile = KeyFile(version: Version, header: KeyData, slots: seq<Slot>)

  /** The header's key opens every entry. */
  ghost predicate Opens(f: KeyFile) {
    SlotsOk(f.slots) && AllOpen(f.version, f.slots, f.header)
  }

  /** The used slots, each sealed again under the new key in the current format; empty slots are dropped. */
  function Reseal(version: Version, slots: seq<Slot>, newKey: KeyData): (r: seq<Slot>)
    decreases |slots|
  {
    if slots == [] then []
    else
      var r := Reseal(version, slots[..|slots| - 1], newKey);
      var last := slots[|slots| - 1];
      if last.Used? then r + [MakeSlot(newKey, last.rel, KeyIn(version, last))] else r
  }

  function Rewritten(f: KeyFile, newKey: KeyData): KeyFile {
    KeyFile(V6, newKey, Reseal(f.version, f.slots, newKey))
  }

  lemma {:induction false} ResealOneMore(version: Version, front: seq<Slot>, last: Slot, r: seq<Slot>, newKey: KeyData)
    requires SlotsOk(front) && last.Used? && !Holds(front, last.rel) && last.rel.relNumber != 0
    requires SlotsOk(r) && AllOpen(V6, r, newKey) && Content(V6, r) == Content(version, front)
    ensures var s := MakeSlot(newKey, last.rel, KeyIn(version, last));
      && SlotsOk(r + [s]) && AllOpen(V6, r + [s], newKey)
      && Content(V6, r + [s]) == Content(version, front)[last.rel := KeyIn(version, last)]
  {
    var s := MakeSlot(newKey, last.rel, KeyIn(version, last));
    ContentCharacterised(version, front);
    ContentCharacterised(V6, r);
    assert !Holds(r, last.rel);
    ContentAfterPut(V6, r, |r|, s);
  }

  /** No relation appears, none disappears, and each keeps its key, base vector and cipher. */
  lemma {:induction false} ResealKeepsContent(version: Version, slots: seq<Slot>, newKey: KeyData)
    requires SlotsOk(slots)
    ensures var r := Reseal(version, slots, newKey);
            && SlotsOk(r)
            && AllOpen(V6, r, newKey)
            && Content(V6, r) == Content(version, slots)
    decreases |slots|
  {
    if slots != [] {
      var front, last := slots[..|slots| - 1], slots[|slots| - 1];
      assert forall i :: 0 <= i < |front| ==> front[i] == slots[i];
      ResealKeepsContent(version, front, newKey);
      if last.Used? {
        ResealOneMore(version, front, last, Reseal(version, front, newKey), newKey);
      }
    }
  }

  /** The used slots, in order. */
  function UsedOnly(slots: seq<Slot>): (r: seq<Slot>)
    ensures forall s :: s in r <==> s in slots && s.Used?
  {
    if slots == [] then []
    else UsedOnly(slots[..|slots| - 1]) + if slots[|slots| - 1].Used? then [slots[|slots| - 1]] else []
  }

  /** One relation's slot before and after: the same secret, base vector and cipher, which version 3 does not name. */
  predicate SameKey(version: Version, s: Slot, t: Slot) {
    && s.Used? && t.Used? && t.rel == s.rel
    && t.seal.secret == s.seal.secret && t.baseIv == s.baseIv
    && t.cipher == if version == V3 then Aes128 else s.cipher
  }

  /** The new slots are the used old ones, each with its key and sealed under the new principal key. */
  ghost predicate CarriedOver(version: Version, slots: seq<Slot>, r: seq<Slot>, newKey: KeyData) {
    && |r| == |UsedOnly(slots)|
    && forall i :: 0 <= i < |r| ==> SameKey(version, UsedOnly(slots)[i], r[i]) && r[i].seal.under == newKey
  }

  lemma {:induction false} ResealCarriesOver(version: Version, slots: seq<Slot>, newKey: KeyData)
    ensures CarriedOver(version, slots, Reseal(version, slots, newKey), newKey)
  {
    if slots != [] {
      ResealCarriesOver(version, slots[..|slots| - 1], newKey);
    }
  }

  /** A rewrite yields a file that its own header key opens and that stands for the same map. */
  lemma {:induction false} RewriteKeepsKeys(f: KeyFile, newKey: KeyData)
    requires SlotsOk(f.slots)
    ensures Opens(Rewritten(f, newKey)) && Rewritten(f, newKey).header == newKey
    ensures CarriedOver(f.version, f.slots, Rewritten(f, newKey).slots, newKey)
    ensures Content(V6, Rewritten(f, newKey).slots) == Content(f.version, f.slots)
  {
    ResealKeepsContent(f.version, f.slots, newKey);
    ResealCarriesOver(f.version, f.slots, newKey);
  }

  // ----- Crashes

  /** The key file and the temporary file beside it. */
  datatype Directory = Directory(main: Option<KeyFile>, tmp: Option<KeyFile>)

  /** The directory after `n` durable steps: truncate and write the header, append each slot, rename. */
  function AfterSteps(d: Directory, f: KeyFile, newKey: KeyData, n: nat): Directory {
    var slots := Reseal(f.version, f.slots, newKey);
    if n == 0 then d
    else if n <= |slots| + 1 then d.(tmp := Some(KeyFile(V6, newKey, slots[..n - 1])))
    else Directory(Some(Rewritten(f, newKey)), None)
  }

  lemma {:induction false} ResealPrefix(version: Version, slots: seq<Slot>, newKey: KeyData, i: nat)
    requires i <= |slots|
    ensures Reseal(version, slots[..i], newKey) <= Reseal(version, slots, newKey)
    decreases |slots|
  {
    if i == |slots| {
      assert slots[..i] == slots;
    } else {
      var front := slots[..|slots| - 1];
      assert front[..i] == slots[..i];
      ResealPrefix(version, front, newKey, i);
    }
  }

  /** Wherever a rewrite is cut off, the key file opens under its header's key and holds the same keys. */
  lemma {:induction false} CrashKeepsKeys(d: Directory, newKey: KeyData, n: nat)
    requires d.main.Some? && Opens(d.main.value)
    ensures var d' := AfterSteps(d, d.main.value, newKey, n);
            && d'.main.Some?
            && Opens(d'.main.value)
            && Content(d'.main.value.version, d'.main.value.slots) == Content(d.main.value.version, d.main.value.slots)
  {
    RewriteKeepsKeys(d.main.value, newKey);
  }

  /** Start-up migration: current and missing files are left alone, older ones rewritten under their own key. */
  function Migrated(d: Directory): Directory {
    if d.main.None? || d.main.value.version == V6 then d
    else Directory(Some(Rewritten(d.main.value, d.main.value.header)), None)
  }

  /** Running migration again after a crash at any step reaches the directory an undisturbed migration reaches. */
  lemma {:induction false} MigrationIsRestartable(d: Directory, n: nat)
    requires d.main.Some? && d.main.value.version != V6 && Opens(d.main.value)
    ensures var crashed := AfterSteps(d, d.main.value, d.main.value.header, n);
            && Migrated(crashed) == Migrated(d)
            && Opens(Migrated(crashed).main.value)
            && Content(V6, Migrated(crashed).main.value.slots) == Content(d.main.value.version, d.main.value.slots)
            && Migrated(Migrated(crashed)) == Migrated(crashed)
  {
    RewriteKeepsKeys(d.main.value, d.main.value.header);
  }

  // ----- The operations

  class KeyDirectory {
    var main: Option<KeyFile>
    var tmp: Option<KeyFile>

    constructor (file: Option<KeyFile>)
      ensures main == file && tmp == None
    {
      main, tmp := file, None;
    }

    ghost function Contents(): Directory
      reads this
    {
      Directory(main, tmp)
    }

    /**
     Copies every used slot into the temporary file under the new key, each durable state being
     one of `AfterSteps`.  A slot that the old key does not open stops the copy; the key file is
     not touched either way.
     */
    method CopyResealed(f: KeyFile, oldKey: KeyData, newKey: KeyData) returns (ok: bool)
      modifies this`tmp
      ensures ok <==> AllOpen(f.version, f.slots, oldKey)
      ensures ok ==> tmp == Some(Rewritten(f, newKey))
    {
      var written: seq<Slot> := [];
      tmp := Some(KeyFile(V6, newKey, written));
      var i := 0;
      while i < |f.slots|
        invariant 0 <= i <= |f.slots|
        invariant AllOpen(f.version, f.slots[..i], oldKey)
        invariant written == Reseal(f.version, f.slots[..i], newKey)
        invariant tmp == Some(KeyFile(V6, newKey, written))
        invariant Contents() == AfterSteps(old(Contents()), f, newKey, |written| + 1)
      {
        assert f.slots[..i + 1][..i] == f.slots[..i];
        var slot := f.slots[i];
        if slot.Used? {
          var key := DecryptSlot(f.version, slot, oldKey);
          if key.None? {
            return false;
          }
          written := written + [MakeSlot(newKey, slot.rel, key.value)];
          tmp := Some(KeyFile(V6, newKey, written));
          ResealPrefix(f.version, f.slots, newKey, i + 1);
          assert written == Reseal(f.version, f.slots[..i + 1], newKey);
          assert Reseal(f.version, f.slots, newKey)[..|written|] == written;
        }
        i := i + 1;
      }
      assert f.slots[..|f.slots|] == f.slots;
      return true;
    }

    method Rename()
      requires tmp.Some?
      modifies this
      ensures main == old(tmp) && tmp == None
    {
      main, tmp := tmp, None;
    }

    /** Rotation: succeeds exactly when the file is current and the old key opens every slot; on failure the key file is unchanged. */
    method RotateKey(oldKey: KeyData, newKey: KeyData) returns (ok: bool)
      modifies this
      ensures ok <==> old(main).Some? && old(main).value.version == V6 && AllOpen(V6, old(main).value.slots, oldKey)
      ensures ok ==> Contents() == AfterSteps(old(Contents()), old(main).value, newKey, |Reseal(V6, old(main).value.slots, newKey)| + 2)
      ensures ok ==> main.Some? && main.value.header == newKey && CarriedOver(V6, old(main).value.slots, main.value.slots, newKey)
      ensures !ok ==> main == old(main)
    {
      if main.None? || main.value.version != V6 {
        return false;
      }
      ResealCarriesOver(V6, main.value.slots, newKey);
      ok := CopyResealed(main.value, oldKey, newKey);
      if ok {
        Rename();
      }
    }

    /** Migration of one file under the principal key its header names. */
    method Migrate() returns (ok: bool)
      modifies this
      ensures ok <==> old(main).None? || old(main).value.version == V6
                      || AllOpen(old(main).value.version, old(main).value.slots, old(main).value.header)
      ensures ok ==> Contents() == Migrated(old(Contents()))
      ensures old(main).None? || old(main).value.version == V6 || !ok ==> main == old(main)
      ensures ok && old(main).Some? && old(main).value.version != V6 ==>
        && main.Some? && main.value.version == V6 && main.value.header == old(main).value.header
        && CarriedOver(old(main).value.version, old(main).value.slots, main.value.slots, main.value.header)
    {
      if main.None? || main.value.version == V6 {
        return true;
      }
      ResealCarriesOver(main.value.version, main.value.slots, main.value.header);
      ok := CopyResealed(main.value, main.value.header, main.value.header);
      if ok {
        Rename();
      }
    }
  }
}
