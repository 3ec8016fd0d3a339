/**
 The relation key map file, src/access/open_pg_tde_tdemap.c.

 A file is a header naming the principal key and an array of slots.  Slots of every format
 version share one shape; what differs is which fields the seal authenticates.
 */
module KeyMap {
  import opened Bytes
  import opened Keys
  import opened Seals

  /** Tablespace and relation number; the database is the file's. */
  datatype Rel = Rel(spcOid: nat, relNumber: nat)

  const NO_REL := Rel(0, 0)

  datatype Version = V3 | V4 | V5 | V6

  /** What the seal of a slot authenticates, by format version. */
  datatype Aad =
    | AadV3(rel: Rel)
    | AadV4(cipher: Cipher, rel: Rel)
    | AadV6(cipher: Cipher, rel: Rel, baseIv: Block16)

  datatype Slot = Empty | Used(cipher: Cipher, rel: Rel, baseIv: Block16, seal: Seal<Aad>)

  /** The fields the scan compares; an empty slot is all zeros. */
  function RelOf(s: Slot): Rel {
    if s.Used? then s.rel else NO_REL
  }

  function AadOf(version: Version, s: Slot): Aad
    requires s.Used?
  {
    match version
    case V3 => AadV3(s.rel)
    case V4 => AadV4(s.cipher, s.rel)
    case V5 => AadV4(s.cipher, s.rel)
    case V6 => AadV6(s.cipher, s.rel, s.baseIv)
  }

  /** The key a slot holds; version 3 has no cipher field and always means AES-128. */
  function KeyIn(version: Version, s: Slot): InternalKey
    requires s.Used?
  {
    InternalKey(s.seal.secret, s.baseIv, if version == V3 then Aes128 else s.cipher)
  }

  /** Decrypting a slot under a principal key. */
  function DecryptSlot(version: Version, s: Slot, principalKey: KeyData): Option<InternalKey>
    requires s.Used?
  {
    match Open(s.seal, principalKey, AadOf(version, s))
    case None => None
    case Some(_) => Some(KeyIn(version, s))
  }

  /** A slot of the current version. */
  function MakeSlot(principalKey: KeyData, rel: Rel, key: InternalKey): Slot {
    Used(key.cipher, rel, key.baseIv, Seal(principalKey, AadV6(key.cipher, rel, key.baseIv), key.key))
  }

  lemma {:induction false} MadeSlotsOpen(principalKey: KeyData, rel: Rel, key: InternalKey, other: KeyData)
    ensures DecryptSlot(V6, MakeSlot(principalKey, rel, key), other) == if other == principalKey then Some(key) else None
  {
  }

  /** What opening a slot gives, field by field. */
  lemma {:induction false} OpenedKey(version: Version, s: Slot, principalKey: KeyData)
    requires s.Used? && DecryptSlot(version, s, principalKey).Some?
    ensures var k := DecryptSlot(version, s, principalKey).value;
      && s.seal.under == principalKey && k.key == s.seal.secret && k.baseIv == s.baseIv
      && k.cipher == if version == V3 then Aes128 else s.cipher
  {
  }

  /** Which fields of a slot cannot be changed under its seal, by format version. */
  lemma {:induction false} SealCovers(version: Version, s: Slot, t: Slot, principalKey: KeyData)
    requires s.Used? && t.Used? && t.seal == s.seal && DecryptSlot(version, s, principalKey).Some?
    ensures DecryptSlot(version, t, principalKey).Some?
       <==> && t.rel == s.rel
            && (version != V3 ==> t.cipher == s.cipher)
            && (version == V6 ==> t.baseIv == s.baseIv)
  {
  }

  // ----- The map a slot array stands for

  /** At most one used slot per relation, and none for relation number zero. */
  ghost predicate SlotsOk(slots: seq<Slot>) {
    && (forall i, j :: 0 <= i < j < |slots| && slots[i].Used? && slots[j].Used? ==> slots[i].rel != slots[j].rel)
    && (forall i :: 0 <= i < |slots| && slots[i].Used? ==> slots[i].rel.relNumber != 0)
  }

  /** Every used slot opens under the principal key. */
  ghost predicate AllOpen(version: Version, slots: seq<Slot>, principalKey: KeyData) {
    forall i :: 0 <= i < |slots| && slots[i].Used? ==> DecryptSlot(version, slots[i], principalKey).Some?
  }

  function Content(version: Version, slots: seq<Slot>): map<Rel, InternalKey>
    decreases |slots|
  {
    if slots == [] then map[]
    else
      var m := Content(version, slots[..|slots| - 1]);
      var last := slots[|slots| - 1];
      if last.Used? then m[last.rel := KeyIn(version, last)] else m
  }

  ghost predicate Holds(slots: seq<Slot>, rel: Rel) {
    exists i :: 0 <= i < |slots| && slots[i].Used? && slots[i].rel == rel
  }

  lemma {:induction false} ContentCharacterised(version: Version, slots: seq<Slot>)
    requires SlotsOk(slots)
    ensures forall rel :: rel in Content(version, slots) <==> Holds(slots, rel)
    ensures forall i :: 0 <= i < |slots| && slots[i].Used? ==>
      slots[i].rel in Content(version, slots) && Content(version, slots)[slots[i].rel] == KeyIn(version, slots[i])
    decreases |slots|
  {
    if slots != [] {
      var front, last := slots[..|slots| - 1], slots[|slots| - 1];
      assert forall i :: 0 <= i < |front| ==> front[i] == slots[i];
      ContentCharacterised(version, front);
      forall rel
        ensures rel in Content(version, slots) <==> Holds(slots, rel)
      {
        if Holds(front, rel) {
          var i :| 0 <= i < |front| && front[i].Used? && front[i].rel == rel;
          assert slots[i].Used? && slots[i].rel == rel;
        }
        if Holds(slots, rel) && !(last.Used? && last.rel == rel) {
          var i :| 0 <= i < |slots| && slots[i].Used? && slots[i].rel == rel;
          assert front[i].Used? && front[i].rel == rel;
        }
      }
    }
  }

  /** A map with an entry for each used slot, and no others, is the content. */
  lemma {:induction false} ContentUnique(version: Version, slots: seq<Slot>, m: map<Rel, InternalKey>)
    requires SlotsOk(slots)
    requires forall rel :: rel in m ==> Holds(slots, rel)
    requires forall i :: 0 <= i < |slots| && slots[i].Used? ==> slots[i].rel in m && m[slots[i].rel] == KeyIn(version, slots[i])
    ensures Content(version, slots) == m
  {
    ContentCharacterised(version, slots);
    var c := Content(version, slots);
    forall rel | rel in m
      ensures rel in c && c[rel] == m[rel]
    {
      var i :| 0 <= i < |slots| && slots[i].Used? && slots[i].rel == rel;
    }
    forall rel | rel in c
      ensures rel in m
    {
      assert Holds(slots, rel);
    }
  }

  lemma {:induction false} StillHolds(slots: seq<Slot>, t: seq<Slot>, except: nat, rel: Rel)
    requires |slots| <= |t| && forall j :: 0 <= j < |slots| && j != except ==> t[j] == slots[j]
    requires Holds(slots, rel)
    requires except < |slots| && slots[except].Used? ==> slots[except].rel != rel
    ensures Holds(t, rel)
  {
  }

  function Put(slots: seq<Slot>, i: nat, s: Slot): (t: seq<Slot>)
    requires i <= |slots|
  {
    if i == |slots| then slots + [s] else slots[i := s]
  }

  /** Writing one slot whose relation is used nowhere else updates exactly that relation. */
  lemma {:induction false} ContentAfterPut(version: Version, slots: seq<Slot>, i: nat, s: Slot)
    requires SlotsOk(slots) && i <= |slots| && s.Used? && s.rel.relNumber != 0
    requires i < |slots| ==> slots[i].Empty? || slots[i].rel == s.rel
    requires forall j :: 0 <= j < |slots| && j != i && slots[j].Used? ==> slots[j].rel != s.rel
    ensures var t := Put(slots, i, s);
            && SlotsOk(t)
            && Content(version, t) == Content(version, slots)[s.rel := KeyIn(version, s)]
  {
    var t := Put(slots, i, s);
    ContentCharacterised(version, slots);
    var m := Content(version, slots)[s.rel := KeyIn(version, s)];
    forall rel | rel in m
      ensures Holds(t, rel)
    {
      if rel == s.rel {
        assert t[i] == s;
      } else {
        StillHolds(slots, t, i, rel);
      }
    }
    ContentUnique(version, t, m);
  }

  /** Emptying the one slot of a relation removes exactly that relation. */
  lemma {:induction false} ContentAfterClear(version: Version, slots: seq<Slot>, i: nat)
    requires SlotsOk(slots) && i < |slots| && slots[i].Used?
    ensures SlotsOk(slots[i := Empty])
    ensures Content(version, slots[i := Empty]) == Content(version, slots) - {slots[i].rel}
  {
    var t := slots[i := Empty];
    ContentCharacterised(version, slots);
    var m := Content(version, slots) - {slots[i].rel};
    forall rel | rel in m
      ensures Holds(t, rel)
    {
      StillHolds(slots, t, i, rel);
    }
    ContentUnique(version, t, m);
  }

  // ----- Scans

  /** The first slot at or after `i` that the scan takes for the relation's, or the end. */
  function MatchFrom(slots: seq<Slot>, rel: Rel, i: nat): (r: nat)
    requires i <= |slots|
    ensures i <= r <= |slots|
    ensures r < |slots| ==> RelOf(slots[r]) == rel
    ensures forall j :: i <= j < r ==> RelOf(slots[j]) != rel
    decreases |slots| - i
  {
    if i == |slots| || RelOf(slots[i]) == rel then i else MatchFrom(slots, rel, i + 1)
  }

  /** The first empty slot at or after `i`, or the end. */
  function FreeFrom(slots: seq<Slot>, i: nat): (r: nat)
    requires i <= |slots|
    ensures i <= r <= |slots|
    ensures r < |slots| ==> slots[r].Empty?
    ensures forall j :: i <= j < r ==> slots[j].Used?
    decreases |slots| - i
  {
    if i == |slots| || slots[i].Empty? then i else FreeFrom(slots, i + 1)
  }

  /** What a save does to the slots: overwrite the relation's slot, else reuse the first empty one, else append. */
  function SaveSlots(slots: seq<Slot>, principalKey: KeyData, rel: Rel, key: InternalKey, replaceExisting: bool): seq<Slot> {
    var m := MatchFrom(slots, rel, 0);
    if m == |slots| then Put(slots, FreeFrom(slots, 0), MakeSlot(principalKey, rel, key))
    else if replaceExisting then slots[m := MakeSlot(principalKey, rel, key)]
    else slots
  }

  /** What freeing a relation does: its first used slot becomes empty. */
  function FreeSlots(slots: seq<Slot>, rel: Rel): seq<Slot> {
    var m := MatchFrom(slots, rel, 0);
    if rel != NO_REL && m < |slots| then slots[m := Empty] else slots
  }

  /** One scan finds both the relation's slot and the first empty one before it. */
  method FindSlot(slots: seq<Slot>, rel: Rel) returns (found: bool, at: nat)
    ensures found <==> MatchFrom(slots, rel, 0) < |slots|
    ensures at == if found then MatchFrom(slots, rel, 0) else FreeFrom(slots, 0)
  {
    found := false;
    var free: Option<nat> := None;
    var i := 0;
    while i < |slots|
      invariant 0 <= i <= |slots|
      invariant MatchFrom(slots, rel, 0) == MatchFrom(slots, rel, i)
      invariant FreeFrom(slots, 0) == match free case None => FreeFrom(slots, i) case Some(f) => f
    {
      if RelOf(slots[i]) == rel {
        return true, i;
      }
      if free.None? && slots[i].Empty? {
        free := Some(i);
      }
      i := i + 1;
    }
    at := if free.None? then i else free.value;
  }

  // ----- The slot array refines a partial map

  /** A made slot put at the relation's place, or at a free place or the end if it has none. */
  lemma {:induction false} PutRefines(slots: seq<Slot>, principalKey: KeyData, i: nat, rel: Rel, key: InternalKey)
    requires SlotsOk(slots) && AllOpen(V6, slots, principalKey) && rel.relNumber != 0 && i <= |slots|
    requires i < |slots| ==> slots[i].Empty? || slots[i].rel == rel
    requires forall j :: 0 <= j < |slots| && j != i && slots[j].Used? ==> slots[j].rel != rel
    ensures var t := Put(slots, i, MakeSlot(principalKey, rel, key));
            SlotsOk(t) && AllOpen(V6, t, principalKey) && Content(V6, t) == Content(V6, slots)[rel := key]
  {
    ContentAfterPut(V6, slots, i, MakeSlot(principalKey, rel, key));
  }

  lemma {:induction false} SaveRefines(slots: seq<Slot>, principalKey: KeyData, rel: Rel, key: InternalKey, replaceExisting: bool)
    requires SlotsOk(slots) && AllOpen(V6, slots, principalKey) && rel.relNumber != 0
    ensures var t := SaveSlots(slots, principalKey, rel, key, replaceExisting); var m := Content(V6, slots);
            && SlotsOk(t) && AllOpen(V6, t, principalKey)
            && Content(V6, t) == if rel in m && !replaceExisting then m else m[rel := key]
  {
    ContentCharacterised(V6, slots);
    var at := MatchFrom(slots, rel, 0);
    if at == |slots| {
      forall j | 0 <= j < |slots| && slots[j].Used? ensures slots[j].rel != rel {
        assert RelOf(slots[j]) != rel;
      }
      PutRefines(slots, principalKey, FreeFrom(slots, 0), rel, key);
    } else {
      assert Holds(slots, rel);
      PutRefines(slots, principalKey, at, rel, key);
    }
  }

  /** The file grows only for a relation that has no slot and finds no free one. */
  lemma {:induction false} SaveReusesSlots(slots: seq<Slot>, principalKey: KeyData, rel: Rel, key: InternalKey, replaceExisting: bool)
    requires rel.relNumber != 0
    ensures |SaveSlots(slots, principalKey, rel, key, replaceExisting)|
      == if Holds(slots, rel) || (exists i :: 0 <= i < |slots| && slots[i].Empty?) then |slots| else |slots| + 1
  {
    if Holds(slots, rel) {
      var i :| 0 <= i < |slots| && slots[i].Used? && slots[i].rel == rel;
      assert RelOf(slots[i]) == rel;
    } else {
      forall i | 0 <= i < |slots| ensures RelOf(slots[i]) != rel {
      }
    }
  }

  lemma {:induction false} FreeRefines(slots: seq<Slot>, principalKey: KeyData, rel: Rel)
    requires SlotsOk(slots) && AllOpen(V6, slots, principalKey)
    ensures var t := FreeSlots(slots, rel);
            && SlotsOk(t) && AllOpen(V6, t, principalKey)
            && Content(V6, t) == Content(V6, slots) - {rel}
  {
    ContentCharacterised(V6, slots);
    var at := MatchFrom(slots, rel, 0);
    if rel != NO_REL && at < |slots| {
      ContentAfterClear(V6, slots, at);
    } else {
      forall i | 0 <= i < |slots| && slots[i].Used? ensures slots[i].rel != rel {
        assert RelOf(slots[i]) == slots[i].rel;
      }
    }
  }

  datatype MapOp = Save(rel: Rel, key: InternalKey, replaceExisting: bool) | Free(rel: Rel)

  predicate OpOk(op: MapOp) {
    op.rel.relNumber != 0
  }

  function OnSlots(slots: seq<Slot>, principalKey: KeyData, ops: seq<MapOp>): seq<Slot>
    decreases |ops|
  {
    if ops == [] then slots
    else
      var s := OnSlots(slots, principalKey, ops[..|ops| - 1]);
      match ops[|ops| - 1]
      case Save(rel, key, replaceExisting) => SaveSlots(s, principalKey, rel, key, replaceExisting)
      case Free(rel) => FreeSlots(s, rel)
  }

  function OnMap(m: map<Rel, InternalKey>, ops: seq<MapOp>): map<Rel, InternalKey>
    decreases |ops|
  {
    if ops == [] then m
    else
      var p := OnMap(m, ops[..|ops| - 1]);
      match ops[|ops| - 1]
      case Save(rel, key, replaceExisting) => if rel in p && !replaceExisting then p else p[rel := key]
      case Free(rel) => p - {rel}
  }

  /** Under every sequence of saves and frees the file behaves as a partial map, one slot per relation. */
  lemma {:induction false} FileRefinesMap(principalKey: KeyData, ops: seq<MapOp>)
    requires forall i :: 0 <= i < |ops| ==> OpOk(ops[i])
    ensures var slots := OnSlots([], principalKey, ops);
            SlotsOk(slots) && AllOpen(V6, slots, principalKey) && Content(V6, slots) == OnMap(map[], ops)
    decreases |ops|
  {
    if ops != [] {
      var before := ops[..|ops| - 1];
      FileRefinesMap(principalKey, before);
      var s := OnSlots([], principalKey, before);
      match ops[|ops| - 1]
      case Save(rel, key, replaceExisting) => SaveRefines(s, principalKey, rel, key, replaceExisting);
      case Free(rel) => FreeRefines(s, principalKey, rel);
    }
  }

  /** The first used slot of a relation. */
  method FindEntry(slots: seq<Slot>, rel: Rel) returns (found: Option<Slot>)
    requires SlotsOk(slots)
    ensures found.Some? <==> rel in Content(V6, slots)
    ensures found.Some? ==> found.value in slots && found.value.Used? && found.value.rel == rel
                            && KeyIn(V6, found.value) == Content(V6, slots)[rel]
  {
    ContentCharacterised(V6, slots);
    var i := 0;
    while i < |slots|
      invariant 0 <= i <= |slots|
      invariant forall j :: 0 <= j < i ==> !(slots[j].Used? && slots[j].rel == rel)
    {
      if slots[i].Used? && slots[i].rel == rel {
        return Some(slots[i]);
      }
      i := i + 1;
    }
    return None;
  }

  ghost function InSpace(m: map<Rel, InternalKey>, spcOid: nat): set<Rel> {
    set rel | rel in m && (spcOid == 0 || rel.spcOid == spcOid)
  }

  /** Counting used slots counts relations: all of them for tablespace zero, otherwise one tablespace's. */
  method CountKeys(slots: seq<Slot>, spcOid: nat) returns (count: nat)
    requires SlotsOk(slots)
    ensures count == |set rel | rel in Content(V6, slots) && (spcOid == 0 || rel.spcOid == spcOid)|
  {
    count := 0;
    var i := 0;
    assert InSpace(Content(V6, slots[..0]), spcOid) == {};
    while i < |slots|
      invariant 0 <= i <= |slots|
      invariant count == |InSpace(Content(V6, slots[..i]), spcOid)|
    {
      CountStep(slots, i, spcOid);
      if slots[i].Used? && (spcOid == 0 || slots[i].rel.spcOid == spcOid) {
        count := count + 1;
      }
      i := i + 1;
    }
    assert slots[..|slots|] == slots;
    assert InSpace(Content(V6, slots), spcOid) == set rel | rel in Content(V6, slots) && (spcOid == 0 || rel.spcOid == spcOid);
  }

  lemma {:induction false} CountStep(slots: seq<Slot>, i: nat, spcOid: nat)
    requires SlotsOk(slots) && i < |slots|
    ensures |InSpace(Content(V6, slots[..i + 1]), spcOid)| ==
            |InSpace(Content(V6, slots[..i]), spcOid)| + if slots[i].Used? && (spcOid == 0 || slots[i].rel.spcOid == spcOid) then 1 else 0
  {
    var front, next := slots[..i], slots[..i + 1];
    assert next[..|next| - 1] == front;
    assert SlotsOk(front);
    ContentCharacterised(V6, front);
    var a, b := InSpace(Content(V6, front), spcOid), InSpace(Content(V6, next), spcOid);
    if slots[i].Used? {
      assert !Holds(front, slots[i].rel);
      if spcOid == 0 || slots[i].rel.spcOid == spcOid {
        assert b == a + {slots[i].rel};
      } else {
        assert b == a;
      }
    } else {
      assert b == a;
    }
  }

  // ----- The file, updated in place

  class KeyMapFile {
    var principalKey: KeyData
    var slots: seq<Slot>

    ghost predicate Valid()
      reads this
    {
      SlotsOk(slots) && AllOpen(V6, slots, principalKey)
    }

    /** The partial map from relations to their keys that the file stands for. */
    ghost function Keys(): map<Rel, InternalKey>
      reads this
    {
      Content(V6, slots)
    }

    constructor (principalKey: KeyData)
      ensures Valid() && Keys() == map[] && this.principalKey == principalKey
    {
      this.principalKey := principalKey;
      slots := [];
    }

    /** A replacing save stores the key; a redo save stores it only for a relation without one. */
    method SaveKey(rel: Rel, key: InternalKey, replaceExisting: bool)
      requires Valid() && rel.relNumber != 0
      modifies this`slots
      ensures Valid()
      ensures slots == SaveSlots(old(slots), principalKey, rel, key, replaceExisting)
      ensures Keys() == if rel in old(Keys()) && !replaceExisting then old(Keys()) else old(Keys())[rel := key]
    {
      SaveRefines(slots, principalKey, rel, key, replaceExisting);
      var found, at := FindSlot(slots, rel);
      if !found || replaceExisting {
        var s := MakeSlot(principalKey, rel, key);
        slots := if at == |slots| then slots + [s] else slots[at := s];
      }
    }

    method FreeEntry(rel: Rel)
      requires Valid()
      modifies this`slots
      ensures Valid()
      ensures slots == FreeSlots(old(slots), rel)
      ensures Keys() == old(Keys()) - {rel}
    {
      FreeRefines(slots, principalKey, rel);
      var i := 0;
      while i < |slots|
        invariant 0 <= i <= |slots|
        invariant slots == old(slots)
        invariant rel != NO_REL ==> MatchFrom(slots, rel, 0) == MatchFrom(slots, rel, i)
      {
        if slots[i].Used? && slots[i].rel == rel {
          slots := slots[i := Empty];
          return;
        }
        i := i + 1;
      }
    }

    /** Looking a relation up and decrypting its slot gives the key last stored for it. */
    method GetKey(rel: Rel) returns (key: Option<InternalKey>)
      requires Valid()
      ensures key == if rel in Keys() then Some(Keys()[rel]) else None
    {
      ContentCharacterised(V6, slots);
      var found := FindEntry(slots, rel);
      if found.None? {
        return None;
      }
      var i :| 0 <= i < |slots| && slots[i] == found.value;
      return DecryptSlot(V6, found.value, principalKey);
    }
  }
}
