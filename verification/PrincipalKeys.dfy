/**
 Principal keys of a cluster, src/catalog/tde_principal_key.c: the key files of all
 databases, the shared cache in front of them, the default key and its fallback.

 What an entry of a key file protects is of no interest here, so an entry is the key it is
 sealed under and a payload.  Modules `KeyMap` and `WalServerKey` model entries in full.
 */
module PrincipalKeys {
  import opened Bytes
  import opened Keys

  type Oid = int

  /** Pseudo databases: the server (WAL) key and the default key. */
  const GLOBAL: Oid := 1664
  const DEFAULT: Oid := 1663

  /** Providers of the cluster have negative ids, those of one database positive ones. */
  datatype KeyName = KeyName(keyringId: int, name: string)

  datatype PrincipalKey = PrincipalKey(keyName: KeyName, data: KeyData)

  datatype Entry = Entry(sealedUnder: KeyData, payload: int)

  /** Header and entries; the header is signed under the key it names. */
  datatype File = File(keyName: KeyName, signedUnder: KeyData, entries: seq<Entry>)

  /** Which keyring a name is looked up in: the cluster's, or the database's own. */
  function ScopeOf(db: Oid, k: KeyName): Oid {
    if k.keyringId < 0 then GLOBAL else db
  }

  type Keyring = map<(Oid, KeyName), KeyData>

  ghost predicate Provides(keyring: Keyring, db: Oid, k: KeyName, data: KeyData) {
    (ScopeOf(db, k), k) in keyring && keyring[(ScopeOf(db, k), k)] == data
  }

  predicate AllSealedUnder(entries: seq<Entry>, data: KeyData) {
    forall i :: 0 <= i < |entries| ==> entries[i].sealedUnder == data
  }

  /** The keyring still provides the key the header names, and that key opens every entry. */
  ghost predicate FileOk(keyring: Keyring, db: Oid, f: File) {
    Provides(keyring, db, f.keyName, f.signedUnder) && AllSealedUnder(f.entries, f.signedUnder)
  }

  function KeyOf(f: File): PrincipalKey {
    PrincipalKey(f.keyName, f.signedUnder)
  }

  /** Same name and provider; the key data is not compared. */
  predicate SameKey(a: PrincipalKey, b: PrincipalKey) {
    a.keyName == b.keyName
  }

  /** A rotated file: every entry opened and sealed again under the new key. */
  function Resealed(f: File, k: PrincipalKey): File {
    File(k.keyName, k.data, seq(|f.entries|, i requires 0 <= i < |f.entries| => f.entries[i].(sealedUnder := k.data)))
  }

  /** What the entries of a file protect, whatever they are sealed under. */
  function Payloads(f: File): seq<int> {
    seq(|f.entries|, i requires 0 <= i < |f.entries| => f.entries[i].payload)
  }

  lemma {:induction false} ResealedKeepsPayloads(f: File, k: PrincipalKey)
    ensures Payloads(Resealed(f, k)) == Payloads(f)
    ensures AllSealedUnder(Resealed(f, k).entries, k.data)
  {
  }

  /** Every file of `dbs` that names `old` moved to the new key; all other files as they were. */
  function Moved(files: map<Oid, File>, old': KeyName, k: PrincipalKey, dbs: set<Oid>): map<Oid, File> {
    map db | db in files :: if db in dbs && files[db].keyName == old' then Resealed(files[db], k) else files[db]
  }

  /** What a move does to each file: a user of the old key is sealed under the new one with all it protects, others stay. */
  lemma {:induction false} MovedMeans(files: map<Oid, File>, old': KeyName, k: PrincipalKey, dbs: set<Oid>, db: Oid)
    ensures db in Moved(files, old', k, dbs) <==> db in files
    ensures db in files ==> var g := Moved(files, old', k, dbs)[db];
      if db in dbs && files[db].keyName == old'
      then && g.keyName == k.keyName && g.signedUnder == k.data
           && Payloads(g) == Payloads(files[db]) && forall i :: 0 <= i < |g.entries| ==> g.entries[i].sealedUnder == k.data
      else g == files[db]
  {
  }

  lemma {:induction false} MovedAgain(files: map<Oid, File>, old': KeyName, k: PrincipalKey, dbs: set<Oid>, db: Oid)
    ensures var m := Moved(files, old', k, dbs);
            Moved(files, old', k, dbs + {db}) ==
            if db in m && m[db].keyName == old' then m[db := Resealed(m[db], k)] else m
  {
    var m := Moved(files, old', k, dbs);
    if db in files && db in dbs && files[db].keyName == old' {
      assert Resealed(Resealed(files[db], k), k) == Resealed(files[db], k);
    }
  }

  function SetOf(dbs: seq<Oid>): set<Oid> {
    set i | 0 <= i < |dbs| :: dbs[i]
  }

  lemma {:induction false} SetOfAppend(dbs: seq<Oid>, db: Oid)
    ensures SetOf(dbs + [db]) == SetOf(dbs) + {db}
  {
    var a := dbs + [db];
    forall x | x in SetOf(dbs) + {db}
      ensures x in SetOf(a)
    {
      if x == db {
        assert a[|dbs|] == x;
      } else {
        var i :| 0 <= i < |dbs| && dbs[i] == x;
        assert a[i] == x;
      }
    }
  }

  lemma {:induction false} SetOfPrefix(dbs: seq<Oid>, i: nat)
    requires i < |dbs|
    ensures SetOf(dbs[..i + 1]) == SetOf(dbs[..i]) + {dbs[i]}
  {
  }

  /** All files but those of `dbs`, of the server and of the default itself that name the default key. */
  function WithoutUsers(files: map<Oid, File>, dbs: set<Oid>): map<Oid, File>
    requires DEFAULT in files
  {
    map db | db in files && !(db in dbs + {GLOBAL, DEFAULT} && files[db].keyName == files[DEFAULT].keyName) :: files[db]
  }

  /** What is left when the default key is deleted: everything but the default and its users among these. */
  lemma {:induction false} WithoutUsersMeans(files: map<Oid, File>, dbs: set<Oid>, db: Oid)
    requires DEFAULT in files
    ensures db in WithoutUsers(files, dbs)
       <==> db in files && !((db == DEFAULT || db == GLOBAL || db in dbs) && files[db].keyName == files[DEFAULT].keyName)
    ensures db in WithoutUsers(files, dbs) ==> WithoutUsers(files, dbs)[db] == files[db]
  {
    assert db in dbs + {GLOBAL, DEFAULT} <==> db in dbs || db == GLOBAL || db == DEFAULT;
  }

  lemma {:induction false} WithoutUsersBySteps(files: map<Oid, File>, dbs: set<Oid>, users: set<Oid>, serverUses: bool)
    requires DEFAULT in files
    requires forall db :: db in users <==> db in dbs && db in files && files[db].keyName == files[DEFAULT].keyName
    requires serverUses <==> GLOBAL in files && files[GLOBAL].keyName == files[DEFAULT].keyName
    ensures WithoutUsers(files, dbs) == (if serverUses then files - {GLOBAL} else files) - users - {DEFAULT}
  {
    var all, steps := WithoutUsers(files, dbs), (if serverUses then files - {GLOBAL} else files) - users - {DEFAULT};
    forall db: Oid ensures db in all <==> db in steps {
      assert db in dbs + {GLOBAL, DEFAULT} <==> db in dbs || db == GLOBAL || db == DEFAULT;
    }
    assert all.Keys == steps.Keys;
  }

  // ----- The steps, as functions

  /** The keyring, the key files, and the shared cache. */
  datatype World = World(keyring: Keyring, files: map<Oid, File>, cache: map<Oid, PrincipalKey>)

  /**
   Every file's header key opens all its entries; every cached key is the one its file's
   header names; the default key comes from a cluster-wide provider and protects nothing itself.
   */
  ghost predicate Ok(w: World) {
    && (forall db :: db in w.files ==> FileOk(w.keyring, db, w.files[db]))
    && (forall db :: db in w.cache ==> db in w.files && w.cache[db] == KeyOf(w.files[db]))
    && (DEFAULT in w.files ==> w.files[DEFAULT].keyName.keyringId < 0 && w.files[DEFAULT].entries == [])
  }

  /** What a file protected is still protected, in the same order. */
  ghost predicate Kept(was: map<Oid, File>, now: map<Oid, File>) {
    forall db :: db in was && was[db].entries != [] ==> db in now && Payloads(was[db]) <= Payloads(now[db])
  }

  /** A lookup: from the cache, else through the keyring, if the file's header verifies. */
  function Looked(w: World, db: Oid): World {
    if db in w.cache || db !in w.files then w
    else
      var k := w.files[db].keyName;
      if (ScopeOf(db, k), k) in w.keyring && w.keyring[(ScopeOf(db, k), k)] == w.files[db].signedUnder
      then w.(cache := w.cache[db := PrincipalKey(k, w.keyring[(ScopeOf(db, k), k)])])
      else w
  }

  /** A first save truncates the file; a key is only cached if its place is free. */
  function Saved(w: World, db: Oid, key: PrincipalKey): World {
    World(w.keyring, w.files[db := File(key.keyName, key.data, [])], if db in w.cache then w.cache else w.cache[db := key])
  }

  /** Rotation opens every entry with the current key, or fails. */
  function Rotated(w: World, db: Oid, current: PrincipalKey, key: PrincipalKey): World {
    if db in w.files && AllSealedUnder(w.files[db].entries, current.data)
    then World(w.keyring, w.files[db := Resealed(w.files[db], key)], w.cache[db := key])
    else w
  }

  function KeySet(w: World, db: Oid, k: KeyName): World {
    var w1 := Looked(w, db);
    if (ScopeOf(db, k), k) !in w.keyring then w1
    else
      var key := PrincipalKey(k, w.keyring[(ScopeOf(db, k), k)]);
      if db in w1.cache then Rotated(w1, db, w1.cache[db], key) else Saved(w1, db, key)
  }

  function KeyGot(w: World, db: Oid): World {
    var w1 := Looked(w, db);
    if db in w1.cache then w1
    else
      var w2 := Looked(w1, DEFAULT);
      if DEFAULT in w2.cache then Looked(Saved(w2, db, w2.cache[DEFAULT]), db) else w2
  }

  function EntryAdded(w: World, db: Oid, payload: int): World {
    var w1 := KeyGot(w, db);
    if db in w1.cache && db in w1.files
    then w1.(files := w1.files[db := w1.files[db].(entries := w1.files[db].entries + [Entry(w1.cache[db].data, payload)])])
    else w1
  }

  /** The entries of a file without those of a relation. */
  function Without(entries: seq<Entry>, payload: int): (r: seq<Entry>)
    ensures forall e :: e in r <==> e in entries && e.payload != payload
  {
    if entries == [] then []
    else Without(entries[..|entries| - 1], payload) + if entries[|entries| - 1].payload == payload then [] else [entries[|entries| - 1]]
  }

  /** A dropped relation's entry is freed; no key is needed for that. */
  function EntryFreed(w: World, db: Oid, payload: int): World {
    if db in w.files then w.(files := w.files[db := w.files[db].(entries := Without(w.files[db].entries, payload))]) else w
  }

  function RotatedIfSame(w: World, db: Oid, old': PrincipalKey, key: PrincipalKey): World {
    var w1 := Looked(w, db);
    if db in w1.cache && SameKey(old', w1.cache[db]) then Rotated(w1, db, w1.cache[db], key) else w1
  }

  function AllMoved(w: World, dbs: seq<Oid>, old': PrincipalKey, key: PrincipalKey): World {
    if dbs == [] then RotatedIfSame(w, GLOBAL, old', key)
    else RotatedIfSame(AllMoved(w, dbs[..|dbs| - 1], old', key), dbs[|dbs| - 1], old', key)
  }

  function DefaultSet(w: World, k: KeyName, dbs: seq<Oid>): World {
    var w1 := Looked(w, DEFAULT);
    var w2 := KeySet(w1, DEFAULT, k);
    if DEFAULT in w1.cache && (GLOBAL, k) in w.keyring then
      var w3 := Looked(w2, DEFAULT);
      if DEFAULT in w3.cache then AllMoved(w3, dbs, w1.cache[DEFAULT], w3.cache[DEFAULT]) else w3
    else w2
  }

  function FileDeleted(w: World, db: Oid): World {
    w.(files := w.files - {db}, cache := w.cache - {db})
  }

  function KeyDeleted(w: World, db: Oid): World {
    var w1 := Looked(w, db);
    if db !in w1.cache || db !in w1.files then w1
    else if w1.files[db].entries == [] then FileDeleted(w1, db)
    else
      var w2 := Looked(w1, DEFAULT);
      if DEFAULT !in w2.cache || SameKey(w1.cache[db], w2.cache[DEFAULT]) then w2
      else Rotated(w2, db, w1.cache[db], w2.cache[DEFAULT])
  }

  /** One database: it uses another key, it is one more user, or it is a user that protects something. */
  function CollectedOne(w: World, users: seq<Oid>, default': PrincipalKey, db: Oid): (World, Option<seq<Oid>>) {
    var w1 := Looked(w, db);
    if db !in w1.cache || db !in w1.files || !SameKey(default', w1.cache[db]) then (w1, Some(users))
    else if w1.files[db].entries != [] then (w1, None)
    else (w1, Some(users + [db]))
  }

  /** The users of the default key among the databases, unless one of them protects something. */
  function Collected(w: World, default': PrincipalKey, dbs: seq<Oid>): (World, Option<seq<Oid>>) {
    if dbs == [] then (w, Some([]))
    else
      var (w1, users) := Collected(w, default', dbs[..|dbs| - 1]);
      if users.None? then (w1, None) else CollectedOne(w1, users.value, default', dbs[|dbs| - 1])
  }

  lemma {:induction false} CollectedStops(w: World, default': PrincipalKey, dbs: seq<Oid>, i: nat)
    requires i <= |dbs| && Collected(w, default', dbs[..i]).1.None?
    ensures Collected(w, default', dbs) == Collected(w, default', dbs[..i])
    decreases |dbs|
  {
    if i == |dbs| {
      assert dbs[..i] == dbs;
    } else {
      var front := dbs[..|dbs| - 1];
      assert front[..i] == dbs[..i];
      CollectedStops(w, default', front, i);
    }
  }

  function AllDeleted(w: World, users: seq<Oid>): World {
    if users == [] then w else FileDeleted(AllDeleted(w, users[..|users| - 1]), users[|users| - 1])
  }

  function DefaultDeleted(w: World, dbs: seq<Oid>): World {
    var w1 := Looked(w, DEFAULT);
    if DEFAULT !in w1.cache then w1
    else
      var default' := w1.cache[DEFAULT];
      var (w2, users) := Collected(w1, default', dbs);
      if users.None? then w2
      else
        var w3 := Looked(w2, GLOBAL);
        var serverUses := GLOBAL in w3.cache && GLOBAL in w3.files && SameKey(default', w3.cache[GLOBAL]);
        if serverUses && w3.files[GLOBAL].entries != [] then w3
        else FileDeleted(AllDeleted(if serverUses then FileDeleted(w3, GLOBAL) else w3, users.value), DEFAULT)
  }

  // ----- Every run

  datatype Event =
    | Restart
    | CreateKey(scope: Oid, k: KeyName, data: KeyData)
    | SetKey(db: Oid, k: KeyName)
    | GetKey(db: Oid)
    | AddEntry(db: Oid, payload: int)
    | FreeEntry(db: Oid, payload: int)
    | SetDefault(k: KeyName, dbs: seq<Oid>)
    | DeleteKey(db: Oid)
    | DeleteDefault(dbs: seq<Oid>)

  /** The default key is set on its own, from a provider of the cluster; pseudo databases are not in the catalog. */
  predicate EventOk(e: Event) {
    match e
    case SetKey(db, _) => db != DEFAULT
    case AddEntry(db, _) => db != DEFAULT
    case SetDefault(k, dbs) => k.keyringId < 0 && DEFAULT !in dbs
    case DeleteKey(db) => db != DEFAULT && db != GLOBAL
    case DeleteDefault(dbs) => DEFAULT !in dbs && GLOBAL !in dbs
    case _ => true
  }

  function Step(w: World, e: Event): World {
    match e
    case Restart => w.(cache := map[])
    case CreateKey(scope, k, data) => if (scope, k) in w.keyring then w else w.(keyring := w.keyring[(scope, k) := data])
    case SetKey(db, k) => KeySet(w, db, k)
    case GetKey(db) => KeyGot(w, db)
    case AddEntry(db, payload) => EntryAdded(w, db, payload)
    case FreeEntry(db, payload) => EntryFreed(w, db, payload)
    case SetDefault(k, dbs) => DefaultSet(w, k, dbs)
    case DeleteKey(db) => KeyDeleted(w, db)
    case DeleteDefault(dbs) => DefaultDeleted(w, dbs)
  }

  lemma {:induction false} KeptTransitive(a: map<Oid, File>, b: map<Oid, File>, c: map<Oid, File>)
    requires Kept(a, b) && Kept(b, c)
    ensures Kept(a, c)
  {
    forall db | db in a && a[db].entries != [] ensures db in c && Payloads(a[db]) <= Payloads(c[db]) {
      assert Payloads(a[db]) <= Payloads(b[db]);
      assert |b[db].entries| >= |a[db].entries|;
    }
  }

  lemma {:induction false} LookedOk(w: World, db: Oid)
    requires Ok(w)
    ensures var w' := Looked(w, db);
      && Ok(w') && w'.files == w.files && w'.keyring == w.keyring
      && (db in w.files <==> db in w'.cache) && (db in w.files ==> w'.cache[db] == KeyOf(w.files[db]))
      && (forall d :: d in w.cache ==> d in w'.cache)
  {
    if db in w.files {
      assert FileOk(w.keyring, db, w.files[db]);
    }
  }

  lemma {:induction false} SavedOk(w: World, db: Oid, key: PrincipalKey)
    requires Ok(w) && db !in w.files && Provides(w.keyring, db, key.keyName, key.data)
    requires db == DEFAULT ==> key.keyName.keyringId < 0
    ensures Ok(Saved(w, db, key)) && Kept(w.files, Saved(w, db, key).files)
  {
  }

  lemma {:induction false} RotatedOk(w: World, db: Oid, current: PrincipalKey, key: PrincipalKey)
    requires Ok(w) && db in w.files && current == KeyOf(w.files[db]) && Provides(w.keyring, db, key.keyName, key.data)
    requires db == DEFAULT ==> key.keyName.keyringId < 0
    ensures var w' := Rotated(w, db, current, key);
      && Ok(w') && Kept(w.files, w'.files) && w'.keyring == w.keyring
      && w'.files == w.files[db := Resealed(w.files[db], key)] && w'.cache == w.cache[db := key]
  {
    assert FileOk(w.keyring, db, w.files[db]);
    ResealedKeepsPayloads(w.files[db], key);
  }

  lemma {:induction false} KeySetOk(w: World, db: Oid, k: KeyName)
    requires Ok(w) && (db == DEFAULT ==> k.keyringId < 0)
    ensures Ok(KeySet(w, db, k)) && Kept(w.files, KeySet(w, db, k).files) && KeySet(w, db, k).keyring == w.keyring
  {
    LookedOk(w, db);
    if (ScopeOf(db, k), k) in w.keyring {
      var w1, key := Looked(w, db), PrincipalKey(k, w.keyring[(ScopeOf(db, k), k)]);
      if db in w1.cache {
        RotatedOk(w1, db, w1.cache[db], key);
      } else {
        SavedOk(w1, db, key);
      }
    }
  }

  lemma {:induction false} KeyGotOk(w: World, db: Oid)
    requires Ok(w)
    ensures Ok(KeyGot(w, db)) && Kept(w.files, KeyGot(w, db).files) && KeyGot(w, db).keyring == w.keyring
  {
    LookedOk(w, db);
    var w1 := Looked(w, db);
    if db !in w1.cache {
      LookedOk(w1, DEFAULT);
      var w2 := Looked(w1, DEFAULT);
      if DEFAULT in w2.cache {
        assert FileOk(w2.keyring, DEFAULT, w2.files[DEFAULT]);
        SavedOk(w2, db, w2.cache[DEFAULT]);
        LookedOk(Saved(w2, db, w2.cache[DEFAULT]), db);
      }
    }
  }

  lemma {:induction false} OneMoreEntry(w: World, db: Oid, payload: int)
    requires Ok(w) && db in w.files && db != DEFAULT
    ensures var f := w.files[db];
      var w' := w.(files := w.files[db := f.(entries := f.entries + [Entry(f.signedUnder, payload)])]);
      Ok(w') && Kept(w.files, w'.files)
  {
    var f := w.files[db];
    var f' := f.(entries := f.entries + [Entry(f.signedUnder, payload)]);
    assert FileOk(w.keyring, db, f);
    assert FileOk(w.keyring, db, f');
    assert Payloads(f) <= Payloads(f');
  }

  lemma {:induction false} EntryAddedOk(w: World, db: Oid, payload: int)
    requires Ok(w) && db != DEFAULT
    ensures Ok(EntryAdded(w, db, payload)) && Kept(w.files, EntryAdded(w, db, payload).files)
  {
    KeyGotOk(w, db);
    var w1 := KeyGot(w, db);
    if db in w1.cache {
      OneMoreEntry(w1, db, payload);
      KeptTransitive(w.files, w1.files, EntryAdded(w, db, payload).files);
    }
  }

  /** A key that a provider of the cluster gives to every database. */
  ghost predicate GivenToAll(keyring: Keyring, key: PrincipalKey) {
    key.keyName.keyringId < 0 && (GLOBAL, key.keyName) in keyring && keyring[(GLOBAL, key.keyName)] == key.data
  }

  lemma {:induction false} RotatedIfSameOk(w: World, db: Oid, old': PrincipalKey, key: PrincipalKey)
    requires Ok(w) && GivenToAll(w.keyring, key)
    ensures var w' := RotatedIfSame(w, db, old', key); Ok(w') && Kept(w.files, w'.files) && w'.keyring == w.keyring
    ensures RotatedIfSame(w, db, old', key).files
      == if db in w.files && w.files[db].keyName == old'.keyName then w.files[db := Resealed(w.files[db], key)] else w.files
  {
    LookedOk(w, db);
    var w1 := Looked(w, db);
    if db in w1.cache && SameKey(old', w1.cache[db]) {
      RotatedOk(w1, db, w1.cache[db], key);
    }
  }

  lemma {:induction false} AllMovedOk(w: World, dbs: seq<Oid>, old': PrincipalKey, key: PrincipalKey)
    requires Ok(w) && GivenToAll(w.keyring, key)
    ensures var w' := AllMoved(w, dbs, old', key); Ok(w') && Kept(w.files, w'.files) && w'.keyring == w.keyring
  {
    if dbs == [] {
      RotatedIfSameOk(w, GLOBAL, old', key);
    } else {
      var front := dbs[..|dbs| - 1];
      AllMovedOk(w, front, old', key);
      var w1 := AllMoved(w, front, old', key);
      RotatedIfSameOk(w1, dbs[|dbs| - 1], old', key);
      KeptTransitive(w.files, w1.files, AllMoved(w, dbs, old', key).files);
    }
  }

  /** Exactly the files of the server and of the databases that name the old key are moved. */
  lemma {:induction false} AllMovedFiles(w: World, dbs: seq<Oid>, old': PrincipalKey, key: PrincipalKey)
    requires Ok(w) && GivenToAll(w.keyring, key)
    ensures AllMoved(w, dbs, old', key).files == Moved(w.files, old'.keyName, key, {GLOBAL} + SetOf(dbs))
  {
    if dbs == [] {
      RotatedIfSameOk(w, GLOBAL, old', key);
      assert Moved(w.files, old'.keyName, key, {}) == w.files;
      MovedAgain(w.files, old'.keyName, key, {}, GLOBAL);
      assert {} + {GLOBAL} == {GLOBAL} + SetOf(dbs);
    } else {
      var front, db := dbs[..|dbs| - 1], dbs[|dbs| - 1];
      AllMovedFiles(w, front, old', key);
      AllMovedOk(w, front, old', key);
      RotatedIfSameOk(AllMoved(w, front, old', key), db, old', key);
      MovedAgain(w.files, old'.keyName, key, {GLOBAL} + SetOf(front), db);
      SetOfAppend(front, db);
      assert front + [db] == dbs;
      assert {GLOBAL} + SetOf(front) + {db} == {GLOBAL} + SetOf(dbs);
    }
  }

  lemma {:induction false} DefaultSetOk(w: World, k: KeyName, dbs: seq<Oid>)
    requires Ok(w) && k.keyringId < 0
    ensures Ok(DefaultSet(w, k, dbs)) && Kept(w.files, DefaultSet(w, k, dbs).files)
  {
    LookedOk(w, DEFAULT);
    var w1 := Looked(w, DEFAULT);
    KeySetOk(w1, DEFAULT, k);
    var w2 := KeySet(w1, DEFAULT, k);
    if DEFAULT in w1.cache && (GLOBAL, k) in w.keyring {
      LookedOk(w2, DEFAULT);
      var w3 := Looked(w2, DEFAULT);
      if DEFAULT in w3.cache {
        assert FileOk(w3.keyring, DEFAULT, w3.files[DEFAULT]);
        AllMovedOk(w3, dbs, w1.cache[DEFAULT], w3.cache[DEFAULT]);
        KeptTransitive(w.files, w3.files, DefaultSet(w, k, dbs).files);
      }
    }
  }

  lemma {:induction false} FileDeletedOk(w: World, db: Oid)
    requires Ok(w) && (db in w.files ==> w.files[db].entries == [])
    ensures Ok(FileDeleted(w, db)) && Kept(w.files, FileDeleted(w, db).files)
  {
  }

  lemma {:induction false} KeyDeletedOk(w: World, db: Oid)
    requires Ok(w) && db != DEFAULT
    ensures Ok(KeyDeleted(w, db)) && Kept(w.files, KeyDeleted(w, db).files)
  {
    LookedOk(w, db);
    var w1 := Looked(w, db);
    if db in w1.cache {
      if w1.files[db].entries == [] {
        FileDeletedOk(w1, db);
      } else {
        LookedOk(w1, DEFAULT);
        var w2 := Looked(w1, DEFAULT);
        if DEFAULT in w2.cache {
          assert FileOk(w2.keyring, DEFAULT, w2.files[DEFAULT]);
          RotatedOk(w2, db, w1.cache[db], w2.cache[DEFAULT]);
        }
      }
    }
  }

  predicate AllEmpty(files: map<Oid, File>, users: seq<Oid>) {
    forall i :: 0 <= i < |users| ==> users[i] in files ==> files[users[i]].entries == []
  }

  lemma {:induction false} CollectedOk(w: World, default': PrincipalKey, dbs: seq<Oid>)
    requires Ok(w)
    ensures var (w', users) := Collected(w, default', dbs);
      && Ok(w') && w'.files == w.files && w'.keyring == w.keyring
      && (users.Some? ==> AllEmpty(w.files, users.value))
  {
    if dbs != [] {
      CollectedOk(w, default', dbs[..|dbs| - 1]);
      var (w1, users) := Collected(w, default', dbs[..|dbs| - 1]);
      LookedOk(w1, dbs[|dbs| - 1]);
    }
  }

  lemma {:induction false} AllDeletedOk(w: World, users: seq<Oid>)
    requires Ok(w) && AllEmpty(w.files, users)
    ensures var w' := AllDeleted(w, users);
      Ok(w') && Kept(w.files, w'.files) && forall db :: db in w'.files ==> db in w.files && w'.files[db] == w.files[db]
  {
    if users != [] {
      var front, last := users[..|users| - 1], users[|users| - 1];
      assert AllEmpty(w.files, front) by {
        forall i | 0 <= i < |front| ensures front[i] in w.files ==> w.files[front[i]].entries == [] {
          assert front[i] == users[i];
        }
      }
      AllDeletedOk(w, front);
      var w1 := AllDeleted(w, front);
      FileDeletedOk(w1, last);
      KeptTransitive(w.files, w1.files, AllDeleted(w, users).files);
    }
  }

  lemma {:induction false} EndOfDefaultOk(w: World, users: seq<Oid>)
    requires Ok(w) && AllEmpty(w.files, users)
    ensures var w' := FileDeleted(AllDeleted(w, users), DEFAULT); Ok(w') && Kept(w.files, w'.files)
  {
    AllDeletedOk(w, users);
    FileDeletedOk(AllDeleted(w, users), DEFAULT);
    KeptTransitive(w.files, AllDeleted(w, users).files, FileDeleted(AllDeleted(w, users), DEFAULT).files);
  }

  lemma {:induction false} DefaultDeletedOk(w: World, dbs: seq<Oid>)
    requires Ok(w)
    ensures Ok(DefaultDeleted(w, dbs)) && Kept(w.files, DefaultDeleted(w, dbs).files)
  {
    LookedOk(w, DEFAULT);
    var w1 := Looked(w, DEFAULT);
    if DEFAULT in w1.cache {
      var default' := w1.cache[DEFAULT];
      CollectedOk(w1, default', dbs);
      var (w2, users) := Collected(w1, default', dbs);
      LookedOk(w2, GLOBAL);
      var w3 := Looked(w2, GLOBAL);
      var serverUses := GLOBAL in w3.cache && GLOBAL in w3.files && SameKey(default', w3.cache[GLOBAL]);
      if users.Some? && !(serverUses && w3.files[GLOBAL].entries != []) {
        if serverUses {
          FileDeletedOk(w3, GLOBAL);
          var w4 := FileDeleted(w3, GLOBAL);
          EndOfDefaultOk(w4, users.value);
          KeptTransitive(w.files, w4.files, DefaultDeleted(w, dbs).files);
        } else {
          EndOfDefaultOk(w3, users.value);
        }
      }
    }
  }

  ghost predicate Protects(files: map<Oid, File>, db: Oid, payload: int) {
    db in files && payload in Payloads(files[db])
  }

  lemma {:induction false} FreedOk(w: World, db: Oid, payload: int)
    requires Ok(w)
    ensures Ok(EntryFreed(w, db, payload))
    ensures forall d, p :: Protects(EntryFreed(w, db, payload).files, d, p) <==> Protects(w.files, d, p) && !(d == db && p == payload)
  {
    if db in w.files {
      var f := w.files[db];
      var f' := f.(entries := Without(f.entries, payload));
      assert FileOk(w.keyring, db, f);
      forall i | 0 <= i < |f'.entries| ensures f'.entries[i].sealedUnder == f.signedUnder {
        assert f'.entries[i] in f.entries;
      }
      forall p ensures p in Payloads(f') <==> p in Payloads(f) && p != payload {
        PayloadIn(f, p);
        PayloadIn(f', p);
      }
    }
  }

  lemma {:induction false} PayloadIn(f: File, p: int)
    ensures p in Payloads(f) <==> exists e :: e in f.entries && e.payload == p
  {
    if p in Payloads(f) {
      var i :| 0 <= i < |f.entries| && Payloads(f)[i] == p;
      assert f.entries[i] in f.entries;
    }
    if e :| e in f.entries && e.payload == p {
      var i :| 0 <= i < |f.entries| && f.entries[i] == e;
      assert Payloads(f)[i] == p;
    }
  }

  lemma {:induction false} KeptProtects(was: map<Oid, File>, now: map<Oid, File>)
    requires Kept(was, now)
    ensures forall db, p :: Protects(was, db, p) ==> Protects(now, db, p)
  {
    forall db, p | Protects(was, db, p) ensures Protects(now, db, p) {
      var i :| 0 <= i < |Payloads(was[db])| && Payloads(was[db])[i] == p;
      assert Payloads(now[db])[i] == p;
    }
  }

  /** Only freeing an entry ends its protection. */
  lemma {:induction false} StepOk(w: World, e: Event)
    requires Ok(w) && EventOk(e)
    ensures Ok(Step(w, e))
    ensures !e.FreeEntry? ==> Kept(w.files, Step(w, e).files)
    ensures forall db, p :: Protects(w.files, db, p) && e != FreeEntry(db, p) ==> Protects(Step(w, e).files, db, p)
  {
    match e {
      case Restart =>
      case CreateKey(scope, k, data) =>
      case SetKey(db, k) => KeySetOk(w, db, k);
      case GetKey(db) => KeyGotOk(w, db);
      case AddEntry(db, payload) => EntryAddedOk(w, db, payload);
      case FreeEntry(db, payload) => FreedOk(w, db, payload);
      case SetDefault(k, dbs) => DefaultSetOk(w, k, dbs);
      case DeleteKey(db) => KeyDeletedOk(w, db);
      case DeleteDefault(dbs) => DefaultDeletedOk(w, dbs);
    }
    if !e.FreeEntry? {
      KeptProtects(w.files, Step(w, e).files);
    }
  }

  function Run(w: World, es: seq<Event>): World {
    if es == [] then w else Step(Run(w, es[..|es| - 1]), es[|es| - 1])
  }

  /**
   Over every sequence of set, rotate, fallback, add, free, delete and restart steps: a cached key
   is the one its file's header names, that key opens every entry of the file, and whatever was
   protected is still protected unless its own entry was freed.
   */
  lemma {:induction false} RunKeepsKeys(w: World, es: seq<Event>)
    requires Ok(w) && forall i :: 0 <= i < |es| ==> EventOk(es[i])
    ensures Ok(Run(w, es))
    ensures forall db, p :: Protects(w.files, db, p) && FreeEntry(db, p) !in es ==> Protects(Run(w, es).files, db, p)
  {
    if es != [] {
      var front, e := es[..|es| - 1], es[|es| - 1];
      assert forall i :: 0 <= i < |front| ==> front[i] == es[i];
      RunKeepsKeys(w, front);
      assert EventOk(e);
      StepOk(Run(w, front), e);
      forall db, p | Protects(w.files, db, p) && FreeEntry(db, p) !in es ensures Protects(Run(w, es).files, db, p) {
        assert FreeEntry(db, p) !in front && e != FreeEntry(db, p);
      }
    }
  }

  class Cluster {
    var keyring: Keyring
    var files: map<Oid, File>
    var cache: map<Oid, PrincipalKey>

    ghost function State(): World
      reads this
    {
      World(keyring, files, cache)
    }

    ghost predicate Valid()
      reads this
    {
      Ok(State())
    }

    constructor ()
      ensures Valid() && files == map[] && cache == map[] && keyring == map[]
    {
      keyring, files, cache := map[], map[], map[];
    }

    /** A restart empties the shared cache. */
    method Restart()
      requires Valid()
      modifies this`cache
      ensures Valid()
      ensures State() == Step(old(State()), Event.Restart)
      ensures cache == map[]
    {
      cache := map[];
    }

    /** Creating a key never replaces one. */
    method CreateKey(scope: Oid, k: KeyName, data: KeyData) returns (ok: bool)
      requires Valid()
      modifies this`keyring
      ensures Valid()
      ensures ok <==> (scope, k) !in old(keyring)
      ensures keyring == if ok then old(keyring)[(scope, k) := data] else old(keyring)
      ensures State() == Step(old(State()), Event.CreateKey(scope, k, data))
    {
      ok := (scope, k) !in keyring;
      if ok {
        keyring := keyring[(scope, k) := data];
      }
    }

    /** A key is only cached if its slot in the cache is free. */
    method PushToCache(db: Oid, key: PrincipalKey)
      modifies this`cache
      ensures cache == if db in old(cache) then old(cache) else old(cache)[db := key]
    {
      if db !in cache {
        cache := cache[db := key];
      }
    }

    method ClearCache(db: Oid)
      modifies this`cache
      ensures cache == old(cache) - {db}
    {
      cache := cache - {db};
    }

    /** The database's own key: from the cache, else through the keyring from the file's header. */
    method GetNoDefault(db: Oid) returns (key: Option<PrincipalKey>)
      requires Valid()
      modifies this`cache
      ensures Valid()
      ensures key == if db in files then Some(KeyOf(files[db])) else None
      ensures db in files ==> db in cache
      ensures State() == Looked(old(State()), db)
    {
      if db in cache {
        return Some(cache[db]);
      }
      if db !in files {
        return None;
      }
      var header := files[db].keyName;
      var data := keyring[(ScopeOf(db, header), header)];
      assert data == files[db].signedUnder;
      PushToCache(db, PrincipalKey(header, data));
      return Some(cache[db]);
    }

    /** First save for a database: truncates the file, which therefore must hold nothing. */
    method SaveKey(db: Oid, key: PrincipalKey)
      requires Valid()
      requires db !in files
      requires Provides(keyring, db, key.keyName, key.data)
      requires db == DEFAULT ==> key.keyName.keyringId < 0
      modifies this`files, this`cache
      ensures Valid()
      ensures files == old(files)[db := File(key.keyName, key.data, [])]
      ensures State() == Saved(old(State()), db, key)
    {
      files := files[db := File(key.keyName, key.data, [])];
      PushToCache(db, key);
    }

    /** Rotation re-seals every entry, which the cached current key opens. */
    method Rotate(db: Oid, current: PrincipalKey, key: PrincipalKey)
      requires Valid()
      requires db in files && current == KeyOf(files[db])
      requires Provides(keyring, db, key.keyName, key.data)
      requires db == DEFAULT ==> key.keyName.keyringId < 0
      modifies this`files, this`cache
      ensures Valid()
      ensures files == old(files)[db := Resealed(old(files)[db], key)]
      ensures cache.Keys == old(cache.Keys) + {db}
      ensures State() == Rotated(old(State()), db, current, key)
    {
      assert AllSealedUnder(files[db].entries, current.data);
      files := files[db := Resealed(files[db], key)];
      ClearCache(db);
      PushToCache(db, key);
    }

    /** Sets or rotates one database's key; the key must exist in the keyring. */
    method SetOne(db: Oid, k: KeyName) returns (ok: bool)
      requires Valid()
      requires db == DEFAULT ==> k.keyringId < 0
      modifies this`files, this`cache
      ensures Valid()
      ensures ok <==> (if k.keyringId < 0 then GLOBAL else db, k) in keyring
      ensures !ok ==> files == old(files)
      ensures ok ==> files == old(files)[db := if db in old(files) then Resealed(old(files)[db], PrincipalKey(k, keyring[(ScopeOf(db, k), k)]))
                                               else File(k, keyring[(ScopeOf(db, k), k)], [])]
      ensures State() == KeySet(old(State()), db, k)
    {
      var current := GetNoDefault(db);
      if (ScopeOf(db, k), k) !in keyring {
        return false;
      }
      var key := PrincipalKey(k, keyring[(ScopeOf(db, k), k)]);
      if current.None? {
        SaveKey(db, key);
      } else {
        Rotate(db, current.value, key);
      }
      return true;
    }

    /** The key of a database, falling back to the default, which is then written to the database's file. */
    method GetKey(db: Oid) returns (key: Option<PrincipalKey>)
      requires Valid()
      modifies this`files, this`cache
      ensures Valid()
      ensures files == if db !in old(files) && DEFAULT in old(files)
                       then old(files)[db := File(old(files)[DEFAULT].keyName, old(files)[DEFAULT].signedUnder, [])]
                       else old(files)
      ensures key == if db in files then Some(KeyOf(files[db])) else None
      ensures State() == KeyGot(old(State()), db)
    {
      key := GetNoDefault(db);
      if key.None? {
        var default' := GetNoDefault(DEFAULT);
        if default'.None? {
          return None;
        }
        SaveKey(db, default'.value);
        key := GetNoDefault(db);
      }
    }

    /** A new relation or WAL key, sealed under the database's principal key. */
    method AddEntry(db: Oid, payload: int) returns (ok: bool)
      requires Valid() && db != DEFAULT
      modifies this`files, this`cache
      ensures Valid()
      ensures ok <==> db in old(files) || DEFAULT in old(files)
      ensures ok ==> db in files && Payloads(files[db]) == (if db in old(files) then Payloads(old(files)[db]) else []) + [payload]
      ensures forall d :: d in old(files) && d != db ==> d in files && files[d] == old(files)[d]
      ensures State() == EntryAdded(old(State()), db, payload)
    {
      var key := GetKey(db);
      if key.None? {
        return false;
      }
      AppendEntry(db, key.value.data, payload);
      return true;
    }

    method AppendEntry(db: Oid, data: KeyData, payload: int)
      requires Valid() && db in files && db != DEFAULT && data == files[db].signedUnder
      modifies this`files
      ensures Valid()
      ensures files == old(files)[db := old(files)[db].(entries := old(files)[db].entries + [Entry(data, payload)])]
      ensures Payloads(files[db]) == Payloads(old(files)[db]) + [payload]
    {
      OneMoreEntry(State(), db, payload);
      files := files[db := files[db].(entries := files[db].entries + [Entry(data, payload)])];
    }

    method Filter(all: seq<Entry>, payload: int) returns (entries: seq<Entry>)
      ensures entries == Without(all, payload)
    {
      entries := [];
      var i := 0;
      assert all[..0] == [];
      while i < |all|
        invariant 0 <= i <= |all|
        invariant entries == Without(all[..i], payload)
      {
        assert all[..i + 1][..i] == all[..i];
        if all[i].payload != payload {
          entries := entries + [all[i]];
        }
        i := i + 1;
      }
      assert all[..i] == all;
    }

    /** Frees a relation's entry. */
    method FreeEntry(db: Oid, payload: int)
      requires Valid()
      modifies this`files
      ensures Valid() && State() == EntryFreed(old(State()), db, payload)
      ensures forall d, p :: Protects(files, d, p) <==> Protects(old(files), d, p) && !(d == db && p == payload)
    {
      FreedOk(State(), db, payload);
      if db in files {
        var entries := Filter(files[db].entries, payload);
        files := files[db := files[db].(entries := entries)];
      }
    }

    /** Moves one file to the new default if it names the old one. */
    method RotateIfSame(db: Oid, old': PrincipalKey, key: PrincipalKey)
      requires Valid()
      requires db != DEFAULT && GivenToAll(keyring, key)
      modifies this`files, this`cache
      ensures Valid()
      ensures files == if db in old(files) && old(files)[db].keyName == old'.keyName
                       then old(files)[db := Resealed(old(files)[db], key)] else old(files)
      ensures State() == RotatedIfSame(old(State()), db, old', key)
    {
      var principal := GetNoDefault(db);
      if principal.Some? && SameKey(old', principal.value) {
        Rotate(db, principal.value, key);
      }
    }

    /** Exactly the files of the server and of the catalogued databases that name the old key move. */
    method MoveEverywhere(old': PrincipalKey, key: PrincipalKey, dbs: seq<Oid>)
      requires Valid()
      requires DEFAULT in files && key == KeyOf(files[DEFAULT])
      requires DEFAULT !in dbs
      modifies this`files, this`cache
      ensures Valid()
      ensures files == Moved(old(files), old'.keyName, key, {GLOBAL} + SetOf(dbs))
      ensures State() == AllMoved(old(State()), dbs, old', key)
    {
      assert GivenToAll(keyring, key) by {
        assert FileOk(keyring, DEFAULT, files[DEFAULT]);
      }
      AllMovedFiles(State(), dbs, old', key);
      RotateIfSame(GLOBAL, old', key);
      assert dbs[..0] == [];
      var i := 0;
      while i < |dbs|
        invariant 0 <= i <= |dbs|
        invariant Valid() && State() == AllMoved(old(State()), dbs[..i], old', key)
      {
        assert dbs[..i + 1][..i] == dbs[..i];
        RotateIfSame(dbs[i], old', key);
        i := i + 1;
      }
      assert dbs[..|dbs|] == dbs;
    }

    /**
     Sets the default key.  If there was one, exactly the files of the server and of the
     catalogued databases that name it move to the new one, with all they protect.
     */
    method SetDefault(k: KeyName, dbs: seq<Oid>) returns (ok: bool)
      requires Valid() && k.keyringId < 0
      requires DEFAULT !in dbs
      modifies this`files, this`cache
      ensures Valid()
      ensures ok <==> (GLOBAL, k) in keyring
      ensures !ok ==> files == old(files)
      ensures ok ==> var set' := old(files)[DEFAULT := File(k, keyring[(GLOBAL, k)], [])];
        files == if DEFAULT in old(files)
                 then Moved(set', old(files)[DEFAULT].keyName, PrincipalKey(k, keyring[(GLOBAL, k)]), {GLOBAL} + SetOf(dbs))
                 else set'
      ensures State() == DefaultSet(old(State()), k, dbs)
    {
      var existing := GetNoDefault(DEFAULT);
      ok := SetOne(DEFAULT, k);
      if ok && existing.Some? {
        var key := GetNoDefault(DEFAULT);
        MoveEverywhere(existing.value, key.value, dbs);
      }
    }

    method DeleteFile(db: Oid)
      requires Valid()
      modifies this`files, this`cache
      ensures Valid()
      ensures files == old(files) - {db}
      ensures State() == FileDeleted(old(State()), db)
    {
      files := files - {db};
      ClearCache(db);
    }

    /**
     Deletes a database's key: the file goes if it protects nothing, otherwise it moves to the
     default key if that is another one; in every other case nothing changes.
     */
    method DeleteKey(db: Oid) returns (ok: bool)
      requires Valid() && db != DEFAULT && db != GLOBAL
      modifies this`files, this`cache
      ensures Valid()
      ensures ok <==> db in old(files) && (old(files)[db].entries == [] ||
                                           (DEFAULT in old(files) && old(files)[DEFAULT].keyName != old(files)[db].keyName))
      ensures !ok ==> files == old(files)
      ensures ok ==> files == if old(files)[db].entries == [] then old(files) - {db}
                              else old(files)[db := Resealed(old(files)[db], KeyOf(old(files)[DEFAULT]))]
      ensures State() == KeyDeleted(old(State()), db)
    {
      var principal := GetNoDefault(db);
      if principal.None? {
        return false;
      }
      if |files[db].entries| != 0 {
        var default' := GetNoDefault(DEFAULT);
        if default'.None? || SameKey(principal.value, default'.value) {
          return false;
        }
        Rotate(db, principal.value, default'.value);
        return true;
      }
      DeleteFile(db);
      return true;
    }

    /** Does some catalogued database, or the server, keep entries under the default key? */
    ghost predicate DefaultInUse(dbs: set<Oid>)
      requires DEFAULT in files
      reads this
    {
      exists db :: db in dbs && db in files && files[db].keyName == files[DEFAULT].keyName && files[db].entries != []
    }

    /** Looks at one database; `ok` is false if it keeps entries under the default key. */
    method CollectOne(default': PrincipalKey, db: Oid, users: seq<Oid>) returns (ok: bool, now: seq<Oid>)
      requires Valid()
      modifies this`cache
      ensures Valid()
      ensures (State(), if ok then Some(now) else None) == CollectedOne(old(State()), users, default', db)
      ensures ok <==> !(db in files && files[db].keyName == default'.keyName && files[db].entries != [])
      ensures ok ==> now == if db in files && files[db].keyName == default'.keyName then users + [db] else users
    {
      ok, now := true, users;
      var principal := GetNoDefault(db);
      if principal.Some? && SameKey(default', principal.value) {
        if |files[db].entries| != 0 {
          return false, now;
        }
        now := users + [db];
      }
    }

    /** Collects the empty files of catalogued databases that name the default key. */
    method CollectEmptyUsers(default': PrincipalKey, dbs: seq<Oid>) returns (ok: bool, users: seq<Oid>)
      requires Valid() && DEFAULT in files && default' == KeyOf(files[DEFAULT])
      modifies this`cache
      ensures Valid()
      ensures ok <==> !DefaultInUse(SetOf(dbs))
      ensures ok ==> forall db :: db in SetOf(users) <==> db in SetOf(dbs) && db in files && files[db].keyName == default'.keyName
      ensures (State(), if ok then Some(users) else None) == Collected(old(State()), default', dbs)
    {
      ok, users := true, [];
      var i := 0;
      while i < |dbs|
        invariant 0 <= i <= |dbs|
        invariant Valid()
        invariant forall j :: 0 <= j < i && dbs[j] in files && files[dbs[j]].keyName == default'.keyName ==> files[dbs[j]].entries == []
        invariant forall db :: db in SetOf(users) <==> db in SetOf(dbs[..i]) && db in files && files[db].keyName == default'.keyName
        invariant (State(), Some(users)) == Collected(old(State()), default', dbs[..i])
      {
        var db := dbs[i];
        SetOfPrefix(dbs, i);
        SetOfAppend(users, db);
        assert dbs[..i + 1][..i] == dbs[..i];
        ok, users := CollectOne(default', db, users);
        if !ok {
          assert db in SetOf(dbs);
          CollectedStops(old(State()), default', dbs, i + 1);
          return;
        }
        i := i + 1;
      }
      assert dbs[..|dbs|] == dbs;
    }

    /**
     Deletes the default key: refused, before any file changes, exactly when there is none or
     some user of it still protects something; otherwise no catalogued file names it any more.
     */
    method DeleteDefault(dbs: seq<Oid>) returns (ok: bool)
      requires Valid()
      requires DEFAULT !in dbs && GLOBAL !in dbs
      modifies this`files, this`cache
      ensures Valid()
      ensures ok <==> DEFAULT in old(files) && !old(DefaultInUse({GLOBAL} + SetOf(dbs)))
      ensures !ok ==> files == old(files)
      ensures ok ==> files == WithoutUsers(old(files), SetOf(dbs))
      ensures State() == DefaultDeleted(old(State()), dbs)
    {
      DefaultDeletedOk(State(), dbs);
      var default' := GetNoDefault(DEFAULT);
      if default'.None? {
        return false;
      }
      var free, users := CollectEmptyUsers(default'.value, dbs);
      if !free {
        ghost var db :| db in SetOf(dbs) && db in files && files[db].keyName == files[DEFAULT].keyName && files[db].entries != [];
        assert db in {GLOBAL} + SetOf(dbs);
        return false;
      }
      var server := GetNoDefault(GLOBAL);
      var serverUses := server.Some? && SameKey(default'.value, server.value);
      if serverUses && |files[GLOBAL].entries| != 0 {
        assert GLOBAL in {GLOBAL} + SetOf(dbs);
        return false;
      }
      if serverUses {
        DeleteFile(GLOBAL);
      }
      WithoutUsersBySteps(old(files), SetOf(dbs), SetOf(users), serverUses);
      DeleteFiles(users);
      DeleteFile(DEFAULT);
      return true;
    }

    method DeleteFiles(users: seq<Oid>)
      requires Valid()
      modifies this`files, this`cache
      ensures Valid()
      ensures files == old(files) - SetOf(users)
      ensures State() == AllDeleted(old(State()), users)
    {
      var i := 0;
      assert SetOf(users[..0]) == {};
      while i < |users|
        invariant 0 <= i <= |users|
        invariant Valid()
        invariant files == old(files) - SetOf(users[..i])
        invariant State() == AllDeleted(old(State()), users[..i])
      {
        assert users[..i + 1][..i] == users[..i];
        SetOfPrefix(users, i);
        DeleteFile(users[i]);
        i := i + 1;
      }
      assert users[..|users|] == users;
    }
  }
}
