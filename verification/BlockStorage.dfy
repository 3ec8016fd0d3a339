/**
 The storage manager of relation files, src/smgr/open_pg_tde_smgr.c.

 The reference is storage without encryption: files of pages.  The encrypted storage holds
 encrypted pages, relation keys, and for each open handle an encryption status that is resolved
 on first use.  Every step of one is matched by the other, over any number of relations,
 handles and forks, whatever the cipher makes of the pages.
 */
module BlockStorage {
  import opened Bytes
  import opened Keys
  import opened BlockCrypt

  type Rel = nat

  datatype FileId = FileId(rel: Rel, fork: Fork)

  /** A backend's handle on a relation. */
  datatype Handle = Handle(backend: nat, rel: Rel)

  datatype Status = Unknown | NotEncrypted | Encrypted(key: InternalKey)

  type Files = map<FileId, seq<Page>>

  datatype World = World(files: Files, keys: map<Rel, InternalKey>, status: map<Handle, Status>)

  datatype Event =
    | Create(h: Handle, fork: Fork, key: Option<InternalKey>)
    | Write(h: Handle, fork: Fork, bn: nat, pages: seq<Page>)
    | Extend(h: Handle, fork: Fork, bn: nat, page: Page)
    | ZeroExtend(id: FileId, n: nat)
    | Read(h: Handle, fork: Fork)
    | Open(h: Handle)
    | Close(h: Handle, fork: Fork)
    | CopyInit(rel: Rel)
    | Unlink(id: FileId)
    | Restart(lost: set<Rel>)

  function ZeroPages(n: nat): (r: seq<Page>)
    ensures |r| == n
    ensures forall i :: 0 <= i < n ==> r[i] == ZeroPage()
  {
    seq(n, _ => ZeroPage())
  }

  /** Pages from position `bn` on replaced. */
  function Overwrite(file: seq<Page>, bn: nat, pages: seq<Page>): (r: seq<Page>)
    requires bn + |pages| <= |file|
    ensures |r| == |file|
    ensures forall i :: 0 <= i < |file| ==> r[i] == if bn <= i < bn + |pages| then pages[i - bn] else file[i]
  {
    file[..bn] + pages + file[bn + |pages|..]
  }

  /** A page put behind the end, with zero pages in the gap. */
  function Extended(file: seq<Page>, bn: nat, page: Page): (r: seq<Page>)
    requires |file| <= bn
    ensures |r| == bn + 1 && r[bn] == page
    ensures forall i :: 0 <= i < bn ==> r[i] == if i < |file| then file[i] else ZeroPage()
  {
    file + ZeroPages(bn - |file|) + [page]
  }

  function Without(files: Files, lost: set<Rel>): Files {
    map id | id in files && id.rel !in lost :: files[id]
  }

  // ----- Storage without encryption

  /** A relation is there as long as its main fork is; without it the other forks are about to be unlinked. */
  predicate IsThere(files: Files, rel: Rel) {
    FileId(rel, Main) in files
  }

  /** What md.c allows: no fork is created twice, the main fork first; writes stay inside the file. */
  predicate Allowed(files: Files, e: Event) {
    match e
    case Create(h, fork, _) =>
      if fork == Main then forall f :: FileId(h.rel, f) !in files
      else IsThere(files, h.rel) && FileId(h.rel, fork) !in files
    case Write(h, fork, bn, pages) =>
      IsThere(files, h.rel) && FileId(h.rel, fork) in files && bn + |pages| <= |files[FileId(h.rel, fork)]|
    case Extend(h, fork, bn, _) =>
      IsThere(files, h.rel) && FileId(h.rel, fork) in files && |files[FileId(h.rel, fork)]| <= bn
    case ZeroExtend(id, _) => IsThere(files, id.rel) && id in files
    case Read(h, fork) => IsThere(files, h.rel) && FileId(h.rel, fork) in files
    case CopyInit(rel) => IsThere(files, rel) && FileId(rel, Init) in files
    case _ => true
  }

  function PlainStep(files: Files, e: Event): Files
    requires Allowed(files, e)
  {
    match e
    case Create(h, fork, _) => files[FileId(h.rel, fork) := []]
    case Write(h, fork, bn, pages) =>
      var id := FileId(h.rel, fork);
      files[id := Overwrite(files[id], bn, pages)]
    case Extend(h, fork, bn, page) =>
      var id := FileId(h.rel, fork);
      files[id := Extended(files[id], bn, page)]
    case ZeroExtend(id, n) => files[id := files[id] + ZeroPages(n)]
    case CopyInit(rel) => files[FileId(rel, Main) := files[FileId(rel, Init)]]
    case Unlink(id) => files - {id}
    case Restart(lost) => Without(files, lost)
    case _ => files
  }

  // ----- Encrypted storage

  function StatusOf(w: World, h: Handle): Status {
    if h in w.status then w.status[h] else Unknown
  }

  /** The status after it has been resolved from the relation keys. */
  function Resolved(w: World, h: Handle): Status {
    if StatusOf(w, h) != Unknown then StatusOf(w, h)
    else if h.rel in w.keys then Encrypted(w.keys[h.rel])
    else NotEncrypted
  }

  function Resolve(w: World, h: Handle): World {
    w.(status := w.status[h := Resolved(w, h)])
  }

  /** Pages as they are put on disk from block `bn` on. */
  function Stored(evp: Evp, s: Status, fork: Fork, bn: nat, pages: seq<Page>): (r: seq<Page>)
    ensures |r| == |pages|
  {
    seq(|pages|, i requires 0 <= i < |pages| =>
      if s.Encrypted? then EncryptedPage(evp, s.key, fork, bn + i, pages[i]) else pages[i])
  }

  /** A page as a handle with this status reads it. */
  function Shown(evp: Evp, s: Status, fork: Fork, bn: nat, page: Page): Page {
    if s.Encrypted? then DecryptedPage(evp, s.key, fork, bn, page) else page
  }

  /**
   A key of the main fork is created or a leftover one removed when the fork is created; the
   status of a closed main fork is forgotten; a relation's key goes with its main fork.
   */
  function Step(evp: Evp, w: World, e: Event): World
    requires Allowed(w.files, e)
  {
    match e
    case Create(h, fork, key) =>
      var files := w.files[FileId(h.rel, fork) := []];
      if fork != Main then w.(files := files)
      else if key.None? then World(files, w.keys - {h.rel}, w.status[h := NotEncrypted])
      else World(files, w.keys[h.rel := key.value], w.status[h := Encrypted(key.value)])
    case Write(h, fork, bn, pages) =>
      var id := FileId(h.rel, fork);
      Resolve(w, h).(files := w.files[id := Overwrite(w.files[id], bn, Stored(evp, Resolved(w, h), fork, bn, pages))])
    case Extend(h, fork, bn, page) =>
      var id := FileId(h.rel, fork);
      Resolve(w, h).(files := w.files[id := Extended(w.files[id], bn, Stored(evp, Resolved(w, h), fork, bn, [page])[0])])
    case Read(h, fork) => Resolve(w, h)
    case Open(h) => w.(status := w.status[h := Unknown])
    case Close(h, fork) => if fork == Main then w.(status := w.status[h := Unknown]) else w
    case Unlink(id) => w.(files := w.files - {id}, keys := if id.fork == Main then w.keys - {id.rel} else w.keys)
    case Restart(lost) => w.(files := Without(w.files, lost), status := map[])
    case _ => w.(files := PlainStep(w.files, e))
  }

  /** A handle that has not been closed knows the relation's status. */
  predicate Closed(w: World, rel: Rel, but: Option<Handle>) {
    forall h :: h in w.status && h.rel == rel && Some(h) != but ==> w.status[h] == Unknown
  }

  /** The backends' rule: nobody else holds a relation that is created or unlinked. */
  predicate Respected(w: World, e: Event) {
    match e
    case Create(h, fork, _) => fork == Main ==> Closed(w, h.rel, Some(h))
    case Unlink(id) => id.fork == Main ==> Closed(w, id.rel, None)
    case _ => true
  }

  // ----- What is on disk stands for what the plain storage holds

  /** The status that the relation keys give. */
  function TrueStatus(keys: map<Rel, InternalKey>, rel: Rel): Status {
    if rel in keys then Encrypted(keys[rel]) else NotEncrypted
  }

  ghost predicate StatusesOk(w: World) {
    forall h :: h in w.status ==> w.status[h] == Unknown || w.status[h] == TrueStatus(w.keys, h.rel)
  }

  /** A page stands for another: encrypted for its block, or zeros for a page that was never written. */
  predicate StandsFor(evp: Evp, s: Status, fork: Fork, bn: nat, raw: Page, plain: Page) {
    if s.Encrypted? then raw == EncryptedPage(evp, s.key, fork, bn, plain) || (raw == ZeroPage() && plain == ZeroPage())
    else raw == plain
  }

  predicate FileHolds(evp: Evp, s: Status, fork: Fork, raw: seq<Page>, plain: seq<Page>) {
    |raw| == |plain| && forall i :: 0 <= i < |raw| ==> StandsFor(evp, s, fork, i, raw[i], plain[i])
  }

  ghost predicate Holds(evp: Evp, w: World, plain: Files) {
    && w.files.Keys == plain.Keys
    && StatusesOk(w)
    && (forall id :: id in plain ==> |w.files[id]| == |plain[id]|)
    && (forall id :: id in plain && IsThere(plain, id.rel) ==> FileHolds(evp, TrueStatus(w.keys, id.rel), id.fork, w.files[id], plain[id]))
  }

  lemma {:induction false} ResolvedIsTrue(w: World, h: Handle)
    requires StatusesOk(w)
    ensures Resolved(w, h) == TrueStatus(w.keys, h.rel)
    ensures StatusesOk(Resolve(w, h))
  {
  }

  lemma {:induction false} OverwriteHolds(evp: Evp, s: Status, fork: Fork, raw: seq<Page>, plain: seq<Page>, bn: nat, pages: seq<Page>)
    requires FileHolds(evp, s, fork, raw, plain) && bn + |pages| <= |raw|
    ensures FileHolds(evp, s, fork, Overwrite(raw, bn, Stored(evp, s, fork, bn, pages)), Overwrite(plain, bn, pages))
  {
    var raw', plain' := Overwrite(raw, bn, Stored(evp, s, fork, bn, pages)), Overwrite(plain, bn, pages);
    forall i | 0 <= i < |raw| ensures StandsFor(evp, s, fork, i, raw'[i], plain'[i]) {
      if bn <= i < bn + |pages| {
        assert raw'[i] == Stored(evp, s, fork, bn, pages)[i - bn];
      } else {
        assert StandsFor(evp, s, fork, i, raw[i], plain[i]);
      }
    }
  }

  lemma {:induction false} ExtendedHolds(evp: Evp, s: Status, fork: Fork, raw: seq<Page>, plain: seq<Page>, bn: nat, page: Page)
    requires FileHolds(evp, s, fork, raw, plain) && |raw| <= bn
    ensures FileHolds(evp, s, fork, Extended(raw, bn, Stored(evp, s, fork, bn, [page])[0]), Extended(plain, bn, page))
  {
    var raw', plain' := Extended(raw, bn, Stored(evp, s, fork, bn, [page])[0]), Extended(plain, bn, page);
    forall i | 0 <= i < |raw'| ensures StandsFor(evp, s, fork, i, raw'[i], plain'[i]) {
      if i < |raw| {
        assert StandsFor(evp, s, fork, i, raw[i], plain[i]);
      }
    }
  }

  lemma {:induction false} ZeroExtendHolds(evp: Evp, s: Status, fork: Fork, raw: seq<Page>, plain: seq<Page>, n: nat)
    requires FileHolds(evp, s, fork, raw, plain)
    ensures FileHolds(evp, s, fork, raw + ZeroPages(n), plain + ZeroPages(n))
  {
    forall i | 0 <= i < |raw| + n ensures StandsFor(evp, s, fork, i, (raw + ZeroPages(n))[i], (plain + ZeroPages(n))[i]) {
      if i < |raw| {
        assert StandsFor(evp, s, fork, i, raw[i], plain[i]);
      }
    }
  }

  /** A copy of the init fork is a main fork. */
  lemma {:induction false} CopyHolds(evp: Evp, s: Status, raw: seq<Page>, plain: seq<Page>)
    requires FileHolds(evp, s, Init, raw, plain)
    ensures FileHolds(evp, s, Main, raw, plain)
  {
    forall i | 0 <= i < |raw| ensures StandsFor(evp, s, Main, i, raw[i], plain[i]) {
      assert StandsFor(evp, s, Init, i, raw[i], plain[i]);
      if s.Encrypted? {
        InitForkReadsAsMain(evp, s.key, i, plain[i]);
      }
    }
  }

  /** Replacing one file of a relation that is there, or adding one, on both sides. */
  lemma {:induction false} ReplaceHolds(evp: Evp, w: World, plain: Files, id: FileId, raw: seq<Page>, now: seq<Page>)
    requires Holds(evp, w, plain) && IsThere(plain, id.rel) && FileHolds(evp, TrueStatus(w.keys, id.rel), id.fork, raw, now)
    ensures Holds(evp, w.(files := w.files[id := raw]), plain[id := now])
  {
  }

  lemma {:induction false} CreateMainHolds(evp: Evp, w: World, plain: Files, h: Handle, key: Option<InternalKey>)
    requires Holds(evp, w, plain) && Allowed(plain, Create(h, Main, key)) && Closed(w, h.rel, Some(h))
    ensures Allowed(w.files, Create(h, Main, key))
    ensures Holds(evp, Step(evp, w, Create(h, Main, key)), PlainStep(plain, Create(h, Main, key)))
  {
    var w' := Step(evp, w, Create(h, Main, key));
    forall id | id in plain ensures id.rel != h.rel && TrueStatus(w'.keys, id.rel) == TrueStatus(w.keys, id.rel) {
      assert FileId(id.rel, id.fork) in plain;
    }
  }

  lemma {:induction false} UnlinkHolds(evp: Evp, w: World, plain: Files, id: FileId)
    requires Holds(evp, w, plain) && Respected(w, Unlink(id))
    ensures Holds(evp, Step(evp, w, Unlink(id)), PlainStep(plain, Unlink(id)))
  {
    var w', plain' := Step(evp, w, Unlink(id)), PlainStep(plain, Unlink(id));
    forall j | j in plain' && IsThere(plain', j.rel)
      ensures FileHolds(evp, TrueStatus(w'.keys, j.rel), j.fork, w'.files[j], plain'[j])
    {
      assert j in plain && IsThere(plain, j.rel);
    }
  }

  lemma {:induction false} RestartHolds(evp: Evp, w: World, plain: Files, lost: set<Rel>)
    requires Holds(evp, w, plain)
    ensures Holds(evp, Step(evp, w, Restart(lost)), PlainStep(plain, Restart(lost)))
  {
  }

  lemma {:induction false} WriteHolds(evp: Evp, w: World, plain: Files, e: Event)
    requires Holds(evp, w, plain) && (e.Write? || e.Extend?) && Allowed(plain, e) && Allowed(w.files, e)
    ensures Holds(evp, Step(evp, w, e), PlainStep(plain, e))
  {
    var id := FileId(e.h.rel, e.fork);
    ResolvedIsTrue(w, e.h);
    var s := Resolved(w, e.h);
    if e.Write? {
      OverwriteHolds(evp, s, e.fork, w.files[id], plain[id], e.bn, e.pages);
    } else {
      ExtendedHolds(evp, s, e.fork, w.files[id], plain[id], e.bn, e.page);
    }
    ReplaceHolds(evp, Resolve(w, e.h), plain, id, Step(evp, w, e).files[id], PlainStep(plain, e)[id]);
  }

  /** Every operation keeps the two storages together, whatever the cipher. */
  lemma {:induction false} StepHolds(evp: Evp, w: World, plain: Files, e: Event)
    requires Holds(evp, w, plain) && Allowed(plain, e) && Respected(w, e)
    ensures Allowed(w.files, e)
    ensures Holds(evp, Step(evp, w, e), PlainStep(plain, e))
  {
    assert Allowed(w.files, e) by {
      SameAllowed(evp, w, plain, e);
    }
    match e {
      case Create(h, fork, key) =>
        if fork == Main {
          CreateMainHolds(evp, w, plain, h, key);
        } else {
          ReplaceHolds(evp, w, plain, FileId(h.rel, fork), [], []);
        }
      case Write(h, fork, bn, pages) => WriteHolds(evp, w, plain, e);
      case Extend(h, fork, bn, page) => WriteHolds(evp, w, plain, e);
      case ZeroExtend(id, n) =>
        ZeroExtendHolds(evp, TrueStatus(w.keys, id.rel), id.fork, w.files[id], plain[id], n);
        ReplaceHolds(evp, w, plain, id, w.files[id] + ZeroPages(n), plain[id] + ZeroPages(n));
      case CopyInit(rel) =>
        CopyHolds(evp, TrueStatus(w.keys, rel), w.files[FileId(rel, Init)], plain[FileId(rel, Init)]);
        ReplaceHolds(evp, w, plain, FileId(rel, Main), w.files[FileId(rel, Init)], plain[FileId(rel, Init)]);
      case Unlink(id) => UnlinkHolds(evp, w, plain, id);
      case Restart(lost) => RestartHolds(evp, w, plain, lost);
      case Read(h, fork) => ResolvedIsTrue(w, h);
      case Open(h) =>
      case Close(h, fork) =>
    }
  }

  lemma {:induction false} SameAllowed(evp: Evp, w: World, plain: Files, e: Event)
    requires Holds(evp, w, plain)
    ensures Allowed(w.files, e) <==> Allowed(plain, e)
  {
  }

  // ----- Whole runs

  /** A run that md.c and the backends' rule allow. */
  ghost predicate Run(evp: Evp, w: World, plain: Files, es: seq<Event>)
    decreases |es|
  {
    es == [] || (
      && Allowed(plain, es[0]) && Allowed(w.files, es[0]) && Respected(w, es[0])
      && Run(evp, Step(evp, w, es[0]), PlainStep(plain, es[0]), es[1..]))
  }

  ghost function After(evp: Evp, w: World, plain: Files, es: seq<Event>): (World, Files)
    requires Run(evp, w, plain, es)
    decreases |es|
  {
    if es == [] then (w, plain) else After(evp, Step(evp, w, es[0]), PlainStep(plain, es[0]), es[1..])
  }

  lemma {:induction false} RunHolds(evp: Evp, w: World, plain: Files, es: seq<Event>)
    requires Holds(evp, w, plain) && Run(evp, w, plain, es)
    ensures var (w', plain') := After(evp, w, plain, es); Holds(evp, w', plain')
    decreases |es|
  {
    if es != [] {
      StepHolds(evp, w, plain, es[0]);
      RunHolds(evp, Step(evp, w, es[0]), PlainStep(plain, es[0]), es[1..]);
    }
  }

  /** The page on disk would be taken for one that was never encrypted. */
  predicate LooksUnwritten(s: Status, raw: Page) {
    s.Encrypted? && ZeroHead(raw)
  }

  lemma {:induction false} ShownIff(evp: Evp, s: Status, fork: Fork, bn: nat, raw: Page, plain: Page)
    requires Inverse(evp) && StandsFor(evp, s, fork, bn, raw, plain)
    ensures Shown(evp, s, fork, bn, raw) == plain <==> !LooksUnwritten(s, raw) || raw == plain
  {
    if s.Encrypted? {
      PageRoundTrip(evp, s.key, fork, bn, plain);
      assert ZeroHead(ZeroPage());
    }
  }

  /**
   After any run from an empty cluster, whatever handle reads whatever block of whatever relation
   gets the page that storage without encryption would give it, if and only if the page on disk
   does not start with 32 zero bytes or is that page.
   */
  lemma {:induction false} ReadsReturnThePage(evp: Evp, es: seq<Event>, h: Handle, fork: Fork, bn: nat)
    requires Inverse(evp) && Run(evp, World(map[], map[], map[]), map[], es)
    ensures var (w, plain) := After(evp, World(map[], map[], map[]), map[], es);
      var id := FileId(h.rel, fork);
      && (id in w.files <==> id in plain)
      && (id in plain ==> |w.files[id]| == |plain[id]|)
      && (id in plain && IsThere(plain, h.rel) && bn < |plain[id]| ==>
            (Shown(evp, Resolved(w, h), fork, bn, w.files[id][bn]) == plain[id][bn]
             <==> !LooksUnwritten(Resolved(w, h), w.files[id][bn]) || w.files[id][bn] == plain[id][bn]))
  {
    var start, none: Files := World(map[], map[], map[]), map[];
    RunHolds(evp, start, none, es);
    var (w, plain) := After(evp, start, none, es);
    ResolvedIsTrue(w, h);
    var id := FileId(h.rel, fork);
    if id in plain && IsThere(plain, h.rel) && bn < |plain[id]| {
      assert FileHolds(evp, TrueStatus(w.keys, h.rel), fork, w.files[id], plain[id]);
      ShownIff(evp, Resolved(w, h), fork, bn, w.files[id][bn], plain[id][bn]);
    }
  }

  // ----- From creation on

  /** A page as it has to lie on disk for a relation created with this key, or with none. */
  function OnDisk(evp: Evp, key: Option<InternalKey>, fork: Fork, bn: nat, page: Page): Page {
    match key
    case None => page
    case Some(k) => Crypt(evp, k, true, BlockIv(fork, bn, k.baseIv), page)
  }

  /** The first page of a new relation is on disk encrypted under its key, or as it is if it has none. */
  lemma {:induction false} CreatedAndExtended(evp: Evp, w: World, h: Handle, key: Option<InternalKey>, page: Page)
    requires Allowed(w.files, Create(h, Main, key))
    ensures var w1 := Step(evp, w, Create(h, Main, key));
      && Allowed(w1.files, Extend(h, Main, 0, page))
      && Step(evp, w1, Extend(h, Main, 0, page)).files[FileId(h.rel, Main)] == [OnDisk(evp, key, Main, 0, page)]
  {
  }

  /** The relation's main fork is unlinked or lost. */
  predicate Ends(e: Event, rel: Rel) {
    e == Unlink(FileId(rel, Main)) || (e.Restart? && rel in e.lost)
  }

  lemma {:induction false} StepKeepsKey(evp: Evp, w: World, e: Event, rel: Rel)
    requires Allowed(w.files, e) && IsThere(w.files, rel) && !Ends(e, rel)
    ensures var w' := Step(evp, w, e);
      IsThere(w'.files, rel) && (rel in w'.keys <==> rel in w.keys) && (rel in w.keys ==> w'.keys[rel] == w.keys[rel])
  {
  }

  lemma {:induction false} RunKeepsKey(evp: Evp, w: World, plain: Files, es: seq<Event>, rel: Rel)
    requires Run(evp, w, plain, es) && IsThere(w.files, rel) && forall i :: 0 <= i < |es| ==> !Ends(es[i], rel)
    ensures var (w', _) := After(evp, w, plain, es);
      IsThere(w'.files, rel) && (rel in w'.keys <==> rel in w.keys) && (rel in w.keys ==> w'.keys[rel] == w.keys[rel])
    decreases |es|
  {
    if es != [] {
      assert !Ends(es[0], rel);
      StepKeepsKey(evp, w, es[0], rel);
      forall i | 0 <= i < |es[1..]| ensures !Ends(es[1..][i], rel) {
        assert es[1..][i] == es[i + 1];
      }
      RunKeepsKey(evp, Step(evp, w, es[0]), PlainStep(plain, es[0]), es[1..], rel);
    }
  }

  /** The pages an event puts into a file, and where. */
  predicate Puts(e: Event, fork: Fork, bn: nat, page: Page) {
    match e
    case Write(_, f, at, pages) => f == fork && at <= bn < at + |pages| && pages[bn - at] == page
    case Extend(_, f, at, p) => f == fork && at == bn && p == page
    case _ => false
  }

  lemma {:induction false} PutsOnDisk(evp: Evp, w: World, e: Event, key: Option<InternalKey>, fork: Fork, bn: nat, page: Page)
    requires StatusesOk(w) && Allowed(w.files, e) && Puts(e, fork, bn, page)
    requires if key.Some? then e.h.rel in w.keys && w.keys[e.h.rel] == key.value else e.h.rel !in w.keys
    ensures var id, w' := FileId(e.h.rel, fork), Step(evp, w, e);
      id in w'.files && bn < |w'.files[id]| && w'.files[id][bn] == OnDisk(evp, key, fork, bn, page)
  {
    ResolvedIsTrue(w, e.h);
  }

  /**
   From the creation of a relation with a key until its main fork is unlinked or lost, whatever else
   happens: every handle sees it encrypted under that key, and every page that any handle writes
   or extends, in any fork, lies on disk encrypted under it.  Without a key both are plain.
   */
  lemma {:induction false} RelationStaysUnderItsKey(evp: Evp, w: World, plain: Files, h: Handle, key: Option<InternalKey>, es: seq<Event>)
    requires Holds(evp, w, plain) && Allowed(plain, Create(h, Main, key)) && Respected(w, Create(h, Main, key))
    requires Allowed(w.files, Create(h, Main, key))
    requires var w1, plain1 := Step(evp, w, Create(h, Main, key)), PlainStep(plain, Create(h, Main, key)); Run(evp, w1, plain1, es)
    requires forall i :: 0 <= i < |es| ==> !Ends(es[i], h.rel)
    ensures var (w', _) := After(evp, Step(evp, w, Create(h, Main, key)), PlainStep(plain, Create(h, Main, key)), es);
      && (forall g: Handle :: g.rel == h.rel ==> Resolved(w', g) == if key.Some? then Encrypted(key.value) else NotEncrypted)
      && (forall e: Event, fork, bn: nat, page :: Allowed(w'.files, e) && Puts(e, fork, bn, page) && e.h.rel == h.rel ==>
            bn < |Step(evp, w', e).files[FileId(h.rel, fork)]|
            && Step(evp, w', e).files[FileId(h.rel, fork)][bn] == OnDisk(evp, key, fork, bn, page))
  {
    var created := Create(h, Main, key);
    var w1, plain1 := Step(evp, w, created), PlainStep(plain, created);
    StepHolds(evp, w, plain, created);
    RunHolds(evp, w1, plain1, es);
    RunKeepsKey(evp, w1, plain1, es, h.rel);
    var (w', _) := After(evp, w1, plain1, es);
    forall g: Handle | g.rel == h.rel ensures Resolved(w', g) == if key.Some? then Encrypted(key.value) else NotEncrypted {
      ResolvedIsTrue(w', g);
    }
    forall e: Event, fork, bn: nat, page | Allowed(w'.files, e) && Puts(e, fork, bn, page) && e.h.rel == h.rel
      ensures bn < |Step(evp, w', e).files[FileId(h.rel, fork)]|
              && Step(evp, w', e).files[FileId(h.rel, fork)][bn] == OnDisk(evp, key, fork, bn, page)
    {
      PutsOnDisk(evp, w', e, key, fork, bn, page);
    }
  }

  /** Closing the main fork, and nothing else, makes a handle forget what it knew. */
  lemma {:induction false} CloseForgets(evp: Evp, w: World, h: Handle, fork: Fork)
    ensures var w' := Step(evp, w, Close(h, fork));
      && w'.files == w.files && w'.keys == w.keys
      && StatusOf(w', h) == (if fork == Main then Unknown else StatusOf(w, h))
      && forall g :: g != h ==> StatusOf(w', g) == StatusOf(w, g)
  {
  }

  // ----- The storage manager

  class StorageManager {
    const evp: Evp
    const contexts: Contexts
    var files: Files
    var keys: map<Rel, InternalKey>
    var status: map<Handle, Status>

    ghost function State(): World
      reads this
    {
      World(files, keys, status)
    }

    /** Keys fit the contexts' buffers. */
    ghost predicate KeysFit()
      reads this
    {
      && (forall r :: r in keys ==> |keys[r].key| <= MAX_KEY)
      && (forall h :: h in status && status[h].Encrypted? ==> |status[h].key.key| <= MAX_KEY)
    }

    ghost predicate Valid()
      reads this, contexts.cbc128, contexts.cbc256, contexts.xts128, contexts.xts256
    {
      contexts.Valid() && KeysFit()
    }

    constructor (evp: Evp)
      ensures Valid() && this.evp == evp && State() == World(map[], map[], map[])
    {
      this.evp := evp;
      contexts := new Contexts();
      files, keys, status := map[], map[], map[];
    }

    /** Looks the key up unless the status is known. */
    method ResolveStatus(h: Handle) returns (s: Status)
      requires KeysFit()
      modifies this`status
      ensures KeysFit() && s == old(Resolved(State(), h)) && State() == old(Resolve(State(), h))
      ensures s.Encrypted? ==> |s.key.key| <= MAX_KEY
    {
      if h in status && status[h] != Unknown {
        s := status[h];
        status := status[h := s];
        return;
      }
      s := if h.rel in keys then Encrypted(keys[h.rel]) else NotEncrypted;
      status := status[h := s];
    }

    method CryptBlock(k: InternalKey, enc: bool, fork: Fork, bn: nat, page: Page) returns (out: Page)
      requires contexts.Valid() && |k.key| <= MAX_KEY
      modifies contexts.cbc128, contexts.cbc256, contexts.xts128, contexts.xts256
      ensures contexts.Valid()
      ensures out == Crypt(evp, k, enc, BlockIv(fork, bn, k.baseIv), page)
    {
      var iv := new byte[16](_ => 0);
      CalcBlockIv(fork, bn, k.baseIv, iv);
      out := contexts.CryptPage(evp, k, enc, iv[..], page);
    }

    /** Encrypts a run of pages into a local copy. */
    method EncryptBlocks(k: InternalKey, fork: Fork, bn: nat, pages: seq<Page>) returns (out: seq<Page>)
      requires contexts.Valid() && |k.key| <= MAX_KEY
      modifies contexts.cbc128, contexts.cbc256, contexts.xts128, contexts.xts256
      ensures contexts.Valid()
      ensures out == Stored(evp, Encrypted(k), fork, bn, pages)
    {
      out := [];
      var i := 0;
      while i < |pages|
        invariant 0 <= i <= |pages| && contexts.Valid()
        invariant |out| == i
        invariant forall j :: 0 <= j < i ==> out[j] == EncryptedPage(evp, k, fork, bn + j, pages[j])
      {
        var page := CryptBlock(k, true, fork, bn + i, pages[i]);
        out := out + [page];
        i := i + 1;
      }
    }

    method WriteBlocks(h: Handle, fork: Fork, bn: nat, pages: seq<Page>)
      requires Valid() && Allowed(files, Write(h, fork, bn, pages))
      modifies this`files, this`status, contexts.cbc128, contexts.cbc256, contexts.xts128, contexts.xts256
      ensures Valid() && State() == Step(evp, old(State()), Write(h, fork, bn, pages))
    {
      var id := FileId(h.rel, fork);
      var s := ResolveStatus(h);
      var out := pages;
      if s.Encrypted? {
        out := EncryptBlocks(s.key, fork, bn, pages);
      }
      assert out == Stored(evp, s, fork, bn, pages);
      files := files[id := Overwrite(files[id], bn, out)];
    }

    method ExtendBlock(h: Handle, fork: Fork, bn: nat, page: Page)
      requires Valid() && Allowed(files, Extend(h, fork, bn, page))
      modifies this`files, this`status, contexts.cbc128, contexts.cbc256, contexts.xts128, contexts.xts256
      ensures Valid() && State() == Step(evp, old(State()), Extend(h, fork, bn, page))
    {
      var id := FileId(h.rel, fork);
      var s := ResolveStatus(h);
      var out := page;
      if s.Encrypted? {
        out := CryptBlock(s.key, true, fork, bn, page);
      }
      assert out == Stored(evp, s, fork, bn, [page])[0];
      files := files[id := Extended(files[id], bn, out)];
    }

    /** Decrypts in place; a page that starts with zeros is left as it is. */
    method DecryptBlock(k: InternalKey, fork: Fork, bn: nat, page: Page) returns (out: Page)
      requires contexts.Valid() && |k.key| <= MAX_KEY
      modifies contexts.cbc128, contexts.cbc256, contexts.xts128, contexts.xts256
      ensures contexts.Valid()
      ensures out == DecryptedPage(evp, k, fork, bn, page)
      ensures (forall i :: 0 <= i < 32 ==> page[i] == 0) ==> out == page
      ensures (exists i :: 0 <= i < 32 && page[i] != 0) ==> out == Crypt(evp, k, false, BlockIv(fork, bn, k.baseIv), page)
    {
      var i := 0;
      while i < 32
        invariant 0 <= i <= 32
        invariant forall j :: 0 <= j < i ==> page[j] == 0
      {
        if page[i] != 0 {
          out := CryptBlock(k, false, fork, bn, page);
          return;
        }
        i := i + 1;
      }
      out := page;
    }

    method DecryptBlocks(k: InternalKey, fork: Fork, bn: nat, raw: seq<Page>) returns (out: seq<Page>)
      requires contexts.Valid() && |k.key| <= MAX_KEY
      modifies contexts.cbc128, contexts.cbc256, contexts.xts128, contexts.xts256
      ensures contexts.Valid() && |out| == |raw|
      ensures forall i :: 0 <= i < |raw| ==> out[i] == DecryptedPage(evp, k, fork, bn + i, raw[i])
    {
      out := [];
      var i := 0;
      while i < |raw|
        invariant 0 <= i <= |raw| && contexts.Valid() && |out| == i
        invariant forall j :: 0 <= j < i ==> out[j] == DecryptedPage(evp, k, fork, bn + j, raw[j])
      {
        var page := DecryptBlock(k, fork, bn + i, raw[i]);
        out := out + [page];
        i := i + 1;
      }
    }

    method ReadBlocks(h: Handle, fork: Fork, bn: nat, n: nat) returns (out: seq<Page>)
      requires Valid() && Allowed(files, Read(h, fork)) && bn + n <= |files[FileId(h.rel, fork)]|
      modifies this`status, contexts.cbc128, contexts.cbc256, contexts.xts128, contexts.xts256
      ensures Valid() && State() == Step(evp, old(State()), Read(h, fork))
      ensures |out| == n
      ensures forall i :: 0 <= i < n ==>
        out[i] == Shown(evp, old(Resolved(State(), h)), fork, bn + i, files[FileId(h.rel, fork)][bn + i])
    {
      var raw := files[FileId(h.rel, fork)][bn..bn + n];
      var s := ResolveStatus(h);
      if !s.Encrypted? {
        return raw;
      }
      out := DecryptBlocks(s.key, fork, bn, raw);
    }

    /** Creates a fork; `key` is the new key if the relation is to be encrypted. */
    method CreateFork(h: Handle, fork: Fork, key: Option<InternalKey>)
      requires Valid() && Allowed(files, Create(h, fork, key))
      requires key.Some? ==> |key.value.key| <= MAX_KEY
      modifies this
      ensures Valid() && State() == Step(evp, old(State()), Create(h, fork, key))
      ensures fork == Main && key.Some? ==> keys == old(keys)[h.rel := key.value] && status == old(status)[h := Encrypted(key.value)]
      ensures fork == Main && key.None? ==> keys == old(keys) - {h.rel} && status == old(status)[h := NotEncrypted]
      ensures fork != Main ==> keys == old(keys) && status == old(status)
    {
      files := files[FileId(h.rel, fork) := []];
      if fork != Main {
        return;
      }
      if key.None? {
        keys := keys - {h.rel};
        status := status[h := NotEncrypted];
        return;
      }
      keys := keys[h.rel := key.value];
      status := status[h := Encrypted(key.value)];
    }

    method CloseFork(h: Handle, fork: Fork)
      requires Valid()
      modifies this`status
      ensures Valid() && State() == Step(evp, old(State()), Close(h, fork))
    {
      if fork == Main {
        status := status[h := Unknown];
      }
    }

    /** Unlinks a fork, and the key with the main fork. */
    method UnlinkFork(rel: Rel, fork: Fork)
      requires Valid()
      modifies this`files, this`keys
      ensures Valid() && State() == Step(evp, old(State()), Unlink(FileId(rel, fork)))
      ensures files == old(files) - {FileId(rel, fork)} && keys == if fork == Main then old(keys) - {rel} else old(keys)
    {
      files := files - {FileId(rel, fork)};
      if fork == Main {
        if rel in keys {
          keys := keys - {rel};
        }
      }
    }
  }
}
