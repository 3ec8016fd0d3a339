/** Positions in the WAL, ordered by timeline first (src/include/access/open_pg_tde_xlog_keys.h:17-52). */
module WalLocations {
  datatype WalLocation = WalLocation(tli: nat, lsn: nat)

  const UNSET := WalLocation(0, 0)
  const FIRST := WalLocation(1, 0)
  const MAX_TLI: nat := 0xFFFF_FFFF
  const MAX_LSN: nat := 0xFFFF_FFFF_FFFF_FFFF
  const MAX_LOCATION := WalLocation(MAX_TLI, MAX_LSN)

  predicate Before(a: WalLocation, b: WalLocation) {
    a.tli < b.tli || (a.tli == b.tli && a.lsn < b.lsn)
  }

  /** The position `k` bytes further on the same timeline. */
  function At(l: WalLocation, k: nat): WalLocation {
    WalLocation(l.tli, l.lsn + k)
  }

  predicate IsSet(l: WalLocation) {
    l.tli != 0 && l.lsn != 0
  }
}

/**
 The WAL key file and the per-process range cache of src/access/open_pg_tde_xlog_keys.c.

 The file is the sequence of its entries; the cache, a singly linked list in the program,
 is the sequence of its records.  Keys are held in the clear: sealing them under the
 server key is the subject of module `WalServerKey`.
 */
module WalKeys {
  import opened Bytes
  import opened Keys
  import opened WalLocations

  datatype RangeType = Invalid | Unencrypted | Encrypted

  /** A range's key; its length alone selects the stream cipher. */
  datatype WalKey = WalKey(key: KeyData, baseIv: Block16)

  datatype KeyEntry = KeyEntry(rangeType: RangeType, start: WalLocation, key: WalKey)

  datatype WalRange = WalRange(rangeType: RangeType, key: WalKey, start: WalLocation, end: WalLocation)

  const NO_KEY := WalKey([], ZERO_BLOCK)

  /** The fake range cached when the file holds no key. */
  const STUB := WalRange(Invalid, NO_KEY, UNSET, MAX_LOCATION)

  function RangeOf(e: KeyEntry): WalRange {
    WalRange(e.rangeType, e.key, e.start, MAX_LOCATION)
  }

  /** Neither fresh (start not fixed yet) nor invalidated. */
  predicate Used(e: KeyEntry) {
    e.rangeType != Invalid && IsSet(e.start)
  }

  /** Linking a record behind the last one closes the last one's range. */
  function Link(cache: seq<WalRange>, r: WalRange): (c: seq<WalRange>)
    ensures |c| == |cache| + 1
  {
    if cache == [] then [r]
    else cache[..|cache| - 1] + [cache[|cache| - 1].(end := r.start)] + [r]
  }

  /** Every used entry that starts at or after `from`, linked in file order. */
  function LinkUsed(cache: seq<WalRange>, file: seq<KeyEntry>, from: WalLocation): (c: seq<WalRange>)
    decreases |file|
  {
    if file == [] then cache
    else
      var last := file[|file| - 1];
      var c := LinkUsed(cache, file[..|file| - 1], from);
      if Used(last) && !Before(last.start, from) then Link(c, RangeOf(last)) else c
  }

  function Fetch(cache: seq<WalRange>, file: seq<KeyEntry>, from: WalLocation): (c: seq<WalRange>) {
    if file == [] then Link(cache, STUB) else LinkUsed(cache, file, from)
  }

  /** The cache a process builds from nothing. */
  function Chain(file: seq<KeyEntry>): (c: seq<WalRange>) {
    Fetch([], file, FIRST)
  }

  // ----- What a key file looks like in every run

  /** In file order, the starts of used entries strictly increase. */
  ghost predicate StartsIncrease(file: seq<KeyEntry>) {
    forall i, j :: 0 <= i < j < |file| && Used(file[i]) && Used(file[j]) ==> Before(file[i].start, file[j].start)
  }

  ghost predicate FileOk(file: seq<KeyEntry>) {
    && StartsIncrease(file)
    && (forall i :: 0 <= i < |file| ==> Before(file[i].start, MAX_LOCATION))
    && (forall i :: 0 <= i < |file| && !IsSet(file[i].start) ==> file[i].start == UNSET)
    && (file != [] ==> file[|file| - 1].rangeType != Invalid)
  }

  /** Every used entry starts before `loc`. */
  ghost predicate UsedBefore(file: seq<KeyEntry>, loc: WalLocation) {
    forall i :: 0 <= i < |file| && Used(file[i]) ==> Before(file[i].start, loc)
  }

  // ----- Which key governs a position

  function EncryptionKey(rangeType: RangeType, key: WalKey): Option<WalKey> {
    if rangeType == Encrypted then Some(key) else None
  }

  /** Read off the file: the last used entry that starts at or before the position. */
  function GoverningKey(file: seq<KeyEntry>, l: WalLocation): Option<WalKey>
    decreases |file|
  {
    if file == [] then None
    else
      var last := file[|file| - 1];
      if Used(last) && !Before(l, last.start) then EncryptionKey(last.rangeType, last.key)
      else GoverningKey(file[..|file| - 1], l)
  }

  predicate Covers(r: WalRange, l: WalLocation) {
    !Before(l, r.start) && Before(l, r.end)
  }

  /** Read off the cache: the key of the last record whose range covers the position. */
  function KeyAt(cache: seq<WalRange>, l: WalLocation): Option<WalKey>
    decreases |cache|
  {
    if cache == [] then None
    else
      var last := cache[|cache| - 1];
      if Covers(last, l) then (if IsSet(last.start) then EncryptionKey(last.rangeType, last.key) else None)
      else KeyAt(cache[..|cache| - 1], l)
  }

  /** Cached ranges are non-empty, adjacent and reach to the end of the WAL. */
  ghost predicate Tiles(cache: seq<WalRange>) {
    && (forall i :: 0 <= i < |cache| ==> Before(cache[i].start, cache[i].end))
    && (forall i :: 0 <= i < |cache| - 1 ==> cache[i].end == cache[i + 1].start)
    && (cache != [] ==> cache[|cache| - 1].end == MAX_LOCATION)
  }

  /** Cached ranges are non-empty and none starts before an earlier one ends. */
  ghost predicate InOrder(cache: seq<WalRange>) {
    && (forall i :: 0 <= i < |cache| ==> Before(cache[i].start, cache[i].end))
    && (forall i, j :: 0 <= i < j < |cache| ==> !Before(cache[j].start, cache[i].end))
  }

  lemma {:induction false} TilesInOrder(cache: seq<WalRange>)
    requires Tiles(cache)
    ensures InOrder(cache)
    decreases |cache|
  {
    if |cache| > 1 {
      var front := cache[..|cache| - 1];
      var last, before := cache[|cache| - 1], front[|front| - 1];
      var closed := front[|front| - 1 := before.(end := MAX_LOCATION)];
      assert before.end == last.start;
      assert Tiles(closed) by {
        assert !Before(MAX_LOCATION, last.end);
      }
      TilesInOrder(closed);
      forall i, j | 0 <= i < j < |cache|
        ensures !Before(cache[j].start, cache[i].end)
      {
        if j < |cache| - 1 {
          assert cache[i] == closed[i] && cache[j].start == closed[j].start;
        } else if i < |cache| - 2 {
          assert !Before(closed[|front| - 1].start, closed[i].end);
        }
      }
    }
  }

  lemma {:induction false} LinkTiles(cache: seq<WalRange>, r: WalRange)
    requires Tiles(cache)
    requires cache != [] ==> Before(cache[|cache| - 1].start, r.start)
    requires Before(r.start, r.end) && r.end == MAX_LOCATION
    ensures Tiles(Link(cache, r))
  {
  }

  lemma {:induction false} KeyAtLink(cache: seq<WalRange>, r: WalRange, l: WalLocation)
    requires Tiles(cache)
    requires cache != [] ==> Before(cache[|cache| - 1].start, r.start)
    requires Before(r.start, MAX_LOCATION) && r.end == MAX_LOCATION && IsSet(r.start)
    requires Before(l, MAX_LOCATION)
    ensures KeyAt(Link(cache, r), l) == if Before(l, r.start) then KeyAt(cache, l) else EncryptionKey(r.rangeType, r.key)
  {
    var c := Link(cache, r);
    if cache != [] {
      var front := c[..|c| - 1];
      assert front[..|front| - 1] == cache[..|cache| - 1];
    }
  }

  /** `loc` is the start of a used entry and no used entry starts later. */
  ghost predicate IsLatestStart(file: seq<KeyEntry>, loc: WalLocation) {
    && (exists i :: 0 <= i < |file| && Used(file[i]) && file[i].start == loc)
    && (forall i :: 0 <= i < |file| && Used(file[i]) ==> !Before(loc, file[i].start))
  }

  /** The chain built from a file: it tiles, ends with the latest used entry and gives the governing keys. */
  /** The ranges tile, end with the latest start of a used entry, and give each position the key that governs it. */
  ghost predicate Sound(file: seq<KeyEntry>, c: seq<WalRange>) {
    && Tiles(c)
    && (if c == [] then forall i :: 0 <= i < |file| ==> !Used(file[i]) else IsLatestStart(file, c[|c| - 1].start))
    && (forall l :: Before(l, MAX_LOCATION) ==> KeyAt(c, l) == GoverningKey(file, l))
  }

  lemma {:induction false} LinkGoverns(front: seq<KeyEntry>, last: KeyEntry, c: seq<WalRange>, l: WalLocation)
    requires Tiles(c) && Used(last) && (c != [] ==> Before(c[|c| - 1].start, last.start))
    requires Before(last.start, MAX_LOCATION) && Before(l, MAX_LOCATION) && KeyAt(c, l) == GoverningKey(front, l)
    ensures KeyAt(Link(c, RangeOf(last)), l) == GoverningKey(front + [last], l)
  {
    assert (front + [last])[..|front|] == front;
    KeyAtLink(c, RangeOf(last), l);
  }

  lemma {:induction false} LinkedIsSound(front: seq<KeyEntry>, last: KeyEntry, c: seq<WalRange>)
    requires StartsIncrease(front + [last]) && Before(last.start, MAX_LOCATION) && Used(last) && Sound(front, c)
    ensures Sound(front + [last], Link(c, RangeOf(last)))
  {
    var file := front + [last];
    if c != [] {
      var i :| 0 <= i < |front| && Used(front[i]) && front[i].start == c[|c| - 1].start;
      assert Used(file[i]) && Used(file[|front|]);
    }
    LinkTiles(c, RangeOf(last));
    forall l | Before(l, MAX_LOCATION) ensures KeyAt(Link(c, RangeOf(last)), l) == GoverningKey(file, l) {
      LinkGoverns(front, last, c, l);
    }
    LatestUsed(file);
  }

  lemma {:induction false} UnusedIsSound(front: seq<KeyEntry>, last: KeyEntry, c: seq<WalRange>)
    requires !Used(last) && Sound(front, c)
    ensures Sound(front + [last], c)
  {
    var file := front + [last];
    assert file[..|front|] == front;
    if c != [] {
      var i :| 0 <= i < |front| && Used(front[i]) && front[i].start == c[|c| - 1].start;
      assert Used(file[i]) && file[i].start == c[|c| - 1].start;
    }
  }

  lemma {:induction false} LinkUsedIsSound(file: seq<KeyEntry>)
    requires StartsIncrease(file)
    requires forall i :: 0 <= i < |file| ==> Before(file[i].start, MAX_LOCATION)
    ensures Sound(file, LinkUsed([], file, FIRST))
    decreases |file|
  {
    if file != [] {
      var front, last := file[..|file| - 1], file[|file| - 1];
      assert front + [last] == file;
      assert forall i :: 0 <= i < |front| ==> front[i] == file[i];
      LinkUsedIsSound(front);
      if Used(last) {
        assert !Before(last.start, FIRST);
        LinkedIsSound(front, last, LinkUsed([], front, FIRST));
      } else {
        UnusedIsSound(front, last, LinkUsed([], front, FIRST));
      }
    }
  }

  lemma {:induction false} LatestUsed(file: seq<KeyEntry>)
    requires file != [] && StartsIncrease(file) && Used(file[|file| - 1])
    ensures IsLatestStart(file, file[|file| - 1].start)
  {
  }

  /** A full rebuild caches exactly the governing keys, in ranges that tile the WAL from the first start. */
  lemma {:induction false} ChainIsSound(file: seq<KeyEntry>)
    requires FileOk(file)
    ensures Tiles(Chain(file))
    ensures forall l :: Before(l, MAX_LOCATION) ==> KeyAt(Chain(file), l) == GoverningKey(file, l)
    ensures forall loc :: IsSet(loc) && (Chain(file) == [] || Before(Chain(file)[|Chain(file)| - 1].start, loc)) ==> UsedBefore(file, loc)
  {
    LinkUsedIsSound(file);
    if file != [] {
      var c := Chain(file);
      forall loc | IsSet(loc) && (c == [] || Before(c[|c| - 1].start, loc))
        ensures UsedBefore(file, loc)
      {
        if c != [] {
          assert IsLatestStart(file, c[|c| - 1].start);
        }
      }
    } else {
      forall l | Before(l, MAX_LOCATION)
        ensures KeyAt(Chain(file), l) == GoverningKey(file, l)
      {
        assert Chain(file) == [STUB];
      }
    }
  }

  // ----- Fixing the start of the newest key

  /** The start is written in place; a previous entry that does not start earlier is invalidated. */
  function SetLastLocation(file: seq<KeyEntry>, loc: WalLocation): (f: seq<KeyEntry>)
    requires file != []
    ensures |f| == |file|
  {
    var n := |file|;
    var f := file[n - 1 := file[n - 1].(start := loc)];
    if n > 1 && !Before(f[n - 2].start, loc) then f[n - 2 := f[n - 2].(rangeType := Invalid)] else f
  }

  /** When every used entry starts earlier nothing but the newest entry's start changes. */
  lemma {:induction false} SetLastLocationIsLocal(file: seq<KeyEntry>, loc: WalLocation)
    requires file != [] && FileOk(file) && IsSet(loc) && Before(loc, MAX_LOCATION)
    requires !IsSet(file[|file| - 1].start)
    requires UsedBefore(file, loc)
    ensures var f := SetLastLocation(file, loc);
            && FileOk(f)
            && f[|f| - 1] == file[|file| - 1].(start := loc)
            && (forall i :: 0 <= i < |file| - 1 && file[i].rangeType != Invalid ==> f[i] == file[i])
            && (forall i :: 0 <= i < |file| - 1 && file[i].rangeType == Invalid ==> f[i].rangeType == Invalid)
            && f[..|f| - 1] == file[..|file| - 1]
  {
    var n := |file|;
    if n > 1 && file[n - 2].rangeType != Invalid {
      assert Before(file[n - 2].start, loc);
    }
    if n > 1 && file[n - 2].rangeType == Invalid {
      assert file[n - 2].(rangeType := Invalid) == file[n - 2];
    }
    var f := SetLastLocation(file, loc);
    assert f == file[n - 1 := file[n - 1].(start := loc)];
    forall i, j | 0 <= i < j < |f| && Used(f[i]) && Used(f[j])
      ensures Before(f[i].start, f[j].start)
    {
      assert f[i] == file[i];
    }
  }

  /** After fixing, earlier positions keep their key and later ones have the new one. */
  lemma {:induction false} GoverningAfterFix(file: seq<KeyEntry>, loc: WalLocation, l: WalLocation)
    requires file != [] && FileOk(file) && IsSet(loc) && Before(loc, MAX_LOCATION)
    requires !IsSet(file[|file| - 1].start)
    requires UsedBefore(file, loc)
    ensures GoverningKey(SetLastLocation(file, loc), l) ==
            if Before(l, loc) then GoverningKey(file, l)
            else EncryptionKey(file[|file| - 1].rangeType, file[|file| - 1].key)
  {
    SetLastLocationIsLocal(file, loc);
    var f := SetLastLocation(file, loc);
    assert f[..|f| - 1] == file[..|file| - 1];
  }

  /** Appending a fresh entry changes no key. */
  lemma {:induction false} GoverningAfterCreate(file: seq<KeyEntry>, e: KeyEntry, l: WalLocation)
    requires !IsSet(e.start)
    ensures GoverningKey(file + [e], l) == GoverningKey(file, l)
  {
    assert (file + [e])[..|file|] == file;
  }

  lemma {:induction false} LinkUsedNone(cache: seq<WalRange>, file: seq<KeyEntry>, from: WalLocation)
    requires UsedBefore(file, from)
    ensures LinkUsed(cache, file, from) == cache
    decreases |file|
  {
    if file != [] {
      var front := file[..|file| - 1];
      assert forall i :: 0 <= i < |front| ==> front[i] == file[i];
      LinkUsedNone(cache, front, from);
    }
  }

  /**
   Fetching only from the published start extends an old full chain to the new full chain.
   */
  lemma {:induction false} IncrementalFetch(file: seq<KeyEntry>, loc: WalLocation)
    requires file != [] && FileOk(file) && IsSet(loc) && Before(loc, MAX_LOCATION)
    requires !IsSet(file[|file| - 1].start)
    requires UsedBefore(file, loc)
    ensures var f := SetLastLocation(file, loc); Fetch(Chain(file), f, loc) == Chain(f)
  {
    SetLastLocationIsLocal(file, loc);
    var f := SetLastLocation(file, loc);
    var front := file[..|file| - 1];
    assert f[..|f| - 1] == front;
    assert forall i :: 0 <= i < |front| ==> front[i] == file[i];
    LinkUsedNone(Chain(file), front, loc);
  }

  // ----- The store itself

  class WalKeyStore {
    var file: seq<KeyEntry>
    var cache: seq<WalRange>

    constructor (entries: seq<KeyEntry>)
      ensures file == entries && cache == []
    {
      file := entries;
      cache := [];
    }

    method FreeCache()
      modifies this`cache
      ensures cache == []
    {
      cache := [];
    }

    /** Appends a fresh entry whose start is not fixed yet. */
    method CreateRange(rangeType: RangeType, key: WalKey) returns (range: WalRange)
      modifies this`file
      ensures file == old(file) + [KeyEntry(rangeType, UNSET, key)]
      ensures range == RangeOf(file[|file| - 1])
    {
      range := WalRange(rangeType, key, UNSET, MAX_LOCATION);
      file := file + [KeyEntry(rangeType, UNSET, key)];
    }

    method ReadLastRange() returns (range: Option<WalRange>)
      ensures range == if file == [] then None else Some(RangeOf(file[|file| - 1]))
    {
      if |file| == 0 {
        return None;
      }
      return Some(RangeOf(file[|file| - 1]));
    }

    method SetLastRangeLocation(loc: WalLocation)
      requires file != []
      modifies this`file
      ensures file == SetLastLocation(old(file), loc)
    {
      var last := |file| - 1;
      file := file[last := file[last].(start := loc)];
      if last > 0 {
        var prev := file[last - 1];
        if !Before(prev.start, loc) {
          file := file[last - 1 := prev.(rangeType := Invalid)];
        }
      }
    }

    method AddRange(range: WalRange)
      modifies this`cache
      ensures cache == Link(old(cache), range)
    {
      if |cache| == 0 {
        cache := [range];
      } else {
        var last := |cache| - 1;
        cache := cache[last := cache[last].(end := range.start)] + [range];
      }
    }

    method FetchKeys(from: WalLocation)
      modifies this`cache
      ensures cache == Fetch(old(cache), file, from)
    {
      if |file| == 0 {
        AddRange(STUB);
        return;
      }
      var i := 0;
      while i < |file|
        invariant 0 <= i <= |file|
        invariant cache == LinkUsed(old(cache), file[..i], from)
      {
        var entry := file[i];
        assert file[..i + 1][..i] == file[..i];
        if entry.rangeType != Invalid && IsSet(entry.start) && !Before(entry.start, from) {
          AddRange(RangeOf(entry));
        }
        i := i + 1;
      }
      assert file[..|file|] == file;
    }
  }
}
