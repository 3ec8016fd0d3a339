/**
 The key provider files, src/catalog/tde_keyring.c: one array of records for each database and
 one for the cluster, written in place, every write logged with its position.
 */
module Providers {
  import opened Bytes

  const INT32_MAX: nat := 0x7fff_ffff

  datatype Kind = Deleted | FileKeyring | Kmip | OpenBao

  datatype Record = Record(id: int, name: string, kind: Kind, options: string)

  /** The record that a hole in a file reads as. */
  const BLANK: Record := Record(0, "", Deleted, "")

  datatype Owner = Cluster | Database(oid: nat)

  type Files = map<Owner, seq<Record>>

  /** A logged write: whose file, which slot, the whole record. */
  datatype Logged = Logged(owner: Owner, slot: nat, record: Record)

  function FileOf(files: Files, o: Owner): seq<Record> {
    if o in files then files[o] else []
  }

  predicate Live(r: Record) {
    r.kind != Deleted
  }

  // ----- Writing at a position

  /** A slot written; beyond the end, the gap reads as blank records. */
  function Put(file: seq<Record>, slot: nat, r: Record): (f: seq<Record>)
    ensures |f| == Max(|file|, slot + 1) && f[slot] == r
    ensures forall i :: 0 <= i < |file| && i != slot ==> f[i] == file[i]
  {
    if slot < |file| then file[slot := r]
    else file + seq(slot - |file|, _ => BLANK) + [r]
  }

  function Redo(files: Files, l: Logged): Files {
    files[l.owner := Put(FileOf(files, l.owner), l.slot, l.record)]
  }

  function Replay(files: Files, log: seq<Logged>): Files {
    if log == [] then files else Redo(Replay(files, log[..|log| - 1]), log[|log| - 1])
  }

  // ----- The operations

  /** The largest id in use or ever used, without its sign. */
  function MaxId(file: seq<Record>): nat {
    if file == [] then 0 else Max(MaxId(file[..|file| - 1]), Abs(file[|file| - 1].id))
  }

  function Abs(x: int): nat {
    if x < 0 then -x else x
  }

  predicate Names(r: Record, name: string) {
    Live(r) && r.name == name
  }

  /** The first live record with exactly this name, from slot `from` on. */
  function Find(file: seq<Record>, name: string, from: nat): (r: Option<nat>)
    requires from <= |file|
    ensures r.Some? ==> from <= r.value < |file| && Names(file[r.value], name)
    ensures r.Some? ==> forall i :: from <= i < r.value ==> !Names(file[i], name)
    ensures r.None? ==> forall i :: from <= i < |file| ==> !Names(file[i], name)
    decreases |file| - from
  {
    if from == |file| then None
    else if Names(file[from], name) then Some(from)
    else Find(file, name, from + 1)
  }

  datatype Error = InvalidKind | Exists | OutOfRange | NotFound | IdMismatch | InUse

  datatype Outcome = Done(l: Logged) | Failed(error: Error)

  datatype Event =
    | Add(owner: Owner, name: string, kind: Kind, options: string)
    | Change(owner: Owner, id: int, name: string, kind: Kind, options: string)
    | Delete(owner: Owner, name: string)

  /** What an operation logs and writes, or why it fails. */
  function Decide(files: Files, e: Event): Outcome {
    var file := FileOf(files, e.owner);
    match e
    case Add(o, name, kind, options) =>
      if kind == Deleted then Failed(InvalidKind)
      else if Find(file, name, 0).Some? then Failed(Exists)
      else if MaxId(file) == INT32_MAX then Failed(OutOfRange)
      else
        var n := MaxId(file) + 1;
        Done(Logged(o, |file|, Record(if o == Cluster then -n else n, name, kind, options)))
    case Change(o, id, name, kind, options) =>
      if kind == Deleted then Failed(InvalidKind)
      else
        var at := Find(file, name, 0);
        if at.None? then Failed(NotFound)
        else if id != file[at.value].id then Failed(IdMismatch)
        else Done(Logged(o, at.value, Record(id, name, kind, options)))
    case Delete(o, name) =>
      var at := Find(file, name, 0);
      if at.None? then Failed(NotFound)
      else Done(Logged(o, at.value, Record(file[at.value].id, "", Deleted, "")))
  }

  datatype World = World(files: Files, log: seq<Logged>)

  function Step(w: World, e: Event): World {
    match Decide(w.files, e)
    case Done(l) => World(Redo(w.files, l), w.log + [l])
    case Failed(_) => w
  }

  function Run(w: World, es: seq<Event>): World {
    if es == [] then w else Step(Run(w, es[..|es| - 1]), es[|es| - 1])
  }

  lemma {:induction false} RunAppend(w: World, a: seq<Event>, b: seq<Event>)
    ensures Run(w, a + b) == Run(Run(w, a), b)
    decreases |b|
  {
    if b == [] {
      assert a + b == a;
    } else {
      assert (a + b)[..|a + b| - 1] == a + b[..|b| - 1];
      RunAppend(w, a, b[..|b| - 1]);
    }
  }

  // ----- Ids and names

  function SlotId(o: Owner, slot: nat): int {
    if o == Cluster then -(slot + 1) else slot + 1
  }

  /** A slot's number is its id; no two live records have one name. */
  ghost predicate FileOk(o: Owner, file: seq<Record>) {
    && |file| <= INT32_MAX
    && (forall i :: 0 <= i < |file| ==> file[i].id == SlotId(o, i))
    && (forall i, j :: 0 <= i < j < |file| && Live(file[i]) && Live(file[j]) ==> file[i].name != file[j].name)
  }

  ghost predicate Ok(files: Files) {
    forall o :: o in files ==> FileOk(o, files[o])
  }

  lemma {:induction false} MaxIdIsLength(o: Owner, file: seq<Record>)
    requires forall i :: 0 <= i < |file| ==> file[i].id == SlotId(o, i)
    ensures MaxId(file) == |file|
  {
    if file != [] {
      MaxIdIsLength(o, file[..|file| - 1]);
    }
  }

  /** Once given, a slot's id never changes, and a deleted slot is never taken again. */
  ghost predicate Follows(was: seq<Record>, now: seq<Record>) {
    && |was| <= |now|
    && (forall i :: 0 <= i < |was| ==> now[i].id == was[i].id)
    && (forall i :: 0 <= i < |was| && !Live(was[i]) ==> now[i] == was[i])
  }

  /** Names stay different if a slot is deleted, keeps its name, or is new with a new name. */
  lemma {:induction false} PutOk(o: Owner, file: seq<Record>, slot: nat, r: Record)
    requires FileOk(o, file) && slot <= |file| && slot < INT32_MAX && r.id == SlotId(o, slot)
    requires slot < |file| ==> Live(file[slot]) && (Live(r) ==> r.name == file[slot].name)
    requires slot == |file| ==> forall i :: 0 <= i < |file| ==> !Names(file[i], r.name)
    ensures FileOk(o, Put(file, slot, r)) && Follows(file, Put(file, slot, r))
  {
    var f := Put(file, slot, r);
    forall i, j | 0 <= i < j < |f| && Live(f[i]) && Live(f[j]) ensures f[i].name != f[j].name {
      if j == |file| {
        assert !Names(file[i], r.name);
      }
    }
  }

  /** An operation is logged at a slot of its owner's file or right behind it, and keeps ids and names. */
  lemma {:induction false} DecideOk(files: Files, e: Event)
    requires Ok(files) && Decide(files, e).Done?
    ensures var l := Decide(files, e).l; var file := FileOf(files, l.owner);
      && l.slot <= |file|
      && FileOk(l.owner, Put(file, l.slot, l.record))
      && Follows(file, Put(file, l.slot, l.record))
  {
    var l := Decide(files, e).l;
    var file := FileOf(files, l.owner);
    assert FileOk(l.owner, file);
    MaxIdIsLength(l.owner, file);
    PutOk(l.owner, file, l.slot, l.record);
  }

  lemma {:induction false} StepOk(w: World, e: Event)
    requires Ok(w.files)
    ensures Ok(Step(w, e).files)
    ensures forall o :: Follows(FileOf(w.files, o), FileOf(Step(w, e).files, o))
  {
    if Decide(w.files, e).Done? {
      DecideOk(w.files, e);
    }
  }

  /** Over every run from empty files: slot numbers are ids, live names differ, ids are never reused. */
  lemma {:induction false} RunOk(w: World, es: seq<Event>)
    requires Ok(w.files)
    ensures Ok(Run(w, es).files)
    ensures forall o :: Follows(FileOf(w.files, o), FileOf(Run(w, es).files, o))
  {
    if es != [] {
      var front := es[..|es| - 1];
      RunOk(w, front);
      StepOk(Run(w, front), es[|es| - 1]);
      forall o ensures Follows(FileOf(w.files, o), FileOf(Run(w, es).files, o)) {
        FollowsTransitive(FileOf(w.files, o), FileOf(Run(w, front).files, o), FileOf(Run(w, es).files, o));
      }
    }
  }

  lemma {:induction false} FollowsTransitive(a: seq<Record>, b: seq<Record>, c: seq<Record>)
    requires Follows(a, b) && Follows(b, c)
    ensures Follows(a, c)
  {
  }

  lemma {:induction false} AddedId(files: Files, e: Event, file: seq<Record>)
    requires e.Add? && Decide(files, e).Done? && FileOf(files, e.owner) == file && FileOk(e.owner, file)
    ensures Decide(files, e).l.record.id == SlotId(e.owner, |file|)
    ensures |file| < INT32_MAX
  {
    MaxIdIsLength(e.owner, file);
  }

  /** An id given out after some point of a run was not in any file at that point, live or deleted. */
  lemma {:induction false} IdsAreNew(w: World, es: seq<Event>, e: Event, slot: nat)
    requires Ok(w.files) && e.Add? && Decide(Run(w, es).files, e).Done?
    requires slot < |FileOf(w.files, e.owner)|
    ensures Decide(Run(w, es).files, e).l.record.id != FileOf(w.files, e.owner)[slot].id
    ensures Abs(Decide(Run(w, es).files, e).l.record.id) <= INT32_MAX
  {
    RunOk(w, es);
    var was, now := FileOf(w.files, e.owner), FileOf(Run(w, es).files, e.owner);
    assert FileOk(e.owner, now) && FileOk(e.owner, was);
    assert Follows(was, now);
    AddedId(Run(w, es).files, e, now);
  }

  // ----- A file is a map from names to providers

  /** The live records by name. */
  function Named(file: seq<Record>): map<string, Record> {
    map name | name in LiveNames(file) && Find(file, name, 0).Some? :: file[Find(file, name, 0).value]
  }

  function LiveNames(file: seq<Record>): set<string> {
    set i | 0 <= i < |file| && Live(file[i]) :: file[i].name
  }

  lemma {:induction false} NamedIff(o: Owner, file: seq<Record>, name: string, i: nat)
    requires FileOk(o, file) && i < |file| && Names(file[i], name)
    ensures name in Named(file) && Named(file)[name] == file[i]
  {
    var at := Find(file, name, 0);
    assert at.Some? && at.value <= i;
    assert name in LiveNames(file);
  }

  lemma {:induction false} NotNamed(file: seq<Record>, name: string)
    requires forall i :: 0 <= i < |file| ==> !Names(file[i], name)
    ensures name !in Named(file)
  {
    assert Find(file, name, 0).None?;
  }

  /** Writing a slot that is free or has this name updates the map at the name, or removes it from there. */
  lemma {:induction false} NamedAfterPut(o: Owner, file: seq<Record>, slot: nat, r: Record, name: string)
    requires FileOk(o, file) && slot <= |file| && FileOk(o, Put(file, slot, r))
    requires if slot < |file| then Names(file[slot], name) else name !in Named(file)
    requires Live(r) ==> r.name == name
    ensures Named(Put(file, slot, r)) == if Live(r) then Named(file)[name := r] else Named(file) - {name}
  {
    var f := Put(file, slot, r);
    var want := if Live(r) then Named(file)[name := r] else Named(file) - {name};
    forall n ensures n in Named(f) <==> n in want
             ensures n in Named(f) ==> Named(f)[n] == want[n]
    {
      SameAt(o, file, f, slot, n, name, want);
    }
  }

  lemma {:induction false} SameAt(o: Owner, file: seq<Record>, f: seq<Record>, slot: nat, n: string, name: string, want: map<string, Record>)
    requires FileOk(o, file) && FileOk(o, f) && slot <= |file| && |f| == Max(|file|, slot + 1)
    requires forall i :: 0 <= i < |file| && i != slot ==> f[i] == file[i]
    requires slot < |file| ==> Names(file[slot], name)
    requires slot == |file| ==> name !in Named(file)
    requires Live(f[slot]) ==> f[slot].name == name
    requires want == if Live(f[slot]) then Named(file)[name := f[slot]] else Named(file) - {name}
    ensures n in Named(f) <==> n in want
    ensures n in Named(f) ==> Named(f)[n] == want[n]
  {
    var was, now := Find(file, n, 0), Find(f, n, 0);
    if now.Some? {
      NamedIff(o, f, n, now.value);
      if now.value != slot {
        NamedIff(o, file, n, now.value);
        assert n != name by {
          if slot < |file| && n == name {
            NamedIff(o, file, n, slot);
          }
        }
      }
    } else {
      NotNamed(f, n);
      if was.Some? {
        NamedIff(o, file, n, was.value);
        assert was.value == slot;
      } else {
        NotNamed(file, n);
      }
    }
  }

  /** What an operation does to the map of its owner's providers. */
  lemma {:induction false} OperationsAreMapUpdates(files: Files, e: Event)
    requires Ok(files)
    ensures var m := Named(FileOf(files, e.owner)); var d := Decide(files, e);
      match e
      case Add(_, name, kind, options) =>
        && (d.Done? <==> kind != Deleted && name !in m && |FileOf(files, e.owner)| < INT32_MAX)
        && (d.Done? ==> d.l.record.id == SlotId(e.owner, |FileOf(files, e.owner)|) && Named(FileOf(Redo(files, d.l), e.owner)) == m[name := Record(d.l.record.id, name, kind, options)])
        && (d == Failed(Exists) <==> kind != Deleted && name in m)
      case Change(_, id, name, kind, options) =>
        && (d.Done? <==> kind != Deleted && name in m && m[name].id == id)
        && (d.Done? ==> Named(FileOf(Redo(files, d.l), e.owner)) == m[name := Record(id, name, kind, options)])
      case Delete(_, name) =>
        && (d.Done? <==> name in m)
        && (d.Done? ==> Named(FileOf(Redo(files, d.l), e.owner)) == m - {name})
  {
    var file := FileOf(files, e.owner);
    assert FileOk(e.owner, file);
    var at := Find(file, e.name, 0);
    if at.Some? {
      NamedIff(e.owner, file, e.name, at.value);
    } else {
      NotNamed(file, e.name);
    }
    MaxIdIsLength(e.owner, file);
    var d := Decide(files, e);
    if d.Done? {
      DecideOk(files, e);
      NamedAfterPut(e.owner, file, d.l.slot, d.l.record, e.name);
    }
  }

  // ----- Replaying the log

  /** The last record logged for a slot. */
  function LastFor(log: seq<Logged>, o: Owner, slot: nat): Option<Record> {
    if log == [] then None
    else
      var l := log[|log| - 1];
      if l.owner == o && l.slot == slot then Some(l.record) else LastFor(log[..|log| - 1], o, slot)
  }

  predicate Covered(files: Files, l: Logged) {
    l.owner in files && l.slot < |files[l.owner]|
  }

  ghost predicate CoversAll(files: Files, log: seq<Logged>) {
    forall i :: 0 <= i < |log| ==> Covered(files, log[i])
  }

  ghost predicate SameShape(a: Files, b: Files) {
    a.Keys == b.Keys && forall o :: o in a ==> |a[o]| == |b[o]|
  }

  predicate Holds(files: Files, o: Owner, slot: nat, r: Record) {
    o in files && slot < |files[o]| && files[o][slot] == r
  }

  /** After a replay every slot of the log exists and holds what was logged for it last. */
  lemma {:induction false} ReplayWrites(files: Files, log: seq<Logged>)
    ensures CoversAll(Replay(files, log), log)
    ensures forall o, slot: nat :: LastFor(log, o, slot).Some? ==> Holds(Replay(files, log), o, slot, LastFor(log, o, slot).value)
  {
    if log != [] {
      var front, l := log[..|log| - 1], log[|log| - 1];
      ReplayWrites(files, front);
      var before, now := Replay(files, front), Replay(files, log);
      forall i | 0 <= i < |log| ensures Covered(now, log[i]) {
        if i < |front| {
          assert log[i] == front[i] && Covered(before, front[i]);
        }
      }
      forall o, slot: nat | LastFor(log, o, slot).Some? ensures Holds(now, o, slot, LastFor(log, o, slot).value) {
        if l.owner != o || l.slot != slot {
          assert Holds(before, o, slot, LastFor(front, o, slot).value);
        }
      }
    }
  }

  /** Over files where every slot exists, a replay keeps all lengths and the slots the log does not name. */
  lemma {:induction false} ReplayOver(files: Files, log: seq<Logged>)
    requires CoversAll(files, log)
    ensures SameShape(files, Replay(files, log))
    ensures forall o, slot: nat :: o in files && slot < |files[o]| && LastFor(log, o, slot).None?
              ==> Holds(Replay(files, log), o, slot, files[o][slot])
  {
    if log != [] {
      var front, l := log[..|log| - 1], log[|log| - 1];
      assert forall i :: 0 <= i < |front| ==> front[i] == log[i];
      ReplayOver(files, front);
      assert Covered(files, l);
      var before, now := Replay(files, front), Replay(files, log);
      forall o, slot: nat | o in files && slot < |files[o]| && LastFor(log, o, slot).None?
        ensures Holds(now, o, slot, files[o][slot])
      {
        assert Holds(before, o, slot, files[o][slot]);
      }
    }
  }

  /** Replaying a log twice is replaying it once, whatever the files were. */
  lemma {:induction false} ReplayTwice(files: Files, log: seq<Logged>)
    ensures Replay(Replay(files, log), log) == Replay(files, log)
  {
    var once := Replay(files, log);
    var twice := Replay(once, log);
    ReplayWrites(files, log);
    ReplayOver(once, log);
    ReplayWrites(once, log);
    forall o | o in once ensures twice[o] == once[o] {
      forall slot: nat | slot < |once[o]| ensures twice[o][slot] == once[o][slot] {
        if LastFor(log, o, slot).Some? {
          assert Holds(once, o, slot, LastFor(log, o, slot).value);
          assert Holds(twice, o, slot, LastFor(log, o, slot).value);
        } else {
          assert Holds(twice, o, slot, once[o][slot]);
        }
      }
      assert |twice[o]| == |once[o]|;
    }
  }

  /** The log is what the run has written. */
  lemma {:induction false} RunIsReplay(w: World, es: seq<Event>)
    ensures |w.log| <= |Run(w, es).log| && Run(w, es).log[..|w.log|] == w.log
    ensures Run(w, es).files == Replay(w.files, Run(w, es).log[|w.log|..])
  {
    if es == [] {
      assert w.log[|w.log|..] == [];
    } else {
      var front := es[..|es| - 1];
      RunIsReplay(w, front);
      var before := Run(w, front);
      var d := Decide(before.files, es[|es| - 1]);
      if d.Done? {
        var tail := before.log[|w.log|..];
        assert (before.log + [d.l])[|w.log|..] == tail + [d.l];
        assert (tail + [d.l])[..|tail|] == tail;
      }
    }
  }

  /**
   Recovery from any point: the log written since some moment, replayed over the final files,
   changes nothing; and replayed over the files of that moment, gives the final files.
   */
  lemma {:induction false} RecoveryEndsInTheSameFiles(es: seq<Event>, more: seq<Event>)
    ensures var start := World(map[], []); var moment := Run(start, es); var final := Run(start, es + more);
      && |moment.log| <= |final.log|
      && Replay(moment.files, final.log[|moment.log|..]) == final.files
      && Replay(final.files, final.log[|moment.log|..]) == final.files
  {
    var start := World(map[], []);
    RunAppend(start, es, more);
    RunIsReplay(Run(start, es), more);
    ReplayTwice(Run(start, es).files, Run(start, es + more).log[|Run(start, es).log|..]);
  }

  // ----- Looking up by name without regard to case

  function Lower(c: char): char {
    if 'A' <= c <= 'Z' then (c as int + 32) as char else c
  }

  function Folded(s: string): string {
    seq(|s|, i requires 0 <= i < |s| => Lower(s[i]))
  }

  /** One character is the other in the other case. */
  predicate OtherCase(c: char, d: char) {
    ('A' <= c <= 'Z' && d as int == c as int + 32) || ('A' <= d <= 'Z' && c as int == d as int + 32)
  }

  /** Names are alike to the lookup if and only if they agree up to the case of plain letters. */
  lemma {:induction false} AlikeIff(a: string, b: string)
    ensures Folded(a) == Folded(b) <==>
            |a| == |b| && forall i :: 0 <= i < |a| ==> a[i] == b[i] || OtherCase(a[i], b[i])
  {
    if |a| == |b| {
      forall i | 0 <= i < |a| ensures Folded(a)[i] == Folded(b)[i] <==> a[i] == b[i] || OtherCase(a[i], b[i]) {
        AlikeLetter(a[i], b[i]);
      }
      assert (forall i :: 0 <= i < |a| ==> Folded(a)[i] == Folded(b)[i]) ==> Folded(a) == Folded(b);
    } else {
      assert |Folded(a)| != |Folded(b)|;
    }
  }

  lemma {:induction false} AlikeLetter(c: char, d: char)
    ensures Lower(c) == Lower(d) <==> c == d || OtherCase(c, d)
  {
  }

  predicate Matches(r: Record, name: string) {
    Live(r) && Folded(r.name) == Folded(name)
  }

  /** The first live record whose name differs from the given one at most in case. */
  function Lookup(file: seq<Record>, name: string, from: nat): (r: Option<nat>)
    requires from <= |file|
    ensures r.Some? ==> from <= r.value < |file| && Matches(file[r.value], name)
    ensures r.Some? ==> forall i :: from <= i < r.value ==> !Matches(file[i], name)
    ensures r.None? ==> forall i :: from <= i < |file| ==> !Matches(file[i], name)
    decreases |file| - from
  {
    if from == |file| then None
    else if Matches(file[from], name) then Some(from)
    else Lookup(file, name, from + 1)
  }

  /**
   Deleting a provider looks it up without regard to case to see whether it is in use, and with
   regard to case to delete it.  Both find one record exactly when no earlier live record
   has the same name up to case.
   */
  lemma {:induction false} DeletionChecksWhatItDeletes(file: seq<Record>, name: string)
    requires Find(file, name, 0).Some?
    ensures Lookup(file, name, 0).Some?
    ensures Lookup(file, name, 0) == Find(file, name, 0)
       <==> forall i :: 0 <= i < Find(file, name, 0).value ==> !Matches(file[i], name)
  {
  }

  /** Deleting a provider: refused if the one found without regard to case is in use. */
  function DeleteUnlessUsed(files: Files, o: Owner, name: string, used: set<int>): Outcome {
    var file := FileOf(files, o);
    var found := Lookup(file, name, 0);
    if found.None? then Failed(NotFound)
    else if file[found.value].id in used then Failed(InUse)
    else Decide(files, Delete(o, name))
  }

  /**
   A provider that is in use is deleted exactly when it has the name given, and an earlier
   live provider whose name differs in case only is not in use.
   */
  lemma {:induction false} UsedIsDeletedIff(files: Files, o: Owner, name: string, used: set<int>)
    requires Ok(files)
    ensures var file := FileOf(files, o); var d := DeleteUnlessUsed(files, o, name, used);
      d.Done? && d.l.record.id in used
      <==> exists i: nat, j: nat :: i < j < |file| && Matches(file[i], name) && Names(file[j], name)
             && (forall k :: 0 <= k < i ==> !Matches(file[k], name)) && file[i].id !in used && file[j].id in used
  {
    var file := FileOf(files, o);
    assert FileOk(o, file);
    var at, found := Find(file, name, 0), Lookup(file, name, 0);
    if at.Some? {
      DeletionChecksWhatItDeletes(file, name);
      assert Matches(file[at.value], name) && found.value <= at.value;
    }
  }

  /** Adding under a name that no live record has puts a record behind the last. */
  lemma {:induction false} AddAppends(w: World, o: Owner, name: string, file: seq<Record>)
    requires FileOf(w.files, o) == file && FileOk(o, file) && |file| < INT32_MAX
    requires forall i :: 0 <= i < |file| ==> !Names(file[i], name)
    ensures FileOf(Step(w, Add(o, name, FileKeyring, "")).files, o)
      == file + [Record(SlotId(o, |file|), name, FileKeyring, "")]
  {
    MaxIdIsLength(o, file);
    assert Find(file, name, 0).None?;
  }

  lemma {:induction false} FindIs(file: seq<Record>, name: string, i: nat)
    requires i < |file| && Names(file[i], name) && forall k :: 0 <= k < i ==> !Names(file[k], name)
    ensures Find(file, name, 0) == Some(i)
  {
    assert Find(file, name, 0).Some?;
  }

  lemma {:induction false} LookupIs(file: seq<Record>, name: string, i: nat)
    requires i < |file| && Matches(file[i], name) && forall k :: 0 <= k < i ==> !Matches(file[k], name)
    ensures Lookup(file, name, 0) == Some(i)
  {
    assert Lookup(file, name, 0).Some?;
  }

  lemma {:induction false} LookupsPart(file: seq<Record>, a: Record, b: Record)
    requires Live(a) && Live(b) && a.name != b.name && Folded(a.name) == Folded(b.name)
    requires forall i :: 0 <= i < |file| ==> !Matches(file[i], b.name)
    ensures Find(file + [a] + [b], b.name, 0) == Some(|file| + 1) && Lookup(file + [a] + [b], b.name, 0) == Some(|file|)
  {
    var f := file + [a] + [b];
    forall i | 0 <= i < |file| ensures !Matches(f[i], b.name) && !Names(f[i], b.name) {
      assert f[i] == file[i];
    }
    assert f[|file|] == a && f[|file| + 1] == b;
    FindIs(f, b.name, |file| + 1);
    LookupIs(f, b.name, |file|);
  }

  lemma {:induction false} NotNamedNorMatched(file: seq<Record>, name1: string, name2: string)
    requires Folded(name1) == Folded(name2)
    requires forall i :: 0 <= i < |file| ==> !Matches(file[i], name2)
    ensures forall i :: 0 <= i < |file| ==> !Names(file[i], name1)
  {
    forall i | 0 <= i < |file| ensures !Names(file[i], name1) {
      assert !Matches(file[i], name2);
    }
  }

  function Both(o: Owner, file: seq<Record>, name1: string, name2: string): seq<Record> {
    file + [Record(SlotId(o, |file|), name1, FileKeyring, "")] + [Record(SlotId(o, |file| + 1), name2, FileKeyring, "")]
  }

  lemma {:induction false} BothAreAdded(w: World, o: Owner, name1: string, name2: string)
    requires Ok(w.files) && |FileOf(w.files, o)| + 1 < INT32_MAX
    requires name1 != name2 && Folded(name1) == Folded(name2)
    requires forall i :: 0 <= i < |FileOf(w.files, o)| ==> !Matches(FileOf(w.files, o)[i], name2)
    ensures FileOf(Step(Step(w, Add(o, name1, FileKeyring, "")), Add(o, name2, FileKeyring, "")).files, o)
      == Both(o, FileOf(w.files, o), name1, name2)
  {
    var file, add := FileOf(w.files, o), Add(o, name1, FileKeyring, "");
    var a := Record(SlotId(o, |file|), name1, FileKeyring, "");
    NotNamedNorMatched(file, name1, name2);
    AddAppends(w, o, name1, file);
    StepOk(w, add);
    assert FileOk(o, file + [a]);
    NotNamedNorMatched(file, name2, name2);
    AddAppends(Step(w, add), o, name2, file + [a]);
  }

  /** With both names taken, the second provider counts as unused and is deleted, whatever uses it. */
  ghost predicate LookupsPartIn(files: Files, o: Owner, n: nat, name: string) {
    && Lookup(FileOf(files, o), name, 0) == Some(n)
    && Find(FileOf(files, o), name, 0) == Some(n + 1)
    && DeleteUnlessUsed(files, o, name, {SlotId(o, n + 1)}).Done?
  }

  lemma {:induction false} BothPart(files: Files, o: Owner, file: seq<Record>, name1: string, name2: string)
    requires FileOf(files, o) == Both(o, file, name1, name2)
    requires name1 != name2 && Folded(name1) == Folded(name2)
    requires forall i :: 0 <= i < |file| ==> !Matches(file[i], name2)
    ensures LookupsPartIn(files, o, |file|, name2)
  {
    var both := Both(o, file, name1, name2);
    LookupsPart(file, both[|file|], both[|file| + 1]);
    assert both[|file|].id == SlotId(o, |file|);
  }

  /**
   Any two names that differ in case only, and are not taken up to case, can both be added; then
   the lookups part, and the second provider, being in use, is deleted all the same.
   */
  lemma {:induction false} NamesDifferingInCasePart(w: World, o: Owner, name1: string, name2: string)
    requires Ok(w.files) && |FileOf(w.files, o)| + 1 < INT32_MAX
    requires name1 != name2 && Folded(name1) == Folded(name2)
    requires forall i :: 0 <= i < |FileOf(w.files, o)| ==> !Matches(FileOf(w.files, o)[i], name2)
    ensures LookupsPartIn(Step(Step(w, Add(o, name1, FileKeyring, "")), Add(o, name2, FileKeyring, "")).files, o, |FileOf(w.files, o)|, name2)
  {
    BothAreAdded(w, o, name1, name2);
    BothPart(Step(Step(w, Add(o, name1, FileKeyring, "")), Add(o, name2, FileKeyring, "")).files, o, FileOf(w.files, o), name1, name2);
  }

  // ----- The provider files

  class ProviderStore {
    var files: Files
    var log: seq<Logged>

    ghost function State(): World
      reads this
    {
      World(files, log)
    }

    constructor ()
      ensures State() == World(map[], [])
    {
      files, log := map[], [];
    }

    /** Scans for a name, keeping the largest id seen. */
    method Scan(file: seq<Record>, name: string) returns (taken: bool, max: nat)
      ensures taken == Find(file, name, 0).Some?
      ensures !taken ==> max == MaxId(file)
    {
      taken, max := false, 0;
      var i := 0;
      assert file[..0] == [];
      while i < |file|
        invariant 0 <= i <= |file|
        invariant max == MaxId(file[..i])
        invariant forall j :: 0 <= j < i ==> !Names(file[j], name)
      {
        assert file[..i + 1][..i] == file[..i];
        max := Max(max, Abs(file[i].id));
        if file[i].kind != Deleted && file[i].name == name {
          taken := true;
          return;
        }
        i := i + 1;
      }
      assert file[..i] == file;
    }

    /** Scans for the slot of a name. */
    method FindByName(file: seq<Record>, name: string) returns (slot: Option<nat>)
      ensures slot == Find(file, name, 0)
    {
      var i := 0;
      while i < |file|
        invariant 0 <= i <= |file|
        invariant Find(file, name, 0) == Find(file, name, i)
      {
        if file[i].kind != Deleted && file[i].name == name {
          return Some(i);
        }
        i := i + 1;
      }
      return None;
    }

    /** Writes a record at its position; the write is logged unless it comes from the log. */
    method WriteInfo(l: Logged, writeXlog: bool)
      modifies this
      ensures files == Redo(old(files), l)
      ensures log == if writeXlog then old(log) + [l] else old(log)
    {
      if writeXlog {
        log := log + [l];
      }
      files := files[l.owner := Put(FileOf(files, l.owner), l.slot, l.record)];
    }

    method SaveNew(o: Owner, name: string, kind: Kind, options: string) returns (r: Outcome)
      modifies this
      ensures r == Decide(old(files), Add(o, name, kind, options))
      ensures State() == Step(old(State()), Add(o, name, kind, options))
    {
      if kind == Deleted {
        return Failed(InvalidKind);
      }
      var file := FileOf(files, o);
      var taken, max := Scan(file, name);
      if taken {
        return Failed(Exists);
      }
      if max == INT32_MAX {
        return Failed(OutOfRange);
      }
      var n: int := max + 1;
      var id := if o == Cluster then -n else n;
      r := Done(Logged(o, |file|, Record(id, name, kind, options)));
      WriteInfo(r.l, true);
    }

    method Modify(o: Owner, id: int, name: string, kind: Kind, options: string) returns (r: Outcome)
      modifies this
      ensures r == Decide(old(files), Change(o, id, name, kind, options))
      ensures State() == Step(old(State()), Change(o, id, name, kind, options))
    {
      if kind == Deleted {
        return Failed(InvalidKind);
      }
      var file := FileOf(files, o);
      var at := FindByName(file, name);
      if at.None? {
        return Failed(NotFound);
      }
      if id != file[at.value].id {
        return Failed(IdMismatch);
      }
      r := Done(Logged(o, at.value, Record(id, name, kind, options)));
      WriteInfo(r.l, true);
    }

    method DeleteInfo(o: Owner, name: string) returns (r: Outcome)
      modifies this
      ensures r == Decide(old(files), Delete(o, name))
      ensures State() == Step(old(State()), Delete(o, name))
    {
      var file := FileOf(files, o);
      var at := FindByName(file, name);
      if at.None? {
        return Failed(NotFound);
      }
      r := Done(Logged(o, at.value, Record(file[at.value].id, "", Deleted, "")));
      WriteInfo(r.l, true);
    }

    /** Scans for a name without regard to case. */
    method FindAnyCase(file: seq<Record>, name: string) returns (slot: Option<nat>)
      ensures slot == Lookup(file, name, 0)
    {
      var i := 0;
      while i < |file|
        invariant 0 <= i <= |file|
        invariant Lookup(file, name, 0) == Lookup(file, name, i)
      {
        if file[i].kind != Deleted && Folded(file[i].name) == Folded(name) {
          return Some(i);
        }
        i := i + 1;
      }
      return None;
    }

    method DeleteProvider(o: Owner, name: string, used: set<int>) returns (r: Outcome)
      modifies this
      ensures r == DeleteUnlessUsed(old(files), o, name, used)
      ensures State() == if r.Done? then Step(old(State()), Delete(o, name)) else old(State())
    {
      var file := FileOf(files, o);
      var found := FindAnyCase(file, name);
      if found.None? {
        return Failed(NotFound);
      }
      if file[found.value].id in used {
        return Failed(InUse);
      }
      r := DeleteInfo(o, name);
    }

    method RedoInfo(l: Logged)
      modifies this
      ensures files == Redo(old(files), l) && log == old(log)
    {
      WriteInfo(l, false);
    }
  }
}
