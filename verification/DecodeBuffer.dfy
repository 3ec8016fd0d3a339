/**
 The circular decode buffer of the WAL reader, fetools/pg18/xlogreader.c:265-327, 454-542,
 919-940 and 1632-1655.

 Positions are offsets into the buffer.  A queued record is a region of the buffer, or an
 oversized allocation outside it.
 */
module DecodeBuffer {
  import opened Bytes

  datatype Rec = Rec(at: nat, size: nat, oversized: bool)

  /** `current` says whether the oldest queued record has been handed to the caller. */
  datatype State = State(capacity: nat, head: nat, tail: nat, queue: seq<Rec>, current: bool)

  // ----- The four operations

  datatype Space = InBuffer(at: nat) | Oversized | NoSpace

  /** Where a record that may need `required` bytes can be decoded. */
  function FindSpace(s: State, required: nat, allowOversized: bool): Space {
    if s.tail >= s.head && required <= s.capacity - s.tail then InBuffer(s.tail)
    else if s.tail >= s.head && required < s.head then InBuffer(0)
    else if s.tail < s.head && required < s.head - s.tail then InBuffer(s.tail)
    else if allowOversized then Oversized
    else NoSpace
  }

  /** A record of `size` bytes was decoded into the space; it joins the queue. */
  function Commit(s: State, space: Space, size: nat): State
    requires !space.NoSpace?
  {
    match space
    case InBuffer(at) => s.(tail := if at == 0 then size else s.tail + size, queue := s.queue + [Rec(at, size, false)])
    case Oversized => s.(queue := s.queue + [Rec(0, size, true)])
  }

  /** The records that lie in the buffer, oldest first. */
  function InBufferOf(queue: seq<Rec>): (r: seq<Rec>)
    decreases |queue|
  {
    if queue == [] then []
    else
      var r := InBufferOf(queue[..|queue| - 1]);
      var last := queue[|queue| - 1];
      if last.oversized then r else r + [last]
  }

  /** Releases the oldest record, if it was handed out. */
  function Release(s: State): State
    requires s.current ==> s.queue != []
  {
    if !s.current then s
    else
      var r := s.queue[0];
      var t := s.(queue := s.queue[1..], current := false);
      if r.oversized then t
      else
        var rest := InBufferOf(s.queue[1..]);
        if rest == [] then t.(head := 0, tail := 0) else t.(head := rest[0].at)
  }

  /** Releases the previous record and hands out the next one, if there is one. */
  function NextRecord(s: State): State
    requires s.current ==> s.queue != []
  {
    var t := Release(s);
    t.(current := t.queue != [])
  }

  function Reset(s: State): State {
    State(s.capacity, 0, 0, [], false)
  }

  // ----- The invariant

  /** Records one behind the other from `from` to `to`. */
  ghost predicate Contiguous(b: seq<Rec>, from: nat, to: nat)
    decreases |b|
  {
    if b == [] then from == to
    else b[0].at == from && b[0].size > 0 && Contiguous(b[1..], from + b[0].size, to)
  }

  /** Not wrapped: one run from head to tail. */
  ghost predicate OneRun(s: State, b: seq<Rec>) {
    s.head <= s.tail <= s.capacity && Contiguous(b, s.head, s.tail)
  }

  /** Wrapped: one run from head upwards, then one from the start of the buffer to tail, which is before head. */
  ghost predicate TwoRuns(s: State, b: seq<Rec>, k: nat, top: nat) {
    && 0 < k < |b|
    && s.tail < s.head && top <= s.capacity
    && Contiguous(b[..k], s.head, top)
    && Contiguous(b[k..], 0, s.tail)
  }

  ghost predicate Inv(s: State) {
    var b := InBufferOf(s.queue);
    && (s.current ==> s.queue != [])
    && (b == [] ==> s.head == 0 && s.tail == 0)
    && (OneRun(s, b) || exists k: nat, top: nat :: TwoRuns(s, b, k, top))
  }

  // ----- Consequences of the layout

  lemma {:induction false} ContiguousBounds(b: seq<Rec>, from: nat, to: nat)
    requires Contiguous(b, from, to)
    ensures from <= to && (b != [] ==> from < to)
    ensures forall i :: 0 <= i < |b| ==> from <= b[i].at && b[i].size > 0 && b[i].at + b[i].size <= to
    ensures forall i, j :: 0 <= i < j < |b| ==> b[i].at + b[i].size <= b[j].at
    decreases |b|
  {
    if b != [] {
      ContiguousBounds(b[1..], from + b[0].size, to);
      forall i, j | 0 <= i < j < |b|
        ensures b[i].at + b[i].size <= b[j].at
      {
        assert b[j] == b[1..][j - 1];
        if i > 0 {
          assert b[i] == b[1..][i - 1];
        }
      }
      forall i | 0 <= i < |b|
        ensures from <= b[i].at && b[i].size > 0 && b[i].at + b[i].size <= to
      {
        if i > 0 {
          assert b[i] == b[1..][i - 1];
        }
      }
    }
  }

  lemma {:induction false} ContiguousAppend(b: seq<Rec>, from: nat, to: nat, r: Rec)
    requires Contiguous(b, from, to) && r.at == to && r.size > 0
    ensures Contiguous(b + [r], from, to + r.size)
    decreases |b|
  {
    if b != [] {
      assert (b + [r])[1..] == b[1..] + [r];
      ContiguousAppend(b[1..], from + b[0].size, to, r);
    }
  }

  predicate Disjoint(r: Rec, at: nat, size: nat) {
    r.at + r.size <= at || at + size <= r.at
  }

  /** Queued in-buffer records lie inside the buffer, pairwise apart, and head is the oldest of them. */
  ghost predicate WellPlaced(s: State) {
    var b := InBufferOf(s.queue);
    && (forall i :: 0 <= i < |b| ==> b[i].at + b[i].size <= s.capacity)
    && (forall i, j :: 0 <= i < j < |b| ==> Disjoint(b[i], b[j].at, b[j].size))
    && (b != [] ==> s.head == b[0].at)
    && (s.head == s.tail <==> b == [])
  }

  /** In the wrapped layout, older records lie from head on and newer ones below tail. */
  lemma {:induction false} TwoRunsBounds(s: State, b: seq<Rec>, k: nat, top: nat)
    requires TwoRuns(s, b, k, top)
    ensures b[0].at == s.head
    ensures forall i :: 0 <= i < k ==> s.head <= b[i].at && b[i].at + b[i].size <= top
    ensures forall i :: k <= i < |b| ==> b[i].at + b[i].size <= s.tail
    ensures forall i, j :: 0 <= i < j < |b| ==> Disjoint(b[i], b[j].at, b[j].size)
  {
    var older, newer := b[..k], b[k..];
    ContiguousBounds(older, s.head, top);
    ContiguousBounds(newer, 0, s.tail);
    assert forall i :: 0 <= i < k ==> b[i] == older[i];
    forall i | k <= i < |b|
      ensures b[i].at + b[i].size <= s.tail
    {
      assert b[i] == newer[i - k];
    }
    forall i, j | 0 <= i < j < |b|
      ensures Disjoint(b[i], b[j].at, b[j].size)
    {
      if i >= k {
        assert b[i] == newer[i - k] && b[j] == newer[j - k];
      }
    }
  }

  lemma {:induction false} InvPlacesWell(s: State)
    requires Inv(s)
    ensures WellPlaced(s)
  {
    var b := InBufferOf(s.queue);
    if OneRun(s, b) {
      ContiguousBounds(b, s.head, s.tail);
    } else {
      var k: nat, top: nat :| TwoRuns(s, b, k, top);
      TwoRunsBounds(s, b, k, top);
    }
  }

  /** The space handed out lies in the buffer and touches no queued record, however much of it is used. */
  lemma {:induction false} SpaceIsFree(s: State, required: nat, allowOversized: bool)
    requires Inv(s) && FindSpace(s, required, allowOversized).InBuffer?
    ensures var at := FindSpace(s, required, allowOversized).at; var b := InBufferOf(s.queue);
            && at + required <= s.capacity
            && forall i :: 0 <= i < |b| ==> Disjoint(b[i], at, required)
  {
    var b := InBufferOf(s.queue);
    if OneRun(s, b) {
      ContiguousBounds(b, s.head, s.tail);
    } else {
      var k: nat, top: nat :| TwoRuns(s, b, k, top);
      TwoRunsBounds(s, b, k, top);
      ContiguousBounds(b[..k], s.head, top);
    }
  }

  // ----- Every operation keeps the invariant

  lemma {:induction false} CommitKeepsInv(s: State, required: nat, allowOversized: bool, size: nat)
    requires Inv(s) && !FindSpace(s, required, allowOversized).NoSpace?
    requires 0 < size <= required
    ensures Inv(Commit(s, FindSpace(s, required, allowOversized), size))
  {
    var space := FindSpace(s, required, allowOversized);
    var t := Commit(s, space, size);
    var b := InBufferOf(s.queue);
    assert t.queue[..|t.queue| - 1] == s.queue;
    if space.Oversized? {
      assert InBufferOf(t.queue) == b;
      if !OneRun(s, b) {
        var k: nat, top: nat :| TwoRuns(s, b, k, top);
        assert TwoRuns(t, b, k, top);
      }
    } else {
      var r := Rec(space.at, size, false);
      assert InBufferOf(t.queue) == b + [r];
      CommitLayout(s, t, b, r, required);
    }
  }

  lemma {:induction false} CommitLayout(s: State, t: State, b: seq<Rec>, r: Rec, required: nat)
    requires OneRun(s, b) || exists k: nat, top: nat :: TwoRuns(s, b, k, top)
    requires b == [] ==> s.head == 0 && s.tail == 0
    requires 0 < r.size <= required
    requires FindSpace(s, required, false) == InBuffer(r.at)
    requires t.capacity == s.capacity && t.head == s.head && t.tail == if r.at == 0 then r.size else s.tail + r.size
    ensures OneRun(t, b + [r]) || exists k: nat, top: nat :: TwoRuns(t, b + [r], k, top)
  {
    if OneRun(s, b) {
      if r.at == s.tail {
        ContiguousAppend(b, s.head, s.tail, r);
        if s.tail == 0 {
          ContiguousBounds(b, s.head, s.tail);
        }
      } else {
        ContiguousBounds(b, s.head, s.tail);
        var c := b + [r];
        assert c[..|b|] == b && c[|b|..] == [r];
        assert Contiguous([r], 0, r.size) by {
          assert [r][1..] == [];
        }
        assert TwoRuns(t, c, |b|, s.tail);
      }
    } else {
      var k: nat, top: nat :| TwoRuns(s, b, k, top);
      ContiguousBounds(b[k..], 0, s.tail);
      ContiguousAppend(b[k..], 0, s.tail, r);
      var c := b + [r];
      assert c[..k] == b[..k] && c[k..] == b[k..] + [r];
      assert TwoRuns(t, c, k, top);
    }
  }

  /** Dropping the oldest record of the queue drops it from the buffer's records, unless it is oversized. */
  lemma {:induction false} InBufferOfTail(queue: seq<Rec>)
    requires queue != []
    ensures InBufferOf(queue) == (if queue[0].oversized then [] else [queue[0]]) + InBufferOf(queue[1..])
    decreases |queue|
  {
    if |queue| > 1 {
      var front := queue[..|queue| - 1];
      InBufferOfTail(front);
      assert front[1..] == queue[1..][..|queue| - 2];
    } else {
      assert InBufferOf(queue[..0]) == [];
    }
  }

  lemma {:induction false} ReleaseKeepsInv(s: State)
    requires Inv(s)
    ensures Inv(Release(s))
  {
    if s.current {
      var t := Release(s);
      var b, rest := InBufferOf(s.queue), InBufferOf(s.queue[1..]);
      InBufferOfTail(s.queue);
      if s.queue[0].oversized {
        assert b == rest;
        if !OneRun(s, b) {
          var k: nat, top: nat :| TwoRuns(s, b, k, top);
          assert TwoRuns(t, b, k, top);
        }
      } else if rest != [] {
        assert b[1..] == rest;
        ReleaseLayout(s, t, b);
      }
    }
  }

  lemma {:induction false} ReleaseLayout(s: State, t: State, b: seq<Rec>)
    requires |b| > 1
    requires OneRun(s, b) || exists k: nat, top: nat :: TwoRuns(s, b, k, top)
    requires t.capacity == s.capacity && t.tail == s.tail && t.head == b[1].at
    ensures OneRun(t, b[1..]) || exists k: nat, top: nat :: TwoRuns(t, b[1..], k, top)
  {
    if OneRun(s, b) {
      ContiguousBounds(b[1..], s.head + b[0].size, s.tail);
    } else {
      var k: nat, top: nat :| TwoRuns(s, b, k, top);
      var first := b[..k];
      ContiguousBounds(first, s.head, top);
      assert first[1..] == b[1..][..k - 1];
      assert first[0] == b[0];
      assert Contiguous(first[1..], s.head + b[0].size, top);
      if k == 1 {
        assert b[1..] == b[k..];
        ContiguousBounds(b[1..], 0, s.tail);
        assert OneRun(t, b[1..]);
      } else {
        assert first[1..][0] == b[1];
        assert b[1..][k - 1..] == b[k..];
        assert TwoRuns(t, b[1..], k - 1, top);
      }
    }
  }

  // ----- Whole runs

  datatype Op =
    | Decode(required: nat, allowOversized: bool, size: Option<nat>)  // None: decoding failed
    | DoRelease
    | Next
    | DoReset

  predicate OpOk(op: Op) {
    op.Decode? && op.size.Some? ==> 0 < op.size.value <= op.required
  }

  function Apply(s: State, op: Op): State
    requires s.current ==> s.queue != []
  {
    match op
    case Decode(required, allowOversized, size) =>
      var space := FindSpace(s, required, allowOversized);
      if space.NoSpace? || size.None? then s else Commit(s, space, size.value)
    case DoRelease => Release(s)
    case Next => NextRecord(s)
    case DoReset => Reset(s)
  }

  lemma {:induction false} ApplyKeepsInv(s: State, op: Op)
    requires Inv(s) && OpOk(op)
    ensures Inv(Apply(s, op))
  {
    match op
    case Decode(required, allowOversized, size) =>
      if !FindSpace(s, required, allowOversized).NoSpace? && size.Some? {
        CommitKeepsInv(s, required, allowOversized, size.value);
      }
    case DoRelease => ReleaseKeepsInv(s);
    case Next =>
      ReleaseKeepsInv(s);
      var t := Release(s);
      var b := InBufferOf(t.queue);
      if !OneRun(t, b) {
        var k: nat, top: nat :| TwoRuns(t, b, k, top);
        assert TwoRuns(NextRecord(s), b, k, top);
      }
    case DoReset =>
      assert InBufferOf([]) == [];
      assert OneRun(Reset(s), []);
  }

  /**
   Space in the buffer is given if and only if the record fits behind the tail, or strictly before the
   head: a buffer filled to the brim there would look empty.  An oversized record never waits.
   */
  lemma {:induction false} SpaceIsGivenIff(s: State, required: nat, allowOversized: bool)
    ensures var space := FindSpace(s, required, allowOversized);
      && (space.InBuffer? <==> if s.head <= s.tail then s.tail + required <= s.capacity || required < s.head
                               else s.tail + required < s.head)
      && (space.NoSpace? <==> !space.InBuffer? && !allowOversized)
  {
  }

  /** Once no record is left in the buffer, any record that fits the buffer gets space. */
  lemma {:induction false} DrainedBufferTakes(s: State, required: nat, allowOversized: bool)
    requires Inv(s) && (forall i :: 0 <= i < |s.queue| ==> s.queue[i].oversized)
    ensures FindSpace(s, required, allowOversized) == InBuffer(0) <==> required <= s.capacity
  {
    NoneInBuffer(s.queue);
  }

  lemma {:induction false} NoneInBuffer(queue: seq<Rec>)
    requires forall i :: 0 <= i < |queue| ==> queue[i].oversized
    ensures InBufferOf(queue) == []
  {
    if queue != [] {
      NoneInBuffer(queue[..|queue| - 1]);
    }
  }

  /** First in, first out: decoding queues at the end, releasing takes the oldest if it was handed out, and a reset empties. */
  lemma {:induction false} QueueIsFifo(s: State, op: Op)
    requires s.current ==> s.queue != []
    ensures var t := Apply(s, op);
      match op
      case Decode(required, allowOversized, size) =>
        t.current == s.current && t.head == s.head
        && if size.None? || FindSpace(s, required, allowOversized).NoSpace? then t == s
           else |t.queue| == |s.queue| + 1 && t.queue[..|s.queue|] == s.queue
                && var r := t.queue[|s.queue|];
                   r.size == size.value && (!r.oversized ==> t.tail == r.at + r.size) && (r.oversized ==> t.tail == s.tail)
      case DoRelease => !t.current && t.queue == if s.current then s.queue[1..] else s.queue
      case Next => t.queue == (if s.current then s.queue[1..] else s.queue) && (t.current <==> t.queue != [])
      case DoReset => t == State(s.capacity, 0, 0, [], false)
  {
  }

  ghost predicate Run(states: seq<State>, ops: seq<Op>) {
    && |states| == |ops| + 1
    && states[0] == State(states[0].capacity, 0, 0, [], false)
    && forall i :: 0 <= i < |ops| ==>
         OpOk(ops[i]) && (states[i].current ==> states[i].queue != []) && states[i + 1] == Apply(states[i], ops[i])
  }

  /** Over every sequence of decodes, releases, hand-outs and resets, no two queued records overlap. */
  lemma {:induction false} RecordsNeverOverlap(states: seq<State>, ops: seq<Op>, n: nat)
    requires Run(states, ops) && n <= |ops|
    ensures Inv(states[n]) && WellPlaced(states[n])
    decreases n
  {
    if n == 0 {
      assert OneRun(states[0], InBufferOf([]));
    } else {
      RecordsNeverOverlap(states, ops, n - 1);
      ApplyKeepsInv(states[n - 1], ops[n - 1]);
    }
    InvPlacesWell(states[n]);
  }

  predicate OnEight(r: Rec) {
    !r.oversized ==> r.at % 8 == 0
  }

  ghost predicate OnEights(s: State) {
    s.tail % 8 == 0 && forall i :: 0 <= i < |s.queue| ==> OnEight(s.queue[i])
  }

  lemma {:induction false} ApplyKeepsEights(s: State, op: Op)
    requires (s.current ==> s.queue != []) && OnEights(s)
    requires op.Decode? && op.size.Some? ==> op.size.value % 8 == 0
    ensures OnEights(Apply(s, op))
  {
  }

  /** If every decoded size is a multiple of eight, every record in the buffer starts at one. */
  lemma {:induction false} RecordsStayAligned(states: seq<State>, ops: seq<Op>, n: nat)
    requires Run(states, ops) && n <= |ops|
    requires forall i :: 0 <= i < |ops| && ops[i].Decode? && ops[i].size.Some? ==> ops[i].size.value % 8 == 0
    ensures OnEights(states[n])
    decreases n
  {
    if n > 0 {
      RecordsStayAligned(states, ops, n - 1);
      ApplyKeepsEights(states[n - 1], ops[n - 1]);
    }
  }

  // ----- The reader's fields, updated in place

  class Decoder {
    const capacity: nat
    var head: nat
    var tail: nat
    var queue: seq<Rec>
    var current: bool

    constructor (capacity: nat)
      ensures Snapshot() == State(capacity, 0, 0, [], false)
    {
      this.capacity := capacity;
      head, tail, queue, current := 0, 0, [], false;
    }

    function Snapshot(): State
      reads this
    {
      State(capacity, head, tail, queue, current)
    }

    method Alloc(required: nat, allowOversized: bool) returns (space: Space)
      requires Inv(Snapshot())
      ensures space == FindSpace(Snapshot(), required, allowOversized)
      ensures space.InBuffer? ==> space.at + required <= capacity
      ensures space.InBuffer? ==> forall i :: 0 <= i < |InBufferOf(queue)| ==> Disjoint(InBufferOf(queue)[i], space.at, required)
    {
      space := NoSpace;
      if tail >= head {
        if required <= capacity - tail {
          space := InBuffer(tail);
        } else if required < head {
          space := InBuffer(0);
        }
      } else if required < head - tail {
        space := InBuffer(tail);
      }
      if space.NoSpace? && allowOversized {
        space := Oversized;
      }
      if space.InBuffer? {
        SpaceIsFree(Snapshot(), required, allowOversized);
      }
    }

    method Enqueue(space: Space, size: nat)
      requires !space.NoSpace?
      modifies this
      ensures Snapshot() == Commit(old(Snapshot()), space, size)
    {
      if space.InBuffer? {
        if space.at == 0 {
          tail := size;
        } else {
          tail := tail + size;
        }
        queue := queue + [Rec(space.at, size, false)];
      } else {
        queue := queue + [Rec(0, size, true)];
      }
    }

    /** The released record is the head of the buffer unless it is oversized; the next in-buffer one becomes the head. */
    method ReleasePrevious()
      requires Inv(Snapshot())
      modifies this
      ensures Snapshot() == Release(old(Snapshot()))
      ensures Inv(Snapshot())
    {
      ReleaseKeepsInv(Snapshot());
      if !current {
        return;
      }
      var record := queue[0];
      current := false;
      queue := queue[1..];
      if !record.oversized {
        InBufferOfTail(old(queue));
        InvPlacesWell(old(Snapshot()));
        assert head == record.at;
        var i := 0;
        while i < |queue| && queue[i].oversized
          invariant 0 <= i <= |queue|
          invariant queue == old(queue)[1..] && tail == old(tail) && !current
          invariant InBufferOf(queue) == InBufferOf(queue[i..])
        {
          InBufferOfTail(queue[i..]);
          assert queue[i..][1..] == queue[i + 1..];
          i := i + 1;
        }
        if i < |queue| {
          InBufferOfTail(queue[i..]);
          head := queue[i].at;
        } else {
          assert queue[i..] == [];
          head, tail := 0, 0;
        }
      }
    }

    /** Hands out the next queued record after releasing the previous one. */
    method Next() returns (available: bool)
      requires Inv(Snapshot())
      modifies this
      ensures Snapshot() == NextRecord(old(Snapshot()))
      ensures Inv(Snapshot())
      ensures available == current
    {
      ApplyKeepsInv(Snapshot(), Op.Next);
      ReleasePrevious();
      if |queue| != 0 {
        current := true;
      }
      available := current;
    }

    method ResetDecoder()
      modifies this
      ensures Snapshot() == Reset(old(Snapshot()))
    {
      while |queue| != 0
        decreases |queue|
      {
        queue := queue[1..];
      }
      current := false;
      head, tail := 0, 0;
    }
  }
}
