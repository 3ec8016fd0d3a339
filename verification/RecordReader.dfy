/**
 The record reassembly loop of the WAL reader with its growing buffer,
 fetools/pg18/xlogreader.c:206-218 and 601-898, proved against module `Reassembly`.
 */
module RecordReader {
  import opened Bytes
  import opened PageFormat
  import opened Reassembly

  /** The size a record buffer gets: a page multiple beyond the length, and never below five pages. */
  function RecordBufSize(len: nat): (size: nat)
    requires len + BLCKSZ < UINT32_LIMIT
    ensures size > len && size >= MIN_RECORD_BUF && size % BLCKSZ == 0 && size <= Max(len + BLCKSZ, MIN_RECORD_BUF)
  {
    Max((len + (BLCKSZ - len % BLCKSZ)) % UINT32_LIMIT, MIN_RECORD_BUF)
  }

  /** What the loop has established after reading the continuation pages up to `q`. */
  ghost predicate Progress(pages: seq<Page>, p: nat, first: seq<byte>, total: nat, checks: Checks, q: nat, got: seq<byte>)
    requires PagesOk(pages) && |first| < total
  {
    && p <= q && |got| <= total
    && (q == p ==> got == first)
    && (q == p + 1 ==> |got| <= |first| + BLCKSZ)
    && (if |got| < total then Gather(pages, p + 1, total, first) == Gather(pages, q + 1, total, got)
        else Gather(pages, p + 1, total, first) == Complete(got, q))
    && (q > p ==> HeaderSeen(pages, p, first, checks, got))
  }

  /** The header was whole on the first page, or has been checked since. */
  ghost predicate HeaderSeen(pages: seq<Page>, p: nat, first: seq<byte>, checks: Checks, got: seq<byte>) {
    |first| < RECORD_HEADER ==>
      && p + 1 < |pages|
      && first + pages[p + 1].body[..Min(|pages[p + 1].body|, pages[p + 1].remLen)] <= got
      && |got| >= RECORD_HEADER && checks.header(got[..RECORD_HEADER])
  }

  lemma {:induction false} SeenHeaderNeverFails(pages: seq<Page>, p: nat, first: seq<byte>, checks: Checks, got: seq<byte>, reached: nat)
    requires HeaderSeen(pages, p, first, checks, got)
    ensures !HeaderFails(first, pages, p + 1, checks, reached)
  {
    if |first| < RECORD_HEADER {
      var split := first + pages[p + 1].body[..Min(|pages[p + 1].body|, pages[p + 1].remLen)];
      if |split| >= RECORD_HEADER {
        assert split[..RECORD_HEADER] == got[..RECORD_HEADER];
      }
    }
  }

  /** A page that passes the cross-checks is one step of `Gather`. */
  lemma {:induction false} PageStep(pages: seq<Page>, p: nat, first: seq<byte>, total: nat, checks: Checks, q: nat, got: seq<byte>,
                                    next: seq<byte>)
    requires PagesOk(pages) && |first| < total && RECORD_HEADER <= total
    requires Progress(pages, p, first, total, checks, q, got) && |got| < total && q + 1 < |pages|
    requires var page := pages[q + 1];
             && !page.overwriteContRecord && page.contRecord && page.remLen != 0 && total == page.remLen + |got|
             && next == got + page.body[..Min(|page.body|, page.remLen)]
    requires q == p && |first| < RECORD_HEADER ==> |next| >= RECORD_HEADER && checks.header(next[..RECORD_HEADER])
    ensures Progress(pages, p, first, total, checks, q + 1, next)
  {
    if q > p && |first| < RECORD_HEADER {
      assert next[..RECORD_HEADER] == got[..RECORD_HEADER];
      assert got <= next;
    }
  }

  /** With the record whole, only its own check is left. */
  lemma {:induction false} WholeRecord(pages: seq<Page>, p: nat, start: nat, first: seq<byte>, total: nat, checks: Checks,
                                       segSize: nat, q: nat, rec: seq<byte>)
    requires PagesOk(pages) && segSize > 0 && |first| < total && RECORD_HEADER <= total
    requires p < q < |pages| && |rec| == total && Progress(pages, p, first, total, checks, q, rec)
    ensures ManyPages(pages, p, start, first, total, checks, segSize) ==
            Done(if checks.record(rec)
                 then Got(rec, p, start, AfterSwitch(rec, q * BLCKSZ + HeaderSize(pages[q]) + Align8(pages[q].remLen), segSize))
                 else Bad)
  {
    SeenHeaderNeverFails(pages, p, first, checks, rec, q + 1);
  }

  class Reader {
    var buf: array<byte>

    ghost predicate Valid()
      reads this
    {
      buf.Length >= MIN_RECORD_BUF
    }

    constructor ()
      ensures Valid() && fresh(buf)
    {
      buf := new byte[MIN_RECORD_BUF](_ => 0);
    }

    method AllocateRecordBuf(len: nat)
      requires len + BLCKSZ < UINT32_LIMIT
      modifies this
      ensures Valid() && fresh(buf) && buf.Length == RecordBufSize(len)
    {
      buf := new byte[RecordBufSize(len)](_ => 0);
    }

    method CopyIn(at: nat, data: seq<byte>)
      requires at + |data| <= buf.Length
      modifies buf
      ensures buf[..at + |data|] == old(buf[..at]) + data
    {
      forall i | 0 <= i < |data| {
        buf[at + i] := data[i];
      }
      assert buf[at..at + |data|] == data;
    }

    /** Makes room for the whole record, keeping what has been read; that is never more than two pages. */
    method Grow(total: nat, gotLen: nat)
      requires Valid() && total + BLCKSZ < UINT32_LIMIT
      requires gotLen <= 2 * BLCKSZ && gotLen <= total && buf.Length < total
      modifies this
      ensures Valid() && fresh(buf) && buf.Length > total
      ensures buf[..gotLen] == old(buf[..gotLen])
    {
      var saved := buf[..gotLen];
      AllocateRecordBuf(total);
      CopyIn(0, saved);
      assert buf[..gotLen] == saved;
    }

    /** Appends one continuation page, or says how the attempt ends. */
    method AppendPage(pages: seq<Page>, p: nat, ghost start: nat, first: seq<byte>, total: nat, checks: Checks, ghost segSize: nat,
                      q: nat, gotLen: nat)
      returns (ended: Option<Attempt>, newLen: nat)
      requires PagesOk(pages) && segSize > 0
      requires |first| < total && RECORD_HEADER <= total && |first| <= BLCKSZ
      requires gotLen < total && gotLen <= buf.Length
      requires if q == p then buf.Length >= MIN_RECORD_BUF else buf.Length >= total
      requires Progress(pages, p, first, total, checks, q, buf[..gotLen])
      modifies buf
      ensures ended.Some? ==> ended.value == ManyPages(pages, p, start, first, total, checks, segSize)
      ensures ended.None? ==> gotLen < newLen <= total && newLen <= buf.Length && q + 1 < |pages|
      ensures ended.None? ==> Progress(pages, p, first, total, checks, q + 1, buf[..newLen])
    {
      newLen := gotLen;
      if q + 1 >= |pages| {
        return Some(Done(Bad)), newLen;
      }
      var page := pages[q + 1];
      if page.overwriteContRecord {
        if q > p {
          SeenHeaderNeverFails(pages, p, first, checks, buf[..gotLen], q + 1);
        }
        return Some(Restart(q + 1)), newLen;
      }
      if !page.contRecord || page.remLen == 0 || total != page.remLen + gotLen {
        return Some(Done(Bad)), newLen;
      }
      var len := Min(|page.body|, page.remLen);
      ghost var got := buf[..gotLen];
      CopyIn(gotLen, page.body[..len]);
      newLen := gotLen + len;
      ghost var next := buf[..newLen];
      assert next == got + page.body[..len];
      if q == p && |first| < RECORD_HEADER {
        assert next[..RECORD_HEADER] == buf[..RECORD_HEADER];
        if !checks.header(buf[..RECORD_HEADER]) {
          HeaderFailsHere(pages, p, first, total, checks, next);
          return Some(Done(Bad)), newLen;
        }
      }
      PageStep(pages, p, first, total, checks, q, got, next);
      return None, newLen;
    }

    /** The loop over continuation pages; the buffer grows at most once, and only on the first of them. */
    method GatherPages(pages: seq<Page>, p: nat, ghost start: nat, first: seq<byte>, total: nat, checks: Checks, ghost segSize: nat)
      returns (ended: Option<Attempt>, q: nat, grownOn: seq<nat>)
      requires PagesOk(pages) && segSize > 0
      requires Valid()
      requires |first| < total && RECORD_HEADER <= total && |first| <= BLCKSZ
      requires total + BLCKSZ < UINT32_LIMIT
      modifies this, buf
      ensures Valid() && (buf == old(buf) || fresh(buf))
      ensures ended.Some? ==> ended.value == ManyPages(pages, p, start, first, total, checks, segSize)
      ensures ended.None? ==> p < q < |pages| && total <= buf.Length && Progress(pages, p, first, total, checks, q, buf[..total])
      ensures grownOn == [] || grownOn == [p + 1]
    {
      grownOn := [];
      CopyIn(0, first);
      var gotLen: nat := |first|;
      q := p;
      assert buf[..gotLen] == first;
      while gotLen < total
        invariant Valid() && (buf == old(buf) || fresh(buf))
        invariant gotLen <= total && gotLen <= buf.Length
        invariant q == p ==> grownOn == [] && gotLen == |first|
        invariant q > p ==> total <= buf.Length && q < |pages|
        invariant grownOn == [] || grownOn == [p + 1]
        invariant Progress(pages, p, first, total, checks, q, buf[..gotLen])
        decreases total - gotLen
      {
        var newLen;
        ended, newLen := AppendPage(pages, p, start, first, total, checks, segSize, q, gotLen);
        if ended.Some? {
          return;
        }
        gotLen := newLen;
        q := q + 1;
        if total > buf.Length {
          Grow(total, gotLen);
          grownOn := grownOn + [q];
        }
      }
      ended := None;
    }

    /** Reassembles a record that goes on past its first page: the result is that of the functional reader. */
    method Assemble(pages: seq<Page>, p: nat, start: nat, first: seq<byte>, total: nat, checks: Checks, segSize: nat)
      returns (a: Attempt, grownOn: seq<nat>)
      requires PagesOk(pages) && segSize > 0
      requires Valid()
      requires |first| < total && RECORD_HEADER <= total && |first| <= BLCKSZ
      requires total + BLCKSZ < UINT32_LIMIT
      modifies this, buf
      ensures Valid() && (buf == old(buf) || fresh(buf))
      ensures a == ManyPages(pages, p, start, first, total, checks, segSize)
      ensures grownOn == [] || grownOn == [p + 1]
    {
      var ended, q;
      ended, q, grownOn := GatherPages(pages, p, start, first, total, checks, segSize);
      if ended.Some? {
        return ended.value, grownOn;
      }
      var rec := buf[..total];
      WholeRecord(pages, p, start, first, total, checks, segSize, q, rec);
      if !checks.record(rec) {
        return Done(Bad), grownOn;
      }
      a := Done(Got(rec, p, start, AfterSwitch(rec, q * BLCKSZ + HeaderSize(pages[q]) + Align8(pages[q].remLen), segSize)));
    }

    /** Reads the record at a position, restarting where a continuation was overwritten. */
    method ReadRecord(pages: seq<Page>, page: nat, offset: nat, v: Validation, segSize: nat) returns (r: ReadResult)
      requires PagesOk(pages) && segSize > 0
      requires Valid()
      requires LengthsFit(pages, page, offset, v)
      modifies this, buf
      ensures Valid()
      ensures r == ReadFrom(pages, page, offset, v, segSize)
      ensures r.Got? && offset % 8 == 0 ==> ReadOk(pages, v(r.page, r.off), segSize, r.rec, r.page, r.off, r.next)
    {
      if ReadFrom(pages, page, offset, v, segSize).Got? && offset % 8 == 0 {
        ReadIsSound(pages, page, offset, v, segSize);
      }
      var p, off := page, offset;
      while true
        invariant Valid() && (buf == old(buf) || fresh(buf))
        invariant ReadFrom(pages, page, offset, v, segSize) == ReadFrom(pages, p, off, v, segSize)
        invariant page <= p && LengthsFit(pages, p, off, v)
        decreases |pages| - p
      {
        if p >= |pages| || !StartsRecord(pages[p], off, ChecksAt(v, pages, p, off)) {
          return Bad;
        }
        var first, checks := FirstFragment(pages[p], off), ChecksAt(v, pages, p, off);
        var total := TotalLen(first);
        if total <= |first| {
          return OnePage(p, RecordOff(pages[p], off), first[..total], checks, segSize);
        }
        var a, grownOn := Assemble(pages, p, RecordOff(pages[p], off), first, total, checks, segSize);
        if a.Done? {
          return a.result;
        }
        RestartIsLater(pages, p, off, v, segSize);
        p, off := a.page, 0;
      }
    }
  }

  /** A record that starts here, if one does, announces a length that leaves room for one page below 2^32. */
  predicate LengthFits(pages: seq<Page>, p: nat, off: nat, v: Validation) {
    p < |pages| && StartsRecord(pages[p], off, ChecksAt(v, pages, p, off)) ==>
      TotalLen(FirstFragment(pages[p], off)) + BLCKSZ < UINT32_LIMIT
  }

  /** So do the record asked for and those that overwrote a continuation behind it, where the reader restarts. */
  ghost predicate LengthsFit(pages: seq<Page>, page: nat, offset: nat, v: Validation) {
    && LengthFits(pages, page, offset, v)
    && forall p :: page < p < |pages| && pages[p].overwriteContRecord ==> LengthFits(pages, p, 0, v)
  }

  lemma {:induction false} HeaderFailsHere(pages: seq<Page>, p: nat, first: seq<byte>, total: nat, checks: Checks, next: seq<byte>)
    requires PagesOk(pages) && |first| < total && RECORD_HEADER <= total && |first| < RECORD_HEADER && p + 1 < |pages|
    requires var page := pages[p + 1];
             && !page.overwriteContRecord && page.contRecord && page.remLen != 0 && total == page.remLen + |first|
             && next == first + page.body[..Min(|page.body|, page.remLen)]
    requires |next| >= RECORD_HEADER && !checks.header(next[..RECORD_HEADER])
    ensures forall start: nat, segSize: nat :: segSize > 0 ==> ManyPages(pages, p, start, first, total, checks, segSize) == Done(Bad)
  {
    var g := Gather(pages, p + 1, total, first);
    if |next| < total {
      GatherLater(pages, p + 2, total, next);
      if g.Complete? {
        GatherSound(pages, p + 2, total, next);
      }
    }
  }
}
