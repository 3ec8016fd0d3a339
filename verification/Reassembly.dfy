/**
 Reading one WAL record across pages, fetools/pg18/xlogreader.c:206-218 and 544-898.

 A page is its header fields and the bytes behind the header.  Reading a page that is not
 there fails.  The header check and the checksum of a record are predicates of the caller.
 */
module Reassembly {
  import opened Bytes
  import opened PageFormat

  const SHORT_HEADER: nat := 24
  const LONG_HEADER: nat := 40
  const MIN_RECORD_BUF: nat := 40960

  datatype Page = Page(longHeader: bool, contRecord: bool, overwriteContRecord: bool, remLen: nat, body: seq<byte>)

  function HeaderSize(page: Page): nat {
    if page.longHeader then LONG_HEADER else SHORT_HEADER
  }

  ghost predicate PagesOk(pages: seq<Page>) {
    forall p :: 0 <= p < |pages| ==> |pages[p].body| == BLCKSZ - HeaderSize(pages[p])
  }

  // ----- How a record lies on pages

  /** `rest` continues on page `p`, under continuation headers that announce what is left. */
  ghost predicate Continues(pages: seq<Page>, p: nat, rest: seq<byte>)
    requires PagesOk(pages)
    decreases |rest|
  {
    && rest != []
    && p < |pages|
    && pages[p].contRecord && !pages[p].overwriteContRecord && pages[p].remLen == |rest|
    && var room := |pages[p].body|;
       if |rest| <= room then pages[p].body[..|rest|] == rest
       else pages[p].body == rest[..room] && Continues(pages, p + 1, rest[room..])
  }

  /** The record starts on page `p` at byte `off`, behind that page's header. */
  ghost predicate LaidOut(pages: seq<Page>, p: nat, off: nat, rec: seq<byte>)
    requires PagesOk(pages)
  {
    && p < |pages|
    && HeaderSize(pages[p]) <= off < BLCKSZ
    && var first := pages[p].body[off - HeaderSize(pages[p])..];
       if |rec| <= |first| then first[..|rec|] == rec
       else first == rec[..|first|] && Continues(pages, p + 1, rec[|first|..])
  }

  /** One past the last byte of `n` bytes that continue on page `p`. */
  function ContinuationEnd(pages: seq<Page>, p: nat, n: nat): nat
    requires PagesOk(pages)
    decreases n
  {
    if p >= |pages| || n <= |pages[p].body| then p * BLCKSZ + (if p < |pages| then HeaderSize(pages[p]) else 0) + n
    else ContinuationEnd(pages, p + 1, n - |pages[p].body|)
  }

  /** One past the last byte of a record of `n` bytes that starts on page `p` at byte `off`. */
  function LayoutEnd(pages: seq<Page>, p: nat, off: nat, n: nat): nat
    requires PagesOk(pages) && off <= BLCKSZ
  {
    if off + n <= BLCKSZ then p * BLCKSZ + off + n else ContinuationEnd(pages, p + 1, n - (BLCKSZ - off))
  }

  // ----- Gathering the continuation pages

  datatype Gathered = Complete(rec: seq<byte>, page: nat) | Overwritten(page: nat) | Broken

  /** What the reader makes of the pages from `p` on, having `got` of `total` bytes. */
  function Gather(pages: seq<Page>, p: nat, total: nat, got: seq<byte>): Gathered
    requires PagesOk(pages) && |got| < total
    decreases total - |got|
  {
    if p >= |pages| then Broken
    else
      var page := pages[p];
      if page.overwriteContRecord then Overwritten(p)
      else if !page.contRecord || page.remLen == 0 || total != page.remLen + |got| then Broken
      else
        var next := got + page.body[..Min(|page.body|, page.remLen)];
        if |next| >= total then Complete(next, p) else Gather(pages, p + 1, total, next)
  }

  /** Whatever is gathered is laid out on the pages, and the last page tells where it ends. */
  lemma {:induction false} GatherSound(pages: seq<Page>, p: nat, total: nat, got: seq<byte>)
    requires PagesOk(pages) && |got| < total
    requires Gather(pages, p, total, got).Complete?
    ensures var g := Gather(pages, p, total, got);
            && |g.rec| == total && got <= g.rec
            && Continues(pages, p, g.rec[|got|..])
            && p <= g.page < |pages|
            && ContinuationEnd(pages, p, total - |got|) == g.page * BLCKSZ + HeaderSize(pages[g.page]) + pages[g.page].remLen
    decreases total - |got|
  {
    var g, page := Gather(pages, p, total, got), pages[p];
    var next := got + page.body[..Min(|page.body|, page.remLen)];
    if |next| < total {
      GatherSound(pages, p + 1, total, next);
      var rest := g.rec[|got|..];
      assert rest[..|page.body|] == page.body;
      assert rest[|page.body|..] == g.rec[|next|..];
    } else {
      assert g.rec[|got|..] == page.body[..page.remLen];
    }
  }

  /** A continuation laid out correctly is gathered byte for byte. */
  lemma {:induction false} GatherComplete(pages: seq<Page>, p: nat, got: seq<byte>, rest: seq<byte>)
    requires PagesOk(pages) && Continues(pages, p, rest)
    ensures Gather(pages, p, |got| + |rest|, got).Complete?
    ensures Gather(pages, p, |got| + |rest|, got).rec == got + rest
    decreases |rest|
  {
    var room := |pages[p].body|;
    if |rest| > room {
      GatherComplete(pages, p + 1, got + rest[..room], rest[room..]);
      assert pages[p].body[..room] == rest[..room];
      assert |got + rest[..room]| + |rest[room..]| == |got| + |rest|;
      assert got + rest[..room] + rest[room..] == got + rest;
    }
  }

  // ----- Reading the record at a position

  datatype Checks = Checks(header: seq<byte> -> bool, record: seq<byte> -> bool)

  /** The checks for a record that starts on a page at a byte: they know its address. */
  type Validation = (nat, nat) -> Checks

  /** The checks for the record that a reader sent to this place finds. */
  function ChecksAt(v: Validation, pages: seq<Page>, p: nat, off: nat): Checks
    requires p < |pages|
  {
    v(p, RecordOff(pages[p], off))
  }

  /** The length field: the first four bytes, little-endian. */
  function TotalLen(rec: seq<byte>): nat
    requires |rec| >= 4
  {
    U32(rec, 0)
  }

  predicate IsSwitch(rec: seq<byte>)
    requires |rec| >= RECORD_HEADER
  {
    rec[17] == 0 && rec[16] / 16 == 4
  }

  /** A log-switch record is taken to reach to the end of its segment. */
  function AfterSwitch(rec: seq<byte>, next: nat, segSize: nat): nat
    requires |rec| >= RECORD_HEADER && segSize > 0
  {
    if IsSwitch(rec) then (next + (segSize - 1)) / segSize * segSize else next
  }

  /** A record, the page and byte it starts at, and the address behind it. */
  datatype ReadResult = Got(rec: seq<byte>, page: nat, off: nat, next: nat) | Bad

  /** Where on its page the record proper starts: behind the header if the reader was sent to the page's start. */
  function RecordOff(page: Page, off: nat): nat {
    if off == 0 then HeaderSize(page) else off
  }

  /** What is on the page from the record's start on. */
  function FirstFragment(page: Page, off: nat): seq<byte>
    requires HeaderSize(page) <= RecordOff(page, off) <= HeaderSize(page) + |page.body|
  {
    page.body[RecordOff(page, off) - HeaderSize(page)..]
  }

  /** Everything that is checked before the continuation pages are looked at. */
  predicate StartsRecord(page: Page, off: nat, checks: Checks) {
    && HeaderSize(page) <= RecordOff(page, off) <= HeaderSize(page) + |page.body|
    && !(page.contRecord && RecordOff(page, off) == HeaderSize(page))
    && var first := FirstFragment(page, off);
       && |first| >= 8
       && (|first| >= RECORD_HEADER ==> checks.header(first[..RECORD_HEADER]))
       && TotalLen(first) >= RECORD_HEADER
  }

  /** A header split over the page boundary is checked once the second page has been read, if it was. */
  predicate HeaderFails(first: seq<byte>, pages: seq<Page>, p: nat, checks: Checks, reached: nat) {
    && |first| < RECORD_HEADER
    && p < reached && p < |pages|
    && var split := first + pages[p].body[..Min(|pages[p].body|, pages[p].remLen)];
       |split| >= RECORD_HEADER && !checks.header(split[..RECORD_HEADER])
  }

  datatype Attempt = Done(result: ReadResult) | Restart(page: nat)

  /** The record is all on the first page. */
  function OnePage(p: nat, start: nat, rec: seq<byte>, checks: Checks, segSize: nat): ReadResult
    requires |rec| >= RECORD_HEADER && segSize > 0
  {
    if checks.record(rec) then Got(rec, p, start, AfterSwitch(rec, p * BLCKSZ + start + Align8(|rec|), segSize)) else Bad
  }

  /** The record goes on; a continuation overwritten by a new record asks to restart at that page. */
  function ManyPages(pages: seq<Page>, p: nat, start: nat, first: seq<byte>, total: nat, checks: Checks, segSize: nat): Attempt
    requires PagesOk(pages) && segSize > 0 && |first| < total && RECORD_HEADER <= total
  {
    match Gather(pages, p + 1, total, first)
    case Broken => Done(Bad)
    case Overwritten(q) => if HeaderFails(first, pages, p + 1, checks, q) then Done(Bad) else Restart(q)
    case Complete(rec, q) =>
      GatherSound(pages, p + 1, total, first);
      Done(if HeaderFails(first, pages, p + 1, checks, q + 1) || !checks.record(rec) then Bad
           else Got(rec, p, start, AfterSwitch(rec, q * BLCKSZ + HeaderSize(pages[q]) + Align8(pages[q].remLen), segSize)))
  }

  function Try(pages: seq<Page>, p: nat, off: nat, v: Validation, segSize: nat): Attempt
    requires PagesOk(pages) && segSize > 0
  {
    if p >= |pages| || !StartsRecord(pages[p], off, ChecksAt(v, pages, p, off)) then Done(Bad)
    else
      var first, start := FirstFragment(pages[p], off), RecordOff(pages[p], off);
      var total := TotalLen(first);
      if total <= |first| then Done(OnePage(p, start, first[..total], ChecksAt(v, pages, p, off), segSize))
      else ManyPages(pages, p, start, first, total, ChecksAt(v, pages, p, off), segSize)
  }

  lemma {:induction false} RestartIsLater(pages: seq<Page>, p: nat, off: nat, v: Validation, segSize: nat)
    requires PagesOk(pages) && segSize > 0 && Try(pages, p, off, v, segSize).Restart?
    ensures var q := Try(pages, p, off, v, segSize).page; p < q < |pages| && pages[q].overwriteContRecord
  {
    var first := FirstFragment(pages[p], off);
    GatherLater(pages, p + 1, TotalLen(first), first);
  }

  /** The reader, as a function. */
  function ReadFrom(pages: seq<Page>, p: nat, off: nat, v: Validation, segSize: nat): ReadResult
    requires PagesOk(pages) && segSize > 0
    decreases |pages| - p
  {
    match Try(pages, p, off, v, segSize)
    case Done(r) => r
    case Restart(q) =>
      RestartIsLater(pages, p, off, v, segSize);
      ReadFrom(pages, q, 0, v, segSize)
  }

  lemma {:induction false} GatherLater(pages: seq<Page>, p: nat, total: nat, got: seq<byte>)
    requires PagesOk(pages) && |got| < total
    ensures var g := Gather(pages, p, total, got);
            g.Overwritten? ==> p <= g.page < |pages| && pages[g.page].overwriteContRecord
    decreases total - |got|
  {
    if p < |pages| {
      var page := pages[p];
      if !page.overwriteContRecord && page.contRecord && page.remLen != 0 && total == page.remLen + |got| {
        var next := got + page.body[..Min(|page.body|, page.remLen)];
        if |next| < total {
          GatherLater(pages, p + 1, total, next);
        }
      }
    }
  }

  // ----- What the reader promises

  lemma {:induction false} AlignShift(x: nat, n: nat)
    requires x % 8 == 0
    ensures x + Align8(n) == Align8(x + n)
  {
    DivUnique(x + n + 7, 8, x / 8 + (n + 7) / 8, (n + 7) % 8);
  }

  lemma {:induction false} AlignHeader(page: Page, q: nat, rem: nat)
    ensures q * BLCKSZ + HeaderSize(page) + Align8(rem) == Align8(q * BLCKSZ + HeaderSize(page) + rem)
  {
    DivUnique(q * BLCKSZ + HeaderSize(page), 8, q * 1024 + HeaderSize(page) / 8, 0);
    AlignShift(q * BLCKSZ + HeaderSize(page), rem);
  }

  lemma {:induction false} AlignStart(p: nat, off: nat, n: nat)
    requires off % 8 == 0
    ensures p * BLCKSZ + off + Align8(n) == Align8(p * BLCKSZ + off + n)
  {
    DivUnique(p * BLCKSZ + off, 8, p * 1024 + off / 8, 0);
    AlignShift(p * BLCKSZ + off, n);
  }

  /** A record by resource manager 0 with information 64 ends its segment; any other ends where it ends. */
  predicate GoesOnAt(rec: seq<byte>, end: nat, segSize: nat, next: nat)
    requires |rec| >= RECORD_HEADER && segSize > 0
  {
    if rec[17] == 0 && rec[16] / 16 == 4 then next % segSize == 0 && end <= next < end + segSize else next == end
  }

  lemma {:induction false} SwitchRoundsUp(rec: seq<byte>, end: nat, segSize: nat)
    requires |rec| >= RECORD_HEADER && segSize > 0
    ensures GoesOnAt(rec, end, segSize, AfterSwitch(rec, end, segSize))
  {
    var q, r := (end + (segSize - 1)) / segSize, (end + (segSize - 1)) % segSize;
    assert end + (segSize - 1) == segSize * q + r;
    assert q * segSize == segSize * q;
    DivUnique(q * segSize, segSize, q, 0);
  }

  /**
   The record lies where it is said to, has its announced length, passed the header check and
   the record check for its address, and `next` is its aligned end, or the end of its segment
   if it is a log switch.
   */
  ghost predicate ReadOk(pages: seq<Page>, checks: Checks, segSize: nat, rec: seq<byte>, p: nat, off: nat, next: nat)
    requires PagesOk(pages) && segSize > 0
  {
    && |rec| >= RECORD_HEADER && |rec| == TotalLen(rec)
    && LaidOut(pages, p, off, rec)
    && checks.header(rec[..RECORD_HEADER]) && checks.record(rec)
    && GoesOnAt(rec, Align8(LayoutEnd(pages, p, off, |rec|)), segSize, next)
  }

  lemma {:induction false} OnePageIsSound(pages: seq<Page>, p: nat, start: nat, rec: seq<byte>, checks: Checks, segSize: nat)
    requires PagesOk(pages) && segSize > 0 && start % 8 == 0 && p < |pages| && HeaderSize(pages[p]) <= start < BLCKSZ
    requires |rec| >= RECORD_HEADER && |rec| == TotalLen(rec)
    requires rec <= pages[p].body[start - HeaderSize(pages[p])..] && checks.header(rec[..RECORD_HEADER])
    ensures var r := OnePage(p, start, rec, checks, segSize);
            r.Got? ==> ReadOk(pages, checks, segSize, r.rec, r.page, r.off, r.next)
  {
    AlignStart(p, start, |rec|);
    SwitchRoundsUp(rec, p * BLCKSZ + start + Align8(|rec|), segSize);
  }

  lemma {:induction false} GatheredIsLaidOut(pages: seq<Page>, p: nat, start: nat, first: seq<byte>, total: nat, rec: seq<byte>, q: nat)
    requires PagesOk(pages) && p < |pages| && HeaderSize(pages[p]) <= start < BLCKSZ
    requires first == pages[p].body[start - HeaderSize(pages[p])..]
    requires |first| < total
    requires Gather(pages, p + 1, total, first) == Complete(rec, q)
    ensures |rec| == total && first <= rec && q < |pages|
    ensures LaidOut(pages, p, start, rec)
    ensures q * BLCKSZ + HeaderSize(pages[q]) + Align8(pages[q].remLen) == Align8(LayoutEnd(pages, p, start, total))
  {
    GatherSound(pages, p + 1, total, first);
    AlignHeader(pages[q], q, pages[q].remLen);
    assert rec[..|first|] == first;
    assert LayoutEnd(pages, p, start, total) == ContinuationEnd(pages, p + 1, total - |first|);
  }

  /** A header split over a page boundary has been checked if the split header did not fail. */
  lemma {:induction false} HeaderWasChecked(first: seq<byte>, pages: seq<Page>, p: nat, rec: seq<byte>, checks: Checks, reached: nat)
    requires PagesOk(pages) && |first| < |rec| && first <= rec && |rec| >= RECORD_HEADER
    requires Continues(pages, p, rec[|first|..]) && p < reached
    requires |first| >= RECORD_HEADER ==> checks.header(first[..RECORD_HEADER])
    requires !HeaderFails(first, pages, p, checks, reached)
    ensures checks.header(rec[..RECORD_HEADER])
  {
    if |first| >= RECORD_HEADER {
      assert rec[..RECORD_HEADER] == first[..RECORD_HEADER];
    } else {
      var rest := rec[|first|..];
      var part := pages[p].body[..Min(|pages[p].body|, pages[p].remLen)];
      assert part == rest[..|part|];
      assert (first + part)[..RECORD_HEADER] == rec[..RECORD_HEADER];
    }
  }

  lemma {:induction false} GatheredPassed(pages: seq<Page>, p: nat, first: seq<byte>, total: nat, checks: Checks, rec: seq<byte>, q: nat)
    requires PagesOk(pages) && 4 <= |first| < total && RECORD_HEADER <= total
    requires Gather(pages, p + 1, total, first) == Complete(rec, q)
    requires |first| >= RECORD_HEADER ==> checks.header(first[..RECORD_HEADER])
    requires !HeaderFails(first, pages, p + 1, checks, q + 1)
    ensures |rec| == total && checks.header(rec[..RECORD_HEADER]) && TotalLen(rec) == TotalLen(first)
  {
    GatherSound(pages, p + 1, total, first);
    HeaderWasChecked(first, pages, p + 1, rec, checks, q + 1);
  }

  lemma {:induction false} GatheredIsOk(pages: seq<Page>, p: nat, start: nat, first: seq<byte>, total: nat, checks: Checks, segSize: nat,
                                       rec: seq<byte>, q: nat)
    requires PagesOk(pages) && segSize > 0 && p < |pages| && HeaderSize(pages[p]) <= start < BLCKSZ
    requires first == pages[p].body[start - HeaderSize(pages[p])..]
    requires 4 <= |first| < total && total == TotalLen(first) && RECORD_HEADER <= total
    requires |first| >= RECORD_HEADER ==> checks.header(first[..RECORD_HEADER])
    requires Gather(pages, p + 1, total, first) == Complete(rec, q) && !HeaderFails(first, pages, p + 1, checks, q + 1)
    ensures q < |pages| && |rec| >= RECORD_HEADER
    ensures checks.record(rec) ==> ReadOk(pages, checks, segSize, rec, p, start,
              AfterSwitch(rec, q * BLCKSZ + HeaderSize(pages[q]) + Align8(pages[q].remLen), segSize))
  {
    GatheredIsLaidOut(pages, p, start, first, total, rec, q);
    GatheredPassed(pages, p, first, total, checks, rec, q);
    SwitchRoundsUp(rec, q * BLCKSZ + HeaderSize(pages[q]) + Align8(pages[q].remLen), segSize);
  }

  lemma {:induction false} ManyPagesAreSound(pages: seq<Page>, p: nat, start: nat, first: seq<byte>, total: nat, checks: Checks, segSize: nat)
    requires PagesOk(pages) && segSize > 0 && p < |pages| && HeaderSize(pages[p]) <= start < BLCKSZ
    requires first == pages[p].body[start - HeaderSize(pages[p])..]
    requires 4 <= |first| < total && total == TotalLen(first) && RECORD_HEADER <= total
    requires |first| >= RECORD_HEADER ==> checks.header(first[..RECORD_HEADER])
    ensures match ManyPages(pages, p, start, first, total, checks, segSize)
            case Done(Got(rec, page, off, next)) => ReadOk(pages, checks, segSize, rec, page, off, next)
            case _ => true
  {
    var g := Gather(pages, p + 1, total, first);
    if g.Complete? && !HeaderFails(first, pages, p + 1, checks, g.page + 1) {
      GatheredIsOk(pages, p, start, first, total, checks, segSize, g.rec, g.page);
    }
  }

  lemma {:induction false} FragmentIsRecord(first: seq<byte>)
    requires |first| >= 4 && RECORD_HEADER <= TotalLen(first) <= |first|
    ensures var rec := first[..TotalLen(first)];
      rec <= first && TotalLen(rec) == |rec| && rec[..RECORD_HEADER] == first[..RECORD_HEADER]
  {
  }

  /** A reader sent to where a page continues a record gets nothing. */
  lemma {:induction false} NoneInsideARecord(pages: seq<Page>, p: nat, off: nat, v: Validation, segSize: nat)
    requires PagesOk(pages) && segSize > 0 && p < |pages|
    requires pages[p].contRecord && HeaderSize(pages[p]) == if off == 0 then HeaderSize(pages[p]) else off
    ensures Try(pages, p, off, v, segSize) == Done(Bad)
  {
  }

  /** The attempt gave up, asks to start anew, or read a record soundly at this place. */
  ghost predicate SoundAt(pages: seq<Page>, p: nat, start: nat, checks: Checks, segSize: nat, t: Attempt)
    requires PagesOk(pages) && segSize > 0
  {
    t.Done? && t.result.Got? ==>
      && t.result.page == p && t.result.off == start
      && ReadOk(pages, checks, segSize, t.result.rec, p, start, t.result.next)
  }

  lemma {:induction false} ShortAttemptIsSound(pages: seq<Page>, p: nat, start: nat, first: seq<byte>, checks: Checks, segSize: nat)
    requires PagesOk(pages) && segSize > 0 && start % 8 == 0 && p < |pages| && HeaderSize(pages[p]) <= start < BLCKSZ
    requires first == pages[p].body[start - HeaderSize(pages[p])..]
    requires |first| >= 4 && RECORD_HEADER <= TotalLen(first) <= |first| && checks.header(first[..RECORD_HEADER])
    ensures SoundAt(pages, p, start, checks, segSize, Done(OnePage(p, start, first[..TotalLen(first)], checks, segSize)))
  {
    FragmentIsRecord(first);
    OnePageIsSound(pages, p, start, first[..TotalLen(first)], checks, segSize);
  }

  lemma {:induction false} AttemptIsSound(pages: seq<Page>, p: nat, off: nat, v: Validation, segSize: nat)
    requires PagesOk(pages) && segSize > 0 && off % 8 == 0 && p < |pages|
    ensures var start := if off == 0 then HeaderSize(pages[p]) else off;
            SoundAt(pages, p, start, v(p, start), segSize, Try(pages, p, off, v, segSize))
  {
    var start, checks := RecordOff(pages[p], off), ChecksAt(v, pages, p, off);
    if StartsRecord(pages[p], off, checks) {
      var first := FirstFragment(pages[p], off);
      if TotalLen(first) <= |first| {
        ShortAttemptIsSound(pages, p, start, first, checks, segSize);
      } else {
        ManyPagesAreSound(pages, p, start, first, TotalLen(first), checks, segSize);
      }
    }
  }

  /**
   Whatever the pages hold, a record that is returned was laid out where it is said to be and
   passed both checks.  That is where the reader was sent, behind the page header if to a page's
   start, or else at the start of a later page that overwrote a continuation; never where a
   page continues a record.
   */
  lemma {:induction false} ReadIsSound(pages: seq<Page>, p: nat, off: nat, v: Validation, segSize: nat)
    requires PagesOk(pages) && segSize > 0 && off % 8 == 0
    requires ReadFrom(pages, p, off, v, segSize).Got?
    ensures var r := ReadFrom(pages, p, off, v, segSize);
      && ReadOk(pages, v(r.page, r.off), segSize, r.rec, r.page, r.off, r.next)
      && p <= r.page < |pages|
      && !(pages[r.page].contRecord && r.off == HeaderSize(pages[r.page]))
      && (r.page == p ==> r.off == if off == 0 then HeaderSize(pages[p]) else off)
      && (r.page > p ==> pages[r.page].overwriteContRecord && r.off == HeaderSize(pages[r.page]))
    decreases |pages| - p
  {
    var t := Try(pages, p, off, v, segSize);
    if t.Done? {
      AttemptIsSound(pages, p, off, v, segSize);
      if pages[p].contRecord && t.result.off == HeaderSize(pages[p]) {
        NoneInsideARecord(pages, p, off, v, segSize);
        assert false;
      }
    } else {
      RestartIsLater(pages, p, off, v, segSize);
      ReadIsSound(pages, t.page, 0, v, segSize);
    }
  }

  lemma {:induction false} ManyPagesComplete(pages: seq<Page>, p: nat, start: nat, first: seq<byte>, rec: seq<byte>, checks: Checks,
                                             segSize: nat)
    requires PagesOk(pages) && segSize > 0 && |first| < |rec| && RECORD_HEADER <= |rec|
    requires rec[..|first|] == first && Continues(pages, p + 1, rec[|first|..])
    requires checks.header(rec[..RECORD_HEADER]) && checks.record(rec)
    ensures var t := ManyPages(pages, p, start, first, |rec|, checks, segSize);
            t.Done? && t.result.Got? && t.result.rec == rec && t.result.page == p && t.result.off == start
  {
    var rest := rec[|first|..];
    GatherComplete(pages, p + 1, first, rest);
    assert first + rest == rec;
    SplitHeaderPasses(first, pages, p + 1, rec, checks);
  }

  lemma {:induction false} SamePrefix(a: seq<byte>, b: seq<byte>, n: nat)
    requires 4 <= n <= |a| && n <= |b| && a[..n] == b[..n]
    ensures TotalLen(a) == TotalLen(b)
    ensures forall k: nat :: k <= n ==> a[..k] == b[..k]
  {
  }

  lemma {:induction false} StartIsAccepted(pages: seq<Page>, p: nat, off: nat, rec: seq<byte>, checks: Checks)
    requires PagesOk(pages) && off % 8 == 0
    requires p < |pages| && !(pages[p].contRecord && RecordOff(pages[p], off) == HeaderSize(pages[p]))
    requires |rec| >= RECORD_HEADER && |rec| == TotalLen(rec) && LaidOut(pages, p, RecordOff(pages[p], off), rec)
    requires checks.header(rec[..RECORD_HEADER])
    ensures StartsRecord(pages[p], off, checks)
    ensures TotalLen(FirstFragment(pages[p], off)) == |rec|
  {
    var first := FirstFragment(pages[p], off);
    assert |first| == BLCKSZ - RecordOff(pages[p], off);
    var n := Min(|first|, |rec|);
    assert first[..n] == rec[..n];
    SamePrefix(first, rec, n);
  }

  /** Every record that is laid out correctly and passes the checks is returned byte for byte. */
  lemma {:induction false} ReadIsComplete(pages: seq<Page>, p: nat, off: nat, start: nat, rec: seq<byte>, v: Validation, segSize: nat)
    requires PagesOk(pages) && segSize > 0 && off % 8 == 0 && p < |pages|
    requires start == (if off == 0 then HeaderSize(pages[p]) else off) && !(pages[p].contRecord && start == HeaderSize(pages[p]))
    requires |rec| >= RECORD_HEADER && |rec| == TotalLen(rec) && LaidOut(pages, p, start, rec)
    requires v(p, start).header(rec[..RECORD_HEADER]) && v(p, start).record(rec)
    ensures var r := ReadFrom(pages, p, off, v, segSize);
            r.Got? && r.rec == rec && r.page == p && r.off == start
  {
    var checks := v(p, start);
    StartIsAccepted(pages, p, off, rec, checks);
    var first := FirstFragment(pages[p], off);
    if |rec| > |first| {
      ManyPagesComplete(pages, p, start, first, rec, checks, segSize);
    }
  }

  /** With `left` bytes to come from page `p` on, the pages continue the record up to page `q`, which overwrote it. */
  ghost predicate CutOff(pages: seq<Page>, p: nat, left: nat, q: nat)
    requires PagesOk(pages)
    decreases left
  {
    && p <= q < |pages|
    && if p == q then pages[q].overwriteContRecord
       else
         && pages[p].contRecord && !pages[p].overwriteContRecord && |pages[p].body| < pages[p].remLen == left
         && CutOff(pages, p + 1, left - |pages[p].body|, q)
  }

  lemma {:induction false} GatherIsOverwrittenIff(pages: seq<Page>, p: nat, total: nat, got: seq<byte>, q: nat)
    requires PagesOk(pages) && |got| < total
    ensures Gather(pages, p, total, got) == Overwritten(q) <==> CutOff(pages, p, total - |got|, q)
    decreases total - |got|
  {
    if p < |pages| {
      var page := pages[p];
      var next := got + page.body[..Min(|page.body|, page.remLen)];
      if !page.overwriteContRecord && page.contRecord && total == page.remLen + |got| && |next| < total {
        GatherIsOverwrittenIff(pages, p + 1, total, next, q);
      }
    }
  }

  /** A record is cut off at page `q`: what is there of its header passes, and its continuation was overwritten. */
  ghost predicate CutOffAt(pages: seq<Page>, p: nat, start: nat, checks: Checks, q: nat)
    requires PagesOk(pages)
  {
    && p < |pages| && HeaderSize(pages[p]) <= start <= BLCKSZ - 8 && !(pages[p].contRecord && start == HeaderSize(pages[p]))
    && var first := pages[p].body[start - HeaderSize(pages[p])..];
       && TotalLen(first) >= RECORD_HEADER && TotalLen(first) > |first|
       && CutOff(pages, p + 1, TotalLen(first) - |first|, q)
       && var seen := if |first| < RECORD_HEADER && p + 1 < q then first + pages[p + 1].body else first;
          |seen| >= RECORD_HEADER ==> checks.header(seen[..RECORD_HEADER])
  }

  /** Reading starts anew at a page if and only if the record is cut off there. */
  lemma {:induction false} CutOffRestarts(pages: seq<Page>, p: nat, off: nat, v: Validation, segSize: nat, q: nat)
    requires PagesOk(pages) && segSize > 0 && p < |pages|
    ensures Try(pages, p, off, v, segSize) == Restart(q) <==> CutOffAt(pages, p, RecordOff(pages[p], off), ChecksAt(v, pages, p, off), q)
  {
    var start, checks := RecordOff(pages[p], off), ChecksAt(v, pages, p, off);
    if HeaderSize(pages[p]) <= start <= BLCKSZ - 8 {
      var first := FirstFragment(pages[p], off);
      if TotalLen(first) > |first| {
        GatherIsOverwrittenIff(pages, p + 1, TotalLen(first), first, q);
        if |first| < RECORD_HEADER && CutOff(pages, p + 1, TotalLen(first) - |first|, q) {
          SplitHeaderIsSeen(pages, p + 1, TotalLen(first) - |first|, first, checks, q);
        }
      }
    }
  }

  lemma {:induction false} SplitHeaderIsSeen(pages: seq<Page>, p: nat, left: nat, first: seq<byte>, checks: Checks, q: nat)
    requires PagesOk(pages) && CutOff(pages, p, left, q) && |first| < RECORD_HEADER
    ensures HeaderFails(first, pages, p, checks, q) <==> p < q && !checks.header((first + pages[p].body)[..RECORD_HEADER])
  {
    if p < q {
      assert pages[p].body[..Min(|pages[p].body|, pages[p].remLen)] == pages[p].body;
    }
  }

  /** In place of a record that is cut off, the one laid out at the start of the page that overwrote it is returned. */
  lemma {:induction false} CutOffIsSkipped(pages: seq<Page>, p: nat, off: nat, start: nat, q: nat, rec: seq<byte>, v: Validation, segSize: nat)
    requires PagesOk(pages) && segSize > 0 && p < |pages| && start == if off == 0 then HeaderSize(pages[p]) else off
    requires CutOffAt(pages, p, start, v(p, start), q)
    requires !pages[q].contRecord
    requires |rec| >= RECORD_HEADER && |rec| == TotalLen(rec) && LaidOut(pages, q, HeaderSize(pages[q]), rec)
    requires v(q, HeaderSize(pages[q])).header(rec[..RECORD_HEADER]) && v(q, HeaderSize(pages[q])).record(rec)
    ensures var r := ReadFrom(pages, p, off, v, segSize);
            r.Got? && r.rec == rec && r.page == q && r.off == HeaderSize(pages[q])
  {
    CutOffRestarts(pages, p, off, v, segSize, q);
    RestartIsLater(pages, p, off, v, segSize);
    ReadIsComplete(pages, q, 0, HeaderSize(pages[q]), rec, v, segSize);
  }

  lemma {:induction false} SplitHeaderPasses(first: seq<byte>, pages: seq<Page>, p: nat, rec: seq<byte>, checks: Checks)
    requires PagesOk(pages)
    requires |first| < |rec| && rec[..|first|] == first && Continues(pages, p, rec[|first|..])
    requires |rec| >= RECORD_HEADER && checks.header(rec[..RECORD_HEADER])
    ensures forall reached :: 0 <= reached ==> !HeaderFails(first, pages, p, checks, reached)
  {
    if |first| < RECORD_HEADER {
      var rest := rec[|first|..];
      var part := pages[p].body[..Min(|pages[p].body|, pages[p].remLen)];
      assert part == rest[..|part|];
      assert (first + part)[..RECORD_HEADER] == rec[..RECORD_HEADER];
    }
  }
}
