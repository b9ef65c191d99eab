/** The micro-log of a file: an index table of region numbers and a table of records, laid
    over the immutable base extent. Content is defined byte by byte: the newest record of
    the byte's region, or else the base. */
module CoffeeLog {
  import opened CoffeeFlash
  import opened CoffeeLayout
  import opened CoffeeSpace

  function ByteAt(f: Flash, i: int): byte { if 0 <= i < |f| then f[i] else 0 }

  /** absolute_offset(page, 0). */
  function DataStart(g: Geometry, page: nat): nat { g.At(page) + HEADER_SIZE }

  /** The bytes of an extent that can hold data. */
  function Capacity(g: Geometry, f: Flash, q: nat): int { g.At(q + MaxPages(g, f, q)) - DataStart(g, q) }

  lemma {:induction false} TimesAdd(m: nat, n: nat, k: nat)
    ensures Times(m + n, k) == Times(m, k) + Times(n, k)
  {
    if n != 0 {
      TimesAdd(m, n - 1, k);
    }
  }

  /** The capacity in the terms of the C code: max_pages * page size less the header. */
  lemma CapacityIs(g: Geometry, f: Flash, q: nat)
    ensures Capacity(g, f, q) == g.At(MaxPages(g, f, q)) - HEADER_SIZE
  {
    TimesAdd(q, MaxPages(g, f, q), g.pageSize);
  }

  // ----- log configuration (adjust_log_config) -----

  function RecordSize(g: Geometry, h: Header): nat {
    if h.logRecordSize <= 0 then g.pageSize else h.logRecordSize
  }

  function Records(g: Geometry, h: Header): nat {
    if h.logRecords <= 0 then Low16(Quot(g.logSize, RecordSize(g, h))) else h.logRecords
  }

  /** What cfs_coffee_configure_log can have stored, for tables of one batch. */
  predicate ConfigOk(g: Geometry, h: Header) {
    && 1 <= RecordSize(g, h) <= g.pageSize && 1 <= Records(g, h) <= g.logTableLimit
    && (h.logRecordSize == 0 ==> h.logRecords == 0)
  }

  lemma ConfigBounds(g: Geometry, h: Header)
    requires ConfigOk(g, h)
    ensures 1 <= RecordSize(g, h) <= g.pageSize && 1 <= Records(g, h) <= g.logTableLimit
  {}

  /** Every region of so many bytes has a number below 2^16 - 1, so that an index entry tells it. */
  predicate RegionsFit(capacity: int, rs: nat) { capacity <= Times(0xFFFF, rs) }

  // ----- regions -----

  /** The position of byte i inside its region. */
  function Rem(i: nat, rs: nat): int { i - Times(Quot(i, rs), rs) }

  lemma RegionOf(region: nat, rs: nat, j: nat)
    requires 1 <= rs && j < rs
    ensures Quot(Times(region, rs) + j, rs) == region && Rem(Times(region, rs) + j, rs) == j
  {
    QuotBounds(Times(region, rs) + j, rs);
    var q := Quot(Times(region, rs) + j, rs);
    if q < region { TimesMono(q + 1, region, rs); }
    if region < q { TimesMono(region + 1, q, rs); }
  }

  lemma RegionSmall(i: nat, rs: nat, bound: nat)
    requires 1 <= rs && i < Times(bound, rs)
    ensures Quot(i, rs) < bound && 0 <= Rem(i, rs) < rs
  {
    QuotBounds(i, rs);
    if bound <= Quot(i, rs) { TimesMono(bound, Quot(i, rs), rs); }
  }

  // ----- the tables -----

  /** Entry k of the index table: the region number plus one, or zero while the record is free. */
  function Index(g: Geometry, f: Flash, log: nat, k: nat): int {
    ByteAt(f, DataStart(g, log) + 2 * k) as int + 256 * (ByteAt(f, DataStart(g, log) + 2 * k + 1) as int)
  }

  function RecordStart(g: Geometry, log: nat, n: nat, rs: nat, k: nat): nat {
    DataStart(g, log) + 2 * n + Times(k, rs)
  }

  /** The newest of the first n records that holds the region, or -1. */
  function Newest(g: Geometry, f: Flash, log: nat, n: nat, region: int): int {
    if n == 0 then -1
    else if Index(g, f, log, n - 1) == region + 1 then n - 1
    else Newest(g, f, log, n - 1, region)
  }

  /** The first free record in [k, n), or n. */
  function FirstFree(g: Geometry, f: Flash, log: nat, k: nat, n: nat): nat
    decreases n - k
  {
    if k >= n then n else if Index(g, f, log, k) == 0 then k else FirstFree(g, f, log, k + 1, n)
  }

  lemma {:induction false} NewestFacts(g: Geometry, f: Flash, log: nat, n: nat, region: int)
    ensures var k := Newest(g, f, log, n, region);
      && -1 <= k < n && (k >= 0 ==> Index(g, f, log, k) == region + 1)
      && (forall j :: k < j < n ==> Index(g, f, log, j) != region + 1)
  {
    hide Index;
    if n != 0 && Index(g, f, log, n - 1) != region + 1 {
      NewestFacts(g, f, log, n - 1, region);
    }
  }

  lemma {:induction false} NewestUnique(g: Geometry, f: Flash, log: nat, n: nat, region: int, k: int)
    requires -1 <= k < n && (k >= 0 ==> Index(g, f, log, k) == region + 1)
    requires forall j :: k < j < n ==> Index(g, f, log, j) != region + 1
    ensures Newest(g, f, log, n, region) == k
  {
    hide Index;
    NewestFacts(g, f, log, n, region);
  }

  lemma {:induction false} FirstFreeFacts(g: Geometry, f: Flash, log: nat, k: nat, n: nat)
    requires k <= n
    ensures var c := FirstFree(g, f, log, k, n);
      && k <= c <= n && (c < n ==> Index(g, f, log, c) == 0)
      && (forall j :: k <= j < c ==> Index(g, f, log, j) != 0)
    decreases n - k
  {
    hide Index;
    if k < n && Index(g, f, log, k) != 0 {
      FirstFreeFacts(g, f, log, k + 1, n);
    }
  }

  /** The records from the first free one on are all free and their space is erased. */
  predicate TableOk(g: Geometry, f: Flash, log: nat, n: nat, rs: nat) {
    forall j :: FirstFree(g, f, log, 0, n) <= j < n ==>
      Index(g, f, log, j) == 0 && ZeroRange(f, RecordStart(g, log, n, rs, j), RecordStart(g, log, n, rs, j + 1))
  }

  /** The log extent has room for both tables. */
  predicate LogFits(g: Geometry, f: Flash, log: nat, n: nat, rs: nat) {
    RecordStart(g, log, n, rs, n) <= g.At(log + MaxPages(g, f, log))
  }

  // ----- content -----

  /** Byte i of the file at page q. */
  function ViewByte(g: Geometry, f: Flash, q: nat, i: nat): byte {
    var h := HeaderAt(g, f, q);
    var rs, n := RecordSize(g, h), Records(g, h);
    if !h.modified || h.logPage < 0 then ByteAt(f, DataStart(g, q) + i)
    else
      var k := Newest(g, f, h.logPage, n, Quot(i, rs));
      if k < 0 then ByteAt(f, DataStart(g, q) + i)
      else ByteAt(f, RecordStart(g, h.logPage, n, rs, k) + Rem(i, rs))
  }

  /** n bytes of the file at page q from an offset. */
  function View(g: Geometry, f: Flash, q: nat, off: nat, n: nat): (v: seq<byte>)
    ensures |v| == n && forall j :: 0 <= j < n ==> v[j] == ViewByte(g, f, q, off + j)
  {
    if n == 0 then [] else View(g, f, q, off, n - 1) + [ViewByte(g, f, q, off + n - 1)]
  }

  /** The content of the file at page q up to its logical end. */
  function Content(g: Geometry, f: Flash, q: nat, end: nat): seq<byte> { View(g, f, q, 0, end) }

  /** s with data written at an offset, extended if data reaches beyond its end. */
  function Overlay(s: seq<byte>, off: nat, data: seq<byte>): (r: seq<byte>)
    requires off <= |s|
    ensures |r| == if off + |data| > |s| then off + |data| else |s|
  {
    s[..off] + data + (if off + |data| < |s| then s[off + |data|..] else [])
  }

  // ----- disk invariants -----

  predicate HeaderStored(g: Geometry, f: Flash, q: nat, h: Header)
    requires |h.name| == NAME_LENGTH
  {
    DataStart(g, q) <= |f| && f[g.At(q)..DataStart(g, q)] == Encode(h)
  }

  /** The log of file q is a log extent with room and well-formed tables. */
  predicate LogOk(g: Geometry, f: Flash, q: nat) {
    var h := HeaderAt(g, f, q);
    && 0 <= h.logPage && h.logPage in Files(g, f) && HeaderAt(g, f, h.logPage).log
    && LogFits(g, f, h.logPage, Records(g, h), RecordSize(g, h))
    && TableOk(g, f, h.logPage, Records(g, h), RecordSize(g, h))
  }

  predicate FileOk(g: Geometry, f: Flash, q: nat) {
    var h := HeaderAt(g, f, q);
    && h.Encodable() && h.valid && h.name[NAME_LENGTH - 1] == 0 && HeaderStored(g, f, q, h)
    && q + MaxPages(g, f, q) < g.Pages() && ConfigOk(g, h) && 0 <= Capacity(g, f, q)
    && (if h.modified then !h.log && RegionsFit(Capacity(g, f, q), RecordSize(g, h)) && LogOk(g, f, q)
        else h.logPage == 0)
  }

  predicate SharesLog(g: Geometry, f: Flash, p: nat, q: nat) {
    && HeaderAt(g, f, p).modified && HeaderAt(g, f, q).modified
    && HeaderAt(g, f, p).logPage == HeaderAt(g, f, q).logPage
  }

  /** The invariant of the device content: layout, headers, logs, and no log with two owners. */
  ghost predicate DiskOk(g: Geometry, f: Flash) {
    && LayoutOk(g, f)
    && (forall q :: q in Files(g, f) ==> FileOk(g, f, q))
    && (forall p, q :: p in Files(g, f) && q in Files(g, f) && p != q ==> !SharesLog(g, f, p, q))
  }

  // ----- frames -----

  lemma IndexFrame(g: Geometry, f: Flash, f': Flash, log: nat, n: nat, k: nat)
    requires Same(f, f', DataStart(g, log), DataStart(g, log) + 2 * n) && k < n
    ensures Index(g, f', log, k) == Index(g, f, log, k)
  {}

  lemma {:induction false} NewestFrame(g: Geometry, f: Flash, f': Flash, log: nat, n: nat, region: int)
    requires Same(f, f', DataStart(g, log), DataStart(g, log) + 2 * n)
    ensures Newest(g, f', log, n, region) == Newest(g, f, log, n, region)
  {
    hide Index;
    if n != 0 {
      IndexFrame(g, f, f', log, n, n - 1);
      NewestFrame(g, f, f', log, n - 1, region);
    }
  }

  lemma {:induction false} FirstFreeFrame(g: Geometry, f: Flash, f': Flash, log: nat, k: nat, n: nat)
    requires Same(f, f', DataStart(g, log), DataStart(g, log) + 2 * n)
    ensures FirstFree(g, f', log, k, n) == FirstFree(g, f, log, k, n)
    decreases n - k
  {
    hide Index;
    if k < n {
      IndexFrame(g, f, f', log, n, k);
      FirstFreeFrame(g, f, f', log, k + 1, n);
    }
  }

  /** Record k lies between the index table and the end of the tables. */
  lemma RecordWithin(g: Geometry, log: nat, n: nat, rs: nat, k: nat)
    requires k < n
    ensures DataStart(g, log) + 2 * n <= RecordStart(g, log, n, rs, k)
    ensures RecordStart(g, log, n, rs, k) + rs == RecordStart(g, log, n, rs, k + 1) <= RecordStart(g, log, n, rs, n)
  {
    TimesMono(k + 1, n, rs);
  }

  lemma TableFrame(g: Geometry, f: Flash, f': Flash, log: nat, n: nat, rs: nat)
    requires TableOk(g, f, log, n, rs) && Same(f, f', DataStart(g, log), RecordStart(g, log, n, rs, n))
    ensures TableOk(g, f', log, n, rs)
  {
    hide Index, FirstFree;
    TimesMono(0, n, rs);
    FirstFreeFrame(g, f, f', log, 0, n);
    forall j | FirstFree(g, f', log, 0, n) <= j < n
      ensures Index(g, f', log, j) == 0 && ZeroRange(f', RecordStart(g, log, n, rs, j),
              RecordStart(g, log, n, rs, j + 1))
    {
      IndexFrame(g, f, f', log, n, j);
      RecordWithin(g, log, n, rs, j);
    }
  }

  /** The extents the content of q depends on are kept. */
  predicate FileKept(g: Geometry, f: Flash, f': Flash, q: nat) {
    && Kept(g, f, f', q)
    && (HeaderAt(g, f, q).modified && HeaderAt(g, f, q).logPage >= 0 ==> Kept(g, f, f', HeaderAt(g, f, q).logPage))
  }

  lemma ViewKept(g: Geometry, f: Flash, f': Flash, q: nat, i: nat)
    requires LayoutOk(g, f) && q in Files(g, f) && FileOk(g, f, q) && FileKept(g, f, f', q) && i < Capacity(g, f, q)
    ensures HeaderAt(g, f', q) == HeaderAt(g, f, q) && ViewByte(g, f', q, i) == ViewByte(g, f, q, i)
  {
    hide HeaderAt, Path, Good, Actives, Newest, Decode, Encode, TableOk, Quot;
    ActiveFacts(g, f, 0, g.Pages(), q);
    KeptHeader(g, f, f', q);
    var h := HeaderAt(g, f, q);
    if h.modified {
      var rs, n, log := RecordSize(g, h), Records(g, h), h.logPage;
      ConfigBounds(g, h);
      TimesMono(0, n, rs);
      NewestFrame(g, f, f', log, n, Quot(i, rs));
      NewestFacts(g, f, log, n, Quot(i, rs));
      var k := Newest(g, f, log, n, Quot(i, rs));
      if k >= 0 {
        RecordWithin(g, log, n, rs, k);
        QuotBounds(i, rs);
      }
    }
  }

  lemma HeaderStoredFrame(g: Geometry, f: Flash, f': Flash, q: nat, h: Header)
    requires |h.name| == NAME_LENGTH && HeaderStored(g, f, q, h) && Same(f, f', g.At(q), DataStart(g, q))
    ensures HeaderStored(g, f', q, h)
  {
    hide Encode;
    assert f'[g.At(q)..DataStart(g, q)] == f[g.At(q)..DataStart(g, q)];
  }

  lemma FileOkKept(g: Geometry, f: Flash, f': Flash, q: nat)
    requires LayoutOk(g, f) && q in Files(g, f) && FileOk(g, f, q) && FileKept(g, f, f', q)
    requires HeaderAt(g, f, q).modified ==> HeaderAt(g, f, q).logPage in Files(g, f')
    ensures HeaderAt(g, f', q) == HeaderAt(g, f, q) && FileOk(g, f', q)
  {
    hide HeaderAt, Path, Good, Actives, Newest, Decode, Encode, TableOk, Quot;
    ActiveFacts(g, f, 0, g.Pages(), q);
    KeptHeader(g, f, f', q);
    var h := HeaderAt(g, f, q);
    HeaderStoredFrame(g, f, f', q, h);
    if h.modified {
      ActiveFacts(g, f, 0, g.Pages(), h.logPage);
      KeptHeader(g, f, f', h.logPage);
      TableFrame(g, f, f', h.logPage, Records(g, h), RecordSize(g, h));
    }
  }

  /** A change that keeps every extent of a set closed under log references keeps its files sound. */
  lemma DiskKept(g: Geometry, f: Flash, f': Flash)
    requires DiskOk(g, f) && LayoutOk(g, f') && Files(g, f') == Files(g, f)
    requires forall x :: x in Files(g, f) ==> Kept(g, f, f', x)
    ensures DiskOk(g, f')
    ensures forall q :: q in Files(g, f) ==> HeaderAt(g, f', q) == HeaderAt(g, f, q)
  {
    hide HeaderAt, Path, Good, Actives, Decode, Encode, TableOk, Quot, Kept;
    forall q | q in Files(g, f) ensures HeaderAt(g, f', q) == HeaderAt(g, f, q) && FileOk(g, f', q) {
      FileOkKept(g, f, f', q);
    }
  }

  // ----- one extent changes -----

  lemma UpdatedKeeps(g: Geometry, f: Flash, f': Flash, q: nat, x: nat)
    requires Updated(g, f, f', q) && x in Files(g, f) && x != q
    ensures Kept(g, f, f', x)
  {
    hide HeaderAt, Path, Good, Actives;
    ActiveFacts(g, f, 0, g.Pages(), x);
    ActiveFacts(g, f, 0, g.Pages(), q);
    if x < q {
      ActivesDisjoint(g, f, 0, g.Pages(), x, q);
      AtMono(g, x + MaxPages(g, f, x), q);
    } else {
      ActivesDisjoint(g, f, 0, g.Pages(), q, x);
      AtMono(g, q + MaxPages(g, f, q), x);
      AtMono(g, x + MaxPages(g, f, x), g.Pages());
    }
  }

  /** Extent q changed and stays active; only its owner can depend on it. */
  lemma DiskUpdated(g: Geometry, f: Flash, f': Flash, q: nat, owner: nat)
    requires DiskOk(g, f) && Updated(g, f, f', q) && HeaderAt(g, f', q).Active() && q in Files(g, f)
             && owner in Files(g, f)
    requires forall p :: p in Files(g, f) && p != q && p != owner && HeaderAt(g, f, p).modified ==>
             HeaderAt(g, f, p).logPage != q
    requires FileOk(g, f', q) && FileOk(g, f', owner)
    requires forall p, r :: p in Files(g, f) && r in Files(g, f) && p != r ==> !SharesLog(g, f', p, r)
    ensures DiskOk(g, f') && Files(g, f') == Files(g, f)
    ensures forall p :: p in Files(g, f) && p != q ==> Kept(g, f, f', p)
  {
    hide HeaderAt, Path, Good, Actives, Updated, FileOk, SharesLog, Kept;
    ExtentUpdate(g, f, f', q);
    forall p | p in Files(g, f) && p != q ensures Kept(g, f, f', p) { UpdatedKeeps(g, f, f', q, p); }
    forall p | p in Files(g, f) && p != q && p != owner ensures FileOk(g, f', p) {
      OtherFileOk(g, f, f', q, p);
    }
  }

  lemma OtherFileOk(g: Geometry, f: Flash, f': Flash, q: nat, p: nat)
    requires LayoutOk(g, f) && p in Files(g, f) && FileOk(g, f, p) && p != q && Files(g, f) - {q} <= Files(g, f')
    requires HeaderAt(g, f, p).modified ==> HeaderAt(g, f, p).logPage != q
    requires forall x :: x in Files(g, f) && x != q ==> Kept(g, f, f', x)
    ensures HeaderAt(g, f', p) == HeaderAt(g, f, p) && FileOk(g, f', p)
  {
    hide HeaderAt, Path, Good, Actives, Decode, Encode, TableOk, Quot, Kept;
    FileOkKept(g, f, f', p);
  }

  // ----- a new extent -----

  /** What reserve writes. */
  function NewHeader(pages: nat, isLog: bool, name: seq<byte>): Header {
    Header(0, 0, 0, pages, true, true, false, false, isLog, false, name)
  }

  /** The name field after memcpy of all but its last byte onto zeros. */
  function StoredName(name: seq<byte>): (r: seq<byte>)
    requires NAME_LENGTH - 1 <= |name|
    ensures |r| == NAME_LENGTH && r[NAME_LENGTH - 1] == 0
  {
    name[..NAME_LENGTH - 1] + [0]
  }

  lemma ReserveKeeps(g: Geometry, f: Flash, start: nat, amount: nat, stop: nat, h: Header, x: nat)
    requires FreeRun(g, f, start, amount, stop) && h.Encodable() && h.Extent() && h.maxPages == amount
    requires x in Files(g, f)
    ensures x != start && x < g.Pages() && Kept(g, f, WithHeader(g, f, start, h), x)
  {
    hide HeaderAt, Good, Actives, Encode, Decode, Path;
    ReserveUpdate(g, f, start, amount, stop, h);
    ActiveFacts(g, f, 0, g.Pages(), x);
    StopsAreOrdered(g, f, 0, start);
    AtMono(g, start, g.Pages());
    if x < start {
      StopAfterExtent(g, f, x, start);
      AtMono(g, x + MaxPages(g, f, x), start);
    } else {
      AtMono(g, start, x);
    }
  }

  lemma FreshFileOk(g: Geometry, f: Flash, start: nat, amount: nat, h: Header)
    requires Wf(g, f) && 1 <= amount && start + amount < g.Pages() && |h.name| == NAME_LENGTH
             && h.name[NAME_LENGTH - 1] == 0
    requires h == NewHeader(amount, h.log, h.name)
    ensures FileOk(g, WithHeader(g, f, start, h), start)
  {
    var f' := WithHeader(g, f, start, h);
    AtMono(g, start, start + amount);
    AtMono(g, start + amount, g.Pages());
    HeaderWritten(g, f, start, h);
    hide HeaderAt, Encode, Decode, LogOk;
    assert f'[g.At(start)..DataStart(g, start)] == Encode(h);
  }

  /** Reserving an extent keeps the disk sound and every file as it was. */
  lemma DiskReserved(g: Geometry, f: Flash, start: nat, amount: nat, stop: nat, h: Header)
    requires DiskOk(g, f) && FreeRun(g, f, start, amount, stop) && 1 <= amount && start + amount < g.Pages()
    requires |h.name| == NAME_LENGTH && h.name[NAME_LENGTH - 1] == 0 && h == NewHeader(amount, h.log, h.name)
             && h.Encodable()
    ensures var f' := WithHeader(g, f, start, h);
      && DiskOk(g, f') && Files(g, f') == Files(g, f) + {start} && start !in Files(g, f)
      && HeaderAt(g, f', start) == h && ZeroRange(f', DataStart(g, start), g.At(start + amount))
      && OnWalk(g, f', start + amount)
      && (forall x :: x in Files(g, f) ==> Kept(g, f, f', x) && HeaderAt(g, f', x) == HeaderAt(g, f, x))
  {
    hide HeaderAt, Good, Actives, Encode, Decode, Path, FreeRun, TableOk;
    var f' := WithHeader(g, f, start, h);
    ReserveUpdate(g, f, start, amount, stop, h);
    FreshFileOk(g, f, start, amount, h);
    forall x | x in Files(g, f)
      ensures Kept(g, f, f', x) && HeaderAt(g, f', x) == HeaderAt(g, f, x)
    {
      ReserveKeeps(g, f, start, amount, stop, h, x);
      ActiveFacts(g, f, 0, g.Pages(), x);
      KeptHeader(g, f, f', x);
    }
    forall x | x in Files(g, f) ensures FileOk(g, f', x) { FileOkKept(g, f, f', x); }
  }

  // ----- header rewrites -----

  /** Rewriting the header of an active extent without changing its size. */
  lemma HeaderUpdate(g: Geometry, f: Flash, q: nat, h: Header)
    requires LayoutOk(g, f) && q in Files(g, f) && h.Encodable() && h.Extent() && h.maxPages == MaxPages(g, f, q)
    ensures q < g.Pages()
    ensures var f' := WithHeader(g, f, q, h);
      Updated(g, f, f', q) && HeaderAt(g, f', q) == h && HeaderStored(g, f', q, h)
      && Same(f, f', DataStart(g, q), g.Size()) && Same(f, f', 0, g.At(q))
  {
    hide HeaderAt, Path, Good, Actives, Decode, Encode;
    ActiveFacts(g, f, 0, g.Pages(), q);
    AtMono(g, q, q + MaxPages(g, f, q));
    AtMono(g, q + MaxPages(g, f, q), g.Pages());
    HeaderWritten(g, f, q, h);
    var f' := WithHeader(g, f, q, h);
    assert f'[g.At(q)..DataStart(g, q)] == Encode(h);
  }

  /** Rewriting the header of an active extent keeps next_free right, and gc_wait if the extent stays active. */
  lemma HeaderStops(g: Geometry, f: Flash, q: nat, h: Header, x: nat, wait: bool, strayed: bool)
    requires LayoutOk(g, f) && q in Files(g, f) && h.Encodable() && h.Extent() && h.maxPages == MaxPages(g, f, q)
             && Placed(g, f, x, wait, strayed) && (wait ==> h.Active())
    ensures q < g.Pages() && Placed(g, WithHeader(g, f, q, h), x, wait, strayed)
  {
    hide HeaderAt, Path, Good, Actives, Encode, Updated, Placed;
    HeaderUpdate(g, f, q, h);
    PlacedUpdated(g, f, WithHeader(g, f, q, h), q, x, wait, strayed);
  }

  /** Writing into the data of an active extent keeps both. */
  lemma DataStops(g: Geometry, f: Flash, f': Flash, q: nat, x: nat, wait: bool, strayed: bool)
    requires DataChanged(g, f, f', q) && Placed(g, f, x, wait, strayed)
    ensures Placed(g, f', x, wait, strayed)
  {
    hide HeaderAt, Path, Good, Actives, Updated, DataChanged, Placed;
    DataChangedIsUpdate(g, f, f', q);
    PlacedUpdated(g, f, f', q, x, wait, strayed);
  }

  /** The stored header may be overwritten with a refined one without clearing a bit. */
  lemma HeaderUpdateOnlySets(g: Geometry, f: Flash, q: nat, h: Header)
    requires Wf(g, f) && q < g.Pages() && FileOk(g, f, q) && Refines(HeaderAt(g, f, q), h)
    ensures g.At(q) + HEADER_SIZE <= |f| && OnlySets(f[g.At(q)..g.At(q) + HEADER_SIZE], Encode(h))
  {
    hide HeaderAt, Encode, LogOk, Refines;
    RefinesName(HeaderAt(g, f, q), h);
    HeaderRewriteOnlySets(HeaderAt(g, f, q), h);
  }

  lemma RefinesName(h: Header, h': Header)
    requires Refines(h, h')
    ensures h.name == h'.name
  {}

  /** cfs_coffee_configure_log: an unlogged file gets its log settings. */
  lemma DiskConfigured(g: Geometry, f: Flash, q: nat, h: Header)
    requires DiskOk(g, f) && q in Files(g, f) && !HeaderAt(g, f, q).modified && !HeaderAt(g, f, q).log && ConfigOk(g, h)
    requires 0 <= h.logRecords < 0x1_0000 && 0 <= h.logRecordSize < 0x1_0000
    requires h == HeaderAt(g, f, q).(logRecords := h.logRecords, logRecordSize := h.logRecordSize)
    ensures q < g.Pages() && h.Encodable()
    ensures var f' := WithHeader(g, f, q, h);
      && DiskOk(g, f') && Files(g, f') == Files(g, f) && HeaderAt(g, f', q) == h
      && (forall p :: p in Files(g, f) && p != q ==> Kept(g, f, f', p))
      && Same(f, f', DataStart(g, q), g.Size())
  {
    hide Path, Good, Actives, Decode, Encode, TableOk, HeaderStored, Updated, HeaderAt, ConfigOk;
    ActiveFacts(g, f, 0, g.Pages(), q);
    HeaderUpdate(g, f, q, h);
    var f' := WithHeader(g, f, q, h);
    SharingUnchanged(g, f, f', q);
    NotALog(g, f, q);
    DiskUpdated(g, f, f', q, q);
  }

  lemma SharingUnchanged(g: Geometry, f: Flash, f': Flash, q: nat)
    requires DiskOk(g, f) && Updated(g, f, f', q) && q in Files(g, f)
    requires HeaderAt(g, f', q).modified == HeaderAt(g, f, q).modified
             && HeaderAt(g, f', q).logPage == HeaderAt(g, f, q).logPage
    ensures forall p, r :: p in Files(g, f) && r in Files(g, f) && p != r ==> !SharesLog(g, f', p, r)
  {
    hide HeaderAt, Path, Good, Actives, FileOk, Updated, Kept;
    assert LayoutOk(g, f);
    forall p | p in Files(g, f) && p != q ensures HeaderAt(g, f', p) == HeaderAt(g, f, p) {
      UpdatedKeeps(g, f, f', q, p);
      ActiveFacts(g, f, 0, g.Pages(), p);
      KeptHeader(g, f, f', p);
    }
  }

  /** An extent without the log flag is nobody's log. */
  lemma NotALog(g: Geometry, f: Flash, q: nat)
    requires DiskOk(g, f) && q in Files(g, f) && !HeaderAt(g, f, q).log
    ensures forall p :: p in Files(g, f) && HeaderAt(g, f, p).modified ==> HeaderAt(g, f, p).logPage != q
  {
    hide HeaderAt, Path, Good, Actives, TableOk, HeaderStored, ConfigOk;
  }

  /** An erased extent with room holds well-formed, empty tables. */
  lemma ErasedTables(g: Geometry, f: Flash, log: nat, n: nat, rs: nat)
    requires Wf(g, f) && log + MaxPages(g, f, log) <= g.Pages() && LogFits(g, f, log, n, rs)
    requires ZeroRange(f, DataStart(g, log), g.At(log + MaxPages(g, f, log)))
    ensures TableOk(g, f, log, n, rs) && FirstFree(g, f, log, 0, n) == 0
    ensures forall region :: 0 <= region ==> Newest(g, f, log, n, region) == -1
  {
    hide HeaderAt;
    TimesMono(0, n, rs);
    AtMono(g, log + MaxPages(g, f, log), g.Pages());
    forall j | 0 <= j < n
      ensures Index(g, f, log, j) == 0 && ZeroRange(f, RecordStart(g, log, n, rs, j), RecordStart(g, log, n, rs, j + 1))
    {
      RecordWithin(g, log, n, rs, j);
    }
    hide Index;
    forall region | 0 <= region ensures Newest(g, f, log, n, region) == -1 {
      NewestUnique(g, f, log, n, region, -1);
    }
  }

  /** create_log: the file at q is given the fresh log extent. */
  lemma DiskLogged(g: Geometry, f: Flash, q: nat, log: nat, h: Header)
    requires DiskOk(g, f) && q in Files(g, f) && !HeaderAt(g, f, q).modified && !HeaderAt(g, f, q).log
    requires log in Files(g, f) && HeaderAt(g, f, log).log && LogFits(g, f, log, Records(g, h), RecordSize(g, h))
    requires ZeroRange(f, DataStart(g, log), g.At(log + MaxPages(g, f, log)))
    requires forall p :: p in Files(g, f) && HeaderAt(g, f, p).modified ==> HeaderAt(g, f, p).logPage != log
    requires h == HeaderAt(g, f, q).(modified := true, logPage := log)
             && RegionsFit(Capacity(g, f, q), RecordSize(g, h))
    ensures q < g.Pages() && h.Encodable()
    ensures var f' := WithHeader(g, f, q, h);
      && DiskOk(g, f') && Files(g, f') == Files(g, f) && HeaderAt(g, f', q) == h
      && (forall p :: p in Files(g, f) && p != q ==> Kept(g, f, f', p) && HeaderAt(g, f', p) == HeaderAt(g, f, p))
      && Same(f, f', DataStart(g, q), g.Size()) && FirstFree(g, f', log, 0, Records(g, h)) == 0
      && (forall i: nat :: i < Capacity(g, f, q) ==> ViewByte(g, f', q, i) == ViewByte(g, f, q, i))
  {
    hide Path, Good, Actives, Decode, Encode, TableOk, HeaderStored, HeaderAt, Updated, SharesLog, FirstFree, Newest,
         ViewByte, Kept, ZeroRange, Times;
    ActiveFacts(g, f, 0, g.Pages(), q);
    ActiveFacts(g, f, 0, g.Pages(), log);
    HeaderUpdate(g, f, q, h);
    var f' := WithHeader(g, f, q, h);
    ExtentUpdate(g, f, f', q);
    forall p | p in Files(g, f) && p != q ensures Kept(g, f, f', p) && HeaderAt(g, f', p) == HeaderAt(g, f, p) {
      UpdatedKeeps(g, f, f', q, p);
      ActiveFacts(g, f, 0, g.Pages(), p);
      KeptHeader(g, f, f', p);
    }
    KeptZero(g, f, f', log);
    ErasedTables(g, f', log, Records(g, h), RecordSize(g, h));
    assert LogOk(g, f', q);
    NotALog(g, f, q);
    SharingAfterLog(g, f, f', q, log);
    DiskUpdated(g, f, f', q, q);
    forall i: nat | i < Capacity(g, f, q) ensures ViewByte(g, f', q, i) == ViewByte(g, f, q, i) {
      ViewOfEmptyLog(g, f, f', q, i);
    }
  }

  lemma KeptZero(g: Geometry, f: Flash, f': Flash, log: nat)
    requires Kept(g, f, f', log) && HeaderAt(g, f', log) == HeaderAt(g, f, log)
    requires ZeroRange(f, DataStart(g, log), g.At(log + MaxPages(g, f, log)))
    ensures ZeroRange(f', DataStart(g, log), g.At(log + MaxPages(g, f', log)))
  {
    hide HeaderAt;
  }

  lemma SharingAfterLog(g: Geometry, f: Flash, f': Flash, q: nat, log: nat)
    requires DiskOk(g, f) && q in Files(g, f) && HeaderAt(g, f', q).logPage == log
    requires forall p :: p in Files(g, f) && p != q ==> HeaderAt(g, f', p) == HeaderAt(g, f, p)
    requires forall p :: p in Files(g, f) && HeaderAt(g, f, p).modified ==> HeaderAt(g, f, p).logPage != log
    ensures forall p, r :: p in Files(g, f) && r in Files(g, f) && p != r ==> !SharesLog(g, f', p, r)
  {
    hide HeaderAt, Path, Good, Actives, FileOk;
    forall p, r | p in Files(g, f) && r in Files(g, f) && p != r ensures !SharesLog(g, f', p, r) {
      assert !SharesLog(g, f, p, r);
    }
  }

  lemma ViewOfEmptyLog(g: Geometry, f: Flash, f': Flash, q: nat, i: nat)
    requires !HeaderAt(g, f, q).modified && Same(f, f', DataStart(g, q), g.Size()) && Wf(g, f)
    requires var h := HeaderAt(g, f', q);
      h.modified && h.logPage >= 0 && forall region :: 0 <= region ==>
          Newest(g, f', h.logPage, Records(g, h), region) == -1
    ensures ViewByte(g, f', q, i) == ViewByte(g, f, q, i)
  {
    hide HeaderAt, Newest;
  }

  // ----- removal -----

  /** The header remove_by_page writes. */
  function ObsoleteHeader(h: Header): Header { h.(valid := true, obsolete := true) }

  function Obsoleted(g: Geometry, f: Flash, q: nat): (f': Flash)
    requires Wf(g, f) && q < g.Pages() && HeaderAt(g, f, q).Encodable()
    ensures |f'| == |f|
  {
    WithHeader(g, f, q, ObsoleteHeader(HeaderAt(g, f, q)))
  }

  /** One extent is marked obsolete: it leaves the walk's active set, all others are kept. */
  lemma ObsoletedLayout(g: Geometry, f: Flash, q: nat)
    requires LayoutOk(g, f) && q in Files(g, f) && HeaderAt(g, f, q).Encodable()
    ensures q < g.Pages()
    ensures var f' := Obsoleted(g, f, q);
      && LayoutOk(g, f') && Files(g, f') == Files(g, f) - {q}
      && (forall p :: p in Files(g, f) && p != q ==> Kept(g, f, f', p) && HeaderAt(g, f', p) == HeaderAt(g, f, p))
  {
    hide Path, Good, Actives, Decode, Encode, HeaderAt, ConfigOk, Updated, LogOk, Kept;
    ActiveFacts(g, f, 0, g.Pages(), q);
    var h := ObsoleteHeader(HeaderAt(g, f, q));
    HeaderUpdate(g, f, q, h);
    var f' := WithHeader(g, f, q, h);
    ExtentUpdate(g, f, f', q);
    forall p | p in Files(g, f) && p != q ensures Kept(g, f, f', p) && HeaderAt(g, f', p) == HeaderAt(g, f, p) {
      UpdatedKeeps(g, f, f', q, p);
      ActiveFacts(g, f, 0, g.Pages(), p);
      KeptHeader(g, f, f', p);
    }
  }

  /** Dropping a set of extents no remaining file depends on keeps the disk sound. */
  lemma DiskDropped(g: Geometry, f: Flash, f': Flash, gone: set<nat>)
    requires DiskOk(g, f) && LayoutOk(g, f') && Files(g, f') == Files(g, f) - gone
    requires forall p :: p in Files(g, f') ==> Kept(g, f, f', p) && HeaderAt(g, f', p) == HeaderAt(g, f, p)
    requires forall p :: p in Files(g, f') && HeaderAt(g, f, p).modified ==> HeaderAt(g, f, p).logPage !in gone
    ensures DiskOk(g, f')
  {
    hide Path, Good, Actives, Decode, Encode, HeaderAt, ConfigOk, TableOk, Kept;
    forall p | p in Files(g, f') ensures FileOk(g, f', p) { FileOkKept(g, f, f', p); }
    forall p, r | p in Files(g, f') && r in Files(g, f') && p != r ensures !SharesLog(g, f', p, r) {
      assert !SharesLog(g, f, p, r);
    }
  }

  // ----- data written in place -----

  /** Bytes changed only inside the data part of extent q. */
  predicate DataChanged(g: Geometry, f: Flash, f': Flash, q: nat) {
    && LayoutOk(g, f) && q in Files(g, f)
    && Same(f, f', 0, DataStart(g, q)) && Same(f, f', g.At(q + MaxPages(g, f, q)), g.Size())
  }

  lemma DataChangedIsUpdate(g: Geometry, f: Flash, f': Flash, q: nat)
    requires DataChanged(g, f, f', q)
    ensures Updated(g, f, f', q) && HeaderAt(g, f', q) == HeaderAt(g, f, q) && HeaderAt(g, f, q).Active()
    ensures LayoutOk(g, f') && Files(g, f') == Files(g, f)
    ensures forall p :: p in Files(g, f) && p != q ==> Kept(g, f, f', p)
    ensures forall p :: p in Files(g, f) ==> HeaderAt(g, f', p) == HeaderAt(g, f, p)
  {
    hide HeaderAt, Path, Good, Actives, Kept;
    ActiveFacts(g, f, 0, g.Pages(), q);
    HeaderFrame(g, f, f', q);
    ExtentUpdate(g, f, f', q);
    forall p | p in Files(g, f) && p != q ensures Kept(g, f, f', p) && HeaderAt(g, f', p) == HeaderAt(g, f, p) {
      UpdatedKeeps(g, f, f', q, p);
      ActiveFacts(g, f, 0, g.Pages(), p);
      KeptHeader(g, f, f', p);
    }
  }

  lemma SameHeadersShareAlike(g: Geometry, f: Flash, f': Flash)
    requires DiskOk(g, f) && forall p :: p in Files(g, f) ==> HeaderAt(g, f', p) == HeaderAt(g, f, p)
    ensures forall p, r :: p in Files(g, f) && r in Files(g, f) && p != r ==> !SharesLog(g, f', p, r)
  {
    hide HeaderAt, Path, Good, Actives, FileOk;
    forall p, r | p in Files(g, f) && r in Files(g, f) && p != r ensures !SharesLog(g, f', p, r) {
      assert !SharesLog(g, f, p, r);
    }
  }

  /** A write into the base extent of an unlogged file changes exactly those bytes of its content. */
  lemma DiskDataWritten(g: Geometry, f: Flash, q: nat, off: nat, data: seq<byte>)
    requires DiskOk(g, f) && q in Files(g, f) && !HeaderAt(g, f, q).modified && !HeaderAt(g, f, q).log
    requires off + |data| <= Capacity(g, f, q)
    ensures DataStart(g, q) + off + |data| <= |f|
    ensures var f' := Written(f, DataStart(g, q) + off, data);
      && DiskOk(g, f') && DataChanged(g, f, f', q)
      && (forall i: nat :: i < Capacity(g, f, q) ==>
            ViewByte(g, f', q, i) == if off <= i < off + |data| then data[i - off] else ViewByte(g, f, q, i))
  {
    hide HeaderAt, Path, Good, Actives, Decode, Encode, TableOk, SharesLog, Updated, ConfigOk, Kept;
    ActiveFacts(g, f, 0, g.Pages(), q);
    AtMono(g, q + MaxPages(g, f, q), g.Pages());
    var f' := Written(f, DataStart(g, q) + off, data);
    assert DataChanged(g, f, f', q);
    DataChangedIsUpdate(g, f, f', q);
    HeaderStoredFrame(g, f, f', q, HeaderAt(g, f, q));
    NotALog(g, f, q);
    SameHeadersShareAlike(g, f, f');
    DiskUpdated(g, f, f', q, q);
  }

  // ----- a record appended to the log -----

  /** f' is f with record k of the log of q filled with a region and its data. */
  predicate Appended(g: Geometry, f: Flash, f': Flash, q: nat, k: nat, region: int, data: seq<byte>) {
    var h := HeaderAt(g, f, q);
    var log, rs, n := h.logPage, RecordSize(g, h), Records(g, h);
    && |f'| == |f| && log >= 0 && |data| == rs
    && Same(f, f', 0, DataStart(g, log) + 2 * k)
    && Same(f, f', DataStart(g, log) + 2 * k + 2, RecordStart(g, log, n, rs, k))
    && Same(f, f', RecordStart(g, log, n, rs, k + 1), g.Size())
    && Index(g, f', log, k) == region + 1
    && (forall j :: 0 <= j < rs ==> ByteAt(f', RecordStart(g, log, n, rs, k) + j) == data[j])
  }

  lemma IndexAfterAppend(g: Geometry, f: Flash, f': Flash, q: nat, k: nat, region: int, data: seq<byte>, j: nat)
    requires Appended(g, f, f', q, k, region, data) && k < Records(g, HeaderAt(g, f, q))
             && j < Records(g, HeaderAt(g, f, q)) && j != k
    ensures Index(g, f', HeaderAt(g, f, q).logPage, j) == Index(g, f, HeaderAt(g, f, q).logPage, j)
  {
    hide HeaderAt;
    var h := HeaderAt(g, f, q);
    RecordWithin(g, h.logPage, Records(g, h), RecordSize(g, h), k);
  }

  lemma NewestAfterAppend(g: Geometry, f: Flash, f': Flash, q: nat, k: nat, region: int, data: seq<byte>, r: int)
    requires Appended(g, f, f', q, k, region, data) && k < Records(g, HeaderAt(g, f, q)) && 0 <= r
    requires forall j :: k <= j < Records(g, HeaderAt(g, f, q)) ==> Index(g, f, HeaderAt(g, f, q).logPage, j) == 0
    ensures Newest(g, f', HeaderAt(g, f, q).logPage, Records(g, HeaderAt(g, f, q)), r)
         == if r == region then k else Newest(g, f, HeaderAt(g, f, q).logPage, Records(g, HeaderAt(g, f, q)), r)
  {
    hide HeaderAt, Newest;
    var log, n := HeaderAt(g, f, q).logPage, Records(g, HeaderAt(g, f, q));
    forall j | 0 <= j < n && j != k ensures Index(g, f', log, j) == Index(g, f, log, j) {
      IndexAfterAppend(g, f, f', q, k, region, data, j);
    }
    hide Index;
    NewestFacts(g, f, log, n, r);
    NewestUnique(g, f', log, n, r, if r == region then k else Newest(g, f, log, n, r));
  }

  /** The record bytes of another record are untouched. */
  lemma RecordAfterAppend(g: Geometry, f: Flash, f': Flash, q: nat, k: nat, region: int, data: seq<byte>, m: nat,
                          j: nat)
    requires Wf(g, f) && Appended(g, f, f', q, k, region, data)
    requires var h := HeaderAt(g, f, q); k < Records(g, h) && m < Records(g, h) && m != k && j < RecordSize(g, h)
    ensures var h := HeaderAt(g, f, q);
      var i := RecordStart(g, h.logPage, Records(g, h), RecordSize(g, h), m) + j; ByteAt(f', i) == ByteAt(f, i)
  {
    hide HeaderAt;
    var h := HeaderAt(g, f, q);
    var rs, n := RecordSize(g, h), Records(g, h);
    RecordWithin(g, h.logPage, n, rs, k);
    RecordWithin(g, h.logPage, n, rs, m);
    if m < k { TimesMono(m + 1, k, rs); } else { TimesMono(k + 1, m, rs); }
  }

  /** Appending a record replaces exactly the bytes of its region in the content. */
  lemma ViewAfterAppend(g: Geometry, f: Flash, f': Flash, q: nat, k: nat, region: int, data: seq<byte>, i: nat)
    requires LayoutOk(g, f) && q in Files(g, f) && FileOk(g, f, q) && HeaderAt(g, f, q).modified
    requires Appended(g, f, f', q, k, region, data) && HeaderAt(g, f', q) == HeaderAt(g, f, q) && Kept(g, f, f', q)
    requires k == FirstFree(g, f, HeaderAt(g, f, q).logPage, 0, Records(g, HeaderAt(g, f, q)))
             < Records(g, HeaderAt(g, f, q))
    requires i < Capacity(g, f, q)
    ensures var rs := RecordSize(g, HeaderAt(g, f, q));
      && 0 <= Rem(i, rs) < rs == |data|
      && ViewByte(g, f', q, i) == if Quot(i, rs) == region then data[Rem(i, rs)] else ViewByte(g, f, q, i)
  {
    hide HeaderAt, Path, Good, Actives, Newest, HeaderStored, Quot, FirstFree, Index, Appended, RecordStart, Records,
         RecordSize;
    var h := HeaderAt(g, f, q);
    var rs, n, log := RecordSize(g, h), Records(g, h), h.logPage;
    AppendedData(g, f, f', q, k, region, data);
    ActiveFacts(g, f, 0, g.Pages(), q);
    ConfigBounds(g, h);
    QuotBounds(i, rs);
    NewestAfterAppend(g, f, f', q, k, region, data, Quot(i, rs));
    NewestFacts(g, f, log, n, Quot(i, rs));
    var m := Newest(g, f, log, n, Quot(i, rs));
    if Quot(i, rs) != region && m >= 0 {
      FreeIsUnnamed(g, f, log, n, rs, k, m, Quot(i, rs));
      RecordAfterAppend(g, f, f', q, k, region, data, m, Rem(i, rs));
    }
  }

  lemma AppendedData(g: Geometry, f: Flash, f': Flash, q: nat, k: nat, region: int, data: seq<byte>)
    requires Appended(g, f, f', q, k, region, data)
    ensures var h := HeaderAt(g, f, q);
      && h.logPage >= 0 && |data| == RecordSize(g, h)
      && forall j :: 0 <= j < |data| ==>
           ByteAt(f', RecordStart(g, h.logPage, Records(g, h), RecordSize(g, h), k) + j) == data[j]
  {
    hide HeaderAt, Index;
  }

  lemma FreeIsUnnamed(g: Geometry, f: Flash, log: nat, n: nat, rs: nat, k: nat, m: nat, region: nat)
    requires TableOk(g, f, log, n, rs) && k == FirstFree(g, f, log, 0, n) && m < n && Index(g, f, log, m) == region + 1
    ensures m < k
  {
    hide Index, FirstFree;
  }

  lemma {:induction false} FirstFreeUnique(g: Geometry, f: Flash, log: nat, j: nat, n: nat, c: nat)
    requires j <= c <= n && (forall i :: j <= i < c ==> Index(g, f, log, i) != 0)
             && (c < n ==> Index(g, f, log, c) == 0)
    ensures FirstFree(g, f, log, j, n) == c
    decreases n - j
  {
    hide Index;
    if j < c {
      FirstFreeUnique(g, f, log, j + 1, n, c);
    }
  }

  lemma TableAfterAppend(g: Geometry, f: Flash, f': Flash, q: nat, k: nat, region: int, data: seq<byte>)
    requires Wf(g, f) && Appended(g, f, f', q, k, region, data) && 0 <= region
    requires var h := HeaderAt(g, f, q);
      && TableOk(g, f, h.logPage, Records(g, h), RecordSize(g, h))
      && k == FirstFree(g, f, h.logPage, 0, Records(g, h)) < Records(g, h)
    ensures var h := HeaderAt(g, f, q);
      && TableOk(g, f', h.logPage, Records(g, h), RecordSize(g, h))
      && FirstFree(g, f', h.logPage, 0, Records(g, h)) == k + 1
  {
    hide HeaderAt, FirstFree;
    var h := HeaderAt(g, f, q);
    var rs, n, log := RecordSize(g, h), Records(g, h), h.logPage;
    FirstFreeFacts(g, f, log, 0, n);
    forall j | 0 <= j < n && j != k ensures Index(g, f', log, j) == Index(g, f, log, j) {
      IndexAfterAppend(g, f, f', q, k, region, data, j);
    }
    forall j | k < j < n
      ensures ZeroRange(f', RecordStart(g, log, n, rs, j), RecordStart(g, log, n, rs, j + 1))
    {
      RecordWithin(g, log, n, rs, j);
      TimesMono(k + 1, j, rs);
    }
    hide Index;
    FirstFreeUnique(g, f', log, 0, n, k + 1);
  }

  lemma AppendedInLog(g: Geometry, f: Flash, f': Flash, q: nat, k: nat, region: int, data: seq<byte>)
    requires LayoutOk(g, f) && q in Files(g, f) && FileOk(g, f, q) && HeaderAt(g, f, q).modified
    requires Appended(g, f, f', q, k, region, data) && k < Records(g, HeaderAt(g, f, q))
    ensures HeaderAt(g, f, q).logPage >= 0 && DataChanged(g, f, f', HeaderAt(g, f, q).logPage)
  {
    hide HeaderAt, Path, Good, Actives, TableOk, Index, ConfigOk, HeaderStored;
    var h := HeaderAt(g, f, q);
    RecordWithin(g, h.logPage, Records(g, h), RecordSize(g, h), k);
  }

  lemma DiskAppended(g: Geometry, f: Flash, f': Flash, q: nat, k: nat, region: int, data: seq<byte>)
    requires DiskOk(g, f) && q in Files(g, f) && HeaderAt(g, f, q).modified
    requires Appended(g, f, f', q, k, region, data) && 0 <= region
    requires k == FirstFree(g, f, HeaderAt(g, f, q).logPage, 0, Records(g, HeaderAt(g, f, q)))
             < Records(g, HeaderAt(g, f, q))
    ensures HeaderAt(g, f, q).logPage >= 0 && HeaderAt(g, f, q).logPage != q
    ensures DiskOk(g, f') && DataChanged(g, f, f', HeaderAt(g, f, q).logPage)
    ensures FirstFree(g, f', HeaderAt(g, f, q).logPage, 0, Records(g, HeaderAt(g, f, q))) == k + 1
  {
    hide HeaderAt, Path, Good, Actives, Decode, Encode, TableOk, SharesLog, Updated, ConfigOk, Kept, FirstFree,
         Index, Appended, HeaderStored, DataChanged;
    var log := HeaderAt(g, f, q).logPage;
    AppendedInLog(g, f, f', q, k, region, data);
    DataChangedIsUpdate(g, f, f', log);
    TableAfterAppend(g, f, f', q, k, region, data);
    AppendOwner(g, f, f', q);
    LogHeaderOk(g, f, f', log);
    SameHeadersShareAlike(g, f, f');
    OneOwner(g, f, q);
    DiskUpdated(g, f, f', log, q);
  }

  lemma OneOwner(g: Geometry, f: Flash, q: nat)
    requires DiskOk(g, f) && q in Files(g, f) && HeaderAt(g, f, q).modified
    ensures forall p :: p in Files(g, f) && p != q && HeaderAt(g, f, p).modified ==>
            HeaderAt(g, f, p).logPage != HeaderAt(g, f, q).logPage
  {
    hide HeaderAt, FileOk, Actives, Path;
    forall p | p in Files(g, f) && p != q && HeaderAt(g, f, p).modified
      ensures HeaderAt(g, f, p).logPage != HeaderAt(g, f, q).logPage
    {
      assert !SharesLog(g, f, p, q);
    }
  }

  lemma AppendOwner(g: Geometry, f: Flash, f': Flash, q: nat)
    requires LayoutOk(g, f) && q in Files(g, f) && FileOk(g, f, q) && HeaderAt(g, f, q).modified
    requires HeaderAt(g, f, q).logPage != q ==> Kept(g, f, f', q)
    requires Files(g, f') == Files(g, f) && forall p :: p in Files(g, f) ==> HeaderAt(g, f', p) == HeaderAt(g, f, p)
    requires TableOk(g, f', HeaderAt(g, f, q).logPage, Records(g, HeaderAt(g, f, q)), RecordSize(g, HeaderAt(g, f, q)))
    ensures HeaderAt(g, f, q).logPage != q && FileOk(g, f', q)
  {
    hide HeaderAt, Path, Good, Actives, Decode, Encode, TableOk;
    ActiveFacts(g, f, 0, g.Pages(), q);
    AtMono(g, q, q + MaxPages(g, f, q));
    HeaderStoredFrame(g, f, f', q, HeaderAt(g, f, q));
  }

  lemma LogHeaderOk(g: Geometry, f: Flash, f': Flash, log: nat)
    requires LayoutOk(g, f) && log in Files(g, f) && FileOk(g, f, log) && HeaderAt(g, f, log).log
    requires DataChanged(g, f, f', log) && HeaderAt(g, f', log) == HeaderAt(g, f, log)
    ensures FileOk(g, f', log)
  {
    hide HeaderAt, Path, Good, Actives, Decode, Encode, TableOk;
    HeaderStoredFrame(g, f, f', log, HeaderAt(g, f, log));
  }

  /** The index entry and the record of the next free slot are erased. */
  lemma AppendSpace(g: Geometry, f: Flash, q: nat, k: nat)
    requires DiskOk(g, f) && q in Files(g, f) && HeaderAt(g, f, q).modified
    requires k == FirstFree(g, f, HeaderAt(g, f, q).logPage, 0, Records(g, HeaderAt(g, f, q)))
             < Records(g, HeaderAt(g, f, q))
    ensures var h := HeaderAt(g, f, q);
      && h.logPage >= 0
      && var i, r := DataStart(g, h.logPage) + 2 * k, RecordStart(g, h.logPage, Records(g, h), RecordSize(g, h), k);
      && i + 2 <= r && r + RecordSize(g, h) == RecordStart(g, h.logPage, Records(g, h), RecordSize(g, h), k + 1)
         <= |f| == g.Size()
      && Zeros(f[i..i + 2]) && Zeros(f[r..r + RecordSize(g, h)])
  {
    hide HeaderAt, Path, Good, Actives, Decode, Encode, SharesLog, ConfigOk, FirstFree, HeaderStored;
    var h := HeaderAt(g, f, q);
    var rs, n, log := RecordSize(g, h), Records(g, h), h.logPage;
    assert FileOk(g, f, q);
    ActiveFacts(g, f, 0, g.Pages(), log);
    AtMono(g, log + MaxPages(g, f, log), g.Pages());
    RecordWithin(g, log, n, rs, k);
    assert Index(g, f, log, k) == 0;
  }

  /** The two device writes of write_log_page: the index entry, then the record. */
  lemma AppendWrites(g: Geometry, f: Flash, q: nat, k: nat, region: int, data: seq<byte>)
    requires DiskOk(g, f) && q in Files(g, f) && HeaderAt(g, f, q).modified && 0 <= region < 0xFFFF
    requires k == FirstFree(g, f, HeaderAt(g, f, q).logPage, 0, Records(g, HeaderAt(g, f, q)))
             < Records(g, HeaderAt(g, f, q))
    requires |data| == RecordSize(g, HeaderAt(g, f, q))
    ensures var h := HeaderAt(g, f, q);
      && h.logPage >= 0
      && var i, r := DataStart(g, h.logPage) + 2 * k, RecordStart(g, h.logPage, Records(g, h), RecordSize(g, h), k);
      && i + 2 <= r && r + |data| <= |f| && OnlySets(f[i..i + 2], Encode16(region + 1))
      && var f1 := Written(f, i, Encode16(region + 1));
      && OnlySets(f1[r..r + |data|], data) && Appended(g, f, Written(f1, r, data), q, k, region, data)
  {
    hide HeaderAt, Path, Good, Actives, DiskOk, FirstFree, Raises, RecordStart, DataStart, Records;
    AppendSpace(g, f, q, k);
    var h := HeaderAt(g, f, q);
    var rs, n, log := RecordSize(g, h), Records(g, h), h.logPage;
    var i, r := DataStart(g, log) + 2 * k, RecordStart(g, log, n, rs, k);
    ErasedTakesAnything(f[i..i + 2], Encode16(region + 1));
    var f1 := Written(f, i, Encode16(region + 1));
    assert f1[r..r + |data|] == f[r..r + |data|];
    ErasedTakesAnything(f1[r..r + |data|], data);
    Split16(region + 1);
  }

  // ----- reading through the log -----

  /** Bytes of one region stay in that region. */
  lemma WithinRegion(off: nat, rs: nat, j: nat)
    requires 1 <= rs && Rem(off, rs) + j < rs
    ensures Quot(off + j, rs) == Quot(off, rs) && Rem(off + j, rs) == Rem(off, rs) + j
  {
    QuotBounds(off, rs);
    RegionOf(Quot(off, rs), rs, Rem(off, rs) + j);
  }

  /** Searching only the filled records finds the same one. */
  lemma {:induction false} NewestTrim(g: Geometry, f: Flash, log: nat, c: nat, n: nat, region: int)
    requires c <= n && 0 <= region && forall j :: c <= j < n ==> Index(g, f, log, j) == 0
    ensures Newest(g, f, log, n, region) == Newest(g, f, log, c, region)
    decreases n
  {
    hide Index;
    if c < n {
      NewestTrim(g, f, log, c, n - 1, region);
    }
  }

  /** The record found in the filled part of the table is the newest of the whole table. */
  lemma SearchIsNewest(g: Geometry, f: Flash, q: nat, recordCount: int, region: int)
    requires DiskOk(g, f) && q in Files(g, f) && HeaderAt(g, f, q).modified && 0 <= region
    requires var h := HeaderAt(g, f, q); h.logPage >= 0 ==>
             recordCount == -1 || recordCount == FirstFree(g, f, h.logPage, 0, Records(g, h))
    ensures var h := HeaderAt(g, f, q);
      && h.logPage >= 0 && recordCount <= Records(g, h)
      && Newest(g, f, h.logPage, if recordCount < 0 then Records(g, h) else recordCount, region)
         == Newest(g, f, h.logPage, Records(g, h), region)
  {
    hide HeaderAt, Path, Good, Actives, FirstFree, Index, Newest, HeaderStored;
    assert FileOk(g, f, q);
    var h := HeaderAt(g, f, q);
    FirstFreeFacts(g, f, h.logPage, 0, Records(g, h));
    if recordCount >= 0 {
      NewestTrim(g, f, h.logPage, recordCount, Records(g, h), region);
    }
  }

  /** Where read_log_page, or else the base extent, holds byte off of a logged file. */
  function ChunkSource(g: Geometry, f: Flash, q: nat, off: nat): int {
    var h := HeaderAt(g, f, q);
    var n, rs := Records(g, h), RecordSize(g, h);
    var k := if h.logPage < 0 then -1 else Newest(g, f, h.logPage, n, Quot(off, rs));
    if k < 0 then DataStart(g, q) + off else RecordStart(g, h.logPage, n, rs, k) + Rem(off, rs)
  }

  lemma ChunkByte(g: Geometry, f: Flash, q: nat, off: nat, j: nat)
    requires var h := HeaderAt(g, f, q);
      h.modified && h.logPage >= 0 && 1 <= RecordSize(g, h) && Rem(off, RecordSize(g, h)) + j < RecordSize(g, h)
    ensures ViewByte(g, f, q, off + j) == ByteAt(f, ChunkSource(g, f, q, off) + j)
  {
    hide HeaderAt, Newest, Quot;
    WithinRegion(off, RecordSize(g, HeaderAt(g, f, q)), j);
  }

  lemma ChunkInside(g: Geometry, f: Flash, q: nat, off: nat, chunk: nat)
    requires DiskOk(g, f) && q in Files(g, f) && HeaderAt(g, f, q).modified && off + chunk <= Capacity(g, f, q)
    requires Rem(off, RecordSize(g, HeaderAt(g, f, q))) + chunk <= RecordSize(g, HeaderAt(g, f, q))
    ensures HeaderAt(g, f, q).logPage >= 0 && 1 <= RecordSize(g, HeaderAt(g, f, q))
            && 0 <= Rem(off, RecordSize(g, HeaderAt(g, f, q)))
    ensures 0 <= ChunkSource(g, f, q, off) && ChunkSource(g, f, q, off) + chunk <= |f|
  {
    hide HeaderAt, Path, Good, Actives, FirstFree, Index, Newest, HeaderStored, Quot, SharesLog, TableOk;
    assert FileOk(g, f, q);
    var h := HeaderAt(g, f, q);
    var n, rs, log := Records(g, h), RecordSize(g, h), h.logPage;
    ConfigBounds(g, h);
    QuotBounds(off, rs);
    ActiveFacts(g, f, 0, g.Pages(), q);
    ActiveFacts(g, f, 0, g.Pages(), log);
    AtMono(g, q + MaxPages(g, f, q), g.Pages());
    AtMono(g, log + MaxPages(g, f, log), g.Pages());
    NewestFacts(g, f, log, n, Quot(off, rs));
    var k := Newest(g, f, log, n, Quot(off, rs));
    if k >= 0 {
      RecordWithin(g, log, n, rs, k);
    }
  }

  /** A record, even one reaching past the end of its file, lies on the device. */
  lemma RecordInside(g: Geometry, f: Flash, q: nat, off: nat, chunk: nat)
    requires DiskOk(g, f) && q in Files(g, f) && HeaderAt(g, f, q).modified
    requires 1 <= RecordSize(g, HeaderAt(g, f, q)) && Rem(off, RecordSize(g, HeaderAt(g, f, q))) + chunk
             <= RecordSize(g, HeaderAt(g, f, q))
    requires var h := HeaderAt(g, f, q); h.logPage >= 0
                                         && Newest(g, f, h.logPage, Records(g, h), Quot(off, RecordSize(g, h))) >= 0
    ensures 0 <= ChunkSource(g, f, q, off) && ChunkSource(g, f, q, off) + chunk <= |f|
  {
    hide HeaderAt, Path, Good, Actives, FirstFree, Index, Newest, HeaderStored, Quot, SharesLog, TableOk;
    assert FileOk(g, f, q);
    var h := HeaderAt(g, f, q);
    var n, rs, log := Records(g, h), RecordSize(g, h), h.logPage;
    QuotBounds(off, rs);
    ActiveFacts(g, f, 0, g.Pages(), log);
    AtMono(g, log + MaxPages(g, f, log), g.Pages());
    NewestFacts(g, f, log, n, Quot(off, rs));
    RecordWithin(g, log, n, rs, Newest(g, f, log, n, Quot(off, rs)));
  }

  /** One chunk of a read: all its bytes come from the same record, or all from the base. */
  lemma ChunkView(g: Geometry, f: Flash, q: nat, off: nat, chunk: nat)
    requires DiskOk(g, f) && q in Files(g, f) && HeaderAt(g, f, q).modified && off + chunk <= Capacity(g, f, q)
    requires Rem(off, RecordSize(g, HeaderAt(g, f, q))) + chunk <= RecordSize(g, HeaderAt(g, f, q))
    ensures var src := ChunkSource(g, f, q, off);
      0 <= src && src + chunk <= |f| && f[src..src + chunk] == View(g, f, q, off, chunk)
  {
    hide HeaderAt, DiskOk, ChunkSource, Capacity, ViewByte, Quot, Actives;
    ChunkInside(g, f, q, off, chunk);
    var src := ChunkSource(g, f, q, off);
    var v := View(g, f, q, off, chunk);
    forall j | 0 <= j < chunk ensures v[j] == f[src..src + chunk][j] {
      ChunkByte(g, f, q, off, j);
    }
  }

  /** Regions of a logged file fit the 16-bit index entries. */
  lemma RegionFits(g: Geometry, f: Flash, q: nat, off: nat)
    requires DiskOk(g, f) && q in Files(g, f) && off < Capacity(g, f, q)
    requires HeaderAt(g, f, q).modified
    ensures var rs := RecordSize(g, HeaderAt(g, f, q));
      1 <= rs && Quot(off, rs) < 0xFFFF && 0 <= Rem(off, rs) < rs
  {
    hide HeaderAt, Path, Good, Actives, HeaderStored, LogOk, Quot, Encode, Times, Records, RecordSize;
    assert FileOk(g, f, q);
    ConfigBounds(g, HeaderAt(g, f, q));
    RegionSmall(off, RecordSize(g, HeaderAt(g, f, q)), 0xFFFF);
  }

  // ----- regions beyond 16 bits -----

  /** What write_log_page stores in the index for byte i: the region and its successor each in 16 bits. */
  function Entry(i: nat, rs: nat): nat { Low16(Low16(Quot(i, rs)) + 1) }

  /** Whether a search for the region of byte j stops at the entry stored for byte i. */
  predicate Recognised(i: nat, j: nat, rs: nat) { Entry(i, rs) - 1 == Low16(Quot(j, rs)) }

  /** The index tells the regions of so many bytes apart exactly when their numbers stay below 2^16 - 1. */
  lemma RegionsExact(capacity: nat, rs: nat)
    requires 1 <= rs
    ensures RegionsFit(capacity, rs)
        <==> forall i: nat, j: nat :: i < capacity && j < capacity ==>
               (Recognised(i, j, rs) <==> Quot(i, rs) == Quot(j, rs))
  {
    hide Quot, Times;
    if RegionsFit(capacity, rs) {
      forall i: nat, j: nat | i < capacity && j < capacity
        ensures Recognised(i, j, rs) <==> Quot(i, rs) == Quot(j, rs)
      {
        RegionSmall(i, rs, 0xFFFF);
        RegionSmall(j, rs, 0xFFFF);
      }
    } else {
      var i := Times(0xFFFF, rs);
      RegionOf(0xFFFF, rs, 0);
      assert !Recognised(i, i, rs);
    }
  }

  /** Byte i of the file at page q as the code finds it, with region numbers of 16 bits. */
  function FoundByte(g: Geometry, f: Flash, q: nat, i: nat): byte {
    var h := HeaderAt(g, f, q);
    var rs, n := RecordSize(g, h), Records(g, h);
    if !h.modified || h.logPage < 0 then ByteAt(f, DataStart(g, q) + i)
    else
      var k := Newest(g, f, h.logPage, n, Low16(Quot(i, rs)));
      if k < 0 then ByteAt(f, DataStart(g, q) + i)
      else ByteAt(f, RecordStart(g, h.logPage, n, rs, k) + Rem(i, rs))
  }

  /** In a sound file that is its content. */
  lemma FoundIsContent(g: Geometry, f: Flash, q: nat, i: nat)
    requires DiskOk(g, f) && q in Files(g, f) && i < Capacity(g, f, q)
    ensures FoundByte(g, f, q, i) == ViewByte(g, f, q, i)
  {
    hide HeaderAt, DiskOk, Actives, Quot, Newest, Capacity;
    if HeaderAt(g, f, q).modified { RegionFits(g, f, q, i); }
  }

  /** Logging a chunk at byte off changes, for the code, the bytes whose region its entry is recognised as. */
  lemma FoundAfterAppend(g: Geometry, f: Flash, f': Flash, q: nat, k: nat, off: nat, buf: seq<byte>, i: nat)
    requires var h := HeaderAt(g, f, q);
      && Wf(g, f) && h.modified && HeaderAt(g, f', q) == h && Kept(g, f, f', q) && i < Capacity(g, f, q)
      && 1 <= RecordSize(g, h) && q + MaxPages(g, f, q) <= g.Pages()
      && Appended(g, f, f', q, k, Entry(off, RecordSize(g, h)) - 1, buf)
      && TableOk(g, f, h.logPage, Records(g, h), RecordSize(g, h))
      && k == FirstFree(g, f, h.logPage, 0, Records(g, h)) < Records(g, h)
    ensures var rs := RecordSize(g, HeaderAt(g, f, q));
      && 0 <= Rem(i, rs) < rs == |buf|
      && FoundByte(g, f', q, i) == if Recognised(off, i, rs) then buf[Rem(i, rs)] else FoundByte(g, f, q, i)
  {
    hide HeaderAt, Newest, Quot, FirstFree, Index, Appended, RecordStart, Records, RecordSize, Entry, Low16;
    var h := HeaderAt(g, f, q);
    var rs, n, log := RecordSize(g, h), Records(g, h), h.logPage;
    var region := Low16(Quot(i, rs));
    AppendedData(g, f, f', q, k, Entry(off, rs) - 1, buf);
    QuotBounds(i, rs);
    NewestAfterAppend(g, f, f', q, k, Entry(off, rs) - 1, buf, region);
    NewestFacts(g, f, log, n, region);
    var m := Newest(g, f, log, n, region);
    if Entry(off, rs) - 1 != region && m >= 0 {
      FreeIsUnnamed(g, f, log, n, rs, k, m, region);
      RecordAfterAppend(g, f, f', q, k, Entry(off, rs) - 1, buf, m, Rem(i, rs));
    }
  }

  /** The record of region 2^16 - 1 is lost: no byte reads differently, and its place still looks free. */
  lemma LostRecord(g: Geometry, f: Flash, f': Flash, q: nat, k: nat, off: nat, buf: seq<byte>)
    requires var h := HeaderAt(g, f, q);
      && Wf(g, f) && h.modified && HeaderAt(g, f', q) == h && Kept(g, f, f', q)
      && 1 <= RecordSize(g, h) && q + MaxPages(g, f, q) <= g.Pages()
      && Appended(g, f, f', q, k, Entry(off, RecordSize(g, h)) - 1, buf)
      && TableOk(g, f, h.logPage, Records(g, h), RecordSize(g, h))
      && k == FirstFree(g, f, h.logPage, 0, Records(g, h)) < Records(g, h)
      && Low16(Quot(off, RecordSize(g, h))) == 0xFFFF
    ensures forall i: nat :: i < Capacity(g, f, q) ==> FoundByte(g, f', q, i) == FoundByte(g, f, q, i)
    ensures FirstFree(g, f', HeaderAt(g, f, q).logPage, 0, Records(g, HeaderAt(g, f, q))) == k
  {
    hide HeaderAt, Newest, Quot, FirstFree, Records, RecordSize, Kept, Wf, TableOk, FoundByte, Capacity;
    var h := HeaderAt(g, f, q);
    var n, log := Records(g, h), h.logPage;
    forall i: nat | i < Capacity(g, f, q) ensures FoundByte(g, f', q, i) == FoundByte(g, f, q, i) {
      FoundAfterAppend(g, f, f', q, k, off, buf, i);
    }
    FirstFreeFacts(g, f, log, 0, n);
    forall j | 0 <= j < n && j != k ensures Index(g, f', log, j) == Index(g, f, log, j) {
      IndexAfterAppend(g, f, f', q, k, -1, buf, j);
    }
    FirstFreeUnique(g, f', log, 0, n, k);
  }
}
