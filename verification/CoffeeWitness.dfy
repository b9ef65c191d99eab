/** Concrete runs and devices on which the code fails where the exact conditions say it does. */
module CoffeeWitness {
  import opened CoffeeFlash
  import opened CoffeeLayout
  import opened CoffeeLog
  import opened CoffeeCache
  import opened CoffeeUpdate
  import opened CoffeeWrite
  import opened CoffeeEvict
  import opened CoffeeFs
  import opened CoffeeHazard

  const OTHER_FILE := NewHeader(1, false, NAME_B)

  /** Two files of one page each, side by side. */
  function Two(): Flash {
    Sizes();
    WithHeader(G, One(), 1, OTHER_FILE)
  }

  lemma RoomForOther()
    ensures FreeRun(G, One(), 1, 1, 2) && !NoRun(G, One(), 1, 1, 6) && Wf(G, One())
  {
    Sizes();
    hide HeaderAt, Encode;
    var f := One();
    HeaderWritten(G, Filled(240), 0, SMALL_FILE);
    ErasedPath(f, 1);
    assert Path(G, f, 0, 1);
    PathTrans(G, f, 0, 1, 6);
    RunIsThere(G, f, 1, 1, 1, 2);
  }

  /** Format, and reserve both. */
  method TwoFiles() returns (c: Coffee)
    ensures fresh(c) && c.Valid() && !c.strayed && c.g == G && !c.readsBack && c.flash == Two() && c.nextFree == 2
    ensures forall k :: 0 <= k < |c.fds| ==> c.fds[k].flags == 0
    ensures TwoListed(c.flash) && |c.files| == 1 && c.files[0].page == 1
  {
    hide HeaderAt, Encode, DiskOk, CacheOk, NamesOk, FreeRun, NoRun, Actives, CStr, AllKept, Kept, ZeroRange, OnWalk,
         Quot, NoSuchFile, Filled, WithHeader, StoredName, Coffee.SetAsideIn, Strays;
    Sizes();
    Names();
    SpaceAsked();
    c := FirstFile();
    RoomForOther();
    ghost var files1 := c.files;
    var r := c.CfsCoffeeReserve(NAME_B, 0);
    NothingTaken(G, c.flash, c.files, c.fds);
    assert r == 0;
    ghost var s1: nat :| c.SetAsideIn(One(), files1, 1, s1, 1, NAME_B);
    Landed(G, One(), files1, 1, c, s1, 1, NAME_B, 2);
    OneSlot(c.flash, c.files, c.fds);
  }

  predicate TwoListed(f: Flash) {
    Files(G, f) == {0, 1} && HeaderAt(G, f, 0) == SMALL_FILE && HeaderAt(G, f, 1) == OTHER_FILE
  }

  lemma OneSlot(f: Flash, files: seq<FileObject>, fds: seq<FileDesc>)
    requires Inv(G, f, files, fds)
    ensures |files| == 1 && |fds| == 1
  {
    hide HeaderAt, DiskOk, NamesOk, SlotOk, RefCount;
  }

  // ----- an end that is forgotten -----

  function NameOf(p: nat): seq<byte> { if p == 0 then NAME_A else NAME_B }

  lemma NamesTell(f: Flash, p: nat, q: nat)
    requires TwoListed(f) && p < 2 && q in Files(G, f) && CStr(HeaderAt(G, f, q).name) == CStr(NameOf(p))
    ensures q == p
  {
    hide HeaderAt, Actives, CStr;
    Names();
  }

  /** Open the file on page p while nothing is open. */
  method OpenPageOf(c: Coffee, ghost p: nat, name: seq<byte>, flags: byte)
    requires c.Valid() && !c.strayed && c.g == G && TwoListed(c.flash) && p < 2 && name == NameOf(p)
    requires flags != 0 && !Bit(flags, CFS_APPEND) && forall k :: 0 <= k < |c.fds| ==> c.fds[k].flags == 0
    modifies c
    ensures c.Valid() && !c.strayed && c.flash == old(c.flash) && |c.files| == |c.fds| == |old(c.files)| == 1
            && c.fds[0] == FileDesc(0, 0, flags)
    ensures c.files[0].page == p && c.files[0].maxPages == 1 && !c.files[0].modified && c.files[0].references == 1
    ensures if old(c.files)[0].maxPages > 0 && old(c.files)[0].page == p
            && old(c.files)[0].end >= 0 then c.files[0].end == old(c.files)[0].end
            else IsBaseEnd(G, c.flash, p, c.files[0].end)
  {
    hide HeaderAt, DiskOk, CacheOk, NamesOk, NoRun, Actives, CStr, AllKept, OnWalk, Quot, NoSuchFile, StoredName,
         Strays, NoCachedName, IsBaseEnd, Bit;
    Names();
    OneSlot(c.flash, c.files, c.fds);
    NothingTaken(G, c.flash, c.files, c.fds);
    NamedFile(G, c.flash, p, name);
    var fd := c.CfsOpen(name, flags);
    if fd < 0 { NothingTaken(G, c.flash, c.files, c.fds); }
    OneSlot(c.flash, c.files, c.fds);
    SeekRoom(G, c.flash, c.files, c.fds, 0);
    MergeSource(G, c.flash, c.files, c.fds, 0);
    ReadyFacts(G, c.flash, c.files[0]);
    NamesTell(c.flash, p, c.files[0].page);
  }

  lemma Modes()
    ensures Bit(CFS_READ, CFS_READ) && Bit(CFS_WRITE, CFS_WRITE) && !Bit(CFS_READ, CFS_APPEND)
            && !Bit(CFS_WRITE, CFS_APPEND)
  {}

  lemma FirstPageBlank()
    ensures |Two()| == 240 && ZeroRange(Two(), 36, 40)
  {
    Sizes();
    hide Encode;
  }

  lemma BlankEnd(f: Flash, end: int)
    requires |f| == 240 && ZeroRange(f, 36, 40) && HeaderAt(G, f, 0) == SMALL_FILE && IsBaseEnd(G, f, 0, end)
    ensures end == 0
  {
    Sizes();
    hide HeaderAt;
    assert Capacity(G, f, 0) == 4;
  }

  lemma WrittenSame(f: Flash, a: nat, data: seq<byte>)
    requires a + |data| <= |f| && f[a..a + |data|] == data
    ensures Written(f, a, data) == f
  {
    assert forall i :: 0 <= i < |f| ==> Written(f, a, data)[i] == f[i];
  }

  /** Write a zero byte into an empty file, close it, open and close another file, open the first again:
      its length is forgotten. */
  method ForgetZero() returns (c: Coffee, before: int, after: int)
    ensures fresh(c) && c.Valid() && c.g == G && before == 1 && after == 0
  {
    hide HeaderAt, DiskOk, CacheOk, NamesOk, NoRun, Actives, CStr, AllKept, OnWalk, Quot, Wrote, Torn, Two,
         OpenRecords, Oversized, Used, Chunks, RegionLogged, RecordSize, TwoListed, IsBaseEnd, Bit, Moved, ZeroRange,
         Written, FileFollows, ViewByte;
    Sizes();
    Modes();
    FirstPageBlank();
    c := TwoFiles();
    OpenPageOf(c, 0, NAME_A, CFS_WRITE);
    TwoHeads(c.flash);
    BlankEnd(c.flash, c.files[0].end);
    ghost var f0, files0, fds0 := c.flash, c.files, c.fds;
    ghost var n, t, first, last;
    var r, fate;
    r, fate, n, t, first, last := c.CfsWrite(0, [0]);
    FirstBytes(f0);
    WrittenSame(f0, 36, [0]);
    ghost var torn := Torn(G, false, f0, 0, 0, 1, OpenRecords(G, f0, files0[0], 1 + HEADER_SIZE), first, last);
    WrittenIn(G, f0, files0, fds0, 0, [0], torn, c.flash, c.files, c.fds, t, 1);
    WroteRefs(G, f0, files0, fds0, 0, [0], torn, c.flash, c.files, c.fds, t, 1);
    before := c.files[0].end;
    OneSlot(c.flash, c.files, c.fds);
    c.CfsClose(0);
    OpenPageOf(c, 1, NAME_B, CFS_READ);
    c.CfsClose(0);
    OpenPageOf(c, 0, NAME_A, CFS_READ);
    BlankEnd(c.flash, c.files[0].end);
    after := c.files[0].end;
  }

  lemma TwoHeads(f: Flash)
    requires TwoListed(f)
    ensures HeaderAt(G, f, 0) == SMALL_FILE && HeaderAt(G, f, 1) == OTHER_FILE
  {
    hide HeaderAt;
  }

  lemma FirstBytes(f: Flash)
    requires f == Two()
    ensures |f| == 240 && f[36..37] == [0]
  {
    FirstPageBlank();
    hide Two;
    assert f[36] == 0;
  }

  // ----- a seek into the next file -----

  lemma Neighbours(f: Flash)
    requires TwoListed(f)
    ensures 0 in Files(G, f) && 1 in Files(G, f)
    ensures Capacity(G, f, 0) == 4 && DataStart(G, 0) == 36 && 0 + MaxPages(G, f, 0) == 1 && G.At(1) == 40
    ensures Encode(HeaderAt(G, f, 1))[13] == 3 && !HeaderAt(G, f, 0).modified
  {
    Sizes();
    hide HeaderAt, Actives;
  }

  /** The seek is accepted, and what then counts as the content of the first file ends with the flag byte of the
      second file's header. */
  method SeekIntoNeighbour() returns (c: Coffee, r: int)
    ensures fresh(c) && c.g == G && r == 18 && |c.files| == 1 && c.files[0].end == 18 && c.files[0].page == 0
            && !c.Valid()
    ensures ViewByte(G, c.flash, 0, 17) == 3 == Encode(HeaderAt(G, c.flash, 1))[13]
  {
    hide HeaderAt, DiskOk, CacheOk, NamesOk, OnWalk, Two, IsBaseEnd, Bit, ZeroRange, ViewByte, Encode, Actives,
         TwoListed, Capacity, Path, HeaderStored, Times;
    Sizes();
    Modes();
    FirstPageBlank();
    c := TwoFiles();
    OpenPageOf(c, 0, NAME_A, CFS_READ);
    Neighbours(c.flash);
    TwoHeads(c.flash);
    BlankEnd(c.flash, c.files[0].end);
    SeekDamage(G, c.flash, 0, 1, 17, 0);
    r := c.CfsSeek(0, 18, 0);
  }

  // ----- tables of several batches -----

  function FullTable(): Flash { Written(Filled(240), 76, [1, 0, 1, 0, 1, 0]) }

  /** A table of three records, searched in batches of two: an empty table looks as if its first two records
      were used, a full one as if only the first were. */
  lemma BatchesMislead()
    ensures TableOk(G, Filled(240), 1, 3, 1) && FirstFree(G, Filled(240), 1, 0, 3) == 0
            && SearchedNext(G, Filled(240), 1, 3, G.logTableLimit) == 2
    ensures TableOk(G, FullTable(), 1, 3, 1) && FirstFree(G, FullTable(), 1, 0, 3) == 3
            && SearchedNext(G, FullTable(), 1, 3, G.logTableLimit) == 1
  {
    hide Index, Written, Filled, FullTable;
    IndexEntries();
    FirstFreeUnique(G, Filled(240), 1, 0, 3, 0);
    FirstFreeUnique(G, Filled(240), 1, 2, 3, 2);
    FirstFreeUnique(G, FullTable(), 1, 0, 3, 3);
    FirstFreeUnique(G, FullTable(), 1, 2, 3, 3);
    hide FirstFree;
    assert LastBatch(3, 2) == 2;
    BlankRecords();
  }

  lemma IndexEntries()
    ensures forall k: nat :: k < 3 ==> Index(G, Filled(240), 1, k) == 0 && Index(G, FullTable(), 1, k) == 1
  {
    Sizes();
  }

  lemma BlankRecords()
    ensures forall j: nat :: ZeroRange(Filled(240), RecordStart(G, 1, 3, 1, j), RecordStart(G, 1, 3, 1, j + 1))
  {}

  /** Such a table can be had: the settings for it are accepted. */
  method ThreeRecords() returns (c: Coffee, r: int)
    ensures fresh(c) && c.g == G && r == 0 && !c.Valid() && Records(G, HeaderAt(G, c.flash, 0)) == 3 > G.logTableLimit
  {
    hide HeaderAt, DiskOk, CacheOk, NamesOk, OnWalk, Encode, Actives, NoSuchFile, CStr, Configured;
    Sizes();
    Names();
    QuotIsDivision(3, 1);
    c := FirstFile();
    NothingTaken(G, c.flash, c.files, c.fds);
    NamedFile(G, c.flash, 0, NAME_A);
    ghost var f0 := c.flash;
    r := c.CfsCoffeeConfigureLog(NAME_A, 3, 1);
    if r < 0 { NothingTaken(G, c.flash, c.files, c.fds); }
    assert r == 0;
    ghost var page: nat :| SettingsStored(G, f0, c.flash, page, NAME_A, 3, 1);
    assert page == 0;
    ghost var h := HeaderAt(G, f0, 0).(logRecords := 3, logRecordSize := 1);
    assert c.flash == WithHeader(G, f0, 0, h);
    HeaderWritten(G, f0, 0, h);
    assert WithHeader(G, f0, 0, h) == Written(f0, G.At(0), Encode(h));
  }

  // ----- a file of 65536 bytes -----

  /** One sector of 512 pages: the file takes 257 of them, its log three. */
  const BIG := Geometry(256, 512, 1, 2, 1, 2, 512, 0)

  const LONG_FILE := NewHeader(257, false, NAME_A)

  lemma BigSizes()
    ensures BIG.Ok() && BIG.Pages() == 512 && BIG.Size() == 131072 && forall p: nat :: BIG.At(p) == 256 * p
    ensures forall p: nat :: p < 512 ==> NextSector(BIG, p) == 512
  {
    forall p: nat ensures BIG.At(p) == 256 * p { TimesIsProduct(p, 256); }
    TimesIsProduct(1, 512);
    QuotIsDivision(512, 256);
  }

  lemma BigSpace()
    ensures PageCount(BIG, 65536) == 257 && LogPages(BIG, LONG_FILE) == 3
    ensures Records(BIG, LONG_FILE) == 2 && RecordSize(BIG, LONG_FILE) == 256
  {
    QuotIsDivision(65827, 256);
    QuotIsDivision(512, 256);
    TimesIsProduct(2, 258);
    QuotIsDivision(807, 256);
  }

  function Base(): Flash {
    BigSizes();
    WithHeader(BIG, Filled(131072), 0, LONG_FILE)
  }

  lemma RoomForLong()
    ensures FreeRun(BIG, Filled(131072), 0, 257, 512) && !NoRun(BIG, Filled(131072), 257, 0, 512)
            && Wf(BIG, Filled(131072))
  {
    hide HeaderAt, Encode;
    BigSizes();
    var f := Filled(131072);
    HeaderErased(BIG, f, 0);
    assert Path(BIG, f, 512, 512) && Path(BIG, f, 0, 512);
    RunIsThere(BIG, f, 257, 0, 0, 512);
  }

  lemma RoomForLog()
    ensures !NoRun(BIG, Base(), 3, 257, 512)
  {
    hide HeaderAt, Encode, Actives;
    BigSizes();
    Names();
    RoomForLong();
    var f := Base();
    ReserveUpdate(BIG, Filled(131072), 0, 257, 512, LONG_FILE);
    HeaderErased(BIG, f, 257);
    assert Path(BIG, f, 512, 512) && Path(BIG, f, 257, 512);
    RunIsThere(BIG, f, 3, 257, 257, 512);
  }

  lemma TwoSlots(f: Flash, files: seq<FileObject>, fds: seq<FileDesc>)
    requires Inv(BIG, f, files, fds)
    ensures |files| == 2 && |fds| == 1
  {
    hide HeaderAt, DiskOk, NamesOk, SlotOk, RefCount;
  }

  /** One open descriptor leaves a slot. */
  lemma OneLeft(f: Flash, files: seq<FileObject>, fds: seq<FileDesc>)
    requires Inv(BIG, f, files, fds)
    ensures !SlotsTaken(files)
  {
    hide HeaderAt, DiskOk, NamesOk, Clash;
    TwoSlots(f, files, fds);
    assert SlotOk(BIG, f, files[0]) && SlotOk(BIG, f, files[1]);
    assert fds[..0] == [] && fds[..1] == fds;
    RefCountNext(fds, 0, 0);
    RefCountNext(fds, 0, 1);
  }

  /** Format, and reserve 65536 bytes. */
  method LongFile() returns (c: Coffee, ghost s: nat)
    ensures fresh(c) && c.Valid() && !c.strayed && c.g == BIG && !c.readsBack && c.flash == Base() && c.nextFree == 257
    ensures forall k :: 0 <= k < |c.fds| ==> c.fds[k].flags == 0
    ensures Files(BIG, c.flash) == {0} && HeaderAt(BIG, c.flash, 0) == LONG_FILE
    ensures Held(BIG, c.flash, c.files, s, NAME_A)
  {
    hide HeaderAt, Encode, DiskOk, CacheOk, NamesOk, FreeRun, NoRun, Actives, CStr, AllKept, Kept, ZeroRange, OnWalk,
         Quot, NoSuchFile, Filled, WithHeader, StoredName, Coffee.SetAsideIn, Strays;
    BigSizes();
    BigSpace();
    Names();
    c := new Coffee(BIG, false);
    RoomForLong();
    ghost var files0 := c.files;
    var r := c.CfsCoffeeReserve(NAME_A, 65536);
    NothingTaken(BIG, c.flash, c.files, c.fds);
    assert r == 0;
    s :| c.SetAsideIn(Filled(131072), files0, 0, s, 257, NAME_A);
    Landed(BIG, Filled(131072), files0, 0, c, s, 257, NAME_A, 512);
    SlotSetAside(c, files0, s);
  }

  lemma SlotSetAside(c: Coffee, files0: seq<FileObject>, s: nat)
    requires c.g == BIG && |NAME_A| == NAME_LENGTH && c.SetAsideIn(Filled(131072), files0, 0, s, 257, NAME_A)
    requires c.files[s].page == 0 && HeaderAt(BIG, c.flash, 0) == LONG_FILE
    ensures Held(BIG, c.flash, c.files, s, NAME_A)
  {
    hide HeaderAt, Encode, CStr, Reserved, FirstFit;
  }

  /** The only descriptor is open for reading and writing, at the start of the only file, which is 65536 bytes long. */
  ghost predicate AtStart(c: Coffee)
    reads c
  {
    && c.Valid() && !c.strayed && c.g == BIG && |c.files| == 2 && |c.fds| == 1 && 0 <= c.fds[0].file < 2
    && c.fds[0].flags == 3 && c.fds[0].offset == 0 && !c.readsBack
    && var o := c.files[c.fds[0].file]; 0 <= o.page && o.end >= 65536
  }

  lemma BothModes()
    ensures Bit(3, CFS_READ) && Bit(3, CFS_WRITE) && !Bit(3, CFS_APPEND)
  {}

  /** Open the file, and seek to byte 65536 and back. */
  method OpenLong(c: Coffee, ghost s: int)
    requires c.Valid() && !c.strayed && c.g == BIG && !c.readsBack && Files(BIG, c.flash) == {0}
    requires var h := HeaderAt(BIG, c.flash, 0);
      h.Active() && h.name == NAME_A && !h.log && !h.modified && h.maxPages == 257
    requires forall k :: 0 <= k < |c.fds| ==> c.fds[k].flags == 0
    modifies c
    ensures AtStart(c) && c.flash == old(c.flash)
    ensures Held(BIG, old(c.flash), old(c.files), s, NAME_A) ==> c.nextFree == old(c.nextFree)
    ensures var o := c.files[c.fds[0].file]; o.page == 0 && o.maxPages == 257 && !o.modified
  {
    hide HeaderAt, DiskOk, CacheOk, NamesOk, NoRun, Actives, CStr, AllKept, OnWalk, Quot, NoSuchFile, StoredName,
         Strays, NoCachedName, IsBaseEnd, Bit, Capacity, Times, Held;
    BigSizes();
    Names();
    BothModes();
    TwoSlots(c.flash, c.files, c.fds);
    NothingTaken(BIG, c.flash, c.files, c.fds);
    NamedFile(BIG, c.flash, 0, NAME_A);
    var fd := c.CfsOpen(NAME_A, 3);
    if fd < 0 { TwoSlots(c.flash, c.files, c.fds); NothingTaken(BIG, c.flash, c.files, c.fds); }
    TwoSlots(c.flash, c.files, c.fds);
    SeekRoom(BIG, c.flash, c.files, c.fds, 0);
    MergeSource(BIG, c.flash, c.files, c.fds, c.fds[0].file);
    ReadyFacts(BIG, c.flash, c.files[c.fds[0].file]);
    var r := c.CfsSeek(0, 65536, 0);
    r := c.CfsSeek(0, 0, 0);
  }

  // ----- a log of one record -----

  /** Overwrite the first byte: the file gets a log with one record, and room for another. */
  method LoggedLong() returns (c: Coffee)
    ensures fresh(c) && AtStart(c)
    ensures var o := c.files[c.fds[0].file];
      && o.modified && RegionLogged(BIG, c.flash, o.page, 0) && Used(BIG, c.flash, o.page) <= 1
      && Records(BIG, HeaderAt(BIG, c.flash, o.page)) == 2 && RecordSize(BIG, HeaderAt(BIG, c.flash, o.page)) == 256
  {
    hide HeaderAt, DiskOk, CacheOk, NamesOk, NoRun, OnWalk, Quot, Bit, Times, Held, Wrote, Torn, OpenRecords, Used,
         RegionLogged, RecordSize, Records, LogPages, Base, WroteFile, Coffee.Starved;
    BigSizes();
    BigSpace();
    BothModes();
    RoomForLog();
    FirstChunk();
    ghost var s;
    c, s := LongFile();
    OpenLong(c, s);
    ghost var f0, files0, fds0 := c.flash, c.files, c.fds;
    NotOversized(files0[fds0[0].file]);
    ghost var n, t, first, last;
    var r, fate;
    r, fate, n, t, first, last := c.CfsWrite(0, [7]);
    OneLeft(c.flash, c.files, c.fds);
    assert n == 1;
    ghost var torn := Torn(BIG, false, f0, 0, 0, 1, OpenRecords(BIG, f0, files0[fds0[0].file], 1 + HEADER_SIZE), first,
                           last);
    WrittenIn(BIG, f0, files0, fds0, 0, [7], torn, c.flash, c.files, c.fds, t, 1);
    WroteRefs(BIG, f0, files0, fds0, 0, [7], torn, c.flash, c.files, c.fds, t, 1);
    TwoSlots(c.flash, c.files, c.fds);
    SeekRoom(BIG, c.flash, c.files, c.fds, 0);
    MergeSource(BIG, c.flash, c.files, c.fds, t);
    WroteStays(BIG, f0, files0, fds0, 0, [7], torn, c.flash, c.files, c.fds, t, 1);
    r := c.CfsSeek(0, 0, 0);
  }

  lemma FirstChunk()
    ensures Quot(0, 256) == 0 && Chunks(0, 1, 256) == 1
  {}

  lemma NotOversized(o: FileObject)
    requires o.page == 0 && o.maxPages == 257
    ensures !Oversized(BIG, Base(), o, 0, 1) && 1 + HEADER_SIZE <= BIG.At(o.maxPages)
  {
    hide HeaderAt, Encode;
    BigSizes();
    BigSpace();
    HeaderWritten(BIG, Filled(131072), 0, LONG_FILE);
    TimesIsProduct(0xFFFF, 256);
  }

  /** Reading 65536 bytes of it never ends. */
  method HungRead() returns (c: Coffee, r: int, buf: seq<byte>, hung: bool)
    ensures fresh(c) && c.g == BIG && hung && buf == []
  {
    hide HeaderAt, DiskOk, CacheOk, NamesOk, OnWalk, Bit, ViewByte, FileReady, RegionLogged, Times, RecordSize, Used,
         Records;
    BothModes();
    c := LoggedLong();
    FdIsReady(BIG, c.flash, c.files, c.fds, 0);
    r, buf, hung := c.CfsRead(0, 65536);
  }

  /** Writing one byte at offset 1 may spoil a byte beside it, depending on what the stack holds. */
  method RecordSpoils() returns (c: Coffee)
    ensures fresh(c) && AtStart(c)
    ensures var o := c.files[c.fds[0].file];
      var free := OpenRecords(BIG, c.flash, o, 2 + HEADER_SIZE);
      exists first: seq<byte>, last: seq<byte> :: |first| == |last| == 256
        && !NoneLost(BIG, c.flash, o.page, o.end, 1, 1, Torn(BIG, false, c.flash, o.page, 1, 1, free, first, last))
  {
    hide HeaderAt, DiskOk, CacheOk, NamesOk, OnWalk, RegionLogged, Times, RecordSize, Used, Records, Torn, NoneLost,
         WritesExactly, Quot, Chunks;
    c := LoggedLong();
    ghost var t := c.fds[0].file;
    SeekRoom(BIG, c.flash, c.files, c.fds, 0);
    MergeSource(BIG, c.flash, c.files, c.fds, t);
    CapacityIs(BIG, c.flash, c.files[t].page);
    ReadyFacts(BIG, c.flash, c.files[t]);
    SecondRecord(c.flash, c.files[t]);
    ExactlyUnspoiled(BIG, false, c.flash, c.files[t], 1, 1, OpenRecords(BIG, c.flash, c.files[t], 2 + HEADER_SIZE));
  }

  lemma SecondRecord(f: Flash, o: FileObject)
    requires 0 <= o.page && 65536 <= o.end <= BIG.At(o.maxPages) && HeaderAt(BIG, f, o.page).modified
    requires RecordSize(BIG, HeaderAt(BIG, f, o.page)) == 256 && RegionLogged(BIG, f, o.page, 0)
             && Used(BIG, f, o.page) < Records(BIG, HeaderAt(BIG, f, o.page))
    ensures !WritesExactly(BIG, false, f, o, 1, 1, OpenRecords(BIG, f, o, 2 + HEADER_SIZE))
  {
    hide HeaderAt, RegionLogged, RecordSize, Records, Used, Times;
    RegionOf(0, 256, 1);
    RegionOf(0, 256, 0);
    RegionOf(0, 256, 2);
    TimesZero(256);
    SameRegion(BIG, f, o.page, 0, 1);
  }

  // ----- regions beyond 16 bits -----

  /** With records of one byte, byte 65535 leaves no entry, and byte 65536 is taken for byte 0. */
  lemma WrappedRegions()
    ensures Entry(65535, 1) == 0 && Recognised(0, 65536, 1) && Quot(0, 1) != Quot(65536, 1)
    ensures !RegionsFit(256 * 257 - HEADER_SIZE, 1)
  {
    hide Quot, Times;
    QuotIsDivision(0, 1);
    QuotIsDivision(65535, 1);
    QuotIsDivision(65536, 1);
    TimesIsProduct(0xFFFF, 1);
  }

  /** Such a file can be had: the settings are accepted, and an overwrite goes to the log. */
  method WideWrite() returns (c: Coffee, fate: Fate)
    ensures fresh(c) && c.g == BIG && fate == Wide
  {
    hide HeaderAt, DiskOk, CacheOk, NamesOk, NoRun, OnWalk, Quot, Bit, Times, Held, Wrote, Torn, OpenRecords, Used,
         RegionLogged, RecordSize, Records, Base, WroteFile, Coffee.Starved, Encode, Actives, NoSuchFile, CStr,
         Configured, Chunks, AllKept;
    BigSizes();
    Names();
    BothModes();
    ghost var s;
    c, s := LongFile();
    NothingTaken(BIG, c.flash, c.files, c.fds);
    NamedFile(BIG, c.flash, 0, NAME_A);
    QuotIsDivision(2, 1);
    ghost var f0 := c.flash;
    var r := c.CfsCoffeeConfigureLog(NAME_A, 2, 1);
    if r < 0 { NothingTaken(BIG, c.flash, c.files, c.fds); }
    assert r == 0;
    ghost var page: nat :| Configured(BIG, f0, c.flash, page, NAME_A, 2, 1);
    ConfiguredLong(f0, c.flash, page);
    OpenLong(c, s);
    ghost var f1, o := c.flash, c.files[c.fds[0].file];
    OversizedLong(f1, o);
    ghost var n, t, first, last;
    r, fate, n, t, first, last := c.CfsWrite(0, [7]);
  }

  lemma ConfiguredLong(f0: Flash, f: Flash, page: nat)
    requires Files(BIG, f0) == {0} && HeaderAt(BIG, f0, 0) == LONG_FILE
             && Configured(BIG, f0, f, page, NAME_A, 2, 1)
    ensures Files(BIG, f) == {0} && HeaderAt(BIG, f, 0) == LONG_FILE.(logRecords := 2, logRecordSize := 1)
  {
    hide HeaderAt, Actives, ViewByte, CStr;
  }

  lemma OversizedLong(f: Flash, o: FileObject)
    requires o.page == 0 && o.maxPages == 257 && o.end >= 65536
             && HeaderAt(BIG, f, 0) == LONG_FILE.(logRecords := 2, logRecordSize := 1)
    ensures Oversized(BIG, f, o, 0, 1) && 1 + HEADER_SIZE <= BIG.At(o.maxPages)
  {
    hide HeaderAt;
    BigSizes();
    WrappedRegions();
  }
}
