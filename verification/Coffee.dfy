/** The Coffee file system: its static state as fields, its operations as methods. */
module CoffeeFs {
  import opened CoffeeFlash
  import opened CoffeeLayout
  import opened CoffeeSpace
  import opened CoffeeGc
  import opened CoffeeLog
  import opened CoffeeCache
  import opened CoffeeUpdate
  import opened CoffeeEvict
  import opened CoffeeWrite
  import opened CoffeeRuns

  /** A collection keeps the disk and the cache sound. */
  lemma CollectedFacts(g: Geometry, f0: Flash, f: Flash, files: seq<FileObject>, fds: seq<FileDesc>)
    requires DiskOk(g, f0) && Collected(g, f0, f) && CacheOk(g, f0, files, fds) && NamesOk(g, f0, files)
    ensures DiskOk(g, f) && AllKept(g, f0, f) && Files(g, f) == Files(g, f0) && LayoutOk(g, f)
    ensures CacheOk(g, f, files, fds) && NamesOk(g, f, files)
  {
    hide HeaderAt, Path, Good, Actives, FileOk, Kept, RefCount, FdOk, CStr, SlotOk, Clash, ErasedSoFar;
    CollectedKeeps(g, f0, f);
    CacheKept(g, f0, f, files, fds);
  }

  /** The extent an open descriptor works on. */
  function OpenPage(files: seq<FileObject>, fds: seq<FileDesc>, fd: int): nat {
    if 0 <= fd < |fds| && 0 <= fds[fd].file < |files| && files[fds[fd].file].page >= 0 then files[fds[fd].file].page
    else 0
  }

  /** How a write ended: with its last byte or for want of space; at a multiple of 65536 bytes that the log cannot
      take; or, outside this model, at a file whose regions need more than 16 bits. */
  datatype Fate = Ended | Stuck | Wide

  lemma AtTheEnd(g: Geometry, f: Flash, o: FileObject, off: nat, n: nat)
    requires o.end <= off
    ensures !Oversized(g, f, o, off, n)
  {}

  lemma FitsOrWide(g: Geometry, f0: Flash, o: FileObject, off: nat, n: nat, f: Flash, files: seq<FileObject>,
                   fds: seq<FileDesc>, t: nat)
    requires Inv(g, f, files, fds) && t < |files| && files[t].references > 0 && 0 <= files[t].page && 0 <= o.page
    requires files[t].maxPages == Grown(g, o.maxPages, n + off + HEADER_SIZE) && files[t].end == o.end
    requires RecordSize(g, HeaderAt(g, f, files[t].page)) == RecordSize(g, HeaderAt(g, f0, o.page))
    requires files[t].modified || off < o.end
    ensures files[t].modified ==> !Oversized(g, f0, o, off, n)
    ensures Oversized(g, f0, o, off, n) <==> !RegionsFit(g.At(files[t].maxPages) - HEADER_SIZE,
                                                         RecordSize(g, HeaderAt(g, f, files[t].page)))
  {
    hide HeaderAt, DiskOk, CacheOk, NamesOk, Times, RecordSize, Capacity, LogOk, ConfigOk;
    MergeSource(g, f, files, fds, t);
    ReadyFacts(g, f, files[t]);
    CapacityIs(g, f, files[t].page);
  }

  /** A search for this many pages fails, and the collection that follows lowers next_free off the walk. */
  ghost predicate Strays(g: Geometry, f: Flash, n: nat, pages: nat) {
    NoRun(g, f, pages, n, g.Pages()) && !OnWalk(g, f, LoweredNextFree(g, f, n))
  }

  /** What a reservation that finds room at once does: the header of the first fit, and nothing else. */
  ghost predicate FirstFit(g: Geometry, f0: Flash, n0: nat, f: Flash, n: nat, pages: nat, page: int, h: Header) {
    && Wf(g, f0) && 0 <= n0 <= page < g.Pages() && h.Encodable() && f == WithHeader(g, f0, page, h)
    && NoRun(g, f0, pages, n0, page) && n == if page == n0 then n0 + pages else n0
  }

  /** Where a reservation puts a new extent: at the first fit, of the device as it is or else as a collection
      leaves it. */
  ghost predicate Fitted(g: Geometry, f0: Flash, n0: nat, f: Flash, n: nat, pages: nat, page: int, h: Header) {
    if NoRun(g, f0, pages, n0, g.Pages()) then
      exists f1 :: Collected(g, f0, f1) && FirstFit(g, f1, LoweredNextFree(g, f0, n0), f, n, pages, page, h)
    else FirstFit(g, f0, n0, f, n, pages, page, h)
  }

  lemma FittedHere(g: Geometry, f0: Flash, n0: nat, f1: Flash, n1: nat, f: Flash, n: nat, pages: nat, page: nat,
                   h: Header)
    requires Wf(g, f1) && n1 <= page < g.Pages() && h.Encodable() && f == WithHeader(g, f1, page, h)
    requires NoRun(g, f1, pages, n1, page) && n == if page == n1 then n1 + pages else n1
    requires if NoRun(g, f0, pages, n0, g.Pages()) then Collected(g, f0, f1) && n1 == LoweredNextFree(g, f0, n0)
             else f1 == f0 && n1 == n0
    ensures Fitted(g, f0, n0, f, n, pages, page, h)
  {
    hide NoRun, Collected, LoweredNextFree, WithHeader;
  }

  /** cfs_open has created the file at this page: for a mode other than reading alone, with the default size. */
  ghost predicate Created(g: Geometry, f0: Flash, n0: nat, f: Flash, n: nat, page: int, name: seq<byte>, flags: byte) {
    && NameFits(name) && (Bit(flags, CFS_WRITE) || !Bit(flags, CFS_READ)) && page >= 0 && g.Ok()
    && var pages := PageCount(g, g.dynSize);
    && var h := NewHeader(pages, false, StoredName(name));
    && Reserved(g, f0, f, page, h) && Fitted(g, f0, n0, f, n, pages, page, h)
  }

  /** A file of this name is on the device. */
  ghost predicate NameTaken(g: Geometry, f: Flash, name: seq<byte>) {
    exists p :: p in Files(g, f) && Matches(HeaderAt(g, f, p), name)
  }

  lemma FoundIsTaken(g: Geometry, f: Flash, files: seq<FileObject>, fds: seq<FileDesc>, slot: nat, name: seq<byte>)
    requires Inv(g, f, files, fds) && slot < |files| && files[slot].maxPages > 0 && 0 <= files[slot].page
             && Matches(HeaderAt(g, f, files[slot].page), name)
    ensures NameTaken(g, f, name)
  {
    hide HeaderAt, CStr, Actives;
    FoundPage(g, f, files, fds, slot);
  }

  lemma HeaderKept(g: Geometry, f: Flash, f': Flash, page: nat)
    requires AllKept(g, f, f') && page in Files(g, f)
    ensures HeaderAt(g, f', page) == HeaderAt(g, f, page)
  {}

  /** A failed step leaves the file and its log alone. */
  lemma UsedQuiet(g: Geometry, f: Flash, files: seq<FileObject>, fds: seq<FileDesc>, t: nat, f': Flash,
                  files': seq<FileObject>, fds': seq<FileDesc>)
    requires Inv(g, f, files, fds) && t < |files| && files[t].references > 0
             && Quiet(g, f, files, fds, f', files', fds')
    ensures 0 <= files[t].page && t < |files'| && files'[t] == files[t]
    ensures HeaderAt(g, f', files[t].page) == HeaderAt(g, f, files[t].page)
    ensures Used(g, f', files[t].page) == Used(g, f, files[t].page)
  {
    hide HeaderAt, Path, Good, Actives, RefCount, DiskOk, Kept, NamesOk, FirstFree, Records, RecordSize, CacheOk,
         ConfigOk, FileReady, Capacity, TableOk, HeaderStored;
    MergeSource(g, f, files, fds, t);
    QuietMoves(g, f, files, fds, t, f', files', fds');
    var h := HeaderAt(g, f, files[t].page);
    if h.modified { LogUnread(g, f, f', files[t].page); }
  }

  lemma LogUnread(g: Geometry, f: Flash, f': Flash, q: nat)
    requires DiskOk(g, f) && q in Files(g, f) && HeaderAt(g, f, q).modified && AllKept(g, f, f')
    ensures var h := HeaderAt(g, f, q);
      h.logPage >= 0 ==> FirstFree(g, f', h.logPage, 0, Records(g, h)) == FirstFree(g, f, h.logPage, 0, Records(g, h))
  {
    hide HeaderAt, Path, Good, Actives, FirstFree, Records, RecordSize, ConfigOk, Capacity, TableOk, HeaderStored;
    assert FileOk(g, f, q);
    var h := HeaderAt(g, f, q);
    TimesMono(0, Records(g, h), RecordSize(g, h));
    FirstFreeFrame(g, f, f', h.logPage, 0, Records(g, h));
  }

  lemma LogIsCached(g: Geometry, f0: Flash, files0: seq<FileObject>, fds: seq<FileDesc>, s: nat, f: Flash,
                    files: seq<FileObject>, log: nat, x: nat)
    requires LogCreated(g, f0, files0, fds, s, f, files, log) && Chosen(files0, x) && x != s && x < |files|
    requires files[x].maxPages == LogPages(g, HeaderAt(g, f0, files0[s].page))
    requires x < |files| && files == files0[x := files[x]][s := files[s]] && files[x].page == log
    ensures LogCached(g, files0, s, f, files)
  {
    hide HeaderAt, Moved, Chosen, FirstFree, Capacity;
    assert LogIn(g, files0, s, HeaderAt(g, f, files[s].page), files, x);
  }

  lemma SparesMerged(g: Geometry, f0: Flash, files0: seq<FileObject>, fds0: seq<FileDesc>, s: nat, f: Flash,
                     files: seq<FileObject>, fds: seq<FileDesc>, t: int)
    requires MergedInto(g, f0, files0, fds0, s, f, files, fds, t) && Relocated(g, f0, files0, s, files, t)
    ensures 0 <= t && Spares(g, f0, files0, s, f, files, t)
  {
    hide HeaderAt, FileFollows, Own, Relocated, Spares;
    SparesRelocated(g, f0, files0, s, f, files, t);
  }

  /** One more step of a write leaves the other cached objects alone. */
  lemma SparesOn(g: Geometry, f0: Flash, files0: seq<FileObject>, fds0: seq<FileDesc>, fd: nat, data: seq<byte>,
                 torn: imap<nat, byte>, f: Flash, files: seq<FileObject>, fds: seq<FileDesc>, t: int, n: nat, f': Flash,
                 files': seq<FileObject>, u: int)
    requires CacheOk(g, f0, files0, fds0) && Wrote(g, f0, files0, fds0, fd, data, torn, f, files, fds, t, n)
    requires Spares(g, f0, files0, fds0[fd].file, f, files, t) && Spares(g, f, files, t, f', files', u) && u >= 0
    ensures Spares(g, f0, files0, fds0[fd].file, f', files', u)
  {
    hide HeaderAt, CacheOk, Moved, WroteFile, Spares;
    SparesTrans(g, f0, files0, fds0, fds0[fd].file, f, files, FdBack(fds, fd, fds0[fd].offset), t, f', files', u);
  }

  lemma SparesLogging(g: Geometry, readsBack: bool, f0: Flash, files0: seq<FileObject>, fds0: seq<FileDesc>, fd: nat,
                      data: seq<byte>, total: nat, free: nat, first: seq<byte>, last: seq<byte>, f: Flash,
                      files: seq<FileObject>, fds: seq<FileDesc>, t: int, n: nat, f': Flash, files': seq<FileObject>,
                      u: int)
    requires Logging(g, readsBack, f0, files0, fds0, fd, data, total, free, first, last, f, files, fds, t, n)
    requires fd < |fds0| && Spares(g, f0, files0, fds0[fd].file, f, files, t) && Spares(g, f, files, t, f', files', u)
    requires u >= 0
    ensures Spares(g, f0, files0, fds0[fd].file, f', files', u)
  {
    hide HeaderAt, CacheOk, Wrote, Spares, Torn, LogState, Used, Chunks, RecordSize;
    var torn := Torn(g, readsBack, f0, files0[fds0[fd].file].page, fds0[fd].offset, n, free, first, last);
    SparesOn(g, f0, files0, fds0, fd, data, torn, f, files, fds, t, n, f', files', u);
  }

  lemma Unlogged(g: Geometry, f: Flash, files: seq<FileObject>, fds: seq<FileDesc>, t: nat)
    requires Inv(g, f, files, fds) && t < |files| && files[t].references > 0 && !files[t].modified
    ensures 0 <= files[t].page && !HeaderAt(g, f, files[t].page).modified && HeaderAt(g, f, files[t].page).logPage == 0
  {
    hide HeaderAt, DiskOk, CacheOk, NamesOk, FileOk, Capacity, ConfigOk, FileReady;
    MergeSource(g, f, files, fds, t);
    ReadyFacts(g, f, files[t]);
  }

  /** A record keeps next_free and gc_wait right. */
  lemma RecordStops(g: Geometry, f: Flash, f': Flash, o: FileObject, k: nat, region: int, buf: seq<byte>, x: nat,
                    wait: bool, strayed: bool)
    requires FileReady(g, f, o) && 0 <= o.page && HeaderAt(g, f, o.page).modified
             && Appended(g, f, f', o.page, k, region, buf)
    requires k < Records(g, HeaderAt(g, f, o.page)) && Placed(g, f, x, wait, strayed)
    ensures Placed(g, f', x, wait, strayed)
  {
    hide HeaderAt, Path, Good, Actives, FileReady, FileOk, Records, Appended, DataChanged, Placed, Capacity;
    ReadyFacts(g, f, o);
    AppendedInLog(g, f, f', o.page, k, region, buf);
    DataStops(g, f, f', HeaderAt(g, f, o.page).logPage, x, wait, strayed);
  }

  /** The copy buffer of merge_log is shorter than 2^16 bytes. */
  lemma BufferFits(g: Geometry, f: Flash, page: nat)
    requires DiskOk(g, f) && page in Files(g, f)
    ensures RecordSize(g, HeaderAt(g, f, page)) < 0x1_0000
  {
    hide HeaderAt, Actives, Path, FileOk, RecordSize;
    RecordSizePositive(g, f, page);
    PageFits(g);
  }

  lemma Wrap16(n: nat, b: nat)
    requires n - Low16(n) <= b <= n
    ensures Low16(b) == b - (n - Low16(n)) && Low16(n) <= n && Low16(n) < 0x1_0000 && (Low16(n) == n <==> n < 0x1_0000)
  {}

  class Coffee {
    const g: Geometry
    /** Whether write_log_page reads an earlier record of the region into its buffer, as its structure
        intends; the code as it stands passes a null buffer and does not. */
    const readsBack: bool
    var flash: Flash
    var nextFree: nat
    // the local statics of get_sector_status
    var skipPages: nat
    var lastActive: bool
    var gcWait: bool
    /** Set when a collection has lowered next_free off the walk. What the code does from then on is not
        modelled: the call in progress gives up, and no contract says more than that. */
    var strayed: bool
    var files: seq<FileObject>
    var fds: seq<FileDesc>

    ghost predicate Valid()
      reads this
    {
      Inv(g, flash, files, fds) && nextFree <= g.Pages()
      && Placed(g, flash, nextFree, gcWait, strayed) && (strayed ==> MayStray(g))
    }

    /** A reservation of this many pages is in vain: the device has no such run, and neither would what a collection
        leaves of it. Or a collection has left the walk. */
    ghost predicate NoSpace(pages: nat)
      reads this
    {
      strayed || (gcWait && OutOfSpace(g, flash, pages))
    }

    /** Why a merge into an extent of this many pages failed: no descriptor, no slot or no space. */
    ghost predicate NoMerge(pages: nat)
      reads this
    {
      AllOpen(fds) || SlotsTaken(files) || NoSpace(pages)
    }

    /** Why a write to the file o that needs so many bytes could not go on: the one thing it needed next. That is a
        larger extent; or a merge, as the log is full; or a log. */
    ghost predicate Starved(o: FileObject, need: nat)
      reads this
    {
      && 0 <= o.page
      && if need > g.At(o.maxPages) then NoMerge(2 * o.maxPages)
         else if o.modified then
           Used(g, flash, o.page) == Records(g, HeaderAt(g, flash, o.page)) && NoMerge(o.maxPages)
         else SlotsTaken(files) || NoSpace(LogPages(g, HeaderAt(g, flash, o.page)))
    }

    /** Why create_log failed: no slot, or no space for the log, before a collection or after it. */
    ghost predicate NoLogSpace(f0: Flash, n0: nat, h: Header)
      reads this
    {
      SlotsTaken(files) || (NoRun(g, f0, LogPages(g, h), n0, g.Pages()) && NoSpace(LogPages(g, h)))
    }

    lemma LogStarves(o: FileObject, need: nat, f0: Flash, n0: nat)
      requires 0 <= o.page && need <= g.At(o.maxPages)
      requires if o.modified then
                 Used(g, flash, o.page) == Records(g, HeaderAt(g, flash, o.page)) && NoMerge(o.maxPages)
               else NoLogSpace(f0, n0, HeaderAt(g, flash, o.page))
      ensures Starved(o, need)
    {
      hide HeaderAt, Used, Records, NoRun, OutOfSpace, NoMerge;
    }

    lemma GrowthStarves(o: FileObject, need: nat)
      requires 0 <= o.page && need > g.At(o.maxPages) && NoMerge(2 * o.maxPages)
      ensures Starved(o, need)
    {
      hide HeaderAt, Used, Records, NoRun, OutOfSpace, NoMerge;
    }

    // ----- device primitives -----

    /** COFFEE_WRITE with the discipline of flash: it may only turn 0 bits into 1 bits. */
    method Program(off: nat, data: seq<byte>)
      requires off + |data| <= |flash|
      requires OnlySets(flash[off..off + |data|], data)
      modifies `flash
      ensures flash == Written(old(flash), off, data)
    {
      flash := Written(flash, off, data);
    }

    // ----- garbage collection -----

    /** get_sector_status: an iteration over the sectors that carries skipPages and lastActive. */
    method GetSectorStatus(sector: nat, ghost e: nat)
      returns (isolate: nat, stats: SectorStatus, ghost e': nat)
      requires Wf(g, flash) && sector < g.sectors
      requires Path(g, flash, SectorStart(g, sector) + (if sector == 0 then 0 else skipPages), g.Pages())
      modifies `skipPages, `lastActive
      ensures Reported(g, flash, sector, if sector == 0 then 0 else old(skipPages), sector != 0 && old(lastActive), e,
                       stats, skipPages, lastActive, e')
      ensures isolate == (if lastActive || skipPages >= g.sectorPages then 0 else skipPages)
    {
      hide Count, HeaderAt, Path, Good, KindAt, Actives, Overhang, Reported, Scanned, ScanStep;
      var active: nat, obsolete: nat, free: nat := 0, 0, 0;
      e' := e;
      if sector == 0 {
        skipPages := 0;
        lastActive := false;
      }
      ghost var skip, la := skipPages, lastActive;
      var sectorStart := SectorStart(g, sector);
      var sectorEnd := sectorStart + g.sectorPages;
      SectorSpan(g, sector);
      ghost var pos := sectorStart + skip;
      if skipPages >= g.sectorPages {
        ReportCarried(g, flash, sector, skip, la, e);
      } else {
        ScanBegins(g, flash, pos, la, sectorStart, sectorEnd, la, e);
      }

      if lastActive {
        if skipPages >= g.sectorPages {
          stats := SectorStatus(g.sectorPages, 0, 0);
          skipPages := skipPages - g.sectorPages;
          return 0, stats, e;
        }
        active := skipPages;
      } else {
        if skipPages >= g.sectorPages {
          stats := SectorStatus(0, g.sectorPages, 0);
          skipPages := skipPages - g.sectorPages;
          return if skipPages >= g.sectorPages then 0 else skipPages, stats, e;
        }
        obsolete := skipPages;
      }

      var page: nat := sectorStart + skipPages;
      while page < sectorEnd
        invariant Scanned(g, flash, pos, la, sectorStart, sectorEnd, page, active, obsolete, lastActive, e')
        invariant free == 0
        decreases g.Pages() - page
      {
        var hdr := HeaderAt(g, flash, page);
        if hdr.alloc {
          ScanExtent(g, flash, pos, la, sectorStart, sectorEnd, page, active, obsolete, lastActive, e');
        } else {
          ReportFree(g, flash, sector, skip, la, e, page, active, obsolete, lastActive, e');
        }
        e' := page;
        lastActive := false;
        if hdr.Active() {
          lastActive := true;
          active := active + hdr.maxPages;
          page := page + hdr.maxPages;
        } else if hdr.isolated {
          page := page + 1;
          obsolete := obsolete + 1;
        } else if hdr.obsolete {
          obsolete := obsolete + hdr.maxPages;
          page := page + hdr.maxPages;
        } else {
          free := sectorEnd - page;
          break;
        }
      }

      if page >= sectorEnd {
        ReportScanned(g, flash, sector, skip, la, e, page, active, obsolete, lastActive, e');
      }
      skipPages := active + obsolete + free - g.sectorPages;
      if skipPages > 0 {
        if lastActive {
          active := g.sectorPages - obsolete;
        } else {
          obsolete := g.sectorPages - active;
        }
      }
      stats := SectorStatus(active, obsolete, free);
      isolate := if lastActive || skipPages >= g.sectorPages then 0 else skipPages;
    }

    /** isolate_pages: marks the tail of a split extent page by page. */
    method IsolatePages(start: nat, count: nat)
      requires Wf(g, flash) && start + count <= g.Pages()
      modifies `flash
      ensures Same(old(flash), flash, 0, g.At(start)) && Same(old(flash), flash, g.At(start + count), g.Size())
      ensures Isolated(g, flash, start, start + count)
    {
      hide HeaderAt, Decode, Encode;
      var hdr := BLANK.(valid := true, alloc := true, isolated := true);
      for page := 0 to count
        invariant |flash| == |old(flash)|
        invariant Same(old(flash), flash, 0, g.At(start)) && Same(old(flash), flash, g.At(start + page), g.Size())
        invariant Isolated(g, flash, start, start + page)
      {
        AtMono(g, start, start + page);
        AtMono(g, start + page, start + page + 1);
        AtMono(g, start + page + 1, g.Pages());
        HeaderWritten(g, flash, start + page, hdr);
        IsolateOne(g, flash, start, start + page, hdr);
        flash := Written(flash, g.At(start + page), Encode(hdr));
      }
    }

    /** COFFEE_ERASE. */
    method EraseSector(sector: nat)
      requires Wf(g, flash) && sector < g.sectors
      modifies `flash
      ensures var a, b := g.At(SectorStart(g, sector)), g.At(SectorStart(g, sector + 1));
        Same(old(flash), flash, 0, a) && ZeroRange(flash, a, b) && Same(old(flash), flash, b, g.Size())
    {
      SectorSpan(g, sector);
      AtMono(g, SectorStart(g, sector), SectorStart(g, sector + 1));
      AtMono(g, SectorStart(g, sector + 1), g.Pages());
      flash := Written(flash, g.At(SectorStart(g, sector)),
          Filled(g.At(SectorStart(g, sector + 1)) - g.At(SectorStart(g, sector))));
    }

    /** The two device steps of collect_garbage for a sector it reclaims. */
    method ClearSector(sector: nat, isolationCount: nat)
      requires Wf(g, flash) && sector < g.sectors && SectorStart(g, sector + 1) + isolationCount <= g.Pages()
      modifies `flash
      ensures Cleared(g, old(flash), flash, sector, isolationCount)
    {
      hide HeaderAt;
      SectorSpan(g, sector);
      if isolationCount > 0 {
        IsolatePages(SectorStart(g, sector) + g.sectorPages, isolationCount);
      }
      ghost var f1 := flash;
      EraseSector(sector);
      ClearedBy(g, old(flash), f1, flash, sector, isolationCount);
    }

    /** collect_garbage in greedy mode, the only mode compiled in. */
    method CollectGarbage()
      requires LayoutOk(g, flash) && nextFree <= g.Pages()
      modifies `flash, `nextFree, `skipPages, `lastActive
      ensures Collected(g, old(flash), flash)
      ensures nextFree == LoweredNextFree(g, old(flash), old(nextFree))
    {
      hide Collecting, Reported, Collected, Erasable, LoweredNextFree, Path, HeaderAt, Cleared, TrueCount, Actives,
           Times;
      ghost var f0, n0 := flash, nextFree;
      ghost var e := 0;
      CollectBegins(g, flash, nextFree);
      for sector := 0 to g.sectors
        invariant Collecting(g, f0, flash, sector, if sector == 0 then 0 else skipPages, sector != 0 && lastActive,
                             e, n0, nextFree)
      {
        ghost var skip, la := if sector == 0 then 0 else skipPages, sector != 0 && lastActive;
        CollectResumes(g, f0, flash, sector, skip, la, e, n0, nextFree);
        var isolationCount, stats;
        ghost var e';
        isolationCount, stats, e' := GetSectorStatus(sector, e);
        ReportIsTrue(g, f0, flash, sector, skip, la, e, n0, nextFree, stats, skipPages, lastActive, e');
        ErasableByCounts(g, f0, sector);
        if stats.active > 0 {
          CollectKeeps(g, f0, flash, sector, skip, la, e, n0, nextFree, stats, skipPages, lastActive, e');
          e := if skip >= g.sectorPages then e else e';
          continue;
        }
        if stats.obsolete > 0 {
          IsolationFits(g, f0, flash, sector, skip, la, e, n0, nextFree, stats, skipPages, lastActive, e');
          SectorSpan(g, sector);
          ghost var f1, n1 := flash, nextFree;
          var firstPage := SectorStart(g, sector);
          if firstPage < nextFree {
            nextFree := firstPage;
          }
          ClearSector(sector, isolationCount);
          CollectErases(g, f0, f1, flash, sector, skip, la, e, n0, n1, stats, skipPages, lastActive, e',
                        isolationCount);
        } else {
          CollectKeeps(g, f0, flash, sector, skip, la, e, n0, nextFree, stats, skipPages, lastActive, e');
          e := if skip >= g.sectorPages then e else e';
        }
      }
      CollectEnds(g, f0, flash, if g.sectors == 0 then 0 else skipPages, g.sectors != 0 && lastActive, e, n0, nextFree);
    }

    // ----- allocation -----

    /** find_contiguous_pages: first fit from next_free, -1 for INVALID_PAGE. */
    method FindContiguousPages(amount: nat) returns (r: int, ghost stop: nat)
      requires LayoutOk(g, flash) && OnWalk(g, flash, nextFree) && 1 <= amount
      modifies `nextFree
      ensures -1 <= r
      ensures r >= 0 ==> old(nextFree) <= r && r + amount < g.Pages() && FreeRun(g, flash, r, amount, stop)
                         && NoRun(g, flash, amount, old(nextFree), r)
      ensures r < 0 <==> NoRun(g, flash, amount, old(nextFree), g.Pages())
      ensures nextFree == if r == old(nextFree) then r + amount else old(nextFree)
    {
      hide Searching, Path, HeaderAt, FreeRun, NoRun, ZeroRange;
      stop := 0;
      SearchBegins(g, flash, amount, nextFree);
      var start: int := -1;
      var page := nextFree;
      while page < g.Pages()
        invariant nextFree == old(nextFree) && nextFree <= page <= g.Pages()
        invariant start == -1 || (nextFree <= start && start + amount < g.Pages())
        invariant Searching(g, flash, amount, nextFree, start, page)
        decreases g.Pages() - page
      {
        var hdr := HeaderAt(g, flash, page);
        if !hdr.alloc {
          SearchFree(g, flash, amount, nextFree, start, page);
          if start == -1 {
            start := page;
            if start + amount >= g.Pages() {
              return -1, 0;
            }
          }
          page := NextFile(g, page, hdr);
          if start + amount <= page {
            if start == nextFree {
              nextFree := start + amount;
            }
            RunIsThere(g, flash, amount, old(nextFree), start, page);
            return start, page;
          }
        } else {
          SearchRestarts(g, flash, amount, nextFree, start, page);
          start := -1;
          page := NextFile(g, page, hdr);
        }
      }
      SearchEnds(g, flash, amount, nextFree, start, page);
      return -1, 0;
    }

    // ----- the file cache -----

    /** load_file: the first free slot, or else the last unreferenced one; -1 for NULL. */
    method LoadFile(start: nat, hdr: Header) returns (slot: int)
      requires 0 <= hdr.maxPages
      modifies `files
      ensures -1 <= slot < |old(files)|
      ensures slot < 0 ==> files == old(files) && forall i :: 0 <= i < |files| ==>
              files[i].maxPages > 0 && files[i].references > 0
      ensures slot >= 0 ==> Chosen(old(files), slot)
      ensures slot >= 0 ==> files == old(files)[slot := FileObject(-1, start, hdr.maxPages, -1,
              old(files)[slot].references, hdr.modified)]
    {
      var free, unreferenced := -1, -1;
      var i := 0;
      while i < |files|
        invariant 0 <= i <= |files| && free == -1 && -1 <= unreferenced < i
        invariant unreferenced >= 0 ==> files[unreferenced].references == 0
        invariant forall j :: unreferenced < j < i ==> files[j].references > 0
        invariant forall j :: 0 <= j < i ==> files[j].maxPages > 0
      {
        if files[i].maxPages == 0 {
          free := i;
          break;
        } else if files[i].references == 0 {
          unreferenced := i;
        }
        i := i + 1;
      }
      if free == -1 {
        if unreferenced != -1 {
          i := unreferenced;
        } else {
          return -1;
        }
      }
      files := files[i := FileObject(-1, start, hdr.maxPages, -1, files[i].references, hdr.modified)];
      return i;
    }

    /** find_file: the cache first, then a walk over the device; -1 for NULL. */
    method FindFile(name: seq<byte>) returns (slot: int)
      requires Inv(g, flash, files, fds)
      modifies `files
      ensures Inv(g, flash, files, fds) && RefsKept(old(files), files) && -1 <= slot < |files|
      ensures slot < 0 ==> files == old(files) && NoCachedName(g, flash, files, -1, name)
      ensures slot < 0 ==> NoSuchFile(g, flash, 0, g.Pages(), name) || forall i :: 0 <= i < |files| ==>
              files[i].references > 0
      ensures slot >= 0 ==> files[slot].maxPages > 0 && 0 <= files[slot].page
                            && Matches(HeaderAt(g, flash, files[slot].page), name)
      ensures slot >= 0 && files != old(files) ==> old(files)[slot].references == 0 && Chosen(old(files), slot)
      ensures slot >= 0 && files != old(files) ==> files == old(files)[slot := Loaded(g, flash, files[slot].page)]
      ensures slot >= 0 && files != old(files) ==> NoCachedName(g, flash, old(files), -1, name)
    {
      hide HeaderAt, Path, Good, Actives, CStr, SlotOk, DiskOk, FdOk, RefCount, Clash;
      for i := 0 to |files|
        invariant files == old(files) && NoCachedName(g, flash, files[..i], -1, name)
      {
        if files[i].maxPages == 0 {
          continue;
        }
        SlotInUse(g, flash, files[i]);
        var hdr := HeaderAt(g, flash, files[i].page);
        if hdr.Active() && !hdr.log && CStr(name) == CStr(hdr.name) {
          return i;
        }
      }
      DiskLayout(g, flash);
      assert files[..|files|] == files;
      var page := 0;
      while page < g.Pages()
        invariant page <= g.Pages() && Path(g, flash, 0, page) && Path(g, flash, page, g.Pages())
        invariant files == old(files) && NoSuchFile(g, flash, 0, page, name)
        decreases g.Pages() - page
      {
        var hdr := HeaderAt(g, flash, page);
        if hdr.Active() && !hdr.log && CStr(name) == CStr(hdr.name) {
          ScanHits(g, flash, page, name);
          LoadedSlotOk(g, flash, page);
          slot := LoadFile(page, hdr);
          if slot >= 0 {
            UnusedIsUnreferenced(g, flash, old(files), fds, slot);
            ScannedIsUncached(g, flash, old(files), fds, page, name, slot);
            CacheLoaded(g, flash, old(files), fds, slot, Loaded(g, flash, page));
            NamesLoaded(g, flash, old(files), slot, Loaded(g, flash, page));
          }
          return;
        }
        ScanMisses(g, flash, page, name);
        page := NextFile(g, page, hdr);
      }
      return -1;
    }

    /** The part of reserve that looks for space: a search, and if it fails and was not in vain before, a
        collection and another one. -1 for INVALID_PAGE. n1 is next_free as the last search found it. */
    method FindSpace(pages: nat) returns (page: int, ghost stop: nat, ghost n1: nat)
      requires Valid() && !strayed && 1 <= pages
      modifies `flash, `nextFree, `skipPages, `lastActive, `gcWait, `strayed
      ensures Inv(g, flash, files, fds) && AllKept(g, old(flash), flash) && Files(g, flash) == Files(g, old(flash))
      ensures -1 <= page && nextFree <= g.Pages()
      ensures page < 0 ==> Valid() && NoRun(g, old(flash), pages, old(nextFree), g.Pages()) && NoSpace(pages)
      ensures strayed <==> !old(gcWait) && Strays(g, old(flash), old(nextFree), pages)
      ensures strayed ==> page < 0
      ensures gcWait == (old(gcWait) || (page < 0 && !strayed))
      ensures if old(gcWait) || !NoRun(g, old(flash), pages, old(nextFree), g.Pages()) then flash == old(flash)
              else Collected(g, old(flash), flash)
      ensures page >= 0 ==> page + pages < g.Pages() && FreeRun(g, flash, page, pages, stop)
      ensures page >= 0 ==> n1 <= page && Managed(g, flash, n1, gcWait)
                            && nextFree == if page == n1 then n1 + pages else n1
      ensures page >= 0 && old(gcWait) ==> !NoRun(g, old(flash), pages, old(nextFree), g.Pages())
      ensures page >= 0 ==> NoRun(g, flash, pages, n1, page)
                            && n1 == if NoRun(g, old(flash), pages, old(nextFree), g.Pages())
                                     then LoweredNextFree(g, old(flash), old(nextFree)) else old(nextFree)
    {
      hide HeaderAt, DiskOk, CacheOk, NamesOk, AllKept, FreeRun, NoRun, LoweredNextFree, Collected, OnWalk, Actives,
           Managed, OutOfSpace;
      ghost var f0, n0 := flash, nextFree;
      DiskLayout(g, flash);
      KeptRefl(g, flash);
      n1 := nextFree;
      ManagedFreely(g, flash, nextFree, gcWait);
      page, stop := FindContiguousPages(pages);
      if page == -1 {
        if gcWait {
          NoneToBeHad(g, flash, nextFree, pages);
          return;
        }
        CollectGarbage();
        CollectedFacts(g, f0, flash, files, fds);
        NextFreeStaysOnWalk(g, f0, flash, n0);
        LoweredBound(g, f0, n0);
        if !MayStray(g) { NeverStrays(g, f0, n0); }
        if !OnWalk(g, flash, nextFree) {
          strayed := true;
          return;
        }
        ManagedCollected(g, f0, flash, n0, false);
        ManagedFreely(g, flash, nextFree, true);
        n1 := nextFree;
        page, stop := FindContiguousPages(pages);
        if page == -1 {
          gcWait := true;
          DiskLayout(g, flash);
          NoneToBeHad(g, flash, nextFree, pages);
        }
      }
    }

    /** reserve: finds space, after a collection if need be, and writes the header of a new extent. */
    method Reserve(name: seq<byte>, pages: nat, allowDuplicates: bool, isLog: bool) returns (slot: int)
      requires Valid() && !strayed && 1 <= pages && NAME_LENGTH - 1 <= |name|
      modifies this
      ensures fds == old(fds) && DiskOk(g, flash) && AllKept(g, old(flash), flash) && CacheOk(g, flash, files, fds)
      ensures nextFree <= g.Pages() && RefsKept(old(files), files) && -1 <= slot < |files|
      ensures Placed(g, flash, nextFree, gcWait, strayed) && (strayed ==> MayStray(g))
      ensures strayed ==> slot < 0 && !old(gcWait) && Strays(g, old(flash), old(nextFree), pages)
      ensures gcWait != old(gcWait) ==> slot < 0 && NoSpace(pages)
      ensures !old(gcWait) && Strays(g, old(flash), old(nextFree), pages) ==>
                strayed || (!allowDuplicates && NameTaken(g, old(flash), name))
      ensures slot < 0 ==> NamesOk(g, flash, files)
      ensures slot < 0 ==> SlotsTaken(files) || (!allowDuplicates && NameTaken(g, old(flash), name))
                           || (NoRun(g, old(flash), pages, old(nextFree), g.Pages()) && NoSpace(pages))
      ensures slot < 0 && files != old(files) ==> !allowDuplicates && exists s :: Taken(old(files), files, s)
      ensures slot >= 0 ==> files[slot].page >= 0 && old(files)[slot].references == 0 && Chosen(old(files), slot)
      ensures slot >= 0 ==> files[slot] == FreshObject(files[slot].page, NewHeader(pages, isLog, StoredName(name)))
      ensures slot >= 0 ==> Reserved(g, old(flash), flash, files[slot].page, NewHeader(pages, isLog, StoredName(name)))
      ensures slot >= 0 ==> NamesOkBut(g, flash, files, slot)
      ensures slot >= 0 ==> files == old(files)[slot := files[slot]]
      ensures slot >= 0 && !allowDuplicates ==> NoCachedName(g, old(flash), old(files), -1, name)
      ensures slot >= 0 && (isLog || NoCachedName(g, old(flash), old(files), slot, StoredName(name))) ==>
              NamesOk(g, flash, files)
      ensures slot >= 0 ==> Fitted(g, old(flash), old(nextFree), flash, nextFree, pages, files[slot].page,
                                   NewHeader(pages, isLog, StoredName(name)))
    {
      hide HeaderAt, Path, Good, Actives, CStr, SlotOk, DiskOk, CacheOk, NamesOk, NamesOkBut, Reserved, AllKept,
           FreeRun, NoRun, Encode, Kept, NameTaken, OnWalk, OnlySets, ZeroRange, Same, Matches, Strays, Managed,
           OutOfSpace, Collected, Fitted;
      ghost var f0, files0 := flash, files;
      DiskLayout(g, flash);
      KeptRefl(g, flash);
      if !allowDuplicates {
        var found := FindFile(name);
        if found != -1 {
          FoundIsTaken(g, flash, files, fds, found, name);
          assert files != files0 ==> Taken(files0, files, found);
          return -1;
        }
      }
      assert files == files0;
      var page: int;
      ghost var stop, n1: nat;
      page, stop, n1 := FindSpace(pages);
      if page == -1 {
        return -1;
      }
      ghost var f1 := flash;
      DiskLayout(g, f1);
      var hdr := NewHeader(pages, isLog, StoredName(name));
      ReserveWrites(g, flash, page, pages, stop, hdr);
      ManagedReserve(g, flash, page, pages, stop, hdr, n1, gcWait);
      FittedHere(g, f0, old(nextFree), f1, n1, WithHeader(g, f1, page, hdr), nextFree, pages, page, hdr);
      Program(g.At(page), Encode(hdr));
      ReservedSince(g, f0, f1, flash, files, fds, page, hdr);
      slot := LoadFile(page, hdr);
      if slot != -1 {
        UnusedIsUnreferenced(g, f1, files0, fds, slot);
        files := files[slot := files[slot].(end := 0)];
        ReservedCache(g, f0, flash, files0, fds, page, hdr, slot);
        ReservedNames(g, f0, flash, files0, fds, page, hdr, slot);
        UnreferencedSlot(files0, files, slot);
      }
    }

    // ----- reading -----

    /** get_record_index: searches the index table backwards in batches; -1 when the region has no record. */
    method GetRecordIndex(logPage: nat, searchRecords: nat, region: int) returns (r: int)
      requires 1 <= g.logTableLimit
      ensures r == Newest(g, flash, logPage, searchRecords, region)
    {
      hide Index, Newest;
      var batchSize := if searchRecords > g.logTableLimit then g.logTableLimit else searchRecords;
      var processed := 0;
      r := -1;
      while processed < searchRecords && r < 0
        invariant 0 <= processed <= searchRecords && (processed < searchRecords ==> 1 <= batchSize)
        invariant -1 <= r < searchRecords && (r >= 0 ==> Index(g, flash, logPage, r) == region + 1)
        invariant forall j :: (if r < 0 then searchRecords - processed else r + 1) <= j < searchRecords ==>
                  Index(g, flash, logPage, j) != region + 1
        decreases searchRecords - processed
      {
        if batchSize + processed > searchRecords {
          batchSize := searchRecords - processed;
        }
        var first := searchRecords - processed - batchSize;
        var i := batchSize - 1;
        while i >= 0
          invariant -1 <= i < batchSize && r == -1
          invariant forall j :: first + i < j < searchRecords ==> Index(g, flash, logPage, j) != region + 1
        {
          if Index(g, flash, logPage, first + i) - 1 == region {
            r := searchRecords - processed - (batchSize - i);
            break;
          }
          i := i - 1;
        }
        processed := processed + batchSize;
      }
      NewestUnique(g, flash, logPage, searchRecords, region, r);
    }

    /** read_log_page: one chunk within a region; r is -1 when the log has no record of it. */
    method ReadLogPage(hdr: Header, recordCount: int, offset: nat, size: nat, ghost q: nat)
      returns (r: int, lpSize: nat, data: seq<byte>)
      requires DiskOk(g, flash) && q in Files(g, flash) && hdr == HeaderAt(g, flash, q) && hdr.modified
               && offset < Capacity(g, flash, q) && size < 0x1_0000
      requires hdr.logPage >= 0 ==>
               recordCount == -1 || recordCount == FirstFree(g, flash, hdr.logPage, 0, Records(g, hdr))
      ensures lpSize == Min(size, RecordSize(g, hdr) - Rem(offset, RecordSize(g, hdr))) && (1 <= size ==> 1 <= lpSize)
      ensures r == if RegionLogged(g, flash, q, offset) then lpSize else -1
      ensures var src := ChunkSource(g, flash, q, offset);
        if r >= 0 then 0 <= src && src + lpSize <= |flash| && data == flash[src..src + lpSize]
        else src == DataStart(g, q) + offset
    {
      hide HeaderAt, Capacity, Actives, Path, FileOk, DiskOk, View, Quot, Newest, FirstFree;
      DiskLayout(g, flash);
      RegionFits(g, flash, q, offset);
      var logRecordSize, logRecords := RecordSize(g, hdr), Records(g, hdr);
      var region := Low16(Quot(offset, logRecordSize));
      var lpOffset := Rem(offset, logRecordSize);
      lpSize := if size > logRecordSize - lpOffset then logRecordSize - lpOffset else size;
      SearchIsNewest(g, flash, q, recordCount, region);
      var searchRecords := if recordCount < 0 then logRecords else recordCount;
      var matchIndex := GetRecordIndex(hdr.logPage, searchRecords, region);
      if matchIndex < 0 {
        return -1, lpSize, [];
      }
      RecordInside(g, flash, q, offset, lpSize);
      var base := DataStart(g, hdr.logPage) + 2 * logRecords + Times(matchIndex, logRecordSize) + lpOffset;
      data := flash[base..base + lpSize];
      return lpSize, lpSize, data;
    }

    /** One round of the loop in cfs_read: from the log in first hand, or else from the original file. It
        delivers nothing only if lp.size, which keeps 16 bits of the bytes left, is 0. */
    method ReadChunk(file: FileObject, hdr: Header, offset: nat, bytesLeft: nat) returns (data: seq<byte>)
      requires FileReady(g, flash, file) && hdr == HeaderAt(g, flash, file.page) && hdr.modified && offset < file.end
               && offset + bytesLeft <= file.end
      ensures |data| <= Low16(bytesLeft) <= bytesLeft && (data == [] <==> Low16(bytesLeft) == 0)
      ensures data == View(g, flash, file.page, offset, |data|)
    {
      hide HeaderAt, FileReady, Capacity, Actives, Path, FileOk, DiskOk, View, Quot, Newest, ChunkSource, Rem,
           RecordSize, Records, Times, RegionLogged;
      ReadyFacts(g, flash, file);
      ReadyDisk(g, flash, file);
      Wrap16(bytesLeft, bytesLeft);
      var r, lpSize;
      r, lpSize, data := ReadLogPage(hdr, file.recordCount, offset, Low16(bytesLeft), file.page);
      LogView(g, flash, file, offset, lpSize);
      if r < 0 {
        var a := DataStart(g, file.page) + offset;
        data := flash[a..a + lpSize];
      }
    }

    /** cfs_read: r is -1 for a descriptor that is not open for reading, else the bytes delivered. lp.size holds
        16 bits, so a round with a multiple of 65536 bytes left asks for none and changes nothing: the loop
        never ends. hung tells that, exactly for logged files and 65536 or more bytes. */
    method CfsRead(fd: int, size: nat) returns (r: int, buf: seq<byte>, hung: bool)
      requires 0 <= fd < |fds| ==> FdReady(g, flash, files, fds[fd])
      modifies `fds
      ensures !CanUse(old(fds), fd, CFS_READ) ==> r == -1 && !hung && fds == old(fds)
      ensures CanUse(old(fds), fd, CFS_READ) ==>
                var d := old(fds)[fd];
                var o := files[d.file];
                var n := Min(size, o.end - d.offset);
                var m := if hung then Low16(n) else n;
                && (hung <==> o.modified && n >= 0x1_0000) && (!hung ==> r == n)
                && 0 <= m <= n && buf == View(g, flash, o.page, d.offset, m)
                && fds == old(fds)[fd := d.(offset := d.offset + m)]
      ensures old(Valid()) ==> Valid()
    {
      hide Inv, HeaderAt, FileReady, Capacity, Actives, Path, FileOk, DiskOk, View, Quot, Newest, ChunkSource, Rem,
           RecordSize, Records, Bit, Times, Low16;
      hung := false;
      if !CanUse(fds, fd, CFS_READ) {
        return -1, [], false;
      }
      ghost var d := fds[fd];
      var file := files[fds[fd].file];
      ReadyFacts(g, flash, file);
      ReadyDisk(g, flash, file);
      var n := if fds[fd].offset + size > file.end then file.end - fds[fd].offset else size;
      Wrap16(n, n);
      if !file.modified {
        BaseView(g, flash, file, fds[fd].offset, n);
        var a := DataStart(g, file.page) + fds[fd].offset;
        buf := flash[a..a + n];
        fds := fds[fd := fds[fd].(offset := fds[fd].offset + n)];
        ReadKeepsInv(g, flash, files, old(fds), fd, fds[fd].offset);
        return n, buf, false;
      }

      var hdr := HeaderAt(g, flash, file.page);
      var bytesLeft := n;
      buf := [];
      ViewEmpty(g, flash, file.page, d.offset);
      while bytesLeft > 0
        invariant n - Low16(n) <= bytesLeft <= n && !hung
                  && fds == old(fds)[fd := d.(offset := d.offset + n - bytesLeft)]
        invariant buf == View(g, flash, file.page, d.offset, n - bytesLeft)
      {
        Wrap16(n, bytesLeft);
        var offset := fds[fd].offset;
        var data := ReadChunk(file, hdr, offset, bytesLeft);
        if data == [] {
          hung := true;
          break;
        }
        fds := fds[fd := fds[fd].(offset := offset + |data|)];
        ViewConcat(g, flash, file.page, d.offset, n - bytesLeft, |data|);
        buf := buf + data;
        bytesLeft := bytesLeft - |data|;
      }
      ReadKeepsInv(g, flash, files, old(fds), fd, fds[fd].offset);
      r := n;
    }

    // ----- opening, closing, seeking -----

    /** file_end: one past the last nonzero byte of the data, searched backwards page by page. */
    method FileEnd(start: nat) returns (end: nat)
      requires DiskOk(g, flash) && start in Files(g, flash)
      ensures IsBaseEnd(g, flash, start, end)
    {
      hide HeaderAt, Actives, DiskOk, Times, MaxPages;
      DiskLayout(g, flash);
      RoomBounds(g, flash, start);
      var hdr := HeaderAt(g, flash, start);
      ghost var stop := g.At(start + MaxPages(g, flash, start));
      var page := hdr.maxPages - 1;
      while page >= 0
        invariant -1 <= page < hdr.maxPages && ZeroRange(flash, g.At(start + page + 1), stop)
      {
        PageBounds(g, start, page, hdr.maxPages);
        var i := g.pageSize - 1;
        while i >= 0
          invariant -1 <= i < g.pageSize && ZeroRange(flash, g.At(start + page) + i + 1, stop)
        {
          if flash[g.At(start + page) + i] != 0 {
            if page == 0 && i < HEADER_SIZE {
              return 0;
            }
            return 1 + i + g.At(page) - HEADER_SIZE;
          }
          i := i - 1;
        }
        page := page - 1;
      }
      return 0;
    }

    /** get_available_fd. */
    method GetAvailableFd() returns (fd: int)
      ensures -1 <= fd < |fds| && (fd >= 0 ==> fds[fd].flags == 0)
      ensures fd < 0 ==> forall k :: 0 <= k < |fds| ==> fds[k].flags != 0
    {
      for i := 0 to |fds|
        invariant forall k :: 0 <= k < i ==> fds[k].flags != 0
      {
        if fds[i].flags == 0 {
          return i;
        }
      }
      return -1;
    }

    /** Why no file could be had: nothing of the name is cached, and there is no slot, or the file is missing and
        was only to be read, or there is no space for a new one, before a collection or after it. */
    ghost predicate Unobtainable(f0: Flash, files0: seq<FileObject>, n0: nat, name: seq<byte>, flags: byte)
      reads this
    {
      && NoCachedName(g, f0, files0, -1, name)
      && (|| SlotsTaken(files)
          || (NoSuchFile(g, f0, 0, g.Pages(), name)
              && (|| (Bit(flags, CFS_READ) && !Bit(flags, CFS_WRITE))
                  || (NoRun(g, f0, PageCount(g, g.dynSize), n0, g.Pages()) && NoSpace(PageCount(g, g.dynSize))))))
    }

    /** The part of cfs_open that finds the file, or reserves one unless it is opened for reading only. */
    method ObtainFile(name: seq<byte>, flags: byte) returns (slot: int)
      requires Valid() && !strayed && NameFits(name)
      modifies this
      ensures fds == old(fds) && AllKept(g, old(flash), flash) && -1 <= slot < |files| == |old(files)|
      ensures slot < 0 ==> Valid() && RefsKept(old(files), files)
                           && Unobtainable(old(flash), old(files), old(nextFree), name, flags)
      ensures slot < 0 ==> files == old(files)
      ensures slot >= 0 ==> files == old(files)[slot := files[slot]]
                            && (Held(g, old(flash), old(files), slot, name) || Chosen(old(files), slot))
      ensures gcWait != old(gcWait) ==> slot < 0 && NoSpace(PageCount(g, g.dynSize))
      ensures slot >= 0 ==> !strayed && Managed(g, flash, nextFree, gcWait)
      ensures slot >= 0 ==> Delivered(g, old(flash), flash, old(files), files, fds, slot, name)
                            && nextFree <= g.Pages() && 0 <= files[slot].page && 0 <= files[slot].end
      ensures slot >= 0 ==> if files[slot].page in Files(g, old(flash))
                            then flash == old(flash) && nextFree == old(nextFree)
                            else (&& NoSuchFile(g, old(flash), 0, g.Pages(), name) && files[slot].end == 0
                                  && Created(g, old(flash), old(nextFree), flash, nextFree, files[slot].page, name,
                                     flags))
      ensures slot >= 0 ==> EndFound(g, old(flash), old(files), slot, files[slot].page, files[slot].end)
      ensures forall s :: Held(g, old(flash), old(files), s, name) ==>
                slot == s && flash == old(flash) && nextFree == old(nextFree) && files[s].page == old(files)[s].page
      ensures strayed ==> !old(gcWait) && Strays(g, old(flash), old(nextFree), PageCount(g, g.dynSize))
    {
      hide HeaderAt, CStr, SlotOk, DiskOk, CacheOk, NamesOk, NamesOkBut, AllKept, Bit, Quot, NoCachedName,
           NoSuchFile, Delivered, Actives, NoRun, IsBaseEnd, NameTaken, Strays, Managed, OnWalk, OutOfSpace, Chosen,
           Reserved, Fitted, NewHeader, StoredName;
      ghost var f0, files0 := flash, files;
      KeptRefl(g, flash);
      DiskLayout(g, flash);
      slot := FindFile(name);
      ghost var found := slot;
      if slot >= 0 && files == files0 { HeldHere(g, flash, files, fds, slot, name); }
      HeldIsDelivered(g, flash, files0, files, found, name);
      if slot == -1 {
        MissingOrTaken(g, flash, files, fds, name);
        if Bit(flags, CFS_READ) && !Bit(flags, CFS_WRITE) {
          return -1;
        }
        PageCountPositive(g, g.dynSize);
        slot := Reserve(name, PageCount(g, g.dynSize), true, false);
        if slot == -1 {
          return -1;
        }
        ReservedFile(g, f0, flash, files0, files, fds, slot, name, PageCount(g, g.dynSize));
        assert files[slot := files[slot].(end := 0)] == files;
        files := files[slot := files[slot].(end := 0)];
      } else {
        DeliveredByFind(g, flash, files0, files, fds, slot, name);
        DeliveredPage(g, f0, flash, files0, files, fds, slot, name);
        FoundEnd(g, flash, files0, files, fds, slot, name);
        if files[slot].end == -1 {
          var end := FileEnd(files[slot].page);
          BaseEndFacts(g, flash, files[slot].page, end);
          DeliveredEnd(g, f0, flash, files0, files, fds, slot, name, end);
          files := files[slot := files[slot].(end := end)];
        }
      }
    }

    /** cfs_open. Opening with no mode at all leaks a reference: the descriptor stays free and the object is counted,
        so exactly the other modes keep the invariant. */
    method CfsOpen(name: seq<byte>, flags: byte) returns (fd: int)
      requires Valid() && !strayed && NameFits(name)
      modifies this
      ensures -1 <= fd && AllKept(g, old(flash), flash) && (if fd < 0 then Valid() else !strayed)
      ensures fd >= 0 ==> (Valid() <==> flags != 0)
      ensures fd < 0 ==> FdsKept(old(fds), fds) && RefsKept(old(files), files)
      ensures fd < 0 ==> (AllOpen(old(fds)) && AllOpen(fds))
                         || Unobtainable(old(flash), old(files), old(nextFree), name, flags)
      ensures fd >= 0 ==> Opened(g, old(flash), flash, old(files), files, old(fds), fds, fd, name, flags)
      ensures fd >= 0 ==>
                if OpenPage(files, fds, fd) in Files(g, old(flash))
                then flash == old(flash) && nextFree == old(nextFree)
                else (&& NoSuchFile(g, old(flash), 0, g.Pages(), name)
                      && 0 <= fds[fd].file < |files| && files[fds[fd].file].end == 0
                      && Created(g, old(flash), old(nextFree), flash, nextFree, files[fds[fd].file].page, name,
                                 flags))
      ensures fd >= 0 ==> 0 <= fds[fd].file < |files|
                          && EndFound(g, old(flash), old(files), fds[fd].file, files[fds[fd].file].page,
                             files[fds[fd].file].end)
      ensures fd >= 0 ==> forall s :: Held(g, old(flash), old(files), s, name) ==>
                            fds[fd].file == s && flash == old(flash) && nextFree == old(nextFree)
                                && files[s].page == old(files)[s].page
      ensures fd < 0 ==> files == old(files)
      ensures fd >= 0 ==> files == old(files)[fds[fd].file := files[fds[fd].file]]
                          && (Held(g, old(flash), old(files), fds[fd].file, name)
                              || Chosen(old(files), fds[fd].file))
      ensures HasFree(old(files)) ==>
                forall i :: 0 <= i < |files| && old(files)[i].maxPages > 0 && (fd < 0 || i != fds[fd].file) ==>
                  files[i] == old(files)[i]
      ensures gcWait != old(gcWait) ==> fd < 0 && NoSpace(PageCount(g, g.dynSize))
      ensures strayed ==> !old(gcWait) && Strays(g, old(flash), old(nextFree), PageCount(g, g.dynSize))
    {
      hide HeaderAt, CStr, SlotOk, DiskOk, CacheOk, NamesOk, NamesOkBut, AllKept, FdsKept, Bit, NoCachedName,
           NoSuchFile, Delivered, Opened, Actives, NoRun, IsBaseEnd, Strays, Quot, Managed, OnWalk, OutOfSpace,
           Chosen, Held, Created;
      ghost var f0, files0 := flash, files;
      KeptRefl(g, flash);
      fd := GetAvailableFd();
      if fd < 0 {
        NothingHappened(files, fds);
        return;
      }
      TablesUnchanged(files, fds, fd);
      var slot := ObtainFile(name, flags);
      if slot == -1 {
        CacheFreeFd(g, flash, files, fds, fd, fds[fd].(file := -1));
        fds := fds[fd := fds[fd].(file := -1)];
        return -1;
      }
      DeliveredSizes(g, f0, flash, files0, files, fds, slot, name);
      var d := FileDesc(if Bit(flags, CFS_APPEND) then files[slot].end else 0, slot, flags);
      var o := files[slot].(references := files[slot].references + 1);
      OpenCompletes(g, f0, flash, files0, files, fds, slot, name, fd, d, o, flags);
      fds := fds[fd := d];
      files := files[slot := o];
    }

    /** cfs_close. */
    method CfsClose(fd: int)
      requires Valid()
      modifies `files, `fds
      ensures Valid()
      ensures !(0 <= fd < |old(fds)| && old(fds)[fd].flags != 0) ==> files == old(files) && fds == old(fds)
      ensures 0 <= fd < |old(fds)| && old(fds)[fd].flags != 0 ==>
                var slot := old(fds)[fd].file;
                && 0 <= slot < |old(files)| && 1 <= old(files)[slot].references
                && files == old(files)[slot := old(files)[slot].(references := old(files)[slot].references - 1)]
                && fds == old(fds)[fd := old(fds)[fd].(flags := 0, file := -1)]
    {
      hide DiskOk, CacheOk, NamesOk;
      if 0 <= fd < |fds| && fds[fd].flags != 0 {
        CacheClosed(g, flash, files, fds, fd);
        var slot := fds[fd].file;
        fds := fds[fd := fds[fd].(flags := 0)];
        files := files[slot := files[slot].(references := files[slot].references - 1)];
        fds := fds[fd := fds[fd].(file := -1)];
        assert fds == old(fds)[fd := old(fds)[fd].(flags := 0, file := -1)];
      }
    }

    /** cfs_seek: whence 0 sets, 1 is relative to the offset, 2 to the end. A seek into the last
        header-sized stretch below the limit is accepted although no data fits there; exactly then
        the invariant is lost. */
    method CfsSeek(fd: int, offset: int, whence: int) returns (r: int)
      requires Valid()
      modifies `files, `fds
      ensures r == -1 || r >= 0
      ensures r >= 0 <==> && 0 <= fd < |old(fds)| && old(fds)[fd].flags != 0 && 0 <= whence <= 2
                          && 0 <= old(fds)[fd].file < |old(files)|
                          && 0 <= SeekTarget(old(fds)[fd], old(files)[old(fds)[fd].file], offset, whence)
                             <= g.At(old(files)[old(fds)[fd].file].maxPages)
      ensures r < 0 ==> files == old(files) && fds == old(fds)
      ensures r >= 0 ==>
                var d := old(fds)[fd];
                var o := old(files)[d.file];
                && r == SeekTarget(d, o, offset, whence) && 0 <= o.page && fds == old(fds)[fd := d.(offset := r)]
                && files == old(files)[d.file := o.(end := if o.end < r then r else o.end)]
                && (Valid() <==> r <= Capacity(g, flash, o.page))
    {
      hide HeaderAt, DiskOk, CacheOk, NamesOk, Capacity, Times;
      TableSize(g, flash, files, fds);
      if !(0 <= fd < |fds| && fds[fd].flags != 0) {
        return -1;
      }
      FdIsReady(g, flash, files, fds, fd);
      var slot := fds[fd].file;
      ReadyFacts(g, flash, files[slot]);
      var newOffset: int;
      if whence == 0 {
        newOffset := offset;
      } else if whence == 2 {
        newOffset := files[slot].end + offset;
      } else if whence == 1 {
        newOffset := fds[fd].offset + offset;
      } else {
        return -1;
      }
      if newOffset < 0 || newOffset > g.At(files[slot].maxPages) {
        return -1;
      }
      SeekEffect(g, flash, files, fds, fd, newOffset);
      if files[slot].end < newOffset {
        files := files[slot := files[slot].(end := newOffset)];
      }
      fds := fds[fd := fds[fd].(offset := newOffset)];
      return newOffset;
    }

    // ----- removal -----

    /** remove_by_page: marks the extent, and first its log if asked to, obsolete; closes its
        descriptors if asked to; invalidates its cached objects. -1 if the extent is not active. */
    method RemoveByPage(page: nat, removeLog: bool, closeFds: bool) returns (r: int)
      requires DiskOk(g, flash) && page in Files(g, flash)
      modifies `flash, `files, `fds, `gcWait
      ensures r == 0 && flash == RemovedFrom(g, old(flash), page, removeLog) && !gcWait
      ensures SlotsDropped(old(files), files, RemovedPages(g, old(flash), page, removeLog))
      ensures fds == if closeFds then ClosedFds(old(files), old(fds), page) else old(fds)
      decreases removeLog
    {
      hide HeaderAt, DiskOk, Actives, Encode;
      RemovalTarget(g, flash, page);
      var hdr := HeaderAt(g, flash, page);
      ghost var f0, files0, fds0 := flash, files, fds;
      if !hdr.Active() {
        return -1;
      }
      if removeLog && hdr.modified {
        LogIsTarget(g, flash, page);
        r := RemoveByPage(hdr.logPage, false, false);
        if r < 0 {
          return -1;
        }
      }
      AfterLogRemoval(g, f0, page, removeLog);
      Program(g.At(page), Encode(ObsoleteHeader(hdr)));
      gcWait := false;

      ghost var flash1, files1 := flash, files;
      if closeFds {
        var i := 0;
        while i < |fds|
          invariant flash == flash1 && files == files1 && !gcWait && 0 <= i <= |fds| == |fds0|
          invariant forall k :: 0 <= k < i ==> fds[k] == CloseIf(files, fds0[k], page)
          invariant forall k :: i <= k < |fds| ==> fds[k] == fds0[k]
        {
          if 0 <= fds[i].file < |files| && files[fds[i].file].page == page {
            fds := fds[i := fds[i].(flags := 0)];
          }
          i := i + 1;
        }
      }

      ghost var fds1 := fds;
      for i := 0 to |files|
        invariant flash == flash1 && fds == fds1 && !gcWait && |files| == |files1|
        invariant forall k :: 0 <= k < i ==> files[k] == if Gone(files1[k], {page}) then DropObject(files1[k])
                  else files1[k]
        invariant forall k :: i <= k < |files| ==> files[k] == files1[k]
      {
        if files[i].page == page {
          files := files[i := files[i].(page := -1)];
          files := files[i := files[i].(references := 0)];
          files := files[i := files[i].(maxPages := 0)];
        }
      }
      DroppedInTurn(g, f0, page, removeLog, files0, files1, files);
      if closeFds {
        ClosedAlike(files0, files1, if removeLog && hdr.modified then LogOf(hdr) else page + 1, page, fds0, fds);
      }
      return 0;
    }

    /** cfs_remove. */
    method CfsRemove(name: seq<byte>) returns (r: int)
      requires Valid()
      modifies `flash, `files, `fds, `gcWait
      ensures Valid() && (r == 0 || r == -1)
      ensures r < 0 ==> flash == old(flash) && files == old(files) && fds == old(fds)
      ensures r < 0 ==> NoSuchFile(g, flash, 0, g.Pages(), name) || forall i :: 0 <= i < |files| ==>
              files[i].references > 0
      ensures r == 0 ==> !gcWait && exists page: nat ::
              Removed(g, old(flash), flash, old(files), files, old(fds), fds, page, name)
    {
      hide HeaderAt, CStr, SlotOk, DiskOk, CacheOk, NamesOk, NoCachedName, NoSuchFile, Removed, Actives, RemovedFrom,
           Chosen;
      ghost var files0 := files;
      var slot := FindFile(name);
      if slot == -1 {
        return -1;
      }
      assert files != files0 ==> Taken(files0, files, slot);
      FoundPage(g, flash, files, fds, slot);
      ghost var page, f0, files1, fds1, wait := files[slot].page, flash, files, fds, gcWait;
      r := RemoveByPage(files[slot].page, true, true);
      RemovalKeepsInv(g, f0, files1, fds1, page, files, fds);
      RemovedStops(g, f0, page, true, nextFree, wait, strayed);
      RemovalEffect(g, f0, flash, files0, files1, files, fds1, fds, page, name);
    }

    // ----- merging -----

    /** The copy loop of merge_log: reads the old file through descriptor fd to its end and programs
        the bytes into the new extent. */
    method CopyFile(fd: nat, ghost s: nat, page2: nat, bufSize: nat, ghost f2: Flash) returns (offset: nat)
      requires fd < |fds| && fds[fd].flags != 0 && CanUse(fds, fd, CFS_READ) && fds[fd].file == s < |files|
               && fds[fd].offset == 0
      requires 1 <= bufSize < 0x1_0000 && flash == f2 && files[s].maxPages > 0 && 0 <= files[s].page
               && files[s].page in Files(g, f2)
      requires SlotOk(g, f2, files[s]) && !HeaderAt(g, f2, files[s].page).log && 0 <= files[s].end
               && files[s].page != page2
      requires Copying(g, f2, flash, files[s].page, page2, 0) && files[s].end <= Capacity(g, f2, page2)
      modifies `flash, `fds
      ensures offset == files[s].end && fds == old(fds)[fd := old(fds)[fd].(offset := offset)]
      ensures Copying(g, f2, flash, files[s].page, page2, offset)
      ensures Placed(g, f2, nextFree, gcWait, strayed) ==> Placed(g, flash, nextFree, gcWait, strayed)
    {
      hide HeaderAt, SlotOk, Copying, Actives, Capacity, FileReady, CanUse, View, ViewByte, OnlySets, DataStart,
           OnWalk, Placed;
      offset := 0;
      ghost var d, page, end := fds[fd], files[s].page, files[s].end;
      while true
        invariant offset <= end && fds == old(fds)[fd := d.(offset := offset)]
        invariant Copying(g, f2, flash, page, page2, offset)
        invariant Placed(g, f2, nextFree, gcWait, strayed) ==> Placed(g, flash, nextFree, gcWait, strayed)
        decreases end - offset
      {
        CopySlot(g, f2, flash, page2, offset, files[s]);
        CanUseMoved(old(fds), fd, offset);
        var n, buf, _ := CfsRead(fd, bufSize);
        if n > 0 {
          CopyChunk(g, f2, flash, files[s], page2, offset, n);
          if Placed(g, flash, nextFree, gcWait, strayed) {
            CopyStops(g, f2, flash, page, page2, offset, buf, nextFree, gcWait, strayed);
          }
          Program(DataStart(g, page2) + offset, buf);
          offset := offset + n;
        }
        if n == 0 {
          break;
        }
      }
    }

    /** The descriptor loop of merge_log: every open descriptor of the old file is pointed to slot t. */
    method RePointDescriptors(filePage: nat, ghost s: nat, t: nat)
      requires s < |files| && t < |files| && s != t && files[s].page == filePage && files[t].references == 0
      requires forall k :: 0 <= k < |fds| && fds[k].flags != 0 ==> 0 <= fds[k].file < |files|
      requires forall i :: 0 <= i < |files| && files[i].page == filePage ==> i == s || RefCount(fds, i) == 0
      modifies `files, `fds
      ensures RePointed(old(fds), fds, s, t)
      ensures files == old(files)[t := old(files)[t].(references := RefCount(old(fds), s))]
    {
      hide RefCount, Refers;
      ghost var fds0, files0 := fds, files;
      RefCountPrefix(fds0, s);
      var i := 0;
      while i < |fds|
        invariant 0 <= i <= |fds| == |fds0|
        invariant forall k :: 0 <= k < i ==> fds[k] == RePoint(fds0[k], s, t)
        invariant forall k :: i <= k < |fds| ==> fds[k] == fds0[k]
        invariant files == files0[t := files0[t].(references := RefCount(fds0[..i], s))]
      {
        RefCountNext(fds0, i, s);
        OnlyOneOnPage(files0, fds0, i, filePage, s);
        if fds[i].flags != 0 && files[fds[i].file].page == filePage {
          fds := fds[i := fds[i].(file := t)];
          files := files[t := files[t].(references := files[t].references + 1)];
        }
        i := i + 1;
      }
      assert fds0[..i] == fds0;
    }

    /** The second half of merge_log, once the new extent is reserved: copy, move the descriptors,
        drop the old extents, carry the log settings over, close. */
    method TransferFile(filePage: nat, slot: nat, fd: nat, hdr: Header,
                        ghost s: nat, ghost f0: Flash, ghost files0: seq<FileObject>, ghost fds0: seq<FileDesc>,
                        ghost files1: seq<FileObject>)
      requires MergeStarted(g, f0, files0, fds0, s, fd, files1, fds) && Copied0(g, f0, flash, files, fds, s, slot)
               && nextFree <= g.Pages()
      requires !strayed && Placed(g, flash, nextFree, gcWait, strayed)
      requires |files| == |files1| && files == files1[slot := files[slot]] && files1[slot].references == 0
               && Chosen(files1, slot)
               && files[s] == files1[s] && files0[s].page == filePage
      requires hdr == HeaderAt(g, f0, filePage) && MergeReady(g, f0, flash, files[s], filePage, files[slot].page, hdr)
      requires Copying(g, flash, flash, filePage, files[slot].page, 0)
      modifies `flash, `files, `fds, `gcWait
      ensures Valid() && |files| == |old(files)| && files[slot].maxPages == old(files)[slot].maxPages
      ensures MergedInto(g, f0, files0, fds0, s, flash, files, fds, slot)
      ensures Relocated(g, f0, files0, s, files, slot)
    {
      hide HeaderAt, SlotOk, DiskOk, CacheOk, NamesOk, NamesOkBut, AllKept, MergedInto, Copying, Copied, ConfigOk,
           Actives, Capacity, Encode, FileReady, FileOk, Shrunk, RemovedFrom, RemovedPages, SlotsDropped, RePointed,
           CanUse, RefCount, MergeReady, RecordSize, OnWalk, Placed;
      ghost var f2, files2, fds1, page2 := flash, files, fds, files[slot].page;
      OpenedReading(g, f0, files0, fds0, s, fd, files1, fds1);
      ReadyToCopy(g, f0, f2, files[s], filePage, page2, hdr);
      BufferFits(g, f0, filePage);
      var offset := CopyFile(fd, s, files[slot].page, RecordSize(g, hdr), f2);

      ghost var f3, fds3 := flash, fds;
      CopyDone(g, f0, f2, f3, files2, fds1, s, slot, fd);
      CopiedTables(g, f2, f3, files2, fds3, s, slot);
      RePointDescriptors(filePage, s, slot);
      ghost var fds4, wait := fds, gcWait;
      var removed := RemoveByPage(filePage, true, false);
      ghost var f4, files5 := flash, files;
      RemovedStops(g, f3, filePage, true, nextFree, wait, strayed);
      MergeDrops(g, f2, f3, files2, fds3, s, slot, RefCount(fds3, s), fds4, files5);
      ghost var filesT := files5[slot := MergedObject(files5[slot], files2[s].end, files5[slot].references)];

      // copy the log configuration
      var hdr2 := HeaderAt(g, flash, files[slot].page).(logRecordSize := hdr.logRecordSize,
          logRecords := hdr.logRecords);
      MergeConfig(g, f2, f3, f4, filesT, fds4, filePage, page2, offset, hdr, hdr2, slot);
      RewriteStops(g, f4, page2, hdr2, nextFree, gcWait, strayed);
      Program(g.At(files[slot].page), Encode(hdr2));
      files := files[slot := files[slot].(modified := false)];
      files := files[slot := files[slot].(end := offset)];
      assert files == filesT;
      MergedFd(fds3, fds4, s, slot, fd);
      CfsClose(fd);
      GoneIsOwn(g, f0, f2, f3, filePage, page2, offset);
      RelocatedSteps(g, f0, files0, s, slot, files1, files2, files2[slot].(references := RefCount(fds3, s)), files5,
                     files);
      MergeResult(g, f0, files0, fds0, s, fd, files1, fds1, f2, files2, f3, fds3, slot, f4, files5, fds4, flash,
                  files, fds);
    }

    /** merge_log: copies a file and its log into a new extent and makes that the file. The read error
        the C loop handles cannot occur: the descriptor it reads is open for reading. */
    method MergeLog(filePage: nat, extend: bool, ghost s: nat) returns (r: int, ghost t: int)
      requires Valid() && !strayed && s < |files| && files[s].references > 0 && files[s].page == filePage
      modifies this
      ensures Valid() && (r == 0 || r == -1) && (r == 0 ==> !strayed)
      ensures r == -1 ==> Quiet(g, old(flash), old(files), old(fds), flash, files, fds) && s < |files|
                          && NoMerge((if extend then 2 else 1) * old(files)[s].maxPages) && files == old(files)
      ensures r == 0 ==> MergedInto(g, old(flash), old(files), old(fds), s, flash, files, fds, t)
      ensures r == 0 ==> Relocated(g, old(flash), old(files), s, files, t)
      ensures r == 0 ==> 0 <= t < |files| && files[t].maxPages == (if extend then 2 else 1) * old(files)[s].maxPages
    {
      hide HeaderAt, SlotOk, DiskOk, CacheOk, NamesOk, NamesOkBut, AllKept, FdsKept, Opened, Quiet, MergedInto,
           Copying, Reserved, Actives, Capacity, NameFits, StoredName, FileReady, FileOk, CanUse, CStr, RefCount,
           MergeReady, NoRun, NoCachedName, NoSuchFile, IsBaseEnd, EndFound, Held;
      ghost var f0, files0, fds0 := flash, files, fds;
      t := 0;
      MergeSource(g, flash, files, fds, s);
      var hdr := HeaderAt(g, flash, filePage);
      var fd := CfsOpen(hdr.name, CFS_READ);
      if fd < 0 {
        CachedIsNamed(g, f0, files0, s, hdr.name);
        QuietOpen(g, f0, files0, fds0, flash, files, fds);
        return -1, 0;
      }
      MergeOpens(g, f0, flash, files0, files, fds0, fds, s, fd);
      ghost var files1, fds1 := files, fds;
      OpenedReading(g, f0, files0, fds0, s, fd, files1, fds1);

      var maxPages := if extend then 2 * hdr.maxPages else hdr.maxPages;
      var slot := Reserve(hdr.name, maxPages, true, false);
      if slot == -1 {
        ghost var files2 := files;
        SameReferenced(files1, files2, s);
        CfsClose(fd);
        TakenAfterClose(files2, s, files);
        QuietClose(g, f0, files0, fds0, s, fd, files1, fds1, flash, files2, files, fds);
        return -1, 0;
      }
      MergeReserved(g, f0, files1, fds1, flash, files, s, slot, filePage, files[slot].page, maxPages, hdr.name);
      CopyReady(g, f0, flash, files, fds1, s, slot, filePage, files[slot].page, maxPages, hdr);
      TransferFile(filePage, slot, fd, hdr, s, f0, files0, fds0, files1);
      return 0, slot;
    }

    // ----- writing -----

    /** find_next_record: the cached count, or a search of the index table in batches. The outer loop
        runs on after a free record was found. */
    method FindNextRecord(recordCount: int, logPage: nat, logRecords: nat) returns (logRecord: nat)
      requires 1 <= g.logTableLimit
      ensures logRecord == if recordCount >= 0 then recordCount
              else SearchedNext(g, flash, logPage, logRecords, g.logTableLimit)
    {
      hide Index;
      if recordCount >= 0 {
        return recordCount;
      }
      var preferred := if logRecords > g.logTableLimit then g.logTableLimit else logRecords;
      logRecord := logRecords;
      var processed := 0;
      while processed < logRecords
        invariant 0 <= processed <= logRecords
        invariant processed < logRecords ==>
                  LastBatch(logRecords, g.logTableLimit) == LastBatch(logRecords - processed, g.logTableLimit)
                            + processed
        invariant processed == logRecords ==> logRecord == SearchedNext(g, flash, logPage, logRecords, g.logTableLimit)
      {
        var batchSize := if logRecords - processed >= preferred then preferred else logRecords - processed;
        logRecord := 0;
        ghost var found := FirstFree(g, flash, logPage, processed, processed + batchSize);
        FirstFreeFacts(g, flash, logPage, processed, processed + batchSize);
        while logRecord < batchSize
          invariant 0 <= logRecord <= batchSize && processed + logRecord <= found
        {
          if Index(g, flash, logPage, processed + logRecord) == 0 {
            logRecord := logRecord + processed;
            break;
          }
          logRecord := logRecord + 1;
        }
        processed := processed + batchSize;
      }
    }

    /** create_log: reserves the log extent and flags the file. Returns the log page, -1 for INVALID_PAGE. */
    method CreateLog(s: nat, hdr: Header) returns (r: int)
      requires Valid() && !strayed && s < |files| && files[s].references > 0 && 0 <= files[s].page
      requires hdr == HeaderAt(g, flash, files[s].page) && !hdr.modified
      requires RegionsFit(Capacity(g, flash, files[s].page), RecordSize(g, hdr))
      modifies this
      ensures Valid() && fds == old(fds) && -1 <= r && (r >= 0 ==> !strayed)
      ensures r < 0 ==> Quiet(g, old(flash), old(files), old(fds), flash, files, fds) && s < |files|
                        && NoLogSpace(old(flash), old(nextFree), hdr) && files == old(files)
      ensures r >= 0 ==> s < |files| && LogCreated(g, old(flash), old(files), old(fds), s, flash, files, r)
                         && LogCached(g, old(files), s, flash, files)
    {
      hide HeaderAt, SlotOk, DiskOk, CacheOk, NamesOk, NamesOkBut, AllKept, Quiet, Reserved, Actives, Capacity,
           FileReady, FileOk, CStr, RefCount, LogCreated, StoredName, NoCachedName, Encode, OnlySets, Times,
           ConfigOk, NoRun, Quot;
      ghost var f0, files0 := flash, files;
      MergeSource(g, flash, files, fds, s);
      var logRecordSize, logRecords := RecordSize(g, hdr), Records(g, hdr);
      var size := Times(logRecords, 2 + logRecordSize);
      DiskLayout(g, flash);
      PageCountPositive(g, size);
      var slot := Reserve(hdr.name, PageCount(g, size), true, true);
      if slot == -1 {
        NothingHappened(files, fds);
        QuietOpen(g, f0, files0, fds, flash, files, fds);
        HeaderKept(g, f0, flash, files[s].page);
        return -1;
      }
      var log := files[slot].page;
      var h := hdr.(modified := true, logPage := log, valid := true);
      LogReserved(g, f0, flash, files0, files, fds, s, log, logRecords, logRecordSize, PageCount(g, size), hdr, h);
      ghost var f1, files1 := flash, files;
      RewriteStops(g, f1, files[s].page, h, nextFree, gcWait, strayed);
      Program(g.At(files[s].page), Encode(h));
      files := files[s := files[s].(modified := true)];
      LogCreatedFacts(g, f0, f1, files0, files1, fds, s, log, h);
      LogIsCached(g, f0, files0, fds, s, flash, files, log, slot);
      return log;
    }

    /** The old bytes of the region in copy_buf: from its newest record, or else from the original file.
        The buffer starts out with whatever the stack holds. */
    method FetchRegion(s: nat, k: nat, hdr: Header, offset: nat, rs: nat, whole: bool)
      returns (copyBuf: array<byte>, ghost stack: seq<byte>)
      requires s < |files| && FileReady(g, flash, files[s]) && hdr == HeaderAt(g, flash, files[s].page) && hdr.modified
      requires hdr.logPage >= 0 && k == FirstFree(g, flash, hdr.logPage, 0, Records(g, hdr))
      requires offset < Capacity(g, flash, files[s].page) && rs == RecordSize(g, hdr)
      ensures fresh(copyBuf) && |stack| == copyBuf.Length == rs >= 1 && files[s].page >= 0 && 0 <= Rem(offset, rs)
      ensures !whole ==> forall j :: 0 <= j < rs ==>
        copyBuf[j] == if RegionLogged(g, flash, files[s].page, offset) && !readsBack then stack[j]
                      else ByteAt(flash, ChunkSource(g, flash, files[s].page, Times(Quot(offset, rs), rs)) + j)
    {
      hide HeaderAt, SlotOk, DiskOk, Actives, Capacity, FileReady, FileOk, Quot, RecordSize, Records, FirstFree,
           RegionLogged, ChunkSource, Times;
      ghost var q := files[s].page;
      ReadyFacts(g, flash, files[s]);
      ReadyDisk(g, flash, files[s]);
      RegionSpace(g, flash, q, offset);
      var region := Quot(offset, rs);
      copyBuf := new byte[rs];
      stack := copyBuf[..];
      if !whole {
        BufferFits(g, flash, q);
        var r, n, record := ReadLogPage(hdr, k, Times(region, rs), rs, q);
        SameRegionLogged(g, flash, q, Times(region, rs), offset);
        if r < 0 {
          forall j | 0 <= j < rs { copyBuf[j] := flash[DataStart(g, files[s].page) + Times(region, rs) + j]; }
        } else if readsBack {
          forall j | 0 <= j < rs { copyBuf[j] := record[j]; }
        }
      }
    }

    /** copy_buf in write_log_page: the record that replaces the region of the chunk. */
    method BuildRecord(s: nat, k: nat, hdr: Header, offset: nat, data: seq<byte>)
      returns (copyBuf: array<byte>, ghost stack: seq<byte>)
      requires s < |files| && FileReady(g, flash, files[s]) && hdr == HeaderAt(g, flash, files[s].page) && hdr.modified
      requires hdr.logPage >= 0 && k == FirstFree(g, flash, hdr.logPage, 0, Records(g, hdr))
      requires offset < Capacity(g, flash, files[s].page)
               && Rem(offset, RecordSize(g, hdr)) + |data| <= RecordSize(g, hdr)
      ensures fresh(copyBuf) && |stack| == RecordSize(g, hdr)
      ensures files[s].page >= 0 && RecordBuffer(g, flash, files[s].page, offset, data, stack, readsBack, copyBuf[..])
    {
      hide HeaderAt, SlotOk, DiskOk, Actives, Capacity, FileReady, FileOk, Quot, RecordSize, Records, FirstFree,
           RegionLogged, ChunkSource, Times, RecordBuffer;
      var rs := RecordSize(g, hdr);
      var lpOffset := Rem(offset, rs);
      copyBuf, stack := FetchRegion(s, k, hdr, offset, rs, lpOffset == 0 && |data| == rs);
      ghost var pre := copyBuf[..];
      forall j | 0 <= j < |data| { copyBuf[lpOffset + j] := data[j]; }
      BufferFilled(g, flash, files[s].page, offset, data, stack, readsBack, pre, copyBuf[..]);
    }

    /** The rest of write_log_page: programs the index entry, then the record. */
    method LogRecord(s: nat, k: nat, hdr: Header, offset: nat, data: seq<byte>) returns (ghost stack: seq<byte>)
      requires Valid() && s < |files| && FileReady(g, flash, files[s]) && hdr == HeaderAt(g, flash, files[s].page)
               && hdr.modified
      requires hdr.logPage >= 0 && k == FirstFree(g, flash, hdr.logPage, 0, Records(g, hdr)) < Records(g, hdr)
      requires 1 <= |data| && offset + |data| <= Capacity(g, flash, files[s].page)
               && Rem(offset, RecordSize(g, hdr)) + |data| <= RecordSize(g, hdr)
      modifies `flash, `files
      ensures Valid() && s < |files| && files == old(files)[s := old(files)[s].(recordCount := k + 1)]
      ensures |stack| == RecordSize(g, hdr) && RecordLogged(g, old(flash), flash, files[s].page, offset, data, stack,
              readsBack)
    {
      hide HeaderAt, SlotOk, DiskOk, CacheOk, NamesOk, Actives, Capacity, FileReady, FileOk, Quot, RecordSize,
           Records, FirstFree, OnlySets, Times, RecordLogged, Encode16, DataStart, RecordStart, Appended, LoggedByte,
           OnWalk, Placed;
      ghost var f0, q := flash, files[s].page;
      ReadyFacts(g, flash, files[s]);
      ReadyDisk(g, flash, files[s]);
      RegionSpace(g, flash, q, offset);
      var region := Quot(offset, RecordSize(g, hdr));
      var copyBuf;
      copyBuf, stack := BuildRecord(s, k, hdr, offset, data);
      AppendWrites(g, f0, q, k, region, copyBuf[..]);
      Program(DataStart(g, hdr.logPage) + 2 * k, Encode16(region + 1));
      Program(RecordStart(g, hdr.logPage, Records(g, hdr), RecordSize(g, hdr), k), copyBuf[..]);
      RecordWritten(g, f0, flash, files, fds, s, k, offset, data, stack, readsBack, copyBuf[..]);
      RecordStops(g, f0, flash, files[s], k, region, copyBuf[..], nextFree, gcWait, strayed);
      files := files[s := files[s].(recordCount := k + 1)];
    }

    /** write_log_page. r < 0: no log could be made, or no merge; r == 0: the log was full, the file was
        merged into slot t; r > 0: that many bytes were logged. */
    method WriteLogPage(s: nat, offset: nat, data: seq<byte>) returns (r: int, ghost t: int, ghost stack: seq<byte>)
      requires Valid() && !strayed && s < |files| && files[s].references > 0 && 0 <= files[s].page
      requires 1 <= |data| < 0x1_0000 && offset + |data| <= Capacity(g, flash, files[s].page)
      requires RegionsFit(Capacity(g, flash, files[s].page), RecordSize(g, HeaderAt(g, flash, files[s].page)))
      modifies this
      ensures Valid() && r <= |data| && (r >= 0 ==> !strayed)
      ensures r < 0 ==> Quiet(g, old(flash), old(files), old(fds), flash, files, fds) && s < |files|
                        && files == old(files)
      ensures r < 0 ==>
                if old(files)[s].modified then
                  Used(g, old(flash), old(files)[s].page)
                    == Records(g, HeaderAt(g, old(flash), old(files)[s].page)) && NoMerge(old(files)[s].maxPages)
                else NoLogSpace(old(flash), old(nextFree), HeaderAt(g, old(flash), old(files)[s].page))
      ensures r == 0 ==> MergedInto(g, old(flash), old(files), old(fds), s, flash, files, fds, t)
      ensures r == 0 ==> 0 <= t < |files| && files[t].maxPages == old(files)[s].maxPages && old(files)[s].modified
                         && Used(g, old(flash), old(files)[s].page)
                            == Records(g, HeaderAt(g, old(flash), old(files)[s].page))
      ensures r > 0 ==> var rs := RecordSize(g, HeaderAt(g, old(flash), old(files)[s].page));
              r == Min(|data|, rs - Rem(offset, rs))
      ensures r > 0 && old(files)[s].modified ==>
                nextFree == old(nextFree) && gcWait == old(gcWait) && files == old(files)[s := files[s]]
      ensures Spares(g, old(flash), old(files), s, flash, files, if r == 0 then t else s)
      ensures r > 0 ==> fds == old(fds) && ChunkLogged(g, old(flash), old(files), fds, s, flash, files, offset,
              data[..r], stack, readsBack)
    {
      hide HeaderAt, SlotOk, DiskOk, CacheOk, NamesOk, Actives, Capacity, FileReady, FileOk, RefCount, Quot,
           RecordSize, Records, FirstFree, RegionLogged, ViewByte, LoggedByte, Times, RecordLogged, Quiet, NoMerge,
           MergedInto, ChunkLogged, LogCreated, SearchedNext, ConfigOk, NoLogSpace, RegionsFit, Spares, Relocated,
           LogCached;
      t, stack := 0, [];
      ghost var f0, files0 := flash, files;
      MergeSource(g, flash, files, fds, s);
      ReadyFacts(g, flash, files[s]);
      var hdr := HeaderAt(g, flash, files[s].page);
      RecordSizePositive(g, flash, files[s].page);
      RemBounds(offset, RecordSize(g, hdr));
      var logRecordSize, logRecords := RecordSize(g, hdr), Records(g, hdr);
      var lpOffset := Rem(offset, logRecordSize);
      var lpSize := if |data| > logRecordSize - lpOffset then logRecordSize - lpOffset else |data|;

      var logRecord: nat;
      if hdr.modified {
        NextRecord(g, flash, files, fds, s);
        logRecord := FindNextRecord(files[s].recordCount, hdr.logPage, logRecords);
        if logRecord >= logRecords {
          r, t := MergeLog(files[s].page, false, s);
          if r == 0 {
            SparesMerged(g, f0, files0, old(fds), s, flash, files, fds, t);
          } else {
            UsedQuiet(g, f0, files0, old(fds), s, flash, files, fds);
            SparesOwn(g, f0, files0, s, flash, files);
          }
          return;
        }
      } else {
        var logPage := CreateLog(s, hdr);
        if logPage < 0 {
          UsedQuiet(g, f0, files0, fds, s, flash, files, fds);
          SparesOwn(g, f0, files0, s, flash, files);
          return -1, 0, [];
        }
        CreatedSlot(g, f0, files0, fds, s, flash, files, logPage, hdr);
        hdr := hdr.(modified := true, logPage := logPage);
        logRecord := 0;
      }

      ghost var f1, files1 := flash, files;
      MergeSource(g, flash, files, fds, s);
      stack := LogRecord(s, logRecord, hdr, offset, data[..lpSize]);
      RecordIsChunk(g, f1, files1, fds, s, flash, files, logRecord, offset, data[..lpSize], stack, readsBack);
      RecordHeader(g, f1, flash, files[s].page, offset, data[..lpSize], stack, readsBack);
      if HeaderAt(g, f0, files0[s].page).modified {
        SparesOwn(g, f0, files0, s, flash, files);
      } else {
        LogStaysCached(g, files0, s, f1, files1, flash, files);
        SparesCreated(g, f0, files0, s, flash, files);
        CreatedThenLogged(g, f0, files0, fds, s, f1, files1, hdr.logPage, flash, files, offset, data[..lpSize],
                          stack, readsBack);
      }
      return lpSize, 0, stack;
    }

    /** The growth loop of cfs_write: merges the file into extents of doubled size until the data fits. */
    method GrowFile(fd: nat, data: seq<byte>, ghost f0: Flash, ghost files0: seq<FileObject>,
                    ghost fds0: seq<FileDesc>, ghost torn: imap<nat, byte>)
      returns (ok: bool, ghost t: int)
      requires Valid() && !strayed && CacheOk(g, f0, files0, fds0) && fd < |fds|
      requires Wrote(g, f0, files0, fds0, fd, data, torn, flash, files, fds, fds[fd].file, 0)
      requires fd < |fds0| && Spares(g, f0, files0, fds0[fd].file, flash, files, fds[fd].file)
      modifies this
      ensures Valid() && Wrote(g, f0, files0, fds0, fd, data, torn, flash, files, fds, t, 0) && (ok ==> !strayed)
      ensures 0 <= t < |files| && fd < |fds| && fds[fd].file == t
      ensures Spares(g, f0, files0, fds0[fd].file, flash, files, t)
      ensures var o, need := old(files)[old(fds)[fd].file], |data| + fds[fd].offset + HEADER_SIZE;
        && (need <= g.At(o.maxPages) ==> ok)
        && if ok then
          && need <= g.At(files[t].maxPages) && files[t].maxPages == Grown(g, o.maxPages, need)
          && (if need <= g.At(o.maxPages) then flash == old(flash) && files == old(files) && fds == old(fds)
             && t == old(fds)[fd].file && nextFree == old(nextFree) && gcWait == old(gcWait)
              else !files[t].modified && 0 <= files[t].page && !HeaderAt(g, flash, files[t].page).modified)
        else |data| > 0 && need > g.At(files[t].maxPages) && NoMerge(2 * files[t].maxPages)
    {
      hide HeaderAt, DiskOk, CacheOk, NamesOk, Wrote, Quiet, MergedInto, NoMerge, Times, FileReady, FileOk, ConfigOk,
           Capacity, Actives, OnWalk, Placed, Spares, Relocated, Used;
      t := fds[fd].file;
      var file := fds[fd].file;
      WroteRefs(g, f0, files0, fds0, fd, data, torn, flash, files, fds, t, 0);
      ghost var o, need := files[file], |data| + fds[fd].offset + HEADER_SIZE;
      while |data| + fds[fd].offset + HEADER_SIZE > g.At(files[file].maxPages)
        invariant Valid() && !strayed && Wrote(g, f0, files0, fds0, fd, data, torn, flash, files, fds, t, 0)
        invariant 0 <= t < |files| && fd < |fds| && file == fds[fd].file == t
                  && need == |data| + fds[fd].offset + HEADER_SIZE
        invariant Spares(g, f0, files0, fds0[fd].file, flash, files, t)
        invariant Grown(g, files[file].maxPages, need) == Grown(g, o.maxPages, need)
        invariant need <= g.At(o.maxPages) ==>
                    && flash == old(flash) && files == old(files) && fds == old(fds) && t == old(fds)[fd].file
                    && nextFree == old(nextFree) && gcWait == old(gcWait)
        invariant need > g.At(o.maxPages) ==>
                    || (files == old(files) && t == old(fds)[fd].file)
                    || (!files[t].modified && 0 <= files[t].page && !HeaderAt(g, flash, files[t].page).modified)
        decreases g.Pages() - files[file].maxPages
      {
        WroteRefs(g, f0, files0, fds0, fd, data, torn, flash, files, fds, t, 0);
        MergeSource(g, flash, files, fds, t);
        ExtentFits(g, flash, files[t].page);
        CapacityIs(g, flash, files[t].page);
        DiskLayout(g, flash);
        GrownStep(g, files[t].maxPages, need);
        ghost var f, files1, fds1 := flash, files, fds;
        ghost var u;
        var r;
        r, u := MergeLog(files[file].page, true, file);
        if r < 0 {
          WroteQuiet(g, f0, files0, fds0, fd, data, torn, f, files1, fds1, t, 0, flash, files, fds);
          QuietMoves(g, f, files1, fds1, t, flash, files, fds);
          UsedQuiet(g, f, files1, fds1, t, flash, files, fds);
          SparesOwn(g, f, files1, t, flash, files);
          SparesOn(g, f0, files0, fds0, fd, data, torn, f, files1, fds1, t, 0, flash, files, t);
          WroteRefs(g, f0, files0, fds0, fd, data, torn, flash, files, fds, t, 0);
          return false, t;
        }
        WroteMerged(g, f0, files0, fds0, fd, data, torn, f, files1, fds1, t, 0, flash, files, fds, u);
        MergedUnlogged(g, f, files1, fds1, t, flash, files, fds, u);
        SparesMerged(g, f, files1, fds1, t, flash, files, fds, u);
        SparesOn(g, f0, files0, fds0, fd, data, torn, f, files1, fds1, t, 0, flash, files, u);
        t := u;
        WroteRefs(g, f0, files0, fds0, fd, data, torn, flash, files, fds, t, 0);
        file := fds[fd].file;
        MergeSource(g, flash, files, fds, t);
        ExtentFits(g, flash, files[t].page);
      }
      return true, t;
    }

    /** One round of the log loop of cfs_write: a record of the next bytes, or a merge if the log is full; i is what
        write_log_page returned. */
    method LogRound(fd: nat, data: seq<byte>, bytesLeft: nat, ghost t: int, ghost free: nat, ghost first: seq<byte>,
                    ghost last: seq<byte>, ghost f0: Flash, ghost files0: seq<FileObject>, ghost fds0: seq<FileDesc>)
      returns (i: int, ghost u: int, ghost first': seq<byte>, ghost last': seq<byte>)
      requires fd < |fds0| && 0 <= fds0[fd].offset && 0 <= fds0[fd].file < |files0| && 0 <= files0[fds0[fd].file].page
      requires Valid() && !strayed && 0 < Low16(bytesLeft) <= bytesLeft <= |data|
               && |data| - bytesLeft + Low16(bytesLeft) == Low16(|data|)
      requires Logging(g, readsBack, f0, files0, fds0, fd, data, Low16(|data|), free, first, last, flash, files, fds, t,
                       |data| - bytesLeft)
      requires Spares(g, f0, files0, fds0[fd].file, flash, files, t)
      modifies this
      ensures Valid() && i <= Low16(bytesLeft) && (i >= 0 ==> !strayed) && |first'| == |first|
      ensures 0 <= t < |old(files)| && 0 <= old(files)[t].page && 0 <= u < |files| && 0 <= files[u].page
              && files[u].maxPages == old(files)[t].maxPages && Spares(g, f0, files0, fds0[fd].file, flash, files, u)
      ensures i < 0 ==>
                && u == t && first' == first && last' == last
                && Wrote(g, f0, files0, fds0, fd, data, Torn(g, readsBack, f0, files0[fds0[fd].file].page,
                         fds0[fd].offset, |data| - bytesLeft, free, first, last), flash, files, fds, t,
                         |data| - bytesLeft)
                && Starved(files[t], |data| + fds0[fd].offset + HEADER_SIZE)
                && (!old(files)[t].modified ==>
                      NoLogSpace(old(flash), old(nextFree), HeaderAt(g, old(flash), old(files)[t].page)))
      ensures i >= 0 ==> Logging(g, readsBack, f0, files0, fds0, fd, data, Low16(|data|), free, first', last', flash,
                                 files, fds, u, |data| - bytesLeft + i)
      ensures i == 0 ==> old(files)[t].modified && !files[u].modified
      ensures i > 0 ==>
                && u == t && files[t].modified && files[t].page == old(files)[t].page
                && RegionLogged(g, flash, files[t].page, fds0[fd].offset + |data| - bytesLeft + i - 1)
                && (old(files)[t].modified ==>
                      nextFree == old(nextFree) && gcWait == old(gcWait) && files == old(files)[t := files[t]])
      ensures Chunks(fds0[fd].offset, Low16(|data|), |first|) <= free ==> i > 0 && old(files)[t].modified
    {
      hide HeaderAt, DiskOk, CacheOk, NamesOk, Logging, Quiet, MergedInto, Starved, FileOk, ConfigOk, Capacity,
           Actives, RecordSize, ChunkLogged, OnWalk, Placed, Low16, Inv, Times, Wrote, Torn, Used, Records, Chunks,
           RegionLogged, NoLogSpace, RegionsFit, MayStray, RegionsAfter, RecordCounted, Geometry.Ok, LogPages, NoRun,
           SlotsTaken, Path, Newest, HeaderStored, Moved, WroteFile, FileFollows, Spares;
      ghost var n, total := |data| - bytesLeft, Low16(|data|);
      LoggingFacts(g, readsBack, f0, files0, fds0, fd, data, total, free, first, last, flash, files, fds, t, n);
      Wrap16(|data|, bytesLeft);
      if Chunks(fds0[fd].offset, total, |first|) <= free {
        LoggingRoom(g, readsBack, f0, files0, fds0, fd, data, total, free, first, last, flash, files, fds, t, n);
      }
      ghost var f, files1, fds1, n0 := flash, files, fds, nextFree;
      first', last' := first, last;
      var file := fds[fd].file;
      ghost var stack;
      i, u, stack := WriteLogPage(file, fds[fd].offset, data[|data| - bytesLeft..][..Low16(bytesLeft)]);
      if i != 0 { u := t; }
      SparesLogging(g, readsBack, f0, files0, fds0, fd, data, total, free, first, last, f, files1, fds1, t, n, flash,
                    files, u);
      if i < 0 {
        LoggingQuiet(g, readsBack, f0, files0, fds0, fd, data, total, free, first, last, f, files1, fds1, t, n, flash,
                     files, fds);
        UsedQuiet(g, f, files1, fds1, t, flash, files, fds);
        LogStarves(files[t], |data| + fds0[fd].offset + HEADER_SIZE, f, n0);
      } else if i == 0 {
        LoggingMerged(g, readsBack, f0, files0, fds0, fd, data, total, free, first, last, f, files1, fds1, t, n, flash,
                      files, fds, u);
        LoggingFacts(g, readsBack, f0, files0, fds0, fd, data, total, free, first, last, flash, files, fds, u, n);
      } else {
        ghost var files2 := files;
        assert data[n..][..Low16(bytesLeft)][..i] == data[n..n + i];
        ChunkFacts(g, f, files1, fds1, t, flash, files2, fds1[fd].offset, data[n..n + i], stack, readsBack);
        fds := fds[fd := fds[fd].(offset := fds[fd].offset + i)];
        if fds[fd].offset > files[file].end {
          files := files[file := files[file].(end := fds[fd].offset)];
        }
        assert files == files2[t := files2[t].(end := Max(files2[t].end, fds1[fd].offset + i))];
        LoggingChunk(g, readsBack, f0, files0, fds0, fd, data, total, free, first, last, f, files1, fds1, t, n, flash,
                     files2, files, fds, i, stack);
        SparesSame(g, f0, files0, fds0[fd].file, flash, files2, t, files);
        first', last' := if n == 0 then stack else first, stack;
      }
    }

    /** The log loop of cfs_write: one record a round, with a merge in between whenever the log is full. lp.size
        holds 16 bits: with a multiple of 65536 bytes left a round has nothing to log, and so has every later
        one. stuck tells that; the code goes on logging empty records, which is not modelled. */
    method WriteThroughLog(fd: nat, data: seq<byte>, ghost t0: int, ghost free: nat, ghost stack0: seq<byte>,
                           ghost f0: Flash, ghost files0: seq<FileObject>, ghost fds0: seq<FileDesc>)
      returns (bytesLeft: nat, stuck: bool, ghost t: int, ghost first: seq<byte>, ghost last: seq<byte>)
      requires fd < |fds0| && 0 <= fds0[fd].offset && 0 <= fds0[fd].file < |files0| && 0 <= files0[fds0[fd].file].page
      requires Valid() && !strayed && Logging(g, readsBack, f0, files0, fds0, fd, data, Low16(|data|), free, stack0,
               stack0, flash, files, fds, t0, 0)
      requires Spares(g, f0, files0, fds0[fd].file, flash, files, t0)
      modifies this
      ensures Valid() && bytesLeft <= |data| <= bytesLeft + Low16(|data|)
      ensures |first| == |last| == RecordSize(g, HeaderAt(g, f0, files0[fds0[fd].file].page))
      ensures Wrote(g, f0, files0, fds0, fd, data, Torn(g, readsBack, f0, files0[fds0[fd].file].page,
              fds0[fd].offset, |data| - bytesLeft, free, first, last),
                    flash, files, fds, t, |data| - bytesLeft)
      ensures bytesLeft > 0 ==>
                stuck || (0 <= t < |files| && Starved(files[t], |data| + fds0[fd].offset + HEADER_SIZE))
      ensures stuck ==> !strayed && |data| - bytesLeft == Low16(|data|) && |data| >= 0x1_0000
      ensures bytesLeft == 0 ==> !strayed && |data| < 0x1_0000 && 0 <= t < |files| && 0 <= files[t].page
      ensures bytesLeft == 0 < |data| ==>
                files[t].modified && RegionLogged(g, flash, files[t].page, fds0[fd].offset + |data| - 1)
      ensures bytesLeft == 0 && !HeaderAt(g, f0, files0[fds0[fd].file].page).modified ==>
                Used(g, flash, files[t].page)
                  <= Chunks(fds0[fd].offset, |data|, RecordSize(g, HeaderAt(g, f0, files0[fds0[fd].file].page)))
      ensures 0 <= t0 < |old(files)| && 0 <= old(files)[t0].page
      ensures |data| < 0x1_0000 && Chunks(fds0[fd].offset, |data|, |stack0|) <= free ==>
                bytesLeft == 0 && t == t0 < |files| && files[t].page == old(files)[t0].page
                && nextFree == old(nextFree) && gcWait == old(gcWait) && files == old(files)[t0 := files[t0]]
      ensures Spares(g, f0, files0, fds0[fd].file, flash, files, t)
      ensures 0 <= t < |files| && files[t].maxPages == old(files)[t0].maxPages
      ensures bytesLeft == |data| > 0 && !stuck && !old(files)[t0].modified ==>
                NoLogSpace(old(flash), old(nextFree), HeaderAt(g, old(flash), old(files)[t0].page))
    {
      hide HeaderAt, DiskOk, CacheOk, NamesOk, Logging, Quiet, MergedInto, Starved, FileOk, ConfigOk, Capacity,
           Actives, RecordSize, ChunkLogged, Rem, OnWalk, Placed, Low16, Inv, Times, Wrote, Torn, Used, Records,
           Chunks, RegionLogged, NoLogSpace, RegionsFit, MayStray, RegionsAfter, RecordCounted, Geometry.Ok,
           LogPages, NoRun, SlotsTaken, Path, Newest, HeaderStored, Moved, WroteFile, FileFollows, Spares;
      t, first, last := t0, stack0, stack0;
      stuck := false;
      bytesLeft := |data|;
      ghost var total := Low16(|data|);
      ghost var ample := |data| < 0x1_0000 && Chunks(fds0[fd].offset, |data|, |stack0|) <= free;
      Wrap16(|data|, |data|);
      LoggingFacts(g, readsBack, f0, files0, fds0, fd, data, total, free, first, last, flash, files, fds, t, 0);
      while bytesLeft > 0
        invariant Valid() && !strayed && !stuck && |data| - total <= bytesLeft <= |data|
        invariant Logging(g, readsBack, f0, files0, fds0, fd, data, total, free, first, last, flash, files, fds, t,
                  |data| - bytesLeft)
        invariant 0 <= t < |files| && 0 <= files[t].page && |first| == |stack0|
        invariant bytesLeft == 0 < |data| ==>
                    files[t].modified && RegionLogged(g, flash, files[t].page, fds0[fd].offset + |data| - 1)
        invariant ample ==> t == t0 && files[t].page == old(files)[t0].page && nextFree == old(nextFree)
                            && gcWait == old(gcWait) && files == old(files)[t0 := files[t0]]
        invariant Spares(g, f0, files0, fds0[fd].file, flash, files, t)
                  && files[t].maxPages == old(files)[t0].maxPages
        invariant bytesLeft == |data| && !old(files)[t0].modified ==>
                    flash == old(flash) && files == old(files) && t == t0 && nextFree == old(nextFree)
        decreases bytesLeft, files[t].modified
      {
        ghost var n := |data| - bytesLeft;
        Wrap16(|data|, bytesLeft);
        LoggingFacts(g, readsBack, f0, files0, fds0, fd, data, total, free, first, last, flash, files, fds, t, n);
        if Low16(bytesLeft) == 0 {
          stuck := true;
          break;
        }
        ghost var u;
        var i;
        i, u, first, last := LogRound(fd, data, bytesLeft, t, free, first, last, f0, files0, fds0);
        t := u;
        if i < 0 {
          break;
        }
        bytesLeft := bytesLeft - i;
      }
      if bytesLeft == 0 {
        LoggingFacts(g, readsBack, f0, files0, fds0, fd, data, total, free, first, last, flash, files, fds, t, |data|);
      }
    }

    /** The unlogged branch of cfs_write: the bytes go straight behind the end of the file, onto erased bytes. */
    method AppendInPlace(fd: nat, data: seq<byte>, ghost t: nat, ghost f0: Flash, ghost files0: seq<FileObject>,
                         ghost fds0: seq<FileDesc>)
      requires Valid() && !strayed && CacheOk(g, f0, files0, fds0) && fd < |fds| && t < |files| && fd < |fds0|
               && 0 <= fds0[fd].file < |files0|
      requires 0 <= files0[fds0[fd].file].page && 0 <= fds0[fd].offset
      requires Wrote(g, f0, files0, fds0, fd, data, imap[], flash, files, fds, t, 0)
      requires !files[t].modified && fds[fd].offset >= files[t].end
               && fds[fd].offset + |data| + HEADER_SIZE <= g.At(files[t].maxPages)
      modifies `flash, `files, `fds
      ensures Valid() && t < |files| && !files[t].modified && files[t].page == old(files)[t].page >= 0
              && old(fds)[fd].offset >= 0 && files == old(files)[t := files[t]]
              && files[t].maxPages == old(files)[t].maxPages
      ensures Spares(g, old(flash), old(files), t, flash, files, t)
      ensures Wrote(g, f0, files0, fds0, fd, data, imap[], flash, files, fds, t, |data|)
      ensures DataStart(g, files[t].page) + old(fds)[fd].offset + |data| <= |old(flash)|
      ensures flash == Written(old(flash), DataStart(g, files[t].page) + old(fds)[fd].offset, data)
    {
      hide HeaderAt, DiskOk, CacheOk, NamesOk, Wrote, Times, Actives, OnlySets, DataStart, OnWalk, Placed, Inv, Spares;
      WroteRefs(g, f0, files0, fds0, fd, data, imap[], flash, files, fds, t, 0);
      WroteAppended(g, f0, files0, fds0, fd, data, imap[], flash, files, fds, t);
      AppendStops(g, flash, files, fds, t, data, nextFree, gcWait, strayed);
      ghost var files1, f1 := files, flash;
      Unlogged(g, flash, files, fds, t);
      var file := fds[fd].file;
      Program(DataStart(g, files[file].page) + fds[fd].offset, data);
      fds := fds[fd := fds[fd].(offset := fds[fd].offset + |data|)];
      if fds[fd].offset > files[file].end {
        files := files[file := files[file].(end := fds[fd].offset)];
      }
      assert files == files1[t := files1[t].(end := Max(files1[t].end, fds[fd].offset))];
      WroteRefs(g, f0, files0, fds0, fd, data, imap[], flash, files, fds, t, |data|);
      Unlogged(g, flash, files, fds, t);
      SparesOwn(g, f1, files1, t, flash, files);
    }

    /** cfs_write. n bytes were written and the file now lives in slot t; the result is the requested size
        even when the log gave out half way. A write that goes through the log and is 65536 bytes or longer
        never completes: it gets as far as its length modulo 65536. first and last are what the stack held
        where the first and the last record were built. */
    method CfsWrite(fd: int, data: seq<byte>)
      returns (r: int, fate: Fate, ghost n: nat, ghost t: int, ghost first: seq<byte>, ghost last: seq<byte>)
      requires Valid() && !strayed
      modifies this
      ensures Valid() && n <= |data|
      ensures !CanUse(old(fds), fd, CFS_WRITE) ==> r == -1 && fate == Ended && !strayed && flash == old(flash)
                                                   && files == old(files) && fds == old(fds)
      ensures CanUse(old(fds), fd, CFS_WRITE) ==>
                && 0 <= old(fds)[fd].file < |old(files)| && 0 <= old(files)[old(fds)[fd].file].page
                && 0 <= old(fds)[fd].offset && 0 <= t < |files| && 0 <= files[t].page
      ensures CanUse(old(fds), fd, CFS_WRITE) ==>
                var o, off := old(files)[old(fds)[fd].file], old(fds)[fd].offset;
                var need := |data| + off + HEADER_SIZE;
                && |first| == |last| == RecordSize(g, HeaderAt(g, old(flash), o.page))
                && Wrote(g, old(flash), old(files), old(fds), fd, data,
                         Torn(g, readsBack, old(flash), o.page, off, n, OpenRecords(g, old(flash), o, need), first,
                              last),
                         flash, files, fds, t, n)
      ensures CanUse(old(fds), fd, CFS_WRITE) ==>
                var o, off := old(files)[old(fds)[fd].file], old(fds)[fd].offset;
                var need := |data| + off + HEADER_SIZE;
                && (fate == Ended ==> r == (if n == 0 && |data| > 0 then -1 else |data|))
                && (n < |data| ==> fate != Ended || Starved(files[t], |data| + off + HEADER_SIZE))
                && (!LoggedPath(g, o, off, |data|) && |data| + off + HEADER_SIZE <= g.At(o.maxPages) ==>
                      && n == |data| && t == old(fds)[fd].file && files[t].page == o.page
                      && DataStart(g, o.page) + off + |data| <= |old(flash)|
                      && flash == Written(old(flash), DataStart(g, o.page) + off, data)
                      && files == old(files)[t := files[t]] && nextFree == old(nextFree) && gcWait == old(gcWait))
                && (fate == Stuck ==> !strayed && |data| >= 0x1_0000 && LoggedPath(g, o, off, |data|)
                                      && n == Low16(|data|))
                && (n >= 0x1_0000 || (n == |data| && !LoggedPath(g, o, off, |data|)) ==> !files[t].modified)
                && (n == |data| ==> !strayed && (|data| < 0x1_0000 || !LoggedPath(g, o, off, |data|))
                                    && files[t].maxPages == Grown(g, o.maxPages, need))
      ensures CanUse(old(fds), fd, CFS_WRITE) ==>
                var o, off := old(files)[old(fds)[fd].file], old(fds)[fd].offset;
                && (fate == Wide ==> |data| > 0 && !strayed && Oversized(g, old(flash), o, off, |data|))
                && (|data| > 0 && Oversized(g, old(flash), o, off, |data|) ==>
                      n == 0 && (fate == Wide
                                 || (&& |data| + off + HEADER_SIZE > g.At(o.maxPages)
                                     && |data| + off + HEADER_SIZE > g.At(files[t].maxPages)
                                     && NoMerge(2 * files[t].maxPages))))
      ensures CanUse(old(fds), fd, CFS_WRITE) ==>
                var o, off := old(files)[old(fds)[fd].file], old(fds)[fd].offset;
                && (n == |data| > 0 && LoggedPath(g, o, off, |data|) ==>
                      && files[t].modified && RegionLogged(g, flash, files[t].page, off + n - 1)
                      && (!o.modified ==> Used(g, flash, files[t].page)
                                          <= Chunks(off, n, RecordSize(g, HeaderAt(g, old(flash), o.page)))))
                && (o.modified && |data| + off + HEADER_SIZE <= g.At(o.maxPages) && |data| < 0x1_0000
                    && Chunks(off, |data|, RecordSize(g, HeaderAt(g, old(flash), o.page)))
                       <= OpenRecords(g, old(flash), o, |data| + off + HEADER_SIZE) ==>
                      && fate == Ended && n == |data| && t == old(fds)[fd].file && files[t].page == o.page
                      && files == old(files)[t := files[t]] && nextFree == old(nextFree) && gcWait == old(gcWait))
                && (n == 0 < |data| && fate == Ended && off < o.end && !o.modified
                    && |data| + off + HEADER_SIZE <= g.At(o.maxPages) ==>
                      NoLogSpace(old(flash), old(nextFree), HeaderAt(g, old(flash), o.page)))
      ensures CanUse(old(fds), fd, CFS_WRITE) ==>
                Spares(g, old(flash), old(files), old(fds)[fd].file, flash, files, t)
    {
      hide HeaderAt, DiskOk, CacheOk, NamesOk, Wrote, Starved, Times, FileReady, FileOk, ConfigOk, Capacity, Actives,
           Bit, OnlySets, DataStart, Torn, LogState, OnWalk, Placed, Low16, RecordSize, OpenRecords, Oversized, Used,
           Chunks, RegionLogged, RegionsFit, NoLogSpace, Spares;
      n, t, fate := 0, 0, Ended;
      first, last := [], [];
      Wrap16(|data|, |data|);
      if !CanUse(fds, fd, CFS_WRITE) {
        return -1, Ended, 0, 0, [], [];
      }
      ghost var f0, files0, fds0 := flash, files, fds;
      FdIsReady(g, flash, files, fds, fd);
      WriteFacts(g, flash, files, fds, fd);
      ghost var s := fds0[fd].file;
      ghost var o, off := files0[s], fds0[fd].offset;
      ghost var need := |data| + off + HEADER_SIZE;
      ghost var free := OpenRecords(g, f0, o, need);
      ghost var rs := RecordSize(g, HeaderAt(g, f0, o.page));
      ghost var stack0 := Stuffed(0, rs);
      first, last := stack0, stack0;
      NothingTorn(g, readsBack, f0, o.page, off, free, stack0, stack0);
      WriteBegins(g, flash, files, fds, fd, data, imap[]);
      WroteEnd(g, f0, files0, fds0, fd, data, imap[], flash, files, fds, fds[fd].file);
      SparesRefl(g, flash, files, s);
      var ok;
      ok, t := GrowFile(fd, data, f0, files0, fds0, imap[]);
      WroteRefs(g, f0, files0, fds0, fd, data, imap[], flash, files, fds, t, 0);
      WroteEnd(g, f0, files0, fds0, fd, data, imap[], flash, files, fds, t);
      if !ok {
        GrowthStarves(files[t], need);
        return -1, Ended, 0, t, stack0, stack0;
      }
      WriteGrown(g, f0, files0, fds0, fd, data, flash, files, fds, t, off);
      var file := fds[fd].file;
      if files[file].modified || fds[fd].offset < files[file].end {
        FitsOrWide(g, f0, o, off, |data|, flash, files, fds, t);
        if |data| > 0 && !RegionsFit(g.At(files[file].maxPages) - HEADER_SIZE,
                                     RecordSize(g, HeaderAt(g, flash, files[file].page))) {
          return 0, Wide, 0, t, stack0, stack0;
        }
        var bytesLeft, stuck;
        bytesLeft, stuck, t, first, last := WriteThroughLog(fd, data, t, free, stack0, f0, files0, fds0);
        n := |data| - bytesLeft;
        WroteRefs(g, f0, files0, fds0, fd, data, Torn(g, readsBack, f0, o.page, off, n, free, first, last), flash,
                  files, fds, t, n);
        return if bytesLeft == |data| && bytesLeft > 0 then -1 else |data|, if stuck then Stuck else Ended, n, t,
               first, last;
      }
      AtTheEnd(g, f0, o, off, |data|);
      ghost var files1, f1, fds1 := files, flash, fds;
      AppendInPlace(fd, data, t, f0, files0, fds0);
      SparesOn(g, f0, files0, fds0, fd, data, imap[], f1, files1, fds1, t, 0, flash, files, t);
      return |data|, Ended, |data|, t, stack0, stack0;
    }

    // ----- administration -----

    /** A new file of this name lies on the device, where it fits first, and in this slot. */
    ghost predicate SetAsideIn(f0: Flash, files0: seq<FileObject>, n0: nat, slot: nat, pages: nat, name: seq<byte>)
      requires NAME_LENGTH - 1 <= |name|
      reads this
    {
      && slot < |files| == |files0| && files[slot].page >= 0 && Chosen(files0, slot)
      && var h := NewHeader(pages, false, StoredName(name));
      && files == files0[slot := FreshObject(files[slot].page, h)] && Reserved(g, f0, flash, files[slot].page, h)
      && Fitted(g, f0, n0, flash, nextFree, pages, files[slot].page, h)
    }

    /** cfs_coffee_reserve. */
    method CfsCoffeeReserve(name: seq<byte>, size: nat) returns (r: int)
      requires Valid() && !strayed && NameFits(name)
      modifies this
      ensures Valid() && (r == 0 || r == -1) && fds == old(fds)
      ensures AllKept(g, old(flash), flash) && RefsKept(old(files), files)
      ensures r == -1 ==> files == old(files) || exists s :: Taken(old(files), files, s)
      ensures gcWait != old(gcWait) ==> r == -1 && NoSpace(PageCount(g, size))
      ensures r == -1 ==> SlotsTaken(files) || NameTaken(g, old(flash), name)
                          || (NoRun(g, old(flash), PageCount(g, size), old(nextFree), g.Pages())
                             && NoSpace(PageCount(g, size)))
      ensures strayed ==> r == -1 && !old(gcWait) && Strays(g, old(flash), old(nextFree), PageCount(g, size))
      ensures !old(gcWait) && Strays(g, old(flash), old(nextFree), PageCount(g, size)) ==>
                strayed || NameTaken(g, old(flash), name)
      ensures r == 0 ==> exists slot: nat :: SetAsideIn(old(flash), old(files), old(nextFree), slot,
              PageCount(g, size), name)
    {
      hide HeaderAt, CStr, SlotOk, DiskOk, CacheOk, NamesOk, NamesOkBut, AllKept, Reserved, NoCachedName, StoredName,
           Quot, NoRun, Strays, NameTaken, Fitted, NewHeader, OnWalk, Placed;
      DiskLayout(g, flash);
      PageCountPositive(g, size);
      ghost var f0, files0 := flash, files;
      ghost var n0 := nextFree;
      var slot := Reserve(name, PageCount(g, size), false, false);
      if slot >= 0 {
        StoredNameIsNew(g, f0, files0, slot, name);
        assert SetAsideIn(f0, files0, n0, slot, PageCount(g, size), name);
      }
      return if slot == -1 then -1 else 0;
    }

    /** cfs_coffee_configure_log. It accepts any record size up to a page; the file system stays sound exactly
        for tables of one batch and regions that fit 16 bits. */
    method CfsCoffeeConfigureLog(name: seq<byte>, logSize: nat, logRecordSize: nat) returns (r: int)
      requires Valid()
      modifies `flash, `files
      ensures r == 0 || r == -1
      ensures RefsKept(old(files), files) && (files == old(files) || exists s :: Taken(old(files), files, s))
      ensures r < 0 ==> Valid() && flash == old(flash)
      ensures r < 0 ==>
                || logRecordSize == 0 || logRecordSize > g.pageSize || logSize < logRecordSize
                || NoSuchFile(g, old(flash), 0, g.Pages(), name)
                || (forall i :: 0 <= i < |files| ==> files[i].references > 0)
                || (exists p :: && p in Files(g, old(flash)) && Matches(HeaderAt(g, old(flash), p), name)
                                && HeaderAt(g, old(flash), p).modified)
      ensures r == 0 ==> 1 <= logRecordSize <= logSize && logRecordSize <= g.pageSize
      ensures r == 0 && Unset(g, old(flash), name) ==> OnlySets(old(flash), flash)
      ensures r == 0 ==> var n := Low16(Quot(logSize, logRecordSize));
        && (exists page: nat :: SettingsStored(g, old(flash), flash, page, name, n, logRecordSize))
        && (SettingsOk(g, n, logRecordSize) ==> exists page: nat ::
           Configured(g, old(flash), flash, page, name, n, logRecordSize))
        && (Valid() <==> SettingsOk(g, n, logRecordSize))
    {
      hide HeaderAt, CStr, SlotOk, DiskOk, CacheOk, NamesOk, NoCachedName, NoSuchFile, Quot, Times, ConfigOk,
           Configured, Encode, OnlySets, Files, OnWalk, Placed, SettingsStored, SettingsOk, Unset, Chosen;
      NothingHappened(files, fds);
      if logRecordSize == 0 || logRecordSize > g.pageSize || logSize < logRecordSize {
        return -1;
      }
      var slot := FindFile(name);
      if slot == -1 {
        return -1;
      }
      assert files != old(files) ==> Taken(old(files), files, slot);
      var hdr := HeaderAt(g, flash, files[slot].page);
      if hdr.modified {
        FoundPage(g, flash, files, fds, slot);
        assert Matches(HeaderAt(g, flash, files[slot].page), name);
        return -1;
      }
      var h := hdr.(logRecords := Low16(Quot(logSize, logRecordSize)), logRecordSize := logRecordSize, valid := true);
      SettingsWritten(g, flash, files, fds, slot, name, h.logRecords, logRecordSize, h);
      SettingsStops(g, flash, files, fds, slot, h, nextFree, gcWait, strayed);
      if Unset(g, flash, name) { FirstSettings(g, flash, files, fds, slot, name, h.logRecords, logRecordSize, h); }
      flash := Written(flash, g.At(files[slot].page), Encode(h));
      ghost var page: nat, n := files[slot].page, Low16(Quot(logSize, logRecordSize));
      assert SettingsStored(g, old(flash), flash, page, name, n, logRecordSize);
      assert SettingsOk(g, n, logRecordSize) ==> Configured(g, old(flash), flash, page, name, n, logRecordSize);
      assert exists p: nat :: SettingsStored(g, old(flash), flash, p, name, Low16(Quot(logSize, logRecordSize)),
          logRecordSize);
      return 0;
    }

    /** A freshly formatted device. */
    constructor (geometry: Geometry, readsBack: bool)
      requires geometry.Ok()
      ensures g == geometry && this.readsBack == readsBack
      ensures Valid() && !strayed && !gcWait && nextFree == 0 && flash == Filled(g.Size())
      ensures Files(g, flash) == {} && forall k :: 0 <= k < |fds| ==> fds[k].flags == 0
    {
      g := geometry;
      this.readsBack := readsBack;
      flash := Filled(geometry.Size());
      nextFree, skipPages, lastActive, gcWait, strayed := 0, 0, false, false, false;
      files := seq(geometry.maxOpenFiles, _ => FileObject(0, 0, 0, 0, 0, false));
      fds := seq(geometry.fdSetSize, _ => FileDesc(0, 0, 0));
      new;
      FormattedInv(g, flash, files, fds);
      DiskLayout(g, flash);
    }

    /** cfs_coffee_format. */
    method CfsCoffeeFormat() returns (r: int)
      requires g.Ok() && |flash| == g.Size()
      modifies this
      ensures Valid() && !strayed && !gcWait && r == 0 && nextFree == 0 && ZeroRange(flash, 0, g.Size())
      ensures Files(g, flash) == {} && forall k :: 0 <= k < |fds| ==> fds[k].flags == 0
    {
      hide HeaderAt, Actives, Path;
      TimesZero(g.pageSize);
      for i := 0 to g.sectors
        invariant |flash| == g.Size() && ZeroRange(flash, 0, g.At(SectorStart(g, i)))
      {
        SectorSpan(g, i);
        EraseSector(i);
      }
      nextFree, gcWait, strayed := 0, false, false;
      files := seq(g.maxOpenFiles, _ => FileObject(0, 0, 0, 0, 0, false));
      fds := seq(g.fdSetSize, _ => FileDesc(0, 0, 0));
      FormattedInv(g, flash, files, fds);
      DiskLayout(g, flash);
      return 0;
    }

    // ----- round trips -----

    /** Write, seek back, read: the bytes that were written come back. done is false if the write did not
        end, or left the walk. */
    method WriteSeekRead(fd: int, data: seq<byte>) returns (done: bool, n: nat, buf: seq<byte>)
      requires Valid() && !strayed && CanUse(fds, fd, CFS_WRITE) && CanUse(fds, fd, CFS_READ)
      modifies this
      ensures Valid() && n <= |data|
      ensures 0 <= fd < |old(fds)| && 0 <= old(fds)[fd].file < |old(files)| && 0 <= old(fds)[fd].offset
      ensures !done ==> strayed || |data| >= 0x1_0000
                        || Oversized(g, old(flash), old(files)[old(fds)[fd].file], old(fds)[fd].offset, |data|)
      ensures done ==> buf == data[..n] && (n < |data| ==>
              0 <= fd < |fds| && 0 <= fds[fd].file < |files|
              && Starved(files[fds[fd].file], |data| + old(fds)[fd].offset + HEADER_SIZE))
    {
      hide HeaderAt, DiskOk, CacheOk, NamesOk, Wrote, Times, FileReady, FileOk, ConfigOk, Capacity, Actives, Bit,
           View, NoRun, Torn, OnWalk, Placed, LoggedPath, SlotsTaken, OpenRecords, Used, Chunks, RecordSize,
           RegionLogged, Oversized;
      ghost var f0, files0, fds0 := flash, files, fds;
      buf := [];
      var start := fds[fd].offset;
      ghost var m, t, first, last;
      var r, fate;
      r, fate, m, t, first, last := CfsWrite(fd, data);
      ghost var o := files0[fds0[fd].file];
      ghost var torn := Torn(g, readsBack, f0, o.page, start, m, OpenRecords(g, f0, o, |data| + start + HEADER_SIZE),
                             first, last);
      WroteRefs(g, f0, files0, fds0, fd, data, torn, flash, files, fds, t, m);
      n := fds[fd].offset - start;
      if fate != Ended || strayed {
        return false, n, [];
      }
      ghost var files1, fds1 := files, fds;
      WroteStays(g, f0, files0, fds0, fd, data, torn, flash, files, fds, t, m);
      r := CfsSeek(fd, start, 0);
      FdIsReady(g, flash, files, fds, fd);
      var hung;
      r, buf, hung := CfsRead(fd, n);
      ReadBack(g, f0, files0, fds0, fd, data, torn, flash, files1, fds1, t, m);
      assert files == files1;
      AllOpenSame(fds1, fds);
      return true, n, buf;
    }

    /** Close a file and open it again by its name: the same file, with the same end. */
    method CloseAndReopen(fd: int, flags: byte) returns (r: int)
      requires Valid() && !strayed && 0 <= fd < |fds| && fds[fd].flags != 0 && flags != 0
      modifies this
      ensures Valid() && !strayed && flash == old(flash) && nextFree == old(nextFree) && gcWait == old(gcWait)
      ensures 0 <= r < |fds|
      ensures 0 <= old(fds)[fd].file < |old(files)| && |files| == |old(files)|
      ensures var s := old(fds)[fd].file;
        && fds[r] == FileDesc(if Bit(flags, CFS_APPEND) then files[s].end else 0, s, flags)
        && files[s].page == old(files)[s].page >= 0 && files[s].end == old(files)[s].end
        && files[s].modified == old(files)[s].modified && files[s].maxPages == old(files)[s].maxPages
      ensures (AllOpen(old(fds)) ==> AllOpen(fds)) && (SlotsTaken(old(files)) ==> SlotsTaken(files))
    {
      hide HeaderAt, DiskOk, CacheOk, NamesOk, FileOk, ConfigOk, Capacity, Actives, Bit, NoRun, CStr, OnWalk, Placed,
           AllKept, IsBaseEnd, NoCachedName, NoSuchFile, FileReady;
      SeekRoom(g, flash, files, fds, fd);
      ghost var files0, s := files, fds[fd].file;
      MergeSource(g, flash, files, fds, s);
      ReadyFacts(g, flash, files[s]);
      var name := HeaderAt(g, flash, files[fds[fd].file].page).name;
      CfsClose(fd);
      assert fds[fd].flags == 0;
      CachedIsNamed(g, flash, files, s, name);
      r := CfsOpen(name, flags);
      MergeSource(g, flash, files, fds, s);
      ReadyFacts(g, flash, files[s]);
    }

    /** Open another file and close it: while a slot is free, a closed file stays in its own. */
    method OpenAndClose(other: seq<byte>, flags: byte, ghost s: int, ghost name: seq<byte>)
      requires Valid() && !strayed && NameFits(other) && flags != 0 && HasFree(files)
      requires Held(g, flash, files, s, name) && CStr(other) != CStr(name)
      modifies this
      ensures Valid() && |fds| == |old(fds)| && |files| == |old(files)| && 0 <= s < |files|
      ensures !strayed ==> Held(g, flash, files, s, name) && files[s] == old(files)[s]
      ensures forall k :: 0 <= k < |fds| && old(fds)[k].flags == 0 ==> fds[k].flags == 0
    {
      hide HeaderAt, DiskOk, CacheOk, NamesOk, NoRun, CStr, OnWalk, Placed, AllKept, IsBaseEnd, NoCachedName,
           NoSuchFile, Delivered, OutOfSpace, Bit, Actives, Quot;
      ghost var f0, files0 := flash, files;
      var fd := CfsOpen(other, flags);
      if !strayed { HeldKept(g, f0, flash, files0, old(fds), s, name); }
      CfsClose(fd);
    }

    /** Close a file, open and close any number of others while a slot is free, and open it again: the same
        file with the same end, even where the device does not tell it. */
    method ReopenAfterOthers(fd: int, others: seq<seq<byte>>, flags: byte) returns (r: int, done: nat)
      requires Valid() && !strayed && 0 <= fd < |fds| && fds[fd].flags != 0 && flags != 0
      requires forall k :: 0 <= k < |others| ==>
                 NameFits(others[k]) && CStr(others[k]) != CStr(HeaderAt(g, flash, OpenPage(files, fds, fd)).name)
      modifies this
      ensures Valid() && done <= |others| && 0 <= old(fds)[fd].file < |old(files)| == |files|
      ensures !strayed ==> 0 <= r < |fds| && (done < |others| ==> !HasFree(files))
      ensures !strayed ==> var s := old(fds)[fd].file;
        && fds[r].file == s && files[s].page == old(files)[s].page && files[s].end == old(files)[s].end
    {
      hide HeaderAt, DiskOk, CacheOk, NamesOk, FileOk, ConfigOk, Capacity, Actives, Bit, NoRun, CStr, OnWalk, Placed,
           AllKept, IsBaseEnd, NoCachedName, NoSuchFile, FileReady, OutOfSpace, Held, HasFree;
      SeekRoom(g, flash, files, fds, fd);
      ghost var s := fds[fd].file;
      ghost var page, end := files[s].page, files[s].end;
      MergeSource(g, flash, files, fds, s);
      ReadyFacts(g, flash, files[s]);
      var name := HeaderAt(g, flash, files[fds[fd].file].page).name;
      HeldHere(g, flash, files, fds, s, name);
      CfsClose(fd);
      HeldAlike(g, flash, old(files), files, s, name);
      done := 0;
      while done < |others| && HasFree(files)
        invariant Valid() && !strayed && done <= |others| && |files| == |old(files)| && |fds| == |old(fds)|
        invariant fds[fd].flags == 0 && Held(g, flash, files, s, name)
        invariant files[s].page == page && files[s].end == end
      {
        OpenAndClose(others[done], CFS_READ, s, name);
        if strayed {
          return -1, done;
        }
        done := done + 1;
      }
      CachedIsNamed(g, flash, files, s, name);
      ghost var files1 := files;
      KeptRefl(g, flash);
      HeldKept(g, flash, flash, files, fds, s, name);
      r := CfsOpen(name, flags);
      FreeSlotsGo(files1, files, s);
    }

    /** Write, close, open, seek, read: the bytes that were written come back. */
    method WriteReopenRead(fd: int, data: seq<byte>) returns (done: bool, n: nat, buf: seq<byte>, r: int)
      requires Valid() && !strayed && CanUse(fds, fd, CFS_WRITE)
      modifies this
      ensures Valid() && n <= |data|
      ensures 0 <= fd < |old(fds)| && 0 <= old(fds)[fd].file < |old(files)| && 0 <= old(fds)[fd].offset
      ensures !done ==> strayed || |data| >= 0x1_0000
                        || Oversized(g, old(flash), old(files)[old(fds)[fd].file], old(fds)[fd].offset, |data|)
      ensures done ==> buf == data[..n] && (n < |data| ==>
              0 <= r < |fds| && 0 <= fds[r].file < |files|
              && Starved(files[fds[r].file], |data| + old(fds)[fd].offset + HEADER_SIZE))
    {
      hide HeaderAt, DiskOk, CacheOk, NamesOk, Wrote, Times, FileReady, FileOk, ConfigOk, Capacity, Actives, Bit,
           View, NoRun, Torn, OnWalk, Placed, LoggedPath, SlotsTaken, OpenRecords, Used, Chunks, RecordSize,
           RegionLogged, Oversized, AllOpen;
      ghost var f0, files0, fds0 := flash, files, fds;
      buf := [];
      r := -1;
      var start := fds[fd].offset;
      ghost var m, t, first, last;
      var res, fate;
      res, fate, m, t, first, last := CfsWrite(fd, data);
      ghost var o := files0[fds0[fd].file];
      ghost var torn := Torn(g, readsBack, f0, o.page, start, m, OpenRecords(g, f0, o, |data| + start + HEADER_SIZE),
                             first, last);
      WroteRefs(g, f0, files0, fds0, fd, data, torn, flash, files, fds, t, m);
      n := fds[fd].offset - start;
      if fate != Ended || strayed {
        return false, n, [], -1;
      }
      ghost var files1, fds1 := files, fds;
      WroteStays(g, f0, files0, fds0, fd, data, torn, flash, files, fds, t, m);
      r := CloseAndReopen(fd, CFS_READ);
      BitsOfRead();
      SeekRoom(g, flash, files, fds, r);
      ghost var files2, fds2 := files, fds;
      res := CfsSeek(r, start, 0);
      FdIsReady(g, flash, files, fds, r);
      assert files == files2;
      var hung;
      res, buf, hung := CfsRead(r, n);
      ReadBack(g, f0, files0, fds0, fd, data, torn, flash, files1, fds1, t, m);
      AllOpenSame(fds2, fds);
      return true, n, buf, r;
    }

    // ----- runs -----

    function Now(): Snapshot
      reads this
    {
      Snapshot(flash, files, fds)
    }

    /** One call of the interface. ok is false only if a collection has lowered next_free off the walk, or the
        call is one that the code does not survive, as Derails tells. All other calls keep the invariant, and
        every open descriptor they do not touch on its file, with its end and content. */
    method Perform(op: Op) returns (ok: bool)
      requires Valid() && !strayed && op.Allowed()
      modifies this
      ensures ok ==> Valid() && !strayed && Preserves(g, op, old(Now()), Now())
      ensures !ok ==> (strayed && MayStray(g)) || Derails(g, op, old(Now()))
    {
      hide DiskOk, CacheOk, NamesOk, NameFits, Preserves, Derails, OnWalk, Placed;
      match op
      case Open(name, flags) => ok := PerformOpen(name, flags);
      case Close(fd) => PerformClose(fd); ok := true;
      case Read(fd, size) => ok := PerformRead(fd, size);
      case Write(fd, data) => ok := PerformWrite(fd, data);
      case Seek(fd, offset, whence) => ok := PerformSeek(fd, offset, whence);
      case Remove(name) => PerformRemove(name); ok := true;
      case SetAside(name, size) => ok := PerformReserve(name, size);
      case Configure(name, logSize, logRecordSize) => ok := PerformConfigure(name, logSize, logRecordSize);
      case Format =>
        DiskLayout(g, flash);
        ghost var a := Now();
        var _ := CfsCoffeeFormat();
        FormatTouches(g, a, Now());
        ok := true;
      case Collect => ok := PerformCollect();
    }

    method PerformOpen(name: seq<byte>, flags: byte) returns (ok: bool)
      requires Valid() && !strayed && NameFits(name)
      modifies this
      ensures ok ==> Valid() && !strayed && Preserves(g, Open(name, flags), old(Now()), Now())
      ensures !ok ==> (strayed && Valid()) || Derails(g, Open(name, flags), old(Now()))
    {
      hide DiskOk, CacheOk, NamesOk, NameFits, HeaderAt, Opened, Preserves, AllKept, RefsKept, FdsKept, OnWalk,
           Placed, NoRun, NoCachedName, EndFound, NoSuchFile, Held, Strays;
      ghost var a := Now();
      var fd := CfsOpen(name, flags);
      if fd < 0 {
        QuietPreserves(g, Open(name, flags), a, Now());
      } else {
        OpenPreserves(g, Open(name, flags), a, Now(), fd, name, flags);
      }
      ok := !strayed && (fd < 0 || flags != 0);
    }

    method PerformClose(fd: int)
      requires Valid() && !strayed
      modifies `files, `fds
      ensures Valid() && Preserves(g, Close(fd), old(Now()), Now())
    {
      hide DiskOk, CacheOk, NamesOk, HeaderAt, Preserves, OnWalk, Placed;
      ghost var a := Now();
      CfsClose(fd);
      if 0 <= fd < |a.fds| && a.fds[fd].flags != 0 {
        TablePreserves(g, Close(fd), a, Now(), fd, a.fds[fd].file);
      } else {
        NothingPreserves(g, Close(fd), a, Now());
      }
    }

    method PerformRead(fd: int, size: nat) returns (ok: bool)
      requires Valid() && !strayed
      modifies `fds
      ensures !ok <==> Derails(g, Read(fd, size), old(Now()))
      ensures Valid() && Preserves(g, Read(fd, size), old(Now()), Now())
    {
      hide DiskOk, CacheOk, NamesOk, HeaderAt, View, Preserves, OnWalk, Placed, Bit;
      ghost var a := Now();
      if 0 <= fd < |fds| { FdIsReady(g, flash, files, fds, fd); }
      var _, _, hung := CfsRead(fd, size);
      if CanUse(a.fds, fd, CFS_READ) {
        TablePreserves(g, Read(fd, size), a, Now(), fd, a.fds[fd].file);
      } else {
        NothingPreserves(g, Read(fd, size), a, Now());
      }
      ok := !hung;
    }

    method PerformWrite(fd: int, data: seq<byte>) returns (ok: bool)
      requires Valid() && !strayed
      modifies this
      ensures ok ==> !strayed
      ensures !ok ==> strayed || Derails(g, Write(fd, data), old(Now()))
      ensures Valid() && Preserves(g, Write(fd, data), old(Now()), Now())
    {
      hide DiskOk, CacheOk, NamesOk, HeaderAt, Wrote, Starved, Preserves, Bit, OnWalk, Placed, Torn, LoggedPath,
           OpenRecords, Oversized, Used, Chunks, RecordSize, RegionLogged;
      ghost var a := Now();
      ghost var n, t, first, last;
      var r, fate;
      r, fate, n, t, first, last := CfsWrite(fd, data);
      if CanUse(a.fds, fd, CFS_WRITE) {
        ghost var o, off := a.files[a.fds[fd].file], a.fds[fd].offset;
        WritePreserves(g, Write(fd, data), a, Now(), fd, data,
                       Torn(g, readsBack, a.flash, o.page, off, n,
                            OpenRecords(g, a.flash, o, |data| + off + HEADER_SIZE), first, last), t, n);
      } else {
        NothingPreserves(g, Write(fd, data), a, Now());
      }
      ok := fate == Ended && !strayed;
    }

    method PerformSeek(fd: int, offset: int, whence: int) returns (ok: bool)
      requires Valid() && !strayed
      modifies `files, `fds
      ensures !ok <==> Derails(g, Seek(fd, offset, whence), old(Now()))
      ensures ok ==> Valid() && Preserves(g, Seek(fd, offset, whence), old(Now()), Now())
    {
      hide DiskOk, CacheOk, NamesOk, HeaderAt, Capacity, Times, Preserves, OnWalk, Placed;
      ghost var a := Now();
      if 0 <= fd < |fds| && fds[fd].flags != 0 {
        SeekRoom(g, flash, files, fds, fd);
      }
      var r := CfsSeek(fd, offset, whence);
      ok := r < 0 || r + HEADER_SIZE <= g.At(files[fds[fd].file].maxPages);
      if r < 0 {
        NothingPreserves(g, Seek(fd, offset, whence), a, Now());
      } else if ok {
        TablePreserves(g, Seek(fd, offset, whence), a, Now(), fd, a.fds[fd].file);
      }
    }

    method PerformRemove(name: seq<byte>)
      requires Valid() && !strayed
      modifies `flash, `files, `fds, `gcWait
      ensures Valid() && Preserves(g, Remove(name), old(Now()), Now())
    {
      hide DiskOk, CacheOk, NamesOk, HeaderAt, Removed, Preserves, NoSuchFile, OnWalk, Placed;
      ghost var a := Now();
      var r := CfsRemove(name);
      if r == 0 {
        ghost var page: nat :| Removed(g, a.flash, flash, a.files, files, a.fds, fds, page, name);
        RemovePreserves(g, Remove(name), a, Now(), page, name);
      } else {
        NothingPreserves(g, Remove(name), a, Now());
      }
    }

    method PerformReserve(name: seq<byte>, size: nat) returns (ok: bool)
      requires Valid() && !strayed && NameFits(name)
      modifies this
      ensures ok <==> !strayed
      ensures Valid() && Preserves(g, SetAside(name, size), old(Now()), Now())
    {
      hide DiskOk, CacheOk, NamesOk, NameFits, HeaderAt, Preserves, AllKept, RefsKept, Reserved, OnWalk, Placed,
           NoRun, Strays, Fitted, NewHeader, NameTaken, Quot;
      ghost var a := Now();
      var _ := CfsCoffeeReserve(name, size);
      NothingHappened(a.files, fds);
      QuietPreserves(g, SetAside(name, size), a, Now());
      ok := !strayed;
    }

    method PerformConfigure(name: seq<byte>, logSize: nat, logRecordSize: nat) returns (ok: bool)
      requires Valid() && !strayed
      modifies `flash, `files
      ensures !ok ==> Derails(g, Configure(name, logSize, logRecordSize), old(Now()))
      ensures ok ==> Valid() && Preserves(g, Configure(name, logSize, logRecordSize), old(Now()), Now())
    {
      hide DiskOk, CacheOk, NamesOk, HeaderAt, Preserves, RefsKept, Configured, AllKept, OnWalk, Placed, SettingsOk,
           SettingsStored, Quot;
      ghost var a := Now();
      ghost var op := Configure(name, logSize, logRecordSize);
      var r := CfsCoffeeConfigureLog(name, logSize, logRecordSize);
      if r < 0 {
        NothingHappened(files, fds);
        KeptItself(g, flash);
        QuietPreserves(g, op, a, Now());
        return true;
      }
      ok := SettingsOk(g, Low16(Quot(logSize, logRecordSize)), logRecordSize);
      if ok {
        ghost var n := Low16(Quot(logSize, logRecordSize));
        ghost var page: nat :| Configured(g, a.flash, flash, page, name, n, logRecordSize);
        ConfigurePreserves(g, op, a, Now(), page, name, n, logRecordSize);
      }
    }

    /** A collection at any time. */
    method PerformCollect() returns (ok: bool)
      requires Valid() && !strayed
      modifies this
      ensures ok <==> !strayed
      ensures strayed <==> !OnWalk(g, old(flash), LoweredNextFree(g, old(flash), old(nextFree)))
      ensures Valid() && Preserves(g, Collect, old(Now()), Now())
    {
      hide DiskOk, CacheOk, NamesOk, HeaderAt, Preserves, AllKept, RefsKept, FdsKept, OnWalk, Collected,
           LoweredNextFree;
      ghost var a, n0 := Now(), nextFree;
      DiskLayout(g, flash);
      CollectGarbage();
      CollectedFacts(g, a.flash, flash, files, fds);
      NextFreeStaysOnWalk(g, a.flash, flash, n0);
      LoweredBound(g, a.flash, n0);
      if !MayStray(g) { NeverStrays(g, a.flash, n0); }
      NothingHappened(files, fds);
      QuietPreserves(g, Collect, a, Now());
      strayed := !OnWalk(g, flash, nextFree);
      if !strayed { ManagedCollected(g, a.flash, flash, n0, gcWait); }
      ok := !strayed;
    }

    /** Any run of calls. done of them complete, all unless a collection strays or a call derails. Until then
        the layout, the logs and the tables stay sound; in particular next_free stays on the walk, and every
        file object's reference count is the number of open descriptors on it. And a descriptor that no call
        of the run touches still sees its file as it was, whatever was written, merged, grown, removed or
        collected beside it. */
    method Run(ops: seq<Op>) returns (done: nat, ghost states: seq<Snapshot>)
      requires Valid() && !strayed && forall i :: 0 <= i < |ops| ==> ops[i].Allowed()
      modifies this
      ensures done <= |ops| && |states| == done + 1 && states[0] == old(Now())
      ensures done < |ops| ==> (strayed && MayStray(g)) || Derails(g, ops[done], states[done])
      ensures done == |ops| ==> states[done] == Now() && Valid() && !strayed && LayoutOk(g, flash)
                                && OnWalk(g, flash, nextFree)
      ensures done == |ops| ==> forall i :: 0 <= i < |files| ==> files[i].references == RefCount(fds, i)
      ensures done == |ops| ==> forall k :: 0 <= k < |fds| && fds[k].flags != 0 ==>
                0 <= fds[k].file < |files| && files[fds[k].file].references > 0
      ensures forall i :: 0 <= i <= done ==> Sound(g, states[i])
      ensures forall i :: 0 <= i < done ==> Preserves(g, ops[i], states[i], states[i + 1])
      ensures forall k: nat :: OpenAt(states[0], k) && LeftAlone(g, ops, states, done, k) ==>
              Stands(g, states[0], states[done], k)
    {
      hide DiskOk, FdOk, SlotOk, HeaderAt, RefCount, NamesOk, Preserves, Stands, LeftAlone, Derails, OnWalk, CacheOk;
      states := [Now()];
      done := 0;
      while done < |ops|
        invariant done <= |ops| && Valid() && !strayed && |states| == done + 1 && states[0] == old(Now())
                  && states[done] == Now()
        invariant forall i :: 0 <= i <= done ==> Sound(g, states[i])
        invariant forall j :: 0 <= j < done ==> Preserves(g, ops[j], states[j], states[j + 1])
      {
        var ok := Perform(ops[done]);
        if !ok {
          break;
        }
        states := states + [Now()];
        done := done + 1;
      }
      forall k: nat | OpenAt(states[0], k) && LeftAlone(g, ops, states, done, k)
        ensures Stands(g, states[0], states[done], k)
      {
        LeftAloneStands(g, ops, states, done, k);
      }
      if done == |ops| {
        DiskLayout(g, flash);
        CountsMatch(g, flash, files, fds);
        forall k | 0 <= k < |fds| && fds[k].flags != 0
          ensures 0 <= fds[k].file < |files| && files[fds[k].file].references > 0
        {
          SeekRoom(g, flash, files, fds, k);
        }
      }
    }
  }
}
