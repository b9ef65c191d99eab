/** How operations on one file relate the states before and after: what may move and what
    must stay, and the steps of merging a file with its log. */
module CoffeeUpdate {
  import opened CoffeeFlash
  import opened CoffeeLayout
  import opened CoffeeSpace
  import opened CoffeeLog
  import opened CoffeeCache

  // ----- one file changes, nothing else -----

  /** The extents that make up a file: its base and its log. */
  function Own(g: Geometry, f: Flash, page: nat): set<nat> {
    if HeaderAt(g, f, page).modified then {page, LogOf(HeaderAt(g, f, page))} else {page}
  }

  /** An open descriptor on slot s now points to slot t; every other one is as it was. */
  predicate FdMoved(d: FileDesc, d': FileDesc, s: int, t: int) {
    if d.flags == 0 then d'.flags == 0
    else if d.file == s then d' == d.(file := t)
    else d' == d
  }

  /** Of the files in use only the one in slot s changed, and it now lives in slot t: all other
      referenced objects, all descriptors and all extents it does not own are as before. */
  ghost predicate Moved(g: Geometry, f0: Flash, files0: seq<FileObject>, fds0: seq<FileDesc>, s: int,
                        f: Flash, files: seq<FileObject>, fds: seq<FileDesc>, t: int) {
    && |files| == |files0| && |fds| == |fds0| && 0 <= s < |files| && 0 <= t < |files|
    && 0 <= files0[s].page && 0 <= files[t].page
    && (forall i :: 0 <= i < |files0| && i != s && files0[i].references > 0 ==> i != t && files[i] == files0[i])
    && (forall k :: 0 <= k < |fds0| ==> FdMoved(fds0[k], fds[k], s, t))
    && (forall p :: p in Files(g, f0) && p !in Own(g, f0, files0[s].page) ==>
          p in Files(g, f) && Kept(g, f0, f, p) && HeaderAt(g, f, p) == HeaderAt(g, f0, p))
    && Own(g, f, files[t].page) * Files(g, f0) <= Own(g, f0, files0[s].page)
  }

  lemma MovedTrans(g: Geometry, f0: Flash, files0: seq<FileObject>, fds0: seq<FileDesc>, s: int,
                   f1: Flash, files1: seq<FileObject>, fds1: seq<FileDesc>, t: int,
                   f2: Flash, files2: seq<FileObject>, fds2: seq<FileDesc>, u: int)
    requires CacheOk(g, f0, files0, fds0)
    requires Moved(g, f0, files0, fds0, s, f1, files1, fds1, t) && Moved(g, f1, files1, fds1, t, f2, files2, fds2, u)
    ensures Moved(g, f0, files0, fds0, s, f2, files2, fds2, u)
  {
    hide HeaderAt, Path, Good, Actives, Own, RefCount, SlotOk;
    forall k | 0 <= k < |fds0| ensures FdMoved(fds0[k], fds2[k], s, u) {
      assert FdMoved(fds0[k], fds1[k], s, t) && FdMoved(fds1[k], fds2[k], t, u);
      if fds0[k].flags != 0 && fds0[k].file != s {
        assert FdOk(g, f0, files0, fds0[k]);
        RefersOpen(fds0, k);
        RefCountMember(fds0, k, fds0[k].file);
      }
    }
    forall p | p in Files(g, f0) && p !in Own(g, f0, files0[s].page)
      ensures p in Files(g, f2) && Kept(g, f0, f2, p) && HeaderAt(g, f2, p) == HeaderAt(g, f0, p)
    {
      assert Kept(g, f0, f1, p) && p !in Own(g, f1, files1[t].page);
      KeptTwice(g, f0, f1, f2, p);
    }
  }

  /** The content of another file in use is untouched. */
  lemma MovedKeepsOthers(g: Geometry, f0: Flash, files0: seq<FileObject>, fds0: seq<FileDesc>, s: int,
                         f: Flash, files: seq<FileObject>, fds: seq<FileDesc>, t: int, i: nat)
    requires Inv(g, f0, files0, fds0) && Moved(g, f0, files0, fds0, s, f, files, fds, t)
    requires i < |files0| && i != s && files0[i].references > 0 && files0[s].references > 0
    ensures files[i] == files0[i] && 0 <= files0[i].page && 0 <= files0[i].end
    ensures Content(g, f, files0[i].page, files0[i].end) == Content(g, f0, files0[i].page, files0[i].end)
  {
    hide HeaderAt, Path, Good, Actives, RefCount, ZeroRange, FirstFree, Clash, ViewByte, FileOk, Capacity;
    var p, end := files0[i].page, files0[i].end;
    assert SlotOk(g, f0, files0[i]) && SlotOk(g, f0, files0[s]);
    OwnDisjoint(g, f0, files0, fds0, s, i);
    forall j: nat | j < end ensures ViewByte(g, f, p, j) == ViewByte(g, f0, p, j) {
      ViewKept(g, f0, f, p, j);
    }
    ViewsAgree(g, f0, f, p, p, end);
  }

  lemma ViewsAgree(g: Geometry, f0: Flash, f: Flash, p: nat, q: nat, end: nat)
    requires forall j: nat :: j < end ==> ViewByte(g, f, q, j) == ViewByte(g, f0, p, j)
    ensures Content(g, f, q, end) == Content(g, f0, p, end)
  {
    hide ViewByte;
    var a, b := Content(g, f, q, end), Content(g, f0, p, end);
    forall j | 0 <= j < end ensures a[j] == b[j] {
      assert a[j] == ViewByte(g, f, q, 0 + j) && b[j] == ViewByte(g, f0, p, 0 + j);
    }
  }

  lemma OwnDisjoint(g: Geometry, f: Flash, files: seq<FileObject>, fds: seq<FileDesc>, s: nat, i: nat)
    requires Inv(g, f, files, fds) && s < |files| && i < |files| && i != s && files[i].references > 0
             && files[s].maxPages > 0
    requires 0 <= files[s].page && 0 <= files[i].page && !HeaderAt(g, f, files[i].page).log
    ensures files[i].page in Files(g, f) && FileOk(g, f, files[i].page)
    ensures !HeaderAt(g, f, files[s].page).log ==> Own(g, f, files[i].page) !! Own(g, f, files[s].page)
    ensures HeaderAt(g, f, files[i].page).modified ==>
            HeaderAt(g, f, files[i].page).logPage in Files(g, f) && HeaderAt(g, f, files[i].page).logPage >= 0
  {
    hide HeaderAt, Path, Good, Actives, RefCount, ZeroRange, FirstFree, Clash, HeaderStored, TableOk, ConfigOk, Kept;
    assert SlotOk(g, f, files[i]) && SlotOk(g, f, files[s]);
    var p, q := files[i].page, files[s].page;
    assert p != q;
    assert FileOk(g, f, p) && FileOk(g, f, q);
    assert !SharesLog(g, f, p, q);
  }

  // ----- merging: copying into the new extent -----

  /** The new extent at page2 holds the first off bytes of the file at page; nothing else changed since f2. */
  ghost predicate Copying(g: Geometry, f2: Flash, f: Flash, page: nat, page2: nat, off: nat) {
    && DiskOk(g, f2) && DiskOk(g, f) && page2 in Files(g, f2) && Files(g, f) == Files(g, f2)
    && (forall p :: p in Files(g, f2) ==> HeaderAt(g, f, p) == HeaderAt(g, f2, p) && (p != page2 ==> Kept(g, f2, f, p)))
    && !HeaderAt(g, f2, page2).modified && !HeaderAt(g, f2, page2).log
    && off <= Capacity(g, f, page2)
    && (forall i: nat :: i < off ==> ViewByte(g, f, page2, i) == ViewByte(g, f2, page, i))
    && ZeroRange(f, DataStart(g, page2) + off, g.At(page2 + MaxPages(g, f2, page2)))
  }

  lemma CopyBegins(g: Geometry, f1: Flash, f2: Flash, page: nat, page2: nat, h: Header)
    requires DiskOk(g, f1) && Reserved(g, f1, f2, page2, h) && !h.modified && !h.log
    ensures Copying(g, f2, f2, page, page2, 0)
  {
    hide HeaderAt, Path, Good, Actives, HeaderStored, LogOk, ConfigOk, Encode;
    assert FileOk(g, f2, page2);
  }

  /** A chunk read from the old file may be programmed at the same offset of the new extent. */
  lemma CopyStep(g: Geometry, f2: Flash, f: Flash, page: nat, page2: nat, off: nat, buf: seq<byte>)
    requires Copying(g, f2, f, page, page2, off) && off + |buf| <= Capacity(g, f, page2)
    requires forall j :: 0 <= j < |buf| ==> buf[j] == ViewByte(g, f2, page, off + j)
    ensures var a := DataStart(g, page2) + off;
      && a + |buf| <= |f| && OnlySets(f[a..a + |buf|], buf)
      && Copying(g, f2, Written(f, a, buf), page, page2, off + |buf|)
  {
    hide HeaderAt, Path, Good, Actives, DiskOk, Kept, ViewByte;
    var a := DataStart(g, page2) + off;
    DiskDataWritten(g, f, page2, off, buf);
    var f' := Written(f, a, buf);
    DataChangedIsUpdate(g, f, f', page2);
    RoomBounds(g, f, page2);
    assert Zeros(f[a..a + |buf|]);
    ErasedTakesAnything(f[a..a + |buf|], buf);
    forall p | p in Files(g, f2) && p != page2 ensures Kept(g, f2, f', p) {
      KeptTwice(g, f2, f, f', p);
    }
  }

  /** While copying, the old file reads as before. */
  lemma CopySource(g: Geometry, f2: Flash, f: Flash, page: nat, page2: nat, off: nat, i: nat)
    requires Copying(g, f2, f, page, page2, off) && page in Files(g, f2) && page != page2 && i < Capacity(g, f2, page)
    ensures ViewByte(g, f, page, i) == ViewByte(g, f2, page, i)
  {
    hide HeaderAt, Path, Good, Actives, Kept, ViewByte, HeaderStored, ConfigOk, TableOk, Capacity;
    assert FileOk(g, f2, page);
    ViewKept(g, f2, f, page, i);
  }

  lemma CopySlot(g: Geometry, f2: Flash, f: Flash, page2: nat, off: nat, o: FileObject)
    requires o.maxPages > 0 && 0 <= o.page && Copying(g, f2, f, o.page, page2, off) && o.page != page2
             && SlotOk(g, f2, o)
    requires !HeaderAt(g, f2, o.page).log && 0 <= o.end
    ensures FileReady(g, f, o) && SlotOk(g, f, o)
  {
    hide HeaderAt, Path, Good, Actives, Kept, ViewByte, HeaderStored, ConfigOk, TableOk, Capacity, FirstFree, ZeroRange;
    assert FileOk(g, f2, o.page);
    SlotKept(g, f2, f, o);
  }

  // ----- merging: moving the descriptors -----

  function RePoint(d: FileDesc, s: int, t: int): FileDesc { if d.flags != 0 && d.file == s then d.(file := t) else d }

  predicate RePointed(fds: seq<FileDesc>, fds': seq<FileDesc>, s: int, t: int) {
    |fds'| == |fds| && forall k :: 0 <= k < |fds| ==> fds'[k] == RePoint(fds[k], s, t)
  }

  lemma {:induction false} RePointCounts(fds: seq<FileDesc>, fds': seq<FileDesc>, s: int, t: int)
    requires RePointed(fds, fds', s, t) && s != t
    ensures RefCount(fds', t) == RefCount(fds, s) + RefCount(fds, t) && RefCount(fds', s) == 0
    ensures forall i :: i != s && i != t ==> RefCount(fds', i) == RefCount(fds, i)
  {
    if fds != [] {
      RePointCounts(fds[..|fds| - 1], fds'[..|fds| - 1], s, t);
    }
  }

  // ----- merging: dropping the old extents -----

  /** Everything known when the copy is complete: slot s holds the old file, slot t the fresh one. */
  ghost predicate Copied(g: Geometry, f2: Flash, f3: Flash, files2: seq<FileObject>, fds3: seq<FileDesc>, s: int,
                         t: int) {
    && 0 <= s < |files2| && 0 <= t < |files2| && s != t
    && CacheOk(g, f2, files2, fds3) && NamesOkBut(g, f2, files2, t)
    && files2[s].maxPages > 0 && files2[s].references > 0 && 0 <= files2[s].page
    && files2[t].references == 0 && files2[t].maxPages > 0 && 0 <= files2[t].page && files2[t].recordCount == -1
    && files2[s].page != files2[t].page
    && HeaderAt(g, f2, files2[t].page).name == HeaderAt(g, f2, files2[s].page).name
    && 0 <= files2[s].end && Copying(g, f2, f3, files2[s].page, files2[t].page, files2[s].end)
  }

  /** The object of the new file once the merge is done. */
  function MergedObject(o: FileObject, end: int, references: nat): FileObject {
    o.(end := end, references := references, modified := false)
  }

  lemma CopiedSlots(g: Geometry, f2: Flash, f3: Flash, files2: seq<FileObject>, fds3: seq<FileDesc>, s: int, t: int,
                    refs: nat)
    requires Copied(g, f2, f3, files2, fds3, s, t)
    ensures var filesV := files2[t := MergedObject(files2[t], files2[s].end, refs)];
      forall i :: 0 <= i < |filesV| ==> SlotOk(g, f3, filesV[i])
  {
    hide HeaderAt, Path, Good, Actives, Kept, ViewByte, RefCount, FirstFree, FdOk, NamesOkBut;
    var page2 := files2[t].page;
    var filesV := files2[t := MergedObject(files2[t], files2[s].end, refs)];
    forall i | 0 <= i < |filesV| ensures SlotOk(g, f3, filesV[i]) {
      assert SlotOk(g, f2, files2[i]);
      if i == t {
        FreshAfterCopy(g, f2, f3, files2[s].page, page2, files2[s].end, files2[t], refs);
      } else {
        OtherAfterCopy(g, f2, f3, files2[s].page, page2, files2[s].end, files2[i]);
      }
    }
  }

  lemma FreshAfterCopy(g: Geometry, f2: Flash, f3: Flash, page: nat, page2: nat, end: nat, o: FileObject, refs: nat)
    requires Copying(g, f2, f3, page, page2, end) && SlotOk(g, f2, o) && o.maxPages > 0 && o.page == page2
             && o.recordCount == -1
    ensures SlotOk(g, f3, MergedObject(o, end, refs))
  {
    hide HeaderAt, Path, Good, Actives, Kept, ViewByte, FirstFree, DiskOk;
  }

  lemma OtherAfterCopy(g: Geometry, f2: Flash, f3: Flash, page: nat, page2: nat, end: nat, o: FileObject)
    requires Copying(g, f2, f3, page, page2, end) && SlotOk(g, f2, o) && (o.maxPages > 0 ==> o.page != page2)
    ensures SlotOk(g, f3, o)
  {
    hide HeaderAt, Path, Good, Actives, Kept, ViewByte, FirstFree, ZeroRange, HeaderStored, ConfigOk, TableOk;
    if o.maxPages > 0 {
      assert FileOk(g, f2, o.page);
      if HeaderAt(g, f2, o.page).modified {
        NotALog(g, f2, page2);
      }
      SlotKept(g, f2, f3, o);
    }
  }

  lemma CopiedFds(g: Geometry, f2: Flash, f3: Flash, files2: seq<FileObject>, fds3: seq<FileDesc>, s: int, t: int,
                  refs: nat, fds4: seq<FileDesc>)
    requires Copied(g, f2, f3, files2, fds3, s, t) && RePointed(fds3, fds4, s, t)
    ensures var filesV := files2[t := MergedObject(files2[t], files2[s].end, refs)];
      var gone := RemovedPages(g, f3, files2[s].page, true);
      && files2[t].page !in gone
      && forall k :: 0 <= k < |fds4| ==> FdOk(g, f3, filesV, fds4[k])
                                         && (fds4[k].flags != 0 ==> !Gone(filesV[fds4[k].file], gone))
  {
    hide HeaderAt, Path, Good, Actives, Kept, ViewByte, RefCount, FirstFree, NamesOkBut, ZeroRange, DiskOk, Capacity;
    var filesV := files2[t := MergedObject(files2[t], files2[s].end, refs)];
    var page := files2[s].page;
    var gone := RemovedPages(g, f3, page, true);
    assert SlotOk(g, f2, files2[s]) && SlotOk(g, f2, files2[t]);
    LogsAreLogs(g, f3, page);
    forall k | 0 <= k < |fds4|
      ensures FdOk(g, f3, filesV, fds4[k]) && (fds4[k].flags != 0 ==> !Gone(filesV[fds4[k].file], gone))
    {
      assert fds4[k] == RePoint(fds3[k], s, t);
      CopiedFd(g, f2, f3, files2, fds3, s, t, refs, gone, k);
    }
  }

  lemma CopiedFd(g: Geometry, f2: Flash, f3: Flash, files2: seq<FileObject>, fds3: seq<FileDesc>, s: int, t: int,
                 refs: nat, gone: set<nat>, k: nat)
    requires Copied(g, f2, f3, files2, fds3, s, t) && k < |fds3|
    requires forall p :: p in gone && p != files2[s].page ==> HeaderAt(g, f3, p).log
    requires files2[s].page in gone && files2[t].page !in gone
    ensures var filesV := files2[t := MergedObject(files2[t], files2[s].end, refs)];
      var d := RePoint(fds3[k], s, t);
      FdOk(g, f3, filesV, d) && (d.flags != 0 ==> !Gone(filesV[d.file], gone))
  {
    hide HeaderAt, Path, Good, Actives, Kept, ViewByte, RefCount, FirstFree, NamesOkBut, ZeroRange, DiskOk, Capacity;
    assert FdOk(g, f2, files2, fds3[k]);
    if fds3[k].flags != 0 {
      var i := fds3[k].file;
      assert SlotOk(g, f2, files2[i]) && SlotOk(g, f2, files2[t]);
      RefersOpen(fds3, k);
      RefCountMember(fds3, k, i);
    }
  }

  lemma CopiedNames(g: Geometry, f2: Flash, f3: Flash, files2: seq<FileObject>, fds3: seq<FileDesc>, s: int, t: int,
                    refs: nat, i: nat, j: nat)
    requires Copied(g, f2, f3, files2, fds3, s, t) && i < |files2| && j < |files2| && i != j && i != s && j != s
    ensures var filesV := files2[t := MergedObject(files2[t], files2[s].end, refs)]; !Clash(g, f3, filesV[i], filesV[j])
  {
    hide HeaderAt, Path, Good, Actives, Kept, ViewByte, RefCount, FirstFree, ZeroRange, DiskOk, Capacity, CStr, FdOk;
    var i', j' := if i == t then s else i, if j == t then s else j;
    assert SlotOk(g, f2, files2[i]) && SlotOk(g, f2, files2[j]) && SlotOk(g, f2, files2[s]);
    if i' < j' {
      assert !Clash(g, f2, files2[i'], files2[j']);
    } else {
      assert !Clash(g, f2, files2[j'], files2[i']);
    }
  }

  /** The cache after the old file was dropped and the new one took over its descriptors. */
  lemma MergeDrops(g: Geometry, f2: Flash, f3: Flash, files2: seq<FileObject>, fds3: seq<FileDesc>, s: int, t: int,
                   refs: nat,
                   fds4: seq<FileDesc>, files5: seq<FileObject>)
    requires Copied(g, f2, f3, files2, fds3, s, t) && RePointed(fds3, fds4, s, t) && refs == RefCount(fds3, s)
    requires SlotsDropped(files2[t := files2[t].(references := refs)], files5,
             RemovedPages(g, f3, files2[s].page, true))
    ensures |files5| == |files2| && Inv(g, RemovedFrom(g, f3, files2[s].page, true),
            files5[t := MergedObject(files5[t], files2[s].end, files5[t].references)], fds4)
    ensures files5[t] == files2[t].(references := refs)
    ensures Shrunk(g, f3, RemovedFrom(g, f3, files2[s].page, true), RemovedPages(g, f3, files2[s].page, true))
  {
    hide HeaderAt, Path, Good, Actives, Kept, ViewByte, RefCount, FirstFree, ZeroRange, DiskOk, Capacity, CStr, FdOk,
         Clash, Shrunk, RemovedFrom, SlotOk;
    var page := files2[s].page;
    var gone, f4 := RemovedPages(g, f3, page, true), RemovedFrom(g, f3, page, true);
    var filesV := files2[t := MergedObject(files2[t], files2[s].end, refs)];
    var filesT := files5[t := MergedObject(files5[t], files2[s].end, files5[t].references)];
    OldFileListed(g, f2, f3, files2, fds3, s, t);
    RemovalShrinks(g, f3, page);
    ShrunkDisk(g, f3, f4, gone);
    CopiedSlots(g, f2, f3, files2, fds3, s, t, refs);
    CopiedFds(g, f2, f3, files2, fds3, s, t, refs, fds4);
    RePointCounts(fds3, fds4, s, t);
    assert SlotsDropped(filesV, filesT, gone);
    CacheDropped(g, f3, f4, gone, filesV, filesT, fds4);
    NamesDropped(g, f3, f4, gone, filesV, filesT);
    forall i, j | 0 <= i < j < |filesT| ensures !Clash(g, f4, filesT[i], filesT[j]) {
      if i != s && j != s {
        CopiedNames(g, f2, f3, files2, fds3, s, t, refs, i, j);
      }
    }
  }

  lemma OldFileListed(g: Geometry, f2: Flash, f3: Flash, files2: seq<FileObject>, fds3: seq<FileDesc>, s: int, t: int)
    requires Copied(g, f2, f3, files2, fds3, s, t)
    ensures DiskOk(g, f3) && files2[s].page in Files(g, f3) && files2[s].page in Files(g, f2)
            && !HeaderAt(g, f3, files2[s].page).log
    ensures HeaderAt(g, f3, files2[s].page) == HeaderAt(g, f2, files2[s].page)
  {
    hide HeaderAt, Path, Good, Actives, Kept, ViewByte, RefCount, FirstFree, ZeroRange, DiskOk, Capacity, CStr, FdOk,
         Clash;
    assert SlotOk(g, f2, files2[s]);
  }

  // ----- log settings of a file without a log -----

  /** Rewriting the log settings of an unlogged file keeps the cache. */
  lemma CacheConfigured(g: Geometry, f: Flash, files: seq<FileObject>, fds: seq<FileDesc>, q: nat, h: Header)
    requires Inv(g, f, files, fds) && q in Files(g, f) && !HeaderAt(g, f, q).modified && !HeaderAt(g, f, q).log
             && ConfigOk(g, h)
    requires 0 <= h.logRecords < 0x1_0000 && 0 <= h.logRecordSize < 0x1_0000
    requires h == HeaderAt(g, f, q).(logRecords := h.logRecords, logRecordSize := h.logRecordSize)
    ensures q < g.Pages() && h.Encodable()
    ensures var f' := WithHeader(g, f, q, h);
      && Inv(g, f', files, fds) && Files(g, f') == Files(g, f) && HeaderAt(g, f', q) == h
      && (forall p :: p in Files(g, f) && p != q ==> Kept(g, f, f', p) && HeaderAt(g, f', p) == HeaderAt(g, f, p))
      && (forall i: nat :: ViewByte(g, f', q, i) == ViewByte(g, f, q, i))
  {
    hide HeaderAt, Path, Good, Actives, Kept, ViewByte, RefCount, FirstFree, DiskOk, CStr, FdOk, Clash, ConfigOk,
         Encode, Capacity;
    DiskConfigured(g, f, q, h);
    DiskLayout(g, f);
    var f' := WithHeader(g, f, q, h);
    RoomBounds(g, f, q);
    forall p | p in Files(g, f) && p != q ensures HeaderAt(g, f', p) == HeaderAt(g, f, p) {
      RoomBounds(g, f, p);
      KeptHeader(g, f, f', p);
    }
    NotALog(g, f, q);
    forall i | 0 <= i < |files| ensures SlotOk(g, f', files[i]) {
      assert SlotOk(g, f, files[i]);
      ConfiguredSlot(g, f, f', q, files[i]);
    }
    forall k | 0 <= k < |fds| ensures FdOk(g, f', files, fds[k]) {
      assert FdOk(g, f, files, fds[k]);
      ConfiguredFd(g, f, f', files, fds[k]);
    }
    forall i, j | 0 <= i < j < |files| ensures !Clash(g, f', files[i], files[j]) {
      assert !Clash(g, f, files[i], files[j]);
      ConfiguredClash(g, f, f', files[i], files[j]);
    }
    forall i: nat ensures ViewByte(g, f', q, i) == ViewByte(g, f, q, i) {
      ViewOfBase(g, f, q, i);
      ViewOfBase(g, f', q, i);
    }
  }

  /** Headers that differ at most in their log settings. */
  predicate SameButConfig(h: Header, h': Header) {
    h' == h.(logRecords := h'.logRecords, logRecordSize := h'.logRecordSize)
  }

  lemma ConfiguredSlot(g: Geometry, f: Flash, f': Flash, q: nat, o: FileObject)
    requires DiskOk(g, f) && SlotOk(g, f, o) && Files(g, f') == Files(g, f) && |f'| == |f|
    requires forall p :: p in Files(g, f) && p != q ==> Kept(g, f, f', p) && HeaderAt(g, f', p) == HeaderAt(g, f, p)
    requires SameButConfig(HeaderAt(g, f, q), HeaderAt(g, f', q)) && !HeaderAt(g, f, q).modified
    requires forall p :: p in Files(g, f) && HeaderAt(g, f, p).modified ==> HeaderAt(g, f, p).logPage != q
    requires Same(f, f', DataStart(g, q), g.Size())
    ensures SlotOk(g, f', o)
  {
    hide HeaderAt, Path, Good, Actives, Kept, FirstFree, HeaderStored, TableOk, ConfigOk;
    if o.maxPages > 0 {
      assert FileOk(g, f, o.page);
      RoomBounds(g, f, o.page);
      if o.page != q {
        SlotKept(g, f, f', o);
      }
    }
  }

  lemma ConfiguredFd(g: Geometry, f: Flash, f': Flash, files: seq<FileObject>, d: FileDesc)
    requires FdOk(g, f, files, d) && forall i :: 0 <= i < |files| ==> SlotOk(g, f, files[i])
    requires forall p :: p in Files(g, f) ==> SameButConfig(HeaderAt(g, f, p), HeaderAt(g, f', p))
    ensures FdOk(g, f', files, d)
  {
    hide HeaderAt, Actives, FirstFree, ZeroRange, Capacity;
    if d.flags != 0 { assert SlotOk(g, f, files[d.file]); }
  }

  lemma ConfiguredClash(g: Geometry, f: Flash, f': Flash, o: FileObject, p: FileObject)
    requires !Clash(g, f, o, p) && SlotOk(g, f, o) && SlotOk(g, f, p)
    requires forall x :: x in Files(g, f) ==> SameButConfig(HeaderAt(g, f, x), HeaderAt(g, f', x))
    ensures !Clash(g, f', o, p)
  {
    hide HeaderAt, Actives, FirstFree, ZeroRange, Capacity, CStr;
  }

  /** Rewriting a header that keeps the extent keeps next_free and gc_wait right. */
  lemma RewriteStops(g: Geometry, f: Flash, q: nat, h: Header, x: nat, wait: bool, strayed: bool)
    requires DiskOk(g, f) && q in Files(g, f) && h.Encodable() && Placed(g, f, x, wait, strayed)
    requires h.alloc == HeaderAt(g, f, q).alloc && h.isolated == HeaderAt(g, f, q).isolated
             && h.obsolete == HeaderAt(g, f, q).obsolete && h.maxPages == HeaderAt(g, f, q).maxPages
    ensures q < g.Pages() && Wf(g, f) && Placed(g, WithHeader(g, f, q, h), x, wait, strayed)
  {
    hide HeaderAt, Path, Good, Actives, DiskOk, Encode;
    DiskLayout(g, f);
    RoomBounds(g, f, q);
    ActiveFacts(g, f, 0, g.Pages(), q);
    HeaderStops(g, f, q, h, x, wait, strayed);
  }

  /** So does a write of data within the extent. */
  lemma WrittenStops(g: Geometry, f: Flash, q: nat, off: nat, data: seq<byte>, x: nat, wait: bool, strayed: bool)
    requires DiskOk(g, f) && q in Files(g, f) && off + |data| <= Capacity(g, f, q) && Placed(g, f, x, wait, strayed)
    ensures DataStart(g, q) + off + |data| <= |f|
            && Placed(g, Written(f, DataStart(g, q) + off, data), x, wait, strayed)
  {
    hide HeaderAt, Path, Good, Actives, DiskOk;
    DiskLayout(g, f);
    RoomBounds(g, f, q);
    DataStops(g, f, Written(f, DataStart(g, q) + off, data), q, x, wait, strayed);
  }

  // ----- merging: the whole step -----

  /** Every slot is in use by an open descriptor. */
  predicate SlotsTaken(files: seq<FileObject>) {
    forall i :: 0 <= i < |files| ==> files[i].maxPages > 0 && files[i].references > 0
  }

  /** Every descriptor is open. */
  predicate AllOpen(fds: seq<FileDesc>) { forall k :: 0 <= k < |fds| ==> fds[k].flags != 0 }

  lemma TakenAfterClose(files: seq<FileObject>, s: nat, files': seq<FileObject>)
    requires s < |files| && files[s].references > 1 && files'
             == files[s := files[s].(references := files[s].references - 1)]
    ensures SlotsTaken(files) ==> SlotsTaken(files')
  {}

  /** A null result of find_file: no such file, or no slot to load it into. */
  lemma MissingOrTaken(g: Geometry, f: Flash, files: seq<FileObject>, fds: seq<FileDesc>, name: seq<byte>)
    requires CacheOk(g, f, files, fds)
    requires NoSuchFile(g, f, 0, g.Pages(), name) || forall i :: 0 <= i < |files| ==> files[i].references > 0
    ensures NoSuchFile(g, f, 0, g.Pages(), name) || SlotsTaken(files)
  {
    hide HeaderAt, RefCount, NoSuchFile, FdOk;
    if forall i :: 0 <= i < |files| ==> files[i].references > 0 {
      forall i | 0 <= i < |files| ensures files[i].maxPages > 0 { assert SlotOk(g, f, files[i]); }
    }
  }

  lemma CachedIsNamed(g: Geometry, f: Flash, files: seq<FileObject>, s: int, name: seq<byte>)
    requires Held(g, f, files, s, name)
    ensures !NoCachedName(g, f, files, -1, name)
  {
    hide HeaderAt, CStr;
  }

  /** An operation that failed: nothing in use was disturbed. */
  ghost predicate Quiet(g: Geometry, f0: Flash, files0: seq<FileObject>, fds0: seq<FileDesc>, f: Flash,
                        files: seq<FileObject>, fds: seq<FileDesc>) {
    AllKept(g, f0, f) && RefsKept(files0, files) && FdsKept(fds0, fds)
  }

  /** Name and log settings follow a file. */
  predicate FileFollows(g: Geometry, f0: Flash, page: nat, f: Flash, page': nat) {
    && HeaderAt(g, f, page').name == HeaderAt(g, f0, page).name
    && RecordSize(g, HeaderAt(g, f, page')) == RecordSize(g, HeaderAt(g, f0, page))
    && Records(g, HeaderAt(g, f, page')) == Records(g, HeaderAt(g, f0, page))
  }

  /** The outcome of merge_log: the file of slot s lives on in slot t, on a new extent without a log,
      with the same end, content, record size and descriptors; its old extents left the device. */
  ghost predicate MergedInto(g: Geometry, f0: Flash, files0: seq<FileObject>, fds0: seq<FileDesc>, s: int,
                             f: Flash, files: seq<FileObject>, fds: seq<FileDesc>, t: int) {
    && Moved(g, f0, files0, fds0, s, f, files, fds, t)
    && files[t].maxPages > 0 && !files[t].modified && !HeaderAt(g, f, files[t].page).modified
    && files[t].end == files0[s].end && files[t].references == files0[s].references
    && FileFollows(g, f0, files0[s].page, f, files[t].page)
    && (forall i: nat :: i < files0[s].end ==> ViewByte(g, f, files[t].page, i) == ViewByte(g, f0, files0[s].page, i))
    && files[t].page !in Files(g, f0) && Own(g, f0, files0[s].page) !! Files(g, f)
  }

  /** The state between opening the old file and dropping it: s was opened through descriptor m. */
  ghost predicate MergeStarted(g: Geometry, f0: Flash, files0: seq<FileObject>, fds0: seq<FileDesc>, s: int, m: int,
                               files1: seq<FileObject>, fds1: seq<FileDesc>) {
    && Inv(g, f0, files0, fds0) && Inv(g, f0, files1, fds1)
    && 0 <= s < |files0| && files0[s].references > 0 && 0 <= m < |fds0| && fds0[m].flags == 0
    && files1 == files0[s := files0[s].(references := files0[s].references + 1)]
    && fds1 == fds0[m := FileDesc(0, s, CFS_READ)]
  }

  lemma MergeOpens(g: Geometry, f0: Flash, f: Flash, files0: seq<FileObject>, files: seq<FileObject>,
                   fds0: seq<FileDesc>, fds: seq<FileDesc>, s: nat, fd: int)
    requires Inv(g, f0, files0, fds0) && Inv(g, f, files, fds) && s < |files0| && files0[s].references > 0
    requires 0 <= files0[s].page && Opened(g, f0, f, files0, files, fds0, fds, fd,
             HeaderAt(g, f0, files0[s].page).name, CFS_READ)
    ensures f == f0 && MergeStarted(g, f0, files0, fds0, s, fd, files, fds)
  {
    hide HeaderAt, Path, Good, Actives, DiskOk, CStr, RefCount, FirstFree, ZeroRange, Clash, FdOk, Capacity;
    assert SlotOk(g, f0, files0[s]);
    assert Cached(g, f0, files0, s, HeaderAt(g, f0, files0[s].page).name);
    BitsOfRead();
  }

  lemma BitsOfRead()
    ensures Bit(CFS_READ, CFS_READ) && !Bit(CFS_READ, CFS_APPEND)
  {}

  /** The file being merged: its page, its name, what stays true of it after the reservation. */
  lemma MergeSource(g: Geometry, f: Flash, files: seq<FileObject>, fds: seq<FileDesc>, s: nat)
    requires Inv(g, f, files, fds) && s < |files| && files[s].references > 0
    ensures files[s].maxPages > 0 && 0 <= files[s].page && files[s].page in Files(g, f) && FileReady(g, f, files[s])
    ensures Cached(g, f, files, s, HeaderAt(g, f, files[s].page).name)
    ensures var h := HeaderAt(g, f, files[s].page);
      && FileOk(g, f, files[s].page) && !h.log && h.maxPages == files[s].maxPages && NameFits(h.name)
      && StoredName(h.name) == h.name
      && h.Encodable() && ConfigOk(g, h) && h.valid && (!h.modified ==> h.logPage == 0)
    ensures 0 <= files[s].end <= Capacity(g, f, files[s].page)
  {
    hide HeaderAt, Path, Good, Actives, RefCount, FirstFree, ZeroRange, Clash, FdOk, Capacity, LogOk, HeaderStored,
         ConfigOk, CStr;
    assert SlotOk(g, f, files[s]);
    assert FileOk(g, f, files[s].page);
    HeaderNameFits(HeaderAt(g, f, files[s].page).name);
  }

  lemma QuietClose(g: Geometry, f0: Flash, files0: seq<FileObject>, fds0: seq<FileDesc>, s: int, m: int,
                   files1: seq<FileObject>, fds1: seq<FileDesc>,
                   f: Flash, files2: seq<FileObject>, files: seq<FileObject>, fds: seq<FileDesc>)
    requires MergeStarted(g, f0, files0, fds0, s, m, files1, fds1) && AllKept(g, f0, f) && RefsKept(files1, files2)
    requires files == files2[s := files2[s].(references := files2[s].references - 1)]
             && fds == fds1[m := fds1[m].(flags := 0, file := -1)]
    ensures Quiet(g, f0, files0, fds0, f, files, fds)
  {
    hide AllKept, Inv, HeaderAt;
  }

  /** After the reservation the copy may start. */
  lemma MergeReserved(g: Geometry, f0: Flash, files1: seq<FileObject>, fds1: seq<FileDesc>, f2: Flash,
                      files2: seq<FileObject>,
                      s: nat, t: nat, page: nat, page2: nat, pages: nat, name: seq<byte>)
    requires s < |files1| && t < |files1| && DiskOk(g, f0) && files1[t].references == 0 && |name| == NAME_LENGTH
    requires files1[s].references > 0 && files1[s].maxPages > 0 && files1[s].page == page && page in Files(g, f0)
             && 0 <= files1[s].end
    requires HeaderAt(g, f0, page).name == name && 1 <= pages
    requires files2 == files1[t := FreshObject(page2, NewHeader(pages, false, name))]
    requires Reserved(g, f0, f2, page2, NewHeader(pages, false, name)) && CacheOk(g, f2, files2, fds1)
             && NamesOkBut(g, f2, files2, t)
    ensures s != t && Copied0(g, f0, f2, files2, fds1, s, t) && Copying(g, f2, f2, page, page2, 0)
    ensures files2[s] == files1[s]
  {
    hide HeaderAt, Path, Good, Actives, RefCount, CacheOk, NamesOkBut, DiskOk;
    MergeCopyBegins(g, f0, f2, page, page2, pages, name);
  }

  lemma MergeCopyBegins(g: Geometry, f0: Flash, f2: Flash, page: nat, page2: nat, pages: nat, name: seq<byte>)
    requires DiskOk(g, f0) && |name| == NAME_LENGTH && Reserved(g, f0, f2, page2, NewHeader(pages, false, name))
    ensures Copying(g, f2, f2, page, page2, 0)
  {
    CopyBegins(g, f0, f2, page, page2, NewHeader(pages, false, name));
  }

  /** Slot s holds the old file and slot t a fresh extent of the same name. */
  ghost predicate Copied0(g: Geometry, f0: Flash, f2: Flash, files2: seq<FileObject>, fds1: seq<FileDesc>, s: int,
                          t: int) {
    && 0 <= s < |files2| && 0 <= t < |files2| && s != t
    && CacheOk(g, f2, files2, fds1) && NamesOkBut(g, f2, files2, t)
    && files2[s].maxPages > 0 && files2[s].references > 0 && 0 <= files2[s].page && 0 <= files2[s].end
    && files2[t].references == 0 && files2[t].maxPages > 0 && 0 <= files2[t].page && files2[t].recordCount == -1
    && files2[s].page != files2[t].page
    && HeaderAt(g, f2, files2[t].page).name == HeaderAt(g, f2, files2[s].page).name
    && files2[s].page in Files(g, f2) && files2[t].page !in Files(g, f0) && AllKept(g, f0, f2)
  }

  lemma CopyDone(g: Geometry, f0: Flash, f2: Flash, f3: Flash, files2: seq<FileObject>, fds1: seq<FileDesc>, s: int,
                 t: int, m: nat)
    requires Copied0(g, f0, f2, files2, fds1, s, t) && Copying(g, f2, f3, files2[s].page, files2[t].page, files2[s].end)
    requires m < |fds1| && fds1[m].flags != 0 && fds1[m].file == s
    ensures Copied(g, f2, f3, files2, fds1[m := fds1[m].(offset := files2[s].end)], s, t)
  {
    hide HeaderAt, Path, Good, Actives, CacheOk, NamesOkBut, Copying;
    CacheMoved(g, f2, files2, fds1, m, files2[s].end);
  }

  /** The extents of the old file are the ones dropped; all others survive the merge. */
  lemma MergeExtents(g: Geometry, f0: Flash, f2: Flash, f3: Flash, f4: Flash, f5: Flash, page: nat, page2: nat,
                     end: nat)
    requires DiskOk(g, f0) && page in Files(g, f0) && page2 !in Files(g, f0) && AllKept(g, f0, f2)
    requires Copying(g, f2, f3, page, page2, end) && page in Files(g, f2)
    requires Shrunk(g, f3, f4, RemovedPages(g, f3, page, true)) && Files(g, f5) == Files(g, f4)
    requires forall p :: p in Files(g, f4) && p != page2 ==>
             Kept(g, f4, f5, p) && HeaderAt(g, f5, p) == HeaderAt(g, f4, p)
    ensures Own(g, f0, page) !! Files(g, f5)
    ensures forall p :: p in Files(g, f0) && p !in Own(g, f0, page) ==>
            p in Files(g, f5) && Kept(g, f0, f5, p) && HeaderAt(g, f5, p) == HeaderAt(g, f0, p)
  {
    hide HeaderAt, Path, Good, Actives, DiskOk, Kept, ViewByte, ZeroRange, Capacity;
    RemovalTarget(g, f0, page);
    assert RemovedPages(g, f3, page, true) == Own(g, f0, page);
    forall p | p in Files(g, f0) && p !in Own(g, f0, page)
      ensures p in Files(g, f5) && Kept(g, f0, f5, p) && HeaderAt(g, f5, p) == HeaderAt(g, f0, p)
    {
      KeptTwice(g, f0, f2, f3, p);
      KeptTwice(g, f0, f3, f4, p);
      KeptTwice(g, f0, f4, f5, p);
    }
  }

  /** The new extent carries the old content to the end. */
  lemma MergeContent(g: Geometry, f0: Flash, f2: Flash, f3: Flash, f4: Flash, page: nat, page2: nat, end: nat, i: nat)
    requires DiskOk(g, f0) && page in Files(g, f0) && AllKept(g, f0, f2) && i < end && end <= Capacity(g, f0, page)
    requires Copying(g, f2, f3, page, page2, end) && DiskOk(g, f3)
    requires Shrunk(g, f3, f4, RemovedPages(g, f3, page, true)) && page2 in Files(g, f4)
    ensures ViewByte(g, f4, page2, i) == ViewByte(g, f0, page, i)
  {
    hide HeaderAt, Path, Good, Actives, Kept, ViewByte, ZeroRange, Capacity, HeaderStored, TableOk, ConfigOk, SharesLog;
    assert FileOk(g, f0, page) && FileOk(g, f3, page2);
    ViewKept(g, f0, f2, page, i);
    ViewKept(g, f3, f4, page2, i);
  }

  lemma MergeFds(fds0: seq<FileDesc>, m: nat, s: int, t: int, fds3: seq<FileDesc>, fds4: seq<FileDesc>,
                 fds: seq<FileDesc>, end: int)
    requires m < |fds0| && fds0[m].flags == 0 && fds3 == fds0[m := FileDesc(end, s, CFS_READ)]
    requires RePointed(fds3, fds4, s, t) && |fds| == |fds4| && fds[m].flags == 0 &&
             forall k :: 0 <= k < |fds4| && k != m ==> fds[k] == fds4[k]
    ensures |fds| == |fds0| && forall k :: 0 <= k < |fds0| ==> FdMoved(fds0[k], fds[k], s, t)
  {
    forall k | 0 <= k < |fds0| ensures FdMoved(fds0[k], fds[k], s, t) {
      assert fds4[k] == RePoint(fds3[k], s, t);
    }
  }

  lemma MergeSlots(g: Geometry, f0: Flash, files0: seq<FileObject>, fds0: seq<FileDesc>, s: nat, t: nat, gone: set<nat>,
                   files2: seq<FileObject>, files5: seq<FileObject>, files: seq<FileObject>, i: nat)
    requires CacheOk(g, f0, files0, fds0) && s < |files0| && t < |files0| && s != t && i < |files0| && i != s
             && files0[i].references > 0
    requires |files2| == |files0| && (forall j :: 0 <= j < |files0| && j != s && j != t ==> files2[j] == files0[j])
             && files0[t].references == 0
    requires SlotsDropped(files2, files5, gone) && |files| == |files5| && forall j :: 0 <= j < |files| && j != t ==>
             files[j] == files5[j]
    requires files0[s].maxPages > 0 && 0 <= files0[s].page && gone == Own(g, f0, files0[s].page) && DiskOk(g, f0)
    ensures i != t && files[i] == files0[i]
  {
    hide HeaderAt, Path, Good, Actives, RefCount, FirstFree, ZeroRange, FdOk, Capacity, DiskOk;
    assert SlotOk(g, f0, files0[i]) && SlotOk(g, f0, files0[s]);
    if HeaderAt(g, f0, files0[s].page).modified {
      LogIsTarget(g, f0, files0[s].page);
    }
  }

  lemma CanUseMoved(fds: seq<FileDesc>, fd: nat, offset: int)
    requires fd < |fds| && CanUse(fds, fd, CFS_READ)
    ensures CanUse(fds[fd := fds[fd].(offset := offset)], fd, CFS_READ)
  {}

  lemma CopyChunk(g: Geometry, f2: Flash, f: Flash, o: FileObject, page2: nat, off: nat, n: nat)
    requires o.maxPages > 0 && 0 <= o.page && Copying(g, f2, f, o.page, page2, off) && o.page in Files(g, f2)
             && o.page != page2
    requires SlotOk(g, f2, o) && !HeaderAt(g, f2, o.page).log && 0 <= o.end
             && off + n <= o.end <= Capacity(g, f2, page2)
    ensures var a, buf := DataStart(g, page2) + off, View(g, f, o.page, off, n);
      && a + |buf| <= |f| && OnlySets(f[a..a + |buf|], buf)
      && Copying(g, f2, Written(f, a, buf), o.page, page2, off + n)
  {
    hide HeaderAt, Path, Good, Actives, ViewByte, FirstFree, ZeroRange, OnlySets, Written, DataStart;
    var buf := View(g, f, o.page, off, n);
    forall j | 0 <= j < n ensures buf[j] == ViewByte(g, f2, o.page, off + j) {
      CopySource(g, f2, f, o.page, page2, off, off + j);
    }
    CopyCapacity(g, f2, f, o.page, page2, off);
    CopyStep(g, f2, f, o.page, page2, off, buf);
  }

  /** Copying keeps next_free and gc_wait right. */
  lemma CopyStops(g: Geometry, f2: Flash, f: Flash, page: nat, page2: nat, off: nat, data: seq<byte>, x: nat,
                  wait: bool, strayed: bool)
    requires Copying(g, f2, f, page, page2, off) && off + |data| <= Capacity(g, f2, page2)
             && Placed(g, f, x, wait, strayed)
    ensures DataStart(g, page2) + off + |data| <= |f|
            && Placed(g, Written(f, DataStart(g, page2) + off, data), x, wait, strayed)
  {
    hide HeaderAt, Path, Good, Actives, DiskOk, Kept, ViewByte, ZeroRange, Capacity, Placed;
    CopyCapacity(g, f2, f, page, page2, off);
    WrittenStops(g, f, page2, off, data, x, wait, strayed);
  }

  lemma CopyCapacity(g: Geometry, f2: Flash, f: Flash, page: nat, page2: nat, off: nat)
    requires Copying(g, f2, f, page, page2, off)
    ensures Capacity(g, f, page2) == Capacity(g, f2, page2)
  {
    hide HeaderAt;
  }

  lemma RefCountPrefix(fds: seq<FileDesc>, s: int)
    ensures RefCount(fds[..0], s) == 0
  {}

  lemma RefCountNext(fds: seq<FileDesc>, i: nat, s: int)
    requires i < |fds|
    ensures RefCount(fds[..i + 1], s) == RefCount(fds[..i], s) + if fds[i].flags != 0 && fds[i].file == s then 1 else 0
  {
    assert fds[..i + 1][..i] == fds[..i];
  }

  /** Of the slots on the page only s is referred to. */
  lemma OnlyOneOnPage(files: seq<FileObject>, fds: seq<FileDesc>, k: nat, page: int, s: nat)
    requires k < |fds| && s < |files| && files[s].page == page
    requires fds[k].flags != 0 ==> 0 <= fds[k].file < |files|
    requires forall i :: 0 <= i < |files| && files[i].page == page ==> i == s || RefCount(fds, i) == 0
    ensures fds[k].flags != 0 && files[fds[k].file].page == page ==> fds[k].file == s
  {
    if fds[k].flags != 0 {
      RefersOpen(fds, k);
      RefCountMember(fds, k, fds[k].file);
    }
  }

  lemma QuietOpen(g: Geometry, f0: Flash, files0: seq<FileObject>, fds0: seq<FileDesc>, f: Flash,
                  files: seq<FileObject>, fds: seq<FileDesc>)
    requires AllKept(g, f0, f) && RefsKept(files0, files) && FdsKept(fds0, fds)
    ensures Quiet(g, f0, files0, fds0, f, files, fds)
  {}

  lemma SameReferenced(files1: seq<FileObject>, files2: seq<FileObject>, s: nat)
    requires RefsKept(files1, files2) && s < |files1| && files1[s].references > 0
    ensures |files2| == |files1| && files2[s] == files1[s]
  {}

  lemma OpenedReading(g: Geometry, f0: Flash, files0: seq<FileObject>, fds0: seq<FileDesc>, s: int, m: int,
                      files1: seq<FileObject>, fds1: seq<FileDesc>)
    requires MergeStarted(g, f0, files0, fds0, s, m, files1, fds1)
    ensures 0 <= m < |fds1| == |fds0| && fds1[m] == FileDesc(0, s, CFS_READ) && CanUse(fds1, m, CFS_READ)
            && files1[s].references > 0
  {
    BitsOfRead();
  }

  /** What the copy and the rest of a merge rely on. */
  ghost predicate MergeReady(g: Geometry, f0: Flash, f2: Flash, o: FileObject, page: nat, page2: nat, hdr: Header) {
    && SlotOk(g, f2, o) && o.maxPages > 0 && o.page == page && page in Files(g, f0) && page in Files(g, f2)
    && page != page2
    && !HeaderAt(g, f2, page).log && 0 <= o.end <= Capacity(g, f2, page2) && o.end <= Capacity(g, f0, page)
    && 1 <= RecordSize(g, hdr) && ConfigOk(g, hdr) && hdr.Encodable()
    && HeaderAt(g, f2, page2) == NewHeader(MaxPages(g, f2, page2), false, hdr.name)
  }

  lemma CopyReady(g: Geometry, f0: Flash, f2: Flash, files2: seq<FileObject>, fds1: seq<FileDesc>, s: int, t: int,
                  page: nat, page2: nat, pages: nat, hdr: Header)
    requires Copied0(g, f0, f2, files2, fds1, s, t) && files2[s].page == page && files2[t].page == page2
    requires hdr == HeaderAt(g, f0, page) && !hdr.log && hdr.Encodable() && ConfigOk(g, hdr)
             && files2[s].end <= Capacity(g, f0, page)
    requires Reserved(g, f0, f2, page2, NewHeader(pages, false, hdr.name)) && DiskOk(g, f0) && page in Files(g, f0)
    requires pages >= MaxPages(g, f0, page)
    ensures MergeReady(g, f0, f2, files2[s], page, page2, hdr) && files2[t].maxPages == pages
  {
    hide HeaderAt, Path, Good, Actives, RefCount, FirstFree, ZeroRange, FdOk, NamesOkBut, DiskOk;
    assert SlotOk(g, f2, files2[s]) && SlotOk(g, f2, files2[t]);
    RoomBounds(g, f0, page);
    RoomBounds(g, f2, page2);
    CapacityIs(g, f2, page);
    CapacityIs(g, f2, page2);
    AtMono(g, MaxPages(g, f2, page), MaxPages(g, f2, page2));
    RecordSizePositive(g, f0, page);
  }

  lemma ReadyToCopy(g: Geometry, f0: Flash, f2: Flash, o: FileObject, page: nat, page2: nat, hdr: Header)
    requires MergeReady(g, f0, f2, o, page, page2, hdr)
    ensures SlotOk(g, f2, o) && o.maxPages > 0 && page in Files(g, f0) && page in Files(g, f2)
            && o.page == page != page2 && 0 <= o.end <= Capacity(g, f2, page2)
    ensures !HeaderAt(g, f2, page).log && 1 <= RecordSize(g, hdr) && ConfigOk(g, hdr) && hdr.Encodable()
            && o.end <= Capacity(g, f0, page)
    ensures HeaderAt(g, f2, page2) == NewHeader(MaxPages(g, f2, page2), false, hdr.name)
  {}

  lemma RecordSizePositive(g: Geometry, f: Flash, page: nat)
    requires DiskOk(g, f) && page in Files(g, f)
    ensures 1 <= RecordSize(g, HeaderAt(g, f, page)) <= g.pageSize
            && 1 <= Records(g, HeaderAt(g, f, page)) <= g.logTableLimit
  {
    hide HeaderAt, Path, Good, Actives, LogOk, HeaderStored;
    assert FileOk(g, f, page);
    ConfigBounds(g, HeaderAt(g, f, page));
  }

  /** What moving the descriptors relies on: one slot per page, no reference to the fresh slot. */
  lemma CopiedTables(g: Geometry, f2: Flash, f3: Flash, files2: seq<FileObject>, fds3: seq<FileDesc>, s: int, t: int)
    requires Copied(g, f2, f3, files2, fds3, s, t)
    ensures forall k :: 0 <= k < |fds3| && fds3[k].flags != 0 ==> 0 <= fds3[k].file < |files2|
    ensures forall i :: 0 <= i < |files2| && files2[i].page == files2[s].page ==> i == s || RefCount(fds3, i) == 0
    ensures DiskOk(g, f3) && files2[s].page in Files(g, f3) && RefCount(fds3, s) == files2[s].references
  {
    hide HeaderAt, Path, Good, Actives, RefCount, FirstFree, ZeroRange, NamesOkBut, DiskOk, Capacity, Kept, ViewByte;
    OldFileListed(g, f2, f3, files2, fds3, s, t);
    forall k | 0 <= k < |fds3| && fds3[k].flags != 0 ensures 0 <= fds3[k].file < |files2| {
      assert FdOk(g, f2, files2, fds3[k]);
    }
    forall i | 0 <= i < |files2| && files2[i].page == files2[s].page ensures i == s || RefCount(fds3, i) == 0 {
      assert SlotOk(g, f2, files2[i]);
    }
  }

  lemma ConfigCarries(g: Geometry, h: Header, h2: Header)
    requires ConfigOk(g, h) && h2.logRecords == h.logRecords && h2.logRecordSize == h.logRecordSize
    ensures ConfigOk(g, h2) && RecordSize(g, h2) == RecordSize(g, h)
  {}

  /** The log settings of the old file may be stored in the new header. */
  lemma MergeConfig(g: Geometry, f2: Flash, f3: Flash, f4: Flash, files: seq<FileObject>, fds: seq<FileDesc>,
                    page: nat, page2: nat, end: nat,
                    hdr: Header, hdr2: Header, t: nat)
    requires Inv(g, f4, files, fds) && t < |files| && files[t].maxPages > 0 && files[t].page == page2
    requires Copying(g, f2, f3, page, page2, end) && Shrunk(g, f3, f4, RemovedPages(g, f3, page, true))
    requires |hdr.name| == NAME_LENGTH && HeaderAt(g, f2, page2) == NewHeader(MaxPages(g, f2, page2), false, hdr.name)
    requires ConfigOk(g, hdr) && hdr.Encodable()
    requires hdr2 == HeaderAt(g, f4, page2).(logRecordSize := hdr.logRecordSize, logRecords := hdr.logRecords)
    ensures !hdr2.modified && RecordSize(g, hdr2) == RecordSize(g, hdr) && hdr2.name == hdr.name
    ensures page2 in Files(g, f4) && page2 < g.Pages() && hdr2.Encodable() && g.At(page2) + HEADER_SIZE <= |f4|
    ensures OnlySets(f4[g.At(page2)..g.At(page2) + HEADER_SIZE], Encode(hdr2))
    ensures var f5 := WithHeader(g, f4, page2, hdr2);
      && Inv(g, f5, files, fds) && Files(g, f5) == Files(g, f4) && HeaderAt(g, f5, page2) == hdr2
      && (forall p :: p in Files(g, f4) && p != page2 ==>
         Kept(g, f4, f5, p) && HeaderAt(g, f5, p) == HeaderAt(g, f4, p))
      && (forall i: nat :: ViewByte(g, f5, page2, i) == ViewByte(g, f4, page2, i))
  {
    hide HeaderAt, Path, Good, Actives, RefCount, FirstFree, ZeroRange, DiskOk, Capacity, Kept, ViewByte, ConfigOk,
         FdOk, Clash, OnlySets, Encode, RemovedPages;
    assert SlotOk(g, f4, files[t]);
    ConfigCarries(g, hdr, hdr2);
    CacheConfigured(g, f4, files, fds, page2, hdr2);
    FileIsOk(g, f4, page2);
    HeaderUpdateOnlySets(g, f4, page2, hdr2);
  }

  lemma FileIsOk(g: Geometry, f: Flash, page: nat)
    requires DiskOk(g, f) && page in Files(g, f)
    ensures Wf(g, f) && FileOk(g, f, page)
  {}

  lemma MergedFd(fds3: seq<FileDesc>, fds4: seq<FileDesc>, s: int, t: int, m: nat)
    requires RePointed(fds3, fds4, s, t) && m < |fds3| && fds3[m].flags != 0 && fds3[m].file == s
    ensures m < |fds4| && fds4[m] == fds3[m].(file := t)
  {}

  /** The chain of states of a merge adds up to the merge relation. */
  lemma MergeResult(g: Geometry, f0: Flash, files0: seq<FileObject>, fds0: seq<FileDesc>, s: nat, m: int,
                    files1: seq<FileObject>, fds1: seq<FileDesc>,
                    f2: Flash, files2: seq<FileObject>, f3: Flash, fds3: seq<FileDesc>, t: nat,
                    f4: Flash, files5: seq<FileObject>, fds4: seq<FileDesc>,
                    f5: Flash, files: seq<FileObject>, fds: seq<FileDesc>)
    requires MergeStarted(g, f0, files0, fds0, s, m, files1, fds1) && Copied0(g, f0, f2, files2, fds1, s, t)
    requires files0[s].maxPages > 0 && 0 <= files0[s].page && files0[s].page in Files(g, f0)
             && 0 <= files0[s].end <= Capacity(g, f0, files0[s].page)
    requires |files2| == |files1| == |files0| && files2 == files1[t := files2[t]] && files1[t].references == 0
    requires Copying(g, f2, f3, files0[s].page, files2[t].page, files0[s].end)
             && fds3 == fds0[m := FileDesc(files0[s].end, s, CFS_READ)]
    requires RefCount(fds3, s) == files0[s].references + 1
    requires RePointed(fds3, fds4, s, t) && SlotsDropped(files2[t
             := files2[t].(references := files0[s].references + 1)], files5, RemovedPages(g, f3, files0[s].page, true))
    requires files5[t] == files2[t].(references := files0[s].references + 1)
    requires Shrunk(g, f3, f4, RemovedPages(g, f3, files0[s].page, true)) && Files(g, f5) == Files(g, f4)
             && files2[t].page in Files(g, f4)
    requires forall p :: p in Files(g, f4) && p != files2[t].page ==>
             Kept(g, f4, f5, p) && HeaderAt(g, f5, p) == HeaderAt(g, f4, p)
    requires forall i: nat :: ViewByte(g, f5, files2[t].page, i) == ViewByte(g, f4, files2[t].page, i)
    requires !HeaderAt(g, f5, files2[t].page).modified
    requires FileFollows(g, f0, files0[s].page, f5, files2[t].page)
    requires files == files5[t := MergedObject(files5[t], files0[s].end, files0[s].references)]
    requires fds == fds4[m := fds4[m].(flags := 0, file := -1)]
    ensures MergedInto(g, f0, files0, fds0, s, f5, files, fds, t)
  {
    hide HeaderAt, Path, Good, Actives, RefCount, DiskOk, Capacity, Kept, ViewByte, FdOk, Clash, Copying, SlotOk,
         Shrunk, CacheOk, NamesOk, RemovedPages, FileFollows;
    var page, page2, end := files0[s].page, files2[t].page, files0[s].end;
    CopyingDisk(g, f2, f3, page, page2, end);
    MergeExtents(g, f0, f2, f3, f4, f5, page, page2, end);
    forall i: nat | i < end ensures ViewByte(g, f5, page2, i) == ViewByte(g, f0, page, i) {
      MergeContent(g, f0, f2, f3, f4, page, page2, end, i);
    }
    MergeFds(fds0, m, s, t, fds3, fds4, fds, end);
    GoneIsOwn(g, f0, f2, f3, page, page2, end);
    forall i | 0 <= i < |files0| && i != s && files0[i].references > 0 ensures i != t && files[i] == files0[i] {
      MergeSlots(g, f0, files0, fds0, s, t, Own(g, f0, page),
                 files2[t := files2[t].(references := files0[s].references + 1)], files5, files, i);
    }
  }

  lemma CopyingDisk(g: Geometry, f2: Flash, f: Flash, page: nat, page2: nat, off: nat)
    requires Copying(g, f2, f, page, page2, off)
    ensures DiskOk(g, f)
  {}

  lemma GoneIsOwn(g: Geometry, f0: Flash, f2: Flash, f3: Flash, page: nat, page2: nat, end: nat)
    requires DiskOk(g, f0) && page in Files(g, f0) && AllKept(g, f0, f2) && Copying(g, f2, f3, page, page2, end)
    ensures RemovedPages(g, f3, page, true) == Own(g, f0, page)
  {
    hide HeaderAt, Path, Good, Actives, DiskOk, Kept, ViewByte, ZeroRange, Capacity;
    RemovalTarget(g, f0, page);
  }
}
