/** The cached file objects and the descriptor table: what they must agree on with the
    device content and with each other. */
module CoffeeCache {
  import opened CoffeeFlash
  import opened CoffeeLayout
  import opened CoffeeSpace
  import opened CoffeeLog

  /** struct file; page -1 stands for INVALID_PAGE, end -1 for UNKNOWN_OFFSET, maxPages 0 for a free slot. */
  datatype FileObject = FileObject(end: int, page: int, maxPages: nat, recordCount: int, references: nat,
      modified: bool)

  /** struct file_desc; file is a slot number, -1 for NULL; flags 0 for COFFEE_FD_FREE. */
  datatype FileDesc = FileDesc(offset: int, file: int, flags: byte)

  const CFS_READ := 1
  const CFS_WRITE := 2
  const CFS_APPEND := 4

  /** The C string at the start of a buffer. */
  function CStr(b: seq<byte>): seq<byte> {
    if b == [] || b[0] == 0 then [] else [b[0]] + CStr(b[1..])
  }

  /** A C string that fits the name field of a header. */
  predicate NameFits(name: seq<byte>) { NAME_LENGTH - 1 <= |name| && |CStr(name)| <= NAME_LENGTH - 1 }

  lemma {:induction false} CStrPrefix(b: seq<byte>, n: nat)
    requires |CStr(b)| <= n <= |b|
    ensures CStr(b[..n] + [0]) == CStr(b)
  {
    if b != [] && b[0] != 0 {
      assert (b[..n] + [0])[1..] == b[1..][..n - 1] + [0];
      CStrPrefix(b[1..], n - 1);
    }
  }

  lemma {:induction false} CStrShort(b: seq<byte>, k: nat)
    requires k < |b| && b[k] == 0
    ensures |CStr(b)| <= k
  {
    if k > 0 {
      CStrShort(b[1..], k - 1);
    }
  }

  /** A name taken from a header fits, and storing it again gives the same bytes. */
  lemma HeaderNameFits(name: seq<byte>)
    requires |name| == NAME_LENGTH && name[NAME_LENGTH - 1] == 0
    ensures NameFits(name) && StoredName(name) == name
  {
    CStrShort(name, NAME_LENGTH - 1);
  }

  lemma StoredNameReads(name: seq<byte>)
    requires NameFits(name)
    ensures CStr(StoredName(name)) == CStr(name)
  {
    CStrPrefix(name, NAME_LENGTH - 1);
  }

  // ----- descriptors and reference counts -----

  /** FD_VALID and the access mode at once. */
  predicate CanUse(fds: seq<FileDesc>, fd: int, mode: int)
    requires mode > 0
  {
    0 <= fd < |fds| && fds[fd].flags != 0 && Bit(fds[fd].flags, mode)
  }

  function Refers(d: FileDesc, slot: int): nat { if d.flags != 0 && d.file == slot then 1 else 0 }

  /** The number of open descriptors on a slot. */
  function RefCount(fds: seq<FileDesc>, slot: int): nat {
    if fds == [] then 0 else RefCount(fds[..|fds| - 1], slot) + Refers(fds[|fds| - 1], slot)
  }

  lemma {:induction false} RefCountUpdate(fds: seq<FileDesc>, k: nat, d: FileDesc, slot: int)
    requires k < |fds|
    ensures RefCount(fds[k := d], slot) == RefCount(fds, slot) - Refers(fds[k], slot) + Refers(d, slot)
  {
    var n := |fds| - 1;
    if k < n {
      assert fds[k := d][..n] == fds[..n][k := d];
      RefCountUpdate(fds[..n], k, d, slot);
    } else {
      assert fds[k := d][..n] == fds[..n];
    }
  }

  lemma {:induction false} RefCountMember(fds: seq<FileDesc>, k: nat, slot: int)
    requires k < |fds| && Refers(fds[k], slot) == 1
    ensures RefCount(fds, slot) >= 1
  {
    if k < |fds| - 1 {
      RefCountMember(fds[..|fds| - 1], k, slot);
    }
  }

  lemma {:induction false} RefCountSame(fds: seq<FileDesc>, fds': seq<FileDesc>, slot: int, slot': int)
    requires |fds| == |fds'| && forall k :: 0 <= k < |fds| ==> Refers(fds[k], slot) == Refers(fds'[k], slot')
    ensures RefCount(fds, slot) == RefCount(fds', slot')
  {
    if fds != [] {
      RefCountSame(fds[..|fds| - 1], fds'[..|fds| - 1], slot, slot');
    }
  }

  lemma {:induction false} RefCountNone(fds: seq<FileDesc>, slot: int)
    requires forall k :: 0 <= k < |fds| ==> Refers(fds[k], slot) == 0
    ensures RefCount(fds, slot) == 0
  {
    if fds != [] {
      RefCountNone(fds[..|fds| - 1], slot);
    }
  }

  // ----- invariants -----

  /** A slot in use describes an active extent; for a file it also knows the end, the log fill
      and, while unlogged, that nothing was written past the end. */
  predicate SlotOk(g: Geometry, f: Flash, o: FileObject) {
    if o.maxPages == 0 then o.references == 0
    else
      && 0 <= o.page && o.page in Files(g, f)
      && var h := HeaderAt(g, f, o.page);
      && h.maxPages == o.maxPages && o.modified == h.modified
      && (h.log ==> o.references == 0)
      && (!h.log ==>
            && -1 <= o.end <= Capacity(g, f, o.page) && (o.references > 0 ==> 0 <= o.end)
            && (o.recordCount == -1 || (h.modified && h.logPage >= 0
               && o.recordCount == FirstFree(g, f, h.logPage, 0, Records(g, h))))
            && (0 <= o.end && !h.modified ==> ZeroRange(f, DataStart(g, o.page) + o.end, g.At(o.page + o.maxPages))))
  }

  /** An open descriptor points into a file slot, at an offset within the file. */
  predicate FdOk(g: Geometry, f: Flash, files: seq<FileObject>, d: FileDesc) {
    d.flags != 0 ==>
      && 0 <= d.file < |files|
      && var o := files[d.file];
         o.maxPages > 0 && 0 <= o.page && !HeaderAt(g, f, o.page).log && 0 <= d.offset <= o.end
  }

  predicate Clash(g: Geometry, f: Flash, o: FileObject, p: FileObject) {
    && o.maxPages > 0 && p.maxPages > 0 && 0 <= o.page && 0 <= p.page
    && !HeaderAt(g, f, o.page).log && !HeaderAt(g, f, p.page).log
    && CStr(HeaderAt(g, f, o.page).name) == CStr(HeaderAt(g, f, p.page).name)
  }

  ghost predicate CacheOk(g: Geometry, f: Flash, files: seq<FileObject>, fds: seq<FileDesc>) {
    && |files| == g.maxOpenFiles && |fds| == g.fdSetSize
    && (forall i :: 0 <= i < |files| ==> SlotOk(g, f, files[i]))
    && (forall i, j :: 0 <= i < j < |files| && files[i].maxPages > 0 && files[j].maxPages > 0 ==>
       files[i].page != files[j].page)
    && (forall k :: 0 <= k < |fds| ==> FdOk(g, f, files, fds[k]))
    && (forall i :: 0 <= i < |files| ==> files[i].references == RefCount(fds, i))
  }

  /** No two cached files have the same name. */
  ghost predicate NamesOk(g: Geometry, f: Flash, files: seq<FileObject>) {
    forall i, j :: 0 <= i < j < |files| ==> !Clash(g, f, files[i], files[j])
  }

  /** The same for all slots but one. */
  ghost predicate NamesOkBut(g: Geometry, f: Flash, files: seq<FileObject>, slot: int) {
    forall i, j :: 0 <= i < j < |files| && i != slot && j != slot ==> !Clash(g, f, files[i], files[j])
  }

  ghost predicate Inv(g: Geometry, f: Flash, files: seq<FileObject>, fds: seq<FileDesc>) {
    DiskOk(g, f) && CacheOk(g, f, files, fds) && NamesOk(g, f, files)
  }

  // ----- frames -----

  /** Every extent of f is still there, unchanged. */
  ghost predicate AllKept(g: Geometry, f: Flash, f': Flash) {
    forall p :: p in Files(g, f) ==> p in Files(g, f') && Kept(g, f, f', p) && HeaderAt(g, f', p) == HeaderAt(g, f, p)
  }

  lemma SlotKept(g: Geometry, f: Flash, f': Flash, o: FileObject)
    requires LayoutOk(g, f) && SlotOk(g, f, o)
    requires o.maxPages > 0 && 0 <= o.page ==>
               && FileOk(g, f, o.page) && o.page in Files(g, f')
               && HeaderAt(g, f', o.page) == HeaderAt(g, f, o.page) && FileKept(g, f, f', o.page)
    ensures SlotOk(g, f', o)
  {
    hide HeaderAt, Path, Good, Actives, TableOk, HeaderStored, FirstFree, Quot, Encode;
    if o.maxPages > 0 {
      var h := HeaderAt(g, f, o.page);
      if h.modified {
        var n, rs := Records(g, h), RecordSize(g, h);
        TimesMono(0, n, rs);
        FirstFreeFrame(g, f, f', h.logPage, 0, n);
      }
    }
  }

  lemma CacheKept(g: Geometry, f: Flash, f': Flash, files: seq<FileObject>, fds: seq<FileDesc>)
    requires DiskOk(g, f) && LayoutOk(g, f') && AllKept(g, f, f') && CacheOk(g, f, files, fds)
    ensures CacheOk(g, f', files, fds)
    ensures NamesOk(g, f, files) ==> NamesOk(g, f', files)
    ensures forall slot :: NamesOkBut(g, f, files, slot) ==> NamesOkBut(g, f', files, slot)
  {
    hide HeaderAt, Path, Good, Actives, TableOk, HeaderStored, FirstFree, Quot, Kept, ZeroRange, CStr, RefCount;
    forall i | 0 <= i < |files| ensures SlotOk(g, f', files[i]) {
      SlotKept(g, f, f', files[i]);
    }
    forall i, j | 0 <= i < j < |files| ensures Clash(g, f', files[i], files[j]) == Clash(g, f, files[i], files[j]) {
      assert SlotOk(g, f, files[i]) && SlotOk(g, f, files[j]);
    }
    forall k | 0 <= k < |fds| ensures FdOk(g, f', files, fds[k]) {
      assert FdOk(g, f, files, fds[k]);
      if fds[k].flags != 0 { assert SlotOk(g, f, files[fds[k].file]); }
    }
  }

  /** Referenced slots keep their objects. */
  predicate RefsKept(files: seq<FileObject>, files': seq<FileObject>) {
    |files'| == |files| && forall i :: 0 <= i < |files| && files[i].references > 0 ==> files'[i] == files[i]
  }

  // ----- loading a slot -----

  /** What load_file puts into a slot. */
  function Loaded(g: Geometry, f: Flash, page: nat): FileObject {
    FileObject(-1, page, MaxPages(g, f, page), -1, 0, HeaderAt(g, f, page).modified)
  }

  /** The slot at index i, if it is in use, does not hold this page. */
  predicate OtherPage(files: seq<FileObject>, slot: int, page: int) {
    forall j :: 0 <= j < |files| && j != slot && files[j].maxPages > 0 ==> files[j].page != page
  }

  lemma LoadedSlotOk(g: Geometry, f: Flash, page: nat)
    requires DiskOk(g, f) && page in Files(g, f)
    ensures SlotOk(g, f, Loaded(g, f, page)) && Loaded(g, f, page).maxPages > 0
  {
    hide HeaderAt, Path, Good, Actives, TableOk, HeaderStored, FirstFree;
    ActiveFacts(g, f, 0, g.Pages(), page);
  }

  lemma CacheLoaded(g: Geometry, f: Flash, files: seq<FileObject>, fds: seq<FileDesc>, slot: nat, o: FileObject)
    requires CacheOk(g, f, files, fds) && slot < |files| && files[slot].references == 0
    requires SlotOk(g, f, o) && o.references == 0 && (o.maxPages > 0 ==> OtherPage(files, slot, o.page))
    ensures CacheOk(g, f, files[slot := o], fds)
  {
    hide HeaderAt, SlotOk, RefCount;
    forall k | 0 <= k < |fds| ensures FdOk(g, f, files[slot := o], fds[k]) {
      assert FdOk(g, f, files, fds[k]);
      if fds[k].flags != 0 && fds[k].file == slot {
        RefCountMember(fds, k, slot);
      }
    }
  }

  ghost predicate NoCachedName(g: Geometry, f: Flash, files: seq<FileObject>, slot: int, name: seq<byte>) {
    forall j :: 0 <= j < |files| && j != slot && files[j].maxPages > 0 && 0 <= files[j].page
        && !HeaderAt(g, f, files[j].page).log
      ==> CStr(name) != CStr(HeaderAt(g, f, files[j].page).name)
  }

  lemma NamesLoaded(g: Geometry, f: Flash, files: seq<FileObject>, slot: nat, o: FileObject)
    requires slot < |files| && 0 <= o.page && NamesOkBut(g, f, files, slot)
    requires HeaderAt(g, f, o.page).log || NoCachedName(g, f, files, slot, HeaderAt(g, f, o.page).name)
    ensures NamesOk(g, f, files[slot := o])
  {
    hide HeaderAt, CStr;
    var files' := files[slot := o];
    forall i, j | 0 <= i < j < |files'| ensures !Clash(g, f, files'[i], files'[j]) {
      if i != slot && j != slot {
        assert !Clash(g, f, files[i], files[j]);
      }
    }
  }

  /** No file on the device has this name. */
  ghost predicate NoSuchFile(g: Geometry, f: Flash, p: nat, q: nat, name: seq<byte>) {
    forall x :: x in Actives(g, f, p, q) && !HeaderAt(g, f, x).log ==> CStr(name) != CStr(HeaderAt(g, f, x).name)
  }

  /** find_file's test on a header. */
  predicate Matches(h: Header, name: seq<byte>) { h.Active() && !h.log && CStr(name) == CStr(h.name) }

  lemma ScanMisses(g: Geometry, f: Flash, page: nat, name: seq<byte>)
    requires Wf(g, f) && Path(g, f, 0, page) && Path(g, f, page, g.Pages()) && page < g.Pages()
    requires NoSuchFile(g, f, 0, page, name) && !Matches(HeaderAt(g, f, page), name)
    ensures var n := Next(g, f, page);
      page < n <= g.Pages() && Path(g, f, 0, n) && Path(g, f, n, g.Pages()) && NoSuchFile(g, f, 0, n, name)
  {
    hide HeaderAt, CStr, Good;
    var n := Next(g, f, page);
    assert Path(g, f, page, n);
    ActivesTrans(g, f, 0, page, n);
    assert Actives(g, f, page, n) == (if HeaderAt(g, f, page).Active() then {page} else {}) + Actives(g, f, n, n);
  }

  lemma ScanHits(g: Geometry, f: Flash, page: nat, name: seq<byte>)
    requires LayoutOk(g, f) && Path(g, f, 0, page) && page < g.Pages() && Matches(HeaderAt(g, f, page), name)
    ensures page in Files(g, f)
  {
    hide HeaderAt, CStr, Good, Path, Actives;
    ActiveIfOnPath(g, f, 0, g.Pages(), page);
  }

  /** A file found by scanning, after the cache was searched in vain, is in no other slot. */
  lemma ScannedIsUncached(g: Geometry, f: Flash, files: seq<FileObject>, fds: seq<FileDesc>, page: nat,
                          name: seq<byte>, slot: nat)
    requires CacheOk(g, f, files, fds) && Matches(HeaderAt(g, f, page), name) && NoCachedName(g, f, files, -1, name)
    ensures OtherPage(files, slot, page) && NoCachedName(g, f, files, slot, HeaderAt(g, f, page).name)
  {
    hide HeaderAt, CStr, RefCount, FdOk;
    forall j | 0 <= j < |files| && j != slot && files[j].maxPages > 0 ensures files[j].page != page {
      assert SlotOk(g, f, files[j]);
    }
  }

  lemma SlotInUse(g: Geometry, f: Flash, o: FileObject)
    requires SlotOk(g, f, o) && o.maxPages > 0 && DiskOk(g, f)
    ensures 0 <= o.page && o.page in Files(g, f) && HeaderAt(g, f, o.page).Active() && o.page < g.Pages()
  {
    hide HeaderAt, Path, Good, Actives, FirstFree, ZeroRange;
    ActiveFacts(g, f, 0, g.Pages(), o.page);
  }

  lemma DiskLayout(g: Geometry, f: Flash)
    requires DiskOk(g, f)
    ensures LayoutOk(g, f) && Path(g, f, 0, 0) && Actives(g, f, 0, 0) == {}
  {}

  lemma UnusedIsUnreferenced(g: Geometry, f: Flash, files: seq<FileObject>, fds: seq<FileDesc>, slot: nat)
    requires CacheOk(g, f, files, fds) && slot < |files| && (files[slot].maxPages == 0 || files[slot].references == 0)
    ensures files[slot].references == 0
  {}

  // ----- reservation -----

  /** A new extent was added to f; everything in f is still there. */
  ghost predicate Reserved(g: Geometry, f: Flash, f': Flash, page: nat, h: Header) {
    && DiskOk(g, f') && AllKept(g, f, f') && page !in Files(g, f) && Files(g, f') == Files(g, f) + {page}
    && HeaderAt(g, f', page) == h && h.maxPages >= 1 && page + h.maxPages < g.Pages()
    && ZeroRange(f', DataStart(g, page), g.At(page + h.maxPages))
  }

  lemma AllKeptTrans(g: Geometry, f: Flash, f1: Flash, f2: Flash)
    requires DiskOk(g, f) && Wf(g, f1) && AllKept(g, f, f1) && AllKept(g, f1, f2)
    ensures AllKept(g, f, f2)
  {
    hide HeaderAt, Path, Good, Actives, FileOk;
    forall p | p in Files(g, f)
      ensures Kept(g, f, f2, p)
    {
      assert Kept(g, f, f1, p) && Kept(g, f1, f2, p);
    }
  }

  lemma CollectedKeeps(g: Geometry, f: Flash, f': Flash)
    requires DiskOk(g, f) && LayoutOk(g, f') && Files(g, f') == Files(g, f)
    requires forall x :: x in Files(g, f) ==> Kept(g, f, f', x)
    ensures DiskOk(g, f') && AllKept(g, f, f')
  {
    hide HeaderAt, Path, Good, Actives, FileOk, Kept;
    DiskKept(g, f, f');
  }

  /** Writing the header of the new extent; the space under it was erased. */
  lemma ReserveWrites(g: Geometry, f: Flash, start: nat, amount: nat, stop: nat, h: Header)
    requires DiskOk(g, f) && FreeRun(g, f, start, amount, stop) && 1 <= amount && start + amount < g.Pages()
    requires |h.name| == NAME_LENGTH && h.name[NAME_LENGTH - 1] == 0 && h == NewHeader(amount, h.log, h.name)
    ensures h.Encodable() && g.At(start) + HEADER_SIZE <= |f|
    ensures OnlySets(f[g.At(start)..g.At(start) + HEADER_SIZE], Encode(h))
    ensures Reserved(g, f, WithHeader(g, f, start, h), start, h)
  {
    hide HeaderAt, Path, Good, Actives, FileOk, Kept, Encode;
    AtMono(g, start, start + amount);
    StopsAreOrdered(g, f, start, stop);
    AtMono(g, start + 1, stop);
    AtMono(g, stop, g.Pages());
    assert Zeros(f[g.At(start)..g.At(start) + HEADER_SIZE]);
    ErasedTakesAnything(f[g.At(start)..g.At(start) + HEADER_SIZE], Encode(h));
    assert h.Encodable();
    DiskReserved(g, f, start, amount, stop, h);
  }

  /** The object reserve hands out. */
  function FreshObject(page: nat, h: Header): FileObject
    requires 0 <= h.maxPages
  {
    FileObject(0, page, h.maxPages, -1, 0, false)
  }

  lemma ReservedCache(g: Geometry, f: Flash, f': Flash, files: seq<FileObject>, fds: seq<FileDesc>, page: nat,
                      h: Header, slot: nat)
    requires DiskOk(g, f) && CacheOk(g, f, files, fds) && Reserved(g, f, f', page, h) && !h.modified
    requires slot < |files| && files[slot].references == 0
    ensures CacheOk(g, f', files[slot := FreshObject(page, h)], fds)
  {
    hide HeaderAt, Path, Good, Actives, FileOk, Kept, RefCount, Clash, FdOk;
    CacheKept(g, f, f', files, fds);
    forall j | 0 <= j < |files| && j != slot && files[j].maxPages > 0 ensures files[j].page != page {
      assert SlotOk(g, f, files[j]);
    }
    FreshSlotOk(g, f, f', page, h);
    CacheLoaded(g, f', files, fds, slot, FreshObject(page, h));
  }

  lemma FreshSlotOk(g: Geometry, f: Flash, f': Flash, page: nat, h: Header)
    requires Reserved(g, f, f', page, h) && !h.modified
    ensures SlotOk(g, f', FreshObject(page, h)) && FreshObject(page, h).maxPages > 0
  {
    hide HeaderAt, Path, Good, Actives, Kept, LogOk, HeaderStored, Encode;
    assert FileOk(g, f', page);
  }

  /** The new name clashes with nothing unless the caller allowed a duplicate. */
  lemma ReservedNames(g: Geometry, f: Flash, f': Flash, files: seq<FileObject>, fds: seq<FileDesc>, page: nat,
                      h: Header, slot: nat)
    requires DiskOk(g, f) && CacheOk(g, f, files, fds) && NamesOk(g, f, files) && Reserved(g, f, f', page, h)
             && slot < |files|
    ensures NamesOkBut(g, f', files[slot := FreshObject(page, h)], slot)
    ensures h.log || NoCachedName(g, f, files, slot, h.name) ==> NamesOk(g, f', files[slot := FreshObject(page, h)])
  {
    hide HeaderAt, Path, Good, Actives, FileOk, Kept, RefCount, Clash, FdOk, CStr;
    CacheKept(g, f, f', files, fds);
    if h.log || NoCachedName(g, f, files, slot, h.name) {
      CachedNamesKept(g, f, f', files, fds, slot, h.name);
      NamesLoaded(g, f', files, slot, FreshObject(page, h));
    }
  }

  lemma CachedNamesKept(g: Geometry, f: Flash, f': Flash, files: seq<FileObject>, fds: seq<FileDesc>, slot: int,
                        name: seq<byte>)
    requires DiskOk(g, f) && CacheOk(g, f, files, fds) && AllKept(g, f, f')
    ensures NoCachedName(g, f, files, slot, name) ==> NoCachedName(g, f', files, slot, name)
  {
    hide HeaderAt, Path, Good, Actives, FileOk, Kept, RefCount, FdOk, CStr;
    forall j | 0 <= j < |files| && files[j].maxPages > 0 && 0 <= files[j].page
      ensures HeaderAt(g, f', files[j].page) == HeaderAt(g, f, files[j].page)
    {
      assert SlotOk(g, f, files[j]);
    }
  }

  lemma StoredNameIsNew(g: Geometry, f: Flash, files: seq<FileObject>, slot: int, name: seq<byte>)
    requires NameFits(name) && NoCachedName(g, f, files, -1, name)
    ensures NoCachedName(g, f, files, slot, StoredName(name))
  {
    hide HeaderAt, CStr, StoredName;
    StoredNameReads(name);
  }

  lemma KeptRefl(g: Geometry, f: Flash)
    ensures AllKept(g, f, f)
  {}

  lemma UnreferencedSlot(files: seq<FileObject>, files': seq<FileObject>, slot: nat)
    requires slot < |files| == |files'| && files[slot].references == 0 && files' == files[slot := files'[slot]]
    ensures RefsKept(files, files')
  {}

  lemma ReservedSince(g: Geometry, f0: Flash, f1: Flash, f2: Flash, files: seq<FileObject>, fds: seq<FileDesc>,
                      page: nat, h: Header)
    requires DiskOk(g, f0) && DiskOk(g, f1) && AllKept(g, f0, f1) && Files(g, f1) == Files(g, f0)
             && Reserved(g, f1, f2, page, h)
    requires CacheOk(g, f0, files, fds) && NamesOk(g, f0, files)
    ensures Reserved(g, f0, f2, page, h) && DiskOk(g, f2) && AllKept(g, f0, f2) && CacheOk(g, f2, files, fds)
            && NamesOk(g, f2, files)
  {
    hide HeaderAt, Path, Good, Actives, FileOk, Kept, RefCount, FdOk, CStr, SlotOk, Clash;
    AllKeptTrans(g, f0, f1, f2);
    CacheKept(g, f0, f2, files, fds);
  }

  // ----- files in use -----

  /** A slot that holds a file with a known end. */
  ghost predicate FileReady(g: Geometry, f: Flash, o: FileObject) {
    DiskOk(g, f) && SlotOk(g, f, o) && o.maxPages > 0 && 0 <= o.page && !HeaderAt(g, f, o.page).log && 0 <= o.end
  }

  /** The descriptor, if open, reads a file in use. */
  ghost predicate FdReady(g: Geometry, f: Flash, files: seq<FileObject>, d: FileDesc) {
    d.flags != 0 ==> 0 <= d.file < |files| && FileReady(g, f, files[d.file]) && 0 <= d.offset <= files[d.file].end
  }

  lemma FdIsReady(g: Geometry, f: Flash, files: seq<FileObject>, fds: seq<FileDesc>, k: nat)
    requires DiskOk(g, f) && CacheOk(g, f, files, fds) && k < |fds|
    ensures FdReady(g, f, files, fds[k])
  {
    hide HeaderAt, Path, Good, Actives, RefCount, DiskOk, Refers, Clash;
    if fds[k].flags != 0 {
      assert FdOk(g, f, files, fds[k]);
      RefersOpen(fds, k);
      RefCountMember(fds, k, fds[k].file);
      assert SlotOk(g, f, files[fds[k].file]);
    }
  }

  lemma RefersOpen(fds: seq<FileDesc>, k: nat)
    requires k < |fds| && fds[k].flags != 0
    ensures Refers(fds[k], fds[k].file) == 1
  {}

  lemma ReadyFacts(g: Geometry, f: Flash, o: FileObject)
    requires FileReady(g, f, o)
    ensures o.page in Files(g, f) && o.page < g.Pages() && o.end <= Capacity(g, f, o.page)
            && o.modified == HeaderAt(g, f, o.page).modified
    ensures LayoutOk(g, f) && FileOk(g, f, o.page) && HeaderAt(g, f, o.page).Active()
            && o.maxPages == MaxPages(g, f, o.page)
    ensures var h := HeaderAt(g, f, o.page);
      h.logPage >= 0 ==>
        o.recordCount == -1 || (h.modified && o.recordCount == FirstFree(g, f, h.logPage, 0, Records(g, h)))
    ensures DataStart(g, o.page) + o.end <= |f|
  {
    hide HeaderAt, Path, Good, Actives, HeaderStored, LogOk, FirstFree, ZeroRange;
    ActiveFacts(g, f, 0, g.Pages(), o.page);
    AtMono(g, o.page + MaxPages(g, f, o.page), g.Pages());
  }

  lemma BaseView(g: Geometry, f: Flash, o: FileObject, off: nat, n: nat)
    requires FileReady(g, f, o) && !HeaderAt(g, f, o.page).modified && off + n <= o.end
    ensures DataStart(g, o.page) + off + n <= |f|
    ensures f[DataStart(g, o.page) + off..DataStart(g, o.page) + off + n] == View(g, f, o.page, off, n)
  {
    hide HeaderAt, FileReady, Capacity, DataStart, Actives, Path, FileOk;
    ReadyFacts(g, f, o);
    var a := DataStart(g, o.page) + off;
    var v := View(g, f, o.page, off, n);
    forall j | 0 <= j < n ensures v[j] == f[a..a + n][j] {
      ViewOfBase(g, f, o.page, off + j);
    }
  }

  lemma ViewOfBase(g: Geometry, f: Flash, q: nat, i: nat)
    requires !HeaderAt(g, f, q).modified
    ensures ViewByte(g, f, q, i) == ByteAt(f, DataStart(g, q) + i)
  {
    hide HeaderAt;
  }

  /** A file in use is read chunk by chunk through its log. */
  lemma LogView(g: Geometry, f: Flash, o: FileObject, off: nat, chunk: nat)
    requires FileReady(g, f, o) && HeaderAt(g, f, o.page).modified && off + chunk <= o.end
    requires Rem(off, RecordSize(g, HeaderAt(g, f, o.page))) + chunk <= RecordSize(g, HeaderAt(g, f, o.page))
    ensures var src := ChunkSource(g, f, o.page, off);
      0 <= src && src + chunk <= |f| && f[src..src + chunk] == View(g, f, o.page, off, chunk)
  {
    hide HeaderAt, FileReady, Capacity, DataStart, Actives, Path, FileOk, DiskOk, View, ChunkSource, Quot;
    ReadyFacts(g, f, o);
    ReadyDisk(g, f, o);
    ChunkView(g, f, o.page, off, chunk);
  }

  lemma ReadyDisk(g: Geometry, f: Flash, o: FileObject)
    requires FileReady(g, f, o)
    ensures DiskOk(g, f)
  {}

  lemma {:induction false} ViewConcat(g: Geometry, f: Flash, q: nat, off: nat, m: nat, n: nat)
    ensures View(g, f, q, off, m) + View(g, f, q, off + m, n) == View(g, f, q, off, m + n)
  {
    hide View, ViewByte;
    var a, b, c := View(g, f, q, off, m), View(g, f, q, off + m, n), View(g, f, q, off, m + n);
    forall j | 0 <= j < m + n ensures (a + b)[j] == c[j] {
      if j >= m { assert (a + b)[j] == b[j - m] == ViewByte(g, f, q, off + m + (j - m)); }
    }
  }

  lemma ViewEmpty(g: Geometry, f: Flash, q: nat, off: nat)
    ensures View(g, f, q, off, 0) == []
  {}

  // ----- opening and closing -----

  lemma CacheOpened(g: Geometry, f: Flash, files: seq<FileObject>, fds: seq<FileDesc>, fd: nat, slot: nat,
                    d: FileDesc, o: FileObject)
    requires Inv(g, f, files, fds) && fd < |fds| && fds[fd].flags == 0 && slot < |files|
    requires files[slot].maxPages > 0 && 0 <= files[slot].page && !HeaderAt(g, f, files[slot].page).log
    requires d.flags != 0 && d.file == slot && 0 <= d.offset <= o.end
    requires files[slot].end <= o.end && o == files[slot].(end := o.end, references := files[slot].references + 1)
             && SlotOk(g, f, o)
    ensures Inv(g, f, files[slot := o], fds[fd := d])
  {
    hide HeaderAt, RefCount, DiskOk, SlotOk, CStr;
    var files', fds' := files[slot := o], fds[fd := d];
    forall i | 0 <= i < |files'| ensures files'[i].references == RefCount(fds', i) {
      RefCountUpdate(fds, fd, d, i);
    }
    forall k | 0 <= k < |fds'| ensures FdOk(g, f, files', fds'[k]) {
      assert FdOk(g, f, files, fds[k]);
    }
    forall i, j | 0 <= i < j < |files'| ensures !Clash(g, f, files'[i], files'[j]) {
      assert !Clash(g, f, files[i], files[j]);
    }
  }

  lemma CacheClosed(g: Geometry, f: Flash, files: seq<FileObject>, fds: seq<FileDesc>, fd: nat)
    requires Inv(g, f, files, fds) && fd < |fds| && fds[fd].flags != 0
    ensures 0 <= fds[fd].file < |files| && 1 <= files[fds[fd].file].references
    ensures var slot := fds[fd].file;
      Inv(g, f, files[slot := files[slot].(references := files[slot].references - 1)],
          fds[fd := fds[fd].(flags := 0, file := -1)])
  {
    hide HeaderAt, RefCount, DiskOk, CStr, ZeroRange, FirstFree, Refers;
    assert FdOk(g, f, files, fds[fd]);
    var slot := fds[fd].file;
    RefersOpen(fds, fd);
    RefCountMember(fds, fd, slot);
    var files', fds' := files[slot := files[slot].(references := files[slot].references - 1)],
        fds[fd := fds[fd].(flags := 0, file := -1)];
    forall i | 0 <= i < |files'| ensures files'[i].references == RefCount(fds', i) {
      RefCountUpdate(fds, fd, fds'[fd], i);
      RefersFacts(fds[fd], fds'[fd], i);
    }
    assert SlotOk(g, f, files[slot]);
    forall i | 0 <= i < |files'| ensures SlotOk(g, f, files'[i]) {
      assert SlotOk(g, f, files[i]);
    }
    forall k | 0 <= k < |fds'| ensures FdOk(g, f, files', fds'[k]) {
      assert FdOk(g, f, files, fds[k]);
    }
    forall i, j | 0 <= i < j < |files'| ensures !Clash(g, f, files'[i], files'[j]) {
      assert !Clash(g, f, files[i], files[j]);
    }
  }

  lemma RefersFacts(d: FileDesc, closed: FileDesc, i: int)
    requires d.flags != 0 && closed.flags == 0
    ensures Refers(closed, i) == 0 && Refers(d, i) == if d.file == i then 1 else 0
  {}

  /** A slot may learn its end: what lies beyond it is erased if the file has no log. */
  lemma EndLearned(g: Geometry, f: Flash, o: FileObject, end: nat)
    requires SlotOk(g, f, o) && o.maxPages > 0 && !HeaderAt(g, f, o.page).log && end <= Capacity(g, f, o.page)
    requires ZeroRange(f, DataStart(g, o.page) + end, g.At(o.page + o.maxPages)) || (0 <= o.end <= end)
    ensures SlotOk(g, f, o.(end := end))
  {
    hide HeaderAt, FirstFree;
  }

  /** The cache after slot objects changed only in their end. */
  lemma CacheEnd(g: Geometry, f: Flash, files: seq<FileObject>, fds: seq<FileDesc>, slot: nat, end: nat)
    requires Inv(g, f, files, fds) && slot < |files| && files[slot].end <= end && SlotOk(g, f, files[slot].(end := end))
    ensures Inv(g, f, files[slot := files[slot].(end := end)], fds)
  {
    hide HeaderAt, RefCount, DiskOk, SlotOk, CStr;
    var files' := files[slot := files[slot].(end := end)];
    forall k | 0 <= k < |fds| ensures FdOk(g, f, files', fds[k]) {
      assert FdOk(g, f, files, fds[k]);
    }
    forall i, j | 0 <= i < j < |files'| ensures !Clash(g, f, files'[i], files'[j]) {
      assert !Clash(g, f, files[i], files[j]);
    }
  }

  /** The cache after one open descriptor moved within its file. */
  lemma CacheMoved(g: Geometry, f: Flash, files: seq<FileObject>, fds: seq<FileDesc>, fd: nat, offset: nat)
    requires CacheOk(g, f, files, fds) && fd < |fds| && fds[fd].flags != 0 && 0 <= fds[fd].file < |files|
             && offset <= files[fds[fd].file].end
    ensures CacheOk(g, f, files, fds[fd := fds[fd].(offset := offset)])
  {
    hide HeaderAt, RefCount, SlotOk;
    var d := fds[fd].(offset := offset);
    forall i | 0 <= i < |files| ensures files[i].references == RefCount(fds[fd := d], i) {
      RefCountUpdate(fds, fd, d, i);
    }
    assert FdOk(g, f, files, fds[fd]);
  }

  // ----- dropping extents -----

  function DropObject(o: FileObject): FileObject { o.(page := -1, maxPages := 0, references := 0) }

  predicate Gone(o: FileObject, gone: set<nat>) { 0 <= o.page && o.page in gone }

  /** The slots after every object of a removed extent was invalidated. */
  predicate SlotsDropped(files: seq<FileObject>, files': seq<FileObject>, gone: set<nat>) {
    |files'| == |files| && forall i :: 0 <= i < |files| ==>
        files'[i] == if Gone(files[i], gone) then DropObject(files[i]) else files[i]
  }

  /** The extents in gone left the device; the rest is kept and needs none of them. */
  ghost predicate Shrunk(g: Geometry, f: Flash, f': Flash, gone: set<nat>) {
    && DiskOk(g, f') && Files(g, f') == Files(g, f) - gone
    && (forall p :: p in Files(g, f') ==> Kept(g, f, f', p) && HeaderAt(g, f', p) == HeaderAt(g, f, p))
    && (forall p :: p in Files(g, f') && HeaderAt(g, f, p).modified ==> HeaderAt(g, f, p).logPage !in gone)
  }

  lemma CacheDropped(g: Geometry, f: Flash, f': Flash, gone: set<nat>, files: seq<FileObject>,
                     files': seq<FileObject>, fds: seq<FileDesc>)
    requires DiskOk(g, f) && Shrunk(g, f, f', gone) && SlotsDropped(files, files', gone)
    requires |files| == g.maxOpenFiles && |fds| == g.fdSetSize
    requires forall i :: 0 <= i < |files| ==> SlotOk(g, f, files[i])
    requires forall i, j :: 0 <= i < j < |files| && files[i].maxPages > 0 && files[j].maxPages > 0 ==>
             files[i].page != files[j].page
    requires forall k :: 0 <= k < |fds| ==> FdOk(g, f, files, fds[k])
                                            && (fds[k].flags != 0 ==> !Gone(files[fds[k].file], gone))
    requires forall i :: 0 <= i < |files| && !Gone(files[i], gone) ==> files[i].references == RefCount(fds, i)
    ensures CacheOk(g, f', files', fds)
  {
    hide HeaderAt, Path, Good, Actives, RefCount, Kept, FileOk;
    forall i | 0 <= i < |files| ensures SlotOk(g, f', files'[i]) && files'[i].references == RefCount(fds, i) {
      if Gone(files[i], gone) {
        NobodyRefers(g, f, files, fds, gone, i);
      } else {
        SurvivorKept(g, f, f', gone, files[i]);
      }
    }
    forall k | 0 <= k < |fds| ensures FdOk(g, f', files', fds[k]) {
      assert FdOk(g, f, files, fds[k]);
      if fds[k].flags != 0 {
        assert SlotOk(g, f, files[fds[k].file]);
      }
    }
  }

  lemma NobodyRefers(g: Geometry, f: Flash, files: seq<FileObject>, fds: seq<FileDesc>, gone: set<nat>, slot: nat)
    requires slot < |files| && Gone(files[slot], gone)
    requires forall k :: 0 <= k < |fds| ==> FdOk(g, f, files, fds[k])
                                            && (fds[k].flags != 0 ==> !Gone(files[fds[k].file], gone))
    ensures RefCount(fds, slot) == 0
  {
    hide HeaderAt, RefCount;
    forall k | 0 <= k < |fds| ensures Refers(fds[k], slot) == 0 {
      assert FdOk(g, f, files, fds[k]);
    }
    RefCountNone(fds, slot);
  }

  lemma SurvivorKept(g: Geometry, f: Flash, f': Flash, gone: set<nat>, o: FileObject)
    requires DiskOk(g, f) && Shrunk(g, f, f', gone) && SlotOk(g, f, o) && !Gone(o, gone)
    ensures SlotOk(g, f', o)
  {
    hide HeaderAt, Path, Good, Actives, FirstFree, ZeroRange, TableOk, HeaderStored, Kept;
    if o.maxPages > 0 {
      assert FileOk(g, f, o.page);
      SlotKept(g, f, f', o);
    }
  }

  lemma NamesDropped(g: Geometry, f: Flash, f': Flash, gone: set<nat>, files: seq<FileObject>, files': seq<FileObject>)
    requires Shrunk(g, f, f', gone) && SlotsDropped(files, files', gone) && forall i :: 0 <= i < |files| ==>
             SlotOk(g, f, files[i])
    ensures forall i, j :: 0 <= i < j < |files| && Clash(g, f', files'[i], files'[j]) ==>
            Clash(g, f, files[i], files[j]) && !Gone(files[i], gone) && !Gone(files[j], gone)
  {
    hide HeaderAt, Path, Good, Actives, FirstFree, ZeroRange, Kept, CStr;
    forall i | 0 <= i < |files| && files'[i].maxPages > 0
      ensures !Gone(files[i], gone) && 0 <= files[i].page
              && HeaderAt(g, f', files[i].page) == HeaderAt(g, f, files[i].page)
    {
      assert SlotOk(g, f, files[i]);
    }
  }

  /** A closed descriptor may point anywhere. */
  lemma CacheFreeFd(g: Geometry, f: Flash, files: seq<FileObject>, fds: seq<FileDesc>, fd: nat, d: FileDesc)
    requires Inv(g, f, files, fds) && fd < |fds| && fds[fd].flags == 0 && d.flags == 0
    ensures Inv(g, f, files, fds[fd := d])
  {
    hide HeaderAt, RefCount, DiskOk, SlotOk, CStr, Clash;
    forall i | 0 <= i < |files| ensures files[i].references == RefCount(fds[fd := d], i) {
      RefCountUpdate(fds, fd, d, i);
    }
  }

  /** Open descriptors keep their state, closed ones stay closed. */
  predicate FdsKept(fds: seq<FileDesc>, fds': seq<FileDesc>) {
    |fds'| == |fds| && forall k :: 0 <= k < |fds| ==> if fds[k].flags == 0 then fds'[k].flags == 0
        else fds'[k] == fds[k]
  }

  /** A file object of this name, in use or left over from a closed file. */
  predicate Held(g: Geometry, f: Flash, files: seq<FileObject>, s: int, name: seq<byte>) {
    && 0 <= s < |files| && files[s].maxPages > 0 && 0 <= files[s].page
    && !HeaderAt(g, f, files[s].page).log && CStr(name) == CStr(HeaderAt(g, f, files[s].page).name)
  }

  /** A cached file in use under this name. */
  predicate Cached(g: Geometry, f: Flash, files: seq<FileObject>, s: int, name: seq<byte>) {
    Held(g, f, files, s, name) && files[s].references > 0
  }

  lemma NoClash(g: Geometry, f: Flash, files: seq<FileObject>, i: nat, j: nat)
    requires NamesOk(g, f, files) && i < |files| && j < |files| && i != j
    ensures !Clash(g, f, files[i], files[j])
  {
    hide HeaderAt, CStr;
    if i < j {
      assert !Clash(g, f, files[i], files[j]);
    } else {
      assert !Clash(g, f, files[j], files[i]);
    }
  }

  /** The name of a cached file leads find_file to its slot. */
  lemma CachedIsFound(g: Geometry, f: Flash, files: seq<FileObject>, slot: int, s: int, name: seq<byte>)
    requires NamesOk(g, f, files) && Held(g, f, files, s, name)
    requires slot < 0 ==> NoCachedName(g, f, files, -1, name)
    requires slot >= 0 ==> slot < |files| && files[slot].maxPages > 0 && 0 <= files[slot].page
                           && Matches(HeaderAt(g, f, files[slot].page), name)
    ensures slot == s
  {
    hide HeaderAt, CStr, NamesOk;
    if slot >= 0 && slot != s {
      NoClash(g, f, files, slot, s);
    }
  }

  lemma RoomBounds(g: Geometry, f: Flash, q: nat)
    requires DiskOk(g, f) && q in Files(g, f)
    ensures q < g.Pages() && 1 <= MaxPages(g, f, q) && HeaderAt(g, f, q).maxPages == MaxPages(g, f, q)
    ensures g.At(q + MaxPages(g, f, q)) <= |f| == g.Size() && 0 <= Capacity(g, f, q)
  {
    hide HeaderAt, Path, Good, Actives, LogOk, HeaderStored, ConfigOk;
    assert FileOk(g, f, q);
    ActiveFacts(g, f, 0, g.Pages(), q);
    AtMono(g, q + MaxPages(g, f, q), g.Pages());
  }

  /** What file_end finds: one past the last nonzero data byte of the base extent. */
  predicate IsBaseEnd(g: Geometry, f: Flash, q: nat, end: int) {
    && 0 <= end <= Capacity(g, f, q) && ZeroRange(f, DataStart(g, q) + end, g.At(q + MaxPages(g, f, q)))
    && (end > 0 ==> ByteAt(f, DataStart(g, q) + end - 1) != 0)
  }

  /** Where the end of an opened file comes from: the cached object, if it was still there with a known end;
      or else file_end, for a file on the device; a new file starts out empty. */
  ghost predicate EndFound(g: Geometry, f0: Flash, files0: seq<FileObject>, slot: int, page: int, end: int)
  {
    && 0 <= slot < |files0| && 0 <= page
    && if page !in Files(g, f0) then end == 0
       else if files0[slot].maxPages > 0 && files0[slot].page == page
           && files0[slot].end >= 0 then end == files0[slot].end
       else IsBaseEnd(g, f0, page, end)
  }

  lemma BaseEndUnique(g: Geometry, f: Flash, q: nat, m: int, n: int)
    requires Wf(g, f) && IsBaseEnd(g, f, q, m) && IsBaseEnd(g, f, q, n) && g.At(q + MaxPages(g, f, q)) <= |f|
    ensures m == n
  {
    hide HeaderAt, MaxPages;
    CapacityIs(g, f, q);
  }

  /** The end of a file whose object was dropped from the cache while it was closed. For an unlogged file it
      is the old end exactly if that was 0 or the last byte is nonzero; what was logged never counts. */
  lemma EndAfterEviction(g: Geometry, f: Flash, o: FileObject, end: int)
    requires DiskOk(g, f) && SlotOk(g, f, o) && o.maxPages > 0 && 0 <= o.page && !HeaderAt(g, f, o.page).log
             && 0 <= o.end
    requires IsBaseEnd(g, f, o.page, end)
    ensures !o.modified ==> end <= o.end && (end == o.end <==> o.end == 0 || ViewByte(g, f, o.page, o.end - 1) != 0)
    ensures o.modified ==>
      (end == o.end <==> ZeroRange(f, DataStart(g, o.page) + o.end, g.At(o.page + o.maxPages))
                         && (o.end == 0 || ByteAt(f, DataStart(g, o.page) + o.end - 1) != 0))
  {
    hide HeaderAt, Path, Good, Actives, DiskOk, FirstFree;
    RoomBounds(g, f, o.page);
    DiskLayout(g, f);
    CapacityIs(g, f, o.page);
    if ZeroRange(f, DataStart(g, o.page) + o.end, g.At(o.page + o.maxPages))
        && (o.end == 0 || ByteAt(f, DataStart(g, o.page) + o.end - 1) != 0) {
      BaseEndUnique(g, f, o.page, end, o.end);
    }
  }

  lemma BaseEndFacts(g: Geometry, f: Flash, q: nat, end: int)
    requires IsBaseEnd(g, f, q, end)
    ensures 0 <= end <= Capacity(g, f, q) && ZeroRange(f, DataStart(g, q) + end, g.At(q + MaxPages(g, f, q)))
  {}

  /** Where the end of a file that find_file delivered is to come from. */
  lemma FoundEnd(g: Geometry, f: Flash, files0: seq<FileObject>, files: seq<FileObject>, fds: seq<FileDesc>,
                 slot: nat, name: seq<byte>)
    requires Inv(g, f, files, fds) && |files| == |files0| && slot < |files|
    requires files[slot].maxPages > 0 && 0 <= files[slot].page && Matches(HeaderAt(g, f, files[slot].page), name)
    requires files != files0 ==> NoCachedName(g, f, files0, -1, name) && files[slot].end == -1
    ensures files[slot].page in Files(g, f)
    ensures files[slot].end >= 0 ==> EndFound(g, f, files0, slot, files[slot].page, files[slot].end)
    ensures files[slot].end < 0 ==> forall end: int :: IsBaseEnd(g, f, files[slot].page, end) ==>
            EndFound(g, f, files0, slot, files[slot].page, end)
  {
    hide HeaderAt, CStr, DiskOk, NamesOk, Actives, RefCount, FirstFree, ZeroRange, Capacity, IsBaseEnd, FdOk;
    assert SlotOk(g, f, files[slot]);
  }

  /** find_file leads to the slot that holds the name, if there is one. */
  lemma HeldIsDelivered(g: Geometry, f: Flash, files0: seq<FileObject>, files: seq<FileObject>, slot: int,
                        name: seq<byte>)
    requires NamesOk(g, f, files0) && |files| == |files0| && -1 <= slot < |files|
    requires slot < 0 || files != files0 ==> NoCachedName(g, f, files0, -1, name)
    requires slot >= 0 ==> files[slot].maxPages > 0 && 0 <= files[slot].page
                           && Matches(HeaderAt(g, f, files[slot].page), name)
    ensures forall s :: Held(g, f, files0, s, name) ==> slot == s && files == files0
  {
    hide HeaderAt, CStr, NamesOk;
    forall s | Held(g, f, files0, s, name) ensures slot == s && files == files0 {
      if slot >= 0 && files == files0 {
        CachedIsFound(g, f, files0, slot, s, name);
      }
    }
  }

  /** find_file or reserve delivered this slot; nothing in use was disturbed. */
  ghost predicate Delivered(g: Geometry, f0: Flash, f: Flash, files0: seq<FileObject>, files: seq<FileObject>,
                            fds: seq<FileDesc>, slot: int, name: seq<byte>)
  {
    && Inv(g, f, files, fds) && AllKept(g, f0, f) && RefsKept(files0, files) && 0 <= slot < |files|
    && files[slot].references == files0[slot].references
    && files[slot].maxPages > 0 && 0 <= files[slot].page && !HeaderAt(g, f, files[slot].page).log
    && CStr(HeaderAt(g, f, files[slot].page).name) == CStr(name)
    && (forall s :: Cached(g, f0, files0, s, name) ==> s == slot && f == f0 && files == files0)
  }

  /** The outcome of a successful cfs_open. */
  ghost predicate Opened(g: Geometry, f0: Flash, f: Flash, files0: seq<FileObject>, files: seq<FileObject>,
                         fds0: seq<FileDesc>, fds: seq<FileDesc>,
                         fd: int, name: seq<byte>, flags: byte)
  {
    && |files| == |files0| && |fds| == |fds0| && 0 <= fd < |fds| && fds0[fd].flags == 0 && 0 <= fds[fd].file < |files|
    && var slot := fds[fd].file;
    && files[slot].maxPages > 0 && 0 <= files[slot].page && 0 <= files[slot].end
    && fds == fds0[fd := FileDesc(if Bit(flags, CFS_APPEND) then files[slot].end else 0, slot, flags)]
    && files[slot].references == files0[slot].references + 1
    && (files0[slot].references > 0 ==> files[slot] == files0[slot].(references := files[slot].references))
    && (forall i :: 0 <= i < |files| && i != slot && files0[i].references > 0 ==> files[i] == files0[i])
    && CStr(HeaderAt(g, f, files[slot].page).name) == CStr(name)
    && (forall s :: Cached(g, f0, files0, s, name) ==> s == slot && f == f0 && files == files0[s := files[s]])
  }

  lemma DeliveredByFind(g: Geometry, f: Flash, files0: seq<FileObject>, files: seq<FileObject>, fds: seq<FileDesc>,
                        slot: int, name: seq<byte>)
    requires Inv(g, f, files0, fds) && Inv(g, f, files, fds) && RefsKept(files0, files)
    requires 0 <= slot < |files| && files[slot].maxPages > 0 && 0 <= files[slot].page
             && Matches(HeaderAt(g, f, files[slot].page), name)
    requires files != files0 ==> files0[slot].references == 0 && files == files0[slot := Loaded(g, f, files[slot].page)]
    ensures Delivered(g, f, f, files0, files, fds, slot, name)
  {
    hide HeaderAt, CStr, DiskOk, CacheOk, Actives;
    forall s | Cached(g, f, files0, s, name) ensures s == slot && files == files0 {
      assert files[s] == files0[s];
      CachedIsFound(g, f, files, slot, s, name);
    }
  }

  lemma DeliveredByReserve(g: Geometry, f0: Flash, f: Flash, files0: seq<FileObject>, files: seq<FileObject>,
                           fds: seq<FileDesc>, slot: int, name: seq<byte>, pages: nat)
    requires NameFits(name) && Inv(g, f0, files0, fds) && Inv(g, f, files, fds) && AllKept(g, f0, f)
             && RefsKept(files0, files)
    requires 0 <= slot < |files| && files0[slot].references == 0 && files[slot].page >= 0
    requires files[slot] == FreshObject(files[slot].page, NewHeader(pages, false, StoredName(name))) && 1 <= pages
    requires HeaderAt(g, f, files[slot].page) == NewHeader(pages, false, StoredName(name))
    requires NoCachedName(g, f0, files0, -1, name)
    ensures Delivered(g, f0, f, files0, files, fds, slot, name)
  {
    hide HeaderAt, CStr, DiskOk, CacheOk, Actives, NamesOk;
    StoredNameReads(name);
  }

  /** Setting an unknown end. */
  lemma DeliveredEnd(g: Geometry, f0: Flash, f: Flash, files0: seq<FileObject>, files: seq<FileObject>,
                     fds: seq<FileDesc>, slot: int, name: seq<byte>, end: nat)
    requires Delivered(g, f0, f, files0, files, fds, slot, name) && 0 <= slot < |files| && files[slot].end == -1
             && 0 <= files[slot].page
    requires end <= Capacity(g, f, files[slot].page) && ZeroRange(f, DataStart(g, files[slot].page) + end,
             g.At(files[slot].page + files[slot].maxPages))
    requires |files0| == |files| && Inv(g, f0, files0, fds)
    ensures forall s :: !Cached(g, f0, files0, s, name)
    ensures Delivered(g, f0, f, files0, files[slot := files[slot].(end := end)], fds, slot, name)
  {
    hide HeaderAt, CStr, DiskOk, Actives, NamesOk, RefCount, Clash, FdOk, AllKept;
    assert SlotOk(g, f, files[slot]);
    assert files[slot].references == 0;
    EndLearned(g, f, files[slot], end);
    CacheEnd(g, f, files, fds, slot, end);
  }

  lemma DeliveredPage(g: Geometry, f0: Flash, f: Flash, files0: seq<FileObject>, files: seq<FileObject>,
                      fds: seq<FileDesc>, slot: int, name: seq<byte>)
    requires Delivered(g, f0, f, files0, files, fds, slot, name)
    ensures 0 <= slot < |files| == |files0| && 0 <= files[slot].page && DiskOk(g, f)
            && files[slot].page in Files(g, f) && files[slot].maxPages == MaxPages(g, f, files[slot].page)
            && -1 <= files[slot].end
  {
    hide HeaderAt, CStr, DiskOk, Actives, NamesOk, RefCount, Clash, FdOk, AllKept, ZeroRange, FirstFree;
    assert SlotOk(g, f, files[slot]);
  }

  lemma OpenCompletes(g: Geometry, f0: Flash, f: Flash, files0: seq<FileObject>, files: seq<FileObject>,
                      fds: seq<FileDesc>, slot: int, name: seq<byte>,
                      fd: nat, d: FileDesc, o: FileObject, flags: byte)
    requires Delivered(g, f0, f, files0, files, fds, slot, name) && |files0| == |files|
    requires fd < |fds| && fds[fd].flags == 0 && 0 <= files[slot].end
    requires o == files[slot].(references := files[slot].references + 1)
    requires d == FileDesc(if Bit(flags, CFS_APPEND) then files[slot].end else 0, slot, flags)
    ensures Opened(g, f0, f, files0, files[slot := o], fds, fds[fd := d], fd, name, flags)
    ensures Inv(g, f, files[slot := o], fds[fd := d]) <==> flags != 0
  {
    hide HeaderAt, CStr, DiskOk, Actives, NamesOk, RefCount, Clash, FdOk, AllKept, ZeroRange, FirstFree, Bit;
    assert SlotOk(g, f, files[slot]);
    assert SlotOk(g, f, o);
    RefCountUpdate(fds, fd, d, slot);
    if flags != 0 {
      CacheOpened(g, f, files, fds, fd, slot, d, o);
    }
  }

  lemma TablesUnchanged(files: seq<FileObject>, fds: seq<FileDesc>, fd: nat)
    requires fd < |fds| && fds[fd].flags == 0
    ensures RefsKept(files, files) && FdsKept(fds, fds) && FdsKept(fds, fds[fd := fds[fd].(file := -1)])
  {}

  lemma NothingHappened(files: seq<FileObject>, fds: seq<FileDesc>)
    ensures RefsKept(files, files) && FdsKept(fds, fds)
  {}

  lemma DeliveredSizes(g: Geometry, f0: Flash, f: Flash, files0: seq<FileObject>, files: seq<FileObject>,
                       fds: seq<FileDesc>, slot: int, name: seq<byte>)
    requires Delivered(g, f0, f, files0, files, fds, slot, name)
    ensures |files0| == |files| && 0 <= slot < |files|
  {}

  /** The slot load_file takes: the first free one, or if there is none the last one without open descriptors. */
  predicate Chosen(files: seq<FileObject>, slot: int) {
    && 0 <= slot < |files|
    && if files[slot].maxPages == 0 then forall i :: 0 <= i < slot ==> files[i].maxPages > 0
       else && files[slot].references == 0 && (forall i :: slot < i < |files| ==> files[i].references > 0)
            && forall i :: 0 <= i < |files| ==> files[i].maxPages > 0
  }

  predicate HasFree(files: seq<FileObject>) { exists i :: 0 <= i < |files| && files[i].maxPages == 0 }

  /** The slot of a file found in the cache. */
  lemma HeldHere(g: Geometry, f: Flash, files: seq<FileObject>, fds: seq<FileDesc>, slot: nat, name: seq<byte>)
    requires Inv(g, f, files, fds) && slot < |files| && files[slot].maxPages > 0 && 0 <= files[slot].page
             && Matches(HeaderAt(g, f, files[slot].page), name)
    ensures Held(g, f, files, slot, name)
  {
    hide HeaderAt, CStr;
  }

  /** The object of another file stays if it was not touched and its extent was kept. */
  lemma HeldKept(g: Geometry, f: Flash, f': Flash, files: seq<FileObject>, fds: seq<FileDesc>, s: int, name: seq<byte>)
    requires Inv(g, f, files, fds) && Held(g, f, files, s, name) && AllKept(g, f, f')
    ensures 0 <= s < |files| && files[s].maxPages > 0 && 0 <= files[s].page && files[s].page in Files(g, f)
    ensures HeaderAt(g, f', files[s].page) == HeaderAt(g, f, files[s].page)
  {
    hide HeaderAt, Actives, CStr, ZeroRange, FirstFree, RefCount, Clash;
    assert SlotOk(g, f, files[s]);
  }

  lemma HeldAlike(g: Geometry, f: Flash, files: seq<FileObject>, files': seq<FileObject>, s: int, name: seq<byte>)
    requires Held(g, f, files, s, name) && |files'| == |files|
    requires files'[s].page == files[s].page && files'[s].maxPages == files[s].maxPages
    ensures Held(g, f, files', s, name)
  {
    hide HeaderAt, CStr;
  }

  lemma FreeSlotsGo(files: seq<FileObject>, files': seq<FileObject>, s: int)
    requires 0 <= s < |files| == |files'| && files' == files[s := files'[s]]
             && files[s].maxPages > 0 && files'[s].maxPages > 0
    ensures HasFree(files') ==> HasFree(files)
  {}

  /** Only that slot was given another object. */
  predicate Taken(files: seq<FileObject>, files': seq<FileObject>, slot: int) {
    Chosen(files, slot) && |files'| == |files| && files' == files[slot := files'[slot]]
  }

  /** No cached object was lost or changed but those of the given extents, and the one load_file takes when no
      slot is free. */
  predicate Spared(files: seq<FileObject>, files': seq<FileObject>, own: set<nat>) {
    && |files'| == |files|
    && forall i :: 0 <= i < |files| && files[i].maxPages > 0 && !Gone(files[i], own) && files'[i] != files[i] ==>
         Chosen(files, i)
  }

  /** What reserve promises is a delivery when no cached file has the name. */
  lemma ReservedFile(g: Geometry, f0: Flash, f: Flash, files0: seq<FileObject>, files: seq<FileObject>,
                     fds: seq<FileDesc>, slot: int, name: seq<byte>, pages: nat)
    requires NameFits(name) && Inv(g, f0, files0, fds) && DiskOk(g, f) && CacheOk(g, f, files, fds)
             && AllKept(g, f0, f) && RefsKept(files0, files)
    requires 0 <= slot < |files| && |files0| == |files| && files0[slot].references == 0 && files[slot].page >= 0
             && 1 <= pages
    requires files[slot] == FreshObject(files[slot].page, NewHeader(pages, false, StoredName(name)))
    requires Reserved(g, f0, f, files[slot].page, NewHeader(pages, false, StoredName(name)))
    requires NoCachedName(g, f0, files0, -1, name)
    requires NoCachedName(g, f0, files0, slot, StoredName(name)) ==> NamesOk(g, f, files)
    ensures Delivered(g, f0, f, files0, files, fds, slot, name) && files[slot].page !in Files(g, f0)
            && files[slot].end == 0
  {
    hide HeaderAt, DiskOk, CacheOk, Actives, NamesOk, CStr;
    StoredNameReads(name);
    DeliveredByReserve(g, f0, f, files0, files, fds, slot, name, pages);
  }

  /** Page number page of an extent of n pages. */
  lemma PageBounds(g: Geometry, start: nat, page: nat, n: nat)
    requires g.Ok() && page < n
    ensures g.At(start + page) == g.At(start) + g.At(page)
            && g.At(start + page) + g.pageSize == g.At(start + page + 1) <= g.At(start + n)
    ensures (page > 0 ==> HEADER_SIZE <= g.At(page)) && (page == 0 ==> g.At(page) == 0)
  {
    TimesAdd(start, page, g.pageSize);
    AtMono(g, start + page + 1, start + n);
    if page > 0 { AtMono(g, 1, page); }
  }

  lemma CountsMatch(g: Geometry, f: Flash, files: seq<FileObject>, fds: seq<FileDesc>)
    requires CacheOk(g, f, files, fds)
    ensures forall i :: 0 <= i < |files| ==> files[i].references == RefCount(fds, i)
  {}

  lemma TableSize(g: Geometry, f: Flash, files: seq<FileObject>, fds: seq<FileDesc>)
    requires CacheOk(g, f, files, fds)
    ensures |files| == g.maxOpenFiles && |fds| == g.fdSetSize
  {}

  // ----- seeking -----

  /** Where a seek is to go. */
  function SeekTarget(d: FileDesc, o: FileObject, offset: int, whence: int): int {
    if whence == 0 then offset else if whence == 1 then d.offset + offset else o.end + offset
  }

  /** A seek keeps the invariant if and only if it lands within the usable capacity. */
  lemma SeekEffect(g: Geometry, f: Flash, files: seq<FileObject>, fds: seq<FileDesc>, fd: nat, r: nat)
    requires Inv(g, f, files, fds) && fd < |fds| && fds[fd].flags != 0 && 0 <= fds[fd].file < |files|
    requires FileReady(g, f, files[fds[fd].file])
    ensures var slot := fds[fd].file;
      var o := files[slot];
      Inv(g, f, files[slot := o.(end := if o.end < r then r else o.end)], fds[fd := fds[fd].(offset := r)]) <==>
          r <= Capacity(g, f, o.page)
  {
    hide HeaderAt, DiskOk, NamesOk, RefCount, Clash, Capacity, ZeroRange, FirstFree, Actives;
    var slot := fds[fd].file;
    var o := files[slot];
    var end := if o.end < r then r else o.end;
    ReadyFacts(g, f, o);
    if r <= Capacity(g, f, o.page) {
      EndLearned(g, f, o, end);
      CacheEnd(g, f, files, fds, slot, end);
      CacheMoved(g, f, files[slot := o.(end := end)], fds, fd, r);
    } else {
      assert !SlotOk(g, f, files[slot := o.(end := end)][slot]);
    }
  }

  /** Behind the capacity lies the header of the next extent. A read after a seek to there delivers its bytes,
      and a write there, as merge_log does it when it copies up to such an end, destroys it. */
  lemma SeekDamage(g: Geometry, f: Flash, q: nat, p: nat, i: nat, b: byte)
    requires DiskOk(g, f) && q in Files(g, f) && p in Files(g, f) && p == q + MaxPages(g, f, q)
    requires Capacity(g, f, q) <= i < Capacity(g, f, q) + HEADER_SIZE
    ensures HeaderAt(g, f, p).Encodable() && DataStart(g, q) + i < |f|
    ensures var there := Encode(HeaderAt(g, f, p))[i - Capacity(g, f, q)];
      && (!HeaderAt(g, f, q).modified ==> ViewByte(g, f, q, i) == there)
      && (b != there ==> !HeaderStored(g, Written(f, DataStart(g, q) + i, [b]), p, HeaderAt(g, f, p)))
  {
    hide HeaderAt, Path, Good, Actives, LogOk, ConfigOk, Encode;
    RoomBounds(g, f, p);
    assert FileOk(g, f, p);
    var k := i - Capacity(g, f, q);
    assert f[g.At(p)..DataStart(g, p)][k] == f[DataStart(g, q) + i];
    var f' := Written(f, DataStart(g, q) + i, [b]);
    if HeaderStored(g, f', p, HeaderAt(g, f, p)) {
      assert f'[g.At(p)..DataStart(g, p)][k] == b;
    }
  }

  // ----- removal -----

  function CloseIf(files: seq<FileObject>, d: FileDesc, page: int): FileDesc {
    if 0 <= d.file < |files| && files[d.file].page == page then d.(flags := 0) else d
  }

  /** The descriptor table after every descriptor on the extent was closed. */
  function ClosedFds(files: seq<FileObject>, fds: seq<FileDesc>, page: int): (r: seq<FileDesc>)
    ensures |r| == |fds| && forall k :: 0 <= k < |fds| ==> r[k] == CloseIf(files, fds[k], page)
  {
    if fds == [] then [] else ClosedFds(files, fds[..|fds| - 1], page) + [CloseIf(files, fds[|fds| - 1], page)]
  }

  function LogOf(h: Header): nat { if h.logPage < 0 then 0 else h.logPage }

  /** The extents one removal takes out: the file and, if asked for, its log. */
  function RemovedPages(g: Geometry, f: Flash, page: nat, removeLog: bool): set<nat> {
    var h := HeaderAt(g, f, page);
    if removeLog && h.modified && h.logPage >= 0 then {page, h.logPage} else {page}
  }

  /** The device after a removal. */
  function RemovedFrom(g: Geometry, f: Flash, page: nat, removeLog: bool): Flash {
    var h := HeaderAt(g, f, page);
    if !(Wf(g, f) && page < g.Pages() && h.Encodable()) then f
    else if removeLog && h.modified && 0 <= h.logPage < g.Pages() && HeaderAt(g, f, h.logPage).Encodable() then
      WithHeader(g, Obsoleted(g, f, h.logPage), page, ObsoleteHeader(h))
    else
      Obsoleted(g, f, page)
  }

  lemma RemovalTarget(g: Geometry, f: Flash, page: nat)
    requires DiskOk(g, f) && page in Files(g, f)
    ensures Wf(g, f) && page < g.Pages() && HeaderAt(g, f, page).Active() && HeaderAt(g, f, page).Encodable()
            && FileOk(g, f, page)
    ensures HeaderAt(g, f, page).modified ==> HeaderAt(g, f, page).logPage >= 0
  {
    hide HeaderAt, Path, Good, Actives, HeaderStored, TableOk, ConfigOk;
    assert FileOk(g, f, page);
    ActiveFacts(g, f, 0, g.Pages(), page);
  }

  lemma LogIsTarget(g: Geometry, f: Flash, page: nat)
    requires DiskOk(g, f) && page in Files(g, f) && HeaderAt(g, f, page).modified
    ensures var h := HeaderAt(g, f, page);
      h.logPage >= 0 && h.logPage != page && h.logPage in Files(g, f) && HeaderAt(g, f, h.logPage).log
          && !HeaderAt(g, f, h.logPage).modified
  {
    hide HeaderAt, Path, Good, Actives, HeaderStored, TableOk, ConfigOk;
    assert FileOk(g, f, page);
    assert FileOk(g, f, HeaderAt(g, f, page).logPage);
  }

  /** The header of the file survives the removal of its log, and may be marked in place. */
  lemma AfterLogRemoval(g: Geometry, f: Flash, page: nat, removeLog: bool)
    requires DiskOk(g, f) && page in Files(g, f)
    ensures page < g.Pages() && Wf(g, f) && HeaderAt(g, f, page).Encodable()
    ensures var h := HeaderAt(g, f, page);
      var f1 := if removeLog && h.modified then RemovedFrom(g, f, LogOf(h), false) else f;
      && g.At(page) + HEADER_SIZE <= |f1|
      && OnlySets(f1[g.At(page)..g.At(page) + HEADER_SIZE], Encode(ObsoleteHeader(h)))
      && WithHeader(g, f1, page, ObsoleteHeader(h)) == RemovedFrom(g, f, page, removeLog)
  {
    hide HeaderAt, Path, Good, Actives, Encode, DiskOk, FileOk, OnlySets;
    RemovalTarget(g, f, page);
    var h := HeaderAt(g, f, page);
    RefinesObsolete(h);
    HeaderUpdateOnlySets(g, f, page, ObsoleteHeader(h));
    if removeLog && h.modified {
      LogIsTarget(g, f, page);
      RemovalTarget(g, f, h.logPage);
      DiskLayout(g, f);
      PositiveSize(g, f, page);
      ObsoletedLayout(g, f, h.logPage);
      var f1 := Obsoleted(g, f, h.logPage);
      HeaderBytesKept(g, f, f1, page);
    }
  }

  /** A removal keeps next_free right; gc_wait is cleared. */
  lemma RemovedStops(g: Geometry, f: Flash, page: nat, removeLog: bool, x: nat, wait: bool, strayed: bool)
    requires DiskOk(g, f) && page in Files(g, f) && Placed(g, f, x, wait, strayed)
    ensures Placed(g, RemovedFrom(g, f, page, removeLog), x, false, strayed)
  {
    hide HeaderAt, Path, Good, Actives, Encode, DiskOk, FileOk, Kept, Placed;
    RemovalTarget(g, f, page);
    DiskLayout(g, f);
    PlacedFreely(g, f, x, wait, strayed);
    var h := HeaderAt(g, f, page);
    if removeLog && h.modified {
      LogIsTarget(g, f, page);
      RemovalTarget(g, f, h.logPage);
      ObsoletedLayout(g, f, h.logPage);
      HeaderStops(g, f, h.logPage, ObsoleteHeader(HeaderAt(g, f, h.logPage)), x, false, strayed);
      HeaderStops(g, Obsoleted(g, f, h.logPage), page, ObsoleteHeader(h), x, false, strayed);
    } else {
      HeaderStops(g, f, page, ObsoleteHeader(h), x, false, strayed);
    }
  }

  lemma PositiveSize(g: Geometry, f: Flash, page: nat)
    requires LayoutOk(g, f) && page in Files(g, f)
    ensures 1 <= MaxPages(g, f, page)
  {
    ActiveFacts(g, f, 0, g.Pages(), page);
  }

  lemma RefinesObsolete(h: Header)
    ensures Refines(h, ObsoleteHeader(h))
  {}

  lemma HeaderBytesKept(g: Geometry, f: Flash, f': Flash, page: nat)
    requires Wf(g, f) && page < g.Pages() && Kept(g, f, f', page) && 1 <= MaxPages(g, f, page)
    ensures g.At(page) + HEADER_SIZE <= |f| && f'[g.At(page)..g.At(page) + HEADER_SIZE]
            == f[g.At(page)..g.At(page) + HEADER_SIZE]
  {
    hide HeaderAt;
    AtMono(g, page, page + MaxPages(g, f, page));
    AtMono(g, page, g.Pages());
  }

  /** Invalidating the log's objects and then the file's is invalidating both. */
  lemma DroppedInTurn(g: Geometry, f: Flash, page: nat, removeLog: bool, files0: seq<FileObject>,
                      files1: seq<FileObject>, files: seq<FileObject>)
    requires |files| == |files1| == |files0|
    requires HeaderAt(g, f, page).modified ==> HeaderAt(g, f, page).logPage >= 0
    requires if removeLog && HeaderAt(g, f, page).modified
             then SlotsDropped(files0, files1, {LogOf(HeaderAt(g, f, page))}) else files1 == files0
    requires forall k :: 0 <= k < |files| ==> files[k] == if Gone(files1[k], {page}) then DropObject(files1[k])
             else files1[k]
    ensures SlotsDropped(files0, files, RemovedPages(g, f, page, removeLog))
  {
    hide HeaderAt;
  }

  lemma ClosedAlike(files0: seq<FileObject>, files1: seq<FileObject>, log: nat, page: nat, fds0: seq<FileDesc>,
                    fds: seq<FileDesc>)
    requires |files1| == |files0| && log != page && (files1 == files0 || SlotsDropped(files0, files1, {log}))
    requires |fds| == |fds0| && forall k :: 0 <= k < |fds| ==> fds[k] == CloseIf(files1, fds0[k], page)
    ensures fds == ClosedFds(files0, fds0, page)
  {}

  /** Removing a file takes exactly its extent and its log out of the active set. */
  lemma RemovalShrinks(g: Geometry, f: Flash, page: nat)
    requires DiskOk(g, f) && page in Files(g, f) && !HeaderAt(g, f, page).log
    ensures Shrunk(g, f, RemovedFrom(g, f, page, true), RemovedPages(g, f, page, true))
  {
    hide HeaderAt, Path, Good, Actives, Encode, FileOk, Kept, SharesLog;
    RemovalTarget(g, f, page);
    var h := HeaderAt(g, f, page);
    var gone := RemovedPages(g, f, page, true);
    var f2 := RemovedFrom(g, f, page, true);
    if h.modified {
      LogIsTarget(g, f, page);
      RemovalTarget(g, f, h.logPage);
      ObsoletedLayout(g, f, h.logPage);
      var f1 := Obsoleted(g, f, h.logPage);
      ObsoletedLayout(g, f1, page);
      forall p | p in Files(g, f2) ensures Kept(g, f, f2, p) && HeaderAt(g, f2, p) == HeaderAt(g, f, p) {
        KeptTwice(g, f, f1, f2, p);
      }
      OneOwner(g, f, page);
    } else {
      ObsoletedLayout(g, f, page);
    }
    NotALog(g, f, page);
    DiskDropped(g, f, f2, gone);
  }

  lemma KeptTwice(g: Geometry, f: Flash, f1: Flash, f2: Flash, p: nat)
    requires Kept(g, f, f1, p) && HeaderAt(g, f1, p) == HeaderAt(g, f, p) && Kept(g, f1, f2, p)
    ensures Kept(g, f, f2, p)
  {
    hide HeaderAt;
  }

  /** Removal with closing of the descriptors keeps the whole invariant. */
  lemma RemovalKeepsInv(g: Geometry, f: Flash, files: seq<FileObject>, fds: seq<FileDesc>, page: nat,
                        files': seq<FileObject>, fds': seq<FileDesc>)
    requires Inv(g, f, files, fds) && page in Files(g, f) && !HeaderAt(g, f, page).log
    requires SlotsDropped(files, files', RemovedPages(g, f, page, true)) && fds' == ClosedFds(files, fds, page)
    ensures Inv(g, RemovedFrom(g, f, page, true), files', fds')
  {
    hide HeaderAt, Path, Good, Actives, DiskOk, FileOk, Kept, RemovedFrom, Shrunk, RefCount, ZeroRange, FirstFree,
         CStr, Clash;
    var gone, f' := RemovedPages(g, f, page, true), RemovedFrom(g, f, page, true);
    RemovalShrinks(g, f, page);
    ShrunkDisk(g, f, f', gone);
    LogsAreLogs(g, f, page);
    forall k | 0 <= k < |fds'|
      ensures FdOk(g, f, files, fds'[k]) && (fds'[k].flags != 0 ==> !Gone(files[fds'[k].file], gone))
    {
      assert FdOk(g, f, files, fds[k]);
      assert fds'[k] == CloseIf(files, fds[k], page);
    }
    forall i | 0 <= i < |files| && !Gone(files[i], gone) ensures files[i].references == RefCount(fds', i) {
      forall k | 0 <= k < |fds| ensures Refers(fds[k], i) == Refers(fds'[k], i) {
        assert FdOk(g, f, files, fds[k]);
        assert fds'[k] == CloseIf(files, fds[k], page);
      }
      RefCountSame(fds, fds', i, i);
    }
    CacheDropped(g, f, f', gone, files, files', fds');
    NamesDropped(g, f, f', gone, files, files');
    NamesSurvive(g, f, f', files, files');
  }

  lemma ShrunkDisk(g: Geometry, f: Flash, f': Flash, gone: set<nat>)
    requires Shrunk(g, f, f', gone)
    ensures DiskOk(g, f')
  {}

  lemma LogsAreLogs(g: Geometry, f: Flash, page: nat)
    requires DiskOk(g, f) && page in Files(g, f)
    ensures forall p :: p in RemovedPages(g, f, page, true) && p != page ==> HeaderAt(g, f, p).log
  {
    hide HeaderAt, Path, Good, Actives, DiskOk;
    if HeaderAt(g, f, page).modified {
      LogIsTarget(g, f, page);
    }
  }

  lemma NamesSurvive(g: Geometry, f: Flash, f': Flash, files: seq<FileObject>, files': seq<FileObject>)
    requires |files'| == |files| && NamesOk(g, f, files)
    requires forall i, j :: 0 <= i < j < |files| && Clash(g, f', files'[i], files'[j]) ==>
             Clash(g, f, files[i], files[j])
    ensures NamesOk(g, f', files')
  {
    hide Clash;
  }

  /** What cfs_remove achieves: the file and its log are gone, its descriptors closed, all else kept. */
  ghost predicate Removed(g: Geometry, f0: Flash, f: Flash, files0: seq<FileObject>, files: seq<FileObject>,
                          fds0: seq<FileDesc>, fds: seq<FileDesc>,
                          page: nat, name: seq<byte>) {
    && page in Files(g, f0) && !HeaderAt(g, f0, page).log && CStr(name) == CStr(HeaderAt(g, f0, page).name)
    && f == RemovedFrom(g, f0, page, true)
    && Shrunk(g, f0, f, RemovedPages(g, f0, page, true))
    && |files| == |files0| && |fds| == |fds0|
    && (forall i :: 0 <= i < |files0| && files0[i].references > 0 && files0[i].page != page ==> files[i] == files0[i])
    && Spared(files0, files, RemovedPages(g, f0, page, true))
    && (forall k :: 0 <= k < |fds0| && fds0[k].flags == 0 ==> fds[k].flags == 0)
    && (forall k :: 0 <= k < |fds0| && fds0[k].flags != 0 ==>
          0 <= fds0[k].file < |files0| && fds[k] == if files0[fds0[k].file].page == page then fds0[k].(flags := 0)
              else fds0[k])
  }

  lemma RemovalEffect(g: Geometry, f0: Flash, f: Flash, files0: seq<FileObject>, files1: seq<FileObject>,
                      files: seq<FileObject>,
                      fds0: seq<FileDesc>, fds: seq<FileDesc>, page: nat, name: seq<byte>)
    requires Inv(g, f0, files0, fds0) && RefsKept(files0, files1) && page in Files(g, f0) && !HeaderAt(g, f0, page).log
    requires CStr(name) == CStr(HeaderAt(g, f0, page).name)
    requires f == RemovedFrom(g, f0, page, true) && SlotsDropped(files1, files, RemovedPages(g, f0, page, true))
             && fds == ClosedFds(files1, fds0, page)
    requires files1 == files0 || exists slot :: Taken(files0, files1, slot)
    ensures Removed(g, f0, f, files0, files, fds0, fds, page, name)
  {
    hide HeaderAt, Path, Good, Actives, DiskOk, FileOk, Kept, RemovedFrom, Shrunk, RefCount, ZeroRange, FirstFree,
         CStr, Clash, Chosen;
    RemovalShrinks(g, f0, page);
    LogsAreLogs(g, f0, page);
    forall i | 0 <= i < |files0| && files0[i].references > 0 && files0[i].page != page ensures files[i] == files0[i] {
      assert SlotOk(g, f0, files0[i]);
    }
    forall k | 0 <= k < |fds0| && fds0[k].flags != 0
      ensures 0 <= fds0[k].file < |files0| && fds[k] == if files0[fds0[k].file].page == page
              then fds0[k].(flags := 0) else fds0[k]
    {
      assert FdOk(g, f0, files0, fds0[k]);
      RefersOpen(fds0, k);
      RefCountMember(fds0, k, fds0[k].file);
    }
  }

  lemma FoundPage(g: Geometry, f: Flash, files: seq<FileObject>, fds: seq<FileDesc>, slot: nat)
    requires Inv(g, f, files, fds) && slot < |files| && files[slot].maxPages > 0 && 0 <= files[slot].page
    ensures files[slot].page in Files(g, f)
    ensures forall k :: 0 <= k < |fds| && fds[k].flags != 0 ==> fds[k].file < |files|
  {
    hide HeaderAt, Path, Good, Actives, DiskOk, RefCount, ZeroRange, FirstFree, CStr, Clash;
    assert SlotOk(g, f, files[slot]);
    forall k | 0 <= k < |fds| && fds[k].flags != 0 ensures fds[k].file < |files| {
      assert FdOk(g, f, files, fds[k]);
    }
  }
}
