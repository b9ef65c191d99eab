/** A concrete run that loses a file: the collector lowers next_free to a page inside an obsolete
    extent whose header it retains, the next allocation lands there, and a later collection wipes it. */
module CoffeeHazard {
  import opened CoffeeFlash
  import opened CoffeeLayout
  import opened CoffeeGc
  import opened CoffeeLog
  import opened CoffeeCache
  import opened CoffeeUpdate
  import opened CoffeeEvict
  import opened CoffeeFs

  /** Three sectors of two pages. */
  const G := Geometry(40, 2, 3, 1, 1, 2, 80, 0)

  /** Three names: the empty one, "b" and "c". */
  const NAME_A := Filled(NAME_LENGTH)
  const NAME_B := [98] + Filled(NAME_LENGTH - 1)
  const NAME_C := [99] + Filled(NAME_LENGTH - 1)

  const SMALL_FILE := NewHeader(1, false, NAME_A)
  const BIG_FILE := NewHeader(3, false, NAME_B)
  const REMOVED_FILE := ObsoleteHeader(BIG_FILE)

  lemma Sizes()
    ensures G.Ok() && G.Pages() == 6 && G.Size() == 240 && forall p: nat :: G.At(p) == 40 * p
    ensures SectorStart(G, 0) == 0 && SectorStart(G, 1) == 2 && SectorStart(G, 2) == 4 && SectorStart(G, 3) == 6
  {
    forall p: nat ensures G.At(p) == 40 * p { TimesIsProduct(p, 40); }
    TimesIsProduct(3, 2);
    QuotIsDivision(80, 40);
  }

  lemma Names()
    ensures forall n :: n in {NAME_A, NAME_B, NAME_C} ==> |n| == NAME_LENGTH && NameFits(n) && StoredName(n) == n
    ensures CStr(NAME_A) == [] && CStr(NAME_B) != [] && CStr(NAME_C) != [] && CStr(NAME_B) != CStr(NAME_C)
  {
    HeaderNameFits(NAME_A);
    HeaderNameFits(NAME_B);
    HeaderNameFits(NAME_C);
    assert CStr(NAME_B)[0] == 98 && CStr(NAME_C)[0] == 99;
  }

  /** An active file on page 0. */
  function One(): Flash {
    Sizes();
    WithHeader(G, Filled(240), 0, SMALL_FILE)
  }

  /** Page 0 holds an active file, pages 1 to 3 a removed one that straddles the first two sectors. */
  function Before(): Flash {
    Sizes();
    WithHeader(G, One(), 1, REMOVED_FILE)
  }

  /** The headers of the first sector and the blank last one decide the walk. */
  predicate Headers(f: Flash) {
    |f| == 240 && HeaderAt(G, f, 0) == SMALL_FILE && HeaderAt(G, f, 1) == REMOVED_FILE
  }

  lemma BeforeHeaders()
    ensures Headers(Before()) && ZeroRange(Before(), 80, 240)
  {
    Sizes();
    hide HeaderAt, Encode;
    HeaderWritten(G, Filled(240), 0, SMALL_FILE);
    HeaderWritten(G, One(), 1, REMOVED_FILE);
    HeaderFrame(G, One(), Before(), 0);
  }

  lemma BeforeLayout()
    ensures LayoutOk(G, Before())
  {
    Sizes();
    BeforeHeaders();
    var f := Before();
    hide HeaderAt;
    HeaderErased(G, f, 4);
    NextSectorOf(G, 2, 4);
    assert Path(G, f, 4, 6);
    assert Path(G, f, 1, 6);
  }

  lemma Kinds(f: Flash)
    requires Headers(f)
    ensures KindAt(G, f, 0, 0) == Active && forall x :: 1 <= x < 4 ==> KindAt(G, f, 0, x) == Obsolete
    ensures !OnWalk(G, f, 2)
  {
    Sizes();
    hide HeaderAt;
  }

  lemma SecondSector(f: Flash)
    requires Headers(f)
    ensures Erasable(G, f, 1) && !Erasable(G, f, 0) && FirstErasable(G, f, 0) == 2
  {
    Sizes();
    Kinds(f);
    hide HeaderAt, KindAt;
    assert Count(G, f, 0, false, Active, 0, 2) >= Count(G, f, 0, false, Active, 0, 1) == 1;
    assert Count(G, f, 0, false, Active, 2, 3) == 0 && Count(G, f, 0, false, Active, 2, 4) == 0;
    assert Count(G, f, 0, false, Obsolete, 2, 3) == 1;
  }

  /** After any collection of this device, next_free points off the walk to two erased pages, where the search
      goes next. A file allocated there cannot be found by the walk, and the next collection erases it. */
  lemma CollectorHazard(f: Flash, h: Header)
    requires Collected(G, Before(), f) && h.Encodable() && h.Active()
    ensures LayoutOk(G, Before()) && LoweredNextFree(G, Before(), 4) == 2
    ensures !OnWalk(G, f, 2) && Wf(G, f) && 2 < G.Pages() && !HeaderAt(G, f, 2).alloc
    ensures NextSector(G, 2) == 4 && ZeroRange(f, G.At(2), G.At(4))
    ensures HeaderAt(G, WithHeader(G, f, 2, h), 2) == h && 2 !in Files(G, WithHeader(G, f, 2, h))
    ensures forall f3 :: Collected(G, WithHeader(G, f, 2, h), f3) ==> !HeaderAt(G, f3, 2).Active()
  {
    Sizes();
    BeforeHeaders();
    BeforeLayout();
    hide HeaderAt, KindAt, Encode, Path, Actives, FirstErasable, Erasable;
    SecondSector(Before());
    HeaderFrame(G, Before(), f, 0);
    HeaderFrame(G, Before(), f, 1);
    Kinds(f);
    HeaderErased(G, f, 2);
    NextSectorOf(G, 1, 2);
    assert SectorBlank(G, f, 1);
    var f2 := WithHeader(G, f, 2, h);
    HeaderWritten(G, f, 2, h);
    HeaderFrame(G, f, f2, 0);
    HeaderFrame(G, f, f2, 1);
    Kinds(f2);
    SecondSector(f2);
    LostFile(f2);
    forall f3 | Collected(G, f2, f3) ensures !HeaderAt(G, f3, 2).Active() {
      assert SectorBlank(G, f3, 1);
      HeaderErased(G, f3, 2);
    }
  }

  lemma LostFile(f: Flash)
    requires Headers(f)
    ensures 2 !in Files(G, f)
  {
    Sizes();
    hide HeaderAt;
    assert Actives(G, f, 0, 6) == {0} + Actives(G, f, 1, 6);
    assert Actives(G, f, 1, 6) == Actives(G, f, 4, 6);
    LaterActives(f, 4);
  }

  lemma {:induction false} LaterActives(f: Flash, p: nat)
    ensures forall x :: x in Actives(G, f, p, 6) ==> p <= x
    decreases G.Pages() - p
  {
    hide HeaderAt;
    if p < 6 <= G.Pages() && p < Next(G, f, p) {
      LaterActives(f, Next(G, f, p));
    }
  }

  // ----- a run that gets there -----

  lemma FirstFitIs(g: Geometry, f0: Flash, n0: nat, f: Flash, n: nat, pages: nat, page: int, h: Header, stop: nat)
    requires FirstFit(g, f0, n0, f, n, pages, page, h) && FreeRun(g, f0, n0, pages, stop) && n0 + pages < g.Pages()
    ensures page == n0 && n == n0 + pages
  {
    hide FreeRun, HeaderAt, Encode;
  }

  lemma RoomForOne()
    ensures FreeRun(G, Filled(240), 0, 1, 2) && !NoRun(G, Filled(240), 1, 0, 6) && Wf(G, Filled(240))
  {
    Sizes();
    hide HeaderAt, Encode;
    var f := Filled(240);
    ErasedPath(f, 0);
    RunIsThere(G, f, 1, 0, 0, 2);
  }

  /** On an erased rest of the device the walk goes from sector to sector. */
  lemma ErasedPath(f: Flash, p: nat)
    requires |f| == 240 && p <= 6 && ZeroRange(f, 40 * p, 240)
    ensures Path(G, f, p, 6)
    ensures p < 2 ==> Path(G, f, p, 2)
    ensures p < 4 ==> Path(G, f, p, 4)
    decreases 6 - p
  {
    Sizes();
    hide HeaderAt;
    if p < 6 {
      HeaderErased(G, f, p);
      if p < 2 { NextSectorOf(G, 0, p); } else if p < 4 { NextSectorOf(G, 1, p); } else { NextSectorOf(G, 2, p); }
      ErasedPath(f, if p < 2 then 2 else if p < 4 then 4 else 6);
    }
  }

  lemma RoomForThree()
    ensures FreeRun(G, One(), 1, 3, 4) && !NoRun(G, One(), 3, 1, 6) && Wf(G, One())
  {
    Sizes();
    hide HeaderAt, Encode;
    var f := One();
    HeaderWritten(G, Filled(240), 0, SMALL_FILE);
    ErasedPath(f, 1);
    assert Path(G, f, 0, 1);
    PathTrans(G, f, 0, 1, 6);
    RunIsThere(G, f, 3, 1, 1, 4);
  }

  lemma SamePlace()
    ensures WithHeader(G, WithHeader(G, One(), 1, BIG_FILE), 1, REMOVED_FILE) == Before()
  {
    Sizes();
    hide Encode;
    var f := WithHeader(G, WithHeader(G, One(), 1, BIG_FILE), 1, REMOVED_FILE);
    assert forall i :: 0 <= i < 240 ==> f[i] == Before()[i];
  }

  lemma SpaceAsked()
    ensures PageCount(G, 0) == 1 && PageCount(G, 36) == 2 && PageCount(G, 72) == 3
  {
    QuotIsDivision(75, 40);
    QuotIsDivision(111, 40);
    QuotIsDivision(147, 40);
  }

  /** No slot is taken while no descriptor is open. */
  lemma NothingTaken(g: Geometry, f: Flash, files: seq<FileObject>, fds: seq<FileDesc>)
    requires Inv(g, f, files, fds) && 1 <= g.maxOpenFiles && forall k :: 0 <= k < |fds| ==> fds[k].flags == 0
    ensures |files| >= 1 && files[0].references == 0 && !SlotsTaken(files)
  {
    hide HeaderAt, DiskOk, NamesOk, SlotOk, RefCount;
    RefCountNone(fds, 0);
  }

  /** Where a first reservation goes, and what it leaves. */
  lemma Landed(g: Geometry, f0: Flash, files0: seq<FileObject>, n0: nat, c: Coffee, slot: nat, pages: nat,
               name: seq<byte>, stop: nat)
    requires NAME_LENGTH - 1 <= |name| && c.g == g && c.SetAsideIn(f0, files0, n0, slot, pages, name)
    requires FreeRun(g, f0, n0, pages, stop) && !NoRun(g, f0, pages, n0, g.Pages()) && n0 + pages < g.Pages()
             && Wf(g, f0)
    ensures NewHeader(pages, false, StoredName(name)).Encodable() && n0 < g.Pages()
    ensures c.flash == WithHeader(g, f0, n0, NewHeader(pages, false, StoredName(name))) && c.nextFree == n0 + pages
    ensures Files(g, c.flash) == Files(g, f0) + {n0} && slot < |c.files| == |files0| && c.files[slot].page == n0
    ensures HeaderAt(g, c.flash, n0) == NewHeader(pages, false, StoredName(name))
    ensures forall p :: p in Files(g, f0) ==> HeaderAt(g, c.flash, p) == HeaderAt(g, f0, p)
  {
    hide FreeRun, NoRun, HeaderAt, Encode, Actives, DiskOk, Kept, WithHeader, StoredName, Path;
    FirstFitIs(g, f0, n0, c.flash, c.nextFree, pages, c.files[slot].page, NewHeader(pages, false, StoredName(name)),
               stop);
  }

  lemma NamedFile(g: Geometry, f: Flash, p: nat, name: seq<byte>)
    requires p in Files(g, f) && Matches(HeaderAt(g, f, p), name)
    ensures !NoSuchFile(g, f, 0, g.Pages(), name)
  {
    hide HeaderAt, CStr, Actives;
  }

  lemma AfterRemoval(f2: Flash, f: Flash, files2: seq<FileObject>, files: seq<FileObject>, fds2: seq<FileDesc>,
                     fds: seq<FileDesc>, page: nat)
    requires Wf(G, One()) && f2 == WithHeader(G, One(), 1, BIG_FILE) && HeaderAt(G, f2, 0) == SMALL_FILE
             && HeaderAt(G, f2, 1) == BIG_FILE && Files(G, f2) == {0, 1}
    requires Removed(G, f2, f, files2, files, fds2, fds, page, NAME_B)
    ensures f == Before() && Files(G, f) == {0} && HeaderAt(G, f, 0) == SMALL_FILE
  {
    hide HeaderAt, CStr, Actives, Encode, DiskOk, Kept;
    Sizes();
    Names();
    SamePlace();
    assert page == 1;
  }

  /** Format, and reserve one page. */
  method FirstFile() returns (c: Coffee)
    ensures fresh(c) && c.Valid() && !c.strayed && c.g == G && !c.readsBack && c.flash == One() && c.nextFree == 1
    ensures forall k :: 0 <= k < |c.fds| ==> c.fds[k].flags == 0
    ensures Files(G, c.flash) == {0} && HeaderAt(G, c.flash, 0) == SMALL_FILE
  {
    hide HeaderAt, Encode, DiskOk, CacheOk, NamesOk, FreeRun, NoRun, Actives, CStr, AllKept, Kept, ZeroRange, OnWalk,
         Quot, NoSuchFile, Filled, WithHeader, Shrunk, StoredName, Coffee.SetAsideIn, Strays, Removed;
    Sizes();
    Names();
    SpaceAsked();
    c := new Coffee(G, false);
    RoomForOne();
    ghost var files0 := c.files;
    var r := c.CfsCoffeeReserve(NAME_A, 0);
    NothingTaken(G, c.flash, c.files, c.fds);
    assert r == 0;
    ghost var s0: nat :| c.SetAsideIn(Filled(240), files0, 0, s0, 1, NAME_A);
    Landed(G, Filled(240), files0, 0, c, s0, 1, NAME_A, 2);
  }

  /** Reserve one page, reserve three, remove the second file. */
  method ReachHazard() returns (c: Coffee)
    ensures fresh(c) && c.Valid() && !c.strayed && !c.gcWait && c.g == G && c.flash == Before() && c.nextFree == 4
    ensures Files(G, c.flash) == {0} && HeaderAt(G, c.flash, 0) == SMALL_FILE
  {
    hide HeaderAt, Encode, DiskOk, CacheOk, NamesOk, FreeRun, NoRun, Actives, CStr, AllKept, Kept, ZeroRange, OnWalk,
         Quot, NoSuchFile, Filled, WithHeader, Shrunk, StoredName, Coffee.SetAsideIn, Strays, Removed;
    Sizes();
    Names();
    SpaceAsked();
    c := FirstFile();
    RoomForThree();
    ghost var files1 := c.files;
    var r := c.CfsCoffeeReserve(NAME_B, 72);
    NothingTaken(G, c.flash, c.files, c.fds);
    assert r == 0;
    ghost var s1: nat :| c.SetAsideIn(One(), files1, 1, s1, 3, NAME_B);
    Landed(G, One(), files1, 1, c, s1, 3, NAME_B, 4);
    ghost var f2 := c.flash;
    assert f2 == WithHeader(G, One(), 1, BIG_FILE) && c.nextFree == 4;

    assert HeaderAt(G, f2, 0) == SMALL_FILE && HeaderAt(G, f2, 1) == BIG_FILE && Files(G, f2) == {0, 1};
    NamedFile(G, f2, 1, NAME_B);
    ghost var files2, fds2 := c.files, c.fds;
    r := c.CfsRemove(NAME_B);
    assert r == 0;
    ghost var page: nat :| Removed(G, f2, c.flash, files2, c.files, fds2, c.fds, page, NAME_B);
    AfterRemoval(f2, c.flash, files2, c.files, fds2, c.fds, page);
  }

  /** The next reservation collects, and leaves the walk. */
  method LeaveWalk() returns (c: Coffee, r: int)
    ensures fresh(c) && c.g == G && c.strayed && r == -1
  {
    hide HeaderAt, Encode, DiskOk, CacheOk, NamesOk, FreeRun, Actives, CStr, AllKept, OnWalk, LoweredNextFree, Quot,
         StoredName, FirstErasable, WithHeader;
    Sizes();
    Names();
    SpaceAsked();
    c := ReachHazard();
    BeforeStrays();
    r := c.CfsCoffeeReserve(NAME_C, 36);
  }

  /** From Before() a search for two pages fails, and the collection that follows leaves the walk. */
  lemma BeforeStrays()
    ensures Strays(G, Before(), 4, 2)
  {
    Sizes();
    hide HeaderAt, OnWalk, FirstErasable, Erasable;
    BeforeHeaders();
    SecondSector(Before());
    Kinds(Before());
  }
}
