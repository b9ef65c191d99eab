/** What the allocator may rely on between calls: no free page lies before next_free, and while gc_wait is set
    a collection would make no room. */
module CoffeeSpace {
  import opened CoffeeFlash
  import opened CoffeeLayout
  import opened CoffeeGc

  /** No stop of the walk before page n is free. */
  predicate Packed(g: Geometry, f: Flash, n: nat) {
    forall p: nat :: p < n && OnWalk(g, f, p) ==> HeaderAt(g, f, p).alloc
  }

  /** Every sector a collection would erase is blank already. */
  predicate Settled(g: Geometry, f: Flash) {
    forall s: nat :: s < g.sectors && Erasable(g, f, s) ==> SectorBlank(g, f, s)
  }

  /** next_free is n and gc_wait is wait. */
  predicate Managed(g: Geometry, f: Flash, n: nat, wait: bool) {
    OnWalk(g, f, n) && Packed(g, f, n) && (wait ==> Settled(g, f))
  }

  /** The same until a collection strays; from then on next_free is off the walk. */
  predicate Placed(g: Geometry, f: Flash, n: nat, wait: bool, strayed: bool) {
    if strayed then !OnWalk(g, f, n) else Managed(g, f, n, wait)
  }

  /** There is no run of this many free pages, neither on the device nor on what a collection would leave of it. */
  ghost predicate OutOfSpace(g: Geometry, f: Flash, pages: nat) {
    NoRun(g, f, pages, 0, g.Pages()) && forall f1 :: Collected(g, f, f1) ==> NoRun(g, f1, pages, 0, g.Pages())
  }

  // ----- sectors -----

  lemma {:induction false} CountedPage(g: Geometry, f: Flash, k: Kind, lo: nat, hi: nat) returns (x: nat)
    requires Count(g, f, 0, false, k, lo, hi) > 0
    ensures lo <= x < hi && KindAt(g, f, 0, x) == k
  {
    hide KindAt;
    if CarryKind(g, f, 0, false, hi - 1) == k {
      x := hi - 1;
    } else {
      x := CountedPage(g, f, k, lo, hi - 1);
    }
  }

  lemma NoSuchPage(g: Geometry, f: Flash, k: Kind, s: nat, x: nat)
    requires TrueCount(g, f, k, s) == 0 && InSector(g, s, x)
    ensures KindAt(g, f, 0, x) != k
  {
    hide Count, KindAt;
    if KindAt(g, f, 0, x) == k {
      CountMember(g, f, 0, false, k, SectorStart(g, s), SectorStart(g, s + 1), x);
    }
  }

  /** A sector without active pages is erasable or blank. */
  lemma ErasableOrBlank(g: Geometry, f: Flash, s: nat)
    requires LayoutOk(g, f) && s < g.sectors && TrueCount(g, f, Active, s) == 0
    ensures Erasable(g, f, s) || SectorBlank(g, f, s)
  {
    hide Count, KindAt, HeaderAt;
    SectorSpan(g, s);
    var a := SectorStart(g, s);
    if TrueCount(g, f, Obsolete, s) == 0 {
      NoSuchPage(g, f, Active, s, a);
      NoSuchPage(g, f, Obsolete, s, a);
      var e := StopBelow(g, f, 0, g.Pages(), a);
      if e < a { NextSectorUpTo(g, e, s); }
      NextSectorOf(g, s, a);
    }
  }

  lemma BlankByPages(g: Geometry, f: Flash, f': Flash, s: nat)
    requires Wf(g, f) && |f'| == |f| && s < g.sectors && SectorBlank(g, f, s)
    requires forall x: nat :: InSector(g, s, x) ==> Same(f, f', g.At(x), g.At(x + 1))
    ensures SectorBlank(g, f', s)
  {
    SectorSpan(g, s);
    var a, b := SectorStart(g, s), SectorStart(g, s + 1);
    AtMono(g, b, g.Pages());
    forall i | g.At(a) <= i < g.At(b) ensures f'[i] == 0 {
      var x := Quot(i, g.pageSize);
      QuotBounds(i, g.pageSize);
      if x < a { AtMono(g, x + 1, a); }
      if b <= x { AtMono(g, b, x); }
      assert g.At(x + 1) == g.At(x) + g.pageSize && g.At(x) <= i < g.At(x + 1);
      assert InSector(g, s, x) && Same(f, f', g.At(x), g.At(x + 1));
    }
  }

  /** The active extents of f are those of f', perhaps among others. */
  predicate ActivesKept(g: Geometry, f: Flash, f': Flash) {
    forall x :: x in Files(g, f) ==> x in Files(g, f') && MaxPages(g, f', x) == MaxPages(g, f, x)
  }

  lemma StillActive(g: Geometry, f: Flash, f': Flash, s: nat)
    requires LayoutOk(g, f) && LayoutOk(g, f') && ActivesKept(g, f, f') && s < g.sectors
    requires TrueCount(g, f', Active, s) == 0
    ensures TrueCount(g, f, Active, s) == 0
  {
    hide KindAt, HeaderAt, Path, Good, Actives, MaxPages, Count;
    SectorSpan(g, s);
    if TrueCount(g, f, Active, s) > 0 {
      var x := CountedPage(g, f, Active, SectorStart(g, s), SectorStart(g, s + 1));
      var e := ActiveSource(g, f, 0, g.Pages(), x);
      ActivePages(g, f', 0, g.Pages(), e, x);
      NoSuchPage(g, f', Active, s, x);
    }
  }

  /** A collection leaves nothing to erase but blank sectors. */
  lemma SettledAfter(g: Geometry, f0: Flash, f: Flash)
    requires LayoutOk(g, f0) && Collected(g, f0, f)
    ensures Settled(g, f)
  {
    hide KindAt, HeaderAt, Path, Good, Actives, Count, FirstErasable, SectorBlank;
    assert ActivesKept(g, f0, f) by {
      forall x | x in Files(g, f0) ensures MaxPages(g, f, x) == MaxPages(g, f0, x) {
        ActiveFacts(g, f0, 0, g.Pages(), x);
        KeptHeader(g, f0, f, x);
      }
    }
    forall s: nat | s < g.sectors && Erasable(g, f, s) ensures SectorBlank(g, f, s) {
      StillActive(g, f0, f, s);
      ErasableOrBlank(g, f0, s);
      if !Erasable(g, f0, s) {
        forall x: nat | InSector(g, s, x) ensures Same(f0, f, g.At(x), g.At(x + 1)) {
          NoSuchPage(g, f0, Obsolete, s, x);
        }
        BlankByPages(g, f0, f, s);
      }
    }
  }

  /** What changes only pages of active extents, and makes no extent obsolete, leaves the device settled. */
  lemma SettledKept(g: Geometry, f: Flash, f': Flash)
    requires LayoutOk(g, f) && LayoutOk(g, f') && ActivesKept(g, f, f') && Settled(g, f)
    requires forall x: nat :: x < g.Pages() && KindAt(g, f', 0, x) != Active ==> Same(f, f', g.At(x), g.At(x + 1))
    ensures Settled(g, f')
  {
    hide KindAt, HeaderAt, Path, Good, Actives, Count, SectorBlank;
    forall s: nat | s < g.sectors && Erasable(g, f', s) ensures SectorBlank(g, f', s) {
      StillActive(g, f, f', s);
      ErasableOrBlank(g, f, s);
      SectorSpan(g, s);
      forall x: nat | InSector(g, s, x) ensures Same(f, f', g.At(x), g.At(x + 1)) {
        NoSuchPage(g, f', Active, s, x);
      }
      BlankByPages(g, f, f', s);
    }
  }

  lemma ManagedFreely(g: Geometry, f: Flash, n: nat, wait: bool)
    requires Managed(g, f, n, wait)
    ensures Managed(g, f, n, false) && OnWalk(g, f, n)
  {
    hide Path, Settled, Packed;
  }

  lemma PlacedFreely(g: Geometry, f: Flash, n: nat, wait: bool, strayed: bool)
    requires Placed(g, f, n, wait, strayed)
    ensures Placed(g, f, n, false, strayed)
  {
    hide Path, Settled, Packed;
  }

  // ----- operations -----

  /** The stops of the walk are those it had before. */
  lemma UpdatedStopsBack(g: Geometry, f: Flash, f': Flash, q: nat, x: nat)
    requires Updated(g, f, f', q) && OnWalk(g, f', x)
    ensures OnWalk(g, f, x) && (x != q && x < g.Pages() ==> HeaderAt(g, f', x) == HeaderAt(g, f, x))
  {
    hide HeaderAt, MaxPages, Actives, Path, Good;
    UpdatedPaths(g, f, f', q);
    ExtentUpdate(g, f, f', q);
    StopsAreOrdered(g, f', 0, x);
    var n := q + MaxPages(g, f, q);
    if x <= q {
      AtMono(g, x, q);
      PathFrame(g, f', f, 0, x);
      if x < q { AtMono(g, x + 1, q); PageHeaderFrame(g, f, f', x); }
    } else {
      PathSplit(g, f', 0, q, x);
      ExtentNext(g, f, f', q);
      LaterStop(g, f', q, n, x);
      PathTrans(g, f', 0, q, n);
      PathSplit(g, f', 0, n, x);
      AtMono(g, x, g.Pages());
      PathFrame(g, f', f, n, x);
      PathTrans(g, f, q, n, x);
      PathTrans(g, f, 0, q, x);
      if x < g.Pages() { AtMono(g, n, x); AtMono(g, x + 1, g.Pages()); PageHeaderFrame(g, f, f', x); }
    }
  }

  lemma LaterStop(g: Geometry, f: Flash, q: nat, n: nat, x: nat)
    requires Path(g, f, q, x) && q < x && Next(g, f, q) == n
    ensures n <= x
  {}

  lemma ExtentNext(g: Geometry, f: Flash, f': Flash, q: nat)
    requires Updated(g, f, f', q)
    ensures Next(g, f', q) == q + MaxPages(g, f, q)
  {
    hide HeaderAt, Actives;
    UpdatedPaths(g, f, f', q);
    ActiveFacts(g, f, 0, g.Pages(), q);
  }

  lemma UpdatedPages(g: Geometry, f: Flash, f': Flash, q: nat, x: nat)
    requires Updated(g, f, f', q) && x < g.Pages() && !(q <= x < q + MaxPages(g, f, q))
    ensures Same(f, f', g.At(x), g.At(x + 1))
  {
    hide HeaderAt, Actives, Path;
    UpdatedPaths(g, f, f', q);
    if x < q { AtMono(g, x + 1, q); } else { AtMono(g, q + MaxPages(g, f, q), x); }
    AtMono(g, x + 1, g.Pages());
  }

  /** Rewriting an extent in place: next_free stays right, and as long as the extent stays active gc_wait does. */
  lemma ManagedUpdated(g: Geometry, f: Flash, f': Flash, q: nat, n: nat, wait: bool)
    requires Updated(g, f, f', q) && Managed(g, f, n, wait) && (wait ==> HeaderAt(g, f', q).Active())
    ensures Managed(g, f', n, wait)
  {
    hide HeaderAt, Path, Good, Actives, Settled, KindAt, MaxPages, Updated;
    UpdatedStops(g, f, f', q, n);
    UpdatedSizes(g, f, f', q);
    forall p: nat | p < n && OnWalk(g, f', p) ensures HeaderAt(g, f', p).alloc {
      UpdatedStopsBack(g, f, f', q, p);
      StopsAreOrdered(g, f, 0, n);
    }
    if wait {
      forall x: nat | x < g.Pages() && KindAt(g, f', 0, x) != Active ensures Same(f, f', g.At(x), g.At(x + 1)) {
        if q <= x < q + MaxPages(g, f, q) {
          ActivePages(g, f', 0, g.Pages(), q, x);
        } else {
          UpdatedPages(g, f, f', q, x);
        }
      }
      SettledKept(g, f, f');
    }
  }

  lemma PlacedUpdated(g: Geometry, f: Flash, f': Flash, q: nat, n: nat, wait: bool, strayed: bool)
    requires Updated(g, f, f', q) && Placed(g, f, n, wait, strayed) && (wait ==> HeaderAt(g, f', q).Active())
    ensures Placed(g, f', n, wait, strayed)
  {
    hide HeaderAt, Path, Updated, Managed;
    if !strayed {
      ManagedUpdated(g, f, f', q, n, wait);
    } else if OnWalk(g, f', n) {
      UpdatedStopsBack(g, f, f', q, n);
    }
  }

  lemma UpdatedSizes(g: Geometry, f: Flash, f': Flash, q: nat)
    requires Updated(g, f, f', q)
    ensures LayoutOk(g, f') && HeaderAt(g, f', q).alloc && LayoutOk(g, f) && MaxPages(g, f', q) == MaxPages(g, f, q)
    ensures HeaderAt(g, f', q).Active() ==> q in Files(g, f') && ActivesKept(g, f, f')
  {
    hide HeaderAt, Path, Good, Actives;
    ExtentUpdate(g, f, f', q);
    forall x | x in Files(g, f) && x != q ensures HeaderAt(g, f', x) == HeaderAt(g, f, x) {
      ActiveFacts(g, f, 0, g.Pages(), x);
      ActiveFacts(g, f, 0, g.Pages(), q);
      UpdatedStops(g, f, f', q, x);
      UpdatedStopsBack(g, f, f', q, x);
    }
  }

  /** A new extent at a free run on or behind next_free. */
  lemma ManagedReserve(g: Geometry, f: Flash, start: nat, amount: nat, stop: nat, h: Header, n: nat, wait: bool)
    requires FreeRun(g, f, start, amount, stop) && h.Encodable() && h.Active() && h.maxPages == amount
    requires Managed(g, f, n, wait) && n <= start
    ensures start < g.Pages()
    ensures Managed(g, WithHeader(g, f, start, h), if start == n then n + amount else n, wait)
  {
    hide HeaderAt, Path, Good, Actives, Settled, KindAt, FreeRun, Encode, WithHeader;
    ReserveStops(g, f, start, amount, stop, h, n);
    NewExtentPaths(g, f, start, amount, stop, h);
    ReserveUpdate(g, f, start, amount, stop, h);
    var f' := WithHeader(g, f, start, h);
    RunOnDevice(g, f, start, amount, stop);
    forall p: nat | p < (if start == n then n + amount else n) && OnWalk(g, f', p) ensures HeaderAt(g, f', p).alloc {
      if p < start {
        AtMono(g, p, start);
        AtMono(g, p + 1, start);
        PathFrame(g, f', f, 0, p);
        PageHeaderFrame(g, f, f', p);
      } else if p > start {
        PathSplit(g, f', 0, start, p);
        NewNext(g, f', start, h, p);
      }
    }
    if wait {
      ReservePages(g, f, start, amount, stop, h);
      SettledKept(g, f, f');
    }
  }

  lemma RunOnDevice(g: Geometry, f: Flash, start: nat, amount: nat, stop: nat)
    requires FreeRun(g, f, start, amount, stop)
    ensures Wf(g, f) && LayoutOk(g, f) && start < g.Pages() && OnWalk(g, f, start) && stop <= g.Pages()
  {
    hide HeaderAt;
  }

  lemma NewNext(g: Geometry, f: Flash, start: nat, h: Header, x: nat)
    requires Path(g, f, start, x) && start < x && HeaderAt(g, f, start) == h && h.Extent()
    ensures start + h.maxPages <= x
  {
    hide HeaderAt;
  }

  lemma ReservePages(g: Geometry, f: Flash, start: nat, amount: nat, stop: nat, h: Header)
    requires FreeRun(g, f, start, amount, stop) && h.Encodable() && h.Active() && h.maxPages == amount
    ensures start < g.Pages()
    ensures var f' := WithHeader(g, f, start, h);
      && ActivesKept(g, f, f')
      && forall x: nat :: x < g.Pages() && KindAt(g, f', 0, x) != Active ==> Same(f, f', g.At(x), g.At(x + 1))
  {
    hide HeaderAt, Path, Good, Actives, KindAt, Encode, FreeRun, WithHeader;
    RunOnDevice(g, f, start, amount, stop);
    NewExtentPaths(g, f, start, amount, stop, h);
    ReserveUpdate(g, f, start, amount, stop, h);
    var f' := WithHeader(g, f, start, h);
    AtMono(g, start, start + 1);
    forall x: nat | x < g.Pages() && x != start
      ensures Same(f, f', g.At(x), g.At(x + 1)) && HeaderAt(g, f', x) == HeaderAt(g, f, x)
    {
      AtMono(g, x + 1, g.Pages());
      if x < start { AtMono(g, x + 1, start); } else { AtMono(g, start + 1, x); }
      PageHeaderFrame(g, f, f', x);
    }
    forall x | x in Files(g, f) ensures x in Files(g, f') && MaxPages(g, f', x) == MaxPages(g, f, x) {
      ActiveFacts(g, f, 0, g.Pages(), x);
    }
    ActivePages(g, f', 0, g.Pages(), start, start);
  }

  /** After a collection that stays on the walk. */
  lemma ManagedCollected(g: Geometry, f0: Flash, f: Flash, n: nat, wait: bool)
    requires LayoutOk(g, f0) && Collected(g, f0, f) && Managed(g, f0, n, wait)
    requires OnWalk(g, f, LoweredNextFree(g, f0, n))
    ensures Managed(g, f, LoweredNextFree(g, f0, n), true) && Managed(g, f, LoweredNextFree(g, f0, n), wait)
  {
    hide HeaderAt, Good, Actives, KindAt, FirstErasable, Erasable, Settled;
    SettledAfter(g, f0, f);
    var m := LoweredNextFree(g, f0, n);
    FirstErasableFrom(g, f0, 0);
    forall p: nat | p < m && OnWalk(g, f, p) ensures HeaderAt(g, f, p).alloc {
      AtMono(g, p + 1, FirstErasable(g, f0, 0));
      AtMono(g, p, p + 1);
      PathFrame(g, f, f0, 0, p);
      PageHeaderFrame(g, f0, f, p);
    }
  }

  // ----- out of space -----

  /** No page before next_free begins a free run. */
  lemma NoRunAtAll(g: Geometry, f: Flash, n: nat, pages: nat)
    requires Wf(g, f) && Packed(g, f, n) && NoRun(g, f, pages, n, g.Pages())
    ensures NoRun(g, f, pages, 0, g.Pages())
  {
    hide HeaderAt;
    forall s: nat, stop: nat | s < g.Pages() && s + pages < g.Pages() ensures !FreeRun(g, f, s, pages, stop) {
      if s < n && FreeRun(g, f, s, pages, stop) {
        AtMono(g, s, s + 1);
        AtMono(g, s + 1, stop);
        AtMono(g, stop, g.Pages());
        HeaderErased(g, f, s);
      }
    }
  }

  /** A collection of a settled device changes no header the walk reads. */
  lemma SameStopHeader(g: Geometry, f: Flash, f1: Flash, p: nat)
    requires LayoutOk(g, f) && Settled(g, f) && Collected(g, f, f1) && OnWalk(g, f, p) && p < g.Pages()
    ensures HeaderAt(g, f1, p) == HeaderAt(g, f, p)
  {
    hide HeaderAt, Good, Actives, KindAt, FirstErasable, TrueCount, Path;
    var t := Quot(p, g.sectorPages);
    QuotBounds(p, g.sectorPages);
    if g.sectors <= t { TimesMono(g.sectors, t, g.sectorPages); }
    SectorSpan(g, t);
    assert InSector(g, t, p);
    if Erasable(g, f, t) {
      AtMono(g, SectorStart(g, t), p);
      AtMono(g, p, p + 1);
      AtMono(g, p + 1, SectorStart(g, t + 1));
      AtMono(g, SectorStart(g, t + 1), g.Pages());
      assert SectorBlank(g, f, t) && SectorBlank(g, f1, t);
      assert Same(f, f1, g.At(p), g.At(p + 1));
    }
    PageHeaderFrame(g, f, f1, p);
  }

  /** A device that reads the same headers at the stops of f has no other stops. */
  lemma {:induction false} SameWalk(g: Geometry, f: Flash, f1: Flash, p: nat, q: nat)
    requires LayoutOk(g, f) && OnWalk(g, f, p) && Path(g, f1, p, q)
    requires forall x: nat :: x < g.Pages() && OnWalk(g, f, x) ==> HeaderAt(g, f1, x) == HeaderAt(g, f, x)
    ensures Path(g, f, p, q)
    decreases g.Pages() - p
  {
    hide HeaderAt;
    if p != q {
      var n := Next(g, f1, p);
      PathSplit(g, f, 0, p, g.Pages());
      assert Path(g, f, p, n);
      PathTrans(g, f, 0, p, n);
      SameWalk(g, f, f1, n, q);
    }
  }

  /** A stretch of free stops is erased. */
  lemma {:induction false} FreeStretch(g: Geometry, f: Flash, p: nat, q: nat)
    requires Wf(g, f) && OnWalk(g, f, p) && Path(g, f, p, q)
    requires forall x: nat :: p <= x < q && OnWalk(g, f, x) ==> !HeaderAt(g, f, x).alloc
    ensures ZeroRange(f, g.At(p), g.At(q))
    decreases g.Pages() - p
  {
    hide HeaderAt;
    if p != q {
      var n := Next(g, f, p);
      assert Path(g, f, p, n);
      PathTrans(g, f, 0, p, n);
      AtMono(g, p, n);
      FreeStretch(g, f, n, q);
    }
  }

  /** Collecting a settled device makes no room. */
  lemma NothingGained(g: Geometry, f: Flash, f1: Flash, pages: nat, s: nat, stop: nat)
    requires LayoutOk(g, f) && Settled(g, f) && Collected(g, f, f1) && FreeRun(g, f1, s, pages, stop)
    ensures FreeRun(g, f, s, pages, stop)
  {
    hide HeaderAt, Good, Actives, KindAt, Settled, Collected, Path;
    forall x: nat | x < g.Pages() && OnWalk(g, f, x) ensures HeaderAt(g, f1, x) == HeaderAt(g, f, x) {
      SameStopHeader(g, f, f1, x);
    }
    assert LayoutOk(g, f1);
    StopsAreOrdered(g, f, 0, g.Pages());
    SameWalk(g, f, f1, 0, s);
    SameWalk(g, f, f1, s, stop);
    StopsAreOrdered(g, f, s, stop);
    forall x: nat | s <= x < stop && OnWalk(g, f, x) ensures !HeaderAt(g, f, x).alloc {
      AtMono(g, s, x);
      AtMono(g, x, x + 1);
      AtMono(g, x + 1, stop);
      AtMono(g, stop, g.Pages());
      HeaderErased(g, f1, x);
    }
    FreeStretch(g, f, s, stop);
  }

  /** While gc_wait is set a search in vain means that no run is to be had. */
  lemma NoneToBeHad(g: Geometry, f: Flash, n: nat, pages: nat)
    requires LayoutOk(g, f) && Managed(g, f, n, true) && NoRun(g, f, pages, n, g.Pages())
    ensures OutOfSpace(g, f, pages)
  {
    hide HeaderAt, Good, Actives, KindAt, Settled, Collected, Path, FreeRun, Packed;
    NoRunAtAll(g, f, n, pages);
    forall f1 | Collected(g, f, f1) ensures NoRun(g, f1, pages, 0, g.Pages()) {
      forall s: nat, stop: nat | s < g.Pages() && s + pages < g.Pages() ensures !FreeRun(g, f1, s, pages, stop) {
        if FreeRun(g, f1, s, pages, stop) { NothingGained(g, f, f1, pages, s, stop); }
      }
    }
  }
}
