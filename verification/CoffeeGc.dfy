/** What the garbage collector sees: a classification of the pages by the walk, page
    counts per sector, and the state its sector-by-sector iteration keeps. */
module CoffeeGc {
  import opened CoffeeFlash
  import opened CoffeeLayout

  datatype Kind = Active | Obsolete | Free

  function KindOf(h: Header): Kind {
    if h.Active() then Active else if h.alloc then Obsolete else Free
  }

  /** The kind of page x as the walk from page p tells it: every page of an extent has the
      kind of the extent, isolated pages count as obsolete. */
  function KindAt(g: Geometry, f: Flash, p: nat, x: nat): Kind
    decreases g.Pages() - p
  {
    if x < Next(g, f, p) || !(p < Next(g, f, p) <= g.Pages()) then KindOf(HeaderAt(g, f, p))
    else KindAt(g, f, Next(g, f, p), x)
  }

  lemma {:induction false} KindSuffix(g: Geometry, f: Flash, p: nat, q: nat, x: nat)
    requires Path(g, f, p, q) && q <= x
    ensures KindAt(g, f, p, x) == KindAt(g, f, q, x)
    decreases g.Pages() - p
  {
    hide HeaderAt, Good;
    if p != q {
      KindSuffix(g, f, Next(g, f, p), q, x);
    }
  }

  lemma {:induction false} KindFrame(g: Geometry, f: Flash, f': Flash, p: nat, q: nat, x: nat)
    requires Wf(g, f) && Path(g, f, p, q) && Same(f, f', g.At(p), g.At(q)) && p <= x < q
    ensures KindAt(g, f', p, x) == KindAt(g, f, p, x)
    decreases g.Pages() - p
  {
    hide HeaderAt;
    var n := Next(g, f, p);
    AtMono(g, p, n);
    AtMono(g, n, q);
    GoodFrame(g, f, f', p);
    if n <= x {
      KindFrame(g, f, f', n, q, x);
    }
  }

  /** All pages of an active extent are active pages. */
  lemma ActivePages(g: Geometry, f: Flash, p: nat, q: nat, e: nat, x: nat)
    requires Path(g, f, p, q) && e in Actives(g, f, p, q) && e <= x < e + MaxPages(g, f, e)
    ensures KindAt(g, f, p, x) == Active
  {
    hide HeaderAt, Good;
    ActiveFacts(g, f, p, q, e);
    KindSuffix(g, f, p, e, x);
  }

  /** Page x has a kind only because of the walk's stop before it. */
  lemma {:induction false} ActiveSource(g: Geometry, f: Flash, p: nat, q: nat, x: nat) returns (e: nat)
    requires Path(g, f, p, q) && p <= x < q && KindAt(g, f, p, x) == Active
    ensures e in Actives(g, f, p, q) && e <= x < e + MaxPages(g, f, e)
    decreases g.Pages() - p
  {
    hide HeaderAt;
    var n := Next(g, f, p);
    if x < n {
      e := p;
    } else {
      e := ActiveSource(g, f, n, q, x);
    }
  }

  // ----- counting -----

  /** The kind of page x when the pages before pos belong to an extent that began earlier. */
  function CarryKind(g: Geometry, f: Flash, pos: nat, carryActive: bool, x: nat): Kind {
    if x < pos then (if carryActive then Active else Obsolete) else KindAt(g, f, pos, x)
  }

  function Count(g: Geometry, f: Flash, pos: nat, carryActive: bool, k: Kind, lo: nat, hi: nat): nat {
    if hi <= lo then 0
    else Count(g, f, pos, carryActive, k, lo, hi - 1) + (if CarryKind(g, f, pos, carryActive, hi - 1) == k then 1
        else 0)
  }

  /** The number of pages of kind k in sector s, by the walk from page 0. */
  function TrueCount(g: Geometry, f: Flash, k: Kind, s: nat): nat {
    Count(g, f, 0, false, k, SectorStart(g, s), SectorStart(g, s + 1))
  }

  lemma {:induction false} CountRun(g: Geometry, f: Flash, pos: nat, ca: bool, k: Kind, lo: nat, mid: nat, hi: nat,
                                    run: Kind)
    requires lo <= mid <= hi && forall x :: mid <= x < hi ==> CarryKind(g, f, pos, ca, x) == run
    ensures Count(g, f, pos, ca, k, lo, hi) == Count(g, f, pos, ca, k, lo, mid) + (if k == run then hi - mid else 0)
  {
    hide CarryKind;
    if mid < hi {
      CountRun(g, f, pos, ca, k, lo, mid, hi - 1, run);
    }
  }

  lemma {:induction false} CountAgree(g: Geometry, f: Flash, f': Flash, pos: nat, pos': nat, ca: bool, ca': bool,
                                      k: Kind, lo: nat, hi: nat)
    requires forall x :: lo <= x < hi ==> CarryKind(g, f, pos, ca, x) == CarryKind(g, f', pos', ca', x)
    ensures Count(g, f, pos, ca, k, lo, hi) == Count(g, f', pos', ca', k, lo, hi)
  {
    hide CarryKind;
    if lo < hi {
      CountAgree(g, f, f', pos, pos', ca, ca', k, lo, hi - 1);
    }
  }

  lemma {:induction false} CountMember(g: Geometry, f: Flash, pos: nat, ca: bool, k: Kind, lo: nat, hi: nat, x: nat)
    requires lo <= x < hi && CarryKind(g, f, pos, ca, x) == k
    ensures Count(g, f, pos, ca, k, lo, hi) > 0
  {
    hide CarryKind;
    if x < hi - 1 {
      CountMember(g, f, pos, ca, k, lo, hi - 1, x);
    }
  }

  /** The collector erases exactly the sectors with obsolete but no active pages. */
  predicate Erasable(g: Geometry, f: Flash, s: nat) {
    s < g.sectors && TrueCount(g, f, Active, s) == 0 && TrueCount(g, f, Obsolete, s) > 0
  }

  // ----- one scan of a sector -----

  /** e is the last extent the walk meets before page b, and it ends at stop beyond b. */
  predicate Overhang(g: Geometry, f: Flash, pos: nat, b: nat, e: nat, stop: nat, active: bool) {
    && pos <= e < b && Path(g, f, pos, e) && Good(g, f, e) && HeaderAt(g, f, e).Extent()
    && Next(g, f, e) == stop && (active <==> HeaderAt(g, f, e).Active())
  }

  /** How scanning sector s moves the carried state (pages to skip, whether they are active). */
  predicate ScanStep(g: Geometry, f: Flash, s: nat, skip: nat, la: bool, e: nat, skip': nat, la': bool, e': nat) {
    var a, b := SectorStart(g, s), SectorStart(g, s + 1);
    if skip >= g.sectorPages then
      b + skip' == a + skip && la' == la && e' == e
    else
      && Path(g, f, a + skip, b + skip')
      && (skip' > 0 ==> Overhang(g, f, a + skip, b, e', b + skip', la'))
  }

  /** Counts over the carried pages of a sector. */
  lemma CarriedCounts(g: Geometry, f: Flash, pos: nat, la: bool, lo: nat, hi: nat)
    requires lo <= hi <= pos
    ensures Count(g, f, pos, la, Active, lo, hi) == (if la then hi - lo else 0)
    ensures Count(g, f, pos, la, Obsolete, lo, hi) == (if la then 0 else hi - lo)
    ensures Count(g, f, pos, la, Free, lo, hi) == 0
  {
    var run := if la then Active else Obsolete;
    CountRun(g, f, pos, la, Active, lo, lo, hi, run);
    CountRun(g, f, pos, la, Obsolete, lo, lo, hi, run);
    CountRun(g, f, pos, la, Free, lo, lo, hi, run);
  }

  /** One header read adds its pages, as far as the sector reaches, to the count of its kind. */
  lemma ScanCounts(g: Geometry, f: Flash, pos: nat, la: bool, lo: nat, page: nat, n: nat, b: nat)
    requires lo <= pos <= page < b && Path(g, f, pos, page) && page < n == Next(g, f, page)
    ensures var hi := if n < b then n else b;
      var k := KindOf(HeaderAt(g, f, page));
      && Count(g, f, pos, la, Active, lo, hi) == Count(g, f, pos, la, Active, lo, page)
         + (if k == Active then hi - page else 0)
      && Count(g, f, pos, la, Obsolete, lo, hi) == Count(g, f, pos, la, Obsolete, lo, page)
         + (if k == Obsolete then hi - page else 0)
      && Count(g, f, pos, la, Free, lo, hi) == Count(g, f, pos, la, Free, lo, page)
         + (if k == Free then hi - page else 0)
  {
    hide Count, HeaderAt;
    var hi := if n < b then n else b;
    var k := KindOf(HeaderAt(g, f, page));
    forall x | page <= x < hi ensures CarryKind(g, f, pos, la, x) == k {
      KindSuffix(g, f, pos, page, x);
    }
    CountRun(g, f, pos, la, Active, lo, page, hi, k);
    CountRun(g, f, pos, la, Obsolete, lo, page, hi, k);
    CountRun(g, f, pos, la, Free, lo, page, hi, k);
  }

  /** Reading the header at a stop of the walk leads to the next stop. */
  lemma ScanWalk(g: Geometry, f: Flash, pos: nat, page: nat, b: nat)
    requires Wf(g, f) && Path(g, f, pos, page) && Path(g, f, page, g.Pages()) && page < b <= g.Pages()
    ensures var n := Next(g, f, page);
      && page < n <= g.Pages() && Path(g, f, pos, n) && Path(g, f, n, g.Pages())
      && (HeaderAt(g, f, page).Extent() && n > b ==> Overhang(g, f, pos, b, page, n, HeaderAt(g, f, page).Active()))
      && (!HeaderAt(g, f, page).alloc ==> !HeaderAt(g, f, page).obsolete && !HeaderAt(g, f, page).isolated)
  {
    hide HeaderAt;
    GoodAdvances(g, f, page);
    FreeHeaderClean(g, f, page);
    assert Path(g, f, page, Next(g, f, page));
    PathTrans(g, f, pos, page, Next(g, f, page));
  }

  /** The scan of the sector [a, b) has read the headers up to page, the last one at e. */
  predicate Scanned(g: Geometry, f: Flash, pos: nat, la: bool, a: nat, b: nat, page: nat, active: nat, obsolete: nat,
                    last: bool, e: nat) {
    && a <= pos <= page && Path(g, f, pos, page) && Path(g, f, page, g.Pages())
    && var mid := if page < b then page else b;
    && active == Count(g, f, pos, la, Active, a, mid) + (if last then page - mid else 0)
    && obsolete == Count(g, f, pos, la, Obsolete, a, mid) + (if last then 0 else page - mid)
    && Count(g, f, pos, la, Free, a, mid) == 0
    && active + obsolete == page - a
    && (page > b ==> Overhang(g, f, pos, b, e, page, last))
  }

  lemma ScanBegins(g: Geometry, f: Flash, pos: nat, la: bool, a: nat, b: nat, last: bool, e: nat)
    requires a <= pos < b && Path(g, f, pos, g.Pages())
    ensures Scanned(g, f, pos, la, a, b, pos, if la then pos - a else 0, if la then 0 else pos - a, last, e)
  {
    hide Count;
    CarriedCounts(g, f, pos, la, a, pos);
  }

  lemma ScanExtent(g: Geometry, f: Flash, pos: nat, la: bool, a: nat, b: nat, page: nat, active: nat, obsolete: nat,
                   last: bool, e: nat)
    requires Wf(g, f) && page < b <= g.Pages() && Scanned(g, f, pos, la, a, b, page, active, obsolete, last, e)
    requires HeaderAt(g, f, page).alloc
    ensures var n, on := Next(g, f, page), HeaderAt(g, f, page).Active();
      && page < n <= g.Pages()
      && (HeaderAt(g, f, page).isolated ==> n <= b)
      && Scanned(g, f, pos, la, a, b, n, if on then active + (n - page) else active, if on then obsolete
         else obsolete + (n - page), on, page)
  {
    hide Count, HeaderAt, Path, Good;
    ScanWalk(g, f, pos, page, b);
    ScanCounts(g, f, pos, la, a, page, Next(g, f, page), b);
  }

  lemma ScanFree(g: Geometry, f: Flash, s: nat, pos: nat, la: bool, page: nat, active: nat, obsolete: nat,
                 last: bool, e: nat)
    requires Wf(g, f) && s < g.sectors
    requires var a, b := SectorStart(g, s), SectorStart(g, s + 1);
      page < b && Scanned(g, f, pos, la, a, b, page, active, obsolete, last, e)
    requires !HeaderAt(g, f, page).alloc
    ensures var a, b := SectorStart(g, s), SectorStart(g, s + 1);
      && !HeaderAt(g, f, page).obsolete && !HeaderAt(g, f, page).isolated
      && Path(g, f, pos, b) && active == Count(g, f, pos, la, Active, a, b)
      && obsolete == Count(g, f, pos, la, Obsolete, a, b) && b - page == Count(g, f, pos, la, Free, a, b)
      && active + obsolete + (b - page) == b - a
  {
    hide Count, HeaderAt, Path, Good;
    SectorSpan(g, s);
    NextSectorOf(g, s, page);
    ScanWalk(g, f, pos, page, SectorStart(g, s + 1));
    ScanCounts(g, f, pos, la, SectorStart(g, s), page, Next(g, f, page), SectorStart(g, s + 1));
  }

  /** A free header carries none of the other flags. */
  lemma FreeHeaderClean(g: Geometry, f: Flash, page: nat)
    requires Wf(g, f) && Good(g, f, page)
    ensures var h := HeaderAt(g, f, page); !h.alloc ==> !h.obsolete && !h.isolated
  {
    if !HeaderAt(g, f, page).alloc {
      NextSectorBounds(g, page);
      AtMono(g, page, NextSector(g, page));
      HeaderErased(g, f, page);
    }
  }

  /** The page counts of a sector. */
  datatype SectorStatus = SectorStatus(active: nat, obsolete: nat, free: nat)

  /** What get_sector_status(s) must deliver from the carried state: the counts by kind, and the next state. */
  predicate Reported(g: Geometry, f: Flash, s: nat, skip: nat, la: bool, e: nat, stats: SectorStatus, skip': nat,
                     la': bool, e': nat) {
    var a, b := SectorStart(g, s), SectorStart(g, s + 1);
    && stats.active == Count(g, f, a + skip, la, Active, a, b)
    && stats.obsolete == Count(g, f, a + skip, la, Obsolete, a, b)
    && stats.free == Count(g, f, a + skip, la, Free, a, b)
    && ScanStep(g, f, s, skip, la, e, skip', la', e')
  }

  lemma ReportCarried(g: Geometry, f: Flash, s: nat, skip: nat, la: bool, e: nat)
    requires g.Ok() && s < g.sectors && skip >= g.sectorPages
    ensures Reported(g, f, s, skip, la, e, if la then SectorStatus(g.sectorPages, 0, 0)
            else SectorStatus(0, g.sectorPages, 0),
                     skip - g.sectorPages, la, e)
  {
    hide Count;
    SectorSpan(g, s);
    CarriedCounts(g, f, SectorStart(g, s) + skip, la, SectorStart(g, s), SectorStart(g, s + 1));
  }

  lemma ReportScanned(g: Geometry, f: Flash, s: nat, skip: nat, la: bool, e: nat, page: nat, active: nat,
                      obsolete: nat, last: bool, e': nat)
    requires g.Ok() && s < g.sectors && skip < g.sectorPages && SectorStart(g, s + 1) <= page
    requires Scanned(g, f, SectorStart(g, s) + skip, la, SectorStart(g, s), SectorStart(g, s + 1), page, active,
             obsolete, last, e')
    ensures active + obsolete >= g.sectorPages
    ensures var skip' := active + obsolete - g.sectorPages;
      && (skip' > 0 && last ==> obsolete <= g.sectorPages) && (skip' > 0 && !last ==> active <= g.sectorPages)
      && Reported(g, f, s, skip, la, e,
               if skip' > 0 && last then SectorStatus(g.sectorPages - obsolete, obsolete, 0)
               else if skip' > 0 then SectorStatus(active, g.sectorPages - active, 0)
               else SectorStatus(active, obsolete, 0),
               skip', last, e')
  {
    hide Count, Path, Overhang;
    SectorSpan(g, s);
  }

  lemma ReportFree(g: Geometry, f: Flash, s: nat, skip: nat, la: bool, e: nat, page: nat, active: nat, obsolete: nat,
                   last: bool, e': nat)
    requires Wf(g, f) && s < g.sectors && skip < g.sectorPages && page < SectorStart(g, s + 1)
    requires Scanned(g, f, SectorStart(g, s) + skip, la, SectorStart(g, s), SectorStart(g, s + 1), page, active,
             obsolete, last, e')
    requires !HeaderAt(g, f, page).alloc
    ensures !HeaderAt(g, f, page).obsolete && !HeaderAt(g, f, page).isolated
    ensures active + obsolete + (SectorStart(g, s + 1) - page) == g.sectorPages
    ensures Reported(g, f, s, skip, la, e, SectorStatus(active, obsolete, SectorStart(g, s + 1) - page), 0, false, page)
  {
    hide Count, Path, Overhang, HeaderAt, Scanned;
    SectorSpan(g, s);
    ScanFree(g, f, s, SectorStart(g, s) + skip, la, page, active, obsolete, last, e');
  }

  // ----- the collector's invariant -----

  /** Before sector s: the untouched suffix, and what became of the active extents before it. */
  predicate GcBase(g: Geometry, f0: Flash, f: Flash, s: nat, skip: nat, la: bool) {
    var a := SectorStart(g, s);
    var pos := a + skip;
    && LayoutOk(g, f0) && Wf(g, f) && s <= g.sectors && Path(g, f0, 0, pos)
    && Same(f0, f, g.At(pos), g.Size())
    && (forall x :: a <= x < pos ==> KindAt(g, f0, 0, x) == (if la then Active else Obsolete))
    && (forall x: nat :: a <= x < pos ==> !OnWalk(g, f0, x))
    && (forall x :: x in Actives(g, f0, 0, pos) ==> Kept(g, f0, f, x))
  }

  predicate Isolated(g: Geometry, f: Flash, lo: nat, hi: nat) {
    forall x :: lo <= x < hi ==> HeaderAt(g, f, x).alloc && HeaderAt(g, f, x).isolated
  }

  /** The walk stops at the start of the sector; carried pages are isolated or still unmarked garbage. */
  predicate AtSector(g: Geometry, f0: Flash, f: Flash, s: nat, skip: nat, la: bool) {
    var a := SectorStart(g, s);
    && Path(g, f, 0, a) && Actives(g, f, 0, a) == Actives(g, f0, 0, a + skip)
    && (skip > 0 ==> !la && (skip >= g.sectorPages || Isolated(g, f, a, a + skip)))
  }

  /** The walk passes over the start of the sector by the extent at e, which was retained. */
  predicate InExtent(g: Geometry, f0: Flash, f: Flash, s: nat, skip: nat, la: bool, e: nat) {
    var a := SectorStart(g, s);
    && skip > 0 && Overhang(g, f, 0, a, e, a + skip, la)
    && Actives(g, f, 0, a + skip) == Actives(g, f0, 0, a + skip)
  }

  predicate GcInv(g: Geometry, f0: Flash, f: Flash, s: nat, skip: nat, la: bool, e: nat) {
    && GcBase(g, f0, f, s, skip, la)
    && (AtSector(g, f0, f, s, skip, la) || InExtent(g, f0, f, s, skip, la, e))
  }

  lemma GcStart(g: Geometry, f: Flash)
    requires LayoutOk(g, f)
    ensures GcInv(g, f, f, 0, 0, false, 0)
  {
    assert Actives(g, f, 0, 0) == {};
  }

  /** The scan of the partly collected flash counts what the original walk counts. */
  lemma GcCounts(g: Geometry, f0: Flash, f: Flash, s: nat, skip: nat, la: bool, k: Kind)
    requires GcBase(g, f0, f, s, skip, la) && s < g.sectors
    ensures Count(g, f, SectorStart(g, s) + skip, la, k, SectorStart(g, s), SectorStart(g, s + 1))
            == TrueCount(g, f0, k, s)
  {
    hide Count, Path, Actives, HeaderAt;
    var a, b := SectorStart(g, s), SectorStart(g, s + 1);
    var pos := a + skip;
    SectorSpan(g, s);
    forall x | a <= x < b
      ensures CarryKind(g, f, pos, la, x) == CarryKind(g, f0, 0, false, x)
    {
      if pos <= x {
        KindSuffix(g, f0, 0, pos, x);
        PathSplit(g, f0, 0, pos, g.Pages());
        KindFrame(g, f0, f, pos, g.Pages(), x);
      }
    }
    CountAgree(g, f, f0, pos, 0, la, false, k, a, b);
  }

  lemma KindOverhang(g: Geometry, f: Flash, pos: nat, b: nat, e: nat, stop: nat, active: bool, x: nat)
    requires Overhang(g, f, pos, b, e, stop, active) && Path(g, f, 0, pos) && b <= x < stop
    ensures KindAt(g, f, 0, x) == if active then Active else Obsolete
  {
    hide Path, Good;
    PathTrans(g, f, 0, pos, e);
    KindSuffix(g, f, 0, e, x);
  }

  /** A page behind the first of an extent is no stop of the walk. */
  lemma InsideOverhang(g: Geometry, f: Flash, pos: nat, b: nat, e: nat, stop: nat, active: bool, x: nat)
    requires Overhang(g, f, pos, b, e, stop, active) && Path(g, f, 0, pos) && b <= x < stop
    ensures !OnWalk(g, f, x)
  {
    hide HeaderAt, Good;
    PathTrans(g, f, 0, pos, e);
    if OnWalk(g, f, x) { PathSplit(g, f, 0, e, x); }
  }

  lemma OverhangFrame(g: Geometry, f: Flash, f': Flash, pos: nat, b: nat, e: nat, stop: nat, active: bool)
    requires Wf(g, f) && Overhang(g, f, pos, b, e, stop, active) && Same(f, f', g.At(pos), g.At(stop))
    ensures Overhang(g, f', pos, b, e, stop, active)
  {
    hide HeaderAt;
    AtMono(g, pos, e);
    AtMono(g, e, stop);
    PathFrame(g, f, f', pos, e);
    GoodFrame(g, f, f', e);
  }

  lemma OverhangPath(g: Geometry, f: Flash, pos: nat, b: nat, e: nat, stop: nat, active: bool)
    requires Overhang(g, f, pos, b, e, stop, active)
    ensures Path(g, f, pos, stop) && Actives(g, f, pos, stop) == Actives(g, f, pos, e) + (if active then {e} else {})
  {
    hide HeaderAt;
    assert Path(g, f, e, stop);
    assert Actives(g, f, e, stop) == (if active then {e} else {}) + Actives(g, f, stop, stop);
    ActivesTrans(g, f, pos, e, stop);
  }

  /** The scan moves the same way on the original flash. */
  lemma GcScan(g: Geometry, f0: Flash, f: Flash, s: nat, skip: nat, la: bool, e: nat, skip': nat, la': bool, e': nat)
    requires GcBase(g, f0, f, s, skip, la) && s < g.sectors && ScanStep(g, f, s, skip, la, e, skip', la', e')
    ensures var b, pos, pos' := SectorStart(g, s + 1), SectorStart(g, s) + skip, SectorStart(g, s + 1) + skip';
      && Path(g, f, pos, pos') && Path(g, f0, pos, pos') && Path(g, f0, 0, pos')
      && Actives(g, f, pos, pos') == Actives(g, f0, pos, pos')
      && Actives(g, f0, 0, pos') == Actives(g, f0, 0, pos) + Actives(g, f0, pos, pos')
      && (forall x :: b <= x < pos' ==> KindAt(g, f0, 0, x) == (if la' then Active else Obsolete))
      && (forall x: nat :: b <= x < pos' ==> !OnWalk(g, f0, x))
      && (skip < g.sectorPages && skip' > 0 ==> Overhang(g, f0, pos, b, e', pos', la'))
  {
    hide HeaderAt, Good, Actives, KindAt;
    var b, pos, pos' := SectorStart(g, s + 1), SectorStart(g, s) + skip, SectorStart(g, s + 1) + skip';
    SectorSpan(g, s);
    assert Path(g, f, pos, pos');
    AtMono(g, pos', g.Pages());
    PathFrame(g, f, f0, pos, pos');
    ActivesTrans(g, f0, 0, pos, pos');
    if skip < g.sectorPages && skip' > 0 {
      OverhangFrame(g, f, f0, pos, b, e', pos', la');
      forall x: nat | b <= x < pos'
        ensures KindAt(g, f0, 0, x) == (if la' then Active else Obsolete) && !OnWalk(g, f0, x)
      {
        KindOverhang(g, f0, pos, b, e', pos', la', x);
        InsideOverhang(g, f0, pos, b, e', pos', la', x);
      }
    }
  }

  lemma GcKeepBase(g: Geometry, f0: Flash, f: Flash, s: nat, skip: nat, la: bool, e: nat, skip': nat, la': bool,
                   e': nat)
    requires GcBase(g, f0, f, s, skip, la) && s < g.sectors && ScanStep(g, f, s, skip, la, e, skip', la', e')
    ensures GcBase(g, f0, f, s + 1, skip', la')
  {
    hide HeaderAt, Good, Actives, KindAt, Path, MaxPages;
    GcScan(g, f0, f, s, skip, la, e, skip', la', e');
    var pos, pos' := SectorStart(g, s) + skip, SectorStart(g, s + 1) + skip';
    StopsAreOrdered(g, f0, pos, pos');
    AtMono(g, pos, pos');
    AtMono(g, pos', g.Pages());
    forall x | x in Actives(g, f0, 0, pos') ensures Kept(g, f0, f, x) {
      if x !in Actives(g, f0, 0, pos) {
        ActiveFacts(g, f0, pos, pos', x);
        AtMono(g, pos, x);
        AtMono(g, x + MaxPages(g, f0, x), pos');
      }
    }
  }

  /** A sector the collector leaves alone. */
  lemma GcKeep(g: Geometry, f0: Flash, f: Flash, s: nat, skip: nat, la: bool, e: nat, skip': nat, la': bool, e': nat)
    requires GcInv(g, f0, f, s, skip, la, e) && s < g.sectors && ScanStep(g, f, s, skip, la, e, skip', la', e')
    requires !Erasable(g, f0, s)
    ensures GcInv(g, f0, f, s + 1, skip', la', if skip >= g.sectorPages then e else e')
  {
    hide HeaderAt, Good, Actives, KindAt, Path, MaxPages, Count;
    GcKeepBase(g, f0, f, s, skip, la, e, skip', la', e');
    GcScan(g, f0, f, s, skip, la, e, skip', la', e');
    SectorSpan(g, s);
    var a, b := SectorStart(g, s), SectorStart(g, s + 1);
    var pos, pos' := a + skip, b + skip';
    if skip >= g.sectorPages {
      if !InExtent(g, f0, f, s, skip, la, e) {
        WhollyObsolete(g, f0, f, s, skip);
      }
      KeepInExtent(g, f0, f, s, skip, la, e, skip');
    } else {
      WalkReaches(g, f0, f, s, skip, la, e);
      ActivesTrans(g, f, 0, pos, pos');
      if skip' > 0 {
        OverhangFromZero(g, f, pos, b, e', pos', la');
      }
    }
  }

  lemma OverhangFromZero(g: Geometry, f: Flash, pos: nat, b: nat, e: nat, stop: nat, active: bool)
    requires Overhang(g, f, pos, b, e, stop, active) && Path(g, f, 0, pos)
    ensures Overhang(g, f, 0, b, e, stop, active)
  {
    hide HeaderAt, Good;
    PathTrans(g, f, 0, pos, e);
  }

  lemma KeepInExtent(g: Geometry, f0: Flash, f: Flash, s: nat, skip: nat, la: bool, e: nat, skip': nat)
    requires GcBase(g, f0, f, s, skip, la) && InExtent(g, f0, f, s, skip, la, e) && s < g.sectors
    requires skip >= g.sectorPages && skip' == skip - g.sectorPages
    ensures AtSector(g, f0, f, s + 1, skip', la) || InExtent(g, f0, f, s + 1, skip', la, e)
  {
    hide HeaderAt, Good, Actives, MaxPages;
    SectorSpan(g, s);
    OverhangPath(g, f, 0, SectorStart(g, s), e, SectorStart(g, s) + skip, la);
  }

  /** When no page is pending, the walk of the partly collected flash gets past the carried pages. */
  lemma WalkReaches(g: Geometry, f0: Flash, f: Flash, s: nat, skip: nat, la: bool, e: nat)
    requires GcInv(g, f0, f, s, skip, la, e) && skip < g.sectorPages
    ensures var pos := SectorStart(g, s) + skip;
      Path(g, f, 0, pos) && Actives(g, f, 0, pos) == Actives(g, f0, 0, pos)
  {
    hide HeaderAt, Good, MaxPages;
    var a := SectorStart(g, s);
    if AtSector(g, f0, f, s, skip, la) {
      StopsAreOrdered(g, f0, 0, a + skip);
      IsolatedPath(g, f, a, a + skip);
      ActivesTrans(g, f, 0, a, a + skip);
    } else {
      OverhangPath(g, f, 0, a, e, a + skip, la);
    }
  }

  lemma {:induction false} IsolatedPath(g: Geometry, f: Flash, lo: nat, hi: nat)
    requires lo <= hi <= g.Pages() && Isolated(g, f, lo, hi)
    ensures Path(g, f, lo, hi) && Actives(g, f, lo, hi) == {}
    decreases hi - lo
  {
    hide HeaderAt;
    if lo < hi {
      IsolatedPath(g, f, lo + 1, hi);
    }
  }

  /** A sector covered by carried obsolete pages is erasable. */
  lemma WhollyObsolete(g: Geometry, f0: Flash, f: Flash, s: nat, skip: nat)
    requires GcBase(g, f0, f, s, skip, false) && s < g.sectors && skip >= g.sectorPages
    ensures Erasable(g, f0, s)
  {
    hide Count, HeaderAt, Path;
    SectorSpan(g, s);
    var a, b := SectorStart(g, s), SectorStart(g, s + 1);
    assert forall x :: a <= x < b ==> CarryKind(g, f0, 0, false, x) == Obsolete;
    CountRun(g, f0, 0, false, Active, a, a, b, Obsolete);
    CountRun(g, f0, 0, false, Obsolete, a, a, b, Obsolete);
    CountEmpty(g, f0, 0, false, Active, a);
    CountEmpty(g, f0, 0, false, Obsolete, a);
  }

  lemma CountEmpty(g: Geometry, f: Flash, pos: nat, ca: bool, k: Kind, lo: nat)
    ensures Count(g, f, pos, ca, k, lo, lo) == 0
  {}

  // ----- a sector the collector erases -----

  /** f' is f with sector s erased and the iso pages after it marked isolated. */
  predicate Cleared(g: Geometry, f: Flash, f': Flash, s: nat, iso: nat) {
    var a, b := SectorStart(g, s), SectorStart(g, s + 1);
    && Same(f, f', 0, g.At(a)) && ZeroRange(f', g.At(a), g.At(b))
    && Same(f, f', g.At(b + iso), g.Size()) && Isolated(g, f', b, b + iso)
  }

  lemma NoActivePage(g: Geometry, f: Flash, s: nat, x: nat)
    requires TrueCount(g, f, Active, s) == 0 && SectorStart(g, s) <= x < SectorStart(g, s + 1)
    ensures KindAt(g, f, 0, x) != Active
  {
    hide Count, KindAt;
    if KindAt(g, f, 0, x) == Active {
      CountMember(g, f, 0, false, Active, SectorStart(g, s), SectorStart(g, s + 1), x);
    }
  }

  /** Nothing carried into or out of a sector without active pages is active. */
  lemma NothingActiveCarried(g: Geometry, f0: Flash, f: Flash, s: nat, skip: nat, la: bool, e: nat, skip': nat,
                             la': bool, e': nat)
    requires GcBase(g, f0, f, s, skip, la) && s < g.sectors && ScanStep(g, f, s, skip, la, e, skip', la', e')
    requires TrueCount(g, f0, Active, s) == 0
    ensures (skip > 0 ==> !la) && (skip' > 0 ==> !la')
  {
    hide HeaderAt, Good, Actives, KindAt, Path, MaxPages, TrueCount;
    SectorSpan(g, s);
    var a := SectorStart(g, s);
    if skip > 0 { NoActivePage(g, f0, s, a); }
    GcScan(g, f0, f, s, skip, la, e, skip', la', e');
    if skip < g.sectorPages && skip' > 0 && la' {
      OverhangActive(g, f0, a + skip, SectorStart(g, s + 1), e', SectorStart(g, s + 1) + skip');
      NoActivePage(g, f0, s, e');
    }
  }

  lemma OverhangActive(g: Geometry, f: Flash, pos: nat, b: nat, e: nat, stop: nat)
    requires Overhang(g, f, pos, b, e, stop, true) && Path(g, f, 0, pos)
    ensures KindAt(g, f, 0, e) == Active && pos <= e < b
  {
    hide HeaderAt, Good;
    PathTrans(g, f, 0, pos, e);
    KindSuffix(g, f, 0, e, e);
  }

  lemma NoNewActives(g: Geometry, f0: Flash, f: Flash, s: nat, skip: nat, la: bool, e: nat, skip': nat, la': bool,
                     e': nat)
    requires GcBase(g, f0, f, s, skip, la) && s < g.sectors && ScanStep(g, f, s, skip, la, e, skip', la', e')
    requires TrueCount(g, f0, Active, s) == 0
    ensures Actives(g, f0, 0, SectorStart(g, s + 1) + skip') == Actives(g, f0, 0, SectorStart(g, s) + skip)
  {
    hide HeaderAt, Good, Actives, KindAt, Path, MaxPages, TrueCount;
    var pos, pos' := SectorStart(g, s) + skip, SectorStart(g, s + 1) + skip';
    GcScan(g, f0, f, s, skip, la, e, skip', la', e');
    NothingActiveCarried(g, f0, f, s, skip, la, e, skip', la', e');
    forall x | x in Actives(g, f0, pos, pos') ensures false {
      ActiveFacts(g, f0, pos, pos', x);
      ActivePages(g, f0, pos, pos', x, x);
      KindSuffix(g, f0, 0, pos, x);
      if x < SectorStart(g, s + 1) {
        NoActivePage(g, f0, s, x);
      }
    }
  }

  lemma GcEraseBase(g: Geometry, f0: Flash, f: Flash, f': Flash, s: nat, skip: nat, la: bool, e: nat, skip': nat,
                    la': bool, e': nat, iso: nat)
    requires GcBase(g, f0, f, s, skip, la) && s < g.sectors && ScanStep(g, f, s, skip, la, e, skip', la', e')
    requires TrueCount(g, f0, Active, s) == 0 && Cleared(g, f, f', s, iso) && iso <= skip'
    ensures GcBase(g, f0, f', s + 1, skip', la')
  {
    hide HeaderAt, Good, Actives, KindAt, Path, MaxPages, TrueCount, Isolated;
    var a, b := SectorStart(g, s), SectorStart(g, s + 1);
    var pos, pos' := a + skip, b + skip';
    SectorSpan(g, s);
    GcScan(g, f0, f, s, skip, la, e, skip', la', e');
    NothingActiveCarried(g, f0, f, s, skip, la, e, skip', la', e');
    NoNewActives(g, f0, f, s, skip, la, e, skip', la', e');
    StopsAreOrdered(g, f0, pos, pos');
    AtMono(g, b + iso, pos');
    AtMono(g, pos, pos');
    forall x | x in Actives(g, f0, 0, pos') ensures Kept(g, f0, f', x) {
      ActiveFacts(g, f0, 0, pos, x);
      var end := x + MaxPages(g, f0, x);
      if a < end {
        var y := if x < a then a else x;
        ActivePages(g, f0, 0, pos, x, y);
      }
      AtMono(g, end, a);
    }
  }

  /** After the erasure the walk either still passes over the sector or stops at the next one. */
  lemma GcEraseWalk(g: Geometry, f0: Flash, f: Flash, f': Flash, s: nat, skip: nat, la: bool, e: nat, iso: nat)
    requires GcInv(g, f0, f, s, skip, la, e) && s < g.sectors && (skip > 0 ==> !la) && Cleared(g, f, f', s, iso)
    ensures var a, b := SectorStart(g, s), SectorStart(g, s + 1);
      || (Path(g, f', 0, b) && Actives(g, f', 0, b) == Actives(g, f0, 0, a + skip))
      || (skip > g.sectorPages && Overhang(g, f', 0, b, e, a + skip, la)
          && Actives(g, f', 0, a + skip) == Actives(g, f0, 0, a + skip))
  {
    hide HeaderAt, Good, MaxPages, KindAt, Isolated;
    var a, b := SectorStart(g, s), SectorStart(g, s + 1);
    SectorSpan(g, s);
    if AtSector(g, f0, f, s, skip, la) {
      PathFrame(g, f, f', 0, a);
      NextSectorOf(g, s, a);
      ErasedTail(g, f', a, b);
      ActivesTrans(g, f', 0, a, b);
    } else {
      var pos := a + skip;
      OverhangPath(g, f, 0, a, e, pos, la);
      OverhangKept(g, f, f', a, e, pos, la);
      OverhangPath(g, f', 0, a, e, pos, la);
      if pos <= b {
        if pos < b {
          AtMono(g, a, pos);
          NextSectorOf(g, s, pos);
        }
        ErasedTail(g, f', pos, b);
        ActivesTrans(g, f', 0, pos, b);
      }
    }
  }

  /** An extent that began before the erased pages still carries the walk over them. */
  lemma OverhangKept(g: Geometry, f: Flash, f': Flash, a: nat, e: nat, stop: nat, active: bool)
    requires Wf(g, f) && Overhang(g, f, 0, a, e, stop, active) && Same(f, f', 0, g.At(a))
    ensures Overhang(g, f', 0, a, e, stop, active) && Actives(g, f', 0, e) == Actives(g, f, 0, e)
  {
    hide HeaderAt;
    AtMono(g, e, a);
    PathFrame(g, f, f', 0, e);
    HeaderFrame(g, f, f', e);
  }

  lemma GcErase(g: Geometry, f0: Flash, f: Flash, f': Flash, s: nat, skip: nat, la: bool, e: nat, skip': nat,
                la': bool, e': nat, iso: nat)
    requires GcInv(g, f0, f, s, skip, la, e) && s < g.sectors && ScanStep(g, f, s, skip, la, e, skip', la', e')
    requires TrueCount(g, f0, Active, s) == 0
    requires iso == (if skip' < g.sectorPages then skip' else 0) && Cleared(g, f, f', s, iso)
    ensures GcInv(g, f0, f', s + 1, skip', la', e)
  {
    hide HeaderAt, Good, Actives, KindAt, Path, MaxPages, TrueCount;
    SectorSpan(g, s);
    GcEraseBase(g, f0, f, f', s, skip, la, e, skip', la', e', iso);
    NothingActiveCarried(g, f0, f, s, skip, la, e, skip', la', e');
    NoNewActives(g, f0, f, s, skip, la, e, skip', la', e');
    GcEraseWalk(g, f0, f, f', s, skip, la, e, iso);
  }

  /** After the last sector: the same active extents, all of them kept. */
  lemma GcDone(g: Geometry, f0: Flash, f: Flash, skip: nat, la: bool, e: nat)
    requires GcInv(g, f0, f, g.sectors, skip, la, e)
    ensures LayoutOk(g, f) && Files(g, f) == Files(g, f0)
    ensures forall x :: x in Files(g, f0) ==> Kept(g, f0, f, x)
  {
    hide HeaderAt, Good, Actives, KindAt, MaxPages;
    StopsAreOrdered(g, f0, 0, g.Pages() + skip);
  }

  // ----- what one collection does -----

  /** The first page of the lowest erasable sector from sector s on, or the page count. */
  function FirstErasable(g: Geometry, f: Flash, s: nat): nat
    decreases g.sectors - s
  {
    if s >= g.sectors then g.Pages()
    else if Erasable(g, f, s) then SectorStart(g, s)
    else FirstErasable(g, f, s + 1)
  }

  lemma {:induction false} FirstErasableFrom(g: Geometry, f: Flash, s: nat)
    requires g.Ok() && s <= g.sectors
    ensures SectorStart(g, s) <= FirstErasable(g, f, s) <= g.Pages()
    decreases g.sectors - s
  {
    hide Erasable;
    if s < g.sectors {
      SectorSpan(g, s);
      FirstErasableFrom(g, f, s + 1);
    }
  }

  /** A page a collection has isolated: one behind the first of an obsolete extent. */
  predicate Marked(g: Geometry, f0: Flash, f: Flash, x: nat) {
    && KindAt(g, f0, 0, x) == Obsolete && !OnWalk(g, f0, x)
    && HeaderAt(g, f, x).alloc && HeaderAt(g, f, x).isolated
  }

  predicate InSector(g: Geometry, t: nat, x: nat) { SectorStart(g, t) <= x < SectorStart(g, t + 1) }

  predicate SectorBlank(g: Geometry, f: Flash, t: nat) {
    ZeroRange(f, g.At(SectorStart(g, t)), g.At(SectorStart(g, t + 1)))
  }

  /** f is f0 with the erasable ones of the first s sectors erased, and nothing else touched but pages isolated. */
  ghost predicate ErasedSoFar(g: Geometry, f0: Flash, f: Flash, s: nat) {
    && Same(f0, f, 0, g.At(FirstErasable(g, f0, 0)))
    && (forall t :: 0 <= t < s && Erasable(g, f0, t) ==> SectorBlank(g, f, t))
    && (forall t: nat, x: nat :: t < g.sectors && InSector(g, t, x) && !Erasable(g, f0, t) ==>
       Same(f0, f, g.At(x), g.At(x + 1)) || Marked(g, f0, f, x))
  }

  /** The outcome of a collection that started on f0. */
  ghost predicate Collected(g: Geometry, f0: Flash, f: Flash) {
    && LayoutOk(g, f) && Files(g, f) == Files(g, f0)
    && (forall x :: x in Files(g, f0) ==> Kept(g, f0, f, x))
    && ErasedSoFar(g, f0, f, g.sectors)
  }

  /** next_free after a collection. */
  function LoweredNextFree(g: Geometry, f0: Flash, nextFree: nat): nat {
    var low := FirstErasable(g, f0, 0);
    if low < nextFree then low else nextFree
  }

  lemma LoweredBound(g: Geometry, f0: Flash, nextFree: nat)
    ensures LoweredNextFree(g, f0, nextFree) <= nextFree
  {}

  /** The collector leaves next_free on the walk if and only if the page it lowers it to was
      already a stop of the walk, that is, not inside an extent that begins in a retained sector. */
  lemma NextFreeStaysOnWalk(g: Geometry, f0: Flash, f: Flash, nextFree: nat)
    requires LayoutOk(g, f0) && Collected(g, f0, f)
    ensures OnWalk(g, f, LoweredNextFree(g, f0, nextFree)) <==> OnWalk(g, f0, LoweredNextFree(g, f0, nextFree))
  {
    hide FirstErasable, HeaderAt, Good, Actives;
    var low := FirstErasable(g, f0, 0);
    var n := LoweredNextFree(g, f0, nextFree);
    AtMono(g, n, low);
    if OnWalk(g, f0, n) { PathFrame(g, f0, f, 0, n); }
    if OnWalk(g, f, n) { PathFrame(g, f, f0, 0, n); }
  }

  /** The stop of the walk at or before page x, which gives x its kind. */
  lemma {:induction false} StopBelow(g: Geometry, f: Flash, p: nat, q: nat, x: nat) returns (e: nat)
    requires Path(g, f, p, q) && p <= x < q
    ensures p <= e <= x < Next(g, f, e) && Path(g, f, p, e) && Good(g, f, e)
    ensures KindAt(g, f, p, x) == KindOf(HeaderAt(g, f, e)) == KindAt(g, f, p, e)
    decreases g.Pages() - p
  {
    hide HeaderAt;
    var n := Next(g, f, p);
    if x < n {
      e := p;
    } else {
      e := StopBelow(g, f, n, q, x);
    }
  }

  lemma {:induction false} FirstIsErasable(g: Geometry, f: Flash, s: nat) returns (t: nat)
    requires FirstErasable(g, f, s) < g.Pages()
    ensures Erasable(g, f, t) && FirstErasable(g, f, s) == SectorStart(g, t)
    decreases g.sectors - s
  {
    hide Erasable;
    if Erasable(g, f, s) {
      t := s;
    } else {
      t := FirstIsErasable(g, f, s + 1);
    }
  }

  /** Extents that straddle a sector border need sectors of several pages, and several sectors. */
  predicate MayStray(g: Geometry) { 2 <= g.sectorPages && 2 <= g.sectors }

  /** With a single sector, or one page a sector, no collection lowers next_free off the walk. */
  lemma NeverStrays(g: Geometry, f: Flash, nextFree: nat)
    requires LayoutOk(g, f) && OnWalk(g, f, nextFree) && !MayStray(g)
    ensures OnWalk(g, f, LoweredNextFree(g, f, nextFree))
  {
    hide FirstErasable, HeaderAt, Good, Actives, KindAt, Erasable;
    var low := FirstErasable(g, f, 0);
    if low < nextFree {
      StopsAreOrdered(g, f, 0, nextFree);
      var t := FirstIsErasable(g, f, 0);
      FirstErasableFrom(g, f, 0);
      if g.sectors == 1 {
        OnlySector(g, f, t);
      } else {
        TimesIsProduct(t, 1);
        var e := StopBelow(g, f, 0, g.Pages(), low);
        if e < low {
          OnePageErasable(g, f, t, low, e);
          ErasableIsListed(g, f, 0, e);
          TimesIsProduct(e, 1);
        }
      }
    }
  }

  lemma OnlySector(g: Geometry, f: Flash, t: nat)
    requires g.sectors == 1 && Erasable(g, f, t)
    ensures SectorStart(g, t) == 0
  {
    hide TrueCount;
  }

  /** With one page a sector, the first page of an obsolete extent is erasable if a later one is. */
  lemma OnePageErasable(g: Geometry, f: Flash, t: nat, low: nat, e: nat)
    requires g.sectorPages == 1 && t == low && e < low && Erasable(g, f, t)
             && KindAt(g, f, 0, low) == KindAt(g, f, 0, e)
    ensures Erasable(g, f, e)
  {
    hide KindAt;
    TimesIsProduct(t, 1);
    TimesIsProduct(t + 1, 1);
    TimesIsProduct(e, 1);
    TimesIsProduct(e + 1, 1);
    OnePageCount(g, f, Active, t);
    OnePageCount(g, f, Obsolete, t);
    OnePageCount(g, f, Active, e);
    OnePageCount(g, f, Obsolete, e);
  }

  lemma OnePageCount(g: Geometry, f: Flash, k: Kind, s: nat)
    requires SectorStart(g, s) == s && SectorStart(g, s + 1) == s + 1
    ensures TrueCount(g, f, k, s) == if KindAt(g, f, 0, s) == k then 1 else 0
  {
    hide KindAt;
    assert Count(g, f, 0, false, k, s, s) == 0;
  }

  lemma {:induction false} ErasableIsListed(g: Geometry, f: Flash, s: nat, t: nat)
    requires g.Ok() && s <= t && Erasable(g, f, t)
    ensures FirstErasable(g, f, s) <= SectorStart(g, t)
    decreases t - s
  {
    hide TrueCount;
    if s < t && !Erasable(g, f, s) {
      ErasableIsListed(g, f, s + 1, t);
    } else {
      TimesMono(s, t, g.sectorPages);
    }
  }

  lemma ErasedKeep(g: Geometry, f0: Flash, f: Flash, s: nat)
    requires ErasedSoFar(g, f0, f, s) && !Erasable(g, f0, s)
    ensures ErasedSoFar(g, f0, f, s + 1)
  {
    hide Erasable, FirstErasable;
  }

  lemma BlankStays(g: Geometry, f: Flash, f': Flash, s: nat, iso: nat, t: nat)
    requires Cleared(g, f, f', s, iso) && t <= s && (t < s ==> SectorBlank(g, f, t))
    ensures SectorBlank(g, f', t)
  {
    hide Isolated;
    if t < s {
      TimesMono(t + 1, s, g.sectorPages);
      AtMono(g, SectorStart(g, t + 1), SectorStart(g, s));
    }
  }

  lemma OthersStay(g: Geometry, f: Flash, f': Flash, s: nat, iso: nat, t: nat, x: nat)
    requires g.Ok() && Cleared(g, f, f', s, iso) && t < g.sectors && s < g.sectors && InSector(g, t, x) && s != t
    requires !(SectorStart(g, s + 1) <= x < SectorStart(g, s + 1) + iso)
    ensures Same(f, f', g.At(x), g.At(x + 1))
  {
    hide Isolated;
    UntouchedOutside(g, s, t, x);
    SectorSpan(g, t);
    AtMono(g, x + 1, g.Pages());
    if x < SectorStart(g, s) {
      AtMono(g, x + 1, SectorStart(g, s));
    } else {
      AtMono(g, SectorStart(g, s + 1) + iso, x);
    }
  }

  lemma ErasedErase(g: Geometry, f0: Flash, f: Flash, f': Flash, s: nat, iso: nat)
    requires g.Ok() && ErasedSoFar(g, f0, f, s) && Erasable(g, f0, s) && s < g.sectors && Cleared(g, f, f', s, iso)
    requires forall x: nat :: SectorStart(g, s + 1) <= x < SectorStart(g, s + 1) + iso ==>
               KindAt(g, f0, 0, x) == Obsolete && !OnWalk(g, f0, x)
    requires Wf(g, f)
    ensures ErasedSoFar(g, f0, f', s + 1)
  {
    hide Erasable, FirstErasable, KindAt, Isolated, SectorBlank, HeaderAt, OnWalk;
    ErasableIsListed(g, f0, 0, s);
    AtMono(g, FirstErasable(g, f0, 0), SectorStart(g, s));
    forall t | 0 <= t < s + 1 && Erasable(g, f0, t) ensures SectorBlank(g, f', t) {
      BlankStays(g, f, f', s, iso, t);
    }
    forall t: nat, x: nat | t < g.sectors && InSector(g, t, x) && !Erasable(g, f0, t)
      ensures Same(f0, f', g.At(x), g.At(x + 1)) || Marked(g, f0, f', x)
    {
      if SectorStart(g, s + 1) <= x < SectorStart(g, s + 1) + iso {
        IsolatedAt(g, f', SectorStart(g, s + 1), SectorStart(g, s + 1) + iso, x);
      } else {
        OthersStay(g, f, f', s, iso, t, x);
        SectorSpan(g, t);
        PageHeaderFrame(g, f, f', x);
      }
    }
  }

  lemma IsolatedAt(g: Geometry, f: Flash, lo: nat, hi: nat, x: nat)
    requires Isolated(g, f, lo, hi) && lo <= x < hi
    ensures HeaderAt(g, f, x).alloc && HeaderAt(g, f, x).isolated
  {
    hide HeaderAt;
  }

  /** The header lies within its page. */
  lemma PageHeaderFrame(g: Geometry, f: Flash, f': Flash, x: nat)
    requires Wf(g, f) && x < g.Pages() && Same(f, f', g.At(x), g.At(x + 1))
    ensures HeaderAt(g, f', x) == HeaderAt(g, f, x)
  {
    hide HeaderAt;
    AtMono(g, x + 1, g.Pages());
    AtMono(g, x, x + 1);
    HeaderFrame(g, f, f', x);
  }

  lemma UntouchedOutside(g: Geometry, s: nat, t: nat, x: nat)
    requires SectorStart(g, t) <= x < SectorStart(g, t + 1) && s != t
    ensures x < SectorStart(g, s) || SectorStart(g, s + 1) <= x
  {
    if t < s { TimesMono(t + 1, s, g.sectorPages); } else { TimesMono(s + 1, t, g.sectorPages); }
  }

  // ----- one round of the collector's loop -----

  lemma {:induction false} FirstErasablePasses(g: Geometry, f: Flash, s: nat, t: nat)
    requires g.Ok() && s <= t < g.sectors && SectorStart(g, t) <= FirstErasable(g, f, s) && !Erasable(g, f, t)
    ensures SectorStart(g, t + 1) <= FirstErasable(g, f, s)
    decreases t - s
  {
    hide Erasable;
    if s < t {
      TimesMono(s, t, g.sectorPages);
      FirstErasablePasses(g, f, s + 1, t);
    } else {
      FirstErasableFrom(g, f, s + 1);
    }
  }

  /** next_free while the first s sectors have been visited. */
  predicate NextFreeSoFar(g: Geometry, f0: Flash, s: nat, nextFree0: nat, nextFree: nat) {
    nextFree == if FirstErasable(g, f0, 0) < SectorStart(g, s) then LoweredNextFree(g, f0, nextFree0) else nextFree0
  }

  /** Everything the collector's loop keeps. */
  ghost predicate Collecting(g: Geometry, f0: Flash, f: Flash, s: nat, skip: nat, la: bool, e: nat, nextFree0: nat,
                             nextFree: nat) {
    GcInv(g, f0, f, s, skip, la, e) && ErasedSoFar(g, f0, f, s) && NextFreeSoFar(g, f0, s, nextFree0, nextFree)
  }

  lemma CollectBegins(g: Geometry, f: Flash, nextFree: nat)
    requires LayoutOk(g, f)
    ensures Collecting(g, f, f, 0, 0, false, 0, nextFree, nextFree)
  {
    GcStart(g, f);
  }

  /** The walk can be resumed where the carried state points. */
  lemma CollectResumes(g: Geometry, f0: Flash, f: Flash, s: nat, skip: nat, la: bool, e: nat, nextFree0: nat,
                       nextFree: nat)
    requires Collecting(g, f0, f, s, skip, la, e, nextFree0, nextFree)
    ensures Wf(g, f) && Path(g, f, SectorStart(g, s) + skip, g.Pages())
  {
    hide HeaderAt, Good, Actives, KindAt, Erasable, FirstErasable, MaxPages;
    PathSplit(g, f0, 0, SectorStart(g, s) + skip, g.Pages());
    PathFrame(g, f0, f, SectorStart(g, s) + skip, g.Pages());
  }

  /** The reported counts are the true ones of the original layout. */
  lemma ReportIsTrue(g: Geometry, f0: Flash, f: Flash, s: nat, skip: nat, la: bool, e: nat, nextFree0: nat,
                     nextFree: nat,
                     stats: SectorStatus, skip': nat, la': bool, e': nat)
    requires Collecting(g, f0, f, s, skip, la, e, nextFree0, nextFree) && s < g.sectors
    requires Reported(g, f, s, skip, la, e, stats, skip', la', e')
    ensures stats.active == TrueCount(g, f0, Active, s) && stats.obsolete == TrueCount(g, f0, Obsolete, s)
    ensures stats.free == TrueCount(g, f0, Free, s)
  {
    hide HeaderAt, Good, Actives, KindAt, FirstErasable, Count, Path, TrueCount;
    GcCounts(g, f0, f, s, skip, la, Active);
    GcCounts(g, f0, f, s, skip, la, Obsolete);
    GcCounts(g, f0, f, s, skip, la, Free);
  }

  lemma CollectKeeps(g: Geometry, f0: Flash, f: Flash, s: nat, skip: nat, la: bool, e: nat, nextFree0: nat,
                     nextFree: nat,
                     stats: SectorStatus, skip': nat, la': bool, e': nat)
    requires Collecting(g, f0, f, s, skip, la, e, nextFree0, nextFree) && s < g.sectors && !Erasable(g, f0, s)
    requires Reported(g, f, s, skip, la, e, stats, skip', la', e')
    ensures Collecting(g, f0, f, s + 1, skip', la', if skip >= g.sectorPages then e else e', nextFree0, nextFree)
  {
    hide HeaderAt, Good, Actives, KindAt, FirstErasable, Count, Path, Erasable, AtSector, InExtent;
    GcKeep(g, f0, f, s, skip, la, e, skip', la', e');
    ErasedKeep(g, f0, f, s);
    SectorSpan(g, s);
    if SectorStart(g, s) <= FirstErasable(g, f0, 0) {
      FirstErasablePasses(g, f0, 0, s);
    }
  }

  lemma CollectErases(g: Geometry, f0: Flash, f: Flash, f': Flash, s: nat, skip: nat, la: bool, e: nat,
                      nextFree0: nat, nextFree: nat,
                      stats: SectorStatus, skip': nat, la': bool, e': nat, isolate: nat)
    requires Collecting(g, f0, f, s, skip, la, e, nextFree0, nextFree) && s < g.sectors && Erasable(g, f0, s)
    requires Reported(g, f, s, skip, la, e, stats, skip', la', e')
    requires isolate == (if la' || skip' >= g.sectorPages then 0 else skip') && Cleared(g, f, f', s, isolate)
    ensures Collecting(g, f0, f', s + 1, skip', la', e, nextFree0, if SectorStart(g, s) < nextFree
            then SectorStart(g, s) else nextFree)
  {
    hide HeaderAt, Good, Actives, KindAt, FirstErasable, Count, Path, AtSector, InExtent, TrueCount, Cleared;
    NothingActiveCarried(g, f0, f, s, skip, la, e, skip', la', e');
    GcErase(g, f0, f, f', s, skip, la, e, skip', la', e', isolate);
    GcScan(g, f0, f, s, skip, la, e, skip', la', e');
    CollectResumes(g, f0, f, s, skip, la, e, nextFree0, nextFree);
    ErasedErase(g, f0, f, f', s, isolate);
    ErasableIsListed(g, f0, 0, s);
    SectorSpan(g, s);
  }

  lemma CollectEnds(g: Geometry, f0: Flash, f: Flash, skip: nat, la: bool, e: nat, nextFree0: nat, nextFree: nat)
    requires Collecting(g, f0, f, g.sectors, skip, la, e, nextFree0, nextFree) && nextFree0 <= g.Pages()
    ensures Collected(g, f0, f) && nextFree == LoweredNextFree(g, f0, nextFree0)
  {
    hide HeaderAt, Good, Actives, KindAt, Path, AtSector, InExtent, FirstErasable, Erasable;
    GcDone(g, f0, f, skip, la, e);
    FirstErasableFrom(g, f0, 0);
  }

  /** A retained extent ends before the last sector does. */
  lemma IsolationFits(g: Geometry, f0: Flash, f: Flash, s: nat, skip: nat, la: bool, e: nat, nextFree0: nat,
                      nextFree: nat,
                      stats: SectorStatus, skip': nat, la': bool, e': nat)
    requires Collecting(g, f0, f, s, skip, la, e, nextFree0, nextFree) && s < g.sectors
    requires Reported(g, f, s, skip, la, e, stats, skip', la', e')
    ensures SectorStart(g, s + 1) + skip' <= g.Pages()
  {
    hide HeaderAt, Good, Actives, KindAt, FirstErasable, Count, AtSector, InExtent, TrueCount;
    GcScan(g, f0, f, s, skip, la, e, skip', la', e');
  }

  lemma IsolateOne(g: Geometry, f: Flash, start: nat, page: nat, hdr: Header)
    requires Wf(g, f) && start <= page < g.Pages() && Isolated(g, f, start, page)
    requires hdr.Encodable() && hdr.alloc && hdr.isolated && g.At(page) + HEADER_SIZE <= |f|
    ensures Isolated(g, Written(f, g.At(page), Encode(hdr)), start, page + 1)
  {
    hide Decode, Encode;
    var f' := Written(f, g.At(page), Encode(hdr));
    HeaderWritten(g, f, page, hdr);
    forall x | start <= x < page ensures HeaderAt(g, f', x) == HeaderAt(g, f, x) {
      AtMono(g, x, page);
      HeaderFrame(g, f, f', x);
    }
  }

  lemma ErasableByCounts(g: Geometry, f: Flash, s: nat)
    requires s < g.sectors
    ensures Erasable(g, f, s) <==> TrueCount(g, f, Active, s) == 0 && TrueCount(g, f, Obsolete, s) > 0
  {}

  lemma ClearedBy(g: Geometry, f: Flash, f1: Flash, f2: Flash, s: nat, iso: nat)
    requires Wf(g, f) && s < g.sectors && SectorStart(g, s + 1) + iso <= g.Pages()
    requires var a, b := SectorStart(g, s), SectorStart(g, s + 1);
      && Same(f, f1, 0, g.At(b)) && Same(f, f1, g.At(b + iso), g.Size()) && Isolated(g, f1, b, b + iso)
      && Same(f1, f2, 0, g.At(a)) && ZeroRange(f2, g.At(a), g.At(b)) && Same(f1, f2, g.At(b), g.Size())
    ensures Cleared(g, f, f2, s, iso)
  {
    hide HeaderAt;
    var a, b := SectorStart(g, s), SectorStart(g, s + 1);
    SectorSpan(g, s);
    AtMono(g, a, b);
    AtMono(g, b, b + iso);
    forall x | b <= x < b + iso ensures HeaderAt(g, f2, x) == HeaderAt(g, f1, x) {
      AtMono(g, b, x);
      AtMono(g, x, g.Pages());
      HeaderFrame(g, f1, f2, x);
    }
  }
}
