/** The layout of the flash as the page walk of next_file sees it: free sector tails,
    isolated pages and file extents, and how device writes change that view. */
module CoffeeLayout {
  import opened CoffeeFlash

  predicate Wf(g: Geometry, f: Flash) { g.Ok() && |f| == g.Size() }

  // ----- the walk -----

  /** The first page of sector s. */
  function SectorStart(g: Geometry, s: nat): nat { Times(s, g.sectorPages) }

  /** The first page of the sector after the one holding the page: the least multiple of
      the sector size above it. */
  function NextSector(g: Geometry, page: nat): nat {
    if page < g.sectorPages || g.sectorPages == 0 then g.sectorPages
    else NextSector(g, page - g.sectorPages) + g.sectorPages
  }

  /** A page of sector s has the start of sector s + 1 as its next sector. */
  lemma {:induction false} NextSectorOf(g: Geometry, s: nat, page: nat)
    requires g.Ok() && SectorStart(g, s) <= page < SectorStart(g, s + 1)
    ensures NextSector(g, page) == SectorStart(g, s + 1)
  {
    if s > 0 {
      TimesMono(1, s, g.sectorPages);
      NextSectorOf(g, s - 1, page - g.sectorPages);
    }
  }

  predicate PowerOfTwo(n: nat) { n == 1 || (n >= 2 && n % 2 == 0 && PowerOfTwo(n / 2)) }

  /** a & ~b. */
  function AndNot(a: nat, b: nat): nat {
    if a == 0 then 0 else 2 * AndNot(a / 2, b / 2) + (if a % 2 == 1 && b % 2 == 0 then 1 else 0)
  }

  lemma {:induction false} TimesTwice(k: nat, n: nat)
    ensures Times(k, 2 * n) == 2 * Times(k, n)
  {
    if k > 0 {
      TimesTwice(k - 1, n);
    }
  }

  lemma {:induction false} MaskedByNothing(a: nat)
    ensures AndNot(a, 0) == a
  {
    if a > 0 {
      MaskedByNothing(a / 2);
    }
  }

  /** Masking with n - 1, for a power of two, leaves the greatest multiple of n up to a. */
  lemma {:induction false} Masked(a: nat, n: nat) returns (k: nat)
    requires PowerOfTwo(n)
    ensures AndNot(a, n - 1) == Times(k, n) <= a < Times(k, n) + n
    decreases n
  {
    if n == 1 {
      MaskedByNothing(a);
      TimesIsProduct(a, 1);
      k := a;
    } else {
      k := Masked(a / 2, n / 2);
      TimesTwice(k, n / 2);
      assert (n - 1) / 2 == n / 2 - 1;
    }
  }

  /** That is what the code computes with its mask, the sector size being a power of two. */
  lemma SectorMask(g: Geometry, page: nat)
    requires g.Ok() && PowerOfTwo(g.sectorPages)
    ensures NextSector(g, page) == AndNot(page + g.sectorPages, g.sectorPages - 1)
  {
    hide AndNot, PowerOfTwo, NextSector;
    var k := Masked(page + g.sectorPages, g.sectorPages);
    if k > 0 {
      NextSectorOf(g, k - 1, page);
    }
  }

  /** For other sector sizes the mask goes astray: with three pages a sector, page 3 is followed by page 4. */
  lemma MaskNeedsPower()
    ensures var g := Geometry(40, 3, 2, 1, 1, 1, 40, 0); NextSector(g, 3) == 6
                                                         && AndNot(3 + g.sectorPages, g.sectorPages - 1) == 4
  {
    assert AndNot(6, 2) == 2 * AndNot(3, 1) && AndNot(3, 1) == 2 * AndNot(1, 0) && AndNot(1, 0) == 1;
  }

  lemma {:induction false} NextSectorBounds(g: Geometry, page: nat)
    requires g.Ok() && page < g.Pages()
    ensures page < NextSector(g, page) <= g.Pages()
  {
    NextSectorUpTo(g, page, g.sectors);
  }

  lemma {:induction false} NextSectorUpTo(g: Geometry, page: nat, s: nat)
    requires g.Ok() && page < Times(s, g.sectorPages)
    ensures page < NextSector(g, page) <= Times(s, g.sectorPages)
  {
    if page >= g.sectorPages {
      NextSectorUpTo(g, page - g.sectorPages, s - 1);
    }
  }

  lemma SectorSpan(g: Geometry, s: nat)
    requires g.Ok() && s < g.sectors
    ensures SectorStart(g, s) + g.sectorPages == SectorStart(g, s + 1) <= g.Pages()
  {
    TimesMono(s + 1, g.sectors, g.sectorPages);
  }

  /** next_file: where the walk goes after a page with this header. */
  function NextFile(g: Geometry, page: nat, h: Header): int {
    if !h.alloc then NextSector(g, page)
    else if h.isolated then page + 1
    else page + h.maxPages
  }

  function Next(g: Geometry, f: Flash, page: nat): int { NextFile(g, page, HeaderAt(g, f, page)) }

  /** The walk may step from this page: a free header promises an erased sector tail,
      an extent has at least one page and stays on the device. */
  predicate Good(g: Geometry, f: Flash, page: nat) {
    && page < g.Pages()
    && var h := HeaderAt(g, f, page);
       if !h.alloc then ZeroRange(f, g.At(page), g.At(NextSector(g, page)))
       else h.isolated || 1 <= h.maxPages <= g.Pages() - page
  }

  lemma GoodAdvances(g: Geometry, f: Flash, page: nat)
    requires g.Ok() && Good(g, f, page)
    ensures page < Next(g, f, page) <= g.Pages()
  {
    NextSectorBounds(g, page);
  }

  /** The walk leads from page p to page q over good pages only. */
  predicate Path(g: Geometry, f: Flash, p: nat, q: nat)
    decreases g.Pages() - p
  {
    && p <= q <= g.Pages()
    && (p == q || (Good(g, f, p) && p < Next(g, f, p) <= q && Path(g, f, Next(g, f, p), q)))
  }

  /** The walk from page 0 covers the whole device. */
  predicate LayoutOk(g: Geometry, f: Flash) { Wf(g, f) && Path(g, f, 0, g.Pages()) }

  predicate OnWalk(g: Geometry, f: Flash, page: nat) { Path(g, f, 0, page) }

  lemma {:induction false} PathTrans(g: Geometry, f: Flash, p: nat, q: nat, r: nat)
    requires Path(g, f, p, q) && Path(g, f, q, r)
    ensures Path(g, f, p, r)
    decreases g.Pages() - p
  {
    if p != q {
      PathTrans(g, f, Next(g, f, p), q, r);
    }
  }

  /** The walk is deterministic: two stops on it are connected. */
  lemma {:induction false} PathSplit(g: Geometry, f: Flash, p: nat, q: nat, r: nat)
    requires Path(g, f, p, q) && Path(g, f, p, r) && q <= r
    ensures Path(g, f, q, r)
    decreases g.Pages() - p
  {
    if p != q {
      PathSplit(g, f, Next(g, f, p), q, r);
    }
  }

  lemma StopsAreOrdered(g: Geometry, f: Flash, p: nat, q: nat)
    requires Path(g, f, p, q)
    ensures p <= q <= g.Pages() && Path(g, f, p, p) && Path(g, f, q, q)
  {}

  /** The starts of the active extents on the walk from p to q. */
  function Actives(g: Geometry, f: Flash, p: nat, q: nat): set<nat>
    decreases g.Pages() - p
  {
    if p < q <= g.Pages() && p < Next(g, f, p) then
      (if HeaderAt(g, f, p).Active() then {p} else {}) + Actives(g, f, Next(g, f, p), q)
    else {}
  }

  lemma {:induction false} ActivesTrans(g: Geometry, f: Flash, p: nat, q: nat, r: nat)
    requires Path(g, f, p, q) && Path(g, f, q, r)
    ensures Path(g, f, p, r) && Actives(g, f, p, r) == Actives(g, f, p, q) + Actives(g, f, q, r)
    decreases g.Pages() - p
  {
    PathTrans(g, f, p, q, r);
    if p != q {
      ActivesTrans(g, f, Next(g, f, p), q, r);
    }
  }

  /** The page count in the header at x. */
  function MaxPages(g: Geometry, f: Flash, x: nat): nat {
    var n := HeaderAt(g, f, x).maxPages;
    if n < 0 then 0 else n
  }

  lemma {:induction false} ActiveFacts(g: Geometry, f: Flash, p: nat, q: nat, x: nat)
    requires Path(g, f, p, q) && x in Actives(g, f, p, q)
    ensures p <= x < q && Path(g, f, p, x) && Good(g, f, x) && HeaderAt(g, f, x).Active()
    ensures 1 <= MaxPages(g, f, x) && x + MaxPages(g, f, x) <= q && Path(g, f, x + MaxPages(g, f, x), q)
    decreases g.Pages() - p
  {
    hide HeaderAt;
    if x in Actives(g, f, Next(g, f, p), q) {
      ActiveFacts(g, f, Next(g, f, p), q, x);
    }
  }

  lemma {:induction false} ActiveIfOnPath(g: Geometry, f: Flash, p: nat, q: nat, x: nat)
    requires Path(g, f, p, q) && Path(g, f, p, x) && x < q && HeaderAt(g, f, x).Active()
    ensures x in Actives(g, f, p, q)
    decreases g.Pages() - p
  {
    if x != p {
      ActiveIfOnPath(g, f, Next(g, f, p), q, x);
    }
  }

  /** Two active extents share no page. */
  lemma ActivesDisjoint(g: Geometry, f: Flash, p: nat, q: nat, x: nat, y: nat)
    requires Path(g, f, p, q) && x in Actives(g, f, p, q) && y in Actives(g, f, p, q) && x < y
    ensures x + MaxPages(g, f, x) <= y
  {
    ActiveFacts(g, f, p, q, x);
    ActiveFacts(g, f, p, q, y);
    PathSplit(g, f, p, x, y);
  }

  // ----- frames -----

  lemma GoodFrame(g: Geometry, f: Flash, f': Flash, p: nat)
    requires Wf(g, f) && Good(g, f, p) && p < Next(g, f, p) && Same(f, f', g.At(p), g.At(Next(g, f, p)))
    ensures HeaderAt(g, f', p) == HeaderAt(g, f, p) && Good(g, f', p)
  {
    AtMono(g, p, Next(g, f, p));
    HeaderFrame(g, f, f', p);
  }

  lemma {:induction false} PathFrame(g: Geometry, f: Flash, f': Flash, p: nat, q: nat)
    requires Wf(g, f) && Path(g, f, p, q) && Same(f, f', g.At(p), g.At(q))
    ensures Path(g, f', p, q) && Actives(g, f', p, q) == Actives(g, f, p, q)
    decreases g.Pages() - p
  {
    hide HeaderAt;
    if p != q {
      var n := Next(g, f, p);
      AtMono(g, p, n);
      AtMono(g, n, q);
      GoodFrame(g, f, f', p);
      PathFrame(g, f, f', n, q);
    }
  }

  /** Extent x of f is found unchanged in f'. */
  predicate Kept(g: Geometry, f: Flash, f': Flash, x: nat) {
    Same(f, f', g.At(x), g.At(x + MaxPages(g, f, x)))
  }

  lemma KeptHeader(g: Geometry, f: Flash, f': Flash, x: nat)
    requires Wf(g, f) && x < g.Pages() && Kept(g, f, f', x) && 1 <= MaxPages(g, f, x)
    ensures HeaderAt(g, f', x) == HeaderAt(g, f, x)
  {
    AtMono(g, x, x + MaxPages(g, f, x));
    HeaderFrame(g, f, f', x);
  }

  // ----- one extent changes -----

  function Files(g: Geometry, f: Flash): set<nat> { Actives(g, f, 0, g.Pages()) }

  /** Only the extent at q changed, and it kept its size: header flags or data were rewritten. */
  predicate Updated(g: Geometry, f: Flash, f': Flash, q: nat) {
    && LayoutOk(g, f) && q in Files(g, f)
    && Same(f, f', 0, g.At(q)) && Same(f, f', g.At(q + MaxPages(g, f, q)), g.Size())
    && HeaderAt(g, f', q).Extent() && MaxPages(g, f', q) == MaxPages(g, f, q)
  }

  lemma UpdatedPaths(g: Geometry, f: Flash, f': Flash, q: nat)
    requires Updated(g, f, f', q)
    ensures var n := q + MaxPages(g, f, q);
      && n <= g.Pages() && Path(g, f, 0, q) && Path(g, f, q, n) && Path(g, f, n, g.Pages())
      && Path(g, f', 0, q) && Path(g, f', q, n) && Path(g, f', n, g.Pages())
      && Actives(g, f', 0, q) == Actives(g, f, 0, q)
      && Actives(g, f', n, g.Pages()) == Actives(g, f, n, g.Pages())
      && Actives(g, f, q, n) == {q}
      && Actives(g, f', q, n) == if HeaderAt(g, f', q).Active() then {q} else {}
  {
    hide HeaderAt;
    var n := q + MaxPages(g, f, q);
    ActiveFacts(g, f, 0, g.Pages(), q);
    AtMono(g, n, g.Pages());
    PathFrame(g, f, f', 0, q);
    PathFrame(g, f, f', n, g.Pages());
    assert Good(g, f', q) && Next(g, f', q) == n;
    assert Actives(g, f, q, n) == {q} + Actives(g, f, n, n);
  }

  lemma ExtentUpdate(g: Geometry, f: Flash, f': Flash, q: nat)
    requires Updated(g, f, f', q)
    ensures LayoutOk(g, f')
    ensures Files(g, f') == Files(g, f) - {q} + (if HeaderAt(g, f', q).Active() then {q} else {})
  {
    hide HeaderAt, MaxPages, Path, Good;
    UpdatedPaths(g, f, f', q);
    var n := q + MaxPages(g, f, q);
    ActivesTrans(g, f, 0, q, n);
    ActivesTrans(g, f, 0, n, g.Pages());
    ActivesTrans(g, f', 0, q, n);
    ActivesTrans(g, f', 0, n, g.Pages());
    forall x | x in Actives(g, f, 0, q) ensures x < q { ActiveFacts(g, f, 0, q, x); }
    forall x | x in Actives(g, f, n, g.Pages()) ensures n <= x { ActiveFacts(g, f, n, g.Pages(), x); }
  }

  /** Every stop of the walk stays one. */
  lemma UpdatedStops(g: Geometry, f: Flash, f': Flash, q: nat, x: nat)
    requires Updated(g, f, f', q) && Path(g, f, 0, x)
    ensures Path(g, f', 0, x)
  {
    hide HeaderAt, MaxPages, Actives, Path, Good;
    UpdatedPaths(g, f, f', q);
    var n := q + MaxPages(g, f, q);
    if x <= q {
      AtMono(g, x, q);
      PathFrame(g, f, f', 0, x);
    } else {
      StopAfterExtent(g, f, q, x);
      AtMono(g, x, g.Pages());
      PathFrame(g, f, f', n, x);
      PathTrans(g, f', q, n, x);
      PathTrans(g, f', 0, q, x);
    }
  }

  lemma StopAfterExtent(g: Geometry, f: Flash, q: nat, x: nat)
    requires LayoutOk(g, f) && q in Files(g, f) && Path(g, f, 0, x) && q < x
    ensures q + MaxPages(g, f, q) <= x <= g.Pages() && Path(g, f, q + MaxPages(g, f, q), x)
  {
    hide Actives, Good, HeaderAt;
    ActiveFacts(g, f, 0, g.Pages(), q);
    PathSplit(g, f, 0, q, x);
    assert Next(g, f, q) == q + MaxPages(g, f, q);
  }

  // ----- a free run becomes an extent -----

  /** [start, start + amount) is free for a new extent; the walk resumes at stop. */
  predicate FreeRun(g: Geometry, f: Flash, start: nat, amount: nat, stop: nat) {
    && LayoutOk(g, f) && Path(g, f, 0, start) && Path(g, f, start, stop) && 1 <= amount
    && start + amount <= stop && ZeroRange(f, g.At(start), g.At(stop))
    && (start + amount == stop || NextSector(g, start + amount) == stop)
  }

  /** The device after the header of a new extent was written at the start of a free run. */
  function WithHeader(g: Geometry, f: Flash, page: nat, h: Header): (f': Flash)
    requires Wf(g, f) && page < g.Pages() && h.Encodable()
    ensures |f'| == |f|
  {
    AtMono(g, page, g.Pages());
    Written(f, g.At(page), Encode(h))
  }

  lemma NewExtentPaths(g: Geometry, f: Flash, start: nat, amount: nat, stop: nat, h: Header)
    requires FreeRun(g, f, start, amount, stop) && h.Encodable() && h.Extent() && h.maxPages == amount
    ensures var n, f' := start + amount, WithHeader(g, f, start, h);
      && stop <= g.Pages() && Path(g, f, stop, g.Pages())
      && HeaderAt(g, f', start) == h
      && Same(f, f', 0, g.At(start)) && Same(f, f', g.At(start) + HEADER_SIZE, g.Size())
      && g.At(start) + HEADER_SIZE <= g.At(n) <= g.At(stop) <= g.Size()
      && Path(g, f', 0, start) && Actives(g, f', 0, start) == Actives(g, f, 0, start)
      && Path(g, f', start, n) && Actives(g, f', start, n) == (if h.Active() then {start} else {})
      && Path(g, f', n, stop) && Actives(g, f', n, stop) == {}
      && Path(g, f', stop, g.Pages()) && Actives(g, f', stop, g.Pages()) == Actives(g, f, stop, g.Pages())
  {
    hide HeaderAt;
    var n, f' := start + amount, WithHeader(g, f, start, h);
    AtMono(g, start, n);
    AtMono(g, n, stop);
    AtMono(g, stop, g.Pages());
    HeaderWritten(g, f, start, h);
    PathFrame(g, f, f', 0, start);
    PathSplit(g, f, 0, start, g.Pages());
    PathSplit(g, f, start, stop, g.Pages());
    PathFrame(g, f, f', stop, g.Pages());
    assert Good(g, f', start) && Next(g, f', start) == n;
    ErasedTail(g, f', n, stop);
  }

  lemma ErasedTail(g: Geometry, f: Flash, n: nat, stop: nat)
    requires Wf(g, f) && n <= stop <= g.Pages() && (n == stop || NextSector(g, n) == stop)
    requires ZeroRange(f, g.At(n), g.At(stop))
    ensures Path(g, f, n, stop) && Actives(g, f, n, stop) == {}
  {
    hide HeaderAt;
    if n < stop {
      AtMono(g, n, stop);
      HeaderErased(g, f, n);
      assert Good(g, f, n) && Next(g, f, n) == stop;
    }
    ErasedHasNoActives(g, f, n, stop);
  }

  lemma ReserveUpdate(g: Geometry, f: Flash, start: nat, amount: nat, stop: nat, h: Header)
    requires FreeRun(g, f, start, amount, stop) && h.Encodable() && h.Extent() && h.maxPages == amount
    ensures var f' := WithHeader(g, f, start, h);
      && LayoutOk(g, f') && HeaderAt(g, f', start) == h
      && Files(g, f') == Files(g, f) + (if h.Active() then {start} else {})
      && start !in Files(g, f) && Path(g, f', 0, start) && Path(g, f', 0, start + amount)
      && ZeroRange(f', g.At(start) + HEADER_SIZE, g.At(start + amount))
  {
    hide Path, Good, Actives;
    NewExtentPaths(g, f, start, amount, stop, h);
    var n, f' := start + amount, WithHeader(g, f, start, h);
    ErasedHasNoActives(g, f, start, stop);
    ActivesTrans(g, f, 0, start, stop);
    ActivesTrans(g, f, 0, stop, g.Pages());
    ActivesTrans(g, f', 0, start, n);
    ActivesTrans(g, f', 0, n, stop);
    ActivesTrans(g, f', 0, stop, g.Pages());
    if start in Files(g, f) {
      ActiveFacts(g, f, 0, g.Pages(), start);
      HeaderErased(g, f, start);
    }
  }

  lemma {:induction false} ErasedHasNoActives(g: Geometry, f: Flash, p: nat, q: nat)
    requires Wf(g, f) && Path(g, f, p, q) && ZeroRange(f, g.At(p), g.At(q))
    ensures Actives(g, f, p, q) == {}
    decreases g.Pages() - p
  {
    if p != q {
      AtMono(g, p, Next(g, f, p));
      AtMono(g, p, q);
      HeaderErased(g, f, p);
      ErasedHasNoActives(g, f, Next(g, f, p), q);
    }
  }

  // ----- the search for a free run -----

  lemma {:induction false} NextSectorSame(g: Geometry, p: nat, x: nat)
    requires g.Ok() && p <= x < NextSector(g, p)
    ensures NextSector(g, x) == NextSector(g, p)
  {
    if p >= g.sectorPages {
      NextSectorSame(g, p - g.sectorPages, x - g.sectorPages);
    }
  }

  /** next_free stays a stop of the walk when an extent is made at or behind it, and so is the page after
      the extent. */
  lemma ReserveStops(g: Geometry, f: Flash, start: nat, amount: nat, stop: nat, h: Header, n: nat)
    requires FreeRun(g, f, start, amount, stop) && h.Encodable() && h.Extent() && h.maxPages == amount
    requires OnWalk(g, f, n) && n <= start
    ensures start < g.Pages()
    ensures var f' := WithHeader(g, f, start, h); OnWalk(g, f', n) && OnWalk(g, f', start + amount)
  {
    hide HeaderAt, Good, Actives, Encode, Path;
    ReserveUpdate(g, f, start, amount, stop, h);
    StopsAreOrdered(g, f, start, stop);
    AtMono(g, n, start);
    AtMono(g, start, g.Pages());
    PathFrame(g, f, WithHeader(g, f, start, h), 0, n);
  }

  /** No run of this many free pages starts at a stop of the walk in [lo, hi). */
  ghost predicate NoRun(g: Geometry, f: Flash, amount: nat, lo: nat, hi: nat) {
    forall s: nat, stop: nat :: lo <= s < hi && s + amount < g.Pages() ==> !FreeRun(g, f, s, amount, stop)
  }

  lemma RunIsThere(g: Geometry, f: Flash, amount: nat, from: nat, start: nat, stop: nat)
    requires FreeRun(g, f, start, amount, stop) && from <= start && start + amount < g.Pages()
    ensures !NoRun(g, f, amount, from, g.Pages())
  {}

  /** The search stands at page; the free pages before it begin at start. */
  ghost predicate Searching(g: Geometry, f: Flash, amount: nat, from: nat, start: int, page: nat) {
    && LayoutOk(g, f) && 1 <= amount && from <= page && Path(g, f, 0, page) && Path(g, f, page, g.Pages())
    && (start < 0 || (from <= start < page < start + amount < g.Pages() && Path(g, f, 0, start)
       && Path(g, f, start, page)
                      && ZeroRange(f, g.At(start), g.At(page))))
    && NoRun(g, f, amount, from, if start < 0 then page else start)
  }

  lemma SearchBegins(g: Geometry, f: Flash, amount: nat, from: nat)
    requires LayoutOk(g, f) && 1 <= amount && OnWalk(g, f, from)
    ensures Searching(g, f, amount, from, -1, from) && from <= g.Pages()
  {
    PathSplit(g, f, 0, from, g.Pages());
  }

  /** A page that is not free ends the run before it, which was too short. */
  lemma SearchRestarts(g: Geometry, f: Flash, amount: nat, from: nat, start: int, page: nat)
    requires Searching(g, f, amount, from, start, page) && page < g.Pages() && HeaderAt(g, f, page).alloc
    ensures page < Next(g, f, page) <= g.Pages() && Searching(g, f, amount, from, -1, Next(g, f, page))
  {
    hide HeaderAt, FreeRun;
    var n := Next(g, f, page);
    GoodAdvances(g, f, page);
    assert Path(g, f, page, n);
    PathTrans(g, f, 0, page, n);
    forall s: nat, stop: nat | from <= s < n && s + amount < g.Pages() ensures !FreeRun(g, f, s, amount, stop) {
      if FreeRun(g, f, s, amount, stop) {
        RunBlocked(g, f, amount, start, page, s, stop);
      }
    }
  }

  lemma RunBlocked(g: Geometry, f: Flash, amount: nat, start: int, page: nat, s: nat, stop: nat)
    requires LayoutOk(g, f) && Path(g, f, 0, page) && page < g.Pages() && HeaderAt(g, f, page).alloc
    requires start < 0 || page < start + amount
    requires FreeRun(g, f, s, amount, stop) && s < Next(g, f, page)
    ensures s < if start < 0 then page else start
  {
    hide HeaderAt;
    if page < s {
      PathSplit(g, f, 0, page, s);
    } else if page <= s || s + amount > page {
      AtMono(g, s, page);
      AtMono(g, page, stop);
      AtMono(g, stop, g.Pages());
      HeaderErased(g, f, page);
    }
  }

  lemma SearchFree(g: Geometry, f: Flash, amount: nat, from: nat, start: int, page: nat)
    requires Searching(g, f, amount, from, start, page) && page < g.Pages() && !HeaderAt(g, f, page).alloc
    ensures var first, n := if start < 0 then page else start, Next(g, f, page);
      && page < n <= g.Pages() && NoRun(g, f, amount, from, first)
      && (first + amount <= n ==> FreeRun(g, f, first, amount, n))
      && (n < first + amount < g.Pages() ==> Searching(g, f, amount, from, first, n))
      && (first + amount >= g.Pages() ==> NoRun(g, f, amount, from, g.Pages()))
  {
    hide HeaderAt, FreeRun;
    var first, n := if start < 0 then page else start, Next(g, f, page);
    GoodAdvances(g, f, page);
    assert Path(g, f, page, n);
    PathTrans(g, f, 0, page, n);
    PathTrans(g, f, first, page, n);
    if page < first + amount <= n {
      if first + amount < n {
        NextSectorSame(g, page, first + amount);
      }
      assert ZeroRange(f, g.At(first), g.At(n));
      RunFound(g, f, first, amount, n);
    }
  }

  lemma RunFound(g: Geometry, f: Flash, start: nat, amount: nat, stop: nat)
    requires LayoutOk(g, f) && Path(g, f, 0, start) && Path(g, f, start, stop) && 1 <= amount
    requires start + amount <= stop && ZeroRange(f, g.At(start), g.At(stop))
    requires start + amount == stop || NextSector(g, start + amount) == stop
    ensures FreeRun(g, f, start, amount, stop)
  {}

  lemma SearchEnds(g: Geometry, f: Flash, amount: nat, from: nat, start: int, page: nat)
    requires Searching(g, f, amount, from, start, page) && page == g.Pages()
    ensures NoRun(g, f, amount, from, g.Pages())
  {
    hide FreeRun;
  }
}
