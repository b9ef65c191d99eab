/** The flash device under the Coffee file system: its geometry, the byte layout of
    a file header, and the three device operations. Erased bytes are zero. */
module CoffeeFlash {
  type byte = x: int | 0 <= x < 256
  type Flash = seq<byte>

  const HEADER_SIZE := 36
  const NAME_LENGTH := 20

  /** n * k by repeated addition, which keeps the solver away from nonlinear terms. */
  function Times(n: nat, k: nat): nat { if n == 0 then 0 else Times(n - 1, k) + k }

  lemma {:induction false} TimesIsProduct(n: nat, k: nat)
    ensures Times(n, k) == n * k
  {
    if n != 0 {
      TimesIsProduct(n - 1, k);
      assert n * k == (n - 1) * k + k;
    }
  }

  /** n / k by repeated subtraction. */
  function Quot(n: nat, k: nat): nat { if k == 0 || n < k then 0 else 1 + Quot(n - k, k) }

  lemma {:induction false} QuotBounds(n: nat, k: nat)
    requires 1 <= k
    ensures Times(Quot(n, k), k) <= n < Times(Quot(n, k), k) + k
  {
    if n >= k {
      QuotBounds(n - k, k);
    }
  }

  lemma DivisionBounds(n: nat, k: nat, q: nat)
    requires 1 <= k && q * k <= n < q * k + k
    ensures n / k == q
  {
    var d := n / k;
    assert n == d * k + n % k;
    if d < q {
      assert (q - d) * k >= k by { ScaleUp(q - d, k); }
    } else if q < d {
      assert (d - q) * k >= k by { ScaleUp(d - q, k); }
    }
  }

  lemma ScaleUp(d: nat, k: nat)
    requires 1 <= d
    ensures d * k >= k
  {}

  lemma QuotIsDivision(n: nat, k: nat)
    requires 1 <= k
    ensures Quot(n, k) == n / k
  {
    QuotBounds(n, k);
    TimesIsProduct(Quot(n, k), k);
    DivisionBounds(n, k, Quot(n, k));
  }

  /** The compile-time configuration of the file system. */
  datatype Geometry = Geometry(pageSize: nat, sectorPages: nat, sectors: nat, maxOpenFiles: nat,
                               fdSetSize: nat, logTableLimit: nat, logSize: nat, dynSize: nat)
  {
    function Pages(): nat { Times(sectors, sectorPages) }

    /** The byte offset of a page. */
    function At(page: nat): nat { Times(page, pageSize) }

    function Size(): nat { At(Pages()) }

    predicate Ok() {
      && HEADER_SIZE <= pageSize < 0x1_0000
      && 1 <= sectorPages && 1 <= sectors
      && Size() < 0x4000_0000 && Pages() < 0xFFFF
      && 1 <= Quot(logSize, pageSize) <= logTableLimit <= 0x7FFF
      && 1 <= fdSetSize <= 255
    }
  }

  /** A file header with its flag byte split into the six named flags. */
  datatype Header = Header(logPage: int, logRecords: int, logRecordSize: int, maxPages: int,
                           valid: bool, alloc: bool, obsolete: bool, modified: bool, log: bool,
                           isolated: bool, name: seq<byte>)
  {
    predicate Active() { alloc && !obsolete && !isolated }

    predicate Extent() { alloc && !isolated }

    predicate Encodable() {
      && 0 <= logPage < 0x8000_0000 && 0 <= logRecords < 0x1_0000 && 0 <= logRecordSize < 0x1_0000
      && 0 <= maxPages < 0x8000_0000 && |name| == NAME_LENGTH
    }
  }

  // ----- header codec -----

  /** What a 16-bit field keeps of a size. */
  function Low16(n: nat): nat { n % 0x1_0000 }

  function LowByte(x: int): byte { x % 256 }

  /** Bit test with a mask that is a power of two. */
  predicate Bit(b: int, mask: int)
    requires mask > 0
  {
    b / mask % 2 == 1
  }

  function U16(b: seq<byte>): int
    requires |b| == 2
  {
    b[0] as int + 256 * (b[1] as int)
  }

  function I32(b: seq<byte>): int
    requires |b| == 4
  {
    var u := b[0] as int + 0x100 * (b[1] as int) + 0x1_0000 * (b[2] as int) + 0x100_0000 * (b[3] as int);
    if u < 0x8000_0000 then u else u - 0x1_0000_0000
  }

  function Encode16(x: int): (b: seq<byte>)
    ensures |b| == 2
  {
    [LowByte(x), LowByte(x / 256)]
  }

  function Encode32(x: int): (b: seq<byte>)
    ensures |b| == 4
  {
    [LowByte(x), LowByte(x / 0x100), LowByte(x / 0x1_0000), LowByte(x / 0x100_0000)]
  }

  function Flag(on: bool, mask: int): int { if on then mask else 0 }

  function FlagByte(h: Header): (b: byte)
    ensures b < 0x40
  {
    Flag(h.valid, 0x01) + Flag(h.alloc, 0x02) + Flag(h.obsolete, 0x04) +
    Flag(h.modified, 0x08) + Flag(h.log, 0x10) + Flag(h.isolated, 0x20)
  }

  /** The four numeric fields, offsets 0 to 12. */
  function EncodeNumbers(h: Header): (b: seq<byte>)
    ensures |b| == 12
  {
    Encode32(h.logPage) + Encode16(h.logRecords) + (Encode16(h.logRecordSize) + Encode32(h.maxPages))
  }

  /** The unused hint, the flags, the name and the padding, offsets 12 to 36. */
  function EncodeRest(h: Header): (b: seq<byte>)
    requires |h.name| == NAME_LENGTH
    ensures |b| == 24
  {
    [0, FlagByte(h)] + h.name + [0, 0]
  }

  /** The in-memory header structure as bytes. */
  function Encode(h: Header): (b: seq<byte>)
    requires |h.name| == NAME_LENGTH
    ensures |b| == HEADER_SIZE
  {
    EncodeNumbers(h) + EncodeRest(h)
  }

  function Decode(b: seq<byte>): Header
    requires |b| == HEADER_SIZE
  {
    var flags := b[13];
    Header(I32(b[0..4]), U16(b[4..6]), U16(b[6..8]), I32(b[8..12]),
           Bit(flags, 0x01), Bit(flags, 0x02), Bit(flags, 0x04), Bit(flags, 0x08),
           Bit(flags, 0x10), Bit(flags, 0x20), b[14..34])
  }

  lemma Split16(x: int)
    requires 0 <= x < 0x1_0000
    ensures x % 256 + 256 * (x / 256 % 256) == x
  {}

  lemma Split32(x: int)
    requires 0 <= x < 0x8000_0000
    ensures x % 256 + 0x100 * (x / 0x100 % 256) + 0x1_0000 * (x / 0x1_0000 % 256)
            + 0x100_0000 * (x / 0x100_0000 % 256) == x
  {
    assert x / 0x1_0000 == x / 0x100 / 0x100;
    assert x / 0x100_0000 == x / 0x1_0000 / 0x100;
  }

  lemma U16RoundTrip(x: int)
    requires 0 <= x < 0x1_0000
    ensures U16(Encode16(x)) == x
  {
    Split16(x);
  }

  lemma I32RoundTrip(x: int)
    requires 0 <= x < 0x8000_0000
    ensures I32(Encode32(x)) == x
  {
    Split32(x);
  }

  lemma FlagsRoundTrip(h: Header)
    ensures var f := FlagByte(h);
            && Bit(f, 0x01) == h.valid && Bit(f, 0x02) == h.alloc && Bit(f, 0x04) == h.obsolete
            && Bit(f, 0x08) == h.modified && Bit(f, 0x10) == h.log && Bit(f, 0x20) == h.isolated
  {}

  lemma HeaderRoundTrip(h: Header)
    requires h.Encodable()
    ensures Decode(Encode(h)) == h
  {
    var b := Encode(h);
    I32RoundTrip(h.logPage);
    U16RoundTrip(h.logRecords);
    U16RoundTrip(h.logRecordSize);
    I32RoundTrip(h.maxPages);
    FlagsRoundTrip(h);
    assert b[0..4] == Encode32(h.logPage);
    assert b[4..6] == Encode16(h.logRecords);
    assert b[6..8] == Encode16(h.logRecordSize);
    assert b[8..12] == Encode32(h.maxPages);
    assert b[14..34] == h.name;
  }

  // ----- device operations -----

  /** Every 1 bit of a is a 1 bit of b. */
  predicate Raises(a: byte, b: byte) {
    && (Bit(a, 0x01) ==> Bit(b, 0x01)) && (Bit(a, 0x02) ==> Bit(b, 0x02))
    && (Bit(a, 0x04) ==> Bit(b, 0x04)) && (Bit(a, 0x08) ==> Bit(b, 0x08))
    && (Bit(a, 0x10) ==> Bit(b, 0x10)) && (Bit(a, 0x20) ==> Bit(b, 0x20))
    && (Bit(a, 0x40) ==> Bit(b, 0x40)) && (Bit(a, 0x80) ==> Bit(b, 0x80))
  }

  /** Writing b over a only turns 0 bits into 1 bits. */
  predicate OnlySets(a: seq<byte>, b: seq<byte>) {
    |a| == |b| && forall i :: 0 <= i < |a| ==> Raises(a[i], b[i])
  }

  predicate Zeros(b: seq<byte>) { forall i :: 0 <= i < |b| ==> b[i] == 0 }

  lemma ErasedTakesAnything(a: seq<byte>, b: seq<byte>)
    requires |a| == |b| && Zeros(a)
    ensures OnlySets(a, b)
  {}

  /** Two headers that differ only by flags raised and by fields that were still zero. */
  predicate Refines(h: Header, h': Header) {
    && (h.logPage == h'.logPage || h.logPage == 0)
    && (h.logRecords == h'.logRecords || h.logRecords == 0)
    && (h.logRecordSize == h'.logRecordSize || h.logRecordSize == 0)
    && h.maxPages == h'.maxPages && h.name == h'.name
    && (h.valid ==> h'.valid) && (h.alloc ==> h'.alloc) && (h.obsolete ==> h'.obsolete)
    && (h.modified ==> h'.modified) && (h.log ==> h'.log) && (h.isolated ==> h'.isolated)
  }

  lemma FlagByteSets(h: Header, h': Header)
    requires Refines(h, h')
    ensures Raises(FlagByte(h), FlagByte(h'))
  {
    FlagsRoundTrip(h);
    FlagsRoundTrip(h');
  }

  lemma FieldSets16(x: int, y: int)
    requires x == y || x == 0
    ensures OnlySets(Encode16(x), Encode16(y))
  {}

  lemma FieldSets32(x: int, y: int)
    requires x == y || x == 0
    ensures OnlySets(Encode32(x), Encode32(y))
  {}

  lemma OnlySetsConcat(a: seq<byte>, b: seq<byte>, a': seq<byte>, b': seq<byte>)
    requires OnlySets(a, a') && OnlySets(b, b')
    ensures OnlySets(a + b, a' + b')
  {}

  lemma OnlySetsSame(a: seq<byte>)
    ensures OnlySets(a, a)
  {}

  lemma NumbersOnlySet(h: Header, h': Header)
    requires Refines(h, h')
    ensures OnlySets(EncodeNumbers(h), EncodeNumbers(h'))
  {
    FieldSets32(h.logPage, h'.logPage);
    FieldSets16(h.logRecords, h'.logRecords);
    FieldSets16(h.logRecordSize, h'.logRecordSize);
    FieldSets32(h.maxPages, h'.maxPages);
    OnlySetsConcat(Encode32(h.logPage), Encode16(h.logRecords), Encode32(h'.logPage), Encode16(h'.logRecords));
    OnlySetsConcat(Encode16(h.logRecordSize), Encode32(h.maxPages), Encode16(h'.logRecordSize), Encode32(h'.maxPages));
    OnlySetsConcat(Encode32(h.logPage) + Encode16(h.logRecords), Encode16(h.logRecordSize) + Encode32(h.maxPages),
                   Encode32(h'.logPage) + Encode16(h'.logRecords), Encode16(h'.logRecordSize) + Encode32(h'.maxPages));
  }

  lemma RestOnlySets(h: Header, h': Header)
    requires |h.name| == NAME_LENGTH && Refines(h, h')
    ensures OnlySets(EncodeRest(h), EncodeRest(h'))
  {
    FlagByteSets(h, h');
    OnlySetsSame(h.name);
    OnlySetsSame([0, 0]);
    OnlySetsConcat([0, FlagByte(h)], h.name, [0, FlagByte(h')], h'.name);
    OnlySetsConcat([0, FlagByte(h)] + h.name, [0, 0], [0, FlagByte(h')] + h'.name, [0, 0]);
  }

  /** Rewriting a header that only gained flags or first-time settings never clears a bit. */
  lemma HeaderRewriteOnlySets(h: Header, h': Header)
    requires |h.name| == NAME_LENGTH && Refines(h, h')
    ensures OnlySets(Encode(h), Encode(h'))
  {
    NumbersOnlySet(h, h');
    RestOnlySets(h, h');
    OnlySetsConcat(EncodeNumbers(h), EncodeRest(h), EncodeNumbers(h'), EncodeRest(h'));
  }

  /** An isolation mark still reads as isolated, and not as active, when the device keeps
      the 1 bits of the old data under it. */
  lemma IsolationSurvivesOr(mark: Header, ored: seq<byte>)
    requires |mark.name| == NAME_LENGTH && mark.alloc && mark.isolated
    requires |ored| == HEADER_SIZE && OnlySets(Encode(mark), ored)
    ensures Decode(ored).alloc && Decode(ored).isolated && !Decode(ored).Active()
  {
    assert Encode(mark)[13] == EncodeRest(mark)[1] == FlagByte(mark);
    FlagsRoundTrip(mark);
    assert Raises(Encode(mark)[13], ored[13]);
  }

  /** The device content after writing data at an offset. */
  function Written(f: Flash, off: nat, data: seq<byte>): (f': Flash)
    requires off + |data| <= |f|
    ensures |f'| == |f|
    ensures forall i :: 0 <= i < |f| ==> f'[i] == if off <= i < off + |data| then data[i - off] else f[i]
  {
    f[..off] + data + f[off + |data|..]
  }

  predicate Same(f: Flash, f': Flash, lo: int, hi: int) {
    |f| == |f'| && forall i :: 0 <= i < |f| && lo <= i < hi ==> f[i] == f'[i]
  }

  predicate ZeroRange(f: Flash, lo: int, hi: int) {
    forall i :: 0 <= i < |f| && lo <= i < hi ==> f[i] == 0
  }

  function Filled(n: nat): seq<byte> { seq(n, _ => 0) }

  // ----- pages -----

  lemma {:induction false} TimesMono(p: nat, q: nat, k: nat)
    requires p <= q
    ensures Times(p, k) <= Times(q, k) && (p < q ==> Times(p, k) + k <= Times(q, k))
  {
    if p < q {
      TimesMono(p, q - 1, k);
    }
  }

  lemma AtMono(g: Geometry, p: nat, q: nat)
    requires p <= q
    ensures g.At(p) <= g.At(q) && (p < q ==> g.At(p) + g.pageSize <= g.At(q))
  {
    TimesMono(p, q, g.pageSize);
  }

  const BLANK := Header(0, 0, 0, 0, false, false, false, false, false, false, Filled(NAME_LENGTH))

  /** The header that read_header finds on a page. */
  function HeaderAt(g: Geometry, f: Flash, page: int): Header {
    if g.Ok() && |f| == g.Size() && 0 <= page < g.Pages() then
      AtMono(g, page, g.Pages());
      Decode(f[g.At(page)..g.At(page) + HEADER_SIZE])
    else
      BLANK
  }

  lemma HeaderFrame(g: Geometry, f: Flash, f': Flash, page: int)
    requires g.Ok() && |f| == g.Size() && 0 <= page < g.Pages()
    requires Same(f, f', g.At(page), g.At(page) + HEADER_SIZE)
    ensures HeaderAt(g, f', page) == HeaderAt(g, f, page)
  {
    AtMono(g, page, g.Pages());
    var lo := g.At(page);
    assert f[lo..lo + HEADER_SIZE] == f'[lo..lo + HEADER_SIZE];
  }

  lemma HeaderWritten(g: Geometry, f: Flash, page: int, h: Header)
    requires g.Ok() && |f| == g.Size() && 0 <= page < g.Pages() && h.Encodable()
    ensures g.At(page) + HEADER_SIZE <= |f|
    ensures HeaderAt(g, Written(f, g.At(page), Encode(h)), page) == h
  {
    AtMono(g, page, g.Pages());
    var lo := g.At(page);
    var f' := Written(f, lo, Encode(h));
    assert f'[lo..lo + HEADER_SIZE] == Encode(h);
    HeaderRoundTrip(h);
  }

  lemma HeaderErased(g: Geometry, f: Flash, page: int)
    requires g.Ok() && |f| == g.Size() && 0 <= page < g.Pages()
    requires ZeroRange(f, g.At(page), g.At(page) + HEADER_SIZE)
    ensures var h := HeaderAt(g, f, page); !h.alloc && !h.obsolete && !h.isolated
  {
    AtMono(g, page, g.Pages());
    var lo := g.At(page);
    assert f[lo..lo + HEADER_SIZE][13] == f[lo + 13];
  }
}
