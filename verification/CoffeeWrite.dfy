/** Logged writes: choosing the next record, creating the log, and the effect of one record
    on the content, for the code as it stands and for its evident intent. */
module CoffeeWrite {
  import opened CoffeeFlash
  import opened CoffeeLayout
  import opened CoffeeSpace
  import opened CoffeeLog
  import opened CoffeeCache
  import opened CoffeeUpdate

  // ----- find_next_record -----

  /** The start of the last batch of a table of n entries read in batches of the limit. */
  function LastBatch(n: nat, limit: nat): nat {
    if limit == 0 || n <= limit then 0 else LastBatch(n - limit, limit) + limit
  }

  /** What the batched search returns: it keeps only the outcome of the last batch. */
  function SearchedNext(g: Geometry, f: Flash, log: nat, n: nat, limit: nat): nat {
    var q := LastBatch(n, limit);
    var c := FirstFree(g, f, log, q, n);
    if c < n then c else if q <= n then n - q else 0
  }

  lemma {:induction false} LastBatchBounds(n: nat, limit: nat)
    requires 1 <= limit && 1 <= n
    ensures LastBatch(n, limit) < n <= LastBatch(n, limit) + limit && (LastBatch(n, limit) == 0 <==> n <= limit)
  {
    if n > limit {
      LastBatchBounds(n - limit, limit);
    }
  }

  /** The batched search finds the first free record, or reports a full table, exactly when the table
      is a single batch or the first free record lies in the last batch. */
  lemma NextRecordExact(g: Geometry, f: Flash, log: nat, n: nat, rs: nat, limit: nat)
    requires 1 <= n && 1 <= limit && TableOk(g, f, log, n, rs)
    ensures SearchedNext(g, f, log, n, limit) == FirstFree(g, f, log, 0, n)
        <==> n <= limit || LastBatch(n, limit) <= FirstFree(g, f, log, 0, n) < n
  {
    hide Index;
    LastBatchBounds(n, limit);
    var q := LastBatch(n, limit);
    var c := FirstFree(g, f, log, 0, n);
    FirstFreeFacts(g, f, log, 0, n);
    if q > 0 {
      if c < q {
        FirstFreeUnique(g, f, log, q, n, q);
      } else {
        FirstFreeUnique(g, f, log, q, n, c);
      }
    }
  }

  // ----- create_log -----

  /** An extent reserved for the log size has room for both tables. */
  lemma LogHasRoom(g: Geometry, f: Flash, log: nat, n: nat, rs: nat)
    requires g.Ok() && MaxPages(g, f, log) == Quot(Times(n, 2 + rs) + HEADER_SIZE + g.pageSize - 1, g.pageSize)
    ensures LogFits(g, f, log, n, rs)
  {
    hide HeaderAt;
    TimesSplit(n, rs);
    QuotBounds(Times(n, 2 + rs) + HEADER_SIZE + g.pageSize - 1, g.pageSize);
    TimesAdd(log, MaxPages(g, f, log), g.pageSize);
  }

  lemma {:induction false} TimesSplit(n: nat, rs: nat)
    ensures Times(n, 2 + rs) == 2 * n + Times(n, rs)
  {
    if n != 0 {
      TimesSplit(n - 1, rs);
    }
  }

  /** The log header is stored and the slot is flagged. */
  lemma CacheLogged(g: Geometry, f: Flash, files: seq<FileObject>, fds: seq<FileDesc>, s: nat, log: nat, h: Header)
    requires Inv(g, f, files, fds) && s < |files| && FileReady(g, f, files[s])
             && !HeaderAt(g, f, files[s].page).modified
    requires log in Files(g, f) && HeaderAt(g, f, log).log && LogFits(g, f, log, Records(g, h), RecordSize(g, h))
    requires ZeroRange(f, DataStart(g, log), g.At(log + MaxPages(g, f, log)))
    requires forall p :: p in Files(g, f) && HeaderAt(g, f, p).modified ==> HeaderAt(g, f, p).logPage != log
    requires h == HeaderAt(g, f, files[s].page).(modified := true, logPage := log)
             && RegionsFit(Capacity(g, f, files[s].page), RecordSize(g, h))
    ensures files[s].page in Files(g, f) && files[s].page < g.Pages() && h.Encodable()
    ensures var f' := WithHeader(g, f, files[s].page, h);
      && Inv(g, f', files[s := files[s].(modified := true)], fds) && Files(g, f') == Files(g, f)
      && HeaderAt(g, f', files[s].page) == h && FirstFree(g, f', log, 0, Records(g, h)) == 0
      && (forall p :: p in Files(g, f) && p != files[s].page ==>
         Kept(g, f, f', p) && HeaderAt(g, f', p) == HeaderAt(g, f, p))
      && (forall i: nat :: i < Capacity(g, f, files[s].page) ==>
         ViewByte(g, f', files[s].page, i) == ViewByte(g, f, files[s].page, i))
  {
    hide HeaderAt, Path, Good, Actives, Kept, ViewByte, RefCount, FirstFree, DiskOk, CStr, FdOk, Clash, Encode,
         Capacity, ZeroRange, SlotOk, FileReady, Newest;
    ReadyFacts(g, f, files[s]);
    var q := files[s].page;
    ReadyNotLog(g, f, files[s]);
    DiskLogged(g, f, q, log, h);
    DiskLayout(g, f);
    var f', o := WithHeader(g, f, q, h), files[s].(modified := true);
    var files' := files[s := o];
    NotALog(g, f, q);
    LoggedSlot(g, f, f', files[s]);
    forall i | 0 <= i < |files'| ensures SlotOk(g, f', files'[i]) {
      if i != s {
        OtherSlot(g, f, f', q, files, fds, s, i);
      }
    }
    forall k | 0 <= k < |fds| ensures FdOk(g, f', files', fds[k]) {
      assert FdOk(g, f, files, fds[k]);
      SameHeadersFd(g, f, f', files, files', fds[k]);
    }
    forall i, j | 0 <= i < j < |files'| ensures !Clash(g, f', files'[i], files'[j]) {
      assert !Clash(g, f, files[i], files[j]);
      SameHeadersClash(g, f, f', files[i], files[j], files'[i], files'[j]);
    }
  }

  lemma ReadyNotLog(g: Geometry, f: Flash, o: FileObject)
    requires FileReady(g, f, o)
    ensures !HeaderAt(g, f, o.page).log && SlotOk(g, f, o) && o.maxPages > 0 && 0 <= o.page && 0 <= o.end
  {}

  lemma LoggedSlot(g: Geometry, f: Flash, f': Flash, o: FileObject)
    requires SlotOk(g, f, o) && o.maxPages > 0 && 0 <= o.page && !HeaderAt(g, f, o.page).modified
             && Files(g, f') == Files(g, f)
    requires HeaderAt(g, f', o.page) == HeaderAt(g, f, o.page).(modified := true,
             logPage := HeaderAt(g, f', o.page).logPage)
    ensures SlotOk(g, f', o.(modified := true))
  {
    hide HeaderAt, Actives, FirstFree, ZeroRange;
  }

  /** A slot other than s, on another extent than q, whose log is not q. */
  lemma OtherSlot(g: Geometry, f: Flash, f': Flash, q: nat, files: seq<FileObject>, fds: seq<FileDesc>, s: nat, i: nat)
    requires Inv(g, f, files, fds) && s < |files| && i < |files| && i != s && files[s].maxPages > 0
    requires files[s].page == q && Files(g, f') == Files(g, f)
    requires forall p :: p in Files(g, f) && p != q ==> Kept(g, f, f', p) && HeaderAt(g, f', p) == HeaderAt(g, f, p)
    requires forall p :: p in Files(g, f) && HeaderAt(g, f, p).modified ==> HeaderAt(g, f, p).logPage != q
    ensures SlotOk(g, f', files[i])
  {
    hide HeaderAt, Path, Good, Actives, Kept, FirstFree, HeaderStored, TableOk, ConfigOk, RefCount, Clash;
    assert SlotOk(g, f, files[i]);
    if files[i].maxPages > 0 {
      assert FileOk(g, f, files[i].page);
      SlotKept(g, f, f', files[i]);
    }
  }

  /** Names and log flags are what descriptors and name checks look at. */
  predicate AlikeHeaders(h: Header, h': Header) { h'.log == h.log && h'.name == h.name }

  lemma SameHeadersFd(g: Geometry, f: Flash, f': Flash, files: seq<FileObject>, files': seq<FileObject>, d: FileDesc)
    requires FdOk(g, f, files, d) && |files'| == |files| && forall i :: 0 <= i < |files| ==> SlotOk(g, f, files[i])
    requires forall p :: p in Files(g, f) ==> AlikeHeaders(HeaderAt(g, f, p), HeaderAt(g, f', p))
    requires forall i :: 0 <= i < |files| ==> files'[i].page == files[i].page
                                              && files'[i].maxPages == files[i].maxPages
                                              && files'[i].end == files[i].end
    ensures FdOk(g, f', files', d)
  {
    hide HeaderAt, Actives, FirstFree, ZeroRange, Capacity;
    if d.flags != 0 { assert SlotOk(g, f, files[d.file]); }
  }

  lemma SameHeadersClash(g: Geometry, f: Flash, f': Flash, o: FileObject, p: FileObject, o': FileObject, p': FileObject)
    requires !Clash(g, f, o, p) && SlotOk(g, f, o) && SlotOk(g, f, p)
    requires forall x :: x in Files(g, f) ==> AlikeHeaders(HeaderAt(g, f, x), HeaderAt(g, f', x))
    requires o'.page == o.page && o'.maxPages == o.maxPages && p'.page == p.page && p'.maxPages == p.maxPages
    ensures !Clash(g, f', o', p')
  {
    hide HeaderAt, Actives, FirstFree, ZeroRange, Capacity, CStr;
  }

  // ----- write_log_page: one record -----

  /** The region of byte i has a record. */
  predicate RegionLogged(g: Geometry, f: Flash, q: nat, i: nat) {
    var h := HeaderAt(g, f, q);
    h.modified && h.logPage >= 0 && Newest(g, f, h.logPage, Records(g, h), Quot(i, RecordSize(g, h))) >= 0
  }

  /** How many records the log of the file at page q holds. */
  function Used(g: Geometry, f: Flash, q: nat): nat {
    var h := HeaderAt(g, f, q);
    if h.modified && h.logPage >= 0 then FirstFree(g, f, h.logPage, 0, Records(g, h)) else 0
  }

  /** The log of the file holds one record more, for which there was room. */
  predicate RecordCounted(g: Geometry, f: Flash, f': Flash, q: nat) {
    var h := HeaderAt(g, f', q);
    && h.modified && h.logPage >= 0 && Used(g, f', q) == Used(g, f, q) + 1
    && (HeaderAt(g, f, q).modified ==> h == HeaderAt(g, f, q) && Used(g, f', q) <= Records(g, h))
  }

  /** Byte i of the file after a chunk was logged at off: in the chunk the new data; beside it in the
      same region the old byte, or, for a record that is not read back, what the stack held. */
  function LoggedByte(g: Geometry, f: Flash, q: nat, off: nat, data: seq<byte>, stack: seq<byte>, readsBack: bool,
                      i: nat): byte {
    var rs := RecordSize(g, HeaderAt(g, f, q));
    if off <= i < off + |data| then data[i - off]
    else if Quot(i, rs) == Quot(off, rs) && !readsBack && RegionLogged(g, f, q, off) then ByteAt(stack, Rem(i, rs))
    else ViewByte(g, f, q, i)
  }

  /** The bytes below end are the old ones with the chunk laid over them. */
  ghost predicate ChunkOnly(g: Geometry, f: Flash, q: nat, off: nat, data: seq<byte>, stack: seq<byte>,
                            readsBack: bool, end: nat) {
    forall i: nat :: i < end && !(off <= i < off + |data|) ==>
        LoggedByte(g, f, q, off, data, stack, readsBack, i) == ViewByte(g, f, q, i)
  }

  function Stuffed(b: byte, n: nat): (r: seq<byte>)
    ensures |r| == n && forall i :: 0 <= i < n ==> r[i] == b
  {
    if n == 0 then [] else Stuffed(b, n - 1) + [b]
  }

  /** The code as it stands changes only the chunk, whatever the stack held, exactly when the region had
      no record yet, or the chunk starts its region and fills it up to the record's or the file's end. */
  lemma LoggedExactly(g: Geometry, f: Flash, q: nat, off: nat, data: seq<byte>, end: nat)
    requires var rs := RecordSize(g, HeaderAt(g, f, q)); 1 <= rs && Rem(off, rs) + |data| <= rs && off <= end
                                                         && 1 <= |data|
    ensures (forall stack: seq<byte> :: |stack| == RecordSize(g, HeaderAt(g, f, q)) ==>
            ChunkOnly(g, f, q, off, data, stack, false, end))
        <==> !RegionLogged(g, f, q, off)
             || (Rem(off, RecordSize(g, HeaderAt(g, f, q))) == 0
                && (|data| == RecordSize(g, HeaderAt(g, f, q)) || end <= off + |data|))
  {
    hide HeaderAt, ViewByte, RegionLogged, Quot;
    var rs := RecordSize(g, HeaderAt(g, f, q));
    var rem := Rem(off, rs);
    QuotBounds(off, rs);
    if RegionLogged(g, f, q, off) {
      if rem == 0 && (|data| == rs || end <= off + |data|) {
        forall i: nat | i < end && !(off <= i < off + |data|) ensures Quot(i, rs) != Quot(off, rs) {
          QuotBounds(i, rs);
        }
      } else {
        // a byte of the region outside the chunk, and a stack that differs from it
        var i := if rem > 0 then off - rem else off + |data|;
        RegionOf(Quot(off, rs), rs, if rem > 0 then 0 else |data|);
        var stack := Stuffed((ViewByte(g, f, q, i) + 1) % 256, rs);
        assert ByteAt(stack, Rem(i, rs)) != ViewByte(g, f, q, i);
        assert !ChunkOnly(g, f, q, off, data, stack, false, end);
      }
    }
  }

  /** The record buffer holds, byte for byte, what its region is to read as. */
  ghost predicate RecordBuffer(g: Geometry, f: Flash, q: nat, off: nat, data: seq<byte>, stack: seq<byte>,
                               readsBack: bool, buf: seq<byte>) {
    var rs := RecordSize(g, HeaderAt(g, f, q));
    |buf| == rs && forall j :: 0 <= j < rs ==> buf[j] == LoggedByte(g, f, q, off, data, stack, readsBack,
        Times(Quot(off, rs), rs) + j)
  }

  lemma BufferFilled(g: Geometry, f: Flash, q: nat, off: nat, data: seq<byte>, stack: seq<byte>, readsBack: bool,
                     pre: seq<byte>, buf: seq<byte>)
    requires var h := HeaderAt(g, f, q);
      var rs := RecordSize(g, h);
      && h.modified && h.logPage >= 0 && 1 <= rs && Rem(off, rs) + |data| <= rs && |pre| == |buf| == |stack| == rs
      && (forall j :: 0 <= j < rs ==> buf[j] == if Rem(off, rs) <= j < Rem(off, rs) + |data|
         then data[j - Rem(off, rs)] else pre[j])
      && (Rem(off, rs) > 0 || |data| != rs ==>
            forall j :: 0 <= j < rs ==>
              pre[j] == if RegionLogged(g, f, q, off) && !readsBack then stack[j]
                  else ByteAt(f, ChunkSource(g, f, q, Times(Quot(off, rs), rs)) + j))
    ensures RecordBuffer(g, f, q, off, data, stack, readsBack, buf)
  {
    hide HeaderAt, ViewByte, RegionLogged, Quot, ChunkSource, RecordSize, Records, Times, LoggedByte;
    var rs := RecordSize(g, HeaderAt(g, f, q));
    QuotBounds(off, rs);
    forall j | 0 <= j < rs
      ensures buf[j] == LoggedByte(g, f, q, off, data, stack, readsBack, Times(Quot(off, rs), rs) + j)
    {
      BufferByte(g, f, q, off, data, stack, readsBack, j);
    }
  }

  lemma BufferByte(g: Geometry, f: Flash, q: nat, off: nat, data: seq<byte>, stack: seq<byte>, readsBack: bool, j: nat)
    requires var h := HeaderAt(g, f, q);
      h.modified && h.logPage >= 0 && j < RecordSize(g, h) && Rem(off, RecordSize(g, h)) + |data| <= RecordSize(g, h)
          && |stack| == RecordSize(g, h)
    ensures var rs := RecordSize(g, HeaderAt(g, f, q));
      var rem, start := Rem(off, rs), Times(Quot(off, rs), rs);
      LoggedByte(g, f, q, off, data, stack, readsBack, start + j)
        == if rem <= j < rem + |data| then data[j - rem]
           else if RegionLogged(g, f, q, off) && !readsBack then stack[j]
           else ByteAt(f, ChunkSource(g, f, q, start) + j)
  {
    hide HeaderAt, ViewByte, RegionLogged, Quot, ChunkSource, RecordSize, Records, Times;
    var rs := RecordSize(g, HeaderAt(g, f, q));
    QuotBounds(off, rs);
    RegionOf(Quot(off, rs), rs, j);
    RegionOf(Quot(off, rs), rs, 0);
    ChunkByte(g, f, q, Times(Quot(off, rs), rs), j);
  }

  lemma SameRegionLogged(g: Geometry, f: Flash, q: nat, i: nat, j: nat)
    requires Quot(i, RecordSize(g, HeaderAt(g, f, q))) == Quot(j, RecordSize(g, HeaderAt(g, f, q)))
    ensures RegionLogged(g, f, q, i) == RegionLogged(g, f, q, j)
  {
    hide HeaderAt, Quot, Newest;
  }

  lemma LoggedView(g: Geometry, f: Flash, f': Flash, q: nat, k: nat, off: nat, data: seq<byte>, stack: seq<byte>,
                   readsBack: bool, buf: seq<byte>, i: nat)
    requires LayoutOk(g, f) && q in Files(g, f) && FileOk(g, f, q) && HeaderAt(g, f, q).modified
    requires RecordBuffer(g, f, q, off, data, stack, readsBack, buf)
    requires Appended(g, f, f', q, k, Quot(off, RecordSize(g, HeaderAt(g, f, q))), buf)
             && HeaderAt(g, f', q) == HeaderAt(g, f, q) && Kept(g, f, f', q)
    requires k == FirstFree(g, f, HeaderAt(g, f, q).logPage, 0, Records(g, HeaderAt(g, f, q)))
             < Records(g, HeaderAt(g, f, q))
    requires i < Capacity(g, f, q) && Rem(off, RecordSize(g, HeaderAt(g, f, q))) + |data|
             <= RecordSize(g, HeaderAt(g, f, q))
    ensures ViewByte(g, f', q, i) == LoggedByte(g, f, q, off, data, stack, readsBack, i)
  {
    hide HeaderAt, Path, Good, Actives, Newest, HeaderStored, Quot, FirstFree, Index, Appended, RecordStart, Records,
         RecordSize, ViewByte, RegionLogged;
    var rs := RecordSize(g, HeaderAt(g, f, q));
    ViewAfterAppend(g, f, f', q, k, Quot(off, rs), buf, i);
    QuotBounds(off, rs);
    if off <= i < off + |data| {
      WithinRegion(off, rs, i - off);
    }
  }

  // ----- the cache after a record -----

  lemma CacheAppended(g: Geometry, f: Flash, f': Flash, files: seq<FileObject>, fds: seq<FileDesc>, s: nat, k: nat,
                      region: nat, buf: seq<byte>)
    requires Inv(g, f, files, fds) && s < |files| && FileReady(g, f, files[s]) && HeaderAt(g, f, files[s].page).modified
    requires Appended(g, f, f', files[s].page, k, region, buf)
    requires var h := HeaderAt(g, f, files[s].page); h.logPage >= 0 ==>
             k == FirstFree(g, f, h.logPage, 0, Records(g, h)) < Records(g, h)
    ensures files[s].page in Files(g, f) && HeaderAt(g, f, files[s].page).logPage >= 0
    ensures Inv(g, f', files[s := files[s].(recordCount := k + 1)], fds) && Files(g, f') == Files(g, f)
    ensures RecordCounted(g, f, f', files[s].page)
    ensures forall p :: p in Files(g, f) ==> HeaderAt(g, f', p) == HeaderAt(g, f, p)
    ensures forall p :: p in Files(g, f) && p != HeaderAt(g, f, files[s].page).logPage ==> Kept(g, f, f', p)
    ensures HeaderAt(g, f, files[s].page).logPage != files[s].page
  {
    hide HeaderAt, Path, Good, Actives, Kept, ViewByte, RefCount, FirstFree, DiskOk, CStr, FdOk, Clash, Encode,
         Capacity, ZeroRange, SlotOk, FileReady, Newest, Appended;
    ReadyNotLog(g, f, files[s]);
    ReadyFacts(g, f, files[s]);
    ReadyDisk(g, f, files[s]);
    var q, log := files[s].page, HeaderAt(g, f, files[s].page).logPage;
    LogIsTarget(g, f, q);
    DiskAppended(g, f, f', q, k, region, buf);
    DataChangedIsUpdate(g, f, f', log);
    var files' := files[s := files[s].(recordCount := k + 1)];
    forall i | 0 <= i < |files'| ensures SlotOk(g, f', files'[i]) {
      if i == s {
        AppendedSlot(g, f, f', files[s], k);
      } else {
        SlotOfOther(g, f, f', files, fds, s, i);
      }
    }
    forall i | 0 <= i < |fds| ensures FdOk(g, f', files', fds[i]) {
      assert FdOk(g, f, files, fds[i]);
      SameHeadersFd(g, f, f', files, files', fds[i]);
    }
    forall i, j | 0 <= i < j < |files'| ensures !Clash(g, f', files'[i], files'[j]) {
      assert !Clash(g, f, files[i], files[j]);
      SameHeadersClash(g, f, f', files[i], files[j], files'[i], files'[j]);
    }
  }

  lemma AppendedSlot(g: Geometry, f: Flash, f': Flash, o: FileObject, k: nat)
    requires SlotOk(g, f, o) && o.maxPages > 0 && 0 <= o.page && HeaderAt(g, f, o.page).modified
             && HeaderAt(g, f, o.page).logPage >= 0
    requires o.page in Files(g, f') && HeaderAt(g, f', o.page) == HeaderAt(g, f, o.page)
    requires FirstFree(g, f', HeaderAt(g, f, o.page).logPage, 0, Records(g, HeaderAt(g, f, o.page))) == k + 1
    ensures SlotOk(g, f', o.(recordCount := k + 1))
  {
    hide HeaderAt, Actives, FirstFree, ZeroRange;
  }

  /** Another slot when only the log of slot s changed: it may hold that log, but nobody refers to it. */
  lemma SlotOfOther(g: Geometry, f: Flash, f': Flash, files: seq<FileObject>, fds: seq<FileDesc>, s: nat, i: nat)
    requires Inv(g, f, files, fds) && s < |files| && i < |files| && i != s && files[s].maxPages > 0
             && 0 <= files[s].page
    requires HeaderAt(g, f, files[s].page).modified && Files(g, f') == Files(g, f)
    requires forall p :: p in Files(g, f) ==> HeaderAt(g, f', p) == HeaderAt(g, f, p)
    requires forall p :: p in Files(g, f) && p != HeaderAt(g, f, files[s].page).logPage ==> Kept(g, f, f', p)
    ensures SlotOk(g, f', files[i])
  {
    hide HeaderAt, Path, Good, Actives, Kept, FirstFree, HeaderStored, TableOk, ConfigOk, RefCount, Clash, ZeroRange;
    assert SlotOk(g, f, files[i]) && SlotOk(g, f, files[s]);
    LogIsTarget(g, f, files[s].page);
    OneOwner(g, f, files[s].page);
    if files[i].maxPages > 0 && files[i].page != HeaderAt(g, f, files[s].page).logPage {
      assert FileOk(g, f, files[i].page);
      SlotKept(g, f, f', files[i]);
    }
  }

  // ----- the effect on everything else -----

  /** A record changes only the log of its file. */
  lemma RecordMoves(g: Geometry, f: Flash, f': Flash, files: seq<FileObject>, files': seq<FileObject>,
                    fds: seq<FileDesc>, s: nat)
    requires Inv(g, f, files, fds) && s < |files| && |files'| == |files| && files[s].references > 0
             && 0 <= files[s].page
    requires files'[s].page == files[s].page && forall i :: 0 <= i < |files| && i != s && files[i].references > 0 ==>
             files'[i] == files[i]
    requires forall p :: p in Files(g, f) && p !in Own(g, f, files[s].page) ==>
             p in Files(g, f') && Kept(g, f, f', p) && HeaderAt(g, f', p) == HeaderAt(g, f, p)
    requires Own(g, f', files[s].page) * Files(g, f) <= Own(g, f, files[s].page)
    ensures Moved(g, f, files, fds, s, f', files', fds, s)
  {
    hide HeaderAt, Path, Good, Actives, Kept, RefCount, Own;
  }

  /** The outcome of create_log: the file in slot s now has an empty log; nothing else changed. */
  ghost predicate LogCreated(g: Geometry, f0: Flash, files0: seq<FileObject>, fds: seq<FileDesc>, s: int, f: Flash,
                             files: seq<FileObject>, log: nat) {
    && 0 <= s < |files0| && |files| == |files0| && files[s] == files0[s].(modified := true) && 0 <= files0[s].page
    && Moved(g, f0, files0, fds, s, f, files, fds, s)
    && HeaderAt(g, f, files0[s].page) == HeaderAt(g, f0, files0[s].page).(modified := true, logPage := log)
    && Capacity(g, f, files0[s].page) == Capacity(g, f0, files0[s].page)
    && FirstFree(g, f, log, 0, Records(g, HeaderAt(g, f, files0[s].page))) == 0
    && (forall i: nat :: i < Capacity(g, f0, files0[s].page) ==>
       ViewByte(g, f, files0[s].page, i) == ViewByte(g, f0, files0[s].page, i))
  }

  /** The reserved extent serves as the log. */
  lemma LogReserved(g: Geometry, f0: Flash, f1: Flash, files0: seq<FileObject>, files1: seq<FileObject>,
                    fds: seq<FileDesc>, s: nat, log: nat,
                    n: nat, rs: nat, pages: nat, hdr: Header, h: Header)
    requires Inv(g, f0, files0, fds) && Inv(g, f1, files1, fds) && s < |files0| && |files1| == |files0|
             && files0[s].references > 0 && RefsKept(files0, files1)
    requires 0 <= files0[s].page && hdr == HeaderAt(g, f0, files0[s].page) && !hdr.modified
    requires n == Records(g, hdr) && rs == RecordSize(g, hdr)
             && pages == Quot(Times(n, 2 + rs) + HEADER_SIZE + g.pageSize - 1, g.pageSize)
    requires Reserved(g, f0, f1, log, NewHeader(pages, true, hdr.name))
             && h == hdr.(modified := true, logPage := log, valid := true)
    requires RegionsFit(Capacity(g, f0, files0[s].page), rs)
    ensures files1[s] == files0[s] && log !in Files(g, f0) && FileReady(g, f1, files1[s])
            && h == HeaderAt(g, f1, files1[s].page).(modified := true, logPage := log)
            && RegionsFit(Capacity(g, f1, files1[s].page), RecordSize(g, h))
    ensures files1[s].page in Files(g, f1) && !HeaderAt(g, f1, files1[s].page).modified
    ensures log in Files(g, f1) && HeaderAt(g, f1, log).log && LogFits(g, f1, log, Records(g, h), RecordSize(g, h))
    ensures ZeroRange(f1, DataStart(g, log), g.At(log + MaxPages(g, f1, log)))
    ensures forall p :: p in Files(g, f1) && HeaderAt(g, f1, p).modified ==> HeaderAt(g, f1, p).logPage != log
    ensures g.At(files1[s].page) + HEADER_SIZE <= |f1| && h.Encodable()
            && OnlySets(f1[g.At(files1[s].page)..g.At(files1[s].page) + HEADER_SIZE], Encode(h))
  {
    hide HeaderAt, Path, Good, Actives, Kept, RefCount, FirstFree, CStr, FdOk, Clash, Encode, Capacity, ZeroRange,
         LogFits, SharesLog, NamesOk, OnlySets, FileOk, SlotOk, FileReady;
    MergeSource(g, f0, files0, fds, s);
    MergeSource(g, f1, files1, fds, s);
    FreshLogUnowned(g, f0, f1, log);
    SameCapacity(g, f0, f1, files0[s].page);
    LogHasRoom(g, f1, log, n, rs);
    DiskLayout(g, f1);
    RoomBounds(g, f1, files1[s].page);
    RoomBounds(g, f1, log);
    LogHeaderEncodes(g, hdr, log, h);
    HeaderUpdateOnlySets(g, f1, files1[s].page, h);
  }

  lemma FreshLogUnowned(g: Geometry, f0: Flash, f1: Flash, log: nat)
    requires DiskOk(g, f0) && log !in Files(g, f0) && AllKept(g, f0, f1) && Files(g, f1) == Files(g, f0) + {log}
             && !HeaderAt(g, f1, log).modified
    ensures forall p :: p in Files(g, f1) && HeaderAt(g, f1, p).modified ==> HeaderAt(g, f1, p).logPage != log
  {
    hide HeaderAt, Path, Good, Actives, Kept, TableOk, HeaderStored, ConfigOk;
    forall p | p in Files(g, f1) && HeaderAt(g, f1, p).modified ensures HeaderAt(g, f1, p).logPage != log {
      if p in Files(g, f0) { assert FileOk(g, f0, p); }
    }
  }

  lemma LogHeaderEncodes(g: Geometry, hdr: Header, log: nat, h: Header)
    requires g.Ok() && hdr.Encodable() && log < g.Pages() && hdr.valid
             && h == hdr.(modified := true, logPage := log, valid := true)
    requires hdr.logPage == 0
    ensures h.Encodable() && Refines(hdr, h) && RecordSize(g, h) == RecordSize(g, hdr)
            && Records(g, h) == Records(g, hdr)
  {}

  lemma LogCreatedFacts(g: Geometry, f0: Flash, f1: Flash, files0: seq<FileObject>, files1: seq<FileObject>,
                        fds: seq<FileDesc>, s: nat, log: nat, h: Header)
    requires Inv(g, f0, files0, fds) && Inv(g, f1, files1, fds) && s < |files1| && FileReady(g, f1, files1[s])
             && !HeaderAt(g, f1, files1[s].page).modified
    requires |files1| == |files0| && files1[s] == files0[s] && files0[s].references > 0 && RefsKept(files0, files1)
             && 0 <= files0[s].page
    requires AllKept(g, f0, f1) && log !in Files(g, f0)
    requires log in Files(g, f1) && HeaderAt(g, f1, log).log && LogFits(g, f1, log, Records(g, h), RecordSize(g, h))
    requires ZeroRange(f1, DataStart(g, log), g.At(log + MaxPages(g, f1, log)))
    requires forall p :: p in Files(g, f1) && HeaderAt(g, f1, p).modified ==> HeaderAt(g, f1, p).logPage != log
    requires h == HeaderAt(g, f1, files1[s].page).(modified := true, logPage := log)
             && RegionsFit(Capacity(g, f1, files1[s].page), RecordSize(g, h))
    ensures files1[s].page in Files(g, f1) && files1[s].page < g.Pages() && h.Encodable()
    ensures var f, files := WithHeader(g, f1, files1[s].page, h), files1[s := files1[s].(modified := true)];
      Inv(g, f, files, fds) && LogCreated(g, f0, files0, fds, s, f, files, log)
  {
    hide HeaderAt, Path, Good, Actives, Kept, RefCount, FirstFree, CStr, FdOk, Clash, Encode, Capacity, ZeroRange,
         LogFits, SharesLog, NamesOk, CacheOk, DiskOk, SlotOk, FileReady, ViewByte;
    MergeSource(g, f0, files0, fds, s);
    CacheLogged(g, f1, files1, fds, s, log, h);
    DiskLayout(g, f1);
    var q := files0[s].page;
    var f, files := WithHeader(g, f1, q, h), files1[s := files1[s].(modified := true)];
    forall p | p in Files(g, f0) && p !in Own(g, f0, q)
      ensures p in Files(g, f) && Kept(g, f0, f, p) && HeaderAt(g, f, p) == HeaderAt(g, f0, p)
    {
      KeptTwice(g, f0, f1, f, p);
    }
    RecordMoves(g, f0, f, files0, files, fds, s);
    UnloggedViewKept(g, f0, f1, f, q);
    SameCapacity(g, f0, f, q);
  }

  lemma UnloggedViewKept(g: Geometry, f0: Flash, f1: Flash, f: Flash, q: nat)
    requires DiskOk(g, f0) && q in Files(g, f0) && AllKept(g, f0, f1) && !HeaderAt(g, f0, q).modified
    requires forall i: nat :: i < Capacity(g, f1, q) ==> ViewByte(g, f, q, i) == ViewByte(g, f1, q, i)
    ensures forall i: nat :: i < Capacity(g, f0, q) ==> ViewByte(g, f, q, i) == ViewByte(g, f0, q, i)
  {
    hide HeaderAt, Path, Good, Actives, Kept, ViewByte, HeaderStored, ConfigOk;
    assert FileOk(g, f0, q);
    forall i: nat | i < Capacity(g, f0, q) ensures ViewByte(g, f, q, i) == ViewByte(g, f0, q, i) {
      ViewKept(g, f0, f1, q, i);
    }
  }

  // ----- the outcome of one record -----

  /** Only the log of the file at q changed, and the file now reads as the logged chunk says. */
  ghost predicate RecordLogged(g: Geometry, f: Flash, f': Flash, q: int, off: nat, data: seq<byte>, stack: seq<byte>,
                               readsBack: bool) {
    && 0 <= q && Files(g, f') == Files(g, f)
    && (forall p :: p in Files(g, f) ==> HeaderAt(g, f', p) == HeaderAt(g, f, p))
    && (forall p :: p in Files(g, f) && p != HeaderAt(g, f, q).logPage ==> Kept(g, f, f', p))
    && (forall i: nat :: i < Capacity(g, f, q) ==>
       ViewByte(g, f', q, i) == LoggedByte(g, f, q, off, data, stack, readsBack, i))
    && RegionsAfter(g, f, f', q, off) && RecordCounted(g, f, f', q)
  }

  lemma RecordHeader(g: Geometry, f: Flash, f': Flash, q: int, off: nat, data: seq<byte>, stack: seq<byte>,
                     readsBack: bool)
    requires RecordLogged(g, f, f', q, off, data, stack, readsBack) && q in Files(g, f)
    ensures HeaderAt(g, f', q) == HeaderAt(g, f, q)
  {
    hide HeaderAt, Actives, Kept, ViewByte, LoggedByte, RegionsAfter, RecordCounted;
  }

  /** The region of off has a record now, and no other has gained or lost one. */
  ghost predicate RegionsAfter(g: Geometry, f: Flash, f': Flash, q: nat, off: nat) {
    var rs := RecordSize(g, HeaderAt(g, f, q));
    forall i: nat :: RegionLogged(g, f', q, i) <==> RegionLogged(g, f, q, i) || Quot(i, rs) == Quot(off, rs)
  }

  lemma RegionsAppended(g: Geometry, f: Flash, f': Flash, q: nat, k: nat, off: nat, buf: seq<byte>)
    requires LayoutOk(g, f) && q in Files(g, f) && FileOk(g, f, q) && HeaderAt(g, f, q).modified
             && HeaderAt(g, f', q) == HeaderAt(g, f, q)
    requires Appended(g, f, f', q, k, Quot(off, RecordSize(g, HeaderAt(g, f, q))), buf)
    requires k == FirstFree(g, f, HeaderAt(g, f, q).logPage, 0, Records(g, HeaderAt(g, f, q)))
             < Records(g, HeaderAt(g, f, q))
    ensures RegionsAfter(g, f, f', q, off)
  {
    hide HeaderAt, Path, Good, Actives, Newest, HeaderStored, Quot, FirstFree, Index, Appended, Records, RecordSize,
         ConfigOk;
    var h := HeaderAt(g, f, q);
    FirstFreeFacts(g, f, h.logPage, 0, Records(g, h));
    forall i: nat
      ensures RegionLogged(g, f', q, i)
         <==> RegionLogged(g, f, q, i) || Quot(i, RecordSize(g, h)) == Quot(off, RecordSize(g, h))
    {
      ConfigBounds(g, h);
      QuotBounds(i, RecordSize(g, h));
      NewestAfterAppend(g, f, f', q, k, Quot(off, RecordSize(g, h)), buf, Quot(i, RecordSize(g, h)));
    }
  }

  /** The region of a byte within capacity lies on the device, whole, even where it overhangs its file. */
  lemma RegionSpace(g: Geometry, f: Flash, q: nat, off: nat)
    requires DiskOk(g, f) && q in Files(g, f) && off < Capacity(g, f, q) && HeaderAt(g, f, q).modified
    ensures var rs := RecordSize(g, HeaderAt(g, f, q));
      && 1 <= rs && 0 <= Rem(off, rs) < rs && Quot(off, rs) < 0xFFFF && Times(Quot(off, rs), rs) <= off
      && Rem(Times(Quot(off, rs), rs), rs) == 0 && Quot(Times(Quot(off, rs), rs), rs) == Quot(off, rs)
      && DataStart(g, q) + Times(Quot(off, rs), rs) + rs <= |f|
  {
    hide HeaderAt, Path, Good, Actives, HeaderStored, LogOk, Quot, Encode;
    var rs := RecordSize(g, HeaderAt(g, f, q));
    RegionFits(g, f, q, off);
    RegionOf(Quot(off, rs), rs, 0);
    assert FileOk(g, f, q);
    ConfigBounds(g, HeaderAt(g, f, q));
    ActiveFacts(g, f, 0, g.Pages(), q);
    AtMono(g, q + MaxPages(g, f, q), g.Pages());
  }

  lemma RecordWritten(g: Geometry, f: Flash, f': Flash, files: seq<FileObject>, fds: seq<FileDesc>, s: nat, k: nat,
                      off: nat, data: seq<byte>, stack: seq<byte>, readsBack: bool, buf: seq<byte>)
    requires Inv(g, f, files, fds) && s < |files| && FileReady(g, f, files[s]) && 0 <= files[s].page
             && HeaderAt(g, f, files[s].page).modified
    requires RecordBuffer(g, f, files[s].page, off, data, stack, readsBack, buf)
    requires Appended(g, f, f', files[s].page, k, Quot(off, RecordSize(g, HeaderAt(g, f, files[s].page))), buf)
    requires var h := HeaderAt(g, f, files[s].page);
      && (h.logPage >= 0 ==> k == FirstFree(g, f, h.logPage, 0, Records(g, h)) < Records(g, h))
      && Rem(off, RecordSize(g, h)) + |data| <= RecordSize(g, h)
    ensures Inv(g, f', files[s := files[s].(recordCount := k + 1)], fds)
    ensures RecordLogged(g, f, f', files[s].page, off, data, stack, readsBack)
  {
    hide HeaderAt, Path, Good, Actives, Kept, ViewByte, RefCount, FirstFree, DiskOk, CStr, FdOk, Clash, Encode,
         Capacity, ZeroRange, SlotOk, FileReady, Newest, Appended, RecordBuffer, LoggedByte, Inv, Quot, Records,
         RecordSize, FileOk;
    var q := files[s].page;
    ReadyFacts(g, f, files[s]);
    CacheAppended(g, f, f', files, fds, s, k, Quot(off, RecordSize(g, HeaderAt(g, f, q))), buf);
    forall i: nat | i < Capacity(g, f, q)
      ensures ViewByte(g, f', q, i) == LoggedByte(g, f, q, off, data, stack, readsBack, i)
    {
      LoggedView(g, f, f', q, k, off, data, stack, readsBack, buf, i);
    }
    RegionsAppended(g, f, f', q, k, off, buf);
  }

  /** The outcome of write_log_page when it logged a chunk: the file of slot s now reads as the logged
      chunk says, its object is flagged, and nothing else changed. */
  ghost predicate ChunkLogged(g: Geometry, f0: Flash, files0: seq<FileObject>, fds: seq<FileDesc>, s: int, f: Flash,
                              files: seq<FileObject>,
                              off: nat, data: seq<byte>, stack: seq<byte>, readsBack: bool) {
    && 0 <= s < |files0| && |files| == |files0| && 0 <= files0[s].page
    && files[s] == files0[s].(modified := true, recordCount := files[s].recordCount)
    && Moved(g, f0, files0, fds, s, f, files, fds, s)
    && FileFollows(g, f0, files0[s].page, f, files0[s].page)
    && |stack| == RecordSize(g, HeaderAt(g, f0, files0[s].page))
    && (forall i: nat :: i < Capacity(g, f0, files0[s].page) ==>
          ViewByte(g, f, files0[s].page, i) == LoggedByte(g, f0, files0[s].page, off, data, stack, readsBack, i))
    && RegionsAfter(g, f0, f, files0[s].page, off) && RecordCounted(g, f0, f, files0[s].page)
  }

  lemma ChunkFacts(g: Geometry, f0: Flash, files0: seq<FileObject>, fds: seq<FileDesc>, s: int, f: Flash,
                   files: seq<FileObject>,
                   off: nat, data: seq<byte>, stack: seq<byte>, readsBack: bool)
    requires ChunkLogged(g, f0, files0, fds, s, f, files, off, data, stack, readsBack)
    ensures 0 <= s < |files0| == |files| && 0 <= files0[s].page
    ensures |stack| == RecordSize(g, HeaderAt(g, f0, files0[s].page)) == RecordSize(g, HeaderAt(g, f, files0[s].page))
    ensures files[s].maxPages == files0[s].maxPages && files[s].end == files0[s].end
            && files[s].references == files0[s].references && files[s].modified
    ensures files[s].page == files0[s].page && RegionsAfter(g, f0, f, files0[s].page, off)
            && RecordCounted(g, f0, f, files0[s].page)
  {
    hide HeaderAt, RecordSize, Moved, ViewByte, LoggedByte, RegionsAfter, RecordCounted;
  }

  /** For a table of one batch the search finds the first free record. */
  lemma NextRecord(g: Geometry, f: Flash, files: seq<FileObject>, fds: seq<FileDesc>, s: nat)
    requires Inv(g, f, files, fds) && s < |files| && files[s].references > 0 && 0 <= files[s].page
             && HeaderAt(g, f, files[s].page).modified
    ensures var h := HeaderAt(g, f, files[s].page);
      && h.logPage >= 0 && 1 <= g.logTableLimit
      && (if files[s].recordCount >= 0 then files[s].recordCount
         else SearchedNext(g, f, h.logPage, Records(g, h), g.logTableLimit))
           == FirstFree(g, f, h.logPage, 0, Records(g, h)) <= Records(g, h)
  {
    hide HeaderAt, Path, Good, Actives, RefCount, FirstFree, ZeroRange, Clash, FdOk, Capacity, HeaderStored, TableOk,
         SearchedNext;
    MergeSource(g, f, files, fds, s);
    var h := HeaderAt(g, f, files[s].page);
    assert SlotOk(g, f, files[s]);
    ConfigBounds(g, h);
    NextRecordExact(g, f, h.logPage, Records(g, h), RecordSize(g, h), g.logTableLimit);
    FirstFreeFacts(g, f, h.logPage, 0, Records(g, h));
  }

  lemma RecordIsChunk(g: Geometry, f: Flash, files: seq<FileObject>, fds: seq<FileDesc>, s: nat, f': Flash,
                      files': seq<FileObject>, k: nat,
                      off: nat, data: seq<byte>, stack: seq<byte>, readsBack: bool)
    requires Inv(g, f, files, fds) && s < |files| && files[s].references > 0
             && HeaderAt(g, f, files[s].page).modified && 0 <= files[s].page
    requires RecordLogged(g, f, f', files[s].page, off, data, stack, readsBack)
             && |stack| == RecordSize(g, HeaderAt(g, f, files[s].page))
    requires files' == files[s := files[s].(recordCount := k + 1)]
    ensures ChunkLogged(g, f, files, fds, s, f', files', off, data, stack, readsBack)
  {
    hide HeaderAt, Path, Good, Actives, RefCount, CacheOk, NamesOk, DiskOk, Capacity, Kept, ViewByte, LoggedByte,
         RecordSize;
    MergeSource(g, f, files, fds, s);
    LogIsTarget(g, f, files[s].page);
    RecordMoves(g, f, f', files, files', fds, s);
  }

  lemma EmptyLogSaysNothing(g: Geometry, f: Flash, files: seq<FileObject>, fds: seq<FileDesc>, s: nat, i: nat)
    requires Inv(g, f, files, fds) && s < |files| && files[s].references > 0 && 0 <= files[s].page
             && HeaderAt(g, f, files[s].page).modified
    requires HeaderAt(g, f, files[s].page).logPage >= 0
    requires FirstFree(g, f, HeaderAt(g, f, files[s].page).logPage, 0, Records(g, HeaderAt(g, f, files[s].page))) == 0
    ensures !RegionLogged(g, f, files[s].page, i)
  {
    hide HeaderAt, Path, Good, Actives, RefCount, CacheOk, NamesOk, DiskOk, Capacity, ConfigOk, HeaderStored, Index,
         FirstFree;
    MergeSource(g, f, files, fds, s);
    var h := HeaderAt(g, f, files[s].page);
    NewestFacts(g, f, h.logPage, Records(g, h), Quot(i, RecordSize(g, h)));
  }

  lemma CreatedThenLogged(g: Geometry, f0: Flash, files0: seq<FileObject>, fds: seq<FileDesc>, s: nat, f1: Flash,
                          files1: seq<FileObject>, log: nat,
                          f: Flash, files: seq<FileObject>, off: nat, data: seq<byte>, stack: seq<byte>,
                          readsBack: bool)
    requires Inv(g, f0, files0, fds) && LogCreated(g, f0, files0, fds, s, f1, files1, log) && Inv(g, f1, files1, fds)
    requires s < |files0| && files0[s].references > 0 && !HeaderAt(g, f0, files0[s].page).modified
    requires ChunkLogged(g, f1, files1, fds, s, f, files, off, data, stack, readsBack)
    ensures ChunkLogged(g, f0, files0, fds, s, f, files, off, data, stack, readsBack)
  {
    hide HeaderAt, Path, Good, Actives, RefCount, CacheOk, NamesOk, DiskOk, Kept, ViewByte, FirstFree, RegionLogged,
         Moved, FileReady, ConfigOk;
    MovedTrans(g, f0, files0, fds, s, f1, files1, fds, s, f, files, fds, s);
    var q := files0[s].page;
    forall i: nat ensures !RegionLogged(g, f1, q, i) { EmptyLogSaysNothing(g, f1, files1, fds, s, i); }
    forall i: nat ensures !RegionLogged(g, f0, q, i) { NotLoggedYet(g, f0, q, i); }
  }

  lemma NotLoggedYet(g: Geometry, f: Flash, q: nat, i: nat)
    requires !HeaderAt(g, f, q).modified
    ensures !RegionLogged(g, f, q, i)
  {
    hide HeaderAt;
  }

  lemma SameCapacity(g: Geometry, f: Flash, f': Flash, q: nat)
    requires HeaderAt(g, f', q).maxPages == HeaderAt(g, f, q).maxPages
    ensures Capacity(g, f', q) == Capacity(g, f, q)
  {
    hide HeaderAt;
  }

  /** What the record block relies on after create_log. */
  lemma CreatedSlot(g: Geometry, f0: Flash, files0: seq<FileObject>, fds: seq<FileDesc>, s: nat, f: Flash,
                    files: seq<FileObject>, log: nat, hdr: Header)
    requires LogCreated(g, f0, files0, fds, s, f, files, log) && s < |files0| && hdr == HeaderAt(g, f0, files0[s].page)
    requires 1 <= Records(g, hdr)
    ensures s < |files| && files[s].references == files0[s].references && files[s].page == files0[s].page >= 0
    ensures var h := hdr.(modified := true, logPage := log);
      && HeaderAt(g, f, files[s].page) == h && FirstFree(g, f, log, 0, Records(g, h)) == 0 < Records(g, h)
      && RecordSize(g, h) == RecordSize(g, hdr) && Capacity(g, f, files[s].page) == Capacity(g, f0, files[s].page)
  {
    hide HeaderAt, FirstFree, Moved;
  }

  // ----- cfs_write: progress -----

  /** The table with descriptor fd put back to an offset. */
  function FdBack(fds: seq<FileDesc>, fd: int, off: int): seq<FileDesc> {
    if 0 <= fd < |fds| then fds[fd := fds[fd].(offset := off)] else fds
  }

  function Max(a: int, b: int): int { if a < b then b else a }

  function Min(a: int, b: int): int { if a < b then a else b }

  /** Whether cfs_write goes through the log: below the end, or onto a logged file that need not grow. */
  predicate LoggedPath(g: Geometry, o: FileObject, off: nat, n: nat) {
    off < o.end || (o.modified && n + off + HEADER_SIZE <= g.At(o.maxPages))
  }

  /** Whether a write would have to log into a file that has no log yet and, once grown for it, is too long for
      16-bit region numbers. */
  predicate Oversized(g: Geometry, f: Flash, o: FileObject, off: nat, n: nat) {
    && 0 <= o.page && off < o.end
    && !RegionsFit(g.At(Grown(g, o.maxPages, n + off + HEADER_SIZE)) - HEADER_SIZE,
                   RecordSize(g, HeaderAt(g, f, o.page)))
  }

  /** A write of data through fd has come n bytes far: the file of slot s lives in slot t, its end and its
      record size follow, the first n bytes of data are in it, and every other byte is the old one, or where
      it was torn what stands there. Nothing else changed. */
  ghost predicate Wrote(g: Geometry, f0: Flash, files0: seq<FileObject>, fds0: seq<FileDesc>, fd: int,
                        data: seq<byte>, torn: imap<nat, byte>,
                        f: Flash, files: seq<FileObject>, fds: seq<FileDesc>, t: int, n: nat)
  {
    && 0 <= fd < |fds0| && fds0[fd].flags != 0 && n <= |data| && 0 <= fds0[fd].offset
    && 0 <= fds0[fd].file < |files0| && 0 <= t < |files|
    && Moved(g, f0, files0, fds0, fds0[fd].file, f, files, FdBack(fds, fd, fds0[fd].offset), t)
    && fds[fd] == fds0[fd].(file := t, offset := fds0[fd].offset + n)
    && WroteFile(g, f0, files0[fds0[fd].file], fds0[fd].offset, data, torn, f, files[t], n)
  }

  ghost predicate WroteFile(g: Geometry, f0: Flash, o0: FileObject, off: nat, data: seq<byte>, torn: imap<nat, byte>,
                            f: Flash, o: FileObject, n: nat) {
    && n <= |data| && 0 <= o0.page && 0 <= o.page && o.references == o0.references > 0 && o0.maxPages > 0
    && o.maxPages > 0
    && off <= o0.end && o.end == Max(o0.end, off + n)
    && FileFollows(g, f0, o0.page, f, o.page)
    && (forall i: nat :: i < o.end ==>
          ViewByte(g, f, o.page, i) == if off <= i < off + n then data[i - off]
                    else if i in torn then torn[i] else ViewByte(g, f0, o0.page, i))
  }

  /** Every torn byte below an end, but for those of the write, stands as it was. */
  ghost predicate NoneLost(g: Geometry, f: Flash, q: nat, end: int, off: nat, n: nat, torn: imap<nat, byte>) {
    forall i: nat :: i < end && !(off <= i < off + n) && i in torn ==> torn[i] == ViewByte(g, f, q, i)
  }

  /** The content after a write is the old content with the written bytes laid over it exactly if every byte
      that was torn happens to be the old one. */
  lemma WroteContent(g: Geometry, f0: Flash, o0: FileObject, off: nat, data: seq<byte>, torn: imap<nat, byte>, f: Flash,
                     o: FileObject, n: nat)
    requires WroteFile(g, f0, o0, off, data, torn, f, o, n)
    ensures Content(g, f, o.page, o.end) == Overlay(Content(g, f0, o0.page, o0.end), off, data[..n])
       <==> NoneLost(g, f0, o0.page, o0.end, off, n, torn)
  {
    hide ViewByte, HeaderAt;
    var a, b := Content(g, f, o.page, o.end), Overlay(Content(g, f0, o0.page, o0.end), off, data[..n]);
    forall i | 0 <= i < |a|
      ensures a[i] == b[i] <==> off <= i < off + n || i !in torn || torn[i] == ViewByte(g, f0, o0.page, i)
    {
      assert a[i] == ViewByte(g, f, o.page, 0 + i);
      if i < o0.end { assert Content(g, f0, o0.page, o0.end)[i] == ViewByte(g, f0, o0.page, 0 + i); }
    }
    if NoneLost(g, f0, o0.page, o0.end, off, n, torn) {
      assert a == b;
    } else {
      var i: nat :| i < o0.end && !(off <= i < off + n) && i in torn && torn[i] != ViewByte(g, f0, o0.page, i);
      assert a[i] != b[i];
    }
  }

  lemma WriteBegins(g: Geometry, f: Flash, files: seq<FileObject>, fds: seq<FileDesc>, fd: nat, data: seq<byte>,
                    torn: imap<nat, byte>)
    requires Inv(g, f, files, fds) && fd < |fds| && fds[fd].flags != 0 && torn == imap[]
    ensures 0 <= fds[fd].file < |files| && Wrote(g, f, files, fds, fd, data, torn, f, files, fds, fds[fd].file, 0)
  {
    hide HeaderAt, Path, Good, Actives, RefCount, NamesOk, DiskOk, Capacity, ViewByte, FirstFree, ZeroRange;
    var s := fds[fd].file;
    assert FdOk(g, f, files, fds[fd]);
    RefersOpen(fds, fd);
    RefCountMember(fds, fd, s);
    assert SlotOk(g, f, files[s]);
    KeptRefl(g, f);
  }

  /** The file moved but reads as before: nothing of the write was lost. */
  lemma WroteMoved(g: Geometry, f0: Flash, files0: seq<FileObject>, fds0: seq<FileDesc>, fd: int, data: seq<byte>,
                   torn: imap<nat, byte>,
                   f: Flash, files: seq<FileObject>, fds: seq<FileDesc>, t: int, n: nat, f': Flash,
                   files': seq<FileObject>, fds': seq<FileDesc>, u: int)
    requires CacheOk(g, f0, files0, fds0) && Wrote(g, f0, files0, fds0, fd, data, torn, f, files, fds, t, n)
    requires Moved(g, f, files, fds, t, f', files', fds', u)
    requires files'[u].references == files[t].references && files'[u].end == files[t].end && files'[u].maxPages > 0
    requires FileFollows(g, f, files[t].page, f', files'[u].page)
    requires forall i: nat :: i < files[t].end ==>
             ViewByte(g, f', files'[u].page, i) == ViewByte(g, f, files[t].page, i)
    ensures Wrote(g, f0, files0, fds0, fd, data, torn, f', files', fds', u, n)
  {
    hide HeaderAt, Path, Good, Actives, RefCount, DiskOk, Capacity, ViewByte, Own, Kept, CacheOk, RecordSize;
    var off := fds0[fd].offset;
    assert FdMoved(fds[fd], fds'[fd], t, u);
    MovedBack(g, f, files, fds, t, f', files', fds', u, fd, off);
    MovedTrans(g, f0, files0, fds0, fds0[fd].file, f, files, FdBack(fds, fd, off), t, f', files',
               FdBack(fds', fd, off), u);
  }

  lemma MovedBack(g: Geometry, f: Flash, files: seq<FileObject>, fds: seq<FileDesc>, t: int, f': Flash,
                  files': seq<FileObject>, fds': seq<FileDesc>, u: int, fd: nat, off: int)
    requires Moved(g, f, files, fds, t, f', files', fds', u) && fd < |fds| && fds[fd].flags != 0
    ensures Moved(g, f, files, FdBack(fds, fd, off), t, f', files', FdBack(fds', fd, off), u)
  {
    hide HeaderAt, Actives, Own, Kept;
    assert FdMoved(fds[fd], fds'[fd], t, u);
  }

  lemma WroteMerged(g: Geometry, f0: Flash, files0: seq<FileObject>, fds0: seq<FileDesc>, fd: int, data: seq<byte>,
                    torn: imap<nat, byte>,
                    f: Flash, files: seq<FileObject>, fds: seq<FileDesc>, t: int, n: nat, f': Flash,
                    files': seq<FileObject>, fds': seq<FileDesc>, u: int)
    requires CacheOk(g, f0, files0, fds0) && Wrote(g, f0, files0, fds0, fd, data, torn, f, files, fds, t, n)
    requires MergedInto(g, f, files, fds, t, f', files', fds', u)
    ensures Wrote(g, f0, files0, fds0, fd, data, torn, f', files', fds', u, n) && !files'[u].modified
  {
    hide HeaderAt, Path, Good, Actives, RefCount, DiskOk, Capacity, ViewByte, Own, Kept, CacheOk, RecordSize, Moved;
    WroteSlots(g, f0, files0, fds0, fd, data, torn, f, files, fds, t, n);
    MovedSlots(g, f, files, fds, t, f', files', fds', u);
    WroteMoved(g, f0, files0, fds0, fd, data, torn, f, files, fds, t, n, f', files', fds', u);
  }

  lemma WroteSlots(g: Geometry, f0: Flash, files0: seq<FileObject>, fds0: seq<FileDesc>, fd: int, data: seq<byte>,
                   torn: imap<nat, byte>,
                   f: Flash, files: seq<FileObject>, fds: seq<FileDesc>, t: int, n: nat)
    requires Wrote(g, f0, files0, fds0, fd, data, torn, f, files, fds, t, n)
    ensures |files| == |files0| && |fds| == |fds0| && 0 <= t < |files| && 0 <= fd < |fds|
  {
    hide HeaderAt, Own, Kept, Actives;
  }

  lemma MovedSlots(g: Geometry, f: Flash, files: seq<FileObject>, fds: seq<FileDesc>, t: int, f': Flash,
                   files': seq<FileObject>, fds': seq<FileDesc>, u: int)
    requires Moved(g, f, files, fds, t, f', files', fds', u)
    ensures |files'| == |files| && |fds'| == |fds| && 0 <= t < |files| && 0 <= u < |files|
  {
    hide HeaderAt, Own, Kept, Actives;
  }

  /** A failed step disturbed nothing. */
  lemma WroteQuiet(g: Geometry, f0: Flash, files0: seq<FileObject>, fds0: seq<FileDesc>, fd: int, data: seq<byte>,
                   torn: imap<nat, byte>,
                   f: Flash, files: seq<FileObject>, fds: seq<FileDesc>, t: int, n: nat, f': Flash,
                   files': seq<FileObject>, fds': seq<FileDesc>)
    requires CacheOk(g, f0, files0, fds0) && Wrote(g, f0, files0, fds0, fd, data, torn, f, files, fds, t, n)
    requires Inv(g, f, files, fds) && Quiet(g, f, files, fds, f', files', fds')
    ensures Wrote(g, f0, files0, fds0, fd, data, torn, f', files', fds', t, n)
  {
    hide HeaderAt, Path, Good, Actives, RefCount, DiskOk, Capacity, ViewByte, Own, Kept, CacheOk, RecordSize, Moved,
         NamesOk, ConfigOk, AllKept, FileReady, FileOk;
    WroteSlots(g, f0, files0, fds0, fd, data, torn, f, files, fds, t, n);
    QuietMoves(g, f, files, fds, t, f', files', fds');
    MergeSource(g, f, files, fds, t);
    QuietFile(g, f, files[t].page, f', files[t].end);
    WroteMoved(g, f0, files0, fds0, fd, data, torn, f, files, fds, t, n, f', files', fds', t);
  }

  lemma QuietMoves(g: Geometry, f: Flash, files: seq<FileObject>, fds: seq<FileDesc>, t: nat, f': Flash,
                   files': seq<FileObject>, fds': seq<FileDesc>)
    requires t < |files| && files[t].references > 0 && 0 <= files[t].page && Inv(g, f, files, fds)
             && Quiet(g, f, files, fds, f', files', fds')
    ensures Moved(g, f, files, fds, t, f', files', fds', t) && files'[t] == files[t]
  {
    hide HeaderAt, Path, Good, Actives, RefCount, DiskOk, Capacity, Kept, NamesOk, ZeroRange, FirstFree;
    assert SlotOk(g, f, files[t]);
  }

  lemma QuietFile(g: Geometry, f: Flash, q: nat, f': Flash, end: int)
    requires DiskOk(g, f) && q in Files(g, f) && AllKept(g, f, f') && end <= Capacity(g, f, q)
    ensures HeaderAt(g, f', q) == HeaderAt(g, f, q)
    ensures forall i: nat :: i < end ==> ViewByte(g, f', q, i) == ViewByte(g, f, q, i)
  {
    hide HeaderAt, Path, Good, Actives, Kept, ViewByte, HeaderStored, ConfigOk, TableOk;
    assert FileOk(g, f, q);
    forall i: nat | i < end ensures ViewByte(g, f', q, i) == ViewByte(g, f, q, i) {
      ViewKept(g, f, f', q, i);
    }
  }

  // ----- cfs_write: one chunk through the log -----

  /** What one chunk of a write that began at start tears: if its region had a record that is not read back, the
      bytes of that region beside the write hold what the stack held, and none of them was written before. */
  ghost predicate Tears(g: Geometry, f: Flash, q: nat, off: nat, n: nat, stack: seq<byte>, readsBack: bool,
                        end: nat, torn: imap<nat, byte>, torn': imap<nat, byte>, start: nat) {
    var rs := RecordSize(g, HeaderAt(g, f, q));
    forall i: nat :: i < end && !(off <= i < off + n) ==>
      if Quot(i, rs) == Quot(off, rs) && !readsBack && RegionLogged(g, f, q, off)
      then !(start <= i < off) && i in torn' && torn'[i] == ByteAt(stack, Rem(i, rs))
      else start <= i < off || ((i in torn' <==> i in torn) && (i in torn ==> torn'[i] == torn[i]))
  }

  lemma ChunkFile(g: Geometry, f0: Flash, o0: FileObject, off: nat, data: seq<byte>, torn: imap<nat, byte>,
                  torn': imap<nat, byte>, f: Flash, o: FileObject, n: nat,
                  f': Flash, o': FileObject, m: nat, stack: seq<byte>, readsBack: bool)
    requires WroteFile(g, f0, o0, off, data, torn, f, o, n) && n + m <= |data|
             && off + n + m <= Capacity(g, f, o.page) && o.end <= Capacity(g, f, o.page)
    requires o' == o.(modified := true, recordCount := o'.recordCount, end := Max(o.end, off + n + m))
    requires FileFollows(g, f, o.page, f', o.page)
    requires forall i: nat :: i < Capacity(g, f, o.page) ==>
             ViewByte(g, f', o.page, i) == LoggedByte(g, f, o.page, off + n, data[n..n + m], stack, readsBack, i)
    requires Tears(g, f, o.page, off + n, m, stack, readsBack, Max(o.end, off + n + m), torn, torn', off)
    ensures WroteFile(g, f0, o0, off, data, torn', f', o', n + m)
  {
    hide HeaderAt, RecordSize, ViewByte, Capacity, RegionLogged, Quot, Rem;
    var chunk := data[n..n + m];
    forall i: nat | i < o'.end
      ensures ViewByte(g, f', o.page, i) == if off <= i < off + n + m then data[i - off]
              else if i in torn' then torn'[i] else ViewByte(g, f0, o0.page, i)
    {
      if off + n <= i < off + n + m {
        assert LoggedByte(g, f, o.page, off + n, chunk, stack, readsBack, i) == chunk[i - (off + n)];
      }
    }
  }

  lemma MovedEnd(g: Geometry, f0: Flash, files0: seq<FileObject>, fds0: seq<FileDesc>, s: int, f: Flash,
                 files: seq<FileObject>, fds: seq<FileDesc>, t: int, end: int)
    requires Moved(g, f0, files0, fds0, s, f, files, fds, t)
    ensures 0 <= t < |files| && Moved(g, f0, files0, fds0, s, f, files[t := files[t].(end := end)], fds, t)
  {
    hide HeaderAt, Actives, Own, Kept;
  }

  /** The bookkeeping after bytes reached the device: the descriptor advances, the end follows. */
  lemma Advanced(g: Geometry, f: Flash, files: seq<FileObject>, fds: seq<FileDesc>, fd: nat, t: nat, to: nat)
    requires Inv(g, f, files, fds) && fd < |fds| && fds[fd].flags != 0 && fds[fd].file == t < |files|
             && files[t].references > 0
    requires to + HEADER_SIZE <= g.At(files[t].maxPages)
    ensures Inv(g, f, files[t := files[t].(end := Max(files[t].end, to))], fds[fd := fds[fd].(offset := to)])
  {
    hide HeaderAt, RefCount, DiskOk, SlotOk, CStr, NamesOk, CacheOk, Capacity, ZeroRange, FileReady, FileOk, Times;
    MergeSource(g, f, files, fds, t);
    ReadyNotLog(g, f, files[t]);
    ReadyFacts(g, f, files[t]);
    CapacityIs(g, f, files[t].page);
    var end := Max(files[t].end, to);
    EndLearned(g, f, files[t], end);
    CacheEnd(g, f, files, fds, t, end);
    CacheMoved(g, f, files[t := files[t].(end := end)], fds, fd, to);
  }

  lemma BackAgain(fds: seq<FileDesc>, fd: nat, to: int, off: int)
    requires fd < |fds|
    ensures FdBack(fds[fd := fds[fd].(offset := to)], fd, off) == FdBack(fds, fd, off)
  {}

  lemma WroteChunk(g: Geometry, f0: Flash, files0: seq<FileObject>, fds0: seq<FileDesc>, fd: nat, data: seq<byte>,
                   torn: imap<nat, byte>, torn': imap<nat, byte>,
                   f: Flash, files: seq<FileObject>, fds: seq<FileDesc>, t: nat, n: nat,
                   f': Flash, files1: seq<FileObject>, files': seq<FileObject>, fds': seq<FileDesc>, m: nat,
                   stack: seq<byte>, readsBack: bool)
    requires fd < |fds| && fd < |fds0| && t < |files| && |files1| == |files| && n + m <= |data|
    requires 0 <= fds[fd].offset && 0 <= fds0[fd].offset && 0 <= files[t].page
    requires fds[fd].offset + m + HEADER_SIZE <= g.At(files[t].maxPages)
    requires 0 <= files[t].end && Tears(g, f, files[t].page, fds[fd].offset, m, stack, readsBack,
             Max(files[t].end, fds[fd].offset + m), torn, torn', fds0[fd].offset)
    requires ChunkLogged(g, f, files, fds, t, f', files1, fds[fd].offset, data[n..n + m], stack, readsBack)
    requires Wrote(g, f0, files0, fds0, fd, data, torn, f, files, fds, t, n)
    requires files' == files1[t := files1[t].(end := Max(files1[t].end, fds[fd].offset + m))]
    requires fds' == fds[fd := fds[fd].(offset := fds[fd].offset + m)]
    requires CacheOk(g, f0, files0, fds0) && Inv(g, f, files, fds) && Inv(g, f', files1, fds)
    ensures Inv(g, f', files', fds') && Wrote(g, f0, files0, fds0, fd, data, torn', f', files', fds', t, n + m)
  {
    hide HeaderAt, Path, Good, Actives, RefCount, DiskOk, Capacity, ViewByte, Own, Kept, CacheOk, RecordSize, Moved,
         NamesOk, LoggedByte, Tears, FileReady, FileOk, ConfigOk, WroteFile, Times;
    WroteSlots(g, f0, files0, fds0, fd, data, torn, f, files, fds, t, n);
    WroteRefs(g, f0, files0, fds0, fd, data, torn, f, files, fds, t, n);
    var off, to := fds0[fd].offset, fds[fd].offset + m;
    MergeSource(g, f, files, fds, t);
    CapacityIs(g, f, files[t].page);
    ChunkFile(g, f0, files0[fds0[fd].file], off, data, torn, torn', f, files[t], n, f', files'[t], m, stack,
              readsBack);
    Advanced(g, f', files1, fds, fd, t, to);
    MovedBack(g, f, files, fds, t, f', files1, fds, t, fd, off);
    MovedTrans(g, f0, files0, fds0, fds0[fd].file, f, files, FdBack(fds, fd, off), t, f', files1,
               FdBack(fds, fd, off), t);
    MovedEnd(g, f0, files0, fds0, fds0[fd].file, f', files1, FdBack(fds, fd, off), t, Max(files1[t].end, to));
    BackAgain(fds, fd, to, off);
  }

  lemma WroteRefs(g: Geometry, f0: Flash, files0: seq<FileObject>, fds0: seq<FileDesc>, fd: int, data: seq<byte>,
                  torn: imap<nat, byte>,
                  f: Flash, files: seq<FileObject>, fds: seq<FileDesc>, t: int, n: nat)
    requires Wrote(g, f0, files0, fds0, fd, data, torn, f, files, fds, t, n)
    ensures 0 <= t < |files| && files[t].references > 0 && 0 <= files[t].page && 0 <= fd < |fds|
            && fds[fd].flags != 0 && fds[fd].file == t
    ensures 0 <= fds[fd].offset == fds0[fd].offset + n && fds[fd].offset <= files[t].end && files[t].maxPages > 0
  {
    hide HeaderAt, Own, Kept, Actives, ViewByte, RecordSize;
    WroteSlots(g, f0, files0, fds0, fd, data, torn, f, files, fds, t, n);
  }

  // ----- cfs_write: growing -----

  lemma {:induction false} AtLeast(p: nat, k: nat)
    requires 1 <= k
    ensures p <= Times(p, k)
  {
    if p != 0 { AtLeast(p - 1, k); }
  }

  /** The first of p, 2p, 4p, ... pages with this many bytes. */
  function Grown(g: Geometry, p: nat, need: nat): nat
    decreases need - p
  {
    if p == 0 || g.pageSize == 0 || need <= g.At(p) then p
    else
      AtLeast(p, g.pageSize);
      Grown(g, 2 * p, need)
  }

  /** It has room, and half of it, if it grew at all, had not. */
  lemma {:induction false} GrownIsLeast(g: Geometry, p: nat, need: nat)
    requires g.Ok() && 1 <= p
    ensures need <= g.At(Grown(g, p, need))
    ensures Grown(g, p, need) == p || (2 * p <= Grown(g, p, need) && Grown(g, p, need) % 2 == 0
            && g.At(Grown(g, p, need) / 2) < need)
    decreases need - p
  {
    hide Times;
    if need > g.At(p) {
      AtLeast(p, g.pageSize);
      GrownIsLeast(g, 2 * p, need);
    }
  }

  lemma GrownStep(g: Geometry, p: nat, need: nat)
    requires g.Ok() && 1 <= p && need > g.At(p)
    ensures Grown(g, 2 * p, need) == Grown(g, p, need)
  {}

  /** A merged file has no log. */
  lemma MergedUnlogged(g: Geometry, f: Flash, files: seq<FileObject>, fds: seq<FileDesc>, s: int,
                       f': Flash, files': seq<FileObject>, fds': seq<FileDesc>, t: int)
    requires MergedInto(g, f, files, fds, s, f', files', fds', t)
    ensures 0 <= t < |files'| && 0 <= files'[t].page && !files'[t].modified && !HeaderAt(g, f', files'[t].page).modified
    ensures 0 <= s < |files| && 0 <= files[s].page && RecordSize(g, HeaderAt(g, f', files'[t].page))
            == RecordSize(g, HeaderAt(g, f, files[s].page))
  {
    hide HeaderAt, Actives, Own, Kept, ViewByte, RecordSize;
  }

  lemma WroteEnd(g: Geometry, f0: Flash, files0: seq<FileObject>, fds0: seq<FileDesc>, fd: int, data: seq<byte>,
                 torn: imap<nat, byte>,
                 f: Flash, files: seq<FileObject>, fds: seq<FileDesc>, t: int)
    requires Wrote(g, f0, files0, fds0, fd, data, torn, f, files, fds, t, 0)
    ensures 0 <= t < |files| && 0 <= fd < |fds0| && 0 <= fds0[fd].file < |files0|
            && files[t].end == files0[fds0[fd].file].end
    ensures 0 <= fds0[fd].offset <= files[t].end
  {
    hide HeaderAt, Own, Kept, Actives, ViewByte, RecordSize;
  }

  /** Appending in place keeps next_free and gc_wait right. */
  lemma AppendStops(g: Geometry, f: Flash, files: seq<FileObject>, fds: seq<FileDesc>, t: nat, data: seq<byte>,
                    x: nat, wait: bool, strayed: bool)
    requires Inv(g, f, files, fds) && t < |files| && files[t].references > 0
             && files[t].end + |data| + HEADER_SIZE <= g.At(files[t].maxPages)
    requires Placed(g, f, x, wait, strayed)
    ensures 0 <= files[t].page && 0 <= files[t].end
    ensures DataStart(g, files[t].page) + files[t].end + |data| <= |f|
    ensures Placed(g, Written(f, DataStart(g, files[t].page) + files[t].end, data), x, wait, strayed)
  {
    hide HeaderAt, Path, Good, Actives, DiskOk, CacheOk, NamesOk, FileReady, FileOk, ConfigOk, Times, Capacity;
    MergeSource(g, f, files, fds, t);
    ReadyFacts(g, f, files[t]);
    CapacityIs(g, f, files[t].page);
    WrittenStops(g, f, files[t].page, files[t].end, data, x, wait, strayed);
  }

  // ----- cfs_write: appending in place -----

  /** Bytes written at the end of an unlogged file. */
  lemma CacheDataAppended(g: Geometry, f: Flash, files: seq<FileObject>, fds: seq<FileDesc>, t: nat, data: seq<byte>)
    requires Inv(g, f, files, fds) && t < |files| && files[t].references > 0 && !files[t].modified
             && files[t].end + |data| + HEADER_SIZE <= g.At(files[t].maxPages)
    ensures 0 <= files[t].page && 0 <= files[t].end
    ensures var a := DataStart(g, files[t].page) + files[t].end;
      && a + |data| <= |f| && OnlySets(f[a..a + |data|], data)
      && var f' := Written(f, a, data);
      && Inv(g, f', files[t := files[t].(end := files[t].end + |data|)], fds)
      && Moved(g, f, files, fds, t, f', files, fds, t)
      && HeaderAt(g, f', files[t].page) == HeaderAt(g, f, files[t].page)
      && (forall i: nat :: i < files[t].end + |data| ==>
            ViewByte(g, f', files[t].page, i) == if files[t].end <= i then data[i - files[t].end]
                     else ViewByte(g, f, files[t].page, i))
  {
    hide HeaderAt, Path, Good, Actives, Kept, ViewByte, RefCount, FirstFree, DiskOk, CStr, FdOk, Clash, Encode,
         Capacity, ZeroRange, SlotOk, FileReady, Written, OnlySets, Own, Moved, FileOk, ConfigOk, Times, DataStart;
    MergeSource(g, f, files, fds, t);
    ReadyNotLog(g, f, files[t]);
    ReadyFacts(g, f, files[t]);
    var q, end := files[t].page, files[t].end;
    CapacityIs(g, f, q);
    DiskDataWritten(g, f, q, end, data);
    EndSpace(g, f, files[t], data);
    var f' := Written(f, DataStart(g, q) + end, data);
    DataChangedIsUpdate(g, f, f', q);
    NotALog(g, f, q);
    var files' := files[t := files[t].(end := end + |data|)];
    forall i | 0 <= i < |files'| ensures SlotOk(g, f', files'[i]) {
      if i == t {
        DataSlot(g, f, f', files[t], data);
      } else {
        OtherSlot(g, f, f', q, files, fds, t, i);
      }
    }
    forall k | 0 <= k < |fds| ensures FdOk(g, f', files', fds[k]) {
      assert FdOk(g, f, files, fds[k]);
      LaterEndFd(g, f, f', files, files', fds[k]);
    }
    forall i, j | 0 <= i < j < |files'| ensures !Clash(g, f', files'[i], files'[j]) {
      assert !Clash(g, f, files[i], files[j]);
      SameHeadersClash(g, f, f', files[i], files[j], files'[i], files'[j]);
    }
    OwnUnlogged(g, f, f', q);
    RecordMoves(g, f, f', files, files, fds, t);
  }

  lemma OwnUnlogged(g: Geometry, f: Flash, f': Flash, q: nat)
    requires HeaderAt(g, f', q) == HeaderAt(g, f, q) && !HeaderAt(g, f, q).modified
    ensures Own(g, f, q) == {q} == Own(g, f', q)
  {
    hide HeaderAt;
  }

  lemma EndSpace(g: Geometry, f: Flash, o: FileObject, data: seq<byte>)
    requires SlotOk(g, f, o) && o.maxPages > 0 && 0 <= o.page && !HeaderAt(g, f, o.page).log
             && !HeaderAt(g, f, o.page).modified && 0 <= o.end
    requires o.maxPages == MaxPages(g, f, o.page) && o.end + |data| <= Capacity(g, f, o.page)
             && DataStart(g, o.page) + o.end + |data| <= |f|
    ensures var a := DataStart(g, o.page) + o.end; OnlySets(f[a..a + |data|], data)
  {
    hide HeaderAt, Path, Good, Actives, FirstFree, OnlySets;
    var a := DataStart(g, o.page) + o.end;
    assert Zeros(f[a..a + |data|]);
    ErasedTakesAnything(f[a..a + |data|], data);
  }

  lemma DataSlot(g: Geometry, f: Flash, f': Flash, o: FileObject, data: seq<byte>)
    requires SlotOk(g, f, o) && o.maxPages > 0 && 0 <= o.page && !HeaderAt(g, f, o.page).log
             && !HeaderAt(g, f, o.page).modified && 0 <= o.end
    requires o.end + |data| <= Capacity(g, f, o.page) && DataStart(g, o.page) + o.end + |data| <= |f|
    requires f' == Written(f, DataStart(g, o.page) + o.end, data) && Files(g, f') == Files(g, f)
             && HeaderAt(g, f', o.page) == HeaderAt(g, f, o.page)
    ensures SlotOk(g, f', o.(end := o.end + |data|))
  {
    hide HeaderAt, Path, Good, Actives, FirstFree;
  }

  lemma LaterEndFd(g: Geometry, f: Flash, f': Flash, files: seq<FileObject>, files': seq<FileObject>, d: FileDesc)
    requires FdOk(g, f, files, d) && |files'| == |files| && forall i :: 0 <= i < |files| ==> SlotOk(g, f, files[i])
    requires forall p :: p in Files(g, f) ==> HeaderAt(g, f', p) == HeaderAt(g, f, p)
    requires forall i :: 0 <= i < |files| ==> files'[i].page == files[i].page
                                              && files'[i].maxPages == files[i].maxPages
                                              && files'[i].end >= files[i].end
    ensures FdOk(g, f', files', d)
  {
    hide HeaderAt, Actives, FirstFree, ZeroRange, Capacity;
    if d.flags != 0 { assert SlotOk(g, f, files[d.file]); }
  }

  lemma WroteAppended(g: Geometry, f0: Flash, files0: seq<FileObject>, fds0: seq<FileDesc>, fd: nat, data: seq<byte>,
                      torn: imap<nat, byte>,
                      f: Flash, files: seq<FileObject>, fds: seq<FileDesc>, t: nat)
    requires CacheOk(g, f0, files0, fds0) && Inv(g, f, files, fds)
    requires Wrote(g, f0, files0, fds0, fd, data, torn, f, files, fds, t, 0) && t < |files| && fd < |fds|
    requires !files[t].modified && fds[fd].offset >= files[t].end
             && fds[fd].offset + |data| + HEADER_SIZE <= g.At(files[t].maxPages)
    ensures 0 <= files[t].page && 0 <= fds[fd].offset
    ensures var a, to := DataStart(g, files[t].page) + fds[fd].offset, fds[fd].offset + |data|;
      && a + |data| <= |f| && OnlySets(f[a..a + |data|], data)
      && var f', files', fds' := Written(f, a, data), files[t := files[t].(end := Max(files[t].end, to))],
         fds[fd := fds[fd].(offset := to)];
      Inv(g, f', files', fds') && Wrote(g, f0, files0, fds0, fd, data, torn, f', files', fds', t, |data|)
  {
    hide HeaderAt, Path, Good, Actives, RefCount, DiskOk, Capacity, ViewByte, Own, Kept, CacheOk, RecordSize, Moved,
         NamesOk, FileReady, FileOk, ConfigOk, WroteFile, Times, Written, OnlySets, DataStart;
    WroteRefs(g, f0, files0, fds0, fd, data, torn, f, files, fds, t, 0);
    var off, to := fds0[fd].offset, fds[fd].offset + |data|;
    CacheDataAppended(g, f, files, fds, t, data);
    var f', files1 := Written(f, DataStart(g, files[t].page) + off, data), files[t := files[t].(end := to)];
    AppendedFile(g, f0, files0[fds0[fd].file], off, data, torn, f, files[t], f', files1[t]);
    Advanced(g, f', files1, fds, fd, t, to);
    assert files1[t := files1[t].(end := Max(files1[t].end, to))]
        == files[t := files[t].(end := Max(files[t].end, to))];
    MovedBack(g, f, files, fds, t, f', files, fds, t, fd, off);
    MovedTrans(g, f0, files0, fds0, fds0[fd].file, f, files, FdBack(fds, fd, off), t, f', files,
               FdBack(fds, fd, off), t);
    MovedEnd(g, f0, files0, fds0, fds0[fd].file, f', files, FdBack(fds, fd, off), t, to);
    BackAgain(fds, fd, to, off);
  }

  lemma AppendedFile(g: Geometry, f0: Flash, o0: FileObject, off: nat, data: seq<byte>, torn: imap<nat, byte>, f: Flash,
                     o: FileObject, f': Flash, o': FileObject)
    requires WroteFile(g, f0, o0, off, data, torn, f, o, 0) && o.end == off && o' == o.(end := off + |data|)
    requires HeaderAt(g, f', o.page) == HeaderAt(g, f, o.page)
    requires forall i: nat :: i < o.end + |data| ==> ViewByte(g, f', o.page, i) == if o.end <= i then data[i - o.end]
             else ViewByte(g, f, o.page, i)
    ensures WroteFile(g, f0, o0, off, data, torn, f', o', |data|)
  {
    hide HeaderAt, RecordSize, ViewByte;
  }

  // ----- cfs_write: what a write tears -----

  /** How many records the log can still take when a write that needs so many bytes begins: none without a log,
      and none if the file has to grow, as it is merged first then. */
  function OpenRecords(g: Geometry, f: Flash, o: FileObject, need: nat): nat
    requires 0 <= o.page
  {
    var h := HeaderAt(g, f, o.page);
    if need > g.At(o.maxPages) || !h.modified || Used(g, f, o.page) > Records(g, h) then 0
    else Records(g, h) - Used(g, f, o.page)
  }

  /** The number of regions that n bytes from off on lie in, which is that of the records they take. */
  function Chunks(off: nat, n: nat, rs: nat): int {
    if n == 0 then 0 else Quot(off + n - 1, rs) - Quot(off, rs) + 1
  }

  /** Whether a write of n bytes tears byte i, if it lies beside them: it shares the first or the last region of
      the write, that region has a record, which the code as it stands does not read back, and the record that
      replaces it goes to the old log, before any merge. */
  predicate TornAt(g: Geometry, readsBack: bool, f: Flash, q: nat, off: nat, n: nat, free: nat, i: nat) {
    var rs := RecordSize(g, HeaderAt(g, f, q));
    !readsBack && n > 0 && RegionLogged(g, f, q, i)
    && ((Quot(i, rs) == Quot(off, rs) && 1 <= free)
        || (Quot(i, rs) == Quot(off + n - 1, rs) && Chunks(off, n, rs) <= free))
  }

  /** The torn bytes and what they hold, where first and last are what the stack held when the first and the last
      record were built. */
  ghost function Torn(g: Geometry, readsBack: bool, f: Flash, q: nat, off: nat, n: nat, free: nat, first: seq<byte>,
                      last: seq<byte>): imap<nat, byte> {
    var rs := RecordSize(g, HeaderAt(g, f, q));
    imap i: nat | TornAt(g, readsBack, f, q, off, n, free, i) ::
      ByteAt(if Quot(i, rs) == Quot(off, rs) then first else last, Rem(i, rs))
  }

  lemma NothingTorn(g: Geometry, readsBack: bool, f: Flash, q: nat, off: nat, free: nat, first: seq<byte>,
                    last: seq<byte>)
    ensures Torn(g, readsBack, f, q, off, 0, free, first, last) == imap[]
  {}

  /** A log that takes no record loses none either. */
  lemma NoneTorn(g: Geometry, readsBack: bool, f: Flash, q: nat, off: nat, n: nat, first: seq<byte>, last: seq<byte>)
    requires 1 <= RecordSize(g, HeaderAt(g, f, q))
    ensures Torn(g, readsBack, f, q, off, n, 0, first, last) == imap[]
  {
    hide HeaderAt, RecordSize, RegionLogged, Quot;
    if n > 0 { QuotOrder(off, off + n - 1, RecordSize(g, HeaderAt(g, f, q))); }
  }

  /** The log of a write that has made k records is the old one, with as much less room, and tells of no region
      from byte from on what it did not tell before. */
  ghost predicate OldLog(g: Geometry, f0: Flash, q0: nat, free: nat, f: Flash, q: nat, k: int, from: nat) {
    var h := HeaderAt(g, f, q);
    && k <= free && h.modified && h.logPage >= 0 && Used(g, f, q) + (free - k) == Records(g, h)
    && forall i: nat :: i >= from ==> (RegionLogged(g, f, q, i) <==> RegionLogged(g, f0, q0, i))
  }

  /** The old log is gone, merged when it was full, or there never was one: no region from byte from on has
      a record. */
  ghost predicate NewLog(g: Geometry, free: nat, f: Flash, q: nat, k: int, from: nat) {
    free <= k && forall i: nat :: i >= from ==> !RegionLogged(g, f, q, i)
  }

  ghost predicate LogState(g: Geometry, f0: Flash, q0: nat, free: nat, f: Flash, q: nat, k: int, from: nat) {
    OldLog(g, f0, q0, free, f, q, k, from) || NewLog(g, free, f, q, k, from)
  }

  lemma NoLogYet(g: Geometry, f: Flash, q: nat, free: nat, k: int, from: nat)
    requires !HeaderAt(g, f, q).modified && free <= k
    ensures NewLog(g, free, f, q, k, from) && Used(g, f, q) == 0
  {
    hide HeaderAt;
  }

  /** A merge happens only when the old log is full. */
  lemma FullLog(g: Geometry, f0: Flash, q0: nat, free: nat, f: Flash, q: nat, k: int, from: nat)
    requires LogState(g, f0, q0, free, f, q, k, from) && Used(g, f, q) == Records(g, HeaderAt(g, f, q))
    ensures free <= k
  {
    hide HeaderAt, RegionLogged, Used, Records;
  }

  /** The next record replaces one exactly if the region had one at the start and the old log has room for it. */
  lemma Replaces(g: Geometry, f0: Flash, q0: nat, free: nat, f: Flash, f': Flash, q: nat, k: int, off: nat)
    requires LogState(g, f0, q0, free, f, q, k, off) && RecordCounted(g, f, f', q)
    ensures RegionLogged(g, f, q, off) <==> RegionLogged(g, f0, q0, off) && k + 1 <= free
  {
    hide HeaderAt, RegionLogged, Used, Records;
  }

  /** As long as the old log has room for every region of the write it takes the next record. */
  lemma RoomLeft(g: Geometry, f0: Flash, q0: nat, free: nat, f: Flash, q: nat, off: nat, n: nat, total: nat, rs: nat)
    requires 1 <= rs && n < total && (n == 0 || Rem(off + n, rs) == 0) && Chunks(off, total, rs) <= free
    requires LogState(g, f0, q0, free, f, q, Chunks(off, n, rs), off + n)
    ensures HeaderAt(g, f, q).modified && Used(g, f, q) < Records(g, HeaderAt(g, f, q))
  {
    hide HeaderAt, RegionLogged, Used, Records, Quot, Rem;
    QuotOrder(off + n, off + total - 1, rs);
    QuotOrder(off, off + total - 1, rs);
    if n > 0 { QuotStep(off + n, rs); }
  }

  lemma LogStateNext(g: Geometry, f0: Flash, q0: nat, free: nat, f: Flash, f': Flash, q: nat, k: int, off: nat, m: nat)
    requires LogState(g, f0, q0, free, f, q, k, off) && RecordCounted(g, f, f', q) && RegionsAfter(g, f, f', q, off)
    requires var rs := RecordSize(g, HeaderAt(g, f, q)); 1 <= rs && m == rs - Rem(off, rs)
    ensures LogState(g, f0, q0, free, f', q, k + 1, off + m)
  {
    hide HeaderAt, RegionLogged, Used, Records, RecordSize, Quot, Rem;
    var rs := RecordSize(g, HeaderAt(g, f, q));
    ChunkEnds(off, m, rs);
    forall i: nat | i >= off + m ensures RegionLogged(g, f', q, i) <==> RegionLogged(g, f, q, i) {
      QuotOrder(off + m, i, rs);
    }
  }

  lemma SameRegion(g: Geometry, f: Flash, q: nat, i: nat, j: nat)
    requires Quot(i, RecordSize(g, HeaderAt(g, f, q))) == Quot(j, RecordSize(g, HeaderAt(g, f, q)))
             && RegionLogged(g, f, q, i)
    ensures RegionLogged(g, f, q, j)
  {
    hide HeaderAt, Quot, Newest;
  }

  /** The end of a chunk that fills its region is the start of the next one; what follows is in other regions. */
  lemma ChunkEnds(off: nat, m: nat, rs: nat)
    requires 1 <= rs && m == rs - Rem(off, rs)
    ensures 1 <= m <= rs && Rem(off + m, rs) == 0 && Quot(off + m, rs) == Quot(off, rs) + 1
  {
    hide Times;
    QuotBounds(off, rs);
    TimesNext(Quot(off, rs), rs);
    RegionOf(Quot(off, rs) + 1, rs, 0);
    assert Times(Quot(off, rs) + 1, rs) + 0 == off + m;
  }

  lemma QuotOrder(i: nat, j: nat, rs: nat)
    requires 1 <= rs && i <= j
    ensures Quot(i, rs) <= Quot(j, rs)
  {
    hide Times;
    var a, b := Quot(i, rs), Quot(j, rs);
    if b < a {
      TimesMono(b + 1, a, rs);
      TimesNext(b, rs);
    }
    QuotBounds(i, rs);
    QuotBounds(j, rs);
  }

  /** Inside a region that starts at off, no earlier byte lies. */
  lemma RegionStarts(i: nat, off: nat, rs: nat)
    requires 1 <= rs && Rem(off, rs) == 0 && Quot(i, rs) == Quot(off, rs)
    ensures off <= i
  {
    hide Times;
    QuotBounds(i, rs);
    QuotBounds(off, rs);
  }

  lemma TimesNext(q: nat, k: nat)
    ensures Times(1 + q, k) == Times(q, k) + k && Times(q + 1, k) == Times(q, k) + k
  {}

  lemma TimesZero(k: nat)
    ensures Times(0, k) == 0
  {}

  lemma ExtentFits(g: Geometry, f: Flash, q: nat)
    requires DiskOk(g, f) && q in Files(g, f)
    ensures 1 <= MaxPages(g, f, q) <= g.Pages() && HeaderAt(g, f, q).maxPages == MaxPages(g, f, q)
  {
    hide HeaderAt, Path, Good, Actives, LogOk, HeaderStored, ConfigOk;
    ActiveFacts(g, f, 0, g.Pages(), q);
  }

  /** Where the next chunk of a write lies: behind full regions, in a region of its own. */
  lemma ChunkPlace(start: nat, n: nat, m: nat, rs: nat)
    requires 1 <= rs && 1 <= m && Rem(start + n, rs) + m <= rs && (n == 0 || Rem(start + n, rs) == 0)
    ensures Quot(start + n + m - 1, rs) == Quot(start + n, rs)
    ensures n > 0 ==> Quot(start + n, rs) == Quot(start + n - 1, rs) + 1 && Quot(start, rs) <= Quot(start + n - 1, rs)
    ensures Chunks(start, n + m, rs) == Chunks(start, n, rs) + 1
  {
    hide Quot, Rem, Times;
    ChunkRegion(start + n, m, rs);
    if n > 0 {
      QuotOrder(start, start + n - 1, rs);
      QuotOrder(start + n - 1, start + n, rs);
      QuotStep(start + n, rs);
    }
  }

  /** Regions are numbered without gaps. */
  lemma QuotStep(i: nat, rs: nat)
    requires 1 <= rs && 1 <= i && Rem(i, rs) == 0
    ensures Quot(i, rs) == Quot(i - 1, rs) + 1
  {
    hide Times;
    QuotBounds(i, rs);
    QuotBounds(i - 1, rs);
    var q := Quot(i - 1, rs);
    TimesNext(q, rs);
    assert Times(q + 1, rs) == i by {
      if Quot(i, rs) <= q { TimesMono(Quot(i, rs), q, rs); }
      else { TimesMono(q + 1, Quot(i, rs), rs); }
    }
    RegionOf(q + 1, rs, 0);
  }

  /** The next chunk of a write tears what the longer write is said to tear: a region beside it loses its old
      bytes to the stack exactly if it had a record at the start and the old log takes the chunk. */
  lemma ChunkStep(g: Geometry, readsBack: bool, f0: Flash, q0: nat, free: nat, f: Flash, q: nat, start: nat,
                  n: nat, m: nat, first: seq<byte>, last: seq<byte>, stack: seq<byte>, end: nat)
    requires var rs := RecordSize(g, HeaderAt(g, f0, q0));
      && 1 <= rs == RecordSize(g, HeaderAt(g, f, q)) && 1 <= m && Rem(start + n, rs) + m <= rs
      && (n == 0 || Rem(start + n, rs) == 0)
      && (RegionLogged(g, f, q, start + n) <==>
          RegionLogged(g, f0, q0, start + n) && Chunks(start, n, rs) + 1 <= free)
    ensures Tears(g, f, q, start + n, m, stack, readsBack, end,
                  Torn(g, readsBack, f0, q0, start, n, free, first, last),
                  Torn(g, readsBack, f0, q0, start, n + m, free, if n == 0 then stack else first, stack), start)
  {
    hide HeaderAt, RecordSize, RegionLogged, Quot, Rem;
    var rs := RecordSize(g, HeaderAt(g, f0, q0));
    var off := start + n;
    ChunkPlace(start, n, m, rs);
    forall i: nat | i < end && !(off <= i < off + m)
      ensures if Quot(i, rs) == Quot(off, rs) && !readsBack && RegionLogged(g, f, q, off)
              then !(start <= i < off) && TornAt(g, readsBack, f0, q0, start, n + m, free, i)
                   && (Quot(i, rs) == Quot(start, rs) ==> n == 0)
              else start <= i < off
                   || ((TornAt(g, readsBack, f0, q0, start, n + m, free, i)
                        <==> TornAt(g, readsBack, f0, q0, start, n, free, i))
                       && (TornAt(g, readsBack, f0, q0, start, n, free, i) ==> n > 0 && Quot(i, rs) == Quot(start, rs)))
    {
      if Quot(i, rs) == Quot(off, rs) {
        SameRegionLogged(g, f0, q0, i, off);
        if n > 0 && i < off { RegionStarts(i, off, rs); }
      } else if n > 0 && !(start <= i < off) {
        if i < start { QuotOrder(i, start, rs); } else { QuotOrder(off, i, rs); }
      }
    }
  }

  lemma ChunksCount(off: nat, n: nat, rs: nat)
    requires 1 <= rs
    ensures 0 <= Chunks(off, n, rs)
  {
    if n > 0 { QuotOrder(off, off + n - 1, rs); }
  }

  /** A chunk lies in one region. */
  lemma ChunkRegion(off: nat, m: nat, rs: nat)
    requires 1 <= rs && 1 <= m && Rem(off, rs) + m <= rs
    ensures Quot(off + m - 1, rs) == Quot(off, rs)
  {
    hide Times, Quot;
    WithinRegion(off, rs, m - 1);
  }

  lemma RemBounds(i: nat, rs: nat)
    requires 1 <= rs
    ensures 0 <= Rem(i, rs) < rs
  {
    QuotBounds(i, rs);
  }

  /** Before the first record: the file is as it was, or lives on without a log. */
  lemma LogStateBegins(g: Geometry, f0: Flash, files0: seq<FileObject>, fds0: seq<FileDesc>, s: nat, need: nat,
                       f: Flash, q: nat, from: nat)
    requires Inv(g, f0, files0, fds0) && s < |files0| && files0[s].references > 0 && 0 <= files0[s].page
    requires if need <= g.At(files0[s].maxPages) then f == f0 && q == files0[s].page else !HeaderAt(g, f, q).modified
    ensures LogState(g, f0, files0[s].page, OpenRecords(g, f0, files0[s], need), f, q, 0, from)
    ensures !HeaderAt(g, f0, files0[s].page).modified ==> Used(g, f, q) == 0
  {
    hide HeaderAt, DiskOk, CacheOk, NamesOk, RegionLogged, Times, Records, FileReady, ConfigOk, FirstFree, LogOk;
    var q0 := files0[s].page;
    MergeSource(g, f0, files0, fds0, s);
    FileIsOk(g, f0, q0);
    var h := HeaderAt(g, f0, q0);
    if !HeaderAt(g, f, q).modified {
      NoLogYet(g, f, q, 0, 0, from);
    } else {
      LogPageIs(g, f0, q0);
      FirstFreeFacts(g, f0, h.logPage, 0, Records(g, h));
      assert OldLog(g, f0, q0, OpenRecords(g, f0, files0[s], need), f, q, 0, from);
    }
  }

  lemma LogPageIs(g: Geometry, f: Flash, q: nat)
    requires FileOk(g, f, q) && HeaderAt(g, f, q).modified
    ensures 0 <= HeaderAt(g, f, q).logPage
  {
    hide HeaderAt, ConfigOk, Actives, TableOk;
  }

  /** Where a write stands once the file has grown: what its log is, and that nothing is torn if it appends. */
  lemma WriteGrown(g: Geometry, f0: Flash, files0: seq<FileObject>, fds0: seq<FileDesc>, fd: nat, data: seq<byte>,
                   f: Flash, files: seq<FileObject>, fds: seq<FileDesc>, t: nat, off: nat)
    requires Inv(g, f0, files0, fds0) && fd < |fds0| && off == fds0[fd].offset && 0 <= fds0[fd].file < |files0|
             && 0 <= files0[fds0[fd].file].page && Inv(g, f, files, fds) && t < |files| && 0 <= files[t].page
    requires Wrote(g, f0, files0, fds0, fd, data, imap[], f, files, fds, t, 0)
    requires var o, need := files0[fds0[fd].file], |data| + off + HEADER_SIZE;
      if need <= g.At(o.maxPages) then f == f0 && files == files0 && t == fds0[fd].file
      else !files[t].modified && !HeaderAt(g, f, files[t].page).modified
    ensures var o, need := files0[fds0[fd].file], |data| + off + HEADER_SIZE;
      var rs, free := RecordSize(g, HeaderAt(g, f0, o.page)), OpenRecords(g, f0, o, need);
      && 1 <= rs == RecordSize(g, HeaderAt(g, f, files[t].page))
      && o.modified == HeaderAt(g, f0, o.page).modified
      && LogState(g, f0, o.page, free, f, files[t].page, Chunks(off, 0, rs), off)
      && (!HeaderAt(g, f0, o.page).modified ==> Used(g, f, files[t].page) <= Chunks(off, 0, rs))
      && (!files[t].modified ==> forall readsBack: bool, stack: seq<byte> ::
            Torn(g, readsBack, f0, o.page, off, |data|, free, stack, stack) == imap[])
  {
    hide HeaderAt, DiskOk, CacheOk, NamesOk, RecordSize, Wrote, Torn, LogState, Used, RegionLogged, Times, FileReady,
         FileOk, Records;
    var s := fds0[fd].file;
    WrittenIn(g, f0, files0, fds0, fd, data, imap[], f, files, fds, t, 0);
    RecordSizeOf(g, f0, files0, fds0, s);
    MergeSource(g, f0, files0, fds0, s);
    ReadyFacts(g, f0, files0[s]);
    LogStateBegins(g, f0, files0, fds0, s, |data| + off + HEADER_SIZE, f, files[t].page, off);
    if !files[t].modified {
      forall readsBack: bool, stack: seq<byte> {
        NoneTorn(g, readsBack, f0, files0[s].page, off, |data|, stack, stack);
      }
    }
  }

  /** The state of the log loop of cfs_write after n of the total bytes it can log: what was written so far,
      the log it is in, room for the rest, and region numbers that its index can tell. */
  ghost predicate Logging(g: Geometry, readsBack: bool, f0: Flash, files0: seq<FileObject>, fds0: seq<FileDesc>,
                          fd: nat, data: seq<byte>, total: nat, free: nat, first: seq<byte>, last: seq<byte>,
                          f: Flash, files: seq<FileObject>, fds: seq<FileDesc>, t: int, n: nat) {
    && fd < |fds| && fd < |fds0| && 0 <= t < |files| && 0 <= fds0[fd].file < |files0| && n <= total <= |data|
    && 0 <= files0[fds0[fd].file].page && 0 <= files[t].page && 0 <= fds0[fd].offset && CacheOk(g, f0, files0, fds0)
    && var q0, q, off := files0[fds0[fd].file].page, files[t].page, fds0[fd].offset;
      var rs := RecordSize(g, HeaderAt(g, f0, q0));
      && Wrote(g, f0, files0, fds0, fd, data, Torn(g, readsBack, f0, q0, off, n, free, first, last), f, files, fds,
               t, n)
      && |first| == |last| == rs && off + |data| + HEADER_SIZE <= g.At(files[t].maxPages)
      && (!HeaderAt(g, f0, q0).modified ==> Used(g, f, q) <= Chunks(off, n, rs))
      && (n < total ==>
            && LogState(g, f0, q0, free, f, q, Chunks(off, n, rs), off + n)
            && RegionsFit(g.At(files[t].maxPages) - HEADER_SIZE, rs)
            && (n == 0 || Rem(off + n, rs) == 0))
  }

  /** What a round of the loop relies on. */
  lemma LoggingFacts(g: Geometry, readsBack: bool, f0: Flash, files0: seq<FileObject>, fds0: seq<FileDesc>, fd: nat,
                     data: seq<byte>, total: nat, free: nat, first: seq<byte>, last: seq<byte>,
                     f: Flash, files: seq<FileObject>, fds: seq<FileDesc>, t: int, n: nat)
    requires Logging(g, readsBack, f0, files0, fds0, fd, data, total, free, first, last, f, files, fds, t, n)
             && Inv(g, f, files, fds)
    ensures n <= total <= |data| && 0 <= t < |files| && fd < |fds| && fds[fd].flags != 0 && fds[fd].file == t
            && 0 <= fds[fd].offset
    ensures fd < |fds0| && 0 <= fds0[fd].offset && 0 <= fds0[fd].file < |files0| && 0 <= files0[fds0[fd].file].page
    ensures Wrote(g, f0, files0, fds0, fd, data, Torn(g, readsBack, f0, files0[fds0[fd].file].page,
            fds0[fd].offset, n, free, first, last), f, files, fds, t, n)
    ensures files[t].references > 0 && 0 <= files[t].page
            && fds[fd].offset + |data| - n <= Capacity(g, f, files[t].page)
    ensures 1 <= RecordSize(g, HeaderAt(g, f, files[t].page))
            == RecordSize(g, HeaderAt(g, f0, files0[fds0[fd].file].page)) == |first| == |last|
    ensures Rem(fds[fd].offset, RecordSize(g, HeaderAt(g, f, files[t].page))) >= 0
    ensures fds0[fd].offset + |data| + HEADER_SIZE <= g.At(files[t].maxPages)
    ensures n < total ==> RegionsFit(Capacity(g, f, files[t].page), RecordSize(g, HeaderAt(g, f, files[t].page)))
    ensures !HeaderAt(g, f0, files0[fds0[fd].file].page).modified ==>
              Used(g, f, files[t].page) <= Chunks(fds0[fd].offset, n, |first|)
  {
    hide HeaderAt, DiskOk, CacheOk, NamesOk, Capacity, FileReady, FileOk, ConfigOk, Times, Wrote, LogState, Torn,
         RecordSize, Rem, Used, Chunks;
    ghost var torn := Torn(g, readsBack, f0, files0[fds0[fd].file].page, fds0[fd].offset, n, free, first, last);
    WroteRefs(g, f0, files0, fds0, fd, data, torn, f, files, fds, t, n);
    WrittenIn(g, f0, files0, fds0, fd, data, torn, f, files, fds, t, n);
    MergeSource(g, f, files, fds, t);
    CapacityIs(g, f, files[t].page);
    RecordSizePositive(g, f, files[t].page);
    RemBounds(fds[fd].offset, RecordSize(g, HeaderAt(g, f, files[t].page)));
  }

  /** A round with room in the log for the whole write. */
  lemma LoggingRoom(g: Geometry, readsBack: bool, f0: Flash, files0: seq<FileObject>, fds0: seq<FileDesc>, fd: nat,
                    data: seq<byte>, total: nat, free: nat, first: seq<byte>, last: seq<byte>,
                    f: Flash, files: seq<FileObject>, fds: seq<FileDesc>, t: int, n: nat)
    requires Logging(g, readsBack, f0, files0, fds0, fd, data, total, free, first, last, f, files, fds, t, n)
             && Inv(g, f, files, fds)
    requires n < total && 0 <= fds0[fd].offset && Chunks(fds0[fd].offset, total, |first|) <= free
    ensures 0 <= t < |files| && 0 <= files[t].page && files[t].modified
            && Used(g, f, files[t].page) < Records(g, HeaderAt(g, f, files[t].page))
  {
    hide HeaderAt, DiskOk, CacheOk, NamesOk, Capacity, FileOk, ConfigOk, Times, Wrote, LogState, Torn, RecordSize,
         Rem, Used, Chunks, RegionsFit;
    LoggingFacts(g, readsBack, f0, files0, fds0, fd, data, total, free, first, last, f, files, fds, t, n);
    RoomLeft(g, f0, files0[fds0[fd].file].page, free, f, files[t].page, fds0[fd].offset, n, total, |first|);
    MergeSource(g, f, files, fds, t);
    ReadyFacts(g, f, files[t]);
  }

  /** A failed round disturbs nothing. */
  lemma LoggingQuiet(g: Geometry, readsBack: bool, f0: Flash, files0: seq<FileObject>, fds0: seq<FileDesc>, fd: nat,
                     data: seq<byte>, total: nat, free: nat, first: seq<byte>, last: seq<byte>,
                     f: Flash, files: seq<FileObject>, fds: seq<FileDesc>, t: int, n: nat, f': Flash,
                     files': seq<FileObject>, fds': seq<FileDesc>)
    requires Logging(g, readsBack, f0, files0, fds0, fd, data, total, free, first, last, f, files, fds, t, n)
             && Inv(g, f, files, fds)
    requires Quiet(g, f, files, fds, f', files', fds')
    ensures Wrote(g, f0, files0, fds0, fd, data, Torn(g, readsBack, f0, files0[fds0[fd].file].page,
            fds0[fd].offset, n, free, first, last), f', files', fds', t, n)
  {
    hide HeaderAt, CacheOk, DiskOk, NamesOk, Times, Wrote, LogState, Torn, RecordSize, Rem, Quiet, Inv, Used, Chunks,
         RegionsFit;
    WroteQuiet(g, f0, files0, fds0, fd, data, Torn(g, readsBack, f0, files0[fds0[fd].file].page, fds0[fd].offset,
               n, free, first, last), f, files, fds, t, n, f', files', fds');
  }

  /** A merge in between changes nothing of that. */
  lemma LoggingMerged(g: Geometry, readsBack: bool, f0: Flash, files0: seq<FileObject>, fds0: seq<FileDesc>, fd: nat,
                      data: seq<byte>, total: nat, free: nat, first: seq<byte>, last: seq<byte>,
                      f: Flash, files: seq<FileObject>, fds: seq<FileDesc>, t: int, n: nat, f': Flash,
                      files': seq<FileObject>, fds': seq<FileDesc>, u: int)
    requires Logging(g, readsBack, f0, files0, fds0, fd, data, total, free, first, last, f, files, fds, t, n)
    requires n < total && 1 <= RecordSize(g, HeaderAt(g, f0, files0[fds0[fd].file].page))
    requires Used(g, f, files[t].page) == Records(g, HeaderAt(g, f, files[t].page))
    requires MergedInto(g, f, files, fds, t, f', files', fds', u) && 0 <= u < |files'|
             && files'[u].maxPages == files[t].maxPages
    ensures Logging(g, readsBack, f0, files0, fds0, fd, data, total, free, first, last, f', files', fds', u, n)
            && !files'[u].modified
  {
    hide HeaderAt, CacheOk, MergedInto, Times, Wrote, OldLog, NewLog, Torn, RecordSize, Rem, Used, Records, Chunks,
         RegionsFit;
    var q0, off := files0[fds0[fd].file].page, fds0[fd].offset;
    var torn := Torn(g, readsBack, f0, q0, off, n, free, first, last);
    var k := Chunks(off, n, RecordSize(g, HeaderAt(g, f0, q0)));
    WroteMerged(g, f0, files0, fds0, fd, data, torn, f, files, fds, t, n, f', files', fds', u);
    MergedUnlogged(g, f, files, fds, t, f', files', fds', u);
    WroteRefs(g, f0, files0, fds0, fd, data, torn, f', files', fds', u, n);
    FullLog(g, f0, q0, free, f, files[t].page, k, off + n);
    NoLogYet(g, f', files'[u].page, free, k, off + n);
    ChunksCount(off, n, RecordSize(g, HeaderAt(g, f0, q0)));
  }

  /** A record of m bytes takes it m bytes further. */
  lemma LoggingChunk(g: Geometry, readsBack: bool, f0: Flash, files0: seq<FileObject>, fds0: seq<FileDesc>, fd: nat,
                     data: seq<byte>, total: nat, free: nat, first: seq<byte>, last: seq<byte>,
                     f: Flash, files: seq<FileObject>, fds: seq<FileDesc>, t: int, n: nat,
                     f': Flash, files1: seq<FileObject>, files': seq<FileObject>, fds': seq<FileDesc>, m: nat,
                     stack: seq<byte>)
    requires Logging(g, readsBack, f0, files0, fds0, fd, data, total, free, first, last, f, files, fds, t, n)
             && Inv(g, f, files, fds) && Inv(g, f', files1, fds)
    requires n < total && 0 <= fds[fd].offset
    requires var rs := RecordSize(g, HeaderAt(g, f, files[t].page));
             m == Min(total - n, rs - Rem(fds[fd].offset, rs)) && n + m <= |data|
    requires ChunkLogged(g, f, files, fds, t, f', files1, fds[fd].offset, data[n..n + m], stack, readsBack)
    requires |files1| == |files| && files' == files1[t := files1[t].(end := Max(files1[t].end, fds[fd].offset + m))]
    requires fds' == fds[fd := fds[fd].(offset := fds[fd].offset + m)]
    ensures Inv(g, f', files', fds') && 1 <= m
            && Logging(g, readsBack, f0, files0, fds0, fd, data, total, free, if n == 0 then stack else first, stack,
                       f', files', fds', t, n + m)
    ensures RegionLogged(g, f', files'[t].page, fds0[fd].offset + n + m - 1) && files'[t].modified
  {
    hide HeaderAt, Path, Good, Actives, RefCount, DiskOk, CacheOk, NamesOk, Capacity, FileReady, FileOk, ConfigOk,
         Times, Wrote, LogState, Torn, RecordSize, Rem, ChunkLogged, Tears, RegionsAfter, Inv, ViewByte, WroteFile,
         RecordCounted, Used, Chunks, RegionLogged, RegionsFit;
    var q0, q, off := files0[fds0[fd].file].page, files[t].page, fds0[fd].offset;
    var rs := RecordSize(g, HeaderAt(g, f0, q0));
    var torn := Torn(g, readsBack, f0, q0, off, n, free, first, last);
    var torn' := Torn(g, readsBack, f0, q0, off, n + m, free, if n == 0 then stack else first, stack);
    LoggingFacts(g, readsBack, f0, files0, fds0, fd, data, total, free, first, last, f, files, fds, t, n);
    WroteRefs(g, f0, files0, fds0, fd, data, torn, f, files, fds, t, n);
    ChunkFacts(g, f, files, fds, t, f', files1, fds[fd].offset, data[n..n + m], stack, readsBack);
    RemBounds(off + n, rs);
    ChunkPlace(off, n, m, rs);
    Replaces(g, f0, q0, free, f, f', q, Chunks(off, n, rs), off + n);
    ChunkStep(g, readsBack, f0, q0, free, f, q, off, n, m, first, last, stack, Max(files[t].end, off + n + m));
    WroteChunk(g, f0, files0, fds0, fd, data, torn, torn', f, files, fds, t, n, f', files1, files', fds', m, stack,
               readsBack);
    LogGrows(g, f, f', q, off + n, m);
    if n + m < total {
      LogStateNext(g, f0, q0, free, f, f', q, Chunks(off, n, rs), off + n, m);
      ChunkEnds(off + n, m, rs);
    }
  }

  /** The record counted, and its region listed. */
  lemma LogGrows(g: Geometry, f: Flash, f': Flash, q: nat, off: nat, m: nat)
    requires RecordCounted(g, f, f', q) && RegionsAfter(g, f, f', q, off) && 1 <= m
    requires Quot(off + m - 1, RecordSize(g, HeaderAt(g, f, q))) == Quot(off, RecordSize(g, HeaderAt(g, f, q)))
    ensures Used(g, f', q) == Used(g, f, q) + 1 && RegionLogged(g, f', q, off + m - 1)
  {
    hide HeaderAt, RecordSize, RegionLogged, Quot, Used;
  }

  lemma RecordSizeOf(g: Geometry, f: Flash, files: seq<FileObject>, fds: seq<FileDesc>, t: nat)
    requires Inv(g, f, files, fds) && t < |files| && files[t].references > 0 && 0 <= files[t].page
    ensures 1 <= RecordSize(g, HeaderAt(g, f, files[t].page))
  {
    hide HeaderAt, DiskOk, CacheOk, NamesOk, FileOk, ConfigOk, FileReady;
    MergeSource(g, f, files, fds, t);
    RecordSizePositive(g, f, files[t].page);
  }

  /** Whether a write of n bytes, with so much room in the log, leaves every byte beside it alone, whatever the
      stack holds: records are read back, or the first record and the last either go to a new log, or make
      the first of their regions, or leave no other byte of them below the end. */
  predicate WritesExactly(g: Geometry, readsBack: bool, f: Flash, o: FileObject, off: nat, n: nat, free: nat)
    requires 0 <= o.page
  {
    var rs := RecordSize(g, HeaderAt(g, f, o.page));
    || readsBack || n == 0
    || ((free == 0 || !RegionLogged(g, f, o.page, off) || Rem(off, rs) == 0)
        && (free < Chunks(off, n, rs) || !RegionLogged(g, f, o.page, off + n - 1)
            || Rem(off + n, rs) == 0 || o.end <= off + n))
  }

  /** That is exactly when no stack contents spoil a byte. */
  lemma ExactlyUnspoiled(g: Geometry, readsBack: bool, f: Flash, o: FileObject, off: nat, n: nat, free: nat)
    requires 0 <= o.page && off <= o.end && 1 <= RecordSize(g, HeaderAt(g, f, o.page))
    ensures WritesExactly(g, readsBack, f, o, off, n, free)
       <==> forall first: seq<byte>, last: seq<byte> ::
              |first| == |last| == RecordSize(g, HeaderAt(g, f, o.page)) ==>
                NoneLost(g, f, o.page, o.end, off, n, Torn(g, readsBack, f, o.page, off, n, free, first, last))
  {
    hide HeaderAt, RecordSize, RegionLogged, Quot, Rem, ViewByte, Chunks;
    var rs, q := RecordSize(g, HeaderAt(g, f, o.page)), o.page;
    if WritesExactly(g, readsBack, f, o, off, n, free) {
      forall i: nat | i < o.end && !(off <= i < off + n) ensures !TornAt(g, readsBack, f, q, off, n, free, i) {
        if TornAt(g, readsBack, f, q, off, n, free, i) { TornIsEdge(g, f, o, off, n, free, i); }
      }
    } else {
      var i := if free > 0 && RegionLogged(g, f, q, off) && Rem(off, rs) != 0 then off - 1 else off + n;
      SpoiledByte(g, f, o, off, n, free, i);
      QuotBounds(i, rs);
      RemBounds(i, rs);
      var stack := Stuffed((ViewByte(g, f, q, i) + 1) % 256, rs);
      assert Torn(g, readsBack, f, q, off, n, free, stack, stack)[i] != ViewByte(g, f, q, i);
      assert !NoneLost(g, f, q, o.end, off, n, Torn(g, readsBack, f, q, off, n, free, stack, stack));
    }
  }

  /** The byte before the write, or the byte behind it, where the guard fails. */
  lemma SpoiledByte(g: Geometry, f: Flash, o: FileObject, off: nat, n: nat, free: nat, i: int)
    requires 0 <= o.page && off <= o.end && 1 <= RecordSize(g, HeaderAt(g, f, o.page))
    requires !WritesExactly(g, false, f, o, off, n, free)
    requires i == if free > 0 && RegionLogged(g, f, o.page, off) && Rem(off, RecordSize(g, HeaderAt(g, f, o.page))) != 0
                  then off - 1 else off + n
    ensures 0 <= i < o.end && !(off <= i < off + n) && TornAt(g, false, f, o.page, off, n, free, i)
  {
    hide HeaderAt, RecordSize, RegionLogged, Quot, Rem, Chunks;
    var rs, q := RecordSize(g, HeaderAt(g, f, o.page)), o.page;
    if i < off {
      QuotLess(off, rs);
      SameRegion(g, f, q, off, off - 1);
    } else {
      RemBounds(off + n, rs);
      QuotLess(off + n, rs);
      SameRegion(g, f, q, off + n - 1, off + n);
    }
  }

  /** A byte that is not at the start of its region shares the region with the byte before it. */
  lemma QuotLess(i: nat, rs: nat)
    requires 1 <= rs && Rem(i, rs) != 0
    ensures i >= 1 && Quot(i - 1, rs) == Quot(i, rs)
  {
    hide Times;
    QuotBounds(i, rs);
    RegionOf(Quot(i, rs), rs, Rem(i, rs) - 1);
  }

  lemma TornIsEdge(g: Geometry, f: Flash, o: FileObject, off: nat, n: nat, free: nat, i: nat)
    requires 0 <= o.page && 1 <= RecordSize(g, HeaderAt(g, f, o.page)) && 1 <= n && i < o.end && !(off <= i < off + n)
    requires TornAt(g, false, f, o.page, off, n, free, i)
    ensures !WritesExactly(g, false, f, o, off, n, free)
  {
    hide HeaderAt, RecordSize, RegionLogged, Quot, Rem;
    var rs, q := RecordSize(g, HeaderAt(g, f, o.page)), o.page;
    QuotOrder(off, off + n - 1, rs);
    QuotOrder(off + n - 1, off + n, rs);
    if i < off {
      QuotOrder(i, off, rs);
      SameRegion(g, f, q, i, off);
      if Rem(off, rs) == 0 { RegionStarts(i, off, rs); }
    } else {
      QuotOrder(off + n, i, rs);
      SameRegion(g, f, q, i, off + n - 1);
      if Rem(off + n, rs) == 0 { RegionStarts(off + n - 1, off + n, rs); }
    }
  }

  /** A completed write that met the guard leaves the old content with the written bytes laid over it; without
      the guard that is so only if the stack happened to hold the old bytes. */
  lemma WroteExactly(g: Geometry, readsBack: bool, f0: Flash, files0: seq<FileObject>, fds0: seq<FileDesc>, fd: nat,
                     data: seq<byte>, free: nat, first: seq<byte>, last: seq<byte>,
                     f: Flash, files: seq<FileObject>, fds: seq<FileDesc>, t: nat, n: nat)
    requires Inv(g, f0, files0, fds0) && fd < |fds0| && 0 <= fds0[fd].file < |files0| && 0 <= fds0[fd].offset
             && 0 <= files0[fds0[fd].file].page && t < |files|
    requires |first| == |last| == RecordSize(g, HeaderAt(g, f0, files0[fds0[fd].file].page))
    requires Wrote(g, f0, files0, fds0, fd, data, Torn(g, readsBack, f0, files0[fds0[fd].file].page,
             fds0[fd].offset, n, free, first, last), f, files, fds, t, n)
    ensures var o, o', off := files0[fds0[fd].file], files[t], fds0[fd].offset;
      var torn := Torn(g, readsBack, f0, o.page, off, n, free, first, last);
      && off <= o.end && 0 <= o'.page && o'.end == Max(o.end, off + n) && n <= |data|
      && (Content(g, f, o'.page, o'.end) == Overlay(Content(g, f0, o.page, o.end), off, data[..n])
          <==> NoneLost(g, f0, o.page, o.end, off, n, torn))
      && (WritesExactly(g, readsBack, f0, o, off, n, free) ==> NoneLost(g, f0, o.page, o.end, off, n, torn))
  {
    hide HeaderAt, Own, Kept, Actives, ViewByte, RecordSize, Moved, DiskOk, CacheOk, NamesOk, Torn, Content, Overlay,
         WritesExactly, FileReady, FileOk, ConfigOk, NoneLost;
    var s, off := fds0[fd].file, fds0[fd].offset;
    var torn := Torn(g, readsBack, f0, files0[s].page, off, n, free, first, last);
    WrittenIn(g, f0, files0, fds0, fd, data, torn, f, files, fds, t, n);
    RecordSizeOf(g, f0, files0, fds0, s);
    ExactlyUnspoiled(g, readsBack, f0, files0[s], off, n, free);
    WroteContent(g, f0, files0[s], off, data, torn, f, files[t], n);
  }

  lemma WrittenIn(g: Geometry, f0: Flash, files0: seq<FileObject>, fds0: seq<FileDesc>, fd: int, data: seq<byte>,
                  torn: imap<nat, byte>,
                  f: Flash, files: seq<FileObject>, fds: seq<FileDesc>, t: int, n: nat)
    requires Wrote(g, f0, files0, fds0, fd, data, torn, f, files, fds, t, n)
    ensures 0 <= fd < |fds0| && 0 <= fds0[fd].file < |files0| && 0 <= fds0[fd].offset && 0 <= t < |files|
    ensures 0 <= files0[fds0[fd].file].page && 0 <= files[t].page
    ensures RecordSize(g, HeaderAt(g, f, files[t].page)) == RecordSize(g, HeaderAt(g, f0, files0[fds0[fd].file].page))
    ensures Records(g, HeaderAt(g, f, files[t].page)) == Records(g, HeaderAt(g, f0, files0[fds0[fd].file].page))
    ensures var o, o', off := files0[fds0[fd].file], files[t], fds0[fd].offset;
      WroteFile(g, f0, o, off, data, torn, f, o', n) && o.references > 0 && off <= o.end && 0 <= o'.page
                && o'.end == Max(o.end, off + n) && n <= |data|
  {
    hide HeaderAt, Own, Kept, Actives, ViewByte, RecordSize, Moved;
  }

  lemma WriteFacts(g: Geometry, f: Flash, files: seq<FileObject>, fds: seq<FileDesc>, fd: nat)
    requires Inv(g, f, files, fds) && fd < |fds| && fds[fd].flags != 0 && FdReady(g, f, files, fds[fd])
    ensures 0 <= fds[fd].file < |files| && 0 <= files[fds[fd].file].page && 0 <= fds[fd].offset
  {
    hide HeaderAt, DiskOk, SlotOk;
  }

  // ----- files too long for 16-bit regions -----

  /** A logged file of any length, and record k the next free one of its log. */
  ghost predicate Loggable(g: Geometry, f: Flash, q: nat, k: nat) {
    && LayoutOk(g, f) && q in Files(g, f)
    && var h := HeaderAt(g, f, q);
      && h.modified && 0 <= h.logPage && h.logPage in Files(g, f) && h.logPage != q && 1 <= RecordSize(g, h)
      && LogFits(g, f, h.logPage, Records(g, h), RecordSize(g, h))
      && TableOk(g, f, h.logPage, Records(g, h), RecordSize(g, h))
      && k == FirstFree(g, f, h.logPage, 0, Records(g, h)) < Records(g, h)
  }

  lemma AppendedKeeps(g: Geometry, f: Flash, f': Flash, q: nat, k: nat, region: int, buf: seq<byte>)
    requires Loggable(g, f, q, k) && Appended(g, f, f', q, k, region, buf)
    ensures Wf(g, f) && q + MaxPages(g, f, q) <= g.Pages() && Kept(g, f, f', q)
            && HeaderAt(g, f', q) == HeaderAt(g, f, q)
  {
    hide HeaderAt, Path, Good, Actives, TableOk, Index, Kept, Updated;
    var h := HeaderAt(g, f, q);
    RecordWithin(g, h.logPage, Records(g, h), RecordSize(g, h), k);
    ActiveFacts(g, f, 0, g.Pages(), q);
    assert DataChanged(g, f, f', h.logPage);
    DataChangedIsUpdate(g, f, f', h.logPage);
  }

  /** What a record of the region of byte off is to do to the bytes the code finds. */
  ghost predicate LogsTrue(g: Geometry, f: Flash, q: nat, k: nat, f': Flash, off: nat, buf: seq<byte>) {
    var rs := RecordSize(g, HeaderAt(g, f, q));
    off < Capacity(g, f, q) && Appended(g, f, f', q, k, Entry(off, rs) - 1, buf) ==>
      forall i: nat :: i < Capacity(g, f, q) ==>
        FoundByte(g, f', q, i) == if Quot(i, rs) == Quot(off, rs) then ByteAt(buf, Rem(i, rs))
                                  else FoundByte(g, f, q, i)
  }

  /** Logging works as it should, wherever the record and whatever it holds, exactly for files whose region
      numbers stay below 2^16 - 1. */
  lemma LogsExactly(g: Geometry, f: Flash, q: nat, k: nat)
    requires Loggable(g, f, q, k)
    ensures RegionsFit(Capacity(g, f, q), RecordSize(g, HeaderAt(g, f, q)))
       <==> forall f': Flash, off: nat, buf: seq<byte> :: LogsTrue(g, f, q, k, f', off, buf)
  {
    hide HeaderAt, RecordSize, Capacity, Quot, Rem, Times, Entry, FoundByte, Appended, RegionsFit, Loggable;
    var rs := RecordSize(g, HeaderAt(g, f, q));
    if RegionsFit(Capacity(g, f, q), rs) {
      forall f': Flash, off: nat, buf: seq<byte> ensures LogsTrue(g, f, q, k, f', off, buf) {
        FittingLogs(g, f, q, k, f', off, buf);
      }
    } else {
      var f', buf := LogLost(g, f, q, k);
      assert !LogsTrue(g, f, q, k, f', Times(0xFFFF, rs), buf);
    }
  }

  lemma FittingLogs(g: Geometry, f: Flash, q: nat, k: nat, f': Flash, off: nat, buf: seq<byte>)
    requires Loggable(g, f, q, k) && RegionsFit(Capacity(g, f, q), RecordSize(g, HeaderAt(g, f, q)))
    ensures LogsTrue(g, f, q, k, f', off, buf)
  {
    hide HeaderAt, RecordSize, Quot, Rem, Times, Entry, FoundByte, Appended, RegionsFit, Recognised, Kept, LayoutOk,
         Actives, TableOk, Wf, FirstFree;
    var rs, end := RecordSize(g, HeaderAt(g, f, q)), Capacity(g, f, q);
    if off < end && Appended(g, f, f', q, k, Entry(off, rs) - 1, buf) {
      AppendedKeeps(g, f, f', q, k, Entry(off, rs) - 1, buf);
      RegionsExact(end, rs);
      forall i: nat | i < end
        ensures FoundByte(g, f', q, i) == if Quot(i, rs) == Quot(off, rs) then ByteAt(buf, Rem(i, rs))
                                          else FoundByte(g, f, q, i)
      {
        FoundAfterAppend(g, f, f', q, k, off, buf, i);
        assert Recognised(off, i, rs) <==> Quot(off, rs) == Quot(i, rs);
      }
    }
  }

  /** A record of region 2^16 - 1 that is written and never found. */
  lemma LogLost(g: Geometry, f: Flash, q: nat, k: nat) returns (f': Flash, buf: seq<byte>)
    requires Loggable(g, f, q, k) && !RegionsFit(Capacity(g, f, q), RecordSize(g, HeaderAt(g, f, q)))
    ensures var rs := RecordSize(g, HeaderAt(g, f, q));
      var off := Times(0xFFFF, rs);
      && off < Capacity(g, f, q) && Appended(g, f, f', q, k, Entry(off, rs) - 1, buf)
      && FoundByte(g, f', q, off) != ByteAt(buf, Rem(off, rs))
  {
    hide HeaderAt, RecordSize, Quot, Times, Capacity, FoundByte, Path, Good, Actives, FirstFree, Kept, TableOk;
    var h := HeaderAt(g, f, q);
    var rs, n, log := RecordSize(g, h), Records(g, h), h.logPage;
    var off := Times(0xFFFF, rs);
    RegionOf(0xFFFF, rs, 0);
    buf := Stuffed((FoundByte(g, f, q, off) + 1) % 256, rs);
    f' := RecordProgrammed(g, f, q, k, buf);
    AppendedKeeps(g, f, f', q, k, -1, buf);
    LostRecord(g, f, f', q, k, off, buf);
  }

  /** The record without an index entry of its own. */
  lemma RecordProgrammed(g: Geometry, f: Flash, q: nat, k: nat, buf: seq<byte>) returns (f': Flash)
    requires Loggable(g, f, q, k) && |buf| == RecordSize(g, HeaderAt(g, f, q))
    ensures Appended(g, f, f', q, k, -1, buf)
  {
    hide HeaderAt, Path, Good, Actives, Times, FirstFree, Records, RecordSize;
    var h := HeaderAt(g, f, q);
    RecordWithin(g, h.logPage, Records(g, h), RecordSize(g, h), k);
    assert Index(g, f, h.logPage, k) == 0;
    ActiveFacts(g, f, 0, g.Pages(), h.logPage);
    AtMono(g, h.logPage + MaxPages(g, f, h.logPage), g.Pages());
    f' := Written(f, RecordStart(g, h.logPage, Records(g, h), RecordSize(g, h), k), buf);
  }

  // ----- cfs_coffee_configure_log and cfs_coffee_format -----

  /** The log settings of a file were stored; every extent but its header bytes is as before. */
  ghost predicate Configured(g: Geometry, f: Flash, f': Flash, page: nat, name: seq<byte>, records: nat,
                             recordSize: nat) {
    && page in Files(g, f) && Files(g, f') == Files(g, f) && Matches(HeaderAt(g, f, page), name)
    && HeaderAt(g, f', page) == HeaderAt(g, f, page).(logRecords := records, logRecordSize := recordSize)
    && (forall p :: p in Files(g, f) && p != page ==> Kept(g, f, f', p) && HeaderAt(g, f', p) == HeaderAt(g, f, p))
    && (forall i: nat :: ViewByte(g, f', page, i) == ViewByte(g, f, page, i))
  }

  /** Settings the code can handle: a table of one batch, where a stored 0 stands for the default size. */
  predicate SettingsOk(g: Geometry, records: nat, recordSize: nat) {
    && 1 <= recordSize <= g.pageSize
    && 1 <= (if records == 0 then Low16(Quot(g.logSize, recordSize)) else records) <= g.logTableLimit
  }

  /** Whatever the settings, they were stored in the header of an unlogged file of this name, and nowhere else. */
  ghost predicate SettingsStored(g: Geometry, f: Flash, f': Flash, page: nat, name: seq<byte>, records: nat,
                                 recordSize: nat) {
    && page in Files(g, f) && Matches(HeaderAt(g, f, page), name) && !HeaderAt(g, f, page).modified && Wf(g, f)
    && page < g.Pages()
    && var h := HeaderAt(g, f, page).(logRecords := records, logRecordSize := recordSize);
       h.Encodable() && f' == WithHeader(g, f, page, h)
  }

  lemma SettingsWritten(g: Geometry, f: Flash, files: seq<FileObject>, fds: seq<FileDesc>, slot: nat,
                        name: seq<byte>, n: nat, rs: nat, h: Header)
    requires Inv(g, f, files, fds) && slot < |files| && files[slot].maxPages > 0 && 0 <= files[slot].page
             && Matches(HeaderAt(g, f, files[slot].page), name)
    requires 1 <= rs <= g.pageSize && n < 0x1_0000 && !HeaderAt(g, f, files[slot].page).modified
    requires h == HeaderAt(g, f, files[slot].page).(logRecords := n, logRecordSize := rs, valid := true)
    ensures h.Encodable() && g.At(files[slot].page) + HEADER_SIZE <= |f|
    ensures var f' := Written(f, g.At(files[slot].page), Encode(h));
      && SettingsStored(g, f, f', files[slot].page, name, n, rs)
      && (Inv(g, f', files, fds) <==> SettingsOk(g, n, rs))
      && (SettingsOk(g, n, rs) ==> Configured(g, f, f', files[slot].page, name, n, rs))
  {
    hide HeaderAt, Path, Good, Actives, Kept, ViewByte, RefCount, FirstFree, DiskOk, CStr, FdOk, Clash, Encode,
         Capacity, Times, NamesOk, LogOk, HeaderStored;
    var q := files[slot].page;
    assert SlotOk(g, f, files[slot]);
    FileIsOk(g, f, q);
    DiskLayout(g, f);
    RoomBounds(g, f, q);
    PageFits(g);
    AtMono(g, q, g.Pages());
    if SettingsOk(g, n, rs) {
      CacheConfigured(g, f, files, fds, q, h);
    } else {
      var f' := WithHeader(g, f, q, h);
      SettingsUnsound(g, f, q, n, rs, h);
      assert !DiskOk(g, f');
    }
  }

  lemma SettingsUnsound(g: Geometry, f: Flash, q: nat, n: nat, rs: nat, h: Header)
    requires DiskOk(g, f) && q in Files(g, f) && h.Encodable() && 1 <= rs && !SettingsOk(g, n, rs)
    requires h == HeaderAt(g, f, q).(logRecords := n, logRecordSize := rs)
    ensures q < g.Pages() && Wf(g, f) && !DiskOk(g, WithHeader(g, f, q, h))
  {
    hide HeaderAt, Path, Good, Actives, Kept, Encode, Times, LogOk, HeaderStored, Capacity, Updated;
    DiskLayout(g, f);
    RoomBounds(g, f, q);
    ActiveFacts(g, f, 0, g.Pages(), q);
    HeaderUpdate(g, f, q, h);
    var f' := WithHeader(g, f, q, h);
    ExtentUpdate(g, f, f', q);
    assert q in Files(g, f') && !ConfigOk(g, h) && HeaderAt(g, f', q) == h;
    assert !FileOk(g, f', q);
  }

  /** First-time settings set bits only. */
  lemma SettingsOnlySet(g: Geometry, f: Flash, q: nat, n: nat, rs: nat, h: Header)
    requires DiskOk(g, f) && q in Files(g, f) && HeaderAt(g, f, q).logRecordSize == 0
    requires h == HeaderAt(g, f, q).(logRecords := n, logRecordSize := rs)
    ensures g.At(q) + HEADER_SIZE <= |f| && OnlySets(f[g.At(q)..g.At(q) + HEADER_SIZE], Encode(h))
  {
    hide HeaderAt, Path, Good, Actives, Encode, Times, LogOk, HeaderStored, Capacity, OnlySets;
    DiskLayout(g, f);
    RoomBounds(g, f, q);
    FileIsOk(g, f, q);
    HeaderUpdateOnlySets(g, f, q, h);
  }

  /** No file of this name has log settings yet. */
  ghost predicate Unset(g: Geometry, f: Flash, name: seq<byte>) {
    forall p :: p in Files(g, f) && Matches(HeaderAt(g, f, p), name) ==> HeaderAt(g, f, p).logRecordSize == 0
  }

  /** So configuring one for the first time clears no bit of the device. */
  lemma FirstSettings(g: Geometry, f: Flash, files: seq<FileObject>, fds: seq<FileDesc>, slot: nat, name: seq<byte>,
                      n: nat, rs: nat, h: Header)
    requires Inv(g, f, files, fds) && slot < |files| && files[slot].maxPages > 0 && 0 <= files[slot].page
             && Matches(HeaderAt(g, f, files[slot].page), name) && Unset(g, f, name)
    requires h == HeaderAt(g, f, files[slot].page).(logRecords := n, logRecordSize := rs, valid := true)
    ensures g.At(files[slot].page) + HEADER_SIZE <= |f|
    ensures OnlySets(f, Written(f, g.At(files[slot].page), Encode(h)))
  {
    hide HeaderAt, DiskOk, CacheOk, NamesOk, Encode, Raises;
    var q := files[slot].page;
    FoundPage(g, f, files, fds, slot);
    FileIsOk(g, f, q);
    SettingsOnlySet(g, f, q, n, rs, h);
    SameBitsStay(f);
  }

  lemma SameBitsStay(f: Flash)
    ensures forall i :: 0 <= i < |f| ==> Raises(f[i], f[i])
  {}

  /** Settings stored a second time may have to clear bits, which the device cannot do. */
  lemma ReconfigureClears(h: Header)
    requires |h.name| == NAME_LENGTH && h.logRecordSize == 2
    ensures !OnlySets(Encode(h), Encode(h.(logRecordSize := 1)))
  {
    hide EncodeRest;
    assert Encode(h)[6] == Encode16(2)[0] == 2 && Encode(h.(logRecordSize := 1))[6] == Encode16(1)[0] == 1;
    assert !Raises(2, 1);
  }

  lemma SettingsStops(g: Geometry, f: Flash, files: seq<FileObject>, fds: seq<FileDesc>, slot: nat, h: Header,
                      x: nat, wait: bool, strayed: bool)
    requires Inv(g, f, files, fds) && slot < |files| && files[slot].maxPages > 0 && 0 <= files[slot].page
             && h.Encodable() && Placed(g, f, x, wait, strayed)
    requires h == HeaderAt(g, f, files[slot].page).(logRecords := h.logRecords, logRecordSize := h.logRecordSize,
             valid := true)
    ensures g.At(files[slot].page) + HEADER_SIZE <= |f|
            && Placed(g, Written(f, g.At(files[slot].page), Encode(h)), x, wait, strayed)
  {
    hide HeaderAt, Path, Good, Actives, DiskOk, CacheOk, NamesOk, Encode;
    FoundPage(g, f, files, fds, slot);
    RoomBounds(g, f, files[slot].page);
    AtMono(g, files[slot].page, g.Pages());
    RewriteStops(g, f, files[slot].page, h, x, wait, strayed);
  }

  lemma PageFits(g: Geometry)
    requires g.Ok()
    ensures g.pageSize < 0x1_0000
  {}

  /** An erased device with empty tables satisfies the invariant. */
  lemma FormattedInv(g: Geometry, f: Flash, files: seq<FileObject>, fds: seq<FileDesc>)
    requires g.Ok() && |f| == g.Size() && ZeroRange(f, 0, g.Size()) && |files| == g.maxOpenFiles && |fds| == g.fdSetSize
    requires forall i :: 0 <= i < |files| ==> files[i].maxPages == 0 && files[i].references == 0
    requires forall k :: 0 <= k < |fds| ==> fds[k].flags == 0
    ensures Inv(g, f, files, fds) && Files(g, f) == {}
  {
    hide HeaderAt, RefCount, Actives, Path, Good;
    ErasedWalk(g, f, 0);
    SectorsStart(g);
    ErasedHasNoActives(g, f, 0, g.Pages());
    forall i | 0 <= i < |files| ensures RefCount(fds, i) == 0 {
      RefCountNone(fds, i);
    }
  }

  lemma SectorsStart(g: Geometry)
    ensures SectorStart(g, 0) == 0 && SectorStart(g, g.sectors) == g.Pages() && g.At(0) == 0
  {}

  lemma {:induction false} ErasedWalk(g: Geometry, f: Flash, s: nat)
    requires g.Ok() && |f| == g.Size() && ZeroRange(f, 0, g.Size()) && s <= g.sectors
    ensures SectorStart(g, s) <= g.Pages() && Path(g, f, SectorStart(g, s), g.Pages())
    decreases g.sectors - s
  {
    hide HeaderAt;
    TimesMono(s, g.sectors, g.sectorPages);
    if s < g.sectors {
      SectorSpan(g, s);
      NextSectorOf(g, s, SectorStart(g, s));
      AtMono(g, SectorStart(g, s), SectorStart(g, s + 1));
      AtMono(g, SectorStart(g, s + 1), g.Pages());
      HeaderErased(g, f, SectorStart(g, s));
      ErasedWalk(g, f, s + 1);
    }
  }

  // ----- reading back -----

  /** After a write the descriptor can be put back to where the write began. */
  lemma WroteStays(g: Geometry, f0: Flash, files0: seq<FileObject>, fds0: seq<FileDesc>, fd: int, data: seq<byte>,
                   torn: imap<nat, byte>,
                   f: Flash, files: seq<FileObject>, fds: seq<FileDesc>, t: int, n: nat)
    requires Wrote(g, f0, files0, fds0, fd, data, torn, f, files, fds, t, n) && Inv(g, f, files, fds)
    ensures 0 <= fd < |fds| == |fds0| && fds[fd] == fds0[fd].(file := t, offset := fds0[fd].offset + n)
    ensures 0 <= t < |files| && 0 <= fds0[fd].offset <= fds0[fd].offset + n <= files[t].end
            <= Capacity(g, f, files[t].page) <= g.At(files[t].maxPages)
  {
    hide HeaderAt, Path, Good, Actives, RefCount, DiskOk, CacheOk, NamesOk, Capacity, ViewByte, Moved, RecordSize,
         FileReady, FileOk, ConfigOk;
    WroteSlots(g, f0, files0, fds0, fd, data, torn, f, files, fds, t, n);
    MergeSource(g, f, files, fds, t);
    CapacityIs(g, f, files[t].page);
  }

  lemma ReadBack(g: Geometry, f0: Flash, files0: seq<FileObject>, fds0: seq<FileDesc>, fd: int, data: seq<byte>,
                 torn: imap<nat, byte>,
                 f: Flash, files: seq<FileObject>, fds: seq<FileDesc>, t: int, n: nat)
    requires Wrote(g, f0, files0, fds0, fd, data, torn, f, files, fds, t, n)
    ensures 0 <= fd < |fds0| && 0 <= fds0[fd].offset && 0 <= t < |files| && 0 <= files[t].page && n <= |data|
    ensures View(g, f, files[t].page, fds0[fd].offset, n) == data[..n]
  {
    hide HeaderAt, Actives, ViewByte, Moved, RecordSize;
    var v := View(g, f, files[t].page, fds0[fd].offset, n);
    forall j | 0 <= j < n ensures v[j] == data[j] {
      assert v[j] == ViewByte(g, f, files[t].page, fds0[fd].offset + j);
    }
  }

  lemma AllOpenSame(fds: seq<FileDesc>, fds': seq<FileDesc>)
    requires |fds'| == |fds| && forall k :: 0 <= k < |fds| ==> fds'[k].flags == fds[k].flags
    ensures AllOpen(fds) ==> AllOpen(fds')
  {}

  /** Moving an open descriptor within its file keeps the invariant. */
  lemma ReadKeepsInv(g: Geometry, f: Flash, files: seq<FileObject>, fds: seq<FileDesc>, fd: nat, offset: int)
    requires fd < |fds| && fds[fd].flags != 0 && 0 <= fds[fd].file < |files| && 0 <= offset <= files[fds[fd].file].end
    ensures Inv(g, f, files, fds) ==> Inv(g, f, files, fds[fd := fds[fd].(offset := offset)])
  {
    hide HeaderAt, DiskOk, CacheOk, NamesOk;
    if Inv(g, f, files, fds) {
      CacheMoved(g, f, files, fds, fd, offset);
    }
  }

  /** The slot of an open descriptor: counted, and of the capacity its object tells. */
  lemma SeekRoom(g: Geometry, f: Flash, files: seq<FileObject>, fds: seq<FileDesc>, fd: nat)
    requires Inv(g, f, files, fds) && fd < |fds| && fds[fd].flags != 0
    ensures 0 <= fds[fd].file < |files| && files[fds[fd].file].references > 0 && 0 <= files[fds[fd].file].page
    ensures Capacity(g, f, files[fds[fd].file].page) + HEADER_SIZE == g.At(files[fds[fd].file].maxPages)
  {
    hide HeaderAt, Path, Good, Actives, RefCount, NamesOk, DiskOk, Capacity, FirstFree, ZeroRange;
    var s := fds[fd].file;
    assert FdOk(g, f, files, fds[fd]);
    RefersOpen(fds, fd);
    RefCountMember(fds, fd, s);
    assert SlotOk(g, f, files[s]);
    CapacityIs(g, f, files[s].page);
  }
}
