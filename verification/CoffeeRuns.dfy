/** Runs of interface calls: which calls may change what an open descriptor sees, and the proof pieces
    that all other calls leave it alone. */
module CoffeeRuns {
  import opened CoffeeFlash
  import opened CoffeeLayout
  import opened CoffeeLog
  import opened CoffeeCache
  import opened CoffeeUpdate
  import opened CoffeeWrite

  /** The calls of the interface. */
  datatype Op =
    | Open(name: seq<byte>, flags: byte)
    | Close(fd: int)
    | Read(fd: int, size: nat)
    | Write(fd: int, data: seq<byte>)
    | Seek(fd: int, offset: int, whence: int)
    | Remove(name: seq<byte>)
    | SetAside(name: seq<byte>, size: nat)
    | Configure(name: seq<byte>, logSize: nat, logRecordSize: nat)
    | Format
    | Collect
  {
    predicate Allowed() {
      Open? || SetAside? ==> NameFits(name)
    }
  }

  /** The state between two calls. */
  datatype Snapshot = Snapshot(flash: Flash, files: seq<FileObject>, fds: seq<FileDesc>)

  predicate OpenAt(s: Snapshot, k: nat) {
    && k < |s.fds| && s.fds[k].flags != 0 && 0 <= s.fds[k].file < |s.files|
    && 0 <= s.files[s.fds[k].file].page && 0 <= s.files[s.fds[k].file].end
  }

  function PageAt(s: Snapshot, k: nat): nat
    requires OpenAt(s, k)
  {
    s.files[s.fds[k].file].page
  }

  function EndAt(s: Snapshot, k: nat): nat
    requires OpenAt(s, k)
  {
    s.files[s.fds[k].file].end
  }

  /** Whether fd is open on the same file as descriptor k. */
  predicate SameFile(s: Snapshot, fd: int, k: nat)
    requires k < |s.fds|
  {
    0 <= fd < |s.fds| && s.fds[fd].flags != 0 && s.fds[fd].file == s.fds[k].file
  }

  /** The calls that may change what descriptor k sees: those on the descriptor itself, writes and seeks
      through any descriptor of its file, the removal of the file, and formatting. */
  predicate Touches(g: Geometry, op: Op, s: Snapshot, k: nat)
    requires OpenAt(s, k)
  {
    match op
    case Close(fd) => fd == k
    case Read(fd, _) => fd == k
    case Write(fd, _) => SameFile(s, fd, k)
    case Seek(fd, _, _) => SameFile(s, fd, k)
    case Remove(name) => CStr(name) == CStr(HeaderAt(g, s.flash, PageAt(s, k)).name)
    case Format => true
    case _ => false
  }

  /** The calls that the code does not survive: opening without any mode leaks a reference; transfers of 65536
      bytes or more through a log never end; a write into a log whose region numbers exceed 16 bits loses data;
      a seek behind the capacity, and log settings for tables of several batches, break the invariant. */
  predicate Derails(g: Geometry, op: Op, s: Snapshot) {
    match op
    case Open(_, flags) => flags == 0
    case Read(fd, size) =>
      CanUse(s.fds, fd, CFS_READ) && 0 <= s.fds[fd].file < |s.files|
      && var o := s.files[s.fds[fd].file]; o.modified && Min(size, o.end - s.fds[fd].offset) >= 0x1_0000
    case Write(fd, data) =>
      CanUse(s.fds, fd, CFS_WRITE) && 0 <= s.fds[fd].file < |s.files| && 0 <= s.fds[fd].offset
      && var o, off := s.files[s.fds[fd].file], s.fds[fd].offset;
         (|data| >= 0x1_0000 && LoggedPath(g, o, off, |data|)) || (|data| > 0 && Oversized(g, s.flash, o, off, |data|))
    case Seek(fd, offset, whence) =>
      0 <= fd < |s.fds| && s.fds[fd].flags != 0 && 0 <= whence <= 2 && 0 <= s.fds[fd].file < |s.files|
      && var o := s.files[s.fds[fd].file];
         var target := SeekTarget(s.fds[fd], o, offset, whence);
         0 <= target <= g.At(o.maxPages) < target + HEADER_SIZE
    case Configure(_, logSize, logRecordSize) =>
      1 <= logRecordSize <= g.pageSize && logRecordSize <= logSize
          && !SettingsOk(g, Low16(Quot(logSize, logRecordSize)), logRecordSize)
    case _ => false
  }

  /** Descriptor k is as it was, on the same file at the same place, with the same end and content. */
  ghost predicate Stands(g: Geometry, a: Snapshot, b: Snapshot, k: nat) {
    && OpenAt(a, k) && OpenAt(b, k) && b.fds[k] == a.fds[k] && PageAt(b, k) == PageAt(a, k)
    && EndAt(b, k) == EndAt(a, k)
    && Content(g, b.flash, PageAt(a, k), EndAt(a, k)) == Content(g, a.flash, PageAt(a, k), EndAt(a, k))
    && CStr(HeaderAt(g, b.flash, PageAt(a, k)).name) == CStr(HeaderAt(g, a.flash, PageAt(a, k)).name)
  }

  /** What one call guarantees to every descriptor it does not touch. */
  ghost predicate Preserves(g: Geometry, op: Op, a: Snapshot, b: Snapshot) {
    forall k: nat :: OpenAt(a, k) && !Touches(g, op, a, k) ==> Stands(g, a, b, k)
  }

  ghost predicate Sound(g: Geometry, s: Snapshot) { Inv(g, s.flash, s.files, s.fds) }

  /** What is known about the file of an open descriptor. */
  lemma OpenFacts(g: Geometry, a: Snapshot, k: nat)
    requires Sound(g, a) && OpenAt(a, k)
    ensures var o := a.files[a.fds[k].file];
      && o.references > 0 && o.page in Files(g, a.flash) && FileOk(g, a.flash, o.page) && LayoutOk(g, a.flash)
      && !HeaderAt(g, a.flash, o.page).log && o.end <= Capacity(g, a.flash, o.page)
  {
    hide HeaderAt, Path, Good, Actives, RefCount, NamesOk, DiskOk, FirstFree, ZeroRange, FileOk, Capacity;
    FdIsReady(g, a.flash, a.files, a.fds, k);
    SeekRoom(g, a.flash, a.files, a.fds, k);
    ReadyFacts(g, a.flash, a.files[a.fds[k].file]);
  }

  /** A descriptor stands if it, its slot and the extents of its file were left alone. */
  lemma StandsKept(g: Geometry, a: Snapshot, b: Snapshot, k: nat)
    requires Sound(g, a) && OpenAt(a, k) && OpenAt(b, k) && b.fds[k] == a.fds[k]
    requires PageAt(b, k) == PageAt(a, k) && EndAt(b, k) == EndAt(a, k) && FileKept(g, a.flash, b.flash, PageAt(a, k))
    ensures Stands(g, a, b, k)
  {
    hide HeaderAt, FileOk, Capacity, ViewByte, Kept, Actives, CStr, Content, Sound, Path, Good;
    OpenFacts(g, a, k);
    var p, end := PageAt(a, k), EndAt(a, k);
    forall j: nat | j < end
      ensures ViewByte(g, b.flash, p, j) == ViewByte(g, a.flash, p, j)
    {
      ViewKept(g, a.flash, b.flash, p, j);
    }
    ViewsAgree(g, a.flash, b.flash, p, p, end);
    ActiveFacts(g, a.flash, 0, g.Pages(), p);
    KeptHeader(g, a.flash, b.flash, p);
  }

  lemma AllKeptFile(g: Geometry, a: Snapshot, f: Flash, k: nat)
    requires Sound(g, a) && OpenAt(a, k) && AllKept(g, a.flash, f)
    ensures FileKept(g, a.flash, f, PageAt(a, k))
  {
    hide HeaderAt, Kept, Actives, TableOk, Capacity, HeaderStored, Sound;
    OpenFacts(g, a, k);
  }

  /** Calls that keep every extent and every object in use. */
  lemma QuietPreserves(g: Geometry, op: Op, a: Snapshot, b: Snapshot)
    requires Sound(g, a) && AllKept(g, a.flash, b.flash) && RefsKept(a.files, b.files) && FdsKept(a.fds, b.fds)
    ensures Preserves(g, op, a, b)
  {
    hide HeaderAt, AllKept, FileKept, FileOk, Capacity, Actives, Content, Touches, Sound;
    forall k: nat | OpenAt(a, k) && !Touches(g, op, a, k) ensures Stands(g, a, b, k) {
      OpenFacts(g, a, k);
      AllKeptFile(g, a, b.flash, k);
      StandsKept(g, a, b, k);
    }
  }

  lemma KeptItself(g: Geometry, f: Flash)
    ensures AllKept(g, f, f)
  {}

  lemma NothingPreserves(g: Geometry, op: Op, a: Snapshot, b: Snapshot)
    requires Sound(g, a) && b == a
    ensures Preserves(g, op, a, b)
  {
    hide Touches, Content, HeaderAt, Sound;
    forall k: nat | OpenAt(a, k) ensures Stands(g, a, b, k) { StandsItself(g, a, k); }
  }

  lemma FormatTouches(g: Geometry, a: Snapshot, b: Snapshot)
    ensures Preserves(g, Format, a, b)
  {}

  lemma OpenPreserves(g: Geometry, op: Op, a: Snapshot, b: Snapshot, fd: int, name: seq<byte>, flags: byte)
    requires Sound(g, a) && AllKept(g, a.flash, b.flash)
             && Opened(g, a.flash, b.flash, a.files, b.files, a.fds, b.fds, fd, name, flags)
    ensures Preserves(g, op, a, b)
  {
    hide HeaderAt, AllKept, FileKept, FileOk, Capacity, Actives, Content, Touches, Sound, CStr, Cached, Bit;
    forall k: nat | OpenAt(a, k) && !Touches(g, op, a, k) ensures Stands(g, a, b, k) {
      OpenFacts(g, a, k);
      AllKeptFile(g, a, b.flash, k);
      StandsKept(g, a, b, k);
    }
  }

  /** Calls that change one descriptor, and the reference count of one object or the end of another file. */
  lemma TablePreserves(g: Geometry, op: Op, a: Snapshot, b: Snapshot, fd: int, slot: int)
    requires Sound(g, a) && b.flash == a.flash && 0 <= fd < |a.fds| && 0 <= slot < |a.files|
             && |b.files| == |a.files| && |b.fds| == |a.fds|
    requires b.fds == a.fds[fd := b.fds[fd]] && b.files == a.files[slot := b.files[slot]]
             && b.files[slot].page == a.files[slot].page
    requires forall k: nat :: OpenAt(a, k) && !Touches(g, op, a, k) ==>
             k != fd && (b.files[slot].end == a.files[slot].end || a.fds[k].file != slot)
    ensures Preserves(g, op, a, b)
  {
    hide HeaderAt, AllKept, FileKept, FileOk, Capacity, Actives, Content, Touches, Sound;
    KeptItself(g, a.flash);
    forall k: nat | OpenAt(a, k) && !Touches(g, op, a, k) ensures Stands(g, a, b, k) {
      AllKeptFile(g, a, b.flash, k);
      StandsKept(g, a, b, k);
    }
  }

  /** The removal of another file. */
  lemma RemovePreserves(g: Geometry, op: Op, a: Snapshot, b: Snapshot, page: nat, name: seq<byte>)
    requires Sound(g, a) && Removed(g, a.flash, b.flash, a.files, b.files, a.fds, b.fds, page, name)
             && op == Remove(name)
    ensures Preserves(g, op, a, b)
  {
    hide HeaderAt, FileOk, Capacity, Actives, Content, Sound, CStr, Kept, DiskOk, RemovedFrom;
    forall k: nat | OpenAt(a, k) && !Touches(g, op, a, k) ensures Stands(g, a, b, k) {
      OpenFacts(g, a, k);
      RemovedKeeps(g, a, b, page, name, k);
      StandsKept(g, a, b, k);
    }
  }

  lemma RemovedKeeps(g: Geometry, a: Snapshot, b: Snapshot, page: nat, name: seq<byte>, k: nat)
    requires Sound(g, a) && Removed(g, a.flash, b.flash, a.files, b.files, a.fds, b.fds, page, name) && OpenAt(a, k)
    requires CStr(name) != CStr(HeaderAt(g, a.flash, PageAt(a, k)).name)
    ensures PageAt(a, k) != page && FileKept(g, a.flash, b.flash, PageAt(a, k))
  {
    hide HeaderAt, Capacity, Actives, CStr, Kept, TableOk, HeaderStored, RemovedFrom;
    OpenFacts(g, a, k);
    LogsAreLogs(g, a.flash, page);
  }

  /** A write through a descriptor of another file. */
  lemma WritePreserves(g: Geometry, op: Op, a: Snapshot, b: Snapshot, fd: int, data: seq<byte>, torn: imap<nat, byte>,
                       t: int, n: nat)
    requires Sound(g, a) && op == Write(fd, data) && Wrote(g, a.flash, a.files, a.fds, fd, data, torn, b.flash,
             b.files, b.fds, t, n)
    ensures Preserves(g, op, a, b)
  {
    hide HeaderAt, FileOk, Capacity, Actives, Content, CStr, Kept, DiskOk, Own, ViewByte, RecordSize;
    forall k: nat | OpenAt(a, k) && !Touches(g, op, a, k) ensures Stands(g, a, b, k) {
      OpenFacts(g, a, k);
      var s, i := a.fds[fd].file, a.fds[k].file;
      MovedKeepsOthers(g, a.flash, a.files, a.fds, s, b.flash, b.files, FdBack(b.fds, fd, a.fds[fd].offset), t, i);
      WroteOther(g, a, b, s, FdBack(b.fds, fd, a.fds[fd].offset), t, k);
    }
  }

  lemma WroteOther(g: Geometry, a: Snapshot, b: Snapshot, s: int, fds: seq<FileDesc>, t: int, k: nat)
    requires Sound(g, a) && Moved(g, a.flash, a.files, a.fds, s, b.flash, b.files, fds, t) && OpenAt(a, k)
    requires a.fds[k].file != s && 0 <= s < |a.files| && a.files[s].references > 0
    ensures HeaderAt(g, b.flash, PageAt(a, k)) == HeaderAt(g, a.flash, PageAt(a, k)) && fds[k] == a.fds[k]
            && a.files[a.fds[k].file].references > 0
  {
    hide HeaderAt, FileOk, Capacity, Actives, Kept, DiskOk, ZeroRange, FirstFree, RefCount;
    OpenFacts(g, a, k);
    assert SlotOk(g, a.flash, a.files[s]);
    OwnDisjoint(g, a.flash, a.files, a.fds, s, a.fds[k].file);
  }

  /** First-time log settings of any file. */
  lemma ConfigurePreserves(g: Geometry, op: Op, a: Snapshot, b: Snapshot, page: nat, name: seq<byte>, records: nat,
                           recordSize: nat)
    requires Sound(g, a) && Configured(g, a.flash, b.flash, page, name, records, recordSize)
             && RefsKept(a.files, b.files) && b.fds == a.fds
    ensures Preserves(g, op, a, b)
  {
    hide HeaderAt, FileOk, Capacity, Actives, CStr, Kept, ViewByte, Touches, Content;
    forall k: nat | OpenAt(a, k) && !Touches(g, op, a, k) ensures Stands(g, a, b, k) {
      OpenFacts(g, a, k);
      if PageAt(a, k) == page {
        ViewsAgree(g, a.flash, b.flash, page, page, EndAt(a, k));
      } else {
        ConfiguredKeeps(g, a, b, page, name, records, recordSize, k);
        StandsKept(g, a, b, k);
      }
    }
  }

  lemma ConfiguredKeeps(g: Geometry, a: Snapshot, b: Snapshot, page: nat, name: seq<byte>, records: nat,
                        recordSize: nat, k: nat)
    requires Sound(g, a) && Configured(g, a.flash, b.flash, page, name, records, recordSize) && OpenAt(a, k)
             && PageAt(a, k) != page
    ensures FileKept(g, a.flash, b.flash, PageAt(a, k))
  {
    hide HeaderAt, Capacity, Actives, CStr, Kept, ViewByte, TableOk, HeaderStored;
    OpenFacts(g, a, k);
  }

  lemma StandsTrans(g: Geometry, a: Snapshot, b: Snapshot, c: Snapshot, k: nat)
    requires Stands(g, a, b, k) && Stands(g, b, c, k)
    ensures Stands(g, a, c, k)
  {
    hide Content, HeaderAt, CStr;
  }

  lemma StandsItself(g: Geometry, a: Snapshot, k: nat)
    requires OpenAt(a, k)
    ensures Stands(g, a, a, k)
  {}

  /** No call of the run touches descriptor k. */
  predicate LeftAlone(g: Geometry, ops: seq<Op>, states: seq<Snapshot>, n: nat, k: nat) {
    n <= |ops| && n < |states| && forall i :: 0 <= i < n && OpenAt(states[i], k) ==> !Touches(g, ops[i], states[i], k)
  }

  /** A descriptor no call of the run touches still sees its file as it was, whatever happened to the others:
      other files may have been written, merged, grown or removed, and garbage collected. */
  lemma {:induction false} LeftAloneStands(g: Geometry, ops: seq<Op>, states: seq<Snapshot>, n: nat, k: nat)
    requires n <= |ops| && n < |states| && forall i :: 0 <= i < n ==> Preserves(g, ops[i], states[i], states[i + 1])
    requires LeftAlone(g, ops, states, n, k) && OpenAt(states[0], k)
    ensures Stands(g, states[0], states[n], k)
  {
    hide Touches, OpenAt, Content, HeaderAt, CStr;
    if n == 0 {
      StandsItself(g, states[0], k);
    } else {
      LeftAloneStands(g, ops, states, n - 1, k);
      assert Preserves(g, ops[n - 1], states[n - 1], states[n - 1 + 1]);
      StandsTrans(g, states[0], states[n - 1], states[n], k);
    }
  }
}
