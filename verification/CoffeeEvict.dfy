/** What a write costs the other cached objects: which slots merging a file and creating its log take and
    give back, and when they suffice. */
module CoffeeEvict {
  import opened CoffeeFlash
  import opened CoffeeLayout
  import opened CoffeeLog
  import opened CoffeeCache
  import opened CoffeeUpdate

  /** page_count. */
  function PageCount(g: Geometry, size: nat): nat { Quot(size + HEADER_SIZE + g.pageSize - 1, g.pageSize) }

  lemma PageCountPositive(g: Geometry, size: nat)
    requires g.Ok()
    ensures 1 <= PageCount(g, size)
  {}

  /** The pages create_log asks for. */
  function LogPages(g: Geometry, h: Header): nat { PageCount(g, Times(Records(g, h), 2 + RecordSize(g, h))) }

  /** The file moved from slot s to slot t, which load_file had to choose; the objects of its old extents were
      dropped and no other one changed. */
  ghost predicate Relocated(g: Geometry, f0: Flash, files0: seq<FileObject>, s: int, files: seq<FileObject>, t: int) {
    && |files| == |files0| && 0 <= s < |files| && s != t && Chosen(files0, t) && 0 <= files0[s].page
    && var own := Own(g, f0, files0[s].page);
    && forall i :: 0 <= i < |files| && i != t ==>
         files[i] == if Gone(files0[i], own) then DropObject(files0[i]) else files0[i]
  }

  /** The object of the new log, which is as large as its table needs, took the slot load_file had to choose; but for it
      and the one of the file no object changed. */
  ghost predicate LogCached(g: Geometry, files0: seq<FileObject>, s: int, f: Flash, files: seq<FileObject>) {
    && |files| == |files0| && 0 <= s < |files| && 0 <= files0[s].page == files[s].page
    && HeaderAt(g, f, files[s].page).modified
    && exists x :: LogIn(g, files0, s, HeaderAt(g, f, files[s].page), files, x)
  }

  predicate LogIn(g: Geometry, files0: seq<FileObject>, s: int, h: Header, files: seq<FileObject>, x: int) {
    && 0 <= s < |files0| == |files| && Chosen(files0, x) && x != s && files == files0[s := files[s]][x := files[x]]
    && files[x].page == LogOf(h) && files[x].maxPages == LogPages(g, h)
  }

  /** Slot i is free, or will be once the file in slot s is merged, as it holds the log. */
  ghost predicate Spare(g: Geometry, f: Flash, files: seq<FileObject>, s: int, i: int) {
    && 0 <= i < |files| && 0 <= s < |files| && i != s && 0 <= files[s].page
    && var h := HeaderAt(g, f, files[s].page);
    && (files[i].maxPages == 0 || (h.modified && files[i].page == LogOf(h)))
  }

  /** Room in the table for any number of merges and new logs of the file in slot s: a free slot, and another one that
      is free or holds the log. */
  ghost predicate Slack(g: Geometry, f: Flash, files: seq<FileObject>, s: int) {
    exists a, b :: a != b && Spare(g, f, files, s, a) && Spare(g, f, files, s, b) && files[a].maxPages == 0
  }

  /** Every cached object of another file is as it was. */
  ghost predicate OthersCached(g: Geometry, f0: Flash, files0: seq<FileObject>, s: int, files: seq<FileObject>,
                               t: int) {
    && |files| == |files0| && 0 <= s < |files| && 0 <= files0[s].page
    && forall i :: 0 <= i < |files| && files0[i].maxPages > 0 && !Gone(files0[i], Own(g, f0, files0[s].page)) ==>
         i != t && files[i] == files0[i]
  }

  /** With room in the table all other cached objects were left alone, and there still is room. */
  ghost predicate Spares(g: Geometry, f0: Flash, files0: seq<FileObject>, s: int, f: Flash, files: seq<FileObject>,
                         t: int) {
    Slack(g, f0, files0, s) ==> OthersCached(g, f0, files0, s, files, t) && Slack(g, f, files, t)
  }

  lemma SlackBy(g: Geometry, f: Flash, files: seq<FileObject>, s: int, a: int, b: int)
    requires a != b && Spare(g, f, files, s, a) && Spare(g, f, files, s, b) && files[a].maxPages == 0
    ensures Slack(g, f, files, s)
  {}

  /** The file's own object is one of its extents. */
  lemma OwnIsGone(g: Geometry, f: Flash, files: seq<FileObject>, s: nat)
    requires s < |files| && 0 <= files[s].page
    ensures Gone(files[s], Own(g, f, files[s].page))
  {
    hide HeaderAt;
  }

  lemma SparesRefl(g: Geometry, f: Flash, files: seq<FileObject>, s: nat)
    requires s < |files| && 0 <= files[s].page
    ensures Spares(g, f, files, s, f, files, s)
  {
    hide HeaderAt, Slack;
    OwnIsGone(g, f, files, s);
  }

  /** A change of the file's own object that leaves its log where it is. */
  lemma SparesOwn(g: Geometry, f0: Flash, files0: seq<FileObject>, s: nat, f: Flash, files: seq<FileObject>)
    requires s < |files0| == |files| && 0 <= files0[s].page && files == files0[s := files[s]]
             && files[s].page == files0[s].page
    requires var h0, h := HeaderAt(g, f0, files0[s].page), HeaderAt(g, f, files[s].page);
      h.modified == h0.modified && h.logPage == h0.logPage
    ensures Spares(g, f0, files0, s, f, files, s)
  {
    hide HeaderAt;
    OwnIsGone(g, f0, files0, s);
    if Slack(g, f0, files0, s) {
      var a, b :| a != b && Spare(g, f0, files0, s, a) && Spare(g, f0, files0, s, b) && files0[a].maxPages == 0;
      SlackBy(g, f, files, s, a, b);
    }
  }

  /** The slots over the steps of a merge: the object is opened once more, the new extent gets its slot, and the
      objects of the old extents are dropped. */
  lemma RelocatedSteps(g: Geometry, f0: Flash, files0: seq<FileObject>, s: nat, t: nat, files1: seq<FileObject>,
                       files2: seq<FileObject>, o: FileObject, files5: seq<FileObject>, files: seq<FileObject>)
    requires s < |files0| && t < |files0| && s != t && 0 <= files0[s].page && files0[s].references > 0
             && files0[s].maxPages > 0
    requires files1 == files0[s := files0[s].(references := files0[s].references + 1)] && Chosen(files1, t)
    requires |files2| == |files1| && files2 == files1[t := files2[t]]
    requires SlotsDropped(files2[t := o], files5, Own(g, f0, files0[s].page))
    requires |files| == |files5| && files == files5[t := files[t]]
    ensures Relocated(g, f0, files0, s, files, t)
  {
    hide HeaderAt, Own;
    OwnIsGone(g, f0, files0, s);
    SameChoice(files0, files1, t);
    var own := Own(g, f0, files0[s].page);
    forall i | 0 <= i < |files| && i != t
      ensures files[i] == if Gone(files0[i], own) then DropObject(files0[i]) else files0[i]
    {
      assert files5[i] == if Gone(files1[i], own) then DropObject(files1[i]) else files1[i];
    }
  }

  lemma SameChoice(files0: seq<FileObject>, files1: seq<FileObject>, t: nat)
    requires Chosen(files1, t) && |files1| == |files0|
    requires forall i :: 0 <= i < |files0| ==> files1[i].maxPages == files0[i].maxPages
                                               && (files1[i].references == 0 <==> files0[i].references == 0)
    ensures Chosen(files0, t)
  {}

  /** A merge takes one slot and gives back two: that of the old object and that of the log. */
  lemma SparesRelocated(g: Geometry, f0: Flash, files0: seq<FileObject>, s: nat, f: Flash, files: seq<FileObject>,
                        t: nat)
    requires Relocated(g, f0, files0, s, files, t) && 0 <= files[t].page
    ensures Spares(g, f0, files0, s, f, files, t)
  {
    hide HeaderAt;
    OwnIsGone(g, f0, files0, s);
    if Slack(g, f0, files0, s) {
      var a, b :| a != b && Spare(g, f0, files0, s, a) && Spare(g, f0, files0, s, b) && files0[a].maxPages == 0;
      SlackBy(g, f, files, t, s, if a == t then b else a);
    }
  }

  lemma LogStaysCached(g: Geometry, files0: seq<FileObject>, s: nat, f1: Flash, files1: seq<FileObject>, f: Flash,
                       files: seq<FileObject>)
    requires LogCached(g, files0, s, f1, files1) && |files| == |files1| && files == files1[s := files[s]]
    requires files[s].page == files1[s].page && HeaderAt(g, f, files[s].page) == HeaderAt(g, f1, files[s].page)
    ensures LogCached(g, files0, s, f, files)
  {
    hide HeaderAt;
    var x :| LogIn(g, files0, s, HeaderAt(g, f1, files1[s].page), files1, x);
    assert LogIn(g, files0, s, HeaderAt(g, f, files[s].page), files, x);
  }

  /** A new log takes a free slot, which the next merge gives back. */
  lemma SparesCreated(g: Geometry, f0: Flash, files0: seq<FileObject>, s: nat, f: Flash, files: seq<FileObject>)
    requires LogCached(g, files0, s, f, files) && !HeaderAt(g, f0, files0[s].page).modified
    ensures Spares(g, f0, files0, s, f, files, s)
  {
    hide HeaderAt;
    OwnIsGone(g, f0, files0, s);
    var x :| LogIn(g, files0, s, HeaderAt(g, f, files[s].page), files, x);
    if Slack(g, f0, files0, s) {
      var a, b :| a != b && Spare(g, f0, files0, s, a) && Spare(g, f0, files0, s, b) && files0[a].maxPages == 0;
      SlackBy(g, f, files, s, if a == x then b else a, x);
    }
  }

  lemma SparesSame(g: Geometry, f0: Flash, files0: seq<FileObject>, s: int, f: Flash, files: seq<FileObject>, t: nat,
                   files': seq<FileObject>)
    requires Spares(g, f0, files0, s, f, files, t) && t < |files| == |files'| && 0 <= files[t].page
    requires files' == files[t := files'[t]] && files'[t].page == files[t].page
    ensures Spares(g, f0, files0, s, f, files', t)
  {
    hide HeaderAt, Slack, Own;
    if Slack(g, f0, files0, s) { SparesOwn(g, f, files, t, f, files'); }
  }

  /** Two such changes in a row. */
  lemma SparesTrans(g: Geometry, f0: Flash, files0: seq<FileObject>, fds0: seq<FileDesc>, s: nat,
                    f1: Flash, files1: seq<FileObject>, fds1: seq<FileDesc>, t: nat,
                    f2: Flash, files2: seq<FileObject>, u: nat)
    requires CacheOk(g, f0, files0, fds0) && Moved(g, f0, files0, fds0, s, f1, files1, fds1, t)
    requires Spares(g, f0, files0, s, f1, files1, t) && Spares(g, f1, files1, t, f2, files2, u)
    ensures Spares(g, f0, files0, s, f2, files2, u)
  {
    hide HeaderAt, Own, Slack, Actives, RefCount, FdOk;
    if Slack(g, f0, files0, s) {
      forall i | 0 <= i < |files0| && files0[i].maxPages > 0 && !Gone(files0[i], Own(g, f0, files0[s].page))
        ensures i != u && files2[i] == files0[i]
      {
        assert SlotOk(g, f0, files0[i]);
        assert files1[i] == files0[i];
        assert !Gone(files1[i], Own(g, f1, files1[t].page));
      }
    }
  }

  /** Two free slots are room enough. */
  lemma TwoFree(g: Geometry, f: Flash, files: seq<FileObject>, s: nat, a: nat, b: nat)
    requires s < |files| && 0 <= files[s].page && files[s].maxPages > 0
    requires a < |files| && b < |files| && a != b && files[a].maxPages == 0 && files[b].maxPages == 0
    ensures Slack(g, f, files, s)
  {
    hide HeaderAt;
    SlackBy(g, f, files, s, a, b);
  }
}
