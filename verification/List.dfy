/** The intrusive circular list: nodes rewired in place, seen as the sequence of nodes behind a head. */
module List {

  class Node {
    var next: Node?
    var prev: Node?

    constructor ()
      ensures next == null && prev == null
    {
      next, prev := null, null;
    }
  }

  // ----- a well-formed list -----

  predicate Distinct(s: seq<Node>) { forall i, j :: 0 <= i < j < |s| ==> s[i] != s[j] }

  /** Node i of the round trip that starts and ends at the head. */
  function Nth(head: Node, s: seq<Node>, i: int): Node {
    if 1 <= i <= |s| then s[i - 1] else head
  }

  /** Both links between two neighbours. */
  predicate Linked(a: Node, b: Node)
    reads a, b
  {
    a.next == b && b.prev == a
  }

  /** From the head through s back to the head, in both directions. */
  ghost predicate IsList(head: Node, s: seq<Node>)
    reads head, s
  {
    head !in s && Distinct(s) && forall i {:trigger Nth(head, s, i)} :: 0 <= i <= |s| ==>
        Linked(Nth(head, s, i), Nth(head, s, i + 1))
  }

  predicate Apart(head: Node, s: seq<Node>, other: Node, t: seq<Node>) {
    head != other && head !in t && other !in s && forall n :: n in s ==> n !in t
  }

  lemma {:induction false} SameFrom(head: Node, s: seq<Node>, t: seq<Node>, i: nat)
    requires IsList(head, s) && IsList(head, t) && i <= |s|
    ensures i <= |t| && forall k :: 0 <= k < i ==> s[k] == t[k]
  {
    if i > 0 {
      SameFrom(head, s, t, i - 1);
      assert Linked(Nth(head, s, i - 1), Nth(head, s, i - 1 + 1));
      assert Linked(Nth(head, t, i - 1), Nth(head, t, i - 1 + 1));
      assert Nth(head, s, i - 1) == Nth(head, t, i - 1);
      assert s[i - 1] == Nth(head, t, i);
    }
  }

  /** The links determine the contents. */
  lemma ContentsUnique(head: Node, s: seq<Node>, t: seq<Node>)
    requires IsList(head, s) && IsList(head, t)
    ensures s == t
  {
    SameFrom(head, s, t, |s|);
    SameFrom(head, t, s, |t|);
  }

  lemma DistinctParts(a: seq<Node>, b: seq<Node>)
    ensures Distinct(a + b) <==> Distinct(a) && Distinct(b) && forall n :: n in a ==> n !in b
  {
    var s := a + b;
    if Distinct(s) {
      forall i, j | 0 <= i < j < |a| ensures a[i] != a[j] { assert s[i] != s[j]; }
      forall i, j | 0 <= i < j < |b| ensures b[i] != b[j] { assert s[|a| + i] != s[|a| + j]; }
      forall i, j | 0 <= i < |a| && 0 <= j < |b| ensures a[i] != b[j] { assert s[i] != s[|a| + j]; }
      assert forall n :: n in a ==> n !in b;
    } else {
      var i, j :| 0 <= i < j < |s| && s[i] == s[j];
      assert i < |a| && j >= |a| ==> a[i] in a && b[j - |a|] in b;
    }
  }

  lemma DistinctRotated(head: Node, a: seq<Node>, e: Node, b: seq<Node>)
    requires head !in a + [e] + b && Distinct(a + [e] + b)
    ensures e !in b + [head] + a && Distinct(b + [head] + a)
  {
    hide Distinct;
    DistinctParts(a + [e], b);
    DistinctParts(a, [e]);
    DistinctParts(b + [head], a);
    DistinctParts(b, [head]);
    DistinctOne(head);
  }

  lemma DistinctOne(n: Node)
    ensures Distinct([n])
  {}

  /** Any entry can play the head. */
  lemma Rotated(head: Node, a: seq<Node>, e: Node, b: seq<Node>)
    requires IsList(head, a + [e] + b)
    ensures IsList(e, b + [head] + a)
  {
    var s, t := a + [e] + b, b + [head] + a;
    assert forall k :: 0 <= k < |a| ==> s[k] == a[k];
    assert forall k :: 0 <= k < |b| ==> s[|a| + 1 + k] == b[k];
    DistinctRotated(head, a, e, b);
    hide Distinct;
    forall i | 0 <= i <= |t| ensures Linked(Nth(e, t, i), Nth(e, t, i + 1)) {
      if i <= |b| {
        assert Linked(Nth(head, s, |a| + 1 + i), Nth(head, s, |a| + 1 + i + 1));
      } else {
        assert Linked(Nth(head, s, i - |b| - 1), Nth(head, s, i - |b| - 1 + 1));
      }
    }
  }

  // ----- insertion and removal -----

  method InitListHead(list: Node)
    modifies list
    ensures IsList(list, []) && list.next == list
  {
    list.next := list;
    list.prev := list;
  }

  method Insert(item: Node, prev: Node, next: Node)
    requires item != prev && item != next
    modifies item, prev, next
    ensures Linked(prev, item) && Linked(item, next)
    ensures prev != next ==> prev.prev == old(prev.prev) && next.next == old(next.next)
  {
    next.prev := item;
    item.next := next;
    item.prev := prev;
    prev.next := item;
  }

  method ListAdd(item: Node, head: Node, ghost s: seq<Node>)
    requires IsList(head, s) && item != head && item !in s
    modifies item, head, head.next
    ensures IsList(head, [item] + s)
  {
    hide Distinct;
    assert Linked(Nth(head, s, 0), Nth(head, s, 0 + 1));
    label before:
    Insert(item, head, head.next);
    ghost var t := [item] + s;
    DistinctParts([item], s);
    DistinctOne(item);
    forall i | 0 <= i <= |t| ensures Linked(Nth(head, t, i), Nth(head, t, i + 1)) {
      if i >= 2 { assert old@before(Linked(Nth(head, s, i - 1), Nth(head, s, i - 1 + 1))); }
    }
  }

  method ListAddTail(item: Node, head: Node, ghost s: seq<Node>)
    requires IsList(head, s) && item != head && item !in s
    modifies item, head, head.prev
    ensures IsList(head, s + [item])
  {
    hide Distinct;
    assert Linked(Nth(head, s, |s|), Nth(head, s, |s| + 1));
    label before:
    Insert(item, head.prev, head);
    ghost var t := s + [item];
    DistinctParts(s, [item]);
    DistinctOne(item);
    forall i | 0 <= i <= |t| ensures Linked(Nth(head, t, i), Nth(head, t, i + 1)) {
      if i < |s| { assert old@before(Linked(Nth(head, s, i), Nth(head, s, i + 1))); }
    }
  }

  method Join(prev: Node, next: Node)
    modifies prev, next
    ensures Linked(prev, next)
    ensures prev != next ==> prev.prev == old(prev.prev) && next.next == old(next.next)
  {
    next.prev := prev;
    prev.next := next;
  }

  /** What is left of a list around the entry when the entry goes: the head and the other entries. */
  method DelEntry(entry: Node, ghost head: Node, ghost a: seq<Node>, ghost b: seq<Node>)
    requires IsList(head, a + [entry] + b)
    modifies entry.prev, entry.next
    ensures IsList(head, a + b) && entry != head && entry !in a + b
    ensures entry.next == old(entry.next) && entry.prev == old(entry.prev)
  {
    hide Distinct;
    ghost var s, t := a + [entry] + b, a + b;
    assert Linked(Nth(head, s, |a|), Nth(head, s, |a| + 1));
    assert Linked(Nth(head, s, |a| + 1), Nth(head, s, |a| + 1 + 1));
    DistinctParts(a + [entry], b);
    DistinctParts(a, [entry]);
    DistinctParts(a, b);
    assert entry in s && entry !in a + b;
    label before:
    Join(entry.prev, entry.next);
    forall i | 0 <= i <= |t| ensures Linked(Nth(head, t, i), Nth(head, t, i + 1)) {
      if i < |a| {
        assert old@before(Linked(Nth(head, s, i), Nth(head, s, i + 1)));
      } else if i > |a| {
        assert old@before(Linked(Nth(head, s, i + 1), Nth(head, s, i + 1 + 1)));
      }
    }
  }

  method ListDel(entry: Node, ghost head: Node, ghost a: seq<Node>, ghost b: seq<Node>)
    requires IsList(head, a + [entry] + b)
    modifies entry, entry.prev, entry.next
    ensures IsList(head, a + b) && entry.next == null && entry.prev == null
  {
    DelEntry(entry, head, a, b);
    entry.next := null;
    entry.prev := null;
  }

  method ListDelInit(entry: Node, ghost head: Node, ghost a: seq<Node>, ghost b: seq<Node>)
    requires IsList(head, a + [entry] + b)
    modifies entry, entry.prev, entry.next
    ensures IsList(head, a + b) && IsList(entry, [])
  {
    DelEntry(entry, head, a, b);
    InitListHead(entry);
  }

  /** The item takes the place of a list head; by Rotated, of any entry. */
  method ListReplace(old': Node, item: Node, ghost s: seq<Node>)
    requires IsList(old', s) && item != old' && item !in s
    modifies item, old', old'.next, old'.prev
    ensures IsList(item, s)
  {
    hide Distinct;
    assert Linked(Nth(old', s, 0), Nth(old', s, 0 + 1));
    assert Linked(Nth(old', s, |s|), Nth(old', s, |s| + 1));
    label before:
    item.next := old'.next;
    item.next.prev := item;
    item.prev := old'.prev;
    item.prev.next := item;
    forall i | 0 <= i <= |s| ensures Linked(Nth(item, s, i), Nth(item, s, i + 1)) {
      if 0 < i < |s| { assert old@before(Linked(Nth(old', s, i), Nth(old', s, i + 1))); }
    }
  }

  method ListReplaceInit(old': Node, item: Node, ghost s: seq<Node>)
    requires IsList(old', s) && item != old' && item !in s
    modifies item, old', old'.next, old'.prev
    ensures IsList(item, s) && IsList(old', [])
  {
    ListReplace(old', item, s);
    InitListHead(old');
  }

  // ----- the tests -----

  predicate ListIsLast(list: Node, head: Node)
    reads list
  {
    list.next == head
  }

  predicate ListEmpty(head: Node)
    reads head
  {
    head.next == head
  }

  predicate ListEmptyCareful(head: Node)
    reads head
  {
    var next := head.next;
    next == head && next == head.prev
  }

  predicate ListIsSingular(head: Node)
    reads head
  {
    !ListEmpty(head) && head.next == head.prev
  }

  /** What the tests say about the contents. */
  lemma TestsMean(head: Node, s: seq<Node>)
    requires IsList(head, s)
    ensures ListEmpty(head) == ListEmptyCareful(head) == (s == []) && ListIsSingular(head) == (|s| == 1)
    ensures forall i :: 0 <= i < |s| ==> (ListIsLast(s[i], head) <==> i == |s| - 1)
  {
    assert Linked(Nth(head, s, 0), Nth(head, s, 0 + 1));
    assert Linked(Nth(head, s, |s|), Nth(head, s, |s| + 1));
    forall i | 0 <= i < |s| ensures ListIsLast(s[i], head) <==> i == |s| - 1 {
      assert Linked(Nth(head, s, i + 1), Nth(head, s, i + 1 + 1));
    }
  }

  // ----- moving -----

  lemma EndsInside(head: Node, s: seq<Node>)
    requires IsList(head, s)
    ensures head.next in [head] + s && head.prev in [head] + s
  {
    assert Linked(Nth(head, s, 0), Nth(head, s, 0 + 1));
    assert Linked(Nth(head, s, |s|), Nth(head, s, |s| + 1));
  }

  /** From the list a + [list] + b behind from, which may be the same list, to the front behind head. */
  method ListMove(list: Node, head: Node, ghost from: Node, ghost a: seq<Node>, ghost b: seq<Node>, ghost s: seq<Node>)
    requires IsList(from, a + [list] + b) && (from == head || (IsList(head, s) && Apart(from, a + [list] + b, head, s)))
    modifies list, list.prev, list.next, from, a, b, head, s
    ensures from == head ==> IsList(head, [list] + (a + b))
    ensures from != head ==> IsList(head, [list] + s) && IsList(from, a + b)
  {
    hide Distinct;
    ghost var was := a + [list] + b;
    assert list in was && forall n :: n in a + b ==> n in was;
    Rotated(from, a, list, b);
    EndsInside(list, b + [from] + a);
    assert from != head ==> list.prev !in [head] + s && list.next !in [head] + s;
    DelEntry(list, from, a, b);
    assert IsList(head, if from == head then a + b else s);
    EndsInside(head, if from == head then a + b else s);
    ListAdd(list, head, if from == head then a + b else s);
  }

  method ListMoveTail(list: Node, head: Node, ghost from: Node, ghost a: seq<Node>, ghost b: seq<Node>,
                      ghost s: seq<Node>)
    requires IsList(from, a + [list] + b) && (from == head || (IsList(head, s) && Apart(from, a + [list] + b, head, s)))
    modifies list, list.prev, list.next, from, a, b, head, s
    ensures from == head ==> IsList(head, a + b + [list])
    ensures from != head ==> IsList(head, s + [list]) && IsList(from, a + b)
  {
    hide Distinct;
    ghost var was := a + [list] + b;
    assert list in was && forall n :: n in a + b ==> n in was;
    Rotated(from, a, list, b);
    EndsInside(list, b + [from] + a);
    assert from != head ==> list.prev !in [head] + s && list.next !in [head] + s;
    DelEntry(list, from, a, b);
    assert IsList(head, if from == head then a + b else s);
    EndsInside(head, if from == head then a + b else s);
    ListAddTail(list, head, if from == head then a + b else s);
  }

  method ListRotateLeft(head: Node, ghost s: seq<Node>)
    requires IsList(head, s)
    modifies head, s
    ensures IsList(head, if s == [] then s else s[1..] + [s[0]])
  {
    TestsMean(head, s);
    if !ListEmpty(head) {
      assert Linked(Nth(head, s, 0), Nth(head, s, 0 + 1));
      var first := head.next;
      assert s == [] + [first] + s[1..];
      assert Linked(Nth(head, s, 1), Nth(head, s, 1 + 1));
      ListMoveTail(first, head, head, [], s[1..], []);
      assert [] + s[1..] + [first] == s[1..] + [s[0]];
    }
  }

  // ----- cutting and splicing -----

  function Later(c: seq<Node>, i: nat): Node
    requires i + 1 < |c|
  {
    c[i + 1]
  }

  /** Neighbours in c are linked both ways. */
  ghost predicate Chain(c: seq<Node>)
    reads c
  {
    forall i {:trigger Later(c, i)} :: 0 <= i < |c| - 1 ==> Linked(c[i], Later(c, i))
  }

  lemma Opened(head: Node, s: seq<Node>)
    requires IsList(head, s) && s != []
    ensures Linked(head, s[0]) && Chain(s) && Linked(s[|s| - 1], head)
  {
    hide Distinct;
    assert Linked(Nth(head, s, 0), Nth(head, s, 0 + 1));
    assert Linked(Nth(head, s, |s|), Nth(head, s, |s| + 1));
    forall i | 0 <= i < |s| - 1 ensures Linked(s[i], Later(s, i)) {
      assert Linked(Nth(head, s, i + 1), Nth(head, s, i + 1 + 1));
    }
  }

  lemma NoEntries(head: Node)
    requires IsList(head, [])
    ensures Linked(head, head)
  {
    assert Linked(Nth(head, [], 0), Nth(head, [], 0 + 1));
  }

  lemma Closed(head: Node, s: seq<Node>)
    requires s != [] && head !in s && Distinct(s) && Linked(head, s[0]) && Chain(s) && Linked(s[|s| - 1], head)
    ensures IsList(head, s)
  {
    hide Distinct;
    forall i | 0 <= i <= |s| ensures Linked(Nth(head, s, i), Nth(head, s, i + 1)) {
      if 0 < i < |s| { assert Linked(s[i - 1], Later(s, i - 1)); }
    }
  }

  lemma ChainParts(a: seq<Node>, b: seq<Node>)
    requires Chain(a + b)
    ensures Chain(a) && Chain(b) && (a != [] && b != [] ==> Linked(a[|a| - 1], b[0]))
  {
    var c := a + b;
    forall i | 0 <= i < |a| - 1 ensures Linked(a[i], Later(a, i)) { assert Linked(c[i], Later(c, i)); }
    forall i | 0 <= i < |b| - 1 ensures Linked(b[i], Later(b, i)) { assert Linked(c[|a| + i], Later(c, |a| + i)); }
    if a != [] && b != [] { assert Linked(c[|a| - 1], Later(c, |a| - 1)); }
  }

  lemma ChainJoined(a: seq<Node>, b: seq<Node>)
    requires Chain(a) && Chain(b) && (a != [] && b != [] ==> Linked(a[|a| - 1], b[0]))
    ensures Chain(a + b)
  {
    var c := a + b;
    forall i | 0 <= i < |c| - 1 ensures Linked(c[i], Later(c, i)) {
      if i < |a| - 1 {
        assert Linked(a[i], Later(a, i)); } else if i >= |a| { assert Linked(b[i - |a|], Later(b, i - |a|));
      }
    }
  }

  /** Links between neighbours that nobody touched. */
  twostate lemma ChainKept(c: seq<Node>)
    requires Distinct(c) && old(Chain(c))
    requires forall n :: n in c && n != c[|c| - 1] ==> n.next == old(n.next)
    requires forall n :: n in c && n != c[0] ==> n.prev == old(n.prev)
    ensures Chain(c)
  {
    forall i | 0 <= i < |c| - 1 ensures Linked(c[i], Later(c, i)) { assert old(Linked(c[i], Later(c, i))); }
  }

  method CutAt(list: Node, head: Node, entry: Node, ghost s: seq<Node>, ghost i: nat)
    requires IsList(head, s) && list != head && list !in s && i < |s| && entry == s[i]
    modifies list, head, head.next, entry, entry.next
    ensures IsList(list, s[..i + 1]) && IsList(head, s[i + 1..])
  {
    hide Distinct, Chain;
    ghost var t, u := s[..i + 1], s[i + 1..];
    assert s == t + u;
    DistinctParts(t, u);
    Opened(head, s);
    ChainParts(t, u);
    label before:
    var itemFirst := entry.next;
    list.next := head.next;
    list.next.prev := list;
    list.prev := entry;
    entry.next := list;
    head.next := itemFirst;
    itemFirst.prev := head;
    ChainKept@before(t);
    Closed(list, t);
    if u != [] {
      ChainKept@before(u);
      Closed(head, u);
    }
  }

  method ListCutPosition(list: Node, head: Node, entry: Node, ghost s: seq<Node>)
    requires IsList(head, s) && list != head && list !in s && (entry == head || entry in s || |s| <= 1)
    modifies list, head, head.next, entry, entry.next
    ensures s == [] || (|s| == 1 && entry != head && entry !in s) ==> IsList(head, s) && unchanged(list)
    ensures s != [] && entry == head ==> IsList(list, []) && IsList(head, s)
    ensures forall i :: 0 <= i < |s| && entry == s[i] ==> IsList(list, s[..i + 1]) && IsList(head, s[i + 1..])
  {
    TestsMean(head, s);
    EndsInside(head, s);
    if ListEmpty(head) { return; }
    if ListIsSingular(head) && head.next != entry && head != entry { return; }
    if entry == head {
      InitListHead(list);
    } else {
      ghost var i :| 0 <= i < |s| && s[i] == entry;
      CutAt(list, head, entry, s, i);
    }
  }

  /** Puts the nodes of a list that is not empty between two neighbours. */
  method SpliceBetween(list: Node, prev: Node, next: Node, ghost t: seq<Node>)
    requires IsList(list, t) && t != [] && prev !in t && next !in t && prev != list && next != list
    modifies list.next, list.prev, prev, next
    ensures Linked(prev, t[0]) && Chain(t) && Linked(t[|t| - 1], next)
    ensures prev != next ==> prev.prev == old(prev.prev) && next.next == old(next.next)
  {
    hide Distinct, Chain;
    Opened(list, t);
    label before:
    var first := list.next;
    var last := list.prev;
    first.prev := prev;
    prev.next := first;
    last.next := next;
    next.prev := last;
    ChainKept@before(t);
  }

  /** The list's nodes come first behind the head; the list's own head keeps its links. */
  method ListSplice(list: Node, head: Node, ghost t: seq<Node>, ghost s: seq<Node>)
    requires IsList(list, t) && IsList(head, s) && Apart(list, t, head, s)
    modifies list.next, list.prev, head, head.next
    ensures IsList(head, t + s) && unchanged(list)
  {
    hide Distinct, Chain;
    TestsMean(list, t);
    DistinctParts(t, s);
    if !ListEmpty(list) {
      Opened(list, t);
      if s != [] { Opened(head, s); } else { NoEntries(head); }
      label before:
      SpliceBetween(list, head, head.next, t);
      if s != [] { ChainKept@before(s); } else { ChainOfNone(); }
      ChainJoined(t, s);
      Closed(head, t + s);
    } else {
      assert t + s == s;
    }
  }

  lemma ChainOfNone()
    ensures Chain([])
  {}

  method ListSpliceTail(list: Node, head: Node, ghost t: seq<Node>, ghost s: seq<Node>)
    requires IsList(list, t) && IsList(head, s) && Apart(list, t, head, s)
    modifies list.next, list.prev, head, head.prev
    ensures IsList(head, s + t) && unchanged(list)
  {
    hide Distinct, Chain;
    TestsMean(list, t);
    DistinctParts(s, t);
    if !ListEmpty(list) {
      Opened(list, t);
      if s != [] { Opened(head, s); } else { NoEntries(head); }
      label before:
      SpliceBetween(list, head.prev, head, t);
      if s != [] { ChainKept@before(s); } else { ChainOfNone(); }
      ChainJoined(s, t);
      Closed(head, s + t);
    } else {
      assert s + t == s;
    }
  }

  method ListSpliceInit(list: Node, head: Node, ghost t: seq<Node>, ghost s: seq<Node>)
    requires IsList(list, t) && IsList(head, s) && Apart(list, t, head, s)
    modifies list, list.next, list.prev, head, head.next
    ensures IsList(head, t + s) && IsList(list, [])
  {
    hide Distinct;
    TestsMean(list, t);
    if !ListEmpty(list) {
      ListSplice(list, head, t, s);
      InitListHead(list);
    } else {
      assert t + s == s == s + t;
    }
  }

  method ListSpliceTailInit(list: Node, head: Node, ghost t: seq<Node>, ghost s: seq<Node>)
    requires IsList(list, t) && IsList(head, s) && Apart(list, t, head, s)
    modifies list, list.next, list.prev, head, head.prev
    ensures IsList(head, s + t) && IsList(list, [])
  {
    hide Distinct;
    TestsMean(list, t);
    if !ListEmpty(list) {
      ListSpliceTail(list, head, t, s);
      InitListHead(list);
    } else {
      assert t + s == s == s + t;
    }
  }

  /** Cutting a list and splicing the part back in front restores it. */
  method CutThenSplice(list: Node, head: Node, entry: Node, ghost s: seq<Node>)
    requires IsList(head, s) && list != head && list !in s && (entry == head || entry in s || |s| <= 1)
    requires IsList(list, []) || (s != [] && (entry == head || entry in s))
    modifies list, head, s, entry, entry.next
    ensures IsList(head, s)
  {
    hide Distinct;
    EndsInside(head, s);
    ListCutPosition(list, head, entry, s);
    ghost var t, u := [], s;
    if entry in s {
      ghost var i :| 0 <= i < |s| && s[i] == entry;
      t, u := s[..i + 1], s[i + 1..];
    }
    assert s == t + u;
    DistinctParts(t, u);
    EndsInside(list, t);
    EndsInside(head, u);
    ListSplice(list, head, t, u);
  }
}
