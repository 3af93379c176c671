/**
  The intrusive child lists of pkg/goldmark/ast/ast.go: first and last child at the parent, previous
  and next sibling at the children. The ghost field `kids` is the list they encode; where the
  links are coherent it determines every one of them.
*/
module ChildList {
  import opened Basics
  import opened ChildLinks
  import ChildOrder

  class Node {
    var firstChild: Node?
    var lastChild: Node?
    var parent: Node?
    var next: Node?
    var prev: Node?
    ghost var kids: seq<Node>

    constructor ()
      ensures kids == [] && parent == null && next == null && prev == null && firstChild == null && lastChild == null
    {
      firstChild, lastChild, parent, next, prev, kids := null, null, null, null, null, [];
    }

    ghost function Now(): Link<Node>
      reads this
    {
      Link(Ref(firstChild), Ref(lastChild), Ref(parent), Ref(next), Ref(prev), kids)
    }

    /** `RemoveChild`: nothing happens to a node that is no child of this one. */
    method RemoveChild(v: Node, ghost nodes: set<Node>)
      requires Coherent(Snap(nodes)) && this in nodes && v in nodes
      modifies nodes
      ensures Coherent(Snap(nodes))
      ensures v in old(Snap(nodes)) && Snap(nodes) == Removed(old(Snap(nodes)), this, v)
    {
      hide Coherent, Cut, Snap;
      ghost var h := Snap(nodes);
      SnapAt(nodes, this);
      SnapAt(nodes, v);
      if v.parent != this { return; }
      KidOfParent(h, v, this);
      ghost var i := Place(kids, v);
      CutKeeps(h, this, i);
      CutAll(h, this, i);
      Unlink(v, i, nodes);
      SnapIs(nodes, Cut(h, this, i));
    }

    /** The updates of `RemoveChild` on the i-th child. */
    method Unlink(v: Node, ghost i: nat, ghost nodes: set<Node>)
      requires Coherent(Snap(nodes)) && this in nodes && i < |kids| && kids[i] == v
      modifies nodes
      ensures old(Snap(nodes)).Keys == nodes
      ensures forall m :: m in nodes ==> m.Now() == CutLink(old(Snap(nodes)), this, i, m)
    {
      hide Coherent, Snap;
      ghost var h := Snap(nodes);
      SnapAll(nodes);
      Neighbours(h, this, i);
      ghost var s := kids;
      ghost var prev, next := v.prev, v.next;
      assert Ref(prev) == Prev(s, i) && Ref(next) == Next(s, i) && (prev == null <==> i == 0) &&
          (next == null <==> i == |s| - 1);
      Detach(v);
      kids := kids[..i] + kids[i + 1..];
      forall m | m in nodes
        ensures m.Now() == CutLink(h, this, i, m)
      {
        assert Some(m) == Prev(s, i) <==> m == prev;
        assert Some(m) == Next(s, i) <==> m == next;
        hide Prev, Next, Ref;
        NoRef();
        assert h[m] == old(m.Now());
        assert m.next == if m == v then null else if m == prev then next else old(m.next);
        assert m.prev == if m == v then null else if m == next then prev else old(m.prev);
      }
    }

    method Detach(v: Node)
      requires v.prev != this && v.next != this && v != this && v.prev != v && v.next != v &&
          (v.prev == null || v.prev != v.next)
      modifies this`firstChild, this`lastChild, v`parent, v`prev, v`next
      modifies (if v.prev == null then {} else {v.prev})`next, (if v.next == null then {} else {v.next})`prev
      ensures v.parent == null && v.prev == null && v.next == null
      ensures firstChild == if old(v.prev) == null then old(v.next) else old(firstChild)
      ensures lastChild == if old(v.next) == null then old(v.prev) else old(lastChild)
      ensures old(v.prev) != null ==> old(v.prev).next == old(v.next)
      ensures old(v.next) != null ==> old(v.next).prev == old(v.prev)
    {
      var prev := v.prev;
      var next := v.next;
      if prev != null { prev.next := next; } else { firstChild := next; }
      if next != null { next.prev := prev; } else { lastChild := prev; }
      v.parent := null;
      v.prev := null;
      v.next := null;
    }

    /** `ensureIsolated` */
    static method EnsureIsolated(v: Node, ghost nodes: set<Node>)
      requires Coherent(Snap(nodes)) && v in nodes
      modifies nodes
      ensures Coherent(Snap(nodes)) && Snap(nodes) == Isolate(old(Snap(nodes)), v)
    {
      hide Coherent, Snap;
      ghost var h := Snap(nodes);
      SnapAll(nodes);
      if v.parent != null {
        KidOfParent(h, v, v.parent);
        var p: Node := v.parent;
        p.RemoveChild(v, nodes);
      }
    }

    /** The updates that put v between two siblings, or at an end. */
    method Attach(v: Node, before: Node?, after: Node?)
      requires before != this && after != this && v != this && before != v && after != v &&
          (before == null || before != after)
      modifies this`firstChild, this`lastChild, v`parent, v`prev, v`next
      modifies (if before == null then {} else {before})`next, (if after == null then {} else {after})`prev
      ensures v.parent == this && v.prev == before && v.next == after
      ensures firstChild == if before == null then v else old(firstChild)
      ensures lastChild == if after == null then v else old(lastChild)
      ensures before != null ==> before.next == v
      ensures after != null ==> after.prev == v
    {
      if before != null { before.next := v; } else { firstChild := v; }
      v.prev := before;
      if after != null { after.prev := v; } else { lastChild := v; }
      v.next := after;
      v.parent := this;
    }

    /** What a node without parent becomes as the i-th child. */
    method Insert(v: Node, before: Node?, after: Node?, ghost i: nat, ghost nodes: set<Node>)
      requires Coherent(Snap(nodes)) && this in nodes && v in nodes && v != this && v.parent == null && i <= |kids|
      requires Ref(before) == Prev(kids, i) && Ref(after) == At(kids, i)
      modifies nodes
      ensures old(Snap(nodes)).Keys == nodes && Coherent(Snap(nodes))
      ensures Snap(nodes) == Put(old(Snap(nodes)), this, i, v)
    {
      hide Coherent, Snap, Put, PutLink, Prev, At, Ref;
      ghost var h := Snap(nodes);
      SnapAll(nodes);
      NoRef();
      PutKeeps(h, this, i, v);
      PutAll(h, this, i, v);
      Hook(v, before, after, i, nodes);
      SnapIs(nodes, Put(h, this, i, v));
    }

    method Hook(v: Node, before: Node?, after: Node?, ghost i: nat, ghost nodes: set<Node>)
      requires Coherent(Snap(nodes)) && this in nodes && v in nodes && v != this && v.parent == null && i <= |kids|
      requires Ref(before) == Prev(kids, i) && Ref(after) == At(kids, i)
      modifies nodes
      ensures old(Snap(nodes)).Keys == nodes
      ensures forall m :: m in nodes ==> m.Now() == PutLink(old(Snap(nodes)), this, i, v, m)
    {
      hide Coherent, Snap;
      ghost var h := Snap(nodes);
      SnapAll(nodes);
      ghost var s := kids;
      Gap(h, this, i, v);
      assert before == null <==> i == 0;
      assert after == null <==> i == |s|;
      Attach(v, before, after);
      kids := kids[..i] + [v] + kids[i..];
      forall m | m in nodes
        ensures m.Now() == PutLink(h, this, i, v, m)
      {
        assert Some(m) == Prev(s, i) <==> m == before;
        assert Some(m) == At(s, i) <==> m == after;
        assert Ref(v) == Some(v) && Ref(this) == Some(this);
        hide Prev, At, Ref;
        assert h[m] == old(m.Now());
        assert m.next == if m == v then after else if m == before then v else old(m.next);
        assert m.prev == if m == v then before else if m == after then v else old(m.prev);
      }
    }

    /** `AppendChild`: v leaves the list it is in and becomes the last child. */
    method AppendChild(v: Node, ghost nodes: set<Node>)
      requires Coherent(Snap(nodes)) && this in nodes && v in nodes && v != this
      modifies nodes
      ensures this in old(Snap(nodes)) && v in old(Snap(nodes)) && Coherent(Snap(nodes))
      ensures Snap(nodes) == Inserted(old(Snap(nodes)), this, None, v)
    {
      hide Coherent, Snap, Put, Isolate, Inserted, Prev, At;
      ghost var h := Snap(nodes);
      SnapAt(nodes, this);
      SnapAt(nodes, v);
      Appends(h, this, v);
      EnsureIsolated(v, nodes);
      SnapAt(nodes, this);
      SnapAt(nodes, v);
      LastOf(Snap(nodes), this);
      Insert(v, lastChild, null, |kids|, nodes);
    }

    /** `InsertBefore` */
    method InsertBefore(v1: Node?, v: Node, ghost nodes: set<Node>)
      requires Coherent(Snap(nodes)) && this in nodes && v in nodes && v != this && (v1 == null || v1 in nodes)
      modifies nodes
      ensures this in old(Snap(nodes)) && v in old(Snap(nodes)) && Coherent(Snap(nodes))
      ensures Snap(nodes) == Inserted(old(Snap(nodes)), this, Ref(v1), v)
    {
      hide Coherent, Snap, Inserted;
      if v1 == null { AppendChild(v, nodes); } else { InsertBeforeChild(v1, v, nodes); }
    }

    method InsertBeforeChild(v1: Node, v: Node, ghost nodes: set<Node>)
      requires Coherent(Snap(nodes)) && this in nodes && v in nodes && v != this && v1 in nodes
      modifies nodes
      ensures this in old(Snap(nodes)) && v in old(Snap(nodes)) && Coherent(Snap(nodes))
      ensures Snap(nodes) == Inserted(old(Snap(nodes)), this, Some(v1), v)
    {
      hide Coherent, Snap, Put, Isolate, Inserted, Prev, At;
      ghost var h := Snap(nodes);
      SnapAt(nodes, this);
      SnapAt(nodes, v);
      SnapAt(nodes, v1);
      GoesBefore(h, this, v1, v);
      EnsureIsolated(v, nodes);
      SnapAt(nodes, this);
      SnapAt(nodes, v);
      SnapAt(nodes, v1);
      if v1.parent == this {
        ghost var g := Snap(nodes);
        KidOfParent(g, v1, this);
        ghost var i := Place(kids, v1);
        Neighbours(g, this, i);
        AtPlace(kids, i);
        Insert(v, v1.prev, v1, i, nodes);
      }
    }

    /** `InsertAfter` */
    method InsertAfter(v1: Node, v: Node, ghost nodes: set<Node>)
      requires Coherent(Snap(nodes)) && this in nodes && v in nodes && v != this && v1 in nodes
      modifies nodes
      ensures this in old(Snap(nodes)) && v in old(Snap(nodes)) && v1 in old(Snap(nodes)) && Coherent(Snap(nodes))
      ensures Snap(nodes) == InsertedAfter(old(Snap(nodes)), this, v1, v)
    {
      hide Coherent, Snap, Inserted;
      SnapAll(nodes);
      if v1.next != null { SiblingIn(Snap(nodes), v1); }
      InsertBefore(v1.next, v, nodes);
    }

    /** `ReplaceChild` */
    method ReplaceChild(v1: Node, v: Node, ghost nodes: set<Node>)
      requires Coherent(Snap(nodes)) && this in nodes && v in nodes && v != this && v1 in nodes
      modifies nodes
      ensures this in old(Snap(nodes)) && v in old(Snap(nodes)) && v1 in old(Snap(nodes)) && Coherent(Snap(nodes))
      ensures Snap(nodes) == Replaced(old(Snap(nodes)), this, v1, v)
    {
      hide Coherent, Snap, Inserted, Isolate;
      ghost var h := Snap(nodes);
      SnapAll(nodes);
      InsertedLists(h, this, Some(v1), v);
      InsertBefore(v1, v, nodes);
      SnapAt(nodes, v1);
      RemoveChild(v1, nodes);
    }

    /** `RemoveChildren` */
    method RemoveChildren(ghost nodes: set<Node>)
      requires Coherent(Snap(nodes)) && this in nodes
      modifies nodes
      ensures this in old(Snap(nodes)) && Coherent(Snap(nodes)) && Snap(nodes) == Clear(old(Snap(nodes)), this)
    {
      hide Coherent, Snap, Clear;
      ghost var h := Snap(nodes);
      SnapAll(nodes);
      ghost var s := kids;
      ChildFacts(h, this);
      FreeAll(h, s, nodes);
      firstChild := null;
      lastChild := null;
      kids := [];
      ClearKeeps(h, this);
      ClearAll(h, this);
      SnapIs(nodes, Clear(h, this));
    }

    /** The loop of `RemoveChildren`. */
    method FreeAll(ghost h: Links<Node>, ghost s: seq<Node>, ghost nodes: set<Node>)
      requires h.Keys == nodes && Ref(firstChild) == At(s, 0) && SiblingsIn(h, s)
      requires forall m :: m in nodes ==> m.Now() == h[m]
      modifies nodes`parent, nodes`prev, nodes`next
      ensures forall m :: m in nodes ==> m.Now() == Freed(h[m], m in s)
    {
      hide SiblingsIn, Freed, Next, At, Now;
      FreedNothing();
      var c := firstChild;
      ghost var i := 0;
      while c != null
        invariant i <= |s| && Ref(c) == At(s, i)
        invariant forall m :: m in nodes ==> m.Now() == Freed(h[m], m in s[..i])
        decreases |s| - i
      {
        SiblingAt(h, s, i);
        FreedNothing();
        assert c.Now() == h[c];
        var next := c.Free();
        c, i := next, i + 1;
      }
      AtLast(s, i);
    }

    method Free() returns (rest: Node?)
      modifies this`parent, this`prev, this`next
      ensures Ref(rest) == old(Now()).next && Now() == Freed(old(Now()), true)
    {
      parent := null;
      prev := null;
      rest := next;
      next := null;
    }

    /** Put x between two neighbours. */
    static method Splice(before: Node?, x: Node, after: Node?)
      requires before != x && after != x && (before == null || before != after)
      modifies x`next, x`prev, (if before == null then {} else {before})`next,
          (if after == null then {} else {after})`prev
      ensures x.prev == before && x.next == after
      ensures before != null ==> before.next == x
      ensures after != null ==> after.prev == x
    {
      x.next := after;
      x.prev := before;
      if after != null { after.prev := x; }
      if before != null { before.next := x; }
    }

    /** The inner loop of `SortChildren`: the last node that compares below x. */
    static method LastBelow(cmp: ChildOrder.Comparator<Node>, sorted: Node, x: Node, ghost s: seq<Node>,
        ghost nodes: set<Node>)
      returns (c: Node, ghost k: nat)
      requires Strung(Sibs(nodes), s) && s != [] && s[0] == sorted && cmp(sorted, x) < 0
      ensures k < |s| && s[k] == c && ChildOrder.Spot(cmp, s, x) == k + 1
    {
      hide ChildOrder.Spot;
      c := sorted;
      k := 0;
      while c.next != null && cmp(c.next, x) < 0
        invariant k < |s| && c == s[k] && forall j :: 0 <= j <= k ==> cmp(s[j], x) < 0
        decreases |s| - k
      {
        assert StrungAt(Sibs(nodes), s, k);
        c, k := c.next, k + 1;
      }
      assert StrungAt(Sibs(nodes), s, k);
      SpotIs(cmp, s, x, k + 1);
    }

    /** Put `current` into a sorted list that starts at `sorted`; the new start of the list. */
    static method InsertSorted(cmp: ChildOrder.Comparator<Node>, sorted: Node?, current: Node, ghost s: seq<Node>,
        ghost nodes: set<Node>)
      returns (head: Node)
      requires Strung(Sibs(nodes), s) && current !in s && current in nodes && Ref(sorted) == At(s, 0)
      modifies nodes`next, nodes`prev
      ensures var p := ChildOrder.Spot(cmp, s, current);
        && Sibs(nodes) == Spliced(old(Sibs(nodes)), s, p, current)
        && Ref(head) == At(s[..p] + [current] + s[p..], 0)
    {
      hide ChildOrder.Spot, Sibs, Strung, Spliced;
      ghost var p := 0;
      var before: Node? := null;
      var after: Node? := sorted;
      if sorted == null || cmp(sorted, current) >= 0 {
        SpotIs(cmp, s, current, 0);
        head := current;
      } else {
        ghost var k: nat;
        before, k := LastBelow(cmp, sorted, current, s, nodes);
        after := before.next;
        p := k + 1;
        head := sorted;
      }
      SibAt(nodes, s, p, before, after);
      SpliceAt(before, current, after, s, p, nodes);
    }

    /** `SortChildren`: the children in the order of the insertion sort, all links set anew. */
    method SortChildren(cmp: ChildOrder.Comparator<Node>, ghost nodes: set<Node>)
      requires Coherent(Snap(nodes)) && this in nodes
      modifies nodes
      ensures this in old(Snap(nodes)) && Coherent(Snap(nodes))
      ensures Snap(nodes) == Order(old(Snap(nodes)), this, ChildOrder.Sort(cmp, old(kids)))
    {
      hide Coherent, Snap, Sibs, Strung, Order, ChildOrder.Sort, Distinct, SiblingsIn, SameMembers, At, Prev;
      ghost var h := Snap(nodes);
      SnapAll(nodes);
      ghost var s := ChildOrder.Sort(cmp, kids);
      ChildFacts(h, this);
      FromSnap(h, kids, nodes);
      SortedChildren(cmp, h, this);
      OrderKeeps(h, this, s);
      var sorted := SortLinks(cmp, kids, nodes);
      Relink(sorted, s, h, nodes);
    }

    /** The end of `SortChildren`: the new ends of the list. */
    method Relink(sorted: Node?, ghost s: seq<Node>, ghost h: Links<Node>, ghost nodes: set<Node>)
      requires h.Keys == nodes && this in nodes && Strung(Sibs(nodes), s) && this !in s
      requires Ref(sorted) == At(s, 0) && (s == [] ==> lastChild == null)
      requires forall m :: m in nodes ==> m.Now() == h[m].(next := Ref(m.next), prev := Ref(m.prev))
      requires forall m :: m in nodes && m !in s ==> m.Now() == h[m]
      modifies this`firstChild, this`lastChild, this`kids
      ensures Snap(nodes) == Order(h, this, s)
    {
      hide Snap, Sibs, Strung, Order, At, Prev, Ref;
      firstChild := sorted;
      FindLast(s, nodes);
      kids := s;
      SortedSnap(h, this, s, nodes);
    }

    /** The main loop of `SortChildren`. */
    method SortLinks(cmp: ChildOrder.Comparator<Node>, ghost s: seq<Node>,
        ghost nodes: set<Node>) returns (sorted: Node?)
      requires Strung(Sibs(nodes), s) && Ref(firstChild) == At(s, 0)
      modifies nodes`next, nodes`prev
      ensures Strung(Sibs(nodes), ChildOrder.Sort(cmp, s)) && Ref(sorted) == At(ChildOrder.Sort(cmp, s), 0)
      ensures forall m :: m in nodes && m !in s ==> m.next == old(m.next) && m.prev == old(m.prev)
    {
      hide Strung, Sibs, ChildOrder.Sort, ChildOrder.Spot, Spliced, At, Next;
      ghost var l := Sibs(nodes);
      SibsAre(nodes);
      sorted := null;
      var current := firstChild;
      ghost var i := 0;
      NothingSorted(cmp, l, s);
      while current != null
        invariant i <= |s| && Ref(current) == At(s, i) && Ref(sorted) == At(ChildOrder.Sort(cmp, s[..i]), 0)
        invariant Strung(Sibs(nodes), ChildOrder.Sort(cmp, s[..i])) && Untouched(l, Sibs(nodes), s[..i])
        decreases |s| - i
      {
        var x: Node := current;
        ghost var now, t := Sibs(nodes), ChildOrder.Sort(cmp, s[..i]);
        NextToSort(cmp, l, now, s, i);
        NextOf(nodes, x);
        var next := x.next;
        sorted := InsertSorted(cmp, sorted, x, t, nodes);
        SplicedStrung(now, t, ChildOrder.Spot(cmp, t, x), x);
        OneMoreSorted(cmp, l, now, s, i);
        current, i := next, i + 1;
      }
      AtLast(s, i);
      UntouchedNodes(l, nodes, s);
    }

    /** The last loop of `SortChildren`. */
    method FindLast(ghost s: seq<Node>, ghost nodes: set<Node>)
      requires this in nodes && Strung(Sibs(nodes), s) && Ref(firstChild) == At(s, 0) && (s == [] ==> lastChild == null)
      modifies this`lastChild
      ensures Ref(lastChild) == Prev(s, |s|)
    {
      var c := firstChild;
      ghost var k := 0;
      while c != null
        invariant k <= |s| && Ref(c) == At(s, k) && (s == [] ==> lastChild == null)
        invariant k > 0 ==> lastChild == s[k - 1]
        decreases |s| - k
      {
        assert StrungAt(Sibs(nodes), s, k);
        lastChild := c;
        c, k := c.next, k + 1;
      }
    }

    static method SpliceAt(before: Node?, x: Node, after: Node?, ghost s: seq<Node>, ghost p: nat,
        ghost nodes: set<Node>)
      requires p <= |s| && Ref(before) == Prev(s, p) && Ref(after) == At(s, p) && x !in s && x in nodes
      requires (before != null ==> before in s && before in nodes) && (after != null ==> after in s && after in nodes)
      requires before == null || before != after
      modifies nodes`next, nodes`prev
      ensures Sibs(nodes) == Spliced(old(Sibs(nodes)), s, p, x)
    {
      Splice(before, x, after);
      forall m | m in nodes
        ensures Sibs(nodes)[m] == Spliced(old(Sibs(nodes)), s, p, x)[m]
      {
        assert Some(m) == Prev(s, p) <==> m == before;
        assert Some(m) == At(s, p) <==> m == after;
        assert Ref(x) == Some(x);
        hide Prev, At, Ref;
        assert m.next == if m == x then after else if m == before then x else old(m.next);
        assert m.prev == if m == x then before else if m == after then x else old(m.prev);
      }
    }
  }

  type Sib = (Option<Node>, Option<Node>)

  /** The sibling links of some nodes. */
  ghost function Sibs(nodes: set<Node>): map<Node, Sib>
    reads nodes`prev, nodes`next
  {
    map m | m in nodes :: (Ref(m.prev), Ref(m.next))
  }

  /** The nodes of a list are linked to their neighbours. */
  ghost predicate Strung(l: map<Node, Sib>, s: seq<Node>) {
    Distinct(s) && forall j :: 0 <= j < |s| ==> StrungAt(l, s, j)
  }

  ghost predicate StrungAt(l: map<Node, Sib>, s: seq<Node>, j: nat)
    requires j < |s|
  {
    s[j] in l && l[s[j]] == (Prev(s, j), Next(s, j))
  }

  ghost function Spliced(l: map<Node, Sib>, s: seq<Node>, p: nat, x: Node): map<Node, Sib>
    requires p <= |s|
  {
    map m | m in l ::
      (if m == x then Prev(s, p) else if Some(m) == At(s, p) then Some(x) else l[m].0,
       if m == x then At(s, p) else if Some(m) == Prev(s, p) then Some(x) else l[m].1)
  }

  /** The links of all nodes but some are as before. */
  ghost predicate Untouched(l: map<Node, Sib>, now: map<Node, Sib>, s: seq<Node>) {
    l.Keys == now.Keys && forall m :: m in l && m !in s ==> now[m] == l[m]
  }

  lemma UntouchedNodes(l: map<Node, Sib>, nodes: set<Node>, s: seq<Node>)
    requires Untouched(l, Sibs(nodes), s)
    ensures forall m :: m in nodes && m !in s ==> m in l && l[m] == (Ref(m.prev), Ref(m.next))
  {
    assert Sibs(nodes).Keys == nodes;
  }

  lemma SibsAre(nodes: set<Node>)
    ensures forall m :: m in nodes ==> m in Sibs(nodes) && Sibs(nodes)[m] == (Ref(m.prev), Ref(m.next))
  {
  }

  lemma FromSnap(h: Links<Node>, s: seq<Node>, nodes: set<Node>)
    requires SiblingsIn(h, s) && h == Snap(nodes)
    ensures Strung(Sibs(nodes), s)
  {
    forall j | 0 <= j < |s|
      ensures StrungAt(Sibs(nodes), s, j)
    {
      assert s[j] in nodes && h[s[j]] == s[j].Now();
    }
  }

  lemma NextOf(nodes: set<Node>, m: Node)
    requires m in Sibs(nodes)
    ensures m in nodes && Sibs(nodes)[m].1 == Ref(m.next)
  {
  }

  lemma NothingSorted(cmp: ChildOrder.Comparator<Node>, l: map<Node, Sib>, s: seq<Node>)
    ensures var t := ChildOrder.Sort(cmp, s[..0]);
      t == [] && At(t, 0) == None && Strung(l, t) && Untouched(l, l, s[..0])
  {
  }

  lemma SortMembers(cmp: ChildOrder.Comparator<Node>, s: seq<Node>, x: Node)
    ensures x in ChildOrder.Sort(cmp, s) <==> x in s
  {
    ChildOrder.SortPermutes(cmp, s);
    ChildOrder.Members(ChildOrder.Sort(cmp, s), s, x);
  }

  lemma NextToSort(cmp: ChildOrder.Comparator<Node>, l: map<Node, Sib>, now: map<Node, Sib>, s: seq<Node>, i: nat)
    requires Strung(l, s) && At(s, i).Some? && Untouched(l, now, s[..i])
    ensures i < |s| && At(s, i) == Some(s[i]) && s[i] in now && s[i] !in ChildOrder.Sort(cmp, s[..i]) &&
        now[s[i]].1 == At(s, i + 1)
  {
    hide ChildOrder.Sort;
    SortMembers(cmp, s[..i], s[i]);
    assert StrungAt(l, s, i);
  }

  lemma OneMoreSorted(cmp: ChildOrder.Comparator<Node>, l: map<Node, Sib>, now: map<Node, Sib>, s: seq<Node>, i: nat)
    requires i < |s| && Untouched(l, now, s[..i])
    ensures var t := ChildOrder.Sort(cmp, s[..i]);
      var p := ChildOrder.Spot(cmp, t, s[i]);
      && ChildOrder.Sort(cmp, s[..i + 1]) == t[..p] + [s[i]] + t[p..]
      && Untouched(l, Spliced(now, t, p, s[i]), s[..i + 1])
  {
    assert s[..i + 1][..i] == s[..i];
    var t := ChildOrder.Sort(cmp, s[..i]);
    var p := ChildOrder.Spot(cmp, t, s[i]);
    hide ChildOrder.Sort, ChildOrder.Spot;
    assert s[..i + 1] == s[..i] + [s[i]];
    forall m | m in l && m !in s[..i + 1]
      ensures Spliced(now, t, p, s[i])[m] == l[m]
    {
      SortMembers(cmp, s[..i], m);
    }
  }

  /** The sorted list holds the same children, each once. */
  lemma SortedChildren(cmp: ChildOrder.Comparator<Node>, h: Links<Node>, n: Node)
    requires n in h && Distinct(h[n].kids) && n !in h[n].kids
    ensures var s := ChildOrder.Sort(cmp, h[n].kids);
      Distinct(s) && SameMembers(h[n].kids, s) && n !in s && |s| == |h[n].kids| && forall m :: m in h[n].kids ==> m in s
  {
    hide ChildOrder.Sort, Distinct;
    var s := ChildOrder.Sort(cmp, h[n].kids);
    ChildOrder.SortPermutes(cmp, h[n].kids);
    DistinctByCount(h[n].kids, s);
    SameByCount(h[n].kids, s);
  }

  /** All links after sorting. */
  lemma SortedSnap(h: Links<Node>, n: Node, s: seq<Node>, nodes: set<Node>)
    requires h.Keys == nodes && n in nodes && Strung(Sibs(nodes), s) && n !in s
    requires Ref(n.firstChild) == At(s, 0) && Ref(n.lastChild) == Prev(s, |s|) && n.kids == s
    requires forall m :: m in nodes ==> Ref(m.parent) == h[m].parent
    requires forall m :: m in nodes && m != n ==>
      Ref(m.firstChild) == h[m].first && Ref(m.lastChild) == h[m].last && m.kids == h[m].kids
    requires forall m :: m in nodes && m !in s ==> Ref(m.next) == h[m].next && Ref(m.prev) == h[m].prev
    ensures Snap(nodes) == Order(h, n, s)
  {
    forall m | m in nodes
      ensures m.Now() == OrderLink(h, n, s, m)
    {
      if m in s { assert StrungAt(Sibs(nodes), s, Place(s, m)); }
    }
    SnapIs(nodes, Order(h, n, s));
  }

  lemma SplicedStrung(l: map<Node, Sib>, s: seq<Node>, p: nat, x: Node)
    requires p <= |s| && x !in s && x in l && Strung(l, s)
    ensures Strung(Spliced(l, s, p, x), s[..p] + [x] + s[p..])
  {
    hide Spliced, StrungAt, Distinct;
    var t := s[..p] + [x] + s[p..];
    DistinctInsert(s, p, x);
    forall j | 0 <= j < |t|
      ensures StrungAt(Spliced(l, s, p, x), t, j)
    {
      if j == p { SplicedNew(l, s, p, x); } else { SplicedOld(l, s, p, x, if j < p then j else j - 1); }
    }
  }

  lemma DistinctInsert(s: seq<Node>, p: nat, x: Node)
    requires p <= |s| && x !in s && Distinct(s)
    ensures var t := s[..p] + [x] + s[p..];
      Distinct(t) && forall j :: 0 <= j < |t| ==> t[j] == if j == p then x else s[if j < p then j else j - 1]
  {
    var t := s[..p] + [x] + s[p..];
    assert forall j :: 0 <= j < |t| ==> t[j] == if j == p then x else s[if j < p then j else j - 1];
  }

  lemma SplicedNew(l: map<Node, Sib>, s: seq<Node>, p: nat, x: Node)
    requires p <= |s| && x in l
    ensures var t := s[..p] + [x] + s[p..];
      StrungAt(Spliced(l, s, p, x), t, p)
  {
  }

  lemma SplicedOld(l: map<Node, Sib>, s: seq<Node>, p: nat, x: Node, j: nat)
    requires p <= |s| && x !in s && x in l && Strung(l, s) && j < |s|
    ensures var t, k := s[..p] + [x] + s[p..], if j < p then j else j + 1;
      StrungAt(Spliced(l, s, p, x), t, k)
  {
    assert StrungAt(l, s, j);
    assert p > 0 && j != p - 1 ==> s[j] != s[p - 1];
    assert p < |s| && j != p ==> s[j] != s[p];
  }

  /** The neighbours of a place in a strung list. */
  lemma SibAt(nodes: set<Node>, s: seq<Node>, p: nat, before: Node?, after: Node?)
    requires Strung(Sibs(nodes), s) && p <= |s|
    requires before == if p == 0 then null else s[p - 1]
    requires if p == 0 then Ref(after) == At(s, 0) else after == s[p - 1].next
    ensures Ref(before) == Prev(s, p) && Ref(after) == At(s, p) && (before == null || before != after)
    ensures (before != null ==> before in s && before in nodes) && (after != null ==> after in s && after in nodes)
  {
    if p > 0 { assert StrungAt(Sibs(nodes), s, p - 1); }
    if p < |s| { assert StrungAt(Sibs(nodes), s, p); }
  }

  /** The children of a node point at each other, and are nodes of h. */
  ghost predicate SiblingsIn(h: Links<Node>, s: seq<Node>) {
    Distinct(s) && forall i :: 0 <= i < |s| ==> s[i] in h && h[s[i]].next == Next(s, i) && h[s[i]].prev == Prev(s, i)
  }

  lemma SiblingAt(h: Links<Node>, s: seq<Node>, i: nat)
    requires SiblingsIn(h, s) && At(s, i).Some?
    ensures i < |s| && At(s, i) == Some(s[i]) && s[i] in h && h[s[i]].next == At(s, i + 1) && s[i] !in s[..i]
    ensures forall m :: m in s[..i + 1] <==> m == s[i] || m in s[..i]
  {
    assert s[..i + 1] == s[..i] + [s[i]];
  }

  lemma FreedNothing()
    ensures forall l: Link<Node> :: Freed(l, false) == l
    ensures forall l: Link<Node> :: Freed(l, true) == l.(parent := None, next := None, prev := None)
  {
  }

  lemma AtLast(s: seq<Node>, i: nat)
    requires i <= |s| && At(s, i) == None
    ensures s[..i] == s
  {
  }

  function Freed(l: Link<Node>, free: bool): Link<Node> {
    if free then l.(parent := None, next := None, prev := None) else l
  }

  lemma ChildFacts(h: Links<Node>, n: Node)
    requires Coherent(h) && n in h
    ensures var s := h[n].kids;
      h[n].first == At(s, 0) && n !in s && SiblingsIn(h, s) && Distinct(s) && (s == [] ==> h[n].last == None)
  {
    assert Ends(h[n]) && Chained(h, n);
    var s := h[n].kids;
    forall i | 0 <= i < |s|
      ensures s[i] in h && h[s[i]].next == Next(s, i) && h[s[i]].prev == Prev(s, i)
    {
      assert Placed(h, n, i);
    }
  }

  lemma ClearAll(h: Links<Node>, n: Node)
    requires n in h
    ensures Clear(h, n).Keys == h.Keys && forall m :: m in h ==> Clear(h, n)[m] == ClearLink(h, n, m)
  {
  }

  lemma SpotIs(cmp: ChildOrder.Comparator<Node>, s: seq<Node>, x: Node, p: nat)
    requires p <= |s| && (forall j :: 0 <= j < p ==> cmp(s[j], x) < 0) && (p < |s| ==> cmp(s[p], x) >= 0)
    ensures ChildOrder.Spot(cmp, s, x) == p
  {
    hide ChildOrder.Spot;
  }

  lemma Appends(h: Links<Node>, n: Node, v: Node)
    requires Coherent(h) && n in h && v in h
    ensures var g := Isolate(h, v);
      n in g && v in g && g[v].parent == None && Inserted(h, n, None, v) == Put(g, n, |g[n].kids|, v)
  {
    IsolateLists(h, v);
  }

  lemma GoesBefore(h: Links<Node>, n: Node, x: Node, v: Node)
    requires Coherent(h) && n in h && v in h && x in h
    ensures var g := Isolate(h, v);
      && n in g && v in g && x in g && g[v].parent == None
      && (g[x].parent != Some(n) ==> Inserted(h, n, Some(x), v) == g)
      && (g[x].parent == Some(n) ==> x in g[n].kids && Inserted(h, n, Some(x), v) == Put(g, n, Place(g[n].kids, x), v))
  {
    hide Isolate, Coherent, Put;
    IsolateLists(h, v);
    var g := Isolate(h, v);
    if g[x].parent == Some(n) { KidOfParent(g, x, n); }
  }

  lemma SiblingIn(h: Links<Node>, m: Node)
    requires Coherent(h) && m in h && h[m].next.Some?
    ensures h[m].next.value in h
  {
    assert Hangs(h, m);
    var p := h[m].parent.value;
    KidOfParent(h, m, p);
    NextSibling(h, p, Place(h[p].kids, m));
  }

  lemma AtPlace(s: seq<Node>, i: nat)
    requires i < |s|
    ensures At(s, i) == Some(s[i])
  {
  }

  lemma CutAll(h: Links<Node>, n: Node, i: nat)
    requires n in h && i < |h[n].kids|
    ensures Cut(h, n, i).Keys == h.Keys && forall m :: m in h ==> Cut(h, n, i)[m] == CutLink(h, n, i, m)
  {
  }

  lemma PutAll(h: Links<Node>, n: Node, i: nat, v: Node)
    requires n in h && i <= |h[n].kids|
    ensures Put(h, n, i, v).Keys == h.Keys && forall m :: m in h ==> Put(h, n, i, v)[m] == PutLink(h, n, i, v, m)
  {
  }

  lemma LastOf(h: Links<Node>, n: Node)
    requires Coherent(h) && n in h
    ensures h[n].last == Prev(h[n].kids, |h[n].kids|) && At(h[n].kids, |h[n].kids|) == None
  {
    assert Ends(h[n]);
  }

  /** The siblings between which a node is put. */
  lemma Gap(h: Links<Node>, n: Node, i: nat, v: Node)
    requires Coherent(h) && Loose(h, n, v) && i <= |h[n].kids|
    ensures var s := h[n].kids;
      && (i > 0 ==> s[i - 1] in h && s[i - 1] != n && s[i - 1] != v)
      && (i < |s| ==> s[i] in h && s[i] != n && s[i] != v)
      && (0 < i < |s| ==> s[i - 1] != s[i])
  {
    assert Chained(h, n);
    NotAChild(h, n, v);
    if i > 0 { assert Placed(h, n, i - 1); }
    if i < |h[n].kids| { assert Placed(h, n, i); }
  }

  lemma NoRef()
    ensures Ref(null) == None
  {
  }

  lemma SnapAll(nodes: set<Node>)
    ensures Snap(nodes).Keys == nodes && forall m :: m in nodes ==> Snap(nodes)[m] == m.Now()
  {
  }

  lemma SnapAt(nodes: set<Node>, n: Node)
    requires n in nodes
    ensures n in Snap(nodes) && Snap(nodes)[n] == n.Now()
  {
  }

  lemma SnapIs(nodes: set<Node>, h: Links<Node>)
    requires h.Keys == nodes && forall m :: m in nodes ==> m.Now() == h[m]
    ensures Snap(nodes) == h
  {
  }

  function Ref(n: Node?): Option<Node> {
    if n == null then None else Some(n)
  }

  /** The links of some nodes. */
  ghost function Snap(nodes: set<Node>): Links<Node>
    reads nodes
  {
    map n | n in nodes :: n.Now()
  }

  /** The links of a child, its neighbours and its parent. */
  lemma Neighbours(h: Links<Node>, n: Node, i: nat)
    requires Coherent(h) && n in h && i < |h[n].kids|
    ensures var s := h[n].kids;
      && s[i] in h && s[i] != n && h[s[i]].prev == Prev(s, i) && h[s[i]].next == Next(s, i)
      && (i > 0 ==> s[i - 1] in h && s[i - 1] != n && s[i - 1] != s[i])
      && (i < |s| - 1 ==> s[i + 1] in h && s[i + 1] != n && s[i + 1] != s[i])
      && (0 < i < |s| - 1 ==> s[i - 1] != s[i + 1])
  {
    assert Chained(h, n);
    assert Placed(h, n, i);
    if i > 0 { assert Placed(h, n, i - 1); }
    if i < |h[n].kids| - 1 { assert Placed(h, n, i + 1); }
  }
}
