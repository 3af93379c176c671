/**
  The links of an intrusive child list as values: what coherent links are, and that taking
  a node out of a list and putting it into one keep them coherent. Whether the nodes form a tree is not said: the
  source puts a node below its own descendant without complaint.
*/
module ChildLinks {
  import opened Basics

  /** The link fields of a node, and the list of its children that they encode. */
  datatype Link<!N> = Link(first: Option<N>, last: Option<N>, parent: Option<N>, next: Option<N>, prev: Option<N>,
      kids: seq<N>)

  type Links<!N> = map<N, Link<N>>

  // ---------- coherence ----------

  function Prev<N>(s: seq<N>, i: nat): Option<N>
    requires i <= |s|
  {
    if i == 0 then None else Some(s[i - 1])
  }

  function Next<N>(s: seq<N>, i: nat): Option<N>
    requires i < |s|
  {
    if i == |s| - 1 then None else Some(s[i + 1])
  }

  predicate Distinct<N(==)>(s: seq<N>) {
    forall i, j :: 0 <= i < j < |s| ==> s[i] != s[j]
  }

  predicate Ends<N(==)>(l: Link<N>) {
    && l.first == (if l.kids == [] then None else Some(l.kids[0]))
    && l.last == Prev(l.kids, |l.kids|)
  }

  /** A child points at its parent and its neighbours. */
  predicate Placed<N(==)>(h: Links<N>, n: N, i: nat)
    requires n in h && i < |h[n].kids|
  {
    var s := h[n].kids;
    s[i] in h && h[s[i]].parent == Some(n) && h[s[i]].prev == Prev(s, i) && h[s[i]].next == Next(s, i)
  }

  predicate Chained<N(==)>(h: Links<N>, n: N)
    requires n in h
  {
    Distinct(h[n].kids) && n !in h[n].kids && forall i :: 0 <= i < |h[n].kids| ==> Placed(h, n, i)
  }

  /** A child is in the list of its parent; a node without parent has no siblings. */
  predicate Hangs<N(==)>(h: Links<N>, m: N)
    requires m in h
  {
    match h[m].parent
    case None => h[m].prev == None && h[m].next == None
    case Some(p) => p in h && m in h[p].kids
  }

  predicate Coherent<N>(h: Links<N>) {
    && (forall n {:trigger Ends(h[n])} :: n in h ==> Ends(h[n]))
    && (forall n {:trigger Chained(h, n)} :: n in h ==> Chained(h, n))
    && (forall n {:trigger Hangs(h, n)} :: n in h ==> Hangs(h, n))
  }

  // ---------- taking a child out ----------

  function CutLink<N(==)>(h: Links<N>, n: N, i: nat, m: N): Link<N>
    requires n in h && m in h && i < |h[n].kids|
  {
    var l, s := h[m], h[n].kids;
    Link(
      if m == n && i == 0 then Next(s, i) else l.first,
      if m == n && i == |s| - 1 then Prev(s, i) else l.last,
      if m == s[i] then None else l.parent,
      if m == s[i] then None else if Some(m) == Prev(s, i) then Next(s, i) else l.next,
      if m == s[i] then None else if Some(m) == Next(s, i) then Prev(s, i) else l.prev,
      if m == n then s[..i] + s[i + 1..] else l.kids)
  }

  function Cut<N(==)>(h: Links<N>, n: N, i: nat): Links<N>
    requires n in h && i < |h[n].kids|
  {
    map m | m in h :: CutLink(h, n, i, m)
  }

  lemma CutEnds<N>(h: Links<N>, n: N, i: nat, m: N)
    requires n in h && m in h && i < |h[n].kids| && Ends(h[m])
    ensures Ends(CutLink(h, n, i, m))
  {
  }

  /** The children of another node are not touched. */
  lemma CutElsewhere<N>(h: Links<N>, n: N, i: nat, m: N)
    requires n in h && m in h && i < |h[n].kids| && Chained(h, n) && Chained(h, m) && m != n
    ensures Chained(Cut(h, n, i), m)
  {
    hide CutLink, Placed, Distinct;
    var h' := Cut(h, n, i);
    assert h'[m].kids == h[m].kids by { CutKids(h, n, i, m); }
    forall j | 0 <= j < |h[m].kids|
      ensures Placed(h', m, j)
    {
      assert Placed(h, m, j);
      OtherChild(h, n, i, m, j);
    }
  }

  lemma CutKids<N>(h: Links<N>, n: N, i: nat, m: N)
    requires n in h && m in h && i < |h[n].kids|
    ensures CutLink(h, n, i, m).kids == if m == n then h[n].kids[..i] + h[n].kids[i + 1..] else h[m].kids
  {
  }

  lemma OtherChild<N>(h: Links<N>, n: N, i: nat, m: N, j: nat)
    requires n in h && m in h && i < |h[n].kids| && Chained(h, n) && m != n && j < |h[m].kids| && Placed(h, m, j)
    ensures Placed(Cut(h, n, i), m, j)
  {
    hide Distinct;
    var k, s := h[m].kids[j], h[n].kids;
    assert Placed(h, n, i);
    if i > 0 { assert Placed(h, n, i - 1); }
    if i < |s| - 1 { assert Placed(h, n, i + 1); }
  }

  lemma CutHere<N>(h: Links<N>, n: N, i: nat)
    requires n in h && i < |h[n].kids| && Chained(h, n)
    ensures Chained(Cut(h, n, i), n)
  {
    hide CutLink;
    var h', s := Cut(h, n, i), h[n].kids;
    var t := s[..i] + s[i + 1..];
    CutKids(h, n, i, n);
    assert forall j :: 0 <= j < |t| ==> t[j] == s[if j < i then j else j + 1];
    forall j | 0 <= j < |t|
      ensures Placed(h', n, j)
    {
      Remaining(h, n, i, if j < i then j else j + 1);
    }
  }

  lemma Remaining<N>(h: Links<N>, n: N, i: nat, j: nat)
    requires n in h && i < |h[n].kids| && Chained(h, n) && j < |h[n].kids| && j != i
    ensures |Cut(h, n, i)[n].kids| == |h[n].kids| - 1 && Placed(Cut(h, n, i), n, if j < i then j else j - 1)
  {
    var s := h[n].kids;
    assert Placed(h, n, j);
    assert i > 0 && j != i - 1 ==> s[j] != s[i - 1];
    assert i < |s| - 1 && j != i + 1 ==> s[j] != s[i + 1];
  }

  lemma CutHangs<N>(h: Links<N>, n: N, i: nat, m: N)
    requires n in h && m in h && i < |h[n].kids| && Chained(h, n) && Hangs(h, m)
    ensures Hangs(Cut(h, n, i), m)
  {
    hide Distinct;
    var h', s := Cut(h, n, i), h[n].kids;
    assert Placed(h, n, i);
    if i > 0 { assert Placed(h, n, i - 1); }
    if i < |s| - 1 { assert Placed(h, n, i + 1); }
    if m != s[i] && h[m].parent == Some(n) {
      var j :| 0 <= j < |s| && s[j] == m;
      assert h'[n].kids[if j < i then j else j - 1] == m;
    }
  }

  /** Taking out a child keeps the links coherent. */
  lemma CutKeeps<N>(h: Links<N>, n: N, i: nat)
    requires Coherent(h) && n in h && i < |h[n].kids|
    ensures Coherent(Cut(h, n, i))
  {
    hide Ends, Chained, Hangs, CutLink;
    forall m | m in h
      ensures Ends(Cut(h, n, i)[m]) && Chained(Cut(h, n, i), m) && Hangs(Cut(h, n, i), m)
    {
      assert Ends(h[m]) && Chained(h, n) && Chained(h, m) && Hangs(h, m);
      CutEnds(h, n, i, m);
      if m == n { CutHere(h, n, i); } else { CutElsewhere(h, n, i, m); }
      CutHangs(h, n, i, m);
    }
  }

  // ---------- putting a child in ----------

  function PutLink<N(==)>(h: Links<N>, n: N, i: nat, v: N, m: N): Link<N>
    requires n in h && m in h && i <= |h[n].kids|
  {
    var l, s := h[m], h[n].kids;
    Link(
      if m == n && i == 0 then Some(v) else l.first,
      if m == n && i == |s| then Some(v) else l.last,
      if m == v then Some(n) else l.parent,
      if m == v then At(s, i) else if Some(m) == Prev(s, i) then Some(v) else l.next,
      if m == v then Prev(s, i) else if Some(m) == At(s, i) then Some(v) else l.prev,
      if m == n then s[..i] + [v] + s[i..] else l.kids)
  }

  function At<N>(s: seq<N>, i: nat): Option<N> {
    if i < |s| then Some(s[i]) else None
  }

  function Put<N(==)>(h: Links<N>, n: N, i: nat, v: N): Links<N>
    requires n in h && i <= |h[n].kids|
  {
    map m | m in h :: PutLink(h, n, i, v, m)
  }

  /** A node that can be put into the list of n. */
  predicate Loose<N(==)>(h: Links<N>, n: N, v: N) {
    n in h && v in h && v != n && h[v].parent == None
  }

  lemma PutEnds<N>(h: Links<N>, n: N, i: nat, v: N, m: N)
    requires n in h && m in h && i <= |h[n].kids| && Ends(h[m])
    ensures Ends(PutLink(h, n, i, v, m))
  {
  }

  lemma PutKids<N>(h: Links<N>, n: N, i: nat, v: N, m: N)
    requires n in h && m in h && i <= |h[n].kids|
    ensures PutLink(h, n, i, v, m).kids == if m == n then h[n].kids[..i] + [v] + h[n].kids[i..] else h[m].kids
  {
  }

  lemma PutElsewhere<N>(h: Links<N>, n: N, i: nat, v: N, m: N)
    requires Loose(h, n, v) && m in h && i <= |h[n].kids| && Chained(h, n) && Chained(h, m) && m != n
    ensures Chained(Put(h, n, i, v), m)
  {
    hide PutLink, Placed, Distinct;
    var h' := Put(h, n, i, v);
    assert h'[m].kids == h[m].kids by { PutKids(h, n, i, v, m); }
    forall j | 0 <= j < |h[m].kids|
      ensures Placed(h', m, j)
    {
      assert Placed(h, m, j);
      OtherChildPut(h, n, i, v, m, j);
    }
  }

  lemma OtherChildPut<N>(h: Links<N>, n: N, i: nat, v: N, m: N, j: nat)
    requires Loose(h, n, v) && m in h && i <= |h[n].kids| && Chained(h, n) && m != n && j < |h[m].kids| &&
        Placed(h, m, j)
    ensures Placed(Put(h, n, i, v), m, j)
  {
    hide Distinct;
    var s := h[n].kids;
    if i > 0 { assert Placed(h, n, i - 1); }
    if i < |s| { assert Placed(h, n, i); }
  }

  lemma PutHere<N>(h: Links<N>, n: N, i: nat, v: N)
    requires Loose(h, n, v) && i <= |h[n].kids| && Chained(h, n)
    ensures Chained(Put(h, n, i, v), n)
  {
    hide PutLink;
    var h', s := Put(h, n, i, v), h[n].kids;
    var t := s[..i] + [v] + s[i..];
    PutKids(h, n, i, v, n);
    NotAChild(h, n, v);
    assert forall j :: 0 <= j < |t| ==> t[j] == if j == i then v else s[if j < i then j else j - 1];
    forall j | 0 <= j < |t|
      ensures Placed(h', n, j)
    {
      if j == i { NewChild(h, n, i, v); } else { OldChild(h, n, i, v, if j < i then j else j - 1); }
    }
  }

  lemma NotAChild<N>(h: Links<N>, n: N, v: N)
    requires Loose(h, n, v) && Chained(h, n)
    ensures v !in h[n].kids
  {
    forall j | 0 <= j < |h[n].kids|
      ensures h[n].kids[j] != v
    {
      assert Placed(h, n, j);
    }
  }

  lemma NewChild<N>(h: Links<N>, n: N, i: nat, v: N)
    requires Loose(h, n, v) && i <= |h[n].kids|
    ensures |Put(h, n, i, v)[n].kids| == |h[n].kids| + 1 && Placed(Put(h, n, i, v), n, i)
  {
  }

  lemma OldChild<N>(h: Links<N>, n: N, i: nat, v: N, j: nat)
    requires Loose(h, n, v) && i <= |h[n].kids| && Chained(h, n) && j < |h[n].kids| && v !in h[n].kids
    ensures |Put(h, n, i, v)[n].kids| == |h[n].kids| + 1 && Placed(Put(h, n, i, v), n, if j < i then j else j + 1)
  {
    var s := h[n].kids;
    assert Placed(h, n, j);
    assert i > 0 && j != i - 1 ==> s[j] != s[i - 1];
    assert i < |s| && j != i ==> s[j] != s[i];
  }

  lemma PutHangs<N>(h: Links<N>, n: N, i: nat, v: N, m: N)
    requires Loose(h, n, v) && m in h && i <= |h[n].kids| && Chained(h, n) && Hangs(h, m)
    ensures Hangs(Put(h, n, i, v), m)
  {
    hide Distinct;
    var h', s := Put(h, n, i, v), h[n].kids;
    if i > 0 { assert Placed(h, n, i - 1); }
    if i < |s| { assert Placed(h, n, i); }
    assert h'[n].kids[i] == v;
    if m != v && h[m].parent == Some(n) {
      var j :| 0 <= j < |s| && s[j] == m;
      assert h'[n].kids[if j < i then j else j + 1] == m;
    }
  }

  /** Putting a node without parent into a list keeps the links coherent. */
  lemma PutKeeps<N>(h: Links<N>, n: N, i: nat, v: N)
    requires Coherent(h) && Loose(h, n, v) && i <= |h[n].kids|
    ensures Coherent(Put(h, n, i, v))
  {
    hide Ends, Chained, Hangs, PutLink, Loose;
    assert n in h by { LooseIn(h, n, v); }
    forall m | m in h
      ensures Ends(Put(h, n, i, v)[m]) && Chained(Put(h, n, i, v), m) && Hangs(Put(h, n, i, v), m)
    {
      assert Ends(h[m]) && Chained(h, n) && Chained(h, m) && Hangs(h, m);
      PutEnds(h, n, i, v, m);
      if m == n { PutHere(h, n, i, v); } else { PutElsewhere(h, n, i, v, m); }
      PutHangs(h, n, i, v, m);
    }
  }

  lemma LooseIn<N>(h: Links<N>, n: N, v: N)
    requires Loose(h, n, v)
    ensures n in h && v in h
  {
  }

  // ---------- a new list of the same children ----------

  /** The place of a node in a list. */
  ghost function Place<N>(s: seq<N>, v: N): (i: nat)
    requires v in s
    ensures i < |s| && s[i] == v
  {
    var i :| 0 <= i < |s| && s[i] == v;
    i
  }

  ghost function OrderLink<N>(h: Links<N>, n: N, t: seq<N>, m: N): Link<N>
    requires n in h && m in h
  {
    var l := h[m];
    Link(
      if m == n then At(t, 0) else l.first,
      if m == n then Prev(t, |t|) else l.last,
      l.parent,
      if m in t then Next(t, Place(t, m)) else l.next,
      if m in t then Prev(t, Place(t, m)) else l.prev,
      if m == n then t else l.kids)
  }

  ghost function Order<N>(h: Links<N>, n: N, t: seq<N>): Links<N>
    requires n in h
  {
    map m | m in h :: OrderLink(h, n, t, m)
  }

  predicate SameMembers<N(==)>(s: seq<N>, t: seq<N>) {
    (forall x :: x in s ==> x in t) && (forall x :: x in t ==> x in s)
  }

  lemma SameByCount<N>(s: seq<N>, t: seq<N>)
    requires multiset(s) == multiset(t)
    ensures SameMembers(s, t) && |s| == |t|
  {
    forall x
      ensures x in s <==> x in t
    {
      assert x in s <==> x in multiset(s);
      assert x in t <==> x in multiset(t);
    }
    assert |multiset(s)| == |s| && |multiset(t)| == |t|;
  }

  lemma {:induction false} CountOne<N>(s: seq<N>, x: N)
    requires Distinct(s)
    ensures multiset(s)[x] <= 1
  {
    if s != [] {
      assert s == [s[0]] + s[1..];
      CountOne(s[1..], x);
      if x == s[0] { assert x !in s[1..]; }
    }
  }

  lemma DistinctByCount<N>(s: seq<N>, t: seq<N>)
    requires Distinct(s) && multiset(s) == multiset(t)
    ensures Distinct(t)
  {
    forall i, j | 0 <= i < j < |t|
      ensures t[i] != t[j]
    {
      CountOne(s, t[i]);
      assert t == t[..i] + [t[i]] + t[i + 1..j] + [t[j]] + t[j + 1..];
      assert t[i] == t[j] ==> multiset(t)[t[i]] >= 2;
    }
  }

  /** No child of one node is a child of another. */
  lemma OneParent<N>(h: Links<N>, n: N, m: N, j: nat)
    requires n in h && m in h && Chained(h, n) && Chained(h, m) && m != n && j < |h[m].kids|
    ensures h[m].kids[j] !in h[n].kids
  {
    var k, s := h[m].kids[j], h[n].kids;
    assert Placed(h, m, j);
    forall i | 0 <= i < |s|
      ensures s[i] != k
    {
      assert Placed(h, n, i);
    }
  }

  lemma OrderChains<N>(h: Links<N>, n: N, t: seq<N>, m: N)
    requires n in h && m in h && Chained(h, n) && Chained(h, m) && Distinct(t) && SameMembers(h[n].kids, t)
    ensures Chained(Order(h, n, t), m)
  {
    var h', s := Order(h, n, t), h[n].kids;
    forall j | 0 <= j < |h'[m].kids|
      ensures Placed(h', m, j)
    {
      if m == n {
        assert t[j] in s;
        assert Placed(h, n, Place(s, t[j]));
        assert Place(t, t[j]) == j;
      } else {
        assert Placed(h, m, j);
        OneParent(h, n, m, j);
        assert h[m].kids[j] !in t;
      }
    }
  }

  /** Linking the same children in a new order keeps the links coherent. */
  lemma OrderKeeps<N>(h: Links<N>, n: N, t: seq<N>)
    requires Coherent(h) && n in h && Distinct(t) && SameMembers(h[n].kids, t)
    ensures Coherent(Order(h, n, t))
  {
    hide Chained, SameMembers;
    var h' := Order(h, n, t);
    forall m | m in h
      ensures Ends(h'[m]) && Chained(h', m) && Hangs(h', m)
    {
      assert Ends(h[m]) && Chained(h, n) && Chained(h, m) && Hangs(h, m);
      OrderChains(h, n, t, m);
      OrderHangs(h, n, t, m);
    }
  }

  lemma OrderHangs<N>(h: Links<N>, n: N, t: seq<N>, m: N)
    requires n in h && m in h && Chained(h, n) && Hangs(h, m) && SameMembers(h[n].kids, t)
    ensures Hangs(Order(h, n, t), m)
  {
    if m in t {
      assert m in h[n].kids;
      assert Placed(h, n, Place(h[n].kids, m));
    }
  }

  // ---------- no children at all ----------

  function ClearLink<N(==)>(h: Links<N>, n: N, m: N): Link<N>
    requires n in h && m in h
  {
    var l, s := h[m], h[n].kids;
    var freed := if m in s then l.(parent := None, next := None, prev := None) else l;
    if m == n then freed.(first := None, last := None, kids := []) else freed
  }

  function Clear<N(==)>(h: Links<N>, n: N): Links<N>
    requires n in h
  {
    map m | m in h :: ClearLink(h, n, m)
  }

  lemma ClearKeeps<N>(h: Links<N>, n: N)
    requires Coherent(h) && n in h
    ensures Coherent(Clear(h, n))
  {
    hide Chained;
    var h', s := Clear(h, n), h[n].kids;
    forall m | m in h
      ensures Ends(h'[m]) && Chained(h', m) && Hangs(h', m)
    {
      assert Ends(h[m]) && Chained(h, n) && Chained(h, m) && Hangs(h, m);
      ClearChains(h, n, m);
      ClearHangs(h, n, m);
    }
  }

  lemma ClearChains<N>(h: Links<N>, n: N, m: N)
    requires n in h && m in h && Chained(h, n) && Chained(h, m)
    ensures Chained(Clear(h, n), m)
  {
    var h', s := Clear(h, n), h[n].kids;
    if m != n {
      forall j | 0 <= j < |h[m].kids|
        ensures Placed(h', m, j)
      {
        assert Placed(h, m, j);
        OneParent(h, n, m, j);
      }
    }
  }

  lemma ClearHangs<N>(h: Links<N>, n: N, m: N)
    requires n in h && m in h && Chained(h, n) && Hangs(h, m)
    ensures Hangs(Clear(h, n), m)
  {
  }

  // ---------- isolating a node, and what it means for the lists ----------

  /** `ensureIsolated` */
  ghost function Isolate<N>(h: Links<N>, v: N): Links<N>
    requires Coherent(h) && v in h
  {
    match h[v].parent
    case None => h
    case Some(p) =>
      assert Hangs(h, v);
      Cut(h, p, Place(h[p].kids, v))
  }

  function Without<N(==)>(s: seq<N>, v: N): seq<N> {
    if s == [] then [] else if s[0] == v then s[1..] else [s[0]] + Without(s[1..], v)
  }

  lemma {:induction false} WithoutAt<N>(s: seq<N>, i: nat)
    requires i < |s| && Distinct(s)
    ensures Without(s, s[i]) == s[..i] + s[i + 1..]
  {
    if i > 0 {
      TailDistinct(s);
      WithoutAt(s[1..], i - 1);
      CutBehindHead(s, i);
    }
  }

  lemma TailDistinct<N>(s: seq<N>)
    requires Distinct(s) && s != []
    ensures Distinct(s[1..]) && forall i :: 0 < i < |s| ==> s[i] != s[0]
  {
  }

  lemma CutBehindHead<N>(s: seq<N>, i: nat)
    requires 0 < i < |s|
    ensures s[1..][i - 1] == s[i] && [s[0]] + (s[1..][..i - 1] + s[1..][i..]) == s[..i] + s[i + 1..]
  {
  }

  lemma {:induction false} WithoutOther<N>(s: seq<N>, v: N)
    requires v !in s
    ensures Without(s, v) == s
  {
    if s != [] { WithoutOther(s[1..], v); }
  }

  /** Isolating a node takes it out of every list, and out of no place else. */
  lemma IsolateLists<N>(h: Links<N>, v: N)
    requires Coherent(h) && v in h
    ensures var h' := Isolate(h, v);
      && Coherent(h') && h'.Keys == h.Keys && h'[v].parent == None
      && (forall m :: m in h ==> h'[m].kids == Without(h[m].kids, v))
      && (forall m :: m in h && m != v ==> h'[m].parent == h[m].parent)
  {
    hide Coherent, CutLink;
    var h' := Isolate(h, v);
    forall m | m in h
      ensures h'[m].kids == Without(h[m].kids, v) && h'[v].parent == None && (m != v ==> h'[m].parent == h[m].parent)
    {
      IsolateList(h, v, m);
    }
    match h[v].parent
    case None =>
    case Some(p) =>
      KidOfParent(h, v, p);
      CutKeeps(h, p, Place(h[p].kids, v));
  }

  lemma KidOfParent<N>(h: Links<N>, v: N, p: N)
    requires Coherent(h) && v in h && h[v].parent == Some(p)
    ensures p in h && v in h[p].kids && Distinct(h[p].kids)
  {
    assert Hangs(h, v);
    assert Chained(h, p);
  }

  lemma IsolateList<N>(h: Links<N>, v: N, m: N)
    requires Coherent(h) && v in h && m in h
    ensures var h' := Isolate(h, v);
      m in h' && v in h' && h'[m].kids == Without(h[m].kids, v) && h'[v].parent == None &&
          (m != v ==> h'[m].parent == h[m].parent)
  {
    hide Coherent;
    if h[v].parent == None || h[v].parent != Some(m) {
      NoKid(h, v, m);
      WithoutOther(h[m].kids, v);
    }
    match h[v].parent
    case None =>
    case Some(p) =>
      KidOfParent(h, v, p);
      WithoutAt(h[p].kids, Place(h[p].kids, v));
  }

  lemma NoKid<N>(h: Links<N>, v: N, m: N)
    requires Coherent(h) && v in h && m in h && h[v].parent != Some(m)
    ensures v !in h[m].kids
  {
    assert Chained(h, m);
    forall j | 0 <= j < |h[m].kids|
      ensures h[m].kids[j] != v
    {
      assert Placed(h, m, j);
    }
  }

  // ---------- the operations on whole forests ----------

  /** `InsertBefore`: v leaves its list, then goes to the end or before v1; if v1 is no child of n, v stays out. */
  ghost function Inserted<N>(h: Links<N>, n: N, v1: Option<N>, v: N): Links<N>
    requires Coherent(h) && n in h && v in h
  {
    IsolateLists(h, v);
    var g := Isolate(h, v);
    match v1
    case None => Put(g, n, |g[n].kids|, v)
    case Some(x) =>
      if x in g && g[x].parent == Some(n) then
        KidOfParent(g, x, n);
        Put(g, n, Place(g[n].kids, x), v)
      else g
  }

  /** Does v get into the list of n? */
  predicate Inserts<N(==)>(h: Links<N>, n: N, v1: Option<N>, v: N) {
    v1.None? || (v1.value != v && v1.value in h && h[v1.value].parent == Some(n))
  }

  /** A list with v before v1, or at its end. */
  ghost function WithBefore<N>(s: seq<N>, v1: Option<N>, v: N): seq<N>
    requires v1.Some? ==> v1.value in s
  {
    match v1
    case None => s + [v]
    case Some(x) => s[..Place(s, x)] + [v] + s[Place(s, x)..]
  }

  lemma PutLists<N>(h: Links<N>, n: N, i: nat, v: N)
    requires n in h && v in h && i <= |h[n].kids|
    ensures var h' := Put(h, n, i, v);
      && h'.Keys == h.Keys && h'[n].kids == h[n].kids[..i] + [v] + h[n].kids[i..] && h'[v].parent == Some(n)
      && (forall m :: m in h && m != n ==> h'[m].kids == h[m].kids)
      && (forall m :: m in h && m != v ==> h'[m].parent == h[m].parent)
  {
  }

  /** What InsertBefore does to the lists, and that the links stay coherent. */
  lemma InsertedLists<N>(h: Links<N>, n: N, v1: Option<N>, v: N)
    requires Coherent(h) && n in h && v in h && v != n
    ensures var h' := Inserted(h, n, v1, v);
      var s := Without(h[n].kids, v);
      && Coherent(h') && h'.Keys == h.Keys
      && (Inserts(h, n, v1, v) ==>
          (v1.Some? ==> v1.value in s) && h'[n].kids == WithBefore(s, v1, v) && h'[v].parent == Some(n))
      && (!Inserts(h, n, v1, v) ==> h'[n].kids == s && h'[v].parent == None)
      && (forall m :: m in h && m != n ==> h'[m].kids == Without(h[m].kids, v))
      && (forall m :: m in h && m != v ==> h'[m].parent == h[m].parent)
  {
    hide Coherent, Put, Isolate, Without;
    IsolateLists(h, v);
    var g := Isolate(h, v);
    match v1
    case None =>
      PutKeeps(g, n, |g[n].kids|, v);
      PutLists(g, n, |g[n].kids|, v);
    case Some(x) =>
      if x in g && g[x].parent == Some(n) {
        KidOfParent(g, x, n);
        PutKeeps(g, n, Place(g[n].kids, x), v);
        PutLists(g, n, Place(g[n].kids, x), v);
      }
  }

  /** `RemoveChild` */
  ghost function Removed<N>(h: Links<N>, n: N, v: N): Links<N>
    requires Coherent(h) && v in h
  {
    if h[v].parent == Some(n) then Isolate(h, v) else h
  }

  /** `ReplaceChild` */
  ghost function Replaced<N>(h: Links<N>, n: N, v1: N, v: N): Links<N>
    requires Coherent(h) && n in h && v in h && v1 in h && v != n
  {
    InsertedLists(h, n, Some(v1), v);
    Removed(Inserted(h, n, Some(v1), v), n, v1)
  }

  lemma InsertThenDrop<N>(s: seq<N>, i: nat, v: N)
    requires i < |s|
    ensures var r := s[..i] + [v] + s[i..];
      r[i + 1] == s[i] && r[..i + 1] + r[i + 2..] == s[i := v]
  {
  }

  /** Replacing a node by another one: it takes the place of a child of n; for any other node it is only taken out. */
  lemma ReplacedLists<N>(h: Links<N>, n: N, v1: N, v: N)
    requires Coherent(h) && n in h && v in h && v1 in h && v != n && v1 != v
    ensures var h' := Replaced(h, n, v1, v);
      var s := Without(h[n].kids, v);
      && Coherent(h') && h'.Keys == h.Keys
      && (h[v1].parent == Some(n) ==>
            v1 in s && h'[n].kids == s[Place(s, v1) := v] && h'[v1].parent == None && h'[v].parent == Some(n))
      && (h[v1].parent != Some(n) ==>
            h'[n].kids == s && h'[v1].parent == h[v1].parent && h'[v].parent == None)
      && (forall m :: m in h && m != n ==> h'[m].kids == Without(h[m].kids, v))
      && (forall m :: m in h && m != v && m != v1 ==> h'[m].parent == h[m].parent)
  {
    hide Coherent, Inserted, Isolate, Without, Distinct, WithBefore;
    InsertedLists(h, n, Some(v1), v);
    var g := Inserted(h, n, Some(v1), v);
    if h[v1].parent == Some(n) {
      IsolateLists(g, v1);
      var s := Without(h[n].kids, v);
      assert Without(g[n].kids, v1) == s[Place(s, v1) := v] by {
        KidOfParent(g, v1, n);
        ReplacedInList(s, v1, v);
      }
      forall m | m in h && m != n
        ensures Without(g[m].kids, v1) == g[m].kids
      {
        NoKid(g, v1, m);
        WithoutOther(g[m].kids, v1);
      }
    }
  }

  lemma ReplacedInList<N>(s: seq<N>, v1: N, v: N)
    requires v1 in s && Distinct(WithBefore(s, Some(v1), v))
    ensures Without(WithBefore(s, Some(v1), v), v1) == s[Place(s, v1) := v]
  {
    hide Without, Distinct;
    var i := Place(s, v1);
    InsertThenDrop(s, i, v);
    WithoutAt(WithBefore(s, Some(v1), v), i + 1);
  }

  /** A child replaced by itself is lost: it is taken out and never put back. */
  lemma ReplacedByItself<N>(h: Links<N>, n: N, v: N)
    requires Coherent(h) && n in h && v in h && v != n && h[v].parent == Some(n)
    ensures Replaced(h, n, v, v)[n].kids == Without(h[n].kids, v) && Replaced(h, n, v, v)[v].parent == None
  {
    hide Coherent, Isolate;
    InsertedLists(h, n, Some(v), v);
  }

  /** `InsertAfter` */
  ghost function InsertedAfter<N>(h: Links<N>, n: N, v1: N, v: N): Links<N>
    requires Coherent(h) && n in h && v in h && v1 in h
  {
    Inserted(h, n, h[v1].next, v)
  }

  /**
    InsertAfter puts v behind the child v1 unless v is there already: then it is taken out of the list, for the
    node before which it should go is v itself.
  */
  lemma InsertedAfterIff<N>(h: Links<N>, n: N, v1: N, v: N)
    requires Coherent(h) && n in h && v in h && v1 in h && v != n && v != v1 && h[v1].parent == Some(n)
    ensures var s := InsertedAfter(h, n, v1, v)[n].kids;
      (exists i :: 0 < i < |s| && s[i - 1] == v1 && s[i] == v) <==> h[v1].next != Some(v)
  {
    hide Coherent, Inserted, Distinct, Without, Inserts, WithBefore;
    KidOfParent(h, v1, n);
    var s := h[n].kids;
    var i := Place(s, v1);
    NextSibling(h, n, i);
    InsertedLists(h, n, h[v1].next, v);
    var r := InsertedAfter(h, n, v1, v)[n].kids;
    if h[v1].next == Some(v) {
      assert !Inserts(h, n, h[v1].next, v) by { NotBeforeItself(h, n, v); }
      NoneWithout(s, v);
    } else {
      assert Inserts(h, n, h[v1].next, v) by { BeforeSibling(h, n, h[v1].next, v); }
      StandsBehind(s, i, v);
    }
  }

  lemma NotBeforeItself<N>(h: Links<N>, n: N, v: N)
    ensures !Inserts(h, n, Some(v), v)
  {
  }

  lemma BeforeSibling<N>(h: Links<N>, n: N, x: Option<N>, v: N)
    requires x != Some(v) && (x.Some? ==> x.value in h && h[x.value].parent == Some(n))
    ensures Inserts(h, n, x, v)
  {
  }

  lemma NoneWithout<N>(s: seq<N>, v: N)
    requires Distinct(s)
    ensures v !in Without(s, v)
  {
    if v in s { WithoutAt(s, Place(s, v)); } else { WithoutOther(s, v); }
    hide Without;
  }

  /** A node put before the sibling of s[i], or at the end if there is none, stands behind s[i]. */
  lemma StandsBehind<N>(s: seq<N>, i: nat, v: N)
    requires i < |s| && Distinct(s) && s[i] != v && Next(s, i) != Some(v)
    requires Next(s, i).Some? ==> Next(s, i).value in Without(s, v)
    ensures var r := WithBefore(Without(s, v), Next(s, i), v);
      exists k :: 0 < k < |r| && r[k - 1] == s[i] && r[k] == v
  {
    hide Without, Distinct;
    AfterWithout(s, i, v);
    var t := Without(s, v);
    var r := WithBefore(t, Next(s, i), v);
    var k := Spot(s, i, v) + 1;
    assert r[k - 1] == s[i] && r[k] == v;
  }

  /** A node with two children: inserting the second behind the first takes it out of the list. */
  lemma SecondBehindFirst()
    ensures var h: Links<nat> := Family();
      Coherent(h) && h[0].kids == [1, 2] && InsertedAfter(h, 0, 1, 2)[0].kids == [1]
  {
    var h: Links<nat> := Family();
    FamilyIsCoherent();
    hide Coherent, Inserted;
    InsertedLists(h, 0, Some(2), 2);
    assert [1, 2][1..] == [2] && [2][1..] == [];
    assert Without([1, 2], 2) == [1];
  }

  function Family(): Links<nat> {
    map[
      0 := Link(Some(1), Some(2), None, None, None, [1, 2]),
      1 := Link(None, None, Some(0), Some(2), None, []),
      2 := Link(None, None, Some(0), None, Some(1), [])]
  }

  lemma FamilyIsCoherent()
    ensures Coherent(Family())
  {
    var h: Links<nat> := Family();
    assert forall n :: n in h ==> Ends(h[n]);
    assert Placed(h, 0, 0) && Placed(h, 0, 1);
    assert Chained(h, 0) && Chained(h, 1) && Chained(h, 2);
    assert 1 in h[0].kids && 2 in h[0].kids;
    assert Hangs(h, 0) && Hangs(h, 1) && Hangs(h, 2);
  }

  /** The place of the i-th element once another one is taken out. */
  ghost function Spot<N>(s: seq<N>, i: nat, v: N): int {
    if v in s && Place(s, v) < i then i - 1 else i
  }

  lemma NextSibling<N>(h: Links<N>, n: N, i: nat)
    requires Coherent(h) && n in h && i < |h[n].kids|
    ensures var s := h[n].kids;
      Distinct(s) && s[i] in h && h[s[i]].next == Next(s, i) &&
          (i < |s| - 1 ==> s[i + 1] in h && h[s[i + 1]].parent == Some(n))
  {
    assert Chained(h, n);
    assert Placed(h, n, i);
    if i < |h[n].kids| - 1 { assert Placed(h, n, i + 1); }
  }

  lemma AfterWithout<N>(s: seq<N>, i: nat, v: N)
    requires i < |s| && Distinct(s) && s[i] != v && Next(s, i) != Some(v)
    ensures var r, k := Without(s, v), Spot(s, i, v);
      && 0 <= k < |r| && r[k] == s[i]
      && (i == |s| - 1 <==> k == |r| - 1)
      && (i < |s| - 1 ==> k + 1 < |r| && r[k + 1] == s[i + 1] && s[i + 1] in r && Place(r, s[i + 1]) == k + 1)
  {
    hide Without, Distinct;
    if v in s {
      var j := Place(s, v);
      WithoutAt(s, j);
      AfterCut(s, i, j);
    } else {
      WithoutOther(s, v);
    }
    var r, k := Without(s, v), Spot(s, i, v);
    if i < |s| - 1 { PlaceIs(r, k + 1); }
  }

  lemma AfterCut<N>(s: seq<N>, i: nat, j: nat)
    requires i < |s| && j < |s| && Distinct(s) && j != i && j != i + 1
    ensures var r, k := s[..j] + s[j + 1..], if j < i then i - 1 else i;
      Distinct(r) && k < |r| && r[k] == s[i] && (i == |s| - 1 <==> k == |r| - 1) &&
          (i < |s| - 1 ==> r[k + 1] == s[i + 1])
  {
    var r := s[..j] + s[j + 1..];
    assert forall k :: 0 <= k < |r| ==> r[k] == s[if k < j then k else k + 1];
  }

  lemma PlaceIs<N>(s: seq<N>, k: nat)
    requires Distinct(s) && k < |s|
    ensures s[k] in s && Place(s, s[k]) == k
  {
  }
}
