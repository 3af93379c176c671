/**
  The route tree of utree/tree.go. The ghost map `at` of a root names every node by the tokens that lead
  to it; the routes a tree holds are the named nodes with a registered path.
*/
module RouteTree {
  import opened Basics
  import opened RoutePaths

  // ---------- names ----------

  /** The children of a named node are the names that are one token longer. */
  ghost predicate StepAt<N>(at: map<Path, N>, kids: map<Path, map<Byte, N>>, p: Path)
    requires p in at && p in kids
  {
    forall c: Byte :: (c in kids[p] <==> p + [c] in at) && (c in kids[p] ==> kids[p][c] == at[p + [c]])
  }

  predicate Injective<N(==)>(at: map<Path, N>) {
    forall p, q {:trigger at[p], at[q]} :: p in at && q in at && at[p] == at[q] ==> p == q
  }

  predicate PrefixClosed(names: set<Path>) {
    [] in names && forall p {:trigger ParentIn(names, p)} :: p in names ==> ParentIn(names, p)
  }

  predicate ParentIn(names: set<Path>, p: Path) {
    p == [] || p[..|p| - 1] in names
  }

  /** Names for the nodes of a tree. */
  ghost predicate Shape<N>(at: map<Path, N>, kids: map<Path, map<Byte, N>>) {
    kids.Keys == at.Keys && Injective(at) && PrefixClosed(at.Keys) &&
        forall p {:trigger StepAt(at, kids, p)} :: p in at ==> StepAt(at, kids, p)
  }

  lemma LastOf(p: Path, c: Byte)
    ensures (p + [c])[..|p + [c]| - 1] == p && (p + [c])[|p|] == c && p + [c] != []
  {
  }

  lemma GrowStep<N>(at: map<Path, N>, kids: map<Path, map<Byte, N>>, p: Path, c: Byte, n: N, r: Path, d: Byte)
    requires Shape(at, kids) && p in at && p + [c] !in at && (r in at || r == p + [c])
    ensures var q := p + [c];
      var at', kids' := at[q := n], kids[p := kids[p][c := n]][q := map[]];
      (d in kids'[r] <==> r + [d] in at') && (d in kids'[r] ==> kids'[r][d] == at'[r + [d]])
  {
    LastOf(r, d);
    LastOf(p, c);
    if r in at { assert StepAt(at, kids, r); }
    if r + [d] in at { assert ParentIn(at.Keys, r + [d]); }
  }

  lemma GrowShape<N>(at: map<Path, N>, kids: map<Path, map<Byte, N>>, p: Path, c: Byte, n: N)
    requires Shape(at, kids) && p in at && p + [c] !in at && n !in at.Values
    ensures Shape(at[p + [c] := n], kids[p := kids[p][c := n]][p + [c] := map[]])
  {
    var q := p + [c];
    var at', kids' := at[q := n], kids[p := kids[p][c := n]][q := map[]];
    forall r | r in at'
      ensures StepAt(at', kids', r)
    {
      forall d: Byte
        ensures (d in kids'[r] <==> r + [d] in at') && (d in kids'[r] ==> kids'[r][d] == at'[r + [d]])
      {
        GrowStep(at, kids, p, c, n, r, d);
      }
    }
    hide StepAt;
    LastOf(p, c);
    forall r | r in at'
      ensures ParentIn(at'.Keys, r)
    {
      if r in at { assert ParentIn(at.Keys, r); }
    }
    assert Injective(at') by { NewIsOther(at, q, n); }
  }

  lemma NewIsOther<N>(at: map<Path, N>, q: Path, n: N)
    requires Injective(at) && n !in at.Values
    ensures Injective(at[q := n])
  {
    var at' := at[q := n];
    forall r, s {:trigger at'[r], at'[s]} | r in at' && s in at' && at'[r] == at'[s]
      ensures r == s
    {
      assert r in at ==> at[r] in at.Values;
      assert s in at ==> at[s] in at.Values;
    }
  }

  // ---------- trees ----------

  class Tree<T> {
    var children: map<Byte, Tree<T>>
    var value: Option<T>
    var vpath: Option<Path>
    ghost var at: map<Path, Tree<T>>

    constructor ()
      ensures Valid() && Live() && Tidy() && Routes() == map[]
      ensures at == map[[] := this] && value == None && vpath == None && children == map[]
    {
      children := map[];
      vpath := None;
      value := None;
      new;
      at := map[[] := this];
      OneNode(this);
      EntriesAre(at, map[[] := Entry(None, None)]);
    }

    ghost predicate Valid()
      reads this`at, at.Values`children
    {
      Shape<Tree<T>>(at, Kids(at)) && at[[]] == this
    }

    /** The registered routes: the tokens of a route with its value and the path it was registered as. */
    ghost function Routes(): map<Path, Entry<T>>
      reads this`at, at.Values`value, at.Values`vpath
    {
      Registered(Entries(at))
    }

    /** Every node but the root lies on the way to a registered route, as long as none has been deleted. */
    ghost predicate Live()
      reads this`at, at.Values`value, at.Values`vpath
    {
      AllReached(at.Keys, Routes().Keys)
    }

    /** A node without a registered path holds no value. */
    ghost predicate Tidy()
      reads this`at, at.Values`value, at.Values`vpath
    {
      TidyEntries(Entries(at))
    }

    /** A new node below p. */
    method Grow(ghost p: Path, t: Tree<T>, c: Byte)
      requires Valid() && p in at && at[p] == t && p + [c] !in at
      modifies this`at, t`children
      ensures Valid() && p + [c] in at && fresh(at[p + [c]]) && at == old(at)[p + [c] := at[p + [c]]]
      ensures Entries(at) == old(Entries(at))[p + [c] := Entry(None, None)]
      ensures c in t.children && t.children[c] == at[p + [c]]
    {
      hide Shape, Kids, Entries, Injective;
      ghost var kids, entries := Kids(at), Entries(at);
      ShapeIs<Tree<T>>(at, kids);
      AllKids(at);
      AllEntries(at);
      OnlyName<Tree<T>>(at, p);
      var n := Hang(t, c);
      Named(at, kids, entries, p, c, n);
      at := at[p + [c] := n];
    }

    /** The child for a token, made if there is none. */
    method Child(ghost p: Path, t: Tree<T>, c: Byte) returns (n: Tree<T>)
      requires Valid() && p in at && at[p] == t
      modifies this`at, t`children
      ensures Valid() && p + [c] in at && at[p + [c]] == n
      ensures if p + [c] in old(at) then at == old(at) else fresh(n) && at == old(at)[p + [c] := n]
      ensures Entries(at) == With(old(Entries(at)), p + [c])
    {
      hide Shape, Entries;
      AllEntries(at);
      StepOf<Tree<T>>(at, Kids(at), p, c);
      AllKids(at);
      if c !in t.children { Grow(p, t, c); }
      n := t.children[c];
    }

    /** `Set` */
    method Set(route: Path, v: T)
      requires Valid()
      modifies this`at, at.Values`children, at.Values`value, at.Values`vpath
      ensures Valid() && Routes() == old(Routes())[Tokens(route) := Entry(Some(v), Some(route))]
      ensures (old(Live()) ==> Live()) && (old(Tidy()) ==> Tidy()) && fresh(at.Values - old(at.Values))
    {
      hide Shape, Entries, Tokens, Registered, Kids, AllReached, TidyEntries, Along;
      ghost var entries := Entries(at);
      AllEntries(at);
      var t := WalkTo(route);
      ghost var now := Entries(at);
      AllEntries(at);
      Put(t, Tokens(route), v, route);
      AllEntries(at);
      Registers(entries, now, Tokens(route), Entry(Some(v), Some(route)));
    }

    /** `get`: the node a request path leads to. */
    method Walk(route: Path) returns (r: Option<Tree<T>>)
      requires Valid()
      ensures var found := FindIn(at.Keys, [], route);
        if found.Some? then found.value in at && r == Some(at[found.value]) else r == None
    {
      hide Shape, Kids, FindIn;
      var t: Tree<T> := this;
      var i := 0;
      ghost var p: Path := [];
      assert route[0..] == route;
      ShapeIs<Tree<T>>(at, Kids(at));
      AllKids(at);
      while i < |route|
        invariant i <= |route| + 1 && p in at && at[p] == t &&
            FindIn(at.Keys, [], route) == FindIn(at.Keys, p, From(route, i))
        decreases |route| + 1 - i
      {
        FindStep(at.Keys, p, route, i);
        StepOf<Tree<T>>(at, Kids(at), p, STAR);
        StepOf<Tree<T>>(at, Kids(at), p, COLON);
        StepOf<Tree<T>>(at, Kids(at), p, route[i]);
        if STAR in t.children {
          return Some(t.children[STAR]);
        } else if COLON in t.children {
          t := t.children[COLON];
          p := p + [COLON];
          i := SlashReader(route, i);
        } else if route[i] !in t.children {
          return None;
        } else {
          t := t.children[route[i]];
          p := p + [route[i]];
        }
        i := i + 1;
      }
      assert From(route, i) == [];
      FindEnds(at.Keys, p);
      return Some(t);
    }

    /** `Get`: what the route holds that the path leads to, if it is registered. */
    method Get(route: Path) returns (v: Option<T>, path: Option<Path>)
      requires Valid()
      ensures var found := FindIn(at.Keys, [], route);
        if found.Some? && found.value in Routes() then Entry(v, path) == Routes()[found.value]
        else path == None && (Tidy() ==> v == None)
      ensures Live() ==> FindIn(at.Keys, [], route) == Find(Routes().Keys, [], route)
    {
      hide Shape, Kids, FindIn, Find, Entries, Registered, AllReached;
      AllEntries(at);
      ShapeIs<Tree<T>>(at, Kids(at));
      Closes<Tree<T>>(at, Kids(at));
      if Live() { FindAgrees(at.Keys, Routes().Keys, [], route); }
      IsRegistered(Entries(at), FindIn(at.Keys, [], route));
      var t := Walk(route);
      match t
      case None => return None, None;
      case Some(n) => return n.value, n.vpath;
    }

    /** `Delete`: the route a path leads to is no longer registered; its node stays. */
    method Delete(route: Path)
      requires Valid()
      modifies at.Values`value, at.Values`vpath
      ensures Valid() && at == old(at)
      ensures var found := FindIn(at.Keys, [], route);
        Routes() == if found.Some? then old(Routes()) - {found.value} else old(Routes())
      ensures old(Tidy()) ==> Tidy()
    {
      hide Shape, Kids, FindIn, Entries, Injective, Registered;
      ghost var now, found := Entries(at), FindIn(at.Keys, [], route);
      AllEntries(at);
      ShapeIs<Tree<T>>(at, Kids(at));
      var t := Walk(route);
      match t
      case None =>
      case Some(n) =>
        Clear(n, found.value);
        Unregister(now, found.value);
    }

    method Clear(t: Tree<T>, ghost p: Path)
      requires Valid() && p in at && at[p] == t
      modifies t`value, t`vpath
      ensures Valid() && Entries(at) == old(Entries(at))[p := Entry(None, None)]
    {
      hide Shape, Entries, Kids, Injective;
      ghost var now := Entries(at);
      AllEntries(at);
      ShapeIs<Tree<T>>(at, Kids(at));
      OnlyName<Tree<T>>(at, p);
      t.value := None;
      t.vpath := None;
      EntriesAre(at, now[p := Entry(None, None)]);
    }

    /** `Dump`: the registered routes below the root, in the order of their tokens. */
    method Dump() returns (out: seq<Entry<T>>)
      requires Valid()
      ensures var es := Entries(at);
        es.Keys == at.Keys && PrefixClosed(es.Keys) && out == EntriesOf(es, Listing(es, [], 0, Depth(es.Keys)))
    {
      hide Shape, Kids, Entries, Listing, EntriesOf, Depth, PrefixClosed;
      AllEntries(at);
      ShapeIs<Tree<T>>(at, Kids(at));
      Closes<Tree<T>>(at, Kids(at));
      out := DumpFrom([], this, Depth(Entries(at).Keys));
    }

    method DumpFrom(ghost p: Path, t: Tree<T>, ghost h: nat) returns (out: seq<Entry<T>>)
      requires Valid() && p in at && at[p] == t && forall q :: q in at ==> |q| <= h
      ensures Entries(at).Keys == at.Keys && out == EntriesOf(Entries(at), Listing(Entries(at), p, 0, h))
      decreases h - |p|, 1
    {
      hide Shape, Kids, Entries, Listing, EntriesOf, Listed;
      AllEntries(at);
      AllKids(at);
      out := [];
      ghost var es := Entries(at);
      ghost var done: seq<Path> := [];
      NoEntries(es);
      for i := 0 to 256
        invariant Listing(es, p, 0, h) == done + Listing(es, p, i, h) && Listed(es, done) && out == EntriesOf(es, done)
      {
        var c := i as Byte;
        ghost var q := p + [c];
        StepOf<Tree<T>>(at, Kids(at), p, c);
        ListingStep(es, p, i, h);
        if c in t.children {
          ghost var own := (if es[q].vpath.Some? then [q] else []) + Listing(es, q, 0, h);
          var below := DumpChild(q, t.children[c], h);
          EntriesMore(es, done, own);
          out := out + below;
          assert done + (own + Listing(es, p, i + 1, h)) == done + own + Listing(es, p, i + 1, h);
          done := done + own;
        } else {
          assert [] + Listing(es, p, i + 1, h) == Listing(es, p, i + 1, h);
        }
      }
      ListingEnds(es, p, h);
      assert done + [] == done;
    }

    /** A child and what is below it. */
    method DumpChild(ghost q: Path, n: Tree<T>, ghost h: nat) returns (out: seq<Entry<T>>)
      requires Valid() && q in at && at[q] == n && forall r :: r in at ==> |r| <= h
      ensures Entries(at).Keys == at.Keys
      ensures var own := (if Entries(at)[q].vpath.Some? then [q] else []) + Listing(Entries(at), q, 0, h);
        Listed(Entries(at), own) && out == EntriesOf(Entries(at), own)
      decreases h - |q|, 2
    {
      hide Shape, Kids, Entries, Listing, EntriesOf, Listed;
      AllEntries(at);
      ghost var es := Entries(at);
      var below := DumpFrom(q, n, h);
      NoEntries(es);
      OneListed(es, q);
      EntriesMore(es, if es[q].vpath.Some? then [q] else [], Listing(es, q, 0, h));
      out := (if n.vpath.Some? then [Entry(n.value, n.vpath)] else []) + below;
    }

    /** The loop of `Set`: the node of a route, made with all nodes on the way. */
    method WalkTo(route: Path) returns (t: Tree<T>)
      requires Valid()
      modifies this`at, at.Values`children
      ensures Valid() && Tokens(route) in at && at[Tokens(route)] == t
      ensures Along(old(Entries(at)), Entries(at), Tokens(route))
      ensures (t in old(at.Values) || fresh(t)) && fresh(at.Values - old(at.Values))
    {
      hide Shape, Entries, Tokens, Kids, Along, Behind;
      ghost var entries := Entries(at);
      AllEntries(at);
      t := this;
      var i := 0;
      ghost var p: Path, rest: Path := [], route;
      ShapeIs<Tree<T>>(at, Kids(at));
      AlongNothing(entries);
      ghost var nodes := at.Values;
      Whole(route);
      while i < |route|
        invariant i <= |route| + 1 && rest == From(route, i) && Tokens(route) == p + Tokens(rest)
        invariant Valid() && p in at && at[p] == t && Along(entries, Entries(at), p) && (t in nodes || fresh(t))
        invariant forall q :: q in at ==> at[q] in nodes || fresh(at[q])
        decreases |route| + 1 - i
      {
        TokensStep(route, p, rest);
        AlongMore(entries, Entries(at), p, route[i]);
        t := Child(p, t, route[i]);
        p, rest := p + [route[i]], Behind(rest);
        i := NextIndex(route, i);
      }
      NoTokens(p, rest);
    }

    method Put(t: Tree<T>, ghost p: Path, v: T, route: Path)
      requires Valid() && p in at && at[p] == t
      modifies t`value, t`vpath
      ensures Valid() && Entries(at) == old(Entries(at))[p := Entry(Some(v), Some(route))]
    {
      hide Shape, Entries, Kids, Injective;
      ghost var now := Entries(at);
      AllEntries(at);
      ShapeIs<Tree<T>>(at, Kids(at));
      OnlyName<Tree<T>>(at, p);
      t.value := Some(v);
      t.vpath := Some(route);
      EntriesAre(at, now[p := Entry(Some(v), Some(route))]);
    }

    static method Hang(t: Tree<T>, c: Byte) returns (n: Tree<T>)
      modifies t`children
      ensures fresh(n) && n.children == map[] && n.value == None && n.vpath == None &&
          t.children == old(t.children)[c := n]
    {
      n := new Tree<T>();
      t.children := t.children[c := n];
    }
  }

  lemma OnlyName<N>(at: map<Path, N>, p: Path)
    requires Injective(at) && p in at
    ensures forall r :: r in at ==> (at[r] == at[p] <==> r == p)
  {
  }

  /** The names once a node n hangs below p, given what was there before. */
  lemma Named<T>(at: map<Path, Tree<T>>, kids: map<Path, map<Byte, Tree<T>>>, entries: map<Path, Entry<T>>, p: Path,
      c: Byte, n: Tree<T>)
    requires Shape(at, kids) && entries.Keys == at.Keys && p in at && p + [c] !in at && n !in at.Values
    requires n.children == map[] && n.value == None && n.vpath == None && p in kids && at[p].children == kids[p][c := n]
    requires forall r :: r in at ==>
      (r != p ==> at[r].children == kids[r]) && Entry(at[r].value, at[r].vpath) == entries[r]
    ensures var now: map<Path, Tree<T>> := at[p + [c] := n];
      Shape(now, Kids(now)) && Entries(now) == entries[p + [c] := Entry(None, None)] && now[[]] == at[[]]
  {
    hide Shape, Kids, Entries;
    ShapeIs(at, kids);
    RootStays(p, c);
    var now: map<Path, Tree<T>> := at[p + [c] := n];
    var below: map<Byte, Tree<T>> := kids[p][c := n];
    GrowShape(at, kids, p, c, n);
    KidsAre(now, kids[p := below][p + [c] := map[]]);
    EntriesAre(now, entries[p + [c] := Entry(None, None)]);
  }

  lemma AllKids<T>(at: map<Path, Tree<T>>)
    ensures Kids(at).Keys == at.Keys && forall p :: p in at ==> Kids(at)[p] == at[p].children
  {
  }

  lemma KidsAre<T>(at: map<Path, Tree<T>>, kids: map<Path, map<Byte, Tree<T>>>)
    requires kids.Keys == at.Keys && forall p :: p in at ==> kids[p] == at[p].children
    ensures Kids(at) == kids
  {
  }

  lemma AllEntries<T>(at: map<Path, Tree<T>>)
    ensures Entries(at).Keys == at.Keys && forall p :: p in at ==> Entries(at)[p] == Entry(at[p].value, at[p].vpath)
  {
  }

  lemma EntriesAre<T>(at: map<Path, Tree<T>>, es: map<Path, Entry<T>>)
    requires es.Keys == at.Keys && forall p :: p in at ==> es[p] == Entry(at[p].value, at[p].vpath)
    ensures Entries(at) == es
  {
  }

  lemma RootStays(p: Path, c: Byte)
    ensures p + [c] != []
  {
  }

  lemma OneNode<T>(t: Tree<T>)
    requires t.children == map[]
    ensures var at: map<Path, Tree<T>> := map[[] := t]; Shape<Tree<T>>(at, Kids(at))
  {
    var at: map<Path, Tree<T>> := map[[] := t];
    forall c: Byte
      ensures [] + [c] !in at
    {
      assert |[] + [c]| == 1;
    }
  }

  lemma ShapeIs<N>(at: map<Path, N>, kids: map<Path, map<Byte, N>>)
    requires Shape(at, kids)
    ensures kids.Keys == at.Keys && Injective(at) && [] in at
  {
  }

  ghost function Kids<T>(at: map<Path, Tree<T>>): map<Path, map<Byte, Tree<T>>>
    reads at.Values`children
  {
    map p | p in at :: at[p].children
  }

  /** What a node holds: nothing, or a value and the path it was registered as. */
  datatype Entry<T> = Entry(value: Option<T>, vpath: Option<Path>)

  ghost function Entries<T>(at: map<Path, Tree<T>>): map<Path, Entry<T>>
    reads at.Values`value, at.Values`vpath
  {
    map p | p in at :: Entry(at[p].value, at[p].vpath)
  }

  function Registered<T>(es: map<Path, Entry<T>>): map<Path, Entry<T>> {
    map p | p in es && es[p].vpath.Some? :: es[p]
  }

  // ---------- what Set does ----------

  /** A name, made with nothing in it if it is new. */
  function With<T>(es: map<Path, Entry<T>>, q: Path): map<Path, Entry<T>> {
    if q in es then es else es[q := Entry(None, None)]
  }

  predicate Prefix(q: Path, p: Path) {
    q <= p
  }

  /** The names of a tree, and those on the way to p. */
  ghost predicate Along<T>(before: map<Path, Entry<T>>, now: map<Path, Entry<T>>, p: Path) {
    && (forall q :: q in now <==> q in before || Prefix(q, p))
    && (forall q :: q in now ==> now[q] == if q in before then before[q] else Entry(None, None))
  }

  lemma AlongNothing<T>(es: map<Path, Entry<T>>)
    requires [] in es
    ensures Along(es, es, [])
  {
  }

  lemma AlongMore<T>(before: map<Path, Entry<T>>, now: map<Path, Entry<T>>, p: Path, c: Byte)
    requires Along(before, now, p)
    ensures Along(before, With(now, p + [c]), p + [c])
  {
    forall q: Path
      ensures Prefix(q, p + [c]) <==> Prefix(q, p) || q == p + [c]
    {
      if q <= p + [c] && |q| <= |p| { assert (p + [c])[..|q|] == p[..|q|]; }
    }
  }

  lemma AlongRegistered<T>(before: map<Path, Entry<T>>, now: map<Path, Entry<T>>, p: Path, e: Entry<T>)
    requires Along(before, now, p) && e.vpath.Some?
    ensures Registered(now[p := e]) == Registered(before)[p := e]
  {
    assert Prefix(p, p);
  }

  function From(a: Path, i: nat): Path {
    if i <= |a| then a[i..] else []
  }

  lemma Whole(a: Path)
    ensures From(a, 0) == a && [] + Tokens(a) == Tokens(a)
  {
  }

  lemma TokensStep(a: Path, p: Path, rest: Path)
    requires rest != [] && Tokens(a) == p + Tokens(rest)
    ensures Tokens(a) == p + [rest[0]] + Tokens(Behind(rest))
  {
    hide Tokens;
    TokensHead(rest);
    assert p + ([rest[0]] + Tokens(Behind(rest))) == p + [rest[0]] + Tokens(Behind(rest));
  }

  /** Where the loop of Set goes on behind the token at i; past the end if it stops at a star. */
  method NextIndex(a: Path, i: nat) returns (k: nat)
    requires i < |a|
    ensures i < k <= |a| + 1 && From(a, k) == Behind(From(a, i))
  {
    var rest := a[i..];
    assert rest[0] == a[i] && rest[1..] == a[i + 1..];
    if a[i] == COLON {
      k := SlashReader(a, i);
      k := k + 1;
    } else if a[i] == STAR {
      k := |a| + 1;
    } else {
      k := i + 1;
    }
  }

  lemma NoTokens(p: Path, rest: Path)
    requires rest == []
    ensures p + Tokens(rest) == p
  {
  }

  lemma StepOf<N>(at: map<Path, N>, kids: map<Path, map<Byte, N>>, p: Path, c: Byte)
    requires Shape(at, kids) && p in at
    ensures p in kids && (c in kids[p] <==> p + [c] in at) && (c in kids[p] ==> kids[p][c] == at[p + [c]])
  {
    assert StepAt(at, kids, p);
  }

  method SlashReader(a: Path, i: nat) returns (k: nat)
    requires i <= |a|
    ensures k == i + SlashEnd(a[i..])
  {
    k := i;
    while k < |a| && a[k] != SLASH
      invariant i <= k <= |a| && i + SlashEnd(a[i..]) == k + SlashEnd(a[k..])
    {
      assert a[k..][1..] == a[k + 1..];
      k := k + 1;
    }
  }

  // ---------- what Get finds ----------

  ghost predicate AllReached(names: set<Path>, routes: set<Path>) {
    (forall p :: p in names && p != [] ==> Reaches(routes, p)) && (forall r :: r in routes ==> r in names)
  }

  lemma StillReached<T>(before: map<Path, Entry<T>>, now: map<Path, Entry<T>>, q: Path, routes: set<Path>)
    requires Along(before, now, q) && AllReached(before.Keys, routes)
    ensures AllReached(now.Keys, routes + {q}) && q in now
  {
    assert Prefix(q, q);
    forall p | p in now && p != []
      ensures Reaches(routes + {q}, p)
    {
      if p in before {
        assert Reaches(routes, p);
        var r :| r in routes && p <= r;
        assert r in routes + {q};
      } else {
        assert Prefix(p, q);
        assert q in routes + {q};
      }
    }
  }

  /** What a new entry does to the routes, given the nodes made on its way. */
  lemma Registers<T>(before: map<Path, Entry<T>>, now: map<Path, Entry<T>>, p: Path, e: Entry<T>)
    requires Along(before, now, p) && e.vpath.Some?
    ensures var after := now[p := e];
      && Registered(after) == Registered(before)[p := e]
      && (AllReached(before.Keys, Registered(before).Keys) ==> AllReached(after.Keys, Registered(after).Keys))
      && (TidyEntries(before) ==> TidyEntries(after))
  {
    hide Registered, AllReached, TidyEntries, Along;
    var after := now[p := e];
    AlongRegistered(before, now, p, e);
    if AllReached(before.Keys, Registered(before).Keys) {
      StillReached(before, now, p, Registered(before).Keys);
      assert Registered(after).Keys == Registered(before).Keys + {p} && after.Keys == now.Keys;
    }
    if TidyEntries(before) { StillTidy(before, now, p, e); }
  }

  ghost predicate TidyEntries<T>(es: map<Path, Entry<T>>) {
    forall p :: p in es && es[p].vpath.None? ==> es[p].value.None?
  }

  lemma StillTidy<T>(before: map<Path, Entry<T>>, now: map<Path, Entry<T>>, p: Path, e: Entry<T>)
    requires Along(before, now, p) && TidyEntries(before) && e.vpath.Some?
    ensures TidyEntries(now[p := e])
  {
  }

  lemma Unregister<T>(es: map<Path, Entry<T>>, p: Path)
    ensures Registered(es[p := Entry(None, None)]) == Registered(es) - {p}
  {
  }

  /** The walk of `get`, by the names of the nodes. */
  function FindIn(names: set<Path>, p: Path, a: Path): Option<Path>
    decreases |a|
  {
    if a == [] then Some(p)
    else if p + [STAR] in names then Some(p + [STAR])
    else if p + [COLON] in names then FindIn(names, p + [COLON], AfterSlash(a))
    else if p + [a[0]] in names then FindIn(names, p + [a[0]], a[1..])
    else None
  }

  lemma FindStep(names: set<Path>, p: Path, a: Path, i: nat)
    requires i < |a|
    ensures FindIn(names, p, From(a, i)) ==
      if p + [STAR] in names then Some(p + [STAR])
      else if p + [COLON] in names then FindIn(names, p + [COLON], From(a, i + SlashEnd(a[i..]) + 1))
      else if p + [a[i]] in names then FindIn(names, p + [a[i]], From(a, i + 1))
      else None
  {
    hide FindIn, SlashEnd;
    var rest := a[i..];
    assert rest[0] == a[i] && rest[1..] == a[i + 1..];
    RestAfterSlash(a, i);
    FindOnce(names, p, rest);
  }

  lemma RestAfterSlash(a: Path, i: nat)
    requires i < |a|
    ensures AfterSlash(a[i..]) == From(a, i + SlashEnd(a[i..]) + 1)
  {
    hide SlashEnd;
    var k := SlashEnd(a[i..]);
    if k < |a[i..]| { assert a[i..][k + 1..] == a[i + k + 1..]; }
  }

  lemma FindOnce(names: set<Path>, p: Path, a: Path)
    requires a != []
    ensures FindIn(names, p, a) ==
      if p + [STAR] in names then Some(p + [STAR])
      else if p + [COLON] in names then FindIn(names, p + [COLON], AfterSlash(a))
      else if p + [a[0]] in names then FindIn(names, p + [a[0]], a[1..])
      else None
  {
    hide AfterSlash;
  }

  lemma FindEnds(names: set<Path>, p: Path)
    ensures FindIn(names, p, []) == Some(p)
  {
  }

  /** A name is a node just when some registered route continues it. */
  lemma NameIff(names: set<Path>, routes: set<Path>, p: Path, c: Byte)
    requires AllReached(names, routes) && PrefixClosed(names)
    ensures p + [c] in names <==> Reaches(routes, p + [c])
  {
    LastOf(p, c);
    if Reaches(routes, p + [c]) {
      var r :| r in routes && p + [c] <= r;
      PrefixIn(names, r, |p + [c]|);
      assert r[..|p + [c]|] == p + [c];
    }
  }

  lemma {:induction false} PrefixIn(names: set<Path>, r: Path, n: nat)
    requires PrefixClosed(names) && r in names && n <= |r|
    ensures r[..n] in names
    decreases |r| - n
  {
    if n == |r| {
      assert r[..n] == r;
    } else {
      PrefixIn(names, r, n + 1);
      assert ParentIn(names, r[..n + 1]);
      assert r[..n + 1][..n] == r[..n];
    }
  }

  lemma Closes<N>(at: map<Path, N>, kids: map<Path, map<Byte, N>>)
    requires Shape(at, kids)
    ensures PrefixClosed(at.Keys)
  {
  }

  /** The walk through the tree is the search among the registered routes. */
  lemma {:induction false} FindAgrees(names: set<Path>, routes: set<Path>, p: Path, a: Path)
    requires AllReached(names, routes) && PrefixClosed(names)
    ensures FindIn(names, p, a) == Find(routes, p, a)
    decreases |a|
  {
    if a != [] {
      NameIff(names, routes, p, STAR);
      NameIff(names, routes, p, COLON);
      NameIff(names, routes, p, a[0]);
      if p + [STAR] !in names {
        if p + [COLON] in names {
          FindAgrees(names, routes, p + [COLON], AfterSlash(a));
        } else if p + [a[0]] in names {
          FindAgrees(names, routes, p + [a[0]], a[1..]);
        }
      }
    }
  }

  lemma IsRegistered<T>(es: map<Path, Entry<T>>, found: Option<Path>)
    ensures found.Some? && found.value in es ==>
      if es[found.value].vpath.Some? then found.value in Registered(es) &&
          Registered(es)[found.value] == es[found.value]
      else found.value !in Registered(es)
    ensures found.Some? && found.value in Registered(es) ==> found.value in es
  {
  }

  // ---------- what Dump lists ----------

  predicate Listed<T>(es: map<Path, Entry<T>>, ps: seq<Path>) {
    forall i :: 0 <= i < |ps| ==> ps[i] in es
  }

  function EntriesOf<T>(es: map<Path, Entry<T>>, ps: seq<Path>): seq<Entry<T>>
    requires Listed(es, ps)
  {
    seq(|ps|, i requires 0 <= i < |ps| => es[ps[i]])
  }

  lemma NoEntries<T>(es: map<Path, Entry<T>>)
    ensures Listed(es, []) && EntriesOf(es, []) == []
  {
  }

  lemma OneListed<T>(es: map<Path, Entry<T>>, q: Path)
    requires q in es
    ensures Listed(es, [q]) && EntriesOf(es, [q]) == [es[q]]
  {
  }

  lemma EntriesMore<T>(es: map<Path, Entry<T>>, ps: seq<Path>, qs: seq<Path>)
    requires Listed(es, ps) && Listed(es, qs)
    ensures Listed(es, ps + qs) && EntriesOf(es, ps + qs) == EntriesOf(es, ps) + EntriesOf(es, qs)
  {
  }

  /** The registered names below p, from the c-th child on: a node before what is below it, children in order. */
  function Listing<T>(es: map<Path, Entry<T>>, p: Path, c: nat, h: nat): (r: seq<Path>)
    requires forall q :: q in es ==> |q| <= h
    ensures Listed(es, r)
    decreases h - |p|, 256 - c
  {
    if c >= 256 || |p| >= h then []
    else
      var q := p + [c as Byte];
      (if q in es then (if es[q].vpath.Some? then [q] else []) + Listing(es, q, 0, h) else [])
          + Listing(es, p, c + 1, h)
  }

  lemma ListingStep<T>(es: map<Path, Entry<T>>, p: Path, c: nat, h: nat)
    requires (forall q :: q in es ==> |q| <= h) && c < 256
    ensures var q := p + [c as Byte];
      && (q in es ==> |p| < h)
      && Listing(es, p, c, h) ==
         (if q in es then (if es[q].vpath.Some? then [q] else []) + Listing(es, q, 0, h) else [])
             + Listing(es, p, c + 1, h)
  {
    assert |p + [c as Byte]| == |p| + 1;
  }

  lemma ListingEnds<T>(es: map<Path, Entry<T>>, p: Path, h: nat)
    requires forall q :: q in es ==> |q| <= h
    ensures Listing(es, p, 256, h) == []
  {
  }

  /** A registered name below p, through the c-th child or a later one. */
  predicate Below<T>(es: map<Path, Entry<T>>, p: Path, c: nat, r: Path) {
    r in es && es[r].vpath.Some? && |p| < |r| && p <= r && r[|p|] as int >= c
  }

  lemma BelowSplits<T>(es: map<Path, Entry<T>>, p: Path, c: nat, r: Path)
    requires PrefixClosed(es.Keys) && c < 256
    ensures var q := p + [c as Byte];
      Below(es, p, c, r) <==>
        (q in es && ((r == q && es[q].vpath.Some?) || Below(es, q, 0, r))) || Below(es, p, c + 1, r)
  {
    var q := p + [c as Byte];
    if Below(es, p, c, r) && r[|p|] == c as Byte {
      PrefixIn(es.Keys, r, |q|);
      assert r[..|q|] == q;
      assert |r| == |q| ==> r == r[..|q|];
    }
    if Below(es, q, 0, r) { assert r[|p|] == q[|p|] && p == q[..|p|]; }
  }

  /** Dump lists every registered route below the root, and nothing else. */
  lemma {:induction false} ListingIff<T>(es: map<Path, Entry<T>>, p: Path, c: nat, h: nat, r: Path)
    requires PrefixClosed(es.Keys) && (forall q :: q in es ==> |q| <= h) && c <= 256
    ensures r in Listing(es, p, c, h) <==> Below(es, p, c, r)
    decreases h - |p|, 256 - c
  {
    if c < 256 && |p| < h {
      var q := p + [c as Byte];
      BelowSplits(es, p, c, r);
      ListingIff(es, p, c + 1, h, r);
      if q in es { ListingIff(es, q, 0, h, r); }
    }
  }

  /** Byte by byte, a comes before b: it is a proper prefix, or smaller where they first differ. */
  ghost predicate Lexical(a: Path, b: Path) {
    exists n: nat :: SmallerAt(a, b, n)
  }

  predicate SmallerAt(a: Path, b: Path, n: nat) {
    n <= |a| && n < |b| && a[..n] == b[..n] && (n == |a| || a[n] < b[n])
  }

  ghost predicate Ascending(ps: seq<Path>) {
    forall i, j :: 0 <= i < j < |ps| ==> Lexical(ps[i], ps[j])
  }

  lemma AscendingOnce(ps: seq<Path>, i: nat, j: nat)
    requires Ascending(ps) && i < j < |ps|
    ensures ps[i] != ps[j]
  {
  }

  ghost predicate AllBefore(ps: seq<Path>, qs: seq<Path>) {
    forall i, j :: 0 <= i < |ps| && 0 <= j < |qs| ==> Lexical(ps[i], qs[j])
  }

  lemma AscendingBoth(ps: seq<Path>, qs: seq<Path>)
    requires Ascending(ps) && Ascending(qs) && AllBefore(ps, qs)
    ensures Ascending(ps + qs)
  {
    hide Lexical;
    forall i, j | 0 <= i < j < |ps + qs|
      ensures Lexical((ps + qs)[i], (ps + qs)[j])
    {
      if i < |ps| <= j { assert Lexical(ps[i], qs[j - |ps|]); }
    }
  }

  /** Dump lists routes in the order of their tokens, so none twice. */
  lemma {:induction false} ListingAscends<T>(es: map<Path, Entry<T>>, p: Path, c: nat, h: nat)
    requires PrefixClosed(es.Keys) && (forall q :: q in es ==> |q| <= h) && c <= 256
    ensures Ascending(Listing(es, p, c, h))
    decreases h - |p|, 256 - c
  {
    if c < 256 && |p| < h {
      ListingStep(es, p, c, h);
      hide Listing, Below, PrefixClosed, Ascending, AllBefore;
      var q := p + [c as Byte];
      ListingAscends(es, p, c + 1, h);
      var rest := Listing(es, p, c + 1, h);
      if q in es {
        ListingAscends(es, q, 0, h);
        OwnAndBelow(es, p, c, h);
        AscendingBoth((if es[q].vpath.Some? then [q] else []) + Listing(es, q, 0, h), rest);
      } else {
        assert [] + rest == rest;
      }
    } else {
      assert Ascending([]) by { NoneAscend(); }
    }
  }

  lemma NoneAscend()
    ensures Ascending([])
  {
  }

  /** A child comes before what is below it, and both before what is below later children. */
  lemma OwnAndBelow<T>(es: map<Path, Entry<T>>, p: Path, c: nat, h: nat)
    requires PrefixClosed(es.Keys) && (forall q :: q in es ==> |q| <= h) && c < 256 && p + [c as Byte] in es
    requires Ascending(Listing(es, p + [c as Byte], 0, h))
    ensures var q := p + [c as Byte];
      var first := (if es[q].vpath.Some? then [q] else []) + Listing(es, q, 0, h);
      Ascending(first) && AllBefore(first, Listing(es, p, c + 1, h))
  {
    hide Listing, PrefixClosed, Lexical;
    var q := p + [c as Byte];
    var own, below, rest := if es[q].vpath.Some? then [q] else [], Listing(es, q, 0, h), Listing(es, p, c + 1, h);
    forall i, j | 0 <= i < |own| && 0 <= j < |below|
      ensures Lexical(own[i], below[j])
    {
      ListingIff(es, q, 0, h, below[j]);
      Longer(q, below[j]);
    }
    AscendingBoth(own, below);
    forall i, j | 0 <= i < |own + below| && 0 <= j < |rest|
      ensures Lexical((own + below)[i], rest[j])
    {
      var a, b := (own + below)[i], rest[j];
      if i >= |own| { ListingIff(es, q, 0, h, a); }
      ListingIff(es, p, c + 1, h, b);
      assert q <= a;
      assert a[|p|] == q[|p|] && a[..|p|] == q[..|p|] == p;
      Branches(a, b, |p|);
    }
  }

  lemma Longer(q: Path, r: Path)
    requires |q| < |r| && q <= r
    ensures Lexical(q, r)
  {
    assert SmallerAt(q, r, |q|);
  }

  lemma Branches(a: Path, b: Path, n: nat)
    requires n < |a| && n < |b| && a[..n] == b[..n] && a[n] < b[n]
    ensures Lexical(a, b)
  {
    assert SmallerAt(a, b, n);
  }

  /** The length of the longest name. */
  ghost function Depth(names: set<Path>): (h: nat)
    ensures forall q :: q in names ==> |q| <= h
  {
    if names == {} then 0
    else
      var q :| q in names;
      var h := Depth(names - {q});
      if h < |q| then |q| else h
  }

  // ---------- whole histories ----------

  /** The routes after a sequence of registrations, later ones replacing earlier ones of the same tokens. */
  function Registrations<T>(rs: seq<(Path, T)>): map<Path, Entry<T>> {
    if rs == [] then map[]
    else
      var (route, v) := rs[|rs| - 1];
      Registrations(rs[..|rs| - 1])[Tokens(route) := Entry(Some(v), Some(route))]
  }

  lemma OneMoreRoute<T>(rs: seq<(Path, T)>, i: nat)
    requires i < |rs|
    ensures Registrations(rs[..i + 1]) == Registrations(rs[..i])[Tokens(rs[i].0) := Entry(Some(rs[i].1), Some(rs[i].0))]
  {
    assert rs[..i + 1][..i] == rs[..i];
  }

  /** A new tree and any calls of Set. */
  method Register<T>(rs: seq<(Path, T)>) returns (t: Tree<T>)
    ensures fresh(t) && t.Valid() && t.Live() && t.Tidy() && t.Routes() == Registrations(rs)
  {
    hide Shape, Kids, Entries, Registered, AllReached, TidyEntries, Tokens, Registrations;
    t := new Tree<T>();
    NoRoutes<T>();
    for i := 0 to |rs|
      invariant fresh(t) && fresh(t.at.Values) && t.Valid() && t.Live() && t.Tidy() &&
          t.Routes() == Registrations(rs[..i])
    {
      t.Set(rs[i].0, rs[i].1);
      OneMoreRoute(rs, i);
    }
    assert rs[..|rs|] == rs;
  }

  lemma NoRoutes<T>()
    ensures Registrations<T>([]) == map[]
  {
  }

  /**
    After any calls of Set, Get answers with the route that a search among the registered ones finds, or with nothing.
  */
  method Route<T>(rs: seq<(Path, T)>, path: Path) returns (v: Option<T>, vpath: Option<Path>)
    ensures var routes, found := Registrations(rs), Find(Registrations(rs).Keys, [], path);
      Entry(v, vpath) == if found.Some? && found.value in routes then routes[found.value] else Entry(None, None)
  {
    hide Shape, Kids, Entries, Registered, AllReached, TidyEntries, Registrations, Find, FindIn;
    var t := Register(rs);
    v, vpath := t.Get(path);
  }
}
