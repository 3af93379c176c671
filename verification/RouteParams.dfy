/**
  `Param` of uweb/context.go: it splits the registered route and the request path at their slashes and
  pairs the pieces, which must give what the walk through the route tree has consumed.
*/
module RouteParams {
  import opened Basics
  import opened RoutePaths

  // ---------- what the walk consumes ----------

  datatype Binding = Binding(name: Path, bytes: Path)

  /** The parameters of a route with the bytes the walk along it takes at each. */
  function Bind(v: Path, a: Path): seq<Binding>
    decreases |v|
  {
    if v == [] || a == [] then []
    else if v[0] == STAR then [Binding(v[1..SlashFrom1(v)], a)]
    else if v[0] == COLON then [Binding(v[1..SlashFrom1(v)], a[..SlashEnd(a)])] + Bind(AfterSlash(v), AfterSlash(a))
    else Bind(v[1..], a[1..])
  }

  /** The end of a name that starts behind the first byte. */
  function SlashFrom1(v: Path): (k: nat)
    requires v != []
    ensures 1 <= k <= |v| && (v[0] != SLASH ==> k == SlashEnd(v))
  {
    1 + SlashEnd(v[1..])
  }

  /** The value of a name when later bindings replace earlier ones; empty for an unknown name. */
  function Lookup(bs: seq<Binding>, name: Path): Path {
    if bs == [] then []
    else if bs[|bs| - 1].name == name then bs[|bs| - 1].bytes
    else Lookup(bs[..|bs| - 1], name)
  }

  // ---------- splitting at slashes ----------

  /** `strings.Split(s, "/")` */
  function Split(s: Path): (r: seq<Path>)
    ensures r != []
    decreases |s|
  {
    if SlashEnd(s) == |s| then [s] else [s[..SlashEnd(s)]] + Split(s[SlashEnd(s) + 1..])
  }

  /** `strings.Join(parts, "/")` */
  function Join(parts: seq<Path>): Path {
    if parts == [] then [] else if |parts| == 1 then parts[0] else parts[0] + [SLASH] + Join(parts[1..])
  }

  lemma {:induction false} JoinSplit(s: Path)
    ensures Join(Split(s)) == s
    decreases |s|
  {
    var k := SlashEnd(s);
    if k < |s| {
      JoinSplit(s[k + 1..]);
      assert Split(s)[1..] == Split(s[k + 1..]);
      assert s == s[..k] + [SLASH] + s[k + 1..];
    }
  }

  // ---------- the pairing ----------

  /** The assignments of the loop of `Param`, in order, from some segment on. */
  function Pairs(vs: seq<Path>, ps: seq<Path>): seq<Binding> {
    if vs == [] || ps == [] then []
    else if vs[0] == [] then Pairs(vs[1..], ps[1..])
    else if vs[0][0] == COLON then [Binding(vs[0][1..], ps[0])] + Pairs(vs[1..], ps[1..])
    else if vs[0][0] == STAR then [Binding(vs[0][1..], Join(ps))]
    else Pairs(vs[1..], ps[1..])
  }

  /** What a map of parameters gives for a name. */
  function Value(params: map<Path, Path>, name: Path): Path {
    if name in params then params[name] else []
  }

  ghost predicate Holds(params: map<Path, Path>, bs: seq<Binding>) {
    forall name :: Value(params, name) == Lookup(bs, name)
  }

  lemma OneMore(params: map<Path, Path>, bs: seq<Binding>, b: Binding)
    requires Holds(params, bs)
    ensures Holds(params[b.name := b.bytes], bs + [b])
  {
    assert (bs + [b])[..|bs|] == bs;
    forall name
      ensures Value(params[b.name := b.bytes], name) == Lookup(bs + [b], name)
    {
      assert Value(params, name) == Lookup(bs, name);
    }
  }

  /** One round of the loop. */
  lemma PairsStep(vs: seq<Path>, ps: seq<Path>, i: nat)
    requires i < |vs| <= |ps|
    ensures Pairs(vs[i..], ps[i..]) ==
      if vs[i] == [] || (vs[i][0] != COLON && vs[i][0] != STAR) then Pairs(vs[i + 1..], ps[i + 1..])
      else if vs[i][0] == COLON then [Binding(vs[i][1..], ps[i])] + Pairs(vs[i + 1..], ps[i + 1..])
      else [Binding(vs[i][1..], Join(ps[i..]))]
  {
    hide Join;
    assert vs[i..][1..] == vs[i + 1..] && ps[i..][1..] == ps[i + 1..];
  }

  lemma NoPairsLeft(vs: seq<Path>, ps: seq<Path>)
    requires vs == []
    ensures Pairs(vs, ps) == []
  {
  }

  /** The loop of `Param`, filling a map. */
  method Params(vpath: Path, path: Path) returns (params: map<Path, Path>)
    ensures Holds(params, Pairs(Split(vpath), Split(path)))
  {
    hide Pairs, Holds, Split;
    var vs := SplitSlashes(vpath);
    var ps := SplitSlashes(path);
    ghost var all := Pairs(vs, ps);
    CutToLength(vs, ps);
    if |vs| > |ps| { vs := vs[..|ps|]; }
    params := map[];
    ghost var done: seq<Binding> := [];
    NothingBound();
    var i := 0;
    assert vs[0..] == vs && ps[0..] == ps && [] + all == all;
    while i < |vs|
      invariant i <= |vs| <= |ps| && all == done + Pairs(vs[i..], ps[i..]) && Holds(params, done)
    {
      PairsStep(vs, ps, i);
      if |vs[i]| >= 1 && vs[i][0] == COLON {
        ghost var b := Binding(vs[i][1..], ps[i]);
        OneMore(params, done, b);
        params := params[vs[i][1..] := ps[i]];
        assert done + ([b] + Pairs(vs[i + 1..], ps[i + 1..])) == done + [b] + Pairs(vs[i + 1..], ps[i + 1..]);
        done := done + [b];
      } else if |vs[i]| >= 1 && vs[i][0] == STAR {
        OneMore(params, done, Binding(vs[i][1..], Join(ps[i..])));
        params := params[vs[i][1..] := Join(ps[i..])];
        return;
      }
      i := i + 1;
    }
    NoPairsLeft(vs[i..], ps[i..]);
    assert done + [] == done;
  }

  /** A request that was routed: the path it asks for and the route it was given to. */
  class Context {
    const vpath: Path
    const path: Path
    var params: Option<map<Path, Path>>

    ghost predicate Valid()
      reads this
    {
      params.Some? ==> Holds(params.value, Pairs(Split(vpath), Split(path)))
    }

    constructor (vpath: Path, path: Path)
      ensures this.vpath == vpath && this.path == path && Valid()
    {
      this.vpath, this.path, params := vpath, path, None;
    }

    /** `Param`: the loop runs on the first call only, and every call answers the same. */
    method Param(key: Path) returns (value: Path)
      requires Valid()
      modifies this
      ensures Valid() && value == Lookup(Pairs(Split(vpath), Split(path)), key)
    {
      hide Pairs, Split, Lookup;
      if params == None {
        var filled := Params(vpath, path);
        params := Some(filled);
      }
      value := Value(params.value, key);
    }
  }

  lemma NothingBound()
    ensures Holds(map[], [])
  {
  }

  lemma {:induction false} CutToLength(vs: seq<Path>, ps: seq<Path>)
    ensures |vs| > |ps| ==> Pairs(vs, ps) == Pairs(vs[..|ps|], ps)
  {
    if ps != [] && |vs| > |ps| {
      CutToLength(vs[1..], ps[1..]);
      assert vs[..|ps|][1..] == vs[1..][..|ps| - 1];
    }
  }

  lemma SliceOf<T>(s: seq<T>, i: nat, k: nat)
    requires i + k < |s|
    ensures s[i..][..k] == s[i..i + k] && s[i..][k + 1..] == s[i + k + 1..]
  {
  }

  lemma SplitStep(s: Path, i: nat)
    requires i <= |s|
    ensures var k := SlashEnd(s[i..]);
      Split(s[i..]) == if i + k == |s| then [s[i..]] else [s[i..i + k]] + Split(s[i + k + 1..])
  {
    hide SlashEnd;
    var k := SlashEnd(s[i..]);
    if i + k < |s| { SliceOf(s, i, k); }
  }

  lemma Associate<T>(a: seq<T>, b: seq<T>, c: seq<T>)
    ensures a + (b + c) == a + b + c
  {
  }

  method SplitSlashes(s: Path) returns (parts: seq<Path>)
    ensures parts == Split(s)
  {
    hide Split, SlashEnd;
    parts := [];
    var i := 0;
    assert s[0..] == s;
    assert [] + Split(s) == Split(s);
    while true
      invariant i <= |s| && parts + Split(s[i..]) == Split(s)
      decreases |s| - i
    {
      SplitStep(s, i);
      var k := SlashEnd(s[i..]);
      if i + k == |s| {
        parts := parts + [s[i..]];
        return;
      }
      Associate(parts, [s[i..i + k]], Split(s[i + k + 1..]));
      parts := parts + [s[i..i + k]];
      i := i + k + 1;
    }
  }

  // ---------- both agree ----------

  /**
    Up to the first star, every segment is a parameter, is a star, or has no colon and no star in it; what the name of
    a parameter is made of does not matter.
  */
  predicate Clean(v: Path)
    decreases |v|, 1
  {
    if v == [] || v[0] == STAR then true else if v[0] == COLON then Clean(AfterSlash(v)) else CleanRest(v)
  }

  /** The same from inside a segment that does not begin with a colon or a star. */
  predicate CleanRest(v: Path)
    decreases |v|, 0
  {
    if v == [] then true
    else if v[0] == SLASH then Clean(v[1..])
    else v[0] != COLON && v[0] != STAR && CleanRest(v[1..])
  }

  /** A literal piece of a route matches the same bytes of the path. */
  lemma {:induction false} LiteralPiece(v: Path, a: Path, k: nat)
    requires Matches(v, a) && k <= |v| && forall i :: 0 <= i < k ==> v[i] != COLON && v[i] != STAR
    ensures k <= |a| && a[..k] == v[..k] && Matches(v[k..], a[k..]) && Bind(v, a) == Bind(v[k..], a[k..])
    decreases k
  {
    if k == 0 {
      assert v[0..] == v && a[0..] == a;
    } else {
      LiteralPiece(v[1..], a[1..], k - 1);
      assert v[1..][k - 1..] == v[k..] && a[1..][k - 1..] == a[k..];
      assert a[..k] == [a[0]] + a[1..][..k - 1] && v[..k] == [v[0]] + v[1..][..k - 1];
    }
  }

  lemma {:induction false} SplitFirst(s: Path)
    ensures Split(s)[0] == s[..SlashEnd(s)]
    ensures SlashEnd(s) < |s| ==> Split(s)[1..] == Split(s[SlashEnd(s) + 1..])
    ensures SlashEnd(s) == |s| ==> Split(s) == [s]
  {
  }

  lemma StarPiece(v: Path, a: Path)
    requires v != [] && a != [] && v[0] == STAR
    ensures Pairs(Split(v), Split(a)) == Bind(v, a)
  {
    hide Split;
    JoinSplit(a);
    SplitFirst(v);
    var k := SlashEnd(v);
    assert v[..k][1..] == v[1..k] && v[..k][0] == v[0];
  }

  lemma ColonPiece(v: Path, a: Path)
    requires v != [] && a != [] && v[0] == COLON
    ensures Pairs(Split(v), Split(a)) == [Binding(v[1..SlashFrom1(v)], a[..SlashEnd(a)])]
        + Pairs(Split(v)[1..], Split(a)[1..])
  {
    hide Split;
    SplitFirst(v);
    SplitFirst(a);
    var k := SlashEnd(v);
    assert v[..k][1..] == v[1..k] && v[..k][0] == v[0];
  }

  lemma PlainPiece(v: Path, a: Path)
    requires v != [] && v[0] != COLON && v[0] != STAR
    ensures Pairs(Split(v), Split(a)) == Pairs(Split(v)[1..], Split(a)[1..])
  {
    hide Split;
    SplitFirst(v);
  }

  /** Splitting and pairing gives the bindings of the walk. */
  lemma {:induction false} PairsAreBindings(v: Path, a: Path)
    requires Clean(v) && Matches(v, a)
    ensures Pairs(Split(v), Split(a)) == Bind(v, a)
    decreases |v|
  {
    hide Split, Pairs, CleanRest;
    var k := SlashEnd(v);
    if v == [] {
      NoPairs(a);
    } else if v[0] == STAR {
      StarPiece(v, a);
    } else if v[0] == COLON {
      ColonPiece(v, a);
      RestOfSplit(v, a);
      if AfterSlash(v) != [] { PairsAreBindings(AfterSlash(v), AfterSlash(a)); }
    } else {
      PlainPiece(v, a);
      SplitFirst(v);
      SplitFirst(a);
      LiteralToSlash(v);
      if k < |v| {
        LiteralStart(v, a);
        PairsAreBindings(v[k + 1..], a[k + 1..]);
      } else {
        LiteralWhole(v, a);
        NoPairsLeft(Split(v)[1..], Split(a)[1..]);
      }
    }
  }

  lemma {:induction false} LiteralToSlash(v: Path)
    requires CleanRest(v)
    ensures forall i :: 0 <= i <= SlashEnd(v) && i < |v| ==> v[i] != COLON && v[i] != STAR
    ensures SlashEnd(v) < |v| ==> Clean(v[SlashEnd(v) + 1..])
  {
    if v != [] && v[0] != SLASH {
      LiteralToSlash(v[1..]);
      assert v[1..][SlashEnd(v[1..])..] == v[SlashEnd(v)..];
      if SlashEnd(v) < |v| { assert v[1..][SlashEnd(v[1..]) + 1..] == v[SlashEnd(v) + 1..]; }
      assert forall i :: 0 < i < |v| ==> v[i] == v[1..][i - 1];
    }
  }

  lemma LiteralWhole(v: Path, a: Path)
    requires CleanRest(v) && Matches(v, a) && SlashEnd(v) == |v|
    ensures a == v && Bind(v, a) == []
  {
    LiteralToSlash(v);
    hide SlashEnd, CleanRest, Matches, Bind;
    LiteralPiece(v, a, |v|);
    MatchedEmpty(v[|v|..], a[|v|..]);
    assert v[..|v|] == v && a[..|v|] == a;
  }

  /** A literal first segment is the first segment of the path. */
  lemma LiteralStart(v: Path, a: Path)
    requires CleanRest(v) && Matches(v, a) && SlashEnd(v) < |v|
    ensures var k := SlashEnd(v);
      SlashEnd(a) == k < |a| && Matches(v[k + 1..], a[k + 1..]) && Bind(v, a) == Bind(v[k + 1..], a[k + 1..])
  {
    LiteralToSlash(v);
    var k := SlashEnd(v);
    hide SlashEnd, CleanRest, Matches, Bind;
    LiteralPiece(v, a, k + 1);
    SameEnd(v, a, k);
  }

  lemma MatchedEmpty(v: Path, a: Path)
    requires v == [] && Matches(v, a)
    ensures a == [] && Bind(v, a) == []
  {
  }

  lemma SameEnd(v: Path, a: Path, k: nat)
    requires k == SlashEnd(v) < |v| && k < |a| && a[..k + 1] == v[..k + 1]
    ensures SlashEnd(a) == k
  {
    assert forall i :: 0 <= i <= k ==> a[i] == a[..k + 1][i] == v[..k + 1][i] == v[i];
  }

  lemma NoPairs(a: Path)
    requires a == []
    ensures Pairs(Split([]), Split(a)) == []
  {
  }

  /** The pieces behind the first ones. */
  lemma RestOfSplit(v: Path, a: Path)
    requires v != [] && a != [] && Matches(AfterSlash(v), AfterSlash(a))
    ensures Split(v)[1..] == if SlashEnd(v) < |v| then Split(AfterSlash(v)) else []
    ensures Split(a)[1..] == if SlashEnd(a) < |a| then Split(AfterSlash(a)) else []
    ensures AfterSlash(v) == [] ==> Pairs(Split(v)[1..], Split(a)[1..]) == []
    ensures AfterSlash(v) != [] ==> SlashEnd(v) < |v| && SlashEnd(a) < |a|
  {
  }

  // ---------- exactly when both agree ----------

  /** The names of the parameters of a route, as the walk finds them. */
  function Names(v: Path): seq<Path>
    decreases |v|
  {
    if v == [] then []
    else if v[0] == STAR then [v[1..SlashFrom1(v)]]
    else if v[0] == COLON then [v[1..SlashFrom1(v)]] + Names(AfterSlash(v))
    else Names(v[1..])
  }

  predicate Distinct(names: seq<Path>) {
    forall i, j :: 0 <= i < j < |names| ==> names[i] != names[j]
  }

  const SAMPLE: Byte := 120

  /** A path that matches a route and ends where the walk ends: one letter for each parameter and for the star. */
  function Sample(v: Path): Path
    decreases |v|
  {
    if v == [] then []
    else if v[0] == STAR then [SAMPLE]
    else if v[0] == COLON then [SAMPLE] + if SlashEnd(v) < |v| then [SLASH] + Sample(AfterSlash(v)) else []
    else [v[0]] + Sample(v[1..])
  }

  lemma FirstSegment(x: Path, r: Path)
    requires SlashEnd(x) == |x|
    ensures SlashEnd(x + ([SLASH] + r)) == |x| && AfterSlash(x + ([SLASH] + r)) == r && AfterSlash(x) == []
    ensures (x + ([SLASH] + r))[..|x|] == x
  {
    hide SlashEnd;
    Front(x, r);
    var a := x + ([SLASH] + r);
    assert SlashEnd(a) == |x|;
  }

  lemma Front(x: Path, r: Path)
    ensures var a := x + ([SLASH] + r);
      && |a| > |x| && a[|x|] == SLASH && a[..|x|] == x && a[|x| + 1..] == r
      && forall i :: 0 <= i < |x| ==> a[i] == x[i]
  {
  }

  lemma {:induction false} SampleMatches(v: Path)
    ensures Matches(v, Sample(v))
    decreases |v|
  {
    if v != [] && v[0] == COLON {
      assert SlashEnd([SAMPLE]) == 1;
      FirstSegment([SAMPLE], Sample(AfterSlash(v)));
      SampleMatches(AfterSlash(v));
    } else if v != [] && v[0] != STAR {
      assert Sample(v)[1..] == Sample(v[1..]);
      SampleMatches(v[1..]);
    }
  }

  predicate AllSample(bs: seq<Binding>, names: seq<Path>) {
    |bs| == |names| && forall i :: 0 <= i < |bs| ==> bs[i] == Binding(names[i], [SAMPLE])
  }

  /** On that path the walk takes the letter at every parameter. */
  lemma {:induction false} SampleBinds(v: Path)
    ensures AllSample(Bind(v, Sample(v)), Names(v))
    decreases |v|
  {
    if v != [] && v[0] == COLON {
      assert SlashEnd([SAMPLE]) == 1 && [SAMPLE][..1] == [SAMPLE];
      FirstSegment([SAMPLE], Sample(AfterSlash(v)));
      SampleBinds(AfterSlash(v));
    } else if v != [] && v[0] != STAR {
      assert Sample(v)[1..] == Sample(v[1..]);
      SampleBinds(v[1..]);
    }
  }

  lemma {:induction false} LookupSample(bs: seq<Binding>, names: seq<Path>, n: Path)
    requires AllSample(bs, names) && n in names
    ensures Lookup(bs, n) == [SAMPLE]
    decreases |bs|
  {
    var last := |bs| - 1;
    if names[last] != n { LookupSample(bs[..last], names[..last], n); }
  }

  function NamesOf(bs: seq<Binding>): seq<Path> {
    seq(|bs|, i requires 0 <= i < |bs| => bs[i].name)
  }

  lemma {:induction false} LookupNone(bs: seq<Binding>, n: Path)
    requires n !in NamesOf(bs)
    ensures Lookup(bs, n) == []
    decreases |bs|
  {
    if bs != [] {
      var last := |bs| - 1;
      assert NamesOf(bs)[last] == bs[last].name;
      forall i | 0 <= i < last ensures NamesOf(bs[..last])[i] != n { assert NamesOf(bs)[i] == bs[i].name; }
      LookupNone(bs[..last], n);
    }
  }

  /** What `Param` binds on the sample path, from the start of a segment on. */
  function Bound(v: Path): seq<Path> {
    NamesOf(Pairs(Split(v), Split(Sample(v))))
  }

  /** The same from inside a segment that binds nothing. */
  function BoundRest(v: Path): seq<Path> {
    NamesOf(Pairs(Split(v)[1..], Split(Sample(v))[1..]))
  }

  lemma SplitOf(x: Path, r: Path)
    requires SlashEnd(x) == |x|
    ensures Split(x) == [x] && Split(x + ([SLASH] + r)) == [x] + Split(r)
  {
    FirstSegment(x, r);
    var s := x + ([SLASH] + r);
    assert s[..|x|] == x && s[|x| + 1..] == r;
  }

  lemma BoundAt(v: Path)
    requires v != []
    ensures v[0] == STAR ==> Bound(v) == [v[1..SlashFrom1(v)]] && BoundRest(v) == []
    ensures v[0] == COLON ==>
      var rest := if SlashEnd(v) < |v| then Bound(AfterSlash(v)) else [];
      Bound(v) == [v[1..SlashFrom1(v)]] + rest && BoundRest(v) == rest
  {
    hide Split, Join, Pairs, Sample;
    assert SlashEnd([SAMPLE]) == 1;
    SplitFirst(v);
    SampleAt(v);
    var k := SlashEnd(v);
    assert v[0] != SLASH ==> v[..k][1..] == v[1..k] && v[..k] != [] && v[..k][0] == v[0];
    SplitOf([SAMPLE], Sample(AfterSlash(v)));
    assert [[SAMPLE]][1..] == [];
    NoneBound(Split(v)[1..]);
    if v[0] == STAR {
      StarBound(Split(v), [[SAMPLE]]);
    } else if v[0] == COLON {
      ColonBound(Split(v), Split(Sample(v)));
      if k < |v| {
        assert ([[SAMPLE]] + Split(Sample(AfterSlash(v))))[1..] == Split(Sample(AfterSlash(v)));
      }
    }
  }

  lemma SampleAt(v: Path)
    requires v != []
    ensures v[0] == STAR ==> Sample(v) == [SAMPLE]
    ensures v[0] == COLON ==>
      Sample(v) == if SlashEnd(v) < |v| then [SAMPLE] + ([SLASH] + Sample(AfterSlash(v))) else [SAMPLE]
    ensures v[0] != STAR && v[0] != COLON ==> Sample(v) == [v[0]] + Sample(v[1..])
  {
  }

  lemma NoneBound(vs: seq<Path>)
    ensures Pairs(vs, []) == []
  {
  }

  lemma StarBound(vs: seq<Path>, ps: seq<Path>)
    requires vs != [] && ps != [] && vs[0] != [] && vs[0][0] == STAR
    ensures NamesOf(Pairs(vs, ps)) == [vs[0][1..]]
  {
    hide Join;
  }

  lemma ColonBound(vs: seq<Path>, ps: seq<Path>)
    requires vs != [] && ps != [] && vs[0] != [] && vs[0][0] == COLON
    ensures NamesOf(Pairs(vs, ps)) == [vs[0][1..]] + NamesOf(Pairs(vs[1..], ps[1..]))
  {
    PairsAtColon(vs, ps);
    hide Pairs;
    NamesCons(Binding(vs[0][1..], ps[0]), Pairs(vs[1..], ps[1..]));
  }

  lemma PairsAtColon(vs: seq<Path>, ps: seq<Path>)
    requires vs != [] && ps != [] && vs[0] != [] && vs[0][0] == COLON
    ensures Pairs(vs, ps) == [Binding(vs[0][1..], ps[0])] + Pairs(vs[1..], ps[1..])
  {
    hide Join;
  }

  lemma NamesCons(b: Binding, bs: seq<Binding>)
    ensures NamesOf([b] + bs) == [b.name] + NamesOf(bs)
  {
  }

  lemma BoundLiteral(v: Path)
    requires v == [] || (v[0] != STAR && v[0] != COLON)
    ensures Bound(v) == BoundRest(v)
    ensures v == [] ==> Bound(v) == []
    ensures v != [] && v[0] == SLASH ==> BoundRest(v) == Bound(v[1..])
    ensures v != [] && v[0] != SLASH ==> BoundRest(v) == BoundRest(v[1..])
  {
    hide Split, Join, Pairs, Sample;
    if v == [] {
      NoPairs([]);
      assert Sample([]) == [] by { NoSample(); }
      SplitOf([], []);
      assert Split(v) == [v] && Split(v)[1..] == [];
      NoneBound([]);
    } else {
      SampleAt(v);
      PlainPiece(v, Sample(v));
      Peel(v[0], v[1..]);
      Peel(v[0], Sample(v[1..]));
      assert v == [v[0]] + v[1..];
    }
  }

  lemma NoSample()
    ensures Sample([]) == []
  {
  }

  /** The segments behind the first one, with one more byte in front. */
  lemma {:induction false} Peel(c: Byte, r: Path)
    ensures Split([c] + r)[1..] == if c == SLASH then Split(r) else Split(r)[1..]
  {
    var s := [c] + r;
    assert s[1..] == r;
    SplitFirst(s);
    SplitFirst(r);
    if c == SLASH {
      assert SlashEnd(s) == 0;
    } else {
      assert SlashEnd(s) == 1 + SlashEnd(r);
      if SlashEnd(r) < |r| { assert s[SlashEnd(s) + 1..] == r[SlashEnd(r) + 1..]; }
    }
  }

  predicate Within(a: seq<Path>, b: seq<Path>) {
    forall n :: n in a ==> n in b
  }

  /** `Param` binds no name that the walk does not; if the route is not clean it misses one. */
  lemma {:induction false} Misses(v: Path) returns (n: Path)
    ensures Within(Bound(v), Names(v))
    ensures !Clean(v) && Distinct(Names(v)) ==> n in Names(v) && n !in Bound(v)
    decreases |v|, 1
  {
    hide Bound, BoundRest;
    n := [];
    if v == [] {
      BoundLiteral(v);
    } else if v[0] == STAR {
      BoundAt(v);
    } else if v[0] == COLON {
      BoundAt(v);
      n := Misses(AfterSlash(v));
      if Distinct(Names(v)) { Tail([v[1..SlashFrom1(v)]], Names(AfterSlash(v))); }
    } else {
      BoundLiteral(v);
      n := MissesRest(v);
    }
  }

  lemma Tail(a: seq<Path>, b: seq<Path>)
    requires |a| == 1 && Distinct(a + b)
    ensures Distinct(b) && a[0] !in b
  {
    assert forall i :: 0 <= i < |b| ==> (a + b)[i + 1] == b[i];
    assert (a + b)[0] == a[0];
  }

  lemma {:induction false} MissesRest(v: Path) returns (n: Path)
    ensures Within(BoundRest(v), Names(v))
    ensures !CleanRest(v) && Distinct(Names(v)) ==> n in Names(v) && n !in BoundRest(v)
    decreases |v|, 0
  {
    hide Bound, BoundRest;
    n := [];
    if v == [] {
      BoundLiteral(v);
    } else if v[0] == STAR {
      BoundAt(v);
      n := Names(v)[0];
    } else if v[0] == COLON {
      BoundAt(v);
      var _ := Misses(AfterSlash(v));
      n := v[1..SlashFrom1(v)];
      assert Names(v)[0] == n;
      if Distinct(Names(v)) { Tail([n], Names(AfterSlash(v))); }
    } else {
      BoundLiteral(v);
      if v[0] == SLASH { n := Misses(v[1..]); } else { n := MissesRest(v[1..]); }
    }
  }

  /** For a path that leads to the route v, `Param` gives every name what the walk took there. */
  ghost predicate Agree(v: Path, a: Path) {
    forall name :: Lookup(Pairs(Split(v), Split(a)), name) == Lookup(Bind(v, a), name)
  }

  /** The route alone in a tree is found on every path it matches. */
  lemma {:induction false} AloneIsFound(p: Path, v: Path, a: Path)
    requires Matches(v, a)
    ensures Find({p + Tokens(v)}, p, a) == Some(p + Tokens(v))
    decreases |v|
  {
    hide Find, Tokens, Reaches;
    TokensHead(v);
    var routes := {p + Tokens(v)};
    if v == [] {
      FindNothing(routes, p);
      assert p + [] == p;
    } else {
      OnlyToken(p, v);
      assert p + [v[0]] + Tokens(Behind(v)) == p + Tokens(v);
      FindAlong(routes, p, a, v[0]);
      if v[0] == STAR {
        assert Tokens(v) == [STAR] by { StarEnds(v); }
      } else if v[0] == COLON {
        AloneIsFound(p + [COLON], AfterSlash(v), AfterSlash(a));
      } else {
        AloneIsFound(p + [v[0]], v[1..], a[1..]);
      }
    }
  }

  lemma FindNothing(routes: set<Path>, p: Path)
    ensures Find(routes, p, []) == Some(p)
  {
  }

  lemma StarEnds(v: Path)
    requires v != [] && v[0] == STAR
    ensures Tokens(v) == [STAR]
  {
  }

  lemma OnlyToken(p: Path, v: Path)
    requires v != []
    ensures forall c :: Reaches({p + Tokens(v)}, p + [c]) <==> c == v[0]
  {
    hide Tokens;
    TokensHead(v);
    var r := p + Tokens(v);
    forall c: Byte
      ensures Reaches({r}, p + [c]) <==> c == v[0]
    {
      assert r[|p|] == v[0] && (p + [c])[|p|] == c;
      assert p + [v[0]] <= r;
      assert r in {r};
    }
  }

  lemma FindAlong(routes: set<Path>, p: Path, a: Path, c: Byte)
    requires a != [] && (c == STAR || c == COLON || c == a[0]) && forall d :: Reaches(routes, p + [d]) <==> d == c
    ensures Find(routes, p, a) ==
      if c == STAR then Some(p + [STAR]) else Find(routes, p + [c], if c == COLON then AfterSlash(a) else a[1..])
  {
    hide Reaches;
  }

  /**
    For a route with distinct names, `Param` and the walk agree on every path that leads to the route, whatever else is
    registered, if and only if the route is clean.
  */
  lemma ParamAgreesIff(v: Path)
    requires Distinct(Names(v))
    ensures (forall routes, a :: Find(routes, [], a) == Some(Tokens(v)) ==> Agree(v, a)) <==> Clean(v)
  {
    hide Find, Tokens, Clean, Pairs, Split, Bind, Lookup;
    if Clean(v) {
      forall routes, a | Find(routes, [], a) == Some(Tokens(v))
        ensures Agree(v, a)
      {
        CleanAgrees(routes, v, a);
      }
    } else {
      SampleMatches(v);
      AloneIsFound([], v, Sample(v));
      assert [] + Tokens(v) == Tokens(v);
      var n := Misses(v);
      SampleBinds(v);
      LookupSample(Bind(v, Sample(v)), Names(v), n);
      LookupNone(Pairs(Split(v), Split(Sample(v))), n);
      assert !Agree(v, Sample(v));
    }
  }

  /** On a clean route, names repeated or not, both bind the same bytes to the same names in the same order. */
  lemma CleanAgrees(routes: set<Path>, v: Path, a: Path)
    requires Clean(v) && Find(routes, [], a) == Some(Tokens(v))
    ensures Pairs(Split(v), Split(a)) == Bind(v, a) && Agree(v, a)
  {
    hide Find, Tokens, Clean, Pairs, Split, Bind;
    assert [] + Tokens(v) == Tokens(v);
    FoundMatches(routes, [], a, v);
    PairsAreBindings(v, a);
  }

  /** The walk takes a colon inside a segment for a parameter, `Param` does not. */
  lemma ColonInsideSegment()
    ensures var v, a: Path := [SLASH, 97, COLON, 98], [SLASH, 97, 99];
      Matches(v, a) && Lookup(Bind(v, a), [98]) == [99] && Lookup(Pairs(Split(v), Split(a)), [98]) == []
  {
    var v, a: Path := [SLASH, 97, COLON, 98], [SLASH, 97, 99];
    assert v[1..] == [97, COLON, 98] && v[1..][1..] == [COLON, 98] && a[1..] == [97, 99] && a[1..][1..] == [99];
    assert SlashEnd([98]) == 1 && SlashEnd([COLON, 98]) == 2 && SlashEnd([99]) == 1;
    assert SlashEnd([97, COLON, 98]) == 3 && SlashEnd([97, 99]) == 2;
    assert Split(v) == [[], [97, COLON, 98]] && Split(a) == [[], [97, 99]];
    assert AfterSlash([COLON, 98]) == [] && AfterSlash([99]) == [];
    assert [COLON, 98][1..] == [98] && [COLON, 98][1..2] == [98] && [99][..1] == [99];
    assert Bind([COLON, 98], [99]) == [Binding([98], [99])];
    assert Matches([COLON, 98], [99]);
    assert Bind(v, a) == [Binding([98], [99])];
    assert Pairs([[97, COLON, 98]], [[97, 99]]) == [];
    assert Split(v)[1..] == [[97, COLON, 98]] && Split(a)[1..] == [[97, 99]];
  }

  // ---------- what the walk binds ----------

  /** The route with the bytes bound at each parameter in the place of its name. */
  function Filled(v: Path, bs: seq<Binding>): Path
    decreases |v|
  {
    if v == [] || (bs == [] && (v[0] == STAR || v[0] == COLON)) then []
    else if v[0] == STAR then bs[0].bytes
    else if v[0] == COLON then
      bs[0].bytes + if SlashEnd(v) < |v| then [SLASH] + Filled(AfterSlash(v), bs[1..]) else []
    else [v[0]] + Filled(v[1..], bs)
  }

  /** Equal, but for a slash at the end of one of them. */
  predicate SameButSlash(x: Path, y: Path) {
    x == y || x == y + [SLASH] || y == x + [SLASH]
  }

  /** Nothing of the path is lost: the bytes bound at the parameters, put into the route, give the path. */
  lemma {:induction false} FilledIsPath(v: Path, a: Path)
    requires Matches(v, a)
    ensures SameButSlash(Filled(v, Bind(v, a)), a)
    decreases |v|
  {
    hide SameButSlash;
    if v == [] || v[0] == STAR {
      assert SameButSlash(a, a) by { SameSelf(a); }
    } else if v[0] == COLON {
      FilledIsPath(AfterSlash(v), AfterSlash(a));
      SegmentFilled(v, a);
    } else {
      FilledIsPath(v[1..], a[1..]);
      Prefixed([a[0]], Filled(v[1..], Bind(v[1..], a[1..])), a[1..]);
      assert a == [a[0]] + a[1..];
    }
  }

  lemma SegmentFilled(v: Path, a: Path)
    requires v != [] && v[0] == COLON && Matches(v, a)
    requires SameButSlash(Filled(AfterSlash(v), Bind(AfterSlash(v), AfterSlash(a))), AfterSlash(a))
    ensures SameButSlash(Filled(v, Bind(v, a)), a)
  {
    hide Matches, Bind, Filled;
    var x, y, b := Filled(AfterSlash(v), Bind(AfterSlash(v), AfterSlash(a))), AfterSlash(a), a[..SlashEnd(a)];
    assert a != [] && Matches(AfterSlash(v), y) by { ColonUnfolds(v, a); }
    ColonUnfolds(v, a);
    assert SlashEnd(a) < |a| ==> a == b + [SLASH] + y;
    assert SlashEnd(a) == |a| ==> a == b && y == [];
    Prefixed(b + [SLASH], x, y);
    if y == [] || AfterSlash(v) == [] { MatchesNothing(AfterSlash(v), y); }
  }

  lemma MatchesNothing(v: Path, a: Path)
    requires Matches(v, a) && (v == [] || a == [])
    ensures v == [] && a == [] && Filled(v, Bind(v, a)) == []
  {
  }

  lemma ColonUnfolds(v: Path, a: Path)
    requires v != [] && v[0] == COLON && Matches(v, a)
    ensures a != [] && Matches(AfterSlash(v), AfterSlash(a))
    ensures var x := Filled(AfterSlash(v), Bind(AfterSlash(v), AfterSlash(a)));
      Filled(v, Bind(v, a)) == a[..SlashEnd(a)] + if SlashEnd(v) < |v| then [SLASH] + x else []
  {
    assert Bind(v, a)[1..] == Bind(AfterSlash(v), AfterSlash(a));
  }

  lemma SameSelf(a: Path)
    ensures SameButSlash(a, a)
  {
  }

  lemma Prefixed(b: Path, x: Path, y: Path)
    requires SameButSlash(x, y)
    ensures SameButSlash(b + x, b + y)
  {
    assert b + (x + [SLASH]) == b + x + [SLASH];
    assert b + (y + [SLASH]) == b + y + [SLASH];
  }
}
