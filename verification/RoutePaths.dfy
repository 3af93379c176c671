/**
  Routes of utree/tree.go as sequences of tokens, and what a request path should find among a set of
  registered routes. A parameter is one token and takes the slash behind it along; a star ends a route.
*/
module RoutePaths {
  import opened Basics

  type Path = seq<Byte>

  const STAR: Byte := 42
  const SLASH: Byte := 47
  const COLON: Byte := 58

  /** `slashReader`: the index of the next slash, or the length. */
  function SlashEnd(a: Path): (k: nat)
    ensures k <= |a| && (k < |a| ==> a[k] == SLASH) && forall i :: 0 <= i < k ==> a[i] != SLASH
  {
    if a == [] || a[0] == SLASH then 0 else 1 + SlashEnd(a[1..])
  }

  /** What follows the next slash. */
  function AfterSlash(a: Path): (r: Path)
    ensures |r| <= |a| && (a != [] ==> |r| < |a|)
  {
    if SlashEnd(a) < |a| then a[SlashEnd(a) + 1..] else []
  }

  /** The tokens of a route: the names of parameters and what stands behind a star are dropped. */
  function Tokens(a: Path): Path
    decreases |a|
  {
    if a == [] then []
    else if a[0] == COLON then [COLON] + Tokens(AfterSlash(a))
    else if a[0] == STAR then [STAR]
    else [a[0]] + Tokens(a[1..])
  }

  /** Some registered route continues p. */
  ghost predicate Reaches(routes: set<Path>, p: Path) {
    exists r :: r in routes && p <= r
  }

  /**
    The node a request path leads to, from p on: a star takes the rest, else a parameter takes a segment,
    else the byte itself must continue some route. There is no way back from a choice.
  */
  ghost function Find(routes: set<Path>, p: Path, a: Path): Option<Path>
    decreases |a|
  {
    if a == [] then Some(p)
    else if Reaches(routes, p + [STAR]) then Some(p + [STAR])
    else if Reaches(routes, p + [COLON]) then Find(routes, p + [COLON], AfterSlash(a))
    else if Reaches(routes, p + [a[0]]) then Find(routes, p + [a[0]], a[1..])
    else None
  }

  // ---------- literal routes and what hides them ----------

  predicate Literal(a: Path) {
    forall i :: 0 <= i < |a| ==> a[i] != COLON && a[i] != STAR
  }

  /** A star or a parameter branches off on the way from p along a. */
  ghost predicate Shadowed(routes: set<Path>, p: Path, a: Path)
    decreases |a|
  {
    a != [] && (Reaches(routes, p + [STAR]) || Reaches(routes, p + [COLON]) || Shadowed(routes, p + [a[0]], a[1..]))
  }

  lemma {:induction false} LiteralTokens(a: Path)
    requires Literal(a)
    ensures Tokens(a) == a
  {
    if a != [] { LiteralTokens(a[1..]); }
  }

  /** The route ends inside the name of a parameter, or has a star. */
  predicate OpenEnded(a: Path)
    decreases |a|
  {
    a != [] &&
      if a[0] == COLON then SlashEnd(a) == |a| || OpenEnded(AfterSlash(a))
      else a[0] == STAR || OpenEnded(a[1..])
  }

  /** A slash at the end makes no other route if and only if a parameter or a star takes it along. */
  lemma {:induction false} SlashAtEndIff(a: Path)
    ensures Tokens(a + [SLASH]) == Tokens(a) <==> OpenEnded(a)
    decreases |a|
  {
    var b := a + [SLASH];
    if a == [] {
      assert Tokens(b) == [SLASH] + Tokens(b[1..]);
    } else if a[0] == COLON {
      SlashEndLater(a);
      if SlashEnd(a) < |a| {
        assert AfterSlash(b) == AfterSlash(a) + [SLASH];
        SlashAtEndIff(AfterSlash(a));
      } else {
        assert AfterSlash(b) == [] && AfterSlash(a) == [];
      }
      SameBehind([COLON], Tokens(AfterSlash(a)), Tokens(AfterSlash(b)));
    } else if a[0] != STAR {
      assert b[1..] == a[1..] + [SLASH];
      SlashAtEndIff(a[1..]);
      SameBehind([a[0]], Tokens(a[1..]), Tokens(b[1..]));
    }
  }

  lemma SameBehind(x: Path, y: Path, z: Path)
    ensures x + y == x + z <==> y == z
  {
    assert (x + y)[|x|..] == y && (x + z)[|x|..] == z;
  }

  lemma {:induction false} SlashEndLater(a: Path)
    ensures SlashEnd(a + [SLASH]) == SlashEnd(a)
  {
    if a != [] && a[0] != SLASH {
      assert (a + [SLASH])[1..] == a[1..] + [SLASH];
      SlashEndLater(a[1..]);
    }
  }

  /** Where a walk ends, it has kept the path it started from. */
  lemma {:induction false} FindExtends(routes: set<Path>, p: Path, a: Path)
    ensures Find(routes, p, a).Some? ==> p <= Find(routes, p, a).value
    decreases |a|
  {
    if a != [] && !Reaches(routes, p + [STAR]) {
      if Reaches(routes, p + [COLON]) {
        FindExtends(routes, p + [COLON], AfterSlash(a));
      } else if Reaches(routes, p + [a[0]]) {
        FindExtends(routes, p + [a[0]], a[1..]);
      }
    }
  }

  /** A registered literal route is found under its own name unless, and only unless, it is shadowed. */
  lemma {:induction false} LiteralFoundIff(routes: set<Path>, p: Path, a: Path)
    requires Literal(a) && p + a in routes
    ensures Find(routes, p, a) == Some(p + a) <==> !Shadowed(routes, p, a)
    decreases |a|
  {
    if a == [] {
      assert p + a == p;
    } else {
      assert p + [a[0]] + a[1..] == p + a;
      assert p + [a[0]] <= p + a;
      assert (p + a)[|p|] == a[0] && (p + [STAR])[|p|] == STAR && (p + [COLON])[|p|] == COLON;
      if Reaches(routes, p + [STAR]) {
        assert Find(routes, p, a) == Some(p + [STAR]);
      } else if Reaches(routes, p + [COLON]) {
        FindExtends(routes, p + [COLON], AfterSlash(a));
        Diverges(p, COLON, p + a, Find(routes, p + [COLON], AfterSlash(a)));
      } else {
        LiteralFoundIff(routes, p + [a[0]], a[1..]);
      }
    }
  }

  lemma Diverges(p: Path, c: Byte, q: Path, r: Option<Path>)
    requires |q| > |p| && q[|p|] != c && (r.Some? ==> p + [c] <= r.value)
    ensures r != Some(q)
  {
    assert (p + [c])[|p|] == c;
  }

  // ---------- a route and a path that it matches ----------

  /** Does the request path a run along the route v to its end? */
  predicate Matches(v: Path, a: Path)
    decreases |v|
  {
    if v == [] then a == []
    else if a == [] then false
    else if v[0] == STAR then true
    else if v[0] == COLON then Matches(AfterSlash(v), AfterSlash(a))
    else v[0] == a[0] && Matches(v[1..], a[1..])
  }

  /** What is left of a route behind its first token. */
  function Behind(v: Path): (r: Path)
    requires v != []
    ensures |r| < |v|
  {
    if v[0] == COLON then AfterSlash(v) else if v[0] == STAR then [] else v[1..]
  }

  lemma TokensHead(v: Path)
    ensures v == [] ==> Tokens(v) == []
    ensures v != [] ==> Tokens(v) == [v[0]] + Tokens(Behind(v))
  {
  }

  /** What the walk finds is the end of a route that the path matches. */
  lemma {:induction false} FoundMatches(routes: set<Path>, p: Path, a: Path, v: Path)
    requires Find(routes, p, a) == Some(p + Tokens(v))
    ensures Matches(v, a)
    decreases |a|
  {
    if a == [] {
      assert |Tokens(v)| == 0;
      TokensHead(v);
    } else {
      FirstToken(routes, p, a, v);
      TokensHead(v);
      var c := v[0];
      assert p + [c] + Tokens(Behind(v)) == p + Tokens(v);
      hide Find, Tokens, Reaches;
      if c == COLON {
        FoundMatches(routes, p + [c], AfterSlash(a), Behind(v));
      } else if c != STAR {
        FoundMatches(routes, p + [c], a[1..], Behind(v));
      }
    }
  }

  lemma FirstToken(routes: set<Path>, p: Path, a: Path, v: Path)
    requires a != [] && Find(routes, p, a) == Some(p + Tokens(v))
    ensures v != [] && (v[0] == STAR || v[0] == COLON || v[0] == a[0])
    ensures v[0] == COLON ==> Find(routes, p + [COLON], AfterSlash(a)) == Find(routes, p, a)
    ensures v[0] != COLON && v[0] != STAR ==> Find(routes, p + [v[0]], a[1..]) == Find(routes, p, a)
  {
    var c := if Reaches(routes, p + [STAR]) then STAR else if Reaches(routes, p + [COLON]) then COLON else a[0];
    if c == COLON && Reaches(routes, p + [COLON]) {
      FindExtends(routes, p + [COLON], AfterSlash(a));
    } else if c != STAR {
      FindExtends(routes, p + [a[0]], a[1..]);
    }
    assert p + [c] <= p + Tokens(v);
    hide Find, Tokens;
    TokensHead(v);
    assert (p + [c])[|p|] == c && (p + Tokens(v))[|p|] == Tokens(v)[0];
  }

  /** With "/a" and "/:x" registered, the path "/a" leads to the second. */
  lemma ParameterHidesLiteral()
    ensures var literal, param: Path := [SLASH, 97], [SLASH, COLON, 120];
      var routes := {Tokens(literal), Tokens(param)};
      Tokens(literal) == literal && Find(routes, [], literal) == Some(Tokens(param)) && Tokens(param) != literal
  {
    var literal, param: Path := [SLASH, 97], [SLASH, COLON, 120];
    assert literal[1..] == [97];
    assert param[1..] == [COLON, 120] && AfterSlash([COLON, 120]) == [];
    assert Tokens([97]) == [97] && Tokens(literal) == literal;
    assert Tokens([COLON, 120]) == [COLON] && Tokens(param) == [SLASH, COLON];
    var routes := {literal, [SLASH, COLON]};
    assert !Reaches(routes, [] + [STAR]) && !Reaches(routes, [] + [COLON]);
    assert [] + [SLASH] <= literal && literal in routes;
    assert Reaches(routes, [] + [SLASH]);
    assert !Reaches(routes, [SLASH] + [STAR]);
    assert [SLASH] + [COLON] == [SLASH, COLON] && [SLASH, COLON] in routes;
    assert Reaches(routes, [SLASH] + [COLON]);
    assert AfterSlash([97]) == [];
    assert Find(routes, [SLASH, COLON], []) == Some([SLASH, COLON]);
    assert Find(routes, [SLASH], [97]) == Some([SLASH, COLON]);
    assert [] + [SLASH] == [SLASH];
    assert Find(routes, [], literal) == Find(routes, [SLASH], [97]);
  }

  // ---------- which route is found ----------

  /** Tokens take the whole path: a star all of it, a parameter a segment and its slash, any other its own byte. */
  predicate Takes(t: Path, a: Path)
    decreases |t|
  {
    if t == [] then a == []
    else
      && a != []
      && if t[0] == STAR then |t| == 1
         else if t[0] == COLON then Takes(t[1..], AfterSlash(a))
         else t[0] == a[0] && Takes(t[1..], a[1..])
  }

  /** Nowhere along r, from its n-th token on, does a registered route have a star or a parameter that r passes by. */
  ghost predicate Preferred(routes: set<Path>, r: Path, n: nat) {
    forall k :: n <= k < |r| ==> NotPassed(routes, r, k)
  }

  ghost predicate NotPassed(routes: set<Path>, r: Path, k: nat)
    requires k < |r|
  {
    && (Reaches(routes, r[..k] + [STAR]) ==> r[k] == STAR)
    && (Reaches(routes, r[..k] + [COLON]) ==> r[k] == STAR || r[k] == COLON)
  }

  /** What the walk finds, without the walk: the way that takes the path, leads to some route and passes nothing by. */
  ghost predicate RightWay(routes: set<Path>, p: Path, a: Path, r: Path) {
    && p <= r && Takes(r[|p|..], a) && (|r| > |p| ==> Reaches(routes, r)) && Preferred(routes, r, |p|)
  }

  lemma ReachesLess(routes: set<Path>, p: Path, r: Path)
    requires Reaches(routes, r) && p <= r
    ensures Reaches(routes, p)
  {
    var q :| q in routes && r <= q;
    assert p <= q;
  }

  lemma {:induction false} FoundIsRight(routes: set<Path>, p: Path, a: Path)
    requires Find(routes, p, a).Some?
    ensures RightWay(routes, p, a, Find(routes, p, a).value)
    decreases |a|
  {
    var r := Find(routes, p, a).value;
    if a == [] {
      assert r[|p|..] == [];
    } else if Reaches(routes, p + [STAR]) {
      assert r == p + [STAR] && r[|p|..] == [STAR] && r[..|p|] == p;
    } else {
      var c := if Reaches(routes, p + [COLON]) then COLON else a[0];
      var rest := if c == COLON && Reaches(routes, p + [COLON]) then AfterSlash(a) else a[1..];
      FoundIsRight(routes, p + [c], rest);
      StepBack(routes, p, c, a, rest, r);
    }
  }

  lemma StepBack(routes: set<Path>, p: Path, c: Byte, a: Path, rest: Path, r: Path)
    requires a != [] && RightWay(routes, p + [c], rest, r) && Reaches(routes, p + [c]) && c != STAR
    requires !Reaches(routes, p + [STAR]) && (Reaches(routes, p + [COLON]) ==> c == COLON)
    requires if c == COLON then rest == AfterSlash(a) else c == a[0] && rest == a[1..]
    ensures RightWay(routes, p, a, r)
  {
    hide Takes;
    assert r[|p|] == (p + [c])[|p|] == c && r[..|p|] == p;
    assert r[|p|..] == [c] + r[|p| + 1..] && (p + [c])[..|p|] == p;
    TakesStep([c] + r[|p| + 1..], a);
    assert ([c] + r[|p| + 1..])[1..] == r[|p| + 1..];
    if |r| == |p| + 1 { assert r == p + [c]; }
  }

  lemma TakesStep(t: Path, a: Path)
    requires t != [] && a != [] && t[0] != STAR
    ensures Takes(t, a) ==
      if t[0] == COLON then Takes(t[1..], AfterSlash(a)) else t[0] == a[0] && Takes(t[1..], a[1..])
  {
  }

  /** The walk finds a way if and only if it is the right one; so there is at most one. */
  lemma {:induction false} FoundIff(routes: set<Path>, p: Path, a: Path, r: Path)
    ensures Find(routes, p, a) == Some(r) <==> RightWay(routes, p, a, r)
    decreases |a|
  {
    if Find(routes, p, a) == Some(r) { FoundIsRight(routes, p, a); }
    if RightWay(routes, p, a, r) {
      var t := r[|p|..];
      if t == [] {
        assert r == p;
      } else {
        var c := r[|p|];
        assert r[..|p|] == p && t[0] == c && p + [c] <= r;
        ReachesLess(routes, p + [c], r);
        assert NotPassed(routes, r, |p|);
        assert c != STAR ==> !Reaches(routes, p + [STAR]);
        assert c != STAR && c != COLON ==> !Reaches(routes, p + [COLON]);
        assert t[1..] == r[|p + [c]|..];
        if c == STAR {
          assert r == p + [STAR];
        } else {
          FoundIff(routes, p + [c], if c == COLON then AfterSlash(a) else a[1..], r);
        }
      }
    }
  }
}
