/**
  The order that `SortChildren` of pkg/goldmark/ast/ast.go gives to a list: insertion of each
  element before the first one that is not smaller.
*/
module ChildOrder {

  type Comparator<!T> = (T, T) -> int

  /** Where x goes in a list: before the first element that does not compare below it. */
  function Spot<T>(cmp: Comparator<T>, s: seq<T>, x: T): (p: nat)
    ensures p <= |s|
    ensures forall i :: 0 <= i < p ==> cmp(s[i], x) < 0
    ensures p < |s| ==> cmp(s[p], x) >= 0
  {
    if s == [] || cmp(s[0], x) >= 0 then 0 else 1 + Spot(cmp, s[1..], x)
  }

  function Insert<T>(cmp: Comparator<T>, s: seq<T>, x: T): seq<T> {
    var p := Spot(cmp, s, x);
    s[..p] + [x] + s[p..]
  }

  function Sort<T>(cmp: Comparator<T>, s: seq<T>): seq<T> {
    if s == [] then [] else Insert(cmp, Sort(cmp, s[..|s| - 1]), s[|s| - 1])
  }

  // ---------- a sorted permutation ----------

  /** A total preorder on the elements of a list. */
  predicate Preorder<T(==)>(cmp: Comparator<T>, s: seq<T>) {
    && (forall x, y :: x in s && y in s ==> (cmp(x, y) < 0 <==> cmp(y, x) > 0))
    && (forall x, y, z {:trigger cmp(x, y), cmp(y, z)} ::
          x in s && y in s && z in s && cmp(x, y) <= 0 && cmp(y, z) <= 0 ==> cmp(x, z) <= 0)
  }

  predicate Ordered<T>(cmp: Comparator<T>, s: seq<T>) {
    forall i, j :: 0 <= i < j < |s| ==> cmp(s[i], s[j]) <= 0
  }

  lemma InsertCounts<T>(cmp: Comparator<T>, t: seq<T>, x: T)
    ensures multiset(Insert(cmp, t, x)) == multiset(t) + multiset{x} && |Insert(cmp, t, x)| == |t| + 1
  {
    hide Spot;
    var p := Spot(cmp, t, x);
    assert t == t[..p] + t[p..];
  }

  lemma {:induction false} SortPermutes<T>(cmp: Comparator<T>, s: seq<T>)
    ensures multiset(Sort(cmp, s)) == multiset(s) && |Sort(cmp, s)| == |s|
  {
    hide Insert;
    if s != [] {
      var init := s[..|s| - 1];
      SortPermutes(cmp, init);
      InsertCounts(cmp, Sort(cmp, init), s[|s| - 1]);
      assert s == init + [s[|s| - 1]];
    }
  }

  lemma Members<T>(a: seq<T>, b: seq<T>, x: T)
    requires multiset(a) == multiset(b)
    ensures x in a <==> x in b
  {
    assert x in a <==> x in multiset(a);
    assert x in b <==> x in multiset(b);
  }

  lemma Flip<T>(cmp: Comparator<T>, all: seq<T>, x: T, y: T)
    requires Preorder(cmp, all) && x in all && y in all && cmp(x, y) >= 0
    ensures cmp(y, x) <= 0
  {
    assert cmp(y, x) > 0 ==> cmp(x, y) < 0;
  }

  lemma Through<T>(cmp: Comparator<T>, all: seq<T>, x: T, y: T, z: T)
    requires Preorder(cmp, all) && x in all && y in all && z in all && cmp(x, y) <= 0 && cmp(y, z) <= 0
    ensures cmp(x, z) <= 0
  {
  }

  lemma InsertOrders<T>(cmp: Comparator<T>, t: seq<T>, x: T, all: seq<T>)
    requires Preorder(cmp, all) && Ordered(cmp, t) && x in all && forall y :: y in t ==> y in all
    ensures Ordered(cmp, Insert(cmp, t, x))
  {
    hide Preorder, Spot;
    var p := Spot(cmp, t, x);
    var r := Insert(cmp, t, x);
    forall i, j | 0 <= i < j < |r|
      ensures cmp(r[i], r[j]) <= 0
    {
      if j == p {
        assert r[i] == t[i] && r[j] == x;
      } else if i == p {
        assert r[i] == x && r[j] == t[j - 1] && t[p] in all && t[j - 1] in all;
        Flip(cmp, all, t[p], x);
        if p < j - 1 { Through(cmp, all, x, t[p], t[j - 1]); }
      } else {
        assert r[i] == t[if i < p then i else i - 1] && r[j] == t[if j < p then j else j - 1];
      }
    }
  }

  /** For a total preorder, the result is in order. */
  lemma {:induction false} SortOrders<T>(cmp: Comparator<T>, s: seq<T>, all: seq<T>)
    requires Preorder(cmp, all) && forall y :: y in s ==> y in all
    ensures Ordered(cmp, Sort(cmp, s))
  {
    if s != [] {
      var t := Sort(cmp, s[..|s| - 1]);
      SortOrders(cmp, s[..|s| - 1], all);
      SortPermutes(cmp, s[..|s| - 1]);
      forall y | y in t
        ensures y in all
      {
        Members(t, s[..|s| - 1], y);
      }
      InsertOrders(cmp, t, s[|s| - 1], all);
    }
  }

  // ---------- equal elements ----------

  /** x stands before y in a list. */
  predicate Before<T(==)>(s: seq<T>, x: T, y: T) {
    exists i, j :: 0 <= i < j < |s| && s[i] == x && s[j] == y
  }

  lemma BeforeInsert<T>(cmp: Comparator<T>, t: seq<T>, z: T, x: T, y: T)
    requires Before(t, x, y)
    ensures Before(Insert(cmp, t, z), x, y)
  {
    var i, j :| 0 <= i < j < |t| && t[i] == x && t[j] == y;
    var p := Spot(cmp, t, z);
    var r := Insert(cmp, t, z);
    assert r[if i < p then i else i + 1] == x && r[if j < p then j else j + 1] == y;
  }

  /** The sort is not stable: elements that compare equal come out in the opposite order. */
  lemma {:induction false} EqualsAreReversed<T>(cmp: Comparator<T>, s: seq<T>, i: nat, j: nat)
    requires i < j < |s| && cmp(s[i], s[j]) == 0
    ensures Before(Sort(cmp, s), s[j], s[i])
  {
    hide Insert, Spot;
    var init, last := s[..|s| - 1], s[|s| - 1];
    var t := Sort(cmp, init);
    if j < |s| - 1 {
      assert init[i] == s[i] && init[j] == s[j];
      EqualsAreReversed(cmp, init, i, j);
      BeforeInsert(cmp, t, last, s[j], s[i]);
    } else {
      SortPermutes(cmp, init);
      assert init[i] == s[i];
      Members(t, init, s[i]);
      var k :| 0 <= k < |t| && t[k] == s[i];
      EqualNotBelow(cmp, t, k, last);
      InsertedBefore(cmp, t, k, last);
    }
  }

  lemma InsertedBefore<T>(cmp: Comparator<T>, t: seq<T>, k: nat, x: T)
    requires k < |t| && Spot(cmp, t, x) <= k
    ensures Before(Insert(cmp, t, x), x, t[k])
  {
    var p := Spot(cmp, t, x);
    var r := Insert(cmp, t, x);
    assert r[p] == x && r[k + 1] == t[k];
  }

  lemma EqualNotBelow<T>(cmp: Comparator<T>, t: seq<T>, k: nat, x: T)
    requires k < |t| && cmp(t[k], x) == 0
    ensures Spot(cmp, t, x) <= k
  {
  }
}
