/**
  `ProcessDelimiters` and the delimiter list of the parse context (pkg/goldmark/parser/delimiter.go,
  pkg/goldmark/parser/parser.go), updating siblings, list and lengths in place.
*/
module EmphasisContext {
  import opened Emphasis

  lemma {:induction false} SettleConcat(a: seq<Inline>, b: seq<Inline>, length: seq<nat>)
    requires MarksKnown(a, |length|) && MarksKnown(b, |length|)
    ensures MarksKnown(a + b, |length|) && Settle(a + b, length) == Settle(a, length) + Settle(b, length)
  {
    if a == [] {
      assert a + b == b;
    } else {
      assert (a + b)[1..] == a[1..] + b;
      SettleConcat(a[1..], b, length);
    }
  }

  /** Giving up one delimiter first makes no difference to giving up all. */
  lemma SettleOne(items: seq<Inline>, x: nat, length: seq<nat>)
    requires MarksKnown(items, |length|) && x < |items| && items[x].Mark?
    ensures var r := items[x := Rest(items[x].d, length[items[x].d])];
      && MarksKnown(r, |length|) && Settle(r, length) == Settle(items, length)
      && Marks(r) == Marks(items[..x]) + Marks(items[x + 1..])
      && Marks(items) == Marks(items[..x]) + [items[x].d] + Marks(items[x + 1..])
  {
    hide Marks, Settle;
    var d := items[x].d;
    var rest := Rest(d, length[d]);
    var a, z := items[..x], items[x + 1..];
    assert items == a + ([Mark(d)] + z) && items[x := rest] == a + ([rest] + z);
    SettleConcat([Mark(d)], z, length);
    SettleConcat([rest], z, length);
    SettleConcat(a, [Mark(d)] + z, length);
    SettleConcat(a, [rest] + z, length);
    SettleSame(d, rest, length);
    MarksConcat(a, [Mark(d)] + z);
    MarksConcat([Mark(d)], z);
    MarksConcat(a, [rest] + z);
    MarksConcat([rest], z);
    OneMark(Mark(d));
    OneMark(rest);
  }

  lemma SettleSame(d: nat, rest: Inline, length: seq<nat>)
    requires d < |length| && rest == Rest(d, length[d])
    ensures Settle([Mark(d)], length) == [rest] == Settle([rest], length)
  {
  }

  lemma {:induction false} NothingToSettle(items: seq<Inline>, length: seq<nat>)
    requires MarksKnown(items, |length|) && Marks(items) == []
    ensures Settle(items, length) == items
  {
    if items != [] { NothingToSettle(items[1..], length); }
  }

  lemma {:induction false} SettleFrame(items: seq<Inline>, length: seq<nat>, other: seq<nat>)
    requires MarksKnown(items, |length|) && |other| == |length|
    requires forall i :: 0 <= i < |items| && items[i].Mark? ==> length[items[i].d] == other[items[i].d]
    ensures Settle(items, length) == Settle(items, other)
  {
    if items != [] { SettleFrame(items[1..], length, other); }
  }

  class Context {
    const ds: seq<Delimiter>
    var items: seq<Inline>
    var delims: seq<nat>
    var length: seq<nat>

    /** The list holds the delimiters among the siblings, in order. */
    ghost predicate Linked()
      reads this
    {
      delims == Marks(items) && MarksKnown(items, |length|) && Distinct(delims) && Known(delims, ds) && |length| == |ds|
    }

    ghost function Now(): State
      reads this
    {
      State(items, length)
    }

    /** Delimiters as an inline parser has pushed them. */
    constructor (ds: seq<Delimiter>, items: seq<Inline>)
      requires Emphasis.Valid(ds, State(items, seq(|ds|, d requires 0 <= d < |ds| => ds[d].original)))
      ensures this.ds == ds && this.items == items && length == seq(|ds|, d requires 0 <= d < |ds| => ds[d].original)
      ensures Linked() && Emphasis.Valid(ds, Now())
    {
      this.ds := ds;
      this.items := items;
      delims := Marks(items);
      length := seq(|ds|, d requires 0 <= d < |ds| => ds[d].original);
    }

    /** The sibling that is the p-th delimiter of the list. */
    method Place(p: nat) returns (x: nat)
      requires Linked() && p < |delims|
      ensures x == At(items, p) && items[x] == Mark(delims[p])
    {
      hide Marks;
      x := 0;
      AtSplits(items, p);
      while items[x] != Mark(delims[p])
        invariant x <= At(items, p)
        decreases |items| - x
      {
        x := x + 1;
      }
      if x < At(items, p) { FirstMark(items, p, x); }
    }

    method RemoveDelimiter(p: nat)
      requires Linked() && p < |delims|
      modifies this
      ensures Linked() && length == old(length) && delims == Cut(old(delims), p, p + 1)
      ensures var x, d := At(old(items), p), old(delims)[p];
        items == old(items)[..x] + (if length[d] == 0 then [] else [Rest(d, length[d])]) + old(items)[x + 1..]
    {
      hide Marks, MarksKnown, At;
      AtSplits(items, p);
      var x := Place(p);
      var d := delims[p];
      DropPlace(ds, items, length, p);
      delims := delims[..p] + delims[p + 1..];
      if length[d] != 0 {
        items := items[..x] + [Rest(d, length[d])] + items[x + 1..];
      } else {
        items := items[..x] + items[x + 1..];
        assert old(items)[..x] + [] + old(items)[x + 1..] == items;
      }
    }

    /** Look back from the closer at place i for an opener. */
    method FindOpener(i: nat) returns (p: int, maybeOpener: bool)
      requires Linked() && i < |delims|
      ensures p == Nearest(ds, delims[..i], ds[delims[i]])
      ensures p < 0 ==> maybeOpener == exists q :: 0 <= q < i && Candidate(ds[delims[q]], ds[delims[i]])
    {
      hide Marks, Candidate, Blocked;
      var c := ds[delims[i]];
      maybeOpener := false;
      p := i - 1;
      while p >= 0
        invariant -1 <= p < i
        invariant Nearest(ds, delims[..i], c) == Nearest(ds, delims[..p + 1], c)
        invariant maybeOpener == exists q :: p < q < i && Candidate(ds[delims[q]], c)
      {
        assert delims[..p + 1][..p] == delims[..p] && delims[..p + 1][p] == delims[p];
        if Candidate(ds[delims[p]], c) {
          maybeOpener := true;
          if !Blocked(ds[delims[p]], c) { return; }
        }
        p := p - 1;
      }
    }

    /** Move the siblings between opener and closer into a new node behind the opener. */
    method Wrap(x: nat, ghost y: nat, k: nat, o: nat, c: nat) returns (inner: seq<Inline>)
      requires x < y < |items| && items[y] == Mark(c) && forall j :: x < j < y ==> items[j] != Mark(c)
      modifies this`items
      ensures inner == old(items)[x + 1..y]
      ensures items == old(items)[..x + 1] + [Span(k, o, c, inner)] + old(items)[y..]
    {
      hide Shed, Taken;
      ghost var s, n := items, 0;
      Untouched(s, x + 1);
      inner := [];
      while items[x + 1] != Mark(c)
        invariant n <= y - x - 1 && x + 1 < |items| && items[x + 1] == s[x + 1 + n]
        invariant inner == Taken(s, x + 1, n) && items == Shed(s, x + 1, n)
        decreases y - n
      {
        DropNext(s, x + 1, n);
        inner := inner + [items[x + 1]];
        items := items[..x + 1] + items[x + 2..];
        n := n + 1;
      }
      Assemble(s, x + 1, y, Span(k, o, c, inner));
      items := items[..x + 1] + [Span(k, o, c, inner)] + items[x + 1..];
    }

    /** Give up the delimiters between opener and closer, which are in the new node at x + 1 by now. */
    method RemoveBetween(p: nat, x: nat, inner: seq<Inline>, k: nat, o: nat, c: nat)
      requires p + |Marks(inner)| + 1 < |delims| && delims[p + 1..p + 1 + |Marks(inner)|] == Marks(inner)
      requires delims[p + 1 + |Marks(inner)|] == c && c !in Marks(inner) && MarksKnown(inner, |length|)
      requires x + 1 < |items| && items[x + 1] == Span(k, o, c, inner)
      modifies this`items, this`delims
      ensures items == old(items)[x + 1 := Span(k, o, c, Settle(inner, length))]
      ensures delims == Cut(old(delims), p + 1, p + 1 + |Marks(inner)|)
    {
      hide Marks, Settle, MarksKnown, Cut, At;
      CutNothing(delims, p + 1);
      var node := inner;
      ghost var n := 0;
      assert forall j :: 0 <= j < |Marks(inner)| ==>
          delims[p + 1 + j] == delims[p + 1..p + 1 + |Marks(inner)|][j] == Marks(inner)[j];
      while delims[p + 1] != c
        invariant n <= |Marks(inner)| && Marks(node) == Marks(inner)[n..] && MarksKnown(node, |length|)
        invariant Settle(node, length) == Settle(inner, length)
        invariant delims == Cut(old(delims), p + 1, p + 1 + n) && p + 1 < |delims|
        invariant items == old(items)[x + 1 := Span(k, o, c, node)]
        decreases |Marks(inner)| - n
      {
        CutMore(old(delims), p + 1, p + 1 + n);
        var d := delims[p + 1];
        delims := delims[..p + 1] + delims[p + 2..];
        node := GiveUpFirst(node, d, length);
        items := items[x + 1 := Span(k, o, c, node)];
        n := n + 1;
        CutMore(old(delims), p + 1, p + 1 + n);
      }
      CutMore(old(delims), p + 1, p + 1 + n);
      NothingToSettle(node, length);
    }

    /** A match: the effect of the second half of the main loop. */
    method MatchPair(p: nat, i: nat)
      requires Linked() && Emphasis.Valid(ds, Now()) && p < i < |delims|
      modifies this
      ensures Linked() && Now() == Match(old(Now()), p, i)
    {
      hide Marks, Settle, MarksKnown, Distinct, Lasting, Known, At, Layout, Match;
      var o, c := delims[p], delims[i];
      ghost var st := Now();
      PairFacts(ds, st, p, i);
      var k := Consumption(length[o], length[c]);
      length := length[o := length[o] - k];
      length := length[c := length[c] - k];
      var x := Place(p);
      ghost var y := At(items, i);
      var inner := Wrap(x, y, k, o, c);
      MiddleFrame(ds, st, p, i, length);
      assert delims[p + 1..p + 1 + |Marks(inner)|] == delims[p + 1..i];
      RemoveBetween(p, x, inner, k, o, c);
      ghost var a, z, span := st.items[..x], st.items[y + 1..], Span(k, o, c, Settle(inner, st.length));
      WrappedLayout(st.items, x, y, span, Span(k, o, c, inner), o, c);
      ListsAgree(ds, st, p, i, span, o, c);
      MatchIsLayout(ds, st, p, i);
      CutPair(st, p, i);
      DropSpent(p, o, c, a, span, z);
    }

    /** Take opener and closer out of the list if they have no characters left. */
    method DropSpent(p: nat, o: nat, c: nat, ghost a: seq<Inline>, ghost span: Inline, ghost z: seq<Inline>)
      requires Linked() && items == Layout(a, o, 1, span, c, 1, z) && span.Span? && p == |Marks(a)|
      requires p + 1 < |delims| && delims[p] == o && delims[p + 1] == c
      modifies this
      ensures Linked() && length == old(length) && items == Layout(a, o, length[o], span, c, length[c], z)
    {
      hide Marks, MarksKnown, Distinct, Known, At, Layout, Kept;
      LayoutPlaces(a, o, span, c, z);
      KnownAt(ds, delims, p);
      KnownAt(ds, delims, p + 1);
      LayoutSame(a, o, length[o], span, c, length[c], z);
      CutPlaces(delims, p);
      if length[o] == 0 {
        RemoveDelimiter(p);
        OpenerGone(a, o, span, c, z);
      }
      if length[c] == 0 {
        RemoveDelimiter(if length[o] == 0 then p else p + 1);
        CloserGone(a, o, length[o], span, c, z);
      }
    }

    /** `ClearDelimiters` with no bottom: from the last delimiter back over the siblings. */
    method ClearDelimiters()
      requires Linked() && Lasting(delims, length)
      modifies this
      ensures delims == [] && length == old(length) && items == Settle(old(items), length)
    {
      hide Marks, Settle, At;
      if delims != [] {
        var at := Place(|delims| - 1);
        AtSplits(items, |delims| - 1);
        var x: int := at;
        while x >= 0
          invariant -1 <= x < |items| && Linked() && Lasting(delims, length)
          invariant length == old(length) && Settle(items, length) == Settle(old(items), length)
          invariant Marks(items[x + 1..]) == []
        {
          if items[x].Mark? {
            ClearLast(x);
          } else {
            NoMarkHere(items, x, items[..x], items[x + 1..]);
          }
          x := x - 1;
        }
        assert items[0..] == items;
      }
      NothingToSettle(items, length);
    }

    /** Give up the last delimiter of the list, which is the sibling at x. */
    method ClearLast(ghost x: nat)
      requires Linked() && Lasting(delims, length) && x < |items| && items[x].Mark? && Marks(items[x + 1..]) == []
      modifies this
      ensures Linked() && Lasting(delims, length) && length == old(length) && |items| == |old(items)|
      ensures Settle(items, length) == Settle(old(items), length) && Marks(items[x..]) == []
    {
      hide Marks, Settle, At, Distinct, Known;
      SplitMarks(items, x);
      AtIs(items, x);
      SettleOne(items, x, length);
      UpdateAt(items, x, Rest(items[x].d, length[items[x].d]));
      LastingAt(delims, length, |delims| - 1);
      CutLasts(delims, |delims| - 1, |delims|, length);
      ghost var lead, rest := items[..x], items[x + 1..];
      RemoveDelimiter(|delims| - 1);
      NoMarkHere(items, x, lead, rest);
    }

    /** `ProcessDelimiters` with no bottom. */
    method ProcessDelimiters()
      requires Linked() && Emphasis.Valid(ds, Now())
      modifies this
      ensures delims == [] && items == Process(ds, old(Now()))
    {
      hide Marks, Step, Settle, Distinct, Known, MarksKnown, Nearest, Lasting, Candidate;
      ghost var st := Now();
      RunKeeps(ds, st, 0);
      var i := 0;
      while i < |delims|
        invariant Linked() && Emphasis.Valid(ds, Now()) && i <= |delims|
        invariant Run(ds, st, 0) == Run(ds, Now(), i)
        decreases Total(length), |delims| - i
      {
        StepProgress(ds, Now(), i);
        StepCases(ds, Now(), i);
        KnownAt(ds, delims, i);
        var c := ds[delims[i]];
        if !c.canClose {
          i := i + 1;
        } else {
          var p, maybeOpener := FindOpener(i);
          if p < 0 {
            if maybeOpener || c.canOpen {
              i := i + 1;
            } else {
              LastingAt(delims, length, i);
              RemoveDelimiter(i);
            }
          } else {
            var o := delims[p];
            MatchPair(p, i);
            i := if length[o] > 0 then p + 1 else p;
          }
        }
      }
      assert Run(ds, st, 0) == Now();
      ClearDelimiters();
    }
  }

  lemma CutPlaces(s: seq<nat>, p: nat)
    requires p + 1 < |s|
    ensures |Cut(s, p, p + 1)| == |s| - 1 && Cut(s, p, p + 1)[p] == s[p + 1]
  {
  }

  lemma CutPair(st: State, p: nat, i: nat)
    requires p < i < |Marks(st.items)|
    ensures var ms := Cut(Marks(st.items), p + 1, i);
      p + 1 < |ms| && ms[p] == Marks(st.items)[p] && ms[p + 1] == Marks(st.items)[i]
  {
    hide Marks;
  }

  /** What is known of two places of a valid list. */
  lemma PairFacts(ds: seq<Delimiter>, st: State, p: nat, i: nat)
    requires Emphasis.Valid(ds, st) && p < i < |Marks(st.items)|
    ensures var ms := Marks(st.items);
      var x, y := At(st.items, p), At(st.items, i);
      && ms[p] != ms[i] && ms[p] < |st.length| && ms[i] < |st.length|
      && st.length[ms[p]] >= 1 && st.length[ms[i]] >= 1
      && x < y && st.items[x] == Mark(ms[p]) && st.items[y] == Mark(ms[i])
      && (forall j :: x < j < y ==> st.items[j] != Mark(ms[i]))
      && Marks(st.items[..x]) == ms[..p] && Marks(st.items[y + 1..]) == ms[i + 1..]
      && Marks(st.items[x + 1..y]) == ms[p + 1..i] && ms[i] !in ms[p + 1..i] &&
          MarksKnown(st.items[x + 1..y], |st.length|)
  {
    hide Marks, At;
    AtMonotone(st.items, p, i);
    AtSplits(st.items, p);
    AtSplits(st.items, i);
    var x, y := At(st.items, p), At(st.items, i);
    forall j | x < j < y
      ensures st.items[j] != Mark(Marks(st.items)[i])
    {
      FirstMark(st.items, i, j);
    }
  }

  /** The lengths of the delimiters between opener and closer are untouched. */
  lemma MiddleFrame(ds: seq<Delimiter>, st: State, p: nat, i: nat, length: seq<nat>)
    requires Emphasis.Valid(ds, st) && p < i < |Marks(st.items)| && |length| == |st.length|
    requires forall d :: 0 <= d < |length| && d != Marks(st.items)[p] && d != Marks(st.items)[i] ==>
        length[d] == st.length[d]
    ensures var x, y := At(st.items, p), At(st.items, i);
      && x < y && MarksKnown(st.items[x + 1..y], |length|)
      && Settle(st.items[x + 1..y], length) == Settle(st.items[x + 1..y], st.length)
  {
    hide Marks, At, Settle;
    PairFacts(ds, st, p, i);
    var x, y := At(st.items, p), At(st.items, i);
    var mid := st.items[x + 1..y];
    var ms := Marks(st.items);
    forall j | 0 <= j < |mid| && mid[j].Mark?
      ensures st.length[mid[j].d] == length[mid[j].d]
    {
      MarkIsListed(mid, j);
      var q :| 0 <= q < |Marks(mid)| && Marks(mid)[q] == mid[j].d;
      assert ms[p + 1..i][q] == ms[p + 1 + q];
    }
    SettleFrame(mid, st.length, length);
  }

  lemma MarkIsListed(items: seq<Inline>, j: nat)
    requires j < |items| && items[j].Mark?
    ensures items[j].d in Marks(items)
  {
    hide Marks;
    assert items[..|items|] == items;
    Between(items, j, |items|);
  }

  /** Siblings around a new node, with what is left of its delimiters. */
  function Layout(a: seq<Inline>, o: nat, n: nat, span: Inline, c: nat, m: nat, z: seq<Inline>): seq<Inline> {
    a + Kept(o, n) + [span] + Kept(c, m) + z
  }

  lemma LayoutSame(a: seq<Inline>, o: nat, n: nat, span: Inline, c: nat, m: nat, z: seq<Inline>)
    ensures Layout(a, o, n, span, c, m, z) == Layout(a, o, if n == 0 then 0 else 1, span, c, if m == 0 then 0 else 1, z)
    ensures Layout(a, o, n, span, c, 1, z) == Layout(a, o, if n == 0 then 0 else 1, span, c, 1, z)
    ensures Layout(a, o, n, span, c, 0, z) == Layout(a, o, if n == 0 then 0 else 1, span, c, 0, z)
    ensures |Layout(a, o, 1, span, c, 1, z)| == |a| + 3 + |z| && |Layout(a, o, 0, span, c, 1, z)| == |a| + 2 + |z|
  {
  }

  lemma MatchIsLayout(ds: seq<Delimiter>, st: State, p: nat, i: nat)
    requires Emphasis.Valid(ds, st) && p < i < |Marks(st.items)|
    ensures var x, y := At(st.items, p), At(st.items, i);
      var o, c := Marks(st.items)[p], Marks(st.items)[i];
      && x < y && o != c && MarksKnown(st.items[x + 1..y], |st.length|)
      && var k, st' := Consumption(st.length[o], st.length[c]), Match(st, p, i);
         && st'.length == st.length[o := st.length[o] - k][c := st.length[c] - k]
         && st'.items == Layout(st.items[..x], o, st'.length[o], Span(k, o, c, Settle(st.items[x + 1..y], st.length)),
                                c, st'.length[c], st.items[y + 1..])
  {
    hide Marks, At, Settle, Kept;
    PairFacts(ds, st, p, i);
  }

  lemma WrappedLayout(items: seq<Inline>, x: nat, y: nat, span: Inline, first: Inline, o: nat, c: nat)
    requires x < y < |items| && items[x] == Mark(o) && items[y] == Mark(c)
    ensures var w := items[..x + 1] + [first] + items[y..];
      w[x + 1 := span] == Layout(items[..x], o, 1, span, c, 1, items[y + 1..])
  {
    assert items[..x + 1] == items[..x] + [Mark(o)] && items[y..] == [Mark(c)] + items[y + 1..];
  }

  /** The list without what was between opener and closer is the list of the new siblings. */
  lemma ListsAgree(ds: seq<Delimiter>, st: State, p: nat, i: nat, span: Inline, o: nat, c: nat)
    requires Emphasis.Valid(ds, st) && p < i < |Marks(st.items)| && o == Marks(st.items)[p] &&
        c == Marks(st.items)[i] && span.Span?
    ensures var ms := Marks(st.items);
      var items := Layout(st.items[..At(st.items, p)], o, 1, span, c, 1, st.items[At(st.items, i) + 1..]);
      && Marks(items) == Cut(ms, p + 1, i) && MarksKnown(items, |st.length|)
      && Known(Cut(ms, p + 1, i), ds) && Distinct(Cut(ms, p + 1, i))
  {
    hide Marks, At, Kept, Distinct;
    var ms := Marks(st.items);
    PairFacts(ds, st, p, i);
    var a, z := st.items[..At(st.items, p)], st.items[At(st.items, i) + 1..];
    MarksOfFive(a, Kept(o, 1), [span], Kept(c, 1), z);
    KeptMarks(o, 1);
    KeptMarks(c, 1);
    OneMark(span);
    CutOfParts(ms, p, i, 1, 1);
    CutKeeps(ds, ms, p + 1, i);
    MarksAreItems(Layout(a, o, 1, span, c, 1, z), |ds|);
  }

  lemma {:induction false} AtIs(items: seq<Inline>, x: nat)
    requires x < |items| && items[x].Mark?
    ensures |Marks(items[..x])| < |Marks(items)| && At(items, |Marks(items[..x])|) == x
  {
    if x == 0 {
      assert items[..0] == [];
    } else {
      assert items[..x][1..] == items[1..][..x - 1];
      AtIs(items[1..], x - 1);
    }
  }

  lemma LayoutPlaces(a: seq<Inline>, o: nat, span: Inline, c: nat, z: seq<Inline>)
    requires span.Span?
    ensures var w, v := Layout(a, o, 1, span, c, 1, z), Layout(a, o, 0, span, c, 1, z);
      && |Marks(a)| + 1 < |Marks(w)| && At(w, |Marks(a)|) == |a| && At(w, |Marks(a)| + 1) == |a| + 2
      && |Marks(a)| < |Marks(v)| && At(v, |Marks(a)|) == |a| + 1
  {
    hide Marks, At;
    var w, v := Layout(a, o, 1, span, c, 1, z), Layout(a, o, 0, span, c, 1, z);
    AtIs(w, |a|);
    AtIs(w, |a| + 2);
    AtIs(v, |a| + 1);
    assert w[..|a|] == a && w[..|a| + 2] == a + [Mark(o)] + [span] && v[..|a| + 1] == a + [span];
    MarksConcat(a + [Mark(o)], [span]);
    MarksConcat(a, [Mark(o)]);
    MarksConcat(a, [span]);
    OneMark(span);
    OneMark(Mark(o));
  }

  lemma OpenerGone(a: seq<Inline>, o: nat, span: Inline, c: nat, z: seq<Inline>)
    ensures var w := Layout(a, o, 1, span, c, 1, z);
      w[..|a|] + [] + w[|a| + 1..] == Layout(a, o, 0, span, c, 1, z)
  {
  }

  lemma CloserGone(a: seq<Inline>, o: nat, n: nat, span: Inline, c: nat, z: seq<Inline>)
    ensures var w := Layout(a, o, n, span, c, 1, z);
      var y := |a| + if n == 0 then 1 else 2;
      w[..y] + [] + w[y + 1..] == Layout(a, o, n, span, c, 0, z)
  {
  }

  /** A delimiter stands at one place only. */
  lemma FirstMark(items: seq<Inline>, p: nat, x: nat)
    requires p < |Marks(items)| && Distinct(Marks(items)) && x < At(items, p)
    ensures items[x] != Mark(Marks(items)[p])
  {
    hide Marks, At;
    AtSplits(items, p);
    var y := At(items, p);
    if items[x] == Mark(Marks(items)[p]) {
      Between(items, x, y);
      var q := |Marks(items[..x])|;
      assert Marks(items)[..p][q] == Marks(items)[p];
    }
  }

  /** Siblings and list after taking out the p-th delimiter, with or without its text. */
  lemma DropPlace(ds: seq<Delimiter>, items: seq<Inline>, length: seq<nat>, p: nat)
    requires p < |Marks(items)| && Known(Marks(items), ds) && Distinct(Marks(items)) && |length| == |ds|
    ensures var x, d := At(items, p), Marks(items)[p];
      var ms := Cut(Marks(items), p, p + 1);
      && Known(ms, ds) && Distinct(ms)
      && Marks(items[..x] + [Rest(d, length[d])] + items[x + 1..]) == ms
      && Marks(items[..x] + items[x + 1..]) == ms
      && MarksKnown(items[..x] + [Rest(d, length[d])] + items[x + 1..], |ds|)
      && MarksKnown(items[..x] + items[x + 1..], |ds|)
  {
    hide Marks, At;
    var x, d := At(items, p), Marks(items)[p];
    AtSplits(items, p);
    CutKeeps(ds, Marks(items), p, p + 1);
    RemoveMarks(State(items, length), p);
    MarksConcat(items[..x], items[x + 1..]);
    MarksAreItems(items[..x] + [Rest(d, length[d])] + items[x + 1..], |ds|);
    MarksAreItems(items[..x] + items[x + 1..], |ds|);
  }

  method FirstDelimiter(items: seq<Inline>) returns (x: nat)
    requires Marks(items) != []
    ensures x == At(items, 0)
  {
    x := 0;
    assert items[0..] == items;
    while !items[x].Mark?
      invariant x < |items| && Marks(items[x..]) == Marks(items) && At(items, 0) == x + At(items[x..], 0)
      decreases |items| - x
    {
      assert items[x..][1..] == items[x + 1..];
      x := x + 1;
    }
  }

  /** The text of the first delimiter in its place. */
  method GiveUpFirst(items: seq<Inline>, d: nat, length: seq<nat>) returns (r: seq<Inline>)
    requires Marks(items) != [] && Marks(items)[0] == d && MarksKnown(items, |length|)
    ensures Marks(r) == Marks(items)[1..] && MarksKnown(r, |length|) && Settle(r, length) == Settle(items, length)
  {
    hide Marks, Settle, MarksKnown, At;
    var x := FirstDelimiter(items);
    AtSplits(items, 0);
    KnownMark(items, x, |length|);
    SettleOne(items, x, length);
    r := items[x := Rest(d, length[d])];
  }

  lemma KnownMark(items: seq<Inline>, x: nat, n: nat)
    requires MarksKnown(items, n) && x < |items| && items[x].Mark?
    ensures items[x].d < n
  {
  }

  lemma CutNothing(s: seq<nat>, a: nat)
    requires a <= |s|
    ensures Cut(s, a, a) == s
  {
  }

  lemma CutMore(s: seq<nat>, a: nat, b: nat)
    requires a <= b < |s|
    ensures var r := Cut(s, a, b);
      |r| == |s| - (b - a) && r[a] == s[b] && r[..a] + r[a + 1..] == Cut(s, a, b + 1)
  {
  }

  /** A list without the n elements from a on, and those elements. */
  function Shed<T>(s: seq<T>, a: nat, n: nat): seq<T>
    requires a + n <= |s|
  {
    s[..a] + s[a + n..]
  }

  function Taken<T>(s: seq<T>, a: nat, n: nat): seq<T>
    requires a + n <= |s|
  {
    s[a..a + n]
  }

  lemma Untouched<T>(s: seq<T>, a: nat)
    requires a < |s|
    ensures Shed(s, a, 0) == s && Taken(s, a, 0) == []
  {
  }

  lemma DropNext<T>(s: seq<T>, a: nat, n: nat)
    requires a + n + 1 < |s|
    ensures var r := Shed(s, a, n);
      && |r| > a + 1 && r[a] == s[a + n] && r[..a] + r[a + 1..] == Shed(s, a, n + 1) &&
          Shed(s, a, n + 1)[a] == s[a + n + 1]
      && Taken(s, a, n) + [s[a + n]] == Taken(s, a, n + 1)
  {
  }

  lemma Assemble<T>(s: seq<T>, a: nat, y: nat, v: T)
    requires a <= y <= |s|
    ensures var r := Shed(s, a, y - a); |r| >= a && r[..a] + [v] + r[a..] == s[..a] + [v] + s[y..]
    ensures Taken(s, a, y - a) == s[a..y]
  {
  }

  lemma SplitAt<T>(s: seq<T>, x: nat)
    requires x < |s|
    ensures s == s[..x] + ([s[x]] + s[x + 1..])
  {
  }

  lemma UpdateAt<T>(s: seq<T>, x: nat, y: T)
    requires x < |s|
    ensures s[x := y] == s[..x] + [y] + s[x + 1..]
  {
  }

  lemma SplitMarks(items: seq<Inline>, x: nat)
    requires x < |items|
    ensures Marks(items) == Marks(items[..x]) + (Marks([items[x]]) + Marks(items[x + 1..]))
    ensures Marks([items[x]]) == if items[x].Mark? then [items[x].d] else []
  {
    hide Marks;
    SplitAt(items, x);
    MarksConcat(items[..x], [items[x]] + items[x + 1..]);
    MarksConcat([items[x]], items[x + 1..]);
    OneMark(items[x]);
  }

  lemma NoMarkHere(items: seq<Inline>, x: nat, lead: seq<Inline>, rest: seq<Inline>)
    requires x == |lead| < |items| && items == lead + [items[x]] + rest && !items[x].Mark? && Marks(rest) == []
    ensures Marks(items[x..]) == []
  {
    assert items[x..] == [items[x]] + rest;
    MarksConcat([items[x]], rest);
    OneMark(items[x]);
  }

  /** A step, branch by branch. */
  lemma StepCases(ds: seq<Delimiter>, st: State, i: nat)
    requires Emphasis.Valid(ds, st) && i < |Marks(st.items)|
    ensures var ms := Marks(st.items);
      ms[i] < |ds| && Known(ms[..i], ds) && (forall q :: 0 <= q < i ==> ms[q] < |ds|) &&
      var c := ds[ms[i]];
      var p := Nearest(ds, ms[..i], c);
      Step(ds, st, i) ==
        if !c.canClose then (st, i + 1)
        else if p >= 0 then
          DistinctAt(ms, p, i);
          (Match(st, p, i), if st.length[ms[p]] > Consumption(st.length[ms[p]], st.length[ms[i]]) then p + 1 else p)
        else if c.canOpen || exists q :: 0 <= q < i && Candidate(ds[ms[q]], c) then (st, i + 1)
        else (Remove(st, i), i)
  {
    hide Marks, Match, Remove, Nearest, Candidate;
  }
}
