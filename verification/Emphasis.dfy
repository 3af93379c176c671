/**
  Emphasis matching of pkg/goldmark/parser/delimiter.go (section 6.2 of CommonMark 0.30): the
  delimiter list is worked off by a closer that looks back for the nearest opener, and the
  siblings between the two become the children of a new node.
*/
module Emphasis {

  /** What does not change about a run of delimiter characters. */
  datatype Delimiter = Delimiter(canOpen: bool, canClose: bool, original: nat, symbol: char)

  /**
    A sibling: a leaf that is no delimiter, a delimiter still in the list, the text an unmatched
    delimiter leaves, or an emphasis node with the delimiters that gave its characters.
  */
  datatype Inline =
    | Leaf(id: nat)
    | Mark(d: nat)
    | Rest(d: nat, n: nat)
    | Span(level: nat, opener: nat, closer: nat, children: seq<Inline>)

  /** The siblings, and the characters each delimiter has left. */
  datatype State = State(items: seq<Inline>, length: seq<nat>)

  // ---------- the delimiter list ----------

  /** The delimiters among the siblings, in order: the delimiter list. */
  function Marks(items: seq<Inline>): seq<nat> {
    if items == [] then [] else Own(items[0]) + Marks(items[1..])
  }

  function Own(i: Inline): seq<nat> {
    if i.Mark? then [i.d] else []
  }

  lemma Associate<T>(a: seq<T>, b: seq<T>, c: seq<T>)
    ensures a + (b + c) == a + b + c
  {
  }

  lemma MarksStep(items: seq<Inline>)
    requires items != []
    ensures Marks(items) == Own(items[0]) + Marks(items[1..])
  {
  }

  lemma {:induction false} MarksConcat(a: seq<Inline>, b: seq<Inline>)
    ensures Marks(a + b) == Marks(a) + Marks(b)
  {
    if a == [] {
      assert a + b == b;
    } else {
      assert (a + b)[1..] == a[1..] + b && (a + b)[0] == a[0];
      hide Marks, Own;
      MarksStep(a + b);
      MarksStep(a);
      MarksConcat(a[1..], b);
      Associate(Own(a[0]), Marks(a[1..]), Marks(b));
    }
  }

  lemma MarksHead(items: seq<Inline>)
    requires items != []
    ensures Marks(items) == Marks([items[0]]) + Marks(items[1..])
  {
    assert items == [items[0]] + items[1..];
    MarksConcat([items[0]], items[1..]);
  }

  /** The place of the p-th delimiter among the siblings. */
  function At(items: seq<Inline>, p: nat): (x: nat)
    requires p < |Marks(items)|
    ensures x < |items|
  {
    if !items[0].Mark? then 1 + At(items[1..], p)
    else if p == 0 then 0
    else 1 + At(items[1..], p - 1)
  }

  lemma Shift<T>(a: seq<T>, m: seq<T>, q: nat)
    requires q < |m|
    ensures (a + m)[|a| + q] == m[q] && (a + m)[..|a| + q] == a + m[..q] && (a + m)[|a| + q + 1..] == m[q + 1..]
  {
  }

  lemma HeadOf<T>(s: seq<T>, x: nat)
    requires 0 < x < |s|
    ensures s[..x][0] == s[0] && s[..x][1..] == s[1..][..x - 1] && s[1..][x..] == s[x + 1..] && s[1..][x - 1] == s[x]
  {
  }

  lemma {:induction false} AtSplits(items: seq<Inline>, p: nat)
    requires p < |Marks(items)|
    ensures var x := At(items, p);
      && items[x] == Mark(Marks(items)[p])
      && Marks(items[..x]) == Marks(items)[..p] && Marks(items[x + 1..]) == Marks(items)[p + 1..]
  {
    var x := At(items, p);
    MarksStep(items);
    if x == 0 {
      assert items[..0] == [];
    } else {
      var tail := items[1..];
      AtSplits(tail, if items[0].Mark? then p - 1 else p);
      hide Marks, At;
      HeadOf(items, x);
      MarksStep(items[..x]);
      Shift(Own(items[0]), Marks(tail), p - |Own(items[0])|);
    }
  }

  lemma PrefixMarks(items: seq<Inline>, x: nat, y: nat)
    requires x <= y <= |items|
    ensures |Marks(items[..x])| <= |Marks(items[..y])|
  {
    assert items[..y] == items[..x] + items[x..y];
    MarksConcat(items[..x], items[x..y]);
  }

  lemma AtMonotone(items: seq<Inline>, p: nat, q: nat)
    requires p < q < |Marks(items)|
    ensures At(items, p) < At(items, q)
    ensures Marks(items[At(items, p) + 1..At(items, q)]) == Marks(items)[p + 1..q]
  {
    hide Marks, At;
    var x, y := At(items, p), At(items, q);
    AtSplits(items, p);
    AtSplits(items, q);
    if y <= x { PrefixMarks(items, y, x); }
    Between(items, x, y);
  }

  lemma Between(items: seq<Inline>, x: nat, y: nat)
    requires x < y <= |items| && items[x].Mark?
    ensures Marks(items[..y]) == Marks(items[..x]) + [items[x].d] + Marks(items[x + 1..y])
  {
    assert items[..y] == items[..x] + ([items[x]] + items[x + 1..y]);
    MarksConcat(items[..x], [items[x]] + items[x + 1..y]);
    MarksConcat([items[x]], items[x + 1..y]);
    OneMark(items[x]);
  }

  lemma OneMark(i: Inline)
    ensures Marks([i]) == if i.Mark? then [i.d] else []
  {
  }

  // ---------- matching ----------

  /** CommonMark's rules 9 and 10: lengths that add up to a multiple of three do not match. */
  predicate Blocked(o: Delimiter, c: Delimiter) {
    (o.canClose || c.canOpen) && (o.original + c.original) % 3 == 0 && c.original % 3 != 0
  }

  /** May o open what c closes, whatever their lengths? */
  predicate Candidate(o: Delimiter, c: Delimiter) {
    o.canOpen && o.symbol == c.symbol
  }

  predicate Opens(o: Delimiter, c: Delimiter) {
    Candidate(o, c) && !Blocked(o, c)
  }

  /** `CalcComsumption` of a pair that opens. */
  function Consumption(o: nat, c: nat): nat {
    if o >= 2 && c >= 2 then 2 else 1
  }

  predicate Known(ms: seq<nat>, ds: seq<Delimiter>) {
    forall i :: 0 <= i < |ms| ==> ms[i] < |ds|
  }

  /** The last place in a list whose delimiter opens c, or -1. */
  function Nearest(ds: seq<Delimiter>, ms: seq<nat>, c: Delimiter): (p: int)
    requires Known(ms, ds)
    ensures -1 <= p < |ms| && (p >= 0 ==> Opens(ds[ms[p]], c))
    ensures forall q :: p < q < |ms| ==> !Opens(ds[ms[q]], c)
  {
    if ms == [] then -1
    else if Opens(ds[ms[|ms| - 1]], c) then |ms| - 1
    else Nearest(ds, ms[..|ms| - 1], c)
  }

  /** The siblings once every delimiter among them is given up. */
  function Settle(items: seq<Inline>, length: seq<nat>): (r: seq<Inline>)
    requires MarksKnown(items, |length|)
    ensures |r| == |items|
  {
    if items == [] then []
    else [if items[0].Mark? then Rest(items[0].d, length[items[0].d]) else items[0]] + Settle(items[1..], length)
  }

  /** A delimiter that has characters left stays, the others go. */
  function Kept(d: nat, n: nat): seq<Inline> {
    if n == 0 then [] else [Mark(d)]
  }

  // ---------- states ----------

  predicate Distinct(ms: seq<nat>) {
    forall i, j :: 0 <= i < j < |ms| ==> ms[i] != ms[j]
  }

  /** The delimiters in the list are known, different, and have characters left. */
  predicate Valid(ds: seq<Delimiter>, st: State) {
    var ms := Marks(st.items);
    |st.length| == |ds| && Known(ms, ds) && Distinct(ms) && Lasting(ms, st.length) && MarksKnown(st.items, |ds|)
  }

  predicate Lasting(ms: seq<nat>, length: seq<nat>) {
    forall i :: 0 <= i < |ms| ==> ms[i] < |length| && length[ms[i]] >= 1
  }

  lemma LastingAt(ms: seq<nat>, length: seq<nat>, i: nat)
    requires Lasting(ms, length) && i < |ms|
    ensures ms[i] < |length| && length[ms[i]] >= 1
  {
  }

  predicate MarksKnown(items: seq<Inline>, n: nat) {
    forall i :: 0 <= i < |items| && items[i].Mark? ==> items[i].d < n
  }

  /** Give up the delimiter at place p: its text remains. */
  function Remove(st: State, p: nat): State
    requires p < |Marks(st.items)| && Marks(st.items)[p] < |st.length|
  {
    var x := At(st.items, p);
    var d := Marks(st.items)[p];
    st.(items := st.items[..x] + [Rest(d, st.length[d])] + st.items[x + 1..])
  }

  /** Match the delimiters at places p and i. */
  function Match(st: State, p: nat, i: nat): State
    requires p < i < |Marks(st.items)| && MarksKnown(st.items, |st.length|)
    requires var ms := Marks(st.items);
      ms[p] != ms[i] && ms[p] < |st.length| && ms[i] < |st.length| && st.length[ms[p]] >= 1 && st.length[ms[i]] >= 1
  {
    AtMonotone(st.items, p, i);
    var x, y := At(st.items, p), At(st.items, i);
    var o, c := Marks(st.items)[p], Marks(st.items)[i];
    var k := Consumption(st.length[o], st.length[c]);
    State(
      st.items[..x] + Kept(o, st.length[o] - k)
      + [Span(k, o, c, Settle(st.items[x + 1..y], st.length))]
      + Kept(c, st.length[c] - k) + st.items[y + 1..],
      st.length[o := st.length[o] - k][c := st.length[c] - k])
  }

  /** One round of the main loop, with the closer at place i. */
  function Step(ds: seq<Delimiter>, st: State, i: nat): (State, nat)
    requires Valid(ds, st) && i < |Marks(st.items)|
  {
    var ms := Marks(st.items);
    var c := ds[ms[i]];
    if !c.canClose then (st, i + 1)
    else
      var p := Nearest(ds, ms[..i], c);
      if p >= 0 then
        var o := ms[p];
        (Match(st, p, i), if st.length[o] > Consumption(st.length[o], st.length[ms[i]]) then p + 1 else p)
      else if c.canOpen || exists q :: 0 <= q < i && Candidate(ds[ms[q]], c) then (st, i + 1)
      else (Remove(st, i), i)
  }

  // ---------- what a step does to the list ----------

  lemma {:induction false} SettleHasNoMarks(items: seq<Inline>, length: seq<nat>)
    requires MarksKnown(items, |length|)
    ensures Marks(Settle(items, length)) == []
  {
    if items != [] { SettleHasNoMarks(items[1..], length); }
  }

  lemma KeptMarks(d: nat, n: nat)
    ensures Marks(Kept(d, n)) == if n == 0 then [] else [d]
  {
  }

  function Cut(ms: seq<nat>, a: nat, b: nat): seq<nat>
    requires a <= b <= |ms|
  {
    ms[..a] + ms[b..]
  }

  lemma RemoveMarks(st: State, p: nat)
    requires p < |Marks(st.items)| && Marks(st.items)[p] < |st.length|
    ensures Marks(Remove(st, p).items) == Cut(Marks(st.items), p, p + 1)
  {
    hide Marks;
    AtSplits(st.items, p);
    var x := At(st.items, p);
    var d := Marks(st.items)[p];
    var rest := Rest(d, st.length[d]);
    MarksConcat(st.items[..x] + [rest], st.items[x + 1..]);
    MarksConcat(st.items[..x], [rest]);
    OneMark(rest);
  }

  lemma MarksOfFive(a: seq<Inline>, b: seq<Inline>, c: seq<Inline>, d: seq<Inline>, e: seq<Inline>)
    ensures Marks(a + b + c + d + e) == Marks(a) + Marks(b) + Marks(c) + Marks(d) + Marks(e)
  {
    hide Marks;
    MarksConcat(a + b + c + d, e);
    MarksConcat(a + b + c, d);
    MarksConcat(a + b, c);
    MarksConcat(a, b);
  }

  lemma CutOfParts(ms: seq<nat>, p: nat, i: nat, x: nat, y: nat)
    requires p < i < |ms|
    ensures ms[..p] + (if x == 0 then [] else [ms[p]]) + [] + (if y == 0 then [] else [ms[i]]) + ms[i + 1..]
         == Cut(ms, if x == 0 then p else p + 1, if y == 0 then i + 1 else i)
  {
    assert ms[..p] + [ms[p]] == ms[..p + 1] && [ms[i]] + ms[i + 1..] == ms[i..];
  }

  lemma MatchMarks(st: State, p: nat, i: nat)
    requires p < i < |Marks(st.items)| && MarksKnown(st.items, |st.length|)
    requires var ms := Marks(st.items);
      ms[p] != ms[i] && ms[p] < |st.length| && ms[i] < |st.length| && st.length[ms[p]] >= 1 && st.length[ms[i]] >= 1
    ensures var ms, st' := Marks(st.items), Match(st, p, i);
      Marks(st'.items) == Cut(ms, if st'.length[ms[p]] == 0 then p else p + 1, if st'.length[ms[i]] == 0 then i + 1
          else i)
  {
    hide Marks, Settle, Kept, At, Cut;
    AtMonotone(st.items, p, i);
    AtSplits(st.items, p);
    AtSplits(st.items, i);
    var x, y := At(st.items, p), At(st.items, i);
    var o, c := Marks(st.items)[p], Marks(st.items)[i];
    var k := Consumption(st.length[o], st.length[c]);
    var a, b := Kept(o, st.length[o] - k), Kept(c, st.length[c] - k);
    var span := Span(k, o, c, Settle(st.items[x + 1..y], st.length));
    MarksOfFive(st.items[..x], a, [span], b, st.items[y + 1..]);
    KeptMarks(o, st.length[o] - k);
    KeptMarks(c, st.length[c] - k);
    OneMark(span);
    CutOfParts(Marks(st.items), p, i, st.length[o] - k, st.length[c] - k);
  }

  lemma {:induction false} MarksAreItems(items: seq<Inline>, n: nat)
    requires forall i :: 0 <= i < |Marks(items)| ==> Marks(items)[i] < n
    ensures MarksKnown(items, n)
  {
    if items != [] {
      MarksHead(items);
      OneMark(items[0]);
      var head, tail := Marks([items[0]]), Marks(items[1..]);
      assert forall i :: 0 <= i < |tail| ==> tail[i] == Marks(items)[|head| + i];
      assert items[0].Mark? ==> items[0].d == Marks(items)[0];
      MarksAreItems(items[1..], n);
      assert forall i :: 1 <= i < |items| ==> items[i] == items[1..][i - 1];
    }
  }

  /** A list without some of its entries is as good. */
  lemma CutKeeps(ds: seq<Delimiter>, ms: seq<nat>, a: nat, b: nat)
    requires a <= b <= |ms| && Known(ms, ds) && Distinct(ms)
    ensures Known(Cut(ms, a, b), ds) && Distinct(Cut(ms, a, b))
  {
    var ms' := Cut(ms, a, b);
    assert forall j :: 0 <= j < |ms'| ==> ms'[j] == ms[if j < a then j else j + b - a];
  }

  lemma CutLasts(ms: seq<nat>, a: nat, b: nat, length: seq<nat>)
    requires a <= b <= |ms| && Lasting(ms, length)
    ensures Lasting(Cut(ms, a, b), length)
  {
    var ms' := Cut(ms, a, b);
    assert forall j :: 0 <= j < |ms'| ==> ms'[j] == ms[if j < a then j else j + b - a];
  }

  lemma CutLastsAfterMatch(ms: seq<nat>, length: seq<nat>, p: nat, i: nat, x: nat, y: nat)
    requires p < i < |ms| && Distinct(ms) && Lasting(ms, length)
    ensures Lasting(Cut(ms, if x == 0 then p else p + 1, if y == 0 then i + 1 else i), length[ms[p] := x][ms[i] := y])
  {
    var a, b := if x == 0 then p else p + 1, if y == 0 then i + 1 else i;
    var ms' := Cut(ms, a, b);
    assert forall j :: 0 <= j < |ms'| ==> ms'[j] == ms[if j < a then j else j + b - a];
  }

  // ---------- the whole run ----------

  function Total(length: seq<nat>): nat {
    if length == [] then 0 else length[0] + Total(length[1..])
  }

  lemma {:induction false} TotalUpdate(length: seq<nat>, d: nat, n: nat)
    requires d < |length|
    ensures Total(length[d := n]) == Total(length) - length[d] + n
  {
    if d > 0 {
      assert length[d := n][1..] == length[1..][d - 1 := n];
      TotalUpdate(length[1..], d - 1, n);
    }
  }

  /** A step keeps the state valid and makes progress: characters are used up, or the closer moves on. */
  lemma StepProgress(ds: seq<Delimiter>, st: State, i: nat)
    requires Valid(ds, st) && i < |Marks(st.items)|
    ensures var (st', i') := Step(ds, st, i);
      && Valid(ds, st') && i' <= |Marks(st'.items)|
      && (Total(st'.length) < Total(st.length)
          || (st'.length == st.length && |Marks(st'.items)| - i' < |Marks(st.items)| - i))
  {
    hide Marks, Match, Remove, Nearest, Total, Distinct, Lasting, Known, MarksKnown;
    var ms := Marks(st.items);
    assert ms[i] < |ds| by { assert Known(ms, ds); KnownAt(ds, ms, i); }
    if ds[ms[i]].canClose {
      KnownPrefix(ds, ms, i);
      var p := Nearest(ds, ms[..i], ds[ms[i]]);
      if p >= 0 {
        MatchProgress(ds, st, p, i);
      } else {
        RemoveProgress(ds, st, i);
      }
    }
  }

  lemma KnownAt(ds: seq<Delimiter>, ms: seq<nat>, i: nat)
    requires Known(ms, ds) && i < |ms|
    ensures ms[i] < |ds|
  {
  }

  lemma KnownPrefix(ds: seq<Delimiter>, ms: seq<nat>, i: nat)
    requires Known(ms, ds) && i <= |ms|
    ensures Known(ms[..i], ds)
  {
  }

  lemma RemoveProgress(ds: seq<Delimiter>, st: State, i: nat)
    requires Valid(ds, st) && i < |Marks(st.items)|
    ensures Valid(ds, Remove(st, i)) && Remove(st, i).length == st.length
    ensures |Marks(Remove(st, i).items)| == |Marks(st.items)| - 1
  {
    hide Marks, At, MarksKnown, Distinct;
    RemoveMarks(st, i);
    CutKeeps(ds, Marks(st.items), i, i + 1);
    CutLasts(Marks(st.items), i, i + 1, st.length);
    MarksAreItems(Remove(st, i).items, |ds|);
  }

  lemma MatchProgress(ds: seq<Delimiter>, st: State, p: nat, i: nat)
    requires Valid(ds, st) && p < i < |Marks(st.items)|
    ensures var ms := Marks(st.items);
      var left := if st.length[ms[p]] > Consumption(st.length[ms[p]], st.length[ms[i]]) then p + 1 else p;
      var st' := Match(st, p, i);
      && Valid(ds, st') && left <= |Marks(st'.items)| && Total(st'.length) < Total(st.length)
  {
    hide Marks, At, Settle, MarksKnown, Total, Distinct, Known;
    var ms := Marks(st.items);
    var o, c := ms[p], ms[i];
    assert o != c by { DistinctAt(ms, p, i); }
    assert Lasting(ms, st.length);
    var k := Consumption(st.length[o], st.length[c]);
    MatchMarks(st, p, i);
    var x, y := st.length[o] - k, st.length[c] - k;
    CutKeeps(ds, ms, if x == 0 then p else p + 1, if y == 0 then i + 1 else i);
    CutLastsAfterMatch(ms, st.length, p, i, x, y);
    TotalUpdate(st.length, o, st.length[o] - k);
    TotalUpdate(st.length[o := st.length[o] - k], c, st.length[c] - k);
    var st' := Match(st, p, i);
    KnownMarks(ds, Marks(st'.items));
    MarksAreItems(st'.items, |ds|);
  }

  lemma KnownMarks(ds: seq<Delimiter>, ms: seq<nat>)
    requires Known(ms, ds)
    ensures forall i :: 0 <= i < |ms| ==> ms[i] < |ds|
  {
  }

  lemma DistinctAt(ms: seq<nat>, p: nat, i: nat)
    requires Distinct(ms) && p < i < |ms|
    ensures ms[p] != ms[i]
  {
  }

  /** The main loop from a closer on. */
  function Run(ds: seq<Delimiter>, st: State, i: nat): State
    requires Valid(ds, st) && i <= |Marks(st.items)|
    decreases Total(st.length), |Marks(st.items)| - i
  {
    if i == |Marks(st.items)| then st
    else
      StepProgress(ds, st, i);
      var (st', i') := Step(ds, st, i);
      Run(ds, st', i')
  }

  /** `ProcessDelimiters` with no bottom: the main loop, then all delimiters left are given up. */
  function Process(ds: seq<Delimiter>, st: State): seq<Inline>
    requires Valid(ds, st)
  {
    RunKeeps(ds, st, 0);
    var end := Run(ds, st, 0);
    Settle(end.items, end.length)
  }

  lemma {:induction false} RunKeeps(ds: seq<Delimiter>, st: State, i: nat)
    requires Valid(ds, st) && i <= |Marks(st.items)|
    ensures Valid(ds, Run(ds, st, i))
    decreases Total(st.length), |Marks(st.items)| - i
  {
    hide Valid, Step, Marks, Total;
    if i < |Marks(st.items)| {
      StepProgress(ds, st, i);
      var (st', i') := Step(ds, st, i);
      RunKeeps(ds, st', i');
    }
  }
}
