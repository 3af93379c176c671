/**
  What emphasis matching keeps: the characters and leaves of the source in their order, spans that
  only pair delimiters which may be paired, and a rest in which no pair is left to be matched.
*/
module EmphasisLaws {
  import opened Emphasis

  /** The source, character by character: a leaf, or one character of a delimiter. */
  datatype Token = Word(id: nat) | Char(d: nat)

  function Chars(d: nat, n: nat): seq<Token> {
    if n == 0 then [] else Chars(d, n - 1) + [Char(d)]
  }

  lemma {:induction false} CharsSplit(d: nat, m: nat, n: nat)
    ensures Chars(d, m) + Chars(d, n) == Chars(d, m + n)
  {
    if n > 0 { CharsSplit(d, m, n - 1); }
  }

  /**
    Reading the tree back into source order. A node stands for `level` characters of its opener, its
    children and `level` characters of its closer; a delimiter inside a node would be lost.
  */
  function Unfold(items: seq<Inline>, length: seq<nat>): seq<Token>
    decreases items
  {
    if items == [] then [] else UnfoldOne(items[0], length) + Unfold(items[1..], length)
  }

  function UnfoldOne(i: Inline, length: seq<nat>): seq<Token>
    decreases i
  {
    match i
    case Leaf(id) => [Word(id)]
    case Mark(d) => if d < |length| then Chars(d, length[d]) else []
    case Rest(d, n) => Chars(d, n)
    case Span(k, o, c, children) => Chars(o, k) + Unfold(children, []) + Chars(c, k)
  }

  lemma {:induction false} UnfoldConcat(a: seq<Inline>, b: seq<Inline>, length: seq<nat>)
    ensures Unfold(a + b, length) == Unfold(a, length) + Unfold(b, length)
  {
    hide UnfoldOne;
    if a == [] {
      assert a + b == b;
    } else {
      assert (a + b)[1..] == a[1..] + b;
      UnfoldConcat(a[1..], b, length);
    }
  }

  lemma UnfoldSingle(i: Inline, length: seq<nat>)
    ensures Unfold([i], length) == UnfoldOne(i, length)
  {
    hide UnfoldOne;
  }

  lemma {:induction false} UnfoldSettled(items: seq<Inline>, length: seq<nat>, other: seq<nat>)
    requires MarksKnown(items, |length|)
    ensures Unfold(Settle(items, length), other) == Unfold(items, length)
  {
    if items != [] { UnfoldSettled(items[1..], length, other); }
  }

  predicate Agree(ms: seq<nat>, length: seq<nat>, other: seq<nat>) {
    |length| == |other| && forall i :: 0 <= i < |ms| ==> ms[i] < |length| && length[ms[i]] == other[ms[i]]
  }

  /** Only the lengths of the delimiters among the siblings matter. */
  lemma {:induction false} UnfoldFrame(items: seq<Inline>, length: seq<nat>, other: seq<nat>)
    requires Agree(Marks(items), length, other)
    ensures Unfold(items, length) == Unfold(items, other)
  {
    if items != [] {
      MarksHead(items);
      OneMark(items[0]);
      var head, tail := Marks([items[0]]), Marks(items[1..]);
      assert forall i :: 0 <= i < |tail| ==> tail[i] == Marks(items)[|head| + i];
      assert items[0].Mark? ==> items[0].d == Marks(items)[0];
      UnfoldFrame(items[1..], length, other);
    }
  }

  // ---------- steps keep the source ----------

  lemma SplitAt(items: seq<Inline>, x: nat, length: seq<nat>)
    requires x < |items|
    ensures Unfold(items, length) == Unfold(items[..x], length) + UnfoldOne(items[x], length)
        + Unfold(items[x + 1..], length)
  {
    hide UnfoldOne, Unfold;
    assert items == items[..x] + ([items[x]] + items[x + 1..]);
    UnfoldConcat(items[..x], [items[x]] + items[x + 1..], length);
    UnfoldConcat([items[x]], items[x + 1..], length);
    UnfoldSingle(items[x], length);
  }

  lemma RemoveUnfolds(ds: seq<Delimiter>, st: State, p: nat)
    requires Valid(ds, st) && p < |Marks(st.items)|
    ensures Remove(st, p).length == st.length && Unfold(Remove(st, p).items, st.length) == Unfold(st.items, st.length)
  {
    hide Marks, At, Unfold;
    AtSplits(st.items, p);
    var x := At(st.items, p);
    SplitAt(st.items, x, st.length);
    var items := Remove(st, p).items;
    SplitAt(items, x, st.length);
    assert items[..x] == st.items[..x] && items[x + 1..] == st.items[x + 1..];
  }

  lemma KeptUnfolds(d: nat, n: nat, length: seq<nat>)
    requires d < |length| && length[d] == n
    ensures Unfold(Kept(d, n), length) == Chars(d, n)
  {
    if n > 0 { UnfoldSingle(Mark(d), length); }
  }

  lemma UnfoldFive(a: seq<Inline>, b: seq<Inline>, i: Inline, c: seq<Inline>, d: seq<Inline>, length: seq<nat>)
    ensures Unfold(a + b + [i] + c + d, length)
         == Unfold(a, length) + Unfold(b, length) + UnfoldOne(i, length) + Unfold(c, length) + Unfold(d, length)
  {
    hide Unfold, UnfoldOne;
    UnfoldConcat(a + b + [i] + c, d, length);
    UnfoldConcat(a + b + [i], c, length);
    UnfoldConcat(a + b, [i], length);
    UnfoldConcat(a, b, length);
    UnfoldSingle(i, length);
  }

  /** The characters of an opener that stay and those a span takes add up. */
  lemma Regroup(a: seq<Token>, o: nat, x: nat, k: nat, mid: seq<Token>, c: nat, y: nat, z: seq<Token>)
    ensures a + Chars(o, x) + (Chars(o, k) + mid + Chars(c, k)) + Chars(c, y) + z
         == a + Chars(o, x + k) + (mid + Chars(c, y + k) + z)
  {
    hide Chars;
    CharsSplit(o, x, k);
    CharsSplit(c, k, y);
  }

  lemma MatchUnfolds(ds: seq<Delimiter>, st: State, p: nat, i: nat)
    requires Valid(ds, st) && p < i < |Marks(st.items)|
    ensures var ms := Marks(st.items);
      ms[p] != ms[i] && Unfold(Match(st, p, i).items, Match(st, p, i).length) == Unfold(st.items, st.length)
  {
    hide Marks, At, Unfold, Settle, Kept, MarksKnown, Known, Distinct, Lasting, Agree;
    var ms := Marks(st.items);
    var o, c := ms[p], ms[i];
    DistinctAt(ms, p, i);
    LastingAt(ms, st.length, p);
    LastingAt(ms, st.length, i);
    AtMonotone(st.items, p, i);
    AtSplits(st.items, p);
    AtSplits(st.items, i);
    var x, y := At(st.items, p), At(st.items, i);
    var k := Consumption(st.length[o], st.length[c]);
    var st' := Match(st, p, i);
    var a, mid, z := st.items[..x], st.items[x + 1..y], st.items[y + 1..];
    SplitAt(st.items, x, st.length);
    assert st.items[x + 1..][y - x - 1] == Mark(c) && st.items[x + 1..][..y - x - 1] == mid;
    assert st.items[x + 1..][y - x..] == z;
    SplitAt(st.items[x + 1..], y - x - 1, st.length);
    MiddleKnown(st, x, y);
    var span := Span(k, o, c, Settle(mid, st.length));
    UnfoldFive(a, Kept(o, st'.length[o]), span, Kept(c, st'.length[c]), z, st'.length);
    KeptUnfolds(o, st'.length[o], st'.length);
    KeptUnfolds(c, st'.length[c], st'.length);
    UnfoldSettled(mid, st.length, []);
    assert ms[0..p] == ms[..p] && ms[i + 1..|ms|] == ms[i + 1..];
    OthersKeep(ms, st.length, st'.length, p, i, 0, p);
    OthersKeep(ms, st.length, st'.length, p, i, i + 1, |ms|);
    UnfoldFrame(a, st.length, st'.length);
    UnfoldFrame(z, st.length, st'.length);
    Regroup(Unfold(a, st.length), o, st'.length[o], k, Unfold(mid, st.length), c, st'.length[c], Unfold(z, st.length));
  }

  lemma MiddleKnown(st: State, x: nat, y: nat)
    requires x < y < |st.items| && MarksKnown(st.items, |st.length|)
    ensures MarksKnown(st.items[x + 1..y], |st.length|)
  {
  }

  lemma OthersKeep(ms: seq<nat>, length: seq<nat>, other: seq<nat>, p: nat, i: nat, lo: nat, hi: nat)
    requires Distinct(ms) && Lasting(ms, length) && p < i < |ms| && lo <= hi <= |ms| && (hi <= p || i < lo)
    requires |other| == |length| && forall d :: 0 <= d < |length| && d != ms[p] && d != ms[i] ==> other[d] == length[d]
    ensures Agree(ms[lo..hi], length, other)
  {
    forall j | lo <= j < hi
      ensures ms[j] < |length| && length[ms[j]] == other[ms[j]]
    {
      LastingAt(ms, length, j);
    }
  }

  lemma StepUnfolds(ds: seq<Delimiter>, st: State, i: nat)
    requires Valid(ds, st) && i < |Marks(st.items)|
    ensures var (st', _) := Step(ds, st, i); Unfold(st'.items, st'.length) == Unfold(st.items, st.length)
  {
    hide Marks, Unfold, Match, Remove, Nearest;
    var ms := Marks(st.items);
    if ds[ms[i]].canClose {
      var p := Nearest(ds, ms[..i], ds[ms[i]]);
      if p >= 0 { MatchUnfolds(ds, st, p, i); } else { RemoveUnfolds(ds, st, i); }
    }
  }

  lemma {:induction false} RunUnfolds(ds: seq<Delimiter>, st: State, i: nat)
    requires Valid(ds, st) && i <= |Marks(st.items)|
    ensures var end := Run(ds, st, i); Unfold(end.items, end.length) == Unfold(st.items, st.length)
    decreases Total(st.length), |Marks(st.items)| - i
  {
    hide Valid, Step, Marks, Total, Unfold;
    if i < |Marks(st.items)| {
      StepProgress(ds, st, i);
      StepUnfolds(ds, st, i);
      var (st', i') := Step(ds, st, i);
      RunUnfolds(ds, st', i');
    }
  }

  /** The result, read back, is the source: every character and every leaf, in order, nothing lost or doubled. */
  lemma ProcessKeepsSource(ds: seq<Delimiter>, st: State)
    requires Valid(ds, st)
    ensures Unfold(Process(ds, st), []) == Unfold(st.items, st.length)
    ensures Marks(Process(ds, st)) == []
  {
    hide Marks, Unfold, Run, Settle;
    RunKeeps(ds, st, 0);
    RunUnfolds(ds, st, 0);
    var end := Run(ds, st, 0);
    UnfoldSettled(end.items, end.length, []);
    SettleHasNoMarks(end.items, end.length);
  }

  // ---------- spans ----------

  predicate Both(d: Delimiter) {
    d.canOpen && d.canClose
  }

  /**
    Which delimiters may be paired: an opener and a closer of one symbol; and by rules 9 and 10 of section 6.2 of
    CommonMark 0.30, if one of them may both open and close, then the sum of their lengths is not a multiple of three
    unless both lengths are.
  */
  predicate MayPair(o: Delimiter, c: Delimiter) {
    && o.canOpen && c.canClose && o.symbol == c.symbol
    && (Both(o) || Both(c) ==>
          (o.original + c.original) % 3 != 0 || (o.original % 3 == 0 && c.original % 3 == 0))
  }

  /** The test of the source is that rule. */
  lemma RulesAre(o: Delimiter, c: Delimiter)
    requires c.canClose
    ensures Opens(o, c) <==> MayPair(o, c)
  {
    if (o.original + c.original) % 3 == 0 { Thirds(o.original, c.original); }
  }

  lemma Thirds(a: nat, b: nat)
    requires (a + b) % 3 == 0
    ensures a % 3 == 0 <==> b % 3 == 0
  {
  }

  /**
    Every node pairs delimiters that may be paired, takes one or two characters, and holds no delimiter of the list.
  */
  predicate Sound(ds: seq<Delimiter>, items: seq<Inline>)
    decreases items
  {
    items == [] || (SoundOne(ds, items[0]) && Sound(ds, items[1..]))
  }

  predicate SoundOne(ds: seq<Delimiter>, i: Inline)
    decreases i
  {
    match i
    case Span(k, o, c, children) =>
      && 1 <= k <= 2 && o < |ds| && c < |ds| && o != c && MayPair(ds[o], ds[c])
      && Marks(children) == [] && Sound(ds, children)
    case Rest(_, n) => n >= 1
    case _ => true
  }

  lemma {:induction false} SoundConcat(ds: seq<Delimiter>, a: seq<Inline>, b: seq<Inline>)
    ensures Sound(ds, a + b) <==> Sound(ds, a) && Sound(ds, b)
  {
    hide SoundOne;
    if a == [] {
      assert a + b == b;
    } else {
      assert (a + b)[1..] == a[1..] + b;
      SoundConcat(ds, a[1..], b);
    }
  }

  lemma {:induction false} SoundSettled(ds: seq<Delimiter>, items: seq<Inline>, length: seq<nat>)
    requires MarksKnown(items, |length|) && Sound(ds, items) && Lasting(Marks(items), length)
    ensures Sound(ds, Settle(items, length))
  {
    if items != [] {
      MarksHead(items);
      OneMark(items[0]);
      var head, tail := Marks([items[0]]), Marks(items[1..]);
      assert forall i :: 0 <= i < |tail| ==> tail[i] == Marks(items)[|head| + i];
      assert items[0].Mark? ==> items[0].d == Marks(items)[0];
      SoundSettled(ds, items[1..], length);
    }
  }

  lemma SoundParts(ds: seq<Delimiter>, items: seq<Inline>, x: nat, y: nat)
    requires x <= y <= |items| && Sound(ds, items)
    ensures Sound(ds, items[..x]) && Sound(ds, items[x..y]) && Sound(ds, items[y..])
  {
    hide Sound;
    assert items == items[..x] + (items[x..y] + items[y..]);
    SoundConcat(ds, items[..x], items[x..y] + items[y..]);
    SoundConcat(ds, items[x..y], items[y..]);
  }

  lemma SoundMark(ds: seq<Delimiter>, d: nat, n: nat)
    ensures Sound(ds, Kept(d, n))
  {
  }

  lemma RemoveSound(ds: seq<Delimiter>, st: State, p: nat)
    requires Valid(ds, st) && p < |Marks(st.items)| && Sound(ds, st.items)
    ensures Sound(ds, Remove(st, p).items)
  {
    hide Marks, At, Sound;
    AtSplits(st.items, p);
    var x := At(st.items, p);
    var d := Marks(st.items)[p];
    SoundParts(ds, st.items, x, x + 1);
    var rest := Rest(d, st.length[d]);
    SoundConcat(ds, st.items[..x] + [rest], st.items[x + 1..]);
    SoundConcat(ds, st.items[..x], [rest]);
    SoundSingle(ds, rest);
  }

  lemma SoundSingle(ds: seq<Delimiter>, i: Inline)
    ensures Sound(ds, [i]) == SoundOne(ds, i)
  {
    hide SoundOne;
  }

  lemma MatchSound(ds: seq<Delimiter>, st: State, p: nat, i: nat)
    requires Valid(ds, st) && p < i < |Marks(st.items)| && Sound(ds, st.items)
    requires var ms := Marks(st.items); MayPair(ds[ms[p]], ds[ms[i]])
    ensures var ms := Marks(st.items); ms[p] != ms[i] && Sound(ds, Match(st, p, i).items)
  {
    hide Marks, At, Sound, Settle, Kept, MarksKnown, Distinct, MayPair;
    var ms := Marks(st.items);
    var o, c := ms[p], ms[i];
    DistinctAt(ms, p, i);
    AtMonotone(st.items, p, i);
    var x, y := At(st.items, p), At(st.items, i);
    var k := Consumption(st.length[o], st.length[c]);
    SoundParts(ds, st.items, x + 1, y);
    SoundParts(ds, st.items, x, y + 1);
    MiddleKnown(st, x, y);
    var mid := st.items[x + 1..y];
    SoundSettled(ds, mid, st.length);
    SettleHasNoMarks(mid, st.length);
    var a, b := Kept(o, st.length[o] - k), Kept(c, st.length[c] - k);
    var span := Span(k, o, c, Settle(mid, st.length));
    SoundConcat(ds, st.items[..x] + a + [span] + b, st.items[y + 1..]);
    SoundConcat(ds, st.items[..x] + a + [span], b);
    SoundConcat(ds, st.items[..x] + a, [span]);
    SoundConcat(ds, st.items[..x], a);
    SoundMark(ds, o, st.length[o] - k);
    SoundMark(ds, c, st.length[c] - k);
    SoundSingle(ds, span);
  }

  // ---------- nothing is left to match ----------

  /** No closer before place i has an opener before it. */
  predicate Exhausted(ds: seq<Delimiter>, ms: seq<nat>, i: nat)
    requires Known(ms, ds) && i <= |ms|
  {
    forall q, j {:trigger ms[q], ms[j]} :: 0 <= q < j < i ==> !MayPair(ds[ms[q]], ds[ms[j]])
  }

  lemma MatchExhausts(ds: seq<Delimiter>, ms: seq<nat>, i: nat, p: nat, b: nat, a: nat)
    requires Known(ms, ds) && p < i < b + 1 <= |ms| + 1 && p <= a <= p + 1 && Exhausted(ds, ms, i)
    ensures Known(Cut(ms, a, b), ds) && Exhausted(ds, Cut(ms, a, b), a)
  {
    var ms' := Cut(ms, a, b);
    assert forall j :: 0 <= j < |ms'| ==> ms'[j] == ms[if j < a then j else j + b - a];
  }

  /** Both laws through one step. */
  lemma StepLaws(ds: seq<Delimiter>, st: State, i: nat)
    requires Valid(ds, st) && i < |Marks(st.items)| && Sound(ds, st.items) && Exhausted(ds, Marks(st.items), i)
    ensures var (st', i') := Step(ds, st, i);
      Valid(ds, st') && i' <= |Marks(st'.items)| && Sound(ds, st'.items) && Exhausted(ds, Marks(st'.items), i')
  {
    hide Marks, Match, Remove, Nearest, Sound, Total, Distinct, Lasting, MarksKnown, Opens, MayPair, Cut;
    StepProgress(ds, st, i);
    var ms := Marks(st.items);
    var c := ds[ms[i]];
    if c.canClose {
      KnownPrefix(ds, ms, i);
      var p := Nearest(ds, ms[..i], c);
      if p >= 0 {
        RulesAre(ds[ms[p]], c);
        MatchSound(ds, st, p, i);
        MatchPlaces(ds, st, p, i);
      } else {
        RemoveSound(ds, st, i);
        RemoveMarks(st, i);
        RemoveExhausts(ds, ms, i);
        NoneOpens(ds, ms, i);
      }
    } else {
      NotAClosing(ds, ms, i);
    }
  }

  lemma NotAClosing(ds: seq<Delimiter>, ms: seq<nat>, i: nat)
    requires Known(ms, ds) && i < |ms| && Exhausted(ds, ms, i) && !ds[ms[i]].canClose
    ensures Exhausted(ds, ms, i + 1)
  {
  }

  lemma NoneOpens(ds: seq<Delimiter>, ms: seq<nat>, i: nat)
    requires Known(ms, ds) && i < |ms| && Exhausted(ds, ms, i) && ds[ms[i]].canClose
    requires Nearest(ds, ms[..i], ds[ms[i]]) == -1
    ensures Exhausted(ds, ms, i + 1)
  {
    hide Opens, MayPair, Nearest;
    forall q | 0 <= q < i ensures !MayPair(ds[ms[q]], ds[ms[i]]) {
      assert ms[..i][q] == ms[q];
      RulesAre(ds[ms[q]], ds[ms[i]]);
    }
  }

  lemma RemoveExhausts(ds: seq<Delimiter>, ms: seq<nat>, i: nat)
    requires Known(ms, ds) && i < |ms| && Exhausted(ds, ms, i)
    ensures Known(Cut(ms, i, i + 1), ds) && Exhausted(ds, Cut(ms, i, i + 1), i)
  {
    hide MayPair;
  }

  lemma MatchPlaces(ds: seq<Delimiter>, st: State, p: nat, i: nat)
    requires Valid(ds, st) && p < i < |Marks(st.items)| && Exhausted(ds, Marks(st.items), i)
    ensures var ms := Marks(st.items);
      var left := if st.length[ms[p]] > Consumption(st.length[ms[p]], st.length[ms[i]]) then p + 1 else p;
      var st' := Match(st, p, i);
      && ms[p] != ms[i] && Known(Marks(st'.items), ds) && left <= |Marks(st'.items)| &&
          Exhausted(ds, Marks(st'.items), left)
  {
    hide Marks, At, Settle, Kept, MarksKnown, Distinct, MayPair, Exhausted;
    var ms := Marks(st.items);
    DistinctAt(ms, p, i);
    MatchMarks(st, p, i);
    var st' := Match(st, p, i);
    var a, b := if st'.length[ms[p]] == 0 then p else p + 1, if st'.length[ms[i]] == 0 then i + 1 else i;
    MatchExhausts(ds, ms, i, p, b, a);
  }

  lemma {:induction false} RunLaws(ds: seq<Delimiter>, st: State, i: nat)
    requires Valid(ds, st) && i <= |Marks(st.items)| && Sound(ds, st.items) && Exhausted(ds, Marks(st.items), i)
    ensures var end := Run(ds, st, i);
      Valid(ds, end) && Sound(ds, end.items) && Exhausted(ds, Marks(end.items), |Marks(end.items)|)
    decreases Total(st.length), |Marks(st.items)| - i
  {
    hide Step, Marks, Total, Sound, Distinct, Lasting, MarksKnown;
    if i < |Marks(st.items)| {
      StepProgress(ds, st, i);
      StepLaws(ds, st, i);
      var (st', i') := Step(ds, st, i);
      RunLaws(ds, st', i');
    }
  }

  // ---------- counting ----------

  function CountChars(s: seq<Token>): nat {
    if s == [] then 0 else (if s[0].Char? then 1 else 0) + CountChars(s[1..])
  }

  function Words(s: seq<Token>): seq<nat> {
    if s == [] then [] else (if s[0].Word? then [s[0].id] else []) + Words(s[1..])
  }

  lemma {:induction false} CountConcat(a: seq<Token>, b: seq<Token>)
    ensures CountChars(a + b) == CountChars(a) + CountChars(b) && Words(a + b) == Words(a) + Words(b)
  {
    if a == [] {
      assert a + b == b;
    } else {
      assert (a + b)[1..] == a[1..] + b;
      CountConcat(a[1..], b);
    }
  }

  lemma {:induction false} CountRun(d: nat, n: nat)
    ensures CountChars(Chars(d, n)) == n && Words(Chars(d, n)) == []
  {
    if n > 0 {
      CountRun(d, n - 1);
      CountConcat(Chars(d, n - 1), [Char(d)]);
    }
  }

  /** Characters left as text, in all nodes. */
  function LeftOver(items: seq<Inline>): nat
    decreases items
  {
    if items == [] then 0
    else
      (match items[0]
       case Rest(_, n) => n
       case Span(_, _, _, children) => LeftOver(children)
       case _ => 0)
      + LeftOver(items[1..])
  }

  /** The levels of all nodes. */
  function Levels(items: seq<Inline>): nat
    decreases items
  {
    if items == [] then 0
    else (if items[0].Span? then items[0].level + Levels(items[0].children) else 0) + Levels(items[1..])
  }

  /** The leaves, in the order of the tree. */
  function Leaves(items: seq<Inline>): seq<nat>
    decreases items
  {
    if items == [] then [] else LeavesOne(items[0]) + Leaves(items[1..])
  }

  lemma UnfoldStep(items: seq<Inline>, length: seq<nat>)
    requires items != []
    ensures Unfold(items, length) == UnfoldOne(items[0], length) + Unfold(items[1..], length)
  {
  }

  /** The tokens of a node are those of its delimiters around those of its children. */
  lemma CountSpan(k: nat, o: nat, c: nat, inner: seq<Token>)
    ensures var s := Chars(o, k) + inner + Chars(c, k);
      CountChars(s) == CountChars(inner) + 2 * k && Words(s) == Words(inner)
  {
    hide CountChars, Words, Chars;
    CountConcat(Chars(o, k) + inner, Chars(c, k));
    CountConcat(Chars(o, k), inner);
    CountRun(o, k);
    CountRun(c, k);
    assert [] + Words(inner) + [] == Words(inner);
  }

  /** The leaves of one sibling. */
  function LeavesOne(i: Inline): seq<nat>
    decreases i
  {
    match i
    case Leaf(id) => [id]
    case Span(_, _, _, children) => Leaves(children)
    case _ => []
  }

  lemma {:induction false} WordsUnfold(items: seq<Inline>, length: seq<nat>)
    ensures Words(Unfold(items, length)) == Leaves(items)
    decreases items, 0
  {
    if items != [] {
      WordsUnfold(items[1..], length);
      WordsOne(items[0], length);
      hide Unfold, UnfoldOne, Words, LeavesOne;
      UnfoldStep(items, length);
      CountConcat(UnfoldOne(items[0], length), Unfold(items[1..], length));
    }
  }

  lemma {:induction false} WordsOne(i: Inline, length: seq<nat>)
    ensures Words(UnfoldOne(i, length)) == LeavesOne(i)
    decreases i, 1
  {
    match i
    case Leaf(_) =>
    case Mark(d) => if d < |length| { CountRun(d, length[d]); }
    case Rest(d, n) => CountRun(d, n);
    case Span(k, o, c, children) =>
      hide Words, Chars, Leaves, Unfold;
      WordsUnfold(children, []);
      CountSpan(k, o, c, Unfold(children, []));
  }

  lemma {:induction false} CountUnfold(items: seq<Inline>)
    ensures CountChars(Unfold(items, [])) == LeftOver(items) + 2 * Levels(items)
    decreases items
  {
    if items != [] {
      UnfoldStep(items, []);
      CountConcat(UnfoldOne(items[0], []), Unfold(items[1..], []));
      CountUnfold(items[1..]);
      match items[0]
      case Leaf(_) =>
      case Mark(d) =>
      case Rest(d, n) => CountRun(d, n);
      case Span(k, o, c, children) =>
        CountUnfold(children);
        CountSpan(k, o, c, Unfold(children, []));
    }
  }

  function Sum(ms: seq<nat>, length: seq<nat>): nat
    requires forall i :: 0 <= i < |ms| ==> ms[i] < |length|
  {
    if ms == [] then 0 else length[ms[0]] + Sum(ms[1..], length)
  }

  /** Siblings before matching: leaves and delimiters only. */
  predicate Raw(items: seq<Inline>) {
    forall i :: 0 <= i < |items| ==> items[i].Leaf? || items[i].Mark?
  }

  lemma {:induction false} CountRaw(items: seq<Inline>, length: seq<nat>)
    requires Raw(items) && forall i :: 0 <= i < |Marks(items)| ==> Marks(items)[i] < |length|
    ensures CountChars(Unfold(items, length)) == Sum(Marks(items), length)
  {
    if items != [] {
      MarksHead(items);
      OneMark(items[0]);
      var head, tail := Marks([items[0]]), Marks(items[1..]);
      assert forall i :: 0 <= i < |tail| ==> tail[i] == Marks(items)[|head| + i];
      CountConcat(UnfoldOne(items[0], length), Unfold(items[1..], length));
      CountRaw(items[1..], length);
      if items[0].Mark? {
        assert items[0].d == Marks(items)[0] && Marks(items)[1..] == tail;
        CountRun(items[0].d, length[items[0].d]);
      } else {
        assert Marks(items) == tail;
      }
    }
  }

  lemma {:induction false} RawIsSound(ds: seq<Delimiter>, items: seq<Inline>)
    requires Raw(items)
    ensures Sound(ds, items)
  {
    if items != [] { RawIsSound(ds, items[1..]); }
  }

  /**
    Conservation: the delimiter characters of the source are those left as text and two for each level of
    emphasis; the leaves keep their order; and every node is a legal pair.
  */
  lemma ProcessConserves(ds: seq<Delimiter>, st: State)
    requires Valid(ds, st) && Raw(st.items)
    ensures Sum(Marks(st.items), st.length) == LeftOver(Process(ds, st)) + 2 * Levels(Process(ds, st))
    ensures Leaves(Process(ds, st)) == Leaves(st.items)
    ensures Sound(ds, Process(ds, st))
  {
    hide Marks, Unfold, Process, Sum, LeftOver, Levels, Leaves, Sound;
    ProcessKeepsSource(ds, st);
    CountRaw(st.items, st.length);
    CountUnfold(Process(ds, st));
    WordsUnfold(Process(ds, st), []);
    WordsUnfold(st.items, st.length);
    ProcessSound(ds, st);
  }

  lemma ProcessSound(ds: seq<Delimiter>, st: State)
    requires Valid(ds, st) && Raw(st.items)
    ensures Sound(ds, Process(ds, st))
  {
    hide Marks, Run, Sound, Settle;
    RawIsSound(ds, st.items);
    RunLaws(ds, st, 0);
    var end := Run(ds, st, 0);
    SoundSettled(ds, end.items, end.length);
  }

  /** When the main loop ends, no delimiter still in the list could close one before it. */
  lemma NothingLeftToMatch(ds: seq<Delimiter>, st: State, q: nat, j: nat)
    requires Valid(ds, st) && Raw(st.items)
    requires var ms := Marks(Run(ds, st, 0).items); q < j < |ms|
    ensures var ms := Marks(Run(ds, st, 0).items);
      ms[q] < |ds| && ms[j] < |ds| && !MayPair(ds[ms[q]], ds[ms[j]])
  {
    hide Marks, Run, Sound, MayPair, Distinct, Lasting;
    RawIsSound(ds, st.items);
    RunLaws(ds, st, 0);
  }

  // ---------- nothing is left to match at any level ----------

  predicate HasId(i: Inline) {
    i.Mark? || i.Rest?
  }

  predicate Pair(ds: seq<Delimiter>, a: Inline, b: Inline) {
    HasId(a) && HasId(b) && a.d < |ds| && b.d < |ds| && MayPair(ds[a.d], ds[b.d])
  }

  /** Among these siblings no delimiter, given up or not, may be paired with a later one. */
  predicate NoPairs(ds: seq<Delimiter>, items: seq<Inline>) {
    forall x, y {:trigger items[x], items[y]} :: 0 <= x < y < |items| ==> !Pair(ds, items[x], items[y])
  }

  /** The same inside every node, at any depth. */
  predicate InnerDone(ds: seq<Delimiter>, items: seq<Inline>)
    decreases items
  {
    items == [] || (InnerOne(ds, items[0]) && InnerDone(ds, items[1..]))
  }

  predicate InnerOne(ds: seq<Delimiter>, i: Inline)
    decreases i
  {
    i.Span? ==> NoPairs(ds, i.children) && InnerDone(ds, i.children)
  }

  /** What is given up opens nothing, and nothing in the list before it could have opened it. */
  predicate Calm(ds: seq<Delimiter>, items: seq<Inline>) {
    && (forall x :: 0 <= x < |items| && items[x].Rest? && items[x].d < |ds| ==> !ds[items[x].d].canOpen)
    && (forall x, y {:trigger items[x], items[y]} :: 0 <= x < y < |items| && items[x].Mark? && items[y].Rest? ==>
          !Pair(ds, items[x], items[y]))
  }

  lemma {:induction false} InnerConcat(ds: seq<Delimiter>, a: seq<Inline>, b: seq<Inline>)
    ensures InnerDone(ds, a + b) <==> InnerDone(ds, a) && InnerDone(ds, b)
  {
    hide InnerOne;
    if a == [] {
      assert a + b == b;
    } else {
      assert (a + b)[1..] == a[1..] + b;
      InnerConcat(ds, a[1..], b);
    }
  }

  lemma InnerSingle(ds: seq<Delimiter>, i: Inline)
    ensures InnerDone(ds, [i]) == InnerOne(ds, i)
  {
    hide InnerOne;
  }

  lemma {:induction false} InnerSettled(ds: seq<Delimiter>, items: seq<Inline>, length: seq<nat>)
    requires MarksKnown(items, |length|) && InnerDone(ds, items)
    ensures InnerDone(ds, Settle(items, length))
  {
    if items != [] { InnerSettled(ds, items[1..], length); }
  }

  lemma InnerParts(ds: seq<Delimiter>, items: seq<Inline>, x: nat, y: nat)
    requires x <= y <= |items| && InnerDone(ds, items)
    ensures InnerDone(ds, items[..x]) && InnerDone(ds, items[x..y]) && InnerDone(ds, items[y..])
  {
    hide InnerDone;
    assert items == items[..x] + (items[x..y] + items[y..]);
    InnerConcat(ds, items[..x], items[x..y] + items[y..]);
    InnerConcat(ds, items[x..y], items[y..]);
  }

  /** The x-th sibling, a delimiter of the list, has its place there. */
  lemma MarkPlace(items: seq<Inline>, x: nat) returns (q: nat)
    requires x < |items| && items[x].Mark?
    ensures q == |Marks(items[..x])| < |Marks(items)| && Marks(items)[q] == items[x].d
  {
    hide Marks;
    q := |Marks(items[..x])|;
    assert items == items[..x] + ([items[x]] + items[x + 1..]);
    MarksConcat(items[..x], [items[x]] + items[x + 1..]);
    MarksConcat([items[x]], items[x + 1..]);
    OneMark(items[x]);
  }

  lemma MarkPlaces(items: seq<Inline>, x: nat, y: nat) returns (q: nat, j: nat)
    requires x < y < |items| && items[x].Mark? && items[y].Mark?
    ensures q < j < |Marks(items)| && Marks(items)[q] == items[x].d && Marks(items)[j] == items[y].d
    ensures j == |Marks(items[..y])|
  {
    hide Marks;
    q := MarkPlace(items, x);
    j := MarkPlace(items, y);
    Between(items, x, y);
  }

  lemma SettledAt(items: seq<Inline>, length: seq<nat>, x: nat)
    requires MarksKnown(items, |length|) && x < |items|
    ensures Settle(items, length)[x] == if items[x].Mark? then Rest(items[x].d, length[items[x].d]) else items[x]
  {
    if x > 0 { SettledAt(items[1..], length, x - 1); }
  }

  /** Calm siblings whose list is exhausted have no pair left once they are settled. */
  lemma SettledHasNoPairs(ds: seq<Delimiter>, items: seq<Inline>, length: seq<nat>)
    requires MarksKnown(items, |length|) && Calm(ds, items) && Known(Marks(items), ds)
    requires Exhausted(ds, Marks(items), |Marks(items)|)
    ensures NoPairs(ds, Settle(items, length))
  {
    hide Marks, MayPair, Settle, Known;
    var s := Settle(items, length);
    forall x, y | 0 <= x < y < |s| ensures !Pair(ds, s[x], s[y]) {
      SettledAt(items, length, x);
      SettledAt(items, length, y);
      if Pair(ds, s[x], s[y]) {
        Openable(ds[s[x].d], ds[s[y].d]);
        assert items[x].Mark? && items[x].d == s[x].d && items[y].d == s[y].d;
        if items[y].Mark? {
          var q, j := MarkPlaces(items, x, y);
        }
      }
    }
  }

  lemma Openable(o: Delimiter, c: Delimiter)
    requires MayPair(o, c)
    ensures o.canOpen
  {
  }

  lemma CalmPart(ds: seq<Delimiter>, items: seq<Inline>, a: nat, b: nat)
    requires a <= b <= |items| && Calm(ds, items)
    ensures Calm(ds, items[a..b])
  {
    hide Pair;
    var part := items[a..b];
    forall x, y | 0 <= x < y < |part| && part[x].Mark? && part[y].Rest? ensures !Pair(ds, part[x], part[y]) {
      assert part[x] == items[a + x] && part[y] == items[a + y];
    }
  }

  lemma ExhaustedPart(ds: seq<Delimiter>, ms: seq<nat>, i: nat, a: nat)
    requires Known(ms, ds) && a <= i <= |ms| && Exhausted(ds, ms, i)
    ensures Known(ms[a..i], ds) && Exhausted(ds, ms[a..i], i - a)
  {
    hide MayPair;
    var part := ms[a..i];
    assert forall q :: 0 <= q < |part| ==> part[q] == ms[a + q];
  }

  lemma RemoveCalm(ds: seq<Delimiter>, st: State, i: nat)
    requires Valid(ds, st) && i < |Marks(st.items)| && Calm(ds, st.items) && Exhausted(ds, Marks(st.items), i + 1)
    requires !ds[Marks(st.items)[i]].canOpen
    ensures Calm(ds, Remove(st, i).items)
  {
    hide Marks, At, MayPair, Lasting, Distinct, MarksKnown;
    AtSplits(st.items, i);
    var z := At(st.items, i);
    var items := Remove(st, i).items;
    assert |items| == |st.items| && forall x :: 0 <= x < |items| && x != z ==> items[x] == st.items[x];
    forall x | 0 <= x < z && items[x].Mark? ensures !Pair(ds, items[x], items[z]) {
      var q, j := MarkPlaces(st.items, x, z);
      PlaceOf(st.items, i, z);
    }
  }

  lemma PlaceOf(items: seq<Inline>, i: nat, z: nat)
    requires i < |Marks(items)| && z == At(items, i)
    ensures |Marks(items[..z])| == i
  {
    AtSplits(items, i);
  }

  predicate Cross(ds: seq<Delimiter>, a: seq<Inline>, b: seq<Inline>) {
    forall x, y :: x in a && y in b && x.Mark? && y.Rest? ==> !Pair(ds, x, y)
  }

  lemma CalmSplits(ds: seq<Delimiter>, a: seq<Inline>, b: seq<Inline>)
    requires Calm(ds, a + b)
    ensures Calm(ds, a) && Calm(ds, b) && Cross(ds, a, b)
  {
    hide Pair;
    var s := a + b;
    assert forall k :: 0 <= k < |a| ==> s[k] == a[k];
    assert forall k :: 0 <= k < |b| ==> s[|a| + k] == b[k];
    forall x, y | x in a && y in b && x.Mark? && y.Rest? ensures !Pair(ds, x, y) {
      var u :| 0 <= u < |a| && a[u] == x;
      var v :| 0 <= v < |b| && b[v] == y;
      assert s[u] == x && s[|a| + v] == y;
    }
    forall u, v | 0 <= u < v < |b| && b[u].Mark? && b[v].Rest? ensures !Pair(ds, b[u], b[v]) {
      assert s[|a| + u] == b[u] && s[|a| + v] == b[v];
    }
  }

  lemma CalmJoins(ds: seq<Delimiter>, a: seq<Inline>, b: seq<Inline>)
    requires Calm(ds, a) && Calm(ds, b) && Cross(ds, a, b)
    ensures Calm(ds, a + b)
  {
    hide Pair;
    var s := a + b;
    assert forall k :: 0 <= k < |s| ==> s[k] == if k < |a| then a[k] else b[k - |a|];
    forall u, v | 0 <= u < v < |s| && s[u].Mark? && s[v].Rest? ensures !Pair(ds, s[u], s[v]) {
      if v >= |a| && u < |a| {
        assert s[u] in a && s[v] in b;
      }
    }
  }

  lemma NoRestIsCalm(ds: seq<Delimiter>, a: seq<Inline>, b: seq<Inline>)
    requires forall x :: x in b ==> !x.Rest?
    ensures Calm(ds, b) && Cross(ds, a, b)
  {
  }

  /** Calm siblings stay calm when a node takes the place of what lies between two delimiters. */
  lemma InsertCalm(ds: seq<Delimiter>, a: seq<Inline>, m: seq<Inline>, z: seq<Inline>, o: nat, c: nat, e: seq<Inline>,
      f: seq<Inline>, span: Inline)
    requires Calm(ds, a + [Mark(o)] + m + [Mark(c)] + z) && span.Span?
    requires (e == [] || e == [Mark(o)]) && (f == [] || f == [Mark(c)])
    ensures Calm(ds, a + e + [span] + f + z)
  {
    var left, tail := a + [Mark(o)] + m + [Mark(c)], e + [span] + f;
    CalmSplits(ds, left, z);
    assert left == a + ([Mark(o)] + m + [Mark(c)]);
    CalmSplits(ds, a, [Mark(o)] + m + [Mark(c)]);
    NoRestIsCalm(ds, a, tail);
    hide Calm, Pair;
    CalmJoins(ds, a, tail);
    assert forall x :: x in a + tail && x.Mark? ==> x in left;
    CalmJoins(ds, a + tail, z);
    assert a + tail + z == a + e + [span] + f + z;
  }

  lemma KeptIs(d: nat, n: nat)
    ensures Kept(d, n) == [] || Kept(d, n) == [Mark(d)]
  {
  }

  /** The children of the new node have no pair among them. */
  lemma MiddleDone(ds: seq<Delimiter>, st: State, p: nat, i: nat, x: nat, y: nat)
    requires Valid(ds, st) && p < i < |Marks(st.items)| && Calm(ds, st.items) && InnerDone(ds, st.items)
    requires Exhausted(ds, Marks(st.items), i)
    requires x < y < |st.items| && Marks(st.items[x + 1..y]) == Marks(st.items)[p + 1..i]
    ensures MarksKnown(st.items[x + 1..y], |st.length|)
    ensures var s := Settle(st.items[x + 1..y], st.length); NoPairs(ds, s) && InnerDone(ds, s)
  {
    hide Marks, Settle, Distinct, Lasting, MayPair, InnerDone, Calm, Exhausted, Known, MarksKnown, NoPairs;
    var m := st.items[x + 1..y];
    MiddleKnown(st, x, y);
    CalmPart(ds, st.items, x + 1, y);
    ExhaustedPart(ds, Marks(st.items), i, p + 1);
    SettledHasNoPairs(ds, m, st.length);
    InnerParts(ds, st.items, x + 1, y);
    InnerSettled(ds, m, st.length);
  }

  lemma MatchCalm(ds: seq<Delimiter>, st: State, p: nat, i: nat)
    requires Valid(ds, st) && p < i < |Marks(st.items)| && Calm(ds, st.items) && InnerDone(ds, st.items)
    requires Exhausted(ds, Marks(st.items), i)
    ensures var ms := Marks(st.items); ms[p] != ms[i]
    ensures Calm(ds, Match(st, p, i).items) && InnerDone(ds, Match(st, p, i).items)
  {
    hide Marks, At, Settle, Kept, MarksKnown, Distinct, MayPair, InnerDone, Calm, Exhausted, NoPairs;
    var ms := Marks(st.items);
    var o, c := ms[p], ms[i];
    DistinctAt(ms, p, i);
    AtMonotone(st.items, p, i);
    AtSplits(st.items, p);
    AtSplits(st.items, i);
    var x, y := At(st.items, p), At(st.items, i);
    var k := Consumption(st.length[o], st.length[c]);
    var a, m, z := st.items[..x], st.items[x + 1..y], st.items[y + 1..];
    MiddleDone(ds, st, p, i, x, y);
    var span := Span(k, o, c, Settle(m, st.length));
    var e, f := Kept(o, st.length[o] - k), Kept(c, st.length[c] - k);
    assert Match(st, p, i).items == a + e + [span] + f + z;
    assert st.items == a + [Mark(o)] + m + [Mark(c)] + z;
    hide Match, Lasting, Known;
    KeptIs(o, st.length[o] - k);
    KeptIs(c, st.length[c] - k);
    InsertCalm(ds, a, m, z, o, c, e, f, span);
    InnerParts(ds, st.items, x, y + 1);
    InnerSingle(ds, span);
    InnerKept(ds, o, st.length[o] - k);
    InnerKept(ds, c, st.length[c] - k);
    InnerOfFive(ds, a, e, span, f, z);
  }

  lemma InnerOfFive(ds: seq<Delimiter>, a: seq<Inline>, b: seq<Inline>, i: Inline, d: seq<Inline>, e: seq<Inline>)
    requires InnerDone(ds, a) && InnerDone(ds, b) && InnerDone(ds, [i]) && InnerDone(ds, d) && InnerDone(ds, e)
    ensures InnerDone(ds, a + b + [i] + d + e)
  {
    hide InnerDone;
    InnerConcat(ds, a + b + [i] + d, e);
    InnerConcat(ds, a + b + [i], d);
    InnerConcat(ds, a + b, [i]);
    InnerConcat(ds, a, b);
  }

  lemma InnerKept(ds: seq<Delimiter>, d: nat, n: nat)
    ensures InnerDone(ds, Kept(d, n))
  {
  }

  lemma RemoveInner(ds: seq<Delimiter>, st: State, i: nat)
    requires Valid(ds, st) && i < |Marks(st.items)| && InnerDone(ds, st.items)
    ensures InnerDone(ds, Remove(st, i).items)
  {
    hide Marks, At, InnerDone;
    AtSplits(st.items, i);
    var x, d := At(st.items, i), Marks(st.items)[i];
    var rest := Rest(d, st.length[d]);
    InnerParts(ds, st.items, x, x + 1);
    InnerConcat(ds, st.items[..x] + [rest], st.items[x + 1..]);
    InnerConcat(ds, st.items[..x], [rest]);
    InnerSingle(ds, rest);
  }

  lemma StepCalm(ds: seq<Delimiter>, st: State, i: nat)
    requires Valid(ds, st) && i < |Marks(st.items)| && Exhausted(ds, Marks(st.items), i)
    requires Calm(ds, st.items) && InnerDone(ds, st.items)
    ensures Calm(ds, Step(ds, st, i).0.items) && InnerDone(ds, Step(ds, st, i).0.items)
  {
    hide Marks, Match, Remove, Nearest, Total, Distinct, Lasting, MarksKnown, Opens, Calm, InnerDone, Exhausted;
    var ms := Marks(st.items);
    KnownPrefix(ds, ms, i);
    var c := ds[ms[i]];
    if c.canClose {
      var p := Nearest(ds, ms[..i], c);
      if p >= 0 {
        MatchCalm(ds, st, p, i);
      } else if !c.canOpen {
        NoneOpens(ds, ms, i);
        RemoveCalm(ds, st, i);
        RemoveInner(ds, st, i);
      }
    }
  }

  lemma {:induction false} RunCalm(ds: seq<Delimiter>, st: State, i: nat)
    requires Valid(ds, st) && i <= |Marks(st.items)| && Sound(ds, st.items) && Exhausted(ds, Marks(st.items), i)
    requires Calm(ds, st.items) && InnerDone(ds, st.items)
    ensures Calm(ds, Run(ds, st, i).items) && InnerDone(ds, Run(ds, st, i).items)
    decreases Total(st.length), |Marks(st.items)| - i
  {
    hide Step, Marks, Total, Sound, Distinct, Lasting, MarksKnown, Calm, InnerDone;
    if i < |Marks(st.items)| {
      StepProgress(ds, st, i);
      StepLaws(ds, st, i);
      StepCalm(ds, st, i);
      var (st', i') := Step(ds, st, i);
      RunCalm(ds, st', i');
    }
  }

  lemma {:induction false} RawIsCalm(ds: seq<Delimiter>, items: seq<Inline>)
    requires Raw(items)
    ensures Calm(ds, items) && InnerDone(ds, items)
  {
    if items != [] {
      RawIsCalm(ds, items[1..]);
      assert forall x :: 0 < x < |items| ==> items[x] == items[1..][x - 1];
    }
  }

  /**
    Nothing is left to match, at any level of the tree: among the siblings of the result, and among the children of
    each node, no delimiter left as text may be paired with a later one.
  */
  lemma NoPairLeftAnywhere(ds: seq<Delimiter>, st: State)
    requires Valid(ds, st) && Raw(st.items)
    ensures NoPairs(ds, Process(ds, st)) && InnerDone(ds, Process(ds, st))
  {
    hide Marks, Run, Sound, MayPair, Distinct, Lasting, Settle, Calm, InnerDone, Raw;
    RawIsSound(ds, st.items);
    RawIsCalm(ds, st.items);
    RunLaws(ds, st, 0);
    RunCalm(ds, st, 0);
    var end := Run(ds, st, 0);
    SettledHasNoPairs(ds, end.items, end.length);
    InnerSettled(ds, end.items, end.length);
  }

  // ---------- the fewest nodes ----------

  /** The nodes of level one that take their characters from o and c, at any depth. */
  function Singles(items: seq<Inline>, o: nat, c: nat): nat
    decreases items
  {
    if items == [] then 0 else SinglesOne(items[0], o, c) + Singles(items[1..], o, c)
  }

  function SinglesOne(i: Inline, o: nat, c: nat): nat
    decreases i
  {
    match i
    case Span(level, opener, closer, children) =>
      (if level == 1 && opener == o && closer == c then 1 else 0) + Singles(children, o, c)
    case _ => 0
  }

  lemma {:induction false} SinglesConcat(a: seq<Inline>, b: seq<Inline>, o: nat, c: nat)
    ensures Singles(a + b, o, c) == Singles(a, o, c) + Singles(b, o, c)
  {
    hide SinglesOne;
    if a == [] {
      assert a + b == b;
    } else {
      assert (a + b)[1..] == a[1..] + b;
      SinglesConcat(a[1..], b, o, c);
    }
  }

  lemma {:induction false} SinglesSettled(items: seq<Inline>, length: seq<nat>, o: nat, c: nat)
    requires MarksKnown(items, |length|)
    ensures Singles(Settle(items, length), o, c) == Singles(items, o, c)
  {
    if items != [] {
      var s := Settle(items, length);
      assert s[1..] == Settle(items[1..], length);
      SinglesSettled(items[1..], length, o, c);
    }
  }

  lemma SinglesAlone(i: Inline, o: nat, c: nat)
    ensures Singles([i], o, c) == SinglesOne(i, o, c)
  {
    assert [i][1..] == [];
  }

  lemma SinglesAround(items: seq<Inline>, x: nat, o: nat, c: nat)
    requires x < |items| && items[x].Mark?
    ensures Singles(items, o, c) == Singles(items[..x], o, c) + Singles(items[x + 1..], o, c)
  {
    assert items == items[..x] + ([items[x]] + items[x + 1..]);
    SinglesConcat(items[..x], [items[x]] + items[x + 1..], o, c);
    SinglesConcat([items[x]], items[x + 1..], o, c);
    SinglesAlone(items[x], o, c);
  }

  /** There is at most one node of level one for the pair, and it has used up its opener or its closer. */
  predicate Thrifty(items: seq<Inline>, o: nat, c: nat) {
    Singles(items, o, c) <= 1 && (Singles(items, o, c) == 1 ==> o !in Marks(items) || c !in Marks(items))
  }

  lemma RemoveSingles(ds: seq<Delimiter>, st: State, p: nat, o: nat, c: nat)
    requires Valid(ds, st) && p < |Marks(st.items)|
    ensures Singles(Remove(st, p).items, o, c) == Singles(st.items, o, c)
  {
    hide Marks, Singles, Distinct, Lasting, MarksKnown;
    AtSplits(st.items, p);
    KnownAt(ds, Marks(st.items), p);
    var x := At(st.items, p);
    var rest := Rest(Marks(st.items)[p], st.length[Marks(st.items)[p]]);
    SinglesAround(st.items, x, o, c);
    SinglesConcat(st.items[..x] + [rest], st.items[x + 1..], o, c);
    SinglesConcat(st.items[..x], [rest], o, c);
    SinglesAlone(rest, o, c);
  }

  lemma KeptSingles(d: nat, n: nat, o: nat, c: nat)
    ensures Singles(Kept(d, n), o, c) == 0
  {
    SinglesAlone(Mark(d), o, c);
  }

  lemma SinglesOfFive(a: seq<Inline>, b: seq<Inline>, i: Inline, d: seq<Inline>, e: seq<Inline>, o: nat, c: nat)
    ensures Singles(a + b + [i] + d + e, o, c)
         == Singles(a, o, c) + Singles(b, o, c) + SinglesOne(i, o, c) + Singles(d, o, c) + Singles(e, o, c)
  {
    hide Singles, SinglesOne;
    SinglesConcat(a + b + [i] + d, e, o, c);
    SinglesConcat(a + b + [i], d, o, c);
    SinglesConcat(a + b, [i], o, c);
    SinglesConcat(a, b, o, c);
    SinglesAlone(i, o, c);
  }

  lemma SinglesOfThree(items: seq<Inline>, x: nat, y: nat, o: nat, c: nat)
    requires x < y < |items| && items[x].Mark? && items[y].Mark?
    ensures Singles(items, o, c) == Singles(items[..x], o, c) + Singles(items[x + 1..y], o, c)
        + Singles(items[y + 1..], o, c)
  {
    hide Singles;
    SinglesAround(items, x, o, c);
    var t := items[x + 1..];
    SinglesAround(t, y - x - 1, o, c);
    assert t[..y - x - 1] == items[x + 1..y] && t[y - x..] == items[y + 1..];
  }

  lemma MatchSingles(ds: seq<Delimiter>, st: State, p: nat, i: nat, o: nat, c: nat)
    requires Valid(ds, st) && p < i < |Marks(st.items)|
    ensures var ms := Marks(st.items);
      && ms[p] != ms[i] && ms[p] < |st.length| && ms[i] < |st.length|
      && Singles(Match(st, p, i).items, o, c) == Singles(st.items, o, c)
         + if Consumption(st.length[ms[p]], st.length[ms[i]]) == 1 && ms[p] == o && ms[i] == c then 1 else 0
  {
    hide Marks, Singles, Settle, Kept, MarksKnown;
    var ms := Marks(st.items);
    AtSplits(st.items, p);
    AtSplits(st.items, i);
    AtMonotone(st.items, p, i);
    var x, y := At(st.items, p), At(st.items, i);
    var a, m, z := st.items[..x], st.items[x + 1..y], st.items[y + 1..];
    var k := Consumption(st.length[ms[p]], st.length[ms[i]]);
    MiddleKnown(st, x, y);
    var span := Span(k, ms[p], ms[i], Settle(m, st.length));
    var e, f := Kept(ms[p], st.length[ms[p]] - k), Kept(ms[i], st.length[ms[i]] - k);
    SinglesOfFive(a, e, span, f, z, o, c);
    SinglesSettled(m, st.length, o, c);
    KeptSingles(ms[p], st.length[ms[p]] - k, o, c);
    KeptSingles(ms[i], st.length[ms[i]] - k, o, c);
    SinglesOfThree(st.items, x, y, o, c);
  }

  lemma CutMembers(ms: seq<nat>, a: nat, b: nat)
    requires a <= b <= |ms| && Distinct(ms)
    ensures forall d :: d in Cut(ms, a, b) ==> d in ms
    ensures forall j :: a <= j < b ==> ms[j] !in Cut(ms, a, b)
  {
  }

  lemma MatchThrifty(ds: seq<Delimiter>, st: State, p: nat, i: nat, o: nat, c: nat)
    requires Valid(ds, st) && p < i < |Marks(st.items)| && Thrifty(st.items, o, c)
    ensures var ms := Marks(st.items); ms[p] != ms[i] && Thrifty(Match(st, p, i).items, o, c)
  {
    hide Marks, Singles, Match, Cut, MarksKnown;
    var ms := Marks(st.items);
    MatchSingles(ds, st, p, i, o, c);
    MatchMarks(st, p, i);
    var st' := Match(st, p, i);
    var k := Consumption(st.length[ms[p]], st.length[ms[i]]);
    MatchLengths(st, p, i);
    CutMembers(ms, if st'.length[ms[p]] == 0 then p else p + 1, if st'.length[ms[i]] == 0 then i + 1 else i);
  }

  lemma MatchLengths(st: State, p: nat, i: nat)
    requires p < i < |Marks(st.items)| && MarksKnown(st.items, |st.length|)
    requires var ms := Marks(st.items);
      ms[p] != ms[i] && ms[p] < |st.length| && ms[i] < |st.length| && st.length[ms[p]] >= 1 && st.length[ms[i]] >= 1
    ensures var ms := Marks(st.items);
      var k := Consumption(st.length[ms[p]], st.length[ms[i]]);
      Match(st, p, i).length == st.length[ms[p] := st.length[ms[p]] - k][ms[i] := st.length[ms[i]] - k]
  {
    hide Marks, MarksKnown;
  }

  lemma RemoveThrifty(ds: seq<Delimiter>, st: State, p: nat, o: nat, c: nat)
    requires Valid(ds, st) && p < |Marks(st.items)| && Thrifty(st.items, o, c)
    ensures Thrifty(Remove(st, p).items, o, c)
  {
    hide Marks, Singles, Remove, Cut, Lasting, MarksKnown;
    RemoveSingles(ds, st, p, o, c);
    RemoveMarks(st, p);
    CutMembers(Marks(st.items), p, p + 1);
  }

  lemma StepThrifty(ds: seq<Delimiter>, st: State, i: nat, o: nat, c: nat)
    requires Valid(ds, st) && i < |Marks(st.items)| && Thrifty(st.items, o, c)
    ensures Thrifty(Step(ds, st, i).0.items, o, c)
  {
    hide Marks, Match, Remove, Nearest, Thrifty, Total, Distinct, Lasting, MarksKnown, Opens;
    var ms := Marks(st.items);
    KnownPrefix(ds, ms, i);
    var p := Nearest(ds, ms[..i], ds[ms[i]]);
    if p >= 0 { MatchThrifty(ds, st, p, i, o, c); }
    RemoveThrifty(ds, st, i, o, c);
  }

  lemma {:induction false} RunThrifty(ds: seq<Delimiter>, st: State, i: nat, o: nat, c: nat)
    requires Valid(ds, st) && i <= |Marks(st.items)| && Thrifty(st.items, o, c)
    ensures Thrifty(Run(ds, st, i).items, o, c)
    decreases Total(st.length), |Marks(st.items)| - i
  {
    hide Step, Marks, Total, Thrifty, Distinct, Lasting, MarksKnown;
    if i < |Marks(st.items)| {
      StepProgress(ds, st, i);
      StepThrifty(ds, st, i, o, c);
      var (st', i') := Step(ds, st, i);
      RunThrifty(ds, st', i', o, c);
    }
  }

  lemma {:induction false} RawHasNoSingles(items: seq<Inline>, o: nat, c: nat)
    requires Raw(items)
    ensures Singles(items, o, c) == 0
  {
    if items != [] { RawHasNoSingles(items[1..], o, c); }
  }

  /**
    The part of CommonMark's rule 13, that nestings are as few as possible, that concerns one pair of delimiters: no two
    nodes of level one come from the same pair, for they would have been one node of level two.
  */
  lemma FewestNestings(ds: seq<Delimiter>, st: State, o: nat, c: nat)
    requires Valid(ds, st) && Raw(st.items)
    ensures Singles(Process(ds, st), o, c) <= 1
  {
    hide Marks, Run, Singles, Settle, Raw;
    RawHasNoSingles(st.items, o, c);
    RunThrifty(ds, st, 0, o, c);
    RunKeeps(ds, st, 0);
    var end := Run(ds, st, 0);
    SinglesSettled(end.items, end.length, o, c);
  }
}
