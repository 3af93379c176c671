/**
  The guarantees of MapTheorems need the keys in play to hash differently. This module shows what happens when they do
  not, for any calls of Insert and an index of any width: some complete run loses a key if and only if two keys share
  the smallest hash that the calls have in some bucket.
*/
module MapCollisions {
  import opened MapSteps
  import MapInvariant
  import MapProof
  import opened MapTheorems

  datatype Insert = Insert(key: Key, value: Value)

  type Calls = map<nat, Insert>

  function Begun(c: Insert): Thread {
    Thread(c.key, Start, Nil, false, c.value)
  }

  /** An empty map with one slot per `width` hashes, and Inserts about to start. */
  ghost function Empty(hasher: Key -> nat, width: nat, calls: Calls): State {
    State(NoneLinked(hasher, width), 0, 0, Idle, map t | t in calls :: Begun(calls[t]))
  }

  ghost function NoneLinked(hasher: Key -> nat, width: nat): Memory {
    Memory(hasher, map[Head := Elem("", -1, Nil, ZERO)], 2, {Head}, map[0 := Store(width, map[])])
  }

  function Keys(calls: Calls): set<Key> {
    set t | t in calls :: calls[t].key
  }

  ghost predicate AllFound(s: State, calls: Calls) {
    forall t :: t in calls ==> Get(s.m, s.cur, calls[t].key)
  }

  /** No key has a smaller hash in the same bucket. */
  ghost predicate Leads(hasher: Key -> nat, width: nat, keys: set<Key>, k: Key) {
    forall x :: x in keys && Bucket(hasher(x), width) == Bucket(hasher(k), width) ==> hasher(k) <= hasher(x)
  }

  /** Two keys share the smallest hash of a bucket. */
  ghost predicate CollisionLeads(hasher: Key -> nat, width: nat, keys: set<Key>) {
    exists k, l :: k in keys && l in keys && k != l && hasher(k) == hasher(l) && Leads(hasher, width, keys, k)
  }

  // ---------- runs ----------

  /** One more step at the end of a run. */
  lemma {:induction false} Extend(s: State, run: seq<Action>, a: Action)
    requires CanRun(s, run) && Enabled(After(s, run), a)
    ensures CanRun(s, run + [a]) && After(s, run + [a]) == Apply(After(s, run), a)
    decreases |run|
  {
    hide Apply, Enabled;
    if run == [] {
      assert run + [a] == [a];
      assert CanRun(Apply(s, a), []);
      assert After(s, [a]) == After(Apply(s, a), [a][1..]);
    } else {
      assert (run + [a])[1..] == run[1..] + [a];
      Extend(Apply(s, run[0]), run[1..], a);
    }
  }

  /** Call t alone takes the steps given by the states it passes through. */
  lemma {:induction false} Follow(s: State, run: seq<Action>, t: nat, via: seq<State>) returns (run': seq<Action>)
    requires CanRun(s, run) && via != [] && via[0] == After(s, run)
    requires forall i :: 0 <= i < |via| ==> t in via[i].threads
    requires forall i :: 0 <= i < |via| - 1 ==> via[i + 1] == Apply(via[i], Call(t))
    ensures CanRun(s, run') && After(s, run') == via[|via| - 1]
    decreases |via|
  {
    hide Apply, After, CanRun;
    run' := run;
    if |via| > 1 {
      Extend(s, run, Call(t));
      run' := Follow(s, run + [Call(t)], t, via[1..]);
    }
  }

  ghost function With(s: State, t: nat, th: Thread): State {
    s.(threads := s.threads[t := th])
  }

  // ---------- two calls that collide ----------

  /** The first call has linked its element. */
  ghost function OneLinked(hasher: Key -> nat, width: nat, a: Insert): Memory {
    var heap := map[Head := Elem("", -1, 2, ZERO), 2 := Elem(a.key, hasher(a.key), Nil, a.value)];
    Memory(hasher, heap, 3, {Head, 2}, map[0 := Store(width, map[])])
  }

  /** The second call, whose key collides, has linked behind it. */
  ghost function TwoLinked(hasher: Key -> nat, width: nat, a: Insert, b: Insert): Memory {
    var heap := map[
      Head := Elem("", -1, 2, ZERO),
      2 := Elem(a.key, hasher(a.key), 3, a.value),
      3 := Elem(b.key, hasher(b.key), Nil, b.value)];
    Memory(hasher, heap, 4, {Head, 2, 3}, map[0 := Store(width, map[])])
  }

  /** The second call has indexed its element. */
  ghost function SlotTaken(hasher: Key -> nat, width: nat, a: Insert, b: Insert): Memory {
    SetSlot(TwoLinked(hasher, width, a, b), 0, Bucket(hasher(b.key), width), 3)
  }

  function Where(c: Insert, pc: Pc, elem: Ref): Thread {
    Begun(c).(pc := pc, elem := elem)
  }

  lemma FirstSearches(hasher: Key -> nat, width: nat, calls: Calls, t: nat) returns (run: seq<Action>)
    requires t in calls
    ensures var s := Empty(hasher, width, calls);
      CanRun(s, run) && After(s, run) == With(s, t, Where(calls[t], LoadFirst(0), Nil))
  {
    hide Bucket, NewElem, LinkElem, SetSlot;
    var a := calls[t];
    var s := Empty(hasher, width, calls);
    var s1 := With(s, t, Where(a, LoadSlot(0), Nil));
    var s2 := With(s1, t, Where(a, LoadFirst(0), Nil));
    run := Follow(s, [], t, [s, s1, s2]);
    assert s2.threads == s.threads[t := Where(a, LoadFirst(0), Nil)];
  }

  lemma FirstLinks(hasher: Key -> nat, width: nat, s: State, run: seq<Action>, t: nat, a: Insert)
    returns (run': seq<Action>)
    requires CanRun(s, run)
    requires var e := After(s, run);
      e.m == NoneLinked(hasher, width) && t in e.threads && e.threads[t] == Where(a, LoadFirst(0), Nil)
    ensures CanRun(s, run')
    ensures After(s, run') == With(After(s, run), t, Where(a, Tally(0), 2)).(m := OneLinked(hasher, width, a))
  {
    hide After, CanRun, Bucket, Slot;
    var s2 := After(s, run);
    var s3 := With(s2, t, Where(a, Link(0, Head, Nil), 2)).(m := NewElem(s2.m, a.key, a.value, Nil));
    var s4 := With(s3, t, Where(a, Tally(0), 2)).(m := OneLinked(hasher, width, a));
    run' := Follow(s, run, t, [s2, s3, s4]);
    assert s4.threads == s2.threads[t := Where(a, Tally(0), 2)];
  }

  /** Another call for the first key, at this moment, finds it in the list and returns. */
  lemma Repeats(hasher: Key -> nat, width: nat, s: State, run: seq<Action>, u: nat, a: Insert, b: Insert)
    returns (run': seq<Action>)
    requires CanRun(s, run) && a.key == b.key
    requires var e := After(s, run);
      e.m == OneLinked(hasher, width, a) && e.cur == 0 && u in e.threads && e.threads[u] == Begun(b)
    ensures CanRun(s, run') && After(s, run') == With(After(s, run), u, Where(b, Done(false, 2), Nil))
  {
    hide After, CanRun;
    var s0 := After(s, run);
    var s1 := With(s0, u, Where(b, LoadSlot(0), Nil));
    var s2 := With(s1, u, Where(b, LoadFirst(0), Nil));
    var s3 := With(s2, u, Where(b, Done(false, 2), Nil));
    run' := Follow(s, run, u, [s0, s1, s2, s3]);
    assert s3.threads == s0.threads[u := Where(b, Done(false, 2), Nil)];
  }

  /** What the calls of a set have come to, the others being untouched. */
  ghost predicate Rested(before: State, now: State, some: set<nat>) {
    && now.threads.Keys == before.threads.Keys
    && (forall u :: u in before.threads && u !in some ==> now.threads[u] == before.threads[u])
    && (forall u :: u in some && u in before.threads ==> now.threads[u].pc.Done?)
  }

  lemma {:induction false} AllRepeat(hasher: Key -> nat, width: nat, s: State, run: seq<Action>, calls: Calls,
      some: set<nat>, a: Insert)
    returns (run': seq<Action>)
    requires CanRun(s, run)
    requires var e := After(s, run);
      e.m == OneLinked(hasher, width, a) && e.cur == 0 && forall u :: u in some ==>
        u in e.threads && u in calls && calls[u].key == a.key && e.threads[u] == Begun(calls[u])
    ensures CanRun(s, run') && Rested(After(s, run), After(s, run'), some)
    ensures After(s, run') == After(s, run).(threads := After(s, run').threads)
    decreases some
  {
    hide After, CanRun;
    run' := run;
    if some != {} {
      var u :| u in some;
      var next := Repeats(hasher, width, s, run, u, a, calls[u]);
      run' := AllRepeat(hasher, width, s, next, calls, some - {u}, a);
    }
  }

  /** The second call walks past the first element. */
  lemma SecondSearches(hasher: Key -> nat, width: nat, s: State, run: seq<Action>, u: nat, a: Insert, b: Insert)
    returns (run': seq<Action>)
    requires CanRun(s, run) && a.key != b.key && hasher(a.key) == hasher(b.key)
    requires var e := After(s, run);
      e.m == OneLinked(hasher, width, a) && e.cur == 0 && u in e.threads && e.threads[u] == Begun(b)
    ensures CanRun(s, run') && After(s, run') == With(After(s, run), u, Where(b, Advance(0, 2), Nil))
  {
    hide After, CanRun;
    var s0 := After(s, run);
    var s1 := With(s0, u, Where(b, LoadSlot(0), Nil));
    var s2 := With(s1, u, Where(b, LoadFirst(0), Nil));
    var s3 := With(s2, u, Where(b, Advance(0, 2), Nil));
    run' := Follow(s, run, u, [s0, s1, s2, s3]);
    assert s3.threads == s0.threads[u := Where(b, Advance(0, 2), Nil)];
  }

  /** The second call links behind the first. */
  lemma SecondLinks(hasher: Key -> nat, width: nat, s: State, run: seq<Action>, u: nat, a: Insert, b: Insert)
    returns (run': seq<Action>)
    requires CanRun(s, run)
    requires var e := After(s, run);
      e.m == OneLinked(hasher, width, a) && u in e.threads && e.threads[u] == Where(b, Advance(0, 2), Nil)
    ensures CanRun(s, run')
    ensures After(s, run') == With(After(s, run), u, Where(b, Tally(0), 3)).(m := TwoLinked(hasher, width, a, b))
  {
    hide After, CanRun;
    var s0 := After(s, run);
    var s4 := With(s0, u, Where(b, Link(0, 2, Nil), 3)).(m := NewElem(s0.m, b.key, b.value, Nil));
    var s5 := With(s4, u, Where(b, Tally(0), 3)).(m := TwoLinked(hasher, width, a, b));
    run' := Follow(s, run, u, [s0, s4, s5]);
    assert s5.threads == s0.threads[u := Where(b, Tally(0), 3)];
  }

  /** The second call takes the slot and returns. */
  lemma SecondIndexes(hasher: Key -> nat, width: nat, s: State, run: seq<Action>, u: nat, a: Insert, b: Insert)
    returns (run': seq<Action>)
    requires CanRun(s, run)
    requires var e := After(s, run);
      e.m == TwoLinked(hasher, width, a, b) && e.cur == 0 && u in e.threads && e.threads[u] == Where(b, Tally(0), 3)
    ensures CanRun(s, run')
    ensures var e := After(s, run);
      After(s, run') ==
        With(e, u, Where(b, Done(true, 3), 3)).(m := SlotTaken(hasher, width, a, b), count := e.count + 1)
  {
    hide After, CanRun, Bucket;
    var s0 := After(s, run);
    var s1 := With(s0, u, Where(b, Index(0, 3), 3)).(count := s0.count + 1);
    var s2 := With(s1, u, Where(b, IndexSwap(0, 3, Nil), 3));
    assert Home(s0.m, 0, 3) == Bucket(hasher(b.key), width);
    var s3 := With(s2, u, Where(b, Recheck(0, 3), 3)).(m := SlotTaken(hasher, width, a, b));
    var s4 := With(s3, u, Where(b, Done(true, 3), 3));
    run' := Follow(s, run, u, [s0, s1, s2, s3, s4]);
    assert s4.threads == s0.threads[u := Where(b, Done(true, 3), 3)];
  }

  /** The first call finds the slot taken by an equal hash and leaves it. */
  lemma FirstGivesUp(hasher: Key -> nat, width: nat, s: State, run: seq<Action>, t: nat, a: Insert, b: Insert)
    returns (run': seq<Action>)
    requires CanRun(s, run) && hasher(a.key) == hasher(b.key)
    requires var e := After(s, run);
      e.m == SlotTaken(hasher, width, a, b) && e.cur == 0 && t in e.threads && e.threads[t] == Where(a, Tally(0), 2)
    ensures CanRun(s, run')
    ensures var e := After(s, run);
      After(s, run') == With(e, t, Where(a, Done(true, 2), 2)).(count := e.count + 1)
  {
    hide After, CanRun, Bucket;
    var s0 := After(s, run);
    var s1 := With(s0, t, Where(a, Index(0, 2), 2)).(count := s0.count + 1);
    assert Home(s0.m, 0, 2) == Bucket(hasher(a.key), width);
    assert Slot(s0.m, 0, Home(s0.m, 0, 2)) == 3;
    var s2 := With(s1, t, Where(a, Recheck(0, 2), 2));
    var s3 := With(s2, t, Where(a, Done(true, 2), 2));
    run' := Follow(s, run, t, [s0, s1, s2, s3]);
    assert s3.threads == s0.threads[t := Where(a, Done(true, 2), 2)];
  }

  // ---------- a key that is lost stays lost ----------

  /** c is the list, from Head on. */
  ghost predicate Listed(m: Memory, c: seq<Ref>) {
    && c != [] && c[0] == Head && Distinct(c)
    && forall i :: 0 <= i < |c| ==> c[i] != Nil && c[i] < m.nextRef && c[i] in m.heap && Links(m, c, i)
  }

  ghost predicate Distinct(c: seq<Ref>) {
    forall i, j :: 0 <= i < j < |c| ==> c[i] != c[j]
  }

  ghost predicate SlotsIn(m: Memory, c: seq<Ref>) {
    forall i :: Slot(m, 0, i) != Nil ==> exists j :: 1 <= j < |c| && c[j] == Slot(m, 0, i)
  }

  ghost predicate Links(m: Memory, c: seq<Ref>, i: nat)
    requires i < |c|
  {
    Next(m.heap, c[i]) == if i + 1 < |c| then c[i + 1] else Nil
  }

  /** The slot of the key leads to an element of its hash behind which, and at which, there is none of the key. */
  ghost predicate Lost(m: Memory, c: seq<Ref>, q: nat, k: Key) {
    && Listed(m, c) && 0 in m.stores && SlotsIn(m, c) && 1 <= q < |c|
    && KeySlot(m, 0, k) == c[q] && Hash(m.heap, c[q]) == m.hasher(k)
    && forall i :: q <= i < |c| ==> At(m.heap, c[i]).key != k
  }

  lemma After1(m: Memory, c: seq<Ref>, i: nat)
    requires Listed(m, c) && i < |c|
    ensures Next(m.heap, c[i]) == (if i + 1 < |c| then c[i + 1] else Nil) && c[i] != Nil
  {
    assert Links(m, c, i);
  }

  /** Listed elements with the same links are still the list. */
  lemma ListedStays(m: Memory, m': Memory, c: seq<Ref>)
    requires Listed(m, c) && m'.nextRef >= m.nextRef
    requires forall i :: 0 <= i < |c| ==> c[i] in m'.heap && Next(m'.heap, c[i]) == Next(m.heap, c[i])
    ensures Listed(m', c)
  {
    forall i | 0 <= i < |c| ensures Links(m', c, i) {
      assert Links(m, c, i);
    }
  }

  lemma {:induction false} NotFound(m: Memory, c: seq<Ref>, q: nat, k: Key, i: nat, n: nat)
    requires Lost(m, c, q, k) && q <= i <= |c|
    ensures Walk(m, if i < |c| then c[i] else Nil, k, n) == Nil
    decreases n
  {
    hide Listed;
    if n > 0 && i < |c| {
      After1(m, c, i);
      NotFound(m, c, q, k, i + 1, n - 1);
    }
  }

  lemma LostIsNotFound(m: Memory, c: seq<Ref>, q: nat, k: Key)
    requires Lost(m, c, q, k)
    ensures !Get(m, 0, k)
  {
    NotFound(m, c, q, k, q, |m.linked|);
  }

  lemma FirstKeyLost(hasher: Key -> nat, width: nat, a: Insert, b: Insert)
    requires a.key != b.key && hasher(a.key) == hasher(b.key)
    ensures Lost(SlotTaken(hasher, width, a, b), [Head, 2, 3], 2, a.key)
  {
    hide Bucket;
    var m, c := SlotTaken(hasher, width, a, b), [Head, 2, 3];
    assert Links(m, c, 0) && Links(m, c, 1) && Links(m, c, 2);
    assert c[2] == 3;
  }

  // ---------- one call alone runs to its end ----------

  /** A key that does not come before k in the bucket of k. */
  ghost predicate Harmless(m: Memory, key: Key, k: Key) {
    Bucket(m.hasher(key), Width(m, 0)) == Bucket(m.hasher(k), Width(m, 0)) ==> m.hasher(k) <= m.hasher(key)
  }

  /** Where a call of another key stands, with c[j] the element it looked at last. */
  ghost predicate Stands(m: Memory, c: seq<Ref>, j: nat, th: Thread, k: Key) {
    && th.key != k && !th.isSet && j < |c| && Harmless(m, th.key, k)
    && match th.pc
       case Start => th.elem == Nil
       case LoadSlot(st) => st == 0 && th.elem == Nil
       case LoadFirst(st) => st == 0 && th.elem == Nil
       case Advance(st, left) => st == 0 && th.elem == Nil && left == c[j]
       case Link(st, left, right) =>
         && st == 0 && left == c[j] && Next(m.heap, left) == right && Own(m, c, th)
         && Next(m.heap, th.elem) == right
       case Tally(st) => st == 0 && InList(c, th.elem) && HasKey(m, th)
       case Index(st, at) => st == 0 && at == th.elem && InList(c, at) && HasKey(m, th)
       case IndexSwap(st, at, seen) =>
         && st == 0 && at == th.elem && InList(c, at) && HasKey(m, th)
         && Home(m, 0, th.elem) != Bucket(m.hasher(k), Width(m, 0)) && Slot(m, 0, Home(m, 0, th.elem)) == seen
       case Recheck(st, _) => st == 0
       case Done(_, _) => true
       case _ => false
  }

  ghost predicate HasKey(m: Memory, th: Thread) {
    Hash(m.heap, th.elem) == m.hasher(th.key)
  }

  ghost predicate Own(m: Memory, c: seq<Ref>, th: Thread) {
    && th.elem !in c && th.elem != Nil && th.elem < m.nextRef && th.elem in m.heap
    && At(m.heap, th.elem).key == th.key && HasKey(m, th)
  }

  ghost predicate InList(c: seq<Ref>, e: Ref) {
    exists i :: 1 <= i < |c| && c[i] == e
  }

  function Rank(c: seq<Ref>, j: nat, th: Thread): nat
    requires j < |c|
  {
    match th.pc
    case Start => |c| + 13
    case LoadSlot(_) => |c| + 12
    case LoadFirst(_) => |c| + 11
    case Advance(_, _) => |c| - j + 9
    case Link(_, _, _) => 8
    case Tally(_) => 7
    case Index(_, _) => 6
    case IndexSwap(_, _, _) => 5
    case Recheck(_, _) => 4
    case _ => 0
  }

  /** A step of the call keeps the key lost and brings the call closer to its end. */
  ghost predicate Advances(m: Memory, c: seq<Ref>, j: nat, th: Thread, m': Memory, c': seq<Ref>, q': nat, j': nat,
      th': Thread, k: Key)
    requires j < |c|
  {
    && Lost(m', c', q', k) && Stands(m', c', j', th', k) && Rank(c', j', th') < Rank(c, j, th)
    && m'.hasher == m.hasher && Width(m', 0) == Width(m, 0) && th'.key == th.key
  }

  lemma NewElemKeeps(m: Memory, c: seq<Ref>, q: nat, k: Key, key: Key, value: Value, next: Ref)
    requires Lost(m, c, q, k)
    ensures Lost(NewElem(m, key, value, next), c, q, k)
    ensures forall i :: 0 <= i < |c| ==> Next(NewElem(m, key, value, next).heap, c[i]) == Next(m.heap, c[i])
  {
    var m' := NewElem(m, key, value, next);
    assert forall i :: 0 <= i < |c| ==> c[i] in m'.heap && At(m'.heap, c[i]) == At(m.heap, c[i]) by {
      IsListed(m, c, q, k);
    }
    assert m'.stores == m.stores && m'.hasher == m.hasher && m'.nextRef >= m.nextRef;
    hide Listed, NewElem;
    ListedStays(m, m', c);
    SameStores(m, m', k);
    hide KeySlot, Slot;
  }

  lemma SameStores(m: Memory, m': Memory, k: Key)
    requires m'.stores == m.stores && m'.hasher == m.hasher
    ensures KeySlot(m', 0, k) == KeySlot(m, 0, k) && forall i :: Slot(m', 0, i) == Slot(m, 0, i)
  {
  }

  lemma ExamineSteps(m: Memory, c: seq<Ref>, q: nat, k: Key, j: nat, th: Thread) returns (j': nat)
    requires Lost(m, c, q, k) && j < |c| && th.key != k && !th.isSet && th.elem == Nil && m.nextRef > 0
    requires Harmless(m, th.key, k)
    ensures var found := Next(m.heap, c[j]);
      var (m', th') := Examine(m, th, 0, c[j], found);
      && Lost(m', c, q, k) && Stands(m', c, j', th', k) && m'.hasher == m.hasher && th'.key == th.key
      && Width(m', 0) == Width(m, 0)
      && (th'.pc.Link? || th'.pc.Done? || (th'.pc.Advance? && j' == j + 1))
  {
    hide Lost, Listed;
    assert Listed(m, c) by { IsListed(m, c, q, k); }
    After1(m, c, j);
    var found := Next(m.heap, c[j]);
    NewElemKeeps(m, c, q, k, th.key, th.value, found);
    FreshRef(m, c, q, k);
    j' := j;
    var (m', th') := Examine(m, th, 0, c[j], found);
    if th'.pc.Advance? { j' := j + 1; }
  }

  lemma IsListed(m: Memory, c: seq<Ref>, q: nat, k: Key)
    requires Lost(m, c, q, k)
    ensures Listed(m, c)
  {
  }

  lemma FreshRef(m: Memory, c: seq<Ref>, q: nat, k: Key)
    requires Lost(m, c, q, k)
    ensures m.nextRef !in c
  {
  }

  lemma SearchSteps(m: Memory, c: seq<Ref>, q: nat, k: Key, j: nat, th: Thread) returns (j': nat)
    requires Lost(m, c, q, k) && Stands(m, c, j, th, k) && (th.pc.LoadSlot? || th.pc.LoadFirst? || th.pc.Advance?)
    ensures var (m', th') := CallStep(m, 0, th); Advances(m, c, j, th, m', c, q, j', th', k)
  {
    hide Lost, Examine, KeySlot;
    assert Listed(m, c) by { IsListed(m, c, q, k); }
    if th.pc.LoadSlot? {
      var seen := KeySlot(m, 0, th.key);
      j' := 0;
      if seen != Nil && m.hasher(th.key) >= Hash(m.heap, seen) {
        j' := SlotPlace(m, c, q, k, th.key);
        SlotExamined(m, th, seen);
      }
    } else if th.pc.LoadFirst? {
      j' := ExamineSteps(m, c, q, k, 0, th);
    } else {
      j' := ExamineSteps(m, c, q, k, j, th);
    }
  }

  lemma SlotPlace(m: Memory, c: seq<Ref>, q: nat, k: Key, key: Key) returns (i: nat)
    requires Lost(m, c, q, k) && KeySlot(m, 0, key) != Nil
    ensures 1 <= i < |c| && c[i] == KeySlot(m, 0, key)
  {
    i :| 1 <= i < |c| && c[i] == KeySlot(m, 0, key);
  }

  lemma SlotExamined(m: Memory, th: Thread, seen: Ref)
    requires seen != Nil && m.hasher(th.key) >= Hash(m.heap, seen) && !th.isSet
    ensures var (m', th') := Examine(m, th, 0, Head, seen);
      m' == m && th' in {th.(pc := Done(false, seen)), th.(pc := Advance(0, seen))}
  {
  }

  /** The list with e behind c[j], and the place of what was the q-th element. */
  function Inserted(c: seq<Ref>, j: nat, e: Ref): seq<Ref>
    requires j < |c|
  {
    c[..j + 1] + [e] + c[j + 1..]
  }

  function Moved(q: nat, j: nat): nat {
    if q > j then q + 1 else q
  }

  lemma InsertedAt(c: seq<Ref>, j: nat, e: Ref, i: nat)
    requires j < |c| && i <= |c|
    ensures Inserted(c, j, e)[i] == if i <= j then c[i] else if i == j + 1 then e else c[i - 1]
    ensures i < |c| ==> Moved(i, j) <= |c| && Inserted(c, j, e)[Moved(i, j)] == c[i]
  {
  }

  lemma LinkReads(m: Memory, c: seq<Ref>, j: nat, e: Ref)
    requires Listed(m, c) && j < |c|
    ensures var m' := LinkElem(m, c[j], e);
      && (forall r {:trigger Hash(m'.heap, r)} :: Hash(m'.heap, r) == Hash(m.heap, r))
      && (forall r {:trigger At(m'.heap, r)} :: At(m'.heap, r).key == At(m.heap, r).key)
      && (forall r {:trigger Next(m'.heap, r)} :: Next(m'.heap, r) == if r == c[j] then e else Next(m.heap, r))
      && (forall i :: Slot(m', 0, i) == Slot(m, 0, i)) && m'.heap.Keys == m.heap.Keys
  {
  }

  lemma InsertedDistinct(c: seq<Ref>, j: nat, e: Ref)
    requires Distinct(c) && j < |c| && e !in c
    ensures Distinct(Inserted(c, j, e)) && |Inserted(c, j, e)| == |c| + 1
  {
    InsertedSize(c, j, e);
    var c' := Inserted(c, j, e);
    hide Inserted;
    forall i | 0 <= i <= |c|
      ensures c'[i] == if i <= j then c[i] else if i == j + 1 then e else c[i - 1]
    {
      InsertedAt(c, j, e, i);
    }
  }

  lemma LinkCell(m: Memory, c: seq<Ref>, j: nat, th: Thread, i: nat)
    requires Listed(m, c) && j < |c| && Own(m, c, th) && Next(m.heap, th.elem) == Next(m.heap, c[j]) && i <= |c|
    ensures var m', c' := LinkElem(m, c[j], th.elem), Inserted(c, j, th.elem);
      |c'| == |c| + 1 && c'[i] != Nil && c'[i] < m'.nextRef && c'[i] in m'.heap && Links(m', c', i)
  {
    var e := th.elem;
    InsertedSize(c, j, e);
    LinkReads(m, c, j, e);
    LinkStores(m, c[j], e);
    InsertedAt(c, j, e, i);
    if i < |c| { InsertedAt(c, j, e, i + 1); }
    After1(m, c, j);
    if i < |c| { After1(m, c, i); }
    if i > 0 { After1(m, c, i - 1); }
    hide LinkElem, Inserted;
  }

  lemma LinkSlots(m: Memory, c: seq<Ref>, j: nat, e: Ref)
    requires Listed(m, c) && SlotsIn(m, c) && j < |c|
    ensures SlotsIn(LinkElem(m, c[j], e), Inserted(c, j, e))
  {
    var m', c' := LinkElem(m, c[j], e), Inserted(c, j, e);
    LinkReads(m, c, j, e);
    InsertedSize(c, j, e);
    hide LinkElem, Inserted, Links;
    forall i | Slot(m', 0, i) != Nil
      ensures exists x :: 1 <= x < |c'| && c'[x] == Slot(m', 0, i)
    {
      var x :| 1 <= x < |c| && c[x] == Slot(m, 0, i);
      InsertedAt(c, j, e, x);
    }
  }

  lemma LinkListed(m: Memory, c: seq<Ref>, j: nat, th: Thread)
    requires Listed(m, c) && j < |c| && Own(m, c, th) && Next(m.heap, th.elem) == Next(m.heap, c[j])
    ensures Listed(LinkElem(m, c[j], th.elem), Inserted(c, j, th.elem))
  {
    var m', c' := LinkElem(m, c[j], th.elem), Inserted(c, j, th.elem);
    LinkStores(m, c[j], th.elem);
    InsertedDistinct(c, j, th.elem);
    InsertedAt(c, j, th.elem, 0);
    hide LinkElem, Inserted, Distinct, Links;
    forall i | 0 <= i < |c'|
      ensures c'[i] != Nil && c'[i] < m'.nextRef && c'[i] in m'.heap && Links(m', c', i)
    {
      LinkCell(m, c, j, th, i);
    }
  }

  lemma InsertedSize(c: seq<Ref>, j: nat, e: Ref)
    requires j < |c|
    ensures |Inserted(c, j, e)| == |c| + 1
  {
  }

  lemma LinkStores(m: Memory, left: Ref, e: Ref)
    ensures var m' := LinkElem(m, left, e);
      m'.stores == m.stores && m'.nextRef == m.nextRef && m'.hasher == m.hasher
  {
  }

  lemma LinkKeeps(m: Memory, c: seq<Ref>, q: nat, k: Key, j: nat, th: Thread)
    requires Lost(m, c, q, k) && j < |c| && Own(m, c, th) && Next(m.heap, th.elem) == Next(m.heap, c[j]) && th.key != k
    ensures Lost(LinkElem(m, c[j], th.elem), Inserted(c, j, th.elem), Moved(q, j), k)
  {
    var e := th.elem;
    var m', c' := LinkElem(m, c[j], e), Inserted(c, j, e);
    LinkListed(m, c, j, th);
    LinkSlots(m, c, j, e);
    LinkReads(m, c, j, e);
    LinkStores(m, c[j], e);
    InsertedSize(c, j, e);
    InsertedAt(c, j, e, q);
    hide LinkElem, Inserted, Listed, Slot, Hash, SlotsIn, Bucket;
    assert m'.hasher == m.hasher && KeySlot(m', 0, k) == KeySlot(m, 0, k);
    assert Hash(m'.heap, c[q]) == Hash(m.heap, c[q]);
    forall i | Moved(q, j) <= i < |c'|
      ensures At(m'.heap, c'[i]).key != k
    {
      InsertedAt(c, j, e, i);
      assert At(m'.heap, c'[i]).key == At(m.heap, c'[i]).key;
    }
  }

  lemma LinkSteps(m: Memory, c: seq<Ref>, q: nat, k: Key, j: nat, th: Thread)
    requires Lost(m, c, q, k) && Stands(m, c, j, th, k) && th.pc.Link?
    ensures var (m', th') := CallStep(m, 0, th);
      Advances(m, c, j, th, m', Inserted(c, j, th.elem), Moved(q, j), j, th', k)
  {
    hide Lost, LinkElem, Listed, Bucket, Examine, Inspect;
    assert Listed(m, c) by { IsListed(m, c, q, k); }
    LinkKeeps(m, c, q, k, j, th);
    LinkReads(m, c, j, th.elem);
    LinkStores(m, c[j], th.elem);
    InsertedAt(c, j, th.elem, j + 1);
    InsertedSize(c, j, th.elem);
    hide Inserted;
    assert Inserted(c, j, th.elem)[j + 1] == th.elem;
  }

  lemma SlotKeeps(m: Memory, c: seq<Ref>, q: nat, k: Key, th: Thread)
    requires Lost(m, c, q, k) && InList(c, th.elem) && Home(m, 0, th.elem) != Bucket(m.hasher(k), Width(m, 0))
    ensures Lost(SetSlot(m, 0, Home(m, 0, th.elem), th.elem), c, q, k)
  {
    var h := Home(m, 0, th.elem);
    var m' := SetSlot(m, 0, h, th.elem);
    assert forall i :: 0 <= i < |c| ==> c[i] in m'.heap by { IsListed(m, c, q, k); }
    hide Listed, Bucket;
    assert forall i :: Slot(m', 0, i) == if i == h then th.elem else Slot(m, 0, i);
    SetSlotKeeps(m, th.elem);
    ListedStays(m, m', c);
    hide SetSlot, Home;
    assert SlotsIn(m', c);
  }

  lemma IndexSteps(m: Memory, c: seq<Ref>, q: nat, k: Key, j: nat, th: Thread)
    requires Lost(m, c, q, k) && Stands(m, c, j, th, k)
    requires th.pc.Start? || th.pc.Tally? || th.pc.Index? || th.pc.IndexSwap? || th.pc.Recheck?
    ensures var (m', th') := CallStep(m, 0, th); Advances(m, c, j, th, m', c, q, j, th', k)
  {
    hide Lost, SetSlot, Home, Slot, Examine, Inspect, InList;
    if th.pc.IndexSwap? {
      SlotKeeps(m, c, q, k, th);
      SetSlotKeeps(m, th.elem);
    } else if th.pc.Index? && Home(m, 0, th.elem) == Bucket(m.hasher(k), Width(m, 0)) {
      SlotStays(m, c, q, k, th);
    }
  }

  lemma SetSlotKeeps(m: Memory, e: Ref)
    ensures var m' := SetSlot(m, 0, Home(m, 0, e), e); m'.hasher == m.hasher && Width(m', 0) == Width(m, 0)
  {
  }

  /** A call of a harmless key leaves the slot of the lost key alone. */
  lemma SlotStays(m: Memory, c: seq<Ref>, q: nat, k: Key, th: Thread)
    requires Lost(m, c, q, k) && HasKey(m, th) && Harmless(m, th.key, k)
    requires Home(m, 0, th.elem) == Bucket(m.hasher(k), Width(m, 0))
    ensures var seen := Slot(m, 0, Home(m, 0, th.elem)); seen != Nil && Hash(m.heap, th.elem) >= Hash(m.heap, seen)
  {
    hide Bucket;
  }

  lemma CallSteps(m: Memory, c: seq<Ref>, q: nat, k: Key, j: nat, th: Thread) returns (c': seq<Ref>, q': nat, j': nat)
    requires Lost(m, c, q, k) && Stands(m, c, j, th, k) && !th.pc.Done?
    ensures var (m', th') := CallStep(m, 0, th); Advances(m, c, j, th, m', c', q', j', th', k)
  {
    hide Lost, CallStep, Advances;
    c', q', j' := c, q, j;
    if th.pc.LoadSlot? || th.pc.LoadFirst? || th.pc.Advance? {
      j' := SearchSteps(m, c, q, k, j, th);
    } else if th.pc.Link? {
      LinkSteps(m, c, q, k, j, th);
      c', q' := Inserted(c, j, th.elem), Moved(q, j);
    } else {
      IndexSteps(m, c, q, k, j, th);
    }
  }

  ghost predicate SameIndex(m: Memory, m': Memory) {
    m'.hasher == m.hasher && Width(m', 0) == Width(m, 0)
  }

  /** Alone, a call of another key returns, and the key is still lost. */
  lemma {:induction false} Finishes(s: State, run: seq<Action>, t: nat, c: seq<Ref>, q: nat, j: nat, k: Key)
    returns (run': seq<Action>, c': seq<Ref>, q': nat)
    requires CanRun(s, run)
    requires var e := After(s, run);
      e.cur == 0 && t in e.threads && Lost(e.m, c, q, k) && Stands(e.m, c, j, e.threads[t], k)
    ensures CanRun(s, run') && Rested(After(s, run), After(s, run'), {t})
    ensures var e := After(s, run'); e.cur == 0 && Lost(e.m, c', q', k) && e.grower == After(s, run).grower
    ensures SameIndex(After(s, run).m, After(s, run').m)
    decreases Rank(c, j, After(s, run).threads[t])
  {
    hide After, CanRun, Lost, Stands, CallStep;
    var e := After(s, run);
    run', c', q' := run, c, q;
    if !e.threads[t].pc.Done? {
      var j1;
      c', q', j1 := CallSteps(e.m, c, q, k, j, e.threads[t]);
      Extend(s, run, Call(t));
      var next := run + [Call(t)];
      run', c', q' := Finishes(s, next, t, c', q', j1, k);
    }
  }

  lemma {:induction false} AllFinish(s: State, run: seq<Action>, some: set<nat>, c: seq<Ref>, q: nat, k: Key)
    returns (run': seq<Action>, c': seq<Ref>, q': nat)
    requires CanRun(s, run)
    requires var e := After(s, run);
      && e.cur == 0 && Lost(e.m, c, q, k)
      && forall u :: u in some ==>
          u in e.threads && e.threads[u].pc.Start? && e.threads[u].elem == Nil && e.threads[u].key != k &&
          !e.threads[u].isSet && Harmless(e.m, e.threads[u].key, k)
    ensures CanRun(s, run') && Rested(After(s, run), After(s, run'), some)
    ensures var e := After(s, run'); e.cur == 0 && Lost(e.m, c', q', k) && e.grower == After(s, run).grower
    ensures SameIndex(After(s, run).m, After(s, run').m)
    decreases some
  {
    hide After, CanRun, Lost;
    run', c', q' := run, c, q;
    if some != {} {
      var u :| u in some;
      assert c != [] by { HasHead(After(s, run).m, c, q, k); }
      run', c', q' := Finishes(s, run, u, c, q, 0, k);
      run', c', q' := AllFinish(s, run', some - {u}, c', q', k);
    }
  }

  lemma HasHead(m: Memory, c: seq<Ref>, q: nat, k: Key)
    requires Lost(m, c, q, k)
    ensures c != []
  {
  }

  // ---------- a collision that leads its bucket loses a key ----------

  /** The first call has linked its element, all other calls of its key have returned, and no other has begun. */
  lemma FirstsRest(hasher: Key -> nat, width: nat, calls: Calls, t: nat) returns (run: seq<Action>)
    requires t in calls
    ensures var s := Empty(hasher, width, calls);
      && CanRun(s, run) && After(s, run).m == OneLinked(hasher, width, calls[t]) && After(s, run).cur == 0
      && After(s, run).grower.Idle? && After(s, run).threads.Keys == calls.Keys
      && After(s, run).threads[t] == Where(calls[t], Tally(0), 2)
      && forall x :: x in calls && x != t ==>
          if calls[x].key == calls[t].key then After(s, run).threads[x].pc.Done?
          else After(s, run).threads[x] == Begun(calls[x])
  {
    hide After, CanRun, NoneLinked, OneLinked, Bucket;
    var s := Empty(hasher, width, calls);
    run := FirstSearches(hasher, width, calls, t);
    run := FirstLinks(hasher, width, s, run, t, calls[t]);
    var same := set x | x in calls && x != t && calls[x].key == calls[t].key;
    run := AllRepeat(hasher, width, s, run, calls, same, calls[t]);
  }

  /** The two calls have returned with the slot taken, all calls of the first key too, and the others have not begun. */
  lemma BothReturn(hasher: Key -> nat, width: nat, calls: Calls, t: nat, u: nat) returns (run: seq<Action>)
    requires t in calls && u in calls && calls[t].key != calls[u].key && hasher(calls[t].key) == hasher(calls[u].key)
    ensures var s := Empty(hasher, width, calls);
      && CanRun(s, run) && After(s, run).m == SlotTaken(hasher, width, calls[t], calls[u]) && After(s, run).cur == 0
      && After(s, run).grower.Idle? && After(s, run).threads.Keys == calls.Keys
      && forall x :: x in calls ==>
          if x == u || calls[x].key == calls[t].key then After(s, run).threads[x].pc.Done?
          else After(s, run).threads[x] == Begun(calls[x])
  {
    hide After, CanRun, SlotTaken, OneLinked, TwoLinked, Bucket, Empty;
    var a, b := calls[t], calls[u];
    var s := Empty(hasher, width, calls);
    run := FirstsRest(hasher, width, calls, t);
    run := SecondSearches(hasher, width, s, run, u, a, b);
    run := SecondLinks(hasher, width, s, run, u, a, b);
    run := SecondIndexes(hasher, width, s, run, u, a, b);
    run := FirstGivesUp(hasher, width, s, run, t, a, b);
  }

  /** Where two keys share the smallest hash of a bucket, some complete run without a resize loses one. */
  lemma CollisionLoses(hasher: Key -> nat, width: nat, calls: Calls, t: nat, u: nat) returns (run: seq<Action>)
    requires t in calls && u in calls && calls[t].key != calls[u].key && hasher(calls[t].key) == hasher(calls[u].key)
    requires Leads(hasher, width, Keys(calls), calls[t].key)
    ensures var s := Empty(hasher, width, calls);
      && CanRun(s, run) && Quiet(After(s, run)) && After(s, run).cur == 0 && Width(After(s, run).m, 0) == width
      && !Get(After(s, run).m, 0, calls[t].key)
  {
    hide After, CanRun, Get, Lost, Leads, SlotTaken, Empty;
    var a, b := calls[t], calls[u];
    var s := Empty(hasher, width, calls);
    run := BothReturn(hasher, width, calls, t, u);
    FirstKeyLost(hasher, width, a, b);
    TakenIndex(hasher, width, a, b);
    var others := set x | x in calls && x != u && calls[x].key != a.key;
    forall x | x in others ensures Harmless(After(s, run).m, calls[x].key, a.key) {
      LeaderIsSafe(hasher, width, calls, x, a.key);
    }
    var c, q;
    run, c, q := AllFinish(s, run, others, [Head, 2, 3], 2, a.key);
    LostIsNotFound(After(s, run).m, c, q, a.key);
  }

  lemma TakenIndex(hasher: Key -> nat, width: nat, a: Insert, b: Insert)
    ensures var m := SlotTaken(hasher, width, a, b); m.hasher == hasher && Width(m, 0) == width
  {
  }

  lemma LeaderIsSafe(hasher: Key -> nat, width: nat, calls: Calls, x: nat, k: Key)
    requires x in calls && Leads(hasher, width, Keys(calls), k)
    ensures Bucket(hasher(calls[x].key), width) == Bucket(hasher(k), width) ==> hasher(k) <= hasher(calls[x].key)
  {
    assert calls[x].key in Keys(calls);
  }

  // ---------- in every run the list is one chain ----------

  /** c is the list and holds exactly the linked elements. */
  ghost predicate Chain(m: Memory, c: seq<Ref>) {
    Listed(m, c) && forall r :: r in m.linked <==> r in c
  }

  /** A step that links nothing. */
  ghost predicate LinksStay(m: Memory, m': Memory) {
    && m'.linked == m.linked && m'.nextRef >= m.nextRef
    && forall r :: r in m.linked ==> r in m'.heap && Next(m'.heap, r) == Next(m.heap, r)
  }

  lemma ChainStays(m: Memory, m': Memory, c: seq<Ref>)
    requires Chain(m, c) && LinksStay(m, m')
    ensures Chain(m', c)
  {
    ListedStays(m, m', c);
  }

  lemma CallLinks(m: Memory, cur: nat, th: Thread, keys: set<Key>)
    requires MapInvariant.MemoryOk(m, keys) && MapInvariant.ThreadOk(m, th, keys)
    ensures var (m', th') := CallStep(m, cur, th); LinksStay(m, m') || (th.pc.Link? && th'.pc.Tally?)
  {
    hide MapInvariant.Sorted, MapInvariant.Complete, MapInvariant.OneLast, MapInvariant.SlotsOk, KeyVisible, Slot,
        Bucket, Indexed;
  }

  lemma CallChain(m: Memory, cur: nat, th: Thread, c: seq<Ref>, keys: set<Key>) returns (c': seq<Ref>)
    requires MapInvariant.MemoryOk(m, keys) && MapInvariant.ThreadOk(m, th, keys) && Chain(m, c)
    ensures Chain(CallStep(m, cur, th).0, c')
  {
    hide MapInvariant.MemoryOk, MapInvariant.ThreadOk, CallStep, Listed, LinksStay;
    CallLinks(m, cur, th, keys);
    var (m', th') := CallStep(m, cur, th);
    if LinksStay(m, m') {
      c' := c;
      ChainStays(m, m', c);
    } else {
      var j := LinkPlace(m, cur, th, c, keys);
      c' := Inserted(c, j, th.elem);
      LinkListed(m, c, j, th);
      InsertedHolds(c, j, th.elem);
      hide Inserted;
    }
  }

  lemma InsertedHolds(c: seq<Ref>, j: nat, e: Ref)
    requires j < |c|
    ensures forall r :: r in Inserted(c, j, e) <==> r in c || r == e
  {
    assert c == c[..j + 1] + c[j + 1..];
  }

  lemma LinkPlace(m: Memory, cur: nat, th: Thread, c: seq<Ref>, keys: set<Key>) returns (j: nat)
    requires MapInvariant.MemoryOk(m, keys) && MapInvariant.ThreadOk(m, th, keys) && Chain(m, c)
    requires th.pc.Link? && CallStep(m, cur, th).1.pc.Tally?
    ensures j < |c| && CallStep(m, cur, th).0 == LinkElem(m, c[j], th.elem)
    ensures Own(m, c, th) && Next(m.heap, th.elem) == Next(m.heap, c[j])
    ensures LinkElem(m, c[j], th.elem).linked == m.linked + {th.elem}
  {
    hide MapInvariant.ListOk, MapInvariant.SlotsOk, Listed;
    j :| 0 <= j < |c| && c[j] == th.pc.left;
  }

  lemma {:induction false} RunChain(s: State, run: seq<Action>, c: seq<Ref>, init: set<Ref>, keys: set<Key>)
    returns (c': seq<Ref>)
    requires MapInvariant.Loose(s, init, keys) && Chain(s.m, c) && CanRun(s, run)
    ensures Chain(After(s, run).m, c')
    decreases |run|
  {
    hide MapInvariant.Loose, Apply, Chain;
    c' := c;
    if run != [] {
      c' := StepChain(s, run[0], c, init, keys);
      MapProof.LooseStepKeeps(s, run[0], init, keys);
      c' := RunChain(Apply(s, run[0]), run[1..], c', init, keys);
    }
  }

  lemma StepChain(s: State, a: Action, c: seq<Ref>, init: set<Ref>, keys: set<Key>) returns (c': seq<Ref>)
    requires MapInvariant.Loose(s, init, keys) && Chain(s.m, c) && Enabled(s, a)
    ensures Chain(Apply(s, a).m, c')
  {
    hide MapInvariant.MemoryOk, MapInvariant.ThreadOk, MapInvariant.GrowerOk, MapInvariant.CoverOk,
      MapInvariant.CountOk, MapInvariant.OwnersOk, CallStep, FillStep, Chain;
    c' := c;
    if a.Call? {
      c' := CallChain(s.m, s.cur, s.threads[a.t], c, keys);
    } else {
      FillLinks(s.m, s.grower);
      assert LinksStay(s.m, Apply(s, a).m) by { LinkedKnown(s.m, keys); }
      ChainStays(s.m, Apply(s, a).m, c);
    }
  }

  lemma LinkedKnown(m: Memory, keys: set<Key>)
    requires MapInvariant.MemoryOk(m, keys)
    ensures forall r :: r in m.linked ==> r in m.heap
  {
  }

  lemma FillLinks(m: Memory, g: Grower)
    ensures var m' := FillStep(m, g).0; m'.heap == m.heap && m'.linked == m.linked && m'.nextRef == m.nextRef
  {
  }

  // ---------- otherwise every key is found ----------

  lemma {:induction false} Climbs(m: Memory, c: seq<Ref>, i: nat, j: nat, keys: set<Key>)
    requires MapInvariant.Sorted(m) && Chain(m, c) && i <= j < |c|
    ensures Hash(m.heap, c[i]) <= Hash(m.heap, c[j])
    decreases j
  {
    if i < j {
      Climbs(m, c, i, j - 1, keys);
      After1(m, c, j - 1);
      assert c[j - 1] in m.linked;
    }
  }

  /** The walk comes to the element of the key, or to another of the same key before it. */
  lemma {:induction false} WalkComes(m: Memory, c: seq<Ref>, i: nat, j: nat, n: nat, keys: set<Key>)
    requires MapInvariant.Sorted(m) && Chain(m, c) && i <= j < |c| && n >= |c| - i
    requires Hash(m.heap, c[j]) == m.hasher(At(m.heap, c[j]).key)
    ensures Walk(m, c[i], At(m.heap, c[j]).key, n) != Nil
    decreases n
  {
    hide MapInvariant.Sorted, Chain, Listed, Distinct;
    Climbs(m, c, i, j, keys);
    ChainListed(m, c);
    After1(m, c, i);
    if i < j {
      WalkComes(m, c, i + 1, j, n - 1, keys);
      assert Next(m.heap, c[i]) == c[i + 1];
    }
  }

  lemma ChainListed(m: Memory, c: seq<Ref>)
    requires Chain(m, c)
    ensures Listed(m, c) && Distinct(c) && forall r :: r in c ==> r in m.linked
  {
  }

  lemma {:induction false} ChainSize(c: seq<Ref>, linked: set<Ref>)
    requires Distinct(c) && forall r :: r in c ==> r in linked
    ensures |c| <= |linked|
  {
    if c != [] {
      var last := c[|c| - 1];
      ChainSize(c[..|c| - 1], linked - {last});
    }
  }

  /** A slot with a smaller hash leads to the element. */
  lemma SmallerLeads(m: Memory, c: seq<Ref>, seen: Ref, e: Ref, keys: set<Key>)
    requires MapInvariant.Sorted(m) && Chain(m, c) && seen in m.linked && e in m.linked
    requires Hash(m.heap, seen) < Hash(m.heap, e) && Hash(m.heap, e) == m.hasher(At(m.heap, e).key)
    ensures Walk(m, seen, At(m.heap, e).key, |m.linked|) != Nil
  {
    hide MapInvariant.Sorted;
    var i :| 0 <= i < |c| && c[i] == seen;
    var j :| 0 <= j < |c| && c[j] == e;
    hide Chain;
    if j <= i { Climbs(m, c, j, i, keys); }
    ChainListed(m, c);
    ChainSize(c, m.linked);
    WalkComes(m, c, i, j, |m.linked|, keys);
  }

  /** In a quiet map the slot of a key in the list holds no larger hash. */
  lemma SlotOfKey(s: State, k: Key, keys: set<Key>) returns (e: Ref)
    requires MapInvariant.NodesOk(s.m, keys) && MapInvariant.SlotsOk(s.m) && MapInvariant.InList(s.m, k)
    requires forall e :: MapInvariant.Member(s.m, e) ==> Indexed(s.m, s.cur, e)
    ensures MapInvariant.Member(s.m, e) && At(s.m.heap, e).key == k && Hash(s.m.heap, e) == s.m.hasher(k)
    ensures var seen := KeySlot(s.m, s.cur, k);
      seen != Nil && MapInvariant.Member(s.m, seen) && Hash(s.m.heap, seen) <= s.m.hasher(k)
  {
    hide Bucket;
    e :| MapInvariant.Member(s.m, e) && At(s.m.heap, e).key == k;
    assert Indexed(s.m, s.cur, e);
  }

  /** In a quiet map a key is found, unless it shares the smallest hash of its bucket with another. */
  lemma KeyFound(s: State, calls: Calls, c: seq<Ref>, k: Key)
    requires var keys := Keys(calls); MapInvariant.Loose(s, {Head}, keys) && Quiet(s) && Chain(s.m, c)
    requires forall x :: x in Keys(calls) ==> MapInvariant.InList(s.m, x)
    requires k in Keys(calls) && !CollisionLeads(s.m.hasher, Width(s.m, s.cur), Keys(calls))
    ensures Get(s.m, s.cur, k)
  {
    hide MapInvariant.NodesOk, MapInvariant.Sorted, MapInvariant.Complete, MapInvariant.OneLast, MapInvariant.SlotsOk,
      MapInvariant.ThreadsOk, MapInvariant.GrowerOk, MapInvariant.CoverOk, MapInvariant.CountOk, MapInvariant.OwnersOk,
      MapInvariant.InList, Chain, KeySlot, CollisionLeads, Leads, IndexExact, Indexed;
    var keys := Keys(calls);
    QuietCover(s, {Head}, keys);
    var e := SlotOfKey(s, k, keys);
    var seen := KeySlot(s.m, s.cur, k);
    if Hash(s.m.heap, seen) < Hash(s.m.heap, e) {
      SmallerLeads(s.m, c, seen, e, keys);
    } else {
      SlotHasLeader(s, calls, k);
      OnlyLeader(s.m, Width(s.m, s.cur), keys, k, seen);
      assert |s.m.linked| > 0;
    }
  }

  lemma OnlyLeader(m: Memory, width: nat, keys: set<Key>, k: Key, seen: Ref)
    requires MapInvariant.NodesOk(m, keys) && MapInvariant.Member(m, seen) && Hash(m.heap, seen) == m.hasher(k)
    requires k in keys && Leads(m.hasher, width, keys, k) && !CollisionLeads(m.hasher, width, keys)
    ensures At(m.heap, seen).key == k
  {
    hide Leads;
  }

  /** A hash that is in the slot is the smallest that the calls have in the bucket. */
  lemma SlotHasLeader(s: State, calls: Calls, k: Key)
    requires MapInvariant.NodesOk(s.m, Keys(calls))
    requires forall e :: MapInvariant.Member(s.m, e) ==> Indexed(s.m, s.cur, e)
    requires forall x :: x in Keys(calls) ==> MapInvariant.InList(s.m, x)
    requires Hash(s.m.heap, KeySlot(s.m, s.cur, k)) == s.m.hasher(k)
    ensures Leads(s.m.hasher, Width(s.m, s.cur), Keys(calls), k)
  {
    hide Bucket;
    forall x | x in Keys(calls) && Bucket(s.m.hasher(x), Width(s.m, s.cur)) == Bucket(s.m.hasher(k), Width(s.m, s.cur))
      ensures s.m.hasher(k) <= s.m.hasher(x)
    {
      assert MapInvariant.InList(s.m, x);
      var e :| MapInvariant.Member(s.m, e) && At(s.m.heap, e).key == x;
      assert Indexed(s.m, s.cur, e);
    }
  }

  // ---------- the exact condition ----------

  /** The run is one of these calls, and all of them have returned at its end. */
  ghost predicate Completes(hasher: Key -> nat, width: nat, calls: Calls, run: seq<Action>) {
    var s := Empty(hasher, width, calls);
    width > 0 && CanRun(s, run) && Quiet(After(s, run))
  }

  /** The index that the run leaves has one slot per `width` hashes. */
  ghost predicate EndsWith(hasher: Key -> nat, start: nat, calls: Calls, run: seq<Action>, width: nat)
    requires Completes(hasher, start, calls, run)
  {
    var s := After(Empty(hasher, start, calls), run);
    Width(s.m, s.cur) == width
  }

  lemma EmptyIsLoose(hasher: Key -> nat, width: nat, calls: Calls)
    ensures var s := Empty(hasher, width, calls); MapInvariant.Loose(s, {Head}, Keys(calls)) && Chain(s.m, [Head])
  {
    hide MapInvariant.NoCollisions, MapInvariant.ThreadOk, Bucket, KeyVisible;
    var s := Empty(hasher, width, calls);
    assert Links(s.m, [Head], 0);
    assert MapInvariant.Tallying(s) == {};
    forall t | t in s.threads ensures MapInvariant.ThreadOk(s.m, s.threads[t], Keys(calls)) {
      assert calls[t].key in Keys(calls);
      BegunIsOk(s.m, calls[t], Keys(calls));
    }
  }

  lemma BegunIsOk(m: Memory, c: Insert, keys: set<Key>)
    requires c.key in keys
    ensures MapInvariant.ThreadOk(m, Begun(c), keys)
  {
  }

  /** Once everything has returned, the key of every call is in the list. */
  lemma CallsAreListed(hasher: Key -> nat, width: nat, calls: Calls, run: seq<Action>)
    requires Completes(hasher, width, calls, run)
    ensures var s := After(Empty(hasher, width, calls), run);
      && MapInvariant.Loose(s, {Head}, Keys(calls)) && s.m.hasher == hasher
      && forall x :: x in Keys(calls) ==> MapInvariant.InList(s.m, x)
  {
    hide After, CanRun, MapInvariant.Loose, MapInvariant.InList;
    var s := Empty(hasher, width, calls);
    EmptyIsLoose(hasher, width, calls);
    LooseRunKeeps(s, run, {Head}, Keys(calls));
    RunGrows(s, run, {Head}, Keys(calls));
    forall x | x in Keys(calls) ensures MapInvariant.InList(After(s, run).m, x) {
      var t :| t in calls && calls[t].key == x;
      assert SameCall(s.threads[t], After(s, run).threads[t]);
      DoneIsThere(After(s, run), {Head}, t, Keys(calls));
    }
  }

  lemma NoLeadNoLoss(hasher: Key -> nat, start: nat, calls: Calls, run: seq<Action>, width: nat)
    requires Completes(hasher, start, calls, run) && EndsWith(hasher, start, calls, run, width)
    requires !CollisionLeads(hasher, width, Keys(calls))
    ensures AllFound(After(Empty(hasher, start, calls), run), calls)
  {
    hide After, CanRun, MapInvariant.Loose, MapInvariant.InList, Get, CollisionLeads, Chain, Empty;
    CallsAreListed(hasher, start, calls, run);
    EmptyIsLoose(hasher, start, calls);
    var s := Empty(hasher, start, calls);
    var c := RunChain(s, run, [Head], {Head}, Keys(calls));
    forall t | t in calls ensures Get(After(s, run).m, After(s, run).cur, calls[t].key) {
      assert calls[t].key in Keys(calls);
      KeyFound(After(s, run), calls, c, calls[t].key);
    }
  }

  /**
    The exact condition, for any calls of Insert and any width: every complete run that ends with an index of this
    width, resizes included, finds the keys of all calls, if and only if no two keys share the smallest hash of a
    bucket.
  */
  lemma AllFoundIff(hasher: Key -> nat, width: nat, calls: Calls)
    requires width > 0
    ensures (forall start, run ::
               Completes(hasher, start, calls, run) && EndsWith(hasher, start, calls, run, width) ==>
                 AllFound(After(Empty(hasher, start, calls), run), calls))
       <==> !CollisionLeads(hasher, width, Keys(calls))
  {
    hide After, CanRun, Empty, Quiet, Get, Leads;
    if CollisionLeads(hasher, width, Keys(calls)) {
      var run := Loses(hasher, width, calls);
      assert Completes(hasher, width, calls, run) && EndsWith(hasher, width, calls, run, width);
    } else {
      hide AllFound, CollisionLeads, Completes, EndsWith;
      forall start, run | Completes(hasher, start, calls, run) && EndsWith(hasher, start, calls, run, width)
        ensures AllFound(After(Empty(hasher, start, calls), run), calls)
      {
        NoLeadNoLoss(hasher, start, calls, run, width);
      }
    }
  }

  lemma Loses(hasher: Key -> nat, width: nat, calls: Calls) returns (run: seq<Action>)
    requires width > 0 && CollisionLeads(hasher, width, Keys(calls))
    ensures Completes(hasher, width, calls, run) && EndsWith(hasher, width, calls, run, width)
    ensures !AllFound(After(Empty(hasher, width, calls), run), calls)
  {
    hide After, CanRun, Empty, Quiet, Get, Leads;
    var keys := Keys(calls);
    var k, l :| k in keys && l in keys && k != l && hasher(k) == hasher(l) && Leads(hasher, width, keys, k);
    var t :| t in calls && calls[t].key == k;
    var u :| u in calls && calls[u].key == l;
    run := CollisionLoses(hasher, width, calls, t, u);
  }

  /**
    Keys with which nothing can be lost: at every width, no calls of Insert for some of the keys lose one in any
    complete run, if and only if no two of the keys share a hash.
  */
  lemma SafeKeysIff(hasher: Key -> nat, width: nat, keys: set<Key>)
    requires width > 0
    ensures (forall calls, run :: Keys(calls) <= keys && Completes(hasher, width, calls, run) ==>
               AllFound(After(Empty(hasher, width, calls), run), calls))
       <==> MapInvariant.NoCollisions(hasher, keys)
  {
    hide After, CanRun, Empty, Quiet, AllFound;
    if MapInvariant.NoCollisions(hasher, keys) {
      forall calls, run | Keys(calls) <= keys && Completes(hasher, width, calls, run)
        ensures AllFound(After(Empty(hasher, width, calls), run), calls)
      {
        var s := After(Empty(hasher, width, calls), run);
        NoLeadNoLoss(hasher, width, calls, run, Width(s.m, s.cur));
      }
    } else {
      var k, l :| k in keys && l in keys && hasher(k) == hasher(l) && k != l;
      var calls: Calls := map[0 := Insert(k, ZERO), 1 := Insert(l, ZERO)];
      assert Keys(calls) == {k, l} by { assert calls[0].key == k && calls[1].key == l; }
      assert Leads(hasher, width, {k, l}, k);
      var run := Loses(hasher, width, calls);
      assert Completes(hasher, width, calls, run);
    }
  }

  /**
    A slot is filled only in a bucket of one of the calls: with at least twice as many slots as keys, no more than half
    of the slots are ever filled.
  */
  lemma FilledByCalls(hasher: Key -> nat, width: nat, calls: Calls, run: seq<Action>, st: nat, i: nat)
    requires var s := Empty(hasher, width, calls); CanRun(s, run) && Slot(After(s, run).m, st, i) != Nil
    ensures var m := After(Empty(hasher, width, calls), run).m;
      exists x :: x in Keys(calls) && Bucket(hasher(x), Width(m, st)) == i
  {
    hide After, CanRun, Bucket;
    var s := Empty(hasher, width, calls);
    EmptyIsLoose(hasher, width, calls);
    LooseRunKeeps(s, run, {Head}, Keys(calls));
    RunGrows(s, run, {Head}, Keys(calls));
    FilledByKey(After(s, run).m, Keys(calls), st, i);
  }

  lemma FilledByKey(m: Memory, keys: set<Key>, st: nat, i: nat)
    requires MapInvariant.MemoryOk(m, keys) && Slot(m, st, i) != Nil
    ensures exists x :: x in keys && Bucket(m.hasher(x), Width(m, st)) == i
  {
    var e := Slot(m, st, i);
    assert Home(m, st, e) == i;
    assert At(m.heap, e).key in keys;
  }

  /**
    A collision need not lose anything: in an index of even width hash 2 is always in the bucket of hash 3, so that it
    takes the slot from the two keys of hash 3.
  */
  lemma SmallerHashSaves(hasher: Key -> nat, width: nat, x: Key, k: Key, l: Key)
    requires width > 0 && width % 2 == 0 && hasher(x) == 2 && hasher(k) == hasher(l) == 3
    ensures !CollisionLeads(hasher, width, {x, k, l})
  {
    assert 2 / width == 3 / width by {
      if width > 2 { SmallOverLarge(2, width); SmallOverLarge(3, width); }
    }
    assert Bucket(hasher(x), width) == Bucket(hasher(k), width);
    assert !Leads(hasher, width, {x, k, l}, k) && !Leads(hasher, width, {x, k, l}, l);
  }

  lemma SmallOverLarge(a: nat, b: nat)
    requires a < b
    ensures a / b == 0
  {
  }
}
