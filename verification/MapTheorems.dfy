/**
  What the lock-free map guarantees over whole runs: any number of concurrent Inserts, Sets
  and lookups, with resizes starting at any time.
*/
module MapTheorems {
  import opened MapSteps
  import opened MapInvariant
  import opened MapProof

  // ---------- the start of a run ----------

  /** A map at rest: its list and index agree, and no call has begun. */
  ghost predicate AtRest(s: State, keys: set<Key>) {
    && NoCollisions(s.m.hasher, keys)
    && Resting(s, keys)
  }

  /** The same, with or without collisions. */
  ghost predicate Resting(s: State, keys: set<Key>) {
    && MemoryOk(s.m, keys)
    && s.cur in s.m.stores
    && s.grower.Idle?
    && s.count + 1 == |s.m.linked|
    && (forall e :: Member(s.m, e) ==> Indexed(s.m, s.cur, e))
    && (forall t :: t in s.threads ==>
          && (s.threads[t].pc.Start? || (s.threads[t].pc.GetStart? && !s.threads[t].isSet))
          && s.threads[t].elem == Nil && s.threads[t].key in keys)
  }

  lemma AtRestInv(s: State, keys: set<Key>)
    requires AtRest(s, keys)
    ensures Inv(s, s.m.linked, keys)
  {
    hide Sorted, Complete, OneLast, SlotsOk, Indexed;
    assert Tallying(s) == {};
  }

  // ---------- lookups ----------

  /** The walk of `Get` from element `at`, over no more than n elements: the element of the key, or Nil. */
  ghost function Walk(m: Memory, at: Ref, key: Key, n: nat): Ref
    decreases n
  {
    if n == 0 || at == Nil then Nil
    else if Hash(m.heap, at) == m.hasher(key) && At(m.heap, at).key == key then at
    else if Hash(m.heap, at) > m.hasher(key) then Nil
    else Walk(m, Next(m.heap, at), key, n - 1)
  }

  /** The element `Get` finds when it runs alone: it never needs to look at more elements than are linked. */
  ghost function Lookup(m: Memory, st: nat, key: Key): Ref {
    Walk(m, KeySlot(m, st, key), key, |m.linked|)
  }

  ghost predicate Get(m: Memory, st: nat, key: Key) {
    Lookup(m, st, key) != Nil
  }

  ghost function From(m: Memory, at: Ref): set<Ref> {
    set q | q in m.linked && Hash(m.heap, at) <= Hash(m.heap, q)
  }

  lemma {:induction false} WalkFinds(m: Memory, at: Ref, e: Ref, n: nat, keys: set<Key>)
    requires ListOk(m, keys) && NoCollisions(m.hasher, keys) && Member(m, at) && Member(m, e)
    requires Hash(m.heap, at) <= Hash(m.heap, e) && |From(m, at)| <= n
    ensures Walk(m, at, At(m.heap, e).key, n) == e
    decreases n
  {
    assert at in From(m, at);
    if at != e {
      var next := Next(m.heap, at);
      assert Hash(m.heap, at) < Hash(m.heap, e);
      assert From(m, next) <= From(m, at) - {at};
      SubsetSize(From(m, next), From(m, at) - {at});
      WalkFinds(m, next, e, n - 1, keys);
    }
  }

  lemma {:induction false} SubsetSize(a: set<Ref>, b: set<Ref>)
    requires a <= b
    ensures |a| <= |b|
  {
    if a != {} {
      var x :| x in a;
      SubsetSize(a - {x}, b - {x});
    }
  }

  lemma {:induction false} FoundIsMember(m: Memory, at: Ref, key: Key, n: nat, keys: set<Key>)
    requires ListOk(m, keys) && (at != Nil ==> Member(m, at)) && Walk(m, at, key, n) != Nil
    ensures Member(m, Walk(m, at, key, n)) && At(m.heap, Walk(m, at, key, n)).key == key
    decreases n
  {
    if Hash(m.heap, at) == m.hasher(key) && At(m.heap, at).key == key {
    } else {
      FoundIsMember(m, Next(m.heap, at), key, n - 1, keys);
    }
  }

  /** An indexed element is what Get returns for its key, and Get returns nothing else. */
  lemma GetIsList(m: Memory, st: nat, key: Key, keys: set<Key>)
    requires ListOk(m, keys) && NoCollisions(m.hasher, keys) && SlotsOk(m)
    ensures Get(m, st, key) ==> Member(m, Lookup(m, st, key)) && At(m.heap, Lookup(m, st, key)).key == key
    ensures KeyVisible(m, st, key) ==> Get(m, st, key)
  {
    if Get(m, st, key) {
      FoundIsMember(m, KeySlot(m, st, key), key, |m.linked|, keys);
    }
    if KeyVisible(m, st, key) {
      var e :| e in m.linked && e != Head && At(m.heap, e).key == key && Indexed(m, st, e);
      var at := KeySlot(m, st, key);
      SubsetSize(From(m, at), m.linked);
      WalkFinds(m, at, e, |m.linked|, keys);
    }
  }

  // ---------- runs ----------

  lemma {:induction false} RunKeeps(s: State, run: seq<Action>, init: set<Ref>, keys: set<Key>)
    requires Inv(s, init, keys) && CanRun(s, run)
    ensures Inv(After(s, run), init, keys)
    decreases |run|
  {
    hide Inv, Apply;
    if run != [] {
      StepKeeps(s, run[0], init, keys);
      RunKeeps(Apply(s, run[0]), run[1..], init, keys);
    }
  }

  lemma {:induction false} LooseRunKeeps(s: State, run: seq<Action>, init: set<Ref>, keys: set<Key>)
    requires Loose(s, init, keys) && CanRun(s, run)
    ensures Loose(After(s, run), init, keys)
    decreases |run|
  {
    hide Loose, Apply;
    if run != [] {
      LooseStepKeeps(s, run[0], init, keys);
      LooseRunKeeps(Apply(s, run[0]), run[1..], init, keys);
    }
  }

  /** What never changes in a call: its key, its kind and its value. */
  predicate SameCall(th: Thread, th': Thread) {
    th'.key == th.key && th'.isSet == th.isSet && th'.value == th.value && IsGet(th') == IsGet(th)
  }

  /** Every call's thread and key survive a run, and so does every linked element with its key. */
  lemma {:induction false} RunGrows(s: State, run: seq<Action>, init: set<Ref>, keys: set<Key>)
    requires Loose(s, init, keys) && CanRun(s, run)
    ensures After(s, run).m.hasher == s.m.hasher
    ensures After(s, run).threads.Keys == s.threads.Keys
    ensures forall t :: t in s.threads ==> SameCall(s.threads[t], After(s, run).threads[t])
    ensures s.m.linked <= After(s, run).m.linked
    ensures forall e :: e in s.m.linked ==> At(After(s, run).m.heap, e).key == At(s.m.heap, e).key
    decreases |run|
  {
    hide Loose, Apply;
    if run != [] {
      LooseStepKeeps(s, run[0], init, keys);
      StepGrows(s, run[0], init, keys);
      RunGrows(Apply(s, run[0]), run[1..], init, keys);
    }
  }

  lemma StepGrows(s: State, a: Action, init: set<Ref>, keys: set<Key>)
    requires Loose(s, init, keys) && Enabled(s, a)
    ensures var s' := Apply(s, a);
      && s'.m.hasher == s.m.hasher
      && s'.threads.Keys == s.threads.Keys
      && (forall t :: t in s.threads ==> SameCall(s.threads[t], s'.threads[t]))
      && s.m.linked <= s'.m.linked
      && (forall e :: e in s.m.linked ==> At(s'.m.heap, e).key == At(s.m.heap, e).key)
  {
    hide ThreadOk, PositionOk, BaseOk, BaseVisible, CoverOk, CountOk, OwnersOk, CallStep, FillStep, SlotsOk, Sorted,
        Complete, Indexed;
    match a
    case Call(t) =>
      CallMemory(s.m, s.cur, s.threads[t], keys);
      CallSame(s.m, s.cur, s.threads[t]);
    case StartGrow(st, width) =>
    case Grow => FillMemory(s.m, s.cur, s.grower, keys);
    case GrowAgain(st, width) =>
  }

  lemma CallSame(m: Memory, cur: nat, th: Thread)
    ensures SameCall(th, CallStep(m, cur, th).1)
  {
    hide Examine, Inspect, KeyVisible, Slot, Home, KeySlot, Hash, Next, LinkElem, SetSlot, StoreValue;
    forall st, left, found ensures !IsGet(th) ==> SameCall(th, Examine(m, th, st, left, found).1) {
      ExamineSame(m, th, st, left, found);
    }
    forall at, visible ensures IsGet(th) ==> SameCall(th, Inspect(m, th, at, visible)) {
      InspectSame(m, th, at, visible);
    }
  }

  lemma ExamineSame(m: Memory, th: Thread, st: nat, left: Ref, found: Ref)
    ensures !IsGet(th) ==> SameCall(th, Examine(m, th, st, left, found).1)
  {
  }

  lemma InspectSame(m: Memory, th: Thread, at: Ref, visible: bool)
    ensures IsGet(th) ==> SameCall(th, Inspect(m, th, at, visible))
  {
  }

  // ---------- guarantees ----------

  /** The index is exact: a slot holds the smallest-hash element of its bucket, or nil for an empty bucket. */
  ghost predicate IndexExact(m: Memory, st: nat) {
    forall i ::
      && (Slot(m, st, i) != Nil ==> Member(m, Slot(m, st, i)) && Home(m, st, Slot(m, st, i)) == i)
      && (forall e :: Member(m, e) && Home(m, st, e) == i ==>
            Slot(m, st, i) != Nil && Hash(m.heap, Slot(m, st, i)) <= Hash(m.heap, e))
  }

  lemma NoneOwed(s: State, e: Ref, keys: set<Key>)
    requires ThreadsOk(s.m, s.threads, keys) && Quiet(s)
    ensures !Owed(s.threads, e)
  {
    hide KeyVisible, Indexed;
    forall t | t in s.threads
      ensures !Pending(s.threads[t])
    {
      assert ThreadOk(s.m, s.threads[t], keys);
    }
  }

  /** With or without collisions, the idle index is exact. */
  lemma QuietCover(s: State, init: set<Ref>, keys: set<Key>)
    requires Loose(s, init, keys) && Quiet(s)
    ensures IndexExact(s.m, s.cur) && forall e :: Member(s.m, e) ==> Indexed(s.m, s.cur, e)
    ensures s.count + 1 == |s.m.linked|
  {
    hide NodesOk, Sorted, Complete, OneLast, ThreadOk, GrowerOk, Bucket;
    forall e | Member(s.m, e) ensures Indexed(s.m, s.cur, e) {
      NoneOwed(s, e, keys);
    }
    assert Tallying(s) == {};
  }

  lemma QuietIndex(s: State, init: set<Ref>, keys: set<Key>)
    requires Inv(s, init, keys) && Quiet(s)
    ensures IndexExact(s.m, s.cur)
    ensures s.count + 1 == |s.m.linked|
    ensures forall key :: Get(s.m, s.cur, key) <==> InList(s.m, key)
  {
    hide Sorted, Complete, OneLast, ThreadOk, GrowerOk, CoverOk, Get, Bucket, IndexExact, Indexed;
    QuietCover(s, init, keys);
    forall key ensures Get(s.m, s.cur, key) <==> InList(s.m, key) {
      GetIsList(s.m, s.cur, key, keys);
      if InList(s.m, key) {
        var e :| Member(s.m, e) && At(s.m.heap, e).key == key;
        assert KeyVisible(s.m, s.cur, key);
      }
    }
  }

  /**
    Whatever the interleaving of Inserts, Sets, lookups and resizes, once everything has
    finished the published index is exact, the counter is the number of elements, and
    Get finds a key exactly when it was in the map before or some Insert or Set was called for it.
  */
  lemma QuietMapIsExact(s: State, run: seq<Action>, keys: set<Key>)
    requires AtRest(s, keys) && CanRun(s, run) && Quiet(After(s, run))
    ensures var s' := After(s, run);
      && IndexExact(s'.m, s'.cur)
      && s'.count + 1 == |s'.m.linked|
      && forall key :: Get(s'.m, s'.cur, key) <==> (InList(s.m, key) || Inserted(s', key))
  {
    hide NodesOk, Sorted, Complete, SlotsOk, GrowerOk, Get, Indexed, CoverOk, IndexExact, After, CanRun;
    var s' := After(s, run);
    AtRestInv(s, keys);
    RunKeeps(s, run, s.m.linked, keys);
    RunGrows(s, run, s.m.linked, keys);
    QuietIndex(s', s.m.linked, keys);
    forall key ensures InList(s'.m, key) <==> (InList(s.m, key) || Inserted(s', key)) {
      ListIsInserts(s, s', key, keys);
    }
  }

  /** Some Insert or Set was called for the key. */
  ghost predicate Inserted(s: State, key: Key) {
    exists t :: t in s.threads && s.threads[t].pc.Done? && s.threads[t].key == key
  }

  lemma ListIsInserts(s: State, s': State, key: Key, keys: set<Key>)
    requires Inv(s', s.m.linked, keys) && Quiet(s')
    requires forall e :: e in s.m.linked ==> At(s'.m.heap, e).key == At(s.m.heap, e).key
    ensures InList(s'.m, key) <==> (InList(s.m, key) || Inserted(s', key))
  {
    hide Loose, HasLinked, At;
    if InList(s'.m, key) {
      var e :| Member(s'.m, e) && At(s'.m.heap, e).key == key;
      if e in s.m.linked { assert Member(s.m, e); } else { LinkedByCall(s', s.m.linked, e, keys); }
    }
    if InList(s.m, key) {
      var e :| Member(s.m, e) && At(s.m.heap, e).key == key;
      assert Member(s'.m, e) by { StillLinked(s', s.m.linked, e, keys); }
    }
    if Inserted(s', key) {
      var t :| t in s'.threads && s'.threads[t].pc.Done? && s'.threads[t].key == key;
      DoneIsThere(s', s.m.linked, t, keys);
    }
  }

  lemma LinkedByCall(s: State, init: set<Ref>, e: Ref, keys: set<Key>)
    requires Inv(s, init, keys) && Quiet(s) && Member(s.m, e) && e !in init
    ensures Inserted(s, At(s.m.heap, e).key)
  {
    hide MemoryOk, GrowerOk, CoverOk, CountOk, Indexed, KeyVisible;
    assert Linker(s.threads, e);
    var t :| t in s.threads && HasLinked(s.threads[t]) && s.threads[t].elem == e;
    assert ThreadOk(s.m, s.threads[t], keys);
  }

  lemma StillLinked(s: State, init: set<Ref>, e: Ref, keys: set<Key>)
    requires Inv(s, init, keys) && e in init && e != Head
    ensures Member(s.m, e)
  {
  }

  lemma DoneIsThere(s: State, init: set<Ref>, t: nat, keys: set<Key>)
    requires Loose(s, init, keys) && t in s.threads && s.threads[t].pc.Done?
    ensures InList(s.m, s.threads[t].key)
  {
    hide MemoryOk, GrowerOk, CoverOk, CountOk, OwnersOk, Indexed, KeyVisible;
    assert ThreadOk(s.m, s.threads[t], keys);
  }

  /** Call t is an Insert of the key that has returned true. */
  ghost predicate ReportsTrue(s: State, t: nat, key: Key) {
    t in s.threads && s.threads[t].key == key && !s.threads[t].isSet && s.threads[t].pc.Done? &&
        s.threads[t].pc.inserted
  }

  /** At no moment of any run have two Inserts of one key returned true, nor one of a key already there. */
  lemma NoTwoInsertsTrue(s: State, run: seq<Action>, key: Key, keys: set<Key>)
    requires AtRest(s, keys) && CanRun(s, run)
    ensures var s' := After(s, run);
      && (forall t, u :: ReportsTrue(s', t, key) && ReportsTrue(s', u, key) ==> t == u)
      && (InList(s.m, key) ==> forall t :: !ReportsTrue(s', t, key))
  {
    hide Loose, AtRest, After, CanRun, ReportsTrue;
    var s' := After(s, run);
    AtRestInv(s, keys);
    RunKeeps(s, run, s.m.linked, keys);
    RunGrows(s, run, s.m.linked, keys);
    forall t, u | ReportsTrue(s', t, key) && ReportsTrue(s', u, key) ensures t == u {
      OneReports(s', s.m.linked, t, u, key, keys);
    }
    forall t, e | Member(s.m, e) && At(s.m.heap, e).key == key ensures !ReportsTrue(s', t, key) {
      if ReportsTrue(s', t, key) { NewReports(s', s.m.linked, t, e, key, keys); }
    }
  }

  /** An Insert that has returned true is the one that has linked the element of its key. */
  lemma ReportsOwn(s: State, init: set<Ref>, t: nat, key: Key, keys: set<Key>)
    requires Inv(s, init, keys) && ReportsTrue(s, t, key)
    ensures var e := s.threads[t].elem;
      Member(s.m, e) && At(s.m.heap, e).key == key && Hash(s.m.heap, e) == s.m.hasher(key) && e !in init
  {
    hide Sorted, Complete, SlotsOk, GrowerOk, CoverOk, CountOk, Indexed;
    assert ThreadOk(s.m, s.threads[t], keys);
  }

  lemma OneReports(s: State, init: set<Ref>, t: nat, u: nat, key: Key, keys: set<Key>)
    requires Inv(s, init, keys) && ReportsTrue(s, t, key) && ReportsTrue(s, u, key)
    ensures t == u
  {
    ReportsOwn(s, init, t, key, keys);
    ReportsOwn(s, init, u, key, keys);
    hide Sorted, Complete, SlotsOk, GrowerOk, CoverOk, CountOk, OwnersOk, ThreadOk;
  }

  lemma NewReports(s: State, init: set<Ref>, t: nat, e: Ref, key: Key, keys: set<Key>)
    requires Inv(s, init, keys) && ReportsTrue(s, t, key)
    requires Member(s.m, e) && At(s.m.heap, e).key == key
    ensures e !in init
  {
    ReportsOwn(s, init, t, key, keys);
    hide Sorted, Complete, SlotsOk, GrowerOk, CoverOk, CountOk, OwnersOk, ThreadOk;
    assert Hash(s.m.heap, e) == s.m.hasher(key);
  }

  lemma SomeInsertTrue(s: State, s': State, key: Key, keys: set<Key>) returns (t: nat)
    requires Inv(s', s.m.linked, keys) && Quiet(s') && InList(s'.m, key) && !InList(s.m, key) && NoSet(s', key)
    requires forall e :: e in s.m.linked ==> At(s'.m.heap, e).key == At(s.m.heap, e).key
    ensures ReportsTrue(s', t, key)
  {
    hide Sorted, Complete, SlotsOk, GrowerOk, CoverOk, CountOk;
    var e :| Member(s'.m, e) && At(s'.m.heap, e).key == key;
    assert e in s.m.linked ==> Member(s.m, e);
    assert Linker(s'.threads, e);
    t :| t in s'.threads && HasLinked(s'.threads[t]) && s'.threads[t].elem == e;
    assert ThreadOk(s'.m, s'.threads[t], keys);
  }

  /** No Set is called for the key. */
  predicate NoSet(s: State, key: Key) {
    forall t :: t in s.threads && s.threads[t].key == key ==> !s.threads[t].isSet
  }

  /**
    Of the Inserts of a key that was not there and that no Set is called for, exactly one returns true once all have
    returned.
  */
  lemma ExactlyOneInsertTrue(s: State, run: seq<Action>, key: Key, keys: set<Key>)
    requires AtRest(s, keys) && CanRun(s, run) && Quiet(After(s, run))
    requires Inserted(After(s, run), key) && !InList(s.m, key) && NoSet(After(s, run), key)
    ensures exists t :: ReportsTrue(After(s, run), t, key) && forall u :: ReportsTrue(After(s, run), u, key) ==> u == t
  {
    hide Loose, AtRest, After, CanRun;
    var s' := After(s, run);
    AtRestInv(s, keys);
    RunKeeps(s, run, s.m.linked, keys);
    RunGrows(s, run, s.m.linked, keys);
    ListIsInserts(s, s', key, keys);
    var t := SomeInsertTrue(s, s', key, keys);
    NoTwoInsertsTrue(s, run, key, keys);
    assert ReportsTrue(s', t, key);
  }

  /** A key that is visible while no resize runs stays visible at every later moment, resizes included. */
  lemma {:induction false} VisibleForever(s: State, run: seq<Action>, e: Ref, init: set<Ref>, keys: set<Key>)
    requires Inv(s, init, keys) && CanRun(s, run) && Member(s.m, e)
    requires s.grower.Idle? || e in s.grower.base
    requires Indexed(s.m, s.cur, e)
    ensures Member(After(s, run).m, e) && Indexed(After(s, run).m, After(s, run).cur, e)
    decreases |run|
  {
    hide Inv, Apply, Indexed;
    if run != [] {
      StepKeeps(s, run[0], init, keys);
      StepVisible(s, run[0], e, init, keys);
      VisibleForever(Apply(s, run[0]), run[1..], e, init, keys);
    }
  }

  lemma StepVisible(s: State, a: Action, e: Ref, init: set<Ref>, keys: set<Key>)
    requires Inv(s, init, keys) && Enabled(s, a) && Member(s.m, e) && Indexed(s.m, s.cur, e)
    requires s.grower.Idle? || e in s.grower.base
    ensures var s' := Apply(s, a);
      && Member(s'.m, e) && Indexed(s'.m, s'.cur, e)
      && (s'.grower.Idle? || e in s'.grower.base)
  {
    hide ThreadOk, CoverOk, CountOk, OwnersOk, CallStep, NodesOk, SlotsOk, Sorted, Complete, Indexed, Extends, Frontier;
    match a
    case Call(t) =>
      CallMemory(s.m, s.cur, s.threads[t], keys);
      CallFootprint(s.m, s.cur, s.threads[t], keys);
      MemberStable(s.m, Apply(s, a).m, s.cur, e, keys);
    case StartGrow(st, width) => NewStoreMemory(s.m, st, width, keys); MemberStable(s.m, Apply(s, a).m, s.cur, e, keys);
    case Grow =>
      FillMemory(s.m, s.cur, s.grower, keys);
      MemberStable(s.m, Apply(s, a).m, s.cur, e, keys);
    case GrowAgain(st, width) => NewStoreMemory(s.m, st, width, keys); MemberStable(s.m, Apply(s, a).m, s.cur, e, keys);
  }

  /** A Get that loaded an index in which its key was visible finds it, and a Get finds only keys in the list. */
  lemma ConcurrentGet(s: State, run: seq<Action>, t: nat, keys: set<Key>)
    requires AtRest(s, keys) && CanRun(s, run)
    requires t in After(s, run).threads && After(s, run).threads[t].pc.GetDone?
    ensures var s' := After(s, run); var th := s'.threads[t];
      && (th.pc.visible ==> th.pc.found)
      && (th.pc.found ==> InList(s'.m, th.key))
  {
    hide ListOk, SlotsOk, GrowerOk, CoverOk, CountOk, After, CanRun;
    AtRestInv(s, keys);
    RunKeeps(s, run, s.m.linked, keys);
    assert ThreadOk(After(s, run).m, After(s, run).threads[t], keys);
  }

  /** A linking swap fails only because another call has linked an element into the same gap. */
  lemma FailedSwapMeansProgress(s: State, t: nat, init: set<Ref>, keys: set<Key>)
    requires Inv(s, init, keys) && t in s.threads && s.threads[t].pc.Link?
    requires Apply(s, Call(t)).threads[t].pc.Start?
    ensures var pc := s.threads[t].pc; var q := Next(s.m.heap, pc.left);
      && Member(s.m, q) && Hash(s.m.heap, pc.left) < Hash(s.m.heap, q)
      && (pc.right != Nil ==> Hash(s.m.heap, q) < Hash(s.m.heap, pc.right))
  {
    hide Complete, SlotsOk, GrowerOk, CoverOk, CountOk, OwnersOk, Extends;
    assert ThreadOk(s.m, s.threads[t], keys);
  }

  /** Following links from Head visits every linked element: the list is strictly sorted and loses nothing. */
  ghost predicate Reaches(m: Memory, at: Ref, e: Ref, n: nat)
    decreases n
  {
    at == e || (n > 0 && at != Nil && Hash(m.heap, at) < Hash(m.heap, Next(m.heap, at)) &&
        Reaches(m, Next(m.heap, at), e, n - 1))
  }

  lemma {:induction false} ListReaches(m: Memory, at: Ref, e: Ref, n: nat, keys: set<Key>)
    requires ListOk(m, keys) && NoCollisions(m.hasher, keys) && at in m.linked && e in m.linked
    requires Hash(m.heap, at) <= Hash(m.heap, e) && |From(m, at)| <= n
    ensures Reaches(m, at, e, n)
    decreases n
  {
    assert at in From(m, at);
    if at != e {
      var next := Next(m.heap, at);
      assert Hash(m.heap, at) < Hash(m.heap, e);
      assert From(m, next) <= From(m, at) - {at};
      SubsetSize(From(m, next), From(m, at) - {at});
      ListReaches(m, next, e, n - 1, keys);
    }
  }

  /** In every reachable state each element ever linked is still on the list, at its sorted place. */
  lemma NoElementLost(s: State, run: seq<Action>, more: seq<Action>, e: Ref, keys: set<Key>)
    requires AtRest(s, keys) && CanRun(s, run) && CanRun(After(s, run), more)
    requires e in After(s, run).m.linked
    ensures var m := After(After(s, run), more).m; Reaches(m, Head, e, |m.linked|)
  {
    hide Complete, Sorted, SlotsOk, GrowerOk, CoverOk, CountOk, OwnersOk, After, CanRun, ThreadsOk;
    AtRestInv(s, keys);
    RunKeeps(s, run, s.m.linked, keys);
    RunKeeps(After(s, run), more, s.m.linked, keys);
    RunGrows(After(s, run), more, s.m.linked, keys);
    var m := After(After(s, run), more).m;
    SubsetSize(From(m, Head), m.linked);
    ListReaches(m, Head, e, |m.linked|, keys);
  }
}
