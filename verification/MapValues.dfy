/**
  The values of the lock-free map: whose value a key holds after any concurrent Inserts, Sets, lookups and resizes, and
  what a lookup may return while they run.
*/
module MapValues {
  import opened MapSteps
  import opened MapInvariant
  import opened MapProof
  import opened MapTheorems

  /** A Set that has stored its value, in an element of its own or in one that it found. */
  predicate HasStored(th: Thread) {
    th.isSet &&
      (th.pc.Tally? || th.pc.Index? || th.pc.IndexSwap? || th.pc.Recheck? || th.pc.Reload? || th.pc.Done?)
  }

  /** A Set of the key carries the value. */
  ghost predicate FromSet(threads: map<nat, Thread>, key: Key, value: Value) {
    exists t :: t in threads && threads[t].isSet && threads[t].key == key && threads[t].value == value
  }

  /** The Insert that has linked e carries the value. */
  ghost predicate FromInsert(threads: map<nat, Thread>, e: Ref, value: Value) {
    exists t :: t in threads && !threads[t].isSet && HasLinked(threads[t]) && threads[t].elem == e &&
      threads[t].value == value
  }

  ghost predicate NoneStored(threads: map<nat, Thread>, key: Key) {
    forall t :: t in threads && threads[t].key == key ==> !HasStored(threads[t])
  }

  /** e holds the value of a Set; or no Set has stored, and it holds what it held at the outset or was linked with. */
  ghost predicate ValueOk(s: State, before: Memory, e: Ref) {
    var key, value := At(s.m.heap, e).key, At(s.m.heap, e).value;
    || FromSet(s.threads, key, value)
    || (NoneStored(s.threads, key) &&
        if e in before.linked then value == At(before.heap, e).value else FromInsert(s.threads, e, value))
  }

  ghost predicate ValuesOk(s: State, before: Memory) {
    forall e :: Member(s.m, e) ==> ValueOk(s, before, e)
  }

  // ---------- a step of a call ----------

  /** What a step does to elements in the list: only a Set that has found one stores, and the value is its own. */
  lemma CallStores(m: Memory, cur: nat, th: Thread, e: Ref, keys: set<Key>)
    requires MemoryOk(m, keys) && ThreadOk(m, th, keys) && Member(m, e)
    ensures var (m', th') := CallStep(m, cur, th);
      At(m'.heap, e).value == if th.pc.Update? && th.pc.at == e then th.value else At(m.heap, e).value
  {
    hide Sorted, Complete, OneLast, SlotsOk, Indexed, KeyVisible, Bucket;
  }

  /** A Set that has stored leaves an element of its key in the list. */
  lemma StoredIsThere(m: Memory, th: Thread, keys: set<Key>) returns (e: Ref)
    requires ThreadOk(m, th, keys) && HasStored(th)
    ensures Member(m, e) && At(m.heap, e).key == th.key
  {
    e := if th.pc.Tally? || th.pc.Reload? then th.elem else th.pc.at;
  }

  lemma OneOfKey(m: Memory, e: Ref, f: Ref, keys: set<Key>)
    requires ListOk(m, keys) && NoCollisions(m.hasher, keys)
    requires Member(m, e) && Member(m, f) && At(m.heap, e).key == At(m.heap, f).key
    ensures e == f
  {
  }

  /** A call starts to have stored by linking its own element or by storing into the one it found. */
  lemma StoresBy(m: Memory, cur: nat, th: Thread, keys: set<Key>)
    requires ThreadOk(m, th, keys)
    ensures var (m', th') := CallStep(m, cur, th);
      HasStored(th') && !HasStored(th) ==> th.pc.Update? || (th.pc.Link? && th'.pc.Tally?)
  {
    hide KeyVisible, Indexed, Slot, Home;
  }

  lemma {:induction false} SetsStay(threads: map<nat, Thread>, t: nat, th': Thread, key: Key, value: Value)
    requires t in threads && SameCall(threads[t], th') && FromSet(threads, key, value)
    ensures FromSet(threads[t := th'], key, value)
  {
    var u :| u in threads && threads[u].isSet && threads[u].key == key && threads[u].value == value;
    assert threads[t := th'][u].isSet;
  }

  lemma InsertsStay(threads: map<nat, Thread>, t: nat, th': Thread, e: Ref, value: Value)
    requires t in threads && SameCall(threads[t], th') && FromInsert(threads, e, value)
    requires HasLinked(threads[t]) ==> HasLinked(th') && th'.elem == threads[t].elem
    ensures FromInsert(threads[t := th'], e, value)
  {
    var u :| u in threads && !threads[u].isSet && HasLinked(threads[u]) && threads[u].elem == e &&
      threads[u].value == value;
    assert HasLinked(threads[t := th'][u]);
  }

  lemma OldValue(s: State, t: nat, before: Memory, e: Ref, keys: set<Key>)
    requires Inv(s, before.linked, keys) && t in s.threads && Member(s.m, e) && ValueOk(s, before, e)
    ensures ValueOk(Apply(s, Call(t)), before, e)
  {
    hide Loose, CallStep, HasStored, FromSet, FromInsert, HasLinked;
    var s' := Apply(s, Call(t));
    var th, th' := s.threads[t], s'.threads[t];
    KeptByCall(s, t, before.linked, e, keys);
    var key, value := At(s.m.heap, e).key, At(s.m.heap, e).value;
    if th.pc.Update? && th.pc.at == e {
      assert FromSet(s'.threads, key, th.value) by { StoredNow(s, t, before.linked, keys); }
    } else if FromSet(s.threads, key, value) {
      SetsStay(s.threads, t, th', key, value);
    } else {
      if HasStored(th') && !HasStored(th) { NotStored(s, t, before.linked, e, keys); }
      if e !in before.linked { InsertsStay(s.threads, t, th', e, value); }
    }
  }

  /** What a step of call t keeps of itself and of an element in the list. */
  lemma KeptByCall(s: State, t: nat, init: set<Ref>, e: Ref, keys: set<Key>)
    requires Inv(s, init, keys) && t in s.threads && Member(s.m, e)
    ensures var s' := Apply(s, Call(t));
      && SameCall(s.threads[t], s'.threads[t]) && At(s'.m.heap, e).key == At(s.m.heap, e).key
      && (HasLinked(s.threads[t]) ==> HasLinked(s'.threads[t]) && s'.threads[t].elem == s.threads[t].elem)
      && At(s'.m.heap, e).value ==
         if s.threads[t].pc.Update? && s.threads[t].pc.at == e then s.threads[t].value else At(s.m.heap, e).value
  {
    hide Sorted, Complete, OneLast, SlotsOk, ThreadOk, GrowerOk, CoverOk, CountOk, OwnersOk, CallStep;
    CallSame(s.m, s.cur, s.threads[t]);
    CallStores(s.m, s.cur, s.threads[t], e, keys);
    CallMemory(s.m, s.cur, s.threads[t], keys);
    CallFootprint(s.m, s.cur, s.threads[t], keys);
  }

  lemma StoredNow(s: State, t: nat, init: set<Ref>, keys: set<Key>)
    requires Inv(s, init, keys) && t in s.threads && s.threads[t].pc.Update?
    ensures var th := s.threads[t];
      FromSet(Apply(s, Call(t)).threads, At(s.m.heap, th.pc.at).key, th.value)
  {
    hide MemoryOk, GrowerOk, CoverOk, CountOk, OwnersOk, CallStep;
    assert ThreadOk(s.m, s.threads[t], keys);
    CallSame(s.m, s.cur, s.threads[t]);
    assert Apply(s, Call(t)).threads[t].isSet;
  }

  /** A call that has just stored, but not into e, is one of another key. */
  lemma NotStored(s: State, t: nat, init: set<Ref>, e: Ref, keys: set<Key>)
    requires Inv(s, init, keys) && t in s.threads && Member(s.m, e)
    requires HasStored(Apply(s, Call(t)).threads[t]) && !HasStored(s.threads[t])
    requires s.threads[t].pc.Update? ==> s.threads[t].pc.at != e
    ensures At(s.m.heap, e).key != s.threads[t].key
  {
    hide GrowerOk, CoverOk, CountOk, OwnersOk, CallStep, NoCollisions, Indexed, KeyVisible;
    var s' := Apply(s, Call(t));
    var th := s.threads[t];
    StoresBy(s.m, s.cur, th, keys);
    hide HasStored, ListOk, SlotsOk;
    if At(s.m.heap, e).key == th.key {
      assert ThreadOk(s.m, th, keys);
      if th.pc.Update? {
        OneOfKey(s.m, th.pc.at, e, keys);
      } else {
        LinkedTwice(s, t, init, e, keys);
      }
    }
  }

  /** No call links a second element of a key. */
  lemma LinkedTwice(s: State, t: nat, init: set<Ref>, e: Ref, keys: set<Key>)
    requires Inv(s, init, keys) && t in s.threads && Member(s.m, e) && s.threads[t].pc.Link?
    requires Apply(s, Call(t)).threads[t].pc.Tally?
    ensures At(s.m.heap, e).key != s.threads[t].key
  {
    hide Loose, CallStep, Apply;
    StepKeeps(s, Call(t), init, keys);
    KeptByLink(s, t, init, e, keys);
    var s' := Apply(s, Call(t));
    if At(s.m.heap, e).key == s.threads[t].key {
      assert ListOk(s'.m, keys) by { InvList(s', init, keys); }
      OneOfKey(s'.m, e, s.threads[t].elem, keys);
    }
  }

  lemma InvList(s: State, init: set<Ref>, keys: set<Key>)
    requires Inv(s, init, keys)
    ensures ListOk(s.m, keys)
  {
  }

  lemma KeptByLink(s: State, t: nat, init: set<Ref>, e: Ref, keys: set<Key>)
    requires Inv(s, init, keys) && t in s.threads && Member(s.m, e) && s.threads[t].pc.Link?
    requires Apply(s, Call(t)).threads[t].pc.Tally?
    ensures var m', own := Apply(s, Call(t)).m, s.threads[t].elem;
      && Member(m', e) && At(m'.heap, e).key == At(s.m.heap, e).key
      && Member(m', own) && At(m'.heap, own).key == s.threads[t].key && At(m'.heap, own).value == s.threads[t].value
      && own != e
  {
    hide Sorted, Complete, OneLast, SlotsOk, GrowerOk, CoverOk, CountOk, OwnersOk, Indexed;
    assert ThreadOk(s.m, s.threads[t], keys);
  }

  /** An element that has just been linked. */
  lemma NewValue(s: State, t: nat, before: Memory, e: Ref, keys: set<Key>)
    requires Inv(s, before.linked, keys) && t in s.threads
    requires Member(Apply(s, Call(t)).m, e) && e !in s.m.linked
    ensures ValueOk(Apply(s, Call(t)), before, e)
  {
    hide Loose, CallStep;
    var s' := Apply(s, Call(t));
    var th, th' := s.threads[t], s'.threads[t];
    NewlyLinked(s, t, before.linked, e, keys);
    var key := At(s'.m.heap, e).key;
    if th.isSet {
      assert FromSet(s'.threads, key, th.value);
    } else {
      assert FromInsert(s'.threads, e, th.value);
      forall u | u in s'.threads && s'.threads[u].key == key ensures !HasStored(s'.threads[u]) {
        if HasStored(s'.threads[u]) {
          hide Apply;
          var f := StoredBefore(s, u, before.linked, keys);
          LinkedTwice(s, t, before.linked, f, keys);
        }
      }
    }
  }

  lemma NewlyLinked(s: State, t: nat, init: set<Ref>, e: Ref, keys: set<Key>)
    requires Inv(s, init, keys) && t in s.threads && Member(Apply(s, Call(t)).m, e) && e !in s.m.linked
    ensures var s' := Apply(s, Call(t)); var th, th' := s.threads[t], s'.threads[t];
      && th.pc.Link? && th'.pc.Tally? && SameCall(th, th') && th'.elem == e && HasLinked(th')
      && At(s'.m.heap, e).key == th.key && At(s'.m.heap, e).value == th.value && e !in init
  {
    hide Sorted, Complete, OneLast, SlotsOk, GrowerOk, CoverOk, CountOk, CallStep, Indexed, KeyVisible;
    CallFootprint(s.m, s.cur, s.threads[t], keys);
    CallSame(s.m, s.cur, s.threads[t]);
    assert ThreadOk(s.m, s.threads[t], keys);
    assert s.threads[t].pc.Link?;
    LinkedValue(s.m, s.cur, s.threads[t], keys);
  }

  lemma LinkedValue(m: Memory, cur: nat, th: Thread, keys: set<Key>)
    requires ThreadOk(m, th, keys) && th.pc.Link? && CallStep(m, cur, th).1.pc.Tally?
    ensures var e := At(CallStep(m, cur, th).0.heap, th.elem); e.key == th.key && e.value == th.value
  {
  }

  lemma StoredBefore(s: State, u: nat, init: set<Ref>, keys: set<Key>) returns (f: Ref)
    requires Inv(s, init, keys) && u in s.threads && HasStored(s.threads[u])
    ensures Member(s.m, f) && At(s.m.heap, f).key == s.threads[u].key
  {
    hide MemoryOk, GrowerOk, CoverOk, CountOk, OwnersOk, ThreadOk;
    f := StoredIsThere(s.m, s.threads[u], keys);
  }

  // ---------- every run ----------

  lemma StepValues(s: State, a: Action, before: Memory, keys: set<Key>)
    requires Inv(s, before.linked, keys) && ValuesOk(s, before) && Enabled(s, a)
    ensures ValuesOk(Apply(s, a), before)
  {
    hide Loose, ValueOk, CallStep, FillStep;
    match a
    case Call(t) =>
      forall e | Member(Apply(s, a).m, e) ensures ValueOk(Apply(s, a), before, e) {
        if e in s.m.linked { OldValue(s, t, before, e, keys); } else { NewValue(s, t, before, e, keys); }
      }
    case _ => GrowValues(s, a, before, keys);
  }

  lemma GrowValues(s: State, a: Action, before: Memory, keys: set<Key>)
    requires Inv(s, before.linked, keys) && ValuesOk(s, before) && Enabled(s, a) && !a.Call?
    ensures ValuesOk(Apply(s, a), before)
  {
    hide MemoryOk, GrowerOk, ThreadsOk, CoverOk, CountOk, OwnersOk, FillStep;
    if a.Grow? { FillMemory(s.m, s.cur, s.grower, keys); }
    var s' := Apply(s, a);
    assert s'.m.heap == s.m.heap && s'.m.linked == s.m.linked && s'.threads == s.threads;
    forall e | Member(s'.m, e) ensures ValueOk(s', before, e) {
      assert ValueOk(s, before, e);
    }
  }

  lemma {:induction false} RunValues(s: State, run: seq<Action>, before: Memory, keys: set<Key>)
    requires Inv(s, before.linked, keys) && ValuesOk(s, before) && CanRun(s, run)
    ensures ValuesOk(After(s, run), before)
    decreases |run|
  {
    hide Loose, Apply, ValuesOk, NoCollisions;
    if run != [] {
      StepValues(s, run[0], before, keys);
      StepKeeps(s, run[0], before.linked, keys);
      RunValues(Apply(s, run[0]), run[1..], before, keys);
    }
  }

  // ---------- what the map holds in the end ----------

  /**
    Whose value a key holds: that of some Set if any was called for it; or else what it held before; or else that of
    the Insert that has returned true.
  */
  ghost predicate Rightful(s: State, s': State, key: Key, value: Value) {
    if !NoSet(s', key) then FromSet(s'.threads, key, value)
    else if InList(s.m, key) then value == At(s.m.heap, Lookup(s.m, s.cur, key)).value
    else exists t :: ReportsTrue(s', t, key) && s'.threads[t].value == value
  }

  lemma AtRestValues(s: State, keys: set<Key>)
    requires AtRest(s, keys)
    ensures ValuesOk(s, s.m)
  {
    hide MemoryOk, FromSet, FromInsert;
  }

  /** Once everything has finished, each key holds its rightful value, and Get returns it. */
  lemma QuietValues(s: State, run: seq<Action>, keys: set<Key>)
    requires AtRest(s, keys) && CanRun(s, run) && Quiet(After(s, run))
    ensures var s' := After(s, run);
      forall key :: InList(s.m, key) || Inserted(s', key) ==>
        Get(s'.m, s'.cur, key) && Rightful(s, s', key, At(s'.m.heap, Lookup(s'.m, s'.cur, key)).value)
  {
    hide After, CanRun, AtRest, Get, Rightful, InList, Inserted, Loose, NoCollisions, ValuesOk, IndexExact;
    var s' := After(s, run);
    AtRestInv(s, keys);
    AtRestValues(s, keys);
    RunKeeps(s, run, s.m.linked, keys);
    RunGrows(s, run, s.m.linked, keys);
    RunValues(s, run, s.m, keys);
    QuietMapIsExact(s, run, keys);
    forall key | InList(s.m, key) || Inserted(s', key)
      ensures Get(s'.m, s'.cur, key) && Rightful(s, s', key, At(s'.m.heap, Lookup(s'.m, s'.cur, key)).value)
    {
      assert Get(s'.m, s'.cur, key);
      HeldIsRightful(s, s', key, keys);
    }
  }

  lemma HeldIsRightful(s: State, s': State, key: Key, keys: set<Key>)
    requires AtRest(s, keys) && Inv(s', s.m.linked, keys) && ValuesOk(s', s.m) && Quiet(s')
    requires Get(s'.m, s'.cur, key)
    requires forall e :: e in s.m.linked ==> At(s'.m.heap, e).key == At(s.m.heap, e).key
    ensures Rightful(s, s', key, At(s'.m.heap, Lookup(s'.m, s'.cur, key)).value)
  {
    hide Sorted, Complete, OneLast, GrowerOk, CoverOk, CountOk, OwnersOk, ThreadOk, Lookup, FromSet, FromInsert,
        NoCollisions, AtRest, InList;
    var r := Lookup(s'.m, s'.cur, key);
    GetIsList(s'.m, s'.cur, key, keys);
    assert ValueOk(s', s.m, r);
    if !NoSet(s', key) {
      var t :| t in s'.threads && s'.threads[t].key == key && s'.threads[t].isSet;
      assert HasStored(s'.threads[t]) by { SetIsDone(s', t, keys); }
    } else {
      assert !FromSet(s'.threads, key, At(s'.m.heap, r).value) by { NoSetNoValue(s', key, At(s'.m.heap, r).value); }
      if InList(s.m, key) {
        StillHeld(s, s', key, r, keys);
      } else {
        assert r !in s.m.linked by { NotThere(s, s', key, r); }
        var t := LinkerReports(s', r, key, At(s'.m.heap, r).value, keys);
      }
    }
  }

  lemma NoSetNoValue(s: State, key: Key, value: Value)
    requires NoSet(s, key)
    ensures !FromSet(s.threads, key, value)
  {
  }

  lemma SetIsDone(s: State, t: nat, keys: set<Key>)
    requires ThreadsOk(s.m, s.threads, keys) && Quiet(s) && t in s.threads && s.threads[t].isSet
    ensures HasStored(s.threads[t])
  {
    hide Indexed, KeyVisible;
    assert ThreadOk(s.m, s.threads[t], keys);
  }

  lemma NotThere(s: State, s': State, key: Key, r: Ref)
    requires !InList(s.m, key) && Member(s'.m, r) && At(s'.m.heap, r).key == key
    requires forall e :: e in s.m.linked ==> At(s'.m.heap, e).key == At(s.m.heap, e).key
    ensures r !in s.m.linked
  {
    if r in s.m.linked { assert Member(s.m, r); }
  }

  /** A key that was there before is found where it was. */
  lemma StillHeld(s: State, s': State, key: Key, r: Ref, keys: set<Key>)
    requires AtRest(s, keys) && InList(s.m, key) && Inv(s', s.m.linked, keys)
    requires Member(s'.m, r) && At(s'.m.heap, r).key == key
    requires forall e :: e in s.m.linked ==> At(s'.m.heap, e).key == At(s.m.heap, e).key
    ensures r in s.m.linked && r == Lookup(s.m, s.cur, key)
  {
    hide Sorted, Complete, OneLast, GrowerOk, CoverOk, CountOk, ThreadOk, Lookup, NoCollisions, Indexed;
    var e :| Member(s.m, e) && At(s.m.heap, e).key == key;
    OneOfKey(s'.m, e, r, keys);
    assert KeyVisible(s.m, s.cur, key);
    GetIsList(s.m, s.cur, key, keys);
    OneOfKey(s.m, e, Lookup(s.m, s.cur, key), keys);
  }

  lemma LinkerReports(s: State, r: Ref, key: Key, value: Value, keys: set<Key>) returns (t: nat)
    requires ThreadsOk(s.m, s.threads, keys) && Quiet(s) && FromInsert(s.threads, r, value) && r != Nil
    requires At(s.m.heap, r).key == key
    ensures ReportsTrue(s, t, key) && s.threads[t].value == value
  {
    hide Indexed, KeyVisible;
    t :| t in s.threads && !s.threads[t].isSet && HasLinked(s.threads[t]) && s.threads[t].elem == r &&
      s.threads[t].value == value;
    assert ThreadOk(s.m, s.threads[t], keys);
  }

  // ---------- what a lookup returns while others run ----------

  /** The key held the value before, or an Insert or a Set of the key carries it. */
  ghost predicate Given(before: Memory, threads: map<nat, Thread>, key: Key, value: Value) {
    || (exists e :: Member(before, e) && At(before.heap, e).key == key && At(before.heap, e).value == value)
    || (exists t :: t in threads && !IsGet(threads[t]) && threads[t].key == key && threads[t].value == value)
  }

  ghost predicate GetOk(s: State, before: Memory, t: nat)
    requires t in s.threads
  {
    s.threads[t].pc.GetDone? && s.threads[t].pc.found ==>
      Given(before, s.threads, s.threads[t].key, s.threads[t].pc.value)
  }

  lemma GivenStays(before: Memory, threads: map<nat, Thread>, t: nat, th': Thread, key: Key, value: Value)
    requires t in threads && SameCall(threads[t], th') && Given(before, threads, key, value)
    ensures Given(before, threads[t := th'], key, value)
  {
    if u :| u in threads && !IsGet(threads[u]) && threads[u].key == key && threads[u].value == value {
      assert !IsGet(threads[t := th'][u]);
    }
  }

  /** What is in the list was given. */
  lemma HeldIsGiven(s: State, before: Memory, e: Ref, keys: set<Key>)
    requires ThreadsOk(s.m, s.threads, keys) && ValueOk(s, before, e) && e != Head
    requires forall r :: r in before.linked ==> At(s.m.heap, r).key == At(before.heap, r).key
    ensures Given(before, s.threads, At(s.m.heap, e).key, At(s.m.heap, e).value)
  {
    hide ThreadOk, NoneStored;
    var key, value := At(s.m.heap, e).key, At(s.m.heap, e).value;
    if FromSet(s.threads, key, value) {
      var t :| t in s.threads && s.threads[t].isSet && s.threads[t].key == key && s.threads[t].value == value;
      NoGet(s.m, s.threads[t], keys);
    } else if e in before.linked {
      assert Member(before, e);
    } else {
      var t :| t in s.threads && !s.threads[t].isSet && HasLinked(s.threads[t]) && s.threads[t].elem == e &&
        s.threads[t].value == value;
      NoGet(s.m, s.threads[t], keys);
    }
  }

  lemma NoGet(m: Memory, th: Thread, keys: set<Key>)
    requires ThreadOk(m, th, keys)
    ensures th.isSet || HasLinked(th) ==> !IsGet(th)
    ensures HasLinked(th) ==> At(m.heap, th.elem).key == th.key
  {
  }

  lemma StepGets(s: State, a: Action, before: Memory, t: nat, keys: set<Key>)
    requires Inv(s, before.linked, keys) && ValuesOk(s, before) && Enabled(s, a)
    requires t in s.threads && GetOk(s, before, t)
    requires forall r :: r in before.linked ==> At(s.m.heap, r).key == At(before.heap, r).key
    ensures t in Apply(s, a).threads && GetOk(Apply(s, a), before, t)
  {
    hide Loose, ValuesOk, Given, CallStep, FillStep;
    if a.Call? {
      var th, th' := s.threads[a.t], Apply(s, a).threads[a.t];
      CallSame(s.m, s.cur, th);
      forall key, value | Given(before, s.threads, key, value)
        ensures Given(before, Apply(s, a).threads, key, value)
      {
        GivenStays(before, s.threads, a.t, th', key, value);
      }
      if a.t == t { OwnGet(s, t, before, keys); }
    }
  }

  /** A lookup that ends returns what it has found. */
  lemma OwnGet(s: State, t: nat, before: Memory, keys: set<Key>)
    requires Inv(s, before.linked, keys) && ValuesOk(s, before) && t in s.threads && GetOk(s, before, t)
    requires forall r :: r in before.linked ==> At(s.m.heap, r).key == At(before.heap, r).key
    ensures var th' := CallStep(s.m, s.cur, s.threads[t]).1;
      th'.pc.GetDone? && th'.pc.found ==> Given(before, s.threads, s.threads[t].key, th'.pc.value)
  {
    hide MemoryOk, GrowerOk, CoverOk, CountOk, OwnersOk, Given, ValueOk, KeyVisible, Indexed, NewElem;
    var th := s.threads[t];
    assert ThreadOk(s.m, th, keys);
    if th.pc.GetValue? { HeldIsGiven(s, before, th.pc.at, keys); }
  }

  lemma {:induction false} RunGets(s: State, run: seq<Action>, before: Memory, t: nat, keys: set<Key>)
    requires Inv(s, before.linked, keys) && ValuesOk(s, before) && CanRun(s, run)
    requires t in s.threads && GetOk(s, before, t)
    requires forall r :: r in before.linked ==> At(s.m.heap, r).key == At(before.heap, r).key
    ensures t in After(s, run).threads && GetOk(After(s, run), before, t)
    decreases |run|
  {
    hide Loose, Apply, ValuesOk, NoCollisions, GetOk;
    if run != [] {
      StepGets(s, run[0], before, t, keys);
      StepValues(s, run[0], before, keys);
      StepGrows(s, run[0], before.linked, keys);
      StepKeeps(s, run[0], before.linked, keys);
      KeysStay(s, Apply(s, run[0]), before, keys);
      RunGets(Apply(s, run[0]), run[1..], before, t, keys);
    }
  }

  lemma KeysStay(s: State, s': State, before: Memory, keys: set<Key>)
    requires Inv(s, before.linked, keys)
    requires forall r :: r in before.linked ==> At(s.m.heap, r).key == At(before.heap, r).key
    requires forall e :: e in s.m.linked ==> At(s'.m.heap, e).key == At(s.m.heap, e).key
    ensures forall r :: r in before.linked ==> At(s'.m.heap, r).key == At(before.heap, r).key
  {
  }

  /** A Get returns a value that its key held before or that an Insert or a Set was called with for the key. */
  lemma GetReturnsGiven(s: State, run: seq<Action>, t: nat, keys: set<Key>)
    requires AtRest(s, keys) && CanRun(s, run)
    requires t in After(s, run).threads && After(s, run).threads[t].pc.GetDone? && After(s, run).threads[t].pc.found
    ensures var s' := After(s, run); Given(s.m, s'.threads, s'.threads[t].key, s'.threads[t].pc.value)
  {
    hide After, CanRun, Given, Loose, ValuesOk, MemoryOk;
    AtRestInv(s, keys);
    AtRestValues(s, keys);
    RunGrows(s, run, s.m.linked, keys);
    RunGets(s, run, s.m, t, keys);
  }
}
