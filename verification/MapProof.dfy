/**
  Every step of the lock-free map's machine keeps the invariant.
*/
module MapProof {
  import opened MapSteps
  import opened MapInvariant

  // ---------- a step of a call, seen by itself ----------

  lemma CallMemory(m: Memory, cur: nat, th: Thread, keys: set<Key>)
    requires MemoryOk(m, keys) && ThreadOk(m, th, keys)
    ensures var (m', th') := CallStep(m, cur, th); Extends(m, m') && MemoryOk(m', keys)
  {
    hide ListOk, SlotsOk, Fresh, NoCollisions, Extends, Bucket, Slot;
    ExtendsSelf(m);
    match th.pc
    case LoadSlot(st) => NewElemMemory(m, th.key, th.value, KeySlot(m, st, th.key), keys);
    case LoadFirst(st) => NewElemMemory(m, th.key, th.value, Next(m.heap, Head), keys);
    case Advance(st, left) => NewElemMemory(m, th.key, th.value, Next(m.heap, left), keys);
    case Link(st, left, right) => if Next(m.heap, left) == right { LinkMemory(m, left, th.elem, keys); }
    case Update(st, at) => StoreValueMemory(m, at, th.value, keys);
    case IndexSwap(st, at, seen) => if Slot(m, st, Home(m, st, at)) == seen { SetSlotMemory(m, st, at, keys); }
    case _ =>
  }

  lemma CallThread(m: Memory, cur: nat, th: Thread, keys: set<Key>)
    requires MemoryOk(m, keys) && ThreadOk(m, th, keys) && cur in m.stores
    ensures var (m', th') := CallStep(m, cur, th); ThreadOk(m', th', keys)
  {
    hide *;
    if th.pc.LoadSlot? || th.pc.LoadFirst? || th.pc.Advance? {
      SearchThread(m, cur, th, keys);
    } else if IsGet(th) {
      GetThread(m, cur, th, keys);
    } else {
      LinkAndIndexThread(m, cur, th, keys);
    }
  }

  lemma SearchThread(m: Memory, cur: nat, th: Thread, keys: set<Key>)
    requires MemoryOk(m, keys) && ThreadOk(m, th, keys)
    requires th.pc.LoadSlot? || th.pc.LoadFirst? || th.pc.Advance?
    ensures var (m', th') := CallStep(m, cur, th); ThreadOk(m', th', keys)
  {
    hide Examine, Complete, Extends, Bucket;
    match th.pc
    case LoadSlot(st) =>
      var seen := KeySlot(m, st, th.key);
      if seen != Nil && m.hasher(th.key) >= Hash(m.heap, seen) { ExamineOk(m, th, st, Head, seen, keys); }
    case LoadFirst(st) => ExamineOk(m, th, st, Head, Next(m.heap, Head), keys);
    case Advance(st, left) => ExamineOk(m, th, st, left, Next(m.heap, left), keys);
  }

  lemma LinkAndIndexThread(m: Memory, cur: nat, th: Thread, keys: set<Key>)
    requires MemoryOk(m, keys) && ThreadOk(m, th, keys) && cur in m.stores
    requires !th.pc.LoadSlot? && !th.pc.LoadFirst? && !th.pc.Advance?
    requires !IsGet(th)
    ensures var (m', th') := CallStep(m, cur, th); ThreadOk(m', th', keys)
  {
    hide *;
    if th.pc.Link? {
      LinkThread(m, cur, th, keys);
    } else if th.pc.IndexSwap? {
      SwapThread(m, cur, th, keys);
    } else if th.pc.Update? {
      UpdateThread(m, cur, th, keys);
    } else {
      QuietThread(m, cur, th, keys);
    }
  }

  lemma LinkThread(m: Memory, cur: nat, th: Thread, keys: set<Key>)
    requires MemoryOk(m, keys) && ThreadOk(m, th, keys) && cur in m.stores && th.pc.Link?
    ensures var (m', th') := CallStep(m, cur, th); ThreadOk(m', th', keys)
  {
    hide Sorted, Complete, SlotsOk, Extends, Bucket, Examine, Inspect, KeyVisible, Indexed;
  }

  lemma SwapThread(m: Memory, cur: nat, th: Thread, keys: set<Key>)
    requires MemoryOk(m, keys) && ThreadOk(m, th, keys) && cur in m.stores && th.pc.IndexSwap?
    ensures var (m', th') := CallStep(m, cur, th); ThreadOk(m', th', keys)
  {
    hide ListOk, SlotsOk, Fresh, Extends, Bucket, Examine, Inspect, KeyVisible, NoCollisions, Hash;
    var at, st := th.pc.at, th.pc.store;
    if Slot(m, st, Home(m, st, at)) == th.pc.seen {
      SetSlotMemory(m, st, at, keys);
      SwapReads(m, st, at);
      hide SetSlot, Indexed, Slot, Home;
    }
  }

  lemma SwapReads(m: Memory, st: nat, e: Ref)
    ensures var m' := SetSlot(m, st, Home(m, st, e), e);
      m'.heap == m.heap && m'.linked == m.linked && m'.hasher == m.hasher && m'.stores.Keys == m.stores.Keys
  {
  }

  lemma UpdateThread(m: Memory, cur: nat, th: Thread, keys: set<Key>)
    requires MemoryOk(m, keys) && ThreadOk(m, th, keys) && th.pc.Update?
    ensures var (m', th') := CallStep(m, cur, th); ThreadOk(m', th', keys)
  {
    hide MemoryOk, NoCollisions, Bucket, Examine, Inspect, KeyVisible, Indexed;
  }

  /** The steps of an Insert or a Set that change no memory. */
  lemma QuietThread(m: Memory, cur: nat, th: Thread, keys: set<Key>)
    requires MemoryOk(m, keys) && ThreadOk(m, th, keys) && cur in m.stores
    requires !th.pc.LoadSlot? && !th.pc.LoadFirst? && !th.pc.Advance? && !th.pc.Link? && !th.pc.IndexSwap?
    requires !IsGet(th) && !th.pc.Update?
    ensures var (m', th') := CallStep(m, cur, th); ThreadOk(m', th', keys)
  {
    assert Nil !in m.linked;
    hide NoCollisions, MemoryOk, Passed, InList, Bucket, Examine, Inspect, KeyVisible;
  }

  lemma GetThread(m: Memory, cur: nat, th: Thread, keys: set<Key>)
    requires MemoryOk(m, keys) && ThreadOk(m, th, keys) && cur in m.stores && IsGet(th)
    ensures var (m', th') := CallStep(m, cur, th); ThreadOk(m', th', keys)
  {
    if th.pc.GetSlot? {
      GetSlotThread(m, th, keys);
    } else if th.pc.GetNext? {
      GetNextThread(m, th, keys);
    }
    hide MemoryOk, Inspect, NoCollisions, Bucket, Indexed;
  }

  lemma GetSlotThread(m: Memory, th: Thread, keys: set<Key>)
    requires MemoryOk(m, keys) && ThreadOk(m, th, keys) && th.pc.GetSlot?
    ensures ThreadOk(m, Inspect(m, th, KeySlot(m, th.pc.store, th.key), th.pc.visible), keys)
  {
    hide Inspect, Complete, Sorted, OneLast, Extends, Bucket;
    InspectOk(m, th, KeySlot(m, th.pc.store, th.key), th.pc.visible, keys);
  }

  lemma GetNextThread(m: Memory, th: Thread, keys: set<Key>)
    requires MemoryOk(m, keys) && ThreadOk(m, th, keys) && th.pc.GetNext?
    ensures ThreadOk(m, Inspect(m, th, Next(m.heap, th.pc.at), th.pc.visible), keys)
  {
    hide Inspect, OneLast, SlotsOk, Extends, Bucket;
    InspectOk(m, th, Next(m.heap, th.pc.at), th.pc.visible, keys);
  }

  lemma ExamineOk(m: Memory, th: Thread, st: nat, left: Ref, found: Ref, keys: set<Key>)
    requires MemoryOk(m, keys) && th.key in keys && Searching(m, th)
    requires st in m.stores
    requires Passed(m, left, th.key, keys) && !IsGet(th) && (NoCollisions(m.hasher, keys) || !th.isSet)
    requires found != Nil ==> Member(m, found)
    requires found == Nil || m.hasher(th.key) < Hash(m.heap, found) ==> found == Next(m.heap, left)
    ensures var (m', th') := Examine(m, th, st, left, found); ThreadOk(m', th', keys)
  {
    OwnIsAhead(m, th, left, keys);
    hide SlotsOk, Extends, Bucket, Complete, Sorted;
  }

  /** A call before it has found or linked its element; a Set may be looking for what it has linked itself. */
  ghost predicate Searching(m: Memory, th: Thread) {
    && (th.pc.LoadSlot? || th.pc.LoadFirst? || th.pc.Advance?)
    && (th.elem != Nil ==> th.isSet && Member(m, th.elem) && At(m.heap, th.elem).key == th.key)
  }

  /** A search does not miss the element that the call has linked itself. */
  lemma OwnIsAhead(m: Memory, th: Thread, left: Ref, keys: set<Key>)
    requires ListOk(m, keys) && Searching(m, th) && Passed(m, left, th.key, keys)
    requires NoCollisions(m.hasher, keys) || !th.isSet
    ensures th.elem != Nil ==>
      && Hash(m.heap, th.elem) == m.hasher(th.key)
      && Next(m.heap, left) != Nil && Hash(m.heap, Next(m.heap, left)) <= m.hasher(th.key)
  {
  }

  lemma InspectOk(m: Memory, th: Thread, at: Ref, visible: bool, keys: set<Key>)
    requires MemoryOk(m, keys) && th.key in keys && th.elem == Nil && IsGet(th) && !th.isSet
    requires NoCollisions(m.hasher, keys)
    requires at != Nil ==> Member(m, at)
    // a visible key lies at or after `at`
    requires visible ==> InList(m, th.key) && at != Nil && Hash(m.heap, at) <= m.hasher(th.key)
    ensures ThreadOk(m, Inspect(m, th, at, visible), keys)
  {
  }

  // ---------- a step of a call, seen by the rest ----------

  /** What a step of call th leaves alone, for the other calls to rely on. */
  ghost predicate Footprint(m: Memory, th: Thread, m': Memory, th': Thread) {
    && (if th'.pc.Tally?
        then m'.linked == m.linked + {th.elem} && th.elem !in m.linked && th'.elem == th.elem
        else m'.linked == m.linked)
    && (th'.pc.Tally? ==> th.pc.Link? && th.elem != Nil)
    && (th'.elem == th.elem || th'.elem == Nil || (th'.pc.Link? && th'.elem == m.nextRef))
    && (forall r :: r in m.heap && r !in m.linked ==> r in m'.heap && m'.heap[r] == m.heap[r])
    && (HasLinked(th) ==> HasLinked(th') && th'.elem == th.elem)
  }

  lemma CallFootprint(m: Memory, cur: nat, th: Thread, keys: set<Key>)
    requires MemoryOk(m, keys) && ThreadOk(m, th, keys)
    ensures var (m', th') := CallStep(m, cur, th); Footprint(m, th, m', th')
  {
    hide ListOk, SlotsOk, Extends, Bucket, KeyVisible, Indexed;
    if th.pc.Link? { assert th.pc.left in m.linked; }
    if th.pc.LoadSlot? || th.pc.LoadFirst? || th.pc.Advance? { OwnStays(m, cur, th, keys); }
  }

  /** A Set that looks again for the element it has linked does not make another one. */
  lemma OwnStays(m: Memory, cur: nat, th: Thread, keys: set<Key>)
    requires MemoryOk(m, keys) && ThreadOk(m, th, keys) && (th.pc.LoadSlot? || th.pc.LoadFirst? || th.pc.Advance?)
    ensures var (m', th') := CallStep(m, cur, th);
      th.elem != Nil ==> m' == m && th'.elem == th.elem && !th'.pc.Link? && (th'.pc.Done? ==> !th.isSet)
  {
    assert Head in m.linked && Hash(m.heap, Head) == -1;
    OwnIsAhead(m, th, if th.pc.Advance? then th.pc.left else Head, keys);
    hide ListOk, SlotsOk, Extends, Bucket, KeyVisible, Indexed, Inspect;
  }

  lemma OtherThread(m: Memory, th: Thread, m': Memory, th': Thread, other: Thread, keys: set<Key>)
    requires MemoryOk(m, keys) && Extends(m, m') && Footprint(m, th, m', th')
    requires ThreadOk(m, other, keys) && (other.elem != Nil ==> other.elem != th.elem)
    ensures ThreadOk(m', other, keys)
    ensures other.elem != Nil ==> other.elem != th'.elem
  {
    hide Sorted, Complete, SlotsOk, Extends, Bucket, KeyVisible, Indexed;
    ThreadStable(m, m', other, keys);
  }

  lemma CallThreads(m: Memory, cur: nat, threads: map<nat, Thread>, t: nat, keys: set<Key>)
    requires MemoryOk(m, keys) && ThreadsOk(m, threads, keys) && t in threads && cur in m.stores
    ensures var (m', th') := CallStep(m, cur, threads[t]); ThreadsOk(m', threads[t := th'], keys)
  {
    hide MemoryOk, CallStep, ThreadOk, Footprint, Extends;
    var (m', th') := CallStep(m, cur, threads[t]);
    CallMemory(m, cur, threads[t], keys);
    CallThread(m, cur, threads[t], keys);
    CallFootprint(m, cur, threads[t], keys);
    forall u | u in threads && u != t
      ensures ThreadOk(m', threads[u], keys)
      ensures threads[u].elem != Nil ==> threads[u].elem != th'.elem
    {
      OtherThread(m, threads[t], m', th', threads[u], keys);
    }
  }

  lemma CallOwners(m: Memory, cur: nat, threads: map<nat, Thread>, t: nat, init: set<Ref>, keys: set<Key>)
    requires MemoryOk(m, keys) && ThreadsOk(m, threads, keys) && t in threads && OwnersOk(m, threads, init)
    ensures var (m', th') := CallStep(m, cur, threads[t]); OwnersOk(m', threads[t := th'], init)
  {
    hide Sorted, Complete, SlotsOk, CallStep, ThreadOk;
    var (m', th') := CallStep(m, cur, threads[t]);
    CallFootprint(m, cur, threads[t], keys);
    forall e | Member(m', e) && e !in init ensures Linker(threads[t := th'], e) {
      var u := if e in m.linked then var u :| u in threads && HasLinked(threads[u]) && threads[u].elem == e; u else t;
      assert HasLinked(threads[t := th'][u]) && threads[t := th'][u].elem == e;
    }
  }

  lemma GrowerStable(m: Memory, m': Memory, cur: nat, g: Grower, keys: set<Key>)
    requires MemoryOk(m, keys) && Extends(m, m') && GrowerOk(m, cur, g) && cur in m.stores
    ensures GrowerOk(m', cur, g)
    ensures Filling(g) ==> Frontier(m', g) == Frontier(m, g)
  {
    hide Sorted, Complete, SlotsOk, Bucket, Indexed;
    forall st, e | st in m.stores && e in m.heap && Indexed(m, st, e) ensures Indexed(m', st, e) {
      IndexedStable(m, m', st, e);
    }
  }

  ghost predicate Covered(s: State, e: Ref) {
    Indexed(s.m, s.cur, e) || Owed(s.threads, e) || FillWillReach(s.m, s.grower, e)
  }

  lemma CallCover(s: State, t: nat, keys: set<Key>)
    requires MemoryOk(s.m, keys) && ThreadsOk(s.m, s.threads, keys) && t in s.threads && s.cur in s.m.stores
    requires GrowerOk(s.m, s.cur, s.grower) && CoverOk(s)
    ensures CoverOk(Apply(s, Call(t)))
  {
    hide NodesOk, Sorted, Complete, SlotsOk, Bucket, Indexed, CallStep, ThreadOk, GrowerOk, Frontier, Extends;
    var s' := Apply(s, Call(t));
    CallMemory(s.m, s.cur, s.threads[t], keys);
    CallFootprint(s.m, s.cur, s.threads[t], keys);
    GrowerStable(s.m, s'.m, s.cur, s.grower, keys);
    forall e | Member(s'.m, e) ensures Covered(s', e) {
      if e !in s.m.linked {
        assert Pending(s'.threads[t]) && s'.threads[t].elem == e;
      } else {
        MemberStable(s.m, s'.m, s.cur, e, keys);
        if Owed(s.threads, e) && !Indexed(s'.m, s'.cur, e) {
          var u :| u in s.threads && Pending(s.threads[u]) && s.threads[u].elem == e;
          if u == t { CallPending(s.m, s.cur, s.threads[t], keys); }
          assert Pending(s'.threads[u]) && s'.threads[u].elem == e;
        }
      }
    }
  }

  lemma MemberStable(m: Memory, m': Memory, st: nat, e: Ref, keys: set<Key>)
    requires ListOk(m, keys) && Extends(m, m') && Member(m, e) && st in m.stores
    ensures Hash(m'.heap, e) == Hash(m.heap, e)
    ensures Indexed(m, st, e) ==> Indexed(m', st, e)
  {
    hide Sorted, Complete;
    IndexedStable(m, m', st, e);
  }

  /** A call stays responsible for its element until the published index has it. */
  lemma CallPending(m: Memory, cur: nat, th: Thread, keys: set<Key>)
    requires MemoryOk(m, keys) && ThreadOk(m, th, keys) && Pending(th)
    ensures var (m', th') := CallStep(m, cur, th);
      th'.elem == th.elem && (Pending(th') || (m' == m && Indexed(m, cur, th.elem)))
  {
    if th.pc.LoadSlot? || th.pc.LoadFirst? || th.pc.Advance? { OwnStays(m, cur, th, keys); }
    hide MemoryOk, Bucket, KeyVisible, Examine, Inspect, Indexed;
  }

  lemma CallCount(s: State, t: nat, keys: set<Key>)
    requires MemoryOk(s.m, keys) && ThreadsOk(s.m, s.threads, keys) && t in s.threads && CountOk(s)
    ensures CountOk(Apply(s, Call(t)))
  {
    hide MemoryOk, ThreadOk, CallStep;
    var s' := Apply(s, Call(t));
    var th, th' := s.threads[t], s'.threads[t];
    CallFootprint(s.m, s.cur, th, keys);
    if th'.pc.Tally? {
      assert Tallying(s') == Tallying(s) + {t};
    } else if th.pc.Tally? {
      assert Tallying(s') == Tallying(s) - {t};
    } else {
      assert Tallying(s') == Tallying(s);
    }
  }

  // ---------- a step of grow ----------

  lemma FillMemory(m: Memory, cur: nat, g: Grower, keys: set<Key>)
    requires MemoryOk(m, keys) && GrowerOk(m, cur, g)
    ensures var (m', g') := FillStep(m, g);
      Extends(m, m') && MemoryOk(m', keys) && m'.heap == m.heap && m'.linked == m.linked &&
          m'.stores.Keys == m.stores.Keys
    ensures var (m', g') := FillStep(m, g); g'.FillNext? ==> Indexed(m', g'.store, g'.item)
  {
    hide ListOk, SlotsOk, Extends, Bucket, BaseOk, BaseVisible;
    ExtendsSelf(m);
    match g
    case FillSwap(st, base, second, item, isFirst, last, seen) =>
      if Slot(m, st, Home(m, st, item)) == seen { SetSlotMemory(m, st, item, keys); }
    case _ =>
  }

  lemma FillPosition(m: Memory, cur: nat, g: Grower, keys: set<Key>)
    requires MemoryOk(m, keys) && GrowerOk(m, cur, g)
    ensures var (m', g') := FillStep(m, g); PositionOk(m', g')
  {
    hide Complete, SlotsOk, Extends, BaseOk, BaseVisible, Bucket;
    var (m', g') := FillStep(m, g);
    FillMemory(m, cur, g, keys);
    match g
    case FillSwap(st, base, second, item, isFirst, last, seen) =>
      if Slot(m, st, Home(m, st, item)) == seen { assert Slot(m', st, Home(m, st, item)) == item; }
    case _ =>
  }

  /** As the fill moves on, it leaves nothing unindexed behind. */
  lemma FillAdvance(m: Memory, cur: nat, g: Grower, e: Ref, keys: set<Key>)
    requires MemoryOk(m, keys) && GrowerOk(m, cur, g) && Filling(g) && Member(m, e)
    requires Frontier(m, g) <= Hash(m.heap, e)
    ensures var (m', g') := FillStep(m, g);
      if Filling(g') then Frontier(m', g') <= Hash(m'.heap, e) || Indexed(m', g.store, e) else false
  {
    hide SlotsOk, Extends, BaseOk, BaseVisible;
  }

  lemma FillGrower(m: Memory, cur: nat, g: Grower, keys: set<Key>)
    requires MemoryOk(m, keys) && GrowerOk(m, cur, g) && cur in m.stores
    ensures var (m', g') := FillStep(m, g);
      GrowerOk(m', if g.Publish? then g.store else cur, g')
  {
    hide MemoryOk, Extends, PositionOk, Indexed, Frontier;
    var (m', g') := FillStep(m, g);
    FillMemory(m, cur, g, keys);
    FillPosition(m, cur, g, keys);
    if !g.Idle? {
      forall e | e in g.base
        ensures Indexed(m', cur, e)
        ensures Filling(g) && (!Filling(g') || Hash(m'.heap, e) < Frontier(m', g')) ==> Indexed(m', g.store, e)
      {
        BaseElement(m, cur, g, e, keys);
      }
    }
  }

  lemma BaseElement(m: Memory, cur: nat, g: Grower, e: Ref, keys: set<Key>)
    requires MemoryOk(m, keys) && GrowerOk(m, cur, g) && cur in m.stores && !g.Idle? && e in g.base
    ensures var (m', g') := FillStep(m, g);
      && Indexed(m', cur, e)
      && (Filling(g) && (!Filling(g') || Hash(m'.heap, e) < Frontier(m', g')) ==> Indexed(m', g.store, e))
  {
    hide NodesOk, Sorted, Complete, SlotsOk, Extends, PositionOk, Indexed, FillStep, Bucket;
    var (m', g') := FillStep(m, g);
    FillMemory(m, cur, g, keys);
    MemberStable(m, m', cur, e, keys);
    if Filling(g) {
      if Frontier(m, g) <= Hash(m.heap, e) {
        FillAdvance(m, cur, g, e, keys);
      } else {
        MemberStable(m, m', g.store, e, keys);
      }
    }
  }

  lemma MemoryThreads(m: Memory, m': Memory, threads: map<nat, Thread>, keys: set<Key>)
    requires MemoryOk(m, keys) && Extends(m, m') && m'.heap == m.heap && m'.linked == m.linked
    requires ThreadsOk(m, threads, keys)
    ensures ThreadsOk(m', threads, keys)
  {
    hide ListOk, SlotsOk, Extends;
    forall t | t in threads ensures ThreadOk(m', threads[t], keys) {
      ThreadStable(m, m', threads[t], keys);
    }
  }

  lemma GrowCover(s: State, keys: set<Key>)
    requires MemoryOk(s.m, keys) && s.cur in s.m.stores && GrowerOk(s.m, s.cur, s.grower) && CoverOk(s) &&
        !s.grower.Idle?
    ensures CoverOk(Apply(s, Grow))
  {
    hide NodesOk, Sorted, Complete, SlotsOk, Extends, PositionOk, Indexed, FillStep, Bucket;
    var s' := Apply(s, Grow);
    FillMemory(s.m, s.cur, s.grower, keys);
    forall e | Member(s'.m, e) ensures Covered(s', e) {
      MemberStable(s.m, s'.m, s.cur, e, keys);
      if s.grower.Publish? {
        PublishCovers(s.m, s.grower, e, keys);
      } else if FillWillReach(s.m, s.grower, e) {
        FillAdvance(s.m, s.cur, s.grower, e, keys);
        FillKeepsStore(s.m, s.grower);
      }
    }
  }

  /** Publication restarts the fill, which then owes every element. */
  lemma PublishCovers(m: Memory, g: Grower, e: Ref, keys: set<Key>)
    requires ListOk(m, keys) && Member(m, e) && g.Publish?
    ensures var (m', g') := FillStep(m, g); FillWillReach(m', g', e)
  {
    hide Sorted, Complete;
  }

  lemma FillKeepsStore(m: Memory, g: Grower)
    requires Filling(g)
    ensures var (m', g') := FillStep(m, g); Filling(g') ==> g'.store == g.store && g'.second == g.second
  {
  }

  // ---------- every step ----------

  lemma BeginGrow(s: State, st: nat, width: nat, init: set<Ref>, keys: set<Key>)
    requires Loose(s, init, keys) && st !in s.m.stores && !Filling(s.grower)
    ensures Loose(s.(m := NewStore(s.m, st, width), grower := BeginFill(s.m, s.cur, st)), init, keys)
  {
    hide NodesOk, Sorted, Complete, SlotsOk, Extends, Indexed, ThreadOk;
    var m', g' := NewStore(s.m, st, width), BeginFill(s.m, s.cur, st);
    NewStoreMemory(s.m, st, width, keys);
    MemoryThreads(s.m, m', s.threads, keys);
    forall e | Member(s.m, e) ensures Indexed(s.m, s.cur, e) ==> Indexed(m', s.cur, e) {
      MemberStable(s.m, m', s.cur, e, keys);
    }
    assert GrowerOk(m', s.cur, g') by { MembersSort(m', keys); }
    var s' := s.(m := m', grower := g');
    forall e | Member(m', e) ensures Covered(s', e) {
      assert Covered(s, e);
    }
    assert Tallying(s') == Tallying(s);
  }

  lemma MembersSort(m: Memory, keys: set<Key>)
    requires NodesOk(m, keys)
    ensures forall e :: Member(m, e) ==> Hash(m.heap, e) >= 0
  {
  }

  lemma GrowKeeps(s: State, init: set<Ref>, keys: set<Key>)
    requires Loose(s, init, keys) && !s.grower.Idle?
    ensures Loose(Apply(s, Grow), init, keys)
  {
    hide MemoryOk, ThreadOk, PositionOk, BaseOk, BaseVisible, CoverOk, FillStep, Extends;
    var s' := Apply(s, Grow);
    FillMemory(s.m, s.cur, s.grower, keys);
    FillGrower(s.m, s.cur, s.grower, keys);
    MemoryThreads(s.m, s'.m, s.threads, keys);
    GrowCover(s, keys);
    assert Tallying(s') == Tallying(s);
  }

  lemma CallKeeps(s: State, t: nat, init: set<Ref>, keys: set<Key>)
    requires Loose(s, init, keys) && t in s.threads
    ensures Loose(Apply(s, Call(t)), init, keys)
  {
    hide MemoryOk, ThreadOk, GrowerOk, CoverOk, CountOk, OwnersOk, CallStep, Extends;
    var s' := Apply(s, Call(t));
    CallMemory(s.m, s.cur, s.threads[t], keys);
    CallThreads(s.m, s.cur, s.threads, t, keys);
    CallOwners(s.m, s.cur, s.threads, t, init, keys);
    GrowerStable(s.m, s'.m, s.cur, s.grower, keys);
    CallCover(s, t, keys);
    CallCount(s, t, keys);
    StoresStay(s.m, s'.m);
  }

  lemma StoresStay(m: Memory, m': Memory)
    requires Extends(m, m')
    ensures m.stores.Keys <= m'.stores.Keys
  {
  }

  lemma LooseStepKeeps(s: State, a: Action, init: set<Ref>, keys: set<Key>)
    requires Loose(s, init, keys) && Enabled(s, a)
    ensures Loose(Apply(s, a), init, keys)
  {
    hide Loose;
    match a
    case Call(t) => CallKeeps(s, t, init, keys);
    case StartGrow(st, width) => BeginGrow(s, st, width, init, keys);
    case Grow => GrowKeeps(s, init, keys);
    case GrowAgain(st, width) => BeginGrow(s, st, width, init, keys);
  }

  lemma HasherStays(s: State, a: Action)
    requires Enabled(s, a)
    ensures Apply(s, a).m.hasher == s.m.hasher
  {
  }

  lemma StepKeeps(s: State, a: Action, init: set<Ref>, keys: set<Key>)
    requires Inv(s, init, keys) && Enabled(s, a)
    ensures Inv(Apply(s, a), init, keys)
  {
    hide Loose, Apply;
    LooseStepKeeps(s, a, init, keys);
    HasherStays(s, a);
  }
}
