/**
  The invariant of the lock-free map's step machine. `Loose` holds of Inserts and resizes even if keys share hashes;
  `Inv` is `Loose` with all hashes different, for Sets and lookups too.
*/
module MapInvariant {
  import opened MapSteps

  /** No two of the keys in play share a hash. */
  ghost predicate NoCollisions(hasher: Key -> nat, keys: set<Key>) {
    forall k, l :: k in keys && l in keys && hasher(k) == hasher(l) ==> k == l
  }

  /** The linked elements: known to memory, with the hash of their key, and no two of equal hash if no keys collide. */
  ghost predicate NodesOk(m: Memory, keys: set<Key>) {
    && Head in m.linked
    && Nil !in m.linked
    && Hash(m.heap, Head) == -1
    && (forall r :: r in m.linked ==> r in m.heap)
    && (forall r :: r in m.linked && r != Head ==>
          At(m.heap, r).key in keys && Hash(m.heap, r) == m.hasher(At(m.heap, r).key))
    && (NoCollisions(m.hasher, keys) ==>
          forall r, q :: r in m.linked && q in m.linked && Hash(m.heap, r) == Hash(m.heap, q) ==> r == q)
  }

  /** Links lead to other linked elements, and never to a smaller hash. */
  ghost predicate Sorted(m: Memory) {
    forall r {:trigger Next(m.heap, r)} :: r in m.linked && Next(m.heap, r) != Nil ==>
      Next(m.heap, r) in m.linked && Next(m.heap, r) != r && Hash(m.heap, r) <= Hash(m.heap, Next(m.heap, r))
  }

  /** Links skip no linked element. */
  ghost predicate Complete(m: Memory) {
    forall r, q {:trigger Next(m.heap, r), Hash(m.heap, q)} ::
      r in m.linked && q in m.linked && Hash(m.heap, r) < Hash(m.heap, q) ==>
        Next(m.heap, r) != Nil && Hash(m.heap, Next(m.heap, r)) <= Hash(m.heap, q)
  }

  /** Does the link of r lead to an equal hash? */
  predicate Stays(m: Memory, r: Ref) {
    Next(m.heap, r) != Nil && Hash(m.heap, Next(m.heap, r)) == Hash(m.heap, r)
  }

  /** Of several elements of one hash at most one is the last. */
  ghost predicate OneLast(m: Memory) {
    forall r, q :: r in m.linked && q in m.linked && r != q && Hash(m.heap, r) == Hash(m.heap, q) ==>
      Stays(m, r) || Stays(m, q)
  }

  /** The linked elements are sorted by hash, strictly if no keys collide, with nothing left out. */
  ghost predicate ListOk(m: Memory, keys: set<Key>) {
    NodesOk(m, keys) && Sorted(m) && Complete(m) && OneLast(m)
  }

  ghost predicate Member(m: Memory, r: Ref) {
    r in m.linked && r != Head
  }

  /** A slot holds nil or a linked element of its own bucket. */
  ghost predicate SlotsOk(m: Memory) {
    forall st, i :: Slot(m, st, i) != Nil ==>
      Member(m, Slot(m, st, i)) && Home(m, st, Slot(m, st, i)) == i
  }

  ghost predicate Fresh(m: Memory) {
    && Head < m.nextRef
    && forall r :: r in m.heap ==> r < m.nextRef
  }

  ghost predicate MemoryOk(m: Memory, keys: set<Key>) {
    ListOk(m, keys) && SlotsOk(m) && Fresh(m)
  }

  /** A call whose element is in the list because this call put it there. */
  predicate HasLinked(th: Thread) {
    th.elem != Nil && !th.pc.Link?
  }

  /** A call that has linked its element but may still have to index it; a Set may be looking for it again. */
  predicate Pending(th: Thread) {
    HasLinked(th) && !th.pc.Done?
  }

  /** The places at which an Insert or a Get has no element. */
  predicate Bare(th: Thread) {
    match th.pc
    case Start => !th.isSet
    case LoadSlot(_) => !th.isSet
    case LoadFirst(_) => !th.isSet
    case Advance(_, _) => !th.isSet
    case Update(_, _) => !th.isSet
    case GetStart => true
    case GetSlot(_, _) => true
    case GetNext(_, _) => true
    case GetValue(_, _) => true
    case GetDone(_, _, _) => true
    case _ => false
  }

  /** The element a call is indexing: the one of its key, and its own if it has linked one. */
  ghost predicate Target(m: Memory, th: Thread, at: Ref) {
    && Member(m, at) && At(m.heap, at).key == th.key
    && (th.elem != Nil || !th.isSet ==> at == th.elem)
  }

  predicate IsGet(th: Thread) {
    th.pc.GetStart? || th.pc.GetSlot? || th.pc.GetNext? || th.pc.GetValue? || th.pc.GetDone?
  }

  /** A search for the key may go on behind left. */
  ghost predicate Passed(m: Memory, left: Ref, key: Key, keys: set<Key>) {
    && left in m.linked && Hash(m.heap, left) <= m.hasher(key)
    && (NoCollisions(m.hasher, keys) ==> Hash(m.heap, left) < m.hasher(key))
  }

  ghost predicate ThreadOk(m: Memory, th: Thread, keys: set<Key>) {
    var hash := m.hasher(th.key);
    && th.key in keys
    && (NoCollisions(m.hasher, keys) || (!th.isSet && !IsGet(th)))
    && (IsGet(th) ==> !th.isSet)
    && (HasLinked(th) ==> Member(m, th.elem) && At(m.heap, th.elem).key == th.key)
    && (Bare(th) ==> th.elem == Nil)
    && match th.pc
       case LoadSlot(st) => st in m.stores
       case LoadFirst(st) => st in m.stores
       case Advance(st, left) => st in m.stores && Passed(m, left, th.key, keys)
       case Link(st, left, right) =>
         && st in m.stores && Passed(m, left, th.key, keys)
         && (right != Nil ==> Member(m, right) && hash < Hash(m.heap, right))
         && (right != Nil ==> Next(m.heap, left) != Nil && Hash(m.heap, Next(m.heap, left)) <= Hash(m.heap, right))
         && th.elem in m.heap && th.elem !in m.linked && th.elem != Nil
         && At(m.heap, th.elem) == Elem(th.key, hash, right, th.value)
       case Tally(st) => st in m.stores && th.elem != Nil
       case Update(st, at) => st in m.stores && th.isSet && Target(m, th, at)
       case Index(st, at) => st in m.stores && Target(m, th, at)
       case IndexSwap(st, at, seen) =>
         st in m.stores && Target(m, th, at) && (seen != Nil ==> Hash(m.heap, at) < Hash(m.heap, seen))
       case Recheck(st, at) => st in m.stores && Target(m, th, at) && Indexed(m, st, at)
       case Reload => th.elem != Nil
       case GetSlot(st, visible) => st in m.stores && (visible ==> KeyVisible(m, st, th.key))
       case GetNext(at, visible) =>
         && Member(m, at) && Hash(m.heap, at) < hash
         && (visible ==> InList(m, th.key))
       case GetValue(at, visible) => Member(m, at) && At(m.heap, at).key == th.key
       case GetDone(found, visible, _) => (visible ==> found) && (found ==> InList(m, th.key))
       case Done(inserted, at) =>
         && Member(m, at) && At(m.heap, at).key == th.key
         && (inserted <==> th.elem != Nil) && (inserted ==> at == th.elem)
       case _ => true
  }

  ghost predicate InList(m: Memory, key: Key) {
    exists e :: Member(m, e) && At(m.heap, e).key == key
  }

  ghost predicate ThreadsOk(m: Memory, threads: map<nat, Thread>, keys: set<Key>) {
    && (forall t :: t in threads ==> ThreadOk(m, threads[t], keys))
    && (forall t, u :: t in threads && u in threads && threads[t].elem == threads[u].elem != Nil ==> t == u)
  }

  ghost predicate Linker(threads: map<nat, Thread>, e: Ref) {
    exists t :: t in threads && HasLinked(threads[t]) && threads[t].elem == e
  }

  /** Every linked element was there at the outset or was linked by one of the calls. */
  ghost predicate OwnersOk(m: Memory, threads: map<nat, Thread>, init: set<Ref>) {
    && init <= m.linked
    && (forall t :: t in threads ==> threads[t].elem !in init)
    && (forall e :: Member(m, e) && e !in init ==> Linker(threads, e))
  }

  predicate Filling(g: Grower) {
    g.FillFirst? || g.FillAt? || g.FillSwap? || g.FillNext?
  }

  /** The hash from which on the running fill still has to visit the list. */
  function Frontier(m: Memory, g: Grower): int {
    match g
    case FillAt(_, _, _, item, _, _) => Hash(m.heap, item)
    case FillSwap(_, _, _, item, _, _, _) => Hash(m.heap, item)
    case FillNext(_, _, _, item, _) => Hash(m.heap, item) + 1
    case _ => -1
  }

  /** The fill's position is in the list, and the slot it filled last is filled well enough. */
  ghost predicate PositionOk(m: Memory, g: Grower) {
    match g
    case FillAt(st, _, _, item, isFirst, last) => Member(m, item) && LastOk(m, st, item, isFirst, last)
    case FillSwap(st, _, _, item, isFirst, last, seen) =>
      Member(m, item) && LastOk(m, st, item, isFirst, last) && (seen != Nil ==> Hash(m.heap, item) < Hash(m.heap, seen))
    case FillNext(st, _, _, item, last) =>
      Member(m, item) && LastOk(m, st, item, false, last) && Indexed(m, st, item)
    case _ => true
  }

  /** The slot filled last holds an element at or before the fill's position. */
  ghost predicate LastOk(m: Memory, st: nat, item: Ref, isFirst: bool, last: nat) {
    isFirst || (Slot(m, st, last) != Nil && Hash(m.heap, Slot(m, st, last)) <= Hash(m.heap, item))
  }

  /** Elements indexed when the resize began are indexed as far as the fill has come. */
  ghost predicate BaseOk(m: Memory, g: Grower) {
    && (Filling(g) ==> forall e :: e in g.base && Hash(m.heap, e) < Frontier(m, g) ==> Indexed(m, g.store, e))
    && (g.Publish? ==> forall e :: e in g.base ==> Indexed(m, g.store, e))
  }

  /** Elements indexed when the resize began are indexed still. */
  ghost predicate BaseVisible(m: Memory, cur: nat, g: Grower) {
    !g.Idle? ==> forall e :: e in g.base ==> Member(m, e) && Indexed(m, cur, e)
  }

  ghost predicate GrowerOk(m: Memory, cur: nat, g: Grower) {
    && (g.Publish? || Filling(g) ==> g.store in m.stores)
    && (Filling(g) ==> (g.second <==> g.store == cur))
    && (g.Publish? ==> g.store != cur)
    && PositionOk(m, g)
    && BaseOk(m, g)
    && BaseVisible(m, cur, g)
  }

  ghost predicate Owed(threads: map<nat, Thread>, e: Ref) {
    exists t :: t in threads && Pending(threads[t]) && threads[t].elem == e
  }

  ghost predicate FillWillReach(m: Memory, g: Grower, e: Ref) {
    Filling(g) && g.second && Frontier(m, g) <= Hash(m.heap, e)
  }

  /** Each linked element is indexed, or its call or the second fill will index it. */
  ghost predicate CoverOk(s: State) {
    forall e :: Member(s.m, e) ==>
      Indexed(s.m, s.cur, e) || Owed(s.threads, e) || FillWillReach(s.m, s.grower, e)
  }

  ghost function Tallying(s: State): set<nat> {
    set t | t in s.threads && s.threads[t].pc.Tally?
  }

  /** The counter lags behind by exactly the calls about to bump it. */
  ghost predicate CountOk(s: State) {
    s.count + |Tallying(s)| + 1 == |s.m.linked|
  }

  ghost predicate Loose(s: State, init: set<Ref>, keys: set<Key>) {
    && MemoryOk(s.m, keys)
    && s.cur in s.m.stores
    && ThreadsOk(s.m, s.threads, keys)
    && OwnersOk(s.m, s.threads, init)
    && GrowerOk(s.m, s.cur, s.grower)
    && CoverOk(s)
    && CountOk(s)
  }

  ghost predicate Inv(s: State, init: set<Ref>, keys: set<Key>) {
    NoCollisions(s.m.hasher, keys) && Loose(s, init, keys)
  }

  // ---------- what a step may change ----------

  /** Memory only grows: elements keep key and hash, links only move closer, indexes only improve. */
  ghost predicate Extends(m: Memory, m': Memory) {
    && m'.hasher == m.hasher
    && m.linked <= m'.linked
    && (forall r :: r in m.heap ==>
          r in m'.heap && At(m'.heap, r).key == At(m.heap, r).key && Hash(m'.heap, r) == Hash(m.heap, r))
    && (forall r {:trigger Next(m.heap, r)} {:trigger Next(m'.heap, r)} :: r in m.linked && Next(m.heap, r) != Nil ==>
          Next(m'.heap, r) != Nil && Hash(m'.heap, Next(m'.heap, r)) <= Hash(m.heap, Next(m.heap, r)))
    && (forall st :: st in m.stores ==> st in m'.stores && Width(m', st) == Width(m, st))
    && (forall st, i :: st in m.stores && Slot(m, st, i) != Nil ==>
          Slot(m', st, i) != Nil && Hash(m'.heap, Slot(m', st, i)) <= Hash(m.heap, Slot(m, st, i)))
  }

  lemma ExtendsSelf(m: Memory)
    ensures Extends(m, m)
  {
  }

  lemma IndexedStable(m: Memory, m': Memory, st: nat, e: Ref)
    requires Extends(m, m') && st in m.stores && e in m.heap
    ensures Indexed(m, st, e) ==> Indexed(m', st, e)
  {
    assert Home(m', st, e) == Home(m, st, e);
  }

  lemma VisibleStable(m: Memory, m': Memory, st: nat, key: Key, keys: set<Key>)
    requires Extends(m, m') && ListOk(m, keys) && st in m.stores
    ensures KeyVisible(m, st, key) ==> KeyVisible(m', st, key)
  {
    if KeyVisible(m, st, key) {
      var e :| e in m.linked && e != Head && At(m.heap, e).key == key && Indexed(m, st, e);
      IndexedStable(m, m', st, e);
    }
  }

  lemma InListStable(m: Memory, m': Memory, key: Key, keys: set<Key>)
    requires Extends(m, m') && ListOk(m, keys)
    ensures InList(m, key) ==> InList(m', key)
  {
    if InList(m, key) {
      var e :| Member(m, e) && At(m.heap, e).key == key;
      assert Member(m', e);
    }
  }

  lemma ThreadStable(m: Memory, m': Memory, th: Thread, keys: set<Key>)
    requires Extends(m, m') && ListOk(m, keys) && SlotsOk(m) && ThreadOk(m, th, keys)
    requires th.pc.Link? ==> th.elem !in m'.linked && At(m'.heap, th.elem) == At(m.heap, th.elem)
    ensures ThreadOk(m', th, keys)
  {
    match th.pc
    case Recheck(st, at) => IndexedStable(m, m', st, at);
    case GetSlot(st, visible) => VisibleStable(m, m', st, th.key, keys);
    case GetNext(at, visible) => InListStable(m, m', th.key, keys);
    case GetDone(found, visible, _) => InListStable(m, m', th.key, keys);
    case _ =>
  }

  // ---------- the five ways a step changes memory ----------

  /** The same element, but for its value. */
  predicate SameNode(e: Elem, f: Elem) {
    e.key == f.key && e.hash == f.hash && e.next == f.next
  }

  lemma ListFrame(m: Memory, m': Memory, keys: set<Key>)
    requires ListOk(m, keys) && m'.linked == m.linked && m'.hasher == m.hasher
    requires forall r :: r in m.linked ==> r in m'.heap && SameNode(m'.heap[r], m.heap[r])
    ensures ListOk(m', keys)
  {
    assert forall r {:trigger Hash(m'.heap, r)} :: r in m.linked ==> Hash(m'.heap, r) == Hash(m.heap, r);
    assert forall r {:trigger Next(m'.heap, r)} :: r in m.linked ==> Next(m'.heap, r) == Next(m.heap, r);
    assert forall r {:trigger Stays(m', r)} :: r in m.linked ==> Stays(m', r) == Stays(m, r);
  }

  lemma SlotsFrame(m: Memory, m': Memory)
    requires SlotsOk(m) && m.linked <= m'.linked
    requires forall r :: r in m.linked ==> Hash(m'.heap, r) == Hash(m.heap, r)
    requires forall st, i :: Slot(m', st, i) != Nil ==>
      Slot(m', st, i) == Slot(m, st, i) && Width(m', st) == Width(m, st)
    ensures SlotsOk(m')
  {
  }

  lemma NewElemMemory(m: Memory, key: Key, value: Value, next: Ref, keys: set<Key>)
    requires MemoryOk(m, keys)
    ensures var m' := NewElem(m, key, value, next); Extends(m, m') && MemoryOk(m', keys)
  {
    var m' := NewElem(m, key, value, next);
    ListFrame(m, m', keys);
    SlotsFrame(m, m');
  }

  lemma StoreValueMemory(m: Memory, at: Ref, value: Value, keys: set<Key>)
    requires MemoryOk(m, keys) && Member(m, at)
    ensures var m' := StoreValue(m, at, value); Extends(m, m') && MemoryOk(m', keys)
  {
    var m' := StoreValue(m, at, value);
    ListFrame(m, m', keys);
    SlotsFrame(m, m');
  }

  lemma NewStoreMemory(m: Memory, st: nat, width: nat, keys: set<Key>)
    requires MemoryOk(m, keys) && st !in m.stores
    ensures var m' := NewStore(m, st, width); Extends(m, m') && MemoryOk(m', keys)
  {
    var m' := NewStore(m, st, width);
    ListFrame(m, m', keys);
    SlotsFrame(m, m');
  }

  /** e may be linked after left: it points where left points and belongs in between. */
  ghost predicate Fits(m: Memory, left: Ref, e: Ref, keys: set<Key>) {
    && left in m.linked && e in m.heap && e !in m.linked && e != Nil
    && At(m.heap, e).key in keys && Hash(m.heap, e) == m.hasher(At(m.heap, e).key)
    && Next(m.heap, e) == Next(m.heap, left)
    && Passed(m, left, At(m.heap, e).key, keys)
    && (Next(m.heap, e) != Nil ==> Hash(m.heap, e) < Hash(m.heap, Next(m.heap, e)))
  }

  lemma LinkReads(m: Memory, left: Ref, e: Ref)
    requires left in m.heap
    ensures var m' := LinkElem(m, left, e);
      && (forall r {:trigger Hash(m'.heap, r)} :: Hash(m'.heap, r) == Hash(m.heap, r))
      && (forall r {:trigger At(m'.heap, r)} :: At(m'.heap, r).key == At(m.heap, r).key)
      && (forall r {:trigger Next(m'.heap, r)} :: Next(m'.heap, r) == if r == left then e else Next(m.heap, r))
  {
  }

  /** Nothing linked lies between left and the place of e. */
  lemma GapAtLeft(m: Memory, left: Ref, e: Ref, keys: set<Key>)
    requires ListOk(m, keys) && Fits(m, left, e, keys)
    ensures forall q :: q in m.linked ==> Hash(m.heap, q) <= Hash(m.heap, left) || Hash(m.heap, e) < Hash(m.heap, q)
  {
    forall q | q in m.linked && Hash(m.heap, left) < Hash(m.heap, q)
      ensures Hash(m.heap, e) < Hash(m.heap, q)
    {
      assert Hash(m.heap, Next(m.heap, left)) <= Hash(m.heap, q);
    }
  }

  /** left is the last element of its hash, so no other element of that hash is. */
  lemma LastAtLeft(m: Memory, left: Ref, e: Ref, r: Ref, keys: set<Key>)
    requires ListOk(m, keys) && Fits(m, left, e, keys) && r in m.linked && r != left
    ensures Hash(m.heap, r) == Hash(m.heap, left) ==> Stays(m, r)
  {
    assert !Stays(m, left);
  }

  lemma LinkOneLast(m: Memory, left: Ref, e: Ref, keys: set<Key>)
    requires ListOk(m, keys) && Fits(m, left, e, keys)
    ensures OneLast(LinkElem(m, left, e))
  {
    var m' := LinkElem(m, left, e);
    LinkReads(m, left, e);
    GapAtLeft(m, left, e, keys);
    forall r | r in m.linked && r != left ensures Stays(m', r) == Stays(m, r) {
    }
    forall r, q | r in m'.linked && q in m'.linked && r != q && Hash(m.heap, r) == Hash(m.heap, q)
      ensures Stays(m', r) || Stays(m', q)
    {
      var other := if r == e || r == left then q else r;
      if other == e || other == left {
        assert Stays(m', left);
      } else if r == e || q == e || r == left || q == left {
        LastAtLeft(m, left, e, other, keys);
      }
    }
  }

  lemma LinkComplete(m: Memory, left: Ref, e: Ref, keys: set<Key>)
    requires ListOk(m, keys) && Fits(m, left, e, keys)
    ensures Complete(LinkElem(m, left, e))
  {
    var m' := LinkElem(m, left, e);
    LinkReads(m, left, e);
    GapAtLeft(m, left, e, keys);
    forall r, q | r in m'.linked && q in m'.linked && Hash(m.heap, r) < Hash(m.heap, q)
      ensures Next(m'.heap, r) != Nil && Hash(m.heap, Next(m'.heap, r)) <= Hash(m.heap, q)
    {
      if q == e && r != left {
        assert Hash(m.heap, r) < Hash(m.heap, left) || Stays(m, r) by { LastAtLeft(m, left, e, r, keys); }
      } else if r == e {
        assert Hash(m.heap, left) < Hash(m.heap, q);
      }
    }
  }

  lemma LinkSorted(m: Memory, left: Ref, e: Ref, keys: set<Key>)
    requires ListOk(m, keys) && Fits(m, left, e, keys)
    ensures NodesOk(LinkElem(m, left, e), keys) && Sorted(LinkElem(m, left, e))
  {
    LinkReads(m, left, e);
    GapAtLeft(m, left, e, keys);
  }

  lemma LinkMemory(m: Memory, left: Ref, e: Ref, keys: set<Key>)
    requires MemoryOk(m, keys) && Fits(m, left, e, keys)
    ensures var m' := LinkElem(m, left, e); Extends(m, m') && MemoryOk(m', keys)
  {
    LinkReads(m, left, e);
    LinkSorted(m, left, e, keys);
    LinkComplete(m, left, e, keys);
    LinkOneLast(m, left, e, keys);
    SlotsFrame(m, LinkElem(m, left, e));
  }

  lemma SetSlotMemory(m: Memory, st: nat, e: Ref, keys: set<Key>)
    requires MemoryOk(m, keys)
    requires st in m.stores && Member(m, e)
    requires var seen := Slot(m, st, Home(m, st, e)); seen == Nil || Hash(m.heap, e) < Hash(m.heap, seen)
    ensures var m' := SetSlot(m, st, Home(m, st, e), e);
      Extends(m, m') && MemoryOk(m', keys) && Indexed(m', st, e)
  {
    var h := Home(m, st, e);
    var m' := SetSlot(m, st, h, e);
    ListFrame(m, m', keys);
    assert forall st' :: Width(m', st') == Width(m, st');
    assert forall st', i :: Slot(m', st', i) == if st' == st && i == h then e else Slot(m, st', i);
    assert forall st', r :: Home(m', st', r) == Home(m, st', r);
    assert SlotsOk(m');
    assert Extends(m, m');
  }
}
