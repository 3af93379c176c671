/**
  The map of pkg/hashmap (hashmap.go, store.go) as one goroutine sees it: a sorted list,
  an index of slots into it, and resizes. Completed calls, in any order and with any
  hash collisions, behave like the plain finite map `View()`.

  A call that starts a resize is modelled together with that resize. The retry branches
  of the source (a failed swap, a store replaced under way) cannot be taken by a lone
  goroutine; their conditions appear as assertions.
*/
module SequentialMap {
  import opened Basics
  import opened PowerOfTwo
  import opened SortedList
  import opened SlotIndex

  const MAX_FILL_RATE := 50

  /** `isResizeNeeded` */
  predicate ResizeNeeded(size: nat, count: nat)
    requires size > 0
  {
    count * 100 / size > MAX_FILL_RATE
  }

  /** An index is found too full only while it has fewer slots than twice the elements. */
  lemma OverfullIsSmall(size: nat, count: nat)
    requires size > 0 && ResizeNeeded(size, count)
    ensures size < 2 * count
  {
    assert size * (count * 100 / size) <= count * 100;
    assert size * 51 <= size * (count * 100 / size);
  }

  lemma DoubleIsPow2(k: nat, m: nat)
    requires Pow2(k) <= Pow2(m)
    ensures IsPow2(2 * Pow2(k)) && 2 * Pow2(k) <= Pow2(m + 1)
  {
    assert 2 * Pow2(k) == Pow2(k + 1);
  }

  lemma ValuesGrow<V>(m: map<Key, V>, k: Key, v: V)
    requires k in m ==> m[k] == v
    ensures m[k := v].Values == m.Values + {v}
  {
    var m' := m[k := v];
    assert k in m' && m'[k] == v;
    forall x | x in m.Values ensures x in m'.Values {
      var l :| l in m && m[l] == x;
      assert l in m' && m'[l] == x;
    }
  }

  lemma ValuesShrink<V>(m: map<Key, V>, k: Key)
    requires k in m && forall l :: l in m && l != k ==> m[l] != m[k]
    ensures (m - {k}).Values == m.Values - {m[k]}
  {
    var m' := m - {k};
    forall x | x in m.Values - {m[k]} ensures x in m'.Values {
      var l :| l in m && m[l] == x;
      assert l in m' && m'[l] == x;
    }
  }

  lemma {:induction false} SmallerSet<T>(a: set<T>, b: set<T>)
    requires a <= b
    ensures |a| <= |b| && (a != b ==> |a| < |b|)
    decreases a
  {
    if a != {} {
      var x :| x in a;
      SmallerSet(a - {x}, b - {x});
      assert a == b <==> a - {x} == b - {x};
    }
  }

  lemma {:induction false} FewValues<T>(m: map<Key, T>)
    ensures |m.Values| <= |m|
    decreases |m|
  {
    if m == map[] {
      assert m.Values == {};
    } else {
      var k :| k in m;
      var r := m - {k};
      FewValues(r);
      assert m.Values == r.Values + {m[k]} by {
        assert forall l :: l in m ==> l == k || (l in r && r[l] == m[l]);
      }
      assert m.Keys == r.Keys + {k} && |m| == |r| + 1 by { CountKeys(m, k); }
    }
  }

  lemma CountKeys<T>(m: map<Key, T>, k: Key)
    requires k in m
    ensures m.Keys == (m - {k}).Keys + {k} && |m| == |m - {k}| + 1
  {
    var r := m - {k};
    assert m == r[k := m[k]];
    assert |m.Keys| == |m| && |r.Keys| == |r|;
  }

  function Max(a: nat, b: nat): nat {
    if a < b then b else a
  }

  /** The keys `Range` has shown to its callback, and those of them the callback deleted. */
  ghost function Shown<V>(visited: seq<(Key, V)>): set<Key> {
    set p | p in visited :: p.0
  }

  ghost function Dropped<V>(visited: seq<(Key, V)>, drop: (Key, V) -> bool): set<Key> {
    set p | p in visited && drop(p.0, p.1) :: p.0
  }

  ghost predicate Keyed<V>(elems: map<Key, Element<V>>) {
    forall k :: k in elems ==> elems[k].key == k
  }

  /** How far an iteration has come: shown are, in order, exactly the elements before `item`. */
  ghost predicate Progress<V>(elems: map<Key, Element<V>>, visited: seq<(Key, V)>, item: Element?<V>) {
    && (forall i :: 0 <= i < |visited| ==>
        visited[i].0 in elems && (item != null ==> elems[visited[i].0].rank < item.rank))
    && (forall i, j :: 0 <= i < j < |visited| ==> elems[visited[i].0].rank < elems[visited[j].0].rank)
    && (forall k :: k in elems && k !in Shown(visited) ==> item != null && item.rank <= elems[k].rank)
    && (item != null ==> item.key in elems && elems[item.key] == item)
  }

  /** What was shown is what the map held. */
  ghost predicate Right<V>(visited: seq<(Key, V)>, view: map<Key, V>) {
    forall i :: 0 <= i < |visited| ==> visited[i].0 in view && view[visited[i].0] == visited[i].1
  }

  ghost predicate Continued<V>(visited: seq<(Key, V)>, goOn: (Key, V) -> bool) {
    forall i :: 0 <= i < |visited| ==> goOn(visited[i].0, visited[i].1)
  }

  lemma RightStep<V>(visited: seq<(Key, V)>, view: map<Key, V>, goOn: (Key, V) -> bool, k: Key, v: V)
    requires Right(visited, view) && Continued(visited, goOn) && k in view && view[k] == v
    ensures Right(visited + [(k, v)], view)
    ensures goOn(k, v) ==> Continued(visited + [(k, v)], goOn)
    ensures !goOn(k, v) ==> Stopped(visited + [(k, v)], goOn)
  {
    assert (visited + [(k, v)])[..|visited|] == visited;
  }

  /** The callback said no, to the last element shown and to no other. */
  ghost predicate Stopped<V>(visited: seq<(Key, V)>, goOn: (Key, V) -> bool) {
    visited != [] && var (k, v) := visited[|visited| - 1]; !goOn(k, v) && Continued(visited[..|visited| - 1], goOn)
  }

  lemma ShownStep<V>(visited: seq<(Key, V)>, k: Key, v: V)
    ensures Shown(visited + [(k, v)]) == Shown(visited) + {k}
  {
    var visited' := visited + [(k, v)];
    assert (k, v) in visited';
    forall p | p in visited ensures p in visited' { }
  }

  lemma ProgressStep<V>(elems: map<Key, Element<V>>, gone: set<Key>, visited: seq<(Key, V)>, item: Element<V>, v: V,
      n: Element?<V>)
    requires Keyed(elems) && Ranked(elems.Values) && Progress(elems, visited, item)
    requires gone <= Shown(visited + [(item.key, v)]) && NextMember((elems - gone).Values, item, n)
    ensures Progress(elems, visited + [(item.key, v)], n)
  {
    hide Shown;
    ShownStep(visited, item.key, v);
    forall k | k in elems && k !in Shown(visited + [(item.key, v)]) ensures n != null && n.rank <= elems[k].rank {
      assert k in elems - gone && elems[k] in (elems - gone).Values && elems[k] in elems.Values;
      assert item in elems.Values && elems[k].key != item.key;
    }
    if n != null {
      var k :| k in elems - gone && (elems - gone)[k] == n;
    }
  }

  lemma MinusStep<T>(m: map<Key, T>, d: set<Key>, e: set<Key>)
    ensures (m - d) - e == m - (d + e)
  {
  }

  lemma ProgressStart<V>(elems: map<Key, Element<V>>, head: Element<V>, n: Element?<V>)
    requires Keyed(elems) && NextMember(elems.Values, head, n) && forall k :: k in elems ==> head.rank < elems[k].rank
    ensures Progress(elems, [], n)
  {
    forall k | k in elems ensures n != null && n.rank <= elems[k].rank {
      assert elems[k] in elems.Values;
    }
    if n != null { var k :| k in elems && elems[k] == n; }
  }

  ghost function From<V>(s: set<Element<V>>, r: real): set<Element<V>> {
    set e | e in s && r <= e.rank
  }

  lemma FromShrinks<V>(elems: map<Key, Element<V>>, visited: seq<(Key, V)>, item: Element<V>, v: V, n: Element?<V>)
    requires Progress(elems, visited, item) && Progress(elems, visited + [(item.key, v)], n)
    ensures n != null ==> From(elems.Values, n.rank) < From(elems.Values, item.rank)
  {
    hide Shown;
    assert (visited + [(item.key, v)])[|visited|].0 == item.key;
    assert item in From(elems.Values, item.rank);
  }

  lemma NoneShown<V>(view: map<Key, V>, goOn: (Key, V) -> bool)
    ensures Right([], view) && Continued<V>([], goOn)
  {
  }

  lemma NoneDropped<V>(elems: map<Key, Element<V>>, view: map<Key, V>, drop: (Key, V) -> bool)
    ensures elems - Dropped<V>([], drop) == elems && view - Dropped<V>([], drop) == view
  {
  }

  lemma DroppedStep<V>(visited: seq<(Key, V)>, k: Key, v: V, drop: (Key, V) -> bool)
    ensures Dropped(visited + [(k, v)], drop) == Dropped(visited, drop) + if drop(k, v) then {k} else {}
    ensures Dropped(visited + [(k, v)], drop) <= Shown(visited + [(k, v)])
  {
    var visited' := visited + [(k, v)];
    assert (k, v) in visited';
    forall p | p in visited ensures p in visited' { }
  }

  /** What Progress says once the iteration is over. */
  lemma RangeResult<V>(elems: map<Key, Element<V>>, visited: seq<(Key, V)>, item: Element?<V>)
    requires Progress(elems, visited, item) && Ranked(elems.Values)
    ensures forall i, j :: 0 <= i < j < |visited| ==>
      visited[i].0 in elems && visited[j].0 in elems && visited[i].0 != visited[j].0
      && elems[visited[i].0].keyHash <= elems[visited[j].0].keyHash
    ensures item == null ==> Shown(visited) == elems.Keys
  {
    forall i, j | 0 <= i < j < |visited|
      ensures elems[visited[i].0].keyHash <= elems[visited[j].0].keyHash
    {
      assert elems[visited[i].0] in elems.Values && elems[visited[j].0] in elems.Values;
    }
    forall k | k in Shown(visited) ensures k in elems {
      var p :| p in visited && p.0 == k;
    }
  }

  class Map<V> {
    const hasher: Key -> Hash
    var store: Store<V>
    const list: List<V>

    /** The elements of the map. */
    ghost function Members(): set<Element<V>>
      reads list`elems
    {
      list.elems.Values
    }

    /** Every element carries the hash of its key. */
    ghost predicate Hashed()
      reads list`elems
    {
      forall k :: k in list.elems ==> list.elems[k].keyHash == hasher(k)
    }

    /** The index serves the elements of the map. */
    ghost predicate Serves(st: Store<V>)
      reads st, st.slots, list`elems
    {
      && st.Sized()
      && Sound(st.slots[..], st.shift, Members()) && Complete(st.slots[..], st.shift, Members())
    }

    ghost predicate Valid()
      reads this, store, store.slots, list, list.repr
    {
      list.Valid() && Hashed() && Serves(store)
    }

    /** The finite map this map stands for. */
    ghost function View(): map<Key, V>
      requires list.Shape()
      reads list, list.repr
    {
      list.View()
    }

    /** `NewSized`: an empty map; a size of zero makes the source dereference a nil store. */
    constructor (size: nat, hasher: Key -> Hash)
      requires 1 <= size <= Pow2(WORD - 1)
      ensures Valid() && View() == map[] && this.hasher == hasher
      ensures fresh(list) && fresh(list.repr) && fresh(store) && fresh(store.slots)
      ensures list.count == 0 && store.count == 0 && store.slots.Length < 2 * size
    {
      hide Pow2, SlotOf, IsPow2, LeastAbove, List.Shape, List.View, Sound, Complete, Leading;
      Halves();
      var n := RoundUpPower2(size);
      var log := Log2(n);
      this.hasher := hasher;
      list := new List<V>();
      store := new Store<V>(log);
      new;
      NoMembers(store.slots[..], store.shift);
    }

    lemma NoMembers(slots: Slots<V>, shift: nat)
      requires list.elems == map[] && forall b :: 0 <= b < |slots| ==> slots[b] == null
      ensures Members() == {} && Sound(slots, shift, Members()) && Complete(slots, shift, Members())
    {
      EmptyIndex(slots, shift, Members());
    }

    // ---------- the list seen as a set of members ----------

    lemma MemberIsLinked(e: Element<V>)
      requires list.Shape() && e in Members()
      ensures e in list.linked && e in list.repr && e != list.head && !e.deleted
      ensures e.key in list.elems && list.elems[e.key] == e && e.value.Some?
      ensures list.head.rank < e.rank
    {
    }

    lemma LinkedIsMember(e: Element<V>)
      requires list.Shape() && e in list.linked && e in list.repr && e != list.head && !e.deleted
      ensures e in Members() && e.key in list.elems && list.elems[e.key] == e
    {
      list.ElemKey(e);
    }

    lemma MembersRanked()
      requires list.Shape()
      ensures Ranked(Members())
    {
      hide List.Chained;
      forall e | e in Members() ensures e in list.linked && e != list.head { MemberIsLinked(e); }
    }

    /** After e has been walked over, its next is the next member. */
    lemma NextIsMember(e: Element<V>)
      requires list.Shape() && e in list.repr && list.Nearest(e) && (e.next != null ==> !e.next.deleted)
      requires e == list.head || e.rank >= list.head.rank
      ensures NextMember(Members(), e, e.next)
    {
      hide List.Chained, List.Mapped;
      forall q | q in Members() ensures q in list.linked && q in list.repr { MemberIsLinked(q); }
      if e.next != null { LinkedIsMember(e.next); }
    }

    /**
      `e.Next()` for a member, for the head, or for an element just deleted: the next member.
      Nothing changes but that marked elements may be unlinked.
    */
    method Advance(e: Element<V>) returns (n: Element?<V>)
      requires list.Shape()
      requires e == list.head || e in Members() || (e in list.repr && JustDeleted(e))
      modifies list`linked, list.repr`next
      ensures list.Shape() && View() == old(View())
      ensures NextMember(Members(), e, n) && e.next == n
    {
      hide List.Chained, List.Mapped, Ordered;
      if e in Members() { MemberIsLinked(e); }
      ghost var linked := e in list.linked;
      n := list.Next(e);
      if linked { list.NextIsNearest(e); }
      NextIsMember(e);
    }

    /** What `Del` leaves in the deleted element, for an iteration to go on from. */
    ghost predicate JustDeleted(e: Element<V>)
      reads list`linked, list`repr, list.repr, e
    {
      e.deleted && list.Nearest(e) && e.rank > list.head.rank &&
          (e.next != null ==> e.next in list.repr && !e.next.deleted)
    }

    /** Where a search for the key stands: at a member not past its element, or already too far. */
    ghost predicate OnTheWay(element: Element?<V>, key: Key)
      reads list`elems
    {
      && (element != null && element.keyHash <= hasher(key) ==> element in Members())
      && (key in list.elems ==>
            element != null && element.keyHash <= hasher(key) && element.rank <= list.elems[key].rank)
    }

    /** `store.item(hash)` */
    method Start(key: Key) returns (element: Element?<V>)
      requires Valid()
      ensures OnTheWay(element, key) && list.GoodStart(element, hasher(key))
    {
      hide SlotOf, List.Shape, Covers, Sound, Complete, Ranked;
      MembersRanked();
      element := store.Item(hasher(key));
      if element != null && element.keyHash <= hasher(key) {
        SlotLeadsTo(store.slots[..], store.shift, Members(), hasher(key), element);
        MemberIsLinked(element);
        forall e | e in list.linked && e in list.repr && e != list.head && !e.deleted ensures e in Members() {
          LinkedIsMember(e);
        }
      }
      if key in list.elems { SlotBefore(store.slots[..], store.shift, Members(), list.elems[key]); }
    }

    /** The loop of `Get` and `Del`: from the key's slot to its element, or to null if there is none. */
    method Find(key: Key) returns (element: Element?<V>)
      requires Valid()
      modifies list`linked, list.repr`next
      ensures Valid() && View() == old(View())
      ensures element == if key in list.elems then list.elems[key] else null
    {
      hide List.Shape, List.View, Serves;
      element := Start(key);
      while element != null
        invariant Valid() && View() == old(View()) && OnTheWay(element, key)
        decreases element != null, if element == null then {} else After(element)
      {
        if element.keyHash == hasher(key) && element.key == key {
          MemberIsLinked(element);
          return;
        }
        if element.keyHash > hasher(key) {
          return null;
        }
        ghost var last := element;
        element := Advance(element);
        if key in list.elems { StillAhead(last, element, key); }
        if element != null { AfterShrinks(last, element); }
      }
    }

    lemma AfterShrinks(last: Element<V>, n: Element<V>)
      requires n in Members() && last.rank < n.rank
      ensures After(n) < After(last)
    {
      assert n in After(last);
    }

    ghost function After(e: Element<V>): set<Element<V>>
      reads list`elems
    {
      set q | q in Members() && e.rank < q.rank
    }

    /** Stepping to the next member does not step over the element of a key. */
    lemma StillAhead(last: Element<V>, n: Element?<V>, key: Key)
      requires list.Shape() && Hashed() && key in list.elems && last in Members() && NextMember(Members(), last, n)
      requires last.rank <= list.elems[key].rank && !(last.keyHash == hasher(key) && last.key == key)
      ensures n != null && n.keyHash <= hasher(key) && n.rank <= list.elems[key].rank
    {
      hide List.Shape;
      MembersRanked();
      var x := list.elems[key];
      list.KeyElem(key);
      assert last != x;
    }

    /** `Get`: the value of the key, if it has one. Only marked elements may be unlinked on the way. */
    method Get(key: Key) returns (v: Option<V>)
      requires Valid()
      modifies list`linked, list.repr`next
      ensures Valid() && View() == old(View())
      ensures v == if key in View() then Some(View()[key]) else None
    {
      hide SlotOf, List.Shape, Covers, Sound, Complete;
      var element := Find(key);
      if element == null {
        return None;
      }
      list.KeyElem(key);
      return element.value;
    }

    // ---------- resizing ----------

    /** One turn of the fill: the element is placed unless its slot was filled just before. */
    method FillOne(st: Store<V>, item: Element<V>, isFirst: bool, lastIndex: nat) returns (index: nat)
      requires list.Shape() && Hashed() && st.Sized() && item in Members()
      requires Sound(st.slots[..], st.shift, Members()) && Leading(st.slots[..], st.shift, Members())
      requires Complete(st.slots[..], st.shift, Before(Members(), item.rank))
      requires !isFirst && SlotOf(item.keyHash, st.shift) == lastIndex ==> Covers(st.slots[..], st.shift, item)
      modifies st`count, st.slots
      ensures Sound(st.slots[..], st.shift, Members()) && Leading(st.slots[..], st.shift, Members())
      ensures Complete(st.slots[..], st.shift, Before(Members(), item.rank) + {item}) && st.count <= old(st.count) + 1
      ensures index == SlotOf(item.keyHash, st.shift)
    {
      hide SlotOf, List.Shape, Covers, Sound, Leading;
      index := SlotOf(item.keyHash, st.shift);
      if isFirst || index != lastIndex {
        MembersRanked();
        MemberIsLinked(item);
        SlotInRange(item.keyHash, st.shift);
        PlaceNext(st.slots[..], st.shift, Members(), item);
        var _ := st.AddItem(item);
      }
    }

    /** `fillIndexItems`: the index serves the map afterwards. */
    method FillIndexItems(st: Store<V>)
      requires list.Shape() && Hashed() && st.Sized()
      requires Sound(st.slots[..], st.shift, Members()) && Leading(st.slots[..], st.shift, Members())
      modifies list`linked, list.repr`next, st`count, st.slots
      ensures list.Shape() && View() == old(View()) && Serves(st)
      ensures Leading(st.slots[..], st.shift, Members()) && st.count <= old(st.count) + |Members()|
    {
      hide SlotOf, List.Shape, List.View, Covers, Sound, Leading, Complete, Hashed;
      var item := Advance(list.head);
      BeforeFirst(item, st);
      if item != null { SmallerSet(After(item), Members()); }
      var isFirst, lastIndex := true, 0;
      while item != null
        invariant list.Shape() && View() == old(View())
        invariant Sound(st.slots[..], st.shift, Members()) && Leading(st.slots[..], st.shift, Members())
        invariant item != null ==> item in Members() && Complete(st.slots[..], st.shift, Before(Members(), item.rank))
        invariant item == null ==> Complete(st.slots[..], st.shift, Members())
        invariant st.count + (if item == null then 0 else |After(item)| + 1) <= old(st.count) + |Members()|
        invariant item != null && !isFirst && SlotOf(item.keyHash, st.shift) == lastIndex ==>
            Covers(st.slots[..], st.shift, item)
        decreases item != null, if item == null then {} else After(item)
      {
        ghost var last := item;
        lastIndex := FillOne(st, item, isFirst, lastIndex);
        isFirst := false;
        item := Advance(item);
        FillOn(st, last, item);
        if item != null {
          AfterShrinks(last, item);
          SmallerSet(After(item), After(last));
        }
      }
    }

    /** Before the first member there is nothing to cover. */
    lemma BeforeFirst(item: Element?<V>, st: Store<V>)
      requires list.Shape() && NextMember(Members(), list.head, item)
      ensures if item == null then Complete(st.slots[..], st.shift, Members())
              else Complete(st.slots[..], st.shift, Before(Members(), item.rank))
    {
      hide List.Shape, SlotOf, Covers;
      forall e | e in Members() ensures list.head.rank < e.rank { MemberIsLinked(e); }
    }

    /** The members before the next one are those before this one, and this one. */
    lemma FillOn(st: Store<V>, last: Element<V>, item: Element?<V>)
      requires list.Shape() && last in Members() && NextMember(Members(), last, item)
      requires Complete(st.slots[..], st.shift, Before(Members(), last.rank) + {last})
      ensures if item == null then Complete(st.slots[..], st.shift, Members())
              else Complete(st.slots[..], st.shift, Before(Members(), item.rank))
      ensures item != null && SlotOf(item.keyHash, st.shift) == SlotOf(last.keyHash, st.shift) ==>
        Covers(st.slots[..], st.shift, item)
    {
      hide List.Shape, SlotOf;
      MembersRanked();
      assert Covers(st.slots[..], st.shift, last);
    }

    /** One round of `grow`: a new index of n slots is filled, published, and filled again. */
    method Replace(n: nat)
      requires Valid() && IsPow2(n) && n <= Pow2(WORD - 1)
      modifies `store, list`linked, list.repr`next
      ensures Valid() && View() == old(View())
      ensures fresh(store) && fresh(store.slots) && store.slots.Length == n && store.count <= 2 * list.count
    {
      hide SlotOf, List.Shape, List.View, Covers, Pow2, Sound, Leading, Complete, Hashed;
      FewValues(list.elems);
      var log := Log2(n);
      var newStore := new Store<V>(log);
      EmptyIndex(newStore.slots[..], newStore.shift, Members());
      FillIndexItems(newStore);
      store := newStore;
      FillIndexItems(newStore);
    }

    /** The size `grow` begins with. */
    method NewSize(newSize: nat) returns (n: nat)
      requires store.Sized() && newSize <= Pow2(WORD - 1) && store.slots.Length <= Pow2(WORD - 2)
      ensures IsPow2(n) && n <= Pow2(WORD - 1)
      ensures newSize == 0 ==> n == 2 * store.slots.Length
      ensures newSize > 0 ==> newSize <= n < 2 * newSize
    {
      hide Pow2, IsPow2, LeastAbove;
      Halves();
      if newSize == 0 {
        DoubleIsPow2(WORD - store.shift, WORD - 2);
        n := store.slots.Length * 2;
      } else {
        n := RoundUpPower2(newSize);
      }
    }

    /**
      `grow`: to the given size rounded up, or to twice the size when given 0; with `loop`,
      doubled on until the fill rate is at most 50.
    */
    method Grow(newSize: nat, loop: bool)
      requires Valid() && newSize <= Pow2(WORD - 1)
      requires store.slots.Length <= Pow2(WORD - 2) && list.count <= Pow2(WORD - 3)
      modifies `store, list`linked, list.repr`next
      ensures Valid() && View() == old(View())
      ensures fresh(store) && fresh(store.slots)
      ensures loop ==> !ResizeNeeded(store.slots.Length, list.count)
      ensures newSize > 0 ==> store.slots.Length >= newSize
      ensures newSize == 0 ==> store.slots.Length >= 2 * old(store.slots.Length)
      ensures store.count <= 2 * list.count
      ensures store.slots.Length <= Max(2 * (if newSize == 0 then old(store.slots.Length) else newSize), 4 * list.count)
    {
      hide List.Shape, List.View, Sound, Complete, ResizeNeeded, Pow2, IsPow2, Hashed, Members;
      PowSucc(WORD - 3);
      var n := NewSize(newSize);
      Replace(n);
      while loop && ResizeNeeded(store.slots.Length, list.count)
        invariant Valid() && View() == old(View())
        invariant fresh(store) && fresh(store.slots) && n <= store.slots.Length <= Max(n, 4 * list.count)
        invariant store.count <= 2 * list.count
        decreases 2 * list.count - store.slots.Length
      {
        OverfullIsSmall(store.slots.Length, list.count);
        DoubleIsPow2(WORD - store.shift, WORD - 2);
        Replace(store.slots.Length * 2);
      }
    }

    // ---------- insertion ----------

    /** An index of this size can still double, and the map is small enough for a fitting index to exist. */
    ghost predicate Roomy()
      reads this, store, list
    {
      store.slots.Length <= Pow2(WORD - 2) && list.count < Pow2(WORD - 3)
    }

    /**
      What an insertion may do to the index: use one more slot, or replace it by one that is not much larger than
      needed.
    */
    twostate predicate Entered()
      reads this, store, list
    {
      if store == old(store) then store.count <= old(store.count) + 1
      else
        && fresh(store) && fresh(store.slots) && store.count <= 2 * list.count
        && store.slots.Length <= 4 * Max(old(store.count) + 1, list.count)
    }

    /** The tail of every insertion: `addItem`, then a resize if too many slots are in use. */
    method Enter(element: Element<V>, ghost before: set<Element<V>>)
      requires list.Valid() && Hashed() && store.Sized() && Members() == before + {element}
      requires element in before || LastOfHash(before, element)
      requires Sound(store.slots[..], store.shift, before) && Complete(store.slots[..], store.shift, before)
      requires store.slots.Length <= Pow2(WORD - 2) && list.count <= Pow2(WORD - 3)
      modifies `store, store`count, store.slots, list`linked, list.repr`next
      ensures Valid() && View() == old(View()) && Entered()
    {
      hide SlotOf, List.Shape, List.View, Sound, Complete, Pow2, ResizeNeeded, Ranked, LastOfHash;
      MembersRanked();
      MemberIsLinked(element);
      SlotInRange(element.keyHash, store.shift);
      if element in before {
        assert before == before + {element};
        PlaceAgain(store.slots[..], store.shift, before, element);
      } else {
        PlaceNew(store.slots[..], store.shift, before, element);
      }
      var count := store.AddItem(element);
      if ResizeNeeded(store.slots.Length, count) {
        OverfullIsSmall(store.slots.Length, count);
        Grow(0, true);
      }
    }

    /** `linkedList.Add` from the key's slot. */
    method AddToList(key: Key, value: V) returns (element: Element<V>, existed: bool)
      requires Valid()
      modifies list`linked, list`elems, list`repr, list`count, list.repr`next
      ensures list.Valid() && Hashed() && fresh(list.repr - old(list.repr))
      ensures existed <==> key in old(list.elems)
      ensures existed ==> list.elems == old(list.elems) && element == list.elems[key]
      ensures !existed ==> list.elems == old(list.elems)[key := element] && element.value == Some(value)
      ensures !existed ==> Members() == old(Members()) + {element} && LastOfHash(old(Members()), element)
    {
      hide SlotOf, List.Shape, List.View, Serves;
      var searchStart := Start(key);
      forall e | e in Members() ensures e in list.linked && e in list.repr && !e.deleted { MemberIsLinked(e); }
      var inserted;
      ghost var elems := list.elems;
      element, existed, inserted := list.Add(searchStart, hasher(key), key, value);
      assert existed || inserted;
      ValuesGrow(elems, key, element);
    }

    /** What adding an element does to the finite map. */
    method AddViewed(key: Key, value: V) returns (element: Element<V>, existed: bool)
      requires Valid()
      modifies list`linked, list`elems, list`repr, list`count, list.repr`next
      ensures list.Valid() && Hashed() && fresh(list.repr - old(list.repr))
      ensures existed <==> key in old(View())
      ensures existed ==> Members() == old(Members()) && View() == old(View()) && element.value == Some(View()[key])
      ensures !existed ==> View() == old(View())[key := value] && list.count == old(list.count) + 1
      ensures !existed ==> Members() == old(Members()) + {element} && LastOfHash(old(Members()), element)
    {
      hide List.Shape, Serves, LastOfHash, Hashed, Members;
      if key in list.elems { list.KeyElem(key); }
      element, existed := AddToList(key, value);
    }

    /** The loop of `Insert` and `GetOrInsert`. */
    method AddAndEnter(key: Key, value: V) returns (v: V, existed: bool)
      requires Valid() && Roomy()
      modifies `store, store`count, store.slots
      modifies list`linked, list`elems, list`repr, list`count, list.repr`next
      ensures Valid() && fresh(list.repr - old(list.repr)) && Entered()
      ensures existed <==> key in old(View())
      ensures View() == if existed then old(View()) else old(View())[key := value]
      ensures v == View()[key]
    {
      hide List.Shape, List.View, Sound, Complete, Pow2, LastOfHash, Hashed, Members;
      ghost var before := Members();
      var element;
      element, existed := AddViewed(key, value);
      if existed {
        return element.value.value, true;
      }
      Enter(element, before);
      return value, false;
    }

    /** `Insert`: false if the key is there already, else the key gets the value. */
    method Insert(key: Key, value: V) returns (inserted: bool)
      requires Valid() && Roomy()
      modifies `store, store`count, store.slots
      modifies list`linked, list`elems, list`repr, list`count, list.repr`next
      ensures Valid() && fresh(list.repr - old(list.repr)) && Entered()
      ensures inserted <==> key !in old(View())
      ensures View() == if inserted then old(View())[key := value] else old(View())
    {
      hide Valid, List.Shape, List.View;
      var _, existed := AddAndEnter(key, value);
      return !existed;
    }

    /** `GetOrInsert`: the value the key has, else the key gets the value; tells which. */
    method GetOrInsert(key: Key, value: V) returns (v: V, existed: bool)
      requires Valid() && Roomy()
      modifies `store, store`count, store.slots
      modifies list`linked, list`elems, list`repr, list`count, list.repr`next
      ensures Valid() && fresh(list.repr - old(list.repr)) && Entered()
      ensures existed <==> key in old(View())
      ensures View() == if existed then old(View()) else old(View())[key := value]
      ensures v == View()[key]
    {
      hide List.Shape, List.View, Serves, Hashed, Members;
      v, existed := AddAndEnter(key, value);
    }

    /** `linkedList.AddOrUpdate` from the key's slot. */
    method AddOrUpdate(key: Key, value: V) returns (element: Element<V>)
      requires Valid()
      modifies list`linked, list`elems, list`repr, list`count, list.repr`next, list.repr`value
      ensures list.Valid() && Hashed() && fresh(list.repr - old(list.repr))
      ensures list.elems == old(list.elems)[key := element] && element.value == Some(value)
      ensures forall e :: e in old(list.repr) && e != element ==> e.value == old(e.value)
      ensures Members() == old(Members()) + {element} && list.count <= old(list.count) + 1
      ensures element in old(Members()) || LastOfHash(old(Members()), element)
    {
      hide SlotOf, List.Shape, List.View, Serves;
      var searchStart := Start(key);
      forall e | e in Members() ensures e in list.linked && e in list.repr && !e.deleted { MemberIsLinked(e); }
      ghost var elems := list.elems;
      var added;
      element, added := list.AddOrUpdate(searchStart, hasher(key), key, value);
      assert added;
      ValuesGrow(elems, key, element);
    }

    /** What overwriting or adding does to the finite map. */
    method UpdateViewed(key: Key, value: V) returns (element: Element<V>)
      requires Valid()
      modifies list`linked, list`elems, list`repr, list`count, list.repr`next, list.repr`value
      ensures list.Valid() && Hashed() && fresh(list.repr - old(list.repr))
      ensures View() == old(View())[key := value]
      ensures Members() == old(Members()) + {element} && list.count <= old(list.count) + 1
      ensures element in old(Members()) || LastOfHash(old(Members()), element)
    {
      hide List.Shape, Serves, LastOfHash, Hashed, Members;
      forall k | k in list.elems ensures list.elems[k] in list.repr { list.KeyElem(k); }
      element := AddOrUpdate(key, value);
      forall k | k in list.elems && k != key ensures list.elems[k] != element {
        list.KeyElem(k);
        list.KeyElem(key);
      }
    }

    /** `Set`: the key gets the value. */
    method Set(key: Key, value: V)
      requires Valid() && Roomy()
      modifies `store, store`count, store.slots
      modifies list`linked, list`elems, list`repr, list`count, list.repr`next, list.repr`value
      ensures Valid() && fresh(list.repr - old(list.repr)) && Entered()
      ensures View() == old(View())[key := value]
    {
      hide List.Shape, List.View, Sound, Complete, Pow2, LastOfHash, Hashed, Members;
      ghost var before := Members();
      var element := UpdateViewed(key, value);
      Enter(element, before);
    }

    // ---------- deletion ----------

    /**
      `deleteElement`: a slot that leads to the element is moved on to the next one. That
      may be an element of a later bucket: the source's test against this never fires.
    */
    method DeleteElement(element: Element<V>)
      requires Valid() && element in Members()
      modifies store.slots, list`linked, list.repr`next
      ensures list.Valid() && View() == old(View())
      ensures Sound(store.slots[..], store.shift, Members() - {element})
      ensures Complete(store.slots[..], store.shift, Members() - {element})
    {
      hide List.Shape, List.View, Sound, Complete, Ranked, NextMember, GivenUp;
      MemberHash(element);
      MembersRanked();
      var next := Advance(element);
      GiveUpSlot(store.slots[..], store.shift, Members(), element, next);
      store.GiveUp(element, next);
    }

    lemma MemberHash(e: Element<V>)
      requires list.Shape() && Hashed() && e in Members()
      ensures e.keyHash == hasher(e.key)
    {
      MemberIsLinked(e);
    }

    /** The two parts of a deletion: from the index, then from the list. */
    method Remove(element: Element<V>)
      requires Valid() && element in Members()
      modifies store.slots, list`linked, list`elems, list`count, list.repr`next, element`deleted
      ensures Valid() && list.elems == old(list.elems) - {element.key} && JustDeleted(element)
    {
      hide SlotOf, List.Shape, List.View, List.Nearest, Sound, Complete, Covers;
      MemberIsLinked(element);
      DeleteElement(element);
      MemberIsLinked(element);
      forall k | k in list.elems && k != element.key ensures list.elems[k] != element { list.KeyElem(k); }
      ValuesShrink(list.elems, element.key);
      list.Delete(element);
    }

    /** What a deletion does to the finite map. */
    method RemoveViewed(element: Element<V>)
      requires Valid() && element in Members()
      modifies store.slots, list`linked, list`elems, list`count, list.repr`next, element`deleted
      ensures Valid() && list.elems == old(list.elems) - {element.key} && JustDeleted(element)
      ensures View() == old(View()) - {element.key}
    {
      hide List.Shape, Serves, JustDeleted, Hashed;
      Remove(element);
      assert View().Keys == old(View()).Keys - {element.key};
    }

    /** `Del`: tells whether the key was there; it no longer is. */
    method Del(key: Key) returns (deleted: bool)
      requires Valid()
      modifies store.slots, list`linked, list`elems, list`count, list.repr`next, list.repr`deleted
      ensures Valid() && View() == old(View()) - {key} && list.elems == old(list.elems) - {key}
      ensures deleted <==> key in old(View())
      ensures key in old(list.elems) ==> JustDeleted(old(list.elems)[key])
    {
      hide List.Shape, Serves, JustDeleted;
      var element := Find(key);
      if element == null {
        return false;
      }
      list.KeyElem(key);
      RemoveViewed(element);
      return true;
    }

    /** `Len` */
    method Len() returns (n: nat)
      requires Valid()
      ensures n == |View()|
    {
      CountsKeys();
      n := list.count;
    }

    lemma CountsKeys()
      requires Valid()
      ensures list.count == |View()|
    {
      assert View().Keys == list.elems.Keys;
    }

    // ---------- iteration ----------

    /** One visit of `Range` whose callback may delete the key it is shown; then `item.Next()`. */
    method Visit(item: Element<V>, drop: bool) returns (n: Element?<V>)
      requires Valid() && item in Members()
      modifies store.slots, list`linked, list`elems, list`count, list.repr`next, list.repr`deleted
      ensures Valid()
      ensures list.elems == if drop then old(list.elems) - {item.key} else old(list.elems)
      ensures View() == if drop then old(View()) - {item.key} else old(View())
      ensures NextMember(Members(), item, n)
    {
      hide List.Shape, List.View, Serves, JustDeleted, NextMember, Hashed;
      MemberIsLinked(item);
      if drop {
        var _ := Del(item.key);
      }
      n := Advance(item);
    }

    /**
      `Range`, with a callback that notes what it is shown, deletes the key when `drop`
      says so, and stops the iteration when `goOn` says no.
    */
    method Range(goOn: (Key, V) -> bool, drop: (Key, V) -> bool) returns (visited: seq<(Key, V)>)
      requires Valid()
      modifies store.slots, list`linked, list`elems, list`count, list.repr`next, list.repr`deleted
      ensures Valid() && Right(visited, old(View()))
      ensures forall i, j :: 0 <= i < j < |visited| ==>
        visited[i].0 != visited[j].0 && hasher(visited[i].0) <= hasher(visited[j].0)
      ensures Stopped(visited, goOn) || (Continued(visited, goOn) && Shown(visited) == old(View()).Keys)
      ensures View() == old(View()) - Dropped(visited, drop)
    {
      hide List.Shape, List.View, Serves, NextMember, Ranked, Keyed, Progress, Shown, Dropped, Continued, Stopped,
          Right;
      ghost var elems := list.elems;
      MembersRanked();
      Facts();
      ghost var item;
      visited, item := RangeLoop(goOn, drop);
      RangeResult(elems, visited, item);
    }

    /** An iteration that began with these elements and has shown these stands at `item`. */
    ghost predicate Ranging(elems: map<Key, Element<V>>, view: map<Key, V>, visited: seq<(Key, V)>, item: Element?<V>,
        drop: (Key, V) -> bool)
      reads this, store, store.slots, list, list.repr
    {
      && Valid() && Keyed(elems) && Ranked(elems.Values) && Progress(elems, visited, item)
      && list.elems == elems - Dropped(visited, drop) && View() == view - Dropped(visited, drop)
    }

    /** The loop of `Range`; it ends before `last`. */
    method RangeLoop(goOn: (Key, V) -> bool, drop: (Key, V) -> bool) returns (visited: seq<(Key, V)>,
        ghost last: Element?<V>)
      requires Valid()
      modifies store.slots, list`linked, list`elems, list`count, list.repr`next, list.repr`deleted
      ensures Ranging(old(list.elems), old(View()), visited, last, drop) && Right(visited, old(View()))
      ensures Stopped(visited, goOn) || (Continued(visited, goOn) && last == null)
    {
      hide Ranging, Hashed, List.Shape, List.View, Serves, Continued, Stopped, Right;
      ghost var elems, view := list.elems, View();
      visited := [];
      NoneShown(view, goOn);
      var item := RangeStart(drop);
      while item != null
        invariant Ranging(elems, view, visited, item, drop) && Right(visited, view) && Continued(visited, goOn)
        decreases item != null, if item == null then {} else From(elems.Values, item.rank)
      {
        ItemShown(elems, view, visited, item, drop);
        var key, value := item.key, item.value.value;
        item := Turn(elems, view, visited, item, drop);
        RightStep(visited, view, goOn, key, value);
        visited := visited + [(key, value)];
        if !goOn(key, value) {
          return visited, item;
        }
      }
      last := null;
    }

    method RangeStart(drop: (Key, V) -> bool) returns (item: Element?<V>)
      requires Valid()
      modifies list`linked, list.repr`next
      ensures Ranging(old(list.elems), old(View()), [], item, drop)
    {
      hide List.Shape, List.View, Serves, NextMember, Ranked, Keyed, Progress, Dropped, Hashed;
      MembersRanked();
      Facts();
      NoneDropped(list.elems, View(), drop);
      item := Advance(list.head);
      ProgressStart(list.elems, list.head, item);
    }

    /** One turn of `Range`. */
    method Turn(ghost elems: map<Key, Element<V>>, ghost view: map<Key, V>, ghost visited: seq<(Key, V)>,
                item: Element<V>, drop: (Key, V) -> bool) returns (n: Element?<V>)
      requires Ranging(elems, view, visited, item, drop)
      modifies store.slots, list`linked, list`elems, list`count, list.repr`next, list.repr`deleted
      ensures item.value == old(item.value) && item.value.Some?
      ensures item.key in view && view[item.key] == item.value.value
      ensures Ranging(elems, view, visited + [(item.key, item.value.value)], n, drop)
      ensures n != null ==> From(elems.Values, n.rank) < From(elems.Values, item.rank)
    {
      hide List.Shape, List.View, Serves, NextMember, Ranked, Keyed, Progress, Shown, Dropped;
      ItemShown(elems, view, visited, item, drop);
      ghost var gone, v := Dropped(visited, drop), item.value.value;
      n := Visit(item, drop(item.key, item.value.value));
      DroppedStep(visited, item.key, v, drop);
      ghost var more := if drop(item.key, v) then {item.key} else {};
      MinusStep(elems, gone, more);
      MinusStep(view, gone, more);
      ProgressStep(elems, gone + more, visited, item, v, n);
      FromShrinks(elems, visited, item, v, n);
    }

    lemma Facts()
      requires list.Shape()
      ensures Keyed(list.elems) && forall k :: k in list.elems ==> list.head.rank < list.elems[k].rank
      ensures View().Keys == list.elems.Keys
    {
      hide List.Shape;
      forall k | k in list.elems ensures list.elems[k].key == k && list.head.rank < list.elems[k].rank {
        list.KeyElem(k);
        MemberIsLinked(list.elems[k]);
      }
    }

    /** The element an iteration stands at is still in the map, with its value. */
    lemma ItemShown(elems: map<Key, Element<V>>, view: map<Key, V>, visited: seq<(Key, V)>, item: Element<V>,
        drop: (Key, V) -> bool)
      requires Ranging(elems, view, visited, item, drop)
      ensures item in Members() && item in list.repr && item.value.Some?
      ensures item.key in View() && View()[item.key] == item.value.value
      ensures item.key in view && view[item.key] == item.value.value
    {
      hide List.Shape, Serves;
      assert item.key !in Dropped(visited, drop);
      list.KeyElem(item.key);
    }
  }
}
