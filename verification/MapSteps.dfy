/**
  The lock-free map of pkg/hashmap as a step machine: any number of goroutines run
  `Insert` (whose loop `GetOrInsert` shares), `Set` and `Get`, while at most one goroutine
  runs `grow`. Every step is one atomic access to shared memory (a load, a store, a
  compare-and-swap) together with the local computation that follows it.

  Whether a finished insert triggers a resize, and the width a resize picks, is left
  open: `StartGrow` may happen whenever the `resizing` flag is clear. This covers the
  fill-rate test and the public `Grow(newSize)`.
*/
module MapSteps {

  type Key = string

  /** Values are only stored and loaded, so any type would do; Get returns the zero value when it finds nothing. */
  type Value = int

  const ZERO: Value := 0

  /** The address of a list element. */
  type Ref = nat

  const Nil: Ref := 0
  const Head: Ref := 1

  /** `hash` is the hash of `key`; the head element carries -1, below every hash. */
  datatype Elem = Elem(key: Key, hash: int, next: Ref, value: Value)

  /** An index: `width` consecutive hashes share a slot; a slot that is absent holds nil. */
  datatype Store = Store(width: nat, slots: map<nat, Ref>)

  datatype Pc =
    // Insert: before the element is linked
    | Start                                        // about to load m.store
    | LoadSlot(store: nat)                         // about to load the slot of the key
    | LoadFirst(store: nat)                        // about to load head.next
    | Advance(store: nat, left: Ref)               // about to load left.next
    | Link(store: nat, left: Ref, right: Ref)      // about to swap left.next from right to the new element
    // Insert: after the element is linked
    | Tally(store: nat)                            // about to add one to the list counter
    | Index(store: nat, at: Ref)                   // addItem: about to load the slot of the element `at`
    | IndexSwap(store: nat, at: Ref, seen: Ref)    // addItem: about to swap the slot from seen to the element
    | Recheck(store: nat, at: Ref)                 // about to compare the store used with m.store
    | Reload                                       // the store changed: about to load m.store again
    // Set has found the element of its key
    | Update(store: nat, at: Ref)                  // about to store the value
    // Get; `visible` remembers whether the key was indexed when the store was loaded
    | GetStart
    | GetSlot(store: nat, visible: bool)
    | GetNext(at: Ref, visible: bool)              // about to load at.next
    | GetValue(at: Ref, visible: bool)             // about to load the value of at
    | GetDone(found: bool, visible: bool, value: Value)
    // Insert or Set has returned; `at` is the element of the key, `inserted` tells whether this call has linked it
    | Done(inserted: bool, at: Ref)

  /** One call: a Set, or an Insert or a Get. `elem` is the element it has allocated, or Nil; a Get has no `value`. */
  datatype Thread = Thread(key: Key, pc: Pc, elem: Ref, isSet: bool, value: Value)

  /**
    The goroutine running `grow`. `store` is the index being built, `base` the elements
    that were indexed when it started, `second` tells the fill after publication from
    the one before.
  */
  datatype Grower =
    | Idle
    | FillFirst(store: nat, base: set<Ref>, second: bool)
    | FillAt(store: nat, base: set<Ref>, second: bool, item: Ref, isFirst: bool, last: nat)
    | FillSwap(store: nat, base: set<Ref>, second: bool, item: Ref, isFirst: bool, last: nat, seen: Ref)
    | FillNext(store: nat, base: set<Ref>, second: bool, item: Ref, last: nat)
    | Publish(store: nat, base: set<Ref>)
    | Decide(base: set<Ref>)

  type Heap = map<Ref, Elem>

  /** Shared memory. `linked` holds Head and every element whose linking swap has succeeded. */
  datatype Memory = Memory(hasher: Key -> nat, heap: Heap, nextRef: Ref, linked: set<Ref>, stores: map<nat, Store>)

  datatype State = State(m: Memory, cur: nat, count: int, grower: Grower, threads: map<nat, Thread>)

  // ---------- memory ----------

  function At(heap: Heap, r: Ref): Elem {
    if r in heap then heap[r] else Elem("", -1, Nil, ZERO)
  }

  function Hash(heap: Heap, r: Ref): int {
    At(heap, r).hash
  }

  function Next(heap: Heap, r: Ref): Ref {
    At(heap, r).next
  }

  function Bucket(hash: int, width: nat): nat {
    if width == 0 || hash < 0 then 0 else hash / width
  }

  function Width(m: Memory, st: nat): nat {
    if st in m.stores then m.stores[st].width else 0
  }

  function Slot(m: Memory, st: nat, i: nat): Ref {
    if st in m.stores && i in m.stores[st].slots then m.stores[st].slots[i] else Nil
  }

  /** The slot in which element e belongs. */
  function Home(m: Memory, st: nat, e: Ref): nat {
    Bucket(Hash(m.heap, e), Width(m, st))
  }

  function SetSlot(m: Memory, st: nat, i: nat, r: Ref): Memory {
    if st in m.stores
    then m.(stores := m.stores[st := m.stores[st].(slots := m.stores[st].slots[i := r])])
    else m
  }

  /** Does the slot of store st for e hold an element at or before e? */
  predicate Indexed(m: Memory, st: nat, e: Ref) {
    var seen := Slot(m, st, Home(m, st, e));
    seen != Nil && Hash(m.heap, seen) <= Hash(m.heap, e)
  }

  /** A fresh element; its next is stored before it is linked. */
  function NewElem(m: Memory, key: Key, value: Value, next: Ref): Memory {
    m.(heap := m.heap[m.nextRef := Elem(key, m.hasher(key), next, value)], nextRef := m.nextRef + 1)
  }

  function StoreValue(m: Memory, at: Ref, value: Value): Memory {
    m.(heap := m.heap[at := At(m.heap, at).(value := value)])
  }

  /** A successful linking swap at `left`. */
  function LinkElem(m: Memory, left: Ref, e: Ref): Memory {
    m.(heap := m.heap[left := At(m.heap, left).(next := e)], linked := m.linked + {e})
  }

  function NewStore(m: Memory, st: nat, width: nat): Memory {
    m.(stores := m.stores[st := Store(width, map[])])
  }

  // ---------- the steps of a call ----------

  /** `search` looks at `found`, reached from `left` (list.go, the body of its loop). */
  function Examine(m: Memory, th: Thread, st: nat, left: Ref, found: Ref): (Memory, Thread) {
    var hash := m.hasher(th.key);
    if found != Nil && hash == Hash(m.heap, found) && th.key == At(m.heap, found).key then
      (m, th.(pc := if th.isSet then Update(st, found) else Done(false, found)))
    else if found == Nil || hash < Hash(m.heap, found) then
      (NewElem(m, th.key, th.value, found), th.(pc := Link(st, left, found), elem := m.nextRef))
    else
      (m, th.(pc := Advance(st, found)))
  }

  /** `Get` looks at `at` (hashmap.go, the body of its loop). */
  function Inspect(m: Memory, th: Thread, at: Ref, visible: bool): Thread {
    var hash := m.hasher(th.key);
    if at == Nil then
      th.(pc := GetDone(false, visible, ZERO))
    else if Hash(m.heap, at) == hash && At(m.heap, at).key == th.key then
      th.(pc := GetValue(at, visible))
    else if Hash(m.heap, at) > hash then
      th.(pc := GetDone(false, visible, ZERO))
    else
      th.(pc := GetNext(at, visible))
  }

  /** Is the key in the list and indexed by store st? */
  ghost predicate KeyVisible(m: Memory, st: nat, key: Key) {
    exists e :: e in m.linked && e != Head && At(m.heap, e).key == key && Indexed(m, st, e)
  }

  function KeySlot(m: Memory, st: nat, key: Key): Ref {
    Slot(m, st, Bucket(m.hasher(key), Width(m, st)))
  }

  /** One step of the call th, when m.store holds cur: the memory and the call after it. */
  ghost function CallStep(m: Memory, cur: nat, th: Thread): (Memory, Thread) {
    var e := th.elem;
    match th.pc
    case Start =>
      (m, th.(pc := LoadSlot(cur)))
    case LoadSlot(st) =>
      var seen := KeySlot(m, st, th.key);
      if seen == Nil || m.hasher(th.key) < Hash(m.heap, seen)
      then (m, th.(pc := LoadFirst(st)))
      else Examine(m, th, st, Head, seen)
    case LoadFirst(st) =>
      Examine(m, th, st, Head, Next(m.heap, Head))
    case Advance(st, left) =>
      Examine(m, th, st, left, Next(m.heap, left))
    case Link(st, left, right) =>
      if Next(m.heap, left) == right
      then (LinkElem(m, left, e), th.(pc := Tally(st)))
      else (m, th.(pc := Start, elem := Nil))
    case Tally(st) =>
      (m, th.(pc := Index(st, e)))
    case Update(st, at) =>
      (StoreValue(m, at, th.value), th.(pc := Index(st, at)))
    case Index(st, at) =>
      var seen := Slot(m, st, Home(m, st, at));
      if seen == Nil || Hash(m.heap, at) < Hash(m.heap, seen)
      then (m, th.(pc := IndexSwap(st, at, seen)))
      else (m, th.(pc := Recheck(st, at)))
    case IndexSwap(st, at, seen) =>
      if Slot(m, st, Home(m, st, at)) == seen
      then (SetSlot(m, st, Home(m, st, at), at), th.(pc := Recheck(st, at)))
      else (m, th.(pc := Index(st, at)))
    case Recheck(st, at) =>
      // after a resize Insert indexes its element again, Set starts all over
      (m, th.(pc := if st == cur then Done(e != Nil, at) else if th.isSet then Start else Reload))
    case Reload =>
      (m, th.(pc := Index(cur, e)))
    case GetStart =>
      (m, th.(pc := GetSlot(cur, KeyVisible(m, cur, th.key))))
    case GetSlot(st, visible) =>
      (m, Inspect(m, th, KeySlot(m, st, th.key), visible))
    case GetNext(at, visible) =>
      (m, Inspect(m, th, Next(m.heap, at), visible))
    case GetValue(at, visible) =>
      (m, th.(pc := GetDone(true, visible, At(m.heap, at).value)))
    case GetDone(_, _, _) => (m, th)
    case Done(_, _) => (m, th)
  }

  // ---------- the steps of grow ----------

  /** The grower starts on the fresh index st, before its first fill. */
  ghost function BeginFill(m: Memory, cur: nat, st: nat): Grower {
    FillFirst(st, set e | e in m.linked && e != Head && Indexed(m, cur, e), false)
  }

  /** fillIndexItems has reached `item`; at the end of the list the fill is over. */
  function FillReach(st: nat, base: set<Ref>, second: bool, item: Ref, isFirst: bool, last: nat): Grower {
    if item != Nil then FillAt(st, base, second, item, isFirst, last)
    else if second then Decide(base)
    else Publish(st, base)
  }

  /** One step of the grower, except for publishing: the memory and the grower after it. */
  function FillStep(m: Memory, g: Grower): (Memory, Grower) {
    match g
    case FillFirst(st, base, second) =>
      (m, FillReach(st, base, second, Next(m.heap, Head), true, 0))
    case FillAt(st, base, second, item, isFirst, last) =>
      var i := Home(m, st, item);
      if isFirst || i != last then
        var seen := Slot(m, st, i);
        if seen == Nil || Hash(m.heap, item) < Hash(m.heap, seen)
        then (m, FillSwap(st, base, second, item, isFirst, last, seen))
        else (m, FillNext(st, base, second, item, i))
      else
        (m, FillNext(st, base, second, item, last))
    case FillSwap(st, base, second, item, isFirst, last, seen) =>
      var i := Home(m, st, item);
      if Slot(m, st, i) == seen
      then (SetSlot(m, st, i, item), FillNext(st, base, second, item, i))
      else (m, FillAt(st, base, second, item, isFirst, last))
    case FillNext(st, base, second, item, last) =>
      (m, FillReach(st, base, second, Next(m.heap, item), false, last))
    case Publish(st, base) => (m, FillFirst(st, base, true))
    case Decide(base) => (m, Idle)
    case Idle => (m, Idle)
  }

  // ---------- runs ----------

  datatype Action =
    | Call(t: nat)                          // goroutine t takes one step
    | StartGrow(st: nat, width: nat)        // resizing: 0 -> 1, a new index is allocated
    | Grow                                  // the grower takes one step
    | GrowAgain(st: nat, width: nat)        // another round of the grow loop

  predicate Enabled(s: State, a: Action) {
    match a
    case Call(t) => t in s.threads
    case StartGrow(st, width) => s.grower.Idle? && st !in s.m.stores && width > 0
    case Grow => !s.grower.Idle?
    case GrowAgain(st, width) => s.grower.Decide? && st !in s.m.stores && width > 0
  }

  ghost function Apply(s: State, a: Action): State
    requires Enabled(s, a)
  {
    match a
    case Call(t) =>
      var (m', th') := CallStep(s.m, s.cur, s.threads[t]);
      s.(m := m', threads := s.threads[t := th'], count := if s.threads[t].pc.Tally? then s.count + 1 else s.count)
    case StartGrow(st, width) =>
      s.(m := NewStore(s.m, st, width), grower := BeginFill(s.m, s.cur, st))
    case Grow =>
      var (m', g') := FillStep(s.m, s.grower);
      s.(m := m', grower := g', cur := if s.grower.Publish? then s.grower.store else s.cur)
    case GrowAgain(st, width) =>
      s.(m := NewStore(s.m, st, width), grower := BeginFill(s.m, s.cur, st))
  }

  ghost predicate CanRun(s: State, run: seq<Action>)
    decreases |run|
  {
    run != [] ==> Enabled(s, run[0]) && CanRun(Apply(s, run[0]), run[1..])
  }

  ghost function After(s: State, run: seq<Action>): State
    requires CanRun(s, run)
    decreases |run|
  {
    if run == [] then s else After(Apply(s, run[0]), run[1..])
  }

  /** Every call has returned and no resize is running. */
  predicate Quiet(s: State) {
    && s.grower.Idle?
    && forall t | t in s.threads :: s.threads[t].pc.Done? || s.threads[t].pc.GetDone?
  }
}
