/**
  Whole histories of the map of pkg/hashmap: any sequence of completed calls, in one goroutine, answers as a plain
  finite map would.
*/
module MapHistory {
  import opened Basics
  import opened PowerOfTwo
  import opened SortedList
  import opened SlotIndex
  import opened SequentialMap

  datatype Op<!V> =
    | Get(key: Key)
    | Insert(key: Key, value: V)
    | GetOrInsert(key: Key, value: V)
    | Set(key: Key, value: V)
    | Del(key: Key)
    | Len
    | Grow(size: nat)
    | Range(goOn: (Key, V) -> bool, drop: (Key, V) -> bool)

  datatype Reply<V> =
    | Value(v: Option<V>)
    | Told(yes: bool)
    | Had(found: V, existed: bool)
    | Count(n: nat)
    | Done
    | Saw(visited: seq<(Key, V)>)

  /** What a plain map answers; for an iteration, which has to choose an order, what the answer must be like. */
  ghost predicate Answers<V>(hasher: Key -> Hash, m: map<Key, V>, op: Op<V>, r: Reply<V>) {
    match op
    case Get(k) => r == Value(if k in m then Some(m[k]) else None)
    case Insert(k, _) => r == Told(k !in m)
    case GetOrInsert(k, v) => r == Had(if k in m then m[k] else v, k in m)
    case Set(_, _) => r == Done
    case Del(k) => r == Told(k in m)
    case Len => r == Count(|m|)
    case Grow(_) => r == Done
    case Range(goOn, _) =>
      && r.Saw? && Right(r.visited, m) && Sorted(hasher, r.visited)
      && (Stopped(r.visited, goOn) || (Continued(r.visited, goOn) && Shown(r.visited) == m.Keys))
  }

  /** No key is shown twice, and hashes never decrease. */
  ghost predicate Sorted<V>(hasher: Key -> Hash, visited: seq<(Key, V)>) {
    forall i, j :: 0 <= i < j < |visited| ==>
      visited[i].0 != visited[j].0 && hasher(visited[i].0) <= hasher(visited[j].0)
  }

  /** The plain map after a call. */
  ghost function Next<V>(m: map<Key, V>, op: Op<V>, r: Reply<V>): map<Key, V> {
    match op
    case Insert(k, v) => if k in m then m else m[k := v]
    case GetOrInsert(k, v) => if k in m then m else m[k := v]
    case Set(k, v) => m[k := v]
    case Del(k) => m - {k}
    case Range(_, drop) => if r.Saw? then m - Dropped(r.visited, drop) else m
    case _ => m
  }

  /** The plain map after a history. */
  ghost function Plain<V>(ops: seq<Op<V>>, replies: seq<Reply<V>>): map<Key, V>
    requires |ops| == |replies|
  {
    if ops == [] then map[]
    else
      var n := |ops| - 1;
      Next(Plain(ops[..n], replies[..n]), ops[n], replies[n])
  }

  /** The number of slots an index cannot exceed in a history: twice what was asked for, or eight for each call. */
  function Reach<V>(size: nat, ops: seq<Op<V>>): nat {
    if ops == [] then 2 * size
    else
      var before := Reach(size, ops[..|ops| - 1]);
      var asked := match ops[|ops| - 1]
        case Grow(n) => if n == 0 then 2 * before else Max(before, 2 * n)
        case _ => before;
      Max(asked, 8 * |ops|)
  }

  lemma ReachStep<V>(size: nat, ops: seq<Op<V>>, i: nat)
    requires i < |ops|
    ensures Reach(size, ops[..i + 1]) >= Max(Reach(size, ops[..i]), 8 * (i + 1))
    ensures ops[i].Grow? ==>
      Reach(size, ops[..i + 1]) >= 2 * if ops[i].size == 0 then Reach(size, ops[..i]) else ops[i].size
  {
    assert ops[..i + 1][..i] == ops[..i];
  }

  lemma {:induction false} ReachGrows<V>(size: nat, ops: seq<Op<V>>, i: nat)
    requires i <= |ops|
    ensures Reach(size, ops[..i]) <= Reach(size, ops)
    decreases |ops| - i
  {
    if i == |ops| {
      assert ops[..i] == ops;
    } else {
      ReachStep(size, ops, i);
      ReachGrows(size, ops, i + 1);
    }
  }

  lemma NoHistory<V>(size: nat)
    ensures Reach<V>(size, []) == 2 * size && Plain<V>([], []) == map[]
  {
  }

  lemma SizeFits<V>(size: nat, ops: seq<Op<V>>)
    requires Reach(size, ops) <= Pow2(WORD - 2)
    ensures size <= Pow2(WORD - 1)
  {
    hide Pow2;
    ReachGrows(size, ops, 0);
    NoHistory<V>(size);
    PowSucc(WORD - 2);
  }

  lemma Allowed<V>(size: nat, ops: seq<Op<V>>, i: nat)
    requires i < |ops| && Reach(size, ops) <= Pow2(WORD - 2)
    ensures Allows(ops[i], i, Reach(size, ops[..i]), Reach(size, ops[..i + 1]))
  {
    hide Pow2, Reach;
    ReachStep(size, ops, i);
    ReachGrows(size, ops, i + 1);
  }

  lemma PlainStep<V>(ops: seq<Op<V>>, replies: seq<Reply<V>>, i: nat, r: Reply<V>)
    requires i < |ops| && |replies| == i
    ensures Plain(ops[..i + 1], replies + [r]) == Next(Plain(ops[..i], replies), ops[i], r)
  {
    assert ops[..i + 1][..i] == ops[..i] && (replies + [r])[..i] == replies;
  }

  lemma SizeStep<V>(m: map<Key, V>, k: Key, v: V)
    ensures |m[k := v]| <= |m| + 1
  {
    if k in m {
      assert m[k := v].Keys == m.Keys;
    } else {
      assert m[k := v].Keys == m.Keys + {k};
    }
  }

  /** What i calls can have left in the counters and in the length of the index. */
  ghost predicate Budget<V>(m: Map<V>, i: nat, reach: nat)
    reads m, m.store, m.list
  {
    m.list.count <= i && m.store.count <= 2 * i && m.store.slots.Length <= reach
  }

  /** A larger reach, as one more call needs it. */
  ghost predicate Allows<V>(op: Op<V>, i: nat, reach: nat, next: nat) {
    && Max(reach, 8 * (i + 1)) <= next <= Pow2(WORD - 2)
    && (op.Grow? ==> 2 * (if op.size == 0 then reach else op.size) <= next)
  }

  lemma Words<V>(m: Map<V>, op: Op<V>, i: nat, reach: nat, next: nat)
    requires Budget(m, i, reach) && Allows(op, i, reach, next)
    ensures m.Roomy() && m.list.count <= Pow2(WORD - 3)
    ensures op.Grow? ==> op.size <= Pow2(WORD - 1)
  {
    hide Pow2;
    PowSucc(WORD - 3);
    PowSucc(WORD - 2);
  }

  /** The calls that may add a key. */
  method Add<V>(m: Map<V>, op: Op<V>, ghost i: nat, ghost reach: nat, ghost next: nat) returns (r: Reply<V>)
    requires m.Valid() && Budget(m, i, reach) && Allows(op, i, reach, next) &&
        (op.Insert? || op.GetOrInsert? || op.Set?)
    modifies m, m.store, m.store.slots, m.list, m.list.repr
    ensures m.Valid() && Budget(m, i + 1, next) && fresh(m.list.repr - old(m.list.repr))
    ensures m.store == old(m.store) || (fresh(m.store) && fresh(m.store.slots))
    ensures Answers(m.hasher, old(m.View()), op, r) && m.View() == Next(old(m.View()), op, r)
  {
    hide List.Shape, List.View, Pow2, Map.Serves, Map.Hashed, Sorted, Right, Stopped, Continued, Shown, Dropped;
    Words(m, op, i, reach, next);
    m.CountsKeys();
    SizeStep(m.View(), op.key, op.value);
    match op {
      case Insert(k, v) =>
        var inserted := m.Insert(k, v);
        r := Told(inserted);
      case GetOrInsert(k, v) =>
        var found, existed := m.GetOrInsert(k, v);
        r := Had(found, existed);
      case Set(k, v) =>
        m.Set(k, v);
        r := Done;
    }
    m.CountsKeys();
  }

  /** The calls that add no key. */
  method Look<V>(m: Map<V>, op: Op<V>, ghost i: nat, ghost reach: nat, ghost next: nat) returns (r: Reply<V>)
    requires m.Valid() && Budget(m, i, reach) && Allows(op, i, reach, next) &&
        (op.Get? || op.Del? || op.Len? || op.Grow?)
    modifies m, m.store, m.store.slots, m.list, m.list.repr
    ensures m.Valid() && Budget(m, i + 1, next) && m.list.repr == old(m.list.repr)
    ensures m.store == old(m.store) || (fresh(m.store) && fresh(m.store.slots))
    ensures Answers(m.hasher, old(m.View()), op, r) && m.View() == Next(old(m.View()), op, r)
  {
    hide List.Shape, List.View, Pow2, Map.Serves, Map.Hashed, Sorted, Right, Stopped, Continued, Shown, Dropped;
    Words(m, op, i, reach, next);
    m.CountsKeys();
    ghost var view := m.View();
    match op {
      case Get(k) =>
        var v := m.Get(k);
        r := Value(v);
      case Del(k) =>
        var deleted := m.Del(k);
        r := Told(deleted);
        Fewer(view, {k});
      case Len =>
        var n := m.Len();
        r := Count(n);
      case Grow(n) =>
        m.Grow(n, true);
        r := Done;
    }
    m.CountsKeys();
  }

  method Iterate<V>(m: Map<V>, op: Op<V>, ghost i: nat, ghost reach: nat, ghost next: nat) returns (r: Reply<V>)
    requires m.Valid() && Budget(m, i, reach) && Allows(op, i, reach, next) && op.Range?
    modifies m, m.store, m.store.slots, m.list, m.list.repr
    ensures m.Valid() && Budget(m, i + 1, next) && m.list.repr == old(m.list.repr) && m.store == old(m.store)
    ensures Answers(m.hasher, old(m.View()), op, r) && m.View() == Next(old(m.View()), op, r)
  {
    hide List.Shape, List.View, Pow2, Map.Serves, Map.Hashed, Right, Stopped, Continued, Shown, Dropped;
    m.CountsKeys();
    ghost var view := m.View();
    var visited := m.Range(op.goOn, op.drop);
    r := Saw(visited);
    Fewer(view, Dropped(visited, op.drop));
    m.CountsKeys();
  }

  lemma Fewer<V>(m: map<Key, V>, gone: set<Key>)
    ensures |m - gone| <= |m|
  {
    assert (m - gone).Keys <= m.Keys;
    SmallerSet((m - gone).Keys, m.Keys);
  }

  /** One call of any kind. */
  method Perform<V>(m: Map<V>, op: Op<V>, ghost i: nat, ghost reach: nat, ghost next: nat) returns (r: Reply<V>)
    requires m.Valid() && Budget(m, i, reach) && Allows(op, i, reach, next)
    modifies m, m.store, m.store.slots, m.list, m.list.repr
    ensures m.Valid() && Budget(m, i + 1, next) && fresh(m.list.repr - old(m.list.repr))
    ensures m.store == old(m.store) || (fresh(m.store) && fresh(m.store.slots))
    ensures Answers(m.hasher, old(m.View()), op, r) && m.View() == Next(old(m.View()), op, r)
  {
    hide List.Shape, List.View, Map.Serves, Map.Hashed, Answers, Next, Budget, Allows;
    if op.Insert? || op.GetOrInsert? || op.Set? {
      r := Add(m, op, i, reach, next);
    } else if op.Range? {
      r := Iterate(m, op, i, reach, next);
    } else {
      r := Look(m, op, i, reach, next);
    }
  }

  /**
    A new map and any sequence of calls, as long as its index fits a word: every reply is that of the plain map, and
    that is what the map holds in the end.
  */
  method RunAll<V>(size: nat, hasher: Key -> Hash, ops: seq<Op<V>>) returns (m: Map<V>, replies: seq<Reply<V>>)
    requires 1 <= size && Reach(size, ops) <= Pow2(WORD - 2)
    ensures |replies| == |ops| && m.Valid() && m.View() == Plain(ops, replies)
    ensures forall i :: 0 <= i < |ops| ==> Answers(hasher, Plain(ops[..i], replies[..i]), ops[i], replies[i])
  {
    hide List.Shape, List.View, Map.Serves, Map.Hashed, Answers, Next, Allows, Pow2, Reach, Plain;
    SizeFits(size, ops);
    m := new Map<V>(size, hasher);
    replies := [];
    NoHistory<V>(size);
    for i := 0 to |ops|
      invariant fresh(m) && fresh(m.store) && fresh(m.store.slots) && fresh(m.list) && fresh(m.list.repr) &&
          m.hasher == hasher
      invariant |replies| == i && m.Valid() && Budget(m, i, Reach(size, ops[..i]))
      invariant m.View() == Plain(ops[..i], replies)
      invariant forall j :: 0 <= j < i ==> Answers(hasher, Plain(ops[..j], replies[..j]), ops[j], replies[j])
    {
      Allowed(size, ops, i);
      var r := Perform(m, ops[i], i, Reach(size, ops[..i]), Reach(size, ops[..i + 1]));
      PlainStep(ops, replies, i, r);
      assert forall j :: 0 <= j <= i ==> (replies + [r])[..j] == replies[..j];
      replies := replies + [r];
    }
    assert ops[..|ops|] == ops;
  }
}
