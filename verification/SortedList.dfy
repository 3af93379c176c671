/**
  The hash-sorted linked list of pkg/hashmap (list.go, list_element.go), run by one
  goroutine. Deleting only marks an element; marked elements stay in the chain until
  `Next` walks over them and unlinks them. Every compare-and-swap is written as the
  assertion that it succeeds, followed by its store.
*/
module SortedList {
  import opened Basics

  type Key = string

  class Element<V> {
    const key: Key
    const keyHash: nat
    /** Where the element stands in the list's order. */
    ghost const rank: real
    var deleted: bool
    var next: Element?<V>
    var value: Option<V>

    constructor (key: Key, keyHash: nat, value: Option<V>, ghost rank: real)
      ensures this.key == key && this.keyHash == keyHash && this.value == value && this.rank == rank
      ensures next == null && !deleted
    {
      this.key, this.keyHash, this.value, this.rank := key, keyHash, value, rank;
      next, deleted := null, false;
    }
  }

  /** Ranks are distinct, head comes first, and hashes never decrease. */
  ghost predicate Ordered<V>(linked: set<Element<V>>, head: Element<V>) {
    && head in linked
    && (forall e, q :: e in linked && q in linked && e.rank == q.rank ==> e == q)
    && (forall e :: e in linked ==> head.rank <= e.rank)
    && (forall e, q :: e in linked && q in linked && e != head && e.rank < q.rank ==> e.keyHash <= q.keyHash)
  }

  /** Putting x right behind l keeps the order. */
  lemma OrderedGrows<V>(linked: set<Element<V>>, head: Element<V>, l: Element<V>, x: Element<V>)
    requires Ordered(linked, head) && l in linked && l.rank < x.rank
    requires l != head ==> l.keyHash <= x.keyHash
    requires forall q :: q in linked ==> q.rank <= l.rank || (x.rank < q.rank && x.keyHash <= q.keyHash)
    ensures Ordered(linked + {x}, head)
  {
  }

  lemma OrderedShrinks<V>(linked: set<Element<V>>, head: Element<V>, n: Element<V>)
    requires Ordered(linked, head) && n != head
    ensures Ordered(linked - {n}, head)
  {
  }

  class List<V> {
    const head: Element<V>
    var count: nat
    /** The elements reached by following `next` from head, marked ones included. */
    ghost var linked: set<Element<V>>
    /** The unmarked element of each key. */
    ghost var elems: map<Key, Element<V>>
    /** Every element of this list, past ones included. */
    ghost var repr: set<Element<V>>

    /** Links lead from each element to the next by rank, leaving none out. */
    ghost predicate Chained()
      reads `linked, `repr, repr`next
    {
      && linked <= repr
      && (forall e {:trigger e.next} :: e in linked && e.next != null ==> e.next in linked && e.rank < e.next.rank)
      && (forall e, q {:trigger e.next, q.rank} :: e in linked && q in linked && e.rank < q.rank ==>
            e.next != null && e.next.rank <= q.rank)
    }

    /** elems holds exactly the unmarked elements of the set, one per key. */
    ghost predicate Mapped(s: set<Element<V>>)
      reads `repr, `elems, repr`deleted, repr`value
    {
      && (forall e :: e in s && e in repr && e != head && !e.deleted ==> e.key in elems && elems[e.key] == e)
      && (forall k :: k in elems ==> elems[k] in s && elems[k] in repr && elems[k] != head)
      && (forall k :: k in elems ==> elems[k].key == k && !elems[k].deleted && elems[k].value.Some?)
    }

    ghost predicate Shape()
      reads this, repr
    {
      head in repr && head in linked && !head.deleted && linked <= repr && Chained() && Ordered(linked, head) &&
          Mapped(linked)
    }

    ghost predicate Valid()
      reads this, repr
    {
      Shape() && count == |elems|
    }

    /** The finite map the list stands for. */
    ghost function View(): map<Key, V>
      requires Shape()
      reads this, repr
    {
      map k | k in elems :: elems[k].value.value
    }

    constructor ()
      ensures Valid() && View() == map[] && fresh(repr)
      ensures linked == {head} && elems == map[] && repr == {head}
    {
      var h := new Element<V>("", 0, None, 0.0);
      head, count, linked, elems, repr := h, 0, {h}, map[], {h};
    }

    /** The elements behind e; a walk along the list makes this smaller. */
    ghost function Behind(e: Element<V>): set<Element<V>>
      reads this
    {
      set q | q in linked && e.rank < q.rank
    }

    /** Pointing e past its successor n takes n out of the chain. */
    method Bypass(e: Element<V>, n: Element<V>)
      requires Chained() && Ordered(linked, head) && e in linked && n in linked && e.next == n
      modifies this`linked, e`next
      ensures Chained() && linked == old(linked) - {n} && e.next == old(n.next)
    {
      e.next := n.next;
      linked := linked - {n};
    }

    /** Pointing l to x and x to l's old successor puts x into the chain. */
    method Splice(l: Element<V>, x: Element<V>, right: Element?<V>)
      requires Chained() && Ordered(linked, head) && l in linked && x !in linked && l.next == right
      requires l.rank < x.rank && (right != null ==> x.rank < right.rank)
      modifies this`linked, this`repr, x`next, l`next
      ensures Chained() && linked == old(linked) + {x} && repr == old(repr) + {x}
    {
      assert forall q :: q in linked ==> q.rank <= l.rank || (right != null && right.rank <= q.rank);
      x.next := right;
      l.next := x;
      linked, repr := linked + {x}, repr + {x};
    }

    /** The swap that takes the marked element n, next after e, out of the list. */
    method Unlink(e: Element<V>, n: Element<V>)
      requires Shape() && e in linked && n in linked && e.next == n && n.deleted
      modifies this`linked, e`next
      ensures Shape() && linked == old(linked) - {n} && e.next == old(n.next)
    {
      hide Chained, Ordered;
      OrderedShrinks(linked, head, n);
      Bypass(e, n);
    }

    /**
      `Next`: the first unmarked element after e. The marked ones in between are unlinked.
      An element that is itself no longer linked must still point to an unmarked one.
    */
    method Next(e: Element<V>) returns (n: Element?<V>)
      requires Shape() && e in repr
      requires e in linked || e.next == null || (e.next in linked && !e.next.deleted)
      modifies this`linked, repr`next
      ensures Shape()
      ensures linked <= old(linked)
      ensures forall q :: q in old(linked) && q !in linked ==> q.deleted && e.rank < q.rank
      ensures e.next == n
      ensures old(e.next) == null || !old(e.next).deleted ==> linked == old(linked) && n == old(e.next)
      ensures n != null ==> n in linked && !n.deleted
      decreases Behind(e)
    {
      hide Mapped;
      n := e.next;
      if n != null && n.deleted {
        assert n in Behind(e) && n !in Behind(n) && Behind(n) <= Behind(e);
        var following := Next(n);
        assert e.next == n;
        Unlink(e, n);
        n := following;
      }
    }

    ghost function LeftOf(left: Element?<V>): Element<V> {
      if left == null then head else left
    }

    /** A new element of this hash belongs between left (head, if null) and right (the end, if null). */
    ghost predicate Gap(left: Element?<V>, right: Element?<V>, hash: nat)
      reads this, repr
    {
      var l := LeftOf(left);
      && l in linked && l in repr && !l.deleted && l.next == right && (l != head ==> l.keyHash <= hash)
      && (right != null ==> right in linked && hash < right.keyHash)
    }

    /** A search for the hash may start here: nothing before can have the hash. */
    ghost predicate GoodStart(start: Element?<V>, hash: nat)
      reads this, repr
    {
      start != null && start.keyHash <= hash ==>
        && start in linked && start in repr && !start.deleted && start != head
        && (forall e :: e in linked && e in repr && e != head && !e.deleted && e.rank < start.rank ==> e.keyHash < hash)
    }

    /** Everything in the list stands before the gap's left end or after its right end. */
    lemma GapIsEmpty(left: Element?<V>, right: Element?<V>, x: Element<V>)
      requires Shape() && Gap(left, right, x.keyHash)
      requires LeftOf(left).rank < x.rank && (right != null ==> x.rank < right.rank)
      ensures Ordered(linked + {x}, head)
      ensures forall q :: q in linked && x.rank < q.rank ==> x.keyHash < q.keyHash
    {
      hide Mapped;
      var l := LeftOf(left);
      forall q | q in linked ensures q.rank <= l.rank || (x.rank < q.rank && x.keyHash < q.keyHash) {
        assert l.rank < q.rank ==> right != null && right.rank <= q.rank;
      }
      OrderedGrows(linked, head, l, x);
    }

    lemma KeyElem(key: Key)
      requires Shape() && key in elems
      ensures elems[key] in linked && elems[key] in repr && elems[key] != head
      ensures elems[key].key == key && !elems[key].deleted && elems[key].value.Some?
    {
    }

    lemma ElemKey(e: Element<V>)
      requires Shape() && e in linked && e in repr && e != head && !e.deleted
      ensures e.key in elems && elems[e.key] == e
    {
    }

    lemma BehindNext(e: Element<V>)
      requires Shape() && e in linked && e in repr && e.next != null
      ensures Behind(e.next) < Behind(e)
    {
      hide Mapped, Ordered;
      assert e.next in Behind(e);
    }

    /** From before the element of a key, the next element is still not past it. */
    lemma Toward(e: Element<V>, key: Key)
      requires Shape() && key in elems && e in linked && e in repr && e != elems[key] && e.rank <= elems[key].rank
      ensures e.next != null && e.next.rank <= elems[key].rank
    {
      hide Mapped;
      KeyElem(key);
    }

    lemma NotPast(e: Element<V>, key: Key)
      requires Shape() && key in elems && e in linked && e != head && e.rank <= elems[key].rank
      ensures e.keyHash <= elems[key].keyHash
    {
      hide Mapped, Chained;
      KeyElem(key);
    }

    /** The loop of `search`, from the element `found` on; `left` is the one before, if any. */
    method SearchFrom(left0: Element?<V>, found0: Element<V>, hash: nat, key: Key)
      returns (left: Element?<V>, found: Element?<V>, right: Element?<V>)
      requires Shape() && found0 in linked && found0 in repr && !found0.deleted && found0 != head
      requires left0 == null ==> found0.keyHash <= hash
      requires left0 != null ==> left0 in linked && left0 in repr && !left0.deleted && left0.next == found0
      requires left0 != null && left0 != head ==> left0.keyHash <= hash
      requires key in elems ==> elems[key].keyHash == hash && found0.rank <= elems[key].rank
      modifies this`linked, repr`next
      ensures Shape()
      ensures linked <= old(linked) && forall q :: q in old(linked) && q !in linked ==> q.deleted
      ensures if key in elems then found == elems[key] else found == null && Gap(left, right, hash)
    {
      hide Mapped, Chained, Ordered;
      left, found, right := left0, found0, null;
      while true
        invariant Shape() && found in linked && found in repr && !found.deleted && found != head
        invariant linked <= old(linked) && forall q :: q in old(linked) && q !in linked ==> q.deleted
        invariant left == null ==> found.keyHash <= hash
        invariant left != null ==> left in linked && left in repr && !left.deleted && left.next == found
        invariant left != null && left != head ==> left.keyHash <= hash
        invariant key in elems ==> found.rank <= elems[key].rank
        decreases Behind(found)
      {
        ElemKey(found);
        if hash == found.keyHash && key == found.key {
          return null, found, null;
        }
        if hash < found.keyHash {
          if key in elems { NotPast(found, key); }
          return if left == head then null else left, null, found;
        }
        if key in elems { KeyElem(key); }
        left := found;
        found := Next(left);
        if key in elems { Toward(left, key); }
        if found == null {
          return left, null, null;
        }
        NextIsLater(left);
        BehindNext(left);
      }
    }

    lemma NextIsLater(e: Element<V>)
      requires Shape() && e in linked && e in repr && e.next != null
      ensures e.next in linked && e.next in repr && head.rank < e.next.rank
    {
      hide Mapped;
    }

    /** `search`: the element of the key, or else the gap where it belongs. */
    method Search(start: Element?<V>, hash: nat, key: Key) returns (left: Element?<V>, found: Element?<V>,
        right: Element?<V>)
      requires Shape() && GoodStart(start, hash)
      requires key in elems ==> elems[key].keyHash == hash
      modifies this`linked, repr`next
      ensures Shape()
      ensures linked <= old(linked) && forall q :: q in old(linked) && q !in linked ==> q.deleted
      ensures if key in elems then found == elems[key] else found == null && Gap(left, right, hash)
    {
      hide Mapped;
      if key in elems { KeyElem(key); }
      var s := if start != null && hash < start.keyHash then null else start;
      if s == null {
        var first := Next(head);
        if key in elems { Toward(head, key); }
        if first == null {
          return null, null, null;
        }
        left, found, right := SearchFrom(head, first, hash, key);
      } else {
        left, found, right := SearchFrom(null, s, hash, key);
      }
    }

    /** x stands behind every element of its hash. */
    ghost predicate LastOfHash(x: Element<V>)
      reads this
    {
      forall q :: q in linked && x.rank < q.rank ==> x.keyHash < q.keyHash
    }

    /** `insertAt`: the swap of the gap's link always succeeds. */
    method InsertAt(x: Element<V>, left: Element?<V>, right: Element?<V>) returns (inserted: bool)
      requires Valid() && Gap(left, right, x.keyHash)
      requires x !in repr && x.key !in elems && !x.deleted && x.value.Some?
      requires LeftOf(left).rank < x.rank && (right != null ==> x.rank < right.rank)
      modifies `linked, `elems, `repr, `count, x`next, LeftOf(left)`next
      ensures inserted && Valid()
      ensures linked == old(linked) + {x} && repr == old(repr) + {x} && elems == old(elems)[x.key := x]
      ensures LastOfHash(x)
    {
      hide Chained, Ordered;
      var l := if left == null then head else left;
      GapIsEmpty(left, right, x);
      Splice(l, x, right);
      assert linked - {x} == old(linked);
      Record(x);
      count := count + 1;
      inserted := true;
    }

    /** Note x as the element of its key. */
    ghost method Record(x: Element<V>)
      requires x in linked && x in repr && x != head && x.key !in elems && !x.deleted && x.value.Some?
      requires Mapped(linked - {x})
      modifies `elems
      ensures Mapped(linked) && elems == old(elems)[x.key := x]
    {
      elems := elems[x.key := x];
    }

    /** A rank between the ends of a gap. */
    ghost function RankBetween(left: Element?<V>, right: Element?<V>): real {
      if right == null then LeftOf(left).rank + 1.0 else (LeftOf(left).rank + right.rank) / 2.0
    }

    /** A linked element is never unlinked while it is unmarked. */
    twostate predicate OnlyMarkedLeave()
      reads this, repr
    {
      forall q :: q in old(linked) && q !in linked ==> q in repr && q.deleted
    }

    /** `Add`: the existing element of the key, or a new one holding the value. */
    method Add(start: Element?<V>, hash: nat, key: Key, value: V)
      returns (element: Element<V>, existed: bool, inserted: bool)
      requires Valid() && GoodStart(start, hash)
      requires key in elems ==> elems[key].keyHash == hash
      modifies `linked, `elems, `repr, `count, repr`next
      ensures Valid() && fresh(repr - old(repr)) && OnlyMarkedLeave()
      ensures existed <==> key in old(elems)
      ensures existed ==> element == elems[key] && elems == old(elems) && linked <= old(linked)
      ensures !existed ==> inserted && fresh(element) && element.keyHash == hash && element.value == Some(value)
      ensures !existed ==> elems == old(elems)[key := element] && element in linked && linked <= old(linked) + {element}
      ensures !existed ==> LastOfHash(element) && !element.deleted && element.key == key
      ensures repr == if existed then old(repr) else old(repr) + {element}
    {
      hide Mapped, Chained, Ordered;
      var left, found, right := Search(start, hash, key);
      if found != null {
        return found, true, false;
      }
      if right != null { NextIsAfter(LeftOf(left)); }
      element := new Element(key, hash, Some(value), RankBetween(left, right));
      inserted := InsertAt(element, left, right);
      existed := false;
    }

    lemma NextIsAfter(e: Element<V>)
      requires Shape() && e in linked && e in repr && e.next != null
      ensures e.rank < e.next.rank
    {
      hide Mapped, Ordered;
    }

    /** `AddOrUpdate`: the key's element, new or existing, now holds the value. */
    method AddOrUpdate(start: Element?<V>, hash: nat, key: Key, value: V) returns (element: Element<V>, added: bool)
      requires Valid() && GoodStart(start, hash)
      requires key in elems ==> elems[key].keyHash == hash
      modifies `linked, `elems, `repr, `count, repr`next, repr`value
      ensures Valid() && fresh(repr - old(repr)) && OnlyMarkedLeave()
      ensures added && element.keyHash == hash && element.value == Some(value)
      ensures elems == old(elems)[key := element] && linked <= old(linked) + {element}
      ensures key in old(elems) ==> linked <= old(linked) && element == old(elems)[key]
      ensures key !in old(elems) ==> fresh(element) && LastOfHash(element)
      ensures element in linked && element in repr && !element.deleted && element.key == key && element != head
      ensures repr == old(repr) + {element}
      ensures forall e :: e in old(repr) && e != element ==> e.value == old(e.value)
    {
      hide Mapped, Chained, Ordered;
      var left, found, right := Search(start, hash, key);
      if found != null {
        KeyElem(key);
        Overwrite(found, value);
        return found, true;
      }
      if right != null { NextIsAfter(LeftOf(left)); }
      element := new Element(key, hash, Some(value), RankBetween(left, right));
      added := InsertAt(element, left, right);
    }

    /** The store of a new value in an existing element. */
    method Overwrite(e: Element<V>, value: V)
      requires Shape() && e in repr
      modifies e`value
      ensures Shape() && e.value == Some(value)
    {
      hide Chained, Ordered;
      e.value := Some(value);
    }

    /** `Delete`: the element is marked, and unlinked at once if it is first. */
    method Delete(element: Element<V>)
      requires Valid() && element in linked && element in repr && element != head && !element.deleted
      modifies `linked, `elems, `count, repr`next, element`deleted
      ensures Valid() && element.deleted && OnlyMarkedLeave() && linked <= old(linked)
      ensures elems == old(elems) - {element.key}
      ensures Nearest(element) && (element.next != null ==> element.next in repr && !element.next.deleted)
    {
      hide Chained, Ordered, Mapped;
      Mark(element);
      var right := Next(element);
      NextIsNearest(element);
      if head.next == element {
        Unlink(head, element);
      }
      count := count - 1;
    }

    /** The mark on an element, which takes it out of the map. */
    method Mark(element: Element<V>)
      requires Shape() && element in linked && element in repr && element != head && !element.deleted
      modifies element`deleted, `elems
      ensures Shape() && element.deleted && elems == old(elems) - {element.key} && element.key in old(elems)
    {
      hide Chained, Ordered;
      ElemKey(element);
      element.deleted := true;
      elems := elems - {element.key};
    }

    /** e.next is the first element behind e, even if e itself is no longer linked. */
    ghost predicate Nearest(e: Element<V>)
      reads `linked, `repr, e
    {
      if e.next == null then forall q :: q in linked ==> q.rank <= e.rank
      else
        && e.next in linked && e.next in repr && e.rank < e.next.rank
        && forall q :: q in linked ==> q.rank <= e.rank || e.next.rank <= q.rank
    }

    lemma NextIsNearest(e: Element<V>)
      requires Shape() && e in linked && e in repr
      ensures Nearest(e)
    {
      hide Mapped, Ordered;
      forall q | q in linked && e.rank < q.rank ensures e.next != null && e.next.rank <= q.rank {
      }
    }
  }
}
