/**
  The slot index of pkg/hashmap (store.go): an array of references into the sorted list,
  one per value of the leading hash bits. The lemmas relate the slots to the set of
  elements they have to serve.
*/
module SlotIndex {
  import opened PowerOfTwo
  import opened SortedList

  type Hash = h: nat | h < Pow2(WORD) witness (ZeroHash(); 0)

  lemma ZeroHash()
    ensures 0 < Pow2(WORD)
  {
  }

  /** `store`: 2^(64 - shift) slots, each for one value of the leading hash bits. */
  class Store<V> {
    const shift: nat
    const slots: array<Element?<V>>
    var count: nat

    ghost predicate Sized()
    {
      shift <= WORD && slots.Length == Pow2(WORD - shift)
    }

    constructor (log: nat)
      requires log <= WORD
      ensures Sized() && shift == WORD - log && count == 0 && fresh(slots)
      ensures forall b :: 0 <= b < slots.Length ==> slots[b] == null
    {
      shift, count := WORD - log, 0;
      slots := new Element?<V>[Pow2(log)](_ => null);
    }

    /** `item`: the content of the hash's slot. */
    method Item(hash: Hash) returns (e: Element?<V>)
      requires Sized()
      ensures SlotOf(hash, shift) < slots.Length && e == slots[SlotOf(hash, shift)]
    {
      SlotInRange(hash, shift);
      e := slots[SlotOf(hash, shift)];
    }

    /** `addItem`: the slot keeps the smaller hash; a slot taken into use is counted. */
    method AddItem(item: Element<V>) returns (n: nat)
      requires Sized() && item.keyHash < Pow2(WORD)
      modifies this`count, slots
      ensures slots[..] == Placed(old(slots[..]), shift, item)
      ensures var b := SlotOf(item.keyHash, shift);
        && b < slots.Length && count == old(count) + (if old(slots[b]) == null then 1 else 0)
        && n == if old(slots[b]) == null then count else 0
    {
      SlotInRange(item.keyHash, shift);
      var b := SlotOf(item.keyHash, shift);
      if slots[b] == null {
        slots[b] := item;
        count := count + 1;
        return count;
      }
      if item.keyHash < slots[b].keyHash {
        slots[b] := item;
      }
      return 0;
    }

    /** The swap of `deleteElement`: a slot that leads to x now leads to next. */
    method GiveUp(x: Element<V>, next: Element?<V>)
      requires Sized() && x.keyHash < Pow2(WORD)
      modifies slots
      ensures slots[..] == GivenUp(old(slots[..]), shift, x, next)
    {
      SlotInRange(x.keyHash, shift);
      var index := SlotOf(x.keyHash, shift);
      if slots[index] == x {
        slots[index] := next;
      }
    }
  }

  type Slots<!V> = seq<Element?<V>>

  /** The slots after `addItem`. */
  ghost function Placed<V>(slots: Slots<V>, shift: nat, item: Element<V>): Slots<V> {
    var b := SlotOf(item.keyHash, shift);
    if b < |slots| && (slots[b] == null || item.keyHash < slots[b].keyHash) then slots[b := item] else slots
  }

  // ---------- slots against a set of elements ----------

  /** Rank orders the elements, and hashes never decrease along it. */
  ghost predicate Ranked<V>(members: set<Element<V>>) {
    && (forall e, q :: e in members && q in members && e.rank == q.rank ==> e == q)
    && (forall e, q :: e in members && q in members && e.rank < q.rank ==> e.keyHash <= q.keyHash)
  }

  /** A slot leads to its own bucket only if to a member; otherwise it leads to a later bucket. */
  ghost predicate Sound<V>(slots: Slots<V>, shift: nat, members: set<Element<V>>) {
    forall b :: 0 <= b < |slots| && slots[b] != null ==>
      && b <= SlotOf(slots[b].keyHash, shift)
      && (b == SlotOf(slots[b].keyHash, shift) ==> slots[b] in members)
  }

  /** The slot of e's hash leads to its bucket, at or before e. */
  ghost predicate Covers<V>(slots: Slots<V>, shift: nat, e: Element<V>) {
    var b := SlotOf(e.keyHash, shift);
    b < |slots| && slots[b] != null && SlotOf(slots[b].keyHash, shift) == b && slots[b].rank <= e.rank
  }

  ghost predicate Complete<V>(slots: Slots<V>, shift: nat, members: set<Element<V>>) {
    forall e :: e in members ==> Covers(slots, shift, e)
  }

  /** A slot that leads into its own bucket leads to the first member there. */
  ghost predicate Leading<V>(slots: Slots<V>, shift: nat, members: set<Element<V>>) {
    forall e :: e in members ==>
      var b := SlotOf(e.keyHash, shift);
      b < |slots| && slots[b] != null && SlotOf(slots[b].keyHash, shift) == b ==> slots[b].rank <= e.rank
  }

  ghost function Before<V>(members: set<Element<V>>, r: real): set<Element<V>> {
    set e | e in members && e.rank < r
  }

  /** x stands behind every member of its hash. */
  ghost predicate LastOfHash<V>(members: set<Element<V>>, x: Element<V>) {
    forall q :: q in members && x.rank < q.rank ==> x.keyHash < q.keyHash
  }

  /** The slot of a key's hash is a good place to start looking for it. */
  lemma SlotLeadsTo<V>(slots: Slots<V>, shift: nat, members: set<Element<V>>, hash: nat, e: Element<V>)
    requires Ranked(members) && Sound(slots, shift, members) && Complete(slots, shift, members)
    requires SlotOf(hash, shift) < |slots| && e == slots[SlotOf(hash, shift)] && e.keyHash <= hash
    ensures e in members && forall q :: q in members && q.rank < e.rank ==> q.keyHash < hash
  {
    hide SlotOf;
    SlotMonotone(e.keyHash, hash, shift);
    forall q | q in members && q.rank < e.rank ensures q.keyHash < hash {
      assert Covers(slots, shift, q);
    }
  }

  lemma SlotBefore<V>(slots: Slots<V>, shift: nat, members: set<Element<V>>, x: Element<V>)
    requires Ranked(members) && Sound(slots, shift, members) && Complete(slots, shift, members) && x in members
    requires SlotOf(x.keyHash, shift) < |slots|
    ensures var e := slots[SlotOf(x.keyHash, shift)]; e != null && e.keyHash <= x.keyHash && e.rank <= x.rank
  {
    hide SlotOf;
    assert Covers(slots, shift, x);
  }

  /** Placing a new member that stands behind its equals keeps the index complete. */
  lemma PlaceNew<V>(slots: Slots<V>, shift: nat, members: set<Element<V>>, x: Element<V>)
    requires Ranked(members + {x}) && LastOfHash(members, x)
    requires Sound(slots, shift, members) && Complete(slots, shift, members) && SlotOf(x.keyHash, shift) < |slots|
    ensures var slots' := Placed(slots, shift, x);
      Sound(slots', shift, members + {x}) && Complete(slots', shift, members + {x})
  {
    hide SlotOf;
    var b := SlotOf(x.keyHash, shift);
    var s := slots[b];
    if s == null || x.keyHash < s.keyHash {
      forall e | e in members && SlotOf(e.keyHash, shift) == b ensures x.rank <= e.rank {
        assert Covers(slots, shift, e);
      }
    } else {
      SlotMonotone(s.keyHash, x.keyHash, shift);
    }
  }

  /** Placing a member again changes nothing. */
  lemma PlaceAgain<V>(slots: Slots<V>, shift: nat, members: set<Element<V>>, x: Element<V>)
    requires Ranked(members) && Sound(slots, shift, members) && Complete(slots, shift, members) && x in members
    ensures Placed(slots, shift, x) == slots
  {
    hide SlotOf;
    assert Covers(slots, shift, x);
  }

  /** `fillIndexItems` places a member when everything before it is covered. */
  lemma PlaceNext<V>(slots: Slots<V>, shift: nat, members: set<Element<V>>, x: Element<V>)
    requires Ranked(members) && x in members && SlotOf(x.keyHash, shift) < |slots|
    requires Sound(slots, shift, members) && Leading(slots, shift, members)
    requires Complete(slots, shift, Before(members, x.rank))
    ensures var slots' := Placed(slots, shift, x);
      && Sound(slots', shift, members) && Leading(slots', shift, members)
      && Complete(slots', shift, Before(members, x.rank) + {x})
  {
    hide SlotOf;
    var b := SlotOf(x.keyHash, shift);
    var s := slots[b];
    if s == null || x.keyHash < s.keyHash {
      forall e | e in members && SlotOf(e.keyHash, shift) == b ensures x.rank <= e.rank {
        assert e in Before(members, x.rank) ==> Covers(slots, shift, e);
      }
    } else {
      SlotMonotone(s.keyHash, x.keyHash, shift);
    }
  }

  lemma EmptyIndex<V>(slots: Slots<V>, shift: nat, members: set<Element<V>>)
    requires forall b :: 0 <= b < |slots| ==> slots[b] == null
    ensures Sound(slots, shift, members) && Leading(slots, shift, members)
  {
    hide SlotOf;
  }

  /** next is the first member behind x. */
  ghost predicate NextMember<V>(members: set<Element<V>>, x: Element<V>, next: Element?<V>) {
    if next == null then forall q :: q in members ==> q.rank <= x.rank
    else next in members && x.rank < next.rank && forall q :: q in members ==> q.rank <= x.rank || next.rank <= q.rank
  }

  /** The slots after `deleteElement`: a slot that led to x leads to the next member. */
  ghost function GivenUp<V>(slots: Slots<V>, shift: nat, x: Element<V>, next: Element?<V>): Slots<V> {
    var b := SlotOf(x.keyHash, shift);
    if b < |slots| && slots[b] == x then slots[b := next] else slots
  }

  lemma GiveUpSlot<V>(slots: Slots<V>, shift: nat, members: set<Element<V>>, x: Element<V>, next: Element?<V>)
    requires Ranked(members) && x in members && NextMember(members, x, next)
    requires Sound(slots, shift, members) && Complete(slots, shift, members)
    ensures var slots' := GivenUp(slots, shift, x, next);
      Sound(slots', shift, members - {x}) && Complete(slots', shift, members - {x})
  {
    hide SlotOf;
    var b := SlotOf(x.keyHash, shift);
    assert Covers(slots, shift, x);
    if slots[b] == x {
      if next != null { SlotMonotone(x.keyHash, next.keyHash, shift); }
      forall e | e in members - {x} && SlotOf(e.keyHash, shift) == b
        ensures next != null && next.rank <= e.rank && SlotOf(next.keyHash, shift) == b
      {
        assert Covers(slots, shift, e);
        SlotMonotone(next.keyHash, e.keyHash, shift);
      }
    }
  }
}
