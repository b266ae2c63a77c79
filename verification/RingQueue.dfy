/** The 64-slot ring of src/bus/bus.c, and the first-in first-out sequence that it holds. */
module RingQueue {
  const QUEUE_DEPTH: nat := 64

  /** The place of the `i`-th item from `head` on. */
  function Slot(head: nat, i: nat): (k: nat)
    ensures k < QUEUE_DEPTH
  {
    (head + i) % QUEUE_DEPTH
  }

  lemma SlotsDiffer(head: nat, i: nat, j: nat)
    requires head < QUEUE_DEPTH && i < j < QUEUE_DEPTH
    ensures Slot(head, i) != Slot(head, j)
  {
    Wrap(head + i);
    Wrap(head + j);
  }

  /** Moving the head, or the tail, by one. */
  lemma SlotNext(head: nat, i: nat)
    requires head < QUEUE_DEPTH && i <= QUEUE_DEPTH
    ensures Slot(Slot(head, 1), i) == Slot(head, i + 1) == (Slot(head, i) + 1) % QUEUE_DEPTH
  {
    Wrap(head + 1);
    Wrap(head + i);
    Wrap(head + i + 1);
    Wrap(Slot(head, i) + 1);
    Wrap(Slot(head, 1) + i);
  }

  lemma Wrap(n: nat)
    requires n < 3 * QUEUE_DEPTH
    ensures n % QUEUE_DEPTH == if n < QUEUE_DEPTH then n else if n < 2 * QUEUE_DEPTH then n - QUEUE_DEPTH
          else n - 2 * QUEUE_DEPTH
  {
  }

  class Ring<T> {
    const items: array<T>
    var head: nat
    var tail: nat
    var count: nat

    constructor (blank: T)
      ensures Valid() && fresh(items) && Contents() == []
    {
      items := new T[QUEUE_DEPTH](_ => blank);
      head, tail, count := 0, 0, 0;
    }

    ghost predicate Valid()
      reads this
    {
      items.Length == QUEUE_DEPTH && head < QUEUE_DEPTH && count <= QUEUE_DEPTH
      && tail == Slot(head, count)
    }

    ghost function Contents(): seq<T>
      requires Valid()
      reads this, items
    {
      seq(count, i requires 0 <= i < count reads this, items requires Valid() => items[Slot(head, i)])
    }

    /** The part of `q_push` after its wait loop, which ends with room in the ring or with the
        shutdown flag set. */
    method Push(item: T, shutDown: bool) returns (accepted: bool)
      requires Valid() && (count < QUEUE_DEPTH || shutDown)
      modifies this, items
      ensures Valid() && accepted == !shutDown
      ensures Contents() == if accepted then old(Contents()) + [item] else old(Contents())
    {
      if shutDown { return false; }
      ghost var before, n := Contents(), count;
      SlotNext(head, n);
      forall i | 0 <= i < n ensures Slot(head, i) != Slot(head, n) { SlotsDiffer(head, i, n); }
      hide Slot;
      items[tail] := item;
      tail := (tail + 1) % QUEUE_DEPTH;
      count := count + 1;
      assert forall i :: 0 <= i < n ==> Contents()[i] == before[i];
      return true;
    }

    /** The part of `q_pop` after its wait loop, which ends with an item in the ring or with the
        shutdown flag set; what is queued at shutdown is still handed out. */
    method Pop(ghost shutDown: bool) returns (ok: bool, item: T)
      requires Valid() && (count > 0 || shutDown)
      modifies this
      ensures Valid() && ok == (old(Contents()) != [])
      ensures ok ==> item == old(Contents())[0] && Contents() == old(Contents())[1..]
      ensures !ok ==> Contents() == []
    {
      item := items[head];
      if count == 0 { return false, item; }
      assert Slot(head, 0) == head && Slot(head, 1) == (head + 1) % QUEUE_DEPTH;
      ghost var before, first := Contents(), head;
      forall i | 0 <= i < count ensures Slot(Slot(head, 1), i) == Slot(head, i + 1) { SlotNext(head, i); }
      hide Slot;
      head := (head + 1) % QUEUE_DEPTH;
      count := count - 1;
      forall i | 0 <= i < count ensures Contents()[i] == before[i + 1] { assert Slot(head, i) == Slot(first, i + 1); }
      return true, item;
    }
  }
}
