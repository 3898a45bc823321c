/** circular_q and mpmc_blocking_queue: a ring buffer that overruns its oldest item, and the guarded operations on it. */
module CircularQueue {

  /** The cells from head to tail, around the end of the buffer. */
  ghost function Ring<T>(cells: seq<T>, head: nat, tail: nat): seq<T>
    requires head <= |cells| && tail <= |cells|
  {
    if head <= tail then cells[head..tail] else cells[head..] + cells[..tail]
  }

  lemma NextIndex(i: nat, n: nat)
    requires i < n
    ensures (i + 1) % n == if i + 1 == n then 0 else i + 1
  {
  }

  lemma RingLength<T>(cells: seq<T>, head: nat, tail: nat)
    requires head < |cells| && tail < |cells|
    ensures |Ring(cells, head, tail)| == if head <= tail then tail - head else |cells| - head + tail
  {
  }

  lemma RingPush<T>(cells: seq<T>, head: nat, tail: nat, item: T, next: nat)
    requires head < |cells| && tail < |cells| && next == if tail + 1 == |cells| then 0 else tail + 1
    requires next != head
    ensures Ring(cells[tail := item], head, next) == Ring(cells, head, tail) + [item]
  {
  }

  lemma RingPop<T>(cells: seq<T>, head: nat, tail: nat, next: nat)
    requires head < |cells| && tail < |cells| && next == if head + 1 == |cells| then 0 else head + 1
    requires head != tail
    ensures Ring(cells, head, tail) == [cells[head]] + Ring(cells, next, tail)
  {
    if head < tail {
      assert cells[head..tail] == [cells[head]] + cells[head + 1..tail];
    } else if next == 0 {
      assert cells[head..] == [cells[head]];
      assert cells[0..tail] == cells[..tail];
    } else {
      assert cells[head..] == [cells[head]] + cells[head + 1..];
    }
  }

  /** When the tail runs into the head, the head moves on over the oldest item. */
  lemma RingOverrun<T>(cells: seq<T>, head: nat, tail: nat, item: T, next: nat)
    requires head < |cells| && tail < |cells| && head == if tail + 1 == |cells| then 0 else tail + 1
    requires next == if head + 1 == |cells| then 0 else head + 1
    ensures Ring(cells[tail := item], next, head) == (Ring(cells, head, tail) + [item])[1..]
  {
  }

  /** One cell is reserved as the marker of a full queue. */
  class CircularQ<T(0)> {
    const maxItems: nat
    var head: nat
    var tail: nat
    const v: array<T>
    var overrunCounter: nat

    ghost predicate Valid()
      reads this
    {
      v.Length == maxItems && head < maxItems && tail < maxItems
    }

    /** The items from the oldest to the newest. */
    ghost function Contents(): seq<T>
      requires Valid()
      reads this, v
    {
      Ring(v[..], head, tail)
    }

    ghost function Capacity(): int {
      maxItems - 1
    }

    constructor (maximum: nat)
      ensures Valid() && fresh(v) && Contents() == [] && Capacity() == maximum && overrunCounter == 0
    {
      maxItems := maximum + 1;
      v := new T[maximum + 1];
      head, tail, overrunCounter := 0, 0, 0;
    }

    /** The item becomes the newest; a full queue, also one without any room, loses its oldest one for it. */
    method PushBack(item: T)
      requires Valid()
      modifies this, v
      ensures Valid() && |old(Contents())| <= Capacity()
      ensures var all := old(Contents()) + [item];
        Contents() == if |old(Contents())| == Capacity() then all[1..] else all
      ensures overrunCounter == old(overrunCounter) + if |old(Contents())| == Capacity() then 1 else 0
    {
      hide Ring;
      ghost var cells, next := v[..], (tail + 1) % maxItems;
      NextIndex(head, maxItems);
      NextIndex(tail, maxItems);
      RingLength(cells, head, tail);
      if next != head {
        RingPush(cells, head, tail, item, next);
      } else {
        RingOverrun(cells, head, tail, item, (head + 1) % maxItems);
      }
      v[tail] := item;
      assert v[..] == cells[tail := item];
      tail := (tail + 1) % maxItems;
      if tail == head {
        head := (head + 1) % maxItems;
        overrunCounter := overrunCounter + 1;
      }
    }

    method PopFront() returns (item: T)
      requires Valid() && Contents() != []
      modifies this
      ensures Valid() && old(Contents()) == [item] + Contents() && overrunCounter == old(overrunCounter)
    {
      hide Ring;
      NextIndex(head, maxItems);
      RingLength(v[..], head, tail);
      RingPop(v[..], head, tail, (head + 1) % maxItems);
      item := v[head];
      head := (head + 1) % maxItems;
    }

    predicate Empty()
      requires Valid()
      reads this, v
      ensures Empty() <==> Contents() == []
    {
      RingLength(v[..], head, tail);
      tail == head
    }

    predicate Full()
      requires Valid()
      reads this, v
      ensures Full() <==> |Contents()| == Capacity()
    {
      RingLength(v[..], head, tail);
      NextIndex(tail, maxItems);
      (tail + 1) % maxItems == head
    }
  }

  datatype Dequeued<T> = Item(item: T) | TimedOut

  /** The queue under its lock: each method is what runs once the wait for its condition is over. */
  class MpmcBlockingQueue<T(0)> {
    const q: CircularQ<T>

    ghost predicate Valid()
      reads this, q
    {
      q.Valid()
    }

    ghost function Contents(): seq<T>
      requires Valid()
      reads this, q, q.v
    {
      q.Contents()
    }

    constructor (maxItems: nat)
      ensures Valid() && fresh(q) && fresh(q.v) && Contents() == [] && q.Capacity() == maxItems
    {
      q := new CircularQ<T>(maxItems);
    }

    /** The wait of the blocking policy ends when there is room; then nothing is lost. */
    method Enqueue(item: T)
      requires Valid() && |Contents()| != q.Capacity()
      modifies q, q.v
      ensures Valid() && Contents() == old(Contents()) + [item] && q.overrunCounter == old(q.overrunCounter)
    {
      q.PushBack(item);
    }

    method EnqueueNowait(item: T)
      requires Valid()
      modifies q, q.v
      ensures Valid() && |old(Contents())| <= q.Capacity()
      ensures var all := old(Contents()) + [item];
        Contents() == if |old(Contents())| == q.Capacity() then all[1..] else all
      ensures q.overrunCounter == old(q.overrunCounter) + if |old(Contents())| == q.Capacity() then 1 else 0
    {
      q.PushBack(item);
    }

    /** The timed wait ends with an item, or with none if the queue is still empty. */
    method DequeueFor() returns (r: Dequeued<T>)
      requires Valid()
      modifies q
      ensures Valid() && q.overrunCounter == old(q.overrunCounter)
      ensures r == TimedOut <==> old(Contents()) == []
      ensures old(Contents()) == (if r.Item? then [r.item] else []) + Contents()
    {
      if q.Empty() {
        return TimedOut;
      }
      var item := q.PopFront();
      return Item(item);
    }
  }
}
