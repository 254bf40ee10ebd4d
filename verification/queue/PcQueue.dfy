/** producer-consumer.c on its own fields: the two lock regions of each call, and a call that nothing interrupts. */
module PcQueues {
  import opened Collections
  import opened RingSteps

  class PcQueue<T(0)> {
    var buffer: array<Option<T>>
    var capacity: nat
    var currentSize: nat
    var head: nat
    var tail: nat

    ghost function View(): Ring<T>
      reads this, buffer
    {
      Ring(capacity, currentSize, head, tail, buffer[..])
    }

    ghost predicate Valid()
      reads this, buffer
    {
      View().Shape()
    }

    /** pcq_create. The slots hold whatever malloc returned. */
    constructor Create(size: nat)
      requires size >= 1
      ensures Valid() && fresh(buffer) && View() == Created(buffer[..]).ring && capacity == size
    {
      buffer := new Option<T>[size];
      capacity := size;
      currentSize := 0;
      head := 0;
      tail := 0;
    }

    /** pcq_enqueue's region under the size lock; false is another turn of the waiting loop. */
    method EnqueueReserve() returns (reserved: bool)
      requires Valid()
      modifies this`currentSize
      ensures Valid()
      ensures reserved <==> !old(View()).EnqueueWaits()
      ensures reserved <==> old(currentSize) != capacity && (old(currentSize) == 0 || head != tail)
      ensures View() == if reserved then old(View()).ReserveSpace() else old(View())
    {
      if currentSize == capacity || (head == tail && currentSize != 0) {
        return false;
      }
      currentSize := currentSize + 1;
      return true;
    }

    /** pcq_enqueue's region under the head lock. */
    method EnqueueTransfer(x: T)
      requires Valid()
      modifies this`head, buffer
      ensures Valid()
      ensures View() == old(View()).Store(x)
      ensures old(head) < |old(buffer[..])| && buffer[..] == old(buffer[..])[old(head) := Some(x)]
    {
      buffer[head] := Some(x);
      head := (head + 1) % capacity;
    }

    /** pcq_dequeue's region under the size lock. */
    method DequeueReserve() returns (reserved: bool)
      requires Valid()
      modifies this`currentSize
      ensures Valid()
      ensures reserved <==> !old(View()).DequeueWaits()
      ensures reserved <==> old(currentSize) != 0 && (old(currentSize) == capacity || head != tail)
      ensures View() == if reserved then old(View()).ReserveElement() else old(View())
    {
      if currentSize == 0 || (tail == head && currentSize != capacity) {
        return false;
      }
      currentSize := currentSize - 1;
      return true;
    }

    /** pcq_dequeue's region under the tail lock. */
    method DequeueTransfer() returns (data: Option<T>)
      requires Valid()
      modifies this`tail, buffer
      ensures Valid()
      ensures data == old(View()).buffer[old(View()).tail] && View() == old(View()).Remove()
      ensures old(tail) < |old(buffer[..])| && buffer[..] == old(buffer[..])[old(tail) := None]
    {
      data := buffer[tail];
      buffer[tail] := None;
      tail := (tail + 1) % capacity;
    }
  }

  /** The ring between calls, read as a queue: the elements from tail on. */
  ghost predicate Represents<T>(r: Ring<T>, elements: seq<T>) {
    && r.Shape() && r.size == |elements|
    && r.head == (r.tail + |elements|) % r.capacity
    && forall i :: 0 <= i < |elements| ==>
         (r.tail + i) % r.capacity < |r.buffer| && r.buffer[(r.tail + i) % r.capacity] == Some(elements[i])
  }

  /** Uninterrupted calls are queue operations: an enqueue appends unless the ring is full,
      a dequeue returns the first element unless there is none. */
  lemma UninterruptedEnqueue<T>(r: Ring<T>, elements: seq<T>, x: T)
    requires Represents(r, elements)
    ensures r.EnqueueWaits() <==> |elements| == r.capacity
    ensures !r.EnqueueWaits() ==> Represents(r.ReserveSpace().Store(x), elements + [x])
  {
    SameSlot(r.tail, r.tail + |elements|, r.capacity);
    Remainder(r.tail, r.capacity, 0, r.tail);
    NextIndex(r.tail + |elements|, r.capacity);
    if !r.EnqueueWaits() {
      var r' := r.ReserveSpace().Store(x);
      forall i | 0 <= i < |elements|
        ensures r'.buffer[(r.tail + i) % r.capacity] == Some(elements[i])
      {
        SameSlot(r.tail + i, r.tail + |elements|, r.capacity);
      }
    }
  }

  lemma UninterruptedDequeue<T>(r: Ring<T>, elements: seq<T>)
    requires Represents(r, elements)
    ensures r.DequeueWaits() <==> elements == []
    ensures elements != [] ==>
              && r.buffer[r.tail] == Some(elements[0])
              && Represents(r.ReserveElement().Remove(), elements[1..])
  {
    SameSlot(r.tail, r.tail + |elements|, r.capacity);
    Remainder(r.tail, r.capacity, 0, r.tail);
    if elements != [] {
      var r' := r.ReserveElement().Remove();
      NextIndex(r.tail, r.capacity);
      ShiftSlots(r.tail, |elements| - 1, r.capacity);
      forall i | 0 <= i < |elements| - 1
        ensures r'.buffer[(r'.tail + i) % r.capacity] == Some(elements[1..][i])
      {
        ShiftSlots(r.tail, i, r.capacity);
        SameSlot(r.tail, r.tail + i + 1, r.capacity);
      }
    }
  }

  /** Counting on from the next slot. */
  lemma ShiftSlots(tail: nat, i: nat, capacity: nat)
    requires tail < capacity && i < capacity
    ensures (NextSlot(tail, capacity) + i) % capacity == (tail + i + 1) % capacity
  {
    NextSlotIs(tail, capacity);
    if tail + 1 == capacity {
      Remainder(i, capacity, 0, i);
      Remainder(tail + i + 1, capacity, 1, i);
    }
  }
}
