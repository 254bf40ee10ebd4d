/** The bounded buffer of producer-consumer.c. Each lock region is one step; waiting is a guard tried again. */
module RingSteps {
  import opened Collections

  function NextSlot(i: nat, capacity: nat): (j: nat)
    requires capacity >= 1
    ensures j < capacity
  {
    (i + 1) % capacity
  }

  /** The fields of pc_queue_t. A slot is None when it holds NULL. */
  datatype Ring<T> = Ring(capacity: nat, size: nat, head: nat, tail: nat, buffer: seq<Option<T>>) {
    predicate Shape() {
      capacity >= 1 && |buffer| == capacity && size <= capacity && head < capacity && tail < capacity
    }

    /** pcq_enqueue waits: no space, or the space counted as free has not been read out yet. */
    predicate EnqueueWaits() {
      size == capacity || (head == tail && size != 0)
    }

    /** pcq_dequeue waits: nothing there, or what is counted as there has not been stored yet. */
    predicate DequeueWaits() {
      size == 0 || (tail == head && size != capacity)
    }

    function ReserveSpace(): Ring<T> {
      this.(size := size + 1)
    }

    function Store(x: T): Ring<T>
      requires Shape()
    {
      this.(buffer := buffer[head := Some(x)], head := NextSlot(head, capacity))
    }

    function ReserveElement(): Ring<T>
      requires size > 0
    {
      this.(size := size - 1)
    }

    function Remove(): Ring<T>
      requires Shape()
    {
      this.(buffer := buffer[tail := None], tail := NextSlot(tail, capacity))
    }
  }

  /** The ring, the calls that have reserved and not yet transferred, and what has happened:
      elements in the order they were reserved, stored and returned. */
  datatype World<T> = World(
    ring: Ring<T>,
    enqueuing: multiset<T>,
    dequeuing: nat,
    reserved: seq<T>,
    written: seq<T>,
    read: seq<Option<T>>)

  datatype Step<T> =
    | EnqueueReserve(x: T)
    | EnqueueTransfer(x: T)
    | DequeueReserve
    | DequeueTransfer

  /** pcq_create: the buffer comes from malloc with whatever it holds. */
  function Created<T>(buffer: seq<Option<T>>): World<T> {
    World(Ring(|buffer|, 0, 0, 0, buffer), multiset{}, 0, [], [], [])
  }

  predicate Enabled<T(==)>(w: World<T>, step: Step<T>) {
    match step
    case EnqueueReserve(_) => !w.ring.EnqueueWaits()
    case EnqueueTransfer(x) => x in w.enqueuing
    case DequeueReserve => !w.ring.DequeueWaits()
    case DequeueTransfer => w.dequeuing > 0
  }

  function Next<T(==)>(w: World<T>, step: Step<T>): World<T>
    requires w.ring.Shape() && Enabled(w, step)
  {
    match step
    case EnqueueReserve(x) =>
      w.(ring := w.ring.ReserveSpace(), enqueuing := w.enqueuing + multiset{x}, reserved := w.reserved + [x])
    case EnqueueTransfer(x) =>
      w.(ring := w.ring.Store(x), enqueuing := w.enqueuing - multiset{x}, written := w.written + [x])
    case DequeueReserve =>
      w.(ring := w.ring.ReserveElement(), dequeuing := w.dequeuing + 1)
    case DequeueTransfer =>
      w.(ring := w.ring.Remove(), dequeuing := w.dequeuing - 1, read := w.read + [w.ring.buffer[w.ring.tail]])
  }

  // ---------- counting, for any number of threads ----------

  ghost predicate Counts<T>(w: World<T>) {
    && w.ring.Shape()
    && w.ring.size == |w.written| + |w.enqueuing| - |w.read| - w.dequeuing
    && w.ring.head == |w.written| % w.ring.capacity
    && w.ring.tail == |w.read| % w.ring.capacity
  }

  lemma CreatedCounts<T>(buffer: seq<Option<T>>)
    requires |buffer| >= 1
    ensures Counts(Created(buffer))
  {
  }

  lemma {:induction false} TimesMore(capacity: nat, a: nat, b: nat)
    requires a < b
    ensures capacity * b >= capacity * a + capacity
    decreases b
  {
    assert capacity * b == capacity * (b - 1) + capacity;
    if a < b - 1 {
      TimesMore(capacity, a, b - 1);
    }
  }

  /** A quotient with a remainder below the divisor is the quotient. */
  lemma Remainder(n: nat, capacity: nat, q: nat, r: nat)
    requires capacity >= 1 && n == capacity * q + r && r < capacity
    ensures n % capacity == r
  {
    var p := n / capacity;
    assert n == capacity * p + n % capacity;
    if p < q {
      TimesMore(capacity, p, q);
      assert false;
    } else if q < p {
      TimesMore(capacity, q, p);
      assert false;
    }
  }

  /** Counting transfers modulo the capacity and moving slot by slot agree. */
  lemma NextIndex(n: nat, capacity: nat)
    requires capacity >= 1
    ensures NextSlot(n % capacity, capacity) == (n + 1) % capacity
  {
    var q, r := n / capacity, n % capacity;
    assert n == capacity * q + r;
    NextSlotIs(r, capacity);
    if r + 1 < capacity {
      Remainder(n + 1, capacity, q, r + 1);
    } else {
      assert capacity * (q + 1) == capacity * q + capacity;
      Remainder(n + 1, capacity, q + 1, 0);
    }
  }

  lemma NextSlotIs(i: nat, capacity: nat)
    requires i < capacity
    ensures NextSlot(i, capacity) == if i + 1 == capacity then 0 else i + 1
  {
    if i + 1 == capacity {
      Remainder(capacity, capacity, 1, 0);
    } else {
      Remainder(i + 1, capacity, 0, i + 1);
    }
  }

  /** Two indices a lap or less apart coincide exactly when they are equal or a whole lap apart. */
  lemma SameSlot(low: nat, high: nat, capacity: nat)
    requires capacity >= 1 && low <= high <= low + capacity
    ensures low % capacity == high % capacity <==> high == low || high == low + capacity
  {
    var q, r := low / capacity, low % capacity;
    var d := high - low;
    assert low == capacity * q + r;
    assert capacity * (q + 1) == capacity * q + capacity;
    if r + d < capacity {
      Remainder(high, capacity, q, r + d);
    } else {
      Remainder(high, capacity, q + 1, r + d - capacity);
    }
  }

  /** Whatever the threads do, the fields count the transfers and reservations. */
  lemma CountsKept<T>(w: World<T>, step: Step<T>)
    requires Counts(w) && Enabled(w, step)
    ensures Counts(Next(w, step))
  {
    NextIndex(|w.written|, w.ring.capacity);
    NextIndex(|w.read|, w.ring.capacity);
  }
}
