/** The ring is first-in first-out exactly within limits on the calls in flight. */
module RingFifo {
  import opened Collections
  import opened RingSteps
  import opened RingRuns

  ghost predicate RunsFrom<T>(buffer: seq<Option<T>>, steps: seq<Step<T>>, e: nat, d: nat)
    requires |buffer| >= 1
  {
    CreatedCounts(buffer);
    Runs(Created(buffer), steps, e, d)
  }

  /** In every run of a ring of this capacity with at most e enqueues and d dequeues in flight,
      whatever malloc left in the buffer, the i-th element returned is the i-th element stored. */
  ghost predicate AlwaysInOrder<T(!new)>(capacity: nat, e: nat, d: nat)
    requires capacity >= 1
  {
    forall buffer: seq<Option<T>>, steps: seq<Step<T>> :: |buffer| == capacity && RunsFrom(buffer, steps, e, d) ==>
      ReadInOrder(After(Created(buffer), steps))
  }

  // ---------- within the limits ----------

  /** No enqueue, no element; no dequeue, nothing returned. */
  lemma {:induction false} NothingRead<T>(w: World<T>, steps: seq<Step<T>>, e: nat, d: nat)
    requires Counts(w) && Runs(w, steps, e, d) && (e == 0 || d == 0) && (e == 0 ==> w.written == []) && w.read == []
    ensures After(w, steps).read == [] && (e == 0 ==> After(w, steps).written == [])
    decreases |steps|
  {
    if steps != [] {
      NothingRead(w, steps[..|steps| - 1], e, d);
    }
  }

  lemma {:induction false} LooserLimits<T>(w: World<T>, steps: seq<Step<T>>, e: nat, d: nat)
    requires Counts(w) && Runs(w, steps, e, d) && e <= 1 && d <= 1
    ensures Runs(w, steps, 1, 1)
    decreases |steps|
  {
    if steps != [] {
      LooserLimits(w, steps[..|steps| - 1], e, d);
    }
  }

  lemma InOrderWithin<T(!new)>(capacity: nat, e: nat, d: nat)
    requires capacity >= 1 && (e == 0 || d == 0 || (e <= 1 && d <= 1 && capacity >= 2))
    ensures AlwaysInOrder<T>(capacity, e, d)
  {
    forall buffer: seq<Option<T>>, steps: seq<Step<T>> | |buffer| == capacity && RunsFrom(buffer, steps, e, d)
      ensures ReadInOrder(After(Created(buffer), steps))
    {
      if e == 0 || d == 0 {
        NothingRead(Created(buffer), steps, e, d);
      } else {
        LooserLimits(Created(buffer), steps, e, d);
        OneEachAlways(Created(buffer), steps);
      }
    }
  }

  // ---------- beyond them ----------

  /** A run that stores x k times and leaves the ring quiescent. */
  lemma {:induction false} Filled<T>(buffer: seq<Option<T>>, x: T, k: nat, e: nat, d: nat) returns (steps: seq<Step<T>>)
    requires k < |buffer| && e >= 1
    ensures RunsFrom(buffer, steps, e, d)
    ensures var w := After(Created(buffer), steps);
            && Quiescent(w) && w.read == [] && |w.written| == k && w.ring.capacity == |buffer|
            && (forall i :: 0 <= i < k ==> w.written[i] == x)
    decreases k
  {
    if k == 0 {
      steps := [];
    } else {
      var front := Filled(buffer, x, k - 1, e, d);
      var w := After(Created(buffer), front);
      QuiescentGuards(w);
      OneMore(Created(buffer), front, EnqueueReserve(x), e, d);
      OneMore(Created(buffer), front + [EnqueueReserve(x)], EnqueueTransfer(x), e, d);
      steps := front + [EnqueueReserve(x)] + [EnqueueTransfer(x)];
    }
  }

  /** A run and the state it ends in. */
  ghost predicate Reaches<T>(buffer: seq<Option<T>>, steps: seq<Step<T>>, e: nat, d: nat, w: World<T>)
    requires |buffer| >= 1
  {
    RunsFrom(buffer, steps, e, d) && After(Created(buffer), steps) == w && Counts(w) && w.ring.capacity == |buffer|
  }

  lemma Take<T>(buffer: seq<Option<T>>, steps: seq<Step<T>>, step: Step<T>, e: nat, d: nat, w: World<T>)
    returns (steps': seq<Step<T>>, w': World<T>)
    requires |buffer| >= 1 && Reaches(buffer, steps, e, d, w) && Enabled(w, step) && InFlight(Next(w, step), e, d)
    ensures w' == Next(w, step) && Reaches(buffer, steps', e, d, w')
  {
    CreatedCounts(buffer);
    OneMore(Created(buffer), steps, step, e, d);
    CountsKept(w, step);
    return steps + [step], Next(w, step);
  }

  /** One slot: the second element is stored over the first before that is fetched. */
  lemma SingleSlot<T>(buffer: seq<Option<T>>, x: T, y: T, e: nat, d: nat) returns (steps: seq<Step<T>>, w: World<T>)
    requires |buffer| == 1 && e >= 1 && d >= 1 && x != y
    ensures Reaches(buffer, steps, e, d, w) && w.read != [] && w.read[0] == Some(y) && w.written != []
    ensures w.written[0] == x
  {
    CreatedCounts(buffer);
    hide NextSlot;
    NextSlotIs(0, 1);
    steps, w := [], Created(buffer);
    assert Reaches(buffer, steps, e, d, w);
    hide Reaches;
    hide Counts;
    steps, w := Take(buffer, steps, EnqueueReserve(x), e, d, w);
    steps, w := Take(buffer, steps, EnqueueTransfer(x), e, d, w);
    assert w == World(Ring(1, 1, 0, 0, [Some(x)]), multiset{}, 0, [x], [x], []);
    steps, w := StoreOver(buffer, steps, w, x, y, e, d);
  }

  lemma StoreOver<T>(buffer: seq<Option<T>>, from: seq<Step<T>>, v: World<T>, x: T, y: T, e: nat, d: nat)
    returns (steps: seq<Step<T>>, w: World<T>)
    requires |buffer| == 1 && e >= 1 && d >= 1 && x != y
    requires Reaches(buffer, from, e, d, v) && v == World(Ring(1, 1, 0, 0, [Some(x)]), multiset{}, 0, [x], [x], [])
    ensures Reaches(buffer, steps, e, d, w) && w.read != [] && w.read[0] == Some(y) && w.written != []
    ensures w.written[0] == x
  {
    hide Reaches;
    hide Counts;
    hide NextSlot;
    NextSlotIs(0, 1);
    steps, w := Take(buffer, from, DequeueReserve, e, d, v);
    steps, w := Take(buffer, steps, EnqueueReserve(y), e, d, w);
    assert w == World(Ring(1, 1, 0, 0, [Some(x)]), multiset{y}, 1, [x, y], [x], []);
    steps, w := Take(buffer, steps, EnqueueTransfer(y), e, d, w);
    assert w == World(Ring(1, 1, 0, 0, [Some(y)]), multiset{}, 1, [x, y], [x, y], []);
    steps, w := Take(buffer, steps, DequeueTransfer, e, d, w);
    assert w.read[0] == Some(y) && w.written[0] == x;
  }

  /** Two dequeues reserve while one element is stored and another only reserved; the second fetches an
      unwritten slot. */
  lemma TwoDequeues<T>(buffer: seq<Option<T>>, x: T, e: nat, d: nat) returns (steps: seq<Step<T>>, w: World<T>)
    requires |buffer| >= 2 && e >= 1 && d >= 2
    ensures Reaches(buffer, steps, e, d, w) && |w.written| == 1 && |w.read| == 2 && w.read[1] == buffer[1]
  {
    CreatedCounts(buffer);
    hide NextSlot;
    NextSlotIs(0, |buffer|);
    NextSlotIs(1, |buffer|);
    steps, w := [], Created(buffer);
    assert Reaches(buffer, steps, e, d, w);
    hide Reaches;
    hide Counts;
    steps, w := Take(buffer, steps, EnqueueReserve(x), e, d, w);
    steps, w := Take(buffer, steps, EnqueueTransfer(x), e, d, w);
    assert w.enqueuing == multiset{} && w.ring.head == 1 && w.ring.tail == 0 && w.ring.size == 1;
    steps, w := Take(buffer, steps, EnqueueReserve(x), e, d, w);
    assert w.enqueuing == multiset{x} && w.ring.buffer[1] == buffer[1];
    steps, w := FetchTwice(buffer, steps, w, x, e, d);
  }

  lemma FetchTwice<T>(buffer: seq<Option<T>>, from: seq<Step<T>>, v: World<T>, x: T, e: nat, d: nat)
    returns (steps: seq<Step<T>>, w: World<T>)
    requires |buffer| >= 2 && Reaches(buffer, from, e, d, v) && e >= 1 && d >= 2
    requires v.enqueuing == multiset{x} && v.dequeuing == 0 && |v.written| == 1 && v.read == []
    requires v.ring.Shape() && v.ring.head == 1 && v.ring.tail == 0 && v.ring.size == 2 && v.ring.buffer[1] == buffer[1]
    ensures Reaches(buffer, steps, e, d, w) && |w.written| == 1 && |w.read| == 2 && w.read[1] == buffer[1]
  {
    hide Reaches;
    hide Counts;
    hide NextSlot;
    NextSlotIs(0, v.ring.capacity);
    steps, w := Take(buffer, from, DequeueReserve, e, d, v);
    steps, w := Take(buffer, steps, DequeueReserve, e, d, w);
    steps, w := Take(buffer, steps, DequeueTransfer, e, d, w);
    assert w.ring.tail == 1 && w.ring.buffer[1] == buffer[1];
    steps, w := Take(buffer, steps, DequeueTransfer, e, d, w);
  }

  /** Two enqueues store while a dequeue has reserved and not fetched; the second stores over the oldest element. */
  lemma TwoEnqueues<T>(buffer: seq<Option<T>>, x: T, y: T, e: nat, d: nat) returns (steps: seq<Step<T>>, w: World<T>)
    requires |buffer| >= 2 && e >= 2 && d >= 1 && x != y
    ensures Reaches(buffer, steps, e, d, w) && w.read != [] && w.read[0] == Some(y) && w.written != []
    ensures w.written[0] == x
  {
    CreatedCounts(buffer);
    steps := Filled(buffer, x, |buffer| - 1, e, d);
    w := After(Created(buffer), steps);
    QuiescentGuards(w);
    Remainder(|buffer| - 1, |buffer|, 0, |buffer| - 1);
    Remainder(0, |buffer|, 0, 0);
    assert Reaches(buffer, steps, e, d, w);
    steps, w := BothStore(buffer, steps, w, x, y, e, d);
  }

  /** From a ring with one slot free: the two enqueues and the dequeue reserve, and then the enqueues store. */
  lemma BothStore<T>(buffer: seq<Option<T>>, from: seq<Step<T>>, v: World<T>, x: T, y: T, e: nat, d: nat)
    returns (steps: seq<Step<T>>, w: World<T>)
    requires |buffer| >= 2 && Reaches(buffer, from, e, d, v) && e >= 2 && d >= 1 && x != y
    requires Quiescent(v) && v.read == [] && v.written != [] && v.written[0] == x
    requires v.ring.Shape() && v.ring.size == v.ring.head == v.ring.capacity - 1 && v.ring.tail == 0
    requires v.ring.capacity >= 2
    ensures Reaches(buffer, steps, e, d, w) && w.read != [] && w.read[0] == Some(y) && w.written != []
    ensures w.written[0] == x
  {
    hide Reaches;
    hide Counts;
    steps, w := Take(buffer, from, EnqueueReserve(y), e, d, v);
    steps, w := Take(buffer, steps, DequeueReserve, e, d, w);
    steps, w := Take(buffer, steps, EnqueueReserve(y), e, d, w);
    assert w.enqueuing == multiset{y, y};
    steps, w := StoreTwice(buffer, steps, w, y, e, d);
    assert w.read[0] == Some(y) && w.written[0] == x;
  }

  lemma StoreTwice<T>(buffer: seq<Option<T>>, from: seq<Step<T>>, v: World<T>, y: T, e: nat, d: nat)
    returns (steps: seq<Step<T>>, w: World<T>)
    requires |buffer| >= 2 && Reaches(buffer, from, e, d, v) && e >= 2 && d >= 1
    requires v.enqueuing == multiset{y, y} && v.dequeuing == 1 && v.read == []
    requires v.ring.Shape() && v.ring.head == v.ring.capacity - 1 && v.ring.tail == 0 && v.ring.capacity >= 2
    ensures Reaches(buffer, steps, e, d, w) && w.read == [Some(y)] && w.written == v.written + [y] + [y]
  {
    hide Reaches;
    hide Counts;
    hide NextSlot;
    NextSlotIs(v.ring.capacity - 1, v.ring.capacity);
    assert multiset{y, y} - multiset{y} == multiset{y};
    steps, w := Take(buffer, from, EnqueueTransfer(y), e, d, v);
    assert w.enqueuing == multiset{y} && w.ring.head == 0 && w.ring.tail == 0;
    steps, w := Take(buffer, steps, EnqueueTransfer(y), e, d, w);
    assert w.ring.buffer[0] == Some(y) && w.ring.tail == 0;
    steps, w := Take(buffer, steps, DequeueTransfer, e, d, w);
  }

  /** First-in first-out in every run, exactly when there are no enqueues or no dequeues to speak of,
      or at most one of each in flight and two slots. */
  lemma InOrderExactly<T(!new)>(capacity: nat, e: nat, d: nat, x: T, y: T)
    requires capacity >= 1 && x != y
    ensures AlwaysInOrder<T>(capacity, e, d) <==> e == 0 || d == 0 || (e <= 1 && d <= 1 && capacity >= 2)
  {
    if e == 0 || d == 0 || (e <= 1 && d <= 1 && capacity >= 2) {
      InOrderWithin<T>(capacity, e, d);
    } else {
      var buffer := seq(capacity, i => Some(x));
      var steps: seq<Step<T>>, w;
      if capacity == 1 {
        steps, w := SingleSlot(buffer, x, y, e, d);
      } else if d >= 2 {
        steps, w := TwoDequeues(buffer, x, e, d);
      } else {
        steps, w := TwoEnqueues(buffer, x, y, e, d);
      }
      assert RunsFrom(buffer, steps, e, d) && !ReadInOrder(After(Created(buffer), steps));
    }
  }

  /** The broker's queue: one main thread enqueues, each of n workers dequeues, n slots.
      There is no number of sessions for which its order is guaranteed. */
  lemma BrokerQueue<T(!new)>(n: nat, x: T, y: T)
    requires n >= 1 && x != y
    ensures !AlwaysInOrder<T>(n, 1, n)
  {
    InOrderExactly(n, 1, n, x, y);
  }

  // ---------- the order of the calls ----------

  /** With one enqueue in flight, elements are stored in the order the calls reserved their space. */
  ghost predicate StoredInCallOrder<T>(w: World<T>) {
    && |w.reserved| == |w.written| + |w.enqueuing|
    && w.written <= w.reserved
    && (|w.enqueuing| == 1 ==> w.enqueuing == multiset{w.reserved[|w.written|]})
  }

  lemma {:induction false} CallOrder<T>(w: World<T>, steps: seq<Step<T>>, d: nat)
    requires Counts(w) && Runs(w, steps, 1, d) && InFlight(w, 1, d) && StoredInCallOrder(w)
    ensures StoredInCallOrder(After(w, steps))
    decreases |steps|
  {
    if steps != [] {
      CallOrder(w, steps[..|steps| - 1], d);
      LimitsHold(w, steps[..|steps| - 1], 1, d);
      hide StoredInCallOrder;
      CallOrderKept(After(w, steps[..|steps| - 1]), steps[|steps| - 1], d);
    }
  }

  lemma CallOrderKept<T>(w: World<T>, step: Step<T>, d: nat)
    requires StoredInCallOrder(w) && w.ring.Shape() && Enabled(w, step) && InFlight(w, 1, d)
    requires InFlight(Next(w, step), 1, d)
    ensures StoredInCallOrder(Next(w, step))
  {
    match step
    case EnqueueReserve(x) =>
      assert |w.enqueuing| == 0 && w.enqueuing == multiset{};
    case EnqueueTransfer(x) =>
      assert |w.enqueuing| == 1 && w.enqueuing - multiset{x} == multiset{};
    case _ =>
  }

  lemma {:induction false} LimitsHold<T>(w: World<T>, steps: seq<Step<T>>, e: nat, d: nat)
    requires Counts(w) && Runs(w, steps, e, d)
    ensures InFlight(After(w, steps), e, d)
  {
  }

  /** One producer and one consumer: what has been returned is a prefix of what was handed in. */
  lemma OneProducerOneConsumer<T>(buffer: seq<Option<T>>, steps: seq<Step<T>>, i: nat)
    requires |buffer| >= 2 && RunsFrom(buffer, steps, 1, 1)
    requires i < |After(Created(buffer), steps).read|
    ensures var w := After(Created(buffer), steps); i < |w.reserved| && w.read[i] == Some(w.reserved[i])
  {
    CreatedCounts(buffer);
    OneEachAlways(Created(buffer), steps);
    CallOrder(Created(buffer), steps, 1);
  }
}
