/** Runs of the ring under any interleaving: what counting gives for all of them, and exactly when it is
    first-in first-out. */
module RingRuns {
  import opened Collections
  import opened RingSteps

  /** At most e enqueues and d dequeues between their two lock regions. */
  predicate InFlight<T>(w: World<T>, e: nat, d: nat) {
    |w.enqueuing| <= e && w.dequeuing <= d
  }

  /** These steps can be taken one after the other, and never more than e and d calls are in flight. */
  ghost predicate Runs<T>(w: World<T>, steps: seq<Step<T>>, e: nat, d: nat)
    requires Counts(w)
    ensures Runs(w, steps, e, d) ==> Counts(After(w, steps))
    decreases |steps|
  {
    if steps == [] then InFlight(w, e, d)
    else
      var front, last := steps[..|steps| - 1], steps[|steps| - 1];
      && Runs(w, front, e, d)
      && Counts(After(w, front)) && Enabled(After(w, front), last)
      && InFlight(Next(After(w, front), last), e, d)
      && (CountsKept(After(w, front), last); true)
  }

  /** The state after the steps that could be taken. */
  ghost function After<T>(w: World<T>, steps: seq<Step<T>>): World<T>
    decreases |steps|
  {
    if steps == [] then w
    else
      var v := After(w, steps[..|steps| - 1]);
      if v.ring.Shape() && Enabled(v, steps[|steps| - 1]) then Next(v, steps[|steps| - 1]) else v
  }

  /** A run with one more step. */
  lemma OneMore<T>(w: World<T>, steps: seq<Step<T>>, step: Step<T>, e: nat, d: nat)
    requires Counts(w) && Runs(w, steps, e, d) && Enabled(After(w, steps), step)
    requires InFlight(Next(After(w, steps), step), e, d)
    ensures Runs(w, steps + [step], e, d) && After(w, steps + [step]) == Next(After(w, steps), step)
  {
    assert (steps + [step])[..|steps|] == steps;
    CountsKept(After(w, steps), step);
  }

  // ---------- any number of threads ----------

  ghost predicate Quiescent<T>(w: World<T>) {
    w.enqueuing == multiset{} && w.dequeuing == 0
  }

  /** With no call between its two regions, the guards are exactly full and empty, and not both hold. */
  lemma QuiescentGuards<T>(w: World<T>)
    requires Counts(w) && Quiescent(w)
    ensures w.ring.EnqueueWaits() <==> w.ring.size == w.ring.capacity
    ensures w.ring.DequeueWaits() <==> w.ring.size == 0
  {
    SameSlot(|w.read|, |w.written|, w.ring.capacity);
  }

  /** The guards in counts, whatever is in flight. A call goes on when its count allows, and either the ends of the
      stored elements are apart or the count says there is nothing to wait for. */
  lemma GuardsInCounts<T>(w: World<T>, x: T)
    requires Counts(w)
    ensures var cap, n := w.ring.capacity, |w.written| + |w.enqueuing| - |w.read| - w.dequeuing;
            && (Enabled(w, EnqueueReserve(x)) <==> n != cap && (n == 0 || |w.written| % cap != |w.read| % cap))
            && (Enabled(w, DequeueReserve) <==> n != 0 && (n == cap || |w.written| % cap != |w.read| % cap))
  {
  }

  /** While what is stored fits the buffer, the ends coincide exactly when the buffer holds nothing or is full. */
  lemma GuardsWithinALap<T>(w: World<T>, x: T)
    requires Counts(w) && |w.read| <= |w.written| <= |w.read| + w.ring.capacity
    ensures var cap, held := w.ring.capacity, |w.written| - |w.read|;
            var n := held + |w.enqueuing| - w.dequeuing;
            && (Enabled(w, EnqueueReserve(x)) <==> n != cap && (n == 0 || held !in {0, cap}))
            && (Enabled(w, DequeueReserve) <==> n != 0 && (n == cap || held !in {0, cap}))
  {
    SameSlot(|w.read|, |w.written|, w.ring.capacity);
  }

  /** Slot by slot: the k-th element stored goes to slot k modulo the capacity, the k-th fetch empties that slot and
      returns what it held; reserving touches no slot. */
  lemma TransfersInSlots<T>(w: World<T>, x: T)
    requires Counts(w)
    ensures var cap := w.ring.capacity;
            && |w.written| % cap < |w.ring.buffer| && |w.read| % cap < |w.ring.buffer|
            && (x in w.enqueuing ==>
                  var v := Next(w, EnqueueTransfer(x));
                  && v.ring.buffer == w.ring.buffer[|w.written| % cap := Some(x)]
                  && v.written == w.written + [x] && v.read == w.read && v.ring.size == w.ring.size)
            && (w.dequeuing > 0 ==>
                  var v := Next(w, DequeueTransfer);
                  && v.ring.buffer == w.ring.buffer[|w.read| % cap := None]
                  && v.read == w.read + [w.ring.buffer[|w.read| % cap]]
                  && v.written == w.written && v.ring.size == w.ring.size)
            && (Enabled(w, EnqueueReserve(x)) ==> Next(w, EnqueueReserve(x)).ring == w.ring.(size := w.ring.size + 1))
            && (Enabled(w, DequeueReserve) ==> Next(w, DequeueReserve).ring == w.ring.(size := w.ring.size - 1))
  {
  }

  /** While n enqueues and n dequeues are not all through, one of them can take a step. */
  lemma NeverStuck<T>(w: World<T>, n: nat)
    requires Counts(w) && |w.written| + |w.enqueuing| <= n && |w.read| + w.dequeuing <= n
    requires |w.written| < n || |w.read| < n
    ensures || (exists x :: x in w.enqueuing)
            || w.dequeuing > 0
            || (|w.written| + |w.enqueuing| < n && !w.ring.EnqueueWaits())
            || (|w.read| + w.dequeuing < n && !w.ring.DequeueWaits())
  {
    if forall x :: x !in w.enqueuing {
      assert w.enqueuing == multiset{};
      if w.dequeuing == 0 {
        QuiescentGuards(w);
      }
    }
  }

  /** n enqueues and n dequeues that are all through leave the ring empty, with both ends at n modulo the capacity. */
  lemma AllThrough<T>(buffer: seq<Option<T>>, steps: seq<Step<T>>, e: nat, d: nat, n: nat)
    requires |buffer| >= 1 && Counts(Created(buffer)) && Runs(Created(buffer), steps, e, d)
    requires var w := After(Created(buffer), steps); Quiescent(w) && |w.written| == n && |w.read| == n
    ensures var r := After(Created(buffer), steps).ring;
            r.size == 0 && r.head == r.tail == n % |buffer|
  {
    CapacityKept(Created(buffer), steps, e, d);
  }

  lemma {:induction false} CapacityKept<T>(w: World<T>, steps: seq<Step<T>>, e: nat, d: nat)
    requires Counts(w) && Runs(w, steps, e, d)
    ensures After(w, steps).ring.capacity == w.ring.capacity
    decreases |steps|
  {
    if steps != [] {
      CapacityKept(w, steps[..|steps| - 1], e, d);
    }
  }

  // ---------- one enqueue and one dequeue in flight ----------

  /** Slot j modulo the capacity holds the j-th element from when it is stored until it is returned. */
  ghost predicate Holds<T>(w: World<T>)
    requires Counts(w)
  {
    forall j: nat :: |w.read| <= j < |w.written| ==>
      j % w.ring.capacity < |w.ring.buffer| && w.ring.buffer[j % w.ring.capacity] == Some(w.written[j])
  }

  ghost predicate ReadInOrder<T>(w: World<T>) {
    |w.read| <= |w.written| && forall i :: 0 <= i < |w.read| ==> w.read[i] == Some(w.written[i])
  }

  /** Stored elements fit the buffer; there is room for the one being stored, and an element for the one being
      fetched. */
  ghost predicate OneEach<T>(w: World<T>) {
    && Counts(w) && InFlight(w, 1, 1) && w.ring.capacity >= 2
    && |w.read| <= |w.written| <= |w.read| + w.ring.capacity
    && (|w.enqueuing| == 1 ==> |w.written| < |w.read| + w.ring.capacity)
    && (w.dequeuing == 1 ==> |w.written| > |w.read|)
    && Holds(w) && ReadInOrder(w)
  }

  lemma OneEachReserve<T>(w: World<T>, step: Step<T>)
    requires OneEach(w) && Enabled(w, step) && InFlight(Next(w, step), 1, 1)
    requires step.EnqueueReserve? || step.DequeueReserve?
    ensures OneEach(Next(w, step))
  {
    CountsKept(w, step);
    SameSlot(|w.read|, |w.written|, w.ring.capacity);
  }

  /** Storing goes to a slot that holds no unread element. */
  lemma OneEachStore<T>(w: World<T>, x: T)
    requires OneEach(w) && x in w.enqueuing
    ensures OneEach(Next(w, EnqueueTransfer(x)))
  {
    CountsKept(w, EnqueueTransfer(x));
    var v, n := Next(w, EnqueueTransfer(x)), |w.written|;
    assert |w.enqueuing| == 1;
    forall j: nat | |v.read| <= j < |v.written|
      ensures v.ring.buffer[j % v.ring.capacity] == Some(v.written[j])
    {
      if j < n {
        SameSlot(j, n, w.ring.capacity);
      }
    }
  }

  lemma OneEachFetch<T>(w: World<T>)
    requires OneEach(w) && w.dequeuing > 0
    ensures OneEach(Next(w, DequeueTransfer))
  {
    CountsKept(w, DequeueTransfer);
    var v, r := Next(w, DequeueTransfer), |w.read|;
    forall j: nat | |v.read| <= j < |v.written|
      ensures v.ring.buffer[j % v.ring.capacity] == Some(v.written[j])
    {
      SameSlot(r, j, w.ring.capacity);
    }
  }

  lemma {:induction false} OneEachAlways<T>(w: World<T>, steps: seq<Step<T>>)
    requires OneEach(w) && Runs(w, steps, 1, 1)
    ensures OneEach(After(w, steps))
    decreases |steps|
  {
    if steps != [] {
      OneEachAlways(w, steps[..|steps| - 1]);
      var v, step := After(w, steps[..|steps| - 1]), steps[|steps| - 1];
      match step
      case EnqueueTransfer(x) => OneEachStore(v, x);
      case DequeueTransfer => OneEachFetch(v);
      case _ => OneEachReserve(v, step);
    }
  }
}
