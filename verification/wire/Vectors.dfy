/** utils/vector.c: a growing array, and what its growth costs. */
module Vectors {

  const MAX_CAPACITY: nat := 100000

  /** By half, and at least by one. */
  function Increment(capacity: nat): (inc: nat)
    ensures inc >= 1
  {
    if capacity / 2 < 1 then 1 else capacity / 2
  }

  /** The capacity a vector of this one has grown to when it holds n elements. */
  function Grown(capacity: nat, n: nat): (c: nat)
    ensures c >= n && c >= capacity
    decreases n - capacity
  {
    if n <= capacity then capacity else Grown(capacity + Increment(capacity), n)
  }

  /** Elements copied by the reallocations on the way. */
  function Copied(capacity: nat, n: nat): nat
    decreases n - capacity
  {
    if n <= capacity then 0 else capacity + Copied(capacity + Increment(capacity), n)
  }

  class Vector<T(0)> {
    var buff: array<T>
    var size: nat
    var capacity: nat
    ghost var initial: nat
    ghost var copied: nat

    ghost predicate Valid()
      reads this, buff
    {
      && size <= capacity == buff.Length
      && capacity == Grown(initial, size) && copied == Copied(initial, size)
    }

    ghost function Contents(): (s: seq<T>)
      requires size <= buff.Length
      reads this, buff
    {
      buff[..size]
    }

    constructor Create(initialCapacity: nat)
      ensures Valid() && fresh(buff) && Contents() == [] && initial == initialCapacity
    {
      buff := new T[initialCapacity];
      size := 0;
      capacity := initialCapacity;
      initial := initialCapacity;
      copied := 0;
    }

    /** Appends the element, or panics when the vector would outgrow the limit. */
    method Push(data: T) returns (panics: bool)
      requires Valid()
      modifies this, buff
      ensures Valid() && initial == old(initial)
      ensures panics <==> old(size) == old(capacity) && Grown(initial, old(size) + 1) > MAX_CAPACITY
      ensures buff == old(buff) || fresh(buff)
      ensures Contents() == if panics then old(Contents()) else old(Contents()) + [data]
    {
      GrownMore(initial, size);
      if size == capacity {
        var inc := capacity / 2;
        if inc < 1 {
          inc := 1;
        }
        if capacity + inc > MAX_CAPACITY {
          return true;
        }
        Reallocate(capacity + inc);
      }
      buff[size] := data;
      size := size + 1;
      return false;
    }

    /** realloc: a larger array with the same elements in front. */
    method Reallocate(larger: nat)
      requires size == capacity == buff.Length < larger
      modifies this
      ensures fresh(buff) && buff.Length == capacity == larger && size == old(size)
      ensures buff[..size] == old(buff[..size])
      ensures initial == old(initial) && copied == old(copied) + size
    {
      var larger' := new T[larger];
      for i := 0 to size
        invariant size == old(size) && buff == old(buff) && initial == old(initial) && copied == old(copied) + i
        invariant larger'[..i] == buff[..i]
      {
        larger'[i] := buff[i];
        copied := copied + 1;
      }
      buff := larger';
      capacity := larger;
    }
  }

  /** One element more needs a reallocation exactly when the array is full, and that copies all of it. */
  lemma {:induction false} GrownMore(capacity: nat, n: nat)
    ensures Grown(capacity, n + 1)
         == if Grown(capacity, n) == n then n + Increment(n) else Grown(capacity, n)
    ensures Copied(capacity, n + 1) == Copied(capacity, n) + if Grown(capacity, n) == n then n else 0
    decreases n - capacity
  {
    if n > capacity {
      GrownMore(capacity + Increment(capacity), n);
    }
  }

  /** Whatever the capacity to begin with, n pushes copy at most 4n elements. */
  lemma {:induction false} CopiesAreLinear(capacity: nat, n: nat)
    ensures Copied(capacity, n) <= 4 * n
    ensures Copied(capacity, n) <= 3 * Grown(capacity, n)
    decreases n
  {
    if n > 0 {
      CopiesAreLinear(capacity, n - 1);
      GrownMore(capacity, n - 1);
    } else {
      assert Copied(capacity, 0) == 0;
    }
  }

  /** The capacity after k reallocations. */
  function Capacity(initial: nat, k: nat): nat {
    if k == 0 then initial else var c := Capacity(initial, k - 1); c + Increment(c)
  }

  /** What fits the k-th capacity needs no more, and what does not needs the next. */
  lemma {:induction false} GrownBetween(initial: nat, k: nat, n: nat)
    ensures n <= Capacity(initial, k) ==> Grown(initial, n) <= Capacity(initial, k)
    ensures n > Capacity(initial, k) ==> Grown(initial, n) >= Capacity(initial, k + 1)
    decreases k
  {
    hide Increment;
    if k > 0 {
      hide Capacity;
      Shifted(initial, k);
      Shifted(initial, k - 1);
      GrownBetween(initial + Increment(initial), k - 1, n);
    }
  }

  /** The first reallocation taken off. */
  lemma {:induction false} Shifted(initial: nat, k: nat)
    ensures Capacity(initial, k + 1) == Capacity(initial + Increment(initial), k)
    ensures initial <= Capacity(initial, k)
    decreases k
  {
    if k > 0 {
      Shifted(initial, k - 1);
    }
  }

  lemma {:induction false} CapacityTwice(initial: nat, j: nat, k: nat)
    ensures Capacity(Capacity(initial, j), k) == Capacity(initial, j + k)
    decreases k
  {
    if k > 0 {
      CapacityTwice(initial, j, k - 1);
    }
  }

  lemma FromFive()
    ensures Capacity(5, 8) == 109
  {
    assert Capacity(5, 4) == 22;
  }

  lemma From109()
    ensures Capacity(109, 8) == 2776
  {
    assert Capacity(109, 4) == 549;
  }

  lemma From2776()
    ensures Capacity(2776, 8) == 71140 && Capacity(2776, 9) == 106710
  {
    assert Capacity(2776, 4) == 14053;
  }

  /** From five slots, the limit is met at 71140 elements. */
  lemma LimitFromFive(n: nat)
    ensures Grown(5, n) <= MAX_CAPACITY <==> n <= 71140
  {
    hide Capacity;
    FromFive();
    From109();
    From2776();
    CapacityTwice(5, 8, 8);
    CapacityTwice(5, 16, 8);
    CapacityTwice(5, 16, 9);
    GrownBetween(5, 24, n);
  }
}
