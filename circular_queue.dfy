/** The bounded ring buffer that connects two adjacent stages of the sieve
    pipeline (`CircularQueue`, `queue_init`, `queue_put`, `queue_get`).

    The two semaphores of `primes.c`, `empty` and `full`, are kept as the
    counters they hold: `emptySlots` and `filledSlots`.  A call that would
    block on one of them is excluded by a precondition, because the model is
    sequential and nothing else could ever wake it.  The mutex only serializes
    the buffer update and is not modelled. */
module CircularQueues {

  /** Slot that holds the element `k` places after the head `first`. */
  function Slot(first: nat, k: nat, capacity: nat): (r: nat)
    requires first < capacity && k < capacity
    ensures r < capacity
  {
    if first + k < capacity then first + k else first + k - capacity
  }

  /** Reduction modulo `m` of a number below `2 * m` is at most one subtraction. */
  lemma ModSmall(a: nat, m: nat)
    requires 0 < m && a < 2 * m
    ensures a % m == if a < m then a else a - m
  {
    if a >= m {
      assert a == m * 1 + (a - m);
    }
  }

  class CircularQueue {
    var v: array<nat>
    var capacity: nat
    var first: nat
    var last: nat
    /** Count held by the `empty` semaphore: slots a producer may still fill. */
    var emptySlots: nat
    /** Count held by the `full` semaphore: values a consumer may still take. */
    var filledSlots: nat

    /** The values in the queue, oldest first. */
    ghost var Contents: seq<nat>

    ghost predicate Valid()
      reads this, v
    {
      && v.Length == capacity
      && 1 <= capacity
      && first < capacity
      && last < capacity
      && emptySlots + filledSlots == capacity
      && |Contents| == filledSlots
      && (filledSlots < capacity ==> last == Slot(first, filledSlots, capacity))
      && (filledSlots == capacity ==> last == first)
      && (forall k :: 0 <= k < filledSlots ==> Contents[k] == v[Slot(first, k, capacity)])
    }

    /** `queue_init`: a buffer of `capacity` slots, both cursors at 0, every
        slot free.  A capacity of 0 is excluded: every cursor update divides
        by it. */
    constructor (capacity: nat)
      requires 1 <= capacity
      ensures Valid() && fresh(v)
      ensures this.capacity == capacity && first == 0 && last == 0
      ensures emptySlots == capacity && filledSlots == 0
      ensures Contents == []
    {
      v := new nat[capacity];
      this.capacity := capacity;
      first := 0;
      last := 0;
      emptySlots := capacity;
      filledSlots := 0;
      Contents := [];
    }

    /** `queue_put`: waits for a free slot, writes `value` at the tail and
        advances the tail cyclically; nothing else in the buffer changes. */
    method Put(value: nat)
      requires Valid()
      requires emptySlots > 0
      modifies this, v
      ensures Valid() && v == old(v) && capacity == old(capacity)
      ensures v[old(last)] == value
      ensures forall j :: 0 <= j < v.Length && j != old(last) ==> v[j] == old(v[j])
      ensures last == (old(last) + 1) % capacity && first == old(first)
      ensures emptySlots == old(emptySlots) - 1 && filledSlots == old(filledSlots) + 1
      ensures Contents == old(Contents) + [value]
    {
      ghost var n := filledSlots;
      assert n < capacity;
      forall k | 0 <= k < n
        ensures Slot(first, k, capacity) != last
      {
        assert last == Slot(first, n, capacity);
      }
      emptySlots := emptySlots - 1;
      v[last] := value;
      ModSmall(last + 1, capacity);
      last := (last + 1) % capacity;
      filledSlots := filledSlots + 1;
      Contents := Contents + [value];
      if filledSlots < capacity {
        assert last == Slot(first, filledSlots, capacity);
      } else {
        assert last == first;
      }
    }

    /** `queue_get`: waits for a filled slot, returns the value at the head
        and advances the head cyclically; the buffer is left as it was. */
    method Get() returns (value: nat)
      requires Valid()
      requires filledSlots > 0
      modifies this
      ensures Valid() && v == old(v) && capacity == old(capacity)
      ensures value == old(v[first]) && value == old(Contents)[0]
      ensures first == (old(first) + 1) % capacity && last == old(last)
      ensures emptySlots == old(emptySlots) + 1 && filledSlots == old(filledSlots) - 1
      ensures Contents == old(Contents)[1..]
    {
      filledSlots := filledSlots - 1;
      assert Contents[0] == v[Slot(first, 0, capacity)];
      value := v[first];
      ghost var oldFirst := first;
      ModSmall(first + 1, capacity);
      first := (first + 1) % capacity;
      forall k | 0 <= k < filledSlots
        ensures Slot(first, k, capacity) == Slot(oldFirst, k + 1, capacity)
      {
      }
      emptySlots := emptySlots + 1;
      Contents := Contents[1..];
    }
  }

  /** First-in first-out: whatever the queue held and then the values `xs`,
      put one after another into the free slots, come out of `Get` in
      exactly that order. */
  method PutAllThenGetAll(q: CircularQueue, xs: seq<nat>) returns (ys: seq<nat>)
    requires q.Valid()
    requires |xs| <= q.emptySlots
    modifies q, q.v
    ensures q.Valid() && q.capacity == old(q.capacity)
    ensures ys == old(q.Contents) + xs
    ensures q.Contents == [] && q.filledSlots == 0 && q.emptySlots == q.capacity
  {
    var i := 0;
    while i < |xs|
      invariant q.Valid() && q.v == old(q.v) && q.capacity == old(q.capacity)
      invariant 0 <= i <= |xs|
      invariant q.Contents == old(q.Contents) + xs[..i]
      invariant q.emptySlots == old(q.emptySlots) - i
    {
      q.Put(xs[i]);
      i := i + 1;
    }
    assert xs[..i] == xs;
    ys := [];
    while q.filledSlots > 0
      invariant q.Valid() && q.v == old(q.v) && q.capacity == old(q.capacity)
      invariant ys + q.Contents == old(q.Contents) + xs
      decreases q.filledSlots
    {
      var x := q.Get();
      ys := ys + [x];
    }
  }
}
