/** The ring buffer class: one call at a time, but with caches as stale as earlier calls left them. */
module SpscRingBuffers {
  import opened RingIndex

  class SpscRingBuffer<T(0)> {
    const capacity: nat
    const buffer: array<T>
    var head: nat
    var tail: nat
    /** The producer's copy of `head` and the consumer's copy of `tail`. */
    var headCache: nat
    var tailCache: nat

    /** How many elements were ever removed and added, as of now and as of the last cached load. */
    ghost var removed: nat
    ghost var added: nat
    ghost var removedSeen: nat
    ghost var addedSeen: nat
    /** Every element ever added. */
    ghost var history: seq<T>

    ghost predicate Valid()
      reads this, buffer
    {
      && Counted() && Stored()
    }

    ghost predicate Stored()
      requires Counted()
      reads this, buffer
    {
      && |history| == added
      && forall n :: removed <= n < added ==> buffer[SlotOf(n, capacity)] == history[n]
    }

    ghost predicate Counted()
      reads this
    {
      && IsCapacity(capacity) && buffer.Length == capacity
      && removedSeen <= removed <= addedSeen <= added < removedSeen + capacity
      && head == SlotOf(removed, capacity) && headCache == SlotOf(removedSeen, capacity)
      && tail == SlotOf(added, capacity) && tailCache == SlotOf(addedSeen, capacity)
    }

    /** The queue, oldest element first. */
    ghost function Contents(): seq<T>
      requires Valid()
      reads this, buffer
    {
      history[removed..]
    }

    constructor (capacity: nat)
      requires IsCapacity(capacity)
      ensures Valid() && Contents() == [] && this.capacity == capacity && fresh(buffer)
    {
      this.capacity := capacity;
      buffer := new T[capacity];
      head, tail, headCache, tailCache := 0, 0, 0, 0;
      removed, added, removedSeen, addedSeen, history := 0, 0, 0, 0, [];
    }

    /** The masked comparison of the producer is true exactly when one slot is left, as far as it knows. */
    lemma LooksFull()
      requires Valid()
      ensures Increment(tail, capacity) == headCache <==> added - removedSeen == capacity - 1
      ensures Increment(tail, capacity) == head <==> added - removed == capacity - 1
    {
      IncrementIsNext(added, capacity);
      LapOf(added + 1, removedSeen, capacity);
      LapOf(added + 1, removed, capacity);
    }

    /** The masked comparison of the consumer is true exactly when nothing is left, as far as it knows. */
    lemma LooksEmpty()
      requires Valid()
      ensures head == tailCache <==> removed == addedSeen
      ensures head == tail <==> removed == added
    {
      SlotsDiffer(removed, addedSeen, capacity);
      SlotsDiffer(removed, added, capacity);
    }

    method Push(value: T) returns (pushed: bool)
      requires Valid()
      modifies this`tail, this`headCache, this`added, this`removedSeen, this`history, buffer
      ensures Valid()
      ensures pushed <==> |old(Contents())| < capacity - 1
      ensures Contents() == if pushed then old(Contents()) + [value] else old(Contents())
    {
      var next := Increment(tail, capacity);
      LooksFull();
      if next == headCache {
        headCache, removedSeen := head, removed;
        if next == headCache {
          return false;
        }
      }
      Append(value, next);
      pushed := true;
    }

    /** Fill the free slot after the last element, then publish it. */
    method Append(value: T, next: nat)
      requires Valid() && added - removedSeen < capacity - 1 && next == Increment(tail, capacity)
      modifies this`tail, this`added, this`history, buffer
      ensures Valid()
      ensures Contents() == old(Contents()) + [value]
    {
      IncrementIsNext(added, capacity);
      forall n | removed <= n < added ensures SlotOf(n, capacity) != tail {
        SlotsDiffer(n, added, capacity);
      }
      buffer[tail] := value;
      tail, added, history := next, added + 1, history + [value];
    }

    /** May the consumer take an element? Reloads the cached tail when it must. */
    method HasElement() returns (any: bool)
      requires Valid()
      modifies this`tailCache, this`addedSeen
      ensures Valid() && Contents() == old(Contents())
      ensures any <==> Contents() != []
      ensures any ==> removed < addedSeen
    {
      LooksEmpty();
      if head == tailCache {
        tailCache, addedSeen := tail, added;
        if head == tailCache {
          return false;
        }
      }
      any := true;
    }

    /** Copy the front element out and remove it; without one, leave the caller's `out` alone. */
    method Pop(out: T) returns (popped: bool, value: T)
      requires Valid()
      modifies this`head, this`tailCache, this`removed, this`addedSeen
      ensures Valid()
      ensures popped <==> old(Contents()) != []
      ensures popped ==> value == old(Contents())[0] && Contents() == old(Contents())[1..]
      ensures !popped ==> value == out && Contents() == []
    {
      value := out;
      popped := HasElement();
      if popped {
        value := buffer[head];
        IncrementIsNext(removed, capacity);
        head, removed := Increment(head, capacity), removed + 1;
      }
    }

    /** The front element, left in place. */
    method Peek() returns (any: bool, slot: nat)
      requires Valid()
      modifies this`tailCache, this`addedSeen
      ensures Valid() && Contents() == old(Contents())
      ensures any <==> Contents() != []
      ensures any ==> slot < buffer.Length && buffer[slot] == Contents()[0]
    {
      any := HasElement();
      slot := head;
    }

    method ConsumeOne() returns (consumed: bool)
      requires Valid()
      modifies this`head, this`tailCache, this`removed, this`addedSeen
      ensures Valid()
      ensures consumed <==> old(Contents()) != []
      ensures Contents() == if consumed then old(Contents())[1..] else []
    {
      consumed := HasElement();
      if consumed {
        IncrementIsNext(removed, capacity);
        head, removed := Increment(head, capacity), removed + 1;
      }
    }

    method Clear()
      requires Valid()
      modifies this`head, this`tailCache, this`removed, this`addedSeen
      ensures Valid() && Contents() == []
    {
      tailCache, addedSeen := tail, added;
      head, removed := tail, added;
    }

    method Full() returns (full: bool)
      requires Valid()
      modifies this`headCache, this`removedSeen
      ensures Valid() && Contents() == old(Contents())
      ensures full <==> |Contents()| == capacity - 1
    {
      var next := Increment(tail, capacity);
      LooksFull();
      if next != headCache {
        return false;
      }
      headCache, removedSeen := head, removed;
      full := next == headCache;
    }

    method Empty() returns (empty: bool)
      requires Valid()
      ensures empty <==> Contents() == []
    {
      LooksEmpty();
      empty := head == tail;
    }

    method Size() returns (size: nat)
      requires Valid()
      ensures size == |Contents()|
    {
      DistanceCounts(removed, added, capacity);
      size := Distance(head, tail, capacity);
    }
  }
}
