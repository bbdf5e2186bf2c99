/** Index arithmetic of the ring: a bit mask over unsigned 64-bit indices, against unbounded counters. */
module RingIndex {

  function Power(k: nat): (p: nat)
    ensures p >= 1
  {
    if k == 0 then 1 else 2 * Power(k - 1)
  }

  /** Bitwise conjunction. */
  function And(a: nat, b: nat): nat {
    if a == 0 || b == 0 then 0 else 2 * And(a / 2, b / 2) + (a % 2) * (b % 2)
  }

  const WORD: nat := 0x1_0000_0000_0000_0000

  /** The capacities that the static assertions of the source admit. */
  predicate IsCapacity(capacity: nat) {
    2 <= capacity < WORD && And(capacity, capacity - 1) == 0
  }

  lemma BitSquared(r: nat)
    requires r < 2
    ensures r * r == r
  {
  }

  lemma {:induction false} AndSelf(n: nat)
    ensures And(n, n) == n
  {
    if n > 0 {
      AndSelf(n / 2);
      BitSquared(n % 2);
    }
  }

  lemma {:induction false} CapacityIsPower(n: nat) returns (k: nat)
    requires n >= 1 && And(n, n - 1) == 0
    ensures n == Power(k)
  {
    if n == 1 {
      k := 0;
      assert Power(0) == 1;
    } else {
      if n % 2 == 1 {
        AndSelf(n / 2);
      }
      assert (n - 1) / 2 == n / 2 - 1;
      k := CapacityIsPower(n / 2);
      k := k + 1;
      assert Power(k) == 2 * Power(k - 1);
    }
  }

  lemma AndOdd(x: nat, p: nat)
    requires x > 0 && p >= 1
    ensures And(x, 2 * p - 1) == 2 * And(x / 2, p - 1) + x % 2
  {
    assert (2 * p - 1) / 2 == p - 1 && (2 * p - 1) % 2 == 1;
  }

  lemma MaskDoubles(x: nat, p: nat)
    requires p >= 1 && And(x / 2, p - 1) == (x / 2) % p
    ensures And(x, 2 * p - 1) == x % (2 * p)
  {
    hide And;
    HalvesModulo(x, p);
    if x == 0 {
      AndZero(2 * p - 1);
      ModuloIs(0, 2 * p, 0, 0);
    } else {
      AndOdd(x, p);
    }
  }

  lemma AndZero(b: nat)
    ensures And(0, b) == 0 == And(b, 0)
  {
  }

  /** Masking with a power of two minus one is the remainder of division by it. */
  lemma {:induction false} MaskIsModulo(x: nat, k: nat)
    ensures And(x, Power(k) - 1) == x % Power(k)
    decreases k
  {
    hide And;
    if k == 0 {
      AndZero(x);
    } else {
      MaskIsModulo(x / 2, k - 1);
      MaskDoubles(x, Power(k - 1));
    }
  }

  lemma HalvesModulo(x: nat, p: nat)
    requires p >= 1
    ensures x % (2 * p) == 2 * ((x / 2) % p) + x % 2
  {
    var q, r := (x / 2) / p, (x / 2) % p;
    assert x / 2 == q * p + r;
    var rest := 2 * r + x % 2;
    assert x == q * (2 * p) + rest;
    assert 0 <= rest < 2 * p;
    ModuloIs(x, 2 * p, q, rest);
  }

  lemma ModuloIs(x: int, m: nat, q: int, r: nat)
    requires m >= 1 && x == q * m + r && r < m
    ensures x % m == r
  {
    var d := x / m - q;
    assert d * m == r - x % m;
    assert d >= 1 ==> d * m >= m;
    assert d <= -1 ==> d * m + m <= 0;
  }

  function Increment(index: nat, capacity: nat): nat
    requires capacity >= 1
  {
    And(index + 1, capacity - 1)
  }

  /** `tail - head` wraps around like the unsigned subtraction of the source. */
  function Distance(head: nat, tail: nat, capacity: nat): nat
    requires head < WORD && tail < WORD && capacity >= 1
  {
    And((tail - head) % WORD, capacity - 1)
  }

  /** The slot of the element with number `counter`. */
  function SlotOf(counter: nat, capacity: nat): (slot: nat)
    requires capacity >= 1
    ensures slot < capacity
  {
    counter % capacity
  }

  lemma ModuloSucc(x: nat, m: nat)
    requires m >= 1
    ensures (x % m + 1) % m == (x + 1) % m
  {
    var q, r := x / m, x % m;
    if r + 1 < m {
      ModuloIs(x + 1, m, q, r + 1);
    } else {
      assert x + 1 == (q + 1) * m;
      ModuloIs(x + 1, m, q + 1, 0);
    }
  }

  /** Incrementing an index moves to the slot of the next element. */
  lemma IncrementIsNext(counter: nat, capacity: nat)
    requires IsCapacity(capacity)
    ensures Increment(SlotOf(counter, capacity), capacity) == SlotOf(counter + 1, capacity)
  {
    var k := CapacityIsPower(capacity);
    MaskIsModulo(SlotOf(counter, capacity) + 1, k);
    ModuloSucc(counter, capacity);
  }

  /** Less than one lap apart, equal slots mean equal counters. */
  lemma SlotsDiffer(a: nat, b: nat, capacity: nat)
    requires capacity >= 1 && a <= b < a + capacity
    ensures SlotOf(a, capacity) == SlotOf(b, capacity) <==> a == b
  {
    var q, r := a / capacity, a % capacity;
    if r + (b - a) < capacity {
      ModuloIs(b, capacity, q, r + (b - a));
    } else {
      assert b == (q + 1) * capacity + (r + (b - a) - capacity);
      ModuloIs(b, capacity, q + 1, r + (b - a) - capacity);
    }
  }

  /** Up to one lap ahead, equal slots mean a distance of 0 or of exactly one lap. */
  lemma LapOf(b: nat, a: nat, capacity: nat)
    requires capacity >= 1 && a < b <= a + capacity
    ensures SlotOf(b, capacity) == SlotOf(a, capacity) <==> b == a + capacity
  {
    if b == a + capacity {
      var q, r := a / capacity, a % capacity;
      assert b == (q + 1) * capacity + r;
      ModuloIs(b, capacity, q + 1, r);
    } else {
      SlotsDiffer(a, b, capacity);
    }
  }

  /** At any distance, equal slots mean a whole number of laps. */
  lemma SlotsAgreeIff(a: nat, b: nat, capacity: nat)
    requires capacity >= 1 && a <= b
    ensures SlotOf(a, capacity) == SlotOf(b, capacity) <==> (b - a) % capacity == 0
  {
    var p, q := a / capacity, b / capacity;
    if SlotOf(a, capacity) == SlotOf(b, capacity) {
      assert b - a == (q - p) * capacity + 0;
      ModuloIs(b - a, capacity, q - p, 0);
    }
    if (b - a) % capacity == 0 {
      var d := (b - a) / capacity;
      assert b == (p + d) * capacity + a % capacity;
      ModuloIs(b, capacity, p + d, a % capacity);
    }
  }

  lemma {:induction false} PowersDivide(k: nat, n: nat) returns (q: nat)
    requires k <= n
    ensures Power(n) == q * Power(k)
  {
    if k == n {
      q := 1;
    } else {
      q := PowersDivide(k, n - 1);
      assert Power(n) == 2 * (q * Power(k)) == (2 * q) * Power(k);
      q := 2 * q;
    }
  }

  /** The masked difference of two indices, wrap-around included, is the difference of the counters but for laps. */
  lemma DistanceIsModulo(h: nat, t: nat, capacity: nat)
    requires IsCapacity(capacity) && h <= t
    ensures Distance(SlotOf(h, capacity), SlotOf(t, capacity), capacity) == (t - h) % capacity
  {
    hide And, Power;
    var k := CapacityIsPower(capacity);
    var head, tail := SlotOf(h, capacity), SlotOf(t, capacity);
    WordIsPower();
    PowerBelow(k, 64);
    var laps := PowersDivide(k, 64);
    MaskIsModulo((tail - head) % WORD, k);
    if head <= tail {
      ModuloIs(tail - head, WORD, 0, tail - head);
      LapsApart(h, t, capacity, 0);
    } else {
      ModuloIs(tail - head, WORD, -1, WORD + tail - head);
      LapsApart(h, t, capacity, laps);
    }
  }

  /** Less than one lap apart it counts the elements between them. */
  lemma DistanceCounts(h: nat, t: nat, capacity: nat)
    requires IsCapacity(capacity) && h <= t < h + capacity
    ensures Distance(SlotOf(h, capacity), SlotOf(t, capacity), capacity) == t - h
  {
    DistanceIsModulo(h, t, capacity);
    ModuloIs(t - h, capacity, 0, t - h);
  }

  /** Two indices of which `empty` and `size` say that `count` elements lie between them. */
  predicate Shows(head: nat, tail: nat, capacity: nat, count: int) {
    && head < WORD && tail < WORD && capacity >= 1
    && (head == tail <==> count == 0)
    && Distance(head, tail, capacity) == count
  }

  lemma ShowsCount(h: nat, t: nat, capacity: nat)
    requires IsCapacity(capacity) && h <= t < h + capacity
    ensures Shows(SlotOf(h, capacity), SlotOf(t, capacity), capacity, t - h)
  {
    SlotsDiffer(h, t, capacity);
    DistanceCounts(h, t, capacity);
  }

  lemma LapsApart(h: nat, t: nat, capacity: nat, laps: nat)
    requires capacity >= 1 && h <= t
    requires laps * capacity + SlotOf(t, capacity) >= SlotOf(h, capacity)
    ensures (laps * capacity + SlotOf(t, capacity) - SlotOf(h, capacity)) % capacity == (t - h) % capacity
  {
    var p, q, d := h / capacity, t / capacity, (t - h) / capacity;
    var x := laps * capacity + SlotOf(t, capacity) - SlotOf(h, capacity);
    assert x == (laps + p - q) * capacity + (t - h);
    assert x == (laps + p - q + d) * capacity + (t - h) % capacity;
    ModuloIs(x, capacity, laps + p - q + d, (t - h) % capacity);
  }

  lemma WordIsPower()
    ensures WORD == Power(64)
  {
    assert Power(8) == 256;
    assert Power(16) == 65536;
    assert Power(24) == 0x100_0000;
    assert Power(32) == 0x1_0000_0000;
    assert Power(40) == 0x100_0000_0000;
    assert Power(48) == 0x1_0000_0000_0000;
    assert Power(56) == 0x100_0000_0000_0000;
  }

  lemma {:induction false} PowerGrows(n: nat, k: nat)
    requires n <= k
    ensures Power(n) <= Power(k)
  {
    if n < k {
      PowerGrows(n, k - 1);
    }
  }

  lemma PowerBelow(k: nat, n: nat)
    requires Power(k) < Power(n)
    ensures k < n
  {
    if k >= n {
      PowerGrows(n, k);
    }
  }
}
