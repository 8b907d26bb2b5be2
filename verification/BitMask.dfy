/**
 The index arithmetic of the ring buffer: wrapping 64-bit counters and masking with Capacity - 1.
 */
module BitMask {
  import opened Domain

  function Pow2(k: nat): (p: nat)
    ensures p > 0
  {
    if k == 0 then 1 else 2 * Pow2(k - 1)
  }

  /** Bitwise conjunction of naturals. */
  function BitAnd(x: nat, y: nat): nat {
    if x == 0 || y == 0 then 0
    else (if x % 2 == 1 && y % 2 == 1 then 1 else 0) + 2 * BitAnd(x / 2, y / 2)
  }

  /** size_t addition and subtraction. */
  function Wrap(x: int): (w: nat)
    ensures w < TWO64
  {
    x % TWO64
  }

  /** counter & (Capacity - 1) */
  function Slot(counter: nat, capacity: nat): nat
    requires capacity > 0
  {
    BitAnd(counter, capacity - 1)
  }

  // ---- Division facts -------------------------------------------------------------------------

  lemma MulBound(n: nat, d: int)
    requires n > 0
    ensures d >= 1 ==> n * d >= n
    ensures d <= -1 ==> n * d <= 0 - n
  {
    if d >= 1 {
      assert n * d == n + n * (d - 1);
    } else if d <= -1 {
      assert n * d == n * (d + 1) - n;
    }
  }

  lemma Distribute(n: int, a: int, b: int)
    ensures n * (a - b) == n * a - n * b
  {}

  /** A quotient and an in-range remainder determine the modulus. */
  lemma ModUnique(x: int, n: nat, q: int, r: nat)
    requires n > 0 && r < n && x == n * q + r
    ensures x % n == r
  {
    var q', r' := x / n, x % n;
    assert x == n * q' + r';
    Distribute(n, q, q');
    MulBound(n, q - q');
  }

  lemma ModOfMultiple(x: nat, a: nat, b: nat)
    requires a > 0 && b > 0 && a * b > 0
    ensures x % (a * b) % a == x % a
  {
    var q, r := x / (a * b), x % (a * b);
    var q', r' := r / a, r % a;
    assert x == (a * b) * q + r && r == a * q' + r';
    assert (a * b) * q == a * (b * q);
    assert x == a * (b * q + q') + r' by { Distribute(a, b * q, -q'); }
    ModUnique(x, a, b * q + q', r');
  }

  /** Counters less than n apart never share a slot. */
  lemma ModDistinct(i: nat, j: nat, n: nat)
    requires n > 0 && i < j < i + n
    ensures i % n != j % n
  {
    if i % n == j % n {
      var p, q := i / n, j / n;
      assert j - i == n * q - n * p;
      Distribute(n, q, p);
      MulBound(n, q - p);
    }
  }

  // ---- Masks ----------------------------------------------------------------------------------

  lemma {:induction false} Pow2Adds(i: nat, j: nat)
    ensures Pow2(i + j) == Pow2(i) * Pow2(j)
  {
    if i > 0 {
      Pow2Adds(i - 1, j);
    }
  }

  lemma ModDouble(x: nat, m: nat)
    requires m > 0
    ensures x % (2 * m) == 2 * ((x / 2) % m) + x % 2
  {
    var y, b := x / 2, x % 2;
    var q, r := y / m, y % m;
    assert y == m * q + r;
    assert x == (2 * m) * q + (2 * r + b);
    ModUnique(x, 2 * m, q, 2 * r + b);
  }

  lemma BitAndOdd(x: nat, m: nat)
    requires m > 0
    ensures BitAnd(x, 2 * m - 1) == x % 2 + 2 * BitAnd(x / 2, m - 1)
  {
    assert (2 * m - 1) % 2 == 1 && (2 * m - 1) / 2 == m - 1;
  }

  /** Masking with 2^k - 1 is reduction modulo 2^k. */
  lemma {:induction false} MaskIsMod(x: nat, k: nat)
    ensures BitAnd(x, Pow2(k) - 1) == x % Pow2(k)
  {
    if k > 0 {
      MaskIsMod(x / 2, k - 1);
      BitAndOdd(x, Pow2(k - 1));
      ModDouble(x, Pow2(k - 1));
    }
  }

  lemma Pow2Squares(k: nat, p: nat)
    requires Pow2(k) == p
    ensures Pow2(2 * k) == p * p
  {
    Pow2Adds(k, k);
  }

  lemma WordIsPow2()
    ensures Pow2(64) == TWO64
  {
    assert Pow2(4) == 16;
    Pow2Squares(4, 16);
    Pow2Squares(8, 0x100);
    Pow2Squares(16, 0x1_0000);
    Pow2Squares(32, TWO32);
  }

  lemma CapacityDividesWord(k: nat) returns (co: nat)
    requires k <= 63
    ensures co > 0 && Pow2(k) * co == TWO64 && Pow2(k) < TWO64
  {
    co := Pow2(64 - k);
    WordIsPow2();
    Pow2Adds(k, 64 - k);
    assert co == 2 * Pow2(63 - k);
    MulBound(Pow2(k), co - 1);
  }

  /** The masked index of a wrapped counter is the unbounded counter modulo the capacity, also after the
      64-bit counter has wrapped around. */
  lemma SlotOfWrapped(n: nat, k: nat)
    requires k <= 63
    ensures Slot(Wrap(n), Pow2(k)) == n % Pow2(k)
  {
    MaskIsMod(Wrap(n), k);
    var co := CapacityDividesWord(k);
    ModOfMultiple(n, Pow2(k), co);
  }

  /** head - tail on wrapped counters is the true distance while that fits a word. */
  lemma WrappedDistance(h: nat, t: nat)
    requires t <= h < t + TWO64
    ensures Wrap(Wrap(h) - Wrap(t)) == h - t
  {
    var a, b := h / TWO64, t / TWO64;
    assert Wrap(h) - Wrap(t) == TWO64 * (b - a) + (h - t);
    ModUnique(Wrap(h) - Wrap(t), TWO64, b - a, h - t);
  }

  lemma WrappedSuccessor(n: nat)
    ensures Wrap(Wrap(n) + 1) == Wrap(n + 1)
  {
    var q := n / TWO64;
    var r := Wrap(n + 1);
    assert n + 1 == TWO64 * ((n + 1) / TWO64) + r;
    ModUnique(Wrap(n) + 1, TWO64, (n + 1) / TWO64 - q, r);
  }

  // ---- Why the capacity must be a power of two ------------------------------------------------

  ghost predicate SlotsDistinct(capacity: nat)
    requires capacity > 0
  {
    forall i: nat, j: nat :: i < j < i + capacity ==> Slot(i, capacity) != Slot(j, capacity)
  }

  ghost predicate IsPow2(n: nat) {
    exists k: nat :: n == Pow2(k)
  }

  /** A capacity that is no power of two has a zero bit inside its mask, and two live slots collide there. */
  lemma {:induction false} MaskHole(capacity: nat) returns (j: nat)
    requires capacity > 0 && !IsPow2(capacity)
    ensures 0 < j < capacity && BitAnd(j, capacity - 1) == 0
  {
    assert capacity != Pow2(0);
    if capacity % 2 == 1 {
      j := 1;
    } else {
      assert !IsPow2(capacity / 2) by {
        if k: nat :| capacity / 2 == Pow2(k) {
          assert capacity == Pow2(k + 1);
        }
      }
      var i := MaskHole(capacity / 2);
      j := 2 * i;
    }
  }

  /** Masked slots of any `capacity` consecutive counters are distinct exactly for powers of two. */
  lemma SlotsDistinctIff(capacity: nat)
    requires capacity > 0
    ensures SlotsDistinct(capacity) <==> IsPow2(capacity)
  {
    if IsPow2(capacity) {
      var k: nat :| capacity == Pow2(k);
      forall i: nat, j: nat | i < j < i + capacity
        ensures Slot(i, capacity) != Slot(j, capacity)
      {
        MaskIsMod(i, k);
        MaskIsMod(j, k);
        ModDistinct(i, j, capacity);
      }
    } else {
      var j := MaskHole(capacity);
      assert Slot(0, capacity) == Slot(j, capacity);
    }
  }
}
