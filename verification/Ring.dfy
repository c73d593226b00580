/** Index arithmetic of the descriptor ring: indices that wrap by one subtraction,
    related to absolute positions that never wrap. */
module Ring {

  const U32: nat := 0x1_0000_0000

  /** Advance a ring index, wrapping by at most one subtraction. */
  function Incr(idx: nat, count: nat, size: nat): (r: nat)
    requires idx < size && count <= size
    ensures r < size
  {
    if idx + count >= size then idx + count - size else idx + count
  }

  /** Distance travelled by the hardware index, going forward around the ring. */
  function Delta(from: nat, to: nat, size: nat): (r: nat)
    requires from < size && to < size
    ensures r < size
    ensures Incr(from, r, size) == to
  {
    if to < from then (size - from) + to else to - from
  }

  /** The slot of an absolute position. */
  function Slot(pos: nat, size: nat): nat
    requires 0 < size
  {
    pos % size
  }

  lemma ModStep(a: nat, k: nat, size: nat)
    requires 0 < size && k <= size
    ensures a % size < size
    ensures Incr(a % size, k, size) == (a + k) % size
  {
    var q, r := a / size, a % size;
    assert a == size * q + r;
    if r + k >= size {
      assert a + k == size * (q + 1) + (r + k - size);
      ModUnique(a + k, q + 1, r + k - size, size);
    } else {
      ModUnique(a + k, q, r + k, size);
    }
  }

  lemma ModUnique(x: nat, q: nat, r: nat, size: nat)
    requires 0 < size && r < size && x == size * q + r
    ensures x % size == r && x / size == q
  {
    var d := x / size - q;
    assert size * d == r - x % size by {
      assert x == size * (x / size) + x % size;
      assert size * (x / size) - size * q == size * d;
    }
    MulGap(size, d);
  }

  lemma MulGap(size: nat, d: int)
    ensures d >= 1 ==> size * d >= size
    ensures d <= -1 ==> size * d <= -(size as int)
  {
    if d >= 1 {
      assert size * d == size + size * (d - 1);
    } else if d <= -1 {
      assert size * d == size * (d + 1) - size;
    }
  }

  /** Two absolute positions less than one lap apart fall on the same slot only when equal. */
  lemma ModDistinct(a: nat, b: nat, size: nat)
    requires 0 < size && a < b < a + size
    ensures a % size != b % size
  {
    ModStep(a, b - a, size);
  }

  /** The driver recovers the absolute distance from the two wrapped indices. */
  lemma DeltaIsDistance(a: nat, b: nat, size: nat)
    requires 0 < size && a <= b < a + size
    ensures Delta(a % size, b % size, size) == b - a
  {
    ModStep(a, b - a, size);
  }
}
