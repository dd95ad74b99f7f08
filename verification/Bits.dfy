/** Powers of two, the bitwise `&` of C on unsigned words, and the capacity function of the hash table. */
module Bits {

  const WORD := 0x1_0000_0000_0000_0000  // unsigned long, 64 bits
  const LONG_MAX := 0x7FFF_FFFF_FFFF_FFFF

  ghost function Pow2(k: nat): (p: nat)
    ensures p >= 1
  {
    if k == 0 then 1 else 2 * Pow2(k - 1)
  }

  ghost predicate IsPow2(n: nat) {
    exists k: nat :: n == Pow2(k)
  }

  /** C's `a & b`, bit by bit from the lowest. */
  function BitAnd(a: nat, b: nat): (r: nat)
    ensures r <= a && r <= b
  {
    if a == 0 || b == 0 then 0
    else 2 * BitAnd(a / 2, b / 2) + (if a % 2 == 1 && b % 2 == 1 then 1 else 0)
  }

  lemma MulMonotone(a: nat, b: nat, m: nat)
    requires a <= b
    ensures a * m <= b * m
  {
    assert (b - a) * m >= 0;
  }

  lemma RemainderIs(h: nat, m: nat, q: nat, r: nat)
    requires h == q * m + r && r < m
    ensures h % m == r
  {
    var q', r' := h / m, h % m;
    assert h == q' * m + r' && r' < m;
    if q < q' { MulMonotone(q + 1, q', m); }
    if q' < q { MulMonotone(q' + 1, q, m); }
  }

  lemma AddMultiple(x: nat, q: nat, m: nat)
    requires m > 0
    ensures (q * m + x) % m == x % m
  {
    var k, r := x / m, x % m;
    assert x == k * m + r;
    assert q * m + k * m == (q + k) * m;
    RemainderIs(q * m + x, m, q + k, r);
  }

  /** Reducing before a step of the form `h * a + b` makes no difference after it. */
  lemma ReduceFirst(h: nat, a: nat, b: nat, m: nat)
    requires m > 0
    ensures (h % m * a + b) % m == (h * a + b) % m
  {
    var q, r := h / m, h % m;
    assert h == q * m + r;
    assert (q * m + r) * a == q * a * m + r * a;
    AddMultiple(r * a + b, q * a, m);
  }

  lemma HalfRemainder(h: nat, p: nat)
    requires p > 0
    ensures h % (2 * p) == 2 * (h / 2 % p) + h % 2
  {
    var q, r := h / 2 / p, h / 2 % p;
    var x := q * p;
    assert h / 2 == x + r;
    assert q * (2 * p) == 2 * x;
    RemainderIs(h, 2 * p, q, 2 * r + h % 2);
  }

  /** Masking with `2^k - 1` is reduction modulo `2^k`. */
  lemma {:induction false} MaskIsMod(h: nat, k: nat)
    ensures BitAnd(h, Pow2(k) - 1) == h % Pow2(k)
  {
    if k == 0 {
      RemainderIs(h, 1, h, 0);
    } else {
      var p := Pow2(k - 1);
      MaskIsMod(h / 2, k - 1);
      HalfRemainder(h, p);
      assert (2 * p - 1) / 2 == p - 1 && (2 * p - 1) % 2 == 1;
      MaskOdd(h, p - 1);
    }
  }

  lemma MaskOdd(h: nat, m: nat)
    ensures BitAnd(h, 2 * m + 1) == 2 * BitAnd(h / 2, m) + h % 2
  {
  }

  lemma {:induction false} Pow2Monotone(a: nat, b: nat)
    requires a <= b
    ensures Pow2(a) <= Pow2(b)
  {
    if a < b { Pow2Monotone(a, b - 1); }
  }

  /** Doubling from `i` until `size` is reached: `_dict_next_power` without the word width. */
  function Doubled(i: nat, size: nat): nat
    requires i > 0
    decreases size - i
  {
    if i >= size then i else Doubled(2 * i, size)
  }

  /** The bucket count chosen for a requested size; 4 is DICT_HT_INITIAL_SIZE. */
  function NextPower(size: nat): nat {
    Doubled(4, size)
  }

  lemma {:induction false} DoubledIsLeast(k: nat, size: nat)
    requires k >= 2
    requires k == 2 || Pow2(k - 1) < size
    ensures var n := Doubled(Pow2(k), size);
      && n >= size && n >= 4 && IsPow2(n)
      && forall j: nat :: Pow2(j) >= 4 && Pow2(j) >= size ==> n <= Pow2(j)
    decreases size - Pow2(k)
  {
    var i := Pow2(k);
    Pow2Monotone(2, k);
    assert Pow2(2) == 4 by { assert Pow2(1) == 2; }
    if i >= size {
      forall j: nat | Pow2(j) >= 4 && Pow2(j) >= size ensures i <= Pow2(j) {
        if j < k { Pow2Monotone(j, k - 1); }
        else { Pow2Monotone(k, j); }
      }
    } else {
      assert Pow2(k + 1) == 2 * i;
      DoubledIsLeast(k + 1, size);
    }
  }

  /** The capacity is the least power of two that is at least 4 and at least the requested size. */
  lemma NextPowerIsLeast(size: nat)
    ensures var n := NextPower(size);
      && n >= size && n >= 4 && IsPow2(n)
      && forall m: nat :: IsPow2(m) && m >= 4 && m >= size ==> n <= m
  {
    assert Pow2(2) == 4 by { assert Pow2(1) == 2; }
    DoubledIsLeast(2, size);
  }

  /**
   * `_dict_next_power` as the machine runs it: a 64-bit doubling loop that would wrap at 2^64,
   * and the clamp at LONG_MAX. Below the clamp no doubling wraps and the capacity is `NextPower`.
   */
  method NextPower64(size: nat) returns (i: nat)
    requires size < WORD
    ensures size < LONG_MAX ==> i == NextPower(size) && i < WORD
    ensures size < LONG_MAX ==> IsPow2(i) && 4 <= i && size <= i && (i == 4 || i < 2 * size)
    ensures size >= LONG_MAX ==> i == LONG_MAX
  {
    i := 4;
    if size >= LONG_MAX { return LONG_MAX; }
    while i < size
      invariant 4 <= i && (i == 4 || i < 2 * size)
      invariant Doubled(4, size) == Doubled(i, size)
      decreases size - i
    {
      i := i * 2 % WORD;
    }
    NextPowerIsLeast(size);
  }

  /** With a power-of-two capacity the bucket `hash & sizemask` is `hash mod size`. */
  lemma MaskedIndex(hash: nat, size: nat)
    requires IsPow2(size)
    ensures BitAnd(hash, size - 1) == hash % size < size
  {
    var k: nat :| size == Pow2(k);
    MaskIsMod(hash, k);
  }
}
