/** Unsigned 64-bit words: wrap-around arithmetic and the bitwise operators the C++ code uses. */
module Words {

  const TWO64: nat := 0x1_0000_0000_0000_0000

  type u64 = x: int | 0 <= x < TWO64

  /** The value a true (unbounded) position has once stored in a 64-bit word. */
  function Wrap(x: int): u64 {
    x % TWO64
  }

  function Add(a: u64, b: nat): u64 {
    Wrap(a + b)
  }

  function Sub(a: u64, b: u64): u64 {
    Wrap(a - b)
  }

  function Mul(a: u64, b: u64): u64 {
    Wrap(a * b)
  }

  function And(a: nat, b: nat): (r: nat)
    ensures r <= a && r <= b
  {
    if a == 0 || b == 0 then 0
    else (if a % 2 == 1 && b % 2 == 1 then 1 else 0) + 2 * And(a / 2, b / 2)
  }

  function Or(a: nat, b: nat): nat
    decreases a + b
  {
    if a == 0 && b == 0 then 0
    else (if a % 2 == 1 || b % 2 == 1 then 1 else 0) + 2 * Or(a / 2, b / 2)
  }

  function Xor(a: nat, b: nat): nat
    decreases a + b
  {
    if a == 0 && b == 0 then 0
    else (if a % 2 != b % 2 then 1 else 0) + 2 * Xor(a / 2, b / 2)
  }

  function Pow2(k: nat): (p: nat)
    ensures p > 0
  {
    if k == 0 then 1 else 2 * Pow2(k - 1)
  }

  // ----- wrap-around positions -----

  lemma SmallWrap(n: nat)
    requires n < TWO64
    ensures Wrap(n) == n
  {}

  lemma WrapAdd(p: nat, k: nat)
    ensures Add(Wrap(p), k) == Wrap(p + k)
  {}

  /** The modular difference of two wrapped positions is their true distance while that is below 2^64. */
  lemma WrapSub(hi: nat, lo: nat)
    requires lo <= hi < lo + TWO64
    ensures Sub(Wrap(hi), Wrap(lo)) == hi - lo
  {}

  // ----- the compile-time capacity check -----

  /** The three static assertions on Capacity: non-zero, (Capacity & (Capacity - 1)) == 0, at most half the range. */
  predicate ValidCapacity(c: int) {
    && 0 < c <= (TWO64 - 1) / 2
    && And(c, c - 1) == 0
  }

  lemma AndSelf(a: nat)
    ensures And(a, a) == a
  {}

  /** The bit trick accepts exactly the powers of two. */
  lemma {:induction false} BitTrickIsPowerOfTwo(c: nat) returns (k: nat)
    requires c > 0 && And(c, c - 1) == 0
    ensures c == Pow2(k)
  {
    if c == 1 {
      k := 0;
    } else if c % 2 == 0 {
      assert (c - 1) / 2 == c / 2 - 1;
      k := BitTrickIsPowerOfTwo(c / 2);
      k := k + 1;
    } else {
      assert (c - 1) / 2 == c / 2;
      AndSelf(c / 2);
      assert false;
    }
  }

  lemma MaskStep(x: nat, h: nat)
    requires h > 0
    ensures And(x, 2 * h - 1) == x % 2 + 2 * And(x / 2, h - 1)
  {}

  lemma {:induction false} MaskIsRemainder(x: nat, k: nat, p: nat)
    requires p == Pow2(k)
    ensures And(x, p - 1) == x % p
  {
    if k > 0 {
      var h := Pow2(k - 1);
      calc {
        And(x, p - 1);
        { MaskStep(x, h); }
        x % 2 + 2 * And(x / 2, h - 1);
        { MaskIsRemainder(x / 2, k - 1, h); }
        x % 2 + 2 * ((x / 2) % h);
        { HalveRemainder(x, h); }
        x % p;
      }
    }
  }

  lemma HalveRemainder(x: nat, h: nat)
    requires h > 0
    ensures x % (2 * h) == x % 2 + 2 * ((x / 2) % h)
  {
    var q, r := (x / 2) / h, (x / 2) % h;
    assert x == (2 * h) * q + (x % 2 + 2 * r) by {
      assert x / 2 == q * h + r;
    }
    RemainderUnique(x, 2 * h, q, x % 2 + 2 * r);
  }

  /** Equal products plus remainders below the modulus have equal quotients. */
  lemma QuotientUnique(m: nat, q: int, r: nat, q': int, r': nat)
    requires r < m && r' < m && m * q + r == m * q' + r'
    ensures q == q' && r == r'
  {
    assert m * (q - q') == r' - r;
    if q > q' { MulAtLeast(m, q - q'); }
    if q < q' { MulAtLeast(m, q' - q); }
  }

  lemma MulAtLeast(m: nat, k: nat)
    requires k >= 1
    ensures m * k >= m
  {}

  lemma RemainderUnique(x: nat, m: nat, q: nat, r: nat)
    requires m > 0 && r < m && x == m * q + r
    ensures x % m == r && x / m == q
  {
    QuotientUnique(m, q, r, x / m, x % m);
  }

  lemma {:induction false} Pow2Add(a: nat, b: nat)
    ensures Pow2(a + b) == Pow2(a) * Pow2(b)
  {
    if a > 0 {
      Pow2Add(a - 1, b);
      assert Pow2(a + b) == 2 * (Pow2(a - 1) * Pow2(b));
    }
  }

  lemma {:induction false} Pow2Monotone(a: nat, b: nat)
    requires a <= b
    ensures Pow2(a) <= Pow2(b)
  {
    if a < b { Pow2Monotone(a, b - 1); }
  }

  lemma Pow2Of2()
    ensures Pow2(2) == 4
  {}

  lemma Pow2Of64()
    ensures Pow2(64) == TWO64
  {
    hide Pow2;
    Pow2Of2();
    Pow2Add(2, 2);
    Pow2Add(4, 4);
    Pow2Add(8, 8);
    Pow2Add(16, 16);
    Pow2Add(32, 32);
  }

  lemma RemainderOfRemainder(x: nat, m: nat, f: nat)
    requires m > 0 && f > 0
    ensures (x % (m * f)) % m == x % m
  {
    var q, r := x / (m * f), x % (m * f);
    var q', r' := r / m, r % m;
    assert x == m * (f * q + q') + r' by {
      assert x == (m * f) * q + r;
      assert (m * f) * q == m * (f * q);
      assert m * (f * q + q') == m * (f * q) + m * q';
    }
    RemainderUnique(x, m, f * q + q', r');
  }

  /** Masking a wrapped position yields the ring slot of the true position: rollover does not move a slot. */
  lemma MaskedSlot(p: nat, c: nat)
    requires ValidCapacity(c)
    ensures And(Wrap(p), c - 1) == p % c
  {
    var k := BitTrickIsPowerOfTwo(c);
    if k > 63 {
      Pow2Monotone(64, k);
      Pow2Of64();
      assert false;
    }
    MaskIsRemainder(Wrap(p), k, c);
    Pow2Of64();
    Pow2Add(k, 64 - k);
    RemainderOfRemainder(p, c, Pow2(64 - k));
  }

  /** Two positions less than one lap apart share a slot only when they are equal. */
  lemma SlotInjective(p: nat, q: nat, c: nat)
    requires c > 0 && p <= q < p + c && p % c == q % c
    ensures p == q
  {
    assert p == c * (p / c) + p % c && q == c * (q / c) + q % c;
    QuotientUnique(c, q / c, 0, p / c, q - p);
  }

  /** Splitting a range at the end of the array gives the slots of the masked positions. */
  lemma SpanSlot(p: nat, k: nat, c: nat)
    requires c > 0 && k < c
    ensures (p + k) % c == if k < c - p % c then p % c + k else k - (c - p % c)
  {
    var q, r := p / c, p % c;
    assert p == c * q + r;
    if k < c - r {
      RemainderUnique(p + k, c, q, r + k);
    } else {
      assert p + k == c * (q + 1) + (r + k - c);
      RemainderUnique(p + k, c, q + 1, r + k - c);
    }
  }

  // ----- multiples -----

  predicate IsMultiple(a: nat, n: nat) {
    n > 0 && a % n == 0
  }

  lemma ZeroIsMultiple(n: nat)
    requires n > 0
    ensures IsMultiple(0, n)
  {}

  lemma NextMultiple(a: nat, b: nat, n: nat)
    requires IsMultiple(a, n) && IsMultiple(b, n) && a < b
    ensures a + n <= b && IsMultiple(a + n, n)
  {
    RemainderUnique(a + n, n, a / n + 1, 0);
    if a + n > b {
      QuotientUnique(n, b / n, 0, a / n, b - a);
    }
  }

  // ----- bitwise operators on words -----

  /** Bitwise operators stay within the word. */
  lemma {:induction false} BitsBelow(a: nat, b: nat, k: nat)
    requires a < Pow2(k) && b < Pow2(k)
    ensures Or(a, b) < Pow2(k) && Xor(a, b) < Pow2(k)
  {
    if k > 0 { BitsBelow(a / 2, b / 2, k - 1); }
  }

  lemma OrFits(a: u64, b: u64)
    ensures Or(a, b) < TWO64
  {
    hide Pow2;
    Pow2Of64();
    BitsBelow(a, b, 64);
  }

  lemma XorFits(a: u64, b: u64)
    ensures Xor(a, b) < TWO64
  {
    hide Pow2;
    Pow2Of64();
    BitsBelow(a, b, 64);
  }

  function Or64(a: u64, b: u64): u64 {
    OrFits(a, b);
    Or(a, b)
  }

  function Xor64(a: u64, b: u64): u64 {
    XorFits(a, b);
    Xor(a, b)
  }

  lemma {:induction false} XorUndone(a: nat, b: nat)
    ensures Xor(Xor(a, b), b) == a && Xor(a, b) == Xor(b, a)
    decreases a + b
  {
    if a != 0 || b != 0 {
      XorUndone(a / 2, b / 2);
    }
  }

  lemma XorTwice(a: u64, b: u64)
    ensures Xor64(Xor64(a, b), b) == a
  {
    XorUndone(a, b);
  }

  lemma XorSwaps(a: u64, b: u64)
    ensures Xor64(a, b) == Xor64(b, a)
  {
    XorUndone(a, b);
  }
}
