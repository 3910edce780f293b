/** Unsigned machine-word arithmetic used by the ring buffer: 64-bit wrap-around,
    bitwise AND, and the power-of-two facts that make masked indexing work. */
module Words {

  const WORD: nat := 0x1_0000_0000_0000_0000

  function Pow2(k: nat): (p: nat)
    ensures p > 0
  {
    if k == 0 then 1 else 2 * Pow2(k - 1)
  }

  /** The value an unsigned word holds. */
  function Wrap(a: nat): (r: nat)
    ensures r < WORD && (a < WORD ==> r == a)
  {
    a % WORD
  }

  /** Unsigned subtraction: the difference modulo 2^64. */
  function WrapSub(a: nat, b: nat): (r: nat)
    ensures r < WORD
  {
    (a - b) % WORD
  }

  /** Unsigned increment: the successor modulo 2^64. */
  function WrapInc(a: nat): (r: nat)
    ensures r < WORD
  {
    (a + 1) % WORD
  }

  /** Bitwise AND, bit by bit. */
  function And(a: nat, b: nat): (r: nat)
    ensures r <= a && r <= b
  {
    if a == 0 || b == 0 then 0
    else 2 * And(a / 2, b / 2) + (if a % 2 == 1 && b % 2 == 1 then 1 else 0)
  }

  /** The compile-time constraint on a buffer's capacity. */
  predicate PowerOfTwo(n: nat) {
    n > 0 && And(n, n - 1) == 0
  }

  lemma {:induction false} AndSelf(a: nat)
    ensures And(a, a) == a
  {
    if a > 0 { AndSelf(a / 2); }
  }

  lemma {:induction false} Pow2PassesBitTrick(k: nat)
    ensures PowerOfTwo(Pow2(k))
  {
    if k > 0 {
      Pow2PassesBitTrick(k - 1);
      EvenBitTrick(Pow2(k - 1));
    }
  }

  lemma EvenBitTrick(m: nat)
    requires m > 0
    ensures PowerOfTwo(2 * m) <==> PowerOfTwo(m)
  {
    assert (2 * m - 1) / 2 == m - 1 && (2 * m) / 2 == m;
    assert And(2 * m, 2 * m - 1) == 2 * And(m, m - 1);
  }

  lemma OddBitTrick(m: nat)
    requires m > 0
    ensures !PowerOfTwo(2 * m + 1)
  {
    AndSelf(m);
    assert (2 * m + 1) / 2 == m && (2 * m) / 2 == m;
    assert And(2 * m + 1, 2 * m) == 2 * And(m, m);
  }

  lemma {:induction false} LogOfPowerOfTwo(n: nat) returns (k: nat)
    requires PowerOfTwo(n)
    ensures n == Pow2(k)
  {
    if n == 1 {
      k := 0;
    } else {
      if n % 2 == 1 { OddBitTrick(n / 2); }
      assert n == 2 * (n / 2);
      EvenBitTrick(n / 2);
      var j := LogOfPowerOfTwo(n / 2);
      k := j + 1;
    }
  }

  /** The bit trick accepts exactly the powers of two. */
  lemma PowerOfTwoIsPow2(n: nat)
    ensures PowerOfTwo(n) <==> exists k: nat :: n == Pow2(k)
  {
    if PowerOfTwo(n) {
      var k := LogOfPowerOfTwo(n);
    }
    if k: nat :| n == Pow2(k) {
      Pow2PassesBitTrick(k);
    }
  }

  lemma TimesAtLeastOne(d: int, k: int)
    requires d > 0 && k >= 1
    ensures d * k >= d
  {
    assert d * (k - 1) >= 0;
  }

  lemma MultipleBetween(d: int, k: int)
    requires d > 0 && -d < d * k < d
    ensures k == 0
  {
    if k >= 1 { TimesAtLeastOne(d, k); }
    if k <= -1 { TimesAtLeastOne(d, -k); }
  }

  lemma DivModUnique(x: int, d: int, q: int, r: int)
    requires d > 0 && x == d * q + r && 0 <= r < d
    ensures x / d == q && x % d == r
  {
    var q', r' := x / d, x % d;
    assert d * q + r == d * q' + r';
    assert d * (q - q') == d * q - d * q';
    MultipleBetween(d, q - q');
  }

  /** Masking with 2^k - 1 is reduction modulo 2^k. */
  lemma {:induction false} MaskIsMod(x: nat, k: nat)
    ensures And(x, Pow2(k) - 1) == x % Pow2(k)
  {
    if k > 0 {
      MaskIsMod(x / 2, k - 1);
      MaskStep(x, Pow2(k - 1));
    }
  }

  lemma MaskStep(x: nat, p: nat)
    requires p > 0 && And(x / 2, p - 1) == (x / 2) % p
    ensures And(x, 2 * p - 1) == x % (2 * p)
  {
    DoubledMod(x, p);
    AndOddMask(x, p);
  }

  lemma AndOddMask(x: nat, p: nat)
    requires p > 0
    ensures And(x, 2 * p - 1) == 2 * And(x / 2, p - 1) + x % 2
  {
    assert (2 * p - 1) / 2 == p - 1 && (2 * p - 1) % 2 == 1;
  }

  lemma DoubledMod(x: nat, p: nat)
    requires p > 0
    ensures x % (2 * p) == 2 * ((x / 2) % p) + x % 2
  {
    var q, r := (x / 2) / p, (x / 2) % p;
    assert x / 2 == p * q + r;
    assert x == (2 * p) * q + (2 * r + x % 2) by { assert (2 * p) * q == 2 * (p * q); }
    DivModUnique(x, 2 * p, q, 2 * r + x % 2);
  }

  lemma {:induction false} Pow2Sum(a: nat, b: nat)
    ensures Pow2(a + b) == Pow2(a) * Pow2(b)
  {
    if a > 0 { Pow2Sum(a - 1, b); }
  }

  lemma {:induction false} Pow2Grows(a: nat, b: nat)
    requires a < b
    ensures Pow2(a) < Pow2(b)
  {
    if a + 1 < b { Pow2Grows(a, b - 1); }
  }

  lemma WordIsPow2()
    ensures Pow2(64) == WORD
  {
    assert Pow2(8) == 256;
    Pow2Sum(8, 8);
    Pow2Sum(16, 16);
    Pow2Sum(32, 32);
  }

  lemma ModOfMod(c: nat, n: nat, m: nat)
    requires n > 0 && m > 0
    ensures (c % (n * m)) % n == c % n
  {
    var w := n * m;
    var q, r := c / w, c % w;
    var q2, r2 := r / n, r % n;
    assert c == w * q + r && r == n * q2 + r2;
    assert w * q == n * (m * q) by { assert n * m * q == n * (m * q); }
    assert c == n * (m * q + q2) + r2 by {
      assert n * (m * q + q2) == n * (m * q) + n * q2;
    }
    DivModUnique(c, n, m * q + q2, r2);
  }

  /** Masking a wrapped counter selects the same slot as the unwrapped counter
      modulo the capacity: the capacity divides 2^64. */
  lemma SlotOfCounter(c: nat, n: nat)
    requires PowerOfTwo(n) && n < WORD
    ensures And(c % WORD, n - 1) == c % n
  {
    var k := LogOfPowerOfTwo(n);
    WordIsPow2();
    if k > 64 { Pow2Grows(64, k); }
    Pow2Sum(k, 64 - k);
    MaskIsMod(c % WORD, k);
    ModOfMod(c, n, Pow2(64 - k));
  }

  /** The difference of two wrapped counters is their true distance. */
  lemma WrapSubOfCounters(h: nat, t: nat)
    requires t <= h < t + WORD
    ensures WrapSub(h % WORD, t % WORD) == h - t
  {
    var x := h % WORD - t % WORD;
    assert h - t == WORD * (h / WORD - t / WORD) + x;
    assert x == WORD * (t / WORD - h / WORD) + (h - t);
    DivModUnique(x, WORD, t / WORD - h / WORD, h - t);
  }

  lemma WrapIncOfCounter(c: nat)
    ensures WrapInc(c % WORD) == (c + 1) % WORD
  {
    var q, r := c / WORD, c % WORD;
    assert c == WORD * q + r;
    if r + 1 == WORD {
      assert c + 1 == WORD * (q + 1);
    } else {
      assert c + 1 == WORD * q + (r + 1);
    }
  }

  /** Counters less than one capacity apart never share a slot. */
  lemma SlotsDistinct(i: nat, j: nat, n: nat)
    requires 0 < n && i < j < i + n
    ensures i % n != j % n
  {
    var a, b := i / n, j / n;
    assert i == n * a + i % n && j == n * b + j % n;
    if i % n == j % n {
      assert n * (b - a) == n * b - n * a;
      MultipleBetween(n, b - a);
    }
  }

  /** The slot a counter selects: the wrapped counter masked with the capacity less one. */
  function Slot(c: nat, n: nat): (k: nat)
    requires 0 < n
    ensures k < n
  {
    And(c % WORD, n - 1)
  }

  /** The slot `i` places past the counter `t`. */
  function SlotFrom(t: nat, i: nat, n: nat): (k: nat)
    requires 0 < n
    ensures k < n
  {
    Slot(t + i, n)
  }

  lemma SlotsFromDistinct(t: nat, i: nat, j: nat, n: nat)
    requires PowerOfTwo(n) && n < WORD && i < j < i + n
    ensures SlotFrom(t, i, n) != SlotFrom(t, j, n)
  {
    SlotOfCounter(t + i, n);
    SlotOfCounter(t + j, n);
    SlotsDistinct(t + i, t + j, n);
  }

  lemma SlotFromNext(t: nat, i: nat, n: nat)
    requires 0 < n
    ensures SlotFrom(WrapInc(t), i, n) == SlotFrom(t, i + 1, n)
  {
    assert (WrapInc(t) + i) % WORD == (t + i + 1) % WORD;
  }

  /** A wrapped counter is the other one advanced by the wrapped difference. */
  lemma WrapSubInverse(h: nat, t: nat)
    requires h < WORD && t < WORD
    ensures (t + WrapSub(h, t)) % WORD == h
  {
    if h >= t { assert WrapSub(h, t) == h - t; } else { assert WrapSub(h, t) == h - t + WORD; }
  }
}
