/** The 32-bit mix function that gives every map entry its treap priority.

    `uint32_t` values are integers below `WORD`; additions, left shifts and products
    wrap modulo `WORD`, and exclusive-or is written out bit by bit. */
module Hash {

  const WORD: int := 0x1_0000_0000

  predicate IsWord(k: int) { 0 <= k < WORD }

  /** Bitwise exclusive-or. */
  function Xor(a: nat, b: nat): nat
    decreases a + b
  {
    if a == 0 && b == 0 then 0
    else (a % 2 + b % 2) % 2 + 2 * Xor(a / 2, b / 2)
  }

  /** Logical right shift by `n` bits. */
  function Shr(x: nat, n: nat): nat {
    if n == 0 then x else Shr(x / 2, n - 1)
  }

  /** `x ^ (x >> n)` on 32-bit words. */
  function XorShift(x: int, n: nat): (r: int)
    requires IsWord(x)
    ensures IsWord(r)
  {
    XorShiftFits(x, n);
    Xor(x, Shr(x, n))
  }

  /** `x * m + c` on 32-bit words. */
  function MulAdd(x: int, m: int, c: int): (r: int)
    requires IsWord(x)
    ensures IsWord(r)
  {
    (x * m + c) % WORD
  }

  /** hash32shift: `~key + (key << 15)` is `key * 32767 - 1`, `key + (key << 2)` is `key * 5`. */
  function HashShift(key: int): (h: int)
    requires IsWord(key)
    ensures IsWord(h)
  {
    Mix(key, SHIFTS[0], SHIFTS[1], SHIFTS[2])
  }

  const SHIFTS: seq<nat> := [12, 4, 16]

  function Mix(key: int, i: nat, j: nat, k: nat): (h: int)
    requires IsWord(key)
    ensures IsWord(h)
  {
    var k2 := XorShift(MulAdd(key, 0x7fff, WORD - 1), i);
    var k4 := XorShift(MulAdd(k2, 5, 0), j);
    XorShift(MulAdd(k4, 2057, 0), k)
  }

  function Pow2(n: nat): nat { if n == 0 then 1 else 2 * Pow2(n - 1) }

  lemma {:induction false} XorFits(a: nat, b: nat, n: nat)
    requires a < Pow2(n) && b < Pow2(n)
    ensures Xor(a, b) < Pow2(n)
  {
    if n > 0 {
      XorFits(a / 2, b / 2, n - 1);
    }
  }

  lemma {:induction false} ShrFits(x: nat, n: nat)
    ensures Shr(x, n) <= x
    ensures n > 0 && x > 0 ==> Shr(x, n) < x
  {
    if n > 0 {
      ShrFits(x / 2, n - 1);
    }
  }

  lemma XorShiftFits(x: int, n: nat)
    requires IsWord(x)
    ensures Xor(x, Shr(x, n)) < WORD
  {
    assert Pow2(32) == WORD by {
      assert Pow2(8) == 0x100;
      assert Pow2(16) == 0x1_0000;
      assert Pow2(24) == 0x100_0000;
    }
    ShrFits(x, n);
    XorFits(x, Shr(x, n), 32);
  }

  lemma {:induction false} XorCancel(a: nat, b: nat, c: nat)
    requires Xor(a, c) == Xor(b, c)
    ensures a == b
    decreases a + b + c
  {
    if a != 0 || b != 0 || c != 0 {
      XorHalves(a, c);
      XorHalves(b, c);
      XorCancel(a / 2, b / 2, c / 2);
    }
  }

  lemma XorHalves(a: nat, b: nat)
    ensures Xor(a, b) / 2 == Xor(a / 2, b / 2)
    ensures Xor(a, b) % 2 == (a % 2 + b % 2) % 2
  {
  }

  lemma {:induction false} XorShr(a: nat, b: nat, n: nat)
    ensures Shr(Xor(a, b), n) == Xor(Shr(a, n), Shr(b, n))
    decreases n
  {
    if n > 0 {
      XorHalves(a, b);
      XorShr(a / 2, b / 2, n - 1);
    }
  }

  /** `x ^ (x >> n)` loses nothing: the high part determines the low part. */
  lemma {:induction false} XorShiftInjective(x: nat, y: nat, n: nat)
    requires n > 0
    requires Xor(x, Shr(x, n)) == Xor(y, Shr(y, n))
    ensures x == y
    decreases x + y
  {
    XorShr(x, Shr(x, n), n);
    XorShr(y, Shr(y, n), n);
    ShrFits(x, n);
    ShrFits(y, n);
    if x + y > 0 {
      XorShiftInjective(Shr(x, n), Shr(y, n), n);
      XorCancel(x, y, Shr(x, n));
    }
  }

  /** Distinct keys get distinct priorities. */
  lemma HashShiftInjective(a: int, b: int)
    requires IsWord(a) && IsWord(b)
    requires HashShift(a) == HashShift(b)
    ensures a == b
  {
    MixInjective(a, b, SHIFTS[0], SHIFTS[1], SHIFTS[2]);
  }

  lemma MixInjective(a: int, b: int, i: nat, j: nat, k: nat)
    requires IsWord(a) && IsWord(b) && i > 0 && j > 0 && k > 0
    requires Mix(a, i, j, k) == Mix(b, i, j, k)
    ensures a == b
  {
    var a2, b2 := XorShift(MulAdd(a, 0x7fff, WORD - 1), i), XorShift(MulAdd(b, 0x7fff, WORD - 1), i);
    var a4, b4 := XorShift(MulAdd(a2, 5, 0), j), XorShift(MulAdd(b2, 5, 0), j);
    assert a4 == b4 by { StepInjective(a4, b4, 2057, 0xc8de_0639, 1614, 0, k); }
    assert a2 == b2 by { StepInjective(a2, b2, 5, 0xcccc_cccd, 4, 0, j); }
    StepInjective(a, b, 0x7fff, 0xbfff_7fff, 24575, WORD - 1, i);
  }

  lemma StepInjective(x: int, y: int, m: int, inverse: int, p: int, c: int, n: nat)
    requires IsWord(x) && IsWord(y) && n > 0
    requires m * inverse == 1 + p * WORD
    requires XorShift(MulAdd(x, m, c), n) == XorShift(MulAdd(y, m, c), n)
    ensures x == y
  {
    XorShiftInjective(MulAdd(x, m, c), MulAdd(y, m, c), n);
    OddMultiplier(x, y, m, inverse, p, c);
  }

  /** Multiplying by an odd constant is injective modulo 2^32: `inverse` undoes it,
      since `m * inverse` is one more than a multiple of 2^32. */
  lemma OddMultiplier(x: int, y: int, m: int, inverse: int, p: int, offset: int)
    requires IsWord(x) && IsWord(y)
    requires m * inverse == 1 + p * WORD
    requires (x * m + offset) % WORD == (y * m + offset) % WORD
    ensures x == y
  {
    var q := (x * m + offset) / WORD - (y * m + offset) / WORD;
    assert (x - y) * m == q * WORD;
    calc {
      x - y;
      (x - y) * (m * inverse - p * WORD);
      (x - y) * m * inverse - (x - y) * p * WORD;
      q * WORD * inverse - (x - y) * p * WORD;
      (q * inverse - (x - y) * p) * WORD;
    }
    var d := q * inverse - (x - y) * p;
    assert -WORD < d * WORD < WORD;
  }

  // ---------- the words and shifts are those of uint32_t ----------

  lemma {:induction false} ShrDivides(x: nat, n: nat)
    ensures Pow2(n) > 0 && Shr(x, n) == x / Pow2(n)
  {
    if n > 0 {
      ShrDivides(x / 2, n - 1);
      HalfFirst(x, Pow2(n - 1));
    }
  }

  lemma HalfFirst(x: nat, p: nat)
    requires p > 0
    ensures x / 2 / p == x / (2 * p)
  {
    var q := x / 2 / p;
    assert x / 2 == q * p + x / 2 % p && x == 2 * (x / 2) + x % 2;
    Quotient(x, 2 * p, q, 2 * (x / 2 % p) + x % 2);
  }

  lemma Quotient(x: nat, p: nat, q: nat, r: nat)
    requires p > 0 && x == q * p + r && r < p
    ensures x / p == q
  {
    var m := x / p;
    assert m * p + x % p == x;
    Monotone(m + 1, q, p);
    Monotone(q + 1, m, p);
    Distribute(m, p);
    Distribute(q, p);
  }

  lemma Monotone(a: int, b: int, p: nat)
    ensures a <= b ==> a * p <= b * p
  {
  }

  lemma Distribute(a: int, p: int)
    ensures (a + 1) * p == a * p + p
  {
  }

  /** Bit by bit, the result has exactly the bits in which the two differ. */
  lemma {:induction false} XorBit(a: nat, b: nat, k: nat)
    ensures Shr(Xor(a, b), k) % 2 == 1 <==> Shr(a, k) % 2 != Shr(b, k) % 2
  {
    XorHalves(a, b);
    if k > 0 {
      XorBit(a / 2, b / 2, k - 1);
    }
  }

  /** hash32shift line by line, with `~k` as 2^32 - 1 - k and `k << n` as k * 2^n. */
  lemma HashLines(key: int)
    requires IsWord(key)
    ensures var a := (WORD - 1 - key + key * 0x8000) % WORD;
      var b := Xor(a, Shr(a, 12));
      var c := (b + b * 4) % WORD;
      var d := Xor(c, Shr(c, 4));
      var e := d * 2057 % WORD;
      HashShift(key) == Xor(e, Shr(e, 16))
  {
    var a := (WORD - 1 - key + key * 0x8000) % WORD;
    assert MulAdd(key, 0x7fff, WORD - 1) == a;
    var b := XorShift(a, 12);
    assert MulAdd(b, 5, 0) == (b + b * 4) % WORD;
  }
}
