/** Unsigned 64-bit words as natural numbers, and the branch-free population
    count of the cross-chain contract. */
module Bits {
  import opened Words

  function Pow2(k: nat): (r: nat)
    ensures r > 0
  {
    if k == 0 then 1 else 2 * Pow2(k - 1)
  }

  /** Bitwise conjunction of two words. */
  function And(a: nat, b: nat): (r: nat)
    ensures r <= a && r <= b
  {
    if a == 0 || b == 0 then 0
    else 2 * And(a / 2, b / 2) + (if a % 2 == 1 && b % 2 == 1 then 1 else 0)
  }

  /** Bitwise disjunction of two words. */
  function Or(a: nat, b: nat): (r: nat)
    ensures r >= a && r >= b
  {
    if a == 0 then b
    else if b == 0 then a
    else 2 * Or(a / 2, b / 2) + (if a % 2 == 1 || b % 2 == 1 then 1 else 0)
  }

  /** Shift left, dropping what leaves the 64-bit word. */
  function Shl64(n: uint64, k: nat): uint64 {
    (n * Pow2(k)) % U64
  }

  function Add64(a: uint64, b: uint64): uint64 {
    (a + b) % U64
  }

  function Sub64(a: uint64, b: uint64): uint64 {
    (a - b) % U64
  }

  predicate Bit(n: nat, i: nat) {
    if i == 0 then n % 2 == 1 else Bit(n / 2, i - 1)
  }

  /** The number of one bits: the reference definition. */
  function Popcount(n: nat): nat {
    if n == 0 then 0 else n % 2 + Popcount(n / 2)
  }

  /** The contract's population count: three-bit fields, then six-bit fields,
      then casting out 63. */
  function BitCount(n: uint64): uint64 {
    var tmp := Sub64(Sub64(n, And(n / 2, 0x36DB6DB6DB6DB6DB)), And(n / 4, 0x9249249249249249));
    And(Add64(tmp, tmp / 8), 0x71C71C71C71C71C7) % 63
  }

  // ---------- Setting one bit ----------

  lemma {:induction false} BitOfPow2(p: nat, q: nat)
    ensures Bit(Pow2(p), q) <==> p == q
  {
    if p == 0 {
      if q > 0 { ZeroHasNoBits(q - 1); }
    } else if q > 0 {
      BitOfPow2(p - 1, q - 1);
    }
  }

  lemma {:induction false} ZeroHasNoBits(q: nat)
    ensures !Bit(0, q)
  {
    if q > 0 { ZeroHasNoBits(q - 1); }
  }

  /** A disjunction has exactly the bits of its two operands. */
  lemma {:induction false} BitOfOr(a: nat, b: nat, q: nat)
    ensures Bit(Or(a, b), q) <==> Bit(a, q) || Bit(b, q)
  {
    ZeroHasNoBits(q);
    if a != 0 && b != 0 && q > 0 {
      BitOfOr(a / 2, b / 2, q - 1);
    }
  }

  lemma {:induction false} PopcountOfPow2(p: nat)
    ensures Popcount(Pow2(p)) == 1
  {
    if p > 0 { PopcountOfPow2(p - 1); }
  }

  /** Switching bit p on adds one to the population count unless it was on. */
  lemma {:induction false} PopcountOfSetBit(n: nat, p: nat)
    ensures Popcount(Or(n, Pow2(p))) == Popcount(n) + (if Bit(n, p) then 0 else 1)
  {
    if n == 0 {
      ZeroHasNoBits(p);
      PopcountOfPow2(p);
    } else if p > 0 {
      PopcountOfSetBit(n / 2, p - 1);
    } else {
      assert Or(n / 2, 0) == n / 2;
    }
  }

  lemma {:induction false} OrStaysBelow(a: nat, b: nat, k: nat)
    requires a < Pow2(k) && b < Pow2(k)
    ensures Or(a, b) < Pow2(k)
  {
    if a != 0 && b != 0 {
      OrStaysBelow(a / 2, b / 2, k - 1);
    }
  }

  lemma {:induction false} Pow2Monotone(j: nat, k: nat)
    requires j < k
    ensures 2 * Pow2(j) <= Pow2(k)
  {
    if j + 1 < k { Pow2Monotone(j, k - 1); }
  }

  lemma {:induction false} Pow2Add(a: nat, b: nat)
    ensures Pow2(a + b) == Pow2(a) * Pow2(b)
  {
    if a > 0 {
      Pow2Add(a - 1, b);
      DoubleProduct(Pow2(a - 1), Pow2(b));
    }
  }

  lemma DoubleProduct(x: nat, y: nat)
    ensures 2 * (x * y) == (2 * x) * y
  {
  }

  lemma Pow2Of64()
    ensures Pow2(64) == U64
  {
    Pow2Of4();
    hide Pow2;
    Pow2Add(4, 4);
    Pow2Add(8, 8);
    Pow2Add(16, 16);
    Pow2Add(32, 32);
  }

  lemma Pow2Of4()
    ensures Pow2(4) == 16
  {
    assert Pow2(4) == 2 * Pow2(3) == 4 * Pow2(2) == 8 * Pow2(1) == 16;
  }

  /** What one turn of the contract's signature loop does to its mask. */
  lemma SetBit(ret: uint64, p: nat)
    requires p < 64
    ensures Shl64(1, p) == Pow2(p)
    ensures Or(ret, Shl64(1, p)) < U64
    ensures Popcount(Or(ret, Shl64(1, p))) == Popcount(ret) + (if Bit(ret, p) then 0 else 1)
    ensures forall q: nat :: Bit(Or(ret, Shl64(1, p)), q) <==> Bit(ret, q) || q == p
  {
    hide Or, Popcount, Bit, Pow2;
    Pow2Of64();
    Pow2Monotone(p, 64);
    OrStaysBelow(ret, Pow2(p), 64);
    PopcountOfSetBit(ret, p);
    forall q: nat ensures Bit(Or(ret, Pow2(p)), q) <==> Bit(ret, q) || q == p {
      BitOfOr(ret, Pow2(p), q);
      BitOfPow2(p, q);
    }
  }

  // ---------- The population count ----------

  /** The words whose octal digits are the bit counts of n's octal digits. */
  function OctalCounts(n: nat): nat {
    if n == 0 then 0 else 8 * OctalCounts(n / 8) + Popcount(n % 8)
  }

  /** k base-b digits, each equal to d: the shape of the three masks. */
  function Repeat(b: nat, d: nat, k: nat): nat {
    if k == 0 then 0 else b * Repeat(b, d, k - 1) + d
  }

  lemma MaskConstants()
    ensures Repeat(8, 3, 21) == 0x36DB6DB6DB6DB6DB
    ensures Repeat(8, 1, 22) == 0x9249249249249249
    ensures Repeat(64, 7, 11) == 0x71C71C71C71C71C7
  {
    assert Repeat(8, 3, 7) == 0x0DB6DB && Repeat(8, 1, 7) == 0x049249 && Repeat(64, 7, 4) == 0x1C71C7;
    assert Repeat(8, 3, 14) == 0x1b6db6db6db && Repeat(8, 1, 14) == 0x9249249249 && Repeat(64, 7, 8) == 0x1c71c71c71c7;
  }

  lemma AndSplit2(x: nat, y: nat, p: nat, q: nat)
    requires p < 2 && q < 2
    ensures And(2 * x + p, 2 * y + q) == 2 * And(x, y) + (if p == 1 && q == 1 then 1 else 0)
  {
  }

  /** Masking an octal digit with 0, 1, 3 or 7 keeps its low 0, 1, 2 or 3 bits. */
  lemma AndDigit(x: nat, y: nat, p: nat, q: nat)
    requires p < 8 && (q == 0 || q == 1 || q == 3 || q == 7)
    ensures And(8 * x + p, 8 * y + q) == 8 * And(x, y) + p % (q + 1)
  {
    hide And;
    var p2, p1, p0 := p / 4, p / 2 % 2, p % 2;
    var q2, q1, q0 := q / 4, q / 2 % 2, q % 2;
    AndSplit2(x, y, p2, q2);
    AndSplit2(2 * x + p2, 2 * y + q2, p1, q1);
    AndSplit2(2 * (2 * x + p2) + p1, 2 * (2 * y + q2) + q1, p0, q0);
    assert 8 * x + p == 2 * (2 * (2 * x + p2) + p1) + p0;
    assert 8 * y + q == 2 * (2 * (2 * y + q2) + q1) + q0;
  }

  lemma PopcountStep(m: nat, b: nat)
    requires b < 2
    ensures Popcount(2 * m + b) == Popcount(m) + b
  {
  }

  lemma PopcountSplit8(m: nat, d: nat)
    requires d < 8
    ensures Popcount(8 * m + d) == Popcount(m) + Popcount(d)
    ensures Popcount(d) == d - d / 2 - d / 4 <= 3
  {
    hide Popcount;
    var d2, d1, d0 := d / 4, d / 2 % 2, d % 2;
    PopcountOfZero();
    PopcountDigit(m, d2, d1, d0);
    PopcountDigit(0, d2, d1, d0);
    assert d == 4 * d2 + 2 * d1 + d0;
  }

  lemma PopcountDigit(m: nat, d2: nat, d1: nat, d0: nat)
    requires d2 < 2 && d1 < 2 && d0 < 2
    ensures Popcount(8 * m + (4 * d2 + 2 * d1 + d0)) == Popcount(m) + d2 + d1 + d0
  {
    PopcountStep(m, d2);
    PopcountStep(2 * m + d2, d1);
    PopcountStep(2 * (2 * m + d2) + d1, d0);
    assert 8 * m + (4 * d2 + 2 * d1 + d0) == 2 * (2 * (2 * m + d2) + d1) + d0;
  }

  function Pow8(k: nat): nat {
    if k == 0 then 1 else 8 * Pow8(k - 1)
  }

  lemma OctalCountsOfBit(n: nat)
    requires n < 2
    ensures OctalCounts(n) == n && And(n / 2, 0) == And(n / 4, 1) == 0
  {
  }

  /** After the two subtractions every octal digit holds its own bit count:
      no digit borrows from the next. */
  lemma {:induction false} SubtractionsCountDigits(n: nat, k: nat)
    requires n < 2 * Pow8(k)
    ensures n - And(n / 2, Repeat(8, 3, k)) - And(n / 4, Repeat(8, 1, k + 1)) == OctalCounts(n)
  {
    hide And;
    if k == 0 {
      OctalCountsOfBit(n);
    } else {
      var m, d := n / 8, n % 8;
      SubtractionsCountDigits(m, k - 1);
      FirstMask(m, d, Repeat(8, 3, k - 1));
      SecondMask(m, d, Repeat(8, 1, k));
      PopcountSplit8(m, d);
    }
  }

  lemma FirstMask(m: nat, d: nat, mask: nat)
    requires d < 8
    ensures And((8 * m + d) / 2, 8 * mask + 3) == 8 * And(m / 2, mask) + d / 2
  {
    hide And;
    AndDigit(m / 2, mask, d / 2 + 4 * (m % 2), 3);
    assert (8 * m + d) / 2 == 8 * (m / 2) + (d / 2 + 4 * (m % 2));
  }

  lemma SecondMask(m: nat, d: nat, mask: nat)
    requires d < 8
    ensures And((8 * m + d) / 4, 8 * mask + 1) == 8 * And(m / 4, mask) + d / 4
  {
    hide And;
    AndDigit(m / 4, mask, d / 4 + 2 * (m % 4), 1);
    assert (8 * m + d) / 4 == 8 * (m / 4) + (d / 4 + 2 * (m % 4));
  }

  lemma {:induction false} OctalCountsBounded(n: nat, k: nat)
    requires n < 2 * Pow8(k)
    ensures 7 * OctalCounts(n) <= 10 * Pow8(k) - 3
  {
    if k == 0 {
      assert OctalCounts(n) == Popcount(n) == n;
    } else {
      OctalCountsBounded(n / 8, k - 1);
      PopcountSplit8(n / 8, n % 8);
    }
  }

  /** Adding neighbouring octal digits never carries: the masked sum of a word
      of octal digits a, b, c, ... has the six-bit digit a + b at its low end. */
  lemma MaskedPairSum(t2: nat, p1: nat, p0: nat, mask: nat)
    requires p1 <= 3 && p0 <= 3 && t2 % 8 <= 3
    ensures var t := 64 * t2 + 8 * p1 + p0;
            And(t + t / 8, 64 * mask + 7) == 64 * And(t2 + t2 / 8, mask) + p0 + p1
  {
    hide And;
    var t := 64 * t2 + 8 * p1 + p0;
    var p2 := t2 % 8;
    assert t / 8 == 8 * t2 + p1;
    assert t + t / 8 == 8 * (8 * (t2 + t2 / 8) + (p1 + p2)) + (p0 + p1);
    AndDigit(8 * (t2 + t2 / 8) + (p1 + p2), 8 * mask, p0 + p1, 7);
    AndDigit(t2 + t2 / 8, mask, p1 + p2, 0);
  }

  lemma OctalCountsUnfold(n: nat)
    ensures OctalCounts(n) == 8 * OctalCounts(n / 8) + Popcount(n % 8)
  {
  }

  lemma OctalCountsLowDigit(n: nat)
    ensures OctalCounts(n) == 8 * OctalCounts(n / 8) + Popcount(n % 8)
    ensures OctalCounts(n) % 8 == Popcount(n % 8) <= 3
    ensures Popcount(n) == Popcount(n / 8) + Popcount(n % 8)
  {
    hide Popcount, OctalCounts;
    var m, d := n / 8, n % 8;
    assert n == 8 * m + d;
    OctalCountsUnfold(n);
    PopcountSplit8(m, d);
  }

  /** The six-bit digits add up to the population count; 64 is 1 modulo 63. */
  lemma {:induction false} PairsCountModulo63(n: nat, j: nat)
    requires n < Pow8(2 * j)
    ensures var t := OctalCounts(n);
            And(t + t / 8, Repeat(64, 7, j)) % 63 == Popcount(n) % 63
  {
    hide And, Popcount, OctalCounts;
    if j == 0 {
      OctalCountsOfBit(0);
      PopcountOfZero();
      AndOfZero(0);
    } else {
      assert Pow8(2 * j) == 8 * Pow8(2 * j - 1) == 64 * Pow8(2 * (j - 1));
      var m := n / 8 / 8;
      OctalCountsLowDigit(n);
      OctalCountsLowDigit(n / 8);
      OctalCountsLowDigit(m);
      PairsCountModulo63(m, j - 1);
      var t2, p1, p0 := OctalCounts(m), Popcount(n / 8 % 8), Popcount(n % 8);
      var mask := Repeat(64, 7, j - 1);
      MaskedPairSum(t2, p1, p0, mask);
      CastOut63(And(t2 + t2 / 8, mask), Popcount(m), p0 + p1);
    }
  }

  lemma AndOfZero(y: nat)
    ensures And(0, y) == 0
  {
  }

  lemma PopcountOfZero()
    ensures Popcount(0) == 0
  {
  }

  lemma CastOut63(a: nat, b: nat, c: nat)
    requires a % 63 == b % 63
    ensures (64 * a + c) % 63 == (b + c) % 63
  {
  }

  lemma {:induction false} Pow8IsPow2(k: nat)
    ensures Pow8(k) == Pow2(3 * k)
  {
    if k > 0 {
      Pow8IsPow2(k - 1);
      assert Pow2(3 * k) == 2 * Pow2(3 * k - 1) == 4 * Pow2(3 * k - 2) == 8 * Pow2(3 * k - 3);
    }
  }

  lemma Pow8Bounds()
    ensures 2 * Pow8(21) == U64 && Pow8(22) == 4 * U64
  {
    Pow2Of64();
    Pow8IsPow2(21);
    assert Pow2(64) == 2 * Pow2(63);
    assert Pow8(22) == 8 * Pow8(21);
  }

  /** The contract's count when no operation wraps around. */
  lemma BitCountUnfold(n: uint64, a: nat, b: nat)
    requires a == And(n / 2, 0x36DB6DB6DB6DB6DB) && b == And(n / 4, 0x9249249249249249)
    requires a + b <= n && (n - a - b) + (n - a - b) / 8 < U64
    ensures var t := n - a - b; BitCount(n) == And(t + t / 8, 0x71C71C71C71C71C7) % 63
  {
    hide And;
    var t := n - a - b;
    assert Sub64(n, a) == n - a;
    assert Sub64(n - a, b) == t;
    assert Add64(t, t / 8) == t + t / 8;
    hide Sub64, Add64;
  }

  /** For every word the contract's count is the population count modulo 63. */
  lemma BitCountIsPopcountModulo63(n: uint64)
    ensures BitCount(n) == Popcount(n) % 63
  {
    hide And, Popcount, OctalCounts, Repeat, Pow8, Pow2, BitCount;
    MaskConstants();
    Pow8Bounds();
    SubtractionsCountDigits(n, 21);
    OctalCountsBounded(n, 21);
    PairsCountModulo63(n, 11);
    BitCountUnfold(n, And(n / 2, 0x36DB6DB6DB6DB6DB), And(n / 4, 0x9249249249249249));
  }

  /** Hence it is the population count exactly for words with fewer than 63 ones. */
  lemma BitCountExactIff(n: uint64)
    ensures BitCount(n) == Popcount(n) <==> Popcount(n) < 63
  {
    hide BitCount, Popcount;
    BitCountIsPopcountModulo63(n);
  }
}
