/** JavaScript's unsigned 32-bit word operations, written out over integers. */
module Words {
  type Byte = n: nat | n < 256
  type Bytes = seq<Byte>

  /** A path, as its UTF-8 bytes. */
  type Path = Bytes

  const LIMIT := 0x1_0000_0000
  type Word = n: nat | n < LIMIT

  /** Bitwise exclusive or. */
  function Xor(a: nat, b: nat): nat
    decreases a + b
  {
    if a == 0 && b == 0 then 0
    else 2 * Xor(a / 2, b / 2) + if a % 2 == b % 2 then 0 else 1
  }

  /** The logical right shift a >>> k. */
  function Shr(a: nat, k: nat): nat
    decreases k
  {
    if k == 0 then a else Shr(a / 2, k - 1)
  }

  predicate BitSet(a: nat, k: nat) { Shr(a, k) % 2 == 1 }

  /** a | (1 << k) */
  function WithBit(a: nat, k: nat): nat
    decreases k
  {
    if k == 0 then a - a % 2 + 1 else 2 * WithBit(a / 2, k - 1) + a % 2
  }

  lemma {:induction false} WithBitSets(a: nat, k: nat, j: nat)
    ensures BitSet(WithBit(a, k), j) <==> j == k || BitSet(a, j)
    decreases k
  {
    if k > 0 && j > 0 {
      WithBitSets(a / 2, k - 1, j - 1);
    }
    assert WithBit(a, k) / 2 == if k == 0 then a / 2 else WithBit(a / 2, k - 1);
  }

  /** Math.imul, read as an unsigned word. */
  function Imul(x: nat, c: nat): Word { (x * c) % LIMIT }

  function XorWord(a: Word, b: Word): (r: Word) {
    XorStaysAWord(a, b);
    Xor(a, b)
  }

  lemma {:induction false} XorSelf(a: nat)
    ensures Xor(a, a) == 0
    decreases a
  {
    if a != 0 {
      XorSelf(a / 2);
    }
  }

  lemma {:induction false} XorZero(a: nat)
    ensures Xor(a, 0) == a
    decreases a
  {
    if a != 0 {
      XorZero(a / 2);
    }
  }

  /** Peeling off the lowest bit. */
  lemma XorStep(a: nat, b: nat)
    ensures Xor(a, b) / 2 == Xor(a / 2, b / 2)
    ensures Xor(a, b) % 2 == if a % 2 == b % 2 then 0 else 1
  {}

  lemma {:induction false} XorUndo(a: nat, c: nat)
    ensures Xor(Xor(a, c), c) == a
    decreases a + c
  {
    if a != 0 || c != 0 {
      var x := Xor(a, c);
      XorUndo(a / 2, c / 2);
      XorStep(a, c);
      XorStep(x, c);
    }
  }

  lemma XorCancel(a: nat, b: nat, c: nat)
    requires Xor(a, c) == Xor(b, c)
    ensures a == b
  {
    XorUndo(a, c);
    XorUndo(b, c);
  }

  lemma {:induction false} XorSymmetric(a: nat, b: nat)
    ensures Xor(a, b) == Xor(b, a)
    decreases a + b
  {
    if a != 0 || b != 0 {
      XorSymmetric(a / 2, b / 2);
    }
  }

  lemma {:induction false} ShrXor(a: nat, b: nat, k: nat)
    ensures Shr(Xor(a, b), k) == Xor(Shr(a, k), Shr(b, k))
    decreases k
  {
    if k != 0 {
      XorStep(a, b);
      ShrXor(a / 2, b / 2, k - 1);
    }
  }

  lemma {:induction false} ShrAdds(a: nat, j: nat, k: nat)
    ensures Shr(Shr(a, j), k) == Shr(a, j + k)
    decreases j
  {
    if j != 0 {
      ShrAdds(a / 2, j - 1, k);
    }
  }

  function Pow2(k: nat): (p: nat)
    ensures p > 0
  {
    if k == 0 then 1 else 2 * Pow2(k - 1)
  }

  /** The right shift divides. */
  lemma {:induction false} ShrDivides(a: nat, k: nat)
    ensures Shr(a, k) == a / Pow2(k)
    decreases k
  {
    if k != 0 {
      ShrDivides(a / 2, k - 1);
      HalfAndRest(a, Pow2(k - 1));
    }
  }

  lemma HalfAndRest(a: nat, m: nat)
    requires m > 0
    ensures a / 2 / m == a / (2 * m)
  {
    var q, r := a / 2 / m, a / 2 % m;
    assert a == (q * m + r) * 2 + a % 2 == q * (2 * m) + (2 * r + a % 2);
    assert 2 * r + a % 2 < 2 * m;
    QuotientIs(a, 2 * m, q, 2 * r + a % 2);
  }

  lemma QuotientIs(a: nat, m: nat, q: nat, r: nat)
    requires a == q * m + r && r < m
    ensures a / m == q
  {
    var d := a / m - q;
    assert d * m + a % m == r;
    assert d >= 1 ==> d * m >= m;
    assert d < 0 ==> d * m + m <= 0;
  }

  lemma {:induction false} ShrVanishes(a: nat, k: nat)
    ensures Shr(a, k) == 0 <==> a < Pow2(k)
    decreases k
  {
    if k != 0 {
      ShrVanishes(a / 2, k - 1);
    }
  }

  lemma Pow2Of32()
    ensures Pow2(32) == LIMIT
  {
    assert Pow2(8) == 256;
    assert Pow2(16) == 0x1_0000;
    assert Pow2(24) == 0x100_0000;
  }

  lemma XorStaysAWord(a: Word, b: Word)
    ensures Xor(a, b) < LIMIT
  {
    Pow2Of32();
    ShrXor(a, b, 32);
    ShrVanishes(a, 32);
    ShrVanishes(b, 32);
    ShrVanishes(Xor(a, b), 32);
  }

  /** h ^ (h >>> k) can be undone when 2k covers the word. */
  lemma ShiftXorInjective(x: Word, y: Word, k: nat)
    requires 2 * k >= 32
    requires Xor(x, Shr(x, k)) == Xor(y, Shr(y, k))
    ensures x == y
  {
    HighHalfSurvives(x, k);
    HighHalfSurvives(y, k);
    XorCancel(x, y, Shr(x, k));
  }

  lemma HighHalfSurvives(x: Word, k: nat)
    requires 2 * k >= 32
    ensures Shr(Xor(x, Shr(x, k)), k) == Shr(x, k)
  {
    ShrXor(x, Shr(x, k), k);
    ShrAdds(x, k, k);
    ShrAdds(x, 32, 2 * k - 32);
    Pow2Of32();
    ShrVanishes(x, 32);
    ShrVanishes(0, 2 * k - 32);
    assert Shr(0, 2 * k - 32) == 0;
    XorZero(Shr(x, k));
  }

  /** Multiplication by c is undone by any inverse of c modulo 2^32. */
  lemma ImulInjective(x: Word, y: Word, c: nat, inv: nat, k: nat)
    requires c * inv == 1 + k * LIMIT
    requires Imul(x, c) == Imul(y, c)
    ensures x == y
  {
    var q := x * c / LIMIT - y * c / LIMIT;
    var d := x - y;
    assert d * c == LIMIT * q;
    calc {
      d + LIMIT * (d * k);
      d * (1 + k * LIMIT);
      d * (c * inv);
      (d * c) * inv;
      LIMIT * (q * inv);
    }
    var t := q * inv - d * k;
    assert d == LIMIT * t;
  }
}
