/** Machine words as natural numbers, seen through their binary digits.

    `And`, `Or`, `Not`, `Shl` and `Shr` are the C operators on `unsigned long`
    (64 bits).  Every proof elsewhere goes through the digit view `Bit`. */
module Bits {

  const WORD_BITS: nat := 64
  const WORD_LIMIT: nat := 0x1_0000_0000_0000_0000

  type Word = w: nat | w < WORD_LIMIT

  function Pow2(n: nat): (p: nat)
    ensures p >= 1
  {
    if n == 0 then 1 else 2 * Pow2(n - 1)
  }

  lemma WordLimitIsPow2()
    ensures Pow2(WORD_BITS) == WORD_LIMIT
  {
    assert Pow2(8) == 0x100;
    assert Pow2(16) == 0x1_0000;
    assert Pow2(24) == 0x100_0000;
    assert Pow2(32) == 0x1_0000_0000;
    assert Pow2(40) == 0x100_0000_0000;
    assert Pow2(48) == 0x1_0000_0000_0000;
    assert Pow2(56) == 0x100_0000_0000_0000;
  }

  /** Digit `k` of `w`. */
  predicate Bit(w: nat, k: nat) {
    Shr(w, k) % 2 == 1
  }

  function And(a: nat, b: nat): (r: nat) {
    if a == 0 || b == 0 then 0
    else (if a % 2 == 1 && b % 2 == 1 then 1 else 0) + 2 * And(a / 2, b / 2)
  }

  function Or(a: nat, b: nat): (r: nat) {
    if a == 0 then b else if b == 0 then a
    else (if a % 2 == 1 || b % 2 == 1 then 1 else 0) + 2 * Or(a / 2, b / 2)
  }

  /** `~w` on 64 bits. */
  function Not(w: Word): (r: Word) {
    WORD_LIMIT - 1 - w
  }

  /** `w >> s`. */
  function Shr(w: nat, s: nat): (r: nat)
    ensures r <= w
  {
    if s == 0 then w else Shr(w / 2, s - 1)
  }

  /** `w << s`, dropping what leaves the word. */
  function Shl(w: Word, s: nat): (r: Word)
    decreases s
  {
    if s == 0 then w else Shl(2 * w % WORD_LIMIT, s - 1)
  }

  // ---------------------------------------------------------------- digits

  lemma {:induction false} BitOfZero(k: nat)
    ensures !Bit(0, k)
  {
    if k > 0 { BitOfZero(k - 1); }
  }

  lemma {:induction false} AndBit(a: nat, b: nat, k: nat)
    ensures Bit(And(a, b), k) <==> Bit(a, k) && Bit(b, k)
  {
    if a == 0 || b == 0 {
      BitOfZero(k);
    } else if k > 0 {
      AndBit(a / 2, b / 2, k - 1);
      assert And(a, b) / 2 == And(a / 2, b / 2);
    }
  }

  lemma {:induction false} OrBit(a: nat, b: nat, k: nat)
    ensures Bit(Or(a, b), k) <==> Bit(a, k) || Bit(b, k)
  {
    if a == 0 || b == 0 {
      BitOfZero(k);
    } else if k > 0 {
      OrBit(a / 2, b / 2, k - 1);
      assert Or(a, b) / 2 == Or(a / 2, b / 2);
    }
  }

  lemma {:induction false} ComplementBit(w: nat, n: nat, k: nat)
    requires w < Pow2(n) && k < n
    ensures Bit(Pow2(n) - 1 - w, k) <==> !Bit(w, k)
  {
    var c := Pow2(n) - 1 - w;
    assert c % 2 == 1 - w % 2;
    if k > 0 {
      assert c / 2 == Pow2(n - 1) - 1 - w / 2;
      ComplementBit(w / 2, n - 1, k - 1);
    }
  }

  lemma NotBit(w: Word, k: nat)
    requires k < WORD_BITS
    ensures Bit(Not(w), k) <==> !Bit(w, k)
  {
    WordLimitIsPow2();
    ComplementBit(w, WORD_BITS, k);
  }

  lemma {:induction false} ShrBit(w: nat, s: nat, k: nat)
    ensures Bit(Shr(w, s), k) <==> Bit(w, k + s)
  {
    if s > 0 { ShrBit(w / 2, s - 1, k); }
  }

  lemma {:induction false} BitsBelowModulus(w: nat, n: nat, k: nat)
    requires k < n
    ensures Bit(w % Pow2(n), k) <==> Bit(w, k)
  {
    ModPow2Step(w, n);
    if k > 0 { BitsBelowModulus(w / 2, n - 1, k - 1); }
  }

  lemma ModPow2Step(w: nat, n: nat)
    requires n > 0
    ensures w % Pow2(n) == w % 2 + 2 * ((w / 2) % Pow2(n - 1))
  {
    var m, q := Pow2(n - 1), w / 2;
    var r := w % 2 + 2 * (q % m);
    assert q == m * (q / m) + q % m;
    assert w == (2 * m) * (q / m) + r;
    assert 0 <= r < 2 * m;
    ModUnique(w, 2 * m, q / m, r);
  }

  lemma ModUnique(w: nat, m: nat, q: nat, r: nat)
    requires m > 0 && w == m * q + r && r < m
    ensures w % m == r && w / m == q
  {
    var d: int := w / m - q;
    assert d >= 1 ==> m * d >= m;
    assert d <= -1 ==> m * d <= m * -1;
    assert m * d == r - w % m;
  }

  lemma ShlBit(w: Word, s: nat, k: nat)
    requires k < WORD_BITS
    ensures Bit(Shl(w, s), k) <==> k >= s && Bit(w, k - s)
    decreases s
  {
    if s > 0 {
      var d: Word := 2 * w % WORD_LIMIT;
      WordLimitIsPow2();
      ShlBit(d, s - 1, k);
      if k >= s - 1 {
        BitsBelowModulus(2 * w, WORD_BITS, k - (s - 1));
        if k >= s { assert 2 * w / 2 == w; }
      }
    }
  }

  // ------------------------------------------------- words and their digits

  lemma {:induction false} SameBits(a: nat, b: nat, n: nat)
    requires a < Pow2(n) && b < Pow2(n)
    requires forall k :: 0 <= k < n ==> (Bit(a, k) <==> Bit(b, k))
    ensures a == b
  {
    if n > 0 {
      assert Bit(a, 0) <==> Bit(b, 0);
      forall k | 0 <= k < n - 1 ensures Bit(a / 2, k) <==> Bit(b / 2, k) {
        assert Bit(a, k + 1) <==> Bit(b, k + 1);
      }
      SameBits(a / 2, b / 2, n - 1);
    }
  }

  /** A word is zero exactly when no digit is set. */
  lemma ZeroWord(w: Word)
    ensures w == 0 <==> forall k :: 0 <= k < WORD_BITS ==> !Bit(w, k)
  {
    if w == 0 {
      forall k | 0 <= k < WORD_BITS ensures !Bit(w, k) { BitOfZero(k); }
    } else {
      WordLimitIsPow2();
      var k := SetBit(w, WORD_BITS);
    }
  }

  lemma {:induction false} SetBit(w: nat, n: nat) returns (k: nat)
    requires 0 < w < Pow2(n)
    ensures k < n && Bit(w, k)
  {
    if w % 2 == 1 {
      k := 0;
    } else {
      k := SetBit(w / 2, n - 1);
      k := k + 1;
    }
  }

  lemma {:induction false} AndBounded(a: nat, b: nat)
    ensures And(a, b) <= a && And(a, b) <= b
  {
    if a != 0 && b != 0 { AndBounded(a / 2, b / 2); }
  }

  lemma {:induction false} OrBounded(a: nat, b: nat, n: nat)
    requires a < Pow2(n) && b < Pow2(n)
    ensures Or(a, b) < Pow2(n)
  {
    if a != 0 && b != 0 { OrBounded(a / 2, b / 2, n - 1); }
  }

  /** `a & b` and `a | b` on words. */
  function AndW(a: Word, b: Word): (r: Word)
    ensures forall k: nat {:trigger Bit(r, k)} :: Bit(r, k) <==> Bit(a, k) && Bit(b, k)
  {
    AndBounded(a, b);
    assert forall k: nat {:trigger Bit(And(a, b), k)} :: Bit(And(a, b), k) <==> Bit(a, k) && Bit(b, k) by {
      forall k: nat ensures Bit(And(a, b), k) <==> Bit(a, k) && Bit(b, k) { AndBit(a, b, k); }
    }
    And(a, b)
  }

  function OrW(a: Word, b: Word): (r: Word)
    ensures forall k: nat {:trigger Bit(r, k)} :: Bit(r, k) <==> Bit(a, k) || Bit(b, k)
  {
    WordLimitIsPow2();
    OrBounded(a, b, WORD_BITS);
    assert forall k: nat {:trigger Bit(Or(a, b), k)} :: Bit(Or(a, b), k) <==> Bit(a, k) || Bit(b, k) by {
      forall k: nat ensures Bit(Or(a, b), k) <==> Bit(a, k) || Bit(b, k) { OrBit(a, b, k); }
    }
    Or(a, b)
  }

  lemma {:induction false} BitsAboveWidth(w: nat, n: nat, k: nat)
    requires w < Pow2(n) && k >= n
    ensures !Bit(w, k)
  {
    if n == 0 { BitOfZero(k); } else { BitsAboveWidth(w / 2, n - 1, k - 1); }
  }

  /** `~0UL >> (64 - n)` has exactly the bits below `n`. */
  function LowMask(n: nat): (r: Word)
    requires n <= WORD_BITS
    ensures forall k: nat {:trigger Bit(r, k)} :: Bit(r, k) <==> k < n
  {
    var r := Shr(Not(0), WORD_BITS - n);
    assert forall k: nat {:trigger Bit(r, k)} :: Bit(r, k) <==> k < n by {
      forall k: nat ensures Bit(r, k) <==> k < n { LowMaskBit(n, k); }
    }
    r
  }

  lemma LowMaskBit(n: nat, k: nat)
    requires n <= WORD_BITS
    ensures Bit(Shr(Not(0), WORD_BITS - n), k) <==> k < n
  {
    WordLimitIsPow2();
    var s := WORD_BITS - n;
    ShrBit(Not(0), s, k);
    if k < n {
      NotBit(0, k + s);
      BitOfZero(k + s);
    } else {
      BitsAboveWidth(Not(0), WORD_BITS, k + s);
    }
  }

  /** `~0UL << n` has exactly the bits from `n` on. */
  function HighMask(n: nat): (r: Word)
    requires n <= WORD_BITS
    ensures forall k: nat {:trigger Bit(r, k)} :: k < WORD_BITS ==> (Bit(r, k) <==> k >= n)
  {
    var r := Shl(Not(0), n);
    assert forall k: nat {:trigger Bit(r, k)} :: k < WORD_BITS ==> (Bit(r, k) <==> k >= n) by {
      forall k: nat | k < WORD_BITS ensures Bit(r, k) <==> k >= n { HighMaskBit(n, k); }
    }
    r
  }

  lemma HighMaskBit(n: nat, k: nat)
    requires n <= WORD_BITS && k < WORD_BITS
    ensures Bit(Shl(Not(0), n), k) <==> k >= n
  {
    ShlBit(Not(0), n, k);
    if k >= n {
      NotBit(0, k - n);
      BitOfZero(k - n);
    }
  }

  /** `1UL << n` has the single bit `n`. */
  function OneBit(n: nat): (r: Word)
    requires n < WORD_BITS
    ensures forall k: nat {:trigger Bit(r, k)} :: k < WORD_BITS ==> (Bit(r, k) <==> k == n)
  {
    var r := Shl(1, n);
    assert forall k: nat {:trigger Bit(r, k)} :: k < WORD_BITS ==> (Bit(r, k) <==> k == n) by {
      forall k: nat | k < WORD_BITS ensures Bit(r, k) <==> k == n {
        ShlBit(1, n, k);
        if k > n { BitsAboveWidth(1, 1, k - n); }
      }
    }
    r
  }

  /** The C macro BITMAP_LAST_WORD_MASK: the bits of the last, partly used word. */
  function LastWordMask(nbits: nat): (r: Word)
    ensures forall k: nat {:trigger Bit(r, k)} :: k < WORD_BITS ==>
              (Bit(r, k) <==> nbits % WORD_BITS == 0 || k < nbits % WORD_BITS)
  {
    var n := nbits % WORD_BITS;
    if n != 0 then
      ShlIsPow2(n);
      var r := OneBit(n) - 1;
      assert forall k: nat {:trigger Bit(r, k)} :: k < WORD_BITS ==> (Bit(r, k) <==> k < n) by {
        forall k: nat | k < WORD_BITS ensures Bit(r, k) <==> k < n { BelowPow2(n, k); }
      }
      r
    else
      assert forall k: nat {:trigger Bit(Not(0), k)} :: k < WORD_BITS ==> Bit(Not(0), k) by {
        forall k: nat | k < WORD_BITS ensures Bit(Not(0), k) { HighMaskBit(0, k); }
      }
      Not(0)
  }

  lemma BelowPow2(n: nat, k: nat)
    ensures Bit(Pow2(n) - 1, k) <==> k < n
  {
    if k < n {
      ComplementBit(0, n, k);
      BitOfZero(k);
    } else {
      BitsAboveWidth(Pow2(n) - 1, n, k);
    }
  }

  lemma ShlIsPow2(n: nat)
    requires n < WORD_BITS
    ensures Shl(1, n) == Pow2(n)
  {
    WordLimitIsPow2();
    ShlMultiplies(1, n, 0);
  }

  lemma {:induction false} ShlMultiplies(w: Word, n: nat, m: nat)
    requires w == Pow2(m) && m + n < WORD_BITS
    ensures Shl(w, n) == Pow2(m + n)
    decreases n
  {
    if n > 0 {
      WordLimitIsPow2();
      Pow2Monotone(m + 1, WORD_BITS - 1);
      ShlMultiplies(2 * w, n - 1, m + 1);
    }
  }

  // --------------------------------------------------------- aligned values

  /** Or-ing low flag bits into an aligned value adds them. */
  lemma {:induction false} OrAligned(a: nat, b: nat, n: nat)
    requires a % Pow2(n) == 0 && b < Pow2(n)
    ensures Or(a, b) == a + b
  {
    if a != 0 && b != 0 && n > 0 {
      ModPow2Step(a, n);
      OrAligned(a / 2, b / 2, n - 1);
    }
  }

  /** Masking with `2^n - 1` takes the remainder. */
  lemma {:induction false} AndLowMask(a: nat, n: nat)
    ensures And(a, Pow2(n) - 1) == a % Pow2(n)
  {
    if n > 0 {
      ModPow2Step(a, n);
      assert (Pow2(n) - 1) / 2 == Pow2(n - 1) - 1;
      AndLowMask(a / 2, n - 1);
    }
  }

  /** Masking with `~(2^n - 1)` rounds down to a multiple of `2^n`. */
  lemma AndHighMask(a: Word, n: nat)
    requires n <= WORD_BITS
    ensures Pow2(n) - 1 < WORD_LIMIT
    ensures And(a, Not(Pow2(n) - 1)) == a - a % Pow2(n)
  {
    WordLimitIsPow2();
    Pow2Monotone(n, WORD_BITS);
    AndComplementMask(a, n, WORD_BITS);
  }

  lemma {:induction false} Pow2Monotone(m: nat, n: nat)
    requires m <= n
    ensures Pow2(m) <= Pow2(n)
  {
    if m < n { Pow2Monotone(m, n - 1); }
  }

  lemma {:induction false} AndComplementMask(a: nat, n: nat, w: nat)
    requires n <= w && a < Pow2(w)
    ensures Pow2(n) <= Pow2(w)
    ensures And(a, Pow2(w) - Pow2(n)) == a - a % Pow2(n)
  {
    Pow2Monotone(n, w);
    if n == 0 {
      AndLowMask(a, w);
      ModUnique(a, Pow2(w), 0, a);
    } else {
      AndComplementMask(a / 2, n - 1, w - 1);
      var p, q := Pow2(n - 1), Pow2(w - 1);
      AndEven(a, q - p);
      ModPow2Step(a, n);
      assert And(a, 2 * (q - p)) == 2 * (a / 2 - (a / 2) % p);
    }
  }

  lemma AndEven(a: nat, c: nat)
    ensures And(a, 2 * c) == 2 * And(a / 2, c)
  {
    assert 2 * c / 2 == c;
  }
}
