/** Arithmetic in GF(2^8) modulo x^8 + x^4 + x^3 + x + 1 (section 4 of FIPS
    197) and the S-box, from which `aes.c` says its tables are built.  That every
    element but 0 has an inverse follows from Fermat's theorem in the field. */
module AesField {

  function Xor(a: bv8, b: bv8): (r: bv8) {
    a ^ b
  }

  /** `a` if `b` has the bit `m`, else 0. */
  function Pick(b: bv8, m: bv8, a: bv8): (r: bv8) {
    if b & m == 0 then 0 else a
  }

  /** Multiplication by x. */
  function Xtime(x: bv8): (r: bv8) {
    (x << 1) ^ if x & 0x80 == 0 then 0 else 0x1b
  }

  /** The sum of the multiples a, xa, x^2 a, ... that the bits of `b` select. */
  function Times(a: bv8, b: bv8): (r: bv8)
    decreases b
  {
    if b == 0 then 0 else Xor(Pick(b, 1, a), Times(Xtime(a), b >> 1))
  }

  function Xor4(p0: bv8, p1: bv8, p2: bv8, p3: bv8): (r: bv8) {
    Xor(Xor(p0, p1), Xor(p2, p3))
  }

  // ------------------------------------------------------------------ sums

  lemma XorAssociates(a: bv8, b: bv8, c: bv8)
    ensures Xor(Xor(a, b), c) == Xor(a, Xor(b, c))
  {
  }

  lemma XorCommutes(a: bv8, b: bv8)
    ensures Xor(a, b) == Xor(b, a)
  {
  }

  lemma XorUnit(a: bv8)
    ensures Xor(a, a) == 0 && Xor(a, 0) == a && Xor(0, a) == a
  {
  }

  lemma Swap(a: bv8, b: bv8, c: bv8, d: bv8)
    ensures Xor(Xor(a, b), Xor(c, d)) == Xor(Xor(a, c), Xor(b, d))
  {
    hide Xor;
    XorAssociates(a, b, Xor(c, d));
    XorAssociates(b, c, d);
    XorCommutes(b, c);
    XorAssociates(c, b, d);
    XorAssociates(a, c, Xor(b, d));
  }

  lemma Xor4Pairs(p0: bv8, p1: bv8, p2: bv8, p3: bv8, q0: bv8, q1: bv8, q2: bv8, q3: bv8)
    ensures Xor4(Xor(p0, q0), Xor(p1, q1), Xor(p2, q2), Xor(p3, q3)) ==
            Xor(Xor4(p0, p1, p2, p3), Xor4(q0, q1, q2, q3))
  {
    hide Xor;
    Swap(p0, q0, p1, q1);
    Swap(p2, q2, p3, q3);
    Swap(Xor(p0, p1), Xor(q0, q1), Xor(p2, p3), Xor(q2, q3));
  }

  lemma XtimeXor(a: bv8, b: bv8)
    ensures Xtime(Xor(a, b)) == Xor(Xtime(a), Xtime(b)) && Xtime(0) == 0
  {
    XtimeIs(a); XtimeIs(b); XtimeIs(Xor(a, b)); XtimeIs(0);
    hide Xor, Xtime;
    TopXor(a, b);
    Swap(a << 1, b << 1, Pick(a, 0x80, 0x1b), Pick(b, 0x80, 0x1b));
    XorUnit(0);
  }

  lemma XtimeIs(x: bv8)
    ensures Xtime(x) == Xor(x << 1, Pick(x, 0x80, 0x1b))
  {
  }

  lemma TopXor(a: bv8, b: bv8)
    ensures Xor(a, b) << 1 == Xor(a << 1, b << 1)
    ensures Pick(Xor(a, b), 0x80, 0x1b) == Xor(Pick(a, 0x80, 0x1b), Pick(b, 0x80, 0x1b))
  {
  }

  /** The lowest bit of a sum and the bits above it. */
  lemma BitsXor(b: bv8, c: bv8, a: bv8)
    ensures Pick(Xor(b, c), 1, a) == Xor(Pick(b, 1, a), Pick(c, 1, a)) && Xor(b, c) >> 1 == Xor(b >> 1, c >> 1)
    ensures Xor(b, c) == 0 ==> b == c
  {
  }

  lemma PickXor(b: bv8, a: bv8, c: bv8)
    ensures Pick(b, 1, Xor(a, c)) == Xor(Pick(b, 1, a), Pick(b, 1, c))
    ensures Pick(b, 1, Xtime(a)) == Xtime(Pick(b, 1, a))
  {
  }

  /** An element from its lowest bit and the bits above it. */
  lemma LowBit(b: bv8)
    ensures b == Xor(Pick(b, 1, 1), Xtime(b >> 1)) && (b != 0 ==> b >> 1 < b)
  {
  }

  // -------------------------------------------------------------- products

  /** One turn of the product, for every `b`. */
  lemma TimesStep(a: bv8, b: bv8)
    ensures Times(a, b) == Xor(Pick(b, 1, a), Times(Xtime(a), b >> 1)) && Times(a, 0) == 0
  {
    if b == 0 { XorUnit(0); }
  }

  lemma {:induction false} TimesLeft(a: bv8, b: bv8, c: bv8)
    ensures Times(Xor(a, b), c) == Xor(Times(a, c), Times(b, c))
    decreases c
  {
    hide Times, Xor, Xtime, Pick;
    TimesStep(a, c); TimesStep(b, c); TimesStep(Xor(a, b), c);
    if c == 0 {
      XorUnit(0);
    } else {
      LowBit(c);
      PickXor(c, a, b);
      XtimeXor(a, b);
      TimesLeft(Xtime(a), Xtime(b), c >> 1);
      Swap(Pick(c, 1, a), Pick(c, 1, b), Times(Xtime(a), c >> 1), Times(Xtime(b), c >> 1));
    }
  }

  lemma {:induction false} TimesRight(a: bv8, b: bv8, c: bv8)
    ensures Times(a, Xor(b, c)) == Xor(Times(a, b), Times(a, c))
    decreases b
  {
    hide Times, Xor, Xtime, Pick;
    TimesStep(a, b); TimesStep(a, c); TimesStep(a, Xor(b, c));
    if b == 0 {
      XorUnit(c);
      XorUnit(Times(a, c));
    } else {
      LowBit(b);
      BitsXor(b, c, a);
      TimesRight(Xtime(a), b >> 1, c >> 1);
      Swap(Pick(b, 1, a), Pick(c, 1, a), Times(Xtime(a), b >> 1), Times(Xtime(a), c >> 1));
    }
  }

  lemma {:induction false} TimesXtime(a: bv8, b: bv8)
    ensures Times(Xtime(a), b) == Xtime(Times(a, b))
    decreases b
  {
    hide Times, Xor, Xtime, Pick;
    TimesStep(a, b); TimesStep(Xtime(a), b);
    XtimeXor(Pick(b, 1, a), Times(Xtime(a), b >> 1));
    if b != 0 {
      LowBit(b);
      PickXor(b, a, a);
      TimesXtime(Xtime(a), b >> 1);
    }
  }

  lemma TimesUnit(a: bv8)
    ensures Times(a, 1) == a && Times(a, 0) == 0
  {
  }

  lemma {:induction false} UnitTimes(a: bv8)
    ensures Times(1, a) == a && Times(0, a) == 0
    decreases a
  {
    hide Xor, Xtime, Pick;
    if a != 0 {
      LowBit(a);
      XtimeXor(0, 0);
      UnitTimes(a >> 1);
      TimesXtime(1, a >> 1);
      PickZero(a);
    }
  }

  lemma PickZero(b: bv8)
    ensures Pick(b, 1, 0) == 0 && Xor(0, 0) == 0
  {
  }

  lemma TimesPick(a: bv8, b: bv8, c: bv8)
    ensures Times(a, Pick(b, 1, c)) == Pick(b, 1, Times(a, c))
  {
    hide Times;
    TimesUnit(a);
  }

  lemma PickTimes(b: bv8, c: bv8, a: bv8)
    ensures Times(Pick(b, 1, c), a) == Pick(b, 1, Times(c, a))
  {
    hide Times;
    UnitTimes(a);
  }

  lemma {:induction false} TimesCommutes(a: bv8, b: bv8)
    ensures Times(a, b) == Times(b, a)
    decreases b
  {
    hide Times, Xor, Xtime, Pick;
    TimesStep(a, b);
    if b == 0 {
      UnitTimes(a);
    } else {
      LowBit(b);
      TimesLeft(Pick(b, 1, 1), Xtime(b >> 1), a);
      PickTimes(b, 1, a);
      UnitTimes(a);
      TimesXtime(b >> 1, a);
      TimesCommutes(a, b >> 1);
      TimesXtime(a, b >> 1);
    }
  }

  lemma {:induction false} TimesAssociates(a: bv8, b: bv8, c: bv8)
    ensures Times(Times(a, b), c) == Times(a, Times(b, c))
    decreases c
  {
    hide Times, Xor, Xtime, Pick;
    TimesStep(Times(a, b), c); TimesStep(b, c);
    if c == 0 {
      TimesUnit(a);
    } else {
      LowBit(c);
      TimesCommutes(a, b); TimesXtime(b, a); TimesCommutes(a, Xtime(b));
      TimesAssociates(a, Xtime(b), c >> 1);
      TimesRight(a, Pick(c, 1, b), Times(Xtime(b), c >> 1));
      TimesPick(a, c, b);
    }
  }

  /** The product written out. */
  function Sum8(a: bv8, b: bv8): (r: bv8) {
    var a1 := Xtime(a);
    var a2 := Xtime(a1);
    var a3 := Xtime(a2);
    var a4 := Xtime(a3);
    var a5 := Xtime(a4);
    var a6 := Xtime(a5);
    var a7 := Xtime(a6);
    (Sum2(b, 0x01, a, 0x02, a1) ^ Sum2(b, 0x04, a2, 0x08, a3)) ^
    (Sum2(b, 0x10, a4, 0x20, a5) ^ Sum2(b, 0x40, a6, 0x80, a7))
  }

  function Sum2(b: bv8, m: bv8, p: bv8, n: bv8, q: bv8): (r: bv8) {
    (if b & m == 0 then 0 else p) ^ (if b & n == 0 then 0 else q)
  }

  lemma TimesIsSum(a: bv8, b: bv8)
    ensures Times(a, b) == Sum8(a, b)
  {
    hide Times, Xtime, Sum2, Xor4;
    TimesIsXor4(a, b);
    var a1 := Xtime(a);
    var a2 := Xtime(a1);
    var a3 := Xtime(a2);
    var a4 := Xtime(a3);
    var a5 := Xtime(a4);
    var a6 := Xtime(a5);
    var a7 := Xtime(a6);
    Xor4Is(Sum2(b, 0x01, a, 0x02, a1), Sum2(b, 0x04, a2, 0x08, a3),
           Sum2(b, 0x10, a4, 0x20, a5), Sum2(b, 0x40, a6, 0x80, a7));
  }

  lemma TimesIsXor4(a: bv8, b: bv8)
    ensures var a1 := Xtime(a);
            var a2 := Xtime(a1);
            var a3 := Xtime(a2);
            var a4 := Xtime(a3);
            var a5 := Xtime(a4);
            var a6 := Xtime(a5);
            var a7 := Xtime(a6);
            Times(a, b) == Xor4(Sum2(b, 0x01, a, 0x02, a1), Sum2(b, 0x04, a2, 0x08, a3),
                                Sum2(b, 0x10, a4, 0x20, a5), Sum2(b, 0x40, a6, 0x80, a7))
  {
    hide Times, Xor, Xor4, Xtime, Pick, Sum2;
    var a1 := Xtime(a);
    var a2 := Xtime(a1);
    var a3 := Xtime(a2);
    var a4 := Xtime(a3);
    var a5 := Xtime(a4);
    var a6 := Xtime(a5);
    var a7 := Xtime(a6);
    TimesStep(a, b); TimesStep(a1, b >> 1); TimesStep(a2, b >> 2); TimesStep(a3, b >> 3);
    TimesStep(a4, b >> 4); TimesStep(a5, b >> 5); TimesStep(a6, b >> 6); TimesStep(a7, b >> 7);
    TimesStep(Xtime(a7), 0);
    Shifts(b);
    PickHigher(b, a1, a2, a3, a4, a5, a6, a7);
    XorUnit(Pick(b, 0x80, a7));
    Regroup(Pick(b, 0x01, a), Pick(b, 0x02, a1), Pick(b, 0x04, a2), Pick(b, 0x08, a3),
            Pick(b, 0x10, a4), Pick(b, 0x20, a5), Pick(b, 0x40, a6), Pick(b, 0x80, a7));
    Sum2Is(b, 0x01, a, 0x02, a1); Sum2Is(b, 0x04, a2, 0x08, a3);
    Sum2Is(b, 0x10, a4, 0x20, a5); Sum2Is(b, 0x40, a6, 0x80, a7);
  }

  lemma Xor4Is(p0: bv8, p1: bv8, p2: bv8, p3: bv8)
    ensures Xor4(p0, p1, p2, p3) == (p0 ^ p1) ^ (p2 ^ p3)
  {
  }

  lemma Sum2Is(b: bv8, m: bv8, p: bv8, n: bv8, q: bv8)
    ensures Sum2(b, m, p, n, q) == Xor(Pick(b, m, p), Pick(b, n, q))
  {
  }

  lemma Regroup(p0: bv8, p1: bv8, p2: bv8, p3: bv8, p4: bv8, p5: bv8, p6: bv8, p7: bv8)
    ensures Xor(p0, Xor(p1, Xor(p2, Xor(p3, Xor(p4, Xor(p5, Xor(p6, p7))))))) ==
            Xor4(Xor(p0, p1), Xor(p2, p3), Xor(p4, p5), Xor(p6, p7))
  {
    hide Xor;
    var h := Xor(p6, p7);
    XorAssociates(p4, p5, h);
    var g := Xor(Xor(p4, p5), h);
    XorAssociates(p2, p3, g);
    XorAssociates(p0, p1, Xor(Xor(p2, p3), g));
    XorAssociates(Xor(p0, p1), Xor(p2, p3), g);
  }

  lemma Shifts(b: bv8)
    ensures b >> 1 >> 1 == b >> 2 && b >> 2 >> 1 == b >> 3 && b >> 3 >> 1 == b >> 4 && b >> 4 >> 1 == b >> 5
    ensures b >> 5 >> 1 == b >> 6 && b >> 6 >> 1 == b >> 7 && b >> 7 >> 1 == 0
  {
  }

  lemma PickHigher(b: bv8, a1: bv8, a2: bv8, a3: bv8, a4: bv8, a5: bv8, a6: bv8, a7: bv8)
    ensures Pick(b >> 1, 1, a1) == Pick(b, 0x02, a1) && Pick(b >> 2, 1, a2) == Pick(b, 0x04, a2)
    ensures Pick(b >> 3, 1, a3) == Pick(b, 0x08, a3) && Pick(b >> 4, 1, a4) == Pick(b, 0x10, a4)
    ensures Pick(b >> 5, 1, a5) == Pick(b, 0x20, a5) && Pick(b >> 6, 1, a6) == Pick(b, 0x40, a6)
    ensures Pick(b >> 7, 1, a7) == Pick(b, 0x80, a7)
  {
  }

  lemma Interchange(a: bv8, b: bv8, c: bv8, d: bv8)
    ensures Times(Times(a, b), Times(c, d)) == Times(Times(a, c), Times(b, d))
  {
    hide Times;
    TimesAssociates(a, b, Times(c, d));
    TimesAssociates(b, c, d);
    TimesCommutes(b, c);
    TimesAssociates(c, b, d);
    TimesAssociates(a, c, Times(b, d));
  }

  // ----------------------------------------------------- squares and powers

  /** x^(2^k), as k squarings. */
  function Frobenius(x: bv8, k: nat): (r: bv8) {
    if k == 0 then x else Times(Frobenius(x, k - 1), Frobenius(x, k - 1))
  }

  /** In characteristic two, squaring distributes over sums. */
  lemma SquareOfSum(a: bv8, b: bv8)
    ensures Times(Xor(a, b), Xor(a, b)) == Xor(Times(a, a), Times(b, b))
  {
    hide Times, Xor;
    TimesLeft(a, b, Xor(a, b));
    TimesRight(a, a, b);
    TimesRight(b, a, b);
    TimesCommutes(a, b);
    CrossTermsCancel(Times(a, a), Times(a, b), Times(b, b));
  }

  lemma CrossTermsCancel(p: bv8, q: bv8, r: bv8)
    ensures Xor(Xor(p, q), Xor(q, r)) == Xor(p, r)
  {
  }

  lemma {:induction false} FrobeniusOfSum(a: bv8, b: bv8, k: nat)
    ensures Frobenius(Xor(a, b), k) == Xor(Frobenius(a, k), Frobenius(b, k))
  {
    hide Times, Xor;
    if k > 0 {
      FrobeniusOfSum(a, b, k - 1);
      SquareOfSum(Frobenius(a, k - 1), Frobenius(b, k - 1));
    }
  }

  lemma {:induction false} FrobeniusOfProduct(a: bv8, b: bv8, k: nat)
    ensures Frobenius(Times(a, b), k) == Times(Frobenius(a, k), Frobenius(b, k))
  {
    hide Times;
    if k > 0 {
      FrobeniusOfProduct(a, b, k - 1);
      var p, q := Frobenius(a, k - 1), Frobenius(b, k - 1);
      Interchange(p, q, p, q);
    }
  }

  /** 0, 1 and x are their own 256th powers: x goes once round. */
  lemma FrobeniusOfUnits()
    ensures Frobenius(0, 8) == 0 && Frobenius(1, 8) == 1 && Frobenius(2, 8) == 2
  {
    hide Times;
    Squarings();
    assert Frobenius(2, 4) == 0x5e;
    assert Frobenius(0, 4) == 0 && Frobenius(1, 4) == 1;
  }

  lemma Squarings()
    ensures Times(0x02, 0x02) == 0x04 && Times(0x04, 0x04) == 0x10 && Times(0x10, 0x10) == 0x1b
    ensures Times(0x1b, 0x1b) == 0x5e && Times(0x5e, 0x5e) == 0xe4 && Times(0xe4, 0xe4) == 0x4d
    ensures Times(0x4d, 0x4d) == 0xfa && Times(0xfa, 0xfa) == 0x02
    ensures Times(0, 0) == 0 && Times(1, 1) == 1
  {
    hide Times;
    assert Times(0x02, 0x02) == 0x04 by { TimesIsSum(0x02, 0x02); }
    assert Times(0x04, 0x04) == 0x10 by { TimesIsSum(0x04, 0x04); }
    assert Times(0x10, 0x10) == 0x1b by { TimesIsSum(0x10, 0x10); }
    assert Times(0x1b, 0x1b) == 0x5e by { TimesIsSum(0x1b, 0x1b); }
    assert Times(0x5e, 0x5e) == 0xe4 by { TimesIsSum(0x5e, 0x5e); }
    assert Times(0xe4, 0xe4) == 0x4d by { TimesIsSum(0xe4, 0xe4); }
    assert Times(0x4d, 0x4d) == 0xfa by { TimesIsSum(0x4d, 0x4d); }
    assert Times(0xfa, 0xfa) == 0x02 by { TimesIsSum(0xfa, 0xfa); }
    TimesUnit(0);
    TimesUnit(1);
  }

  /** Fermat: every element is its own 256th power. */
  lemma {:induction false} Fermat(x: bv8)
    ensures Frobenius(x, 8) == x
    decreases x
  {
    hide Frobenius, Times, Xor, Xtime, Pick;
    FrobeniusOfUnits();
    if x != 0 {
      LowBit(x);
      Fermat(x >> 1);
      FrobeniusOfProduct(2, x >> 1, 8);
      TwoTimes(x >> 1);
      FrobeniusOfSum(Pick(x, 1, 1), Xtime(x >> 1), 8);
      PickIs(x);
    }
  }

  lemma TwoTimes(x: bv8)
    ensures Times(2, x) == Xtime(x)
  {
    hide Times;
    assert Xtime(1) == 2;
    hide Xtime;
    TimesXtime(1, x);
    UnitTimes(x);
  }

  lemma PickIs(x: bv8)
    ensures Pick(x, 1, 1) == 0 || Pick(x, 1, 1) == 1
  {
  }

  /** x^(2^k - 1). */
  function Mersenne(x: bv8, k: nat): (r: bv8) {
    if k == 0 then 1 else Times(Frobenius(x, k - 1), Mersenne(x, k - 1))
  }

  lemma {:induction false} MersenneTimes(x: bv8, k: nat)
    ensures Times(Mersenne(x, k), x) == Frobenius(x, k)
  {
    hide Times;
    if k == 0 {
      UnitTimes(x);
    } else {
      MersenneTimes(x, k - 1);
      TimesAssociates(Frobenius(x, k - 1), Mersenne(x, k - 1), x);
    }
  }

  lemma {:induction false} MersenneSquare(x: bv8, k: nat)
    ensures Times(x, Times(Mersenne(x, k), Mersenne(x, k))) == Mersenne(x, k + 1)
  {
    hide Times;
    if k == 0 {
      UnitTimes(1);
    } else {
      var f, m := Frobenius(x, k - 1), Mersenne(x, k - 1);
      MersenneSquare(x, k - 1);
      Interchange(f, m, f, m);
      TimesAssociates(x, Times(f, f), Times(m, m));
      TimesCommutes(x, Times(f, f));
      TimesAssociates(Times(f, f), x, Times(m, m));
    }
  }

  lemma Idempotent(e: bv8)
    requires Times(e, e) == e
    ensures e == 0 || e == 1
  {
    hide Times;
    TimesIsSum(e, e);
  }

  /** x^254 is the inverse of x. */
  lemma HasInverse(x: bv8)
    requires x != 0
    ensures exists y :: Times(x, y) == 1
  {
    hide Times, Mersenne, Frobenius;
    var m, n := Mersenne(x, 7), Mersenne(x, 8);
    var q := Times(m, m);
    MersenneSquare(x, 7);
    MersenneTimes(x, 8);
    Fermat(x);
    TimesAssociates(n, x, q);
    Idempotent(n);
    UnitTimes(x);
    assert Times(x, q) == 1;
  }

  lemma InverseUnique(x: bv8, y: bv8, z: bv8)
    requires Times(x, y) == 1 && Times(x, z) == 1
    ensures y == z
  {
    hide Times;
    TimesCommutes(x, y);
    TimesAssociates(y, x, z);
    UnitTimes(z);
    TimesUnit(y);
  }

  function Pow(x: bv8, n: nat): (r: bv8) {
    if n == 0 then 1 else Times(x, Pow(x, n - 1))
  }

  // ----------------------------------------------------------------- S-box

  /** The multiplicative inverse, and 0 for 0 (section 5.1.1). */
  function Inverse(x: bv8): (r: bv8)
    ensures if x == 0 then r == 0 else Times(x, r) == 1
  {
    if x == 0 then 0
    else
      OneInverse(x);
      var y: bv8 :| Times(x, y) == 1;
      y
  }

  lemma OneInverse(x: bv8)
    requires x != 0
    ensures exists y :: Times(x, y) == 1
    ensures forall y, z :: Times(x, y) == 1 && Times(x, z) == 1 ==> y == z
  {
    hide Times;
    HasInverse(x);
    forall y, z | Times(x, y) == 1 && Times(x, z) == 1 ensures y == z { InverseUnique(x, y, z); }
  }

  /** One product decides what the inverse is. */
  lemma InverseIs(x: bv8, y: bv8)
    requires Times(x, y) == 1
    ensures Inverse(x) == y && Inverse(y) == x
  {
    hide Times;
    TimesCommutes(x, y);
    UnitTimes(y);
    UnitTimes(x);
    InverseUnique(x, Inverse(x), y);
    InverseUnique(y, Inverse(y), x);
  }

  lemma InverseIsInverse(x: bv8)
    ensures Inverse(Inverse(x)) == x
  {
    hide Times;
    if x != 0 { InverseIs(x, Inverse(x)); }
  }

  function Affine(x: bv8): (r: bv8) {
    x ^ ((x << 1) | (x >> 7)) ^ ((x << 2) | (x >> 6)) ^ ((x << 3) | (x >> 5)) ^ ((x << 4) | (x >> 4)) ^ 0x63
  }

  function InvAffine(x: bv8): (r: bv8) {
    ((x << 1) | (x >> 7)) ^ ((x << 3) | (x >> 5)) ^ ((x << 6) | (x >> 2)) ^ 0x05
  }

  lemma AffineInverts(x: bv8)
    ensures InvAffine(Affine(x)) == x && Affine(InvAffine(x)) == x
  {
  }

  /** The S-box and its inverse (sections 5.1.1 and 5.3.2 of FIPS 197). */
  function S(x: bv8): (r: bv8) {
    Affine(Inverse(x))
  }

  function Si(x: bv8): (r: bv8) {
    Inverse(InvAffine(x))
  }

  lemma SBoxInverts(x: bv8)
    ensures Si(S(x)) == x && S(Si(x)) == x
  {
    hide Affine, InvAffine, Inverse;
    InverseIsInverse(x);
    InverseIsInverse(InvAffine(x));
    AffineInverts(Inverse(x));
    AffineInverts(x);
  }
}
