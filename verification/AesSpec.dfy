/** The cipher of FIPS 197 on a byte matrix: the state is four columns of four
    bytes, a round key is a state, and a key schedule is a sequence of them. */
module AesSpec {
  import opened AesField

  datatype Column = Column(b0: bv8, b1: bv8, b2: bv8, b3: bv8)

  datatype State = State(c0: Column, c1: Column, c2: Column, c3: Column)

  // ------------------------------------------------------- transformations

  function AddColumn(c: Column, d: Column): (r: Column) {
    Column(Xor(c.b0, d.b0), Xor(c.b1, d.b1), Xor(c.b2, d.b2), Xor(c.b3, d.b3))
  }

  function AddRoundKey(s: State, k: State): (r: State) {
    State(AddColumn(s.c0, k.c0), AddColumn(s.c1, k.c1), AddColumn(s.c2, k.c2), AddColumn(s.c3, k.c3))
  }

  function SubColumn(c: Column): (r: Column) {
    Column(S(c.b0), S(c.b1), S(c.b2), S(c.b3))
  }

  function SubBytes(s: State): (r: State) {
    State(SubColumn(s.c0), SubColumn(s.c1), SubColumn(s.c2), SubColumn(s.c3))
  }

  function InvSubColumn(c: Column): (r: Column) {
    Column(Si(c.b0), Si(c.b1), Si(c.b2), Si(c.b3))
  }

  function InvSubBytes(s: State): (r: State) {
    State(InvSubColumn(s.c0), InvSubColumn(s.c1), InvSubColumn(s.c2), InvSubColumn(s.c3))
  }

  /** Row r moves r places to the left. */
  function ShiftRows(s: State): (r: State) {
    State(Column(s.c0.b0, s.c1.b1, s.c2.b2, s.c3.b3), Column(s.c1.b0, s.c2.b1, s.c3.b2, s.c0.b3),
          Column(s.c2.b0, s.c3.b1, s.c0.b2, s.c1.b3), Column(s.c3.b0, s.c0.b1, s.c1.b2, s.c2.b3))
  }

  function InvShiftRows(s: State): (r: State) {
    State(Column(s.c0.b0, s.c3.b1, s.c2.b2, s.c1.b3), Column(s.c1.b0, s.c0.b1, s.c3.b2, s.c2.b3),
          Column(s.c2.b0, s.c1.b1, s.c0.b2, s.c3.b3), Column(s.c3.b0, s.c2.b1, s.c1.b2, s.c0.b3))
  }

  /** One row of a matrix product. */
  function Dot(k: Column, c: Column): (r: bv8) {
    Xor4(Times(k.b0, c.b0), Times(k.b1, c.b1), Times(k.b2, c.b2), Times(k.b3, c.b3))
  }

  function MixColumn(c: Column): (r: Column) {
    Column(Dot(Column(2, 3, 1, 1), c), Dot(Column(1, 2, 3, 1), c),
           Dot(Column(1, 1, 2, 3), c), Dot(Column(3, 1, 1, 2), c))
  }

  function InvMixColumn(c: Column): (r: Column) {
    Column(Dot(Column(0x0e, 0x0b, 0x0d, 0x09), c), Dot(Column(0x09, 0x0e, 0x0b, 0x0d), c),
           Dot(Column(0x0d, 0x09, 0x0e, 0x0b), c), Dot(Column(0x0b, 0x0d, 0x09, 0x0e), c))
  }

  function MixColumns(s: State): (r: State) {
    State(MixColumn(s.c0), MixColumn(s.c1), MixColumn(s.c2), MixColumn(s.c3))
  }

  function InvMixColumns(s: State): (r: State) {
    State(InvMixColumn(s.c0), InvMixColumn(s.c1), InvMixColumn(s.c2), InvMixColumn(s.c3))
  }

  // ---------------------------------------------------------------- cipher

  function Round(s: State, k: State): (r: State) {
    AddRoundKey(MixColumns(ShiftRows(SubBytes(s))), k)
  }

  function FinalRound(s: State, k: State): (r: State) {
    AddRoundKey(ShiftRows(SubBytes(s)), k)
  }

  /** The state after the initial key addition and `n` full rounds. */
  function Rounds(s: State, w: seq<State>, n: nat): (r: State)
    requires n < |w|
  {
    if n == 0 then AddRoundKey(s, w[0]) else Round(Rounds(s, w, n - 1), w[n])
  }

  /** `Cipher` of section 5.1. */
  function Cipher(s: State, w: seq<State>): (r: State)
    requires |w| >= 2
  {
    FinalRound(Rounds(s, w, |w| - 2), w[|w| - 1])
  }

  function InvRound(s: State, k: State): (r: State) {
    AddRoundKey(InvMixColumns(InvShiftRows(InvSubBytes(s))), k)
  }

  function InvFinalRound(s: State, k: State): (r: State) {
    AddRoundKey(InvShiftRows(InvSubBytes(s)), k)
  }

  function InvRounds(s: State, dw: seq<State>, n: nat): (r: State)
    requires n < |dw|
  {
    if n == 0 then AddRoundKey(s, dw[0]) else InvRound(InvRounds(s, dw, n - 1), dw[n])
  }

  /** `EqInvCipher` of section 5.3.5. */
  function EqInvCipher(s: State, dw: seq<State>): (r: State)
    requires |dw| >= 2
  {
    InvFinalRound(InvRounds(s, dw, |dw| - 2), dw[|dw| - 1])
  }

  /** The decryption schedule of section 5.3.5: reversed, with InvMixColumns
      applied to all round keys but the first and the last. */
  function InverseKeys(w: seq<State>): (dw: seq<State>)
    ensures |dw| == |w|
  {
    seq(|w|, i requires 0 <= i < |w| =>
      if i == 0 || i == |w| - 1 then w[|w| - 1 - i] else InvMixColumns(w[|w| - 1 - i]))
  }

  // ------------------------------------------------------- matrix products

  function Scale(k: bv8, c: Column): (r: Column) {
    Column(Times(k, c.b0), Times(k, c.b1), Times(k, c.b2), Times(k, c.b3))
  }

  lemma TimesXor4(k: bv8, p0: bv8, p1: bv8, p2: bv8, p3: bv8)
    ensures Times(k, Xor4(p0, p1, p2, p3)) == Xor4(Times(k, p0), Times(k, p1), Times(k, p2), Times(k, p3))
  {
    hide Times, Xor;
    TimesRight(k, p0, p1);
    TimesRight(k, p2, p3);
    TimesRight(k, Xor(p0, p1), Xor(p2, p3));
  }

  lemma ScaleDot(k: bv8, r: Column, c: Column)
    ensures Times(k, Dot(r, c)) == Dot(Scale(k, r), c)
  {
    hide Times, Xor4;
    TimesXor4(k, Times(r.b0, c.b0), Times(r.b1, c.b1), Times(r.b2, c.b2), Times(r.b3, c.b3));
    TimesAssociates(k, r.b0, c.b0); TimesAssociates(k, r.b1, c.b1);
    TimesAssociates(k, r.b2, c.b2); TimesAssociates(k, r.b3, c.b3);
  }

  lemma DotOfSum(k: Column, c: Column, d: Column)
    ensures Dot(k, AddColumn(c, d)) == Xor(Dot(k, c), Dot(k, d))
  {
    hide Times, Xor, Xor4;
    TimesRight(k.b0, c.b0, d.b0); TimesRight(k.b1, c.b1, d.b1);
    TimesRight(k.b2, c.b2, d.b2); TimesRight(k.b3, c.b3, d.b3);
    Xor4Pairs(Times(k.b0, c.b0), Times(k.b1, c.b1), Times(k.b2, c.b2), Times(k.b3, c.b3),
              Times(k.b0, d.b0), Times(k.b1, d.b1), Times(k.b2, d.b2), Times(k.b3, d.b3));
  }

  lemma SumOfDots(p: Column, q: Column, c: Column)
    ensures Xor(Dot(p, c), Dot(q, c)) == Dot(AddColumn(p, q), c)
  {
    hide Times, Xor, Xor4;
    TimesLeft(p.b0, q.b0, c.b0); TimesLeft(p.b1, q.b1, c.b1);
    TimesLeft(p.b2, q.b2, c.b2); TimesLeft(p.b3, q.b3, c.b3);
    Xor4Pairs(Times(p.b0, c.b0), Times(p.b1, c.b1), Times(p.b2, c.b2), Times(p.b3, c.b3),
              Times(q.b0, c.b0), Times(q.b1, c.b1), Times(q.b2, c.b2), Times(q.b3, c.b3));
  }

  /** Row `k` times the matrix of MixColumns. */
  function RowTimesMix(k: Column): (r: Column) {
    AddColumn(AddColumn(Scale(k.b0, Column(2, 3, 1, 1)), Scale(k.b1, Column(1, 2, 3, 1))),
              AddColumn(Scale(k.b2, Column(1, 1, 2, 3)), Scale(k.b3, Column(3, 1, 1, 2))))
  }

  lemma DotOfMix(k: Column, c: Column)
    ensures Dot(k, MixColumn(c)) == Dot(RowTimesMix(k), c)
  {
    hide Times, Xor, Scale, AddColumn, Dot;
    var r0, r1 := Column(2, 3, 1, 1), Column(1, 2, 3, 1);
    var r2, r3 := Column(1, 1, 2, 3), Column(3, 1, 1, 2);
    ScaleDot(k.b0, r0, c); ScaleDot(k.b1, r1, c); ScaleDot(k.b2, r2, c); ScaleDot(k.b3, r3, c);
    DotIs(k, MixColumn(c));
    SumOfDots(Scale(k.b0, r0), Scale(k.b1, r1), c);
    SumOfDots(Scale(k.b2, r2), Scale(k.b3, r3), c);
    SumOfDots(AddColumn(Scale(k.b0, r0), Scale(k.b1, r1)), AddColumn(Scale(k.b2, r2), Scale(k.b3, r3)), c);
  }

  lemma DotIs(k: Column, c: Column)
    ensures Dot(k, c) == Xor(Xor(Times(k.b0, c.b0), Times(k.b1, c.b1)), Xor(Times(k.b2, c.b2), Times(k.b3, c.b3)))
  {
  }

  /** The two matrices are inverse to each other: their product, row by row. */
  lemma MatrixProduct()
    ensures RowTimesMix(Column(0x0e, 0x0b, 0x0d, 0x09)) == Column(1, 0, 0, 0)
    ensures RowTimesMix(Column(0x09, 0x0e, 0x0b, 0x0d)) == Column(0, 1, 0, 0)
    ensures RowTimesMix(Column(0x0d, 0x09, 0x0e, 0x0b)) == Column(0, 0, 1, 0)
    ensures RowTimesMix(Column(0x0b, 0x0d, 0x09, 0x0e)) == Column(0, 0, 0, 1)
  {
    Multiples();
    hide Times;
  }

  lemma Multiples()
    ensures Times(0x0e, 1) == 0x0e && Times(0x0e, 2) == 0x1c && Times(0x0e, 3) == 0x12
    ensures Times(0x0b, 1) == 0x0b && Times(0x0b, 2) == 0x16 && Times(0x0b, 3) == 0x1d
    ensures Times(0x0d, 1) == 0x0d && Times(0x0d, 2) == 0x1a && Times(0x0d, 3) == 0x17
    ensures Times(0x09, 1) == 0x09 && Times(0x09, 2) == 0x12 && Times(0x09, 3) == 0x1b
  {
  }

  lemma UnitRows(c: Column)
    ensures Dot(Column(1, 0, 0, 0), c) == c.b0 && Dot(Column(0, 1, 0, 0), c) == c.b1
    ensures Dot(Column(0, 0, 1, 0), c) == c.b2 && Dot(Column(0, 0, 0, 1), c) == c.b3
  {
    hide Times;
    UnitTimes(c.b0); UnitTimes(c.b1); UnitTimes(c.b2); UnitTimes(c.b3);
  }

  lemma MixColumnInverts(c: Column)
    ensures InvMixColumn(MixColumn(c)) == c
  {
    hide Dot, MixColumn, RowTimesMix;
    MatrixProduct();
    DotOfMix(Column(0x0e, 0x0b, 0x0d, 0x09), c);
    DotOfMix(Column(0x09, 0x0e, 0x0b, 0x0d), c);
    DotOfMix(Column(0x0d, 0x09, 0x0e, 0x0b), c);
    DotOfMix(Column(0x0b, 0x0d, 0x09, 0x0e), c);
    UnitRows(c);
  }

  lemma InvMixOfSum(c: Column, d: Column)
    ensures InvMixColumn(AddColumn(c, d)) == AddColumn(InvMixColumn(c), InvMixColumn(d))
  {
    hide Dot, Xor;
    DotOfSum(Column(0x0e, 0x0b, 0x0d, 0x09), c, d);
    DotOfSum(Column(0x09, 0x0e, 0x0b, 0x0d), c, d);
    DotOfSum(Column(0x0d, 0x09, 0x0e, 0x0b), c, d);
    DotOfSum(Column(0x0b, 0x0d, 0x09, 0x0e), c, d);
  }

  // -------------------------------------------------------- inverse cipher

  lemma MixColumnsInverts(s: State)
    ensures InvMixColumns(MixColumns(s)) == s
  {
    hide MixColumn, InvMixColumn;
    MixColumnInverts(s.c0); MixColumnInverts(s.c1); MixColumnInverts(s.c2); MixColumnInverts(s.c3);
  }

  lemma InvMixOfKeyed(s: State, k: State)
    ensures InvMixColumns(AddRoundKey(s, k)) == AddRoundKey(InvMixColumns(s), InvMixColumns(k))
  {
    hide InvMixColumn, AddColumn;
    InvMixOfSum(s.c0, k.c0); InvMixOfSum(s.c1, k.c1); InvMixOfSum(s.c2, k.c2); InvMixOfSum(s.c3, k.c3);
  }

  lemma SubColumnInverts(c: Column)
    ensures InvSubColumn(SubColumn(c)) == c
  {
    hide S, Si;
    SBoxInverts(c.b0); SBoxInverts(c.b1); SBoxInverts(c.b2); SBoxInverts(c.b3);
  }

  lemma SubAndShiftInvert(s: State)
    ensures InvShiftRows(InvSubBytes(ShiftRows(SubBytes(s)))) == s
  {
    hide S, Si;
    SubColumnInverts(s.c0); SubColumnInverts(s.c1); SubColumnInverts(s.c2); SubColumnInverts(s.c3);
  }

  lemma AddColumnTwice(c: Column, d: Column)
    ensures AddColumn(AddColumn(c, d), d) == c
  {
  }

  lemma AddRoundKeyTwice(s: State, k: State)
    ensures AddRoundKey(AddRoundKey(s, k), k) == s
  {
    hide AddColumn;
    AddColumnTwice(s.c0, k.c0); AddColumnTwice(s.c1, k.c1);
    AddColumnTwice(s.c2, k.c2); AddColumnTwice(s.c3, k.c3);
  }

  /** One inverse round takes the middle of round n + 1 to the middle of round n. */
  lemma InvRoundUndoes(x: State, k: State)
    ensures InvRound(ShiftRows(SubBytes(Round(x, k))), InvMixColumns(k)) == ShiftRows(SubBytes(x))
  {
    hide ShiftRows, SubBytes, MixColumns, InvMixColumns, AddRoundKey, InvShiftRows, InvSubBytes;
    SubAndShiftInvert(Round(x, k));
    var m := MixColumns(ShiftRows(SubBytes(x)));
    InvMixOfKeyed(Round(x, k), k);
    AddRoundKeyTwice(m, k);
    MixColumnsInverts(ShiftRows(SubBytes(x)));
  }

  lemma {:induction false} InvRoundsUndo(s: State, w: seq<State>, n: nat)
    requires |w| >= 2 && n <= |w| - 2
    ensures InvRounds(Cipher(s, w), InverseKeys(w), n) == ShiftRows(SubBytes(Rounds(s, w, |w| - 2 - n)))
  {
    hide ShiftRows, SubBytes, AddRoundKey, Round, InvRound, InvMixColumns;
    var dw := InverseKeys(w);
    if n == 0 {
      AddRoundKeyTwice(ShiftRows(SubBytes(Rounds(s, w, |w| - 2))), w[|w| - 1]);
    } else {
      InvRoundsUndo(s, w, n - 1);
      InvRoundUndoes(Rounds(s, w, |w| - 2 - n), w[|w| - 1 - n]);
    }
  }

  /** Deciphering under the inverted schedule undoes the cipher, for every
      schedule and every block. */
  lemma DecipherUndoes(s: State, w: seq<State>)
    requires |w| >= 2
    ensures EqInvCipher(Cipher(s, w), InverseKeys(w)) == s
  {
    hide ShiftRows, SubBytes, AddRoundKey, InvRounds, Cipher, InvShiftRows, InvSubBytes;
    var n := |w| - 2;
    InvRoundsUndo(s, w, n);
    SubAndShiftInvert(Rounds(s, w, 0));
    AddRoundKeyTwice(s, w[0]);
  }
}
