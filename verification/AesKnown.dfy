/** Known answers: entries of the S-box, words of the key expansions of appendix A and the
    cipher of appendix B of FIPS 197. */
module AesKnown {
  import opened AesField
  import opened AesSpec
  import opened AesKeySpec
  import opened Aes
  import opened AesBlock

  // ----------------------------------------------------------------- S-box

  /** One product tells the S-box entry. */
  lemma SBoxAt(x: bv8, y: bv8)
    requires Inverts(x, y)
    ensures S(x) == Affine(y)
  {
    hide Times, Sum8, Affine;
    TimesIsSum(x, y);
    if x != 0 { InverseIs(x, y); }
  }

  predicate Inverts(x: bv8, y: bv8) {
    if x == 0 then y == 0 else Sum8(x, y) == 1
  }

  /** Entries of figure 7 of FIPS 197. */
  lemma SBoxKnown()
    ensures S(0x00) == 0x63 && S(0x01) == 0x7c && S(0x53) == 0xed && S(0xff) == 0x16
  {
    hide Times, Inverse;
    SBoxAt(0x00, 0x00);
    SBoxAt(0x01, 0x01);
    SBoxAt(0x53, 0xca);
    SBoxAt(0xff, 0x1c);
  }

  /** Four entries at a time, from the four inverses. */
  lemma SubKnown(c: Column, y: Column)
    requires Inverts(c.b0, y.b0) && Inverts(c.b1, y.b1) && Inverts(c.b2, y.b2) && Inverts(c.b3, y.b3)
    ensures SubColumn(c) == Column(Affine(y.b0), Affine(y.b1), Affine(y.b2), Affine(y.b3))
  {
    hide S, Affine, Inverts;
    SBoxAt(c.b0, y.b0); SBoxAt(c.b1, y.b1); SBoxAt(c.b2, y.b2); SBoxAt(c.b3, y.b3);
  }

  /** Multiplication by 1, 2 and 3 in `MixColumn`. */
  lemma MixKnown(c: Column)
    ensures MixColumn(c) ==
            Column(Xor4(Xtime(c.b0), Xor(Xtime(c.b1), c.b1), c.b2, c.b3),
                   Xor4(c.b0, Xtime(c.b1), Xor(Xtime(c.b2), c.b2), c.b3),
                   Xor4(c.b0, c.b1, Xtime(c.b2), Xor(Xtime(c.b3), c.b3)),
                   Xor4(Xor(Xtime(c.b0), c.b0), c.b1, c.b2, Xtime(c.b3)))
  {
    hide Times, Xtime, Xor, Xor4;
    ThreeTimes(c.b0); ThreeTimes(c.b1); ThreeTimes(c.b2); ThreeTimes(c.b3);
  }

  lemma ThreeTimes(x: bv8)
    ensures Times(1, x) == x && Times(2, x) == Xtime(x) && Times(3, x) == Xor(Xtime(x), x)
  {
    assert Xor(2, 1) == 3;
    hide Times, Xtime, Xor;
    UnitTimes(x);
    TwoTimes(x);
    TimesLeft(2, 1, x);
  }

  // ------------------------------------------------------------ appendix A.1

  function Key0(): (w: State) {
    State(Column(0x2b, 0x7e, 0x15, 0x16), Column(0x28, 0xae, 0xd2, 0xa6),
          Column(0xab, 0xf7, 0x15, 0x88), Column(0x09, 0xcf, 0x4f, 0x3c))
  }

  function Key1(): (w: State) {
    State(Column(0xa0, 0xfa, 0xfe, 0x17), Column(0x88, 0x54, 0x2c, 0xb1),
          Column(0x23, 0xa3, 0x39, 0x39), Column(0x2a, 0x6c, 0x76, 0x05))
  }

  function Key2(): (w: State) {
    State(Column(0xf2, 0xc2, 0x95, 0xf2), Column(0x7a, 0x96, 0xb9, 0x43),
          Column(0x59, 0x35, 0x80, 0x7a), Column(0x73, 0x59, 0xf6, 0x7f))
  }

  function Key3(): (w: State) {
    State(Column(0x3d, 0x80, 0x47, 0x7d), Column(0x47, 0x16, 0xfe, 0x3e),
          Column(0x1e, 0x23, 0x7e, 0x44), Column(0x6d, 0x7a, 0x88, 0x3b))
  }

  function Key4(): (w: State) {
    State(Column(0xef, 0x44, 0xa5, 0x41), Column(0xa8, 0x52, 0x5b, 0x7f),
          Column(0xb6, 0x71, 0x25, 0x3b), Column(0xdb, 0x0b, 0xad, 0x00))
  }

  function Key5(): (w: State) {
    State(Column(0xd4, 0xd1, 0xc6, 0xf8), Column(0x7c, 0x83, 0x9d, 0x87),
          Column(0xca, 0xf2, 0xb8, 0xbc), Column(0x11, 0xf9, 0x15, 0xbc))
  }

  function Key6(): (w: State) {
    State(Column(0x6d, 0x88, 0xa3, 0x7a), Column(0x11, 0x0b, 0x3e, 0xfd),
          Column(0xdb, 0xf9, 0x86, 0x41), Column(0xca, 0x00, 0x93, 0xfd))
  }

  function Key7(): (w: State) {
    State(Column(0x4e, 0x54, 0xf7, 0x0e), Column(0x5f, 0x5f, 0xc9, 0xf3),
          Column(0x84, 0xa6, 0x4f, 0xb2), Column(0x4e, 0xa6, 0xdc, 0x4f))
  }

  function Key8(): (w: State) {
    State(Column(0xea, 0xd2, 0x73, 0x21), Column(0xb5, 0x8d, 0xba, 0xd2),
          Column(0x31, 0x2b, 0xf5, 0x60), Column(0x7f, 0x8d, 0x29, 0x2f))
  }

  function Key9(): (w: State) {
    State(Column(0xac, 0x77, 0x66, 0xf3), Column(0x19, 0xfa, 0xdc, 0x21),
          Column(0x28, 0xd1, 0x29, 0x41), Column(0x57, 0x5c, 0x00, 0x6e))
  }

  function Key10(): (w: State) {
    State(Column(0xd0, 0x14, 0xf9, 0xa8), Column(0xc9, 0xee, 0x25, 0x89),
          Column(0xe1, 0x3f, 0x0c, 0xc8), Column(0xb6, 0x63, 0x0c, 0xa6))
  }

  function NextKey(w: State, t: Column, rc: bv8): (u: State) {
    var u0 := AddColumn(w.c0, AddColumn(t, Column(rc, 0, 0, 0)));
    var u1 := AddColumn(w.c1, u0);
    var u2 := AddColumn(w.c2, u1);
    State(u0, u1, u2, AddColumn(w.c3, u2))
  }

  function KeyBefore(w: State): (c: Column) {
    SubColumn(RotWord(w.c3))
  }

  lemma Keys0To5()
    ensures NextKey(Key0(), KeyBefore(Key0()), 0x01) == Key1()
    ensures NextKey(Key1(), KeyBefore(Key1()), 0x02) == Key2()
    ensures NextKey(Key2(), KeyBefore(Key2()), 0x04) == Key3()
    ensures NextKey(Key3(), KeyBefore(Key3()), 0x08) == Key4()
    ensures NextKey(Key4(), KeyBefore(Key4()), 0x10) == Key5()
  {
    hide SubColumn;
    assert NextKey(Key0(), KeyBefore(Key0()), 0x01) == Key1() by {
      SubKnown(Column(0xcf, 0x4f, 0x3c, 0x09), Column(0xe6, 0x09, 0x77, 0x4f));
    }
    assert NextKey(Key1(), KeyBefore(Key1()), 0x02) == Key2() by {
      SubKnown(Column(0x6c, 0x76, 0x05, 0x2a), Column(0x33, 0xba, 0x52, 0x98));
    }
    assert NextKey(Key2(), KeyBefore(Key2()), 0x04) == Key3() by {
      SubKnown(Column(0x59, 0xf6, 0x7f, 0x73), Column(0x3e, 0x03, 0x82, 0x85));
    }
    assert NextKey(Key3(), KeyBefore(Key3()), 0x08) == Key4() by {
      SubKnown(Column(0x7a, 0x88, 0x3b, 0x6d), Column(0xd0, 0x9b, 0x6f, 0x93));
    }
    assert NextKey(Key4(), KeyBefore(Key4()), 0x10) == Key5() by {
      SubKnown(Column(0x0b, 0xad, 0x00, 0xdb), Column(0xc0, 0xe7, 0x00, 0xd5));
    }
  }

  lemma Keys5To10()
    ensures NextKey(Key5(), KeyBefore(Key5()), 0x20) == Key6()
    ensures NextKey(Key6(), KeyBefore(Key6()), 0x40) == Key7()
    ensures NextKey(Key7(), KeyBefore(Key7()), 0x80) == Key8()
    ensures NextKey(Key8(), KeyBefore(Key8()), 0x1b) == Key9()
    ensures NextKey(Key9(), KeyBefore(Key9()), 0x36) == Key10()
  {
    hide SubColumn;
    assert NextKey(Key5(), KeyBefore(Key5()), 0x20) == Key6() by {
      SubKnown(Column(0xf9, 0x15, 0xbc, 0x11), Column(0x9c, 0x2b, 0xbd, 0xb4));
    }
    assert NextKey(Key6(), KeyBefore(Key6()), 0x40) == Key7() by {
      SubKnown(Column(0x00, 0x93, 0xfd, 0xca), Column(0x00, 0x6d, 0x1a, 0x53));
    }
    assert NextKey(Key7(), KeyBefore(Key7()), 0x80) == Key8() by {
      SubKnown(Column(0xa6, 0xdc, 0x4f, 0x4e), Column(0x65, 0x9d, 0x09, 0xe9));
    }
    assert NextKey(Key8(), KeyBefore(Key8()), 0x1b) == Key9() by {
      SubKnown(Column(0x8d, 0x29, 0x2f, 0x7f), Column(0x02, 0x0a, 0xc2, 0x82));
    }
    assert NextKey(Key9(), KeyBefore(Key9()), 0x36) == Key10() by {
      SubKnown(Column(0x5c, 0x00, 0x6e, 0x57), Column(0x51, 0x00, 0x21, 0xbf));
    }
  }

  /** Words 4j to 4j + 3 of the schedule. */
  predicate WordsAre(key: seq<Column>, j: nat, w: State)
    requires KeyLength(|key|)
  {
    && KeyWord(key, 4 * j) == w.c0 && KeyWord(key, 4 * j + 1) == w.c1
    && KeyWord(key, 4 * j + 2) == w.c2 && KeyWord(key, 4 * j + 3) == w.c3
  }

  lemma NextWords(key: seq<Column>, j: nat, w: State, rc: bv8)
    requires |key| == 4 && WordsAre(key, j, w) && Pow(2, j) == rc
    ensures WordsAre(key, j + 1, NextKey(w, KeyBefore(w), rc))
  {
    hide AddColumn, SubColumn, RotWord, Pow, KeyWord;
    WordStep(key, 4 * j + 4, j + 1, 0);
    WordStep(key, 4 * j + 5, j + 1, 1);
    WordStep(key, 4 * j + 6, j + 1, 2);
    WordStep(key, 4 * j + 7, j + 1, 3);
  }

  lemma WordStep(key: seq<Column>, n: nat, q: nat, r: nat)
    requires |key| == 4 && n == 4 * q + r && q >= 1 && r < 4
    ensures KeyWord(key, n) ==
            AddColumn(KeyWord(key, n - 4), if r == 0 then AddColumn(SubColumn(RotWord(KeyWord(key, n - 1))), Rcon(q))
                                           else KeyWord(key, n - 1))
  {
    hide AddColumn, SubColumn, RotWord, Rcon;
    Position(4, n, q, r);
  }

  /** Appendix A.1: every word of the expanded key. */
  lemma ExpansionKnown(key: seq<Column>)
    requires |key| == 4 && WordsAre(key, 0, Key0())
    ensures WordsAre(key, 0, Key0()) && WordsAre(key, 1, Key1()) && WordsAre(key, 2, Key2())
    ensures WordsAre(key, 3, Key3()) && WordsAre(key, 4, Key4()) && WordsAre(key, 5, Key5())
    ensures WordsAre(key, 6, Key6()) && WordsAre(key, 7, Key7()) && WordsAre(key, 8, Key8())
    ensures WordsAre(key, 9, Key9()) && WordsAre(key, 10, Key10())
  {
    hide WordsAre, NextKey, KeyBefore, Pow, Key0, Key1, Key2, Key3, Key4, Key5, Key6, Key7, Key8, Key9, Key10;
    PowersOfX();
    Keys0To5();
    Keys5To10();
    NextWords(key, 0, Key0(), 0x01); NextWords(key, 1, Key1(), 0x02);
    NextWords(key, 2, Key2(), 0x04); NextWords(key, 3, Key3(), 0x08);
    NextWords(key, 4, Key4(), 0x10); NextWords(key, 5, Key5(), 0x20);
    NextWords(key, 6, Key6(), 0x40); NextWords(key, 7, Key7(), 0x80);
    NextWords(key, 8, Key8(), 0x1b); NextWords(key, 9, Key9(), 0x36);
  }

  // ----------------------------------------------------- appendices A.2 and A.3

  /** Word `i` from the one before it and the one |key| back. */
  lemma LaterWord(key: seq<Column>, i: nat)
    requires KeyLength(|key|) && i >= |key|
    ensures KeyWord(key, i) == AddColumn(KeyWord(key, i - |key|), Temp(|key|, i, KeyWord(key, i - 1)))
  {
  }

  /** Appendix A.2: the first word after a 192-bit key. */
  lemma Expansion192Known(key: seq<Column>)
    requires |key| == 6 && key[0] == Column(0x8e, 0x73, 0xb0, 0xf7) && key[5] == Column(0x52, 0x2c, 0x6b, 0x7b)
    ensures KeyWord(key, 6) == Column(0xfe, 0x0c, 0x91, 0xf7)
  {
    hide SubColumn, KeyWord, Pow;
    LaterWord(key, 6);
    FirstKeyWord(key, 0); FirstKeyWord(key, 5);
    PowersOfX();
    SubKnown(Column(0x2c, 0x6b, 0x7b, 0x52), Column(0x30, 0xdf, 0x06, 0x05));
  }

  lemma FirstKeyWord(key: seq<Column>, i: nat)
    requires KeyLength(|key|) && i < |key|
    ensures KeyWord(key, i) == key[i]
  {
  }

  /** Appendix A.3: the words after a 256-bit key, up to the one that takes the
      S-box of its predecessor without rotation. */
  lemma Expansion256Known(key: seq<Column>)
    requires |key| == 8 && key[0] == Column(0x60, 0x3d, 0xeb, 0x10) && key[1] == Column(0x15, 0xca, 0x71, 0xbe)
    requires key[2] == Column(0x2b, 0x73, 0xae, 0xf0) && key[3] == Column(0x85, 0x7d, 0x77, 0x81)
    requires key[4] == Column(0x1f, 0x35, 0x2c, 0x07) && key[7] == Column(0x09, 0x14, 0xdf, 0xf4)
    ensures KeyWord(key, 8) == Column(0x9b, 0xa3, 0x54, 0x11) && KeyWord(key, 9) == Column(0x8e, 0x69, 0x25, 0xaf)
    ensures KeyWord(key, 10) == Column(0xa5, 0x1a, 0x8b, 0x5f) && KeyWord(key, 11) == Column(0x20, 0x67, 0xfc, 0xde)
    ensures KeyWord(key, 12) == Column(0xa8, 0xb0, 0x9c, 0x1a)
  {
    hide SubColumn, KeyWord, Pow;
    FirstKeyWord(key, 0); FirstKeyWord(key, 1); FirstKeyWord(key, 2); FirstKeyWord(key, 3);
    FirstKeyWord(key, 4); FirstKeyWord(key, 7);
    PowersOfX();
    assert KeyWord(key, 8) == Column(0x9b, 0xa3, 0x54, 0x11) by {
      LaterWord(key, 8);
      SubKnown(Column(0x14, 0xdf, 0xf4, 0x09), Column(0x99, 0x6b, 0x68, 0x4f));
    }
    assert KeyWord(key, 9) == Column(0x8e, 0x69, 0x25, 0xaf) by { LaterWord(key, 9); }
    assert KeyWord(key, 10) == Column(0xa5, 0x1a, 0x8b, 0x5f) by { LaterWord(key, 10); }
    assert KeyWord(key, 11) == Column(0x20, 0x67, 0xfc, 0xde) by { LaterWord(key, 11); }
    assert KeyWord(key, 12) == Column(0xa8, 0xb0, 0x9c, 0x1a) by {
      LaterWord(key, 12);
      SubKnown(Column(0x20, 0x67, 0xfc, 0xde), Column(0x3a, 0x43, 0xcd, 0x90));
    }
  }

  // -------------------------------------------------------------- appendix B

  function State0(): (s: State) {
    State(Column(0x19, 0x3d, 0xe3, 0xbe), Column(0xa0, 0xf4, 0xe2, 0x2b),
          Column(0x9a, 0xc6, 0x8d, 0x2a), Column(0xe9, 0xf8, 0x48, 0x08))
  }

  function State1(): (s: State) {
    State(Column(0xa4, 0x9c, 0x7f, 0xf2), Column(0x68, 0x9f, 0x35, 0x2b),
          Column(0x6b, 0x5b, 0xea, 0x43), Column(0x02, 0x6a, 0x50, 0x49))
  }

  function State2(): (s: State) {
    State(Column(0xaa, 0x8f, 0x5f, 0x03), Column(0x61, 0xdd, 0xe3, 0xef),
          Column(0x82, 0xd2, 0x4a, 0xd2), Column(0x68, 0x32, 0x46, 0x9a))
  }

  function State3(): (s: State) {
    State(Column(0x48, 0x6c, 0x4e, 0xee), Column(0x67, 0x1d, 0x9d, 0x0d),
          Column(0x4d, 0xe3, 0xb1, 0x38), Column(0xd6, 0x5f, 0x58, 0xe7))
  }

  function State4(): (s: State) {
    State(Column(0xe0, 0x92, 0x7f, 0xe8), Column(0xc8, 0x63, 0x63, 0xc0),
          Column(0xd9, 0xb1, 0x35, 0x50), Column(0x85, 0xb8, 0xbe, 0x01))
  }

  function State5(): (s: State) {
    State(Column(0xf1, 0x00, 0x6f, 0x55), Column(0xc1, 0x92, 0x4c, 0xef),
          Column(0x7c, 0xc8, 0x8b, 0x32), Column(0x5d, 0xb5, 0xd5, 0x0c))
  }

  function State6(): (s: State) {
    State(Column(0x26, 0x0e, 0x2e, 0x17), Column(0x3d, 0x41, 0xb7, 0x7d),
          Column(0xe8, 0x64, 0x72, 0xa9), Column(0xfd, 0xd2, 0x8b, 0x25))
  }

  function State7(): (s: State) {
    State(Column(0x5a, 0x41, 0x42, 0xb1), Column(0x19, 0x49, 0xdc, 0x1f),
          Column(0xa3, 0xe0, 0x19, 0x65), Column(0x7a, 0x8c, 0x04, 0x0c))
  }

  function State8(): (s: State) {
    State(Column(0xea, 0x83, 0x5c, 0xf0), Column(0x04, 0x45, 0x33, 0x2d),
          Column(0x65, 0x5d, 0x98, 0xad), Column(0x85, 0x96, 0xb0, 0xc5))
  }

  function State9(): (s: State) {
    State(Column(0xeb, 0x40, 0xf2, 0x1e), Column(0x59, 0x2e, 0x38, 0x84),
          Column(0x8b, 0xa1, 0x13, 0xe7), Column(0x1b, 0xc3, 0x42, 0xd2))
  }

  lemma Rounds1And2()
    ensures Round(State0(), Key1()) == State1()
    ensures Round(State1(), Key2()) == State2()
  {
    hide SubColumn, MixColumn;
    assert Round(State0(), Key1()) == State1() by {
      assert SubColumn(Column(0x19, 0x3d, 0xe3, 0xbe)) == Column(0xd4, 0x27, 0x11, 0xae) by {
        SubKnown(Column(0x19, 0x3d, 0xe3, 0xbe), Column(0x3f, 0xbb, 0xeb, 0x86));
      }
      assert SubColumn(Column(0xa0, 0xf4, 0xe2, 0x2b)) == Column(0xe0, 0xbf, 0x98, 0xf1) by {
        SubKnown(Column(0xa0, 0xf4, 0xe2, 0x2b), Column(0xfb, 0x68, 0xd6, 0x15));
      }
      assert SubColumn(Column(0x9a, 0xc6, 0x8d, 0x2a)) == Column(0xb8, 0xb4, 0x5d, 0xe5) by {
        SubKnown(Column(0x9a, 0xc6, 0x8d, 0x2a), Column(0x9f, 0xe4, 0x02, 0x98));
      }
      assert SubColumn(Column(0xe9, 0xf8, 0x48, 0x08)) == Column(0x1e, 0x41, 0x52, 0x30) by {
        SubKnown(Column(0xe9, 0xf8, 0x48, 0x08), Column(0x4e, 0xdd, 0xa7, 0xe8));
      }
      MixKnown(Column(0xd4, 0xbf, 0x5d, 0x30)); MixKnown(Column(0xe0, 0xb4, 0x52, 0xae));
      MixKnown(Column(0xb8, 0x41, 0x11, 0xf1)); MixKnown(Column(0x1e, 0x27, 0x98, 0xe5));
    }
    assert Round(State1(), Key2()) == State2() by {
      assert SubColumn(Column(0xa4, 0x9c, 0x7f, 0xf2)) == Column(0x49, 0xde, 0xd2, 0x89) by {
        SubKnown(Column(0xa4, 0x9c, 0x7f, 0xf2), Column(0x8f, 0xf9, 0x82, 0x38));
      }
      assert SubColumn(Column(0x68, 0x9f, 0x35, 0x2b)) == Column(0x45, 0xdb, 0x96, 0xf1) by {
        SubKnown(Column(0x68, 0x9f, 0x35, 0x2b), Column(0xf4, 0x9a, 0x39, 0x15));
      }
      assert SubColumn(Column(0x6b, 0x5b, 0xea, 0x43)) == Column(0x7f, 0x39, 0x87, 0x1a) by {
        SubKnown(Column(0x6b, 0x5b, 0xea, 0x43), Column(0xdf, 0xf0, 0xd7, 0x67));
      }
      assert SubColumn(Column(0x02, 0x6a, 0x50, 0x49)) == Column(0x77, 0x02, 0x53, 0x3b) by {
        SubKnown(Column(0x02, 0x6a, 0x50, 0x49), Column(0x8d, 0x91, 0xed, 0x64));
      }
      MixKnown(Column(0x49, 0xdb, 0x87, 0x3b)); MixKnown(Column(0x45, 0x39, 0x53, 0x89));
      MixKnown(Column(0x7f, 0x02, 0xd2, 0xf1)); MixKnown(Column(0x77, 0xde, 0x96, 0x1a));
    }
  }

  lemma Rounds3And4()
    ensures Round(State2(), Key3()) == State3()
    ensures Round(State3(), Key4()) == State4()
  {
    hide SubColumn, MixColumn;
    assert Round(State2(), Key3()) == State3() by {
      assert SubColumn(Column(0xaa, 0x8f, 0x5f, 0x03)) == Column(0xac, 0x73, 0xcf, 0x7b) by {
        SubKnown(Column(0xaa, 0x8f, 0x5f, 0x03), Column(0x12, 0xa4, 0x17, 0xf6));
      }
      assert SubColumn(Column(0x61, 0xdd, 0xe3, 0xef)) == Column(0xef, 0xc1, 0x11, 0xdf) by {
        SubKnown(Column(0x61, 0xdd, 0xe3, 0xef), Column(0x5e, 0xf8, 0xeb, 0xb3));
      }
      assert SubColumn(Column(0x82, 0xd2, 0x4a, 0xd2)) == Column(0x13, 0xb5, 0xd6, 0xb5) by {
        SubKnown(Column(0x82, 0xd2, 0x4a, 0xd2), Column(0x7f, 0xae, 0xab, 0xae));
      }
      assert SubColumn(Column(0x68, 0x32, 0x46, 0x9a)) == Column(0x45, 0x23, 0x5a, 0xb8) by {
        SubKnown(Column(0x68, 0x32, 0x46, 0x9a), Column(0xf4, 0x92, 0xf5, 0x9f));
      }
      MixKnown(Column(0xac, 0xc1, 0xd6, 0xb8)); MixKnown(Column(0xef, 0xb5, 0x5a, 0x7b));
      MixKnown(Column(0x13, 0x23, 0xcf, 0xdf)); MixKnown(Column(0x45, 0x73, 0x11, 0xb5));
    }
    assert Round(State3(), Key4()) == State4() by {
      assert SubColumn(Column(0x48, 0x6c, 0x4e, 0xee)) == Column(0x52, 0x50, 0x2f, 0x28) by {
        SubKnown(Column(0x48, 0x6c, 0x4e, 0xee), Column(0xa7, 0x33, 0xe9, 0x1e));
      }
      assert SubColumn(Column(0x67, 0x1d, 0x9d, 0x0d)) == Column(0x85, 0xa4, 0x5e, 0xd7) by {
        SubKnown(Column(0x67, 0x1d, 0x9d, 0x0d), Column(0x43, 0x40, 0xdc, 0xe1));
      }
      assert SubColumn(Column(0x4d, 0xe3, 0xb1, 0x38)) == Column(0xe3, 0x11, 0xc8, 0x07) by {
        SubKnown(Column(0x4d, 0xe3, 0xb1, 0x38), Column(0x25, 0xeb, 0xe0, 0xf2));
      }
      assert SubColumn(Column(0xd6, 0x5f, 0x58, 0xe7)) == Column(0xf6, 0xcf, 0x6a, 0x94) by {
        SubKnown(Column(0xd6, 0x5f, 0x58, 0xe7), Column(0xe2, 0x17, 0x18, 0xad));
      }
      MixKnown(Column(0x52, 0xa4, 0xc8, 0x94)); MixKnown(Column(0x85, 0x11, 0x6a, 0x28));
      MixKnown(Column(0xe3, 0xcf, 0x2f, 0xd7)); MixKnown(Column(0xf6, 0x50, 0x5e, 0x07));
    }
  }

  lemma Rounds5And6()
    ensures Round(State4(), Key5()) == State5()
    ensures Round(State5(), Key6()) == State6()
  {
    hide SubColumn, MixColumn;
    assert Round(State4(), Key5()) == State5() by {
      assert SubColumn(Column(0xe0, 0x92, 0x7f, 0xe8)) == Column(0xe1, 0x4f, 0xd2, 0x9b) by {
        SubKnown(Column(0xe0, 0x92, 0x7f, 0xe8), Column(0xb1, 0x32, 0x82, 0x08));
      }
      assert SubColumn(Column(0xc8, 0x63, 0x63, 0xc0)) == Column(0xe8, 0xfb, 0xfb, 0xba) by {
        SubKnown(Column(0xc8, 0x63, 0x63, 0xc0), Column(0xa9, 0xd3, 0xd3, 0x0b));
      }
      assert SubColumn(Column(0xd9, 0xb1, 0x35, 0x50)) == Column(0x35, 0xc8, 0x96, 0x53) by {
        SubKnown(Column(0xd9, 0xb1, 0x35, 0x50), Column(0x8b, 0xe0, 0x39, 0xed));
      }
      assert SubColumn(Column(0x85, 0xb8, 0xbe, 0x01)) == Column(0x97, 0x6c, 0xae, 0x7c) by {
        SubKnown(Column(0x85, 0xb8, 0xbe, 0x01), Column(0x73, 0xa5, 0x86, 0x01));
      }
      MixKnown(Column(0xe1, 0xfb, 0x96, 0x7c)); MixKnown(Column(0xe8, 0xc8, 0xae, 0x9b));
      MixKnown(Column(0x35, 0x6c, 0xd2, 0xba)); MixKnown(Column(0x97, 0x4f, 0xfb, 0x53));
    }
    assert Round(State5(), Key6()) == State6() by {
      assert SubColumn(Column(0xf1, 0x00, 0x6f, 0x55)) == Column(0xa1, 0x63, 0xa8, 0xfc) by {
        SubKnown(Column(0xf1, 0x00, 0x6f, 0x55), Column(0x23, 0x00, 0x3b, 0x24));
      }
      assert SubColumn(Column(0xc1, 0x92, 0x4c, 0xef)) == Column(0x78, 0x4f, 0x29, 0xdf) by {
        SubKnown(Column(0xc1, 0x92, 0x4c, 0xef), Column(0x28, 0x32, 0x54, 0xb3));
      }
      assert SubColumn(Column(0x7c, 0xc8, 0x8b, 0x32)) == Column(0x10, 0xe8, 0x3d, 0x23) by {
        SubKnown(Column(0x7c, 0xc8, 0x8b, 0x32), Column(0xa1, 0xa9, 0xd9, 0x92));
      }
      assert SubColumn(Column(0x5d, 0xb5, 0xd5, 0x0c)) == Column(0x4c, 0xd5, 0x03, 0xfe) by {
        SubKnown(Column(0x5d, 0xb5, 0xd5, 0x0c), Column(0xec, 0x75, 0xdb, 0xb0));
      }
      MixKnown(Column(0xa1, 0x4f, 0x3d, 0xfe)); MixKnown(Column(0x78, 0xe8, 0x03, 0xfc));
      MixKnown(Column(0x10, 0xd5, 0xa8, 0xdf)); MixKnown(Column(0x4c, 0x63, 0x29, 0x23));
    }
  }

  lemma Rounds7And8()
    ensures Round(State6(), Key7()) == State7()
    ensures Round(State7(), Key8()) == State8()
  {
    hide SubColumn, MixColumn;
    assert Round(State6(), Key7()) == State7() by {
      assert SubColumn(Column(0x26, 0x0e, 0x2e, 0x17)) == Column(0xf7, 0xab, 0x31, 0xf0) by {
        SubKnown(Column(0x26, 0x0e, 0x2e, 0x17), Column(0xa8, 0xe5, 0xa2, 0x5f));
      }
      assert SubColumn(Column(0x3d, 0x41, 0xb7, 0x7d)) == Column(0x27, 0x83, 0xa9, 0xff) by {
        SubKnown(Column(0x3d, 0x41, 0xb7, 0x7d), Column(0xbb, 0xfe, 0x71, 0xfa));
      }
      assert SubColumn(Column(0xe8, 0x64, 0x72, 0xa9)) == Column(0x9b, 0x43, 0x40, 0xd3) by {
        SubKnown(Column(0xe8, 0x64, 0x72, 0xa9), Column(0x08, 0x49, 0x97, 0xc8));
      }
      assert SubColumn(Column(0xfd, 0xd2, 0x8b, 0x25)) == Column(0x54, 0xb5, 0x3d, 0x3f) by {
        SubKnown(Column(0xfd, 0xd2, 0x8b, 0x25), Column(0x1a, 0xae, 0xd9, 0x4d));
      }
      MixKnown(Column(0xf7, 0x83, 0x40, 0x3f)); MixKnown(Column(0x27, 0x43, 0x3d, 0xf0));
      MixKnown(Column(0x9b, 0xb5, 0x31, 0xff)); MixKnown(Column(0x54, 0xab, 0xa9, 0xd3));
    }
    assert Round(State7(), Key8()) == State8() by {
      assert SubColumn(Column(0x5a, 0x41, 0x42, 0xb1)) == Column(0xbe, 0x83, 0x2c, 0xc8) by {
        SubKnown(Column(0x5a, 0x41, 0x42, 0xb1), Column(0x22, 0xfe, 0x37, 0xe0));
      }
      assert SubColumn(Column(0x19, 0x49, 0xdc, 0x1f)) == Column(0xd4, 0x3b, 0x86, 0xc0) by {
        SubKnown(Column(0x19, 0x49, 0xdc, 0x1f), Column(0x3f, 0x64, 0x9d, 0xb2));
      }
      assert SubColumn(Column(0xa3, 0xe0, 0x19, 0x65)) == Column(0x0a, 0xe1, 0xd4, 0x4d) by {
        SubKnown(Column(0xa3, 0xe0, 0x19, 0x65), Column(0xc3, 0xb1, 0x3f, 0xa6));
      }
      assert SubColumn(Column(0x7a, 0x8c, 0x04, 0x0c)) == Column(0xda, 0x64, 0xf2, 0xfe) by {
        SubKnown(Column(0x7a, 0x8c, 0x04, 0x0c), Column(0xd0, 0xf7, 0xcb, 0xb0));
      }
      MixKnown(Column(0xbe, 0x3b, 0xd4, 0xfe)); MixKnown(Column(0xd4, 0xe1, 0xf2, 0xc8));
      MixKnown(Column(0x0a, 0x64, 0x2c, 0xc0)); MixKnown(Column(0xda, 0x83, 0x86, 0x4d));
    }
  }

  lemma Round9()
    ensures Round(State8(), Key9()) == State9()
  {
    hide SubColumn, MixColumn;
    assert SubColumn(Column(0xea, 0x83, 0x5c, 0xf0)) == Column(0x87, 0xec, 0x4a, 0x8c) by {
      SubKnown(Column(0xea, 0x83, 0x5c, 0xf0), Column(0xd7, 0x80, 0x51, 0x5b));
    }
    assert SubColumn(Column(0x04, 0x45, 0x33, 0x2d)) == Column(0xf2, 0x6e, 0xc3, 0xd8) by {
      SubKnown(Column(0x04, 0x45, 0x33, 0x2d), Column(0xcb, 0x31, 0x6c, 0x44));
    }
    assert SubColumn(Column(0x65, 0x5d, 0x98, 0xad)) == Column(0x4d, 0x4c, 0x46, 0x95) by {
      SubKnown(Column(0x65, 0x5d, 0x98, 0xad), Column(0xa6, 0xec, 0x2a, 0xe7));
    }
    assert SubColumn(Column(0x85, 0x96, 0xb0, 0xc5)) == Column(0x97, 0x90, 0xe7, 0xa6) by {
      SubKnown(Column(0x85, 0x96, 0xb0, 0xc5), Column(0x73, 0x84, 0x0c, 0xd4));
    }
    MixKnown(Column(0x87, 0x6e, 0x46, 0xa6)); MixKnown(Column(0xf2, 0x4c, 0xe7, 0x8c));
    MixKnown(Column(0x4d, 0x90, 0x4a, 0xd8)); MixKnown(Column(0x97, 0xec, 0xc3, 0x95));
  }

  function Plain(): (s: State) {
    State(Column(0x32, 0x43, 0xf6, 0xa8), Column(0x88, 0x5a, 0x30, 0x8d),
          Column(0x31, 0x31, 0x98, 0xa2), Column(0xe0, 0x37, 0x07, 0x34))
  }

  function Enciphered(): (s: State) {
    State(Column(0x39, 0x25, 0x84, 0x1d), Column(0x02, 0xdc, 0x09, 0xfb),
          Column(0xdc, 0x11, 0x85, 0x97), Column(0x19, 0x6a, 0x0b, 0x32))
  }

  lemma EndsKnown()
    ensures AddRoundKey(Plain(), Key0()) == State0() && FinalRound(State9(), Key10()) == Enciphered()
  {
    hide SubColumn;
    SubKnown(Column(0xeb, 0x40, 0xf2, 0x1e), Column(0xe3, 0x1d, 0x38, 0xee));
    SubKnown(Column(0x59, 0x2e, 0x38, 0x84), Column(0x3e, 0xa2, 0xf2, 0x96));
    SubKnown(Column(0x8b, 0xa1, 0x13, 0xe7), Column(0xd9, 0x7c, 0x4b, 0xad));
    SubKnown(Column(0x1b, 0xc3, 0x42, 0xd2), Column(0xcc, 0xa3, 0x37, 0xae));
  }

  /** The round keys of the schedule. */
  ghost predicate ScheduleIs(w: seq<State>) {
    && |w| == 11 && w[0] == Key0() && w[1] == Key1() && w[2] == Key2() && w[3] == Key3() && w[4] == Key4()
    && w[5] == Key5() && w[6] == Key6() && w[7] == Key7() && w[8] == Key8() && w[9] == Key9() && w[10] == Key10()
  }

  lemma ScheduleKnown(bytes: seq<bv8>)
    requires bytes == BytesOf(Key0())
    ensures ScheduleIs(Schedule(bytes, 4))
  {
    hide WordsAre, KeyWord, Key0, Key1, Key2, Key3, Key4, Key5, Key6, Key7, Key8, Key9, Key10;
    hide BytesOf, KeyColumns, Schedule;
    FirstWords(bytes);
    ExpansionKnown(KeyColumns(bytes, 4));
    var w := Schedule(bytes, 4);
    assert w[0] == Key0() by { WordsSchedule(bytes, 0, Key0()); }
    assert w[1] == Key1() by { WordsSchedule(bytes, 1, Key1()); }
    assert w[2] == Key2() by { WordsSchedule(bytes, 2, Key2()); }
    assert w[3] == Key3() by { WordsSchedule(bytes, 3, Key3()); }
    assert w[4] == Key4() by { WordsSchedule(bytes, 4, Key4()); }
    assert w[5] == Key5() by { WordsSchedule(bytes, 5, Key5()); }
    assert w[6] == Key6() by { WordsSchedule(bytes, 6, Key6()); }
    assert w[7] == Key7() by { WordsSchedule(bytes, 7, Key7()); }
    assert w[8] == Key8() by { WordsSchedule(bytes, 8, Key8()); }
    assert w[9] == Key9() by { WordsSchedule(bytes, 9, Key9()); }
    assert w[10] == Key10() by { WordsSchedule(bytes, 10, Key10()); }
  }

  lemma FirstWords(bytes: seq<bv8>)
    requires bytes == BytesOf(Key0())
    ensures WordsAre(KeyColumns(bytes, 4), 0, Key0())
  {
  }

  lemma WordsSchedule(bytes: seq<bv8>, j: nat, k: State)
    requires |bytes| >= 16 && j < 11 && WordsAre(KeyColumns(bytes, 4), j, k)
    ensures Schedule(bytes, 4)[j] == k
  {
    hide KeyWord, KeyColumns;
  }

  /** Appendix B: the key and the input of the example give its output. */
  lemma CipherKnown(key: seq<bv8>, plain: seq<bv8>)
    requires key == BytesOf(Key0()) && plain == BytesOf(Plain())
    ensures EncipherBlock(Schedule(key, 4), plain) == BytesOf(Enciphered())
  {
    ScheduleKnown(key);
    BytesRoundTrip(plain, Plain());
    RoundsKnown(Schedule(key, 4));
  }

  lemma RoundsKnown(w: seq<State>)
    requires ScheduleIs(w)
    ensures Cipher(Plain(), w) == Enciphered()
  {
    hide Round, FinalRound, AddRoundKey, Rounds, Plain, Enciphered;
    hide Key0, Key1, Key2, Key3, Key4, Key5, Key6, Key7, Key8, Key9, Key10;
    hide State0, State1, State2, State3, State4, State5, State6, State7, State8, State9;
    EndsKnown();
    Rounds1And2();
    Rounds3And4();
    Rounds5And6();
    Rounds7And8();
    Round9();
    RoundsStart(Plain(), w);
    RoundsNext(Plain(), w, 1);
    RoundsNext(Plain(), w, 2);
    RoundsNext(Plain(), w, 3);
    RoundsNext(Plain(), w, 4);
    RoundsNext(Plain(), w, 5);
    RoundsNext(Plain(), w, 6);
    RoundsNext(Plain(), w, 7);
    RoundsNext(Plain(), w, 8);
    RoundsNext(Plain(), w, 9);
  }

  lemma RoundsStart(s: State, w: seq<State>)
    requires |w| > 0
    ensures Rounds(s, w, 0) == AddRoundKey(s, w[0])
  {
  }

  lemma RoundsNext(s: State, w: seq<State>, n: nat)
    requires 0 < n < |w|
    ensures Rounds(s, w, n) == Round(Rounds(s, w, n - 1), w[n])
  {
  }
}
