/** The word form of the cipher in `aes.c`: 32-bit words, the tables Te0..Te4
    and Td0..Td4, and the table-driven rounds.  Every word is the big-endian
    packing of a matrix column, and every table round is a matrix round. */
module AesTables {
  import opened AesField
  import opened AesSpec

  // ----------------------------------------------------------------- words

  /** `GETU32`. */
  function GetU32(b0: bv8, b1: bv8, b2: bv8, b3: bv8): (w: bv32) {
    ((b0 as bv32) << 24) ^ ((b1 as bv32) << 16) ^ ((b2 as bv32) << 8) ^ (b3 as bv32)
  }

  function Byte0(w: bv32): (b: bv8) { (w >> 24) as bv8 }

  function Byte1(w: bv32): (b: bv8) { ((w >> 16) & 0xff) as bv8 }

  function Byte2(w: bv32): (b: bv8) { ((w >> 8) & 0xff) as bv8 }

  function Byte3(w: bv32): (b: bv8) { (w & 0xff) as bv8 }

  function Pack(c: Column): (w: bv32) {
    GetU32(c.b0, c.b1, c.b2, c.b3)
  }

  function Unpack(w: bv32): (c: Column) {
    Column(Byte0(w), Byte1(w), Byte2(w), Byte3(w))
  }

  lemma PackRoundTrip(c: Column, w: bv32)
    ensures Unpack(Pack(c)) == c && Pack(Unpack(w)) == w
  {
    assert Byte0(Pack(c)) == c.b0;
    assert Byte1(Pack(c)) == c.b1;
    assert Byte2(Pack(c)) == c.b2;
    assert Byte3(Pack(c)) == c.b3;
  }

  /** The bytes of a word that packs a column. */
  lemma UnpackPack(c: Column)
    ensures Unpack(Pack(c)) == c
  {
    hide Pack, Unpack;
    PackRoundTrip(c, 0);
  }

  lemma UnpackSum(v: bv32, w: bv32)
    ensures Unpack(XorW(v, w)) == AddColumn(Unpack(v), Unpack(w))
  {
  }

  lemma PackSum(c: Column, d: Column)
    ensures Pack(AddColumn(c, d)) == XorW(Pack(c), Pack(d))
  {
  }

  // ---------------------------------------------------------------- tables

  /** `Spread(k, x)` is the table entry written x.[k0, k1, k2, k3] in `aes.c`. */
  function Spread(k: Column, x: bv8): (r: Column) {
    Column(Times(k.b0, x), Times(k.b1, x), Times(k.b2, x), Times(k.b3, x))
  }

  function Te0(x: bv8): (w: bv32) { Pack(Spread(Column(2, 1, 1, 3), S(x))) }

  function Te1(x: bv8): (w: bv32) { Pack(Spread(Column(3, 2, 1, 1), S(x))) }

  function Te2(x: bv8): (w: bv32) { Pack(Spread(Column(1, 3, 2, 1), S(x))) }

  function Te3(x: bv8): (w: bv32) { Pack(Spread(Column(1, 1, 3, 2), S(x))) }

  function Te4(x: bv8): (w: bv32) { Pack(Spread(Column(1, 1, 1, 1), S(x))) }

  function Td0(x: bv8): (w: bv32) { Pack(Spread(Column(0x0e, 0x09, 0x0d, 0x0b), Si(x))) }

  function Td1(x: bv8): (w: bv32) { Pack(Spread(Column(0x0b, 0x0e, 0x09, 0x0d), Si(x))) }

  function Td2(x: bv8): (w: bv32) { Pack(Spread(Column(0x0d, 0x0b, 0x0e, 0x09), Si(x))) }

  function Td3(x: bv8): (w: bv32) { Pack(Spread(Column(0x09, 0x0d, 0x0b, 0x0e), Si(x))) }

  function Td4(x: bv8): (w: bv32) { Pack(Spread(Column(1, 1, 1, 1), Si(x))) }

  function XorW(a: bv32, b: bv32): (w: bv32) {
    a ^ b
  }

  function Sum4(a: bv32, b: bv32, c: bv32, d: bv32): (w: bv32) {
    XorW(XorW(XorW(a, b), c), d)
  }

  /** One byte of each of four table words. */
  function Masked(a: bv32, b: bv32, c: bv32, d: bv32): (w: bv32) {
    (a & 0xff000000) ^ (b & 0x00ff0000) ^ (c & 0x0000ff00) ^ (d & 0x000000ff)
  }

  // ------------------------------------------------------------ table words

  lemma UnpackSum4(a: bv32, b: bv32, c: bv32, d: bv32)
    ensures Unpack(Sum4(a, b, c, d)) == AddColumn(AddColumn(Unpack(a), Unpack(b)), AddColumn(Unpack(c), Unpack(d)))
  {
    hide XorW, Unpack, AddColumn;
    UnpackSum(a, b);
    UnpackSum(XorW(a, b), c);
    UnpackSum(XorW(XorW(a, b), c), d);
    AddAssociates(AddColumn(Unpack(a), Unpack(b)), Unpack(c), Unpack(d));
  }

  lemma AddAssociates(c: Column, d: Column, e: Column)
    ensures AddColumn(AddColumn(c, d), e) == AddColumn(c, AddColumn(d, e))
  {
    hide Xor;
    XorAssociates(c.b0, d.b0, e.b0); XorAssociates(c.b1, d.b1, e.b1);
    XorAssociates(c.b2, d.b2, e.b2); XorAssociates(c.b3, d.b3, e.b3);
  }

  lemma XorWAssociates(a: bv32, b: bv32, c: bv32)
    ensures XorW(a, XorW(b, c)) == XorW(XorW(a, b), c)
  {
  }

  lemma MixIsSpread(c: Column)
    ensures MixColumn(c) == AddColumn(
              AddColumn(Spread(Column(2, 1, 1, 3), c.b0), Spread(Column(3, 2, 1, 1), c.b1)),
              AddColumn(Spread(Column(1, 3, 2, 1), c.b2), Spread(Column(1, 1, 3, 2), c.b3)))
  {
    hide Times, Xor;
  }

  lemma InvMixIsSpread(c: Column)
    ensures InvMixColumn(c) == AddColumn(
              AddColumn(Spread(Column(0x0e, 0x09, 0x0d, 0x0b), c.b0), Spread(Column(0x0b, 0x0e, 0x09, 0x0d), c.b1)),
              AddColumn(Spread(Column(0x0d, 0x0b, 0x0e, 0x09), c.b2), Spread(Column(0x09, 0x0d, 0x0b, 0x0e), c.b3)))
  {
    hide Times, Xor;
  }

  /** The four decryption tables, looked up behind the S-box, mix a column. */
  function MixWords(x0: bv8, x1: bv8, x2: bv8, x3: bv8): (w: bv32)
    ensures Unpack(w) == InvMixColumn(InvSubColumn(Column(x0, x1, x2, x3)))
  {
    assert Unpack(Sum4(Td0(x0), Td1(x1), Td2(x2), Td3(x3))) == InvMixColumn(InvSubColumn(Column(x0, x1, x2, x3))) by {
      hide Si, Pack, Unpack, Spread, AddColumn, InvMixColumn, Sum4;
      var m := InvSubColumn(Column(x0, x1, x2, x3));
      InvMixIsSpread(m);
      UnpackSum4(Td0(x0), Td1(x1), Td2(x2), Td3(x3));
      UnpackPack(Spread(Column(0x0e, 0x09, 0x0d, 0x0b), m.b0));
      UnpackPack(Spread(Column(0x0b, 0x0e, 0x09, 0x0d), m.b1));
      UnpackPack(Spread(Column(0x0d, 0x0b, 0x0e, 0x09), m.b2));
      UnpackPack(Spread(Column(0x09, 0x0d, 0x0b, 0x0e), m.b3));
    }
    Sum4(Td0(x0), Td1(x1), Td2(x2), Td3(x3))
  }

  /** One word of a full encryption round is a column of the matrix round. */
  function EncWord(a: bv32, b: bv32, c: bv32, d: bv32, k: bv32): (w: bv32)
    ensures Unpack(w) == AddColumn(MixColumn(SubColumn(Column(Byte0(a), Byte1(b), Byte2(c), Byte3(d)))), Unpack(k))
  {
    var t := Sum4(Te0(Byte0(a)), Te1(Byte1(b)), Te2(Byte2(c)), Te3(Byte3(d)));
    assert Unpack(XorW(t, k)) ==
           AddColumn(MixColumn(SubColumn(Column(Byte0(a), Byte1(b), Byte2(c), Byte3(d)))), Unpack(k)) by {
      hide XorW, S, Pack, Unpack, Spread, AddColumn, MixColumn, Byte0, Byte1, Byte2, Byte3, Sum4;
      var m := SubColumn(Column(Byte0(a), Byte1(b), Byte2(c), Byte3(d)));
      MixIsSpread(m);
      UnpackSum4(Te0(Byte0(a)), Te1(Byte1(b)), Te2(Byte2(c)), Te3(Byte3(d)));
      UnpackPack(Spread(Column(2, 1, 1, 3), m.b0)); UnpackPack(Spread(Column(3, 2, 1, 1), m.b1));
      UnpackPack(Spread(Column(1, 3, 2, 1), m.b2)); UnpackPack(Spread(Column(1, 1, 3, 2), m.b3));
      UnpackSum(t, k);
    }
    XorW(t, k)
  }

  function DecWord(a: bv32, b: bv32, c: bv32, d: bv32, k: bv32): (w: bv32)
    ensures Unpack(w) ==
            AddColumn(InvMixColumn(InvSubColumn(Column(Byte0(a), Byte1(b), Byte2(c), Byte3(d)))), Unpack(k))
  {
    var t := MixWords(Byte0(a), Byte1(b), Byte2(c), Byte3(d));
    assert Unpack(XorW(t, k)) ==
           AddColumn(InvMixColumn(InvSubColumn(Column(Byte0(a), Byte1(b), Byte2(c), Byte3(d)))), Unpack(k)) by {
      hide XorW, Unpack, AddColumn, InvMixColumn, InvSubColumn, Byte0, Byte1, Byte2, Byte3, MixWords;
      UnpackSum(t, k);
    }
    XorW(t, k)
  }

  lemma MaskedIs(x0: bv8, x1: bv8, x2: bv8, x3: bv8)
    ensures Masked(Pack(Column(x0, x0, x0, x0)), Pack(Column(x1, x1, x1, x1)),
                   Pack(Column(x2, x2, x2, x2)), Pack(Column(x3, x3, x3, x3))) == Pack(Column(x0, x1, x2, x3))
  {
  }

  lemma UnitSpread(x: bv8)
    ensures Spread(Column(1, 1, 1, 1), x) == Column(x, x, x, x)
  {
    hide Times;
    UnitTimes(x);
  }

  /** Picking one byte of four `Te4` entries substitutes the four bytes. */
  function SubMasked(x0: bv8, x1: bv8, x2: bv8, x3: bv8): (w: bv32)
    ensures w == Pack(SubColumn(Column(x0, x1, x2, x3)))
  {
    assert Masked(Te4(x0), Te4(x1), Te4(x2), Te4(x3)) == Pack(SubColumn(Column(x0, x1, x2, x3))) by {
      hide S, Pack, Spread, Masked;
      UnitSpread(S(x0)); UnitSpread(S(x1)); UnitSpread(S(x2)); UnitSpread(S(x3));
      MaskedIs(S(x0), S(x1), S(x2), S(x3));
    }
    Masked(Te4(x0), Te4(x1), Te4(x2), Te4(x3))
  }

  function InvSubMasked(x0: bv8, x1: bv8, x2: bv8, x3: bv8): (w: bv32)
    ensures w == Pack(InvSubColumn(Column(x0, x1, x2, x3)))
  {
    assert Masked(Td4(x0), Td4(x1), Td4(x2), Td4(x3)) == Pack(InvSubColumn(Column(x0, x1, x2, x3))) by {
      hide Si, Pack, Spread, Masked;
      UnitSpread(Si(x0)); UnitSpread(Si(x1)); UnitSpread(Si(x2)); UnitSpread(Si(x3));
      MaskedIs(Si(x0), Si(x1), Si(x2), Si(x3));
    }
    Masked(Td4(x0), Td4(x1), Td4(x2), Td4(x3))
  }

  function EncLastWord(a: bv32, b: bv32, c: bv32, d: bv32, k: bv32): (w: bv32)
    ensures Unpack(w) == AddColumn(SubColumn(Column(Byte0(a), Byte1(b), Byte2(c), Byte3(d))), Unpack(k))
  {
    var t := SubMasked(Byte0(a), Byte1(b), Byte2(c), Byte3(d));
    UnpackSum(t, k);
    UnpackPack(SubColumn(Column(Byte0(a), Byte1(b), Byte2(c), Byte3(d))));
    XorW(t, k)
  }

  function DecLastWord(a: bv32, b: bv32, c: bv32, d: bv32, k: bv32): (w: bv32)
    ensures Unpack(w) == AddColumn(InvSubColumn(Column(Byte0(a), Byte1(b), Byte2(c), Byte3(d))), Unpack(k))
  {
    var t := InvSubMasked(Byte0(a), Byte1(b), Byte2(c), Byte3(d));
    UnpackSum(t, k);
    UnpackPack(InvSubColumn(Column(Byte0(a), Byte1(b), Byte2(c), Byte3(d))));
    XorW(t, k)
  }

  lemma Te4Byte(x: bv8)
    ensures Byte3(Te4(x)) == S(x)
  {
    hide S, Pack, Spread, Byte0, Byte1, Byte2, Byte3;
    UnitSpread(S(x));
    UnpackPack(Column(S(x), S(x), S(x), S(x)));
  }

  /** A round key word under the inverse MixColumns of `AES_set_decrypt_key`. */
  function InvMixWord(w: bv32): (r: bv32)
    ensures Unpack(r) == InvMixColumn(Unpack(w))
  {
    Te4Byte(Byte0(w)); Te4Byte(Byte1(w)); Te4Byte(Byte2(w)); Te4Byte(Byte3(w));
    SBoxInverts(Byte0(w)); SBoxInverts(Byte1(w)); SBoxInverts(Byte2(w)); SBoxInverts(Byte3(w));
    MixWords(Byte3(Te4(Byte0(w))), Byte3(Te4(Byte1(w))), Byte3(Te4(Byte2(w))), Byte3(Te4(Byte3(w))))
  }

  // ---------------------------------------------------------- table rounds

  datatype Quad = Quad(w0: bv32, w1: bv32, w2: bv32, w3: bv32)

  function PackState(s: State): (q: Quad) {
    Quad(Pack(s.c0), Pack(s.c1), Pack(s.c2), Pack(s.c3))
  }

  function UnpackState(q: Quad): (s: State) {
    State(Unpack(q.w0), Unpack(q.w1), Unpack(q.w2), Unpack(q.w3))
  }

  lemma PackStateRoundTrip(s: State, q: Quad)
    ensures UnpackState(PackState(s)) == s && PackState(UnpackState(q)) == q
  {
    hide Pack, Unpack;
    PackRoundTrip(s.c0, q.w0); PackRoundTrip(s.c1, q.w1);
    PackRoundTrip(s.c2, q.w2); PackRoundTrip(s.c3, q.w3);
  }

  function AddWords(s: Quad, k: Quad): (r: Quad)
    ensures UnpackState(r) == AddRoundKey(UnpackState(s), UnpackState(k))
  {
    UnpackSum(s.w0, k.w0); UnpackSum(s.w1, k.w1); UnpackSum(s.w2, k.w2); UnpackSum(s.w3, k.w3);
    Quad(XorW(s.w0, k.w0), XorW(s.w1, k.w1), XorW(s.w2, k.w2), XorW(s.w3, k.w3))
  }

  /** A table round is SubBytes, ShiftRows, MixColumns and AddRoundKey. */
  function EncRoundWords(s: Quad, k: Quad): (r: Quad)
    ensures UnpackState(r) == Round(UnpackState(s), UnpackState(k))
  {
    Quad(EncWord(s.w0, s.w1, s.w2, s.w3, k.w0), EncWord(s.w1, s.w2, s.w3, s.w0, k.w1),
         EncWord(s.w2, s.w3, s.w0, s.w1, k.w2), EncWord(s.w3, s.w0, s.w1, s.w2, k.w3))
  }

  function EncLastWords(s: Quad, k: Quad): (r: Quad)
    ensures UnpackState(r) == FinalRound(UnpackState(s), UnpackState(k))
  {
    Quad(EncLastWord(s.w0, s.w1, s.w2, s.w3, k.w0), EncLastWord(s.w1, s.w2, s.w3, s.w0, k.w1),
         EncLastWord(s.w2, s.w3, s.w0, s.w1, k.w2), EncLastWord(s.w3, s.w0, s.w1, s.w2, k.w3))
  }

  /** A decryption table round is InvSubBytes, InvShiftRows, InvMixColumns and
      AddRoundKey. */
  function DecRoundWords(s: Quad, k: Quad): (r: Quad)
    ensures UnpackState(r) == InvRound(UnpackState(s), UnpackState(k))
  {
    Quad(DecWord(s.w0, s.w3, s.w2, s.w1, k.w0), DecWord(s.w1, s.w0, s.w3, s.w2, k.w1),
         DecWord(s.w2, s.w1, s.w0, s.w3, k.w2), DecWord(s.w3, s.w2, s.w1, s.w0, k.w3))
  }

  function DecLastWords(s: Quad, k: Quad): (r: Quad)
    ensures UnpackState(r) == InvFinalRound(UnpackState(s), UnpackState(k))
  {
    Quad(DecLastWord(s.w0, s.w3, s.w2, s.w1, k.w0), DecLastWord(s.w1, s.w0, s.w3, s.w2, k.w1),
         DecLastWord(s.w2, s.w1, s.w0, s.w3, k.w2), DecLastWord(s.w3, s.w2, s.w1, s.w0, k.w3))
  }
}
