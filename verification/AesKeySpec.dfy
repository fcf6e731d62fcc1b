/** Key expansion (section 5.2 of FIPS 197) and the packing of a schedule into
    the words of `rd_key`. */
module AesKeySpec {
  import opened AesField
  import opened AesSpec
  import opened AesTables

  // ------------------------------------------------------------- expansion

  function RotWord(c: Column): (r: Column) {
    Column(c.b1, c.b2, c.b3, c.b0)
  }

  /** The round constant word: x^(j-1) in the first byte. */
  function Rcon(j: nat): (r: Column)
    requires j >= 1
  {
    Column(Pow(2, j - 1), 0, 0, 0)
  }

  predicate KeyLength(nk: nat) {
    nk == 4 || nk == 6 || nk == 8
  }

  /** Word `i` of the schedule for a key of |key| words. */
  function KeyWord(key: seq<Column>, i: nat): (r: Column)
    requires KeyLength(|key|)
    decreases i
  {
    var nk := |key|;
    if i < nk then key[i]
    else AddColumn(KeyWord(key, i - nk), Temp(nk, i, KeyWord(key, i - 1)))
  }

  /** What is added to the word `nk` back. */
  function Temp(nk: nat, i: nat, prev: Column): (r: Column)
    requires KeyLength(nk) && i >= nk
  {
    if i % nk == 0 then AddColumn(SubColumn(RotWord(prev)), Rcon(i / nk))
    else if nk > 6 && i % nk == 4 then SubColumn(prev)
    else prev
  }

  /** The bytes of the cipher key as words. */
  function KeyColumns(bytes: seq<bv8>, nk: nat): (key: seq<Column>)
    requires |bytes| >= 4 * nk
    ensures |key| == nk
  {
    seq(nk, i requires 0 <= i < nk => Column(bytes[4 * i], bytes[4 * i + 1], bytes[4 * i + 2], bytes[4 * i + 3]))
  }

  /** The whole schedule of `bits` key bits as round keys. */
  function Schedule(bytes: seq<bv8>, nk: nat): (w: seq<State>)
    requires KeyLength(nk) && |bytes| >= 4 * nk
    ensures |w| == nk + 7
  {
    var key := KeyColumns(bytes, nk);
    seq(nk + 7, k requires 0 <= k < nk + 7 =>
      State(KeyWord(key, 4 * k), KeyWord(key, 4 * k + 1), KeyWord(key, 4 * k + 2), KeyWord(key, 4 * k + 3)))
  }

  // --------------------------------------------------------- words in rd_key

  const RCON: seq<bv32> := [
    0x01000000, 0x02000000, 0x04000000, 0x08000000, 0x10000000,
    0x20000000, 0x40000000, 0x80000000, 0x1B000000, 0x36000000]

  function RconEntry(i: nat): (w: bv32)
    requires i < 10
  {
    RCON[i]
  }

  lemma PowersOfX()
    ensures Pow(2, 0) == 0x01 && Pow(2, 1) == 0x02 && Pow(2, 2) == 0x04 && Pow(2, 3) == 0x08
    ensures Pow(2, 4) == 0x10 && Pow(2, 5) == 0x20 && Pow(2, 6) == 0x40 && Pow(2, 7) == 0x80
    ensures Pow(2, 8) == 0x1b && Pow(2, 9) == 0x36
  {
    PowStep(0); PowStep(1); PowStep(2); PowStep(3); PowStep(4);
    PowStep(5); PowStep(6); PowStep(7); PowStep(8);
    hide Pow, Times;
  }

  lemma PowStep(n: nat)
    ensures Pow(2, 0) == 1 && Pow(2, n + 1) == Xtime(Pow(2, n))
  {
    hide Times, Xtime;
    TwoTimes(Pow(2, n));
  }

  /** The table of constants is the powers of x, packed. */
  lemma RconIs(i: nat)
    requires i < 10
    ensures RconEntry(i) == Pack(Rcon(i + 1))
  {
    hide Pow;
    PowersOfX();
  }

  /** `temp` rotated, substituted and masked as in the expansion loops. */
  function SubRotWord(t: bv32): (r: bv32)
    ensures r == Pack(SubColumn(RotWord(Unpack(t))))
  {
    SubMasked(Byte1(t), Byte2(t), Byte3(t), Byte0(t))
  }

  function SubWord(t: bv32): (r: bv32)
    ensures r == Pack(SubColumn(Unpack(t)))
  {
    SubMasked(Byte0(t), Byte1(t), Byte2(t), Byte3(t))
  }

  /** The first `n` words are those of the schedule. */
  ghost predicate Filled(rd: seq<bv32>, key: seq<Column>, n: nat)
    requires KeyLength(|key|)
  {
    n <= |rd| && forall j :: 0 <= j < n ==> rd[j] == Pack(KeyWord(key, j))
  }

  lemma Position(nk: nat, n: nat, q: nat, r: nat)
    requires KeyLength(nk) && n == nk * q + r && r < nk
    ensures n % nk == r && n / nk == q
  {
    if nk == 4 {
      assert (4 * q + r) / 4 == q;
    } else if nk == 6 {
      assert (6 * q + r) / 6 == q;
    } else {
      assert (8 * q + r) / 8 == q;
    }
  }

  /** Words that only copy: not a multiple of Nk, nor the middle of eight. */
  lemma PlainStep(rd: seq<bv32>, key: seq<Column>, n: nat, q: nat, r: nat)
    requires KeyLength(|key|) && Filled(rd, key, n) && n >= |key|
    requires n == |key| * q + r && 0 < r < |key| && (|key| > 6 ==> r != 4)
    ensures Pack(KeyWord(key, n)) == XorW(rd[n - |key|], rd[n - 1])
  {
    hide Pack, AddColumn, SubColumn, XorW, RotWord, Rcon;
    Position(|key|, n, q, r);
    PackSum(KeyWord(key, n - |key|), KeyWord(key, n - 1));
  }

  lemma RotateStep(rd: seq<bv32>, key: seq<Column>, n: nat, q: nat)
    requires KeyLength(|key|) && Filled(rd, key, n) && n >= |key|
    requires n == |key| * q && 1 <= q <= 10
    ensures Pack(KeyWord(key, n)) == XorW(XorW(rd[n - |key|], SubRotWord(rd[n - 1])), RconEntry(q - 1))
  {
    hide RconEntry, Pack, Unpack, AddColumn, SubColumn, RotWord, Rcon, SubRotWord, SubWord, XorW;
    Position(|key|, n, q, 0);
    var prev, r := KeyWord(key, n - 1), Rcon(q);
    var m := SubColumn(RotWord(prev));
    UnpackPack(prev);
    RconIs(q - 1);
    PackSum(m, r);
    PackSum(KeyWord(key, n - |key|), AddColumn(m, r));
    XorWAssociates(rd[n - |key|], Pack(m), Pack(r));
  }

  lemma MiddleStep(rd: seq<bv32>, key: seq<Column>, n: nat, q: nat)
    requires |key| == 8 && Filled(rd, key, n) && n == 8 * q + 4 && q >= 1
    ensures Pack(KeyWord(key, n)) == XorW(rd[n - 8], SubWord(rd[n - 1]))
  {
    hide Pack, Unpack, AddColumn, SubColumn, SubRotWord, SubWord, XorW, RotWord, Rcon;
    Position(8, n, q, 4);
    UnpackPack(KeyWord(key, n - 1));
    PackSum(KeyWord(key, n - 8), SubColumn(KeyWord(key, n - 1)));
  }

  // ---------------------------------------------------------- round key view

  function QuadAt(rd: seq<bv32>, k: nat): (q: Quad)
    requires 4 * k + 4 <= |rd|
  {
    Quad(rd[4 * k], rd[4 * k + 1], rd[4 * k + 2], rd[4 * k + 3])
  }

  function KeysOf(rd: seq<bv32>, n: nat): (w: seq<State>)
    requires 4 * n <= |rd|
    ensures |w| == n
  {
    seq(n, k requires 0 <= k < n => UnpackState(QuadAt(rd, k)))
  }

  /** A filled `rd_key` holds the schedule. */
  lemma FilledIsSchedule(rd: seq<bv32>, bytes: seq<bv8>, nk: nat)
    requires KeyLength(nk) && |bytes| >= 4 * nk && Filled(rd, KeyColumns(bytes, nk), 4 * (nk + 7))
    ensures KeysOf(rd, nk + 7) == Schedule(bytes, nk)
  {
    hide KeyWord, Pack, Unpack, KeyColumns;
    var key, w, v := KeyColumns(bytes, nk), Schedule(bytes, nk), KeysOf(rd, nk + 7);
    forall k | 0 <= k < nk + 7 ensures v[k] == w[k] {
      PackRoundTrip(KeyWord(key, 4 * k), 0);
      PackRoundTrip(KeyWord(key, 4 * k + 1), 0);
      PackRoundTrip(KeyWord(key, 4 * k + 2), 0);
      PackRoundTrip(KeyWord(key, 4 * k + 3), 0);
    }
  }
}
