/** The byte stream both migration halves write and read (`savevm.c`):
    big-endian 64-bit numbers and counted C strings. */
module Wire {
  import opened Bits

  type byte = b: nat | b < 256

  /** The low `n` bytes of `v`, most significant first (`qemu_put_be64` for `n == 8`). */
  function BigEndian(v: nat, n: nat): (s: seq<byte>)
    ensures |s| == n
  {
    if n == 0 then [] else BigEndian(v / 256, n - 1) + [v % 256]
  }

  /** The number a big-endian byte string denotes (`qemu_get_be64` on 8 bytes). */
  function Number(s: seq<byte>): (v: nat) {
    if |s| == 0 then 0 else 256 * Number(s[..|s| - 1]) + s[|s| - 1]
  }

  function Pow256(n: nat): (p: nat)
    ensures p >= 1
  {
    if n == 0 then 1 else 256 * Pow256(n - 1)
  }

  lemma {:induction false} NumberOfBigEndian(v: nat, n: nat)
    requires v < Pow256(n)
    ensures Number(BigEndian(v, n)) == v
  {
    if n > 0 {
      NumberOfBigEndian(v / 256, n - 1);
      var s := BigEndian(v, n);
      assert s[..n - 1] == BigEndian(v / 256, n - 1);
    }
  }

  /** Byte `i` of `n` stands for the 256-power `n - 1 - i`. */
  lemma {:induction false} BigEndianAt(v: nat, n: nat, i: nat)
    requires i < n
    ensures BigEndian(v, n)[i] == v / Pow256(n - 1 - i) % 256
  {
    if i < n - 1 {
      BigEndianAt(v / 256, n - 1, i);
      DivBytes(v, Pow256(n - 2 - i));
    }
  }

  lemma DivBytes(v: nat, m: nat)
    requires m > 0
    ensures v / 256 / m == v / (256 * m)
  {
    var q, r := v / 256 / m, v / 256 % m;
    assert v / 256 == m * q + r;
    ModUnique(v, 256 * m, q, 256 * r + v % 256);
  }

  function Be64(v: Word): (s: seq<byte>)
    ensures |s| == 8
  {
    BigEndian(v, 8)
  }

  lemma Be64RoundTrip(v: Word, rest: seq<byte>)
    ensures Number((Be64(v) + rest)[..8]) == v
    ensures (Be64(v) + rest)[8..] == rest
  {
    assert Pow256(4) == 0x1_0000_0000;
    assert Pow256(8) == WORD_LIMIT;
    NumberOfBigEndian(v, 8);
    assert (Be64(v) + rest)[..8] == Be64(v);
  }

  lemma {:induction false} NumberBound(s: seq<byte>)
    ensures Number(s) < Pow256(|s|)
  {
    if |s| > 0 { NumberBound(s[..|s| - 1]); }
  }

  /** `qemu_get_be64` on the first eight bytes. */
  function GetBe64(s: seq<byte>): (v: Word)
    requires |s| >= 8
    ensures v == Number(s[..8])
  {
    assert Pow256(4) == 0x1_0000_0000;
    assert Pow256(8) == WORD_LIMIT;
    NumberBound(s[..8]);
    Number(s[..8])
  }

  lemma Regroup(a: seq<byte>, b: seq<byte>, c: seq<byte>, t: seq<byte>)
    ensures a + b + c + t == a + (b + (c + t))
  {
  }

  // ------------------------------------------------------------- C strings

  /** A NUL-free string that fits the 256-byte name buffers. */
  predicate IsName(s: seq<byte>) {
    |s| < 256 && 0 !in s
  }

  /** What `strncmp` sees of a buffer: the bytes before the first NUL. */
  function CString(s: seq<byte>): (c: seq<byte>)
    ensures 0 !in c && |c| <= |s|
  {
    if |s| == 0 || s[0] == 0 then [] else [s[0]] + CString(s[1..])
  }

  lemma {:induction false} CStringOfName(s: seq<byte>)
    requires 0 !in s
    ensures CString(s) == s
  {
    if |s| > 0 { CStringOfName(s[1..]); }
  }

  /** A length byte and the name itself (`qemu_put_byte`, `qemu_put_buffer`). */
  function PutName(name: seq<byte>): (s: seq<byte>)
    requires IsName(name)
  {
    [|name|] + name
  }

  datatype GetResult = Got(name: seq<byte>, rest: seq<byte>) | Short

  function GetName(s: seq<byte>): (r: GetResult)
    ensures r.Got? ==> |r.rest| < |s|
  {
    if |s| == 0 then Short else
    var n: nat := s[0];
    if |s| < 1 + n then Short
    else Got(CString(s[1..1 + n]), s[1 + n..])
  }

  lemma NameRoundTrip(name: seq<byte>, rest: seq<byte>)
    requires IsName(name)
    ensures GetName(PutName(name) + rest) == Got(name, rest)
  {
    var s := PutName(name) + rest;
    assert s[1..1 + |name|] == name;
    assert s[1 + |name|..] == rest;
    CStringOfName(name);
  }

  // --------------------------------------------------------- packed headers

  /** An aligned value with flag bits or-ed in below `2^n`, as in
      `offset | cont | kind`, comes apart again under the two masks. */
  lemma PackedHeader(value: Word, flag1: Word, flag2: Word, n: nat)
    requires n < WORD_BITS && value % Pow2(n) == 0 && flag1 + flag2 < Pow2(n)
    requires Or(flag1, flag2) == flag1 + flag2
    ensures Or(Or(value, flag1), flag2) < WORD_LIMIT
    ensures Pow2(n) - 1 < WORD_LIMIT
    ensures And(Or(Or(value, flag1), flag2), Pow2(n) - 1) == flag1 + flag2
    ensures And(Or(Or(value, flag1), flag2), Not(Pow2(n) - 1)) == value
  {
    HeaderIsSum(value, flag1, flag2, n);
    SplitHeader(value, flag1 + flag2, n);
  }

  lemma HeaderIsSum(value: Word, flag1: Word, flag2: Word, n: nat)
    requires n < WORD_BITS && value % Pow2(n) == 0 && flag1 + flag2 < Pow2(n)
    requires Or(flag1, flag2) == flag1 + flag2
    ensures Or(Or(value, flag1), flag2) == value + (flag1 + flag2) < WORD_LIMIT
  {
    OrAssociative(value, flag1, flag2);
    OrAligned(value, flag1 + flag2, n);
    AlignedRoom(value, n);
  }

  lemma SplitHeader(value: nat, low: nat, n: nat)
    requires n < WORD_BITS && value % Pow2(n) == 0 && low < Pow2(n)
    requires value + low < WORD_LIMIT
    ensures Pow2(n) - 1 < WORD_LIMIT
    ensures And(value + low, Pow2(n) - 1) == low
    ensures And(value + low, Not(Pow2(n) - 1)) == value
  {
    AndLowMask(value + low, n);
    AndHighMask(value + low, n);
    AlignedPlus(value, low, Pow2(n));
  }

  lemma AlignedPlus(value: nat, low: nat, a: nat)
    requires a > 0 && value % a == 0 && low < a
    ensures (value + low) % a == low
  {
    ModUnique(value + low, a, value / a, low);
  }

  lemma {:induction false} OrAssociative(a: nat, b: nat, c: nat)
    ensures Or(Or(a, b), c) == Or(a, Or(b, c))
  {
    if a != 0 && b != 0 && c != 0 {
      OrAssociative(a / 2, b / 2, c / 2);
      OrAtLeast(a, b);
      OrAtLeast(b, c);
      assert Or(a, b) / 2 == Or(a / 2, b / 2) && Or(a, b) != 0;
      assert Or(b, c) / 2 == Or(b / 2, c / 2) && Or(b, c) != 0;
    }
  }

  lemma {:induction false} OrAtLeast(a: nat, b: nat)
    ensures Or(a, b) >= a && Or(a, b) >= b
  {
    if a != 0 && b != 0 { OrAtLeast(a / 2, b / 2); }
  }

  /** Testing one of the low flag bits reads one binary digit. */
  lemma AndPowers(f: nat)
    ensures And(f, 0x01) == f % 2 && And(f, 0x02) == 0x02 * (f / 2 % 2)
    ensures And(f, 0x04) == 0x04 * (f / 4 % 2) && And(f, 0x08) == 0x08 * (f / 8 % 2)
    ensures And(f, 0x10) == 0x10 * (f / 16 % 2) && And(f, 0x20) == 0x20 * (f / 32 % 2)
  {
    AndPower(f, 1);
    AndPower(f, 2);
    AndPower(f, 3);
    AndPower(f, 4);
    AndPower(f, 5);
    ShrIsDiv(f, 1);
    ShrIsDiv(f, 2);
    ShrIsDiv(f, 3);
    ShrIsDiv(f, 4);
    ShrIsDiv(f, 5);
    assert Pow2(3) == 8 && Pow2(4) == 16 && Pow2(5) == 32;
  }

  lemma {:induction false} ShrIsDiv(f: nat, k: nat)
    ensures Shr(f, k) == f / Pow2(k)
  {
    if k > 0 {
      ShrIsDiv(f / 2, k - 1);
      DivTwice(f, Pow2(k - 1));
    }
  }

  lemma DivTwice(f: nat, m: nat)
    requires m > 0
    ensures f / 2 / m == f / (2 * m)
  {
    var q, r := f / 2 / m, f / 2 % m;
    assert f / 2 == m * q + r;
    ModUnique(f, 2 * m, q, 2 * r + f % 2);
  }

  lemma {:induction false} AndPower(f: nat, k: nat)
    ensures And(f, Pow2(k)) == Pow2(k) * (Shr(f, k) % 2)
  {
    if k > 0 {
      AndEven(f, Pow2(k - 1));
      AndPower(f / 2, k - 1);
      var bit := Shr(f, k) % 2;
      assert 2 * (Pow2(k - 1) * bit) == Pow2(k) * bit;
    }
  }

  /** Between an aligned word and the word limit there is room for the low bits. */
  lemma AlignedRoom(value: Word, n: nat)
    requires n < WORD_BITS && value % Pow2(n) == 0
    ensures value + Pow2(n) <= WORD_LIMIT
  {
    WordLimitIsPow2();
    Pow2Sum(n, WORD_BITS - n);
    RoomBelow(value, Pow2(n), Pow2(WORD_BITS - n));
  }

  lemma RoomBelow(value: nat, a: nat, k: nat)
    requires a > 0 && value % a == 0 && value < a * k
    ensures value + a <= a * k
  {
    var d := k - value / a;
    assert value == a * (value / a);
    assert a * d == a * k - value;
    assert d <= 0 ==> a * d <= 0;
    assert d >= 1 ==> a * d >= a;
  }

  lemma {:induction false} Pow2Sum(m: nat, n: nat)
    ensures Pow2(m + n) == Pow2(m) * Pow2(n)
  {
    if m > 0 { Pow2Sum(m - 1, n); }
  }
}
