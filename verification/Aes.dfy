/** `aes.c`: the key schedules, the block functions and their round trip. */
module Aes {
  import opened AesSpec
  import opened AesTables
  import opened AesKeySpec

  const AES_MAXNR := 14
  const AES_BLOCK_SIZE := 16

  /** A block of bytes fills the state column by column. */
  function StateOf(b: seq<bv8>): (s: State)
    requires |b| == AES_BLOCK_SIZE
  {
    State(Column(b[0], b[1], b[2], b[3]), Column(b[4], b[5], b[6], b[7]),
          Column(b[8], b[9], b[10], b[11]), Column(b[12], b[13], b[14], b[15]))
  }

  function BytesOf(s: State): (b: seq<bv8>)
    ensures |b| == AES_BLOCK_SIZE
  {
    [s.c0.b0, s.c0.b1, s.c0.b2, s.c0.b3, s.c1.b0, s.c1.b1, s.c1.b2, s.c1.b3,
     s.c2.b0, s.c2.b1, s.c2.b2, s.c2.b3, s.c3.b0, s.c3.b1, s.c3.b2, s.c3.b3]
  }

  lemma BytesRoundTrip(b: seq<bv8>, s: State)
    requires |b| == AES_BLOCK_SIZE
    ensures BytesOf(StateOf(b)) == b && StateOf(BytesOf(s)) == s
  {
  }

  /** `key->rounds` for the three key sizes, and nothing else. */
  predicate GoodRounds(n: nat) {
    n == 10 || n == 12 || n == 14
  }

  class AesKey {
    const rdKey: array<bv32>
    var rounds: nat

    constructor ()
      ensures fresh(rdKey) && rdKey.Length == 4 * (AES_MAXNR + 1)
    {
      rdKey := new bv32[4 * (AES_MAXNR + 1)];
      rounds := 0;
    }

    ghost predicate Ready()
      reads this
    {
      rdKey.Length == 4 * (AES_MAXNR + 1) && GoodRounds(rounds)
    }

    ghost function RoundKeys(): (w: seq<State>)
      requires Ready()
      reads this, rdKey
      ensures |w| == rounds + 1
    {
      KeysOf(rdKey[..], rounds + 1)
    }

    // ------------------------------------------------------- key schedules

    method SetWord(n: nat, v: bv32, ghost key: seq<Column>)
      requires n < rdKey.Length && KeyLength(|key|) && Filled(rdKey[..], key, n) && v == Pack(KeyWord(key, n))
      modifies rdKey
      ensures rdKey[n] == v && Filled(rdKey[..], key, n + 1)
      ensures forall j :: 0 <= j < rdKey.Length && j != n ==> rdKey[j] == old(rdKey[j])
    {
      hide KeyWord, Pack;
      rdKey[n] := v;
    }

    /** The words taken from the key bytes. */
    method LoadKey(userKey: array<bv8>, nk: nat)
      requires rdKey.Length == 4 * (AES_MAXNR + 1) && KeyLength(nk) && userKey.Length >= 4 * nk
      modifies rdKey
      ensures Filled(rdKey[..], KeyColumns(userKey[..], nk), nk)
      ensures forall j :: nk <= j < rdKey.Length ==> rdKey[j] == old(rdKey[j])
    {
      hide Pack, GetU32;
      ghost var key := KeyColumns(userKey[..], nk);
      var i := 0;
      while i < nk
        invariant 0 <= i <= nk && Filled(rdKey[..], key, i)
        invariant forall j :: nk <= j < rdKey.Length ==> rdKey[j] == old(rdKey[j])
      {
        KeyWordStart(userKey[..], nk, i);
        SetWord(i, GetU32(userKey[4 * i], userKey[4 * i + 1], userKey[4 * i + 2], userKey[4 * i + 3]), key);
        i := i + 1;
      }
    }

    /** One turn of the 128-bit loop. */
    method Expand128(base: nat, i: nat, ghost key: seq<Column>)
      requires |key| == 4 && i < 10 && base == 4 * i && base + 8 <= rdKey.Length
      requires Filled(rdKey[..], key, base + 4)
      modifies rdKey
      ensures Filled(rdKey[..], key, base + 8)
      ensures forall j :: base + 8 <= j < rdKey.Length ==> rdKey[j] == old(rdKey[j])
    {
      hide RconEntry, XorW, Filled, KeyWord, Pack, SubRotWord;
      RotateStep(rdKey[..], key, base + 4, i + 1);
      SetWord(base + 4, XorW(XorW(rdKey[base], SubRotWord(rdKey[base + 3])), RconEntry(i)), key);
      PlainStep(rdKey[..], key, base + 5, i + 1, 1);
      SetWord(base + 5, XorW(rdKey[base + 1], rdKey[base + 4]), key);
      PlainStep(rdKey[..], key, base + 6, i + 1, 2);
      SetWord(base + 6, XorW(rdKey[base + 2], rdKey[base + 5]), key);
      PlainStep(rdKey[..], key, base + 7, i + 1, 3);
      SetWord(base + 7, XorW(rdKey[base + 3], rdKey[base + 6]), key);
    }

    /** The first four words of one turn of the 192-bit loop. */
    method Expand192(base: nat, i: nat, ghost key: seq<Column>)
      requires |key| == 6 && i < 8 && base == 6 * i && base + 10 <= rdKey.Length
      requires Filled(rdKey[..], key, base + 6)
      modifies rdKey
      ensures Filled(rdKey[..], key, base + 10)
      ensures forall j :: base + 10 <= j < rdKey.Length ==> rdKey[j] == old(rdKey[j])
    {
      hide RconEntry, XorW, Filled, KeyWord, Pack, SubRotWord;
      RotateStep(rdKey[..], key, base + 6, i + 1);
      SetWord(base + 6, XorW(XorW(rdKey[base], SubRotWord(rdKey[base + 5])), RconEntry(i)), key);
      PlainStep(rdKey[..], key, base + 7, i + 1, 1);
      SetWord(base + 7, XorW(rdKey[base + 1], rdKey[base + 6]), key);
      PlainStep(rdKey[..], key, base + 8, i + 1, 2);
      SetWord(base + 8, XorW(rdKey[base + 2], rdKey[base + 7]), key);
      PlainStep(rdKey[..], key, base + 9, i + 1, 3);
      SetWord(base + 9, XorW(rdKey[base + 3], rdKey[base + 8]), key);
    }

    /** The two words a 192-bit turn adds unless it is the last. */
    method Finish192(base: nat, ghost i: nat, ghost key: seq<Column>)
      requires |key| == 6 && base == 6 * i && base + 12 <= rdKey.Length
      requires Filled(rdKey[..], key, base + 10)
      modifies rdKey
      ensures Filled(rdKey[..], key, base + 12)
      ensures forall j :: base + 12 <= j < rdKey.Length ==> rdKey[j] == old(rdKey[j])
    {
      hide RconEntry, XorW, Filled, KeyWord, Pack;
      PlainStep(rdKey[..], key, base + 10, i + 1, 4);
      SetWord(base + 10, XorW(rdKey[base + 4], rdKey[base + 9]), key);
      PlainStep(rdKey[..], key, base + 11, i + 1, 5);
      SetWord(base + 11, XorW(rdKey[base + 5], rdKey[base + 10]), key);
    }

    method Expand256(base: nat, i: nat, ghost key: seq<Column>)
      requires |key| == 8 && i < 7 && base == 8 * i && base + 12 <= rdKey.Length
      requires Filled(rdKey[..], key, base + 8)
      modifies rdKey
      ensures Filled(rdKey[..], key, base + 12)
      ensures forall j :: base + 12 <= j < rdKey.Length ==> rdKey[j] == old(rdKey[j])
    {
      hide RconEntry, XorW, Filled, KeyWord, Pack, SubRotWord;
      RotateStep(rdKey[..], key, base + 8, i + 1);
      SetWord(base + 8, XorW(XorW(rdKey[base], SubRotWord(rdKey[base + 7])), RconEntry(i)), key);
      PlainStep(rdKey[..], key, base + 9, i + 1, 1);
      SetWord(base + 9, XorW(rdKey[base + 1], rdKey[base + 8]), key);
      PlainStep(rdKey[..], key, base + 10, i + 1, 2);
      SetWord(base + 10, XorW(rdKey[base + 2], rdKey[base + 9]), key);
      PlainStep(rdKey[..], key, base + 11, i + 1, 3);
      SetWord(base + 11, XorW(rdKey[base + 3], rdKey[base + 10]), key);
    }

    method Finish256(base: nat, ghost i: nat, ghost key: seq<Column>)
      requires |key| == 8 && base == 8 * i && base + 16 <= rdKey.Length
      requires Filled(rdKey[..], key, base + 12)
      modifies rdKey
      ensures Filled(rdKey[..], key, base + 16)
      ensures forall j :: base + 16 <= j < rdKey.Length ==> rdKey[j] == old(rdKey[j])
    {
      hide RconEntry, XorW, Filled, KeyWord, Pack, SubWord;
      MiddleStep(rdKey[..], key, base + 12, i + 1);
      SetWord(base + 12, XorW(rdKey[base + 4], SubWord(rdKey[base + 11])), key);
      PlainStep(rdKey[..], key, base + 13, i + 1, 5);
      SetWord(base + 13, XorW(rdKey[base + 5], rdKey[base + 12]), key);
      PlainStep(rdKey[..], key, base + 14, i + 1, 6);
      SetWord(base + 14, XorW(rdKey[base + 6], rdKey[base + 13]), key);
      PlainStep(rdKey[..], key, base + 15, i + 1, 7);
      SetWord(base + 15, XorW(rdKey[base + 7], rdKey[base + 14]), key);
    }

    /** `AES_set_encrypt_key`: exactly the recurrence of section 5.2, within
        the first 4 * (rounds + 1) words. */
    method SetEncryptKey(userKey: array?<bv8>, bits: int) returns (status: int)
      requires rdKey.Length == 4 * (AES_MAXNR + 1)
      requires userKey != null && bits in {128, 192, 256} ==> userKey.Length * 8 >= bits
      modifies this`rounds, rdKey
      ensures userKey == null <==> status == -1
      ensures userKey != null && bits !in {128, 192, 256} <==> status == -2
      ensures status == 0 || status == -1 || status == -2
      ensures status < 0 ==> rounds == old(rounds) && rdKey[..] == old(rdKey[..])
      ensures status == 0 ==>
                && Ready() && rounds == bits / 32 + 6
                && RoundKeys() == Schedule(userKey[..], bits / 32)
                && rdKey[4 * (rounds + 1)..] == old(rdKey[4 * (bits / 32 + 7)..])
    {
      hide Filled, KeyWord, KeyColumns, KeysOf, Schedule;
      if userKey == null { return -1; }
      if bits != 128 && bits != 192 && bits != 256 { return -2; }
      if bits == 128 { rounds := 10; } else if bits == 192 { rounds := 12; } else { rounds := 14; }
      ghost var nk := bits / 32;
      ghost var key := KeyColumns(userKey[..], nk);
      LoadKey(userKey, bits / 32);
      var i, base := 0, 0;
      if bits == 128 {
        while true
          invariant 0 <= i < 10 && base == 4 * i && Filled(rdKey[..], key, base + 4)
          invariant forall j :: 44 <= j < rdKey.Length ==> rdKey[j] == old(rdKey[j])
          invariant rounds == 10
          decreases 10 - i
        {
          Expand128(base, i, key);
          i := i + 1;
          if i == 10 { break; }
          base := base + 4;
        }
      } else if bits == 192 {
        while true
          invariant 0 <= i < 8 && base == 6 * i && Filled(rdKey[..], key, base + 6)
          invariant forall j :: 52 <= j < rdKey.Length ==> rdKey[j] == old(rdKey[j])
          invariant rounds == 12
          decreases 8 - i
        {
          Expand192(base, i, key);
          i := i + 1;
          if i == 8 { break; }
          Finish192(base, i - 1, key);
          base := base + 6;
        }
      } else {
        while true
          invariant 0 <= i < 7 && base == 8 * i && Filled(rdKey[..], key, base + 8)
          invariant rounds == 14
          decreases 7 - i
        {
          Expand256(base, i, key);
          i := i + 1;
          if i == 7 { break; }
          Finish256(base, i - 1, key);
          base := base + 8;
        }
      }
      FilledIsSchedule(rdKey[..], userKey[..], nk);
      return 0;
    }

    /** The swap of two round keys in the reversal loop. */
    method SwapRoundKeys(a: nat, b: nat)
      requires a < b && 4 * b + 4 <= rdKey.Length
      modifies rdKey
      ensures Swapped(old(rdKey[..]), rdKey[..], a, b)
    {
      var i, j := 4 * a, 4 * b;
      SwapWords(i, j);
      SwapWords(i + 1, j + 1);
      SwapWords(i + 2, j + 2);
      SwapWords(i + 3, j + 3);
    }

    method SwapWords(i: nat, j: nat)
      requires i < j < rdKey.Length
      modifies rdKey
      ensures rdKey[i] == old(rdKey[j]) && rdKey[j] == old(rdKey[i])
      ensures forall m :: 0 <= m < rdKey.Length && m != i && m != j ==> rdKey[m] == old(rdKey[m])
    {
      var temp := rdKey[i];
      rdKey[i] := rdKey[j];
      rdKey[j] := temp;
    }

    /** "invert the order of the round keys". */
    method ReverseRoundKeys()
      requires Ready()
      modifies rdKey
      ensures Reversed(old(rdKey[..]), rdKey[..], rounds, rounds / 2 + 1, rounds / 2 - 1)
    {
      hide Reversed, Swapped;
      ghost var was := rdKey[..];
      var a, b := 0, rounds;
      NotReversed(was, rounds);
      while a < b
        invariant 0 <= a <= b + 2 && a + b == rounds && Reversed(was, rdKey[..], rounds, a, b)
      {
        ghost var mid := rdKey[..];
        SwapRoundKeys(a, b);
        ReversedStep(was, mid, rdKey[..], rounds, a, b);
        a, b := a + 1, b - 1;
      }
      MiddleFixed(was, rdKey[..], rounds);
    }

    /** The inverse MixColumns on one round key. */
    method MixRoundKey(k: nat)
      requires 4 * k + 4 <= rdKey.Length
      modifies rdKey
      ensures Mixed(old(rdKey[..]), rdKey[..], k)
    {
      hide InvMixWord, Unpack, InvMixColumn;
      var i := 4 * k;
      rdKey[i] := InvMixWord(rdKey[i]);
      rdKey[i + 1] := InvMixWord(rdKey[i + 1]);
      rdKey[i + 2] := InvMixWord(rdKey[i + 2]);
      rdKey[i + 3] := InvMixWord(rdKey[i + 3]);
    }

    method MixRoundKeys()
      requires Ready()
      modifies rdKey
      ensures MixedBelow(old(rdKey[..]), rdKey[..], rounds, rounds)
    {
      hide Mixed, MixedBelow;
      ghost var was := rdKey[..];
      NotMixed(was, rounds);
      var i := 1;
      while i < rounds
        invariant 1 <= i <= rounds && MixedBelow(was, rdKey[..], rounds, i)
      {
        ghost var mid := rdKey[..];
        MixRoundKey(i);
        MixedStep(was, mid, rdKey[..], rounds, i);
        i := i + 1;
      }
    }

    /** `AES_set_decrypt_key`: the schedule of section 5.3.5. */
    method SetDecryptKey(userKey: array?<bv8>, bits: int) returns (status: int)
      requires rdKey.Length == 4 * (AES_MAXNR + 1)
      requires userKey != null && bits in {128, 192, 256} ==> userKey.Length * 8 >= bits
      modifies this`rounds, rdKey
      ensures userKey == null <==> status == -1
      ensures userKey != null && bits !in {128, 192, 256} <==> status == -2
      ensures status == 0 || status == -1 || status == -2
      ensures status < 0 ==> rounds == old(rounds) && rdKey[..] == old(rdKey[..])
      ensures status == 0 ==>
                && Ready() && rounds == bits / 32 + 6
                && RoundKeys() == InverseKeys(Schedule(userKey[..], bits / 32))
    {
      hide KeysOf, Schedule, QuadAt, InverseKeys, Reversed, MixedBelow;
      status := SetEncryptKey(userKey, bits);
      if status < 0 { return; }
      ghost var enc := rdKey[..];
      ReverseRoundKeys();
      ghost var rev := rdKey[..];
      MixRoundKeys();
      InvertedKeys(enc, rev, rdKey[..], rounds);
    }
  }

  function InvMixWords(q: Quad): (r: Quad)
    ensures UnpackState(r) == InvMixColumns(UnpackState(q))
  {
    Quad(InvMixWord(q.w0), InvMixWord(q.w1), InvMixWord(q.w2), InvMixWord(q.w3))
  }

  /** The words of round keys `a` and `b` are exchanged, the rest kept. */
  ghost predicate Swapped(was: seq<bv32>, now: seq<bv32>, a: nat, b: nat)
    requires a < b && 4 * b + 4 <= |was|
  {
    && |now| == |was|
    && QuadAt(now, a) == QuadAt(was, b) && QuadAt(now, b) == QuadAt(was, a)
    && KeptOutside(was, now, 4 * a, 4 * b)
  }

  ghost predicate KeptOutside(was: seq<bv32>, now: seq<bv32>, i: nat, j: nat)
    requires |now| == |was|
  {
    forall m :: 0 <= m < |was| && !(i <= m < i + 4) && !(j <= m < j + 4) ==> now[m] == was[m]
  }

  lemma KeptQuad(was: seq<bv32>, now: seq<bv32>, a: nat, b: nat, k: nat)
    requires |now| == |was| && KeptOutside(was, now, 4 * a, 4 * b) && 4 * k + 4 <= |was| && k != a && k != b
    ensures QuadAt(now, k) == QuadAt(was, k)
  {
  }

  /** Round keys outside [a, b] are in reversed order, those inside in place. */
  ghost predicate Reversed(was: seq<bv32>, now: seq<bv32>, n: nat, a: nat, b: int) {
    && |now| == |was| && 4 * n + 4 <= |was|
    && forall k: nat :: k <= n ==> QuadAt(now, k) == QuadAt(was, if a <= k <= b then k else n - k)
  }

  lemma NotReversed(was: seq<bv32>, n: nat)
    requires 4 * n + 4 <= |was|
    ensures Reversed(was, was, n, 0, n)
  {
  }

  lemma ReversedStep(was: seq<bv32>, mid: seq<bv32>, now: seq<bv32>, n: nat, a: nat, b: nat)
    requires a < b && a + b == n && Reversed(was, mid, n, a, b) && Swapped(mid, now, a, b)
    ensures Reversed(was, now, n, a + 1, b - 1)
  {
    hide QuadAt, KeptOutside;
    forall k: nat | k <= n ensures QuadAt(now, k) == QuadAt(was, if a + 1 <= k <= b - 1 then k else n - k) {
      if k != a && k != b { KeptQuad(mid, now, a, b, k); }
      assert QuadAt(mid, k) == QuadAt(was, if a <= k <= b then k else n - k);
      assert QuadAt(mid, a) == QuadAt(was, a) && QuadAt(mid, b) == QuadAt(was, b);
    }
  }

  /** The loop stops on either side of the middle round key, which stays. */
  lemma MiddleFixed(was: seq<bv32>, now: seq<bv32>, n: nat)
    requires n % 2 == 0 && n > 0
    requires exists a: nat, b: int {:trigger Reversed(was, now, n, a, b)} ::
               a >= b && a + b == n && a <= b + 2 && Reversed(was, now, n, a, b)
    ensures Reversed(was, now, n, n / 2 + 1, n / 2 - 1)
  {
    hide QuadAt;
  }

  ghost predicate Mixed(was: seq<bv32>, now: seq<bv32>, k: nat)
    requires 4 * k + 4 <= |was|
  {
    && |now| == |was|
    && QuadAt(now, k) == InvMixWords(QuadAt(was, k))
    && KeptOutside(was, now, 4 * k, 4 * k)
  }

  /** Round keys from 1 up to `i` have gone through InvMixColumns. */
  ghost predicate MixedBelow(was: seq<bv32>, now: seq<bv32>, n: nat, i: nat) {
    && |now| == |was| && 4 * n + 4 <= |was|
    && forall k: nat :: k <= n ==>
         QuadAt(now, k) == if 0 < k < i then InvMixWords(QuadAt(was, k)) else QuadAt(was, k)
  }

  lemma NotMixed(was: seq<bv32>, n: nat)
    requires 4 * n + 4 <= |was|
    ensures MixedBelow(was, was, n, 1)
  {
  }

  lemma MixedStep(was: seq<bv32>, mid: seq<bv32>, now: seq<bv32>, n: nat, i: nat)
    requires 0 < i < n && MixedBelow(was, mid, n, i) && Mixed(mid, now, i)
    ensures MixedBelow(was, now, n, i + 1)
  {
    hide QuadAt, KeptOutside, InvMixWords;
    forall k: nat | k <= n
      ensures QuadAt(now, k) == if 0 < k < i + 1 then InvMixWords(QuadAt(was, k)) else QuadAt(was, k)
    {
      if k != i { KeptQuad(mid, now, i, i, k); }
      assert QuadAt(mid, k) == if 0 < k < i then InvMixWords(QuadAt(was, k)) else QuadAt(was, k);
    }
  }

  /** Reversal and mixing give the inverted schedule. */
  lemma InvertedKeys(enc: seq<bv32>, rev: seq<bv32>, dec: seq<bv32>, n: nat)
    requires n > 0 && n % 2 == 0
    requires Reversed(enc, rev, n, n / 2 + 1, n / 2 - 1) && MixedBelow(rev, dec, n, n)
    ensures KeysOf(dec, n + 1) == InverseKeys(KeysOf(enc, n + 1))
  {
    hide QuadAt, InvMixWords, UnpackState, InvMixColumns;
    var w, v := InverseKeys(KeysOf(enc, n + 1)), KeysOf(dec, n + 1);
    forall k | 0 <= k < n + 1 ensures v[k] == w[k] {
      assert QuadAt(rev, k) == QuadAt(enc, n - k);
    }
  }

  lemma KeyWordStart(bytes: seq<bv8>, nk: nat, i: nat)
    requires KeyLength(nk) && |bytes| >= 4 * nk && i < nk
    ensures Pack(KeyWord(KeyColumns(bytes, nk), i)) ==
            GetU32(bytes[4 * i], bytes[4 * i + 1], bytes[4 * i + 2], bytes[4 * i + 3])
  {
    hide GetU32;
  }
}
