/** `AES_cbc_encrypt` on buffers, in place or not. */
module AesCbcMode {
  import opened AesSpec
  import opened AesKeySpec
  import opened Aes
  import opened AesBlock
  import opened AesCbc

  ghost function Encipher(w: seq<State>): (e: Block -> Block)
    requires |w| >= 2
  {
    (b: Block) => EncipherBlock(w, b)
  }

  ghost function Decipher(dw: seq<State>): (d: Block -> Block)
    requires |dw| >= 2
  {
    (b: Block) => DecipherBlock(dw, b)
  }

  lemma Inverses(w: seq<State>)
    requires |w| >= 2
    ensures forall b: Block :: Decipher(InverseKeys(w))(Encipher(w)(b)) == b
  {
    hide EncipherBlock, DecipherBlock, InverseKeys;
    forall b: Block ensures Decipher(InverseKeys(w))(Encipher(w)(b)) == b {
      BlockRoundTrip(w, b);
    }
  }

  /** The XOR loops that build `tmp`: `len` bytes of input over the vector. */
  method XorInto(tmp: array<bv8>, inp: array<bv8>, i: nat, len: nat, ivec: array<bv8>)
    requires tmp.Length == ivec.Length == BLOCK && len <= BLOCK && i + len <= inp.Length
    requires tmp != inp && tmp != ivec
    modifies tmp
    ensures tmp[..] == XorBytes(inp[i..i + len], ivec[..])
  {
    hide XorByte;
    var n := 0;
    while n < len
      invariant 0 <= n <= len
      invariant forall m :: 0 <= m < n ==> tmp[m] == XorByte(inp[i + m], ivec[m])
    {
      tmp[n] := XorByte(inp[i + n], ivec[n]);
      n := n + 1;
    }
    while n < BLOCK
      invariant len <= n <= BLOCK
      invariant forall m :: 0 <= m < len ==> tmp[m] == XorByte(inp[i + m], ivec[m])
      invariant forall m :: len <= m < n ==> tmp[m] == ivec[m]
    {
      tmp[n] := ivec[n];
      n := n + 1;
    }
  }

  /** `memcpy` of a block between distinct buffers. */
  method CopyBlock(to: array<bv8>, t: nat, from: array<bv8>, f: nat)
    requires to != from && t + BLOCK <= to.Length && f + BLOCK <= from.Length
    modifies to
    ensures Placed(old(to[..]), to[..], t, from[f..f + BLOCK])
  {
    var n := 0;
    while n < BLOCK
      invariant 0 <= n <= BLOCK
      invariant to[..] == old(to[..t]) + from[f..f + n] + old(to[t + n..])
    {
      to[t + n] := from[f + n];
      n := n + 1;
    }
  }

  lemma PlacedFacts(was: seq<bv8>, now: seq<bv8>, o: nat, b: seq<bv8>)
    requires Placed(was, now, o, b)
    ensures |now| == |was| && now[o..o + |b|] == b
    ensures forall m :: o + |b| <= m < |was| ==> now[m] == was[m]
    ensures o == 0 && |b| == |was| ==> now == b
  {
  }

  /** One block of the encryption branch: `len` bytes of input. */
  method EncryptOne(key: AesKey, inp: array<bv8>, i: nat, len: nat, out: array<bv8>, o: nat, ivec: array<bv8>)
    requires key.Ready() && ivec.Length == BLOCK && ivec != inp && ivec != out
    requires 0 < len <= BLOCK && i + len <= inp.Length && o + BLOCK <= out.Length
    modifies out, ivec
    ensures var c := Encipher(key.RoundKeys())(XorBytes(old(inp[i..i + len]), old(ivec[..])));
            Placed(old(out[..]), out[..], o, c) && ivec[..] == c
    ensures forall m :: o + BLOCK <= m < out.Length ==> out[m] == old(out[m])
  {
    hide EncipherBlock, XorBytes, Placed, KeysOf;
    var tmp := new bv8[BLOCK];
    XorInto(tmp, inp, i, len, ivec);
    ghost var x := tmp[..];
    assert tmp[0..BLOCK] == x;
    ghost var before := out[..];
    if len == BLOCK {
      Encrypt(key, tmp, 0, out, o);
      PlacedFacts(before, out[..], o, EncipherBlock(key.RoundKeys(), x));
    } else {
      Encrypt(key, tmp, 0, tmp, 0);
      PlacedFacts(x, tmp[..], 0, EncipherBlock(key.RoundKeys(), x));
      assert tmp[0..BLOCK] == tmp[..];
      CopyBlock(out, o, tmp, 0);
      PlacedFacts(before, out[..], o, tmp[..]);
    }
    ghost var iv := ivec[..];
    CopyBlock(ivec, 0, out, o);
    PlacedFacts(iv, ivec[..], 0, out[o..o + BLOCK]);
  }

  /** The encryption branch: the chained ciphertext, the last block in `ivec`. */
  method CbcEncrypt(key: AesKey, inp: array<bv8>, i: nat, out: array<bv8>, o: nat, length: nat, ivec: array<bv8>)
    requires key.Ready() && ivec.Length == BLOCK && ivec != inp && ivec != out
    requires i + length <= inp.Length && o + Padded(length) <= out.Length
    requires inp == out ==> i == o
    modifies out, ivec
    ensures Placed(old(out[..]), out[..], o,
                   CbcEncipher(Encipher(key.RoundKeys()), old(inp[i..i + length]), old(ivec[..])))
    ensures ivec[..] == CbcIv(Encipher(key.RoundKeys()), old(inp[i..i + length]), old(ivec[..]))
  {
    hide Encipher, Placed, KeysOf, XorBytes, CbcEncipher, CbcIv, Padded;
    ghost var data, iv, was, w := inp[i..i + length], ivec[..], out[..], key.RoundKeys();
    ghost var e := Encipher(w);
    var len, at := length, 0;
    CbcStart(e, data, iv, was, o);
    while len >= BLOCK
      invariant 0 <= at && 0 <= len && at + len == length && at % BLOCK == 0
      invariant key.Ready() && key.RoundKeys() == w
      invariant CbcDone(e, data, iv, was, o, at, out[..], ivec[..])
      invariant forall n :: at <= n < length ==> inp[i + n] == data[n]
    {
      ghost var mid := out[..];
      assert inp[i + at..i + at + BLOCK] == data[at..at + BLOCK];
      PaddedAt(length, at, BLOCK);
      EncryptOne(key, inp, i + at, BLOCK, out, o + at, ivec);
      CbcExtend(e, data, iv, was, o, at, BLOCK, mid, out[..], ivec[..]);
      len, at := len - BLOCK, at + BLOCK;
    }
    if len > 0 {
      ghost var mid := out[..];
      assert inp[i + at..i + at + len] == data[at..at + len];
      PaddedAt(length, at, len);
      EncryptOne(key, inp, i + at, len, out, o + at, ivec);
      CbcExtend(e, data, iv, was, o, at, len, mid, out[..], ivec[..]);
    }
    assert data[..length] == data;
  }

  /** The first `at` bytes are enciphered and the vector is carried. */
  ghost predicate CbcDone(e: Block -> Block, data: seq<bv8>, iv: Block, was: seq<bv8>, o: nat, at: nat,
                          now: seq<bv8>, v: seq<bv8>)
    requires at <= |data|
  {
    Placed(was, now, o, CbcEncipher(e, data[..at], iv)) && v == CbcIv(e, data[..at], iv)
  }

  lemma CbcStart(e: Block -> Block, data: seq<bv8>, iv: Block, was: seq<bv8>, o: nat)
    requires o <= |was|
    ensures CbcDone(e, data, iv, was, o, 0, was, iv)
  {
    assert was[..o] + [] + was[o..] == was;
  }

  lemma CbcExtend(e: Block -> Block, data: seq<bv8>, iv: Block, was: seq<bv8>, o: nat, at: nat, n: nat,
                  mid: seq<bv8>, now: seq<bv8>, v: seq<bv8>)
    requires at % BLOCK == 0 && 0 < n <= BLOCK && at + n <= |data|
    requires exists m: seq<bv8> :: CbcDone(e, data, iv, was, o, at, mid, m)
    requires var c := e(XorBytes(data[at..at + n], CbcIv(e, data[..at], iv)));
             Placed(mid, now, o + at, c) && v == c
    ensures CbcDone(e, data, iv, was, o, at + n, now, v)
  {
    hide XorBytes, CbcEncipher, CbcIv, Placed;
    var a, b := data[..at], data[at..at + n];
    assert a + b == data[..at + n];
    CbcOneMore(e, a, b, iv);
    CbcLength(e, a, iv);
    PaddedWhole(at, 0);
    PlacedTwice(was, mid, now, o, CbcEncipher(e, a, iv), e(XorBytes(b, CbcIv(e, a, iv))));
  }

  lemma PaddedAt(length: nat, at: nat, n: nat)
    requires at % BLOCK == 0 && 0 < n <= BLOCK && at + n <= length
    ensures at + BLOCK <= Padded(length)
  {
    PaddedWhole(at, length - at);
  }

  // ------------------------------------------------------------- decryption

  /** `out[n] = src[n] ^ ivec[n]`, over `out` itself or another buffer. */
  method XorOut(out: array<bv8>, o: nat, len: nat, src: array<bv8>, s: nat, ivec: array<bv8>)
    requires ivec.Length == BLOCK && len <= BLOCK && ivec != out
    requires o + len <= out.Length && s + BLOCK <= src.Length && (src == out ==> s == o)
    modifies out
    ensures Placed(old(out[..]), out[..], o, XorBytes(old(src[s..s + BLOCK]), ivec[..])[..len])
  {
    hide XorByte;
    ghost var was, r := out[..], XorBytes(src[s..s + BLOCK], ivec[..]);
    var n := 0;
    while n < len
      invariant 0 <= n <= len
      invariant forall m :: 0 <= m < out.Length ==> out[m] == if o <= m < o + n then r[m - o] else was[m]
    {
      assert src[s + n] == old(src[s..s + BLOCK])[n] by {
        if src == out { assert out[o + n] == was[o + n]; }
      }
      out[o + n] := XorByte(src[s + n], ivec[n]);
      n := n + 1;
    }
    PlacedPointwise(was, out[..], o, r[..len]);
  }

  lemma PlacedPointwise(was: seq<bv8>, now: seq<bv8>, o: nat, b: seq<bv8>)
    requires |now| == |was| && o + |b| <= |was|
    requires forall m :: 0 <= m < |was| ==> now[m] == if o <= m < o + |b| then b[m - o] else was[m]
    ensures Placed(was, now, o, b)
  {
  }

  /** One block of the decryption branch: `len` bytes of output. */
  method DecryptOne(key: AesKey, inp: array<bv8>, i: nat, len: nat, out: array<bv8>, o: nat, ivec: array<bv8>)
    requires key.Ready() && ivec.Length == BLOCK && ivec != inp && ivec != out
    requires 0 < len <= BLOCK && i + BLOCK <= inp.Length && o + len <= out.Length && (inp == out ==> i == o)
    modifies out, ivec
    ensures len == BLOCK ==> ivec[..] == old(inp[i..i + BLOCK])
    ensures forall m :: o + len <= m < out.Length ==> out[m] == old(out[m])
    ensures Placed(old(out[..]), out[..], o,
                   XorBytes(Decipher(key.RoundKeys())(old(inp[i..i + BLOCK])), old(ivec[..]))[..len])
  {
    hide DecipherBlock, XorBytes, Placed, KeysOf;
    ghost var c, before, w := inp[i..i + BLOCK], out[..], key.RoundKeys();
    ghost var p := DecipherBlock(w, c);
    ghost var r := XorBytes(p, ivec[..])[..len];
    var tmp := new bv8[BLOCK];
    ghost var t0 := tmp[..];
    CopyBlock(tmp, 0, inp, i);
    PlacedFacts(t0, tmp[..], 0, c);
    assert tmp[0..BLOCK] == tmp[..];
    if len == BLOCK {
      Decrypt(key, inp, i, out, o);
      ghost var mid := out[..];
      PlacedFacts(before, mid, o, p);
      XorOut(out, o, BLOCK, out, o, ivec);
      PlacedOver(before, mid, out[..], o, p, r);
    } else {
      Decrypt(key, tmp, 0, tmp, 0);
      PlacedFacts(c, tmp[..], 0, p);
      assert tmp[0..BLOCK] == tmp[..];
      XorOut(out, o, len, tmp, 0, ivec);
    }
    PlacedFacts(before, out[..], o, r);
    ghost var iv := ivec[..];
    CopyBlock(ivec, 0, tmp, 0);
    PlacedFacts(iv, ivec[..], 0, tmp[..]);
  }

  lemma PlacedOver(a: seq<bv8>, b: seq<bv8>, c: seq<bv8>, o: nat, x: seq<bv8>, y: seq<bv8>)
    requires |x| == |y| && Placed(a, b, o, x) && Placed(b, c, o, y)
    ensures Placed(a, c, o, y)
  {
    assert b[..o] == a[..o] && b[o + |x|..] == a[o + |x|..];
  }

  /** The decryption branch; after whole blocks `ivec` is the last ciphertext
      block. */
  method CbcDecrypt(key: AesKey, inp: array<bv8>, i: nat, out: array<bv8>, o: nat, length: nat, ivec: array<bv8>)
    requires key.Ready() && ivec.Length == BLOCK && ivec != inp && ivec != out
    requires i + Padded(length) <= inp.Length && o + length <= out.Length
    requires inp == out ==> i == o
    modifies out, ivec
    ensures length % BLOCK == 0 ==> ivec[..] == LastBlock(old(inp[i..i + length]), old(ivec[..]))
    ensures Placed(old(out[..]), out[..], o,
                   CbcDecipher(Decipher(key.RoundKeys()), old(inp[i..i + Padded(length)]), length, old(ivec[..])))
  {
    hide Decipher, Placed, KeysOf, XorBytes, CbcDecipher, LastBlock, Padded, CbcUndone;
    ghost var data, iv, was, w := inp[i..i + Padded(length)], ivec[..], out[..], key.RoundKeys();
    ghost var d := Decipher(w);
    var len, at := length, 0;
    CbcUndoStart(d, data, iv, was, o);
    while len >= BLOCK
      invariant 0 <= at && 0 <= len && at + len == length && at % BLOCK == 0
      invariant key.Ready() && key.RoundKeys() == w
      invariant Padded(at) == at && CbcUndone(d, data, iv, was, o, at, out[..]) && ivec[..] == LastBlock(data[..at], iv)
      invariant inp[i + at..i + |data|] == data[at..]
    {
      ghost var mid := out[..];
      NextSlice(inp[..], i, data, at);
      DecryptOne(key, inp, i + at, BLOCK, out, o + at, ivec);
      CbcUndoExtend(d, data, iv, was, o, at, BLOCK, mid, out[..]);
      LastBlockIs(data, at, iv);
      len, at := len - BLOCK, at + BLOCK;
    }
    WholeOrTail(length, at, len);
    if len > 0 {
      ghost var mid := out[..];
      NextSlice(inp[..], i, data, at);
      DecryptOne(key, inp, i + at, len, out, o + at, ivec);
      CbcUndoExtend(d, data, iv, was, o, at, len, mid, out[..]);
    } else {
      assert data[..at] == data == old(inp[i..i + length]);
    }
    UndoneAll(d, data, iv, was, o, length, out[..]);
  }

  lemma UndoneAll(d: Block -> Block, data: seq<bv8>, iv: Block, was: seq<bv8>, o: nat, length: nat, now: seq<bv8>)
    requires Padded(length) == |data| && CbcUndone(d, data, iv, was, o, length, now)
    ensures Placed(was, now, o, CbcDecipher(d, data, length, iv))
  {
    hide CbcDecipher, Placed, Padded;
    assert data[..|data|] == data;
  }

  lemma WholeOrTail(length: nat, at: nat, len: nat)
    requires at % BLOCK == 0 && at + len == length && len < BLOCK
    ensures len > 0 ==> Padded(length) == at + BLOCK && length % BLOCK != 0
    ensures len == 0 ==> Padded(length) == at && length % BLOCK == 0
  {
    PaddedWhole(at, len);
  }

  lemma NextSlice(src: seq<bv8>, i: nat, data: seq<bv8>, at: nat)
    requires at + BLOCK <= |data| && i + |data| <= |src| && src[i + at..i + |data|] == data[at..]
    ensures src[i + at..i + at + BLOCK] == data[at..at + BLOCK]
    ensures src[i + at + BLOCK..i + |data|] == data[at + BLOCK..]
  {
    assert src[i + at..i + at + BLOCK] == data[at..][..BLOCK];
    assert src[i + at + BLOCK..i + |data|] == data[at..][BLOCK..];
  }

  /** The first `at` plaintext bytes are in place. */
  ghost predicate CbcUndone(d: Block -> Block, data: seq<bv8>, iv: Block, was: seq<bv8>, o: nat, at: nat, now: seq<bv8>)
    requires Padded(at) <= |data|
  {
    Placed(was, now, o, CbcDecipher(d, data[..Padded(at)], at, iv))
  }

  lemma CbcUndoStart(d: Block -> Block, data: seq<bv8>, iv: Block, was: seq<bv8>, o: nat)
    requires o <= |was|
    ensures Padded(0) == 0 && CbcUndone(d, data, iv, was, o, 0, was) && LastBlock(data[..0], iv) == iv
  {
    assert was[..o] + [] + was[o..] == was;
  }

  lemma LastBlockIs(data: seq<bv8>, at: nat, iv: Block)
    requires at % BLOCK == 0 && at + BLOCK <= |data|
    ensures LastBlock(data[..at + BLOCK], iv) == data[at..at + BLOCK]
  {
  }

  lemma CbcUndoExtend(d: Block -> Block, data: seq<bv8>, iv: Block, was: seq<bv8>, o: nat, at: nat, n: nat,
                      mid: seq<bv8>, now: seq<bv8>)
    requires at % BLOCK == 0 && 0 < n <= BLOCK && at + BLOCK <= |data|
    requires Padded(at) == at && CbcUndone(d, data, iv, was, o, at, mid)
    requires Placed(mid, now, o + at, XorBytes(d(data[at..at + BLOCK]), LastBlock(data[..at], iv))[..n])
    ensures Padded(at + n) == at + BLOCK && CbcUndone(d, data, iv, was, o, at + n, now)
  {
    hide XorBytes, CbcDecipher, LastBlock, Placed, Padded;
    var a, b := data[..at], data[at..at + BLOCK];
    assert a + b == data[..at + BLOCK] && b[..BLOCK] == b;
    CbcDecipherMore(d, a, b, n, iv);
    PlacedTwice(was, mid, now, o, CbcDecipher(d, a, at, iv), XorBytes(d(b), LastBlock(a, iv))[..n]);
  }

  /** Encrypting a buffer in place and decrypting it in place from the same
      starting vector restores its first `length` bytes. */
  method CbcThereAndBack(userKey: array<bv8>, bits: int, buf: array<bv8>, length: nat, iv: seq<bv8>)
    requires bits in {128, 192, 256} && userKey.Length * 8 >= bits && userKey != buf
    requires Padded(length) <= buf.Length && |iv| == BLOCK
    modifies buf
    ensures buf[..length] == old(buf[..length])
  {
    hide Schedule, InverseKeys, Encipher, Decipher, KeysOf, CbcEncipher, CbcDecipher, Padded, Placed, CbcIv, LastBlock;
    var ek := new AesKey();
    var dk := new AesKey();
    var e := ek.SetEncryptKey(userKey, bits);
    var d := dk.SetDecryptKey(userKey, bits);
    ghost var w, was := Schedule(userKey[..], bits / 32), buf[..];
    var v1 := new bv8[BLOCK](n requires 0 <= n < BLOCK => iv[n]);
    var v2 := new bv8[BLOCK](n requires 0 <= n < BLOCK => iv[n]);
    assert v1[..] == iv && v2[..] == iv;
    ghost var data := buf[0..0 + length];
    CbcEncrypt(ek, buf, 0, buf, 0, length, v1);
    ghost var mid := buf[..];
    CbcLength(Encipher(w), data, iv);
    PlacedFacts(was, mid, 0, CbcEncipher(Encipher(w), data, iv));
    assert buf[0..0 + Padded(length)] == CbcEncipher(Encipher(w), data, iv);
    assert v2[..] == iv;
    CbcDecrypt(dk, buf, 0, buf, 0, length, v2);
    Inverses(w);
    CbcRoundTrip(Encipher(w), Decipher(InverseKeys(w)), data, iv);
    PlacedFacts(mid, buf[..], 0, data);
    assert buf[..length] == buf[..][0..0 + |data|];
  }
}
