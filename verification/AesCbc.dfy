/** Cipher block chaining (section 6.2 of NIST SP 800-38A) over any number of
    bytes and any pair of inverse block functions, with the last block of the
    source: a partial one is padded with the bytes of the vector. */
module AesCbc {
  const BLOCK := 16

  type Block = b: seq<bv8> | |b| == BLOCK witness [0, 0, 0, 0, 0, 0, 0, 0, 0, 0, 0, 0, 0, 0, 0, 0]

  function XorByte(x: bv8, y: bv8): (r: bv8) {
    x ^ y
  }

  /** `a` added into the front of the block `iv`. */
  function XorBytes(a: seq<bv8>, iv: Block): (r: Block)
    requires |a| <= BLOCK
    ensures |r| == BLOCK
  {
    seq(BLOCK, n requires 0 <= n < BLOCK => if n < |a| then XorByte(a[n], iv[n]) else iv[n])
  }

  /** The bytes the next block takes from `len`. */
  function Step(len: nat): (n: nat)
    ensures n <= len && n <= BLOCK && (len > 0 ==> n > 0)
  {
    if len < BLOCK then len else BLOCK
  }

  /** `len` rounded up to whole blocks. */
  function Padded(len: nat): (n: nat)
    ensures len <= n < len + BLOCK
  {
    if len == 0 then 0 else BLOCK + Padded(len - Step(len))
  }

  function CbcEncipher(e: Block -> Block, data: seq<bv8>, iv: Block): (r: seq<bv8>)
    decreases |data|
  {
    if data == [] then []
    else
      var n := Step(|data|);
      var c := e(XorBytes(data[..n], iv));
      c + CbcEncipher(e, data[n..], c)
  }

  /** The last ciphertext block, which the next call chains from. */
  function CbcIv(e: Block -> Block, data: seq<bv8>, iv: Block): (r: Block)
    decreases |data|
  {
    if data == [] then iv
    else
      var n := Step(|data|);
      CbcIv(e, data[n..], e(XorBytes(data[..n], iv)))
  }

  /** `len` plaintext bytes from a ciphertext of whole blocks. */
  function CbcDecipher(d: Block -> Block, c: seq<bv8>, len: nat, iv: Block): (r: seq<bv8>)
    requires |c| >= Padded(len)
    ensures |r| == len
    decreases len
  {
    if len == 0 then []
    else
      var n := Step(len);
      XorBytes(d(c[..BLOCK]), iv)[..n] + CbcDecipher(d, c[BLOCK..], len - n, c[..BLOCK])
  }

  lemma {:induction false} PaddedWhole(a: nat, n: nat)
    requires a % BLOCK == 0
    ensures Padded(a + n) == a + Padded(n)
  {
    if a > 0 { PaddedWhole(a - BLOCK, n); }
  }

  lemma {:induction false} CbcLength(e: Block -> Block, data: seq<bv8>, iv: Block)
    ensures |CbcEncipher(e, data, iv)| == Padded(|data|)
    decreases |data|
  {
    hide XorBytes;
    if data != [] {
      var n := Step(|data|);
      CbcLength(e, data[n..], e(XorBytes(data[..n], iv)));
    }
  }

  /** `data` filled up with zero bytes to whole blocks. */
  function Filled(data: seq<bv8>): (r: seq<bv8>)
    ensures |r| == Padded(|data|) && data <= r
    ensures forall i :: |data| <= i < |r| ==> r[i] == 0
  {
    data + seq(Padded(|data|) - |data|, _ => 0)
  }

  lemma FilledStep(data: seq<bv8>)
    requires data != []
    ensures var n := Step(|data|);
            && |Filled(data)| >= BLOCK
            && Filled(data)[BLOCK..] == Filled(data[n..])
            && Filled(data)[..BLOCK] == data[..n] + seq(BLOCK - n, _ => 0)
  {
  }

  lemma XorFilled(a: seq<bv8>, iv: Block)
    requires |a| <= BLOCK
    ensures XorBytes(a, iv) == XorBytes(a + seq(BLOCK - |a|, _ => 0), iv)
  {
    hide XorByte;
    var b := a + seq(BLOCK - |a|, _ => 0);
    forall n | 0 <= n < BLOCK ensures XorBytes(a, iv)[n] == XorBytes(b, iv)[n] {
      XorZero(iv[n]);
    }
  }

  lemma XorZero(y: bv8)
    ensures XorByte(0, y) == y
  {
  }

  /** A partial last block is enciphered as if it were filled up with zero bytes. */
  lemma {:induction false} CbcFilled(e: Block -> Block, data: seq<bv8>, iv: Block)
    ensures CbcEncipher(e, data, iv) == CbcEncipher(e, Filled(data), iv)
    ensures CbcIv(e, data, iv) == CbcIv(e, Filled(data), iv)
    decreases |data|
  {
    hide XorBytes, Filled;
    if data == [] {
      assert Filled(data) == [];
    } else {
      var n := Step(|data|);
      var c := e(XorBytes(data[..n], iv));
      FilledStep(data);
      XorFilled(data[..n], iv);
      CbcFilled(e, data[n..], c);
      assert Step(|Filled(data)|) == BLOCK;
    }
  }

  lemma XorTwice(a: seq<bv8>, iv: Block)
    requires |a| <= BLOCK
    ensures XorBytes(XorBytes(a, iv), iv)[..|a|] == a
  {
    hide XorByte;
    forall n | 0 <= n < |a| ensures XorBytes(XorBytes(a, iv), iv)[n] == a[n] {
      XorCancels(a[n], iv[n]);
    }
  }

  lemma XorCancels(x: bv8, y: bv8)
    ensures XorByte(XorByte(x, y), y) == x
  {
  }

  /** Decrypting from the same starting vector gives the plaintext back, for
      every length, a partial last block included. */
  lemma {:induction false} CbcRoundTrip(e: Block -> Block, d: Block -> Block, data: seq<bv8>, iv: Block)
    requires forall b: Block :: d(e(b)) == b
    ensures |CbcEncipher(e, data, iv)| == Padded(|data|)
    ensures CbcDecipher(d, CbcEncipher(e, data, iv), |data|, iv) == data
    decreases |data|
  {
    hide XorBytes;
    CbcLength(e, data, iv);
    if data != [] {
      var n := Step(|data|);
      var x := XorBytes(data[..n], iv);
      var c: Block := e(x);
      var rest := CbcEncipher(e, data[n..], c);
      CbcRoundTrip(e, d, data[n..], c);
      XorTwice(data[..n], iv);
      assert (c + rest)[..BLOCK] == c && (c + rest)[BLOCK..] == rest;
      assert data == data[..n] + data[n..];
    }
  }

  /** Cutting at a block boundary and carrying the vector over changes nothing. */
  lemma {:induction false} CbcSplit(e: Block -> Block, a: seq<bv8>, b: seq<bv8>, iv: Block)
    requires |a| % BLOCK == 0
    ensures CbcEncipher(e, a + b, iv) == CbcEncipher(e, a, iv) + CbcEncipher(e, b, CbcIv(e, a, iv))
    ensures CbcIv(e, a + b, iv) == CbcIv(e, b, CbcIv(e, a, iv))
    decreases |a|
  {
    hide XorBytes;
    if a == [] {
      assert a + b == b;
    } else {
      var n := Step(|a|);
      var c := e(XorBytes(a[..n], iv));
      CbcSplit(e, a[n..], b, c);
      assert (a + b)[..n] == a[..n] && (a + b)[n..] == a[n..] + b;
    }
  }

  /** One more block at the end. */
  lemma CbcOneMore(e: Block -> Block, a: seq<bv8>, b: seq<bv8>, iv: Block)
    requires |a| % BLOCK == 0 && 0 < |b| <= BLOCK
    ensures CbcEncipher(e, a + b, iv) == CbcEncipher(e, a, iv) + e(XorBytes(b, CbcIv(e, a, iv)))
    ensures CbcIv(e, a + b, iv) == e(XorBytes(b, CbcIv(e, a, iv)))
  {
    hide XorBytes;
    CbcSplit(e, a, b, iv);
    assert b[..Step(|b|)] == b && b[Step(|b|)..] == [];
  }

  /** The vector after decrypting whole blocks: the last ciphertext block. */
  function LastBlock(c: seq<bv8>, iv: Block): (r: Block)
    requires |c| % BLOCK == 0
  {
    if c == [] then iv else c[|c| - BLOCK..]
  }

  lemma {:induction false} CbcDecipherMore(d: Block -> Block, a: seq<bv8>, b: seq<bv8>, n: nat, iv: Block)
    requires |a| % BLOCK == 0 && |b| >= BLOCK && 0 < n <= BLOCK
    ensures Padded(|a|) == |a| && Padded(|a| + n) == |a| + BLOCK
    ensures CbcDecipher(d, a + b, |a| + n, iv) ==
            CbcDecipher(d, a, |a|, iv) + XorBytes(d(b[..BLOCK]), LastBlock(a, iv))[..n]
    decreases |a|
  {
    hide XorBytes;
    PaddedWhole(|a|, 0);
    PaddedWhole(|a|, n);
    assert Padded(n) == BLOCK;
    if a == [] {
      assert a + b == b;
    } else {
      CbcDecipherMore(d, a[BLOCK..], b, n, a[..BLOCK]);
      assert (a + b)[..BLOCK] == a[..BLOCK] && (a + b)[BLOCK..] == a[BLOCK..] + b;
      assert LastBlock(a[BLOCK..], a[..BLOCK]) == LastBlock(a, iv);
    }
  }
}
