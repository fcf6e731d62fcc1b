/** `AES_encrypt`, `AES_decrypt` and `AES_cbc_encrypt`: whole blocks and byte
    ranges under an expanded key. */
module AesBlock {
  import opened AesSpec
  import opened AesTables
  import opened AesKeySpec
  import opened Aes

  // ----------------------------------------------------------- single block

  function KeyQuad(key: AesKey, k: nat): (q: Quad)
    requires 4 * k + 4 <= key.rdKey.Length
    reads key.rdKey
  {
    Quad(key.rdKey[4 * k], key.rdKey[4 * k + 1], key.rdKey[4 * k + 2], key.rdKey[4 * k + 3])
  }

  lemma KeyQuadIs(key: AesKey, k: nat)
    requires key.Ready() && k <= key.rounds
    ensures UnpackState(KeyQuad(key, k)) == key.RoundKeys()[k]
  {
    hide UnpackState;
  }

  /** The two-rounds-a-turn table loop of `AES_encrypt` refines the matrix
      cipher. */
  method EncryptWords(key: AesKey, block: Quad) returns (res: Quad)
    requires key.Ready()
    ensures UnpackState(res) == Cipher(UnpackState(block), key.RoundKeys())
  {
    hide UnpackState, AddRoundKey, Round, FinalRound, AddWords, EncRoundWords, EncLastWords, KeysOf, KeyQuad;
    ghost var w, b := key.RoundKeys(), UnpackState(block);
    KeyQuadIs(key, 0);
    var s, t := AddWords(block, KeyQuad(key, 0)), block;
    var k, r := 0, key.rounds / 2;
    while true
      invariant r >= 1 && 0 <= k && k + 2 * r == key.rounds && UnpackState(s) == Rounds(b, w, k)
      decreases r
    {
      KeyQuadIs(key, k + 1);
      t := EncRoundWords(s, KeyQuad(key, k + 1));
      k, r := k + 2, r - 1;
      KeyQuadIs(key, k);
      if r == 0 { break; }
      s := EncRoundWords(t, KeyQuad(key, k));
    }
    res := EncLastWords(t, KeyQuad(key, k));
  }

  /** The same loop in `AES_decrypt`, over the decryption tables. */
  method DecryptWords(key: AesKey, block: Quad) returns (res: Quad)
    requires key.Ready()
    ensures UnpackState(res) == EqInvCipher(UnpackState(block), key.RoundKeys())
  {
    hide UnpackState, AddRoundKey, InvRound, InvFinalRound, AddWords, DecRoundWords, DecLastWords, KeysOf, KeyQuad;
    ghost var w, b := key.RoundKeys(), UnpackState(block);
    KeyQuadIs(key, 0);
    var s, t := AddWords(block, KeyQuad(key, 0)), block;
    var k, r := 0, key.rounds / 2;
    while true
      invariant r >= 1 && 0 <= k && k + 2 * r == key.rounds && UnpackState(s) == InvRounds(b, w, k)
      decreases r
    {
      KeyQuadIs(key, k + 1);
      t := DecRoundWords(s, KeyQuad(key, k + 1));
      k, r := k + 2, r - 1;
      KeyQuadIs(key, k);
      if r == 0 { break; }
      s := DecRoundWords(t, KeyQuad(key, k));
    }
    res := DecLastWords(t, KeyQuad(key, k));
  }

  function LoadQuad(b: seq<bv8>): (q: Quad)
    requires |b| == AES_BLOCK_SIZE
  {
    Quad(GetU32(b[0], b[1], b[2], b[3]), GetU32(b[4], b[5], b[6], b[7]),
         GetU32(b[8], b[9], b[10], b[11]), GetU32(b[12], b[13], b[14], b[15]))
  }

  lemma LoadQuadIs(b: seq<bv8>)
    requires |b| == AES_BLOCK_SIZE
    ensures UnpackState(LoadQuad(b)) == StateOf(b)
  {
    hide GetU32, Unpack, UnpackState;
    PackStateRoundTrip(StateOf(b), LoadQuad(b));
  }

  /** What `AES_encrypt` and `AES_decrypt` compute on the bytes of a block. */
  function EncipherBlock(w: seq<State>, b: seq<bv8>): (r: seq<bv8>)
    requires |w| >= 2 && |b| == AES_BLOCK_SIZE
    ensures |r| == AES_BLOCK_SIZE
  {
    BytesOf(Cipher(StateOf(b), w))
  }

  function DecipherBlock(dw: seq<State>, b: seq<bv8>): (r: seq<bv8>)
    requires |dw| >= 2 && |b| == AES_BLOCK_SIZE
    ensures |r| == AES_BLOCK_SIZE
  {
    BytesOf(EqInvCipher(StateOf(b), dw))
  }

  /** Section 5.3.5 on bytes: the two block functions are inverse. */
  lemma BlockRoundTrip(w: seq<State>, b: seq<bv8>)
    requires |w| >= 2 && |b| == AES_BLOCK_SIZE
    ensures DecipherBlock(InverseKeys(w), EncipherBlock(w, b)) == b
  {
    hide Cipher, EqInvCipher, InverseKeys, StateOf, BytesOf;
    BytesRoundTrip(b, Cipher(StateOf(b), w));
    DecipherUndoes(StateOf(b), w);
  }

  /** The bytes [o, o + |b|) become `b`, the rest stay. */
  ghost predicate Placed(was: seq<bv8>, now: seq<bv8>, o: nat, b: seq<bv8>) {
    o + |b| <= |was| && now == was[..o] + b + was[o + |b|..]
  }

  lemma PlacedTwice(a: seq<bv8>, b: seq<bv8>, c: seq<bv8>, o: nat, x: seq<bv8>, y: seq<bv8>)
    requires Placed(a, b, o, x) && Placed(b, c, o + |x|, y)
    ensures Placed(a, c, o, x + y)
  {
    assert b[..o + |x|] == a[..o] + x;
    assert b[o + |x| + |y|..] == a[o + |x| + |y|..];
  }

  function WordBytes(w: bv32): (b: seq<bv8>)
    ensures |b| == 4
  {
    [Byte0(w), Byte1(w), Byte2(w), Byte3(w)]
  }

  lemma BytesOfQuad(q: Quad)
    ensures BytesOf(UnpackState(q)) == WordBytes(q.w0) + WordBytes(q.w1) + WordBytes(q.w2) + WordBytes(q.w3)
  {
    hide Byte0, Byte1, Byte2, Byte3;
  }

  /** Four `PUTU32`s. */
  method PutQuad(out: array<bv8>, o: nat, q: Quad)
    requires o + AES_BLOCK_SIZE <= out.Length
    modifies out
    ensures Placed(old(out[..]), out[..], o, BytesOf(UnpackState(q)))
  {
    hide WordBytes, BytesOf, UnpackState, Placed;
    ghost var was := out[..];
    ghost var b0, b1, b2, b3 := WordBytes(q.w0), WordBytes(q.w1), WordBytes(q.w2), WordBytes(q.w3);
    PutU32(out, o, q.w0);
    ghost var one := out[..];
    PutU32(out, o + 4, q.w1);
    ghost var two := out[..];
    PlacedTwice(was, one, two, o, b0, b1);
    PutU32(out, o + 8, q.w2);
    ghost var three := out[..];
    PlacedTwice(was, two, three, o, b0 + b1, b2);
    PutU32(out, o + 12, q.w3);
    PlacedTwice(was, three, out[..], o, b0 + b1 + b2, b3);
    BytesOfQuad(q);
  }

  method PutU32(ct: array<bv8>, o: nat, st: bv32)
    requires o + 4 <= ct.Length
    modifies ct
    ensures Placed(old(ct[..]), ct[..], o, WordBytes(st))
  {
    hide Byte0, Byte1, Byte2, Byte3;
    ct[o] := Byte0(st);
    ct[o + 1] := Byte1(st);
    ct[o + 2] := Byte2(st);
    ct[o + 3] := Byte3(st);
  }

  /** `AES_encrypt`; `inp` and `out` may be the same buffer. */
  method Encrypt(key: AesKey, inp: array<bv8>, i: nat, out: array<bv8>, o: nat)
    requires key.Ready() && i + AES_BLOCK_SIZE <= inp.Length && o + AES_BLOCK_SIZE <= out.Length
    modifies out
    ensures Placed(old(out[..]), out[..], o, EncipherBlock(old(key.RoundKeys()), old(inp[i..i + AES_BLOCK_SIZE])))
  {
    hide UnpackState, Cipher, StateOf, BytesOf, LoadQuad, Placed, KeysOf;
    var block := inp[i..i + AES_BLOCK_SIZE];
    LoadQuadIs(block);
    var res := EncryptWords(key, LoadQuad(block));
    PutQuad(out, o, res);
  }

  /** `AES_decrypt`. */
  method Decrypt(key: AesKey, inp: array<bv8>, i: nat, out: array<bv8>, o: nat)
    requires key.Ready() && i + AES_BLOCK_SIZE <= inp.Length && o + AES_BLOCK_SIZE <= out.Length
    modifies out
    ensures Placed(old(out[..]), out[..], o, DecipherBlock(old(key.RoundKeys()), old(inp[i..i + AES_BLOCK_SIZE])))
  {
    hide UnpackState, EqInvCipher, StateOf, BytesOf, LoadQuad, Placed, KeysOf;
    var block := inp[i..i + AES_BLOCK_SIZE];
    LoadQuadIs(block);
    var res := DecryptWords(key, LoadQuad(block));
    PutQuad(out, o, res);
  }

  /** For every key of 128, 192 or 256 bits and every block: encrypt under one
      schedule, decrypt under the other, and the block is back. */
  method RoundTrip(userKey: array<bv8>, bits: int, block: array<bv8>) returns (back: array<bv8>)
    requires bits in {128, 192, 256} && userKey.Length * 8 >= bits && block.Length == AES_BLOCK_SIZE
    ensures back[..] == block[..]
  {
    hide Schedule, InverseKeys, EncipherBlock, DecipherBlock, KeysOf;
    var ek := new AesKey();
    var dk := new AesKey();
    var e := ek.SetEncryptKey(userKey, bits);
    var d := dk.SetDecryptKey(userKey, bits);
    var cipherText := new bv8[AES_BLOCK_SIZE];
    back := new bv8[AES_BLOCK_SIZE];
    Encrypt(ek, block, 0, cipherText, 0);
    assert cipherText[0..AES_BLOCK_SIZE] == EncipherBlock(Schedule(userKey[..], bits / 32), block[..]) by {
      assert block[0..AES_BLOCK_SIZE] == block[..];
    }
    Decrypt(dk, cipherText, 0, back, 0);
    BlockRoundTrip(Schedule(userKey[..], bits / 32), block[..]);
  }
}
