/** Bitmaps as arrays of machine words (`bitops.h`, `bitops.c`, `bitmap.c`).

    Everything is stated over the plain sequence of booleans a word array stands
    for: bit `i` of the map is digit `i % 64` of word `i / 64`. */
module Bitmap {
  import opened Bits

  predicate BitAt(bm: seq<Word>, i: nat)
    requires i < WORD_BITS * |bm|
  {
    Bit(bm[i / WORD_BITS], i % WORD_BITS)
  }

  // ------------------------------------------------------- bits in one word

  ghost predicate LowestSet(w: Word, n: nat) {
    n < WORD_BITS && Bit(w, n) && forall k: nat :: k < n ==> !Bit(w, k)
  }

  ghost predicate HighestSet(w: Word, n: nat) {
    n < WORD_BITS && Bit(w, n) && forall k: nat :: n < k < WORD_BITS ==> !Bit(w, k)
  }

  /** `w` is `word` shifted right by `num`, nothing set was shifted out, and a
      bit of `w` below `width` is set. */
  ghost predicate FfsState(word: Word, w: Word, num: nat, width: nat) {
    && (forall k: nat {:trigger Bit(w, k)} :: Bit(w, k) <==> Bit(word, k + num))
    && (forall k: nat :: k < num ==> !Bit(word, k))
    && exists k: nat :: k < width && Bit(w, k)
  }

  lemma FfsStep(word: Word, w: Word, num: nat, half: nat)
    requires FfsState(word, w, num, 2 * half)
    requires half <= WORD_BITS
    ensures Pow2(half) - 1 < WORD_LIMIT
    ensures AndW(w, Pow2(half) - 1) != 0 ==> FfsState(word, w, num, half)
    ensures AndW(w, Pow2(half) - 1) == 0 ==> FfsState(word, Shr(w, half), num + half, half)
  {
    WordLimitIsPow2();
    Pow2Monotone(half, WORD_BITS);
    var mask: Word := Pow2(half) - 1;
    forall k: nat ensures Bit(mask, k) <==> k < half { BelowPow2(half, k); }
    ZeroWord(AndW(w, mask));
    var low := AndW(w, mask);
    if low == 0 {
      forall k: nat | k < half ensures !Bit(w, k) {
        assert !Bit(low, k);
      }
      forall k: nat ensures Bit(Shr(w, half), k) <==> Bit(w, k + half) { ShrBit(w, half, k); }
      forall k: nat | k < num + half ensures !Bit(word, k) {
        if k >= num { assert !Bit(w, k - num); }
      }
      var k: nat :| k < 2 * half && Bit(w, k);
      assert Bit(Shr(w, half), k - half);
    } else {
      var k: nat :| k < WORD_BITS && Bit(low, k);
      assert k < half && Bit(w, k);
    }
  }

  /** One halving step of `bitops_ffsl`, `if ((word & mask) == 0)`. */
  method FfsHalf(ghost word: Word, w0: Word, num0: nat, half: nat, mask: Word) returns (w: Word, num: nat)
    requires half <= WORD_BITS && mask == Pow2(half) - 1
    requires FfsState(word, w0, num0, 2 * half)
    ensures FfsState(word, w, num, half)
  {
    w, num := w0, num0;
    FfsStep(word, w, num, half);
    if AndW(w, mask) == 0 {
      num := num + half;
      w := Shr(w, half);
    }
  }

  /** `bitops_ffsl`: index of the lowest set bit. */
  method Ffsl(word: Word) returns (num: nat)
    requires word != 0
    ensures LowestSet(word, num)
  {
    ZeroWord(word);
    assert FfsState(word, word, 0, 64);
    PowersOfTwo();
    var w;
    w, num := FfsHalf(word, word, 0, 32, 0xffff_ffff);
    w, num := FfsHalf(word, w, num, 16, 0xffff);
    w, num := FfsHalf(word, w, num, 8, 0xff);
    w, num := FfsHalf(word, w, num, 4, 0xf);
    w, num := FfsHalf(word, w, num, 2, 0x3);
    w, num := FfsHalf(word, w, num, 1, 0x1);
    FfsDone(word, w, num);
  }

  lemma PowersOfTwo()
    ensures Pow2(1) == 2 && Pow2(2) == 4 && Pow2(4) == 0x10 && Pow2(8) == 0x100
    ensures Pow2(16) == 0x1_0000 && Pow2(32) == 0x1_0000_0000
  {
    assert Pow2(8) == 0x100;
    assert Pow2(16) == 0x1_0000;
    assert Pow2(24) == 0x100_0000;
  }

  lemma FfsDone(word: Word, w: Word, num: nat)
    requires FfsState(word, w, num, 1)
    ensures LowestSet(word, num)
  {
    assert Bit(w, 0);
    if num >= WORD_BITS {
      WordLimitIsPow2();
      BitsAboveWidth(word, WORD_BITS, num);
    }
  }

  /** `w` is `word` shifted left until the top candidate is in front. */
  ghost predicate FlsState(word: Word, w: Word, num: nat, width: nat) {
    && num < WORD_BITS
    && (forall k: nat {:trigger Bit(w, k)} :: k < WORD_BITS ==>
          (Bit(w, k) <==> k + num >= WORD_BITS - 1 && Bit(word, k + num - (WORD_BITS - 1))))
    && (forall k: nat :: num < k < WORD_BITS ==> !Bit(word, k))
    && exists k: nat :: WORD_BITS - width <= k < WORD_BITS && Bit(w, k)
  }

  lemma FlsStep(word: Word, w: Word, num: nat, half: nat)
    requires 1 <= half && 2 * half <= WORD_BITS
    requires FlsState(word, w, num, 2 * half)
    ensures AndW(w, HighMask(WORD_BITS - half)) != 0 ==> FlsState(word, w, num, half)
    ensures AndW(w, HighMask(WORD_BITS - half)) == 0 ==>
              num >= half && FlsState(word, Shl(w, half), num - half, half)
  {
    var top := AndW(w, HighMask(WORD_BITS - half));
    ZeroWord(top);
    if top == 0 {
      forall k: nat | WORD_BITS - half <= k < WORD_BITS ensures !Bit(w, k) {
        assert !Bit(top, k);
      }
      var k: nat :| WORD_BITS - 2 * half <= k < WORD_BITS && Bit(w, k);
      assert k + num >= WORD_BITS - 1;
      FlsShift(word, w, num, half);
      ShlBit(w, half, k + half);
    } else {
      var k: nat :| k < WORD_BITS && Bit(top, k);
      assert Bit(w, k);
    }
  }

  lemma FlsShift(word: Word, w: Word, num: nat, half: nat)
    requires half <= num < WORD_BITS
    requires forall k: nat {:trigger Bit(w, k)} :: k < WORD_BITS ==>
               (Bit(w, k) <==> k + num >= WORD_BITS - 1 && Bit(word, k + num - (WORD_BITS - 1)))
    requires forall k: nat :: num < k < WORD_BITS ==> !Bit(word, k)
    requires forall k: nat :: WORD_BITS - half <= k < WORD_BITS ==> !Bit(w, k)
    ensures forall k: nat {:trigger Bit(Shl(w, half), k)} :: k < WORD_BITS ==>
              (Bit(Shl(w, half), k) <==>
               k + (num - half) >= WORD_BITS - 1 && Bit(word, k + (num - half) - (WORD_BITS - 1)))
    ensures forall k: nat :: num - half < k < WORD_BITS ==> !Bit(word, k)
  {
    forall k: nat | k < WORD_BITS
      ensures Bit(Shl(w, half), k) <==>
              k + (num - half) >= WORD_BITS - 1 && Bit(word, k + (num - half) - (WORD_BITS - 1))
    {
      ShlBit(w, half, k);
    }
    forall k: nat | num - half < k < WORD_BITS ensures !Bit(word, k) {
      if k <= num { assert !Bit(w, k + (WORD_BITS - 1) - num); }
    }
  }

  /** One halving step of `bitops_flsl`, `if (!(word & mask))`. */
  method FlsHalf(ghost word: Word, w0: Word, num0: nat, half: nat) returns (w: Word, num: nat)
    requires 1 <= half && 2 * half <= WORD_BITS
    requires FlsState(word, w0, num0, 2 * half)
    ensures FlsState(word, w, num, half)
  {
    w, num := w0, num0;
    FlsStep(word, w, num, half);
    if AndW(w, HighMask(WORD_BITS - half)) == 0 {
      num := num - half;
      w := Shl(w, half);
    }
  }

  /** `bitops_flsl`: index of the highest set bit. */
  method Flsl(word: Word) returns (num: nat)
    requires word != 0
    ensures HighestSet(word, num)
  {
    ZeroWord(word);
    assert FlsState(word, word, WORD_BITS - 1, 64);
    var w;
    w, num := FlsHalf(word, word, WORD_BITS - 1, 32);
    w, num := FlsHalf(word, w, num, 16);
    w, num := FlsHalf(word, w, num, 8);
    w, num := FlsHalf(word, w, num, 4);
    w, num := FlsHalf(word, w, num, 2);
    w, num := FlsHalf(word, w, num, 1);
    assert Bit(w, 63);
  }

  /** `ffz`: index of the lowest clear bit. */
  method Ffz(word: Word) returns (num: nat)
    requires word != Not(0)
    ensures num < WORD_BITS && !Bit(word, num)
    ensures forall k: nat :: k < num ==> Bit(word, k)
  {
    num := Ffsl(Not(word));
    NotBit(word, num);
    forall k: nat | k < num ensures Bit(word, k) { NotBit(word, k); }
  }

  // ----------------------------------------------------------- map searches

  /** `r` is the first index from `offset` on whose bit is `want`, or `size`. */
  ghost predicate FirstFrom(bm: seq<Word>, size: nat, offset: nat, want: bool, r: nat)
    requires size <= WORD_BITS * |bm|
  {
    && r <= size
    && (forall i: nat :: offset <= i < r ==> BitAt(bm, i) != want)
    && (r < size ==> offset <= r && BitAt(bm, r) == want)
  }

  /** `find_next_bit`. */
  method FindNextBit(addr: array<Word>, size: nat, offset: nat) returns (r: nat)
    requires size <= WORD_BITS * addr.Length
    ensures FirstFrom(addr[..], size, offset, true, r)
  {
    hide Bit, AndW, OrW, HighMask, LowMask, Not;
    if offset >= size { return size; }
    var p := offset / WORD_BITS;
    var result := p * WORD_BITS;
    var left := size - result;
    var tmp: Word;
    ghost var bm := addr[..];
    if offset % WORD_BITS != 0 {
      tmp := AndW(addr[p], HighMask(offset % WORD_BITS));
      p := p + 1;
      if left < WORD_BITS {
        r := NextBitLast(bm, size, offset, result, left, tmp);
        return;
      }
      ZeroWord(tmp);
      if tmp != 0 {
        var n := Ffsl(tmp);
        HitInWord(bm, result / WORD_BITS, offset, tmp, n, true);
        return result + n;
      }
      BlankWord(bm, result / WORD_BITS, offset, tmp, true);
      left := left - WORD_BITS;
      result := result + WORD_BITS;
    }
    while left >= WORD_BITS        // size & ~(BITS_PER_LONG - 1) is non-zero
      invariant result == p * WORD_BITS && result + left == size && offset <= result && 0 <= left
      invariant forall i: nat :: offset <= i < result ==> !BitAt(bm, i)
    {
      tmp := addr[p];
      p := p + 1;
      if tmp != 0 {
        var n := Ffsl(tmp);
        HitInWord(bm, p - 1, result, tmp, n, true);
        return result + n;
      }
      BlankWord(bm, p - 1, result, tmp, true);
      result := result + WORD_BITS;
      left := left - WORD_BITS;
    }
    if left == 0 { return result; }
    tmp := addr[p];
    r := NextBitLast(bm, size, offset, result, left, tmp);
  }

  /** No bit of `tmp` is `want`, so none of word `p` from `offset` on is. */
  lemma BlankWord(bm: seq<Word>, p: nat, offset: nat, tmp: Word, want: bool)
    requires p < |bm| && p * WORD_BITS <= offset
    requires forall k: nat :: k < WORD_BITS && p * WORD_BITS + k >= offset ==>
               (Bit(tmp, k) <==> Bit(bm[p], k))
    requires if want then tmp == 0 else tmp == Not(0)
    ensures forall i: nat :: offset <= i < (p + 1) * WORD_BITS ==> BitAt(bm, i) != want
  {
    forall i: nat | offset <= i < (p + 1) * WORD_BITS ensures BitAt(bm, i) != want {
      var k := i - p * WORD_BITS;
      assert i / WORD_BITS == p && i % WORD_BITS == k;
      NotBit(0, k);
      BitOfZero(k);
    }
  }

  lemma HitInWord(bm: seq<Word>, p: nat, offset: nat, tmp: Word, n: nat, want: bool)
    requires p < |bm| && p * WORD_BITS <= offset && n < WORD_BITS
    requires forall k: nat :: k < WORD_BITS ==>
               (Bit(tmp, k) <==> if p * WORD_BITS + k < offset then !want else Bit(bm[p], k))
    requires Bit(tmp, n) == want && forall k: nat :: k < n ==> Bit(tmp, k) != want
    ensures offset <= p * WORD_BITS + n && BitAt(bm, p * WORD_BITS + n) == want
    ensures forall i: nat :: offset <= i < p * WORD_BITS + n ==> BitAt(bm, i) != want
  {
    forall i: nat | offset <= i < p * WORD_BITS + n ensures BitAt(bm, i) != want {
      assert Bit(tmp, i - p * WORD_BITS) != want;
    }
  }

  /** The `found_first` tail of `find_next_bit`: a last word of `left` bits. */
  method NextBitLast(ghost bm: seq<Word>, ghost size: nat, ghost offset: nat,
                     result: nat, left: nat, tmp0: Word) returns (r: nat)
    requires size <= WORD_BITS * |bm| && result + left == size && 0 < left < WORD_BITS
    requires result % WORD_BITS == 0 && offset < result + WORD_BITS && offset < size
    requires forall i: nat :: offset <= i < result ==> !BitAt(bm, i)
    requires forall k: nat :: k < WORD_BITS && result + k >= offset ==>
               (Bit(tmp0, k) <==> Bit(bm[result / WORD_BITS], k))
    requires forall k: nat :: k < WORD_BITS && result + k < offset ==> !Bit(tmp0, k)
    ensures FirstFrom(bm, size, offset, true, r)
  {
    hide Bit, AndW, OrW, HighMask, LowMask, Not;
    var tmp := AndW(tmp0, LowMask(left));
    ZeroWord(tmp);
    if tmp == 0 {
      forall i: nat | result <= i < size && offset <= i ensures !BitAt(bm, i) {
        assert !Bit(tmp, i - result);
      }
      return result + left;
    }
    var n := Ffsl(tmp);
    r := result + n;
    forall i: nat | result <= i < r && offset <= i ensures !BitAt(bm, i) {
      assert !Bit(tmp, i - result);
    }
  }

  /** `find_next_zero_bit`. */
  method FindNextZeroBit(addr: array<Word>, size: nat, offset: nat) returns (r: nat)
    requires size <= WORD_BITS * addr.Length
    ensures FirstFrom(addr[..], size, offset, false, r)
  {
    hide Bit, AndW, OrW, HighMask, LowMask, Not;
    if offset >= size { return size; }
    var p := offset / WORD_BITS;
    var result := p * WORD_BITS;
    var left := size - result;
    var tmp: Word;
    ghost var bm := addr[..];
    if offset % WORD_BITS != 0 {
      tmp := OrW(addr[p], LowMask(offset % WORD_BITS));
      p := p + 1;
      if left < WORD_BITS {
        r := NextZeroLast(bm, size, offset, result, left, tmp);
        return;
      }
      if tmp != Not(0) {
        var n := Ffz(tmp);
        HitInWord(bm, result / WORD_BITS, offset, tmp, n, false);
        return result + n;
      }
      BlankWord(bm, result / WORD_BITS, offset, tmp, false);
      left := left - WORD_BITS;
      result := result + WORD_BITS;
    }
    while left >= WORD_BITS
      invariant result == p * WORD_BITS && result + left == size && offset <= result && 0 <= left
      invariant forall i: nat :: offset <= i < result ==> BitAt(bm, i)
    {
      tmp := addr[p];
      p := p + 1;
      if tmp != Not(0) {
        var n := Ffz(tmp);
        HitInWord(bm, p - 1, result, tmp, n, false);
        return result + n;
      }
      BlankWord(bm, p - 1, result, tmp, false);
      result := result + WORD_BITS;
      left := left - WORD_BITS;
    }
    if left == 0 { return result; }
    tmp := addr[p];
    r := NextZeroLast(bm, size, offset, result, left, tmp);
  }

  method NextZeroLast(ghost bm: seq<Word>, ghost size: nat, ghost offset: nat,
                      result: nat, left: nat, tmp0: Word) returns (r: nat)
    requires size <= WORD_BITS * |bm| && result + left == size && 0 < left < WORD_BITS
    requires result % WORD_BITS == 0 && offset < result + WORD_BITS && offset < size
    requires forall i: nat :: offset <= i < result ==> BitAt(bm, i)
    requires forall k: nat :: k < WORD_BITS && result + k >= offset ==>
               (Bit(tmp0, k) <==> Bit(bm[result / WORD_BITS], k))
    requires forall k: nat :: k < WORD_BITS && result + k < offset ==> Bit(tmp0, k)
    ensures FirstFrom(bm, size, offset, false, r)
  {
    hide Bit, AndW, OrW, HighMask, LowMask, Not;
    var tmp := OrW(tmp0, HighMask(left));
    if tmp == Not(0) {
      forall i: nat | result <= i < size && offset <= i ensures BitAt(bm, i) {
        NotBit(0, i - result);
        BitOfZero(i - result);
        assert Bit(tmp, i - result);
      }
      return result + left;
    }
    var n := Ffz(tmp);
    r := result + n;
    assert n < left;
    forall i: nat | result <= i < r && offset <= i ensures BitAt(bm, i) {
      assert Bit(tmp, i - result);
    }
  }

  /** `find_last_bit`: the greatest set index below `size`, or `size`. */
  method FindLastBit(addr: array<Word>, size: nat) returns (r: nat)
    requires size <= WORD_BITS * addr.Length
    ensures r < size ==> BitAt(addr[..], r) && forall i: nat :: r < i < size ==> !BitAt(addr[..], i)
    ensures r >= size ==> r == size && forall i: nat :: i < size ==> !BitAt(addr[..], i)
  {
    var words := size / WORD_BITS;
    ghost var bm := addr[..];
    var tmp: Word;
    if size % WORD_BITS != 0 {
      tmp := AndW(addr[words], LowMask(size % WORD_BITS));
      if tmp != 0 {
        var n := Flsl(tmp);
        LastInWord(bm, size, words, tmp, n);
        return words * WORD_BITS + n;
      }
      ZeroWord(tmp);
      forall i: nat | words * WORD_BITS <= i < size ensures !BitAt(bm, i) {
        assert !Bit(tmp, i - words * WORD_BITS);
      }
    }
    while words != 0
      invariant 0 <= words && words * WORD_BITS <= size
      invariant forall i: nat :: words * WORD_BITS <= i < size ==> !BitAt(bm, i)
    {
      words := words - 1;
      tmp := addr[words];
      if tmp != 0 {
        var n := Flsl(tmp);
        LastInWord(bm, size, words, tmp, n);
        return words * WORD_BITS + n;
      }
      BlankWord(bm, words, words * WORD_BITS, tmp, true);
    }
    return size;
  }

  lemma LastInWord(bm: seq<Word>, size: nat, p: nat, tmp: Word, n: nat)
    requires size <= WORD_BITS * |bm| && p < |bm|
    requires HighestSet(tmp, n)
    requires forall k: nat :: k < WORD_BITS ==>
               (Bit(tmp, k) <==> p * WORD_BITS + k < size && Bit(bm[p], k))
    requires forall i: nat :: (p + 1) * WORD_BITS <= i < size ==> !BitAt(bm, i)
    ensures p * WORD_BITS + n < size && BitAt(bm, p * WORD_BITS + n)
    ensures forall i: nat :: p * WORD_BITS + n < i < size ==> !BitAt(bm, i)
  {
    forall i: nat | p * WORD_BITS + n < i < size ensures !BitAt(bm, i) {
      if i < (p + 1) * WORD_BITS {
        assert !Bit(tmp, i - p * WORD_BITS);
      }
    }
  }

  // ---------------------------------------------------------- range updates

  /** `after` is `before` with the bits of `[lo, hi)` equal to `v`. */
  ghost predicate RangeIs(before: seq<Word>, after: seq<Word>, lo: nat, hi: nat, v: bool) {
    && |before| == |after|
    && forall i: nat :: i < WORD_BITS * |before| ==>
         (BitAt(after, i) <==> if lo <= i < hi then v else BitAt(before, i))
  }

  /** Replacing word `p` extends a finished range by the bits `mask` selects. */
  lemma ExtendRange(before: seq<Word>, mid: seq<Word>, after: seq<Word>,
                    lo: nat, cur: nat, next: nat, p: nat, mask: Word, v: bool)
    requires RangeIs(before, mid, lo, cur, v)
    requires p < |mid| && lo <= cur <= next <= (p + 1) * WORD_BITS && p * WORD_BITS <= cur
    requires forall k: nat :: k < WORD_BITS ==> (Bit(mask, k) <==> cur <= p * WORD_BITS + k < next)
    requires after == mid[p := if v then OrW(mid[p], mask) else AndW(mid[p], Not(mask))]
    ensures RangeIs(before, after, lo, next, v)
  {
    forall i: nat | i < WORD_BITS * |before|
      ensures BitAt(after, i) <==> if lo <= i < next then v else BitAt(before, i)
    {
      assert BitAt(mid, i) <==> if lo <= i < cur then v else BitAt(before, i);
      if i / WORD_BITS == p {
        NotBit(mask, i % WORD_BITS);
      }
    }
  }

  /** `bitmap_set`. */
  method BitmapSet(bm: array<Word>, start: nat, count: nat)
    requires start + count <= WORD_BITS * bm.Length
    modifies bm
    ensures RangeIs(old(bm[..]), bm[..], start, start + count, true)
  {
    var p, nr := start / WORD_BITS, count;
    var size := start + count;
    var bitsToSet := WORD_BITS - start % WORD_BITS;
    var mask := HighMask(start % WORD_BITS);
    ghost var cur := start;
    while nr >= bitsToSet
      invariant cur + nr == size && start <= cur && 0 <= nr && cur + bitsToSet == (p + 1) * WORD_BITS
      invariant 1 <= bitsToSet <= WORD_BITS
      invariant forall k: nat :: k < WORD_BITS ==> (Bit(mask, k) <==> k >= WORD_BITS - bitsToSet)
      invariant RangeIs(old(bm[..]), bm[..], start, cur, true)
    {
      ghost var mid := bm[..];
      bm[p] := OrW(bm[p], mask);
      ExtendRange(old(bm[..]), mid, bm[..], start, cur, cur + bitsToSet, p, mask, true);
      cur := cur + bitsToSet;
      nr := nr - bitsToSet;
      bitsToSet := WORD_BITS;
      mask := HighMask(0);         // ~0UL
      p := p + 1;
    }
    if nr != 0 {
      ghost var mid := bm[..];
      mask := AndW(mask, LastWordMask(size));
      bm[p] := OrW(bm[p], mask);
      ExtendRange(old(bm[..]), mid, bm[..], start, cur, size, p, mask, true);
    }
  }

  /** `bitmap_clear`. */
  method BitmapClear(bm: array<Word>, start: nat, count: nat)
    requires start + count <= WORD_BITS * bm.Length
    modifies bm
    ensures RangeIs(old(bm[..]), bm[..], start, start + count, false)
  {
    var p, nr := start / WORD_BITS, count;
    var size := start + count;
    var bitsToClear := WORD_BITS - start % WORD_BITS;
    var mask := HighMask(start % WORD_BITS);
    ghost var cur := start;
    while nr >= bitsToClear
      invariant cur + nr == size && start <= cur && 0 <= nr && cur + bitsToClear == (p + 1) * WORD_BITS
      invariant 1 <= bitsToClear <= WORD_BITS
      invariant forall k: nat :: k < WORD_BITS ==> (Bit(mask, k) <==> k >= WORD_BITS - bitsToClear)
      invariant RangeIs(old(bm[..]), bm[..], start, cur, false)
    {
      ghost var mid := bm[..];
      bm[p] := AndW(bm[p], Not(mask));
      ExtendRange(old(bm[..]), mid, bm[..], start, cur, cur + bitsToClear, p, mask, false);
      cur := cur + bitsToClear;
      nr := nr - bitsToClear;
      bitsToClear := WORD_BITS;
      mask := HighMask(0);
      p := p + 1;
    }
    if nr != 0 {
      ghost var mid := bm[..];
      mask := AndW(mask, LastWordMask(size));
      bm[p] := AndW(bm[p], Not(mask));
      ExtendRange(old(bm[..]), mid, bm[..], start, cur, size, p, mask, false);
    }
  }

  // ------------------------------------------------------------ area search

  /** `nr` clear bits start at the aligned index `idx`, all inside the map. */
  ghost predicate Fits(bm: seq<Word>, size: nat, start: nat, nr: nat, align: nat, idx: nat)
    requires size <= WORD_BITS * |bm| && align > 0
  {
    && start <= idx && idx % align == 0 && idx + nr <= size
    && forall i: nat :: idx <= i < idx + nr ==> !BitAt(bm, i)
  }

  ghost predicate NoMultiple(x: nat, y: nat, a: nat)
    requires a > 0
  {
    forall z: nat :: x <= z < y ==> z % a != 0
  }

  lemma AlignUp(x: nat, n: nat, y: nat)
    requires n < WORD_BITS && x + Pow2(n) <= WORD_LIMIT
    requires Pow2(n) <= WORD_LIMIT && y == AndW(x + (Pow2(n) - 1), Not(Pow2(n) - 1))
    ensures x <= y < x + Pow2(n) && y % Pow2(n) == 0 && NoMultiple(x, y, Pow2(n))
  {
    AndHighMask(x + (Pow2(n) - 1), n);
    RoundUp(x, Pow2(n), y);
  }

  lemma RoundUp(x: nat, a: nat, y: nat)
    requires a > 0 && y == (x + a - 1) - (x + a - 1) % a
    ensures x <= y < x + a && y % a == 0 && NoMultiple(x, y, a)
  {
    var t := x + a - 1;
    assert y == a * (t / a);
    ModUnique(y, a, t / a, 0);
    forall z: nat | x <= z < y ensures z % a != 0 {
      if z % a == 0 { MultiplesApart(z, y, a); }
    }
  }

  lemma MultiplesApart(z: nat, y: nat, a: nat)
    requires a > 0 && z < y && z % a == 0 && y % a == 0
    ensures z + a <= y
  {
    var d := y / a - z / a;
    assert y == a * (y / a) && z == a * (z / a);
    assert a * d == y - z;
    assert d <= 0 ==> a * d <= 0;
    assert d >= 1 ==> a * d >= a;
  }

  /** No area of `nr` bits starts below `limit`. */
  ghost predicate NoFitBelow(m: seq<Word>, size: nat, start0: nat, nr: nat, align: nat, limit: nat)
    requires size <= WORD_BITS * |m| && align > 0
  {
    forall j: nat :: j < limit ==> !Fits(m, size, start0, nr, align, j)
  }

  ghost predicate NoFit(m: seq<Word>, size: nat, start0: nat, nr: nat, align: nat)
    requires size <= WORD_BITS * |m| && align > 0
  {
    forall j: nat :: !Fits(m, size, start0, nr, align, j)
  }

  /** `bitmap_find_next_zero_area`: exact first fit.  `n` is the logarithm of
      the alignment; the last requires rules out wrap-around in the source. */
  method FindNextZeroArea(bm: array<Word>, size: nat, start0: nat, nr: nat, n: nat) returns (r: nat)
    requires size <= WORD_BITS * bm.Length && nr >= 1
    requires n < WORD_BITS && size + nr + Pow2(n) <= WORD_LIMIT
    ensures r <= size ==> Fits(bm[..], size, start0, nr, Pow2(n), r)
    ensures r <= size ==> NoFitBelow(bm[..], size, start0, nr, Pow2(n), r)
    ensures r > size <==> NoFit(bm[..], size, start0, nr, Pow2(n))
  {
    hide Fits, FirstFrom, NoFitBelow, NoFit, NoMultiple, And, AndW, Pow2, Not, Bit;
    var start := start0;
    var alignMask := Pow2(n) - 1;
    ghost var m, align := bm[..], Pow2(n);
    NoFitAtStart(m, size, start0, nr, align);
    while true
      invariant start0 <= start && (start == start0 || start <= size)
      invariant NoFitBelow(m, size, start0, nr, align, start)
      decreases size - start
    {
      var zero := FindNextZeroBit(bm, size, start);
      FirstBounds(m, size, start, false, zero);
      var index := AndW(zero + alignMask, Not(alignMask));
      AlignUp(zero, n, index);
      NoFitBefore(m, size, start0, start, nr, align, zero, index);
      var end := index + nr;
      if end > size {
        NoFitAfter(m, size, start0, nr, align, index);
        return end;
      }
      var i := FindNextBit(bm, end, index);
      FirstBounds(m, end, index, true, i);
      if i < end {
        NoFitAcross(m, size, start0, nr, align, index, i);
        start := i + 1;
      } else {
        AreaFound(m, size, start0, nr, align, index);
        return index;
      }
    }
  }

  lemma FirstBounds(m: seq<Word>, size: nat, offset: nat, want: bool, r: nat)
    requires size <= WORD_BITS * |m| && FirstFrom(m, size, offset, want, r)
    ensures r <= size && if offset <= size then offset <= r else r == size
    ensures r < size ==> BitAt(m, r) == want
  {
  }

  lemma NoFitAtStart(m: seq<Word>, size: nat, start0: nat, nr: nat, align: nat)
    requires size <= WORD_BITS * |m| && align > 0
    ensures NoFitBelow(m, size, start0, nr, align, start0)
  {
  }

  lemma NoFitBefore(m: seq<Word>, size: nat, start0: nat, start: nat, nr: nat, align: nat, zero: nat, index: nat)
    requires size <= WORD_BITS * |m| && align > 0 && nr >= 1 && zero <= index
    requires FirstFrom(m, size, start, false, zero)
    requires NoFitBelow(m, size, start0, nr, align, start)
    requires NoMultiple(zero, index, align)
    ensures NoFitBelow(m, size, start0, nr, align, index)
  {
    forall j: nat | j < index ensures !Fits(m, size, start0, nr, align, j) {
      if start <= j < zero { assert BitAt(m, j); }
    }
  }

  /** A set bit inside the candidate area rules out every start up to it. */
  lemma NoFitAcross(m: seq<Word>, size: nat, start0: nat, nr: nat, align: nat, index: nat, i: nat)
    requires size <= WORD_BITS * |m| && align > 0 && nr >= 1
    requires NoFitBelow(m, size, start0, nr, align, index)
    requires index <= i < index + nr <= size && BitAt(m, i)
    ensures NoFitBelow(m, size, start0, nr, align, i + 1)
  {
    forall j: nat | j < i + 1 ensures !Fits(m, size, start0, nr, align, j) {
      assert j >= index ==> j <= i < j + nr;
    }
  }

  lemma NoFitAfter(m: seq<Word>, size: nat, start0: nat, nr: nat, align: nat, index: nat)
    requires size <= WORD_BITS * |m| && align > 0 && index + nr > size
    requires NoFitBelow(m, size, start0, nr, align, index)
    ensures NoFit(m, size, start0, nr, align)
  {
  }

  lemma AreaFound(m: seq<Word>, size: nat, start0: nat, nr: nat, align: nat, index: nat)
    requires size <= WORD_BITS * |m| && align > 0 && nr >= 1
    requires start0 <= index && index + nr <= size && index % align == 0
    requires FirstFrom(m, index + nr, index, true, index + nr)
    ensures Fits(m, size, start0, nr, align, index) && !NoFit(m, size, start0, nr, align)
  {
    hide Bit;
    forall i: nat | index <= i < index + nr ensures !BitAt(m, i) {
    }
    assert Fits(m, size, start0, nr, align, index);
  }
}
