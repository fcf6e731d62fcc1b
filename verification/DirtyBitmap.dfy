/** Dirty tracking on the words it is kept in (`block.c`, and the aio bitmap of
    `block-migration.c`): the word code computes the boolean view `MarkChunks`
    that the migration model uses, and `dirty_count` counts it exactly. */
module DirtyBitmap {
  import opened Bits
  import opened Bitmap
  import opened BlkMigModel

  /** Set bits among the first `n`. */
  ghost function CountBits(words: seq<Word>, n: nat): nat
    requires n <= WORD_BITS * |words|
  {
    if n == 0 then 0 else CountBits(words, n - 1) + if BitAt(words, n - 1) then 1 else 0
  }

  lemma {:induction false} CountFlipped(a: seq<Word>, b: seq<Word>, c: nat, n: nat)
    requires |a| == |b| && n <= WORD_BITS * |a| && c < WORD_BITS * |a|
    requires forall i: nat :: i < WORD_BITS * |a| && i != c ==> (BitAt(b, i) <==> BitAt(a, i))
    ensures CountBits(b, n) == CountBits(a, n) +
              if c < n then (if BitAt(b, c) then 1 else 0) - (if BitAt(a, c) then 1 else 0) else 0
  {
    if n > 0 { CountFlipped(a, b, c, n - 1); }
  }

  /** `val |= 1UL << bit` and `val &= ~(1UL << bit)` on word `c / 64`. */
  function WithBit(words: seq<Word>, c: nat, v: bool): (r: seq<Word>)
    requires c < WORD_BITS * |words|
    ensures |r| == |words|
  {
    var w := words[c / WORD_BITS];
    var bit := OneBit(c % WORD_BITS);
    words[c / WORD_BITS := if v then OrW(w, bit) else AndW(w, Not(bit))]
  }

  lemma WithBitAt(words: seq<Word>, c: nat, v: bool, i: nat)
    requires c < WORD_BITS * |words| && i < WORD_BITS * |words|
    ensures BitAt(WithBit(words, c, v), i) <==> if i == c then v else BitAt(words, i)
  {
    NotBit(OneBit(c % WORD_BITS), i % WORD_BITS);
  }

  lemma WithBitRange(before: seq<Word>, mid: seq<Word>, lo: nat, c: nat, v: bool)
    requires c < WORD_BITS * |mid| && lo <= c && RangeIs(before, mid, lo, c, v)
    ensures RangeIs(before, WithBit(mid, c, v), lo, c + 1, v)
  {
    forall i: nat | i < WORD_BITS * |before|
      ensures BitAt(WithBit(mid, c, v), i) <==> if lo <= i < c + 1 then v else BitAt(before, i)
    {
      WithBitAt(mid, c, v, i);
    }
  }

  /** The chunks a bitmap marks. */
  ghost function View(words: seq<Word>, chunks: nat): (dirty: seq<bool>)
    requires chunks <= WORD_BITS * |words|
    ensures |dirty| == chunks && forall c :: 0 <= c < chunks ==> dirty[c] == BitAt(words, c)
  {
    seq(chunks, c requires 0 <= c < chunks => BitAt(words, c))
  }

  lemma RangeIsMark(before: seq<Word>, after: seq<Word>, chunks: nat, x: nat, n: nat, v: bool)
    requires n > 0 && chunks <= WORD_BITS * |before|
    requires RangeIs(before, after, x / CHUNK, (x + n - 1) / CHUNK + 1, v)
    ensures View(after, chunks) == MarkChunks(View(before, chunks), x, n, v)
  {
  }

  /** `bmds_set_aio_inflight`. */
  method SetAioInflight(aioBitmap: array<Word>, sectorNum: nat, nbSectors: nat, mark: bool)
    requires nbSectors > 0 && (sectorNum + nbSectors - 1) / CHUNK < WORD_BITS * aioBitmap.Length
    modifies aioBitmap
    ensures RangeIs(old(aioBitmap[..]), aioBitmap[..], sectorNum / CHUNK, (sectorNum + nbSectors - 1) / CHUNK + 1, mark)
  {
    hide OrW, AndW, OneBit;
    var start, end := sectorNum / CHUNK, (sectorNum + nbSectors - 1) / CHUNK;
    ghost var lo := start;
    while start <= end
      invariant lo <= start <= end + 1
      invariant RangeIs(old(aioBitmap[..]), aioBitmap[..], lo, start, mark)
    {
      ghost var mid := aioBitmap[..];
      var idx, bit := start / WORD_BITS, start % WORD_BITS;
      var val := aioBitmap[idx];
      if mark { val := OrW(val, OneBit(bit)); } else { val := AndW(val, Not(OneBit(bit))); }
      aioBitmap[idx] := val;
      assert aioBitmap[..] == WithBit(mid, start, mark);
      WithBitRange(old(aioBitmap[..]), mid, lo, start, mark);
      start := start + 1;
    }
  }

  /** `bmds_aio_inflight`. */
  method AioInflight(aioBitmap: array<Word>, sector: nat, sectors: nat) returns (r: bool)
    requires Chunks(sectors) <= WORD_BITS * aioBitmap.Length
    ensures r <==> sector < sectors && BitAt(aioBitmap[..], sector / CHUNK)
  {
    var chunk := sector / CHUNK;
    if sector < sectors {
      var masked := AndW(aioBitmap[chunk / WORD_BITS], OneBit(chunk % WORD_BITS));
      ZeroWord(masked);
      r := masked != 0;
      assert r <==> Bit(masked, chunk % WORD_BITS);
    } else {
      r := false;
    }
  }

  class BlockDriverState {
    var disk: seq<Sector>
    const inserted: bool
    const readOnly: bool
    var wrHighestSector: nat
    const dirtyBitmap: array<Word>
    var dirtyCount: int

    ghost predicate Valid()
      reads this, dirtyBitmap
    {
      && Chunks(|disk|) <= WORD_BITS * dirtyBitmap.Length
      && dirtyCount == CountBits(dirtyBitmap[..], Chunks(|disk|))
    }

    ghost function Dirty(): seq<bool>
      requires Valid()
      reads this, dirtyBitmap
    {
      View(dirtyBitmap[..], Chunks(|disk|))
    }

    /** `bdrv_set_dirty_tracking(bs, 1)`: a fresh, zeroed bitmap. */
    constructor (sectors: seq<Sector>, hasDriver: bool, ro: bool)
      ensures Valid() && disk == sectors && dirtyCount == 0 && fresh(dirtyBitmap)
      ensures forall c :: 0 <= c < |Dirty()| ==> !Dirty()[c]
    {
      disk, inserted, readOnly, dirtyCount, wrHighestSector := sectors, hasDriver, ro, 0, 0;
      var n := Chunks(|sectors|) / WORD_BITS + 1;
      dirtyBitmap := new Word[n](_ => 0);
      new;
      forall i: nat | i < WORD_BITS * dirtyBitmap.Length ensures !BitAt(dirtyBitmap[..], i) {
        BitOfZero(i % WORD_BITS);
      }
      NoneSet(dirtyBitmap[..], Chunks(|sectors|));
    }

    /** `set_dirty_bitmap`. */
    method SetDirtyBitmap(sectorNum: nat, nbSectors: nat, dirty: bool)
      requires Valid() && 0 < |disk| && sectorNum + nbSectors <= |disk|
      modifies this`dirtyCount, dirtyBitmap
      ensures Valid() && Dirty() == MarkedFor(old(Dirty()), sectorNum, nbSectors, dirty)
    {
      hide OrW, AndW, OneBit, CountBits;
      var start := sectorNum / CHUNK;
      var end := if sectorNum + nbSectors == 0 then 0 else (sectorNum + nbSectors - 1) / CHUNK;   // C division
      ghost var lo := start;
      while start <= end
        invariant lo <= start && (start <= end + 1 || start == lo)
        invariant RangeIs(old(dirtyBitmap[..]), dirtyBitmap[..], lo, start, dirty)
        invariant Valid()
      {
        ghost var mid := dirtyBitmap[..];
        MarkOne(start, dirty);
        WithBitRange(old(dirtyBitmap[..]), mid, lo, start, dirty);
        start := start + 1;
      }
      if lo <= end {
        RangeIsMark(old(dirtyBitmap[..]), dirtyBitmap[..], Chunks(|disk|), sectorNum,
                    if nbSectors > 0 then nbSectors else 1, dirty);
      }
    }

    /** The loop body of `set_dirty_bitmap`: one chunk, counted if it changes. */
    method MarkOne(chunk: nat, dirty: bool)
      requires Valid() && chunk < Chunks(|disk|)
      modifies this`dirtyCount, dirtyBitmap
      ensures Valid() && dirtyBitmap[..] == WithBit(old(dirtyBitmap[..]), chunk, dirty)
    {
      hide CountBits;
      ghost var mid := dirtyBitmap[..];
      var idx, bit := chunk / WORD_BITS, chunk % WORD_BITS;
      var val := dirtyBitmap[idx];
      var isSet := TestBit(val, bit);
      if dirty {
        if !isSet {
          dirtyCount := dirtyCount + 1;
          val := OrW(val, OneBit(bit));
        }
      } else {
        if isSet {
          dirtyCount := dirtyCount - 1;
          val := AndW(val, Not(OneBit(bit)));
        }
      }
      dirtyBitmap[idx] := val;
      MarkedOne(mid, dirtyBitmap[..], Chunks(|disk|), chunk, dirty);
    }

    /** `bdrv_get_dirty`. */
    method GetDirty(sector: nat) returns (r: bool)
      requires Valid()
      ensures r <==> sector < |disk| && Dirty()[sector / CHUNK]
    {
      r := AioInflight(dirtyBitmap, sector, |disk|);
    }

    /** `bdrv_co_do_writev`: the driver runs first, and the chunks are marked
        whatever it returned.  `left` is what the driver left in the range: the
        data if it succeeded, anything if it failed. */
    method Writev(sectorNum: nat, data: seq<Sector>, driver: int, left: seq<Sector>) returns (ret: int)
      requires Valid() && 0 < |disk| && |left| == |data| && (driver >= 0 ==> left == data)
      modifies this`disk, this`dirtyCount, this`wrHighestSector, dirtyBitmap
      ensures Valid() && |disk| == |old(disk)|
      ensures !Accepts(sectorNum, |data|) ==>
                ret < 0 && disk == old(disk) && Dirty() == old(Dirty()) && wrHighestSector == old(wrHighestSector)
      ensures Accepts(sectorNum, |data|) ==>
                && ret == driver
                && Dirty() == MarkedFor(old(Dirty()), sectorNum, |data|, true)
                && disk == old(disk)[..sectorNum] + left + old(disk)[sectorNum + |data|..]
                && wrHighestSector == if old(wrHighestSector) > sectorNum + |data| - 1
                                      then old(wrHighestSector) else sectorNum + |data| - 1
      ensures Tracked(old(disk), disk, Dirty())
    {
      hide CountBits, View, BitAt, MarkedFor, Tracked;
      Untouched(disk, Dirty());
      if !inserted { return -123; }
      if readOnly { return -13; }
      if sectorNum + |data| > |disk| { return -5; }
      disk := disk[..sectorNum] + left + disk[sectorNum + |data|..];
      SetDirtyBitmap(sectorNum, |data|, true);
      WriteTracked(old(disk), disk, old(Dirty()), sectorNum, |data|);
      if wrHighestSector < sectorNum + |data| - 1 { wrHighestSector := sectorNum + |data| - 1; }
      ret := driver;
    }

    /** The checks of `bdrv_co_do_writev` before it calls the driver. */
    predicate Accepts(sectorNum: nat, nbSectors: nat)
      reads this
    {
      inserted && !readOnly && sectorNum + nbSectors <= |disk|
    }
  }

  /** The chunks a request touches.  A request of no sectors still marks the
      chunk it points into, unless it points at the start of one after the first. */
  function MarkedFor(dirty: seq<bool>, x: nat, n: nat, v: bool): (r: seq<bool>)
    ensures |r| == |dirty|
  {
    if n > 0 then MarkChunks(dirty, x, n, v)
    else if x == 0 || x % CHUNK != 0 then MarkChunks(dirty, x, 1, v)
    else dirty
  }

  /** Every sector that differs lies in a chunk marked dirty. */
  ghost predicate Tracked(before: seq<Sector>, after: seq<Sector>, dirty: seq<bool>)
    requires |before| == |after| && |dirty| == Chunks(|before|)
  {
    forall x :: 0 <= x < |before| && before[x] != after[x] ==> dirty[x / CHUNK]
  }

  lemma Untouched(disk: seq<Sector>, dirty: seq<bool>)
    requires |dirty| == Chunks(|disk|)
    ensures Tracked(disk, disk, dirty)
  {
  }

  lemma WriteTracked(before: seq<Sector>, after: seq<Sector>, dirty: seq<bool>, x: nat, n: nat)
    requires |before| == |after| && |dirty| == Chunks(|before|) && x + n <= |before|
    requires before[..x] == after[..x] && before[x + n..] == after[x + n..]
    ensures Tracked(before, after, MarkedFor(dirty, x, n, true))
  {
    forall y | 0 <= y < x ensures before[y] == after[y] {
      assert before[..x][y] == after[..x][y];
    }
    forall y | x + n <= y < |before| ensures before[y] == after[y] {
      assert before[x + n..][y - x - n] == after[x + n..][y - x - n];
    }
  }

  method TestBit(val: Word, bit: nat) returns (r: bool)
    requires bit < WORD_BITS
    ensures r <==> Bit(val, bit)
  {
    var masked := AndW(val, OneBit(bit));
    ZeroWord(masked);
    r := masked != 0;
    assert r <==> Bit(masked, bit);
  }

  lemma {:induction false} NoneSet(words: seq<Word>, n: nat)
    requires n <= WORD_BITS * |words| && forall i: nat :: i < WORD_BITS * |words| ==> !BitAt(words, i)
    ensures CountBits(words, n) == 0
  {
    if n > 0 { NoneSet(words, n - 1); }
  }

  /** Skipping the update of a bit that already has its value is no loss. */
  lemma MarkedOne(mid: seq<Word>, after: seq<Word>, n: nat, c: nat, v: bool)
    requires c < n <= WORD_BITS * |mid|
    requires after == if BitAt(mid, c) == v then mid else WithBit(mid, c, v)
    ensures after == WithBit(mid, c, v)
    ensures CountBits(after, n) == CountBits(mid, n) + (if v then 1 else 0) - (if BitAt(mid, c) then 1 else 0)
  {
    var r := WithBit(mid, c, v);
    forall i: nat | i < WORD_BITS * |mid| ensures BitAt(r, i) <==> if i == c then v else BitAt(mid, i) {
      WithBitAt(mid, c, v, i);
    }
    CountFlipped(mid, r, c, n);
    if BitAt(mid, c) == v { SameWord(mid, r, c); }
  }

  lemma SameWord(a: seq<Word>, b: seq<Word>, c: nat)
    requires |a| == |b| && c < WORD_BITS * |a|
    requires forall i :: 0 <= i < |a| && i != c / WORD_BITS ==> a[i] == b[i]
    requires forall i: nat :: i < WORD_BITS * |a| ==> (BitAt(a, i) <==> BitAt(b, i))
    ensures a == b
  {
    var w := c / WORD_BITS;
    forall k | 0 <= k < WORD_BITS ensures Bit(a[w], k) <==> Bit(b[w], k) {
      assert BitAt(a, w * WORD_BITS + k) <==> BitAt(b, w * WORD_BITS + k);
    }
    WordLimitIsPow2();
    SameBits(a[w], b[w], WORD_BITS);
  }
}
