/** Guest RAM as the migration code sees it (`cpu-all.h`, `arch_init.c`): a list
    of named blocks, each a page-aligned range of RAM addresses backed by host
    memory, and one byte of dirty flags per page. */
module RamList {
  import opened Bits
  import opened Wire

  const TARGET_PAGE_SIZE: nat := 4096
  const MIGRATION_DIRTY_FLAG: bv8 := 0x08
  const WRITE_DIRTY_FLAGS: bv8 := 0xfd

  datatype RAMBlock = RAMBlock(idstr: seq<byte>, offset: nat, length: nat, host: seq<byte>)

  /** A page of a block: list index and byte offset inside the block. */
  datatype Pos = Pos(b: nat, off: nat)

  ghost predicate ValidBlock(b: RAMBlock) {
    && IsName(b.idstr)
    && 0 < b.length == |b.host| < WORD_LIMIT
    && b.length % TARGET_PAGE_SIZE == 0 && b.offset % TARGET_PAGE_SIZE == 0
    && b.offset + b.length <= WORD_LIMIT
  }

  ghost predicate Apart(a: RAMBlock, b: RAMBlock) {
    && a.idstr != b.idstr
    && (a.offset + a.length <= b.offset || b.offset + b.length <= a.offset)
  }

  /** A non-empty list, in any order, of non-empty, page-aligned, disjoint
      blocks with distinct names. */
  ghost predicate ValidList(bs: seq<RAMBlock>) {
    && |bs| > 0
    && (forall i :: 0 <= i < |bs| ==> ValidBlock(bs[i]))
    && (forall i, j :: 0 <= i < j < |bs| ==> Apart(bs[i], bs[j]))
  }

  predicate ValidPos(bs: seq<RAMBlock>, p: Pos) {
    p.b < |bs| && p.off < bs[p.b].length && p.off % TARGET_PAGE_SIZE == 0
  }

  /** The RAM address of a page, and its index in the dirty-flag array. */
  function Addr(bs: seq<RAMBlock>, p: Pos): nat
    requires p.b < |bs|
  {
    bs[p.b].offset + p.off
  }

  function PageNo(bs: seq<RAMBlock>, p: Pos): nat
    requires p.b < |bs|
  {
    Addr(bs, p) / TARGET_PAGE_SIZE     // addr >> TARGET_PAGE_BITS
  }

  lemma AddrIdentifies(bs: seq<RAMBlock>, p: Pos, q: Pos)
    requires ValidList(bs) && ValidPos(bs, p) && ValidPos(bs, q)
    ensures Addr(bs, p) == Addr(bs, q) ==> p == q
    ensures PageNo(bs, p) == PageNo(bs, q) ==> p == q
  {
    assert ValidBlock(bs[p.b]) && ValidBlock(bs[q.b]);
    if p.b < q.b { assert Apart(bs[p.b], bs[q.b]); }
    if q.b < p.b { assert Apart(bs[q.b], bs[p.b]); }
    hide ValidList;
    SamePageNo(bs[p.b].offset, p.off, bs[q.b].offset, q.off);
  }

  lemma SamePageNo(a: nat, i: nat, b: nat, j: nat)
    requires a % TARGET_PAGE_SIZE == 0 && i % TARGET_PAGE_SIZE == 0
    requires b % TARGET_PAGE_SIZE == 0 && j % TARGET_PAGE_SIZE == 0
    ensures (a + i) / TARGET_PAGE_SIZE == (b + j) / TARGET_PAGE_SIZE ==> a + i == b + j
  {
    assert (a + i) % TARGET_PAGE_SIZE == 0 && (b + j) % TARGET_PAGE_SIZE == 0;
  }

  // --------------------------------------------------- the order of a scan

  function Pages(b: RAMBlock): nat {
    b.length / TARGET_PAGE_SIZE
  }

  function PageCount(bs: seq<RAMBlock>): nat {
    if |bs| == 0 then 0 else PageCount(bs[..|bs| - 1]) + Pages(bs[|bs| - 1])
  }

  /** Number of a page when the list is walked from its head. */
  function Flat(bs: seq<RAMBlock>, p: Pos): nat
    requires p.b < |bs|
  {
    PageCount(bs[..p.b]) + p.off / TARGET_PAGE_SIZE
  }

  /** The page after `p`, going round the list. */
  function Next(bs: seq<RAMBlock>, p: Pos): Pos
    requires p.b < |bs|
  {
    if p.off + TARGET_PAGE_SIZE < bs[p.b].length then Pos(p.b, p.off + TARGET_PAGE_SIZE)
    else if p.b + 1 < |bs| then Pos(p.b + 1, 0)
    else Pos(0, 0)
  }

  /** How many steps a scan started at `from` takes to reach `p`. */
  function Dist(bs: seq<RAMBlock>, from: Pos, p: Pos): int
    requires from.b < |bs| && p.b < |bs|
  {
    if Flat(bs, p) >= Flat(bs, from) then Flat(bs, p) - Flat(bs, from)
    else Flat(bs, p) - Flat(bs, from) + PageCount(bs)
  }

  lemma PrefixCount(bs: seq<RAMBlock>, i: nat)
    requires i < |bs|
    ensures PageCount(bs[..i + 1]) == PageCount(bs[..i]) + Pages(bs[i])
  {
    assert bs[..i + 1][..i] == bs[..i];
  }

  lemma {:induction false} PrefixMonotone(bs: seq<RAMBlock>, i: nat, j: nat)
    requires i <= j <= |bs|
    ensures PageCount(bs[..i]) <= PageCount(bs[..j])
    decreases j
  {
    if i < j {
      PrefixCount(bs, j - 1);
      PrefixMonotone(bs, i, j - 1);
    }
  }

  lemma FlatBound(bs: seq<RAMBlock>, p: Pos)
    requires ValidList(bs) && ValidPos(bs, p)
    ensures Flat(bs, p) < PageCount(bs[..p.b + 1]) <= PageCount(bs)
  {
    PrefixCount(bs, p.b);
    PrefixMonotone(bs, p.b + 1, |bs|);
    assert bs[..|bs|] == bs;
  }

  lemma FlatIdentifies(bs: seq<RAMBlock>, p: Pos, q: Pos)
    requires ValidList(bs) && ValidPos(bs, p) && ValidPos(bs, q)
    requires Flat(bs, p) == Flat(bs, q)
    ensures p == q
  {
    FlatBound(bs, p);
    FlatBound(bs, q);
    if p.b < q.b {
      PrefixMonotone(bs, p.b + 1, q.b);
    } else if q.b < p.b {
      PrefixMonotone(bs, q.b + 1, p.b);
    }
  }

  lemma NextStep(bs: seq<RAMBlock>, p: Pos)
    requires ValidList(bs) && ValidPos(bs, p)
    ensures ValidPos(bs, Next(bs, p))
    ensures Flat(bs, Next(bs, p)) == if Flat(bs, p) + 1 == PageCount(bs) then 0 else Flat(bs, p) + 1
  {
    var n := Next(bs, p);
    assert ValidBlock(bs[p.b]) && ValidBlock(bs[n.b]);
    if p.off + TARGET_PAGE_SIZE >= bs[p.b].length {
      LastPage(bs, p);
      if p.b + 1 < |bs| { FlatBound(bs, n); }
    } else {
      FlatBound(bs, n);
    }
  }

  lemma LastPage(bs: seq<RAMBlock>, p: Pos)
    requires ValidList(bs) && ValidPos(bs, p)
    requires p.off + TARGET_PAGE_SIZE >= bs[p.b].length
    ensures Flat(bs, p) + 1 == PageCount(bs[..p.b + 1])
    ensures p.b + 1 == |bs| ==> bs[..p.b + 1] == bs
  {
    assert ValidBlock(bs[p.b]);
    PrefixCount(bs, p.b);
    assert p.off / TARGET_PAGE_SIZE + 1 == Pages(bs[p.b]);
  }

  /** Distances are below the page count and tell pages apart. */
  lemma DistIdentifies(bs: seq<RAMBlock>, from: Pos, p: Pos, q: Pos)
    requires ValidList(bs) && ValidPos(bs, from) && ValidPos(bs, p) && ValidPos(bs, q)
    ensures 0 <= Dist(bs, from, p) < PageCount(bs)
    ensures Dist(bs, from, p) == Dist(bs, from, q) ==> p == q
  {
    FlatBound(bs, from);
    FlatBound(bs, p);
    FlatBound(bs, q);
    if Flat(bs, p) == Flat(bs, q) { FlatIdentifies(bs, p, q); }
  }

  lemma DistNext(bs: seq<RAMBlock>, from: Pos, p: Pos)
    requires ValidList(bs) && ValidPos(bs, from) && ValidPos(bs, p)
    ensures ValidPos(bs, Next(bs, p))
    ensures Next(bs, p) == from <==> Dist(bs, from, p) + 1 == PageCount(bs)
    ensures Next(bs, p) != from ==> Dist(bs, from, Next(bs, p)) == Dist(bs, from, p) + 1
  {
    NextStep(bs, p);
    FlatBound(bs, from);
    FlatBound(bs, p);
    var n := Next(bs, p);
    FlatBound(bs, n);
    if Flat(bs, n) == Flat(bs, from) { FlatIdentifies(bs, n, from); }
  }

  // ---------------------------------------------------- flags and contents

  predicate Flagged(v: bv8) {
    v & MIGRATION_DIRTY_FLAG != 0
  }

  /** `p[i] &= ~dirty_flags`. */
  function MaskOff(v: bv8, dirtyFlags: bv8): (r: bv8) {
    v & !dirtyFlags
  }

  /** A guest store sets all flags but CODE_DIRTY_FLAG. */
  function WriteFlags(v: bv8): (r: bv8) {
    v | WRITE_DIRTY_FLAGS
  }

  lemma FlagBits(v: bv8)
    ensures !Flagged(MaskOff(v, MIGRATION_DIRTY_FLAG)) && Flagged(WriteFlags(v)) && Flagged(0xff)
  {
  }

  predicate GetDirty(flags: seq<bv8>, page: nat)
    requires page < |flags|
  {
    Flagged(flags[page])
  }

  /** Every page has a flag byte. */
  ghost predicate FlagsCover(bs: seq<RAMBlock>, flags: seq<bv8>) {
    forall i :: 0 <= i < |bs| ==> bs[i].offset + bs[i].length <= TARGET_PAGE_SIZE * |flags|
  }

  predicate Dirty(bs: seq<RAMBlock>, flags: seq<bv8>, p: Pos)
    requires p.b < |bs| && PageNo(bs, p) < |flags|
  {
    GetDirty(flags, PageNo(bs, p))
  }

  lemma PageNoBound(bs: seq<RAMBlock>, flags: seq<bv8>, p: Pos)
    requires ValidList(bs) && FlagsCover(bs, flags) && ValidPos(bs, p)
    ensures PageNo(bs, p) < |flags|
  {
    assert ValidBlock(bs[p.b]);
  }

  /** Page at byte offset `off` of a block. */
  function PageAt(b: RAMBlock, off: nat): (page: seq<byte>)
    requires off + TARGET_PAGE_SIZE <= |b.host|
    ensures |page| == TARGET_PAGE_SIZE
  {
    b.host[off..off + TARGET_PAGE_SIZE]
  }

  lemma PageInside(bs: seq<RAMBlock>, p: Pos)
    requires ValidList(bs) && ValidPos(bs, p)
    ensures p.off + TARGET_PAGE_SIZE <= bs[p.b].length == |bs[p.b].host|
  {
    assert ValidBlock(bs[p.b]);
  }

  function SetPage(b: RAMBlock, off: nat, page: seq<byte>): (r: RAMBlock)
    requires off + TARGET_PAGE_SIZE <= |b.host| && |page| == TARGET_PAGE_SIZE
    ensures |r.host| == |b.host|
  {
    b.(host := b.host[..off] + page + b.host[off + TARGET_PAGE_SIZE..])
  }

  lemma PageAfterSet(b: RAMBlock, off: nat, page: seq<byte>, q: nat)
    requires off % TARGET_PAGE_SIZE == 0 && q % TARGET_PAGE_SIZE == 0
    requires off + TARGET_PAGE_SIZE <= |b.host| && q + TARGET_PAGE_SIZE <= |b.host|
    requires |page| == TARGET_PAGE_SIZE
    ensures PageAt(SetPage(b, off, page), q) == if q == off then page else PageAt(b, q)
  {
    var h, n := b.host, TARGET_PAGE_SIZE;
    assert q != off ==> q + n <= off || off + n <= q;
    SpliceAt(h, off, page, q, n);
  }

  /** A slice of a splice that lies on it or beside it. */
  lemma SpliceAt(h: seq<byte>, off: nat, page: seq<byte>, q: nat, n: nat)
    requires |page| == n && off + n <= |h| && q + n <= |h|
    requires q == off || q + n <= off || off + n <= q
    ensures (h[..off] + page + h[off + n..])[q..q + n] == if q == off then page else h[q..q + n]
  {
    var s := h[..off] + page + h[off + n..];
    var t := if q == off then page else h[q..q + n];
    forall i | 0 <= i < n ensures s[q..q + n][i] == t[i] {
      assert s[q..q + n][i] == s[q + i];
    }
  }

  /** Blocks that agree page by page hold the same bytes. */
  lemma SamePagesSameHost(a: RAMBlock, b: RAMBlock)
    requires |a.host| == |b.host| && |a.host| % TARGET_PAGE_SIZE == 0
    requires forall off: nat :: off % TARGET_PAGE_SIZE == 0 && off + TARGET_PAGE_SIZE <= |a.host| ==>
               PageAt(a, off) == PageAt(b, off)
    ensures a.host == b.host
  {
    forall k | 0 <= k < |a.host| ensures a.host[k] == b.host[k] {
      var off := k - k % TARGET_PAGE_SIZE;
      assert PageAt(a, off)[k - off] == PageAt(b, off)[k - off];
    }
  }
}
