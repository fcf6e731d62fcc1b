/** The sending half of RAM migration as it runs (`arch_init.c`, `cpu-all.h`):
    the statics, the scan for the next dirty page and the three stages.

    `events` records the run so far, so that what is proved about runs holds of
    every sequence of calls. */
module RamSaver {
  import opened Bits
  import opened Wire
  import opened RamList
  import opened RamStream
  import opened RamRun

  // -------------------------------------------------------- dirty counts

  function BlockDirty(bs: seq<RAMBlock>, flags: seq<bv8>, b: nat, k: nat): nat
    requires b < |bs| && bs[b].offset + TARGET_PAGE_SIZE * k <= TARGET_PAGE_SIZE * |flags|
  {
    if k == 0 then 0
    else BlockDirty(bs, flags, b, k - 1) + if Dirty(bs, flags, Pos(b, TARGET_PAGE_SIZE * (k - 1))) then 1 else 0
  }

  lemma BlockDirtyNone(bs: seq<RAMBlock>, flags: seq<bv8>, b: nat)
    requires b < |bs| && bs[b].offset <= TARGET_PAGE_SIZE * |flags|
    ensures BlockDirty(bs, flags, b, 0) == 0
  {
  }

  lemma BlockDirtyStep(bs: seq<RAMBlock>, flags: seq<bv8>, b: nat, k: nat)
    requires b < |bs| && bs[b].offset + TARGET_PAGE_SIZE * (k + 1) <= TARGET_PAGE_SIZE * |flags|
    ensures BlockDirty(bs, flags, b, k + 1) == BlockDirty(bs, flags, b, k)
              + if GetDirty(flags, (bs[b].offset + TARGET_PAGE_SIZE * k) / TARGET_PAGE_SIZE) then 1 else 0
  {
  }

  /** Dirty pages in the first `n` blocks. */
  ghost function ListDirty(bs: seq<RAMBlock>, flags: seq<bv8>, n: nat): nat
    requires FlagsCover(bs, flags) && n <= |bs|
  {
    if n == 0 then 0
    else
      ListDirty(bs, flags, n - 1) + BlockDirty(bs, flags, n - 1, Pages(bs[n - 1]))
  }

  ghost function Remaining(s: Sender): nat
    requires FlagsCover(s.blocks, s.flags)
  {
    ListDirty(s.blocks, s.flags, |s.blocks|)
  }

  /** `t` is `s` with page `p` cleaned. */
  ghost predicate CleanedOne(s: Sender, t: Sender, p: Pos) {
    && ValidList(s.blocks) && t.blocks == s.blocks
    && FlagsCover(s.blocks, s.flags) && FlagsCover(s.blocks, t.flags)
    && ValidPos(s.blocks, p) && IsDirty(s, p)
    && forall q :: ValidPos(s.blocks, q) ==> (IsDirty(t, q) <==> q != p && IsDirty(s, q))
  }

  lemma {:induction false} BlockDirtyUpdate(s: Sender, t: Sender, p: Pos, b: nat, k: nat)
    requires CleanedOne(s, t, p) && b < |s.blocks| && TARGET_PAGE_SIZE * k <= s.blocks[b].length
    ensures BlockDirty(t.blocks, t.flags, b, k)
         == BlockDirty(s.blocks, s.flags, b, k) - (if p.b == b && p.off < TARGET_PAGE_SIZE * k then 1 else 0)
    decreases k
  {
    hide Flagged, Apart, FlagsCover, ValidBlock;
    if k > 0 {
      BlockDirtyUpdate(s, t, p, b, k - 1);
      var q := Pos(b, TARGET_PAGE_SIZE * (k - 1));
      assert ValidPos(s.blocks, q);
      assert IsDirty(t, q) <==> q != p && IsDirty(s, q);
    }
  }

  lemma WholePages(bs: seq<RAMBlock>, b: nat)
    requires ValidList(bs) && b < |bs|
    ensures TARGET_PAGE_SIZE * Pages(bs[b]) == bs[b].length
  {
    assert ValidBlock(bs[b]);
  }

  lemma ListDirtyNone(bs: seq<RAMBlock>, flags: seq<bv8>)
    requires FlagsCover(bs, flags)
    ensures ListDirty(bs, flags, 0) == 0
  {
  }

  lemma ListDirtyStep(bs: seq<RAMBlock>, flags: seq<bv8>, n: nat, b: RAMBlock)
    requires FlagsCover(bs, flags) && n < |bs| && b == bs[n] && TARGET_PAGE_SIZE * Pages(b) == b.length
    ensures ListDirty(bs, flags, n + 1) == ListDirty(bs, flags, n) + BlockDirty(bs, flags, n, Pages(b))
  {
  }

  lemma CleanedFacts(s: Sender, t: Sender, p: Pos)
    requires CleanedOne(s, t, p)
    ensures ValidList(s.blocks) && FlagsCover(s.blocks, s.flags) && FlagsCover(t.blocks, t.flags)
    ensures t.blocks == s.blocks && p.b < |s.blocks| && p.off < s.blocks[p.b].length
  {
  }

  lemma {:induction false} ListDirtyUpdate(s: Sender, t: Sender, p: Pos, n: nat)
    requires CleanedOne(s, t, p) && n <= |s.blocks|
    ensures ListDirty(t.blocks, t.flags, n) == ListDirty(s.blocks, s.flags, n) - (if p.b < n then 1 else 0)
    decreases n
  {
    hide CleanedOne, BlockDirty, ListDirty, IsDirty, Pages, ValidList, FlagsCover;
    CleanedFacts(s, t, p);
    if n > 0 {
      var b := s.blocks[n - 1];
      WholePages(s.blocks, n - 1);
      ListDirtyUpdate(s, t, p, n - 1);
      BlockDirtyUpdate(s, t, p, n - 1, Pages(b));
      ListDirtyStep(s.blocks, s.flags, n - 1, b);
      ListDirtyStep(s.blocks, t.flags, n - 1, b);
    } else {
      ListDirtyNone(s.blocks, s.flags);
      ListDirtyNone(s.blocks, t.flags);
    }
  }

  /** Each page sent is one page less to send. */
  lemma SendingCounts(s: Sender, p: Pos)
    requires ValidSender(s) && IsNext(s, p)
    ensures PageNo(s.blocks, p) < |s.flags|
    ensures ValidSender(Sent(s, p)) && Remaining(Sent(s, p)) == Remaining(s) - 1
  {
    AfterSent(s, p);
    ListDirtyUpdate(s, Sent(s, p), p, |s.blocks|);
  }

  lemma RecordIgnoresFlags(s: Sender, t: Sender, p: Pos)
    requires ValidList(s.blocks) && ValidPos(s.blocks, p) && t.blocks == s.blocks && t.last == s.last
    ensures Record(t, p) == Record(s, p)
  {
    hide Header, Be64;
  }

  lemma MarkedOne(s: Sender, flags: seq<bv8>, p: Pos)
    requires ValidList(s.blocks) && FlagsCover(s.blocks, s.flags) && ValidPos(s.blocks, p)
    requires PageNo(s.blocks, p) < |s.flags|
    requires flags == (if GetDirty(s.flags, PageNo(s.blocks, p)) then s.flags else s.flags[PageNo(s.blocks, p) := 0xff])
    ensures forall q :: ValidPos(s.blocks, q) && (q == p || IsDirty(s, q)) ==> IsDirty(s.(flags := flags), q)
  {
    forall q | ValidPos(s.blocks, q) && (q == p || IsDirty(s, q)) ensures IsDirty(s.(flags := flags), q) {
      FlagUpdate(s, p, q, 0xff);
    }
  }

  lemma EntriesFrom(bs: seq<RAMBlock>, i: nat, list: seq<byte>)
    requires i < |bs| && forall k :: 0 <= k < |bs| ==> ValidBlock(bs[k])
    ensures ValidBlock(bs[i])
    ensures list + Entries(bs[i..]) == (list + PutName(bs[i].idstr) + Be64(bs[i].length)) + Entries(bs[i + 1..])
  {
    hide Be64;
    assert ValidBlock(bs[i]);
    assert bs[i..][0] == bs[i] && bs[i..][1..] == bs[i + 1..];
    var a, b, c := PutName(bs[i].idstr), Be64(bs[i].length), Entries(bs[i + 1..]);
    assert Entries(bs[i..]) == a + b + c;
    assert list + (a + b + c) == list + a + b + c;
  }

  // ------------------------------------------------------ sorting the list

  predicate SortedByOffset(bs: seq<RAMBlock>) {
    forall i, j :: 0 <= i < j < |bs| ==> bs[i].offset <= bs[j].offset
  }

  /** Where `block_compar`'s order puts `b` in a sorted list. */
  function Slot(b: RAMBlock, bs: seq<RAMBlock>): (k: nat)
    ensures k <= |bs| && (forall i :: 0 <= i < k ==> bs[i].offset < b.offset)
    ensures k < |bs| ==> b.offset <= bs[k].offset
  {
    if |bs| == 0 || b.offset <= bs[0].offset then 0 else 1 + Slot(b, bs[1..])
  }

  function InsertAt(b: RAMBlock, bs: seq<RAMBlock>, k: nat): (r: seq<RAMBlock>)
    requires k <= |bs|
    ensures |r| == |bs| + 1
    ensures forall i :: 0 <= i < |r| ==> r[i] == if i < k then bs[i] else if i == k then b else bs[i - 1]
  {
    bs[..k] + [b] + bs[k..]
  }

  /** `qsort` with `block_compar`. */
  function SortByOffset(bs: seq<RAMBlock>): (r: seq<RAMBlock>)
    ensures |r| == |bs|
  {
    if |bs| == 0 then []
    else
      var t := SortByOffset(bs[1..]);
      InsertAt(bs[0], t, Slot(bs[0], t))
  }

  lemma {:induction false} SortIsSorted(bs: seq<RAMBlock>)
    ensures SortedByOffset(SortByOffset(bs))
  {
    if |bs| > 0 {
      hide SortByOffset;
      SortIsSorted(bs[1..]);
      var t := SortByOffset(bs[1..]);
      var k := Slot(bs[0], t);
      InsertIsSorted(bs[0], t, k);
      SortUnfold(bs);
    }
  }

  lemma SortUnfold(bs: seq<RAMBlock>)
    requires |bs| > 0
    ensures SortByOffset(bs) == InsertAt(bs[0], SortByOffset(bs[1..]), Slot(bs[0], SortByOffset(bs[1..])))
  {
  }

  lemma InsertIsSorted(b: RAMBlock, t: seq<RAMBlock>, k: nat)
    requires SortedByOffset(t) && k == Slot(b, t)
    ensures SortedByOffset(InsertAt(b, t, k))
  {
    hide Slot;
    var r := InsertAt(b, t, k);
    forall i, j | 0 <= i < j < |r| ensures r[i].offset <= r[j].offset {
      if i == k && k < j - 1 { assert t[k].offset <= t[j - 1].offset; }
    }
  }

  lemma {:induction false} SortIsPermutation(bs: seq<RAMBlock>)
    ensures multiset(SortByOffset(bs)) == multiset(bs)
    ensures TotalBytes(SortByOffset(bs)) == TotalBytes(bs)
  {
    if |bs| > 0 {
      hide InsertAt, Slot;
      SortIsPermutation(bs[1..]);
      var t := SortByOffset(bs[1..]);
      InsertCounts(bs[0], t, Slot(bs[0], t));
      assert bs == [bs[0]] + bs[1..];
    }
  }

  lemma InsertCounts(b: RAMBlock, t: seq<RAMBlock>, k: nat)
    requires k <= |t|
    ensures multiset(InsertAt(b, t, k)) == multiset(t) + multiset{b}
    ensures TotalBytes(InsertAt(b, t, k)) == TotalBytes(t) + b.length
  {
    hide TotalBytes;
    assert t == t[..k] + t[k..];
    TotalConcat(t[..k], t[k..]);
    TotalConcat(t[..k] + [b], t[k..]);
    TotalConcat(t[..k], [b]);
    TotalOne(b);
  }

  lemma TotalOne(b: RAMBlock)
    ensures TotalBytes([b]) == b.length
  {
  }

  lemma {:induction false} TotalConcat(a: seq<RAMBlock>, b: seq<RAMBlock>)
    ensures TotalBytes(a + b) == TotalBytes(a) + TotalBytes(b)
  {
    if |a| == 0 {
      assert a + b == b;
    } else {
      assert (a + b)[1..] == a[1..] + b;
      TotalConcat(a[1..], b);
    }
  }

  ghost predicate AllApart(bs: seq<RAMBlock>) {
    forall i, j :: 0 <= i < |bs| && 0 <= j < |bs| && i != j ==> Apart(bs[i], bs[j])
  }

  lemma SortKeepsValid(bs: seq<RAMBlock>)
    requires ValidList(bs)
    ensures ValidList(SortByOffset(bs))
    ensures forall flags :: FlagsCover(bs, flags) ==> FlagsCover(SortByOffset(bs), flags)
  {
    hide SortByOffset, ValidBlock, Apart;
    forall i, j | 0 <= i < |bs| && 0 <= j < |bs| && i != j ensures Apart(bs[i], bs[j]) {
      if j < i {
        assert Apart(bs[j], bs[i]);
        ApartBothWays(bs[j], bs[i]);
      }
    }
    SortKeepsApart(bs);
    SortKeepsMembers(bs);
    var r := SortByOffset(bs);
    forall flags | FlagsCover(bs, flags) ensures FlagsCover(r, flags) {
      forall i | 0 <= i < |r| ensures r[i].offset + r[i].length <= TARGET_PAGE_SIZE * |flags| {
        assert r[i] in bs;
      }
    }
  }

  lemma ApartBothWays(a: RAMBlock, b: RAMBlock)
    ensures Apart(a, b) ==> Apart(b, a)
  {
  }

  lemma SortKeepsMembers(bs: seq<RAMBlock>)
    ensures forall i :: 0 <= i < |bs| ==> SortByOffset(bs)[i] in bs
  {
    hide SortByOffset;
    SortIsPermutation(bs);
    var r := SortByOffset(bs);
    forall i | 0 <= i < |bs| ensures r[i] in bs { assert r[i] in multiset(r); }
  }

  lemma {:induction false} SortKeepsApart(bs: seq<RAMBlock>)
    requires AllApart(bs)
    ensures AllApart(SortByOffset(bs))
  {
    hide SortByOffset, Apart;
    if |bs| > 0 {
      var b, u := bs[0], bs[1..];
      var t := SortByOffset(u);
      forall i, j | 0 <= i < |u| && 0 <= j < |u| && i != j ensures Apart(u[i], u[j]) {
        assert u[i] == bs[i + 1] && u[j] == bs[j + 1];
      }
      SortKeepsApart(u);
      SortKeepsMembers(u);
      forall i | 0 <= i < |t| ensures Apart(b, t[i]) && Apart(t[i], b) {
        var k :| 0 <= k < |u| && u[k] == t[i];
        assert u[k] == bs[k + 1];
      }
      InsertKeepsApart(b, t, Slot(b, t));
      SortUnfold(bs);
    }
  }

  lemma InsertKeepsApart(b: RAMBlock, t: seq<RAMBlock>, k: nat)
    requires AllApart(t) && k <= |t| && forall i :: 0 <= i < |t| ==> Apart(b, t[i]) && Apart(t[i], b)
    ensures AllApart(InsertAt(b, t, k))
  {
    hide Apart;
    var r := InsertAt(b, t, k);
    forall i, j | 0 <= i < |r| && 0 <= j < |r| && i != j ensures Apart(r[i], r[j]) {
    }
  }

  // ------------------------------------------------------------- helpers

  function Load32(page: seq<byte>, at: nat): nat
    requires at + 4 <= |page|
  {
    var b0: nat, b1: nat, b2: nat, b3: nat := page[at], page[at + 1], page[at + 2], page[at + 3];
    b0 + 0x100 * b1 + 0x1_0000 * b2 + 0x100_0000 * b3
  }

  lemma Load32Repeats(page: seq<byte>, at: nat, ch: byte)
    requires at + 4 <= |page|
    ensures Load32(page, at) == 0x101_0101 * ch
       <==> page[at] == ch && page[at + 1] == ch && page[at + 2] == ch && page[at + 3] == ch
  {
    if Load32(page, at) == 0x101_0101 * ch {
      Digits256(page[at], page[at + 1], page[at + 2], page[at + 3], ch);
    }
  }

  lemma Digits256(b0: byte, b1: byte, b2: byte, b3: byte, ch: byte)
    requires (b0 as int) + 0x100 * b1 + 0x1_0000 * b2 + 0x100_0000 * b3 == 0x101_0101 * ch
    ensures b0 == ch && b1 == ch && b2 == ch && b3 == ch
  {
    assert b0 == ch;
    assert (b1 as int) + 0x100 * b2 + 0x1_0000 * b3 == 0x1_0101 * ch;
    assert b1 == ch;
  }

  /** `is_dup_page`: four bytes at a time. */
  method IsDupPage(page: seq<byte>, ch: byte) returns (r: bool)
    requires |page| == TARGET_PAGE_SIZE
    ensures r <==> forall k :: 0 <= k < |page| ==> page[k] == ch
  {
    var val := 0x101_0101 * ch;     // ch << 24 | ch << 16 | ch << 8 | ch
    var i := 0;
    while i < TARGET_PAGE_SIZE / 4
      invariant 0 <= i <= TARGET_PAGE_SIZE / 4
      invariant forall k :: 0 <= k < 4 * i ==> page[k] == ch
    {
      Load32Repeats(page, 4 * i, ch);
      if Load32(page, 4 * i) != val { return false; }
      i := i + 1;
    }
    return true;
  }

  /** What a page counts for: one byte if all its bytes are equal, else all of it. */
  function PageCost(blocks: seq<RAMBlock>, p: Pos): (n: nat)
    requires ValidList(blocks) && ValidPos(blocks, p)
    ensures n > 0
  {
    PageInside(blocks, p);
    var page := PageAt(blocks[p.b], p.off);
    if forall k :: 0 <= k < |page| ==> page[k] == page[0] then 1 else TARGET_PAGE_SIZE
  }

  /** The first `k` pages of the scan are clean. */
  ghost predicate Scanned(s: Sender, k: int)
    requires ValidSender(s)
  {
    forall q :: ValidPos(s.blocks, q) && Dist(s.blocks, Start(s), q) < k ==> !IsDirty(s, q)
  }

  /** The scan stands at `p` after `k` pages; after all of them it is back. */
  ghost predicate ScanAt(s: Sender, p: Pos, k: int)
    requires ValidSender(s)
  {
    && ValidPos(s.blocks, p) && 0 <= k <= PageCount(s.blocks) && Scanned(s, k)
    && if k < PageCount(s.blocks) then Dist(s.blocks, Start(s), p) == k else p == Start(s)
  }

  lemma ScanStarts(s: Sender)
    requires ValidSender(s)
    ensures ScanAt(s, Start(s), 0) && PageCount(s.blocks) > 0
  {
    DistIdentifies(s.blocks, Start(s), Start(s), Start(s));
    forall q | ValidPos(s.blocks, q) ensures Dist(s.blocks, Start(s), q) >= 0 {
      DistIdentifies(s.blocks, Start(s), q, q);
    }
  }

  /** One clean page more has been passed by the scan. */
  lemma ScanPasses(s: Sender, p: Pos, k: nat)
    requires ValidSender(s) && ScanAt(s, p, k) && k < PageCount(s.blocks) && !IsDirty(s, p)
    ensures s.last >= 0 && ScanAt(s, Next(s.blocks, p), k + 1)
  {
    DistNext(s.blocks, Start(s), p);
    forall q | ValidPos(s.blocks, q) && Dist(s.blocks, Start(s), q) < k + 1 ensures !IsDirty(s, q) {
      DistIdentifies(s.blocks, Start(s), q, p);
    }
  }

  lemma ScanPlace(s: Sender, p: Pos, k: nat)
    requires ValidSender(s) && ScanAt(s, p, k)
    ensures ValidPos(s.blocks, p) && k <= PageCount(s.blocks)
  {
  }

  lemma SomeDirty(s: Sender, p: Pos)
    requires ValidSender(s) && ValidPos(s.blocks, p) && IsDirty(s, p)
    ensures !NoDirty(s)
  {
  }

  lemma ScanFinds(s: Sender, p: Pos, k: nat)
    requires ValidSender(s) && ScanAt(s, p, k) && k < PageCount(s.blocks) && IsDirty(s, p)
    ensures IsNext(s, p)
  {
  }

  /** Back at the start after at least one page, the scan has seen them all. */
  lemma ScanEnds(s: Sender, p: Pos, k: nat)
    requires ValidSender(s) && ScanAt(s, p, k) && k > 0 && s.last >= 0
    ensures Addr(s.blocks, p) == Addr(s.blocks, Start(s)) <==> k == PageCount(s.blocks)
    ensures k == PageCount(s.blocks) ==> p == Start(s) && NoDirty(s)
  {
    AddrIdentifies(s.blocks, p, Start(s));
    DistIdentifies(s.blocks, Start(s), Start(s), Start(s));
    if k == PageCount(s.blocks) {
      forall q | ValidPos(s.blocks, q) ensures !IsDirty(s, q) {
        DistIdentifies(s.blocks, Start(s), q, q);
      }
    }
  }

  /** What `qemu_file_rate_limit` answers next: 0 to go on, 1 to stop, negative
      for an error.  With no more answers it says stop. */
  function NextLimit(limits: seq<int>): (r: int) {
    if limits == [] then 1 else limits[0]
  }

  /** How many times the rate limit says go on. */
  function Allowed(limits: seq<int>): (k: nat)
    ensures k <= |limits| && NextLimit(limits[k..]) != 0
    ensures forall i :: 0 <= i < k ==> limits[i] == 0
  {
    if NextLimit(limits) != 0 then 0 else 1 + Allowed(limits[1..])
  }

  /** What is left of `n` dirty pages. */
  function Left(limits: seq<int>, n: nat): (r: nat) {
    if Allowed(limits) < n then n - Allowed(limits) else 0
  }

  /** The answer that stopped the loop, or 0 if it ran out of dirty pages first. */
  function Stopped(limits: seq<int>, n: nat): (r: int) {
    if Allowed(limits) > n then 0 else NextLimit(limits[Allowed(limits)..])
  }

  lemma AllowedMore(limits: seq<int>, i: nat)
    requires i <= |limits| && NextLimit(limits[i..]) == 0
    ensures i < |limits| && Allowed(limits[i..]) == 1 + Allowed(limits[i + 1..])
  {
    assert limits[i..][1..] == limits[i + 1..];
  }

  lemma AllowedNone(limits: seq<int>)
    requires NextLimit(limits) != 0
    ensures Allowed(limits) == 0
  {
  }

  /** With no page dirty nothing remains. */
  lemma {:induction false} NoneRemain(s: Sender, n: nat)
    requires ValidList(s.blocks) && FlagsCover(s.blocks, s.flags) && NoDirty(s) && n <= |s.blocks|
    ensures ListDirty(s.blocks, s.flags, n) == 0
  {
    hide NoDirty, BlockDirty, Pages, ValidList;
    if n > 0 {
      NoneRemain(s, n - 1);
      WholePages(s.blocks, n - 1);
      NoneInBlock(s, n - 1, Pages(s.blocks[n - 1]));
    }
  }

  lemma {:induction false} NoneInBlock(s: Sender, b: nat, k: nat)
    requires ValidList(s.blocks) && FlagsCover(s.blocks, s.flags) && NoDirty(s)
    requires b < |s.blocks| && TARGET_PAGE_SIZE * k <= s.blocks[b].length
    ensures s.blocks[b].offset + TARGET_PAGE_SIZE * k <= TARGET_PAGE_SIZE * |s.flags|
    ensures BlockDirty(s.blocks, s.flags, b, k) == 0
  {
    if k > 0 {
      NoneInBlock(s, b, k - 1);
      assert !IsDirty(s, Pos(b, TARGET_PAGE_SIZE * (k - 1)));
    }
  }

  /** The rate limiter never answers with an error. */
  predicate NoError(limits: seq<int>) {
    forall i :: 0 <= i < |limits| ==> limits[i] >= 0
  }

  class Saver {
    var blocks: seq<RAMBlock>
    const physDirty: array<bv8>
    var lastBlock: int          // list index, -1 for NULL
    var lastOffset: nat
    var bytesTransferred: nat
    var f: seq<byte>             // what has been put on the QEMUFile
    ghost var open: bool
    ghost var begun: Sys
    ghost var events: seq<Event>

    constructor (bs: seq<RAMBlock>, dirty: array<bv8>)
      ensures blocks == bs && physDirty == dirty && f == []
    {
      blocks, physDirty, f := bs, dirty, [];
      lastBlock, lastOffset, bytesTransferred := -1, 0, 0;
      open, begun, events := false, Sys(Sender(bs, [], -1, 0), [], false), [];
    }

    ghost function State(): Sender
      reads this, physDirty
    {
      Sender(blocks, physDirty[..], lastBlock, lastOffset)
    }

    ghost function Now(): Sys
      reads this, physDirty
    {
      Sys(State(), f, open)
    }

    /** The current state is where the recorded run has led. */
    ghost predicate Migrating()
      reads this, physDirty
    {
      && Begun(begun) && ValidSender(State())
      && ValidRun(begun, events) && Run(begun, events) == Now()
    }

    /** `cpu_physical_memory_mask_dirty_range`. */
    method MaskDirtyRange(start: nat, length: nat, dirtyFlags: bv8)
      requires start / TARGET_PAGE_SIZE + length / TARGET_PAGE_SIZE <= physDirty.Length
      modifies physDirty
      ensures forall i :: 0 <= i < physDirty.Length ==>
                (physDirty[i] ==
                 if start / TARGET_PAGE_SIZE <= i < start / TARGET_PAGE_SIZE + length / TARGET_PAGE_SIZE
                 then MaskOff(old(physDirty[i]), dirtyFlags) else old(physDirty[i]))
    {
      hide MaskOff;
      var len, p, i := length / TARGET_PAGE_SIZE, start / TARGET_PAGE_SIZE, 0;
      while i < len
        invariant 0 <= i <= len
        invariant forall k :: 0 <= k < physDirty.Length ==>
                    (physDirty[k] ==
                     if p <= k < p + i then MaskOff(old(physDirty[k]), dirtyFlags) else old(physDirty[k]))
      {
        physDirty[p + i] := MaskOff(physDirty[p + i], dirtyFlags);
        i := i + 1;
      }
    }

    /** A guest store into page `p`. */
    method GuestStore(p: Pos, page: seq<byte>)
      requires Migrating() && ValidPos(blocks, p) && |page| == TARGET_PAGE_SIZE
      modifies this, physDirty
      ensures Migrating() && begun == old(begun) && events == old(events) + [GuestWrite(p, page)]
      ensures f == old(f) && open == old(open)
      ensures p.off + TARGET_PAGE_SIZE <= |old(blocks)[p.b].host|
      ensures blocks == old(blocks)[p.b := SetPage(old(blocks)[p.b], p.off, page)]
    {
      hide Run, ValidRun, Begun, IsNext, AllDirty, IsDirty, ValidList, WriteFlags;
      ghost var y := Now();
      AfterWritten(State(), p, page);
      var n := PageNo(blocks, p);
      blocks := blocks[p.b := SetPage(blocks[p.b], p.off, page)];
      physDirty[n] := WriteFlags(physDirty[n]);
      assert State() == Written(y.sender, p, page);
      RunExtended(begun, events, GuestWrite(p, page));
      events := events + [GuestWrite(p, page)];
    }

    /** The bytes of one page record, put the way the source puts them. */
    method PutRecord(block: nat, offset: nat) returns (bytesSent: nat)
      requires ValidList(blocks) && ValidPos(blocks, Pos(block, offset))
      modifies this`f
      ensures f == old(f) + Record(State(), Pos(block, offset))
      ensures bytesSent == PageCost(blocks, Pos(block, offset))
    {
      hide Header, Be64;
      ghost var s, p := State(), Pos(block, offset);
      PageInside(blocks, p);
      assert ValidBlock(blocks[block]);
      var cont := block == lastBlock;
      var page := PageAt(blocks[block], offset);
      var dup := IsDupPage(page, page[0]);
      var out;
      if dup {
        out := Be64(Header(offset, cont, RAM_SAVE_FLAG_COMPRESS));
        if !cont { out := out + PutName(blocks[block].idstr); }
        out := out + [page[0]];
        bytesSent := 1;
      } else {
        out := Be64(Header(offset, cont, RAM_SAVE_FLAG_PAGE));
        if !cont { out := out + PutName(blocks[block].idstr); }
        out := out + page;
        bytesSent := TARGET_PAGE_SIZE;
      }
      assert dup <==> IsDup(page);
      assert out == Record(s, p);
      f := f + out;
    }

    /** The dirty branch of `ram_save_block`: clean the flag, put the record,
        remember the page. */
    method SendPage(block: nat, offset: nat) returns (bytesSent: nat)
      requires Migrating() && IsNext(State(), Pos(block, offset))
      modifies this, physDirty
      ensures Migrating() && begun == old(begun) && blocks == old(blocks)
      ensures bytesSent == PageCost(blocks, Pos(block, offset))
      ensures events == old(events) + [Save(Pos(block, offset))]
      ensures Remaining(State()) == old(Remaining(State())) - 1
    {
      hide Record, Run, ValidRun, Dist, ListDirty, MaskOff, Flagged;
      ghost var y, p := Now(), Pos(block, offset);
      PageNoBound(blocks, physDirty[..], p);
      SendingCounts(y.sender, p);
      MaskDirtyRange(blocks[block].offset + offset, TARGET_PAGE_SIZE, MIGRATION_DIRTY_FLAG);
      bytesSent := PutRecord(block, offset);
      RecordIgnoresFlags(y.sender, State(), p);
      lastBlock := block;
      lastOffset := offset;
      open := true;
      assert State() == Sent(y.sender, p);
      RunExtended(begun, events, Save(p));
      events := events + [Save(p)];
    }

    /** `ram_save_block`: nothing is sent exactly when no page is dirty;
        otherwise the next dirty page after the last one is sent and cleaned. */
    method RamSaveBlock() returns (bytesSent: nat, ghost p: Pos)
      requires Migrating()
      modifies this, physDirty
      ensures Migrating() && begun == old(begun) && blocks == old(blocks)
      ensures bytesSent == 0 <==> NoDirty(old(State()))
      ensures bytesSent == 0 ==> Now() == old(Now()) && events == old(events)
      ensures bytesSent != 0 ==> IsNext(old(State()), p) && events == old(events) + [Save(p)]
      ensures bytesSent != 0 ==> Remaining(State()) == old(Remaining(State())) - 1
      ensures bytesSent != 0 ==> bytesSent == PageCost(blocks, p)
    {
      hide Run, ValidRun, ListDirty, Begun, Record, Dist, PageCount, Scanned, ScanAt, AllDirty, NoDirty, IsNext;
      hide PageCost;
      ghost var y, s := Now(), State();
      var block, offset := lastBlock, lastOffset;
      if block < 0 { block := 0; }
      var currentAddr := blocks[block].offset + offset;
      bytesSent := 0;
      var again := false;
      ghost var k := 0;
      ScanStarts(s);
      while !again || currentAddr != blocks[lastBlock].offset + lastOffset
        invariant Now() == y && events == old(events) && begun == old(begun) && bytesSent == 0
        invariant 0 <= block && 0 <= offset && ScanAt(s, Pos(block, offset), k)
        invariant ValidPos(blocks, Pos(block, offset)) && currentAddr == Addr(blocks, Pos(block, offset))
        invariant again <==> k > 0
        invariant again ==> lastBlock >= 0
        invariant 0 <= k <= PageCount(blocks) && PageCount(blocks) > 0
        decreases PageCount(blocks) - k
      {
        p := Pos(block, offset);
        if again { ScanEnds(s, p, k); }
        PageNoBound(blocks, physDirty[..], p);
        if GetDirty(physDirty[..], currentAddr / TARGET_PAGE_SIZE) {
          ScanFinds(s, p, k);
          SomeDirty(s, p);
          bytesSent := SendPage(block, offset);
          return;
        }
        ScanPasses(s, p, k);
        offset := offset + TARGET_PAGE_SIZE;
        if offset >= blocks[block].length {
          offset := 0;
          block := block + 1;
          if block >= |blocks| { block := 0; }
        }
        assert Pos(block, offset) == Next(blocks, p);
        ScanPlace(s, Pos(block, offset), k + 1);
        currentAddr := blocks[block].offset + offset;
        again := true;
        k := k + 1;
      }
      ScanEnds(s, Pos(block, offset), k);
      p := Pos(block, offset);
      lastBlock := block;
      lastOffset := offset;
    }

    /** `ram_save_remaining`. */
    method RamSaveRemaining() returns (count: nat)
      requires ValidList(blocks) && FlagsCover(blocks, physDirty[..])
      ensures count == Remaining(State())
    {
      hide BlockDirty;
      count := 0;
      var i := 0;
      while i < |blocks|
        invariant 0 <= i <= |blocks|
        invariant count == ListDirty(blocks, physDirty[..], i)
      {
        assert ValidBlock(blocks[i]);
        BlockDirtyNone(blocks, physDirty[..], i);
        var k := 0;               // addr == block->offset + k * TARGET_PAGE_SIZE
        while blocks[i].offset + TARGET_PAGE_SIZE * k < blocks[i].offset + blocks[i].length
          invariant 0 <= k <= Pages(blocks[i])
          invariant count == ListDirty(blocks, physDirty[..], i) + BlockDirty(blocks, physDirty[..], i, k)
        {
          BlockDirtyStep(blocks, physDirty[..], i, k);
          if GetDirty(physDirty[..], (blocks[i].offset + TARGET_PAGE_SIZE * k) / TARGET_PAGE_SIZE) {
            count := count + 1;
          }
          k := k + 1;
        }
        i := i + 1;
      }
    }

    /** `sort_ram_list`: the list is emptied, sorted by address, and refilled
        from the back. */
    method SortRamList()
      requires ValidList(blocks)
      modifies this`blocks
      ensures ValidList(blocks) && multiset(blocks) == multiset(old(blocks)) && SortedByOffset(blocks)
      ensures blocks == SortByOffset(old(blocks))
      ensures TotalBytes(blocks) == TotalBytes(old(blocks))
      ensures forall flags :: FlagsCover(old(blocks), flags) ==> FlagsCover(blocks, flags)
    {
      hide SortByOffset, ValidList, FlagsCover, TotalBytes, SortedByOffset;
      var sorted := SortByOffset(blocks);
      SortIsSorted(blocks);
      SortIsPermutation(blocks);
      SortKeepsValid(blocks);
      var n := |sorted|;
      var list := [];
      while n > 0
        invariant 0 <= n <= |sorted| && list == sorted[n..]
      {
        n := n - 1;
        list := [sorted[n]] + list;
      }
      blocks := list;
    }

    /** Stage 1 marks every page that is not dirty yet. */
    method MarkAllDirty()
      requires ValidList(blocks) && FlagsCover(blocks, physDirty[..])
      modifies physDirty
      ensures AllDirty(State())
    {
      hide Dirty, Apart, Flagged;
      var i := 0;
      while i < |blocks|
        invariant 0 <= i <= |blocks|
        invariant forall q :: ValidPos(blocks, q) && q.b < i ==> IsDirty(State(), q)
      {
        assert ValidBlock(blocks[i]);
        var off := 0;
        while off < blocks[i].length
          invariant 0 <= off <= blocks[i].length && off % TARGET_PAGE_SIZE == 0
          invariant forall q :: ValidPos(blocks, q) && (q.b < i || (q.b == i && q.off < off)) ==> IsDirty(State(), q)
        {
          ghost var before := State();
          PageNoBound(blocks, physDirty[..], Pos(i, off));
          var n := (blocks[i].offset + off) / TARGET_PAGE_SIZE;
          if !GetDirty(physDirty[..], n) { physDirty[n] := 0xff; }
          MarkedOne(before, physDirty[..], Pos(i, off));
          off := off + TARGET_PAGE_SIZE;
        }
        i := i + 1;
      }
    }

    /** `ram_bytes_total`. */
    method RamBytesTotal() returns (total: nat)
      ensures total == TotalBytes(blocks)
    {
      total := 0;
      var i := 0;
      while i < |blocks|
        invariant 0 <= i <= |blocks| && total + TotalBytes(blocks[i..]) == TotalBytes(blocks)
      {
        total := total + blocks[i].length;
        i := i + 1;
      }
    }

    /** The size record and block list of stage 1. */
    method PutBlockList()
      requires ValidList(blocks) && TotalBytes(blocks) < WORD_LIMIT
      modifies this`f
      ensures f == old(f) + SizeRecord(blocks)
    {
      hide Be64, OrW;
      var total := RamBytesTotal();
      var head := Be64(OrW(total, RAM_SAVE_FLAG_MEM_SIZE));
      var list := [];
      var i := 0;
      assert blocks[0..] == blocks;
      while i < |blocks|
        invariant 0 <= i <= |blocks|
        invariant list + Entries(blocks[i..]) == Entries(blocks) && f == old(f)
      {
        EntriesFrom(blocks, i, list);
        list := list + PutName(blocks[i].idstr) + Be64(blocks[i].length);
        i := i + 1;
      }
      assert blocks[i..] == [];
      assert list + [] == list;
      f := f + (head + list);
    }

    /** The `stage == 1` branch of `ram_save_live`. */
    method BeginMigration()
      requires ValidList(blocks) && FlagsCover(blocks, physDirty[..])
      requires TotalBytes(blocks) < WORD_LIMIT && f == []
      modifies this, physDirty
      ensures Migrating() && events == [] && multiset(blocks) == multiset(old(blocks))
      ensures blocks == SortByOffset(old(blocks))
      ensures f == SizeRecord(blocks) && open && SortedByOffset(blocks) && begun.sender.blocks == blocks
    {
      hide SizeRecord, SortByOffset, TotalBytes, SortedByOffset, Apart;
      bytesTransferred := 0;
      lastBlock := -1;
      lastOffset := 0;
      SortRamList();
      MarkAllDirty();
      PutBlockList();
      open := true;
      events := [];
      assert ValidBlock(blocks[0]);
      assert [] + SizeRecord(blocks) == SizeRecord(blocks);
      begun := Now();
    }

    /** The rate-limited loop of `ram_save_live`. */
    method SaveWhileAllowed(limits: seq<int>) returns (ret: int)
      requires Migrating()
      modifies this, physDirty
      ensures Migrating() && begun == old(begun) && blocks == old(blocks)
      ensures Remaining(State()) == Left(limits, old(Remaining(State())))
      ensures ret == Stopped(limits, old(Remaining(State())))
    {
      hide Run, ValidRun, Begun, ListDirty, NoDirty, IsNext, Allowed;
      var i := 0;
      ret := NextLimit(limits);
      assert limits[0..] == limits;
      while ret == 0
        invariant Migrating() && begun == old(begun) && blocks == old(blocks)
        invariant 0 <= i <= |limits| && ret == NextLimit(limits[i..])
        invariant i + Allowed(limits[i..]) == Allowed(limits)
        invariant Remaining(State()) == old(Remaining(State())) - i
        decreases Remaining(State())
      {
        AllowedMore(limits, i);
        var bytesSent, p := RamSaveBlock();
        bytesTransferred := bytesTransferred + bytesSent;
        if bytesSent == 0 {
          NoneRemain(State(), |blocks|);
          break;
        }
        i := i + 1;
        ret := NextLimit(limits[i..]);
      }
      if ret != 0 { AllowedNone(limits[i..]); }
    }

    /** An error comes only from the rate limiter. */
    lemma LimitIsNoError(limits: seq<int>)
      requires NoError(limits)
      ensures NextLimit(limits[Allowed(limits)..]) >= 0
    {
    }

    /** The stage-3 loop: with the guest stopped it ends, because every turn
        leaves one dirty page less, and it leaves none. */
    method SaveAll()
      requires Migrating()
      modifies this, physDirty
      ensures Migrating() && begun == old(begun) && blocks == old(blocks)
      ensures NoDirty(State())
    {
      hide Run, ValidRun, Begun, ListDirty, NoDirty, IsNext;
      var bytesSent, p := RamSaveBlock();
      while bytesSent != 0
        invariant Migrating() && begun == old(begun) && blocks == old(blocks)
        invariant bytesSent == 0 ==> NoDirty(State())
        decreases Remaining(State()), bytesSent
      {
        bytesTransferred := bytesTransferred + bytesSent;
        bytesSent, p := RamSaveBlock();
      }
    }

    /** `ram_save_live`.  `limits` are the answers of `qemu_file_rate_limit`,
        `sync` the result of syncing the dirty bitmap and `fast` the outcome of
        the downtime estimate. */
    method RamSaveLive(stage: int, sync: int, limits: seq<int>, fast: bool) returns (ret: int)
      requires stage == 1 ==> ValidList(blocks) && FlagsCover(blocks, physDirty[..])
      requires stage == 1 ==> TotalBytes(blocks) < WORD_LIMIT && f == []
      requires stage != 1 ==> Migrating()
      modifies this, physDirty
      ensures stage >= 0 && sync == 0 ==> Migrating() && (stage != 1 ==> begun == old(begun) && blocks == old(blocks))
      ensures stage == 1 && sync == 0 ==>
                && begun.sender.blocks == blocks && multiset(blocks) == multiset(old(blocks))
                && SortedByOffset(blocks) && blocks == SortByOffset(old(blocks))
      ensures stage >= 0 && sync == 0 && ret >= 0 ==> !open && ret == if stage == 2 && fast then 1 else 0
      ensures stage >= 0 && sync == 0 && NoError(limits) ==> ret >= 0
      ensures stage < 0 ==> ret == 0
      ensures stage >= 0 && sync != 0 ==> ret == -22
      ensures stage >= 2 && sync == 0 ==>
                && (ret < 0 <==> Stopped(limits, old(Remaining(State()))) < 0)
                && (ret < 0 ==> ret == Stopped(limits, old(Remaining(State()))))
                && (stage != 3 || ret < 0 ==> Remaining(State()) == Left(limits, old(Remaining(State()))))
      ensures stage == 3 && sync == 0 && ret >= 0 ==> Drained(State())
      ensures stage < 0 || sync != 0 ==> Now() == old(Now()) && events == old(events) && begun == old(begun)
    {
      hide Run, ValidRun, Record, Begun, ListDirty, NoDirty, IsNext;
      if stage < 0 { return 0; }
      if sync != 0 { return -22; }
      if stage == 1 { BeginMigration(); }
      ret := FinishSection(stage, limits, fast);
    }

    /** The part of `ram_save_live` after the stage-1 preparations. */
    method FinishSection(stage: int, limits: seq<int>, fast: bool) returns (ret: int)
      requires Migrating()
      modifies this, physDirty
      ensures Migrating() && begun == old(begun) && blocks == old(blocks)
      ensures ret >= 0 ==> !open && ret == if stage == 2 && fast then 1 else 0
      ensures NoError(limits) ==> ret >= 0
      ensures ret < 0 <==> Stopped(limits, old(Remaining(State()))) < 0
      ensures ret < 0 ==> ret == Stopped(limits, old(Remaining(State())))
      ensures stage != 3 || ret < 0 ==> Remaining(State()) == Left(limits, old(Remaining(State())))
      ensures stage == 3 && ret >= 0 ==> Drained(State())
    {
      hide Run, ValidRun, Record, Begun, ListDirty, NoDirty, IsNext;
      ret := SaveWhileAllowed(limits);
      if NoError(limits) { LimitIsNoError(limits); }
      if ret < 0 { return; }
      if stage == 3 { SaveAll(); }
      ghost var y := Now();
      f := f + EosRecord();
      open := false;
      RunExtended(begun, events, EndSection);
      events := events + [EndSection];
      ret := if stage == 2 && fast then 1 else 0;
    }

    /** Whatever the guest did meanwhile, a stream closed after stage 3 gives a
        receiver with the same blocks all of the sender's RAM. */
    lemma Delivered(r0: Receiver) returns (r: Receiver)
      requires Migrating() && !open && Drained(State())
      requires Mirrors(begun.sender.blocks, r0.blocks)
      ensures Replay(r0, f, false) == Ok(r) && SameRam(blocks, r.blocks)
    {
      r := Converges(begun, events, r0);
    }
  }
}
