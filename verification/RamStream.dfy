/** The RAM section of a migration stream (`arch_init.c`): the records
    `ram_save_block` writes and the reader `ram_load` with its static block. */
module RamStream {
  import opened Bits
  import opened Wire
  import opened RamList

  const RAM_SAVE_FLAG_COMPRESS: nat := 0x02
  const RAM_SAVE_FLAG_MEM_SIZE: nat := 0x04
  const RAM_SAVE_FLAG_PAGE: nat := 0x08
  const RAM_SAVE_FLAG_EOS: nat := 0x10
  const RAM_SAVE_FLAG_CONTINUE: nat := 0x20

  const PAGE_MASK: Word := 0xfff      // ~TARGET_PAGE_MASK

  /** Sender statics: `last == -1` is a NULL `last_block`. */
  datatype Sender = Sender(blocks: seq<RAMBlock>, flags: seq<bv8>, last: int, lastOff: nat)

  /** Receiver: its own block list and the static `block` of
      `host_from_stream_offset` (-1 for NULL). */
  datatype Receiver = Receiver(blocks: seq<RAMBlock>, block: int)

  datatype Failure = Einval | Truncated | Fault
  datatype One = Cont(r: Receiver, rest: seq<byte>, eos: bool) | Fail(why: Failure)
  datatype Replayed = Ok(r: Receiver) | Broken(why: Failure)

  predicate Has(flags: nat, flag: nat) {
    And(flags, flag) != 0
  }

  // ------------------------------------------------------------ the writer

  /** All bytes of the page are the same, so one byte is sent for it. */
  predicate IsDup(page: seq<byte>)
    requires |page| > 0
  {
    forall k :: 0 <= k < |page| ==> page[k] == page[0]
  }

  function Header(off: Word, cont: bool, kind: Word): Word
    requires off % TARGET_PAGE_SIZE == 0 && kind < TARGET_PAGE_SIZE
  {
    OrW(OrW(off, if cont then RAM_SAVE_FLAG_CONTINUE else 0), kind)
  }

  /** The bytes `ram_save_block` puts for page `p`. */
  ghost function Record(s: Sender, p: Pos): (bytes: seq<byte>)
    requires ValidList(s.blocks) && ValidPos(s.blocks, p)
  {
    PageInside(s.blocks, p);
    assert ValidBlock(s.blocks[p.b]);
    var page := PageAt(s.blocks[p.b], p.off);
    var cont := p.b == s.last;
    if IsDup(page) then Be64(Header(p.off, cont, RAM_SAVE_FLAG_COMPRESS)) + RecordId(s, p) + [page[0]]
    else Be64(Header(p.off, cont, RAM_SAVE_FLAG_PAGE)) + RecordId(s, p) + page
  }

  /** The block name, left out when the block is the one sent last. */
  function RecordId(s: Sender, p: Pos): (bytes: seq<byte>)
    requires p.b < |s.blocks| && IsName(s.blocks[p.b].idstr)
  {
    if p.b == s.last then [] else PutName(s.blocks[p.b].idstr)
  }

  function TotalBytes(bs: seq<RAMBlock>): nat {
    if |bs| == 0 then 0 else bs[0].length + TotalBytes(bs[1..])
  }

  /** Name and length of every block, as stage 1 sends them. */
  ghost function Entries(bs: seq<RAMBlock>): seq<byte>
    requires forall i :: 0 <= i < |bs| ==> ValidBlock(bs[i])
  {
    if |bs| == 0 then [] else assert ValidBlock(bs[0]); PutName(bs[0].idstr) + Be64(bs[0].length) + Entries(bs[1..])
  }

  ghost function SizeRecord(bs: seq<RAMBlock>): seq<byte>
    requires ValidList(bs) && TotalBytes(bs) < WORD_LIMIT
  {
    Be64(OrW(TotalBytes(bs), RAM_SAVE_FLAG_MEM_SIZE)) + Entries(bs)
  }

  function EosRecord(): seq<byte> {
    Be64(RAM_SAVE_FLAG_EOS)
  }

  // ------------------------------------------------------------ the reader

  /** First block with this name, or -1. */
  function FindBlock(bs: seq<RAMBlock>, id: seq<byte>): (j: int)
    ensures -1 <= j < |bs|
    ensures j >= 0 ==> bs[j].idstr == id && forall i :: 0 <= i < j ==> bs[i].idstr != id
    ensures j == -1 ==> forall i :: 0 <= i < |bs| ==> bs[i].idstr != id
  {
    if |bs| == 0 then -1
    else if bs[0].idstr == id then 0
    else
      var j := FindBlock(bs[1..], id);
      if j == -1 then -1 else j + 1
  }

  /** First block holding the RAM address, or -1 (`qemu_get_ram_ptr`). */
  function FindAddr(bs: seq<RAMBlock>, addr: nat): (j: int)
    ensures -1 <= j < |bs|
    ensures j >= 0 ==> bs[j].offset <= addr < bs[j].offset + bs[j].length
    ensures forall i :: 0 <= i < (if j >= 0 then j else |bs|) ==> !(bs[i].offset <= addr < bs[i].offset + bs[i].length)
  {
    if |bs| == 0 then -1
    else if bs[0].offset <= addr < bs[0].offset + bs[0].length then 0
    else
      var j := FindAddr(bs[1..], addr);
      if j == -1 then -1 else j + 1
  }

  /** `host_from_stream_offset`, or `qemu_get_ram_ptr` for version 3: the
      host block (-1 for NULL), the offset in it, the reader's new static
      block, and what is left of the stream. */
  datatype Target = At(r: Receiver, host: int, off: nat, rest: seq<byte>) | NoTarget(why: Failure)

  function Resolve(r: Receiver, s: seq<byte>, addr: nat, flags: nat, version: nat): (t: Target)
    ensures t.At? ==> -1 <= t.host && t.r.blocks == r.blocks && |t.rest| <= |s|
    ensures t.NoTarget? ==> t.why != Einval
  {
    if version == 3 then
      var j := FindAddr(r.blocks, addr);
      if j == -1 then NoTarget(Fault) else At(r, j, addr - r.blocks[j].offset, s)
    else if Has(flags, RAM_SAVE_FLAG_CONTINUE) then
      At(r, if r.block < 0 then -1 else r.block, addr, s)
    else
      match GetName(s)
      case Short => NoTarget(Truncated)
      case Got(id, rest) =>
        var j := FindBlock(r.blocks, id);
        At(r.(block := j), j, addr, rest)
  }

  /** Writing a page through a resolved pointer; outside the block it faults. */
  function StorePage(t: Target, page: seq<byte>, rest: seq<byte>, eos: bool): (o: One)
    requires t.At? && |page| == TARGET_PAGE_SIZE
    ensures o.Cont? ==> o.rest == rest
  {
    if t.host < 0 || t.host >= |t.r.blocks| || t.off + TARGET_PAGE_SIZE > |t.r.blocks[t.host].host| then Fail(Fault)
    else
      var b := SetPage(t.r.blocks[t.host], t.off, page);
      Cont(t.r.(blocks := t.r.blocks[t.host := b]), rest, eos)
  }

  function Repeat(ch: byte, n: nat): (s: seq<byte>)
    ensures |s| == n && forall k :: 0 <= k < n ==> s[k] == ch
  {
    seq(n, _ => ch)
  }

  function LoadDup(r: Receiver, s: seq<byte>, addr: nat, flags: nat, version: nat, eos: bool): (o: One)
    ensures o.Cont? ==> |o.rest| <= |s|
  {
    match Resolve(r, s, addr, flags, version)
    case NoTarget(w) => Fail(w)
    case At(r1, host, off, rest) =>
      if host < 0 then Fail(Einval)
      else if |rest| < 1 then Fail(Truncated)
      else StorePage(At(r1, host, off, rest), Repeat(rest[0], TARGET_PAGE_SIZE), rest[1..], eos)
  }

  function LoadFull(r: Receiver, s: seq<byte>, addr: nat, flags: nat, version: nat, eos: bool): (o: One)
    ensures o.Cont? ==> |o.rest| <= |s|
  {
    match Resolve(r, s, addr, flags, version)
    case NoTarget(w) => Fail(w)
    case At(r1, host, off, rest) =>
      if |rest| < TARGET_PAGE_SIZE then Fail(Truncated)
      else StorePage(At(r1, host, off, rest), rest[..TARGET_PAGE_SIZE], rest[TARGET_PAGE_SIZE..], eos)
  }

  /** `total -= length` on 64 bits. */
  function Minus(total: Word, length: Word): (r: Word) {
    if length <= total then total - length else total + WORD_LIMIT - length
  }

  /** The block list check of version 4; `total` counts down modulo 2^64. */
  function SyncList(bs: seq<RAMBlock>, total: Word, s: seq<byte>): (g: GetResult)
    ensures g.Got? ==> |g.rest| <= |s| && g.name == []
    decreases |s|
  {
    if total == 0 then Got([], s)
    else match GetName(s)
      case Short => Short
      case Got(id, rest) =>
        var j := FindBlock(bs, id);
        if |rest| < 8 || j < 0 || bs[j].length != GetBe64(rest) then Short
        else SyncList(bs, Minus(total, GetBe64(rest)), rest[8..])
  }

  function LoadSize(r: Receiver, s: seq<byte>, addr: Word, version: nat): (o: One)
    ensures o.Cont? ==> |o.rest| <= |s| && o.r == r
  {
    if version == 3 then
      if addr != TotalBytes(r.blocks) then Fail(Einval) else Cont(r, s, false)
    else match SyncList(r.blocks, addr, s)
      case Short => Fail(Einval)
      case Got(_, rest) => Cont(r, rest, false)
  }

  /** The page that a record carries, if any. */
  function LoadPage(r: Receiver, s: seq<byte>, addr: nat, flags: nat, version: nat, eos: bool): (o: One)
    ensures o.Cont? ==> |o.rest| <= |s|
  {
    if Has(flags, RAM_SAVE_FLAG_COMPRESS) then LoadDup(r, s, addr, flags, version, eos)
    else if Has(flags, RAM_SAVE_FLAG_PAGE) then LoadFull(r, s, addr, flags, version, eos)
    else Cont(r, s, eos)
  }

  /** One turn of the loop of `ram_load`. */
  function LoadOne(r: Receiver, s: seq<byte>, version: nat): (o: One)
    ensures o.Cont? ==> |o.rest| < |s|
  {
    if |s| < 8 then Fail(Truncated)
    else
      var h := GetBe64(s);
      var flags, addr := AndW(h, PAGE_MASK), AndW(h, Not(PAGE_MASK));
      var eos := Has(flags, RAM_SAVE_FLAG_EOS);
      match if Has(flags, RAM_SAVE_FLAG_MEM_SIZE) then LoadSize(r, s[8..], addr, version) else Cont(r, s[8..], eos)
      case Fail(w) => Fail(w)
      case Cont(r1, rest, _) => LoadPage(r1, rest, addr, flags, version, eos)
  }

  /** Sections replayed one after the other; `open` says that the current
      section has not reached its end mark. */
  function Replay(r: Receiver, s: seq<byte>, open: bool): Replayed
    decreases |s|
  {
    if |s| == 0 then (if open then Broken(Truncated) else Ok(r))
    else match LoadOne(r, s, 4)
      case Fail(w) => Broken(w)
      case Cont(r1, rest, eos) => Replay(r1, rest, !eos)
  }

  /** One `ram_load` call: records up to and including the end mark. */
  datatype Section = Done(r: Receiver, rest: seq<byte>) | Failed(why: Failure)

  /** The receiver when a section ends or its first bad record is met. */
  function Reached(r: Receiver, s: seq<byte>, version: nat): (q: Receiver)
    decreases |s|
  {
    match LoadOne(r, s, version)
    case Fail(_) => r
    case Cont(r1, rest, eos) => if eos then r1 else Reached(r1, rest, version)
  }

  function LoadSection(r: Receiver, s: seq<byte>, version: nat): (x: Section)
    ensures x.Done? ==> |x.rest| < |s|
    decreases |s|
  {
    match LoadOne(r, s, version)
    case Fail(w) => Failed(w)
    case Cont(r1, rest, eos) => if eos then Done(r1, rest) else LoadSection(r1, rest, version)
  }

  /** Replaying a stream is calling `ram_load` until it is used up. */
  lemma {:induction false} ReplayBySections(r: Receiver, s: seq<byte>, open: bool)
    requires |s| > 0 || open
    ensures Replay(r, s, open) ==
            match LoadSection(r, s, 4)
            case Failed(w) => Broken(w)
            case Done(r1, rest) => Replay(r1, rest, false)
    decreases |s|
  {
    hide LoadOne;
    if |s| > 0 {
      match LoadOne(r, s, 4)
      case Fail(w) =>
      case Cont(r1, rest, eos) => if !eos { ReplayBySections(r1, rest, true); }
    } else {
      NothingToLoad(r, s);
    }
  }

  lemma NothingToLoad(r: Receiver, s: seq<byte>)
    requires |s| < 8
    ensures LoadOne(r, s, 4) == Fail(Truncated)
  {
  }

  // ------------------------------------------- writer and reader agree

  /** The receiver has every block of the sender, with the same size. */
  ghost predicate Mirrors(bs: seq<RAMBlock>, rbs: seq<RAMBlock>) {
    && ValidList(bs) && ValidList(rbs)
    && forall i :: 0 <= i < |bs| ==> Twin(bs, rbs, i) >= 0 && rbs[Twin(bs, rbs, i)].length == bs[i].length
  }

  function Twin(bs: seq<RAMBlock>, rbs: seq<RAMBlock>, i: nat): (j: int)
    requires i < |bs|
    ensures -1 <= j < |rbs|
  {
    FindBlock(rbs, bs[i].idstr)
  }

  lemma HeaderSplits(off: Word, cont: bool, kind: Word)
    requires off % TARGET_PAGE_SIZE == 0
    requires kind in {RAM_SAVE_FLAG_COMPRESS, RAM_SAVE_FLAG_PAGE, RAM_SAVE_FLAG_MEM_SIZE, RAM_SAVE_FLAG_EOS}
    ensures And(Header(off, cont, kind), PAGE_MASK) == (if cont then 0x20 else 0) + kind
    ensures And(Header(off, cont, kind), Not(PAGE_MASK)) == off
  {
    assert Pow2(12) == 4096;
    var c := if cont then RAM_SAVE_FLAG_CONTINUE else 0;
    assert Or(0x20, 0x02) == 0x22 && Or(0x20, 0x04) == 0x24 && Or(0x20, 0x08) == 0x28 && Or(0x20, 0x10) == 0x30;
    PackedHeader(off, c, kind, 12);
  }

  /** Which flags the four record kinds carry. */
  lemma FlagTests(cont: bool, kind: Word)
    requires kind in {RAM_SAVE_FLAG_COMPRESS, RAM_SAVE_FLAG_PAGE, RAM_SAVE_FLAG_MEM_SIZE, RAM_SAVE_FLAG_EOS}
    ensures var f := (if cont then 0x20 else 0) + kind;
            && (Has(f, RAM_SAVE_FLAG_COMPRESS) <==> kind == RAM_SAVE_FLAG_COMPRESS)
            && (Has(f, RAM_SAVE_FLAG_PAGE) <==> kind == RAM_SAVE_FLAG_PAGE)
            && (Has(f, RAM_SAVE_FLAG_MEM_SIZE) <==> kind == RAM_SAVE_FLAG_MEM_SIZE)
            && (Has(f, RAM_SAVE_FLAG_EOS) <==> kind == RAM_SAVE_FLAG_EOS)
            && (Has(f, RAM_SAVE_FLAG_CONTINUE) <==> cont)
  {
    FlagTestsOf(kind, 0);
    FlagTestsOf(kind, 0x20);
  }

  lemma FlagTestsOf(kind: Word, c: Word)
    requires kind in {0x02, 0x04, 0x08, 0x10} && c in {0, 0x20}
    ensures And(c + kind, 0x02) != 0 <==> kind == 0x02
    ensures And(c + kind, 0x04) != 0 <==> kind == 0x04
    ensures And(c + kind, 0x08) != 0 <==> kind == 0x08
    ensures And(c + kind, 0x10) != 0 <==> kind == 0x10
    ensures And(c + kind, 0x20) != 0 <==> c == 0x20
  {
    AndPowers(c + kind);
    if c == 0 {
      if kind == 0x02 { } else if kind == 0x04 { } else if kind == 0x08 { } else { }
    } else {
      if kind == 0x02 { } else if kind == 0x04 { } else if kind == 0x08 { } else { }
    }
  }

  /** The effect of one page record on the receiver. */
  function Applied(r: Receiver, j: nat, off: nat, page: seq<byte>): Receiver
    requires j < |r.blocks| && off + TARGET_PAGE_SIZE <= |r.blocks[j].host| && |page| == TARGET_PAGE_SIZE
  {
    Receiver(r.blocks[j := SetPage(r.blocks[j], off, page)], j)
  }

  /** The block a record is for is found, by name or as the static block. */
  lemma ResolveRecord(s: Sender, p: Pos, r: Receiver, kind: Word, t: seq<byte>)
    requires Mirrors(s.blocks, r.blocks) && ValidPos(s.blocks, p)
    requires s.last == p.b ==> r.block == Twin(s.blocks, r.blocks, p.b)
    requires kind in {RAM_SAVE_FLAG_COMPRESS, RAM_SAVE_FLAG_PAGE}
    ensures IsName(s.blocks[p.b].idstr)
    ensures var j := Twin(s.blocks, r.blocks, p.b);
            Resolve(r, RecordId(s, p) + t, p.off, (if p.b == s.last then 0x20 else 0) + kind, 4)
              == At(Receiver(r.blocks, j), j, p.off, t)
  {
    assert ValidBlock(s.blocks[p.b]);
    FlagTests(p.b == s.last, kind);
    if p.b == s.last {
      assert [] + t == t;
    } else {
      NameRoundTrip(s.blocks[p.b].idstr, t);
    }
  }

  lemma HeadOfRecord(off: Word, cont: bool, kind: Word, t: seq<byte>, r: Receiver)
    requires off % TARGET_PAGE_SIZE == 0
    requires kind in {RAM_SAVE_FLAG_COMPRESS, RAM_SAVE_FLAG_PAGE}
    ensures var f := (if cont then 0x20 else 0) + kind;
            LoadOne(r, Be64(Header(off, cont, kind)) + t, 4)
              == if kind == RAM_SAVE_FLAG_COMPRESS then LoadDup(r, t, off, f, 4, false)
                 else LoadFull(r, t, off, f, 4, false)
  {
    var h := Header(off, cont, kind);
    Be64RoundTrip(h, t);
    HeaderSplits(off, cont, kind);
    FlagTests(cont, kind);
  }

  lemma DupPage(page: seq<byte>)
    requires |page| == TARGET_PAGE_SIZE && IsDup(page)
    ensures Repeat(page[0], TARGET_PAGE_SIZE) == page
  {
  }

  /** Reading back the record of page `p` stores exactly that page in the
      receiver's block of the same name and makes it the static block. */
  lemma RecordReplay(s: Sender, p: Pos, r: Receiver, t: seq<byte>)
    requires Mirrors(s.blocks, r.blocks) && ValidPos(s.blocks, p)
    requires s.last == p.b ==> r.block == Twin(s.blocks, r.blocks, p.b)
    ensures var j := Twin(s.blocks, r.blocks, p.b);
            && 0 <= j && p.off + TARGET_PAGE_SIZE <= |r.blocks[j].host|
            && p.off + TARGET_PAGE_SIZE <= |s.blocks[p.b].host|
            && LoadOne(r, Record(s, p) + t, 4)
                 == Cont(Applied(r, j, p.off, PageAt(s.blocks[p.b], p.off)), t, false)
  {
    var b, j := s.blocks[p.b], Twin(s.blocks, r.blocks, p.b);
    PageInside(s.blocks, p);
    assert ValidBlock(b) && ValidBlock(r.blocks[j]);
    var page, cont := PageAt(b, p.off), p.b == s.last;
    var id := RecordId(s, p);
    if IsDup(page) {
      var head := Be64(Header(p.off, cont, RAM_SAVE_FLAG_COMPRESS));
      Regroup(head, id, [page[0]], t);
      HeadOfRecord(p.off, cont, RAM_SAVE_FLAG_COMPRESS, id + ([page[0]] + t), r);
      ResolveRecord(s, p, r, RAM_SAVE_FLAG_COMPRESS, [page[0]] + t);
      DupPage(page);
    } else {
      var head := Be64(Header(p.off, cont, RAM_SAVE_FLAG_PAGE));
      Regroup(head, id, page, t);
      HeadOfRecord(p.off, cont, RAM_SAVE_FLAG_PAGE, id + (page + t), r);
      ResolveRecord(s, p, r, RAM_SAVE_FLAG_PAGE, page + t);
      assert (page + t)[..TARGET_PAGE_SIZE] == page;
      assert (page + t)[TARGET_PAGE_SIZE..] == t;
    }
  }

  /** A page of a block the receiver does not have is never stored. */
  lemma StrangerRefused(s: Sender, p: Pos, r: Receiver, t: seq<byte>)
    requires ValidList(s.blocks) && ValidPos(s.blocks, p) && p.b != s.last
    requires forall j :: 0 <= j < |r.blocks| ==> r.blocks[j].idstr != s.blocks[p.b].idstr
    ensures LoadOne(r, Record(s, p) + t, 4).Fail?
  {
    hide Header, Be64, LoadOne, PutName, GetName, FindBlock;
    PageInside(s.blocks, p);
    assert ValidBlock(s.blocks[p.b]);
    var page, id := PageAt(s.blocks[p.b], p.off), PutName(s.blocks[p.b].idstr);
    var kind := if IsDup(page) then RAM_SAVE_FLAG_COMPRESS else RAM_SAVE_FLAG_PAGE;
    var data := if IsDup(page) then [page[0]] else page;
    Regroup(Be64(Header(p.off, false, kind)), id, data, t);
    HeadOfRecord(p.off, false, kind, id + (data + t), r);
    FlagTests(false, kind);
    NameRoundTrip(s.blocks[p.b].idstr, data + t);
  }

  /** One entry of the block list: a name and a length. */
  datatype Entry = Entry(name: seq<byte>, length: nat)

  predicate Listable(es: seq<Entry>) {
    forall i :: 0 <= i < |es| ==> IsName(es[i].name) && 0 < es[i].length < WORD_LIMIT
  }

  function ListTotal(es: seq<Entry>): (n: nat) {
    if |es| == 0 then 0 else es[0].length + ListTotal(es[1..])
  }

  /** The entries as the sender puts them. */
  function Listed(es: seq<Entry>): (bytes: seq<byte>)
    requires Listable(es)
  {
    if |es| == 0 then [] else PutName(es[0].name) + Be64(es[0].length) + Listed(es[1..])
  }

  /** The first block of that name has exactly that length. */
  predicate OnReceiver(bs: seq<RAMBlock>, e: Entry) {
    exists j :: && 0 <= j < |bs| && bs[j].idstr == e.name && bs[j].length == e.length
                && forall i :: 0 <= i < j ==> bs[i].idstr != e.name
  }

  predicate AllOnReceiver(bs: seq<RAMBlock>, es: seq<Entry>) {
    forall i :: 0 <= i < |es| ==> OnReceiver(bs, es[i])
  }

  lemma EntryExact(bs: seq<RAMBlock>, e: Entry, total: Word, rest: seq<byte>)
    requires IsName(e.name) && 0 < e.length <= total
    ensures SyncList(bs, total, PutName(e.name) + (Be64(e.length) + rest))
         == if OnReceiver(bs, e) then SyncList(bs, total - e.length, rest) else Short
  {
    hide Be64, PutName, Number, GetName, FindBlock;
    var tail := Be64(e.length) + rest;
    Be64RoundTrip(e.length, rest);
    NameRoundTrip(e.name, tail);
  }

  /** The block list is accepted if and only if every block it names exists on
      the receiver with exactly that length. */
  lemma {:induction false} SyncExact(bs: seq<RAMBlock>, es: seq<Entry>, t: seq<byte>)
    requires Listable(es) && ListTotal(es) < WORD_LIMIT
    ensures SyncList(bs, ListTotal(es), Listed(es) + t) == if AllOnReceiver(bs, es) then Got([], t) else Short
    decreases |es|
  {
    hide SyncList, Listed, AllOnReceiver, OnReceiver;
    if |es| == 0 {
      NoneListed(bs, es, t);
    } else {
      ListedHead(bs, es, t);
      EntryExact(bs, es[0], ListTotal(es), Listed(es[1..]) + t);
      SyncExact(bs, es[1..], t);
    }
  }

  lemma NoneListed(bs: seq<RAMBlock>, es: seq<Entry>, t: seq<byte>)
    requires |es| == 0
    ensures SyncList(bs, ListTotal(es), Listed(es) + t) == Got([], t) && AllOnReceiver(bs, es)
  {
    assert Listed(es) + t == t;
  }

  lemma ListedHead(bs: seq<RAMBlock>, es: seq<Entry>, t: seq<byte>)
    requires Listable(es) && |es| > 0
    ensures Listed(es) + t == PutName(es[0].name) + (Be64(es[0].length) + (Listed(es[1..]) + t))
    ensures AllOnReceiver(bs, es) <==> OnReceiver(bs, es[0]) && AllOnReceiver(bs, es[1..])
  {
    hide Be64, PutName, OnReceiver;
    Regroup(PutName(es[0].name), Be64(es[0].length), Listed(es[1..]), t);
    assert forall i :: 1 <= i < |es| ==> es[i] == es[1..][i - 1];
  }

  function SizeBytes(es: seq<Entry>): (bytes: seq<byte>)
    requires Listable(es) && ListTotal(es) < WORD_LIMIT
  {
    Be64(OrW(ListTotal(es), RAM_SAVE_FLAG_MEM_SIZE)) + Listed(es)
  }

  /** The size record with its block list, accepted or refused. */
  lemma SizeExact(r: Receiver, es: seq<Entry>, t: seq<byte>)
    requires Listable(es) && ListTotal(es) < WORD_LIMIT && ListTotal(es) % TARGET_PAGE_SIZE == 0
    ensures LoadOne(r, SizeBytes(es) + t, 4) == if AllOnReceiver(r.blocks, es) then Cont(r, t, false) else Fail(Einval)
  {
    hide SyncList, Listed, AllOnReceiver;
    var total: Word := ListTotal(es);
    var h := Header(total, false, RAM_SAVE_FLAG_MEM_SIZE);
    assert Or(total, 0) == total;
    HeaderSplits(total, false, RAM_SAVE_FLAG_MEM_SIZE);
    FlagTests(false, RAM_SAVE_FLAG_MEM_SIZE);
    assert SizeBytes(es) + t == Be64(h) + (Listed(es) + t);
    Be64RoundTrip(h, Listed(es) + t);
    SyncExact(r.blocks, es, t);
  }

  function EntriesOf(bs: seq<RAMBlock>): (es: seq<Entry>)
    ensures |es| == |bs| && forall i :: 0 <= i < |bs| ==> es[i] == Entry(bs[i].idstr, bs[i].length)
  {
    seq(|bs|, i requires 0 <= i < |bs| => Entry(bs[i].idstr, bs[i].length))
  }

  /** What the sender lists are its blocks. */
  lemma {:induction false} BlocksListed(bs: seq<RAMBlock>)
    requires forall i :: 0 <= i < |bs| ==> ValidBlock(bs[i])
    ensures Listable(EntriesOf(bs)) && Listed(EntriesOf(bs)) == Entries(bs)
    ensures ListTotal(EntriesOf(bs)) == TotalBytes(bs) && TotalBytes(bs) % TARGET_PAGE_SIZE == 0
  {
    hide Be64, PutName;
    var es := EntriesOf(bs);
    if |bs| > 0 {
      assert ValidBlock(bs[0]);
      assert es[1..] == EntriesOf(bs[1..]);
      BlocksListed(bs[1..]);
    }
  }

  /** The block list of stage 1 is accepted and leaves the receiver as it is. */
  lemma SizeReplay(bs: seq<RAMBlock>, r: Receiver, t: seq<byte>)
    requires Mirrors(bs, r.blocks) && TotalBytes(bs) < WORD_LIMIT
    ensures LoadOne(r, SizeRecord(bs) + t, 4) == Cont(r, t, false)
  {
    hide LoadOne, Be64, Listed, Entries;
    BlocksListed(bs);
    forall i | 0 <= i < |bs| ensures OnReceiver(r.blocks, EntriesOf(bs)[i]) { assert Twin(bs, r.blocks, i) >= 0; }
    SizeExact(r, EntriesOf(bs), t);
  }

  lemma EosReplay(r: Receiver, t: seq<byte>)
    ensures LoadOne(r, EosRecord() + t, 4) == Cont(r, t, true)
  {
    HeaderSplits(0, false, RAM_SAVE_FLAG_EOS);
    FlagTests(false, RAM_SAVE_FLAG_EOS);
    assert Header(0, false, RAM_SAVE_FLAG_EOS) == RAM_SAVE_FLAG_EOS;
    Be64RoundTrip(RAM_SAVE_FLAG_EOS, t);
  }
}
