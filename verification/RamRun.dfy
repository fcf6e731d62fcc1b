/** Every run of a RAM migration: guest writes and `ram_save_block` calls in any
    order, the stream they leave behind, and what replaying it does. */
module RamRun {
  import opened Bits
  import opened Wire
  import opened RamList
  import opened RamStream

  datatype Sys = Sys(sender: Sender, stream: seq<byte>, open: bool)

  datatype Event =
    | GuestWrite(p: Pos, page: seq<byte>)   // a store anywhere in a page
    | Save(p: Pos)                          // one ram_save_block that finds p
    | EndSection                            // RAM_SAVE_FLAG_EOS

  /** Where the next scan starts. */
  function Start(s: Sender): Pos {
    if s.last < 0 then Pos(0, 0) else Pos(s.last, s.lastOff)
  }

  ghost predicate AllDirty(s: Sender)
    requires ValidList(s.blocks) && FlagsCover(s.blocks, s.flags)
  {
    forall p :: ValidPos(s.blocks, p) ==> IsDirty(s, p)
  }

  ghost predicate NoDirty(s: Sender)
    requires ValidList(s.blocks) && FlagsCover(s.blocks, s.flags)
  {
    forall p :: ValidPos(s.blocks, p) ==> !IsDirty(s, p)
  }

  ghost predicate IsDirty(s: Sender, p: Pos)
    requires ValidList(s.blocks) && FlagsCover(s.blocks, s.flags) && ValidPos(s.blocks, p)
  {
    PageNoBound(s.blocks, s.flags, p);
    Dirty(s.blocks, s.flags, p)
  }

  /** `last_block` is NULL only while every page is dirty. */
  ghost predicate ValidSender(s: Sender) {
    && ValidList(s.blocks) && FlagsCover(s.blocks, s.flags)
    && -1 <= s.last < |s.blocks|
    && (s.last == -1 ==> s.lastOff == 0 && AllDirty(s))
    && ValidPos(s.blocks, Start(s))
  }

  ghost predicate Drained(s: Sender) {
    ValidSender(s) && NoDirty(s)
  }

  /** `p` is the first dirty page a scan from the last one meets. */
  ghost predicate IsNext(s: Sender, p: Pos)
    requires ValidSender(s)
  {
    && ValidPos(s.blocks, p) && IsDirty(s, p)
    && forall q :: ValidPos(s.blocks, q) && IsDirty(s, q) ==>
         Dist(s.blocks, Start(s), p) <= Dist(s.blocks, Start(s), q)
  }

  function Sent(s: Sender, p: Pos): Sender
    requires p.b < |s.blocks| && PageNo(s.blocks, p) < |s.flags|
  {
    var n := PageNo(s.blocks, p);
    Sender(s.blocks, s.flags[n := MaskOff(s.flags[n], MIGRATION_DIRTY_FLAG)], p.b, p.off)
  }

  function Written(s: Sender, p: Pos, page: seq<byte>): Sender
    requires p.b < |s.blocks| && PageNo(s.blocks, p) < |s.flags|
    requires p.off + TARGET_PAGE_SIZE <= |s.blocks[p.b].host| && |page| == TARGET_PAGE_SIZE
  {
    var n := PageNo(s.blocks, p);
    s.(blocks := s.blocks[p.b := SetPage(s.blocks[p.b], p.off, page)],
       flags := s.flags[n := WriteFlags(s.flags[n])])
  }

  ghost predicate Enabled(y: Sys, e: Event) {
    && ValidSender(y.sender)
    && match e
       case GuestWrite(p, page) => ValidPos(y.sender.blocks, p) && |page| == TARGET_PAGE_SIZE
       case Save(p) => IsNext(y.sender, p)
       case EndSection => true
  }

  ghost function Exec(y: Sys, e: Event): Sys
    requires Enabled(y, e)
  {
    match e
    case GuestWrite(p, page) =>
      PageNoBound(y.sender.blocks, y.sender.flags, p);
      PageInside(y.sender.blocks, p);
      y.(sender := Written(y.sender, p, page))
    case Save(p) =>
      PageNoBound(y.sender.blocks, y.sender.flags, p);
      Sys(Sent(y.sender, p), y.stream + Record(y.sender, p), true)
    case EndSection =>
      Sys(y.sender, y.stream + EosRecord(), false)
  }

  ghost predicate ValidRun(y: Sys, es: seq<Event>)
    decreases |es|, 0
  {
    |es| == 0 ||
    var n := |es| - 1;
    ValidRun(y, es[..n]) && Enabled(Run(y, es[..n]), es[n])
  }

  ghost function Run(y: Sys, es: seq<Event>): Sys
    requires ValidRun(y, es)
    decreases |es|, 1
  {
    if |es| == 0 then y
    else
      var n := |es| - 1;
      Exec(Run(y, es[..n]), es[n])
  }

  lemma RunExtended(y: Sys, es: seq<Event>, e: Event)
    requires ValidRun(y, es) && Enabled(Run(y, es), e)
    ensures ValidRun(y, es + [e]) && Run(y, es + [e]) == Exec(Run(y, es), e)
  {
    var fs := es + [e];
    assert fs[..|fs| - 1] == es;
  }

  // ------------------------------------------------- one page, other pages

  lemma FlagUpdate(s: Sender, p: Pos, q: Pos, v: bv8)
    requires ValidList(s.blocks) && FlagsCover(s.blocks, s.flags)
    requires ValidPos(s.blocks, p) && ValidPos(s.blocks, q)
    ensures PageNo(s.blocks, p) < |s.flags| && PageNo(s.blocks, q) < |s.flags|
    ensures Dirty(s.blocks, s.flags[PageNo(s.blocks, p) := v], q)
         == if q == p then Flagged(v) else Dirty(s.blocks, s.flags, q)
  {
    hide Flagged, ValidList;
    PageNoBound(s.blocks, s.flags, p);
    PageNoBound(s.blocks, s.flags, q);
    AddrIdentifies(s.blocks, p, q);
  }

  /** Replacing the contents of one block keeps the list's shape. */
  lemma SameShape(bs: seq<RAMBlock>, b: nat, off: nat, page: seq<byte>)
    requires ValidList(bs) && b < |bs| && off + TARGET_PAGE_SIZE <= |bs[b].host| && |page| == TARGET_PAGE_SIZE
    ensures ValidList(bs[b := SetPage(bs[b], off, page)])
    ensures forall q :: ValidPos(bs[b := SetPage(bs[b], off, page)], q) <==> ValidPos(bs, q)
    ensures forall q: Pos :: q.b < |bs| ==> PageNo(bs[b := SetPage(bs[b], off, page)], q) == PageNo(bs, q)
  {
    var bs' := bs[b := SetPage(bs[b], off, page)];
    assert ValidBlock(bs[b]);
    forall i, j | 0 <= i < j < |bs'| ensures Apart(bs'[i], bs'[j]) { assert Apart(bs[i], bs[j]); }
  }

  lemma {:induction false} FindSame(bs: seq<RAMBlock>, bs': seq<RAMBlock>, id: seq<byte>)
    requires |bs| == |bs'| && forall i :: 0 <= i < |bs| ==> bs[i].idstr == bs'[i].idstr
    ensures FindBlock(bs, id) == FindBlock(bs', id)
  {
    if |bs| > 0 { FindSame(bs[1..], bs'[1..], id); }
  }

  /** After a send the page is clean and no other flag has changed. */
  lemma AfterSent(s: Sender, p: Pos)
    requires ValidSender(s) && IsNext(s, p)
    ensures PageNo(s.blocks, p) < |s.flags|
    ensures ValidSender(Sent(s, p))
    ensures forall q :: ValidPos(s.blocks, q) ==> (IsDirty(Sent(s, p), q) <==> q != p && IsDirty(s, q))
  {
    hide Flagged, MaskOff, ValidList, Dist;
    PageNoBound(s.blocks, s.flags, p);
    var v := MaskOff(s.flags[PageNo(s.blocks, p)], MIGRATION_DIRTY_FLAG);
    FlagBits(s.flags[PageNo(s.blocks, p)]);
    forall q | ValidPos(s.blocks, q) ensures IsDirty(Sent(s, p), q) <==> q != p && IsDirty(s, q) {
      FlagUpdate(s, p, q, v);
    }
  }

  /** After a guest store the page is dirty and no other flag has changed. */
  lemma AfterWritten(s: Sender, p: Pos, page: seq<byte>)
    requires ValidSender(s) && ValidPos(s.blocks, p) && |page| == TARGET_PAGE_SIZE
    ensures PageNo(s.blocks, p) < |s.flags| && p.off + TARGET_PAGE_SIZE <= |s.blocks[p.b].host|
    ensures ValidSender(Written(s, p, page))
    ensures forall q :: ValidPos(s.blocks, q) ==>
              ValidPos(Written(s, p, page).blocks, q) && (IsDirty(Written(s, p, page), q) <==> q == p || IsDirty(s, q))
  {
    hide Flagged, WriteFlags, MaskOff;
    PageNoBound(s.blocks, s.flags, p);
    PageInside(s.blocks, p);
    SameShape(s.blocks, p.b, p.off, page);
    var v := WriteFlags(s.flags[PageNo(s.blocks, p)]);
    FlagBits(s.flags[PageNo(s.blocks, p)]);
    var s' := Written(s, p, page);
    forall q | ValidPos(s.blocks, q) ensures ValidPos(s'.blocks, q) && (IsDirty(s', q) <==> q == p || IsDirty(s, q)) {
      FlagUpdate(s, p, q, v);
    }
  }

  // ------------------------------------------------------- the invariant

  /** A clean page is the same on both sides, and the static blocks agree. */
  ghost predicate Agree(s: Sender, r: Receiver) {
    && ValidSender(s) && Mirrors(s.blocks, r.blocks)
    && (s.last >= 0 ==> r.block == Twin(s.blocks, r.blocks, s.last))
    && forall p :: ValidPos(s.blocks, p) && !IsDirty(s, p) ==> SamePage(s, r, p)
  }

  ghost predicate SamePage(s: Sender, r: Receiver, p: Pos)
    requires Mirrors(s.blocks, r.blocks) && ValidPos(s.blocks, p)
  {
    var j := Twin(s.blocks, r.blocks, p.b);
    PageInside(s.blocks, p);
    assert ValidBlock(r.blocks[j]);
    PageAt(s.blocks[p.b], p.off) == PageAt(r.blocks[j], p.off)
  }

  lemma TwinsDiffer(bs: seq<RAMBlock>, rbs: seq<RAMBlock>, i: nat, k: nat)
    requires Mirrors(bs, rbs) && i < |bs| && k < |bs| && i != k
    ensures Twin(bs, rbs, i) != Twin(bs, rbs, k)
  {
    if i < k { assert Apart(bs[i], bs[k]); } else { assert Apart(bs[k], bs[i]); }
  }

  lemma MirrorsKept(bs: seq<RAMBlock>, rbs: seq<RAMBlock>, rbs': seq<RAMBlock>)
    requires Mirrors(bs, rbs) && ValidList(rbs') && |rbs'| == |rbs|
    requires forall i :: 0 <= i < |rbs| ==> rbs'[i].idstr == rbs[i].idstr && rbs'[i].length == rbs[i].length
    ensures Mirrors(bs, rbs')
    ensures forall i :: 0 <= i < |bs| ==> Twin(bs, rbs', i) == Twin(bs, rbs, i)
  {
    forall i | 0 <= i < |bs| ensures Twin(bs, rbs', i) == Twin(bs, rbs, i) {
      FindSame(rbs, rbs', bs[i].idstr);
    }
  }

  lemma SendKeeps(s: Sender, r: Receiver, p: Pos) returns (r': Receiver)
    requires Agree(s, r) && IsNext(s, p)
    ensures PageNo(s.blocks, p) < |s.flags|
    ensures Agree(Sent(s, p), r')
    ensures forall t :: LoadOne(r, Record(s, p) + t, 4) == Cont(r', t, false)
  {
    var j := Twin(s.blocks, r.blocks, p.b);
    RecordReplay(s, p, r, []);
    var page := PageAt(s.blocks[p.b], p.off);
    r' := Applied(r, j, p.off, page);
    forall t: seq<byte> ensures LoadOne(r, Record(s, p) + t, 4) == Cont(r', t, false) {
      RecordReplay(s, p, r, t);
    }
    AfterSent(s, p);
    SameShape(r.blocks, j, p.off, page);
    MirrorsKept(s.blocks, r.blocks, r'.blocks);
    forall q | ValidPos(s.blocks, q) && !IsDirty(Sent(s, p), q) ensures SamePage(Sent(s, p), r', q) {
      SentPage(s, r, p, q);
    }
  }

  lemma SentPage(s: Sender, r: Receiver, p: Pos, q: Pos)
    requires ValidSender(s) && Mirrors(s.blocks, r.blocks) && ValidPos(s.blocks, p) && ValidPos(s.blocks, q)
    requires q == p || SamePage(s, r, q)
    ensures var j := Twin(s.blocks, r.blocks, p.b);
            && PageNo(s.blocks, p) < |s.flags|
            && p.off + TARGET_PAGE_SIZE <= |s.blocks[p.b].host|
            && p.off + TARGET_PAGE_SIZE <= |r.blocks[j].host|
            && (var r' := Applied(r, j, p.off, PageAt(s.blocks[p.b], p.off));
                Mirrors(s.blocks, r'.blocks) ==> SamePage(Sent(s, p), r', q))
  {
    var j := Twin(s.blocks, r.blocks, p.b);
    PageNoBound(s.blocks, s.flags, p);
    PageInside(s.blocks, p);
    PageInside(s.blocks, q);
    assert ValidBlock(r.blocks[j]);
    var page := PageAt(s.blocks[p.b], p.off);
    var r' := Applied(r, j, p.off, page);
    FindSame(r.blocks, r'.blocks, s.blocks[q.b].idstr);
    if q.b == p.b {
      PageAfterSet(r.blocks[j], p.off, page, q.off);
    } else {
      TwinsDiffer(s.blocks, r.blocks, q.b, p.b);
    }
  }

  lemma WriteKeeps(s: Sender, r: Receiver, p: Pos, page: seq<byte>)
    requires Agree(s, r) && ValidPos(s.blocks, p) && |page| == TARGET_PAGE_SIZE
    ensures PageNo(s.blocks, p) < |s.flags| && p.off + TARGET_PAGE_SIZE <= |s.blocks[p.b].host|
    ensures Agree(Written(s, p, page), r)
  {
    hide AllDirty, IsDirty, FlagsCover, ValidList, FindBlock;
    AfterWritten(s, p, page);
    var s' := Written(s, p, page);
    SameShape(s.blocks, p.b, p.off, page);
    assert forall i :: 0 <= i < |s.blocks| ==> s'.blocks[i].idstr == s.blocks[i].idstr;
    assert forall i :: 0 <= i < |s.blocks| ==> Twin(s'.blocks, r.blocks, i) == Twin(s.blocks, r.blocks, i);
    forall q | ValidPos(s'.blocks, q) && !IsDirty(s', q) ensures SamePage(s', r, q) {
      assert SamePage(s, r, q);
      PageInside(s.blocks, q);
      if q.b == p.b { PageAfterSet(s.blocks[p.b], p.off, page, q.off); }
    }
  }

  /** What the bytes sent so far mean to a receiver that started as `r0`. */
  ghost predicate Replays(r0: Receiver, y: Sys, r: Receiver) {
    forall t: seq<byte> :: Replay(r0, y.stream + t, false) == Replay(r, t, y.open)
  }

  lemma ReplaysMore(r0: Receiver, y: Sys, r: Receiver, bytes: seq<byte>, r': Receiver, eos: bool)
    requires Replays(r0, y, r) && |bytes| > 0
    requires forall t :: LoadOne(r, bytes + t, 4) == Cont(r', t, eos)
    ensures forall y': Sys :: y'.stream == y.stream + bytes && y'.open == !eos ==> Replays(r0, y', r')
  {
    forall t: seq<byte> ensures Replay(r0, (y.stream + bytes) + t, false) == Replay(r', t, !eos) {
      assert (y.stream + bytes) + t == y.stream + (bytes + t);
      assert LoadOne(r, bytes + t, 4) == Cont(r', t, eos);
    }
  }

  /** Every step of a migration keeps sender and receiver in agreement. */
  lemma StepKeeps(y: Sys, e: Event, r0: Receiver, r: Receiver) returns (r': Receiver)
    requires Agree(y.sender, r) && Replays(r0, y, r) && Enabled(y, e)
    ensures Agree(Exec(y, e).sender, r') && Replays(r0, Exec(y, e), r')
  {
    match e
    case GuestWrite(p, page) =>
      WriteKeeps(y.sender, r, p, page);
      r' := r;
    case Save(p) =>
      r' := SendKeeps(y.sender, r, p);
      ReplaysMore(r0, y, r, Record(y.sender, p), r', false);
    case EndSection =>
      r' := r;
      forall t: seq<byte> ensures LoadOne(r, EosRecord() + t, 4) == Cont(r, t, true) { EosReplay(r, t); }
      ReplaysMore(r0, y, r, EosRecord(), r, true);
  }

  lemma {:induction false} RunKeeps(y: Sys, es: seq<Event>, r0: Receiver) returns (r: Receiver)
    requires Agree(y.sender, r0) && Replays(r0, y, r0) && ValidRun(y, es)
    ensures Agree(Run(y, es).sender, r) && Replays(r0, Run(y, es), r)
    decreases |es|
  {
    if |es| == 0 {
      r := r0;
    } else {
      var n := |es| - 1;
      r := RunKeeps(y, es[..n], r0);
      r := StepKeeps(Run(y, es[..n]), es[n], r0, r);
    }
  }

  /** The state stage 1 leaves: statics reset, every page marked dirty, the
      block list sent. */
  ghost predicate Begun(y: Sys) {
    && ValidSender(y.sender) && y.sender.last == -1
    && TotalBytes(y.sender.blocks) < WORD_LIMIT
    && y.stream == SizeRecord(y.sender.blocks) && y.open
  }

  lemma BegunReplays(y: Sys, r0: Receiver)
    requires Begun(y) && Mirrors(y.sender.blocks, r0.blocks)
    ensures Agree(y.sender, r0) && Replays(r0, y, r0)
  {
    forall t: seq<byte> ensures Replay(r0, y.stream + t, false) == Replay(r0, t, y.open) {
      SizeReplay(y.sender.blocks, r0, t);
    }
  }

  /** Receiver RAM equals sender RAM, block by block. */
  ghost predicate SameRam(bs: seq<RAMBlock>, rbs: seq<RAMBlock>) {
    forall i :: 0 <= i < |bs| ==> Twin(bs, rbs, i) >= 0 && rbs[Twin(bs, rbs, i)].host == bs[i].host
  }

  lemma CleanIsSame(s: Sender, r: Receiver)
    requires Agree(s, r) && NoDirty(s)
    ensures SameRam(s.blocks, r.blocks)
  {
    forall i | 0 <= i < |s.blocks|
      ensures r.blocks[Twin(s.blocks, r.blocks, i)].host == s.blocks[i].host
    {
      var j := Twin(s.blocks, r.blocks, i);
      var a, b := s.blocks[i], r.blocks[j];
      assert ValidBlock(a) && ValidBlock(b);
      forall off: nat | off % TARGET_PAGE_SIZE == 0 && off + TARGET_PAGE_SIZE <= |a.host|
        ensures PageAt(a, off) == PageAt(b, off)
      {
        assert !IsDirty(s, Pos(i, off));
        assert SamePage(s, r, Pos(i, off));
      }
      SamePagesSameHost(a, b);
    }
  }

  /** RAM migration is safe in every interleaving: whatever the guest wrote
      between the saves, the stream read so far replays without error and
      every page now clean is identical on the receiver. */
  lemma CleanPagesArrive(y: Sys, es: seq<Event>, r0: Receiver) returns (r: Receiver)
    requires Begun(y) && Mirrors(y.sender.blocks, r0.blocks) && ValidRun(y, es)
    requires !Run(y, es).open
    ensures Replay(r0, Run(y, es).stream, false) == Ok(r)
    ensures Agree(Run(y, es).sender, r)
  {
    BegunReplays(y, r0);
    r := RunKeeps(y, es, r0);
    var z := Run(y, es);
    assert z.stream + [] == z.stream;
    assert Replay(r0, z.stream + [], false) == Replay(r, [], z.open);
  }

  /** RAM migration converges: once no page is dirty, all of the receiver's
      RAM equals the sender's. */
  lemma Converges(y: Sys, es: seq<Event>, r0: Receiver) returns (r: Receiver)
    requires Begun(y) && Mirrors(y.sender.blocks, r0.blocks) && ValidRun(y, es)
    requires !Run(y, es).open
    requires Drained(Run(y, es).sender)
    ensures Replay(r0, Run(y, es).stream, false) == Ok(r)
    ensures SameRam(Run(y, es).sender.blocks, r.blocks)
  {
    r := CleanPagesArrive(y, es, r0);
    CleanIsSame(Run(y, es).sender, r);
  }
}
