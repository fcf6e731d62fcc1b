/** A whole RAM migration, sender and receiver together. */
module RamMigration {
  import opened Bits
  import opened Wire
  import opened RamList
  import opened RamStream
  import opened RamRun
  import opened RamSaver
  import opened RamLoader

  datatype Store = Store(p: Pos, page: seq<byte>)

  /** One stage-2 call: what the guest stored before it, and the answers of
      the rate limit during it. */
  datatype Round = Round(stores: seq<Store>, limits: seq<int>)

  lemma MirrorsPermuted(bs: seq<RAMBlock>, bs': seq<RAMBlock>, rbs: seq<RAMBlock>)
    requires Mirrors(bs, rbs) && ValidList(bs') && multiset(bs') == multiset(bs)
    ensures Mirrors(bs', rbs)
  {
    hide ValidList;
    forall i | 0 <= i < |bs'| ensures Twin(bs', rbs, i) >= 0 && rbs[Twin(bs', rbs, i)].length == bs'[i].length {
      assert bs'[i] in multiset(bs');
      assert bs'[i] in bs;
      var k :| 0 <= k < |bs| && bs[k] == bs'[i];
      assert Twin(bs, rbs, k) >= 0 && rbs[Twin(bs, rbs, k)].length == bs[k].length;
    }
  }

  /** The RAM after a store, if it hits RAM. */
  function StoredOne(bs: seq<RAMBlock>, st: Store): (r: seq<RAMBlock>) {
    if ValidPos(bs, st.p) && |st.page| == TARGET_PAGE_SIZE && st.p.off + TARGET_PAGE_SIZE <= |bs[st.p.b].host|
    then bs[st.p.b := SetPage(bs[st.p.b], st.p.off, st.page)]
    else bs
  }

  function StoredAll(bs: seq<RAMBlock>, stores: seq<Store>): (r: seq<RAMBlock>) {
    if stores == [] then bs else StoredOne(StoredAll(bs, stores[..|stores| - 1]), stores[|stores| - 1])
  }

  /** All that the guest stored during the rounds. */
  function StoresOf(rounds: seq<Round>): (stores: seq<Store>) {
    if rounds == [] then [] else StoresOf(rounds[..|rounds| - 1]) + rounds[|rounds| - 1].stores
  }

  lemma {:induction false} StoredMore(bs: seq<RAMBlock>, a: seq<Store>, b: seq<Store>)
    ensures StoredAll(bs, a + b) == StoredAll(StoredAll(bs, a), b)
  {
    hide StoredOne;
    if b == [] {
      assert a + b == a;
    } else {
      var n := |b| - 1;
      assert (a + b)[..|a + b| - 1] == a + b[..n];
      StoredMore(bs, a, b[..n]);
    }
  }

  /** The guest runs: each store that hits RAM dirties its page. */
  method RunGuest(saver: Saver, stores: seq<Store>)
    requires saver.Migrating()
    modifies saver, saver.physDirty
    ensures saver.Migrating() && saver.begun == old(saver.begun) && saver.open == old(saver.open)
    ensures saver.blocks == StoredAll(old(saver.blocks), stores)
  {
    hide Begun, Run, ValidRun, ValidSender;
    for i := 0 to |stores|
      invariant saver.Migrating() && saver.begun == old(saver.begun) && saver.open == old(saver.open)
      invariant saver.blocks == StoredAll(old(saver.blocks), stores[..i])
    {
      assert stores[..i + 1][..i] == stores[..i];
      if ValidPos(saver.blocks, stores[i].p) && |stores[i].page| == TARGET_PAGE_SIZE {
        saver.GuestStore(stores[i].p, stores[i].page);
      }
    }
    assert stores[..|stores|] == stores;
  }

  /** Stage 1, any number of stage-2 rounds with the guest running in between,
      stage 3 with the guest stopped, then the receiver reads the stream: if no
      stage reported an error, the receiver's RAM is the sender's, and that is the
      RAM at the start, sorted by address, with all the guest's stores. */
  method Migrate(saver: Saver, loader: Loader, first: seq<int>, rounds: seq<Round>, last: seq<int>)
    returns (ret: int)
    requires Mirrors(saver.blocks, loader.blocks) && FlagsCover(saver.blocks, saver.physDirty[..])
    requires TotalBytes(saver.blocks) < WORD_LIMIT && saver.f == []
    modifies saver, saver.physDirty, loader
    ensures ret >= 0 ==> SameRam(saver.blocks, loader.blocks)
    ensures ret >= 0 ==> saver.blocks == StoredAll(SortByOffset(old(saver.blocks)), StoresOf(rounds))
    ensures ret < 0 ==> !NoError(first) || !NoError(last) || exists i :: 0 <= i < |rounds| && !NoError(rounds[i].limits)
  {
    hide Begun, Run, ValidRun, ValidSender, Mirrors, SameRam, Replay, FlagsCover, NoError, SortByOffset;
    MirrorsValid(saver.blocks, loader.blocks);
    ghost var bs, r0 := saver.blocks, loader.State();
    ret := saver.RamSaveLive(1, 0, first, false);
    if ret < 0 { return; }
    SaverList(saver);
    MirrorsPermuted(bs, saver.blocks, r0.blocks);
    for i := 0 to |rounds|
      invariant saver.Migrating() && !saver.open && loader.State() == r0
      invariant Mirrors(saver.begun.sender.blocks, r0.blocks)
      invariant saver.blocks == StoredAll(SortByOffset(bs), StoresOf(rounds[..i]))
    {
      assert rounds[..i + 1][..i] == rounds[..i];
      StoredMore(SortByOffset(bs), StoresOf(rounds[..i]), rounds[i].stores);
      RunGuest(saver, rounds[i].stores);
      ret := saver.RamSaveLive(2, 0, rounds[i].limits, false);
      if ret < 0 { return; }
    }
    assert rounds[..|rounds|] == rounds;
    ret := saver.RamSaveLive(3, 0, last, false);
    if ret < 0 { return; }
    ghost var r := saver.Delivered(r0);
    ret := loader.LoadStream(saver.f);
  }

  lemma MirrorsValid(bs: seq<RAMBlock>, rbs: seq<RAMBlock>)
    requires Mirrors(bs, rbs)
    ensures ValidList(bs)
  {
  }

  lemma SaverList(saver: Saver)
    requires saver.Migrating()
    ensures ValidList(saver.blocks)
  {
  }
}
