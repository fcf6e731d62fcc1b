/** Every run of a block migration, the stream it leaves behind, and what the
    destination makes of that stream. */
module BlkMigRun {
  import opened Bits
  import opened Wire
  import opened BlkMigModel
  import opened BlkMigInv
  import opened BlkMigStream

  datatype Full = Full(y: Sys, stream: seq<byte>, open: bool)

  lemma BlkFits(y: Sys, b: Blk)
    requires Valid(y) && ValidBlk(y, b)
    ensures IsName(y.devs[b.dev].name) && b.sector * SECTOR_SIZE + SECTOR_SIZE <= WORD_LIMIT
  {
    assert ValidDev(y.devs[b.dev]);
  }

  lemma FullBlkValid(y: Sys, d: nat, x: nat, junk: seq<Sector>)
    requires Valid(y) && d < |y.devs| && x < |y.devs[d].disk| && x % CHUNK == 0 && |junk| == CHUNK
    ensures ValidBlk(y, FullBlk(y, d, x, junk)) && FullBlk(y, d, x, junk).dev == d
  {
  }

  /** What a step puts on the stream. */
  ghost function Bytes(y: Sys, e: Event): (bytes: seq<byte>)
    requires Enabled(y, e)
  {
    match e
    case SendBlk =>
      assert ValidBlk(y, y.list[0]);
      BlkFits(y, y.list[0]);
      BlkRecord(y.devs[y.list[0].dev].name, y.list[0])
    case SendSync(d, x, junk) =>
      FullBlkValid(y, d, x, junk);
      BlkFits(y, FullBlk(y, d, x, junk));
      BlkRecord(y.devs[d].name, FullBlk(y, d, x, junk))
    case Mark(progress) => ProgressRecord(progress)
    case EndSection => EosRecord()
    case _ => []
  }

  ghost function Step(z: Full, e: Event): Full
    requires Enabled(z.y, e)
  {
    Full(Exec(z.y, e), z.stream + Bytes(z.y, e),
         if e.EndSection? then false else if e.SendBlk? || e.SendSync? || e.Mark? then true else z.open)
  }

  ghost predicate ValidRun(z: Full, es: seq<Event>)
    decreases |es|, 0
  {
    |es| == 0 ||
    var n := |es| - 1;
    ValidRun(z, es[..n]) && Enabled(Run(z, es[..n]).y, es[n])
  }

  ghost function Run(z: Full, es: seq<Event>): Full
    requires ValidRun(z, es)
    decreases |es|, 1
  {
    if |es| == 0 then z
    else
      var n := |es| - 1;
      Step(Run(z, es[..n]), es[n])
  }

  lemma RunExtended(z: Full, es: seq<Event>, e: Event)
    requires ValidRun(z, es) && Enabled(Run(z, es).y, e)
    ensures ValidRun(z, es + [e]) && Run(z, es + [e]) == Step(Run(z, es), e)
  {
    hide Enabled, Step;
    var fs := es + [e];
    assert fs[..|fs| - 1] == es;
  }

  // -------------------------------------------------------- the destination

  ghost predicate Mirrors(y: Sys, ds: seq<Disk>) {
    forall d :: 0 <= d < |y.devs| ==>
      Twin(y, ds, d) >= 0 && |ds[Twin(y, ds, d)].sectors| == |y.devs[d].disk|
  }

  function Twin(y: Sys, ds: seq<Disk>, d: nat): (j: int)
    requires d < |y.devs|
    ensures -1 <= j < |ds|
  {
    FindDisk(ds, y.devs[d].name)
  }

  /** The destination disks, listed in the source's order. */
  ghost function View(y: Sys, ds: seq<Disk>): (dst: seq<seq<Sector>>)
    requires Mirrors(y, ds)
    ensures |dst| == |y.devs| && forall d :: 0 <= d < |dst| ==> dst[d] == ds[Twin(y, ds, d)].sectors
  {
    seq(|y.devs|, d requires 0 <= d < |y.devs| => ds[Twin(y, ds, d)].sectors)
  }

  lemma {:induction false} FindSame(ds: seq<Disk>, ds': seq<Disk>, name: seq<byte>)
    requires |ds| == |ds'| && forall i :: 0 <= i < |ds| ==> ds[i].name == ds'[i].name
    ensures FindDisk(ds, name) == FindDisk(ds', name)
  {
    if |ds| > 0 { FindSame(ds[1..], ds'[1..], name); }
  }

  lemma TwinsDiffer(y: Sys, ds: seq<Disk>, d: nat, e: nat)
    requires Valid(y) && Mirrors(y, ds) && d < |y.devs| && e < |y.devs| && d != e
    ensures Twin(y, ds, d) != Twin(y, ds, e)
  {
    if d < e { assert y.devs[d].name != y.devs[e].name; } else { assert y.devs[e].name != y.devs[d].name; }
  }

  /** Storing a chunk on the twin disk is what `Written` says. */
  lemma StoreIsWritten(y: Sys, ds: seq<Disk>, b: Blk)
    requires Valid(y) && Mirrors(y, ds) && ValidBlk(y, b)
    ensures var j := Twin(y, ds, b.dev);
            var ds' := ds[j := Stored(ds[j], b.sector, |b.got|, b.buf)];
            Mirrors(y, ds') && View(y, ds') == Written(View(y, ds), b)
  {
    hide Valid, FindDisk;
    var j := Twin(y, ds, b.dev);
    var ds' := ds[j := Stored(ds[j], b.sector, |b.got|, b.buf)];
    forall d | 0 <= d < |y.devs| ensures Twin(y, ds', d) == Twin(y, ds, d) {
      FindSame(ds, ds', y.devs[d].name);
    }
    var want := Written(View(y, ds), b);
    forall d | 0 <= d < |y.devs| ensures View(y, ds')[d] == want[d] {
      if d != b.dev { TwinsDiffer(y, ds, d, b.dev); }
    }
  }

  lemma NamesKept(y: Sys, e: Event, ds: seq<Disk>)
    requires Enabled(y, e) && Mirrors(y, ds)
    ensures Mirrors(Exec(y, e), ds) && View(Exec(y, e), ds) == View(y, ds)
  {
    hide Valid, FindDisk;
    ExecDevs(y, e);
    var y' := Exec(y, e);
    assert forall d :: 0 <= d < |y.devs| ==> y'.devs[d].name == y.devs[d].name;
    assert forall d :: 0 <= d < |y.devs| ==> Twin(y', ds, d) == Twin(y, ds, d);
  }

  /** Reading back what a step put has the effect the step promised. */
  lemma StepReplays(y: Sys, e: Event, ds: seq<Disk>) returns (ds': seq<Disk>)
    requires Enabled(y, e) && Mirrors(y, ds) && Shaped(y, View(y, ds))
    ensures Mirrors(Exec(y, e), ds')
    ensures View(Exec(y, e), ds') == Delivered(y, e, View(y, ds))
    ensures Bytes(y, e) == [] ==> ds' == ds
    ensures Bytes(y, e) != [] ==> forall t :: LoadOne(ds, Bytes(y, e) + t) == Cont(ds', t, e.EndSection?)
  {
    hide LoadOne, FindDisk, Exec, Stored, Flatten;
    ds' := ds;
    match e
    case SendBlk =>
      var b := y.list[0];
      assert ValidBlk(y, b);
      ds' := SentReplays(y, b, ds);
      NamesKept(y, e, ds');
    case SendSync(d, x, junk) =>
      FullBlkValid(y, d, x, junk);
      ds' := SentReplays(y, FullBlk(y, d, x, junk), ds);
      NamesKept(y, e, ds');
    case Mark(progress) =>
      forall t: seq<byte> ensures LoadOne(ds, ProgressRecord(progress) + t) == Cont(ds, t, false) {
        ProgressReplay(ds, progress, t);
      }
      NamesKept(y, e, ds);
    case EndSection =>
      forall t: seq<byte> ensures LoadOne(ds, EosRecord() + t) == Cont(ds, t, true) { EosReplay(ds, t); }
      NamesKept(y, e, ds);
    case _ =>
      NamesKept(y, e, ds);
  }

  lemma SentReplays(y: Sys, b: Blk, ds: seq<Disk>) returns (ds': seq<Disk>)
    requires Valid(y) && ValidBlk(y, b) && Mirrors(y, ds)
    ensures IsName(y.devs[b.dev].name) && b.sector * SECTOR_SIZE < WORD_LIMIT
    ensures Mirrors(y, ds') && View(y, ds') == Written(View(y, ds), b)
    ensures |BlkRecord(y.devs[b.dev].name, b)| > 0
    ensures forall t :: LoadOne(ds, BlkRecord(y.devs[b.dev].name, b) + t) == Cont(ds', t, false)
  {
    hide LoadOne, FindDisk;
    BlkFits(y, b);
    StoreIsWritten(y, ds, b);
    var j := Twin(y, ds, b.dev);
    ds' := ds[j := Stored(ds[j], b.sector, |b.got|, b.buf)];
    forall t: seq<byte> ensures LoadOne(ds, BlkRecord(y.devs[b.dev].name, b) + t) == Cont(ds', t, false) {
      BlkReplay(ds, y.devs[b.dev].name, b, j, t);
    }
  }

  // ------------------------------------------------------------ whole runs

  ghost predicate Replays(ds0: seq<Disk>, z: Full, ds: seq<Disk>) {
    forall t: seq<byte> :: Replay(ds0, z.stream + t, false) == Replay(ds, t, z.open)
  }

  lemma ReplaysMore(ds0: seq<Disk>, z: Full, ds: seq<Disk>, e: Event, ds': seq<Disk>)
    requires Replays(ds0, z, ds) && Enabled(z.y, e)
    requires Bytes(z.y, e) == [] ==> ds' == ds
    requires Bytes(z.y, e) != [] ==> forall t :: LoadOne(ds, Bytes(z.y, e) + t) == Cont(ds', t, e.EndSection?)
    requires Bytes(z.y, e) != [] <==> e.SendBlk? || e.SendSync? || e.Mark? || e.EndSection?
    ensures Replays(ds0, Step(z, e), ds')
  {
    hide Exec, LoadOne, Bytes, Enabled;
    var bytes := Bytes(z.y, e);
    forall t: seq<byte>
      ensures Replay(ds0, Step(z, e).stream + t, false) == Replay(ds', t, Step(z, e).open)
    {
      assert (z.stream + bytes) + t == z.stream + (bytes + t);
      if bytes == [] {
        assert bytes + t == t;
      } else {
        assert LoadOne(ds, bytes + t) == Cont(ds', t, e.EndSection?);
      }
    }
  }

  lemma BytesWhen(y: Sys, e: Event)
    requires Enabled(y, e)
    ensures Bytes(y, e) != [] <==> e.SendBlk? || e.SendSync? || e.Mark? || e.EndSection?
  {
    hide Valid, Header, Flatten;
  }

  /** What the records sent so far have put on a sector. */
  datatype Last = Never | Sent(data: Sector)

  /** `block_load` of one chunk, whatever was there before. */
  function Resent(g: seq<seq<Last>>, b: Blk): (r: seq<seq<Last>>)
    requires b.dev < |g| && |b.got| <= |b.buf|
    ensures |r| == |g| && forall d :: 0 <= d < |g| ==> |r[d]| == |g[d]|
    ensures forall d, x :: 0 <= d < |g| && 0 <= x < |g[d]| ==>
              r[d][x] == if d == b.dev && Covers(b, x) then Sent(b.buf[x - b.sector]) else g[d][x]
  {
    var was := g[b.dev];
    g[b.dev := seq(|was|, x requires 0 <= x < |was| => if Covers(b, x) then Sent(b.buf[x - b.sector]) else was[x])]
  }

  ghost predicate Fits(y: Sys, g: seq<seq<Last>>) {
    |g| == |y.devs| && forall d :: 0 <= d < |g| ==> |g[d]| == |y.devs[d].disk|
  }

  ghost function SentStep(y: Sys, e: Event, g: seq<seq<Last>>): (r: seq<seq<Last>>)
    requires Enabled(y, e) && Fits(y, g)
    ensures Fits(y, r)
  {
    match e
    case SendBlk => assert ValidBlk(y, y.list[0]); Resent(g, y.list[0])
    case SendSync(d, x, junk) => Resent(g, FullBlk(y, d, x, junk))
    case _ => g
  }

  /** All that a run has sent, the last record for each sector. */
  ghost function AllSent(z: Full, es: seq<Event>): (g: seq<seq<Last>>)
    requires ValidRun(z, es)
    ensures Fits(Run(z, es).y, g)
    decreases |es|
  {
    if |es| == 0 then seq(|z.y.devs|, d requires 0 <= d < |z.y.devs| => seq(|z.y.devs[d].disk|, _ => Never))
    else
      var n := |es| - 1;
      ExecDevs(Run(z, es[..n]).y, es[n]);
      SentStep(Run(z, es[..n]).y, es[n], AllSent(z, es[..n]))
  }

  /** A destination that held `dst` and has read all that. */
  function Over(dst: seq<seq<Sector>>, g: seq<seq<Last>>): (r: seq<seq<Sector>>)
    requires |dst| == |g| && forall d :: 0 <= d < |g| ==> |dst[d]| == |g[d]|
    ensures |r| == |g| && forall d :: 0 <= d < |g| ==> |r[d]| == |g[d]|
    ensures forall d, x :: 0 <= d < |g| && 0 <= x < |g[d]| ==>
              r[d][x] == if g[d][x].Sent? then g[d][x].data else dst[d][x]
  {
    seq(|g|, d requires 0 <= d < |g| =>
      seq(|g[d]|, x requires 0 <= x < |g[d]| => if g[d][x].Sent? then g[d][x].data else dst[d][x]))
  }

  /** The destination has the disks of the source, whatever they hold. */
  ghost predicate Sized(y: Sys, dst: seq<seq<Sector>>) {
    |dst| == |y.devs| && forall d :: 0 <= d < |dst| ==> |dst[d]| == |y.devs[d].disk|
  }

  lemma NothingSent(z: Full, dst: seq<seq<Sector>>)
    requires Sized(z.y, dst)
    ensures Over(dst, AllSent(z, [])) == dst
  {
    var r := Over(dst, AllSent(z, []));
    forall d | 0 <= d < |r| ensures r[d] == dst[d] {}
  }

  lemma OverStep(y: Sys, e: Event, dst: seq<seq<Sector>>, g: seq<seq<Last>>)
    requires Enabled(y, e) && Fits(y, g) && Sized(y, dst) && Shaped(y, Over(dst, g))
    ensures Over(dst, SentStep(y, e, g)) == Delivered(y, e, Over(dst, g))
  {
    hide Valid;
    var l, r := Over(dst, SentStep(y, e, g)), Delivered(y, e, Over(dst, g));
    if e.SendBlk? { HeadIsValid(y); }
    assert |l| == |r|;
    forall d | 0 <= d < |l| ensures l[d] == r[d] {}
  }

  lemma {:induction false} SizesKept(z: Full, es: seq<Event>)
    requires ValidRun(z, es)
    ensures |Run(z, es).y.devs| == |z.y.devs|
    ensures forall d :: 0 <= d < |z.y.devs| ==> |Run(z, es).y.devs[d].disk| == |z.y.devs[d].disk|
    ensures Valid(z.y) ==> Valid(Run(z, es).y)
    decreases |es|
  {
    hide Exec, Enabled, Bytes, Valid;
    if |es| > 0 {
      var n := |es| - 1;
      SizesKept(z, es[..n]);
      ExecDevs(Run(z, es[..n]).y, es[n]);
      StepValid(Run(z, es[..n]).y, es[n]);
    }
  }

  /** Every run: its stream is accepted and leaves on the destination the last
      contents sent for each sector. */
  lemma {:induction false} Arrives(z: Full, es: seq<Event>, ds0: seq<Disk>) returns (ds: seq<Disk>)
    requires Valid(z.y) && Mirrors(z.y, ds0) && Replays(ds0, z, ds0) && ValidRun(z, es)
    ensures Sized(Run(z, es).y, View(z.y, ds0))
    ensures Mirrors(Run(z, es).y, ds) && View(Run(z, es).y, ds) == Over(View(z.y, ds0), AllSent(z, es))
    ensures Replays(ds0, Run(z, es), ds)
    decreases |es|
  {
    hide Exec, Enabled, Bytes, Delivered, Replays, Valid, FindDisk, SentStep;
    SizesKept(z, es);
    if |es| == 0 {
      ds := ds0;
      NothingSent(z, View(z.y, ds0));
    } else {
      var n := |es| - 1;
      var m := Run(z, es[..n]);
      SizesKept(z, es[..n]);
      var mid := Arrives(z, es[..n], ds0);
      ds := StepReplays(m.y, es[n], mid);
      OverStep(m.y, es[n], View(z.y, ds0), AllSent(z, es[..n]));
      BytesWhen(m.y, es[n]);
      ReplaysMore(ds0, m, mid, es[n], ds);
    }
  }

  /** Right after `init_blk_migration`: no chunk read, none waiting. */
  ghost predicate Begun(z: Full) {
    && Valid(z.y) && z.y.list == [] && z.stream == [] && !z.open
    && forall d :: 0 <= d < |z.y.devs| ==> z.y.devs[d].cursor == 0 && z.y.devs[d].inflight == []
  }

  /** Before the last flush is over: nothing is sent past the queue, nothing is
      taken off it unsent. */
  predicate Early(e: Event) {
    !e.SendSync? && !e.Drop?
  }

  /** Until the last flush is over, settled sectors arrive. */
  lemma {:induction false} RunKeeps(z: Full, es: seq<Event>, dst: seq<seq<Sector>>)
    requires Begun(z) && ValidRun(z, es) && Sized(z.y, dst)
    requires forall i :: 0 <= i < |es| ==> Early(es[i])
    ensures Sized(Run(z, es).y, dst) && Good(Run(z, es).y, Over(dst, AllSent(z, es)))
    decreases |es|
  {
    hide Exec, Enabled, Bytes, Good, Delivered, Valid, SentStep;
    SizesKept(z, es);
    if |es| == 0 {
      BegunGood(z, Over(dst, AllSent(z, es)));
    } else {
      var n := |es| - 1;
      var m := Run(z, es[..n]);
      RunKeeps(z, es[..n], dst);
      GoodShape(m.y, Over(dst, AllSent(z, es[..n])));
      OverStep(m.y, es[n], dst, AllSent(z, es[..n]));
      BlkMigInv.StepKeeps(m.y, es[n], Over(dst, AllSent(z, es[..n])));
    }
  }

  lemma BegunGood(z: Full, dst: seq<seq<Sector>>)
    requires Begun(z) && Sized(z.y, dst)
    ensures Good(z.y, dst)
  {
    hide Valid;
  }

  lemma GoodShape(y: Sys, dst: seq<seq<Sector>>)
    requires Good(y, dst)
    ensures Shaped(y, dst)
  {
  }
}
