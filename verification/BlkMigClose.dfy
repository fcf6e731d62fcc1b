/** The end of a block migration.  The flush that opens stage 3 stops when the
    rate limiter says so; dirty chunks are then sent past the queue, and the
    clean-up frees whatever still waits in it.  When does that lose nothing? */
module BlkMigClose {
  import opened BlkMigModel
  import opened BlkMigInv
  import opened BlkMigStream
  import opened BlkMigRun
  import opened Wire

  /** What stage 3 does once its flush is over. */
  predicate Late(e: Event) {
    e.SendSync? || e.Drop? || e.Mark? || e.EndSection?
  }

  /** `cut` is the end of the last flush, once it is over. */
  predicate Phased(es: seq<Event>, closing: bool, cut: nat) {
    && (closing ==> cut <= |es|)
    && forall i :: 0 <= i < |es| ==> if closing && i >= cut then Late(es[i]) else Early(es[i])
  }

  /** The guest is stopped, no write is half done, no read is outstanding and the
      bulk phase is over. */
  ghost predicate Swept(y: Sys) {
    && Valid(y) && Still(y)
    && forall d :: 0 <= d < |y.devs| ==> y.devs[d].cursor == |y.devs[d].disk| && y.devs[d].pending == {}
  }

  ghost predicate NoneDirty(y: Sys) {
    forall d, c :: 0 <= d < |y.devs| && 0 <= c < |y.devs[d].dirty| ==> !y.devs[d].dirty[c]
  }

  /** Every chunk still waiting is dirty again, or its sectors already stand on
      the destination. */
  ghost predicate NothingLost(y: Sys, dst: seq<seq<Sector>>)
    requires Shaped(y, dst)
  {
    forall i, x :: 0 <= i < |y.list| && Covers(y.list[i], x) ==>
      DirtyAgain(y, y.list[i]) || Stands(y, dst, y.list[i].dev, x)
  }

  ghost predicate Stands(y: Sys, dst: seq<seq<Sector>>, d: nat, x: nat)
    requires Shaped(y, dst)
  {
    d < |y.devs| && x < |y.devs[d].disk| && dst[d][x] == y.devs[d].disk[x]
  }

  // ---------------------------------------------------------- after the flush

  /** Only dirty bits have changed, and only to clean. */
  ghost predicate Cleaner(y0: Sys, y: Sys) {
    && |y.devs| == |y0.devs|
    && forall d :: 0 <= d < |y.devs| ==>
         && |y.devs[d].dirty| == |y0.devs[d].dirty| && y.devs[d] == y0.devs[d].(dirty := y.devs[d].dirty)
         && forall c :: 0 <= c < |y.devs[d].dirty| && y.devs[d].dirty[c] ==> y0.devs[d].dirty[c]
  }

  /** The chunks cleaned since then hold the source's contents, all others are
      as they were. */
  ghost predicate OnlyCleaned(y0: Sys, at: seq<seq<Sector>>, y: Sys, now: seq<seq<Sector>>)
    requires Shaped(y0, at) && Shaped(y, now) && Cleaner(y0, y)
  {
    forall d, x :: 0 <= d < |y.devs| && 0 <= x < |y.devs[d].disk| ==>
      now[d][x] == if IsDirty(y0, d, x) && !IsDirty(y, d, x) then y.devs[d].disk[x] else at[d][x]
  }

  lemma LateCleans(y0: Sys, y: Sys, e: Event)
    requires Cleaner(y0, y) && Enabled(y, e) && Late(e)
    ensures Cleaner(y0, Exec(y, e))
  {
    hide Valid;
  }

  lemma LateSector(y0: Sys, at: seq<seq<Sector>>, y: Sys, now: seq<seq<Sector>>, e: Event, d: nat, x: nat)
    requires Shaped(y0, at) && Shaped(y, now) && Cleaner(y0, y) && OnlyCleaned(y0, at, y, now)
    requires Enabled(y, e) && Late(e) && d < |y.devs| && x < |y.devs[d].disk|
    requires Shaped(Exec(y, e), Delivered(y, e, now)) && Cleaner(y0, Exec(y, e))
    ensures Delivered(y, e, now)[d][x] == if IsDirty(y0, d, x) && !IsDirty(Exec(y, e), d, x) then y.devs[d].disk[x]
                                          else at[d][x]
  {
    hide Valid, Cleaner, FullBlk, MarkChunks;
    if e.SendSync? {
      ValidInflight(y, e.d);
      SyncSector(y, e, d, x);
    }
    CleanerSector(y0, y, d, x);
  }

  lemma CleanerSector(y0: Sys, y: Sys, d: nat, x: nat)
    requires Cleaner(y0, y) && d < |y.devs|
    ensures IsDirty(y, d, x) ==> IsDirty(y0, d, x)
  {
  }

  /** A chunk sent at once covers the sectors whose dirty bit it clears. */
  lemma SyncSector(y: Sys, e: Event, d: nat, x: nat)
    requires Enabled(y, e) && e.SendSync? && d < |y.devs| && x < |y.devs[d].disk|
    ensures var b := FullBlk(y, e.d, e.x, e.junk);
            && b.dev == e.d && b.sector == e.x
            && IsDirty(Exec(y, e), d, x) == (IsDirty(y, d, x) && !(d == e.d && Covers(b, x)))
            && (d == e.d && Covers(b, x) ==> IsDirty(y, d, x))
  {
    hide Valid;
    ValidInflight(y, e.d);
    ValidInflight(y, d);
    if d == e.d { ChunkOf(FullBlk(y, e.d, e.x, e.junk), |y.devs[e.d].disk|, x); }
  }

  lemma LateStep(y0: Sys, at: seq<seq<Sector>>, y: Sys, now: seq<seq<Sector>>, e: Event)
    requires Shaped(y0, at) && Shaped(y, now) && Cleaner(y0, y) && OnlyCleaned(y0, at, y, now)
    requires Enabled(y, e) && Late(e)
    ensures Shaped(Exec(y, e), Delivered(y, e, now)) && Cleaner(y0, Exec(y, e))
    ensures OnlyCleaned(y0, at, Exec(y, e), Delivered(y, e, now))
  {
    DeliveredShape(y, e, now);
    LateCleans(y0, y, e);
    hide Valid, Exec, Enabled, Delivered, IsDirty;
    var z, to := Exec(y, e), Delivered(y, e, now);
    forall d, x | 0 <= d < |z.devs| && 0 <= x < |z.devs[d].disk|
      ensures to[d][x] == if IsDirty(y0, d, x) && !IsDirty(z, d, x) then z.devs[d].disk[x] else at[d][x]
    {
      LateSector(y0, at, y, now, e, d, x);
    }
  }

  lemma {:induction false} PrefixRuns(z: Full, es: seq<Event>, k: nat)
    requires ValidRun(z, es) && k <= |es|
    ensures ValidRun(z, es[..k])
    decreases |es|
  {
    if k < |es| {
      PrefixRuns(z, es[..|es| - 1], k);
      assert es[..|es| - 1][..k] == es[..k];
    } else {
      assert es[..k] == es;
    }
  }

  lemma {:induction false} LateRun(z: Full, es: seq<Event>, k: nat, dst: seq<seq<Sector>>)
    requires ValidRun(z, es) && k <= |es| && Valid(z.y) && Sized(z.y, dst)
    requires forall i :: k <= i < |es| ==> Late(es[i])
    ensures ValidRun(z, es[..k]) && Sized(Run(z, es[..k]).y, dst) && Sized(Run(z, es).y, dst)
    ensures var y0, y := Run(z, es[..k]).y, Run(z, es).y;
            var at, now := Over(dst, AllSent(z, es[..k])), Over(dst, AllSent(z, es));
            Shaped(y0, at) && Shaped(y, now) && Cleaner(y0, y) && OnlyCleaned(y0, at, y, now)
    decreases |es|
  {
    hide Exec, Enabled, Bytes, Delivered, Valid, SentStep, Cleaner, OnlyCleaned;
    PrefixRuns(z, es, k);
    SizesKept(z, es);
    SizesKept(z, es[..k]);
    if k < |es| {
      var n := |es| - 1;
      assert es[..n][..k] == es[..k];
      LateRun(z, es[..n], k, dst);
      OverStep(Run(z, es[..n]).y, es[n], dst, AllSent(z, es[..n]));
      LateStep(Run(z, es[..k]).y, Over(dst, AllSent(z, es[..k])), Run(z, es[..n]).y,
               Over(dst, AllSent(z, es[..n])), es[n]);
    } else {
      assert es[..k] == es;
      SameIsCleaner(Run(z, es).y, Over(dst, AllSent(z, es)));
    }
  }

  lemma SameIsCleaner(y: Sys, dst: seq<seq<Sector>>)
    requires Shaped(y, dst)
    ensures Cleaner(y, y) && OnlyCleaned(y, dst, y, dst)
  {
    hide Valid;
  }

  // ------------------------------------------------------------ what is lost

  /** Where no waiting chunk covers a sector, the destination decides. */
  lemma {:induction false} ListNone(q: seq<Blk>, d: nat, x: nat, v: Sector, base: bool)
    requires BufsFit(q) && forall i :: 0 <= i < |q| ==> !(q[i].dev == d && Covers(q[i], x))
    ensures ListOk(q, d, x, v, base) == base
  {
    if |q| > 0 { ListNone(q[..|q| - 1], d, x, v, base); }
  }

  /** A clean sector stands on the destination unless a waiting chunk covers it. */
  lemma CleanStands(y: Sys, dst: seq<seq<Sector>>, d: nat, x: nat)
    requires Good(y, dst) && Swept(y) && NothingLost(y, dst) && d < |y.devs| && x < |y.devs[d].disk|
    requires !IsDirty(y, d, x)
    ensures dst[d][x] == y.devs[d].disk[x]
  {
    hide Valid, ListOk;
    ValidInflight(y, d);
    assert Settled(y, d, x);
    assert SectorOk(y, dst, d, x);
    BufsHold(y);
    if i :| 0 <= i < |y.list| && y.list[i].dev == d && Covers(y.list[i], x) {
      WaitsFor(y, i);
      ChunkOf(y.list[i], |y.devs[d].disk|, x);
      assert Stands(y, dst, d, x);
    } else {
      ListNone(y.list, d, x, y.devs[d].disk[x], dst[d][x] == y.devs[d].disk[x]);
    }
  }

  lemma WaitsFor(y: Sys, i: nat)
    requires Valid(y) && i < |y.list|
    ensures ValidBlk(y, y.list[i]) && y.list[i].sector / CHUNK < |y.devs[y.list[i].dev].dirty|
  {
    assert ValidBlk(y, y.list[i]);
    ValidInflight(y, y.list[i].dev);
  }

  ghost predicate SameContents(y: Sys, dst: seq<seq<Sector>>)
    requires Sized(y, dst)
  {
    forall d :: 0 <= d < |y.devs| ==> dst[d] == y.devs[d].disk
  }

  /** Stage 3 leaves the destination equal to the source if and only if nothing
      that its flush left in the queue was lost. */
  lemma CloseExact(y0: Sys, at: seq<seq<Sector>>, y: Sys, now: seq<seq<Sector>>)
    requires Good(y0, at) && Swept(y0) && Shaped(y, now) && Cleaner(y0, y) && OnlyCleaned(y0, at, y, now)
    requires NoneDirty(y)
    ensures SameContents(y, now) <==> NothingLost(y0, at)
  {
    hide Valid, SectorOk, Settled;
    if NothingLost(y0, at) {
      forall d | 0 <= d < |y.devs| ensures now[d] == y.devs[d].disk {
        forall x | 0 <= x < |now[d]| ensures now[d][x] == y.devs[d].disk[x] {
          ValidInflight(y0, d);
          ValidInflight(y, d);
          if !IsDirty(y0, d, x) { CleanStands(y0, at, d, x); }
        }
      }
    }
    if SameContents(y, now) {
      forall i, x | 0 <= i < |y0.list| && Covers(y0.list[i], x)
        ensures DirtyAgain(y0, y0.list[i]) || Stands(y0, at, y0.list[i].dev, x)
      {
        var b := y0.list[i];
        WaitsFor(y0, i);
        ValidInflight(y, b.dev);
        ChunkOf(b, |y0.devs[b.dev].disk|, x);
      }
    }
  }

  // -------------------------------------------------------------- whole runs

  /** A run that ends as stage 3 does: `k` events up to the end of the last
      flush, then dirty chunks until none is left, the clean-up and the end mark. */
  ghost predicate Finished(z: Full, es: seq<Event>, k: nat) {
    && Begun(z) && ValidRun(z, es) && Phased(es, true, k)
    && ValidRun(z, es[..k]) && Swept(Run(z, es[..k]).y) && NoneDirty(Run(z, es).y) && !Run(z, es).open
  }

  ghost predicate SameDisks(y: Sys, ds: seq<Disk>) {
    forall d :: 0 <= d < |y.devs| ==> Twin(y, ds, d) >= 0 && ds[Twin(y, ds, d)].sectors == y.devs[d].disk
  }

  /** Nothing that the last flush left behind was lost on this destination. */
  ghost predicate LosesNothing(z: Full, es: seq<Event>, k: nat, dst: seq<seq<Sector>>)
    requires Finished(z, es, k) && Sized(z.y, dst)
  {
    SizesKept(z, es[..k]);
    NothingLost(Run(z, es[..k]).y, Over(dst, AllSent(z, es[..k])))
  }

  lemma FinishedExact(z: Full, es: seq<Event>, k: nat, dst: seq<seq<Sector>>)
    requires Finished(z, es, k) && Sized(z.y, dst)
    ensures Sized(Run(z, es).y, dst)
    ensures SameContents(Run(z, es).y, Over(dst, AllSent(z, es))) <==> LosesNothing(z, es, k, dst)
  {
    hide Valid, Run, ValidRun, AllSent, Good, Cleaner, OnlyCleaned, NothingLost, SameContents, Swept, NoneDirty;
    LateRun(z, es, k, dst);
    RunKeeps(z, es[..k], dst);
    CloseExact(Run(z, es[..k]).y, Over(dst, AllSent(z, es[..k])), Run(z, es).y, Over(dst, AllSent(z, es)));
  }

  /** Block migration, exactly: in every interleaving of guest writes, reads,
      completions and sends, for every answer of the rate limiter, the stream of a
      finished run is accepted, and it makes every destination disk equal its
      source if and only if nothing the last flush left behind was lost. */
  lemma ConvergesExactly(z: Full, es: seq<Event>, k: nat, ds0: seq<Disk>) returns (ds: seq<Disk>)
    requires Finished(z, es, k) && Mirrors(z.y, ds0)
    ensures Replay(ds0, Run(z, es).stream, false) == Ok(ds)
    ensures SameDisks(Run(z, es).y, ds) <==> LosesNothing(z, es, k, View(z.y, ds0))
  {
    hide Exec, Valid, ValidRun, Run, LoadOne, AllSent, LosesNothing, FindDisk, Swept, NoneDirty;
    BegunReplays(z, ds0);
    ds := Arrives(z, es, ds0);
    var w := Run(z, es);
    assert w.stream + [] == w.stream;
    assert Replay(ds0, w.stream + [], false) == Replay(ds, [], w.open);
    FinishedExact(z, es, k, View(z.y, ds0));
  }

  lemma BegunReplays(z: Full, ds: seq<Disk>)
    requires Begun(z)
    ensures Valid(z.y) && Replays(ds, z, ds)
  {
    hide Valid;
    forall t: seq<byte> ensures Replay(ds, z.stream + t, false) == Replay(ds, t, z.open) {
      assert z.stream + t == t;
    }
  }

  /** In particular when every chunk left waiting is dirty again, as when none
      is left waiting. */
  lemma Converges(z: Full, es: seq<Event>, k: nat, ds0: seq<Disk>) returns (ds: seq<Disk>)
    requires Finished(z, es, k) && Mirrors(z.y, ds0)
    requires var y := Run(z, es[..k]).y; forall i :: 0 <= i < |y.list| ==> DirtyAgain(y, y.list[i])
    ensures Replay(ds0, Run(z, es).stream, false) == Ok(ds) && SameDisks(Run(z, es).y, ds)
  {
    hide Run, ValidRun, AllSent, SameDisks, Replay;
    ds := ConvergesExactly(z, es, k, ds0);
    SizesKept(z, es[..k]);
    assert NothingLost(Run(z, es[..k]).y, Over(View(z.y, ds0), AllSent(z, es[..k])));
  }

  // ------------------------------------------------------ for all destinations

  ghost predicate Converged(z: Full, es: seq<Event>, ds0: seq<Disk>)
    requires ValidRun(z, es)
  {
    var r := Replay(ds0, Run(z, es).stream, false);
    r.Ok? && SameDisks(Run(z, es).y, r.ds)
  }

  /** Every chunk still waiting is dirty again, or what was last sent for its
      sectors is what they hold. */
  ghost predicate SentBefore(y: Sys, g: seq<seq<Last>>)
    requires Fits(y, g)
  {
    forall i, x :: 0 <= i < |y.list| && Covers(y.list[i], x) ==>
      DirtyAgain(y, y.list[i]) || IsSent(y, g, y.list[i].dev, x)
  }

  ghost predicate IsSent(y: Sys, g: seq<seq<Last>>, d: nat, x: nat)
    requires Fits(y, g)
  {
    d < |y.devs| && x < |y.devs[d].disk| && g[d][x] == Sent(y.devs[d].disk[x])
  }

  function Other(s: Sector): (r: Sector)
    ensures r != s
  {
    s[0 := if s[0] == 0 then 1 else 0]
  }

  function Others(ss: seq<Sector>): (r: seq<Sector>)
    ensures |r| == |ss| && forall x :: 0 <= x < |ss| ==> r[x] == Other(ss[x])
  {
    seq(|ss|, x requires 0 <= x < |ss| => Other(ss[x]))
  }

  /** Disks with the source's names and sizes and none of its contents. */
  function Wrong(names: Sys, y: Sys): (ds: seq<Disk>)
    requires |names.devs| == |y.devs|
    ensures |ds| == |y.devs|
    ensures forall d :: 0 <= d < |ds| ==> ds[d] == Disk(names.devs[d].name, Others(y.devs[d].disk))
  {
    seq(|y.devs|, d requires 0 <= d < |y.devs| => Disk(names.devs[d].name, Others(y.devs[d].disk)))
  }

  lemma WrongMirrors(names: Sys, y: Sys)
    requires Valid(names) && |names.devs| == |y.devs|
    requires forall d :: 0 <= d < |y.devs| ==> |y.devs[d].disk| == |names.devs[d].disk|
    ensures Mirrors(names, Wrong(names, y))
    ensures forall d :: 0 <= d < |y.devs| ==> View(names, Wrong(names, y))[d] == Others(y.devs[d].disk)
  {
    hide FindDisk;
    var ds := Wrong(names, y);
    forall d | 0 <= d < |y.devs| ensures Twin(names, ds, d) == d {
      var j := Twin(names, ds, d);
      assert ds[d].name == names.devs[d].name;
    }
  }

  /** A waiting clean sector that was not sent is lost on a destination with
      different contents. */
  lemma LostOnWrong(y: Sys, g: seq<seq<Last>>, dst: seq<seq<Sector>>)
    requires Valid(y) && Fits(y, g) && Sized(y, dst)
    requires forall d :: 0 <= d < |y.devs| ==> dst[d] == Others(y.devs[d].disk)
    ensures NothingLost(y, Over(dst, g)) ==> SentBefore(y, g)
  {
    hide Valid;
    if NothingLost(y, Over(dst, g)) {
      forall i, x | 0 <= i < |y.list| && Covers(y.list[i], x)
        ensures DirtyAgain(y, y.list[i]) || IsSent(y, g, y.list[i].dev, x)
      {
        if !DirtyAgain(y, y.list[i]) { assert Stands(y, Over(dst, g), y.list[i].dev, x); }
      }
    }
  }

  lemma SentIsEnough(y: Sys, g: seq<seq<Last>>, dst: seq<seq<Sector>>)
    requires Valid(y) && Fits(y, g) && Sized(y, dst) && SentBefore(y, g)
    ensures NothingLost(y, Over(dst, g))
  {
    hide Valid;
    forall i, x | 0 <= i < |y.list| && Covers(y.list[i], x)
      ensures DirtyAgain(y, y.list[i]) || Stands(y, Over(dst, g), y.list[i].dev, x)
    {
      if !DirtyAgain(y, y.list[i]) { assert IsSent(y, g, y.list[i].dev, x); }
    }
  }

  /** A finished run makes every destination equal, whatever it held before, if
      and only if each chunk left waiting by the last flush was dirty again or had
      been sent with its present contents: the source alone can tell. */
  lemma ForEveryDestination(z: Full, es: seq<Event>, k: nat)
    requires Finished(z, es, k)
    ensures (forall ds0 :: Mirrors(z.y, ds0) ==> Converged(z, es, ds0))
            <==> SentBefore(Run(z, es[..k]).y, AllSent(z, es[..k]))
  {
    hide Exec, Valid, ValidRun, Run, AllSent, Replay, SameDisks, NothingLost, SentBefore, Mirrors, Swept, NoneDirty;
    SizesKept(z, es[..k]);
    BegunReplays(z, []);
    var y, g := Run(z, es[..k]).y, AllSent(z, es[..k]);
    if SentBefore(y, g) {
      forall ds0 | Mirrors(z.y, ds0) ensures Converged(z, es, ds0) {
        MirrorsSized(z.y, ds0);
        SentIsEnough(y, g, View(z.y, ds0));
        var ds := ConvergesExactly(z, es, k, ds0);
      }
    }
    if forall ds0 :: Mirrors(z.y, ds0) ==> Converged(z, es, ds0) {
      var ds0 := Wrong(z.y, y);
      WrongMirrors(z.y, y);
      MirrorsSized(z.y, ds0);
      var ds := ConvergesExactly(z, es, k, ds0);
      LostOnWrong(y, g, View(z.y, ds0));
    }
  }

  lemma MirrorsSized(y: Sys, ds: seq<Disk>)
    requires Mirrors(y, ds)
    ensures Sized(y, View(y, ds))
  {
  }
}
