/** A whole block migration, source and destination together. */
module BlkMigration {
  import opened BlkMigModel
  import opened BlkMigInv
  import opened BlkMigStream
  import opened BlkMigRun
  import opened BlkMigClose
  import opened BlkMigSaver
  import opened BlkMigLoader

  /** What may happen between two calls of the migration code. */
  datatype Act =
    | WriteLands(d: nat, x: nat, data: Sector)
    | WriteReturns(d: nat, x: nat, n: nat)
    | SectorRead(d: nat, i: nat, k: nat)
    | ReadReturns(d: nat)

  /** A call in stage 2, with what happened before it and the answers it gets. */
  datatype Round = Round(acts: seq<Act>, first: seq<int>, rate: nat, second: seq<int>, enough: bool)

  function EventOf(a: Act): (e: Event) {
    match a
    case WriteLands(d, x, data) => Land(d, x, data)
    case WriteReturns(d, x, n) => Notify(d, x, n)
    case SectorRead(d, i, k) => Capture(d, i, k)
    case ReadReturns(d) => Complete(d)
  }

  /** An act takes its step if it can. */
  ghost function Acted(y: Sys, a: Act): (z: Sys) {
    if Enabled(y, EventOf(a)) then Exec(y, EventOf(a)) else y
  }

  ghost function ActedAll(y: Sys, acts: seq<Act>): (z: Sys) {
    if acts == [] then y else Acted(ActedAll(y, acts[..|acts| - 1]), acts[|acts| - 1])
  }

  // ------------------------------------------------- what the guest has written

  function Contents(devs: seq<Dev>): (disks: seq<seq<Sector>>)
    ensures |disks| == |devs| && forall d :: 0 <= d < |devs| ==> disks[d] == devs[d].disk
  {
    seq(|devs|, d requires 0 <= d < |devs| => devs[d].disk)
  }

  /** The disks after a guest write of one sector. */
  function Landed(disks: seq<seq<Sector>>, a: Act): (r: seq<seq<Sector>>)
    ensures |r| == |disks|
  {
    if a.WriteLands? && a.d < |disks| && a.x < |disks[a.d]| then
      var disk: seq<Sector> := disks[a.d];
      disks[a.d := disk[a.x := a.data]]
    else disks
  }

  function LandedAll(disks: seq<seq<Sector>>, acts: seq<Act>): (r: seq<seq<Sector>>)
    ensures |r| == |disks|
  {
    if acts == [] then disks else Landed(LandedAll(disks, acts[..|acts| - 1]), acts[|acts| - 1])
  }

  /** All that happened during the rounds. */
  function ActsOf(rounds: seq<Round>): (acts: seq<Act>) {
    if rounds == [] then [] else ActsOf(rounds[..|rounds| - 1]) + rounds[|rounds| - 1].acts
  }

  lemma ActLands(y: Sys, a: Act)
    requires Valid(y)
    ensures Contents(Acted(y, a).devs) == Landed(Contents(y.devs), a)
  {
    hide Valid;
    var l, r := Contents(Acted(y, a).devs), Landed(Contents(y.devs), a);
    assert |l| == |r| && forall d :: 0 <= d < |l| ==> l[d] == r[d];
  }

  lemma {:induction false} ActsLand(y: Sys, acts: seq<Act>)
    requires Valid(y)
    ensures Valid(ActedAll(y, acts)) && Contents(ActedAll(y, acts).devs) == LandedAll(Contents(y.devs), acts)
  {
    hide Valid, Exec, Enabled;
    if acts != [] {
      var n := |acts| - 1;
      ActsLand(y, acts[..n]);
      var z := ActedAll(y, acts[..n]);
      ActLands(z, acts[n]);
      if Enabled(z, EventOf(acts[n])) { StepValid(z, EventOf(acts[n])); }
    }
  }

  lemma {:induction false} LandedMore(disks: seq<seq<Sector>>, a: seq<Act>, b: seq<Act>)
    ensures LandedAll(disks, a + b) == LandedAll(LandedAll(disks, a), b)
  {
    if b == [] {
      assert a + b == a;
    } else {
      var n := |b| - 1;
      assert (a + b)[..|a + b| - 1] == a + b[..n];
      LandedMore(disks, a, b[..n]);
    }
  }

  lemma SameContents(a: seq<Dev>, b: seq<Dev>)
    requires SamePending(a, b)
    ensures Contents(a) == Contents(b)
  {
  }

  // ------------------------------------------------------------ between the calls

  ghost predicate Ready(saver: Saver)
    reads saver
  {
    saver.Running() && (saver.allBulkCompleted ==> forall d :: 0 <= d < |saver.aux| ==> saver.aux[d].bulkCompleted)
  }

  /** The guest or the driver does one thing, if it can. */
  method Perform(saver: Saver, a: Act)
    requires Ready(saver)
    modifies saver
    ensures Ready(saver) && saver.begun == old(saver.begun) && saver.open == old(saver.open)
    ensures saver.allBulkCompleted == old(saver.allBulkCompleted)
    ensures saver.Y() == Acted(old(saver.Y()), a)
  {
    hide saver.LedTo, Valid, InflightCount;
    match a
    case WriteLands(d, x, data) =>
      if d < |saver.devs| && x < |saver.devs[d].disk| { saver.GuestLand(d, x, data); }
    case WriteReturns(d, x, n) =>
      if d < |saver.devs| && 0 < n && x + n <= |saver.devs[d].disk| { saver.GuestNotify(d, x, n); }
    case SectorRead(d, i, k) =>
      if d < |saver.devs| && i < |saver.devs[d].inflight| && k < |saver.devs[d].inflight[i].got| {
        saver.DriverCapture(d, i, k);
      }
    case ReadReturns(d) =>
      if d < |saver.devs| && |saver.devs[d].inflight| > 0 && AllGot(saver.devs[d].inflight[0]) { saver.ReadCb(d); }
  }

  /** The guest and the driver do what they can. */
  method Environment(saver: Saver, acts: seq<Act>)
    requires Ready(saver)
    modifies saver
    ensures Ready(saver) && saver.begun == old(saver.begun) && saver.open == old(saver.open)
    ensures saver.allBulkCompleted == old(saver.allBulkCompleted)
    ensures saver.Y() == ActedAll(old(saver.Y()), acts)
    ensures Contents(saver.devs) == LandedAll(old(Contents(saver.devs)), acts)
  {
    assert Valid(saver.Y());
    hide Ready, Acted;
    for i := 0 to |acts|
      invariant Ready(saver) && saver.begun == old(saver.begun) && saver.open == old(saver.open)
      invariant saver.allBulkCompleted == old(saver.allBulkCompleted)
      invariant saver.Y() == ActedAll(old(saver.Y()), acts[..i])
    {
      assert acts[..i + 1][..i] == acts[..i];
      Perform(saver, acts[i]);
    }
    assert acts[..|acts|] == acts;
    ActsLand(old(saver.Y()), acts);
  }

  // -------------------------------------------------------------- the migration

  /** Nothing the last flush left behind was lost on a destination that held
      `ds0` before. */
  ghost predicate KeptAll(saver: Saver, ds0: seq<Disk>)
    reads saver
    requires Finished(saver.begun, saver.events, |saver.before|) && Mirrors(saver.begun.y, ds0)
  {
    LosesNothing(saver.begun, saver.events, |saver.before|, View(saver.begun.y, ds0))
  }

  /** Stage 3 and `block_load` of the whole stream, for every answer of the rate
      limiter: the disks are then equal if and only if nothing that the last flush
      left in the queue was lost. */
  method StageThree(saver: Saver, loader: Loader, last: seq<int>, junk: seq<Sector>) returns (ret: int)
    requires Ready(saver) && |junk| == CHUNK && saver.submitted == 0 && saver.allBulkCompleted
    requires forall d :: 0 <= d < |saver.devs| ==> saver.devs[d].pending == {}
    requires Mirrors(saver.begun.y, loader.disks)
    modifies saver, loader
    ensures saver.begun == old(saver.begun) && Contents(saver.devs) == old(Contents(saver.devs))
    ensures ret < 0 ==> ret in last && loader.disks == old(loader.disks)
    ensures ret >= 0 ==> ret == 0 && Finished(saver.begun, saver.events, |saver.before|)
    ensures ret >= 0 ==> saver.before <= saver.events
    ensures ret >= 0 ==> saver.before == old(saver.events) + Sends(Allowed(last, |old(saver.blkList)|))
    ensures ret >= 0 ==>
              saver.left.y == Sys(old(saver.devs), old(saver.blkList)[Allowed(last, |old(saver.blkList)|)..])
    ensures ret >= 0 ==> ValidRun(saver.begun, saver.before) && Run(saver.begun, saver.before) == saver.left
    ensures ret >= 0 ==> (SameDisks(saver.Y(), loader.disks) <==> KeptAll(saver, old(loader.disks)))
  {
    hide LosesNothing, Mirrors, SameDisks, Replay, Valid, InflightCount, Run, ValidRun, Finished;
    ret := saver.BlockSaveLive(3, last, 0, [], junk, false);
    SameContents(old(saver.devs), saver.devs);
    if ret >= 0 {
      ghost var ds := saver.Delivered(loader.disks);
      ret := loader.LoadStream(saver.f);
    }
  }

  /** `Aborted` holds the error of the file, as the rate limiter reports it. */
  datatype Outcome = NotReady | Aborted(error: int) | Completed

  predicate NoErrors(limits: seq<int>) {
    forall i :: 0 <= i < |limits| ==> limits[i] >= 0
  }

  /** Stages 1 and 2 with any environment in between, until a call reports stage 2
      over.  When the guest has then been stopped (`acts`), no write is half done and
      no read is outstanding, stage 3 and `block_load` follow.  The source ends up
      with what the guest wrote in the `n` rounds and until it stopped; the
      destination with the same, if and only if nothing the last flush left behind
      was lost. */
  method Migrate(saver: Saver, loader: Loader, rounds: seq<Round>, acts: seq<Act>, last: seq<int>, junk: seq<Sector>)
    returns (out: Outcome, n: nat)
    requires Ready(saver) && saver.begun == saver.Now() && !saver.allBulkCompleted
    requires Mirrors(saver.Y(), loader.disks) && |junk| == CHUNK
    modifies saver, loader
    ensures saver.begun == old(saver.begun) && n <= |rounds|
    ensures out.Completed? ==>
              && n > 0 && Finished(saver.begun, saver.events, |saver.before|)
              && Contents(saver.devs) == LandedAll(old(Contents(saver.devs)), ActsOf(rounds[..n]) + acts)
              && (SameDisks(saver.Y(), loader.disks) <==> KeptAll(saver, old(loader.disks)))
    ensures out.NotReady? ==>
              || saver.submitted != 0
              || (exists d :: 0 <= d < |saver.devs| && saver.devs[d].pending != {})
              || (n == |rounds| && (n > 0 ==> !StageTwoOver(saver, rounds[n - 1])))
    ensures out.Aborted? ==>
              || !NoErrors(last)
              || exists i :: 0 <= i < |rounds| && !(NoErrors(rounds[i].first) && NoErrors(rounds[i].second))
  {
    hide LosesNothing, Mirrors, SameDisks, Replay, Valid, InflightCount, Run, ValidRun, Finished, DirtyCount;
    ghost var z, was := saver.begun, Contents(saver.devs);
    n := 0;
    var ret := saver.BlockSaveLive(1, [], 0, [], junk, false);
    SameContents(old(saver.devs), saver.devs);
    while n < |rounds| && ret == 0
      invariant n <= |rounds| && Ready(saver) && saver.begun == z && loader.disks == old(loader.disks)
      invariant Contents(saver.devs) == LandedAll(was, ActsOf(rounds[..n]))
      invariant 0 <= ret <= 1 && (ret == 1 ==> n > 0 && saver.allBulkCompleted)
      invariant ret == 0 && n > 0 ==> !StageTwoOver(saver, rounds[n - 1])
    {
      assert rounds[..n + 1][..n] == rounds[..n];
      Environment(saver, rounds[n].acts);
      LandedMore(was, ActsOf(rounds[..n]), rounds[n].acts);
      ghost var devs := saver.devs;
      ret := saver.BlockSaveLive(2, rounds[n].first, rounds[n].rate, rounds[n].second, junk, rounds[n].enough);
      if ret < 0 { return Aborted(ret), n; }
      SameContents(devs, saver.devs);
      n := n + 1;
    }
    if ret == 0 { return NotReady, n; }
    Environment(saver, acts);
    LandedMore(was, ActsOf(rounds[..n]), acts);
    if saver.submitted != 0 { return NotReady, n; }
    if exists d :: 0 <= d < |saver.devs| && saver.devs[d].pending != {} { return NotReady, n; }
    ret := StageThree(saver, loader, last, junk);
    out := if ret < 0 then Aborted(ret) else Completed;
  }

  /** Stage 2 is over: the bulk phase is, and what is dirty can be sent in time. */
  predicate StageTwoOver(saver: Saver, r: Round)
    reads saver
  {
    saver.allBulkCompleted && (DirtyCount(saver.devs) == 0 || r.enough)
  }
}
