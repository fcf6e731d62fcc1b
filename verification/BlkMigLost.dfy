/** A chunk that is lost.  The rate limiter stops the flush of stage 3 while a
    clean chunk waits; nothing sends it again, and the clean-up frees it. */
module BlkMigLost {
  import opened Wire
  import opened BlkMigModel
  import opened BlkMigStream
  import opened BlkMigInv
  import opened BlkMigRun
  import opened BlkMigClose
  import opened BlkMigSaver
  import opened BlkMigLoader
  import opened BlkMigration

  /** One device with one sector, bulk phase not begun. */
  function Source(name: seq<byte>, a: Sector): (z: Full) {
    Full(Sys([Dev(name, [a], [false], {}, 0, [])], []), [], false)
  }

  /** The bulk read is submitted, done and completed; its chunk waits. */
  function Waiting(name: seq<byte>, a: Sector, junk: seq<Sector>): (z: Full)
    requires |junk| == CHUNK
  {
    Full(Sys([Dev(name, [a], [false], {}, 1, [])], [Blk(0, 0, junk[0 := a], [true])]), [], false)
  }

  function Reading(name: seq<byte>, a: Sector, buf: seq<Sector>, got: bool): (z: Full) {
    Full(Sys([Dev(name, [a], [false], {}, 1, [Blk(0, 0, buf, [got])])], []), [], false)
  }

  lemma SourceValid(name: seq<byte>, a: Sector)
    requires IsName(name)
    ensures Begun(Source(name, a))
  {
    var y := Source(name, a).y;
    assert ValidDev(y.devs[0]);
  }

  lemma ReadingValid(name: seq<byte>, a: Sector, buf: seq<Sector>, got: bool)
    requires IsName(name) && |buf| == CHUNK
    ensures Valid(Reading(name, a, buf, got).y)
  {
    var y := Reading(name, a, buf, got).y;
    assert ValidDev(y.devs[0]);
    assert ValidBlk(y, y.devs[0].inflight[0]);
  }

  lemma WaitingValid(name: seq<byte>, a: Sector, junk: seq<Sector>)
    requires IsName(name) && |junk| == CHUNK
    ensures Valid(Waiting(name, a, junk).y)
  {
    var y := Waiting(name, a, junk).y;
    assert ValidDev(y.devs[0]);
    assert ValidBlk(y, y.list[0]) && AllGot(y.list[0]);
  }

  lemma Submits(name: seq<byte>, a: Sector, junk: seq<Sector>)
    requires IsName(name) && |junk| == CHUNK
    ensures Enabled(Source(name, a).y, SubmitBulk(0, junk))
    ensures Step(Source(name, a), SubmitBulk(0, junk)) == Reading(name, a, junk, false)
  {
    SourceValid(name, a);
    var y := Source(name, a).y;
    hide Valid;
    var b := NewBlk(y, 0, 0, junk);
    assert b.got == [false];
    assert MarkChunks([false], 0, 1, false) == [false];
    var v, w := y.devs[0], Reading(name, a, junk, false).y.devs[0];
    assert v.inflight + [b] == w.inflight;
    assert y.devs[0 := w] == [w];
  }

  lemma Captures(name: seq<byte>, a: Sector, junk: seq<Sector>)
    requires IsName(name) && |junk| == CHUNK
    ensures Enabled(Reading(name, a, junk, false).y, Capture(0, 0, 0))
    ensures Step(Reading(name, a, junk, false), Capture(0, 0, 0)) == Reading(name, a, junk[0 := a], true)
  {
    ReadingValid(name, a, junk, false);
    hide Valid;
    var v, w := Reading(name, a, junk, false).y.devs[0], Reading(name, a, junk[0 := a], true).y.devs[0];
    assert [false][0 := true] == [true];
    assert Captured(v, 0, 0).inflight == w.inflight;
    assert [v][0 := w] == [w];
  }

  lemma Completes(name: seq<byte>, a: Sector, junk: seq<Sector>)
    requires IsName(name) && |junk| == CHUNK
    ensures Enabled(Reading(name, a, junk[0 := a], true).y, Complete(0))
    ensures Step(Reading(name, a, junk[0 := a], true), Complete(0)) == Waiting(name, a, junk)
  {
    ReadingValid(name, a, junk[0 := a], true);
    hide Valid;
    var y, w := Reading(name, a, junk[0 := a], true).y, Waiting(name, a, junk).y;
    assert AllGot(y.devs[0].inflight[0]);
    assert y.devs[0].inflight[1..] == [] && y.list + [y.devs[0].inflight[0]] == w.list;
    assert y.devs[0 := w.devs[0]] == w.devs;
  }

  /** Nothing sent, nothing on the destination. */
  lemma {:induction false} NothingGone(z: Full, es: seq<Event>, d: nat, x: nat)
    requires ValidRun(z, es) && forall i :: 0 <= i < |es| ==> !es[i].SendBlk? && !es[i].SendSync?
    requires d < |z.y.devs| && x < |z.y.devs[d].disk|
    ensures Fits(z.y, AllSent(z, es)) && AllSent(z, es)[d][x] == Never
    decreases |es|
  {
    hide Exec, Enabled, Bytes, Valid;
    SizesKept(z, es);
    if |es| > 0 { NothingGone(z, es[..|es| - 1], d, x); }
  }

  lemma WaitingIsLost(name: seq<byte>, a: Sector, junk: seq<Sector>, dst: seq<seq<Sector>>)
    requires IsName(name) && |junk| == CHUNK && Sized(Waiting(name, a, junk).y, dst) && dst[0][0] != a
    ensures Shaped(Waiting(name, a, junk).y, dst) && !NothingLost(Waiting(name, a, junk).y, dst)
  {
    WaitingValid(name, a, junk);
    hide Valid;
    var y := Waiting(name, a, junk).y;
    assert Covers(y.list[0], 0) && !DirtyAgain(y, y.list[0]) && !Stands(y, dst, 0, 0);
  }

  /** The bulk read of a device of one sector is submitted, done and completed. */
  method OneChunkWaits(name: seq<byte>, a: Sector, junk: seq<Sector>) returns (saver: Saver)
    requires IsName(name) && |junk| == CHUNK
    ensures fresh(saver) && Ready(saver) && saver.allBulkCompleted && saver.submitted == 0
    ensures saver.begun == Source(name, a) && saver.Y() == Waiting(name, a, junk).y
    ensures saver.events == [SubmitBulk(0, junk), Capture(0, 0, 0), Complete(0)]
  {
    hide saver.LedTo, Valid, InflightCount, Exec, Enabled, Bytes;
    SourceValid(name, a);
    saver := new Saver([Dev(name, [a], [false], {}, 0, [])]);
    assert saver.Y() == Source(name, a).y;
    Submits(name, a, junk);
    saver.BulkOne(0, junk);
    assert saver.Y() == Reading(name, a, junk, false).y;
    Captures(name, a, junk);
    saver.DriverCapture(0, 0, 0);
    assert saver.Y() == Reading(name, a, junk[0 := a], true).y;
    Completes(name, a, junk);
    saver.ReadCb(0);
    saver.allBulkCompleted := true;
    CountZero(saver.devs);
  }

  /** Stage 3 finds the rate limit reached: the migration reports success, the
      stream is accepted, and the destination keeps what it had. */
  method StageThreeLoses(name: seq<byte>, a: Sector, b: Sector, junk: seq<Sector>)
    returns (saver: Saver, loader: Loader, ret: int)
    requires IsName(name) && |junk| == CHUNK && a != b
    ensures ret == 0 && Finished(saver.begun, saver.events, |saver.before|)
    ensures saver.begun == Source(name, a) && Contents(saver.devs) == [[a]]
    ensures !SameDisks(saver.Y(), loader.disks)
  {
    hide Run, ValidRun, SameDisks, Ready, Finished, AllSent, Valid;
    saver := OneChunkWaits(name, a, junk);
    loader := new Loader([Disk(name, [b])]);
    ret := StageThree(saver, loader, [1], junk);
    ghost var z, y, es := saver.begun, Waiting(name, a, junk).y, saver.before;
    assert saver.left.y == y;
    NothingGone(z, es, 0, 0);
    WaitingIsLost(name, a, junk, Over(View(z.y, [Disk(name, [b])]), AllSent(z, es)));
    NotKept(saver, [Disk(name, [b])]);
  }

  lemma NotKept(saver: Saver, ds0: seq<Disk>)
    requires Finished(saver.begun, saver.events, |saver.before|) && Mirrors(saver.begun.y, ds0)
    requires saver.before <= saver.events && ValidRun(saver.begun, saver.before)
    requires Sized(Run(saver.begun, saver.before).y, View(saver.begun.y, ds0))
    requires var dst := Over(View(saver.begun.y, ds0), AllSent(saver.begun, saver.before));
             && Shaped(Run(saver.begun, saver.before).y, dst)
             && !NothingLost(Run(saver.begun, saver.before).y, dst)
    ensures !KeptAll(saver, ds0)
  {
    assert saver.events[..|saver.before|] == saver.before;
  }
}
