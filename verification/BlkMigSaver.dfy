/** The sending half of block migration as it runs (`block-migration.c`): the
    global counters and queues, the per-device cursors, and the three stages.

    Each change of the migration state is one step of the step system and is
    recorded in `events`. */
module BlkMigSaver {
  import opened Bits
  import opened Wire
  import opened BlkMigModel
  import opened BlkMigInv
  import opened BlkMigStream
  import opened BlkMigRun
  import opened BlkMigClose

  /** The rest of a BlkMigDevState: bulk and dirty cursors and aio_bitmap. */
  datatype DevState = DevState(bulkCompleted: bool, curDirty: nat, completedSectors: nat, aio: seq<bool>)

  function InflightCount(devs: seq<Dev>): nat {
    if |devs| == 0 then 0 else |devs[0].inflight| + InflightCount(devs[1..])
  }

  lemma {:induction false} CountUpdated(devs: seq<Dev>, d: nat, v: Dev)
    requires d < |devs|
    ensures InflightCount(devs[d := v]) == InflightCount(devs) - |devs[d].inflight| + |v.inflight|
  {
    if d == 0 {
      assert devs[d := v][1..] == devs[1..];
    } else {
      assert devs[d := v][1..] == devs[1..][d - 1 := v];
      CountUpdated(devs[1..], d - 1, v);
    }
  }

  lemma {:induction false} CountZero(devs: seq<Dev>)
    ensures InflightCount(devs) == 0 <==> forall d :: 0 <= d < |devs| ==> |devs[d].inflight| == 0
  {
    if |devs| > 0 {
      CountZero(devs[1..]);
      if forall d :: 0 <= d < |devs| ==> |devs[d].inflight| == 0 {
        forall d | 0 <= d < |devs[1..]| ensures |devs[1..][d].inflight| == 0 { assert devs[1..][d] == devs[d + 1]; }
      }
      if InflightCount(devs) == 0 {
        forall d | 0 <= d < |devs| ensures |devs[d].inflight| == 0 {
          if d > 0 { assert devs[d] == devs[1..][d - 1]; }
        }
      }
    }
  }

  /** What `qemu_file_rate_limit` answers next: 0 to go on, 1 to stop, negative
      for an error of the file.  With no more answers it says stop. */
  function NextLimit(limits: seq<int>): (r: int) {
    if limits == [] then 1 else limits[0]
  }

  /** How many of `n` waiting chunks the rate limit lets out. */
  function Allowed(limits: seq<int>, n: nat): (k: nat)
    ensures k <= n && k <= |limits|
    ensures forall i :: 0 <= i < k ==> limits[i] == 0
    ensures k < n ==> NextLimit(limits[k..]) != 0
  {
    if n == 0 || NextLimit(limits) != 0 then 0 else 1 + Allowed(limits[1..], n - 1)
  }

  function Sends(n: nat): (es: seq<Event>) {
    seq(n, _ => SendBlk)
  }

  lemma NoSends(es: seq<Event>)
    ensures es + Sends(0) == es
  {
  }

  lemma AllowedNone(limits: seq<int>, n: nat)
    requires NextLimit(limits) != 0
    ensures Allowed(limits, n) == 0
  {
  }

  lemma AllowedMore(limits: seq<int>, i: nat, n: nat)
    requires i <= |limits| && n > 0 && NextLimit(limits[i..]) == 0
    ensures i < |limits| && Allowed(limits[i..], n) == 1 + Allowed(limits[i + 1..], n - 1)
    ensures Sends(i) + [SendBlk] == Sends(i + 1)
  {
    assert limits[i..][1..] == limits[i + 1..];
  }

  /** `bmds_set_aio_inflight`. */
  function SetAio(aio: seq<bool>, x: nat, n: nat, v: bool): (r: seq<bool>)
    requires n > 0
    ensures |r| == |aio|
  {
    MarkChunks(aio, x, n, v)
  }

  /** Everything but the reads in flight is as it was. */
  ghost predicate SameTracking(a: seq<Dev>, b: seq<Dev>) {
    && |a| == |b|
    && forall d :: 0 <= d < |a| ==> b[d] == a[d].(inflight := b[d].inflight)
  }

  /** Everything but the aio bitmaps is as it was. */
  ghost predicate SameCursors(a: seq<DevState>, b: seq<DevState>) {
    |a| == |b| && forall d :: 0 <= d < |a| ==> b[d] == a[d].(aio := b[d].aio)
  }

  ghost predicate SameFlags(a: seq<DevState>, b: seq<DevState>) {
    |a| == |b| && forall d :: 0 <= d < |a| ==> b[d].bulkCompleted == a[d].bulkCompleted
  }

  /** No guest write has landed or been marked meanwhile. */
  ghost predicate SamePending(a: seq<Dev>, b: seq<Dev>) {
    |a| == |b| && forall d :: 0 <= d < |a| ==> b[d].pending == a[d].pending && b[d].disk == a[d].disk
  }

  ghost predicate SameBulk(a: seq<Dev>, b: seq<Dev>) {
    |a| == |b| && forall d :: 0 <= d < |a| ==> b[d].cursor == a[d].cursor
  }

  /** Only the dirty cursor of device `d` (and aio bits) may have moved. */
  ghost predicate SameSkipped(a: seq<DevState>, b: seq<DevState>, d: nat) {
    && |a| == |b|
    && forall i :: 0 <= i < |a| ==>
         b[i] == a[i].(aio := b[i].aio, curDirty := if i == d then b[i].curDirty else a[i].curDirty)
  }

  /** No chunk below the dirty cursor is dirty. */
  ghost predicate CleanBelow(v: Dev, cur: nat) {
    forall c :: 0 <= c < |v.dirty| && c * CHUNK < cur ==> !v.dirty[c]
  }

  ghost predicate AllCleanBelow(devs: seq<Dev>, aux: seq<DevState>) {
    |devs| == |aux| && forall d :: 0 <= d < |devs| ==> CleanBelow(devs[d], aux[d].curDirty)
  }

  ghost predicate CleanBetween(v: Dev, lo: nat, hi: nat) {
    forall c :: 0 <= c < |v.dirty| && lo <= c * CHUNK < hi ==> !v.dirty[c]
  }

  lemma SameClean(a: seq<Dev>, b: seq<Dev>, d: nat, lo: nat, hi: nat)
    requires d < |a| && SameTracking(a, b) && CleanBetween(a[d], lo, hi)
    ensures CleanBetween(b[d], lo, hi)
  {
  }

  lemma CleanOneMore(v: Dev, lo: nat, hi: nat)
    requires CleanBetween(v, lo, hi) && hi % CHUNK == 0
    requires hi / CHUNK < |v.dirty| ==> !v.dirty[hi / CHUNK]
    ensures CleanBetween(v, lo, hi + CHUNK)
  {
    forall c | 0 <= c < |v.dirty| && lo <= c * CHUNK < hi + CHUNK ensures !v.dirty[c] {
      if c * CHUNK >= hi {
        assert c == hi / CHUNK;
      }
    }
  }

  function CountTrue(bs: seq<bool>): nat {
    if |bs| == 0 then 0 else (if bs[0] then 1 else 0) + CountTrue(bs[1..])
  }

  function DirtyCount(devs: seq<Dev>): nat {
    if |devs| == 0 then 0 else CountTrue(devs[0].dirty) + DirtyCount(devs[1..])
  }

  lemma {:induction false} CountCleared(bs: seq<bool>, c: nat)
    requires c < |bs| && bs[c]
    ensures CountTrue(bs[c := false]) == CountTrue(bs) - 1
  {
    if c == 0 {
      assert bs[c := false][1..] == bs[1..];
    } else {
      assert bs[c := false][1..] == bs[1..][c - 1 := false];
      CountCleared(bs[1..], c - 1);
    }
  }

  lemma {:induction false} DirtyCountUpdated(devs: seq<Dev>, d: nat, v: Dev)
    requires d < |devs|
    ensures DirtyCount(devs[d := v]) == DirtyCount(devs) - CountTrue(devs[d].dirty) + CountTrue(v.dirty)
  {
    if d == 0 {
      assert devs[d := v][1..] == devs[1..];
    } else {
      assert devs[d := v][1..] == devs[1..][d - 1 := v];
      DirtyCountUpdated(devs[1..], d - 1, v);
    }
  }

  /** Resetting the dirty bits of one chunk's sectors clears exactly its bit. */
  lemma ClearedOne(devs: seq<Dev>, d: nat, x: nat)
    requires d < |devs| && ValidDev(devs[d]) && x % CHUNK == 0 && x < |devs[d].disk| && devs[d].dirty[x / CHUNK]
    ensures var v := devs[d];
            var w := v.(dirty := MarkChunks(v.dirty, x, Min(CHUNK, |v.disk| - x), false));
            && w.dirty == v.dirty[x / CHUNK := false]
            && DirtyCount(devs[d := w]) == DirtyCount(devs) - 1
  {
    var v := devs[d];
    var w := v.(dirty := MarkChunks(v.dirty, x, Min(CHUNK, |v.disk| - x), false));
    assert w.dirty == v.dirty[x / CHUNK := false];
    CountCleared(v.dirty, x / CHUNK);
    DirtyCountUpdated(devs, d, w);
  }

  /** `bdrv_read` into a fresh buffer. */
  function ReadNow(v: Dev, d: nat, x: nat, nr: nat, junk: seq<Sector>): (b: Blk)
    requires x + nr <= |v.disk| && nr <= |junk|
  {
    Blk(d, x, v.disk[x..x + nr] + junk[nr..], seq(nr, _ => true))
  }

  lemma SyncRecord(y: Sys, d: nat, x: nat, junk: seq<Sector>, blk: Blk)
    requires Enabled(y, SendSync(d, x, junk))
    requires blk == ReadNow(y.devs[d], d, x, Min(CHUNK, |y.devs[d].disk| - x), junk)
    ensures IsName(y.devs[d].name) && blk.sector * SECTOR_SIZE < WORD_LIMIT
    ensures Bytes(y, SendSync(d, x, junk)) == BlkRecord(y.devs[d].name, blk)
  {
    hide Valid, BlkRecord;
    FullBlkValid(y, d, x, junk);
    BlkFits(y, FullBlk(y, d, x, junk));
    assert blk == FullBlk(y, d, x, junk);
  }

  lemma HeadFits(y: Sys)
    requires Valid(y) && y.list != []
    ensures ValidBlk(y, y.list[0]) && IsName(y.devs[y.list[0].dev].name)
    ensures y.list[0].sector * SECTOR_SIZE + SECTOR_SIZE <= WORD_LIMIT
    ensures Bytes(y, SendBlk) == BlkRecord(y.devs[y.list[0].dev].name, y.list[0])
  {
    hide BlkRecord;
    BlkFits(y, y.list[0]);
  }

  /** The next chunk of the bulk phase is submitted, if there is one. */
  ghost predicate BulkStep(y: Sys, z: Sys, d: nat, junk: seq<Sector>) {
    d < |y.devs| &&
    if y.devs[d].cursor < |y.devs[d].disk| then Enabled(y, SubmitBulk(d, junk)) && z == Exec(y, SubmitBulk(d, junk))
    else z == y
  }

  predicate FirstIncomplete(aux: seq<DevState>, i: nat) {
    i < |aux| && !aux[i].bulkCompleted && forall j :: 0 <= j < i ==> aux[j].bulkCompleted
  }

  /** A stage-3 call either finds nothing left on device `d` or sends one
      dirty chunk; it never passes over a dirty one. */
  ghost predicate SyncProgress(a: seq<Dev>, b: seq<Dev>, s: seq<DevState>, t: seq<DevState>, d: nat, over: bool) {
    && |a| == |b| == |s| == |t| && d < |a|
    && (forall i :: 0 <= i < |a| && i != d ==> b[i] == a[i] && t[i].curDirty == s[i].curDirty)
    && (CleanBelow(a[d], s[d].curDirty) ==> CleanBelow(b[d], t[d].curDirty))
    && (over ==> DirtyCount(b) == DirtyCount(a))
    && (!over ==> DirtyCount(b) < DirtyCount(a))
  }

  /** Devices whose bulk phase is not finished. */
  function Incomplete(aux: seq<DevState>): nat {
    if |aux| == 0 then 0 else (if aux[0].bulkCompleted then 0 else 1) + Incomplete(aux[1..])
  }

  lemma {:induction false} IncompleteDrops(aux: seq<DevState>, i: nat)
    requires i < |aux| && !aux[i].bulkCompleted
    ensures Incomplete(aux[i := aux[i].(bulkCompleted := true)]) == Incomplete(aux) - 1
  {
    var b := aux[i := aux[i].(bulkCompleted := true)];
    if i == 0 {
      assert b[1..] == aux[1..];
    } else {
      assert b[1..] == aux[1..][i - 1 := aux[i].(bulkCompleted := true)];
      IncompleteDrops(aux[1..], i - 1);
    }
  }

  lemma {:induction false} SameFlagsIncomplete(a: seq<DevState>, b: seq<DevState>)
    requires SameFlags(a, b)
    ensures Incomplete(a) == Incomplete(b)
  {
    if |a| > 0 {
      forall d | 0 <= d < |a[1..]| ensures b[1..][d].bulkCompleted == a[1..][d].bulkCompleted {
        assert a[1..][d] == a[d + 1] && b[1..][d] == b[d + 1];
      }
      SameFlagsIncomplete(a[1..], b[1..]);
    }
  }

  function TotalSectors(devs: seq<Dev>): nat {
    if |devs| == 0 then 0 else TotalSectors(devs[..|devs| - 1]) + |devs[|devs| - 1].disk|
  }

  lemma SumNext(devs: seq<Dev>, i: nat)
    requires i < |devs|
    ensures TotalSectors(devs[..i + 1]) == TotalSectors(devs[..i]) + |devs[i].disk|
  {
    assert devs[..i + 1][..i] == devs[..i];
  }

  lemma SumNone(devs: seq<Dev>)
    ensures TotalSectors(devs[..0]) == 0
  {
  }

  lemma {:induction false} SumMonotone(devs: seq<Dev>, i: nat, j: nat)
    requires i <= j <= |devs|
    ensures TotalSectors(devs[..i]) <= TotalSectors(devs[..j])
    decreases j
  {
    if i < j {
      SumNext(devs, j - 1);
      SumMonotone(devs, i, j - 1);
    }
  }

  lemma {:induction false} SumSame(a: seq<Dev>, b: seq<Dev>, i: nat)
    requires |a| == |b| && i <= |a| && forall d :: 0 <= d < |a| ==> |b[d].disk| == |a[d].disk|
    ensures TotalSectors(a[..i]) == TotalSectors(b[..i])
  {
    if i > 0 {
      SumNext(a, i - 1);
      SumNext(b, i - 1);
      SumSame(a, b, i - 1);
    }
  }

  lemma Percent(sum: nat, total: nat)
    requires sum <= total
    ensures total != 0 ==> 0 <= sum * 100 / total <= 100
  {
    if total != 0 {
      var q := sum * 100 / total;
      assert total * q <= sum * 100 <= total * 100;
      assert q >= 101 ==> total * q >= total * 101;
    }
  }

  class Saver {
    var devs: seq<Dev>
    var aux: seq<DevState>
    var blkList: seq<Blk>
    var submitted: int
    var readDone: int
    var transferred: int
    var allBulkCompleted: bool
    var prevProgress: int
    var f: seq<byte>
    ghost var open: bool
    ghost var begun: Full
    ghost var events: seq<Event>
    ghost var closing: bool        // the last flush is over
    ghost var before: seq<Event>   // the events until then
    ghost var left: Full           // and the state it left

    ghost function Y(): Sys
      reads this`devs, this`blkList
    {
      Sys(devs, blkList)
    }

    ghost function Now(): Full
      reads this`devs, this`blkList, this`f, this`open
    {
      Full(Y(), f, open)
    }

    /** The recorded events lead to `z`. */
    ghost predicate LedTo(z: Full)
      reads this`begun, this`events, this`closing, this`before, this`left
    {
      && Begun(begun) && ValidRun(begun, events) && Run(begun, events) == z
      && Phased(events, closing, |before|)
      && (closing ==> before <= events && ValidRun(begun, before) && Run(begun, before) == left)
    }

    ghost predicate Traced()
      reads this`devs, this`blkList, this`f, this`open, this`begun, this`events, this`closing, this`before, this`left
    {
      LedTo(Now())
    }

    /** Counters and cursors match the queues, until the queue is freed. */
    ghost predicate Counted()
      reads this`devs, this`aux, this`blkList, this`submitted, this`readDone, this`closing
    {
      && Valid(Y()) && |aux| == |devs|
      && submitted == InflightCount(devs) && (!closing ==> readDone == |blkList|)
      && forall d :: 0 <= d < |devs| ==> DevOk(devs[d], aux[d])
    }

    ghost predicate Base()
      reads this
    {
      Traced() && Counted()
    }

    ghost predicate Running()
      reads this
    {
      Base() && !closing
    }

    /** `init_blk_migration` for the given writable, non-empty devices. */
    constructor (ds: seq<Dev>)
      requires Valid(Sys(ds, [])) && forall d :: 0 <= d < |ds| ==> ds[d].cursor == 0 && ds[d].inflight == []
      ensures Running() && devs == ds && f == [] && begun == Now() && !allBulkCompleted && Y() == Sys(ds, [])
      ensures events == [] && !open
    {
      devs, blkList, f := ds, [], [];
      aux := seq(|ds|, d requires 0 <= d < |ds| => DevState(false, 0, 0, seq(|ds[d].dirty|, _ => false)));
      submitted, readDone, transferred, prevProgress := 0, 0, 0, -1;
      allBulkCompleted := false;
      open, events, closing, before := false, [], false, [];
      begun := Full(Sys(ds, []), [], false);
      left := Full(Sys(ds, []), [], false);
      new;
      assert forall d :: 0 <= d < |ds| ==> |ds[d].inflight| == 0;
      CountZero(ds);
      forall d | 0 <= d < |devs| ensures DevOk(devs[d], aux[d]) { assert ValidDev(ds[d]); }
    }

    /** What has just been done is a step of the system. */
    ghost method Record(z: Full, e: Event)
      requires LedTo(z) && Enabled(z.y, e) && Step(z, e) == Now() && if closing then Late(e) else Early(e)
      modifies this`events
      ensures Traced() && Valid(Y()) && events == old(events) + [e]
    {
      hide Exec, Enabled, Valid, Bytes, Begun, Run, ValidRun, Step;
      RunExtended(begun, events, e);
      StepValidNow(z, e);
      events := events + [e];
    }

    lemma StepValidNow(z: Full, e: Event)
      requires Enabled(z.y, e) && Step(z, e) == Now()
      ensures Valid(Y())
    {
      hide Exec, Enabled, Valid, Bytes;
      StepValid(z.y, e);
    }

    // ------------------------------------------------------- the environment

    /** A guest write reaches one sector of the disk. */
    method GuestLand(d: nat, x: nat, data: Sector)
      requires Running() && d < |devs| && x < |devs[d].disk|
      modifies this`devs, this`events
      ensures Running() && events == old(events) + [Land(d, x, data)]
      ensures Y() == Exec(old(Y()), Land(d, x, data))
    {
      hide LedTo, Valid, InflightCount;
      ghost var z, e := Now(), Land(d, x, data);
      var v := devs[d];
      CountUpdated(devs, d, v.(disk := v.disk[x := data], pending := v.pending + {x}));
      devs := devs[d := v.(disk := v.disk[x := data], pending := v.pending + {x})];
      Record(z, e);
    }

    /** `set_dirty_bitmap` once the driver has returned. */
    method GuestNotify(d: nat, x: nat, n: nat)
      requires Running() && d < |devs| && 0 < n && x + n <= |devs[d].disk|
      modifies this`devs, this`events
      ensures Running() && events == old(events) + [Notify(d, x, n)]
      ensures Y() == Exec(old(Y()), Notify(d, x, n))
    {
      hide LedTo, Valid, InflightCount;
      ghost var z, e := Now(), Notify(d, x, n);
      var v := devs[d];
      var w := v.(dirty := MarkChunks(v.dirty, x, n, true), pending := set i | i in v.pending && !(x <= i < x + n));
      CountUpdated(devs, d, w);
      devs := devs[d := w];
      Record(z, e);
    }

    /** The driver fills one sector of a read in flight. */
    method DriverCapture(d: nat, i: nat, k: nat)
      requires Running() && Enabled(Y(), Capture(d, i, k))
      modifies this`devs, this`events
      ensures Running() && events == old(events) + [Capture(d, i, k)]
      ensures Y() == Exec(old(Y()), Capture(d, i, k))
    {
      hide LedTo, Valid, InflightCount;
      ghost var z, e := Now(), Capture(d, i, k);
      CaptureValid(Y(), d, i, k);
      var w := Captured(devs[d], i, k);
      CountUpdated(devs, d, w);
      devs := devs[d := w];
      Record(z, e);
    }

    // ------------------------------------------------------------ callbacks

    /** `blk_mig_read_cb`. */
    method ReadCb(d: nat)
      requires Running() && Enabled(Y(), Complete(d))
      modifies this`devs, this`aux, this`blkList, this`submitted, this`readDone, this`events
      ensures Running() && events == old(events) + [Complete(d)]
      ensures Y() == Exec(old(Y()), Complete(d))
      ensures submitted == old(submitted) - 1 && readDone == old(readDone) + 1
      ensures SameCursors(old(aux), aux)
    {
      hide LedTo, Valid, InflightCount;
      ghost var z, e := Now(), Complete(d);
      ValidInflight(Y(), d);
      var v := devs[d];
      var blk := v.inflight[0];
      CountUpdated(devs, d, v.(inflight := v.inflight[1..]));
      blkList := blkList + [blk];
      devs := devs[d := v.(inflight := v.inflight[1..])];
      aux := aux[d := aux[d].(aio := SetAio(aux[d].aio, blk.sector, |blk.got|, false))];
      submitted := submitted - 1;
      readDone := readDone + 1;
      Record(z, e);
    }

    /** The head read of a device finishes: every sector is captured. */
    method FinishHead(d: nat)
      requires Running() && d < |devs| && |devs[d].inflight| > 0
      modifies this`devs, this`events
      ensures Running() && SameTracking(old(devs), devs)
      ensures |devs[d].inflight| > 0 && AllGot(devs[d].inflight[0])
      ensures InflightCount(devs) == old(InflightCount(devs))
    {
      hide LedTo, Valid, InflightCount, Traced;
      var k := 0;
      while k < |devs[d].inflight[0].got|
        invariant Running() && SameTracking(old(devs), devs) && |devs[d].inflight| > 0
        invariant 0 <= k <= |devs[d].inflight[0].got|
        invariant |devs[d].inflight[0].got| == |old(devs)[d].inflight[0].got|
        invariant forall i :: 0 <= i < k ==> devs[d].inflight[0].got[i]
        invariant InflightCount(devs) == old(InflightCount(devs))
      {
        ghost var was := devs[d];
        ghost var y := Y();
        CaptureValid(Y(), d, 0, k);
        CountUpdated(devs, d, Captured(devs[d], 0, k));
        DriverCapture(d, 0, k);
        assert devs[d] == Captured(was, 0, k);
        k := k + 1;
      }
    }

    /** `qemu_aio_flush`: whichever device is served next, all reads end. */
    method AioFlush()
      requires Base() && (closing ==> submitted == 0)
      modifies this`devs, this`aux, this`blkList, this`submitted, this`readDone, this`events
      ensures Base() && submitted == 0 && SameTracking(old(devs), devs) && SameCursors(old(aux), aux)
      ensures submitted + readDone == old(submitted + readDone)
      ensures old(submitted) == 0 ==> Y() == old(Y())
    {
      hide Run, ValidRun, Begun, Valid, Traced, InflightCount;
      while submitted != 0
        invariant Base() && SameTracking(old(devs), devs) && SameCursors(old(aux), aux)
        invariant old(submitted) == 0 ==> Y() == old(Y()) && submitted == 0
        invariant submitted >= 0 && submitted + readDone == old(submitted + readDone)
        decreases submitted
      {
        CountZero(devs);
        var d :| 0 <= d < |devs| && |devs[d].inflight| > 0;
        FinishHead(d);
        ReadCb(d);
      }
    }

    // ----------------------------------------------------------- bulk phase

    /** `mig_save_device_bulk` for a device without shared base. */
    method SaveDeviceBulk(d: nat, junk: seq<Sector>) returns (done: bool)
      requires Running() && d < |devs| && |junk| == CHUNK
      modifies this`devs, this`aux, this`submitted, this`events
      ensures Running() && |devs| == |old(devs)| && SameFlags(old(aux), aux)
      ensures done <==> devs[d].cursor == |devs[d].disk|
      ensures old(devs[d].cursor) >= |old(devs)[d].disk| ==> done
      ensures submitted == old(submitted) + if old(devs[d].cursor) < |old(devs)[d].disk| then 1 else 0
      ensures SamePending(old(devs), devs) && BulkStep(old(Y()), Y(), d, junk)
      ensures events == old(events) + if old(devs[d].cursor) < |old(devs)[d].disk| then [SubmitBulk(d, junk)] else []
    {
      hide Traced, Valid, InflightCount;
      ValidInflight(Y(), d);
      var v := devs[d];
      var total, cur := |v.disk|, v.cursor;
      if cur >= total {
        aux := aux[d := aux[d].(completedSectors := total)];
        return true;
      }
      aux := aux[d := aux[d].(completedSectors := cur)];
      CursorAligned(v);
      cur := cur - cur % CHUNK;            // cur_sector &= ~(CHUNK - 1)
      var nr := CHUNK;
      if total - cur < CHUNK { nr := total - cur; }
      SubmitBulkRead(d, cur, nr, junk);
      done := devs[d].cursor >= total;
    }

    method SubmitBulkRead(d: nat, cur: nat, nr: nat, junk: seq<Sector>)
      requires Running() && d < |devs| && |junk| == CHUNK
      requires cur == devs[d].cursor < |devs[d].disk| && nr == Min(CHUNK, |devs[d].disk| - cur)
      modifies this`devs, this`submitted, this`events
      ensures Running() && submitted == old(submitted) + 1
      ensures Y() == Exec(old(Y()), SubmitBulk(d, junk)) && events == old(events) + [SubmitBulk(d, junk)]
    {
      hide LedTo, Valid, InflightCount;
      ghost var z, e := Now(), SubmitBulk(d, junk);
      var v := devs[d];
      var blk := Blk(d, cur, junk, seq(nr, _ => false));
      assert blk == NewBlk(Y(), d, cur, junk);
      var w := v.(dirty := MarkChunks(v.dirty, cur, nr, false), cursor := cur + nr, inflight := v.inflight + [blk]);
      CountUpdated(devs, d, w);
      submitted := submitted + 1;
      devs := devs[d := w];
      Record(z, e);
    }

    /** The body of the loop of `blk_mig_save_bulked_block` for the first
        device whose bulk phase is not over. */
    method BulkOne(i: nat, junk: seq<Sector>)
      requires Running() && i < |devs| && |junk| == CHUNK && !aux[i].bulkCompleted
      modifies this`devs, this`aux, this`submitted, this`events
      ensures Running() && SamePending(old(devs), devs) && |aux| == |old(aux)| && BulkStep(old(Y()), Y(), i, junk)
      ensures events == old(events) + if old(devs[i].cursor) < |old(devs)[i].disk| then [SubmitBulk(i, junk)] else []
      ensures aux[i].completedSectors <= |devs[i].disk|
      ensures aux[i].bulkCompleted <==> devs[i].cursor == |devs[i].disk|
      ensures submitted == old(submitted) + 1 ||
              (submitted == old(submitted) && Incomplete(aux) < old(Incomplete(aux)))
    {
      hide LedTo, Valid, InflightCount, Traced, Incomplete;
      var done := SaveDeviceBulk(i, junk);
      SameFlagsIncomplete(old(aux), aux);
      if done {
        IncompleteDrops(aux, i);
        aux := aux[i := aux[i].(bulkCompleted := true)];
      }
      assert DevOk(devs[i], aux[i]);
    }

    /** `blk_mig_save_bulked_block`. */
    method SaveBulkedBlock(junk: seq<Sector>) returns (more: bool)
      requires Running() && |junk| == CHUNK
      modifies this`devs, this`aux, this`submitted, this`events, this`prevProgress, this`f, this`open
      ensures Running() && SamePending(old(devs), devs)
      ensures !more ==> submitted == old(submitted) && forall d :: 0 <= d < |aux| ==> aux[d].bulkCompleted
      ensures !more ==> Y() == old(Y())
      ensures more ==> submitted == old(submitted) + 1 ||
                       (submitted == old(submitted) && Incomplete(aux) < old(Incomplete(aux)))
      ensures more ==> |aux| == |old(aux)|
      ensures more ==> exists i: nat :: && FirstIncomplete(old(aux), i) && BulkStep(old(Y()), Y(), i, junk)
                                        && (aux[i].bulkCompleted <==> devs[i].cursor == |devs[i].disk|)
    {
      hide LedTo, Valid, InflightCount, Traced, Incomplete, TotalSectors, BulkStep;
      var i, sum := 0, 0;
      more := false;
      SumNone(devs);
      while i < |devs| && !more
        invariant 0 <= i <= |devs| && Running() && SamePending(old(devs), devs)
        invariant 0 <= sum <= TotalSectors(devs[..i])
        invariant !more ==> devs == old(devs) && aux == old(aux) && submitted == old(submitted)
        invariant !more ==> forall d :: 0 <= d < i ==> aux[d].bulkCompleted
        invariant more ==> i > 0 && FirstIncomplete(old(aux), i - 1) && BulkStep(old(Y()), Y(), i - 1, junk)
        invariant more ==> |aux| == |old(aux)|
        invariant more ==> (aux[i - 1].bulkCompleted <==> devs[i - 1].cursor == |devs[i - 1].disk|)
        invariant more ==> submitted == old(submitted) + 1 ||
                           (submitted == old(submitted) && Incomplete(aux) < old(Incomplete(aux)))
        decreases |devs| - i
      {
        assert DevOk(devs[i], aux[i]);
        if !aux[i].bulkCompleted {
          BulkOne(i, junk);
          SumSame(old(devs), devs, i);
          more := true;
        }
        SumNext(devs, i);
        sum := sum + aux[i].completedSectors;
        i := i + 1;
      }
      SumMonotone(devs, i, |devs|);
      assert devs[..|devs|] == devs;
      PutProgressIfChanged(sum);
    }

    /** The progress record at the end of `blk_mig_save_bulked_block`. */
    method PutProgressIfChanged(sum: nat)
      requires Running() && sum <= TotalSectors(devs)
      modifies this`events, this`prevProgress, this`f, this`open
      ensures Running() && prevProgress == if TotalSectors(devs) != 0 then sum * 100 / TotalSectors(devs) else 100
      ensures if prevProgress == old(prevProgress) then f == old(f) && events == old(events)
              else 0 <= prevProgress <= 100 && f == old(f) + ProgressRecord(prevProgress)
    {
      hide LedTo, Valid, InflightCount, Header;
      var total := TotalSectors(devs);
      var progress := if total != 0 then sum * 100 / total else 100;
      Percent(sum, total);
      if progress != prevProgress {
        prevProgress := progress;
        PutProgress(progress);
      }
    }

    method PutProgress(progress: nat)
      requires Base() && progress <= 100
      modifies this`events, this`f, this`open
      ensures Base() && open && events == old(events) + [Mark(progress)]
      ensures f == old(f) + ProgressRecord(progress)
    {
      hide LedTo, Valid, InflightCount, Header;
      ghost var z, e := Now(), Mark(progress);
      f := f + ProgressRecord(progress);
      open := true;
      Record(z, e);
    }

    // ------------------------------------------------------------- flushing

    /** `blk_send` of the first waiting chunk. */
    method SendHead()
      requires Running() && blkList != []
      modifies this`blkList, this`readDone, this`transferred, this`f, this`open, this`events
      ensures Running() && blkList == old(blkList)[1..] && events == old(events) + [SendBlk]
      ensures transferred == old(transferred) + 1 && readDone == old(readDone) - 1
    {
      hide LedTo, Valid, InflightCount, BlkRecord, Bytes;
      ghost var z, e := Now(), SendBlk;
      HeadFits(Y());
      var blk := blkList[0];
      f := f + BlkRecord(devs[blk.dev].name, blk);
      open := true;
      blkList := blkList[1..];
      readDone := readDone - 1;
      transferred := transferred + 1;
      Record(z, e);
    }

    /** `flush_blks`; `limits` are the answers of `qemu_file_rate_limit`.  The
        chunks the limit does not let out stay, in order. */
    method FlushBlks(limits: seq<int>) returns (stop: int)
      requires Running()
      modifies this`blkList, this`readDone, this`transferred, this`f, this`open, this`events
      ensures Running() && blkList == old(blkList)[Allowed(limits, |old(blkList)|)..]
      ensures stop == if blkList == [] then 0 else NextLimit(limits[Allowed(limits, |old(blkList)|)..])
      ensures transferred - old(transferred) == old(readDone) - readDone >= 0
      ensures events == old(events) + Sends(Allowed(limits, |old(blkList)|))
    {
      hide Traced, Counted, Allowed, Sends;
      var i := 0;
      stop := 0;
      NoSends(events);
      while blkList != []
        invariant Running() && 0 <= i <= |limits| && i <= |old(blkList)| && blkList == old(blkList)[i..]
        invariant i + Allowed(limits[i..], |blkList|) == Allowed(limits, |old(blkList)|)
        invariant stop == 0 && events == old(events) + Sends(i)
        invariant transferred - old(transferred) == old(readDone) - readDone == i
        decreases |blkList|
      {
        stop := NextLimit(limits[i..]);
        if stop != 0 {
          AllowedNone(limits[i..], |blkList|);
          break;
        }
        AllowedMore(limits, i, |blkList|);
        SendHead();
        i := i + 1;
      }
    }

    // ---------------------------------------------------------- dirty phase

    /** `blk_mig_reset_dirty_cursor`. */
    method ResetDirtyCursor()
      requires Base()
      modifies this`aux
      ensures Base() && SameFlags(old(aux), aux)
      ensures forall d :: 0 <= d < |aux| ==> aux[d].curDirty == 0
    {
      hide Traced, Valid, InflightCount;
      var i := 0;
      while i < |aux|
        invariant 0 <= i <= |aux| && Base() && SameFlags(old(aux), aux)
        invariant forall d :: 0 <= d < i ==> aux[d].curDirty == 0
      {
        assert DevOk(devs[i], aux[i]);
        aux := aux[i := aux[i].(curDirty := 0)];
        i := i + 1;
      }
    }

    /** An asynchronous read of a dirty chunk. */
    method SubmitDirtyRead(d: nat, x: nat, junk: seq<Sector>)
      requires Running() && Enabled(Y(), SubmitDirty(d, x, junk))
      modifies this`devs, this`aux, this`submitted, this`events
      ensures Running() && Y() == Exec(old(Y()), SubmitDirty(d, x, junk)) && SameCursors(old(aux), aux)
      ensures submitted == old(submitted) + 1 && events == old(events) + [SubmitDirty(d, x, junk)]
    {
      hide LedTo, Valid, InflightCount;
      ghost var z, e := Now(), SubmitDirty(d, x, junk);
      var v := devs[d];
      var nr := if |v.disk| - x < CHUNK then |v.disk| - x else CHUNK;
      var blk := Blk(d, x, junk, seq(nr, _ => false));
      assert blk == NewBlk(Y(), d, x, junk);
      var w := v.(dirty := MarkChunks(v.dirty, x, nr, false), inflight := v.inflight + [blk]);
      CountUpdated(devs, d, w);
      devs := devs[d := w];
      submitted := submitted + 1;
      aux := aux[d := aux[d].(aio := SetAio(aux[d].aio, x, nr, true))];
      Record(z, e);
    }

    /** Stage 3: the chunk is read and sent at once, past whatever waits. */
    method SyncSend(d: nat, x: nat, junk: seq<Sector>)
      requires Base() && closing && Enabled(Y(), SendSync(d, x, junk))
      modifies this`devs, this`f, this`open, this`events
      ensures Base() && Y() == Exec(old(Y()), SendSync(d, x, junk))
      ensures events == old(events) + [SendSync(d, x, junk)]
    {
      hide LedTo, Valid, InflightCount, BlkRecord, Bytes, FullBlk, ReadNow;
      ghost var z, e := Now(), SendSync(d, x, junk);
      var v := devs[d];
      var nr := if |v.disk| - x < CHUNK then |v.disk| - x else CHUNK;
      var blk := ReadNow(v, d, x, nr, junk);
      SyncRecord(Y(), d, x, junk, blk);
      f := f + BlkRecord(v.name, blk);
      open := true;
      var w := v.(dirty := MarkChunks(v.dirty, x, nr, false));
      CountUpdated(devs, d, w);
      devs := devs[d := w];
      Record(z, e);
    }

    /** The scan of `mig_save_device_dirty`: skips clean chunks from the dirty
        cursor on, waiting for reads of a chunk still in flight. */
    method SkipClean(d: nat) returns (found: bool)
      requires Base() && d < |devs| && (closing ==> submitted == 0)
      modifies this`devs, this`aux, this`blkList, this`submitted, this`readDone, this`events
      ensures Base() && SameTracking(old(devs), devs) && SameSkipped(old(aux), aux, d)
      ensures submitted + readDone == old(submitted + readDone)
      ensures old(submitted) == 0 ==> Y() == old(Y()) && submitted == 0
      ensures CleanBetween(devs[d], old(aux)[d].curDirty, aux[d].curDirty)
      ensures found <==> aux[d].curDirty < |devs[d].disk|
      ensures found ==> aux[d].curDirty / CHUNK < |devs[d].dirty| && devs[d].dirty[aux[d].curDirty / CHUNK]
    {
      hide Traced, Valid, InflightCount;
      var sector := aux[d].curDirty;
      assert CleanBetween(devs[d], sector, sector);
      hide CleanBetween;
      while sector < |devs[d].disk|
        invariant Base() && SameTracking(old(devs), devs) && SameSkipped(old(aux), aux, d)
        invariant sector == aux[d].curDirty && 0 <= sector
        invariant submitted + readDone == old(submitted + readDone)
        invariant old(submitted) == 0 ==> Y() == old(Y()) && submitted == 0
        invariant CleanBetween(devs[d], old(aux)[d].curDirty, sector)
        decreases |devs[d].disk| - sector
      {
        ValidInflight(Y(), d);
        assert DevOk(devs[d], aux[d]);
        ghost var was := devs;
        if aux[d].aio[sector / CHUNK] { AioFlush(); }
        SameClean(was, devs, d, old(aux)[d].curDirty, sector);
        assert DevOk(devs[d], aux[d]);
        if devs[d].dirty[sector / CHUNK] { return true; }
        CleanOneMore(devs[d], old(aux)[d].curDirty, sector);
        sector := sector + CHUNK;
        aux := aux[d := aux[d].(curDirty := sector)];
      }
      found := false;
    }

    /** `mig_save_device_dirty`: reads the first dirty chunk, if any. */
    method SaveDeviceDirty(d: nat, isAsync: bool, junk: seq<Sector>) returns (over: bool)
      requires Base() && d < |devs| && |junk| == CHUNK && closing == !isAsync
      requires !isAsync ==> submitted == 0
      modifies this`devs, this`aux, this`blkList, this`submitted, this`readDone, this`f, this`open, this`events
      ensures Base() && SamePending(old(devs), devs) && SameFlags(old(aux), aux) && SameBulk(old(devs), devs)
      ensures over <==> aux[d].curDirty >= |devs[d].disk|
      ensures forall i :: 0 <= i < |devs| && i != d ==> aux[i].curDirty == old(aux)[i].curDirty
      ensures isAsync ==> submitted + readDone == old(submitted + readDone) + if over then 0 else 1
      ensures !isAsync ==> submitted == 0
      ensures !isAsync ==> SyncProgress(old(devs), devs, old(aux), aux, d, over)
    {
      hide Traced, Valid, InflightCount, DirtyCount;
      var found := SkipClean(d);
      over := !found;
      ValidInflight(Y(), d);
      assert DevOk(devs[d], aux[d]);
      if found {
        var sector := aux[d].curDirty;
        if isAsync {
          SubmitDirtyRead(d, sector, junk);
        } else {
          CountZero(devs);
          ClearedOne(devs, d, sector);
          SyncSend(d, sector, junk);
        }
      }
    }

    /** `blk_mig_save_dirty_block`. */
    method SaveDirtyBlock(isAsync: bool, junk: seq<Sector>) returns (more: bool)
      requires Base() && |junk| == CHUNK && closing == !isAsync
      requires !isAsync ==> submitted == 0 && AllCleanBelow(devs, aux)
      modifies this`devs, this`aux, this`blkList, this`submitted, this`readDone, this`f, this`open, this`events
      ensures Base() && SamePending(old(devs), devs) && SameFlags(old(aux), aux) && SameBulk(old(devs), devs)
      ensures isAsync ==> submitted + readDone == old(submitted + readDone) + if more then 1 else 0
      ensures !isAsync ==> submitted == 0 && AllCleanBelow(devs, aux)
      ensures !isAsync && more ==> DirtyCount(devs) < old(DirtyCount(devs))
      ensures !isAsync && !more ==> DirtyCount(devs) == old(DirtyCount(devs))
      ensures !more ==> forall d :: 0 <= d < |devs| ==> aux[d].curDirty >= |devs[d].disk|
    {
      hide Traced, Valid, InflightCount, DirtyCount, CleanBelow;
      var i := 0;
      more := false;
      while i < |devs| && !more
        invariant 0 <= i <= |devs| && Base()
        invariant SamePending(old(devs), devs) && SameFlags(old(aux), aux) && SameBulk(old(devs), devs)
        invariant isAsync ==> submitted + readDone == old(submitted + readDone) + if more then 1 else 0
        invariant !isAsync ==> submitted == 0 && AllCleanBelow(devs, aux)
        invariant !isAsync && more ==> DirtyCount(devs) < old(DirtyCount(devs))
        invariant !isAsync && !more ==> DirtyCount(devs) == old(DirtyCount(devs))
        invariant !more ==> forall d :: 0 <= d < i ==> aux[d].curDirty >= |devs[d].disk|
        decreases |devs| - i
      {
        var over := OneDeviceDirty(i, isAsync, junk);
        if !over { more := true; }
        i := i + 1;
      }
    }

    /** One turn of `blk_mig_save_dirty_block`; other devices keep their cursor. */
    method OneDeviceDirty(d: nat, isAsync: bool, junk: seq<Sector>) returns (over: bool)
      requires Base() && d < |devs| && |junk| == CHUNK && closing == !isAsync
      requires !isAsync ==> submitted == 0 && AllCleanBelow(devs, aux)
      modifies this`devs, this`aux, this`blkList, this`submitted, this`readDone, this`f, this`open, this`events
      ensures Base() && SamePending(old(devs), devs) && SameFlags(old(aux), aux) && SameBulk(old(devs), devs)
      ensures over <==> aux[d].curDirty >= |devs[d].disk|
      ensures forall i :: 0 <= i < |devs| && i != d ==> aux[i].curDirty == old(aux)[i].curDirty
      ensures isAsync ==> submitted + readDone == old(submitted + readDone) + if over then 0 else 1
      ensures !isAsync ==> submitted == 0 && AllCleanBelow(devs, aux)
      ensures !isAsync && over ==> DirtyCount(devs) == old(DirtyCount(devs))
      ensures !isAsync && !over ==> DirtyCount(devs) < old(DirtyCount(devs))
    {
      hide Traced, Valid, InflightCount, DirtyCount, CleanBelow;
      over := SaveDeviceDirty(d, isAsync, junk);
    }

    // --------------------------------------------------------------- stages

    /** The bulk phase is over and the scan for dirty chunks has reached the end of
        every device. */
    ghost predicate ReadThrough()
      reads this`devs, this`aux, this`allBulkCompleted
    {
      allBulkCompleted && |aux| == |devs| && forall d :: 0 <= d < |devs| ==> aux[d].curDirty >= |devs[d].disk|
    }

    /** The rate-controlled loop of stage 2: it reads on until the rate is reached
        or there is nothing left to read. */
    method Stage2(rate: nat, junk: seq<Sector>)
      requires Running() && |junk| == CHUNK
      requires allBulkCompleted ==> forall d :: 0 <= d < |aux| ==> aux[d].bulkCompleted
      modifies this
      ensures Running() && SamePending(old(devs), devs) && begun == old(begun) && transferred == old(transferred)
      ensures allBulkCompleted ==> forall d :: 0 <= d < |aux| ==> aux[d].bulkCompleted
      ensures (submitted + readDone) * BLOCK_SIZE >= rate || ReadThrough()
    {
      hide Traced, Valid, InflightCount, Incomplete;
      while (submitted + readDone) * BLOCK_SIZE < rate
        invariant Running() && SamePending(old(devs), devs) && begun == old(begun) && transferred == old(transferred)
        invariant allBulkCompleted ==> forall d :: 0 <= d < |aux| ==> aux[d].bulkCompleted
        decreases rate - (submitted + readDone) * BLOCK_SIZE, if allBulkCompleted then 0 else 1 + Incomplete(aux)
      {
        if !allBulkCompleted {
          var more := SaveBulkedBlock(junk);
          if !more { allBulkCompleted := true; }
        } else {
          var more := SaveDirtyBlock(true, junk);
          if !more { break; }
        }
      }
    }

    /** The stage-3 loop: with the guest stopped it ends and leaves every chunk
        clean, because each turn sends one dirty chunk and skips none. */
    method Stage3(junk: seq<Sector>)
      requires Base() && closing && |junk| == CHUNK && submitted == 0
      requires forall d :: 0 <= d < |aux| ==> aux[d].curDirty == 0
      modifies this`devs, this`aux, this`blkList, this`submitted, this`readDone, this`f, this`open, this`events
      ensures Base() && SameFlags(old(aux), aux)
      ensures SamePending(old(devs), devs) && SameBulk(old(devs), devs) && NoneDirty(Y())
    {
      hide Traced, Valid, InflightCount, DirtyCount;
      var more := true;
      while more
        invariant Base() && submitted == 0 && AllCleanBelow(devs, aux)
        invariant SamePending(old(devs), devs) && SameBulk(old(devs), devs) && SameFlags(old(aux), aux)
        invariant !more ==> forall d :: 0 <= d < |devs| ==> aux[d].curDirty >= |devs[d].disk|
        decreases DirtyCount(devs), more
      {
        more := SaveDirtyBlock(false, junk);
      }
      forall d, c | 0 <= d < |devs| && 0 <= c < |devs[d].dirty| ensures !devs[d].dirty[c] {
        ValidInflight(Y(), d);
        assert CleanBelow(devs[d], aux[d].curDirty);
      }
    }

    method PutEos()
      requires Base()
      modifies this`events, this`f, this`open
      ensures Base() && !open && events == old(events) + [EndSection]
    {
      hide LedTo, Valid, InflightCount;
      ghost var z, e := Now(), EndSection;
      f := f + EosRecord();
      open := false;
      Record(z, e);
    }

    /** `blk_mig_cleanup`: whatever still waits is freed.  `read_done` is left
        as it is. */
    method CleanUp()
      requires Base() && closing
      modifies this`blkList, this`events
      ensures Base() && blkList == []
    {
      hide LedTo, Valid, InflightCount;
      while blkList != []
        invariant Base()
        decreases |blkList|
      {
        ghost var z, e := Now(), Drop;
        blkList := blkList[1..];
        Record(z, e);
      }
    }

    /** The last flush is over; from here on nothing takes from the queue but the
        clean-up. */
    ghost method FlushOver()
      requires Running()
      modifies this`closing, this`before, this`left
      ensures Base() && closing && left == Now() && before == events
    {
      hide Run, ValidRun, Begun, Valid, InflightCount;
      closing, before, left := true, events, Now();
    }

    /** `get_remaining_dirty`, in chunks. */
    method RemainingDirty() returns (n: nat)
      ensures n == DirtyCount(devs)
    {
      n := 0;
      assert devs[0..] == devs;
      for i := 0 to |devs|
        invariant n + DirtyCount(devs[i..]) == DirtyCount(devs)
      {
        assert devs[i..][1..] == devs[i + 1..];
        n := n + CountTrue(devs[i].dirty);
      }
    }

    /** `is_stage2_completed`; `enough` says that what is left can be sent within
        the downtime allowed. */
    method Stage2Completed(enough: bool) returns (done: bool)
      ensures done <==> allBulkCompleted && (DirtyCount(devs) == 0 || enough)
    {
      done := false;
      if allBulkCompleted {
        var remaining := RemainingDirty();
        done := remaining == 0 || enough;
      }
    }

    /** `block_save_live` with block migration enabled.  Stage 3 is entered with
        the guest stopped, all reads completed (the source asserts this) and the
        bulk phase over; the rate limiter may answer anything. */
    method BlockSaveLive(stage: int, first: seq<int>, rate: nat, second: seq<int>, junk: seq<Sector>, enough: bool)
      returns (ret: int)
      requires Running() && |junk| == CHUNK
      requires allBulkCompleted ==> forall d :: 0 <= d < |aux| ==> aux[d].bulkCompleted
      requires stage == 3 ==> submitted == 0 && allBulkCompleted
      requires stage == 3 ==> forall d :: 0 <= d < |devs| ==> devs[d].pending == {}
      modifies this
      ensures begun == old(begun) && SamePending(old(devs), devs)
      ensures allBulkCompleted ==> forall d :: 0 <= d < |aux| ==> aux[d].bulkCompleted
      ensures 0 <= stage && stage != 3 && ret >= 0 ==> Running() && !open
      ensures stage < 0 || stage == 3 || ret < 0 ==> Base() && closing && blkList == []
      ensures ret < 0 ==> ret in first || ret in second
      ensures stage == 2 && ret >= 0 ==>
                (submitted + readDone + transferred - old(transferred)) * BLOCK_SIZE >= rate || ReadThrough()
      ensures ret >= 0 ==> ret <= 1
      ensures ret >= 0 ==> (ret == 1 <==> stage == 2 && allBulkCompleted && (DirtyCount(devs) == 0 || enough))
      ensures ret == 1 ==> forall d :: 0 <= d < |devs| ==> devs[d].cursor == |devs[d].disk|
      ensures stage == 3 && ret >= 0 ==> !open && Finished(begun, events, |before|)
      ensures stage == 3 && ret >= 0 ==>
                && left.y == Sys(old(devs), old(blkList)[Allowed(first, |old(blkList)|)..])
                && before == old(events) + Sends(Allowed(first, |old(blkList)|))
    {
      hide Traced, Valid, InflightCount, DirtyCount, Finished;
      if stage < 0 {
        Abandon();
        return 0;
      }
      ret := FlushBlks(first);
      if ret < 0 {
        Abandon();
        return;
      }
      ResetDirtyCursor();
      if stage == 2 {
        Stage2(rate, junk);
        ret := FlushBlks(second);
        if ret < 0 {
          Abandon();
          return;
        }
      }
      if stage == 3 {
        FinishAll(junk);
      } else {
        PutEos();
      }
      ret := 0;
      if stage == 2 {
        var done := Stage2Completed(enough);
        if done { ret := 1; }
      }
    }

    method Abandon()
      requires Running()
      modifies this`blkList, this`events, this`closing, this`before, this`left
      ensures Base() && closing && blkList == []
    {
      hide Traced, Counted;
      FlushOver();
      CleanUp();
    }

    /** Stage 3 after its flush. */
    method FinishAll(junk: seq<Sector>)
      requires Running() && |junk| == CHUNK && submitted == 0
      requires forall d :: 0 <= d < |aux| ==> aux[d].curDirty == 0
      requires forall d :: 0 <= d < |devs| ==> aux[d].bulkCompleted && devs[d].pending == {}
      modifies this`devs, this`aux, this`blkList, this`submitted, this`readDone, this`f, this`open, this`events
      modifies this`closing, this`before, this`left
      ensures Base() && closing && blkList == [] && !open && SameFlags(old(aux), aux) && SamePending(old(devs), devs)
      ensures Finished(begun, events, |before|) && left == old(Now()) && before == old(events)
    {
      hide Traced, Valid, InflightCount, DirtyCount, Swept, Finished;
      FlushOver();
      FlushedIsSwept();
      Stage3(junk);
      CleanUp();
      PutProgress(100);
      PutEos();
      IsFinished();
    }

    lemma FlushedIsSwept()
      requires Base() && closing && left == Now() && submitted == 0
      requires forall d :: 0 <= d < |devs| ==> aux[d].bulkCompleted && devs[d].pending == {}
      ensures Swept(left.y)
    {
      hide Traced, Valid, InflightCount;
      CountZero(devs);
      assert forall d :: 0 <= d < |devs| ==> DevOk(devs[d], aux[d]);
    }

    lemma IsFinished()
      requires Base()
      ensures closing && Swept(left.y) && NoneDirty(Y()) && !open ==> Finished(begun, events, |before|)
    {
      hide Run, ValidRun, Begun, Swept, NoneDirty;
      assert closing ==> events[..|before|] == before;
    }

    /** After stage 3 the stream is accepted, and the destination that reads it
        has the source's disks, whatever the guest wrote during the first two
        stages, if and only if nothing the last flush left behind was lost. */
    lemma Delivered(ds0: seq<Disk>) returns (ds: seq<Disk>)
      requires Traced() && Finished(begun, events, |before|) && Mirrors(begun.y, ds0)
      ensures Replay(ds0, f, false) == Ok(ds)
      ensures SameDisks(Y(), ds) <==> LosesNothing(begun, events, |before|, View(begun.y, ds0))
    {
      hide ValidRun, LosesNothing, SameDisks, Mirrors, Replay;
      ds := ConvergesExactly(begun, events, |before|, ds0);
    }
  }

  /** What the per-device bookkeeping keeps. */
  ghost predicate DevOk(v: Dev, a: DevState) {
    && (a.bulkCompleted ==> v.cursor == |v.disk|)
    && a.completedSectors <= |v.disk|
    && a.curDirty % CHUNK == 0 && |a.aio| == |v.dirty|
  }
}
