/** Live block migration (`block-migration.c`) as a step system.

    Guest writes land on a disk sector by sector and mark their chunks dirty only
    when the driver has returned.  Reads are asynchronous: each sector of a chunk
    is captured at some moment between submission and completion.  Reads of one
    device complete in the order they were submitted. */
module BlkMigModel {
  import opened Wire

  const SECTOR_SIZE: nat := 512
  const CHUNK: nat := 2048             // BDRV_SECTORS_PER_DIRTY_CHUNK

  type Sector = s: seq<byte> | |s| == SECTOR_SIZE witness seq(SECTOR_SIZE, _ => 0)

  /** A chunk being read or waiting to be sent.  `got[k]` says that sector `k`
      has been captured into the buffer; a partial last chunk has fewer than
      CHUNK sectors, the rest of its buffer is whatever malloc returned. */
  datatype Blk = Blk(dev: nat, sector: nat, buf: seq<Sector>, got: seq<bool>)

  /** A device under migration.  `pending` are the sectors whose latest write
      has landed but is not yet marked dirty; `cursor` is the bulk position. */
  datatype Dev = Dev(name: seq<byte>, disk: seq<Sector>, dirty: seq<bool>, pending: set<nat>,
                     cursor: nat, inflight: seq<Blk>)

  datatype Sys = Sys(devs: seq<Dev>, list: seq<Blk>)

  function Chunks(sectors: nat): nat {
    (sectors + CHUNK - 1) / CHUNK
  }

  function Min(a: int, b: int): int {
    if a < b then a else b
  }

  ghost predicate ValidBlk(y: Sys, b: Blk) {
    && b.dev < |y.devs|
    && b.sector % CHUNK == 0 && b.sector < |y.devs[b.dev].disk|
    && |b.buf| == CHUNK && |b.got| == Min(CHUNK, |y.devs[b.dev].disk| - b.sector)
  }

  predicate AllGot(b: Blk) {
    forall k :: 0 <= k < |b.got| ==> b.got[k]
  }

  predicate Covers(b: Blk, x: nat) {
    b.sector <= x < b.sector + |b.got|
  }

  ghost predicate ValidDev(v: Dev) {
    && IsName(v.name)
    && 0 < |v.disk| < 0x40_0000_0000_0000
    && |v.dirty| == Chunks(|v.disk|)
    && v.cursor <= |v.disk| && (v.cursor % CHUNK == 0 || v.cursor == |v.disk|)
  }

  ghost predicate Valid(y: Sys) {
    && (forall d :: 0 <= d < |y.devs| ==> ValidDev(y.devs[d]))
    && (forall d, e :: 0 <= d < e < |y.devs| ==> y.devs[d].name != y.devs[e].name)
    && (forall d, i :: 0 <= d < |y.devs| && 0 <= i < |y.devs[d].inflight| ==>
          ValidBlk(y, y.devs[d].inflight[i]) && y.devs[d].inflight[i].dev == d)
    && (forall i :: 0 <= i < |y.list| ==> ValidBlk(y, y.list[i]) && AllGot(y.list[i]))
  }

  // ------------------------------------------------------------------ steps

  datatype Event =
    | Land(d: nat, x: nat, data: Sector)          // a guest write reaches the disk
    | Notify(d: nat, x: nat, n: nat)              // set_dirty_bitmap after the write
    | SubmitBulk(d: nat, junk: seq<Sector>)       // mig_save_device_bulk
    | SubmitDirty(d: nat, x: nat, junk: seq<Sector>)  // mig_save_device_dirty, async
    | Capture(d: nat, i: nat, k: nat)             // the driver reads one sector
    | Complete(d: nat)                            // blk_mig_read_cb
    | SendBlk                                     // one turn of flush_blks
    | SendSync(d: nat, x: nat, junk: seq<Sector>) // mig_save_device_dirty, stage 3
    | Drop                                        // one turn of blk_mig_cleanup
    | Mark(progress: nat)                         // a progress record
    | EndSection                                  // BLK_MIG_FLAG_EOS

  function NewBlk(y: Sys, d: nat, x: nat, junk: seq<Sector>): Blk
    requires d < |y.devs| && x < |y.devs[d].disk|
  {
    Blk(d, x, junk, seq(Min(CHUNK, |y.devs[d].disk| - x), _ => false))
  }

  /** The chunk at `x` read in one go. */
  function FullBlk(y: Sys, d: nat, x: nat, junk: seq<Sector>): (b: Blk)
    requires d < |y.devs| && x < |y.devs[d].disk| && |junk| == CHUNK
    ensures |b.buf| == CHUNK && |b.got| == Min(CHUNK, |y.devs[d].disk| - x) && AllGot(b)
    ensures forall k :: 0 <= k < |b.got| ==> b.buf[k] == y.devs[d].disk[x + k]
  {
    var n := Min(CHUNK, |y.devs[d].disk| - x);
    Blk(d, x, y.devs[d].disk[x..x + n] + junk[n..], seq(n, _ => true))
  }

  /** No read is outstanding. */
  predicate Still(y: Sys) {
    forall d :: 0 <= d < |y.devs| ==> |y.devs[d].inflight| == 0
  }

  ghost predicate Enabled(y: Sys, e: Event) {
    && Valid(y)
    && match e
       case Land(d, x, data) => d < |y.devs| && x < |y.devs[d].disk|
       case Notify(d, x, n) => d < |y.devs| && 0 < n && x + n <= |y.devs[d].disk|
       case SubmitBulk(d, junk) => d < |y.devs| && y.devs[d].cursor < |y.devs[d].disk| && |junk| == CHUNK
       case SubmitDirty(d, x, junk) =>
         d < |y.devs| && x % CHUNK == 0 && x < |y.devs[d].disk| && y.devs[d].dirty[x / CHUNK] && |junk| == CHUNK
       case Capture(d, i, k) =>
         d < |y.devs| && i < |y.devs[d].inflight| && k < |y.devs[d].inflight[i].got|
       case Complete(d) => d < |y.devs| && |y.devs[d].inflight| > 0 && AllGot(y.devs[d].inflight[0])
       case SendBlk => |y.list| > 0
       case SendSync(d, x, junk) =>
         && d < |y.devs| && x % CHUNK == 0 && x < |y.devs[d].disk| && y.devs[d].dirty[x / CHUNK]
         && |junk| == CHUNK && Still(y)
       case Drop => |y.list| > 0
       case Mark(progress) => progress <= 100
       case EndSection => true
  }

  /** Chunks touched by the sectors [x, x + n) get the value `v`. */
  function MarkChunks(dirty: seq<bool>, x: nat, n: nat, v: bool): (r: seq<bool>)
    requires n > 0
    ensures |r| == |dirty|
    ensures forall c :: 0 <= c < |dirty| ==> r[c] == if x / CHUNK <= c <= (x + n - 1) / CHUNK then v else dirty[c]
  {
    seq(|dirty|, c requires 0 <= c < |dirty| => if x / CHUNK <= c <= (x + n - 1) / CHUNK then v else dirty[c])
  }

  function Captured(v: Dev, i: nat, k: nat): Dev
    requires i < |v.inflight| && k < |v.inflight[i].got| <= |v.inflight[i].buf|
    requires v.inflight[i].sector + k < |v.disk|
  {
    var b := v.inflight[i];
    v.(inflight := v.inflight[i := b.(buf := b.buf[k := v.disk[b.sector + k]], got := b.got[k := true])])
  }

  ghost function Exec(y: Sys, e: Event): Sys
    requires Enabled(y, e)
  {
    match e
    case Land(d, x, data) =>
      var v := y.devs[d];
      y.(devs := y.devs[d := v.(disk := v.disk[x := data], pending := v.pending + {x})])
    case Notify(d, x, n) =>
      var v := y.devs[d];
      y.(devs := y.devs[d := v.(dirty := MarkChunks(v.dirty, x, n, true),
                                pending := set i | i in v.pending && !(x <= i < x + n))])
    case SubmitBulk(d, junk) =>
      var v := y.devs[d];
      var b := NewBlk(y, d, v.cursor, junk);
      y.(devs := y.devs[d := v.(dirty := MarkChunks(v.dirty, v.cursor, |b.got|, false),
                                cursor := v.cursor + |b.got|, inflight := v.inflight + [b])])
    case SubmitDirty(d, x, junk) =>
      var v := y.devs[d];
      var b := NewBlk(y, d, x, junk);
      y.(devs := y.devs[d := v.(dirty := MarkChunks(v.dirty, x, |b.got|, false), inflight := v.inflight + [b])])
    case Capture(d, i, k) =>
      y.(devs := y.devs[d := Captured(y.devs[d], i, k)])
    case Complete(d) =>
      var v := y.devs[d];
      Sys(y.devs[d := v.(inflight := v.inflight[1..])], y.list + [v.inflight[0]])
    case SendBlk =>
      y.(list := y.list[1..])
    case SendSync(d, x, junk) =>
      var v := y.devs[d];
      var b := NewBlk(y, d, x, junk);
      y.(devs := y.devs[d := v.(dirty := MarkChunks(v.dirty, x, |b.got|, false))])
    case Drop =>
      y.(list := y.list[1..])
    case Mark(_) => y
    case EndSection => y
  }
}
