/** The invariant of block migration: a sector that the bulk phase has passed,
    whose chunk is clean and whose last write has been marked, will reach the
    destination with its present contents.  The read that decides is the last one
    covering it, whether in flight, waiting or already sent. */
module BlkMigInv {
  import opened BlkMigModel

  predicate BufsFit(q: seq<Blk>) {
    forall i :: 0 <= i < |q| ==> |q[i].got| <= |q[i].buf|
  }

  /** The last read in flight that covers `x` has captured `v` or has yet to
      capture it; with none, `base` decides. */
  predicate InflightOk(q: seq<Blk>, x: nat, v: Sector, base: bool)
    requires BufsFit(q)
  {
    if |q| == 0 then base
    else
      var l := q[|q| - 1];
      if Covers(l, x) then (l.got[x - l.sector] ==> l.buf[x - l.sector] == v)
      else InflightOk(q[..|q| - 1], x, v, base)
  }

  /** The last waiting chunk of device `d` that covers `x` holds `v`. */
  predicate ListOk(q: seq<Blk>, d: nat, x: nat, v: Sector, base: bool)
    requires BufsFit(q)
  {
    if |q| == 0 then base
    else
      var l := q[|q| - 1];
      if l.dev == d && Covers(l, x) then l.buf[x - l.sector] == v
      else ListOk(q[..|q| - 1], d, x, v, base)
  }

  ghost predicate Shaped(y: Sys, dst: seq<seq<Sector>>) {
    && Valid(y) && |dst| == |y.devs|
    && forall d :: 0 <= d < |dst| ==> |dst[d]| == |y.devs[d].disk|
  }

  lemma BufsHold(y: Sys)
    requires Valid(y)
    ensures BufsFit(y.list)
    ensures forall d :: 0 <= d < |y.devs| ==> BufsFit(y.devs[d].inflight)
  {
    forall i | 0 <= i < |y.list| ensures |y.list[i].got| <= |y.list[i].buf| { assert ValidBlk(y, y.list[i]); }
    forall d | 0 <= d < |y.devs| ensures BufsFit(y.devs[d].inflight) {
      forall i | 0 <= i < |y.devs[d].inflight|
        ensures |y.devs[d].inflight[i].got| <= |y.devs[d].inflight[i].buf|
      {
        assert ValidBlk(y, y.devs[d].inflight[i]);
      }
    }
  }

  ghost predicate SectorOk(y: Sys, dst: seq<seq<Sector>>, d: nat, x: nat)
    requires Shaped(y, dst) && d < |y.devs| && x < |y.devs[d].disk|
  {
    BufsHold(y);
    var v := y.devs[d].disk[x];
    InflightOk(y.devs[d].inflight, x, v, ListOk(y.list, d, x, v, dst[d][x] == v))
  }

  /** Nothing marks `x` for another round. */
  ghost predicate Settled(y: Sys, d: nat, x: nat)
    requires Valid(y) && d < |y.devs| && x < |y.devs[d].disk|
  {
    x < y.devs[d].cursor && !y.devs[d].dirty[x / CHUNK] && x !in y.devs[d].pending
  }

  ghost predicate Good(y: Sys, dst: seq<seq<Sector>>) {
    && Shaped(y, dst)
    && forall d, x :: 0 <= d < |y.devs| && 0 <= x < |y.devs[d].disk| && Settled(y, d, x) ==> SectorOk(y, dst, d, x)
  }

  /** The chunk has been written since it was read, and will be sent again. */
  ghost predicate DirtyAgain(y: Sys, b: Blk) {
    IsDirty(y, b.dev, b.sector)
  }

  ghost predicate IsDirty(y: Sys, d: nat, x: nat) {
    d < |y.devs| && x / CHUNK < |y.devs[d].dirty| && y.devs[d].dirty[x / CHUNK]
  }

  /** A chunk sent at once must not be overtaken by an older copy that waits, and
      a waiting chunk may be dropped only if it will be sent again. */
  ghost predicate Harmless(y: Sys, e: Event) {
    match e
    case SendSync(_, _, _) => y.list == []
    case Drop => |y.list| > 0 && DirtyAgain(y, y.list[0])
    case _ => true
  }

  /** `block_load` of one chunk. */
  function Written(dst: seq<seq<Sector>>, b: Blk): (r: seq<seq<Sector>>)
    requires b.dev < |dst| && |b.got| <= |b.buf|
    ensures |r| == |dst| && forall d :: 0 <= d < |dst| ==> |r[d]| == |dst[d]|
    ensures forall d, x :: 0 <= d < |dst| && 0 <= x < |dst[d]| ==>
              r[d][x] == if d == b.dev && Covers(b, x) then b.buf[x - b.sector] else dst[d][x]
  {
    var was := dst[b.dev];
    dst[b.dev := seq(|was|, x requires 0 <= x < |was| => if Covers(b, x) then b.buf[x - b.sector] else was[x])]
  }

  /** What a step sends, seen from the destination. */
  ghost function Delivered(y: Sys, e: Event, dst: seq<seq<Sector>>): seq<seq<Sector>>
    requires Enabled(y, e) && Shaped(y, dst)
  {
    match e
    case SendBlk => assert ValidBlk(y, y.list[0]); Written(dst, y.list[0])
    case SendSync(d, x, junk) => Written(dst, FullBlk(y, d, x, junk))
    case _ => dst
  }

  // ------------------------------------------------------- queues of reads

  /** The head of a queue only matters where nothing behind it covers `x`. */
  lemma {:induction false} InflightHead(q: seq<Blk>, x: nat, v: Sector, base: bool)
    requires |q| > 0 && BufsFit(q)
    ensures InflightOk(q, x, v, base) == InflightOk(q[1..], x, v, InflightOk([q[0]], x, v, base))
  {
    if |q| == 1 {
      assert q == [q[0]] && q[1..] == [];
    } else {
      var n := |q| - 1;
      InflightHead(q[..n], x, v, base);
      assert q[1..][..n - 1] == q[..n][1..];
      assert q[..n][0] == q[0] && q[1..][n - 1] == q[n];
    }
  }

  lemma {:induction false} ListHead(q: seq<Blk>, d: nat, x: nat, v: Sector, base: bool)
    requires |q| > 0 && BufsFit(q)
    ensures ListOk(q, d, x, v, base) == ListOk(q[1..], d, x, v, ListOk([q[0]], d, x, v, base))
  {
    if |q| == 1 {
      assert q == [q[0]] && q[1..] == [];
    } else {
      var n := |q| - 1;
      ListHead(q[..n], d, x, v, base);
      assert q[1..][..n - 1] == q[..n][1..];
      assert q[..n][0] == q[0] && q[1..][n - 1] == q[n];
    }
  }

  /** A read just submitted settles every sector of its chunk. */
  lemma InflightAppend(q: seq<Blk>, b: Blk, x: nat, v: Sector, base: bool)
    requires BufsFit(q)
    requires |b.got| <= |b.buf|
    ensures InflightOk(q + [b], x, v, base)
         == if Covers(b, x) then (b.got[x - b.sector] ==> b.buf[x - b.sector] == v) else InflightOk(q, x, v, base)
  {
    assert (q + [b])[..|q|] == q;
  }

  lemma ListAppend(q: seq<Blk>, b: Blk, d: nat, x: nat, v: Sector, base: bool)
    requires BufsFit(q)
    requires |b.got| <= |b.buf|
    ensures ListOk(q + [b], d, x, v, base)
         == if b.dev == d && Covers(b, x) then b.buf[x - b.sector] == v else ListOk(q, d, x, v, base)
  {
    assert (q + [b])[..|q|] == q;
  }

  /** Capturing the present contents of a sector cannot unsettle any sector. */
  lemma {:induction false} InflightCapture(q: seq<Blk>, i: nat, k: nat, x: nat, v: Sector, w: Sector, base: bool)
    requires i < |q| && k < |q[i].got| && BufsFit(q)
    requires x == q[i].sector + k ==> w == v
    requires InflightOk(q, x, v, base)
    ensures var b := q[i].(buf := q[i].buf[k := w], got := q[i].got[k := true]);
            BufsFit(q[i := b]) && InflightOk(q[i := b], x, v, base)
  {
    var b := q[i].(buf := q[i].buf[k := w], got := q[i].got[k := true]);
    var n := |q| - 1;
    if i < n {
      assert q[i := b][..n] == q[..n][i := b];
      if !Covers(q[n], x) { InflightCapture(q[..n], i, k, x, v, w, base); }
    } else {
      assert q[i := b][..n] == q[..n];
    }
  }

  // ---------------------------------------------- every step keeps validity

  lemma ValidBlkKept(y: Sys, z: Sys, b: Blk)
    requires ValidBlk(y, b) && |z.devs| == |y.devs|
    requires forall d :: 0 <= d < |y.devs| ==> |z.devs[d].disk| == |y.devs[d].disk|
    ensures ValidBlk(z, b)
  {
  }

  /** Device `d` replaced by a record of the same name and size. */
  lemma DevReplaced(y: Sys, d: nat, v: Dev)
    requires Valid(y) && d < |y.devs| && ValidDev(v)
    requires v.name == y.devs[d].name && |v.disk| == |y.devs[d].disk|
    requires forall i :: 0 <= i < |v.inflight| ==> ValidBlk(y, v.inflight[i]) && v.inflight[i].dev == d
    ensures Valid(y.(devs := y.devs[d := v]))
  {
    hide ValidDev;
    var z := y.(devs := y.devs[d := v]);
    forall e, i | 0 <= e < |z.devs| && 0 <= i < |z.devs[e].inflight|
      ensures ValidBlk(z, z.devs[e].inflight[i]) && z.devs[e].inflight[i].dev == e
    {
      assert ValidBlk(y, z.devs[e].inflight[i]);
      ValidBlkKept(y, z, z.devs[e].inflight[i]);
    }
    forall i | 0 <= i < |z.list| ensures ValidBlk(z, z.list[i]) && AllGot(z.list[i]) {
      ValidBlkKept(y, z, y.list[i]);
    }
  }

  lemma ListReplaced(y: Sys, q: seq<Blk>)
    requires Valid(y) && forall i :: 0 <= i < |q| ==> ValidBlk(y, q[i]) && AllGot(q[i])
    ensures Valid(y.(list := q))
  {
    hide ValidDev;
    var z := y.(list := q);
    forall e, i | 0 <= e < |z.devs| && 0 <= i < |z.devs[e].inflight|
      ensures ValidBlk(z, z.devs[e].inflight[i]) && z.devs[e].inflight[i].dev == e
    {
      ValidBlkKept(y, z, y.devs[e].inflight[i]);
    }
    forall i | 0 <= i < |q| ensures ValidBlk(z, q[i]) { ValidBlkKept(y, z, q[i]); }
  }

  lemma ValidInflight(y: Sys, d: nat)
    requires Valid(y) && d < |y.devs|
    ensures ValidDev(y.devs[d])
    ensures forall i :: 0 <= i < |y.devs[d].inflight| ==>
              ValidBlk(y, y.devs[d].inflight[i]) && y.devs[d].inflight[i].dev == d
  {
  }

  lemma CursorAligned(v: Dev)
    requires ValidDev(v) && v.cursor < |v.disk|
    ensures v.cursor % CHUNK == 0
    ensures var n := Min(CHUNK, |v.disk| - v.cursor);
            (v.cursor + n) % CHUNK == 0 || v.cursor + n == |v.disk|
  {
  }

  /** Every step keeps the shape of the system. */
  lemma StepValid(y: Sys, e: Event)
    requires Enabled(y, e)
    ensures Valid(Exec(y, e))
  {
    hide Valid, ValidBlk;
    match e
    case Land(d, x, data) =>
      ValidInflight(y, d);
      var v := y.devs[d];
      DevReplaced(y, d, v.(disk := v.disk[x := data], pending := v.pending + {x}));
    case Notify(d, x, n) =>
      ValidInflight(y, d);
      DevReplaced(y, d, Exec(y, e).devs[d]);
    case SubmitBulk(d, junk) =>
      ValidInflight(y, d);
      CursorAligned(y.devs[d]);
      NewBlkValid(y, d, y.devs[d].cursor, junk);
      DevReplaced(y, d, Exec(y, e).devs[d]);
    case SubmitDirty(d, x, junk) =>
      ValidInflight(y, d);
      NewBlkValid(y, d, x, junk);
      DevReplaced(y, d, Exec(y, e).devs[d]);
    case Capture(d, i, k) =>
      ValidInflight(y, d);
      CaptureValid(y, d, i, k);
      DevReplaced(y, d, Captured(y.devs[d], i, k));
    case Complete(d) =>
      CompleteValid(y, d);
    case SendBlk =>
      RestValid(y);
    case Drop =>
      RestValid(y);
    case SendSync(d, x, junk) =>
      ValidInflight(y, d);
      DevReplaced(y, d, Exec(y, e).devs[d]);
    case Mark(_) =>
    case EndSection =>
  }

  lemma NewBlkValid(y: Sys, d: nat, x: nat, junk: seq<Sector>)
    requires Valid(y) && d < |y.devs| && x < |y.devs[d].disk| && x % CHUNK == 0 && |junk| == CHUNK
    ensures ValidBlk(y, NewBlk(y, d, x, junk))
  {
  }

  lemma CaptureValid(y: Sys, d: nat, i: nat, k: nat)
    requires Enabled(y, Capture(d, i, k))
    ensures k < |y.devs[d].inflight[i].got| <= |y.devs[d].inflight[i].buf|
    ensures y.devs[d].inflight[i].sector + k < |y.devs[d].disk|
    ensures ValidBlk(y, Captured(y.devs[d], i, k).inflight[i])
  {
    assert ValidBlk(y, y.devs[d].inflight[i]);
  }

  lemma CompleteValid(y: Sys, d: nat)
    requires Enabled(y, Complete(d))
    ensures Valid(Exec(y, Complete(d)))
  {
    var v := y.devs[d];
    assert ValidBlk(y, v.inflight[0]);
    ListReplaced(y, y.list + [v.inflight[0]]);
    var z := y.(list := y.list + [v.inflight[0]]);
    ValidInflight(z, d);
    DevReplaced(z, d, v.(inflight := v.inflight[1..]));
  }

  lemma RestValid(y: Sys)
    requires Valid(y) && |y.list| > 0
    ensures Valid(y.(list := y.list[1..]))
  {
    ListReplaced(y, y.list[1..]);
  }

  // --------------------------------------------- every step keeps the promise

  /** A chunk's sectors share its dirty bit. */
  lemma ChunkOf(b: Blk, total: nat, x: nat)
    requires b.sector % CHUNK == 0 && b.sector < total && |b.got| == Min(CHUNK, total - b.sector) && x < total
    ensures Covers(b, x) <==> b.sector / CHUNK <= x / CHUNK <= (b.sector + |b.got| - 1) / CHUNK
  {
  }

  lemma SpanOf(at: nat, n: nat, x: nat)
    requires n > 0
    ensures at <= x < at + n ==> at / CHUNK <= x / CHUNK <= (at + n - 1) / CHUNK
  {
  }

  lemma WriteKeeps(y: Sys, e: Event, dst: seq<seq<Sector>>, d: nat, x: nat)
    requires Good(y, dst) && Enabled(y, e) && (e.Land? || e.Notify?)
    requires Shaped(Exec(y, e), dst) && d < |y.devs| && x < |y.devs[d].disk|
    requires Settled(Exec(y, e), d, x)
    ensures SectorOk(Exec(y, e), dst, d, x)
  {
    hide Valid, InflightOk, ListOk;
    ValidInflight(y, d);
    if e.Notify? { SpanOf(e.x, e.n, x); }
    assert Settled(y, d, x);
    assert SectorOk(y, dst, d, x);
  }

  lemma SubmitKeeps(y: Sys, e: Event, dst: seq<seq<Sector>>, d: nat, x: nat)
    requires Good(y, dst) && Enabled(y, e) && (e.SubmitBulk? || e.SubmitDirty?)
    requires Shaped(Exec(y, e), dst) && d < |y.devs| && x < |y.devs[d].disk|
    requires Settled(Exec(y, e), d, x)
    ensures SectorOk(Exec(y, e), dst, d, x)
  {
    hide Valid, InflightOk, ListOk;
    ValidInflight(y, e.d);
    BufsHold(y);
    if d == e.d {
      var v := y.devs[d];
      var at := if e.SubmitBulk? then v.cursor else e.x;
      var b := NewBlk(y, d, at, e.junk);
      ChunkOf(b, |v.disk|, x);
      var base := ListOk(y.list, d, x, v.disk[x], dst[d][x] == v.disk[x]);
      InflightAppend(v.inflight, b, x, v.disk[x], base);
      if !Covers(b, x) {
        assert Settled(y, d, x);
        assert SectorOk(y, dst, d, x);
      }
    } else {
      assert Settled(y, d, x);
      assert SectorOk(y, dst, d, x);
    }
  }

  lemma CaptureKeeps(y: Sys, e: Event, dst: seq<seq<Sector>>, d: nat, x: nat)
    requires Good(y, dst) && Enabled(y, e) && e.Capture?
    requires Shaped(Exec(y, e), dst) && d < |y.devs| && x < |y.devs[d].disk|
    requires Settled(Exec(y, e), d, x)
    ensures SectorOk(Exec(y, e), dst, d, x)
  {
    hide Valid, InflightOk, ListOk;
    CaptureValid(y, e.d, e.i, e.k);
    BufsHold(y);
    assert Settled(y, d, x);
    assert SectorOk(y, dst, d, x);
    if d == e.d {
      var v := y.devs[d];
      var base := ListOk(y.list, d, x, v.disk[x], dst[d][x] == v.disk[x]);
      InflightCapture(v.inflight, e.i, e.k, x, v.disk[x], v.disk[v.inflight[e.i].sector + e.k], base);
    }
  }

  lemma CompleteKeeps(y: Sys, e: Event, dst: seq<seq<Sector>>, d: nat, x: nat)
    requires Good(y, dst) && Enabled(y, e) && e.Complete?
    requires Shaped(Exec(y, e), dst) && d < |y.devs| && x < |y.devs[d].disk|
    requires Settled(Exec(y, e), d, x)
    ensures SectorOk(Exec(y, e), dst, d, x)
  {
    hide Valid, ListOk;
    ValidInflight(y, e.d);
    BufsHold(y);
    assert Settled(y, d, x);
    assert SectorOk(y, dst, d, x);
    var v, h := y.devs[d], y.devs[e.d].inflight[0];
    var base := dst[d][x] == v.disk[x];
    ListAppend(y.list, h, d, x, v.disk[x], base);
    if d == e.d {
      InflightHead(v.inflight, x, v.disk[x], ListOk(y.list, d, x, v.disk[x], base));
    }
  }

  lemma SendKeeps(y: Sys, e: Event, dst: seq<seq<Sector>>, d: nat, x: nat)
    requires Good(y, dst) && Enabled(y, e) && e.SendBlk?
    requires Shaped(Exec(y, e), Delivered(y, e, dst)) && d < |y.devs| && x < |y.devs[d].disk|
    requires Settled(Exec(y, e), d, x)
    ensures SectorOk(Exec(y, e), Delivered(y, e, dst), d, x)
  {
    hide Valid, InflightOk;
    BufsHold(y);
    assert Settled(y, d, x);
    assert SectorOk(y, dst, d, x);
    var v, h := y.devs[d], y.list[0];
    ListHead(y.list, d, x, v.disk[x], dst[d][x] == v.disk[x]);
  }

  lemma SyncKeeps(y: Sys, e: Event, dst: seq<seq<Sector>>, d: nat, x: nat)
    requires Good(y, dst) && Enabled(y, e) && e.SendSync? && y.list == []
    requires Shaped(Exec(y, e), Delivered(y, e, dst)) && d < |y.devs| && x < |y.devs[d].disk|
    requires Settled(Exec(y, e), d, x)
    ensures SectorOk(Exec(y, e), Delivered(y, e, dst), d, x)
  {
    hide Valid;
    BufsHold(y);
    ValidInflight(y, e.d);
    var b := FullBlk(y, e.d, e.x, e.junk);
    if d == e.d { ChunkOf(b, |y.devs[d].disk|, x); }
    if !(d == e.d && Covers(b, x)) {
      assert Settled(y, d, x);
      assert SectorOk(y, dst, d, x);
    }
  }

  lemma DropKeeps(y: Sys, e: Event, dst: seq<seq<Sector>>, d: nat, x: nat)
    requires Good(y, dst) && Enabled(y, e) && e.Drop? && DirtyAgain(y, y.list[0])
    requires Shaped(Exec(y, e), dst) && d < |y.devs| && x < |y.devs[d].disk|
    requires Settled(Exec(y, e), d, x)
    ensures SectorOk(Exec(y, e), dst, d, x)
  {
    hide Valid, InflightOk;
    BufsHold(y);
    assert Settled(y, d, x);
    assert SectorOk(y, dst, d, x);
    var v, h := y.devs[d], y.list[0];
    HeadIsValid(y);
    ListHead(y.list, d, x, v.disk[x], dst[d][x] == v.disk[x]);
    if d == h.dev { ChunkOf(h, |v.disk|, x); }
  }

  lemma HeadIsValid(y: Sys)
    requires Valid(y) && |y.list| > 0
    ensures ValidBlk(y, y.list[0])
  {
  }

  lemma DeliveredShape(y: Sys, e: Event, dst: seq<seq<Sector>>)
    requires Shaped(y, dst) && Enabled(y, e)
    ensures Shaped(Exec(y, e), Delivered(y, e, dst))
  {
    StepValid(y, e);
    hide Valid;
  }

  /** Every step of a block migration, guest writes included, keeps the promise
      that settled sectors arrive. */
  lemma StepKeeps(y: Sys, e: Event, dst: seq<seq<Sector>>)
    requires Good(y, dst) && Enabled(y, e) && Harmless(y, e)
    ensures Good(Exec(y, e), Delivered(y, e, dst))
  {
    DeliveredShape(y, e, dst);
    hide Valid, SectorOk, Settled, Exec, Enabled;
    var z, to := Exec(y, e), Delivered(y, e, dst);
    ExecDevs(y, e);
    forall d, x | 0 <= d < |z.devs| && 0 <= x < |z.devs[d].disk| && Settled(z, d, x)
      ensures SectorOk(z, to, d, x)
    {
      match e
      case Land(_, _, _) => WriteKeeps(y, e, dst, d, x);
      case Notify(_, _, _) => WriteKeeps(y, e, dst, d, x);
      case SubmitBulk(_, _) => SubmitKeeps(y, e, dst, d, x);
      case SubmitDirty(_, _, _) => SubmitKeeps(y, e, dst, d, x);
      case Capture(_, _, _) => CaptureKeeps(y, e, dst, d, x);
      case Complete(_) => CompleteKeeps(y, e, dst, d, x);
      case SendBlk => SendKeeps(y, e, dst, d, x);
      case SendSync(_, _, _) => SyncKeeps(y, e, dst, d, x);
      case Drop => DropKeeps(y, e, dst, d, x);
      case Mark(_) => NothingKeeps(y, e, dst, d, x);
      case EndSection => NothingKeeps(y, e, dst, d, x);
    }
  }

  lemma NothingKeeps(y: Sys, e: Event, dst: seq<seq<Sector>>, d: nat, x: nat)
    requires Good(y, dst) && Enabled(y, e) && (e.Mark? || e.EndSection?)
    requires d < |y.devs| && x < |y.devs[d].disk| && Settled(y, d, x)
    ensures Exec(y, e) == y && SectorOk(y, dst, d, x)
  {
  }

  lemma ExecDevs(y: Sys, e: Event)
    requires Enabled(y, e)
    ensures |Exec(y, e).devs| == |y.devs|
    ensures forall d :: 0 <= d < |y.devs| ==> |Exec(y, e).devs[d].disk| == |y.devs[d].disk|
  {
    hide Valid;
  }
}
