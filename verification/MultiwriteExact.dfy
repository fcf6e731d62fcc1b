/** Merging preserves what is written, for every payload, exactly when no byte
    is dropped for good. */
module MultiwriteExact {
  import opened Wire
  import opened MultiwriteSpec

  // ------------------------------------------------------------------ shape

  predicate SameIovShape(u: Iov, v: Iov) {
    |u| == |v| && forall k :: 0 <= k < |u| ==> |u[k]| == |v[k]|
  }

  predicate SameReqShape(a: Req, b: Req) {
    a.sector == b.sector && a.nb == b.nb && SameIovShape(a.iov, b.iov)
  }

  /** The same requests with other payloads. */
  predicate SameShape(rs: seq<Req>, ts: seq<Req>) {
    |rs| == |ts| && forall i :: 0 <= i < |rs| ==> SameReqShape(rs[i], ts[i])
  }

  lemma {:induction false} ShapeBytes(u: Iov, v: Iov)
    requires SameIovShape(u, v)
    ensures |Bytes(u)| == |Bytes(v)|
  {
    if u != [] { ShapeBytes(u[1..], v[1..]); }
  }

  lemma {:induction false} ShapeTake(u: Iov, v: Iov, size: nat)
    requires SameIovShape(u, v)
    ensures SameIovShape(TakeIov(u, size), TakeIov(v, size))
  {
    if u != [] && size != 0 {
      if |u[0]| <= size { ShapeTake(u[1..], v[1..], size - |u[0]|); }
    }
  }

  lemma ShapeJoin(a: Req, b: Req, c: Req, d: Req)
    requires SameReqShape(a, c) && SameReqShape(b, d) && a.sector <= b.sector
    ensures SameReqShape(Join(a, b), Join(c, d))
  {
    hide Bytes, TakeIov;
    var size := SECTOR_BYTES * (b.sector - a.sector);
    ShapeBytes(b.iov, d.iov);
    ShapeTake(a.iov, c.iov, size);
    ShapeTake(b.iov, d.iov, |Bytes(b.iov)|);
    ShapeBytes(Join(a, b).iov, Join(c, d).iov);
  }

  lemma ShapeSorted(rs: seq<Req>, ts: seq<Req>)
    requires SameShape(rs, ts) && Sorted(rs)
    ensures Sorted(ts)
  {
  }

  lemma ShapeConsistent(rs: seq<Req>, ts: seq<Req>)
    requires SameShape(rs, ts) && AllConsistent(rs)
    ensures AllConsistent(ts)
  {
    hide Bytes;
    forall i | 0 <= i < |ts| ensures Consistent(ts[i]) {
      assert Consistent(rs[i]);
      ShapeBytes(rs[i].iov, ts[i].iov);
    }
  }

  lemma ShapeStep(m: seq<Req>, k: seq<Req>, r: Req, t: Req)
    requires SameShape(m, k) && SameReqShape(r, t)
    requires m != [] ==> Last(m).sector <= r.sector
    ensures k != [] ==> Last(k).sector <= t.sector
    ensures SameShape(MergeStep(m, r), MergeStep(k, t))
  {
    hide Bytes, Join, SameIovShape;
    if m != [] {
      assert SameReqShape(Last(m), Last(k));
      ShapeNiov(Last(m), Last(k));
      ShapeNiov(r, t);
      if Joins(Last(m), r) { ShapeJoin(Last(m), r, Last(k), t); }
    }
  }

  lemma ShapeNiov(a: Req, b: Req)
    requires SameReqShape(a, b)
    ensures |a.iov| == |b.iov|
  {
  }

  lemma {:induction false} ShapeMerged(rs: seq<Req>, ts: seq<Req>)
    requires SameShape(rs, ts) && Sorted(rs) && Sorted(ts)
    ensures SameShape(Merged(rs), Merged(ts))
  {
    hide MergeStep, SameReqShape;
    if rs != [] {
      var n := |rs| - 1;
      ShapeMerged(rs[..n], ts[..n]);
      ShapeStep(Merged(rs[..n]), Merged(ts[..n]), rs[n], ts[n]);
    }
  }

  lemma ShapeCovers(a: Req, b: Req, x: nat)
    requires SameReqShape(a, b)
    ensures Covers(a, x) <==> Covers(b, x)
    ensures End(a) == End(b)
  {
    ShapeBytes(a.iov, b.iov);
  }

  lemma ShapeDrops(rs: seq<Req>, ts: seq<Req>, i: nat, x: nat)
    requires SameShape(rs, ts) && Sorted(rs) && Sorted(ts) && Drops(ts, i, x)
    ensures Drops(rs, i, x)
  {
    hide Bytes, Merged, End;
    ShapeMerged(rs[..i], ts[..i]);
    ShapeNiov(Last(Merged(rs[..i])), Last(Merged(ts[..i])));
    ShapeNiov(rs[i], ts[i]);
    ShapeCovers(rs[i - 1], ts[i - 1], x);
    ShapeCovers(rs[i], ts[i], x);
  }

  lemma ShapeLossless(rs: seq<Req>, ts: seq<Req>)
    requires SameShape(rs, ts) && Sorted(rs) && Sorted(ts) && Lossless(rs)
    ensures Lossless(ts)
  {
    hide Drops, Covers;
    forall i: nat, x: nat | Drops(ts, i, x) ensures CoveredFrom(ts, i + 1, x) {
      ShapeDrops(rs, ts, i, x);
      var j :| i + 1 <= j < |rs| && Covers(rs[j], x);
      ShapeCovers(rs[j], ts[j], x);
    }
  }

  // ------------------------------------------------------------- the payload

  function FillIov(v: Iov, b: byte): (r: Iov) {
    seq(|v|, k requires 0 <= k < |v| => seq(|v[k]|, _ => b))
  }

  /** Ones in request `k`, zeros everywhere else. */
  function Marked(rs: seq<Req>, k: nat): (ts: seq<Req>)
    ensures |ts| == |rs|
  {
    seq(|rs|, i requires 0 <= i < |rs| => rs[i].(iov := FillIov(rs[i].iov, if i == k then 1 else 0)))
  }

  lemma MarkedShape(rs: seq<Req>, k: nat)
    ensures SameShape(rs, Marked(rs, k))
  {
  }

  predicate AllBytes(s: seq<byte>, b: byte) {
    forall i :: 0 <= i < |s| ==> s[i] == b
  }

  lemma {:induction false} FilledBytes(v: Iov, b: byte)
    ensures AllBytes(Bytes(FillIov(v, b)), b)
  {
    var f := FillIov(v, b);
    if v != [] {
      FilledBytes(v[1..], b);
      assert f[1..] == FillIov(v[1..], b);
    }
  }

  lemma MarkedAt(rs: seq<Req>, k: nat, i: nat, x: nat)
    requires i < |rs| && Covers(Marked(rs, k)[i], x)
    ensures ByteAt(Marked(rs, k)[i], x) == if i == k then 1 else 0
  {
    hide FillIov, Bytes;
    FilledBytes(rs[i].iov, if i == k then 1 else 0);
  }

  // -------------------------------------------------------- a byte that is lost

  /** Whatever is kept at `x` is 0. */
  predicate ZeroAt(m: seq<Req>, x: nat) {
    forall i :: 0 <= i < |m| && Covers(m[i], x) ==> ByteAt(m[i], x) == 0
  }

  lemma {:induction false} ZeroValue(m: seq<Req>, x: nat)
    requires ZeroAt(m, x)
    ensures Value(m, x, 0) == 0
  {
    hide Covers, ByteAt;
    if m != [] { ZeroValue(m[..|m| - 1], x); }
  }

  lemma StepZero(kept: seq<Req>, r: Req, x: nat)
    requires AllConsistent(kept) && Consistent(r) && (kept != [] ==> Last(kept).sector <= r.sector)
    requires ZeroAt(kept, x) && ZeroAt([r], x)
    ensures ZeroAt(MergeStep(kept, r), x)
  {
    hide Bytes, Join, Consistent, Joins, ByteAt;
    assert [r][0] == r;
    if kept != [] && Joins(Last(kept), r) { JoinAt(Last(kept), r, x); }
  }

  lemma {:induction false} ZeroMerged(rs: seq<Req>, n: nat, x: nat)
    requires Sorted(rs) && AllConsistent(rs) && n <= |rs| && ZeroAt(rs[..n], x)
    ensures ZeroAt(Merged(rs[..n]), x)
  {
    hide Bytes, Consistent, Covers, ByteAt, MergeStep;
    if n == 0 {
      assert rs[..0] == [];
    } else {
      var front, r := rs[..n - 1], rs[n - 1];
      assert rs[..n][..n - 1] == front && rs[..n][n - 1] == r;
      assert ZeroAt(front, x) by {
        forall i | 0 <= i < n - 1 && Covers(front[i], x) ensures ByteAt(front[i], x) == 0 {
          assert front[i] == rs[..n][i];
        }
      }
      ZeroMerged(rs, n - 1, x);
      MergedConsistent(front);
      StepZero(Merged(front), r, x);
    }
  }

  /** Everything kept but the last request is 0 at `x`, or the last request
      does not cover `x`. */
  predicate OnlyLast(m: seq<Req>, x: nat) {
    m != [] && (ZeroAt(m[..|m| - 1], x) || !Covers(Last(m), x))
  }

  lemma StepOnlyLast(kept: seq<Req>, r: Req, x: nat)
    requires AllConsistent(kept) && Consistent(r) && kept != [] && Last(kept).sector <= r.sector
    requires !Covers(r, x) && OnlyLast(kept, x)
    ensures OnlyLast(MergeStep(kept, r), x)
  {
    hide Bytes, Join, Consistent, Joins, ByteAt, ZeroAt;
    var l := Last(kept);
    if Joins(l, r) {
      JoinAt(l, r, x);
      var m := MergeStep(kept, r);
      assert m[..|m| - 1] == kept[..|kept| - 1];
    }
  }

  /** From the last request `k` that covers `x` on, only the last kept request
      can hold its byte. */
  lemma {:induction false} OnlyLastUntil(rs: seq<Req>, k: nat, n: nat, x: nat)
    requires Sorted(rs) && AllConsistent(rs) && k < n <= |rs| && ZeroAt(rs[..k], x)
    requires forall i :: k < i < n ==> !Covers(rs[i], x)
    ensures OnlyLast(Merged(rs[..n]), x)
  {
    hide Bytes, Consistent, Covers, ByteAt, MergeStep, ZeroAt, OnlyLast;
    var front, r := rs[..n - 1], rs[n - 1];
    assert rs[..n][..n - 1] == front && rs[..n][n - 1] == r;
    MergedConsistent(front);
    if n == k + 1 {
      ZeroMerged(rs, k, x);
      FirstOnlyLast(Merged(front), r, x);
    } else {
      OnlyLastUntil(rs, k, n - 1, x);
      StepOnlyLast(Merged(front), r, x);
    }
  }

  lemma FirstOnlyLast(kept: seq<Req>, r: Req, x: nat)
    requires ZeroAt(kept, x) && (kept != [] ==> Last(kept).sector <= r.sector)
    ensures OnlyLast(MergeStep(kept, r), x)
  {
    hide Bytes, Join, Joins, Covers, ByteAt;
    var m := MergeStep(kept, r);
    var front := m[..|m| - 1];
    forall i | 0 <= i < |front| && Covers(front[i], x) ensures ByteAt(front[i], x) == 0 {
      assert front[i] == kept[i];
    }
  }

  /** All of it 0 at `x`, and the last request ends before `x` or misses it. */
  predicate Gone(m: seq<Req>, x: nat) {
    m != [] && ZeroAt(m, x) && !Covers(Last(m), x)
  }

  lemma DropGone(kept: seq<Req>, r: Req, x: nat)
    requires AllConsistent(kept) && Consistent(r) && kept != [] && Last(kept).sector <= r.sector
    requires OnlyLast(kept, x) && Joins(Last(kept), r) && End(r) <= x < End(Last(kept))
    ensures Gone(MergeStep(kept, r), x)
  {
    hide Bytes, Join, Consistent, Joins, ByteAt;
    var l, m := Last(kept), MergeStep(kept, r);
    JoinAt(l, r, x);
    forall i | 0 <= i < |m| && Covers(m[i], x) ensures ByteAt(m[i], x) == 0 {
      assert i < |m| - 1 ==> m[i] == kept[..|kept| - 1][i];
    }
  }

  lemma StepGone(kept: seq<Req>, r: Req, x: nat)
    requires AllConsistent(kept) && Consistent(r) && kept != [] && Last(kept).sector <= r.sector
    requires Gone(kept, x) && !Covers(r, x)
    ensures Gone(MergeStep(kept, r), x)
  {
    hide Bytes, Join, Consistent, Joins, ByteAt;
    if Joins(Last(kept), r) { JoinAt(Last(kept), r, x); }
  }

  lemma {:induction false} GoneForGood(rs: seq<Req>, i: nat, n: nat, x: nat)
    requires Sorted(rs) && AllConsistent(rs) && Cuts(rs, i, x) && i < n <= |rs|
    requires OnlyLast(Merged(rs[..i]), x) && !CoveredFrom(rs, i + 1, x)
    ensures Gone(Merged(rs[..n]), x)
  {
    hide Bytes, Consistent, Covers, ByteAt, MergeStep, ZeroAt, OnlyLast, Joins;
    var front, r := rs[..n - 1], rs[n - 1];
    assert rs[..n][..n - 1] == front && rs[..n][n - 1] == r;
    MergedConsistent(front);
    if n == i + 1 {
      DropGone(Merged(front), r, x);
    } else {
      GoneForGood(rs, i, n - 1, x);
      StepGone(Merged(front), r, x);
    }
  }

  // ------------------------------------------------------------ both halves

  predicate AnyCovers(rs: seq<Req>, x: nat) {
    exists i :: 0 <= i < |rs| && Covers(rs[i], x)
  }

  lemma StepCovers(kept: seq<Req>, r: Req, x: nat)
    requires AllConsistent(kept) && Consistent(r) && (kept != [] ==> Last(kept).sector <= r.sector)
    requires AnyCovers(MergeStep(kept, r), x) && !Covers(r, x)
    ensures AnyCovers(kept, x)
  {
    hide Bytes, Consistent, Join, Joins, Covers;
    var m := MergeStep(kept, r);
    var i :| 0 <= i < |m| && Covers(m[i], x);
    if kept != [] && Joins(Last(kept), r) {
      JoinAt(Last(kept), r, x);
      assert Covers(kept[i], x);
    } else {
      assert Covers(kept[i], x);
    }
  }

  /** What is kept covers nothing the requests did not cover. */
  lemma {:induction false} MergedCovers(rs: seq<Req>, x: nat)
    requires Sorted(rs) && AllConsistent(rs) && AnyCovers(Merged(rs), x)
    ensures AnyCovers(rs, x)
  {
    hide Consistent, MergeStep, Covers;
    var n := |rs| - 1;
    if !Covers(rs[n], x) {
      MergedConsistent(rs[..n]);
      StepCovers(Merged(rs[..n]), rs[n], x);
      MergedCovers(rs[..n], x);
      var j :| 0 <= j < n && Covers(rs[..n][j], x);
      assert Covers(rs[j], x);
    }
  }

  /** The last of the first `n` requests that covers `x`. */
  lemma {:induction false} LastCoverer(rs: seq<Req>, n: nat, x: nat) returns (k: nat)
    requires n <= |rs| && AnyCovers(rs[..n], x)
    ensures k < n && Covers(rs[k], x) && forall i :: k < i < n ==> !Covers(rs[i], x)
  {
    hide Covers;
    var i :| 0 <= i < n && Covers(rs[..n][i], x);
    assert rs[..n][i] == rs[i];
    if Covers(rs[n - 1], x) {
      k := n - 1;
    } else {
      assert rs[..n - 1][i] == rs[i];
      k := LastCoverer(rs, n - 1, x);
    }
  }

  lemma {:induction false} LastValue(rs: seq<Req>, k: nat, x: nat, init: byte)
    requires k < |rs| && Covers(rs[k], x) && forall i :: k < i < |rs| ==> !Covers(rs[i], x)
    ensures Value(rs, x, init) == ByteAt(rs[k], x)
  {
    hide Covers, ByteAt;
    if k < |rs| - 1 {
      var f := rs[..|rs| - 1];
      assert forall i :: k < i < |f| ==> f[i] == rs[i];
      LastValue(f, k, x, init);
    }
  }

  lemma MarkedZeroAt(rs: seq<Req>, k: nat, x: nat)
    requires k <= |rs|
    ensures ZeroAt(Marked(rs, k)[..k], x)
  {
    hide Marked, Covers, ByteAt;
    var ts := Marked(rs, k);
    forall i | 0 <= i < k && Covers(ts[..k][i], x) ensures ByteAt(ts[..k][i], x) == 0 {
      MarkedAt(rs, k, i, x);
    }
  }

  /** A byte dropped for good shows: mark the last request that writes it. */
  lemma LossShows(rs: seq<Req>, i: nat, x: nat) returns (k: nat)
    requires Sorted(rs) && AllConsistent(rs) && Drops(rs, i, x) && !CoveredFrom(rs, i + 1, x)
    ensures !Preserved(Marked(rs, k))
  {
    hide Bytes, Joins, Merged, Marked, Value, ByteAt, OnlyLast, ZeroAt;
    var kept := Merged(rs[..i]);
    MergedConsistent(rs[..i]);
    DropsAreCuts(rs, i, x);
    LastCovers(rs, i, x);
    MergedCovers(rs[..i], x);
    k := LastCoverer(rs, i, x);
    var ts := Marked(rs, k);
    MarkedShape(rs, k);
    ShapeSorted(rs, ts);
    ShapeConsistent(rs, ts);
    ShapeDrops(ts, rs, i, x);
    DropsAreCuts(ts, i, x);
    SameCovers(rs, ts, x);
    MarkedZeroAt(rs, k, x);
    OnlyLastUntil(ts, k, i, x);
    GoneForGood(ts, i, |ts|, x);
    assert ts[..|ts|] == ts;
    ZeroValue(Merged(ts), x);
    assert !Covers(rs[i], x);
    LastValue(ts, k, x, 0);
    MarkedAt(rs, k, k, x);
  }

  lemma SameCovers(rs: seq<Req>, ts: seq<Req>, x: nat)
    requires SameShape(rs, ts)
    ensures forall i :: 0 <= i < |rs| ==> (Covers(rs[i], x) <==> Covers(ts[i], x))
  {
    hide Covers;
    forall i | 0 <= i < |rs| ensures Covers(rs[i], x) <==> Covers(ts[i], x) {
      ShapeCovers(rs[i], ts[i], x);
    }
  }

  /** What a request drops, the kept request did cover. */
  lemma LastCovers(rs: seq<Req>, i: nat, x: nat)
    requires Sorted(rs) && Cuts(rs, i, x)
    ensures AnyCovers(Merged(rs[..i]), x)
  {
    hide Merged, Bytes;
    var m := Merged(rs[..i]);
    assert Last(m).sector <= rs[i].sector;
    assert Covers(m[|m| - 1], x);
  }

  ghost predicate PreservedForAllPayloads(rs: seq<Req>) {
    forall ts | SameShape(rs, ts) :: Preserved(ts)
  }

  /** The merged requests write what the sorted ones write, whatever the data,
      if and only if the merge is lossless. */
  lemma MergeExact(rs: seq<Req>)
    requires Sorted(rs) && AllConsistent(rs)
    ensures PreservedForAllPayloads(rs) <==> Lossless(rs)
  {
    hide Preserved, SameShape, Drops, CoveredFrom;
    if Lossless(rs) {
      forall ts | SameShape(rs, ts) ensures Preserved(ts) {
        ShapeSorted(rs, ts);
        ShapeConsistent(rs, ts);
        ShapeLossless(rs, ts);
        LosslessPreserved(ts);
      }
    } else {
      var i: nat, x: nat :| Drops(rs, i, x) && !CoveredFrom(rs, i + 1, x);
      var k := LossShows(rs, i, x);
      MarkedShape(rs, k);
    }
  }

  // ------------------------------------------------- a condition on the ends

  /** Each request ends no earlier than every request before it. */
  predicate EndsAscend(rs: seq<Req>) {
    forall i, j :: 0 <= i < j < |rs| ==> End(rs[i]) <= End(rs[j])
  }

  lemma AscendingLossless(rs: seq<Req>)
    requires Sorted(rs) && AllConsistent(rs) && EndsAscend(rs)
    ensures Lossless(rs) && PreservedForAllPayloads(rs)
  {
    hide PreservedForAllPayloads, End, Bytes, Merged;
    assert forall i: nat, x: nat :: !Drops(rs, i, x);
    MergeExact(rs);
  }

  /** Four sectors and then the second of them again: the merged request ends
      after two sectors. */
  lemma ContainedRequestLoses(payload: seq<byte>, inner: seq<byte>)
    requires |payload| == 4 * SECTOR_BYTES && |inner| == SECTOR_BYTES
    ensures var rs := [Req(0, 4, [payload]), Req(1, 1, [inner])];
            Sorted(rs) && AllConsistent(rs) && !Lossless(rs) && !PreservedForAllPayloads(rs)
  {
    hide Merged;
    var a, b := Req(0, 4, [payload]), Req(1, 1, [inner]);
    var rs := [a, b];
    assert Bytes([payload]) == payload && Bytes([inner]) == inner;
    assert rs[..1] == [a] && rs[..1][..0] == [];
    MergedOne(a);
    assert Drops(rs, 1, 3 * SECTOR_BYTES);
    assert !CoveredFrom(rs, 2, 3 * SECTOR_BYTES);
    MergeExact(rs);
  }

  lemma MergedOne(r: Req)
    ensures Merged([r]) == [r]
  {
    assert Merged([r][..0]) == [];
  }
}
