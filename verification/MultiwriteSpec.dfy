/** Merging of write requests (`multiwrite_merge` in `block.c`) on values: what
    a list of requests writes, what merging does to it, and exactly when the
    two agree. */
module MultiwriteSpec {
  import opened Wire

  const SECTOR_BYTES: nat := 512
  const IOV_MAX: nat := 1024

  /** A scatter list (`QEMUIOVector`); its `niov` is the length. */
  type Iov = seq<seq<byte>>

  /** The bytes a scatter list holds, in order. */
  function Bytes(v: Iov): (s: seq<byte>) {
    if v == [] then [] else v[0] + Bytes(v[1..])
  }

  /** What `qemu_iovec_copy` appends for `size` bytes from the start of `v`:
      empty elements are skipped and the last one may be cut. */
  function TakeIov(v: Iov, size: nat): (r: Iov)
    ensures |r| <= |v|
  {
    if v == [] || size == 0 then []
    else if v[0] == [] then TakeIov(v[1..], size)
    else if |v[0]| > size then [v[0][..size]]
    else [v[0]] + TakeIov(v[1..], size - |v[0]|)
  }

  lemma {:induction false} TakeBytes(v: Iov, size: nat)
    ensures Bytes(TakeIov(v, size)) == if size <= |Bytes(v)| then Bytes(v)[..size] else Bytes(v)
  {
    if v == [] || size == 0 {
    } else if v[0] == [] {
      TakeBytes(v[1..], size);
      assert Bytes(v) == Bytes(v[1..]);
    } else if |v[0]| > size {
      assert Bytes([v[0][..size]]) == v[0][..size] + Bytes([]);
      assert v[0][..size] == (v[0] + Bytes(v[1..]))[..size];
    } else {
      var t := TakeIov(v[1..], size - |v[0]|);
      TakeBytes(v[1..], size - |v[0]|);
      assert ([v[0]] + t)[1..] == t;
      assert Bytes([v[0]] + t) == v[0] + Bytes(t);
    }
  }

  lemma {:induction false} BytesOfSum(u: Iov, v: Iov)
    ensures Bytes(u + v) == Bytes(u) + Bytes(v)
  {
    if u == [] {
      assert u + v == v;
    } else {
      BytesOfSum(u[1..], v);
      var h, t := u[0], Bytes(u[1..]);
      assert (u + v)[1..] == u[1..] + v && (u + v)[0] == h;
      hide Bytes;
      assert h + (t + Bytes(v)) == (h + t) + Bytes(v);
    }
  }

  // --------------------------------------------------------------- requests

  datatype Req = Req(sector: nat, nb: nat, iov: Iov)

  /** The vector holds exactly the sectors of the request. */
  predicate Consistent(r: Req) {
    |Bytes(r.iov)| == SECTOR_BYTES * r.nb
  }

  predicate AllConsistent(rs: seq<Req>) {
    forall i :: 0 <= i < |rs| ==> Consistent(rs[i])
  }

  predicate Sorted(rs: seq<Req>) {
    forall i, j :: 0 <= i < j < |rs| ==> rs[i].sector <= rs[j].sector
  }

  function Start(r: Req): (x: nat) {
    SECTOR_BYTES * r.sector
  }

  function End(r: Req): (x: nat) {
    Start(r) + |Bytes(r.iov)|
  }

  predicate Covers(r: Req, x: nat) {
    Start(r) <= x < End(r)
  }

  function ByteAt(r: Req, x: nat): (b: byte)
    requires Covers(r, x)
  {
    Bytes(r.iov)[x - Start(r)]
  }

  /** Byte `x` of a disk holding `init` there, after the requests in order. */
  function Value(rs: seq<Req>, x: nat, init: byte): (b: byte) {
    if rs == [] then init
    else
      var r := rs[|rs| - 1];
      if Covers(r, x) then ByteAt(r, x) else Value(rs[..|rs| - 1], x, init)
  }

  // ---------------------------------------------------------------- merging

  /** The test in the loop, for a driver without `bdrv_merge_requests`. */
  predicate Joins(a: Req, b: Req) {
    b.sector <= a.sector + a.nb && |a.iov| + |b.iov| + 1 <= IOV_MAX
  }

  /** The first request cut where the second starts, then the second. */
  function Join(a: Req, b: Req): (r: Req)
    requires a.sector <= b.sector
  {
    var v := TakeIov(a.iov, SECTOR_BYTES * (b.sector - a.sector)) + TakeIov(b.iov, |Bytes(b.iov)|);
    Req(a.sector, |Bytes(v)| / SECTOR_BYTES, v)
  }

  /** One turn of the loop on the requests kept so far. */
  function MergeStep(kept: seq<Req>, r: Req): (m: seq<Req>)
    requires kept != [] ==> kept[|kept| - 1].sector <= r.sector
    ensures m != [] && m[|m| - 1].sector <= r.sector
  {
    if kept != [] && Joins(kept[|kept| - 1], r)
    then kept[..|kept| - 1] + [Join(kept[|kept| - 1], r)]
    else kept + [r]
  }

  function Merged(rs: seq<Req>): (m: seq<Req>)
    requires Sorted(rs)
    ensures rs == [] ==> m == []
    ensures rs != [] ==> m != [] && m[|m| - 1].sector <= rs[|rs| - 1].sector
  {
    if rs == [] then [] else MergeStep(Merged(rs[..|rs| - 1]), rs[|rs| - 1])
  }

  lemma JoinFacts(a: Req, b: Req)
    requires a.sector <= b.sector && Consistent(a) && Consistent(b) && Joins(a, b)
    ensures Consistent(Join(a, b)) && Start(Join(a, b)) == Start(a) && End(Join(a, b)) == End(b)
    ensures Bytes(Join(a, b).iov) == Bytes(a.iov)[..Start(b) - Start(a)] + Bytes(b.iov)
  {
    hide Bytes, TakeIov;
    var size := SECTOR_BYTES * (b.sector - a.sector);
    TakeBytes(a.iov, size);
    TakeBytes(b.iov, |Bytes(b.iov)|);
    BytesOfSum(TakeIov(a.iov, size), TakeIov(b.iov, |Bytes(b.iov)|));
    assert Bytes(b.iov)[..|Bytes(b.iov)|] == Bytes(b.iov);
    assert size <= |Bytes(a.iov)|;
    var total := size + SECTOR_BYTES * b.nb;
    assert total == SECTOR_BYTES * (b.sector - a.sector + b.nb);
  }

  /** Pointwise: `b` where it writes, else what `a` had before the start of `b`. */
  lemma JoinAt(a: Req, b: Req, x: nat)
    requires a.sector <= b.sector && Consistent(a) && Consistent(b) && Joins(a, b)
    ensures Covers(Join(a, b), x) <==> Covers(b, x) || (Covers(a, x) && x < Start(b))
    ensures Covers(b, x) ==> ByteAt(Join(a, b), x) == ByteAt(b, x)
    ensures Covers(a, x) && x < Start(b) ==> ByteAt(Join(a, b), x) == ByteAt(a, x)
  {
    hide Join, Bytes;
    JoinFacts(a, b);
  }

  lemma StepConsistent(kept: seq<Req>, r: Req)
    requires AllConsistent(kept) && Consistent(r) && (kept != [] ==> kept[|kept| - 1].sector <= r.sector)
    ensures AllConsistent(MergeStep(kept, r))
  {
    hide Bytes, Join, Joins, Consistent;
    if kept != [] && Joins(kept[|kept| - 1], r) { JoinFacts(kept[|kept| - 1], r); }
  }

  lemma {:induction false} MergedConsistent(rs: seq<Req>)
    requires Sorted(rs) && AllConsistent(rs)
    ensures AllConsistent(Merged(rs))
  {
    hide MergeStep, Consistent;
    if rs != [] {
      var n := |rs| - 1;
      MergedConsistent(rs[..n]);
      StepConsistent(Merged(rs[..n]), rs[n]);
    }
  }

  /** There is a gap between `a` and `b`, or the request that starts `b` would have
      taken `a` past IOV_MAX elements. */
  predicate Apart(a: Req, b: Req, rs: seq<Req>) {
    || a.sector + a.nb < b.sector
    || exists i :: 0 <= i < |rs| && rs[i].sector == b.sector && |a.iov| + |rs[i].iov| + 1 > IOV_MAX
  }

  lemma ApartMore(a: Req, b: Req, rs: seq<Req>, r: Req)
    requires Apart(a, b, rs)
    ensures Apart(a, b, rs + [r])
  {
    if i :| 0 <= i < |rs| && rs[i].sector == b.sector && |a.iov| + |rs[i].iov| + 1 > IOV_MAX {
      assert (rs + [r])[i] == rs[i];
    }
  }

  /** Requests that overlap or follow each other are merged: two neighbours of the
      result touch only where IOV_MAX keeps them apart. */
  lemma {:induction false} KeptApart(rs: seq<Req>, k: nat)
    requires Sorted(rs) && k + 1 < |Merged(rs)|
    ensures Apart(Merged(rs)[k], Merged(rs)[k + 1], rs)
  {
    hide Apart, TakeIov, Bytes;
    var n := |rs| - 1;
    var front, r := rs[..n], rs[n];
    var kept := Merged(front);
    assert rs == front + [r];
    if k + 1 < |kept| {
      KeptApart(front, k);
      assert Merged(rs)[k] == kept[k] && Merged(rs)[k + 1].sector == kept[k + 1].sector;
      ApartStart(kept[k], kept[k + 1], Merged(rs)[k + 1], front);
      ApartMore(kept[k], Merged(rs)[k + 1], front, r);
    } else {
      ApartLast(kept[k], r, rs, n);
    }
  }

  lemma ApartStart(a: Req, b: Req, c: Req, rs: seq<Req>)
    requires Apart(a, b, rs) && b.sector == c.sector
    ensures Apart(a, c, rs)
  {
  }

  lemma ApartLast(a: Req, r: Req, rs: seq<Req>, n: nat)
    requires n < |rs| && rs[n] == r && !Joins(a, r)
    ensures Apart(a, r, rs)
  {
  }

  // --------------------------------------------------------------- exactness

  function Last(m: seq<Req>): (r: Req)
    requires m != []
  {
    m[|m| - 1]
  }

  /** Request `i` starts within or right after request `i - 1` and ends before
      byte `x` of it; only the number of elements gathered so far is left to the
      merge. */
  predicate Drops(rs: seq<Req>, i: nat, x: nat)
    requires Sorted(rs)
  {
    && 0 < i < |rs|
    && rs[i].sector <= rs[i - 1].sector + rs[i - 1].nb
    && |Last(Merged(rs[..i])).iov| + |rs[i].iov| + 1 <= IOV_MAX
    && End(rs[i]) <= x < End(rs[i - 1])
  }

  /** What the loop cuts off the request kept last. */
  predicate Cuts(rs: seq<Req>, i: nat, x: nat)
    requires Sorted(rs)
  {
    && 0 < i < |rs|
    && Joins(Last(Merged(rs[..i])), rs[i])
    && End(rs[i]) <= x < End(Last(Merged(rs[..i])))
  }

  /** The request kept last ends where the last request does. */
  lemma {:induction false} LastEnd(rs: seq<Req>)
    requires Sorted(rs) && AllConsistent(rs) && rs != []
    ensures End(Last(Merged(rs))) == End(rs[|rs| - 1])
  {
    hide Bytes, Consistent, Join, Joins, End;
    var n := |rs| - 1;
    var m := Merged(rs[..n]);
    MergedConsistent(rs[..n]);
    if m != [] && Joins(Last(m), rs[n]) { JoinFacts(Last(m), rs[n]); }
  }

  lemma DropsAreCuts(rs: seq<Req>, i: nat, x: nat)
    requires Sorted(rs) && AllConsistent(rs)
    ensures Drops(rs, i, x) <==> Cuts(rs, i, x)
  {
    hide Bytes, Merged;
    if 0 < i < |rs| {
      LastEnd(rs[..i]);
      MergedConsistent(rs[..i]);
      assert rs[..i][i - 1] == rs[i - 1];
      var l := Last(Merged(rs[..i]));
      assert Consistent(l) && Consistent(rs[i - 1]);
      assert SECTOR_BYTES * (l.sector + l.nb) == SECTOR_BYTES * (rs[i - 1].sector + rs[i - 1].nb);
    }
  }

  predicate CoveredFrom(rs: seq<Req>, i: nat, x: nat) {
    exists j :: i <= j < |rs| && Covers(rs[j], x)
  }

  /** No joining request ends early, or what it drops is written again later. */
  ghost predicate Lossless(rs: seq<Req>)
    requires Sorted(rs)
  {
    forall i: nat, x: nat :: Drops(rs, i, x) ==> CoveredFrom(rs, i + 1, x)
  }

  /** The two lists leave every byte of every disk the same. */
  ghost predicate SameWrites(rs: seq<Req>, ts: seq<Req>) {
    forall x: nat, init: byte :: Value(rs, x, init) == Value(ts, x, init)
  }

  ghost predicate Preserved(rs: seq<Req>) {
    Sorted(rs) && SameWrites(Merged(rs), rs)
  }

  lemma ValueSnoc(rs: seq<Req>, r: Req, x: nat, init: byte)
    ensures Value(rs + [r], x, init) == if Covers(r, x) then ByteAt(r, x) else Value(rs, x, init)
  {
    assert (rs + [r])[..|rs|] == rs;
  }

  /** One step keeps the value of a byte it does not drop. */
  lemma StepValue(kept: seq<Req>, r: Req, x: nat, init: byte)
    requires AllConsistent(kept) && Consistent(r) && (kept != [] ==> Last(kept).sector <= r.sector)
    ensures Covers(r, x) ==> Value(MergeStep(kept, r), x, init) == ByteAt(r, x)
    ensures !Covers(r, x) && !(kept != [] && Joins(Last(kept), r) && End(r) <= x < End(Last(kept))) ==>
              Value(MergeStep(kept, r), x, init) == Value(kept, x, init)
  {
    hide Bytes, Join, Consistent, Joins, Value, ByteAt;
    if kept != [] && Joins(Last(kept), r) {
      var l, front := Last(kept), kept[..|kept| - 1];
      JoinAt(l, r, x);
      ValueSnoc(front, Join(l, r), x, init);
      ValueSnoc(front, l, x, init);
      assert kept == front + [l];
    } else {
      ValueSnoc(kept, r, x, init);
    }
  }

  lemma {:induction false} PrefixPreserved(rs: seq<Req>, n: nat, x: nat, init: byte)
    requires Sorted(rs) && AllConsistent(rs) && Lossless(rs) && n <= |rs| && !CoveredFrom(rs, n, x)
    ensures Value(Merged(rs[..n]), x, init) == Value(rs[..n], x, init)
  {
    hide Bytes, Join, Joins, Consistent, MergeStep, Value, ByteAt;
    if n == 0 {
      assert rs[..0] == [];
    } else {
      var front, r := rs[..n - 1], rs[n - 1];
      assert rs[..n] == front + [r] && rs[..n][..n - 1] == front;
      ValueSnoc(front, r, x, init);
      MergedConsistent(front);
      StepValue(Merged(front), r, x, init);
      if !Covers(r, x) {
        DropsAreCuts(rs, n - 1, x);
        assert Drops(rs, n - 1, x) ==> CoveredFrom(rs, n, x);
        NotCoveredBack(rs, n - 1, x);
        PrefixPreserved(rs, n - 1, x, init);
      }
    }
  }

  lemma NotCoveredBack(rs: seq<Req>, n: nat, x: nat)
    requires n < |rs| && !Covers(rs[n], x) && !CoveredFrom(rs, n + 1, x)
    ensures !CoveredFrom(rs, n, x)
  {
  }

  lemma LosslessPreserved(rs: seq<Req>)
    requires Sorted(rs) && AllConsistent(rs) && Lossless(rs)
    ensures Preserved(rs)
  {
    forall x: nat, init: byte ensures Value(Merged(rs), x, init) == Value(rs, x, init) {
      assert rs[..|rs|] == rs;
      PrefixPreserved(rs, |rs|, x, init);
    }
  }
}
