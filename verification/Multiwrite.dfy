/** `bdrv_aio_multiwrite` in `block.c`: merging the requests in place, and the
    completion counter with its dummy request. */
module Multiwrite {
  import opened Wire
  import opened MultiwriteSpec
  import opened MultiwriteExact

  // ---------------------------------------------------------- scatter lists

  /** What `qemu_iovec_copy` appends: `size` bytes of `v` after `skip`. */
  function CopyIov(v: Iov, skip: nat, size: nat): (r: Iov) {
    if v == [] || size == 0 then []
    else if skip >= |v[0]| then CopyIov(v[1..], skip - |v[0]|, size)
    else if |v[0]| - skip > size then [v[0][skip..skip + size]]
    else [v[0][skip..]] + CopyIov(v[1..], 0, size - (|v[0]| - skip))
  }

  lemma {:induction false} CopyIsTake(v: Iov, size: nat)
    ensures CopyIov(v, 0, size) == TakeIov(v, size)
  {
    if v != [] && size != 0 {
      if |v[0]| <= size { CopyIsTake(v[1..], size - |v[0]|); }
      assert v[0][0..] == v[0];
    }
  }

  function Window(s: seq<byte>, skip: nat, size: nat): (r: seq<byte>) {
    if skip >= |s| then [] else if skip + size <= |s| then s[skip..skip + size] else s[skip..]
  }

  /** A window of two pieces: in the second, in the first, or across. */
  lemma WindowSplit(h: seq<byte>, t: seq<byte>, skip: nat, size: nat)
    ensures skip >= |h| ==> Window(h + t, skip, size) == Window(t, skip - |h|, size)
    ensures skip + size < |h| ==> Window(h + t, skip, size) == h[skip..skip + size]
    ensures skip < |h| <= skip + size ==> Window(h + t, skip, size) == h[skip..] + Window(t, 0, skip + size - |h|)
  {
  }

  lemma BytesOfOne(h: seq<byte>, v: Iov)
    ensures Bytes([h]) == h && Bytes([h] + v) == h + Bytes(v)
  {
    BytesOfSum([h], v);
    assert Bytes([h]) == h + Bytes([]);
  }

  lemma {:induction false} CopyBytes(v: Iov, skip: nat, size: nat)
    ensures Bytes(CopyIov(v, skip, size)) == Window(Bytes(v), skip, size)
  {
    if v == [] || size == 0 {
    } else {
      var h, t := v[0], v[1..];
      assert Bytes(v) == h + Bytes(t);
      hide Bytes, Window;
      WindowSplit(h, Bytes(t), skip, size);
      if skip >= |h| {
        CopyBytes(t, skip - |h|, size);
      } else if |h| - skip > size {
        BytesOfOne(h[skip..skip + size], []);
      } else {
        var n := size - (|h| - skip);
        CopyBytes(t, 0, n);
        BytesOfOne(h[skip..], CopyIov(t, 0, n));
      }
    }
  }

  /** `qemu_iovec_copy`: the bytes [skip, skip + size) of `src`, as far as it
      goes, behind those of `dst`. */
  method IovecCopy(dst: Iov, src: Iov, skip0: nat, size: nat) returns (r: Iov)
    ensures Bytes(r) == Bytes(dst) + Window(Bytes(src), skip0, size)
    ensures r == dst + CopyIov(src, skip0, size)
  {
    hide Window, Bytes;
    r := dst;
    ghost var cut := false;
    var i, done := 0, 0;
    var skip: nat := skip0;
    while i < |src| && done != size
      invariant 0 <= i <= |src| && 0 <= done <= size && !cut
      invariant r + CopyIov(src[i..], skip, size - done) == dst + CopyIov(src, skip0, size)
    {
      assert src[i..][1..] == src[i + 1..];
      if skip >= |src[i]| {
        skip := skip - |src[i]|;
        i := i + 1;
      } else {
        var base := src[i][skip..];
        skip := 0;
        if done + |base| > size {
          ghost var from := |src[i]| - |base|;
          assert src[i][from..][..size - done] == src[i][from..from + (size - done)];
          r := r + [base[..size - done]];
          cut := true;
          break;
        }
        r := r + [base];
        done := done + |base|;
        i := i + 1;
      }
    }
    assert !cut ==> r == r + CopyIov(src[i..], skip, size - done);
    CopyBytes(src, skip0, size);
    BytesOfSum(dst, CopyIov(src, skip0, size));
  }

  // ---------------------------------------------------------------- sorting

  function Insert(r: Req, t: seq<Req>): (s: seq<Req>) {
    if t == [] || r.sector <= t[0].sector then [r] + t else [t[0]] + Insert(r, t[1..])
  }

  function SortBySector(rs: seq<Req>): (s: seq<Req>) {
    if rs == [] then [] else Insert(rs[0], SortBySector(rs[1..]))
  }

  lemma {:induction false} InsertFacts(r: Req, t: seq<Req>)
    requires Sorted(t)
    ensures multiset(Insert(r, t)) == multiset{r} + multiset(t)
    ensures Sorted(Insert(r, t)) && Insert(r, t) != []
    ensures Insert(r, t)[0] == r || (t != [] && Insert(r, t)[0] == t[0])
  {
    if t != [] && r.sector > t[0].sector {
      InsertFacts(r, t[1..]);
      var s := Insert(r, t[1..]);
      assert t == [t[0]] + t[1..];
      forall i | 0 <= i < |s| ensures t[0].sector <= s[i].sector {
        assert s[0].sector <= s[i].sector;
      }
    }
  }

  lemma {:induction false} SortFacts(rs: seq<Req>)
    ensures Sorted(SortBySector(rs)) && multiset(SortBySector(rs)) == multiset(rs)
    ensures |SortBySector(rs)| == |rs|
  {
    if rs != [] {
      hide Sorted, Insert;
      SortFacts(rs[1..]);
      InsertFacts(rs[0], SortBySector(rs[1..]));
      assert rs == [rs[0]] + rs[1..];
      assert |multiset(rs)| == |rs|;
      assert |multiset(SortBySector(rs))| == |SortBySector(rs)|;
    } else {
      assert SortBySector(rs) == [];
    }
  }

  /** The `qsort` by start sector, as far as the merge relies on it. */
  method SortRequests(reqs: array<Req>)
    modifies reqs
    ensures Sorted(reqs[..]) && multiset(reqs[..]) == multiset(old(reqs[..]))
  {
    hide Sorted, SortBySector;
    var s := SortBySector(reqs[..]);
    SortFacts(reqs[..]);
    var i := 0;
    while i < reqs.Length
      invariant 0 <= i <= reqs.Length && reqs[..i] == s[..i]
    {
      reqs[i] := s[i];
      i := i + 1;
    }
    assert reqs[..] == s;
  }

  // ---------------------------------------------------------------- merging

  lemma MergedNext(s: seq<Req>, i: nat)
    requires Sorted(s) && i < |s|
    ensures Merged(s[..i + 1]) == MergeStep(Merged(s[..i]), s[i])
  {
    assert s[..i + 1][..i] == s[..i];
  }

  /** The merged request of the loop body. */
  method Combine(a: Req, b: Req) returns (r: Req)
    requires a.sector <= b.sector
    ensures r == Join(a, b)
  {
    hide Bytes, TakeIov, CopyIov, Window;
    var size := (b.sector - a.sector) * SECTOR_BYTES;
    var qiov := IovecCopy([], a.iov, 0, size);
    qiov := IovecCopy(qiov, b.iov, 0, |Bytes(b.iov)|);
    CopyIsTake(a.iov, size);
    CopyIsTake(b.iov, |Bytes(b.iov)|);
    assert qiov == TakeIov(a.iov, size) + TakeIov(b.iov, |Bytes(b.iov)|);
    r := Req(a.sector, |Bytes(qiov)| / SECTOR_BYTES, qiov);
  }

  /** `multiwrite_merge`: sort, then compact in place.  `s` is the order the
      sort produced. */
  method MultiwriteMerge(reqs: array<Req>) returns (n: nat, ghost s: seq<Req>)
    requires reqs.Length > 0
    modifies reqs
    ensures Sorted(s) && multiset(s) == multiset(old(reqs[..]))
    ensures n <= reqs.Length && reqs[..n] == Merged(s)
    ensures AllConsistent(old(reqs[..])) ==>
              AllConsistent(reqs[..n]) && (Lossless(s) ==> SameWrites(reqs[..n], s))
  {
    hide Joins, Join, AllConsistent, Lossless, SameWrites, Merged, MergeStep;
    SortRequests(reqs);
    s := reqs[..];
    var outidx, i := 0, 1;
    MergedOne(s[0]);
    assert s[..1] == [s[0]];
    while i < reqs.Length
      invariant 0 <= outidx < i <= reqs.Length
      invariant reqs[..outidx + 1] == Merged(s[..i]) && reqs[i..] == s[i..]
    {
      MergedNext(s, i);
      SortedLast(s, i);
      assert reqs[i] == reqs[i..][0] == s[i] && reqs[i..][1..] == s[i + 1..];
      assert reqs[outidx] == Last(reqs[..outidx + 1]);
      outidx := MergeTurn(reqs, outidx, i);
      i := i + 1;
    }
    n := outidx + 1;
    assert s[..i] == s;
    if AllConsistent(old(reqs[..])) {
      PermutedConsistent(old(reqs[..]), s);
      MergedConsistent(s);
      if Lossless(s) { LosslessPreserved(s); }
    }
  }

  /** The loop body: request `i` joins the last one kept or is kept after it. */
  method MergeTurn(reqs: array<Req>, outidx: nat, i: nat) returns (out: nat)
    requires outidx < i < reqs.Length && reqs[outidx].sector <= reqs[i].sector
    modifies reqs
    ensures outidx <= out <= i && reqs[i + 1..] == old(reqs[i + 1..])
    ensures reqs[..out + 1] == MergeStep(old(reqs[..outidx + 1]), old(reqs[i]))
  {
    hide Join;
    ghost var kept := reqs[..outidx + 1];
    out := outidx;
    var merge := reqs[i].sector <= reqs[outidx].sector + reqs[outidx].nb;
    if |reqs[outidx].iov| + |reqs[i].iov| + 1 > IOV_MAX { merge := false; }
    if merge {
      var r := Combine(reqs[outidx], reqs[i]);
      reqs[outidx] := r;
      assert reqs[..outidx + 1] == kept[..outidx] + [r];
    } else {
      out := outidx + 1;
      reqs[out] := reqs[i];
      assert reqs[..out + 1] == kept + [old(reqs[i])];
    }
  }

  lemma SortedLast(s: seq<Req>, i: nat)
    requires Sorted(s) && 0 < i < |s|
    ensures Merged(s[..i]) != [] && Last(Merged(s[..i])).sector <= s[i].sector
  {
    hide Merged;
  }

  lemma PermutedConsistent(rs: seq<Req>, s: seq<Req>)
    requires AllConsistent(rs) && multiset(s) == multiset(rs)
    ensures AllConsistent(s)
  {
    hide Consistent;
    forall i | 0 <= i < |s| ensures Consistent(s[i]) {
      assert s[i] in multiset(s);
      assert s[i] in rs;
    }
  }

  // ------------------------------------------------------------- completion

  const EIO := 5
  const ENOMEDIUM := 123

  /** The error that is reported: the first negative result. */
  function FirstNegative(results: seq<int>): (e: int)
    ensures e <= 0
  {
    if results == [] then 0
    else
      var e := FirstNegative(results[..|results| - 1]);
      if e == 0 && results[|results| - 1] < 0 then results[|results| - 1] else e
  }

  predicate NoneNegative(results: seq<int>) {
    forall i :: 0 <= i < |results| ==> results[i] >= 0
  }

  /** `e` is the earliest negative result, or 0 when there is none. */
  predicate FirstError(results: seq<int>, e: int) {
    if NoneNegative(results) then e == 0
    else exists i ::
      0 <= i < |results| && e == results[i] && results[i] < 0 && forall k :: 0 <= k < i ==> results[k] >= 0
  }

  lemma {:induction false} FirstNegativeIs(results: seq<int>)
    ensures FirstError(results, FirstNegative(results))
    ensures FirstNegative(results) == 0 <==> NoneNegative(results)
  {
    if results != [] {
      var n := |results| - 1;
      var front, e := results[..n], FirstNegative(results[..n]);
      FirstNegativeIs(front);
      if e != 0 {
        var i :| 0 <= i < n && e == front[i] && front[i] < 0 && forall k :: 0 <= k < i ==> front[k] >= 0;
        assert results[i] == e && forall k :: 0 <= k < i ==> results[k] == front[k];
      } else {
        assert forall k :: 0 <= k < n ==> results[k] == front[k];
        assert FirstNegative(results) != 0 ==> results[n] < 0;
      }
    }
  }

  /** Every callback once, in order, with the same error. */
  function AllCalled(n: nat, error: int): (c: seq<(nat, int)>)
    ensures |c| == n && forall i :: 0 <= i < n ==> c[i] == (i, error)
  {
    seq(n, i requires 0 <= i < n => (i, error))
  }

  class MultiwriteCB {
    var error: int
    var numRequests: int
    const numCallbacks: nat
    var freed: bool
    var calls: seq<(nat, int)>           // user callbacks run: which, with what error
    ghost var results: seq<int>          // every result passed to multiwrite_cb

    constructor (n: nat)
      ensures Live() && numCallbacks == n && numRequests == 0 && results == []
    {
      error, numRequests, numCallbacks, freed, calls, results := 0, 0, n, false, [], [];
    }

    ghost predicate Live()
      reads this
    {
      !freed && calls == [] && numRequests >= 0 && error == FirstNegative(results)
    }

    ghost predicate Done()
      reads this
    {
      freed && numRequests == 0 && calls == AllCalled(numCallbacks, FirstNegative(results))
    }

    /** `multiwrite_user_cb`. */
    method UserCb()
      requires calls == [] && !freed
      modifies this`calls
      ensures calls == AllCalled(numCallbacks, error)
    {
      var i := 0;
      while i < numCallbacks
        invariant 0 <= i <= numCallbacks && calls == AllCalled(i, error)
      {
        calls := calls + [(i, error)];
        i := i + 1;
      }
    }

    /** `multiwrite_cb`; the requires is what keeps it off a freed block. */
    method Cb(ret: int)
      requires Live() && numRequests >= 1
      modifies this
      ensures results == old(results) + [ret] && numRequests == old(numRequests) - 1
      ensures if numRequests == 0 then Done() else Live()
    {
      if ret < 0 && error == 0 { error := ret; }
      results := results + [ret];
      numRequests := numRequests - 1;
      if numRequests == 0 {
        UserCb();
        freed := true;
      }
    }

    /** Completions delivered while something is still counted. */
    method CompleteAll(rets: seq<int>)
      requires Live() && numRequests > |rets|
      modifies this
      ensures Live() && results == old(results) + rets && numRequests == old(numRequests) - |rets|
    {
      var k := 0;
      while k < |rets|
        invariant 0 <= k <= |rets| && Live()
        invariant results == old(results) + rets[..k] && numRequests == old(numRequests) - k
      {
        Cb(rets[k]);
        k := k + 1;
      }
    }
  }

  /** What the driver does with one submission: whether `bdrv_aio_writev`
      returns a request, and the results of requests that complete meanwhile. */
  datatype Submission = Submission(accepted: bool, early: seq<int>)

  /** Requests in flight after the first `n` submissions. */
  function InFlight(script: seq<Submission>, n: nat): (f: int)
    requires n <= |script|
  {
    if n == 0 then 0
    else InFlight(script, n - 1) + (if script[n - 1].accepted then 1 else 0) - |script[n - 1].early|
  }

  /** Nothing completes that was not submitted. */
  ghost predicate Plausible(script: seq<Submission>) {
    forall n: nat :: n <= |script| ==> InFlight(script, n) >= 0
  }

  /** The submissions made: up to the first that is refused. */
  function Made(script: seq<Submission>): (n: nat)
    ensures n <= |script|
  {
    if script == [] then 0 else if script[0].accepted then 1 + Made(script[1..]) else 1
  }

  /** Results seen up to and including submission `n`, the late failure too. */
  function Results(script: seq<Submission>, n: nat): (r: seq<int>)
    requires n <= |script|
  {
    if n == 0 then []
    else Results(script, n - 1) + script[n - 1].early + (if script[n - 1].accepted then [] else [-EIO])
  }

  /** The first `n` requests were accepted, and nothing failed meanwhile. */
  predicate AllWell(script: seq<Submission>, n: nat)
    requires n <= |script|
  {
    forall k :: 0 <= k < n ==> script[k].accepted && NoneNegative(script[k].early)
  }

  lemma BothNone(a: seq<int>, b: seq<int>)
    ensures NoneNegative(a + b) <==> NoneNegative(a) && NoneNegative(b)
  {
    if NoneNegative(a + b) {
      forall i | 0 <= i < |a| ensures a[i] >= 0 { assert (a + b)[i] >= 0; }
      forall i | 0 <= i < |b| ensures b[i] >= 0 { assert (a + b)[|a| + i] >= 0; }
    }
  }

  lemma {:induction false} ResultsWell(script: seq<Submission>, n: nat)
    requires n <= |script|
    ensures NoneNegative(Results(script, n)) <==> AllWell(script, n)
  {
    if n > 0 {
      var x := script[n - 1];
      var late := if x.accepted then [] else [-EIO];
      ResultsWell(script, n - 1);
      assert NoneNegative(late) <==> x.accepted by { if !x.accepted { assert late[0] < 0; } }
      hide NoneNegative;
      BothNone(Results(script, n - 1), x.early);
      BothNone(Results(script, n - 1) + x.early, late);
    }
  }

  lemma {:induction false} MadeIs(script: seq<Submission>, i: nat)
    requires i < |script| && (forall k :: 0 <= k < i ==> script[k].accepted)
    ensures !script[i].accepted ==> Made(script) == i + 1
    ensures script[i].accepted && i + 1 == |script| ==> Made(script) == |script|
  {
    if i > 0 { MadeIs(script[1..], i - 1); }
  }

  /** The submission loop of `bdrv_aio_multiwrite`, with one request counted for
      the dummy; `failed` when the first submission is refused. */
  method SubmitAll(m: MultiwriteCB, n: nat, script: seq<Submission>) returns (failed: bool, offered: nat)
    requires 0 < n <= |script| && Plausible(script) && m.Live() && m.numRequests == 1 && m.results == []
    modifies m
    ensures failed <==> !script[0].accepted
    ensures !failed ==>
              && offered == Made(script[..n]) && m.results == Results(script[..n], offered) + [0]
              && m.numRequests == InFlight(script[..n], offered)
              && if m.numRequests == 0 then m.Done() else m.Live()
  {
    ghost var made := script[..n];
    offered := 0;
    var stop := false;
    while offered < n && !stop
      invariant 0 <= offered <= n && m.Live() && InFlight(made, offered) >= 0
      invariant m.numRequests == 1 + InFlight(made, offered) && m.results == Results(made, offered)
      invariant forall k :: 0 <= k < offered && (!stop || k < offered - 1) ==> script[k].accepted
      invariant stop ==> offered > 1 && !script[offered - 1].accepted
      invariant offered > 0 ==> script[0].accepted
      invariant stop || offered == n ==> Made(made) == offered
    {
      PlausiblePrefix(script, n, offered + 1);
      assert made[offered] == script[offered] && InFlight(made, offered + 1) >= 0;
      m.numRequests := m.numRequests + 1;
      m.CompleteAll(script[offered].early);
      MadeIs(made, offered);
      if !script[offered].accepted {
        if offered == 0 { return true, 0; }
        m.Cb(-EIO);
        stop := true;
      }
      offered := offered + 1;
    }
    m.Cb(0);
    failed := false;
  }

  lemma {:induction false} PlausiblePrefix(script: seq<Submission>, n: nat, k: nat)
    requires Plausible(script) && k <= n <= |script|
    ensures InFlight(script[..n], k) == InFlight(script, k) >= 0
    ensures InFlight(script, k) <= k
  {
    if k > 0 { PlausiblePrefix(script, n, k - 1); }
  }

  /** `bdrv_aio_multiwrite`.  `script` is what the driver does with each request
      it is handed.  The requests are merged, and the merged ones are offered to
      the driver in order up to the first refusal; either the first is refused and
      no callback ever runs, or the callbacks run once everything counted has
      completed.  `s` is the order the sort produced. */
  method AioMultiwrite(inserted: bool, reqs: array<Req>, reqErrors: array<int>, script: seq<Submission>)
    returns (ret: int, mcb: MultiwriteCB?, offered: seq<Req>, ghost s: seq<Req>)
    requires reqs.Length == reqErrors.Length == |script| && Plausible(script)
    modifies reqs, reqErrors
    ensures !inserted ==>
              && ret == -1 && mcb == null && offered == [] && reqs[..] == old(reqs[..])
              && forall i :: 0 <= i < reqErrors.Length ==> reqErrors[i] == -ENOMEDIUM
    ensures inserted && reqs.Length == 0 ==> ret == 0 && mcb == null && offered == []
    ensures inserted && reqs.Length > 0 ==>
              && Sorted(s) && multiset(s) == multiset(old(reqs[..])) && |s| == reqs.Length
              && 0 < |Merged(s)| <= reqs.Length
              && offered == Merged(s)[..Made(script[..|Merged(s)|])]
    ensures inserted && reqs.Length > 0 && !script[0].accepted ==>
              ret == -1 && mcb == null && forall i :: 0 <= i < reqErrors.Length ==> reqErrors[i] == -EIO
    ensures inserted && reqs.Length > 0 && script[0].accepted ==>
              && ret == 0 && mcb != null && fresh(mcb) && reqErrors[..] == old(reqErrors[..])
              && mcb.numCallbacks == reqs.Length
              && mcb.numRequests == InFlight(script[..|Merged(s)|], |offered|)
              && mcb.results == Results(script[..|Merged(s)|], |offered|) + [0]
              && if mcb.numRequests == 0 then mcb.Done() else mcb.Live()
    ensures inserted && reqs.Length > 0 && AllConsistent(old(reqs[..])) && Lossless(s) && |offered| == |Merged(s)| ==>
              SameWrites(offered, s)
  {
    hide Merged, SameWrites, Lossless, Results, InFlight, FirstNegative;
    mcb, offered, s := null, [], [];
    if !inserted {
      SetErrors(reqErrors, -ENOMEDIUM);
      ret := -1;
      return;
    }
    ret := 0;
    if reqs.Length == 0 { return; }
    var m := new MultiwriteCB(reqs.Length);
    var n;
    n, s := MultiwriteMerge(reqs);
    SameCount(s, old(reqs[..]));
    m.numRequests := 1;
    var failed, k := SubmitAll(m, n, script);
    if failed {
      SetErrors(reqErrors, -EIO);
      FirstRefused(script[..n]);
      k, ret := 1, -1;
    } else {
      mcb := m;
    }
    offered := reqs[..n][..k];
    assert k == n ==> offered == reqs[..n];
  }

  lemma SameCount(s: seq<Req>, t: seq<Req>)
    requires multiset(s) == multiset(t)
    ensures |s| == |t|
  {
    assert |s| == |multiset(s)| && |t| == |multiset(t)|;
  }

  lemma FirstRefused(script: seq<Submission>)
    requires script != [] && !script[0].accepted
    ensures Made(script) == 1
  {
  }

  /** `reqs[i].error = e` for every request. */
  method SetErrors(reqErrors: array<int>, e: int)
    modifies reqErrors
    ensures forall i :: 0 <= i < reqErrors.Length ==> reqErrors[i] == e
  {
    var i := 0;
    while i < reqErrors.Length
      invariant 0 <= i <= reqErrors.Length && forall k :: 0 <= k < i ==> reqErrors[k] == e
    {
      reqErrors[i] := e;
      i := i + 1;
    }
  }

  /** A whole run: the call, then the event loop delivers the results still
      outstanding.  Each callback has run exactly once, with the first
      negative result of all. */
  method WholeRun(reqs: array<Req>, reqErrors: array<int>, script: seq<Submission>, later: seq<int>)
    returns (mcb: MultiwriteCB, ghost s: seq<Req>)
    requires 0 < reqs.Length == reqErrors.Length == |script| == |later| && Plausible(script) && script[0].accepted
    modifies reqs, reqErrors
    ensures Sorted(s) && multiset(s) == multiset(old(reqs[..])) && |Merged(s)| <= |script|
    ensures mcb.Done() && mcb.numCallbacks == reqs.Length
    ensures var made := script[..|Merged(s)|];
            && 0 <= InFlight(made, Made(made)) <= |later|
            && mcb.calls == AllCalled(reqs.Length, FirstNegative(Results(made, Made(made)) + [0]
                                                                + later[..InFlight(made, Made(made))]))
            && forall i :: 0 <= i < reqs.Length ==>
                 && mcb.calls[i].0 == i
                 && FirstError(Results(made, Made(made)) + [0] + later[..InFlight(made, Made(made))], mcb.calls[i].1)
                 && (mcb.calls[i].1 == 0 <==>
                       AllWell(made, Made(made)) && NoneNegative(later[..InFlight(made, Made(made))]))
  {
    hide Results, FirstNegative, InFlight, Made, AllCalled, Merged, SameWrites, Lossless;
    var ret, m, offered;
    ret, m, offered, s := AioMultiwrite(true, reqs, reqErrors, script);
    mcb := m;
    ghost var base, left := mcb.results, mcb.numRequests;
    PlausiblePrefix(script, |Merged(s)|, |offered|);
    var k := 0;
    while mcb.numRequests > 0
      invariant 0 <= k <= left && mcb.numRequests == left - k
      invariant mcb.results == base + later[..k] && mcb.numCallbacks == reqs.Length
      invariant if mcb.numRequests == 0 then mcb.Done() else mcb.Live()
      decreases mcb.numRequests
    {
      mcb.Cb(later[k]);
      k := k + 1;
    }
    hide FirstError, AllWell;
    FirstNegativeIs(mcb.results);
    assert NoneNegative([0]);
    hide NoneNegative;
    ResultsWell(script[..|Merged(s)|], |offered|);
    BothNone(Results(script[..|Merged(s)|], |offered|), [0]);
    BothNone(base, later[..k]);
  }
}
