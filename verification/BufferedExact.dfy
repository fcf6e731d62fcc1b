/** Exactly when the buffered file is a lossless queue.  The code takes an
    answer of 0 for an error but records 0, which is no error: it goes on, and
    what it then does depends only on the lengths and the answers met. */
module BufferedExact {
  import opened Wire
  import opened BufferedSpec

  // ------------------------------------------------------- whole runs, exactly

  /** Whatever bytes are put, the stream is all of them in order. */
  ghost predicate AlwaysLossless(s: Shape, cs: seq<Call>) {
    forall f, ops :: ShapeOf(f) == s && CallsOf(ops) == cs ==> Stream(DoAll(f, ops)) == Stream(f) + PutBytes(ops)
  }

  /** A run that records no error is lossless for all bytes if and only if each
      of its puts is in order. */
  lemma LosslessExact(s: Shape, cs: seq<Call>)
    requires AfterAll(s, cs).error == 0
    ensures AlwaysLossless(s, cs) <==> RunInOrder(s, cs)
  {
    hide DoAll, PutBytes, AfterAll;
    if RunInOrder(s, cs) {
      forall f, ops | ShapeOf(f) == s && CallsOf(ops) == cs
        ensures Stream(DoAll(f, ops)) == Stream(f) + PutBytes(ops)
      {
        DoAllShape(f, ops);
        LosslessFifo(f, ops);
      }
    } else {
      var i := OutOfOrder(s, cs);
      var f, ops := ZeroFile(s), Marked(cs, i);
      assert CallsOf(ops) == cs;
      Shows(s, cs, i);
      assert ShapeOf(f) == s;
    }
  }

  lemma {:induction false} OutOfOrder(s: Shape, cs: seq<Call>) returns (i: nat)
    requires !RunInOrder(s, cs)
    ensures i < |cs| && cs[i].PutCall? && !InOrder(AfterAll(s, cs[..i]), cs[i].size)
  {
    hide AfterAll, InOrder;
    var n := |cs| - 1;
    if RunInOrder(s, cs[..n]) {
      i := n;
    } else {
      i := OutOfOrder(s, cs[..n]);
      assert cs[..n][..i] == cs[..i];
    }
  }

  function Fill(n: nat, v: byte): (b: seq<byte>)
    ensures |b| == n && forall k :: 0 <= k < n ==> b[k] == v
  {
    seq(n, _ => v)
  }

  function ZeroFile(s: Shape): (f: File)
    ensures ShapeOf(f) == s && f.accepted == [] && forall k :: 0 <= k < |f.buffer| ==> f.buffer[k] == 0
  {
    File(Fill(s.pending, 0), [], s.script, s.error, s.frozen, s.bytesXfer, s.xferLimit)
  }

  function Filled(c: Call, v: byte): (op: Op)
    ensures CallOf(op) == c && (op.PutOp? ==> op.data == Fill(|op.data|, v))
  {
    match c
    case PutCall(n) => PutOp(Fill(n, v))
    case TickCall => TickOp
    case LimitCall(rate) => LimitOp(rate)
  }

  /** Calls filled with zeros, but put `i` with ones. */
  function Marked(cs: seq<Call>, i: nat): (ops: seq<Op>)
    ensures |ops| == |cs| && forall k :: 0 <= k < |cs| ==> ops[k] == Filled(cs[k], if k == i then 1 else 0)
  {
    seq(|cs|, k requires 0 <= k < |cs| => Filled(cs[k], if k == i then 1 else 0))
  }

  lemma {:induction false} ErrorStays(s: Shape, cs: seq<Call>, i: nat)
    requires i <= |cs| && AfterAll(s, cs).error == 0
    ensures AfterAll(s, cs[..i]).error == 0
    decreases |cs|
  {
    hide AfterFlush, PutMeetsAt, AfterTick;
    if i < |cs| {
      var n := |cs| - 1;
      ErrorStays(s, cs[..n], i);
      assert cs[..n][..i] == cs[..i];
    } else {
      assert cs[..i] == cs;
    }
  }

  /** What the backend has taken stays taken, and no operation adds more to the
      stream than it puts. */
  lemma {:induction false} Onwards(f: File, ops: seq<Op>, j: nat)
    requires j <= |ops|
    ensures DoAll(f, ops[..j]).accepted <= DoAll(f, ops).accepted
    ensures PutBytes(ops[..j]) <= PutBytes(ops)
    ensures |Stream(DoAll(f, ops))| - |Stream(DoAll(f, ops[..j]))| <= |PutBytes(ops)| - |PutBytes(ops[..j])|
    decreases |ops|
  {
    hide Do;
    if j < |ops| {
      var n := |ops| - 1;
      Onwards(f, ops[..n], j);
      assert ops[..n][..j] == ops[..j];
      DoShape(DoAll(f, ops[..n]), ops[n]);
      assert [ops[n]][..0] == [];
    } else {
      assert ops[..j] == ops;
    }
  }

  lemma {:induction false} ZerosPut(ops: seq<Op>)
    requires forall k :: 0 <= k < |ops| && ops[k].PutOp? ==> ops[k].data == Fill(|ops[k].data|, 0)
    ensures forall k :: 0 <= k < |PutBytes(ops)| ==> PutBytes(ops)[k] == 0
  {
    if ops != [] { ZerosPut(ops[..|ops| - 1]); }
  }

  /** A put that drops or overtakes shows in the stream for the marked bytes. */
  lemma Shows(s: Shape, cs: seq<Call>, i: nat)
    requires AfterAll(s, cs).error == 0 && i < |cs| && cs[i].PutCall?
    requires !InOrder(AfterAll(s, cs[..i]), cs[i].size)
    ensures Stream(DoAll(ZeroFile(s), Marked(cs, i))) != Stream(ZeroFile(s)) + PutBytes(Marked(cs, i))
  {
    hide DoAll, PutBytes, AfterAll, InOrder, Put;
    var f, ops := ZeroFile(s), Marked(cs, i);
    assert CallsOf(ops[..i]) == cs[..i];
    DoAllShape(f, ops[..i]);
    ErrorStays(s, cs, i);
    NextPut(f, ops, i);
    Onwards(f, ops[..i], 0);
    Start(f, ops[..i]);
    Onwards(f, ops, i + 1);
    ZerosPut(ops[..i]);
    ShowsAt(f, DoAll(f, ops[..i]), DoAll(f, ops), PutBytes(ops[..i]), ops[i].data, PutBytes(ops));
  }

  /** `h` before and `e` some time after a put of ones that is out of order. */
  lemma ShowsAt(f: File, h: File, e: File, before: seq<byte>, data: seq<byte>, all: seq<byte>)
    requires h.error == 0 && !InOrder(ShapeOf(h), |data|) && data == Fill(|data|, 1)
    requires forall k :: 0 <= k < |Stream(f) + before| ==> (Stream(f) + before)[k] == 0
    requires |Stream(h)| <= |Stream(f) + before| && before + data <= all
    requires Put(h, data).accepted <= e.accepted
    requires |Stream(e)| - |Stream(Put(h, data))| <= |all| - |before + data|
    ensures Stream(e) != Stream(f) + all
  {
    hide FlushLoop, Put, AfterFlush, PutMeetsAt, Fill;
    PutIs(h, data);
    var g := FlushLoop(h.(frozen := false));
    var o := PutMeetsAt(ShapeOf(g), |data|);
    if !o.end.Refused? {
      var q := |g.accepted|;
      assert Put(h, data).accepted[q] == data[0] == 1;
      assert Stream(e)[q] == e.accepted[q] == 1;
      assert (Stream(f) + all)[q] == (Stream(f) + before)[q];
    }
  }

  lemma Start(f: File, ops: seq<Op>)
    ensures DoAll(f, ops[..0]) == f && PutBytes(ops[..0]) == []
  {
  }

  lemma NextPut(f: File, ops: seq<Op>, i: nat)
    requires i < |ops| && ops[i].PutOp?
    ensures DoAll(f, ops[..i + 1]) == Put(DoAll(f, ops[..i]), ops[i].data)
    ensures PutBytes(ops[..i + 1]) == PutBytes(ops[..i]) + ops[i].data
  {
    hide Put;
    assert ops[..i + 1][..i] == ops[..i];
  }

  /** One put, whether or not it records an error: its bytes join the stream
      whatever they are if and only if it is in order. */
  lemma PutExact(s: Shape, n: nat)
    requires s.error == 0
    ensures (forall f, data :: ShapeOf(f) == s && |data| == n ==> Stream(Put(f, data)) == Stream(f) + data)
            <==> InOrder(s, n)
  {
    hide Put, InOrder;
    if InOrder(s, n) {
      forall f, data | ShapeOf(f) == s && |data| == n ensures Stream(Put(f, data)) == Stream(f) + data {
        PutInOrder(f, data);
      }
    } else {
      var f, data := ZeroFile(s), Fill(n, 1);
      ShowsAt(f, f, Put(f, data), [], data, data);
    }
  }

  // --------------------------------------------------- which answers are to blame

  /** A put goes wrong unnoticed exactly when its loop is answered 0, even right
      after the flush had recorded an error, or when the flush is answered 0 with
      bytes left and the loop then passes some on. */
  lemma WrongUnnoticed(s: Shape, n: nat)
    requires s.error == 0
    ensures var o := FlushMeets(s.script, s.pending);
            var l := PutMeets(o.script, n, s.bytesXfer, s.xferLimit);
            AfterPut(s, n).error == 0 && !InOrder(s, n)
            <==> !o.end.Blocked?
                 && (l.end == Refused(0) || (o.end == Refused(0) && !l.end.Refused? && l.left < n))
  {
    hide FlushMeets, PutMeets;
  }

  /** The answers met are a prefix of those to come; a refusal is the last. */
  lemma {:induction false} FlushUses(script: seq<int>, n: nat)
    ensures var o := FlushMeets(script, n);
            var k := |script| - |o.script|;
            k >= 0 && o.script == script[k..] && (o.end == Refused(0) ==> k > 0 && script[k - 1] == 0)
    decreases |script|, n
  {
    if n > 0 {
      var r := Answer(script, n);
      if r > 0 { FlushUses(Used(script), n - r); }
    }
  }

  lemma {:induction false} PutUses(script: seq<int>, n: nat, xfer: nat, limit: nat)
    ensures var o := PutMeets(script, n, xfer, limit);
            var k := |script| - |o.script|;
            k >= 0 && o.script == script[k..] && (o.end == Refused(0) ==> k > 0 && script[k - 1] == 0)
    decreases |script|, n
  {
    if n > 0 && xfer <= limit {
      var r := Answer(script, n);
      if r > 0 { PutUses(Used(script), n - r, xfer + r, limit); }
    }
  }

  /** No 0 among the answers used between `from` and `to`. */
  predicate NoZeroMet(from: seq<int>, to: seq<int>) {
    Suffix(from, to) && forall i :: 0 <= i < |from| - |to| ==> from[i] != 0
  }

  predicate Suffix(from: seq<int>, to: seq<int>) {
    |to| <= |from| && to == from[|from| - |to|..]
  }

  lemma CallUses(s: Shape, c: Call)
    ensures Suffix(s.script, After(s, c).script)
    ensures s.error == 0 && c.PutCall? && NoZeroMet(s.script, After(s, c).script) && After(s, c).error == 0
            ==> InOrder(s, c.size)
  {
    hide FlushMeets, PutMeets;
    FlushUses(s.script, s.pending);
    if c.PutCall? {
      var o := FlushMeets(s.script, s.pending);
      PutUses(o.script, c.size, s.bytesXfer, s.xferLimit);
      if s.error == 0 { WrongUnnoticed(s, c.size); }
    }
  }

  lemma {:induction false} RunUses(s: Shape, cs: seq<Call>)
    requires s.error == 0
    ensures Suffix(s.script, AfterAll(s, cs).script)
    ensures NoZeroMet(s.script, AfterAll(s, cs).script) && AfterAll(s, cs).error == 0 ==> RunInOrder(s, cs)
  {
    hide After, InOrder;
    if cs != [] {
      var n := |cs| - 1;
      var t := AfterAll(s, cs[..n]);
      RunUses(s, cs[..n]);
      CallUses(t, cs[n]);
      var u := AfterAll(s, cs);
      if NoZeroMet(s.script, u.script) && u.error == 0 {
        ErrorStays(s, cs, n);
        var k := |s.script| - |t.script|;
        assert forall i :: 0 <= i < |t.script| - |u.script| ==> t.script[i] == s.script[k + i];
      }
    }
  }

  /** Until the first error the buffered file is a lossless queue, if no answer
      it has met was 0. */
  lemma LosslessUnlessZero(f: File, ops: seq<Op>)
    requires f.error == 0 && NoZeroMet(f.script, DoAll(f, ops).script)
    ensures DoAll(f, ops).error == 0 ==> Stream(DoAll(f, ops)) == Stream(f) + PutBytes(ops)
  {
    hide DoAll, PutBytes, AfterAll, RunInOrder;
    DoAllShape(f, ops);
    RunUses(ShapeOf(f), CallsOf(ops));
    if DoAll(f, ops).error == 0 { LosslessFifo(f, ops); }
  }

  // ------------------------------------------------ a backend that returns 0

  /** A flush that gets 0 stops with the buffer full and no error recorded, and
      the bytes of the put overtake it. */
  lemma ZeroReorders()
    ensures var f := File([1], [], [0], 0, false, 0, 10);
            Put(f, [2]).error == 0 && Stream(Put(f, [2])) == [2, 1] && Stream(f) + [2] == [1, 2]
  {
    var f := File([1], [], [0], 0, false, 0, 10);
    assert FlushLoop(f) == f.(script := []);
    var g := f.(script := []);
    assert PutLoop(g, [2]) == PutLoop(g.(accepted := [] + [2][..1], bytesXfer := 1), [2][1..]);
    assert [2][..1] == [2];
  }

  /** A put that gets 0 drops its bytes without recording an error. */
  lemma ZeroDrops()
    ensures var f := File([], [], [0], 0, false, 0, 10);
            Put(f, [7]).error == 0 && Stream(Put(f, [7])) == []
  {
  }

  /** The error of a failed flush is wiped out by a 0 for the put that follows. */
  lemma ZeroHidesError()
    ensures var f := File([1], [], [-EINVAL, 0], 0, false, 0, 10);
            && Flush(f).error == -EINVAL
            && Put(f, [2]).error == 0 && Stream(Put(f, [2])) == [1]
  {
    var f := File([1], [], [-EINVAL, 0], 0, false, 0, 10);
    assert FlushLoop(f) == f.(script := [0], error := -EINVAL);
  }

  /** A 0 does no harm to a tick, nor to a put that the rate limit holds back. */
  lemma ZeroMayBeHarmless(s: Shape, n: nat)
    requires s.error == 0 && s.pending > 0 && Answer(s.script, s.pending) == 0 && s.bytesXfer > s.xferLimit
    ensures InOrder(s, n) && AfterPut(s, n).error == 0
  {
  }
}
