/** The rate-limited output file of `buffered_file.c` on values: what one flush,
    put or tick does, which lengths and answers decide it, and when the stream
    stays in order. */
module BufferedSpec {
  import opened Wire

  const EAGAIN := 11
  const EINVAL := 22

  /** `script` are the results the backend's `put_buffer` will give; when it is
      used up the backend takes all it is offered. */
  datatype File = File(buffer: seq<byte>, accepted: seq<byte>, script: seq<int>, error: int,
                       frozen: bool, bytesXfer: nat, xferLimit: nat)

  /** What the backend answers to an offer of `n` bytes; never more than that. */
  function Answer(script: seq<int>, n: nat): (r: int)
    ensures r <= n
  {
    if script == [] then n else if script[0] > n then n else script[0]
  }

  function Used(script: seq<int>): (r: seq<int>) {
    if script == [] then [] else script[1..]
  }

  /** The loop of `buffered_flush`. */
  function FlushLoop(f: File): (g: File)
    decreases |f.script|, |f.buffer|
  {
    if f.buffer == [] then f
    else
      var r := Answer(f.script, |f.buffer|);
      var g := f.(script := Used(f.script));
      if r == -EAGAIN then g.(frozen := true)
      else if r <= 0 then g.(error := r)
      else FlushLoop(g.(buffer := f.buffer[r..], accepted := f.accepted + f.buffer[..r]))
  }

  /** `buffered_flush`. */
  function Flush(f: File): (g: File) {
    if f.error != 0 then f else FlushLoop(f)
  }

  /** The loop of `buffered_put_buffer` on the bytes not yet put; `dropped` when
      it ends with `offset = -EINVAL`. */
  function PutLoop(f: File, rest: seq<byte>): (r: (File, seq<byte>, bool))
    decreases |f.script|, |rest|
  {
    if f.frozen || rest == [] || f.bytesXfer > f.xferLimit then (f, rest, false)
    else
      var n := Answer(f.script, |rest|);
      var g := f.(script := Used(f.script));
      if n == -EAGAIN then (g.(frozen := true), rest, false)
      else if n <= 0 then (g.(error := n), rest, true)
      else PutLoop(g.(accepted := f.accepted + rest[..n], bytesXfer := f.bytesXfer + n), rest[n..])
  }

  /** `buffered_put_buffer`. */
  function Put(f: File, data: seq<byte>): (g: File) {
    if f.error != 0 then f
    else
      var (g, rest, dropped) := PutLoop(Flush(f.(frozen := false)), data);
      if dropped then g else g.(buffer := g.buffer + rest)
  }

  /** `buffered_rate_tick` while the file is good. */
  function Tick(f: File): (g: File) {
    if f.frozen then f else Flush(f.(bytesXfer := 0))
  }

  /** The bytes already through, then those that wait. */
  function Stream(f: File): (s: seq<byte>) {
    f.accepted + f.buffer
  }

  datatype Op = PutOp(data: seq<byte>) | TickOp | LimitOp(rate: nat)

  /** One operation of the owner; nothing but a close happens after an error. */
  function Do(f: File, op: Op): (g: File) {
    match op
    case PutOp(data) => Put(f, data)
    case TickOp => if f.error != 0 then f else Tick(f)
    case LimitOp(rate) => if f.error != 0 then f else f.(xferLimit := rate / 10)
  }

  function DoAll(f: File, ops: seq<Op>): (g: File) {
    if ops == [] then f else Do(DoAll(f, ops[..|ops| - 1]), ops[|ops| - 1])
  }

  function PutBytes(ops: seq<Op>): (s: seq<byte>) {
    if ops == [] then []
    else PutBytes(ops[..|ops| - 1]) + if ops[|ops| - 1].PutOp? then ops[|ops| - 1].data else []
  }

  // ------------------------------------------------------ lengths and answers

  /** How a loop over the backend ended: it was through (or cut off by the rate
      limit), it was told to try again, or it was refused. */
  datatype End = Through | Blocked | Refused(answer: int)

  /** A flush of `n` bytes: how many are left, and the answers not yet given. */
  datatype FlushOut = FlushOut(left: nat, script: seq<int>, end: End)

  function FlushMeets(script: seq<int>, n: nat): (o: FlushOut)
    ensures o.left <= n
    ensures o.end.Through? <==> o.left == 0
    ensures o.end.Refused? ==> o.end.answer <= 0
    decreases |script|, n
  {
    if n == 0 then FlushOut(0, script, Through)
    else
      var r := Answer(script, n);
      if r == -EAGAIN then FlushOut(n, Used(script), Blocked)
      else if r <= 0 then FlushOut(n, Used(script), Refused(r))
      else FlushMeets(Used(script), n - r)
  }

  /** A put loop over `n` bytes. */
  datatype PutOut = PutOut(left: nat, script: seq<int>, xfer: nat, end: End)

  function PutMeets(script: seq<int>, n: nat, xfer: nat, limit: nat): (o: PutOut)
    ensures o.left <= n
    ensures o.end.Refused? ==> o.end.answer <= 0 && o.left > 0
    decreases |script|, n
  {
    if n == 0 || xfer > limit then PutOut(n, script, xfer, Through)
    else
      var r := Answer(script, n);
      if r == -EAGAIN then PutOut(n, Used(script), xfer, Blocked)
      else if r <= 0 then PutOut(n, Used(script), xfer, Refused(r))
      else PutMeets(Used(script), n - r, xfer + r, limit)
  }

  /** A file without its bytes: all that decides what an operation does. */
  datatype Shape = Shape(pending: nat, script: seq<int>, error: int, frozen: bool, bytesXfer: nat, xferLimit: nat)

  function ShapeOf(f: File): (s: Shape) {
    Shape(|f.buffer|, f.script, f.error, f.frozen, f.bytesXfer, f.xferLimit)
  }

  function AfterFlush(s: Shape): (t: Shape) {
    var o := FlushMeets(s.script, s.pending);
    s.(pending := o.left, script := o.script, frozen := s.frozen || o.end.Blocked?,
       error := if o.end.Refused? then o.end.answer else s.error)
  }

  /** What the put loop meets once the flush is over. */
  function PutMeetsAt(s: Shape, n: nat): (o: PutOut)
    ensures o.left <= n && (o.end.Refused? ==> o.left > 0)
  {
    if s.frozen then PutOut(n, s.script, s.bytesXfer, Blocked)
    else PutMeets(s.script, n, s.bytesXfer, s.xferLimit)
  }

  function AfterPut(s: Shape, n: nat): (t: Shape) {
    if s.error != 0 then s
    else
      var g := AfterFlush(s.(frozen := false));
      var o := PutMeetsAt(g, n);
      var h := g.(script := o.script, bytesXfer := o.xfer, frozen := o.end.Blocked?);
      if o.end.Refused? then h.(error := o.end.answer) else h.(pending := g.pending + o.left)
  }

  function AfterTick(s: Shape): (t: Shape) {
    if s.frozen then s else if s.error != 0 then s.(bytesXfer := 0) else AfterFlush(s.(bytesXfer := 0))
  }

  /** The put loop is not refused, and it passes no byte on while the flush has
      left some behind. */
  predicate InOrder(s: Shape, n: nat) {
    var g := AfterFlush(s.(frozen := false));
    var o := PutMeetsAt(g, n);
    !o.end.Refused? && (o.left == n || g.pending == 0)
  }

  datatype Call = PutCall(size: nat) | TickCall | LimitCall(rate: nat)

  function CallOf(op: Op): (c: Call) {
    match op
    case PutOp(data) => PutCall(|data|)
    case TickOp => TickCall
    case LimitOp(rate) => LimitCall(rate)
  }

  function CallsOf(ops: seq<Op>): (cs: seq<Call>)
    ensures |cs| == |ops| && forall i :: 0 <= i < |ops| ==> cs[i] == CallOf(ops[i])
  {
    seq(|ops|, i requires 0 <= i < |ops| => CallOf(ops[i]))
  }

  function After(s: Shape, c: Call): (t: Shape) {
    match c
    case PutCall(n) => AfterPut(s, n)
    case TickCall => if s.error != 0 then s else AfterTick(s)
    case LimitCall(rate) => if s.error != 0 then s else s.(xferLimit := rate / 10)
  }

  function AfterAll(s: Shape, cs: seq<Call>): (t: Shape) {
    if cs == [] then s else After(AfterAll(s, cs[..|cs| - 1]), cs[|cs| - 1])
  }

  /** Every put of the run is in order. */
  predicate RunInOrder(s: Shape, cs: seq<Call>) {
    cs == [] ||
    var front, c := cs[..|cs| - 1], cs[|cs| - 1];
    RunInOrder(s, front) && (c.PutCall? ==> InOrder(AfterAll(s, front), c.size))
  }

  // ------------------------------------------- the bytes do not decide anything

  /** A flush never changes the stream and leaves what the answers say. */
  lemma {:induction false} FlushKeeps(f: File)
    ensures Stream(FlushLoop(f)) == Stream(f) && f.accepted <= FlushLoop(f).accepted
    ensures ShapeOf(FlushLoop(f)) == AfterFlush(ShapeOf(f))
    decreases |f.script|, |f.buffer|
  {
    if f.buffer != [] {
      var r := Answer(f.script, |f.buffer|);
      if r > 0 {
        var g := f.(script := Used(f.script), buffer := f.buffer[r..], accepted := f.accepted + f.buffer[..r]);
        assert Stream(g) == Stream(f);
        FlushKeeps(g);
      }
    }
  }

  /** The put loop passes on a prefix of its bytes, as long as the answers
      say, and leaves what waits alone. */
  lemma {:induction false} PutLoopKeeps(f: File, rest: seq<byte>)
    ensures var (g, left, dropped) := PutLoop(f, rest);
            var o := PutMeetsAt(ShapeOf(f), |rest|);
            && left == rest[|rest| - o.left..] && g.accepted == f.accepted + rest[..|rest| - o.left]
            && dropped == o.end.Refused?
            && g == f.(accepted := g.accepted, script := o.script, bytesXfer := o.xfer, frozen := o.end.Blocked?,
                       error := if dropped then o.end.answer else f.error)
    decreases |f.script|, |rest|
  {
    if !(f.frozen || rest == [] || f.bytesXfer > f.xferLimit) {
      var n := Answer(f.script, |rest|);
      if n > 0 {
        var g := f.(script := Used(f.script), accepted := f.accepted + rest[..n], bytesXfer := f.bytesXfer + n);
        var o := PutMeetsAt(ShapeOf(g), |rest[n..]|);
        PutLoopKeeps(g, rest[n..]);
        PassedOn(f.accepted, rest, n, |rest[n..]| - o.left);
      }
    }
  }

  lemma PassedOn(a: seq<byte>, rest: seq<byte>, n: nat, p: nat)
    requires n + p <= |rest|
    ensures (a + rest[..n]) + rest[n..][..p] == a + rest[..n + p] && rest[n..][p..] == rest[n + p..]
  {
    assert rest[..n] + rest[n..][..p] == rest[..n + p];
  }

  /** A put in full: `p` of its bytes go to the backend, past whatever the flush
      has left, and the rest waits behind that unless it is dropped. */
  lemma PutIs(f: File, data: seq<byte>)
    requires f.error == 0
    ensures ShapeOf(Put(f, data)) == AfterPut(ShapeOf(f), |data|)
    ensures var g := FlushLoop(f.(frozen := false));
            var o := PutMeetsAt(ShapeOf(g), |data|);
            var p := |data| - o.left;
            && Stream(g) == Stream(f) && f.accepted <= g.accepted
            && ShapeOf(g) == AfterFlush(ShapeOf(f).(frozen := false))
            && Put(f, data).accepted == g.accepted + data[..p]
            && Put(f, data).buffer == if o.end.Refused? then g.buffer else g.buffer + data[p..]
  {
    hide FlushLoop, PutLoop, FlushMeets, PutMeets;
    FlushKeeps(f.(frozen := false));
    PutLoopKeeps(FlushLoop(f.(frozen := false)), data);
  }

  lemma DoShape(f: File, op: Op)
    ensures ShapeOf(Do(f, op)) == After(ShapeOf(f), CallOf(op))
    ensures f.accepted <= Do(f, op).accepted
    ensures |Stream(Do(f, op))| <= |Stream(f)| + |PutBytes([op])|
  {
    hide FlushLoop, PutLoop, FlushMeets, PutMeets, AfterPut, Put;
    assert [op][..0] == [];
    match op
    case PutOp(data) =>
      if f.error == 0 { PutIs(f, data); } else { PutAfterError(f, data); }
    case TickOp => FlushKeeps(f.(bytesXfer := 0));
    case LimitOp(_) =>
  }

  lemma PutAfterError(f: File, data: seq<byte>)
    requires f.error != 0
    ensures Put(f, data) == f && AfterPut(ShapeOf(f), |data|) == ShapeOf(f)
  {
  }

  lemma {:induction false} DoAllShape(f: File, ops: seq<Op>)
    ensures ShapeOf(DoAll(f, ops)) == AfterAll(ShapeOf(f), CallsOf(ops))
  {
    hide Do, After;
    if ops != [] {
      var n := |ops| - 1;
      DoAllShape(f, ops[..n]);
      assert CallsOf(ops)[..n] == CallsOf(ops[..n]);
      DoShape(DoAll(f, ops[..n]), ops[n]);
    }
  }

  // ---------------------------------------------------------------- progress

  /** The backend takes something of whatever it is offered. */
  predicate Willing(script: seq<int>) {
    forall i :: 0 <= i < |script| ==> script[i] > 0
  }

  lemma {:induction false} WillingFlush(f: File)
    requires Willing(f.script)
    ensures FlushLoop(f) == f.(buffer := [], accepted := Stream(f), script := FlushLoop(f).script)
    ensures Willing(FlushLoop(f).script)
    decreases |f.script|, |f.buffer|
  {
    if f.buffer == [] {
      assert Stream(f) == f.accepted;
    } else {
      var r := Answer(f.script, |f.buffer|);
      var g := f.(script := Used(f.script), buffer := f.buffer[r..], accepted := f.accepted + f.buffer[..r]);
      assert Stream(g) == Stream(f);
      WillingFlush(g);
    }
  }

  /** With a willing backend a tick renews the allowance and sends all that waits. */
  lemma WillingTick(f: File)
    requires Willing(f.script) && f.error == 0 && !f.frozen
    ensures Tick(f).buffer == [] && Tick(f).accepted == Stream(f) && Tick(f).bytesXfer == 0
    ensures Tick(f).error == 0 && !Tick(f).frozen
  {
    hide FlushLoop;
    WillingFlush(f.(bytesXfer := 0));
  }

  lemma {:induction false} WillingPutLoop(f: File, rest: seq<byte>)
    requires Willing(f.script) && !f.frozen
    ensures var (g, left, dropped) := PutLoop(f, rest);
            && !dropped && !g.frozen && g.error == f.error && g.buffer == f.buffer && g.xferLimit == f.xferLimit
            && |left| <= |rest| && g.bytesXfer == f.bytesXfer + |rest| - |left|
            && g.accepted + left == f.accepted + rest
            && (left == [] || g.bytesXfer > g.xferLimit)
            && (f.bytesXfer > f.xferLimit ==> left == rest)
    decreases |f.script|, |rest|
  {
    if rest != [] && f.bytesXfer <= f.xferLimit {
      var n := Answer(f.script, |rest|);
      var g := f.(script := Used(f.script), accepted := f.accepted + rest[..n], bytesXfer := f.bytesXfer + n);
      WillingPutLoop(g, rest[n..]);
      var left := PutLoop(f, rest).1;
      assert f.accepted + rest == (f.accepted + rest[..n]) + rest[n..];
    }
  }

  /** And a put sends what waited and then its own bytes until the rate limit is
      passed; past the limit it sends none of them. */
  lemma WillingPut(f: File, data: seq<byte>)
    requires Willing(f.script) && f.error == 0
    ensures var g := Put(f, data);
            && g.error == 0 && !g.frozen && Stream(g) == Stream(f) + data
            && Stream(f) <= g.accepted && g.bytesXfer == f.bytesXfer + |g.accepted| - |Stream(f)|
            && (g.buffer == [] || g.bytesXfer > g.xferLimit)
            && (f.bytesXfer > f.xferLimit ==> g.accepted == Stream(f))
  {
    hide FlushLoop, PutLoop;
    var h := f.(frozen := false);
    WillingFlush(h);
    WillingPutLoop(FlushLoop(h), data);
    var (g, left, dropped) := PutLoop(FlushLoop(h), data);
    assert [] + left == left;
    assert Stream(f) + data == g.accepted + left;
    assert g.accepted == (Stream(f) + data)[..|g.accepted|];
  }

  // ------------------------------------------------------------------- order

  /** A put appends its bytes to the stream exactly when it drops none and what
      it passes on commutes with what it passes by. */
  lemma PutExactly(f: File, data: seq<byte>)
    requires f.error == 0
    ensures var g := AfterFlush(ShapeOf(f).(frozen := false));
            var o := PutMeetsAt(g, |data|);
            var p, waits := |data| - o.left, f.buffer[|f.buffer| - g.pending..];
            Stream(Put(f, data)) == Stream(f) + data
            <==> !o.end.Refused? && data[..p] + waits == waits + data[..p]
  {
    hide FlushLoop, PutLoop, FlushMeets, PutMeets, Put;
    PutIs(f, data);
    var g := FlushLoop(f.(frozen := false));
    var o := PutMeetsAt(ShapeOf(g), |data|);
    var p, waits := |data| - o.left, f.buffer[|f.buffer| - |g.buffer|..];
    WaitsIs(f, g);
    if o.end.Refused? {
      assert |Stream(Put(f, data))| < |Stream(f) + data|;
    } else {
      assert data == data[..p] + data[p..];
      Commutes(g.accepted, g.buffer, data[..p], data[p..]);
    }
  }

  lemma WaitsIs(f: File, g: File)
    requires Stream(g) == Stream(f) && |g.buffer| <= |f.buffer|
    ensures f.buffer[|f.buffer| - |g.buffer|..] == g.buffer
  {
    var n := |f.buffer| - |g.buffer|;
    assert Stream(f)[|f.accepted| + n..] == f.buffer[n..];
    assert Stream(g)[|g.accepted|..] == g.buffer;
  }

  lemma Commutes(a: seq<byte>, w: seq<byte>, p: seq<byte>, r: seq<byte>)
    ensures (a + p) + (w + r) == (a + w) + (p + r) <==> p + w == w + p
  {
    var l, m := (a + p) + (w + r), (a + w) + (p + r);
    var n := |p| + |w|;
    assert l[|a|..|a| + n] == p + w && m[|a|..|a| + n] == w + p;
    assert l == a + (p + w) + r && m == a + (w + p) + r;
  }

  /** A put that is in order appends its bytes, whatever they are. */
  lemma PutInOrder(f: File, data: seq<byte>)
    requires f.error == 0 && InOrder(ShapeOf(f), |data|)
    ensures Stream(Put(f, data)) == Stream(f) + data
  {
    hide Put, FlushMeets, PutMeets;
    PutExactly(f, data);
    var g := AfterFlush(ShapeOf(f).(frozen := false));
    var p, waits := |data| - PutMeetsAt(g, |data|).left, f.buffer[|f.buffer| - g.pending..];
    assert p == 0 || waits == [];
    assert data[..p] + waits == waits + data[..p];
  }

  /** A tick never changes the stream, whatever the backend answers. */
  lemma TickInOrder(f: File)
    ensures Stream(Tick(f)) == Stream(f) && f.accepted <= Tick(f).accepted
  {
    hide FlushLoop;
    FlushKeeps(f.(bytesXfer := 0));
  }

  lemma DoKeepsError(f: File, op: Op)
    requires f.error != 0
    ensures Do(f, op) == f
  {
  }

  /** While no error is recorded and every put is in order, accepted bytes
      followed by the buffer are all the puts, for every pattern of short writes,
      freezes, ticks, refusals and rate limits. */
  lemma {:induction false} LosslessFifo(f: File, ops: seq<Op>)
    requires RunInOrder(ShapeOf(f), CallsOf(ops))
    ensures DoAll(f, ops).error == 0 ==> Stream(DoAll(f, ops)) == Stream(f) + PutBytes(ops)
  {
    hide Put, Tick, InOrder, After;
    if ops != [] {
      var n := |ops| - 1;
      assert CallsOf(ops)[..n] == CallsOf(ops[..n]);
      LosslessFifo(f, ops[..n]);
      DoAllShape(f, ops[..n]);
      var g := DoAll(f, ops[..n]);
      if g.error != 0 {
        DoKeepsError(g, ops[n]);
      } else {
        match ops[n]
        case PutOp(data) => PutInOrder(g, data);
        case TickOp => TickInOrder(g);
        case LimitOp(_) =>
      }
    }
  }
}
