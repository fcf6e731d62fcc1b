/** `buffered_file.c`: the object whose fields the flush and put loops update,
    each proved to do what its function says. */
module BufferedFile {
  import opened Wire
  import opened BufferedSpec

  class QEMUFileBuffered {
    var buffer: seq<byte>          // buffer_size is its length
    var capacity: nat              // buffer_capacity
    var fileError: int             // last_error of the QEMUFile above
    var freezeOutput: bool
    var bytesXfer: nat
    var xferLimit: nat
    var script: seq<int>           // what the backend will answer
    var accepted: seq<byte>        // what it has taken

    ghost predicate Valid()
      reads this
    {
      |buffer| <= capacity
    }

    ghost function State(): (f: File)
      reads this
    {
      File(buffer, accepted, script, fileError, freezeOutput, bytesXfer, xferLimit)
    }

    /** `qemu_fopen_ops_buffered`. */
    constructor (bytesPerSec: nat, answers: seq<int>)
      ensures Valid() && State() == File([], [], answers, 0, false, 0, bytesPerSec / 10)
    {
      buffer, capacity, fileError, freezeOutput := [], 0, 0, false;
      bytesXfer, xferLimit, script, accepted := 0, bytesPerSec / 10, answers, [];
    }

    /** `s->put_buffer`: the backend takes a prefix, or answers with an error. */
    method BackendPut(data: seq<byte>) returns (ret: int)
      requires data != []
      modifies this`script, this`accepted
      ensures ret == Answer(old(script), |data|) && script == Used(old(script))
      ensures accepted == old(accepted) + data[..if ret > 0 then ret else 0]
    {
      ret := Answer(script, |data|);
      script := Used(script);
      if ret > 0 { accepted := accepted + data[..ret]; }
    }

    /** `buffered_append`: the capacity grows before anything is stored. */
    method Append(buf: seq<byte>)
      requires Valid()
      modifies this`buffer, this`capacity
      ensures Valid() && buffer == old(buffer) + buf && capacity >= old(capacity)
    {
      if |buf| > capacity - |buffer| { capacity := capacity + |buf| + 1024; }
      buffer := buffer + buf;
    }

    /** `buffered_flush`. */
    method FlushBuffer()
      requires Valid()
      modifies this
      ensures Valid() && State() == Flush(old(State())) && capacity == old(capacity)
    {
      hide FlushLoop;
      if fileError != 0 { return; }
      var offset := 0;
      ghost var goal := FlushLoop(State());
      while offset < |buffer|
        invariant 0 <= offset <= |buffer| && buffer == old(buffer) && capacity == old(capacity)
        invariant FlushLoop(State().(buffer := buffer[offset..])) == goal
        invariant xferLimit == old(xferLimit) && bytesXfer == old(bytesXfer)
        decreases |script|, |buffer| - offset
      {
        ghost var f := State().(buffer := buffer[offset..]);
        FlushStep(f);
        var ret := BackendPut(buffer[offset..]);
        if ret == -EAGAIN {
          freezeOutput := true;
          assert State().(buffer := buffer[offset..]) == goal;
          break;
        }
        if ret <= 0 {
          fileError := ret;
          assert State().(buffer := buffer[offset..]) == goal;
          break;
        }
        assert buffer[offset..][ret..] == buffer[offset + ret..];
        offset := offset + ret;
      }
      FlushEnd(State().(buffer := buffer[offset..]));
      buffer := buffer[offset..];
    }

    /** `buffered_put_buffer`. */
    method PutBuffer(buf: seq<byte>) returns (ret: int)
      requires Valid()
      modifies this
      ensures Valid() && State() == Put(old(State()), buf)
      ensures old(fileError) != 0 ==> ret == old(fileError)
      ensures old(fileError) == 0 ==>
                ret == if PutLoop(Flush(old(State()).(frozen := false)), buf).2 then -EINVAL else |buf|
    {
      hide FlushLoop;
      if fileError != 0 { return fileError; }
      freezeOutput := false;
      FlushBuffer();
      ghost var g := State();
      var offset, dropped := 0, false;
      assert buf[0..] == buf;
      while !freezeOutput && offset < |buf|
        invariant 0 <= offset <= |buf| && !dropped && buffer == g.buffer && |buffer| <= capacity
        invariant PutLoop(State(), buf[offset..]) == PutLoop(g, buf)
        invariant freezeOutput || offset == |buf| ==> PutLoop(g, buf) == (State(), buf[offset..], false)
        decreases |script|, |buf| - offset
      {
        if bytesXfer > xferLimit { break; }
        ghost var f := State();
        var n := BackendPut(buf[offset..]);
        if n == -EAGAIN {
          freezeOutput := true;
          assert State() == f.(script := Used(f.script), frozen := true);
          break;
        }
        if n <= 0 {
          fileError := n;
          dropped := true;
          assert State() == f.(script := Used(f.script), error := n);
          break;
        }
        assert buf[offset..][n..] == buf[offset + n..];
        offset := offset + n;
        bytesXfer := bytesXfer + n;
      }
      if dropped { return -EINVAL; }
      Append(buf[offset..]);
      ret := |buf|;
    }

    /** `buffered_rate_limit`: 0 to go on, 1 to stop, negative on error. */
    method RateLimit() returns (ret: int)
      ensures fileError != 0 ==> ret == fileError
      ensures fileError == 0 ==> ret == if freezeOutput || bytesXfer > xferLimit then 1 else 0
    {
      ret := fileError;
      if ret != 0 { return; }
      if freezeOutput { return 1; }
      if bytesXfer > xferLimit { return 1; }
      return 0;
    }

    /** `buffered_rate_tick` while there is no error. */
    method RateTick()
      requires Valid() && fileError == 0
      modifies this
      ensures Valid() && State() == Tick(old(State()))
    {
      hide FlushLoop;
      if freezeOutput { return; }
      bytesXfer := 0;
      FlushBuffer();
    }

    /** `buffered_close`: flushes until the buffer is empty or an error is
        recorded; waiting to be unfrozen is the backend's next answer, and a 0 is
        only a reason to try again. */
    method Close()
      requires Valid()
      modifies this
      ensures Valid() && (fileError != 0 || buffer == [])
      ensures old(fileError) == 0 && fileError == 0 ==> accepted == old(accepted + buffer)
    {
      hide FlushLoop;
      while fileError == 0 && buffer != []
        invariant Valid()
        invariant old(fileError) == 0 && fileError == 0 ==> accepted + buffer == old(accepted + buffer)
        invariant old(fileError) != 0 ==> fileError != 0
        decreases |script|, |buffer|
      {
        FlushKeeps(State());
        FlushProgress(State());
        FlushBuffer();
      }
      assert fileError == 0 ==> accepted + [] == accepted;
    }
  }

  /** One turn of the flush loop. */
  lemma FlushStep(f: File)
    requires f.buffer != []
    ensures var r := Answer(f.script, |f.buffer|);
            var g := f.(script := Used(f.script));
            FlushLoop(f) == if r == -EAGAIN then g.(frozen := true) else if r <= 0 then g.(error := r)
                            else FlushLoop(g.(buffer := f.buffer[r..], accepted := f.accepted + f.buffer[..r]))
  {
  }

  lemma FlushEnd(f: File)
    ensures f.buffer == [] ==> FlushLoop(f) == f
  {
  }

  /** A flush that leaves something has used up an answer. */
  lemma {:induction false} FlushProgress(f: File)
    ensures |FlushLoop(f).script| <= |f.script|
    ensures f.buffer != [] ==> FlushLoop(f).buffer == [] || |FlushLoop(f).script| < |f.script|
    decreases |f.script|, |f.buffer|
  {
    if f.buffer != [] {
      var r := Answer(f.script, |f.buffer|);
      if r > 0 {
        FlushProgress(f.(script := Used(f.script), buffer := f.buffer[r..], accepted := f.accepted + f.buffer[..r]));
      }
    }
  }

  /** A whole run on one object, then the close: without an error the backend
      has the stream of the run, which is everything put, in order, if every put
      was in order. */
  method RunAndClose(file: QEMUFileBuffered, ops: seq<Op>)
    requires file.Valid() && file.fileError == 0
    modifies file
    ensures file.fileError == 0 ==> file.accepted == Stream(DoAll(old(file.State()), ops))
    ensures file.fileError == 0 && RunInOrder(ShapeOf(old(file.State())), CallsOf(ops))
            ==> file.accepted == old(file.accepted + file.buffer) + PutBytes(ops)
  {
    hide Put, Tick, FlushLoop, RunInOrder;
    ghost var f0 := file.State();
    var i := 0;
    while i < |ops| && file.fileError == 0
      invariant 0 <= i <= |ops| && file.Valid() && file.State() == DoAll(f0, ops[..i])
    {
      assert ops[..i + 1][..i] == ops[..i];
      match ops[i] {
        case PutOp(data) => var n := file.PutBuffer(data);
        case TickOp => file.RateTick();
        case LimitOp(rate) => file.xferLimit := rate / 10;
      }
      i := i + 1;
    }
    if file.fileError == 0 {
      assert ops[..i] == ops;
      if RunInOrder(ShapeOf(f0), CallsOf(ops)) { LosslessFifo(f0, ops); }
      file.Close();
    }
  }
}
