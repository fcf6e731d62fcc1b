/** The circular byte buffer of `cbuffer.c`: a bounded queue in a fixed array,
    read and written across the wrap-around. */
module CBufferRing {
  import opened Wire

  /** The `count` bytes from `rpos` on, wrapping at the end. */
  function Ring(buff: seq<byte>, rpos: nat, count: nat): (s: seq<byte>)
    requires rpos < |buff| && count <= |buff|
    ensures |s| == count
  {
    if rpos + count <= |buff| then buff[rpos..rpos + count] else buff[rpos..] + buff[..rpos + count - |buff|]
  }

  function Wrap(pos: nat, size: nat): (r: nat)
    requires pos < 2 * size
    ensures r < size
  {
    if pos >= size then pos - size else pos
  }

  /** Bytes stored at the write position join the end of the queue. */
  lemma RingAppend(was: seq<byte>, now: seq<byte>, rpos: nat, count: nat, chunk: seq<byte>)
    requires rpos < |was| && count + |chunk| <= |was|
    requires var w := Wrap(rpos + count, |was|);
             w + |chunk| <= |was| && now == was[..w] + chunk + was[w + |chunk|..]
    ensures Ring(now, rpos, count + |chunk|) == Ring(was, rpos, count) + chunk
  {
    var w := Wrap(rpos + count, |was|);
    if rpos + count >= |was| {
      assert now[rpos..] == was[rpos..];
      assert now[..w + |chunk|] == was[..w] + chunk;
    } else {
      assert now[rpos..w] == was[rpos..w];
      assert now[w..w + |chunk|] == chunk;
      assert now[rpos..w + |chunk|] == now[rpos..w] + now[w..w + |chunk|];
      assert rpos + count + |chunk| <= |was|;
    }
  }

  /** Advancing the read position drops the front of the queue. */
  lemma RingDrop(buff: seq<byte>, rpos: nat, count: nat, n: nat)
    requires rpos < |buff| && n <= count <= |buff|
    ensures Ring(buff, Wrap(rpos + n, |buff|), count - n) == Ring(buff, rpos, count)[n..]
    ensures rpos + n <= |buff| ==> buff[rpos..rpos + n] == Ring(buff, rpos, count)[..n]
  {
    var r := Ring(buff, rpos, count);
    if rpos + count <= |buff| {
      if rpos + n == |buff| {
        assert r[n..] == [];
      }
    } else if rpos + n >= |buff| {
      assert r[n..] == buff[..rpos + count - |buff|][rpos + n - |buff|..];
    } else {
      assert r[n..] == buff[rpos..][n..] + buff[..rpos + count - |buff|];
      assert r[..n] == buff[rpos..][..n];
    }
  }

  /** A ring as a value: how a `BipBuffer` embeds one. */
  datatype Cb = Cb(buff: seq<byte>, rpos: nat, count: nat)

  predicate Ok(cb: Cb) {
    cb.rpos < |cb.buff| && cb.count <= |cb.buff|
  }

  function Data(cb: Cb): (s: seq<byte>)
    requires Ok(cb)
    ensures |s| == cb.count
  {
    Ring(cb.buff, cb.rpos, cb.count)
  }

  class CBuffer {
    const buff: array<byte>
    var rpos: nat
    var count: nat

    ghost predicate Valid()
      reads this
    {
      rpos < buff.Length && count <= buff.Length
    }

    ghost function Contents(): (s: seq<byte>)
      requires Valid()
      reads this, buff
      ensures |s| == count
    {
      Ring(buff[..], rpos, count)
    }

    constructor (size: nat)
      requires size > 0
      ensures Valid() && Contents() == [] && fresh(buff) && buff.Length == size
    {
      buff := new byte[size](_ => 0);
      rpos, count := 0, 0;
    }

    /** The ring embedded in a structure. */
    constructor Of(cb: Cb)
      requires Ok(cb)
      ensures Valid() && Contents() == Data(cb) && fresh(buff) && buff.Length == |cb.buff|
      ensures rpos == cb.rpos && count == cb.count
    {
      buff := new byte[|cb.buff|](i requires 0 <= i < |cb.buff| => cb.buff[i]);
      rpos, count := cb.rpos, cb.count;
      new;
      assert buff[..] == cb.buff;
    }

    function Snapshot(): (cb: Cb)
      requires Valid()
      reads this, buff
      ensures Ok(cb) && Data(cb) == Contents() && |cb.buff| == buff.Length && cb.count == count
    {
      Cb(buff[..], rpos, count)
    }

    /** `memcpy` of one piece to `wpos`. */
    method Store(wpos: nat, from: seq<byte>)
      requires wpos + |from| <= buff.Length
      modifies buff
      ensures buff[..] == old(buff[..wpos]) + from + old(buff[wpos + |from|..])
    {
      forall k | 0 <= k < |from| {
        buff[wpos + k] := from[k];
      }
    }

    /** `cbuffer_write`: as much as fits, behind what is there. */
    method Write(from: seq<byte>) returns (n: nat)
      requires Valid()
      modifies this`count, buff
      ensures Valid() && n == if |from| <= buff.Length - old(count) then |from| else buff.Length - old(count)
      ensures Contents() == old(Contents()) + from[..n]
    {
      hide Ring;
      var done := 0;
      while done < |from|
        invariant 0 <= done <= |from| && Valid() && count == old(count) + done
        invariant Contents() == old(Contents()) + from[..done]
      {
        var avail := buff.Length - count;
        if avail == 0 { break; }
        var wpos := Wrap(rpos + count, buff.Length);
        if wpos + avail > buff.Length { avail := buff.Length - wpos; }
        if avail > |from| - done { avail := |from| - done; }
        ghost var was, chunk := buff[..], from[done..done + avail];
        Store(wpos, from[done..done + avail]);
        RingAppend(was, buff[..], rpos, count, chunk);
        assert from[..done + avail] == from[..done] + chunk;
        done := done + avail;
        count := count + avail;
      }
      n := done;
    }

    /** `cbuffer_read`: up to `len` bytes off the front. */
    method Read(len: nat) returns (to: seq<byte>)
      requires Valid()
      modifies this
      ensures Valid() && to == old(Contents())[..if len <= old(count) then len else old(count)]
      ensures Contents() == old(Contents())[|to|..]
    {
      hide Ring;
      to := [];
      ghost var q := Contents();
      while |to| < len
        invariant |to| <= len && |to| <= old(count) && Valid() && count == old(count) - |to|
        invariant to == q[..|to|] && Contents() == q[|to|..]
      {
        var avail := count;
        if avail == 0 { break; }
        if rpos + avail > buff.Length { avail := buff.Length - rpos; }
        if avail > len - |to| { avail := len - |to|; }
        RingDrop(buff[..], rpos, count, avail);
        ghost var n := |to|;
        assert buff[rpos..rpos + avail] == buff[..][rpos..rpos + avail] == q[n..][..avail];
        to := to + buff[rpos..rpos + avail];
        count := count - avail;
        rpos := Wrap(rpos + avail, buff.Length);
        assert q[n..][avail..] == q[n + avail..] && q[..n] + q[n..][..avail] == q[..n + avail];
      }
    }

    /** `cbuffer_read_peek`: a piece at `pos` that is the front of the queue. */
    method ReadPeek() returns (pos: nat, avail: nat)
      requires Valid()
      ensures pos + avail <= buff.Length && avail <= count && (avail == 0 <==> count == 0)
      ensures avail == if count <= buff.Length - rpos then count else buff.Length - rpos
      ensures buff[pos..pos + avail] == Contents()[..avail]
    {
      pos, avail := rpos, count;
      if rpos + avail > buff.Length { avail := buff.Length - rpos; }
      RingDrop(buff[..], rpos, count, avail);
    }

    /** `cbuffer_read_step`. */
    method ReadStep(len0: nat)
      requires Valid()
      modifies this
      ensures Valid() && Contents() == old(Contents())[if len0 > old(count) then old(count) else len0..]
    {
      var len := len0;
      if len > count { len := count; }
      RingDrop(buff[..], rpos, count, len);
      rpos := Wrap(rpos + len, buff.Length);
      count := count - len;
    }

    /** `cbuffer_write_peek`: free room at `pos`, where bytes stored will follow
        the queue. */
    method WritePeek() returns (pos: nat, avail: nat)
      requires Valid()
      ensures pos == Wrap(rpos + count, buff.Length) && pos + avail <= buff.Length
      ensures avail <= buff.Length - count && (avail == 0 <==> count == buff.Length)
    {
      pos, avail := Wrap(rpos + count, buff.Length), buff.Length - count;
      if pos + avail > buff.Length { avail := buff.Length - pos; }
    }

    /** `cbuffer_write_step`. */
    method WriteStep(len: nat)
      requires Valid()
      modifies this`count
      ensures Valid() && count == if old(count) + len > buff.Length then buff.Length else old(count) + len
    {
      count := count + len;
      if count > buff.Length { count := buff.Length; }
    }

    /** The pair as callers use it: peek, store, step.  What fits in one piece
        joins the queue. */
    method Produce(from: seq<byte>) returns (n: nat)
      requires Valid()
      modifies this`count, buff
      ensures Valid() && n <= |from| && Contents() == old(Contents()) + from[..n]
      ensures n == 0 <==> from == [] || old(count) == buff.Length
    {
      hide Ring;
      var pos, avail := WritePeek();
      n := if avail > |from| then |from| else avail;
      ghost var was := buff[..];
      Store(pos, from[..n]);
      RingAppend(was, buff[..], rpos, count, from[..n]);
      WriteStep(n);
    }
  }
}
