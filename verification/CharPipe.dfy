/** Character pipes (`charpipe.c`): a chain of ring buffers per half, and one
    list of free buffers shared by all. */
module CharPipe {
  import opened Wire
  import opened CBufferRing

  const BIP_BUFFER_SIZE: nat := 512

  class BipBuffer {
    var next: BipBuffer?
    var cb: Cb

    constructor ()
      ensures next == null && Good() && Held() == []
    {
      next := null;
      cb := Cb(seq(BIP_BUFFER_SIZE, _ => 0), 0, 0);
    }

    ghost predicate Good()
      reads this`cb
    {
      Ok(cb) && |cb.buff| == BIP_BUFFER_SIZE
    }

    ghost function Held(): (s: seq<byte>)
      requires Good()
      reads this`cb
      ensures |s| == cb.count
    {
      Data(cb)
    }

    /** How much of the ring can be read before it wraps around. */
    ghost function InOnePiece(): (n: nat)
      requires Good()
      reads this`cb
    {
      if cb.count <= |cb.buff| - cb.rpos then cb.count else |cb.buff| - cb.rpos
    }

    /** `cbuffer_write(bip->cb, ...)`. */
    method Put(from: seq<byte>) returns (n: nat)
      requires Good()
      modifies this`cb
      ensures Good() && n <= |from| && Held() == old(Held()) + from[..n]
      ensures n < |from| ==> cb.count == BIP_BUFFER_SIZE
      ensures n == 0 ==> from == [] || old(cb.count) == BIP_BUFFER_SIZE
    {
      hide Data;
      var c := new CBuffer.Of(cb);
      n := c.Write(from);
      cb := c.Snapshot();
    }

    /** `cbuffer_read_peek`: the front of the ring that lies in one piece. */
    method Peek() returns (piece: seq<byte>)
      requires Good()
      ensures |piece| == InOnePiece() <= cb.count && (piece == [] <==> cb.count == 0) && piece == Held()[..|piece|]
    {
      hide Data;
      var c := new CBuffer.Of(cb);
      var pos, avail := c.ReadPeek();
      piece := c.buff[pos..pos + avail];
    }

    /** `cbuffer_read_step`. */
    method Step(len: nat)
      requires Good() && len <= cb.count
      modifies this`cb
      ensures Good() && Held() == old(Held())[len..]
    {
      hide Data;
      var c := new CBuffer.Of(cb);
      c.ReadStep(len);
      cb := c.Snapshot();
    }
  }

  // ------------------------------------------------------------ linked lists

  function At(list: seq<BipBuffer>, i: nat): (p: BipBuffer?) {
    if i < |list| then list[i] else null
  }

  ghost function Nodes(list: seq<BipBuffer>): (s: set<BipBuffer>) {
    set b | b in list
  }

  /** `list` is the chain that starts at `p`. */
  ghost predicate Linked(p: BipBuffer?, list: seq<BipBuffer>)
    reads list`next
  {
    p == At(list, 0) && forall i :: 0 <= i < |list| ==> list[i].next == At(list, i + 1)
  }

  predicate Distinct(list: seq<BipBuffer>) {
    forall i, j :: 0 <= i < j < |list| ==> list[i] != list[j]
  }

  ghost predicate AllGood(list: seq<BipBuffer>)
    reads list`cb
  {
    forall i :: 0 <= i < |list| ==> list[i].Good()
  }

  /** The buffers in the order a walk over the chain frees them, last first. */
  function Freed(list: seq<BipBuffer>): (r: seq<BipBuffer>) {
    if list == [] then [] else [list[|list| - 1]] + Freed(list[..|list| - 1])
  }

  /** Buffer by buffer, what a chain holds. */
  ghost predicate Holds(list: seq<BipBuffer>, held: seq<seq<byte>>)
    reads list`cb
  {
    |held| == |list| && forall i :: 0 <= i < |list| ==> list[i].Good() && list[i].Held() == held[i]
  }

  lemma HoldsSnoc(list: seq<BipBuffer>, held: seq<seq<byte>>, b: BipBuffer)
    requires Holds(list, held) && b.Good()
    ensures Holds(list + [b], held + [b.Held()])
  {
  }

  /** The pieces end to end, oldest first. */
  function Flat(held: seq<seq<byte>>): (s: seq<byte>) {
    if held == [] then [] else held[0] + Flat(held[1..])
  }

  lemma {:induction false} FlatSnoc(held: seq<seq<byte>>, s: seq<byte>)
    ensures Flat(held + [s]) == Flat(held) + s
  {
    if held == [] {
      assert held + [s] == [s];
      assert Flat([s][1..]) == [];
    } else {
      FlatSnoc(held[1..], s);
      assert (held + [s])[1..] == held[1..] + [s];
    }
  }

  lemma FlatDrop(held: seq<seq<byte>>, n: nat)
    requires held != [] && n <= |held[0]|
    ensures n <= |Flat(held)| && Flat(held[0 := held[0][n..]]) == Flat(held)[n..]
  {
    var h := held[0 := held[0][n..]];
    assert h[1..] == held[1..];
    assert (held[0] + Flat(held[1..]))[n..] == held[0][n..] + Flat(held[1..]);
  }

  /** More at the end of the last piece. */
  lemma FlatGrow(held: seq<seq<byte>>, s: seq<byte>)
    requires held != []
    ensures Flat(held[|held| - 1 := held[|held| - 1] + s]) == Flat(held) + s
  {
    var n := |held| - 1;
    var front, last := held[..n], held[n];
    assert held == front + [last] && held[n := last + s] == front + [last + s];
    FlatSnoc(front, last);
    FlatSnoc(front, last + s);
  }

  // -------------------------------------------------------------- free list

  class BipPool {
    var free: BipBuffer?
    ghost var list: seq<BipBuffer>

    ghost predicate Valid()
      reads this, list`next, list`cb
    {
      Linked(free, list) && Distinct(list) && AllGood(list)
    }

    constructor ()
      ensures Valid() && list == []
    {
      free, list := null, [];
    }

    /** `bip_buffer_alloc`. */
    method Alloc() returns (bip: BipBuffer)
      requires Valid()
      modifies this, Nodes(list)
      ensures Valid() && bip.Good() && bip.next == null && bip.Held() == [] && bip !in list
      ensures if old(list) == [] then list == [] && fresh(bip) else bip == old(list)[0] && list == old(list)[1..]
    {
      if free != null {
        bip := free;
        free := bip.next;
        list := list[1..];
      } else {
        bip := new BipBuffer();
      }
      bip.next := null;
      bip.cb := bip.cb.(rpos := 0, count := 0);
    }

    /** `bip_buffer_free`. */
    method Free(bip: BipBuffer)
      requires Valid() && bip.Good() && bip !in list
      modifies this, bip`next
      ensures Valid() && list == [bip] + old(list)
    {
      bip.next := free;
      free := bip;
      list := [bip] + list;
      assert forall i :: 1 <= i < |list| ==> list[i] == old(list)[i - 1];
    }
  }

  // -------------------------------------------------------------- pipe half

  function Min(a: nat, b: nat): (r: nat) {
    if a < b then a else b
  }

  /** What the answers grant in all, up to the first 0. */
  function Granted(room: seq<nat>): (n: nat) {
    if room == [] || room[0] == 0 then 0 else room[0] + Granted(room[1..])
  }

  /** How many answers come before the first 0. */
  function Turns(room: seq<nat>): (n: nat)
    ensures n <= |room| && n <= Granted(room)
  {
    if room == [] || room[0] == 0 then 0 else 1 + Turns(room[1..])
  }

  lemma NoneGranted(room: seq<nat>)
    requires room == []
    ensures Granted(room) == 0 && Turns(room) == 0
  {
  }

  lemma AnswersAt(room: seq<nat>, k: nat)
    requires k < |room|
    ensures Granted(room[k..]) == if room[k] == 0 then 0 else room[k] + Granted(room[k + 1..])
    ensures Turns(room[k..]) == if room[k] == 0 then 0 else 1 + Turns(room[k + 1..])
  {
    assert room[k..][1..] == room[k + 1..];
  }

  class CharPipeHalf {
    const pool: BipPool
    var bipFirst: BipBuffer?
    var bipLast: BipBuffer?
    var readable: bool             // the peer is open and has a read handler
    var peerAsks: bool             // the peer has a can-read handler
    var selfAsks: bool             // this half has one
    var delivered: seq<byte>       // every byte handed to the peer
    ghost var chain: seq<BipBuffer>
    ghost var held: seq<seq<byte>> // what each of them holds

    /** `charpipehalf_init`. */
    constructor (shared: BipPool, open: bool, peerCanRead: bool, selfCanRead: bool)
      requires shared.Valid()
      ensures Valid() && pool == shared && delivered == [] && Queue() == []
      ensures readable == open && peerAsks == peerCanRead && selfAsks == selfCanRead
    {
      pool, bipFirst, bipLast, chain, held, delivered := shared, null, null, [], [], [];
      readable, peerAsks, selfAsks := open, peerCanRead, selfCanRead;
    }

    ghost function Owned(): (s: set<BipBuffer>)
      reads this`chain, pool`list
    {
      Nodes(chain) + Nodes(pool.list)
    }

    /** Every buffer held now was held before or is new: none comes from the
        chain of another half. */
    twostate predicate OnlyOwn()
      reads this, pool
    {
      forall b :: b in Owned() ==> b in old(Owned()) || fresh(b)
    }

    /** The bytes that wait, oldest first. */
    ghost function Queue(): (s: seq<byte>)
      reads this`held
    {
      Flat(held)
    }

    /** The chain and what it holds. */
    ghost predicate Chained()
      reads this`bipFirst, this`bipLast, this`chain, this`held, chain`next, chain`cb
    {
      && Linked(bipFirst, chain) && Distinct(chain) && Holds(chain, held)
      && bipLast == (if chain == [] then null else chain[|chain| - 1])
    }

    /** No buffer is in the chain and on the free list at once. */
    ghost predicate Valid()
      reads this`bipFirst, this`bipLast, this`chain, this`held, pool, Owned()
    {
      pool.Valid() && Chained() && forall b :: b in chain ==> b !in pool.list
    }

    /** `qemu_chr_be_write` to the peer. */
    method Deliver(data: seq<byte>)
      modifies this`delivered
      ensures delivered == old(delivered) + data
    {
      delivered := delivered + data;
    }

    /** The first loop of `charpipehalf_write`: straight to the peer, as much as
        it says it can take each time (`room`; nothing once that runs out). */
    method WriteDirect(buf: seq<byte>, room: seq<nat>) returns (n: nat)
      requires Valid()
      modifies this`delivered
      ensures Valid() && n <= |buf| && delivered == old(delivered) + buf[..n]
      ensures n == if peerAsks then Min(|buf|, Granted(room)) else |buf|
    {
      hide Linked, Distinct, AllGood, Holds, Granted;
      n := 0;
      var k := 0;
      assert room[0..] == room;
      while n < |buf|
        invariant 0 <= n <= |buf| && delivered == old(delivered) + buf[..n] && 0 <= k <= |room|
        invariant peerAsks ==> Min(|buf|, n + Granted(room[k..])) == Min(|buf|, Granted(room))
        decreases |buf| - n
      {
        var size := |buf| - n;
        if peerAsks {
          if k == |room| {
            assert Granted(room[k..]) == 0 by { NoneGranted(room[k..]); }
            break;
          }
          AnswersAt(room, k);
          size := room[k];
          if size == 0 { break; }
          k := k + 1;
          if size > |buf| - n { size := |buf| - n; }
        }
        assert buf[..n] + buf[n..n + size] == buf[..n + size];
        Deliver(buf[n..n + size]);
        n := n + size;
      }
    }

    /** `bip` behind the last buffer, or as the only one. */
    method Link(bip: BipBuffer)
      requires Valid() && bip.Good() && bip.next == null && bip.Held() == []
      requires bip !in chain && bip !in pool.list
      modifies this`bipFirst, this`bipLast, this`chain, this`held, Nodes(chain)`next
      ensures Valid() && chain == old(chain) + [bip] && Queue() == old(Queue())
    {
      hide Flat, Distinct, Holds, BipPool.Valid;
      FlatSnoc(held, []);
      HoldsSnoc(chain, held, bip);
      DistinctSnoc(chain, bip);
      if bipLast == null { bipFirst := bip; } else { bipLast.next := bip; }
      bipLast := bip;
      chain := chain + [bip];
      held := held + [[]];
    }

    /** A fresh buffer at the end of the chain. */
    method AddBuffer()
      requires Valid()
      modifies this`bipFirst, this`bipLast, this`chain, this`held, pool, Owned()
      ensures Valid() && OnlyOwn() && Queue() == old(Queue())
      ensures bipLast != null && bipLast.cb.count == 0
    {
      hide Distinct, Flat, AllGood, Linked, Holds;
      var bip := pool.Alloc();
      Link(bip);
    }

    /** `cbuffer_write` into the last buffer. */
    method PutLast(from: seq<byte>) returns (n: nat)
      requires Valid() && bipLast != null
      modifies Nodes(chain)`cb, this`held
      ensures Valid() && n <= |from| && Queue() == old(Queue()) + from[..n]
      ensures n == 0 ==> from == [] || old(bipLast.cb.count) == BIP_BUFFER_SIZE
    {
      hide Flat, Linked, Distinct, BipPool.Valid;
      LastApart();
      n := bipLast.Put(from);
      FlatGrow(held, from[..n]);
      held := held[|held| - 1 := held[|held| - 1] + from[..n]];
    }

    lemma LastApart()
      requires Valid() && bipLast != null
      ensures chain != [] && bipLast == chain[|chain| - 1]
      ensures forall i :: 0 <= i < |chain| - 1 ==> chain[i] != bipLast
    {
      hide Linked, Holds, BipPool.Valid;
    }

    /** One turn of the buffering loop: fill the last buffer, add another if
        something is left. */
    method PutNext(from: seq<byte>) returns (n: nat)
      requires Valid() && bipLast != null
      modifies this`bipFirst, this`bipLast, this`chain, this`held, pool, Owned()
      ensures Valid() && OnlyOwn() && bipLast != null
      ensures n <= |from| && Queue() == old(Queue()) + from[..n]
      ensures n == 0 ==> from == [] || bipLast.cb.count < old(bipLast.cb.count)
    {
      hide Distinct, Flat, AllGood, Linked, Holds;
      n := PutLast(from);
      if n < |from| { AddBuffer(); }
    }

    /** The buffering loop of `charpipehalf_write`: everything goes in. */
    method Append(buf: seq<byte>)
      requires Valid()
      modifies this`bipFirst, this`bipLast, this`chain, this`held, pool, Owned()
      ensures Valid() && OnlyOwn() && Queue() == old(Queue()) + buf
    {
      hide Valid, Nodes;
      if buf == [] { return; }
      if bipLast == null { AddBuffer(); }
      var done := 0;
      while done < |buf|
        invariant 0 <= done <= |buf| && Valid() && OnlyOwn() && bipLast != null
        invariant Queue() == old(Queue()) + buf[..done]
        decreases |buf| - done, bipLast.cb.count
      {
        var n := PutNext(buf[done..]);
        assert buf[..done] + buf[done..][..n] == buf[..done + n];
        done := done + n;
      }
    }

    /** `charpipehalf_write`: takes everything.  What is not handed over at once
        is queued behind what already waits. */
    method Write(buf: seq<byte>, room: seq<nat>) returns (ret: nat)
      requires Valid()
      modifies this`bipFirst, this`bipLast, this`chain, this`held, this`delivered, pool, Owned()
      ensures Valid() && OnlyOwn() && ret == |buf|
      ensures delivered + Queue() == old(delivered + Queue()) + buf
      ensures old(delivered) <= delivered && (old(Queue()) != [] ==> delivered == old(delivered))
    {
      hide Valid, Nodes;
      ret := 0;
      if bipLast == null && readable {
        EmptyChain();
        ret := WriteDirect(buf, room);
      }
      Append(buf[ret..]);
      Joined(old(delivered), old(Queue()), buf, ret);
      ret := |buf|;
    }

    lemma EmptyChain()
      requires Valid() && bipLast == null
      ensures Queue() == []
    {
    }

    /** The empty first buffer goes back to the pool. */
    method DropFirst()
      requires Valid() && bipFirst != null && bipFirst.cb.count == 0
      modifies this`bipFirst, this`bipLast, this`chain, this`held, pool, Owned()
      ensures Valid() && Owned() <= old(Owned()) && Queue() == old(Queue())
      ensures old(chain) != [] && chain == old(chain)[1..] && pool.list == [old(bipFirst)] + old(pool.list)
    {
      FirstEmpty();
      UnlinkFirst();
    }

    lemma FirstEmpty()
      requires Valid() && bipFirst != null && bipFirst.cb.count == 0
      ensures held != [] && Flat(held[1..]) == Flat(held)
    {
      HeldFirst();
      assert held[0] == [];
    }

    /** The first buffer goes back whatever it holds. */
    method UnlinkFirst()
      requires Valid() && bipFirst != null
      modifies this`bipFirst, this`bipLast, this`chain, this`held, pool, Owned()
      ensures Valid() && Owned() <= old(Owned()) && old(chain) != [] && old(held) != [] && held == old(held)[1..]
      ensures old(bipFirst) == old(chain)[0] && chain == old(chain)[1..]
      ensures pool.list == [old(bipFirst)] + old(pool.list)
    {
      hide AllGood, Flat, Linked, Distinct, Holds;
      var bip := bipFirst;
      TailFacts(bipFirst, chain, held);
      bipFirst := bip.next;
      if bipFirst == null { bipLast := null; }
      chain, held := chain[1..], held[1..];
      pool.Free(bip);
    }

    /** `avail` bytes off the front of the first buffer. */
    method TakeFirst(avail: nat)
      requires Valid() && bipFirst != null && avail <= bipFirst.cb.count
      modifies Nodes(chain)`cb, this`held
      ensures Valid() && avail <= |old(Queue())| && Queue() == old(Queue())[avail..]
    {
      hide Flat, Linked, BipPool.Valid;
      HeldFirst();
      assert forall i :: 1 <= i < |chain| ==> chain[i] in chain[1..];
      FlatDrop(held, avail);
      bipFirst.Step(avail);
      held := held[0 := held[0][avail..]];
    }

    /** `charpipehalf_poll`: hands over what the peer takes (`room`; nothing once
        that runs out); nothing is lost, repeated or reordered, and without a
        can-read handler on this half everything goes. */
    method Poll(room: seq<nat>)
      requires Valid()
      modifies this`bipFirst, this`bipLast, this`chain, this`held, this`delivered, pool, Owned()
      ensures Valid() && Owned() <= old(Owned()) && delivered + Queue() == old(delivered + Queue())
      ensures old(delivered) <= delivered && (readable && !selfAsks ==> Queue() == [])
      ensures !readable ==> delivered == old(delivered)
      ensures readable && selfAsks ==>
                && |delivered| - |old(delivered)| <= Granted(room)
                && (Queue() == [] || |delivered| - |old(delivered)| >= Turns(room))
    {
      hide Valid, Nodes, Granted, Turns;
      if !readable { return; }
      var k := 0;
      assert room[0..] == room;
      while bipFirst != null
        invariant Valid() && Owned() <= old(Owned()) && k >= 0
        invariant delivered + Queue() == old(delivered + Queue()) && old(delivered) <= delivered
        invariant selfAsks ==> k <= |room|
        invariant selfAsks ==> |delivered| - |old(delivered)| + Granted(room[k..]) <= Granted(room)
        invariant selfAsks ==> |delivered| - |old(delivered)| + Turns(room[k..]) >= Turns(room)
        decreases |chain|, |Queue()|
      {
        HeldFirst();
        var size := bipFirst.cb.count;
        if size == 0 {
          DropFirst();
        } else {
          if selfAsks {
            if k == |room| {
              NoneGranted(room[k..]);
              return;
            }
            AnswersAt(room, k);
            var size2 := room[k];
            if size2 == 0 { return; }
            k := k + 1;
            if size > size2 { size := size2; }
          }
          SendFirst(size);
        }
      }
      NoChain();
    }

    /** At most `size` bytes, those of the first buffer in one piece. */
    method SendFirst(size: nat)
      requires Valid() && bipFirst != null && 0 < size && 0 < bipFirst.cb.count
      modifies Nodes(chain)`cb, this`held, this`delivered
      ensures Valid() && delivered + Queue() == old(delivered + Queue()) && old(delivered) <= delivered
      ensures |Queue()| < |old(Queue())|
      ensures |delivered| == |old(delivered)| + Min(size, old(bipFirst.InOnePiece()))
    {
      hide Flat, Linked, AllGood, Distinct, Holds;
      HeldFirst();
      var piece := bipFirst.Peek();
      var avail := if |piece| > size then size else |piece|;
      ghost var was := Queue();
      assert piece[..avail] == was[..avail];
      TakeFirst(avail);
      Deliver(piece[..avail]);
      assert was == was[..avail] + was[avail..];
    }

    lemma HeldFirst()
      requires Valid() && bipFirst != null
      ensures chain != [] && bipFirst == chain[0] && bipFirst in Owned() && bipFirst.Good()
      ensures bipFirst.Held() <= Queue() && bipFirst !in chain[1..]
    {
    }

    /** `charpipehalf_close`: all buffers go back to the pool. */
    method Close()
      requires Valid()
      modifies this`bipFirst, this`bipLast, this`chain, this`held, this`readable, pool, Owned()
      ensures Valid() && Owned() <= old(Owned()) && chain == [] && !readable
      ensures pool.list == Freed(old(chain)) + old(pool.list)
    {
      hide Valid, Nodes;
      ghost var k := 0;
      while bipFirst != null
        invariant Valid() && Owned() <= old(Owned())
        invariant 0 <= k <= |old(chain)| && chain == old(chain)[k..]
        invariant pool.list == Freed(old(chain)[..k]) + old(pool.list)
        decreases |chain|
      {
        HeldFirst();
        UnlinkFirst();
        assert old(chain)[..k + 1][..k] == old(chain)[..k];
        k := k + 1;
      }
      NoChain();
      assert old(chain)[..k] == old(chain);
      bipLast := null;
      readable := false;
    }

    /** `charbuffer_write`: one try on the endpoint, which says how much it
        took, and the rest is queued. */
    method BufferWrite(buf: seq<byte>, took: int) returns (ret: nat)
      requires Valid()
      modifies this`bipFirst, this`bipLast, this`chain, this`held, this`delivered, pool, Owned()
      ensures Valid() && OnlyOwn() && ret == |buf|
      ensures delivered + Queue() == old(delivered + Queue()) + buf && old(delivered) <= delivered
    {
      hide Distinct, Linked, AllGood, Holds, Flat;
      ret := 0;
      if bipLast == null && readable {
        EmptyChain();
        ret := if took < 0 then 0 else if took > |buf| then |buf| else took;
        Deliver(buf[..ret]);
      }
      Append(buf[ret..]);
      Joined(old(delivered), old(Queue()), buf, ret);
      ret := |buf|;
    }

    /** `charbuffer_poll`: piece by piece until the endpoint takes less than it
        was offered. */
    method BufferPoll(took: seq<int>)
      requires Valid()
      modifies this`bipFirst, this`bipLast, this`chain, this`held, this`delivered, pool, Owned()
      ensures Valid() && Owned() <= old(Owned()) && delivered + Queue() == old(delivered + Queue())
      ensures old(delivered) <= delivered
    {
      hide Valid, Nodes, Flat;
      if !readable { return; }
      var k := 0;
      while bipFirst != null
        invariant Valid() && Owned() <= old(Owned()) && k >= 0
        invariant delivered + Queue() == old(delivered + Queue()) && old(delivered) <= delivered
        decreases |chain|, |Queue()|
      {
        HeldFirst();
        if bipFirst.cb.count == 0 {
          DropFirst();
        } else {
          var all := Offer(if k < |took| then took[k] else 0);
          k := k + 1;
          if !all { return; }
        }
      }
    }

    /** One piece offered; `all` if the endpoint took it whole. */
    method Offer(took: int) returns (all: bool)
      requires Valid() && bipFirst != null && 0 < bipFirst.cb.count
      modifies Nodes(chain)`cb, this`held, this`delivered
      ensures Valid() && delivered + Queue() == old(delivered + Queue()) && old(delivered) <= delivered
      ensures all ==> |Queue()| < |old(Queue())|
    {
      hide Flat, Linked, AllGood, Distinct, Holds;
      HeldFirst();
      var piece := bipFirst.Peek();
      var size := if took < 0 then 0 else if took > |piece| then |piece| else took;
      if size > 0 { SendFirst(size); }
      all := size == |piece|;
    }

    method Do(op: Op)
      requires Valid()
      modifies this`bipFirst, this`bipLast, this`chain, this`held, this`delivered, pool, Owned()
      ensures Valid() && OnlyOwn()
      ensures delivered + Queue() == old(delivered + Queue()) + if op.WriteOp? then op.buf else []
    {
      hide Valid, Nodes, Flat;
      match op
      case WriteOp(_, buf, room) => var n := Write(buf, room);
      case PollOp(_, room) => Poll(room);
    }

    lemma NoChain()
      requires Valid() && bipFirst == null
      ensures chain == [] && bipLast == null && Queue() == []
    {
    }
  }

  // ------------------------------------------- all halves and their one pool

  datatype Op = WriteOp(half: nat, buf: seq<byte>, room: seq<nat>) | PollOp(half: nat, room: seq<nat>)

  /** Everything the writes of a run put into half `j`. */
  function Written(ops: seq<Op>, j: nat): (s: seq<byte>) {
    if ops == [] then []
    else
      var op := ops[|ops| - 1];
      Written(ops[..|ops| - 1], j) + (if op.WriteOp? && op.half == j then op.buf else [])
  }

  /** Every buffer any of the halves or the pool has. */
  ghost function AllOwned(pool: BipPool, hs: seq<CharPipeHalf>): (s: set<BipBuffer>)
    reads pool`list, hs`chain
  {
    Nodes(pool.list) + set i, b | 0 <= i < |hs| && hs[i].pool == pool && b in hs[i].Owned() :: b
  }

  ghost function Chains(hs: seq<CharPipeHalf>): (c: seq<seq<BipBuffer>>)
    reads hs`chain
    ensures |c| == |hs| && forall i :: 0 <= i < |hs| ==> c[i] == hs[i].chain
  {
    if hs == [] then [] else Chains(hs[..|hs| - 1]) + [hs[|hs| - 1].chain]
  }

  /** No buffer is in two chains, or in a chain and on the free list. */
  predicate Separate(chains: seq<seq<BipBuffer>>, free: seq<BipBuffer>) {
    && (forall i, b :: 0 <= i < |chains| && b in chains[i] ==> b !in free)
    && (forall i, j, b :: 0 <= i < j < |chains| && b in chains[i] ==> b !in chains[j])
  }

  ghost predicate AllValid(pool: BipPool, hs: seq<CharPipeHalf>)
    reads pool, hs, AllOwned(pool, hs)
  {
    && pool.Valid() && Separate(Chains(hs), pool.list)
    && (forall i :: 0 <= i < |hs| ==> hs[i].pool == pool && hs[i].Valid())
    && (forall i, j :: 0 <= i < j < |hs| ==> hs[i] != hs[j])
  }

  /** One chain and the free list exchange buffers and get new ones. */
  lemma StillSeparate(chains: seq<seq<BipBuffer>>, free: seq<BipBuffer>, k: nat, chain: seq<BipBuffer>,
                      free': seq<BipBuffer>)
    requires Separate(chains, free) && k < |chains|
    requires forall b :: b in chain ==> b !in free'
    requires forall j, b :: 0 <= j < |chains| && j != k && b in chains[j] ==> b !in chain && b !in free'
    ensures Separate(chains[k := chain], free')
  {
  }

  /** What the halves other than `k` have is apart from what half `k` and the
      pool have. */
  lemma ApartFrom(pool: BipPool, hs: seq<CharPipeHalf>, k: nat)
    requires AllValid(pool, hs) && k < |hs|
    ensures forall j :: 0 <= j < |hs| && j != k ==> hs[j] != hs[k] && hs[j].Chained()
    ensures forall j, b :: 0 <= j < |hs| && j != k && b in Chains(hs)[j] ==> b !in hs[k].Owned()
    ensures forall j, b :: 0 <= j < |hs| && b in Chains(hs)[j] ==> b in AllOwned(pool, hs)
    ensures hs[k].Owned() <= AllOwned(pool, hs)
  {
    hide CharPipeHalf.Chained, BipPool.Valid;
    forall j, b | 0 <= j < |hs| && b in Chains(hs)[j] ensures b in AllOwned(pool, hs) { assert b in hs[j].Owned(); }
  }

  /** Half `k` has changed within its own buffers and new ones. */
  lemma Together(pool: BipPool, hs: seq<CharPipeHalf>, k: nat, chains: seq<seq<BipBuffer>>, free: seq<BipBuffer>)
    requires k < |hs| == |chains| && Separate(chains, free) && hs[k].Valid()
    requires forall j :: 0 <= j < |hs| ==> hs[j].pool == pool
    requires forall i, j :: 0 <= i < j < |hs| ==> hs[i] != hs[j]
    requires forall j :: 0 <= j < |hs| && j != k ==> hs[j].Chained() && hs[j].chain == chains[j]
    requires forall j, b :: 0 <= j < |hs| && j != k && b in chains[j] ==> b !in hs[k].Owned()
    ensures AllValid(pool, hs)
  {
    hide CharPipeHalf.Chained, BipPool.Valid;
    forall j, b | 0 <= j < |hs| && j != k && b in chains[j] ensures b !in hs[k].chain && b !in pool.list {
      assert b !in hs[k].Owned();
    }
    StillSeparate(chains, free, k, hs[k].chain, pool.list);
    assert Chains(hs) == chains[k := hs[k].chain];
  }

  /** Every buffer still comes from somewhere. */
  lemma OwnedBy(pool: BipPool, hs: seq<CharPipeHalf>, k: nat, chains: seq<seq<BipBuffer>>)
    requires k < |hs| == |chains| && forall j :: 0 <= j < |hs| ==> hs[j].pool == pool
    requires forall j :: 0 <= j < |hs| && j != k ==> hs[j].chain == chains[j]
    ensures forall b :: b in AllOwned(pool, hs) ==> b in hs[k].Owned() || exists j :: 0 <= j < |hs| && b in chains[j]
  {
    forall b | b in AllOwned(pool, hs) && b !in hs[k].Owned() ensures exists j :: 0 <= j < |hs| && b in chains[j] {
      var j :| 0 <= j < |hs| && b in hs[j].Owned();
      assert b in chains[j];
    }
  }

  /** One operation on one half leaves all others as they were. */
  method DoOne(pool: BipPool, hs: seq<CharPipeHalf>, op: Op)
    requires AllValid(pool, hs) && op.half < |hs|
    modifies hs, pool, AllOwned(pool, hs)
    ensures AllValid(pool, hs)
    ensures forall b :: b in AllOwned(pool, hs) ==> b in old(AllOwned(pool, hs)) || fresh(b)
    ensures forall j :: 0 <= j < |hs| ==>
              hs[j].delivered + hs[j].Queue() == old(hs[j].delivered + hs[j].Queue()) + Written([op], j)
  {
    hide CharPipeHalf.Chained, BipPool.Valid, Flat, Separate, AllOwned, Chains;
    var k, h := op.half, hs[op.half];
    assert [op][..0] == [];
    ghost var chains, free := Chains(hs), pool.list;
    ApartFrom(pool, hs, k);
    h.Do(op);
    Together(pool, hs, k, chains, free);
    OwnedBy(pool, hs, k, chains);
  }

  /** Any run of writes and polls on any number of halves: each half has delivered
      and keeps waiting exactly what was written to it, in order, and no buffer is
      ever in two places. */
  method RunAll(pool: BipPool, hs: seq<CharPipeHalf>, ops: seq<Op>)
    requires AllValid(pool, hs) && forall i :: 0 <= i < |ops| ==> ops[i].half < |hs|
    modifies hs, pool, AllOwned(pool, hs)
    ensures AllValid(pool, hs)
    ensures forall j :: 0 <= j < |hs| ==>
              hs[j].delivered + hs[j].Queue() == old(hs[j].delivered + hs[j].Queue()) + Written(ops, j)
  {
    hide Flat, AllValid, AllOwned;
    var i := 0;
    while i < |ops|
      invariant 0 <= i <= |ops| && AllValid(pool, hs)
      invariant forall b :: b in AllOwned(pool, hs) ==> b in old(AllOwned(pool, hs)) || fresh(b)
      invariant forall j :: 0 <= j < |hs| ==>
                  hs[j].delivered + hs[j].Queue() == old(hs[j].delivered + hs[j].Queue()) + Written(ops[..i], j)
    {
      assert ops[..i + 1][..i] == ops[..i] && [ops[i]][..0] == [];
      DoOne(pool, hs, ops[i]);
      i := i + 1;
    }
    assert ops[..i] == ops;
  }

  lemma TailFacts(p: BipBuffer?, chain: seq<BipBuffer>, held: seq<seq<byte>>)
    requires p != null && Linked(p, chain) && Distinct(chain) && Holds(chain, held)
    ensures chain != [] && p == chain[0] && p.Good() && p !in chain[1..] && held != []
    ensures p.next == At(chain[1..], 0) && Linked(p.next, chain[1..])
    ensures Distinct(chain[1..]) && Holds(chain[1..], held[1..])
  {
  }

  lemma DistinctSnoc(list: seq<BipBuffer>, b: BipBuffer)
    requires Distinct(list) && b !in list
    ensures Distinct(list + [b]) && forall i, j :: 0 <= i < j < |list| ==> list[i] != list[j]
  {
  }

  lemma Joined(d: seq<byte>, q: seq<byte>, buf: seq<byte>, n: nat)
    requires n <= |buf| && (q == [] || n == 0)
    ensures (d + buf[..n]) + (q + buf[n..]) == (d + q) + buf
  {
    assert buf[..n] + buf[n..] == buf;
  }
}
