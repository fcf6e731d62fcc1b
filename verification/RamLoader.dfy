/** The receiving half of RAM migration as it runs (`arch_init.c`):
    `host_from_stream_offset` with its static block, and `ram_load`. */
module RamLoader {
  import opened Bits
  import opened Wire
  import opened RamList
  import opened RamStream

  const EINVAL: int := 22
  const EIO: int := 5

  /** What `ram_load` returns: only what it refuses itself is EINVAL. */
  function Code(why: Failure): (e: int)
    ensures e < 0
  {
    if why == Einval then -EINVAL else -EIO
  }

  /** The stream begins with a block list that names a block the receiver has
      not, or has with another length. */
  ghost predicate StartsWrong(bs: seq<RAMBlock>, s: seq<byte>) {
    exists es :: && Listable(es) && ListTotal(es) < WORD_LIMIT && ListTotal(es) % TARGET_PAGE_SIZE == 0
                 && SizeBytes(es) <= s && !AllOnReceiver(bs, es)
  }

  lemma WrongListFails(r: Receiver, s: seq<byte>)
    requires StartsWrong(r.blocks, s)
    ensures LoadOne(r, s, 4) == Fail(Einval)
  {
    hide LoadOne, SizeBytes, AllOnReceiver;
    var es :| && Listable(es) && ListTotal(es) < WORD_LIMIT && ListTotal(es) % TARGET_PAGE_SIZE == 0
              && SizeBytes(es) <= s && !AllOnReceiver(r.blocks, es);
    var t := s[|SizeBytes(es)|..];
    assert SizeBytes(es) + t == s;
    SizeExact(r, es, t);
  }

  class Loader {
    var blocks: seq<RAMBlock>
    var block: int               // the static of host_from_stream_offset, -1 for NULL

    constructor (bs: seq<RAMBlock>)
      ensures blocks == bs && block == -1
    {
      blocks, block := bs, -1;
    }

    ghost function State(): Receiver
      reads this
    {
      Receiver(blocks, block)
    }

    /** `QLIST_FOREACH` over the names, as both readers do it. */
    method LookUp(id: seq<byte>) returns (j: int)
      ensures j == FindBlock(blocks, id)
    {
      j := 0;
      while j < |blocks|
        invariant 0 <= j <= |blocks|
        invariant forall i :: 0 <= i < j ==> blocks[i].idstr != id
      {
        if blocks[j].idstr == id { return; }
        j := j + 1;
      }
      j := -1;
    }

    /** `qemu_get_ram_ptr`, for version 3 streams. */
    method LookUpAddr(addr: nat) returns (j: int)
      ensures j == FindAddr(blocks, addr)
    {
      j := 0;
      while j < |blocks|
        invariant 0 <= j <= |blocks|
        invariant forall i :: 0 <= i < j ==> !(blocks[i].offset <= addr < blocks[i].offset + blocks[i].length)
      {
        if blocks[j].offset <= addr < blocks[j].offset + blocks[j].length { return; }
        j := j + 1;
      }
      j := -1;
    }

    /** Finds the host block of a page record. */
    method FindTarget(s: seq<byte>, addr: nat, flags: nat, version: nat)
      returns (host: int, off: nat, rest: seq<byte>, ok: bool)
      modifies this`block
      ensures match Resolve(old(State()), s, addr, flags, version)
              case NoTarget(_) => !ok
              case At(r1, host1, off1, rest1) =>
                ok && State() == r1 && host == host1 && off == off1 && rest == rest1
    {
      host, off, rest, ok := -1, addr, s, true;
      if version == 3 {
        host := LookUpAddr(addr);
        if host == -1 { ok := false; return; }
        off := addr - blocks[host].offset;
        return;
      }
      if Has(flags, RAM_SAVE_FLAG_CONTINUE) {
        if block < 0 { return; }
        host := block;
        return;
      }
      match GetName(s)
      case Short => ok := false;
      case Got(id, tail) =>
        block := LookUp(id);
        host := block;
        rest := tail;
    }

    /** The block list check of a version 4 size record. */
    method SyncBlocks(total0: Word, s: seq<byte>) returns (ok: bool, rest: seq<byte>)
      ensures match SyncList(blocks, total0, s)
              case Short => !ok
              case Got(_, rest1) => ok && rest == rest1
    {
      var total := total0;
      rest := s;
      ok := true;
      while total != 0
        invariant ok && SyncList(blocks, total, rest) == SyncList(blocks, total0, s)
        decreases |rest|
      {
        match GetName(rest) {
          case Short => ok := false; return;
          case Got(id, tail) =>
            if |tail| < 8 { ok := false; return; }
            var length := GetBe64(tail);
            var j := LookUp(id);
            if j < 0 || blocks[j].length != length { ok := false; return; }
            total := Minus(total, length);
            rest := tail[8..];
        }
      }
    }

    /** One turn of the loop of `ram_load`. */
    method LoadRecord(s: seq<byte>, version: nat) returns (ok: bool, code: int, rest: seq<byte>, eos: bool)
      modifies this
      ensures match LoadOne(old(State()), s, version)
              case Fail(why) => !ok && code == Code(why) && blocks == old(blocks)
              case Cont(r1, rest1, eos1) => ok && State() == r1 && rest == rest1 && eos == eos1
    {
      hide AndW, SyncList, Not, Has, GetBe64, TotalBytes, LoadPage;
      ok, code, rest, eos := false, -EIO, s, false;
      if |s| < 8 { return; }
      var h := GetBe64(s);
      var flags, addr := AndW(h, PAGE_MASK), AndW(h, Not(PAGE_MASK));
      rest := s[8..];
      if Has(flags, RAM_SAVE_FLAG_MEM_SIZE) {
        if version == 3 {
          var total := TotalBytes(blocks);
          if addr != total {
            code := -EINVAL;
            return;
          }
        } else {
          var fine, tail := SyncBlocks(addr, rest);
          if !fine {
            code := -EINVAL;
            return;
          }
          rest := tail;
        }
      }
      eos := Has(flags, RAM_SAVE_FLAG_EOS);
      ok, code, rest := ReadPage(rest, addr, flags, version, eos);
    }

    /** The part of the turn that stores a page. */
    method ReadPage(s: seq<byte>, addr: nat, flags: nat, version: nat, ghost eos: bool)
      returns (ok: bool, code: int, rest: seq<byte>)
      modifies this
      ensures match LoadPage(old(State()), s, addr, flags, version, eos)
              case Fail(why) => !ok && code == Code(why) && blocks == old(blocks)
              case Cont(r1, rest1, eos1) => ok && State() == r1 && rest == rest1 && eos1 == eos
    {
      hide Resolve, Has, Repeat;
      ok, code, rest := false, -EIO, s;
      if Has(flags, RAM_SAVE_FLAG_COMPRESS) {
        var host, off, tail, fine := FindTarget(s, addr, flags, version);
        if fine && host < 0 { code := -EINVAL; }
        if !fine || host < 0 || |tail| < 1 { return; }
        ok := Store(host, off, Repeat(tail[0], TARGET_PAGE_SIZE));
        rest := tail[1..];
      } else if Has(flags, RAM_SAVE_FLAG_PAGE) {
        var host, off, tail, fine := FindTarget(s, addr, flags, version);
        if !fine || |tail| < TARGET_PAGE_SIZE { return; }
        ok := Store(host, off, tail[..TARGET_PAGE_SIZE]);
        rest := tail[TARGET_PAGE_SIZE..];
      } else {
        ok := true;
      }
    }

    /** `memset` or `qemu_get_buffer` into a host page; false stands for the
        fault of a write through NULL or past the block. */
    method Store(host: int, off: nat, page: seq<byte>) returns (ok: bool)
      requires |page| == TARGET_PAGE_SIZE
      modifies this`blocks
      ensures ok <==> 0 <= host < |old(blocks)| && off + TARGET_PAGE_SIZE <= |old(blocks)[host].host|
      ensures ok ==> blocks == old(blocks)[host := SetPage(old(blocks)[host], off, page)]
      ensures !ok ==> blocks == old(blocks)
    {
      ok := 0 <= host < |blocks| && off + TARGET_PAGE_SIZE <= |blocks[host].host|;
      if ok { blocks := blocks[host := SetPage(blocks[host], off, page)]; }
    }

    /** `ram_load`. */
    method RamLoad(s: seq<byte>, version: int) returns (ret: int, rest: seq<byte>)
      modifies this
      ensures !(3 <= version <= 4) ==> ret == -EINVAL && State() == old(State())
      ensures 3 <= version <= 4 ==>
                match LoadSection(old(State()), s, version)
                case Failed(why) => ret == Code(why) && blocks == Reached(old(State()), s, version).blocks
                case Done(r1, rest1) => ret == 0 && State() == r1 && rest == rest1
      ensures version == 4 && StartsWrong(old(blocks), s) ==> ret == -EINVAL && blocks == old(blocks)
    {
      hide LoadOne;
      rest := s;
      if version < 3 || version > 4 { return -EINVAL, rest; }
      if version == 4 && StartsWrong(blocks, s) { WrongListFails(State(), s); }
      while true
        invariant LoadSection(State(), rest, version) == LoadSection(old(State()), s, version)
        invariant Reached(State(), rest, version) == Reached(old(State()), s, version)
        decreases |rest|
      {
        var ok, code, tail, eos := LoadRecord(rest, version);
        if !ok { return code, rest; }
        rest := tail;
        if eos { return 0, rest; }
      }
    }

    /** `ram_load` on every section of a stream. */
    method LoadStream(s: seq<byte>) returns (ret: int)
      modifies this
      ensures match Replay(old(State()), s, false)
              case Broken(_) => ret < 0
              case Ok(r) => ret == 0 && State() == r
    {
      hide LoadOne, LoadSection;
      var rest := s;
      ret := 0;
      while |rest| > 0
        invariant ret == 0 && Replay(State(), rest, false) == Replay(old(State()), s, false)
        decreases |rest|
      {
        ReplayBySections(State(), rest, false);
        var code, tail := RamLoad(rest, 4);
        if code < 0 { return code; }
        rest := tail;
      }
    }
  }
}
