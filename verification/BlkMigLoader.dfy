/** The receiving half of block migration as it runs (`block-migration.c`):
    `block_load`, which remembers the last device and its size. */
module BlkMigLoader {
  import opened Bits
  import opened Wire
  import opened BlkMigModel
  import opened BlkMigStream

  const EINVAL: int := 22
  const EIO: int := 5

  lemma EosCarried(ds: seq<Disk>, s: seq<byte>, at: nat, eos: bool)
    ensures LoadBlk(ds, s, at, eos).Cont? ==> LoadBlk(ds, s, at, eos).eos == eos
  {
  }

  class Loader {
    var disks: seq<Disk>

    constructor (ds: seq<Disk>)
      ensures disks == ds
    {
      disks := ds;
    }

    /** `bdrv_find`. */
    method LookUp(name: seq<byte>) returns (j: int)
      ensures j == FindDisk(disks, name)
    {
      j := 0;
      while j < |disks|
        invariant 0 <= j <= |disks|
        invariant forall i :: 0 <= i < j ==> disks[i].name != name
      {
        if disks[j].name == name { return; }
        j := j + 1;
      }
      j := -1;
    }

    /** One chunk record.  `prev` is `bs_prev` (-1 for NULL) and `total0` the
        remembered `total_sectors` of that device. */
    method LoadChunk(s: seq<byte>, at: nat, prev0: int, total0: nat, ghost eos: bool)
      returns (ok: bool, rest: seq<byte>, prev: int, total: nat)
      requires prev0 >= 0 ==> prev0 < |disks| && total0 == |disks[prev0].sectors| > 0
      modifies this
      ensures |disks| == |old(disks)|
      ensures ok ==> 0 <= prev < |disks| && total == |disks[prev].sectors| > 0
      ensures match LoadBlk(old(disks), s, at, eos)
              case Fail(_) => !ok && disks == old(disks)
              case Cont(ds1, rest1, _) => ok && disks == ds1 && rest == rest1
    {
      hide Cut, FindDisk;
      ok, rest, prev, total := false, s, prev0, total0;
      match GetName(s) {
        case Short => return;
        case Got(name, tail) =>
          var j := LookUp(name);
          if j < 0 { return; }
          if j != prev {
            prev := j;
            total := |disks[j].sectors|;
            if total <= 0 { return; }
          }
          if |tail| < BLOCK_SIZE { return; }
          if at > total { return; }
          var nr := if total - at < CHUNK then total - at else CHUNK;
          disks := disks[j := Stored(disks[j], at, nr, Cut(tail[..BLOCK_SIZE], CHUNK))];
          rest := tail[BLOCK_SIZE..];
          ok := true;
      }
    }

    /** One turn of the loop of `block_load`. */
    method LoadRecord(s: seq<byte>, prev0: int, total0: nat)
      returns (ok: bool, rest: seq<byte>, eos: bool, prev: int, total: nat)
      requires prev0 >= 0 ==> prev0 < |disks| && total0 == |disks[prev0].sectors| > 0
      modifies this
      ensures ok && prev >= 0 ==> prev < |disks| && total == |disks[prev].sectors| > 0
      ensures match LoadOne(old(disks), s)
              case Fail(_) => !ok && disks == old(disks)
              case Cont(ds1, rest1, eos1) => ok && disks == ds1 && rest == rest1 && eos == eos1
    {
      hide AndW, Shr, Has, LoadBlk, GetBe64;
      ok, rest, eos, prev, total := false, s, false, prev0, total0;
      if |s| < 8 { return; }
      var addr := GetBe64(s);
      var flags, at := AndW(addr, SECTOR_MASK), Shr(addr, 9);
      eos := Has(flags, BLK_MIG_FLAG_EOS);
      if Has(flags, BLK_MIG_FLAG_DEVICE_BLOCK) {
        EosCarried(disks, s[8..], at, eos);
        ok, rest, prev, total := LoadChunk(s[8..], at, prev, total, eos);
      } else if Has(flags, BLK_MIG_FLAG_PROGRESS) || eos {
        ok, rest := true, s[8..];
      }
    }

    /** `block_load`. */
    method BlockLoad(s: seq<byte>) returns (ret: int, rest: seq<byte>)
      modifies this
      ensures match LoadSection(old(disks), s)
              case Failed(_) => ret < 0
              case Done(ds1, rest1) => ret == 0 && disks == ds1 && rest == rest1
    {
      hide LoadOne;
      rest := s;
      var prev: int, total: nat := -1, 0;
      while true
        invariant LoadSection(disks, rest) == LoadSection(old(disks), s)
        invariant prev >= 0 ==> prev < |disks| && total == |disks[prev].sectors| > 0
        decreases |rest|
      {
        var ok, tail, eos, prev1, total1 := LoadRecord(rest, prev, total);
        if !ok { return -EINVAL, rest; }
        rest, prev, total := tail, prev1, total1;
        if eos { return 0, rest; }
      }
    }

    /** `block_load` on every section of a stream. */
    method LoadStream(s: seq<byte>) returns (ret: int)
      modifies this
      ensures match Replay(old(disks), s, false)
              case Broken(_) => ret < 0
              case Ok(ds) => ret == 0 && disks == ds
    {
      hide LoadOne, LoadSection;
      var rest := s;
      ret := 0;
      while |rest| > 0
        invariant ret == 0 && Replay(disks, rest, false) == Replay(old(disks), s, false)
        decreases |rest|
      {
        ReplayBySections(disks, rest, false);
        var code, tail := BlockLoad(rest);
        if code < 0 { return code; }
        rest := tail;
      }
    }
  }
}
