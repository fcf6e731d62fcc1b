/** The disk section of a migration stream (`block-migration.c`): the records of
    `blk_send` and the reader `block_load`. */
module BlkMigStream {
  import opened Bits
  import opened Wire
  import opened BlkMigModel

  const BLK_MIG_FLAG_DEVICE_BLOCK: nat := 0x01
  const BLK_MIG_FLAG_EOS: nat := 0x02
  const BLK_MIG_FLAG_PROGRESS: nat := 0x04

  const SECTOR_MASK: Word := 0x1ff          // ~BDRV_SECTOR_MASK
  const BLOCK_SIZE: nat := 0x10_0000        // CHUNK << BDRV_SECTOR_BITS

  datatype Disk = Disk(name: seq<byte>, sectors: seq<Sector>)

  datatype Failure = Einval | Eio | Truncated
  datatype One = Cont(ds: seq<Disk>, rest: seq<byte>, eos: bool) | Fail(why: Failure)
  datatype Replayed = Ok(ds: seq<Disk>) | Broken(why: Failure)

  // --------------------------------------------------- sectors and buffers

  function Flatten(ss: seq<Sector>): (b: seq<byte>)
    ensures |b| == SECTOR_SIZE * |ss|
  {
    if |ss| == 0 then [] else ss[0] + Flatten(ss[1..])
  }

  /** A buffer cut into `n` sectors. */
  function Cut(b: seq<byte>, n: nat): (ss: seq<Sector>)
    requires |b| == SECTOR_SIZE * n
    ensures |ss| == n
  {
    if n == 0 then [] else [b[..SECTOR_SIZE]] + Cut(b[SECTOR_SIZE..], n - 1)
  }

  lemma {:induction false} CutFlatten(ss: seq<Sector>)
    ensures Cut(Flatten(ss), |ss|) == ss
  {
    if |ss| > 0 {
      var b := Flatten(ss);
      assert b[..SECTOR_SIZE] == ss[0] && b[SECTOR_SIZE..] == Flatten(ss[1..]);
      CutFlatten(ss[1..]);
    }
  }

  // ------------------------------------------------------------ the writer

  function Header(value: nat, flag: Word): (h: Word)
    requires value * SECTOR_SIZE < WORD_LIMIT
  {
    OrW(value * SECTOR_SIZE, flag)           // value << BDRV_SECTOR_BITS | flag
  }

  /** `blk_send`. */
  function BlkRecord(name: seq<byte>, b: Blk): (bytes: seq<byte>)
    requires IsName(name) && b.sector * SECTOR_SIZE < WORD_LIMIT
  {
    Be64(Header(b.sector, BLK_MIG_FLAG_DEVICE_BLOCK)) + PutName(name) + Flatten(b.buf)
  }

  function ProgressRecord(progress: nat): (bytes: seq<byte>)
    requires progress * SECTOR_SIZE < WORD_LIMIT
  {
    Be64(Header(progress, BLK_MIG_FLAG_PROGRESS))
  }

  function EosRecord(): (bytes: seq<byte>) {
    Be64(BLK_MIG_FLAG_EOS)
  }

  // ------------------------------------------------------------ the reader

  predicate Has(flags: nat, flag: nat) {
    And(flags, flag) != 0
  }

  /** `bdrv_find`. */
  function FindDisk(ds: seq<Disk>, name: seq<byte>): (j: int)
    ensures -1 <= j < |ds|
    ensures j >= 0 ==> ds[j].name == name && forall i :: 0 <= i < j ==> ds[i].name != name
    ensures j == -1 ==> forall i :: 0 <= i < |ds| ==> ds[i].name != name
  {
    if |ds| == 0 then -1
    else if ds[0].name == name then 0
    else
      var j := FindDisk(ds[1..], name);
      if j == -1 then -1 else j + 1
  }

  /** `bdrv_write` of the first `n` sectors of a buffer. */
  function Stored(d: Disk, at: nat, n: nat, ss: seq<Sector>): (r: Disk)
    requires at + n <= |d.sectors| && n <= |ss|
    ensures |r.sectors| == |d.sectors| && r.name == d.name
    ensures forall x :: 0 <= x < |d.sectors| ==>
              r.sectors[x] == if at <= x < at + n then ss[x - at] else d.sectors[x]
  {
    d.(sectors := d.sectors[..at] + ss[..n] + d.sectors[at + n..])
  }

  function LoadBlk(ds: seq<Disk>, s: seq<byte>, at: nat, eos: bool): (o: One)
    ensures o.Cont? ==> |o.rest| <= |s|
  {
    match GetName(s)
    case Short => Fail(Truncated)
    case Got(name, rest) =>
      var j := FindDisk(ds, name);
      if j < 0 || |ds[j].sectors| == 0 then Fail(Einval)
      else if |rest| < BLOCK_SIZE then Fail(Truncated)
      else if at > |ds[j].sectors| then Fail(Eio)
      else
        var n := Min(CHUNK, |ds[j].sectors| - at);
        Cont(ds[j := Stored(ds[j], at, n, Cut(rest[..BLOCK_SIZE], CHUNK))], rest[BLOCK_SIZE..], eos)
  }

  /** One turn of the loop of `block_load`. */
  function LoadOne(ds: seq<Disk>, s: seq<byte>): (o: One)
    ensures o.Cont? ==> |o.rest| < |s|
  {
    if |s| < 8 then Fail(Truncated)
    else
      var h := GetBe64(s);
      var flags, at := AndW(h, SECTOR_MASK), Shr(h, 9);
      var eos := Has(flags, BLK_MIG_FLAG_EOS);
      if Has(flags, BLK_MIG_FLAG_DEVICE_BLOCK) then LoadBlk(ds, s[8..], at, eos)
      else if Has(flags, BLK_MIG_FLAG_PROGRESS) || eos then Cont(ds, s[8..], eos)
      else Fail(Einval)
  }

  function Replay(ds: seq<Disk>, s: seq<byte>, open: bool): Replayed
    decreases |s|
  {
    if |s| == 0 then (if open then Broken(Truncated) else Ok(ds))
    else match LoadOne(ds, s)
      case Fail(w) => Broken(w)
      case Cont(ds1, rest, eos) => Replay(ds1, rest, !eos)
  }

  /** One `block_load` call: records up to and including the end mark. */
  datatype Section = Done(ds: seq<Disk>, rest: seq<byte>) | Failed(why: Failure)

  function LoadSection(ds: seq<Disk>, s: seq<byte>): (x: Section)
    ensures x.Done? ==> |x.rest| < |s|
    decreases |s|
  {
    match LoadOne(ds, s)
    case Fail(w) => Failed(w)
    case Cont(ds1, rest, eos) => if eos then Done(ds1, rest) else LoadSection(ds1, rest)
  }

  lemma {:induction false} ReplayBySections(ds: seq<Disk>, s: seq<byte>, open: bool)
    requires |s| > 0 || open
    ensures Replay(ds, s, open) ==
            match LoadSection(ds, s)
            case Failed(w) => Broken(w)
            case Done(ds1, rest) => Replay(ds1, rest, false)
    decreases |s|
  {
    hide LoadOne;
    if |s| > 0 {
      match LoadOne(ds, s)
      case Fail(w) =>
      case Cont(ds1, rest, eos) => if !eos { ReplayBySections(ds1, rest, true); }
    } else {
      NothingToLoad(ds, s);
    }
  }

  lemma NothingToLoad(ds: seq<Disk>, s: seq<byte>)
    requires |s| < 8
    ensures LoadOne(ds, s) == Fail(Truncated)
  {
  }

  // ------------------------------------------- writer and reader agree

  lemma HeaderSplits(value: nat, flag: Word)
    requires value * SECTOR_SIZE + SECTOR_SIZE <= WORD_LIMIT && flag in {0x01, 0x02, 0x04}
    ensures And(Header(value, flag), SECTOR_MASK) == flag
    ensures Shr(Header(value, flag), 9) == value
  {
    var v := value * SECTOR_SIZE;
    assert Pow2(9) == 512;
    assert v % 512 == 0;
    OrAligned(v, flag, 9);
    SplitHeader(v, flag, 9);
    ShrIsDiv(v + flag, 9);
  }

  lemma FlagTests(flag: Word)
    requires flag in {0x01, 0x02, 0x04}
    ensures Has(flag, BLK_MIG_FLAG_DEVICE_BLOCK) <==> flag == 0x01
    ensures Has(flag, BLK_MIG_FLAG_EOS) <==> flag == 0x02
    ensures Has(flag, BLK_MIG_FLAG_PROGRESS) <==> flag == 0x04
  {
    AndPowers(flag);
  }

  lemma HeadOfRecord(ds: seq<Disk>, value: nat, flag: Word, t: seq<byte>)
    requires value * SECTOR_SIZE + SECTOR_SIZE <= WORD_LIMIT && flag in {0x01, 0x02, 0x04}
    ensures LoadOne(ds, Be64(Header(value, flag)) + t)
         == if flag == 0x01 then LoadBlk(ds, t, value, false) else Cont(ds, t, flag == 0x02)
  {
    hide LoadBlk;
    var h := Header(value, flag);
    Be64RoundTrip(h, t);
    HeaderSplits(value, flag);
    FlagTests(flag);
  }

  /** Reading a chunk record back writes exactly the chunk's sectors to the
      disk of that name. */
  lemma BlkReplay(ds: seq<Disk>, name: seq<byte>, b: Blk, j: nat, t: seq<byte>)
    requires IsName(name) && j < |ds| && FindDisk(ds, name) == j
    requires b.sector < |ds[j].sectors| && |b.buf| == CHUNK
    requires |b.got| == Min(CHUNK, |ds[j].sectors| - b.sector)
    requires b.sector * SECTOR_SIZE + SECTOR_SIZE <= WORD_LIMIT
    ensures LoadOne(ds, BlkRecord(name, b) + t)
         == Cont(ds[j := Stored(ds[j], b.sector, |b.got|, b.buf)], t, false)
  {
    hide Header, Be64, FindDisk, Flatten, Cut, LoadOne, PutName, GetName;
    var head, data := Be64(Header(b.sector, BLK_MIG_FLAG_DEVICE_BLOCK)), Flatten(b.buf);
    Regroup(head, PutName(name), data, t);
    HeadOfRecord(ds, b.sector, BLK_MIG_FLAG_DEVICE_BLOCK, PutName(name) + (data + t));
    NameRoundTrip(name, data + t);
    CutFlatten(b.buf);
    var rest := data + t;
    assert rest[..BLOCK_SIZE] == data && rest[BLOCK_SIZE..] == t;
  }

  /** The destination has a device of that name that reaches to `sector`. */
  predicate OnDestination(ds: seq<Disk>, name: seq<byte>, sector: nat) {
    exists j :: && 0 <= j < |ds| && ds[j].name == name && 0 < |ds[j].sectors| && sector <= |ds[j].sectors|
                && forall i :: 0 <= i < j ==> ds[i].name != name
  }

  /** A chunk is accepted if and only if the destination has a place for it. */
  lemma BlkExact(ds: seq<Disk>, name: seq<byte>, b: Blk, t: seq<byte>)
    requires IsName(name) && |b.buf| == CHUNK && b.sector * SECTOR_SIZE + SECTOR_SIZE <= WORD_LIMIT
    ensures LoadOne(ds, BlkRecord(name, b) + t).Cont? <==> OnDestination(ds, name, b.sector)
  {
    hide Header, Be64, FindDisk, Flatten, Cut, LoadOne, PutName, GetName;
    var head, data := Be64(Header(b.sector, BLK_MIG_FLAG_DEVICE_BLOCK)), Flatten(b.buf);
    Regroup(head, PutName(name), data, t);
    HeadOfRecord(ds, b.sector, BLK_MIG_FLAG_DEVICE_BLOCK, PutName(name) + (data + t));
    NameRoundTrip(name, data + t);
    CutFlatten(b.buf);
  }

  /** A header without any of the three flags is refused. */
  lemma NoFlagRefused(ds: seq<Disk>, value: nat, t: seq<byte>)
    requires value * SECTOR_SIZE + SECTOR_SIZE <= WORD_LIMIT
    ensures LoadOne(ds, Be64(value * SECTOR_SIZE) + t) == Fail(Einval)
  {
    var v := value * SECTOR_SIZE;
    assert Pow2(9) == 512 && v % 512 == 0;
    SplitHeader(v, 0, 9);
    Be64RoundTrip(v, t);
    AndPowers(0);
  }

  lemma ProgressReplay(ds: seq<Disk>, progress: nat, t: seq<byte>)
    requires progress * SECTOR_SIZE + SECTOR_SIZE <= WORD_LIMIT
    ensures LoadOne(ds, ProgressRecord(progress) + t) == Cont(ds, t, false)
  {
    HeadOfRecord(ds, progress, BLK_MIG_FLAG_PROGRESS, t);
  }

  lemma EosReplay(ds: seq<Disk>, t: seq<byte>)
    ensures LoadOne(ds, EosRecord() + t) == Cont(ds, t, true)
  {
    assert Header(0, BLK_MIG_FLAG_EOS) == BLK_MIG_FLAG_EOS;
    HeadOfRecord(ds, 0, BLK_MIG_FLAG_EOS, t);
  }
}
