/** Byte access on a device that reads and writes whole sectors (`bdrv_pread`
    and `bdrv_pwrite` in `block.c`). */
module ByteAccess {
  import opened Wire

  const SECTOR: nat := 512

  /** `s` with `data` at `at`. */
  function Spliced(s: seq<byte>, at: nat, data: seq<byte>): (r: seq<byte>)
    requires at + |data| <= |s|
    ensures |r| == |s|
  {
    s[..at] + data + s[at + |data|..]
  }

  lemma SplicedTwice(s: seq<byte>, at: nat, a: seq<byte>, b: seq<byte>)
    requires at + |a| + |b| <= |s|
    ensures Spliced(Spliced(s, at, a), at + |a|, b) == Spliced(s, at, a + b)
  {
  }

  /** A splice inside a sector is a splice of the sector. */
  lemma SplicedSector(s: seq<byte>, lo: nat, hi: nat, at: nat, data: seq<byte>)
    requires lo <= at && at + |data| <= hi <= |s|
    ensures Spliced(s, lo, Spliced(s[lo..hi], at - lo, data)) == Spliced(s, at, data)
  {
  }

  class Device {
    var disk: seq<byte>
    var answers: seq<int>          // results of the driver's next calls; then all succeed
    var residue: seq<byte>         // what a failing write leaves behind
    ghost var writeFailed: bool

    ghost predicate Valid()
      reads this
    {
      |disk| % SECTOR == 0
    }

    method Answer() returns (ret: int)
      modifies this`answers
      ensures old(answers) == [] ==> ret == 0
      ensures AllGood(old(answers)) ==> ret >= 0 && AllGood(answers)
    {
      ret := 0;
      if answers != [] {
        ret := answers[0];
        answers := answers[1..];
      }
    }

    /** `bdrv_read`. */
    method Read(sector: nat, nb: nat) returns (ret: int, buf: seq<byte>)
      requires Valid()
      modifies this`answers
      ensures ret >= 0 ==> SECTOR * (sector + nb) <= |disk| && buf == disk[SECTOR * sector..SECTOR * (sector + nb)]
      ensures AllGood(old(answers)) ==> AllGood(answers) && (SECTOR * (sector + nb) <= |disk| ==> ret >= 0)
    {
      if SECTOR * (sector + nb) > |disk| { return -5, []; }
      ret := Answer();
      buf := if ret >= 0 then disk[SECTOR * sector..SECTOR * (sector + nb)] else [];
    }

    /** `bdrv_write`: a failing write may leave anything in its own sectors. */
    method Write(sector: nat, buf: seq<byte>) returns (ret: int)
      requires Valid() && |buf| % SECTOR == 0
      modifies this`disk, this`answers, this`writeFailed
      ensures Valid() && |disk| == |old(disk)|
      ensures ret >= 0 ==> SECTOR * sector + |buf| <= |disk| && disk == Spliced(old(disk), SECTOR * sector, buf)
      ensures ret >= 0 ==> writeFailed == old(writeFailed)
      ensures ret < 0 ==>
                || disk == old(disk)
                || (writeFailed && SameOutside(old(disk), disk, SECTOR * sector, SECTOR * sector + |buf|))
      ensures AllGood(old(answers)) ==> AllGood(answers) && (SECTOR * sector + |buf| <= |disk| ==> ret >= 0)
      ensures old(writeFailed) ==> writeFailed
    {
      if SECTOR * sector + |buf| > |disk| { return -5; }
      ret := Answer();
      if ret >= 0 {
        disk := Spliced(disk, SECTOR * sector, buf);
      } else {
        writeFailed := true;
        if |residue| == |buf| { disk := Spliced(disk, SECTOR * sector, residue); }
      }
    }

    /** `bdrv_pread`: exactly the bytes [offset, offset + count). */
    method Pread(offset: nat, count1: nat) returns (ret: int, buf: seq<byte>)
      requires Valid()
      modifies this`answers
      ensures ret >= 0 ==> ret == count1 == |buf|
      ensures ret >= 0 && count1 > 0 ==> offset + count1 <= |disk| && buf == disk[offset..offset + count1]
      ensures AllGood(old(answers)) && offset + count1 <= |disk| ==> ret == count1
    {
      hide AllGood, Fetched;
      var count, sector := count1, offset / SECTOR;
      var len := Head(offset, count);        // (512 - offset) & 511, cut to count
      buf := [];
      FetchedNone(disk, offset);
      if len > 0 {
        ret, buf := ReadPart(sector, offset % SECTOR, len, offset, 0, []);
        if ret < 0 { return; }
        count := count - len;
        if count == 0 {
          FetchedAll(disk, offset, count1, buf);
          return count1, buf;
        }
        sector := sector + 1;
      }
      var nb := count / SECTOR;
      if nb > 0 {
        var tmp;
        ret, tmp := Read(sector, nb);
        if ret < 0 { return; }
        FetchedMore(disk, offset, len, buf, SECTOR * nb, tmp);
        buf := buf + tmp;
        sector, count := sector + nb, count - SECTOR * nb;
      }
      if count > 0 {
        ret, buf := ReadPart(sector, 0, count, offset, count1 - count, buf);
        if ret < 0 { return; }
      }
      FetchedAll(disk, offset, count1, buf);
      ret := count1;
    }

    /** `len` bytes at `at` of one sector, behind the `k` read so far. */
    method ReadPart(sector: nat, at: nat, len: nat, ghost offset: nat, ghost k: nat, sofar: seq<byte>)
      returns (ret: int, buf: seq<byte>)
      requires Valid() && len > 0 && at + len <= SECTOR
      requires offset + k == SECTOR * sector + at && Fetched(disk, offset, k, sofar)
      modifies this`answers
      ensures ret >= 0 ==> Fetched(disk, offset, k + len, buf)
      ensures AllGood(old(answers)) ==> AllGood(answers) && (offset + k + len <= |disk| ==> ret >= 0)
    {
      hide AllGood, Fetched;
      InLastSector(sector, at + len, |disk|);
      var tmp;
      ret, tmp := Read(sector, 1);
      buf := sofar;
      if ret < 0 { return; }
      SliceOfSlice(disk, SECTOR * sector, SECTOR * (sector + 1), at, at + len);
      FetchedMore(disk, offset, k, sofar, len, tmp[at..at + len]);
      buf := sofar + tmp[at..at + len];
    }

    /** Read, change and write back a part of one sector. */
    method WriteEdge(sector: nat, at: nat, part: seq<byte>) returns (ret: int)
      requires Valid() && at + |part| <= SECTOR
      modifies this`disk, this`answers, this`writeFailed
      ensures Valid() && |disk| == |old(disk)|
      ensures ret >= 0 ==> SECTOR * (sector + 1) <= |disk| && disk == Spliced(old(disk), SECTOR * sector + at, part)
      ensures ret >= 0 ==> writeFailed == old(writeFailed)
      ensures ret < 0 ==>
                || disk == old(disk)
                || (writeFailed && SameOutside(old(disk), disk, SECTOR * sector, SECTOR * sector + SECTOR))
      ensures AllGood(old(answers)) ==> AllGood(answers) && (SECTOR * (sector + 1) <= |disk| ==> ret >= 0)
      ensures old(writeFailed) ==> writeFailed
    {
      hide AllGood;
      var tmp;
      ret, tmp := Read(sector, 1);
      if ret < 0 { return; }
      SplicedSector(disk, SECTOR * sector, SECTOR * (sector + 1), SECTOR * sector + at, part);
      tmp := Spliced(tmp, at, part);
      ret := Write(sector, tmp);
    }

    /** `bdrv_pwrite`: changes exactly the bytes [offset, offset + count).  On an
        error no byte outside them changes, unless the driver spoiled the
        sectors of the write that failed. */
    method Pwrite(offset: nat, data: seq<byte>) returns (ret: int)
      requires Valid() && !writeFailed
      modifies this`disk, this`answers, this`writeFailed
      ensures Valid() && |disk| == |old(disk)|
      ensures ret >= 0 ==> ret == |data|
      ensures ret >= 0 && data != [] ==> offset + |data| <= |disk| && disk == Spliced(old(disk), offset, data)
      ensures data == [] ==> disk == old(disk)
      ensures ret < 0 && !writeFailed ==> SameOutside(old(disk), disk, offset, offset + |data|)
      ensures ret < 0 ==> SameOutside(old(disk), disk, offset - offset % SECTOR, SectorEnd(offset + |data|))
      ensures AllGood(old(answers)) && offset + |data| <= |disk| ==> ret == |data|
    {
      hide AllGood, SameOutside, Done, SectorEnd;
      ghost var was := disk;
      DoneNone(was, offset, data);
      var count, sector := |data|, offset / SECTOR;
      var len := Head(offset, count);
      if len > 0 {
        ret := PwriteHead(sector, offset, data, len);
        if ret < 0 { return; }
        count := count - len;
        if count == 0 {
          DoneAll(was, disk, offset, data);
          return |data|;
        }
        sector := sector + 1;
      }
      var nb := count / SECTOR;
      if nb > 0 {
        ret := PwriteWhole(sector, offset, data, len, nb, was);
        if ret < 0 { return; }
        sector, count := sector + nb, count - SECTOR * nb;
      }
      if count > 0 {
        ret := PwriteTail(sector, offset, data, count, was);
        if ret < 0 { return; }
      }
      DoneAll(was, disk, offset, data);
      ret := |data|;
    }

    /** The first, partial sector. */
    method PwriteHead(sector: nat, offset: nat, data: seq<byte>, len: nat) returns (ret: int)
      requires Valid() && len == Head(offset, |data|) > 0 && sector == offset / SECTOR && !writeFailed
      modifies this`disk, this`answers, this`writeFailed
      ensures Valid() && |disk| == |old(disk)|
      ensures ret >= 0 ==> Done(old(disk), disk, offset, data, len) && !writeFailed
      ensures ret < 0 && !writeFailed ==> SameOutside(old(disk), disk, offset, offset + |data|)
      ensures ret < 0 ==> SameOutside(old(disk), disk, offset - offset % SECTOR, SectorEnd(offset + |data|))
      ensures AllGood(old(answers)) ==> AllGood(answers) && (offset + |data| <= |disk| ==> ret >= 0)
    {
      hide AllGood, SameOutside, Done, SectorEnd;
      ghost var was := disk;
      DoneNone(was, offset, data);
      InLastSector(sector, offset % SECTOR + len, |disk|);
      ret := WriteEdge(sector, offset % SECTOR, data[..len]);
      if ret < 0 {
        Failed(was, was, disk, offset, data, 0, SECTOR * sector, SECTOR);
        return;
      }
      DoneMore(was, was, disk, offset, data, 0, len);
    }

    /** The whole sectors in the middle. */
    method PwriteWhole(sector: nat, offset: nat, data: seq<byte>, k: nat, nb: nat, ghost was: seq<byte>)
      returns (ret: int)
      requires Valid() && nb > 0 && k + SECTOR * nb <= |data| && SECTOR * sector == offset + k
      requires |was| == |disk| && Done(was, disk, offset, data, k) && !writeFailed
      modifies this`disk, this`answers, this`writeFailed
      ensures Valid() && |disk| == |old(disk)|
      ensures ret >= 0 ==> Done(was, disk, offset, data, k + SECTOR * nb) && !writeFailed
      ensures ret < 0 && !writeFailed ==> SameOutside(was, disk, offset, offset + |data|)
      ensures ret < 0 ==> SameOutside(was, disk, offset - offset % SECTOR, SectorEnd(offset + |data|))
      ensures AllGood(old(answers)) ==> AllGood(answers) && (offset + |data| <= |disk| ==> ret >= 0)
    {
      hide AllGood, SameOutside, Done, SectorEnd;
      ghost var mid := disk;
      ret := Write(sector, data[k..k + SECTOR * nb]);
      if ret < 0 {
        Failed(was, mid, disk, offset, data, k, SECTOR * sector, SECTOR * nb);
        return;
      }
      DoneMore(was, mid, disk, offset, data, k, SECTOR * nb);
    }

    /** The last, partial sector. */
    method PwriteTail(sector: nat, offset: nat, data: seq<byte>, count: nat, ghost was: seq<byte>) returns (ret: int)
      requires Valid() && 0 < count < SECTOR && count <= |data| && SECTOR * sector == offset + (|data| - count)
      requires |was| == |disk| && Done(was, disk, offset, data, |data| - count) && !writeFailed
      modifies this`disk, this`answers, this`writeFailed
      ensures Valid() && |disk| == |old(disk)|
      ensures ret >= 0 ==> Done(was, disk, offset, data, |data|)
      ensures ret < 0 && !writeFailed ==> SameOutside(was, disk, offset, offset + |data|)
      ensures ret < 0 ==> SameOutside(was, disk, offset - offset % SECTOR, SectorEnd(offset + |data|))
      ensures AllGood(old(answers)) && offset + |data| <= |disk| ==> ret >= 0
    {
      hide AllGood, SameOutside, Done, SectorEnd;
      InLastSector(sector, count, |disk|);
      ghost var mid := disk;
      ret := WriteEdge(sector, 0, data[|data| - count..]);
      if ret < 0 {
        Failed(was, mid, disk, offset, data, |data| - count, SECTOR * sector, SECTOR);
        return;
      }
      DoneMore(was, mid, disk, offset, data, |data| - count, count);
    }
  }

  /** The end of the last sector that holds a byte before `x`. */
  function SectorEnd(x: nat): (r: nat)
    ensures x <= r < x + SECTOR && r % SECTOR == 0
    ensures forall s :: 0 <= s && SECTOR * s < x ==> SECTOR * s + SECTOR <= r
  {
    (x + SECTOR - 1) / SECTOR * SECTOR
  }

  /** The first `k` bytes of `data` are written at `offset`, nothing else. */
  ghost predicate Done(was: seq<byte>, now: seq<byte>, offset: nat, data: seq<byte>, k: nat)
    requires k <= |data|
  {
    if k == 0 then now == was else offset + k <= |was| && now == Spliced(was, offset, data[..k])
  }

  lemma DoneNone(was: seq<byte>, offset: nat, data: seq<byte>)
    ensures Done(was, was, offset, data, 0)
    ensures SameOutside(was, was, offset, offset + |data|)
    ensures SameOutside(was, was, offset - offset % SECTOR, SectorEnd(offset + |data|))
  {
  }

  lemma DoneAll(was: seq<byte>, now: seq<byte>, offset: nat, data: seq<byte>)
    requires Done(was, now, offset, data, |data|)
    ensures data == [] ==> now == was
    ensures data != [] ==> offset + |data| <= |was| && now == Spliced(was, offset, data)
  {
    assert data[..|data|] == data;
  }

  lemma DoneMore(was: seq<byte>, mid: seq<byte>, now: seq<byte>, offset: nat, data: seq<byte>, k: nat, n: nat)
    requires k + n <= |data| && n > 0 && Done(was, mid, offset, data, k)
    requires offset + k + n <= |mid| && now == Spliced(mid, offset + k, data[k..k + n])
    ensures Done(was, now, offset, data, k + n)
  {
    assert data[..k] + data[k..k + n] == data[..k + n];
    assert data[..0] == [];
    if k > 0 { SplicedTwice(was, offset, data[..k], data[k..k + n]); }
  }

  /** A step that failed after the first `k` bytes. */
  lemma Failed(was: seq<byte>, mid: seq<byte>, now: seq<byte>, offset: nat, data: seq<byte>, k: nat, at: nat, n: nat)
    requires k < |data| && Done(was, mid, offset, data, k)
    requires offset - offset % SECTOR <= at && at + n <= SectorEnd(offset + |data|)
    requires now == mid || SameOutside(mid, now, at, at + n)
    ensures now == mid ==> SameOutside(was, now, offset, offset + |data|)
    ensures SameOutside(was, now, offset - offset % SECTOR, SectorEnd(offset + |data|))
  {
  }

  /** The bytes before the first sector boundary. */
  function Head(offset: nat, count: nat): (len: nat)
    ensures len <= count && len < SECTOR && (len < count ==> (offset + len) % SECTOR == 0)
    ensures len > 0 ==> offset % SECTOR + len <= SECTOR
    ensures len < count ==> offset + len == SECTOR * (offset / SECTOR + if len > 0 then 1 else 0)
  {
    var len := (SECTOR - offset) % SECTOR;
    if len > count then count else len
  }

  /** `buf` is the first `k` bytes from `offset` on. */
  ghost predicate Fetched(disk: seq<byte>, offset: nat, k: nat, buf: seq<byte>) {
    |buf| == k && (k > 0 ==> offset + k <= |disk| && buf == disk[offset..offset + k])
  }

  lemma SliceOfSlice(s: seq<byte>, lo: nat, hi: nat, a: nat, b: nat)
    requires lo <= hi <= |s| && a <= b <= hi - lo
    ensures s[lo..hi][a..b] == s[lo + a..lo + b]
  {
    var t, u := s[lo..hi][a..b], s[lo + a..lo + b];
    forall i | 0 <= i < b - a ensures t[i] == u[i] {
      assert t[i] == s[lo..hi][a + i] == s[lo + a + i];
    }
  }

  lemma FetchedNone(disk: seq<byte>, offset: nat)
    ensures Fetched(disk, offset, 0, [])
  {
  }

  lemma FetchedAll(disk: seq<byte>, offset: nat, k: nat, buf: seq<byte>)
    requires Fetched(disk, offset, k, buf)
    ensures |buf| == k && (k > 0 ==> offset + k <= |disk| && buf == disk[offset..offset + k])
  {
  }

  lemma FetchedMore(disk: seq<byte>, offset: nat, k: nat, buf: seq<byte>, n: nat, piece: seq<byte>)
    requires Fetched(disk, offset, k, buf) && n > 0 && offset + k + n <= |disk|
    requires piece == disk[offset + k..offset + k + n]
    ensures Fetched(disk, offset, k + n, buf + piece)
  {
    if k > 0 { assert disk[offset..offset + k] + piece == disk[offset..offset + k + n]; }
  }

  lemma InLastSector(sector: nat, count: nat, size: nat)
    requires 0 < count <= SECTOR && size % SECTOR == 0
    ensures SECTOR * sector + count <= size ==> SECTOR * (sector + 1) <= size
  {
  }

  ghost predicate AllGood(answers: seq<int>) {
    forall i :: 0 <= i < |answers| ==> answers[i] >= 0
  }

  /** Only bytes in [lo, hi) may differ. */
  ghost predicate SameOutside(a: seq<byte>, b: seq<byte>, lo: nat, hi: nat) {
    |a| == |b| && forall x :: 0 <= x < |a| && !(lo <= x < hi) ==> a[x] == b[x]
  }
}
