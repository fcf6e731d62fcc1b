/** `bdrv_commit` in `block.c`: copying an overlay into its backing image.  A
    sector the overlay holds shadows the backing one. */
module Commit {
  import opened BlkMigModel

  const COMMIT_BUF_SECTORS: nat := 2048
  const EIO := 5

  datatype Option<T> = None | Some(value: T)

  function ZeroSector(): (s: Sector) {
    seq(SECTOR_SIZE, _ => 0)
  }

  /** What a reader of the overlay sees at sector `x`; a backing image that is
      shorter reads as zeros. */
  function Seen(overlay: seq<Option<Sector>>, base: seq<Sector>, x: nat): (s: Sector)
    requires x < |overlay|
  {
    if overlay[x].Some? then overlay[x].value
    else if x < |base| then base[x] else ZeroSector()
  }

  /** Two states look the same through the overlay. */
  ghost predicate SameView(o1: seq<Option<Sector>>, b1: seq<Sector>, o2: seq<Option<Sector>>, b2: seq<Sector>) {
    |o1| == |o2| && forall x :: 0 <= x < |o1| ==> Seen(o1, b1, x) == Seen(o2, b2, x)
  }

  /** Below `limit`, what the overlay holds the backing image holds too. */
  ghost predicate Copied(overlay: seq<Option<Sector>>, base: seq<Sector>, limit: nat) {
    forall x :: 0 <= x < limit && x < |overlay| && overlay[x].Some? ==> x < |base| && base[x] == overlay[x].value
  }

  /** Only sectors the overlay shadows have changed. */
  ghost predicate OnlyShadowed(overlay: seq<Option<Sector>>, was: seq<Sector>, now: seq<Sector>) {
    |now| == |was| && forall x :: 0 <= x < |was| && now[x] != was[x] ==> x < |overlay| && overlay[x].Some?
  }

  predicate Uniform(overlay: seq<Option<Sector>>, lo: nat, hi: nat) {
    hi <= |overlay| && forall x, y :: lo <= x < hi && lo <= y < hi ==> (overlay[x].Some? <==> overlay[y].Some?)
  }

  /** A change of shadowed sectors is not seen. */
  lemma ShadowedUnseen(overlay: seq<Option<Sector>>, was: seq<Sector>, now: seq<Sector>)
    requires OnlyShadowed(overlay, was, now)
    ensures SameView(overlay, was, overlay, now)
  {
    forall x | 0 <= x < |overlay| ensures Seen(overlay, was, x) == Seen(overlay, now, x) {
      if x < |was| && now[x] != was[x] { assert overlay[x].Some?; }
    }
  }

  /** Once copied, any part of the overlay can go. */
  lemma EmptiedUnseen(overlay: seq<Option<Sector>>, base: seq<Sector>, left: seq<Option<Sector>>)
    requires Copied(overlay, base, |overlay|) && |left| == |overlay|
    requires forall x :: 0 <= x < |left| ==> left[x] == overlay[x] || left[x] == None
    ensures SameView(overlay, base, left, base)
  {
  }

  function SeenRange(overlay: seq<Option<Sector>>, base: seq<Sector>, sector: nat, n: nat): (buf: seq<Sector>)
    requires sector + n <= |overlay|
    ensures |buf| == n && forall k :: 0 <= k < n ==> buf[k] == Seen(overlay, base, sector + k)
  {
    if n == 0 then [] else SeenRange(overlay, base, sector, n - 1) + [Seen(overlay, base, sector + n - 1)]
  }

  function Leftover(residue: nat -> Sector, sector: nat, n: nat): (buf: seq<Sector>)
    ensures |buf| == n
  {
    if n == 0 then [] else Leftover(residue, sector, n - 1) + [residue(sector + n - 1)]
  }

  /** The overlay after `bdrv_make_empty`: nothing, or some of it if that failed. */
  function Remaining(overlay: seq<Option<Sector>>, failed: bool, keeps: nat -> bool): (r: seq<Option<Sector>>)
    ensures |r| == |overlay| && forall x :: 0 <= x < |r| ==> r[x] == None || (failed && r[x] == overlay[x])
  {
    seq(|overlay|, x requires 0 <= x < |overlay| => if failed && keeps(x) then overlay[x] else None)
  }

  /** Every read and write to come succeeds. */
  ghost predicate AllFine(answers: seq<int>) {
    forall i :: 0 <= i < |answers| ==> answers[i] == 0
  }

  /** The backing image has room for every sector of the overlay. */
  ghost predicate Fits(overlay: seq<Option<Sector>>, base: seq<Sector>) {
    forall x :: 0 <= x < |overlay| && overlay[x].Some? ==> x < |base|
  }

  class Image {
    var overlay: seq<Option<Sector>>
    var base: seq<Sector>
    const runs: nat -> nat         // how long a run `bdrv_is_allocated` reports at a sector
    var answers: seq<int>          // results of reads and writes; then all succeed
    const residue: nat -> Sector   // what a failing write leaves in a sector

    constructor (o: seq<Option<Sector>>, b: seq<Sector>, r: nat -> nat, a: seq<int>, res: nat -> Sector)
      ensures overlay == o && base == b
    {
      overlay, base, runs, answers, residue := o, b, r, a, res;
    }

    /** `bdrv_is_allocated`: a uniform run of 1 to `wanted` sectors. */
    method IsAllocated(sector: nat, wanted: nat) returns (shadows: bool, n: nat)
      requires sector < |overlay| && wanted >= 1
      ensures 1 <= n <= wanted && Uniform(overlay, sector, sector + n)
      ensures shadows <==> overlay[sector].Some?
    {
      shadows := overlay[sector].Some?;
      n := 1;
      while n < wanted && n < runs(sector) && sector + n < |overlay| && overlay[sector + n].Some? == shadows
        invariant 1 <= n <= wanted && sector + n <= |overlay|
        invariant forall x :: sector <= x < sector + n ==> overlay[x].Some? == shadows
      {
        n := n + 1;
      }
    }

    method Answer() returns (ret: int)
      modifies this`answers
      ensures AllFine(old(answers)) ==> ret == 0 && AllFine(answers)
    {
      ret := 0;
      if answers != [] {
        ret := answers[0];
        answers := answers[1..];
      }
    }

    /** `bdrv_read` of the overlay. */
    method Read(sector: nat, n: nat) returns (ret: int, buf: seq<Sector>)
      requires sector + n <= |overlay|
      modifies this`answers
      ensures |buf| == n && (ret == 0 ==> forall k :: 0 <= k < n ==> buf[k] == Seen(overlay, base, sector + k))
      ensures AllFine(old(answers)) ==> ret == 0 && AllFine(answers)
    {
      ret := Answer();
      buf := SeenRange(overlay, base, sector, n);
    }

    /** `bdrv_write` of the backing image; a failing one may leave anything in
        its own sectors. */
    method WriteBase(sector: nat, buf: seq<Sector>) returns (ret: int)
      modifies this`base, this`answers
      ensures |base| == |old(base)|
      ensures forall x :: 0 <= x < |base| && !(sector <= x < sector + |buf|) ==> base[x] == old(base)[x]
      ensures ret == 0 ==> sector + |buf| <= |base| && forall k :: 0 <= k < |buf| ==> base[sector + k] == buf[k]
      ensures AllFine(old(answers)) ==> AllFine(answers) && (sector + |buf| <= |base| ==> ret == 0)
    {
      if sector + |buf| > |base| { return -EIO; }
      ret := Answer();
      var left := if ret == 0 then buf else Leftover(residue, sector, |buf|);
      base := base[..sector] + left + base[sector + |buf|..];
    }

    /** One run of the copy loop. */
    method CopyRun(sector: nat, n: nat) returns (ok: bool)
      requires 1 <= n && Uniform(overlay, sector, sector + n) && overlay[sector].Some? && Copied(overlay, base, sector)
      modifies this`base, this`answers
      ensures OnlyShadowed(overlay, old(base), base)
      ensures ok ==> Copied(overlay, base, sector + n)
      ensures AllFine(old(answers)) ==> AllFine(answers) && (Fits(overlay, old(base)) ==> ok)
    {
      var ret, buf := Read(sector, n);
      if ret != 0 { return false; }
      assert overlay[sector + n - 1].Some?;
      ret := WriteBase(sector, buf);
      assert forall x :: sector <= x < sector + n ==> overlay[x].Some?;
      if ret != 0 { return false; }
      forall x | sector <= x < sector + n ensures x < |base| && base[x] == overlay[x].value {
        assert base[sector + (x - sector)] == buf[x - sector];
      }
      ok := true;
    }

    /** `bdrv_commit`, from the copy loop on.  What a reader sees never changes:
        not at a failure, not at any turn, and not when the overlay is emptied
        after a full pass. */
    method CommitAll(canEmpty: bool, emptied: int, keeps: nat -> bool) returns (ret: int)
      modifies this`overlay, this`base, this`answers
      ensures SameView(old(overlay), old(base), overlay, base)
      ensures OnlyShadowed(old(overlay), old(base), base)
      ensures (ret == -EIO && overlay == old(overlay)) || Copied(old(overlay), base, |overlay|)
      ensures ret == 0 && canEmpty ==> forall x :: 0 <= x < |overlay| ==> overlay[x] == None
      ensures AllFine(old(answers)) && Fits(old(overlay), old(base)) ==>
                Copied(old(overlay), base, |overlay|) && ret == if canEmpty then emptied else 0
    {
      hide Copied, OnlyShadowed, SameView, Uniform, AllFine, Fits;
      ghost var fine := AllFine(answers) && Fits(overlay, base);
      ghost var b0 := base;
      NoChange(overlay, base);
      var sector := 0;
      while sector < |overlay|
        invariant 0 <= sector <= |overlay| && overlay == old(overlay)
        invariant OnlyShadowed(overlay, b0, base) && Copied(overlay, base, sector)
        invariant SameView(overlay, b0, overlay, base)
        invariant fine ==> AllFine(answers) && Fits(overlay, base)
      {
        var shadows, n := IsAllocated(sector, COMMIT_BUF_SECTORS);
        UniformBound(overlay, sector, sector + n);
        if shadows {
          ghost var mid := base;
          var ok := CopyRun(sector, n);
          ShadowedTwice(overlay, b0, mid, base);
          FitsStill(overlay, mid, base);
          ShadowedUnseen(overlay, b0, base);
          if !ok { return -EIO; }
        } else {
          SkippedRun(overlay, base, sector, n);
        }
        sector := sector + n;
      }
      ret := 0;
      if canEmpty {
        ret := emptied;
        ghost var full := overlay;
        overlay := Remaining(overlay, emptied != 0, keeps);
        FullyCopied(full, base, sector);
        EmptiedUnseen(full, base, overlay);
        ViewTwice(full, b0, full, base, overlay, base);
      }
    }
  }

  lemma FitsStill(overlay: seq<Option<Sector>>, a: seq<Sector>, b: seq<Sector>)
    requires OnlyShadowed(overlay, a, b)
    ensures Fits(overlay, a) ==> Fits(overlay, b)
  {
  }

  lemma FullyCopied(overlay: seq<Option<Sector>>, base: seq<Sector>, sector: nat)
    requires Copied(overlay, base, sector) && sector >= |overlay|
    ensures Copied(overlay, base, |overlay|)
  {
  }

  lemma NoChange(overlay: seq<Option<Sector>>, base: seq<Sector>)
    ensures Copied(overlay, base, 0) && OnlyShadowed(overlay, base, base) && SameView(overlay, base, overlay, base)
  {
  }

  lemma UniformBound(overlay: seq<Option<Sector>>, lo: nat, hi: nat)
    requires Uniform(overlay, lo, hi)
    ensures hi <= |overlay|
  {
  }

  lemma ShadowedTwice(overlay: seq<Option<Sector>>, a: seq<Sector>, b: seq<Sector>, c: seq<Sector>)
    requires OnlyShadowed(overlay, a, b) && OnlyShadowed(overlay, b, c)
    ensures OnlyShadowed(overlay, a, c)
  {
    forall x | 0 <= x < |a| && c[x] != a[x] ensures x < |overlay| && overlay[x].Some? {
      assert b[x] != a[x] || c[x] != b[x];
    }
  }

  lemma SkippedRun(overlay: seq<Option<Sector>>, base: seq<Sector>, sector: nat, n: nat)
    requires n >= 1 && Uniform(overlay, sector, sector + n) && !overlay[sector].Some? && Copied(overlay, base, sector)
    ensures Copied(overlay, base, sector + n)
  {
  }

  lemma ViewTwice(o1: seq<Option<Sector>>, b1: seq<Sector>, o2: seq<Option<Sector>>, b2: seq<Sector>,
                  o3: seq<Option<Sector>>, b3: seq<Sector>)
    requires SameView(o1, b1, o2, b2) && SameView(o2, b2, o3, b3)
    ensures SameView(o1, b1, o3, b3)
  {
  }
}
