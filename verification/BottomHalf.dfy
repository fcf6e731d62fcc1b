/** Bottom halves (`async.c`): a global linked list that callbacks may change
    while it is being walked, to any depth of nesting. */
module BottomHalf {
  import opened BottomHalfSpec

  class QEMUBH {
    ghost const id: nat
    var scheduled: bool
    var idle: bool
    var deleted: bool
    var next: QEMUBH?

    constructor (after: QEMUBH?, ghost number: nat)
      ensures !scheduled && !idle && !deleted && next == after && id == number
    {
      scheduled, idle, deleted, next, id := false, false, false, after, number;
    }
  }

  ghost function NodeOf(b: QEMUBH): (n: Node)
    reads b`scheduled, b`idle, b`deleted
  {
    Node(b.id, b.scheduled, b.idle, b.deleted)
  }

  /** The flags along the chain, oldest first. */
  ghost function NodesOf(list: seq<QEMUBH>): (r: seq<Node>)
    reads list`scheduled, list`idle, list`deleted
    ensures |r| == |list|
    ensures forall i :: 0 <= i < |list| ==> r[i] == NodeOf(list[|list| - 1 - i])
  {
    if list == [] then [] else NodesOf(list[1..]) + [NodeOf(list[0])]
  }

  /** `list` is the chain that starts at `p`, without repetition. */
  ghost predicate Chain(p: QEMUBH?, list: seq<QEMUBH>)
    reads list
  {
    && p == Head(list)
    && (forall i :: 0 <= i < |list| ==> list[i].next == At(list, i + 1))
    && (forall i, j :: 0 <= i < j < |list| ==> list[i] != list[j])
  }

  function At(list: seq<QEMUBH>, i: nat): (p: QEMUBH?) {
    if i < |list| then list[i] else null
  }

  function Head(list: seq<QEMUBH>): (p: QEMUBH?) {
    At(list, 0)
  }

  /** The `m`-th bottom half counted from the oldest, null for none. */
  function Oldest(list: seq<QEMUBH>, m: nat): (p: QEMUBH?)
    requires m <= |list|
  {
    At(list, |list| - m)
  }

  /** `b` ends with `a`: only the front has grown. */
  predicate Suffix(a: seq<QEMUBH>, b: seq<QEMUBH>) {
    |a| <= |b| && b[|b| - |a|..] == a
  }

  lemma SuffixTrans(a: seq<QEMUBH>, b: seq<QEMUBH>, c: seq<QEMUBH>)
    requires Suffix(a, b) && Suffix(b, c)
    ensures Suffix(a, c)
  {
    assert c[|c| - |a|..] == b[|b| - |a|..];
  }

  lemma SuffixIn(a: seq<QEMUBH>, b: seq<QEMUBH>, x: QEMUBH)
    requires Suffix(a, b) && x in a
    ensures x in b
  {
    var i :| 0 <= i < |a| && a[i] == x;
    assert b[|b| - |a| + i] == x;
  }

  /** Growth at the front leaves the count from the oldest alone. */
  lemma SuffixOldest(a: seq<QEMUBH>, b: seq<QEMUBH>, m: nat)
    requires Suffix(a, b) && m <= |a|
    ensures m <= |b| && Oldest(a, m) == Oldest(b, m)
  {
    if m > 0 {
      assert b[|b| - |a|..][|a| - m] == b[|b| - m];
    }
  }

  lemma ChainNext(p: QEMUBH?, list: seq<QEMUBH>, m: nat)
    requires Chain(p, list) && m <= |list| && Oldest(list, m) != null
    ensures 0 < m && list[|list| - m] == Oldest(list, m) && list[|list| - m].next == Oldest(list, m - 1)
  {
  }

  class BhContext {
    var firstBh: QEMUBH?
    var nesting: nat
    ghost var list: seq<QEMUBH>        // the linked bottom halves, newest first
    ghost var created: nat
    ghost var log: seq<Event>

    ghost predicate Valid()
      reads this, list
    {
      Chain(firstBh, list)
    }

    ghost function Abs(): (w: World)
      reads this, list
      ensures |w.nodes| == |list|
    {
      World(NodesOf(list), created, log)
    }

    ghost function Nodes(): (s: set<QEMUBH>)
      reads this`list
    {
      set b | b in list
    }

    constructor ()
      ensures Valid() && nesting == 0 && Abs() == World([], 0, [])
    {
      firstBh, nesting, list, created, log := null, 0, [], 0, [];
    }

    /** The list only grows, at the front, and nothing linked moves. */
    twostate predicate Grown()
      reads this
    {
      && Suffix(old(list), list)
      && (forall b :: b in list && b !in old(list) ==> fresh(b))
    }

    /** `qemu_bh_new`. */
    method New()
      requires Valid()
      modifies this`firstBh, this`list, this`created
      ensures Valid() && Grown() && Abs() == Created(old(Abs())) && |list| == |old(list)| + 1
      ensures fresh(list[0]) && !list[0].scheduled && !list[0].deleted
    {
      var bh := new QEMUBH(firstBh, created);
      firstBh := bh;
      list := [bh] + list;
      created := created + 1;
      assert list[1..] == old(list);
      hide NodesOf, Chain;
      NodesCons(list);
      ChainCons(bh, old(firstBh), old(list));
    }

    /** `qemu_bh_schedule`, without the wake-up of the running CPU. */
    method Schedule(bh: QEMUBH, ghost n: nat)
      requires Valid() && n < |list| && list[n] == bh
      modifies this`log, bh`scheduled, bh`idle
      ensures Valid() && Abs() == SetScheduled(old(Abs()), |list| - 1 - n, false)
      ensures bh.scheduled && (old(bh.scheduled) || !bh.idle)
    {
      hide NodesOf;
      if bh.scheduled { return; }
      bh.scheduled := true;
      bh.idle := false;
      log := log + [Scheduled(bh.id)];
      assert NodesOf(list) == old(NodesOf(list))[|list| - 1 - n := NodeOf(bh)];
    }

    /** `qemu_bh_schedule_idle`. */
    method ScheduleIdle(bh: QEMUBH, ghost n: nat)
      requires Valid() && n < |list| && list[n] == bh
      modifies this`log, bh`scheduled, bh`idle
      ensures Valid() && Abs() == SetScheduled(old(Abs()), |list| - 1 - n, true)
      ensures bh.scheduled && (old(bh.scheduled) || bh.idle)
    {
      hide NodesOf;
      if bh.scheduled { return; }
      bh.scheduled := true;
      bh.idle := true;
      log := log + [Scheduled(bh.id)];
      assert NodesOf(list) == old(NodesOf(list))[|list| - 1 - n := NodeOf(bh)];
    }

    /** `qemu_bh_cancel`. */
    method Cancel(bh: QEMUBH, ghost n: nat)
      requires Valid() && n < |list| && list[n] == bh
      modifies this`log, bh`scheduled
      ensures Valid() && Abs() == SetCancelled(old(Abs()), |list| - 1 - n) && !bh.scheduled
    {
      hide NodesOf;
      bh.scheduled := false;
      log := log + [Cancelled(bh.id)];
      assert NodesOf(list) == old(NodesOf(list))[|list| - 1 - n := NodeOf(bh)];
    }

    /** `qemu_bh_delete`: only marked; a poll unlinks it. */
    method Delete(bh: QEMUBH, ghost n: nat)
      requires Valid() && n < |list| && list[n] == bh
      modifies this`log, bh`scheduled, bh`deleted
      ensures Valid() && Abs() == SetDeleted(old(Abs()), |list| - 1 - n) && bh.deleted && !bh.scheduled
    {
      hide NodesOf;
      bh.scheduled := false;
      bh.deleted := true;
      log := log + [Deleted(bh.id)];
      assert NodesOf(list) == old(NodesOf(list))[|list| - 1 - n := NodeOf(bh)];
    }

    /** How a callback gets at a linked bottom half: the `n`-th of the chain. */
    method Find(n: nat) returns (bh: QEMUBH?)
      requires Valid()
      ensures bh == At(list, n)
    {
      bh := firstBh;
      var i := 0;
      while bh != null && i < n
        invariant 0 <= i <= |list| && i <= n && bh == At(list, i)
        decreases n - i
      {
        bh := bh.next;
        i := i + 1;
      }
    }

    /** One action, of a callback or of the program around it. */
    method Do(act: Act)
      requires Valid()
      modifies this, Nodes()
      ensures Valid() && nesting == old(nesting) && (forall b :: b in list && b !in old(list) ==> fresh(b))
      ensures nesting > 0 ==> Grown() && Abs() == Perform(old(Abs()), act)
      ensures nesting == 0 ==> Abs() == Outer(old(Abs()), act)
      ensures act.New? ==> |list| == |old(list)| + 1 && fresh(list[0]) && !list[0].scheduled && !list[0].deleted
      ensures !act.New? && !act.Poll? ==>
                && list == old(list)
                && (act.which < |list| ==>
                      var bh := list[act.which];
                      && (act.Schedule? ==> bh.scheduled && (old(bh.scheduled) || !bh.idle))
                      && (act.ScheduleIdle? ==> bh.scheduled && (old(bh.scheduled) || bh.idle))
                      && (act.Cancel? ==> !bh.scheduled)
                      && (act.Delete? ==> bh.deleted && !bh.scheduled))
      decreases act
    {
      hide Chain, Suffix, NodesOf, SetScheduled, SetCancelled, SetDeleted, Created, Walk, Alive;
      SuffixRefl(list);
      log := log + [Did(act)];
      match act
      case New => New();
      case Schedule(n) =>
        var bh := Find(n);
        if bh != null { Schedule(bh, n); }
      case ScheduleIdle(n) =>
        var bh := Find(n);
        if bh != null { ScheduleIdle(bh, n); }
      case Cancel(n) =>
        var bh := Find(n);
        if bh != null { Cancel(bh, n); }
      case Delete(n) =>
        var bh := Find(n);
        if bh != null { Delete(bh, n); }
      case Poll(plan) =>
        var ret := PollBhs(plan);
    }

    /** `bh->cb(bh->opaque)`: never on a deleted bottom half. */
    method RunCallback(bh: QEMUBH, cb: Callback)
      requires Valid() && nesting > 0 && bh in list && !bh.deleted
      modifies this, Nodes()
      ensures Valid() && Grown() && nesting == old(nesting)
      ensures Abs() == PerformAll(Logged(old(Abs()), Called(bh.id, cb)), cb, |cb.acts|)
      decreases cb
    {
      hide Chain, Suffix, NodesOf, Perform;
      SuffixRefl(list);
      log := log + [Called(bh.id, cb)];
      ghost var w := Abs();
      var j := 0;
      while j < |cb.acts|
        invariant 0 <= j <= |cb.acts| && Valid() && nesting == old(nesting) && Grown()
        invariant Abs() == PerformAll(w, cb, j)
      {
        label before:
        assert forall b :: b in list ==> b in old(list) || fresh(b);
        Do(cb.acts[j]);
        SuffixTrans(old(list), old@before(list), list);
        SuffixAll(old(list), old@before(list));
        j := j + 1;
      }
    }

    /** The flags of the `n`-th bottom half, which is about to run. */
    method Start(bh: QEMUBH, ghost n: nat) returns (busy: bool)
      requires Valid() && n < |list| && list[n] == bh
      modifies bh`scheduled, bh`idle
      ensures Valid() && busy == !old(bh.idle)
      ensures NodesOf(list) == old(NodesOf(list)[|list| - 1 - n := NodeOf(bh).(scheduled := false, idle := false)])
    {
      hide NodesOf;
      bh.scheduled := false;
      busy := !bh.idle;
      bh.idle := false;
    }

    /** A pending bottom half, the `n`-th of the chain, is run as the `k`-th of a
        walk. */
    method Visit(bh: QEMUBH, plan: Plan, k: nat, ghost n: nat) returns (busy: bool)
      requires Valid() && nesting > 0 && n < |list| && list[n] == bh && !bh.deleted
      modifies this, Nodes()
      ensures Valid() && Grown() && nesting == old(nesting) && busy == !old(bh.idle)
      ensures Abs() == Visited(old(Abs()), plan, |old(list)| - 1 - n, k)
      decreases plan, 0
    {
      hide Chain, Suffix, NodesOf, PerformAll;
      busy := Start(bh, n);
      if k < |plan.callbacks| {
        RunCallback(bh, plan.callbacks[k]);
      } else {
        SuffixRefl(list);
        log := log + [Called(bh.id, Callback([]))];
      }
    }

    /** One turn of the walk.  `next` is read before the callback runs; the node
        it names is still linked afterwards. */
    method Turn(bh: QEMUBH, plan: Plan, k: nat, ghost m: nat)
      returns (next: QEMUBH?, ran: nat, busy: bool)
      requires Valid() && nesting > 0 && m <= |list| && bh == Oldest(list, m)
      modifies this, Nodes()
      ensures Valid() && Grown() && nesting == old(nesting)
      ensures 0 < m <= |list| && next == Oldest(list, m - 1)
      ensures Turned(old(Abs()), Abs(), plan, m, k, ran, busy)
      decreases plan, 1
    {
      hide Chain, Suffix, NodesOf, Walk, Visited;
      SuffixRefl(list);
      ChainNext(firstBh, list, m);
      WalkTurn(Abs(), plan, m, k);
      next, ran, busy := bh.next, 0, false;
      if !bh.deleted && bh.scheduled {
        busy := Visit(bh, plan, k, |list| - m);
        ran := 1;
        SuffixOldest(old(list), list, m - 1);
      }
    }

    /** The walk over the list: nothing is unlinked while `nesting` is not 0. */
    method WalkList(plan: Plan) returns (ret: int)
      requires Valid() && nesting > 0
      modifies this, Nodes()
      ensures Valid() && Grown() && nesting == old(nesting)
      ensures (Abs(), ret == 1) == Walk(old(Abs()), plan, |old(list)|, 0) && 0 <= ret <= 1
      decreases plan, 2
    {
      hide Chain, Suffix, NodesOf, Walk, Turned, Toward;
      ghost var w, m := Abs(), |list|;
      ghost var goal := Walk(w, plan, m, 0);
      ret := 0;
      SuffixRefl(list);
      var bh, k := firstBh, 0;
      ChainHead(firstBh, list);
      TowardEnds(goal, w, plan, m, 0, 0);
      while bh != null
        invariant Valid() && Grown() && nesting == old(nesting)
        invariant 0 <= m <= |list| && bh == Oldest(list, m) && k >= 0 && 0 <= ret <= 1
        invariant w == Abs() && Toward(goal, w, plan, m, k, ret)
        decreases m
      {
        ghost var was := list;
        var next, ran, busy := Turn(bh, plan, k, m);
        TowardStep(goal, w, Abs(), plan, m, k, ran, busy, ret);
        if busy { ret := 1; }
        SuffixTrans(old(list), was, list);
        SuffixAll(old(list), was);
        w, m := Abs(), m - 1;
        bh, k := next, k + ran;
      }
      TowardEnds(goal, w, plan, m, k, ret);
    }

    /** `qemu_bh_poll`. */
    method PollBhs(plan: Plan) returns (ret: int)
      requires Valid()
      modifies this, Nodes()
      ensures Valid() && nesting == old(nesting)
      ensures forall b :: b in list && b !in old(list) ==> fresh(b)
      ensures nesting > 0 ==> Grown() && Abs() == Walk(old(Abs()), plan, |old(list)|, 0).0
      ensures nesting == 0 ==> Abs() == Polled(old(Abs()), plan)
      ensures ret == if Walk(old(Abs()), plan, |old(list)|, 0).1 then 1 else 0
      ensures AllHandled(old(Abs()), Abs())
      ensures nesting == 0 ==>
                && (forall b :: b in list ==> !b.deleted)
                && (forall b :: b in old(list) && !b.deleted ==> b in list)
      decreases plan
    {
      hide Chain, Suffix, AliveList, Alive, NodesOf, Walk, HandledSince;
      PollHandles(Abs(), plan);
      nesting := nesting + 1;
      ret := WalkList(plan);
      nesting := nesting - 1;
      SuffixAll(old(list), list);
      if nesting == 0 {
        AliveNodes(list);
        RemoveDeleted();
      }
    }

    /** Any program over the bottom halves, from outside every callback. */
    method Run(acts: seq<Act>)
      requires Valid() && nesting == 0
      modifies this, Nodes()
      ensures Valid() && nesting == 0 && Abs() == Programme(old(Abs()), acts)
      ensures Good(old(Abs())) ==> Good(Abs())
    {
      hide Chain, NodesOf, Good, Outer;
      ghost var w := Abs();
      var j := 0;
      while j < |acts|
        invariant 0 <= j <= |acts| && Valid() && nesting == 0
        invariant forall b :: b in list ==> b in old(list) || fresh(b)
        invariant Abs() == Programme(w, acts[..j])
      {
        Do(acts[j]);
        j := j + 1;
        assert acts[..j][..j - 1] == acts[..j - 1];
      }
      assert acts[..j] == acts;
      if Good(w) { ProgrammeGood(w, acts); }
    }

    /** The second loop of `qemu_bh_poll`; `prev` stands for the link `bhp`
        points to, null for `first_bh`. */
    method RemoveDeleted()
      requires Valid()
      modifies this`firstBh, this`list, Nodes()`next
      ensures Valid() && list == old(AliveList(list))
    {
      hide Chain, AliveList, NodesOf;
      ChainHead(firstBh, list);
      var prev: QEMUBH? := null;
      var bh := firstBh;
      ghost var done: seq<QEMUBH>, rest := [], list;
      assert [] + rest == list && [] + AliveList(rest) == AliveList(rest);
      while bh != null
        invariant Valid() && list == done + rest && bh == Head(rest)
        invariant prev == if done == [] then null else done[|done| - 1]
        invariant forall b :: b in list ==> b in old(list)
        invariant done + AliveList(rest) == old(AliveList(list))
        decreases |rest|
      {
        var next := bh.next;
        NextIs(firstBh, list, done, rest);
        AliveStep(done, rest);
        if bh.deleted {
          Unlink(prev, bh, done, rest);
        } else {
          prev := bh;
          done := done + [bh];
        }
        bh := next;
        rest := rest[1..];
      }
      AliveNone(done, rest);
    }

    /** `*bhp = bh->next`. */
    method Unlink(prev: QEMUBH?, bh: QEMUBH, ghost done: seq<QEMUBH>, ghost rest: seq<QEMUBH>)
      requires Valid() && list == done + rest && rest != [] && bh == rest[0]
      requires prev == if done == [] then null else done[|done| - 1]
      modifies this`firstBh, this`list, Nodes()`next
      ensures Valid() && list == done + rest[1..]
    {
      NextIs(firstBh, list, done, rest);
      ghost var l0, l1, n := list, done + rest[1..], |done|;
      assert prev != null ==> prev == l0[n - 1];
      if prev == null { firstBh := bh.next; } else { prev.next := bh.next; }
      list := l1;
      assert forall i :: 0 <= i < |l0| && i != n - 1 ==> l0[i].next == At(l0, i + 1);
      Dropped(l0, l1, done, rest);
      forall i | 0 <= i < |l1| ensures l1[i].next == At(l1, i + 1) {
        if i >= n {
          assert l0[i + 1].next == At(l0, i + 2);
        } else if i < n - 1 {
          assert l0[i].next == At(l0, i + 1);
        }
      }
    }
  }

  lemma Dropped(l0: seq<QEMUBH>, l1: seq<QEMUBH>, done: seq<QEMUBH>, rest: seq<QEMUBH>)
    requires l0 == done + rest && rest != [] && l1 == done + rest[1..]
    requires forall i, j :: 0 <= i < j < |l0| ==> l0[i] != l0[j]
    ensures forall i, j :: 0 <= i < j < |l1| ==> l1[i] != l1[j]
    ensures forall b :: b in l1 ==> b in l0
    ensures forall i :: 0 <= i < |done| ==> l1[i] == l0[i]
    ensures forall i :: |done| <= i < |l1| ==> l1[i] == l0[i + 1]
  {
    var n := |done|;
    forall i, j | 0 <= i < j < |l1| ensures l1[i] != l1[j] {
      var p, q := if i < n then i else i + 1, if j < n then j else j + 1;
      assert l1[i] == l0[p] && l1[j] == l0[q];
    }
  }

  lemma NextIs(p: QEMUBH?, list: seq<QEMUBH>, done: seq<QEMUBH>, rest: seq<QEMUBH>)
    requires Chain(p, list) && list == done + rest && rest != []
    ensures rest[0].next == Head(rest[1..])
  {
    assert list[|done|] == rest[0] && At(list, |done| + 1) == Head(rest[1..]);
  }

  /** The bottom halves not marked for deletion, in order. */
  ghost function AliveList(list: seq<QEMUBH>): (r: seq<QEMUBH>)
    reads list`deleted
    ensures forall b :: b in r ==> b in list && !b.deleted
    ensures forall b :: b in list && !b.deleted ==> b in r
  {
    if list == [] then []
    else (if list[0].deleted then [] else [list[0]]) + AliveList(list[1..])
  }

  lemma AliveNone(done: seq<QEMUBH>, rest: seq<QEMUBH>)
    requires Head(rest) == null
    ensures done + AliveList(rest) == done == done + rest
  {
  }

  lemma AliveStep(done: seq<QEMUBH>, rest: seq<QEMUBH>)
    requires rest != []
    ensures rest[0].deleted ==> done + AliveList(rest) == done + AliveList(rest[1..])
    ensures !rest[0].deleted ==> done + AliveList(rest) == (done + [rest[0]]) + AliveList(rest[1..])
    ensures done + rest == (done + [rest[0]]) + rest[1..]
  {
    AliveUnfold(rest);
    hide AliveList;
    Regrouped(done, rest[0], AliveList(rest[1..]));
    assert rest == [rest[0]] + rest[1..];
    Regrouped(done, rest[0], rest[1..]);
  }

  lemma AliveUnfold(rest: seq<QEMUBH>)
    requires rest != []
    ensures AliveList(rest) == if rest[0].deleted then AliveList(rest[1..]) else [rest[0]] + AliveList(rest[1..])
  {
  }

  lemma Regrouped(a: seq<QEMUBH>, b: QEMUBH, c: seq<QEMUBH>)
    ensures a + ([b] + c) == (a + [b]) + c
  {
  }

  lemma NodesCons(list: seq<QEMUBH>)
    requires list != []
    ensures NodesOf(list) == NodesOf(list[1..]) + [NodeOf(list[0])]
  {
  }

  lemma {:induction false} AliveNodes(list: seq<QEMUBH>)
    ensures NodesOf(AliveList(list)) == Alive(NodesOf(list))
  {
    if list != [] {
      AliveNodes(list[1..]);
      hide NodesOf, Alive;
      NodesCons(list);
      AliveSnoc(NodesOf(list[1..]), NodeOf(list[0]));
      AliveUnfold(list);
      hide AliveList;
      if !list[0].deleted {
        NodesCons([list[0]] + AliveList(list[1..]));
      }
    }
  }

  lemma SuffixRefl(list: seq<QEMUBH>)
    ensures Suffix(list, list)
  {
    assert list[0..] == list;
  }

  lemma SuffixAll(a: seq<QEMUBH>, b: seq<QEMUBH>)
    requires Suffix(a, b)
    ensures forall x :: x in a ==> x in b
  {
    forall x | x in a ensures x in b { SuffixIn(a, b, x); }
  }

  lemma ChainCons(b: QEMUBH, p: QEMUBH?, list: seq<QEMUBH>)
    requires Chain(p, list) && b !in list && b.next == p
    ensures Chain(b, [b] + list)
  {
  }

  lemma ChainHead(p: QEMUBH?, list: seq<QEMUBH>)
    requires Chain(p, list)
    ensures p == Head(list)
  {
  }
}
