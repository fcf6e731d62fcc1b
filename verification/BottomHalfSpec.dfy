/** Bottom halves (`async.c`) on values: what a poll does to the list, whatever its
    callbacks do, to any depth of nesting. */
module BottomHalfSpec {

  /** A linked bottom half; `id` says which one it is, in order of creation. */
  datatype Node = Node(id: nat, scheduled: bool, idle: bool, deleted: bool)

  // What a callback does: any finite program over the linked bottom halves,
  // numbered from the newest.  A nested poll carries what each callback it runs
  // does, in turn.

  datatype Act =
    | New
    | Schedule(which: nat)
    | ScheduleIdle(which: nat)
    | Cancel(which: nat)
    | Delete(which: nat)
    | Poll(plan: Plan)

  datatype Callback = Callback(acts: seq<Act>)

  datatype Plan = Plan(callbacks: seq<Callback>)

  datatype Event =
    | Did(act: Act)                    // an act was performed
    | Scheduled(id: nat)               // it went from idle to scheduled
    | Cancelled(id: nat)
    | Deleted(id: nat)
    | Called(id: nat, cb: Callback)    // its callback was started

  /** The list, oldest first, the number of bottom halves ever created, and what
      has happened. */
  datatype World = World(nodes: seq<Node>, created: nat, log: seq<Event>)

  /** What the k-th callback of a poll does; nothing past the end of the plan. */
  function Nth(plan: Plan, k: nat): (cb: Callback) {
    if k < |plan.callbacks| then plan.callbacks[k] else Callback([])
  }

  predicate Pending(n: Node) {
    n.scheduled && !n.deleted
  }

  function Logged(w: World, e: Event): (z: World) {
    w.(log := w.log + [e])
  }

  function Set(w: World, p: nat, n: Node, e: Event): (z: World)
    requires p < |w.nodes|
  {
    World(w.nodes[p := n], w.created, w.log + [e])
  }

  // ------------------------------------------------------------ single acts

  /** `qemu_bh_new`. */
  function Created(w: World): (z: World) {
    World(w.nodes + [Node(w.created, false, false, false)], w.created + 1, w.log)
  }

  /** `qemu_bh_schedule` and `qemu_bh_schedule_idle`. */
  function SetScheduled(w: World, p: nat, idle: bool): (z: World)
    requires p < |w.nodes|
  {
    var n := w.nodes[p];
    if n.scheduled then w else Set(w, p, n.(scheduled := true, idle := idle), Scheduled(n.id))
  }

  /** `qemu_bh_cancel`. */
  function SetCancelled(w: World, p: nat): (z: World)
    requires p < |w.nodes|
  {
    Set(w, p, w.nodes[p].(scheduled := false), Cancelled(w.nodes[p].id))
  }

  /** `qemu_bh_delete`: only marked; a poll unlinks it. */
  function SetDeleted(w: World, p: nat): (z: World)
    requires p < |w.nodes|
  {
    Set(w, p, w.nodes[p].(scheduled := false, deleted := true), Deleted(w.nodes[p].id))
  }

  /** The flags of a bottom half whose callback is about to run. */
  function Started(w: World, p: nat, cb: Callback): (z: World)
    requires p < |w.nodes|
  {
    Set(w, p, w.nodes[p].(scheduled := false, idle := false), Called(w.nodes[p].id, cb))
  }

  // --------------------------------------------------------- acts and polls

  function Perform(w: World, a: Act): (z: World)
    ensures |z.nodes| >= |w.nodes|
    decreases a
  {
    var v := Logged(w, Did(a));
    match a
    case New => Created(v)
    case Schedule(n) => if n < |w.nodes| then SetScheduled(v, |w.nodes| - 1 - n, false) else v
    case ScheduleIdle(n) => if n < |w.nodes| then SetScheduled(v, |w.nodes| - 1 - n, true) else v
    case Cancel(n) => if n < |w.nodes| then SetCancelled(v, |w.nodes| - 1 - n) else v
    case Delete(n) => if n < |w.nodes| then SetDeleted(v, |w.nodes| - 1 - n) else v
    case Poll(plan) => Walk(v, plan, |w.nodes|, 0).0
  }

  /** The first `n` acts of a callback. */
  function PerformAll(w: World, cb: Callback, n: nat): (z: World)
    requires n <= |cb.acts|
    ensures |z.nodes| >= |w.nodes|
    decreases cb, n
  {
    if n == 0 then w else Perform(PerformAll(w, cb, n - 1), cb.acts[n - 1])
  }

  /** The loop of `qemu_bh_poll` over the `i` oldest bottom halves, newest of them
      first, and whether it has run one that was not idle. */
  function Walk(w: World, plan: Plan, i: nat, k: nat): (r: (World, bool))
    requires i <= |w.nodes|
    ensures |r.0.nodes| >= |w.nodes|
    decreases plan, i
  {
    if i == 0 then (w, false)
    else if !Pending(w.nodes[i - 1]) then Walk(w, plan, i - 1, k)
    else
      var cb := Nth(plan, k);
      var v := Started(w, i - 1, cb);
      var u := if k < |plan.callbacks| then PerformAll(v, cb, |cb.acts|) else v;
      var (z, busy) := Walk(u, plan, i - 1, k + 1);
      (z, busy || !w.nodes[i - 1].idle)
  }

  function Alive(nodes: seq<Node>): (r: seq<Node>)
    ensures forall n :: n in r ==> n in nodes && !n.deleted
    ensures forall n :: n in nodes && !n.deleted ==> n in r
  {
    if nodes == [] then []
    else Alive(nodes[..|nodes| - 1]) + if nodes[|nodes| - 1].deleted then [] else [nodes[|nodes| - 1]]
  }

  lemma AliveSnoc(nodes: seq<Node>, n: Node)
    ensures Alive(nodes + [n]) == if n.deleted then Alive(nodes) else Alive(nodes) + [n]
  {
    assert (nodes + [n])[..|nodes|] == nodes;
  }

  /** `qemu_bh_poll` when no other poll is under way: the walk, then the deleted
      bottom halves are unlinked. */
  function Polled(w: World, plan: Plan): (z: World) {
    var z := Walk(w, plan, |w.nodes|, 0).0;
    z.(nodes := Alive(z.nodes))
  }

  // ------------------------------------------------ what every act and poll keeps

  /** The event takes bottom half `id` out of the pending ones. */
  predicate Handles(e: Event, id: nat) {
    match e
    case Called(i, _) => i == id
    case Cancelled(i) => i == id
    case Deleted(i) => i == id
    case _ => false
  }

  predicate HandledSince(w: World, z: World, id: nat) {
    exists i :: |w.log| <= i < |z.log| && Handles(z.log[i], id)
  }

  /** The list only grows, nothing linked moves, once deleted is deleted for good,
      and what is pending stays so until it is run, cancelled or deleted. */
  predicate Keeps(w: World, z: World) {
    && |w.nodes| <= |z.nodes| && w.log <= z.log && w.created <= z.created
    && forall p :: 0 <= p < |w.nodes| ==>
         && z.nodes[p].id == w.nodes[p].id
         && (w.nodes[p].deleted ==> z.nodes[p].deleted)
         && (Pending(w.nodes[p]) ==> Pending(z.nodes[p]) || HandledSince(w, z, w.nodes[p].id))
  }

  lemma KeepsTrans(w: World, v: World, z: World)
    requires Keeps(w, v) && Keeps(v, z)
    ensures Keeps(w, z)
  {
    hide Pending;
    forall p | 0 <= p < |w.nodes| && Pending(w.nodes[p]) && !Pending(z.nodes[p])
      ensures HandledSince(w, z, w.nodes[p].id)
    {
      if Pending(v.nodes[p]) {
        var i :| |v.log| <= i < |z.log| && Handles(z.log[i], w.nodes[p].id);
        assert Handles(z.log[i], w.nodes[p].id);
      } else {
        var i :| |w.log| <= i < |v.log| && Handles(v.log[i], w.nodes[p].id);
        assert Handles(z.log[i], w.nodes[p].id);
      }
    }
  }

  /** One node changed and one event logged. */
  lemma SetKeeps(w: World, p: nat, n: Node, e: Event)
    requires p < |w.nodes| && n.id == w.nodes[p].id && (w.nodes[p].deleted ==> n.deleted)
    requires Pending(w.nodes[p]) ==> Pending(n) || Handles(e, n.id)
    ensures Keeps(w, Set(w, p, n, e))
  {
    hide Pending;
    var z := Set(w, p, n, e);
    assert z.log[|w.log|] == e;
  }

  lemma {:induction false} PerformKeeps(w: World, a: Act)
    ensures Keeps(w, Perform(w, a))
    decreases a
  {
    hide Keeps, Walk;
    var v := Logged(w, Did(a));
    LoggedKeeps(w, Did(a));
    SameKeeps(v);
    match a {
      case New => CreatedKeeps(v);
      case Poll(plan) => WalkKeeps(v, plan, |w.nodes|, 0);
      case _ => if a.which < |w.nodes| { FlagsKeep(v, |w.nodes| - 1 - a.which); }
    }
    KeepsTrans(w, v, Perform(w, a));
  }

  lemma SameKeeps(w: World)
    ensures Keeps(w, w)
  {
  }

  lemma LoggedKeeps(w: World, e: Event)
    ensures Keeps(w, Logged(w, e))
  {
  }

  lemma CreatedKeeps(w: World)
    ensures Keeps(w, Created(w))
  {
  }

  lemma FlagsKeep(w: World, p: nat)
    requires p < |w.nodes|
    ensures Keeps(w, SetScheduled(w, p, false)) && Keeps(w, SetScheduled(w, p, true))
    ensures Keeps(w, SetCancelled(w, p)) && Keeps(w, SetDeleted(w, p))
  {
    hide Keeps;
    var n := w.nodes[p];
    SameKeeps(w);
    if !n.scheduled {
      SetKeeps(w, p, n.(scheduled := true, idle := false), Scheduled(n.id));
      SetKeeps(w, p, n.(scheduled := true, idle := true), Scheduled(n.id));
    }
    SetKeeps(w, p, n.(scheduled := false), Cancelled(n.id));
    SetKeeps(w, p, n.(scheduled := false, deleted := true), Deleted(n.id));
  }

  lemma {:induction false} PerformAllKeeps(w: World, cb: Callback, n: nat)
    requires n <= |cb.acts|
    ensures Keeps(w, PerformAll(w, cb, n))
    decreases cb, n
  {
    hide Keeps, Perform;
    if n == 0 {
      SameKeeps(w);
    } else {
      PerformAllKeeps(w, cb, n - 1);
      PerformKeeps(PerformAll(w, cb, n - 1), cb.acts[n - 1]);
      KeepsTrans(w, PerformAll(w, cb, n - 1), PerformAll(w, cb, n));
    }
  }

  /** What a pending bottom half goes through when a walk reaches it. */
  function Visited(w: World, plan: Plan, p: nat, k: nat): (u: World)
    requires p < |w.nodes|
    ensures |u.nodes| >= |w.nodes|
  {
    var cb := Nth(plan, k);
    var v := Started(w, p, cb);
    if k < |plan.callbacks| then PerformAll(v, cb, |cb.acts|) else v
  }

  lemma WalkStep(w: World, plan: Plan, i: nat, k: nat)
    requires 0 < i <= |w.nodes| && Pending(w.nodes[i - 1])
    ensures Walk(w, plan, i, k).0 == Walk(Visited(w, plan, i - 1, k), plan, i - 1, k + 1).0
    ensures Walk(w, plan, i, k).1 ==
            (Walk(Visited(w, plan, i - 1, k), plan, i - 1, k + 1).1 || !w.nodes[i - 1].idle)
  {
    hide PerformAll;
  }

  /** One turn of the loop. */
  lemma WalkTurn(w: World, plan: Plan, i: nat, k: nat)
    requires 0 < i <= |w.nodes|
    ensures var n := w.nodes[i - 1];
            if Pending(n) then
              var r := Walk(Visited(w, plan, i - 1, k), plan, i - 1, k + 1);
              Walk(w, plan, i, k) == (r.0, r.1 || !n.idle)
            else Walk(w, plan, i, k) == Walk(w, plan, i - 1, k)
  {
    if Pending(w.nodes[i - 1]) {
      WalkStep(w, plan, i, k);
    }
  }

  /** A turn from `w` to `z` leaves the rest of the walk to do. */
  predicate Turned(w: World, z: World, plan: Plan, i: nat, k: nat, ran: nat, busy: bool) {
    && 0 < i <= |w.nodes| && i <= |z.nodes|
    && var r := Walk(z, plan, i - 1, k + ran);
       Walk(w, plan, i, k) == (r.0, busy || r.1)
  }

  /** What is left of the walk ends in `goal`; `ret` is what it has found. */
  predicate Toward(goal: (World, bool), w: World, plan: Plan, i: nat, k: nat, ret: int) {
    i <= |w.nodes| && var r := Walk(w, plan, i, k); goal == (r.0, ret == 1 || r.1)
  }

  lemma TowardStep(goal: (World, bool), w: World, z: World, plan: Plan, i: nat, k: nat, ran: nat, busy: bool,
                   ret: int)
    requires Toward(goal, w, plan, i, k, ret) && Turned(w, z, plan, i, k, ran, busy)
    ensures Toward(goal, z, plan, i - 1, k + ran, if busy then 1 else ret)
  {
    hide Walk;
  }

  lemma TowardEnds(goal: (World, bool), w: World, plan: Plan, i: nat, k: nat, ret: int)
    requires i <= |w.nodes|
    ensures goal == Walk(w, plan, i, k) && ret != 1 ==> Toward(goal, w, plan, i, k, ret)
    ensures i == 0 && Toward(goal, w, plan, i, k, ret) ==> goal == (w, ret == 1)
  {
  }

  lemma WalkDone(w: World, plan: Plan, k: nat)
    ensures Walk(w, plan, 0, k) == (w, false)
  {
  }

  lemma {:induction false} VisitKeeps(w: World, plan: Plan, p: nat, k: nat)
    requires p < |w.nodes|
    ensures Keeps(w, Visited(w, plan, p, k))
    ensures var u := Visited(w, plan, p, k);
            |w.log| < |u.log| && u.log[|w.log|] == Called(w.nodes[p].id, Nth(plan, k))
    decreases plan, 0
  {
    hide PerformAll;
    var cb := Nth(plan, k);
    var v := Started(w, p, cb);
    SetKeeps(w, p, w.nodes[p].(scheduled := false, idle := false), Called(w.nodes[p].id, cb));
    if k < |plan.callbacks| {
      PerformAllKeeps(v, cb, |cb.acts|);
      KeepsTrans(w, v, Visited(w, plan, p, k));
    }
  }

  lemma {:induction false} WalkKeeps(w: World, plan: Plan, i: nat, k: nat)
    requires i <= |w.nodes|
    ensures Keeps(w, Walk(w, plan, i, k).0)
    decreases plan, 1, i
  {
    hide Keeps, Pending, Visited;
    if i == 0 {
      SameKeeps(w);
    } else if !Pending(w.nodes[i - 1]) {
      WalkKeeps(w, plan, i - 1, k);
    } else {
      var u := Visited(w, plan, i - 1, k);
      WalkStep(w, plan, i, k);
      VisitKeeps(w, plan, i - 1, k);
      WalkKeeps(u, plan, i - 1, k + 1);
      KeepsTrans(w, u, Walk(w, plan, i, k).0);
    }
  }

  /** Every bottom half that is pending when a poll starts has been run, cancelled
      or deleted when it ends, whatever the callbacks do in between. */
  lemma {:induction false} WalkHandles(w: World, plan: Plan, i: nat, k: nat, p: nat)
    requires p < i <= |w.nodes| && Pending(w.nodes[p])
    ensures HandledSince(w, Walk(w, plan, i, k).0, w.nodes[p].id)
    decreases i
  {
    hide Pending, Visited;
    if !Pending(w.nodes[i - 1]) {
      WalkHandles(w, plan, i - 1, k, p);
    } else {
      var id, u := w.nodes[p].id, Visited(w, plan, i - 1, k);
      var z := Walk(u, plan, i - 1, k + 1).0;
      WalkStep(w, plan, i, k);
      VisitKeeps(w, plan, i - 1, k);
      WalkKeeps(u, plan, i - 1, k + 1);
      if p == i - 1 {
        assert Handles(z.log[|w.log|], id);
      } else if Pending(u.nodes[p]) {
        WalkHandles(u, plan, i - 1, k + 1, p);
        var j :| |u.log| <= j < |z.log| && Handles(z.log[j], id);
      } else {
        var j :| |w.log| <= j < |u.log| && Handles(u.log[j], id);
        assert Handles(z.log[j], id);
      }
    }
  }

  /** What was pending in `w` has been run, cancelled or deleted in `z`. */
  predicate AllHandled(w: World, z: World) {
    forall p :: 0 <= p < |w.nodes| && Pending(w.nodes[p]) ==> HandledSince(w, z, w.nodes[p].id)
  }

  lemma PollHandles(w: World, plan: Plan)
    ensures AllHandled(w, Walk(w, plan, |w.nodes|, 0).0) && AllHandled(w, Polled(w, plan))
  {
    hide Pending, Walk, Alive;
    var z := Walk(w, plan, |w.nodes|, 0).0;
    forall p | 0 <= p < |w.nodes| && Pending(w.nodes[p])
      ensures HandledSince(w, z, w.nodes[p].id) && HandledSince(w, Polled(w, plan), w.nodes[p].id)
    {
      WalkHandles(w, plan, |w.nodes|, 0, p);
      var j :| |w.log| <= j < |z.log| && Handles(z.log[j], w.nodes[p].id);
      assert Handles(Polled(w, plan).log[j], w.nodes[p].id);
    }
  }

  // ------------------------------------------- what no run of any program does

  function Runs(log: seq<Event>, id: nat): (n: nat) {
    if log == [] then 0
    else Runs(log[..|log| - 1], id) + var e := log[|log| - 1]; if e.Called? && e.id == id then 1 else 0
  }

  function Schedules(log: seq<Event>, id: nat): (n: nat) {
    if log == [] then 0
    else Schedules(log[..|log| - 1], id) + if log[|log| - 1] == Scheduled(id) then 1 else 0
  }

  /** Nothing runs after it was deleted. */
  predicate NoneAfterDelete(log: seq<Event>) {
    forall i, j :: 0 <= i < j < |log| && log[i].Deleted? && log[j].Called? ==> log[i].id != log[j].id
  }

  /** Nothing has run more often than it was scheduled, and less often while it
      is scheduled. */
  ghost predicate Balanced(w: World) {
    && (forall d: nat :: Runs(w.log, d) <= Schedules(w.log, d))
    && (forall p :: 0 <= p < |w.nodes| && w.nodes[p].scheduled ==>
          Runs(w.log, w.nodes[p].id) < Schedules(w.log, w.nodes[p].id))
  }

  /** Each bottom half is linked once, in order of creation, and is marked if it
      was deleted. */
  predicate Ordered(w: World) {
    && (forall p, q :: 0 <= p < q < |w.nodes| ==> w.nodes[p].id < w.nodes[q].id)
    && (forall p :: 0 <= p < |w.nodes| ==> w.nodes[p].id < w.created)
    && (forall i :: 0 <= i < |w.log| && w.log[i].Deleted? ==> w.log[i].id < w.created)
    && (forall i, p :: 0 <= i < |w.log| && 0 <= p < |w.nodes| && w.log[i] == Deleted(w.nodes[p].id) ==>
          w.nodes[p].deleted)
  }

  ghost predicate Good(w: World) {
    Ordered(w) && NoneAfterDelete(w.log) && Balanced(w)
  }

  lemma CountStep(log: seq<Event>, e: Event, id: nat)
    ensures Runs(log + [e], id) == Runs(log, id) + if e.Called? && e.id == id then 1 else 0
    ensures Schedules(log + [e], id) == Schedules(log, id) + if e == Scheduled(id) then 1 else 0
  {
    assert (log + [e])[..|log|] == log;
  }

  lemma SetOrdered(w: World, p: nat, n: Node, e: Event)
    requires Ordered(w) && p < |w.nodes| && n.id == w.nodes[p].id && (w.nodes[p].deleted ==> n.deleted)
    requires e.Deleted? ==> e.id == n.id && n.deleted
    ensures Ordered(Set(w, p, n, e))
  {
  }

  lemma SetBalanced(w: World, p: nat, n: Node, e: Event)
    requires Ordered(w) && Balanced(w) && p < |w.nodes| && n.id == w.nodes[p].id
    requires n.scheduled && !w.nodes[p].scheduled ==> e == Scheduled(n.id)
    requires e.Called? ==> e.id == n.id && w.nodes[p].scheduled && !n.scheduled
    ensures Balanced(Set(w, p, n, e))
  {
    hide Runs, Schedules;
    var z := Set(w, p, n, e);
    forall d: nat ensures Runs(z.log, d) <= Schedules(z.log, d) {
      CountStep(w.log, e, d);
    }
    forall q | 0 <= q < |z.nodes| && z.nodes[q].scheduled
      ensures Runs(z.log, z.nodes[q].id) < Schedules(z.log, z.nodes[q].id)
    {
      CountStep(w.log, e, z.nodes[q].id);
    }
  }

  lemma SetGood(w: World, p: nat, n: Node, e: Event)
    requires Good(w) && p < |w.nodes| && n.id == w.nodes[p].id && (w.nodes[p].deleted ==> n.deleted)
    requires e.Deleted? ==> e.id == n.id && n.deleted
    requires n.scheduled && !w.nodes[p].scheduled ==> e == Scheduled(n.id)
    requires e.Called? ==> e.id == n.id && Pending(w.nodes[p]) && !n.scheduled
    ensures Good(Set(w, p, n, e))
  {
    SetOrdered(w, p, n, e);
    SetBalanced(w, p, n, e);
    hide Balanced;
  }

  lemma LoggedGood(w: World, a: Act)
    requires Good(w)
    ensures Good(Logged(w, Did(a)))
  {
    hide Runs, Schedules;
    forall d: nat
      ensures Runs(w.log + [Did(a)], d) == Runs(w.log, d) && Schedules(w.log + [Did(a)], d) == Schedules(w.log, d)
    {
      CountStep(w.log, Did(a), d);
    }
  }

  lemma CreatedGood(w: World)
    requires Good(w)
    ensures Good(Created(w))
  {
    hide Runs, Schedules;
  }

  lemma FlagsGood(w: World, p: nat)
    requires Good(w) && p < |w.nodes|
    ensures Good(SetScheduled(w, p, false)) && Good(SetScheduled(w, p, true))
    ensures Good(SetCancelled(w, p)) && Good(SetDeleted(w, p))
  {
    hide Good;
    var n := w.nodes[p];
    if !n.scheduled {
      SetGood(w, p, n.(scheduled := true, idle := false), Scheduled(n.id));
      SetGood(w, p, n.(scheduled := true, idle := true), Scheduled(n.id));
    }
    SetGood(w, p, n.(scheduled := false), Cancelled(n.id));
    SetGood(w, p, n.(scheduled := false, deleted := true), Deleted(n.id));
  }

  lemma {:induction false} PerformGood(w: World, a: Act)
    requires Good(w)
    ensures Good(Perform(w, a))
    decreases a
  {
    hide Good, Walk;
    var v := Logged(w, Did(a));
    LoggedGood(w, a);
    match a {
      case New => CreatedGood(v);
      case Poll(plan) => WalkGood(v, plan, |w.nodes|, 0);
      case _ => if a.which < |w.nodes| { FlagsGood(v, |w.nodes| - 1 - a.which); }
    }
  }

  lemma {:induction false} PerformAllGood(w: World, cb: Callback, n: nat)
    requires n <= |cb.acts| && Good(w)
    ensures Good(PerformAll(w, cb, n))
    decreases cb, n
  {
    hide Good, Perform;
    if n > 0 {
      PerformAllGood(w, cb, n - 1);
      PerformGood(PerformAll(w, cb, n - 1), cb.acts[n - 1]);
    }
  }

  lemma {:induction false} WalkGood(w: World, plan: Plan, i: nat, k: nat)
    requires i <= |w.nodes| && Good(w)
    ensures Good(Walk(w, plan, i, k).0)
    decreases plan, i
  {
    hide Good, PerformAll;
    if i > 0 && Pending(w.nodes[i - 1]) {
      var n, cb := w.nodes[i - 1], Nth(plan, k);
      WalkStep(w, plan, i, k);
      SetGood(w, i - 1, n.(scheduled := false, idle := false), Called(n.id, cb));
      if k < |plan.callbacks| {
        PerformAllGood(Started(w, i - 1, cb), cb, |cb.acts|);
      }
      WalkGood(Visited(w, plan, i - 1, k), plan, i - 1, k + 1);
    } else if i > 0 {
      WalkGood(w, plan, i - 1, k);
    }
  }

  lemma {:induction false} AliveOrdered(nodes: seq<Node>)
    requires forall p, q :: 0 <= p < q < |nodes| ==> nodes[p].id < nodes[q].id
    ensures forall p, q :: 0 <= p < q < |Alive(nodes)| ==> Alive(nodes)[p].id < Alive(nodes)[q].id
  {
    if nodes != [] {
      var front, last := nodes[..|nodes| - 1], nodes[|nodes| - 1];
      AliveOrdered(front);
      forall p | 0 <= p < |Alive(front)| ensures Alive(front)[p].id < last.id {
        assert Alive(front)[p] in front;
      }
    }
  }

  lemma AliveGood(w: World)
    requires Good(w)
    ensures Good(w.(nodes := Alive(w.nodes)))
  {
    hide Alive, Runs, Schedules;
    AliveOrdered(w.nodes);
    var nodes := Alive(w.nodes);
    forall p | 0 <= p < |nodes|
      ensures nodes[p] in w.nodes && !nodes[p].deleted
    {
      assert nodes[p] in nodes;
    }
  }

  lemma PolledGood(w: World, plan: Plan)
    requires Good(w)
    ensures Good(Polled(w, plan))
  {
    hide Good, Alive, Walk;
    WalkGood(w, plan, |w.nodes|, 0);
    AliveGood(Walk(w, plan, |w.nodes|, 0).0);
  }

  /** An act from outside every callback. */
  function Outer(w: World, a: Act): (z: World) {
    if a.Poll? then Polled(Logged(w, Did(a)), a.plan) else Perform(w, a)
  }

  function Programme(w: World, acts: seq<Act>): (z: World) {
    if acts == [] then w else Outer(Programme(w, acts[..|acts| - 1]), acts[|acts| - 1])
  }

  /** Whatever the programme and its callbacks do, nothing runs after it was deleted
      or more often than it was scheduled. */
  lemma {:induction false} ProgrammeGood(w: World, acts: seq<Act>)
    requires Good(w)
    ensures Good(Programme(w, acts))
  {
    hide Good, Perform, Polled;
    if acts != [] {
      var v, a := Programme(w, acts[..|acts| - 1]), acts[|acts| - 1];
      ProgrammeGood(w, acts[..|acts| - 1]);
      LoggedGood(v, a);
      PerformGood(v, a);
      if a.Poll? {
        PolledGood(Logged(v, Did(a)), a.plan);
      }
    }
  }

  // ----------------------------------------- every callback does what it is to do

  /** How often `a` was performed. */
  function Performed(log: seq<Event>, a: Act): (n: nat) {
    if log == [] then 0
    else Performed(log[..|log| - 1], a) + if log[|log| - 1] == Did(a) then 1 else 0
  }

  /** How often the callbacks called ask for `a`. */
  function Asked(log: seq<Event>, a: Act): (n: nat) {
    if log == [] then 0
    else Asked(log[..|log| - 1], a) +
         var e := log[|log| - 1]; if e.Called? then multiset(e.cb.acts)[a] else 0
  }

  /** How often more `a` was performed than a callback asked for it. */
  function Surplus(log: seq<Event>, a: Act): (n: int) {
    Performed(log, a) - Asked(log, a)
  }

  lemma SurplusStep(log: seq<Event>, e: Event, a: Act)
    ensures Surplus(log + [e], a) == Surplus(log, a) + (if e == Did(a) then 1 else 0) -
            (if e.Called? then multiset(e.cb.acts)[a] else 0)
  {
    assert (log + [e])[..|log|] == log;
  }

  lemma {:induction false} PerformSurplus(w: World, a: Act, x: Act)
    ensures Surplus(Perform(w, a).log, x) == Surplus(w.log, x) + if a == x then 1 else 0
    decreases a
  {
    hide Surplus, Walk;
    var v := Logged(w, Did(a));
    SurplusStep(w.log, Did(a), x);
    match a {
      case New =>
      case Poll(plan) => WalkSurplus(v, plan, |w.nodes|, 0, x);
      case _ =>
        if a.which < |w.nodes| {
          var id := w.nodes[|w.nodes| - 1 - a.which].id;
          SurplusStep(v.log, Scheduled(id), x);
          SurplusStep(v.log, Cancelled(id), x);
          SurplusStep(v.log, Deleted(id), x);
        }
    }
  }

  lemma {:induction false} PerformAllSurplus(w: World, cb: Callback, n: nat, x: Act)
    requires n <= |cb.acts|
    ensures Surplus(PerformAll(w, cb, n).log, x) == Surplus(w.log, x) + multiset(cb.acts[..n])[x]
    decreases cb, n
  {
    hide Surplus, Perform;
    if n > 0 {
      PerformAllSurplus(w, cb, n - 1, x);
      PerformSurplus(PerformAll(w, cb, n - 1), cb.acts[n - 1], x);
      assert cb.acts[..n] == cb.acts[..n - 1] + [cb.acts[n - 1]];
    }
  }

  /** In a poll every act is performed exactly as often as the callbacks it calls,
      and those of the polls nested in it, ask for it. */
  lemma {:induction false} WalkSurplus(w: World, plan: Plan, i: nat, k: nat, x: Act)
    requires i <= |w.nodes|
    ensures Surplus(Walk(w, plan, i, k).0.log, x) == Surplus(w.log, x)
    decreases plan, i
  {
    hide Surplus, PerformAll;
    if i > 0 && Pending(w.nodes[i - 1]) {
      var cb := Nth(plan, k);
      WalkStep(w, plan, i, k);
      SurplusStep(w.log, Called(w.nodes[i - 1].id, cb), x);
      if k < |plan.callbacks| {
        PerformAllSurplus(Started(w, i - 1, cb), cb, |cb.acts|, x);
        assert cb.acts[..|cb.acts|] == cb.acts;
      }
      WalkSurplus(Visited(w, plan, i - 1, k), plan, i - 1, k + 1, x);
    } else if i > 0 {
      WalkSurplus(w, plan, i - 1, k, x);
    }
  }

  // ------------------------------------------- which callbacks, in which order

  /** The pending ones, newest first. */
  function PendingOnes(nodes: seq<Node>): (r: seq<Node>) {
    if nodes == [] then []
    else
      var last := nodes[|nodes| - 1];
      (if Pending(last) then [last] else []) + PendingOnes(nodes[..|nodes| - 1])
  }

  predicate Quiet(plan: Plan) {
    forall k :: 0 <= k < |plan.callbacks| ==> plan.callbacks[k].acts == []
  }

  /** `log` goes on with a call for each of `ps`, the j-th with callback k + j. */
  predicate CallsInTurn(log: seq<Event>, more: seq<Event>, ps: seq<Node>, plan: Plan, k: nat) {
    && |more| == |log| + |ps| && log <= more
    && forall j :: 0 <= j < |ps| ==> more[|log| + j] == Called(ps[j].id, Nth(plan, k + j))
  }

  /** The pending ones among the first `i` have run, and nothing else changed. */
  predicate Emptied(nodes: seq<Node>, after: seq<Node>, i: nat) {
    && |after| == |nodes|
    && forall p :: 0 <= p < |nodes| ==>
         after[p] == if p < i && Pending(nodes[p]) then nodes[p].(scheduled := false, idle := false) else nodes[p]
  }

  lemma CallsFirst(log: seq<Event>, more: seq<Event>, n: Node, ps: seq<Node>, plan: Plan, k: nat)
    requires CallsInTurn(log + [Called(n.id, Nth(plan, k))], more, ps, plan, k + 1)
    ensures CallsInTurn(log, more, [n] + ps, plan, k)
  {
    forall j | 0 <= j < |ps| + 1 ensures more[|log| + j] == Called(([n] + ps)[j].id, Nth(plan, k + j)) {
      if j > 0 {
        assert more[|log| + 1 + (j - 1)] == Called(ps[j - 1].id, Nth(plan, k + 1 + (j - 1)));
      }
    }
  }

  lemma BusyFirst(n: Node, ps: seq<Node>)
    ensures (exists j :: 0 <= j < |[n] + ps| && !([n] + ps)[j].idle) <==>
            (!n.idle || exists j :: 0 <= j < |ps| && !ps[j].idle)
  {
    var all := [n] + ps;
    if j :| 0 <= j < |ps| && !ps[j].idle {
      assert !all[j + 1].idle;
    }
    assert all[0] == n;
  }

  ghost predicate CalledInTurn(w: World, r: (World, bool), plan: Plan, i: nat, k: nat)
    requires i <= |w.nodes|
  {
    var ps := PendingOnes(w.nodes[..i]);
    && CallsInTurn(w.log, r.0.log, ps, plan, k)
    && Emptied(w.nodes, r.0.nodes, i)
    && (r.1 <==> exists j :: 0 <= j < |ps| && !ps[j].idle)
  }

  /** When no callback interferes, a poll calls exactly the pending bottom halves,
      newest first, the j-th with the j-th callback, and reports whether one of
      them was not idle. */
  lemma {:induction false} QuietWalk(w: World, plan: Plan, i: nat, k: nat)
    requires i <= |w.nodes| && Quiet(plan)
    ensures CalledInTurn(w, Walk(w, plan, i, k), plan, i, k)
    decreases i
  {
    hide Pending, CalledInTurn, Started, Visited, Walk;
    if i == 0 {
      WalkDone(w, plan, k);
      TurnNone(w, plan, k);
    } else {
      WalkTurn(w, plan, i, k);
      if Pending(w.nodes[i - 1]) {
        QuietVisit(w, plan, i - 1, k);
        var u := Started(w, i - 1, Nth(plan, k));
        QuietWalk(u, plan, i - 1, k + 1);
        TurnFirst(w, Walk(u, plan, i - 1, k + 1), plan, i, k);
      } else {
        QuietWalk(w, plan, i - 1, k);
        TurnSkip(w, Walk(w, plan, i - 1, k), plan, i, k);
      }
    }
  }

  lemma TurnNone(w: World, plan: Plan, k: nat)
    ensures CalledInTurn(w, (w, false), plan, 0, k)
  {
  }

  lemma TurnFirst(w: World, r: (World, bool), plan: Plan, i: nat, k: nat)
    requires 0 < i <= |w.nodes| && Pending(w.nodes[i - 1])
    requires CalledInTurn(Started(w, i - 1, Nth(plan, k)), r, plan, i - 1, k + 1)
    ensures CalledInTurn(w, (r.0, r.1 || !w.nodes[i - 1].idle), plan, i, k)
  {
    hide CallsInTurn;
    var u := Started(w, i - 1, Nth(plan, k));
    assert u.nodes[..i - 1] == w.nodes[..i - 1];
    PendingLast(w.nodes, i);
    hide PendingOnes;
    var n, ps := w.nodes[i - 1], PendingOnes(w.nodes[..i - 1]);
    CallsFirst(w.log, r.0.log, n, ps, plan, k);
    BusyFirst(n, ps);
  }

  lemma TurnSkip(w: World, r: (World, bool), plan: Plan, i: nat, k: nat)
    requires 0 < i <= |w.nodes| && !Pending(w.nodes[i - 1])
    requires CalledInTurn(w, r, plan, i - 1, k)
    ensures CalledInTurn(w, r, plan, i, k)
  {
    hide CallsInTurn;
    PendingLast(w.nodes, i);
  }

  lemma QuietVisit(w: World, plan: Plan, p: nat, k: nat)
    requires p < |w.nodes| && Quiet(plan)
    ensures Visited(w, plan, p, k) == Started(w, p, Nth(plan, k))
    ensures |Started(w, p, Nth(plan, k)).nodes| == |w.nodes|
  {
  }

  lemma PendingLast(nodes: seq<Node>, i: nat)
    requires 0 < i <= |nodes|
    ensures PendingOnes(nodes[..i]) ==
            if Pending(nodes[i - 1]) then [nodes[i - 1]] + PendingOnes(nodes[..i - 1])
            else PendingOnes(nodes[..i - 1])
  {
    assert nodes[..i][..i - 1] == nodes[..i - 1];
  }
}
