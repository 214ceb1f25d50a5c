/** The disk driver under the finer interleavings of module SleepWakeup: both halves of sleep, wakeup's
    loop and kill as steps of their own, and a device that moves at any time, also while a process or
    the handler is in vdisk_lock.

    What one call of virtio_disk_rw does to the shared memory between two sleeps is one change of the
    data: the device reads a chain only once its index is in the ring, and until then it is out of the
    device's reach.  The handler has an entry of its own in the process table. */
module VirtioRuns {
  import opened Virtio
  import SleepWakeup

  const FREE: nat := 0

  /** The channel of buffer b; FREE is &disk.free[0]. */
  function ChanOf(b: nat): nat { b + 1 }

  /** The data that vdisk_lock guards, and the device's. */
  function Bare(s: State): State { s.(waiting := {}, sleepers := {}) }

  function SleepersOf(s: State): set<(nat, nat)> {
    (set p | p in s.waiting :: (p, FREE)) + (set x | x in s.sleepers :: (x.0, ChanOf(x.1)))
  }

  function CoarseOf(s: State): SleepWakeup.Coarse<State> {
    SleepWakeup.Coarse(Bare(s), SleepersOf(s))
  }

  lemma Member(s: State, q: nat, c: nat)
    ensures (q, c) in SleepersOf(s) <==> if c == FREE then q in s.waiting else (q, c - 1) in s.sleepers
  {
    if c != FREE && (q, c - 1) in s.sleepers {
      var x: (nat, nat) := (q, c - 1);
      assert (x.0, ChanOf(x.1)) in SleepersOf(s);
    }
  }

  // ---- what the code does in one stay ----

  predicate Device(a: Action) { a.DeviceTake? || a.DeviceAnswer? }

  /** The action on the data alone. */
  ghost predicate Does(d: State, a: Action, d': State) {
    Shape(d.m) && Shape(d'.m) && exists u {:trigger Step(d, a, u)} :: Step(d, a, u) && Bare(u) == d'
  }

  /** The channels that the code wakes: alloc3_desc gives back what it has taken when there are fewer
      than three descriptors. */
  function Wakes(d: State, a: Action): set<nat>
    requires Shape(d.m)
  {
    match a
    case Begin(_, _, _, _) => if Alloc3(d.m.free).None? && FreeSet(d.m.free) != {} then {FREE} else {}
    case Finish(_) => {FREE}
    case Interrupt =>
      var id := d.m.used[d.m.seenIdx % NUM];
      if id < NUM && d.m.info[id].b.Some? then {ChanOf(d.m.info[id].b.value)} else {}
    case _ => {}
  }

  /** The channel on which the process then goes to sleep. */
  function Onto(d: State, a: Action): set<nat>
    requires Shape(d.m)
  {
    match a
    case Begin(_, b, _, _) => if Alloc3(d.m.free).None? then {FREE} else {ChanOf(b)}
    case Rewait(_, h) => if h in d.g.chains then {ChanOf(d.g.chains[h].b)} else {}
    case _ => {}
  }

  /** path are the values of the data during a stay, as the actions between them. */
  ghost predicate Path(path: seq<State>, bs: seq<Action>) {
    && |path| == |bs| + 1
    && forall j {:trigger bs[j]} :: 0 <= j < |bs| ==> Does(path[j], bs[j], path[j + 1])
  }

  /** One stay of process p in virtio_disk_rw: action i is its own, the others are the device's. */
  ghost predicate CallStay(path: seq<State>, bs: seq<Action>, i: nat, p: nat, woken: set<nat>, onto: set<nat>)
    requires Path(path, bs)
  {
    && i < |bs| && (forall j :: 0 <= j < |bs| && j != i ==> Device(bs[j]))
    && ((bs[i].Begin? && bs[i].pid == p) || (bs[i].Rewait? && bs[i].pid == p) || bs[i].Finish?)
    && Shape(path[i].m) && woken == Wakes(path[i], bs[i]) && onto == Onto(path[i], bs[i])
  }

  /** All channels that the actions wake. */
  function AllWakes(path: seq<State>, bs: seq<Action>): set<nat>
    requires |path| == |bs| + 1 && forall j :: 0 <= j < |path| ==> Shape(path[j].m)
  {
    if bs == [] then {} else AllWakes(path[..|bs|], bs[..|bs| - 1]) + Wakes(path[|bs| - 1], bs[|bs| - 1])
  }

  /** One stay of virtio_disk_intr: turns of its loop and steps of the device. */
  ghost predicate HandlerStay(path: seq<State>, bs: seq<Action>, woken: set<nat>, onto: set<nat>)
    requires Path(path, bs)
  {
    && (forall j :: 0 <= j < |bs| ==> Device(bs[j]) || bs[j].Interrupt?)
    && (forall j :: 0 <= j < |path| ==> Shape(path[j].m))
    && woken == AllWakes(path, bs) && onto == {}
  }

  ghost predicate Follows(path: seq<State>, p: nat, woken: set<nat>, onto: set<nat>) {
    exists bs {:trigger Path(path, bs)} :: Path(path, bs) &&
      ((exists i: nat :: CallStay(path, bs, i, p, woken, onto)) || HandlerStay(path, bs, woken, onto))
  }

  ghost predicate FollowsHere<V>(s: SleepWakeup.State<State, V>, a: SleepWakeup.Action<State>) {
    match a
    case Release(p) => Follows(s.past + [s.data], p, s.woken, {})
    case SleepRelease(p) => p < |s.ps| && s.ps[p].pc.SleepLocked? ==> Follows(s.past + [s.data], p, s.woken, {s.ps[p].pc.c})
    case Outside(_, d) => s.lk == -1 ==> exists b :: Device(b) && Does(s.data, b, d)
    case _ => true
  }

  /** Every stay of a run of SleepWakeup follows virtio_disk.c, and the device makes its own moves. */
  ghost predicate FollowsCode<V>(ss: seq<SleepWakeup.State<State, V>>, acts: seq<SleepWakeup.Action<State>>)
    requires |ss| == |acts| + 1
  {
    && Initial(ss[0].data)
    && forall i {:trigger acts[i]} :: 0 <= i < |acts| ==> FollowsHere(ss[i], acts[i])
  }

  // ---- one action, with the sleepers ----

  function WaitingAfter(s: State, a: Action): set<nat>
    requires Shape(s.m)
  {
    match a
    case Begin(pid, _, _, _) =>
      if Alloc3(s.m.free).Some? then s.waiting - {pid} else if FreeSet(s.m.free) == {} then s.waiting + {pid} else {pid}
    case Finish(_) => {}
    case Wake(pid) => s.waiting - {pid}
    case _ => s.waiting
  }

  function SleepersAfter(s: State, a: Action): set<(nat, nat)>
    requires Shape(s.m)
  {
    match a
    case Begin(pid, b, _, _) => if Alloc3(s.m.free).Some? then s.sleepers + {(pid, b)} else s.sleepers
    case Rewait(pid, h) => if h in s.g.chains then s.sleepers + {(pid, s.g.chains[h].b)} else s.sleepers
    case Interrupt =>
      var id := s.m.used[s.m.seenIdx % NUM];
      if id < NUM && s.m.info[id].b.Some? then Unwoken(s.sleepers, s.m.info[id].b.value) else s.sleepers
    case Wake(pid) => set x | x in s.sleepers && x.0 != pid
    case _ => s.sleepers
  }

  lemma Lifted(s: State, a: Action, d': State) returns (t: State)
    requires Does(Bare(s), a, d')
    ensures Shape(s.m) && Shape(t.m) && Step(s, a, t) && Bare(t) == d'
    ensures t.waiting == WaitingAfter(s, a) && t.sleepers == SleepersAfter(s, a)
  {
    hide Alloc3, Posted, Retired, Follow, FreeSet, Requested;
    t := d'.(waiting := WaitingAfter(s, a), sleepers := SleepersAfter(s, a));
  }

  lemma SleepersLifted(s: State, a: Action, t: State, p: nat, q: nat, c: nat)
    requires Shape(s.m) && t.waiting == WaitingAfter(s, a) && t.sleepers == SleepersAfter(s, a) && !a.Wake?
    requires (a.Begin? || a.Rewait? ==> a.pid == p) && forall e: nat :: (p, e) !in SleepersOf(s)
    ensures (q, c) in SleepersOf(t) <==>
      ((q, c) in SleepersOf(s) && c !in Wakes(Bare(s), a)) || (q == p && c in Onto(Bare(s), a))
  {
    hide Alloc3, FreeSet, SleepersOf;
    Member(s, q, c);
    Member(t, q, c);
    Member(s, p, FREE);
  }

  // ---- a stay, step by step ----

  /** us are the states of a piece of a run with the actions bs. */
  ghost predicate Piece(us: seq<State>, bs: seq<Action>) {
    && |us| == |bs| + 1 && (forall j :: 0 <= j < |us| ==> Shape(us[j].m))
    && forall j {:trigger bs[j]} :: 0 <= j < |bs| ==> Step(us[j], bs[j], us[j + 1])
  }

  /** They are the values in path, with the sleepers that the actions leave. */
  ghost predicate Lifts(us: seq<State>, path: seq<State>, bs: seq<Action>) {
    && Piece(us, bs) && |path| == |us| && (forall j :: 0 <= j < |us| ==> Bare(us[j]) == path[j])
    && forall j {:trigger bs[j]} :: 0 <= j < |bs| ==>
         us[j + 1].waiting == WaitingAfter(us[j], bs[j]) && us[j + 1].sleepers == SleepersAfter(us[j], bs[j])
  }

  lemma {:induction false} PathLifted(s: State, path: seq<State>, bs: seq<Action>) returns (us: seq<State>)
    requires Path(path, bs) && path[0] == Bare(s) && Shape(s.m)
    ensures Lifts(us, path, bs) && us[0] == s
    decreases |bs|
  {
    hide Step, Does, Bare, WaitingAfter, SleepersAfter, Shape;
    var n := |bs|;
    if n == 0 {
      us := [s];
    } else {
      us := PathLifted(s, path[..n], bs[..n - 1]);
      assert Does(path[n - 1], bs[n - 1], path[n]);
      var t := Lifted(us[n - 1], bs[n - 1], path[n]);
      us := us + [t];
    }
  }

  /** Who sleeps after a stay of p that wakes the channels in woken and sleeps on the one in onto. */
  ghost predicate Stayed(s: State, t: State, p: nat, woken: set<nat>, onto: set<nat>) {
    forall q: nat, c: nat {:trigger (q, c) in SleepersOf(t)} ::
      (q, c) in SleepersOf(t) <==> if q == p then c in onto else (q, c) in SleepersOf(s) && c !in woken
  }

  predicate Sleepless(s: State, p: nat) { p !in s.waiting && forall x :: x in s.sleepers ==> x.0 != p }

  lemma SleeplessIs(s: State, p: nat)
    ensures Sleepless(s, p) <==> forall e: nat {:trigger (p, e) in SleepersOf(s)} :: (p, e) !in SleepersOf(s)
  {
    hide SleepersOf;
    if Sleepless(s, p) {
      forall e: nat {:trigger (p, e) in SleepersOf(s)}
        ensures (p, e) !in SleepersOf(s)
      {
        Member(s, p, e);
      }
    } else {
      SomeChannel(s, p);
    }
  }

  lemma SomeChannel(s: State, p: nat)
    requires !Sleepless(s, p)
    ensures exists e: nat {:trigger (p, e) in SleepersOf(s)} :: (p, e) in SleepersOf(s)
  {
    hide SleepersOf;
    if p in s.waiting {
      Member(s, p, FREE);
      assert (p, FREE) in SleepersOf(s);
    } else {
      var x :| x in s.sleepers && x.0 == p;
      Member(s, p, ChanOf(x.1));
      assert x == (p, x.1);
      assert (p, ChanOf(x.1)) in SleepersOf(s);
    }
  }

  lemma {:induction false} CallLifted(us: seq<State>, path: seq<State>, bs: seq<Action>, i: nat, p: nat, woken: set<nat>, onto: set<nat>, n: nat)
    requires Lifts(us, path, bs) && Path(path, bs) && CallStay(path, bs, i, p, woken, onto) && n <= |bs|
    requires Sleepless(us[0], p)
    ensures if n <= i then us[n].waiting == us[0].waiting && us[n].sleepers == us[0].sleepers
            else Stayed(us[0], us[n], p, woken, onto)
    decreases n
  {
    hide Wakes, Onto, Path, Step, SleepersOf, Bare, Shape;
    if n > 0 {
      CallLifted(us, path, bs, i, p, woken, onto, n - 1);
      var b := bs[n - 1];
      if n - 1 == i {
        OwnAction(us[0], us[i], b, us[n], p, woken, onto);
      } else {
        SameSleepers(us[n - 1], us[n], b);
      }
    }
  }

  lemma SameSleepers(s: State, t: State, b: Action)
    requires Shape(s.m) && Device(b) && t.waiting == WaitingAfter(s, b) && t.sleepers == SleepersAfter(s, b)
    ensures t.waiting == s.waiting && t.sleepers == s.sleepers && SleepersOf(t) == SleepersOf(s)
  {
  }

  lemma OwnAction(s: State, u: State, b: Action, t: State, p: nat, woken: set<nat>, onto: set<nat>)
    requires u.waiting == s.waiting && u.sleepers == s.sleepers && Sleepless(s, p)
    requires Shape(u.m) && t.waiting == WaitingAfter(u, b) && t.sleepers == SleepersAfter(u, b)
    requires (b.Begin? && b.pid == p) || (b.Rewait? && b.pid == p) || b.Finish?
    requires woken == Wakes(Bare(u), b) && onto == Onto(Bare(u), b)
    ensures Stayed(s, t, p, woken, onto)
  {
    hide Wakes, Onto, Bare, WaitingAfter, SleepersAfter, SleepersOf, Sleepless;
    assert SleepersOf(u) == SleepersOf(s) by { SameSets(s, u); }
    SleeplessIs(s, p);
    forall q: nat, c: nat
      ensures (q, c) in SleepersOf(t) <==> if q == p then c in onto else (q, c) in SleepersOf(s) && c !in woken
    {
      SleepersLifted(u, b, t, p, q, c);
    }
  }

  lemma SameSets(s: State, u: State)
    requires u.waiting == s.waiting && u.sleepers == s.sleepers
    ensures SleepersOf(u) == SleepersOf(s)
  {
  }

  lemma {:induction false} HandlerLifted(us: seq<State>, path: seq<State>, bs: seq<Action>, p: nat, woken: set<nat>, n: nat)
    requires Lifts(us, path, bs) && Path(path, bs) && HandlerStay(path, bs, woken, {}) && n <= |bs|
    requires Sleepless(us[0], p)
    ensures Sleepless(us[n], p) && Stayed(us[0], us[n], p, AllWakes(path[..n + 1], bs[..n]), {})
    decreases n
  {
    hide Wakes, Path, Step, SleepersOf, Bare, Shape, Sleepless, WaitingAfter, SleepersAfter;
    if n > 0 {
      HandlerLifted(us, path, bs, p, woken, n - 1);
      SleeplessIs(us[n - 1], p);
      var b := bs[n - 1];
      assert path[..n + 1][..n] == path[..n] && bs[..n][..n - 1] == bs[..n - 1];
      NothingOnto(path[n - 1], b);
      forall q: nat, c: nat
        ensures (q, c) in SleepersOf(us[n]) <==> (q, c) in SleepersOf(us[n - 1]) && c !in Wakes(path[n - 1], b)
      {
        SleepersLifted(us[n - 1], b, us[n], p, q, c);
      }
      SleeplessIs(us[n], p);
    } else {
      SleeplessIs(us[0], p);
    }
  }

  lemma NothingOnto(d: State, b: Action)
    requires Shape(d.m) && (Device(b) || b.Interrupt?)
    ensures Onto(d, b) == {}
  {
  }

  // ---- every interleaving ----

  lemma StayIsPiece(s: State, path: seq<State>, p: nat, woken: set<nat>, onto: set<nat>, g': SleepWakeup.Coarse<State>)
    returns (us: seq<State>, bs: seq<Action>)
    requires Shape(s.m) && |path| > 0 && path[0] == Bare(s) && Follows(path, p, woken, onto)
    requires SleepWakeup.Stay(CoarseOf(s), p, path[|path| - 1], woken, onto, g')
    ensures Piece(us, bs) && us[0] == s && CoarseOf(us[|bs|]) == g'
  {
    hide Path, Step, SleepersOf, Bare, Shape, Sleepless, CallStay, HandlerStay, Lifts, Piece;
    bs :| Path(path, bs) && ((exists i: nat :: CallStay(path, bs, i, p, woken, onto)) || HandlerStay(path, bs, woken, onto));
    us := PathLifted(s, path, bs);
    SleeplessIs(s, p);
    LiftsEnds(us, path, bs);
    if HandlerStay(path, bs, woken, onto) {
      HandlerEnds(us, path, bs, p, woken, onto);
    } else {
      var i: nat :| CallStay(path, bs, i, p, woken, onto);
      CallEnds(us, path, bs, i, p, woken, onto);
    }
    SameCoarse(us[|bs|], g', path[|path| - 1]);
  }

  lemma LiftsEnds(us: seq<State>, path: seq<State>, bs: seq<Action>)
    requires Lifts(us, path, bs)
    ensures Piece(us, bs) && |us| == |path| == |bs| + 1 && Bare(us[|bs|]) == path[|path| - 1]
  {
  }

  lemma HandlerEnds(us: seq<State>, path: seq<State>, bs: seq<Action>, p: nat, woken: set<nat>, onto: set<nat>)
    requires Lifts(us, path, bs) && Path(path, bs) && HandlerStay(path, bs, woken, onto) && Sleepless(us[0], p)
    ensures Stayed(us[0], us[|bs|], p, woken, onto)
  {
    hide Wakes, Step, SleepersOf, Bare, Shape, Sleepless, Does, Stayed, WaitingAfter, SleepersAfter;
    HandlerLifted(us, path, bs, p, woken, |bs|);
    assert path[..|bs| + 1] == path && bs[..|bs|] == bs;
  }

  lemma CallEnds(us: seq<State>, path: seq<State>, bs: seq<Action>, i: nat, p: nat, woken: set<nat>, onto: set<nat>)
    requires Lifts(us, path, bs) && Path(path, bs) && CallStay(path, bs, i, p, woken, onto) && Sleepless(us[0], p)
    ensures Stayed(us[0], us[|bs|], p, woken, onto)
  {
    hide Wakes, Onto, Step, SleepersOf, Bare, Shape, Sleepless, Does, Stayed, WaitingAfter, SleepersAfter;
    CallLifted(us, path, bs, i, p, woken, onto, |bs|);
  }

  lemma SameCoarse(t: State, g: SleepWakeup.Coarse<State>, d: State)
    requires Bare(t) == d == g.data
    requires forall q: nat, c: nat {:trigger (q, c) in g.sleepers} :: (q, c) in g.sleepers <==> (q, c) in SleepersOf(t)
    ensures CoarseOf(t) == g
  {
    hide SleepersOf;
    forall x: (nat, nat)
      ensures x in SleepersOf(t) <==> x in g.sleepers
    {
      assert x == (x.0, x.1);
    }
  }

  lemma Bared(s: State, a: Action, t: State)
    requires Shape(s.m) && Shape(t.m) && Step(s, a, t)
    ensures Does(Bare(s), a, Bare(t)) && t.waiting == WaitingAfter(s, a) && t.sleepers == SleepersAfter(s, a)
  {
    hide Alloc3, Posted, Retired, Follow, FreeSet, Requested;
    var u := t.(waiting := WaitingAfter(Bare(s), a), sleepers := SleepersAfter(Bare(s), a));
    assert Step(Bare(s), a, u) && Bare(u) == Bare(t);
  }

  /** And the other way round: a step of a process that is awake, or a turn of the handler, is a stay that
      follows virtio_disk.c. */
  lemma StayInLock(s: State, a: Action, t: State, p: nat)
    requires Shape(s.m) && Shape(t.m) && Step(s, a, t) && Sleepless(s, p)
    requires (a.Begin? && a.pid == p) || (a.Rewait? && a.pid == p) || a.Finish? || a.Interrupt?
    ensures Follows([Bare(s), Bare(t)], p, Wakes(Bare(s), a), Onto(Bare(s), a))
    ensures SleepWakeup.Stay(CoarseOf(s), p, Bare(t), Wakes(Bare(s), a), Onto(Bare(s), a), CoarseOf(t))
  {
    hide Wakes, Onto, Step, SleepersOf, Bare, Shape, Sleepless, Does, WaitingAfter, SleepersAfter;
    Bared(s, a, t);
    var path, bs, d := [Bare(s), Bare(t)], [a], Bare(s);
    SameShape(s);
    SameShape(t);
    assert Path(path, bs);
    if a.Interrupt? {
      NothingOnto(d, a);
      assert path[..1] == [d] && bs[..0] == [];
      assert AllWakes(path, bs) == AllWakes([d], []) + Wakes(d, a);
      assert HandlerStay(path, bs, Wakes(d, a), Onto(d, a));
    } else {
      assert CallStay(path, bs, 0, p, Wakes(d, a), Onto(d, a));
    }
    SleeplessIs(s, p);
    forall q: nat, c: nat
      ensures (q, c) in SleepersOf(t) <==> if q == p then c in Onto(d, a) else (q, c) in SleepersOf(s) && c !in Wakes(d, a)
    {
      SleepersLifted(s, a, t, p, q, c);
      if a.Finish? || a.Interrupt? { NothingOntoEither(d, a); }
    }
  }

  lemma NothingOntoEither(d: State, b: Action)
    requires Shape(d.m) && (b.Finish? || b.Interrupt?)
    ensures Onto(d, b) == {}
  {
  }

  lemma SameShape(s: State)
    requires Shape(s.m)
    ensures Shape(Bare(s).m)
  {
  }

  lemma KillIsStep(s: State, p: nat, g': SleepWakeup.Coarse<State>) returns (t: State)
    requires Shape(s.m) && SleepWakeup.Woken(CoarseOf(s), p, g')
    ensures Shape(t.m) && Step(s, Wake(p), t) && CoarseOf(t) == g'
  {
    t := s.(waiting := s.waiting - {p}, sleepers := set x | x in s.sleepers && x.0 != p);
    forall q: nat, c: nat
      ensures (q, c) in SleepersOf(t) <==> q != p && (q, c) in SleepersOf(s)
    {
      Member(s, q, c);
      Member(t, q, c);
    }
    hide SleepersOf;
    SameCoarse(t, g', g'.data);
  }

  lemma DeviceIsStep(s: State, b: Action, d: State) returns (t: State)
    requires Shape(s.m) && Device(b) && Does(Bare(s), b, d)
    ensures Shape(t.m) && Step(s, b, t) && CoarseOf(t) == CoarseOf(s).(data := d)
  {
    hide Does, Step, SleepersOf;
    t := Lifted(s, b, d);
    SameSleepers(s, t, b);
  }

  lemma OnePiece(s: State, b: Action, t: State)
    requires Shape(s.m) && Shape(t.m) && Step(s, b, t)
    ensures Piece([s, t], [b])
  {
  }

  lemma MoveIsPiece<V>(s: SleepWakeup.State<State, V>, a: SleepWakeup.Action<State>, u: State, g': SleepWakeup.Coarse<State>)
    returns (us: seq<State>, bs: seq<Action>)
    requires a.p < |s.ps| && SleepWakeup.Moves(s, a, CoarseOf(u), g') && FollowsHere(s, a) && Shape(u.m)
    requires s.lk == -1 ==> s.past == []
    ensures Piece(us, bs) && us[0] == u && CoarseOf(us[|bs|]) == g'
  {
    hide Follows, Step, SleepersOf, Does, Bare, Shape, SleepWakeup.Stay, SleepWakeup.Woken;
    us, bs := [u], [];
    if a.Release? || a.SleepRelease? {
      var onto: set<nat> := if a.Release? then {} else {s.ps[a.p].pc.c};
      us, bs := StayIsPiece(u, s.past + [s.data], a.p, s.woken, onto, g');
    } else if a.Kill? && CoarseOf(u) != g' {
      var t := KillIsStep(u, a.p, g');
      OnePiece(u, Wake(a.p), t);
      us, bs := [u, t], [Wake(a.p)];
    } else if a.Outside? && s.lk == -1 {
      var b :| Device(b) && Does(s.data, b, a.d);
      var t := DeviceIsStep(u, b, a.d);
      OnePiece(u, b, t);
      us, bs := [u, t], [b];
    }
  }

  lemma PiecesJoin(us: seq<State>, bs: seq<Action>, vs: seq<State>, cs: seq<Action>)
    requires Piece(us, bs) && Piece(vs, cs) && us[|bs|] == vs[0]
    ensures Piece(us + vs[1..], bs + cs) && (us + vs[1..])[|bs + cs|] == vs[|cs|] && (us + vs[1..])[0] == us[0]
  {
    hide Step, Shape;
    var ws, ds := us + vs[1..], bs + cs;
    forall j {:trigger ds[j]} | 0 <= j < |ds|
      ensures Step(ws[j], ds[j], ws[j + 1])
    {
      if j < |bs| {
        assert Step(us[j], bs[j], us[j + 1]);
      } else {
        assert ws[j] == vs[j - |bs|] && ws[j + 1] == vs[j - |bs| + 1];
        assert Step(vs[j - |bs|], cs[j - |bs|], vs[j - |bs| + 1]);
      }
    }
  }

  lemma {:induction false} RunOf<V>(ss: seq<SleepWakeup.State<State, V>>, acts: seq<SleepWakeup.Action<State>>, gs: seq<SleepWakeup.Coarse<State>>, k: nat)
    returns (us: seq<State>, bs: seq<Action>)
    requires |ss| == |acts| + 1 && FollowsCode(ss, acts) && k < |ss| && |gs| > k && gs[0] == CoarseOf(ss[0].data)
    requires forall i {:trigger acts[i]} :: 0 <= i < k ==>
      acts[i].p < |ss[i].ps| && SleepWakeup.Moves(ss[i], acts[i], gs[i], gs[i + 1])
    requires forall i {:trigger ss[i]} :: 0 <= i < k ==> ss[i].lk == -1 ==> ss[i].past == []
    ensures Piece(us, bs) && us[0] == ss[0].data && CoarseOf(us[|bs|]) == gs[k]
  {
    hide Step, CoarseOf, SleepWakeup.Moves, FollowsHere;
    if k == 0 {
      us, bs := [ss[0].data], [];
    } else {
      us, bs := RunOf(ss, acts, gs, k - 1);
      assert FollowsHere(ss[k - 1], acts[k - 1]);
      var vs, cs := MoveIsPiece(ss[k - 1], acts[k - 1], us[|bs|], gs[k]);
      PiecesJoin(us, bs, vs, cs);
      us, bs := us + vs[1..], bs + cs;
    }
  }

  lemma InitialCoarse(d: State)
    requires Initial(d)
    ensures CoarseOf(d) == SleepWakeup.Coarse(d, {})
  {
  }

  /** Every interleaving of sleep, wakeup, kill and the device in which the stays in vdisk_lock follow
      virtio_disk.c is a run of module Virtio: whenever vdisk_lock is free, the data is what the run
      leaves, and its sleepers are those asleep or about to be. */
  lemma VirtioRunOf<V>(view: (nat, State) -> SleepWakeup.Test<V>, ss: seq<SleepWakeup.State<State, V>>, acts: seq<SleepWakeup.Action<State>>, k: nat)
    returns (us: seq<State>, bs: seq<Action>)
    requires SleepWakeup.Execution(view, ss, acts) && FollowsCode(ss, acts) && k < |ss|
    ensures Run(us, bs)
    ensures ss[k].lk == -1 ==> Bare(us[|bs|]) == ss[k].data && forall q: nat, c: nat {:trigger (q, c) in SleepersOf(us[|bs|])} ::
              (q, c) in SleepersOf(us[|bs|]) <==> q < |ss[k].ps| && SleepWakeup.Committed(ss[k].ps[q], c)
  {
    hide Step, SleepWakeup.Step, SleepWakeup.Moves, SleepWakeup.Related, SleepWakeup.Fine, FollowsHere;
    var gs := SleepWakeup.SleepIsOneStep(view, ss, acts, k);
    forall i {:trigger ss[i]} | 0 <= i < k
      ensures ss[i].lk == -1 ==> ss[i].past == []
    {
      SleepWakeup.RunKeeps(view, ss, acts, i);
    }
    InitialCoarse(ss[0].data);
    us, bs := RunOf(ss, acts, gs, k);
  }

  /** So in each of them, whenever vdisk_lock is free: free descriptors and requests of three are all the
      NUM descriptors; nobody asleep for descriptors could be served, or is about to sleep though it
      could; and a buffer on which somebody sleeps is owed an answer. */
  lemma EveryInterleavingIsSafe<V>(view: (nat, State) -> SleepWakeup.Test<V>, ss: seq<SleepWakeup.State<State, V>>, acts: seq<SleepWakeup.Action<State>>, k: nat)
    requires SleepWakeup.Execution(view, ss, acts) && FollowsCode(ss, acts) && k < |ss| && ss[k].lk == -1
    ensures Inv(ss[k].data)
    ensures |FreeSet(ss[k].data.m.free)| + 3 * |ss[k].data.g.chains| == NUM && |ss[k].data.g.chains| <= 2
    ensures forall q, c: nat {:trigger SleepWakeup.Committed(ss[k].ps[q], c)} :: 0 <= q < |ss[k].ps| && SleepWakeup.Committed(ss[k].ps[q], c) ==>
              if c == FREE then Alloc3(ss[k].data.m.free).None? else c - 1 in ss[k].data.m.busy
  {
    hide SleepWakeup.Execution, FollowsCode, Run, Step, SleepersOf, Inv, Alloc3, FreeSet, SleepWakeup.Committed, Bare;
    var us, bs := VirtioRunOf(view, ss, acts, k);
    RunEnds(us, bs);
    QueueIsSafe(us, bs, |bs|);
    var u := us[|bs|];
    BareKeeps(u);
    forall q: nat, c: nat {:trigger SleepWakeup.Committed(ss[k].ps[q], c)} | q < |ss[k].ps| && SleepWakeup.Committed(ss[k].ps[q], c)
      ensures if c == FREE then Alloc3(u.m.free).None? else c - 1 in u.m.busy
    {
      assert (q, c) in SleepersOf(u);
      Member(u, q, c);
    }
  }

  lemma RunEnds(us: seq<State>, bs: seq<Action>)
    requires Run(us, bs)
    ensures |us| == |bs| + 1
  {
  }

  lemma BareKeeps(u: State)
    requires Inv(u)
    ensures Inv(Bare(u)) && Bare(u).m == u.m && Bare(u).g == u.g
  {
  }
}
