/** Pipes (pipe.c): a ring of 512 bytes under 32-bit counters that wrap around, readers and
    writers that sleep, and what any interleaving of them delivers.

    One action is one stay of a process in pi->lock: from acquire, or from the return of sleep, to
    the next sleep or the final release.  PipeRunOf below carries what is proved over to the finer
    interleavings of module SleepWakeup. */
module Pipe {
  import SleepWakeup

  const PIPESIZE: nat := 512
  const UINT: nat := 0x1_0000_0000

  /** The pipe as its users see it.  written and taken are all bytes ever put in and taken out;
      asleep processes are kept by the channel they sleep on. */
  datatype State = State(queue: seq<int>, readOpen: bool, writeOpen: bool,
                         readers: set<nat>, writers: set<nat>, written: seq<int>, taken: seq<int>)

  /** How a stay in the lock ends: with a result, asleep, or with -1. */
  datatype End = Returned | Slept | Refused

  /** A write of data has stored its first k bytes; a read of n bytes has taken k, and the last of
      these was lost when copyout failed. */
  datatype Action =
    | Write(pid: nat, data: seq<int>, k: nat, end: End)
    | Read(pid: nat, n: nat, k: nat, lost: bool, end: End)
    | Close(writable: bool)
    | Kill(pid: nat)

  ghost predicate Stored(s: State, data: seq<int>, k: nat, t: State) {
    && k <= |data| && |s.queue| + k <= PIPESIZE
    && t.queue == s.queue + data[..k] && t.written == s.written + data[..k]
    && t.taken == s.taken && t.readOpen == s.readOpen && t.writeOpen == s.writeOpen
  }

  ghost predicate Took(s: State, k: nat, t: State) {
    && k <= |s.queue|
    && t.queue == s.queue[k..] && t.taken == s.taken + s.queue[..k]
    && t.written == s.written && t.readOpen == s.readOpen && t.writeOpen == s.writeOpen
  }

  ghost predicate Step(s: State, a: Action, t: State) {
    match a
    case Write(pid, data, k, Returned) =>
      Stored(s, data, k, t) && t.readers == {} && t.writers == s.writers - {pid}
    case Write(pid, data, k, Slept) =>
      && Stored(s, data, k, t) && k < |data| && |t.queue| == PIPESIZE && s.readOpen
      && t.readers == {} && t.writers == s.writers + {pid}
    case Write(pid, data, k, Refused) =>
      Stored(s, data, k, t) && k < |data| && t.readers == s.readers && t.writers == s.writers - {pid}
    case Read(pid, n, k, lost, Returned) =>
      && Took(s, k, t) && k <= n && (lost ==> k > 0) && (s.queue != [] || !s.writeOpen)
      && (k < n && !lost ==> t.queue == [])
      && t.readers == s.readers - {pid} && t.writers == {}
    case Read(pid, n, k, _, Slept) =>
      t == s.(readers := s.readers + {pid}) && k == 0 && s.queue == [] && s.writeOpen
    case Read(pid, n, k, _, Refused) =>
      t == s.(readers := s.readers - {pid}) && k == 0 && s.queue == [] && s.writeOpen
    case Close(w) =>
      if w then t == s.(writeOpen := false, readers := {}) else t == s.(readOpen := false, writers := {})
    case Kill(pid) => t == s.(readers := s.readers - {pid}, writers := s.writers - {pid})
  }

  // ---- what every interleaving keeps ----

  /** First in, first out: the bytes taken out and the bytes in the pipe are the bytes put in. */
  predicate Fifo(s: State) {
    s.written == s.taken + s.queue && |s.queue| <= PIPESIZE
  }

  /** A sleeping writer means a full pipe, an open read end and no sleeping reader. */
  predicate Writers(s: State) {
    s.writers != {} ==> |s.queue| == PIPESIZE && s.readOpen && s.readers == {}
  }

  const EMPTY := State([], true, true, {}, {}, [], [])

  ghost predicate Run(ss: seq<State>, acts: seq<Action>) {
    && |ss| == |acts| + 1 && ss[0] == EMPTY
    && forall i :: 0 <= i < |acts| ==> Step(ss[i], acts[i], ss[i + 1])
  }

  lemma StepKeeps(s: State, a: Action, t: State)
    requires Fifo(s) && Writers(s) && Step(s, a, t)
    ensures Fifo(t) && Writers(t)
  {
  }

  /** Over any interleaving of readers, writers, closes and kills: the bytes taken out are a prefix
      of the bytes put in, at most PIPESIZE are in between, a reader and a writer are never both
      asleep, and no writer sleeps once the read end is closed. */
  lemma {:induction false} PipeIsFifo(ss: seq<State>, acts: seq<Action>, k: nat)
    requires Run(ss, acts) && k < |ss|
    ensures Fifo(ss[k]) && Writers(ss[k])
    ensures ss[k].taken <= ss[k].written
    ensures ss[k].readers == {} || ss[k].writers == {}
    ensures ss[k].writers != {} ==> ss[k].readOpen
  {
    if k > 0 {
      PipeIsFifo(ss, acts, k - 1);
      assert Step(ss[k - 1], acts[k - 1], ss[k]);
      StepKeeps(ss[k - 1], acts[k - 1], ss[k]);
    }
  }

  // ---- the finer interleavings ----

  const NREAD: nat := 0
  const NWRITE: nat := 1

  /** Readers sleep on &pi->nread, writers on &pi->nwrite. */
  function CoarseOf(s: State): SleepWakeup.Coarse<State> {
    SleepWakeup.Coarse(s.(readers := {}, writers := {}),
                       (set p | p in s.readers :: (p, NREAD)) + (set p | p in s.writers :: (p, NWRITE)))
  }

  /** What pipe.c does in one stay of process p in pi->lock: how it changes the pipe, which channels it
      wakes, and the channel on which it goes to sleep. */
  ghost predicate Follows(d: State, d': State, a: Action, p: nat, woken: set<nat>, onto: set<nat>) {
    && d'.readers == d'.writers == {}
    && match a
       case Write(pid, data, k, end) =>
         && pid == p && Stored(d, data, k, d')
         && (match end
             case Returned => woken == {NREAD} && onto == {}
             case Slept => k < |data| && |d'.queue| == PIPESIZE && d.readOpen && woken == {NREAD} && onto == {NWRITE}
             case Refused => k < |data| && woken == {} && onto == {})
       case Read(pid, n, k, lost, end) =>
         && pid == p
         && (match end
             case Returned =>
               && Took(d, k, d') && k <= n && (lost ==> k > 0) && (d.queue != [] || !d.writeOpen)
               && (k < n && !lost ==> d'.queue == []) && woken == {NWRITE} && onto == {}
             case Slept => d' == d && k == 0 && d.queue == [] && d.writeOpen && woken == {} && onto == {NREAD}
             case Refused => d' == d && k == 0 && d.queue == [] && d.writeOpen && woken == {} && onto == {})
       case Close(w) =>
         onto == {} && if w then d' == d.(writeOpen := false) && woken == {NREAD} else d' == d.(readOpen := false) && woken == {NWRITE}
       case Kill(_) => false
  }

  /** Every stay of a run of SleepWakeup follows pipe.c, and only the holder of pi->lock changes the
      pipe. */
  ghost predicate FollowsCode<V>(ss: seq<SleepWakeup.State<State, V>>, acts: seq<SleepWakeup.Action<State>>)
    requires |ss| == |acts| + 1
  {
    && ss[0].data == EMPTY
    && forall i {:trigger acts[i]} :: 0 <= i < |acts| ==> FollowsHere(ss[i], acts[i])
  }

  ghost predicate FollowsHere<V>(s: SleepWakeup.State<State, V>, a: SleepWakeup.Action<State>) {
    match a
    case Release(p) => exists b :: Follows(SleepWakeup.Base(s), s.data, b, p, s.woken, {})
    case SleepRelease(p) =>
      p < |s.ps| && s.ps[p].pc.SleepLocked? ==> exists b :: Follows(SleepWakeup.Base(s), s.data, b, p, s.woken, {s.ps[p].pc.c})
    case Outside(_, _) => false
    case _ => true
  }

  /** A stay that follows pipe.c is a step. */
  lemma StayIsStep(s: State, b: Action, p: nat, d: State, woken: set<nat>, onto: set<nat>, g': SleepWakeup.Coarse<State>) returns (t: State)
    requires Follows(CoarseOf(s).data, d, b, p, woken, onto) && SleepWakeup.Stay(CoarseOf(s), p, d, woken, onto, g')
    ensures Step(s, b, t) && CoarseOf(t) == g'
  {
    var g := CoarseOf(s);
    assert (p, NREAD) !in g.sleepers && (p, NWRITE) !in g.sleepers;
    t := d.(readers := (if NREAD in woken then {} else s.readers) + (if NREAD in onto then {p} else {}),
            writers := (if NWRITE in woken then {} else s.writers) + (if NWRITE in onto then {p} else {}));
    forall x: (nat, nat)
      ensures x in CoarseOf(t).sleepers <==> x in g'.sleepers
    {
      assert x == (x.0, x.1);
    }
  }

  predicate Awake(s: State, pid: nat) { pid !in s.readers && pid !in s.writers }

  /** And the other way round: a step of a process p that is awake is a stay that follows pipe.c. */
  lemma StayInLock(s: State, b: Action, t: State, p: nat) returns (woken: set<nat>, onto: set<nat>)
    requires Step(s, b, t) && Awake(s, p) && !b.Kill? && (b.Close? || b.pid == p)
    ensures Follows(CoarseOf(s).data, CoarseOf(t).data, b, p, woken, onto)
    ensures SleepWakeup.Stay(CoarseOf(s), p, CoarseOf(t).data, woken, onto, CoarseOf(t))
  {
    match b
    case Write(_, _, _, end) => woken, onto := if end.Refused? then {} else {NREAD}, if end.Slept? then {NWRITE} else {};
    case Read(_, _, _, _, end) => woken, onto := if end.Returned? then {NWRITE} else {}, if end.Slept? then {NREAD} else {};
    case Close(w) => woken, onto := {if w then NREAD else NWRITE}, {};
  }

  lemma KillIsStep(s: State, p: nat, g': SleepWakeup.Coarse<State>) returns (t: State)
    requires SleepWakeup.Woken(CoarseOf(s), p, g')
    ensures Step(s, Kill(p), t) && CoarseOf(t) == g'
  {
    t := s.(readers := s.readers - {p}, writers := s.writers - {p});
    forall x: (nat, nat)
      ensures x in CoarseOf(t).sleepers <==> x in g'.sleepers
    {
      assert x == (x.0, x.1);
    }
  }

  lemma MoveIsStep<V>(s: SleepWakeup.State<State, V>, a: SleepWakeup.Action<State>, u: State, g': SleepWakeup.Coarse<State>)
    returns (more: seq<State>, bs: seq<Action>)
    requires a.p < |s.ps| && SleepWakeup.Moves(s, a, CoarseOf(u), g') && FollowsHere(s, a)
    ensures (more == [] && bs == [] && CoarseOf(u) == g')
         || (|more| == |bs| == 1 && Step(u, bs[0], more[0]) && CoarseOf(more[0]) == g')
  {
    hide Follows, Step, CoarseOf;
    more, bs := [], [];
    if a.Release? || a.SleepRelease? {
      var onto: set<nat> := if a.Release? then {} else {s.ps[a.p].pc.c};
      var b :| Follows(SleepWakeup.Base(s), s.data, b, a.p, s.woken, onto);
      var t := StayIsStep(u, b, a.p, s.data, s.woken, onto, g');
      more, bs := [t], [b];
    } else if a.Kill? && CoarseOf(u) != g' {
      var t := KillIsStep(u, a.p, g');
      more, bs := [t], [Kill(a.p)];
    }
  }

  lemma {:induction false} RunOf<V>(ss: seq<SleepWakeup.State<State, V>>, acts: seq<SleepWakeup.Action<State>>, gs: seq<SleepWakeup.Coarse<State>>, k: nat)
    returns (us: seq<State>, bs: seq<Action>)
    requires |ss| == |acts| + 1 && FollowsCode(ss, acts) && k < |ss| && |gs| > k && gs[0] == CoarseOf(EMPTY)
    requires forall i {:trigger acts[i]} :: 0 <= i < k ==> acts[i].p < |ss[i].ps| && SleepWakeup.Moves(ss[i], acts[i], gs[i], gs[i + 1])
    ensures Run(us, bs) && CoarseOf(us[|bs|]) == gs[k]
  {
    hide Step, CoarseOf, SleepWakeup.Moves, FollowsHere;
    if k == 0 {
      us, bs := [EMPTY], [];
    } else {
      us, bs := RunOf(ss, acts, gs, k - 1);
      assert FollowsHere(ss[k - 1], acts[k - 1]);
      var more, cs := MoveIsStep(ss[k - 1], acts[k - 1], us[|bs|], gs[k]);
      us, bs := us + more, bs + cs;
    }
  }

  /** Every interleaving of the two halves of sleep, of wakeup's loop and of kill in which the stays in
      pi->lock follow pipe.c is a run of this module: whenever pi->lock is free, the pipe is what the
      run leaves, and its sleepers are those asleep or about to be. */
  lemma PipeRunOf<V>(view: (nat, State) -> SleepWakeup.Test<V>, ss: seq<SleepWakeup.State<State, V>>, acts: seq<SleepWakeup.Action<State>>, k: nat)
    returns (us: seq<State>, bs: seq<Action>)
    requires SleepWakeup.Execution(view, ss, acts) && FollowsCode(ss, acts) && k < |ss|
    ensures Run(us, bs)
    ensures ss[k].lk == -1 ==> us[|bs|].(readers := {}, writers := {}) == ss[k].data
    ensures ss[k].lk == -1 ==> forall q: nat {:trigger q in us[|bs|].readers} :: q in us[|bs|].readers <==> q < |ss[k].ps| && SleepWakeup.Committed(ss[k].ps[q], NREAD)
    ensures ss[k].lk == -1 ==> forall q: nat {:trigger q in us[|bs|].writers} :: q in us[|bs|].writers <==> q < |ss[k].ps| && SleepWakeup.Committed(ss[k].ps[q], NWRITE)
  {
    hide SleepWakeup.Step, SleepWakeup.Moves, SleepWakeup.Related, FollowsHere, Step;
    var gs := SleepWakeup.SleepIsOneStep(view, ss, acts, k);
    us, bs := RunOf(ss, acts, gs, k);
    var u := us[|bs|];
    if ss[k].lk == -1 {
      forall q: nat
        ensures q in u.readers <==> (q, NREAD) in gs[k].sleepers
        ensures q in u.writers <==> (q, NWRITE) in gs[k].sleepers
      {
      }
    }
  }

  /** So in each of them: first in, first out; never a reader and a writer asleep at once; and nobody
      sleeps in pipewrite on a pipe that is not full or has no reader. */
  lemma EveryInterleavingIsFifo<V>(view: (nat, State) -> SleepWakeup.Test<V>, ss: seq<SleepWakeup.State<State, V>>, acts: seq<SleepWakeup.Action<State>>, k: nat)
    requires SleepWakeup.Execution(view, ss, acts) && FollowsCode(ss, acts) && k < |ss| && ss[k].lk == -1
    ensures Fifo(ss[k].data) && ss[k].data.taken <= ss[k].data.written
    ensures forall q, r: nat :: 0 <= q < |ss[k].ps| && SleepWakeup.Committed(ss[k].ps[q], NWRITE) ==>
              && |ss[k].data.queue| == PIPESIZE && ss[k].data.readOpen
              && !(r < |ss[k].ps| && SleepWakeup.Committed(ss[k].ps[r], NREAD))
  {
    hide SleepWakeup.Execution, FollowsCode, Run, SleepWakeup.Committed;
    var us, bs := PipeRunOf(view, ss, acts, k);
    RunEnds(us, bs);
    PipeIsFifo(us, bs, |bs|);
    forall q: nat, r: nat | q < |ss[k].ps| && SleepWakeup.Committed(ss[k].ps[q], NWRITE)
      ensures |ss[k].data.queue| == PIPESIZE && ss[k].data.readOpen
      ensures !(r < |ss[k].ps| && SleepWakeup.Committed(ss[k].ps[r], NREAD))
    {
      assert q in us[|bs|].writers;
      assert r !in us[|bs|].readers;
    }
  }

  lemma RunEnds(us: seq<State>, bs: seq<Action>)
    requires Run(us, bs)
    ensures |us| == |bs| + 1
  {
  }

  // ---- sleeping readers ----

  /** A reader sleeps only while there is nothing to read. */
  predicate Readers(s: State) {
    s.readers != {} ==> s.queue == [] && s.writeOpen
  }

  /** A write that ends with -1 after it has stored bytes: pipewrite then wakes nobody. */
  predicate Unannounced(s: State, a: Action) {
    a.Write? && a.end.Refused? && a.k > 0 && s.readers != {}
  }

  /** A step leaves a reader asleep next to unread bytes exactly when it is such a write. */
  lemma ReadersExactly(s: State, a: Action, t: State)
    requires Fifo(s) && Writers(s) && Readers(s) && Step(s, a, t)
    ensures Readers(t) <==> !Unannounced(s, a)
  {
  }

  lemma {:induction false} NoReaderMissesBytes(ss: seq<State>, acts: seq<Action>, k: nat)
    requires Run(ss, acts) && k < |ss|
    requires forall i :: 0 <= i < k ==> !Unannounced(ss[i], acts[i])
    ensures Readers(ss[k])
  {
    if k > 0 {
      NoReaderMissesBytes(ss, acts, k - 1);
      PipeIsFifo(ss, acts, k - 1);
      assert Step(ss[k - 1], acts[k - 1], ss[k]);
      ReadersExactly(ss[k - 1], acts[k - 1], ss[k]);
    }
  }

  /** A writer that is killed between two bytes of one call leaves the first one in the pipe and
      the reader asleep. */
  lemma KilledWriterLosesWakeup() returns (ss: seq<State>, acts: seq<Action>)
    ensures Run(ss, acts) && !Readers(ss[|acts|])
  {
    var s0 := State([], true, true, {}, {}, [], []);
    var s1 := s0.(readers := {1});
    var s2 := s1.(queue := [7], written := [7]);
    ss, acts := [s0, s1, s2], [Read(1, 10, 0, false, Slept), Write(2, [7, 8], 1, Refused)];
    assert [7, 8][..1] == [7];
    assert Step(s0, acts[0], s1) && Step(s1, acts[1], s2);
  }

  // ---- 32-bit counters ----

  /** Counters that wrap around tell how full the ring is as long as it holds at most PIPESIZE. */
  lemma Wrapped(r: nat, n: nat)
    requires n <= PIPESIZE
    ensures (r + n) % UINT == (r % UINT + n) % UINT
    ensures (r + n) % UINT == (r % UINT + PIPESIZE) % UINT <==> n == PIPESIZE
    ensures (r + n) % UINT == r % UINT <==> n == 0
    ensures (r + n) % UINT % PIPESIZE == (r + n) % PIPESIZE
  {
    Residue(r, n);
    Residue(r, PIPESIZE);
    var q := (r + n) / UINT;
    assert UINT == PIPESIZE * 0x80_0000;
    SameRemainder((r + n) % UINT, q * 0x80_0000);
    assert r + n == (r + n) % UINT + PIPESIZE * (q * 0x80_0000);
  }

  lemma Residue(r: nat, n: nat)
    requires n <= PIPESIZE
    ensures (r + n) % UINT == if r % UINT + n < UINT then r % UINT + n else r % UINT + n - UINT
  {
    var q := r / UINT;
    assert r == q * UINT + r % UINT;
    if r % UINT + n < UINT {
      assert r + n == q * UINT + (r % UINT + n);
    } else {
      assert r + n == (q + 1) * UINT + (r % UINT + n - UINT);
    }
  }

  lemma {:induction false} SameRemainder(a: nat, k: nat)
    ensures (a + PIPESIZE * k) % PIPESIZE == a % PIPESIZE
  {
    if k > 0 {
      SameRemainder(a, k - 1);
      assert a + PIPESIZE * k == a + PIPESIZE * (k - 1) + PIPESIZE;
    }
  }

  function Slot(r: nat, k: nat): (i: nat)
    ensures i < PIPESIZE
  {
    (r + k) % PIPESIZE
  }

  lemma SlotsDiffer(r: nat, i: nat, j: nat)
    requires i < j < PIPESIZE
    ensures Slot(r, i) != Slot(r, j)
  {
  }

  /** The ring holds queue when r bytes have been taken out before. */
  ghost predicate Holds(data: seq<int>, r: nat, queue: seq<int>) {
    && |data| == PIPESIZE && |queue| <= PIPESIZE
    && forall k {:trigger Slot(r, k)} :: 0 <= k < |queue| ==> data[Slot(r, k)] == queue[k]
  }

  lemma PutHolds(data: seq<int>, r: nat, queue: seq<int>, ch: int)
    requires Holds(data, r, queue) && |queue| < PIPESIZE
    ensures Holds(data[Slot(r, |queue|) := ch], r, queue + [ch])
  {
  }

  lemma GetHolds(data: seq<int>, r: nat, queue: seq<int>)
    requires Holds(data, r, queue) && queue != []
    ensures data[Slot(r, 0)] == queue[0] && Holds(data, r + 1, queue[1..])
  {
    forall k {:trigger Slot(r + 1, k)} | 0 <= k < |queue| - 1
      ensures data[Slot(r + 1, k)] == queue[1..][k]
    {
      assert Slot(r + 1, k) == Slot(r, k + 1);
    }
  }

  /** The counters for r bytes taken and n bytes in the ring. */
  predicate Counters(nread: nat, nwrite: nat, r: nat, n: nat) {
    nread == r % UINT && nwrite == (r + n) % UINT
  }

  lemma CountersTell(nread: nat, nwrite: nat, r: nat, n: nat)
    requires Counters(nread, nwrite, r, n) && n <= PIPESIZE
    ensures nwrite == (nread + PIPESIZE) % UINT <==> n == PIPESIZE
    ensures nread == nwrite <==> n == 0
    ensures nread % PIPESIZE == Slot(r, 0) && nwrite % PIPESIZE == Slot(r, n)
  {
    Wrapped(r, n);
    Wrapped(r, 0);
  }

  lemma CountersMove(nread: nat, nwrite: nat, r: nat, n: nat)
    requires Counters(nread, nwrite, r, n) && n <= PIPESIZE
    ensures Counters(nread, (nwrite + 1) % UINT, r, n + 1)
    ensures n > 0 ==> Counters((nread + 1) % UINT, nwrite, r + 1, n - 1)
  {
    Residue(r, 1);
    Residue(r + n, 1);
  }

  lemma StoredMore(s: State, data: seq<int>, k: nat, t: State, u: State)
    requires Stored(s, data, k, t) && k < |data| && |t.queue| < PIPESIZE
    requires u == t.(queue := t.queue + [data[k]], written := t.written + [data[k]], readers := u.readers, writers := u.writers)
    ensures Stored(s, data, k + 1, u)
  {
  }

  lemma StoredIs(s: State, data: seq<int>, k: nat, t: State)
    requires Stored(s, data, k, t)
    ensures k <= |data| && t.queue == s.queue + data[..k] && t.written == s.written + data[..k]
    ensures t.taken == s.taken && t.readOpen == s.readOpen && t.writeOpen == s.writeOpen
  {
  }

  lemma NothingMoved(s: State, data: seq<int>, t: State)
    requires t == s.(readers := t.readers, writers := t.writers) && |s.queue| <= PIPESIZE
    ensures Stored(s, data, 0, t) && Took(s, 0, t)
  {
  }

  lemma StoredThenSet(s: State, data: seq<int>, k: nat, t: State, u: State)
    requires Stored(s, data, k, t) && u == t.(readers := u.readers, writers := u.writers)
    ensures Stored(s, data, k, u)
  {
  }

  lemma TookThenSet(s: State, k: nat, t: State, u: State)
    requires Took(s, k, t) && u == t.(readers := u.readers, writers := u.writers)
    ensures Took(s, k, u) && k + |u.queue| == |s.queue| && s.queue[..k] <= s.queue
    ensures u.queue == s.queue[k..] && u.taken == s.taken + s.queue[..k]
    ensures u.written == s.written && u.readOpen == s.readOpen && u.writeOpen == s.writeOpen
  {
  }

  lemma TookMore(s: State, k: nat, t: State, u: State)
    requires Took(s, k, t) && t.queue != []
    requires u == t.(queue := t.queue[1..], taken := t.taken + [t.queue[0]], readers := u.readers, writers := u.writers)
    ensures Took(s, k + 1, u) && s.queue[..k + 1] == s.queue[..k] + [t.queue[0]]
  {
  }

  lemma ReadReturns(s: State, pid: nat, n: nat, k: nat, lost: bool, t: State)
    requires Took(s, k, t) && k <= n && (lost ==> k > 0) && (s.queue != [] || !s.writeOpen)
    requires k < n && !lost ==> t.queue == []
    requires t.readers == s.readers - {pid} && t.writers == {}
    ensures Step(s, Read(pid, n, k, lost, Returned), t)
  {
  }

  lemma ReadWaits(s: State, pid: nat, n: nat, lost: bool, t: State)
    requires s.queue == [] && s.writeOpen
    ensures t == s.(readers := s.readers + {pid}) ==> Step(s, Read(pid, n, 0, lost, Slept), t)
    ensures t == s.(readers := s.readers - {pid}) ==> Step(s, Read(pid, n, 0, lost, Refused), t)
  {
  }

  // ---- the code ----

  class Pipe {
    const data: array<int>
    var nread: nat
    var nwrite: nat
    var readOpen: bool
    var writeOpen: bool
    ghost var r: nat
    ghost var queue: seq<int>
    ghost var readers: set<nat>
    ghost var writers: set<nat>
    ghost var written: seq<int>
    ghost var taken: seq<int>

    /** r counts all bytes ever taken; the ring holds queue from r on. */
    ghost predicate Valid()
      reads this, data
    {
      && data.Length == PIPESIZE && Holds(data[..], r, queue) && |queue| <= PIPESIZE
      && Counters(nread, nwrite, r, |queue|)
    }

    ghost function Abstract(): State
      reads this
    {
      State(queue, readOpen, writeOpen, readers, writers, written, taken)
    }

    /** pipealloc. */
    constructor ()
      ensures Valid() && fresh(data) && Abstract() == EMPTY
    {
      data := new int[PIPESIZE](_ => 0);
      nread, nwrite, readOpen, writeOpen := 0, 0, true, true;
      r, queue, readers, writers, written, taken := 0, [], {}, {}, [], [];
    }

    method Put(ch: int)
      requires Valid() && |queue| < PIPESIZE
      modifies this`nwrite, this`queue, this`written, data
      ensures Valid() && queue == old(queue) + [ch] && written == old(written) + [ch]
    {
      hide Holds, Slot, Counters;
      CountersTell(nread, nwrite, r, |queue|);
      CountersMove(nread, nwrite, r, |queue|);
      PutHolds(data[..], r, queue, ch);
      data[nwrite % PIPESIZE] := ch;
      assert data[..] == old(data[..])[Slot(r, |queue|) := ch];
      nwrite := (nwrite + 1) % UINT;
      queue, written := queue + [ch], written + [ch];
    }

    method Get() returns (ch: int)
      requires Valid() && queue != []
      modifies this`nread, this`queue, this`taken, this`r
      ensures Valid() && ch == old(queue)[0] && queue == old(queue)[1..] && taken == old(taken) + [ch]
    {
      hide Holds, Slot, Counters;
      CountersTell(nread, nwrite, r, |queue|);
      CountersMove(nread, nwrite, r, |queue|);
      GetHolds(data[..], r, queue);
      ch := data[nread % PIPESIZE];
      nread := (nread + 1) % UINT;
      r, taken := r + 1, taken + [ch];
      queue := queue[1..];
    }

    /** One stay of pipewrite in the lock: the process is killed once killAt bytes are stored, and
        copyin fails at byte failAt. */
    method PipeWrite(pid: nat, src: seq<int>, killAt: nat, failAt: nat) returns (i: nat, end: End)
      requires Valid()
      modifies this, data
      ensures Valid() && Step(old(Abstract()), Write(pid, src, i, end), Abstract())
      ensures i <= killAt && i <= failAt && (end.Returned? ==> i == |src| || i == failAt)
      ensures end.Refused? ==> i < |src| && (!old(readOpen) || i == killAt)
      ensures end.Slept? ==> i < |src| && |queue| == PIPESIZE && old(readOpen) && i < killAt
      ensures i <= |src| && queue == old(queue) + src[..i] && written == old(written) + src[..i]
      ensures readers == (if end.Refused? then old(readers) else {})
      ensures writers == old(writers) - {pid} + (if end.Slept? then {pid} else {})
      ensures taken == old(taken) && readOpen == old(readOpen) && writeOpen == old(writeOpen)
    {
      hide Holds, Slot, Counters, Stored;
      ghost var s := Abstract();
      NothingMoved(Abstract(), src, Abstract().(writers := writers - {pid}));
      i := 0;
      writers := writers - {pid};
      while i < |src|
        invariant 0 <= i <= |src| && Valid() && i <= killAt && i <= failAt
        invariant Stored(s, src, i, Abstract())
        invariant readers == s.readers && writers == s.writers - {pid}
        invariant readOpen == s.readOpen
      {
        StoredIs(s, src, i, Abstract());
        if !readOpen || i == killAt {
          return i, Refused;
        }
        CountersTell(nread, nwrite, r, |queue|);
        if nwrite == (nread + PIPESIZE) % UINT {
          ghost var t := Abstract();
          readers := {};
          writers := writers + {pid};
          StoredThenSet(s, src, i, t, Abstract());
          return i, Slept;
        }
        if i == failAt {
          break;
        }
        ghost var t := Abstract();
        Put(src[i]);
        StoredMore(s, src, i, t, Abstract());
        i := i + 1;
      }
      ghost var u := Abstract();
      readers := {};
      StoredThenSet(s, src, i, u, Abstract());
      StoredIs(s, src, i, Abstract());
      end := Returned;
    }

    /** One stay of piperead in the lock; copyout fails at byte failAt. */
    method PipeRead(pid: nat, n: nat, killed: bool, failAt: nat) returns (out: seq<int>, lost: bool, end: End)
      requires Valid()
      modifies this, data
      ensures Valid()
      ensures Step(old(Abstract()), Read(pid, n, |out| + if lost then 1 else 0, lost, end), Abstract())
      ensures out <= old(queue) && |out| <= n && (end.Returned? && !lost ==> |out| == n || |out| == old(|queue|))
      ensures lost <==> end.Returned? && failAt < n && failAt < old(|queue|)
      ensures lost ==> |out| == failAt
      ensures var k := |out| + if lost then 1 else 0;
        k <= old(|queue|) && queue == old(queue)[k..] && taken == old(taken) + old(queue)[..k]
      ensures end.Slept? || end.Refused? ==> out == [] && old(queue) == [] && old(writeOpen) && (end.Refused? <==> killed)
      ensures end.Returned? ==> old(queue) != [] || !old(writeOpen)
      ensures writers == (if end.Returned? then {} else old(writers))
      ensures readers == old(readers) - {pid} + (if end.Slept? then {pid} else {})
      ensures written == old(written) && readOpen == old(readOpen) && writeOpen == old(writeOpen)
    {
      hide Holds, Slot, Counters, Took, Step;
      ghost var s := Abstract();
      NothingMoved(Abstract(), [], Abstract().(readers := readers - {pid}));
      out, lost := [], false;
      readers := readers - {pid};
      CountersTell(nread, nwrite, r, |queue|);
      if nread == nwrite && writeOpen {
        ReadWaits(s, pid, n, lost, Abstract());
        ReadWaits(s, pid, n, lost, Abstract().(readers := readers + {pid}));
        if killed {
          return out, lost, Refused;
        }
        readers := readers + {pid};
        return out, lost, Slept;
      }
      var i := 0;
      while i < n
        invariant 0 <= i <= n && Valid() && i == |out| <= |s.queue| && !lost && i <= failAt
        invariant i + |queue| == |s.queue| && out == s.queue[..i] && Took(s, i, Abstract())
        invariant readers == s.readers - {pid} && writers == s.writers
      {
        CountersTell(nread, nwrite, r, |queue|);
        if nread == nwrite {
          break;
        }
        ghost var t := Abstract();
        var ch := Get();
        TookMore(s, i, t, Abstract());
        if i == failAt {
          lost := true;
          break;
        }
        out := out + [ch];
        i := i + 1;
      }
      ghost var u := Abstract();
      writers := {};
      TookThenSet(s, if lost then i + 1 else i, u, Abstract());
      ReadReturns(s, pid, n, if lost then i + 1 else i, lost, Abstract());
      end := Returned;
    }

    method PipeClose(writable: bool)
      requires Valid()
      modifies this`readOpen, this`writeOpen, this`readers, this`writers
      ensures Valid() && Step(old(Abstract()), Close(writable), Abstract())
      ensures writable ==> !writeOpen && readers == {} && readOpen == old(readOpen) && writers == old(writers)
      ensures !writable ==> !readOpen && writers == {} && writeOpen == old(writeOpen) && readers == old(readers)
    {
      if writable {
        writeOpen := false;
        readers := {};
      } else {
        readOpen := false;
        writers := {};
      }
    }
  }
}
