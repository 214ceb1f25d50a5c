/** The multi-level feedback queue of XV6-1: the selection in scheduler(), aging in
    update_time(), and the time slices in usertrap(), run as a state machine.

    A tick is one call of update_time.  One selection of the scheduler is one step. */
module Mlfq {
  import opened Sets

  const NPROC: nat := 64
  const QUEUES: nat := 4
  const AGING: nat := 30

  datatype PState = Unused | Used | Sleeping | Runnable | Running | Zombie
  datatype Proc = Proc(state: PState, que: nat, wtime: nat, qtime: nat)

  type Table = seq<Proc>

  /** Timer interrupts in user mode that a queue allows before the next one ends the slice. */
  function Limit(que: nat): nat {
    if que == 0 then 1 else if que == 1 then 3 else if que == 2 then 9 else 15
  }

  // ---- selection ----

  /** q is the lowest queue with a runnable process, or the last queue when there is none. */
  ghost predicate Lowest(s: Table, q: nat) {
    && q < QUEUES
    && (forall i :: 0 <= i < |s| && s[i].state == Runnable ==> q <= s[i].que)
    && (q < QUEUES - 1 ==> exists i :: 0 <= i < |s| && s[i].state == Runnable && s[i].que == q)
  }

  predicate Eligible(s: Table, q: nat, i: int) {
    0 <= i < |s| && s[i].state == Runnable && s[i].que == q && s[i].wtime > 0
  }

  /** i comes before j in its queue: it has waited longer, or as long and has a lower index. */
  predicate Before(s: Table, i: int, j: int)
    requires 0 <= i < |s| && 0 <= j < |s|
  {
    s[i].wtime > s[j].wtime || (s[i].wtime == s[j].wtime && i < j)
  }

  /** r is the process to dispatch from queue q, -1 for none. */
  ghost predicate Chosen(s: Table, q: nat, r: int) {
    if r == -1 then forall i :: !Eligible(s, q, i)
    else Eligible(s, q, r) && forall i :: Eligible(s, q, i) && i != r ==> Before(s, r, i)
  }

  lemma ChosenIsUnique(s: Table, q: nat, r: int, q': nat, r': int)
    requires Lowest(s, q) && Chosen(s, q, r) && Lowest(s, q') && Chosen(s, q', r')
    ensures q == q' && r == r'
  {
  }

  // ---- the other steps, one process at a time ----

  /** update_time's treatment of one process. */
  function TickOne(p: Proc): Proc {
    if p.state != Runnable then p
    else
      var w := p.wtime + 1;
      if w > AGING && p.que > 0 then p.(que := p.que - 1, wtime := 0) else p.(wtime := w)
  }

  function Tick(s: Table): Table {
    seq(|s|, i requires 0 <= i < |s| => TickOne(s[i]))
  }

  /** usertrap's block for a timer interrupt in a running process; a yield makes it runnable. */
  function TimerOne(p: Proc): Proc {
    if p.qtime + 1 > Limit(p.que) then
      Proc(Runnable, if p.que < QUEUES - 1 then p.que + 1 else p.que, 0, 0)
    else p.(qtime := p.qtime + 1)
  }

  function Dispatched(p: Proc): Proc { Proc(Running, p.que, 0, 0) }

  function Fresh(): Proc { Proc(Used, 0, 0, 0) }

  // ---- the machine ----

  datatype Action =
    | Select(q: nat, r: int)
    | Clock
    | Timer(i: nat)
    | Move(i: nat, to: PState)
    | Alloc(i: nat)

  /** State changes outside the scheduler: yield from kerneltrap, sleep, exit, wakeup or kill,
      fork's last step, and freeproc. */
  predicate Moves(from: PState, to: PState) {
    match from
    case Running => to in {Runnable, Sleeping, Zombie}
    case Sleeping => to == Runnable
    case Used => to in {Runnable, Unused}
    case Zombie => to == Unused
    case _ => false
  }

  ghost predicate Step(s: Table, a: Action, t: Table) {
    match a
    case Select(q, r) =>
      && Lowest(s, q) && Chosen(s, q, r)
      && t == if r == -1 then s else s[r := Dispatched(s[r])]
    case Clock => t == Tick(s)
    case Timer(i) => i < |s| && s[i].state == Running && t == s[i := TimerOne(s[i])]
    case Move(i, to) => i < |s| && Moves(s[i].state, to) && t == s[i := s[i].(state := to)]
    case Alloc(i) => i < |s| && s[i].state == Unused && t == s[i := Fresh()]
  }

  predicate ProcOk(p: Proc) {
    && p.que < QUEUES
    && (p.state in {Used, Sleeping, Running} ==> p.wtime == 0)
    && (p.state == Running ==> p.qtime <= Limit(p.que))
    && (p.state == Runnable && p.que > 0 ==> p.wtime <= AGING)
  }

  predicate Inv(s: Table) {
    forall i :: 0 <= i < |s| ==> ProcOk(s[i])
  }

  ghost predicate Run(ss: seq<Table>, acts: seq<Action>) {
    && |ss| == |acts| + 1 && Inv(ss[0])
    && forall k :: 0 <= k < |acts| ==> Step(ss[k], acts[k], ss[k + 1])
  }

  lemma StepKeeps(s: Table, a: Action, t: Table)
    requires Inv(s) && Step(s, a, t)
    ensures Inv(t) && |t| == |s|
  {
  }

  lemma {:induction false} RunKeeps(ss: seq<Table>, acts: seq<Action>, k: nat)
    requires Run(ss, acts) && k < |ss|
    ensures Inv(ss[k]) && |ss[k]| == |ss[0]|
  {
    if k > 0 {
      RunKeeps(ss, acts, k - 1);
      assert Step(ss[k - 1], acts[k - 1], ss[k]);
      StepKeeps(ss[k - 1], acts[k - 1], ss[k]);
    }
  }

  // ---- bounded overtaking ----

  predicate Waiting(s: Table, p: nat) {
    p < |s| && s[p].state == Runnable
  }

  /** Runnable in queue 0 and counted at least once by update_time. */
  predicate Ready(s: Table, p: nat) {
    Waiting(s, p) && s[p].que == 0 && s[p].wtime >= 1
  }

  /** The processes that can still be dispatched before p. */
  function Ahead(s: Table, p: nat): set<nat>
    requires p < |s|
  {
    set i: nat | i < |s| && Eligible(s, 0, i) && Before(s, i, p)
  }

  predicate Dispatches(a: Action, p: nat) {
    a.Select? && a.r == p
  }

  /** One step that does not dispatch p: nobody joins the processes ahead of p, and a selection
      takes one of them away. */
  lemma AheadShrinks(s: Table, a: Action, t: Table, p: nat)
    requires Inv(s) && Step(s, a, t) && Ready(s, p) && !Dispatches(a, p)
    ensures Ready(t, p) && Ahead(t, p) <= Ahead(s, p)
    ensures a.Select? ==> a.r in Ahead(s, p) && a.r !in Ahead(t, p)
  {
    if a.Select? {
      assert Eligible(s, 0, p);
      assert a.q == 0;
      assert a.r != -1;
    }
    forall i: nat | i in Ahead(t, p)
      ensures i in Ahead(s, p)
    {
    }
  }

  function Selections(acts: seq<Action>): nat {
    if acts == [] then 0 else (if acts[0].Select? then 1 else 0) + Selections(acts[1..])
  }

  lemma RunTail(ss: seq<Table>, acts: seq<Action>)
    requires Run(ss, acts) && acts != []
    ensures Run(ss[1..], acts[1..])
  {
  }

  lemma {:induction false} OvertakenByAhead(ss: seq<Table>, acts: seq<Action>, p: nat)
    requires Run(ss, acts) && Ready(ss[0], p)
    requires forall a :: a in acts ==> !Dispatches(a, p)
    ensures Ready(ss[|acts|], p)
    ensures Selections(acts) + |Ahead(ss[|acts|], p)| <= |Ahead(ss[0], p)|
  {
    hide Ahead, Step, Inv;
    if acts != [] {
      assert Step(ss[0], acts[0], ss[1]);
      AheadShrinks(ss[0], acts[0], ss[1], p);
      RunTail(ss, acts);
      OvertakenByAhead(ss[1..], acts[1..], p);
      SubsetSize(Ahead(ss[1], p), Ahead(ss[0], p));
      if acts[0].Select? {
        SubsetSize(Ahead(ss[1], p), Ahead(ss[0], p) - {acts[0].r as nat});
      }
    }
  }

  lemma AheadSize(s: Table, p: nat)
    requires p < |s|
    ensures |Ahead(s, p)| <= |s| - 1
  {
    var all := Ahead(s, p) + {p};
    assert p !in Ahead(s, p);
    RangeSize(all, 0, |s|);
  }

  /** Once p is runnable in queue 0 with wtime >= 1, at most as many other dispatches precede it
      as there are processes ahead of it, so never more than n - 1; and no selection is idle. */
  lemma BoundedOvertaking(ss: seq<Table>, acts: seq<Action>, p: nat)
    requires Run(ss, acts) && Ready(ss[0], p)
    requires forall a :: a in acts ==> !Dispatches(a, p)
    ensures Selections(acts) <= |Ahead(ss[0], p)| <= |ss[0]| - 1
  {
    OvertakenByAhead(ss, acts, p);
    AheadSize(ss[0], p);
  }

  // ---- aging ----

  /** Ticks that p still needs to become Ready. */
  function TicksLeft(x: Proc): int {
    if x.que == 0 then (if x.wtime == 0 then 1 else 0) else 31 * x.que + 1 - x.wtime
  }

  function Ticks(acts: seq<Action>): nat {
    if acts == [] then 0 else (if acts[0].Clock? then 1 else 0) + Ticks(acts[1..])
  }

  lemma WaitingAges(s: Table, a: Action, t: Table, p: nat)
    requires Inv(s) && Step(s, a, t) && Waiting(s, p) && !Dispatches(a, p)
    ensures Waiting(t, p)
    ensures !a.Clock? ==> t[p] == s[p]
    ensures a.Clock? ==> TicksLeft(t[p]) == if TicksLeft(s[p]) == 0 then 0 else TicksLeft(s[p]) - 1
  {
  }

  lemma {:induction false} AgesToReady(ss: seq<Table>, acts: seq<Action>, p: nat)
    requires Run(ss, acts) && Waiting(ss[0], p)
    requires forall a :: a in acts ==> !Dispatches(a, p)
    ensures Waiting(ss[|acts|], p)
    ensures TicksLeft(ss[|acts|][p]) <= if Ticks(acts) < TicksLeft(ss[0][p]) then TicksLeft(ss[0][p]) - Ticks(acts) else 0
  {
    RunKeeps(ss, acts, 0);
    if acts != [] {
      assert Step(ss[0], acts[0], ss[1]);
      WaitingAges(ss[0], acts[0], ss[1], p);
      RunTail(ss, acts);
      hide Step, Inv;
      AgesToReady(ss[1..], acts[1..], p);
    }
  }

  lemma ReadyWhenNoTicksLeft(s: Table, p: nat)
    requires Inv(s) && Waiting(s, p)
    ensures Ready(s, p) <==> TicksLeft(s[p]) <= 0
    ensures TicksLeft(s[p]) <= 31 * s[p].que + 1
  {
  }

  /** From queue q a waiting process reaches Ready within 31 * q + 1 ticks, unless it has been
      dispatched before; and from then on at most n - 1 other dispatches precede it. */
  lemma NoStarvation(ss: seq<Table>, acts: seq<Action>, p: nat, k: nat)
    requires Run(ss, acts) && Waiting(ss[0], p) && k <= |acts|
    requires forall a :: a in acts ==> !Dispatches(a, p)
    requires Ticks(acts[..k]) >= 31 * ss[0][p].que + 1
    ensures Ready(ss[k], p)
    ensures Selections(acts[k..]) <= |ss[0]| - 1
  {
    hide Step;
    assert Run(ss[..k + 1], acts[..k]) by {
      forall j | 0 <= j < k
        ensures Step(ss[..k + 1][j], acts[..k][j], ss[..k + 1][j + 1])
      {
        assert Step(ss[j], acts[j], ss[j + 1]);
      }
    }
    RunKeeps(ss, acts, 0);
    RunKeeps(ss, acts, k);
    AgesToReady(ss[..k + 1], acts[..k], p);
    ReadyWhenNoTicksLeft(ss[0], p);
    ReadyWhenNoTicksLeft(ss[k], p);
    assert Run(ss[k..], acts[k..]) by {
      forall j | 0 <= j < |acts[k..]|
        ensures Step(ss[k..][j], acts[k..][j], ss[k..][j + 1])
      {
        assert Step(ss[k + j], acts[k + j], ss[k + j + 1]);
      }
    }
    BoundedOvertaking(ss[k..], acts[k..], p);
  }

  // ---- when the scheduler idles ----

  /** The scheduler leaves the CPU idle exactly when every runnable process of the lowest
      occupied queue has wtime 0, however long processes in the other queues have waited. */
  lemma IdleExactly(s: Table, q: nat, r: int)
    requires Inv(s) && Lowest(s, q) && Chosen(s, q, r)
    ensures r == -1 <==> forall i :: 0 <= i < |s| && s[i].state == Runnable && s[i].wtime > 0 ==>
                           exists j :: 0 <= j < |s| && s[j].state == Runnable && s[j].que < s[i].que
  {
    if r == -1 {
      forall i | 0 <= i < |s| && s[i].state == Runnable && s[i].wtime > 0
        ensures exists j :: 0 <= j < |s| && s[j].state == Runnable && s[j].que < s[i].que
      {
        assert !Eligible(s, q, i);
        assert q < s[i].que;
      }
    }
  }

  /** A process that has waited 20 ticks in queue 1 is passed over, and the CPU idles, because a
      process has just become runnable in queue 0. */
  lemma IdlesWithWork() returns (s: Table)
    ensures Inv(s) && exists i :: 0 <= i < |s| && s[i].state == Runnable && s[i].wtime == 20
    ensures Lowest(s, 0) && Chosen(s, 0, -1)
  {
    s := [Proc(Runnable, 1, 20, 0), Proc(Runnable, 0, 0, 0)];
    assert s[0].wtime == 20 && s[1].que == 0;
  }

  // ---- time slices ----

  function Timers(p: Proc, k: nat): Proc {
    if k == 0 then p else TimerOne(Timers(p, k - 1))
  }

  /** A process dispatched from queue 0, 1, 2 or 3 keeps the CPU for 1, 3, 9 or 15 timer interrupts in user
      mode; the next one moves it down one queue, if there is one, and ends its turn. */
  lemma {:induction false} SliceLength(p: Proc, k: nat)
    requires p.que < QUEUES && k <= [1, 3, 9, 15][p.que] + 1
    ensures Timers(Dispatched(p), k) ==
      if k <= [1, 3, 9, 15][p.que] then Proc(Running, p.que, 0, k)
      else Proc(Runnable, if p.que == QUEUES - 1 then p.que else p.que + 1, 0, 0)
  {
    if k > 0 {
      SliceLength(p, k - 1);
    }
  }

  // ---- the code ----

  class Scheduler {
    const proc: array<Proc>

    ghost predicate Valid()
      reads this, proc
    {
      proc.Length == NPROC && Inv(proc[..])
    }

    constructor ()
      ensures Valid() && fresh(proc)
      ensures forall i :: 0 <= i < NPROC ==> proc[i].state == Unused
    {
      proc := new Proc[NPROC](_ => Proc(Unused, 0, 0, 0));
    }

    /** The first loop of the MLFQ arm of scheduler(). */
    method MinQue() returns (minQue: nat)
      requires Valid()
      ensures Lowest(proc[..], minQue)
    {
      minQue := QUEUES - 1;
      var i := 0;
      ghost var w := -1;
      while i < NPROC
        invariant 0 <= i <= NPROC && minQue < QUEUES
        invariant forall j :: 0 <= j < i && proc[j].state == Runnable ==> minQue <= proc[j].que
        invariant minQue < QUEUES - 1 ==> 0 <= w < i && proc[w].state == Runnable && proc[w].que == minQue
      {
        if proc[i].state == Runnable && proc[i].que < minQue {
          minQue := proc[i].que;
          w := i;
          if minQue == 0 {
            assert proc[..][w] == proc[w];
            return;
          }
        }
        i := i + 1;
      }
      if minQue < QUEUES - 1 {
        assert proc[..][w] == proc[w];
      }
    }

    /** The two loops that pick the process to run. */
    method Pick() returns (minQue: nat, pick: int)
      requires Valid()
      ensures Lowest(proc[..], minQue) && Chosen(proc[..], minQue, pick)
    {
      minQue := MinQue();
      var maxwtime := 0;
      pick := -1;
      var i := 0;
      while i < NPROC
        invariant 0 <= i <= NPROC && -1 <= pick < i
        invariant maxwtime == if pick == -1 then 0 else proc[pick].wtime
        invariant pick != -1 ==> Eligible(proc[..], minQue, pick)
        invariant forall j :: 0 <= j < i && Eligible(proc[..], minQue, j) && j != pick ==>
                    pick != -1 && Before(proc[..], pick, j)
      {
        if proc[i].state == Runnable && proc[i].que == minQue && proc[i].wtime > maxwtime {
          maxwtime := proc[i].wtime;
          pick := i;
        }
        i := i + 1;
      }
    }

    /** One selection: the chosen process starts to run. */
    method Schedule() returns (minQue: nat, pick: int)
      requires Valid()
      modifies proc
      ensures Valid() && Step(old(proc[..]), Select(minQue, pick), proc[..])
      ensures pick == -1 ==> proc[..] == old(proc[..])
      ensures pick != -1 ==> 0 <= pick < NPROC && old(proc[pick].state) == Runnable
      ensures pick != -1 ==> proc[..] == old(proc[..])[pick := Proc(Running, old(proc[pick].que), 0, 0)]
    {
      minQue, pick := Pick();
      if pick != -1 {
        proc[pick] := proc[pick].(state := Running, wtime := 0, qtime := 0);
        assert proc[..] == old(proc[..])[pick := Dispatched(old(proc[pick]))];
      }
      StepKeeps(old(proc[..]), Select(minQue, pick), proc[..]);
    }

    /** One tick: a runnable process has waited one tick more, or 31 and moves up a queue; nobody else
        changes. */
    method UpdateTime()
      requires Valid()
      modifies proc
      ensures Valid() && Step(old(proc[..]), Clock, proc[..])
      ensures forall i :: 0 <= i < NPROC && old(proc[i].state) != Runnable ==> proc[i] == old(proc[i])
      ensures forall i :: 0 <= i < NPROC && old(proc[i].state) == Runnable ==>
        && proc[i].state == Runnable && proc[i].qtime == old(proc[i].qtime)
        && if old(proc[i].que) > 0 && old(proc[i].wtime) + 1 >= 31
           then proc[i].que == old(proc[i].que) - 1 && proc[i].wtime == 0
           else proc[i].que == old(proc[i].que) && proc[i].wtime == old(proc[i].wtime) + 1
    {
      var i := 0;
      while i < NPROC
        invariant 0 <= i <= NPROC
        invariant forall j :: 0 <= j < i ==> proc[j] == TickOne(old(proc[j]))
        invariant forall j :: i <= j < NPROC ==> proc[j] == old(proc[j])
      {
        if proc[i].state == Runnable {
          proc[i] := proc[i].(wtime := proc[i].wtime + 1);
          if proc[i].wtime > AGING {
            if proc[i].que > 0 {
              proc[i] := proc[i].(que := proc[i].que - 1, wtime := 0);
            }
          }
        }
        i := i + 1;
      }
      assert proc[..] == Tick(old(proc[..]));
      StepKeeps(old(proc[..]), Clock, proc[..]);
    }

    /** The timer block of usertrap() for the running process i, with yield(). */
    method TimerInterrupt(i: nat)
      requires Valid() && i < NPROC && proc[i].state == Running
      modifies proc
      ensures Valid() && Step(old(proc[..]), Timer(i), proc[..])
      ensures var p := old(proc[i]);
        proc[..] == old(proc[..])[i :=
          if p.qtime < [1, 3, 9, 15][p.que] then p.(qtime := p.qtime + 1)
          else Proc(Runnable, [1, 2, 3, 3][p.que], 0, 0)]
    {
      var p := proc[i].(qtime := proc[i].qtime + 1);
      if p.que == 0 && p.qtime > 1 {
        p := p.(que := p.que + 1, qtime := 0, wtime := 0, state := Runnable);
      } else if p.que == 1 && p.qtime > 3 {
        p := p.(que := p.que + 1, qtime := 0, wtime := 0, state := Runnable);
      } else if p.que == 2 && p.qtime > 9 {
        p := p.(que := p.que + 1, qtime := 0, wtime := 0, state := Runnable);
      } else if p.que == 3 && p.qtime > 15 {
        p := p.(qtime := 0, wtime := 0, state := Runnable);
      }
      proc[i] := p;
      assert proc[..] == old(proc[..])[i := TimerOne(old(proc[i]))];
      StepKeeps(old(proc[..]), Timer(i), proc[..]);
    }

    /** The MLFQ fields of allocproc(); -1 when the table is full. */
    method AllocProc() returns (i: int)
      requires Valid()
      modifies proc
      ensures Valid()
      ensures i == -1 ==> proc[..] == old(proc[..]) && forall j :: 0 <= j < NPROC ==> proc[j].state != Unused
      ensures i != -1 ==> 0 <= i < NPROC && Step(old(proc[..]), Alloc(i), proc[..])
      ensures i != -1 ==> old(proc[i].state) == Unused && forall j :: 0 <= j < i ==> proc[j].state != Unused
      ensures i != -1 ==> proc[i].state == Used && proc[i].que == 0 && proc[i].wtime == 0 && proc[i].qtime == 0
      ensures i != -1 ==> proc[..] == old(proc[..])[i := proc[i]]
    {
      i := 0;
      while i < NPROC && proc[i].state != Unused
        invariant 0 <= i <= NPROC
        invariant forall j :: 0 <= j < i ==> proc[j].state != Unused
      {
        i := i + 1;
      }
      if i == NPROC {
        return -1;
      }
      proc[i] := Proc(Used, 0, 0, 0);
      assert proc[..] == old(proc[..])[i := Fresh()];
      StepKeeps(old(proc[..]), Alloc(i), proc[..]);
    }
  }
}
