/** exit, wait and fork over sleep and wakeup (proc.c), as interleaved steps.

    Every step of the machine is what one process does between two points where another can run:
    taking or releasing wait_lock, one turn of a loop that takes the lock of one process table
    entry, and the two halves of sleep.  A process holds its own p->lock from one step to the next
    only inside sleep and after it has become a zombie; see Locked. */
module WaitExit {
  datatype Chan = OnProc(q: nat) | Other

  /** RUNNABLE and RUNNING are not told apart. */
  datatype PState = Unused | Used | Sleeping(chan: Chan) | Runnable | Zombie

  /** Where a process is in the kernel. */
  datatype Pc =
    | Idle
    | Run
    | ExitReparent(k: nat)
    | ExitWakeInit(k: nat, j: nat)
    | ExitWakeParent(j: nat)
    | ExitMark
    | Dead
    | Gone
    | WaitScan(k: nat, kids: bool)
    | SleepLocked
    | SleepFree
    | Asleep
    | OtherSleep
    | Forked(np: nat)
    | Linked(np: nat)

  /** parent is -1 for the null pointer. */
  datatype Proc = Proc(st: PState, parent: int, pc: Pc)

  /** lock is the holder of wait_lock, -1 when it is free. */
  datatype State = State(ps: seq<Proc>, init: nat, lock: int)

  datatype Action =
    | ExitStart(p: nat)
    | ReparentStep(p: nat)
    | WakeInitStep(p: nat)
    | WakeParentStep(p: nat)
    | Mark(p: nat)
    | Sched(p: nat)
    | WaitStart(p: nat)
    | ScanStep(p: nat, fail: bool)
    | ScanEnd(p: nat, killed: bool)
    | SleepRelease(p: nat)
    | SleepSched(p: nat)
    | Resume(p: nat)
    | ForkAlloc(p: nat, np: nat)
    | ForkFail(p: nat)
    | ForkLink(p: nat)
    | ForkRun(p: nat)
    | SleepOther(p: nat)
    | Woken(p: nat)
    | Kill(p: nat)

  /** The entry's own lock is held between steps. */
  predicate Locked(x: Proc) { x.pc.SleepLocked? || x.pc.SleepFree? || x.pc.Dead? }

  predicate HoldsLock(pc: Pc) {
    pc.ExitReparent? || pc.ExitWakeInit? || pc.ExitWakeParent? || pc.ExitMark? || pc.WaitScan? || pc.SleepLocked?
  }

  /** What wakeup(chan) makes of an entry. */
  function Called(x: Proc, chan: Chan): Proc { if x.st == Sleeping(chan) then x.(st := Runnable) else x }

  function ParentChan(x: Proc): Chan { if x.parent < 0 then Other else OnProc(x.parent) }

  /** freeproc's result. */
  const FREE := Proc(Unused, -1, Idle)

  /** When an action can be taken. */
  predicate Can(s: State, a: Action) {
    var p, n := a.p, |s.ps|;
    p < n &&
    var pc := s.ps[p].pc;
    match a
    case ExitStart(_) => pc.Run? && p != s.init && s.lock == -1
    case ReparentStep(_) => pc.ExitReparent?
    case WakeInitStep(_) => pc.ExitWakeInit? && (pc.j < n && pc.j != p ==> !Locked(s.ps[pc.j]))
    case WakeParentStep(_) => pc.ExitWakeParent? && (pc.j < n && pc.j != p ==> !Locked(s.ps[pc.j]))
    case Mark(_) => pc.ExitMark?
    case Sched(_) => pc.Dead?
    case WaitStart(_) => pc.Run? && s.lock == -1
    case ScanStep(_, _) => pc.WaitScan? && pc.k < n && (s.ps[pc.k].parent == p ==> !Locked(s.ps[pc.k]))
    case ScanEnd(_, _) => pc.WaitScan? && pc.k >= n
    case SleepRelease(_) => pc.SleepLocked?
    case SleepSched(_) => pc.SleepFree?
    case Resume(_) => pc.Asleep? && s.ps[p].st.Runnable? && s.lock == -1
    case ForkAlloc(_, np) => pc.Run? && np < n && s.ps[np].st.Unused?
    case ForkFail(_) => pc.Forked? && pc.np < n
    case ForkLink(_) => pc.Forked? && pc.np < n && s.lock == -1
    case ForkRun(_) => pc.Linked? && pc.np < n
    case SleepOther(_) => pc.Run?
    case Woken(_) => pc.OtherSleep? && s.ps[p].st.Runnable?
    case Kill(_) => !Locked(s.ps[p])
  }

  /** Where the acting process goes. */
  function Goes(s: State, a: Action): Pc
    requires Can(s, a)
  {
    var p, n, pc := a.p, |s.ps|, s.ps[a.p].pc;
    match a
    case ExitStart(_) => ExitReparent(0)
    case ReparentStep(_) =>
      if pc.k >= n then ExitWakeParent(0)
      else if s.ps[pc.k].parent == p then ExitWakeInit(pc.k, 0)
      else ExitReparent(pc.k + 1)
    case WakeInitStep(_) => if pc.j >= n then ExitReparent(pc.k + 1) else ExitWakeInit(pc.k, pc.j + 1)
    case WakeParentStep(_) => if pc.j >= n then ExitMark else ExitWakeParent(pc.j + 1)
    case Mark(_) => Dead
    case Sched(_) => Gone
    case WaitStart(_) => WaitScan(0, false)
    case ScanStep(_, _) => if Finds(s, a) then Run else WaitScan(pc.k + 1, pc.kids || s.ps[pc.k].parent == p)
    case ScanEnd(_, killed) => if !pc.kids || killed then Run else SleepLocked
    case SleepRelease(_) => SleepFree
    case SleepSched(_) => Asleep
    case Resume(_) => WaitScan(0, false)
    case ForkAlloc(_, np) => Forked(np)
    case ForkFail(_) => Run
    case ForkLink(_) => Linked(pc.np)
    case ForkRun(_) => Run
    case SleepOther(_) => OtherSleep
    case Woken(_) => Run
    case Kill(_) => pc
  }

  /** This turn of wait's scan finds a zombie child. */
  predicate Finds(s: State, a: Action)
    requires Can(s, a)
  {
    a.ScanStep? && var k := s.ps[a.p].pc.k; s.ps[k].parent == a.p && s.ps[k].st.Zombie?
  }

  /** An entry after the action, except that the acting process has not yet moved on. */
  function Acted(s: State, a: Action, q: nat): Proc
    requires Can(s, a) && q < |s.ps|
  {
    var p, x, pc := a.p, s.ps[q], s.ps[a.p].pc;
    match a
    case ReparentStep(_) => if q == pc.k && x.parent == p then x.(parent := s.init) else x
    case WakeInitStep(_) => if q == pc.j && q != p then Called(x, OnProc(s.init)) else x
    case WakeParentStep(_) => if q == pc.j && q != p then Called(x, ParentChan(s.ps[p])) else x
    case Mark(_) => if q == p then x.(st := Zombie) else x
    case ScanStep(_, fail) => if q == pc.k && Finds(s, a) && !fail then FREE else x
    case SleepSched(_) => if q == p then x.(st := Sleeping(OnProc(p))) else x
    case ForkAlloc(_, np) => if q == np then x.(st := Used) else x
    case ForkFail(_) => if q == pc.np then FREE else x
    case ForkLink(_) => if q == pc.np then x.(parent := p) else x
    case ForkRun(_) => if q == pc.np then x.(st := Runnable, pc := Run) else x
    case SleepOther(_) => if q == p then x.(st := Sleeping(Other)) else x
    case Kill(_) => if q == p && x.st.Sleeping? then x.(st := Runnable) else x
    case _ => x
  }

  function Entry(s: State, a: Action, q: nat): Proc
    requires Can(s, a) && q < |s.ps|
  {
    if q == a.p then Acted(s, a, q).(pc := Goes(s, a)) else Acted(s, a, q)
  }

  /** Who holds wait_lock after the action. */
  function Holder(s: State, a: Action): int
    requires Can(s, a)
  {
    match a
    case ExitStart(p) => p
    case WaitStart(p) => p
    case Resume(p) => p
    case Mark(_) => -1
    case SleepRelease(_) => -1
    case ScanStep(_, _) => if Finds(s, a) then -1 else s.lock
    case ScanEnd(_, _) => if Goes(s, a).Run? then -1 else s.lock
    case _ => s.lock
  }

  ghost predicate Step(s: State, a: Action, t: State) {
    Can(s, a) && t == State(seq(|s.ps|, q requires 0 <= q < |s.ps| => Entry(s, a, q)), s.init, Holder(s, a))
  }

  // ---- the invariant ----

  /** State and program counter of one process agree. */
  predicate Local(s: State, q: nat)
    requires q < |s.ps|
  {
    var x := s.ps[q];
    && -1 <= x.parent < |s.ps|
    && (match x.pc
        case Idle => x.st.Unused? || x.st.Used?
        case Dead => x.st.Zombie?
        case Gone => x.st.Zombie?
        case Asleep => x.st == Sleeping(OnProc(q)) || x.st.Runnable?
        case OtherSleep => x.st == Sleeping(Other) || x.st.Runnable?
        case _ => x.st.Runnable?)
    && (Exiting(x.pc) ==> q != s.init)
    && (x.pc.ExitWakeInit? ==> x.pc.k < |s.ps|)
    && (x.st.Unused? ==> x.parent == -1)
  }

  /** The child that q is making. */
  predicate Making(s: State, q: nat)
    requires q < |s.ps|
  {
    var x := s.ps[q];
    Forks(x.pc) ==> x.pc.np < |s.ps| && s.ps[x.pc.np].st.Used? && s.ps[x.pc.np].parent == if x.pc.Linked? then q else -1
  }

  predicate Exiting(pc: Pc) {
    pc.Dead? || pc.Gone? || pc.ExitReparent? || pc.ExitWakeInit? || pc.ExitWakeParent? || pc.ExitMark?
  }

  ghost predicate Locals(s: State) { forall q {:trigger Local(s, q)} {:trigger Making(s, q)} :: 0 <= q < |s.ps| ==> Local(s, q) && Making(s, q) }

  predicate Forks(pc: Pc) { pc.Forked? || pc.Linked? }

  /** Two forks never make the same child. */
  ghost predicate Targets(s: State) {
    forall p, q {:trigger s.ps[p], s.ps[q]} ::
      0 <= p < |s.ps| && 0 <= q < |s.ps| && Forks(s.ps[p].pc) && Forks(s.ps[q].pc) && s.ps[p].pc.np == s.ps[q].pc.np ==> p == q
  }

  /** An entry is USED only while some fork is making it. */
  ghost predicate Wanted(s: State, c: nat)
    requires c < |s.ps|
  {
    s.ps[c].st.Used? ==> exists p {:trigger s.ps[p]} :: 0 <= p < |s.ps| && Forks(s.ps[p].pc) && s.ps[p].pc.np == c
  }

  ghost predicate AllWanted(s: State) { forall c {:trigger Wanted(s, c)} :: 0 <= c < |s.ps| ==> Wanted(s, c) }

  ghost predicate LockOwner(s: State) {
    && -1 <= s.lock < |s.ps|
    && forall q {:trigger s.ps[q]} :: 0 <= q < |s.ps| ==> (HoldsLock(s.ps[q].pc) <==> s.lock == q)
  }

  predicate Alive(x: Proc) { x.st.Sleeping? || x.st.Runnable? }

  /** Every parent is alive, and whoever has run has one. */
  ghost predicate Parents(s: State) {
    && s.init < |s.ps| && Alive(s.ps[s.init])
    && forall c {:trigger Fostered(s, c)} :: 0 <= c < |s.ps| ==> Fostered(s, c)
  }

  predicate Fostered(s: State, c: nat)
    requires c < |s.ps|
  {
    && (0 <= s.ps[c].parent < |s.ps| ==> Alive(s.ps[s.ps[c].parent]))
    && (c != s.init && (Alive(s.ps[c]) || s.ps[c].st.Zombie?) ==> s.ps[c].parent >= 0)
  }

  /** None of the first k processes is a child of q. */
  ghost predicate NoChild(s: State, q: nat, k: nat) {
    forall c {:trigger s.ps[c]} :: 0 <= c < k && c < |s.ps| ==> s.ps[c].parent != q
  }

  /** How many children an exiting process has given away. */
  ghost predicate Abandoned(s: State, q: nat)
    requires q < |s.ps|
  {
    match s.ps[q].pc
    case ExitReparent(k) => NoChild(s, q, k)
    case ExitWakeInit(k, _) => NoChild(s, q, k + 1)
    case ExitWakeParent(_) => NoChild(s, q, |s.ps|)
    case ExitMark => NoChild(s, q, |s.ps|)
    case _ => true
  }

  ghost predicate NoZombie(s: State, q: nat, k: nat) {
    forall c {:trigger s.ps[c]} :: 0 <= c < k && c < |s.ps| && s.ps[c].parent == q ==> !s.ps[c].st.Zombie?
  }

  /** What the scan of wait has seen. */
  ghost predicate Scanned(s: State, q: nat)
    requires q < |s.ps|
  {
    match s.ps[q].pc
    case WaitScan(k, kids) => NoZombie(s, q, k) && (!kids <==> NoChild(s, q, k))
    case SleepLocked => NoZombie(s, q, |s.ps|)
    case _ => true
  }

  /** Asleep in wait, or past the point where it gave up wait_lock to sleep. */
  predicate Committed(s: State, q: nat) {
    q < |s.ps| && (s.ps[q].st == Sleeping(OnProc(q)) || s.ps[q].pc.SleepFree?)
  }

  /** The holder of wait_lock is about to wake q. */
  predicate Waking(s: State, q: nat) {
    0 <= s.lock < |s.ps| && s.ps[s.lock].pc.ExitWakeInit? && q == s.init && s.ps[s.lock].pc.j <= q
  }

  /** A process asleep in wait with a zombie child is about to be woken. */
  ghost predicate NoneMissed(s: State) {
    forall c {:trigger Noticed(s, c)} :: 0 <= c < |s.ps| ==> Noticed(s, c)
  }

  predicate Noticed(s: State, c: nat)
    requires c < |s.ps|
  {
    s.ps[c].parent >= 0 && s.ps[c].st.Zombie? && Committed(s, s.ps[c].parent) ==> Waking(s, s.ps[c].parent)
  }

  /** Whom an exiting process has already woken stays awake while it holds wait_lock. */
  predicate Roused(s: State, q: nat)
    requires q < |s.ps|
  {
    match s.ps[q].pc
    case ExitWakeInit(_, j) => j > s.init ==> !Committed(s, s.init)
    case ExitWakeParent(j) => 0 <= s.ps[q].parent < j ==> !Committed(s, s.ps[q].parent)
    case ExitMark => s.ps[q].parent >= 0 ==> !Committed(s, s.ps[q].parent)
    case _ => true
  }

  ghost predicate Each(s: State) {
    forall q {:trigger Abandoned(s, q)} {:trigger Scanned(s, q)} {:trigger Roused(s, q)} :: 0 <= q < |s.ps| ==> Abandoned(s, q) && Scanned(s, q) && Roused(s, q)
  }

  ghost predicate Inv(s: State) {
    Locals(s) && Targets(s) && AllWanted(s) && LockOwner(s) && Parents(s) && Each(s) && NoneMissed(s)
  }

  lemma LocalAt(s: State, q: nat)
    requires Locals(s) && q < |s.ps|
    ensures Local(s, q)
  {
  }

  lemma MakingAt(s: State, q: nat)
    requires Locals(s) && q < |s.ps|
    ensures Making(s, q)
  {
  }

  lemma EachAt(s: State, q: nat)
    requires Each(s) && q < |s.ps|
    ensures Abandoned(s, q) && Scanned(s, q) && Roused(s, q)
  {
  }

  lemma OwnerAt(s: State, q: nat)
    requires LockOwner(s) && q < |s.ps|
    ensures (HoldsLock(s.ps[q].pc) <==> s.lock == q) && -1 <= s.lock < |s.ps|
  {
  }

  lemma FosteredAt(s: State, c: nat)
    requires Parents(s) && c < |s.ps|
    ensures Fostered(s, c)
  {
  }

  lemma MissedAt(s: State, c: nat)
    requires NoneMissed(s) && c < |s.ps|
    ensures Noticed(s, c)
  {
  }

  lemma InitAlive(s: State)
    requires Parents(s)
    ensures s.init < |s.ps| && Alive(s.ps[s.init])
  {
  }

  lemma ChildrenSame(s: State, t: State, q: nat, k: nat)
    requires |s.ps| == |t.ps| && forall c {:trigger t.ps[c]} :: 0 <= c < |s.ps| ==> (s.ps[c].parent == q <==> t.ps[c].parent == q)
    ensures NoChild(s, q, k) <==> NoChild(t, q, k)
  {
    forall c | 0 <= c < |s.ps|
      ensures s.ps[c].parent == q <==> t.ps[c].parent == q
    {
      assert t.ps[c] == t.ps[c];
    }
  }

  lemma OneMore(s: State, q: nat, k: nat)
    requires k < |s.ps|
    ensures NoChild(s, q, k + 1) <==> NoChild(s, q, k) && s.ps[k].parent != q
    ensures NoZombie(s, q, k + 1) <==> NoZombie(s, q, k) && (s.ps[k].parent == q ==> !s.ps[k].st.Zombie?)
  {
  }

  // ---- what a step changes ----

  lemma StepAt(s: State, a: Action, t: State, q: nat)
    requires Step(s, a, t) && q < |s.ps|
    ensures Can(s, a) && a.p < |s.ps| && |t.ps| == |s.ps| && t.init == s.init && t.ps[q] == Entry(s, a, q) && t.lock == Holder(s, a)
  {
  }

  lemma StepCan(s: State, a: Action, t: State)
    requires Step(s, a, t)
    ensures a.p < |s.ps| && Can(s, a)
  {
  }

  lemma PcAfter(s: State, a: Action, t: State, q: nat)
    requires Step(s, a, t) && q < |s.ps|
    ensures Can(s, a) && |t.ps| == |s.ps| && t.init == s.init
    ensures if q == a.p then t.ps[q].pc == Goes(s, a) else t.ps[q].pc == s.ps[q].pc || t.ps[q].pc.Run? || t.ps[q].pc.Idle?
  {
    hide Step;
    StepAt(s, a, t, q);
  }

  /** The ways in which the parent of an entry can change. */
  predicate ParentMoves(s: State, a: Action, t: State, c: nat)
    requires Can(s, a) && c < |s.ps| == |t.ps|
  {
    || (t.ps[c].parent == s.ps[c].parent && !(a.ReparentStep? && s.ps[c].parent == a.p && s.ps[a.p].pc.k == c))
    || (a.ReparentStep? && s.ps[c].parent == a.p && t.ps[c].parent == s.init && s.ps[a.p].pc.k == c && Goes(s, a) == ExitWakeInit(c, 0))
    || (a.ForkLink? && s.ps[c].parent == -1 && t.ps[c].parent == a.p)
    || (Finds(s, a) && s.ps[c].parent == a.p && t.ps[c].parent == -1)
  }

  lemma ParentAfter(s: State, a: Action, t: State, c: nat)
    requires Inv(s) && Step(s, a, t) && c < |s.ps|
    ensures |t.ps| == |s.ps| && Can(s, a) && ParentMoves(s, a, t, c)
  {
    hide Step, Locals, Targets, AllWanted, LockOwner, Parents, Each, NoneMissed;
    StepAt(s, a, t, c);
    StepCan(s, a, t);
    StepAt(s, a, t, a.p);
    MakingAt(s, a.p);
    LocalAt(s, c);
  }

  lemma ZombieAfter(s: State, a: Action, t: State, c: nat)
    requires Step(s, a, t) && c < |s.ps|
    ensures |t.ps| == |s.ps| && (t.ps[c].st.Zombie? ==> s.ps[c].st.Zombie? || a == Mark(c))
  {
    hide Step;
    StepAt(s, a, t, c);
  }

  lemma AliveAfter(s: State, a: Action, t: State, q: nat)
    requires Inv(s) && Step(s, a, t) && q < |s.ps|
    ensures |t.ps| == |s.ps| && (Alive(s.ps[q]) ==> Alive(t.ps[q]) || a == Mark(q))
  {
    hide Step, Locals, Targets, AllWanted, LockOwner, Parents, Each, NoneMissed;
    StepAt(s, a, t, q);
    MakingAt(s, a.p);
  }

  lemma CommittedAfter(s: State, a: Action, t: State, q: nat)
    requires Inv(s) && Step(s, a, t) && q < |s.ps|
    ensures Committed(t, q) ==> Committed(s, q) || a == SleepRelease(q)
  {
    hide Step, Locals, Targets, AllWanted, LockOwner, Parents, Each, NoneMissed;
    StepAt(s, a, t, q);
  }

  lemma WakingAfter(s: State, a: Action, t: State, q: nat)
    requires Inv(s) && Step(s, a, t) && q < |s.ps|
    ensures Waking(s, q) && Committed(t, q) ==> Waking(t, q)
  {
    hide Step, Locals, Targets, AllWanted, LockOwner, Parents, Each, NoneMissed;
    StepCan(s, a, t);
    StepAt(s, a, t, q);
    StepAt(s, a, t, a.p);
    MakingAt(s, a.p);
    OwnerAt(s, a.p);
    LocalAt(s, a.p);
    if 0 <= s.lock < |s.ps| { StepAt(s, a, t, s.lock); LocalAt(s, s.lock); OwnerAt(s, s.lock); }
  }

  /** Who holds wait_lock gains no child, unless it is init. */
  lemma GainsNoChild(s: State, a: Action, t: State, q: nat, c: nat)
    requires Inv(s) && Step(s, a, t) && q < |s.ps| && c < |s.ps| && HoldsLock(s.ps[q].pc) && q != s.init
    ensures |t.ps| == |s.ps| && (t.ps[c].parent == q ==> s.ps[c].parent == q)
    ensures a == ReparentStep(q) && s.ps[q].pc.k == c ==> t.ps[c].parent != q
  {
    hide Step, Locals, Targets, AllWanted, LockOwner, Parents, Each, NoneMissed, Entry, Acted;
    ParentAfter(s, a, t, c);
    OwnerAt(s, q);
  }

  /** While q scans, its children change only when it frees one. */
  lemma SameChildren(s: State, a: Action, t: State, q: nat, c: nat)
    requires Inv(s) && Step(s, a, t) && q < |s.ps| && c < |s.ps| && Can(s, a) && !Finds(s, a)
    requires s.ps[q].pc.WaitScan? || s.ps[q].pc.SleepLocked?
    ensures |t.ps| == |s.ps| && (t.ps[c].parent == q <==> s.ps[c].parent == q)
    ensures t.ps[c].st.Zombie? ==> s.ps[c].st.Zombie?
  {
    hide Step, Locals, Targets, AllWanted, LockOwner, Parents, Each, NoneMissed, Entry, Acted;
    ParentAfter(s, a, t, c);
    ZombieAfter(s, a, t, c);
    OwnerAt(s, q);
    OwnerAt(s, a.p);
  }

  /** A turn of wakeup leaves the entry that it looks at awake. */
  lemma CallWakes(s: State, a: Action, t: State)
    requires Inv(s) && Step(s, a, t)
    ensures Can(s, a) && |t.ps| == |s.ps|
    ensures a.WakeInitStep? && s.ps[a.p].pc.j == s.init ==> !Committed(t, s.init)
    ensures a.WakeParentStep? && s.ps[a.p].pc.j == s.ps[a.p].parent ==> !Committed(t, s.ps[a.p].parent)
  {
    hide Step, Locals, Targets, AllWanted, LockOwner, Parents, Each, NoneMissed;
    StepCan(s, a, t);
    StepAt(s, a, t, a.p);
    LocalAt(s, a.p);
    var pc := s.ps[a.p].pc;
    if (pc.ExitWakeInit? || pc.ExitWakeParent?) && pc.j < |s.ps| { StepAt(s, a, t, pc.j); }
  }

  // ---- what every step keeps ----

  lemma OtherLocal(s: State, a: Action, t: State, q: nat)
    requires Inv(s) && Step(s, a, t) && q < |s.ps| && q != a.p
    ensures |t.ps| == |s.ps| && Local(t, q)
  {
    hide Step, Locals, Targets, AllWanted, LockOwner, Parents, Each, NoneMissed;
    StepCan(s, a, t);
    StepAt(s, a, t, q);
    LocalAt(s, q);
    MakingAt(s, a.p);
    InitAlive(s);
  }

  lemma ActorLocal(s: State, a: Action, t: State)
    requires Inv(s) && Step(s, a, t)
    ensures a.p < |s.ps| == |t.ps| && Local(t, a.p)
  {
    hide Step, Locals, Targets, AllWanted, LockOwner, Parents, Each, NoneMissed;
    StepCan(s, a, t);
    StepAt(s, a, t, a.p);
    LocalAt(s, a.p);
    MakingAt(s, a.p);
    InitAlive(s);
  }

  lemma KeepsLocal(s: State, a: Action, t: State, q: nat)
    requires Inv(s) && Step(s, a, t) && q < |s.ps|
    ensures |t.ps| == |s.ps| && Local(t, q)
  {
    hide Step, Inv, Local;
    if q == a.p { ActorLocal(s, a, t); } else { OtherLocal(s, a, t, q); }
  }

  lemma OtherMaking(s: State, a: Action, t: State, q: nat)
    requires Inv(s) && Step(s, a, t) && q < |s.ps| && q != a.p
    ensures |t.ps| == |s.ps| && Making(t, q)
  {
    hide Step, Locals, AllWanted, LockOwner, Parents, Each, NoneMissed;
    StepCan(s, a, t);
    StepAt(s, a, t, q);
    LocalAt(s, a.p);
    MakingAt(s, a.p);
    MakingAt(s, q);
    if Forks(s.ps[q].pc) { StepAt(s, a, t, s.ps[q].pc.np); }
  }

  lemma ActorMaking(s: State, a: Action, t: State)
    requires Inv(s) && Step(s, a, t)
    ensures a.p < |s.ps| == |t.ps| && Making(t, a.p)
  {
    hide Step, Locals, Targets, AllWanted, LockOwner, Parents, Each, NoneMissed;
    StepCan(s, a, t);
    StepAt(s, a, t, a.p);
    LocalAt(s, a.p);
    MakingAt(s, a.p);
    if Forks(t.ps[a.p].pc) && t.ps[a.p].pc.np < |s.ps| {
      StepAt(s, a, t, t.ps[a.p].pc.np);
      LocalAt(s, t.ps[a.p].pc.np);
    }
  }

  lemma KeepsMaking(s: State, a: Action, t: State, q: nat)
    requires Inv(s) && Step(s, a, t) && q < |s.ps|
    ensures |t.ps| == |s.ps| && Making(t, q)
  {
    hide Step, Inv, Making;
    if q == a.p { ActorMaking(s, a, t); } else { OtherMaking(s, a, t, q); }
  }

  lemma KeepsAbandoned(s: State, a: Action, t: State, q: nat)
    requires Inv(s) && Step(s, a, t) && q < |s.ps|
    ensures |t.ps| == |s.ps| && Abandoned(t, q)
  {
    hide Step, Locals, Targets, AllWanted, LockOwner, Parents, Each, NoneMissed, Making, Scanned, Roused, Entry, Acted;
    PcAfter(s, a, t, q);
    LocalAt(s, q);
    EachAt(s, q);
    if Exiting(s.ps[q].pc) && HoldsLock(s.ps[q].pc) {
      forall c {:trigger t.ps[c]} | 0 <= c < |s.ps|
        ensures t.ps[c].parent == q ==> s.ps[c].parent == q && !(a == ReparentStep(q) && s.ps[q].pc.k == c)
      {
        GainsNoChild(s, a, t, q, c);
      }
    }
  }

  lemma KeepsFostered(s: State, a: Action, t: State, c: nat)
    requires Inv(s) && Step(s, a, t) && c < |s.ps|
    ensures |t.ps| == |s.ps| && Fostered(t, c)
  {
    hide Step, Locals, Targets, AllWanted, LockOwner, Parents, Each, NoneMissed, Scanned, Roused;
    StepCan(s, a, t);
    StepAt(s, a, t, c);
    LocalAt(s, c);
    FosteredAt(s, c);
    ParentAfter(s, a, t, c);
    InitAlive(s);
    MakingAt(s, a.p);
    LocalAt(s, a.p);
    EachAt(s, a.p);
    AliveAfter(s, a, t, s.init);
    if 0 <= t.ps[c].parent < |s.ps| { AliveAfter(s, a, t, t.ps[c].parent); }
  }

  lemma KeepsOwner(s: State, a: Action, t: State)
    requires Inv(s) && Step(s, a, t)
    ensures LockOwner(t)
  {
    hide Step, Locals, Targets, AllWanted, Parents, Each, NoneMissed, Scanned, Roused;
    StepCan(s, a, t);
    StepAt(s, a, t, a.p);
    LocalAt(s, a.p);
    forall q {:trigger t.ps[q]} | 0 <= q < |s.ps|
      ensures HoldsLock(t.ps[q].pc) <==> t.lock == q
    {
      StepAt(s, a, t, q);
      MakingAt(s, a.p);
      LocalAt(s, q);
    }
  }

  lemma KeepsTargets(s: State, a: Action, t: State)
    requires Inv(s) && Step(s, a, t)
    ensures Targets(t)
  {
    hide Step, Locals, AllWanted, LockOwner, Parents, Each, NoneMissed;
    StepCan(s, a, t);
    StepAt(s, a, t, a.p);
    forall q {:trigger t.ps[q]} | 0 <= q < |s.ps|
      ensures t.ps[q] == Entry(s, a, q) && Making(s, q)
    {
      StepAt(s, a, t, q);
      MakingAt(s, q);
    }
  }

  lemma KeepsInit(s: State, a: Action, t: State)
    requires Inv(s) && Step(s, a, t)
    ensures t.init < |t.ps| && Alive(t.ps[t.init])
  {
    hide Step, Locals, Targets, AllWanted, LockOwner, Each, NoneMissed;
    StepAt(s, a, t, s.init);
    LocalAt(s, s.init);
    AliveAfter(s, a, t, s.init);
  }

  lemma KeepsScanned(s: State, a: Action, t: State, q: nat)
    requires Inv(s) && Step(s, a, t) && q < |s.ps|
    ensures |t.ps| == |s.ps| && Scanned(t, q)
  {
    hide Step, Locals, Targets, AllWanted, LockOwner, Parents, Each, NoneMissed, Making, Abandoned, Roused, Entry, Acted;
    PcAfter(s, a, t, q);
    LocalAt(s, q);
    EachAt(s, q);
    OwnerAt(s, q);
    OwnerAt(s, a.p);
    var pc := s.ps[q].pc;
    if (pc.WaitScan? || pc.SleepLocked?) && !Finds(s, a) {
      forall c {:trigger t.ps[c]} | 0 <= c < |s.ps|
        ensures t.ps[c].parent == q <==> s.ps[c].parent == q
        ensures t.ps[c].st.Zombie? ==> s.ps[c].st.Zombie?
      {
        SameChildren(s, a, t, q, c);
      }
      if pc.WaitScan? {
        ChildrenSame(s, t, q, pc.k);
        if pc.k < |s.ps| { OneMore(t, q, pc.k); }
      }
    }
  }

  lemma KeepsRoused(s: State, a: Action, t: State, q: nat)
    requires Inv(s) && Step(s, a, t) && q < |s.ps|
    ensures |t.ps| == |s.ps| && Roused(t, q)
  {
    hide Step, Locals, Targets, AllWanted, LockOwner, Parents, Each, NoneMissed, Making, Abandoned, Scanned, Committed, Entry, Acted;
    PcAfter(s, a, t, q);
    LocalAt(s, q);
    EachAt(s, q);
    OwnerAt(s, q);
    OwnerAt(s, a.p);
    ParentAfter(s, a, t, q);
    InitAlive(s);
    CallWakes(s, a, t);
    CommittedAfter(s, a, t, s.init);
    if 0 <= t.ps[q].parent < |s.ps| { CommittedAfter(s, a, t, t.ps[q].parent); }
  }

  lemma KeepsNoticed(s: State, a: Action, t: State, c: nat)
    requires Inv(s) && Step(s, a, t) && c < |s.ps|
    ensures |t.ps| == |s.ps| && Noticed(t, c)
  {
    hide Step, Locals, Targets, AllWanted, LockOwner, Parents, Each, NoneMissed, Abandoned;
    StepCan(s, a, t);
    StepAt(s, a, t, a.p);
    StepAt(s, a, t, c);
    MakingAt(s, a.p);
    LocalAt(s, c);
    ParentAfter(s, a, t, c);
    ZombieAfter(s, a, t, c);
    MissedAt(s, c);
    EachAt(s, a.p);
    OwnerAt(s, a.p);
    if 0 <= t.ps[c].parent < |s.ps| {
      CommittedAfter(s, a, t, t.ps[c].parent);
      WakingAfter(s, a, t, t.ps[c].parent);
    }
  }

  lemma KeepsWanted(s: State, a: Action, t: State, c: nat)
    requires Inv(s) && Step(s, a, t) && c < |s.ps|
    ensures |t.ps| == |s.ps| && Wanted(t, c)
  {
    hide Step, Locals, Targets, LockOwner, Parents, Each, NoneMissed;
    StepCan(s, a, t);
    StepAt(s, a, t, c);
    StepAt(s, a, t, a.p);
    if t.ps[c].st.Used? {
      if a.ForkAlloc? && a.np == c {
        LocalAt(s, a.p);
        assert t.ps[a.p].pc == Forked(c);
      } else {
        assert Wanted(s, c);
        var p :| 0 <= p < |s.ps| && Forks(s.ps[p].pc) && s.ps[p].pc.np == c;
        StillForks(s, a, t, p, c);
      }
    }
  }

  lemma StillForks(s: State, a: Action, t: State, p: nat, c: nat)
    requires Inv(s) && Step(s, a, t) && p < |s.ps| && c < |s.ps| && Forks(s.ps[p].pc) && s.ps[p].pc.np == c
    requires |t.ps| == |s.ps| && t.ps[c].st.Used?
    ensures Forks(t.ps[p].pc) && t.ps[p].pc.np == c
  {
    hide Step, Locals, Targets, LockOwner, Parents, Each, NoneMissed, AllWanted;
    StepCan(s, a, t);
    StepAt(s, a, t, p);
    StepAt(s, a, t, c);
    LocalAt(s, p);
    MakingAt(s, a.p);
  }

  ghost predicate AllAt(t: State, q: nat)
    requires q < |t.ps|
  {
    Local(t, q) && Making(t, q) && Abandoned(t, q) && Scanned(t, q) && Roused(t, q) && Fostered(t, q) && Noticed(t, q) && Wanted(t, q)
  }

  lemma Together(t: State)
    requires Targets(t) && LockOwner(t) && t.init < |t.ps| && Alive(t.ps[t.init])
    requires forall q {:trigger AllAt(t, q)} :: 0 <= q < |t.ps| ==> AllAt(t, q)
    ensures Inv(t)
  {
    hide Local, Making, Abandoned, Scanned, Roused, Fostered, Noticed, Wanted, Targets, LockOwner;
    forall q | 0 <= q < |t.ps|
      ensures Local(t, q) && Making(t, q) && Abandoned(t, q) && Scanned(t, q) && Roused(t, q) && Fostered(t, q) && Noticed(t, q) && Wanted(t, q)
    {
      assert AllAt(t, q);
    }
  }

  // ---- every run ----

  lemma StepKeeps(s: State, a: Action, t: State)
    requires Inv(s) && Step(s, a, t)
    ensures Inv(t)
  {
    hide Step, Can, Inv, Local, Making, Abandoned, Scanned, Roused, Fostered, Noticed, Wanted, Targets, LockOwner, Alive;
    StepCan(s, a, t);
    StepAt(s, a, t, a.p);
    KeepsTargets(s, a, t);
    KeepsOwner(s, a, t);
    KeepsInit(s, a, t);
    forall q | 0 <= q < |t.ps|
      ensures AllAt(t, q)
    {
      KeepsLocal(s, a, t, q);
      KeepsMaking(s, a, t, q);
      KeepsAbandoned(s, a, t, q);
      KeepsScanned(s, a, t, q);
      KeepsRoused(s, a, t, q);
      KeepsFostered(s, a, t, q);
      KeepsNoticed(s, a, t, q);
      KeepsWanted(s, a, t, q);
    }
    Together(t);
  }

  /** After userinit: init is the only process. */
  ghost predicate Initial(s: State) {
    && s.lock == -1 && s.init < |s.ps| && s.ps[s.init] == Proc(Runnable, -1, Run)
    && forall q {:trigger s.ps[q]} :: 0 <= q < |s.ps| && q != s.init ==> s.ps[q] == Proc(Unused, -1, Idle)
  }

  lemma InitialInv(s: State)
    requires Initial(s)
    ensures Inv(s)
  {
    forall q | 0 <= q < |s.ps|
      ensures AllAt(s, q)
    {
    }
    Together(s);
  }

  ghost predicate Execution(ss: seq<State>, acts: seq<Action>) {
    && |ss| == |acts| + 1 && Initial(ss[0])
    && forall i :: 0 <= i < |acts| ==> Step(ss[i], acts[i], ss[i + 1])
  }

  lemma {:induction false} RunKeeps(ss: seq<State>, acts: seq<Action>, k: nat)
    requires Execution(ss, acts) && k < |ss|
    ensures Inv(ss[k])
  {
    hide Step, Inv, Initial;
    if k > 0 {
      RunKeeps(ss, acts, k - 1);
      StepKeeps(ss[k - 1], acts[k - 1], ss[k]);
    } else {
      InitialInv(ss[0]);
    }
  }

  /** No interleaving of fork, exit, wait, kill and other sleeps loses a wakeup: when wait_lock is
      free, nobody asleep in wait, or on the way to sleep there, has a zombie child. */
  lemma NoLostWakeup(ss: seq<State>, acts: seq<Action>, k: nat, q: nat, c: nat)
    requires Execution(ss, acts) && k < |ss| && ss[k].lock == -1
    requires q < |ss[k].ps| && c < |ss[k].ps| && ss[k].ps[c].parent == q && ss[k].ps[c].st.Zombie?
    ensures ss[k].ps[q].st != Sleeping(OnProc(q)) && !ss[k].ps[q].pc.SleepFree?
  {
    hide Execution, Locals, AllWanted, Targets, LockOwner, Parents, Each;
    RunKeeps(ss, acts, k);
    MissedAt(ss[k], c);
  }

  /** In every state, no process has a zombie or unused parent, and every process that runs or is a
      zombie, other than init, has a parent that is alive and can wait for it. */
  lemma ParentsAlive(ss: seq<State>, acts: seq<Action>, k: nat, c: nat)
    requires Execution(ss, acts) && k < |ss| && c < |ss[k].ps|
    ensures ss[k].ps[c].parent >= 0 ==> ss[k].ps[c].parent < |ss[k].ps| && Alive(ss[k].ps[ss[k].ps[c].parent])
    ensures c != ss[k].init && (Alive(ss[k].ps[c]) || ss[k].ps[c].st.Zombie?) ==> ss[k].ps[c].parent >= 0
  {
    hide Execution, AllWanted, Targets, LockOwner, Each, NoneMissed;
    RunKeeps(ss, acts, k);
    LocalAt(ss[k], c);
    FosteredAt(ss[k], c);
  }

  /** wait goes to sleep only when it has a child and none of its children is a zombie, and gives up
      for want of children only when it has none. */
  lemma WaitTells(ss: seq<State>, acts: seq<Action>, k: nat, q: nat, c: nat)
    requires Execution(ss, acts) && k < |ss| && q < |ss[k].ps| && c < |ss[k].ps| && ss[k].ps[c].parent == q
    ensures ss[k].ps[q].pc.SleepLocked? ==> !ss[k].ps[c].st.Zombie?
    ensures ss[k].ps[q].pc.WaitScan? && ss[k].ps[q].pc.k >= |ss[k].ps| ==> ss[k].ps[q].pc.kids && !ss[k].ps[c].st.Zombie?
  {
    hide Execution, AllWanted, Targets, LockOwner, Locals, Parents, NoneMissed;
    RunKeeps(ss, acts, k);
    EachAt(ss[k], q);
  }

  /** At most one process is between taking and releasing wait_lock. */
  lemma OneHolder(ss: seq<State>, acts: seq<Action>, k: nat, p: nat, q: nat)
    requires Execution(ss, acts) && k < |ss| && p < |ss[k].ps| && q < |ss[k].ps|
    requires HoldsLock(ss[k].ps[p].pc) && HoldsLock(ss[k].ps[q].pc)
    ensures p == q
  {
    hide Execution, AllWanted, Targets, Locals, Parents, NoneMissed, Each;
    RunKeeps(ss, acts, k);
    OwnerAt(ss[k], p);
    OwnerAt(ss[k], q);
  }

  // ---- what fork, wait, exit and kill do ----

  /** In every state an entry is USED exactly while one process is in fork making it, and then one only. */
  lemma UsedExactly(ss: seq<State>, acts: seq<Action>, k: nat, c: nat)
    requires Execution(ss, acts) && k < |ss| && c < |ss[k].ps|
    ensures ss[k].ps[c].st.Used? <==>
      exists p {:trigger ss[k].ps[p]} :: 0 <= p < |ss[k].ps| && Forks(ss[k].ps[p].pc) && ss[k].ps[p].pc.np == c
    ensures forall p, q {:trigger ss[k].ps[p], ss[k].ps[q]} ::
      (0 <= p < |ss[k].ps| && 0 <= q < |ss[k].ps| && Forks(ss[k].ps[p].pc) && Forks(ss[k].ps[q].pc)
       && ss[k].ps[p].pc.np == ss[k].ps[q].pc.np == c) ==> p == q
  {
    hide Execution, Locals, LockOwner, Parents, Each, NoneMissed;
    RunKeeps(ss, acts, k);
    assert Wanted(ss[k], c);
    forall p {:trigger ss[k].ps[p]} | 0 <= p < |ss[k].ps| && Forks(ss[k].ps[p].pc) && ss[k].ps[p].pc.np == c
      ensures ss[k].ps[c].st.Used?
    {
      MakingAt(ss[k], p);
    }
  }

  /** Exactly when and how the state of an entry changes: allocproc takes an UNUSED entry; fork makes it
      RUNNABLE, a child of the caller, or gives it back; a process goes to sleep by itself; kill and
      wakeup on its channel make it RUNNABLE; exit makes it a ZOMBIE; and only wait of its parent frees
      it, unless copying out its status fails. */
  lemma LifeCycle(s: State, a: Action, t: State, c: nat)
    requires Inv(s) && Step(s, a, t) && c < |s.ps|
    ensures a.p < |s.ps| == |t.ps|
    ensures var x, y, pc := s.ps[c], t.ps[c], s.ps[a.p].pc;
      && (x.st.Unused? && !y.st.Unused? <==> a.ForkAlloc? && a.np == c)
      && (a.ForkAlloc? && a.np == c ==> y == Proc(Used, -1, Idle) && t.ps[a.p].pc == Forked(c))
      && (x.st.Used? && !y.st.Used? <==> (a.ForkRun? || a.ForkFail?) && pc.np == c)
      && (a.ForkRun? && pc.np == c ==> y == Proc(Runnable, a.p, Run) && t.ps[a.p].pc == Run)
      && (a.ForkFail? && pc.np == c ==> y == Proc(Unused, -1, Idle) && t.ps[a.p].pc == Run)
      && (x.st.Zombie? && !y.st.Zombie? <==> a == ScanStep(a.p, false) && x.st.Zombie? && x.parent == a.p && pc.k == c)
      && (a == ScanStep(a.p, false) && x.st.Zombie? && x.parent == a.p && pc.k == c ==>
            y == Proc(Unused, -1, Idle) && t.ps[a.p].pc == Run && t.lock == -1)
  {
    hide Step, Locals, Targets, AllWanted, LockOwner, Parents, Each, NoneMissed;
    StepCan(s, a, t);
    StepAt(s, a, t, c);
    StepAt(s, a, t, a.p);
    LocalAt(s, c);
    LocalAt(s, a.p);
    MakingAt(s, a.p);
  }

  /** Likewise for exit, sleep, kill and wakeup. */
  lemma WakesAndEnds(s: State, a: Action, t: State, c: nat)
    requires Inv(s) && Step(s, a, t) && c < |s.ps|
    ensures a.p < |s.ps| == |t.ps|
    ensures var x, y, pc := s.ps[c], t.ps[c], s.ps[a.p].pc;
      && (!x.st.Zombie? && y.st.Zombie? <==> a == Mark(c))
      && (a == Mark(c) ==> y == Proc(Zombie, x.parent, Dead) && t.lock == -1)
      && (!x.st.Sleeping? && y.st.Sleeping? <==> a == SleepSched(c) || a == SleepOther(c))
      && (a == SleepSched(c) ==> y.st == Sleeping(OnProc(c))) && (a == SleepOther(c) ==> y.st == Sleeping(Other))
      && (x.st.Sleeping? && !y.st.Sleeping? <==>
            && x.st.Sleeping?
            && (|| a == Kill(c)
                || (a.WakeInitStep? && pc.j == c && x.st.chan == OnProc(s.init))
                || (a.WakeParentStep? && pc.j == c && x.st.chan == ParentChan(s.ps[a.p]))))
      && (x.st.Sleeping? && !y.st.Sleeping? ==> y.st.Runnable?)
  {
    hide Step, Locals, Targets, AllWanted, LockOwner, Parents, Each, NoneMissed;
    StepCan(s, a, t);
    StepAt(s, a, t, c);
    LocalAt(s, c);
    LocalAt(s, a.p);
    MakingAt(s, a.p);
  }

  /** At the end of its scan wait goes to sleep exactly when it has a child and has not been killed, and
      otherwise returns. */
  lemma WaitDecides(s: State, p: nat, killed: bool, t: State)
    requires Inv(s) && Step(s, ScanEnd(p, killed), t)
    ensures p < |s.ps| == |t.ps|
    ensures t.ps[p].pc == if !killed && (exists c {:trigger s.ps[c]} :: 0 <= c < |s.ps| && s.ps[c].parent == p) then SleepLocked else Run
    ensures t.ps[p].pc.Run? <==> t.lock == -1
  {
    hide Step, Locals, Targets, AllWanted, Parents, NoneMissed;
    StepCan(s, ScanEnd(p, killed), t);
    StepAt(s, ScanEnd(p, killed), t, p);
    EachAt(s, p);
  }

  /** A bound on the steps that a process still takes to finish exit. */
  function StepsLeft(pc: Pc, n: nat): nat {
    match pc
    case ExitReparent(k) => (if k < n then n - k else 0) * (n + 2) + n + 4
    case ExitWakeInit(k, j) => (if k < n then n - k - 1 else 0) * (n + 2) + (if j < n then n - j else 0) + n + 5
    case ExitWakeParent(j) => (if j < n then n - j else 0) + 3
    case ExitMark => 2
    case Dead => 1
    case _ => 0
  }

  /** exit makes progress: every step of its own brings the process nearer to its end. */
  lemma ExitAdvances(s: State, a: Action, t: State)
    requires Inv(s) && Step(s, a, t) && a.p < |s.ps| && Exiting(s.ps[a.p].pc) && !a.Kill?
    ensures |t.ps| == |s.ps| && Exiting(t.ps[a.p].pc) && StepsLeft(t.ps[a.p].pc, |s.ps|) < StepsLeft(s.ps[a.p].pc, |s.ps|)
  {
    hide Step, Locals, Targets, AllWanted, LockOwner, Parents, Each, NoneMissed;
    StepCan(s, a, t);
    StepAt(s, a, t, a.p);
    LocalAt(s, a.p);
    var n, pc := |s.ps|, s.ps[a.p].pc;
    if pc.ExitReparent? && pc.k < n {
      assert (n - pc.k) * (n + 2) == (n - pc.k - 1) * (n + 2) + n + 2;
    }
  }
}
