/** sleep and wakeup (proc.c) for any condition: data guarded by a spinlock lk, processes that test
    it and sleep on a channel, and processes that change it and wake channels up.

    Steps are as fine as the code's: sleep takes p->lock, gives up lk, marks the process SLEEPING and
    gives up the processor; wakeup's loop takes one p->lock at a time; kill comes at any moment.
    Parts of the data that no test looks at may also be changed by others, without lk.
    view(c, d) is the outcome, with data d, of the test before sleep on channel c. */
module SleepWakeup {
  /** Go on, or sleep because of v. */
  datatype Test<V> = Pass | Sleep(v: V)

  datatype Pc =
    | Out
    | Holding
    | Waking(c: nat, j: nat)
    | SleepLocked(c: nat)
    | SleepFree(c: nat)
    | Asleep(c: nat)

  /** asleep: the state is SLEEPING; seen is what the last test before sleep saw. */
  datatype Proc<V> = Proc(asleep: bool, pc: Pc, seen: Test<V>)

  /** lk is the holder of the lock, -1 when it is free.  past are the values that the data has had
      since the lock was taken, before the present one; woken are the channels on which the holder
      has finished a wakeup. */
  datatype State<D, V> = State(ps: seq<Proc<V>>, data: D, lk: int, past: seq<D>, woken: set<nat>)

  /** The data when the lock was taken, or the present data while it is free. */
  function Base<D, V>(s: State<D, V>): D { if s.past == [] then s.data else s.past[0] }

  datatype Action<D> =
    | Acquire(p: nat)
    | Modify(p: nat, d: D)
    | Outside(p: nat, d: D)
    | WakeStart(p: nat, c: nat)
    | WakeStep(p: nat)
    | Release(p: nat)
    | SleepStart(p: nat, c: nat)
    | SleepRelease(p: nat)
    | SleepSched(p: nat)
    | Resume(p: nat)
    | Kill(p: nat)

  /** p->lock is held from one step to the next. */
  predicate Locked<V>(x: Proc<V>) { x.pc.SleepLocked? || x.pc.SleepFree? }

  predicate HoldsLk(pc: Pc) { pc.Holding? || pc.Waking? || pc.SleepLocked? }

  /** The rule for users of sleep: whoever has changed the outcome that sleepers on c have seen has
      called wakeup(c), before or after the change, when it gives up lk. */
  ghost predicate Announced<D(!new), V>(view: (nat, D) -> Test<V>, s: State<D, V>) {
    forall c: nat {:trigger c in s.woken} {:trigger view(c, s.data)} :: view(c, Base(s)).Sleep? && view(c, s.data) != view(c, Base(s)) ==> c in s.woken
  }

  /** The action gives up lk, at once or by falling asleep, only in keeping with the rule, and changes
      without lk only what no test looks at. */
  ghost predicate Keeps<D(!new), V>(view: (nat, D) -> Test<V>, s: State<D, V>, a: Action<D>) {
    && (a.Release? || a.SleepStart? ==> Announced(view, s))
    && (a.Outside? ==> forall c: nat {:trigger view(c, a.d)} {:trigger view(c, s.data)} :: view(c, a.d) == view(c, s.data))
  }

  function At<D, V>(s: State<D, V>, p: nat, pc: Pc): State<D, V>
    requires p < |s.ps|
  {
    s.(ps := s.ps[p := s.ps[p].(pc := pc)])
  }

  function SetAsleep<D, V>(s: State<D, V>, p: nat, asleep: bool): State<D, V>
    requires p < |s.ps|
  {
    s.(ps := s.ps[p := s.ps[p].(asleep := asleep)])
  }

  function SetLk<D, V>(s: State<D, V>, lk: int): State<D, V> {
    s.(lk := lk, past := [], woken := {})
  }

  ghost predicate Step<D(!new), V>(view: (nat, D) -> Test<V>, s: State<D, V>, a: Action<D>, t: State<D, V>) {
    var n := |s.ps|;
    a.p < n &&
    var p, pc := a.p, s.ps[a.p].pc;
    match a
    case Acquire(_) => pc.Out? && s.lk == -1 && t == SetLk(At(s, p, Holding), p)
    case Modify(_, d) => pc.Holding? && t == s.(data := d, past := s.past + [s.data])
    case Outside(_, d) => t == s.(data := d, past := if s.lk == -1 then [] else s.past + [s.data])
    case WakeStart(_, c) => pc.Holding? && t == At(s, p, Waking(c, 0))
    case WakeStep(_) =>
      && pc.Waking? && (pc.j < n && pc.j != p ==> !Locked(s.ps[pc.j]))
      && t == if pc.j >= n then At(s, p, Holding).(woken := s.woken + {pc.c})
              else if pc.j != p && s.ps[pc.j].asleep && s.ps[pc.j].pc == Asleep(pc.c)
              then At(SetAsleep(s, pc.j, false), p, Waking(pc.c, pc.j + 1))
              else At(s, p, Waking(pc.c, pc.j + 1))
    case Release(_) => pc.Holding? && t == SetLk(At(s, p, Out), -1)
    case SleepStart(_, c) =>
      && pc.Holding? && view(c, s.data).Sleep?
      && t == s.(ps := s.ps[p := s.ps[p].(pc := SleepLocked(c), seen := view(c, s.data))])
    case SleepRelease(_) => pc.SleepLocked? && t == SetLk(At(s, p, SleepFree(pc.c)), -1)
    case SleepSched(_) => pc.SleepFree? && t == At(SetAsleep(s, p, true), p, Asleep(pc.c))
    case Resume(_) => pc.Asleep? && !s.ps[p].asleep && s.lk == -1 && t == SetLk(At(s, p, Holding), p)
    case Kill(_) => !Locked(s.ps[p]) && t == SetAsleep(s, p, false)
  }

  lemma ActorExists<D(!new), V>(view: (nat, D) -> Test<V>, s: State<D, V>, a: Action<D>, t: State<D, V>)
    requires Step(view, s, a, t)
    ensures a.p < |s.ps| == |t.ps|
  {
  }

  // ---- no lost wakeup ----

  /** Asleep on c, or past the point where it gave up lk to sleep there. */
  predicate Committed<V>(x: Proc<V>, c: nat) {
    x.pc == SleepFree(c) || (x.asleep && x.pc == Asleep(c))
  }

  /** The holder of lk has come to process q in its wakeup of c, or has finished it. */
  predicate Passed<D, V>(s: State<D, V>, c: nat, q: nat) {
    || c in s.woken
    || (0 <= s.lk < |s.ps| && s.ps[s.lk].pc.Waking? && s.ps[s.lk].pc.c == c && q < s.ps[s.lk].pc.j)
  }

  predicate Fine<D, V>(s: State<D, V>, q: nat)
    requires q < |s.ps|
  {
    var x := s.ps[q];
    && (x.asleep ==> x.pc.Asleep?)
    && (HoldsLk(x.pc) <==> s.lk == q)
    && (x.pc.SleepFree? || x.pc.Asleep? ==> Committed(x, x.pc.c) ==> !Passed(s, x.pc.c, q))
  }

  /** What q has seen is up to date, and who is about to give up lk has kept the rule. */
  ghost predicate UpToDate<D(!new), V>(view: (nat, D) -> Test<V>, s: State<D, V>, q: nat)
    requires q < |s.ps|
  {
    var x := s.ps[q];
    && (x.pc.SleepLocked? ==> x.seen == view(x.pc.c, s.data) && x.seen.Sleep? && Announced(view, s))
    && (x.pc.SleepFree? || x.pc.Asleep? ==> Committed(x, x.pc.c) ==> x.seen == view(x.pc.c, Base(s)) && x.seen.Sleep?)
  }

  ghost predicate Inv<D, V>(s: State<D, V>) {
    && -1 <= s.lk < |s.ps|
    && (s.lk == -1 ==> s.past == [] && s.woken == {})
    && forall q {:trigger Fine(s, q)} :: 0 <= q < |s.ps| ==> Fine(s, q)
  }

  lemma FineAt<D, V>(s: State<D, V>, q: nat)
    requires Inv(s) && q < |s.ps|
    ensures Fine(s, q) && -1 <= s.lk < |s.ps| && (s.lk == -1 ==> s.past == [] && s.woken == {})
  {
  }

  lemma FineKept<D(!new), V>(view: (nat, D) -> Test<V>, s: State<D, V>, a: Action<D>, t: State<D, V>, q: nat)
    requires Inv(s) && Step(view, s, a, t) && q < |s.ps|
    ensures |t.ps| == |s.ps| && -1 <= t.lk < |t.ps| && (t.lk == -1 ==> t.past == [] && t.woken == {})
    ensures Fine(t, q)
  {
    hide Inv;
    FineAt(s, q);
    FineAt(s, a.p);
  }

  lemma StepKeeps<D(!new), V>(view: (nat, D) -> Test<V>, s: State<D, V>, a: Action<D>, t: State<D, V>)
    requires Inv(s) && Step(view, s, a, t)
    ensures Inv(t)
  {
    hide Fine;
    FineKept(view, s, a, t, a.p);
    forall q | 0 <= q < |s.ps|
      ensures Fine(t, q)
    {
      FineKept(view, s, a, t, q);
    }
  }

  lemma UpToDateKept<D(!new), V>(view: (nat, D) -> Test<V>, s: State<D, V>, a: Action<D>, t: State<D, V>, q: nat)
    requires Inv(s) && Step(view, s, a, t) && Keeps(view, s, a) && q < |s.ps|
    requires UpToDate(view, s, q) && UpToDate(view, s, a.p)
    ensures |t.ps| == |s.ps| && UpToDate(view, t, q)
  {
    hide Inv;
    FineAt(s, q);
    FineAt(s, a.p);
  }

  ghost predicate Initial<D, V>(s: State<D, V>) {
    s.lk == -1 && s.past == [] && s.woken == {} && forall q :: 0 <= q < |s.ps| ==> !s.ps[q].asleep && s.ps[q].pc.Out?
  }

  ghost predicate Execution<D(!new), V>(view: (nat, D) -> Test<V>, ss: seq<State<D, V>>, acts: seq<Action<D>>) {
    && |ss| == |acts| + 1 && Initial(ss[0])
    && forall i :: 0 <= i < |acts| ==> Step(view, ss[i], acts[i], ss[i + 1])
  }

  ghost predicate KeepsRule<D(!new), V>(view: (nat, D) -> Test<V>, ss: seq<State<D, V>>, acts: seq<Action<D>>)
    requires |ss| == |acts| + 1
  {
    forall i {:trigger acts[i]} :: 0 <= i < |acts| ==> Keeps(view, ss[i], acts[i])
  }

  /** Action i wakes process q if it is asleep: kill, or a wakeup of another process on the channel that q
      sleeps on, when its loop comes to q. */
  ghost predicate Wakes<D(!new), V>(ss: seq<State<D, V>>, acts: seq<Action<D>>, i: nat, q: nat)
    requires i < |acts| && i < |ss|
  {
    || acts[i] == Kill(q)
    || (&& acts[i].WakeStep? && acts[i].p != q && acts[i].p < |ss[i].ps| && q < |ss[i].ps|
        && ss[i].ps[acts[i].p].pc.Waking? && ss[i].ps[acts[i].p].pc.j == q
        && ss[i].ps[q].pc == Asleep(ss[i].ps[acts[i].p].pc.c))
  }

  /** Action i before the n-th was the second half of a sleep of q, and q has not been woken since. */
  ghost predicate SleptSince<D(!new), V>(ss: seq<State<D, V>>, acts: seq<Action<D>>, i: nat, n: nat, q: nat)
    requires i < n <= |acts| && |ss| == |acts| + 1
  {
    acts[i] == SleepSched(q) && forall j: nat :: i < j < n ==> !Wakes(ss, acts, j, q)
  }

  /** In every execution a process is asleep if and only if it has gone to sleep and neither kill nor a
      wakeup on its channel has come to it since. */
  lemma {:induction false} AsleepExactly<D(!new), V>(view: (nat, D) -> Test<V>, ss: seq<State<D, V>>, acts: seq<Action<D>>, n: nat, q: nat)
    requires Execution(view, ss, acts) && n <= |acts| && q < |ss[0].ps|
    ensures q < |ss[n].ps|
    ensures ss[n].ps[q].asleep <==> exists i: nat :: i < n && SleptSince(ss, acts, i, n, q)
  {
    hide Step, Wakes, SleptSince;
    if n > 0 {
      AsleepExactly(view, ss, acts, n - 1, q);
      OneStepAsleep(view, ss, acts, n - 1, q);
      SleptLater(ss, acts, n - 1, n, q);
    }
  }

  lemma SleptLater<D(!new), V>(ss: seq<State<D, V>>, acts: seq<Action<D>>, m: nat, n: nat, q: nat)
    requires n == m + 1 <= |acts| && |ss| == |acts| + 1
    ensures (exists i: nat :: i < n && SleptSince(ss, acts, i, n, q)) <==>
      acts[m] == SleepSched(q) || ((exists i: nat :: i < m && SleptSince(ss, acts, i, m, q)) && !Wakes(ss, acts, m, q))
  {
    hide Wakes;
    if acts[m] == SleepSched(q) {
      assert SleptSince(ss, acts, m, n, q);
    }
    if (exists i: nat :: i < m && SleptSince(ss, acts, i, m, q)) && !Wakes(ss, acts, m, q) {
      var i: nat :| i < m && SleptSince(ss, acts, i, m, q);
      assert SleptSince(ss, acts, i, n, q);
    }
    if i: nat :| i < m && SleptSince(ss, acts, i, n, q) {
      assert SleptSince(ss, acts, i, m, q) && !Wakes(ss, acts, m, q);
    }
  }

  lemma OneStepAsleep<D(!new), V>(view: (nat, D) -> Test<V>, ss: seq<State<D, V>>, acts: seq<Action<D>>, i: nat, q: nat)
    requires |ss| == |acts| + 1 && i < |acts| && Step(view, ss[i], acts[i], ss[i + 1]) && q < |ss[i].ps|
    ensures q < |ss[i + 1].ps|
    ensures ss[i + 1].ps[q].asleep <==> acts[i] == SleepSched(q) || (ss[i].ps[q].asleep && !Wakes(ss, acts, i, q))
  {
  }

  lemma {:induction false} RunKeeps<D(!new), V>(view: (nat, D) -> Test<V>, ss: seq<State<D, V>>, acts: seq<Action<D>>, k: nat)
    requires Execution(view, ss, acts) && k < |ss|
    ensures Inv(ss[k]) && |ss[k].ps| == |ss[0].ps|
  {
    hide Step;
    if k > 0 {
      RunKeeps(view, ss, acts, k - 1);
      assert Step(view, ss[k - 1], acts[k - 1], ss[k]);
      StepKeeps(view, ss[k - 1], acts[k - 1], ss[k]);
      ActorExists(view, ss[k - 1], acts[k - 1], ss[k]);
    } else {
      forall q | 0 <= q < |ss[0].ps|
        ensures Fine(ss[0], q)
      {
      }
    }
  }

  lemma {:induction false} RunUpToDate<D(!new), V>(view: (nat, D) -> Test<V>, ss: seq<State<D, V>>, acts: seq<Action<D>>, k: nat, q: nat)
    requires Execution(view, ss, acts) && KeepsRule(view, ss, acts) && k < |ss| && q < |ss[k].ps|
    ensures UpToDate(view, ss[k], q)
  {
    hide Step, Inv, Keeps;
    RunKeeps(view, ss, acts, k);
    if k > 0 {
      var a := acts[k - 1];
      RunKeeps(view, ss, acts, k - 1);
      assert Step(view, ss[k - 1], a, ss[k]);
      ActorExists(view, ss[k - 1], a, ss[k]);
      RunUpToDate(view, ss, acts, k - 1, q);
      RunUpToDate(view, ss, acts, k - 1, a.p);
      UpToDateKept(view, ss[k - 1], a, ss[k], q);
    }
  }

  /** No lost wakeup, for any condition: if everybody keeps the rule, then whenever lk is free, a
      process asleep on a channel, or on the way to sleep there, would test again what it has tested
      and sleep again. */
  lemma NoLostWakeup<D(!new), V>(view: (nat, D) -> Test<V>, ss: seq<State<D, V>>, acts: seq<Action<D>>, k: nat, q: nat, c: nat)
    requires Execution(view, ss, acts) && KeepsRule(view, ss, acts) && k < |ss| && q < |ss[k].ps|
    requires ss[k].lk == -1 && Committed(ss[k].ps[q], c)
    ensures ss[k].ps[q].seen == view(c, ss[k].data) && ss[k].ps[q].seen.Sleep?
  {
    hide Execution, KeepsRule, Inv;
    RunKeeps(view, ss, acts, k);
    RunUpToDate(view, ss, acts, k, q);
    FineAt(ss[k], q);
  }

  /** Giving up lk, at once or by going to sleep on what the last test has seen. */
  ghost predicate GivesUp<D(!new), V>(view: (nat, D) -> Test<V>, s: State<D, V>, p: nat, t: State<D, V>)
    requires p < |s.ps|
  {
    var x := s.ps[p];
    || (x.pc.Holding? && t == SetLk(At(s, p, Out), -1))
    || (x.pc.SleepLocked? && x.seen == view(x.pc.c, s.data) && t == SetLk(At(s, p, SleepFree(x.pc.c)), -1))
  }

  /** When the holder gives up lk, whether or not it keeps the rule, somebody is left asleep on an old
      test exactly when the outcome for a channel with a sleeper has changed since lk was taken. */
  lemma UnannouncedExactly<D(!new), V>(view: (nat, D) -> Test<V>, s: State<D, V>, p: nat, t: State<D, V>)
    requires Inv(s) && p < |s.ps| && GivesUp(view, s, p, t)
    requires forall q {:trigger s.ps[q]} :: 0 <= q < |s.ps| && q != p ==> UpToDate(view, s, q)
    ensures (exists q, c: nat {:trigger Committed(t.ps[q], c)} :: 0 <= q < |t.ps| && Committed(t.ps[q], c) && t.ps[q].seen != view(c, t.data))
       <==> (exists q, c: nat {:trigger Committed(s.ps[q], c)} :: 0 <= q < |s.ps| && Committed(s.ps[q], c) && view(c, s.data) != view(c, Base(s)))
  {
    hide Inv, Announced;
    FineAt(s, p);
    forall q, c: nat | 0 <= q < |s.ps| && q != p
      ensures Committed(t.ps[q], c) <==> Committed(s.ps[q], c)
      ensures Committed(s.ps[q], c) ==> s.ps[q].seen == view(c, Base(s)) && t.ps[q].seen == s.ps[q].seen
    {
      FineAt(s, q);
    }
  }

  // ---- sleep as one step ----

  /** The coarse machine: sleepers are pairs of a process and its channel. */
  datatype Coarse<D> = Coarse(data: D, sleepers: set<(nat, nat)>)

  /** One stay of p in lk: the data becomes d, the channels in woken are woken up, and p ends asleep
      on the channel in onto, if there is one. */
  ghost predicate Stay<D>(g: Coarse<D>, p: nat, d: D, woken: set<nat>, onto: set<nat>, g': Coarse<D>) {
    && g'.data == d
    && (forall c: nat {:trigger (p, c) in g.sleepers} :: (p, c) !in g.sleepers)
    && forall q: nat, c: nat {:trigger (q, c) in g'.sleepers} ::
         (q, c) in g'.sleepers <==> (if q == p then c in onto else (q, c) in g.sleepers && c !in woken)
  }

  /** kill of a sleeping process. */
  ghost predicate Woken<D>(g: Coarse<D>, p: nat, g': Coarse<D>) {
    && g'.data == g.data
    && forall q: nat, c: nat {:trigger (q, c) in g'.sleepers} :: (q, c) in g'.sleepers <==> q != p && (q, c) in g.sleepers
  }

  /** What a fine action is in the coarse machine: giving up lk is the whole stay, with the change of
      the data, the wakeups and the falling asleep that it has come to; a change without lk counts at
      once or, while somebody holds lk, as part of that stay. */
  ghost predicate Moves<D(!new), V>(s: State<D, V>, a: Action<D>, g: Coarse<D>, g': Coarse<D>)
    requires a.p < |s.ps|
  {
    && g.data == Base(s)
    && match a
       case Release(p) => Stay(g, p, s.data, s.woken, {}, g')
       case SleepRelease(p) => s.ps[p].pc.SleepLocked? && Stay(g, p, s.data, s.woken, {s.ps[p].pc.c}, g')
       case Outside(_, d) => g' == if s.lk == -1 then g.(data := d) else g
       case Kill(p) => g' == g || Woken(g, p, g')
       case _ => g' == g
  }

  /** What the coarse machine shows of process q: while lk is held it still shows the sleepers that the
      holder has woken up so far. */
  ghost predicate Shows<D, V>(s: State<D, V>, g: Coarse<D>, q: nat)
    requires q < |s.ps|
  {
    forall c: nat {:trigger (q, c) in g.sleepers} ::
      && (Committed(s.ps[q], c) ==> (q, c) in g.sleepers)
      && ((q, c) in g.sleepers ==> Committed(s.ps[q], c) || (s.lk != q && Passed(s, c, q)))
  }

  ghost predicate Related<D, V>(s: State<D, V>, g: Coarse<D>) {
    && g.data == Base(s)
    && (forall q: nat, c: nat {:trigger (q, c) in g.sleepers} :: (q, c) in g.sleepers ==> q < |s.ps|)
    && forall q {:trigger Shows(s, g, q)} :: 0 <= q < |s.ps| ==> Shows(s, g, q)
  }

  /** The coarse state after an action. */
  function After<D, V>(s: State<D, V>, a: Action<D>, g: Coarse<D>): Coarse<D>
    requires a.p < |s.ps|
  {
    match a
    case Release(p) => Coarse(s.data, set x | x in g.sleepers && x.0 != p && x.1 !in s.woken)
    case SleepRelease(p) =>
      var rest := set x | x in g.sleepers && x.0 != p && x.1 !in s.woken;
      Coarse(s.data, if s.ps[p].pc.SleepLocked? then rest + {(p, s.ps[p].pc.c)} else rest)
    case Outside(_, d) => if s.lk == -1 then g.(data := d) else g
    case Kill(p) => if s.ps[p].asleep then Coarse(g.data, set x | x in g.sleepers && x.0 != p) else g
    case _ => g
  }

  lemma ShowsKept<D(!new), V>(view: (nat, D) -> Test<V>, s: State<D, V>, a: Action<D>, t: State<D, V>, g: Coarse<D>, q: nat)
    requires Inv(s) && Step(view, s, a, t) && Related(s, g) && q < |s.ps|
    ensures |t.ps| == |s.ps| && Shows(t, After(s, a, g), q)
  {
    hide Inv, Related, Announced;
    FineAt(s, q);
    FineAt(s, a.p);
    ShowsAt(s, g, q);
  }

  lemma ShowsAt<D, V>(s: State<D, V>, g: Coarse<D>, q: nat)
    requires Related(s, g) && q < |s.ps|
    ensures Shows(s, g, q) && g.data == Base(s)
  {
  }

  lemma AfterMoves<D(!new), V>(view: (nat, D) -> Test<V>, s: State<D, V>, a: Action<D>, t: State<D, V>, g: Coarse<D>)
    requires Inv(s) && Step(view, s, a, t) && Related(s, g)
    ensures a.p < |s.ps| && Moves(s, a, g, After(s, a, g))
  {
    hide Inv, Related, Announced;
    FineAt(s, a.p);
    ShowsAt(s, g, a.p);
  }

  lemma RelatedKept<D(!new), V>(view: (nat, D) -> Test<V>, s: State<D, V>, a: Action<D>, t: State<D, V>, g: Coarse<D>)
    requires Inv(s) && Step(view, s, a, t) && Related(s, g)
    ensures Related(t, After(s, a, g))
  {
    hide Shows, Fine, Announced;
    forall q | 0 <= q < |s.ps|
      ensures Shows(t, After(s, a, g), q)
    {
      ShowsKept(view, s, a, t, g, q);
    }
    FineAt(s, a.p);
    BaseAfter(view, s, a, t);
  }

  lemma BaseAfter<D(!new), V>(view: (nat, D) -> Test<V>, s: State<D, V>, a: Action<D>, t: State<D, V>)
    requires Inv(s) && Step(view, s, a, t)
    ensures |t.ps| == |s.ps| && a.p < |s.ps|
    ensures Base(t) == if a.Release? || a.SleepRelease? then s.data else if a.Outside? && s.lk == -1 then a.d else Base(s)
  {
    hide Inv, Announced;
    FineAt(s, a.p);
  }

  /** Every interleaving of the two halves of sleep, of wakeup's loop and of kill is, action by action,
      a run of the coarse machine, in which a stay in lk with its wakeups and with falling asleep is
      a single step.  Whenever lk is free the coarse machine shows the data and exactly those asleep
      or about to be. */
  lemma {:induction false} SleepIsOneStep<D(!new), V>(view: (nat, D) -> Test<V>, ss: seq<State<D, V>>, acts: seq<Action<D>>, k: nat)
    returns (gs: seq<Coarse<D>>)
    requires Execution(view, ss, acts) && k < |ss|
    ensures |gs| == k + 1 && gs[0] == Coarse(ss[0].data, {})
    ensures forall i {:trigger acts[i]} :: 0 <= i < k ==> acts[i].p < |ss[i].ps| && Moves(ss[i], acts[i], gs[i], gs[i + 1])
    ensures Related(ss[k], gs[k])
    ensures ss[k].lk == -1 ==> gs[k].data == ss[k].data && forall q: nat, c: nat {:trigger (q, c) in gs[k].sleepers} ::
              (q, c) in gs[k].sleepers <==> q < |ss[k].ps| && Committed(ss[k].ps[q], c)
  {
    hide Step, Inv, Moves, Fine, After;
    if k == 0 {
      gs := [Coarse(ss[0].data, {})];
    } else {
      gs := SleepIsOneStep(view, ss, acts, k - 1);
      RunKeeps(view, ss, acts, k - 1);
      assert Step(view, ss[k - 1], acts[k - 1], ss[k]);
      ActorExists(view, ss[k - 1], acts[k - 1], ss[k]);
      RelatedKept(view, ss[k - 1], acts[k - 1], ss[k], gs[k - 1]);
      AfterMoves(view, ss[k - 1], acts[k - 1], ss[k], gs[k - 1]);
      gs := gs + [After(ss[k - 1], acts[k - 1], gs[k - 1])];
    }
    RunKeeps(view, ss, acts, k);
    if ss[k].lk == -1 { FreeShows(ss[k], gs[k]); }
  }

  lemma FreeShows<D, V>(s: State<D, V>, g: Coarse<D>)
    requires Inv(s) && Related(s, g) && s.lk == -1
    ensures g.data == s.data
    ensures forall q: nat, c: nat {:trigger (q, c) in g.sleepers} :: (q, c) in g.sleepers <==> q < |s.ps| && Committed(s.ps[q], c)
  {
    hide Fine;
    forall q: nat, c: nat
      ensures (q, c) in g.sleepers <==> q < |s.ps| && Committed(s.ps[q], c)
    {
      if q < |s.ps| { ShowsAt(s, g, q); }
    }
  }
}
