/** Sleep locks (sleeplock.c) in the machine of module SleepWakeup: the data is the lock, guarded by the
    spinlock lk->lk, and every interleaving of sleep, wakeup and kill is covered. */
module SleepLock {
  import SleepWakeup

  const LOCK: nat := 0

  /** The fields of the lock; inside are the processes between acquiresleep and releasesleep. */
  datatype Lock = Lock(locked: bool, pid: int, inside: set<nat>)

  const UNLOCKED := Lock(false, -1, {})

  /** acquiresleep sleeps while the lock is locked. */
  function Test(ch: nat, d: Lock): SleepWakeup.Test<()> {
    if ch == LOCK && d.locked then SleepWakeup.Sleep(()) else SleepWakeup.Pass
  }

  /** The end of acquiresleep by p. */
  predicate Takes(d: Lock, p: nat, d': Lock) { !d.locked && d' == Lock(true, p, d.inside + {p}) }

  /** releasesleep by p, which is called only between acquiresleep and releasesleep. */
  predicate Drops(d: Lock, p: nat, d': Lock) { p in d.inside && d' == Lock(false, -1, d.inside - {p}) }

  /** releasesleep calls wakeup(lk) before it gives up lk->lk. */
  predicate HasWoken(s: SleepWakeup.State<Lock, ()>) {
    var path := s.past + [s.data];
    forall j {:trigger path[j]} :: 0 <= j < |s.past| && path[j].locked && !path[j + 1].locked ==> LOCK in s.woken
  }

  predicate FollowsHere(s: SleepWakeup.State<Lock, ()>, a: SleepWakeup.Action<Lock>) {
    match a
    case Modify(p, d) => Takes(s.data, p, d) || Drops(s.data, p, d)
    case Outside(_, _) => false
    case Release(_) => HasWoken(s)
    case SleepStart(_, _) => HasWoken(s)
    case _ => true
  }

  /** A run of SleepWakeup that starts with the lock unlocked and follows sleeplock.c. */
  ghost predicate FollowsCode(ss: seq<SleepWakeup.State<Lock, ()>>, acts: seq<SleepWakeup.Action<Lock>>)
    requires |ss| == |acts| + 1
  {
    && ss[0].data == UNLOCKED
    && forall i {:trigger acts[i]} :: 0 <= i < |acts| ==> FollowsHere(ss[i], acts[i])
  }

  /** The lock is locked exactly while a process is inside, by the process whose pid it holds. */
  predicate Ok(d: Lock) {
    if d.locked then d.pid >= 0 && d.inside == {d.pid as nat} else d.inside == {}
  }

  lemma StepKeeps(s: SleepWakeup.State<Lock, ()>, a: SleepWakeup.Action<Lock>, t: SleepWakeup.State<Lock, ()>)
    requires SleepWakeup.Step(Test, s, a, t) && FollowsHere(s, a) && Ok(s.data)
    ensures Ok(t.data)
  {
    if a.Modify? && Drops(s.data, a.p, a.d) {
      assert s.data.inside - {a.p} == {};
    }
  }

  lemma {:induction false} SomeDrop(path: seq<Lock>, n: nat)
    requires n < |path| && path[0].locked && !path[n].locked
    ensures exists j {:trigger path[j]} :: 0 <= j < n && path[j].locked && !path[j + 1].locked
  {
    if path[n - 1].locked {
      assert !path[n - 1 + 1].locked;
    } else {
      SomeDrop(path, n - 1);
    }
  }

  lemma RuleKept(s: SleepWakeup.State<Lock, ()>, a: SleepWakeup.Action<Lock>)
    requires FollowsHere(s, a)
    ensures SleepWakeup.Keeps(Test, s, a)
  {
    var path := s.past + [s.data];
    assert path[|s.past|] == s.data;
    if (a.Release? || a.SleepStart?) && SleepWakeup.Base(s).locked && !s.data.locked {
      SomeDrop(path, |s.past|);
    }
  }

  lemma {:induction false} RunKeeps(ss: seq<SleepWakeup.State<Lock, ()>>, acts: seq<SleepWakeup.Action<Lock>>, k: nat)
    requires SleepWakeup.Execution(Test, ss, acts) && FollowsCode(ss, acts) && k < |ss|
    ensures Ok(ss[k].data)
  {
    hide SleepWakeup.Step, FollowsHere;
    if k > 0 {
      RunKeeps(ss, acts, k - 1);
      assert SleepWakeup.Step(Test, ss[k - 1], acts[k - 1], ss[k]) && FollowsHere(ss[k - 1], acts[k - 1]);
      StepKeeps(ss[k - 1], acts[k - 1], ss[k]);
    }
  }

  /** In every interleaving at most one process is between acquiresleep and releasesleep. */
  lemma AtMostOneHolder(ss: seq<SleepWakeup.State<Lock, ()>>, acts: seq<SleepWakeup.Action<Lock>>, k: nat, p: nat, q: nat)
    requires SleepWakeup.Execution(Test, ss, acts) && FollowsCode(ss, acts) && k < |ss|
    requires p in ss[k].data.inside && q in ss[k].data.inside
    ensures p == q == ss[k].data.pid && ss[k].data.locked
  {
    hide SleepWakeup.Execution, FollowsCode;
    RunKeeps(ss, acts, k);
  }

  /** Whenever lk->lk is free, a process asleep on the lock, or on the way to sleep, waits for one that is
      inside. */
  lemma NobodySleepsOnFreeLock(ss: seq<SleepWakeup.State<Lock, ()>>, acts: seq<SleepWakeup.Action<Lock>>, k: nat, q: nat)
    requires SleepWakeup.Execution(Test, ss, acts) && FollowsCode(ss, acts) && k < |ss| && ss[k].lk == -1
    requires q < |ss[k].ps| && SleepWakeup.Committed(ss[k].ps[q], LOCK)
    ensures ss[k].data.locked && ss[k].data.pid >= 0 && ss[k].data.inside == {ss[k].data.pid as nat}
  {
    hide SleepWakeup.Step, FollowsHere, SleepWakeup.Keeps, SleepWakeup.Committed;
    forall i {:trigger acts[i]} | 0 <= i < |acts|
      ensures SleepWakeup.Keeps(Test, ss[i], acts[i])
    {
      assert FollowsHere(ss[i], acts[i]);
      RuleKept(ss[i], acts[i]);
    }
    RunKeeps(ss, acts, k);
    SleepWakeup.NoLostWakeup(Test, ss, acts, k, q, LOCK);
  }
}
