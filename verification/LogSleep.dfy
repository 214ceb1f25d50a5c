/** The sleep of begin_op and the wakeups of end_op (log.c) in the machine of module SleepWakeup: every
    interleaving of both halves of sleep, of wakeup's loop and of kill with the operations and the
    committer.

    The data is the state of module LogProtocol.  Who holds log.lock begins or ends an operation, logs a
    block, or clears committing; the last disk write of commit() counts as part of that stay.  Stores
    into cached blocks and all other disk writes happen without log.lock.  A crash ends a run. */
module LogSleep {
  import opened LogProtocol
  import SleepWakeup

  const LOG: nat := 0

  /** What begin_op tests before it sleeps on &log. */
  function Test(ch: nat, d: State): SleepWakeup.Test<()> {
    if ch != LOG || Admits(d) then SleepWakeup.Pass else SleepWakeup.Sleep(())
  }

  /** The write that clears the log on the disk, and committing. */
  predicate Clears(d: State, b: Action) { b.Commit? && d.phase.Installing? && d.phase.tail == |d.lh| }

  /** What happens in log.lock, and what happens without it. */
  predicate Locked(d: State, b: Action) { b.Begin? || b.LogWrite? || b.End? || Clears(d, b) }

  predicate Unlocked(d: State, b: Action) { b.Store? || (b.Commit? && !Clears(d, b)) }

  /** Where end_op calls wakeup(&log): when others still run, when a commit is over, and when there was
      nothing to commit. */
  predicate Wakes(d: State, b: Action, d': State) {
    Clears(d, b) || (b.End? && (d'.ops != [] || d.lh == []))
  }

  /** One of the changes from d to d' calls for a wakeup. */
  ghost predicate WakesHere(c: Config, d: State, d': State) {
    exists b :: Step(c, d, b, d') && Wakes(d, b, d')
  }

  /** Whoever gives up log.lock has called wakeup(&log) if one of the changes in its stay calls for it. */
  ghost predicate HasWoken(c: Config, s: SleepWakeup.State<State, ()>) {
    var path := s.past + [s.data];
    forall j :: 0 <= j < |s.past| && WakesHere(c, path[j], path[j + 1]) ==> LOG in s.woken
  }

  ghost predicate FollowsHere(c: Config, s: SleepWakeup.State<State, ()>, a: SleepWakeup.Action<State>) {
    match a
    case Modify(_, d) => exists b :: Locked(s.data, b) && Step(c, s.data, b, d)
    case Outside(_, d) => exists b :: Unlocked(s.data, b) && Step(c, s.data, b, d)
    case Release(_) => HasWoken(c, s)
    case SleepStart(_, _) => HasWoken(c, s)
    case _ => true
  }

  /** A run of SleepWakeup from a booted system that follows log.c. */
  ghost predicate FollowsCode(c: Config, ss: seq<SleepWakeup.State<State, ()>>, acts: seq<SleepWakeup.Action<State>>)
    requires |ss| == |acts| + 1
  {
    && c.Valid() && ss[0].data == Boot(c)
    && forall i {:trigger acts[i]} :: 0 <= i < |acts| ==> FollowsHere(c, ss[i], acts[i])
  }

  // ---- the data along a run ----

  ghost predicate Moves(c: Config, d: State, d': State) { exists b :: Step(c, d, b, d') }

  /** The values of the data in the present stay are states of module LogProtocol, one step apart. */
  ghost predicate Tracked(c: Config, s: SleepWakeup.State<State, ()>) {
    var path := s.past + [s.data];
    && (forall j :: 0 <= j < |path| ==> Inv(c, path[j]))
    && (forall j {:trigger path[j]} :: 0 <= j < |s.past| ==> Moves(c, path[j], path[j + 1]))
  }

  lemma TrackedMore(c: Config, s: SleepWakeup.State<State, ()>, b: Action, t: SleepWakeup.State<State, ()>)
    requires Tracked(c, s) && Step(c, s.data, b, t.data) && t.past == s.past + [s.data]
    ensures Tracked(c, t) && Inv(c, t.data)
  {
    hide Inv, Step;
    var path, more := s.past + [s.data], t.past + [t.data];
    assert Inv(c, path[|s.past|]);
    StepKeeps(c, s.data, b, t.data);
    forall j {:trigger more[j]} | 0 <= j < |t.past|
      ensures Moves(c, more[j], more[j + 1])
    {
      if j < |s.past| {
        assert more[j] == path[j] && more[j + 1] == path[j + 1];
      } else {
        assert more[j] == s.data && more[j + 1] == t.data;
      }
    }
  }

  lemma TrackedKept(c: Config, s: SleepWakeup.State<State, ()>, a: SleepWakeup.Action<State>, t: SleepWakeup.State<State, ()>)
    requires SleepWakeup.Inv(s) && SleepWakeup.Step(Test, s, a, t) && FollowsHere(c, s, a) && Tracked(c, s)
    ensures Tracked(c, t)
  {
    hide Inv, Step, SleepWakeup.Fine, HasWoken;
    var path := s.past + [s.data];
    assert Inv(c, path[|s.past|]);
    if a.Modify? || a.Outside? {
      var b :| Step(c, s.data, b, a.d);
      if t.past == [] {
        StepKeeps(c, s.data, b, a.d);
      } else {
        TrackedMore(c, s, b, t);
      }
    }
  }

  // ---- the rule of SleepWakeup ----

  /** Without log.lock nothing happens that begin_op tests. */
  lemma UntestedOutside(c: Config, d: State, b: Action, d': State)
    requires Inv(c, d) && Step(c, d, b, d') && Unlocked(d, b)
    ensures Admits(d') <==> Admits(d)
  {
    hide Contents, HeaderReadable, OpsOk, Reserved, Replay, Open, Slack, Dirty, Ids;
  }

  /** From a state that does not admit to one that does, some step calls for a wakeup. */
  lemma {:induction false} SomeWakes(c: Config, path: seq<State>, n: nat)
    requires n < |path| && !Admits(path[0]) && Admits(path[n])
    requires forall j :: 0 <= j < |path| ==> Inv(c, path[j])
    requires forall j {:trigger path[j]} :: 0 <= j < |path| - 1 ==> Moves(c, path[j], path[j + 1])
    ensures exists j :: 0 <= j < n && WakesHere(c, path[j], path[j + 1])
  {
    hide Inv, Step, Admits;
    if n > 0 {
      if Admits(path[n - 1]) {
        SomeWakes(c, path, n - 1);
      } else {
        var b :| Step(c, path[n - 1], b, path[n - 1 + 1]);
        SleepersAreTold(c, path[n - 1], b, path[n]);
        assert WakesHere(c, path[n - 1], path[n - 1 + 1]);
      }
    }
  }

  lemma RuleKept(c: Config, s: SleepWakeup.State<State, ()>, a: SleepWakeup.Action<State>)
    requires Tracked(c, s) && FollowsHere(c, s, a)
    ensures SleepWakeup.Keeps(Test, s, a)
  {
    hide Inv, Step, Admits;
    var path := s.past + [s.data];
    if a.Outside? {
      var b :| Unlocked(s.data, b) && Step(c, s.data, b, a.d);
      assert Inv(c, path[|s.past|]);
      UntestedOutside(c, s.data, b, a.d);
    } else if a.Release? || a.SleepStart? {
      if !Admits(SleepWakeup.Base(s)) && Admits(s.data) {
        assert path[0] == SleepWakeup.Base(s) && path[|s.past|] == s.data;
        SomeWakes(c, path, |s.past|);
      }
    }
  }

  lemma {:induction false} RunTracked(c: Config, ss: seq<SleepWakeup.State<State, ()>>, acts: seq<SleepWakeup.Action<State>>, k: nat)
    requires SleepWakeup.Execution(Test, ss, acts) && FollowsCode(c, ss, acts) && k < |ss|
    ensures Tracked(c, ss[k])
    ensures k < |acts| ==> SleepWakeup.Keeps(Test, ss[k], acts[k])
  {
    hide Inv, SleepWakeup.Inv, SleepWakeup.Step, Tracked, FollowsHere, SleepWakeup.Keeps;
    if k > 0 {
      RunTracked(c, ss, acts, k - 1);
      SleepWakeup.RunKeeps(Test, ss, acts, k - 1);
      assert FollowsHere(c, ss[k - 1], acts[k - 1]) && SleepWakeup.Step(Test, ss[k - 1], acts[k - 1], ss[k]);
      TrackedKept(c, ss[k - 1], acts[k - 1], ss[k]);
    } else {
      TrackedBoot(c, ss[0]);
    }
    if k < |acts| {
      assert FollowsHere(c, ss[k], acts[k]);
      RuleKept(c, ss[k], acts[k]);
    }
  }

  lemma TrackedBoot(c: Config, s: SleepWakeup.State<State, ()>)
    requires c.Valid() && s.data == Boot(c) && s.past == []
    ensures Tracked(c, s)
  {
    BootOk(c);
  }

  /** log.c keeps the rule of sleep and wakeup, so no wakeup of begin_op is lost: in every interleaving,
      whenever log.lock is free, an operation asleep in begin_op, or on the way to sleep there, would
      not be admitted. */
  lemma NoOperationIsForgotten(c: Config, ss: seq<SleepWakeup.State<State, ()>>, acts: seq<SleepWakeup.Action<State>>, k: nat, q: nat)
    requires SleepWakeup.Execution(Test, ss, acts) && FollowsCode(c, ss, acts) && k < |ss|
    ensures SleepWakeup.KeepsRule(Test, ss, acts)
    ensures q < |ss[k].ps| && ss[k].lk == -1 && SleepWakeup.Committed(ss[k].ps[q], LOG) ==> !Admits(ss[k].data)
  {
    hide Admits, SleepWakeup.Keeps, FollowsHere, SleepWakeup.Step, SleepWakeup.Committed;
    forall i {:trigger acts[i]} | 0 <= i < |acts|
      ensures SleepWakeup.Keeps(Test, ss[i], acts[i])
    {
      RunTracked(c, ss, acts, i);
    }
    if q < |ss[k].ps| && ss[k].lk == -1 && SleepWakeup.Committed(ss[k].ps[q], LOG) {
      SleepWakeup.NoLostWakeup(Test, ss, acts, k, q, LOG);
    }
  }

  /** And what the data goes through is a run of module LogProtocol, so that all that is proved there
      holds of these interleavings too. */
  lemma {:induction false} ProtocolRunOf(c: Config, ss: seq<SleepWakeup.State<State, ()>>, acts: seq<SleepWakeup.Action<State>>, k: nat)
    returns (us: seq<State>, bs: seq<Action>)
    requires SleepWakeup.Execution(Test, ss, acts) && FollowsCode(c, ss, acts) && k < |ss|
    ensures Run(c, us, bs) && us[|bs|] == ss[k].data
  {
    hide Step, SleepWakeup.Step, FollowsHere, Boot;
    if k == 0 {
      us, bs := [Boot(c)], [];
    } else {
      us, bs := ProtocolRunOf(c, ss, acts, k - 1);
      assert FollowsHere(c, ss[k - 1], acts[k - 1]) && SleepWakeup.Step(Test, ss[k - 1], acts[k - 1], ss[k]);
      if acts[k - 1].Modify? || acts[k - 1].Outside? {
        var b := DataSteps(c, ss[k - 1], acts[k - 1], ss[k]);
        us, bs := us + [ss[k].data], bs + [b];
      } else {
        DataStays(ss[k - 1], acts[k - 1], ss[k]);
      }
    }
  }

  lemma DataSteps(c: Config, s: SleepWakeup.State<State, ()>, a: SleepWakeup.Action<State>, t: SleepWakeup.State<State, ()>) returns (b: Action)
    requires SleepWakeup.Step(Test, s, a, t) && FollowsHere(c, s, a) && (a.Modify? || a.Outside?)
    ensures Step(c, s.data, b, t.data)
  {
    hide Step, HasWoken;
    b :| Step(c, s.data, b, a.d);
  }

  lemma DataStays(s: SleepWakeup.State<State, ()>, a: SleepWakeup.Action<State>, t: SleepWakeup.State<State, ()>)
    requires SleepWakeup.Step(Test, s, a, t) && !a.Modify? && !a.Outside?
    ensures t.data == s.data
  {
  }
}
