/** When the calls of module CowKernel fail, in terms of the free frames before the call, which of
    them leave a count too high, and inputs on which the kernel and private memory part ways. */
module CowLimits {
  import opened Cow
  import opened CowOps
  import opened CowKernel
  import opened CowCopyout
  import PageTable

  /** The page-table pages that walks for pages i .. n-1 find missing. */
  function Total(need: seq<nat>, i: nat, n: nat): nat
    requires i <= n <= |need|
    decreases n - i
  {
    if i == n then 0 else need[i] + Total(need, i + 1, n)
  }

  // ---- frames that the loops take ----

  lemma TakeLeaves(s: State, pid: nat, data: Page)
    requires Inv(s) && s.free != []
    ensures Sizes(s) && |Take(s, pid, data).free| == |TakeTable(s, pid).free| == |s.free| - 1
  {
  }

  lemma {:induction false} TakeTablesExactly(s: State, pid: nat, n: nat)
    requires Inv(s)
    ensures TakeTables(s, pid, n).1 <==> n <= |s.free|
    ensures |TakeTables(s, pid, n).0.free| == if n <= |s.free| then |s.free| - n else 0
    decreases n
  {
    hide Inv, Take, TakeTable;
    if n > 0 && s.free != [] {
      TakeTablesStep(s, pid, n);
      TakeLeaves(s, pid, Fill(0));
      TakeTablesExactly(TakeTable(s, pid), pid, n - 1);
    }
  }

  lemma CopyPageExactly(s: State, p: nat, q: nat, i: nat, need: nat)
    requires Inv(s) && p != q && Slot(p, i) in s.pt && Slot(q, i) !in s.pt
    ensures CopyPage(s, p, q, i, need).1 <==> need <= |s.free|
    ensures need <= |s.free| ==> |CopyPage(s, p, q, i, need).0.free| == |s.free| - need
  {
    hide Disjoint, Counted, Exclusive, CopyPage;
    CopyPageSteps(s, p, q, i, need);
    TakeTablesExactly(Protect(s, Slot(p, i)), q, need);
  }

  lemma {:induction false} CopyFromExactly(s: State, p: nat, q: nat, i: nat, n: nat, need: seq<nat>)
    requires Inv(s) && i <= n <= |need| && CanCopy(Abs(s), p, q, i, n)
    ensures CopyFrom(s, p, q, i, n, need).1 == n <==> Total(need, i, n) <= |s.free|
    ensures Total(need, i, n) <= |s.free| ==> |CopyFrom(s, p, q, i, n, need).0.free| == |s.free| - Total(need, i, n)
    decreases n - i
  {
    hide Inv, Abs, CanCopy, CopyPage;
    if i < n {
      CanCopyAt(s, p, q, i, n);
      CopyFromStep(s, p, q, i, n, need);
      CopyPageExactly(s, p, q, i, need[i]);
      var (t, ok) := CopyPage(s, p, q, i, need[i]);
      if ok { CopyFromExactly(t, p, q, i + 1, n, need); }
    } else {
      CopyFromEnds(s, p, q, n, need);
    }
  }

  /** uvmcopy succeeds exactly when there is a free frame for every missing page-table page. */
  lemma UvmcopyExactly(s: State, p: nat, q: nat, n: nat, need: seq<nat>)
    requires Inv(s) && n <= |need| && CanCopy(Abs(s), p, q, 0, n)
    ensures Uvmcopy(s, p, q, n, need).1 <==> Total(need, 0, n) <= |s.free|
    ensures Uvmcopy(s, p, q, n, need).0.leak == s.leak <==> Total(need, 0, n) <= |s.free|
    ensures Total(need, 0, n) <= |s.free| ==> |Uvmcopy(s, p, q, n, need).0.free| == |s.free| - Total(need, 0, n)
  {
    CopyFromExactly(s, p, q, 0, n, need);
    UvmcopyRefines(s, p, q, n, need);
    var (t, ok) := Uvmcopy(s, p, q, n, need);
    hide Uvmcopy, CanCopy, Abs, Inv, EagerCopy;
    if !ok { LeaksDiffer(s.leak, t.leak); }
  }

  lemma LeaksDiffer(before: seq<nat>, after: seq<nat>)
    requires LeaksOne(before, after)
    ensures before != after
  {
    var f :| 0 <= f < |before| && after == before[f := before[f] + 1];
    assert after[f] != before[f];
  }

  lemma GrowPageExactly(s: State, p: nat, v: nat, need: nat)
    requires Inv(s) && Slot(p, v) !in s.pt
    ensures GrowPage(s, p, v, need).1 <==> 1 + need <= |s.free|
    ensures 1 + need <= |s.free| ==> |GrowPage(s, p, v, need).0.free| == |s.free| - 1 - need
  {
    if s.free != [] {
      TakeKeeps(s, p, Fill(0));
      TakeLeaves(s, p, Fill(0));
      TakeTablesExactly(Take(s, p, Fill(0)), p, need);
    }
    hide Disjoint, Counted, Exclusive, TakeTables, Take;
  }

  lemma {:induction false} GrowFromExactly(s: State, p: nat, v: nat, hi: nat, need: seq<nat>)
    requires Inv(s) && v <= hi <= |need| && forall j :: v <= j < hi ==> Slot(p, j) !in s.pt
    ensures GrowFrom(s, p, v, hi, need).1 == hi <==> hi - v + Total(need, v, hi) <= |s.free|
    ensures GrowFrom(s, p, v, hi, need).1 == hi ==> |GrowFrom(s, p, v, hi, need).0.free| == |s.free| - (hi - v) - Total(need, v, hi)
    decreases hi - v
  {
    hide Inv, Abs, GrowPage;
    if v < hi {
      GrowFromStep(s, p, v, hi, need);
      GrowPageExactly(s, p, v, need[v]);
      var (t, ok) := GrowPage(s, p, v, need[v]);
      if ok { GrowFromExactly(t, p, v + 1, hi, need); }
    } else {
      GrowFromEnd(s, p, hi, need);
    }
  }

  /** uvmalloc succeeds exactly when there is a free frame for every new page and every missing
      page-table page. */
  lemma UvmallocExactly(s: State, p: nat, lo: nat, hi: nat, need: seq<nat>)
    requires Inv(s) && lo <= hi <= |need| && forall j :: lo <= j < hi ==> Slot(p, j) !in s.pt
    ensures Uvmalloc(s, p, lo, hi, need).1 <==> hi - lo + Total(need, lo, hi) <= |s.free|
    ensures Uvmalloc(s, p, lo, hi, need).1 ==> |Uvmalloc(s, p, lo, hi, need).0.free| == |s.free| - (hi - lo) - Total(need, lo, hi)
  {
    GrowFromExactly(s, p, lo, hi, need);
  }

  // ---- calls ----

  /** What each call needs in order to succeed; fork needs boot frames in allocproc. */
  ghost predicate Succeeds(s: State, c: Call)
    requires KInv(s) && Callable(s, c)
  {
    match c
    case Fork(p, _, boot, need) => boot + Total(need, 0, NPages(s.sz[p])) <= |s.free|
    case Grow(p, n, need) =>
      NPages(s.sz[p]) <= NPages(s.sz[p] + n)
      && NPages(s.sz[p] + n) - NPages(s.sz[p]) + Total(need, NPages(s.sz[p]), NPages(s.sz[p] + n)) <= |s.free|
    case Store(p, va, _) => Permitted(PrivateOf(s), p, va) && (s.pt[Slot(p, va / PGSIZE)].w || (s.free != [] && va < s.sz[p]))
    case _ => true
  }

  /** A fork that gets through allocproc and then runs out of frames. */
  ghost predicate Leaks(s: State, c: Call)
    requires KInv(s) && Callable(s, c)
  {
    c.Fork? && c.boot <= |s.free| < c.boot + Total(c.need, 0, NPages(s.sz[c.p]))
  }

  lemma ForkExactly(s: State, p: nat, q: nat, boot: nat, need: seq<nat>)
    requires KInv(s) && Callable(s, Fork(p, q, boot, need))
    ensures DoFork(s, p, q, boot, need).1 <==> boot + Total(need, 0, NPages(s.sz[p])) <= |s.free|
    ensures DoFork(s, p, q, boot, need).0.leak == s.leak <==>
      !(boot <= |s.free| < boot + Total(need, 0, NPages(s.sz[p])))
    ensures DoFork(s, p, q, boot, need).1 ==>
      |DoFork(s, p, q, boot, need).0.free| == |s.free| - boot - Total(need, 0, NPages(s.sz[p]))
  {
    hide TakeTables, Uvmcopy, DropTables, EagerCopy, Abs, Disjoint, Counted, Exclusive, LeaksOne, CanCopy;
    TakeTablesExactly(s, q, boot);
    var (t, booted) := TakeTables(s, q, boot);
    if booted {
      ChildUnmapped(s, t, p, q);
      UvmcopyExactly(t, p, q, NPages(s.sz[p]), need);
    }
  }

  lemma GrowExactly(s: State, p: nat, n: nat, need: seq<nat>)
    requires KInv(s) && Callable(s, Grow(p, n, need))
    ensures DoGrow(s, p, n, need).1 <==> Succeeds(s, Grow(p, n, need))
    ensures DoGrow(s, p, n, need).0.leak == s.leak
    ensures var (lo, hi) := (NPages(s.sz[p]), NPages(s.sz[p] + n));
      DoGrow(s, p, n, need).1 ==> lo <= hi && |DoGrow(s, p, n, need).0.free| == |s.free| - (hi - lo) - Total(need, lo, hi)
  {
    hide Uvmalloc, Abs, Disjoint, Counted, Exclusive;
    PagesMonotone(s.sz[p], s.sz[p] + n);
    UvmallocExactly(s, p, NPages(s.sz[p]), NPages(s.sz[p] + n), need);
  }

  /** A call succeeds exactly when its condition holds before it, and leaves a count too high exactly
      when it is a fork for which the free frames suffice for allocproc but not for uvmcopy. */
  lemma SucceedsExactly(s: State, c: Call)
    requires KInv(s) && Callable(s, c)
    ensures Exec(s, c).1 <==> Succeeds(s, c)
    ensures if Leaks(s, c) then LeaksOne(s.leak, Exec(s, c).0.leak) else Exec(s, c).0.leak == s.leak
  {
    hide DoFork, DoGrow, DoStore, DoShrink, DoFree, LeaksOne, Disjoint, Counted, Exclusive;
    ExecRefines(s, c);
    match c
    case Fork(p, q, boot, need) => ForkExactly(s, p, q, boot, need);
    case Grow(p, n, need) => GrowExactly(s, p, n, need);
    case Store(p, va, b) => StoreExactly(s, p, va, b);
    case _ =>
  }

  /** The page-table pages that a copy of pages 0 .. n-1 takes: one for every 512 pages begun, and one
      for every 512 of those begun, except for the two of the top pages, which allocproc has made. */
  function Tables(n: nat): nat {
    var low, mid := (n + 0x1ff) / 0x200, (n + 0x3_ffff) / 0x4_0000;
    (if low < PageTable.NPAGES / 0x200 then low else PageTable.NPAGES / 0x200 - 1)
    + (if mid < PageTable.TOP then mid else PageTable.TOP - 1)
  }

  lemma TablesMore(n: nat)
    requires n < PageTable.NPAGES
    ensures Tables(n + 1) == Tables(n) + PageTable.NeedAt(n)
  {
    assert n % 0x4_0000 == 0 ==> n % 0x200 == 0;
  }

  lemma {:induction false} TotalTables(need: seq<nat>, i: nat, n: nat)
    requires i <= n <= |need| && n <= PageTable.NPAGES
    requires forall v :: i <= v < n ==> need[v] == PageTable.NeedAt(v)
    ensures Total(need, i, n) + Tables(i) == Tables(n)
    decreases n - i
  {
    hide Tables;
    if i < n {
      TablesMore(i);
      TotalTables(need, i + 1, n);
    }
  }

  /** fork of a process of n pages with the page tables of PageTable: allocproc takes four frames, for
      the trapframe, the root table and the two tables of the top pages (PageTable.NewTable), and the
      copy takes what PageTable.MapNeeds says.  fork succeeds exactly when all of them are free, and
      leaves a count too high exactly when the four are and the others are not. */
  lemma ForkNeeds(s: State, p: nat, q: nat, need: seq<nat>)
    requires KInv(s) && Callable(s, Fork(p, q, 4, need))
    requires forall v :: 0 <= v < NPages(s.sz[p]) ==> need[v] == PageTable.NeedAt(v)
    ensures DoFork(s, p, q, 4, need).1 <==> 4 + Tables(NPages(s.sz[p])) <= |s.free|
    ensures DoFork(s, p, q, 4, need).0.leak == s.leak <==> !(4 <= |s.free| < 4 + Tables(NPages(s.sz[p])))
  {
    hide DoFork, Inv, Tables;
    ForkExactly(s, p, q, 4, need);
    assert NPages(s.sz[p]) <= PageTable.NPAGES;
    TotalTables(need, 0, NPages(s.sz[p]));
    assert Tables(0) == 0 by { NoTables(); }
  }

  /** sbrk of a process that has only grown: it succeeds exactly when there is a free frame for every new
      page and for every table that PageTable.MapNeeds counts for them. */
  lemma GrowNeeds(s: State, p: nat, n: nat, need: seq<nat>)
    requires KInv(s) && Callable(s, Grow(p, n, need))
    requires forall v :: NPages(s.sz[p]) <= v < NPages(s.sz[p] + n) ==> need[v] == PageTable.NeedAt(v)
    ensures var lo, hi := NPages(s.sz[p]), NPages(s.sz[p] + n);
            DoGrow(s, p, n, need).1 <==> hi - lo + Tables(hi) - Tables(lo) <= |s.free|
  {
    hide DoGrow, Inv, Tables;
    GrowExactly(s, p, n, need);
    var lo, hi := NPages(s.sz[p]), NPages(s.sz[p] + n);
    PagesMonotone(s.sz[p], s.sz[p] + n);
    assert hi <= PageTable.NPAGES;
    TotalTables(need, lo, hi);
  }

  lemma NoTables()
    ensures Tables(0) == 0
  {
  }

  // ---- runs ----

  /** The outcome of every call of a run is the condition above, in the state that the call meets. */
  lemma {:induction false} OutcomesExactly(s: State, cs: seq<Call>, i: nat)
    requires KInv(s) && i < |cs|
    ensures var t := Run(s, cs[..i]); Outcomes(s, cs)[i] <==> Callable(t, cs[i]) && Succeeds(t, cs[i])
    decreases |cs|
  {
    hide KInv, Exec, Callable, Succeeds;
    if i == 0 {
      assert cs[..0] == [];
      ExecOrExactly(s, cs[0]);
    } else {
      var t := ExecOr(s, cs[0]).0;
      OutcomesExactly(t, cs[1..], i - 1);
      assert cs[..i][1..] == cs[1..][..i - 1];
    }
  }

  lemma ExecOrExactly(s: State, c: Call)
    requires KInv(s)
    ensures ExecOr(s, c).1 <==> Callable(s, c) && Succeeds(s, c)
    ensures if Callable(s, c) && Leaks(s, c) then LeaksOne(s.leak, ExecOr(s, c).0.leak) else ExecOr(s, c).0.leak == s.leak
  {
    hide Exec, Callable, Succeeds, Leaks, LeaksOne, KInv;
    if Callable(s, c) { SucceedsExactly(s, c); }
  }

  /** How many calls of the run leak. */
  ghost function LeakCount(s: State, cs: seq<Call>): nat
    requires KInv(s)
    decreases |cs|
  {
    hide KInv, Exec, Callable, Leaks;
    if cs == [] then 0
    else (if Callable(s, cs[0]) && Leaks(s, cs[0]) then 1 else 0) + LeakCount(ExecOr(s, cs[0]).0, cs[1..])
  }

  function Sum(a: seq<nat>): nat {
    if a == [] then 0 else a[0] + Sum(a[1..])
  }

  lemma {:induction false} SumUpdate(a: seq<nat>, f: nat)
    requires f < |a|
    ensures Sum(a[f := a[f] + 1]) == Sum(a) + 1
  {
    if f > 0 {
      SumUpdate(a[1..], f - 1);
      assert a[f := a[f] + 1][1..] == a[1..][f - 1 := a[1..][f - 1] + 1];
    } else {
      assert a[0 := a[0] + 1][1..] == a[1..];
    }
  }

  /** Over a run, the counts that are too high grow by one for every leaking fork and by nothing else. */
  lemma {:induction false} LeaksCounted(s: State, cs: seq<Call>)
    requires KInv(s)
    ensures Sum(Run(s, cs).leak) == Sum(s.leak) + LeakCount(s, cs)
    decreases |cs|
  {
    hide KInv, Exec, Callable, Leaks, Sum, ExecOr;
    if cs != [] {
      ExecOrExactly(s, cs[0]);
      var t := ExecOr(s, cs[0]).0;
      if Callable(s, cs[0]) && Leaks(s, cs[0]) {
        var f :| 0 <= f < |s.leak| && t.leak == s.leak[f := s.leak[f] + 1];
        SumUpdate(s.leak, f);
      }
      LeaksCounted(t, cs[1..]);
    }
  }

  /** The counts stay exact over a run if and only if no call of it leaks. */
  lemma {:induction false} CountsStayExactly(s: State, cs: seq<Call>)
    requires KInv(s)
    ensures Run(s, cs).leak == s.leak <==>
      forall i {:trigger cs[i]} :: 0 <= i < |cs| && Callable(Run(s, cs[..i]), cs[i]) ==> !Leaks(Run(s, cs[..i]), cs[i])
    decreases |cs|
  {
    hide KInv, Exec, Callable, Leaks, Sum, ExecOr;
    if cs != [] {
      ExecOrExactly(s, cs[0]);
      var t := ExecOr(s, cs[0]).0;
      LeaksCounted(s, cs);
      CountsStayExactly(t, cs[1..]);
      assert cs[..0] == [];
      forall i {:trigger cs[i]} | 1 <= i < |cs|
        ensures Run(s, cs[..i]) == Run(t, cs[1..][..i - 1]) && cs[1..][i - 1] == cs[i]
      {
        assert cs[..i][1..] == cs[1..][..i - 1];
      }
      forall i {:trigger cs[1..][i]} | 0 <= i < |cs| - 1
        ensures Run(s, cs[..i + 1]) == Run(t, cs[1..][..i]) && cs[1..][i] == cs[i + 1]
      {
        assert cs[..i + 1][1..] == cs[1..][..i];
      }
    }
  }

  // ---- what a fork shares ----

  /** Parent and child map the same frame, and neither may write it. */
  ghost predicate Shared(t: State, p: nat, q: nat, v: nat) {
    && Slot(p, v) in t.pt && Slot(q, v) in t.pt
    && t.pt[Slot(p, v)].frame == t.pt[Slot(q, v)].frame && !t.pt[Slot(p, v)].w
  }

  lemma CopyPageShares(s: State, p: nat, q: nat, i: nat, need: nat)
    requires Inv(s) && p != q && Slot(p, i) in s.pt && Slot(q, i) !in s.pt && CopyPage(s, p, q, i, need).1
    ensures var t := CopyPage(s, p, q, i, need).0;
      Shared(t, p, q, i) && forall k :: k != Slot(p, i) && k != Slot(q, i) ==> (k in t.pt <==> k in s.pt) && (k in s.pt ==> t.pt[k] == s.pt[k])
  {
    hide Disjoint, Counted, Exclusive, CopyPage;
    CopyPageSteps(s, p, q, i, need);
  }

  lemma {:induction false} CopyFromShares(s: State, p: nat, q: nat, i: nat, n: nat, need: seq<nat>)
    requires Inv(s) && i <= n <= |need| && CanCopy(Abs(s), p, q, i, n) && CopyFrom(s, p, q, i, n, need).1 == n
    ensures forall v :: i <= v < n ==> Shared(CopyFrom(s, p, q, i, n, need).0, p, q, v)
    ensures forall k: Slot :: k.page < i ==>
      (k in CopyFrom(s, p, q, i, n, need).0.pt <==> k in s.pt) && (k in s.pt ==> CopyFrom(s, p, q, i, n, need).0.pt[k] == s.pt[k])
    decreases n - i
  {
    hide Inv, Abs, CanCopy, CopyPage;
    if i < n {
      CanCopyAt(s, p, q, i, n);
      CopyFromStep(s, p, q, i, n, need);
      CopyPageShares(s, p, q, i, need[i]);
      CopyFromShares(CopyPage(s, p, q, i, need[i]).0, p, q, i + 1, n, need);
    } else {
      CopyFromEnds(s, p, q, n, need);
    }
  }

  lemma ForkShares(s: State, p: nat, q: nat, boot: nat, need: seq<nat>, v: nat)
    requires KInv(s) && Callable(s, Fork(p, q, boot, need)) && v < NPages(s.sz[p])
    requires boot + Total(need, 0, NPages(s.sz[p])) <= |s.free|
    ensures DoFork(s, p, q, boot, need).1 && Shared(DoFork(s, p, q, boot, need).0, p, q, v)
  {
    hide TakeTables, CopyFrom, DropTables, EagerCopy, Abs, Disjoint, Counted, Exclusive, LeaksOne, CanCopy;
    ForkExactly(s, p, q, boot, need);
    TakeTablesExactly(s, q, boot);
    var t := TakeTables(s, q, boot).0;
    ChildUnmapped(s, t, p, q);
    CopyFromExactly(t, p, q, 0, NPages(s.sz[p]), need);
    CopyFromShares(t, p, q, 0, NPages(s.sz[p]), need);
    assert Shared(CopyFrom(t, p, q, 0, NPages(s.sz[p]), need).0, p, q, v);
  }

  // ---- inputs ----

  function Zeroed(n: nat): (r: seq<Page>)
    ensures |r| == n
  {
    if n == 0 then [] else [Fill(0)] + Zeroed(n - 1)
  }

  /** A machine of n frames once userinit has made the first process: one page of memory, one kernel
      page. */
  function First(n: nat): State
    requires n >= 2
  {
    State(seq(n - 2, i requires 0 <= i < n - 2 => i + 2), seq(n, i requires 0 <= i < n => if i < 2 then 1 else 0),
          Zeroed(n), map[Slot(0, 0) := Pte(1, true, true, true, true, false)],
          map[0 := PGSIZE], map[0 := 0], seq(n, i requires 0 <= i < n => 0))
  }

  lemma FirstOk(n: nat)
    requires n >= 2
    ensures KInv(First(n)) && |First(n).free| == n - 2
  {
    var s := First(n);
    assert Users(s.pt, 1) == {Slot(0, 0)};
    forall f | 0 <= f < n && f != 1
      ensures Users(s.pt, f) == {}
    {
    }
    assert NPages(PGSIZE) == 1;
  }

  /** allocproc takes the last four free frames, and uvmcopy finds none for its page tables. */
  lemma ForkThatLeaks()
    ensures KInv(First(6)) && Callable(First(6), Fork(0, 1, 4, [2]))
    ensures var (t, ok) := Exec(First(6), Fork(0, 1, 4, [2])); !ok && LeaksOne(First(6).leak, t.leak)
  {
    FirstOk(6);
    assert NPages(PGSIZE) == 1;
    assert Total([2], 0, 1) == 2 + Total([2], 1, 1);
    hide Exec, First, LeaksOne;
    FirstFacts(6);
    SucceedsExactly(First(6), Fork(0, 1, 4, [2]));
  }

  lemma FirstFacts(n: nat)
    requires n >= 2
    ensures First(n).sz == map[0 := PGSIZE] && |First(n).free| == n - 2
    ensures First(n).pt == map[Slot(0, 0) := Pte(1, true, true, true, true, false)]
  {
  }

  lemma RunOne(s: State, c: Call)
    requires KInv(s) && Callable(s, c)
    ensures Run(s, [c]) == Exec(s, c).0
  {
    hide KInv, Callable, Exec;
    var t := ExecOr(s, c).0;
    assert [c][1..] == [];
    assert Run(t, []) == t;
  }

  lemma RunTwo(s: State, c: Call, d: Call)
    requires KInv(s)
    ensures Run(s, [c, d]) == Run(ExecOr(s, c).0, [d])
  {
    assert [c, d][1..] == [d];
  }

  /** A call that succeeds does to private memory what Spec says. */
  lemma Effect(s: State, c: Call)
    requires KInv(s) && Callable(s, c) && Succeeds(s, c)
    ensures KInv(Exec(s, c).0) && Exec(s, c).1 && ExecOr(s, c).0 == Exec(s, c).0
    ensures SpecCallable(PrivateOf(s), c) && PrivateOf(Exec(s, c).0) == Spec(PrivateOf(s), c)
  {
    hide Exec, Callable, Succeeds, KInv;
    SucceedsExactly(s, c);
    ExecRefines(s, c);
  }

  lemma PagesOfFirst()
    ensures NPages(PGSIZE) == 1 && NPages(PGSIZE + 1) == 2
    ensures Total([0, 0], 1, 2) == 0 && Total([2, 0], 0, 2) == 2 && Total([2], 0, 1) == 2
  {
    assert Total([2, 0], 0, 2) == 2 + Total([2, 0], 1, 2);
  }

  lemma GrownPrivate(v: Private)
    requires v.sz == map[0 := PGSIZE]
    ensures var w := Spec(v, Grow(0, 1, [0, 0]));
      w.sz == map[0 := PGSIZE + 1] && Slot(0, 1) in w.mem && w.mem[Slot(0, 1)] == View(Fill(0), true, true, false, true)
  {
    PagesOfFirst();
    assert Slot(0, 1) in Slots(0, 1, 2);
  }

  lemma ForkedPrivate(v: Private, need: seq<nat>)
    requires Laid(v) && v.sz == map[0 := PGSIZE + 1] && Slot(0, 1) in v.mem
    ensures forall i :: 0 <= i < NPages(v.sz[0]) ==> Slot(0, i) in v.mem
    ensures var w := Spec(v, Fork(0, 1, 4, need));
      0 in w.sz && w.sz[0] == PGSIZE + 1 && Slot(0, 1) in w.mem && w.mem[Slot(0, 1)] == v.mem[Slot(0, 1)]
  {
  }

  /** sbrk(1) from one whole page. */
  lemma Grown() returns (u: State)
    ensures KInv(First(20)) && u == ExecOr(First(20), Grow(0, 1, [0, 0])).0
    ensures KInv(u) && u.sz == map[0 := PGSIZE + 1] && |u.free| == 17
    ensures Slot(0, 1) in PrivateOf(u).mem && PrivateOf(u).mem[Slot(0, 1)] == View(Fill(0), true, true, false, true)
  {
    FirstOk(20);
    FirstFacts(20);
    PagesOfFirst();
    var s, c := First(20), Grow(0, 1, [0, 0]);
    hide First, Inv, Layout, Abs, Spec, DoGrow, ExecOr, NPages, Total;
    Effect(s, c);
    GrownPrivate(PrivateOf(s));
    GrowExactly(s, 0, 1, [0, 0]);
    u := ExecOr(s, c).0;
  }

  /** And then a fork: the second page is shared, below its end but above p->sz. */
  lemma SharedAboveSize() returns (t: State)
    ensures KInv(First(20)) && t == Run(First(20), [Grow(0, 1, [0, 0]), Fork(0, 1, 4, [2, 0])])
    ensures KInv(t) && 0 in t.sz && t.sz[0] == PGSIZE + 1 && Shared(t, 0, 1, 1)
    ensures Slot(0, 1) in PrivateOf(t).mem && PrivateOf(t).mem[Slot(0, 1)] == View(Fill(0), true, true, false, true)
  {
    hide First, Inv, Layout, Abs, Spec, DoFork, Run, ExecOr, NPages, Total, Shared;
    var u := Grown();
    var d := Fork(0, 1, 4, [2, 0]);
    PagesOfFirst();
    RunTwo(First(20), Grow(0, 1, [0, 0]), d);
    Effect(u, d);
    LayoutIsPrivate(u);
    Framed(u);
    ForkedPrivate(PrivateOf(u), [2, 0]);
    ForkShares(u, 0, 1, 4, [2, 0], 1);
    RunOne(u, d);
    t := Exec(u, d).0;
  }

  /** There private memory permits a store, and the kernel kills the process. */
  lemma StoreAboveSizeKills(b: int) returns (t: State)
    ensures KInv(First(20)) && t == Run(First(20), [Grow(0, 1, [0, 0]), Fork(0, 1, 4, [2, 0])])
    ensures KInv(t) && 0 in t.sz && t.sz[0] <= 5000
    ensures Permitted(PrivateOf(t), 0, 5000) && !DoStore(t, 0, 5000, b).1
  {
    hide First, Inv, Abs, Run, DoStore;
    t := SharedAboveSize();
    StoreExactly(t, 0, 5000, b);
  }

  lemma FirstForked(v: Private)
    requires Laid(v) && v.sz == map[0 := PGSIZE] && Slot(0, 0) in v.mem
    ensures forall i :: 0 <= i < NPages(v.sz[0]) ==> Slot(0, i) in v.mem
    ensures var w := Spec(v, Fork(0, 1, 4, [2])); Slot(0, 0) in w.mem && w.mem[Slot(0, 0)] == v.mem[Slot(0, 0)]
  {
  }

  lemma FirstUser(s: State)
    requires Inv(s) && Slot(0, 0) in s.pt
    ensures Slot(0, 0) in PrivateOf(s).mem && PrivateOf(s).mem[Slot(0, 0)].u == s.pt[Slot(0, 0)].u
  {
  }

  /** fork uses up the free frames. */
  lemma SharedWithoutFrames() returns (t: State)
    ensures KInv(First(8)) && t == Run(First(8), [Fork(0, 1, 4, [2])])
    ensures KInv(t) && t.free == [] && Shared(t, 0, 1, 0) && t.pt[Slot(0, 0)].u
  {
    FirstOk(8);
    FirstFacts(8);
    PagesOfFirst();
    var s, c := First(8), Fork(0, 1, 4, [2]);
    hide First, Inv, Layout, Abs, Spec, DoFork, Run, ExecOr, NPages, Total;
    Effect(s, c);
    ForkExactly(s, 0, 1, 4, [2]);
    ForkShares(s, 0, 1, 4, [2], 0);
    RunOne(s, c);
    t := Exec(s, c).0;
    LayoutIsPrivate(s);
    FirstUser(s);
    FirstForked(PrivateOf(s));
    FirstUser(t);
  }

  /** copyout then reports success and has written the page of both processes. */
  lemma CopyoutEscapes() returns (t: State, bs: seq<int>)
    ensures KInv(First(8)) && t == Run(First(8), [Fork(0, 1, 4, [2])])
    ensures KInv(t) && t.free == [] && Slot(0, 0) in t.pt && |bs| == 1
    ensures Copyout(t, 0, 0, bs).1 && !OnlyChanges(t, Copyout(t, 0, 0, bs).0, Slot(0, 0))
  {
    hide First, Inv, Layout, Run, CopyoutPage, OnlyChanges, Copyout;
    t := SharedWithoutFrames();
    var k := Slot(0, 0);
    assert Slot(1, 0) in Users(t.pt, t.pt[k].frame);
    CopyoutIsolatedExactly(t, k, 0, 1);
    bs :| |bs| == 1 && !OnlyChanges(t, CopyoutPage(t, k, 0, bs), k);
    CopyoutOne(t, bs);
  }

  lemma CopyoutOne(t: State, bs: seq<int>)
    requires Inv(t) && Slot(0, 0) in t.pt && t.pt[Slot(0, 0)].u && |bs| == 1
    ensures Copyout(t, 0, 0, bs) == (CopyoutPage(t, Slot(0, 0), 0, bs), true)
  {
    hide CopyoutPage, Inv;
    var u := CopyoutPage(t, Slot(0, 0), 0, bs);
    assert bs[..1] == bs && bs[1..] == [];
    assert Copyout(u, 0, PGSIZE, []) == (u, true);
  }
}
