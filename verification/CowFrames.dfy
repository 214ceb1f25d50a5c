/** Where the frames are: every call moves the frames of one process only, no frame is ever lost, and
    exit, a fork that fails and an sbrk that fails give back exactly what they should. */
module CowFrames {
  import opened Cow
  import opened CowOps
  import opened CowKernel
  import opened CowCopyout
  import opened CowRuns
  import opened CowLimits

  /** A frame that nothing refers to and that no kfree has pushed on the free list. */
  ghost predicate Lost(s: State, f: nat) {
    f < |s.ref| && f !in s.free && s.ref[f] == 0
  }

  /** From s to t no frame is lost or found, and page-table pages and mapped frames change hands only
      for process pid. */
  ghost predicate Only(s: State, t: State, pid: nat) {
    && |t.ref| == |s.ref|
    && (forall f :: Lost(t, f) <==> Lost(s, f))
    && (forall f :: f in t.owner && t.owner[f] != pid ==> f in s.owner && s.owner[f] == t.owner[f])
    && (forall f :: f in s.owner && s.owner[f] != pid ==> f in t.owner && t.owner[f] == s.owner[f])
    && (forall k :: k in t.pt && k.pid != pid ==> k in s.pt && s.pt[k].frame == t.pt[k].frame)
    && (forall k :: k in s.pt && k.pid != pid ==> k in t.pt && t.pt[k].frame == s.pt[k].frame)
  }

  lemma OnlyTrans(s: State, t: State, u: State, pid: nat)
    requires Only(s, t, pid) && Only(t, u, pid)
    ensures Only(s, u, pid)
  {
    hide Lost;
  }

  lemma OnlyRefl(s: State, pid: nat)
    ensures Only(s, s, pid)
  {
  }

  // ---- elementary steps ----

  lemma KfreeLost(s: State, f: nat)
    requires f < |s.ref| == |s.frames| && f !in s.free && s.ref[f] > 0
    ensures forall g :: Lost(Kfree(s, f), g) <==> Lost(s, g)
  {
  }

  lemma CountedAt(s: State, f: nat)
    requires Inv(s) && f < |s.ref| && f !in s.free && (f in s.owner || exists k :: k in s.pt && s.pt[k].frame == f)
    ensures s.ref[f] > 0
  {
    NoUsers(s.pt, f);
    assert s.ref[f] == Expected(s, f);
  }

  lemma UnmapOnly(s: State, k: Slot)
    requires Inv(s) && k in s.pt
    ensures Only(s, Unmap(s, k), k.pid)
  {
    hide Lost, Kfree, Disjoint, Counted, Exclusive;
    MappedNotFree(s, k);
    CountedAt(s, s.pt[k].frame);
    KfreeLost(s, s.pt[k].frame);
    KfreeFields(s, s.pt[k].frame);
    LostCounts(Kfree(s, s.pt[k].frame), Unmap(s, k));
  }

  lemma KfreeFields(s: State, f: nat)
    requires f < |s.ref| == |s.frames|
    ensures var t := Kfree(s, f); t.pt == s.pt && t.owner == s.owner && t.leak == s.leak && |t.ref| == |s.ref|
  {
  }

  /** Whether a frame is lost depends on the counts and the free list alone. */
  lemma LostCounts(s: State, t: State)
    requires t.ref == s.ref && t.free == s.free
    ensures forall f :: Lost(t, f) <==> Lost(s, f)
  {
  }

  lemma DropTableOnly(s: State, f: nat)
    requires Inv(s) && f in s.owner
    ensures Only(s, DropTable(s, f), s.owner[f])
  {
    hide Lost, Kfree, Counted, Exclusive;
    CountedAt(s, f);
    KfreeLost(s, f);
    KfreeFields(s, f);
    LostCounts(Kfree(s, f), DropTable(s, f));
  }

  lemma TakeOnly(s: State, pid: nat, data: Page)
    requires Inv(s) && s.free != []
    ensures Only(s, Take(s, pid, data), pid)
  {
    hide Counted, Exclusive;
    var t, f := Take(s, pid, data), s.free[0];
    assert f !in s.owner && f !in t.free && s.free == [f] + t.free;
  }

  lemma ProtectOnly(s: State, k: Slot, pid: nat)
    requires Inv(s) && k in s.pt
    ensures Only(s, Protect(s, k), pid)
  {
    hide Counted, Exclusive;
    MappedNotFree(s, k);
    CountedAt(s, s.pt[k].frame);
  }

  lemma SettleOnly(s: State, k: Slot, k': Slot)
    requires Inv(s) && k in s.pt && s.leak[s.pt[k].frame] > 0
    ensures Only(s, Settle(s, k, k'), k'.pid)
  {
    hide Counted, Exclusive, Disjoint;
    LostCounts(s, Settle(s, k, k'));
  }

  lemma MapTakenOnly(t: State, k: Slot, e: Pte)
    requires e.frame in t.owner && t.owner[e.frame] == k.pid
    ensures Only(t, MapTaken(t, k, e), k.pid)
  {
    LostCounts(t, MapTaken(t, k, e));
  }

  lemma BreakOnly(s: State, k: Slot)
    requires Inv(s) && k in s.pt && s.free != []
    ensures Only(s, Break(s, k), k.pid)
  {
    hide Only, Counted, Exclusive, Disjoint, Take, Kfree, MapTaken;
    var e, f := s.pt[k], s.free[0];
    var t := Take(s, k.pid, s.frames[e.frame]);
    TakeKeeps(s, k.pid, s.frames[e.frame]);
    TakeOnly(s, k.pid, s.frames[e.frame]);
    BreakDrops(s, t, k);
    OnlyTrans(s, t, Break(s, k), k.pid);
  }

  lemma BreakDrops(s: State, t: State, k: Slot)
    requires Inv(s) && k in s.pt && s.free != [] && Inv(t) && t == Take(s, k.pid, s.frames[s.pt[k].frame])
    ensures Only(t, Break(s, k), k.pid)
  {
    hide Counted, Exclusive, Lost, Kfree;
    MappedNotFree(t, k);
    CountedAt(t, t.pt[k].frame);
    KfreeLost(t, t.pt[k].frame);
    KfreeFields(t, t.pt[k].frame);
    LostCounts(Kfree(t, t.pt[k].frame), Break(s, k));
  }

  lemma SameOnly(s: State, t: State, pid: nat)
    requires t.ref == s.ref && t.free == s.free && t.owner == s.owner && t.pt == s.pt
    ensures Only(s, t, pid)
  {
    LostCounts(s, t);
  }

  // ---- loops ----

  lemma {:induction false} TakeTablesOnly(s: State, pid: nat, n: nat)
    requires Inv(s)
    ensures Only(s, TakeTables(s, pid, n).0, pid)
    decreases n
  {
    hide Only, Disjoint, Counted, Exclusive, Take;
    if n > 0 && s.free != [] {
      TakeTablesStep(s, pid, n);
      TakeOnly(s, pid, Fill(0));
      TakeTablesOnly(TakeTable(s, pid), pid, n - 1);
      OnlyTrans(s, TakeTable(s, pid), TakeTables(s, pid, n).0, pid);
    } else {
      OnlyRefl(s, pid);
    }
  }

  lemma {:induction false} DropTablesOnly(s: State, pid: nat, f: nat)
    requires Inv(s) && f <= |s.ref|
    ensures Only(s, DropTables(s, pid, f), pid)
    decreases |s.ref| - f
  {
    hide Only, Disjoint, Counted, Exclusive, DropTable;
    if f < |s.ref| {
      DropTablesStep(s, pid, f);
      if f in s.owner && s.owner[f] == pid {
        DropTableOnly(s, f);
        DropTableFields(s, f);
        DropTablesOnly(DropTable(s, f), pid, f + 1);
        OnlyTrans(s, DropTable(s, f), DropTables(s, pid, f), pid);
      } else {
        DropTablesOnly(s, pid, f + 1);
      }
    } else {
      OnlyRefl(s, pid);
    }
  }

  lemma {:induction false} UnmapRangeOnly(s: State, pid: nat, lo: nat, hi: nat)
    requires Inv(s) && lo <= hi && MappedRange(s, pid, lo, hi)
    ensures Only(s, UnmapRange(s, pid, lo, hi), pid)
    decreases hi - lo
  {
    hide Only, Disjoint, Counted, Exclusive, Unmap, Slots;
    if lo < hi {
      var t := Unmap(s, Slot(pid, lo));
      UnmapRangeStep(s, pid, lo, hi);
      UnmapOnly(s, Slot(pid, lo));
      UnmapRangeOnly(t, pid, lo + 1, hi);
      OnlyTrans(s, t, UnmapRange(s, pid, lo, hi), pid);
    } else {
      OnlyRefl(s, pid);
    }
  }

  lemma CopyPageOnly(s: State, p: nat, q: nat, i: nat, need: nat)
    requires Inv(s) && p != q && Slot(p, i) in s.pt && Slot(q, i) !in s.pt
    ensures Only(s, CopyPage(s, p, q, i, need).0, q)
  {
    hide Only, Disjoint, Counted, Exclusive, CopyPage, Protect, Settle, TakeTables;
    var k := Slot(p, i);
    CopyPageSteps(s, p, q, i, need);
    ProtectOnly(s, k, q);
    TakeTablesOnly(Protect(s, k), q, need);
    var (u, ok) := TakeTables(Protect(s, k), q, need);
    OnlyTrans(s, Protect(s, k), u, q);
    if ok {
      SettleOnly(u, k, Slot(q, i));
      OnlyTrans(s, u, Settle(u, k, Slot(q, i)), q);
    }
  }

  lemma {:induction false} CopyFromOnly(s: State, p: nat, q: nat, i: nat, n: nat, need: seq<nat>)
    requires Inv(s) && i <= n <= |need| && CanCopy(Abs(s), p, q, i, n)
    ensures Only(s, CopyFrom(s, p, q, i, n, need).0, q)
    decreases n - i
  {
    hide Only, Inv, Abs, CanCopy, CopyPage;
    if i < n {
      CanCopyAt(s, p, q, i, n);
      CopyFromStep(s, p, q, i, n, need);
      CopyPageOnly(s, p, q, i, need[i]);
      var (t, ok) := CopyPage(s, p, q, i, need[i]);
      if ok {
        CopyFromOnly(t, p, q, i + 1, n, need);
        OnlyTrans(s, t, CopyFrom(s, p, q, i, n, need).0, q);
      }
    } else {
      CopyFromEnds(s, p, q, n, need);
      OnlyRefl(s, q);
    }
  }

  lemma UvmcopyOnly(s: State, p: nat, q: nat, n: nat, need: seq<nat>)
    requires Inv(s) && n <= |need| && CanCopy(Abs(s), p, q, 0, n)
    ensures Only(s, Uvmcopy(s, p, q, n, need).0, q)
  {
    hide Only, Disjoint, Counted, Exclusive, Abs, CanCopy, CopyFrom, Slots, UnmapRange;
    var (t, m) := CopyFrom(s, p, q, 0, n, need);
    CopyFromOnly(s, p, q, 0, n, need);
    if m < n {
      CopyFromCopies(s, p, q, 0, n, need, (t, m));
      CopiedAreMapped(s, t, m, p, q, n);
      UnmapRangeOnly(t, q, 0, m);
      OnlyTrans(s, t, UnmapRange(t, q, 0, m), q);
    }
  }

  lemma GrowPageOnly(s: State, p: nat, v: nat, need: nat)
    requires Inv(s) && Slot(p, v) !in s.pt
    ensures Only(s, GrowPage(s, p, v, need).0, p)
  {
    hide Only, Disjoint, Counted, Exclusive, TakeTables, Take, MapTaken, DropTable;
    if s.free != [] {
      var mem := s.free[0];
      TakeKeeps(s, p, Fill(0));
      TakeOnly(s, p, Fill(0));
      TakeOwns(s, p, Fill(0));
      TakeTablesOnly(Take(s, p, Fill(0)), p, need);
      var (t, ok) := TakeTables(Take(s, p, Fill(0)), p, need);
      OnlyTrans(s, Take(s, p, Fill(0)), t, p);
      if ok {
        var e := Pte(mem, true, true, false, true, false);
        MapTakenOnly(t, Slot(p, v), e);
        OnlyTrans(s, t, MapTaken(t, Slot(p, v), e), p);
      } else {
        DropTableOnly(t, mem);
        OnlyTrans(s, t, DropTable(t, mem), p);
      }
    } else {
      OnlyRefl(s, p);
    }
  }

  lemma TakeOwns(s: State, pid: nat, data: Page)
    requires Sizes(s) && s.free != []
    ensures var t, f := Take(s, pid, data), s.free[0]; f in t.owner && t.owner[f] == pid && t.leak == s.leak && t.pt == s.pt
  {
  }

  lemma {:induction false} GrowFromOnly(s: State, p: nat, v: nat, hi: nat, need: seq<nat>)
    requires Inv(s) && v <= hi <= |need| && forall j :: v <= j < hi ==> Slot(p, j) !in s.pt
    ensures Only(s, GrowFrom(s, p, v, hi, need).0, p)
    decreases hi - v
  {
    hide Only, Inv, Abs, GrowPage;
    if v < hi {
      GrowFromStep(s, p, v, hi, need);
      GrowPageOnly(s, p, v, need[v]);
      var (t, ok) := GrowPage(s, p, v, need[v]);
      if ok {
        GrowFromOnly(t, p, v + 1, hi, need);
        OnlyTrans(s, t, GrowFrom(s, p, v, hi, need).0, p);
      }
    } else {
      GrowFromEnd(s, p, hi, need);
      OnlyRefl(s, p);
    }
  }

  lemma UvmallocOnly(s: State, p: nat, lo: nat, hi: nat, need: seq<nat>)
    requires Inv(s) && lo <= hi <= |need| && forall j :: lo <= j < hi ==> Slot(p, j) !in s.pt
    ensures Only(s, Uvmalloc(s, p, lo, hi, need).0, p)
  {
    hide Only, Disjoint, Counted, Exclusive, Abs, GrowFrom, UnmapRange;
    GrowFromOnly(s, p, lo, hi, need);
    var (t, m) := GrowFrom(s, p, lo, hi, need);
    if m < hi {
      ReachedAreMapped(s, p, lo, hi, need);
      UnmapRangeOnly(t, p, lo, m);
      OnlyTrans(s, t, UnmapRange(t, p, lo, m), p);
    }
  }

  // ---- calls ----

  /** The process whose frames a call may move: of fork, the child. */
  function Mover(c: Call): nat {
    match c
    case Fork(_, q, _, _) => q
    case Grow(p, _, _) => p
    case Shrink(p, _) => p
    case Store(p, _, _) => p
    case Free(p) => p
  }

  lemma ForkOnly(s: State, p: nat, q: nat, boot: nat, need: seq<nat>)
    requires KInv(s) && Callable(s, Fork(p, q, boot, need))
    ensures Only(s, DoFork(s, p, q, boot, need).0, q)
  {
    hide Only, TakeTables, Uvmcopy, DropTables, Abs, Disjoint, Counted, Exclusive, CanCopy;
    var (t, booted) := TakeTables(s, q, boot);
    TakeTablesOnly(s, q, boot);
    if !booted {
      DropTablesOnly(t, q, 0);
      OnlyTrans(s, t, DropTables(t, q, 0), q);
    } else {
      ChildUnmapped(s, t, p, q);
      var (u, ok) := Uvmcopy(t, p, q, NPages(s.sz[p]), need);
      UvmcopyOnly(t, p, q, NPages(s.sz[p]), need);
      OnlyTrans(s, t, u, q);
      var w := DoFork(s, p, q, boot, need).0;
      if ok { SameOnly(u, w, q); } else { DropTablesOnly(u, q, 0); }
      OnlyTrans(s, u, w, q);
    }
  }

  lemma GrowOnly(s: State, p: nat, n: nat, need: seq<nat>)
    requires KInv(s) && Callable(s, Grow(p, n, need))
    ensures Only(s, DoGrow(s, p, n, need).0, p)
  {
    hide Only, Uvmalloc, Abs, Disjoint, Counted, Exclusive;
    PagesMonotone(s.sz[p], s.sz[p] + n);
    var t := Uvmalloc(s, p, NPages(s.sz[p]), NPages(s.sz[p] + n), need).0;
    UvmallocOnly(s, p, NPages(s.sz[p]), NPages(s.sz[p] + n), need);
    SameOnly(t, DoGrow(s, p, n, need).0, p);
    OnlyTrans(s, t, DoGrow(s, p, n, need).0, p);
  }

  lemma ShrinkOnly(s: State, p: nat, n: nat)
    requires KInv(s) && p in s.sz
    ensures Only(s, DoShrink(s, p, n), p)
  {
    hide Only, UnmapRange, Abs, Disjoint, Counted, Exclusive, Slots;
    if n <= s.sz[p] {
      PagesMonotone(s.sz[p] - n, s.sz[p]);
      var t := UnmapRange(s, p, NPages(s.sz[p] - n), NPages(s.sz[p]));
      UnmapRangeOnly(s, p, NPages(s.sz[p] - n), NPages(s.sz[p]));
      SameOnly(t, DoShrink(s, p, n), p);
      OnlyTrans(s, t, DoShrink(s, p, n), p);
    } else {
      OnlyRefl(s, p);
    }
  }

  lemma FreeOnly(s: State, p: nat)
    requires KInv(s) && p in s.sz
    ensures Only(s, DoFree(s, p), p)
  {
    hide Only, UnmapRange, DropTables, Abs, Disjoint, Counted, Exclusive, Slots;
    var t := UnmapRange(s, p, 0, NPages(s.sz[p]));
    var u := DropTables(t, p, 0);
    UnmapRangeOnly(s, p, 0, NPages(s.sz[p]));
    DropTablesOnly(t, p, 0);
    SameOnly(u, DoFree(s, p), p);
    OnlyTrans(s, t, u, p);
    OnlyTrans(s, u, DoFree(s, p), p);
  }

  lemma StoreOnly(s: State, p: nat, va: nat, b: int)
    requires KInv(s) && p in s.sz
    ensures Only(s, DoStore(s, p, va, b).0, p)
  {
    hide Only, Break, Disjoint, Counted, Exclusive;
    var k := Slot(p, va / PGSIZE);
    if k in s.pt && s.pt[k].u && s.pt[k].w {
      SameOnly(s, Poke(s, k, va % PGSIZE, b), p);
    } else if va < MAXVA && k in s.pt && s.pt[k].cow && s.pt[k].u && s.free != [] {
      BreakInv(s, k);
      BreakOnly(s, k);
      var t := DoStore(s, p, va, b).0;
      SameOnly(Break(s, k), t, p);
      OnlyTrans(s, Break(s, k), t, p);
    } else {
      OnlyRefl(s, p);
    }
  }

  /** A call changes who maps and who owns which frames for one process only, and loses no frame. */
  lemma CallOnly(s: State, c: Call)
    requires KInv(s) && Callable(s, c)
    ensures Only(s, Exec(s, c).0, Mover(c))
  {
    hide Only, KInv, DoFork, DoGrow, DoShrink, DoStore, DoFree;
    match c
    case Fork(p, q, boot, need) => ForkOnly(s, p, q, boot, need);
    case Grow(p, n, need) => GrowOnly(s, p, n, need);
    case Shrink(p, n) => ShrinkOnly(s, p, n);
    case Store(p, va, b) => StoreOnly(s, p, va, b);
    case Free(p) => FreeOnly(s, p);
  }

  // ---- conservation ----

  /** Nothing stands behind the count of f: no mapping, no process that owns it, no failed fork. */
  ghost predicate Unheld(s: State, f: nat)
    requires f < |s.leak|
  {
    Users(s.pt, f) == {} && f !in s.owner && s.leak[f] == 0
  }

  /** A frame is free exactly when it is not lost and nothing stands behind its count. */
  lemma FreeIff(s: State, f: nat)
    requires Inv(s) && f < |s.ref|
    ensures f in s.free <==> !Lost(s, f) && Unheld(s, f)
    ensures Lost(s, f) ==> Unheld(s, f)
  {
    hide Exclusive;
    NoUsers(s.pt, f);
    var count := s.ref[f];
    assert if f in s.free then count <= 0 && s.leak[f] == 0 else count == Expected(s, f);
  }

  function Elements(a: seq<nat>): set<nat> { set f | f in a }

  function FreeSet(s: State): set<nat> { Elements(s.free) }

  /** The page-table pages of process pid. */
  function OwnedBy(s: State, pid: nat): set<nat> {
    set f | f in s.owner && s.owner[f] == pid
  }

  /** The frames that only the mappings in gone refer to. */
  ghost function Freed(s: State, gone: set<Slot>): set<nat>
    requires Sizes(s)
  {
    set f: nat | f < |s.ref| && s.leak[f] == 0 && Users(s.pt, f) != {} && Users(s.pt, f) <= gone
  }

  lemma {:induction false} SizeOfSeq(a: seq<nat>)
    requires forall i, j :: 0 <= i < j < |a| ==> a[i] != a[j]
    ensures |Elements(a)| == |a|
  {
    if a != [] {
      SizeOfSeq(a[1..]);
      assert a[0] !in Elements(a[1..]);
      assert Elements(a) == {a[0]} + Elements(a[1..]);
    }
  }

  lemma FreeSize(s: State)
    requires Inv(s)
    ensures |FreeSet(s)| == |s.free|
    ensures forall f :: f in FreeSet(s) ==> f < |s.ref|
  {
    hide Counted, Exclusive;
    SizeOfSeq(s.free);
  }

  /** Every page-table page belongs to a process that exists. */
  ghost predicate OwnersLive(s: State) {
    forall f :: f in s.owner ==> s.owner[f] in s.sz
  }

  /** How a call leaves its process: it exists, or nothing belongs to it. */
  lemma MoverEnds(s: State, c: Call)
    requires KInv(s) && Callable(s, c)
    ensures var t, q := Exec(s, c).0, Mover(c);
      && (forall p :: p in s.sz && p != q ==> p in t.sz)
      && (q in t.sz || OwnedBy(t, q) == {})
  {
    hide TakeTables, Uvmcopy, Uvmalloc, UnmapRange, Break, Abs, CanCopy, Slots, Disjoint, Counted, Exclusive;
    match c
    case Fork(p, q, boot, need) => ForkEnds(s, p, q, boot, need);
    case Grow(p, n, _) => PagesMonotone(s.sz[p], s.sz[p] + n);
    case Shrink(p, n) => if n <= s.sz[p] { PagesMonotone(s.sz[p] - n, s.sz[p]); }
    case Store(p, va, b) => StoreEnds(s, p, va, b);
    case Free(p) => DroppedAll(UnmapRange(s, p, 0, NPages(s.sz[p])), p, DoFree(s, p));
  }

  lemma DroppedAll(s: State, pid: nat, t: State)
    requires Dropped(s.owner, t.owner, pid, 0)
    ensures OwnedBy(t, pid) == {}
  {
    assert forall f :: f in t.owner ==> t.owner[f] != pid;
  }

  lemma ForkEnds(s: State, p: nat, q: nat, boot: nat, need: seq<nat>)
    requires KInv(s) && Callable(s, Fork(p, q, boot, need))
    ensures var (t, ok) := DoFork(s, p, q, boot, need);
      if ok then t.sz == s.sz[q := s.sz[p]] else t.sz == s.sz && OwnedBy(t, q) == {}
  {
    hide TakeTables, Uvmcopy, Abs, CanCopy, Disjoint, Counted, Exclusive, EagerCopy, Dropped, LeaksOne;
    var (t, booted) := TakeTables(s, q, boot);
    var w := DoFork(s, p, q, boot, need).0;
    if booted {
      ChildUnmapped(s, t, p, q);
      UvmcopyRefines(t, p, q, NPages(s.sz[p]), need);
      var (u, ok) := Uvmcopy(t, p, q, NPages(s.sz[p]), need);
      if !ok { DroppedAll(u, q, w); }
    } else {
      DroppedAll(t, q, w);
    }
  }

  lemma StoreEnds(s: State, p: nat, va: nat, b: int)
    requires KInv(s) && p in s.sz
    ensures DoStore(s, p, va, b).0.sz == s.sz
  {
    hide Break, Disjoint, Counted, Exclusive;
    var k := Slot(p, va / PGSIZE);
    if k in s.pt && s.free != [] { BreakLeavesRest(s, k); }
  }

  lemma CallOwners(s: State, c: Call)
    requires KInv(s) && Callable(s, c) && OwnersLive(s)
    ensures OwnersLive(Exec(s, c).0)
  {
    hide Exec, KInv, Callable, Lost;
    CallOnly(s, c);
    MoverEnds(s, c);
    var t := Exec(s, c).0;
    forall f | f in t.owner
      ensures t.owner[f] in t.sz
    {
      assert t.owner[f] == Mover(c) ==> f in OwnedBy(t, Mover(c));
    }
  }

  // ---- copyout ----

  lemma CopyoutPageOnly(s: State, k: Slot, off: nat, bs: seq<int>)
    requires Inv(s) && k in s.pt && off + |bs| <= PGSIZE
    ensures Only(s, CopyoutPage(s, k, off, bs), k.pid)
  {
    hide Only, Break, Disjoint, Counted, Exclusive, Splice;
    var t := Unshared(s, k);
    if s.pt[k].cow && s.free != [] { BreakOnly(s, k); } else { OnlyRefl(s, k.pid); }
    SameOnly(t, CopyoutPage(s, k, off, bs), k.pid);
    OnlyTrans(s, t, CopyoutPage(s, k, off, bs), k.pid);
  }

  lemma {:induction false} CopyoutOnly(s: State, p: nat, va: nat, src: seq<int>)
    requires Inv(s)
    ensures Only(s, Copyout(s, p, va, src).0, p)
    decreases |src|
  {
    hide Only, Inv, CopyoutPage, Chunk, Copyout;
    var k, n := Slot(p, va / PGSIZE), Chunk(va, |src|);
    if src != [] && k in s.pt && s.pt[k].u {
      var t := CopyoutPage(s, k, va % PGSIZE, src[..n]);
      CopyoutStep(s, p, va, src);
      CopyoutPageOnly(s, k, va % PGSIZE, src[..n]);
      CopyoutOnly(t, p, (va / PGSIZE + 1) * PGSIZE, src[n..]);
      OnlyTrans(s, t, Copyout(s, p, va, src).0, p);
    } else {
      CopyoutStops(s, p, va, src);
      OnlyRefl(s, p);
    }
  }

  /** copyout takes and gives back no page-table page. */
  lemma {:induction false} CopyoutOwners(s: State, p: nat, va: nat, src: seq<int>)
    requires Inv(s)
    ensures Copyout(s, p, va, src).0.owner == s.owner
    decreases |src|
  {
    hide Inv, CopyoutPage, Chunk, Copyout;
    var k, n := Slot(p, va / PGSIZE), Chunk(va, |src|);
    if src != [] && k in s.pt && s.pt[k].u {
      CopyoutStep(s, p, va, src);
      CopyoutPageOwners(s, k, va % PGSIZE, src[..n]);
      CopyoutOwners(CopyoutPage(s, k, va % PGSIZE, src[..n]), p, (va / PGSIZE + 1) * PGSIZE, src[n..]);
    } else {
      CopyoutStops(s, p, va, src);
    }
  }

  lemma CopyoutPageOwners(s: State, k: Slot, off: nat, bs: seq<int>)
    requires Inv(s) && k in s.pt && off + |bs| <= PGSIZE
    ensures CopyoutPage(s, k, off, bs).owner == s.owner
  {
    hide Counted, Exclusive, Splice;
    assert s.free != [] ==> s.free[0] in s.free && s.free[0] !in s.owner;
  }

  // ---- whole runs ----

  ghost predicate SameLost(s: State, t: State) {
    |t.ref| == |s.ref| && forall f :: Lost(t, f) <==> Lost(s, f)
  }

  lemma OpKeeps(s: State, op: Op)
    requires KInv(s)
    ensures var t := ExecOp(s, op).0; SameLost(s, t) && (OwnersLive(s) ==> OwnersLive(t))
  {
    hide Disjoint, Counted, Exclusive, Layout, Exec, Callable, Lost, Spares, Copyout;
    match op
    case Sys(c) =>
      if Callable(s, c) {
        CallOnly(s, c);
        if OwnersLive(s) { CallOwners(s, c); }
      }
    case CopyTo(p, va, src) =>
      CopyoutOnly(s, p, va, src);
      CopyoutOwners(s, p, va, src);
      CopyoutLeavesRest(s, p, va, src);
  }

  lemma {:induction false} RunKeeps(s: State, ops: seq<Op>)
    requires KInv(s)
    ensures var t := RunOps(s, ops); SameLost(s, t) && (OwnersLive(s) ==> OwnersLive(t))
    decreases |ops|
  {
    hide KInv, ExecOp, Lost, OwnersLive;
    if ops != [] {
      OpKeeps(s, ops[0]);
      RunKeeps(ExecOp(s, ops[0]).0, ops[1..]);
    }
  }

  /** Conservation: in every state of a run a frame is on the free list exactly when nothing maps it, it
      is no page-table page, no failed fork has left a count on it, and it was not lost at the start; and
      every page-table page belongs to a process that exists. */
  lemma FreeExactly(s: State, ops: seq<Op>, f: nat)
    requires KInv(s) && f < |s.ref|
    ensures var t := RunOps(s, ops);
      && |t.ref| == |t.leak| == |s.ref|
      && (f in t.free <==> !Lost(s, f) && Users(t.pt, f) == {} && f !in t.owner && t.leak[f] == 0)
      && (OwnersLive(s) && f in t.owner ==> t.owner[f] in t.sz)
  {
    hide Disjoint, Counted, Exclusive, RunOps, Lost;
    RunKeeps(s, ops);
    FreeIff(RunOps(s, ops), f);
  }

  /** The first process of CowLimits owns its page tables, and no frame is lost. */
  lemma FirstLosesNothing(n: nat)
    requires n >= 2
    ensures OwnersLive(First(n)) && forall f :: !Lost(First(n), f)
  {
    forall f: nat | 2 <= f < n
      ensures f in First(n).free
    {
      assert First(n).free[f - 2] == f;
    }
  }

  // ---- what comes back ----

  /** If what is held in s is what is held in t and the frames back, then these have become free. */
  lemma Released(s: State, t: State, back: set<nat>)
    requires Inv(s) && Inv(t) && SameLost(s, t)
    requires forall f :: f in back ==> f < |s.ref| && !Unheld(s, f)
    requires forall f: nat {:trigger Unheld(t, f)} :: f < |s.ref| ==> (Unheld(t, f) <==> Unheld(s, f) || f in back)
    ensures FreeSet(t) == FreeSet(s) + back && |t.free| == |s.free| + |back|
  {
    hide Disjoint, Counted, Exclusive, Lost, Unheld;
    FreeSize(s);
    FreeSize(t);
    forall f: nat | f < |s.ref|
      ensures f in t.free <==> f in s.free || f in back
      ensures f in back ==> f !in s.free
    {
      FreeIff(s, f);
      FreeIff(t, f);
    }
  }

  lemma UnmappedUsers(pt: map<Slot, Pte>, gone: set<Slot>, f: nat)
    ensures Users(pt - gone, f) == Users(pt, f) - gone
  {
  }

  lemma NoneLeft(us: set<Slot>, gone: set<Slot>)
    ensures us - gone == {} <==> us <= gone
  {
    assert forall k :: k in us && k !in gone ==> k in us - gone;
  }

  /** What t holds when the mappings gone and the page-table pages of pid have been taken away from s. */
  lemma TakenAway(s: State, t: State, gone: set<Slot>, tables: set<nat>)
    requires Inv(s) && Inv(t) && SameLost(s, t) && t.leak == s.leak
    requires t.pt == s.pt - gone
    requires tables <= s.owner.Keys && t.owner.Keys == s.owner.Keys - tables
    ensures FreeSet(t) == FreeSet(s) + (tables + Freed(s, gone))
    ensures |t.free| == |s.free| + |tables| + |Freed(s, gone)|
  {
    hide Disjoint, Counted, Exclusive, Lost, Users;
    TablesUnmapped(s, gone);
    forall f: nat | f < |s.ref|
      ensures Unheld(t, f) <==> Unheld(s, f) || f in tables + Freed(s, gone)
    {
      UnmappedUsers(s.pt, gone, f);
      NoneLeft(Users(s.pt, f), gone);
      assert f in t.owner.Keys <==> f in s.owner.Keys && f !in tables;
      if f in s.owner { NotMapped(s, f); }
    }
    hide Unheld, Freed;
    Released(s, t, tables + Freed(s, gone));
  }

  lemma NotMapped(s: State, f: nat)
    requires Inv(s) && f in s.owner
    ensures f < |s.leak| && Users(s.pt, f) == {} && s.leak[f] == 0
  {
  }

  lemma TablesUnmapped(s: State, gone: set<Slot>)
    requires Inv(s)
    ensures s.owner.Keys !! Freed(s, gone)
    ensures forall f :: f in s.owner.Keys + Freed(s, gone) ==> f < |s.ref| && !Unheld(s, f)
  {
    hide Counted, Exclusive;
    forall f | f in Freed(s, gone)
      ensures f !in s.owner
    {
      var k :| k in Users(s.pt, f);
    }
  }

  /** exit: the mappings, the page-table pages and the size of p are gone, nobody else's change, and the
      frames that only p used, and no others, become free. */
  lemma ExitGivesBack(s: State, p: nat)
    requires KInv(s) && p in s.sz
    ensures var t, gone := DoFree(s, p), Slots(p, 0, NPages(s.sz[p]));
      && t.sz == s.sz - {p} && t.leak == s.leak && t.pt == s.pt - gone && Dropped(s.owner, t.owner, p, 0)
      && FreeSet(t) == FreeSet(s) + (OwnedBy(s, p) + Freed(s, gone))
      && |t.free| == |s.free| + |OwnedBy(s, p)| + |Freed(s, gone)|
    ensures forall k :: k in DoFree(s, p).pt <==> k in s.pt && k.pid != p
  {
    var t, gone := DoFree(s, p), Slots(p, 0, NPages(s.sz[p]));
    FreeShape(s, p);
    FreeOnly(s, p);
    DroppedKeys(s, t, p);
    hide Disjoint, Counted, Exclusive, Freed, DoFree, Lost, Dropped, OwnedBy, Layout;
    TakenAway(s, t, gone, OwnedBy(s, p));
  }

  lemma DroppedKeys(s: State, t: State, p: nat)
    requires Dropped(s.owner, t.owner, p, 0)
    ensures OwnedBy(s, p) <= s.owner.Keys && t.owner.Keys == s.owner.Keys - OwnedBy(s, p)
  {
  }

  lemma FreeShape(s: State, p: nat)
    requires KInv(s) && p in s.sz
    ensures var t, gone := DoFree(s, p), Slots(p, 0, NPages(s.sz[p]));
      && Inv(t) && t.sz == s.sz - {p} && t.leak == s.leak && t.pt == s.pt - gone && Dropped(s.owner, t.owner, p, 0)
    ensures forall k :: k in DoFree(s, p).pt <==> k in s.pt && k.pid != p
  {
    hide Disjoint, Counted, Exclusive, UnmapRange, DropTables, Abs, Dropped;
    AbsIgnoresSize(DropTables(UnmapRange(s, p, 0, NPages(s.sz[p])), p, 0), s.sz - {p});
  }

  /** growproc with n < 0 frees exactly the frames that only the pages taken away refer to. */
  lemma ShrinkGivesBack(s: State, p: nat, n: nat)
    requires KInv(s) && p in s.sz && n <= s.sz[p]
    ensures var t, gone := DoShrink(s, p, n), Slots(p, NPages(s.sz[p] - n), NPages(s.sz[p]));
      && t.pt == s.pt - gone && t.owner == s.owner && t.leak == s.leak && t.sz == s.sz[p := s.sz[p] - n]
      && FreeSet(t) == FreeSet(s) + Freed(s, gone) && |t.free| == |s.free| + |Freed(s, gone)|
  {
    hide Disjoint, Counted, Exclusive, UnmapRange, Abs, Slots, Freed, Lost;
    PagesMonotone(s.sz[p] - n, s.sz[p]);
    var lo, hi := NPages(s.sz[p] - n), NPages(s.sz[p]);
    AbsIgnoresSize(UnmapRange(s, p, lo, hi), s.sz[p := s.sz[p] - n]);
    ShrinkOnly(s, p, n);
    TakenAway(s, DoShrink(s, p, n), Slots(p, lo, hi), {});
    assert {} + Freed(s, Slots(p, lo, hi)) == Freed(s, Slots(p, lo, hi));
  }

  // ---- a fork that fails ----

  /** The counts that a copy leaves too high are those of frames that another process still maps. */
  ghost predicate LeaksMapped(s: State, t: State, q: nat) {
    && |t.leak| == |s.leak|
    && forall f {:trigger t.leak[f]} :: 0 <= f < |s.leak| && t.leak[f] != s.leak[f] ==>
         exists k :: k in t.pt && k.pid != q && t.pt[k].frame == f
  }

  lemma CopyPageLeaks(s: State, p: nat, q: nat, i: nat, need: nat)
    requires Inv(s) && p != q && Slot(p, i) in s.pt && Slot(q, i) !in s.pt
    ensures LeaksMapped(s, CopyPage(s, p, q, i, need).0, q)
  {
    hide Disjoint, Counted, Exclusive, CopyPage, TakeTables;
    CopyPageSteps(s, p, q, i, need);
  }

  lemma {:induction false} CopyFromLeaks(s: State, p: nat, q: nat, i: nat, n: nat, need: seq<nat>)
    requires Inv(s) && i <= n <= |need| && CanCopy(Abs(s), p, q, i, n)
    ensures LeaksMapped(s, CopyFrom(s, p, q, i, n, need).0, q)
    decreases n - i
  {
    hide Inv, Abs, CanCopy, CopyPage;
    if i < n {
      CanCopyAt(s, p, q, i, n);
      CopyFromStep(s, p, q, i, n, need);
      CopyPageLeaks(s, p, q, i, need[i]);
      var (t, ok) := CopyPage(s, p, q, i, need[i]);
      if ok { CopyFromLeaks(t, p, q, i + 1, n, need); }
    } else {
      CopyFromEnds(s, p, q, n, need);
    }
  }

  lemma UvmcopyLeaks(s: State, p: nat, q: nat, n: nat, need: seq<nat>)
    requires Inv(s) && n <= |need| && CanCopy(Abs(s), p, q, 0, n)
    ensures LeaksMapped(s, Uvmcopy(s, p, q, n, need).0, q)
  {
    hide Disjoint, Counted, Exclusive, Abs, CanCopy, CopyFrom, UnmapRange;
    var (t, m) := CopyFrom(s, p, q, 0, n, need);
    CopyFromLeaks(s, p, q, 0, n, need);
    if m < n {
      CopyFromCopies(s, p, q, 0, n, need, (t, m));
      CopiedAreMapped(s, t, m, p, q, n);
    }
  }

  lemma ForkLeaks(s: State, p: nat, q: nat, boot: nat, need: seq<nat>)
    requires KInv(s) && Callable(s, Fork(p, q, boot, need))
    ensures LeaksMapped(s, DoFork(s, p, q, boot, need).0, q)
  {
    hide TakeTables, Uvmcopy, DropTables, Abs, Disjoint, Counted, Exclusive, CanCopy;
    var (t, booted) := TakeTables(s, q, boot);
    if booted {
      ChildUnmapped(s, t, p, q);
      UvmcopyLeaks(t, p, q, NPages(s.sz[p]), need);
    }
  }

  /** Every frame that q maps is mapped by another process too. */
  ghost predicate Backed(t: State, q: nat) {
    forall k :: k in t.pt && k.pid == q ==> exists j :: j in t.pt && j.pid != q && t.pt[j].frame == t.pt[k].frame
  }

  lemma HeldWithout(s: State, t: State, q: nat, f: nat)
    requires Inv(s) && Inv(t) && Only(s, t, q) && LeaksMapped(s, t, q) && Backed(t, q) && f < |s.ref|
    requires (forall k :: k in s.pt ==> k.pid != q) && OwnedBy(s, q) == {}
    ensures Unheld(s, f) <==> Unheld(t, f) || f in OwnedBy(t, q)
  {
    hide Counted, Exclusive, Lost, Users;
    SameMapped(s, t, q, f);
    NoUsers(s.pt, f);
    NoUsers(t.pt, f);
    assert f in s.owner ==> s.owner[f] != q by { assert f in s.owner && s.owner[f] == q ==> f in OwnedBy(s, q); }
    if f in t.owner { NotMapped(t, f); }
  }

  lemma SameMapped(s: State, t: State, q: nat, f: nat)
    requires Only(s, t, q) && Backed(t, q) && (forall k :: k in s.pt ==> k.pid != q)
    ensures (exists k :: k in s.pt && s.pt[k].frame == f) <==> exists k :: k in t.pt && t.pt[k].frame == f
  {
    hide Lost;
  }

  lemma ForkBacked(s: State, p: nat, q: nat, boot: nat, need: seq<nat>)
    requires KInv(s) && Callable(s, Fork(p, q, boot, need))
    ensures Backed(DoFork(s, p, q, boot, need).0, q)
  {
    hide DoFork, Disjoint, Counted, Exclusive, Total, EagerCopy, LeaksOne, Spec, CowLimits.Shared;
    var (t, ok) := DoFork(s, p, q, boot, need);
    ForkRefines(s, p, q, boot, need);
    ForkExactly(s, p, q, boot, need);
    ForkEnds(s, p, q, boot, need);
    forall k | k in t.pt && k.pid == q
      ensures exists j :: j in t.pt && j.pid != q && t.pt[j].frame == t.pt[k].frame
    {
      if ok {
        ForkShares(s, p, q, boot, need, k.page);
        SharedFrame(t, p, q, k.page);
      }
    }
  }

  lemma SharedFrame(t: State, p: nat, q: nat, v: nat)
    requires CowLimits.Shared(t, p, q, v)
    ensures Slot(p, v) in t.pt && Slot(q, v) in t.pt && t.pt[Slot(p, v)].frame == t.pt[Slot(q, v)].frame
  {
  }

  /** fork takes from the free list exactly the pages of the child's page tables, as many as its walks
      find missing; a fork that fails leaves exactly the frames free that were free before, even where it
      leaves a count too high. */
  lemma ForkFrames(s: State, p: nat, q: nat, boot: nat, need: seq<nat>)
    requires KInv(s) && Callable(s, Fork(p, q, boot, need)) && OwnersLive(s)
    ensures var (t, ok) := DoFork(s, p, q, boot, need);
      && FreeSet(s) == FreeSet(t) + OwnedBy(t, q) && |s.free| == |t.free| + |OwnedBy(t, q)|
      && |OwnedBy(t, q)| == (if ok then boot + Total(need, 0, NPages(s.sz[p])) else 0)
      && (!ok ==> FreeSet(t) == FreeSet(s) && |t.free| == |s.free| && t.owner == s.owner)
  {
    hide Disjoint, Counted, Exclusive, Sizes, Total, DoFork, LeaksMapped, Backed, Only, Spec, LeaksOne, Unheld, OwnersLive;
    var (t, ok) := DoFork(s, p, q, boot, need);
    ForkOnly(s, p, q, boot, need);
    ForkLeaks(s, p, q, boot, need);
    ForkBacked(s, p, q, boot, need);
    ForkRefines(s, p, q, boot, need);
    ForkExactly(s, p, q, boot, need);
    ForkEnds(s, p, q, boot, need);
    ChildOwnsNothing(s, q);
    ChildFrames(s, t, q);
    if !ok { SameOwners(s, t, q); }
  }

  lemma SameOwners(s: State, t: State, q: nat)
    requires Only(s, t, q) && OwnedBy(s, q) == {} && OwnedBy(t, q) == {}
    ensures t.owner == s.owner
  {
    hide Lost;
    assert forall f :: f in s.owner && s.owner[f] == q ==> f in OwnedBy(s, q);
    assert forall f :: f in t.owner && t.owner[f] == q ==> f in OwnedBy(t, q);
  }

  /** When a process comes into being that maps no frame for itself alone, all it takes is the pages that
      it owns. */
  lemma ChildFrames(s: State, t: State, q: nat)
    requires Inv(s) && Inv(t) && Only(s, t, q) && LeaksMapped(s, t, q) && Backed(t, q)
    requires (forall k :: k in s.pt ==> k.pid != q) && OwnedBy(s, q) == {}
    ensures FreeSet(s) == FreeSet(t) + OwnedBy(t, q) && |s.free| == |t.free| + |OwnedBy(t, q)|
  {
    hide Disjoint, Counted, Exclusive, Lost, LeaksMapped, Backed, Unheld, OwnedBy;
    forall f: nat | f < |s.ref|
      ensures Unheld(s, f) <==> Unheld(t, f) || f in OwnedBy(t, q)
    {
      HeldWithout(s, t, q, f);
    }
    OwnedHeld(t, q);
    Released(t, s, OwnedBy(t, q));
  }

  lemma ChildOwnsNothing(s: State, q: nat)
    requires OwnersLive(s) && q !in s.sz
    ensures OwnedBy(s, q) == {}
  {
    assert forall f :: f in s.owner ==> s.owner[f] != q;
  }

  lemma OwnedHeld(s: State, q: nat)
    requires Inv(s)
    ensures forall f :: f in OwnedBy(s, q) ==> f < |s.ref| && !Unheld(s, f)
  {
    hide Counted, Exclusive, Users;
  }

  // ---- an sbrk that fails ----

  lemma TakeTablesKeepPages(s: State, pid: nat, n: nat)
    requires Inv(s)
    ensures var t := TakeTables(s, pid, n).0; t.pt == s.pt && t.leak == s.leak && s.owner.Keys <= t.owner.Keys
  {
    hide Disjoint, Counted, Exclusive, TakeTables;
  }

  /** Pages lo .. hi-1 of p are mapped writable, each to a frame whose count is exact. */
  ghost predicate Fresh(t: State, p: nat, lo: nat, hi: nat)
    requires Sizes(t)
  {
    forall v :: lo <= v < hi ==> FreshPage(t, Slot(p, v))
  }

  ghost predicate FreshPage(t: State, k: Slot)
    requires Sizes(t)
  {
    k in t.pt && t.pt[k].w && t.leak[t.pt[k].frame] == 0
  }

  /** Outside pages lo .. hi-1 of p the mappings are as before. */
  ghost predicate OnlyPages(s: State, t: State, p: nat, lo: nat, hi: nat) {
    && (forall k :: k in t.pt && !(k.pid == p && lo <= k.page < hi) ==> k in s.pt && s.pt[k] == t.pt[k])
    && (forall k :: k in s.pt ==> k in t.pt && t.pt[k] == s.pt[k])
    && s.owner.Keys <= t.owner.Keys
  }

  /** One iteration of uvmalloc changes the mapping of its page alone. */
  lemma GrowPageFresh(s: State, p: nat, v: nat, need: nat)
    requires Inv(s) && Slot(p, v) !in s.pt
    ensures var (t, ok) := GrowPage(s, p, v, need);
      && OnlyPages(s, t, p, v, if ok then v + 1 else v)
      && (ok ==> FreshPage(t, Slot(p, v)))
      && (!ok ==> |t.free| == if s.free == [] then 0 else 1)
  {
    hide Disjoint, Counted, Exclusive, TakeTables, Take, DropTable, MapTaken, OnlyPages, FreshPage, Users;
    if s.free != [] {
      TakeKeeps(s, p, Fill(0));
      TakeOwns(s, p, Fill(0));
      TakeOwner(s, p, Fill(0));
      TakeUnused(s);
      var t, mem := Take(s, p, Fill(0)), s.free[0];
      TakeTablesKeepPages(t, p, need);
      TakeTablesExactly(t, p, need);
      var (u, ok) := TakeTables(t, p, need);
      if ok {
        PageMapped(s, u, p, v, mem);
      } else {
        DropTablePushes(u, mem);
        OwnersStay(s, DropTable(u, mem), p, v);
      }
    } else {
      OwnersStay(s, s, p, v);
    }
  }

  lemma OwnersStay(s: State, t: State, p: nat, v: nat)
    requires t.pt == s.pt && s.owner.Keys <= t.owner.Keys
    ensures OnlyPages(s, t, p, v, v)
  {
  }

  lemma PageMapped(s: State, u: State, p: nat, v: nat, mem: nat)
    requires Inv(u) && u.pt == s.pt && Slot(p, v) !in s.pt && mem !in s.owner && mem < |u.leak| && u.leak[mem] == 0
    requires s.owner.Keys <= u.owner.Keys
    ensures var t := MapTaken(u, Slot(p, v), Pte(mem, true, true, false, true, false));
      Sizes(t) ==> OnlyPages(s, t, p, v, v + 1) && FreshPage(t, Slot(p, v))
  {
  }

  lemma TakeOwner(s: State, pid: nat, data: Page)
    requires Sizes(s) && s.free != []
    ensures Take(s, pid, data).owner == s.owner[s.free[0] := pid]
  {
  }

  lemma DropTablePushes(s: State, f: nat)
    requires Inv(s) && f in s.owner
    ensures var t := DropTable(s, f); t.free == [f] + s.free && t.pt == s.pt && t.owner == s.owner - {f}
  {
    hide Exclusive;
    NotMapped(s, f);
    assert s.ref[f] == Expected(s, f);
  }

  lemma {:induction false} GrowFromFresh(s: State, p: nat, v: nat, hi: nat, need: seq<nat>)
    requires Inv(s) && v <= hi <= |need| && forall j :: v <= j < hi ==> Slot(p, j) !in s.pt
    ensures var (t, m) := GrowFrom(s, p, v, hi, need);
      && OnlyPages(s, t, p, v, m) && Fresh(t, p, v, m)
      && (m < hi ==> StopsAt(s, p, v, m, need) && |t.free| == if |s.free| == m - v + Total(need, v, m) then 0 else 1)
    decreases hi - v
  {
    hide Disjoint, Counted, Exclusive, Abs, GrowPage, OnlyPages, FreshPage, GrowFrom;
    if v < hi {
      GrowFromStep(s, p, v, hi, need);
      GrowPageFresh(s, p, v, need[v]);
      GrowPageExactly(s, p, v, need[v]);
      var (t, ok) := GrowPage(s, p, v, need[v]);
      if ok {
        var (u, m) := GrowFrom(t, p, v + 1, hi, need);
        GrowFromFresh(t, p, v + 1, hi, need);
        PagesJoin(s, t, u, p, v, m);
      } else {
        TotalOne(need, v);
      }
    } else {
      GrowFromEnd(s, p, hi, need);
      OwnersStay(s, s, p, v);
    }
  }

  lemma TotalOne(need: seq<nat>, v: nat)
    requires v < |need|
    ensures Total(need, v, v + 1) == need[v]
  {
  }

  lemma PagesJoin(s: State, t: State, u: State, p: nat, v: nat, m: nat)
    requires Sizes(t) && Sizes(u) && OnlyPages(s, t, p, v, v + 1) && OnlyPages(t, u, p, v + 1, m) && v < m
    requires FreshPage(t, Slot(p, v)) && u.leak == t.leak
    ensures OnlyPages(s, u, p, v, m) && FreshPage(u, Slot(p, v))
  {
  }

  /** The free frames suffice for the pages and tables before page m, and not for those of page m too. */
  ghost predicate StopsAt(s: State, p: nat, lo: nat, m: nat, need: seq<nat>)
    requires lo <= m < |need|
  {
    m - lo + Total(need, lo, m) <= |s.free| < m + 1 - lo + Total(need, lo, m + 1)
  }

  lemma UnmapFresh(s: State, k: Slot)
    requires Inv(s) && FreshPage(s, k)
    ensures var t := Unmap(s, k);
      |t.free| == |s.free| + 1 && t.leak == s.leak && t.pt == s.pt - {k}
  {
    var f := s.pt[k].frame;
    assert Users(s.pt, f) == {k};
    hide Exclusive;
    assert s.ref[f] == Expected(s, f);
  }

  lemma {:induction false} UnmapRangeFresh(s: State, pid: nat, lo: nat, hi: nat)
    requires Inv(s) && lo <= hi && MappedRange(s, pid, lo, hi) && Fresh(s, pid, lo, hi)
    ensures |UnmapRange(s, pid, lo, hi).free| == |s.free| + (hi - lo)
    decreases hi - lo
  {
    hide Disjoint, Counted, Exclusive, Unmap, UnmapRange, Slots;
    if lo < hi {
      var t := Unmap(s, Slot(pid, lo));
      UnmapRangeStep(s, pid, lo, hi);
      UnmapFresh(s, Slot(pid, lo));
      assert Fresh(t, pid, lo + 1, hi) by {
        assert forall v :: lo + 1 <= v < hi ==> FreshPage(s, Slot(pid, v));
      }
      UnmapRangeFresh(t, pid, lo + 1, hi);
    } else {
      RangeEmpty(s, pid, lo);
    }
  }

  lemma RangeEmpty(s: State, pid: nat, lo: nat)
    requires Inv(s)
    ensures UnmapRange(s, pid, lo, lo) == s
  {
  }

  /** A uvmalloc that fails stops at the first page that the free frames do not suffice for.  It gives
      back every page it had mapped, and the page it could not map if it got one; what stays with the
      process are page-table pages, and nothing else has changed. */
  lemma UvmallocFails(s: State, p: nat, lo: nat, hi: nat, need: seq<nat>) returns (m: nat)
    requires Inv(s) && lo <= hi <= |need| && forall j :: lo <= j < hi ==> Slot(p, j) !in s.pt
    requires !Uvmalloc(s, p, lo, hi, need).1
    ensures lo <= m < hi && StopsAt(s, p, lo, m, need)
    ensures var t := Uvmalloc(s, p, lo, hi, need).0;
      && |t.free| == m - lo + (if |s.free| == m - lo + Total(need, lo, m) then 0 else 1)
      && t.pt == s.pt && s.owner.Keys <= t.owner.Keys
      && FreeSet(s) == FreeSet(t) + (t.owner.Keys - s.owner.Keys)
      && |s.free| == |t.free| + |t.owner.Keys - s.owner.Keys|
  {
    hide Disjoint, Counted, Exclusive, Abs, GrowFrom, UnmapRange, Slots, Total, StopsAt, FreshPage, Lost;
    var (g, m') := GrowFrom(s, p, lo, hi, need);
    m := m';
    var t := Uvmalloc(s, p, lo, hi, need).0;
    GrowFromFresh(s, p, lo, hi, need);
    ReachedAreMapped(s, p, lo, hi, need);
    UnmapRangeFresh(g, p, lo, m);
    PagesUndone(s, g, p, lo, m);
    UvmallocOnly(s, p, lo, hi, need);
    TablesStay(s, t);
  }

  lemma PagesUndone(s: State, g: State, p: nat, lo: nat, m: nat)
    requires OnlyPages(s, g, p, lo, m) && forall j :: lo <= j < m ==> Slot(p, j) !in s.pt
    ensures g.pt - Slots(p, lo, m) == s.pt
  {
  }

  lemma TablesStay(s: State, t: State)
    requires Inv(s) && Inv(t) && SameLost(s, t) && t.pt == s.pt && t.leak == s.leak && s.owner.Keys <= t.owner.Keys
    ensures FreeSet(s) == FreeSet(t) + (t.owner.Keys - s.owner.Keys)
    ensures |s.free| == |t.free| + |t.owner.Keys - s.owner.Keys|
  {
    hide Disjoint, Counted, Exclusive, Lost, Users;
    forall f: nat | f < |s.ref|
      ensures Unheld(s, f) <==> Unheld(t, f) || f in t.owner.Keys - s.owner.Keys
    {
      if f in t.owner { NotMapped(t, f); }
    }
    assert forall f :: f in t.owner.Keys - s.owner.Keys ==> f < |t.ref| && !Unheld(t, f);
    hide Unheld;
    Released(t, s, t.owner.Keys - s.owner.Keys);
  }
}
