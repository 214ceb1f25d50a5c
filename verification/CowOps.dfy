/** The loops of vm.c over the elementary steps of module Cow, and the private-memory kernel
    that they refine. */
module CowOps {
  import opened Cow

  function Slots(pid: nat, lo: nat, hi: nat): set<Slot> {
    set v: nat | lo <= v < hi :: Slot(pid, v)
  }

  lemma RemoveRange<V>(a: map<Slot, V>, pid: nat, lo: nat, hi: nat)
    requires lo < hi
    ensures (a - {Slot(pid, lo)}) - Slots(pid, lo + 1, hi) == a - Slots(pid, lo, hi)
  {
  }

  lemma RemoveNothing<V>(a: map<Slot, V>, pid: nat, lo: nat)
    ensures a - Slots(pid, lo, lo) == a
  {
  }

  // ---- page-table pages ----

  /** walk finds n page-table pages missing and allocates them; false when memory runs out,
      which leaves those already linked in place. */
  ghost function TakeTables(s: State, pid: nat, n: nat): (r: (State, bool))
    requires Inv(s)
    ensures Inv(r.0) && Abs(r.0) == Abs(s)
    ensures r.0.pt == s.pt && r.0.leak == s.leak && r.0.sz == s.sz
    ensures forall f :: f in s.owner ==> f in r.0.owner && r.0.owner[f] == s.owner[f]
    decreases n
  {
    if n == 0 then (s, true)
    else if s.free == [] then (s, false)
    else
      TakeKeeps(s, pid, Fill(0));
      TakeTables(TakeTable(s, pid), pid, n - 1)
  }

  /** The frames from f on that belong to pid are gone, and no others. */
  ghost predicate Dropped(owner: map<nat, nat>, owner': map<nat, nat>, pid: nat, f: nat) {
    && (forall g :: g in owner' <==> g in owner && (g < f || owner[g] != pid))
    && (forall g :: g in owner' ==> owner'[g] == owner[g])
  }

  lemma DroppedNone(owner: map<nat, nat>, pid: nat, f: nat)
    requires forall g :: g in owner ==> g < f
    ensures Dropped(owner, owner, pid, f)
  {
  }

  lemma DroppedMore(owner: map<nat, nat>, mid: map<nat, nat>, owner': map<nat, nat>, pid: nat, f: nat)
    requires mid == if f in owner && owner[f] == pid then owner - {f} else owner
    requires Dropped(mid, owner', pid, f + 1)
    ensures Dropped(owner, owner', pid, f)
  {
  }

  lemma OwnersInRange(s: State)
    requires Inv(s)
    ensures forall f :: f in s.owner ==> f < |s.ref|
  {
  }

  lemma DropTableFields(s: State, f: nat)
    requires Inv(s) && f in s.owner
    ensures Sizes(s)
    ensures var t := DropTable(s, f);
            t.pt == s.pt && t.leak == s.leak && t.sz == s.sz && t.owner == s.owner - {f} && |t.ref| == |s.ref|
  {
  }

  /** freewalk: every page-table page of pid goes back. */
  ghost function DropTables(s: State, pid: nat, f: nat): (t: State)
    requires Inv(s) && f <= |s.ref|
    ensures Inv(t) && Abs(t) == Abs(s)
    ensures t.pt == s.pt && t.leak == s.leak && t.sz == s.sz
    ensures Dropped(s.owner, t.owner, pid, f)
    decreases |s.ref| - f
  {
    hide Inv, Abs, DropTable, Dropped;
    if f == |s.ref| then
      OwnersInRange(s);
      DroppedNone(s.owner, pid, f);
      s
    else if f in s.owner && s.owner[f] == pid then
      DropTableKeeps(s, f);
      DropTableFields(s, f);
      var t := DropTables(DropTable(s, f), pid, f + 1);
      DroppedMore(s.owner, s.owner - {f}, t.owner, pid, f);
      t
    else
      var t := DropTables(s, pid, f + 1);
      DroppedMore(s.owner, s.owner, t.owner, pid, f);
      t
  }

  // ---- uvmunmap with do_free ----

  ghost predicate MappedRange(s: State, pid: nat, lo: nat, hi: nat) {
    forall v :: lo <= v < hi ==> Slot(pid, v) in s.pt
  }

  ghost function UnmapRange(s: State, pid: nat, lo: nat, hi: nat): (t: State)
    requires Inv(s) && lo <= hi && MappedRange(s, pid, lo, hi)
    ensures Inv(t) && Abs(t) == Abs(s) - Slots(pid, lo, hi)
    ensures t.pt == s.pt - Slots(pid, lo, hi)
    ensures t.leak == s.leak && t.sz == s.sz && t.owner == s.owner
    decreases hi - lo
  {
    if lo == hi then
      RemoveNothing(Abs(s), pid, lo);
      RemoveNothing(s.pt, pid, lo);
      s
    else
      var k := Slot(pid, lo);
      UnmapKeeps(s, k);
      RemoveRange(Abs(s), pid, lo, hi);
      RemoveRange(s.pt, pid, lo, hi);
      assert Unmap(s, k).pt == s.pt - {k};
      hide Slots, Inv, Abs, Unmap;
      UnmapRange(Unmap(s, k), pid, lo + 1, hi)
  }

  // ---- uvmcopy ----

  ghost predicate CanCopy(a: map<Slot, View>, p: nat, q: nat, i: nat, n: nat) {
    && p != q
    && (forall v :: i <= v < n ==> Slot(p, v) in a)
    && (forall v :: i <= v < n ==> Slot(q, v) !in a)
  }

  /** Memory after eagerly copying pages i .. m-1 of p into q. */
  ghost function EagerCopy(a: map<Slot, View>, p: nat, q: nat, i: nat, m: nat): map<Slot, View>
    requires i <= m && p != q && forall v :: i <= v < m ==> Slot(p, v) in a
  {
    map k | k in a.Keys + Slots(q, i, m) :: if k in Slots(q, i, m) then a[Slot(p, k.page)] else a[k]
  }

  lemma EagerStep(a: map<Slot, View>, p: nat, q: nat, i: nat, m: nat)
    requires i < m && CanCopy(a, p, q, i, m)
    ensures CanCopy(a[Slot(q, i) := a[Slot(p, i)]], p, q, i + 1, m)
    ensures EagerCopy(a[Slot(q, i) := a[Slot(p, i)]], p, q, i + 1, m) == EagerCopy(a, p, q, i, m)
  {
  }

  lemma ProtectFields(s: State, k: Slot)
    requires Inv(s) && k in s.pt
    ensures var t, f := Protect(s, k), s.pt[k].frame;
            && Sizes(s) && f < |s.leak| && t.leak == s.leak[f := s.leak[f] + 1] && t.leak[f := s.leak[f]] == s.leak
            && k in t.pt && t.pt[k].frame == f && !t.pt[k].w && t.pt.Keys == s.pt.Keys && t.owner == s.owner && t.sz == s.sz
  {
  }

  lemma SettleFields(s: State, k: Slot, k': Slot)
    requires Inv(s) && k in s.pt && s.pt[k].frame < |s.leak| && s.leak[s.pt[k].frame] > 0
    ensures var t, f := Settle(s, k, k'), s.pt[k].frame;
            Sizes(s) && t.leak == s.leak[f := s.leak[f] - 1] && t.owner == s.owner && t.sz == s.sz
  {
  }

  /** One iteration of uvmcopy; need is the number of page-table pages that walk misses. */
  ghost function CopyPage(s: State, p: nat, q: nat, i: nat, need: nat): (r: (State, bool))
    requires Inv(s) && p != q && Slot(p, i) in s.pt && Slot(q, i) !in s.pt
    ensures Inv(r.0) && r.0.sz == s.sz
    ensures forall f :: f in s.owner ==> f in r.0.owner && r.0.owner[f] == s.owner[f]
    ensures var f := s.pt[Slot(p, i)].frame;
            if r.1 then Abs(r.0) == Abs(s)[Slot(q, i) := Abs(s)[Slot(p, i)]] && r.0.leak == s.leak
            else Abs(r.0) == Abs(s) && r.0.leak == s.leak[f := s.leak[f] + 1]
  {
    hide Inv, Abs, TakeTables, Protect, Settle;
    var k := Slot(p, i);
    ProtectKeeps(s, k);
    ProtectFields(s, k);
    var t := Protect(s, k);
    var (u, ok) := TakeTables(t, q, need);
    if ok then
      SettleKeeps(u, k, Slot(q, i));
      SettleFields(u, k, Slot(q, i));
      (Settle(u, k, Slot(q, i)), true)
    else (u, false)
  }

  /** uvmcopy's loop from page i: the resulting state and the number of pages reached. */
  ghost function CopyFrom(s: State, p: nat, q: nat, i: nat, n: nat, need: seq<nat>): (r: (State, nat))
    requires Inv(s) && i <= n <= |need| && CanCopy(Abs(s), p, q, i, n)
    ensures Inv(r.0) && i <= r.1 <= n
    decreases n - i
  {
    if i == n then (s, i)
    else
      var (t, ok) := CopyPage(s, p, q, i, need[i]);
      EagerStep(Abs(s), p, q, i, n);
      hide Inv, Abs, CanCopy, CopyPage, EagerCopy;
      if ok then CopyFrom(t, p, q, i + 1, n, need) else (t, i)
  }

  lemma EagerNothing(a: map<Slot, View>, p: nat, q: nat, i: nat)
    requires p != q
    ensures EagerCopy(a, p, q, i, i) == a
  {
  }

  /** The pages reached are copied; when not all are, one frame's count is one too high. */
  ghost predicate CopyResult(s: State, t: State, m: nat, p: nat, q: nat, i: nat, n: nat)
    requires Inv(s)
  {
    && Inv(t) && i <= m <= n && t.sz == s.sz
    && CanCopy(Abs(s), p, q, i, m)
    && Abs(t) == EagerCopy(Abs(s), p, q, i, m)
    && (forall f :: f in s.owner ==> f in t.owner && t.owner[f] == s.owner[f])
    && (m == n ==> t.leak == s.leak)
    && (m < n ==> exists f :: 0 <= f < |s.leak| && t.leak == s.leak[f := s.leak[f] + 1])
  }

  lemma CopyStops(s: State, p: nat, q: nat, i: nat, n: nat, need: nat)
    requires Inv(s) && i < n && CanCopy(Abs(s), p, q, i, n) && !CopyPage(s, p, q, i, need).1
    ensures CopyResult(s, CopyPage(s, p, q, i, need).0, i, p, q, i, n)
  {
    hide CopyPage, EagerCopy, Inv, Abs;
    CanCopyAt(s, p, q, i, n);
    FrameInRange(s, Slot(p, i));
    EagerNothing(Abs(s), p, q, i);
  }

  lemma FrameInRange(s: State, k: Slot)
    requires Inv(s) && k in s.pt
    ensures s.pt[k].frame < |s.leak| && (forall j :: j in s.pt ==> s.pt[j].frame < |s.frames|)
  {
  }

  lemma CopyGoesOn(s: State, t: State, u: State, m: nat, p: nat, q: nat, i: nat, n: nat)
    requires Inv(s) && Inv(t) && i < n && CanCopy(Abs(s), p, q, i, n)
    requires Abs(t) == Abs(s)[Slot(q, i) := Abs(s)[Slot(p, i)]] && t.leak == s.leak && t.sz == s.sz
    requires forall f :: f in s.owner ==> f in t.owner && t.owner[f] == s.owner[f]
    requires CopyResult(t, u, m, p, q, i + 1, n)
    ensures CopyResult(s, u, m, p, q, i, n)
  {
    CanCopyPrefix(Abs(s), p, q, i, m, n);
    EagerStep(Abs(s), p, q, i, m);
    hide EagerCopy, Inv, CanCopy, Abs;
  }

  lemma {:induction false} CopyFromCopies(s: State, p: nat, q: nat, i: nat, n: nat, need: seq<nat>, r: (State, nat))
    requires Inv(s) && i <= n <= |need| && CanCopy(Abs(s), p, q, i, n)
    requires r == CopyFrom(s, p, q, i, n, need)
    ensures CopyResult(s, r.0, r.1, p, q, i, n)
    decreases n - i
  {
    if i == n {
      EagerNothing(Abs(s), p, q, i);
    } else {
      CopyFromStep(s, p, q, i, n, need);
      CopyFromMore(s, p, q, i, n, need, r);
    }
  }

  lemma {:induction false} CopyFromMore(s: State, p: nat, q: nat, i: nat, n: nat, need: seq<nat>, r: (State, nat))
    requires Inv(s) && i < n <= |need| && CanCopy(Abs(s), p, q, i, n)
    requires var (t, ok) := CopyPage(s, p, q, i, need[i]);
             && (ok ==> CanCopy(Abs(t), p, q, i + 1, n))
             && r == if ok then CopyFrom(t, p, q, i + 1, n, need) else (t, i)
    ensures CopyResult(s, r.0, r.1, p, q, i, n)
    decreases n - i, 0
  {
    hide Inv, Abs, CanCopy, CopyPage, EagerCopy, CopyFrom, CopyResult;
    CanCopyAt(s, p, q, i, n);
    var (t, ok) := CopyPage(s, p, q, i, need[i]);
    if ok {
      CopyFromCopies(t, p, q, i + 1, n, need, r);
      CopyGoesOn(s, t, r.0, r.1, p, q, i, n);
    } else {
      CopyStops(s, p, q, i, n, need[i]);
    }
  }

  lemma CopyFromStep(s: State, p: nat, q: nat, i: nat, n: nat, need: seq<nat>)
    requires Inv(s) && i < n <= |need| && CanCopy(Abs(s), p, q, i, n)
    ensures var (t, ok) := CopyPage(s, p, q, i, need[i]);
            && (ok ==> CanCopy(Abs(t), p, q, i + 1, n))
            && CopyFrom(s, p, q, i, n, need) == if ok then CopyFrom(t, p, q, i + 1, n, need) else (t, i)
  {
  }

  lemma CanCopyAt(s: State, p: nat, q: nat, i: nat, n: nat)
    requires Inv(s) && i < n && CanCopy(Abs(s), p, q, i, n)
    ensures p != q && Slot(p, i) in s.pt && Slot(q, i) !in s.pt
  {
  }

  lemma CanCopyPrefix(a: map<Slot, View>, p: nat, q: nat, i: nat, m: nat, n: nat)
    requires CanCopy(a, p, q, i, n) && m <= n
    ensures CanCopy(a, p, q, i, m)
  {
  }

  ghost function Uvmcopy(s: State, p: nat, q: nat, n: nat, need: seq<nat>): (r: (State, bool))
    requires Inv(s) && n <= |need| && CanCopy(Abs(s), p, q, 0, n)
    ensures Inv(r.0)
  {
    var (t, m) := CopyFrom(s, p, q, 0, n, need);
    if m == n then (t, true)
    else
      CopyFromCopies(s, p, q, 0, n, need, (t, m));
      CopiedAreMapped(s, t, m, p, q, n);
      (UnmapRange(t, q, 0, m), false)
  }

  lemma CopiedAreMapped(s: State, t: State, m: nat, p: nat, q: nat, n: nat)
    requires Inv(s) && CopyResult(s, t, m, p, q, 0, n)
    ensures MappedRange(t, q, 0, m)
  {
    forall v | 0 <= v < m
      ensures Slot(q, v) in t.pt
    {
      assert Slot(q, v) in Abs(t);
    }
  }

  lemma EagerUndone(a: map<Slot, View>, p: nat, q: nat, m: nat)
    requires CanCopy(a, p, q, 0, m)
    ensures EagerCopy(a, p, q, 0, m) - Slots(q, 0, m) == a
  {
  }

  /** A leak is one count too many on one frame. */
  ghost predicate LeaksOne(before: seq<nat>, after: seq<nat>) {
    exists f :: 0 <= f < |before| && after == before[f := before[f] + 1]
  }

  lemma UvmcopyRefines(s: State, p: nat, q: nat, n: nat, need: seq<nat>)
    requires Inv(s) && n <= |need| && CanCopy(Abs(s), p, q, 0, n)
    ensures var (t, ok) := Uvmcopy(s, p, q, n, need);
            && t.sz == s.sz
            && Abs(t) == (if ok then EagerCopy(Abs(s), p, q, 0, n) else Abs(s))
            && (if ok then t.leak == s.leak else LeaksOne(s.leak, t.leak))
  {
    var (t, m) := CopyFrom(s, p, q, 0, n, need);
    CopyFromCopies(s, p, q, 0, n, need, (t, m));
    UvmcopyFrom(s, t, m, p, q, n, need);
  }

  lemma UvmcopyFrom(s: State, t: State, m: nat, p: nat, q: nat, n: nat, need: seq<nat>)
    requires Inv(s) && n <= |need| && CanCopy(Abs(s), p, q, 0, n)
    requires CopyFrom(s, p, q, 0, n, need) == (t, m) && CopyResult(s, t, m, p, q, 0, n)
    ensures var (u, ok) := Uvmcopy(s, p, q, n, need);
            && u.sz == s.sz
            && Abs(u) == (if ok then EagerCopy(Abs(s), p, q, 0, n) else Abs(s))
            && (if ok then u.leak == s.leak else LeaksOne(s.leak, u.leak))
  {
    hide Disjoint, Counted, Exclusive, Abs, CanCopy, EagerCopy, CopyFrom, Slots, UnmapRange;
    CanCopyPrefix(Abs(s), p, q, 0, m, n);
    EagerUndone(Abs(s), p, q, m);
    CopiedAreMapped(s, t, m, p, q, n);
  }

  // ---- uvmalloc ----

  /** Memory after adding zeroed writable pages lo .. hi-1 to p. */
  ghost function ZeroPages(a: map<Slot, View>, p: nat, lo: nat, hi: nat): map<Slot, View> {
    map k | k in a.Keys + Slots(p, lo, hi) ::
      if k in Slots(p, lo, hi) then View(Fill(0), true, true, false, true) else a[k]
  }

  lemma ZeroNothing(a: map<Slot, View>, p: nat, lo: nat)
    ensures ZeroPages(a, p, lo, lo) == a
  {
  }

  lemma ZeroUndone(a: map<Slot, View>, p: nat, lo: nat, hi: nat)
    requires forall v :: lo <= v < hi ==> Slot(p, v) !in a
    ensures ZeroPages(a, p, lo, hi) - Slots(p, lo, hi) == a
  {
  }

  /** One iteration of uvmalloc with the permissions that sbrk gives. */
  ghost function GrowPage(s: State, p: nat, v: nat, need: nat): (r: (State, bool))
    requires Inv(s) && Slot(p, v) !in s.pt
    ensures Inv(r.0) && r.0.sz == s.sz && r.0.leak == s.leak
    ensures Abs(r.0) == if r.1 then Abs(s)[Slot(p, v) := View(Fill(0), true, true, false, true)] else Abs(s)
  {
    if s.free == [] then (s, false)
    else
      var mem := s.free[0];
      TakeKeeps(s, p, Fill(0));
      var (t, ok) := TakeTables(Take(s, p, Fill(0)), p, need);
      if !ok then
        DropTableKeeps(t, mem);
        (DropTable(t, mem), false)
      else
        var e := Pte(mem, true, true, false, true, false);
        MapTakenKeeps(t, Slot(p, v), e);
        TakenData(s, p, need);
        (MapTaken(t, Slot(p, v), e), true)
  }

  /** Taking page-table pages does not touch the page that was taken for the user. */
  lemma TakenData(s: State, p: nat, need: nat)
    requires Inv(s) && s.free != [] && Inv(Take(s, p, Fill(0)))
    ensures var t := TakeTables(Take(s, p, Fill(0)), p, need).0;
            |t.frames| == |s.frames| && t.frames[s.free[0]] == Fill(0)
  {
    TakeKeeps(s, p, Fill(0));
    TablesKeepOwned(Take(s, p, Fill(0)), p, need, s.free[0]);
  }

  lemma {:induction false} TablesKeepOwned(s: State, p: nat, n: nat, f: nat)
    requires Inv(s) && f in s.owner
    ensures var t := TakeTables(s, p, n).0;
            |t.frames| == |s.frames| && f < |s.frames| && t.frames[f] == s.frames[f]
    decreases n
  {
    hide Disjoint, Counted, Exclusive, TakeTables;
    if n > 0 && s.free != [] {
      TakeTablesStep(s, p, n);
      TakeKeeps(s, p, Fill(0));
      TablesKeepOwned(TakeTable(s, p), p, n - 1, f);
    } else {
      TakeTablesStop(s, p, n);
    }
  }

  lemma TakeTablesStop(s: State, pid: nat, n: nat)
    requires Inv(s) && (n == 0 || s.free == [])
    ensures TakeTables(s, pid, n) == (s, n == 0)
  {
  }

  ghost function GrowFrom(s: State, p: nat, v: nat, hi: nat, need: seq<nat>): (r: (State, nat))
    requires Inv(s) && v <= hi <= |need| && forall j :: v <= j < hi ==> Slot(p, j) !in s.pt
    ensures Inv(r.0) && v <= r.1 <= hi && r.0.sz == s.sz && r.0.leak == s.leak
    ensures Abs(r.0) == ZeroPages(Abs(s), p, v, r.1)
    decreases hi - v
  {
    if v == hi then ZeroNothing(Abs(s), p, v); (s, v)
    else
      var (t, ok) := GrowPage(s, p, v, need[v]);
      GrowStep(s, t, ok, p, v, hi);
      hide Disjoint, Counted, Exclusive, Abs, ZeroPages, GrowPage;
      if !ok then ZeroNothing(Abs(s), p, v); (t, v)
      else
        var r := GrowFrom(t, p, v + 1, hi, need);
        ZeroStepTo(Abs(s), p, v, r.1, hi);
        r
  }

  lemma GrowStep(s: State, t: State, ok: bool, p: nat, v: nat, hi: nat)
    requires Inv(s) && Inv(t) && v < hi && forall j :: v <= j < hi ==> Slot(p, j) !in s.pt
    requires Abs(t) == if ok then Abs(s)[Slot(p, v) := View(Fill(0), true, true, false, true)] else Abs(s)
    ensures forall j :: v + 1 <= j < hi ==> Slot(p, j) !in t.pt
    ensures forall j :: v <= j < hi ==> Slot(p, j) !in Abs(s)
  {
    assert t.pt.Keys == Abs(t).Keys && s.pt.Keys == Abs(s).Keys;
  }

  lemma ZeroStepTo(a: map<Slot, View>, p: nat, lo: nat, m: nat, hi: nat)
    requires lo < m <= hi && forall v :: lo <= v < hi ==> Slot(p, v) !in a
    ensures ZeroPages(a[Slot(p, lo) := View(Fill(0), true, true, false, true)], p, lo + 1, m) == ZeroPages(a, p, lo, m)
  {
  }

  /** uvmalloc: a failure gives back every page it had added. */
  ghost function Uvmalloc(s: State, p: nat, lo: nat, hi: nat, need: seq<nat>): (r: (State, bool))
    requires Inv(s) && lo <= hi <= |need| && forall j :: lo <= j < hi ==> Slot(p, j) !in s.pt
    ensures Inv(r.0) && r.0.sz == s.sz && r.0.leak == s.leak
    ensures Abs(r.0) == if r.1 then ZeroPages(Abs(s), p, lo, hi) else Abs(s)
  {
    var (t, m) := GrowFrom(s, p, lo, hi, need);
    if m == hi then (t, true)
    else
      ZeroedAreMapped(s, t, p, lo, m);
      (UnmapRange(t, p, lo, m), false)
  }

  lemma ZeroedAreMapped(s: State, t: State, p: nat, lo: nat, m: nat)
    requires Inv(s) && Inv(t) && lo <= m && Abs(t) == ZeroPages(Abs(s), p, lo, m)
    requires forall j :: lo <= j < m ==> Slot(p, j) !in s.pt
    ensures MappedRange(t, p, lo, m)
    ensures Abs(t) - Slots(p, lo, m) == Abs(s)
  {
    ZeroUndone(Abs(s), p, lo, m);
    forall v | lo <= v < m
      ensures Slot(p, v) in t.pt
    {
      assert Slot(p, v) in Slots(p, lo, m);
      assert Slot(p, v) in Abs(t);
    }
  }

  // ---- one step of each loop ----

  lemma TakeTablesStep(s: State, pid: nat, n: nat)
    requires Inv(s) && n > 0 && s.free != []
    ensures Inv(TakeTable(s, pid))
    ensures TakeTables(s, pid, n) == TakeTables(TakeTable(s, pid), pid, n - 1)
  {
    TakeKeeps(s, pid, Fill(0));
  }

  lemma DropTablesStep(s: State, pid: nat, f: nat)
    requires Inv(s) && f < |s.ref|
    ensures if f in s.owner && s.owner[f] == pid
            then Inv(DropTable(s, f)) && DropTables(s, pid, f) == DropTables(DropTable(s, f), pid, f + 1)
            else DropTables(s, pid, f) == DropTables(s, pid, f + 1)
  {
    if f in s.owner && s.owner[f] == pid { DropTableKeeps(s, f); }
  }

  lemma UnmapRangeStep(s: State, pid: nat, lo: nat, hi: nat)
    requires Inv(s) && lo < hi && MappedRange(s, pid, lo, hi)
    ensures var t := Unmap(s, Slot(pid, lo));
            && Inv(t) && MappedRange(t, pid, lo + 1, hi)
            && UnmapRange(s, pid, lo, hi) == UnmapRange(t, pid, lo + 1, hi)
  {
    UnmapKeeps(s, Slot(pid, lo));
  }

  lemma CopyPageSteps(s: State, p: nat, q: nat, i: nat, need: nat)
    requires Inv(s) && p != q && Slot(p, i) in s.pt && Slot(q, i) !in s.pt
    ensures var k := Slot(p, i);
            && Inv(Protect(s, k))
            && var (u, ok) := TakeTables(Protect(s, k), q, need);
            && k in u.pt && u.leak[u.pt[k].frame] > 0
            && CopyPage(s, p, q, i, need) == if ok then (Settle(u, k, Slot(q, i)), true) else (u, false)
  {
    var k := Slot(p, i);
    ProtectKeeps(s, k);
    hide Disjoint, Counted, Exclusive;
  }

  lemma CopyFromEnds(s: State, p: nat, q: nat, n: nat, need: seq<nat>)
    requires Inv(s) && n <= |need| && CanCopy(Abs(s), p, q, n, n)
    ensures CopyFrom(s, p, q, n, n, need) == (s, n)
  {
  }

  lemma GrowFromStep(s: State, p: nat, v: nat, hi: nat, need: seq<nat>)
    requires Inv(s) && v < hi <= |need| && forall j :: v <= j < hi ==> Slot(p, j) !in s.pt
    ensures var (t, ok) := GrowPage(s, p, v, need[v]);
            && (ok ==> forall j :: v + 1 <= j < hi ==> Slot(p, j) !in t.pt)
            && GrowFrom(s, p, v, hi, need) == if ok then GrowFrom(t, p, v + 1, hi, need) else (t, v)
  {
    var (t, ok) := GrowPage(s, p, v, need[v]);
    GrowStep(s, t, ok, p, v, hi);
  }

  lemma GrowFromEnd(s: State, p: nat, hi: nat, need: seq<nat>)
    requires Inv(s) && hi <= |need|
    ensures GrowFrom(s, p, hi, hi, need) == (s, hi)
  {
  }

  lemma ReachedAreMapped(s: State, p: nat, lo: nat, hi: nat, need: seq<nat>)
    requires Inv(s) && lo <= hi <= |need| && forall j :: lo <= j < hi ==> Slot(p, j) !in s.pt
    ensures var (t, m) := GrowFrom(s, p, lo, hi, need); MappedRange(t, p, lo, m)
  {
    var (t, m) := GrowFrom(s, p, lo, hi, need);
    ZeroedAreMapped(s, t, p, lo, m);
  }
}
