/** Copy-on-write user memory: reference-counted frames, the user mappings of all processes,
    and the elementary steps that kalloc.c, vm.c and trap.c take on them.

    Page tables are the flat map from (process, page number) to PTE that module PageTable shows
    the three-level tree to be. */
module Cow {
  const PGSIZE: nat := 4096

  type Page = p: seq<int> | |p| == PGSIZE witness seq(PGSIZE, i => 0)
  datatype Slot = Slot(pid: nat, page: nat)
  datatype Pte = Pte(frame: nat, r: bool, w: bool, x: bool, u: bool, cow: bool)

  /** free is kmem.freelist from its head; ref is useReference; owner maps each page-table page
      to its process; sz is p->sz.  leak records counts that no reference stands for. */
  datatype State = State(free: seq<nat>, ref: seq<int>, frames: seq<Page>, pt: map<Slot, Pte>,
                         sz: map<nat, nat>, owner: map<nat, nat>, leak: seq<nat>)

  /** What a process sees of one of its pages, as if its memory were private. */
  datatype View = View(data: Page, r: bool, writable: bool, x: bool, u: bool)

  function Fill(b: int): Page { seq(PGSIZE, i => b) }

  function NPages(sz: nat): nat { (sz + PGSIZE - 1) / PGSIZE }

  function Users(pt: map<Slot, Pte>, f: nat): set<Slot> {
    set k | k in pt && pt[k].frame == f
  }

  // ---- the invariant ----

  ghost predicate Sizes(s: State) {
    && |s.ref| == |s.frames| == |s.leak|
    && (forall i :: 0 <= i < |s.free| ==> s.free[i] < |s.ref|)
    && (forall k :: k in s.pt ==> s.pt[k].frame < |s.ref|)
    && (forall f :: f in s.owner ==> f < |s.ref|)
  }

  /** Free, mapped and kernel-owned frames are disjoint, the free list has no repetition, and no count
      of a kernel-owned frame is too high. */
  ghost predicate Disjoint(s: State) {
    && (forall i, j :: 0 <= i < j < |s.free| ==> s.free[i] != s.free[j])
    && (forall k :: k in s.pt ==> s.pt[k].frame !in s.free && s.pt[k].frame !in s.owner)
    && (forall f :: f in s.owner ==> f !in s.free && (f < |s.leak| ==> s.leak[f] == 0))
  }

  /** The references that stand behind useReference[f]. */
  function Expected(s: State, f: nat): int
    requires f < |s.leak|
  {
    |Users(s.pt, f)| + (if f in s.owner then 1 else 0) + s.leak[f]
  }

  ghost predicate Counted(s: State)
    requires Sizes(s)
  {
    forall f {:trigger s.ref[f]} :: 0 <= f < |s.ref| ==>
      if f in s.free then s.ref[f] <= 0 && s.leak[f] == 0 else s.ref[f] == Expected(s, f)
  }

  /** A frame that some PTE maps writable has that PTE as its only user. */
  ghost predicate Exclusive(s: State) {
    && (forall k, k' :: k in s.pt && k' in s.pt && s.pt[k].frame == s.pt[k'].frame && s.pt[k].w ==> k == k')
    && (forall k :: k in s.pt ==> !(s.pt[k].w && s.pt[k].cow))
  }

  ghost predicate Inv(s: State) {
    Sizes(s) && Disjoint(s) && Counted(s) && Exclusive(s)
  }

  // ---- the private memory that the state stands for ----

  function ViewOf(s: State, k: Slot): View
    requires k in s.pt && s.pt[k].frame < |s.frames|
  {
    var e := s.pt[k];
    View(s.frames[e.frame], e.r, e.w || e.cow, e.x, e.u)
  }

  function Abs(s: State): map<Slot, View>
    requires forall k :: k in s.pt ==> s.pt[k].frame < |s.frames|
  {
    map k | k in s.pt :: ViewOf(s, k)
  }

  // ---- elementary steps ----

  /** kfree: drop one reference; at zero fill with junk and push on the free list. */
  function Kfree(s: State, f: nat): State
    requires f < |s.ref| == |s.frames|
  {
    var s' := s.(ref := s.ref[f := s.ref[f] - 1]);
    if s'.ref[f] > 0 then s'
    else s'.(frames := s.frames[f := Fill(1)], free := [f] + s.free)
  }

  /** kalloc when the free list is not empty. */
  function Kalloc(s: State): State
    requires |s.ref| == |s.frames| && s.free != [] && s.free[0] < |s.ref|
  {
    var f := s.free[0];
    s.(free := s.free[1..], ref := s.ref[f := 1], frames := s.frames[f := Fill(5)])
  }

  /** uvmunmap of one page with do_free. */
  function Unmap(s: State, k: Slot): State
    requires Sizes(s) && k in s.pt
  {
    Kfree(s, s.pt[k].frame).(pt := s.pt - {k})
  }

  /** kalloc a page for process pid and fill it; until it is mapped it counts as kernel-owned. */
  function Take(s: State, pid: nat, data: Page): State
    requires Sizes(s) && s.free != []
  {
    var f := s.free[0];
    var t := Kalloc(s);
    t.(frames := t.frames[f := data], owner := s.owner[f := pid])
  }

  /** walk's kalloc of a zeroed page-table page. */
  function TakeTable(s: State, pid: nat): State
    requires Sizes(s) && s.free != []
  {
    Take(s, pid, Fill(0))
  }

  /** The newly taken page becomes a user page of its process. */
  function MapTaken(t: State, k: Slot, e: Pte): State {
    t.(pt := t.pt[k := e], owner := t.owner - {e.frame})
  }

  /** freewalk's kfree of one page-table page. */
  function DropTable(s: State, f: nat): State
    requires Sizes(s) && f in s.owner
  {
    Kfree(s, f).(owner := s.owner - {f})
  }

  function Protected(e: Pte): Pte {
    if e.w then e.(w := false, cow := true) else e
  }

  /** One iteration of uvmcopy up to its mappages: the parent's PTE is protected and the frame
      is counted once more.  Until mappages succeeds nothing stands behind that count. */
  function Protect(s: State, k: Slot): State
    requires Sizes(s) && k in s.pt
  {
    var f := s.pt[k].frame;
    s.(pt := s.pt[k := Protected(s.pt[k])], ref := s.ref[f := s.ref[f] + 1], leak := s.leak[f := s.leak[f] + 1])
  }

  /** The child's PTE takes over the count. */
  function Settle(s: State, k: Slot, k': Slot): State
    requires Sizes(s) && k in s.pt && s.leak[s.pt[k].frame] > 0
  {
    var f := s.pt[k].frame;
    s.(pt := s.pt[k' := s.pt[k]], leak := s.leak[f := s.leak[f] - 1])
  }

  /** The copy that cowhandler and copyout make of a copy-on-write page. */
  function Break(s: State, k: Slot): State
    requires Sizes(s) && k in s.pt && s.free != []
  {
    var e := s.pt[k];
    var t := Take(s, k.pid, s.frames[e.frame]);
    MapTaken(Kfree(t, e.frame), k, e.(frame := s.free[0], w := true, cow := false))
  }

  /** A byte written through the mapping k, whatever its permissions. */
  function Poke(s: State, k: Slot, off: nat, b: int): State
    requires Sizes(s) && k in s.pt && off < PGSIZE
  {
    var f := s.pt[k].frame;
    s.(frames := s.frames[f := s.frames[f][off := b]])
  }

  // ---- counting users ----

  lemma UsersSet(pt: map<Slot, Pte>, k: Slot, e: Pte, f: nat)
    ensures |Users(pt[k := e], f)|
         == |Users(pt, f)| - (if k in pt && pt[k].frame == f then 1 else 0) + (if e.frame == f then 1 else 0)
  {
    var us := Users(pt, f);
    assert Users(pt[k := e], f) == if e.frame == f then us - {k} + {k} else us - {k};
    hide Users;
    SizeWithout(us, k);
    assert |us - {k} + {k}| == |us - {k}| + 1;
  }

  lemma SizeWithout(us: set<Slot>, k: Slot)
    ensures |us - {k}| == |us| - (if k in us then 1 else 0)
  {
  }

  lemma UsersRemove(pt: map<Slot, Pte>, k: Slot, f: nat)
    requires k in pt
    ensures |Users(pt - {k}, f)| == |Users(pt, f)| - (if pt[k].frame == f then 1 else 0)
  {
    assert Users(pt - {k}, f) == Users(pt, f) - {k};
    if pt[k].frame == f {
      assert k in Users(pt, f);
    }
  }

  lemma NoUsers(pt: map<Slot, Pte>, f: nat)
    ensures |Users(pt, f)| == 0 <==> forall k :: k in pt ==> pt[k].frame != f
  {
    if |Users(pt, f)| == 0 {
      assert Users(pt, f) == {};
      forall k | k in pt
        ensures pt[k].frame != f
      {
        assert k !in Users(pt, f);
      }
    } else {
      var k :| k in Users(pt, f);
    }
  }

  // ---- every elementary step keeps the invariant ----

  function Owned(owner: map<nat, nat>, f: nat): int { if f in owner then 1 else 0 }

  /** pt and owner hold the references of s, except that f is referenced once less (not at
      all less when f is no frame). */
  ghost predicate Rebalanced(s: State, pt: map<Slot, Pte>, owner: map<nat, nat>, f: int)
    requires Sizes(s)
  {
    && (forall k :: k in pt ==> pt[k].frame < |s.ref| && pt[k].frame !in owner)
    && (forall g :: g in owner ==> g < |s.ref| && g in s.owner)
    && (forall g {:trigger s.ref[g]} :: 0 <= g < |s.ref| ==>
          |Users(pt, g)| + Owned(owner, g) == |Users(s.pt, g)| + Owned(s.owner, g) - (if g == f then 1 else 0))
  }

  /** A frame referenced in the new tables was referenced before, so it is not free. */
  lemma StillReferenced(s: State, pt: map<Slot, Pte>, owner: map<nat, nat>, f: int, g: nat)
    requires Inv(s) && Rebalanced(s, pt, owner, f) && g < |s.ref|
    requires g in owner || exists k :: k in pt && pt[k].frame == g
    ensures g !in s.free
    ensures f == g ==> s.ref[g] > 1
  {
    NoUsers(pt, g);
    NoUsers(s.pt, g);
    var count := s.ref[g];
    assert |Users(pt, g)| + Owned(owner, g) == |Users(s.pt, g)| + Owned(s.owner, g) - (if g == f then 1 else 0);
  }

  /** Moving references without freeing. */
  lemma MoveKeeps(s: State, pt: map<Slot, Pte>, owner: map<nat, nat>)
    requires Inv(s) && Rebalanced(s, pt, owner, -1) && Exclusive(s.(pt := pt))
    ensures Inv(s.(pt := pt, owner := owner))
  {
    forall g | 0 <= g < |s.ref| && (g in owner || exists k :: k in pt && pt[k].frame == g)
      ensures g !in s.free
    {
      StillReferenced(s, pt, owner, -1, g);
    }
  }

  /** Dropping the reference to f that the new tables no longer hold. */
  lemma DropKeeps(s: State, pt: map<Slot, Pte>, owner: map<nat, nat>, f: nat)
    requires Inv(s) && f < |s.ref| && f !in s.free
    requires Rebalanced(s, pt, owner, f) && Exclusive(s.(pt := pt))
    ensures Inv(Kfree(s, f).(pt := pt, owner := owner))
    ensures forall k :: k in pt ==> Kfree(s, f).frames[pt[k].frame] == s.frames[pt[k].frame]
  {
    forall g | 0 <= g < |s.ref| && (g in owner || exists k :: k in pt && pt[k].frame == g)
      ensures g !in s.free && (f == g ==> s.ref[g] > 1)
    {
      StillReferenced(s, pt, owner, f, g);
    }
    DropDisjoint(s, pt, owner, f);
    DropCounted(s, pt, owner, f);
  }

  lemma DropDisjoint(s: State, pt: map<Slot, Pte>, owner: map<nat, nat>, f: nat)
    requires Sizes(s) && Disjoint(s) && f < |s.ref| && f !in s.free
    requires Rebalanced(s, pt, owner, f)
    requires forall g :: 0 <= g < |s.ref| && (g in owner || exists k :: k in pt && pt[k].frame == g) ==>
      g !in s.free && (f == g ==> s.ref[g] > 1)
    ensures Sizes(Kfree(s, f).(pt := pt, owner := owner)) && Disjoint(Kfree(s, f).(pt := pt, owner := owner))
  {
    hide Users, Owned;
  }

  lemma DropCounted(s: State, pt: map<Slot, Pte>, owner: map<nat, nat>, f: nat)
    requires Inv(s) && f < |s.ref| && f !in s.free
    requires Rebalanced(s, pt, owner, f)
    requires Sizes(Kfree(s, f).(pt := pt, owner := owner))
    ensures Counted(Kfree(s, f).(pt := pt, owner := owner))
  {
    hide Users, Exclusive;
    var t := Kfree(s, f).(pt := pt, owner := owner);
    forall g | 0 <= g < |t.ref|
      ensures if g in t.free then t.ref[g] <= 0 && t.leak[g] == 0 else t.ref[g] == Expected(t, g)
    {
      var count := s.ref[g];
      assert if g in s.free then count <= 0 && s.leak[g] == 0 else count == Expected(s, g);
    }
  }

  lemma OwnedRemove(owner: map<nat, nat>, f: nat)
    requires f in owner
    ensures forall g: nat :: Owned(owner - {f}, g) == Owned(owner, g) - (if g == f then 1 else 0)
  {
  }

  lemma UnmapRebalances(s: State, k: Slot)
    requires Inv(s) && k in s.pt
    ensures Rebalanced(s, s.pt - {k}, s.owner, s.pt[k].frame)
    ensures Exclusive(s.(pt := s.pt - {k}))
  {
    hide Users, Counted;
    forall g | 0 <= g < |s.ref|
      ensures |Users(s.pt - {k}, g)| == |Users(s.pt, g)| - (if g == s.pt[k].frame then 1 else 0)
    {
      UsersRemove(s.pt, k, g);
    }
  }

  lemma MappedNotFree(s: State, k: Slot)
    requires Inv(s) && k in s.pt
    ensures s.pt[k].frame < |s.ref| && s.pt[k].frame !in s.free && s.pt[k].frame !in s.owner
  {
  }

  lemma UnmapKeeps(s: State, k: Slot)
    requires Inv(s) && k in s.pt
    ensures Inv(Unmap(s, k))
    ensures Abs(Unmap(s, k)) == Abs(s) - {k}
  {
    hide Disjoint, Counted, Exclusive, Rebalanced;
    UnmapRebalances(s, k);
    MappedNotFree(s, k);
    DropKeeps(s, s.pt - {k}, s.owner, s.pt[k].frame);
  }

  lemma DropTableRebalances(s: State, f: nat)
    requires Inv(s) && f in s.owner
    ensures f < |s.ref| && f !in s.free
    ensures Rebalanced(s, s.pt, s.owner - {f}, f) && Exclusive(s.(pt := s.pt))
  {
    hide Users, Owned, Counted;
    OwnedRemove(s.owner, f);
  }

  lemma DropTableKeeps(s: State, f: nat)
    requires Inv(s) && f in s.owner
    ensures Inv(DropTable(s, f))
    ensures Abs(DropTable(s, f)) == Abs(s)
  {
    hide Users, Owned, Disjoint, Counted, Exclusive, Rebalanced;
    DropTableRebalances(s, f);
    DropKeeps(s, s.pt, s.owner - {f}, f);
  }

  lemma TakeUnused(s: State)
    requires Inv(s) && s.free != []
    ensures s.free[0] < |s.ref| && s.free[0] !in s.owner && s.leak[s.free[0]] == 0
    ensures forall k :: k in s.pt ==> s.pt[k].frame != s.free[0]
    ensures Users(s.pt, s.free[0]) == {}
  {
    var f, count := s.free[0], s.ref[s.free[0]];
    assert f in s.free;
    NoUsers(s.pt, f);
  }

  lemma TakeShape(s: State, pid: nat, data: Page)
    requires Sizes(s) && Disjoint(s) && Exclusive(s) && s.free != []
    requires forall k :: k in s.pt ==> s.pt[k].frame != s.free[0]
    requires s.leak[s.free[0]] == 0
    ensures Sizes(Take(s, pid, data)) && Disjoint(Take(s, pid, data)) && Exclusive(Take(s, pid, data))
  {
  }

  lemma TakeKeeps(s: State, pid: nat, data: Page)
    requires Inv(s) && s.free != []
    ensures Inv(Take(s, pid, data))
    ensures Abs(Take(s, pid, data)) == Abs(s)
    ensures s.free[0] < |s.ref| && s.free[0] !in s.owner
    ensures forall k :: k in s.pt ==> s.pt[k].frame != s.free[0]
  {
    hide Users, Disjoint, Exclusive;
    TakeUnused(s);
    TakeShape(s, pid, data);
    TakeCounted(s, pid, data);
  }

  lemma TakeCounted(s: State, pid: nat, data: Page)
    requires Inv(s) && s.free != [] && Sizes(Take(s, pid, data))
    ensures Counted(Take(s, pid, data))
  {
  }

  /** Mapping the page just taken at a slot that is not mapped. */
  lemma MapTakenKeeps(t: State, k: Slot, e: Pte)
    requires Inv(t) && k !in t.pt && e.frame in t.owner && !(e.w && e.cow)
    ensures Inv(MapTaken(t, k, e))
    ensures Abs(MapTaken(t, k, e)) == Abs(t)[k := ViewOf(MapTaken(t, k, e), k)]
  {
    hide Disjoint, Counted, Exclusive, Rebalanced;
    MapTakenRebalances(t, k, e);
    MoveKeeps(t, t.pt[k := e], t.owner - {e.frame});
  }

  lemma MapTakenRebalances(t: State, k: Slot, e: Pte)
    requires Inv(t) && k !in t.pt && e.frame in t.owner && !(e.w && e.cow)
    ensures Rebalanced(t, t.pt[k := e], t.owner - {e.frame}, -1)
    ensures Exclusive(t.(pt := t.pt[k := e]))
  {
    hide Users, Owned, Counted;
    forall g | 0 <= g < |t.ref|
      ensures |Users(t.pt[k := e], g)| == |Users(t.pt, g)| + (if g == e.frame then 1 else 0)
    {
      UsersSet(t.pt, k, e, g);
    }
    OwnedRemove(t.owner, e.frame);
  }

  lemma BreakRebalances(s: State, t: State, k: Slot, f: nat, e': Pte)
    requires Inv(t) && k in t.pt && t.pt[k].frame != f && e'.frame == f && f in t.owner
    requires e'.w && !e'.cow
    ensures Rebalanced(t, t.pt[k := e'], t.owner - {f}, t.pt[k].frame)
    ensures Exclusive(t.(pt := t.pt[k := e']))
  {
    forall g | 0 <= g < |t.ref|
      ensures |Users(t.pt[k := e'], g)|
           == |Users(t.pt, g)| - (if g == t.pt[k].frame then 1 else 0) + (if g == f then 1 else 0)
    {
      UsersSet(t.pt, k, e', g);
    }
    OwnedRemove(t.owner, f);
    hide Users, Owned;
  }

  lemma BreakInv(s: State, k: Slot)
    requires Inv(s) && s.free != [] && k in s.pt
    ensures Inv(Break(s, k))
    ensures var b := Break(s, k);
            && b.pt == s.pt[k := s.pt[k].(frame := s.free[0], w := true, cow := false)]
            && |b.frames| == |s.frames|
            && forall j :: j in s.pt ==> b.frames[b.pt[j].frame] == s.frames[s.pt[j].frame]
  {
    hide Rebalanced, Exclusive, Disjoint, Counted, Users;
    var e := s.pt[k];
    var f := s.free[0];
    var e' := e.(frame := f, w := true, cow := false);
    var t := Take(s, k.pid, s.frames[e.frame]);
    TakeKeeps(s, k.pid, s.frames[e.frame]);
    BreakRebalances(s, t, k, f, e');
    MappedNotFree(t, k);
    DropKeeps(t, t.pt[k := e'], t.owner - {f}, e.frame);
    assert Break(s, k) == Kfree(t, e.frame).(pt := t.pt[k := e'], owner := t.owner - {f});
    assert t.frames == s.frames[f := s.frames[e.frame]];
  }

  /** Breaking a copy-on-write page cannot be seen by any process, its own included. */
  lemma BreakKeeps(s: State, k: Slot)
    requires Inv(s) && s.free != [] && k in s.pt && s.pt[k].cow
    ensures Inv(Break(s, k))
    ensures Abs(Break(s, k)) == Abs(s)
    ensures Break(s, k).pt == s.pt[k := s.pt[k].(frame := s.free[0], w := true, cow := false)]
  {
    hide Break, Disjoint, Counted, Exclusive;
    BreakInv(s, k);
    var b := Break(s, k);
    forall j | j in s.pt
      ensures ViewOf(b, j) == ViewOf(s, j)
    {
      assert b.frames[b.pt[j].frame] == s.frames[s.pt[j].frame];
    }
  }

  lemma ProtectUsers(s: State, k: Slot, g: nat)
    requires Sizes(s) && k in s.pt
    ensures |Users(Protect(s, k).pt, g)| == |Users(s.pt, g)|
  {
    UsersSet(s.pt, k, Protected(s.pt[k]), g);
  }

  lemma ProtectShape(s: State, k: Slot)
    requires Sizes(s) && Disjoint(s) && Exclusive(s) && k in s.pt
    ensures Sizes(Protect(s, k)) && Disjoint(Protect(s, k)) && Exclusive(Protect(s, k))
  {
  }

  lemma ProtectAbs(s: State, k: Slot)
    requires Sizes(s) && k in s.pt && Sizes(Protect(s, k))
    ensures Abs(Protect(s, k)) == Abs(s)
  {
  }

  lemma ProtectKeeps(s: State, k: Slot)
    requires Inv(s) && k in s.pt
    ensures Inv(Protect(s, k))
    ensures Abs(Protect(s, k)) == Abs(s)
  {
    hide Disjoint, Counted, Exclusive, Abs, Protect;
    ProtectShape(s, k);
    ProtectAbs(s, k);
    ProtectCounted(s, k);
  }

  lemma ProtectCounted(s: State, k: Slot)
    requires Inv(s) && k in s.pt && Sizes(Protect(s, k))
    ensures Counted(Protect(s, k))
  {
    hide Users, Exclusive;
    MappedNotFree(s, k);
    var t := Protect(s, k);
    forall g | 0 <= g < |t.ref|
      ensures if g in t.free then t.ref[g] <= 0 && t.leak[g] == 0 else t.ref[g] == Expected(t, g)
    {
      ProtectUsers(s, k, g);
      var count := s.ref[g];
    }
  }

  lemma SettleShape(s: State, k: Slot, k': Slot)
    requires Sizes(s) && Disjoint(s) && Exclusive(s) && k in s.pt && !s.pt[k].w && k' !in s.pt && s.leak[s.pt[k].frame] > 0
    ensures var t := Settle(s, k, k');
      Sizes(t) && Disjoint(t) && Exclusive(t)
  {
  }

  lemma SettleAbs(s: State, k: Slot, k': Slot)
    requires Sizes(s) && k in s.pt && k' !in s.pt && s.leak[s.pt[k].frame] > 0
    requires Sizes(Settle(s, k, k'))
    ensures Abs(Settle(s, k, k')) == Abs(s)[k' := Abs(s)[k]]
  {
  }

  lemma SettleCounted(s: State, k: Slot, k': Slot)
    requires Inv(s) && k in s.pt && k' !in s.pt && s.leak[s.pt[k].frame] > 0 && Sizes(Settle(s, k, k'))
    ensures Counted(Settle(s, k, k'))
  {
    hide Users, Exclusive;
    MappedNotFree(s, k);
    var t := Settle(s, k, k');
    forall g | 0 <= g < |t.ref|
      ensures if g in t.free then t.ref[g] <= 0 && t.leak[g] == 0 else t.ref[g] == Expected(t, g)
    {
      UsersSet(s.pt, k', s.pt[k], g);
      var count := s.ref[g];
    }
  }

  /** uvmcopy of one page: the child sees what the parent sees, nobody else notices. */
  lemma SettleKeeps(s: State, k: Slot, k': Slot)
    requires Inv(s) && k in s.pt && !s.pt[k].w && k' !in s.pt
    requires s.leak[s.pt[k].frame] > 0
    ensures Inv(Settle(s, k, k'))
    ensures Abs(Settle(s, k, k')) == Abs(s)[k' := Abs(s)[k]]
  {
    hide Disjoint, Counted, Exclusive, Abs, Settle;
    SettleShape(s, k, k');
    SettleAbs(s, k, k');
    SettleCounted(s, k, k');
  }

  /** Contents of frames and sizes of processes play no part in the invariant. */
  lemma SameTables(s: State, t: State)
    requires Inv(s) && t.free == s.free && t.ref == s.ref && t.pt == s.pt && t.owner == s.owner && t.leak == s.leak
    requires |t.frames| == |s.frames|
    ensures Inv(t)
  {
    hide Users;
    assert Sizes(t) && Disjoint(t) && Exclusive(t);
    forall f | 0 <= f < |t.ref|
      ensures if f in t.free then t.ref[f] <= 0 && t.leak[f] == 0 else t.ref[f] == Expected(t, f)
    {
      assert Expected(t, f) == Expected(s, f);
    }
  }

  lemma PokeShows(s: State, k: Slot, off: nat, b: int)
    requires Sizes(s) && Exclusive(s) && k in s.pt && s.pt[k].w && off < PGSIZE
    ensures Abs(Poke(s, k, off, b)) == Abs(s)[k := Abs(s)[k].(data := Abs(s)[k].data[off := b])]
  {
  }

  /** A byte written through a writable mapping changes that page of that process only. */
  lemma PokeKeeps(s: State, k: Slot, off: nat, b: int)
    requires Inv(s) && k in s.pt && s.pt[k].w && off < PGSIZE
    ensures Inv(Poke(s, k, off, b))
    ensures Abs(Poke(s, k, off, b)) == Abs(s)[k := Abs(s)[k].(data := Abs(s)[k].data[off := b])]
  {
    hide Disjoint, Counted, Exclusive, Abs;
    SameTables(s, Poke(s, k, off, b));
    PokeShows(s, k, off, b);
  }

  /** freerange's kfree of a frame that nothing has used yet. */
  lemma FreeFreshKeeps(s: State, f: nat)
    requires Inv(s) && f < |s.ref| && f !in s.free && s.ref[f] == 0
    ensures Inv(Kfree(s, f)) && Kfree(s, f).free == [f] + s.free
    ensures forall g :: 0 <= g < |s.ref| && g != f ==> Kfree(s, f).ref[g] == s.ref[g]
  {
    hide Users;
    NoUsers(s.pt, f);
    var t := Kfree(s, f);
    assert s.ref[f] == Expected(s, f);
    assert f !in s.owner && s.leak[f] == 0 && forall k :: k in s.pt ==> s.pt[k].frame != f;
    assert Sizes(t) && Disjoint(t) && Exclusive(t);
    forall g | 0 <= g < |t.ref|
      ensures if g in t.free then t.ref[g] <= 0 && t.leak[g] == 0 else t.ref[g] == Expected(t, g)
    {
      var count := s.ref[g];
      assert if g in s.free then count <= 0 && s.leak[g] == 0 else count == Expected(s, g);
    }
  }
}
