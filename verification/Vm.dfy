/** kalloc.c, vm.c and trap.c as they run: useReference and the frames are arrays written in
    place, the free list and the mappings are fields, and the loops are loops.  Every method is
    proved to compute the specification of modules Cow, CowOps, CowKernel and CowCopyout. */
module Vm {
  import opened Cow
  import opened CowOps
  import opened CowKernel
  import opened CowCopyout

  class Vm {
    const useReference: array<int>
    const frames: array<Page>
    var free: seq<nat>
    var pt: map<Slot, Pte>
    var sz: map<nat, nat>
    var owner: map<nat, nat>
    ghost var leak: seq<nat>

    ghost function Abstract(): State
      reads this, useReference, frames
    {
      State(free, useReference[..], frames[..], pt, sz, owner, leak)
    }

    /** Frames 0 .. n-1 with nothing allocated; the count of a frame before its first kfree is 0. */
    constructor (n: nat)
      ensures Abstract().free == [] && |Abstract().ref| == n
      ensures KInv(Abstract())
      ensures fresh(useReference) && fresh(frames)
    {
      useReference := new int[n](_ => 0);
      frames := new Page[n](_ => Fill(0));
      free, pt, sz, owner := [], map[], map[], map[];
      leak := seq(n, _ => 0);
    }

    /** kfree of a page. */
    method Free(f: nat)
      requires f < useReference.Length == frames.Length
      modifies this`free, useReference, frames
      ensures Abstract() == Kfree(old(Abstract()), f)
      ensures useReference[..] == old(useReference[..])[f := old(useReference[f]) - 1]
      ensures free == if old(useReference[f]) > 1 then old(free) else [f] + old(free)
      ensures forall g :: 0 <= g < frames.Length && (g != f || old(useReference[f]) > 1) ==> frames[g] == old(frames[g])
    {
      useReference[f] := useReference[f] - 1;
      var temp := useReference[f];
      assert useReference[..] == old(useReference[..])[f := temp];
      if temp > 0 {
        return;
      }
      frames[f] := Fill(1);
      assert frames[..] == old(frames[..])[f := Fill(1)];
      free := [f] + free;
    }

    /** kalloc; -1 stands for the null pointer. */
    method Alloc() returns (f: int)
      requires Sizes(Abstract())
      modifies this`free, useReference, frames
      ensures if old(free) == [] then f == -1 && Abstract() == old(Abstract())
              else f == old(free)[0] && Abstract() == Kalloc(old(Abstract()))
      ensures old(free) != [] ==> free == old(free)[1..] && useReference[..] == old(useReference[..])[old(free)[0] := 1]
      ensures Sizes(Abstract())
    {
      if free == [] {
        return -1;
      }
      f := free[0];
      free := free[1..];
      useReference[f] := 1;
      frames[f] := Fill(5);
      assert useReference[..] == old(useReference[..])[f := 1];
      assert frames[..] == old(frames[..])[f := Fill(5)];
    }

    /** kalloc for process pid, filled with data. */
    method AllocFilled(pid: nat, data: Page) returns (f: nat)
      requires Sizes(Abstract()) && free != []
      modifies this`free, this`owner, useReference, frames
      ensures f == old(free[0]) && Abstract() == Take(old(Abstract()), pid, data)
    {
      var r := Alloc();
      f := r;
      frames[f] := data;
      assert frames[..] == old(frames[..])[f := Fill(5)][f := data];
      owner := owner[f := pid];
    }

    /** kinit's freerange over frames lo .. n-1: all of them become free, each once. */
    method FreeRange(lo: nat)
      requires Inv(Abstract()) && lo <= useReference.Length && free == []
      requires forall f :: 0 <= f < useReference.Length ==> useReference[f] == 0
      modifies this`free, useReference, frames
      ensures Inv(Abstract())
      ensures |free| == useReference.Length - lo
      ensures forall f :: lo <= f < useReference.Length ==> f in free
    {
      var p := lo;
      while p < useReference.Length
        invariant lo <= p <= useReference.Length && Inv(Abstract())
        invariant |free| == p - lo
        invariant forall f :: f in free <==> lo <= f < p
        invariant forall f :: p <= f < useReference.Length ==> useReference[f] == 0
      {
        FreeFreshKeeps(Abstract(), p);
        Free(p);
        p := p + 1;
      }
    }

    /** The kallocs of a walk with alloc set that finds need page-table pages missing. */
    method WalkAlloc(pid: nat, need: nat) returns (ok: bool)
      requires Inv(Abstract())
      modifies this`free, this`owner, useReference, frames
      ensures (Abstract(), ok) == TakeTables(old(Abstract()), pid, need)
      ensures Inv(Abstract())
    {
      hide Disjoint, Counted, Exclusive, Take;
      var left := need;
      while left > 0
        invariant Inv(Abstract())
        invariant TakeTables(Abstract(), pid, left) == TakeTables(old(Abstract()), pid, need)
      {
        if free == [] {
          return false;
        }
        TakeTablesStep(Abstract(), pid, left);
        var f := AllocFilled(pid, Fill(0));
        left := left - 1;
      }
      ok := true;
    }

    /** kfree of a page-table page. */
    method FreeTable(f: nat)
      requires Sizes(Abstract()) && f in owner
      modifies this`free, this`owner, useReference, frames
      ensures Abstract() == DropTable(old(Abstract()), f)
    {
      Free(f);
      owner := owner - {f};
    }

    /** freewalk: the page-table pages of pid are freed. */
    method FreeWalk(pid: nat)
      requires Inv(Abstract())
      modifies this`free, this`owner, useReference, frames
      ensures Abstract() == DropTables(old(Abstract()), pid, 0)
    {
      hide Disjoint, Counted, Exclusive, DropTable;
      var f := 0;
      while f < useReference.Length
        invariant 0 <= f <= useReference.Length
        invariant Inv(Abstract())
        invariant DropTables(Abstract(), pid, f) == DropTables(old(Abstract()), pid, 0)
      {
        DropTablesStep(Abstract(), pid, f);
        if f in owner && owner[f] == pid {
          FreeTable(f);
        }
        f := f + 1;
      }
    }

    method UnmapOne(k: Slot)
      requires Sizes(Abstract()) && k in pt
      modifies this`free, this`pt, useReference, frames
      ensures Abstract() == Unmap(old(Abstract()), k)
    {
      Free(pt[k].frame);
      pt := pt - {k};
    }

    /** uvmunmap of pages lo .. hi-1 with do_free. */
    method Uvmunmap(pid: nat, lo: nat, hi: nat)
      requires Inv(Abstract()) && lo <= hi && MappedRange(Abstract(), pid, lo, hi)
      modifies this`free, this`pt, useReference, frames
      ensures Abstract() == UnmapRange(old(Abstract()), pid, lo, hi)
    {
      hide Disjoint, Counted, Exclusive, Unmap;
      var v := lo;
      while v < hi
        invariant lo <= v <= hi
        invariant Inv(Abstract()) && MappedRange(Abstract(), pid, v, hi)
        invariant UnmapRange(Abstract(), pid, v, hi) == UnmapRange(old(Abstract()), pid, lo, hi)
      {
        UnmapRangeStep(Abstract(), pid, v, hi);
        UnmapOne(Slot(pid, v));
        v := v + 1;
      }
    }

    /** One iteration of uvmcopy's loop. */
    method CopyOne(p: nat, q: nat, i: nat, need: nat) returns (ok: bool)
      requires Inv(Abstract()) && p != q && Slot(p, i) in pt && Slot(q, i) !in pt
      modifies this`free, this`pt, this`owner, this`leak, useReference, frames
      ensures (Abstract(), ok) == CopyPage(old(Abstract()), p, q, i, need)
      ensures Inv(Abstract())
    {
      hide Disjoint, Counted, Exclusive, TakeTables, Protect, Settle, CopyPage;
      var k := Slot(p, i);
      CopyPageSteps(Abstract(), p, q, i, need);
      ProtectOne(k);
      ok := WalkAlloc(q, need);
      if ok {
        SettleOne(k, Slot(q, i));
      }
    }

    method SettleOne(k: Slot, k': Slot)
      requires Sizes(Abstract()) && k in pt && leak[pt[k].frame] > 0
      modifies this`pt, this`leak
      ensures Abstract() == Settle(old(Abstract()), k, k')
    {
      pt := pt[k' := pt[k]];
      leak := leak[pt[k].frame := leak[pt[k].frame] - 1];
    }

    method ProtectOne(k: Slot)
      requires Sizes(Abstract()) && k in pt
      modifies this`pt, this`leak, useReference
      ensures Abstract() == Protect(old(Abstract()), k)
    {
      var f := pt[k].frame;
      if pt[k].w {
        pt := pt[k := pt[k].(w := false, cow := true)];
      } else {
        assert pt == pt[k := pt[k]];
      }
      useReference[f] := useReference[f] + 1;
      assert useReference[..] == old(useReference[..])[f := useReference[f]];
      leak := leak[f := leak[f] + 1];
    }

    method UvmcopyLoop(p: nat, q: nat, n: nat, need: seq<nat>) returns (i: nat)
      requires Inv(Abstract()) && n <= |need| && CanCopy(Abs(Abstract()), p, q, 0, n)
      modifies this`free, this`pt, this`owner, this`leak, useReference, frames
      ensures (Abstract(), i) == CopyFrom(old(Abstract()), p, q, 0, n, need)
      ensures i <= n
    {
      hide Disjoint, Counted, Exclusive, CopyPage, CanCopy, Abs;
      i := 0;
      while i < n
        invariant 0 <= i <= n
        invariant Inv(Abstract()) && CanCopy(Abs(Abstract()), p, q, i, n)
        invariant CopyFrom(Abstract(), p, q, i, n, need) == CopyFrom(old(Abstract()), p, q, 0, n, need)
      {
        CopyFromStep(Abstract(), p, q, i, n, need);
        CanCopyAt(Abstract(), p, q, i, n);
        var ok := CopyOne(p, q, i, need[i]);
        if !ok {
          return;
        }
        i := i + 1;
      }
      CopyFromEnds(Abstract(), p, q, n, need);
    }

    /** uvmcopy. */
    method UvmCopy(p: nat, q: nat, n: nat, need: seq<nat>) returns (ok: bool)
      requires Inv(Abstract()) && n <= |need| && CanCopy(Abs(Abstract()), p, q, 0, n)
      modifies this`free, this`pt, this`owner, this`leak, useReference, frames
      ensures (Abstract(), ok) == Uvmcopy(old(Abstract()), p, q, n, need)
      ensures Inv(Abstract())
    {
      hide Disjoint, Counted, Exclusive, CopyFrom, CanCopy, Abs;
      var i := UvmcopyLoop(p, q, n, need);
      ok := i == n;
      if !ok {
        CopyFromCopies(old(Abstract()), p, q, 0, n, need, (Abstract(), i));
        CopiedAreMapped(old(Abstract()), Abstract(), i, p, q, n);
        Uvmunmap(q, 0, i);
      }
    }

    method GrowOne(p: nat, v: nat, need: nat) returns (ok: bool)
      requires Inv(Abstract()) && Slot(p, v) !in pt
      modifies this`free, this`pt, this`owner, useReference, frames
      ensures (Abstract(), ok) == GrowPage(old(Abstract()), p, v, need)
      ensures Inv(Abstract())
    {
      if free == [] {
        return false;
      }
      TakeKeeps(Abstract(), p, Fill(0));
      var mem := AllocFilled(p, Fill(0));
      ok := WalkAlloc(p, need);
      if !ok {
        FreeTable(mem);
      } else {
        pt := pt[Slot(p, v) := Pte(mem, true, true, false, true, false)];
        owner := owner - {mem};
      }
    }

    /** uvmalloc for pages lo .. hi-1, undone by uvmdealloc when memory runs out. */
    method UvmAlloc(p: nat, lo: nat, hi: nat, need: seq<nat>) returns (ok: bool)
      requires Inv(Abstract()) && lo <= hi <= |need| && forall j :: lo <= j < hi ==> Slot(p, j) !in pt
      modifies this`free, this`pt, this`owner, useReference, frames
      ensures (Abstract(), ok) == Uvmalloc(old(Abstract()), p, lo, hi, need)
    {
      hide Disjoint, Counted, Exclusive, Sizes, GrowPage, Abs, UnmapRange, GrowFrom, Inv;
      var v := lo;
      while v < hi
        invariant lo <= v <= hi
        invariant Inv(Abstract()) && forall j :: v <= j < hi ==> Slot(p, j) !in pt
        invariant GrowFrom(Abstract(), p, v, hi, need) == GrowFrom(old(Abstract()), p, lo, hi, need)
      {
        GrowFromStep(Abstract(), p, v, hi, need);
        ok := GrowOne(p, v, need[v]);
        if !ok {
          ReachedAreMapped(old(Abstract()), p, lo, hi, need);
          Uvmunmap(p, lo, v);
          return false;
        }
        v := v + 1;
      }
      GrowFromEnd(Abstract(), p, hi, need);
      ok := true;
    }

    /** The copy of a copy-on-write page: kalloc, memmove, kfree of the old page, new PTE. */
    method BreakPage(k: Slot)
      requires Sizes(Abstract()) && k in pt && free != []
      modifies this`free, this`pt, this`owner, useReference, frames
      ensures Abstract() == Break(old(Abstract()), k)
    {
      var e := pt[k];
      var mem := AllocFilled(k.pid, frames[e.frame]);
      Free(e.frame);
      pt := pt[k := e.(frame := mem, w := true, cow := false)];
      owner := owner - {mem};
    }

    /** cowhandler. */
    method Cowhandler(p: nat, va: nat) returns (ok: bool)
      requires Inv(Abstract())
      modifies this`free, this`pt, this`owner, useReference, frames
      ensures (Abstract(), ok) == CowHandler(old(Abstract()), p, va)
    {
      hide Disjoint, Counted, Exclusive, Break;
      if va >= MAXVA {
        return false;
      }
      var k := Slot(p, va / PGSIZE);
      if k !in pt || !pt[k].cow || !pt[k].u {
        return false;
      }
      if free == [] {
        return false;
      }
      BreakPage(k);
      ok := true;
    }

    method PokeByte(k: Slot, off: nat, b: int)
      requires Sizes(Abstract()) && k in pt && off < PGSIZE
      modifies frames
      ensures Abstract() == Poke(old(Abstract()), k, off, b)
    {
      var f := pt[k].frame;
      frames[f] := frames[f][off := b];
      assert frames[..] == old(frames[..])[f := frames[f]];
    }

    /** A store instruction of process p, with the page-fault arm of usertrap. */
    method Store(p: nat, va: nat, b: int) returns (ok: bool)
      requires KInv(Abstract()) && p in sz
      modifies this`free, this`pt, this`owner, useReference, frames
      ensures (Abstract(), ok) == DoStore(old(Abstract()), p, va, b)
    {
      hide Disjoint, Counted, Exclusive, Break, Poke, CowHandler;
      var k := Slot(p, va / PGSIZE);
      if k in pt && pt[k].u && pt[k].w {
        PokeByte(k, va % PGSIZE, b);
        return true;
      }
      var killed := va >= sz[p];
      HandledIsMapped(Abstract(), p, va);
      var ret := Cowhandler(p, va);
      if !ret {
        killed := true;
      }
      if !killed {
        PokeByte(k, va % PGSIZE, b);
      }
      ok := !killed;
    }

    /** fork: on failure everything allocated for the child goes back. */
    method Fork(p: nat, q: nat, boot: nat, need: seq<nat>) returns (ok: bool)
      requires KInv(Abstract()) && Callable(Abstract(), Call.Fork(p, q, boot, need))
      modifies this, useReference, frames
      ensures (Abstract(), ok) == DoFork(old(Abstract()), p, q, boot, need)
    {
      hide Disjoint, Counted, Exclusive, TakeTables, DropTables, Uvmcopy, Abs, CanCopy;
      ghost var s := Abstract();
      ok := WalkAlloc(q, boot);
      if ok {
        ChildUnmapped(s, Abstract(), p, q);
        ok := UvmCopy(p, q, (sz[p] + PGSIZE - 1) / PGSIZE, need);
      }
      if ok {
        sz := sz[q := sz[p]];
      } else {
        FreeWalk(q);
      }
    }

    /** growproc with n > 0. */
    method Grow(p: nat, n: nat, need: seq<nat>) returns (ok: bool)
      requires KInv(Abstract()) && Callable(Abstract(), Call.Grow(p, n, need))
      modifies this, useReference, frames
      ensures (Abstract(), ok) == DoGrow(old(Abstract()), p, n, need)
    {
      hide Disjoint, Counted, Exclusive, Uvmalloc, Abs;
      PagesMonotone(sz[p], sz[p] + n);
      var newsz := sz[p] + n;
      ok := UvmAlloc(p, NPages(sz[p]), NPages(newsz), need);
      if ok {
        sz := sz[p := newsz];
      }
    }

    /** growproc with n < 0: uvmdealloc, which refuses to take away more than there is. */
    method Shrink(p: nat, n: nat)
      requires KInv(Abstract()) && p in sz
      modifies this, useReference, frames
      ensures Abstract() == DoShrink(old(Abstract()), p, n)
    {
      hide Disjoint, Counted, Exclusive, UnmapRange, Abs;
      if n <= sz[p] {
        var newsz := sz[p] - n;
        PagesMonotone(newsz, sz[p]);
        Uvmunmap(p, NPages(newsz), NPages(sz[p]));
        sz := sz[p := newsz];
      }
    }

    /** freeproc: uvmfree of the user pages, then freewalk. */
    method FreeProc(p: nat)
      requires KInv(Abstract()) && p in sz
      modifies this, useReference, frames
      ensures Abstract() == DoFree(old(Abstract()), p)
    {
      hide Disjoint, Counted, Exclusive, UnmapRange, DropTables, Abs;
      Uvmunmap(p, 0, NPages(sz[p]));
      FreeWalk(p);
      sz := sz - {p};
    }

    /** One pass of copyout's loop, over a page that walkaddr found. */
    method CopyoutOne(k: Slot, off: nat, bs: seq<int>)
      requires Inv(Abstract()) && k in pt && off + |bs| <= PGSIZE
      modifies this`free, this`pt, this`owner, useReference, frames
      ensures Abstract() == CopyoutPage(old(Abstract()), k, off, bs)
    {
      hide Disjoint, Counted, Exclusive, Break, Splice;
      if pt[k].cow && free != [] {
        BreakInv(Abstract(), k);
        BreakPage(k);
      }
      var f := pt[k].frame;
      frames[f] := Splice(frames[f], off, bs);
      assert Abstract() == PokeBytes(Unshared(old(Abstract()), k), k, off, bs);
    }

    /** copyout. */
    method CopyOut(p: nat, dstva: nat, src: seq<int>) returns (ok: bool)
      requires Inv(Abstract())
      modifies this`free, this`pt, this`owner, useReference, frames
      ensures (Abstract(), ok) == Copyout(old(Abstract()), p, dstva, src)
    {
      hide Disjoint, Counted, Exclusive, CopyoutPage;
      var va: nat, left := dstva, src;
      while left != []
        invariant Inv(Abstract())
        invariant Copyout(Abstract(), p, va, left) == Copyout(old(Abstract()), p, dstva, src)
        decreases |left|
      {
        var k := Slot(p, va / PGSIZE);
        if k !in pt || !pt[k].u {
          return false;
        }
        var n := Chunk(va, |left|);
        CopyoutOne(k, va % PGSIZE, left[..n]);
        va, left := (va / PGSIZE + 1) * PGSIZE, left[n..];
      }
      ok := true;
    }
  }
}
