/** copyout: the kernel writing user memory under copy-on-write. */
module CowCopyout {
  import opened Cow
  import opened CowOps
  import opened CowKernel
  import Sets

  function Splice(d: Page, off: nat, bs: seq<int>): Page
    requires off + |bs| <= PGSIZE
  {
    d[..off] + bs + d[off + |bs|..]
  }

  /** memmove into the frame that k maps, whatever the permissions of k. */
  function PokeBytes(s: State, k: Slot, off: nat, bs: seq<int>): State
    requires Sizes(s) && k in s.pt && off + |bs| <= PGSIZE
  {
    var f := s.pt[k].frame;
    s.(frames := s.frames[f := Splice(s.frames[f], off, bs)])
  }

  /** The copy that copyout makes first; when kalloc fails it only marks the process killed. */
  ghost function Unshared(s: State, k: Slot): (t: State)
    requires Inv(s) && k in s.pt
    ensures Inv(t) && k in t.pt
  {
    if s.pt[k].cow && s.free != [] then BreakInv(s, k); Break(s, k) else s
  }

  /** checkcowpage on the page of va0: its test against p->sz never decides, because every mapped
      page starts below the size. */
  lemma CheckCowPage(s: State, p: nat, va0: nat)
    requires KInv(s) && va0 % PGSIZE == 0 && Slot(p, va0 / PGSIZE) in s.pt
    ensures (va0 < s.sz[p] && s.pt[Slot(p, va0 / PGSIZE)].cow) <==> s.pt[Slot(p, va0 / PGSIZE)].cow
  {
  }

  /** One pass of copyout's loop over a page that is mapped for the user. */
  ghost function CopyoutPage(s: State, k: Slot, off: nat, bs: seq<int>): (t: State)
    requires Inv(s) && k in s.pt && off + |bs| <= PGSIZE
    ensures Inv(t)
  {
    hide Disjoint, Counted, Exclusive, Unshared, PokeBytes;
    PokeBytesKeeps(Unshared(s, k), k, off, bs);
    PokeBytes(Unshared(s, k), k, off, bs)
  }

  /** Contents of frames play no part in the invariant. */
  lemma PokeBytesKeeps(s: State, k: Slot, off: nat, bs: seq<int>)
    requires Inv(s) && k in s.pt && off + |bs| <= PGSIZE
    ensures Inv(PokeBytes(s, k, off, bs))
  {
    hide Disjoint, Counted, Exclusive, Splice;
    SameTables(s, PokeBytes(s, k, off, bs));
  }

  /** No page but k reads differently in t. */
  ghost predicate OnlyChanges(s: State, t: State, k: Slot) {
    && Sizes(s) && Sizes(t) && t.pt.Keys == s.pt.Keys
    && forall j :: j in s.pt && j != k ==> ViewOf(t, j) == ViewOf(s, j)
  }

  lemma UnsharedSame(s: State, k: Slot)
    requires Inv(s) && k in s.pt
    ensures var t := Unshared(s, k);
            && Abs(t) == Abs(s) && t.sz == s.sz && t.pt.Keys == s.pt.Keys
            && (s.pt[k].cow && s.free != [] ==> t.pt[k].w)
            && (!(s.pt[k].cow && s.free != []) ==> t == s)
  {
    if s.pt[k].cow && s.free != [] {
      BreakKeeps(s, k);
      BreakLeavesRest(s, k);
    }
  }

  lemma ExclusiveFrame(s: State, k: Slot, j: Slot)
    requires Inv(s) && k in s.pt && j in s.pt && j != k
    requires s.pt[k].w || Users(s.pt, s.pt[k].frame) == {k}
    ensures s.pt[j].frame != s.pt[k].frame
  {
    assert s.pt[j].frame == s.pt[k].frame ==> j in Users(s.pt, s.pt[k].frame);
  }

  lemma PokeBytesAlone(s: State, k: Slot, off: nat, bs: seq<int>)
    requires Inv(s) && k in s.pt && off + |bs| <= PGSIZE
    requires s.pt[k].w || Users(s.pt, s.pt[k].frame) == {k}
    ensures Inv(PokeBytes(s, k, off, bs))
    ensures OnlyChanges(s, PokeBytes(s, k, off, bs), k)
    ensures ViewOf(PokeBytes(s, k, off, bs), k) == ViewOf(s, k).(data := Splice(ViewOf(s, k).data, off, bs))
  {
    hide Users, Splice;
    forall j | j in s.pt && j != k
      ensures s.pt[j].frame != s.pt[k].frame
    {
      ExclusiveFrame(s, k, j);
    }
  }

  /** Writing to a frame with a second user shows in that user's memory. */
  lemma PokeBytesShows(s: State, k: Slot, j: Slot, off: nat, bs: seq<int>)
    requires Inv(s) && k in s.pt && j in s.pt && j != k && s.pt[j].frame == s.pt[k].frame
    requires off + |bs| <= PGSIZE && bs != [] && bs[0] != s.frames[s.pt[k].frame][off]
    ensures !OnlyChanges(s, PokeBytes(s, k, off, bs), k)
  {
  }

  /** Exactly when copyout stays inside the process: for every n > 0 bytes at this place, no
      other page changes if and only if the frame has no second user, or the page is
      copy-on-write and a frame is free.  (copyout tests neither PTE_W nor the failure of
      kalloc before its memmove.) */
  lemma CopyoutIsolatedExactly(s: State, k: Slot, off: nat, n: nat)
    requires Inv(s) && k in s.pt && 0 < n && off + n <= PGSIZE
    ensures (forall bs {:trigger CopyoutPage(s, k, off, bs)} :: |bs| == n ==> OnlyChanges(s, CopyoutPage(s, k, off, bs), k))
       <==> Users(s.pt, s.pt[k].frame) == {k} || (s.pt[k].cow && s.free != [])
  {
    if Users(s.pt, s.pt[k].frame) == {k} || (s.pt[k].cow && s.free != []) {
      forall bs | |bs| == n
        ensures OnlyChanges(s, CopyoutPage(s, k, off, bs), k)
      {
        CopyoutIsolated(s, k, off, bs);
      }
    } else {
      var j := SecondUser(s, k);
      var bs := seq(n, i => s.frames[s.pt[k].frame][off] + 1);
      UnsharedSame(s, k);
      PokeBytesShows(s, k, j, off, bs);
      assert |bs| == n && !OnlyChanges(s, CopyoutPage(s, k, off, bs), k);
    }
  }

  lemma SecondUser(s: State, k: Slot) returns (j: Slot)
    requires k in s.pt && Users(s.pt, s.pt[k].frame) != {k}
    ensures j in s.pt && j != k && s.pt[j].frame == s.pt[k].frame
  {
    var us := Users(s.pt, s.pt[k].frame);
    assert k in us;
    j :| j in us && j != k;
  }

  lemma CopyoutIsolated(s: State, k: Slot, off: nat, bs: seq<int>)
    requires Inv(s) && k in s.pt && off + |bs| <= PGSIZE
    requires Users(s.pt, s.pt[k].frame) == {k} || s.pt[k].w || (s.pt[k].cow && s.free != [])
    ensures var t := CopyoutPage(s, k, off, bs);
            && Inv(t) && OnlyChanges(s, t, k) && k in t.pt
            && ViewOf(t, k) == ViewOf(s, k).(data := Splice(ViewOf(s, k).data, off, bs))
  {
    hide Users, Splice, Disjoint, Counted, Exclusive, Unshared, PokeBytes;
    UnsharedSame(s, k);
    var u := Unshared(s, k);
    PokeBytesAlone(u, k, off, bs);
    AbsAt(s, u);
  }

  lemma AbsAt(s: State, t: State)
    requires Sizes(s) && Sizes(t) && Abs(s) == Abs(t)
    ensures s.pt.Keys == t.pt.Keys && forall k :: k in s.pt ==> ViewOf(s, k) == ViewOf(t, k)
  {
    assert s.pt.Keys == Abs(s).Keys && t.pt.Keys == Abs(t).Keys;
    forall k | k in s.pt
      ensures ViewOf(s, k) == ViewOf(t, k)
    {
      assert Abs(s)[k] == Abs(t)[k];
    }
  }

  // ---- the whole of copyout ----

  /** The bytes that fit on the page of va. */
  function Chunk(va: nat, len: nat): (n: nat)
    ensures n <= len && va % PGSIZE + n <= PGSIZE && (len > 0 ==> n > 0)
  {
    if len < PGSIZE - va % PGSIZE then len else PGSIZE - va % PGSIZE
  }

  /** copyout: the state it leaves and whether it returns 0. */
  ghost function Copyout(s: State, p: nat, va: nat, src: seq<int>): (r: (State, bool))
    requires Inv(s)
    ensures Inv(r.0)
    decreases |src|
  {
    if src == [] then (s, true)
    else
      var k, n := Slot(p, va / PGSIZE), Chunk(va, |src|);
      if k !in s.pt || !s.pt[k].u then (s, false)
      else Copyout(CopyoutPage(s, k, va % PGSIZE, src[..n]), p, (va / PGSIZE + 1) * PGSIZE, src[n..])
  }

  /** A page at address base after src has been written at va. */
  function Overlay(d: Page, base: nat, va: nat, src: seq<int>): Page {
    seq(PGSIZE, j requires 0 <= j < PGSIZE =>
      if va <= base + j < va + |src| then src[base + j - va] else d[j])
  }

  /** Private memory after writing src at address va of p. */
  function Written(a: map<Slot, View>, p: nat, va: nat, src: seq<int>): map<Slot, View> {
    map k | k in a :: if k.pid == p then a[k].(data := Overlay(a[k].data, k.page * PGSIZE, va, src)) else a[k]
  }

  /** Every page of va .. va+n-1 is mapped for the user and writable or copy-on-write. */
  ghost predicate Writable(a: map<Slot, View>, p: nat, va: nat, n: nat) {
    forall v: nat :: va < (v + 1) * PGSIZE && v * PGSIZE < va + n ==>
      Slot(p, v) in a && a[Slot(p, v)].u && a[Slot(p, v)].writable
  }

  /** How many of the n bytes at va lie before the first page that is not mapped for the user, where
      copyout returns -1. */
  function Reach(a: map<Slot, View>, p: nat, va: nat, n: nat): (r: nat)
    ensures r <= n
    decreases n
  {
    var k, c := Slot(p, va / PGSIZE), Chunk(va, n);
    if n == 0 || k !in a || !a[k].u then 0 else c + Reach(a, p, (va / PGSIZE + 1) * PGSIZE, n - c)
  }

  /** A page that copyout can write without showing it to others: its frame has no other user, or copyout
      can make the copy that copy-on-write asks for. */
  ghost predicate PageSpared(s: State, k: Slot)
    requires k in s.pt
  {
    Users(s.pt, s.pt[k].frame) == {k} || (s.pt[k].cow && s.free != [])
  }

  /** That holds of every page up to where copyout stops, each after the copies made before it. */
  ghost predicate Spares(s: State, p: nat, va: nat, n: nat)
    requires Inv(s)
    decreases n
  {
    var k, c := Slot(p, va / PGSIZE), Chunk(va, n);
    n == 0 || k !in s.pt || !s.pt[k].u || (PageSpared(s, k) && Spares(Unshared(s, k), p, (va / PGSIZE + 1) * PGSIZE, n - c))
  }

  lemma OverlaySplit(d: Page, base: nat, va: nat, src: seq<int>, n: nat)
    requires n <= |src|
    ensures Overlay(Overlay(d, base, va, src[..n]), base, va + n, src[n..]) == Overlay(d, base, va, src)
  {
  }

  lemma WrittenSplit(a: map<Slot, View>, p: nat, va: nat, src: seq<int>, n: nat)
    requires n <= |src|
    ensures Written(Written(a, p, va, src[..n]), p, va + n, src[n..]) == Written(a, p, va, src)
  {
    hide Overlay;
    forall k | k in a && k.pid == p
      ensures Written(Written(a, p, va, src[..n]), p, va + n, src[n..])[k] == Written(a, p, va, src)[k]
    {
      OverlaySplit(a[k].data, k.page * PGSIZE, va, src, n);
    }
  }

  lemma OverlayOwnPage(d: Page, va: nat, bs: seq<int>)
    requires va % PGSIZE + |bs| <= PGSIZE
    ensures Overlay(d, va / PGSIZE * PGSIZE, va, bs) == Splice(d, va % PGSIZE, bs)
  {
  }

  lemma OverlayOtherPage(d: Page, page: nat, va: nat, bs: seq<int>)
    requires va % PGSIZE + |bs| <= PGSIZE && page != va / PGSIZE
    ensures Overlay(d, page * PGSIZE, va, bs) == d
  {
  }

  /** Writing within one page changes that page as memmove does. */
  lemma WrittenOnePage(a: map<Slot, View>, p: nat, va: nat, bs: seq<int>)
    requires va % PGSIZE + |bs| <= PGSIZE && Slot(p, va / PGSIZE) in a
    ensures var k := Slot(p, va / PGSIZE);
            Written(a, p, va, bs) == a[k := a[k].(data := Splice(a[k].data, va % PGSIZE, bs))]
  {
    hide Overlay, Splice;
    OverlayOwnPage(a[Slot(p, va / PGSIZE)].data, va, bs);
    forall k | k in a && k.pid == p && k.page != va / PGSIZE
      ensures Overlay(a[k].data, k.page * PGSIZE, va, bs) == a[k].data
    {
      OverlayOtherPage(a[k].data, k.page, va, bs);
    }
  }

  lemma ChunkArith(va: nat, len: nat)
    requires len > 0
    ensures var n := Chunk(va, len);
            var next := (va / PGSIZE + 1) * PGSIZE;
            && (n < len ==> next == va + n)
            && va < (va / PGSIZE + 1) * PGSIZE && va / PGSIZE * PGSIZE <= va
  {
  }

  lemma ChunkWritten(s: State, p: nat, va: nat, bs: seq<int>)
    requires Inv(s) && va % PGSIZE + |bs| <= PGSIZE && Slot(p, va / PGSIZE) in s.pt && PageSpared(s, Slot(p, va / PGSIZE))
    ensures Abs(CopyoutPage(s, Slot(p, va / PGSIZE), va % PGSIZE, bs)) == Written(Abs(s), p, va, bs)
  {
    hide Disjoint, Counted, Exclusive, CopyoutPage, Splice, Written;
    var k := Slot(p, va / PGSIZE);
    CopyoutIsolated(s, k, va % PGSIZE, bs);
    WrittenOnePage(Abs(s), p, va, bs);
  }

  lemma WrittenKeepsWritable(a: map<Slot, View>, p: nat, va: nat, len: nat, bs: seq<int>)
    requires Writable(a, p, va, len) && |bs| <= len
    ensures Writable(Written(a, p, va, bs), p, va + |bs|, len - |bs|)
  {
  }

  lemma FirstPageWritable(s: State, p: nat, va: nat, len: nat)
    requires Inv(s) && len > 0 && Writable(Abs(s), p, va, len)
    ensures var k := Slot(p, va / PGSIZE); k in s.pt && s.pt[k].u && (s.pt[k].w || s.pt[k].cow)
  {
  }

  /** Spares looks at tables and counts only. */
  lemma {:induction false} SparesSame(s: State, t: State, p: nat, va: nat, n: nat)
    requires Inv(s) && Inv(t) && t.pt == s.pt && t.free == s.free && t.ref == s.ref
    ensures Spares(t, p, va, n) <==> Spares(s, p, va, n)
    decreases n
  {
    hide Inv, Unshared, Chunk, PageSpared;
    var k, c := Slot(p, va / PGSIZE), Chunk(va, n);
    if n > 0 && k in s.pt {
      UnsharedTables(s, t, k);
      ChunkArith(va, n);
      SparesSame(Unshared(s, k), Unshared(t, k), p, (va / PGSIZE + 1) * PGSIZE, n - c);
    }
  }

  lemma UnsharedTables(s: State, t: State, k: Slot)
    requires Inv(s) && Inv(t) && t.pt == s.pt && t.free == s.free && t.ref == s.ref && k in s.pt
    ensures Unshared(t, k).pt == Unshared(s, k).pt && Unshared(t, k).free == Unshared(s, k).free
    ensures Unshared(t, k).ref == Unshared(s, k).ref && (PageSpared(t, k) <==> PageSpared(s, k))
  {
    hide Users, Disjoint, Counted, Exclusive;
    if s.pt[k].cow && s.free != [] { BreakTables(s, t, k); }
  }

  lemma BreakTables(s: State, t: State, k: Slot)
    requires Sizes(s) && Sizes(t) && t.pt == s.pt && t.free == s.free && t.ref == s.ref && k in s.pt && s.free != []
    ensures Break(t, k).pt == Break(s, k).pt && Break(t, k).free == Break(s, k).free && Break(t, k).ref == Break(s, k).ref
  {
  }

  lemma SparesRest(s: State, p: nat, va: nat, n: nat, bs: seq<int>)
    requires Inv(s) && n > 0 && Slot(p, va / PGSIZE) in s.pt && s.pt[Slot(p, va / PGSIZE)].u && |bs| == Chunk(va, n)
    ensures var k, next := Slot(p, va / PGSIZE), (va / PGSIZE + 1) * PGSIZE;
            Spares(s, p, va, n) <==> PageSpared(s, k) && Spares(CopyoutPage(s, k, va % PGSIZE, bs), p, next, n - |bs|)
  {
    hide Inv, Unshared, PageSpared;
    var k := Slot(p, va / PGSIZE);
    PokedTables(s, k, va % PGSIZE, bs);
    SparesSame(Unshared(s, k), CopyoutPage(s, k, va % PGSIZE, bs), p, (va / PGSIZE + 1) * PGSIZE, n - |bs|);
  }

  lemma PokedTables(s: State, k: Slot, off: nat, bs: seq<int>)
    requires Inv(s) && k in s.pt && off + |bs| <= PGSIZE
    ensures var t, u := CopyoutPage(s, k, off, bs), Unshared(s, k);
            Inv(t) && t.pt == u.pt && t.free == u.free && t.ref == u.ref
  {
    hide Disjoint, Counted, Exclusive, Unshared, Splice;
  }

  lemma {:induction false} ReachSame(a: map<Slot, View>, b: map<Slot, View>, p: nat, va: nat, n: nat)
    requires a.Keys == b.Keys && forall k :: k in a ==> a[k].u == b[k].u
    ensures Reach(a, p, va, n) == Reach(b, p, va, n)
    decreases n
  {
    if n > 0 { ReachSame(a, b, p, (va / PGSIZE + 1) * PGSIZE, n - Chunk(va, n)); }
  }

  lemma ReachStep(s: State, p: nat, va: nat, bs: seq<int>, n: nat)
    requires Inv(s) && n > 0 && Slot(p, va / PGSIZE) in s.pt && s.pt[Slot(p, va / PGSIZE)].u && |bs| == Chunk(va, n)
    ensures Reach(Abs(s), p, va, n) == |bs| + Reach(Written(Abs(s), p, va, bs), p, (va / PGSIZE + 1) * PGSIZE, n - |bs|)
  {
    hide Inv, Abs, Written, Chunk;
    Framed(s);
    AbsEntry(s, Slot(p, va / PGSIZE));
    WrittenFlags(Abs(s), p, va, bs);
    ReachSame(Abs(s), Written(Abs(s), p, va, bs), p, (va / PGSIZE + 1) * PGSIZE, n - |bs|);
  }

  lemma Framed(s: State)
    requires Inv(s)
    ensures forall k :: k in s.pt ==> s.pt[k].frame < |s.frames|
  {
  }

  lemma AbsEntry(s: State, k: Slot)
    requires Inv(s) && k in s.pt
    ensures k in Abs(s) && Abs(s)[k].u == s.pt[k].u
  {
  }

  lemma WrittenFlags(a: map<Slot, View>, p: nat, va: nat, bs: seq<int>)
    ensures Written(a, p, va, bs).Keys == a.Keys && forall k :: k in a ==> Written(a, p, va, bs)[k].u == a[k].u
  {
    hide Overlay;
  }

  /** One pass of the loop and the rest. */
  lemma CopyoutStep(s: State, p: nat, va: nat, src: seq<int>)
    requires Inv(s) && src != [] && Slot(p, va / PGSIZE) in s.pt && s.pt[Slot(p, va / PGSIZE)].u
    ensures var k, n := Slot(p, va / PGSIZE), Chunk(va, |src|);
            Copyout(s, p, va, src) == Copyout(CopyoutPage(s, k, va % PGSIZE, src[..n]), p, (va / PGSIZE + 1) * PGSIZE, src[n..])
  {
    hide Inv, CopyoutPage, Chunk;
  }

  lemma CopyoutStops(s: State, p: nat, va: nat, src: seq<int>)
    requires Inv(s) && (src == [] || Slot(p, va / PGSIZE) !in s.pt || !s.pt[Slot(p, va / PGSIZE)].u)
    ensures Copyout(s, p, va, src) == (s, src == []) && Reach(Abs(s), p, va, |src|) == 0
  {
  }

  /** If copyout can spare the others, it writes exactly the bytes up to where it stops into the memory of
      p, changes nothing that any other process sees, and returns 0 exactly when that is all of them. */
  lemma {:induction false} CopyoutWrites(s: State, p: nat, va: nat, src: seq<int>)
    requires Inv(s) && Spares(s, p, va, |src|)
    ensures var (t, ok), n := Copyout(s, p, va, src), Reach(Abs(s), p, va, |src|);
            (ok <==> n == |src|) && Abs(t) == Written(Abs(s), p, va, src[..n])
    decreases |src|
  {
    hide Inv, Abs, CopyoutPage, Written, Chunk, Spares, PageSpared, Copyout, Reach;
    Framed(s);
    var k, n := Slot(p, va / PGSIZE), Chunk(va, |src|);
    if src == [] || k !in s.pt || !s.pt[k].u {
      CopyoutStops(s, p, va, src);
      WrittenNothing(Abs(s), p, va);
      assert src[..0] == [];
    } else {
      ChunkArith(va, |src|);
      SparesRest(s, p, va, |src|, src[..n]);
      var t := CopyoutPage(s, k, va % PGSIZE, src[..n]);
      CopyoutWrites(t, p, (va / PGSIZE + 1) * PGSIZE, src[n..]);
      CopyoutPassed(s, p, va, src);
    }
  }

  lemma CopyoutPassed(s: State, p: nat, va: nat, src: seq<int>)
    requires Inv(s) && src != [] && Slot(p, va / PGSIZE) in s.pt && s.pt[Slot(p, va / PGSIZE)].u && PageSpared(s, Slot(p, va / PGSIZE))
    ensures var n, next := Chunk(va, |src|), (va / PGSIZE + 1) * PGSIZE;
            var t := CopyoutPage(s, Slot(p, va / PGSIZE), va % PGSIZE, src[..n]);
            var r := Reach(Abs(t), p, next, |src| - n);
            && Copyout(s, p, va, src) == Copyout(t, p, next, src[n..])
            && Reach(Abs(s), p, va, |src|) == n + r
            && Written(Abs(t), p, next, src[n..][..r]) == Written(Abs(s), p, va, src[..n + r])
  {
    hide Inv, Abs, CopyoutPage, Written, Chunk, PageSpared, Copyout, Reach;
    var n, next := Chunk(va, |src|), (va / PGSIZE + 1) * PGSIZE;
    ChunkArith(va, |src|);
    CopyoutStep(s, p, va, src);
    ChunkWritten(s, p, va, src[..n]);
    ReachStep(s, p, va, src[..n], |src|);
    var t := CopyoutPage(s, Slot(p, va / PGSIZE), va % PGSIZE, src[..n]);
    Framed(s);
    Framed(t);
    var r := Reach(Abs(t), p, next, |src| - n);
    assert src[..n + r][..n] == src[..n] && src[..n + r][n..] == src[n..][..r];
    WrittenSplit(Abs(s), p, va, src[..n + r], n);
    if n == |src| {
      assert src[n..][..r] == [];
      WrittenNothing(Abs(t), p, next);
      WrittenNothing(Abs(t), p, va + n);
    }
  }

  lemma WrittenNothing(a: map<Slot, View>, p: nat, va: nat)
    ensures Written(a, p, va, []) == a
  {
    forall k | k in a
      ensures Overlay(a[k].data, k.page * PGSIZE, va, []) == a[k].data
    {
    }
  }

  // ---- exactly when the others are spared ----

  lemma {:induction false} ReachAll(a: map<Slot, View>, p: nat, va: nat, n: nat)
    requires Writable(a, p, va, n)
    ensures Reach(a, p, va, n) == n
    decreases n
  {
    if n > 0 {
      ChunkArith(va, n);
      ReachAll(a, p, (va / PGSIZE + 1) * PGSIZE, n - Chunk(va, n));
    }
  }

  lemma {:induction false} NoFramesNoCopies(s: State, p: nat, va: nat, src: seq<int>)
    requires Inv(s) && s.free == []
    ensures Copyout(s, p, va, src).0.pt == s.pt
    decreases |src|
  {
    hide Inv, CopyoutPage, Chunk;
    var k, n := Slot(p, va / PGSIZE), Chunk(va, |src|);
    if src != [] && k in s.pt && s.pt[k].u {
      PageInPlace(s, k, va % PGSIZE, src[..n]);
      NoFramesNoCopies(CopyoutPage(s, k, va % PGSIZE, src[..n]), p, (va / PGSIZE + 1) * PGSIZE, src[n..]);
    }
  }

  lemma PageInPlace(s: State, k: Slot, off: nat, bs: seq<int>)
    requires Inv(s) && k in s.pt && off + |bs| <= PGSIZE && s.free == []
    ensures CopyoutPage(s, k, off, bs).pt == s.pt && CopyoutPage(s, k, off, bs).free == []
  {
  }

  lemma OverlayAt(d: Page, base: nat, va: nat, src: seq<int>, j: nat)
    requires j < PGSIZE
    ensures Overlay(d, base, va, src)[j] == if va <= base + j < va + |src| then src[base + j - va] else d[j]
  {
  }

  lemma SameFrameSameData(s: State, k: Slot, j: Slot)
    requires Inv(s) && k in s.pt && j in s.pt && s.pt[k].frame == s.pt[j].frame
    ensures k in Abs(s) && j in Abs(s) && Abs(s)[k].data == Abs(s)[j].data
  {
  }

  /** Two pages that stay in one frame cannot both read as private memory has it. */
  lemma SharedShows(s: State, p: nat, va: nat, n: nat, j: Slot) returns (src: seq<int>)
    requires Inv(s) && n > 0 && s.free == []
    requires var k := Slot(p, va / PGSIZE); k in s.pt && j in s.pt && j != k && s.pt[j].frame == s.pt[k].frame
    ensures |src| == n && Abs(Copyout(s, p, va, src).0) != Written(Abs(s), p, va, src)
  {
    hide Inv, Abs, Copyout, Overlay;
    Framed(s);
    var k, off := Slot(p, va / PGSIZE), va % PGSIZE;
    SameFrameSameData(s, k, j);
    var was := Abs(s)[j].data[off];
    src := [if was == 1 then 2 else 1] + seq(n - 1, i => 0);
    var t := Copyout(s, p, va, src).0;
    NoFramesNoCopies(s, p, va, src);
    SameFrameSameData(t, k, j);
    OverlayAt(Abs(s)[k].data, k.page * PGSIZE, va, src, off);
    OverlayAt(Abs(s)[j].data, j.page * PGSIZE, va, src, off);
  }

  lemma NotSparedIs(s: State, k: Slot)
    requires Inv(s) && k in s.pt && !PageSpared(s, k) && (s.pt[k].w || s.pt[k].cow)
    ensures s.free == []
  {
    var j := SecondUser(s, k);
    if s.pt[k].w { ExclusiveFrame(s, k, j); }
  }

  lemma {:induction false} SomebodyNotices(s: State, p: nat, va: nat, n: nat) returns (src: seq<int>)
    requires Inv(s) && Writable(Abs(s), p, va, n) && !Spares(s, p, va, n)
    ensures |src| == n && Abs(Copyout(s, p, va, src).0) != Written(Abs(s), p, va, src)
    decreases n
  {
    hide Inv, Abs, CopyoutPage, Written, Chunk, Spares, PageSpared, Copyout, Reach, Writable;
    Framed(s);
    NothingSpares(s, p, va);
    FirstPageWritable(s, p, va, n);
    var k, c, next := Slot(p, va / PGSIZE), Chunk(va, n), (va / PGSIZE + 1) * PGSIZE;
    if PageSpared(s, k) {
      var bs := seq(c, i => 0);
      var t := CopyoutPage(s, k, va % PGSIZE, bs);
      SparesRest(s, p, va, n, bs);
      Framed(t);
      NothingSpares(t, p, next);
      ChunkArith(va, n);
      ChunkWritten(s, p, va, bs);
      WrittenKeepsWritable(Abs(s), p, va, n, bs);
      var rest := SomebodyNotices(t, p, next, n - c);
      src := bs + rest;
      assert src[..c] == bs && src[c..] == rest;
      CopyoutStep(s, p, va, src);
      WrittenSplit(Abs(s), p, va, src, c);
    } else {
      NotSparedIs(s, k);
      var j := UnsharedBy(s, k);
      src := SharedShows(s, p, va, n, j);
    }
  }

  lemma UnsharedBy(s: State, k: Slot) returns (j: Slot)
    requires k in s.pt && !PageSpared(s, k)
    ensures j in s.pt && j != k && s.pt[j].frame == s.pt[k].frame
  {
    j := SecondUser(s, k);
  }

  lemma NothingSpares(s: State, p: nat, va: nat)
    requires Inv(s)
    ensures Spares(s, p, va, 0)
  {
  }

  /** Where private memory lets the process write n bytes: copyout does what it would do over private memory,
      for every n bytes, if and only if it can spare the others. */
  lemma CopyoutExactly(s: State, p: nat, va: nat, n: nat)
    requires Inv(s) && Writable(Abs(s), p, va, n)
    ensures (forall src {:trigger Copyout(s, p, va, src)} :: |src| == n ==> Abs(Copyout(s, p, va, src).0) == Written(Abs(s), p, va, src))
       <==> Spares(s, p, va, n)
  {
    hide Disjoint, Counted, Exclusive, Abs, Written, Spares, Copyout, Writable;
    if Spares(s, p, va, n) {
      ReachAll(Abs(s), p, va, n);
      forall src | |src| == n
        ensures Abs(Copyout(s, p, va, src).0) == Written(Abs(s), p, va, src)
      {
        CopyoutWrites(s, p, va, src);
        assert src[..n] == src;
      }
    } else {
      var src := SomebodyNotices(s, p, va, n);
      assert |src| == n && Abs(Copyout(s, p, va, src).0) != Written(Abs(s), p, va, src);
    }
  }

  // ---- how many free frames are enough ----

  /** The pages lo .. hi-1 of p that are copy-on-write and whose frame counts more than one reference. */
  function Shared(s: State, p: nat, lo: nat, hi: nat): set<nat>
    requires Sizes(s)
  {
    set v: nat | lo <= v < hi && Slot(p, v) in s.pt && s.pt[Slot(p, v)].cow && s.ref[s.pt[Slot(p, v)].frame] > 1
  }

  /** The page after that of the last of n bytes at va. */
  function EndPage(va: nat, n: nat): nat { (va + n + PGSIZE - 1) / PGSIZE }

  /** A free frame for every copy-on-write page with a count above one is enough. */
  lemma {:induction false} EnoughFrames(s: State, p: nat, va: nat, n: nat)
    requires Inv(s) && Writable(Abs(s), p, va, n) && |Shared(s, p, va / PGSIZE, EndPage(va, n))| <= |s.free|
    ensures Spares(s, p, va, n)
    decreases n
  {
    hide Inv, Abs, Writable, Chunk, Spares, PageSpared, Unshared, Shared;
    Framed(s);
    NothingSpares(s, p, va);
    if n > 0 {
      FirstPageWritable(s, p, va, n);
      ChunkArith(va, n);
      var k, c, next := Slot(p, va / PGSIZE), Chunk(va, n), (va / PGSIZE + 1) * PGSIZE;
      EndPages(va, n);
      FirstSpared(s, k, EndPage(va, n));
      if c < n {
        RestWritable(s, p, va, n);
        EnoughFrames(Unshared(s, k), p, next, n - c);
      } else {
        NothingSpares(Unshared(s, k), p, next);
      }
      SparesFirst(s, p, va, n);
    }
  }

  lemma RestWritable(s: State, p: nat, va: nat, n: nat)
    requires Inv(s) && n > 0 && Writable(Abs(s), p, va, n) && Slot(p, va / PGSIZE) in s.pt
    ensures Writable(Abs(Unshared(s, Slot(p, va / PGSIZE))), p, (va / PGSIZE + 1) * PGSIZE, n - Chunk(va, n))
  {
    hide Inv, Abs, Unshared;
    UnsharedSame(s, Slot(p, va / PGSIZE));
    ChunkArith(va, n);
  }

  lemma BreakRefs(s: State, k: Slot)
    requires Inv(s) && k in s.pt && s.free != []
    ensures var t, f := Break(s, k), s.pt[k].frame;
      && |t.free| == |s.free| - (if s.ref[f] > 1 then 1 else 0) && |t.ref| == |s.ref| && t.pt.Keys == s.pt.Keys
      && forall j :: j in s.pt && j != k ==> t.pt[j] == s.pt[j] && t.ref[s.pt[j].frame] <= s.ref[s.pt[j].frame]
  {
    hide Users;
  }

  lemma OnlyReference(s: State, k: Slot)
    requires Inv(s) && k in s.pt && s.ref[s.pt[k].frame] <= 1
    ensures Users(s.pt, s.pt[k].frame) == {k}
  {
    var f := s.pt[k].frame;
    assert k in Users(s.pt, f);
    assert s.ref[f] == Expected(s, f);
    assert |Users(s.pt, f) - {k}| == |Users(s.pt, f)| - 1;
  }

  /** The first page is spared, and the frames that are left are enough for the others. */
  lemma FirstSpared(s: State, k: Slot, hi: nat)
    requires Inv(s) && k in s.pt && (s.pt[k].w || s.pt[k].cow) && k.page < hi
    requires |Shared(s, k.pid, k.page, hi)| <= |s.free|
    ensures PageSpared(s, k) && |Shared(Unshared(s, k), k.pid, k.page + 1, hi)| <= |Unshared(s, k).free|
  {
    hide Users, Disjoint, Counted, Exclusive, Break;
    var t, f := Unshared(s, k), s.pt[k].frame;
    var before, after := Shared(s, k.pid, k.page, hi), Shared(t, k.pid, k.page + 1, hi);
    assert s.pt[k].cow && s.ref[f] > 1 ==> k.page in before;
    if s.pt[k].cow && s.free != [] {
      BreakRefs(s, k);
      Sets.SubsetSize(after, before - {k.page});
    } else {
      if s.pt[k].w { OnlyUser(s, k); } else { OnlyReference(s, k); }
      Sets.SubsetSize(after, before);
    }
  }

  lemma OnlyUser(s: State, k: Slot)
    requires Inv(s) && k in s.pt && s.pt[k].w
    ensures Users(s.pt, s.pt[k].frame) == {k}
  {
    assert k in Users(s.pt, s.pt[k].frame);
  }

  lemma SparesFirst(s: State, p: nat, va: nat, n: nat)
    requires Inv(s) && n > 0 && Slot(p, va / PGSIZE) in s.pt && PageSpared(s, Slot(p, va / PGSIZE))
    requires Spares(Unshared(s, Slot(p, va / PGSIZE)), p, (va / PGSIZE + 1) * PGSIZE, n - Chunk(va, n))
    ensures Spares(s, p, va, n)
  {
  }

  lemma EndPages(va: nat, n: nat)
    requires n > 0
    ensures va / PGSIZE < EndPage(va, n)
    ensures var c, next := Chunk(va, n), (va / PGSIZE + 1) * PGSIZE; c < n ==> EndPage(next, n - c) == EndPage(va, n) && next / PGSIZE == va / PGSIZE + 1
  {
  }
}
