/** The kernel with copy-on-write fork, and the kernel with private memory that it refines. */
module CowKernel {
  import opened Cow
  import opened CowOps

  const MAXVA: nat := 0x40_0000_0000

  /** TRAPFRAME: the first page above user memory; the trampoline page follows. */
  const USERTOP: nat := MAXVA - 2 * PGSIZE

  /** Every process has exactly the pages below its size mapped. */
  ghost predicate Layout(s: State) {
    && (forall k :: k in s.pt <==> k.pid in s.sz && k.page < NPages(s.sz[k.pid]))
    && (forall p :: p in s.sz ==> s.sz[p] <= USERTOP)
  }

  ghost predicate KInv(s: State) {
    Inv(s) && Layout(s)
  }

  /** What the processes can tell: their memory and their sizes. */
  datatype Private = Private(mem: map<Slot, View>, sz: map<nat, nat>)

  function PrivateOf(s: State): Private
    requires forall k :: k in s.pt ==> s.pt[k].frame < |s.frames|
  {
    Private(Abs(s), s.sz)
  }

  /** boot and need are the numbers of pages that page-table walks find missing. */
  datatype Call =
    | Fork(p: nat, q: nat, boot: nat, need: seq<nat>)
    | Grow(p: nat, bytes: nat, need: seq<nat>)
    | Shrink(p: nat, bytes: nat)
    | Store(p: nat, va: nat, b: int)
    | Free(p: nat)

  ghost predicate Callable(s: State, c: Call) {
    match c
    case Fork(p, q, _, need) => p in s.sz && q !in s.sz && NPages(s.sz[p]) <= |need|
    case Grow(p, n, need) => p in s.sz && s.sz[p] + n <= USERTOP && NPages(s.sz[p] + n) <= |need|
    case Shrink(p, _) => p in s.sz
    case Store(p, _, _) => p in s.sz
    case Free(p) => p in s.sz
  }

  // ---- the kernel of the source ----

  /** fork: allocproc's pages, uvmcopy, and freeproc on either failure. */
  ghost function DoFork(s: State, p: nat, q: nat, boot: nat, need: seq<nat>): (State, bool)
    requires KInv(s) && Callable(s, Fork(p, q, boot, need))
  {
    var (t, booted) := TakeTables(s, q, boot);
    if !booted then (DropTables(t, q, 0), false)
    else
      ChildUnmapped(s, t, p, q);
      var (u, ok) := Uvmcopy(t, p, q, NPages(s.sz[p]), need);
      if ok then (u.(sz := u.sz[q := s.sz[p]]), true) else (DropTables(u, q, 0), false)
  }

  lemma ChildUnmapped(s: State, t: State, p: nat, q: nat)
    requires KInv(s) && p in s.sz && q !in s.sz && Inv(t) && Abs(t) == Abs(s)
    ensures CanCopy(Abs(t), p, q, 0, NPages(s.sz[p]))
  {
  }

  /** growproc with n > 0. */
  ghost function DoGrow(s: State, p: nat, n: nat, need: seq<nat>): (State, bool)
    requires KInv(s) && Callable(s, Grow(p, n, need))
  {
    var newsz := s.sz[p] + n;
    var (t, ok) := Uvmalloc(s, p, NPages(s.sz[p]), NPages(newsz), need);
    if ok then (t.(sz := t.sz[p := newsz]), true) else (t, false)
  }

  /** growproc with n < 0; taking away more than there is changes nothing. */
  ghost function DoShrink(s: State, p: nat, n: nat): State
    requires KInv(s) && p in s.sz
  {
    if n > s.sz[p] then s
    else
      var newsz := s.sz[p] - n;
      UnmapRange(s, p, NPages(newsz), NPages(s.sz[p])).(sz := s.sz[p := newsz])
  }

  /** freeproc of an exited process. */
  ghost function DoFree(s: State, p: nat): State
    requires KInv(s) && p in s.sz
  {
    DropTables(UnmapRange(s, p, 0, NPages(s.sz[p])), p, 0).(sz := s.sz - {p})
  }

  /** cowhandler; true is its return value 0. */
  ghost function CowHandler(s: State, p: nat, va: nat): (State, bool)
    requires Inv(s)
  {
    var k := Slot(p, va / PGSIZE);
    if va >= MAXVA || k !in s.pt then (s, false)
    else if !s.pt[k].cow || !s.pt[k].u then (s, false)
    else if s.free == [] then (s, false)
    else (Break(s, k), true)
  }

  /** A user store instruction: the hardware writes a page that is mapped writable for the user;
      otherwise usertrap runs with scause 15, and the instruction is retried unless the process
      has been marked killed. */
  ghost function DoStore(s: State, p: nat, va: nat, b: int): (State, bool)
    requires KInv(s) && p in s.sz
  {
    var k := Slot(p, va / PGSIZE);
    if k in s.pt && s.pt[k].u && s.pt[k].w then (Poke(s, k, va % PGSIZE, b), true)
    else
      var (t, handled) := CowHandler(s, p, va);
      if va >= s.sz[p] || !handled then (t, false)
      else
        BreakInv(s, k);
        (Poke(t, k, va % PGSIZE, b), true)
  }

  lemma HandledIsMapped(s: State, p: nat, va: nat)
    requires Inv(s)
    ensures var (t, ok) := CowHandler(s, p, va);
            ok ==> Slot(p, va / PGSIZE) in t.pt && Sizes(t)
  {
    var k := Slot(p, va / PGSIZE);
    if k in s.pt && s.free != [] {
      BreakInv(s, k);
    }
    hide Break, Disjoint, Counted, Exclusive;
  }

  ghost function Exec(s: State, c: Call): (State, bool)
    requires KInv(s) && Callable(s, c)
  {
    match c
    case Fork(p, q, boot, need) => DoFork(s, p, q, boot, need)
    case Grow(p, n, need) => DoGrow(s, p, n, need)
    case Shrink(p, n) => (DoShrink(s, p, n), true)
    case Store(p, va, b) => DoStore(s, p, va, b)
    case Free(p) => (DoFree(s, p), true)
  }

  // ---- the kernel with private memory ----

  ghost predicate Permitted(v: Private, p: nat, va: nat) {
    var k := Slot(p, va / PGSIZE);
    k in v.mem && v.mem[k].u && v.mem[k].writable
  }

  /** What a call that succeeds does when every process has its own bytes. */
  ghost function Spec(v: Private, c: Call): Private
    requires match c
             case Fork(p, q, _, _) => p in v.sz && p != q && forall i :: 0 <= i < NPages(v.sz[p]) ==> Slot(p, i) in v.mem
             case Grow(p, _, _) => p in v.sz
             case Shrink(p, _) => p in v.sz
             case Store(p, va, _) => Permitted(v, p, va)
             case Free(p) => p in v.sz
  {
    match c
    case Fork(p, q, _, _) => Private(EagerCopy(v.mem, p, q, 0, NPages(v.sz[p])), v.sz[q := v.sz[p]])
    case Grow(p, n, _) => Private(ZeroPages(v.mem, p, NPages(v.sz[p]), NPages(v.sz[p] + n)), v.sz[p := v.sz[p] + n])
    case Shrink(p, n) =>
      if n > v.sz[p] then v
      else Private(v.mem - Slots(p, NPages(v.sz[p] - n), NPages(v.sz[p])), v.sz[p := v.sz[p] - n])
    case Store(p, va, b) =>
      var k := Slot(p, va / PGSIZE);
      Private(v.mem[k := v.mem[k].(data := v.mem[k].data[va % PGSIZE := b])], v.sz)
    case Free(p) => Private(v.mem - Slots(p, 0, NPages(v.sz[p])), v.sz - {p})
  }

  // ---- refinement, call by call ----

  ghost predicate Laid(v: Private) {
    && (forall k :: k in v.mem <==> k.pid in v.sz && k.page < NPages(v.sz[k.pid]))
    && (forall p :: p in v.sz ==> v.sz[p] <= USERTOP)
  }

  lemma LayoutIsPrivate(s: State)
    requires Inv(s)
    ensures Layout(s) <==> Laid(PrivateOf(s))
  {
  }

  ghost predicate SpecCallable(v: Private, c: Call) {
    match c
    case Fork(p, q, _, _) => p in v.sz && q !in v.sz
    case Grow(p, n, _) => p in v.sz && v.sz[p] + n <= USERTOP
    case Shrink(p, _) => p in v.sz
    case Store(p, va, _) => Permitted(v, p, va)
    case Free(p) => p in v.sz
  }

  lemma PagesMonotone(m: nat, n: nat)
    requires m <= n
    ensures NPages(m) <= NPages(n)
  {
  }

  /** The private-memory kernel keeps exactly the pages below each size. */
  lemma SpecLaid(v: Private, c: Call)
    requires Laid(v) && SpecCallable(v, c)
    ensures Laid(Spec(v, c))
  {
    match c
    case Fork(p, q, _, _) =>
    case Grow(p, n, _) => PagesMonotone(v.sz[p], v.sz[p] + n);
    case Shrink(p, n) => if n <= v.sz[p] { PagesMonotone(v.sz[p] - n, v.sz[p]); }
    case Store(p, va, _) =>
    case Free(p) =>
  }

  /** t refines what the private kernel makes of s: the call's effect or, when it failed, none;
      only a failed fork may leave one frame's count one too high. */
  ghost predicate Refined(s: State, c: Call, t: State, ok: bool)
    requires KInv(s) && Callable(s, c)
  {
    && KInv(t)
    && (ok ==> SpecCallable(PrivateOf(s), c) && PrivateOf(t) == Spec(PrivateOf(s), c))
    && (!ok ==> PrivateOf(t) == PrivateOf(s))
    && (t.leak == s.leak || (c.Fork? && !ok && LeaksOne(s.leak, t.leak)))
  }

  lemma RefinedFromPrivate(s: State, c: Call, t: State, ok: bool)
    requires KInv(s) && Callable(s, c) && Inv(t)
    requires ok ==> SpecCallable(PrivateOf(s), c) && PrivateOf(t) == Spec(PrivateOf(s), c)
    requires !ok ==> PrivateOf(t) == PrivateOf(s)
    requires t.leak == s.leak || (c.Fork? && !ok && LeaksOne(s.leak, t.leak))
    ensures Refined(s, c, t, ok)
  {
    hide Spec, Laid, Layout, LeaksOne, Disjoint, Counted, Exclusive, Abs;
    LayoutIsPrivate(s);
    LayoutIsPrivate(t);
    if ok { SpecLaid(PrivateOf(s), c); }
  }

  lemma ForkRefines(s: State, p: nat, q: nat, boot: nat, need: seq<nat>)
    requires KInv(s) && Callable(s, Fork(p, q, boot, need))
    ensures var (t, ok) := DoFork(s, p, q, boot, need); Refined(s, Fork(p, q, boot, need), t, ok)
  {
    hide Refined, TakeTables, Uvmcopy, DropTables, EagerCopy, Abs, Disjoint, Counted, Exclusive, LeaksOne, Laid, CanCopy;
    var c := Fork(p, q, boot, need);
    var (t, booted) := TakeTables(s, q, boot);
    ChildUnmapped(s, t, p, q);
    var n := NPages(s.sz[p]);
    UvmcopyRefines(t, p, q, n, need);
    var (u, ok) := DoFork(s, p, q, boot, need);
    AbsIgnoresSize(Uvmcopy(t, p, q, n, need).0, s.sz[q := s.sz[p]]);
    RefinedFromPrivate(s, c, u, ok);
  }

  lemma AbsIgnoresSize(s: State, sz: map<nat, nat>)
    requires Inv(s)
    ensures Inv(s.(sz := sz)) && Abs(s.(sz := sz)) == Abs(s)
  {
    hide Disjoint, Counted, Exclusive;
    SameTables(s, s.(sz := sz));
  }

  lemma GrowRefines(s: State, p: nat, n: nat, need: seq<nat>)
    requires KInv(s) && Callable(s, Grow(p, n, need))
    ensures var (t, ok) := DoGrow(s, p, n, need); Refined(s, Grow(p, n, need), t, ok)
  {
    hide Refined, Uvmalloc, ZeroPages, Abs, Disjoint, Counted, Exclusive, LeaksOne, Laid;
    PagesMonotone(s.sz[p], s.sz[p] + n);
    var (u, _) := Uvmalloc(s, p, NPages(s.sz[p]), NPages(s.sz[p] + n), need);
    AbsIgnoresSize(u, s.sz[p := s.sz[p] + n]);
    var (t, ok) := DoGrow(s, p, n, need);
    RefinedFromPrivate(s, Grow(p, n, need), t, ok);
  }

  lemma ShrinkRefines(s: State, p: nat, n: nat)
    requires KInv(s) && p in s.sz
    ensures Refined(s, Shrink(p, n), DoShrink(s, p, n), true)
  {
    hide Refined, UnmapRange, Abs, Disjoint, Counted, Exclusive, LeaksOne, Laid, Slots;
    if n <= s.sz[p] {
      PagesMonotone(s.sz[p] - n, s.sz[p]);
      AbsIgnoresSize(UnmapRange(s, p, NPages(s.sz[p] - n), NPages(s.sz[p])), s.sz[p := s.sz[p] - n]);
    }
    RefinedFromPrivate(s, Shrink(p, n), DoShrink(s, p, n), true);
  }

  lemma FreeRefines(s: State, p: nat)
    requires KInv(s) && p in s.sz
    ensures Refined(s, Free(p), DoFree(s, p), true)
  {
    hide Refined, UnmapRange, DropTables, Abs, Disjoint, Counted, Exclusive, LeaksOne, Laid, Slots;
    AbsIgnoresSize(DropTables(UnmapRange(s, p, 0, NPages(s.sz[p])), p, 0), s.sz - {p});
    RefinedFromPrivate(s, Free(p), DoFree(s, p), true);
  }

  lemma StoreRefines(s: State, p: nat, va: nat, b: int)
    requires KInv(s) && p in s.sz
    ensures var (t, ok) := DoStore(s, p, va, b); Refined(s, Store(p, va, b), t, ok)
  {
    hide Refined, Break, Poke, LeaksOne, Disjoint, Counted, Exclusive, Laid;
    var k := Slot(p, va / PGSIZE);
    var (t, ok) := DoStore(s, p, va, b);
    if k in s.pt && s.pt[k].u && s.pt[k].w {
      PokeKeeps(s, k, va % PGSIZE, b);
      PokeLeavesRest(s, k, va % PGSIZE, b);
    } else if va < MAXVA && k in s.pt && s.pt[k].cow && s.pt[k].u && s.free != [] {
      BreakKeeps(s, k);
      BreakLeavesRest(s, k);
      if va < s.sz[p] {
        PokeKeeps(Break(s, k), k, va % PGSIZE, b);
        PokeLeavesRest(Break(s, k), k, va % PGSIZE, b);
      }
    }
    RefinedFromPrivate(s, Store(p, va, b), t, ok);
  }

  lemma PokeLeavesRest(s: State, k: Slot, off: nat, b: int)
    requires Sizes(s) && k in s.pt && off < PGSIZE
    ensures Poke(s, k, off, b).leak == s.leak && Poke(s, k, off, b).sz == s.sz
  {
  }

  lemma BreakLeavesRest(s: State, k: Slot)
    requires Inv(s) && k in s.pt && s.free != []
    ensures Break(s, k).leak == s.leak && Break(s, k).sz == s.sz
  {
  }

  lemma ExecRefines(s: State, c: Call)
    requires KInv(s) && Callable(s, c)
    ensures var (t, ok) := Exec(s, c); Refined(s, c, t, ok)
  {
    match c
    case Fork(p, q, boot, need) => ForkRefines(s, p, q, boot, need);
    case Grow(p, n, need) => GrowRefines(s, p, n, need);
    case Shrink(p, n) => ShrinkRefines(s, p, n);
    case Store(p, va, b) => StoreRefines(s, p, va, b);
    case Free(p) => FreeRefines(s, p);
  }

  // ---- whole runs ----

  /** One call of a run; a call on a process that does not exist has no effect. */
  ghost function ExecOr(s: State, c: Call): (r: (State, bool))
    requires KInv(s)
    ensures KInv(r.0)
  {
    if Callable(s, c) then ExecRefines(s, c); Exec(s, c) else (s, false)
  }

  ghost function Run(s: State, cs: seq<Call>): (t: State)
    requires KInv(s)
    ensures KInv(t)
    decreases |cs|
  {
    hide KInv, Exec, Callable;
    if cs == [] then s else Run(ExecOr(s, cs[0]).0, cs[1..])
  }

  /** Which calls of the run succeeded. */
  ghost function Outcomes(s: State, cs: seq<Call>): (oks: seq<bool>)
    requires KInv(s)
    ensures |oks| == |cs|
    decreases |cs|
  {
    hide KInv, Exec, Callable;
    if cs == [] then [] else [ExecOr(s, cs[0]).1] + Outcomes(ExecOr(s, cs[0]).0, cs[1..])
  }

  /** The same calls on private memory, given which of them succeed. */
  ghost function SpecRun(v: Private, cs: seq<Call>, oks: seq<bool>): Private
    requires Laid(v) && |oks| == |cs|
    decreases |cs|
  {
    hide Spec;
    if cs == [] then v
    else if oks[0] && SpecCallable(v, cs[0]) then
      SpecLaid(v, cs[0]);
      SpecRun(Spec(v, cs[0]), cs[1..], oks[1..])
    else SpecRun(v, cs[1..], oks[1..])
  }

  /** Copy-on-write fork refines eager-copy fork, over any run of forks, stores, growing and
      shrinking and exits: every process has at the end the bytes, the permissions and the size
      that it would have with private memory. */
  lemma {:induction false} CowRefinesPrivate(s: State, cs: seq<Call>)
    requires KInv(s)
    ensures Laid(PrivateOf(s))
    ensures PrivateOf(Run(s, cs)) == SpecRun(PrivateOf(s), cs, Outcomes(s, cs))
    decreases |cs|
  {
    hide Disjoint, Counted, Exclusive, Layout, Laid, Abs, Exec, Callable, SpecCallable, Spec;
    LayoutIsPrivate(s);
    if cs != [] {
      OneCall(s, cs[0]);
      CowRefinesPrivate(ExecOr(s, cs[0]).0, cs[1..]);
      assert Outcomes(s, cs)[1..] == Outcomes(ExecOr(s, cs[0]).0, cs[1..]);
    }
  }

  lemma OneCall(s: State, c: Call)
    requires KInv(s)
    ensures var (t, ok) := ExecOr(s, c);
            && (ok ==> SpecCallable(PrivateOf(s), c) && PrivateOf(t) == Spec(PrivateOf(s), c))
            && (!ok ==> PrivateOf(t) == PrivateOf(s))
            && (t.leak == s.leak || (c.Fork? && !ok && LeaksOne(s.leak, t.leak)))
  {
    if Callable(s, c) {
      ExecRefines(s, c);
    }
  }

  // ---- what a single access sees ----

  function Load(s: State, p: nat, va: nat): int
    requires Sizes(s)
  {
    var k := Slot(p, va / PGSIZE);
    if k in s.pt && s.pt[k].u && s.pt[k].r then s.frames[s.pt[k].frame][va % PGSIZE] else -1
  }

  function PrivateLoad(v: Private, p: nat, va: nat): int {
    var k := Slot(p, va / PGSIZE);
    if k in v.mem && v.mem[k].u && v.mem[k].r then v.mem[k].data[va % PGSIZE] else -1
  }

  /** After any run a load returns what it would return with private memory. */
  lemma LoadsAgree(s: State, cs: seq<Call>, p: nat, va: nat)
    requires KInv(s)
    ensures Laid(PrivateOf(s))
    ensures Load(Run(s, cs), p, va) == PrivateLoad(SpecRun(PrivateOf(s), cs, Outcomes(s, cs)), p, va)
  {
    CowRefinesPrivate(s, cs);
  }

  /** Exactly when a store that private memory permits goes through: the page is not shared
      copy-on-write, or a frame is free and the address is below p->sz.  (The size test in
      usertrap kills a process that stores between its size and the end of its last page when
      that page is copy-on-write; with private memory the hardware would let it.) */
  lemma StoreExactly(s: State, p: nat, va: nat, b: int)
    requires KInv(s) && p in s.sz
    ensures DoStore(s, p, va, b).1 <==>
      && Permitted(PrivateOf(s), p, va)
      && (s.pt[Slot(p, va / PGSIZE)].w || (s.free != [] && va < s.sz[p]))
  {
  }

  // ---- frame accounting ----

  /** A mapped frame is counted at least once per mapping and is not on the free list; without
      leaks the count is exact.  FrameKinds below treats the other frames. */
  lemma FramesAccounted(s: State, k: Slot)
    requires KInv(s) && k in s.pt
    ensures var f := s.pt[k].frame;
            && f !in s.free
            && s.ref[f] == |Users(s.pt, f)| + s.leak[f] >= 1
            && (s.pt[k].w ==> Users(s.pt, f) == {k})
  {
    var f := s.pt[k].frame;
    assert k in Users(s.pt, f);
    assert s.ref[f] == Expected(s, f);
  }

  /** In every state of a run: a kernel-owned page counts one; a free frame is on the free list once, is
      not in use, and counts nothing; and any other frame has a mapping or a count that is too high. */
  lemma FrameKinds(s: State, cs: seq<Call>, f: nat)
    requires KInv(s) && f < |Run(s, cs).ref|
    ensures var t := Run(s, cs);
      && (f in t.owner ==> f !in t.free && t.ref[f] == 1 && Users(t.pt, f) == {})
      && (f in t.free ==> t.ref[f] <= 0 && f !in t.owner && Users(t.pt, f) == {} && multiset(t.free)[f] == 1)
      && (f !in t.free && f !in t.owner ==> t.ref[f] == |Users(t.pt, f)| + t.leak[f])
  {
    hide Run;
    KindsOf(Run(s, cs), f);
  }

  lemma KindsOf(t: State, f: nat)
    requires Inv(t) && f < |t.ref|
    ensures f in t.owner ==> f !in t.free && t.ref[f] == 1 && Users(t.pt, f) == {}
    ensures f in t.free ==> t.ref[f] <= 0 && f !in t.owner && Users(t.pt, f) == {} && multiset(t.free)[f] == 1
    ensures f !in t.free && f !in t.owner ==> t.ref[f] == |Users(t.pt, f)| + t.leak[f]
  {
    hide Exclusive;
    var count := t.ref[f];
    NoUsers(t.pt, f);
    if f in t.free {
      var i :| 0 <= i < |t.free| && t.free[i] == f;
      OnceInFree(t.free, i);
    }
  }

  lemma OnceInFree(free: seq<nat>, i: nat)
    requires i < |free| && forall j, k :: 0 <= j < k < |free| ==> free[j] != free[k]
    ensures multiset(free)[free[i]] == 1
  {
    assert free == free[..i] + [free[i]] + free[i + 1..];
    assert free[i] !in free[..i] && free[i] !in free[i + 1..];
  }

  ghost predicate ForksSucceed(cs: seq<Call>, oks: seq<bool>)
    requires |oks| == |cs|
  {
    forall i :: 0 <= i < |cs| && cs[i].Fork? ==> oks[i]
  }

  lemma ForksSucceedAfter(cs: seq<Call>, oks: seq<bool>, ok: bool, rest: seq<bool>)
    requires cs != [] && |oks| == |cs| && oks == [ok] + rest && ForksSucceed(cs, oks)
    ensures cs[0].Fork? ==> ok
    ensures ForksSucceed(cs[1..], rest)
  {
  }

  /** Only failed forks leak. */
  lemma {:induction false} OnlyFailedForksLeak(s: State, cs: seq<Call>)
    requires KInv(s) && ForksSucceed(cs, Outcomes(s, cs))
    ensures Run(s, cs).leak == s.leak
    decreases |cs|
  {
    hide KInv, Exec, Callable, Abs, ForksSucceed, SpecCallable, Spec, ExecOr;
    if cs != [] {
      CallKeepsLeak(s, cs[0]);
      var (t, ok) := ExecOr(s, cs[0]);
      ForksSucceedAfter(cs, Outcomes(s, cs), ok, Outcomes(t, cs[1..]));
      OnlyFailedForksLeak(t, cs[1..]);
    }
  }

  lemma CallKeepsLeak(s: State, c: Call)
    requires KInv(s)
    ensures !c.Fork? || ExecOr(s, c).1 ==> ExecOr(s, c).0.leak == s.leak
  {
    OneCall(s, c);
  }
}
