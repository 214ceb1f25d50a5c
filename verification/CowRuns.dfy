/** Runs in which the kernel also writes user memory with copyout, wherever it can spare the other
    processes (CowCopyout.CopyoutExactly; CowLimits.CopyoutEscapes shows what happens where it can not). */
module CowRuns {
  import opened Cow
  import opened CowOps
  import opened CowKernel
  import opened CowCopyout

  datatype Op = Sys(c: Call) | CopyTo(p: nat, va: nat, src: seq<int>)

  ghost predicate Allowed(s: State, op: Op)
    requires KInv(s)
  {
    match op
    case Sys(c) => Callable(s, c)
    case CopyTo(p, va, src) => Spares(s, p, va, |src|)
  }

  lemma PageLeavesRest(s: State, k: Slot, off: nat, bs: seq<int>)
    requires Inv(s) && k in s.pt && off + |bs| <= PGSIZE
    ensures CopyoutPage(s, k, off, bs).sz == s.sz && CopyoutPage(s, k, off, bs).leak == s.leak
  {
    hide Disjoint, Counted, Exclusive;
    if s.pt[k].cow && s.free != [] {
      BreakInv(s, k);
      BreakLeavesRest(s, k);
    }
  }

  lemma {:induction false} CopyoutLeavesRest(s: State, p: nat, va: nat, src: seq<int>)
    requires Inv(s)
    ensures Copyout(s, p, va, src).0.sz == s.sz && Copyout(s, p, va, src).0.leak == s.leak
    decreases |src|
  {
    hide Inv, CopyoutPage, Chunk;
    if src != [] {
      var k, n := Slot(p, va / PGSIZE), Chunk(va, |src|);
      if k in s.pt && s.pt[k].u {
        PageLeavesRest(s, k, va % PGSIZE, src[..n]);
        CopyoutLeavesRest(CopyoutPage(s, k, va % PGSIZE, src[..n]), p, (va / PGSIZE + 1) * PGSIZE, src[n..]);
      }
    }
  }

  /** copyout over private memory: the bytes before the first page that is not mapped for the user. */
  ghost function CopyOver(v: Private, p: nat, va: nat, src: seq<int>): Private {
    Private(Written(v.mem, p, va, src[..Reach(v.mem, p, va, |src|)]), v.sz)
  }

  lemma CopyToRefines(s: State, p: nat, va: nat, src: seq<int>)
    requires KInv(s) && Allowed(s, CopyTo(p, va, src))
    ensures var (t, ok) := Copyout(s, p, va, src);
      && (ok <==> Reach(PrivateOf(s).mem, p, va, |src|) == |src|) && KInv(t) && t.leak == s.leak
      && PrivateOf(t) == CopyOver(PrivateOf(s), p, va, src)
  {
    hide Disjoint, Counted, Exclusive, Copyout, Spares, Layout, Laid, Written, Reach;
    CopyoutWrites(s, p, va, src);
    CopyoutLeavesRest(s, p, va, src);
    LayoutIsPrivate(s);
    LayoutIsPrivate(Copyout(s, p, va, src).0);
    WrittenLaid(PrivateOf(s), p, va, src[..Reach(Abs(s), p, va, |src|)]);
  }

  lemma WrittenLaid(v: Private, p: nat, va: nat, src: seq<int>)
    requires Laid(v)
    ensures Laid(Private(Written(v.mem, p, va, src), v.sz))
  {
  }

  /** One operation of a run and whether it is part of it; one that is not allowed has no effect. */
  ghost function ExecOp(s: State, op: Op): (r: (State, bool))
    requires KInv(s)
    ensures KInv(r.0)
  {
    match op
    case Sys(c) => ExecOr(s, c)
    case CopyTo(p, va, src) =>
      if Allowed(s, op) then CopyToRefines(s, p, va, src); (Copyout(s, p, va, src).0, true) else (s, false)
  }

  ghost function RunOps(s: State, ops: seq<Op>): (t: State)
    requires KInv(s)
    ensures KInv(t)
    decreases |ops|
  {
    hide KInv, ExecOp;
    if ops == [] then s else RunOps(ExecOp(s, ops[0]).0, ops[1..])
  }

  ghost function Fates(s: State, ops: seq<Op>): (oks: seq<bool>)
    requires KInv(s)
    ensures |oks| == |ops|
    decreases |ops|
  {
    hide KInv, ExecOp;
    if ops == [] then [] else [ExecOp(s, ops[0]).1] + Fates(ExecOp(s, ops[0]).0, ops[1..])
  }

  ghost predicate SpecAllowed(v: Private, op: Op) {
    op.Sys? ==> SpecCallable(v, op.c)
  }

  ghost function SpecOp(v: Private, op: Op): (w: Private)
    requires Laid(v) && SpecAllowed(v, op)
    ensures Laid(w)
  {
    match op
    case Sys(c) => SpecLaid(v, c); Spec(v, c)
    case CopyTo(p, va, src) => WrittenLaid(v, p, va, src[..Reach(v.mem, p, va, |src|)]); CopyOver(v, p, va, src)
  }

  ghost function SpecOps(v: Private, ops: seq<Op>, oks: seq<bool>): Private
    requires Laid(v) && |oks| == |ops|
    decreases |ops|
  {
    hide Laid, SpecOp, SpecAllowed;
    if ops == [] then v
    else SpecOps(if oks[0] && SpecAllowed(v, ops[0]) then SpecOp(v, ops[0]) else v, ops[1..], oks[1..])
  }

  lemma OneOp(s: State, op: Op)
    requires KInv(s)
    ensures Laid(PrivateOf(s))
    ensures var (t, ok) := ExecOp(s, op);
      PrivateOf(t) == if ok && SpecAllowed(PrivateOf(s), op) then SpecOp(PrivateOf(s), op) else PrivateOf(s)
  {
    hide Disjoint, Counted, Exclusive, Layout, Laid, Abs, Exec, Callable, SpecCallable, Spec, Copyout, ExecOr, Written, Spares, Reach;
    LayoutIsPrivate(s);
    match op
    case Sys(c) => OneCall(s, c);
    case CopyTo(p, va, src) => if Allowed(s, op) { CopyToRefines(s, p, va, src); }
  }

  /** Copy-on-write fork refines eager-copy fork over any run of system calls, stores and copyouts: every
      process has at the end the bytes, the permissions and the size that it would have with private
      memory. */
  lemma {:induction false} RunRefinesPrivate(s: State, ops: seq<Op>)
    requires KInv(s)
    ensures Laid(PrivateOf(s))
    ensures PrivateOf(RunOps(s, ops)) == SpecOps(PrivateOf(s), ops, Fates(s, ops))
    decreases |ops|
  {
    hide Disjoint, Counted, Exclusive, Layout, Laid, Abs, ExecOp, SpecOp, SpecAllowed;
    OneOp(s, if ops == [] then CopyTo(0, 0, []) else ops[0]);
    if ops != [] {
      RunRefinesPrivate(ExecOp(s, ops[0]).0, ops[1..]);
      assert Fates(s, ops)[1..] == Fates(ExecOp(s, ops[0]).0, ops[1..]);
    }
  }
}
