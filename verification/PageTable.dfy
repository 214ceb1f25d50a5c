/** The three-level page table of vm.c (Sv39, section 4.4 of the RISC-V Privileged Architecture):
    walk, mappages, uvmunmap and freewalk over pages of 512 entries, and the flat map from page
    number to entry that they implement.

    A page number v stands for the addresses v * 4096 .. v * 4096 + 4095; every v < NPAGES is
    below MAXVA.  An entry is its 64-bit value: frame number * 1024 + flags. */
module PageTable {
  const ENTRIES: nat := 512
  const NPAGES: nat := 0x400_0000

  /** Entries of the root table that page numbers below NPAGES can use. */
  const TOP: nat := 256

  type Table = t: seq<nat> | |t| == ENTRIES witness seq(ENTRIES, i => 0)

  /** mem holds the page-table pages by frame number; free is the list that kalloc takes from. */
  datatype State = State(mem: map<nat, Table>, root: nat, free: seq<nat>)

  ghost predicate Distinct(s: seq<nat>) {
    forall i, j :: 0 <= i < j < |s| ==> s[i] != s[j]
  }

  lemma NoneTwice()
    ensures Distinct([]) && forall x :: Distinct([x])
  {
  }

  lemma DistinctConcat(r: seq<nat>, s: seq<nat>)
    requires Distinct(r) && Distinct(s) && forall x :: x in r ==> x !in s
    ensures Distinct(r + s)
  {
    forall i, j | 0 <= i < j < |r + s|
      ensures (r + s)[i] != (r + s)[j]
    {
      if i < |r| <= j {
        assert r[i] in r && s[j - |r|] in s;
      }
    }
  }

  function EmptyTable(): Table { seq(ENTRIES, i => 0) }

  // ---- entries and indices ----

  predicate Valid(e: nat) { e % 2 == 1 }

  function Frame(e: nat): nat { e / 1024 }

  /** Valid and without R, W and X: it points to a lower-level table. */
  predicate Pointer(e: nat) { Valid(e) && e / 2 % 8 == 0 }

  function Px(level: nat, v: nat): (i: nat)
    requires level < 3
    ensures i < ENTRIES
  {
    (if level == 0 then v else if level == 1 then v / 0x200 else v / 0x4_0000) % ENTRIES
  }

  lemma PxDigits(v: nat)
    requires v < NPAGES
    ensures v == (Px(2, v) * 0x200 + Px(1, v)) * 0x200 + Px(0, v)
  {
    assert v / 0x4_0000 == v / 0x200 / 0x200;
  }

  /** Below MAXVA the three indices determine the page. */
  lemma PxInjective(v: nat, w: nat)
    requires v < NPAGES && w < NPAGES
    requires forall l :: 0 <= l < 3 ==> Px(l, v) == Px(l, w)
    ensures v == w
  {
    hide Px;
    PxDigits(v);
    PxDigits(w);
    assert Px(0, v) == Px(0, w) && Px(1, v) == Px(1, w) && Px(2, v) == Px(2, w);
  }

  // ---- the tree ----

  /** Places for tables: the root, and the places that entries of other tables point to. */
  datatype Path = Root | Mid(i: nat) | Low(i: nat, j: nat)

  function Depth(p: Path): nat { match p case Root => 0 case Mid(_) => 1 case Low(_, _) => 2 }

  function Parent(p: Path): Path
    requires !p.Root?
  {
    if p.Mid? then Root else Mid(p.i)
  }

  /** The entry of the parent table that points here. */
  function Last(p: Path): nat
    requires !p.Root?
  {
    if p.Mid? then p.i else p.j
  }

  function Child(p: Path, i: nat): Path
    requires !p.Low?
  {
    if p.Root? then Mid(i) else Low(p.i, i)
  }

  /** What entry i of the table in frame f points to, -1 when it is not valid. */
  function Target(s: State, f: int, i: nat): int {
    if f in s.mem && i < ENTRIES && Valid(s.mem[f][i]) then Frame(s.mem[f][i]) else -1
  }

  /** The frame of the table at a place, -1 for none. */
  function At(s: State, p: Path): int
    decreases Depth(p)
  {
    if p.Root? then s.root else Target(s, At(s, Parent(p)), Last(p))
  }

  /** An entry of a table at p is 0, or points to a table with no flag but PTE_V, or, at the lowest
      level, is a leaf. */
  predicate Fits(p: Path, e: nat) {
    e == 0 || (Valid(e) && if p.Low? then !Pointer(e) else e % 1024 == 1)
  }

  lemma FitsKind(p: Path, e: nat)
    requires Fits(p, e) && Valid(e)
    ensures Pointer(e) == !p.Low?
  {
  }

  ghost predicate Kinds(s: State) {
    && (forall p, i :: At(s, p) in s.mem && 0 <= i < ENTRIES ==> Fits(p, s.mem[At(s, p)][i]))
  }

  /** Every table is at exactly one place, every valid entry above the lowest level points to a
      table and no entry of the lowest level does; free pages are distinct and no tables. */
  ghost predicate Wf(s: State) {
    && (forall p :: At(s, p) != -1 ==> At(s, p) in s.mem)
    && (forall p, q :: At(s, p) == At(s, q) != -1 ==> p == q)
    && (forall f :: f in s.mem ==> exists p :: At(s, p) == f)
    && Kinds(s)
    && (forall i: nat :: At(s, Mid(i)) != -1 ==> i < TOP)
    && (forall i :: 0 <= i < |s.free| ==> s.free[i] !in s.mem)
    && (Distinct(s.free))
  }

  function LowOf(v: nat): Path { Low(Px(2, v), Px(1, v)) }

  /** The entry that translation of page v ends at, 0 when the walk does not get there. */
  function EntryOf(s: State, v: nat): nat {
    var f := At(s, LowOf(v));
    if f in s.mem then s.mem[f][Px(0, v)] else 0
  }

  /** The mapping that the tree stands for. */
  function Flat(s: State): map<nat, nat> {
    map v: nat | v < NPAGES && Valid(EntryOf(s, v)) :: EntryOf(s, v)
  }

  // ---- the steps that the operations take ----

  /** walk's kalloc of a zeroed table for entry i of the table in frame f. */
  function AddTable(s: State, f: nat, i: nat): State
    requires f in s.mem && i < ENTRIES && s.free != []
  {
    var c := s.free[0];
    State(s.mem[f := s.mem[f][i := c * 1024 + 1]][c := EmptyTable()], s.root, s.free[1..])
  }

  /** An entry of a lowest-level table is written. */
  function SetEntry(s: State, f: nat, i: nat, e: nat): State
    requires f in s.mem && i < ENTRIES
  {
    State(s.mem[f := s.mem[f][i := e]], s.root, s.free)
  }

  lemma PathsDiffer(s: State, p: Path, q: Path)
    requires Wf(s) && p != q && At(s, p) != -1
    ensures At(s, q) != At(s, p)
  {
  }

  lemma {:induction false} AddTableAt(s: State, p: Path, i: nat, q: Path)
    requires Wf(s) && !p.Low? && At(s, p) != -1 && i < ENTRIES && s.free != []
    requires At(s, p) in s.mem && !Valid(s.mem[At(s, p)][i])
    ensures At(AddTable(s, At(s, p), i), q) == if q == Child(p, i) then s.free[0] else At(s, q)
    decreases Depth(q)
  {
    if !q.Root? {
      var r := Parent(q);
      AddTableAt(s, p, i, r);
      TableInMem(s, r);
      FreshTable(s);
      if r != p && At(s, r) != -1 { PathsDiffer(s, p, r); }
    }
  }

  lemma TableInMem(s: State, p: Path)
    requires Wf(s)
    ensures At(s, p) == -1 || At(s, p) in s.mem
  {
  }

  lemma FreshTable(s: State)
    requires Wf(s) && s.free != []
    ensures s.free[0] !in s.mem
    ensures Valid(s.free[0] * 1024 + 1) && Pointer(s.free[0] * 1024 + 1) && Frame(s.free[0] * 1024 + 1) == s.free[0]
  {
    hide Wf, At;
    FirstFree(s);
    PointerTo(s.free[0]);
  }

  lemma FirstFree(s: State)
    requires Wf(s) && s.free != []
    ensures s.free[0] !in s.mem
  {
  }

  lemma PointerTo(f: nat)
    ensures Valid(f * 1024 + 1) && Pointer(f * 1024 + 1) && Frame(f * 1024 + 1) == f
  {
  }

  // ---- a new table changes no mapping ----

  function Pages(s: State): set<nat> {
    s.mem.Keys + set f | f in s.free
  }

  lemma FreeTail(free: seq<nat>)
    requires free != [] && Distinct(free)
    ensures (set f | f in free) == {free[0]} + set f | f in free[1..]
    ensures free[0] !in free[1..]
  {
  }

  ghost predicate CanAdd(s: State, p: Path, i: nat) {
    && Wf(s) && !p.Low? && At(s, p) in s.mem && i < ENTRIES && s.free != []
    && !Valid(s.mem[At(s, p)][i]) && (p.Root? ==> i < TOP)
  }

  lemma AddTablePaths(s: State, p: Path, i: nat, q: Path, r: Path)
    requires CanAdd(s, p, i)
    ensures var t := AddTable(s, At(s, p), i);
      && (At(t, q) != -1 ==> At(t, q) in t.mem)
      && (At(t, q) == At(t, r) != -1 ==> q == r)
  {
    AddTableAt(s, p, i, q);
    AddTableAt(s, p, i, r);
    TableInMem(s, q);
    TableInMem(s, r);
    FreshTable(s);
  }

  lemma AddTableKinds(s: State, p: Path, i: nat, q: Path, k: nat)
    requires CanAdd(s, p, i) && k < ENTRIES
    requires var t := AddTable(s, At(s, p), i); At(t, q) in t.mem
    ensures var t := AddTable(s, At(s, p), i); Fits(q, t.mem[At(t, q)][k])
  {
    AddTableAt(s, p, i, q);
    FreshTable(s);
    TableInMem(s, q);
    if q != p && At(s, q) != -1 { PathsDiffer(s, p, q); }
  }

  lemma AddTableCovers(s: State, p: Path, i: nat, f: nat)
    requires CanAdd(s, p, i) && f in AddTable(s, At(s, p), i).mem
    ensures exists q :: At(AddTable(s, At(s, p), i), q) == f
  {
    if f == s.free[0] {
      AddTableAt(s, p, i, Child(p, i));
    } else {
      var q :| At(s, q) == f;
      AddTableAt(s, p, i, q);
      ChildEmpty(s, p, i);
    }
  }

  lemma ChildEmpty(s: State, p: Path, i: nat)
    requires !p.Low? && At(s, p) in s.mem && i < ENTRIES && !Valid(s.mem[At(s, p)][i])
    ensures At(s, Child(p, i)) == -1
  {
  }

  lemma AddTableKeeps(s: State, p: Path, i: nat)
    requires CanAdd(s, p, i)
    ensures Wf(AddTable(s, At(s, p), i))
    ensures Pages(AddTable(s, At(s, p), i)) == Pages(s)
    ensures At(AddTable(s, At(s, p), i), Child(p, i)) == s.free[0]
  {
    hide At, Fits, Frame, Valid;
    var t := AddTable(s, At(s, p), i);
    FreeTail(s.free);
    forall q, r
      ensures At(t, q) != -1 ==> At(t, q) in t.mem
      ensures At(t, q) == At(t, r) != -1 ==> q == r
    {
      AddTablePaths(s, p, i, q, r);
    }
    forall q, k | At(t, q) in t.mem && 0 <= k < ENTRIES
      ensures Fits(q, t.mem[At(t, q)][k])
    {
      AddTableKinds(s, p, i, q, k);
    }
    forall f | f in t.mem
      ensures exists q :: At(t, q) == f
    {
      AddTableCovers(s, p, i, f);
    }
    forall k: nat | At(t, Mid(k)) != -1
      ensures k < TOP
    {
      AddTableAt(s, p, i, Mid(k));
    }
    AddTableAt(s, p, i, Child(p, i));
  }

  /** A walk that allocates changes no mapping. */
  lemma AddTableFlat(s: State, p: Path, i: nat)
    requires CanAdd(s, p, i)
    ensures Flat(AddTable(s, At(s, p), i)) == Flat(s)
  {
    hide At, Valid;
    var t := AddTable(s, At(s, p), i);
    forall v: nat | v < NPAGES
      ensures Valid(EntryOf(t, v)) == Valid(EntryOf(s, v))
      ensures Valid(EntryOf(t, v)) ==> EntryOf(t, v) == EntryOf(s, v)
    {
      AddTableEntry(s, p, i, v);
    }
  }

  lemma AddTableEntry(s: State, p: Path, i: nat, v: nat)
    requires CanAdd(s, p, i) && v < NPAGES
    ensures EntryOf(AddTable(s, At(s, p), i), v) == EntryOf(s, v)
  {
    hide At;
    var q := LowOf(v);
    AddTableAt(s, p, i, q);
    TableInMem(s, q);
    FreshTable(s);
    ChildEmpty(s, p, i);
    if At(s, q) != -1 { PathsDiffer(s, p, q); }
  }

  // ---- a lowest-level entry is one mapping ----

  lemma {:induction false} SetEntryAt(s: State, p: Path, i: nat, e: nat, q: Path)
    requires Wf(s) && p.Low? && At(s, p) in s.mem && i < ENTRIES
    ensures At(SetEntry(s, At(s, p), i, e), q) == At(s, q)
    decreases Depth(q)
  {
    if !q.Root? {
      var r := Parent(q);
      SetEntryAt(s, p, i, e, r);
      if At(s, r) != -1 { PathsDiffer(s, p, r); }
    }
  }

  lemma SetEntryKinds(s: State, p: Path, i: nat, e: nat)
    requires Wf(s) && p.Low? && At(s, p) in s.mem && i < ENTRIES && Fits(p, e)
    requires forall q :: At(SetEntry(s, At(s, p), i, e), q) == At(s, q)
    ensures Kinds(SetEntry(s, At(s, p), i, e))
  {
    hide At, Fits;
    var t := SetEntry(s, At(s, p), i, e);
    forall q, k | At(t, q) in t.mem && 0 <= k < ENTRIES
      ensures Fits(q, t.mem[At(t, q)][k])
    {
      if q != p { PathsDiffer(s, p, q); }
    }
  }

  lemma SetEntryKeeps(s: State, p: Path, i: nat, e: nat)
    requires Wf(s) && p.Low? && At(s, p) in s.mem && i < ENTRIES && Fits(p, e)
    ensures Wf(SetEntry(s, At(s, p), i, e))
    ensures Pages(SetEntry(s, At(s, p), i, e)) == Pages(s)
  {
    hide At, Fits, Kinds;
    var t := SetEntry(s, At(s, p), i, e);
    forall q
      ensures At(t, q) == At(s, q)
    {
      SetEntryAt(s, p, i, e, q);
    }
    SetEntryKinds(s, p, i, e);
  }

  lemma SetEntryOf(s: State, v: nat, e: nat, w: nat)
    requires Wf(s) && v < NPAGES && w < NPAGES && At(s, LowOf(v)) in s.mem
    ensures EntryOf(SetEntry(s, At(s, LowOf(v)), Px(0, v), e), w) == if w == v then e else EntryOf(s, w)
  {
    hide At, Px;
    SetEntryAt(s, LowOf(v), Px(0, v), e, LowOf(w));
    if w != v {
      IndicesDiffer(v, w);
      if LowOf(v) != LowOf(w) { PathsDiffer(s, LowOf(v), LowOf(w)); }
    }
  }

  lemma IndicesDiffer(v: nat, w: nat)
    requires v < NPAGES && w < NPAGES && v != w
    ensures LowOf(v) != LowOf(w) || Px(0, v) != Px(0, w)
  {
    if LowOf(v) == LowOf(w) && Px(0, v) == Px(0, w) {
      PxInjective(v, w);
    }
  }

  lemma SetEntryFlat(s: State, v: nat, e: nat)
    requires Wf(s) && v < NPAGES && At(s, LowOf(v)) in s.mem
    ensures Flat(SetEntry(s, At(s, LowOf(v)), Px(0, v), e)) == if Valid(e) then Flat(s)[v := e] else Flat(s) - {v}
  {
    hide At, Px, EntryOf, Valid;
    forall w: nat | w < NPAGES
      ensures EntryOf(SetEntry(s, At(s, LowOf(v)), Px(0, v), e), w) == if w == v then e else EntryOf(s, w)
    {
      SetEntryOf(s, v, e, w);
    }
  }

  // ---- walks ----

  /** The place that walk stands at when it has gone down d levels. */
  function PathTo(v: nat, d: nat): Path
    requires d <= 2
  {
    if d == 0 then Root else if d == 1 then Mid(Px(2, v)) else LowOf(v)
  }

  /** The tables that a walk for page v does not find. */
  function Missing(s: State, v: nat): nat {
    if At(s, Mid(Px(2, v))) == -1 then 2 else if At(s, LowOf(v)) == -1 then 1 else 0
  }

  lemma TopBound(v: nat)
    requires v < NPAGES
    ensures Px(2, v) < TOP
  {
  }

  /** One level down where the entry is valid. */
  lemma WalkDown(s: State, v: nat, d: nat)
    requires Wf(s) && v < NPAGES && d < 2 && At(s, PathTo(v, d)) in s.mem
    ensures At(s, PathTo(v, d + 1)) == Target(s, At(s, PathTo(v, d)), Px(2 - d, v))
    ensures At(s, PathTo(v, d + 1)) == -1 || At(s, PathTo(v, d + 1)) in s.mem
    ensures At(s, PathTo(v, d + 1)) == -1 ==> Missing(s, v) == 2 - d && At(s, LowOf(v)) == -1
    ensures PathTo(v, d + 1) == Child(PathTo(v, d), Px(2 - d, v))
    ensures Valid(s.mem[At(s, PathTo(v, d))][Px(2 - d, v)]) <==> At(s, PathTo(v, d + 1)) != -1
  {
    hide Px;
  }

  /** One level down where a table has to be added. */
  lemma WalkAdds(s: State, v: nat, d: nat)
    requires Wf(s) && v < NPAGES && d < 2 && At(s, PathTo(v, d)) in s.mem && s.free != []
    requires !Valid(s.mem[At(s, PathTo(v, d))][Px(2 - d, v)])
    ensures var t := AddTable(s, At(s, PathTo(v, d)), Px(2 - d, v));
      && Wf(t) && Flat(t) == Flat(s) && Pages(t) == Pages(s)
      && At(t, PathTo(v, d + 1)) == s.free[0] && s.free[0] in t.mem
      && Missing(t, v) + 1 == Missing(s, v)
  {
    hide Px, Wf, Flat, Pages, At, Valid;
    var p, i := PathTo(v, d), Px(2 - d, v);
    TopBound(v);
    AddTableKeeps(s, p, i);
    AddTableFlat(s, p, i);
    AddTableAt(s, p, i, Mid(Px(2, v)));
    AddTableAt(s, p, i, LowOf(v));
    WalkDown(s, v, d);
    RootNotMissing(s, v, d);
  }

  lemma RootNotMissing(s: State, v: nat, d: nat)
    requires Wf(s) && d < 2 && At(s, PathTo(v, d)) in s.mem
    ensures d == 1 ==> At(s, Mid(Px(2, v))) != -1
  {
  }

  predicate AtLeast(w: nat, v: nat) { v <= w }

  function Range(v: nat, n: nat): set<nat> {
    set w: nat | w < v + n && AtLeast(w, v)
  }

  function Leaf(frame: nat, perm: nat): nat { frame * 1024 + perm + 1 }

  lemma LeafIsLeaf(frame: nat, perm: nat)
    requires perm < 1024 && perm % 2 == 0 && perm / 2 % 8 != 0
    ensures Valid(Leaf(frame, perm)) && !Pointer(Leaf(frame, perm)) && Frame(Leaf(frame, perm)) == frame
    ensures Leaf(frame, perm) / 1024 == frame && Leaf(frame, perm) % 1024 == perm + 1
  {
    assert Leaf(frame, perm) / 2 == frame * 512 + perm / 2;
  }

  /** m with the n pages from v mapped to consecutive frames. */
  function MapRange(m: map<nat, nat>, v: nat, n: nat, frame: nat, perm: nat): map<nat, nat> {
    map w | w in m.Keys + Range(v, n) :: if v <= w < v + n then Leaf(frame + (w - v), perm) else m[w]
  }

  /** The n pages from v on are mapped to the frames from frame on, with exactly PTE_V and the bits of
      perm. */
  ghost predicate MapsTo(m: map<nat, nat>, v: nat, n: nat, frame: nat, perm: nat) {
    forall w {:trigger w in m} {:trigger m[w]} :: v <= w < v + n ==> w in m && m[w] / 1024 == frame + (w - v) && m[w] % 1024 == perm + 1
  }

  lemma MapRangeBits(m: map<nat, nat>, v: nat, n: nat, frame: nat, perm: nat)
    requires perm < 1024 && perm % 2 == 0 && perm / 2 % 8 != 0
    ensures MapsTo(MapRange(m, v, n, frame, perm), v, n, frame, perm)
    ensures MapRange(m, v, n, frame, perm) - Range(v, n) == m - Range(v, n)
  {
    hide Leaf, Frame;
    forall w | v <= w < v + n
      ensures w in MapRange(m, v, n, frame, perm)
      ensures MapRange(m, v, n, frame, perm)[w] / 1024 == frame + (w - v)
      ensures MapRange(m, v, n, frame, perm)[w] % 1024 == perm + 1
    {
      LeafIsLeaf(frame + (w - v), perm);
      assert w in Range(v, n);
    }
  }

  lemma MapRangeMore(m: map<nat, nat>, v: nat, n: nat, frame: nat, perm: nat)
    ensures MapRange(m, v, n, frame, perm)[v + n := Leaf(frame + n, perm)] == MapRange(m, v, n + 1, frame, perm)
    ensures v + n in MapRange(m, v, n, frame, perm) <==> v + n in m
    ensures MapRange(m, v, 0, frame, perm) == m
  {
  }

  lemma UnmapMore(m: map<nat, nat>, v: nat, n: nat)
    ensures m - Range(v, n) - {v + n} == m - Range(v, n + 1)
    ensures v + n in m - Range(v, n) <==> v + n in m
    ensures v + n in m ==> (m - Range(v, n))[v + n] == m[v + n]
    ensures v + n in m && Range(v, n) <= m.Keys ==> Range(v, n + 1) <= m.Keys
    ensures m - Range(v, 0) == m && Range(v, 0) == {}
  {
    assert Range(v, n + 1) == Range(v, n) + {v + n};
  }

  // ---- freewalk ----

  predicate Under(p: Path, q: Path) {
    match p
    case Root => true
    case Mid(i) => q == p || (q.Low? && q.i == i)
    case Low(_, _) => q == p
  }

  ghost predicate InSubtree(s: State, p: Path, f: nat) {
    exists q :: Under(p, q) && At(s, q) == f
  }

  /** The tables from a place down. */
  ghost function Subtree(s: State, p: Path): set<nat> {
    set f | f in s.mem && InSubtree(s, p, f)
  }

  ghost predicate InKids(s: State, p: Path, n: nat, f: nat)
    requires !p.Low?
  {
    exists i: nat, q :: i < n && Under(Child(p, i), q) && At(s, q) == f
  }

  /** The tables under the first n entries of a table. */
  ghost function Kids(s: State, p: Path, n: nat): set<nat> {
    if p.Low? then {} else set f | f in s.mem && InKids(s, p, n, f)
  }

  lemma KidsMore(s: State, p: Path, n: nat)
    requires Wf(s) && !p.Low?
    ensures Kids(s, p, n + 1) == Kids(s, p, n) + Subtree(s, Child(p, n))
    ensures Kids(s, p, n) !! Subtree(s, Child(p, n))
    ensures Kids(s, p, 0) == {}
  {
    hide At;
    forall f | f in Kids(s, p, n + 1)
      ensures f in Kids(s, p, n) || f in Subtree(s, Child(p, n))
    {
      var i: nat, q :| 0 <= i < n + 1 && Under(Child(p, i), q) && At(s, q) == f;
      if i < n {
        assert InKids(s, p, n, f);
      } else {
        assert InSubtree(s, Child(p, n), f);
      }
    }
    forall f | f in Subtree(s, Child(p, n))
      ensures f in Kids(s, p, n + 1) && f !in Kids(s, p, n)
    {
      var q :| Under(Child(p, n), q) && At(s, q) == f;
      assert InKids(s, p, n + 1, f);
    }
    forall f | f in Kids(s, p, n)
      ensures f in Kids(s, p, n + 1)
    {
      var i: nat, q :| 0 <= i < n && Under(Child(p, i), q) && At(s, q) == f;
      assert InKids(s, p, n + 1, f);
    }
  }

  lemma SubtreeIsKids(s: State, p: Path)
    requires Wf(s) && At(s, p) in s.mem
    ensures Subtree(s, p) == Kids(s, p, ENTRIES) + {At(s, p)}
    ensures At(s, p) !in Kids(s, p, ENTRIES)
  {
    assert At(s, p) in Subtree(s, p) by { assert Under(p, p); assert InSubtree(s, p, At(s, p)); }
    forall f | f in Subtree(s, p) && f != At(s, p)
      ensures f in Kids(s, p, ENTRIES)
    {
      var q :| Under(p, q) && At(s, q) == f;
      var i := if p.Root? then q.i else q.j;
      assert Under(Child(p, i), q);
      PathBounds(s, q);
      assert InKids(s, p, ENTRIES, f);
    }
    hide At;
    if !p.Low? {
      forall f | f in Kids(s, p, ENTRIES)
        ensures f in Subtree(s, p) && f != At(s, p)
      {
        var i: nat, q :| 0 <= i < ENTRIES && Under(Child(p, i), q) && At(s, q) == f;
        assert Under(p, q) && q != p;
        assert InSubtree(s, p, f);
      }
    }
  }

  lemma PathBounds(s: State, q: Path)
    requires Wf(s) && At(s, q) != -1
    ensures !q.Root? ==> q.i < ENTRIES
    ensures q.Low? ==> q.j < ENTRIES
  {
  }

  lemma NoSubtree(s: State, p: Path)
    requires Wf(s) && At(s, p) == -1
    ensures Subtree(s, p) == {}
  {
    forall q: Path | Under(p, q)
      ensures At(s, q) == -1
    {
    }
  }

  predicate LeafAt(s: State, p: Path, k: nat) {
    p.Low? && At(s, p) in s.mem && k < ENTRIES && Valid(s.mem[At(s, p)][k])
  }

  /** All leaf mappings from a place down have been removed. */
  ghost predicate Leafless(s: State, p: Path) {
    forall q: Path, k: nat {:trigger LeafAt(s, q, k)} :: Under(p, q) ==> !LeafAt(s, q, k)
  }

  /** No leaf in or under the first n entries of the table at p. */
  ghost predicate LeaflessTo(s: State, p: Path, n: nat) {
    if p.Low? then forall k: nat :: k < n ==> !LeafAt(s, p, k)
    else forall i: nat {:trigger Child(p, i)} :: i < n ==> Leafless(s, Child(p, i))
  }

  lemma LeaflessWhole(s: State, p: Path)
    requires Wf(s)
    ensures Leafless(s, p) <==> LeaflessTo(s, p, ENTRIES)
    ensures LeaflessTo(s, p, 0)
    ensures !p.Low? && Leafless(s, p) ==> forall i: nat {:trigger Child(p, i)} :: Leafless(s, Child(p, i))
  {
    if !p.Low? && LeaflessTo(s, p, ENTRIES) {
      forall q: Path, k: nat | Under(p, q) && LeafAt(s, q, k)
        ensures false
      {
        PathBounds(s, q);
        assert Under(Child(p, if p.Root? then q.i else q.j), q);
      }
    }
    if !p.Low? && Leafless(s, p) {
      forall i: nat, q: Path | Under(Child(p, i), q)
        ensures Under(p, q)
      {
      }
    }
  }

  lemma LeaflessStep(s: State, p: Path, i: nat)
    requires Wf(s) && At(s, p) in s.mem && i < ENTRIES && LeaflessTo(s, p, i)
    ensures var e := s.mem[At(s, p)][i];
      && (Valid(e) && Pointer(e) ==> !p.Low? && (Leafless(s, Child(p, i)) ==> LeaflessTo(s, p, i + 1)))
      && (Valid(e) && Pointer(e) && Leafless(s, p) ==> Leafless(s, Child(p, i)))
      && (Valid(e) && !Pointer(e) ==> !Leafless(s, p))
      && (!Valid(e) ==> LeaflessTo(s, p, i + 1))
  {
    hide Wf, At, Leafless, Valid, Pointer;
    LeaflessWhole(s, p);
    KindOf(s, p, i);
    if p.Low? {
      LeaflessLow(s, p, i);
    } else if !Valid(s.mem[At(s, p)][i]) {
      NoTablesUnder(s, p, i);
    }
  }

  lemma EntryFits(s: State, p: Path, i: nat)
    requires Wf(s) && At(s, p) in s.mem && i < ENTRIES
    ensures Fits(p, s.mem[At(s, p)][i])
  {
    hide At, Fits;
  }

  lemma KindOf(s: State, p: Path, i: nat)
    requires Wf(s) && At(s, p) in s.mem && i < ENTRIES
    ensures Valid(s.mem[At(s, p)][i]) ==> Pointer(s.mem[At(s, p)][i]) == !p.Low?
  {
    hide Wf, At, Fits, Valid, Pointer;
    EntryFits(s, p, i);
    if Valid(s.mem[At(s, p)][i]) { FitsKind(p, s.mem[At(s, p)][i]); }
  }

  lemma LeaflessLow(s: State, p: Path, i: nat)
    requires p.Low? && At(s, p) in s.mem && i < ENTRIES
    ensures LeafAt(s, p, i) <==> Valid(s.mem[At(s, p)][i])
    ensures LeafAt(s, p, i) ==> !Leafless(s, p)
  {
    assert Under(p, p);
  }

  lemma NoTablesUnder(s: State, p: Path, i: nat)
    requires Wf(s) && !p.Low? && At(s, p) in s.mem && i < ENTRIES && !Valid(s.mem[At(s, p)][i])
    ensures Leafless(s, Child(p, i))
  {
    hide Wf;
    assert At(s, Child(p, i)) == -1;
    forall q: Path | Under(Child(p, i), q)
      ensures At(s, q) == -1
    {
    }
  }

  lemma LeaflessIsEmpty(s: State)
    requires Wf(s)
    ensures Leafless(s, Root) <==> Flat(s) == map[]
  {
    if Flat(s) == map[] {
      forall p: Path, k: nat | p.Low? && At(s, p) in s.mem && k < ENTRIES
        ensures !LeafAt(s, p, k)
      {
        PathBounds(s, p);
        assert At(s, Mid(p.i)) != -1;
        var v := PageAt(p.i, p.j, k);
        assert LowOf(v) == p;
        assert v !in Flat(s);
      }
    }
    if Leafless(s, Root) {
      forall v | v in Flat(s)
        ensures false
      {
        assert Under(Root, LowOf(v)) && LeafAt(s, LowOf(v), Px(0, v));
      }
    }
  }

  /** Every place below TOP is reached by a page number. */
  lemma PageAt(i: nat, j: nat, k: nat) returns (v: nat)
    requires i < TOP && j < ENTRIES && k < ENTRIES
    ensures v < NPAGES && LowOf(v) == Low(i, j) && Px(0, v) == k
  {
    v := i * 0x4_0000 + j * 0x200 + k;
    assert v / 0x200 == i * 0x200 + j;
    assert v / 0x4_0000 == i;
  }

  // ---- how many tables a copy of an address space needs ----

  /** The tables of t are those of s and those on the first d steps of the way to page v. */
  ghost predicate Reached(s: State, t: State, v: nat, d: nat)
    requires d <= 2
  {
    forall p: Path {:trigger At(t, p)} ::
      At(t, p) != -1 <==> At(s, p) != -1 || (d >= 1 && p == Mid(Px(2, v))) || (d == 2 && p == LowOf(v))
  }

  lemma ReachedNothing(s: State, v: nat)
    ensures Reached(s, s, v, 0)
  {
    hide At;
  }

  lemma ReachedOn(s: State, t: State, v: nat, d: nat)
    requires d < 2 && Reached(s, t, v, d) && At(t, PathTo(v, d + 1)) != -1
    ensures Reached(s, t, v, d + 1)
  {
    hide At, Px;
  }

  /** Writing a lowest-level entry adds and removes no table. */
  lemma SetEntryReached(s: State, t: State, p: Path, i: nat, e: nat, v: nat)
    requires Wf(t) && p.Low? && At(t, p) in t.mem && i < ENTRIES && !Pointer(e) && Reached(s, t, v, 2)
    ensures Reached(s, SetEntry(t, At(t, p), i, e), v, 2)
  {
    hide At, Px, Wf, Pointer, SetEntry;
    forall q: Path
      ensures At(SetEntry(t, At(t, p), i, e), q) == At(t, q)
    {
      SetEntryAt(t, p, i, e, q);
    }
  }

  lemma ReachedAdds(s: State, t: State, v: nat, d: nat)
    requires Wf(t) && v < NPAGES && d < 2 && At(t, PathTo(v, d)) in t.mem && t.free != []
    requires !Valid(t.mem[At(t, PathTo(v, d))][Px(2 - d, v)]) && Reached(s, t, v, d)
    ensures Reached(s, AddTable(t, At(t, PathTo(v, d)), Px(2 - d, v)), v, d + 1)
  {
    hide At, Px, Wf, Valid, AddTable;
    var p, i := PathTo(v, d), Px(2 - d, v);
    forall q: Path
      ensures At(AddTable(t, At(t, p), i), q) == if q == Child(p, i) then t.free[0] else At(t, q)
    {
      AddTableAt(t, p, i, q);
    }
  }

  /** The tables are those that proc_pagetable makes for the two top pages, and those on the way to
      a page below v. */
  ghost predicate Dense(s: State, v: nat) {
    forall w {:trigger LowOf(w)} {:trigger Mid(Px(2, w))} :: 0 <= w < NPAGES ==>
      && (At(s, Mid(Px(2, w))) != -1 <==> w / 0x4_0000 == TOP - 1 || w / 0x4_0000 * 0x4_0000 < v)
      && (At(s, LowOf(w)) != -1 <==> w / 0x200 == NPAGES / 0x200 - 1 || w / 0x200 * 0x200 < v)
  }

  /** The tables that are missing for page v when all pages below it are mapped. */
  function NeedAt(v: nat): nat {
    if v % 0x200 != 0 || v / 0x200 == NPAGES / 0x200 - 1 then 0
    else if v % 0x4_0000 != 0 || v / 0x4_0000 == TOP - 1 then 1
    else 2
  }

  lemma StartsBlocks(v: nat, w: nat)
    ensures w / 0x200 * 0x200 < v + 1 <==> w / 0x200 * 0x200 < v || w / 0x200 == v / 0x200
    ensures w / 0x4_0000 * 0x4_0000 < v + 1 <==> w / 0x4_0000 * 0x4_0000 < v || w / 0x4_0000 == v / 0x4_0000
  {
  }

  lemma DenseNeeds(s: State, v: nat)
    requires Dense(s, v) && v < NPAGES
    ensures Missing(s, v) == NeedAt(v)
  {
    hide At, Px;
    assert LowOf(v) == LowOf(v);
    assert v / 0x200 * 0x200 < v <==> v % 0x200 != 0;
    assert v / 0x4_0000 * 0x4_0000 < v <==> v % 0x4_0000 != 0;
    assert v % 0x4_0000 == 0 ==> v % 0x200 == 0;
  }

  lemma SamePlaces(v: nat, w: nat)
    requires v < NPAGES && w < NPAGES
    ensures Px(2, v) == Px(2, w) <==> v / 0x4_0000 == w / 0x4_0000
    ensures LowOf(v) == LowOf(w) <==> v / 0x200 == w / 0x200
  {
    PxDigits(v);
    PxDigits(w);
    assert v / 0x4_0000 == v / 0x200 / 0x200 && w / 0x4_0000 == w / 0x200 / 0x200;
  }

  lemma DenseGoesOn(s: State, t: State, v: nat)
    requires Dense(s, v) && v < NPAGES && Reached(s, t, v, 2)
    ensures Dense(t, v + 1)
  {
    hide At, Px;
    forall w {:trigger LowOf(w)} {:trigger Mid(Px(2, w))} | 0 <= w < NPAGES
      ensures At(t, Mid(Px(2, w))) != -1 <==> w / 0x4_0000 == TOP - 1 || w / 0x4_0000 * 0x4_0000 < v + 1
      ensures At(t, LowOf(w)) != -1 <==> w / 0x200 == NPAGES / 0x200 - 1 || w / 0x200 * 0x200 < v + 1
    {
      SamePlaces(v, w);
      StartsBlocks(v, w);
    }
  }

  /** proc_pagetable: two tables for the trampoline page, none for the trapframe page below it. */
  lemma NewTable(s: State, t: State, u: State)
    requires s.mem == map[s.root := EmptyTable()]
    requires Reached(s, t, NPAGES - 1, 2) && Reached(t, u, NPAGES - 2, 2)
    ensures Missing(s, NPAGES - 1) == 2 && Missing(t, NPAGES - 2) == 0 && Dense(u, 0)
  {
    forall p: Path
      ensures At(s, p) != -1 <==> p.Root?
    {
      if p.Low? { assert At(s, Mid(p.i)) == -1; }
    }
    hide At, Px;
    SamePlaces(NPAGES - 1, NPAGES - 2);
    forall w {:trigger LowOf(w)} {:trigger Mid(Px(2, w))} | 0 <= w < NPAGES
      ensures At(u, Mid(Px(2, w))) != -1 <==> w / 0x4_0000 == TOP - 1
      ensures At(u, LowOf(w)) != -1 <==> w / 0x200 == NPAGES / 0x200 - 1
    {
      SamePlaces(NPAGES - 1, w);
    }
  }

  /** Mapping the n pages from lo on, in order, in a table in which all pages below lo have been mapped
      since proc_pagetable made it: page v needs NeedAt(v) page-table pages. */
  lemma {:induction false} MapNeeds(ss: seq<State>, lo: nat, n: nat)
    requires |ss| > n && lo + n <= NPAGES && Dense(ss[0], lo)
    requires forall i {:trigger ss[i]} :: 0 <= i < n ==> Reached(ss[i], ss[i + 1], lo + i, 2)
    ensures Dense(ss[n], lo + n)
    ensures forall i {:trigger ss[i]} :: 0 <= i < n ==> Missing(ss[i], lo + i) == NeedAt(lo + i)
  {
    hide Dense, Missing, NeedAt, Reached;
    if n > 0 {
      MapNeeds(ss, lo, n - 1);
      assert Reached(ss[n - 1], ss[n - 1 + 1], lo + (n - 1), 2);
      DenseNeeds(ss[n - 1], lo + (n - 1));
      DenseGoesOn(ss[n - 1], ss[n], lo + (n - 1));
    }
  }

  // ---- the code ----

  datatype WalkResult = WalkPanic | Null | Entry(frame: nat, index: nat)
  datatype MapResult = Mapped | NoMemory | MapPanic
  datatype UnmapResult = Unmapped | UnmapPanic

  class PageTable {
    var mem: map<nat, Table>
    var root: nat
    var free: seq<nat>

    ghost function Abstract(): State
      reads this
    {
      State(mem, root, free)
    }

    /** uvmcreate with a page that kalloc gave. */
    constructor (f: nat, free: seq<nat>)
      requires f !in free && Distinct(free)
      ensures Wf(Abstract()) && Flat(Abstract()) == map[] && this.root == f && this.free == free
    {
      mem, root, this.free := map[f := EmptyTable()], f, free;
      new;
      EmptyTree(Abstract());
    }

    /** The kalloc of walk: a zeroed table for entry i of the table f. */
    method AllocTable(f: nat, i: nat) returns (c: nat)
      requires f in mem && i < ENTRIES && free != []
      modifies this`mem, this`free
      ensures Abstract() == AddTable(old(Abstract()), f, i) && c == old(free)[0] && free == old(free)[1..]
    {
      c := free[0];
      free := free[1..];
      mem := mem[f := mem[f][i := c * 1024 + 1]][c := EmptyTable()];
    }

    /** walk: where the entry for page v is; with alloc, missing tables are added. */
    method Walk(v: nat, alloc: bool) returns (r: WalkResult)
      requires Wf(Abstract())
      modifies this`mem, this`free
      ensures Wf(Abstract()) && Flat(Abstract()) == Flat(old(Abstract())) && Pages(Abstract()) == Pages(old(Abstract()))
      ensures !alloc || r.WalkPanic? ==> Abstract() == old(Abstract())
      ensures r.WalkPanic? <==> v >= NPAGES
      ensures r.Entry? ==> At(Abstract(), LowOf(v)) == r.frame && r.frame in mem && r.index == Px(0, v)
      ensures r.Null? <==> v < NPAGES && 0 < Missing(old(Abstract()), v) && (!alloc || |old(free)| < Missing(old(Abstract()), v))
      ensures alloc && r.Entry? ==> Missing(old(Abstract()), v) <= |old(free)| && free == old(free)[Missing(old(Abstract()), v)..]
      ensures alloc && r.Null? ==> free == []
      ensures r.Entry? ==> Reached(old(Abstract()), Abstract(), v, 2)
    {
      hide Wf, Flat, Pages, At, Px, Missing, Valid, AddTable, Reached;
      ghost var s := Abstract();
      if v >= NPAGES {
        return WalkPanic;
      }
      MissingBound(Abstract(), v);
      ReachedNothing(Abstract(), v);
      var pagetable, level := root, 2;
      while level > 0
        invariant 0 <= level <= 2
        invariant Wf(Abstract()) && Flat(Abstract()) == Flat(s) && Pages(Abstract()) == Pages(s)
        invariant At(Abstract(), PathTo(v, 2 - level)) == pagetable && pagetable in mem
        invariant !alloc ==> Abstract() == s
        invariant Reached(s, Abstract(), v, 2 - level)
        invariant 0 <= Missing(s, v) - Missing(Abstract(), v) <= |s.free|
        invariant free == s.free[Missing(s, v) - Missing(Abstract(), v)..]
      {
        var e := mem[pagetable][Px(level, v)];
        WalkDown(Abstract(), v, 2 - level);
        if Valid(e) {
          TargetOf(Abstract(), pagetable, Px(level, v));
          ReachedOn(s, Abstract(), v, 2 - level);
          pagetable := Frame(e);
        } else {
          if !alloc || free == [] {
            return Null;
          }
          WalkAdds(Abstract(), v, 2 - level);
          ReachedAdds(s, Abstract(), v, 2 - level);
          pagetable := AllocTable(pagetable, Px(level, v));
        }
        level := level - 1;
      }
      NoneMissing(Abstract(), v);
      r := Entry(pagetable, Px(0, v));
    }

    /** One pass of mappages's loop. */
    method MapOne(v: nat, frame: nat, perm: nat) returns (r: MapResult)
      requires Wf(Abstract()) && perm < 1024 && perm % 2 == 0 && perm / 2 % 8 != 0
      modifies this`mem, this`free
      ensures Wf(Abstract()) && Pages(Abstract()) == Pages(old(Abstract()))
      ensures Flat(Abstract()) == if r.Mapped? then Flat(old(Abstract()))[v := Leaf(frame, perm)] else Flat(old(Abstract()))
      ensures r.Mapped? ==> Flat(Abstract())[v] / 1024 == frame && Flat(Abstract())[v] % 1024 == perm + 1
      ensures r.MapPanic? <==> v >= NPAGES || v in Flat(old(Abstract()))
      ensures r.NoMemory? ==> free == []
      ensures r.Mapped? ==> Reached(old(Abstract()), Abstract(), v, 2)
      ensures r.Mapped? ==> Missing(old(Abstract()), v) <= |old(free)| && free == old(free)[Missing(old(Abstract()), v)..]
      ensures r.NoMemory? ==> |old(free)| < Missing(old(Abstract()), v)
    {
      hide Wf, Flat, Pages, At, Px, Missing, Valid, Reached;
      var w := Walk(v, true);
      if w.WalkPanic? {
        FlatBelow(Abstract(), v);
        return MapPanic;
      }
      FlatAt(old(Abstract()), v);
      FlatAt(Abstract(), v);
      if w.Null? {
        NothingMissing(old(Abstract()), v);
        return NoMemory;
      }
      if Valid(mem[w.frame][w.index]) {
        return MapPanic;
      }
      LeafIsLeaf(frame, perm);
      SetEntryKeeps(Abstract(), LowOf(v), w.index, Leaf(frame, perm));
      SetEntryFlat(Abstract(), v, Leaf(frame, perm));
      SetEntryReached(old(Abstract()), Abstract(), LowOf(v), w.index, Leaf(frame, perm), v);
      mem := mem[w.frame := mem[w.frame][w.index := Leaf(frame, perm)]];
      r := Mapped;
    }

    /** mappages for size bytes at va, to the frames from pa on: done pages have been mapped. */
    method Mappages(va: nat, size: nat, pa: nat, perm: nat) returns (r: MapResult, done: nat)
      requires Wf(Abstract()) && perm < 1024 && perm % 2 == 0 && perm / 2 % 8 != 0
      modifies this`mem, this`free
      ensures Wf(Abstract()) && Pages(Abstract()) == Pages(old(Abstract()))
      ensures Flat(Abstract()) == MapRange(Flat(old(Abstract())), va / 4096, done, pa / 4096, perm)
      ensures MapsTo(Flat(Abstract()), va / 4096, done, pa / 4096, perm)
      ensures Flat(Abstract()) - Range(va / 4096, done) == Flat(old(Abstract())) - Range(va / 4096, done)
      ensures size > 0 ==> done <= (va + size - 1) / 4096 - va / 4096 + 1
      ensures r.Mapped? <==> size > 0 && done == (va + size - 1) / 4096 - va / 4096 + 1
      ensures r.NoMemory? ==> free == []
      ensures r.MapPanic? <==> size == 0 || (!r.NoMemory? && done < (va + size - 1) / 4096 - va / 4096 + 1
                                && (va / 4096 + done >= NPAGES || va / 4096 + done in Flat(old(Abstract()))))
    {
      hide Wf, Flat, Pages, At, Px, Missing, Valid, MapRange;
      MapRangeMore(Flat(Abstract()), va / 4096, 0, pa / 4096, perm);
      if size == 0 {
        MapRangeBits(Flat(Abstract()), va / 4096, 0, pa / 4096, perm);
        return MapPanic, 0;
      }
      var a, last, f := va / 4096, (va + size - 1) / 4096, pa / 4096;
      assert a <= last;
      done := 0;
      while true
        invariant a == va / 4096 + done && f == pa / 4096 + done && a <= last
        invariant Wf(Abstract()) && Pages(Abstract()) == Pages(old(Abstract()))
        invariant Flat(Abstract()) == MapRange(Flat(old(Abstract())), va / 4096, done, pa / 4096, perm)
        decreases last - a
      {
        MapRangeMore(Flat(old(Abstract())), va / 4096, done, pa / 4096, perm);
        r := MapOne(a, f, perm);
        if !r.Mapped? {
          MapRangeBits(Flat(old(Abstract())), va / 4096, done, pa / 4096, perm);
          return;
        }
        done := done + 1;
        if a == last {
          MapRangeBits(Flat(old(Abstract())), va / 4096, done, pa / 4096, perm);
          return;
        }
        a, f := a + 1, f + 1;
      }
    }

    /** uvmunmap of npages pages from va; released are the frames given to kfree with do_free. */
    method Uvmunmap(va: nat, npages: nat, doFree: bool) returns (r: UnmapResult, done: nat, released: seq<nat>)
      requires Wf(Abstract())
      modifies this`mem, this`free
      ensures Wf(Abstract()) && Pages(Abstract()) == Pages(old(Abstract())) && free == old(free)
      ensures Flat(Abstract()) == Flat(old(Abstract())) - Range(va / 4096, done)
      ensures done <= npages && Range(va / 4096, done) <= Flat(old(Abstract())).Keys
      ensures r.Unmapped? <==> va % 4096 == 0 && done == npages
      ensures r.UnmapPanic? && va % 4096 == 0 ==> done < npages && va / 4096 + done !in Flat(old(Abstract()))
      ensures |released| == if doFree then done else 0
      ensures forall k :: 0 <= k < |released| ==> released[k] == Flat(old(Abstract()))[va / 4096 + k] / 1024
    {
      hide Wf, Flat, Pages, At, Px, Missing, Valid;
      UnmapMore(Flat(Abstract()), va / 4096, 0);
      done, released := 0, [];
      if va % 4096 != 0 {
        return UnmapPanic, 0, [];
      }
      var v := va / 4096;
      while done < npages
        invariant 0 <= done <= npages
        invariant Wf(Abstract()) && Pages(Abstract()) == Pages(old(Abstract())) && free == old(free)
        invariant Flat(Abstract()) == Flat(old(Abstract())) - Range(v, done)
        invariant Range(v, done) <= Flat(old(Abstract())).Keys
        invariant |released| == if doFree then done else 0
        invariant forall k :: 0 <= k < |released| ==> released[k] == Flat(old(Abstract()))[v + k] / 1024
      {
        UnmapMore(Flat(old(Abstract())), v, done);
        var e := UnmapOne(v + done);
        if e == 0 {
          return UnmapPanic, done, released;
        }
        if doFree {
          released := released + [Frame(e)];
        }
        done := done + 1;
      }
      r := Unmapped;
    }

    /** One pass of uvmunmap's loop; the entry that was there, 0 for a panic. */
    method UnmapOne(v: nat) returns (e: nat)
      requires Wf(Abstract())
      modifies this`mem, this`free
      ensures Wf(Abstract()) && Pages(Abstract()) == Pages(old(Abstract())) && free == old(free)
      ensures Flat(Abstract()) == Flat(old(Abstract())) - {v}
      ensures if v in Flat(old(Abstract())) then e == Flat(old(Abstract()))[v] != 0 else e == 0
    {
      hide Wf, Flat, Pages, At, Px, Missing;
      FlatBelow(Abstract(), v);
      var w := Walk(v, false);
      if w.WalkPanic? {
        return 0;
      }
      FlatAt(Abstract(), v);
      if w.Null? {
        NothingMissing(Abstract(), v);
        return 0;
      }
      e := mem[w.frame][w.index];
      if !Valid(e) {
        return 0;
      }
      SetEntryKeeps(Abstract(), LowOf(v), w.index, 0);
      SetEntryFlat(Abstract(), v, 0);
      mem := mem[w.frame := mem[w.frame][w.index := 0]];
    }

    /** freewalk of the table f at place p of the tree s: every table under it is freed once. */
    method FreeWalk(f: nat, ghost s: State, ghost p: Path) returns (ok: bool, ghost freed: seq<nat>)
      requires Wf(s) && At(s, p) == f
      requires Subtree(s, p) <= mem.Keys && forall g :: g in Subtree(s, p) ==> mem[g] == s.mem[g]
      modifies this`mem, this`free
      ensures ok <==> Leafless(s, p)
      ensures ok ==> mem == old(mem) - Subtree(s, p) && free == freed + old(free)
      ensures ok ==> (forall g :: g in freed <==> g in Subtree(s, p)) && Distinct(freed)
      decreases 2 - Depth(p)
    {
      hide Wf, Leafless, LeaflessTo, At, Kids, Subtree, Valid, Pointer, Frame, Distinct;
      freed := [];
      ghost var m, l := mem, free;
      NoneTwice();
      TableInMem(s, p);
      RootOfSubtree(s, p);
      LeaflessWhole(s, p);
      var i := 0;
      while i < ENTRIES
        invariant 0 <= i <= ENTRIES && f in mem && LeaflessTo(s, p, i)
        invariant mem.Keys == m.Keys - Kids(s, p, i)
        invariant forall g :: g in mem && g != f ==> mem[g] == m[g]
        invariant forall k :: i <= k < ENTRIES ==> mem[f][k] == s.mem[f][k]
        invariant free == freed + l && Distinct(freed)
        invariant forall g :: g in freed <==> g in Kids(s, p, i)
      {
        var pte := mem[f][i];
        FreeWalkStep(s, p, i);
        LeaflessStep(s, p, i);
        if Valid(pte) && Pointer(pte) {
          ghost var more;
          ok, more := FreeWalk(Frame(pte), s, Child(p, i));
          if !ok {
            return;
          }
          DistinctConcat(more, freed);
          freed := more + freed;
          mem := mem[f := mem[f][i := 0]];
        } else if Valid(pte) {
          return false, freed;
        }
        i := i + 1;
      }
      free := [f] + free;
      mem := mem - {f};
      DistinctConcat([f], freed);
      freed := [f] + freed;
      ok := true;
    }

    /** uvmfree's freewalk; ok is false where it panics: exactly when uvmunmap has left a mapping.
        Otherwise each page-table page goes back to the free list exactly once and none is left. */
    method FreeTree() returns (ok: bool, ghost freed: seq<nat>)
      requires Wf(Abstract())
      modifies this`mem, this`free
      ensures ok <==> Flat(old(Abstract())) == map[]
      ensures ok ==> mem == map[] && free == freed + old(free)
      ensures ok ==> (forall g :: g in freed <==> g in old(mem)) && Distinct(freed)
    {
      LeaflessIsEmpty(Abstract());
      WholeTree(Abstract());
      hide Wf, Leafless, Subtree, Flat;
      ok, freed := FreeWalk(root, Abstract(), Root);
    }
  }

  lemma EmptyTree(s: State)
    requires s.mem == map[s.root := EmptyTable()] && s.root !in s.free
    requires Distinct(s.free)
    ensures Wf(s) && Flat(s) == map[]
  {
    assert At(s, Root) == s.root;
    forall p: Path
      ensures At(s, p) == if p.Root? then s.root else -1
    {
      if p.Low? { assert At(s, Mid(p.i)) == -1; }
    }
  }

  lemma MissingBound(s: State, v: nat)
    requires Wf(s)
    ensures At(s, PathTo(v, 0)) == s.root && s.root in s.mem
  {
    assert At(s, Root) == s.root;
  }

  lemma TargetOf(s: State, f: nat, i: nat)
    requires f in s.mem && i < ENTRIES && Valid(s.mem[f][i])
    ensures Target(s, f, i) == Frame(s.mem[f][i])
  {
  }

  lemma NoneMissing(s: State, v: nat)
    requires Wf(s) && At(s, LowOf(v)) in s.mem
    ensures Missing(s, v) == 0
  {
  }

  lemma NothingMissing(s: State, v: nat)
    requires Wf(s) && Missing(s, v) > 0
    ensures At(s, LowOf(v)) == -1
  {
  }

  lemma FlatAt(s: State, v: nat)
    requires Wf(s) && v < NPAGES
    ensures v in Flat(s) <==> At(s, LowOf(v)) in s.mem && Valid(s.mem[At(s, LowOf(v))][Px(0, v)])
    ensures v in Flat(s) ==> Flat(s)[v] == s.mem[At(s, LowOf(v))][Px(0, v)]
  {
  }

  lemma FlatBelow(s: State, v: nat)
    ensures v in Flat(s) ==> v < NPAGES
  {
  }

  lemma RootOfSubtree(s: State, p: Path)
    requires Wf(s) && At(s, p) in s.mem
    ensures Subtree(s, p) == Kids(s, p, ENTRIES) + {At(s, p)} && At(s, p) !in Kids(s, p, ENTRIES)
    ensures Kids(s, p, 0) == {}
  {
    SubtreeIsKids(s, p);
  }

  lemma WholeTree(s: State)
    requires Wf(s)
    ensures Subtree(s, Root) == s.mem.Keys && At(s, Root) == s.root
  {
    forall f | f in s.mem
      ensures InSubtree(s, Root, f)
    {
      var q :| At(s, q) == f;
      assert Under(Root, q);
    }
  }

  /** What the i-th entry of the table at p leads to. */
  lemma FreeWalkStep(s: State, p: Path, i: nat)
    requires Wf(s) && At(s, p) in s.mem && i < ENTRIES
    ensures var e := s.mem[At(s, p)][i];
      && (Valid(e) && Pointer(e) ==>
            && !p.Low? && At(s, Child(p, i)) == Frame(e)
            && Kids(s, p, i + 1) == Kids(s, p, i) + Subtree(s, Child(p, i))
            && Kids(s, p, i) !! Subtree(s, Child(p, i))
            && Subtree(s, Child(p, i)) <= Subtree(s, p) - {At(s, p)})
      && (!Valid(e) ==> Kids(s, p, i + 1) == Kids(s, p, i))
  {
    var e := s.mem[At(s, p)][i];
    if !p.Low? {
      KidsMore(s, p, i);
      SubtreeIsKids(s, p);
      KidsGrow(s, p, i + 1);
      if !Valid(e) { NoSubtree(s, Child(p, i)); }
    }
  }

  lemma KidsGrow(s: State, p: Path, n: nat)
    requires !p.Low? && n <= ENTRIES
    ensures Kids(s, p, n) <= Kids(s, p, ENTRIES)
  {
    forall f | f in Kids(s, p, n)
      ensures InKids(s, p, ENTRIES, f)
    {
      var i: nat, q :| 0 <= i < n && Under(Child(p, i), q) && At(s, q) == f;
    }
  }
}
