/** The user-level allocator of umalloc.c (Kernighan and Ritchie): a circular free list in address
    order, split on allocation and coalesced on release.

    Addresses count units of sizeof(Header) = 16 bytes.  The block with header at address a and
    size n occupies the units a .. a+n-1, header included. */
module Umalloc {
  const NULL: nat := 0

  /** The address of the static header base, below every address that sbrk returns. */
  const BASE: nat := 1

  datatype Block = Block(addr: nat, len: nat) {
    function End(): nat { addr + len }
  }

  /** malloc's unit count for nbytes, header included. */
  function Units(nbytes: nat): (n: nat)
    ensures n >= 1 && nbytes <= 16 * (n - 1) < nbytes + 16
  {
    (nbytes + 15) / 16 + 1
  }

  // ---- the free list as blocks ----

  /** In address order without overlaps; the first block is the empty base. */
  ghost predicate Ordered(f: seq<Block>) {
    && f != [] && f[0] == Block(BASE, 0)
    && (forall i, j :: 0 <= i < j < |f| ==> f[i].addr < f[j].addr && f[i].End() <= f[j].addr)
    && (forall i :: 1 <= i < |f| ==> f[i].len > 0)
  }

  /** No two blocks of the list touch. */
  ghost predicate Coalesced(f: seq<Block>) {
    forall i {:trigger f[i].End()} :: 0 <= i < |f| - 1 ==> f[i].End() != f[i + 1].addr
  }

  predicate Holds(b: Block, u: nat) { b.addr <= u < b.End() }

  ghost predicate Covers(f: seq<Block>, u: nat) {
    exists i :: 0 <= i < |f| && Holds(f[i], u)
  }

  ghost predicate LiveHolds(live: map<nat, nat>, u: nat) {
    exists a :: a in live && Holds(Block(a, live[a]), u)
  }

  predicate Apart(b: Block, c: Block) { b.End() <= c.addr || c.End() <= b.addr }

  /** Live blocks are disjoint from each other and from the free ones. */
  ghost predicate Disjoint(f: seq<Block>, live: map<nat, nat>) {
    && (forall a :: a in live ==> a > BASE && live[a] > 0)
    && (forall a, i :: a in live && 0 <= i < |f| ==> Apart(Block(a, live[a]), f[i]))
    && (forall a, b :: a in live && b in live && a != b ==> Apart(Block(a, live[a]), Block(b, live[b])))
  }

  /** Every unit obtained from sbrk is in a free block or in a live block, and no other unit is. */
  ghost predicate Conserved(f: seq<Block>, live: map<nat, nat>, units: set<nat>) {
    forall u {:trigger u in units} :: u in units <==> Covers(f, u) || LiveHolds(live, u)
  }

  ghost predicate Inv(f: seq<Block>, live: map<nat, nat>, units: set<nat>) {
    Ordered(f) && Coalesced(f) && Disjoint(f, live) && Conserved(f, live, units)
  }

  // ---- free: insert, then join with the neighbours ----

  /** The block of the list that b goes after. */
  function Place(f: seq<Block>, a: nat): (t: nat)
    requires Ordered(f) && a > BASE
    ensures t < |f| && f[t].addr < a
    ensures t + 1 < |f| ==> a <= f[t + 1].addr
  {
    PlaceFrom(f, a, 0)
  }

  function PlaceFrom(f: seq<Block>, a: nat, i: nat): (t: nat)
    requires Ordered(f) && i < |f| && f[i].addr < a
    ensures i <= t < |f| && f[t].addr < a
    ensures t + 1 < |f| ==> a <= f[t + 1].addr
    decreases |f| - i
  {
    if i + 1 < |f| && f[i + 1].addr < a then PlaceFrom(f, a, i + 1) else i
  }

  function Inserted(f: seq<Block>, t: nat, b: Block): seq<Block>
    requires t < |f|
  {
    f[..t + 1] + [b] + f[t + 1..]
  }

  /** Blocks j and j+1 become one. */
  function Joined(f: seq<Block>, j: nat): seq<Block>
    requires j + 1 < |f|
  {
    f[..j] + [Block(f[j].addr, f[j].len + f[j + 1].len)] + f[j + 2..]
  }

  predicate Touch(f: seq<Block>, j: nat) {
    j + 1 < |f| && f[j].End() == f[j + 1].addr
  }

  function JoinUp(f: seq<Block>, j: nat): seq<Block> {
    if Touch(f, j) then Joined(f, j) else f
  }

  /** The free list after free() of b. */
  function Freed(f: seq<Block>, b: Block): seq<Block>
    requires Ordered(f) && b.addr > BASE
  {
    var t := Place(f, b.addr);
    JoinUp(JoinUp(Inserted(f, t, b), t + 1), t)
  }

  lemma InsertedCovers(f: seq<Block>, t: nat, b: Block, u: nat)
    requires t < |f|
    ensures Covers(Inserted(f, t, b), u) <==> Covers(f, u) || Holds(b, u)
  {
    var g := Inserted(f, t, b);
    if i :| 0 <= i < |g| && Holds(g[i], u) {
      assert g[i] == if i <= t then f[i] else if i == t + 1 then b else f[i - 1];
    }
    if i :| 0 <= i < |f| && Holds(f[i], u) {
      assert g[if i <= t then i else i + 1] == f[i];
    }
    assert g[t + 1] == b;
  }

  lemma JoinedCovers(f: seq<Block>, j: nat, u: nat)
    requires Touch(f, j)
    ensures Covers(Joined(f, j), u) <==> Covers(f, u)
  {
    var g := Joined(f, j);
    assert g[j] == Block(f[j].addr, f[j].len + f[j + 1].len);
    if i :| 0 <= i < |g| && Holds(g[i], u) {
      if i == j {
        assert Holds(f[j], u) || Holds(f[j + 1], u);
      } else {
        assert g[i] == f[if i < j then i else i + 1];
      }
    }
    if i :| 0 <= i < |f| && Holds(f[i], u) {
      assert i != j && i != j + 1 ==> g[if i < j then i else i - 1] == f[i];
      assert i == j || i == j + 1 ==> Holds(g[j], u);
    }
  }

  /** The place for b lies between its neighbours. */
  ghost predicate Fits(f: seq<Block>, t: nat, b: Block) {
    && t < |f| && b.len > 0 && b.addr > BASE
    && f[t].addr < b.addr && f[t].End() <= b.addr
    && (t + 1 < |f| ==> b.End() <= f[t + 1].addr)
  }

  lemma InsertedAt(f: seq<Block>, t: nat, b: Block)
    requires t < |f|
    ensures |Inserted(f, t, b)| == |f| + 1
    ensures forall i :: 0 <= i <= |f| ==> Inserted(f, t, b)[i] == if i <= t then f[i] else if i == t + 1 then b else f[i - 1]
  {
  }

  lemma InsertedOrdered(f: seq<Block>, t: nat, b: Block)
    requires Ordered(f) && Fits(f, t, b)
    ensures Ordered(Inserted(f, t, b))
  {

    InsertedAt(f, t, b);
    var g := Inserted(f, t, b);
    forall i | 0 <= i <= t
      ensures f[i].addr < b.addr && f[i].End() <= b.addr
    {
      if i < t { assert f[i].End() <= f[t].addr; }
    }
    forall i | t < i < |f|
      ensures b.addr < f[i].addr && b.End() <= f[i].addr
    {
      if i > t + 1 { assert f[t + 1].addr < f[i].addr; }
    }
    forall i, j | 0 <= i < j < |g|
      ensures g[i].addr < g[j].addr && g[i].End() <= g[j].addr
    {
      assert g[i] == if i <= t then f[i] else if i == t + 1 then b else f[i - 1];
      assert g[j] == if j <= t then f[j] else if j == t + 1 then b else f[j - 1];
    }
    assert g[0] == f[0];
    forall i | 1 <= i < |g|
      ensures g[i].len > 0
    {
      assert g[i] == if i <= t then f[i] else if i == t + 1 then b else f[i - 1];
    }
  }

  lemma JoinedOrdered(f: seq<Block>, j: nat)
    requires Ordered(f) && Touch(f, j) && j > 0
    ensures Ordered(Joined(f, j))
  {
    var g := Joined(f, j);
    forall i | 0 <= i < |g|
      ensures i != j ==> g[i] == f[if i < j then i else i + 1]
      ensures g[i].addr == f[if i <= j then i else i + 1].addr
      ensures i == j ==> g[i].End() == f[j + 1].End()
    {
    }
  }

  lemma NeverTouchesBase(f: seq<Block>)
    requires Ordered(f)
    ensures !Touch(f, 0)
  {
  }

  /** Joining only ever takes away touching neighbours. */
  lemma JoinedTouch(f: seq<Block>, j: nat, i: nat)
    requires Touch(f, j)
    ensures Touch(Joined(f, j), i) <==> if i < j then Touch(f, i) else Touch(f, i + 1)
  {
  }

  lemma InsertedTouch(f: seq<Block>, t: nat, b: Block, i: nat)
    requires Ordered(f) && Coalesced(f) && Fits(f, t, b)
    ensures Touch(Inserted(f, t, b), i) ==> i == t || i == t + 1
  {
  }

  lemma TouchCoalesced(f: seq<Block>)
    requires forall i: nat :: !Touch(f, i)
    ensures Coalesced(f)
  {
    forall i | 0 <= i < |f| - 1
      ensures f[i].End() != f[i + 1].addr
    {
      assert !Touch(f, i);
    }
  }

  lemma JoinUpFacts(f: seq<Block>, j: nat)
    requires Ordered(f)
    ensures Ordered(JoinUp(f, j))
    ensures forall u: nat :: Covers(JoinUp(f, j), u) <==> Covers(f, u)
    ensures forall i: nat {:trigger Touch(JoinUp(f, j), i)} :: Touch(JoinUp(f, j), i) <==> if Touch(f, j) && i >= j then Touch(f, i + 1) else Touch(f, i)
  {
    if Touch(f, j) {
      NeverTouchesBase(f);
      JoinedOrdered(f, j);
      forall u: nat ensures Covers(Joined(f, j), u) <==> Covers(f, u) { JoinedCovers(f, j, u); }
      forall i: nat ensures Touch(Joined(f, j), i) <==> if i < j then Touch(f, i) else Touch(f, i + 1) { JoinedTouch(f, j, i); }
    }
  }

  /** free() puts exactly the units of b on the list and leaves it ordered and coalesced. */
  lemma FreedFacts(f: seq<Block>, b: Block)
    requires Ordered(f) && Coalesced(f) && b.addr > BASE && Fits(f, Place(f, b.addr), b)
    ensures Ordered(Freed(f, b)) && Coalesced(Freed(f, b))
    ensures forall u: nat :: Covers(Freed(f, b), u) <==> Covers(f, u) || Holds(b, u)
  {
    hide Ordered, Coalesced, Covers, Joined, Inserted, Place, Touch, JoinUp;
    var t := Place(f, b.addr);
    var g := Inserted(f, t, b);
    InsertedOrdered(f, t, b);
    forall u: nat ensures Covers(g, u) <==> Covers(f, u) || Holds(b, u) { InsertedCovers(f, t, b, u); }
    forall i: nat ensures Touch(g, i) ==> i == t || i == t + 1 { InsertedTouch(f, t, b, i); }
    var h := JoinUp(g, t + 1);
    JoinUpFacts(g, t + 1);
    forall i: nat
      ensures Touch(h, i) ==> i == t
    {
      assert Touch(h, i) == if Touch(g, t + 1) && i >= t + 1 then Touch(g, i + 1) else Touch(g, i);
    }
    JoinUpFacts(h, t);
    var k := JoinUp(h, t);
    forall i: nat
      ensures !Touch(k, i)
    {
      assert Touch(k, i) == if Touch(h, t) && i >= t then Touch(h, i + 1) else Touch(h, i);
    }
    TouchCoalesced(k);
  }

  // ---- every operation keeps the invariant ----

  lemma ApartByUnits(b: Block, c: Block)
    requires b.len > 0 && c.len > 0 && forall u: nat :: !(Holds(b, u) && Holds(c, u))
    ensures Apart(b, c)
  {
    assert !(Holds(b, b.addr) && Holds(c, b.addr));
    assert !(Holds(b, c.addr) && Holds(c, c.addr));
  }

  lemma FreeFits(f: seq<Block>, live: map<nat, nat>, a: nat)
    requires Ordered(f) && Disjoint(f, live) && a in live
    ensures a > BASE && Fits(f, Place(f, a), Block(a, live[a]))
  {
  }

  lemma LiveWithout(live: map<nat, nat>, a: nat, u: nat)
    requires a in live
    ensures LiveHolds(live, u) <==> LiveHolds(live - {a}, u) || Holds(Block(a, live[a]), u)
  {
    if LiveHolds(live, u) {
      var b :| b in live && Holds(Block(b, live[b]), u);
      if b != a { assert b in live - {a} && (live - {a})[b] == live[b]; }
    }
  }

  /** A unit is not in a live block and in the free list at once. */
  lemma LiveNotFree(f: seq<Block>, live: map<nat, nat>, a: nat, u: nat)
    requires Disjoint(f, live) && a in live && Holds(Block(a, live[a]), u)
    ensures !Covers(f, u)
    ensures forall b :: b in live && b != a ==> !Holds(Block(b, live[b]), u)
  {
  }

  /** Disjointness follows from what each list covers. */
  lemma DisjointByUnits(f: seq<Block>, live: map<nat, nat>, g: seq<Block>, live': map<nat, nat>)
    requires Disjoint(f, live) && Ordered(g)
    requires forall a :: a in live' ==> a in live && live'[a] == live[a]
    requires forall u: nat :: Covers(g, u) ==> Covers(f, u) || exists a :: a in live && a !in live' && Holds(Block(a, live[a]), u)
    ensures Disjoint(g, live')
  {
    forall a, i | a in live' && 0 <= i < |g|
      ensures Apart(Block(a, live'[a]), g[i])
    {
      if i > 0 {
        forall u: nat
          ensures !(Holds(Block(a, live[a]), u) && Holds(g[i], u))
        {
          if Holds(Block(a, live[a]), u) && Holds(g[i], u) {
            assert Covers(g, u);
            LiveNotFree(f, live, a, u);
          }
        }
        ApartByUnits(Block(a, live[a]), g[i]);
      }
    }
  }

  lemma FreeKeeps(f: seq<Block>, live: map<nat, nat>, units: set<nat>, a: nat)
    requires Inv(f, live, units) && a in live
    ensures a > BASE && Inv(Freed(f, Block(a, live[a])), live - {a}, units)
  {
    var b := Block(a, live[a]);
    FreeFits(f, live, a);
    FreedFacts(f, b);
    var g, live' := Freed(f, b), live - {a};
    hide Ordered, Coalesced, Covers, Freed;
    DisjointByUnits(f, live, g, live');
    forall u: nat {:trigger u in units}
      ensures u in units <==> Covers(g, u) || LiveHolds(live', u)
    {
      assert Covers(g, u) <==> Covers(f, u) || Holds(b, u);
      LiveWithout(live, a, u);
    }
  }

  /** The free list after malloc has taken n units from block j. */
  function Taken(f: seq<Block>, j: nat, n: nat): seq<Block>
    requires j < |f| && n <= f[j].len
  {
    if f[j].len == n then f[..j] + f[j + 1..] else f[j := Block(f[j].addr, f[j].len - n)]
  }

  /** The header of what it hands out: the tail of the block. */
  function TakenAt(f: seq<Block>, j: nat, n: nat): nat
    requires j < |f| && n <= f[j].len
  {
    f[j].addr + f[j].len - n
  }

  lemma TakenAtIndex(f: seq<Block>, j: nat, n: nat, i: nat)
    requires j < |f| && 0 < n <= f[j].len && i < |Taken(f, j, n)|
    ensures Taken(f, j, n)[i] == if f[j].len == n then f[if i < j then i else i + 1]
                                 else if i == j then Block(f[j].addr, f[j].len - n) else f[i]
  {
  }

  lemma TakenLen(f: seq<Block>, j: nat, n: nat)
    requires j < |f| && 0 < n <= f[j].len
    ensures |Taken(f, j, n)| == if f[j].len == n then |f| - 1 else |f|
  {
  }

  lemma TakenOrdered(f: seq<Block>, j: nat, n: nat)
    requires Ordered(f) && 1 <= j < |f| && 0 < n <= f[j].len
    ensures Ordered(Taken(f, j, n))
  {
    hide Taken;
    var g := Taken(f, j, n);
    TakenLen(f, j, n);
    TakenAtIndex(f, j, n, 0);
    forall i, k | 0 <= i < k < |g|
      ensures g[i].addr < g[k].addr && g[i].End() <= g[k].addr
    {
      TakenAtIndex(f, j, n, i);
      TakenAtIndex(f, j, n, k);
      OrderedPair(f, if f[j].len == n && i >= j then i + 1 else i, if f[j].len == n && k >= j then k + 1 else k);
    }
    forall i | 1 <= i < |g|
      ensures g[i].len > 0
    {
      TakenAtIndex(f, j, n, i);
    }
  }

  lemma OrderedPair(f: seq<Block>, i: nat, k: nat)
    requires Ordered(f) && i < k < |f|
    ensures f[i].addr < f[k].addr && f[i].End() <= f[k].addr
  {
  }

  lemma TakenCoalesced(f: seq<Block>, j: nat, n: nat)
    requires Ordered(f) && Coalesced(f) && 1 <= j < |f| && 0 < n <= f[j].len
    ensures Coalesced(Taken(f, j, n))
  {
  }

  lemma TakenCovers(f: seq<Block>, j: nat, n: nat, u: nat)
    requires Ordered(f) && 1 <= j < |f| && 0 < n <= f[j].len
    ensures var b := Block(TakenAt(f, j, n), n);
      && (Covers(f, u) <==> Covers(Taken(f, j, n), u) || Holds(b, u))
      && !(Covers(Taken(f, j, n), u) && Holds(b, u))
  {
    var g, b := Taken(f, j, n), Block(TakenAt(f, j, n), n);
    if i :| 0 <= i < |g| && Holds(g[i], u) {
      TakenAtIndex(f, j, n, i);
      assert Covers(f, u);
    }
    if i :| 0 <= i < |f| && Holds(f[i], u) {
      if i != j {
        var i' := if f[j].len == n && i > j then i - 1 else i;
        TakenAtIndex(f, j, n, i');
        assert Holds(g[i'], u);
      } else if f[j].len != n {
        assert Holds(b, u) || Holds(g[j], u);
      }
    }
    if Holds(b, u) { assert Holds(f[j], u); }
  }

  /** A block cut out of the free list touches no live block. */
  lemma CutApart(f: seq<Block>, live: map<nat, nat>, b: Block, c: nat)
    requires Disjoint(f, live) && b.len > 0 && c in live && forall u: nat :: Holds(b, u) ==> Covers(f, u)
    ensures Apart(b, Block(c, live[c]))
  {
    hide Covers;
    var d := Block(c, live[c]);
    forall u: nat
      ensures !(Holds(b, u) && Holds(d, u))
    {
      if Holds(b, u) && Holds(d, u) { LiveNotFree(f, live, c, u); }
    }
    ApartByUnits(b, d);
  }

  lemma BlocksApart(g: seq<Block>, b: Block, i: nat)
    requires Ordered(g) && 1 <= i < |g| && b.len > 0
    requires forall u: nat :: !(Covers(g, u) && Holds(b, u))
    ensures Apart(b, g[i])
  {
    forall u: nat
      ensures !(Holds(b, u) && Holds(g[i], u))
    {
      assert Holds(g[i], u) ==> Covers(g, u);
    }
    ApartByUnits(b, g[i]);
  }

  lemma TakeDisjoint(f: seq<Block>, live: map<nat, nat>, g: seq<Block>, b: Block)
    requires Disjoint(f, live) && Ordered(g) && b.addr > BASE && b.len > 0
    requires forall u: nat :: Covers(f, u) <==> Covers(g, u) || Holds(b, u)
    requires forall u: nat :: !(Covers(g, u) && Holds(b, u))
    ensures b.addr !in live && Disjoint(g, live[b.addr := b.len])
  {
    hide Covers;
    DisjointByUnits(f, live, g, live);
    forall c | c in live
      ensures Apart(b, Block(c, live[c]))
    {
      CutApart(f, live, b, c);
    }
    forall i | 0 <= i < |g|
      ensures Apart(b, g[i])
    {
      if i > 0 { BlocksApart(g, b, i); }
    }
  }

  lemma TakeKeeps(f: seq<Block>, live: map<nat, nat>, units: set<nat>, j: nat, n: nat)
    requires Inv(f, live, units) && 1 <= j < |f| && 0 < n <= f[j].len
    ensures TakenAt(f, j, n) !in live && TakenAt(f, j, n) > BASE
    ensures Inv(Taken(f, j, n), live[TakenAt(f, j, n) := n], units)
  {
    hide Coalesced, Taken, Ordered, Covers, Disjoint;
    var g, a := Taken(f, j, n), TakenAt(f, j, n);
    var b := Block(a, n);
    OrderedPair(f, 0, j);
    BaseFirst(f);
    TakenOrdered(f, j, n);
    TakenCoalesced(f, j, n);
    forall u: nat
      ensures Covers(f, u) <==> Covers(g, u) || Holds(b, u)
      ensures !(Covers(g, u) && Holds(b, u))
    {
      TakenCovers(f, j, n, u);
    }
    TakeDisjoint(f, live, g, b);
    var live' := live[a := n];
    assert live' - {a} == live;
    forall u: nat {:trigger u in units}
      ensures u in units <==> Covers(g, u) || LiveHolds(live', u)
    {
      LiveWithout(live', a, u);
    }
  }

  lemma BaseFirst(f: seq<Block>)
    requires Ordered(f)
    ensures f[0] == Block(BASE, 0)
  {
  }

  predicate From(s: nat, u: nat) { s <= u }

  function Fresh(s: nat, n: nat): set<nat> {
    set u: nat | u < s + n && From(s, u)
  }

  /** What sbrk returns is a block of its own, which morecore then passes to free(). */
  lemma GrowKeeps(f: seq<Block>, live: map<nat, nat>, units: set<nat>, s: nat, n: nat)
    requires Inv(f, live, units) && n > 0 && s > BASE && forall u :: u in units ==> u < s
    ensures s !in live && Inv(f, live[s := n], units + Fresh(s, n))
  {
    var b, live', units' := Block(s, n), live[s := n], units + Fresh(s, n);
    forall i | 0 <= i < |f|
      ensures f[i].End() <= s
    {
      if i > 0 {
        assert Holds(f[i], f[i].End() - 1);
        assert f[i].End() - 1 in units;
      }
    }
    forall c | c in live
      ensures Block(c, live[c]).End() <= s && c != s
    {
      assert Holds(Block(c, live[c]), c + live[c] - 1);
      assert c + live[c] - 1 in units;
    }
    assert s !in live;
    assert live' - {s} == live;
    forall u: nat {:trigger u in units'}
      ensures u in units' <==> Covers(f, u) || LiveHolds(live', u)
    {
      LiveWithout(live', s, u);
      assert u in Fresh(s, n) <==> Holds(b, u);
    }
  }

  // ---- the links ----

  function NextIndex(f: seq<Block>, i: nat): nat {
    if i + 1 < |f| then i + 1 else 0
  }

  ghost predicate LinkAt(ptr: map<nat, nat>, f: seq<Block>, i: nat)
    requires i < |f|
  {
    f[i].addr in ptr && ptr[f[i].addr] == f[NextIndex(f, i)].addr
  }

  ghost predicate Sized(size: map<nat, nat>, f: seq<Block>) {
    forall i {:trigger f[i]} :: 0 <= i < |f| ==> f[i].addr in size && size[f[i].addr] == f[i].len
  }

  ghost predicate LiveSized(size: map<nat, nat>, live: map<nat, nat>) {
    forall a :: a in live ==> a in size && size[a] == live[a]
  }

  /** The links form the circular list f, except for the link of block t (no exception when t is
      negative). */
  ghost predicate Links(ptr: map<nat, nat>, f: seq<Block>, t: int) {
    forall i {:trigger LinkAt(ptr, f, i)} :: 0 <= i < |f| && i != t ==> LinkAt(ptr, f, i)
  }

  lemma AddrsDiffer(f: seq<Block>, i: nat, k: nat)
    requires Ordered(f) && i < |f| && k < |f|
    ensures f[i].addr == f[k].addr <==> i == k
  {
  }

  lemma FreeNotLive(f: seq<Block>, live: map<nat, nat>, i: nat)
    requires Ordered(f) && Disjoint(f, live) && i < |f|
    ensures f[i].addr !in live
  {
  }

  lemma OneInserted(f: seq<Block>, t: nat, b: Block, i: nat)
    requires t < |f| && i <= |f|
    ensures |Inserted(f, t, b)| == |f| + 1
    ensures Inserted(f, t, b)[i] == if i <= t then f[i] else if i == t + 1 then b else f[i - 1]
  {
  }

  lemma OneJoined(f: seq<Block>, j: nat, i: nat)
    requires j + 1 < |f| && i < |f| - 1
    ensures |Joined(f, j)| == |f| - 1
    ensures Joined(f, j)[i] == if i < j then f[i] else if i == j then Block(f[j].addr, f[j].len + f[j + 1].len) else f[i + 1]
  {
  }

  // free(), first half: the released block gets its own link and joins its upper neighbour

  lemma InsertLinks(ptr: map<nat, nat>, f: seq<Block>, t: nat, b: Block)
    requires Ordered(f) && Fits(f, t, b) && Links(ptr, f, -1)
    ensures f[t].addr in ptr && ptr[f[t].addr] == f[NextIndex(f, t)].addr
    ensures Links(ptr[b.addr := ptr[f[t].addr]], Inserted(f, t, b), t)
  {
    hide Ordered, Inserted;
    assert LinkAt(ptr, f, t);
    var g, ptr' := Inserted(f, t, b), ptr[b.addr := ptr[f[t].addr]];
    InsertedOrdered(f, t, b);
    OneInserted(f, t, b, 0);
    OneInserted(f, t, b, t + 1);
    forall i {:trigger LinkAt(ptr', g, i)} | 0 <= i < |g| && i != t
      ensures LinkAt(ptr', g, i)
    {
      OneInserted(f, t, b, i);
      OneInserted(f, t, b, NextIndex(g, i));
      AddrsDiffer(g, i, t + 1);
      if i != t + 1 { assert LinkAt(ptr, f, if i < t then i else i - 1); }
    }
  }

  /** Joining blocks j and j+1 gives block j the link of its neighbour. */
  lemma JoinLinks(ptr: map<nat, nat>, f: seq<Block>, j: nat, t: int)
    requires Ordered(f) && Touch(f, j) && Links(ptr, f, t) && t <= j
    ensures f[j].addr in ptr[f[j].addr := 0] && f[j + 1].addr in ptr
    ensures Links(ptr[f[j].addr := ptr[f[j + 1].addr]], Joined(f, j), if t == j then -1 else t)
  {
    hide Ordered, Joined;
    assert LinkAt(ptr, f, j + 1);
    var g, ptr' := Joined(f, j), ptr[f[j].addr := ptr[f[j + 1].addr]];
    OneJoined(f, j, 0);
    forall i {:trigger LinkAt(ptr', g, i)} | 0 <= i < |g| && (i != t || t == j)
      ensures LinkAt(ptr', g, i)
    {
      OneJoined(f, j, i);
      OneJoined(f, j, NextIndex(g, i));
      var k := if i <= j then i else i + 1;
      AddrsDiffer(f, k, j);
      if i != j { assert LinkAt(ptr, f, k); }
    }
  }

  lemma JoinSized(size: map<nat, nat>, f: seq<Block>, j: nat)
    requires Ordered(f) && Touch(f, j) && Sized(size, f)
    ensures f[j].addr in size && f[j + 1].addr in size
    ensures Sized(size[f[j].addr := size[f[j].addr] + size[f[j + 1].addr]], Joined(f, j))
  {
  }

  lemma InsertSized(size: map<nat, nat>, f: seq<Block>, t: nat, b: Block)
    requires t < |f| && Sized(size, f) && b.addr in size && size[b.addr] == b.len
    ensures Sized(size, Inserted(f, t, b))
  {
  }

  /** Setting block t's own link completes the circle. */
  lemma CloseLinks(ptr: map<nat, nat>, f: seq<Block>, t: nat)
    requires Ordered(f) && Links(ptr, f, t) && t + 1 < |f|
    ensures Links(ptr[f[t].addr := f[t + 1].addr], f, -1)
  {
    hide Ordered;
    var ptr' := ptr[f[t].addr := f[t + 1].addr];
    forall i {:trigger LinkAt(ptr', f, i)} | 0 <= i < |f|
      ensures LinkAt(ptr', f, i)
    {
      AddrsDiffer(f, i, t);
      if i != t { assert LinkAt(ptr, f, i); }
    }
  }

  // malloc: a whole block leaves the list, or it loses its tail

  lemma TakeLinks(ptr: map<nat, nat>, f: seq<Block>, j: nat, n: nat)
    requires Ordered(f) && Links(ptr, f, -1) && 1 <= j < |f| && 0 < n <= f[j].len
    ensures f[j].addr in ptr
    ensures Links(if f[j].len == n then ptr[f[j - 1].addr := ptr[f[j].addr]] else ptr, Taken(f, j, n), -1)
  {
    hide Ordered, Taken;
    assert LinkAt(ptr, f, j);
    var g, ptr' := Taken(f, j, n), if f[j].len == n then ptr[f[j - 1].addr := ptr[f[j].addr]] else ptr;
    TakenLen(f, j, n);
    forall i {:trigger LinkAt(ptr', g, i)} | 0 <= i < |g|
      ensures LinkAt(ptr', g, i)
    {
      TakenAtIndex(f, j, n, i);
      TakenAtIndex(f, j, n, NextIndex(g, i));
      var k := if f[j].len == n && i >= j then i + 1 else i;
      AddrsDiffer(f, k, j - 1);
      assert LinkAt(ptr, f, k);
    }
  }

  lemma TakeSized(size: map<nat, nat>, f: seq<Block>, j: nat, n: nat)
    requires Ordered(f) && Sized(size, f) && 1 <= j < |f| && 0 < n <= f[j].len
    ensures Sized(if f[j].len == n then size else size[f[j].addr := f[j].len - n][TakenAt(f, j, n) := n], Taken(f, j, n))
  {
  }

  // ---- the searches ----

  /** The loop test of free() holds at the place where the block belongs, and nowhere else. */
  lemma StopsAtPlace(f: seq<Block>, b: Block, k: nat)
    requires Ordered(f) && b.addr > BASE && k < |f| && Fits(f, Place(f, b.addr), b)
    ensures var p, q := f[k].addr, f[NextIndex(f, k)].addr;
      k == Place(f, b.addr) <==> (p < b.addr < q) || (p >= q && (b.addr > p || b.addr < q))
  {
  }

  lemma OrderedAddr(f: seq<Block>, i: nat, k: nat)
    requires Ordered(f) && i <= k < |f|
    ensures f[i].addr <= f[k].addr && (i < k ==> f[i].addr < f[k].addr)
  {
  }

  /** How far a walk along the circle has to go from one block to another, at least one step. */
  function Steps(n: nat, from: nat, to: nat): (d: nat)
    requires from < n && to < n
    ensures 1 <= d <= n
  {
    if to > from then to - from else to + n - from
  }

  ghost predicate Fitting(f: seq<Block>, n: nat) {
    exists i :: 0 <= i < |f| && f[i].len >= n
  }

  /** No block on the way from freep (block q) up to block k is long enough. */
  ghost predicate PassedSmall(f: seq<Block>, q: nat, k: nat, n: nat)
    requires q < |f| && k < |f|
  {
    forall i {:trigger f[i]} :: 0 <= i < |f| && Steps(|f|, q, i) < Steps(|f|, q, k) ==> f[i].len < n
  }

  /** a heads the last n units of the first block after the one at freep, in circular order, that is long
      enough; g is what the list becomes. */
  ghost predicate NextFit(f: seq<Block>, freep: nat, n: nat, g: seq<Block>, a: nat) {
    exists q: nat, k: nat :: IsNextFit(f, freep, n, q, k) && g == Taken(f, k, n) && a + n == f[k].End()
  }

  ghost predicate IsNextFit(f: seq<Block>, freep: nat, n: nat, q: nat, k: nat) {
    q < |f| && k < |f| && f[q].addr == freep && PassedSmall(f, q, k, n) && f[k].len >= n
  }

  lemma TakesNextFit(f: seq<Block>, freep: nat, n: nat, q: nat, k: nat)
    requires IsNextFit(f, freep, n, q, k)
    ensures NextFit(f, freep, n, Taken(f, k, n), TakenAt(f, k, n))
  {
    hide Taken;
  }

  lemma PassedNone(f: seq<Block>, q: nat, n: nat)
    requires q < |f|
    ensures PassedSmall(f, q, NextIndex(f, q), n)
  {
  }

  lemma PassedOne(f: seq<Block>, q: nat, k: nat, n: nat)
    requires q < |f| && k < |f| && PassedSmall(f, q, k, n) && f[k].len < n && k != q
    ensures PassedSmall(f, q, NextIndex(f, k), n)
  {
  }

  lemma PassedAll(f: seq<Block>, q: nat, n: nat)
    requires q < |f| && PassedSmall(f, q, q, n) && f[q].len < n
    ensures !Fitting(f, n)
  {
  }

  /** Where the new units are after morecore: in the block at freep or in the one after it. */
  lemma GrownFits(f: seq<Block>, b: Block)
    requires Ordered(f) && Coalesced(f) && b.addr > BASE && Fits(f, Place(f, b.addr), b)
    ensures var g, t := Freed(f, b), Place(f, b.addr);
      && t < |g| && g[t].addr == f[t].addr
      && (g[t].len >= b.len || (t + 1 < |g| && g[t + 1].len >= b.len))
  {
  }

  // ---- the program ----

  /** The heap of one process: the link and size fields of every header, base included. */
  class Allocator {
    var ptr: map<nat, nat>
    var size: map<nat, nat>
    var freep: nat
    var brk: nat
    ghost var f: seq<Block>
    ghost var live: map<nat, nat>
    ghost var units: set<nat>

    /** The headers are the circular list f, and freep is one of its blocks. */
    ghost predicate Circular()
      reads this
    {
      && Ordered(f) && Links(ptr, f, -1) && Sized(size, f)
      && exists k :: 0 <= k < |f| && f[k].addr == freep
    }

    ghost predicate Valid()
      reads this
    {
      && Inv(f, live, units)
      && brk > BASE && (forall u :: u in units ==> u < brk)
      && LiveSized(size, live)
      && (freep == NULL ==> f == [Block(BASE, 0)] && live == map[])
      && (freep != NULL ==> Circular())
    }

    constructor (end: nat)
      requires end > BASE
      ensures Valid() && freep == NULL && live == map[] && units == {}
    {
      ptr, size, freep, brk := map[], map[], NULL, end;
      f, live, units := [Block(BASE, 0)], map[], {};
    }

    /** The search of free(). */
    method Search(bp: nat) returns (p: nat)
      requires Valid() && freep != NULL && bp in live
      ensures bp > BASE && Fits(f, Place(f, bp), Block(bp, live[bp])) && p == f[Place(f, bp)].addr
    {
      hide Coalesced, Conserved, Disjoint, Ordered;
      ghost var b := Block(bp, live[bp]);
      FreeFits(f, live, bp);
      ghost var t := Place(f, bp);
      p := freep;
      ghost var k: nat :| k < |f| && f[k].addr == freep;
      StopsAtPlace(f, b, k);
      assert LinkAt(ptr, f, k);
      while !(bp > p && bp < ptr[p])
        invariant k < |f| && f[k].addr == p && LinkAt(ptr, f, k)
        invariant k == t <==> (p < bp < ptr[p]) || (p >= ptr[p] && (bp > p || bp < ptr[p]))
        decreases if k <= t then t - k else |f| - k + t
      {
        if p >= ptr[p] && (bp > p || bp < ptr[p]) {
          break;
        }
        p := ptr[p];
        k := NextIndex(f, k);
        StopsAtPlace(f, b, k);
        assert LinkAt(ptr, f, k);
      }
    }

    /** The released block goes to its place and joins its neighbours; nothing else changes. */
    method Free(ap: nat)
      requires Valid() && freep != NULL && ap > 0 && ap - 1 in live
      modifies this
      ensures Valid() && freep != NULL && brk == old(brk) && units == old(units)
      ensures ap - 1 > BASE && f == Freed(old(f), Block(ap - 1, old(live)[(ap - 1) as nat]))
      ensures live == old(live) - {ap - 1}
      ensures freep == old(f)[Place(old(f), ap - 1)].addr
    {
      hide Coalesced, Conserved, Disjoint, Ordered, Inserted, JoinUp, Touch, Links, Sized, Freed, Fits, Place;
      var bp := ap - 1;
      var p := Search(bp);
      ghost var b := Block(bp, live[bp]);
      ghost var t := Place(f, bp);
      ghost var g := Inserted(f, t, b);
      FreeKeeps(f, live, units, bp);
      LinkUp(f, t, b, ptr, size);
      if bp + size[bp] == ptr[p] {
        var n := ptr[p];
        size := size[bp := size[bp] + size[n]];
        ptr := ptr[bp := ptr[n]];
      } else {
        ptr := ptr[bp := ptr[p]];
      }
      ghost var h := JoinUp(g, t + 1);
      assert Links(ptr, h, t) && Sized(size, h) && LiveSized(size, live - {bp});
      LinkDown(h, t, ptr, size);
      if p + size[p] == bp {
        size := size[p := size[p] + size[bp]];
        ptr := ptr[p := ptr[bp]];
      } else {
        ptr := ptr[p := bp];
      }
      FreeNotLive(f, live, t);
      BaseFirst(f);
      OrderedAddr(f, 0, t);
      FreedJoined(f, b);
      FreedStart(f, b);
      f, live := Freed(f, b), live - {bp};
      freep := p;
    }

    /** sbrk either fails or returns the old break, which other callers may have moved by gap; what
        it returns goes on the free list.  A long enough block (m) then is at freep (q) or right
        after it. */
    method Morecore(nu: nat, avail: bool, gap: nat) returns (p: nat, ghost q: nat, ghost m: nat)
      requires Valid() && freep != NULL && nu > 0
      modifies this
      ensures Valid() && freep != NULL && live == old(live)
      ensures p == (if avail then freep else NULL)
      ensures !avail ==> f == old(f) && units == old(units) && brk == old(brk) && freep == old(freep)
      ensures avail ==>
        var s, n := old(brk) + gap, if nu < 4096 then 4096 else nu;
        && brk == s + n && units == old(units) + Fresh(s, n)
        && Fits(old(f), Place(old(f), s), Block(s, n)) && f == Freed(old(f), Block(s, n))
      ensures avail ==> q < |f| && f[q].addr == freep && m < |f| && f[m].len >= nu && (m == q || m == NextIndex(f, q))
    {
      hide Coalesced, Conserved, Disjoint, Ordered, Freed, Links;
      var n := nu;
      if n < 4096 {
        n := 4096;
      }
      q, m := 0, 0;
      if !avail {
        return NULL, q, m;
      }
      var s := brk + gap;
      brk := s + n;
      GrowKeeps(f, live, units, s, n);
      GrowSized(size, f, live, units, s, n);
      FreeFits(f, live[s := n], s);
      size := size[s := n];
      q, m := GrownAt(f, Block(s, n));
      ghost var before := live;
      live, units := live[s := n], units + Fresh(s, n);
      Free(s + 1);
      assert live == before;
      p := freep;
    }

    /** The middle of malloc's loop: n units out of the block at p, whose predecessor is at prevp. */
    method Take(prevp: nat, p: nat, n: nat, ghost k: nat) returns (r: nat)
      requires Valid() && freep != NULL && n > 0
      requires 1 <= k < |f| && f[k - 1].addr == prevp && f[k].addr == p && f[k].len >= n
      modifies this
      ensures Valid() && freep == prevp && units == old(units) && brk == old(brk)
      ensures f == Taken(old(f), k, n) && r == TakenAt(old(f), k, n) + 1
      ensures r > BASE + 1 && r - 1 !in old(live) && live == old(live)[(r - 1) as nat := n]
    {
      hide Coalesced, Conserved, Disjoint, Ordered, Taken, Links, Sized;
      ghost var g, a := Taken(f, k, n), TakenAt(f, k, n);
      TakeKeeps(f, live, units, k, n);
      TakeLinks(ptr, f, k, n);
      TakeSized(size, f, k, n);
      FreeNotLive(f, live, k);
      TakenLen(f, k, n);
      TakenAtIndex(f, k, n, k - 1);
      SizedAt(size, f, k);
      LinkedAt(ptr, f, k - 1);
      BaseFirst(f);
      OrderedAddr(f, 0, k - 1);
      var q := p;
      if size[p] == n {
        ptr := ptr[prevp := ptr[p]];
      } else {
        size := size[p := size[p] - n];
        q := p + size[p];
        size := size[q := n];
      }
      f, live := g, live[a := n];
      freep := prevp;
      assert g[k - 1].addr == freep;
      return q + 1;
    }

    /** The first call of malloc makes base the whole circle. */
    method Start()
      requires Valid() && freep == NULL
      modifies this
      ensures Valid() && freep == BASE
      ensures f == old(f) && live == old(live) && units == old(units) && brk == old(brk)
    {
      StartCircle(ptr, size);
      freep := BASE;
      ptr := ptr[BASE := freep];
      size := size[BASE := 0];
    }

    /** Next fit from freep.  avail and gap describe what the one call of sbrk would meet. */
    method Malloc(nbytes: nat, avail: bool, gap: nat) returns (r: nat)
      requires Valid() && Units(nbytes) < 0x800_0000
      modifies this
      ensures Valid()
      ensures r == NULL <==> !Fitting(old(f), Units(nbytes)) && !avail
      ensures r == NULL ==> f == old(f) && live == old(live)
      ensures r != NULL ==> r - 1 > BASE && r - 1 !in old(live) && live == old(live)[(r - 1) as nat := Units(nbytes)]
      ensures Fitting(old(f), Units(nbytes)) ==>
        r > 0 && NextFit(old(f), if old(freep) == NULL then BASE else old(freep), Units(nbytes), f, (r - 1) as nat)
      ensures Fitting(old(f), Units(nbytes)) || !avail ==> units == old(units) && brk == old(brk)
      ensures !Fitting(old(f), Units(nbytes)) && avail ==>
        var s, n := old(brk) + gap, if Units(nbytes) < 4096 then 4096 else Units(nbytes);
        units == old(units) + Fresh(s, n) && brk == s + n
    {
      hide Inv, Links, Sized, LiveSized, PassedSmall, Units, Freed, Place, Fitting, Fresh, Fits, Ordered, Taken, NextFit;
      var nunits := Units(nbytes);
      if freep == NULL {
        Start();
      }
      var prevp := freep;
      ghost var start := freep;
      ghost var q: nat :| q < |f| && f[q].addr == freep;
      ghost var j: nat, k: nat, m: nat := q, NextIndex(f, q), q;
      ghost var grown := false;
      LinkedAt(ptr, f, q);
      PassedNone(f, q, nunits);
      var p := ptr[prevp];
      while true
        invariant Valid() && freep != NULL && live == old(live)
        invariant q < |f| && j < |f| && k == NextIndex(f, j)
        invariant f[q].addr == freep && f[j].addr == prevp && f[k].addr == p
        invariant !grown ==> freep == start && f == old(f) && units == old(units) && brk == old(brk) && PassedSmall(f, q, k, nunits)
        invariant grown ==> avail && !Fitting(old(f), nunits) && m < |f| && f[m].len >= nunits && (m == q || m == k)
        invariant grown ==>
          var s, n := old(brk) + gap, if nunits < 4096 then 4096 else nunits;
          units == old(units) + Fresh(s, n) && brk == s + n
        decreases if grown then 0 else 1, |f| - Steps(|f|, q, k)
      {
        SizedAt(size, f, k);
        if size[p] >= nunits {
          InvBase(f, live, units);
          FitsAt(f, k, nunits);
          if !grown { TakesNextFit(f, start, nunits, q, k); }
          r := Take(prevp, p, nunits, k);
          return;
        }
        InvDiffer(f, live, units, k, q);
        if p == freep {
          PassedAll(f, q, nunits);
          p, q, m := Morecore(nunits, avail, gap);
          if p == NULL {
            return NULL;
          }
          k := q;
          grown := true;
        } else {
          StepsNext(f, q, k);
          if !grown { PassedOne(f, q, k, nunits); }
        }
        LinkedAt(ptr, f, k);
        prevp := p;
        p := ptr[p];
        j := k;
        k := NextIndex(f, k);
      }
    }
  }

  lemma SizedAt(size: map<nat, nat>, f: seq<Block>, i: nat)
    requires Sized(size, f) && i < |f|
    ensures f[i].addr in size && size[f[i].addr] == f[i].len
  {
  }

  lemma LinkedAt(ptr: map<nat, nat>, f: seq<Block>, i: nat)
    requires Links(ptr, f, -1) && i < |f|
    ensures f[i].addr in ptr && ptr[f[i].addr] == f[NextIndex(f, i)].addr
  {
    assert LinkAt(ptr, f, i);
  }

  lemma FitsAt(f: seq<Block>, k: nat, n: nat)
    requires k < |f| && f[k].len >= n
    ensures Fitting(f, n)
  {
  }

  lemma StartCircle(ptr: map<nat, nat>, size: map<nat, nat>)
    ensures Links(ptr[BASE := BASE], [Block(BASE, 0)], -1) && Sized(size[BASE := 0], [Block(BASE, 0)])
  {
  }

  lemma InvBase(f: seq<Block>, live: map<nat, nat>, units: set<nat>)
    requires Inv(f, live, units)
    ensures f != [] && f[0] == Block(BASE, 0)
  {
  }

  lemma InvDiffer(f: seq<Block>, live: map<nat, nat>, units: set<nat>, i: nat, k: nat)
    requires Inv(f, live, units) && i < |f| && k < |f|
    ensures f[i].addr == f[k].addr <==> i == k
  {
  }

  lemma StepsNext(f: seq<Block>, q: nat, k: nat)
    requires q < |f| && k < |f| && k != q
    ensures Steps(|f|, q, NextIndex(f, k)) == Steps(|f|, q, k) + 1
  {
  }

  lemma GrownAt(f: seq<Block>, b: Block) returns (q: nat, m: nat)
    requires Ordered(f) && Coalesced(f) && b.addr > BASE && Fits(f, Place(f, b.addr), b)
    ensures var g := Freed(f, b);
      && q < |g| && g[q].addr == f[Place(f, b.addr)].addr
      && m < |g| && g[m].len >= b.len && (m == q || m == NextIndex(g, q))
  {
    hide Freed, Fits, Ordered, Coalesced;
    GrownFits(f, b);
    q := Place(f, b.addr);
    m := if Freed(f, b)[q].len >= b.len then q else q + 1;
  }

  lemma FreedJoined(f: seq<Block>, b: Block)
    requires Ordered(f) && b.addr > BASE
    ensures var t := Place(f, b.addr);
      Freed(f, b) == JoinUp(JoinUp(Inserted(f, t, b), t + 1), t)
  {
  }

  lemma FreedStart(f: seq<Block>, b: Block)
    requires Ordered(f) && Coalesced(f) && b.addr > BASE && Fits(f, Place(f, b.addr), b)
    ensures exists k :: 0 <= k < |Freed(f, b)| && Freed(f, b)[k].addr == f[Place(f, b.addr)].addr
  {
    GrownFits(f, b);
  }

  lemma LinkUp(f: seq<Block>, t: nat, b: Block, ptr: map<nat, nat>, size: map<nat, nat>)
    requires Ordered(f) && Fits(f, t, b) && Links(ptr, f, -1) && Sized(size, f) && b.addr in size && size[b.addr] == b.len
    ensures f[t].addr in ptr && f[t].addr in size
    ensures var g := Inserted(f, t, b);
      var n := ptr[f[t].addr];
      var h := JoinUp(g, t + 1);
      && (Touch(g, t + 1) <==> b.addr + size[b.addr] == n)
      && (Touch(g, t + 1) ==> n in ptr && n in size)
      && Ordered(h) && t + 1 < |h| && h[t].addr == f[t].addr && h[t + 1].addr == b.addr
      && Links(ptr[b.addr := if Touch(g, t + 1) then ptr[n] else n], JoinUp(g, t + 1), t)
      && Sized(if Touch(g, t + 1) then size[b.addr := size[b.addr] + size[n]] else size, JoinUp(g, t + 1))
  {
    hide Ordered, Inserted, Joined, Links;
    var g := Inserted(f, t, b);
    InsertedOrdered(f, t, b);
    OneInserted(f, t, b, t);
    OneInserted(f, t, b, t + 1);
    if t + 1 < |f| { OneInserted(f, t, b, t + 2); }
    InsertLinks(ptr, f, t, b);
    InsertSized(size, f, t, b);
    assert f[t] == g[t];
    var n: nat := ptr[f[t].addr];
    BaseFirst(f);
    JoinUpFacts(g, t + 1);
    if Touch(g, t + 1) {
      OneJoined(g, t + 1, t);
      OneJoined(g, t + 1, t + 1);
      var ptr': map<nat, nat> := ptr[b.addr := n];
      JoinLinks(ptr', g, t + 1, t);
      JoinSized(size, g, t + 1);
      AddrsDiffer(g, t + 1, t + 2);
      assert ptr'[b.addr := ptr'[n]] == ptr[b.addr := ptr[n]];
    }
  }

  lemma LinkDown(h: seq<Block>, t: nat, ptr: map<nat, nat>, size: map<nat, nat>)
    requires Ordered(h) && Links(ptr, h, t) && Sized(size, h) && t + 1 < |h|
    ensures h[t + 1].addr in ptr && h[t + 1].addr in size && h[t].addr in size
    ensures var p, b := h[t].addr, h[t + 1].addr;
      && (Touch(h, t) <==> p + size[p] == b)
      && Links(ptr[p := if Touch(h, t) then ptr[b] else b], JoinUp(h, t), -1)
      && Sized(if Touch(h, t) then size[p := size[p] + size[b]] else size, JoinUp(h, t))
  {
    hide Ordered, Joined;
    assert LinkAt(ptr, h, t + 1);
    assert h[t].addr in size && h[t + 1].addr in size;
    hide Links;
    if Touch(h, t) {
      JoinLinks(ptr, h, t, t);
      JoinSized(size, h, t);
    } else {
      CloseLinks(ptr, h, t);
    }
  }

  lemma GrowSized(size: map<nat, nat>, f: seq<Block>, live: map<nat, nat>, units: set<nat>, s: nat, n: nat)
    requires Inv(f, live, units) && Sized(size, f) && LiveSized(size, live) && n > 0 && s > BASE && forall u :: u in units ==> u < s
    ensures Sized(size[s := n], f) && LiveSized(size[s := n], live[s := n])
  {
    hide Coalesced;
    GrowKeeps(f, live, units, s, n);
    forall i {:trigger f[i]} | 0 <= i < |f|
      ensures f[i].addr != s
    {
      FreeNotLive(f, live[s := n], i);
    }
  }
}
