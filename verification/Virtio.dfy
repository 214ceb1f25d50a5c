/** The disk driver (virtio_disk.c): a split virtqueue as in section 2.6 of VIRTIO 1.1, with
    descriptors allocated by threes, two rings under 16-bit indices, processes that sleep, a device
    that answers in any order, and its interrupts.

    One action is one stay of a process in vdisk_lock, one step of the device, or one turn of the
    interrupt handler's loop.  Module VirtioRuns carries what is proved over to the finer
    interleavings of module SleepWakeup. */
module Virtio {
  import Sets

  const NUM: nat := 8
  const WRAP: nat := 0x1_0000
  const BSIZE: nat := 1024
  const NEXT: nat := 1
  const WRITE: nat := 2

  /** What a descriptor points to: the command header ops[i], the data of buffer b, or
      info[i].status. */
  datatype Target = Nowhere | Header(i: nat) | Data(b: nat) | Status(i: nat)

  datatype Desc = Desc(addr: Target, len: nat, flags: nat, next: nat)

  const ZERO := Desc(Nowhere, 0, 0, 0)

  datatype Op = Op(write: bool, sector: nat)

  datatype Option<T> = None | Some(value: T)

  /** info[i]: the buffer, if any, and the status byte. */
  datatype Info = Info(b: Option<nat>, status: nat)

  /** The memory that driver and device share, and the driver's own; busy are the buffers whose
      field disk is 1, devIdx is how far the device has read the avail ring. */
  datatype Mem = Mem(desc: seq<Desc>, free: seq<bool>, ops: seq<Op>, info: seq<Info>,
                     avail: seq<nat>, availIdx: nat, used: seq<nat>, usedIdx: nat,
                     seenIdx: nat, devIdx: nat, busy: set<nat>)

  predicate Shape(m: Mem) {
    |m.desc| == |m.free| == |m.ops| == |m.info| == |m.avail| == |m.used| == NUM
  }

  // ---- allocating and freeing descriptors ----

  /** The lowest free descriptor from i on; NUM when there is none. */
  function Lowest(free: seq<bool>, i: nat): (k: nat)
    requires i <= |free|
    ensures i <= k <= |free|
    ensures k < |free| ==> free[k]
    ensures forall j :: i <= j < k ==> !free[j]
    decreases |free| - i
  {
    if i == |free| || free[i] then i else Lowest(free, i + 1)
  }

  function After(free: seq<bool>, k: nat): nat
    requires k <= |free|
  {
    Lowest(free, if k < |free| then k + 1 else k)
  }

  /** The three lowest free descriptors. */
  function Alloc3(free: seq<bool>): Option<(nat, nat, nat)> {
    var i := Lowest(free, 0);
    var j := After(free, i);
    var k := After(free, j);
    if k < |free| then Some((i, j, k)) else None
  }

  function FreeSet(free: seq<bool>): set<nat> {
    set i: nat | i < |free| && free[i]
  }

  function Busy(free: seq<bool>): set<nat> {
    set i: nat | i < |free| && !free[i]
  }

  /** The descriptors free_chain gives back, in order; None when it panics. */
  function ChainFrom(desc: seq<Desc>, free: seq<bool>, i: nat): Option<seq<nat>>
    requires |desc| == |free|
    decreases |Busy(free)|
  {
    if i >= |free| || free[i] then None
    else if desc[i].flags % 2 == 0 then Some([i])
    else
      BusyShrinks(free, i);
      match ChainFrom(desc, free[i := true], desc[i].next)
      case None => None
      case Some(rest) => Some([i] + rest)
  }

  lemma BusyShrinks(free: seq<bool>, i: nat)
    requires i < |free| && !free[i]
    ensures |Busy(free[i := true])| < |Busy(free)|
  {
    assert Busy(free[i := true]) == Busy(free) - {i};
  }

  function Cleared(desc: seq<Desc>, ds: seq<nat>): (r: seq<Desc>)
    requires forall k :: 0 <= k < |ds| ==> ds[k] < |desc|
    ensures |r| == |desc|
    ensures forall i :: 0 <= i < |desc| ==> r[i] == if i in ds then ZERO else desc[i]
  {
    seq(|desc|, i requires 0 <= i < |desc| => if i in ds then ZERO else desc[i])
  }

  function Released(free: seq<bool>, ds: seq<nat>): (r: seq<bool>)
    requires forall k :: 0 <= k < |ds| ==> ds[k] < |free|
    ensures |r| == |free|
    ensures forall i :: 0 <= i < |free| ==> r[i] == (i in ds || free[i])
  {
    seq(|free|, i requires 0 <= i < |free| => i in ds || free[i])
  }

  lemma {:induction false} ChainInRange(desc: seq<Desc>, free: seq<bool>, i: nat)
    requires |desc| == |free| && ChainFrom(desc, free, i).Some?
    ensures forall k :: 0 <= k < |ChainFrom(desc, free, i).value| ==> ChainFrom(desc, free, i).value[k] < |free|
    decreases |Busy(free)|
  {
    if desc[i].flags % 2 != 0 {
      BusyShrinks(free, i);
      ChainInRange(desc, free[i := true], desc[i].next);
    }
  }

  // ---- requests ----

  /** A request in flight: its three descriptors and what it asks for. */
  datatype Chain = Chain(d0: nat, d1: nat, d2: nat, b: nat, write: bool, block: nat)

  predicate Part(c: Chain, i: nat) { i == c.d0 || i == c.d1 || i == c.d2 }

  /** The requests by their head descriptor: offered to the device, held by it, answered by it,
      seen by the interrupt handler.  took and seen count all entries ever read from the rings. */
  datatype Ledger = Ledger(chains: map<nat, Chain>, offered: seq<nat>, held: set<nat>,
                           answered: seq<nat>, done: set<nat>, took: nat, seen: nat)

  /** waiting: processes asleep on &disk.free[0]; sleepers: processes with the buffers they sleep on. */
  datatype State = State(m: Mem, g: Ledger, waiting: set<nat>, sleepers: set<(nat, nat)>,
                         bufs: map<nat, (int, int)>, disk: map<nat, int>)

  datatype Action =
    | Begin(pid: nat, b: nat, write: bool, block: nat)
    | Rewait(pid: nat, h: nat)
    | Finish(h: nat)
    | DeviceTake
    | DeviceAnswer(h: nat)
    | Interrupt
    | Wake(pid: nat)

  /** What virtio_disk_rw writes before it sleeps on b. */
  function Posted(m: Mem, c: Chain): (r: Mem)
    requires Shape(m) && c.d0 < NUM && c.d1 < NUM && c.d2 < NUM
    ensures Shape(r)
  {
    m.(desc := m.desc[c.d0 := Desc(Header(c.d0), 16, NEXT, c.d1)]
                     [c.d1 := Desc(Data(c.b), BSIZE, if c.write then NEXT else WRITE + NEXT, c.d2)]
                     [c.d2 := Desc(Status(c.d0), 1, WRITE, 0)],
       free := m.free[c.d0 := false][c.d1 := false][c.d2 := false],
       ops := m.ops[c.d0 := Op(c.write, c.block * (BSIZE / 512))],
       info := m.info[c.d0 := Info(Some(c.b), 0xff)],
       avail := m.avail[m.availIdx % NUM := c.d0],
       availIdx := (m.availIdx + 1) % WRAP,
       busy := m.busy + {c.b})
  }

  /** What it does once the request is done. */
  function Retired(m: Mem, h: nat): Option<Mem>
    requires Shape(m)
  {
    if h >= NUM then None else
    match ChainFrom(m.desc, m.free, h)
    case None => None
    case Some(ds) =>
      ChainInRange(m.desc, m.free, h);
      Some(m.(info := m.info[h := m.info[h].(b := None)], desc := Cleared(m.desc, ds), free := Released(m.free, ds)))
  }

  /** What the device finds when it follows the descriptors from h. */
  datatype Request = Request(op: Op, b: nat, writable: bool, status: nat)

  function Follow(m: Mem, h: nat): Option<Request>
    requires Shape(m)
  {
    if h >= NUM || m.desc[h].next >= NUM then None else
    var x, y := m.desc[h], m.desc[m.desc[h].next];
    if y.next >= NUM then None else
    var z := m.desc[y.next];
    if x.flags == NEXT && x.addr.Header? && x.addr.i < NUM && x.len == 16
       && y.flags % 2 == NEXT && y.addr.Data? && y.len == BSIZE
       && z.flags == WRITE && z.addr.Status? && z.addr.i < NUM && z.len == 1
    then Some(Request(m.ops[x.addr.i], y.addr.b, y.flags >= WRITE, z.addr.i))
    else None
  }

  function Sector(disk: map<nat, int>, k: nat): int { if k in disk then disk[k] else 0 }

  function BlockOf(disk: map<nat, int>, block: nat): (int, int) { (Sector(disk, 2 * block), Sector(disk, 2 * block + 1)) }

  function DataOf(bufs: map<nat, (int, int)>, b: nat): (int, int) { if b in bufs then bufs[b] else (0, 0) }

  /** A conforming device: it reads the avail ring in order, does what the descriptors of a chain
      say, writes status 0, and returns each chain once, in any order. */
  ghost predicate Answers(s: State, h: nat, t: State)
    requires Shape(s.m)
  {
    && Follow(s.m, h).Some?
    && var q := Follow(s.m, h).value;
    && q.status < NUM && q.writable == !q.op.write
    && t.m == s.m.(info := s.m.info[q.status := s.m.info[q.status].(status := 0)],
                   used := s.m.used[s.m.usedIdx % NUM := h], usedIdx := (s.m.usedIdx + 1) % WRAP)
    && (if q.op.write then
          && t.bufs == s.bufs
          && t.disk == s.disk[q.op.sector := DataOf(s.bufs, q.b).0][q.op.sector + 1 := DataOf(s.bufs, q.b).1]
        else
          && t.bufs == s.bufs[q.b := (Sector(s.disk, q.op.sector), Sector(s.disk, q.op.sector + 1))]
          && t.disk == s.disk)
  }

  /** Who still sleeps after wakeup(b). */
  function Unwoken(sleepers: set<(nat, nat)>, b: nat): set<(nat, nat)> {
    set x | x in sleepers && x.1 != b
  }

  ghost predicate Requested(g: Ledger, b: nat) { exists h :: h in g.chains && g.chains[h].b == b }

  ghost predicate Step(s: State, a: Action, t: State)
    requires Shape(s.m)
  {
    match a
    case Begin(pid, b, write, block) =>
      && !Requested(s.g, b)
      && (match Alloc3(s.m.free)
          case None => t == s.(waiting := if FreeSet(s.m.free) == {} then s.waiting + {pid} else {pid})
          case Some((i, j, k)) =>
            i < NUM && j < NUM && k < NUM &&
            var c := Chain(i, j, k, b, write, block);
            t == s.(m := Posted(s.m, c), g := s.g.(chains := s.g.chains[i := c], offered := s.g.offered + [i]),
                    waiting := s.waiting - {pid}, sleepers := s.sleepers + {(pid, b)}))
    case Rewait(pid, h) =>
      && h in s.g.chains && s.g.chains[h].b in s.m.busy
      && t == s.(sleepers := s.sleepers + {(pid, s.g.chains[h].b)})
    case Finish(h) =>
      && h in s.g.chains && s.g.chains[h].b !in s.m.busy
      && Retired(s.m, h).Some?
      && t == s.(m := Retired(s.m, h).value, g := s.g.(chains := s.g.chains - {h}, done := s.g.done - {h}), waiting := {})
    case DeviceTake =>
      && s.m.devIdx != s.m.availIdx && s.g.offered != []
      && t == s.(m := s.m.(devIdx := (s.m.devIdx + 1) % WRAP),
                 g := s.g.(offered := s.g.offered[1..], held := s.g.held + {s.m.avail[s.m.devIdx % NUM]}, took := s.g.took + 1))
    case DeviceAnswer(h) =>
      && h in s.g.held && Answers(s, h, t)
      && t.g == s.g.(held := s.g.held - {h}, answered := s.g.answered + [h])
      && t.waiting == s.waiting && t.sleepers == s.sleepers
    case Interrupt =>
      && s.m.seenIdx != s.m.usedIdx && s.g.answered != []
      && var id := s.m.used[s.m.seenIdx % NUM];
      && id < NUM && s.m.info[id].status == 0 && s.m.info[id].b.Some?
      && var b := s.m.info[id].b.value;
      t == s.(m := s.m.(busy := s.m.busy - {b}, seenIdx := (s.m.seenIdx + 1) % WRAP), sleepers := Unwoken(s.sleepers, b),
              g := s.g.(answered := s.g.answered[1..], done := s.g.done + {id}, seen := s.g.seen + 1))
    case Wake(pid) =>
      t == s.(waiting := s.waiting - {pid}, sleepers := set x | x in s.sleepers && x.0 != pid)
  }

  // ---- the invariant ----

  predicate Triple(free: seq<bool>, c: Chain) {
    && c.d0 < |free| && c.d1 < |free| && c.d2 < |free|
    && c.d0 != c.d1 && c.d0 != c.d2 && c.d1 != c.d2
    && !free[c.d0] && !free[c.d1] && !free[c.d2]
  }

  /** The descriptors of chain c, headed by h, say what the request asks for. */
  predicate Written(m: Mem, h: nat, c: Chain)
    requires Shape(m)
  {
    && c.d0 == h && Triple(m.free, c)
    && m.desc[c.d0] == Desc(Header(c.d0), 16, NEXT, c.d1)
    && m.desc[c.d1] == Desc(Data(c.b), BSIZE, if c.write then NEXT else WRITE + NEXT, c.d2)
    && m.desc[c.d2] == Desc(Status(c.d0), 1, WRITE, 0)
    && m.ops[h] == Op(c.write, 2 * c.block) && m.info[h].b == Some(c.b)
  }

  predicate Separate(c: Chain, d: Chain) {
    !Part(c, d.d0) && !Part(c, d.d1) && !Part(c, d.d2) && c.b != d.b
  }

  ghost predicate Chains(m: Mem, chains: map<nat, Chain>)
    requires Shape(m)
  {
    && (forall h :: h in chains ==> Written(m, h, chains[h]))
    && (forall h, k :: h in chains && k in chains && h != k ==> Separate(chains[h], chains[k]))
  }

  ghost predicate Owned(chains: map<nat, Chain>, i: nat) {
    exists h :: h in chains && Part(chains[h], i)
  }

  /** Every descriptor is free and blank, or part of a chain. */
  ghost predicate Covered(m: Mem, chains: map<nat, Chain>)
    requires Shape(m)
  {
    forall i {:trigger m.free[i]} :: 0 <= i < NUM ==> if m.free[i] then m.desc[i] == ZERO else Owned(chains, i)
  }

  predicate Distinct(s: seq<nat>) {
    forall i, j :: 0 <= i < j < |s| ==> s[i] != s[j]
  }

  /** Every request is at exactly one stage. */
  ghost predicate Staged(g: Ledger) {
    && Distinct(g.offered) && Distinct(g.answered)
    && (forall h {:trigger h in g.offered} {:trigger h in g.answered} {:trigger h in g.held} {:trigger h in g.done} ::
          && (h in g.offered ==> h in g.chains && h !in g.held && h !in g.answered && h !in g.done)
          && (h in g.held ==> h in g.chains && h !in g.answered && h !in g.done)
          && (h in g.answered ==> h in g.chains && h !in g.done)
          && (h in g.done ==> h in g.chains))
    && (forall h :: h in g.chains ==> h in g.offered || h in g.held || h in g.answered || h in g.done)
  }

  function Slot(n: nat, k: nat): (i: nat)
    ensures i < NUM
  {
    (n + k) % NUM
  }

  /** A ring holds the entries from position n on. */
  ghost predicate Ring(ring: seq<nat>, n: nat, entries: seq<nat>) {
    && |ring| == NUM && |entries| < NUM
    && forall k {:trigger Slot(n, k)} :: 0 <= k < |entries| ==> ring[Slot(n, k)] == entries[k]
  }

  /** Both rings under their 16-bit indices. */
  ghost predicate Rings(m: Mem, g: Ledger) {
    && Ring(m.avail, g.took, g.offered) && Ring(m.used, g.seen, g.answered)
    && m.devIdx == g.took % WRAP && m.availIdx == (g.took + |g.offered|) % WRAP
    && m.seenIdx == g.seen % WRAP && m.usedIdx == (g.seen + |g.answered|) % WRAP
  }

  /** b->disk is 1 until the handler has seen the answer; the status is 0xff until the device's has
      arrived; and info points to a buffer for the requests in flight only. */
  ghost predicate Flags(m: Mem, g: Ledger)
    requires Shape(m)
  {
    && (forall h :: h in g.chains ==> (g.chains[h].b in m.busy <==> h !in g.done))
    && (forall h :: h in g.answered ==> h < NUM && m.info[h].status == 0)
    && (forall h :: h in g.offered || h in g.held ==> h < NUM && m.info[h].status == 0xff)
    && (forall i :: 0 <= i < NUM && m.info[i].b.Some? ==> i in g.chains)
  }

  /** Who sleeps on a buffer waits for an unfinished request; who sleeps on the free descriptors
      cannot have three. */
  ghost predicate Asleep(s: State) {
    && (forall x :: x in s.sleepers ==> x.1 in s.m.busy)
    && (s.waiting != {} ==> |s.g.chains| == 2)
  }

  ghost predicate Inv(s: State) {
    && Shape(s.m) && Chains(s.m, s.g.chains) && Covered(s.m, s.g.chains)
    && Staged(s.g) && Rings(s.m, s.g) && Flags(s.m, s.g) && Asleep(s)
  }

  // ---- counting ----

  predicate Below(i: nat, n: nat) { i < n }

  function Range(n: nat): set<nat> {
    set i: nat | i < n && Below(i, n)
  }

  lemma {:induction false} RangeSize(n: nat)
    ensures |Range(n)| == n
  {
    if n > 0 {
      RangeSize(n - 1);
      forall i: nat
        ensures i in Range(n) <==> i in Range(n - 1) || i == n - 1
      {
        assert Below(i, n) <==> Below(i, n - 1) || i == n - 1;
      }
      assert Range(n) == Range(n - 1) + {n - 1};
    }
  }

  ghost function OwnedSet(chains: map<nat, Chain>): set<nat> {
    set i: nat | i < NUM && Owned(chains, i)
  }

  lemma NothingOwned(chains: map<nat, Chain>)
    requires chains == map[]
    ensures OwnedSet(chains) == {}
  {
  }

  lemma ThreeMore(a: set<nat>, x: nat, y: nat, z: nat)
    requires x !in a && y !in a && z !in a && x != y && x != z && y != z
    ensures |a + {x, y, z}| == |a| + 3
  {
  }

  lemma WrittenParts(m: Mem, chains: map<nat, Chain>, h: nat)
    requires Shape(m) && Chains(m, chains) && h in chains
    ensures Triple(m.free, chains[h])
  {
    assert Written(m, h, chains[h]);
  }

  lemma PartsDiffer(m: Mem, chains: map<nat, Chain>, h: nat, k: nat, i: nat)
    requires Shape(m) && Chains(m, chains) && h in chains && k in chains && h != k
    ensures !(Part(chains[h], i) && Part(chains[k], i))
  {
    assert Separate(chains[h], chains[k]);
  }

  lemma OwnedWithout(m: Mem, chains: map<nat, Chain>, h: nat, i: nat)
    requires Shape(m) && Chains(m, chains) && h in chains
    ensures Owned(chains, i) <==> Owned(chains - {h}, i) || Part(chains[h], i)
    ensures !(Owned(chains - {h}, i) && Part(chains[h], i))
    ensures Owned(chains, i) ==> i < NUM && !m.free[i]
  {
    hide Chains;
    var rest := chains - {h};
    if Owned(chains, i) {
      var k :| k in chains && Part(chains[k], i);
      WrittenParts(m, chains, k);
      if k != h { assert k in rest && rest[k] == chains[k]; }
    }
    if Owned(rest, i) {
      var k :| k in rest && Part(rest[k], i);
      PartsDiffer(m, chains, h, k, i);
    }
  }

  lemma ChainsLess(m: Mem, chains: map<nat, Chain>, h: nat)
    requires Shape(m) && Chains(m, chains)
    ensures Chains(m, chains - {h})
  {
  }

  lemma OwnedSetWithout(m: Mem, chains: map<nat, Chain>, h: nat)
    requires Shape(m) && Chains(m, chains) && h in chains
    ensures OwnedSet(chains) == OwnedSet(chains - {h}) + {chains[h].d0, chains[h].d1, chains[h].d2}
    ensures forall i: nat :: i in OwnedSet(chains - {h}) ==> !Part(chains[h], i)
  {
    hide Chains, Owned;
    WrittenParts(m, chains, h);
    forall i: nat
      ensures i in OwnedSet(chains) <==> i in OwnedSet(chains - {h}) || Part(chains[h], i)
      ensures !(i in OwnedSet(chains - {h}) && Part(chains[h], i))
    {
      OwnedWithout(m, chains, h, i);
    }
  }

  lemma {:induction false} OwnedCount(m: Mem, chains: map<nat, Chain>)
    requires Shape(m) && Chains(m, chains)
    ensures |OwnedSet(chains)| == 3 * |chains|
    decreases |chains|
  {
    hide Chains, OwnedSet;
    if chains != map[] {
      var h :| h in chains;
      var rest, c := chains - {h}, chains[h];
      assert chains.Keys == rest.Keys + {h};
      ChainsLess(m, chains, h);
      OwnedCount(m, rest);
      WrittenParts(m, chains, h);
      OwnedSetWithout(m, chains, h);
      ThreeMore(OwnedSet(rest), c.d0, c.d1, c.d2);
    } else {
      NothingOwned(chains);
    }
  }

  /** Free descriptors and chains of three partition the NUM descriptors. */
  lemma Conservation(m: Mem, chains: map<nat, Chain>)
    requires Shape(m) && Chains(m, chains) && Covered(m, chains)
    ensures |FreeSet(m.free)| + 3 * |chains| == NUM && |chains| <= 2
  {
    hide Chains, Covered;
    OwnedCount(m, chains);
    RangeSize(NUM);
    var f, o, all := FreeSet(m.free), OwnedSet(chains), Range(NUM);
    forall i: nat
      ensures i in all <==> i in f || i in o
      ensures !(i in f && i in o)
    {
      OneOwner(m, chains, i);
      assert i in all <==> Below(i, NUM);
    }
    assert f + o == all;
  }

  lemma OneOwner(m: Mem, chains: map<nat, Chain>, i: nat)
    requires Shape(m) && Chains(m, chains) && Covered(m, chains)
    ensures Owned(chains, i) ==> i < NUM && !m.free[i]
    ensures i < NUM && !m.free[i] ==> Owned(chains, i)
  {
  }

  /** alloc3_desc fails exactly when two requests are in flight. */
  lemma Alloc3Exactly(m: Mem, chains: map<nat, Chain>)
    requires Shape(m) && Chains(m, chains) && Covered(m, chains)
    ensures Alloc3(m.free).None? <==> |chains| == 2
    ensures |chains| == 2 ==> |FreeSet(m.free)| == 2
  {
    hide Chains, Covered, Lowest;
    Conservation(m, chains);
    var i := Lowest(m.free, 0);
    var j := After(m.free, i);
    var k := After(m.free, j);
    if k < NUM {
      ThreeMore({}, i, j, k);
      Sets.SubsetSize({} + {i, j, k}, FreeSet(m.free));
    } else {
      Sets.SubsetSize(FreeSet(m.free), {i, j});
    }
  }

  lemma {:induction false} DistinctSize(s: seq<nat>, a: set<nat>)
    requires Distinct(s) && forall x :: x in s ==> x in a
    ensures |s| <= |a|
  {
    if s != [] {
      var l := s[|s| - 1];
      forall x | x in s[..|s| - 1]
        ensures x in a - {l}
      {
      }
      DistinctSize(s[..|s| - 1], a - {l});
    }
  }

  // ---- 16-bit indices ----

  lemma Wrapped(n: nat)
    ensures n % WRAP % NUM == n % NUM && (n % WRAP + 1) % WRAP == (n + 1) % WRAP
  {
    var q := n / WRAP;
    assert n == q * WRAP + n % WRAP;
    SameSlot(n % WRAP, q * 0x2000);
    assert n == n % WRAP + NUM * (q * 0x2000);
    if n % WRAP + 1 == WRAP {
      assert n + 1 == (q + 1) * WRAP;
    } else {
      assert n + 1 == q * WRAP + (n % WRAP + 1);
    }
  }

  lemma {:induction false} SameSlot(a: nat, k: nat)
    ensures (a + NUM * k) % NUM == a % NUM
  {
    if k > 0 {
      SameSlot(a, k - 1);
      assert a + NUM * k == a + NUM * (k - 1) + NUM;
    }
  }

  /** Equal indices mean an empty ring: it never holds as many as 2^16 entries. */
  lemma IndexTells(n: nat, k: nat)
    requires k < NUM
    ensures n % WRAP == (n + k) % WRAP <==> k == 0
  {
    var q := n / WRAP;
    assert n == q * WRAP + n % WRAP;
    if n % WRAP + k < WRAP {
      assert n + k == q * WRAP + (n % WRAP + k);
    } else {
      assert n + k == (q + 1) * WRAP + (n % WRAP + k - WRAP);
    }
  }

  lemma SlotsDiffer(n: nat, i: nat, j: nat)
    requires i < j < NUM
    ensures Slot(n, i) != Slot(n, j)
  {
  }

  lemma RingAdd(ring: seq<nat>, n: nat, entries: seq<nat>, e: nat)
    requires Ring(ring, n, entries) && |entries| + 1 < NUM
    ensures Ring(ring[(n + |entries|) % WRAP % NUM := e], n, entries + [e])
  {
    hide Slot;
    Wrapped(n + |entries|);
    SlotIs(n, |entries|);
    forall k {:trigger Slot(n, k)} | 0 <= k < |entries|
      ensures Slot(n, k) != Slot(n, |entries|)
    {
      SlotsDiffer(n, k, |entries|);
    }
  }

  lemma SlotIs(n: nat, k: nat)
    ensures Slot(n, k) == (n + k) % NUM && Slot(n + 1, k) == Slot(n, k + 1)
  {
  }

  lemma RingDrop(ring: seq<nat>, n: nat, entries: seq<nat>)
    requires Ring(ring, n, entries) && entries != []
    ensures ring[n % WRAP % NUM] == entries[0] && Ring(ring, n + 1, entries[1..])
  {
    hide Slot;
    Wrapped(n);
    SlotIs(n, 0);
    forall k {:trigger Slot(n + 1, k)} | 0 <= k < |entries| - 1
      ensures ring[Slot(n + 1, k)] == entries[1..][k]
    {
      SlotIs(n, k);
    }
  }

  // ---- virtio_disk_rw posts a request ----

  ghost predicate AllFree(m: Mem, c: Chain)
    requires Shape(m)
  {
    && c.d0 < c.d1 < c.d2 < NUM && m.free[c.d0] && m.free[c.d1] && m.free[c.d2]
  }

  lemma AllocatedFree(m: Mem, c: Chain)
    requires Shape(m) && Alloc3(m.free) == Some((c.d0, c.d1, c.d2))
    ensures AllFree(m, c)
  {
  }

  lemma PostedNew(m: Mem, c: Chain)
    requires Shape(m) && AllFree(m, c)
    ensures Written(Posted(m, c), c.d0, c)
  {
  }

  lemma PostedOld(m: Mem, c: Chain, h: nat, d: Chain)
    requires Shape(m) && AllFree(m, c) && Written(m, h, d) && c.b != d.b
    ensures Written(Posted(m, c), h, d) && Separate(c, d) && Separate(d, c) && h != c.d0
  {
  }

  lemma PostedChains(m: Mem, chains: map<nat, Chain>, c: Chain)
    requires Shape(m) && AllFree(m, c) && Chains(m, chains) && forall h :: h in chains ==> chains[h].b != c.b
    ensures c.d0 !in chains && Chains(Posted(m, c), chains[c.d0 := c])
  {
    hide Written, Separate, Posted;
    PostedNew(m, c);
    forall h | h in chains
      ensures h != c.d0 && Written(Posted(m, c), h, chains[h]) && Separate(c, chains[h]) && Separate(chains[h], c)
    {
      PostedOld(m, c, h, chains[h]);
    }
  }

  lemma PostedOne(m: Mem, c: Chain, i: nat)
    requires Shape(m) && AllFree(m, c) && i < NUM
    ensures Posted(m, c).free[i] <==> m.free[i] && !Part(c, i)
    ensures !Part(c, i) ==> Posted(m, c).desc[i] == m.desc[i]
  {
  }

  lemma PostedCovered(m: Mem, chains: map<nat, Chain>, c: Chain)
    requires Shape(m) && AllFree(m, c) && Covered(m, chains) && c.d0 !in chains
    ensures Covered(Posted(m, c), chains[c.d0 := c])
  {
    hide Part, Posted;
    var m', chains' := Posted(m, c), chains[c.d0 := c];
    forall i {:trigger m'.free[i]} | 0 <= i < NUM
      ensures if m'.free[i] then m'.desc[i] == ZERO else Owned(chains', i)
    {
      PostedOne(m, c, i);
      if !m.free[i] {
        var h :| h in chains && Part(chains[h], i);
        assert h in chains' && chains'[h] == chains[h];
      } else if Part(c, i) {
        assert chains'[c.d0] == c;
      }
    }
  }

  lemma PostedStaged(g: Ledger, i: nat, c: Chain)
    requires Staged(g) && i !in g.chains
    ensures Staged(g.(chains := g.chains[i := c], offered := g.offered + [i]))
  {
    DistinctAdd(g.offered, i);
  }

  lemma DistinctAdd(s: seq<nat>, x: nat)
    requires Distinct(s)
    ensures forall y {:trigger y in s + [x]} {:trigger y in s} :: y in s + [x] <==> y in s || y == x
    ensures x !in s ==> Distinct(s + [x])
  {
  }

  lemma DistinctDrop(s: seq<nat>)
    requires Distinct(s) && s != []
    ensures Distinct(s[1..]) && forall y {:trigger y in s[1..]} {:trigger y in s} :: y in s[1..] <==> y in s && y != s[0]
  {
  }

  lemma FewEntries(s: State)
    requires Inv(s)
    ensures |s.g.offered| <= |s.g.chains| && |s.g.answered| <= |s.g.chains| && |s.g.chains| <= 2
  {
    Conservation(s.m, s.g.chains);
    DistinctSize(s.g.offered, s.g.chains.Keys);
    DistinctSize(s.g.answered, s.g.chains.Keys);
    assert |s.g.chains.Keys| == |s.g.chains|;
  }

  lemma PostedRings(m: Mem, g: Ledger, c: Chain)
    requires Shape(m) && AllFree(m, c) && Rings(m, g) && |g.offered| <= 2
    ensures Rings(Posted(m, c), g.(chains := g.chains[c.d0 := c], offered := g.offered + [c.d0]))
  {
    hide Ring;
    RingAdd(m.avail, g.took, g.offered, c.d0);
    Wrapped(g.took + |g.offered|);
  }

  lemma PostedFlags(m: Mem, g: Ledger, c: Chain)
    requires Shape(m) && AllFree(m, c) && Flags(m, g) && Staged(g) && c.d0 !in g.chains
    requires forall h :: h in g.chains ==> g.chains[h].b != c.b
    ensures Flags(Posted(m, c), g.(chains := g.chains[c.d0 := c], offered := g.offered + [c.d0]))
  {
  }

  lemma BeginKeeps(s: State, a: Action, t: State)
    requires Inv(s) && a.Begin? && Step(s, a, t)
    ensures Inv(t)
  {
    hide Chains, Covered, Staged, Rings, Flags, Alloc3, Posted;
    Alloc3Exactly(s.m, s.g.chains);
    match Alloc3(s.m.free) {
      case None =>
      case Some((i, j, k)) =>
        var c := Chain(i, j, k, a.b, a.write, a.block);
        AllocatedFree(s.m, c);
        FewEntries(s);
        PostedChains(s.m, s.g.chains, c);
        PostedCovered(s.m, s.g.chains, c);
        PostedStaged(s.g, i, c);
        PostedRings(s.m, s.g, c);
        PostedFlags(s.m, s.g, c);
        PostedBusy(s.m, c);
    }
  }

  lemma PostedBusy(m: Mem, c: Chain)
    requires Shape(m) && AllFree(m, c)
    ensures Posted(m, c).busy == m.busy + {c.b}
  {
  }

  // ---- it frees the chain of a finished request ----

  /** free_chain frees the three descriptors of the request and no other, and does not panic. */
  lemma ChainIsOwn(m: Mem, h: nat, c: Chain)
    requires Shape(m) && Written(m, h, c)
    ensures ChainFrom(m.desc, m.free, h) == Some([c.d0, c.d1, c.d2])
  {
    var f1 := m.free[c.d0 := true];
    var f2 := f1[c.d1 := true];
    BusyShrinks(m.free, c.d0);
    BusyShrinks(f1, c.d1);
    assert ChainFrom(m.desc, f2, c.d2) == Some([c.d2]);
    assert ChainFrom(m.desc, f1, c.d1) == Some([c.d1] + [c.d2]);
    assert ChainFrom(m.desc, m.free, c.d0) == Some([c.d0] + ([c.d1] + [c.d2]));
    assert [c.d0] + ([c.d1] + [c.d2]) == [c.d0, c.d1, c.d2];
  }

  /** The memory after a finished request, descriptor by descriptor. */
  ghost predicate Freed(m: Mem, h: nat, c: Chain, r: Mem)
    requires Shape(m) && Shape(r) && h < NUM
  {
    && r == m.(desc := r.desc, free := r.free, info := m.info[h := Info(None, m.info[h].status)])
    && forall i {:trigger r.free[i]} {:trigger r.desc[i]} :: 0 <= i < NUM ==>
        r.free[i] == (m.free[i] || Part(c, i)) && r.desc[i] == if Part(c, i) then ZERO else m.desc[i]
  }

  lemma RetiredFreed(m: Mem, h: nat, c: Chain)
    requires Shape(m) && Written(m, h, c)
    ensures Retired(m, h).Some? && h < NUM && Shape(Retired(m, h).value) && Freed(m, h, c, Retired(m, h).value)
  {
    hide ChainFrom;
    ChainIsOwn(m, h, c);
  }

  lemma FreedOther(m: Mem, h: nat, c: Chain, r: Mem, k: nat, d: Chain)
    requires Shape(m) && Shape(r) && Written(m, h, c) && Written(m, k, d) && Freed(m, h, c, r) && Separate(c, d)
    ensures Written(r, k, d)
  {
  }

  lemma FreedChains(m: Mem, chains: map<nat, Chain>, h: nat, r: Mem)
    requires Shape(m) && Shape(r) && Chains(m, chains) && h in chains && h < NUM && Freed(m, h, chains[h], r)
    ensures Chains(r, chains - {h})
  {
    hide Written, Separate, Freed;
    forall k | k in chains && k != h
      ensures Written(r, k, chains[k])
    {
      FreedOther(m, h, chains[h], r, k, chains[k]);
    }
  }

  lemma FreedCovered(m: Mem, chains: map<nat, Chain>, h: nat, r: Mem)
    requires Shape(m) && Shape(r) && Chains(m, chains) && Covered(m, chains) && h in chains && h < NUM && Freed(m, h, chains[h], r)
    ensures Covered(r, chains - {h})
  {
    hide Chains, Part, Owned;
    forall i {:trigger r.free[i]} | 0 <= i < NUM
      ensures if r.free[i] then r.desc[i] == ZERO else Owned(chains - {h}, i)
    {
      OwnedWithout(m, chains, h, i);
    }
  }

  lemma FreedRest(m: Mem, g: Ledger, h: nat, r: Mem)
    requires Shape(m) && Shape(r) && Chains(m, g.chains) && h in g.chains && h < NUM && h in g.done && Freed(m, h, g.chains[h], r)
    requires Staged(g) && Rings(m, g) && Flags(m, g)
    ensures var g' := g.(chains := g.chains - {h}, done := g.done - {h});
      Staged(g') && Rings(r, g') && Flags(r, g')
  {
    hide Chains, Ring;
  }

  lemma FinishKeeps(s: State, a: Action, t: State)
    requires Inv(s) && a.Finish? && Step(s, a, t)
    ensures Inv(t)
  {
    hide Chains, Covered, Staged, Rings, Flags, Written, Retired, Freed;
    var h, c := a.h, s.g.chains[a.h];
    HeadWritten(s.m, s.g.chains, h);
    RetiredFreed(s.m, h, c);
    FlagTells(s.m, s.g, h);
    FreedBusy(s.m, h, c, t.m);
    FreedChains(s.m, s.g.chains, h, t.m);
    FreedCovered(s.m, s.g.chains, h, t.m);
    FreedRest(s.m, s.g, h, t.m);
  }

  lemma HeadWritten(m: Mem, chains: map<nat, Chain>, h: nat)
    requires Shape(m) && Chains(m, chains) && h in chains
    ensures Written(m, h, chains[h]) && h < NUM
  {
  }

  lemma FlagTells(m: Mem, g: Ledger, h: nat)
    requires Shape(m) && Flags(m, g) && h in g.chains
    ensures g.chains[h].b in m.busy <==> h !in g.done
  {
  }

  lemma FreedBusy(m: Mem, h: nat, c: Chain, r: Mem)
    requires Shape(m) && Shape(r) && h < NUM && Freed(m, h, c, r)
    ensures r.busy == m.busy
  {
  }

  // ---- the device ----

  /** Following the descriptors of a chain, the device finds the request as it was made. */
  lemma FollowsRequest(m: Mem, h: nat, c: Chain)
    requires Shape(m) && Written(m, h, c)
    ensures Follow(m, h) == Some(Request(Op(c.write, 2 * c.block), c.b, !c.write, h))
  {
  }

  lemma TakeKeeps(s: State, a: Action, t: State)
    requires Inv(s) && a.DeviceTake? && Step(s, a, t)
    ensures Inv(t)
  {
    hide Chains, Covered, Ring, Written, Owned;
    var h := s.g.offered[0];
    RingDrop(s.m.avail, s.g.took, s.g.offered);
    Wrapped(s.g.took);
    TakenStaged(s.g);
    SameChains(s.m, t.m, s.g.chains);
  }

  /** A conforming device, which compares the avail ring's index with its own, finds an entry
      exactly when a request is offered, and the oldest first. */
  lemma DeviceFindsOffered(s: State)
    requires Inv(s)
    ensures s.m.devIdx != s.m.availIdx <==> s.g.offered != []
    ensures s.g.offered != [] ==> s.m.avail[s.m.devIdx % NUM] == s.g.offered[0] && s.g.offered[0] in s.g.chains
  {
    hide Ring, Chains, Covered, Written;
    RingRoom(s.m.avail, s.g.took, s.g.offered);
    IndexTells(s.g.took, |s.g.offered|);
    if s.g.offered != [] {
      RingDrop(s.m.avail, s.g.took, s.g.offered);
      assert s.g.offered[0] in s.g.offered;
    }
  }

  lemma TakenStaged(g: Ledger)
    requires Staged(g) && g.offered != []
    ensures Staged(g.(offered := g.offered[1..], held := g.held + {g.offered[0]}, took := g.took + 1))
  {
    DistinctDrop(g.offered);
  }

  /** Chains and cover depend on the descriptors, the free flags, the headers and info[].b only. */
  lemma SameChains(m: Mem, r: Mem, chains: map<nat, Chain>)
    requires Shape(m) && Shape(r) && Chains(m, chains) && Covered(m, chains)
    requires r.desc == m.desc && r.free == m.free && r.ops == m.ops
    requires forall i :: 0 <= i < NUM ==> r.info[i].b == m.info[i].b
    ensures Chains(r, chains) && Covered(r, chains)
  {
  }

  lemma AnsweredStaged(g: Ledger, h: nat)
    requires Staged(g) && h in g.held
    ensures Staged(g.(held := g.held - {h}, answered := g.answered + [h]))
  {
    DistinctAdd(g.answered, h);
  }

  lemma AnsweredRings(m: Mem, g: Ledger, h: nat, r: Mem)
    requires Rings(m, g) && |g.answered| <= 2
    requires r == m.(info := r.info, used := m.used[m.usedIdx % NUM := h], usedIdx := (m.usedIdx + 1) % WRAP)
    ensures Rings(r, g.(held := g.held - {h}, answered := g.answered + [h]))
  {
    hide Ring;
    RingAdd(m.used, g.seen, g.answered, h);
    Wrapped(g.seen + |g.answered|);
  }

  lemma AnsweredFlags(m: Mem, g: Ledger, h: nat, r: Mem)
    requires Shape(m) && Shape(r) && Staged(g) && Flags(m, g) && h in g.held && h < NUM
    requires r.busy == m.busy && r.info == m.info[h := m.info[h].(status := 0)]
    ensures Flags(r, g.(held := g.held - {h}, answered := g.answered + [h]))
  {
  }

  lemma AnswerKeeps(s: State, a: Action, t: State)
    requires Inv(s) && a.DeviceAnswer? && Step(s, a, t)
    ensures Inv(t)
  {
    hide Chains, Covered, Staged, Rings, Flags, Written, Follow;
    var h := a.h;
    HeldIsChain(s.g, h);
    HeadWritten(s.m, s.g.chains, h);
    FollowsRequest(s.m, h, s.g.chains[h]);
    FewEntries(s);
    SameChains(s.m, t.m, s.g.chains);
    AnsweredStaged(s.g, h);
    AnsweredRings(s.m, s.g, h, t.m);
    AnsweredFlags(s.m, s.g, h, t.m);
  }

  lemma HeldIsChain(g: Ledger, h: nat)
    requires Staged(g) && h in g.held
    ensures h in g.chains
  {
  }

  // ---- the interrupt ----

  /** Every entry of the used ring that the handler reads is the head of an answered request whose
      buffer is still waiting; there is one exactly when the indices differ. */
  lemma UsedEntryMatches(s: State)
    requires Inv(s)
    ensures s.m.seenIdx != s.m.usedIdx <==> s.g.answered != []
    ensures s.g.answered != [] ==>
      var id := s.m.used[s.m.seenIdx % NUM];
      && id == s.g.answered[0] && id in s.g.chains && id !in s.g.done
      && id < NUM && s.m.info[id] == Info(Some(s.g.chains[id].b), 0) && s.g.chains[id].b in s.m.busy
  {
    hide Ring, Chains, Covered, Written;
    RingRoom(s.m.used, s.g.seen, s.g.answered);
    IndexTells(s.g.seen, |s.g.answered|);
    if s.g.answered != [] {
      RingDrop(s.m.used, s.g.seen, s.g.answered);
      var id := s.g.answered[0];
      assert id in s.g.answered;
      HeadWritten(s.m, s.g.chains, id);
      WrittenInfo(s.m, id, s.g.chains[id]);
    }
  }

  lemma RingRoom(ring: seq<nat>, n: nat, entries: seq<nat>)
    requires Ring(ring, n, entries)
    ensures |entries| < NUM
  {
  }

  lemma WrittenInfo(m: Mem, h: nat, c: Chain)
    requires Shape(m) && Written(m, h, c)
    ensures h < NUM && m.info[h].b == Some(c.b)
  {
  }

  lemma SeenStaged(g: Ledger)
    requires Staged(g) && g.answered != []
    ensures Staged(g.(answered := g.answered[1..], done := g.done + {g.answered[0]}, seen := g.seen + 1))
  {
    DistinctDrop(g.answered);
  }

  lemma SeenFlags(m: Mem, g: Ledger)
    requires Shape(m) && Chains(m, g.chains) && Staged(g) && Flags(m, g) && g.answered != [] && g.answered[0] in g.chains
    ensures var id := g.answered[0];
      Flags(m.(busy := m.busy - {g.chains[id].b}, seenIdx := (m.seenIdx + 1) % WRAP),
            g.(answered := g.answered[1..], done := g.done + {id}, seen := g.seen + 1))
  {
    hide Written;
    var id := g.answered[0];
    DistinctDrop(g.answered);
    forall h | h in g.chains && h != id
      ensures g.chains[h].b != g.chains[id].b
    {
      assert Separate(g.chains[h], g.chains[id]);
    }
  }

  lemma SeenRings(m: Mem, g: Ledger, busy: set<nat>)
    requires Rings(m, g) && g.answered != []
    ensures Rings(m.(busy := busy, seenIdx := (m.seenIdx + 1) % WRAP),
                  g.(answered := g.answered[1..], done := g.done + {g.answered[0]}, seen := g.seen + 1))
  {
    hide Ring;
    RingDrop(m.used, g.seen, g.answered);
    Wrapped(g.seen);
  }

  lemma InterruptKeeps(s: State, a: Action, t: State)
    requires Inv(s) && a.Interrupt? && Step(s, a, t)
    ensures Inv(t)
  {
    hide Chains, Covered, Staged, Rings, Flags;
    UsedEntryMatches(s);
    var id := s.g.answered[0];
    SameChains(s.m, t.m, s.g.chains);
    SeenStaged(s.g);
    SeenFlags(s.m, s.g);
    SeenRings(s.m, s.g, t.m.busy);
  }

  // ---- every run ----

  lemma StepKeeps(s: State, a: Action, t: State)
    requires Inv(s) && Step(s, a, t)
    ensures Inv(t)
  {
    hide Inv, Step;
    match a
    case Begin(_, _, _, _) => BeginKeeps(s, a, t);
    case Finish(_) => FinishKeeps(s, a, t);
    case DeviceTake => TakeKeeps(s, a, t);
    case DeviceAnswer(_) => AnswerKeeps(s, a, t);
    case Interrupt => InterruptKeeps(s, a, t);
    case Rewait(_, _) => SleepKeeps(s, a, t);
    case Wake(_) => SleepKeeps(s, a, t);
  }

  lemma SleepKeeps(s: State, a: Action, t: State)
    requires Inv(s) && (a.Rewait? || a.Wake?) && Step(s, a, t)
    ensures Inv(t)
  {
    hide Chains, Covered, Staged, Rings, Flags;
  }

  ghost predicate Initial(s: State) {
    && Shape(s.m) && (forall i :: 0 <= i < NUM ==> s.m.free[i] && s.m.desc[i] == ZERO && s.m.info[i].b.None?)
    && s.m.availIdx == s.m.usedIdx == s.m.seenIdx == s.m.devIdx == 0 && s.m.busy == {}
    && s.g == Ledger(map[], [], {}, [], {}, 0, 0) && s.waiting == {} && s.sleepers == {}
  }

  ghost predicate Run(ss: seq<State>, acts: seq<Action>) {
    && |ss| == |acts| + 1 && Initial(ss[0]) && (forall i :: 0 <= i < |ss| ==> Shape(ss[i].m))
    && forall i :: 0 <= i < |acts| ==> Step(ss[i], acts[i], ss[i + 1])
  }

  /** Over any interleaving of processes, device and handler: free descriptors and in-flight chains
      of three partition the NUM descriptors, at most two requests are in flight, whoever sleeps
      for descriptors cannot be served, and whoever sleeps on a buffer is owed an answer. */
  lemma {:induction false} QueueIsSafe(ss: seq<State>, acts: seq<Action>, k: nat)
    requires Run(ss, acts) && k < |ss|
    ensures Inv(ss[k])
    ensures |FreeSet(ss[k].m.free)| + 3 * |ss[k].g.chains| == NUM && |ss[k].g.chains| <= 2
    ensures ss[k].waiting != {} ==> Alloc3(ss[k].m.free).None?
    ensures forall x :: x in ss[k].sleepers ==> x.1 in ss[k].m.busy
    ensures Blank(ss[k].m.desc, ss[k].m.free)
  {
    hide Step, Chains, Covered, Alloc3;
    if k > 0 {
      QueueIsSafe(ss, acts, k - 1);
      StepKeeps(ss[k - 1], acts[k - 1], ss[k]);
    } else {
      InitialInv(ss[0]);
    }
    Conservation(ss[k].m, ss[k].g.chains);
    Alloc3Exactly(ss[k].m, ss[k].g.chains);
    CoveredBlank(ss[k].m, ss[k].g.chains);
  }

  lemma CoveredBlank(m: Mem, chains: map<nat, Chain>)
    requires Shape(m) && Covered(m, chains)
    ensures Blank(m.desc, m.free)
  {
  }

  lemma InitialInv(s: State)
    requires Initial(s)
    ensures Inv(s)
  {
  }

  /** The device moves exactly the block of the request to or from its buffer. */
  lemma RequestServed(s: State, h: nat, t: State)
    requires Inv(s) && Step(s, DeviceAnswer(h), t)
    ensures h in s.g.chains
    ensures var c := s.g.chains[h];
      if c.write then
        && BlockOf(t.disk, c.block) == DataOf(s.bufs, c.b) && t.bufs == s.bufs
        && forall n :: n != c.block ==> BlockOf(t.disk, n) == BlockOf(s.disk, n)
      else
        && DataOf(t.bufs, c.b) == BlockOf(s.disk, c.block) && t.disk == s.disk
        && forall b :: b != c.b ==> DataOf(t.bufs, b) == DataOf(s.bufs, b)
  {
    hide Chains, Covered, Staged, Rings, Flags, Written, Follow;
    HeldIsChain(s.g, h);
    HeadWritten(s.m, s.g.chains, h);
    FollowsRequest(s.m, h, s.g.chains[h]);
  }

  /** A request whose flag is clear gives back its own three descriptors; neither panic of
      free_desc can be reached. */
  lemma FinishFreesOwn(s: State, h: nat)
    requires Inv(s) && h in s.g.chains && s.g.chains[h].b !in s.m.busy
    ensures Retired(s.m, h).Some?
    ensures FreeSet(Retired(s.m, h).value.free) == FreeSet(s.m.free) + {s.g.chains[h].d0, s.g.chains[h].d1, s.g.chains[h].d2}
    ensures |FreeSet(Retired(s.m, h).value.free)| == |FreeSet(s.m.free)| + 3
  {
    hide Chains, Covered, Staged, Rings, Flags, Retired;
    var c := s.g.chains[h];
    HeadWritten(s.m, s.g.chains, h);
    RetiredFreed(s.m, h, c);
    var r := Retired(s.m, h).value;
    forall i: nat
      ensures i in FreeSet(r.free) <==> i in FreeSet(s.m.free) || Part(c, i)
    {
      if i < NUM { assert r.free[i] == (s.m.free[i] || Part(c, i)); }
    }
    assert FreeSet(r.free) == FreeSet(s.m.free) + {c.d0, c.d1, c.d2};
    ThreeMore(FreeSet(s.m.free), c.d0, c.d1, c.d2);
  }

  // ---- the whole loop of the handler ----

  /** virtio_disk_intr on the memory; None when it panics. */
  function Drained(m: Mem): Option<Mem>
    requires Shape(m) && m.seenIdx < WRAP && m.usedIdx < WRAP
    decreases (m.usedIdx - m.seenIdx) % WRAP
  {
    if m.seenIdx == m.usedIdx then Some(m) else
    var id := m.used[m.seenIdx % NUM];
    if id >= NUM || m.info[id].status != 0 || m.info[id].b.None? then None
    else
      Nearer(m.seenIdx, m.usedIdx);
      Drained(m.(busy := m.busy - {m.info[id].b.value}, seenIdx := (m.seenIdx + 1) % WRAP))
  }

  lemma Nearer(a: nat, b: nat)
    requires a < WRAP && b < WRAP && a != b
    ensures (b - (a + 1) % WRAP) % WRAP == (b - a) % WRAP - 1
  {
    if a < b {
      assert (b - a) % WRAP == b - a;
    } else {
      assert (b - a) % WRAP == b - a + WRAP;
    }
  }

  ghost predicate Answered(g: Ledger, b: nat) {
    exists h :: h in g.answered && h in g.chains && g.chains[h].b == b
  }

  lemma OneSeen(s: State) returns (t: State)
    requires Inv(s) && s.g.answered != []
    ensures s.g.answered[0] in s.g.chains && s.m.seenIdx < WRAP && s.m.usedIdx < WRAP && t.m.seenIdx < WRAP
    ensures Inv(t) && t.g.answered == s.g.answered[1..] && t.g.chains == s.g.chains
    ensures t.m == s.m.(busy := s.m.busy - {s.g.chains[s.g.answered[0]].b}, seenIdx := (s.m.seenIdx + 1) % WRAP)
    ensures Drained(s.m) == Drained(t.m)
  {
    hide Chains, Covered, Staged, Flags, Ring;
    UsedEntryMatches(s);
    IndicesInRange(s.m, s.g);
    var id := s.g.answered[0];
    var b := s.g.chains[id].b;
    t := s.(m := s.m.(busy := s.m.busy - {b}, seenIdx := (s.m.seenIdx + 1) % WRAP), sleepers := Unwoken(s.sleepers, b),
            g := s.g.(answered := s.g.answered[1..], done := s.g.done + {id}, seen := s.g.seen + 1));
    assert Step(s, Interrupt, t);
    InterruptKeeps(s, Interrupt, t);
  }

  /** It does not panic, and clears the flag of exactly the answered requests. */
  lemma {:induction false} DrainsAll(s: State)
    requires Inv(s)
    ensures s.m.seenIdx < WRAP && s.m.usedIdx < WRAP && Drained(s.m).Some?
    ensures Drained(s.m).value.seenIdx == s.m.usedIdx
    ensures forall b :: b in Drained(s.m).value.busy <==> b in s.m.busy && !Answered(s.g, b)
    decreases |s.g.answered|
  {
    hide Chains, Covered, Staged, Flags, Rings;
    UsedEntryMatches(s);
    IndicesInRange(s.m, s.g);
    if s.g.answered != [] {
      var t := OneSeen(s);
      DrainsAll(t);
      AnsweredFirst(s.g, t.g);
    }
  }

  lemma IndicesInRange(m: Mem, g: Ledger)
    requires Rings(m, g)
    ensures m.seenIdx < WRAP && m.usedIdx < WRAP
  {
  }

  lemma AnsweredFirst(g: Ledger, g': Ledger)
    requires g.answered != [] && g'.answered == g.answered[1..] && g'.chains == g.chains && g.answered[0] in g.chains
    ensures forall b :: Answered(g, b) <==> Answered(g', b) || b == g.chains[g.answered[0]].b
  {
  }

  // ---- the code ----

  lemma {:induction false} LowestIs(free: seq<bool>, i: nat, k: nat)
    requires i <= k <= |free| && (k < |free| ==> free[k]) && forall j :: i <= j < k ==> !free[j]
    ensures Lowest(free, i) == k
  {
  }

  class Disk {
    const desc: array<Desc>
    const free: array<bool>
    const ops: array<Op>
    const info: array<Info>
    const avail: array<nat>
    const used: array<nat>
    var availIdx: nat
    var usedIdx: nat
    var seenIdx: nat
    var devIdx: nat
    var busy: set<nat>

    ghost predicate Valid()
      reads this
    {
      && desc.Length == free.Length == ops.Length == info.Length == avail.Length == used.Length == NUM
      && avail != used && seenIdx < WRAP && usedIdx < WRAP
    }

    ghost function Abstract(): (m: Mem)
      requires Valid()
      reads this, desc, free, ops, info, avail, used
      ensures Shape(m)
    {
      Mem(desc[..], free[..], ops[..], info[..], avail[..], availIdx, used[..], usedIdx, seenIdx, devIdx, busy)
    }

    /** virtio_disk_init, once the device has been set up. */
    constructor ()
      ensures Valid() && fresh(desc) && fresh(free) && fresh(ops) && fresh(info) && fresh(avail) && fresh(used)
      ensures Initial(State(Abstract(), Ledger(map[], [], {}, [], {}, 0, 0), {}, {}, map[], map[]))
    {
      desc := new Desc[NUM](_ => ZERO);
      free := new bool[NUM](_ => true);
      ops := new Op[NUM](_ => Op(false, 0));
      info := new Info[NUM](_ => Info(None, 0));
      avail := new nat[NUM](_ => 0);
      used := new nat[NUM](_ => 0);
      availIdx, usedIdx, seenIdx, devIdx, busy := 0, 0, 0, 0, {};
    }

    method AllocDesc() returns (i: int)
      requires Valid()
      modifies free
      ensures Lowest(old(free[..]), 0) == NUM ==> i == -1 && free[..] == old(free[..])
      ensures Lowest(old(free[..]), 0) < NUM ==> i == Lowest(old(free[..]), 0) && free[..] == old(free[..])[i := false]
    {
      i := 0;
      while i < NUM
        invariant 0 <= i <= NUM && free[..] == old(free[..])
        invariant forall j :: 0 <= j < i ==> !free[j]
      {
        if free[i] {
          LowestIs(free[..], 0, i);
          free[i] := false;
          return;
        }
        i := i + 1;
      }
      LowestIs(free[..], 0, NUM);
      i := -1;
    }

    /** ok is false where the code panics. */
    method FreeDesc(i: nat) returns (ok: bool)
      requires Valid()
      modifies desc, free
      ensures ok <==> i < NUM && !old(free[..])[i]
      ensures !ok ==> desc[..] == old(desc[..]) && free[..] == old(free[..])
      ensures ok ==> desc[..] == old(desc[..])[i := ZERO] && free[..] == old(free[..])[i := true]
    {
      if i >= NUM || free[i] {
        return false;
      }
      desc[i] := ZERO;
      free[i] := true;
      return true;
    }

    method FreeChain(start: nat) returns (ok: bool)
      requires Valid()
      modifies desc, free
      ensures ok <==> ChainFrom(old(desc[..]), old(free[..]), start).Some?
      ensures ok ==>
        var ds := ChainFrom(old(desc[..]), old(free[..]), start).value;
        && (forall k :: 0 <= k < |ds| ==> ds[k] < NUM)
        && desc[..] == Cleared(old(desc[..]), ds) && free[..] == Released(old(free[..]), ds)
    {
      hide ChainFrom, Cleared, Released, Busy;
      ghost var d0, f0 := desc[..], free[..];
      ghost var total := ChainFrom(d0, f0, start);
      ghost var ds: seq<nat> := [];
      var i: nat := start;
      assert Cleared(d0, ds) == d0 && Released(f0, ds) == f0;
      while true
        invariant forall k :: 0 <= k < |ds| ==> ds[k] < NUM
        invariant desc[..] == Cleared(d0, ds) && free[..] == Released(f0, ds)
        invariant total.Some? <==> ChainFrom(d0, free[..], i).Some?
        invariant total.Some? ==> total.value == ds + ChainFrom(d0, free[..], i).value
        invariant |free[..]| == NUM
        decreases |Busy(free[..])|
      {
        ghost var f := free[..];
        ChainStep(d0, f, i);
        if i >= NUM || free[i] {
          return false;
        }
        var flag, nxt := desc[i].flags, desc[i].next;
        assert i !in ds && desc[i] == d0[i];
        ok := FreeDesc(i);
        ChainGrows(d0, f0, ds, i);
        ds := ds + [i];
        if flag % 2 == NEXT {
          i := nxt;
        } else {
          return true;
        }
      }
    }

    /** All or nothing: the three lowest free descriptors, or everything as it was. */
    method Alloc3Desc(idx: array<int>) returns (r: int)
      requires Valid() && idx.Length == 3 && Blank(desc[..], free[..])
      modifies desc, free, idx
      ensures desc[..] == old(desc[..])
      ensures r == 0 <==> Alloc3(old(free[..])).Some?
      ensures r != 0 ==> r == -1 && free[..] == old(free[..])
      ensures r == 0 ==>
        var (i, j, k) := Alloc3(old(free[..])).value;
        && idx[0] == i && idx[1] == j && idx[2] == k && (forall n :: 0 <= n < 3 ==> 0 <= idx[n] < NUM)
        && free[..] == old(free[..])[i := false][j := false][k := false]
    {
      hide Lowest, Picked, Blank, Alloc3;
      ghost var f0, d0 := free[..], desc[..];
      ghost var ds: seq<nat> := [];
      var i := 0;
      PickNone(f0);
      while i < 3
        invariant 0 <= i <= 3 && |ds| == i && desc[..] == d0 && Picked(f0, ds, free[..])
        invariant forall j {:trigger idx[j]} :: 0 <= j < i ==> idx[j] == ds[j]
      {
        ghost var f := free[..];
        var d := AllocDesc();
        idx[i] := d;
        if idx[i] < 0 {
          PickedAll(f0, ds, f);
          Rollback(idx, i, f0, ds);
          return -1;
        }
        PickNext(f0, ds, f);
        ds := ds + [d];
        i := i + 1;
      }
      PickedThree(f0, ds, free[..]);
      r := 0;
    }

    /** What alloc3_desc does when it runs out: give back the i descriptors it already has. */
    method Rollback(idx: array<int>, i: nat, ghost f0: seq<bool>, ghost ds: seq<nat>)
      requires Valid() && i < idx.Length && |ds| == i && (forall j :: 0 <= j < i ==> idx[j] == ds[j])
      requires Picked(f0, ds, free[..]) && Blank(desc[..], f0)
      modifies desc, free
      ensures desc[..] == old(desc[..]) && free[..] == f0
    {
      hide Blank;
      var j := 0;
      while j < i
        invariant 0 <= j <= i && desc[..] == old(desc[..])
        invariant forall x :: 0 <= x < NUM ==> free[x] == (f0[x] && x !in ds[j..])
      {
        assert ds[j..] == [ds[j]] + ds[j + 1..];
        PickedAt(f0, ds, old(free[..]), j);
        BlankAt(desc[..], f0, ds[j]);
        var ok := FreeDesc(idx[j] as nat);
        assert desc[..] == old(desc[..]);
        j := j + 1;
      }
      assert ds[i..] == [];
    }

    /** virtio_disk_rw from taking vdisk_lock to its first sleep: asleep for descriptors (-1), or
        the request is posted under the returned head. */
    method DiskRw(b: nat, write: bool, blockno: nat) returns (h: int)
      requires Valid() && Blank(desc[..], free[..])
      modifies this`availIdx, this`busy, desc, free, ops, info, avail
      ensures Valid()
      ensures Alloc3(old(free[..])).None? ==> h == -1 && Abstract() == old(Abstract())
      ensures Alloc3(old(free[..])).Some? ==>
        var (i, j, k) := Alloc3(old(free[..])).value;
        && h == i && i < NUM && j < NUM && k < NUM
        && Abstract() == Posted(old(Abstract()), Chain(i, j, k, b, write, blockno))
    {
      hide Alloc3, Blank;
      var sector := blockno * (BSIZE / 512);
      var idx := new int[3];
      var r := Alloc3Desc(idx);
      if r != 0 {
        return -1;
      }
      ghost var m := Abstract();
      var i, j, k := idx[0] as nat, idx[1] as nat, idx[2] as nat;
      Post(i, j, k, b, write, sector);
      PostedTaken(old(Abstract()), m, Chain(i, j, k, b, write, blockno));
      return i;
    }

    /** The three descriptors of a request. */
    method Link(i: nat, j: nat, k: nat, b: nat, write: bool)
      requires Valid() && i < NUM && j < NUM && k < NUM
      modifies desc
      ensures desc[..] == old(desc[..])[i := Desc(Header(i), 16, NEXT, j)]
                                       [j := Desc(Data(b), BSIZE, if write then NEXT else WRITE + NEXT, k)]
                                       [k := Desc(Status(i), 1, WRITE, 0)]
    {
      desc[i] := Desc(Header(i), 16, NEXT, j);
      var flags := if write then 0 else WRITE;
      desc[j] := Desc(Data(b), BSIZE, flags + NEXT, k);
      desc[k] := Desc(Status(i), 1, WRITE, 0);
    }

    /** The request over the allocated descriptors. */
    method Post(i: nat, j: nat, k: nat, b: nat, write: bool, sector: nat)
      requires Valid() && i < NUM && j < NUM && k < NUM
      requires !free[i] && !free[j] && !free[k] && sector % 2 == 0
      modifies this`availIdx, this`busy, desc, ops, info, avail
      ensures Valid() && Abstract() == Posted(old(Abstract()), Chain(i, j, k, b, write, sector / 2))
    {
      ops[i] := Op(write, sector);
      Link(i, j, k, b, write);
      info[i] := Info(Some(b), 0xff);
      busy := busy + {b};
      avail[availIdx % NUM] := i;
      availIdx := (availIdx + 1) % WRAP;
      assert free[..][i := false][j := false][k := false] == free[..];
    }

    /** virtio_disk_rw after its last sleep; ok is false where it panics. */
    method DiskRwDone(h: nat) returns (ok: bool)
      requires Valid() && h < NUM
      modifies desc, free, info
      ensures Valid() && (ok <==> Retired(old(Abstract()), h).Some?)
      ensures ok ==> Abstract() == Retired(old(Abstract()), h).value
    {
      hide ChainFrom, Cleared, Released;
      info[h] := info[h].(b := None);
      ok := FreeChain(h);
    }

    /** virtio_disk_intr; ok is false where it panics. */
    method DiskIntr() returns (ok: bool)
      requires Valid()
      modifies this`busy, this`seenIdx
      ensures Valid() && (ok <==> Drained(old(Abstract())).Some?)
      ensures ok ==> Abstract() == Drained(old(Abstract())).value
    {
      while seenIdx != usedIdx
        invariant Valid() && Drained(old(Abstract())) == Drained(Abstract())
        decreases (usedIdx - seenIdx) % WRAP
      {
        var id := used[seenIdx % NUM];
        if id >= NUM || info[id].status != 0 || info[id].b.None? {
          return false;
        }
        Nearer(seenIdx, usedIdx);
        busy := busy - {info[id].b.value};
        seenIdx := (seenIdx + 1) % WRAP;
      }
      return true;
    }
  }

  lemma PostedTaken(m: Mem, taken: Mem, c: Chain)
    requires Shape(m) && c.d0 < NUM && c.d1 < NUM && c.d2 < NUM
    requires taken == m.(free := m.free[c.d0 := false][c.d1 := false][c.d2 := false])
    ensures Posted(taken, c) == Posted(m, c)
  {
  }

  /** Free descriptors are blank. */
  predicate Blank(desc: seq<Desc>, free: seq<bool>) {
    |desc| == |free| && forall i :: 0 <= i < |free| && free[i] ==> desc[i] == ZERO
  }

  lemma BlankAt(desc: seq<Desc>, free: seq<bool>, i: nat)
    requires Blank(desc, free) && i < |free| && free[i]
    ensures desc[i] == ZERO && desc[i := ZERO] == desc
  {
  }

  /** ds are the lowest descriptors of f0, in order, and f is f0 without them. */
  predicate Picked(f0: seq<bool>, ds: seq<nat>, f: seq<bool>) {
    && |f| == |f0|
    && (forall k :: 0 <= k < |ds| ==> ds[k] < |f0| && f0[ds[k]])
    && (forall j, k :: 0 <= j < k < |ds| ==> ds[j] < ds[k])
    && (forall x :: 0 <= x < |f| ==> f[x] == (f0[x] && x !in ds))
    && (forall x, k :: 0 <= x < |f| && f[x] && 0 <= k < |ds| ==> ds[k] < x)
  }

  lemma PickNone(f0: seq<bool>)
    ensures Picked(f0, [], f0)
  {
  }

  lemma PickedAt(f0: seq<bool>, ds: seq<nat>, f: seq<bool>, j: nat)
    requires Picked(f0, ds, f) && j < |ds|
    ensures ds[j] < |f0| && f0[ds[j]] && ds[j] !in ds[j + 1..]
  {
  }

  lemma PickNext(f0: seq<bool>, ds: seq<nat>, f: seq<bool>)
    requires Picked(f0, ds, f) && Lowest(f, 0) < |f|
    ensures Picked(f0, ds + [Lowest(f, 0)], f[Lowest(f, 0) := false])
  {
  }

  lemma PickedAll(f0: seq<bool>, ds: seq<nat>, f: seq<bool>)
    requires Picked(f0, ds, f) && |ds| < 3 && Lowest(f, 0) == |f|
    ensures Alloc3(f0) == None
  {
  }

  lemma PickedThree(f0: seq<bool>, ds: seq<nat>, f: seq<bool>)
    requires Picked(f0, ds, f) && |ds| == 3
    ensures Alloc3(f0) == Some((ds[0], ds[1], ds[2])) && ds[0] < |f0| && ds[1] < |f0| && ds[2] < |f0|
    ensures f == f0[ds[0] := false][ds[1] := false][ds[2] := false]
  {
  }

  lemma ChainStep(desc: seq<Desc>, free: seq<bool>, i: nat)
    requires |desc| == |free|
    ensures i >= |free| || free[i] ==> ChainFrom(desc, free, i).None?
    ensures i < |free| && !free[i] ==>
      && |Busy(free[i := true])| < |Busy(free)|
      && if desc[i].flags % 2 != NEXT then ChainFrom(desc, free, i) == Some([i])
         else
           var rest := ChainFrom(desc, free[i := true], desc[i].next);
           ChainFrom(desc, free, i) == if rest.None? then None else Some([i] + rest.value)
  {
    if i < |free| && !free[i] { BusyShrinks(free, i); }
  }

  lemma ChainGrows(d0: seq<Desc>, f0: seq<bool>, ds: seq<nat>, i: nat)
    requires |d0| == |f0| && i < |d0| && forall k :: 0 <= k < |ds| ==> ds[k] < |d0|
    ensures forall k :: 0 <= k < |ds + [i]| ==> (ds + [i])[k] < |d0|
    ensures Cleared(d0, ds + [i]) == Cleared(d0, ds)[i := ZERO]
    ensures Released(f0, ds + [i]) == Released(f0, ds)[i := true]
  {
  }
}
