/** The buffer cache of bio.c: a circular doubly linked list of buffers in order of use, with
    reference counts, pins and one sleep lock a buffer.

    One action is one critical section under bcache.lock, one transition of a buffer's sleep lock,
    one disk transfer or one change of a locked buffer, so that a run is any interleaving of
    processes.  Buffers are numbered 0 .. NBUF-1; HEAD is bcache.head. */
module Bcache {
  const NBUF: nat := 30
  const HEAD: nat := NBUF

  type Block = seq<int>
  datatype Key = Key(dev: nat, blockno: nat)

  /** holder is the pid in the sleep lock, 0 when it is not locked. */
  datatype Buf = Buf(valid: bool, key: Key, refcnt: int, holder: nat, data: Block)

  /** order lists the buffers from head.next to head.prev.  refs[b] holds the processes between
      bget and brelse on b, pins[b] the bpins not yet undone; stamp[b] is the time of the last
      brelse of b, 0 if there was none. */
  datatype State = State(bufs: seq<Buf>, disk: map<Key, Block>, order: seq<nat>,
                         refs: seq<multiset<nat>>, pins: seq<nat>, stamp: seq<nat>, clock: nat)

  // ---- the invariant ----

  ghost predicate Distinct(s: seq<nat>) {
    forall i, j :: 0 <= i < j < |s| ==> s[i] != s[j]
  }

  ghost predicate Sizes(s: State) {
    |s.bufs| == |s.refs| == |s.pins| == |s.stamp| == NBUF
  }

  ghost predicate BufOk(x: Buf, refs: multiset<nat>, pins: nat, disk: map<Key, Block>) {
    && x.refcnt == |refs| + pins
    && (x.holder != 0 ==> x.holder in refs)
    && (x.valid ==> x.key.dev != 0 && x.key in disk)
    && (x.valid && x.holder == 0 && pins == 0 ==> x.data == disk[x.key])
  }

  ghost predicate BufsOk(s: State)
    requires Sizes(s)
  {
    forall b {:trigger s.bufs[b]} :: 0 <= b < NBUF ==> BufOk(s.bufs[b], s.refs[b], s.pins[b], s.disk)
  }

  /** At most one buffer holds a given block of a nonzero device. */
  ghost predicate Unique(bufs: seq<Buf>) {
    forall b, c :: 0 <= b < |bufs| && 0 <= c < |bufs| && bufs[b].key == bufs[c].key && bufs[b].key.dev != 0 ==> b == c
  }

  /** The list holds every buffer once. */
  ghost predicate Ordered(order: seq<nat>) {
    && Distinct(order)
    && (forall i :: 0 <= i < |order| ==> order[i] < NBUF)
    && (forall b :: 0 <= b < NBUF ==> b in order)
  }

  /** The unreferenced buffers are in order of their last brelse, most recent first. */
  ghost predicate Lru(order: seq<nat>, stamp: seq<nat>, clock: nat, bufs: seq<Buf>)
    requires |stamp| == |bufs| == NBUF && forall i :: 0 <= i < |order| ==> order[i] < NBUF
  {
    && (forall i, j :: 0 <= i < j < |order| && bufs[order[i]].refcnt == 0 && bufs[order[j]].refcnt == 0 ==>
          Newer(stamp[order[i]], stamp[order[j]]))
    && (forall b :: 0 <= b < NBUF ==> stamp[b] <= clock)
  }

  predicate Newer(a: nat, b: nat) { a > b || a == b == 0 }

  ghost predicate Inv(s: State) {
    Sizes(s) && BufsOk(s) && Unique(s.bufs) && Ordered(s.order) && Lru(s.order, s.stamp, s.clock, s.bufs)
  }

  // ---- what the cache and the disk stand for ----

  ghost predicate Caches(bufs: seq<Buf>, b: int, k: Key) {
    0 <= b < |bufs| && bufs[b].valid && bufs[b].key == k
  }

  /** The contents of block k: the cached copy, if there is one, and the disk block otherwise. */
  ghost function Contents(s: State, k: Key): Block
    requires k in s.disk
  {
    if exists b :: Caches(s.bufs, b, k) then (var b :| Caches(s.bufs, b, k); s.bufs[b].data) else s.disk[k]
  }

  ghost function View(s: State): map<Key, Block> {
    map k | k in s.disk :: Contents(s, k)
  }

  lemma CachedIsView(s: State, b: nat)
    requires Inv(s) && b < NBUF && s.bufs[b].valid
    ensures s.bufs[b].key in View(s) && View(s)[s.bufs[b].key] == s.bufs[b].data
    ensures s.bufs[b].key.dev != 0
  {
    assert Caches(s.bufs, b, s.bufs[b].key);
    assert BufOk(s.bufs[b], s.refs[b], s.pins[b], s.disk);
  }

  lemma UncachedIsDisk(s: State, k: Key)
    requires k in s.disk && forall b :: !Caches(s.bufs, b, k)
    ensures View(s)[k] == s.disk[k]
  {
  }

  // ---- the actions ----

  datatype Action =
    | Hit(pid: nat, b: nat, k: Key)
    | Miss(pid: nat, b: nat, k: Key)
    | Lock(pid: nat, b: nat)
    | Fill(pid: nat, b: nat)
    | Modify(pid: nat, b: nat, data: Block)
    | Bwrite(pid: nat, b: nat)
    | Pin(b: nat)
    | Unpin(pid: nat, b: nat)
    | Unlock(pid: nat, b: nat)
    | Put(pid: nat, b: nat)

  /** The last unreferenced buffer of the list. */
  ghost predicate Oldest(s: State, b: nat)
    requires Sizes(s) && Ordered(s.order)
  {
    && b < NBUF && s.bufs[b].refcnt == 0
    && exists i :: 0 <= i < |s.order| && s.order[i] == b
                   && forall j :: i < j < |s.order| ==> s.bufs[s.order[j]].refcnt != 0
  }

  /** A process changes a buffer, or undoes a pin, only while it holds the buffer's lock; before it
      lets go of it, the buffer is on the disk or pinned. */
  ghost predicate Enabled(s: State, a: Action)
    requires Sizes(s) && Ordered(s.order)
  {
    match a
    case Hit(pid, b, k) => pid != 0 && k.dev != 0 && b < NBUF && s.bufs[b].key == k
    case Miss(pid, b, k) => pid != 0 && k.dev != 0 && Oldest(s, b) && forall c :: 0 <= c < NBUF ==> s.bufs[c].key != k
    case Lock(pid, b) => pid != 0 && b < NBUF && s.bufs[b].holder == 0 && pid in s.refs[b]
    case Fill(pid, b) => b < NBUF && s.bufs[b].holder == pid != 0 && !s.bufs[b].valid && s.bufs[b].key in s.disk && s.bufs[b].key.dev != 0
    case Modify(pid, b, _) => b < NBUF && s.bufs[b].holder == pid != 0 && s.bufs[b].valid
    case Bwrite(pid, b) => b < NBUF && s.bufs[b].holder == pid != 0 && s.bufs[b].valid
    case Pin(b) => b < NBUF
    case Unpin(pid, b) => b < NBUF && s.bufs[b].holder == pid != 0 && s.pins[b] > 0
    case Unlock(pid, b) => b < NBUF && s.bufs[b].holder == pid != 0 && (s.bufs[b].valid && s.pins[b] == 0 ==> OnDisk(s, b))
    case Put(pid, b) => b < NBUF && pid in s.refs[b] && s.bufs[b].holder != pid
  }

  ghost predicate OnDisk(s: State, b: nat) {
    b < |s.bufs| && s.bufs[b].key in s.disk && s.bufs[b].data == s.disk[s.bufs[b].key]
  }

  function IndexOf(s: seq<nat>, x: nat): (i: nat)
    requires x in s
    ensures i < |s| && s[i] == x
  {
    if s[0] == x then 0 else 1 + IndexOf(s[1..], x)
  }

  function Without(s: seq<nat>, k: nat): seq<nat>
    requires k < |s|
  {
    s[..k] + s[k + 1..]
  }

  /** The list after b has been moved to the front. */
  function Moved(s: seq<nat>, b: nat): seq<nat>
    requires b in s
  {
    [b] + Without(s, IndexOf(s, b))
  }

  ghost function Next(s: State, a: Action): State
    requires Sizes(s) && Ordered(s.order) && Enabled(s, a)
  {
    var x := s.bufs[a.b];
    match a
    case Hit(pid, b, k) =>
      s.(bufs := s.bufs[b := x.(refcnt := x.refcnt + 1)], refs := s.refs[b := s.refs[b] + multiset{pid}])
    case Miss(pid, b, k) =>
      s.(bufs := s.bufs[b := x.(valid := false, key := k, refcnt := 1)], refs := s.refs[b := s.refs[b] + multiset{pid}])
    case Lock(pid, b) => s.(bufs := s.bufs[b := x.(holder := pid)])
    case Fill(pid, b) => s.(bufs := s.bufs[b := x.(valid := true, data := s.disk[x.key])])
    case Modify(pid, b, data) => s.(bufs := s.bufs[b := x.(data := data)])
    case Bwrite(pid, b) => s.(disk := s.disk[x.key := x.data])
    case Pin(b) => s.(bufs := s.bufs[b := x.(refcnt := x.refcnt + 1)], pins := s.pins[b := s.pins[b] + 1])
    case Unpin(_, b) => s.(bufs := s.bufs[b := x.(refcnt := x.refcnt - 1)], pins := s.pins[b := s.pins[b] - 1])
    case Unlock(pid, b) => s.(bufs := s.bufs[b := x.(holder := 0)])
    case Put(pid, b) =>
      s.(bufs := s.bufs[b := x.(refcnt := x.refcnt - 1)], refs := s.refs[b := s.refs[b] - multiset{pid}],
         order := if x.refcnt == 1 then Moved(s.order, b) else s.order,
         stamp := s.stamp[b := s.clock + 1], clock := s.clock + 1)
  }

  ghost predicate Step(s: State, a: Action, t: State) {
    Sizes(s) && Ordered(s.order) && Enabled(s, a) && t == Next(s, a)
  }

  // ---- every action keeps the invariant ----

  /** The list after a brelse that moves b to the front. */
  lemma MovedAt(order: seq<nat>, b: nat, i: nat)
    requires Ordered(order) && b in order && i < |order|
    ensures var k, m := IndexOf(order, b), Moved(order, b);
            |m| == |order| && m[i] == if i == 0 then b else order[if i - 1 < k then i - 1 else i]
  {
  }

  lemma MovedOrdered(order: seq<nat>, b: nat)
    requires Ordered(order) && b in order
    ensures Ordered(Moved(order, b))
  {
    hide Moved;
    var k, m := IndexOf(order, b), Moved(order, b);
    forall i | 0 <= i < |order|
      ensures |m| == |order| && m[i] == if i == 0 then b else order[if i - 1 < k then i - 1 else i]
    {
      MovedAt(order, b, i);
    }
    assert |m| == |order| by { MovedAt(order, b, 0); }
    forall c: nat | c < NBUF
      ensures c in m
    {
      assert c in order;
      var j :| 0 <= j < |order| && order[j] == c;
      assert if j == k then m[0] == c else m[if j < k then j + 1 else j] == c;
    }
  }

  lemma MoveKeepsList(order: seq<nat>, stamp: seq<nat>, clock: nat, bufs: seq<Buf>, b: nat, x: Buf)
    requires |stamp| == |bufs| == NBUF && Ordered(order) && Lru(order, stamp, clock, bufs) && b in order
    ensures Ordered(Moved(order, b)) && Lru(Moved(order, b), stamp[b := clock + 1], clock + 1, bufs[b := x])
  {
    hide Moved;
    MovedOrdered(order, b);
    MovedAt(order, b, 0);
    var m, stamp', bufs' := Moved(order, b), stamp[b := clock + 1], bufs[b := x];
    forall i, j | 0 <= i < j < |m|
      ensures bufs'[m[i]].refcnt == 0 && bufs'[m[j]].refcnt == 0 ==> Newer(stamp'[m[i]], stamp'[m[j]])
    {
      MovedAt(order, b, i);
      MovedAt(order, b, j);
    }
  }

  /** Referenced buffers play no part in the order. */
  lemma LruStays(order: seq<nat>, stamp: seq<nat>, clock: nat, bufs: seq<Buf>, b: nat, x: Buf, time: nat, clock': nat)
    requires |stamp| == |bufs| == NBUF && Ordered(order) && Lru(order, stamp, clock, bufs) && b < NBUF
    requires x.refcnt != 0 || (x.refcnt == bufs[b].refcnt && time == stamp[b])
    requires clock <= clock' && time <= clock'
    ensures Lru(order, stamp[b := time], clock', bufs[b := x])
  {
  }

  lemma PutOne(r: multiset<nat>, x: nat)
    requires x in r
    ensures |r - multiset{x}| == |r| - 1
  {
    assert r == (r - multiset{x}) + multiset{x};
  }

  lemma StepSizes(s: State, a: Action, t: State)
    requires Step(s, a, t)
    ensures Sizes(t) && a.b < NBUF
  {
  }

  lemma StepOneBuf(s: State, a: Action, t: State)
    requires Step(s, a, t) && Sizes(t) && a.b < NBUF && BufOk(s.bufs[a.b], s.refs[a.b], s.pins[a.b], s.disk)
    requires a.Miss? ==> s.refs[a.b] == multiset{} && s.pins[a.b] == 0 && s.bufs[a.b].holder == 0
    ensures BufOk(t.bufs[a.b], t.refs[a.b], t.pins[a.b], t.disk)
  {
    hide Ordered, Oldest, Moved, BufOk;
    if a.Put? {
      PutBuf(s.bufs[a.b], s.refs[a.b], s.pins[a.b], s.disk, a.pid);
    } else if a.Hit? || a.Miss? {
      GetBuf(s, a, t);
    } else {
      UseBuf(s, a, t);
    }
  }

  lemma PutBuf(x: Buf, refs: multiset<nat>, pins: nat, disk: map<Key, Block>, pid: nat)
    requires BufOk(x, refs, pins, disk) && pid in refs && x.holder != pid
    ensures BufOk(x.(refcnt := x.refcnt - 1), refs - multiset{pid}, pins, disk)
  {
    PutOne(refs, pid);
  }

  lemma GetBuf(s: State, a: Action, t: State)
    requires (a.Hit? || a.Miss?) && Step(s, a, t) && Sizes(t) && a.b < NBUF && BufOk(s.bufs[a.b], s.refs[a.b], s.pins[a.b], s.disk)
    requires a.Miss? ==> s.refs[a.b] == multiset{} && s.pins[a.b] == 0 && s.bufs[a.b].holder == 0
    ensures BufOk(t.bufs[a.b], t.refs[a.b], t.pins[a.b], t.disk)
  {
    hide Ordered, Oldest, Moved;
  }

  lemma UseBuf(s: State, a: Action, t: State)
    requires !a.Hit? && !a.Miss? && !a.Put? && Step(s, a, t) && Sizes(t) && a.b < NBUF
    requires BufOk(s.bufs[a.b], s.refs[a.b], s.pins[a.b], s.disk)
    ensures BufOk(t.bufs[a.b], t.refs[a.b], t.pins[a.b], t.disk)
  {
    hide Ordered, Oldest, Moved;
  }

  lemma StepOtherBuf(s: State, a: Action, t: State, b: nat)
    requires Inv(s) && Step(s, a, t) && Sizes(t) && a.b < NBUF && b < NBUF && b != a.b
    ensures BufOk(t.bufs[b], t.refs[b], t.pins[b], t.disk)
  {
    hide Ordered, Lru, Oldest, Unique, Moved, Enabled;
    assert BufOk(s.bufs[b], s.refs[b], s.pins[b], s.disk);
    if a.Bwrite? {
      BwriteValid(s, a, t);
      DifferentKeys(s, a.b, b);
    }
  }

  lemma BwriteValid(s: State, a: Action, t: State)
    requires Inv(s) && a.Bwrite? && Step(s, a, t)
    ensures a.b < NBUF && s.bufs[a.b].valid && s.bufs[a.b].key in s.disk
  {
    assert BufOk(s.bufs[a.b], s.refs[a.b], s.pins[a.b], s.disk);
  }

  lemma OneBufOk(s: State, a: Action, t: State)
    requires Inv(s) && Step(s, a, t) && a.b < NBUF
    ensures Sizes(s) && BufOk(s.bufs[a.b], s.refs[a.b], s.pins[a.b], s.disk)
    ensures a.Miss? ==> s.refs[a.b] == multiset{} && s.pins[a.b] == 0 && s.bufs[a.b].holder == 0
  {
    hide Ordered, Lru, Step;
    assert BufOk(s.bufs[a.b], s.refs[a.b], s.pins[a.b], s.disk);
    if a.Miss? { MissIsFree(s, a, t); }
  }

  lemma StepBufs(s: State, a: Action, t: State)
    requires Inv(s) && Step(s, a, t)
    ensures Sizes(t) && BufsOk(t)
  {
    hide Ordered, Lru, Step, Inv, BufOk;
    StepSizes(s, a, t);
    forall b {:trigger t.bufs[b]} | 0 <= b < NBUF
      ensures BufOk(t.bufs[b], t.refs[b], t.pins[b], t.disk)
    {
      if b == a.b {
        OneBufOk(s, a, t);
        StepOneBuf(s, a, t);
      } else { StepOtherBuf(s, a, t, b); }
    }
  }

  lemma DifferentKeys(s: State, b: nat, c: nat)
    requires Inv(s) && b < NBUF && c < NBUF && b != c && s.bufs[b].valid
    ensures s.bufs[b].key != s.bufs[c].key
  {
    assert BufOk(s.bufs[b], s.refs[b], s.pins[b], s.disk);
  }

  lemma NoRefs(r: multiset<nat>)
    requires |r| == 0
    ensures r == multiset{}
  {
  }

  /** The buffer that is recycled is not held, waited for, or pinned by anybody. */
  lemma MissIsFree(s: State, a: Action, t: State)
    requires Inv(s) && a.Miss? && Step(s, a, t)
    ensures s.refs[a.b] == multiset{} && s.pins[a.b] == 0 && s.bufs[a.b].holder == 0
    ensures s.bufs[a.b].valid ==> OnDisk(s, a.b)
  {
    hide Lru, Unique;
    assert BufOk(s.bufs[a.b], s.refs[a.b], s.pins[a.b], s.disk);
    NoRefs(s.refs[a.b]);
  }

  lemma RefcntBelow(s: State, a: Action, t: State)
    requires Inv(s) && Step(s, a, t) && a.b < NBUF && Sizes(t)
    ensures a.Hit? || a.Miss? || a.Pin? || a.Unpin? ==> t.bufs[a.b].refcnt > 0
    ensures a.Put? ==> s.bufs[a.b].refcnt > 0
  {
    hide Ordered, Lru, Oldest, Unique, Moved;
    assert BufOk(s.bufs[a.b], s.refs[a.b], s.pins[a.b], s.disk);
  }

  lemma StampBelow(s: State, b: nat)
    requires Inv(s) && b < NBUF
    ensures s.stamp[b] <= s.clock
  {
  }

  lemma StepUnique(s: State, a: Action, t: State)
    requires Inv(s) && Step(s, a, t)
    ensures Unique(t.bufs)
  {
    hide BufsOk, Ordered, Lru, Oldest, Moved;
    StepSizes(s, a, t);
  }

  lemma StepList(s: State, a: Action, t: State)
    requires Inv(s) && Step(s, a, t)
    ensures Sizes(t) && Unique(t.bufs) && Ordered(t.order) && Lru(t.order, t.stamp, t.clock, t.bufs)
  {
    hide BufsOk, Ordered, Lru, Oldest, Moved, Unique;
    StepSizes(s, a, t);
    RefcntBelow(s, a, t);
    StepUnique(s, a, t);
    var x := t.bufs[a.b];
    if a.Put? && s.bufs[a.b].refcnt == 1 {
      BufInList(s, a.b);
      MoveKeepsList(s.order, s.stamp, s.clock, s.bufs, a.b, x);
    } else {
      StampBelow(s, a.b);
      LruStays(s.order, s.stamp, s.clock, s.bufs, a.b, x, t.stamp[a.b], t.clock);
      assert t.bufs == s.bufs[a.b := x] && t.stamp == s.stamp[a.b := t.stamp[a.b]];
    }
  }

  lemma BufInList(s: State, b: nat)
    requires Inv(s) && b < NBUF
    ensures b in s.order
  {
  }

  lemma StepKeeps(s: State, a: Action, t: State)
    requires Inv(s) && Step(s, a, t)
    ensures Inv(t)
  {
    hide BufsOk, Unique, Ordered, Lru, Next, Enabled;
    StepBufs(s, a, t);
    StepList(s, a, t);
  }

  /** Least recently used: among the unreferenced buffers, the last brelse of the recycled one is
      the oldest, or it has none. */
  lemma RecyclesOldest(s: State, a: Action, t: State, c: nat)
    requires Inv(s) && a.Miss? && Step(s, a, t)
    requires c < NBUF && s.bufs[c].refcnt == 0 && c != a.b
    ensures s.stamp[a.b] < s.stamp[c] || s.stamp[a.b] == s.stamp[c] == 0
  {
    hide BufsOk, Unique;
    var i :| 0 <= i < |s.order| && s.order[i] == a.b
             && forall j :: i < j < |s.order| ==> s.bufs[s.order[j]].refcnt != 0;
    BufInList(s, c);
    var j :| 0 <= j < |s.order| && s.order[j] == c;
    assert j < i;
  }

  // ---- the cache is transparent ----

  /** Only a change of a locked buffer changes what a block contains: not hits, misses, fills,
      pins, releases, nor writing a buffer back. */
  lemma StepView(s: State, a: Action, t: State)
    requires Inv(s) && Step(s, a, t)
    ensures View(t) == if a.Modify? then View(s)[s.bufs[a.b].key := a.data] else View(s)
  {
    hide View, Unique, Ordered, Lru, BufsOk;
    StepKeeps(s, a, t);
    StepDisk(s, a, t);
    ViewDomain(s);
    ViewDomain(t);
    if a.Modify? { CachedIsView(s, a.b); }
    forall k | k in s.disk
      ensures View(t)[k] == if a.Modify? && k == s.bufs[a.b].key then a.data else View(s)[k]
    {
      StepContents(s, a, t, k);
    }
  }

  lemma ViewDomain(s: State)
    ensures View(s).Keys == s.disk.Keys
  {
  }

  lemma StepDisk(s: State, a: Action, t: State)
    requires Inv(s) && Step(s, a, t)
    ensures t.disk.Keys == s.disk.Keys
  {
    if a.Bwrite? { assert BufOk(s.bufs[a.b], s.refs[a.b], s.pins[a.b], s.disk); }
  }

  lemma StepContents(s: State, a: Action, t: State, k: Key)
    requires Inv(s) && Inv(t) && Step(s, a, t) && k in s.disk && t.disk.Keys == s.disk.Keys
    ensures View(t).Keys == View(s).Keys == s.disk.Keys
    ensures View(t)[k] == if a.Modify? && k == s.bufs[a.b].key then a.data else View(s)[k]
  {
    hide View, Ordered, Lru, BufsOk, Moved, Oldest;
    ViewDomain(s);
    ViewDomain(t);
    if b: nat :| b < NBUF && Caches(t.bufs, b, k) {
      CachedIsView(t, b);
      if Caches(s.bufs, b, k) {
        CachedIsView(s, b);
      } else {
        assert a.Fill? && b == a.b;
        forall c
          ensures !Caches(s.bufs, c, k)
        {
          assert 0 <= c < NBUF && s.bufs[c].key == k ==> c == b;
        }
        UncachedIsDisk(s, k);
      }
    } else {
      NotCached(t, k);
      UncachedIsDisk(t, k);
      if b: nat :| b < NBUF && Caches(s.bufs, b, k) {
        CachedIsView(s, b);
        StopsCaching(s, a, t, b, k);
      } else {
        NotCached(s, k);
        UncachedIsDisk(s, k);
        StillUncached(s, a, t, k);
      }
    }
  }

  lemma NotCached(s: State, k: Key)
    requires Sizes(s) && forall b: nat :: b < NBUF ==> !Caches(s.bufs, b, k)
    ensures forall b :: !Caches(s.bufs, b, k)
  {
  }

  /** A block leaves the cache only by the recycling of a buffer that agrees with the disk. */
  lemma StopsCaching(s: State, a: Action, t: State, b: nat, k: Key)
    requires Inv(s) && Step(s, a, t) && b < NBUF && Caches(s.bufs, b, k)
    requires k in s.disk && k in t.disk && forall c :: !Caches(t.bufs, c, k)
    ensures a.Miss? && t.disk[k] == s.bufs[b].data
  {
    hide Ordered, Lru, BufsOk, Moved, Oldest, Unique;
    StepSizes(s, a, t);
    assert !Caches(t.bufs, b, k);
    assert a.Miss? && b == a.b;
    MissIsFree(s, a, t);
  }

  lemma StillUncached(s: State, a: Action, t: State, k: Key)
    requires Inv(s) && Step(s, a, t) && k in s.disk && k in t.disk
    requires forall b :: !Caches(s.bufs, b, k)
    ensures a.b < NBUF && (a.Modify? ==> s.bufs[a.b].key != k) && t.disk[k] == s.disk[k]
  {
    hide Ordered, Lru, BufsOk, Moved, Oldest, Unique;
    StepSizes(s, a, t);
    assert !Caches(s.bufs, a.b, k);
  }

  // ---- runs ----

  ghost predicate Run(ss: seq<State>, acts: seq<Action>) {
    && |ss| == |acts| + 1 && Inv(ss[0])
    && forall i :: 0 <= i < |acts| ==> Step(ss[i], acts[i], ss[i + 1])
  }

  lemma {:induction false} RunKeeps(ss: seq<State>, acts: seq<Action>, k: nat)
    requires Run(ss, acts) && k < |ss|
    ensures Inv(ss[k])
  {
    hide Inv, Step;
    if k > 0 {
      RunKeeps(ss, acts, k - 1);
      StepKeeps(ss[k - 1], acts[k - 1], ss[k]);
    }
  }

  /** The changes made so far, in order, to the contents that the run started with. */
  ghost function Replay(ss: seq<State>, acts: seq<Action>, k: nat): map<Key, Block>
    requires Run(ss, acts) && k < |ss|
  {
    if k == 0 then View(ss[0])
    else
      var v, s, a := Replay(ss, acts, k - 1), ss[k - 1], acts[k - 1];
      assert Step(s, a, ss[k]);
      if a.Modify? then v[s.bufs[a.b].key := a.data] else v
  }

  /** The cache agrees with a plain disk: after any interleaving, whoever holds a buffer that has
      been read sees the last change made to its block by anybody, or else the initial disk
      block; and a valid buffer that is neither held nor pinned is on the disk. */
  lemma CacheAgreesWithDisk(ss: seq<State>, acts: seq<Action>, k: nat, b: nat)
    requires Run(ss, acts) && k < |ss| && b < NBUF
    ensures Inv(ss[k]) && View(ss[k]) == Replay(ss, acts, k)
    ensures var x := ss[k].bufs[b];
      x.valid ==> x.key in Replay(ss, acts, k) && x.data == Replay(ss, acts, k)[x.key]
    ensures ss[k].bufs[b].valid && ss[k].bufs[b].holder == 0 && ss[k].pins[b] == 0 ==> OnDisk(ss[k], b)
  {
    RunKeeps(ss, acts, k);
    ViewIsReplay(ss, acts, k);
    assert BufOk(ss[k].bufs[b], ss[k].refs[b], ss[k].pins[b], ss[k].disk);
    if ss[k].bufs[b].valid { CachedIsView(ss[k], b); }
  }

  lemma {:induction false} ViewIsReplay(ss: seq<State>, acts: seq<Action>, k: nat)
    requires Run(ss, acts) && k < |ss|
    ensures View(ss[k]) == Replay(ss, acts, k)
  {
    hide Inv, View, Step;
    if k > 0 {
      ViewIsReplay(ss, acts, k - 1);
      RunKeeps(ss, acts, k - 1);
      StepView(ss[k - 1], acts[k - 1], ss[k]);
    }
  }

  // ---- what reaches the disk ----

  /** bwrite, and nothing else, changes the disk: it puts the buffer's data into the buffer's block, which
      then agrees with the buffer. */
  lemma StepWrites(s: State, a: Action, t: State)
    requires Inv(s) && Step(s, a, t)
    ensures a.b < NBUF
    ensures t.disk == if a.Bwrite? then s.disk[s.bufs[a.b].key := s.bufs[a.b].data] else s.disk
    ensures a.Bwrite? ==> t.bufs == s.bufs && OnDisk(t, a.b)
  {
    hide BufsOk, Unique, Ordered, Lru, Moved, Oldest;
    StepSizes(s, a, t);
  }

  /** Action i is the last write of block k before action n. */
  ghost predicate LastWrite(ss: seq<State>, acts: seq<Action>, n: nat, k: Key, i: nat)
    requires Run(ss, acts) && n < |ss|
  {
    && i < n && WritesTo(ss, acts, i, k)
    && forall j :: i < j < n ==> !WritesTo(ss, acts, j, k)
  }

  ghost predicate WritesTo(ss: seq<State>, acts: seq<Action>, i: int, k: Key)
    requires |ss| == |acts| + 1
  {
    0 <= i < |acts| && acts[i].Bwrite? && acts[i].b < |ss[i].bufs| && ss[i].bufs[acts[i].b].key == k
  }

  /** In every run a disk block holds what the buffer of the last bwrite of it held then, or what it held
      at first when it has not been written. */
  lemma {:induction false} DiskHoldsLastWrite(ss: seq<State>, acts: seq<Action>, n: nat, k: Key)
    requires Run(ss, acts) && n < |ss| && k in ss[0].disk
    ensures k in ss[n].disk
    ensures forall i: nat {:trigger LastWrite(ss, acts, n, k, i)} :: LastWrite(ss, acts, n, k, i) ==> ss[n].disk[k] == ss[i].bufs[acts[i].b].data
    ensures (forall j :: 0 <= j < n ==> !WritesTo(ss, acts, j, k)) ==> ss[n].disk[k] == ss[0].disk[k]
  {
    hide Inv, Step;
    if n > 0 {
      DiskHoldsLastWrite(ss, acts, n - 1, k);
      RunKeeps(ss, acts, n - 1);
      StepWrites(ss[n - 1], acts[n - 1], ss[n]);
      InvSizes(ss[n - 1]);
      forall i: nat | LastWrite(ss, acts, n, k, i)
        ensures ss[n].disk[k] == ss[i].bufs[acts[i].b].data
      {
        if i < n - 1 {
          assert !WritesTo(ss, acts, n - 1, k);
          assert LastWrite(ss, acts, n - 1, k, i);
        }
      }
      if forall j :: 0 <= j < n ==> !WritesTo(ss, acts, j, k) {
        assert !WritesTo(ss, acts, n - 1, k);
      }
    }
  }

  lemma InvSizes(s: State)
    requires Inv(s)
    ensures |s.bufs| == NBUF
  {
  }

  // ---- the linked list ----

  /** The node at place i of the cycle: head, the buffers in order, head again. */
  function Spot(order: seq<nat>, i: nat): nat {
    if 1 <= i <= |order| then order[i - 1] else HEAD
  }

  /** next and prev are the links of the cycle. */
  ghost predicate Linked(next: seq<nat>, prev: seq<nat>, order: seq<nat>) {
    && |next| == |prev| == NBUF + 1 && Distinct(order)
    && (forall i :: 0 <= i < |order| ==> order[i] < NBUF)
    && (forall i {:trigger Spot(order, i)} :: 0 <= i <= |order| ==>
          next[Spot(order, i)] == Spot(order, i + 1) && prev[Spot(order, i + 1)] == Spot(order, i))
  }

  lemma WithoutSpots(order: seq<nat>, k: nat)
    requires Distinct(order) && k < |order|
    ensures Distinct(Without(order, k)) && |Without(order, k)| == |order| - 1
    ensures forall i: nat {:trigger Spot(Without(order, k), i)} :: i <= |order| ==>
      Spot(Without(order, k), i) == Spot(order, if i <= k then i else i + 1)
  {
  }

  /** Two places of the cycle hold the same node only if both are the head. */
  lemma SpotsDiffer(order: seq<nat>, i: nat, j: nat)
    requires Distinct(order) && (forall i :: 0 <= i < |order| ==> order[i] < NBUF) && i < j <= |order| + 1
    ensures Spot(order, i) != Spot(order, j) || (i == 0 && j == |order| + 1)
  {
  }

  lemma UnlinkKeeps(next: seq<nat>, prev: seq<nat>, order: seq<nat>, k: nat)
    requires Linked(next, prev, order) && k < |order|
    ensures var b := order[k];
      && next[b] == Spot(order, k + 2) && prev[b] == Spot(order, k) && next[b] != b && prev[b] != b
      && next[b] <= NBUF && prev[b] <= NBUF
      && Linked(next[prev[b] := next[b]], prev[next[b] := prev[b]], Without(order, k))
  {
    hide Spot, Distinct, Without;
    var b, rest := order[k], Without(order, k);
    WithoutSpots(order, k);
    SpotAt(order, k + 1);
    SpotAt(order, k);
    SpotAt(order, k + 2);
    var n, p := Spot(order, k + 2), Spot(order, k);
    SpotsDiffer(order, k, k + 1);
    SpotsDiffer(order, k + 1, k + 2);
    RestBound(order, k);
    forall i: nat {:trigger Spot(rest, i)} | i <= |rest|
      ensures Spot(rest, i) <= NBUF && Spot(rest, i + 1) <= NBUF
      ensures next[p := n][Spot(rest, i)] == Spot(rest, i + 1)
      ensures prev[n := p][Spot(rest, i + 1)] == Spot(rest, i)
    {
      UnlinkSpot(next, prev, order, k, i);
    }
  }

  lemma SpotAt(order: seq<nat>, i: nat)
    requires i <= |order| + 1 && forall i :: 0 <= i < |order| ==> order[i] < NBUF
    ensures Spot(order, i) <= NBUF && (1 <= i <= |order| ==> Spot(order, i) == order[i - 1])
  {
  }

  lemma RestBound(order: seq<nat>, k: nat)
    requires k < |order| && forall i :: 0 <= i < |order| ==> order[i] < NBUF
    ensures forall i :: 0 <= i < |Without(order, k)| ==> Without(order, k)[i] < NBUF
  {
  }

  lemma UnlinkSpot(next: seq<nat>, prev: seq<nat>, order: seq<nat>, k: nat, i: nat)
    requires Linked(next, prev, order) && k < |order| && i < |order|
    ensures var rest, n, p := Without(order, k), Spot(order, k + 2), Spot(order, k);
      && p <= NBUF && n <= NBUF && Spot(rest, i) <= NBUF && Spot(rest, i + 1) <= NBUF
      && next[p := n][Spot(rest, i)] == Spot(rest, i + 1)
      && prev[n := p][Spot(rest, i + 1)] == Spot(rest, i)
  {
    hide Spot, Distinct, Without;
    WithoutSpots(order, k);
    var x := if i <= k then i else i + 1;
    var y := if i + 1 <= k then i + 1 else i + 2;
    SpotAt(order, k);
    SpotAt(order, k + 2);
    SpotAt(order, x);
    SpotAt(order, y);
    if x < k { SpotsDiffer(order, x, k); } else if x > k { SpotsDiffer(order, k, x); }
    if y < k + 2 { SpotsDiffer(order, y, k + 2); } else if y > k + 2 { SpotsDiffer(order, k + 2, y); }
  }

  lemma PushKeeps(next: seq<nat>, prev: seq<nat>, order: seq<nat>, b: nat)
    requires Linked(next, prev, order) && b < NBUF && b !in order
    ensures next[HEAD] == Spot(order, 1) && next[HEAD] != b && next[HEAD] <= NBUF
    ensures Linked(next[b := next[HEAD]][HEAD := b], prev[b := HEAD][next[HEAD] := b], [b] + order)
  {
    var all, n := [b] + order, next[HEAD];
    assert Spot(order, 0) == HEAD;
    assert forall i: nat {:trigger Spot(all, i)} :: 2 <= i <= |all| + 1 ==> Spot(all, i) == Spot(order, i - 1);
    forall i: nat {:trigger Spot(all, i)} | i <= |all|
      ensures next[b := n][HEAD := b][Spot(all, i)] == Spot(all, i + 1)
      ensures prev[b := HEAD][n := b][Spot(all, i + 1)] == Spot(all, i)
    {
      if i >= 2 {
        assert Spot(all, i) == Spot(order, i - 1) && Spot(all, i + 1) == Spot(order, i);
      }
    }
  }

  // ---- the code ----

  datatype GetResult = Got(b: nat, hit: bool) | NoBuffers

  class Bcache {
    const buf: array<Buf>
    const next: array<nat>
    const prev: array<nat>
    var disk: map<Key, Block>
    ghost var order: seq<nat>
    ghost var refs: seq<multiset<nat>>
    ghost var pins: seq<nat>
    ghost var stamp: seq<nat>
    ghost var clock: nat

    ghost function Abstract(): State
      reads this, buf
    {
      State(buf[..], disk, order, refs, pins, stamp, clock)
    }

    ghost predicate Valid()
      reads this, buf, next, prev
    {
      && next != prev && buf.Length == NBUF && next.Length == prev.Length == NBUF + 1
      && Inv(Abstract())
      && Linked(next[..], prev[..], order)
    }

    /** binit, over zeroed memory. */
    constructor (disk: map<Key, Block>)
      ensures Valid() && fresh(buf) && fresh(next) && fresh(prev)
      ensures View(Abstract()) == disk
    {
      buf := new Buf[NBUF](_ => Buf(false, Key(0, 0), 0, 0, []));
      next := new nat[NBUF + 1](_ => 0);
      prev := new nat[NBUF + 1](_ => 0);
      this.disk := disk;
      order := [];
      refs := seq(NBUF, _ => multiset{});
      pins := seq(NBUF, _ => 0);
      stamp := seq(NBUF, _ => 0);
      clock := 0;
      new;
      next[HEAD], prev[HEAD] := HEAD, HEAD;
      var b := 0;
      while b < NBUF
        invariant 0 <= b <= NBUF && Linked(next[..], prev[..], order)
        invariant forall c :: 0 <= c < NBUF ==> (c < b <==> c in order)
        invariant buf[..] == seq(NBUF, _ => Buf(false, Key(0, 0), 0, 0, []))
        invariant refs == seq(NBUF, _ => multiset{}) && pins == seq(NBUF, _ => 0) && stamp == seq(NBUF, _ => 0)
        invariant this.disk == disk
      {
        PushFront(b);
        b := b + 1;
      }
      FreshInv(Abstract());
    }

    method PushFront(b: nat)
      requires next != prev && next.Length == prev.Length == NBUF + 1
      requires Linked(next[..], prev[..], order) && b < NBUF && b !in order
      modifies this`order, next, prev
      ensures Linked(next[..], prev[..], order) && order == [b] + old(order)
    {
      PushKeeps(next[..], prev[..], order, b);
      next[b] := next[HEAD];
      prev[b] := HEAD;
      prev[next[HEAD]] := b;
      next[HEAD] := b;
      assert next[..] == old(next[..])[b := old(next[HEAD])][HEAD := b];
      assert prev[..] == old(prev[..])[b := HEAD][old(next[HEAD]) := b];
      order := [b] + order;
    }

    method Unlink(b: nat)
      requires next != prev && next.Length == prev.Length == NBUF + 1
      requires Linked(next[..], prev[..], order) && b in order
      modifies this`order, next, prev
      ensures Linked(next[..], prev[..], order) && order == Without(old(order), IndexOf(old(order), b))
    {
      UnlinkKeeps(next[..], prev[..], order, IndexOf(order, b));
      prev[next[b]] := prev[b];
      next[prev[b]] := next[b];
      assert prev[..] == old(prev[..])[old(next[b]) := old(prev[b])];
      assert next[..] == old(next[..])[old(prev[b]) := old(next[b])];
      order := Without(order, IndexOf(order, b));
    }

    /** The first loop of bget: the buffer that holds block k, HEAD for none. */
    method Find(k: Key) returns (b: nat)
      requires Valid()
      ensures b == HEAD || (b < NBUF && buf[b].key == k)
      ensures b == HEAD ==> forall c :: 0 <= c < NBUF ==> buf[c].key != k
    {
      hide BufsOk, Unique, Lru, Ordered, Linked;
      BufsListed(Abstract());
      b := next[HEAD];
      SpotNext(next[..], prev[..], order, 0);
      ghost var i := 0;
      while b != HEAD
        invariant 0 <= i <= |order| && b == Spot(order, i + 1)
        invariant forall j :: 0 <= j < i ==> buf[order[j]].key != k
        decreases |order| - i
      {
        if buf[b].key == k {
          return;
        }
        SpotNext(next[..], prev[..], order, i + 1);
        b := next[b];
        i := i + 1;
      }
      NobodyHas(Abstract(), k);
    }

    /** The second loop of bget: the last unreferenced buffer, HEAD for none. */
    method FindUnused() returns (b: nat)
      requires Valid()
      ensures b != HEAD ==> Oldest(Abstract(), b)
      ensures b == HEAD ==> forall c :: 0 <= c < NBUF ==> buf[c].refcnt != 0
    {
      hide BufsOk, Unique, Lru, Ordered, Linked, Oldest;
      BufsListed(Abstract());
      b := prev[HEAD];
      SpotNext(next[..], prev[..], order, |order|);
      ghost var i := |order|;
      while b != HEAD
        invariant 0 <= i <= |order| && b == Spot(order, i)
        invariant forall j :: i <= j < |order| ==> buf[order[j]].refcnt != 0
        decreases i
      {
        if buf[b].refcnt == 0 {
          OldestAt(Abstract(), i - 1);
          return;
        }
        SpotNext(next[..], prev[..], order, i - 1);
        b := prev[b];
        i := i - 1;
      }
      AllReferenced(Abstract());
    }

    /** bget up to the release of bcache.lock. */
    method Bget(pid: nat, k: Key) returns (r: GetResult)
      requires Valid() && pid != 0 && k.dev != 0
      modifies this, buf
      ensures Valid()
      ensures r.Got? ==> r.b < NBUF && r.hit == (old(buf[r.b]).key == k) && disk == old(disk)
      ensures r.Got? ==> buf[..] == old(buf[..])[r.b := if r.hit then old(buf[r.b]).(refcnt := old(buf[r.b]).refcnt + 1)
                                                        else old(buf[r.b]).(key := k, valid := false, refcnt := 1)]
      ensures r.Got? && r.hit ==> Step(old(Abstract()), Hit(pid, r.b, k), Abstract())
      ensures r.Got? && !r.hit ==> Step(old(Abstract()), Miss(pid, r.b, k), Abstract())
      ensures r.NoBuffers? ==> Abstract() == old(Abstract())
      ensures r.NoBuffers? <==> forall c :: 0 <= c < NBUF ==> old(buf[c]).key != k && old(buf[c]).refcnt != 0
    {
      hide BufsOk, Unique, Lru, Linked;
      var b := Find(k);
      if b != HEAD {
        buf[b] := buf[b].(refcnt := buf[b].refcnt + 1);
        refs := refs[b := refs[b] + multiset{pid}];
        Changed(old(Abstract()), Hit(pid, b, k), Abstract());
        return Got(b, true);
      }
      b := FindUnused();
      if b != HEAD {
        buf[b] := buf[b].(key := k, valid := false, refcnt := 1);
        refs := refs[b := refs[b] + multiset{pid}];
        Changed(old(Abstract()), Miss(pid, b, k), Abstract());
        return Got(b, false);
      }
      r := NoBuffers;
    }

    /** One pass of acquiresleep's loop; false means that the process sleeps. */
    method Acquire(pid: nat, b: nat) returns (ok: bool)
      requires Valid() && pid != 0 && b < NBUF && pid in refs[b]
      modifies buf
      ensures Valid() && ok == (old(buf[b]).holder == 0)
      ensures buf[..] == old(buf[..])[b := if ok then old(buf[b]).(holder := pid) else old(buf[b])]
      ensures if ok then Step(old(Abstract()), Lock(pid, b), Abstract()) else Abstract() == old(Abstract())
    {
      hide BufsOk, Unique, Lru, Linked;
      ok := buf[b].holder == 0;
      if ok {
        buf[b] := buf[b].(holder := pid);
        Changed(old(Abstract()), Lock(pid, b), Abstract());
      }
    }

    /** The rest of bread, with the lock held: the buffer has the contents of its block. */
    method Read(pid: nat, b: nat)
      requires Valid() && b < NBUF && buf[b].holder == pid != 0 && buf[b].key in disk && buf[b].key.dev != 0
      modifies buf
      ensures Valid() && buf[b].valid && buf[b].key == old(buf[b].key)
      ensures buf[..] == old(buf[..])[b := if old(buf[b]).valid then old(buf[b]) else old(buf[b]).(data := disk[old(buf[b]).key], valid := true)]
      ensures View(Abstract()) == View(old(Abstract()))
      ensures buf[b].key in View(Abstract()) && buf[b].data == View(Abstract())[buf[b].key]
    {
      hide BufsOk, Unique, Lru, Linked, View;
      if !buf[b].valid {
        buf[b] := buf[b].(data := disk[buf[b].key]);
        buf[b] := buf[b].(valid := true);
        Changed(old(Abstract()), Fill(pid, b), Abstract());
        StepView(old(Abstract()), Fill(pid, b), Abstract());
      }
      CachedIsView(Abstract(), b);
    }

    /** The holder of a buffer changes its contents. */
    method Change(pid: nat, b: nat, data: Block)
      requires Valid() && b < NBUF && buf[b].holder == pid != 0 && buf[b].valid
      modifies buf
      ensures Valid() && View(Abstract()) == View(old(Abstract()))[buf[b].key := data]
      ensures buf[..] == old(buf[..])[b := old(buf[b]).(data := data)]
      ensures Step(old(Abstract()), Modify(pid, b, data), Abstract())
    {
      hide BufsOk, Unique, Lru, Linked, View;
      buf[b] := buf[b].(data := data);
      Changed(old(Abstract()), Modify(pid, b, data), Abstract());
      StepView(old(Abstract()), Modify(pid, b, data), Abstract());
    }

    method BwriteBuf(pid: nat, b: nat)
      requires Valid() && b < NBUF && buf[b].holder == pid != 0 && buf[b].valid
      modifies this`disk
      ensures Valid() && Step(old(Abstract()), Bwrite(pid, b), Abstract())
      ensures disk == old(disk)[buf[b].key := buf[b].data]
    {
      hide BufsOk, Unique, Lru, Linked;
      disk := disk[buf[b].key := buf[b].data];
      Changed(old(Abstract()), Bwrite(pid, b), Abstract());
    }

    method Bpin(b: nat)
      requires Valid() && b < NBUF
      modifies this`pins, buf
      ensures Valid() && Step(old(Abstract()), Pin(b), Abstract())
      ensures buf[..] == old(buf[..])[b := old(buf[b]).(refcnt := old(buf[b]).refcnt + 1)]
    {
      hide BufsOk, Unique, Lru, Linked;
      buf[b] := buf[b].(refcnt := buf[b].refcnt + 1);
      pins := pins[b := pins[b] + 1];
      Changed(old(Abstract()), Pin(b), Abstract());
    }

    method Bunpin(pid: nat, b: nat)
      requires Valid() && Enabled(Abstract(), Unpin(pid, b))
      modifies this`pins, buf
      ensures Valid() && Step(old(Abstract()), Unpin(pid, b), Abstract())
      ensures buf[..] == old(buf[..])[b := old(buf[b]).(refcnt := old(buf[b]).refcnt - 1)]
    {
      hide BufsOk, Unique, Lru, Linked;
      buf[b] := buf[b].(refcnt := buf[b].refcnt - 1);
      pins := pins[b := pins[b] - 1];
      Changed(old(Abstract()), Unpin(pid, b), Abstract());
    }

    /** The releasesleep of brelse. */
    method Releasesleep(pid: nat, b: nat)
      requires Valid() && Enabled(Abstract(), Unlock(pid, b))
      modifies buf
      ensures Valid() && Step(old(Abstract()), Unlock(pid, b), Abstract())
      ensures buf[..] == old(buf[..])[b := old(buf[b]).(holder := 0)]
    {
      hide BufsOk, Unique, Lru, Linked;
      buf[b] := buf[b].(holder := 0);
      Changed(old(Abstract()), Unlock(pid, b), Abstract());
    }

    /** A released buffer that nobody refers to goes to the front of the cycle. */
    method ToFront(b: nat)
      requires next != prev && next.Length == prev.Length == NBUF + 1
      requires Linked(next[..], prev[..], order) && Distinct(order) && b < NBUF && b in order
      modifies this`order, next, prev
      ensures Linked(next[..], prev[..], order) && order == Moved(old(order), b)
    {
      hide Linked;
      WithoutGone(order, b);
      Unlink(b);
      PushFront(b);
    }

    /** The rest of brelse, under bcache.lock. */
    method Brelse(pid: nat, b: nat)
      requires Valid() && Enabled(Abstract(), Put(pid, b))
      modifies this, buf, next, prev
      ensures Valid() && Step(old(Abstract()), Put(pid, b), Abstract())
      ensures buf[..] == old(buf[..])[b := old(buf[b]).(refcnt := old(buf[b]).refcnt - 1)] && disk == old(disk)
      ensures b in old(order) && order == if old(buf[b]).refcnt == 1 then Moved(old(order), b) else old(order)
    {
      hide BufsOk, Unique, Lru, Linked, Moved;
      BufInList(Abstract(), b);
      buf[b] := buf[b].(refcnt := buf[b].refcnt - 1);
      refs := refs[b := refs[b] - multiset{pid}];
      if buf[b].refcnt == 0 {
        ToFront(b);
      }
      stamp := stamp[b := clock + 1];
      clock := clock + 1;
      Changed(old(Abstract()), Put(pid, b), Abstract());
    }
  }

  lemma FreshInv(s: State)
    requires Sizes(s) && Ordered(s.order)
    requires forall b :: 0 <= b < NBUF ==> s.bufs[b] == Buf(false, Key(0, 0), 0, 0, [])
    requires forall b :: 0 <= b < NBUF ==> s.refs[b] == multiset{} && s.pins[b] == 0 && s.stamp[b] == 0
    ensures Inv(s) && View(s) == s.disk
  {
    forall k | k in s.disk
      ensures View(s)[k] == s.disk[k]
    {
    }
  }

  lemma SpotNext(next: seq<nat>, prev: seq<nat>, order: seq<nat>, i: nat)
    requires Linked(next, prev, order) && i <= |order|
    ensures Spot(order, i) <= NBUF && next[Spot(order, i)] == Spot(order, i + 1)
    ensures Spot(order, i + 1) <= NBUF && prev[Spot(order, i + 1)] == Spot(order, i)
    ensures Spot(order, i + 1) == HEAD <==> i == |order|
    ensures Spot(order, i) == HEAD <==> i == 0
    ensures i > 0 ==> Spot(order, i) == order[i - 1]
    ensures i < |order| ==> Spot(order, i + 1) == order[i]
  {
  }

  lemma BufsListed(s: State)
    requires Inv(s)
    ensures forall i :: 0 <= i < |s.order| ==> s.order[i] < NBUF
  {
  }

  lemma NobodyHas(s: State, k: Key)
    requires Inv(s) && forall j :: 0 <= j < |s.order| ==> s.bufs[s.order[j]].key != k
    ensures forall c :: 0 <= c < NBUF ==> s.bufs[c].key != k
  {
    forall c: nat | c < NBUF
      ensures s.bufs[c].key != k
    {
      BufInList(s, c);
    }
  }

  lemma AllReferenced(s: State)
    requires Inv(s) && forall j :: 0 <= j < |s.order| ==> s.bufs[s.order[j]].refcnt != 0
    ensures forall c :: 0 <= c < NBUF ==> s.bufs[c].refcnt != 0
  {
    forall c: nat | c < NBUF
      ensures s.bufs[c].refcnt != 0
    {
      BufInList(s, c);
    }
  }

  lemma OldestAt(s: State, i: nat)
    requires Inv(s) && i < |s.order| && s.bufs[s.order[i]].refcnt == 0
    requires forall j :: i < j < |s.order| ==> s.bufs[s.order[j]].refcnt != 0
    ensures Oldest(s, s.order[i])
  {
  }

  lemma WithoutGone(order: seq<nat>, b: nat)
    requires Distinct(order) && b in order
    ensures b !in Without(order, IndexOf(order, b))
  {
  }

  /** t is what the action makes of s, so the invariant holds again. */
  lemma Changed(s: State, a: Action, t: State)
    requires Inv(s) && Enabled(s, a) && t == Next(s, a)
    ensures Step(s, a, t) && Inv(t)
  {
    hide BufsOk, Unique, Ordered, Lru, Next, Enabled;
    StepKeeps(s, a, t);
  }
}
