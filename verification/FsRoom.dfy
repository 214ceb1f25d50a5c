/** How much a write takes: how many bytes writei and filewrite accept on any disk, which blocks they
    take for them, and exactly which blocks they and itrunc give to log_write. */
module FsRoom {
  import opened FsLayout
  import opened FsSpace
  import opened FsFile
  import opened FsChunk
  import FsCalls
  import Fs
  import opened Sets

  /** The blocks whose bit is clear. */
  function FreeBlocks(s: State): set<nat>
    requires Wf(s)
  {
    set b: nat | b < s.sb.size && !Used(s, b)
  }

  /** The places that the block at index bn of file i goes through. */
  function Places(i: nat, bn: nat): set<Slot> {
    if bn < NDIRECT then {Slot(i, bn)} else {Slot(i, NDIRECT), Slot(i, bn + 1)}
  }

  /** The places that m bytes of file i from byte off on go through. */
  function Span(i: nat, off: nat, m: nat): set<Slot> {
    set bn: nat, sl | bn < MAXFILE && m > 0 && off / BSIZE <= bn <= (off + m - 1) / BSIZE && sl in Places(i, bn) :: sl
  }

  /** Of these, the places that hold no block yet. */
  ghost function Need(s: State, i: nat, off: nat, m: nat): set<Slot>
    requires Wf(s)
  {
    Span(i, off, m) - Held(s).Keys
  }

  /** What log_write is given for a new block at place sl: the block, its bitmap block, and the indirect
      block if the place is in one. */
  function LogOf(sb: Super, h: map<Slot, nat>, sl: Slot): set<nat> {
    if sl !in h then {}
    else
      {h[sl], h[sl] / BPB + sb.bmapstart}
      + (if sl.k > NDIRECT && Slot(sl.inum, NDIRECT) in h then {h[Slot(sl.inum, NDIRECT)]} else {})
  }

  function NewLog(sb: Super, h: map<Slot, nat>, need: set<Slot>): set<nat> {
    set sl, x | sl in need && x in LogOf(sb, h, sl) :: x
  }

  /** The places need are new in h'; all others hold what they held. */
  ghost predicate Adds(h: map<Slot, nat>, h': map<Slot, nat>, need: set<Slot>) {
    && need !! h.Keys && h'.Keys == h.Keys + need
    && forall sl :: sl in h ==> sl in h' && h'[sl] == h[sl]
  }

  /** t is s with a free block taken for each place of need, and no other; besides what that logs, w has
      been given to log_write. */
  ghost predicate Takes(s: State, t: State, need: set<Slot>, w: set<nat>) {
    && Own(s) && Own(t) && t.sb == s.sb && t.inodes.Keys == s.inodes.Keys
    && Adds(Held(s), Held(t), need)
    && |FreeBlocks(s)| == |FreeBlocks(t)| + |need|
    && t.logged == s.logged + NewLog(s.sb, Held(t), need) + w
  }

  lemma TakesNothing(s: State)
    requires Own(s)
    ensures Takes(s, s, {}, {})
  {
    hide Used, Held, HeldAt, Owns;
  }

  lemma IndirectOf(s: State, sl: Slot)
    requires Own(s) && sl in Held(s) && sl.k > NDIRECT
    ensures Slot(sl.inum, NDIRECT) in Held(s)
  {
  }

  lemma LogStays(s: State, need: set<Slot>, h: map<Slot, nat>, more: set<Slot>)
    requires Own(s) && need <= Held(s).Keys && Adds(Held(s), h, more)
    ensures NewLog(s.sb, h, need) == NewLog(s.sb, Held(s), need)
  {
    hide Used, Held, HeldAt, Owns;
    forall sl | sl in need
      ensures LogOf(s.sb, h, sl) == LogOf(s.sb, Held(s), sl)
    {
      if sl.k > NDIRECT { IndirectOf(s, sl); }
    }
    hide LogOf;
  }

  lemma NewLogAdds(sb: Super, h: map<Slot, nat>, a: set<Slot>, b: set<Slot>)
    ensures NewLog(sb, h, a + b) == NewLog(sb, h, a) + NewLog(sb, h, b)
  {
  }

  lemma AddsTwice(h: map<Slot, nat>, h': map<Slot, nat>, h'': map<Slot, nat>, a: set<Slot>, b: set<Slot>)
    requires Adds(h, h', a) && Adds(h', h'', b)
    ensures Adds(h, h'', a + b) && a <= h'.Keys && |a + b| == |a| + |b|
  {
    Apart(h.Keys, h'.Keys, h''.Keys, a, b);
    assert forall sl :: sl in h ==> sl in h'.Keys;
  }

  lemma Apart(k: set<Slot>, k': set<Slot>, k'': set<Slot>, a: set<Slot>, b: set<Slot>)
    requires a !! k && k' == k + a && b !! k' && k'' == k' + b
    ensures a + b !! k && k'' == k + (a + b) && |a + b| == |a| + |b|
  {
    DisjointSize(a, b);
  }

  lemma DisjointSize(a: set<Slot>, b: set<Slot>)
    requires a !! b
    ensures |a + b| == |a| + |b|
  {
  }

  lemma TakesTwice(s: State, t: State, u: State, a: set<Slot>, b: set<Slot>, v: set<nat>, w: set<nat>)
    requires Takes(s, t, a, v) && Takes(t, u, b, w)
    ensures Takes(s, u, a + b, v + w)
  {
    hide Used, Held, HeldAt, Owns, FreeBlocks, NewLog, Adds;
    AddsTwice(Held(s), Held(t), Held(u), a, b);
    LogStays(t, a, Held(u), b);
    NewLogAdds(s.sb, Held(u), a, b);
  }

  // ---- one block ----

  lemma OneFewer(s: State, t: State, sl: Slot, b: nat)
    requires Own(s) && Own(t) && t.sb == s.sb && sl !in Held(s) && Held(t) == Held(s)[sl := b] && b !in Held(s).Values
    ensures b in FreeBlocks(s) && |FreeBlocks(s)| == |FreeBlocks(t)| + 1
  {
    hide Held, HeldAt, Used;
    var h, h' := Held(s), Held(t);
    assert h'[sl] == b;
    assert b in h'.Values;
    forall c | c in h.Values
      ensures c in h'.Values
    {
      var x :| x in h && h[x] == c;
      assert h'[x] == c;
    }
    assert forall c :: c in h'.Values ==> c == b || c in h.Values;
    assert FreeBlocks(s) == FreeBlocks(t) + {b};
  }

  lemma BallocLogs(s: State, t: State, b: nat)
    requires Wf(s) && (t, b) == Balloc(s) && b != 0
    ensures b < s.sb.size && t.logged == s.logged + {b, b / BPB + s.sb.bmapstart} && t.inodes == s.inodes
  {
  }

  lemma AllocLogsAll(s: State, i: nat, k: nat, t: State, b: nat)
    requires Wf(s) && i in s.inodes && k < NSLOTS && (k > NDIRECT ==> s.inodes[i].addrs[NDIRECT] != 0)
    requires (t, b) == AllocTo(s, i, k) && b != 0
    ensures t.logged == s.logged + {b, b / BPB + s.sb.bmapstart} + (if k > NDIRECT then {s.inodes[i].addrs[NDIRECT]} else {})
  {
    hide Balloc, WithWord;
    var (m, b') := Balloc(s);
    BallocLogs(s, m, b');
  }

  lemma AddsOne(sb: Super, h: map<Slot, nat>, sl: Slot, b: nat)
    requires sl !in h
    ensures Adds(h, h[sl := b], {sl})
    ensures NewLog(sb, h[sl := b], {sl}) == LogOf(sb, h[sl := b], sl)
  {
  }

  lemma AllocTakes(s: State, i: nat, k: nat, t: State, b: nat)
    requires Own(s) && i in s.inodes && k < NSLOTS && HeldAt(s, Slot(i, k)) == 0
    requires k > NDIRECT ==> s.inodes[i].addrs[NDIRECT] != 0
    requires (t, b) == AllocTo(s, i, k) && b != 0
    ensures Takes(s, t, {Slot(i, k)}, {}) && FreeBlocks(s) != {}
  {
    hide Used, HeldAt, Held, AllocTo, Owns, Adds, FreeBlocks, NewLog, LogOf;
    var sl := Slot(i, k);
    AllocToGrows(s, i, k, t, b);
    AllocLogsAll(s, i, k, t, b);
    NotHeld(s, sl);
    OneFewer(s, t, sl, b);
    AddsOne(s.sb, Held(s), sl, b);
    LogOfNew(s, i, k, b);
  }

  lemma LogOfNew(s: State, i: nat, k: nat, b: nat)
    requires Own(s) && i in s.inodes && (k > NDIRECT ==> s.inodes[i].addrs[NDIRECT] != 0)
    ensures LogOf(s.sb, Held(s)[Slot(i, k) := b], Slot(i, k))
         == {b, b / BPB + s.sb.bmapstart} + (if k > NDIRECT then {s.inodes[i].addrs[NDIRECT]} else {})
  {
    hide Used, HeldAt, Held, Owns;
    if k > NDIRECT { IndirectHeld(s, Held(s), i); }
  }

  lemma FullHasNoFree(s: State)
    requires Wf(s)
    ensures Full(s) <==> FreeBlocks(s) == {}
  {
    hide Used;
    if FreeBlocks(s) == {} {
      forall c | 0 <= c < s.sb.size
        ensures Used(s, c)
      {
        assert c !in FreeBlocks(s);
      }
    }
  }

  lemma GetOrAllocTakes(s: State, i: nat, k: nat, t: State, b: nat)
    requires Own(s) && i in s.inodes && k < NSLOTS
    requires k > NDIRECT ==> s.inodes[i].addrs[NDIRECT] != 0
    requires (t, b) == GetOrAlloc(s, i, k)
    ensures b != 0 <==> Slot(i, k) in Held(s) || FreeBlocks(s) != {}
    ensures Takes(s, t, if b == 0 then {} else {Slot(i, k)} - Held(s).Keys, {})
  {
    hide Used, HeldAt, Held, AllocTo, Owns, Takes, Full, FreeBlocks;
    GetOrAllocGrows(s, i, k, t, b);
    NotHeld(s, Slot(i, k));
    FullHasNoFree(s);
    TakesNothing(s);
    if Slot(i, k) in Held(s) {
      assert {Slot(i, k)} - Held(s).Keys == {};
    } else if b != 0 {
      AllocTakes(s, i, k, t, b);
      assert {Slot(i, k)} - Held(s).Keys == {Slot(i, k)};
    }
  }

  // ---- bmap ----

  lemma PairSize(held: set<Slot>, x: Slot, y: Slot)
    requires x != y
    ensures var a, c := {x} - held, {y} - (held + ({x} - held));
      && {x, y} - held == a + c && |a + c| == |a| + |c|
      && |c| == (if y in held then 0 else 1)
  {
    var a, c := {x} - held, {y} - (held + ({x} - held));
    assert a !! c;
    assert c == if y in held then {} else {y};
  }

  /** bmap finds a block exactly when there is a free block for every empty place it goes through, and
      takes exactly those; otherwise it uses up the last one at most. */
  lemma BmapTakes(s: State, i: nat, bn: nat, t: State, b: nat) returns (got: set<Slot>)
    requires Own(s) && i in s.inodes && bn < MAXFILE && (t, b) == Bmap(s, i, bn)
    ensures b != 0 <==> |Places(i, bn) - Held(s).Keys| <= |FreeBlocks(s)|
    ensures Takes(s, t, got, {}) && got <= Places(i, bn)
    ensures b != 0 ==> got == Places(i, bn) - Held(s).Keys
    ensures b == 0 ==> FreeBlocks(t) == {} && Slot(i, FileSlot(bn)) !in Held(t)
  {
    hide Used, HeldAt, Held, GetOrAlloc, Owns, Takes, FreeBlocks, Full;
    BmapGrows(s, i, bn, t, b);
    if bn < NDIRECT {
      GetOrAllocTakes(s, i, bn, t, b);
      got := if b == 0 then {} else {Slot(i, bn)} - Held(s).Keys;
      BmapDirect(s, i, bn, t, b, got);
    } else {
      var (m, ind) := GetOrAlloc(s, i, NDIRECT);
      GetOrAllocGrows(s, i, NDIRECT, m, ind);
      GetOrAllocTakes(s, i, NDIRECT, m, ind);
      got := if ind == 0 then {} else {Slot(i, NDIRECT)} - Held(s).Keys;
      if ind != 0 {
        AddrHeld(m, i, NDIRECT);
        GetOrAllocTakes(m, i, bn + 1, t, b);
        got := BmapIndirect(s, i, bn, m, t, b, got);
      } else {
        BmapNoIndirect(s, i, bn);
      }
    }
  }

  lemma BmapDirect(s: State, i: nat, bn: nat, t: State, b: nat, got: set<Slot>)
    requires bn < NDIRECT && Takes(s, t, got, {}) && (b != 0 <==> Slot(i, bn) in Held(s) || FreeBlocks(s) != {})
    requires got == if b == 0 then {} else {Slot(i, bn)} - Held(s).Keys
    ensures b != 0 <==> |Places(i, bn) - Held(s).Keys| <= |FreeBlocks(s)|
    ensures got <= Places(i, bn) && (b != 0 ==> got == Places(i, bn) - Held(s).Keys)
    ensures b == 0 ==> FreeBlocks(t) == {} && Slot(i, FileSlot(bn)) !in Held(t)
  {
    hide Used, HeldAt, Held, Owns, FreeBlocks, NewLog;
    assert Places(i, bn) - Held(s).Keys == if Slot(i, bn) in Held(s) then {} else {Slot(i, bn)};
  }

  lemma BmapNoIndirect(s: State, i: nat, bn: nat)
    requires Own(s) && NDIRECT <= bn < MAXFILE && Slot(i, NDIRECT) !in Held(s) && FreeBlocks(s) == {}
    ensures |Places(i, bn) - Held(s).Keys| > |FreeBlocks(s)| && Slot(i, FileSlot(bn)) !in Held(s)
  {
    hide Used, HeldAt, Held, Owns, FreeBlocks;
    assert Slot(i, NDIRECT) in Places(i, bn) - Held(s).Keys;
    if Slot(i, bn + 1) in Held(s) { IndirectOf(s, Slot(i, bn + 1)); }
  }

  lemma BmapIndirect(s: State, i: nat, bn: nat, m: State, t: State, b: nat, ind: set<Slot>) returns (got: set<Slot>)
    requires NDIRECT <= bn < MAXFILE && Takes(s, m, ind, {}) && ind == {Slot(i, NDIRECT)} - Held(s).Keys
    requires b != 0 <==> Slot(i, bn + 1) in Held(m) || FreeBlocks(m) != {}
    requires Takes(m, t, if b == 0 then {} else {Slot(i, bn + 1)} - Held(m).Keys, {})
    ensures b != 0 <==> |Places(i, bn) - Held(s).Keys| <= |FreeBlocks(s)|
    ensures Takes(s, t, got, {}) && got <= Places(i, bn)
    ensures b != 0 ==> got == Places(i, bn) - Held(s).Keys
    ensures b == 0 ==> FreeBlocks(t) == {} && Slot(i, FileSlot(bn)) !in Held(t)
  {
    hide Used, HeldAt, Held, Owns, FreeBlocks, NewLog;
    var more := if b == 0 then {} else {Slot(i, bn + 1)} - Held(m).Keys;
    TakesTwice(s, m, t, ind, more, {}, {});
    got := ind + more;
    PairSize(Held(s).Keys, Slot(i, NDIRECT), Slot(i, bn + 1));
  }

  // ---- writei's loop ----

  /** The data blocks that hold n bytes of file i from byte off on. */
  function Data(h: map<Slot, nat>, i: nat, off: nat, n: nat): set<nat> {
    set bn: nat | bn < MAXFILE && n > 0 && off / BSIZE <= bn <= (off + n - 1) / BSIZE && Slot(i, FileSlot(bn)) in h
      :: h[Slot(i, FileSlot(bn))]
  }

  lemma PutTakes(s: State, sl: Slot, data: Block)
    requires Own(s) && sl in Held(s) && sl.k != NDIRECT
    ensures Held(s)[sl] < |s.blocks| && var t := Put(s, Held(s)[sl], data);
      Takes(s, t, {}, {Held(s)[sl]}) && Held(t) == Held(s)
  {
    hide HeldAt, Used, Held, FreeBlocks;
    HeldBelow(s, sl);
    var b := Held(s)[sl];
    var t := Put(s, b, data);
    PutOwns(s, Held(s), b, data);
    DataNotIndirect(s, sl);
    HeldFrame(s, t);
    PutFree(s, b, data);
  }

  lemma ThenPut(s: State, t: State, sl: Slot, data: Block, got: set<Slot>)
    requires Takes(s, t, got, {}) && sl in Held(t) && sl.k != NDIRECT
    ensures Held(t)[sl] < |t.blocks| && var u := Put(t, Held(t)[sl], data);
      Takes(s, u, got, {Held(t)[sl]}) && Held(u) == Held(t)
  {
    hide HeldAt, Used, Held, FreeBlocks, Owns, Adds, NewLog;
    PutTakes(t, sl, data);
    var b := Held(t)[sl];
    TakesTwice(s, t, Put(t, b, data), got, {}, {}, {b});
    assert got + {} == got && {} + {b} == {b};
  }

  lemma PutFree(s: State, b: nat, data: Block)
    requires Wf(s) && s.sb.nmeta <= b < s.sb.size
    ensures Wf(Put(s, b, data)) && FreeBlocks(Put(s, b, data)) == FreeBlocks(s)
  {
    hide Used;
    PutUsed(s, b, data, 0);
    forall c: nat | c < s.sb.size
      ensures Used(Put(s, b, data), c) == Used(s, c)
    {
      PutUsed(s, b, data, c);
    }
  }

  lemma SpanOne(h: map<Slot, nat>, i: nat, off: nat, m: nat)
    requires 0 < m && off % BSIZE + m <= BSIZE && off < MAXBYTES
    ensures Span(i, off, m) == Places(i, off / BSIZE)
    ensures Data(h, i, off, m) == if Slot(i, FileSlot(off / BSIZE)) in h then {h[Slot(i, FileSlot(off / BSIZE))]} else {}
  {
    assert (off + m - 1) / BSIZE == off / BSIZE;
    assert off / BSIZE < MAXFILE;
  }

  lemma SpanSplit(h: map<Slot, nat>, i: nat, off: nat, a: nat, b: nat)
    requires a > 0
    ensures Span(i, off, a + b) == Span(i, off, a) + Span(i, off + a, b)
    ensures Data(h, i, off, a + b) == Data(h, i, off, a) + Data(h, i, off + a, b)
  {
    hide Places, FileSlot;
    if b > 0 { Adjacent(off, a, b); }
  }

  lemma Adjacent(off: nat, a: nat, b: nat)
    requires a > 0 && b > 0
    ensures off / BSIZE <= (off + a - 1) / BSIZE <= (off + a) / BSIZE <= (off + a - 1) / BSIZE + 1
    ensures (off + a) / BSIZE <= (off + a + b - 1) / BSIZE
  {
  }

  /** One iteration: it goes through exactly when there is a free block for each empty place. */
  lemma WriteOneTakes(s: State, i: nat, off: nat, w: seq<byte>, t: State, ok: bool) returns (got: set<Slot>)
    requires Own(s) && i in s.inodes && off < MAXBYTES && 0 < |w| && off % BSIZE + |w| <= BSIZE
    requires (t, ok) == WriteOne(s, i, off, w)
    ensures ok <==> |Need(s, i, off, |w|)| <= |FreeBlocks(s)|
    ensures Takes(s, t, got, if ok then Data(Held(t), i, off, |w|) else {})
    ensures ok ==> got == Need(s, i, off, |w|) && Slot(i, FileSlot(off / BSIZE)) in Held(t)
    ensures !ok ==> FreeBlocks(t) == {} && Slot(i, FileSlot(off / BSIZE)) !in Held(t)
  {
    hide HeldAt, Used, Held, FreeBlocks, Owns, Bmap, Takes, Splice, Wrote, Data, Span, Places;
    var (m, b) := Bmap(s, i, off / BSIZE);
    BmapGrows(s, i, off / BSIZE, m, b);
    got := BmapTakes(s, i, off / BSIZE, m, b);
    SpanOne(Held(m), i, off, |w|);
    if ok {
      InData(m, i, off, b);
      ThenPut(s, m, Slot(i, FileSlot(off / BSIZE)), Splice(m.blocks[b], off % BSIZE, w), got);
    }
  }

  /** Of len bytes at off exactly n are accepted: as many as there are free blocks for. */
  ghost predicate Accepts(s: State, i: nat, off: nat, len: nat, n: nat)
    requires Wf(s)
  {
    n <= len && forall m: nat {:trigger Need(s, i, off, m)} :: m <= len ==> (m <= n <==> |Need(s, i, off, m)| <= |FreeBlocks(s)|)
  }

  lemma NeedNothing(s: State, i: nat, off: nat)
    requires Wf(s)
    ensures Need(s, i, off, 0) == {} && Accepts(s, i, off, 0, 0)
  {
    hide Held, Used, HeldAt;
    assert Span(i, off, 0) == {};
  }

  lemma SetSplit(k: set<Slot>, a: set<Slot>, b: set<Slot>)
    ensures (a + b) - k == (a - k) + (b - (k + (a - k)))
    ensures |(a + b) - k| == |a - k| + |b - (k + (a - k))|
  {
    DisjointSize(a - k, b - (k + (a - k)));
  }

  /** The places of m bytes are those of the first c and those that the rest needs afterwards. */
  lemma NeedSplit(s: State, t: State, i: nat, off: nat, c: nat, m: nat)
    requires Wf(s) && Wf(t) && 0 < c <= m && Held(t).Keys == Held(s).Keys + Need(s, i, off, c)
    ensures Need(s, i, off, m) == Need(s, i, off, c) + Need(t, i, off + c, m - c)
    ensures |Need(s, i, off, m)| == |Need(s, i, off, c)| + |Need(t, i, off + c, m - c)|
  {
    hide Held, HeldAt, Used, Wf, Span, Data;
    SpanSplit(Held(s), i, off, c, m - c);
    SetSplit(Held(s).Keys, Span(i, off, c), Span(i, off + c, m - c));
  }

  lemma AcceptsMore(s: State, t: State, i: nat, off: nat, c: nat, len: nat, n: nat)
    requires 0 < c <= len && off % BSIZE + c <= BSIZE && off < MAXBYTES
    requires Wf(s) && Wf(t) && Held(t).Keys == Held(s).Keys + Need(s, i, off, c)
    requires |FreeBlocks(s)| == |FreeBlocks(t)| + |Need(s, i, off, c)| && Accepts(t, i, off + c, len - c, n)
    ensures Accepts(s, i, off, len, c + n)
  {
    hide Held, HeldAt, Used, Wf, FreeBlocks, Need;
    forall m: nat | m <= len
      ensures m <= c + n <==> |Need(s, i, off, m)| <= |FreeBlocks(s)|
    {
      if m == 0 {
        NeedNothing(s, i, off);
      } else if m <= c {
        NeedWithin(s, i, off, m, c);
      } else {
        NeedSplit(s, t, i, off, c, m);
      }
    }
  }

  lemma NeedWithin(s: State, i: nat, off: nat, m: nat, c: nat)
    requires Wf(s) && 0 < m <= c && off % BSIZE + c <= BSIZE && off < MAXBYTES
    ensures Need(s, i, off, m) == Need(s, i, off, c)
  {
    hide Held, HeldAt, Used, Span, Places, Data;
    SpanOne(Held(s), i, off, m);
    SpanOne(Held(s), i, off, c);
  }

  lemma AcceptsNone(s: State, i: nat, off: nat, c: nat, len: nat)
    requires Wf(s) && 0 < c <= len && off % BSIZE + c <= BSIZE && off < MAXBYTES
    requires |Need(s, i, off, c)| > |FreeBlocks(s)|
    ensures Accepts(s, i, off, len, 0)
  {
    hide Held, HeldAt, Used, FreeBlocks, Need;
    forall m: nat | m <= len
      ensures m <= 0 <==> |Need(s, i, off, m)| <= |FreeBlocks(s)|
    {
      if m == 0 {
        NeedNothing(s, i, off);
      } else if m <= c {
        NeedWithin(s, i, off, m, c);
      } else {
        NeedMore(s, i, off, c, m);
      }
    }
  }

  lemma NeedMore(s: State, i: nat, off: nat, c: nat, m: nat)
    requires Wf(s) && 0 < c <= m
    ensures |Need(s, i, off, c)| <= |Need(s, i, off, m)|
  {
    hide Held, HeldAt, Used, Span;
    SpanSplit(Held(s), i, off, c, m - c);
    SubsetSize(Need(s, i, off, c), Need(s, i, off, m));
  }

  /** n of len bytes were accepted, as many as there are free blocks for.  The places got took a block each:
      those the bytes go through, and perhaps the indirect block before the loop gave up.  Nothing but
      these and the data blocks of the bytes is logged.  When not all bytes were accepted, no bit is clear
      and the next byte has no block. */
  ghost predicate Took(s: State, i: nat, off: nat, len: nat, t: State, n: nat, got: set<Slot>) {
    && Own(s) && Own(t)
    && Accepts(s, i, off, len, n)
    && Takes(s, t, got, Data(Held(t), i, off, n))
    && (n == len ==> got == Need(s, i, off, len))
    && (n < len ==> FreeBlocks(t) == {} && !HasByte(t, i, off + n))
  }

  lemma {:induction false} WriteFromTakes(s: State, i: nat, off: nat, data: seq<byte>, t: State, n: nat) returns (got: set<Slot>)
    requires Own(s) && i in s.inodes && off + |data| <= MAXBYTES && (t, n) == WriteFrom(s, i, off, data)
    ensures Took(s, i, off, |data|, t, n, got)
    decreases |data|
  {
    hide HeldAt, Used, Held, FreeBlocks, Owns, WriteOne, Takes, Data, Span, Need, Chunk, Took, NewLog;
    if data == [] {
      got := {};
      TookNothing(s, i, off);
    } else {
      var c := Chunk(off, |data|);
      var (u, ok) := WriteOne(s, i, off, data[..c]);
      got := WriteOneTakes(s, i, off, data[..c], u, ok);
      if ok {
        TakesKeys(s, u, got, Data(Held(u), i, off, c));
        var more := WriteFromTakes(u, i, off + c, data[c..], t, n - c);
        TookMore(s, u, t, i, off, c, |data|, n - c, got, more);
        got := got + more;
      } else {
        TookNone(s, i, off, c, |data|, t, got);
      }
    }
  }

  lemma TookNothing(s: State, i: nat, off: nat)
    requires Own(s)
    ensures Took(s, i, off, 0, s, 0, {})
  {
    hide HeldAt, Used, Held, FreeBlocks, Owns, Takes, Data, Span, Need, NewLog, Accepts;
    TakesNothing(s);
    NeedNothing(s, i, off);
    NoData(Held(s), i, off);
  }

  lemma TookNone(s: State, i: nat, off: nat, c: nat, len: nat, t: State, got: set<Slot>)
    requires Own(s) && Takes(s, t, got, {}) && 0 < c <= len && off % BSIZE + c <= BSIZE && off < MAXBYTES
    requires |Need(s, i, off, c)| > |FreeBlocks(s)|
    requires Own(t) && FreeBlocks(t) == {} && Slot(i, FileSlot(off / BSIZE)) !in Held(t)
    ensures Took(s, i, off, len, t, 0, got)
  {
    hide HeldAt, Used, Held, FreeBlocks, Owns, Takes, Data, Span, Need, NewLog, Accepts;
    AcceptsNone(s, i, off, c, len);
    NoData(Held(t), i, off);
  }

  lemma TookMore(s: State, u: State, t: State, i: nat, off: nat, c: nat, len: nat, n: nat, a: set<Slot>, b: set<Slot>)
    requires 0 < c <= len && off % BSIZE + c <= BSIZE && off < MAXBYTES && n <= len - c
    requires Own(s) && Own(u) && Slot(i, FileSlot(off / BSIZE)) in Held(u) && a == Need(s, i, off, c)
    requires Takes(s, u, a, Data(Held(u), i, off, c)) && Took(u, i, off + c, len - c, t, n, b)
    ensures Took(s, i, off, len, t, c + n, a + b)
  {
    hide HeldAt, Used, Held, FreeBlocks, Owns, Data, Span, Need, NewLog, Accepts, Takes, HasByte;
    TakesCounts(s, u, a, Data(Held(u), i, off, c));
    AcceptsMore(s, u, i, off, c, len, n);
    TakesOn(s, u, t, i, off, c, c + n, a, b);
    if n == len - c { NeedSplit(s, u, i, off, c, len); }
  }

  lemma TakesCounts(s: State, t: State, need: set<Slot>, w: set<nat>)
    requires Takes(s, t, need, w)
    ensures Own(s) && Own(t) && Held(t).Keys == Held(s).Keys + need && |FreeBlocks(s)| == |FreeBlocks(t)| + |need|
  {
  }

  lemma TakesOn(s: State, u: State, t: State, i: nat, off: nat, c: nat, n: nat, a: set<Slot>, b: set<Slot>)
    requires 0 < c <= n && off % BSIZE + c <= BSIZE && off < MAXBYTES
    requires Own(u) && Own(t) && Slot(i, FileSlot(off / BSIZE)) in Held(u)
    requires Takes(s, u, a, Data(Held(u), i, off, c)) && Takes(u, t, b, Data(Held(t), i, off + c, n - c))
    ensures Takes(s, t, a + b, Data(Held(t), i, off, n))
  {
    hide HeldAt, Used, Held, FreeBlocks, Owns, Data, NewLog, Span, Takes;
    TakesTwice(s, u, t, a, b, Data(Held(u), i, off, c), Data(Held(t), i, off + c, n - c));
    TakesSame(u, t, b, Data(Held(t), i, off + c, n - c), Slot(i, FileSlot(off / BSIZE)));
    SpanOne(Held(u), i, off, c);
    SpanOne(Held(t), i, off, c);
    SpanSplit(Held(t), i, off, c, n - c);
  }

  lemma TakesSame(s: State, t: State, need: set<Slot>, w: set<nat>, sl: Slot)
    requires Takes(s, t, need, w) && Own(s) && Own(t) && sl in Held(s)
    ensures sl in Held(t) && Held(t)[sl] == Held(s)[sl]
  {
  }

  lemma NoData(h: map<Slot, nat>, i: nat, off: nat)
    ensures Data(h, i, off, 0) == {}
  {
  }

  lemma TakesKeys(s: State, t: State, need: set<Slot>, w: set<nat>)
    requires Takes(s, t, need, w)
    ensures Own(s) && Own(t) && t.inodes.Keys == s.inodes.Keys
  {
  }

  // ---- writei ----

  lemma SetSizeFree(s: State, i: nat, size: nat)
    requires Own(s) && i in s.inodes
    ensures var t := SetSize(s, i, size);
      Own(t) && Held(t) == Held(s) && FreeBlocks(t) == FreeBlocks(s) && (forall x: nat :: HasByte(t, i, x) <==> HasByte(s, i, x))
  {
    SetSizeOwns(s, i, size);
    forall b: nat | b < s.sb.size
      ensures Used(SetSize(s, i, size), b) == Used(s, b)
    {
    }
    hide Used, Held, HeldAt, HasByte;
  }

  /** What one writei does to the disk besides the bytes: t holds the blocks of s and one more for each of
      the places got. */
  ghost predicate WroteExactly(s: State, i: nat, off: nat, len: nat, t: State, n: nat, got: set<Slot>)
    requires Own(s) && Own(t)
  {
    && Adds(Held(s), Held(t), got) && |FreeBlocks(s)| == |FreeBlocks(t)| + |got|
    && (n == len ==> got == Need(s, i, off, len))
    && (n < len ==> FreeBlocks(t) == {} && !HasByte(t, i, off + n))
    && t.logged == s.logged + NewLog(s.sb, Held(t), got) + Data(Held(t), i, off, n) + {i / 16 + s.sb.inodestart}
  }

  /** writei, where it does not refuse the range, accepts exactly the bytes that there are free blocks for.
      It takes a block for each empty place they go through; if that is not all of the bytes, it leaves no
      bit clear and no block for the next one.  It gives to log_write exactly the new blocks with their
      bitmap blocks, the indirect block if it has a new entry, the data blocks of the bytes, and the block
      of the inode. */
  lemma WriteiExactly(s: State, i: nat, off: nat, data: seq<byte>, t: State, n: int)
    requires Inv(s) && i in s.inodes && (t, n) == Writei(s, i, off, data) && n != -1
    ensures 0 <= n && Own(t) && Accepts(s, i, off, |data|, n)
    ensures WroteExactly(s, i, off, |data|, t, n, Held(t).Keys - Held(s).Keys)
  {
    hide Mapped, HeldAt, Used, Held, Owns, Span, Accepts, WriteFrom, Took, WroteExactly, SetSize;
    var (u, k) := WriteFrom(s, i, off, data);
    var got := WriteFromTakes(s, i, off, data, u, k);
    WriteFromWrote(s, i, off, data);
    WroteOwn(s, u, i, off, data[..k]);
    SizeSet(s, i, off, |data|, u, k, got, if off + k > s.inodes[i].size then off + k else s.inodes[i].size);
  }

  lemma SizeSet(s: State, i: nat, off: nat, len: nat, u: State, n: nat, got: set<Slot>, size: nat)
    requires i in u.inodes && Took(s, i, off, len, u, n, got)
    ensures var t := SetSize(u, i, size);
      Own(s) && Own(t) && Accepts(s, i, off, len, n) && WroteExactly(s, i, off, len, t, n, Held(t).Keys - Held(s).Keys)
  {
    hide HeldAt, Used, Held, FreeBlocks, Owns, Data, NewLog, Span, Need, Accepts, HasByte, SetSize, Adds, Wf;
    SetSizeFree(u, i, size);
    SetSizeLogs(u, i, size);
    AddedKeys(Held(s), Held(u), got);
    SizeIn(s, i, off, len, u, n, got, SetSize(u, i, size));
  }

  lemma SizeIn(s: State, i: nat, off: nat, len: nat, u: State, n: nat, got: set<Slot>, t: State)
    requires Took(s, i, off, len, u, n, got)
    requires Own(t) && Held(t) == Held(u) && FreeBlocks(t) == FreeBlocks(u) && (HasByte(t, i, off + n) <==> HasByte(u, i, off + n))
    requires t.logged == u.logged + {i / 16 + u.sb.inodestart}
    ensures WroteExactly(s, i, off, len, t, n, got)
  {
    hide HeldAt, Used, Held, FreeBlocks, Owns, Data, NewLog, Span, Need, Accepts, HasByte, Adds, Wf;
  }

  lemma SetSizeLogs(s: State, i: nat, size: nat)
    requires i in s.inodes
    ensures SetSize(s, i, size).logged == s.logged + {i / 16 + s.sb.inodestart} && SetSize(s, i, size).sb == s.sb
  {
  }

  lemma AddedKeys(h: map<Slot, nat>, h': map<Slot, nat>, need: set<Slot>)
    requires Adds(h, h', need)
    ensures h'.Keys - h.Keys == need
  {
  }

  /** Over bytes that have blocks a writei accepts everything, on any disk, and takes no block. */
  lemma WriteiOver(s: State, i: nat, off: nat, data: seq<byte>, t: State, n: int)
    requires Inv(s) && i in s.inodes && (t, n) == Writei(s, i, off, data) && n != -1
    requires HasBytes(s, i, off, |data|)
    ensures n == |data| && Own(t) && Held(t) == Held(s)
  {
    hide Mapped, HeldAt, Used, Held, Owns, Writei, HasBytes, Accepts, WroteExactly;
    WriteiExactly(s, i, off, data, t, n);
    NothingMissing(s, i, off, |data|);
    AllAccepted(s, i, off, |data|, n);
    NoneNew(s, i, off, |data|, t, n);
  }

  lemma AllAccepted(s: State, i: nat, off: nat, len: nat, n: nat)
    requires Wf(s) && Accepts(s, i, off, len, n) && Need(s, i, off, len) == {}
    ensures n == len
  {
    hide Used, Held, HeldAt, Need;
    assert |Need(s, i, off, len)| == 0;
  }

  lemma NoneNew(s: State, i: nat, off: nat, len: nat, t: State, n: nat)
    requires Own(s) && Own(t) && n == len && Need(s, i, off, len) == {}
    requires WroteExactly(s, i, off, len, t, n, Held(t).Keys - Held(s).Keys)
    ensures Held(t) == Held(s)
  {
    hide Used, Held, HeldAt, Need, NewLog, Data;
    assert Held(t).Keys == Held(s).Keys;
  }

  lemma NothingMissing(s: State, i: nat, off: nat, m: nat)
    requires Own(s) && i in s.inodes && HasBytes(s, i, off, m)
    ensures Need(s, i, off, m) == {}
  {
    hide Held, HeldAt, Used, Owns;
    forall bn: nat, sl | bn < MAXFILE && m > 0 && off / BSIZE <= bn <= (off + m - 1) / BSIZE && sl in Places(i, bn)
      ensures sl in Held(s)
    {
      var x := if bn == off / BSIZE then off else bn * BSIZE;
      assert off <= x < off + m && x / BSIZE == bn;
      assert HasByte(s, i, x);
      if bn >= NDIRECT { IndirectOf(s, Slot(i, bn + 1)); }
    }
  }

  // ---- filewrite ----

  /** How far filewrite can come whatever the free blocks: everything, or the whole chunks that end within
      the maximal size of a file. */
  function Limit(off: nat, len: nat): nat {
    if off + len <= MAXBYTES then len else if off > MAXBYTES then 0 else (MAXBYTES - off) / MAXCHUNK * MAXCHUNK
  }

  lemma LimitChunk(off: nat, len: nat)
    requires off <= MAXBYTES && 0 < len
    ensures var n1 := if len > MAXCHUNK then MAXCHUNK else len;
      Limit(off, len) == if off + n1 > MAXBYTES then 0 else n1 + Limit(off + n1, len - n1)
  {
    if off + len > MAXBYTES && len > MAXCHUNK && off + MAXCHUNK <= MAXBYTES {
      assert MAXBYTES - off == (MAXBYTES - off - MAXCHUNK) + MAXCHUNK;
    }
  }

  /** m bytes of len at off are within the limit, and there is a free block for every place they need. */
  ghost predicate FileFits(s: State, i: nat, off: nat, len: nat, m: nat)
    requires Wf(s)
  {
    m <= Limit(off, len) && |Need(s, i, off, m)| <= |FreeBlocks(s)|
  }

  /** Of len bytes at off filewrite writes exactly n: as many as fit. */
  ghost predicate FileAccepts(s: State, i: nat, off: nat, len: nat, n: nat)
    requires Wf(s)
  {
    n <= len && forall m: nat :: m <= len ==> (m <= n <==> FileFits(s, i, off, len, m))
  }

  /** One chunk: refused exactly beyond the maximal size, otherwise the blocks and bytes of writei. */
  lemma ChunkExactly(s: State, i: nat, off: nat, w: seq<byte>, t: State, r: int)
    requires Inv(s) && i in s.inodes && off <= s.inodes[i].size && (t, r) == FsCalls.WriteChunk(s, i, off, w)
    ensures Own(t) && (r == -1 <==> off + |w| > MAXBYTES)
    ensures r != -1 ==> Accepts(s, i, off, |w|, r)
    ensures r == |w| ==> Held(t).Keys == Held(s).Keys + Need(s, i, off, |w|)
    ensures r == |w| ==> |FreeBlocks(s)| == |FreeBlocks(t)| + |Need(s, i, off, |w|)|
  {
    hide Mapped, HeldAt, Used, Held, Owns, Writei, Accepts, Need, NewLog, Data, Content, Overwrite, OnlyFile, Full, FreeBlocks, HasByte;
    BeginOpSame(s);
    BeginOpRoom(s);
    var b := BeginOp(s);
    assert (t, r) == Writei(b, i, off, w);
    WriteiRefines(b, i, off, w, t, r);
    if r != -1 {
      WriteiExactly(b, i, off, w, t, r);
      SameRoom(b, s, i, off, |w|, r);
    } else {
      SizeBound(s, i);
    }
  }

  lemma BeginOpRoom(s: State)
    requires Own(s)
    ensures var t := BeginOp(s); Own(t) && Held(t) == Held(s) && FreeBlocks(t) == FreeBlocks(s)
  {
    var t := BeginOp(s);
    forall sl | sl in AllSlots(s.inodes.Keys)
      ensures HeldAt(t, sl) == HeldAt(s, sl)
    {
    }
    assert Held(t) == Held(s);
    forall b: nat | b < s.sb.size
      ensures Used(t, b) == Used(s, b)
    {
    }
  }

  lemma SameRoom(s: State, t: State, i: nat, off: nat, len: nat, n: nat)
    requires Wf(s) && Wf(t) && Held(t) == Held(s) && FreeBlocks(t) == FreeBlocks(s)
    ensures Need(t, i, off, len) == Need(s, i, off, len)
    ensures Accepts(s, i, off, len, n) ==> Accepts(t, i, off, len, n)
  {
    hide Held, HeldAt, Used, FreeBlocks, Wf, Span;
    forall m: nat
      ensures Need(t, i, off, m) == Need(s, i, off, m)
    {
    }
  }

  lemma InvWf(s: State)
    requires Inv(s)
    ensures Own(s) && Wf(s)
  {
  }

  lemma FileNothing(s: State, i: nat, off: nat)
    requires Wf(s) && off <= MAXBYTES
    ensures FileAccepts(s, i, off, 0, 0)
  {
    hide Used, Held, HeldAt, Need;
    NeedNothing(s, i, off);
  }

  lemma GrownTo(s: State, t: State, i: nat, off: nat, w: seq<byte>)
    requires Inv(s) && i in s.inodes && off <= |Content(s, i)|
    requires OnlyFile(s, t, i, Overwrite(Content(s, i), off, w[..|w|]))
    ensures Inv(t) && i in t.inodes && off + |w| <= t.inodes[i].size <= MAXBYTES
  {
    hide Owns, Mapped, Used, Held, HeldAt;
    SizeBound(t, i);
    assert w[..|w|] == w;
    assert |Content(t, i)| == |Overwrite(Content(s, i), off, w)| >= off + |w|;
  }

  lemma FileMore(s: State, t: State, i: nat, off: nat, n1: nat, len: nat, n: nat)
    requires Wf(s) && Wf(t) && 0 < n1 <= len
    requires Accepts(s, i, off, n1, n1) && FileAccepts(t, i, off + n1, len - n1, n)
    requires Held(t).Keys == Held(s).Keys + Need(s, i, off, n1)
    requires |FreeBlocks(s)| == |FreeBlocks(t)| + |Need(s, i, off, n1)|
    requires Limit(off, len) == n1 + Limit(off + n1, len - n1)
    ensures FileAccepts(s, i, off, len, n1 + n)
  {
    hide Held, HeldAt, Used, Wf, FreeBlocks, Need, Limit;
    forall m: nat | m <= len
      ensures m <= n1 + n <==> FileFits(s, i, off, len, m)
    {
      if m > n1 {
        NeedSplit(s, t, i, off, n1, m);
        assert m - n1 <= n <==> FileFits(t, i, off + n1, len - n1, m - n1);
      } else {
        assert |Need(s, i, off, m)| <= |FreeBlocks(s)|;
      }
    }
  }

  lemma FileRefused(s: State, i: nat, off: nat, len: nat)
    requires Wf(s) && Limit(off, len) == 0
    ensures FileAccepts(s, i, off, len, 0)
  {
    hide Used, Held, HeldAt, Need, Limit;
    NeedNothing(s, i, off);
  }

  lemma FileStops(s: State, i: nat, off: nat, n1: nat, len: nat, n: nat)
    requires Wf(s) && 0 < n1 <= len && n < n1 <= Limit(off, len) && Accepts(s, i, off, n1, n)
    ensures FileAccepts(s, i, off, len, n)
  {
    hide Used, Held, HeldAt, Need, Limit, Wf, FreeBlocks;
    forall m: nat | m <= len
      ensures m <= n <==> FileFits(s, i, off, len, m)
    {
      if m > n1 {
        NeedMore(s, i, off, n1, m);
        assert |Need(s, i, off, n1)| > |FreeBlocks(s)|;
      } else {
        assert m <= n <==> |Need(s, i, off, m)| <= |FreeBlocks(s)|;
      }
    }
  }

  /** filewrite at an offset within the file writes exactly as far as the free blocks and the maximal size
      let it. */
  lemma {:induction false} FileWriteExactly(s: State, i: nat, off: nat, data: seq<byte>)
    requires Inv(s) && i in s.inodes && off <= s.inodes[i].size
    ensures var (t, off', ok) := FsCalls.FileWrite(s, i, off, data);
      off <= off' && FileAccepts(s, i, off, |data|, off' - off)
    decreases |data|
  {
    hide Mapped, HeldAt, Used, Held, Own, Wf, FreeBlocks, FsCalls.WriteChunk, Need, Accepts, FileAccepts, Content, Overwrite, Full, Limit, OnlyFile;
    InvWf(s);
    SizeBound(s, i);
    if data == [] {
      NeedNothing(s, i, off);
      FileNothing(s, i, off);
    } else {
      var n1 := if |data| > MAXCHUNK then MAXCHUNK else |data|;
      var w := data[..n1];
      var (t, r) := FsCalls.WriteChunk(s, i, off, w);
      ChunkExactly(s, i, off, w, t, r);
      FsCalls.WriteChunkWrites(s, i, off, w, t, r);
      LimitChunk(off, |data|);
      if r == n1 {
        GrownTo(s, t, i, off, w);
        InvWf(t);
        FileWriteExactly(t, i, off + n1, data[n1..]);
        var (u, off', ok) := FsCalls.FileWrite(t, i, off + n1, data[n1..]);
        FileMore(s, t, i, off, n1, |data|, off' - off - n1);
      } else if r == -1 {
        FileRefused(s, i, off, |data|);
      } else {
        FileStops(s, i, off, n1, |data|, r);
      }
    }
  }

  /** filewrite reports success if and only if there was nothing to write, or the bytes start within the
      file, end within the maximal size, and there is a free block for every place they need. */
  lemma FileWriteSucceeds(s: State, i: nat, off: nat, data: seq<byte>)
    requires Inv(s) && i in s.inodes
    ensures FsCalls.FileWrite(s, i, off, data).2 <==>
      data == [] || (off <= s.inodes[i].size && off + |data| <= MAXBYTES && |Need(s, i, off, |data|)| <= |FreeBlocks(s)|)
  {
    hide Mapped, HeldAt, Used, Held, Owns, FreeBlocks, FsCalls.FileWrite, Need, Content, Overwrite, Full, OnlyFile, Limit;
    FsCalls.FileWriteWrites(s, i, off, data);
    var (t, off', ok) := FsCalls.FileWrite(s, i, off, data);
    assert ok <==> off' == off + |data|;
    if off <= s.inodes[i].size {
      SizeBound(s, i);
      FileWriteExactly(s, i, off, data);
      LimitBelow(off, |data|);
      assert |data| <= off' - off <==> FileFits(s, i, off, |data|, |data|);
      if data == [] { NeedNothing(s, i, off); }
    }
  }

  lemma LimitBelow(off: nat, len: nat)
    requires off <= MAXBYTES
    ensures len <= Limit(off, len) <==> off + len <= MAXBYTES
  {
  }

  // ---- what itrunc logs ----

  /** The bitmap blocks of the blocks held at these places. */
  function BitmapLog(sb: Super, h: map<Slot, nat>, places: set<Slot>): set<nat> {
    set sl | sl in places && sl in h :: h[sl] / BPB + sb.bmapstart
  }

  lemma BfreeLogs(s: State, b: nat)
    requires Wf(s) && b < s.sb.size && Used(s, b)
    ensures Bfree(s, b).logged == s.logged + {b / BPB + s.sb.bmapstart} && Bfree(s, b).sb == s.sb
  {
  }

  lemma {:induction false} FreeEntriesLogs(s: State, h: map<Slot, nat>, i: nat, a: Block, j: nat)
    requires Owns(s, h) && j <= NINDIRECT && HoldsEntries(h, i, a, j)
    ensures FreeEntries(s, h, i, a, j).logged == s.logged + BitmapLog(s.sb, h, Entries(i, j))
    decreases NINDIRECT - j
  {
    hide Owns, Used, Word, Bfree, BitmapLog, HoldsEntries, Entries, FreeEntries;
    if j < NINDIRECT {
      Fs.FreeEntriesStep(s, h, i, a, j);
      EntriesStep(s.sb, h, i, a, j);
      if Word(a, j) != 0 {
        var u, h' := Bfree(s, Word(a, j)), h - {Slot(i, NDIRECT + 1 + j)};
        BfreeLogs(s, Word(a, j));
        FreeEntriesLogs(u, h', i, a, j + 1);
      } else {
        FreeEntriesLogs(s, h, i, a, j + 1);
      }
    } else {
      Fs.FreeEntriesEnd(s, h, i, a);
      NoEntries(s.sb, h, i);
    }
  }

  lemma NoEntries(sb: Super, h: map<Slot, nat>, i: nat)
    ensures BitmapLog(sb, h, Entries(i, NINDIRECT)) == {}
  {
  }

  lemma EntriesStep(sb: Super, h: map<Slot, nat>, i: nat, a: Block, j: nat)
    requires j < NINDIRECT && HoldsEntries(h, i, a, j)
    ensures if Word(a, j) == 0 then BitmapLog(sb, h, Entries(i, j)) == BitmapLog(sb, h, Entries(i, j + 1))
      else var sl := Slot(i, NDIRECT + 1 + j);
        BitmapLog(sb, h, Entries(i, j)) == {Word(a, j) / BPB + sb.bmapstart} + BitmapLog(sb, h - {sl}, Entries(i, j + 1))
  {
    hide Word;
    var sl := Slot(i, NDIRECT + 1 + j);
    assert Entries(i, j) == {sl} + Entries(i, j + 1);
    assert sl !in Entries(i, j + 1);
    assert sl in h <==> Word(a, j) != 0;
    hide Entries;
  }

  function Direct(i: nat, k: nat): set<Slot> {
    set m: nat | k <= m < NDIRECT :: Slot(i, m)
  }

  lemma {:induction false} FreeDirectLogs(s: State, i: nat, k: nat)
    requires Own(s) && i in s.inodes && k <= NDIRECT
    ensures FreeDirect(s, i, k).logged == s.logged + BitmapLog(s.sb, Held(s), Direct(i, k))
    decreases NDIRECT - k
  {
    hide Owns, Used, Held, HeldAt, Bfree, BitmapLog, Direct, FreeDirect, SetAddr;
    if k < NDIRECT {
      Fs.FreeDirectStep(s, i, k);
      var b := s.inodes[i].addrs[k];
      if b != 0 {
        var u := SetAddr(Bfree(s, b), i, k, 0);
        BfreeLogs(s, b);
        FreedOneDirect(s, i, k);
        FreeDirectLogs(u, i, k + 1);
      } else {
        AddrHeld(s, i, k);
        NotHeld(s, Slot(i, k));
        DirectStep(s.sb, Held(s), i, k);
        FreeDirectLogs(s, i, k + 1);
      }
    } else {
      Fs.FreeDirectEnd(s, i);
      NoDirect(s.sb, Held(s), i);
    }
  }

  lemma NoDirect(sb: Super, h: map<Slot, nat>, i: nat)
    ensures BitmapLog(sb, h, Direct(i, NDIRECT)) == {}
  {
  }

  lemma DirectStep(sb: Super, h: map<Slot, nat>, i: nat, k: nat)
    requires k < NDIRECT
    ensures var sl := Slot(i, k);
      BitmapLog(sb, h, Direct(i, k)) == (if sl in h then {h[sl] / BPB + sb.bmapstart} else {}) + BitmapLog(sb, h - {sl}, Direct(i, k + 1))
    ensures Slot(i, k) !in h ==> h - {Slot(i, k)} == h
  {
    var sl := Slot(i, k);
    assert Direct(i, k) == {sl} + Direct(i, k + 1);
    assert sl !in Direct(i, k + 1);
    hide Direct;
  }

  lemma FreedOneDirect(s: State, i: nat, k: nat)
    requires Own(s) && i in s.inodes && k < NDIRECT && s.inodes[i].addrs[k] != 0
    requires s.inodes[i].addrs[k] < s.sb.size && Used(s, s.inodes[i].addrs[k])
    requires var m := Bfree(s, s.inodes[i].addrs[k]); i in m.inodes && |m.inodes[i].addrs| == NDIRECT + 1
    ensures var b := s.inodes[i].addrs[k];
      var u := SetAddr(Bfree(s, b), i, k, 0);
      && Wf(u) && u.sb == s.sb && u.logged == Bfree(s, b).logged && Held(u) == Held(s) - {Slot(i, k)}
      && BitmapLog(s.sb, Held(s), Direct(i, k)) == {b / BPB + s.sb.bmapstart} + BitmapLog(s.sb, Held(u), Direct(i, k + 1))
  {
    hide Used, Held, HeldAt, Bfree, BitmapLog, Direct;
    var b, sl := s.inodes[i].addrs[k], Slot(i, k);
    AddrHeld(s, i, k);
    NotHeld(s, sl);
    BfreeReleases(s, Held(s), sl);
    var m := Bfree(s, b);
    IndirectSame(s, m);
    HeldFrame(s, m);
    SetAddrOwns(m, Held(s) - {sl}, i, k, 0);
    ClearAddr(m, SetAddr(m, i, k, 0), i, k);
    DirectStep(s.sb, Held(s), i, k);
  }

  lemma FreeIndirectLogs(s: State, i: nat)
    requires Own(s) && i in s.inodes && s.inodes[i].addrs[NDIRECT] != 0
    requires forall m :: 0 <= m < NDIRECT ==> s.inodes[i].addrs[m] == 0
    ensures FreeIndirect(s, i).logged == s.logged + BitmapLog(s.sb, Held(s), Entries(i, 0) + {Slot(i, NDIRECT)})
  {
    hide Owns, Used, Held, HeldAt, FreeEntries, FreeIndirect, Word, Bfree, BitmapLog, Entries;
    Fs.FreeIndirectSteps(s, i);
    var ind := s.inodes[i].addrs[NDIRECT];
    var u := FreeEntries(s, Held(s), i, s.blocks[ind], 0);
    FreeEntriesLogs(s, Held(s), i, s.blocks[ind], 0);
    BfreeLogs(u, ind);
    AddrHeld(s, i, NDIRECT);
    NotHeld(s, Slot(i, NDIRECT));
    LogOfBoth(s.sb, Held(s), Entries(i, 0), {Slot(i, NDIRECT)});
    LogOfOne(s.sb, Held(s), Slot(i, NDIRECT));
  }

  lemma LogOfOne(sb: Super, h: map<Slot, nat>, sl: Slot)
    requires sl in h
    ensures BitmapLog(sb, h, {sl}) == {h[sl] / BPB + sb.bmapstart}
  {
  }

  lemma LogOfBoth(sb: Super, h: map<Slot, nat>, a: set<Slot>, b: set<Slot>)
    ensures BitmapLog(sb, h, a + b) == BitmapLog(sb, h, a) + BitmapLog(sb, h, b)
  {
  }

  /** After the direct blocks, the inode holds what it held behind addrs[NDIRECT]. */
  lemma RestHeld(s: State, i: nat, sl: Slot)
    requires Own(s) && i in s.inodes && sl.inum == i && sl.k < NSLOTS
    ensures var t := FreeDirect(s, i, 0);
      && (sl in Held(t) <==> sl in Held(s) && sl.k >= NDIRECT)
      && (sl in Held(t) ==> Held(t)[sl] == Held(s)[sl])
  {
    hide Owns, Used, Held, FreeDirect, Word;
    var t := FreeDirect(s, i, 0);
    NotHeld(s, sl);
    NotHeld(t, sl);
    if s.inodes[i].addrs[NDIRECT] != 0 { IndirectHeld(s, Held(s), i); }
  }

  lemma DirectGone(s: State, t: State, i: nat)
    requires Own(s) && i in s.inodes && t == FreeDirect(s, i, 0)
    ensures Own(t) && i in t.inodes && t.sb == s.sb
    ensures BitmapLog(s.sb, Held(s), AllSlots({i}))
         == BitmapLog(s.sb, Held(s), Direct(i, 0)) + BitmapLog(s.sb, Held(t), Entries(i, 0) + {Slot(i, NDIRECT)})
  {
    hide Owns, Used, Held, HeldAt, FreeDirect, Entries, Direct, BitmapLog;
    var rest := Entries(i, 0) + {Slot(i, NDIRECT)};
    SlotsOf(i);
    forall sl | sl in rest
      ensures sl in Held(t) <==> sl in Held(s)
      ensures sl in Held(t) ==> Held(t)[sl] == Held(s)[sl]
    {
      RestHeld(s, i, sl);
    }
    LogAgrees(s.sb, Held(s), Held(t), rest);
    LogOfBoth(s.sb, Held(s), Direct(i, 0), rest);
  }

  lemma LogAgrees(sb: Super, h: map<Slot, nat>, h': map<Slot, nat>, places: set<Slot>)
    requires forall sl :: sl in places ==> (sl in h' <==> sl in h) && (sl in h ==> h'[sl] == h[sl])
    ensures BitmapLog(sb, h', places) == BitmapLog(sb, h, places)
  {
  }

  lemma SlotsOf(i: nat)
    ensures AllSlots({i}) == Direct(i, 0) + (Entries(i, 0) + {Slot(i, NDIRECT)})
    ensures forall sl :: sl in Entries(i, 0) + {Slot(i, NDIRECT)} ==> sl.inum == i && NDIRECT <= sl.k < NSLOTS
  {
  }

  lemma NoneOf(sb: Super, h: map<Slot, nat>, i: nat)
    requires forall sl :: sl in h ==> sl.inum != i
    ensures BitmapLog(sb, h, Entries(i, 0) + {Slot(i, NDIRECT)}) == {}
  {
  }

  /** itrunc gives to log_write exactly the bitmap blocks of the blocks that the inode held, and the block
      of the inode. */
  lemma ItruncLogs(s: State, i: nat)
    requires Own(s) && i in s.inodes
    ensures Itrunc(s, i).logged == s.logged + BitmapLog(s.sb, Held(s), AllSlots({i})) + {i / 16 + s.sb.inodestart}
  {
    hide Owns, Used, Held, HeldAt, FreeDirect, FreeIndirect, BitmapLog;
    Fs.TruncStep(s, i);
    var t := FreeDirect(s, i, 0);
    FreeDirectLogs(s, i, 0);
    DirectGone(s, t, i);
    if t.inodes[i].addrs[NDIRECT] != 0 {
      FreeIndirectLogs(t, i);
    } else {
      NothingHeld(t, i);
      NoneOf(t.sb, Held(t), i);
    }
  }
}
