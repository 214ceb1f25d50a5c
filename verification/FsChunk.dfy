/** How many blocks one writei gives to log_write, and filewrite's loop over chunks that are
    small enough for a transaction (file.c). */
module FsChunk {
  import opened FsLayout
  import opened FsSpace
  import opened FsFile
  import opened Sets

  const MAXOPBLOCKS: nat := 10

  /** filewrite's limit for one transaction. */
  const MAXCHUNK: nat := (MAXOPBLOCKS - 1 - 1 - 2) / 2 * BSIZE

  /** The indirect block of inode i and its bitmap block. */
  function IndirectLog(s: State, i: nat): set<nat>
    requires Wf(s) && i in s.inodes
  {
    var ind := s.inodes[i].addrs[NDIRECT];
    if ind == 0 then {} else {ind, BBlock(s.sb, ind)}
  }

  /** Blocks logged for file block bn at b: the block, and its bitmap block when it is new. */
  function DataLog(s: State, i: nat, bn: nat, b: nat): set<nat>
    requires Wf(s) && b < s.sb.size
  {
    if Slot(i, FileSlot(bn)) in Held(s) then {b} else {b, BBlock(s.sb, b)}
  }

  lemma AllocLogs(s: State, i: nat, k: nat, t: State, b: nat)
    requires Own(s) && i in s.inodes && k < NSLOTS && HeldAt(s, Slot(i, k)) == 0
    requires k > NDIRECT ==> s.inodes[i].addrs[NDIRECT] != 0
    requires (t, b) == AllocTo(s, i, k) && b != 0
    ensures i in t.inodes && t.sb == s.sb && b < s.sb.size
    ensures t.logged <= s.logged + {b, BBlock(s.sb, b)} + (if k > NDIRECT then IndirectLog(s, i) else {})
    ensures t.inodes[i].addrs == if k <= NDIRECT then s.inodes[i].addrs[k := b] else s.inodes[i].addrs
  {
  }

  lemma GetOrAllocLogs(s: State, i: nat, k: nat, t: State, b: nat)
    requires Own(s) && i in s.inodes && k < NSLOTS
    requires k > NDIRECT ==> s.inodes[i].addrs[NDIRECT] != 0
    requires (t, b) == GetOrAlloc(s, i, k)
    ensures Own(t) && i in t.inodes && t.sb == s.sb && b < s.sb.size
    ensures HeldAt(s, Slot(i, k)) != 0 || b == 0 ==> t.logged == s.logged
    ensures t.logged <= s.logged + {b, BBlock(s.sb, b)} + (if k > NDIRECT then IndirectLog(s, i) else {})
    ensures t.inodes[i].addrs == s.inodes[i].addrs || (k <= NDIRECT && t.inodes[i].addrs == s.inodes[i].addrs[k := b])
  {
    hide Used, HeldAt, Held, Owns, AllocTo;
    GetOrAllocGrows(s, i, k, t, b);
    if HeldAt(s, Slot(i, k)) == 0 {
      if b != 0 { AllocLogs(s, i, k, t, b); } else { SomeBlock(s); }
    } else {
      NotHeld(s, Slot(i, k));
      HeldBelow(s, Slot(i, k));
    }
  }

  lemma SomeBlock(s: State)
    requires Own(s)
    ensures 0 < s.sb.size
  {
  }

  lemma HeldBelow(s: State, sl: Slot)
    requires Own(s) && sl in Held(s)
    ensures Held(s)[sl] < s.sb.size
  {
  }

  /** What one bmap logs. */
  lemma BmapLogs(s: State, i: nat, bn: nat, t: State, b: nat)
    requires Own(s) && i in s.inodes && bn < MAXFILE && (t, b) == Bmap(s, i, bn)
    ensures Own(t) && i in t.inodes && t.sb == s.sb && b < s.sb.size
    ensures t.logged <= s.logged + IndirectLog(t, i) + (if b == 0 then {} else DataLog(s, i, bn, b))
    ensures IndirectLog(s, i) <= IndirectLog(t, i)
  {
    hide Used, HeldAt, Held, Owns, GetOrAlloc;
    BmapGrows(s, i, bn, t, b);
    if Slot(i, FileSlot(bn)) in Held(s) {
      HeldBelow(s, Slot(i, FileSlot(bn)));
    } else if bn < NDIRECT {
      GetOrAllocLogs(s, i, bn, t, b);
    } else {
      var (m, ind) := GetOrAlloc(s, i, NDIRECT);
      GetOrAllocLogs(s, i, NDIRECT, m, ind);
      GetOrAllocGrows(s, i, NDIRECT, m, ind);
      AddrHeld(s, i, NDIRECT);
      AddrHeld(m, i, NDIRECT);
      if ind != 0 {
        GetOrAllocLogs(m, i, bn + 1, t, b);
      }
    }
  }

  /** The number of blocks that bytes off .. off+len-1 touch. */
  function Blocks(off: nat, len: nat): nat {
    if len == 0 then 0 else (off + len - 1) / BSIZE - off / BSIZE + 1
  }

  lemma BlocksSplit(off: nat, len: nat)
    requires len > 0
    ensures var m := Chunk(off, len);
      && Blocks(off, len) == 1 + Blocks(off + m, len - m)
      && (m < len ==> (off + m) / BSIZE == off / BSIZE + 1)
  {
  }

  /** What one iteration of writei's loop logs: the data block d, its bitmap block when the block
      is new, and possibly the indirect block and its bitmap block. */
  lemma WriteOneLogs(s: State, i: nat, off: nat, w: seq<byte>, t: State, ok: bool) returns (d: nat)
    requires Own(s) && i in s.inodes && off < MAXBYTES && off % BSIZE + |w| <= BSIZE
    requires (t, ok) == WriteOne(s, i, off, w)
    ensures Own(t) && i in t.inodes && t.sb == s.sb && d < s.sb.size
    ensures t.logged <= s.logged + IndirectLog(t, i) + (if ok then DataLog(s, i, off / BSIZE, d) else {})
    ensures IndirectLog(s, i) <= IndirectLog(t, i)
  {
    hide Used, HeldAt, Held, Owns, Bmap, Wrote;
    var (m, b) := Bmap(s, i, off / BSIZE);
    BmapLogs(s, i, off / BSIZE, m, b);
    WroteOwn(s, t, i, off, if ok then w else []);
    d := b;
    if ok {
      BmapGrows(s, i, off / BSIZE, m, b);
      PutWrote(m, i, off, b, w);
    }
  }

  ghost predicate BitmapBlocks(sb: Super, m: set<nat>)
    requires Geometry(sb)
  {
    forall x :: x in m ==> x < sb.nmeta && exists b: nat :: b < sb.size && BBlock(sb, b) == x
  }

  lemma Add<T>(a: set<T>, x: T)
    ensures |a + {x}| <= |a| + 1
  {
  }

  /** What writei's loop logs: data blocks d, bitmap blocks m for the new ones, and possibly the
      indirect block and its bitmap block.  A first block that exists needs no bitmap block. */
  lemma {:induction false} WriteFromLogs(s: State, i: nat, off: nat, data: seq<byte>, t: State, n: nat)
    returns (d: set<nat>, m: set<nat>)
    requires Own(s) && i in s.inodes && off + |data| <= MAXBYTES && (t, n) == WriteFrom(s, i, off, data)
    ensures Own(t) && i in t.inodes && t.sb == s.sb
    ensures t.logged <= s.logged + IndirectLog(t, i) + d + m
    ensures IndirectLog(s, i) <= IndirectLog(t, i)
    ensures |d| <= Blocks(off, |data|) && BitmapBlocks(s.sb, m)
    ensures |m| <= Blocks(off, |data|) - (if data != [] && Slot(i, FileSlot(off / BSIZE)) in Held(s) then 1 else 0)
    decreases |data|
  {
    hide Used, HeldAt, Held, Owns, WriteOne, Wrote, IndirectLog, BBlock, Chunk, Blocks;
    d, m := {}, {};
    if data != [] {
      var c := Chunk(off, |data|);
      var (u, ok) := WriteOne(s, i, off, data[..c]);
      var b := WriteOneLogs(s, i, off, data[..c], u, ok);
      BlocksSplit(off, |data|);
      if ok {
        d, m := WriteFromLogs(u, i, off + c, data[c..], t, n - c);
        var bb := BBlock(s.sb, b);
        Add(d, b);
        d := d + {b};
        if Slot(i, FileSlot(off / BSIZE)) !in Held(s) {
          Add(m, bb);
          m := m + {bb};
        }
      }
    }
  }

  /** begin_op: nothing logged yet. */
  function BeginOp(s: State): State { State(s.sb, s.blocks, s.inodes, {}) }

  lemma BeginOpSame(s: State)
    requires Inv(s)
    ensures Inv(BeginOp(s)) && (Full(s) <==> Full(BeginOp(s)))
    ensures forall i :: i in s.inodes ==> Content(BeginOp(s), i) == Content(s, i)
  {
    var t := BeginOp(s);
    forall c | 0 <= c < s.sb.size
      ensures Wf(t) && Used(t, c) == Used(s, c)
    {
    }
    hide Used;
    forall i, k: nat | i in s.inodes && k < NSLOTS
      ensures HeldAt(t, Slot(i, k)) == HeldAt(s, Slot(i, k))
    {
    }
    hide HeldAt;
    assert Held(t) == Held(s);
  }

  /** Only three blocks fit a chunk unless it starts inside a block, which then exists: its
      first byte or the byte before off is below size. */
  lemma ChunkBlocks(s: State, i: nat, off: nat, len: nat)
    requires Inv(s) && i in s.inodes && off <= s.inodes[i].size && off < MAXBYTES && 0 < len <= MAXCHUNK
    ensures Blocks(off, len) <= 4
    ensures Blocks(off, len) == 4 ==> Slot(i, FileSlot(off / BSIZE)) in Held(s)
  {
    if Blocks(off, len) == 4 {
      assert off % BSIZE != 0;
      BelowSize(s, i, off - 1);
      assert (off - 1) / BSIZE == off / BSIZE;
    }
  }

  /** The set of blocks that a writei of one chunk logs. */
  ghost predicate ChunkLog(sb: Super, logged: set<nat>, ind: nat, iblock: nat, d: set<nat>, m: set<nat>)
    requires Geometry(sb)
  {
    && ind < sb.size && BitmapBlocks(sb, m) && |d| <= 4 && |m| <= 3
    && logged <= (if ind == 0 then {} else {ind, BBlock(sb, ind)}) + d + m + {iblock}
  }

  lemma UnionSize<T>(a: set<T>, b: set<T>)
    ensures |a + b| <= |a| + |b|
  {
  }

  lemma ChunkLogSize(sb: Super, logged: set<nat>, ind: nat, iblock: nat, d: set<nat>, m: set<nat>)
    requires Geometry(sb) && ChunkLog(sb, logged, ind, iblock, d, m)
    ensures |logged| <= 10
  {
    hide BitmapBlocks;
    var x := {ind, BBlock(sb, ind)};
    Add({ind}, BBlock(sb, ind));
    assert |x| <= 2 by { assert x == {ind} + {BBlock(sb, ind)}; }
    UnionSize(x, d);
    UnionSize(x + d, m);
    Add(x + d + m, iblock);
    SubsetSize(logged, x + d + m + {iblock});
  }

  lemma ChunkLogSizeOne(sb: Super, logged: set<nat>, ind: nat, iblock: nat, d: set<nat>, m: set<nat>)
    requires Geometry(sb) && ChunkLog(sb, logged, ind, iblock, d, m) && sb.size <= BPB
    ensures |logged| <= 7
  {
    var bm := sb.bmapstart;
    forall x | x in m
      ensures x == bm
    {
    }
    Add(d, ind);
    Add(d + {ind}, bm);
    Add(d + {ind} + {bm}, iblock);
    SubsetSize(logged, d + {ind} + {bm} + {iblock});
  }

  lemma WriteiLogs(s: State, i: nat, off: nat, data: seq<byte>, t: State, n: int) returns (d: set<nat>, m: set<nat>, ind: nat)
    requires Inv(s) && i in s.inodes && s.logged == {} && |data| <= MAXCHUNK && (t, n) == Writei(s, i, off, data)
    ensures ChunkLog(s.sb, t.logged, ind, IBlock(s.sb, i), d, m)
  {
    hide Used, HeldAt, Held, Owns, WriteFrom, Wrote, Blocks, Mapped;
    d, m, ind := {}, {}, 0;
    if n != -1 {
      var (u, k) := WriteFrom(s, i, off, data);
      d, m := WriteFromLogs(s, i, off, data, u, k);
      ind := u.inodes[i].addrs[NDIRECT];
      if data != [] {
        ChunkBlocks(s, i, off, |data|);
      } else {
        NoBlocks(off);
      }
    } else {
      SomeBlock(s);
    }
  }

  lemma NoBlocks(off: nat)
    ensures Blocks(off, 0) == 0
  {
  }

  /** Every chunk of filewrite fits a transaction: it logs at most MAXOPBLOCKS blocks however the
      bitmap is laid out, and at most 7 when one bitmap block covers the disk. */
  lemma ChunkFitsTransaction(s: State, i: nat, off: nat, data: seq<byte>)
    requires Inv(s) && i in s.inodes && s.logged == {} && |data| <= MAXCHUNK
    ensures |Writei(s, i, off, data).0.logged| <= MAXOPBLOCKS
    ensures s.sb.size <= BPB ==> |Writei(s, i, off, data).0.logged| <= 7
  {
    hide Owns, Mapped, Held, HeldAt, Used, Writei, ChunkLog;
    var (t, n) := Writei(s, i, off, data);
    var d, m, ind := WriteiLogs(s, i, off, data, t, n);
    ChunkLogSize(s.sb, t.logged, ind, IBlock(s.sb, i), d, m);
    if s.sb.size <= BPB {
      ChunkLogSizeOne(s.sb, t.logged, ind, IBlock(s.sb, i), d, m);
    }
  }
}
