/** fs.c as it runs: the blocks are an array written in place, the in-core inodes a field, and
    the loops over bits, words and blocks are loops.  Every method is proved to compute the
    functions of modules FsSpace, FsFile, FsChunk and FsCalls. */
module Fs {
  import opened FsLayout
  import opened FsSpace
  import opened FsFile
  import opened FsChunk
  import opened FsCalls

  predicate Aligned(b: nat) { b % BPB == 0 }

  lemma FirstAligned()
    ensures Aligned(0)
  {
  }

  lemma NextAligned(b: nat)
    requires Aligned(b)
    ensures Aligned(b + BPB)
  {
  }

  function EmptyInode(): Inode {
    Inode([0, 0, 0, 0, 0, 0, 0, 0, 0, 0, 0, 0, 0], 0)
  }

  /** Exactly the bits below b are set. */
  ghost predicate Marked(s: State, b: nat)
    requires Wf(s)
  {
    forall c :: 0 <= c < s.sb.size ==> (Used(s, c) <==> c < b)
  }

  lemma {:induction false} ZeroBits(k: nat)
    ensures !ByteBit(0, k)
    decreases k
  {
    if k > 0 {
      ZeroBits(k - 1);
    }
  }

  lemma NoBits(s: State)
    requires Wf(s) && forall b :: 0 <= b < |s.blocks| ==> s.blocks[b] == Zero()
    ensures Marked(s, 0)
  {
    forall c | 0 <= c < s.sb.size
      ensures !Used(s, c)
    {
      ZeroBits(c % BPB % 8);
    }
  }

  lemma MarkNext(s: State, b: nat)
    requires Wf(s) && Marked(s, b) && b < s.sb.size
    ensures Wf(Mark(s, b, true)) && Marked(Mark(s, b, true), b + 1)
  {
    forall c | 0 <= c < s.sb.size
      ensures Wf(Mark(s, b, true)) && (Used(Mark(s, b, true), c) <==> c < b + 1)
    {
      MarkUsed(s, b, true, c);
    }
    hide Used;
    assert Wf(Mark(s, b, true)) by { MarkUsed(s, b, true, b); }
  }

  lemma FormattedInv(s: State)
    requires Wf(s) && Marked(s, s.sb.nmeta) && forall i :: i in s.inodes ==> s.inodes[i] == EmptyInode()
    ensures Inv(s)
  {
    forall sl | sl in AllSlots(s.inodes.Keys)
      ensures HeldAt(s, sl) == 0
    {
    }
    assert Held(s) == map[];
  }

  class Fs {
    const sb: Super
    const blocks: array<Block>
    var inodes: map<nat, Inode>
    ghost var logged: set<nat>

    ghost function Abstract(): State
      reads this, blocks
    {
      State(sb, blocks[..], inodes, logged)
    }

    /** A newly formatted disk: empty inodes, and the bits of the blocks before nmeta set. */
    constructor (sb: Super, inums: set<nat>)
      requires Geometry(sb)
      ensures this.sb == sb && Inv(Abstract()) && fresh(blocks)
      ensures inodes.Keys == inums
    {
      this.sb := sb;
      blocks := new Block[sb.size](_ => Zero());
      inodes := map i | i in inums :: EmptyInode();
      logged := {};
      new;
      var b := 0;
      NoBits(Abstract());
      while b < sb.nmeta
        invariant 0 <= b <= sb.nmeta && Wf(Abstract()) && Marked(Abstract(), b)
        invariant this.sb == sb && inodes == map i | i in inums :: EmptyInode()
      {
        hide Used;
        MarkNext(Abstract(), b);
        SetBit(b, true);
        b := b + 1;
      }
      FormattedInv(Abstract());
    }

    /** log_write of a changed buffer. */
    method LogWrite(b: nat, data: Block)
      requires b < blocks.Length
      modifies this`logged, blocks
      ensures Abstract() == Put(old(Abstract()), b, data)
    {
      blocks[b] := data;
      logged := logged + {b};
    }

    method SetBit(b: nat, on: bool)
      requires Wf(Abstract()) && b < sb.size
      modifies this`logged, blocks
      ensures Abstract() == Mark(old(Abstract()), b, on)
    {
      var bb := BBlock(sb, b);
      blocks[bb] := WithBit(blocks[bb], b % BPB, on);
      logged := logged + {bb};
    }

    /** The inner loop of balloc: the first clear bit of the bitmap block for block b. */
    method ScanBlock(b: nat) returns (bi: nat)
      requires Wf(Abstract()) && b < sb.size && Aligned(b)
      ensures bi <= BPB && b + bi <= sb.size
      ensures FirstFree(Abstract(), b) == FirstFree(Abstract(), b + bi)
      ensures bi < BPB && b + bi < sb.size ==> !Used(Abstract(), b + bi)
    {
      hide Bit, FirstFree, BBlock, Aligned;
      var bp := blocks[BBlock(sb, b)];
      bi := 0;
      while bi < BPB && b + bi < sb.size
        invariant bi <= BPB && b + bi <= sb.size
        invariant FirstFree(Abstract(), b) == FirstFree(Abstract(), b + bi)
      {
        SameBitmapBlock(sb, b, bi);
        FirstFreeStep(Abstract(), b + bi);
        if !Bit(bp, bi) {
          return;
        }
        bi := bi + 1;
      }
    }

    /** The outer loop of balloc, over the bitmap blocks. */
    method FindFree() returns (r: nat)
      requires Wf(Abstract()) && Used(Abstract(), 0)
      ensures r == FirstFree(Abstract(), 0)
    {
      hide Bit, FirstFree, BBlock, Aligned;
      var b: nat := 0;
      FirstAligned();
      while b < sb.size
        invariant Aligned(b)
        invariant FirstFree(Abstract(), 0) == if b < sb.size then FirstFree(Abstract(), b) else 0
      {
        var bi := ScanBlock(b);
        if bi < BPB && b + bi < sb.size {
          FirstFreeStep(Abstract(), b + bi);
          return b + bi;
        }
        FirstFreeEnd(Abstract());
        NextAligned(b);
        b := b + BPB;
      }
      r := 0;
    }

    /** balloc: the first clear bit is set and its block zeroed. */
    method Balloc() returns (r: nat)
      requires Wf(Abstract()) && Used(Abstract(), 0)
      modifies this`logged, blocks
      ensures (Abstract(), r) == FsSpace.Balloc(old(Abstract()))
    {
      hide Bit, FirstFree, BBlock, Mark;
      r := FindFree();
      if r != 0 {
        SetBit(r, true);
        MarkSizes(old(Abstract()), r);
        LogWrite(r, Zero());
      }
    }

    /** bfree. */
    method Bfree(b: nat)
      requires Wf(Abstract()) && b < sb.size && Used(Abstract(), b)
      modifies this`logged, blocks
      ensures Abstract() == FsSpace.Bfree(old(Abstract()), b)
    {
      SetBit(b, false);
    }

    method StoreAddr(i: nat, k: nat, b: nat)
      requires i in inodes && k < |inodes[i].addrs|
      modifies this`inodes
      ensures Abstract() == SetAddr(old(Abstract()), i, k, b)
    {
      inodes := inodes[i := Inode(inodes[i].addrs[k := b], inodes[i].size)];
    }

    /** The balloc calls of bmap, for the empty place (i, k). */
    method AllocTo(i: nat, k: nat) returns (b: nat)
      requires Own(Abstract()) && i in inodes && k < NSLOTS
      requires k > NDIRECT ==> inodes[i].addrs[NDIRECT] != 0
      modifies this`logged, this`inodes, blocks
      ensures (Abstract(), b) == FsSpace.AllocTo(old(Abstract()), i, k)
    {
      hide Owns, Held, HeldAt, Used, FsSpace.Balloc, WithWord;
      BootUsed(Abstract());
      b := Balloc();
      BallocFits(old(Abstract()), Abstract(), b);
      if b != 0 {
        if k <= NDIRECT {
          StoreAddr(i, k, b);
        } else {
          var ind := inodes[i].addrs[NDIRECT];
          LogWrite(ind, WithWord(blocks[ind], k - NDIRECT - 1, b));
        }
      }
    }

    method GetOrAlloc(i: nat, k: nat) returns (b: nat)
      requires Own(Abstract()) && i in inodes && k < NSLOTS
      requires k > NDIRECT ==> inodes[i].addrs[NDIRECT] != 0
      modifies this`logged, this`inodes, blocks
      ensures (Abstract(), b) == FsSpace.GetOrAlloc(old(Abstract()), i, k)
    {
      hide Owns, Held, Used, FsSpace.AllocTo, Word;
      b := if k <= NDIRECT then inodes[i].addrs[k] else Word(blocks[inodes[i].addrs[NDIRECT]], k - NDIRECT - 1);
      if b == 0 {
        b := AllocTo(i, k);
      }
    }

    /** bmap. */
    method Bmap(i: nat, bn: nat) returns (b: nat)
      requires Own(Abstract()) && i in inodes && bn < MAXFILE
      modifies this`logged, this`inodes, blocks
      ensures (Abstract(), b) == FsSpace.Bmap(old(Abstract()), i, bn)
      ensures Own(Abstract()) && inodes.Keys == old(inodes.Keys)
    {
      hide Owns, Held, HeldAt, Used, FsSpace.GetOrAlloc;
      if bn < NDIRECT {
        b := GetOrAlloc(i, bn);
      } else {
        var ind := GetOrAlloc(i, NDIRECT);
        GetOrAllocGrows(old(Abstract()), i, NDIRECT, Abstract(), ind);
        IndirectSet(Abstract(), i, ind);
        if ind == 0 {
          b := 0;
        } else {
          b := GetOrAlloc(i, bn + 1);
        }
      }
      BmapGrows(old(Abstract()), i, bn, Abstract(), b);
    }

    /** iupdate with the new size. */
    method SetFileSize(i: nat, size: nat)
      requires i in inodes
      modifies this`logged, this`inodes
      ensures Abstract() == SetSize(old(Abstract()), i, size)
    {
      inodes := inodes[i := Inode(inodes[i].addrs, size)];
      logged := logged + {IBlock(sb, i)};
    }

    /** One iteration of writei's loop. */
    method WriteOne(i: nat, off: nat, w: seq<byte>) returns (ok: bool)
      requires Own(Abstract()) && i in inodes && off < MAXBYTES && off % BSIZE + |w| <= BSIZE
      modifies this`logged, this`inodes, blocks
      ensures (Abstract(), ok) == FsFile.WriteOne(old(Abstract()), i, off, w)
    {
      hide Owns, Held, HeldAt, Used, FsSpace.Bmap, Splice, FsFile.Wrote;
      var b := Bmap(i, off / BSIZE);
      BmapGrows(old(Abstract()), i, off / BSIZE, Abstract(), b);
      if b == 0 {
        return false;
      }
      InData(Abstract(), i, off, b);
      LogWrite(b, Splice(blocks[b], off % BSIZE, w));
      ok := true;
    }

    method WriteLoop(i: nat, off: nat, data: seq<byte>) returns (tot: nat)
      requires Own(Abstract()) && i in inodes && off + |data| <= MAXBYTES
      modifies this`logged, this`inodes, blocks
      ensures (Abstract(), tot) == WriteFrom(old(Abstract()), i, off, data)
      ensures tot <= |data| && inodes.Keys == old(inodes.Keys)
    {
      hide Owns, Held, HeldAt, Used, FsFile.WriteOne, FsFile.Wrote, Chunk, WriteFrom;
      WriteFromStart(Abstract(), i, off, data);
      tot := 0;
      while tot < |data|
        invariant 0 <= tot <= |data| && Own(Abstract()) && inodes.Keys == old(inodes.Keys)
        invariant WroteSoFar(Abstract(), i, off, data, tot, WriteFrom(old(Abstract()), i, off, data))
      {
        var m := Chunk(off + tot, |data| - tot);
        WriteFromStep(Abstract(), i, off, data, tot, m, WriteFrom(old(Abstract()), i, off, data));
        var ok := WriteOne(i, off + tot, data[tot..][..m]);
        if !ok {
          return;
        }
        tot := tot + m;
      }
      WriteFromEnd(Abstract(), i, off, data, WriteFrom(old(Abstract()), i, off, data));
    }

    /** writei. */
    method Writei(i: nat, off: nat, data: seq<byte>) returns (r: int)
      requires Own(Abstract()) && i in inodes
      modifies this`logged, this`inodes, blocks
      ensures (Abstract(), r) == FsFile.Writei(old(Abstract()), i, off, data)
    {
      hide Owns, Held, HeldAt, Used, WriteFrom;
      var size := inodes[i].size;
      if off > size || off + |data| >= UINT {
        return -1;
      }
      if off + |data| > MAXBYTES {
        return -1;
      }
      var tot := WriteLoop(i, off, data);
      SizeKept(old(Abstract()), i, off, data);
      SetFileSize(i, if off + tot > size then off + tot else size);
      r := tot;
    }

    method ReadLoop(i: nat, off: nat, n: nat) returns (bs: seq<byte>)
      requires Own(Abstract()) && i in inodes && off + n <= MAXBYTES
      modifies this`logged, this`inodes, blocks
      ensures (Abstract(), bs) == ReadFrom(old(Abstract()), i, off, n)
    {
      hide Owns, Held, HeldAt, Used, FsSpace.Bmap, Chunk, ReadFrom;
      bs := [];
      var tot := 0;
      ReadFromStart(Abstract(), i, off, n);
      while tot < n
        invariant 0 <= tot <= n && Own(Abstract()) && inodes.Keys == old(inodes.Keys)
        invariant ReadSoFar(Abstract(), i, off, n, tot, bs, ReadFrom(old(Abstract()), i, off, n))
      {
        ReadFromStep(Abstract(), i, off, n, tot, bs, ReadFrom(old(Abstract()), i, off, n));
        var b := Bmap(i, (off + tot) / BSIZE);
        if b == 0 {
          return;
        }
        var m := Chunk(off + tot, n - tot);
        bs := bs + blocks[b][(off + tot) % BSIZE..(off + tot) % BSIZE + m];
        tot := tot + m;
      }
      ReadFromEnd(Abstract(), i, off, n, bs, ReadFrom(old(Abstract()), i, off, n));
    }

    /** readi. */
    method Readi(i: nat, off: nat, n: nat) returns (bs: seq<byte>)
      requires Inv(Abstract()) && i in inodes
      modifies this`logged, this`inodes, blocks
      ensures (Abstract(), bs) == FsFile.Readi(old(Abstract()), i, off, n)
      ensures Abstract() == old(Abstract()) && bs == Slice(Content(Abstract(), i), off, n)
    {
      hide Owns, Mapped, Held, HeldAt, Used, ReadFrom, Content, Slice;
      ReadiReads(Abstract(), i, off, n);
      SizeBound(Abstract(), i);
      var size := inodes[i].size;
      if off > size || off + n >= UINT {
        return [];
      }
      bs := ReadLoop(i, off, if off + n > size then size - off else n);
    }

    method TruncDirect(i: nat)
      requires Own(Abstract()) && i in inodes
      modifies this`logged, this`inodes, blocks
      ensures Abstract() == FreeDirect(old(Abstract()), i, 0)
    {
      hide Owns, Held, HeldAt, Used, FsSpace.Bfree, FreeDirect, SetAddr;
      var k := 0;
      while k < NDIRECT
        invariant k <= NDIRECT && Own(Abstract()) && i in inodes
        invariant FreeDirect(Abstract(), i, k) == FreeDirect(old(Abstract()), i, 0)
      {
        FreeDirectStep(Abstract(), i, k);
        if inodes[i].addrs[k] != 0 {
          Bfree(inodes[i].addrs[k]);
          StoreAddr(i, k, 0);
        }
        k := k + 1;
      }
      FreeDirectEnd(Abstract(), i);
    }

    method TruncEntries(i: nat, a: Block, ghost h: map<Slot, nat>)
      requires Owns(Abstract(), h) && HoldsEntries(h, i, a, 0)
      modifies this`logged, blocks
      ensures Abstract() == FreeEntries(old(Abstract()), h, i, a, 0)
    {
      hide Owns, Used, FsSpace.Bfree, FreeEntries, Word, HoldsEntries;
      var j := 0;
      ghost var left := h;
      while j < NINDIRECT
        invariant j <= NINDIRECT && Owns(Abstract(), left) && HoldsEntries(left, i, a, j)
        invariant FreeEntries(Abstract(), left, i, a, j) == FreeEntries(old(Abstract()), h, i, a, 0)
      {
        FreeEntriesStep(Abstract(), left, i, a, j);
        if Word(a, j) != 0 {
          Bfree(Word(a, j));
          left := left - {Slot(i, NDIRECT + 1 + j)};
        }
        j := j + 1;
      }
      FreeEntriesEnd(Abstract(), left, i, a);
    }

    /** itrunc. */
    method Itrunc(i: nat)
      requires Own(Abstract()) && i in inodes
      modifies this`logged, this`inodes, blocks
      ensures Abstract() == FsFile.Itrunc(old(Abstract()), i)
    {
      hide Owns, Used, Held, HeldAt, Shrunk, FreeDirect, FreeIndirect, SetAddr, FsSpace.Bfree;
      TruncDirect(i);
      TruncStep(old(Abstract()), i);
      if inodes[i].addrs[NDIRECT] != 0 {
        var ind := inodes[i].addrs[NDIRECT];
        FreeIndirectSteps(Abstract(), i);
        TruncEntries(i, blocks[ind], Held(Abstract()));
        Bfree(ind);
        StoreAddr(i, NDIRECT, 0);
      }
      SetFileSize(i, 0);
    }

    /** One chunk of filewrite, between begin_op and end_op: it fits the log. */
    method WriteTransaction(i: nat, off: nat, w: seq<byte>) returns (r: int)
      requires Inv(Abstract()) && i in inodes && |w| <= MAXCHUNK
      modifies this`logged, this`inodes, blocks
      ensures (Abstract(), r) == WriteChunk(old(Abstract()), i, off, w)
      ensures |logged| <= MAXOPBLOCKS && (sb.size <= BPB ==> |logged| <= 7)
    {
      hide Owns, Mapped, WriteChunk, FsFile.Writei;
      WriteChunkIsWritei(Abstract(), i, off, w);
      logged := {};
      ChunkFitsTransaction(Abstract(), i, off, w);
      r := Writei(i, off, w);
    }

    /** filewrite; newOff is f->off afterwards. */
    method Filewrite(i: nat, off: nat, data: seq<byte>) returns (newOff: nat, ok: bool)
      requires Inv(Abstract()) && i in inodes
      modifies this`logged, this`inodes, blocks
      ensures (Abstract(), newOff, ok) == FileWrite(old(Abstract()), i, off, data)
      ensures FileWrote(old(Abstract()), i, off, data, Abstract(), newOff, ok)
    {
      hide Owns, Mapped, WriteChunk, FileWrite, FileWrote;
      FileWriteWrites(Abstract(), i, off, data);
      newOff := off;
      var left := data;
      while left != []
        invariant Inv(Abstract()) && i in inodes
        invariant FileWrite(Abstract(), i, newOff, left) == FileWrite(old(Abstract()), i, off, data)
        decreases |left|
      {
        var n1 := if |left| > MAXCHUNK then MAXCHUNK else |left|;
        FileWriteStep(Abstract(), i, newOff, left, n1);
        var r := WriteTransaction(i, newOff, left[..n1]);
        if r > 0 {
          newOff := newOff + r;
        }
        if r != n1 {
          return newOff, false;
        }
        left := left[n1..];
      }
      FileWriteEnd(Abstract(), i, newOff);
      ok := true;
    }
  }

  lemma WriteChunkIsWritei(s: State, i: nat, off: nat, w: seq<byte>)
    requires Inv(s) && i in s.inodes
    ensures Inv(BeginOp(s)) && WriteChunk(s, i, off, w) == FsFile.Writei(BeginOp(s), i, off, w)
  {
    BeginOpSame(s);
    hide Owns, Mapped, FsFile.Writei;
  }

  lemma FileWriteStep(s: State, i: nat, off: nat, data: seq<byte>, n1: nat)
    requires Inv(s) && i in s.inodes && data != [] && n1 == if |data| > MAXCHUNK then MAXCHUNK else |data|
    ensures var (t, r) := WriteChunk(s, i, off, data[..n1]);
      var off' := if r > 0 then off + r else off;
      FileWrite(s, i, off, data) == if r != n1 then (t, off', false) else FileWrite(t, i, off', data[n1..])
  {
    hide Owns, Mapped, WriteChunk;
  }

  lemma FileWriteEnd(s: State, i: nat, off: nat)
    requires Inv(s) && i in s.inodes
    ensures FileWrite(s, i, off, []) == (s, off, true)
  {
  }

  ghost predicate ReadSoFar(s: State, i: nat, off: nat, n: nat, tot: nat, bs: seq<byte>, full: (State, seq<byte>)) {
    && Own(s) && i in s.inodes && tot <= n && off + n <= MAXBYTES
    && full == (ReadFrom(s, i, off + tot, n - tot).0, bs + ReadFrom(s, i, off + tot, n - tot).1)
  }

  lemma ReadFromStart(s: State, i: nat, off: nat, n: nat)
    requires Own(s) && i in s.inodes && off + n <= MAXBYTES
    ensures ReadSoFar(s, i, off, n, 0, [], ReadFrom(s, i, off, n))
  {
    hide Owns, Held, ReadFrom;
    assert [] + ReadFrom(s, i, off, n).1 == ReadFrom(s, i, off, n).1;
  }

  lemma ReadFromStep(s: State, i: nat, off: nat, n: nat, tot: nat, bs: seq<byte>, full: (State, seq<byte>))
    requires ReadSoFar(s, i, off, n, tot, bs, full) && tot < n
    ensures var (t, b) := FsSpace.Bmap(s, i, (off + tot) / BSIZE);
      var m := Chunk(off + tot, n - tot);
      if b == 0 then full == (t, bs)
      else b < |t.blocks| && ReadSoFar(t, i, off, n, tot + m, bs + t.blocks[b][(off + tot) % BSIZE..(off + tot) % BSIZE + m], full)
  {
    hide Owns, Held, HeldAt, Used, FsSpace.Bmap, Chunk;
    var (t, b) := FsSpace.Bmap(s, i, (off + tot) / BSIZE);
    BmapGrows(s, i, (off + tot) / BSIZE, t, b);
    if b == 0 {
      assert bs + [] == bs;
    } else {
      InData(t, i, off + tot, b);
      var m := Chunk(off + tot, n - tot);
      var w := t.blocks[b][(off + tot) % BSIZE..(off + tot) % BSIZE + m];
      var rest := ReadFrom(t, i, off + tot + m, n - tot - m).1;
      assert bs + (w + rest) == (bs + w) + rest;
    }
  }

  lemma ReadFromEnd(s: State, i: nat, off: nat, n: nat, bs: seq<byte>, full: (State, seq<byte>))
    requires ReadSoFar(s, i, off, n, n, bs, full)
    ensures full == (s, bs)
  {
    hide Owns, Held;
    assert bs + [] == bs;
  }

  lemma FreeDirectStep(s: State, i: nat, k: nat)
    requires Own(s) && i in s.inodes && k < NDIRECT
    ensures var b := s.inodes[i].addrs[k];
      if b == 0 then FreeDirect(s, i, k) == FreeDirect(s, i, k + 1)
      else
        && b < s.sb.size && Used(s, b)
        && i in FsSpace.Bfree(s, b).inodes && |FsSpace.Bfree(s, b).inodes[i].addrs| == NDIRECT + 1
        && var u := SetAddr(FsSpace.Bfree(s, b), i, k, 0);
        && Own(u) && i in u.inodes && FreeDirect(s, i, k) == FreeDirect(u, i, k + 1)
  {
    hide Owns, Held, HeldAt, Used;
    if s.inodes[i].addrs[k] != 0 {
      FreesDirect(s, i, k);
    }
  }

  lemma FreeDirectEnd(s: State, i: nat)
    requires Own(s) && i in s.inodes
    ensures FreeDirect(s, i, NDIRECT) == s
  {
  }

  lemma FreeEntriesStep(s: State, h: map<Slot, nat>, i: nat, a: Block, j: nat)
    requires Owns(s, h) && j < NINDIRECT && HoldsEntries(h, i, a, j)
    ensures if Word(a, j) == 0 then HoldsEntries(h, i, a, j + 1) && FreeEntries(s, h, i, a, j) == FreeEntries(s, h, i, a, j + 1)
      else
        && Wf(s) && Word(a, j) < s.sb.size && Used(s, Word(a, j))
        && var u, h' := FsSpace.Bfree(s, Word(a, j)), h - {Slot(i, NDIRECT + 1 + j)};
        && Owns(u, h') && HoldsEntries(h', i, a, j + 1)
        && FreeEntries(s, h, i, a, j) == FreeEntries(u, h', i, a, j + 1)
  {
    hide Owns, Used, Word;
    if Word(a, j) != 0 {
      FreesOne(s, h, i, a, j);
    } else {
      FreesNone(h, i, a, j);
    }
  }

  lemma FreeEntriesEnd(s: State, h: map<Slot, nat>, i: nat, a: Block)
    requires Owns(s, h) && HoldsEntries(h, i, a, NINDIRECT)
    ensures FreeEntries(s, h, i, a, NINDIRECT) == s
  {
  }

  lemma TruncStep(s: State, i: nat)
    requires Own(s) && i in s.inodes
    ensures var t := FreeDirect(s, i, 0);
      && Own(t) && i in t.inodes && t.inodes.Keys == s.inodes.Keys
      && (forall m :: 0 <= m < NDIRECT ==> t.inodes[i].addrs[m] == 0)
      && FsFile.Itrunc(s, i) == SetSize(if t.inodes[i].addrs[NDIRECT] != 0 then FreeIndirect(t, i) else t, i, 0)
  {
  }

  lemma FreeIndirectSteps(s: State, i: nat)
    requires Own(s) && i in s.inodes && s.inodes[i].addrs[NDIRECT] != 0
    requires forall m :: 0 <= m < NDIRECT ==> s.inodes[i].addrs[m] == 0
    ensures var ind := s.inodes[i].addrs[NDIRECT];
      && ind < |s.blocks| && HoldsEntries(Held(s), i, s.blocks[ind], 0)
      && var u := FreeEntries(s, Held(s), i, s.blocks[ind], 0);
      && Wf(u) && ind < u.sb.size && Used(u, ind) && i in FsSpace.Bfree(u, ind).inodes
      && |FsSpace.Bfree(u, ind).inodes[i].addrs| == NDIRECT + 1
      && FreeIndirect(s, i) == SetAddr(FsSpace.Bfree(u, ind), i, NDIRECT, 0)
      && FreeIndirect(s, i).inodes.Keys == s.inodes.Keys
  {
    hide Owns, Held, HeldAt, Used, FreeEntries, Word;
    EntriesHeld(s, i);
    var ind := s.inodes[i].addrs[NDIRECT];
    var u := FreeEntries(s, Held(s), i, s.blocks[ind], 0);
    IndirectStays(s, u, i);
  }

  /** full is what remains to be computed from s after tot bytes have been written. */
  ghost predicate WroteSoFar(s: State, i: nat, off: nat, data: seq<byte>, tot: nat, full: (State, nat)) {
    && Own(s) && i in s.inodes && tot <= |data| && off + |data| <= MAXBYTES
    && full == (WriteFrom(s, i, off + tot, data[tot..]).0, tot + WriteFrom(s, i, off + tot, data[tot..]).1)
  }

  lemma WriteFromStart(s: State, i: nat, off: nat, data: seq<byte>)
    requires Own(s) && i in s.inodes && off + |data| <= MAXBYTES
    ensures WroteSoFar(s, i, off, data, 0, WriteFrom(s, i, off, data))
  {
  }

  lemma WriteFromStep(s: State, i: nat, off: nat, data: seq<byte>, tot: nat, m: nat, full: (State, nat))
    requires WroteSoFar(s, i, off, data, tot, full) && tot < |data| && m == Chunk(off + tot, |data| - tot)
    ensures (off + tot) % BSIZE + m <= BSIZE && 0 < m <= |data| - tot
    ensures var (t, ok) := FsFile.WriteOne(s, i, off + tot, data[tot..][..m]);
      && Own(t) && t.inodes.Keys == s.inodes.Keys
      && if ok then WroteSoFar(t, i, off, data, tot + m, full) else full == (t, tot)
  {
    hide Owns, Held, HeldAt, FsFile.WriteOne, FsFile.Wrote, Chunk;
    assert data[tot..][m..] == data[tot + m..];
    var (t, ok) := FsFile.WriteOne(s, i, off + tot, data[tot..][..m]);
    WroteOwn(s, t, i, off + tot, if ok then data[tot..][..m] else []);
  }

  lemma WriteFromEnd(s: State, i: nat, off: nat, data: seq<byte>, full: (State, nat))
    requires WroteSoFar(s, i, off, data, |data|, full)
    ensures full == (s, |data|)
  {
  }

  lemma SizeKept(s: State, i: nat, off: nat, data: seq<byte>)
    requires Own(s) && i in s.inodes && off + |data| <= MAXBYTES
    ensures var t := WriteFrom(s, i, off, data).0; t.inodes.Keys == s.inodes.Keys
  {
    hide Owns, Held, WriteFrom;
    WriteFromWrote(s, i, off, data);
  }

  lemma MarkSizes(s: State, b: nat)
    requires Wf(s) && b < s.sb.size
    ensures |Mark(s, b, true).blocks| == |s.blocks|
  {
  }

  lemma SameBitmapBlock(sb: Super, b: nat, bi: nat)
    requires Geometry(sb) && Aligned(b) && bi < BPB && b + bi < sb.size
    ensures BBlock(sb, b + bi) == BBlock(sb, b) && (b + bi) % BPB == bi
  {
  }

  lemma FirstFreeStep(s: State, b: nat)
    requires Wf(s) && b < s.sb.size
    ensures FirstFree(s, b) == if !Used(s, b) then b else FirstFree(s, b + 1)
  {
  }

  lemma FirstFreeEnd(s: State)
    requires Wf(s)
    ensures FirstFree(s, s.sb.size) == 0
  {
  }

  lemma BootUsed(s: State)
    requires Own(s)
    ensures Used(s, 0)
  {
  }

  lemma BallocFits(s: State, t: State, b: nat)
    requires Own(s) && (t, b) == FsSpace.Balloc(s)
    ensures b < UINT && t.inodes == s.inodes && t.sb == s.sb && |t.blocks| == |s.blocks|
  {
  }

  lemma IndirectSet(s: State, i: nat, ind: nat)
    requires Own(s) && i in s.inodes && (ind != 0 ==> HeldAt(s, Slot(i, NDIRECT)) == ind)
    ensures ind != 0 ==> s.inodes[i].addrs[NDIRECT] != 0
  {
  }
}
