/** Files as byte sequences: readi, writei and itrunc of fs.c over the block allocation of
    module FsSpace, and filewrite's chunks of file.c. */
module FsFile {
  import opened FsLayout
  import opened FsSpace

  const MAXBYTES: nat := MAXFILE * BSIZE

  /** Byte x of file i is in a block. */
  ghost predicate HasByte(s: State, i: nat, x: nat)
    requires Wf(s)
  {
    i in s.inodes && x < MAXBYTES && Slot(i, FileSlot(x / BSIZE)) in Held(s)
  }

  ghost function Raw(s: State, i: nat, x: nat): byte
    requires Own(s) && HasByte(s, i, x)
  {
    s.blocks[Held(s)[Slot(i, FileSlot(x / BSIZE))]][x % BSIZE]
  }

  lemma BelowSize(s: State, i: nat, x: nat)
    requires Inv(s) && i in s.inodes && x < s.inodes[i].size
    ensures HasByte(s, i, x)
  {
  }

  /** What file i contains. */
  ghost function Content(s: State, i: nat): (c: seq<byte>)
    requires Inv(s) && i in s.inodes
    ensures |c| == s.inodes[i].size
  {
    seq(s.inodes[i].size, x requires 0 <= x < s.inodes[i].size => BelowSize(s, i, x); Raw(s, i, x))
  }

  // ---- bmap ----

  /** bmap finds the block, or adds one that nobody held without touching any byte of any file,
      or the disk is full. */
  lemma BmapGrows(s: State, i: nat, bn: nat, t: State, b: nat)
    requires Own(s) && i in s.inodes && bn < MAXFILE && (t, b) == Bmap(s, i, bn)
    ensures Grew(s, t)
    ensures b == 0 ==> Full(t)
    ensures b != 0 ==> Slot(i, FileSlot(bn)) in Held(t) && Held(t)[Slot(i, FileSlot(bn))] == b
    ensures Slot(i, FileSlot(bn)) in Held(s) ==> t == s && b == Held(s)[Slot(i, FileSlot(bn))] != 0
  {
    hide GetOrAlloc, Owns, HeldAt, Full, Held;
    NotHeld(s, Slot(i, FileSlot(bn)));
    if bn < NDIRECT {
      GetOrAllocGrows(s, i, bn, t, b);
    } else {
      var (m, ind) := GetOrAlloc(s, i, NDIRECT);
      GetOrAllocGrows(s, i, NDIRECT, m, ind);
      EntryHasIndirect(s, i, bn + 1);
      if ind != 0 {
        AddrHeld(m, i, NDIRECT);
        GetOrAllocGrows(m, i, bn + 1, t, b);
        GrewTwice(s, m, t);
      }
    }
    NotHeld(t, Slot(i, FileSlot(bn)));
  }

  lemma EntryHasIndirect(s: State, i: nat, k: nat)
    requires Wf(s) && i in s.inodes && NDIRECT < k < NSLOTS
    ensures HeldAt(s, Slot(i, k)) != 0 ==> HeldAt(s, Slot(i, NDIRECT)) != 0
  {
  }

  // ---- writei ----

  function Splice(d: Block, off: nat, bs: seq<byte>): Block
    requires off + |bs| <= BSIZE
  {
    d[..off] + bs + d[off + |bs|..]
  }

  /** The bytes of a transfer of len bytes at off that lie in the first block. */
  function Chunk(off: nat, len: nat): (m: nat)
    ensures m <= len && off % BSIZE + m <= BSIZE && (len > 0 ==> m > 0)
  {
    if len < BSIZE - off % BSIZE then len else BSIZE - off % BSIZE
  }

  /** t is s with w written into the blocks of file i from byte off on, whatever i's size. */
  ghost predicate Wrote(s: State, t: State, i: nat, off: nat, w: seq<byte>) {
    && Own(s) && Own(t) && t.sb == s.sb && SameSizes(s, t)
    && (forall j: nat, x: nat :: HasByte(s, j, x) ==>
          HasByte(t, j, x) && ((j == i && off <= x < off + |w|) || Raw(t, j, x) == Raw(s, j, x)))
    && (forall x :: off <= x < off + |w| ==> HasByte(t, i, x) && Raw(t, i, x) == w[x - off])
  }

  lemma GrewWrote(s: State, t: State, i: nat, off: nat)
    requires Grew(s, t)
    ensures Wrote(s, t, i, off, [])
  {
  }

  lemma GrewThenWrote(s: State, t: State, u: State, i: nat, off: nat, w: seq<byte>)
    requires Grew(s, t) && Wrote(t, u, i, off, w)
    ensures Wrote(s, u, i, off, w)
  {
    GrewWrote(s, t, i, off);
    hide Own, Raw, HasByte, Grew;
  }

  lemma WroteMore(s: State, t: State, u: State, i: nat, off: nat, data: seq<byte>, m: nat, n: nat)
    requires m + n <= |data|
    requires Wrote(s, t, i, off, data[..m]) && Wrote(t, u, i, off + m, data[m..][..n])
    ensures Wrote(s, u, i, off, data[..m + n])
  {
    hide Own, Raw, HasByte;
  }

  /** Writing into the data block b of file i changes bytes of that block only: no other place
      holds b, and b is not an indirect block. */
  lemma PutWrote(s: State, i: nat, off: nat, b: nat, w: seq<byte>)
    requires Own(s) && i in s.inodes && off < MAXBYTES && off % BSIZE + |w| <= BSIZE
    requires Slot(i, FileSlot(off / BSIZE)) in Held(s) && Held(s)[Slot(i, FileSlot(off / BSIZE))] == b
    ensures b < |s.blocks|
    ensures Wrote(s, Put(s, b, Splice(s.blocks[b], off % BSIZE, w)), i, off, w)
  {
    hide Used, HeldAt, Splice, Held, HasByte, Raw;
    InData(s, i, off, b);
    var d := Splice(s.blocks[b], off % BSIZE, w);
    var t := Put(s, b, d);
    DataNotIndirect(s, Slot(i, FileSlot(off / BSIZE)));
    PutOwns(s, Held(s), b, d);
    HeldFrame(s, t);
    forall j: nat, x: nat
      ensures HasByte(s, j, x) ==> HasByte(t, j, x)
      ensures HasByte(s, j, x) ==> Raw(t, j, x) == if j == i && x / BSIZE == off / BSIZE then d[x % BSIZE] else Raw(s, j, x)
    {
      PutRaw(s, t, i, off, b, d, j, x);
    }
    InBlock(s.blocks[b], off, w);
    forall x: nat | off <= x < off + |w|
      ensures x / BSIZE == off / BSIZE && HasByte(s, i, x)
    {
      SameBlock(s, i, off, x);
    }
    forall x: nat | HasByte(s, i, x) && x / BSIZE == off / BSIZE
      ensures Raw(s, i, x) == s.blocks[b][x % BSIZE]
    {
      RawIn(s, i, off, b, x);
    }
  }

  lemma RawIn(s: State, i: nat, off: nat, b: nat, x: nat)
    requires Own(s) && HasByte(s, i, x) && x / BSIZE == off / BSIZE && b < |s.blocks|
    requires Slot(i, FileSlot(off / BSIZE)) in Held(s) && Held(s)[Slot(i, FileSlot(off / BSIZE))] == b
    ensures Raw(s, i, x) == s.blocks[b][x % BSIZE]
  {
    hide Used, HeldAt, Held, Owns;
  }

  lemma SameBlock(s: State, i: nat, off: nat, x: nat)
    requires Own(s) && i in s.inodes && off < MAXBYTES && Slot(i, FileSlot(off / BSIZE)) in Held(s)
    requires x / BSIZE == off / BSIZE
    ensures HasByte(s, i, x)
  {
    hide Used, HeldAt, Held, Owns;
  }

  /** A byte of the written block is the new one, every other byte what it was. */
  lemma PutRaw(s: State, t: State, i: nat, off: nat, b: nat, d: Block, j: nat, x: nat)
    requires Own(s) && Own(t) && i in s.inodes && b < |s.blocks| && t == Put(s, b, d) && Held(t) == Held(s)
    requires Slot(i, FileSlot(off / BSIZE)) in Held(s) && Held(s)[Slot(i, FileSlot(off / BSIZE))] == b
    ensures HasByte(s, j, x) ==> HasByte(t, j, x)
    ensures HasByte(s, j, x) ==> Raw(t, j, x) == if j == i && x / BSIZE == off / BSIZE then d[x % BSIZE] else Raw(s, j, x)
  {
    hide Used, HeldAt, Held;
    SlotsDiffer(j, x, i, off);
  }

  lemma SlotsDiffer(j: nat, x: nat, i: nat, off: nat)
    ensures Slot(j, FileSlot(x / BSIZE)) == Slot(i, FileSlot(off / BSIZE)) ==> j == i && x / BSIZE == off / BSIZE
  {
  }

  lemma InBlock(d: Block, off: nat, w: seq<byte>)
    requires off % BSIZE + |w| <= BSIZE
    ensures forall x: nat :: off <= x < off + |w| ==>
      x / BSIZE == off / BSIZE && Splice(d, off % BSIZE, w)[x % BSIZE] == w[x - off]
    ensures forall x: nat :: x / BSIZE == off / BSIZE && !(off <= x < off + |w|) ==>
      Splice(d, off % BSIZE, w)[x % BSIZE] == d[x % BSIZE]
  {
    forall x: nat | off <= x < off + |w|
      ensures x / BSIZE == off / BSIZE && x % BSIZE - off % BSIZE == x - off
    {
    }
    forall x: nat | x / BSIZE == off / BSIZE
      ensures x % BSIZE - off % BSIZE == x - off
    {
    }
  }

  lemma DataNotIndirect(s: State, sl: Slot)
    requires Own(s) && sl in Held(s) && sl.k != NDIRECT
    ensures forall i :: i in s.inodes && s.inodes[i].addrs[NDIRECT] != 0 ==> s.inodes[i].addrs[NDIRECT] != Held(s)[sl]
  {
    hide Used, HeldAt, Held;
    forall i | i in s.inodes && s.inodes[i].addrs[NDIRECT] != 0
      ensures s.inodes[i].addrs[NDIRECT] != Held(s)[sl]
    {
      IndirectHeld(s, Held(s), i);
    }
  }

  /** One iteration of writei's loop, within one block; false when the disk is full. */
  ghost function WriteOne(s: State, i: nat, off: nat, w: seq<byte>): (r: (State, bool))
    requires Own(s) && i in s.inodes && off < MAXBYTES && off % BSIZE + |w| <= BSIZE
    ensures Wrote(s, r.0, i, off, if r.1 then w else [])
    ensures !r.1 ==> Full(r.0)
  {
    hide Owns, Held, HeldAt, Bmap, Full, Wrote, Splice, Used;
    var (t, b) := Bmap(s, i, off / BSIZE);
    BmapGrows(s, i, off / BSIZE, t, b);
    if b == 0 then
      GrewWrote(s, t, i, off);
      (t, false)
    else
      PutWrote(t, i, off, b, w);
      var u := Put(t, b, Splice(t.blocks[b], off % BSIZE, w));
      GrewThenWrote(s, t, u, i, off, w);
      (u, true)
  }

  /** writei's loop: the resulting state and the number of bytes written. */
  ghost function WriteFrom(s: State, i: nat, off: nat, data: seq<byte>): (r: (State, nat))
    requires Own(s) && i in s.inodes && off + |data| <= MAXBYTES
    ensures r.1 <= |data|
    decreases |data|
  {
    hide Owns, Held, HeldAt, WriteOne, Raw, HasByte;
    if data == [] then (s, 0)
    else
      var m := Chunk(off, |data|);
      var (t, ok) := WriteOne(s, i, off, data[..m]);
      if !ok then (t, 0)
      else
        var (u, n) := WriteFrom(t, i, off + m, data[m..]);
        (u, m + n)
  }

  lemma {:induction false} WriteFromWrote(s: State, i: nat, off: nat, data: seq<byte>)
    requires Own(s) && i in s.inodes && off + |data| <= MAXBYTES
    ensures var (t, n) := WriteFrom(s, i, off, data);
            && Wrote(s, t, i, off, data[..n])
            && (n < |data| ==> Full(t))
    decreases |data|
  {
    hide Owns, Held, HeldAt, WriteOne, Wrote, Chunk, Used, Full;
    if data == [] {
      WroteNothing(s, i, off, data);
    } else {
      var m := Chunk(off, |data|);
      var (t, ok) := WriteOne(s, i, off, data[..m]);
      WroteOwn(s, t, i, off, if ok then data[..m] else []);
      if ok {
        WriteFromWrote(t, i, off + m, data[m..]);
        var (u, n) := WriteFrom(t, i, off + m, data[m..]);
        WroteMore(s, t, u, i, off, data, m, n);
      } else {
        assert data[..0] == [];
      }
    }
  }

  lemma WroteNothing(s: State, i: nat, off: nat, data: seq<byte>)
    requires Own(s)
    ensures Wrote(s, s, i, off, data[..0])
  {
  }

  lemma WroteOwn(s: State, t: State, i: nat, off: nat, w: seq<byte>)
    requires Wrote(s, t, i, off, w)
    ensures Own(t) && t.inodes.Keys == s.inodes.Keys
  {
  }

  function Overwrite(c: seq<byte>, off: nat, w: seq<byte>): seq<byte>
    requires off <= |c|
  {
    c[..off] + w + (if off + |w| < |c| then c[off + |w|..] else [])
  }

  function SetSize(s: State, i: nat, size: nat): State
    requires i in s.inodes
  {
    State(s.sb, s.blocks, s.inodes[i := Inode(s.inodes[i].addrs, size)], s.logged + {IBlock(s.sb, i)})
  }

  /** writei: -1 when the range is refused, otherwise the number of bytes written. */
  ghost function Writei(s: State, i: nat, off: nat, data: seq<byte>): (State, int)
    requires Own(s) && i in s.inodes
  {
    var size := s.inodes[i].size;
    if off > size || off + |data| >= UINT then (s, -1)
    else if off + |data| > MAXBYTES then (s, -1)
    else
      var (t, n) := WriteFrom(s, i, off, data);
      WriteFromWrote(s, i, off, data);
      (SetSize(t, i, if off + n > size then off + n else size), n as int)
  }

  lemma SetSizeOwns(s: State, i: nat, size: nat)
    requires Own(s) && i in s.inodes
    ensures var t := SetSize(s, i, size);
      && Own(t) && Held(t) == Held(s)
      && (forall j: nat, x: nat :: HasByte(t, j, x) <==> HasByte(s, j, x))
      && (forall j: nat, x: nat :: HasByte(s, j, x) ==> Raw(t, j, x) == Raw(s, j, x))
  {
    var t := SetSize(s, i, size);
    assert t.inodes.Keys == s.inodes.Keys;
    forall sl | sl in AllSlots(s.inodes.Keys)
      ensures Wf(t) && HeldAt(t, sl) == HeldAt(s, sl)
    {
    }
    assert Held(t) == Held(s);
    forall c | 0 <= c < s.sb.size
      ensures Used(t, c) == Used(s, c)
    {
    }
    hide Used, HeldAt, Held;
    OwnsFrame(s, t, Held(s));
  }

  lemma SetSizeMapped(s: State, t: State, i: nat, off: nat, w: seq<byte>, size: nat)
    requires Inv(s) && i in s.inodes && Wrote(s, t, i, off, w) && off <= s.inodes[i].size
    requires off + |w| <= MAXBYTES && size == if off + |w| > s.inodes[i].size then off + |w| else s.inodes[i].size
    requires var u := SetSize(t, i, size);
      Own(u) && forall j: nat, x: nat :: HasByte(u, j, x) <==> HasByte(t, j, x)
    ensures Inv(SetSize(t, i, size))
  {
    hide Owns, Used, HeldAt, Held;
    var u := SetSize(t, i, size);
    forall j, bn: nat | j in u.inodes && bn * BSIZE < u.inodes[j].size && bn < MAXFILE
      ensures HeldAt(u, Slot(j, FileSlot(bn))) != 0
    {
      var x := bn * BSIZE;
      assert x / BSIZE == bn;
      if x < s.inodes[j].size { BelowSize(s, j, x); }
      assert HasByte(t, j, x);
      NotHeld(u, Slot(j, FileSlot(bn)));
    }
  }

  /** In t, file i contains c and every other file what it contained in s. */
  ghost predicate OnlyFile(s: State, t: State, i: nat, c: seq<byte>)
    requires Inv(s)
  {
    && Inv(t) && t.inodes.Keys == s.inodes.Keys && i in s.inodes
    && Content(t, i) == c
    && forall j :: j in s.inodes && j != i ==> Content(t, j) == Content(s, j)
  }

  /** writei puts the bytes it accepted into the file and leaves every other byte of every file
      as it was; it accepts all of them unless it refuses the range or the disk becomes full. */
  lemma WriteiRefines(s: State, i: nat, off: nat, data: seq<byte>, t: State, n: int)
    requires Inv(s) && i in s.inodes && (t, n) == Writei(s, i, off, data)
    ensures n == -1 <==> off > s.inodes[i].size || off + |data| > MAXBYTES
    ensures n == -1 ==> t == s
    ensures n != -1 ==> 0 <= n <= |data| && OnlyFile(s, t, i, Overwrite(Content(s, i), off, data[..n]))
    ensures n != -1 && n < |data| ==> Full(t)
  {
    hide Owns, Mapped, Used, HeldAt, Held, Raw, HasByte, Full, Wrote, WriteFrom, Overwrite, SetSize, Content, OnlyFile;
    if n != -1 {
      WriteFromWrote(s, i, off, data);
      var (u, m) := WriteFrom(s, i, off, data);
      WroteOwn(s, u, i, off, data[..n]);
      var size := if off + n > s.inodes[i].size then off + n else s.inodes[i].size;
      assert t == SetSize(u, i, size);
      SetSizeKeys(u, i, size);
      SetSizeOwns(u, i, size);
      SetSizeMapped(s, u, i, off, data[..n], size);
      SetSizeFull(u, i, size);
      WroteContent(s, u, i, off, data[..n], t, size);
    }
  }

  lemma SetSizeKeys(s: State, i: nat, size: nat)
    requires i in s.inodes
    ensures SetSize(s, i, size).inodes.Keys == s.inodes.Keys
  {
  }

  lemma SetSizeFull(s: State, i: nat, size: nat)
    requires Own(s) && i in s.inodes
    ensures Wf(SetSize(s, i, size)) && (Full(s) ==> Full(SetSize(s, i, size)))
  {
    var t := SetSize(s, i, size);
    forall c | 0 <= c < s.sb.size
      ensures Wf(t) && Used(t, c) == Used(s, c)
    {
    }
  }

  lemma WroteContent(s: State, u: State, i: nat, off: nat, w: seq<byte>, t: State, size: nat)
    requires Inv(s) && i in s.inodes && Wrote(s, u, i, off, w) && off <= s.inodes[i].size
    requires size == if off + |w| > s.inodes[i].size then off + |w| else s.inodes[i].size
    requires t == SetSize(u, i, size) && Inv(t)
    requires forall j: nat, x: nat :: HasByte(u, j, x) ==> HasByte(t, j, x) && Raw(t, j, x) == Raw(u, j, x)
    ensures OnlyFile(s, t, i, Overwrite(Content(s, i), off, w))
  {
    hide Owns, Used, HeldAt, Held, Raw, HasByte, Mapped;
    forall j, x: nat | j in s.inodes && x < s.inodes[j].size
      ensures HasByte(s, j, x)
    {
      BelowSize(s, j, x);
    }
  }

  // ---- readi ----

  /** readi's loop: the state it leaves (bmap may allocate) and the bytes it copies out. */
  ghost function ReadFrom(s: State, i: nat, off: nat, n: nat): (State, seq<byte>)
    requires Own(s) && i in s.inodes && off + n <= MAXBYTES
    decreases n
  {
    hide Owns, Held, HeldAt, Bmap, Full;
    if n == 0 then (s, [])
    else
      var (t, b) := Bmap(s, i, off / BSIZE);
      BmapGrows(s, i, off / BSIZE, t, b);
      if b == 0 then (t, [])
      else
        InData(t, i, off, b);
        var m := Chunk(off, n);
        var (u, bs) := ReadFrom(t, i, off + m, n - m);
        (u, t.blocks[b][off % BSIZE..off % BSIZE + m] + bs)
  }

  lemma InData(s: State, i: nat, off: nat, b: nat)
    requires Own(s) && Slot(i, FileSlot(off / BSIZE)) in Held(s) && Held(s)[Slot(i, FileSlot(off / BSIZE))] == b
    ensures b < |s.blocks|
  {
    hide Held, HeldAt, Used;
  }

  ghost predicate HasBytes(s: State, i: nat, off: nat, n: nat)
    requires Wf(s)
  {
    forall x: nat :: off <= x < off + n ==> HasByte(s, i, x)
  }

  ghost function RawBytes(s: State, i: nat, off: nat, n: nat): seq<byte>
    requires Own(s) && HasBytes(s, i, off, n)
  {
    seq<byte>(n, x requires 0 <= x < n => Raw(s, i, off + x))
  }

  lemma RawChunk(s: State, i: nat, off: nat, b: nat, m: nat, n: nat)
    requires Own(s) && 0 < m <= n && off % BSIZE + m <= BSIZE && HasBytes(s, i, off, n)
    requires Slot(i, FileSlot(off / BSIZE)) in Held(s) && b == Held(s)[Slot(i, FileSlot(off / BSIZE))] < |s.blocks|
    ensures HasBytes(s, i, off + m, n - m)
    ensures RawBytes(s, i, off, n) == s.blocks[b][off % BSIZE..off % BSIZE + m] + RawBytes(s, i, off + m, n - m)
  {
    hide Owns, Held, HeldAt, Used;
    forall y: nat | off <= y < off + m
      ensures HasByte(s, i, y) && Raw(s, i, y) == s.blocks[b][off % BSIZE + (y - off)]
    {
      assert y / BSIZE == off / BSIZE && y % BSIZE == off % BSIZE + (y - off);
    }
    assert RawBytes(s, i, off, n)[..m] == s.blocks[b][off % BSIZE..off % BSIZE + m];
    assert RawBytes(s, i, off, n)[m..] == RawBytes(s, i, off + m, n - m);
    forall x: nat | off + m <= x < off + m + (n - m)
      ensures HasByte(s, i, x)
    {
    }
  }

  /** Over bytes that have blocks, reading allocates nothing. */
  lemma {:induction false} ReadFromExact(s: State, i: nat, off: nat, n: nat)
    requires Own(s) && i in s.inodes && off + n <= MAXBYTES && HasBytes(s, i, off, n)
    ensures ReadFrom(s, i, off, n) == (s, RawBytes(s, i, off, n))
    decreases n
  {
    hide Owns, Held, HeldAt, Bmap, Full, RawBytes, Used;
    if n == 0 {
      NoBytes(s, i, off);
    } else {
      var (t, b) := Bmap(s, i, off / BSIZE);
      assert HasByte(s, i, off);
      BmapGrows(s, i, off / BSIZE, t, b);
      InData(t, i, off, b);
      var m := Chunk(off, n);
      RawChunk(s, i, off, b, m, n);
      ReadFromExact(s, i, off + m, n - m);
    }
  }

  lemma NoBytes(s: State, i: nat, off: nat)
    requires Own(s) && HasBytes(s, i, off, 0)
    ensures RawBytes(s, i, off, 0) == []
  {
  }

  function ReadCount(size: nat, off: nat, n: nat): nat {
    if off > size || off + n >= UINT then 0 else if off + n > size then size - off else n
  }

  /** readi. */
  ghost function Readi(s: State, i: nat, off: nat, n: nat): (State, seq<byte>)
    requires Inv(s) && i in s.inodes
  {
    if off > s.inodes[i].size || off + n >= UINT then (s, [])
    else ReadFrom(s, i, off, ReadCount(s.inodes[i].size, off, n))
  }

  lemma SizeBound(s: State, i: nat)
    requires Inv(s) && i in s.inodes
    ensures s.inodes[i].size <= MAXBYTES
  {
  }

  lemma SliceIsRaw(s: State, i: nat, off: nat, m: nat)
    requires Inv(s) && i in s.inodes && off + m <= s.inodes[i].size && HasBytes(s, i, off, m)
    ensures Content(s, i)[off..off + m] == RawBytes(s, i, off, m)
  {
    hide Owns, Held, HeldAt, Used, HasByte, Raw, Mapped;
  }

  /** The part of a file that a read of n bytes at off returns. */
  function Slice(c: seq<byte>, off: nat, n: nat): seq<byte> {
    if off > |c| then [] else c[off..off + ReadCount(|c|, off, n)]
  }

  /** A read returns the bytes from off on, n of them or as many as the file has, and none at all when off
      is past the end or off + n wraps around. */
  lemma SliceAt(c: seq<byte>, off: nat, n: nat)
    ensures off <= |c| && off + n < UINT ==> |Slice(c, off, n)| == if n <= |c| - off then n else |c| - off
    ensures forall k :: 0 <= k < |Slice(c, off, n)| ==> off + k < |c| && Slice(c, off, n)[k] == c[off + k]
    ensures off > |c| || off + n >= UINT ==> Slice(c, off, n) == []
  {
    assert off > |c| || off + n >= UINT ==> |Slice(c, off, n)| == 0;
  }

  /** readi returns exactly the slice of the file and changes nothing. */
  lemma ReadiReads(s: State, i: nat, off: nat, n: nat)
    requires Inv(s) && i in s.inodes
    ensures Readi(s, i, off, n) == (s, Slice(Content(s, i), off, n))
  {
    hide Owns, Mapped, Held, HeldAt, Used, ReadFrom, HasByte, Content;
    SizeBound(s, i);
    var size := s.inodes[i].size;
    if off <= size && off + n < UINT {
      var m := ReadCount(size, off, n);
      forall x: nat | off <= x < off + m
        ensures HasByte(s, i, x)
      {
        BelowSize(s, i, x);
      }
      ReadFromExact(s, i, off, m);
      SliceIsRaw(s, i, off, m);
    } else if off <= size {
      assert Content(s, i)[off..off] == [];
    }
  }

  // ---- itrunc ----

  function Entries(i: nat, j: nat): set<Slot> {
    set k: nat | NDIRECT + 1 + j <= k < NSLOTS :: Slot(i, k)
  }

  /** h says which words of the indirect block a, from word j on, are block numbers. */
  ghost predicate HoldsEntries(h: map<Slot, nat>, i: nat, a: Block, j: nat) {
    forall m: nat {:trigger Word(a, m)} :: j <= m < NINDIRECT ==>
      (Slot(i, NDIRECT + 1 + m) in h <==> Word(a, m) != 0) &&
      (Word(a, m) != 0 ==> h[Slot(i, NDIRECT + 1 + m)] == Word(a, m))
  }

  /** Freeing changes bitmap blocks only. */
  ghost predicate OnlyBitmap(s: State, t: State) {
    && t.sb == s.sb && t.inodes == s.inodes && |t.blocks| == |s.blocks|
    && forall c :: s.sb.nmeta <= c < |s.blocks| ==> t.blocks[c] == s.blocks[c]
  }

  /** The loop of itrunc over the words of the indirect block, from word j. */
  ghost function FreeEntries(s: State, h: map<Slot, nat>, i: nat, a: Block, j: nat): (t: State)
    requires Owns(s, h) && j <= NINDIRECT && HoldsEntries(h, i, a, j)
    ensures Owns(t, h - Entries(i, j)) && OnlyBitmap(s, t)
    decreases NINDIRECT - j
  {
    hide Owns, Word, Used;
    if j == NINDIRECT then
      assert h - Entries(i, j) == h;
      s
    else if Word(a, j) != 0 then
      var sl := Slot(i, NDIRECT + 1 + j);
      FreesOne(s, h, i, a, j);
      FreeEntries(Bfree(s, Word(a, j)), h - {sl}, i, a, j + 1)
    else
      FreesNone(h, i, a, j);
      FreeEntries(s, h, i, a, j + 1)
  }

  lemma FreesOne(s: State, h: map<Slot, nat>, i: nat, a: Block, j: nat)
    requires Owns(s, h) && j < NINDIRECT && HoldsEntries(h, i, a, j) && Word(a, j) != 0
    ensures var sl := Slot(i, NDIRECT + 1 + j);
      && Wf(s) && Word(a, j) < s.sb.size && Used(s, Word(a, j))
      && Owns(Bfree(s, Word(a, j)), h - {sl}) && OnlyBitmap(s, Bfree(s, Word(a, j)))
      && HoldsEntries(h - {sl}, i, a, j + 1)
      && h - Entries(i, j) == (h - {sl}) - Entries(i, j + 1)
  {
    var sl := Slot(i, NDIRECT + 1 + j);
    BfreeReleases(s, h, sl);
    assert Entries(i, j) == {sl} + Entries(i, j + 1);
    hide Word, Used, Owns;
  }

  lemma FreesNone(h: map<Slot, nat>, i: nat, a: Block, j: nat)
    requires j < NINDIRECT && HoldsEntries(h, i, a, j) && Word(a, j) == 0
    ensures HoldsEntries(h, i, a, j + 1)
    ensures h - Entries(i, j) == h - Entries(i, j + 1)
  {
  }

  /** The loop of itrunc over the direct blocks, from addrs[k]. */
  ghost function FreeDirect(s: State, i: nat, k: nat): (t: State)
    requires Own(s) && i in s.inodes && k <= NDIRECT
    ensures Shrunk(s, t, i) && t.inodes[i].addrs[NDIRECT] == s.inodes[i].addrs[NDIRECT]
    ensures forall m :: k <= m < NDIRECT ==> t.inodes[i].addrs[m] == 0
    ensures forall m :: 0 <= m < k ==> t.inodes[i].addrs[m] == s.inodes[i].addrs[m]
    decreases NDIRECT - k
  {
    hide Owns, Used, Held, HeldAt, Shrunk, SetAddr;
    if k == NDIRECT then
      ShrunkNothing(s, i);
      s
    else if s.inodes[i].addrs[k] != 0 then
      FreesDirect(s, i, k);
      var u := SetAddr(Bfree(s, s.inodes[i].addrs[k]), i, k, 0);
      var t := FreeDirect(u, i, k + 1);
      ShrunkTwice(s, u, t, i);
      t
    else FreeDirect(s, i, k + 1)
  }

  /** t holds what s held except some blocks of inode i; other inodes and their data are as
      they were. */
  ghost predicate Shrunk(s: State, t: State, i: nat) {
    && Own(s) && Own(t) && t.sb == s.sb && SameSizes(s, t) && i in s.inodes
    && (forall sl :: sl in Held(t) ==> sl in Held(s) && Held(t)[sl] == Held(s)[sl])
    && (forall sl :: sl in Held(s) && sl.inum != i ==> sl in Held(t))
    && (forall c :: s.sb.nmeta <= c < |s.blocks| ==> t.blocks[c] == s.blocks[c])
  }

  lemma ShrunkNothing(s: State, i: nat)
    requires Own(s) && i in s.inodes
    ensures Shrunk(s, s, i)
  {
  }

  lemma ShrunkTwice(s: State, t: State, u: State, i: nat)
    requires Shrunk(s, t, i) && Shrunk(t, u, i)
    ensures Shrunk(s, u, i)
  {
    hide Owns, Held;
  }

  lemma FreesDirect(s: State, i: nat, k: nat)
    requires Own(s) && i in s.inodes && k < NDIRECT && s.inodes[i].addrs[k] != 0
    ensures s.inodes[i].addrs[k] < s.sb.size && Used(s, s.inodes[i].addrs[k])
    ensures i in Bfree(s, s.inodes[i].addrs[k]).inodes
    ensures Shrunk(s, SetAddr(Bfree(s, s.inodes[i].addrs[k]), i, k, 0), i)
    ensures SetAddr(Bfree(s, s.inodes[i].addrs[k]), i, k, 0).inodes[i].addrs == s.inodes[i].addrs[k := 0]
  {
    hide Used, Held, HeldAt, Bfree;
    var b, sl := s.inodes[i].addrs[k], Slot(i, k);
    AddrHeld(s, i, k);
    NotHeld(s, sl);
    BfreeReleases(s, Held(s), sl);
    var m := Bfree(s, b);
    IndirectSame(s, m);
    HeldFrame(s, m);
    var t := SetAddr(m, i, k, 0);
    SetAddrOwns(m, Held(s) - {sl}, i, k, 0);
    ClearAddr(m, t, i, k);
  }

  lemma IndirectSame(s: State, t: State)
    requires Own(s) && OnlyBitmap(s, t)
    ensures forall i :: i in s.inodes && s.inodes[i].addrs[NDIRECT] != 0 ==>
      t.blocks[s.inodes[i].addrs[NDIRECT]] == s.blocks[s.inodes[i].addrs[NDIRECT]]
  {
    hide Used, Held, HeldAt;
    forall i | i in s.inodes && s.inodes[i].addrs[NDIRECT] != 0
      ensures s.sb.nmeta <= s.inodes[i].addrs[NDIRECT]
    {
      IndirectHeld(s, Held(s), i);
    }
  }

  lemma ClearAt(s: State, t: State, i: nat, k: nat, sl: Slot)
    requires Wf(s) && Wf(t) && i in s.inodes && k < NDIRECT && t == SetAddr(s, i, k, 0)
    requires sl.inum in s.inodes && sl.k < NSLOTS
    ensures HeldAt(t, sl) == if sl == Slot(i, k) then 0 else HeldAt(s, sl)
  {
  }

  lemma ClearAddr(s: State, t: State, i: nat, k: nat)
    requires Wf(s) && Wf(t) && i in s.inodes && k < NDIRECT && t == SetAddr(s, i, k, 0)
    ensures Held(t) == Held(s) - {Slot(i, k)}
  {
    hide HeldAt, Wf;
    assert t.inodes.Keys == s.inodes.Keys;
    forall sl | sl in AllSlots(s.inodes.Keys)
      ensures HeldAt(t, sl) == if sl == Slot(i, k) then 0 else HeldAt(s, sl)
    {
      ClearAt(s, t, i, k, sl);
    }
  }

  // ---- itrunc as a whole ----

  /** The blocks behind the indirect block, then the indirect block itself. */
  ghost function FreeIndirect(s: State, i: nat): (t: State)
    requires Own(s) && i in s.inodes && s.inodes[i].addrs[NDIRECT] != 0
    requires forall m :: 0 <= m < NDIRECT ==> s.inodes[i].addrs[m] == 0
    ensures Shrunk(s, t, i)
    ensures i in t.inodes && forall m :: 0 <= m <= NDIRECT ==> t.inodes[i].addrs[m] == 0
  {
    hide Owns, Used, Held, HeldAt, Shrunk, FreeEntries, Word;
    var ind := s.inodes[i].addrs[NDIRECT];
    EntriesHeld(s, i);
    var u := FreeEntries(s, Held(s), i, s.blocks[ind], 0);
    IndirectStays(s, u, i);
    IndirectGone(s, u, i);
    SetAddr(Bfree(u, ind), i, NDIRECT, 0)
  }

  lemma EntriesHeld(s: State, i: nat)
    requires Own(s) && i in s.inodes && s.inodes[i].addrs[NDIRECT] != 0
    ensures HoldsEntries(Held(s), i, s.blocks[s.inodes[i].addrs[NDIRECT]], 0)
  {
  }

  lemma IndirectStays(s: State, u: State, i: nat)
    requires Own(s) && i in s.inodes && s.inodes[i].addrs[NDIRECT] != 0
    requires Owns(u, Held(s) - Entries(i, 0)) && OnlyBitmap(s, u)
    ensures var ind := s.inodes[i].addrs[NDIRECT];
      var h := Held(s) - Entries(i, 0) - {Slot(i, NDIRECT)};
      && Wf(u) && ind < u.sb.size && Used(u, ind) && i in Bfree(u, ind).inodes
      && Owns(Bfree(u, ind), h) && OnlyBitmap(s, Bfree(u, ind))
      && Held(Bfree(u, ind)) == Held(s)
  {
    hide Used, Held, HeldAt, Bfree;
    var ind := s.inodes[i].addrs[NDIRECT];
    AddrHeld(s, i, NDIRECT);
    NotHeld(s, Slot(i, NDIRECT));
    BfreeReleases(u, Held(s) - Entries(i, 0), Slot(i, NDIRECT));
    IndirectSame(s, Bfree(u, ind));
    HeldFrame(s, Bfree(u, ind));
  }

  lemma IndirectGone(s: State, u: State, i: nat)
    requires Own(s) && i in s.inodes && s.inodes[i].addrs[NDIRECT] != 0
    requires forall m :: 0 <= m < NDIRECT ==> s.inodes[i].addrs[m] == 0
    requires var ind := s.inodes[i].addrs[NDIRECT];
      var h := Held(s) - Entries(i, 0) - {Slot(i, NDIRECT)};
      && Wf(u) && ind < u.sb.size && Used(u, ind) && OnlyBitmap(s, Bfree(u, ind))
      && Owns(Bfree(u, ind), h) && Held(Bfree(u, ind)) == Held(s)
    ensures Shrunk(s, SetAddr(Bfree(u, s.inodes[i].addrs[NDIRECT]), i, NDIRECT, 0), i)
  {
    hide Used, Held, HeldAt, Bfree, Entries;
    var m := Bfree(u, s.inodes[i].addrs[NDIRECT]);
    var h := Held(s) - Entries(i, 0) - {Slot(i, NDIRECT)};
    var t := SetAddr(m, i, NDIRECT, 0);
    SetAddrOwns(m, h, i, NDIRECT, 0);
    ClearIndirect(m, t, i);
    EntriesOf(Held(s), i);
  }

  lemma EntriesOf(h: map<Slot, nat>, i: nat)
    ensures forall sl :: sl in h - Entries(i, 0) - {Slot(i, NDIRECT)} ==> sl in h && h[sl] == (h - Entries(i, 0) - {Slot(i, NDIRECT)})[sl]
    ensures forall sl :: sl in h && sl.inum != i ==> sl in h - Entries(i, 0) - {Slot(i, NDIRECT)}
  {
  }

  lemma ClearIndirectAt(s: State, t: State, i: nat, sl: Slot)
    requires Wf(s) && Wf(t) && i in s.inodes && t == SetAddr(s, i, NDIRECT, 0)
    requires forall m :: 0 <= m < NDIRECT ==> s.inodes[i].addrs[m] == 0
    requires sl.inum in s.inodes && sl.k < NSLOTS
    ensures HeldAt(t, sl) == if sl.inum == i then 0 else HeldAt(s, sl)
  {
  }

  lemma ClearIndirect(s: State, t: State, i: nat)
    requires Wf(s) && Wf(t) && i in s.inodes && t == SetAddr(s, i, NDIRECT, 0)
    requires forall m :: 0 <= m < NDIRECT ==> s.inodes[i].addrs[m] == 0
    ensures Held(t) == Held(s) - Entries(i, 0) - {Slot(i, NDIRECT)}
  {
    hide HeldAt, Wf;
    assert t.inodes.Keys == s.inodes.Keys;
    forall sl | sl in AllSlots(s.inodes.Keys)
      ensures HeldAt(t, sl) == if sl.inum == i then 0 else HeldAt(s, sl)
      ensures sl.inum == i && sl.k < NDIRECT ==> HeldAt(s, sl) == 0
    {
      ClearIndirectAt(s, t, i, sl);
      AddrHeldZero(s, i, sl);
    }
  }

  lemma AddrHeldZero(s: State, i: nat, sl: Slot)
    requires Wf(s) && i in s.inodes && forall m :: 0 <= m < NDIRECT ==> s.inodes[i].addrs[m] == 0
    requires sl.inum in s.inodes && sl.k < NSLOTS
    ensures sl.inum == i && sl.k < NDIRECT ==> HeldAt(s, sl) == 0
  {
  }

  /** itrunc: the inode gives up every block it holds. */
  ghost function Itrunc(s: State, i: nat): State
    requires Own(s) && i in s.inodes
  {
    hide Owns, Used, Held, HeldAt, Shrunk;
    var t := FreeDirect(s, i, 0);
    ShrunkKeys(s, t, i);
    var u := if t.inodes[i].addrs[NDIRECT] != 0 then FreeIndirect(t, i) else t;
    SetSize(u, i, 0)
  }

  lemma ShrunkKeys(s: State, t: State, i: nat)
    requires Shrunk(s, t, i)
    ensures Own(t) && t.inodes.Keys == s.inodes.Keys
  {
  }

  ghost predicate Freed(s: State, t: State, i: nat)
    requires Own(s) && Own(t)
  {
    && (forall sl :: sl in Held(t) <==> sl in Held(s) && sl.inum != i)
    && (forall sl :: sl in Held(t) ==> Held(t)[sl] == Held(s)[sl])
  }

  lemma TruncHolds(s: State, i: nat)
    requires Own(s) && i in s.inodes
    ensures Own(Itrunc(s, i)) && i in Itrunc(s, i).inodes && Freed(s, Itrunc(s, i), i)
    ensures forall c :: s.sb.nmeta <= c < |s.blocks| ==> Itrunc(s, i).blocks[c] == s.blocks[c]
    ensures Itrunc(s, i).inodes.Keys == s.inodes.Keys && Itrunc(s, i).sb == s.sb
    ensures forall j :: j in s.inodes ==> Itrunc(s, i).inodes[j].size == if j == i then 0 else s.inodes[j].size
  {
    hide Owns, Used, Held, HeldAt, FreeDirect, FreeIndirect;
    var t := FreeDirect(s, i, 0);
    var u := if t.inodes[i].addrs[NDIRECT] != 0 then FreeIndirect(t, i) else t;
    if t.inodes[i].addrs[NDIRECT] != 0 {
      ShrunkTwice(s, t, u, i);
    }
    SetSizeOwns(u, i, 0);
    NothingHeld(u, i);
  }

  lemma NothingHeld(s: State, i: nat)
    requires Own(s) && i in s.inodes && forall m :: 0 <= m <= NDIRECT ==> s.inodes[i].addrs[m] == 0
    ensures forall sl :: sl in Held(s) ==> sl.inum != i
  {
  }

  lemma FreedContent(s: State, t: State, i: nat)
    requires Inv(s) && Own(t) && i in s.inodes && Freed(s, t, i) && t.inodes.Keys == s.inodes.Keys && t.sb == s.sb
    requires forall c :: s.sb.nmeta <= c < |s.blocks| ==> t.blocks[c] == s.blocks[c]
    requires forall j :: j in s.inodes ==> t.inodes[j].size == if j == i then 0 else s.inodes[j].size
    ensures OnlyFile(s, t, i, [])
  {
    hide Used, HeldAt, Held;
    forall j, x: nat | j in s.inodes && j != i && x < s.inodes[j].size
      ensures HasByte(s, j, x) && HasByte(t, j, x) && Raw(t, j, x) == Raw(s, j, x)
    {
      BelowSize(s, j, x);
    }
    FreedMapped(s, t, i);
  }

  lemma FreedMapped(s: State, t: State, i: nat)
    requires Inv(s) && Own(t) && i in s.inodes && t.inodes.Keys == s.inodes.Keys && t.sb == s.sb
    requires forall j :: j in s.inodes ==> t.inodes[j].size == if j == i then 0 else s.inodes[j].size
    requires forall j, x: nat :: j in s.inodes && j != i && x < s.inodes[j].size ==> HasByte(t, j, x)
    ensures Inv(t)
  {
    hide Owns, Used, HeldAt, Held;
    forall j, bn: nat | j in t.inodes && bn * BSIZE < t.inodes[j].size && bn < MAXFILE
      ensures HeldAt(t, Slot(j, FileSlot(bn))) != 0
    {
      assert HasByte(t, j, bn * BSIZE) && bn * BSIZE / BSIZE == bn;
      NotHeld(t, Slot(j, FileSlot(bn)));
    }
  }

  /** itrunc empties file i and leaves the other files alone; no place of i holds a block any
      more, every other place holds what it held. */
  lemma ItruncEmpties(s: State, i: nat)
    requires Inv(s) && i in s.inodes
    ensures OnlyFile(s, Itrunc(s, i), i, [])
    ensures Freed(s, Itrunc(s, i), i)
  {
    hide Owns, Mapped, Used, Held, HeldAt, Itrunc, OnlyFile, Freed;
    TruncHolds(s, i);
    FreedContent(s, Itrunc(s, i), i);
  }

  /** itrunc clears exactly the bits of the blocks that the inode held. */
  lemma ItruncClearsBits(s: State, i: nat, b: nat)
    requires Inv(s) && i in s.inodes && b < s.sb.size
    ensures Wf(Itrunc(s, i)) && Itrunc(s, i).sb == s.sb
    ensures Used(Itrunc(s, i), b) <==> Used(s, b) && !exists sl :: sl in Held(s) && sl.inum == i && Held(s)[sl] == b
  {
    hide Used, Held, HeldAt, Itrunc;
    TruncHolds(s, i);
    var t := Itrunc(s, i);
    if Used(s, b) && b >= s.sb.nmeta {
      var sl :| sl in Held(s) && Held(s)[sl] == b;
      if sl.inum != i { assert Held(t)[sl] == b; }
    }
    if Used(t, b) && b >= s.sb.nmeta {
      var sl :| sl in Held(t) && Held(t)[sl] == b;
      assert Held(s)[sl] == b;
    }
  }
}
