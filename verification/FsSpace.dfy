/** Block allocation of fs.c: the bitmap, the block numbers held by inodes and their indirect
    blocks, and the steps of balloc, bfree, bmap and itrunc on them. */
module FsSpace {
  import opened FsLayout

  /** In-memory inode: addrs[12] is the indirect block. */
  datatype Inode = Inode(addrs: seq<nat>, size: nat)

  /** size is sb.size; data blocks start at nmeta. */
  datatype Super = Super(size: nat, inodestart: nat, bmapstart: nat, nmeta: nat)

  /** logged holds the blocks given to log_write since begin_op. */
  datatype State = State(sb: Super, blocks: seq<Block>, inodes: map<nat, Inode>, logged: set<nat>)

  /** Places that hold block numbers: k <= 12 is addrs[k], k >= 13 is word k - 13 of the
      indirect block. */
  datatype Slot = Slot(inum: nat, k: nat)

  const NSLOTS: nat := NDIRECT + 1 + NINDIRECT

  function FileSlot(bn: nat): nat { if bn < NDIRECT then bn else bn + 1 }

  function IBlock(sb: Super, i: nat): nat { i / 16 + sb.inodestart }

  predicate Geometry(sb: Super) {
    0 < sb.nmeta <= sb.size < UINT && sb.bmapstart + (sb.size - 1) / BPB < sb.nmeta
  }

  /** The bitmap block that holds the bit of block b. */
  function BBlock(sb: Super, b: nat): (bb: nat)
    requires Geometry(sb) && b < sb.size
    ensures bb < sb.nmeta
  {
    assert b / BPB <= (sb.size - 1) / BPB;
    b / BPB + sb.bmapstart
  }

  predicate Wf(s: State) {
    && Geometry(s.sb) && |s.blocks| == s.sb.size
    && (forall i :: i in s.inodes ==> |s.inodes[i].addrs| == NDIRECT + 1)
    && (forall i :: i in s.inodes ==> s.inodes[i].addrs[NDIRECT] < s.sb.size)
  }

  predicate Used(s: State, b: nat)
    requires Wf(s) && b < s.sb.size
  {
    Bit(s.blocks[BBlock(s.sb, b)], b % BPB)
  }

  function HeldAt(s: State, sl: Slot): nat
    requires Wf(s) && sl.inum in s.inodes && sl.k < NSLOTS
  {
    var addrs := s.inodes[sl.inum].addrs;
    if sl.k <= NDIRECT then addrs[sl.k]
    else if addrs[NDIRECT] == 0 then 0
    else Word(s.blocks[addrs[NDIRECT]], sl.k - NDIRECT - 1)
  }

  function AllSlots(inums: set<nat>): set<Slot> {
    set i, k: nat | i in inums && k < NSLOTS :: Slot(i, k)
  }

  /** Every block number in use, by the place that holds it. */
  function Held(s: State): map<Slot, nat>
    requires Wf(s)
  {
    map sl | sl in AllSlots(s.inodes.Keys) && HeldAt(s, sl) != 0 :: HeldAt(s, sl)
  }

  // ---- exclusive ownership ----

  /** The bitmap and the holders h agree exactly: a bit is set for the blocks before nmeta and
      for the held blocks, and no block is held twice. */
  ghost predicate Owns(s: State, h: map<Slot, nat>) {
    && Wf(s)
    && (forall sl :: sl in h ==> s.sb.nmeta <= h[sl] < s.sb.size)
    && (forall sl, sl' :: sl in h && sl' in h && h[sl] == h[sl'] ==> sl == sl')
    && (forall b :: 0 <= b < s.sb.size ==> (Used(s, b) <==> b < s.sb.nmeta || b in h.Values))
  }

  ghost predicate Own(s: State) {
    Wf(s) && Owns(s, Held(s))
  }

  /** The block of the file at block index bn exists for every byte below size. */
  ghost predicate Mapped(s: State)
    requires Wf(s)
  {
    forall i :: i in s.inodes ==>
      && s.inodes[i].size <= MAXFILE * BSIZE
      && forall bn: nat :: bn * BSIZE < s.inodes[i].size && bn < MAXFILE ==> HeldAt(s, Slot(i, FileSlot(bn))) != 0
  }

  ghost predicate Inv(s: State) {
    Own(s) && Mapped(s)
  }

  // ---- balloc and bfree ----

  /** The first block from b on whose bit is clear, or 0. */
  function FirstFree(s: State, b: nat): (r: nat)
    requires Wf(s) && b <= s.sb.size
    ensures r == 0 || (b <= r < s.sb.size && !Used(s, r) && forall c :: b <= c < r ==> Used(s, c))
    ensures r == 0 && (b > 0 || Used(s, 0)) ==> forall c :: b <= c < s.sb.size ==> Used(s, c)
    decreases s.sb.size - b
  {
    if b == s.sb.size then 0 else if !Used(s, b) then b else FirstFree(s, b + 1)
  }

  function Mark(s: State, b: nat, on: bool): State
    requires Wf(s) && b < s.sb.size
  {
    var bb := BBlock(s.sb, b);
    State(s.sb, s.blocks[bb := WithBit(s.blocks[bb], b % BPB, on)], s.inodes, s.logged + {bb})
  }

  function Put(s: State, b: nat, data: Block): State
    requires b < |s.blocks|
  {
    State(s.sb, s.blocks[b := data], s.inodes, s.logged + {b})
  }

  /** balloc: the block number is 0 when the disk is full. */
  function Balloc(s: State): (State, nat)
    requires Wf(s)
  {
    var b := FirstFree(s, 0);
    if b == 0 then (s, 0) else (Put(Mark(s, b, true), b, Zero()), b)
  }

  /** bfree; the source panics when the bit is already clear. */
  function Bfree(s: State, b: nat): State
    requires Wf(s) && b < s.sb.size && Used(s, b)
  {
    Mark(s, b, false)
  }

  lemma SameBit(sb: Super, b: nat, c: nat)
    requires Geometry(sb) && b < sb.size && c < sb.size
    requires BBlock(sb, b) == BBlock(sb, c) && b % BPB == c % BPB
    ensures b == c
  {
  }

  lemma MarkUsed(s: State, b: nat, on: bool, c: nat)
    requires Wf(s) && b < s.sb.size && c < s.sb.size
    ensures Wf(Mark(s, b, on))
    ensures Used(Mark(s, b, on), c) == if c == b then on else Used(s, c)
  {
    hide Bit, WithBit;
    BitWithBit(s.blocks[BBlock(s.sb, b)], b % BPB, on, c % BPB);
    if b % BPB == c % BPB && BBlock(s.sb, b) == BBlock(s.sb, c) {
      SameBit(s.sb, b, c);
    }
  }

  /** Blocks from nmeta on play no part in the bitmap. */
  lemma PutUsed(s: State, b: nat, data: Block, c: nat)
    requires Wf(s) && s.sb.nmeta <= b < s.sb.size && c < s.sb.size
    ensures Wf(Put(s, b, data))
    ensures Used(Put(s, b, data), c) == Used(s, c)
  {
  }

  ghost predicate Full(s: State)
    requires Wf(s)
  {
    forall c :: 0 <= c < s.sb.size ==> Used(s, c)
  }

  /** Blocks other than b and bitmap blocks are as they were. */
  ghost predicate OnlyBlock(s: State, t: State, b: nat) {
    && t.sb == s.sb && t.inodes == s.inodes && |t.blocks| == |s.blocks|
    && forall c :: s.sb.nmeta <= c < |s.blocks| && c != b ==> t.blocks[c] == s.blocks[c]
  }

  /** balloc returns the first block whose bit is clear, zeroed, which nobody held, and 0 only when every
      bit is set. */
  lemma BallocTakes(s: State, h: map<Slot, nat>, sl: Slot, t: State, b: nat)
    requires Owns(s, h) && sl !in h && (t, b) == Balloc(s)
    ensures b == 0 ==> t == s && Full(s)
    ensures b != 0 ==>
      && b !in h.Values && s.sb.nmeta <= b < s.sb.size && OnlyBlock(s, t, b)
      && (forall c :: 0 <= c < b ==> Used(s, c))
      && t.blocks[b] == Zero() && Owns(t, h[sl := b])
      && t.logged == s.logged + {b, BBlock(s.sb, b)}
  {
    hide Bit, WithBit;
    assert Used(s, 0);
    if b != 0 {
      assert !Used(s, b) && b in {b};
      var m := Mark(s, b, true);
        forall c | 0 <= c < s.sb.size
        ensures Wf(t) && Used(t, c) == (c == b || Used(s, c))
      {
        MarkUsed(s, b, true, c);
        PutUsed(m, b, Zero(), c);
      }
      TakeOwns(s, h, sl, t, b);
    }
  }

  lemma TakeOwns(s: State, h: map<Slot, nat>, sl: Slot, t: State, b: nat)
    requires Owns(s, h) && sl !in h && s.sb.nmeta <= b < s.sb.size && !Used(s, b)
    requires Wf(t) && t.sb == s.sb && forall c :: 0 <= c < s.sb.size ==> Used(t, c) == (c == b || Used(s, c))
    ensures b !in h.Values && Owns(t, h[sl := b])
  {
    hide Used, Wf;
    var h' := h[sl := b];
    assert h'[sl] == b;
    forall c | c in h.Values
      ensures c in h'.Values
    {
      var x :| x in h && h[x] == c;
      assert h'[x] == c;
    }
    assert forall c :: c in h'.Values ==> c == b || c in h.Values;
  }

  /** bfree of a held block cannot panic and clears exactly that block's bit. */
  lemma BfreeReleases(s: State, h: map<Slot, nat>, sl: Slot)
    requires Owns(s, h) && sl in h
    ensures h[sl] < s.sb.size && Used(s, h[sl])
    ensures OnlyBlock(s, Bfree(s, h[sl]), h[sl])
    ensures Bfree(s, h[sl]).blocks[h[sl]] == s.blocks[h[sl]]
    ensures Owns(Bfree(s, h[sl]), h - {sl})
  {
    hide Bit, WithBit;
    var b := h[sl];
    assert b in h.Values;
    var t := Mark(s, b, false);
    forall c | 0 <= c < s.sb.size
      ensures Wf(t) && Used(t, c) == (c != b && Used(s, c))
    {
      MarkUsed(s, b, false, c);
    }
    ReleaseOwns(s, h, sl, t);
  }

  lemma ReleaseOwns(s: State, h: map<Slot, nat>, sl: Slot, t: State)
    requires Owns(s, h) && sl in h
    requires Wf(t) && t.sb == s.sb && forall c :: 0 <= c < s.sb.size ==> Used(t, c) == (c != h[sl] && Used(s, c))
    ensures Owns(t, h - {sl})
  {
    hide Used, Wf;
    var h' := h - {sl};
    forall c | c in h.Values && c != h[sl]
      ensures c in h'.Values
    {
      var x :| x in h && h[x] == c;
      assert h'[x] == c;
    }
    forall c | c in h'.Values
      ensures c in h.Values && c != h[sl]
    {
      var x :| x in h' && h'[x] == c;
      assert h[x] == c;
    }
  }

  // ---- bmap ----

  /** balloc a block for the empty place (i, k): into addrs[k], or into the indirect block,
      which must exist by then. */
  function AllocTo(s: State, i: nat, k: nat): (r: (State, nat))
    requires Wf(s) && i in s.inodes && k < NSLOTS
    requires k > NDIRECT ==> s.inodes[i].addrs[NDIRECT] != 0
  {
    var (t, b) := Balloc(s);
    if b == 0 then (t, 0)
    else if k <= NDIRECT then (SetAddr(t, i, k, b), b)
    else
      var ind := s.inodes[i].addrs[NDIRECT];
      (Put(t, ind, WithWord(t.blocks[ind], k - NDIRECT - 1, b)), b)
  }

  function SetAddr(s: State, i: nat, k: nat, b: nat): State
    requires i in s.inodes && k < |s.inodes[i].addrs|
  {
    var ip := s.inodes[i];
    State(s.sb, s.blocks, s.inodes[i := Inode(ip.addrs[k := b], ip.size)], s.logged)
  }

  function GetOrAlloc(s: State, i: nat, k: nat): (State, nat)
    requires Wf(s) && i in s.inodes && k < NSLOTS
    requires k > NDIRECT ==> s.inodes[i].addrs[NDIRECT] != 0
  {
    var b := HeldAt(s, Slot(i, k));
    if b != 0 then (s, b) else AllocTo(s, i, k)
  }

  /** bmap: the block number of the bn-th block of the file, allocated if there is none; 0 when
      the disk is full. */
  function Bmap(s: State, i: nat, bn: nat): (State, nat)
    requires Own(s) && i in s.inodes && bn < MAXFILE
  {
    if bn < NDIRECT then GetOrAlloc(s, i, bn)
    else
      var (t, ind) := GetOrAlloc(s, i, NDIRECT);
      if ind == 0 then (t, 0)
      else
        GetOrAllocGrows(s, i, NDIRECT, t, ind);
        GetOrAlloc(t, i, bn + 1)
  }

  /** t holds every block that s held, at the same places, and the data blocks are unchanged. */
  ghost predicate Grew(s: State, t: State) {
    && Own(s) && Own(t) && t.sb == s.sb && t.inodes.Keys == s.inodes.Keys
    && (forall j :: j in s.inodes ==> t.inodes[j].size == s.inodes[j].size)
    && (forall sl :: sl in Held(s) ==>
          && sl in Held(t) && Held(t)[sl] == Held(s)[sl]
          && (sl.k != NDIRECT ==> t.blocks[Held(s)[sl]] == s.blocks[Held(s)[sl]]))
  }

  lemma GrewTwice(s: State, t: State, u: State)
    requires Grew(s, t) && Grew(t, u)
    ensures Grew(s, u)
  {
  }

  ghost predicate Within(s: State, h: map<Slot, nat>)
    requires Wf(s)
  {
    forall sl :: sl in Held(s) ==> sl in h && h[sl] == Held(s)[sl]
  }

  /** Indirect blocks are data-area blocks, a different one for each inode. */
  lemma IndirectHeld(s: State, h: map<Slot, nat>, i: nat)
    requires Owns(s, h) && Within(s, h) && i in s.inodes && s.inodes[i].addrs[NDIRECT] != 0
    ensures Slot(i, NDIRECT) in h && h[Slot(i, NDIRECT)] == s.inodes[i].addrs[NDIRECT]
    ensures s.inodes[i].addrs[NDIRECT] in h.Values && s.sb.nmeta <= s.inodes[i].addrs[NDIRECT]
    ensures forall sl :: sl in h && h[sl] == s.inodes[i].addrs[NDIRECT] ==> sl == Slot(i, NDIRECT)
  {
  }

  /** Held depends on the inodes and on the indirect blocks only. */
  lemma HeldFrame(s: State, t: State)
    requires Wf(s) && Wf(t) && t.sb == s.sb && t.inodes == s.inodes
    requires forall i :: i in s.inodes && s.inodes[i].addrs[NDIRECT] != 0 ==>
      t.blocks[s.inodes[i].addrs[NDIRECT]] == s.blocks[s.inodes[i].addrs[NDIRECT]]
    ensures Held(t) == Held(s)
  {
  }

  /** Filling the empty place (i, k) changes no other place. */
  lemma PointAddr(s: State, t: State, i: nat, k: nat, b: nat)
    requires Wf(s) && Wf(t) && i in s.inodes && k <= NDIRECT && 0 < b < s.sb.size
    requires t == SetAddr(s, i, k, b)
    requires k == NDIRECT ==> s.inodes[i].addrs[k] == 0 && s.blocks[b] == Zero()
    ensures Held(t) == Held(s)[Slot(i, k) := b]
  {
    forall sl | sl in AllSlots(s.inodes.Keys)
      ensures HeldAt(t, sl) == if sl == Slot(i, k) then b else HeldAt(s, sl)
    {
    }
    assert Slot(i, k) in AllSlots(s.inodes.Keys);
    hide HeldAt;
  }

  lemma PointWord(s: State, h: map<Slot, nat>, t: State, i: nat, k: nat, b: nat)
    requires Owns(s, h) && Within(s, h) && Wf(t) && i in s.inodes && NDIRECT < k < NSLOTS && 0 < b < s.sb.size
    requires s.inodes[i].addrs[NDIRECT] != 0
    requires t.sb == s.sb && t.inodes == s.inodes
    requires var ind := s.inodes[i].addrs[NDIRECT];
             t.blocks == s.blocks[ind := WithWord(s.blocks[ind], k - NDIRECT - 1, b)]
    ensures Held(t) == Held(s)[Slot(i, k) := b]
  {
    hide Word, WithWord, Used;
    IndirectHeld(s, h, i);
    forall sl | sl in AllSlots(s.inodes.Keys)
      ensures HeldAt(t, sl) == if sl == Slot(i, k) then b else HeldAt(s, sl)
    {
      if sl.k > NDIRECT && s.inodes[sl.inum].addrs[NDIRECT] != 0 {
        IndirectHeld(s, h, sl.inum);
        if sl.inum == i {
          WordWithWord(s.blocks[s.inodes[i].addrs[NDIRECT]], k - NDIRECT - 1, b, sl.k - NDIRECT - 1);
        }
      }
    }
    assert Slot(i, k) in AllSlots(s.inodes.Keys);
  }

  lemma OwnsFrame(s: State, t: State, h: map<Slot, nat>)
    requires Owns(s, h) && Wf(t) && t.sb == s.sb && forall c :: 0 <= c < s.sb.size ==> Used(t, c) == Used(s, c)
    ensures Owns(t, h)
  {
  }

  /** Writing a data-area block keeps the bitmap and so any ownership. */
  lemma PutOwns(s: State, h: map<Slot, nat>, b: nat, data: Block)
    requires Owns(s, h) && s.sb.nmeta <= b < s.sb.size
    ensures Owns(Put(s, b, data), h)
  {
    forall c | 0 <= c < s.sb.size
      ensures Wf(Put(s, b, data)) && Used(Put(s, b, data), c) == Used(s, c)
    {
      PutUsed(s, b, data, c);
    }
    hide Used;
    assert Wf(Put(s, b, data)) by { PutUsed(s, b, data, 0); }
    OwnsFrame(s, Put(s, b, data), h);
  }

  lemma SetAddrOwns(s: State, h: map<Slot, nat>, i: nat, k: nat, b: nat)
    requires Owns(s, h) && i in s.inodes && k <= NDIRECT && b < s.sb.size
    ensures Owns(SetAddr(s, i, k, b), h)
  {
    var t := SetAddr(s, i, k, b);
    assert Wf(t);
    forall c | 0 <= c < s.sb.size
      ensures Used(t, c) == Used(s, c)
    {
    }
    hide Used, SetAddr;
    OwnsFrame(s, t, h);
  }

  /** balloc touches no inode, no indirect block and no data block in use. */
  lemma BallocGrows(s: State, m: State, sl: Slot, b: nat)
    requires Own(s) && sl !in Held(s) && (m, b) == Balloc(s) && b != 0
    ensures OnlyBlock(s, m, b) && s.sb.nmeta <= b < s.sb.size && b !in Held(s).Values && m.blocks[b] == Zero()
    ensures Owns(m, Held(s)[sl := b]) && Held(m) == Held(s)
    ensures forall x :: x in Held(s) ==> m.blocks[Held(s)[x]] == s.blocks[Held(s)[x]]
  {
    hide Used, HeldAt, Balloc;
    BallocTakes(s, Held(s), sl, m, b);
    forall i | i in s.inodes && s.inodes[i].addrs[NDIRECT] != 0
      ensures m.blocks[s.inodes[i].addrs[NDIRECT]] == s.blocks[s.inodes[i].addrs[NDIRECT]]
    {
      IndirectHeld(s, Held(s), i);
    }
    HeldFrame(s, m);
    forall x | x in Held(s)
      ensures Held(s)[x] != b
    {
      assert Held(s)[x] in Held(s).Values;
    }
  }

  lemma NotHeld(s: State, sl: Slot)
    requires Wf(s) && sl.inum in s.inodes && sl.k < NSLOTS
    ensures sl !in Held(s) <==> HeldAt(s, sl) == 0
    ensures sl in Held(s) ==> Held(s)[sl] == HeldAt(s, sl)
  {
  }

  lemma AddrHeld(s: State, i: nat, k: nat)
    requires Wf(s) && i in s.inodes && k <= NDIRECT
    ensures HeldAt(s, Slot(i, k)) == s.inodes[i].addrs[k]
  {
  }

  ghost predicate SameSizes(s: State, t: State) {
    t.inodes.Keys == s.inodes.Keys && forall j :: j in s.inodes ==> t.inodes[j].size == s.inodes[j].size
  }

  lemma AllocAddrGrows(s: State, m: State, i: nat, k: nat, b: nat)
    requires Own(s) && i in s.inodes && k <= NDIRECT && s.inodes[i].addrs[k] == 0
    requires Wf(m) && Held(m) == Held(s) && Owns(m, Held(s)[Slot(i, k) := b]) && 0 < b < s.sb.size
    requires m.sb == s.sb && m.inodes == s.inodes && m.blocks[b] == Zero()
    ensures var t := SetAddr(m, i, k, b);
      Own(t) && Held(t) == Held(s)[Slot(i, k) := b] && SameSizes(s, t) && t.blocks == m.blocks
  {
    SetAddrOwns(m, Held(s)[Slot(i, k) := b], i, k, b);
    PointAddr(m, SetAddr(m, i, k, b), i, k, b);
    hide Used, Held, Owns;
  }

  lemma AllocWordGrows(s: State, m: State, i: nat, k: nat, b: nat)
    requires Own(s) && i in s.inodes && NDIRECT < k < NSLOTS && s.inodes[i].addrs[NDIRECT] != 0
    requires Wf(m) && Held(m) == Held(s) && Slot(i, k) !in Held(s)
    requires Owns(m, Held(s)[Slot(i, k) := b]) && 0 < b < s.sb.size
    requires m.sb == s.sb && m.inodes == s.inodes
    ensures var ind := s.inodes[i].addrs[NDIRECT];
      var t := Put(m, ind, WithWord(m.blocks[ind], k - NDIRECT - 1, b));
      && Own(t) && Held(t) == Held(s)[Slot(i, k) := b] && SameSizes(s, t)
      && ind in Held(s).Values && Slot(i, NDIRECT) in Held(s) && Held(s)[Slot(i, NDIRECT)] == ind
  {
    hide Used, Held, WithWord, Word, HeldAt;
    var ind := s.inodes[i].addrs[NDIRECT];
    var h := Held(s)[Slot(i, k) := b];
    IndirectHeld(s, Held(s), i);
    PutOwns(m, h, ind, WithWord(m.blocks[ind], k - NDIRECT - 1, b));
    PointWord(m, h, Put(m, ind, WithWord(m.blocks[ind], k - NDIRECT - 1, b)), i, k, b);
  }

  lemma GrewByOne(s: State, t: State, sl: Slot, b: nat)
    requires Own(s) && Own(t) && t.sb == s.sb && SameSizes(s, t) && sl !in Held(s) && Held(t) == Held(s)[sl := b]
    requires forall x :: x in Held(s) && x.k != NDIRECT ==> t.blocks[Held(s)[x]] == s.blocks[Held(s)[x]]
    ensures Grew(s, t)
  {
  }

  lemma AllocToGrows(s: State, i: nat, k: nat, t: State, b: nat)
    requires Own(s) && i in s.inodes && k < NSLOTS && HeldAt(s, Slot(i, k)) == 0
    requires k > NDIRECT ==> s.inodes[i].addrs[NDIRECT] != 0
    requires (t, b) == AllocTo(s, i, k)
    ensures Grew(s, t)
    ensures b == 0 ==> t == s && Full(s)
    ensures b != 0 ==> Held(t) == Held(s)[Slot(i, k) := b] && b !in Held(s).Values
  {
    hide Used, HeldAt, Held, Balloc, Word, WithWord, Owns, Full;
    var sl := Slot(i, k);
    NotHeld(s, sl);
    var (m, b') := Balloc(s);
    if b == 0 {
      BallocTakes(s, Held(s), sl, m, b);
    } else {
      BallocGrows(s, m, sl, b);
      if k <= NDIRECT {
        AddrHeld(s, i, k);
        AllocAddrGrows(s, m, i, k, b);
      } else {
        AllocWordGrows(s, m, i, k, b);
        OnlyIndirect(s, i);
      }
      GrewByOne(s, t, sl, b);
    }
  }

  /** No data block is an indirect block. */
  lemma OnlyIndirect(s: State, i: nat)
    requires Own(s) && i in s.inodes && s.inodes[i].addrs[NDIRECT] != 0
    ensures forall x :: x in Held(s) && x.k != NDIRECT ==> Held(s)[x] != s.inodes[i].addrs[NDIRECT]
    ensures forall x :: x in Held(s) ==> Held(s)[x] < |s.blocks|
  {
    hide Used, Held, HeldAt;
    IndirectHeld(s, Held(s), i);
  }

  /** A block that is there is returned unchanged; otherwise one that nobody held is added at
      this place only, or the disk is full. */
  lemma GetOrAllocGrows(s: State, i: nat, k: nat, t: State, b: nat)
    requires Own(s) && i in s.inodes && k < NSLOTS
    requires k > NDIRECT ==> s.inodes[i].addrs[NDIRECT] != 0
    requires (t, b) == GetOrAlloc(s, i, k)
    ensures Grew(s, t)
    ensures b == 0 ==> t == s && Full(s)
    ensures b != 0 ==> HeldAt(t, Slot(i, k)) == b
    ensures HeldAt(s, Slot(i, k)) != 0 ==> t == s && b == HeldAt(s, Slot(i, k))
    ensures HeldAt(s, Slot(i, k)) == 0 && b != 0 ==> Held(t) == Held(s)[Slot(i, k) := b] && b !in Held(s).Values
  {
    hide Used, HeldAt, Balloc, AllocTo, Owns, Full;
    if HeldAt(s, Slot(i, k)) == 0 {
      AllocToGrows(s, i, k, t, b);
      NotHeld(t, Slot(i, k));
    }
  }
}
