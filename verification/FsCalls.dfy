/** filewrite, and whole runs of reads, writes and truncations against files that are plain byte
    sequences. */
module FsCalls {
  import opened FsLayout
  import opened FsSpace
  import opened FsFile
  import opened FsChunk

  /** One transaction of filewrite. */
  ghost function WriteChunk(s: State, i: nat, off: nat, w: seq<byte>): (r: (State, int))
    requires Inv(s) && i in s.inodes
    ensures Inv(r.0) && r.0.inodes.Keys == s.inodes.Keys && -1 <= r.1 <= |w|
  {
    hide Owns, Mapped, Writei, Full, Content, Overwrite;
    BeginOpSame(s);
    var r := Writei(BeginOp(s), i, off, w);
    WriteiRefines(BeginOp(s), i, off, w, r.0, r.1);
    r
  }

  lemma WriteChunkWrites(s: State, i: nat, off: nat, w: seq<byte>, t: State, r: int)
    requires Inv(s) && i in s.inodes && (t, r) == WriteChunk(s, i, off, w)
    ensures r == -1 ==> OnlyFile(s, t, i, Content(s, i)) && (off > |Content(s, i)| || off + |w| > MAXBYTES)
    ensures r != -1 ==> off <= |Content(s, i)| && OnlyFile(s, t, i, Overwrite(Content(s, i), off, w[..r]))
    ensures r != -1 && r < |w| ==> Full(t)
  {
    hide Owns, Mapped, Writei, Full, Content, Overwrite;
    BeginOpSame(s);
    WriteiRefines(BeginOp(s), i, off, w, t, r);
  }

  /** filewrite of data at f->off == off: the state, the new f->off, and whether all was
      written. */
  ghost function FileWrite(s: State, i: nat, off: nat, data: seq<byte>): (r: (State, nat, bool))
    requires Inv(s) && i in s.inodes
    ensures Inv(r.0) && r.0.inodes.Keys == s.inodes.Keys
    decreases |data|
  {
    hide Owns, Mapped, WriteChunk;
    if data == [] then (s, off, true)
    else
      var n1 := if |data| > MAXCHUNK then MAXCHUNK else |data|;
      var (t, r) := WriteChunk(s, i, off, data[..n1]);
      var off' := if r > 0 then off + r else off;
      if r != n1 then (t, off', false) else FileWrite(t, i, off', data[n1..])
  }

  /** The bytes of data that reached the file. */
  ghost predicate FileWrote(s: State, i: nat, off: nat, data: seq<byte>, t: State, off': nat, ok: bool)
    requires Inv(s) && i in s.inodes
  {
    && off <= off' <= off + |data|
    && (off <= |Content(s, i)| ==> OnlyFile(s, t, i, Overwrite(Content(s, i), off, data[..off' - off])))
    && (off > |Content(s, i)| ==> off' == off && OnlyFile(s, t, i, Content(s, i)))
    && (ok <==> off' == off + |data|)
    && (!ok ==> off > |Content(s, i)| || off + |data| > MAXBYTES || Full(t))
  }

  lemma OverwriteTwice(c: seq<byte>, off: nat, data: seq<byte>, m: nat, n: nat)
    requires off <= |c| && m + n <= |data|
    ensures off + m <= |Overwrite(c, off, data[..m])|
    ensures Overwrite(Overwrite(c, off, data[..m]), off + m, data[m..][..n]) == Overwrite(c, off, data[..m + n])
  {
    assert data[..m] + data[m..][..n] == data[..m + n];
    var o, p := Overwrite(c, off, data[..m]), Overwrite(c, off, data[..m + n]);
    assert o[..off + m] == c[..off] + data[..m];
  }

  lemma OverwriteNothing(c: seq<byte>, off: nat)
    requires off <= |c|
    ensures Overwrite(c, off, []) == c
  {
  }

  /** filewrite writes a prefix of the data at the file's offset, advances the offset by exactly
      the bytes written, reports success if and only if that is all of them, and stops early only
      for an offset past the end, a file over the maximal size, or a full disk. */
  lemma {:induction false} FileWriteWrites(s: State, i: nat, off: nat, data: seq<byte>)
    requires Inv(s) && i in s.inodes
    ensures var (t, off', ok) := FileWrite(s, i, off, data); FileWrote(s, i, off, data, t, off', ok)
    decreases |data|
  {
    hide Owns, Mapped, WriteChunk, Full, Overwrite, Content, FileWrote, OnlyFile;
    if data == [] {
      WroteNone(s, i, off);
    } else {
      var n1 := if |data| > MAXCHUNK then MAXCHUNK else |data|;
      var (t, r) := WriteChunk(s, i, off, data[..n1]);
      WriteChunkWrites(s, i, off, data[..n1], t, r);
      if r == n1 {
        FileWriteWrites(t, i, off + n1, data[n1..]);
        var (u, off', ok) := FileWrite(t, i, off + n1, data[n1..]);
        WroteRest(s, i, off, data, n1, t, u, off', ok);
      } else {
        WroteFirst(s, i, off, data, n1, t, r);
      }
    }
  }

  lemma WroteFirst(s: State, i: nat, off: nat, data: seq<byte>, n1: nat, t: State, r: int)
    requires Inv(s) && i in s.inodes && 0 < n1 <= |data| && r < n1
    requires r == -1 ==> OnlyFile(s, t, i, Content(s, i)) && (off > |Content(s, i)| || off + n1 > MAXBYTES)
    requires r != -1 ==>
      && 0 <= r && off <= |Content(s, i)| && Wf(t) && Full(t)
      && OnlyFile(s, t, i, Overwrite(Content(s, i), off, data[..n1][..r]))
    ensures FileWrote(s, i, off, data, t, if r > 0 then off + r else off, false)
  {
    hide Owns, Mapped, Content, Full, Overwrite;
    if r <= 0 && off <= |Content(s, i)| {
      OverwriteNothing(Content(s, i), off);
      assert data[..0] == data[..n1][..0] == [];
    } else if r > 0 {
      assert data[..r] == data[..n1][..r];
    }
  }

  lemma WroteRest(s: State, i: nat, off: nat, data: seq<byte>, n1: nat, t: State, u: State, off': nat, ok: bool)
    requires Inv(s) && i in s.inodes && n1 <= |data| && off <= |Content(s, i)|
    requires OnlyFile(s, t, i, Overwrite(Content(s, i), off, data[..n1][..n1]))
    requires FileWrote(t, i, off + n1, data[n1..], u, off', ok)
    ensures FileWrote(s, i, off, data, u, off', ok)
  {
    hide Owns, Mapped, Content, Full, Overwrite;
    assert data[..n1][..n1] == data[..n1];
    OverwriteTwice(Content(s, i), off, data, n1, off' - off - n1);
  }

  lemma WroteNone(s: State, i: nat, off: nat)
    requires Inv(s) && i in s.inodes
    ensures FileWrote(s, i, off, [], s, off, true)
  {
  }

  // ---- whole runs ----

  datatype Op = Write(i: nat, off: nat, data: seq<byte>) | Read(i: nat, off: nat, n: nat) | Trunc(i: nat)

  /** full tells whether the disk is full after the write, see WroteFull. */
  datatype Result = Wrote(off: nat, ok: bool, full: bool) | Bytes(data: seq<byte>) | Truncated

  ghost function Exec(s: State, op: Op): (r: (State, Result))
    requires Inv(s) && op.i in s.inodes
    ensures Inv(r.0) && r.0.inodes.Keys == s.inodes.Keys
  {
    hide Owns, Mapped, Full, FileWrite, Readi, Itrunc, Content;
    match op
    case Write(i, off, data) => var (t, off', ok) := FileWrite(s, i, off, data); (t, Wrote(off', ok, Full(t)))
    case Read(i, off, n) => var (t, bs) := Readi(s, i, off, n); ReadiReads(s, i, off, n); (t, Bytes(bs))
    case Trunc(i) => ItruncEmpties(s, i); (Itrunc(s, i), Truncated)
  }

  ghost predicate Callable(s: State, ops: seq<Op>) {
    forall k :: 0 <= k < |ops| ==> ops[k].i in s.inodes
  }

  ghost function Run(s: State, ops: seq<Op>): (r: (State, seq<Result>))
    requires Inv(s) && Callable(s, ops)
    ensures Inv(r.0) && r.0.inodes.Keys == s.inodes.Keys
    decreases |ops|
  {
    hide Inv, Exec;
    if ops == [] then (s, [])
    else
      var (t, r) := Exec(s, ops[0]);
      var (u, rs) := Run(t, ops[1..]);
      (u, [r] + rs)
  }

  ghost function Files(s: State): map<nat, seq<byte>>
    requires Inv(s)
  {
    map i | i in s.inodes :: Content(s, i)
  }

  /** One operation on files that are plain byte sequences.  A write past the end does nothing; any
      other write overwrites with a prefix of the data, and with all of it unless the file would grow
      too large or the disk is full. */
  ghost predicate Explains(f: map<nat, seq<byte>>, op: Op, r: Result, f': map<nat, seq<byte>>) {
    && op.i in f
    && match op
       case Write(i, off, data) =>
         && r.Wrote? && off <= r.off <= off + |data| && (r.ok <==> r.off == off + |data|)
         && (off > |f[i]| ==> r.off == off && f' == f)
         && (off <= |f[i]| ==> f' == f[i := Overwrite(f[i], off, data[..r.off - off])])
         && (!r.ok ==> off > |f[i]| || off + |data| > MAXBYTES || r.full)
       case Read(i, off, n) => r == Bytes(Slice(f[i], off, n)) && f' == f
       case Trunc(i) => r == Truncated && f' == f[i := []]
  }

  ghost predicate ExplainsAll(f: map<nat, seq<byte>>, ops: seq<Op>, rs: seq<Result>, f': map<nat, seq<byte>>)
    decreases |ops|
  {
    if ops == [] then rs == [] && f' == f
    else rs != [] && exists g :: Explains(f, ops[0], rs[0], g) && ExplainsAll(g, ops[1..], rs[1..], f')
  }

  lemma OnlyFileFiles(s: State, t: State, i: nat, c: seq<byte>)
    requires Inv(s) && OnlyFile(s, t, i, c)
    ensures Inv(t) && Files(t) == Files(s)[i := c]
  {
    hide Owns, Mapped, Content;
  }

  lemma ExecExplained(s: State, op: Op)
    requires Inv(s) && op.i in s.inodes
    ensures Explains(Files(s), op, Exec(s, op).1, Files(Exec(s, op).0))
  {
    hide Owns, Mapped, FileWrite, Readi, Itrunc, Content, OnlyFile, Overwrite, Slice;
    match op
    case Write(i, off, data) =>
      FileWriteWrites(s, i, off, data);
      var (t, off', ok) := FileWrite(s, i, off, data);
      if off <= |Content(s, i)| {
        OnlyFileFiles(s, t, i, Overwrite(Content(s, i), off, data[..off' - off]));
      } else {
        OnlyFileFiles(s, t, i, Content(s, i));
        assert Files(s)[i := Content(s, i)] == Files(s);
      }
    case Read(i, off, n) =>
      ReadiReads(s, i, off, n);
    case Trunc(i) =>
      ItruncEmpties(s, i);
      OnlyFileFiles(s, Itrunc(s, i), i, []);
  }

  /** What a write in a run reports as a full disk is one. */
  lemma {:induction false} WroteFull(s: State, ops: seq<Op>, k: nat)
    requires Inv(s) && Callable(s, ops) && k < |ops|
    ensures Callable(s, ops[..k + 1]) && |Run(s, ops).1| == |ops|
    ensures Run(s, ops).1[k].Wrote? ==> (Run(s, ops).1[k].full <==> Full(Run(s, ops[..k + 1]).0))
    decreases k
  {
    hide Inv, Full, Exec;
    RunLength(s, ops);
    var t := Exec(s, ops[0]).0;
    if k > 0 {
      WroteFull(t, ops[1..], k - 1);
      assert ops[..k + 1][1..] == ops[1..][..k];
    } else {
      assert ops[..1] == [ops[0]] && ops[..1][1..] == [];
      assert Run(t, []) == (t, []);
      ExecFull(s, ops[0]);
    }
  }

  lemma ExecFull(s: State, op: Op)
    requires Inv(s) && op.i in s.inodes
    ensures Exec(s, op).1.Wrote? ==> (Exec(s, op).1.full <==> Full(Exec(s, op).0))
  {
    hide Owns, Mapped, Full, FileWrite, Readi, Itrunc, Content;
  }

  lemma {:induction false} RunLength(s: State, ops: seq<Op>)
    requires Inv(s) && Callable(s, ops)
    ensures |Run(s, ops).1| == |ops|
    decreases |ops|
  {
    hide Inv, Exec;
    if ops != [] { RunLength(Exec(s, ops[0]).0, ops[1..]); }
  }

  /** Over any run the disk behaves as files that are byte sequences: every read returns what was
      last written there, whichever direct or indirect blocks hold it, and no operation on one
      file shows in another. */
  lemma {:induction false} FilesRefine(s: State, ops: seq<Op>)
    requires Inv(s) && Callable(s, ops)
    ensures var (t, rs) := Run(s, ops); ExplainsAll(Files(s), ops, rs, Files(t))
    decreases |ops|
  {
    hide Inv, Exec, Explains, Files;
    if ops != [] {
      var (t, r) := Exec(s, ops[0]);
      ExecExplained(s, ops[0]);
      FilesRefine(t, ops[1..]);
      var (u, rs) := Run(t, ops[1..]);
      assert ([r] + rs)[1..] == rs;
    }
  }
}
