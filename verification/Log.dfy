/** log.c's in-memory log, updated in place over the disk and the buffer cache.

    view[b] is what bread(b) returns: the cached copy of block b when there is one and the disk
    block otherwise (module Bcache shows that the cache behaves like this).  io records every
    block write in order, so that a crash can be placed between any two of them. */
module Log {
  import opened LogLayout

  datatype LogWriteResult = TooBig | OutsideTransaction | Absorbed | Added

  /** The pins left once install_trans has passed over the blocks of s. */
  function PinsAfter(pins: multiset<int>, s: seq<int>, recovering: bool): multiset<int> {
    if recovering then pins else pins - multiset(s)
  }

  lemma UnpinOneMore(pins: multiset<int>, s: seq<int>, k: nat, recovering: bool)
    requires k < |s|
    ensures PinsAfter(PinsAfter(pins, s[..k], recovering), [s[k]], recovering) == PinsAfter(pins, s[..k + 1], recovering)
  {
    assert s[..k + 1] == s[..k] + [s[k]];
  }

  lemma NothingUnpinned(pins: multiset<int>, recovering: bool)
    ensures PinsAfter(pins, [], recovering) == pins
  {
  }

  lemma EmptyLoggable(g: Geometry)
    requires g.Valid()
    ensures Loggable(g, [])
  {
  }

  class Log {
    const g: Geometry
    var disk: Disk
    var view: Disk
    var lh: seq<int>
    var outstanding: int
    var committing: bool
    var pins: multiset<int>
    ghost var io: seq<Write>

    ghost predicate Valid()
      reads this
    {
      && g.Valid() && |disk| == |view| == g.nblocks
      && Loggable(g, lh)
      && forall b :: g.InLog(b) ==> view[b] == disk[b]
    }

    /** Between commits: the on-disk log is empty, every block that differs from the disk is
        in lh, and exactly the blocks of lh are pinned by the log. */
    ghost predicate Quiet()
      reads this
    {
      && Valid() && disk[g.start][0] == 0
      && (forall b :: g.Home(b) && b !in lh ==> view[b] == disk[b])
      && pins == multiset(lh)
    }

    /** initlog on a disk that recovery can read, with an empty cache. */
    constructor (g: Geometry, d: Disk)
      requires HeaderOk(g, d)
      ensures this.g == g && Valid() && disk == view == d && lh == [] && io == []
      ensures outstanding == 0 && !committing && pins == multiset{}
    {
      this.g := g;
      disk, view, lh, io := d, d, [], [];
      outstanding, committing, pins := 0, false, multiset{};
    }

    method Bwrite(b: nat)
      requires b < |disk| == |view|
      modifies this`disk, this`io
      ensures disk == old(disk)[b := view[b]]
      ensures io == old(io) + [Write(b, view[b])]
    {
      disk := disk[b := view[b]];
      io := io + [Write(b, view[b])];
    }

    method ReadHead()
      requires HeaderOk(g, view)
      modifies this`lh
      ensures lh == Entries(view[g.start])
    {
      var buf := view[g.start];
      lh := [];
      var i := 0;
      while i < buf[0]
        invariant 0 <= i <= buf[0]
        invariant lh == buf[1..1 + i]
      {
        lh := lh + [buf[1 + i]];
        i := i + 1;
      }
    }

    method WriteHead() returns (ghost w: Write)
      requires Valid()
      modifies this`disk, this`view, this`io
      ensures Valid() && io == old(io) + [w]
      ensures w == Write(g.start, WithEntries(old(disk)[g.start], lh)) && w.block < |disk| == |view|
      ensures disk == old(disk)[w.block := w.data] && view == old(view)[w.block := w.data]
    {
      var hb: Block := view[g.start][0 := |lh|];
      var i := 0;
      while i < |lh|
        invariant 0 <= i <= |lh|
        invariant hb == [|lh|] + lh[..i] + view[g.start][1 + i..]
      {
        hb := hb[1 + i := lh[i]];
        i := i + 1;
      }
      assert hb == WithEntries(view[g.start], lh);
      view := view[g.start := hb];
      Bwrite(g.start);
      w := Write(g.start, hb);
    }

    method WriteLog() returns (ghost ws: seq<Write>)
      requires Valid()
      modifies this`disk, this`view, this`io
      ensures Valid() && io == old(io) + ws
      ensures |ws| == |lh|
      ensures forall i :: 0 <= i < |lh| ==> ws[i] == Write(g.start + 1 + i, old(view)[lh[i]])
      ensures Wrote(old(disk), ws, disk) && Wrote(old(view), ws, view)
    {
      hide Wrote, Distinct;
      var tail := 0;
      ws := [];
      WroteNothing(disk);
      WroteNothing(view);
      while tail < |lh|
        invariant 0 <= tail <= |lh| && Valid()
        invariant io == old(io) + ws && |ws| == tail
        invariant forall i :: 0 <= i < tail ==> ws[i] == Write(g.start + 1 + i, old(view)[lh[i]])
        invariant Wrote(old(disk), ws, disk) && Wrote(old(view), ws, view)
        invariant forall b :: g.Home(b) ==> view[b] == old(view)[b]
      {
        var to := g.start + 1 + tail;
        ghost var d, v := disk, view;
        view := view[to := view[lh[tail]]];
        Bwrite(to);
        ghost var w := Write(to, view[to]);
        WroteOneMore(old(disk), ws, d, w);
        WroteOneMore(old(view), ws, v, w);
        ws := ws + [w];
        tail := tail + 1;
      }
    }

    /** One pass of install_trans's loop; bunpin releases what log_write pinned. */
    method InstallOne(tail: nat, recovering: bool) returns (ghost w: Write)
      requires Valid() && tail < |lh|
      modifies this`disk, this`view, this`io, this`pins
      ensures Valid()
      ensures w == Write(lh[tail], old(disk)[g.start + 1 + tail]) && io == old(io) + [w]
      ensures w.block < |disk| == |view|
      ensures disk == old(disk)[w.block := w.data] && view == old(view)[w.block := w.data]
      ensures forall b :: g.InLog(b) ==> disk[b] == old(disk)[b]
      ensures pins == PinsAfter(old(pins), [lh[tail]], recovering)
    {
      var lbuf := view[g.start + tail + 1];
      view := view[lh[tail] := lbuf];
      Bwrite(lh[tail]);
      w := Write(lh[tail], lbuf);
      if !recovering {
        pins := pins - multiset{lh[tail]};
      }
    }

    method InstallTrans(recovering: bool) returns (ghost ws: seq<Write>)
      requires Valid()
      modifies this`disk, this`view, this`io, this`pins
      ensures Valid() && io == old(io) + ws
      ensures ws == InstallWrites(g, old(disk), lh)
      ensures Wrote(old(disk), ws, disk) && Wrote(old(view), ws, view)
      ensures pins == PinsAfter(old(pins), lh, recovering)
    {
      hide Wrote, InstallWrites, Loggable, PinsAfter;
      ghost var all := InstallWrites(g, disk, lh);
      NothingUnpinned(pins, recovering);
      var tail := 0;
      ws := [];
      WroteNothing(disk);
      WroteNothing(view);
      while tail < |lh|
        invariant 0 <= tail <= |lh| && Valid()
        invariant io == old(io) + ws && ws == all[..tail]
        invariant Wrote(old(disk), ws, disk) && Wrote(old(view), ws, view)
        invariant forall b :: g.InLog(b) ==> disk[b] == old(disk)[b]
        invariant pins == PinsAfter(old(pins), lh[..tail], recovering)
      {
        UnpinOneMore(old(pins), lh, tail, recovering);
        AppendOneMore(old(io), all, tail);
        InstallWriteAt(g, old(disk), lh, tail);
        ghost var d, v := disk, view;
        ghost var w := InstallOne(tail, recovering);
        WroteOneMore(old(disk), ws, d, w);
        WroteOneMore(old(view), ws, v, w);
        ws := ws + [w];
        tail := tail + 1;
      }
      assert lh[..tail] == lh && all[..tail] == all;
    }

    /** Write the cached copies to the log, then the header (the commit point), then the
        home blocks, then an empty header. */
    method Commit() returns (ghost ws: seq<Write>)
      requires Quiet()
      modifies this`disk, this`view, this`io, this`pins, this`lh
      ensures Quiet() && lh == [] && io == old(io) + ws
      ensures Wrote(old(disk), ws, disk)
      ensures old(lh) == [] ==> ws == []
      ensures old(lh) != [] ==> IsCommit(g, old(disk), old(view), old(lh), ws)
      ensures forall b :: g.Home(b) ==> disk[b] == view[b] == old(view)[b]
    {
      ws := [];
      WroteNothing(disk);
      if |lh| > 0 {
        ws := CommitWriting();
      }
    }

    method CommitWriting() returns (ghost ws: seq<Write>)
      requires Quiet() && |lh| > 0
      modifies this`disk, this`view, this`io, this`pins, this`lh
      ensures Quiet() && lh == [] && io == old(io) + ws
      ensures Wrote(old(disk), ws, disk)
      ensures IsCommit(g, old(disk), old(view), old(lh), ws)
      ensures forall b :: g.Home(b) ==> disk[b] == view[b] == old(view)[b]
    {
      hide WithEntries, InstallWrites, Wrote, IsCommit, Loggable;
      EmptyLoggable(g);
      ghost var d0, v0, lh0 := disk, view, lh;
      ghost var logged := WriteLog();
      ghost var d1, v1 := disk, view;
      ghost var head := WriteHead();
      ghost var d2, v2 := disk, view;
      ghost var installs := InstallTrans(false);
      ghost var d3, v3 := disk, view;
      assert pins == multiset{};
      lh := [];
      ghost var empty := WriteHead();
      AppendFour(old(io), logged, head, installs, empty);
      ws := logged + [head] + installs + [empty];
      CommitDone(g, d0, v0, lh0, logged, d1, v1, head, d2, v2, installs, d3, v3, empty);
    }

    /** On a disk whose cache is empty: replay whatever the header lists, then clear it. */
    method RecoverFromLog() returns (ghost ws: seq<Write>)
      requires HeaderOk(g, disk) && view == disk && lh == [] && pins == multiset{}
      modifies this`disk, this`view, this`io, this`pins, this`lh
      ensures Quiet() && lh == [] && view == disk && io == old(io) + ws
      ensures ws == RecoveryWrites(g, old(disk)) && Wrote(old(disk), ws, disk)
      ensures forall b :: g.Home(b) ==> disk[b] == RecoveredAt(g, old(disk), b)
    {
      ghost var d0 := disk;
      ReadHead();
      ghost var installs := InstallTrans(true);
      ghost var d1 := disk;
      InstallsKeepHeader(g, d0, lh, d1);
      lh := [];
      ghost var empty := WriteHead();
      ws := installs + [empty];
      WroteOneMore(d0, installs, d1, empty);
      RecoveryDone(g, d0, disk);
    }

    /** One pass of begin_op's loop under log.lock; false means that it sleeps on &log, see
        module LogSleep. */
    method BeginOp() returns (admitted: bool)
      modifies this`outstanding
      ensures admitted <==> !committing && |lh| + (old(outstanding) + 1) * MAXOPBLOCKS <= LOGSIZE
      ensures outstanding == if admitted then old(outstanding) + 1 else old(outstanding)
    {
      if committing {
        admitted := false;
      } else if |lh| + (outstanding + 1) * MAXOPBLOCKS > LOGSIZE {
        admitted := false;
      } else {
        outstanding := outstanding + 1;
        admitted := true;
      }
    }

    /** Block b has been modified in the cache to data; record it in the transaction. */
    method LogWrite(b: int, data: Block) returns (r: LogWriteResult)
      requires Valid() && g.Home(b) && disk[g.start][0] == 0 && pins == multiset(lh)
      requires forall c :: g.Home(c) && c !in lh ==> view[c] == disk[c]
      modifies this`view, this`lh, this`pins
      ensures r.TooBig? <==> |old(lh)| >= LOGSIZE || |old(lh)| >= g.size - 1
      ensures r.OutsideTransaction? <==> !r.TooBig? && outstanding < 1
      ensures r.TooBig? || r.OutsideTransaction? ==> lh == old(lh) && pins == old(pins)
      ensures r.Absorbed? ==> b in old(lh) && lh == old(lh)
      ensures r.Added? ==> b !in old(lh) && lh == old(lh) + [b]
      ensures view == old(view)[b := data]
      ensures r.Absorbed? || r.Added? ==> Quiet()
    {
      hide Loggable;
      view := view[b := data];
      if |lh| >= LOGSIZE || |lh| >= g.size - 1 {
        return TooBig;
      }
      if outstanding < 1 {
        return OutsideTransaction;
      }
      var i := 0;
      while i < |lh| && lh[i] != b
        invariant 0 <= i <= |lh|
        invariant b !in lh[..i]
      {
        i := i + 1;
      }
      LogWriteLoggable(g, lh, b);
      if i < |lh| {
        lh := lh[i := b];
        assert lh == old(lh);
        r := Absorbed;
      } else {
        assert lh[..i] == lh;
        lh := lh + [b];
        pins := pins + multiset{b};
        r := Added;
      }
    }

    /** The last operation to end commits; true means that this call did. */
    method EndOp() returns (committed: bool, ghost ws: seq<Write>)
      requires Quiet() && outstanding >= 1 && !committing
      modifies this`outstanding, this`committing, this`disk, this`view, this`io, this`pins, this`lh
      ensures outstanding == old(outstanding) - 1 && !committing
      ensures committed <==> outstanding == 0
      ensures Quiet() && io == old(io) + ws && Wrote(old(disk), ws, disk)
      ensures !committed ==> ws == [] && lh == old(lh) && view == old(view)
      ensures committed ==> lh == [] && forall b :: g.Home(b) ==> disk[b] == view[b] == old(view)[b]
      ensures committed && old(lh) != [] ==> IsCommit(g, old(disk), old(view), old(lh), ws)
    {
      outstanding := outstanding - 1;
      if outstanding == 0 {
        committed := true;
        committing := true;
      } else {
        committed := false;
      }
      ws := [];
      WroteNothing(disk);
      if committed {
        ws := Commit();
        committing := false;
      }
    }
  }
}
