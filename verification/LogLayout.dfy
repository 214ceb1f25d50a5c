/** The on-disk redo log of log.c: its layout, the writes that commit() and
    recover_from_log() issue, and what a crash between any two of them leaves.

    A block is its 256 32-bit words, because the log header is read and written
    as an array of ints.  One block write is the atomic unit of a crash. */
module LogLayout {
  const LOGSIZE: nat := 30
  const MAXOPBLOCKS: nat := 10
  const WORDS: nat := 256

  type Block = b: seq<int> | |b| == WORDS witness seq(WORDS, i => 0)
  type Disk = seq<Block>
  datatype Write = Write(block: nat, data: Block)

  /** The log occupies blocks start .. start+size-1: one header, then size-1 copies. */
  datatype Geometry = Geometry(start: nat, size: nat, nblocks: nat) {
    ghost predicate Valid() { 1 <= size && start + size <= nblocks }
    predicate InLog(b: int) { start <= b < start + size }
    predicate Home(b: int) { 0 <= b < nblocks && !InLog(b) }
  }

  ghost predicate Distinct(s: seq<int>) {
    forall i, j :: 0 <= i < j < |s| ==> s[i] != s[j]
  }

  /** What log_write keeps true of log.lh. */
  ghost predicate Loggable(g: Geometry, lh: seq<int>) {
    && Distinct(lh)
    && |lh| <= LOGSIZE && |lh| <= g.size - 1
    && forall i :: 0 <= i < |lh| ==> g.Home(lh[i])
  }

  /** The block numbers recorded in a header block. */
  function Entries(hd: Block): seq<int>
    requires 0 <= hd[0] <= LOGSIZE
  {
    hd[1..1 + hd[0]]
  }

  ghost predicate HeaderOk(g: Geometry, d: Disk) {
    && g.Valid() && |d| == g.nblocks
    && 0 <= d[g.start][0] <= LOGSIZE
    && Loggable(g, Entries(d[g.start]))
  }

  /** The header buffer after write_head: count and entries replaced, the rest kept. */
  function WithEntries(hd: Block, lh: seq<int>): Block
    requires |lh| <= LOGSIZE
  {
    [|lh|] + lh + hd[1 + |lh|..]
  }

  function IndexOf(s: seq<int>, x: int): (i: nat)
    requires x in s
    ensures i < |s| && s[i] == x
  {
    if s[0] == x then 0 else 1 + IndexOf(s[1..], x)
  }

  /** What block b will hold once recovery has run on d: the reference meaning of a log. */
  function RecoveredAt(g: Geometry, d: Disk, b: int): Block
    requires HeaderOk(g, d) && g.Home(b)
  {
    var lh := Entries(d[g.start]);
    if b in lh then d[g.start + 1 + IndexOf(lh, b)] else d[b]
  }

  /** After a crash leaving c, recovery gives every home block its value in want. */
  ghost predicate Recovers(g: Geometry, c: Disk, want: Disk) {
    && HeaderOk(g, c) && |want| == g.nblocks
    && forall b :: g.Home(b) ==> RecoveredAt(g, c, b) == want[b]
  }

  function ApplyAll(d: Disk, ws: seq<Write>): (r: Disk)
    requires forall i :: 0 <= i < |ws| ==> ws[i].block < |d|
    ensures |r| == |d|
  {
    if ws == [] then d
    else
      var w := ws[|ws| - 1];
      ApplyAll(d, ws[..|ws| - 1])[w.block := w.data]
  }

  /** ws is what one commit() with n > 0 writes, in order: write_log, write_head,
      install_trans, write_head. */
  ghost predicate IsCommit(g: Geometry, d: Disk, view: Disk, lh: seq<int>, ws: seq<Write>) {
    && g.Valid() && |d| == |view| == g.nblocks && Loggable(g, lh)
    && var n := |lh|;
    && var head := WithEntries(d[g.start], lh);
    && |ws| == 2 * n + 2
    && (forall i :: 0 <= i < n ==> ws[i] == Write(g.start + 1 + i, view[lh[i]]))
    && ws[n] == Write(g.start, head)
    && (forall i :: n + 1 <= i < 2 * n + 1 ==> ws[i] == Write(lh[i - n - 1], view[lh[i - n - 1]]))
    && ws[2 * n + 1] == Write(g.start, WithEntries(head, []))
  }

  /** install_trans: the copy in log block start+1+i goes home. */
  function InstallWrites(g: Geometry, d: Disk, lh: seq<int>): (ws: seq<Write>)
    requires g.Valid() && |d| == g.nblocks && Loggable(g, lh)
    ensures |ws| == |lh|
  {
    seq(|lh|, i requires 0 <= i < |lh| => Write(lh[i], d[g.start + 1 + i]))
  }

  /** All writes of recover_from_log(), in order. */
  function RecoveryWrites(g: Geometry, d: Disk): seq<Write>
    requires HeaderOk(g, d)
  {
    InstallWrites(g, d, Entries(d[g.start])) + [Write(g.start, WithEntries(d[g.start], []))]
  }

  // ---- indices ----

  lemma {:induction false} IndexOfDistinct(s: seq<int>, i: nat)
    requires Distinct(s) && i < |s|
    ensures IndexOf(s, s[i]) == i
  {
  }

  lemma InstallWriteAt(g: Geometry, d: Disk, lh: seq<int>, i: nat)
    requires g.Valid() && |d| == g.nblocks && Loggable(g, lh) && i < |lh|
    ensures InstallWrites(g, d, lh)[i] == Write(lh[i], d[g.start + 1 + i])
    ensures g.InLog(g.start + 1 + i)
  {
  }

  lemma LogWriteLoggable(g: Geometry, lh: seq<int>, b: int)
    requires Loggable(g, lh) && |lh| < LOGSIZE && |lh| < g.size - 1 && g.Home(b)
    ensures Loggable(g, if b in lh then lh else lh + [b])
  {
  }

  lemma AppendOneMore<T>(r: seq<T>, s: seq<T>, k: nat)
    requires k < |s|
    ensures s[..k] + [s[k]] == s[..k + 1]
    ensures (r + s[..k]) + [s[k]] == r + s[..k + 1]
  {
  }

  lemma AppendFour<T>(r: seq<T>, a: seq<T>, b: T, c: seq<T>, d: T)
    ensures r + a + [b] + c + [d] == r + (a + [b] + c + [d])
  {
  }

  lemma EntriesOfWithEntries(hd: Block, lh: seq<int>)
    requires |lh| <= LOGSIZE
    ensures WithEntries(hd, lh)[0] == |lh| && Entries(WithEntries(hd, lh)) == lh
  {
  }

  lemma ApplyPrefix(d: Disk, ws: seq<Write>, k: nat)
    requires k < |ws| && forall i :: 0 <= i < |ws| ==> ws[i].block < |d|
    ensures ApplyAll(d, ws[..k + 1]) == ApplyAll(d, ws[..k])[ws[k].block := ws[k].data]
  {
    assert ws[..k + 1][..k] == ws[..k];
  }

  /** The writes ws, in order, turn d into d'. */
  ghost predicate Wrote(d: Disk, ws: seq<Write>, d': Disk) {
    && (forall i :: 0 <= i < |ws| ==> ws[i].block < |d|)
    && d' == ApplyAll(d, ws)
  }

  lemma WroteNothing(d: Disk)
    ensures Wrote(d, [], d)
  {
  }

  lemma WroteOneMore(d: Disk, ws: seq<Write>, d': Disk, w: Write)
    requires Wrote(d, ws, d') && w.block < |d|
    ensures Wrote(d, ws + [w], d'[w.block := w.data])
  {
  }

  lemma WroteBoth(d: Disk, us: seq<Write>, d1: Disk, vs: seq<Write>, d2: Disk)
    requires Wrote(d, us, d1) && Wrote(d1, vs, d2)
    ensures Wrote(d, us + vs, d2)
  {
    ApplyConcat(d, us, vs);
  }

  lemma {:induction false} ApplyConcat(d: Disk, us: seq<Write>, vs: seq<Write>)
    requires forall i :: 0 <= i < |us| ==> us[i].block < |d|
    requires forall i :: 0 <= i < |vs| ==> vs[i].block < |d|
    ensures ApplyAll(d, us + vs) == ApplyAll(ApplyAll(d, us), vs)
  {
    if vs == [] {
      assert us + vs == us;
    } else {
      assert (us + vs)[..|us + vs| - 1] == us + vs[..|vs| - 1];
      ApplyConcat(d, us, vs[..|vs| - 1]);
    }
  }

  lemma ApplySplit(d: Disk, ws: seq<Write>, m: nat, k: nat)
    requires m <= k <= |ws| && forall i :: 0 <= i < |ws| ==> ws[i].block < |d|
    ensures ApplyAll(d, ws[..k]) == ApplyAll(ApplyAll(d, ws[..m]), ws[m..k])
  {
    assert ws[..k] == ws[..m] + ws[m..k];
    ApplyConcat(d, ws[..m], ws[m..k]);
  }

  // ---- commit ----

  /** Blocks written after the first k of the log copies. */
  lemma {:induction false} LogCopies(g: Geometry, d: Disk, view: Disk, lh: seq<int>, ws: seq<Write>, k: nat)
    requires g.Valid() && |d| == |view| == g.nblocks && Loggable(g, lh)
    requires k <= |lh| <= |ws| && forall i :: 0 <= i < |ws| ==> ws[i].block < |d|
    requires forall i :: 0 <= i < |lh| ==> ws[i] == Write(g.start + 1 + i, view[lh[i]])
    ensures var c := ApplyAll(d, ws[..k]);
            forall b :: 0 <= b < g.nblocks ==>
              c[b] == if g.start + 1 <= b < g.start + 1 + k then view[lh[b - g.start - 1]] else d[b]
  {
    hide Distinct;
    if k > 0 {
      LogCopies(g, d, view, lh, ws, k - 1);
      ApplyPrefix(d, ws, k - 1);
    }
  }

  /** Writing the home blocks lh[..k] with the values src gives them. */
  lemma {:induction false} AfterHomeWrites(g: Geometry, d: Disk, lh: seq<int>, ws: seq<Write>, k: nat)
    requires g.Valid() && |d| == g.nblocks && Loggable(g, lh) && k <= |lh| == |ws|
    requires forall i :: 0 <= i < |lh| ==> ws[i].block == lh[i]
    ensures var c := ApplyAll(d, ws[..k]);
            && (forall i :: 0 <= i < k ==> c[lh[i]] == ws[i].data)
            && (forall b :: 0 <= b < g.nblocks && b !in lh[..k] ==> c[b] == d[b])
  {
    if k > 0 {
      AfterHomeWrites(g, d, lh, ws, k - 1);
      ApplyPrefix(d, ws, k - 1);
      assert lh[..k] == lh[..k - 1] + [lh[k - 1]];
    }
  }

  /** A disk whose header lists lh and whose log holds want's copies of lh. */
  ghost predicate Logged(g: Geometry, c: Disk, want: Disk, lh: seq<int>) {
    && g.Valid() && |c| == |want| == g.nblocks && Loggable(g, lh)
    && c[g.start][0] == |lh| && Entries(c[g.start]) == lh
    && (forall i :: 0 <= i < |lh| ==> c[g.start + 1 + i] == want[lh[i]])
    && (forall b :: g.Home(b) && b !in lh ==> c[b] == want[b])
  }

  /** However many of the home blocks are already installed, a Logged disk recovers to want. */
  lemma LoggedDiskRecovers(g: Geometry, c: Disk, want: Disk, lh: seq<int>)
    requires Logged(g, c, want, lh)
    ensures Recovers(g, c, want)
  {
  }

  /** Installing any prefix of lh keeps a disk Logged; installing all of it makes the home
      blocks equal to want. */
  lemma Installing(g: Geometry, d: Disk, want: Disk, lh: seq<int>, ws: seq<Write>, j: nat)
    requires Logged(g, d, want, lh) && j <= |lh| == |ws|
    requires forall i :: 0 <= i < |lh| ==> ws[i] == Write(lh[i], want[lh[i]])
    ensures var c := ApplyAll(d, ws[..j]);
            && Logged(g, c, want, lh) && c[g.start] == d[g.start]
            && (j == |lh| ==> forall b :: g.Home(b) ==> c[b] == want[b])
  {
    AfterHomeWrites(g, d, lh, ws, j);
    var c := ApplyAll(d, ws[..j]);
    forall b | 0 <= b < g.nblocks && g.InLog(b)
      ensures c[b] == d[b]
    {
      assert b !in lh[..j];
    }
    if j == |lh| {
      assert lh[..j] == lh;
      forall b | g.Home(b) && b in lh
        ensures c[b] == want[b]
      {
        assert c[lh[IndexOf(lh, b)]] == ws[IndexOf(lh, b)].data;
      }
    }
  }

  /** Clearing the header of a disk whose home blocks all equal want. */
  lemma Clearing(g: Geometry, c: Disk, want: Disk)
    requires g.Valid() && |c| == |want| == g.nblocks
    requires forall b :: g.Home(b) ==> c[b] == want[b]
    ensures Logged(g, c[g.start := WithEntries(c[g.start], [])], want, [])
  {
  }

  /** The header write makes the logged copies take effect. */
  lemma HeaderTakesEffect(g: Geometry, d: Disk, view: Disk, lh: seq<int>, c: Disk)
    requires g.Valid() && |d| == |view| == |c| == g.nblocks && Loggable(g, lh)
    requires forall b :: g.Home(b) && b !in lh ==> view[b] == d[b]
    requires forall b :: 0 <= b < g.nblocks ==>
      c[b] == if g.start + 1 <= b < g.start + 1 + |lh| then view[lh[b - g.start - 1]] else d[b]
    ensures Logged(g, c[g.start := WithEntries(d[g.start], lh)], view, lh)
  {
  }

  /** The part of a commit's writes up to and including its header write. */
  lemma CommitStart(g: Geometry, d: Disk, view: Disk, lh: seq<int>, ws: seq<Write>)
    requires IsCommit(g, d, view, lh, ws)
    ensures |lh| <= |ws| && g.Valid() && Loggable(g, lh) && |d| == |view| == g.nblocks
    ensures forall i :: 0 <= i < |lh| ==> ws[i] == Write(g.start + 1 + i, view[lh[i]])
    ensures |ws| > |lh| && ws[|lh|] == Write(g.start, WithEntries(d[g.start], lh))
  {
  }

  lemma CommitPoint(g: Geometry, d: Disk, view: Disk, lh: seq<int>, ws: seq<Write>)
    requires IsCommit(g, d, view, lh, ws)
    requires forall b :: g.Home(b) && b !in lh ==> view[b] == d[b]
    ensures Logged(g, ApplyAll(d, ws[..|lh| + 1]), view, lh)
    ensures ApplyAll(d, ws[..|lh| + 1])[g.start] == WithEntries(d[g.start], lh)
  {
    hide Distinct, Logged, ApplyAll, WithEntries, IsCommit, Loggable;
    CommitTail(g, d, view, lh, ws, 0);
    CommitStart(g, d, view, lh, ws);
    LogCopies(g, d, view, lh, ws, |lh|);
    ApplyPrefix(d, ws, |lh|);
    HeaderTakesEffect(g, d, view, lh, ApplyAll(d, ws[..|lh|]));
  }

  /** The part of a commit's writes after its header write. */
  lemma CommitTail(g: Geometry, d: Disk, view: Disk, lh: seq<int>, ws: seq<Write>, j: nat)
    requires IsCommit(g, d, view, lh, ws) && j <= |lh|
    ensures |ws| == 2 * |lh| + 2 && |d| == |view| && |lh| <= LOGSIZE
    ensures forall i :: 0 <= i < |ws| ==> ws[i].block < |d|
    ensures var homes := ws[|lh| + 1..2 * |lh| + 1];
            && (forall i :: 0 <= i < |lh| ==> homes[i] == Write(lh[i], view[lh[i]]))
            && ws[|lh| + 1..|lh| + 1 + j] == homes[..j]
  {
  }

  lemma CommitInstalls(g: Geometry, d: Disk, view: Disk, lh: seq<int>, ws: seq<Write>, j: nat)
    requires IsCommit(g, d, view, lh, ws) && j <= |lh|
    requires forall b :: g.Home(b) && b !in lh ==> view[b] == d[b]
    ensures forall i :: 0 <= i < |ws| ==> ws[i].block < |d|
    ensures var c := ApplyAll(d, ws[..|lh| + 1 + j]);
            && Logged(g, c, view, lh) && c[g.start] == WithEntries(d[g.start], lh)
            && (j == |lh| ==> forall b :: g.Home(b) ==> c[b] == view[b])
  {
    hide IsCommit, ApplyAll, Loggable, WithEntries, Logged;
    var n := |lh|;
    CommitTail(g, d, view, lh, ws, j);
    CommitPoint(g, d, view, lh, ws);
    ApplySplit(d, ws, n + 1, n + 1 + j);
    Installing(g, ApplyAll(d, ws[..n + 1]), view, lh, ws[n + 1..2 * n + 1], j);
  }

  lemma CommitCrashBefore(g: Geometry, d: Disk, view: Disk, lh: seq<int>, ws: seq<Write>, k: nat)
    requires IsCommit(g, d, view, lh, ws) && k <= |lh|
    requires d[g.start][0] == 0
    ensures Recovers(g, ApplyAll(d, ws[..k]), d)
  {
    LogCopies(g, d, view, lh, ws, k);
    LoggedDiskRecovers(g, ApplyAll(d, ws[..k]), d, []);
  }

  lemma CommitCleared(g: Geometry, d: Disk, view: Disk, lh: seq<int>, ws: seq<Write>)
    requires IsCommit(g, d, view, lh, ws)
    requires forall b :: g.Home(b) && b !in lh ==> view[b] == d[b]
    ensures Logged(g, ApplyAll(d, ws), view, [])
  {
    var n := |lh|;
    assert ws[..2 * n + 2] == ws;
    CommitInstalls(g, d, view, lh, ws, n);
    ApplyPrefix(d, ws, 2 * n + 1);
    Clearing(g, ApplyAll(d, ws[..2 * n + 1]), view);
  }

  /** The commit point is the header write: a crash after k of commit()'s writes recovers
      to the old contents for k <= n and to the new contents for every later k. */
  lemma CommitCrash(g: Geometry, d: Disk, view: Disk, lh: seq<int>, ws: seq<Write>, k: nat)
    requires IsCommit(g, d, view, lh, ws) && k <= |ws|
    requires d[g.start][0] == 0
    requires forall b :: g.Home(b) && b !in lh ==> view[b] == d[b]
    ensures Recovers(g, ApplyAll(d, ws[..k]), if k <= |lh| then d else view)
  {
    hide *;
    CommitTail(g, d, view, lh, ws, 0);
    if k <= |lh| {
      CommitCrashBefore(g, d, view, lh, ws, k);
    } else if k < |ws| {
      CommitInstalls(g, d, view, lh, ws, k - |lh| - 1);
      LoggedDiskRecovers(g, ApplyAll(d, ws[..k]), view, lh);
    } else {
      assert ws[..k] == ws;
      CommitCleared(g, d, view, lh, ws);
      LoggedDiskRecovers(g, ApplyAll(d, ws), view, []);
    }
  }

  /** install_trans finds in the log what write_log put there. */
  lemma InstallsLogged(g: Geometry, d: Disk, view: Disk, lh: seq<int>, logged: seq<Write>, d1: Disk, hd: Block)
    requires g.Valid() && |d| == |view| == g.nblocks && Loggable(g, lh)
    requires |logged| == |lh| && Wrote(d, logged, d1)
    requires forall i :: 0 <= i < |lh| ==> logged[i] == Write(g.start + 1 + i, view[lh[i]])
    ensures d1[g.start] == d[g.start]
    ensures forall i :: 0 <= i < |lh| ==>
      InstallWrites(g, d1[g.start := hd], lh)[i] == Write(lh[i], view[lh[i]])
  {
    hide Distinct;
    LogCopies(g, d, view, lh, logged, |lh|);
    assert logged[..|lh|] == logged;
    assert d1 == ApplyAll(d, logged[..|lh|]);
    forall i | 0 <= i < |lh|
      ensures InstallWrites(g, d1[g.start := hd], lh)[i] == Write(lh[i], view[lh[i]])
    {
      var b := g.start + 1 + i;
      assert lh[b - g.start - 1] == lh[i];
      assert d1[b] == view[lh[i]];
    }
  }

  lemma InstallsKeepHeader(g: Geometry, d: Disk, lh: seq<int>, d': Disk)
    requires g.Valid() && |d| == g.nblocks && Loggable(g, lh)
    requires Wrote(d, InstallWrites(g, d, lh), d')
    ensures d'[g.start] == d[g.start]
  {
    var ws := InstallWrites(g, d, lh);
    AfterHomeWrites(g, d, lh, ws, |lh|);
    assert ws[..|lh|] == ws;
    assert g.start !in lh[..|lh|];
  }

  lemma CommitSequence(g: Geometry, d: Disk, view: Disk, lh: seq<int>, logged: seq<Write>, head: Write,
                       installs: seq<Write>, empty: Write)
    requires g.Valid() && |d| == |view| == g.nblocks && Loggable(g, lh)
    requires |logged| == |lh| == |installs|
    requires forall i :: 0 <= i < |lh| ==> logged[i] == Write(g.start + 1 + i, view[lh[i]])
    requires head == Write(g.start, WithEntries(d[g.start], lh))
    requires forall i :: 0 <= i < |lh| ==> installs[i] == Write(lh[i], view[lh[i]])
    requires empty == Write(g.start, WithEntries(head.data, []))
    ensures IsCommit(g, d, view, lh, logged + [head] + installs + [empty])
  {
  }

  /** The four phases of commit(), run one after the other, issue a commit's writes. */
  lemma CommitAssembled(g: Geometry, d: Disk, view: Disk, lh: seq<int>, logged: seq<Write>, d1: Disk,
                        head: Write, d2: Disk, installs: seq<Write>, d3: Disk, empty: Write)
    requires g.Valid() && |d| == |view| == g.nblocks && Loggable(g, lh)
    requires |logged| == |lh| && Wrote(d, logged, d1)
    requires forall i :: 0 <= i < |lh| ==> logged[i] == Write(g.start + 1 + i, view[lh[i]])
    requires head == Write(g.start, WithEntries(d1[g.start], lh)) && d2 == d1[g.start := head.data]
    requires installs == InstallWrites(g, d2, lh) && Wrote(d2, installs, d3)
    requires empty == Write(g.start, WithEntries(d3[g.start], []))
    ensures IsCommit(g, d, view, lh, logged + [head] + installs + [empty])
    ensures Wrote(d, logged + [head] + installs + [empty], d3[empty.block := empty.data])
  {
    assert |d1| == g.nblocks && d2[g.start] == head.data;
    hide InstallWrites, Distinct, IsCommit, Wrote, WithEntries;
    InstallsLogged(g, d, view, lh, logged, d1, head.data);
    InstallsKeepHeader(g, d2, lh, d3);
    CommitSequence(g, d, view, lh, logged, head, installs, empty);
    WroteOneMore(d, logged, d1, head);
    WroteBoth(d, logged + [head], d2, installs, d3);
    WroteOneMore(d, logged + [head] + installs, d3, empty);
  }

  /** A finished commit leaves disk and cache agreeing on the new contents, the log empty. */
  lemma CommitFinal(g: Geometry, d: Disk, view: Disk, lh: seq<int>, ws: seq<Write>, d': Disk, view': Disk)
    requires IsCommit(g, d, view, lh, ws) && Wrote(d, ws, d') && Wrote(view, ws, view')
    requires view[g.start] == d[g.start]
    requires forall b :: g.Home(b) && b !in lh ==> view[b] == d[b]
    ensures d'[g.start][0] == 0
    ensures forall b :: g.Home(b) ==> d'[b] == view'[b] == view[b]
  {
    assert IsCommit(g, view, view, lh, ws);
    CommitCleared(g, d, view, lh, ws);
    CommitCleared(g, view, view, lh, ws);
  }

  /** All of the above for commit() run over a disk and a cache that agree on the log region. */
  lemma CommitDone(g: Geometry, d: Disk, v: Disk, lh: seq<int>, logged: seq<Write>, d1: Disk, v1: Disk,
                   head: Write, d2: Disk, v2: Disk, installs: seq<Write>, d3: Disk, v3: Disk, empty: Write)
    requires g.Valid() && |d| == |v| == g.nblocks && Loggable(g, lh)
    requires forall b :: g.Home(b) && b !in lh ==> v[b] == d[b]
    requires |logged| == |lh| && Wrote(d, logged, d1) && Wrote(v, logged, v1)
    requires forall i :: 0 <= i < |lh| ==> logged[i] == Write(g.start + 1 + i, v[lh[i]])
    requires head == Write(g.start, WithEntries(d1[g.start], lh))
    requires d2 == d1[g.start := head.data] && v2 == v1[g.start := head.data]
    requires installs == InstallWrites(g, d2, lh) && Wrote(d2, installs, d3) && Wrote(v2, installs, v3)
    requires empty == Write(g.start, WithEntries(d3[g.start], []))
    requires v[g.start] == d[g.start] && v1[g.start] == d1[g.start] && v3[g.start] == d3[g.start]
    requires forall b :: g.InLog(b) ==> v2[b] == d2[b]
    ensures var ws := logged + [head] + installs + [empty];
            var d4 := d3[empty.block := empty.data];
            var v4 := v3[empty.block := empty.data];
            && IsCommit(g, d, v, lh, ws) && Wrote(d, ws, d4)
            && d4[g.start][0] == 0
            && forall b :: g.Home(b) ==> d4[b] == v4[b] == v[b]
  {
    assert InstallWrites(g, v2, lh) == installs by { hide Distinct; }
    hide WithEntries, InstallWrites, Wrote, IsCommit, Loggable;
    CommitAssembled(g, d, v, lh, logged, d1, head, d2, installs, d3, empty);
    CommitAssembled(g, v, v, lh, logged, v1, head, v2, installs, v3, empty);
    CommitFinal(g, d, v, lh, logged + [head] + installs + [empty],
      d3[empty.block := empty.data], v3[empty.block := empty.data]);
  }

  // ---- recovery ----

  /** The converse of LoggedDiskRecovers. */
  lemma RecoversIsLogged(g: Geometry, d: Disk, want: Disk)
    requires Recovers(g, d, want)
    ensures Logged(g, d, want, Entries(d[g.start]))
    ensures forall i :: 0 <= i < d[g.start][0] ==>
      RecoveryWrites(g, d)[i] == Write(Entries(d[g.start])[i], want[Entries(d[g.start])[i]])
  {
    hide Distinct;
    var lh := Entries(d[g.start]);
    forall i | 0 <= i < |lh|
      ensures d[g.start + 1 + i] == want[lh[i]]
    {
      IndexOfDistinct(lh, i);
      assert RecoveredAt(g, d, lh[i]) == want[lh[i]];
    }
    forall b | g.Home(b) && b !in lh
      ensures d[b] == want[b]
    {
      assert RecoveredAt(g, d, b) == want[b];
    }
  }

  lemma RecoveryInstalls(g: Geometry, d: Disk, want: Disk, j: nat)
    requires Recovers(g, d, want) && j <= d[g.start][0]
    ensures |RecoveryWrites(g, d)| == d[g.start][0] + 1
    ensures RecoveryWrites(g, d)[d[g.start][0]] == Write(g.start, WithEntries(d[g.start], []))
    ensures var c := ApplyAll(d, RecoveryWrites(g, d)[..j]);
            && Logged(g, c, want, Entries(d[g.start])) && c[g.start] == d[g.start]
            && (j == d[g.start][0] ==> forall b :: g.Home(b) ==> c[b] == want[b])
  {
    var lh := Entries(d[g.start]);
    var ws := RecoveryWrites(g, d);
    RecoversIsLogged(g, d, want);
    assert ws[..j] == ws[..|lh|][..j];
    Installing(g, d, want, lh, ws[..|lh|], j);
  }

  lemma RecoveryBlocks(g: Geometry, d: Disk)
    requires HeaderOk(g, d)
    ensures |RecoveryWrites(g, d)| == d[g.start][0] + 1
    ensures forall i :: 0 <= i < |RecoveryWrites(g, d)| ==> RecoveryWrites(g, d)[i].block < |d|
  {
  }

  /** A crash after any k of recovery's writes changes nothing about what recovery will give;
      the whole of recovery leaves those contents at home and an empty log. */
  lemma RecoveryCrash(g: Geometry, d: Disk, want: Disk, k: nat)
    requires Recovers(g, d, want) && k <= |RecoveryWrites(g, d)|
    ensures var c := ApplyAll(d, RecoveryWrites(g, d)[..k]);
            && Recovers(g, c, want)
            && (k == |RecoveryWrites(g, d)| ==>
                  c[g.start][0] == 0 && forall b :: g.Home(b) ==> c[b] == want[b])
  {
    hide InstallWrites, Loggable, RecoveryWrites, RecoveredAt, ApplyAll, Logged;
    var ws := RecoveryWrites(g, d);
    var n := d[g.start][0];
    RecoveryBlocks(g, d);
    RecoveryInstalls(g, d, want, if k <= n then k else n);
    if k <= n {
      LoggedDiskRecovers(g, ApplyAll(d, ws[..k]), want, Entries(d[g.start]));
    } else {
      ApplyPrefix(d, ws, n);
      Clearing(g, ApplyAll(d, ws[..n]), want);
      LoggedDiskRecovers(g, ApplyAll(d, ws[..k]), want, []);
    }
  }

  /** What the whole of recovery leaves. */
  lemma RecoveryDone(g: Geometry, d: Disk, d': Disk)
    requires HeaderOk(g, d) && Wrote(d, RecoveryWrites(g, d), d')
    ensures d'[g.start][0] == 0
    ensures forall b :: g.Home(b) ==> d'[b] == RecoveredAt(g, d, b)
  {
    var want := seq(g.nblocks, b requires 0 <= b < g.nblocks =>
      if g.Home(b) then RecoveredAt(g, d, b) else d[b]);
    var ws := RecoveryWrites(g, d);
    assert ws[..|ws|] == ws;
    RecoveryCrash(g, d, want, |ws|);
    forall b | g.Home(b)
      ensures want[b] == RecoveredAt(g, d, b)
    {
    }
  }

  /** ds is a chain of recoveries, each cut off after some number of its writes. */
  ghost predicate CrashChain(g: Geometry, ds: seq<Disk>, cuts: seq<nat>) {
    && |ds| == |cuts| + 1
    && (forall i :: 0 <= i < |ds| ==> HeaderOk(g, ds[i]))
    && (forall i :: 0 <= i < |cuts| ==> CutOff(g, ds[i], ds[i + 1], cuts[i]))
  }

  ghost predicate CutOff(g: Geometry, d: Disk, d': Disk, cut: nat)
    requires HeaderOk(g, d)
  {
    cut <= |RecoveryWrites(g, d)| && d' == ApplyAll(d, RecoveryWrites(g, d)[..cut])
  }

  lemma {:induction false} AnyNumberOfCrashes(g: Geometry, ds: seq<Disk>, cuts: seq<nat>, want: Disk)
    requires CrashChain(g, ds, cuts) && Recovers(g, ds[0], want)
    ensures Recovers(g, ds[|ds| - 1], want)
  {
    if cuts != [] {
      assert CutOff(g, ds[0], ds[1], cuts[0]);
      RecoveryCrash(g, ds[0], want, cuts[0]);
      forall i | 0 <= i < |cuts[1..]|
        ensures CutOff(g, ds[1..][i], ds[1..][i + 1], cuts[1..][i])
      {
        assert CutOff(g, ds[i + 1], ds[i + 2], cuts[i + 1]);
      }
      AnyNumberOfCrashes(g, ds[1..], cuts[1..], want);
    }
  }

  /** Crash atomicity: crash a commit after any k writes, crash recovery any number of times
      at any points, then let it finish.  All home blocks are old, or all are new, and which
      of the two is decided by whether the header write had happened. */
  lemma CrashAtomicity(g: Geometry, d: Disk, view: Disk, lh: seq<int>, ws: seq<Write>, k: nat,
                       ds: seq<Disk>, cuts: seq<nat>)
    requires IsCommit(g, d, view, lh, ws) && k <= |ws|
    requires d[g.start][0] == 0
    requires forall b :: g.Home(b) && b !in lh ==> view[b] == d[b]
    requires CrashChain(g, ds, cuts) && ds[0] == ApplyAll(d, ws[..k])
    ensures var last := ds[|ds| - 1];
            var final := ApplyAll(last, RecoveryWrites(g, last));
            && final[g.start][0] == 0
            && forall b :: g.Home(b) ==> final[b] == if k <= |lh| then d[b] else view[b]
  {
    var want := if k <= |lh| then d else view;
    CommitCrash(g, d, view, lh, ws, k);
    AnyNumberOfCrashes(g, ds, cuts, want);
    var last := ds[|ds| - 1];
    var rs := RecoveryWrites(g, last);
    RecoveryCrash(g, last, want, |rs|);
    assert rs[..|rs|] == rs;
  }

  /** Recovery is idempotent: running it again writes only the already empty header. */
  lemma RecoveryIdempotent(g: Geometry, d: Disk)
    requires HeaderOk(g, d)
    ensures var r := ApplyAll(d, RecoveryWrites(g, d));
            HeaderOk(g, r) && ApplyAll(r, RecoveryWrites(g, r)) == r
  {
  }
}
