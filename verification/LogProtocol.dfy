/** Group commit under concurrency, with crashes.

    Any number of file system operations run at once.  One action is one critical section of
    log.c or one disk write of commit() or of recover_from_log(), so a run is an interleaving
    of operations, of the committer's single writes and of crashes at any point.  begin_op is one
    action once it is admitted; its sleep and the wakeups of end_op are in module LogSleep.
    hist records what every operation did; durable is the length of the prefix of hist that
    a crash at this moment would leave on the disk. */
module LogProtocol {
  import opened LogLayout
  import opened Sets

  datatype Event = Begun(id: nat) | Stored(id: nat, block: int, data: Block) | Ended(id: nat)

  /** An operation between begin_op and end_op: the blocks it has changed in the cache and not
      yet passed to log_write, and the distinct blocks it has passed to log_write. */
  datatype Op = Op(id: nat, dirty: set<int>, used: set<int>)

  /** committing is 0 exactly in Idle; tail is the loop variable of write_log or install_trans. */
  datatype Phase = Idle | Logging(tail: nat) | Installing(tail: nat)

  datatype State = State(disk: Disk, view: Disk, lh: seq<int>, ops: seq<Op>, phase: Phase,
                         hist: seq<Event>, durable: nat)

  datatype Action =
    | Begin(id: nat)
    | Store(i: nat, block: int, data: Block)
    | LogWrite(i: nat, block: int)
    | End(i: nat)
    | Commit
    | Crash

  /** m bounds the distinct blocks that one operation may log. */
  datatype Config = Config(g: Geometry, init: Disk, m: nat) {
    ghost predicate Valid() {
      && g.Valid() && |init| == g.nblocks && init[g.start][0] == 0
      && m <= MAXOPBLOCKS
    }
  }

  /** The test at the top of log_write. */
  predicate TooBig(g: Geometry, s: State) {
    |s.lh| >= LOGSIZE || |s.lh| >= g.size - 1
  }

  function Ids(ops: seq<Op>): set<nat> {
    set op | op in ops :: op.id
  }

  ghost predicate Enabled(c: Config, s: State, a: Action) {
    match a
    case Begin(id) =>
      s.phase.Idle? && id !in Ids(s.ops) && |s.lh| + (|s.ops| + 1) * MAXOPBLOCKS <= LOGSIZE
    case Store(i, b, _) =>
      i < |s.ops| && c.g.Home(b)
    case LogWrite(i, b) =>
      i < |s.ops| && b in s.ops[i].dirty && |s.ops[i].used + {b}| <= c.m && !TooBig(c.g, s)
    case End(i) =>
      i < |s.ops| && s.ops[i].dirty == {}
    case Commit => !s.phase.Idle?
    case Crash => true
  }

  function Without(ops: seq<Op>, i: nat): seq<Op>
    requires i < |ops|
  {
    ops[..i] + ops[i + 1..]
  }

  /** One disk write of the committer or of recovery. */
  function WriteStep(g: Geometry, s: State): State
    requires g.Valid() && |s.disk| == |s.view| == g.nblocks && Loggable(g, s.lh)
    requires !s.phase.Idle? && s.phase.tail <= |s.lh|
  {
    var t := s.phase.tail;
    match s.phase
    case Logging(_) =>
      if t < |s.lh| then
        var data := s.view[s.lh[t]];
        s.(disk := s.disk[g.start + 1 + t := data], view := s.view[g.start + 1 + t := data],
           phase := Logging(t + 1))
      else
        var hd := WithEntries(s.view[g.start], s.lh);
        s.(disk := s.disk[g.start := hd], view := s.view[g.start := hd],
           phase := Installing(0), durable := |s.hist|)
    case Installing(_) =>
      if t < |s.lh| then
        var data := s.view[g.start + 1 + t];
        s.(disk := s.disk[s.lh[t] := data], view := s.view[s.lh[t] := data],
           phase := Installing(t + 1))
      else
        var hd := WithEntries(s.view[g.start], []);
        s.(disk := s.disk[g.start := hd], view := s.view[g.start := hd], lh := [], phase := Idle)
  }

  ghost function Next(c: Config, s: State, a: Action): State
    requires Shape(c, s) && HeaderReadable(c, s) && Enabled(c, s, a)
  {
    match a
    case Begin(id) =>
      s.(ops := s.ops + [Op(id, {}, {})], hist := s.hist + [Begun(id)])
    case Store(i, b, data) =>
      s.(view := s.view[b := data],
         ops := s.ops[i := s.ops[i].(dirty := s.ops[i].dirty + {b})],
         hist := s.hist + [Stored(s.ops[i].id, b, data)])
    case LogWrite(i, b) =>
      s.(lh := if b in s.lh then s.lh else s.lh + [b],
         ops := s.ops[i := s.ops[i].(dirty := s.ops[i].dirty - {b}, used := s.ops[i].used + {b})])
    case End(i) =>
      var t := s.(ops := Without(s.ops, i), hist := s.hist + [Ended(s.ops[i].id)]);
      if t.ops != [] then t
      else if s.lh != [] then t.(phase := Logging(0))
      else t.(durable := |t.hist|)
    case Commit => WriteStep(c.g, s)
    case Crash =>
      s.(view := s.disk, lh := Entries(s.disk[c.g.start]), ops := [], phase := Installing(0),
         hist := s.hist[..s.durable])
  }

  function Effect(d: Disk, e: Event): (d': Disk)
    ensures |d'| == |d|
  {
    match e
    case Stored(_, b, data) => if 0 <= b < |d| then d[b := data] else d
    case _ => d
  }

  /** The home blocks after the stores of h, starting from init. */
  function Replay(init: Disk, h: seq<Event>): (d: Disk)
    ensures |d| == |init|
  {
    if h == [] then init else Effect(Replay(init, h[..|h| - 1]), h[|h| - 1])
  }

  function OpenAfter(open: set<nat>, e: Event): set<nat> {
    match e
    case Begun(id) => open + {id}
    case Ended(id) => open - {id}
    case Stored(_, _, _) => open
  }

  /** Operations begun and not ended in h. */
  function Open(h: seq<Event>): set<nat> {
    if h == [] then {} else OpenAfter(Open(h[..|h| - 1]), h[|h| - 1])
  }

  function Dirty(ops: seq<Op>): set<int> {
    set op, b | op in ops && b in op.dirty :: b
  }

  /** What the reserved but unused part of the log amounts to. */
  function Slack(ops: seq<Op>, m: nat): int {
    if ops == [] then 0 else Slack(ops[..|ops| - 1], m) + m - |ops[|ops| - 1].used|
  }

  ghost predicate Shape(c: Config, s: State) {
    && c.Valid() && |s.disk| == |s.view| == c.g.nblocks
    && Loggable(c.g, s.lh)
    && s.durable <= |s.hist|
    && (forall b :: c.g.InLog(b) ==> s.view[b] == s.disk[b])
    && (!s.phase.Idle? ==> s.phase.tail <= |s.lh| && s.ops == [])
  }

  ghost predicate HeaderReadable(c: Config, s: State)
    requires Shape(c, s)
  {
    0 <= s.disk[c.g.start][0] <= LOGSIZE
  }

  ghost predicate OpsOk(c: Config, s: State)
    requires s.durable <= |s.hist|
  {
    && (forall i :: 0 <= i < |s.ops| ==>
          (forall b :: b in s.ops[i].dirty ==> c.g.Home(b))
          && (forall b :: b in s.ops[i].used ==> b in s.lh)
          && |s.ops[i].used| <= c.m)
    && (forall i, j :: 0 <= i < j < |s.ops| ==> s.ops[i].id != s.ops[j].id)
    && Ids(s.ops) == Open(s.hist)
    && Open(s.hist[..s.durable]) == {}
    && (s.phase.Idle? && s.ops == [] ==> s.lh == [] && s.durable == |s.hist|)
  }

  ghost predicate Reserved(c: Config, s: State) {
    |s.lh| + Slack(s.ops, c.m) <= 10 + 2 * c.m
  }

  /** Before the header write: the disk holds want, the cache holds now, and they differ only on
      blocks that are logged or dirty. */
  ghost predicate Uncommitted(g: Geometry, disk: Disk, view: Disk, want: Disk, now: Disk, lh: seq<int>, dirty: set<int>)
    requires g.Valid() && |disk| == |view| == |want| == |now| == g.nblocks
  {
    && disk[g.start][0] == 0
    && (forall b :: g.Home(b) ==> view[b] == now[b])
    && (forall b :: g.Home(b) ==> disk[b] == want[b])
    && (forall b :: g.Home(b) && b !in lh && b !in dirty ==> view[b] == disk[b])
  }

  ghost predicate Copied(g: Geometry, disk: Disk, view: Disk, lh: seq<int>, t: nat)
    requires g.Valid() && |disk| == |view| == g.nblocks && Loggable(g, lh) && t <= |lh|
  {
    forall i :: 0 <= i < t ==> disk[g.start + 1 + i] == view[lh[i]]
  }

  /** After the header write: everything but the blocks still to be installed holds want. */
  ghost predicate Installed(g: Geometry, disk: Disk, view: Disk, want: Disk, lh: seq<int>, t: nat)
    requires g.Valid() && |disk| == |view| == |want| == g.nblocks && t <= |lh|
  {
    && Logged(g, disk, want, lh)
    && (forall b :: g.Home(b) && b !in lh[t..] ==> disk[b] == view[b] == want[b])
  }

  /** The relation between disk, cache and history. */
  ghost predicate Contents(c: Config, s: State)
    requires Shape(c, s)
  {
    var want := Replay(c.init, s.hist[..s.durable]);
    var now := Replay(c.init, s.hist);
    match s.phase
    case Idle => Uncommitted(c.g, s.disk, s.view, want, now, s.lh, Dirty(s.ops))
    case Logging(t) =>
      && Uncommitted(c.g, s.disk, s.view, want, now, s.lh, {})
      && Copied(c.g, s.disk, s.view, s.lh, t)
    case Installing(t) =>
      && s.durable == |s.hist|
      && Installed(c.g, s.disk, s.view, want, s.lh, t)
  }

  ghost predicate Inv(c: Config, s: State) {
    Shape(c, s) && HeaderReadable(c, s) && OpsOk(c, s) && Reserved(c, s) && Contents(c, s)
  }

  /** A booted system with an empty log. */
  function Boot(c: Config): State {
    State(c.init, c.init, [], [], Idle, [], 0)
  }

  // ---- sets and sums over the running operations ----

  lemma OpsAppend(ops: seq<Op>, op: Op, m: nat)
    ensures Ids(ops + [op]) == Ids(ops) + {op.id}
    ensures op.dirty == {} ==> Dirty(ops + [op]) == Dirty(ops)
    ensures Slack(ops + [op], m) == Slack(ops, m) + m - |op.used|
  {
    assert (ops + [op])[..|ops|] == ops;
    assert forall o :: o in ops + [op] <==> o in ops || o == op;
  }

  lemma {:induction false} SlackUpdate(ops: seq<Op>, i: nat, op: Op, m: nat)
    requires i < |ops|
    ensures Slack(ops[i := op], m) == Slack(ops, m) + |ops[i].used| - |op.used|
  {
    var n := |ops| - 1;
    if i == n {
      assert ops[i := op][..n] == ops[..n];
    } else {
      assert ops[i := op][..n] == ops[..n][i := op];
      SlackUpdate(ops[..n], i, op, m);
    }
  }

  lemma {:induction false} SlackWithout(ops: seq<Op>, i: nat, m: nat)
    requires i < |ops|
    ensures Slack(Without(ops, i), m) == Slack(ops, m) - m + |ops[i].used|
  {
    var n := |ops| - 1;
    var rest := Without(ops, i);
    if i == n {
      assert rest == ops[..n];
    } else {
      assert rest[..n - 1] == Without(ops[..n], i);
      assert rest[n - 1] == ops[n];
      SlackWithout(ops[..n], i, m);
    }
  }

  lemma {:induction false} SlackBounds(ops: seq<Op>, m: nat)
    requires forall i :: 0 <= i < |ops| ==> |ops[i].used| <= m
    ensures 0 <= Slack(ops, m) <= m * |ops|
  {
    if ops != [] {
      SlackBounds(ops[..|ops| - 1], m);
      assert m * |ops| == m * (|ops| - 1) + m;
    }
  }

  lemma OpsUpdate(ops: seq<Op>, i: nat, op: Op)
    requires i < |ops| && op.id == ops[i].id
    ensures Ids(ops[i := op]) == Ids(ops)
    ensures Dirty(ops[i := op]) <= Dirty(ops) + op.dirty
    ensures Dirty(ops) <= Dirty(ops[i := op]) + (ops[i].dirty - op.dirty)
  {
    var us := ops[i := op];
    assert us[i] == op && us[i] in us;
    forall o | o in ops
      ensures o == ops[i] || o in us
    {
      var j :| 0 <= j < |ops| && ops[j] == o;
      assert us[j] == if j == i then op else o;
    }
  }

  lemma OpsWithout(ops: seq<Op>, i: nat)
    requires i < |ops|
    requires forall i, j :: 0 <= i < j < |ops| ==> ops[i].id != ops[j].id
    ensures Ids(Without(ops, i)) == Ids(ops) - {ops[i].id}
    ensures Dirty(ops) <= Dirty(Without(ops, i)) + ops[i].dirty
    ensures forall o :: o in Without(ops, i) ==> o in ops
  {
    var us := Without(ops, i);
    forall o | o in ops && o != ops[i]
      ensures o in us
    {
      var j :| 0 <= j < |ops| && ops[j] == o;
      assert us[if j < i then j else j - 1] == o;
    }
    forall o | o in us
      ensures o in ops && o.id != ops[i].id
    {
      var j :| 0 <= j < |us| && us[j] == o;
      assert o == ops[if j < i then j else j + 1];
    }
  }

  /** s' follows from s by a.  Shape and HeaderReadable only make the successor well defined;
      RunKeeps shows that they hold in every state of every run. */
  ghost predicate Step(c: Config, s: State, a: Action, s': State) {
    Shape(c, s) && HeaderReadable(c, s) && Enabled(c, s, a) && s' == Next(c, s, a)
  }

  // ---- every action keeps the invariant ----

  lemma HistAppend(init: Disk, h: seq<Event>, e: Event, k: nat)
    requires k <= |h|
    ensures (h + [e])[..k] == h[..k]
    ensures (h + [e])[..|h|] == h
    ensures Replay(init, h + [e]) == Effect(Replay(init, h), e)
    ensures Open(h + [e]) == OpenAfter(Open(h), e)
  {
    assert (h + [e])[..|h|] == h;
  }

  lemma FreshId(ops: seq<Op>, id: nat)
    requires id !in Ids(ops)
    ensures forall i :: 0 <= i < |ops| ==> ops[i].id != id
  {
    forall i | 0 <= i < |ops|
      ensures ops[i].id != id
    {
      assert ops[i].id in Ids(ops);
    }
  }

  lemma BeginOps(c: Config, s: State, id: nat, t: State)
    requires Inv(c, s) && Step(c, s, Begin(id), t)
    ensures Shape(c, t) && OpsOk(c, t)
  {
    hide HeaderReadable, Contents, Reserved, Replay, Open, Slack, Dirty, Ids, Loggable;
    HistAppend(c.init, s.hist, Begun(id), s.durable);
    OpsAppend(s.ops, Op(id, {}, {}), c.m);
    FreshId(s.ops, id);
  }

  lemma BeginContents(c: Config, s: State, id: nat, t: State)
    requires Inv(c, s) && Step(c, s, Begin(id), t)
    requires Shape(c, t)
    ensures Contents(c, t)
  {
    HistAppend(c.init, s.hist, Begun(id), s.durable);
    OpsAppend(s.ops, Op(id, {}, {}), c.m);
    hide HeaderReadable, OpsOk, Reserved, Replay, Open, Slack, Loggable, Dirty, Ids;
  }

  /** With k operations running, begin_op admits one more only below 30 - 10 * (k + 1) blocks. */
  lemma BeginReserved(c: Config, s: State, id: nat, t: State)
    requires Inv(c, s) && Step(c, s, Begin(id), t)
    ensures Reserved(c, t)
  {
    OpsAppend(s.ops, Op(id, {}, {}), c.m);
    AdmissionBound(c, s);
    hide Contents, Shape, OpsOk, Slack;
  }

  lemma AdmissionBound(c: Config, s: State)
    requires Inv(c, s) && s.phase.Idle? && |s.lh| + (|s.ops| + 1) * MAXOPBLOCKS <= LOGSIZE
    ensures |s.lh| + Slack(s.ops, c.m) + c.m <= 10 + 2 * c.m
  {
    SlackBounds(s.ops, c.m);
    hide Contents, Loggable, Slack;
    if s.ops != [] {
      var k := |s.ops|;
      assert c.m * k + c.m <= 10 * (k + 1) - 2 * (10 - c.m) by {
        assert (10 - c.m) * (k + 1) >= (10 - c.m) * 2;
      }
    }
  }

  lemma StoreOps(c: Config, s: State, i: nat, b: int, data: Block, t: State)
    requires Inv(c, s) && Step(c, s, Store(i, b, data), t)
    ensures Shape(c, t) && OpsOk(c, t) && Reserved(c, t)
  {
    hide HeaderReadable, Contents, Replay, Open, Slack, Loggable, Dirty, Ids;
    var op := s.ops[i].(dirty := s.ops[i].dirty + {b});
    HistAppend(c.init, s.hist, Stored(s.ops[i].id, b, data), s.durable);
    OpsUpdate(s.ops, i, op);
    SlackUpdate(s.ops, i, op, c.m);
  }

  lemma StoreContents(c: Config, s: State, i: nat, b: int, data: Block, t: State)
    requires Inv(c, s) && Step(c, s, Store(i, b, data), t)
    requires Shape(c, t)
    ensures Contents(c, t)
  {
    var op := s.ops[i].(dirty := s.ops[i].dirty + {b});
    HistAppend(c.init, s.hist, Stored(s.ops[i].id, b, data), s.durable);
    OpsUpdate(s.ops, i, op);
    assert b in Dirty(s.ops[i := op]) by {
      assert s.ops[i := op][i] == op;
    }
    hide HeaderReadable, OpsOk, Reserved, Replay, Open, Slack, Loggable, Dirty, Ids;
  }

  lemma LogWriteOps(c: Config, s: State, i: nat, b: int, t: State)
    requires Inv(c, s) && Step(c, s, LogWrite(i, b), t)
    ensures Shape(c, t) && OpsOk(c, t)
  {
    hide HeaderReadable, Contents, Reserved, Replay, Open, Slack, Dirty, Ids, Loggable;
    var op := s.ops[i].(dirty := s.ops[i].dirty - {b}, used := s.ops[i].used + {b});
    OpsUpdate(s.ops, i, op);
    LogWriteLoggable(c.g, s.lh, b);
  }

  lemma LogWriteReserved(c: Config, s: State, i: nat, b: int, t: State)
    requires Inv(c, s) && Step(c, s, LogWrite(i, b), t)
    ensures Reserved(c, t)
  {
    var used := s.ops[i].used;
    var op := s.ops[i].(dirty := s.ops[i].dirty - {b}, used := used + {b});
    SlackUpdate(s.ops, i, op, c.m);
    assert b in used ==> b in s.lh;
    assert |used + {b}| == if b in used then |used| else |used| + 1 by {
      if b in used { assert used + {b} == used; }
    }
    hide Contents, Shape, OpsOk, Slack;
  }

  lemma LogWriteContents(c: Config, s: State, i: nat, b: int, t: State)
    requires Inv(c, s) && Step(c, s, LogWrite(i, b), t)
    requires Shape(c, t)
    ensures Contents(c, t)
  {
    var op := s.ops[i].(dirty := s.ops[i].dirty - {b}, used := s.ops[i].used + {b});
    OpsUpdate(s.ops, i, op);
    hide HeaderReadable, OpsOk, Reserved, Replay, Open, Slack, Loggable, Dirty, Ids;
  }

  lemma EndOps(c: Config, s: State, i: nat, t: State)
    requires Inv(c, s) && Step(c, s, End(i), t)
    ensures Shape(c, t) && OpsOk(c, t)
  {
    hide HeaderReadable, Contents, Reserved, Replay, Open, Slack, Dirty, Ids, Loggable;
    HistAppend(c.init, s.hist, Ended(s.ops[i].id), s.durable);
    OpsWithout(s.ops, i);
    var h := s.hist + [Ended(s.ops[i].id)];
    assert h[..|h|] == h;
    NoIds(Without(s.ops, i));
  }

  lemma EndReserved(c: Config, s: State, i: nat, t: State)
    requires Inv(c, s) && Step(c, s, End(i), t)
    ensures Reserved(c, t)
  {
    SlackWithout(s.ops, i, c.m);
    hide Contents, Shape, Slack;
  }

  lemma EndContents(c: Config, s: State, i: nat, t: State)
    requires Inv(c, s) && Step(c, s, End(i), t)
    requires Shape(c, t)
    ensures Contents(c, t)
  {
    hide HeaderReadable, Reserved, Replay, Open, Slack, Loggable, Dirty, Ids;
    HistAppend(c.init, s.hist, Ended(s.ops[i].id), s.durable);
    OpsWithout(s.ops, i);
    HistWhole(t.hist);
    NoDirty(Without(s.ops, i));
    assert t.disk == s.disk && t.view == s.view && t.lh == s.lh && t.ops == Without(s.ops, i);
  }

  lemma HistWhole(h: seq<Event>)
    ensures h[..|h|] == h
  {
  }

  lemma NoIds(ops: seq<Op>)
    ensures ops == [] ==> Ids(ops) == {}
  {
  }

  lemma NoDirty(ops: seq<Op>)
    ensures ops == [] ==> Dirty(ops) == {}
  {
  }

  lemma InstallingDurable(c: Config, s: State)
    requires Inv(c, s) && s.phase.Installing?
    ensures s.durable == |s.hist|
  {
  }

  lemma CommitOps(c: Config, s: State, t: State)
    requires Inv(c, s) && Step(c, s, Commit, t)
    ensures Shape(c, t) && OpsOk(c, t) && Reserved(c, t)
  {
    hide Replay, WithEntries, Logged, Contents;
    HistWhole(s.hist);
    NoIds(s.ops);
    if s.phase.Installing? { InstallingDurable(c, s); }
  }

  lemma LoggingContents(c: Config, s: State, t: State)
    requires Inv(c, s) && s.phase.Logging? && s.phase.tail < |s.lh|
    requires Step(c, s, Commit, t) && Shape(c, t)
    ensures Contents(c, t)
  {
    hide HeaderReadable, OpsOk, Reserved, Replay, Distinct, Dirty, Logged;
  }

  lemma MarkingLogged(c: Config, s: State)
    requires Inv(c, s) && s.phase.Logging? && s.phase.tail == |s.lh|
    ensures Logged(c.g, s.disk[c.g.start := WithEntries(s.view[c.g.start], s.lh)], Replay(c.init, s.hist), s.lh)
  {
    hide HeaderReadable, OpsOk, Reserved, Replay, Distinct, Dirty, WithEntries;
    EntriesOfWithEntries(s.view[c.g.start], s.lh);
  }

  /** The header write is where a transaction becomes durable. */
  lemma MarkingContents(c: Config, s: State, t: State)
    requires Inv(c, s) && s.phase.Logging? && s.phase.tail == |s.lh|
    requires Step(c, s, Commit, t) && Shape(c, t)
    ensures Contents(c, t)
  {
    hide HeaderReadable, OpsOk, Reserved, Replay, Distinct, Dirty, WithEntries, Logged, Loggable;
    HistWhole(s.hist);
    MarkingLogged(c, s);
    assert s.lh[0..] == s.lh;
  }

  lemma TailShrinks(s: seq<int>, k: nat, b: int)
    requires k < |s| && b !in s[k + 1..]
    ensures b == s[k] || b !in s[k..]
  {
    assert s[k..] == [s[k]] + s[k + 1..];
  }

  lemma InstallTail(g: Geometry, disk: Disk, view: Disk, want: Disk, lh: seq<int>, k: nat)
    requires g.Valid() && |disk| == |view| == |want| == g.nblocks && k < |lh|
    requires Installed(g, disk, view, want, lh, k)
    requires g.Home(lh[k]) && view[g.start + 1 + k] == disk[g.start + 1 + k]
    ensures var data := view[g.start + 1 + k];
            Installed(g, disk[lh[k] := data], view[lh[k] := data], want, lh, k + 1)
  {
    hide Distinct;
    forall b | g.Home(b) && b !in lh[k + 1..]
      ensures b == lh[k] || b !in lh[k..]
    {
      TailShrinks(lh, k, b);
    }
  }

  lemma InstallingContents(c: Config, s: State, t: State)
    requires Inv(c, s) && s.phase.Installing? && s.phase.tail < |s.lh|
    requires Step(c, s, Commit, t) && Shape(c, t)
    ensures Contents(c, t)
  {
    hide HeaderReadable, OpsOk, Reserved, Replay, Dirty, Logged, Distinct, Installed;
    var k := s.phase.tail;
    var want := Replay(c.init, s.hist[..s.durable]);
    assert c.g.InLog(c.g.start + 1 + k) && c.g.Home(s.lh[k]);
    InstallTail(c.g, s.disk, s.view, want, s.lh, k);
    assert t == s.(disk := t.disk, view := t.view, phase := Installing(k + 1));
    assert Installed(c.g, t.disk, t.view, want, t.lh, k + 1);
  }

  lemma ClearingContents(c: Config, s: State, t: State)
    requires Inv(c, s) && s.phase.Installing? && s.phase.tail == |s.lh|
    requires Step(c, s, Commit, t) && Shape(c, t)
    ensures Contents(c, t)
  {
    EntriesOfWithEntries(s.view[c.g.start], []);
    assert s.hist[..|s.hist|] == s.hist;
    hide HeaderReadable, OpsOk, Reserved, Replay, Distinct, Dirty, WithEntries;
  }

  /** Whenever the machine stops, the header lists a transaction that recovery can replay. */
  lemma Recoverable(c: Config, s: State)
    requires Inv(c, s)
    ensures 0 <= s.disk[c.g.start][0] <= LOGSIZE
    ensures Entries(s.disk[c.g.start]) == if s.phase.Installing? then s.lh else []
    ensures Logged(c.g, s.disk, Replay(c.init, s.hist[..s.durable]), Entries(s.disk[c.g.start]))
  {
    assert Distinct([]);
    hide HeaderReadable, OpsOk, Reserved, Replay, Distinct, Dirty;
  }

  lemma NothingInstalled(g: Geometry, disk: Disk, want: Disk, lh: seq<int>)
    requires Logged(g, disk, want, lh)
    ensures Installed(g, disk, disk, want, lh, 0) && Loggable(g, lh)
  {
    assert lh[0..] == lh;
  }

  lemma LogBounds(c: Config, s: State)
    requires Inv(c, s)
    ensures |s.lh| <= 10 + 2 * c.m && Open(s.hist[..s.durable]) == {}
    ensures Ids([]) == {} && Slack([], c.m) == 0
  {
    hide Contents, HeaderReadable;
    SlackBounds(s.ops, c.m);
  }

  lemma CrashKeeps(c: Config, s: State, t: State)
    requires Inv(c, s) && Step(c, s, Crash, t)
    ensures Inv(c, t)
  {
    hide Replay, Distinct, Dirty, Slack, Ids, Open, Installed, Logged, Loggable, Uncommitted, Copied;
    Recoverable(c, s);
    LogBounds(c, s);
    HistWhole(s.hist[..s.durable]);
    NothingInstalled(c.g, s.disk, Replay(c.init, s.hist[..s.durable]), Entries(s.disk[c.g.start]));
  }

  lemma StepKeeps(c: Config, s: State, a: Action, t: State)
    requires Inv(c, s) && Step(c, s, a, t)
    ensures Inv(c, t)
  {
    match a
    case Begin(id) => BeginOps(c, s, id, t); BeginReserved(c, s, id, t); BeginContents(c, s, id, t);
    case Store(i, b, data) => StoreOps(c, s, i, b, data, t); StoreContents(c, s, i, b, data, t);
    case LogWrite(i, b) =>
      LogWriteOps(c, s, i, b, t); LogWriteReserved(c, s, i, b, t); LogWriteContents(c, s, i, b, t);
    case End(i) => EndOps(c, s, i, t); EndReserved(c, s, i, t); EndContents(c, s, i, t);
    case Commit =>
      CommitOps(c, s, t);
      if s.phase.Logging? {
        if s.phase.tail < |s.lh| { LoggingContents(c, s, t); } else { MarkingContents(c, s, t); }
      } else {
        if s.phase.tail < |s.lh| { InstallingContents(c, s, t); } else { ClearingContents(c, s, t); }
      }
    case Crash => CrashKeeps(c, s, t);
  }

  // ---- runs ----

  ghost predicate Run(c: Config, ss: seq<State>, acts: seq<Action>) {
    && c.Valid() && |ss| == |acts| + 1 && ss[0] == Boot(c)
    && forall i :: 0 <= i < |acts| ==> Step(c, ss[i], acts[i], ss[i + 1])
  }

  lemma BootOk(c: Config)
    requires c.Valid()
    ensures Inv(c, Boot(c))
  {
  }

  lemma {:induction false} RunKeeps(c: Config, ss: seq<State>, acts: seq<Action>, k: nat)
    requires Run(c, ss, acts) && k < |ss|
    ensures Inv(c, ss[k])
  {
    hide Inv, Step;
    if k == 0 {
      BootOk(c);
    } else {
      RunKeeps(c, ss, acts, k - 1);
      StepKeeps(c, ss[k - 1], acts[k - 1], ss[k]);
    }
  }

  /** Crash safety: stop the machine at any moment of any run, with any number of crashes and
      cut-off recoveries before.  Recovery then yields exactly the effect of a prefix of the
      history, in which no operation is half done. */
  lemma CrashSafety(c: Config, ss: seq<State>, acts: seq<Action>, k: nat)
    requires Run(c, ss, acts) && k < |ss|
    ensures var s := ss[k];
            && s.durable <= |s.hist|
            && Recovers(c.g, s.disk, Replay(c.init, s.hist[..s.durable]))
            && Open(s.hist[..s.durable]) == {}
  {
    RunKeeps(c, ss, acts, k);
    var s := ss[k];
    Recoverable(c, s);
    LoggedDiskRecovers(c.g, s.disk, Replay(c.init, s.hist[..s.durable]), Entries(s.disk[c.g.start]));
  }

  /** When nothing runs and nothing is being committed, everything done so far is durable, and
      the cache shows exactly that. */
  lemma QuiescentIsDurable(c: Config, ss: seq<State>, acts: seq<Action>, k: nat)
    requires Run(c, ss, acts) && k < |ss|
    requires ss[k].phase.Idle? && ss[k].ops == []
    ensures Shape(c, ss[k])
    ensures var s := ss[k];
            && s.durable == |s.hist| && s.lh == []
            && forall b :: c.g.Home(b) ==> s.disk[b] == s.view[b] == Replay(c.init, s.hist)[b]
  {
    RunKeeps(c, ss, acts, k);
    HistWhole(ss[k].hist);
  }

  /** A step other than a crash only extends the history and never takes back what is durable;
      the durable part grows only when no operation is running, and then takes in everything. */
  lemma DurableGrows(c: Config, s: State, a: Action, t: State)
    requires Inv(c, s) && Step(c, s, a, t)
    ensures a.Crash? ==> t.hist == s.hist[..s.durable] && t.durable == s.durable
    ensures !a.Crash? ==> s.hist <= t.hist && s.durable <= t.durable
    ensures t.durable != s.durable ==> t.ops == [] && t.durable == |t.hist|
  {
    hide HeaderReadable, Reserved, Replay, Open, Slack, Loggable, Dirty, Ids, Uncommitted, Installed;
  }

  /** The step from s to t writes home block b. */
  ghost predicate WritesHome(c: Config, s: State, t: State, b: int) {
    c.g.Home(b) && |s.disk| == |t.disk| == |c.init| == c.g.nblocks && t.disk[b] != s.disk[b]
  }

  /** The only step that writes home blocks is an iteration of install_trans. */
  lemma HomeWrittenByInstall(c: Config, s: State, a: Action, t: State, b: int)
    requires Inv(c, s) && Step(c, s, a, t) && WritesHome(c, s, t, b)
    ensures a.Commit? && s.phase.Installing? && s.phase.tail < |s.lh|
    ensures b == s.lh[s.phase.tail] && t.disk[b] == s.view[c.g.start + 1 + s.phase.tail]
  {
    hide HeaderReadable, OpsOk, Reserved, Contents, Distinct;
    assert a.Commit?;
  }

  /** No home block is written while an operation is outstanding or before the header write, and
      what is written there is the committed contents. */
  lemma HomeWrittenAfterCommit(c: Config, s: State, a: Action, t: State, b: int)
    requires Inv(c, s) && Step(c, s, a, t) && WritesHome(c, s, t, b)
    ensures a.Commit? && s.phase.Installing? && s.ops == [] && b in s.lh
    ensures t.disk[b] == Replay(c.init, s.hist)[b]
  {
    hide HeaderReadable, OpsOk, Reserved, Replay, Distinct, Dirty, Ids, Step;
    HomeWrittenByInstall(c, s, a, t, b);
    HistWhole(s.hist);
    assert c.g.InLog(c.g.start + 1 + s.phase.tail);
  }

  /** While committing is set no operation runs and log.lh stays as it is until it is cleared. */
  lemma CommittingFreezesLog(c: Config, s: State, a: Action, t: State)
    requires Inv(c, s) && Step(c, s, a, t) && !s.phase.Idle?
    ensures a.Commit? || a.Crash?
    ensures s.ops == [] && t.ops == []
    ensures a.Commit? ==> if t.phase.Idle? then t.lh == [] else t.lh == s.lh
  {
    hide Contents, HeaderReadable, Reserved, Replay, Open, Slack, Loggable, Dirty, Ids;
  }

  // ---- the committer's steps are a commit ----

  /** The block that WriteStep writes. */
  function WriteOf(g: Geometry, s: State): (w: Write)
    requires g.Valid() && |s.disk| == |s.view| == g.nblocks && Loggable(g, s.lh)
    requires !s.phase.Idle? && s.phase.tail <= |s.lh|
    ensures w.block < |s.disk| && WriteStep(g, s).disk == s.disk[w.block := w.data]
  {
    var t := s.phase.tail;
    match s.phase
    case Logging(_) =>
      if t < |s.lh| then Write(g.start + 1 + t, s.view[s.lh[t]]) else Write(g.start, WithEntries(s.view[g.start], s.lh))
    case Installing(_) =>
      if t < |s.lh| then Write(s.lh[t], s.view[g.start + 1 + t]) else Write(g.start, WithEntries(s.view[g.start], []))
  }

  /** s is the state after i of the writes of the commit that began in s0. */
  ghost predicate Committing(g: Geometry, s0: State, s: State, i: nat) {
    && g.Valid() && |s0.view| == |s.view| == |s.disk| == g.nblocks && Loggable(g, s0.lh) && s.lh == s0.lh && i <= 2 * |s0.lh| + 1
    && s.phase == (if i <= |s0.lh| then Logging(i) else Installing(i - |s0.lh| - 1))
    && (forall b :: g.Home(b) ==> s.view[b] == s0.view[b])
    && (forall j :: 0 <= j < i && j < |s0.lh| ==> s.view[g.start + 1 + j] == s0.view[s0.lh[j]])
    && s.view[g.start] == if i <= |s0.lh| then s0.view[g.start] else WithEntries(s0.view[g.start], s0.lh)
  }

  /** The i-th write of a commit, as IsCommit lists them. */
  function CommitWrite(g: Geometry, view: Disk, lh: seq<int>, i: nat): Write
    requires g.Valid() && |view| == g.nblocks && Loggable(g, lh) && i <= 2 * |lh| + 1
  {
    var n := |lh|;
    if i < n then Write(g.start + 1 + i, view[lh[i]])
    else if i == n then Write(g.start, WithEntries(view[g.start], lh))
    else if i < 2 * n + 1 then Write(lh[i - n - 1], view[lh[i - n - 1]])
    else Write(g.start, WithEntries(WithEntries(view[g.start], lh), []))
  }

  lemma CommittingGoesOn(g: Geometry, s0: State, s: State, i: nat)
    requires Committing(g, s0, s, i)
    ensures WriteOf(g, s) == CommitWrite(g, s0.view, s0.lh, i)
    ensures i < 2 * |s0.lh| + 1 ==> Committing(g, s0, WriteStep(g, s), i + 1)
  {
    hide Distinct, WithEntries;
    if i > |s0.lh| && i - |s0.lh| - 1 < |s0.lh| {
      var j := i - |s0.lh| - 1;
      assert s.view[g.start + 1 + j] == s0.view[s0.lh[j]];
      assert g.Home(s0.lh[j]);
    }
  }

  /** The disk after i of the committer's steps, and the writes they have made. */
  lemma {:induction false} CommitSteps(c: Config, ss: seq<State>, i: nat) returns (ws: seq<Write>)
    requires ss != [] && |ss| == 2 * |ss[0].lh| + 3 && Inv(c, ss[0]) && ss[0].phase == Logging(0) && i <= 2 * |ss[0].lh| + 2
    requires forall k :: 0 <= k < |ss| - 1 ==> Step(c, ss[k], Commit, ss[k + 1])
    ensures |ws| == i && forall k {:trigger ws[k]} :: 0 <= k < i ==> ws[k] == CommitWrite(c.g, ss[0].view, ss[0].lh, k)
    ensures Wrote(ss[0].disk, ws, ss[i].disk)
    ensures i <= 2 * |ss[0].lh| + 1 ==> Committing(c.g, ss[0], ss[i], i)
  {
    hide Contents, HeaderReadable, OpsOk, Reserved, Committing, CommitWrite, WriteStep, WriteOf, Wrote, Loggable;
    if i == 0 {
      ws := [];
      WroteNothing(ss[0].disk);
      CommittingStarts(c, ss[0]);
    } else {
      ws := CommitSteps(c, ss, i - 1);
      var s := ss[i - 1];
      CommittingGoesOn(c.g, ss[0], s, i - 1);
      assert Step(c, s, Commit, ss[i]);
      var w := WriteOf(c.g, s);
      WroteOneMore(ss[0].disk, ws, s.disk, w);
      ws := ws + [w];
    }
  }

  lemma CommittingStarts(c: Config, s: State)
    requires Inv(c, s) && s.phase == Logging(0)
    ensures Committing(c.g, s, s, 0)
  {
    hide Contents, HeaderReadable, OpsOk, Reserved;
  }

  /** The 2n + 2 steps of the committer write exactly what LogLayout takes one commit() to write. */
  lemma CommitterCommits(c: Config, ss: seq<State>) returns (ws: seq<Write>)
    requires ss != [] && |ss| == 2 * |ss[0].lh| + 3 && Inv(c, ss[0]) && ss[0].phase == Logging(0)
    requires forall k :: 0 <= k < |ss| - 1 ==> Step(c, ss[k], Commit, ss[k + 1])
    ensures IsCommit(c.g, ss[0].disk, ss[0].view, ss[0].lh, ws)
    ensures Wrote(ss[0].disk, ws, ss[|ss| - 1].disk)
  {
    hide Contents, HeaderReadable, OpsOk, Reserved, Committing, WriteStep, Distinct, WithEntries, Step, Wrote;
    ws := CommitSteps(c, ss, |ss| - 1);
    assert c.g.InLog(c.g.start);
    var n := |ss[0].lh|;
    forall i | n + 1 <= i < 2 * n + 1
      ensures ws[i] == Write(ss[0].lh[i - n - 1], ss[0].view[ss[0].lh[i - n - 1]])
    {
      assert ws[i] == CommitWrite(c.g, ss[0].view, ss[0].lh, i);
    }
  }

  /** What begin_op tests before it sleeps on &log: nothing commits, and one more operation fits. */
  predicate Admits(s: State) {
    s.phase.Idle? && |s.lh| + (|s.ops| + 1) * MAXOPBLOCKS <= LOGSIZE
  }

  /** The outcome of begin_op's test turns from sleeping to admitting only where end_op calls
      wakeup(&log), as module LogSleep has it: when an operation ends that is not the last, when the
      last ends with nothing logged, and when a commit has cleared the log. */
  lemma SleepersAreTold(c: Config, s: State, a: Action, t: State)
    requires Inv(c, s) && Step(c, s, a, t) && !Admits(s) && Admits(t)
    ensures (a.End? && (t.ops != [] || s.lh == [])) || (a.Commit? && s.phase.Installing? && s.phase.tail == |s.lh|)
    ensures a.Commit? ==> t.lh == [] && t.ops == []
  {
    hide Contents, HeaderReadable, OpsOk, Reserved, Replay, Open, Slack, Loggable, Dirty, Ids, WithEntries;
  }

  /** Reservation: with at most m distinct blocks an operation, the log never holds more than
      10 + 2m blocks; so never more than LOGSIZE, and for m <= 9 never as many as 29. */
  lemma LogNeverTooBig(c: Config, ss: seq<State>, acts: seq<Action>, k: nat)
    requires Run(c, ss, acts) && k < |ss|
    ensures |ss[k].lh| <= 10 + 2 * c.m <= LOGSIZE
    ensures c.m <= 9 && c.g.size == LOGSIZE ==> !TooBig(c.g, ss[k])
  {
    RunKeeps(c, ss, acts, k);
    var s := ss[k];
    SlackBounds(s.ops, c.m);
  }

  // ---- the limit of log_write is reached when every operation may log MAXOPBLOCKS ----

  ghost predicate Reachable(c: Config, s: State) {
    exists ss, acts :: Run(c, ss, acts) && s == ss[|acts|]
  }

  lemma ReachableNext(c: Config, s: State, a: Action) returns (t: State)
    requires Reachable(c, s) && Enabled(c, s, a)
    ensures Reachable(c, t) && Inv(c, s) && Step(c, s, a, t)
  {
    var ss, acts :| Run(c, ss, acts) && s == ss[|acts|];
    RunKeeps(c, ss, acts, |acts|);
    hide Inv, Enabled, Next;
    t := Next(c, s, a);
    var ss', acts' := ss + [t], acts + [a];
    forall i | 0 <= i < |acts'|
      ensures Step(c, ss'[i], acts'[i], ss'[i + 1])
    {
      if i < |acts| {
        assert Step(c, ss[i], acts[i], ss[i + 1]);
      }
    }
    assert Run(c, ss', acts') && t == ss'[|acts'|];
  }

  ghost predicate InTen(op: Op, j: nat, k: nat) {
    op.dirty == {} && forall x :: x in op.used ==> 100 + 10 * j <= x < 110 + 10 * j && x < 100 + k
  }

  /** Three operations run and have logged blocks 100 .. 100+k-1, ten each, in order. */
  ghost predicate Filled(s: State, k: nat) {
    && s.phase.Idle? && |s.ops| == 3 && |s.lh| == k
    && (forall x :: x in s.lh ==> 100 <= x < 100 + k)
    && InTen(s.ops[0], 0, k) && InTen(s.ops[1], 1, k) && InTen(s.ops[2], 2, k)
  }

  lemma StoreOne(c: Config, s: State, j: nat, b: int) returns (t: State)
    requires Reachable(c, s) && j < |s.ops| && c.g.Home(b) && |c.init| > 0
    ensures Reachable(c, t) && t.phase == s.phase && t.lh == s.lh
    ensures t.ops == s.ops[j := s.ops[j].(dirty := s.ops[j].dirty + {b})]
  {
    hide Inv, Reachable, Shape, HeaderReadable;
    t := ReachableNext(c, s, Store(j, b, c.init[0]));
  }

  lemma LogOne(c: Config, s: State, j: nat, b: int) returns (t: State)
    requires Reachable(c, s) && Enabled(c, s, LogWrite(j, b))
    ensures Reachable(c, t) && t.phase == s.phase
    ensures t.lh == if b in s.lh then s.lh else s.lh + [b]
    ensures t.ops == s.ops[j := Op(s.ops[j].id, s.ops[j].dirty - {b}, s.ops[j].used + {b})]
  {
    hide Inv, Reachable, Shape, HeaderReadable;
    t := ReachableNext(c, s, LogWrite(j, b));
  }

  lemma FillOne(c: Config, s: State, k: nat) returns (t: State)
    requires Reachable(c, s) && Filled(s, k) && k < 29
    requires c.g == Geometry(2, 30, 2000) && c.m == 10 && |c.init| > 0
    ensures Reachable(c, t) && Filled(t, k + 1)
  {
    var j, b := k / 10, 100 + k;
    RangeSize(s.ops[j].used + {b}, 100 + 10 * j, 10);
    hide Reachable;
    var u := StoreOne(c, s, j, b);
    t := LogOne(c, u, j, b);
    assert u.ops[j].dirty - {b} == {};
  }

  lemma {:induction false} Fill(c: Config, s: State, k: nat) returns (t: State)
    requires Reachable(c, s) && Filled(s, k) && k <= 29
    requires c.g == Geometry(2, 30, 2000) && c.m == 10 && |c.init| > 0
    ensures Reachable(c, t) && Filled(t, 29)
    decreases 29 - k
  {
    hide Reachable, Filled;
    if k == 29 {
      t := s;
    } else {
      t := FillOne(c, s, k);
      t := Fill(c, t, k + 1);
    }
  }

  /** On the file system that mkfs lays out, operations that keep to MAXOPBLOCKS can drive
      log_write into its panic: the third of three admitted operations still has a block of its
      budget left when the log is at log.size - 1. */
  lemma BudgetTenOverflows(c: Config) returns (s: State, i: nat, b: int)
    requires c.Valid() && c.g == Geometry(2, 30, 2000) && c.m == 10
    ensures Reachable(c, s) && i < |s.ops|
    ensures b in s.ops[i].dirty && |s.ops[i].used + {b}| <= c.m && TooBig(c.g, s)
  {
    s := ThreeRunning(c);
    s := Fill(c, s, 0);
    i, b := 2, 129;
    RangeSize(s.ops[2].used + {b}, 120, 10);
    hide Reachable;
    s := StoreOne(c, s, 2, b);
  }

  lemma ThreeRunning(c: Config) returns (s: State)
    requires c.Valid() && c.g == Geometry(2, 30, 2000) && c.m == 10
    ensures Reachable(c, s) && Filled(s, 0)
  {
    assert Run(c, [Boot(c)], []);
    s := Boot(c);
    hide Inv, Reachable;
    s := OneMore(c, s);
    s := OneMore(c, s);
    s := OneMore(c, s);
  }

  lemma OneMore(c: Config, s: State) returns (t: State)
    requires Reachable(c, s) && s.phase.Idle? && s.lh == [] && |s.ops| < 3
    requires forall i :: 0 <= i < |s.ops| ==> s.ops[i] == Op(i, {}, {})
    ensures Reachable(c, t) && t.phase.Idle? && t.lh == [] && |t.ops| == |s.ops| + 1
    ensures forall i :: 0 <= i < |t.ops| ==> t.ops[i] == Op(i, {}, {})
  {
    hide Inv, Reachable, Shape, HeaderReadable;
    t := ReachableNext(c, s, Begin(|s.ops|));
  }
}
