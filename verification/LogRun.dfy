/** Whole runs of the log of log.c: operations that update blocks one after the other, a crash after any sector
    write of a commit, and the restart on whatever is then on the disk. */
module LogRun {
  import opened Bytes
  import opened Common
  import opened LogCrash
  import opened LogHeader
  import opened MemIde
  import opened Bio
  import opened Log

  /** A new contents for a home sector. */
  datatype Change = Change(sector: uint, data: Block)

  /** One operation, alone in its transaction: the blocks it updates, in order; after how many of the sector writes
      of its commit the machine stops, if it does; and then after how many of its writes each recovery but the last
      one is cut short. */
  datatype Deed = Deed(changes: seq<Change>, crash: Option<nat>, cuts: seq<nat>)

  /** The home sectors with the changes made, the last one of each sector counting. */
  function Changed(h: seq<Block>, cs: seq<Change>): (r: seq<Block>)
    ensures |r| == |h|
  {
    if cs == [] then h
    else
      var c, before := cs[|cs| - 1], Changed(h, cs[..|cs| - 1]);
      if c.sector < |h| then before[c.sector := c.data] else before
  }

  /** The sectors concerned. */
  function Touched(cs: seq<Change>): (r: set<uint>)
  {
    if cs == [] then {} else Touched(cs[..|cs| - 1]) + {cs[|cs| - 1].sector}
  }

  /** The header write is reached: the operation is durable. */
  predicate Survives(d: Deed)
  {
    d.crash.None? || d.crash.value > |Touched(d.changes)|
  }

  /** What a store that performs operations atomically makes of one. */
  function Done(h: seq<Block>, d: Deed): (r: seq<Block>)
    ensures |r| == |h|
  {
    if Survives(d) then Changed(h, d.changes) else h
  }

  function AllDone(h: seq<Block>, ds: seq<Deed>): (r: seq<Block>)
    ensures |r| == |h|
  {
    if ds == [] then h else Done(AllDone(h, ds[..|ds| - 1]), ds[|ds| - 1])
  }

  lemma AllDoneMore(h: seq<Block>, ds: seq<Deed>, i: nat)
    requires i < |ds|
    ensures AllDone(h, ds[..i + 1]) == Done(AllDone(h, ds[..i]), ds[i])
  {
    assert ds[..i + 1][..i] == ds[..i];
  }

  predicate InHome(cs: seq<Change>, start: nat)
  {
    forall i :: 0 <= i < |cs| ==> cs[i].sector < start
  }

  /** The operation leaves the log a block to spare, and the log leaves the cache one. */
  predicate Small(d: Deed, size: nat)
  {
    |Touched(d.changes)| + 1 < size <= LOGSIZE
  }

  lemma {:induction false} TouchedGrows(cs: seq<Change>, k: nat)
    requires k <= |cs|
    ensures Touched(cs[..k]) <= Touched(cs)
  {
    if k < |cs| {
      var n := |cs| - 1;
      TouchedGrows(cs[..n], k);
      assert cs[..n][..k] == cs[..k];
    } else {
      assert cs[..k] == cs;
    }
  }

  lemma Snoc(h: seq<Block>, cs: seq<Change>, k: nat)
    requires k < |cs| && cs[k].sector < |h|
    ensures Changed(h, cs[..k + 1]) == Changed(h, cs[..k])[cs[k].sector := cs[k].data]
    ensures Touched(cs[..k + 1]) == Touched(cs[..k]) + {cs[k].sector}
  {
    assert cs[..k + 1][..k] == cs[..k];
  }

  /** The first `k` of the changes `cs` to the home sectors `h` have been made: readers see them and the log names
      their sectors. */
  ghost predicate Working(log: Log, h: seq<Block>, cs: seq<Change>, k: nat)
    reads log, log.bc, log.bc.disk
  {
    && log.Valid() && log.bc.held == {} && log.outstanding == 1 && k <= |cs|
    && |h| == log.start && InHome(cs, log.start)
    && log.bc.pinned == Touched(cs[..k]) && Home(log.L(), log.bc.view) == Changed(h, cs[..k])
  }

  /** While the log and the cache have room, `n` is the number of sectors touched. */
  lemma RoomLeft(log: Log, h: seq<Block>, cs: seq<Change>, k: nat)
    requires Working(log, h, cs, k)
    ensures log.n <= |Touched(cs)| && log.bc.used == log.n
  {
    log.CommitHasBuffer();
    PinnedCount(log.L(), log.Logged());
    TouchedGrows(cs, k);
    SubsetSize(Touched(cs[..k]), Touched(cs));
  }

  method UpdateNext(log: Log, ghost h: seq<Block>, cs: seq<Change>, k: nat) returns (ok: bool)
    requires Working(log, h, cs, k) && k < |cs|
    modifies log`n, log`sector, log`promised, log.bc, log.bc.disk
    ensures log.bc.disk.sectors == old(log.bc.disk.sectors) && log.bc.disk.writes == old(log.bc.disk.writes)
    ensures ok ==> Working(log, h, cs, k + 1)
    ensures |Touched(cs)| + 1 < log.size <= LOGSIZE ==> ok
  {
    RoomLeft(log, h, cs, k);
    Snoc(h, cs, k);
    HomeWrite(log.L(), log.bc.view, cs[k].sector, cs[k].data);
    ghost var secs := log.Logged();
    var r := log.UpdateBlock(cs[k].sector, cs[k].data);
    ok := r.Recorded?;
    if ok {
      NamedMore(secs, cs[k].sector);
    }
  }

  lemma NamedMore(secs: seq<uint>, s: uint)
    ensures Named(if s in secs then secs else secs + [s]) == Named(secs) + {s}
  {
    if s !in secs {
      assert (secs + [s])[|secs|] == s;
      assert forall i :: 0 <= i < |secs| ==> (secs + [s])[i] == secs[i];
    }
  }

  /** The updates of an operation. */
  method Updates(log: Log, ghost h: seq<Block>, cs: seq<Change>) returns (ok: bool)
    requires Working(log, h, cs, 0)
    modifies log`n, log`sector, log`promised, log.bc, log.bc.disk
    ensures log.bc.disk.sectors == old(log.bc.disk.sectors) && log.bc.disk.writes == old(log.bc.disk.writes)
    ensures ok ==> Working(log, h, cs, |cs|)
    ensures |Touched(cs)| + 1 < log.size <= LOGSIZE ==> ok
  {
    var i := 0;
    while i < |cs|
      invariant 0 <= i <= |cs| && Working(log, h, cs, i)
      invariant log.bc.disk.sectors == old(log.bc.disk.sectors) && log.bc.disk.writes == old(log.bc.disk.writes)
    {
      var more := UpdateNext(log, h, cs, i);
      if !more {
        return false;
      }
      i := i + 1;
    }
    ok := true;
  }

  lemma HomeWrite(l: Layout, d: Disk, s: nat, b: Block)
    requires s < l.start <= |d|
    ensures Home(l, d[s := b]) == Home(l, d)[s := b]
  {
  }

  // ---------------------------------------------------------------------------
  // One operation, with a crash or without

  /** What the disk holds when the machine stops after `k` of the sector writes issued since `n0`. */
  function Stopped(before: Disk, ws: seq<Write>, n0: nat, k: nat): (image: Disk)
    requires n0 <= |ws|
  {
    Apply(before, ws[n0..if n0 + k <= |ws| then n0 + k else |ws|])
  }

  /** A commit of `t`, which is the transaction `secs`, took the disk from `a` to `e`. */
  ghost predicate Committing(l: Layout, a: Snapshot, e: Snapshot, secs: seq<uint>, t: Txn)
  {
    forall u: int {:trigger Unfold(u)} :: Unfold(u) && u == 0 ==> CommitTrace(l, a, e, t) && t.secs == secs
  }

  /** The disk when a commit is stopped is one of the crash machine. */
  lemma StoppedCommit(l: Layout, a: Snapshot, e: Snapshot, t: Txn, k: nat)
    requires ValidDisk(l, a.sectors) && Committed(l, a.sectors) == [] && CommitTrace(l, a, e, t)
    ensures |a.writes| <= |e.writes| && l.start <= |e.sectors|
    ensures var image, m := Stopped(a.sectors, e.writes, |a.writes|, k), if k < t.Length() then k else t.Length();
      && ValidDisk(l, image) && image == CommitDisk(l, a.sectors, t, m)
      && Recovered(l, image) == if m > |t.secs| then Home(l, e.sectors) else Home(l, a.sectors)
  {
    var m := if k < t.Length() then k else t.Length();
    StoppedIs(a.sectors, a.writes, CommitWrites(l, t, t.Length()), k, m);
    CommitImage(l, a.sectors, t, m, Stopped(a.sectors, e.writes, |a.writes|, k), e.sectors);
  }

  lemma StoppedIs(before: Disk, first: seq<Write>, ws: seq<Write>, k: nat, m: nat)
    requires m == if k < |ws| then k else |ws|
    ensures Stopped(before, first + ws, |first|, k) == Apply(before, ws[..m])
  {
    Suffix(first, ws, m);
  }

  /** A disk after a recovery that is cut short. */
  lemma CutImage(l: Layout, image: Disk, e: Snapshot, erased: Block, j: nat)
    requires RecoverTrace(l, Startup(image), e, erased)
    ensures var cut, n := Stopped(image, e.writes, 0, j), |Committed(l, image)|;
      cut == RecoverDisk(l, image, erased, if j <= n then j else n + 1)
  {
    var n := |Committed(l, image)| + 1;
    var ws := RecoverWrites(l, image, erased, n);
    assert e.writes == ws && Startup(image).writes + ws == ws;
    var m := if j < n then j else n;
    StoppedIs(image, [], ws, j, m);
    assert [] + ws == ws;
    RecoveryCut(l, image, erased, m);
  }

  /** Recoveries cut short as `cuts` say and one that is not took the disk from `image` to `d`. */
  ghost predicate Restarted(l: Layout, image: Disk, cuts: seq<nat>, attempts: seq<Attempt>, erased: Block, d: Disk)
  {
    forall u: int {:trigger Unfold(u)} :: Unfold(u) && u == 3 ==>
      && Cut(l, image, cuts, attempts) && l.decode(erased) == []
      && d == Recover(l, Interrupted(l, image, attempts), erased)
  }

  ghost predicate Cut(l: Layout, image: Disk, cuts: seq<nat>, attempts: seq<Attempt>)
  {
    && ValidDisk(l, image) && |attempts| == |cuts|
    && forall i :: 0 <= i < |cuts| ==> attempts[i].kept == cuts[i] && l.decode(attempts[i].erased) == []
  }

  lemma CutMore(l: Layout, image: Disk, cuts: seq<nat>, i: nat, attempts: seq<Attempt>, e: Snapshot, erased: Block)
    requires i < |cuts| && Cut(l, image, cuts[..i], attempts)
    requires RecoverTrace(l, Startup(Interrupted(l, image, attempts)), e, erased)
    ensures var more := attempts + [Attempt(cuts[i], erased)];
      && Cut(l, image, cuts[..i + 1], more)
      && Interrupted(l, image, more) == Stopped(Interrupted(l, image, attempts), e.writes, 0, cuts[i])
  {
    var more := attempts + [Attempt(cuts[i], erased)];
    assert more[..i] == attempts;
    forall k | 0 <= k <= i ensures more[k].kept == cuts[..i + 1][k] && l.decode(more[k].erased) == [] {
      if k < i {
        assert more[k] == attempts[k] && cuts[..i][k] == cuts[k];
      }
    }
    CutImage(l, Interrupted(l, image, attempts), e, erased, cuts[i]);
  }

  /** Start on `image`, again after each recovery that is cut short. */
  method Restart(image: Disk, start: nat, size: nat, cuts: seq<nat>)
    returns (log: Log, ghost attempts: seq<Attempt>, ghost erased: Block)
    requires ValidDisk(Layout(start, size, HeaderOf), image)
    ensures log.AtRest() && fresh(log) && fresh(log.bc) && fresh(log.bc.disk)
    ensures log.start == start && log.size == size && log.decode == HeaderOf
    ensures var l := Layout(start, size, HeaderOf);
      && Home(l, log.bc.disk.sectors) == Home(l, log.bc.view) == Recovered(l, image)
      && Restarted(l, image, cuts, attempts, erased, log.bc.disk.sectors)
  {
    ghost var l := Layout(start, size, HeaderOf);
    erased, attempts := ZeroBlock(), [];
    var i, disk := 0, image;
    while i < |cuts|
      invariant 0 <= i <= |cuts| && Cut(l, image, cuts[..i], attempts) && disk == Interrupted(l, image, attempts)
    {
      var cut;
      cut, erased := Reboot(disk, start, size);
      CutMore(l, image, cuts, i, attempts, cut.Snap(), erased);
      disk := Stopped(disk, cut.bc.disk.writes, 0, cuts[i]);
      attempts := attempts + [Attempt(cuts[i], erased)];
      i := i + 1;
    }
    assert cuts[..|cuts|] == cuts;
    log, erased := Reboot(disk, start, size);
  }

  /** `e` has the sectors of the operation, its crash and the recoveries that were cut short. */
  predicate Matches(d: Deed, e: Event)
  {
    && Named(e.t.secs) == Touched(d.changes) && |e.t.secs| == |Touched(d.changes)|
    && if d.crash.None? then e.Done?
       else
         && e.Crash? && e.kept == d.crash.value && |e.attempts| == |d.cuts|
         && forall i :: 0 <= i < |d.cuts| ==> e.attempts[i].kept == d.cuts[i]
  }

  /** The event `e` of `LogCrash`, which is the operation `d`, takes the disk from `before` to `after`. */
  ghost predicate Stepped(l: Layout, before: Disk, after: Disk, d: Deed, e: Event)
  {
    forall u: int {:trigger Unfold(u)} :: Unfold(u) && u == 1 ==>
      && ValidDisk(l, before) && Committed(l, before) == [] && e.Valid(l) && Matches(d, e)
      && after == Step(l, before, e)
  }

  lemma StepDone(l: Layout, a: Snapshot, e: Snapshot, d: Deed, secs: seq<uint>, t: Txn)
    requires ValidDisk(l, a.sectors) && Committed(l, a.sectors) == [] && Committing(l, a, e, secs, t)
    requires Named(secs) == Touched(d.changes) && |secs| == |Touched(d.changes)| && d.crash.None?
    ensures Stepped(l, a.sectors, e.sectors, d, LogCrash.Done(t))
  {
    assert Unfold(0);
  }

  /** What is on disk when the commit is stopped, and what recovery owes then. */
  lemma CrashImage(l: Layout, a: Snapshot, e: Snapshot, d: Deed, secs: seq<uint>, t: Txn)
    requires ValidDisk(l, a.sectors) && Committed(l, a.sectors) == [] && Committing(l, a, e, secs, t)
    requires |secs| == |Touched(d.changes)| && d.crash.Some?
    ensures |a.writes| <= |e.writes| && l.start <= |e.sectors|
    ensures var image := Stopped(a.sectors, e.writes, |a.writes|, d.crash.value);
      ValidDisk(l, image) && Recovered(l, image) == if Survives(d) then Home(l, e.sectors) else Home(l, a.sectors)
  {
    assert Unfold(0);
    StoppedCommit(l, a, e, t, d.crash.value);
    assert secs == [] ==> e.sectors == a.sectors;
  }

  /** Once the machine has started again, that was one event. */
  lemma CrashStep(l: Layout, a: Snapshot, e: Snapshot, d: Deed, secs: seq<uint>, t: Txn, image: Disk,
                  attempts: seq<Attempt>, erased: Block, after: Disk)
    requires ValidDisk(l, a.sectors) && Committed(l, a.sectors) == [] && Committing(l, a, e, secs, t)
    requires Named(secs) == Touched(d.changes) && |secs| == |Touched(d.changes)| && d.crash.Some?
    requires |a.writes| <= |e.writes| && image == Stopped(a.sectors, e.writes, |a.writes|, d.crash.value)
    requires Restarted(l, image, d.cuts, attempts, erased, after)
    ensures Stepped(l, a.sectors, after, d, Crash(t, d.crash.value, attempts, erased))
  {
    assert Unfold(0) && Unfold(3);
    StoppedCommit(l, a, e, t, d.crash.value);
  }

  /** begin_op and the updates. */
  method Start(log: Log, d: Deed) returns (ok: bool)
    requires log.AtRest() && InHome(d.changes, log.start)
    modifies log, log.bc, log.bc.disk
    ensures log.bc.disk.sectors == old(log.bc.disk.sectors) && log.bc.disk.writes == old(log.bc.disk.writes)
    ensures ok ==> Working(log, old(Home(log.L(), log.bc.view)), d.changes, |d.changes|) && !log.committing
    ensures Home(log.L(), log.bc.disk.sectors) == old(Home(log.L(), log.bc.view))
    ensures Small(d, log.size) ==> ok
  {
    assert Named(log.Logged()) == {};
    log.bc.CleanCache();
    ghost var h := Home(log.L(), log.bc.view);
    var admitted := log.BeginOp();
    assert d.changes[..0] == [];
    ok := Updates(log, h, d.changes);
  }

  /** end_op of the only operation: `a` and `secs` are what it found, `t` is the transaction. */
  method EndAlone(log: Log) returns (ok: bool, ghost a: Snapshot, ghost secs: seq<uint>, ghost t: Txn)
    requires log.Valid() && log.outstanding == 1 && !log.committing && log.bc.held == {}
    modifies log, log.bc, log.bc.disk
    ensures ok <==> old(log.n) == 0 || old(log.bc.used) < NBUF
    ensures a == old(log.Snap()) && secs == old(log.Logged())
    ensures ok ==> log.AtRest() && Committing(log.L(), a, log.Snap(), secs, t)
    ensures ok ==> Home(log.L(), log.bc.disk.sectors) == Home(log.L(), log.bc.view) == Home(log.L(), a.view)
  {
    a, secs := log.Snap(), log.Logged();
    t := NoTxn(a.sectors[log.start]);
    ok := log.EndOp();
    if ok {
      t := TxnOf(log, a, secs);
      HomeSame(log.L(), log.bc.disk.sectors, a.view);
    }
  }

  /** end_op after the updates. */
  method Finish(log: Log, ghost h: seq<Block>, d: Deed)
    returns (ok: bool, ghost a: Snapshot, ghost secs: seq<uint>, ghost t: Txn)
    requires Working(log, h, d.changes, |d.changes|) && !log.committing && Home(log.L(), log.bc.disk.sectors) == h
    modifies log, log.bc, log.bc.disk
    ensures Small(d, log.size) ==> ok
    ensures a.sectors == old(log.bc.disk.sectors) && a.writes == old(log.bc.disk.writes)
    ensures ok ==> |secs| == |Touched(d.changes)| && Named(secs) == Touched(d.changes)
    ensures ok ==> log.AtRest() && Committing(log.L(), a, log.Snap(), secs, t)
    ensures ok ==> ValidDisk(log.L(), a.sectors) && Committed(log.L(), a.sectors) == []
    ensures ok ==> Home(log.L(), log.bc.disk.sectors) == Home(log.L(), log.bc.view) == Changed(h, d.changes)
  {
    assert d.changes[..|d.changes|] == d.changes;
    RoomLeft(log, h, d.changes, |d.changes|);
    PinnedCount(log.L(), log.Logged());
    ok, a, secs, t := EndAlone(log);
  }

  /** The log is at rest over the home sectors `h`. */
  ghost predicate Over(log: Log, l: Layout, h: seq<Block>)
    reads log, log.bc, log.bc.disk
  {
    log.AtRest() && log.decode == HeaderOf && log.L() == l && Home(l, log.bc.view) == h
  }

  /** Then they are on disk. */
  lemma RestOnDisk(log: Log, l: Layout, h: seq<Block>)
    requires Over(log, l, h)
    ensures Home(l, log.bc.disk.sectors) == h
  {
    assert Named(log.Logged()) == {};
    log.bc.CleanCache();
  }

  /** The operation without the crash. */
  method Complete(log: Log, d: Deed, ghost l: Layout, ghost h: seq<Block>)
    returns (ok: bool, ghost a: Snapshot, ghost secs: seq<uint>, ghost t: Txn)
    requires Over(log, l, h) && InHome(d.changes, log.start)
    modifies log, log.bc, log.bc.disk
    ensures Small(d, log.size) ==> ok
    ensures a.sectors == old(log.bc.disk.sectors) && a.writes == old(log.bc.disk.writes)
    ensures ok ==> Over(log, l, Changed(h, d.changes)) && l.start <= |log.bc.disk.sectors|
    ensures ok ==> Home(l, log.bc.disk.sectors) == Changed(h, d.changes)
    ensures ok ==> ValidDisk(l, a.sectors) && Committed(l, a.sectors) == [] && Home(l, a.sectors) == h
    ensures ok ==> |secs| == |Touched(d.changes)| && Named(secs) == Touched(d.changes)
    ensures ok ==> Committing(l, a, log.Snap(), secs, t)
  {
    a, secs, t := log.Snap(), [], NoTxn(ZeroBlock());
    ok := Start(log, d);
    if ok {
      ok, a, secs, t := Finish(log, h, d);
    }
  }

  /** One operation on a log at rest: begin_op, the updates, end_op, and, after a crash, the restart. The disk takes
      one step of the crash machine. */
  method Operate(log: Log, d: Deed, ghost l: Layout, ghost h: seq<Block>)
    returns (ok: bool, next: Log, ghost e: Event)
    requires Over(log, l, h) && InHome(d.changes, log.start)
    modifies log, log.bc, log.bc.disk
    ensures next == log || (fresh(next) && fresh(next.bc) && fresh(next.bc.disk))
    ensures Small(d, log.size) ==> ok
    ensures ok ==> Over(next, l, Done(h, d)) && Stepped(l, old(log.bc.disk.sectors), next.bc.disk.sectors, d, e)
  {
    next, e := log, LogCrash.Done(NoTxn(ZeroBlock()));
    var before, n0 := log.bc.disk.sectors, |log.bc.disk.writes|;
    ghost var a, secs, t;
    ok, a, secs, t := Complete(log, d, l, h);
    if !ok {
      return;
    }
    if d.crash.None? {
      StepDone(l, a, log.Snap(), d, secs, t);
      e := LogCrash.Done(t);
    } else {
      CrashImage(l, a, log.Snap(), d, secs, t);
      var image := Stopped(before, log.bc.disk.writes, n0, d.crash.value);
      ghost var attempts, erased;
      next, attempts, erased := Restart(image, log.start, log.size, d.cuts);
      CrashStep(l, a, log.Snap(), d, secs, t, image, attempts, erased, next.bc.disk.sectors);
      e := Crash(t, d.crash.value, attempts, erased);
    }
  }

  /** The transaction without updates. */
  function NoTxn(header: Block): (t: Txn)
  {
    Txn([], [], header, header)
  }

  /** The transaction that the last end_op committed. */
  lemma TxnOf(log: Log, a: Snapshot, secs: seq<uint>) returns (t: Txn)
    requires ValidDisk(log.L(), a.sectors) && Committed(log.L(), a.sectors) == []
    requires secs == [] ==> log.bc.disk.sectors == a.sectors && log.bc.disk.writes == a.writes
    requires secs != [] ==> log.Traced(a, secs)
    ensures Committing(log.L(), a, log.Snap(), secs, t)
  {
    if secs == [] {
      t := NoTxn(a.sectors[log.start]);
      assert CommitDisk(log.L(), a.sectors, t, 0) == a.sectors;
    } else {
      t :| CommitTrace(log.L(), a, log.Snap(), t) && t.secs == secs && t.blocks == Blocks(a.view, secs);
    }
  }

  lemma HomeSame(l: Layout, d: Disk, view: seq<Block>)
    requires l.start <= |d| && l.start <= |view| && forall s: nat :: s < l.start ==> d[s] == view[s]
    ensures Home(l, d) == Home(l, view)
  {
  }

  // ---------------------------------------------------------------------------
  // Whole runs

  /** `es` are the operations `ds` as events of `LogCrash`, and the run of them takes the disk that a first recovery
      of `image` leaves to `d`. */
  ghost predicate Follows(l: Layout, image: Disk, erased: Block, ds: seq<Deed>, es: seq<Event>, d: Disk)
  {
    forall u: int {:trigger Unfold(u)} :: Unfold(u) && u == 2 ==>
      && ValidDisk(l, image) && l.decode(erased) == [] && AllMatch(l, ds, es)
      && d == Run(l, Recover(l, image, erased), es)
  }

  ghost predicate AllMatch(l: Layout, ds: seq<Deed>, es: seq<Event>)
  {
    |es| == |ds| && forall i :: 0 <= i < |es| ==> es[i].Valid(l) && Matches(ds[i], es[i])
  }

  lemma MatchMore(l: Layout, ds: seq<Deed>, i: nat, es: seq<Event>, e: Event)
    requires i < |ds| && AllMatch(l, ds[..i], es) && e.Valid(l) && Matches(ds[i], e)
    ensures AllMatch(l, ds[..i + 1], es + [e])
  {
    var more, upTo := es + [e], ds[..i + 1];
    forall k | 0 <= k <= i ensures more[k].Valid(l) && Matches(upTo[k], more[k]) {
      if k < i {
        assert more[k] == es[k] && ds[..i][k] == upTo[k];
      }
    }
  }

  lemma RunMore(l: Layout, d: Disk, es: seq<Event>, e: Event)
    requires ValidDisk(l, d) && Committed(l, d) == [] && (forall i :: 0 <= i < |es| ==> es[i].Valid(l)) && e.Valid(l)
    ensures Run(l, d, es + [e]) == Step(l, Run(l, d, es), e)
  {
    assert (es + [e])[..|es|] == es;
  }

  lemma FollowsNone(l: Layout, image: Disk, erased: Block, attempts: seq<Attempt>, d: Disk)
    requires Restarted(l, image, [], attempts, erased, d)
    ensures Follows(l, image, erased, [], [], d)
  {
    assert Unfold(3);
    assert attempts == [];
  }

  lemma FollowsMore(l: Layout, image: Disk, erased: Block, ds: seq<Deed>, i: nat, es: seq<Event>, d: Disk, e: Event,
                    r: Disk)
    requires i < |ds| && Follows(l, image, erased, ds[..i], es, d) && Stepped(l, d, r, ds[i], e)
    ensures Follows(l, image, erased, ds[..i + 1], es + [e], r)
  {
    assert Unfold(1) && Unfold(2);
    MatchMore(l, ds, i, es, e);
    RunMore(l, Recover(l, image, erased), es, e);
  }

  /** A machine starts on `image` and performs operations one after the other, crashing and restarting as they say:
      the home sectors, on disk and for readers, are those of a store that performs the surviving ones atomically,
      and the disk is that of the run of `LogCrash` with the same crashes and cut recoveries. It stops early, `ok`
      being false, only at a panic, which small operations never reach. */
  method Perform(image: Disk, start: nat, size: nat, ds: seq<Deed>)
    returns (ok: bool, log: Log, ghost erased: Block, ghost es: seq<Event>)
    requires ValidDisk(Layout(start, size, HeaderOf), image)
    requires forall i :: 0 <= i < |ds| ==> InHome(ds[i].changes, start)
    ensures (forall i :: 0 <= i < |ds| ==> Small(ds[i], size)) ==> ok
    ensures ok ==> log.AtRest() && log.start == start && log.size == size && log.decode == HeaderOf
    ensures ok ==> var l := Layout(start, size, HeaderOf);
      && Home(l, log.bc.view) == Home(l, log.bc.disk.sectors) == AllDone(Recovered(l, image), ds)
      && Follows(l, image, erased, ds, es, log.bc.disk.sectors)
  {
    ghost var attempts;
    log, attempts, erased := Restart(image, start, size, []);
    ghost var l := Layout(start, size, HeaderOf);
    ghost var h0 := Recovered(l, image);
    ghost var h := h0;
    es := [];
    var i := 0;
    assert ds[..0] == [];
    FollowsNone(l, image, erased, attempts, log.bc.disk.sectors);
    while i < |ds|
      invariant 0 <= i <= |ds| && fresh(log) && fresh(log.bc) && fresh(log.bc.disk)
      invariant Over(log, l, h) && h == AllDone(h0, ds[..i])
      invariant Follows(l, image, erased, ds[..i], es, log.bc.disk.sectors)
    {
      ghost var e, d := LogCrash.Done(NoTxn(ZeroBlock())), log.bc.disk.sectors;
      ok, log, e := Operate(log, ds[i], l, h);
      if !ok {
        return;
      }
      AllDoneMore(h0, ds, i);
      FollowsMore(l, image, erased, ds, i, es, d, e, log.bc.disk.sectors);
      h, es := Done(h, ds[i]), es + [e];
      i := i + 1;
    }
    assert ds[..|ds|] == ds;
    RestOnDisk(log, l, h);
    ok := true;
  }
}
