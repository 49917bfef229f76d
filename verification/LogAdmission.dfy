/** Admission to the log (begin_op, log_write, end_op) as a machine over any number of processes.

    Each event is one critical section under log.lock, except that log_write takes two: it tests the room
    left before it takes the lock (`Check`) and records the sector under it (`Record`), and other processes
    may run in between. `sleep` gives up the lock atomically and `wakeup` makes every sleeper runnable,
    after which it tests again. */
module LogAdmission {
  import opened Common
  import opened Bytes
  import opened LogCrash

  /** Where a process stands. `Asleep` sleeps in begin_op, `Awake` was woken and tests again, `Open`
      is inside an operation that has added `added` sectors to the header, `Passed` is in log_write between
      the tests and the lock, `Writing` is in commit(), `Cleared` has returned from commit() and is about to
      reset log.committing. */
  datatype Phase = Idle | Asleep | Awake | Open(added: nat) | Passed(added: nat, sector: nat) | Writing | Cleared

  datatype State = State(size: nat, ps: seq<Phase>, outstanding: int, committing: bool, lh: seq<nat>, panicked: bool)

  datatype Event =
    | Begin(p: nat)
    | Check(p: nat, sector: nat)
    | Record(p: nat)
    | End(p: nat)
    | Commit(p: nat)
    | Finish(p: nat)

  /** `wakeup(&log)` */
  function WakeAll(ps: seq<Phase>): (r: seq<Phase>)
    ensures |r| == |ps|
    ensures forall i :: 0 <= i < |ps| ==> r[i] == if ps[i].Asleep? then Awake else ps[i]
  {
    if ps == [] then []
    else
      var n := |ps| - 1;
      WakeAll(ps[..n]) + [if ps[n].Asleep? then Awake else ps[n]]
  }

  function Init(size: nat, procs: nat): (s: State)
  {
    State(size, seq(procs, i => Idle), 0, false, [], false)
  }

  /** Does begin_op let one more operation in? */
  predicate Admits(s: State)
  {
    !s.committing && |s.lh| + (s.outstanding + 1) * MAXOPBLOCKS <= LOGSIZE
  }

  /** Does log_write refuse? */
  predicate Refuses(s: State)
  {
    |s.lh| >= LOGSIZE || |s.lh| >= s.size - 1 || s.outstanding < 1
  }

  /** One step; an event that does not fit the phase of its process changes nothing. */
  function Next(s: State, e: Event): (r: State)
  {
    if s.panicked || e.p >= |s.ps| then s
    else
      match (e, s.ps[e.p])
      case (Begin(p), Idle) => Enter(s, p)
      case (Begin(p), Awake) => Enter(s, p)
      case (Check(p, sector), Open(added)) =>
        if Refuses(s) then s.(panicked := true) else s.(ps := s.ps[p := Passed(added, sector)])
      case (Record(p), Passed(added, sector)) =>
        if sector in s.lh then s.(ps := s.ps[p := Open(added)])
        else s.(lh := s.lh + [sector], ps := s.ps[p := Open(added + 1)])
      case (End(p), Open(_)) =>
        if s.committing then s.(outstanding := s.outstanding - 1, panicked := true)
        else if s.outstanding == 1 then s.(outstanding := 0, committing := true, ps := s.ps[p := Writing])
        else s.(outstanding := s.outstanding - 1, ps := WakeAll(s.ps[p := Idle]))
      case (Commit(p), Writing) => s.(lh := [], ps := s.ps[p := Cleared])
      case (Finish(p), Cleared) => s.(committing := false, ps := WakeAll(s.ps[p := Idle]))
      case _ => s
  }

  /** One turn of the loop of begin_op. */
  function Enter(s: State, p: nat): (r: State)
    requires p < |s.ps|
  {
    if Admits(s) then s.(outstanding := s.outstanding + 1, ps := s.ps[p := Open(0)])
    else s.(ps := s.ps[p := Asleep])
  }

  function Exec(s: State, es: seq<Event>): (r: State)
  {
    if es == [] then s else Next(Exec(s, es[..|es| - 1]), es[|es| - 1])
  }

  /** The operation stays within its budget: it calls log_write on a sector the header does not name only
      while it has added fewer than MAXOPBLOCKS. A `frugal` one does not call log_write at all once its
      budget is used up. */
  predicate InBudget(s: State, e: Event, frugal: bool)
  {
    e.Check? && e.p < |s.ps| && s.ps[e.p].Open? ==>
      s.ps[e.p].added < MAXOPBLOCKS || (!frugal && e.sector in s.lh)
  }

  predicate Budgeted(s: State, es: seq<Event>, frugal: bool)
  {
    forall i :: 0 <= i < |es| ==> InBudget(Exec(s, es[..i]), es[i], frugal)
  }

  // ---------------------------------------------------------------------------
  // Counting

  /** Inside an operation. */
  predicate Inside(ph: Phase)
  {
    ph.Open? || ph.Passed?
  }

  function OpenCount(ps: seq<Phase>): (n: nat)
  {
    if ps == [] then 0 else OpenCount(ps[..|ps| - 1]) + if Inside(ps[|ps| - 1]) then 1 else 0
  }

  function CommitterCount(ps: seq<Phase>): (n: nat)
  {
    if ps == [] then 0
    else CommitterCount(ps[..|ps| - 1]) + if ps[|ps| - 1].Writing? || ps[|ps| - 1].Cleared? then 1 else 0
  }

  /** What is left of one operation's budget. */
  function Left(ph: Phase): (n: nat)
  {
    if Inside(ph) && ph.added < MAXOPBLOCKS then MAXOPBLOCKS - ph.added else 0
  }

  /** What is left of the budgets of all open operations. */
  function Slack(ps: seq<Phase>): (n: nat)
    ensures n <= MAXOPBLOCKS * OpenCount(ps)
  {
    if ps == [] then 0 else Slack(ps[..|ps| - 1]) + Left(ps[|ps| - 1])
  }

  lemma {:induction false} CountUpdate(ps: seq<Phase>, p: nat, x: Phase)
    requires p < |ps|
    ensures OpenCount(ps[p := x]) == OpenCount(ps) + (if Inside(x) then 1 else 0) - (if Inside(ps[p]) then 1 else 0)
    ensures CommitterCount(ps[p := x]) == CommitterCount(ps)
      + (if x.Writing? || x.Cleared? then 1 else 0) - (if ps[p].Writing? || ps[p].Cleared? then 1 else 0)
    ensures Slack(ps[p := x]) == Slack(ps) + Left(x) - Left(ps[p])
  {
    var n := |ps| - 1;
    if p == n {
      assert ps[p := x][..n] == ps[..n];
    } else {
      assert ps[p := x][..n] == ps[..n][p := x];
      CountUpdate(ps[..n], p, x);
    }
  }

  lemma {:induction false} CountWake(ps: seq<Phase>)
    ensures OpenCount(WakeAll(ps)) == OpenCount(ps)
    ensures CommitterCount(WakeAll(ps)) == CommitterCount(ps)
    ensures Slack(WakeAll(ps)) == Slack(ps)
  {
    if ps != [] {
      var n := |ps| - 1;
      CountWake(ps[..n]);
      assert WakeAll(ps)[..n] == WakeAll(ps[..n]);
    }
  }

  lemma {:induction false} CountIdle(procs: nat)
    ensures var ps := Init(0, procs).ps; OpenCount(ps) == 0 && CommitterCount(ps) == 0
  {
    if procs > 0 {
      CountIdle(procs - 1);
      assert Init(0, procs).ps[..procs - 1] == Init(0, procs - 1).ps;
    }
  }

  lemma {:induction false} SomeOpen(ps: seq<Phase>) returns (p: nat)
    requires OpenCount(ps) > 0
    ensures p < |ps| && Inside(ps[p])
  {
    p := |ps| - 1;
    if !Inside(ps[p]) {
      p := SomeOpen(ps[..p]);
    }
  }

  lemma {:induction false} SomeCommitter(ps: seq<Phase>) returns (p: nat)
    requires CommitterCount(ps) > 0
    ensures p < |ps| && (ps[p].Writing? || ps[p].Cleared?)
  {
    p := |ps| - 1;
    if !(ps[p].Writing? || ps[p].Cleared?) {
      p := SomeCommitter(ps[..p]);
    }
  }

  lemma {:induction false} Counted(ps: seq<Phase>, p: nat)
    requires p < |ps|
    ensures Inside(ps[p]) ==> OpenCount(ps) > 0
    ensures ps[p].Writing? || ps[p].Cleared? ==> CommitterCount(ps) > 0
  {
    if p < |ps| - 1 {
      Counted(ps[..|ps| - 1], p);
    }
  }

  // ---------------------------------------------------------------------------
  // Safety

  /** A sleeper is never left alone: an operation is open or a commit is running. */
  predicate Attended(s: State)
  {
    (exists p :: 0 <= p < |s.ps| && s.ps[p].Asleep?) ==> s.outstanding > 0 || s.committing
  }

  /** A call of log_write past its tests either has budget or finds its sector. */
  predicate Covered(ph: Phase, lh: seq<nat>)
  {
    ph.Passed? ==> ph.added < MAXOPBLOCKS || ph.sector in lh
  }

  /** The counters agree with the processes; recorded sectors plus unused budgets never exceed LOGSIZE. */
  ghost predicate Tally(s: State)
  {
    forall u: int {:trigger Unfold(u)} :: Unfold(u) && u == 0 ==>
      && s.outstanding == OpenCount(s.ps)
      && CommitterCount(s.ps) == (if s.committing then 1 else 0)
      && (s.committing ==> s.outstanding == 0)
      && |s.lh| + Slack(s.ps) <= LOGSIZE
  }

  /** Between transactions the header is empty; no sector is recorded twice; sleepers are attended. */
  ghost predicate Posts(s: State)
  {
    forall u: int {:trigger Unfold(u)} :: Unfold(u) && u == 1 ==>
      && (s.outstanding == 0 && !s.committing ==> s.lh == [])
      && (forall p :: 0 <= p < |s.ps| && s.ps[p].Cleared? ==> s.lh == [])
      && Distinct(s.lh)
      && (forall p :: 0 <= p < |s.ps| ==> Covered(s.ps[p], s.lh))
      && Attended(s)
  }

  ghost predicate Inv(s: State)
  {
    Tally(s) && Posts(s)
  }

  lemma InitInv(size: nat, procs: nat)
    ensures Inv(Init(size, procs))
  {
    CountIdle(procs);
    assert Init(size, procs).ps == Init(0, procs).ps;
  }

  /** An open operation excludes a commit. */
  lemma NoCommitter(s: State, p: nat)
    requires Tally(s) && p < |s.ps| && Inside(s.ps[p])
    ensures s.outstanding > 0 && !s.committing
    ensures forall q :: 0 <= q < |s.ps| ==> !s.ps[q].Writing? && !s.ps[q].Cleared?
  {
    assert Unfold(0);
    Counted(s.ps, p);
    forall q | 0 <= q < |s.ps| ensures !s.ps[q].Writing? && !s.ps[q].Cleared? {
      Counted(s.ps, q);
    }
  }

  /** A commit excludes an open operation. */
  lemma NoneInside(s: State, p: nat)
    requires Tally(s) && p < |s.ps| && (s.ps[p].Writing? || s.ps[p].Cleared?)
    ensures s.outstanding == 0 && s.committing
    ensures forall q :: 0 <= q < |s.ps| ==> !Inside(s.ps[q])
  {
    assert Unfold(0);
    Counted(s.ps, p);
    forall q | 0 <= q < |s.ps| ensures !Inside(s.ps[q]) {
      Counted(s.ps, q);
    }
  }

  lemma NextKeepsInv(s: State, e: Event)
    requires Inv(s) && InBudget(s, e, false)
    ensures Next(s, e).panicked || Inv(Next(s, e))
    ensures Next(s, e).size == s.size && |Next(s, e).ps| == |s.ps|
  {
    if !s.panicked && e.p < |s.ps| {
      var p, ps := e.p, s.ps;
      match (e, ps[p])
      case (Begin(_), Idle) => EnterKeepsInv(s, p);
      case (Begin(_), Awake) => EnterKeepsInv(s, p);
      case (Check(_, sector), Open(_)) => CheckKeepsInv(s, p, sector);
      case (Record(_), Passed(_, _)) => RecordKeepsInv(s, p);
      case (End(_), Open(_)) => EndKeepsInv(s, p);
      case (Commit(_), Writing) => CommitKeepsInv(s, p);
      case (Finish(_), Cleared) => FinishKeepsInv(s, p);
      case _ =>
    }
  }

  lemma CommitKeepsInv(s: State, p: nat)
    requires Inv(s) && p < |s.ps| && s.ps[p].Writing?
    ensures Inv(s.(lh := [], ps := s.ps[p := Cleared]))
  {
    NoneInside(s, p);
    var r := s.(lh := [], ps := s.ps[p := Cleared]);
    assert Tally(r) by {
      assert Unfold(0);
      CountUpdate(s.ps, p, Cleared);
    }
    assert Unfold(1);
    assert forall q :: 0 <= q < |s.ps| && r.ps[q].Asleep? ==> s.ps[q].Asleep?;
  }

  lemma FinishKeepsInv(s: State, p: nat)
    requires Inv(s) && p < |s.ps| && s.ps[p].Cleared?
    ensures Inv(s.(committing := false, ps := WakeAll(s.ps[p := Idle])))
  {
    NoneInside(s, p);
    FinishTally(s, p);
    FinishPosts(s, p);
  }

  lemma FinishTally(s: State, p: nat)
    requires Tally(s) && p < |s.ps| && s.ps[p].Cleared?
    ensures Tally(s.(committing := false, ps := WakeAll(s.ps[p := Idle])))
  {
    assert Unfold(0);
    Counted(s.ps, p);
    CountUpdate(s.ps, p, Idle);
    CountWake(s.ps[p := Idle]);
  }

  lemma FinishPosts(s: State, p: nat)
    requires Posts(s) && p < |s.ps| && s.ps[p].Cleared? && forall q :: 0 <= q < |s.ps| ==> !Inside(s.ps[q])
    ensures Posts(s.(committing := false, ps := WakeAll(s.ps[p := Idle])))
  {
    assert Unfold(1);
  }

  lemma CheckKeepsInv(s: State, p: nat, sector: nat)
    requires Inv(s) && !s.panicked && p < |s.ps| && s.ps[p].Open? && InBudget(s, Check(p, sector), false)
    ensures Next(s, Check(p, sector)).panicked || Inv(Next(s, Check(p, sector)))
  {
    var r := s.(ps := s.ps[p := Passed(s.ps[p].added, sector)]);
    assert Tally(r) by {
      assert Unfold(0);
      CountUpdate(s.ps, p, Passed(s.ps[p].added, sector));
    }
    assert Posts(r) by {
      assert Unfold(1);
    }
  }

  lemma RecordKeepsInv(s: State, p: nat)
    requires Inv(s) && !s.panicked && p < |s.ps| && s.ps[p].Passed?
    ensures !Next(s, Record(p)).panicked && Inv(Next(s, Record(p)))
  {
    NoCommitter(s, p);
    RecordTally(s, p);
    RecordPosts(s, p);
  }

  lemma RecordTally(s: State, p: nat)
    requires Inv(s) && !s.panicked && p < |s.ps| && s.ps[p].Passed?
    ensures Tally(Next(s, Record(p)))
  {
    assert Covered(s.ps[p], s.lh) by {
      assert Unfold(1);
    }
    assert Unfold(0);
    CountUpdate(s.ps, p, Next(s, Record(p)).ps[p]);
  }

  lemma RecordPosts(s: State, p: nat)
    requires Posts(s) && !s.panicked && p < |s.ps| && s.ps[p].Passed?
    requires s.outstanding > 0 && forall q :: 0 <= q < |s.ps| ==> !s.ps[q].Cleared?
    ensures Posts(Next(s, Record(p)))
  {
    assert Unfold(1);
    var r := Next(s, Record(p));
    forall q | 0 <= q < |r.ps| ensures Covered(r.ps[q], r.lh) {
      assert Covered(s.ps[q], s.lh);
    }
  }

  lemma EndKeepsInv(s: State, p: nat)
    requires Inv(s) && !s.panicked && p < |s.ps| && s.ps[p].Open?
    ensures !Next(s, End(p)).panicked && Inv(Next(s, End(p)))
  {
    NoCommitter(s, p);
    if s.outstanding == 1 {
      LastEndKeepsInv(s, p);
    } else {
      EarlyEndKeepsInv(s, p);
    }
  }

  lemma LastEndKeepsInv(s: State, p: nat)
    requires Inv(s) && p < |s.ps| && s.ps[p].Open? && s.outstanding == 1
    ensures Inv(s.(outstanding := 0, committing := true, ps := s.ps[p := Writing]))
  {
    NoCommitter(s, p);
    var r := s.(outstanding := 0, committing := true, ps := s.ps[p := Writing]);
    assert Tally(r) by {
      assert Unfold(0);
      CountUpdate(s.ps, p, Writing);
    }
    NoneInside(r, p);
    assert Unfold(1);
  }

  lemma EarlyEndKeepsInv(s: State, p: nat)
    requires Inv(s) && p < |s.ps| && s.ps[p].Open? && s.outstanding > 1
    ensures Inv(s.(outstanding := s.outstanding - 1, ps := WakeAll(s.ps[p := Idle])))
  {
    NoCommitter(s, p);
    EarlyEndTally(s, p);
    EarlyEndPosts(s, p);
  }

  lemma EarlyEndTally(s: State, p: nat)
    requires Tally(s) && p < |s.ps| && s.ps[p].Open? && s.outstanding > 1
    ensures Tally(s.(outstanding := s.outstanding - 1, ps := WakeAll(s.ps[p := Idle])))
  {
    assert Unfold(0);
    CountUpdate(s.ps, p, Idle);
    CountWake(s.ps[p := Idle]);
  }

  lemma EarlyEndPosts(s: State, p: nat)
    requires Posts(s) && p < |s.ps| && s.ps[p].Open? && s.outstanding > 1
    requires forall q :: 0 <= q < |s.ps| ==> !s.ps[q].Cleared?
    ensures Posts(s.(outstanding := s.outstanding - 1, ps := WakeAll(s.ps[p := Idle])))
  {
    assert Unfold(1);
    var r := s.(outstanding := s.outstanding - 1, ps := WakeAll(s.ps[p := Idle]));
    forall q | 0 <= q < |r.ps| ensures Covered(r.ps[q], r.lh) {
      assert Covered(s.ps[q], s.lh);
    }
  }

  lemma EnterKeepsInv(s: State, p: nat)
    requires Inv(s) && p < |s.ps| && (s.ps[p].Idle? || s.ps[p].Awake?)
    ensures Inv(Enter(s, p))
  {
    var r := Enter(s, p);
    assert Tally(r) by {
      assert Unfold(0);
      CountUpdate(s.ps, p, r.ps[p]);
    }
    assert s.outstanding >= 0 by {
      assert Unfold(0);
    }
    EnterPosts(s, p);
  }

  /** A process goes to sleep only while an operation is open or a commit is running. */
  lemma EnterPosts(s: State, p: nat)
    requires Posts(s) && p < |s.ps| && (s.ps[p].Idle? || s.ps[p].Awake?) && s.outstanding >= 0
    ensures Posts(Enter(s, p))
  {
    assert Unfold(1);
    var r := Enter(s, p);
    forall q | 0 <= q < |r.ps| ensures Covered(r.ps[q], r.lh) {
      assert Covered(s.ps[q], s.lh);
    }
  }

  /** Over every run within budgets, until a panic: committing excludes open operations; between
      transactions the header is empty; recorded sectors plus unused budgets never exceed LOGSIZE;
      and no sleeper is left without an open operation or a committer. */
  lemma {:induction false} RunInv(size: nat, procs: nat, es: seq<Event>)
    requires Budgeted(Init(size, procs), es, false)
    ensures var s := Exec(Init(size, procs), es); s.panicked || Inv(s)
  {
    InitInv(size, procs);
    if es != [] {
      var s0, n := Init(size, procs), |es| - 1;
      BudgetedPrefix(s0, es, n, false);
      RunInv(size, procs, es[..n]);
      var s := Exec(s0, es[..n]);
      if !s.panicked {
        NextKeepsInv(s, es[n]);
      }
    }
  }

  lemma {:induction false} BudgetedPrefix(s: State, es: seq<Event>, n: nat, frugal: bool)
    requires Budgeted(s, es, frugal) && n <= |es|
    ensures Budgeted(s, es[..n], frugal)
  {
    forall i | 0 <= i < n
      ensures InBudget(Exec(s, es[..n][..i]), es[..n][i], frugal)
    {
      assert es[..n][..i] == es[..i];
    }
  }

  // ---------------------------------------------------------------------------
  // Panics

  /** With a log region larger than LOGSIZE, an operation with budget left is never refused. */
  lemma NoPanicInLargeLog(s: State, e: Event)
    requires Inv(s) && !s.panicked && s.size > LOGSIZE && InBudget(s, e, true)
    ensures !Next(s, e).panicked
  {
    assert Unfold(0);
    if e.p < |s.ps| && s.ps[e.p].Open? {
      NoCommitter(s, e.p);
      CountUpdate(s.ps, e.p, Idle);
    }
  }

  lemma {:induction false} LargeLogRuns(size: nat, procs: nat, es: seq<Event>)
    requires size > LOGSIZE && Budgeted(Init(size, procs), es, true)
    ensures var s := Exec(Init(size, procs), es); !s.panicked && Inv(s) && s.size == size
  {
    InitInv(size, procs);
    if es != [] {
      var s0, n := Init(size, procs), |es| - 1;
      BudgetedPrefix(s0, es, n, true);
      LargeLogRuns(size, procs, es[..n]);
      LargeLogStep(Exec(s0, es[..n]), es[n]);
    }
  }

  lemma LargeLogStep(s: State, e: Event)
    requires Inv(s) && !s.panicked && s.size > LOGSIZE && InBudget(s, e, true)
    ensures !Next(s, e).panicked && Inv(Next(s, e)) && Next(s, e).size == s.size
  {
    NextKeepsInv(s, e);
    NoPanicInLargeLog(s, e);
  }

  /** What a process that is alone has added, and how the header fits the region. */
  predicate Alone(s: State)
  {
    && |s.ps| == 1
    && (Inside(s.ps[0]) ==> |s.lh| <= s.ps[0].added <= MAXOPBLOCKS)
    && (s.lh == [] || |s.lh| < s.size)
    && (s.ps[0].Passed? ==> |s.lh| + 1 < s.size)
  }

  /** A single process fits its ten sectors whenever the region has room for them. */
  lemma AloneStep(s: State, e: Event)
    requires Inv(s) && !s.panicked && Alone(s) && InBudget(s, e, false)
    ensures Next(s, e).panicked || Alone(Next(s, e))
    ensures s.size > MAXOPBLOCKS && InBudget(s, e, true) ==> !Next(s, e).panicked
    ensures s.size > MAXOPBLOCKS + 1 ==> !Next(s, e).panicked
  {
    assert Unfold(0);
    assert Unfold(1);
    if Inside(s.ps[0]) {
      NoCommitter(s, 0);
    }
  }

  lemma {:induction false} AloneRuns(size: nat, es: seq<Event>, frugal: bool)
    requires Budgeted(Init(size, 1), es, frugal)
    ensures var s := Exec(Init(size, 1), es);
      && (s.panicked || (Inv(s) && Alone(s))) && s.size == size
      && (size > MAXOPBLOCKS && frugal ==> !s.panicked) && (size > MAXOPBLOCKS + 1 ==> !s.panicked)
  {
    InitInv(size, 1);
    if es != [] {
      var s0, n := Init(size, 1), |es| - 1;
      BudgetedPrefix(s0, es, n, frugal);
      AloneRuns(size, es[..n], frugal);
      var s := Exec(s0, es[..n]);
      if !s.panicked {
        NextKeepsInv(s, es[n]);
        AloneStep(s, es[n]);
      }
    }
  }

  lemma {:induction false} NobodyRuns(size: nat, es: seq<Event>)
    ensures Exec(Init(size, 0), es) == Init(size, 0)
  {
    if es != [] {
      NobodyRuns(size, es[..|es| - 1]);
    }
  }

  /** Two processes fill the log: process 0 adds ten sectors and begins a second operation, which adds nine;
      process 1 adds nine; then each adds one more. */
  function Writer(k: nat): (p: nat)
  {
    if k < 19 || k == 28 then 0 else 1
  }

  /** What the open operations of the two have added once the header names `k` sectors. */
  function Added0(k: nat): (n: nat)
  {
    if k < 10 then k else if k < 20 then k - 10 else if k < 29 then 9 else 10
  }

  function Added1(k: nat): (n: nat)
  {
    if k < 19 then 0 else if k < 29 then k - 19 else k - 20
  }

  predicate Filled(s: State, size: nat, procs: nat, k: nat)
  {
    && s.size == size && |s.ps| == procs && procs >= 2
    && !s.panicked && !s.committing && s.outstanding == 2
    && |s.lh| == k && (forall i :: 0 <= i < k ==> s.lh[i] == i)
    && s.ps[0] == Open(Added0(k)) && s.ps[1] == Open(Added1(k))
  }

  lemma TwoBegin(s: State, size: nat, procs: nat)
    requires procs >= 2 && s == Init(size, procs)
    ensures Filled(Next(Next(s, Begin(0)), Begin(1)), size, procs, 0)
  {
  }

  /** A call of log_write on a sector that is not in the header, by a process that is not overtaken. */
  lemma WriteNew(s: State, p: nat, x: nat)
    requires !s.panicked && p < |s.ps| && s.ps[p].Open? && !Refuses(s) && x !in s.lh
    ensures Next(Next(s, Check(p, x)), Record(p)) == s.(lh := s.lh + [x], ps := s.ps[p := Open(s.ps[p].added + 1)])
  {
    assert s.ps[p := Passed(s.ps[p].added, x)][p := Open(s.ps[p].added + 1)] == s.ps[p := Open(s.ps[p].added + 1)];
  }

  /** The same on one that is. */
  lemma WriteKnown(s: State, p: nat, x: nat)
    requires !s.panicked && p < |s.ps| && s.ps[p].Open? && !Refuses(s) && x in s.lh
    ensures Next(Next(s, Check(p, x)), Record(p)) == s
  {
    assert s.ps[p := Passed(s.ps[p].added, x)][p := Open(s.ps[p].added)] == s.ps;
  }

  /** One more sector; process 0 begins its second operation after the tenth. */
  function FillStep(s: State, k: nat): (r: State)
  {
    var t := Next(Next(s, Check(Writer(k), k)), Record(Writer(k)));
    if k == 9 then Next(Next(t, End(0)), Begin(0)) else t
  }

  lemma FillNext(s: State, size: nat, procs: nat, k: nat)
    requires k < LOGSIZE && k + 1 < size && Filled(s, size, procs, k)
    ensures Filled(FillStep(s, k), size, procs, k + 1) && InBudget(s, Check(Writer(k), k), true)
  {
    assert k !in s.lh;
    WriteNew(s, Writer(k), k);
  }

  lemma {:induction false} FillReaches(size: nat, procs: nat, k: nat) returns (es: seq<Event>)
    requires procs >= 2 && k <= LOGSIZE && (k > 0 ==> k < size)
    ensures Filled(Exec(Init(size, procs), es), size, procs, k) && Budgeted(Init(size, procs), es, true)
  {
    var s0 := Init(size, procs);
    if k == 0 {
      es := Twice(s0, [], Begin(0), Begin(1), true);
      TwoBegin(s0, size, procs);
    } else {
      var before := FillReaches(size, procs, k - 1);
      FillNext(Exec(s0, before), size, procs, k - 1);
      es := Twice(s0, before, Check(Writer(k - 1), k - 1), Record(Writer(k - 1)), true);
      if k == 10 {
        es := Twice(s0, es, End(0), Begin(0), true);
      }
    }
  }

  /** Two more events, the second not a call of log_write. */
  lemma {:induction false} Twice(s0: State, es: seq<Event>, e: Event, f: Event, frugal: bool) returns (r: seq<Event>)
    requires !f.Check? && Budgeted(s0, es, frugal) && InBudget(Exec(s0, es), e, frugal)
    ensures r == es + [e, f] && Exec(s0, r) == Next(Next(Exec(s0, es), e), f) && Budgeted(s0, r, frugal)
  {
    Snoc(s0, es, e, frugal);
    Snoc(s0, es + [e], f, frugal);
    r := es + [e] + [f];
  }

  lemma {:induction false} ExecFirst(s: State, e: Event, es: seq<Event>)
    ensures Exec(s, [e] + es) == Exec(Next(s, e), es)
  {
    var fs := [e] + es;
    if es == [] {
      assert fs[..0] == [];
    } else {
      var n := |es| - 1;
      ExecFirst(s, e, es[..n]);
      assert fs[..|fs| - 1] == [e] + es[..n];
    }
  }

  lemma {:induction false} Snoc(s0: State, es: seq<Event>, e: Event, frugal: bool)
    ensures Exec(s0, es + [e]) == Next(Exec(s0, es), e)
    ensures Budgeted(s0, es, frugal) && InBudget(Exec(s0, es), e, frugal) ==> Budgeted(s0, es + [e], frugal)
  {
    var fs := es + [e];
    assert fs[..|es|] == es;
    if Budgeted(s0, es, frugal) && InBudget(Exec(s0, es), e, frugal) {
      forall i | 0 <= i < |fs|
        ensures InBudget(Exec(s0, fs[..i]), fs[i], frugal)
      {
        assert i < |es| ==> fs[..i] == es[..i];
      }
    }
  }

  /** Two processes, no operation beyond its budget, drive a log region of LOGSIZE blocks or fewer into the
      panic of log_write. */
  lemma {:induction false} SmallLogPanics(size: nat, procs: nat) returns (es: seq<Event>)
    requires procs >= 2 && size <= LOGSIZE
    ensures Budgeted(Init(size, procs), es, true) && Exec(Init(size, procs), es).panicked
  {
    var k := if size == 0 then 0 else size - 1;
    var before := FillReaches(size, procs, k);
    Snoc(Init(size, procs), before, Check(1, k), true);
    es := before + [Check(1, k)];
  }

  predicate AloneFilled(s: State, size: nat, k: nat)
  {
    && !s.panicked && !s.committing && s.size == size && |s.ps| == 1 && s.outstanding == 1
    && s.ps[0] == Open(k) && |s.lh| == k && forall i :: 0 <= i < k ==> s.lh[i] == i
  }

  /** One process adds the sectors below `k`. */
  lemma {:induction false} AloneReaches(size: nat, k: nat) returns (es: seq<Event>)
    requires k <= MAXOPBLOCKS && (k > 0 ==> k < size)
    ensures AloneFilled(Exec(Init(size, 1), es), size, k) && Budgeted(Init(size, 1), es, true)
  {
    var s0 := Init(size, 1);
    if k == 0 {
      Snoc(s0, [], Begin(0), true);
      OneBegin(s0, size);
      es := [] + [Begin(0)];
    } else {
      var before := AloneReaches(size, k - 1);
      AloneNext(Exec(s0, before), size, k - 1);
      es := Twice(s0, before, Check(0, k - 1), Record(0), true);
    }
  }

  lemma OneBegin(s: State, size: nat)
    requires s == Init(size, 1)
    ensures AloneFilled(Next(s, Begin(0)), size, 0)
  {
  }

  lemma AloneNext(s: State, size: nat, k: nat)
    requires AloneFilled(s, size, k) && k < MAXOPBLOCKS && k + 1 < size
    ensures AloneFilled(Next(Next(s, Check(0, k)), Record(0)), size, k + 1) && InBudget(s, Check(0, k), true)
  {
    assert k !in s.lh;
    WriteNew(s, 0, k);
  }

  /** The reservation of begin_op keeps frugal operations from ever being refused, exactly when the log
      region is larger than LOGSIZE, or, for a single process, larger than MAXOPBLOCKS. mkfs makes it
      LOGSIZE blocks, one of which is the header. */
  lemma AdmissionSuffices(size: nat, procs: nat)
    ensures (forall es :: Budgeted(Init(size, procs), es, true) ==> !Exec(Init(size, procs), es).panicked)
       <==> size > LOGSIZE || procs == 0 || (procs == 1 && size > MAXOPBLOCKS)
  {
    var s0 := Init(size, procs);
    if size > LOGSIZE || procs == 0 || (procs == 1 && size > MAXOPBLOCKS) {
      forall es | Budgeted(s0, es, true) ensures !Exec(s0, es).panicked {
        if size > LOGSIZE {
          LargeLogRuns(size, procs, es);
        } else if procs == 0 {
          NobodyRuns(size, es);
        } else {
          AloneRuns(size, es, true);
        }
      }
    } else if procs == 1 {
      var k := if size == 0 then 0 else size - 1;
      var es := AloneReaches(size, k);
      Snoc(s0, es, Check(0, k), true);
      assert Exec(s0, es + [Check(0, k)]).panicked;
    } else {
      var es := SmallLogPanics(size, procs);
    }
  }

  /** Does the header name no more sectors than the region has log blocks? */
  predicate Fits(s: State)
  {
    s.lh == [] || |s.lh| < s.size
  }

  /** Two processes pass the test with room for one sector and record one each. */
  lemma {:induction false} BothPass(size: nat, procs: nat) returns (es: seq<Event>)
    requires procs >= 2 && 2 <= size <= LOGSIZE
    ensures Budgeted(Init(size, procs), es, true)
    ensures var s := Exec(Init(size, procs), es); !s.panicked && |s.lh| == s.size == size
  {
    var s0, k := Init(size, procs), size - 2;
    var before := FillReaches(size, procs, k);
    PassTwice(Exec(s0, before), size, procs, k);
    Snoc(s0, before, Check(0, k), true);
    es := before + [Check(0, k)];
    es := Twice(s0, es, Check(1, k + 1), Record(0), true);
    Snoc(s0, es, Record(1), true);
    es := es + [Record(1)];
  }

  lemma PassTwice(s: State, size: nat, procs: nat, k: nat)
    requires Filled(s, size, procs, k) && k + 2 == size <= LOGSIZE
    ensures InBudget(s, Check(0, k), true) && InBudget(Next(s, Check(0, k)), Check(1, k + 1), true)
    ensures var r := Next(Next(Next(Next(s, Check(0, k)), Check(1, k + 1)), Record(0)), Record(1));
      !r.panicked && |r.lh| == size && r.size == size
  {
    assert k !in s.lh && k + 1 !in s.lh;
  }

  /** Since log_write tests before it takes the lock, the test keeps the header within the region exactly
      when it could not be passed twice: for at most one process, in a region that admits no sector at all,
      or where the reservation alone suffices. */
  lemma HeaderFits(size: nat, procs: nat)
    ensures (forall es :: Budgeted(Init(size, procs), es, false) ==>
               Exec(Init(size, procs), es).panicked || Fits(Exec(Init(size, procs), es)))
       <==> procs <= 1 || size <= 1 || size > LOGSIZE
  {
    var s0 := Init(size, procs);
    if procs <= 1 || size <= 1 || size > LOGSIZE {
      forall es | Budgeted(s0, es, false) ensures Exec(s0, es).panicked || Fits(Exec(s0, es)) {
        if procs == 0 {
          NobodyRuns(size, es);
        } else if procs == 1 {
          AloneRuns(size, es, false);
        } else if size <= 1 {
          NoRoom(size, procs, es);
        } else {
          RunInv(size, procs, es);
          assert Unfold(0);
          RunSize(size, procs, es);
        }
      }
    } else {
      var es := BothPass(size, procs);
      Relax(s0, es);
      assert !Fits(Exec(s0, es));
    }
  }

  lemma {:induction false} RunSize(size: nat, procs: nat, es: seq<Event>)
    ensures Exec(Init(size, procs), es).size == size
  {
    if es != [] {
      RunSize(size, procs, es[..|es| - 1]);
    }
  }

  lemma {:induction false} NoRoom(size: nat, procs: nat, es: seq<Event>)
    requires size <= 1
    ensures var s := Exec(Init(size, procs), es);
      s.panicked || (s.size == size && s.lh == [] && forall p :: 0 <= p < |s.ps| ==> !s.ps[p].Passed?)
  {
    if es != [] {
      NoRoom(size, procs, es[..|es| - 1]);
    }
  }

  /** In a log region of any size a full header refuses even a sector it already holds, so operations
      that add no more than their budget but keep writing can still panic. */
  lemma {:induction false} FullLogRefusesAbsorption(size: nat, procs: nat) returns (es: seq<Event>)
    requires procs >= 2
    ensures Budgeted(Init(size, procs), es, false) && Exec(Init(size, procs), es).panicked
  {
    if size > LOGSIZE {
      var before := FillReaches(size, procs, LOGSIZE);
      Relax(Init(size, procs), before);
      Snoc(Init(size, procs), before, Check(0, 0), false);
      assert Exec(Init(size, procs), before).lh[0] == 0;
      es := before + [Check(0, 0)];
    } else {
      es := SmallLogPanics(size, procs);
      Relax(Init(size, procs), es);
    }
  }

  /** One process, having used up its budget in a region with room for no more, does so by rewriting a sector. */
  lemma {:induction false} AloneRefused(size: nat) returns (es: seq<Event>)
    requires size <= MAXOPBLOCKS + 1
    ensures Budgeted(Init(size, 1), es, false) && Exec(Init(size, 1), es).panicked
  {
    var k, s0 := if size == 0 then 0 else size - 1, Init(size, 1);
    var before := AloneReaches(size, k);
    Relax(s0, before);
    assert k == MAXOPBLOCKS ==> Exec(s0, before).lh[0] == 0;
    Snoc(s0, before, Check(0, 0), false);
    es := before + [Check(0, 0)];
  }

  /** Operations that stay within their budgets but may rewrite sectors already recorded are never refused,
      exactly when there is no process at all, or one with room for its budget and a block to spare. */
  lemma RewritingSuffices(size: nat, procs: nat)
    ensures (forall es :: Budgeted(Init(size, procs), es, false) ==> !Exec(Init(size, procs), es).panicked)
       <==> procs == 0 || (procs == 1 && size > MAXOPBLOCKS + 1)
  {
    var s0 := Init(size, procs);
    if procs == 0 || (procs == 1 && size > MAXOPBLOCKS + 1) {
      forall es | Budgeted(s0, es, false) ensures !Exec(s0, es).panicked {
        if procs == 0 {
          NobodyRuns(size, es);
        } else {
          AloneRuns(size, es, false);
        }
      }
    } else if procs == 1 {
      var es := AloneRefused(size);
    } else {
      var es := FullLogRefusesAbsorption(size, procs);
    }
  }

  lemma Relax(s: State, es: seq<Event>)
    requires Budgeted(s, es, true)
    ensures Budgeted(s, es, false)
  {
    forall i | 0 <= i < |es|
      ensures InBudget(Exec(s, es[..i]), es[i], false)
    {
      assert InBudget(Exec(s, es[..i]), es[i], true);
    }
  }

  /** The calls of log_write of one operation. */
  function Writes(p: nat, ws: seq<nat>): (es: seq<Event>)
    ensures |es| == 2 * |ws|
  {
    if ws == [] then [] else Writes(p, ws[..|ws| - 1]) + [Check(p, ws[|ws| - 1])] + [Record(p)]
  }

  lemma {:induction false} DistinctFits(s: seq<nat>, xs: set<nat>)
    requires Distinct(s) && forall i :: 0 <= i < |s| ==> s[i] in xs
    ensures |s| <= |xs|
  {
    if s != [] {
      var n := |s| - 1;
      DistinctFits(s[..n], xs - {s[n]});
    }
  }

  /** What an operation alone in its transaction has recorded: each of its sectors at most once. */
  predicate Recorded(s: State, r: State, p: nat, secs: set<nat>)
  {
    && !r.panicked && r.size == s.size && r.outstanding == s.outstanding && |r.ps| == |s.ps|
    && p < |r.ps| && r.ps[p].Open? && Distinct(r.lh) && forall i :: 0 <= i < |r.lh| ==> r.lh[i] in secs
  }

  lemma LoneWrite(s: State, r: State, p: nat, x: nat, secs: set<nat>)
    requires Recorded(s, r, p, secs) && x in secs && |secs| < LOGSIZE && |secs| < s.size - 1 && s.outstanding >= 1
    ensures Recorded(s, Next(Next(r, Check(p, x)), Record(p)), p, secs)
  {
    DistinctFits(r.lh, secs);
    if x in r.lh {
      WriteKnown(r, p, x);
    } else {
      DistinctFits(r.lh + [x], secs);
      WriteNew(r, p, x);
    }
  }

  /** An operation alone in its transaction may write its sectors in any order and any number of times:
      if there are fewer of them than the log holds, it never panics. */
  lemma {:induction false} LoneOperation(s: State, p: nat, ws: seq<nat>, secs: set<nat>)
    requires p < |s.ps| && s.ps[p].Open? && !s.panicked && s.outstanding >= 1 && s.lh == []
    requires (forall i :: 0 <= i < |ws| ==> ws[i] in secs) && |secs| < LOGSIZE && |secs| < s.size - 1
    ensures Recorded(s, Exec(s, Writes(p, ws)), p, secs)
  {
    if ws != [] {
      var n := |ws| - 1;
      LoneOperation(s, p, ws[..n], secs);
      LoneWrite(s, Exec(s, Writes(p, ws[..n])), p, ws[n], secs);
      Snoc(s, Writes(p, ws[..n]), Check(p, ws[n]), false);
      Snoc(s, Writes(p, ws[..n]) + [Check(p, ws[n])], Record(p), false);
    }
  }

  // ---------------------------------------------------------------------------
  // Never stuck

  /** Only the processes already inside finish, and `p` tests again. */
  predicate Draining(e: Event, p: nat)
  {
    e.Record? || e.End? || e.Commit? || e.Finish? || e == Begin(p)
  }

  /** How far the open transaction is from being committed. */
  ghost function Pending(s: State): (n: nat)
  {
    3 * OpenCount(s.ps) + if !s.committing then 0 else if exists q :: 0 <= q < |s.ps| && s.ps[q].Writing? then 2 else 1
  }

  /** From every reachable state, a process outside an operation is let in once those inside finish. */
  lemma {:induction false} CanEnter(s: State, p: nat) returns (es: seq<Event>)
    requires Inv(s) && !s.panicked && p < |s.ps| && Outside(s.ps[p])
    ensures forall i :: 0 <= i < |es| ==> Draining(es[i], p)
    ensures var r := Exec(s, es); Inv(r) && !r.panicked && |r.ps| == |s.ps| && r.ps[p] == Open(0)
    decreases Pending(s)
  {
    assert s.outstanding >= 0 by {
      assert Unfold(0);
    }
    if s.outstanding == 0 && !s.committing {
      assert !s.ps[p].Asleep? && s.lh == [] by {
        assert Unfold(1);
      }
      EnterKeepsInv(s, p);
      es := [Begin(p)];
      assert es[..0] == [];
    } else {
      var e, f := FinishSomething(s);
      var rest := CanEnter(Then(Next(s, e), f), p);
      if f.Some? {
        ExecFirst(Next(s, e), f.value, rest);
        rest := [f.value] + rest;
      }
      ExecFirst(s, e, rest);
      es := [e] + rest;
    }
  }

  /** Outside an operation. */
  predicate Outside(ph: Phase)
  {
    ph.Idle? || ph.Asleep? || ph.Awake?
  }

  /** `r` is closer to the end of the transaction than `s`, and nobody has entered. */
  ghost predicate Closer(s: State, r: State)
  {
    && Inv(r) && !r.panicked && |r.ps| == |s.ps| && Pending(r) < Pending(s)
    && forall p :: 0 <= p < |s.ps| && Outside(s.ps[p]) ==> Outside(r.ps[p])
  }

  /** Some process inside can come closer to the end of the transaction. */
  lemma FinishSomething(s: State) returns (e: Event, f: Option<Event>)
    requires Inv(s) && !s.panicked && (s.outstanding > 0 || s.committing)
    ensures e.Record? || e.End? || e.Commit? || e.Finish?
    ensures f.Some? ==> f.value.End?
    ensures Closer(s, Then(Next(s, e), f))
  {
    f := None;
    if s.outstanding > 0 {
      var q := InsideOne(s);
      if s.ps[q].Passed? {
        RecordThenEnd(s, q);
        e, f := Record(q), Some(End(q));
      } else {
        EndCloser(s, q);
        e := End(q);
      }
    } else {
      var q := CommittingOne(s);
      if s.ps[q].Writing? {
        CommitCloser(s, q);
        e := Commit(q);
      } else {
        FinishCloser(s, q);
        e := Finish(q);
      }
    }
  }

  function Then(s: State, f: Option<Event>): (r: State)
  {
    if f.Some? then Next(s, f.value) else s
  }

  lemma InsideOne(s: State) returns (q: nat)
    requires Tally(s) && s.outstanding > 0
    ensures q < |s.ps| && Inside(s.ps[q])
  {
    assert Unfold(0);
    q := SomeOpen(s.ps);
  }

  lemma CommittingOne(s: State) returns (q: nat)
    requires Tally(s) && s.committing
    ensures q < |s.ps| && (s.ps[q].Writing? || s.ps[q].Cleared?)
  {
    assert Unfold(0);
    q := SomeCommitter(s.ps);
  }

  lemma EndCloser(s: State, q: nat)
    requires Inv(s) && !s.panicked && q < |s.ps| && s.ps[q].Open?
    ensures Closer(s, Next(s, End(q)))
  {
    NoCommitter(s, q);
    if s.outstanding == 1 {
      LastEndCloser(s, q);
    } else {
      EarlyEndCloser(s, q);
    }
  }

  lemma LastEndCloser(s: State, q: nat)
    requires Inv(s) && !s.panicked && q < |s.ps| && s.ps[q].Open? && s.outstanding == 1
    ensures Closer(s, s.(outstanding := 0, committing := true, ps := s.ps[q := Writing]))
  {
    assert Unfold(0);
    LastEndKeepsInv(s, q);
  }

  lemma EarlyEndCloser(s: State, q: nat)
    requires Inv(s) && !s.panicked && q < |s.ps| && s.ps[q].Open? && s.outstanding > 1
    ensures Closer(s, s.(outstanding := s.outstanding - 1, ps := WakeAll(s.ps[q := Idle])))
  {
    assert Unfold(0);
    EarlyEndKeepsInv(s, q);
  }

  lemma RecordThenEnd(s: State, q: nat)
    requires Inv(s) && !s.panicked && q < |s.ps| && s.ps[q].Passed?
    ensures Closer(s, Next(Next(s, Record(q)), End(q)))
  {
    var t := Next(s, Record(q));
    RecordKeepsInv(s, q);
    RecordPending(s, q);
    EndCloser(t, q);
  }

  lemma RecordPending(s: State, q: nat)
    requires Inv(s) && !s.panicked && q < |s.ps| && s.ps[q].Passed?
    ensures var t := Next(s, Record(q));
      && !t.panicked && |t.ps| == |s.ps| && t.ps[q].Open? && Pending(t) == Pending(s)
      && forall p :: 0 <= p < |s.ps| && Outside(s.ps[p]) ==> Outside(t.ps[p])
  {
    NoCommitter(s, q);
    CountUpdate(s.ps, q, Next(s, Record(q)).ps[q]);
  }

  lemma CommitCloser(s: State, q: nat)
    requires Inv(s) && !s.panicked && q < |s.ps| && s.ps[q].Writing?
    ensures Closer(s, Next(s, Commit(q)))
  {
    CommitKeepsInv(s, q);
    assert Unfold(0);
    CountUpdate(s.ps, q, Cleared);
    Counted(s.ps, q);
    OneCommitter(s.ps[q := Cleared], q);
  }

  lemma FinishCloser(s: State, q: nat)
    requires Inv(s) && !s.panicked && q < |s.ps| && s.ps[q].Cleared?
    ensures Closer(s, Next(s, Finish(q)))
  {
    NoneInside(s, q);
    FinishKeepsInv(s, q);
    FinishPending(s, q);
  }

  lemma FinishPending(s: State, q: nat)
    requires !s.panicked && s.committing && q < |s.ps| && s.ps[q].Cleared?
    ensures Pending(Next(s, Finish(q))) < Pending(s)
  {
    CountUpdate(s.ps, q, Idle);
    CountWake(s.ps[q := Idle]);
  }

  lemma OneCommitter(ps: seq<Phase>, q: nat)
    requires q < |ps| && CommitterCount(ps) == 1 && (ps[q].Writing? || ps[q].Cleared?)
    ensures forall p :: 0 <= p < |ps| && p != q ==> !ps[p].Writing? && !ps[p].Cleared?
  {
    CountUpdate(ps, q, Idle);
    forall p | 0 <= p < |ps| && p != q
      ensures !ps[p].Writing? && !ps[p].Cleared?
    {
      Counted(ps[q := Idle], p);
    }
  }
}
