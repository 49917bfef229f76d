/** sleep and wakeup of proc.c: no wakeup is lost between testing a condition and sleeping on it.

    Any number of processes wait for one condition, protected by a lock `lk`, by the pattern "test
    under lk, then sleep(chan, lk)", or make it true by the pattern "set under lk, then wakeup(chan)".
    Every lock operation and every access to shared state is a separate step, so every interleaving
    is a run. */
module SleepWakeup {

  datatype Owner = Free | Held(p: nat) | Scheduler

  /** The program counter of a process; the comments give the statement it executes next. */
  datatype Pc =
    | Idle
    // waiter
    | WantLk          // acquire(lk)
    | Test            // while(!cond)
    | WantPtable      // sleep: acquire(&ptable.lock)
    | DropLk          // sleep: release(lk)
    | SetSleeping     // sleep: proc->chan = chan; proc->state = SLEEPING; sched()
    | Sleeping        // SLEEPING on chan
    | Runnable        // RUNNABLE inside sched()
    | TidyUp          // sleep: proc->chan = 0; release(&ptable.lock)
    | WantLkAgain     // sleep: acquire(lk)
    | Consume         // cond = false
    | LeaveWait       // release(lk)
    // setter
    | WantLkToSet     // acquire(lk)
    | Set             // cond = true
    | WantPtableWake  // wakeup: acquire(&ptable.lock)
    | WakeUp          // wakeup: wakeup1(chan)
    | DropPtable      // wakeup: release(&ptable.lock)
    | LeaveSet        // release(lk)

  datatype State = State(pcs: seq<Pc>, lk: Owner, ptable: Owner, cond: bool)

  datatype Event =
    | Wait(p: nat)      // an idle process starts to wait
    | Signal(p: nat)    // an idle process starts to set the condition
    | Step(p: nat)      // a process executes its next statement
    | Resume(p: nat)    // the scheduler picks a RUNNABLE process and passes it ptable.lock
    | Unlock            // the scheduler releases ptable.lock
    | Kill(p: nat)      // kill() makes a SLEEPING process RUNNABLE

  function Init(procs: nat): (s: State)
  {
    State(seq(procs, i => Idle), Free, Free, false)
  }

  /** wakeup1: every process SLEEPING on the channel becomes RUNNABLE. */
  function Woken(pcs: seq<Pc>): (r: seq<Pc>)
    ensures |r| == |pcs|
    ensures forall i :: 0 <= i < |pcs| ==> r[i] == if pcs[i].Sleeping? then Runnable else pcs[i]
  {
    if pcs == [] then []
    else
      var n := |pcs| - 1;
      Woken(pcs[..n]) + [if pcs[n].Sleeping? then Runnable else pcs[n]]
  }

  /** What one step of process `p` leads to: its next statement, the locks, the condition, and
      whether it wakes the sleepers. */
  datatype Effect = Effect(pc: Pc, lk: Owner, ptable: Owner, cond: bool, wakes: bool)

  /** A step that cannot be taken, such as acquiring a lock that is held, changes nothing. */
  function Act(s: State, e: Event, p: nat): (f: Effect)
    requires p < |s.pcs|
  {
    var same := Effect(s.pcs[p], s.lk, s.ptable, s.cond, false);
    match (e, s.pcs[p])
    case (Wait(_), Idle) => same.(pc := WantLk)
    case (Signal(_), Idle) => same.(pc := WantLkToSet)
    case (Resume(_), Runnable) => if s.ptable.Free? then same.(pc := TidyUp, ptable := Held(p)) else same
    case (Kill(_), Sleeping) => if s.ptable.Free? then same.(pc := Runnable) else same
    case (Step(_), WantLk) => if s.lk.Free? then same.(pc := Test, lk := Held(p)) else same
    case (Step(_), Test) => same.(pc := if s.cond then Consume else WantPtable)
    case (Step(_), WantPtable) => if s.ptable.Free? then same.(pc := DropLk, ptable := Held(p)) else same
    case (Step(_), DropLk) => same.(pc := SetSleeping, lk := Free)
    case (Step(_), SetSleeping) => same.(pc := Sleeping, ptable := Scheduler)
    case (Step(_), TidyUp) => same.(pc := WantLkAgain, ptable := Free)
    case (Step(_), WantLkAgain) => if s.lk.Free? then same.(pc := Test, lk := Held(p)) else same
    case (Step(_), Consume) => same.(pc := LeaveWait, cond := false)
    case (Step(_), LeaveWait) => same.(pc := Idle, lk := Free)
    case (Step(_), WantLkToSet) => if s.lk.Free? then same.(pc := Set, lk := Held(p)) else same
    case (Step(_), Set) => same.(pc := WantPtableWake, cond := true)
    case (Step(_), WantPtableWake) => if s.ptable.Free? then same.(pc := WakeUp, ptable := Held(p)) else same
    case (Step(_), WakeUp) => same.(pc := DropPtable, wakes := true)
    case (Step(_), DropPtable) => same.(pc := LeaveSet, ptable := Free)
    case (Step(_), LeaveSet) => same.(pc := Idle, lk := Free)
    case _ => same
  }

  function Perform(s: State, p: nat, f: Effect): (r: State)
    requires p < |s.pcs|
  {
    State((if f.wakes then Woken(s.pcs) else s.pcs)[p := f.pc], f.lk, f.ptable, f.cond)
  }

  function Next(s: State, e: Event): (r: State)
  {
    if e.Unlock? then
      if s.ptable.Scheduler? then s.(ptable := Free) else s
    else if e.p >= |s.pcs| then s
    else Perform(s, e.p, Act(s, e, e.p))
  }

  function Exec(s: State, es: seq<Event>): (r: State)
  {
    if es == [] then s else Next(Exec(s, es[..|es| - 1]), es[|es| - 1])
  }

  // ---------------------------------------------------------------------------
  // Locks

  predicate NeedsLk(pc: Pc)
  {
    pc.Test? || pc.WantPtable? || pc.DropLk? || pc.Consume? || pc.LeaveWait?
    || pc.Set? || pc.WantPtableWake? || pc.WakeUp? || pc.DropPtable? || pc.LeaveSet?
  }

  predicate NeedsPtable(pc: Pc)
  {
    pc.DropLk? || pc.SetSleeping? || pc.TidyUp? || pc.WakeUp? || pc.DropPtable?
  }

  /** Each lock is held by exactly the process that is inside its critical section. */
  predicate LocksHeld(s: State)
  {
    && (forall p: nat :: p < |s.pcs| ==> (s.lk == Held(p) <==> NeedsLk(s.pcs[p])))
    && (forall p: nat :: p < |s.pcs| ==> (s.ptable == Held(p) <==> NeedsPtable(s.pcs[p])))
    && (s.lk.Held? ==> s.lk.p < |s.pcs|) && !s.lk.Scheduler?
    && (s.ptable.Held? ==> s.ptable.p < |s.pcs|)
  }

  // ---------------------------------------------------------------------------
  // No lost wakeup

  /** The setter holds lk and has not yet run its wakeup. */
  predicate WakeupPending(s: State)
  {
    && s.lk.Held? && s.lk.p < |s.pcs|
    && (s.pcs[s.lk.p].WantPtableWake? || s.pcs[s.lk.p].WakeUp?)
  }

  /** A process that is SLEEPING, or about to be, while the condition holds has a wakeup coming. */
  predicate NoneLost(s: State)
  {
    forall p: nat :: p < |s.pcs| && (s.pcs[p].Sleeping? || s.pcs[p].SetSleeping?) && s.cond ==> WakeupPending(s)
  }

  /** A waiter that found the condition false still holds lk, so it still is false. */
  predicate TestedFalse(s: State)
  {
    forall p: nat :: p < |s.pcs| && (s.pcs[p].WantPtable? || s.pcs[p].DropLk?) ==> !s.cond
  }

  predicate Inv(s: State)
  {
    LocksHeld(s) && NoneLost(s) && TestedFalse(s)
  }

  lemma NextKeepsInv(s: State, e: Event)
    requires Inv(s)
    ensures Inv(Next(s, e))
  {
    if !e.Unlock? && e.p < |s.pcs| {
      var f := Act(s, e, e.p);
      ActIsOrderly(s, e, e.p);
      LocksAfter(s, e.p, f);
      TestsAfter(s, e.p, f);
      SleepersAfter(s, e.p, f);
    }
  }

  /** What a step owes the locks: a lock changes hands only from free to the process that enters its
      critical section and back when it leaves. */
  predicate Orderly(s: State, p: nat, f: Effect)
    requires p < |s.pcs|
  {
    var pc := s.pcs[p];
    && (if f.lk == s.lk then NeedsLk(f.pc) == NeedsLk(pc)
        else if NeedsLk(f.pc) then s.lk == Free && f.lk == Held(p) else NeedsLk(pc) && f.lk == Free)
    && (if f.ptable == s.ptable then NeedsPtable(f.pc) == NeedsPtable(pc)
        else if NeedsPtable(f.pc) then s.ptable == Free && f.ptable == Held(p)
        else NeedsPtable(pc) && (f.ptable == Free || f.ptable == Scheduler))
    // The condition changes only under lk; it is set just before the wakeup.
    && (f.cond != s.cond ==> NeedsLk(pc) && f.pc == (if f.cond then WantPtableWake else LeaveWait))
    // A process heads for sleep only from a failed test, and goes on holding lk until it has ptable.lock.
    && (f.pc.WantPtable? || f.pc.DropLk? ==> pc.WantPtable? || pc.DropLk? || !f.cond)
    && (f.pc.SetSleeping? ==> pc.SetSleeping? || pc.DropLk?)
    && (f.pc.Sleeping? ==> pc.Sleeping? || pc.SetSleeping?)
    // A setter goes on holding lk until its wakeup is done.
    && (pc.WantPtableWake? || pc.WakeUp? ==> f.wakes || (f.lk == s.lk && (f.pc.WantPtableWake? || f.pc.WakeUp?)))
    && (f.wakes ==> pc.WakeUp? && f.pc.DropPtable?)
  }

  lemma ActIsOrderly(s: State, e: Event, p: nat)
    requires LocksHeld(s) && p < |s.pcs|
    ensures Orderly(s, p, Act(s, e, p))
  {
  }

  lemma LocksAfter(s: State, p: nat, f: Effect)
    requires LocksHeld(s) && p < |s.pcs| && Orderly(s, p, f)
    ensures LocksHeld(Perform(s, p, f))
  {
    var r := Perform(s, p, f);
    forall q: nat | q < |s.pcs|
      ensures r.lk == Held(q) <==> NeedsLk(r.pcs[q])
      ensures r.ptable == Held(q) <==> NeedsPtable(r.pcs[q])
    {
      assert q != p ==> NeedsLk(r.pcs[q]) == NeedsLk(s.pcs[q]) && NeedsPtable(r.pcs[q]) == NeedsPtable(s.pcs[q]);
    }
  }

  lemma TestsAfter(s: State, p: nat, f: Effect)
    requires LocksHeld(s) && TestedFalse(s) && p < |s.pcs| && Orderly(s, p, f)
    ensures TestedFalse(Perform(s, p, f))
  {
    var r := Perform(s, p, f);
    forall q: nat | q < |s.pcs| && (r.pcs[q].WantPtable? || r.pcs[q].DropLk?)
      ensures !r.cond
    {
      if q != p {
        assert NeedsLk(s.pcs[q]) && s.lk == Held(q);
      }
    }
  }

  lemma SleepersAfter(s: State, p: nat, f: Effect)
    requires Inv(s) && p < |s.pcs| && Orderly(s, p, f)
    ensures NoneLost(Perform(s, p, f))
  {
    var r := Perform(s, p, f);
    forall q: nat | q < |s.pcs| && (r.pcs[q].Sleeping? || r.pcs[q].SetSleeping?) && r.cond
      ensures WakeupPending(r)
    {
      if f.wakes {
        // A process about to sleep would hold ptable.lock, which the setter holds.
        assert false;
      }
      if f.cond != s.cond {
        assert s.lk == Held(p);
      }
    }
  }

  /** In every interleaving, a process SLEEPING on the channel while its condition holds implies that
      the setter still holds lk and has yet to run its wakeup. */
  lemma {:induction false} NoLostWakeup(procs: nat, es: seq<Event>, p: nat)
    ensures var s := Exec(Init(procs), es);
      && Inv(s)
      && (p < |s.pcs| && s.pcs[p].Sleeping? && s.cond ==> WakeupPending(s))
  {
    if es != [] {
      NoLostWakeup(procs, es[..|es| - 1], p);
      NextKeepsInv(Exec(Init(procs), es[..|es| - 1]), es[|es| - 1]);
    }
  }

  // ---------------------------------------------------------------------------
  // Progress

  /** The locks never block everyone: as long as a process is neither idle nor asleep, some process that is
      already under way can take a step. (ptable.lock is only ever acquired after lk, never the other way round.) */
  lemma NoDeadlock(s: State, p: nat) returns (e: Event)
    requires Inv(s) && p < |s.pcs| && !s.pcs[p].Idle? && !s.pcs[p].Sleeping?
    ensures Next(s, e) != s && (e.Unlock? || e.Step? || e.Resume?)
  {
    if s.ptable.Scheduler? {
      e := Unlock;
    } else if s.ptable.Held? {
      e := Step(s.ptable.p);
      assert NeedsPtable(s.pcs[s.ptable.p]);
      assert Next(s, e).pcs[s.ptable.p] != s.pcs[s.ptable.p];
    } else if s.lk.Held? {
      e := Step(s.lk.p);
      assert NeedsLk(s.pcs[s.lk.p]);
      assert Next(s, e).pcs[s.lk.p] != s.pcs[s.lk.p];
    } else {
      e := if s.pcs[p].Runnable? then Resume(p) else Step(p);
      assert Next(s, e).pcs[p] != s.pcs[p];
    }
  }

  /** The step is taken by a process that holds one of the two locks, or releases the one the scheduler holds. */
  predicate ByHolder(s: State, e: Event)
  {
    match e
    case Unlock => s.ptable.Scheduler?
    case Step(p) => s.lk == Held(p) || s.ptable == Held(p)
    case _ => false
  }

  predicate ByHolders(s: State, es: seq<Event>)
  {
    forall i :: 0 <= i < |es| ==> ByHolder(Exec(s, es[..i]), es[i])
  }

  lemma HoldersCons(s: State, e: Event, es: seq<Event>)
    requires ByHolder(s, e) && ByHolders(Next(s, e), es)
    ensures ByHolders(s, [e] + es)
  {
    var fs := [e] + es;
    assert fs[..0] == [];
    forall i | 0 <= i < |fs| ensures ByHolder(Exec(s, fs[..i]), fs[i]) {
      if i > 0 {
        assert fs[..i] == [e] + es[..i - 1];
        ExecCons(s, e, es[..i - 1]);
      }
    }
  }

  /** A pending wakeup arrives: finitely many steps of the holders of the two locks make the sleeper
      RUNNABLE. */
  lemma {:induction false} WakeupArrives(s: State, p: nat) returns (es: seq<Event>)
    requires Inv(s) && p < |s.pcs| && s.pcs[p].Sleeping? && s.cond
    ensures p < |Exec(s, es).pcs| && Exec(s, es).pcs[p].Runnable?
    ensures ByHolders(s, es)
    decreases Distance(s)
  {
    var q := s.lk.p;
    assert WakeupPending(s);
    var e := if s.ptable.Scheduler? then Unlock else if s.ptable.Held? then Step(s.ptable.p) else Step(q);
    var r := Next(s, e);
    NextKeepsInv(s, e);
    if s.pcs[q].WakeUp? {
      assert s.ptable == Held(q);
      es := [e];
      assert es[..0] == [];
      assert ByHolder(Exec(s, es[..0]), es[0]);
    } else {
      assert s.ptable.Held? ==> s.pcs[s.ptable.p].SetSleeping? || s.pcs[s.ptable.p].TidyUp?;
      var rest := WakeupArrives(r, p);
      ExecCons(s, e, rest);
      HoldersCons(s, e, rest);
      es := [e] + rest;
    }
  }

  /** How many lock operations stand before the pending wakeup. */
  function Distance(s: State): (n: nat)
  {
    if !WakeupPending(s) then 0
    else if s.pcs[s.lk.p].WakeUp? then 1
    else if s.ptable.Free? then 2
    else if s.ptable.Scheduler? then 3 else 4
  }

  lemma {:induction false} ExecCons(s: State, e: Event, es: seq<Event>)
    ensures Exec(s, [e] + es) == Exec(Next(s, e), es)
  {
    var fs := [e] + es;
    if es == [] {
      assert fs[..0] == [];
    } else {
      var n := |es| - 1;
      ExecCons(s, e, es[..n]);
      assert fs[..|fs| - 1] == [e] + es[..n];
    }
  }
}
