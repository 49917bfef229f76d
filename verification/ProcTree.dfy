/** Processes over whole runs: fork, exit, wait, kill, sleep, wakeup and the scheduler interleaved in
    every order, each step being one stretch of code under ptable.lock (fork, which works outside the
    lock, is four steps). */
module ProcTree {
  import opened Common
  import opened Proc

  /** How far a process is into fork: not in it, has claimed a slot, or has also named itself parent. */
  datatype Fork = Idle | Claimed(q: nat) | Parented(q: nat)

  /** A zombie collected by wait: its pid and the slot of the process that waited. */
  datatype Reaping = Reaping(pid: int, waiter: nat)

  datatype State = State(
    ps: seq<Slot>, init: nat, nextpid: int, forks: seq<Fork>, exits: seq<int>, reaps: seq<Reaping>)

  datatype Event =
    | Claim(p: nat, q: nat)
    | ForkFails(p: nat)
    | SetParent(p: nat)
    | Launch(p: nat)
    | Exit(p: nat)
    | Wait(p: nat, w: WaitResult)
    | Schedule(p: nat)
    | Yield(p: nat)
    | SleepOn(p: nat, addr: int)
    | Wakeup(addr: int)
    | Kill(q: nat)

  predicate Alive(x: Slot)
  {
    x.state.Sleeping? || x.state.Runnable? || x.state.Running?
  }

  predicate WellSized(s: State)
  {
    |s.forks| == |s.ps| && s.init < |s.ps|
  }

  /** Process `p` is running and not inside fork. */
  predicate Free(s: State, p: nat)
  {
    WellSized(s) && p < |s.ps| && s.ps[p].state.Running? && s.forks[p].Idle?
  }

  predicate InFork(s: State, p: nat)
  {
    WellSized(s) && p < |s.ps| && s.ps[p].state.Running? && !s.forks[p].Idle? && s.forks[p].q < |s.ps|
  }

  predicate Enabled(s: State, e: Event)
  {
    match e
    case Claim(p, q) => Free(s, p) && q < |s.ps| && s.ps[q].state.Unused?
    case ForkFails(p) => InFork(s, p) && s.forks[p].Claimed?
    case SetParent(p) => InFork(s, p) && s.forks[p].Claimed?
    case Launch(p) => InFork(s, p) && s.forks[p].Parented?
    case Exit(p) => Free(s, p) && p != s.init
    case Wait(p, w) => Free(s, p) && WaitFinds(s.ps, p, w)
    case Schedule(p) => WellSized(s) && p < |s.ps| && s.ps[p].state.Runnable?
    case Yield(p) => WellSized(s) && p < |s.ps| && s.ps[p].state.Running?
    case SleepOn(p, addr) => Free(s, p)
    case Wakeup(addr) => WellSized(s)
    case Kill(q) => WellSized(s) && q < |s.ps|
  }

  /** One step; an event that is not enabled changes nothing. */
  function Next(s: State, e: Event): (t: State)
    ensures t.init == s.init && |t.ps| == |s.ps|
  {
    if !Enabled(s, e) then s else
    match e
    case Claim(p, q) =>
      s.(ps := s.ps[q := s.ps[q].(state := Embryo, pid := s.nextpid)], nextpid := s.nextpid + 1,
         forks := s.forks[p := Claimed(q)])
    case ForkFails(p) =>
      s.(ps := s.ps[s.forks[p].q := s.ps[s.forks[p].q].(state := Unused)], forks := s.forks[p := Idle])
    case SetParent(p) =>
      s.(ps := s.ps[s.forks[p].q := s.ps[s.forks[p].q].(parent := Some(p))],
         forks := s.forks[p := Parented(s.forks[p].q)])
    case Launch(p) =>
      s.(ps := s.ps[s.forks[p].q := s.ps[s.forks[p].q].(state := Runnable)], forks := s.forks[p := Idle])
    case Exit(p) => s.(ps := Exited(s.ps, p, s.init), exits := s.exits + [s.ps[p].pid])
    case Wait(p, w) =>
      s.(ps := Waited(s.ps, p, w), reaps := if w.Reap? then s.reaps + [Reaping(w.pid, p)] else s.reaps)
    case Schedule(p) => s.(ps := s.ps[p := s.ps[p].(state := Running, chan := NoChan)])
    case Yield(p) => s.(ps := s.ps[p := s.ps[p].(state := Runnable)])
    case SleepOn(p, addr) => s.(ps := s.ps[p := s.ps[p].(state := Sleeping, chan := Elsewhere(addr))])
    case Wakeup(addr) => s.(ps := Woken(s.ps, Elsewhere(addr)))
    case Kill(q) => s.(ps := s.ps[q := Killed(s.ps[q])])
  }

  function Run(s: State, es: seq<Event>): (t: State)
  {
    if es == [] then s else Next(Run(s, es[..|es| - 1]), es[|es| - 1])
  }

  /** The table as userinit leaves it: only init, runnable, without a parent. */
  predicate Boot(s: State)
  {
    && WellSized(s)
    && s.ps[s.init] == Slot(Runnable, 1, None, NoChan, false) && s.nextpid == 2
    && (forall q :: 0 <= q < |s.ps| && q != s.init ==> s.ps[q] == Slot(Unused, 0, None, NoChan, false))
    && (forall p :: 0 <= p < |s.ps| ==> s.forks[p] == Idle)
    && s.exits == [] && s.reaps == []
  }

  // ---------------------------------------------------------------------------
  // The tree of processes

  /** Slot `q` is where it should be: a started process or a zombie hangs under a live process, an
      embryo under nobody or under the process that is forking it, a free slot under nobody. */
  predicate Placed(ps: seq<Slot>, init: nat, forks: seq<Fork>, q: nat)
    requires |forks| == |ps| && q < |ps|
  {
    match ps[q].state
    case Unused => ps[q].parent.None? && q != init
    case Embryo =>
      && q != init
      && (ps[q].parent.Some? ==> ps[q].parent.value < |ps| && forks[ps[q].parent.value] == Parented(q))
    case Zombie => q != init && HasParent(ps, q)
    case _ => if q == init then ps[q].parent.None? else HasParent(ps, q)
  }

  predicate HasParent(ps: seq<Slot>, q: nat)
    requires q < |ps|
  {
    && ps[q].parent.Some? && ps[q].parent.value < |ps| && ps[q].parent.value != q
    && Alive(ps[ps[q].parent.value])
  }

  /** What process `p` holds while it forks: an embryo of its own, and `p` itself stays awake. */
  predicate ForkHolds(ps: seq<Slot>, forks: seq<Fork>, p: nat)
    requires |forks| == |ps| && p < |ps|
  {
    !forks[p].Idle? ==>
      && (ps[p].state.Running? || ps[p].state.Runnable?)
      && forks[p].q < |ps| && ps[forks[p].q].state.Embryo?
      && ps[forks[p].q].parent == (if forks[p].Parented? then Some(p) else None)
  }

  predicate OneForker(forks: seq<Fork>)
  {
    forall p, r ::
      0 <= p < |forks| && 0 <= r < |forks| && !forks[p].Idle? && !forks[r].Idle? && forks[p].q == forks[r].q ==> p == r
  }

  predicate Tree(s: State)
  {
    && WellSized(s)
    && Alive(s.ps[s.init])
    && (forall q :: 0 <= q < |s.ps| ==> Placed(s.ps, s.init, s.forks, q))
    && (forall p :: 0 <= p < |s.ps| ==> ForkHolds(s.ps, s.forks, p))
    && OneForker(s.forks)
  }

  /** A change of one slot that keeps its parent and keeps it alive. */
  lemma TreeKeepsLife(s: State, t: State, p: nat)
    requires Tree(s) && p < |s.ps|
    requires t.init == s.init && t.forks == s.forks && |t.ps| == |s.ps|
    requires t.ps == s.ps[p := t.ps[p]]
    requires t.ps[p].parent == s.ps[p].parent
    requires (Alive(s.ps[p]) && Alive(t.ps[p])) || t.ps[p].state == s.ps[p].state
    requires s.forks[p].Idle? || s.ps[p].state == t.ps[p].state || t.ps[p].state.Running? || t.ps[p].state.Runnable?
    ensures Tree(t)
  {
    forall q | 0 <= q < |t.ps| ensures Placed(t.ps, t.init, t.forks, q) {
      assert Placed(s.ps, s.init, s.forks, q);
    }
    forall r | 0 <= r < |t.ps| ensures ForkHolds(t.ps, t.forks, r) {
      assert ForkHolds(s.ps, s.forks, r);
    }
  }

  /** A change of states alone that keeps every live process alive. */
  lemma TreeUnderWake(s: State, t: State)
    requires Tree(s) && t.init == s.init && t.forks == s.forks && |t.ps| == |s.ps|
    requires forall q :: 0 <= q < |s.ps| ==> t.ps[q].parent == s.ps[q].parent
    requires forall q :: 0 <= q < |s.ps| ==>
      t.ps[q].state == s.ps[q].state || (s.ps[q].state.Sleeping? && t.ps[q].state.Runnable?)
    ensures Tree(t)
  {
    forall q | 0 <= q < |t.ps| ensures Placed(t.ps, t.init, t.forks, q) {
      assert Placed(s.ps, s.init, s.forks, q);
    }
    forall r | 0 <= r < |t.ps| ensures ForkHolds(t.ps, t.forks, r) {
      assert ForkHolds(s.ps, s.forks, r);
    }
  }

  lemma TreeClaim(s: State, p: nat, q: nat)
    requires Tree(s) && Enabled(s, Claim(p, q))
    ensures Tree(Next(s, Claim(p, q)))
  {
    var t := Next(s, Claim(p, q));
    forall k | 0 <= k < |t.ps| ensures Placed(t.ps, t.init, t.forks, k) {
      assert Placed(s.ps, s.init, s.forks, k);
    }
    forall r | 0 <= r < |t.ps| ensures ForkHolds(t.ps, t.forks, r) {
      assert ForkHolds(s.ps, s.forks, r);
      assert Placed(s.ps, s.init, s.forks, q);
    }
    forall r | 0 <= r < |s.ps| && !s.forks[r].Idle? ensures s.forks[r].q != q {
      assert ForkHolds(s.ps, s.forks, r);
    }
    assert OneForker(t.forks);
  }

  /** The three ways on from a claimed slot. */
  lemma TreeFork(s: State, e: Event)
    requires Tree(s) && Enabled(s, e) && (e.ForkFails? || e.SetParent? || e.Launch?)
    ensures Tree(Next(s, e))
  {
    var t := Next(s, e);
    assert ForkHolds(s.ps, s.forks, e.p);
    forall k | 0 <= k < |t.ps| ensures Placed(t.ps, t.init, t.forks, k) {
      assert Placed(s.ps, s.init, s.forks, k);
    }
    forall r | 0 <= r < |t.ps| ensures ForkHolds(t.ps, t.forks, r) {
      assert ForkHolds(s.ps, s.forks, r);
    }
  }

  lemma TreeExit(s: State, p: nat)
    requires Tree(s) && Enabled(s, Exit(p))
    ensures Tree(Next(s, Exit(p)))
  {
    var t := Next(s, Exit(p));
    assert Placed(s.ps, s.init, s.forks, p);
    ExitedAt(s.ps, p, s.init, s.ps[p].parent.value);
    forall k | 0 <= k < |t.ps| ensures Placed(t.ps, t.init, t.forks, k) {
      assert Placed(s.ps, s.init, s.forks, k);
    }
    forall r | 0 <= r < |t.ps| ensures ForkHolds(t.ps, t.forks, r) {
      assert ForkHolds(s.ps, s.forks, r);
    }
  }

  lemma TreeWait(s: State, p: nat, w: WaitResult)
    requires Tree(s) && Enabled(s, Wait(p, w))
    ensures Tree(Next(s, Wait(p, w)))
  {
    var t := Next(s, Wait(p, w));
    if w.Reap? {
      forall k | 0 <= k < |t.ps| ensures Placed(t.ps, t.init, t.forks, k) {
        assert Placed(s.ps, s.init, s.forks, k);
        assert Placed(s.ps, s.init, s.forks, w.q);
      }
      forall r | 0 <= r < |t.ps| ensures ForkHolds(t.ps, t.forks, r) {
        assert ForkHolds(s.ps, s.forks, r);
      }
    } else if w.Sleep? {
      TreeKeepsLife(s, t, p);
    }
  }

  lemma TreeStep(s: State, e: Event)
    requires Tree(s)
    ensures Tree(Next(s, e))
  {
    if Enabled(s, e) {
      match e
      case Claim(p, q) => TreeClaim(s, p, q);
      case Exit(p) => TreeExit(s, p);
      case Wait(p, w) => TreeWait(s, p, w);
      case Wakeup(addr) => TreeUnderWake(s, Next(s, e));
      case Schedule(p) => TreeKeepsLife(s, Next(s, e), p);
      case Yield(p) => TreeKeepsLife(s, Next(s, e), p);
      case SleepOn(p, addr) => TreeKeepsLife(s, Next(s, e), p);
      case Kill(q) => TreeKeepsLife(s, Next(s, e), q);
      case ForkFails(p) => TreeFork(s, e);
      case SetParent(p) => TreeFork(s, e);
      case Launch(p) => TreeFork(s, e);
    }
  }

  // ---------------------------------------------------------------------------
  // Nobody sleeps in wait over a zombie child

  predicate Vigilant(ps: seq<Slot>)
  {
    forall r, q :: 0 <= r < |ps| && 0 <= q < |ps| && Wakes(ps[r], OnProc(r)) ==> !ZombieChild(ps[q], r)
  }

  lemma VigilantExit(s: State, p: nat)
    requires Tree(s) && Vigilant(s.ps) && Enabled(s, Exit(p))
    ensures Vigilant(Next(s, Exit(p)).ps)
  {
    var t := Next(s, Exit(p));
    assert Placed(s.ps, s.init, s.forks, p);
    var parent := s.ps[p].parent.value;
    ExitedAt(s.ps, p, s.init, parent);
    forall r, q | 0 <= r < |t.ps| && 0 <= q < |t.ps| && Wakes(t.ps[r], OnProc(r)) ensures !ZombieChild(t.ps[q], r) {
      assert Wakes(s.ps[r], OnProc(r));
      assert !ZombieChild(s.ps[q], r);
    }
  }

  lemma VigilantStep(s: State, e: Event)
    requires Tree(s) && Vigilant(s.ps)
    ensures Vigilant(Next(s, e).ps)
  {
    if Enabled(s, e) {
      if e.Exit? {
        VigilantExit(s, e.p);
      } else {
        var t := Next(s, e);
        if e.ForkFails? || e.SetParent? || e.Launch? {
          assert ForkHolds(s.ps, s.forks, e.p);
        }
        forall r, q | 0 <= r < |t.ps| && 0 <= q < |t.ps| && Wakes(t.ps[r], OnProc(r)) ensures !ZombieChild(t.ps[q], r) {
          assert !ZombieChild(s.ps[q], r);
        }
      }
    }
  }

  // ---------------------------------------------------------------------------
  // Every exit is collected at most once, and until then can be

  predicate InUse(x: Slot)
  {
    !x.state.Unused?
  }

  predicate PidsOk(s: State)
  {
    && (forall q :: 0 <= q < |s.ps| && InUse(s.ps[q]) ==> s.ps[q].pid < s.nextpid)
    && (forall q, k :: 0 <= q < |s.ps| && 0 <= k < |s.ps| && InUse(s.ps[q]) && InUse(s.ps[k]) ==>
          s.ps[q].pid == s.ps[k].pid ==> q == k)
  }

  predicate WasReaped(reaps: seq<Reaping>, pid: int)
  {
    exists i :: 0 <= i < |reaps| && reaps[i].pid == pid
  }

  predicate IsZombie(ps: seq<Slot>, pid: int)
  {
    exists q :: 0 <= q < |ps| && ps[q].state.Zombie? && ps[q].pid == pid
  }

  /** The exits so far are the collected ones and the zombies, each once. */
  ghost predicate Accounted(s: State)
  {
    && (forall i, j :: 0 <= i < j < |s.exits| ==> s.exits[i] != s.exits[j])
    && (forall i, j :: 0 <= i < j < |s.reaps| ==> s.reaps[i].pid != s.reaps[j].pid)
    && (forall i :: 0 <= i < |s.exits| ==> s.exits[i] < s.nextpid)
    && (forall pid: int :: pid in s.exits <==> (WasReaped(s.reaps, pid) || IsZombie(s.ps, pid)))
    && (forall q :: 0 <= q < |s.ps| && s.ps[q].state.Zombie? ==> !WasReaped(s.reaps, s.ps[q].pid))
    && (forall q :: 0 <= q < |s.ps| && InUse(s.ps[q]) && !s.ps[q].state.Zombie? ==> s.ps[q].pid !in s.exits)
  }

  /** Pids stay apart when each slot in use keeps its pid or takes the next one. */
  lemma PidsKept(s: State, t: State, born: nat)
    requires PidsOk(s) && |t.ps| == |s.ps| && s.nextpid <= t.nextpid
    requires forall q :: 0 <= q < |s.ps| && InUse(t.ps[q]) ==>
      (InUse(s.ps[q]) && s.ps[q].pid == t.ps[q].pid) || (q == born && t.ps[q].pid == s.nextpid < t.nextpid)
    ensures PidsOk(t)
  {
  }

  lemma PidsStep(s: State, e: Event)
    requires Tree(s) && PidsOk(s)
    ensures PidsOk(Next(s, e))
  {
    if Enabled(s, e) {
      if e.Exit? {
        PidsExit(s, e.p);
      } else {
        if e.ForkFails? || e.SetParent? || e.Launch? {
          assert ForkHolds(s.ps, s.forks, e.p);
        }
        PidsKept(s, Next(s, e), if e.Claim? then e.q else 0);
      }
    }
  }

  lemma PidsExit(s: State, p: nat)
    requires Tree(s) && PidsOk(s) && Enabled(s, Exit(p))
    ensures PidsOk(Next(s, Exit(p)))
  {
    assert Placed(s.ps, s.init, s.forks, p);
    ExitedAt(s.ps, p, s.init, s.ps[p].parent.value);
    PidsKept(s, Next(s, Exit(p)), 0);
  }

  /** A step that neither exits nor collects. */
  lemma AccountKept(s: State, t: State)
    requires Accounted(s) && |t.ps| == |s.ps| && t.exits == s.exits && t.reaps == s.reaps && s.nextpid <= t.nextpid
    requires forall q :: 0 <= q < |s.ps| ==>
      t.ps[q].state.Zombie? == s.ps[q].state.Zombie? && (s.ps[q].state.Zombie? ==> t.ps[q].pid == s.ps[q].pid)
    requires forall q :: 0 <= q < |s.ps| && InUse(t.ps[q]) && !t.ps[q].state.Zombie? ==>
      (InUse(s.ps[q]) && s.ps[q].pid == t.ps[q].pid) || t.ps[q].pid >= s.nextpid
    ensures Accounted(t)
  {
    forall pid: int ensures IsZombie(t.ps, pid) == IsZombie(s.ps, pid) {
      if IsZombie(s.ps, pid) {
        var q :| 0 <= q < |s.ps| && s.ps[q].state.Zombie? && s.ps[q].pid == pid;
        assert t.ps[q].state.Zombie? && t.ps[q].pid == pid;
      }
    }
    forall q | 0 <= q < |t.ps| && t.ps[q].state.Zombie? ensures !WasReaped(t.reaps, t.ps[q].pid) {
      assert s.ps[q].state.Zombie?;
    }
  }

  /** One more process has become a zombie. */
  lemma AccountMore(s: State, t: State, p: nat)
    requires Accounted(s) && |t.ps| == |s.ps| && t.reaps == s.reaps && s.nextpid == t.nextpid
    requires p < |s.ps| && InUse(s.ps[p]) && !s.ps[p].state.Zombie? && s.ps[p].pid < s.nextpid
    requires t.exits == s.exits + [s.ps[p].pid] && t.ps[p].state.Zombie?
    requires forall q :: 0 <= q < |s.ps| ==> t.ps[q].pid == s.ps[q].pid
    requires forall q :: 0 <= q < |s.ps| && q != p ==>
      t.ps[q].state.Zombie? == s.ps[q].state.Zombie? && InUse(t.ps[q]) == InUse(s.ps[q])
    requires forall q :: 0 <= q < |s.ps| && q != p && InUse(s.ps[q]) ==> s.ps[q].pid != s.ps[p].pid
    ensures Accounted(t)
  {
    var x := s.ps[p].pid;
    assert x !in s.exits;
    assert !WasReaped(s.reaps, x);
    forall pid: int ensures IsZombie(t.ps, pid) <==> (IsZombie(s.ps, pid) || pid == x) {
      if IsZombie(s.ps, pid) {
        var q :| 0 <= q < |s.ps| && s.ps[q].state.Zombie? && s.ps[q].pid == pid;
        assert t.ps[q].state.Zombie? && t.ps[q].pid == pid;
      }
      assert t.ps[p].state.Zombie? && t.ps[p].pid == x;
    }
    forall q | 0 <= q < |t.ps| && t.ps[q].state.Zombie? ensures !WasReaped(t.reaps, t.ps[q].pid) {
      assert q != p ==> s.ps[q].state.Zombie?;
    }
  }

  lemma AccountExit(s: State, p: nat)
    requires Tree(s) && PidsOk(s) && Accounted(s) && Enabled(s, Exit(p))
    ensures Accounted(Next(s, Exit(p)))
  {
    assert Placed(s.ps, s.init, s.forks, p);
    ExitedAt(s.ps, p, s.init, s.ps[p].parent.value);
    AccountMore(s, Next(s, Exit(p)), p);
  }

  lemma AccountReap(s: State, p: nat, w: WaitResult)
    requires PidsOk(s) && Accounted(s) && w.Reap? && Enabled(s, Wait(p, w))
    ensures Accounted(Next(s, Wait(p, w)))
  {
    var t := Next(s, Wait(p, w));
    assert s.ps[w.q].state.Zombie?;
    assert !WasReaped(s.reaps, w.pid);
    assert IsZombie(s.ps, w.pid);
    forall pid: int ensures WasReaped(t.reaps, pid) <==> (WasReaped(s.reaps, pid) || pid == w.pid) {
      if WasReaped(s.reaps, pid) {
        var i :| 0 <= i < |s.reaps| && s.reaps[i].pid == pid;
        assert t.reaps[i].pid == pid;
      }
      assert t.reaps[|s.reaps|].pid == w.pid;
    }
    forall pid: int | pid != w.pid ensures IsZombie(t.ps, pid) == IsZombie(s.ps, pid) {
      if IsZombie(s.ps, pid) {
        var q :| 0 <= q < |s.ps| && s.ps[q].state.Zombie? && s.ps[q].pid == pid;
        assert t.ps[q].state.Zombie? && t.ps[q].pid == pid;
      }
    }
    forall q | 0 <= q < |t.ps| && t.ps[q].state.Zombie? ensures !WasReaped(t.reaps, t.ps[q].pid) {
      assert q != w.q && InUse(s.ps[q]) && InUse(s.ps[w.q]);
    }
  }

  lemma AccountStep(s: State, e: Event)
    requires Tree(s) && PidsOk(s) && Accounted(s)
    ensures Accounted(Next(s, e))
  {
    if Enabled(s, e) {
      if e.Exit? {
        AccountExit(s, e.p);
      } else if e.Wait? && e.w.Reap? {
        AccountReap(s, e.p, e.w);
      } else if e.ForkFails? || e.SetParent? || e.Launch? {
        AccountFork(s, e);
      } else {
        AccountQuiet(s, e);
      }
    }
  }

  lemma AccountQuiet(s: State, e: Event)
    requires Tree(s) && Accounted(s) && Enabled(s, e)
    requires !e.Exit? && !(e.Wait? && e.w.Reap?) && !e.ForkFails? && !e.SetParent? && !e.Launch?
    ensures Accounted(Next(s, e))
  {
    AccountKept(s, Next(s, e));
  }

  lemma AccountFork(s: State, e: Event)
    requires Tree(s) && Accounted(s) && Enabled(s, e) && (e.ForkFails? || e.SetParent? || e.Launch?)
    ensures Accounted(Next(s, e))
  {
    assert ForkHolds(s.ps, s.forks, e.p);
    AccountKept(s, Next(s, e));
  }

  // ---------------------------------------------------------------------------
  // Whole runs

  ghost predicate Good(s: State)
  {
    Tree(s) && Vigilant(s.ps) && PidsOk(s) && Accounted(s)
  }

  lemma {:induction false} RunsAreGood(s: State, es: seq<Event>)
    requires Boot(s)
    ensures Good(Run(s, es))
    decreases |es|
  {
    if es != [] {
      var n := |es| - 1;
      RunsAreGood(s, es[..n]);
      var m := Run(s, es[..n]);
      TreeStep(m, es[n]);
      VigilantStep(m, es[n]);
      PidsStep(m, es[n]);
      AccountStep(m, es[n]);
    }
  }

  /** In every reachable table, a started process other than init, and a zombie, has a parent that is
      itself alive: no process is ever left under a freed slot, an unfinished one, or a zombie. */
  lemma {:induction false} NoOrphans(s: State, es: seq<Event>, q: nat)
    requires Boot(s) && q < |Run(s, es).ps| && q != s.init
    requires Alive(Run(s, es).ps[q]) || Run(s, es).ps[q].state.Zombie?
    ensures HasParent(Run(s, es).ps, q)
  {
    RunsAreGood(s, es);
    InitStays(s, es);
    var t := Run(s, es);
    assert Placed(t.ps, t.init, t.forks, q);
  }

  lemma {:induction false} InitStays(s: State, es: seq<Event>)
    ensures Run(s, es).init == s.init && |Run(s, es).ps| == |s.ps|
  {
    if es != [] {
      InitStays(s, es[..|es| - 1]);
    }
  }

  /** Step `k` of the run is the wait that collects `r`: the waiter is running, the process is a zombie child of
      the waiter's at that moment, and its slot is free afterwards. */
  ghost predicate CollectedAt(s: State, es: seq<Event>, k: nat, r: Reaping)
  {
    && k < |es| && es[k].Wait? && es[k].w.Reap? && es[k].p == r.waiter
    && var m := Run(s, es[..k]); var q := es[k].w.q;
       && Free(m, r.waiter) && q < |m.ps|
       && m.ps[q].state.Zombie? && m.ps[q].pid == r.pid && m.ps[q].parent == Some(r.waiter)
       && Next(m, es[k]).ps[q].state.Unused?
  }

  ghost predicate WasCollected(s: State, es: seq<Event>, r: Reaping)
  {
    exists k: nat :: CollectedAt(s, es, k, r)
  }

  lemma {:induction false} Collected(s: State, es: seq<Event>, i: nat) returns (k: nat)
    requires Boot(s) && i < |Run(s, es).reaps|
    ensures CollectedAt(s, es, k, Run(s, es).reaps[i])
    decreases |es|
  {
    var n := |es| - 1;
    var m := Run(s, es[..n]);
    if i < |m.reaps| {
      k := Collected(s, es[..n], i);
      assert es[..n][..k] == es[..k];
      ReapsGrow(m, es[n]);
    } else {
      k := n;
      ReapsLast(m, es[n], i);
    }
  }

  lemma ReapsGrow(m: State, e: Event)
    ensures |m.reaps| <= |Next(m, e).reaps| && forall i :: 0 <= i < |m.reaps| ==> Next(m, e).reaps[i] == m.reaps[i]
  {
  }

  lemma ReapsLast(m: State, e: Event, i: nat)
    requires |m.reaps| <= i < |Next(m, e).reaps|
    ensures Enabled(m, e) && e.Wait? && e.w.Reap? && e.w.q < |m.ps| && Next(m, e).reaps[i] == Reaping(e.w.pid, e.p)
    ensures m.ps[e.w.q].state.Zombie? && m.ps[e.w.q].pid == e.w.pid && m.ps[e.w.q].parent == Some(e.p)
    ensures Next(m, e).ps[e.w.q].state.Unused?
  {
  }

  /** Each exit is collected at most once, by a wait of the process that is its parent at that moment, and the
      exits are exactly the collected processes and the zombies still in the table. */
  lemma {:induction false} ReapedOnce(s: State, es: seq<Event>, t: State)
    requires Boot(s) && t == Run(s, es)
    ensures forall i, j :: 0 <= i < j < |t.reaps| ==> t.reaps[i].pid != t.reaps[j].pid
    ensures forall pid: int :: pid in t.exits <==> (WasReaped(t.reaps, pid) || IsZombie(t.ps, pid))
    ensures forall pid: int :: !(WasReaped(t.reaps, pid) && IsZombie(t.ps, pid))
    ensures forall i :: 0 <= i < |t.reaps| ==> WasCollected(s, es, t.reaps[i])
  {
    RunsAreGood(s, es);
    forall i | 0 <= i < |t.reaps| ensures WasCollected(s, es, t.reaps[i]) {
      var k := Collected(s, es, i);
    }
  }

  /** No zombie is missed: its parent is alive, is not asleep in wait, and its next call of wait, while
      it is running, cannot sleep or fail but collects a child. */
  lemma {:induction false} ZombieIsCollected(s: State, es: seq<Event>, q: nat, w: WaitResult)
    requires Boot(s) && q < |Run(s, es).ps| && Run(s, es).ps[q].state.Zombie?
    ensures HasParent(Run(s, es).ps, q)
    ensures var t := Run(s, es); var r := t.ps[q].parent.value; !Wakes(t.ps[r], OnProc(r))
    ensures var t := Run(s, es); var r := t.ps[q].parent.value; WaitFinds(t.ps, r, w) ==> w.Reap?
  {
    RunsAreGood(s, es);
    var t := Run(s, es);
    assert Placed(t.ps, t.init, t.forks, q);
    assert ZombieChild(t.ps[q], t.ps[q].parent.value);
  }

  /** The slot scan of wait always has an outcome, and only one. */
  lemma WaitDecides(ps: seq<Slot>, p: nat) returns (w: WaitResult)
    requires p < |ps|
    ensures WaitFinds(ps, p, w)
    ensures forall v :: WaitFinds(ps, p, v) ==> v == w
  {
    if exists k :: 0 <= k < |ps| && ZombieChild(ps[k], p) {
      var k := FirstZombie(ps, p, 0);
      w := Reap(k, ps[k].pid);
      forall v | WaitFinds(ps, p, v) ensures v == w {
        assert v.Reap? && (v.q < k || v.q >= k);
      }
    } else if (exists k :: 0 <= k < |ps| && ps[k].parent == Some(p)) && !ps[p].killed {
      w := Sleep;
    } else {
      w := NoChild;
    }
  }

  lemma FirstZombie(ps: seq<Slot>, p: nat, i: nat) returns (k: nat)
    requires i <= |ps| && forall j :: 0 <= j < i ==> !ZombieChild(ps[j], p)
    requires exists j :: i <= j < |ps| && ZombieChild(ps[j], p)
    ensures k < |ps| && ZombieChild(ps[k], p) && forall j :: 0 <= j < k ==> !ZombieChild(ps[j], p)
    decreases |ps| - i
  {
    if ZombieChild(ps[i], p) {
      k := i;
    } else {
      k := FirstZombie(ps, p, i + 1);
    }
  }
}
