/** The process table of proc.c: wakeup1, and the parts of fork, exit, wait and kill that change it
    under ptable.lock. */
module Proc {
  import opened Common

  datatype RunState = Unused | Embryo | Sleeping | Runnable | Running | Zombie

  /** Sleep channels: the address of a process slot (used by wait), or any other address. */
  datatype Chan = NoChan | OnProc(p: nat) | Elsewhere(addr: int)

  /** One slot; `parent` is a slot number. */
  datatype Slot = Slot(state: RunState, pid: int, parent: Option<nat>, chan: Chan, killed: bool)

  predicate Wakes(x: Slot, c: Chan)
  {
    x.state.Sleeping? && x.chan == c
  }

  /** wakeup1: every process sleeping on `c` becomes runnable. */
  function Woken(ps: seq<Slot>, c: Chan): (r: seq<Slot>)
    ensures |r| == |ps|
    ensures forall q :: 0 <= q < |ps| ==> r[q] == if Wakes(ps[q], c) then ps[q].(state := Runnable) else ps[q]
  {
    if ps == [] then []
    else
      var n := |ps| - 1;
      Woken(ps[..n], c) + [if Wakes(ps[n], c) then ps[n].(state := Runnable) else ps[n]]
  }

  /** The loop of exit after `i` iterations: abandoned children go to init, which is woken for those
      that are zombies already. */
  function Handed(ps: seq<Slot>, p: nat, init: nat, i: nat): (r: seq<Slot>)
    requires i <= |ps|
    ensures |r| == |ps|
  {
    if i == 0 then ps
    else
      var r := Handed(ps, p, init, i - 1);
      if r[i - 1].parent != Some(p) then r
      else
        var moved := r[i - 1 := r[i - 1].(parent := Some(init))];
        if moved[i - 1].state.Zombie? then Woken(moved, OnProc(init)) else moved
  }

  /** exit, from acquire to sched: wake the parent, hand over the children, become a zombie. */
  function Exited(ps: seq<Slot>, p: nat, init: nat): (r: seq<Slot>)
    requires p < |ps|
    ensures |r| == |ps|
  {
    var a := if ps[p].parent.Some? then Woken(ps, OnProc(ps[p].parent.value)) else ps;
    var b := Handed(a, p, init, |a|);
    b[p := b[p].(state := Zombie)]
  }

  /** Does `x` have a zombie child of `p`? */
  predicate ZombieChild(x: Slot, p: nat)
  {
    x.parent == Some(p) && x.state.Zombie?
  }

  /** A slot that wait has reaped. */
  function Reaped(x: Slot): (r: Slot)
  {
    x.(state := Unused, pid := 0, parent := None, killed := false)
  }

  datatype WaitResult = Reap(q: nat, pid: int) | NoChild | Sleep

  /** The slot scan `wait` makes: the first zombie child, else whether there are children at all. */
  predicate WaitFinds(ps: seq<Slot>, p: nat, w: WaitResult)
    requires p < |ps|
  {
    match w
    case Reap(q, pid) =>
      && q < |ps| && ZombieChild(ps[q], p) && pid == ps[q].pid
      && forall k :: 0 <= k < q ==> !ZombieChild(ps[k], p)
    case NoChild =>
      && (forall k :: 0 <= k < |ps| ==> !ZombieChild(ps[k], p))
      && ((forall k :: 0 <= k < |ps| ==> ps[k].parent != Some(p)) || ps[p].killed)
    case Sleep =>
      && (forall k :: 0 <= k < |ps| ==> !ZombieChild(ps[k], p))
      && (exists k :: 0 <= k < |ps| && ps[k].parent == Some(p)) && !ps[p].killed
  }

  function Waited(ps: seq<Slot>, p: nat, w: WaitResult): (r: seq<Slot>)
    requires p < |ps| && WaitFinds(ps, p, w)
    ensures |r| == |ps|
  {
    match w
    case Reap(q, _) => ps[q := Reaped(ps[q])]
    case NoChild => ps
    case Sleep => ps[p := ps[p].(state := Sleeping, chan := OnProc(p))]
  }

  // ---------------------------------------------------------------------------
  // What the loop of exit does to each slot

  lemma {:induction false} HandedAt(ps: seq<Slot>, p: nat, init: nat, i: nat)
    requires i <= |ps|
    ensures var r := Handed(ps, p, init, i);
      && (forall q :: 0 <= q < |ps| ==>
            && r[q].pid == ps[q].pid && r[q].chan == ps[q].chan && r[q].killed == ps[q].killed
            && r[q].parent == (if q < i && ps[q].parent == Some(p) then Some(init) else ps[q].parent)
            && (r[q].state == ps[q].state || (Wakes(ps[q], OnProc(init)) && r[q].state.Runnable?)))
      && ((exists k :: 0 <= k < i && ZombieChild(ps[k], p)) ==>
            forall q :: 0 <= q < |ps| ==> !Wakes(r[q], OnProc(init)))
  {
    if i > 0 {
      HandedAt(ps, p, init, i - 1);
    }
  }

  /** The effect of exit on each slot. */
  lemma ExitedAt(ps: seq<Slot>, p: nat, init: nat, parent: nat)
    requires p < |ps| && ps[p].parent == Some(parent) && parent != p && !ps[p].state.Sleeping?
    ensures var r := Exited(ps, p, init);
      && r[p].state.Zombie? && r[p].parent == Some(parent)
      && (forall q :: 0 <= q < |ps| ==>
            && r[q].pid == ps[q].pid && r[q].chan == ps[q].chan && r[q].killed == ps[q].killed
            && r[q].parent == (if ps[q].parent == Some(p) then Some(init) else ps[q].parent))
      && (forall q :: 0 <= q < |ps| && q != p ==>
            r[q].state == ps[q].state || (ps[q].state.Sleeping? && r[q].state.Runnable?))
      && (forall q :: 0 <= q < |ps| ==> !Wakes(r[q], OnProc(parent)))
      && ((exists k :: 0 <= k < |ps| && ZombieChild(ps[k], p)) ==>
            forall q :: 0 <= q < |ps| ==> !Wakes(r[q], OnProc(init)))
  {
    var a := Woken(ps, OnProc(parent));
    HandedAt(a, p, init, |a|);
    if k :| 0 <= k < |ps| && ZombieChild(ps[k], p) {
      assert ZombieChild(a[k], p);
    }
  }

  // ---------------------------------------------------------------------------
  // The loops

  class Table {
    var ps: seq<Slot>
    const initproc: nat

    constructor (n: nat, init: nat)
      ensures |ps| == n && initproc == init
      ensures forall q :: 0 <= q < n ==> ps[q] == Slot(Unused, 0, None, NoChan, false)
    {
      ps := seq(n, i => Slot(Unused, 0, None, NoChan, false));
      initproc := init;
    }

    /** Wake up all processes sleeping on `c`. */
    method Wakeup1(c: Chan)
      modifies this
      ensures ps == Woken(old(ps), c)
    {
      ghost var before := ps;
      var q := 0;
      while q < |ps|
        invariant 0 <= q <= |ps| == |before|
        invariant forall k :: 0 <= k < q ==>
          ps[k] == if Wakes(before[k], c) then before[k].(state := Runnable) else before[k]
        invariant forall k :: q <= k < |ps| ==> ps[k] == before[k]
      {
        if ps[q].state == Sleeping && ps[q].chan == c {
          ps := ps[q := ps[q].(state := Runnable)];
        }
        q := q + 1;
      }
    }

    /** exit of process `p`, under ptable.lock. `false` is the panic of init. */
    method Exit(p: nat) returns (ok: bool)
      requires p < |ps|
      modifies this
      ensures ok <==> p != initproc
      ensures ps == if ok then Exited(old(ps), p, initproc) else old(ps)
    {
      if p == initproc {
        return false;
      }
      if ps[p].parent.Some? {
        Wakeup1(OnProc(ps[p].parent.value));
      }
      ghost var a := ps;
      var q := 0;
      while q < |ps|
        invariant 0 <= q <= |ps| == |a|
        invariant ps == Handed(a, p, initproc, q)
      {
        if ps[q].parent == Some(p) {
          ps := ps[q := ps[q].(parent := Some(initproc))];
          if ps[q].state == Zombie {
            Wakeup1(OnProc(initproc));
          }
        }
        q := q + 1;
      }
      ps := ps[p := ps[p].(state := Zombie)];
      ok := true;
    }

    /** One pass of wait by process `p`, under ptable.lock. */
    method Wait(p: nat) returns (w: WaitResult)
      requires p < |ps|
      modifies this
      ensures WaitFinds(old(ps), p, w)
      ensures ps == Waited(old(ps), p, w)
    {
      var havekids := false;
      var q := 0;
      while q < |ps|
        invariant 0 <= q <= |ps| && ps == old(ps)
        invariant forall k :: 0 <= k < q ==> !ZombieChild(ps[k], p)
        invariant havekids <==> exists k :: 0 <= k < q && ps[k].parent == Some(p)
      {
        if ps[q].parent == Some(p) {
          havekids := true;
          if ps[q].state == Zombie {
            w := Reap(q, ps[q].pid);
            ps := ps[q := ps[q].(state := Unused, pid := 0, parent := None, killed := false)];
            return;
          }
        }
        q := q + 1;
      }
      if !havekids || ps[p].killed {
        return NoChild;
      }
      ps := ps[p := ps[p].(state := Sleeping, chan := OnProc(p))];
      w := Sleep;
    }

    /** The slot allocproc claims: the first unused one, which becomes an embryo. */
    method Claim(pid: int) returns (q: Option<nat>)
      modifies this
      ensures q.None? ==> ps == old(ps) && forall k :: 0 <= k < |ps| ==> !ps[k].state.Unused?
      ensures q.Some? ==> q.value < |old(ps)| && old(ps)[q.value].state.Unused?
      ensures q.Some? ==> forall k :: 0 <= k < q.value ==> !old(ps)[k].state.Unused?
      ensures q.Some? ==> ps == old(ps)[q.value := old(ps)[q.value].(state := Embryo, pid := pid)]
    {
      var i := 0;
      while i < |ps|
        invariant 0 <= i <= |ps| && ps == old(ps)
        invariant forall k :: 0 <= k < i ==> !ps[k].state.Unused?
      {
        if ps[i].state == Unused {
          ps := ps[i := ps[i].(state := Embryo, pid := pid)];
          return Some(i);
        }
        i := i + 1;
      }
      q := None;
    }

    /** kill: mark the first slot with this pid, and wake it if it sleeps. */
    method Kill(pid: int) returns (q: Option<nat>)
      modifies this
      ensures q.None? ==> ps == old(ps) && forall k :: 0 <= k < |ps| ==> ps[k].pid != pid
      ensures q.Some? ==> q.value < |old(ps)| && old(ps)[q.value].pid == pid
      ensures q.Some? ==> forall k :: 0 <= k < q.value ==> old(ps)[k].pid != pid
      ensures q.Some? ==> ps == old(ps)[q.value := Killed(old(ps)[q.value])]
    {
      var i := 0;
      while i < |ps|
        invariant 0 <= i <= |ps| && ps == old(ps)
        invariant forall k :: 0 <= k < i ==> ps[k].pid != pid
      {
        if ps[i].pid == pid {
          ps := ps[i := ps[i].(killed := true)];
          if ps[i].state == Sleeping {
            ps := ps[i := ps[i].(state := Runnable)];
          }
          return Some(i);
        }
        i := i + 1;
      }
      q := None;
    }
  }

  function Killed(x: Slot): (r: Slot)
  {
    x.(killed := true, state := if x.state.Sleeping? then Runnable else x.state)
  }
}
