/** The inode cache of fs.c: iget, idup, ilock, iunlock, iupdate, iput and ialloc, interleaved in every
    order.  Each step is one stretch of code under icache.lock, or one exclusive use of an inode or of
    a disk inode's buffer. */
module Icache {
  import opened Common

  /** An inode's own fields; `kind` is the type, 0 when the inode is free, and `rest` stands for the
      device numbers, the size and the block addresses. */
  datatype Dinode = Dinode(kind: int, nlink: int, rest: int)

  /** What the process that set I_BUSY is doing: nothing, reading the inode in ilock, working between
      ilock and iunlock, truncating in iput, or about to release a freed inode in iput. */
  datatype Phase = Unlocked | Loading | Locked | Freeing | Freed

  /** A cache entry. `idle` counts the references that are not in use by the process in `phase`. */
  datatype Entry = Entry(inum: nat, ref: int, valid: bool, phase: Phase, ino: Dinode, idle: nat)

  datatype State = State(entries: seq<Entry>, dinodes: seq<Dinode>, panicked: bool)

  predicate Busy(x: Entry)
  {
    !x.phase.Unlocked?
  }

  /** iget finds entry `k`: the one that refers to `inum`, else the first unreferenced one. */
  predicate Finds(es: seq<Entry>, inum: nat, k: nat)
  {
    && k < |es|
    && if es[k].ref > 0 then es[k].inum == inum else
         && (forall j :: 0 <= j < |es| && es[j].ref > 0 ==> es[j].inum != inum)
         && (forall j :: 0 <= j < k ==> es[j].ref != 0)
  }

  predicate NoRoom(es: seq<Entry>, inum: nat)
  {
    forall j :: 0 <= j < |es| ==> es[j].ref != 0 && es[j].inum != inum
  }

  function Referenced(x: Entry, inum: nat): (y: Entry)
  {
    if x.ref > 0 then x.(ref := x.ref + 1, idle := x.idle + 1)
    else Entry(inum, 1, false, Unlocked, x.ino, 1)
  }

  datatype Event =
    | Iget(inum: nat, k: nat)
    | IgetFull(inum: nat)
    | Idup(k: nat)
    | Ilock(k: nat)
    | Load(k: nat)
    | Modify(k: nat, x: Dinode)
    | Iupdate(k: nat)
    | Iunlock(k: nat)
    | Iput(k: nat)
    | Truncate(k: nat, rest: int)
    | Unmark(k: nat)
    | Release(k: nat)
    | Ialloc(inum: nat, kind: int)

  /** Entry `k` has a reference that is free to be used. */
  predicate Held(s: State, k: nat)
  {
    k < |s.entries| && s.entries[k].idle > 0
  }

  predicate InPhase(s: State, k: nat, p: Phase)
  {
    k < |s.entries| && s.entries[k].phase == p && s.entries[k].inum < |s.dinodes|
  }

  predicate Last(x: Entry)
  {
    x.ref == 1 && x.valid && x.ino.nlink == 0
  }

  /** One step; an event that cannot happen changes nothing, and nothing happens after a panic. */
  function Next(s: State, e: Event): (t: State)
    ensures |t.entries| == |s.entries| && |t.dinodes| == |s.dinodes|
  {
    if s.panicked then s else
    match e
    case Iget(inum, k) =>
      if inum < |s.dinodes| && Finds(s.entries, inum, k) then
        s.(entries := s.entries[k := Referenced(s.entries[k], inum)])
      else s
    case IgetFull(inum) => if NoRoom(s.entries, inum) then s.(panicked := true) else s
    case Idup(k) =>
      if Held(s, k) then Put(s, k, s.entries[k].(ref := s.entries[k].ref + 1, idle := s.entries[k].idle + 1)) else s
    case Ilock(k) =>
      if Held(s, k) && !Busy(s.entries[k]) then
        Put(s, k, s.entries[k].(phase := Loading, idle := s.entries[k].idle - 1))
      else s
    case Load(k) =>
      if !InPhase(s, k, Loading) then s
      else if s.entries[k].valid then Put(s, k, s.entries[k].(phase := Locked))
      else
        var d := s.dinodes[s.entries[k].inum];
        Put(s, k, s.entries[k].(phase := Locked, valid := true, ino := d)).(panicked := d.kind == 0)
    case Modify(k, x) =>
      if InPhase(s, k, Locked) && x.kind != 0 then Put(s, k, s.entries[k].(ino := x)) else s
    case Iupdate(k) => if InPhase(s, k, Locked) then Flush(s, k) else s
    case Iunlock(k) =>
      if InPhase(s, k, Locked) && s.entries[k].ino == s.dinodes[s.entries[k].inum] then
        Put(s, k, s.entries[k].(phase := Unlocked, idle := s.entries[k].idle + 1))
      else s
    case Iput(k) =>
      if !Held(s, k) then s
      else if !Last(s.entries[k]) then
        Put(s, k, s.entries[k].(ref := s.entries[k].ref - 1, idle := s.entries[k].idle - 1))
      else if Busy(s.entries[k]) then s.(panicked := true)
      else Put(s, k, s.entries[k].(phase := Freeing, idle := s.entries[k].idle - 1))
    case Truncate(k, rest) =>
      if InPhase(s, k, Freeing) then Flush(Put(s, k, s.entries[k].(ino := s.entries[k].ino.(rest := rest))), k) else s
    case Unmark(k) =>
      if InPhase(s, k, Freeing) then
        Flush(Put(s, k, s.entries[k].(ino := s.entries[k].ino.(kind := 0), phase := Freed)), k)
      else s
    case Release(k) =>
      if InPhase(s, k, Freed) then
        Put(s, k, s.entries[k].(phase := Unlocked, valid := false, ref := s.entries[k].ref - 1))
      else s
    case Ialloc(inum, kind) =>
      if 1 <= inum < |s.dinodes| && s.dinodes[inum].kind == 0 && kind != 0 then
        s.(dinodes := s.dinodes[inum := Dinode(kind, 0, 0)])
      else s
  }

  function Put(s: State, k: nat, x: Entry): (t: State)
    requires k < |s.entries|
  {
    s.(entries := s.entries[k := x])
  }

  /** iupdate: the entry's fields go to its disk inode. */
  function Flush(s: State, k: nat): (t: State)
    requires k < |s.entries| && s.entries[k].inum < |s.dinodes|
  {
    s.(dinodes := s.dinodes[s.entries[k].inum := s.entries[k].ino])
  }

  function Run(s: State, es: seq<Event>): (t: State)
    ensures |t.entries| == |s.entries| && |t.dinodes| == |s.dinodes|
  {
    if es == [] then s else Next(Run(s, es[..|es| - 1]), es[|es| - 1])
  }

  /** After iinit: no entry is referenced. */
  predicate Boot(s: State)
  {
    && !s.panicked
    && forall k :: 0 <= k < |s.entries| ==>
         s.entries[k].ref == 0 && s.entries[k].idle == 0 && s.entries[k].phase.Unlocked?
  }

  // ---------------------------------------------------------------------------
  // The invariant

  /** References are counted; an entry that is valid and not being freed has an allocated inode; and one
      that nobody has locked agrees with the disk. */
  predicate EntryOk(x: Entry, dinodes: seq<Dinode>)
  {
    && x.ref == x.idle + (if Busy(x) then 1 else 0)
    && (x.ref > 0 ==> x.inum < |dinodes|)
    && (x.ref > 0 && x.valid && (x.phase.Unlocked? || x.phase.Loading?) ==>
          x.ino == dinodes[x.inum] && x.ino.kind != 0)
    && (x.phase.Locked? || x.phase.Freeing? ==> x.valid && x.ino.kind != 0 && dinodes[x.inum].kind != 0)
    && (x.phase.Freeing? || x.phase.Freed? ==> x.valid && x.ino.nlink == 0)
  }

  predicate Unique(es: seq<Entry>)
  {
    forall j, k ::
      0 <= j < |es| && 0 <= k < |es| && es[j].ref > 0 && es[k].ref > 0 && es[j].inum == es[k].inum ==> j == k
  }

  predicate Coherent(s: State)
  {
    && Unique(s.entries)
    && (forall k :: 0 <= k < |s.entries| ==> EntryOk(s.entries[k], s.dinodes))
  }

  /** A step on entry `k`, and on its disk inode if `dinodes` changed there. */
  lemma OneEntry(s: State, t: State, k: nat)
    requires Coherent(s) && k < |s.entries| == |t.entries| && t.entries == s.entries[k := t.entries[k]]
    requires |t.dinodes| == |s.dinodes| && EntryOk(t.entries[k], t.dinodes)
    requires s.entries[k].ref > 0 && t.entries[k].inum == s.entries[k].inum
    requires forall i :: 0 <= i < |s.dinodes| && i != s.entries[k].inum ==> t.dinodes[i] == s.dinodes[i]
    ensures Coherent(t)
  {
    forall j | 0 <= j < |t.entries| ensures EntryOk(t.entries[j], t.dinodes) {
      assert EntryOk(s.entries[j], s.dinodes);
    }
  }

  lemma StepEntry(s: State, e: Event)
    requires Coherent(s) && !e.Iget? && !e.IgetFull? && !e.Ialloc? && !s.panicked && !Next(s, e).panicked
    ensures Coherent(Next(s, e))
  {
    if Next(s, e) != s {
      assert EntryOk(s.entries[e.k], s.dinodes);
      OneEntry(s, Next(s, e), e.k);
    }
  }

  lemma Step(s: State, e: Event)
    requires Coherent(s) && !Next(s, e).panicked
    ensures Coherent(Next(s, e))
  {
    if !s.panicked && !e.Iget? && !e.Ialloc? && !e.IgetFull? {
      StepEntry(s, e);
    }
  }

  lemma {:induction false} RunsAreCoherent(s: State, es: seq<Event>)
    requires Boot(s) && !Run(s, es).panicked
    ensures Coherent(Run(s, es))
    decreases |es|
  {
    if es != [] {
      var n := |es| - 1;
      RunsAreCoherent(s, es[..n]);
      Step(Run(s, es[..n]), es[n]);
    }
  }

  // ---------------------------------------------------------------------------
  // What it means

  /** In every run, an inode number has at most one referenced entry, and an entry that is referenced,
      valid and not locked equals its disk inode, which is allocated. */
  lemma {:induction false} CacheCoherence(s: State, es: seq<Event>, j: nat, k: nat)
    requires Boot(s) && !Run(s, es).panicked && j < |Run(s, es).entries| && k < |Run(s, es).entries|
    ensures var t := Run(s, es);
      t.entries[j].ref > 0 && t.entries[k].ref > 0 && t.entries[j].inum == t.entries[k].inum ==> j == k
    ensures var t := Run(s, es); var x := t.entries[k];
      x.ref > 0 && x.valid && !Busy(x) ==> x.inum < |t.dinodes| && x.ino == t.dinodes[x.inum] && x.ino.kind != 0
  {
    RunsAreCoherent(s, es);
    assert EntryOk(Run(s, es).entries[k], Run(s, es).dinodes);
  }

  /** The only panics are running out of entries and locking a free inode: iput never finds the last
      reference locked. */
  lemma {:induction false} NoBusyPanic(s: State, es: seq<Event>, e: Event)
    requires Boot(s) && !Run(s, es).panicked && Next(Run(s, es), e).panicked
    ensures
      || e.IgetFull?
      || (e.Load? && !Run(s, es).entries[e.k].valid && Run(s, es).dinodes[Run(s, es).entries[e.k].inum].kind == 0)
  {
    RunsAreCoherent(s, es);
  }

  /** An allocated disk inode is changed only by the process that has its entry locked, or is freeing it
      through its last reference. */
  lemma OnlyHolderWrites(s: State, es: seq<Event>, e: Event, inum: nat)
    requires Boot(s) && !Run(s, es).panicked && inum < |Run(s, es).dinodes| && Run(s, es).dinodes[inum].kind != 0
    requires Next(Run(s, es), e).dinodes[inum] != Run(s, es).dinodes[inum]
    ensures (e.Iupdate? || e.Truncate? || e.Unmark?) && e.k < |Run(s, es).entries|
    ensures var x := Run(s, es).entries[e.k];
      x.ref > 0 && x.inum == inum && (x.phase.Locked? || (x.phase.Freeing? && !e.Iupdate?))
  {
    RunsAreCoherent(s, es);
    assert EntryOk(Run(s, es).entries[e.k], Run(s, es).dinodes);
  }

  /** In every run, the step that drops the last reference to an entry leaves it valid if and only if the entry
      was valid and its inode has links. */
  lemma {:induction false} LastReference(s: State, es: seq<Event>, e: Event, k: nat)
    requires Boot(s) && !Next(Run(s, es), e).panicked && k < |s.entries|
    requires Run(s, es).entries[k].ref == 1 && Next(Run(s, es), e).entries[k].ref == 0
    ensures var x := Run(s, es).entries[k];
      Next(Run(s, es), e).entries[k].valid <==> x.valid && x.ino.nlink != 0
  {
    var t := Run(s, es);
    assert !t.panicked;
    RunsAreCoherent(s, es);
    assert EntryOk(t.entries[k], t.dinodes);
  }

  lemma Snoc(s: State, es: seq<Event>, e: Event)
    ensures Run(s, es + [e]) == Next(Run(s, es), e)
  {
    assert (es + [e])[..|es|] == es;
  }

  lemma UsedOnce(s: State, inum: nat)
    requires Boot(s) && |s.entries| > 0 && inum < |s.dinodes| && s.dinodes[inum].kind != 0 && s.dinodes[inum].nlink != 0
    ensures var t := Next(Next(Next(Next(Next(s, Iget(inum, 0)), Ilock(0)), Load(0)), Iunlock(0)), Iput(0));
      !t.panicked && t.entries[0].ref == 0 && t.entries[0].valid && t.entries[0].inum == inum
  {
    var t1 := Next(s, Iget(inum, 0));
    assert t1.entries[0] == Entry(inum, 1, false, Unlocked, s.entries[0].ino, 1);
    assert t1.dinodes == s.dinodes && !t1.panicked;
    var t2 := Next(t1, Ilock(0));
    assert t2.entries[0] == Entry(inum, 1, false, Loading, s.entries[0].ino, 0);
    assert t2.dinodes == s.dinodes && !t2.panicked;
    var t3 := Next(t2, Load(0));
    assert t3.entries[0] == Entry(inum, 1, true, Locked, s.dinodes[inum], 0) && t3.dinodes == s.dinodes && !t3.panicked;
    var t4 := Next(t3, Iunlock(0));
    assert t4.entries[0] == Entry(inum, 1, true, Unlocked, s.dinodes[inum], 1) && !t4.panicked;
  }

  /** Such a run: a reference to any allocated inode with links is taken, used and dropped, and the entry, which
      nobody refers to, is still valid. */
  lemma StaysValid(s: State, inum: nat) returns (es: seq<Event>)
    requires Boot(s) && |s.entries| > 0 && inum < |s.dinodes| && s.dinodes[inum].kind != 0 && s.dinodes[inum].nlink != 0
    ensures var t := Run(s, es); !t.panicked && t.entries[0].ref == 0 && t.entries[0].valid && t.entries[0].inum == inum
  {
    UsedOnce(s, inum);
    es := [];
    Snoc(s, es, Iget(inum, 0));
    es := es + [Iget(inum, 0)];
    Snoc(s, es, Ilock(0));
    es := es + [Ilock(0)];
    Snoc(s, es, Load(0));
    es := es + [Load(0)];
    Snoc(s, es, Iunlock(0));
    es := es + [Iunlock(0)];
    Snoc(s, es, Iput(0));
    es := es + [Iput(0)];
  }

  // ---------------------------------------------------------------------------
  // The window in iput

  /** Nobody has read disk inode `inum`, which is `d`, since it was allocated again: its entry is still being
      let go, or is not valid. */
  predicate Unread(s: State, inum: nat, d: Dinode)
  {
    && inum < |s.dinodes| && s.dinodes[inum] == d && d.kind != 0
    && forall j :: 0 <= j < |s.entries| ==> UnreadBy(s.entries[j], inum)
  }

  predicate UnreadBy(x: Entry, inum: nat)
  {
    x.ref > 0 && x.inum == inum ==> x.phase.Freed? || (!x.valid && (x.phase.Unlocked? || x.phase.Loading?))
  }

  /** The step reads disk inode `inum` into an entry. */
  predicate Reads(s: State, e: Event, inum: nat)
  {
    e.Load? && InPhase(s, e.k, Loading) && s.entries[e.k].inum == inum
  }

  lemma UnreadStep(s: State, e: Event, inum: nat, d: Dinode)
    requires Coherent(s) && Unread(s, inum, d) && !Reads(s, e, inum) && !Next(s, e).panicked
    ensures Unread(Next(s, e), inum, d)
  {
    var t := Next(s, e);
    forall j | 0 <= j < |t.entries| ensures UnreadBy(t.entries[j], inum) {
      assert UnreadBy(s.entries[j], inum) && EntryOk(s.entries[j], s.dinodes);
    }
  }

  lemma {:induction false} UnreadRun(b: State, es0: seq<Event>, es: seq<Event>, inum: nat, d: Dinode)
    requires Boot(b) && !Run(Run(b, es0), es).panicked && Unread(Run(b, es0), inum, d)
    requires forall i :: 0 <= i < |es| ==> !Reads(Run(Run(b, es0), es[..i]), es[i], inum)
    ensures Coherent(Run(Run(b, es0), es)) && Unread(Run(Run(b, es0), es), inum, d)
    decreases |es|
  {
    var t := Run(b, es0);
    if es == [] {
      RunsAreCoherent(b, es0);
    } else {
      var n := |es| - 1;
      forall i | 0 <= i < n ensures !Reads(Run(t, es[..n][..i]), es[..n][i], inum) {
        assert es[..n][..i] == es[..i];
      }
      UnreadRun(b, es0, es[..n], inum, d);
      Step(Run(t, es[..n]), es[n]);
      UnreadStep(Run(t, es[..n]), es[n], inum, d);
    }
  }

  /** Once iput has cleared the type on disk, the number may be allocated again while iput has not yet let go of
      the entry. Whatever the processes then do, in any order, until somebody reads it the disk inode stays as it
      is and no entry passes for it; and whoever reads it first gets it. */
  lemma {:induction false} ReuseWindow(b: State, es0: seq<Event>, k: nat, es: seq<Event>)
    requires Boot(b) && InPhase(Run(b, es0), k, Freed)
    requires var t := Run(b, es0); var inum := t.entries[k].inum;
      && t.dinodes[inum].kind != 0 && !Run(t, es).panicked
      && forall i :: 0 <= i < |es| ==> !Reads(Run(t, es[..i]), es[i], inum)
    ensures var t := Run(b, es0); var inum := t.entries[k].inum; Unread(Run(t, es), inum, t.dinodes[inum])
    ensures var t := Run(b, es0); var inum := t.entries[k].inum;
      forall e :: Reads(Run(t, es), e, inum) ==> ReadsInto(Next(Run(t, es), e), e.k, inum, t.dinodes[inum])
  {
    var t := Run(b, es0);
    var inum := t.entries[k].inum;
    NotPanicked(t, es);
    RunsAreCoherent(b, es0);
    forall j | 0 <= j < |t.entries| ensures UnreadBy(t.entries[j], inum) {
      assert EntryOk(t.entries[k], t.dinodes);
    }
    UnreadRun(b, es0, es, inum, t.dinodes[inum]);
    var u := Run(t, es);
    forall e | Reads(u, e, inum) ensures ReadsInto(Next(u, e), e.k, inum, t.dinodes[inum]) {
      assert UnreadBy(u.entries[e.k], inum) && EntryOk(u.entries[e.k], u.dinodes);
    }
  }

  /** Entry `k` is locked and holds disk inode `inum`, which is `d`. */
  predicate ReadsInto(u: State, k: nat, inum: nat, d: Dinode)
  {
    && !u.panicked && k < |u.entries| && u.entries[k].phase.Locked? && u.entries[k].valid
    && inum < |u.dinodes| && u.entries[k].ino == u.dinodes[inum] == d
  }

  lemma {:induction false} NotPanicked(s: State, es: seq<Event>)
    requires !Run(s, es).panicked
    ensures !s.panicked
    decreases |es|
  {
    if es != [] {
      NotPanicked(s, es[..|es| - 1]);
    }
  }

  // ---------------------------------------------------------------------------
  // The scans

  class Cache {
    var entries: seq<Entry>
    var dinodes: seq<Dinode>

    constructor (es: seq<Entry>, ds: seq<Dinode>)
      ensures entries == es && dinodes == ds
    {
      entries, dinodes := es, ds;
    }

    /** Find the entry for `inum` or recycle one; None is the panic "iget: no inodes". */
    method Iget(inum: nat) returns (r: Option<nat>)
      requires forall j :: 0 <= j < |entries| ==> entries[j].ref >= 0
      modifies `entries
      ensures r.None? ==> NoRoom(entries, inum) && entries == old(entries)
      ensures r.Some? ==> Finds(old(entries), inum, r.value)
      ensures r.Some? ==> entries == old(entries)[r.value := Referenced(old(entries)[r.value], inum)]
    {
      var empty: Option<nat> := None;
      var k := 0;
      while k < |entries|
        invariant 0 <= k <= |entries| && entries == old(entries)
        invariant forall j :: 0 <= j < k && entries[j].ref > 0 ==> entries[j].inum != inum
        invariant empty.None? ==> forall j :: 0 <= j < k ==> entries[j].ref != 0
        invariant empty.Some? ==> empty.value < k && entries[empty.value].ref == 0
        invariant empty.Some? ==> forall j :: 0 <= j < empty.value ==> entries[j].ref != 0
      {
        if entries[k].ref > 0 && entries[k].inum == inum {
          entries := entries[k := Referenced(entries[k], inum)];
          return Some(k);
        }
        if empty.None? && entries[k].ref == 0 {
          empty := Some(k);
        }
        k := k + 1;
      }
      if empty.Some? {
        entries := entries[empty.value := Referenced(entries[empty.value], inum)];
      }
      r := empty;
    }

    /** Allocate the lowest free inode number from 1; None is the panic "ialloc: no inodes". */
    method Ialloc(kind: int) returns (r: Option<nat>)
      modifies `dinodes
      ensures r.None? ==> dinodes == old(dinodes) && forall i :: 1 <= i < |dinodes| ==> dinodes[i].kind != 0
      ensures r.Some? ==> 1 <= r.value < |old(dinodes)| && old(dinodes)[r.value].kind == 0
      ensures r.Some? ==> forall i :: 1 <= i < r.value ==> old(dinodes)[i].kind != 0
      ensures r.Some? ==> dinodes == old(dinodes)[r.value := Dinode(kind, 0, 0)]
    {
      var inum := 1;
      while inum < |dinodes|
        invariant 1 <= inum && dinodes == old(dinodes)
        invariant forall i :: 1 <= i < inum && i < |dinodes| ==> dinodes[i].kind != 0
      {
        if dinodes[inum].kind == 0 {
          dinodes := dinodes[inum := Dinode(kind, 0, 0)];
          return Some(inum);
        }
        inum := inum + 1;
      }
      r := None;
    }
  }
}
