/** The redo log of log.c on top of the buffer cache, as one process executes it. */
module Log {
  import opened Bytes
  import opened LogCrash
  import opened LogHeader
  import opened MemIde
  import opened Bio
  import opened Common

  /** The set of sectors a header names. */
  function Named(secs: seq<uint>): (s: set<uint>)
  {
    set i | 0 <= i < |secs| :: secs[i]
  }

  /** Is the sector part of the log region? */
  predicate InLog(l: Layout, s: nat)
  {
    l.start <= s < l.start + l.size
  }

  /** The contents of the given sectors. */
  function Blocks(view: seq<Block>, secs: seq<uint>): (bs: seq<Block>)
    requires forall i :: 0 <= i < |secs| ==> secs[i] < |view|
    ensures |bs| == |secs| && forall i :: 0 <= i < |secs| ==> bs[i] == view[secs[i]]
  {
    if secs == [] then [] else Blocks(view, secs[..|secs| - 1]) + [view[secs[|secs| - 1]]]
  }

  // ---------------------------------------------------------------------------
  // Sector writes through the cache

  /** Disk and cache at one moment, as the log sees them. */
  datatype Snapshot = Snapshot(sectors: Disk, view: seq<Block>, writes: seq<Write>, pinned: set<uint>, used: nat) {

    /** One sector write of `data`, which unpins the sector. */
    function Put(at: nat, data: Block): (r: Snapshot)
      requires at < |view| == |sectors|
    {
      Snapshot(sectors[at := data], view[at := data], writes + [Write(at, data)], pinned - {at},
               if at in pinned && used > 0 then used - 1 else used)
    }

    /** One sector write of what readers see at `src` to `dst`. */
    function Copy(src: nat, dst: nat): (r: Snapshot)
      requires src < |view| && dst < |view| == |sectors|
    {
      Put(dst, view[src])
    }
  }

  /** The logged sectors fit the log, and nobody holds a buffer that a commit needs. */
  ghost predicate Fits(l: Layout, a: Snapshot, held: set<uint>, secs: seq<uint>)
  {
    && Loggable(l, secs)
    && l.start + l.size <= |a.sectors| == |a.view|
    && (forall s :: s in held ==> s !in secs && !InLog(l, s))
    && (forall s :: s in a.pinned ==> !InLog(l, s))
  }

  /** The first `k` sector writes of `write_log`. */
  function LogWrites(l: Layout, blocks: seq<Block>, k: nat): (ws: seq<Write>)
    requires k <= |blocks|
  {
    if k == 0 then [] else LogWrites(l, blocks, k - 1) + [Write(l.start + k, blocks[k - 1])]
  }

  /** What a commit starts from: the logged sectors fit the log and are the pinned ones, and `blocks`
      is what readers see at them. Folded under key 1, see `Unfold`. */
  ghost predicate Starting(l: Layout, a: Snapshot, held: set<uint>, secs: seq<uint>, blocks: seq<Block>)
  {
    forall u: int {:trigger Unfold(u)} :: Unfold(u) && u == 1 ==>
      && Fits(l, a, held, secs) && a.pinned == Named(secs)
      && |blocks| == |secs| && (forall i :: 0 <= i < |secs| ==> blocks[i] == a.view[secs[i]])
  }

  /** `write_log` after `k` iterations: the log region holds what readers see at the home sectors.
      Folded. */
  ghost predicate Logging(l: Layout, a: Snapshot, b: Snapshot, held: set<uint>, secs: seq<uint>, blocks: seq<Block>,
                          k: nat)
  {
    && Starting(l, a, held, secs, blocks)
    && forall u: int {:trigger Unfold(u)} :: Unfold(u) && u == 0 ==>
         && k <= |blocks| == |secs| && l.start + |blocks| < |a.sectors| == |a.view|
         && (k > 0 ==> a.used < NBUF)
         && b.sectors == LogFill(l, a.sectors, blocks, k) && b.view == LogFill(l, a.view, blocks, k)
         && b.writes == a.writes + LogWrites(l, blocks, k)
         && b.pinned == a.pinned && b.used == a.used
  }

  lemma LoggingNext(l: Layout, a: Snapshot, b: Snapshot, held: set<uint>, secs: seq<uint>, blocks: seq<Block>, k: nat)
    requires Logging(l, a, b, held, secs, blocks, k) && k < |secs|
    ensures secs[k] < l.start < l.start + 1 + k < |b.sectors| == |b.view| && l.start + 1 + k < U32
    ensures l.start + 1 + k !in held && secs[k] !in held && l.start + 1 + k !in b.pinned && secs[k] in b.pinned
    ensures b.pinned == a.pinned && (k == 0 ==> b.sectors == a.sectors && b.writes == a.writes)
    ensures (k > 0 ==> a.used < NBUF) && b.used == a.used
    ensures b.pinned - {l.start + 1 + k} == a.pinned
    ensures k < |blocks| && b.view[secs[k]] == blocks[k]
  {
    assert Unfold(0) && Unfold(1);
    LogFillAt(l, a.view, blocks, k);
  }

  lemma LoggingStep(l: Layout, a: Snapshot, b: Snapshot, held: set<uint>, secs: seq<uint>, blocks: seq<Block>, k: nat)
    requires Logging(l, a, b, held, secs, blocks, k) && k < |secs| && a.used < NBUF
    requires secs[k] < |b.view| && l.start + 1 + k < |b.view| == |b.sectors|
    requires l.start + 1 + k !in b.pinned && b.pinned - {l.start + 1 + k} == a.pinned && k < |blocks|
    requires b.view[secs[k]] == blocks[k]
    ensures Logging(l, a, b.Copy(secs[k], l.start + 1 + k), held, secs, blocks, k + 1)
  {
    assert Unfold(0);
  }

  /** The first `k` sector writes of `install_trans`. */
  function InstallWrites(secs: seq<uint>, blocks: seq<Block>, k: nat): (ws: seq<Write>)
    requires k <= |secs| == |blocks|
  {
    if k == 0 then [] else InstallWrites(secs, blocks, k - 1) + [Write(secs[k - 1], blocks[k - 1])]
  }

  /** What `install_trans` starts from: `blocks` is what readers see in the log. Folded under key 1. */
  ghost predicate InstallReady(l: Layout, a: Snapshot, held: set<uint>, secs: seq<uint>, blocks: seq<Block>)
  {
    forall u: int {:trigger Unfold(u)} :: Unfold(u) && u == 1 ==>
      && Fits(l, a, held, secs) && (secs != [] ==> Room(a, secs))
      && |blocks| == |secs| && (forall i :: 0 <= i < |secs| ==> blocks[i] == a.view[l.start + 1 + i])
  }

  /** `install_trans` after `k` iterations: the first `k` home sectors hold what readers see in the
      log, and are no longer pinned. Folded. */
  ghost predicate Installing(l: Layout, a: Snapshot, b: Snapshot, held: set<uint>, secs: seq<uint>,
                             blocks: seq<Block>, k: nat)
  {
    && InstallReady(l, a, held, secs, blocks)
    && forall u: int {:trigger Unfold(u)} :: Unfold(u) && u == 0 ==>
      && k <= |secs| == |blocks| && (forall i :: 0 <= i < |secs| ==> secs[i] < |a.sectors| == |a.view|)
      && b.sectors == Install(a.sectors, secs, blocks, k) && b.view == Install(a.view, secs, blocks, k)
      && b.writes == a.writes + InstallWrites(secs, blocks, k)
      && b.pinned == a.pinned - Named(secs[..k]) && (secs != [] ==> Room(b, secs[k..])) && b.used <= a.used
  }

  lemma InstallingNext(l: Layout, a: Snapshot, b: Snapshot, held: set<uint>, secs: seq<uint>, blocks: seq<Block>,
                       k: nat)
    requires Installing(l, a, b, held, secs, blocks, k) && k < |secs|
    ensures secs[k] < l.start < l.start + 1 + k < |b.sectors| == |b.view| && l.start + 1 + k < U32
    ensures l.start + 1 + k !in held && secs[k] !in held && l.start + 1 + k !in b.pinned
    ensures b.used < NBUF && (secs[k] in b.pinned || b.used + 1 < NBUF)
    ensures b.pinned - {secs[k]} == a.pinned - Named(secs[..k + 1])
    ensures Room(b.Copy(l.start + 1 + k, secs[k]), secs[k + 1..])
    ensures k < |blocks| && b.view[l.start + 1 + k] == blocks[k]
  {
    assert Unfold(0) && Unfold(1);
    InstallAt(a.view, secs, blocks, k);
    NamedNext(secs, k);
  }

  lemma InstallingStep(l: Layout, a: Snapshot, b: Snapshot, held: set<uint>, secs: seq<uint>, blocks: seq<Block>,
                       k: nat)
    requires Installing(l, a, b, held, secs, blocks, k) && k < |secs|
    requires secs[k] < |b.view| && l.start + 1 + k < |b.view| == |b.sectors|
    requires b.pinned - {secs[k]} == a.pinned - Named(secs[..k + 1])
    requires k < |blocks| && b.view[l.start + 1 + k] == blocks[k]
    requires Room(b.Copy(l.start + 1 + k, secs[k]), secs[k + 1..])
    ensures Installing(l, a, b.Copy(l.start + 1 + k, secs[k]), held, secs, blocks, k + 1)
  {
    assert Unfold(0);
  }

  /** Buffers enough to install `secs`: one for the log block, and one for the home block unless the
      home blocks are pinned. */
  ghost predicate Room(a: Snapshot, secs: seq<uint>)
  {
    a.used < NBUF && ((forall i :: 0 <= i < |secs| ==> secs[i] in a.pinned) || a.used + 1 < NBUF)
  }

  lemma NamedNext(secs: seq<uint>, k: nat)
    requires Distinct(secs) && k < |secs|
    ensures Named(secs[..k + 1]) == Named(secs[..k]) + {secs[k]} && secs[k] !in Named(secs[..k])
  {
    var a, b := secs[..k], secs[..k + 1];
    assert forall i :: 0 <= i < k ==> a[i] == b[i] && a[i] != secs[k];
    assert b[k] == secs[k];
  }

  // ---------------------------------------------------------------------------
  // The stages of a commit

  lemma InstallStarts(l: Layout, c: Snapshot, held: set<uint>, secs: seq<uint>, blocks: seq<Block>)
    requires Fits(l, c, held, secs) && (secs != [] ==> Room(c, secs))
    requires |blocks| == |secs| && forall i :: 0 <= i < |secs| ==> blocks[i] == c.view[l.start + 1 + i]
    ensures Installing(l, c, c, held, secs, blocks, 0)
  {
    assert secs[..0] == [] && secs[0..] == secs;
  }

  /** The log blocks are written: the header can follow. */
  lemma LogWritten(l: Layout, a: Snapshot, b: Snapshot, held: set<uint>, secs: seq<uint>, blocks: seq<Block>)
    requires Logging(l, a, b, held, secs, blocks, |secs|) && secs != []
    ensures l.start < |b.sectors| == |b.view| && l.start < U32 && l.start !in held && l.start !in b.pinned
    ensures b.used < NBUF
  {
    assert Unfold(0) && Unfold(1);
    assert InLog(l, l.start);
  }

  /** The commit point: the log blocks and the header that names them are on disk. Folded. */
  ghost predicate AtCommitPoint(l: Layout, a: Snapshot, c: Snapshot, held: set<uint>, secs: seq<uint>,
                                blocks: seq<Block>, named: Block)
  {
    && Starting(l, a, held, secs, blocks)
    && forall u: int {:trigger Unfold(u)} :: Unfold(u) && u == 2 ==>
      && secs != [] && l.decode(named) == secs && |blocks| == |secs| && l.start + |blocks| < |a.sectors| == |a.view|
      && c.sectors == LogFill(l, a.sectors, blocks, |blocks|)[l.start := named]
      && |c.view| == |a.view| && (forall s: nat :: s < l.start ==> c.view[s] == a.view[s])
      && (forall i :: 0 <= i < |secs| ==> c.view[l.start + 1 + i] == blocks[i])
      && c.writes == a.writes + LogWrites(l, blocks, |blocks|) + [Write(l.start, named)]
      && c.pinned == Named(secs) && c.used < NBUF
  }

  lemma ReachCommitPoint(l: Layout, a: Snapshot, b: Snapshot, held: set<uint>, secs: seq<uint>, blocks: seq<Block>,
                         named: Block)
    requires Logging(l, a, b, held, secs, blocks, |secs|) && secs != [] && l.decode(named) == secs
    requires l.start < |b.sectors| == |b.view|
    ensures AtCommitPoint(l, a, b.Put(l.start, named), held, secs, blocks, named)
  {
    assert Unfold(0) && Unfold(1);
    assert InLog(l, l.start);
    LogFillAt(l, a.view, blocks, |blocks|);
  }

  lemma LeaveCommitPoint(l: Layout, a: Snapshot, c: Snapshot, held: set<uint>, secs: seq<uint>, blocks: seq<Block>,
                         named: Block)
    requires AtCommitPoint(l, a, c, held, secs, blocks, named)
    ensures Installing(l, c, c, held, secs, blocks, 0)
  {
    assert Unfold(1) && Unfold(2);
    InstallStarts(l, c, held, secs, blocks);
  }

  /** The disk went through exactly the sector writes of the transaction `t`. */
  ghost predicate CommitTrace(l: Layout, a: Snapshot, e: Snapshot, t: Txn)
  {
    && t.Valid(l) && l.start + l.size <= |a.sectors|
    && e.sectors == CommitDisk(l, a.sectors, t, t.Length())
    && e.writes == a.writes + CommitWrites(l, t, t.Length())
  }

  /** All writes of `commit` happened, nothing is pinned any more, readers see the old home sectors.
      Folded. */
  ghost predicate CommitFinished(l: Layout, a: Snapshot, e: Snapshot, t: Txn)
  {
    forall u: int {:trigger Unfold(u)} :: Unfold(u) ==>
      && CommitTrace(l, a, e, t)
      && |e.view| == |a.view| && l.start <= |a.view| && (forall s: nat :: s < l.start ==> e.view[s] == a.view[s])
      && e.pinned == {}
  }

  /** All home blocks are written: the header can be erased. */
  lemma CanErase(l: Layout, a: Snapshot, c: Snapshot, d: Snapshot, held: set<uint>, secs: seq<uint>,
                 blocks: seq<Block>, named: Block)
    requires AtCommitPoint(l, a, c, held, secs, blocks, named) && Installing(l, c, d, held, secs, blocks, |secs|)
    ensures l.start < |d.sectors| == |d.view| && l.start < U32 && l.start !in held && d.pinned == {}
    ensures d.used < NBUF
  {
    assert Unfold(0) && Unfold(1) && Unfold(2);
    assert InLog(l, l.start) && secs[..|secs|] == secs;
  }

  /** Erasing the header finishes the commit. */
  lemma FinishCommit(l: Layout, a: Snapshot, c: Snapshot, d: Snapshot, held: set<uint>, secs: seq<uint>,
                     blocks: seq<Block>, named: Block, erased: Block)
    requires AtCommitPoint(l, a, c, held, secs, blocks, named) && Installing(l, c, d, held, secs, blocks, |secs|)
    requires l.decode(erased) == [] && l.start < |d.sectors| == |d.view| && d.pinned == {}
    ensures CommitFinished(l, a, d.Put(l.start, erased), Txn(secs, blocks, named, erased))
  {
    FinishDisk(l, a, c, d, held, secs, blocks, named, erased);
    FinishReaders(l, a, c, d, held, secs, blocks, named);
    FinishWrites(l, a, c, d, held, secs, blocks, named, erased);
  }

  lemma FinishDisk(l: Layout, a: Snapshot, c: Snapshot, d: Snapshot, held: set<uint>, secs: seq<uint>,
                   blocks: seq<Block>, named: Block, erased: Block)
    requires AtCommitPoint(l, a, c, held, secs, blocks, named) && Installing(l, c, d, held, secs, blocks, |secs|)
    requires l.decode(erased) == [] && l.start < |d.sectors|
    ensures var t := Txn(secs, blocks, named, erased);
      && t.Valid(l) && secs != [] && l.start + l.size <= |a.sectors|
      && d.sectors[l.start := erased] == CommitDisk(l, a.sectors, t, t.Length())
  {
    assert Unfold(0) && Unfold(1) && Unfold(2);
  }

  lemma FinishReaders(l: Layout, a: Snapshot, c: Snapshot, d: Snapshot, held: set<uint>, secs: seq<uint>,
                      blocks: seq<Block>, named: Block)
    requires AtCommitPoint(l, a, c, held, secs, blocks, named) && Installing(l, c, d, held, secs, blocks, |secs|)
    ensures l.start <= |d.view| == |a.view| && forall s: nat :: s < l.start ==> d.view[s] == a.view[s]
  {
    assert Unfold(0) && Unfold(1) && Unfold(2);
    FinishView(l, a.view, c.view, d.view, secs, blocks);
  }

  lemma FinishWrites(l: Layout, a: Snapshot, c: Snapshot, d: Snapshot, held: set<uint>, secs: seq<uint>,
                     blocks: seq<Block>, named: Block, erased: Block)
    requires AtCommitPoint(l, a, c, held, secs, blocks, named) && Installing(l, c, d, held, secs, blocks, |secs|)
    requires Txn(secs, blocks, named, erased).Valid(l) && secs != []
    ensures var t := Txn(secs, blocks, named, erased);
      d.writes + [Write(l.start, erased)] == a.writes + CommitWrites(l, t, t.Length())
  {
    var logs, installs := LogWrites(l, blocks, |secs|), InstallWrites(secs, blocks, |secs|);
    assert d.writes == a.writes + logs + [Write(l.start, named)] + installs by { assert Unfold(0) && Unfold(2); }
    WholeTrace(l, Txn(secs, blocks, named, erased), a.writes);
  }

  lemma WholeTrace(l: Layout, t: Txn, w: seq<Write>)
    requires t.Valid(l) && t.secs != []
    ensures w + LogWrites(l, t.blocks, |t.secs|) + [Write(l.start, t.named)] + InstallWrites(t.secs, t.blocks, |t.secs|)
              + [Write(l.start, t.erased)]
         == w + CommitWrites(l, t, t.Length())
  {
    var n, logs, installs := |t.secs|, LogWrites(l, t.blocks, |t.secs|), InstallWrites(t.secs, t.blocks, |t.secs|);
    LogTrace(l, t, n);
    InstallTrace(l, t, n);
    assert CommitWrites(l, t, 2 * n + 2) == CommitWrites(l, t, 2 * n + 1) + [Write(l.start, t.erased)];
  }

  lemma {:induction false} LogTrace(l: Layout, t: Txn, k: nat)
    requires t.Valid(l) && t.secs != [] && k <= |t.secs|
    ensures LogWrites(l, t.blocks, k) == CommitWrites(l, t, k)
  {
    if k > 0 {
      LogTrace(l, t, k - 1);
    }
  }

  /** The home writes follow the header write. */
  lemma {:induction false} InstallTrace(l: Layout, t: Txn, j: nat)
    requires t.Valid(l) && t.secs != [] && j <= |t.secs|
    ensures CommitWrites(l, t, |t.secs|) + [Write(l.start, t.named)] + InstallWrites(t.secs, t.blocks, j)
         == CommitWrites(l, t, |t.secs| + 1 + j)
  {
    if j > 0 {
      InstallTrace(l, t, j - 1);
    }
  }

  /** Installing writes back what readers saw. */
  lemma {:induction false} FinishView(l: Layout, va: seq<Block>, vc: seq<Block>, vd: seq<Block>, secs: seq<uint>,
                                      blocks: seq<Block>)
    requires Loggable(l, secs) && |blocks| == |secs| && l.start <= |va| == |vc|
    requires forall i :: 0 <= i < |secs| ==> blocks[i] == va[secs[i]]
    requires forall s: nat :: s < l.start ==> vc[s] == va[s]
    requires vd == Install(vc, secs, blocks, |secs|)
    ensures |vd| == |va| && forall s: nat :: s < l.start ==> vd[s] == va[s]
  {
    InstallAt(vc, secs, blocks, |secs|);
    forall s: nat | s < l.start
      ensures vd[s] == va[s]
    {
      if s in secs {
        var i :| 0 <= i < |secs| && secs[i] == s;
        assert vd[secs[i]] == blocks[i];
      }
    }
  }

  /** After the last header write the log is empty and valid again, and readers of the home sectors
      see no change. */
  lemma CommitOutcome(l: Layout, a: Snapshot, e: Snapshot, t: Txn)
    requires ValidDisk(l, a.sectors) && Committed(l, a.sectors) == [] && |a.view| == |a.sectors|
    requires CommitFinished(l, a, e, t)
    ensures ValidDisk(l, e.sectors) && Committed(l, e.sectors) == [] && e.pinned == {}
    ensures |e.view| == |e.sectors| == |a.sectors| && Home(l, e.view) == Home(l, a.view)
    ensures CommitTrace(l, a, e, t)
  {
    assert Unfold(0);
    CommitPrefix(l, a.sectors, t, t.Length());
  }

  /** The disk went through exactly the sector writes of `recover_from_log`. */
  ghost predicate RecoverTrace(l: Layout, a: Snapshot, e: Snapshot, erased: Block)
  {
    && ValidDisk(l, a.sectors) && l.decode(erased) == []
    && e.sectors == Recover(l, a.sectors, erased)
    && e.writes == a.writes + RecoverWrites(l, a.sectors, erased, |Committed(l, a.sectors)| + 1)
  }

  /** The machine stops after `k` of the sector writes that a commit issued: whatever is on the disk then, recovery
      makes of it the home sectors as they were or as readers saw them, all of them. */
  lemma CrashInCommit(l: Layout, a: Snapshot, e: Snapshot, t: Txn, k: nat)
    requires ValidDisk(l, a.sectors) && Committed(l, a.sectors) == [] && CommitTrace(l, a, e, t) && k <= t.Length()
    ensures |a.writes| + k <= |e.writes|
    ensures var image := Apply(a.sectors, e.writes[|a.writes|..|a.writes| + k]);
      && ValidDisk(l, image)
      && Recovered(l, image) == if k <= |t.secs| then Home(l, a.sectors) else Home(l, e.sectors)
  {
    var ws := CommitWrites(l, t, t.Length());
    Suffix(a.writes, ws, k);
    CommitImage(l, a.sectors, t, k, Apply(a.sectors, e.writes[|a.writes|..|a.writes| + k]), e.sectors);
  }

  lemma Suffix(a: seq<Write>, b: seq<Write>, k: nat)
    requires k <= |b|
    ensures (a + b)[|a|..|a| + k] == b[..k]
  {
  }

  /** The same for a crash in recovery: nothing is lost. */
  lemma CrashInRecovery(l: Layout, a: Snapshot, e: Snapshot, erased: Block, j: nat)
    requires RecoverTrace(l, a, e, erased) && j <= |Committed(l, a.sectors)| + 1
    ensures |a.writes| + j <= |e.writes|
    ensures var image := Apply(a.sectors, e.writes[|a.writes|..|a.writes| + j]);
      ValidDisk(l, image) && Recovered(l, image) == Recovered(l, a.sectors)
  {
    var ws := RecoverWrites(l, a.sectors, erased, |Committed(l, a.sectors)| + 1);
    Suffix(a.writes, ws, j);
    RecoveryImage(l, a.sectors, erased, j, Apply(a.sectors, ws[..j]));
  }

  /** initlog on a machine that has just started with `image` on its disk: the log it returns is at rest, and the home
      sectors, on disk and for readers, are those that recovery owes. */
  method Reboot(image: Disk, start: nat, size: nat) returns (log: Log, ghost erased: Block)
    requires ValidDisk(Layout(start, size, HeaderOf), image)
    ensures log.AtRest() && fresh(log) && fresh(log.bc) && fresh(log.bc.disk)
    ensures log.start == start && log.size == size && log.decode == HeaderOf
    ensures var l := Layout(start, size, HeaderOf);
      Home(l, log.bc.disk.sectors) == Home(l, log.bc.view) == Recovered(l, image)
    ensures RecoverTrace(Layout(start, size, HeaderOf), Startup(image), log.Snap(), erased)
  {
    var disk := new MemDisk(image);
    var bc := new Bcache(disk);
    log := new Log(bc, start, size);
    ghost var l := Layout(start, size, HeaderOf);
    erased := log.RecoverFromLog();
    log.bc.CleanCache();
  }

  /** A machine that has just started. */
  function Startup(image: Disk): (s: Snapshot)
  {
    Snapshot(image, image, [], {}, 0)
  }

  /** A crash in the commit that took the disk from `a` to `e`, and a restart on what was on the disk: the new log
      starts with all of the old home sectors or all of the new ones, as the header write decides. */
  method RebootAfterCrash(image: Disk, start: nat, size: nat, ghost a: Snapshot, ghost e: Snapshot, ghost t: Txn,
                          ghost k: nat)
    returns (log: Log)
    requires ValidDisk(Layout(start, size, HeaderOf), a.sectors)
    requires Committed(Layout(start, size, HeaderOf), a.sectors) == []
    requires CommitTrace(Layout(start, size, HeaderOf), a, e, t) && k <= t.Length() && |a.writes| + k <= |e.writes|
    requires image == Apply(a.sectors, e.writes[|a.writes|..|a.writes| + k])
    ensures log.AtRest() && fresh(log) && fresh(log.bc) && fresh(log.bc.disk)
    ensures log.start == start && log.size == size && log.decode == HeaderOf
    ensures var l := Layout(start, size, HeaderOf);
      Home(l, log.bc.view) == if k <= |t.secs| then Home(l, a.sectors) else Home(l, e.sectors)
  {
    CrashInCommit(Layout(start, size, HeaderOf), a, e, t, k);
    ghost var erased;
    log, erased := Reboot(image, start, size);
  }

  /** Everything is installed; the header can be erased. */
  lemma RecoveryCanErase(l: Layout, a: Snapshot, d: Snapshot)
    requires ValidDisk(l, a.sectors) && a.view == a.sectors && a.pinned == {} && a.used == 0
    requires Installing(l, a, d, {}, Committed(l, a.sectors), LogBlocks(l, a.sectors), |Committed(l, a.sectors)|)
    ensures l.start < |d.sectors| == |d.view| && l.start < U32 && d.pinned == {} && d.used < NBUF
  {
    assert Unfold(0) && Unfold(1);
  }

  /** Erasing the header completes recovery. */
  lemma RecoveryEnds(l: Layout, a: Snapshot, d: Snapshot, erased: Block)
    requires ValidDisk(l, a.sectors) && a.view == a.sectors && a.pinned == {} && l.decode(erased) == []
    requires Installing(l, a, d, {}, Committed(l, a.sectors), LogBlocks(l, a.sectors), |Committed(l, a.sectors)|)
    requires l.start < |d.sectors| == |d.view| && d.pinned == {}
    ensures var e := d.Put(l.start, erased);
      && RecoverTrace(l, a, e, erased) && |e.view| == |e.sectors| && e.pinned == {}
      && ValidDisk(l, e.sectors) && Committed(l, e.sectors) == []
  {
    assert Unfold(0);
    var secs, blocks := Committed(l, a.sectors), LogBlocks(l, a.sectors);
    RecoverTraceIs(l, a.sectors, erased, |secs|);
  }

  lemma {:induction false} RecoverTraceIs(l: Layout, d: Disk, erased: Block, j: nat)
    requires ValidDisk(l, d) && j <= |Committed(l, d)|
    ensures InstallWrites(Committed(l, d), LogBlocks(l, d), j) == RecoverWrites(l, d, erased, j)
  {
    if j > 0 {
      RecoverTraceIs(l, d, erased, j - 1);
    }
  }

  lemma LoggedMore(l: Layout, secs: seq<uint>, s: uint)
    requires Loggable(l, secs) && s < l.start && |secs| < LOGSIZE && |secs| < l.size - 1
    ensures s in secs ==> Named(secs) + {s} == Named(secs)
    ensures s !in secs ==> Loggable(l, secs + [s]) && Named(secs + [s]) == Named(secs) + {s}
  {
    var more := secs + [s];
    assert forall i :: 0 <= i < |secs| ==> more[i] == secs[i];
    assert more[|secs|] == s;
  }

  /** The number of buffers a transaction pins. A log region of LOGSIZE blocks, as mkfs makes it,
      cannot pin all NBUF of them. */
  lemma PinnedCount(l: Layout, secs: seq<uint>)
    requires Loggable(l, secs)
    ensures |Named(secs)| == |secs| <= NBUF
    ensures l.size <= LOGSIZE ==> |Named(secs)| < NBUF
  {
    NamedCount(secs, |secs|);
    assert secs[..|secs|] == secs;
  }

  lemma {:induction false} NamedCount(secs: seq<uint>, k: nat)
    requires Distinct(secs) && k <= |secs|
    ensures |Named(secs[..k])| == k
  {
    if k == 0 {
      assert Named(secs[..0]) == {};
    } else {
      NamedCount(secs, k - 1);
      NamedNext(secs, k - 1);
    }
  }

  /** The header block is read the way `read_head` does. Folded. */
  ghost predicate Decodes(decode: Block -> seq<uint>)
  {
    forall u: int {:trigger Unfold(u)} :: Unfold(u) ==> forall b: Block :: decode(b) == HeaderOf(b)
  }

  lemma DecodesEncoded(decode: Block -> seq<uint>, b: Block, secs: seq<uint>)
    requires Decodes(decode) && |secs| < WORDS
    ensures decode(EncodeHeader(b, secs)) == secs
  {
    assert Unfold(0);
    HeaderRoundTrip(b, secs);
  }

  /** How an update of a block ends: recorded, asleep on a held buffer, or in a panic. */
  datatype Updated = Recorded | Waits | Refused

  class Log {
    const bc: Bcache
    const start: nat
    const size: nat
    ghost const decode: Block -> seq<uint>   // how the header block is read; see Decodes
    var outstanding: int
    var committing: bool
    var n: nat
    var sector: seq<uint>
    ghost var promised: nat   // the sectors that open operations were promised and have not used

    /** `initlog` before recovery, with the superblock's `size - nlog` and `nlog`. */
    constructor (c: Bcache, start: nat, size: nat)
      ensures bc == c && this.start == start && this.size == size && Decodes(decode) && decode == HeaderOf
      ensures outstanding == 0 && !committing && n == 0 && |sector| == LOGSIZE && promised == 0
    {
      bc, this.start, this.size := c, start, size;
      decode := HeaderOf;
      outstanding, committing, n, sector, promised := 0, false, 0, seq(LOGSIZE, i => 0), 0;
    }

    ghost function L(): Layout { Layout(start, size, decode) }

    function Logged(): (secs: seq<uint>)
      reads this
      requires n <= |sector|
    {
      sector[..n]
    }

    ghost function Snap(): (s: Snapshot)
      reads bc, bc.disk
    {
      Snapshot(bc.disk.sectors, bc.view, bc.disk.writes, bc.pinned, bc.used)
    }

    /** One iteration of `write_log` (`toLog`) or of `install_trans`: read the log block and the home
        block, copy one over the other, write it through, release both. `false` is a panic. */
    method CopyBlock(log: uint, home: uint, toLog: bool) returns (ok: bool)
      requires bc.Valid() && log != home && log < |bc.disk.sectors| && home < |bc.disk.sectors|
      requires log !in bc.held && home !in bc.held
      modifies bc, bc.disk
      ensures ok <==>
        && (log in old(bc.pinned) || old(bc.used) < NBUF)
        && (home in old(bc.pinned) || old(bc.used) + (if log in old(bc.pinned) then 0 else 1) < NBUF)
      ensures !ok ==> bc.disk.sectors == old(bc.disk.sectors) && bc.disk.writes == old(bc.disk.writes)
      ensures ok ==> bc.Valid() && |old(bc.view)| == |old(bc.disk.sectors)|
      ensures ok ==>
        var src, dst := if toLog then home else log, if toLog then log else home;
        var data := old(bc.view)[src];
        && bc.disk.sectors == old(bc.disk.sectors)[dst := data]
        && bc.disk.writes == old(bc.disk.writes) + [Write(dst, data)]
        && bc.view == old(bc.view)[dst := data]
        && bc.pinned == old(bc.pinned) - {dst}
        && bc.held == old(bc.held)
        && bc.used == old(bc.used) - if dst in old(bc.pinned) then 1 else 0
    {
      var x, y;
      ok, x, y := ReadPair(log, home);
      if ok {
        CopyHeld(if toLog then y else x, if toLog then x else y);
      }
    }

    /** `bread` of a log block and then of its home block. */
    method ReadPair(log: uint, home: uint) returns (ok: bool, x: nat, y: nat)
      requires bc.Valid() && log != home && log < |bc.disk.sectors| && home < |bc.disk.sectors|
      requires log !in bc.held && home !in bc.held
      modifies bc, bc.disk
      ensures ok <==>
        && (log in old(bc.pinned) || old(bc.used) < NBUF)
        && (home in old(bc.pinned) || old(bc.used) + (if log in old(bc.pinned) then 0 else 1) < NBUF)
      ensures bc.disk.sectors == old(bc.disk.sectors) && bc.disk.writes == old(bc.disk.writes)
      ensures ok ==> bc.Valid() && bc.view == old(bc.view) && bc.pinned == old(bc.pinned)
      ensures ok ==> bc.held == old(bc.held) + {log} + {home}
      ensures ok ==>
        bc.used == old(bc.used) + (if log in bc.pinned then 0 else 1) + (if home in bc.pinned then 0 else 1)
      ensures ok ==> x < |bc.bufs| && y < |bc.bufs| && x != y && log < |bc.view| && home < |bc.view|
      ensures ok ==> bc.bufs[x] == Buf(DISKDEV, log, true, true, log in bc.pinned, bc.view[log])
      ensures ok ==> bc.bufs[y] == Buf(DISKDEV, home, true, true, home in bc.pinned, bc.view[home])
      ensures ok && log !in bc.pinned ==> bc.view[log] == bc.disk.sectors[log]
      ensures ok && home !in bc.pinned ==> bc.view[home] == bc.disk.sectors[home]
    {
      if log !in bc.pinned { bc.CleanView(log); }
      if home !in bc.pinned { bc.CleanView(home); }
      x, y := 0, 0;
      var r := bc.Bread(DISKDEV, log, true);
      if r.Panic? {
        return false, x, y;
      }
      x := r.b;
      r := bc.Bread(DISKDEV, home, true);
      if r.Panic? {
        return false, x, y;
      }
      y := r.b;
      ok := true;
    }

    /** `memmove`, `bwrite`, and the two releases; none of them can panic. */
    method CopyHeld(from: nat, to: nat)
      requires bc.Valid() && from < |bc.bufs| && to < |bc.bufs| && bc.bufs[from].sector != bc.bufs[to].sector
      requires bc.bufs[from].busy && bc.bufs[from].valid && bc.bufs[to].busy && bc.bufs[to].valid
      requires bc.bufs[from].sector < |bc.disk.sectors| && bc.bufs[to].sector < |bc.disk.sectors|
      requires bc.bufs[from].dirty || bc.bufs[from].data == bc.disk.sectors[bc.bufs[from].sector]
      modifies bc, bc.disk
      ensures bc.Valid() && |old(bc.view)| == |old(bc.disk.sectors)|
      ensures var data, src, dst := old(bc.bufs)[from].data, old(bc.bufs)[from].sector, old(bc.bufs)[to].sector;
        && bc.disk.sectors == old(bc.disk.sectors)[dst := data]
        && bc.disk.writes == old(bc.disk.writes) + [Write(dst, data)]
        && bc.view == old(bc.view)[dst := data]
        && bc.pinned == old(bc.pinned) - {dst}
        && bc.held == old(bc.held) - {src} - {dst}
        && bc.used == old(bc.used) - 1 - if old(bc.bufs)[from].dirty then 0 else 1
    {
      bc.SetData(to, bc.bufs[from].data);
      var ok := bc.Bwrite(to);
      ok := bc.Brelse(from);
      ok := bc.Brelse(to);
    }

    /** One iteration of `write_log`. */
    method LogOne(log: uint, home: uint) returns (ok: bool)
      requires bc.Valid() && home < start < log < |bc.disk.sectors| == |bc.view|
      requires log !in bc.held && home !in bc.held && log !in bc.pinned && home in bc.pinned
      modifies bc, bc.disk
      ensures ok <==> old(bc.used) < NBUF
      ensures !ok ==> bc.disk.sectors == old(bc.disk.sectors) && bc.disk.writes == old(bc.disk.writes)
      ensures ok ==> bc.Valid() && Snap() == old(Snap()).Copy(home, log)
      ensures ok ==> bc.pinned == old(bc.pinned) && bc.held == old(bc.held)
    {
      ok := CopyBlock(log, home, true);
    }

    /** Copy the logged blocks from the cache into the log region. Only the first iteration can panic
        (`false`): it leaves its log buffer behind for the others. */
    method WriteLog(ghost blocks: seq<Block>) returns (ok: bool)
      requires bc.Valid() && n <= |sector| && Logging(L(), Snap(), Snap(), bc.held, Logged(), blocks, 0)
      modifies bc, bc.disk
      ensures ok <==> n == 0 || old(bc.used) < NBUF
      ensures !ok ==> bc.disk.sectors == old(bc.disk.sectors) && bc.disk.writes == old(bc.disk.writes)
      ensures ok ==> bc.Valid() && bc.held == old(bc.held)
      ensures ok ==> Logging(L(), old(Snap()), Snap(), bc.held, Logged(), blocks, n)
    {
      if n == 0 {
        return true;
      }
      ghost var l, a, secs, held := L(), Snap(), Logged(), bc.held;
      LoggingNext(l, a, a, held, secs, blocks, 0);
      ok := LogOne(start + 1, sector[0]);
      if ok {
        LoggingStep(l, a, a, held, secs, blocks, 0);
        assert Snap() == a.Copy(secs[0], l.start + 1);
        LogRest(a, blocks);
      }
    }

    /** One iteration of `write_log` while a buffer is left. */
    method LogAnother(log: uint, home: uint)
      requires bc.Valid() && home < start < log < |bc.disk.sectors| == |bc.view|
      requires log !in bc.held && home !in bc.held && log !in bc.pinned && home in bc.pinned
      requires bc.used < NBUF
      modifies bc, bc.disk
      ensures bc.Valid() && Snap() == old(Snap()).Copy(home, log) && bc.held == old(bc.held)
    {
      var ok := LogOne(log, home);
    }

    /** The iterations of `write_log` after the first. */
    method LogRest(ghost a: Snapshot, ghost blocks: seq<Block>)
      requires bc.Valid() && 1 <= n <= |sector| && Logging(L(), a, Snap(), bc.held, Logged(), blocks, 1)
      modifies bc, bc.disk
      ensures bc.Valid() && bc.held == old(bc.held)
      ensures Logging(L(), a, Snap(), bc.held, Logged(), blocks, n)
    {
      ghost var l, secs, held := L(), Logged(), bc.held;
      var tail := 1;
      while tail < n
        invariant 1 <= tail <= n
        invariant bc.Valid() && bc.held == held
        invariant Logging(l, a, Snap(), held, secs, blocks, tail)
      {
        ghost var b := Snap();
        LoggingNext(l, a, b, held, secs, blocks, tail);
        LogAnother(start + tail + 1, sector[tail]);
        LoggingStep(l, a, b, held, secs, blocks, tail);
        assert Snap() == b.Copy(secs[tail], l.start + 1 + tail);
        tail := tail + 1;
      }
    }

    /** One iteration of `install_trans`. */
    method InstallOne(log: uint, home: uint)
      requires bc.Valid() && home < start < log < |bc.disk.sectors| == |bc.view|
      requires log !in bc.held && home !in bc.held && log !in bc.pinned
      requires bc.used < NBUF && (home in bc.pinned || bc.used + 1 < NBUF)
      modifies bc, bc.disk
      ensures bc.Valid() && Snap() == old(Snap()).Copy(log, home) && bc.held == old(bc.held)
    {
      var ok := CopyBlock(log, home, false);
    }

    /** Copy the blocks in the log to their home sectors, which unpins them. */
    method InstallTrans(ghost blocks: seq<Block>)
      requires bc.Valid() && n <= |sector| && Installing(L(), Snap(), Snap(), bc.held, Logged(), blocks, 0)
      modifies bc, bc.disk
      ensures bc.Valid() && bc.held == old(bc.held)
      ensures Installing(L(), old(Snap()), Snap(), bc.held, Logged(), blocks, n)
    {
      ghost var l, a, secs, held := L(), Snap(), Logged(), bc.held;
      var tail := 0;
      while tail < n
        invariant 0 <= tail <= n
        invariant bc.Valid() && bc.held == held
        invariant Installing(l, a, Snap(), held, secs, blocks, tail)
      {
        ghost var b := Snap();
        InstallingNext(l, a, b, held, secs, blocks, tail);
        InstallingStep(l, a, b, held, secs, blocks, tail);
        InstallOne(start + tail + 1, sector[tail]);
        assert Snap() == b.Copy(l.start + 1 + tail, secs[tail]);
        tail := tail + 1;
      }
    }

    /** Write the in-memory header to the header block. `false` is a panic. */
    method WriteHead() returns (ok: bool, ghost head: Block)
      requires bc.Valid() && n <= |sector| && n < WORDS && start < |bc.disk.sectors| == |bc.view| && start < U32
      requires start !in bc.held && start !in bc.pinned && Decodes(decode)
      modifies bc, bc.disk
      ensures ok <==> old(bc.used) < NBUF
      ensures !ok ==> bc.disk.sectors == old(bc.disk.sectors) && bc.disk.writes == old(bc.disk.writes)
      ensures ok ==> bc.Valid() && bc.held == old(bc.held)
      ensures ok ==> decode(head) == Logged() && Snap() == old(Snap()).Put(start, head)
    {
      head := ZeroBlock();
      var r := bc.Bread(DISKDEV, start, true);
      if r.Panic? {
        return false, head;
      }
      var hb := EncodeLoop(bc.bufs[r.b].data);
      WriteHeld(r.b, hb);
      ok, head := true, hb;
    }

    /** Change a held buffer, write it through and release it; none of this can panic. */
    method WriteHeld(b: nat, data: Block)
      requires bc.Valid() && b < |bc.bufs| && bc.bufs[b].busy && bc.bufs[b].valid
      requires bc.bufs[b].sector < |bc.disk.sectors| == |bc.view| && bc.bufs[b].sector !in bc.pinned
      modifies bc, bc.disk
      ensures bc.Valid() && bc.held == old(bc.held) - {old(bc.bufs)[b].sector}
      ensures old(bc.used) > 0 && Snap() == old(Snap()).Put(old(bc.bufs)[b].sector, data).(used := old(bc.used) - 1)
    {
      bc.SetData(b, data);
      var ok := bc.Bwrite(b);
      ok := bc.Brelse(b);
    }

    /** `hb->n = log.lh.n` and the loop over `hb->sector`. */
    method EncodeLoop(data: Block) returns (hb: Block)
      requires n <= |sector| && n < WORDS && Decodes(decode)
      ensures decode(hb) == Logged()
      ensures forall j: nat :: n < j < WORDS ==> Word(hb, j) == Word(data, j)
    {
      DecodesEncoded(decode, data, Logged());
      hb := PutWord(data, 0, n);
      var i := 0;
      while i < n
        invariant 0 <= i <= n
        invariant hb == PutSectors(PutWord(data, 0, n), sector[..i])
      {
        hb := PutWord(hb, i + 1, sector[i]);
        assert sector[..i + 1][..i] == sector[..i];
        i := i + 1;
      }
    }

    // -------------------------------------------------------------------------
    // Transactions

    /** The log between commits: the sectors it names are exactly the pinned ones, and the header on
        disk is empty; what open operations were promised fits. */
    ghost predicate Valid()
      reads this, bc, bc.disk
    {
      && bc.Valid() && |bc.view| == |bc.disk.sectors|
      && |sector| == LOGSIZE && n <= LOGSIZE
      && Loggable(L(), Logged()) && bc.pinned == Named(Logged())
      && ValidDisk(L(), bc.disk.sectors) && Committed(L(), bc.disk.sectors) == []
      && Decodes(decode)
      && 0 <= outstanding && n + promised <= LOGSIZE && promised <= outstanding * MAXOPBLOCKS
    }

    /** No operation is open, none commits, nothing is logged and no buffer is held. */
    ghost predicate AtRest()
      reads this, bc, bc.disk
    {
      Valid() && outstanding == 0 && !committing && n == 0 && bc.held == {}
    }

    /** Nobody holds a buffer that a commit needs. */
    ghost predicate Undisturbed()
      reads this, bc
      requires n <= |sector|
    {
      forall s :: s in bc.held ==> s !in Logged() && !InLog(L(), s)
    }

    /** Write the transaction to the log, then home. `false` is a panic, and happens only when every
        buffer is pinned or held. */
    method Commit() returns (ok: bool)
      requires Valid() && Undisturbed()
      modifies `n, bc, bc.disk
      ensures ok <==> old(n) == 0 || old(bc.used) < NBUF
      ensures !ok || old(n) == 0 ==> bc.disk.sectors == old(bc.disk.sectors) && bc.disk.writes == old(bc.disk.writes)
      ensures ok ==> Valid() && n == 0 && bc.held == old(bc.held)
      ensures ok && old(n) > 0 ==> Traced(old(Snap()), old(Logged()))
      ensures ok ==> Home(L(), bc.view) == old(Home(L(), bc.view))
    {
      if n > 0 {
        ok := CommitLogged();
      } else {
        ok := true;
      }
    }

    /** Since `a`, the disk went through the sector writes of one commit of `secs`, with the blocks
        readers saw at `a`. */
    ghost predicate Traced(a: Snapshot, secs: seq<uint>)
      reads this, bc, bc.disk
    {
      && (forall i :: 0 <= i < |secs| ==> secs[i] < |a.view|)
      && exists t: Txn :: CommitTrace(L(), a, Snap(), t) && t.secs == secs && t.blocks == Blocks(a.view, secs)
    }

    /** `commit` of a transaction that is not empty. */
    method CommitLogged() returns (ok: bool)
      requires Valid() && Undisturbed() && n > 0
      modifies `n, bc, bc.disk
      ensures ok <==> old(bc.used) < NBUF
      ensures !ok ==> bc.disk.sectors == old(bc.disk.sectors) && bc.disk.writes == old(bc.disk.writes)
      ensures ok ==> Valid() && n == 0 && bc.held == old(bc.held)
      ensures ok ==> Traced(old(Snap()), old(Logged()))
      ensures ok ==> Home(L(), bc.view) == old(Home(L(), bc.view))
    {
      ghost var l, a, secs, held := L(), Snap(), Logged(), bc.held;
      ghost var blocks := Blocks(a.view, secs);
      ghost var named;
      ok, named := LogAndHeader(blocks);
      if ok {
        ghost var t := InstallAndErase(a, blocks, named);
        CommitOutcome(l, a, Snap(), t);
        assert Logged() == [];
      }
    }

    /** `write_log(); write_head()`: up to the commit point. */
    method LogAndHeader(ghost blocks: seq<Block>) returns (ok: bool, ghost named: Block)
      requires bc.Valid() && Decodes(decode) && 0 < n <= |sector| && n < WORDS
      requires Logging(L(), Snap(), Snap(), bc.held, Logged(), blocks, 0)
      modifies bc, bc.disk
      ensures ok <==> old(bc.used) < NBUF
      ensures !ok ==> bc.disk.sectors == old(bc.disk.sectors) && bc.disk.writes == old(bc.disk.writes)
      ensures ok ==> bc.Valid() && bc.held == old(bc.held)
      ensures ok ==> AtCommitPoint(L(), old(Snap()), Snap(), bc.held, Logged(), blocks, named)
    {
      ghost var l, a, secs, held := L(), Snap(), Logged(), bc.held;
      named := ZeroBlock();
      ok := WriteLog(blocks);
      if ok {
        ghost var b := Snap();
        LogWritten(l, a, b, held, secs, blocks);
        ok, named := WriteHead();
        ReachCommitPoint(l, a, b, held, secs, blocks, named);
      }
    }

    /** `install_trans(); log.lh.n = 0; write_head()`: from the commit point on. */
    method InstallAndErase(ghost a: Snapshot, ghost blocks: seq<Block>, ghost named: Block) returns (ghost t: Txn)
      requires bc.Valid() && Decodes(decode) && 0 < n <= |sector| && n < WORDS
      requires AtCommitPoint(L(), a, Snap(), bc.held, Logged(), blocks, named)
      modifies `n, bc, bc.disk
      ensures bc.Valid() && bc.held == old(bc.held) && n == 0
      ensures t.secs == old(Logged()) && t.blocks == blocks && CommitFinished(L(), a, Snap(), t)
    {
      ghost var l, c, secs, held := L(), Snap(), Logged(), bc.held;
      LeaveCommitPoint(l, a, c, held, secs, blocks, named);
      InstallTrans(blocks);
      ghost var d := Snap();
      CanErase(l, a, c, d, held, secs, blocks, named);
      n := 0;
      assert Logged() == [];
      var ok;
      ghost var erased;
      ok, erased := WriteHead();
      FinishCommit(l, a, c, d, held, secs, blocks, named, erased);
      t := Txn(secs, blocks, named, erased);
    }

    // -------------------------------------------------------------------------
    // Recovery

    /** Load the header from disk; the log region is at rest. */
    method ReadHead()
      requires bc.Valid() && bc.pinned == {} && bc.held == {} && bc.used == 0 && |sector| == LOGSIZE
      requires ValidDisk(L(), bc.disk.sectors) && Decodes(decode)
      modifies `n, `sector, bc, bc.disk
      ensures bc.Valid() && bc.pinned == {} && bc.held == {} && bc.used == 0
      ensures bc.disk.sectors == old(bc.disk.sectors) && bc.disk.writes == old(bc.disk.writes)
      ensures bc.view == old(bc.view)
      ensures |sector| == LOGSIZE && n <= LOGSIZE && Logged() == Committed(L(), bc.disk.sectors)
    {
      bc.CleanView(start);
      var r := bc.Bread(DISKDEV, start, true);
      var head := bc.bufs[r.b].data;
      assert decode(head) == HeaderOf(head) by { assert Unfold(0); }
      DecodeLoop(head);
      var ok := bc.Brelse(r.b);
    }

    /** `log.lh.n = lh->n` and the loop over `lh->sector`. */
    method DecodeLoop(head: Block)
      requires |sector| == LOGSIZE && Word(head, 0) <= LOGSIZE
      modifies `n, `sector
      ensures |sector| == LOGSIZE && n == Word(head, 0) && Logged() == HeaderOf(head)
    {
      n := Word(head, 0);
      var i := 0;
      while i < n
        invariant 0 <= i <= n && |sector| == LOGSIZE && n == Word(head, 0)
        invariant forall j :: 0 <= j < i ==> sector[j] == Word(head, j + 1)
      {
        sector := sector[i := Word(head, i + 1)];
        i := i + 1;
      }
    }

    /** Boot: install whatever transaction the header names, then erase it. */
    method RecoverFromLog() returns (ghost erased: Block)
      requires bc.Valid() && bc.pinned == {} && bc.held == {} && |sector| == LOGSIZE && outstanding == 0
      requires promised == 0
      requires ValidDisk(L(), bc.disk.sectors) && Decodes(decode)
      modifies `n, `sector, bc, bc.disk
      ensures Valid() && n == 0 && bc.held == {}
      ensures RecoverTrace(L(), old(Snap()), Snap(), erased)
    {
      bc.CleanCache();
      ghost var l, a := L(), Snap();
      ReadHead();
      InstallTrans(LogBlocks(l, a.sectors));
      ghost var d := Snap();
      RecoveryCanErase(l, a, d);
      n := 0;
      assert Logged() == [];
      var ok;
      ok, erased := WriteHead();
      RecoveryEnds(l, a, d, erased);
    }

    // -------------------------------------------------------------------------
    // Operations

    /** Record a held buffer's sector in the log header and pin the buffer. `false` is a panic. */
    method LogWrite(b: nat) returns (ok: bool)
      requires Valid() && b < |bc.bufs| && bc.bufs[b].busy && bc.bufs[b].valid && bc.bufs[b].sector < start
      modifies `n, `sector, `promised, bc
      // An operation that was promised a sector is refused only for want of log blocks.
      ensures old(promised) > 0 && size > LOGSIZE ==> ok
      ensures ok <==> old(n) < LOGSIZE && old(n) < size - 1 && outstanding >= 1
      ensures !ok ==> n == old(n) && sector == old(sector) && bc.pinned == old(bc.pinned)
      ensures ok ==> Valid()
      ensures ok ==> var s := old(bc.bufs)[b].sector;
        Logged() == if s in old(Logged()) then old(Logged()) else old(Logged()) + [s]
      ensures promised == if ok && n > old(n) && old(promised) > 0 then old(promised) - 1 else old(promised)
      ensures bc.bufs == if ok then old(bc.bufs)[b := old(bc.bufs)[b].(dirty := true)] else old(bc.bufs)
      ensures bc.view == old(bc.view) && bc.held == old(bc.held)
    {
      if n >= LOGSIZE || n >= size - 1 {
        return false;
      }
      if outstanding < 1 {
        return false;
      }
      var s := bc.bufs[b].sector;
      ghost var secs := Logged();
      var i := FindLogged(s);
      sector := sector[i := s];
      if i == n {
        n := n + 1;
        promised := if promised > 0 then promised - 1 else 0;
      }
      assert Logged() == if s in secs then secs else secs + [s];
      LoggedMore(L(), secs, s);
      bc.SetDirty(b);
      ok := true;
    }

    /** The scan of `log_write`: the position of the sector, or `n`. */
    method FindLogged(s: uint) returns (i: nat)
      requires n <= |sector|
      ensures i <= n && (i < n ==> sector[i] == s) && (i == n ==> s !in Logged())
    {
      i := 0;
      while i < n
        invariant 0 <= i <= n
        invariant forall j :: 0 <= j < i ==> sector[j] != s
      {
        if sector[i] == s {
          return;
        }
        i := i + 1;
      }
    }

    /** With nothing held, the buffers in use are the logged blocks; a log region of LOGSIZE blocks
        leaves one for the commit. */
    lemma CommitHasBuffer()
      requires Valid() && bc.held == {}
      ensures bc.used == n
      ensures size <= LOGSIZE ==> bc.used < NBUF
    {
      bc.UsedIsSectors();
      PinnedCount(L(), Logged());
      assert bc.pinned + bc.held == Named(Logged());
    }

    /** One pass of `begin_op` under the log lock; `false` means it sleeps. An admitted operation is promised
        MAXOPBLOCKS sectors, on top of what the others were promised; `Valid` says that the promises fit, and
        `LogWrite` keeps them. */
    method BeginOp() returns (admitted: bool)
      requires Valid()
      modifies `outstanding, `promised
      ensures Valid()
      ensures promised == old(promised) + if admitted then MAXOPBLOCKS else 0
      ensures admitted <==> !committing && n + (old(outstanding) + 1) * MAXOPBLOCKS <= LOGSIZE
      ensures outstanding == old(outstanding) + if admitted then 1 else 0
    {
      if committing {
        return false;
      }
      if n + (outstanding + 1) * MAXOPBLOCKS > LOGSIZE {
        return false;
      }
      outstanding, promised := outstanding + 1, promised + MAXOPBLOCKS;
      admitted := true;
    }

    /** Close an operation; the last one commits. `false` is a panic. */
    method EndOp() returns (ok: bool)
      requires Valid() && outstanding >= 1 && Undisturbed()
      modifies this, bc, bc.disk
      ensures ok <==> !old(committing) && (old(outstanding) > 1 || old(n) == 0 || old(bc.used) < NBUF)
      ensures outstanding == old(outstanding) - 1
      ensures promised ==
        if old(promised) <= outstanding * MAXOPBLOCKS then old(promised) else outstanding * MAXOPBLOCKS
      ensures ok ==> Valid() && !committing && bc.held == old(bc.held)
      // Readers see no change, and nothing reaches the disk while other operations are open, or without updates.
      ensures ok ==> Home(L(), bc.view) == old(Home(L(), bc.view))
      ensures old(outstanding) > 1 || old(n) == 0 ==>
        bc.disk.sectors == old(bc.disk.sectors) && bc.disk.writes == old(bc.disk.writes)
      ensures old(outstanding) > 1 ==> n == old(n) && sector == old(sector)
      // After the last operation, what readers see is on disk.
      ensures ok && old(outstanding) == 1 ==> n == 0
      ensures ok && old(outstanding) == 1 ==>
        forall s: nat :: s < start && s !in bc.held ==> bc.disk.sectors[s] == old(bc.view)[s]
      ensures ok && old(outstanding) == 1 && old(n) > 0 ==> Traced(old(Snap()), old(Logged()))
    {
      outstanding := outstanding - 1;
      promised := if promised <= outstanding * MAXOPBLOCKS then promised else outstanding * MAXOPBLOCKS;
      if committing {
        return false;
      }
      if outstanding > 0 {
        return true;
      }
      ok := CommitLast();
    }

    /** The part of `end_op` that the last operation goes through. */
    method CommitLast() returns (ok: bool)
      requires Valid() && Undisturbed() && !committing
      modifies `n, `committing, bc, bc.disk
      ensures ok <==> old(n) == 0 || old(bc.used) < NBUF
      ensures old(n) == 0 ==> bc.disk.sectors == old(bc.disk.sectors) && bc.disk.writes == old(bc.disk.writes)
      ensures ok ==> Valid() && !committing && bc.held == old(bc.held) && n == 0
      ensures ok ==> Home(L(), bc.view) == old(Home(L(), bc.view))
      ensures ok ==> forall s: nat :: s < start && s !in bc.held ==> bc.disk.sectors[s] == old(bc.view)[s]
      ensures ok && old(n) > 0 ==> Traced(old(Snap()), old(Logged()))
    {
      committing := true;
      ok := Commit();
      if ok {
        committing := false;
        Durable(old(bc.view));
      }
    }

    /** With an empty log, what readers see is on disk. */
    lemma Durable(view: seq<Block>)
      requires Valid() && n == 0 && start <= |view| && Home(L(), bc.view) == Home(L(), view)
      ensures forall s: nat :: s < start && s !in bc.held ==> bc.disk.sectors[s] == view[s]
    {
      forall s: nat | s < start && s !in bc.held
        ensures bc.disk.sectors[s] == view[s]
      {
        bc.CleanView(s);
        assert Home(L(), bc.view)[s] == Home(L(), view)[s];
      }
    }

    /** The typical use of the log: read a block, change it, `log_write` it, release it. Readers see
        the new contents at once; the disk does not change. */
    method UpdateBlock(s: uint, data: Block) returns (r: Updated)
      requires Valid() && s < start
      modifies `n, `sector, `promised, bc, bc.disk
      ensures bc.disk.sectors == old(bc.disk.sectors) && bc.disk.writes == old(bc.disk.writes)
      ensures r.Waits? <==> s in old(bc.held)
      ensures r.Recorded? <==>
        && s !in old(bc.held) && (s in old(bc.pinned) || old(bc.used) < NBUF)
        && old(n) < LOGSIZE && old(n) < size - 1 && outstanding >= 1
      ensures !r.Refused? ==> Valid() && bc.held == old(bc.held)
      ensures r.Waits? ==> bc.view == old(bc.view) && bc.bufs == old(bc.bufs) && Logged() == old(Logged())
      ensures r.Recorded? ==> bc.view == old(bc.view)[s := data]
      ensures r.Recorded? ==> Logged() == if s in old(Logged()) then old(Logged()) else old(Logged()) + [s]
    {
      var b := bc.Bread(DISKDEV, s, true);
      if b.Panic? {
        return Refused;
      }
      if b.Asleep? {
        return Waits;
      }
      bc.SetData(b.b, data);
      var ok := LogWrite(b.b);
      if ok {
        ok := bc.Brelse(b.b);
        return Recorded;
      }
      r := Refused;
    }
  }
}
