/** The redo log of log.c at the level of single-sector disk writes.

    `commit()` and `recover_from_log()` are the sequences of sector writes they issue. A crash
    keeps an arbitrary prefix of such a sequence, and recovery can itself be cut short any number
    of times before it completes. */
module LogCrash {
  import opened Bytes

  const MAXOPBLOCKS := 10
  const LOGSIZE := 3 * MAXOPBLOCKS

  /** The log occupies sectors `start .. start + size`; everything below is a home sector. `decode`
      reads the sector list off a header block. */
  datatype Layout = Layout(start: nat, size: nat, decode: Block -> seq<uint>) {
    predicate Valid() { 1 <= size && start + size < U32 }

    /** The number of blocks that fit behind the header block, as `log_write` bounds it. */
    function Capacity(): (c: nat)
      requires Valid()
    {
      if LOGSIZE < size - 1 then LOGSIZE else size - 1
    }
  }

  // ---------------------------------------------------------------------------
  // Valid disks

  /** A transaction the log can hold: distinct home sectors, no more than the capacity. */
  predicate Loggable(l: Layout, secs: seq<uint>)
  {
    && l.Valid()
    && |secs| <= l.Capacity()
    && Distinct(secs)
    && forall i :: 0 <= i < |secs| ==> secs[i] < l.start
  }

  /** A transaction with the header blocks that announce and erase it. */
  datatype Txn = Txn(secs: seq<uint>, blocks: seq<Block>, named: Block, erased: Block) {
    predicate Valid(l: Layout)
    {
      && Loggable(l, secs) && |blocks| == |secs|
      && l.decode(named) == secs && l.decode(erased) == []
    }

    /** The number of sector writes of `commit`. */
    function Length(): (n: nat)
    {
      if secs == [] then 0 else 2 * |secs| + 2
    }
  }

  predicate ValidDisk(l: Layout, d: Disk)
  {
    && l.Valid()
    && l.start + l.size <= |d|
    && Loggable(l, l.decode(d[l.start]))
  }

  function Committed(l: Layout, d: Disk): (secs: seq<uint>)
    requires ValidDisk(l, d)
  {
    l.decode(d[l.start])
  }

  /** The blocks stored behind the header, one for each sector it names. */
  function LogBlocks(l: Layout, d: Disk): (bs: seq<Block>)
    requires ValidDisk(l, d)
    ensures |bs| == |Committed(l, d)|
  {
    d[l.start + 1 .. l.start + 1 + |Committed(l, d)|]
  }

  /** The home sectors of a disk. */
  function Home(l: Layout, d: Disk): (h: seq<Block>)
    requires l.start <= |d|
  {
    d[..l.start]
  }

  // ---------------------------------------------------------------------------
  // Copying blocks

  /** `install_trans` after `k` iterations: the first `k` blocks are at their home sectors. */
  function Install(d: Disk, secs: seq<uint>, blocks: seq<Block>, k: nat): (r: Disk)
    requires k <= |secs| == |blocks| && forall i :: 0 <= i < |secs| ==> secs[i] < |d|
    ensures |r| == |d|
  {
    if k == 0 then d else Install(d, secs, blocks, k - 1)[secs[k - 1] := blocks[k - 1]]
  }

  lemma {:induction false} InstallAt(d: Disk, secs: seq<uint>, blocks: seq<Block>, k: nat)
    requires k <= |secs| == |blocks| && Distinct(secs) && forall i :: 0 <= i < |secs| ==> secs[i] < |d|
    ensures forall i :: 0 <= i < k ==> Install(d, secs, blocks, k)[secs[i]] == blocks[i]
    ensures forall s: nat :: s < |d| && s !in secs ==> Install(d, secs, blocks, k)[s] == d[s]
  {
    if k > 0 {
      InstallAt(d, secs, blocks, k - 1);
    }
  }

  /** All of a transaction at once: every named sector has its new block, every other its old one. */
  function Update(d: Disk, secs: seq<uint>, blocks: seq<Block>): (r: Disk)
    requires |secs| == |blocks| && Distinct(secs) && forall i :: 0 <= i < |secs| ==> secs[i] < |d|
    ensures |r| == |d|
    ensures forall i :: 0 <= i < |secs| ==> r[secs[i]] == blocks[i]
    ensures forall s: nat :: s < |d| && s !in secs ==> r[s] == d[s]
  {
    InstallAt(d, secs, blocks, |secs|);
    Install(d, secs, blocks, |secs|)
  }

  /** `Update` is the only disk with its properties. */
  lemma UpdateUnique(d: Disk, secs: seq<uint>, blocks: seq<Block>, r: Disk)
    requires |secs| == |blocks| && Distinct(secs) && forall i :: 0 <= i < |secs| ==> secs[i] < |d|
    requires |r| == |d|
    requires forall i :: 0 <= i < |secs| ==> r[secs[i]] == blocks[i]
    requires forall s: nat :: s < |d| && s !in secs ==> r[s] == d[s]
    ensures r == Update(d, secs, blocks)
  {
    var u := Update(d, secs, blocks);
    forall s: nat | s < |d|
      ensures r[s] == u[s]
    {
      if s in secs {
        var i :| 0 <= i < |secs| && secs[i] == s;
        assert u[secs[i]] == blocks[i];
      }
    }
  }

  lemma UpdateNothing(d: Disk, secs: seq<uint>, blocks: seq<Block>)
    requires |secs| == |blocks| && Distinct(secs) && forall i :: 0 <= i < |secs| ==> secs[i] < |d|
    ensures secs == [] ==> Update(d, secs, blocks) == d
  {
  }

  /** A transaction on top of part of itself is that transaction. */
  lemma UpdateTwice(d: Disk, secs: seq<uint>, blocks: seq<Block>, k: nat)
    requires k <= |secs| == |blocks| && Distinct(secs) && forall i :: 0 <= i < |secs| ==> secs[i] < |d|
    ensures Update(Install(d, secs, blocks, k), secs, blocks) == Update(d, secs, blocks)
  {
    InstallAt(d, secs, blocks, k);
    UpdateUnique(d, secs, blocks, Update(Install(d, secs, blocks, k), secs, blocks));
  }

  /** A transaction on home sectors is the home part of the transaction on the disk. */
  lemma UpdateHome(l: Layout, d: Disk, secs: seq<uint>, blocks: seq<Block>)
    requires Loggable(l, secs) && |secs| == |blocks| && l.start <= |d|
    ensures Home(l, Update(d, secs, blocks)) == Update(Home(l, d), secs, blocks)
  {
    var u := Update(d, secs, blocks);
    UpdateUnique(Home(l, d), secs, blocks, Home(l, u));
  }

  /** `write_log` after `k` iterations: the first `k` blocks are behind the header. */
  function LogFill(l: Layout, d: Disk, blocks: seq<Block>, k: nat): (r: Disk)
    requires k <= |blocks| && l.start + |blocks| < |d|
    ensures |r| == |d|
  {
    if k == 0 then d else LogFill(l, d, blocks, k - 1)[l.start + k := blocks[k - 1]]
  }

  lemma {:induction false} LogFillAt(l: Layout, d: Disk, blocks: seq<Block>, k: nat)
    requires k <= |blocks| && l.start + |blocks| < |d|
    ensures forall s :: 0 <= s < |d| && !(l.start < s <= l.start + k) ==> LogFill(l, d, blocks, k)[s] == d[s]
    ensures forall i :: 0 <= i < k ==> LogFill(l, d, blocks, k)[l.start + 1 + i] == blocks[i]
  {
    if k > 0 {
      LogFillAt(l, d, blocks, k - 1);
    }
  }

  // ---------------------------------------------------------------------------
  // Recovery, write by write

  /** The disk after the first `j` sector writes of `recover_from_log`: the home blocks, then an
      empty header. */
  function RecoverDisk(l: Layout, d: Disk, erased: Block, j: nat): (r: Disk)
    requires ValidDisk(l, d) && j <= |Committed(l, d)| + 1
    ensures |r| == |d|
  {
    var secs, blocks := Committed(l, d), LogBlocks(l, d);
    if j <= |secs| then Install(d, secs, blocks, j)
    else Install(d, secs, blocks, |secs|)[l.start := erased]
  }

  /** The `j`-th sector write of `recover_from_log`. */
  function RecoverWrite(l: Layout, d: Disk, erased: Block, j: nat): (w: Write)
    requires ValidDisk(l, d) && j <= |Committed(l, d)|
  {
    var secs, blocks := Committed(l, d), LogBlocks(l, d);
    if j < |secs| then Write(secs[j], blocks[j]) else Write(l.start, erased)
  }

  /** The first `j` sector writes of `recover_from_log`, in order. */
  function RecoverWrites(l: Layout, d: Disk, erased: Block, j: nat): (ws: seq<Write>)
    requires ValidDisk(l, d) && j <= |Committed(l, d)| + 1
    ensures |ws| == j
  {
    if j == 0 then [] else RecoverWrites(l, d, erased, j - 1) + [RecoverWrite(l, d, erased, j - 1)]
  }

  /** Each step of recovery is one sector write. */
  lemma RecoverStep(l: Layout, d: Disk, erased: Block, j: nat)
    requires ValidDisk(l, d) && j <= |Committed(l, d)|
    ensures var w := RecoverWrite(l, d, erased, j);
      w.sector < |d| && RecoverDisk(l, d, erased, j + 1) == RecoverDisk(l, d, erased, j)[w.sector := w.data]
  {
  }

  /** The writes of recovery, applied to the disk one by one, are the disks of recovery. */
  lemma {:induction false} RecoverWritten(l: Layout, d: Disk, erased: Block, j: nat)
    requires ValidDisk(l, d) && j <= |Committed(l, d)| + 1
    ensures Apply(d, RecoverWrites(l, d, erased, j)) == RecoverDisk(l, d, erased, j)
  {
    if j > 0 {
      var ws := RecoverWrites(l, d, erased, j);
      assert ws[..j - 1] == RecoverWrites(l, d, erased, j - 1);
      RecoverWritten(l, d, erased, j - 1);
      RecoverStep(l, d, erased, j - 1);
    }
  }

  /** The home sectors that recovery leaves behind: those on disk, updated with the transaction the
      header names. */
  function Recovered(l: Layout, d: Disk): (h: seq<Block>)
    requires ValidDisk(l, d)
  {
    Home(l, Update(d, Committed(l, d), LogBlocks(l, d)))
  }

  lemma CleanRecovered(l: Layout, d: Disk)
    requires ValidDisk(l, d) && Committed(l, d) == []
    ensures Recovered(l, d) == Home(l, d)
  {
    assert Update(d, Committed(l, d), LogBlocks(l, d)) == d;
  }

  /** Equal log regions name the same transaction. */
  lemma SameLogRegion(l: Layout, d: Disk, r: Disk)
    requires ValidDisk(l, d) && |r| == |d| && forall s :: l.start <= s < |d| ==> r[s] == d[s]
    ensures ValidDisk(l, r)
    ensures Committed(l, r) == Committed(l, d) && LogBlocks(l, r) == LogBlocks(l, d)
  {
  }

  /** Writing an empty header makes the home sectors final. */
  lemma EraseHeader(l: Layout, d: Disk, erased: Block)
    requires l.Valid() && l.start + l.size <= |d| && l.decode(erased) == []
    ensures var r := d[l.start := erased];
      ValidDisk(l, r) && Committed(l, r) == [] && Home(l, r) == Home(l, d) && Recovered(l, r) == Home(l, d)
  {
    CleanRecovered(l, d[l.start := erased]);
  }

  /** Recovery before it erases the header. */
  lemma RecoverPartly(l: Layout, d: Disk, erased: Block, j: nat)
    requires ValidDisk(l, d) && j <= |Committed(l, d)|
    ensures var r := RecoverDisk(l, d, erased, j);
      && ValidDisk(l, r) && Committed(l, r) == Committed(l, d) && LogBlocks(l, r) == LogBlocks(l, d)
      && Recovered(l, r) == Recovered(l, d)
  {
    var secs, blocks := Committed(l, d), LogBlocks(l, d);
    InstallAt(d, secs, blocks, j);
    SameLogRegion(l, d, RecoverDisk(l, d, erased, j));
    UpdateTwice(d, secs, blocks, j);
  }

  /** Completed recovery: the transaction is at home, the log is empty. */
  lemma RecoverFully(l: Layout, d: Disk, erased: Block)
    requires ValidDisk(l, d) && l.decode(erased) == []
    ensures var r := RecoverDisk(l, d, erased, |Committed(l, d)| + 1);
      ValidDisk(l, r) && Committed(l, r) == [] && Home(l, r) == Recovered(l, d) && Recovered(l, r) == Recovered(l, d)
  {
    EraseHeader(l, Update(d, Committed(l, d), LogBlocks(l, d)), erased);
  }

  /** Cutting recovery short changes neither validity nor what recovery would produce; completing
      it produces just that, with an empty log. */
  lemma RecoverPrefix(l: Layout, d: Disk, erased: Block, j: nat)
    requires ValidDisk(l, d) && l.decode(erased) == [] && j <= |Committed(l, d)| + 1
    ensures var r := RecoverDisk(l, d, erased, j);
      && ValidDisk(l, r)
      && Recovered(l, r) == Recovered(l, d)
      && (j == |Committed(l, d)| + 1 ==> Committed(l, r) == [] && Home(l, r) == Recovered(l, d))
  {
    if j <= |Committed(l, d)| {
      RecoverPartly(l, d, erased, j);
    } else {
      RecoverFully(l, d, erased);
    }
  }

  // ---------------------------------------------------------------------------
  // Commit, write by write

  /** The disk right after the header naming the transaction is written. */
  function AtCommit(l: Layout, d: Disk, t: Txn): (r: Disk)
    requires l.start + |t.blocks| < |d|
    ensures |r| == |d|
  {
    LogFill(l, d, t.blocks, |t.blocks|)[l.start := t.named]
  }

  /** The disk after the first `k` sector writes of `commit`: log blocks, header, home blocks, empty
      header. Nothing is written when the log is empty. */
  function CommitDisk(l: Layout, d: Disk, t: Txn, k: nat): (r: Disk)
    requires t.Valid(l) && l.start + l.size <= |d| && k <= t.Length()
    ensures |r| == |d|
  {
    var n := |t.secs|;
    if k <= n then LogFill(l, d, t.blocks, k)
    else
      var c := AtCommit(l, d, t);
      if k <= 2 * n + 1 then Install(c, t.secs, t.blocks, k - n - 1)
      else Install(c, t.secs, t.blocks, n)[l.start := t.erased]
  }

  /** The `k`-th sector write of `commit`. */
  function CommitWrite(l: Layout, t: Txn, k: nat): (w: Write)
    requires t.Valid(l) && k < t.Length()
  {
    var n := |t.secs|;
    if k < n then Write(l.start + 1 + k, t.blocks[k])
    else if k == n then Write(l.start, t.named)
    else if k <= 2 * n then Write(t.secs[k - n - 1], t.blocks[k - n - 1])
    else Write(l.start, t.erased)
  }

  /** The first `k` sector writes of `commit`, in order. */
  function CommitWrites(l: Layout, t: Txn, k: nat): (ws: seq<Write>)
    requires t.Valid(l) && k <= t.Length()
    ensures |ws| == k
  {
    if k == 0 then [] else CommitWrites(l, t, k - 1) + [CommitWrite(l, t, k - 1)]
  }

  /** Each step of `commit` is one sector write. */
  lemma CommitStep(l: Layout, d: Disk, t: Txn, k: nat)
    requires t.Valid(l) && l.start + l.size <= |d| && k < t.Length()
    ensures var w := CommitWrite(l, t, k);
      w.sector < |d| && CommitDisk(l, d, t, k + 1) == CommitDisk(l, d, t, k)[w.sector := w.data]
  {
  }

  /** The writes of `commit`, applied to the disk one by one, are the disks of `commit`. */
  lemma {:induction false} CommitWritten(l: Layout, d: Disk, t: Txn, k: nat)
    requires t.Valid(l) && l.start + l.size <= |d| && k <= t.Length()
    ensures Apply(d, CommitWrites(l, t, k)) == CommitDisk(l, d, t, k)
  {
    if k > 0 {
      var ws := CommitWrites(l, t, k);
      assert ws[..k - 1] == CommitWrites(l, t, k - 1);
      CommitWritten(l, d, t, k - 1);
      CommitStep(l, d, t, k - 1);
    }
  }

  lemma {:induction false} CommitWritesPrefix(l: Layout, t: Txn, k: nat, n: nat)
    requires t.Valid(l) && k <= n <= t.Length()
    ensures CommitWrites(l, t, n)[..k] == CommitWrites(l, t, k)
  {
    if k < n {
      CommitWritesPrefix(l, t, k, n - 1);
    }
  }

  lemma {:induction false} RecoverWritesPrefix(l: Layout, d: Disk, erased: Block, j: nat, n: nat)
    requires ValidDisk(l, d) && j <= n <= |Committed(l, d)| + 1
    ensures RecoverWrites(l, d, erased, n)[..j] == RecoverWrites(l, d, erased, j)
  {
    if j < n {
      RecoverWritesPrefix(l, d, erased, j, n - 1);
    }
  }

  /** A disk after some of the writes of a recovery. */
  lemma RecoveryImage(l: Layout, d: Disk, erased: Block, j: nat, image: Disk)
    requires ValidDisk(l, d) && l.decode(erased) == [] && j <= |Committed(l, d)| + 1
    requires image == Apply(d, RecoverWrites(l, d, erased, |Committed(l, d)| + 1)[..j])
    ensures ValidDisk(l, image) && Recovered(l, image) == Recovered(l, d)
  {
    RecoverWritesPrefix(l, d, erased, j, |Committed(l, d)| + 1);
    RecoverWritten(l, d, erased, j);
    RecoverFrom(l, d, erased, j, image, Recovered(l, d));
  }

  lemma RecoveryCut(l: Layout, d: Disk, erased: Block, j: nat)
    requires ValidDisk(l, d) && j <= |Committed(l, d)| + 1
    ensures Apply(d, RecoverWrites(l, d, erased, |Committed(l, d)| + 1)[..j]) == RecoverDisk(l, d, erased, j)
  {
    RecoverWritesPrefix(l, d, erased, j, |Committed(l, d)| + 1);
    RecoverWritten(l, d, erased, j);
  }

  /** The header write is the commit point: the log names the transaction, no home sector changed. */
  lemma HeaderCommits(l: Layout, d: Disk, t: Txn)
    requires t.Valid(l) && l.start + l.size <= |d|
    ensures var c := AtCommit(l, d, t);
      && ValidDisk(l, c) && Committed(l, c) == t.secs && LogBlocks(l, c) == t.blocks
      && Home(l, c) == Home(l, d)
  {
    LogFillAt(l, d, t.blocks, |t.blocks|);
  }

  /** From the commit point on, `commit` issues exactly the writes recovery would issue. */
  lemma CommitIsLogThenRecover(l: Layout, d: Disk, t: Txn, k: nat)
    requires t.Valid(l) && l.start + l.size <= |d| && |t.secs| < k <= t.Length()
    ensures var c := AtCommit(l, d, t);
      && ValidDisk(l, c) && Committed(l, c) == t.secs
      && CommitDisk(l, d, t, k) == RecoverDisk(l, c, t.erased, k - |t.secs| - 1)
  {
    HeaderCommits(l, d, t);
  }

  /** Log blocks that no header names are invisible. */
  lemma BeforeCommitPoint(l: Layout, d: Disk, blocks: seq<Block>, k: nat)
    requires ValidDisk(l, d) && Committed(l, d) == [] && k <= |blocks| < l.size
    ensures var r := LogFill(l, d, blocks, k);
      ValidDisk(l, r) && Committed(l, r) == [] && Recovered(l, r) == Home(l, r) == Home(l, d)
  {
    LogFillAt(l, d, blocks, k);
    CleanRecovered(l, LogFill(l, d, blocks, k));
  }

  /** What recovery makes of the commit point. */
  lemma CommitPointRecovered(l: Layout, d: Disk, t: Txn)
    requires t.Valid(l) && l.start + l.size <= |d|
    ensures var c := AtCommit(l, d, t);
      ValidDisk(l, c) && Recovered(l, c) == Update(Home(l, d), t.secs, t.blocks)
  {
    HeaderCommits(l, d, t);
    UpdateHome(l, AtCommit(l, d, t), t.secs, t.blocks);
  }

  /** Some disk from which recovery goes on like commit. */
  lemma CommitPoint(l: Layout, d: Disk, t: Txn, k: nat, r: Disk, full: seq<Block>) returns (c: Disk)
    requires t.Valid(l) && l.start + l.size <= |d| && |t.secs| < k <= t.Length()
    requires r == CommitDisk(l, d, t, k) && full == Update(Home(l, d), t.secs, t.blocks)
    ensures ValidDisk(l, c) && |Committed(l, c)| == |t.secs| && full == Recovered(l, c)
    ensures r == RecoverDisk(l, c, t.erased, k - |t.secs| - 1)
  {
    c := AtCommit(l, d, t);
    CommitPointRecovered(l, d, t);
    CommitIsLogThenRecover(l, d, t, k);
  }

  lemma FromCommitPoint(l: Layout, d: Disk, t: Txn, k: nat, r: Disk, full: seq<Block>)
    requires t.Valid(l) && l.start + l.size <= |d| && |t.secs| < k <= t.Length()
    requires r == CommitDisk(l, d, t, k) && full == Update(Home(l, d), t.secs, t.blocks)
    ensures ValidDisk(l, r) && Recovered(l, r) == full
    ensures k == t.Length() ==> Committed(l, r) == [] && Home(l, r) == full
  {
    var c := CommitPoint(l, d, t, k, r, full);
    RecoverFrom(l, c, t.erased, k - |t.secs| - 1, r, full);
  }

  /** Recovery of `c` up to disk `r`, when it would produce `h`. */
  lemma RecoverFrom(l: Layout, c: Disk, erased: Block, j: nat, r: Disk, h: seq<Block>)
    requires ValidDisk(l, c) && l.decode(erased) == [] && j <= |Committed(l, c)| + 1
    requires r == RecoverDisk(l, c, erased, j) && h == Recovered(l, c)
    ensures ValidDisk(l, r) && Recovered(l, r) == h
    ensures j == |Committed(l, c)| + 1 ==> Committed(l, r) == [] && Home(l, r) == h
  {
    RecoverPrefix(l, c, erased, j);
  }

  /** Stopping `commit` after any number of its sector writes leaves a disk from which recovery
      produces the old home sectors or the whole transaction, decided by the header write. */
  lemma CommitPrefix(l: Layout, d: Disk, t: Txn, k: nat)
    requires ValidDisk(l, d) && Committed(l, d) == [] && t.Valid(l) && k <= t.Length()
    ensures var r, full := CommitDisk(l, d, t, k), Update(Home(l, d), t.secs, t.blocks);
      && ValidDisk(l, r)
      && Recovered(l, r) == (if k <= |t.secs| then Home(l, d) else full)
      && (k == t.Length() ==> Committed(l, r) == [] && Home(l, r) == full)
  {
    if k <= |t.secs| {
      BeforeCommitPoint(l, d, t.blocks, k);
      UpdateNothing(Home(l, d), t.secs, t.blocks);
    } else {
      FromCommitPoint(l, d, t, k, CommitDisk(l, d, t, k), Update(Home(l, d), t.secs, t.blocks));
    }
  }

  /** A disk after some of the writes of a commit that would end with the disk `final`. */
  lemma CommitImage(l: Layout, d: Disk, t: Txn, k: nat, image: Disk, final: Disk)
    requires ValidDisk(l, d) && Committed(l, d) == [] && t.Valid(l) && k <= t.Length()
    requires image == Apply(d, CommitWrites(l, t, t.Length())[..k]) && final == CommitDisk(l, d, t, t.Length())
    ensures ValidDisk(l, image) && image == CommitDisk(l, d, t, k)
    ensures Recovered(l, image) == if k <= |t.secs| then Home(l, d) else Home(l, final)
  {
    CommitWritesPrefix(l, t, k, t.Length());
    CommitWritten(l, d, t, k);
    CommitPrefix(l, d, t, k);
    CommitPrefix(l, d, t, t.Length());
  }

  /** Write-ahead: whenever `commit` is about to write a home sector, the header on disk already
      names that sector and the log already holds the very block about to be written. */
  lemma WriteAhead(l: Layout, d: Disk, t: Txn, k: nat)
    requires ValidDisk(l, d) && Committed(l, d) == [] && t.Valid(l) && k < t.Length()
    requires CommitWrite(l, t, k).sector < l.start
    ensures var r, w := CommitDisk(l, d, t, k), CommitWrite(l, t, k);
      && ValidDisk(l, r)
      && exists i :: 0 <= i < |Committed(l, r)| && Committed(l, r)[i] == w.sector && LogBlocks(l, r)[i] == w.data
  {
    var j := k - |t.secs| - 1;
    CommitIsLogThenRecover(l, d, t, k);
    HeaderCommits(l, d, t);
    RecoverPartly(l, AtCommit(l, d, t), t.erased, j);
    var r := CommitDisk(l, d, t, k);
    assert Committed(l, r)[j] == t.secs[j] && LogBlocks(l, r)[j] == t.blocks[j];
  }

  // ---------------------------------------------------------------------------
  // Crashes and restarts

  /** A recovery that is cut short after `kept` writes; `erased` is the header it would write. */
  datatype Attempt = Attempt(kept: nat, erased: Block)

  /** Recovery started once for every attempt, and cut short. */
  function Interrupted(l: Layout, d: Disk, attempts: seq<Attempt>): (r: Disk)
    requires ValidDisk(l, d) && forall i :: 0 <= i < |attempts| ==> l.decode(attempts[i].erased) == []
    ensures ValidDisk(l, r) && Recovered(l, r) == Recovered(l, d)
  {
    if attempts == [] then d
    else
      var e, a := Interrupted(l, d, attempts[..|attempts| - 1]), attempts[|attempts| - 1];
      var j := if a.kept <= |Committed(l, e)| then a.kept else |Committed(l, e)| + 1;
      RecoverPrefix(l, e, a.erased, j);
      RecoverDisk(l, e, a.erased, j)
  }

  /** Recovery that runs to completion. */
  function Recover(l: Layout, d: Disk, erased: Block): (r: Disk)
    requires ValidDisk(l, d) && l.decode(erased) == []
    ensures ValidDisk(l, r) && Committed(l, r) == [] && Home(l, r) == Recovered(l, d)
  {
    RecoverFully(l, d, erased);
    RecoverDisk(l, d, erased, |Committed(l, d)| + 1)
  }

  /** Crash atomicity: the machine stops after any prefix of the writes of `commit`, recovery is cut
      short any number of times, and then completes. The home sectors end as all old or all new. */
  lemma {:induction false} CrashAtomicity(l: Layout, d: Disk, t: Txn, k: nat, attempts: seq<Attempt>, erased: Block)
    requires ValidDisk(l, d) && Committed(l, d) == [] && t.Valid(l) && k <= t.Length()
    requires (forall i :: 0 <= i < |attempts| ==> l.decode(attempts[i].erased) == []) && l.decode(erased) == []
    ensures var crashed := CommitDisk(l, d, t, k);
      && ValidDisk(l, crashed)
      && var r := Recover(l, Interrupted(l, crashed, attempts), erased);
         && Committed(l, r) == []
         && Home(l, r) == if k <= |t.secs| then Home(l, d) else Update(Home(l, d), t.secs, t.blocks)
  {
    CommitPrefix(l, d, t, k);
  }

  // ---------------------------------------------------------------------------
  // Whole runs

  /** One transaction of a run: committed without a crash, or with a crash that keeps `kept` of the
      sector writes of `commit`, followed by recovery attempts and a completed recovery. */
  datatype Event =
    | Done(t: Txn)
    | Crash(t: Txn, kept: nat, attempts: seq<Attempt>, erased: Block)
  {
    predicate Valid(l: Layout)
    {
      && t.Valid(l)
      && (Crash? ==> l.decode(erased) == [] && forall i :: 0 <= i < |attempts| ==> l.decode(attempts[i].erased) == [])
    }

    /** Did the header write happen? */
    predicate Survives() { Done? || kept > |t.secs| }
  }

  function Step(l: Layout, d: Disk, e: Event): (r: Disk)
    requires ValidDisk(l, d) && Committed(l, d) == [] && e.Valid(l)
    ensures ValidDisk(l, r) && Committed(l, r) == []
    ensures Home(l, r) == if e.Survives() then Update(Home(l, d), e.t.secs, e.t.blocks) else Home(l, d)
  {
    match e
    case Done(t) =>
      CommitPrefix(l, d, t, t.Length());
      CommitDisk(l, d, t, t.Length())
    case Crash(t, kept, attempts, erased) =>
      var k := if kept < t.Length() then kept else t.Length();
      CrashAtomicity(l, d, t, k, attempts, erased);
      UpdateNothing(Home(l, d), t.secs, t.blocks);
      Recover(l, Interrupted(l, CommitDisk(l, d, t, k), attempts), erased)
  }

  function Run(l: Layout, d: Disk, es: seq<Event>): (r: Disk)
    requires ValidDisk(l, d) && Committed(l, d) == [] && forall i :: 0 <= i < |es| ==> es[i].Valid(l)
    ensures ValidDisk(l, r) && Committed(l, r) == []
  {
    if es == [] then d else Step(l, Run(l, d, es[..|es| - 1]), es[|es| - 1])
  }

  /** The same run on an atomic store that never crashes: the surviving transactions, in order. */
  function AtomicRun(l: Layout, h: seq<Block>, es: seq<Event>): (r: seq<Block>)
    requires |h| == l.start && forall i :: 0 <= i < |es| ==> es[i].Valid(l)
    ensures |r| == l.start
  {
    if es == [] then h
    else
      var e, before := es[|es| - 1], AtomicRun(l, h, es[..|es| - 1]);
      assert e.Valid(l);
      if e.Survives() then Update(before, e.t.secs, e.t.blocks) else before
  }

  /** Over any run of commits and crashes, the home sectors are those of the atomic store. */
  lemma {:induction false} RunIsAtomic(l: Layout, d: Disk, es: seq<Event>)
    requires ValidDisk(l, d) && Committed(l, d) == [] && forall i :: 0 <= i < |es| ==> es[i].Valid(l)
    ensures Home(l, Run(l, d, es)) == AtomicRun(l, Home(l, d), es)
  {
    if es != [] {
      RunIsAtomic(l, d, es[..|es| - 1]);
    }
  }
}
