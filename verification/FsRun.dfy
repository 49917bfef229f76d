/** Whole runs of the file system over the log: reads, writes and truncations one after the other, a crash after any
    sector write of a commit or of a recovery, and the restart on what is then on the disk. The reference is a store of
    whole files that performs each operation at once or not at all. */
module FsRun {
  import opened Common
  import opened Bytes
  import opened BlockMap
  import opened Fs
  import opened LogCrash
  import opened LogHeader
  import opened Log
  import opened LogRun
  import opened DiskLayout
  import opened FsCrash
  import Bitmap
  import FileWrite

  /** A writei or itrunc in a transaction of its own, with the crash that befalls it, if any, and the recoveries that
      are cut short after it; or a readi. */
  datatype Op =
    | Put(i: nat, src: seq<byte>, off: uint, crash: Option<nat>, cuts: seq<nat>)
    | Empty(i: nat, crash: Option<nat>, cuts: seq<nat>)
    | Get(i: nat, off: uint, n: uint)

  datatype Reply = Wrote(w: Written) | Emptied | Found(r: Read)

  /** The operation is on one of the `n` inodes. */
  predicate Known(op: Op, n: nat)
  {
    op.i < n && (op.Put? ==> |op.src| < U32)
  }

  // ---------------------------------------------------------------------------
  // The atomic store

  function Effect(files: seq<seq<byte>>, kinds: seq<int>, op: Op): (r: seq<seq<byte>>)
    requires |kinds| == |files| && Known(op, |files|)
    ensures |r| == |files|
  {
    match op
    case Put(i, src, off, _, _) =>
      if Accepts(kinds[i], |files[i]|, off, |src|) then files[i := Splice(files[i], off, src)] else files
    case Empty(i, _, _) => files[i := []]
    case Get(_, _, _) => files
  }

  function Replied(files: seq<seq<byte>>, kinds: seq<int>, op: Op): (r: Reply)
    requires |kinds| == |files| && Known(op, |files|)
  {
    var device, c := kinds[op.i] == T_DEV, files[op.i];
    match op
    case Put(i, src, off, _, _) =>
      Wrote(if device then WriteDevice
            else if Accepts(kinds[i], |c|, off, |src|) then Count(|src|)
            else Written.Refused)
    case Empty(_, _, _) => Emptied
    case Get(_, off, n) =>
      Found(if device then ReadDevice
            else if off > |c| || off + n >= U32 then BadRange
            else Content(if off + n <= |c| then c[off..off + n] else c[off..]))
  }

  /** Whether the operation, which records `n` sectors, outlives its crash. */
  predicate Outlives(op: Op, n: nat)
  {
    op.Get? || Lasts(op.crash, n)
  }

  function Next(files: seq<seq<byte>>, kinds: seq<int>, op: Op, n: nat): (r: seq<seq<byte>>)
    requires |kinds| == |files| && Known(op, |files|)
    ensures |r| == |files|
  {
    if Outlives(op, n) then Effect(files, kinds, op) else files
  }

  predicate AllKnown(ops: seq<Op>, n: nat)
  {
    forall k :: 0 <= k < |ops| ==> Known(ops[k], n)
  }

  /** The files after the operations, of which the `k`-th records `ns[k]` sectors, and the replies on the way. */
  function Kept(files: seq<seq<byte>>, kinds: seq<int>, ops: seq<Op>, ns: seq<nat>): (r: seq<seq<byte>>)
    requires |kinds| == |files| && AllKnown(ops, |files|) && |ns| == |ops|
    ensures |r| == |files|
  {
    if ops == [] then files
    else var m := |ops| - 1; Next(Kept(files, kinds, ops[..m], ns[..m]), kinds, ops[m], ns[m])
  }

  function Replies(files: seq<seq<byte>>, kinds: seq<int>, ops: seq<Op>, ns: seq<nat>): (r: seq<Reply>)
    requires |kinds| == |files| && AllKnown(ops, |files|) && |ns| == |ops|
  {
    if ops == [] then []
    else
      var m := |ops| - 1;
      Replies(files, kinds, ops[..m], ns[..m]) + [Replied(Kept(files, kinds, ops[..m], ns[..m]), kinds, ops[m])]
  }

  // ---------------------------------------------------------------------------
  // One operation

  ghost predicate Kinds(inodes: seq<Inode>, kinds: seq<int>)
  {
    |kinds| == |inodes| && forall i :: 0 <= i < |inodes| ==> kinds[i] == inodes[i].kind
  }

  /** What a file system has on disk, and what is known of it. */
  datatype Saved = Saved(st: Stored, names: Names, owner: seq<Owner>, files: seq<seq<byte>>)

  ghost function SavedBy(fs: Fs): (s: Saved)
    reads fs
  {
    Saved(fs.OnDisk(), fs.names, fs.owner, fs.files)
  }

  ghost predicate Sane(s: Saved, g: Geometry, start: nat, kinds: seq<int>)
  {
    forall u: int {:trigger Unfold(u)} :: Unfold(u) && u == 1 ==>
      && g.First() <= start <= g.size <= U32 && Kinds(s.st.dinodes, kinds)
      && |s.st.bitmap| == g.nbitmap && |s.st.dinodes| == g.ninodes && |s.st.data| == g.size
      && HeldBy(s.st, s.names, s.owner, g.First(), s.files, start)
  }

  /** The file system in memory is the one on the disk of a log at rest. */
  ghost predicate Mounted(fs: Fs, log: Log, l: Layout, g: Geometry, boot: seq<Block>, kinds: seq<int>)
    reads fs, log, log.bc, log.bc.disk
  {
    && |fs.files| == |fs.inodes| == |kinds| == g.ninodes && |boot| == 2 && log.start == l.start && log.size == l.size
    && forall u: int {:trigger Unfold(u)} :: Unfold(u) && u == 2 ==>
         && Laid(fs, l.start) && Geo(fs) == g && Kinds(fs.inodes, kinds)
         && Over(log, l, Image(fs.OnDisk(), boot, l.start))
  }

  lemma LaidSane(fs: Fs, g: Geometry, start: nat, kinds: seq<int>)
    requires Laid(fs, start) && Geo(fs) == g && Kinds(fs.inodes, kinds)
    ensures Sane(SavedBy(fs), g, start, kinds)
  {
  }

  /** The same files in the same blocks. */
  ghost predicate SameFiles(s: Saved, t: Saved)
  {
    && s.files == t.files && s.names == t.names && s.st.bitmap == t.st.bitmap && s.st.dinodes == t.st.dinodes
    && |s.st.data| == |t.st.data|
  }

  /** Load the file system from the disk. `s`, which is stored there, is a ghost. */
  method Mount(log: Log, g: Geometry, ghost l: Layout, ghost boot: seq<Block>, ghost s: Saved, ghost kinds: seq<int>)
    returns (fs: Fs)
    requires |boot| == 2 && Over(log, l, Image(s.st, boot, l.start)) && Sane(s, g, l.start, kinds)
    ensures fresh(fs) && Mounted(fs, log, l, g, boot, kinds)
    ensures SameFiles(SavedBy(fs), s)
  {
    assert Unfold(1);
    RestOnDisk(log, l, Image(s.st, boot, l.start));
    StoredHolds(s.st, s.names, s.owner, g, s.files, l.start, boot);
    var h := log.bc.disk.sectors[..log.start];
    fs := new Fs.Load(Loaded(h, g), g.First(), s.names, s.owner, s.files);
  }

  /** The write in `op` is accepted and needs more blocks than are free below the log. */
  ghost predicate Short(s: Saved, op: Op, start: nat)
  {
    && op.Put? && op.i < |s.files| == |s.names| == |s.st.dinodes| && |s.names[op.i]| == NSLOTS
    && Accepts(s.st.dinodes[op.i].kind, |s.files[op.i]|, op.off, |op.src|)
    && Bitmap.Covers(s.st.bitmap, |s.st.data|) && start <= |s.st.data|
    && var hi := EndBlock(op.off, |op.src|);
       hi <= MAXFILE ==>
         Needed(s.names[op.i], op.off / BSIZE, hi) > FreeBlocks(Bitmap.Marks(s.st.bitmap, |s.st.data|)[..start])
  }

  lemma ShortStays(s: Saved, t: Saved, op: Op, start: nat)
    requires Short(s, op, start) && SameFiles(t, s)
    ensures Short(t, op, start)
  {
  }

  /** An operation has been recorded, and the machine has stopped or not: what is on the disk is what `fs` has there
      or, if the crash came before the header write, `s`. */
  ghost predicate Pending(fs: Fs, log: Log, l: Layout, g: Geometry, boot: seq<Block>, kinds: seq<int>, s: Saved,
                          crash: Option<nat>, n: nat)
    reads fs, log, log.bc, log.bc.disk
  {
    && |fs.files| == |fs.inodes| == |kinds| == g.ninodes && |boot| == 2 && log.start == l.start && log.size == l.size
    && forall u: int {:trigger Unfold(u)} :: Unfold(u) && u == 3 ==>
         && Laid(fs, l.start) && Geo(fs) == g && Kinds(fs.inodes, kinds) && Sane(s, g, l.start, kinds)
         && Over(log, l, Image(if Lasts(crash, n) then fs.OnDisk() else s.st, boot, l.start))
  }

  /** The file system to go on with. */
  method Resume(fs: Fs, log: Log, crash: Option<nat>, g: Geometry, ghost l: Layout, ghost boot: seq<Block>,
                ghost s: Saved, ghost n: nat, ghost kinds: seq<int>)
    returns (fs2: Fs)
    requires Pending(fs, log, l, g, boot, kinds, s, crash, n)
    ensures (fs2 == fs || fresh(fs2)) && Mounted(fs2, log, l, g, boot, kinds)
    ensures fs2.files == if Lasts(crash, n) then fs.files else s.files
  {
    assert Unfold(3);
    if crash.None? {
      return fs;
    }
    ghost var now := s;
    if Lasts(crash, n) {
      LaidSane(fs, g, l.start, kinds);
      now := SavedBy(fs);
    }
    fs2 := Mount(log, g, l, boot, now, kinds);
  }

  /** The log is of full size, and the operation is a small one: it cannot fill the log. */
  predicate Roomy(op: Op, g: Geometry, size: nat)
  {
    size == LOGSIZE && g.nbitmap <= 12 && (op.Put? ==> |op.src| <= FileWrite.CHUNK)
  }

  /** How many sectors an operation records. */
  predicate Records(files: seq<seq<byte>>, kinds: seq<int>, op: Op, n: nat, g: Geometry)
    requires |kinds| == |files| && Known(op, |files|)
  {
    match op
    case Put(i, src, off, _, _) =>
      if !Accepts(kinds[i], |files[i]|, off, |src|) then n == 0
      else |src| <= FileWrite.CHUNK ==> n <= 16 + g.nbitmap
    case Empty(_, _, _) => n <= g.nbitmap + 1
    case Get(_, _, _) => n == 0
  }

  /** A writei over the log, before the machine starts again. */
  method PutThrough(fs: Fs, log: Log, op: Op, ghost g: Geometry, boot: seq<Block>, ghost l: Layout,
                    ghost kinds: seq<int>)
    returns (how: Ending, log2: Log, reply: Reply, ghost n: nat)
    requires Mounted(fs, log, l, g, boot, kinds) && Known(op, |fs.inodes|) && op.Put?
    modifies fs, log, log.bc, log.bc.disk
    ensures log2 == log || (fresh(log2) && fresh(log2.bc) && fresh(log2.bc.disk))
    ensures Roomy(op, g, log.size) ==> !how.LogFull?
    ensures how.Settled? ==> Pending(fs, log2, l, g, boot, kinds, old(SavedBy(fs)), op.crash, n)
    ensures how.Settled? ==> fs.files == Effect(old(fs.files), kinds, op) && reply == Replied(old(fs.files), kinds, op)
    ensures how.Settled? ==> Records(old(fs.files), kinds, op, n, g)
    ensures how.NoRoom? ==> Sane(old(SavedBy(fs)), g, l.start, kinds) && Short(old(SavedBy(fs)), op, l.start)
    ensures how.NoRoom? ==> log2 == log && unchanged(log) && unchanged(log.bc) && unchanged(log.bc.disk)
    ensures how.NoRoom? ==> Over(log, l, Image(old(fs.OnDisk()), boot, l.start))
  {
    assert Unfold(2);
    LaidSane(fs, g, l.start, kinds);
    var w;
    w, how, log2 := WriteThrough(fs, log, op.i, op.src, op.off, boot, op.crash, op.cuts, l);
    reply, n := Wrote(w), |fs.logged|;
  }

  method PutStep(fs: Fs, log: Log, op: Op, g: Geometry, boot: seq<Block>, ghost l: Layout, ghost kinds: seq<int>)
    returns (how: Ending, fs2: Fs, log2: Log, reply: Reply, ghost n: nat)
    requires Mounted(fs, log, l, g, boot, kinds) && Known(op, |fs.inodes|) && op.Put?
    modifies fs, log, log.bc, log.bc.disk
    ensures fs2 == fs || fresh(fs2)
    ensures log2 == log || (fresh(log2) && fresh(log2.bc) && fresh(log2.bc.disk))
    ensures Roomy(op, g, log.size) ==> !how.LogFull?
    ensures !how.LogFull? ==> Mounted(fs2, log2, l, g, boot, kinds)
    ensures how.Settled? ==> fs2.files == Next(old(fs.files), kinds, op, n)
    ensures how.Settled? ==> reply == Replied(old(fs.files), kinds, op)
    ensures how.Settled? ==> Records(old(fs.files), kinds, op, n, g)
    ensures how.NoRoom? ==> fs2.files == old(fs.files) && Short(SavedBy(fs2), op, l.start)
  {
    ghost var s := SavedBy(fs);
    how, log2, reply, n := PutThrough(fs, log, op, g, boot, l, kinds);
    fs2 := fs;
    if how.Settled? {
      fs2 := Resume(fs, log2, op.crash, g, l, boot, s, n, kinds);
    } else if how.NoRoom? {
      fs2 := Mount(log2, g, l, boot, s, kinds);
      ShortStays(s, SavedBy(fs2), op, l.start);
    }
  }

  /** An itrunc over the log, before the machine starts again. */
  method EmptyThrough(fs: Fs, log: Log, op: Op, ghost g: Geometry, boot: seq<Block>, ghost l: Layout,
                      ghost kinds: seq<int>)
    returns (ok: bool, log2: Log, ghost n: nat)
    requires Mounted(fs, log, l, g, boot, kinds) && Known(op, |fs.inodes|) && op.Empty?
    modifies fs, log, log.bc, log.bc.disk
    ensures log2 == log || (fresh(log2) && fresh(log2.bc) && fresh(log2.bc.disk))
    ensures Roomy(op, g, log.size) ==> ok
    ensures ok ==> Pending(fs, log2, l, g, boot, kinds, old(SavedBy(fs)), op.crash, n)
    ensures ok ==> fs.files == Effect(old(fs.files), kinds, op) && Records(old(fs.files), kinds, op, n, g)
  {
    assert Unfold(2);
    LaidSane(fs, g, l.start, kinds);
    ok, log2 := TruncThrough(fs, log, op.i, boot, op.crash, op.cuts, l);
    n := |fs.logged|;
  }

  method EmptyStep(fs: Fs, log: Log, op: Op, g: Geometry, boot: seq<Block>, ghost l: Layout, ghost kinds: seq<int>)
    returns (ok: bool, fs2: Fs, log2: Log, ghost n: nat)
    requires Mounted(fs, log, l, g, boot, kinds) && Known(op, |fs.inodes|) && op.Empty?
    modifies fs, log, log.bc, log.bc.disk
    ensures fs2 == fs || fresh(fs2)
    ensures log2 == log || (fresh(log2) && fresh(log2.bc) && fresh(log2.bc.disk))
    ensures Roomy(op, g, log.size) ==> ok
    ensures ok ==> Mounted(fs2, log2, l, g, boot, kinds) && fs2.files == Next(old(fs.files), kinds, op, n)
    ensures ok ==> Records(old(fs.files), kinds, op, n, g)
  {
    ghost var s := SavedBy(fs);
    ok, log2, n := EmptyThrough(fs, log, op, g, boot, l, kinds);
    fs2 := fs;
    if ok {
      fs2 := Resume(fs, log2, op.crash, g, l, boot, s, n, kinds);
    }
  }

  method GetStep(fs: Fs, log: Log, op: Op, ghost g: Geometry, ghost boot: seq<Block>, ghost l: Layout,
                 ghost kinds: seq<int>)
    returns (reply: Reply)
    requires Mounted(fs, log, l, g, boot, kinds) && Known(op, |fs.inodes|) && op.Get?
    modifies fs
    ensures Mounted(fs, log, l, g, boot, kinds) && fs.files == old(fs.files)
    ensures reply == Replied(fs.files, kinds, op)
  {
    assert Unfold(2);
    var r := fs.Readi(op.i, op.off, op.n);
    reply := Found(r);
  }

  /** One operation, and the restart if the machine stops. */
  method Step(fs: Fs, log: Log, op: Op, g: Geometry, boot: seq<Block>, ghost l: Layout, ghost kinds: seq<int>)
    returns (how: Ending, fs2: Fs, log2: Log, reply: Reply, ghost n: nat)
    requires Mounted(fs, log, l, g, boot, kinds) && Known(op, |fs.inodes|)
    modifies fs, log, log.bc, log.bc.disk
    ensures fs2 == fs || fresh(fs2)
    ensures log2 == log || (fresh(log2) && fresh(log2.bc) && fresh(log2.bc.disk))
    ensures Roomy(op, g, log.size) ==> !how.LogFull?
    ensures !how.LogFull? ==> Mounted(fs2, log2, l, g, boot, kinds)
    ensures how.Settled? ==> fs2.files == Next(old(fs.files), kinds, op, n)
    ensures how.Settled? ==> reply == Replied(old(fs.files), kinds, op)
    ensures how.Settled? ==> Records(old(fs.files), kinds, op, n, g)
    ensures how.NoRoom? ==> fs2.files == old(fs.files) && Short(SavedBy(fs2), op, l.start)
  {
    match op {
      case Put(_, _, _, _, _) =>
        how, fs2, log2, reply, n := PutStep(fs, log, op, g, boot, l, kinds);
      case Empty(_, _, _) =>
        var ok;
        ok, fs2, log2, n := EmptyStep(fs, log, op, g, boot, l, kinds);
        how, reply := if ok then Settled else LogFull, Emptied;
      case Get(_, _, _) =>
        how, fs2, log2, n := Settled, fs, log, 0;
        reply := GetStep(fs, log, op, g, boot, l, kinds);
    }
  }

  // ---------------------------------------------------------------------------
  // Runs

  /** The operations so far have left the store with `files`, after these replies. */
  ghost predicate Ran(files0: seq<seq<byte>>, kinds: seq<int>, g: Geometry, ops: seq<Op>, ns: seq<nat>,
                      replies: seq<Reply>, files: seq<seq<byte>>)
  {
    forall u: int {:trigger Unfold(u)} :: Unfold(u) && u == 0 ==>
      && |kinds| == |files0| && AllKnown(ops, |files0|) && |ns| == |ops|
      && files == Kept(files0, kinds, ops, ns) && replies == Replies(files0, kinds, ops, ns)
      && AllRecord(files0, kinds, g, ops, ns)
  }

  /** Each operation records as many sectors as one of its kind may. */
  predicate AllRecord(files0: seq<seq<byte>>, kinds: seq<int>, g: Geometry, ops: seq<Op>, ns: seq<nat>)
    requires |kinds| == |files0| && AllKnown(ops, |files0|) && |ns| == |ops|
  {
    ops != [] ==>
      var m := |ops| - 1;
      && AllRecord(files0, kinds, g, ops[..m], ns[..m])
      && Records(Kept(files0, kinds, ops[..m], ns[..m]), kinds, ops[m], ns[m], g)
  }

  lemma RanNone(files0: seq<seq<byte>>, kinds: seq<int>, g: Geometry)
    requires |kinds| == |files0|
    ensures Ran(files0, kinds, g, [], [], [], files0)
  {
  }

  lemma RanMore(files0: seq<seq<byte>>, kinds: seq<int>, g: Geometry, ops: seq<Op>, k: nat, ns: seq<nat>, n: nat,
                replies: seq<Reply>, files: seq<seq<byte>>)
    requires k < |ops| && Ran(files0, kinds, g, ops[..k], ns, replies, files)
    requires |kinds| == |files| == |files0| && Known(ops[k], |files|) && Records(files, kinds, ops[k], n, g)
    ensures Ran(files0, kinds, g, ops[..k + 1], ns + [n], replies + [Replied(files, kinds, ops[k])],
                Next(files, kinds, ops[k], n))
  {
    assert Unfold(0);
    var more, counts := ops[..k + 1], ns + [n];
    assert more[..k] == ops[..k] && counts[..k] == ns && more[k] == ops[k];
    forall j | 0 <= j <= k ensures Known(more[j], |files0|) {
      if j < k {
        assert more[j] == ops[..k][j];
      }
    }
  }

  /** The first inodes' types of a disk. */
  ghost function KindsOn(h: seq<Block>, n: nat): (kinds: seq<int>)
    requires n / IPB + 2 < |h|
  {
    seq(n, i requires 0 <= i < n => InodeOn(h, i).kind)
  }

  /** Start on `image` and load the file system. */
  method Boot(image: Disk, g: Geometry, start: nat, size: nat, ghost files: seq<seq<byte>>)
    returns (log: Log, fs: Fs, boot: seq<Block>)
    requires ValidDisk(Layout(start, size, HeaderOf), image) && start <= g.size <= U32
    requires HasFiles(Recovered(Layout(start, size, HeaderOf), image), g, files)
    ensures fresh(log) && fresh(log.bc) && fresh(log.bc.disk) && fresh(fs) && log.size == size && log.start == start
    ensures var l := Layout(start, size, HeaderOf);
      Mounted(fs, log, l, g, boot, KindsOn(Recovered(l, image), g.ninodes)) && fs.files == files
  {
    ghost var l := Layout(start, size, HeaderOf);
    ghost var attempts, erased;
    log, attempts, erased := Restart(image, start, size, []);
    ghost var h := Recovered(l, image);
    boot := log.bc.disk.sectors[..start][..2];
    ghost var names, owner :| HeldBy(Loaded(h, g), names, owner, g.First(), files, start);
    fs := Mount(log, g, l, boot, Saved(Loaded(h, g), names, owner, files), KindsOn(h, g.ninodes));
  }

  /** Operations one after the other, on a mounted file system. */
  method Go(fs0: Fs, log0: Log, g: Geometry, boot: seq<Block>, ops: seq<Op>, ghost l: Layout, ghost kinds: seq<int>)
    returns (how: Ending, fs: Fs, log: Log, replies: seq<Reply>, k: nat, ghost ns: seq<nat>)
    requires Mounted(fs0, log0, l, g, boot, kinds) && AllKnown(ops, g.ninodes)
    modifies fs0, log0, log0.bc, log0.bc.disk
    ensures k <= |ops| && (how.Settled? <==> k == |ops|)
    ensures (forall j :: 0 <= j < |ops| ==> Roomy(ops[j], g, l.size)) ==> !how.LogFull?
    ensures !how.LogFull? ==> Mounted(fs, log, l, g, boot, kinds)
    ensures !how.LogFull? ==> Ran(old(fs0.files), kinds, g, ops[..k], ns, replies, fs.files)
    ensures how.NoRoom? ==> Short(SavedBy(fs), ops[k], l.start)
  {
    fs, log, how := fs0, log0, Settled;
    replies, ns, k := [], [], 0;
    ghost var files0 := fs.files;
    RanNone(files0, kinds, g);
    assert ops[..0] == [];
    while k < |ops|
      invariant 0 <= k <= |ops| && (fs == fs0 || fresh(fs)) && how.Settled?
      invariant log == log0 || (fresh(log) && fresh(log.bc) && fresh(log.bc.disk))
      invariant Mounted(fs, log, l, g, boot, kinds) && Ran(files0, kinds, g, ops[..k], ns, replies, fs.files)
    {
      ghost var files, n := fs.files, 0;
      var reply;
      how, fs, log, reply, n := Step(fs, log, ops[k], g, boot, l, kinds);
      if !how.Settled? {
        return;
      }
      RanMore(files0, kinds, g, ops, k, ns, n, replies, files);
      replies, ns, k := replies + [reply], ns + [n], k + 1;
    }
  }

  /** A machine starts on a disk with a sound file system and performs operations one after the other, stopping and
      starting again as they say. It ends `Settled` after all of them; or with `NoRoom` before a write that needs more
      blocks than are free below the log; or with `LogFull`, which operations that are small enough never meet. In the
      first two cases the files in memory and on disk, and all the replies, are those of the atomic store. */
  method Perform(image: Disk, g: Geometry, start: nat, size: nat, ops: seq<Op>, ghost files0: seq<seq<byte>>)
    returns (how: Ending, fs: Fs, log: Log, replies: seq<Reply>, k: nat, ghost ns: seq<nat>)
    requires ValidDisk(Layout(start, size, HeaderOf), image) && start <= g.size <= U32 && AllKnown(ops, g.ninodes)
    requires HasFiles(Recovered(Layout(start, size, HeaderOf), image), g, files0)
    ensures k <= |ops| && (how.Settled? <==> k == |ops|)
    ensures (forall j :: 0 <= j < |ops| ==> Roomy(ops[j], g, size)) ==> !how.LogFull?
    ensures !how.LogFull? ==> var l := Layout(start, size, HeaderOf);
      && InStep(fs, log, l, g)
      && Ran(files0, KindsOn(Recovered(l, image), g.ninodes), g, ops[..k], ns, replies, fs.files)
    ensures how.NoRoom? ==> Short(SavedBy(fs), ops[k], start)
  {
    var boot;
    ghost var l := Layout(start, size, HeaderOf);
    ghost var kinds := KindsOn(Recovered(l, image), g.ninodes);
    log, fs, boot := Boot(image, g, start, size, files0);
    how, fs, log, replies, k, ns := Go(fs, log, g, boot, ops, l, kinds);
    if !how.LogFull? {
      MountedFiles(fs, log, l, g, boot, kinds);
    }
  }

  function NoFiles(n: nat): (files: seq<seq<byte>>)
    ensures |files| == n && forall i :: 0 <= i < n ==> files[i] == []
  {
    seq(n, i => [])
  }

  /** Home sectors with an empty log behind them. */
  lemma EmptyLog(l: Layout, h: seq<Block>, image: Disk, n: nat)
    requires l.Valid() && l.start == |h| && l.size <= n && image == h + seq(n, b => ZeroBlock()) && l.decode == HeaderOf
    ensures ValidDisk(l, image) && Recovered(l, image) == h
  {
    assert image[l.start] == ZeroBlock() && Word(ZeroBlock(), 0) == 0;
    assert HeaderOf(image[l.start]) == [];
    CleanRecovered(l, image);
  }

  /** Home sectors with an empty file system. */
  method Blank(g: Geometry, start: nat) returns (h: seq<Block>)
    requires g.First() <= start <= g.size <= U32 && g.nbitmap == g.size / Bitmap.BPB + 1
    ensures |h| == start && HasFiles(h, g, NoFiles(g.ninodes))
  {
    var fs := new Fs(g.size, g.First(), g.ninodes);
    assert fs.files == NoFiles(g.ninodes);
    LaidHolds(fs, start, [ZeroBlock(), ZeroBlock()]);
    h := Image(fs.OnDisk(), [ZeroBlock(), ZeroBlock()], start);
  }

  /** A disk to start with: an empty file system below an empty log. */
  method Format(g: Geometry, start: nat, logsize: nat) returns (image: Disk)
    requires g.First() <= start && start + logsize <= g.size < U32 && 1 <= logsize
    requires g.nbitmap == g.size / Bitmap.BPB + 1
    ensures |image| == g.size
    ensures var l := Layout(start, logsize, HeaderOf);
      ValidDisk(l, image) && HasFiles(Recovered(l, image), g, NoFiles(g.ninodes))
  {
    var h := Blank(g, start);
    image := h + seq(g.size - start, b => ZeroBlock());
    EmptyLog(Layout(start, logsize, HeaderOf), h, image, g.size - start);
  }

  /** The log is at rest, and the files in memory are those that a reader finds on the disk. */
  ghost predicate InStep(fs: Fs, log: Log, l: Layout, g: Geometry)
    reads fs, log, log.bc, log.bc.disk
  {
    && Laid(fs, l.start) && Geo(fs) == g && log.AtRest() && log.L() == l
    && FilesOn(Home(l, log.bc.disk.sectors), g.ninodes) == fs.files
  }

  lemma MountedFiles(fs: Fs, log: Log, l: Layout, g: Geometry, boot: seq<Block>, kinds: seq<int>)
    requires Mounted(fs, log, l, g, boot, kinds)
    ensures InStep(fs, log, l, g)
  {
    assert Unfold(2);
    LaidHolds(fs, l.start, boot);
    RestOnDisk(log, l, Image(fs.OnDisk(), boot, l.start));
    HeldFiles(Image(fs.OnDisk(), boot, l.start), g, fs.files);
  }
}
