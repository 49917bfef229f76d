/** The file system of fs.c on the log of log.c: what a crash in the middle of an operation leaves on the disk. */
module FsCrash {
  import opened Common
  import opened Bytes
  import opened BlockMap
  import opened Fs
  import opened Log
  import opened LogRun
  import opened LogCrash
  import opened DiskLayout
  import Bitmap
  import FileWrite

  // ---------------------------------------------------------------------------
  // Blocks beyond the log's start

  lemma {:induction false} FreeSplit(marks: seq<bool>, k: nat)
    requires k <= |marks|
    ensures FreeBlocks(marks) == FreeBlocks(marks[..k]) + FreeBlocks(marks[k..])
  {
    if k == |marks| {
      assert marks[..k] == marks && marks[k..] == [];
    } else {
      var n := |marks| - 1;
      FreeSplit(marks[..n], k);
      assert marks[..n][..k] == marks[..k] && marks[..n][k..] == marks[k..][..n - k];
    }
  }

  lemma {:induction false} FreeFewer(m0: seq<bool>, m: seq<bool>)
    requires |m| == |m0| && forall b :: 0 <= b < |m| && m0[b] ==> m[b]
    ensures FreeBlocks(m) <= FreeBlocks(m0) && (FreeBlocks(m) == FreeBlocks(m0) <==> m == m0)
  {
    if m == [] {
      assert m == m0;
    } else {
      var n := |m| - 1;
      FreeFewer(m0[..n], m[..n]);
      assert m == m[..n] + [m[n]] && m0 == m0[..n] + [m0[n]];
    }
  }

  /** Blocks are taken lowest first: those from `start` on stay free exactly as long as no more are taken than were
      free below. */
  lemma StaysBelow(m0: seq<bool>, m: seq<bool>, start: nat)
    requires Lowest(m0, m) && Below(m0, start) && start <= |m0|
    ensures FreeBlocks(m) <= FreeBlocks(m0)
    ensures Below(m, start) <==> FreeBlocks(m0) - FreeBlocks(m) <= FreeBlocks(m0[..start])
  {
    FreeFewer(m0, m);
    FreeSplit(m0, start);
    FreeSplit(m, start);
    FreeFewer(m0[start..], m[start..]);
    if Below(m, start) {
      assert m[start..] == m0[start..];
    } else {
      var b :| start <= b < |m| && m[b];
      FreeNone(m[..start]);
      assert m[start..][b - start] != m0[start..][b - start];
    }
  }

  // ---------------------------------------------------------------------------
  // The calls of log_write as changes of home sectors

  predicate CallsBelow(calls: seq<Sector>, n: nat, start: nat)
  {
    forall k :: 0 <= k < |calls| ==> Number(calls[k], n) < start
  }

  function Changes(calls: seq<Sector>, st: Stored, boot: seq<Block>, start: nat): (cs: seq<Change>)
    requires |boot| == 2 && start <= U32 && CallsBelow(calls, |st.dinodes|, start)
    ensures |cs| == |calls| && InHome(cs, start)
    ensures forall k :: 0 <= k < |cs| ==>
      cs[k].sector == Number(calls[k], |st.dinodes|) && cs[k].data == SectorOf(st, boot, cs[k].sector)
  {
    seq(|calls|, k requires 0 <= k < |calls| =>
      var s := Number(calls[k], |st.dinodes|); Change(s, SectorOf(st, boot, s)))
  }

  predicate Touches(cs: seq<Change>, s: nat)
  {
    exists k :: 0 <= k < |cs| && cs[k].sector == s
  }

  lemma {:induction false} ChangedAt(h: seq<Block>, cs: seq<Change>, s: nat, v: Block)
    requires s < |h| && forall k :: 0 <= k < |cs| && cs[k].sector == s ==> cs[k].data == v
    ensures Changed(h, cs)[s] == if Touches(cs, s) then v else h[s]
  {
    if cs != [] {
      var n := |cs| - 1;
      ChangedAt(h, cs[..n], s, v);
      if Touches(cs[..n], s) {
        var k :| 0 <= k < n && cs[..n][k].sector == s;
        assert cs[k].sector == s;
      }
      if Touches(cs, s) && cs[n].sector != s {
        var k :| 0 <= k < |cs| && cs[k].sector == s;
        assert cs[..n][k].sector == s;
      }
    }
  }

  /** Making the changes turns the disk as it was into the disk as it is. */
  lemma ImageChanged(a: Stored, b: Stored, logged: set<Sector>, calls: seq<Sector>, boot: seq<Block>,
                     start: nat)
    requires Covered(a, b, logged) && Tracked(calls, logged) && |boot| == 2 && start <= U32
    requires |a.dinodes| == |b.dinodes| && CallsBelow(calls, |b.dinodes|, start)
    ensures Changed(Image(a, boot, start), Changes(calls, b, boot, start)) == Image(b, boot, start)
  {
    var cs := Changes(calls, b, boot, start);
    var h := Changed(Image(a, boot, start), cs);
    forall s: nat | s < start ensures h[s] == Image(b, boot, start)[s] {
      ChangedAt(Image(a, boot, start), cs, s, SectorOf(b, boot, s));
      if !Touches(cs, s) {
        NotPassed(calls, logged, cs, |b.dinodes|, s);
        SectorKept(a, b, logged, boot, s);
      }
    }
  }

  lemma NotPassed(calls: seq<Sector>, logged: set<Sector>, cs: seq<Change>, n: nat, s: nat)
    requires Tracked(calls, logged) && |cs| == |calls| && !Touches(cs, s)
    requires forall k :: 0 <= k < |cs| ==> cs[k].sector == Number(calls[k], n)
    ensures forall x :: x in logged ==> Number(x, n) != s
  {
    assert Unfold(5);
    forall x | x in logged ensures Number(x, n) != s {
      var k :| 0 <= k < |calls| && calls[k] == x;
      assert cs[k].sector != s;
    }
  }

  lemma {:induction false} TouchedNumbers(calls: seq<Sector>, cs: seq<Change>, n: nat, numbers: set<nat>)
    requires |cs| == |calls| && forall k :: 0 <= k < |cs| ==> cs[k].sector == Number(calls[k], n)
    requires forall k :: 0 <= k < |calls| ==> Number(calls[k], n) in numbers
    ensures forall s :: s in Touched(cs) ==> s in numbers
  {
    if cs != [] {
      var m := |cs| - 1;
      TouchedNumbers(calls[..m], cs[..m], n, numbers);
      assert cs[m].sector == Number(calls[m], n);
    }
  }

  /** The sectors lie in the parts of the disk that are theirs; 0 is no block. */
  predicate Placed(x: Sector, g: Geometry)
  {
    match x
    case InodesAt(q) => q <= g.ninodes / IPB
    case BitmapAt(q) => q < g.nbitmap
    case DataAt(b) => b == 0 || g.First() <= b
  }

  lemma NumberOnce(x: Sector, y: Sector, g: Geometry)
    requires Placed(x, g) && Placed(y, g) && Number(x, g.ninodes) == Number(y, g.ninodes)
    ensures x == y
  {
  }

  lemma {:induction false} NumbersSize(xs: set<Sector>, g: Geometry)
    requires forall x :: x in xs ==> Placed(x, g)
    ensures |(set x | x in xs :: Number(x, g.ninodes))| == |xs|
    decreases xs
  {
    if x :| x in xs {
      var rest := xs - {x};
      NumbersSize(rest, g);
      var all, fewer := set y | y in xs :: Number(y, g.ninodes), set y | y in rest :: Number(y, g.ninodes);
      if Number(x, g.ninodes) in fewer {
        var y :| y in rest && Number(y, g.ninodes) == Number(x, g.ninodes);
        NumberOnce(x, y, g);
      }
      assert all == fewer + {Number(x, g.ninodes)};
    }
  }

  /** As many sectors are touched as were passed to log_write. */
  lemma TouchedCount(calls: seq<Sector>, logged: set<Sector>, cs: seq<Change>, g: Geometry)
    requires Tracked(calls, logged) && |cs| == |calls| && forall x :: x in logged ==> Placed(x, g)
    requires forall k :: 0 <= k < |cs| ==> cs[k].sector == Number(calls[k], g.ninodes)
    ensures |Touched(cs)| == |logged|
  {
    assert Unfold(5);
    var numbers: set<nat> := set x | x in logged :: Number(x, g.ninodes);
    NumbersSize(logged, g);
    TouchedNumbers(calls, cs, g.ninodes, numbers);
    forall s | s in numbers ensures s in Touched(cs) {
      var x :| x in logged && Number(x, g.ninodes) == s;
      var k :| 0 <= k < |calls| && calls[k] == x;
      TouchedAt(cs, k);
    }
    SubsetSize<int>(Touched(cs), numbers);
    SubsetSize<int>(numbers, Touched(cs));
  }

  lemma {:induction false} TouchedAt(cs: seq<Change>, k: nat)
    requires k < |cs|
    ensures cs[k].sector in Touched(cs)
  {
    if k < |cs| - 1 {
      TouchedAt(cs[..|cs| - 1], k);
    }
  }

  // ---------------------------------------------------------------------------
  // An operation in its transaction

  ghost function Geo(fs: Fs): (g: Geometry)
    reads fs
  {
    Geometry(fs.size, |fs.inodes|, fs.nbitmap)
  }

  /** A commit of `n` sectors that stops as `crash` says gets past the header write. */
  predicate Lasts(crash: Option<nat>, n: nat)
  {
    crash.None? || crash.value > n
  }

  /** Pass what an operation changed to the log and end the transaction; the machine stops, or not, as `crash` and
      `cuts` say. The home sectors are then those after the operation if the machine got past as many writes as
      sectors were passed to log_write and one more, and those before it otherwise. */
  method Record(fs: Fs, log: Log, boot: seq<Block>, crash: Option<nat>, cuts: seq<nat>, ghost l: Layout)
    returns (ok: bool, next: Log)
    requires fs.Shape() && |boot| == 2 && log.start <= fs.size && CallsBelow(fs.calls, |fs.dinodes|, log.start)
    requires |fs.base.dinodes| == |fs.dinodes| == |fs.inodes| && forall x :: x in fs.logged ==> Placed(x, Geo(fs))
    requires Over(log, l, Image(fs.base, boot, log.start))
    modifies log, log.bc, log.bc.disk
    ensures next == log || (fresh(next) && fresh(next.bc) && fresh(next.bc.disk))
    ensures |fs.logged| + 1 < log.size <= LOGSIZE ==> ok
    ensures ok ==> next.start == log.start
    ensures ok ==>
      Over(next, l, Image(if Lasts(crash, |fs.logged|) then fs.OnDisk() else fs.base, boot, log.start))
  {
    var st := fs.OnDisk();
    BookedSo(fs.base, st, fs.size, fs.logged, fs.calls, fs.nfree, fs.freed);
    ImageChanged(fs.base, st, fs.logged, fs.calls, boot, log.start);
    var cs := Changes(fs.calls, st, boot, log.start);
    TouchedCount(fs.calls, fs.logged, cs, Geo(fs));
    ghost var e;
    ok, next, e := Operate(log, Deed(cs, crash, cuts), l, Image(fs.base, boot, log.start));
  }

  // ---------------------------------------------------------------------------
  // writei

  /** The bitmap after as many allocations as there are fewer free blocks. */
  lemma HomeCount(m0: Bitmap.Map, m: Bitmap.Map, size: nat, n0: nat, n: nat, start: nat)
    requires LowestFirst(m0, m, size, false) && CountsFree(m0, size, n0) && CountsFree(m, size, n)
    requires start <= size && Below(Bitmap.Marks(m0, size), start)
    ensures n <= n0 && (Below(Bitmap.Marks(m, size), start) <==> n0 - n <= FreeBlocks(Bitmap.Marks(m0, size)[..start]))
  {
    assert Unfold(7) && Unfold(16);
    StaysBelow(Bitmap.Marks(m0, size), Bitmap.Marks(m, size), start);
  }

  /** A home sector, in the part of the disk that is its own. */
  predicate Proper(x: Sector, g: Geometry, start: nat)
  {
    Placed(x, g) && Number(x, g.ninodes) < start
  }

  lemma {:induction false} BitmapsProper(k: nat, g: Geometry, start: nat)
    requires k <= g.nbitmap && g.First() <= start
    ensures forall x :: x in Bitmaps(k) ==> Proper(x, g, start)
  {
    if k > 0 {
      BitmapsProper(k - 1, g, start);
    }
  }

  lemma {:induction false} DataProper(ns: seq<nat>, lo: nat, hi: nat, g: Geometry, start: nat)
    requires |ns| == NSLOTS && lo <= hi <= MAXFILE && forall k :: 0 <= k < NSLOTS ==> Proper(DataAt(ns[k]), g, start)
    ensures forall x :: x in DataSectors(ns, lo, hi) ==> Proper(x, g, start)
  {
    if lo < hi {
      DataProper(ns, lo, hi - 1, g, start);
    }
  }

  /** While no block of the log is marked, the sectors writei passes to log_write are home sectors. */
  lemma SectorsProper(names: Names, owner: seq<Owner>, marks: seq<bool>, g: Geometry, inodes: seq<Inode>,
                      data: seq<Block>, files: seq<seq<byte>>, i: nat, off: nat, n: nat, start: nat)
    requires Sound(names, owner, marks, g.First(), inodes, data, files) && Sizes(names, inodes)
    requires i < |inodes| == g.ninodes && Below(marks, start) && off + n <= MAXFILE * BSIZE && g.First() <= start
    ensures forall x :: x in WriteSectors(names[i], off, n, i, g.nbitmap) ==> Proper(x, g, start)
  {
    forall k | 0 <= k < NSLOTS ensures Proper(DataAt(names[i][k]), g, start) {
      if names[i][k] != 0 {
        SoundNamed(names, owner, marks, g.First(), inodes, data, files, i, k);
      }
    }
    BitmapsProper(g.nbitmap, g, start);
    DataProper(names[i], off / BSIZE, EndBlock(off, n), g, start);
    assert i / IPB <= |inodes| / IPB;
  }

  /** The blocks that are free below the log. */
  ghost function HomeFree(fs: Fs, start: nat): (n: nat)
    reads fs
    requires fs.Shape() && start <= fs.size
  {
    FreeBlocks(fs.Marks()[..start])
  }

  lemma HomeFreeOnly(fs: Fs, start: nat)
    requires fs.Shape() && start <= fs.size
    ensures HomeFree(fs, start) <= fs.nfree
  {
    BookedSo(fs.base, fs.OnDisk(), fs.size, fs.logged, fs.calls, fs.nfree, fs.freed);
    assert Unfold(7);
    FreeSplit(fs.Marks(), start);
  }

  /** The layout mkfs makes, with the log from `start` on and none of its blocks marked. */
  ghost predicate Laid(fs: Fs, start: nat)
    reads fs
  {
    fs.Valid() && Geo(fs).First() == fs.first <= start <= fs.size && Below(fs.Marks(), start)
  }

  /** They suffice for `n` bytes at `off` of file `i`. */
  ghost predicate Suffices(fs: Fs, i: nat, off: nat, n: nat, start: nat)
    reads fs
    requires fs.Valid() && start <= fs.size && i < |fs.inodes|
  {
    && EndBlock(off, n) <= MAXFILE
    && Needed(fs.names[i], off / BSIZE, EndBlock(off, n)) <= HomeFree(fs, start)
  }

  /** The calls of log_write of the transaction are on home sectors, each in its own part of the disk. */
  ghost predicate CallsFit(fs: Fs, start: nat)
    reads fs
  {
    CallsBelow(fs.calls, |fs.inodes|, start) && forall x :: x in fs.logged ==> Placed(x, Geo(fs))
  }

  /** writei accepts `n` bytes at `off` of a file of `len` bytes. */
  predicate Accepts(kind: int, len: nat, off: nat, n: nat)
  {
    kind != T_DEV && off <= len && off + n <= MAXFILE * BSIZE
  }

  /** After the allocations of a write that found the names `ns` and `free` free blocks. */
  lemma StillBelow(fs: Fs, ns: seq<nat>, free: nat, i: nat, off: nat, n: nat, start: nat)
    requires fs.Shape() && i < |fs.names| && |ns| == |fs.names[i]| == NSLOTS && EndBlock(off, n) <= MAXFILE
    requires off / BSIZE <= EndBlock(off, n) && start <= fs.size && !fs.freed
    requires Bitmap.Covers(fs.base.bitmap, fs.size) && CountsFree(fs.base.bitmap, fs.size, free)
    requires Paid(ns, fs.names[i], off / BSIZE, EndBlock(off, n), free, fs.nfree)
    requires Below(Bitmap.Marks(fs.base.bitmap, fs.size), start)
    ensures Below(fs.Marks(), start) <==>
      Needed(ns, off / BSIZE, EndBlock(off, n)) <= FreeBlocks(Bitmap.Marks(fs.base.bitmap, fs.size)[..start])
  {
    BookedSo(fs.base, fs.OnDisk(), fs.size, fs.logged, fs.calls, fs.nfree, fs.freed);
    PaidAll(ns, fs.names[i], off / BSIZE, EndBlock(off, n), free, fs.nfree);
    HomeCount(fs.base.bitmap, fs.bitmap, fs.size, free, fs.nfree, start);
  }

  /** writei in a transaction of its own. */
  method WriteAlone(fs: Fs, i: nat, src: seq<byte>, off: uint) returns (r: Written)
    requires fs.Valid() && i < |fs.inodes| && |src| < U32
    modifies fs
    ensures fs.base == old(fs.OnDisk()) && !fs.freed && Bitmap.Covers(fs.base.bitmap, fs.size)
    ensures CountsFree(fs.base.bitmap, fs.size, old(fs.nfree))
    ensures r.WriteDevice? <==> old(fs.inodes)[i].kind == T_DEV
    ensures r.Count? || r.WritePanic? <==> Accepts(old(fs.inodes)[i].kind, |old(fs.files)[i]|, off, |src|)
    ensures r.Count? || r.WritePanic? ==> EndBlock(off, |src|) <= MAXFILE && off / BSIZE <= EndBlock(off, |src|)
    ensures r.Count? || r.WritePanic? ==>
      (r.WritePanic? <==> old(fs.nfree) < Needed(old(fs.names)[i], off / BSIZE, EndBlock(off, |src|)))
    ensures r.WriteDevice? || r.Refused? ==> fs.Valid() && fs.OnDisk() == old(fs.OnDisk()) && fs.logged == {}
    ensures r.WriteDevice? || r.Refused? ==> unchanged(fs`inodes) && unchanged(fs`files) && fs.calls == []
    ensures r.Count? ==> r.n == |src| && fs.Valid() && i < |fs.inodes|
    ensures r.Count? ==> fs.files == old(fs.files)[i := Splice(old(fs.files)[i], off, src)]
    ensures r.Count? ==> SameHeads(old(fs.inodes), fs.inodes)
    ensures r.Count? ==>
      Paid(old(fs.names)[i], fs.names[i], off / BSIZE, EndBlock(off, |src|), old(fs.nfree), fs.nfree)
    ensures r.Count? ==> fs.logged <= WriteSectors(fs.names[i], off, |src|, i, fs.nbitmap)
  {
    BookedSo(fs.base, fs.OnDisk(), fs.size, fs.logged, fs.calls, fs.nfree, fs.freed);
    fs.Begin();
    r := fs.Writei(i, src, off);
  }

  /** The same on a disk with a log. balloc knows nothing of the log: the blocks taken lie below it exactly when
      enough are free there. */
  method WriteHome(fs: Fs, i: nat, src: seq<byte>, off: uint, ghost start: nat) returns (r: Written)
    requires Laid(fs, start) && i < |fs.inodes| && |src| < U32
    modifies fs
    ensures fs.base == old(fs.OnDisk())
    ensures r.WriteDevice? <==> old(fs.inodes)[i].kind == T_DEV
    ensures r.Count? || r.WritePanic? <==> Accepts(old(fs.inodes)[i].kind, |old(fs.files)[i]|, off, |src|)
    ensures r.WriteDevice? || r.Refused? ==> Laid(fs, start) && fs.OnDisk() == old(fs.OnDisk()) && fs.logged == {}
    ensures r.WriteDevice? || r.Refused? ==> unchanged(fs`inodes) && unchanged(fs`files) && CallsFit(fs, start)
    ensures r.WritePanic? ==> old(fs.nfree) < Needed(old(fs.names)[i], off / BSIZE, EndBlock(off, |src|))
    ensures r.WritePanic? ==> !old(Suffices(fs, i, off, |src|, start))
    ensures r.Count? ==> old(fs.nfree) >= Needed(old(fs.names)[i], off / BSIZE, EndBlock(off, |src|))
    ensures r.Count? ==> r.n == |src| && fs.Valid() && |fs.inodes| == |old(fs.inodes)|
    ensures r.Count? || r.WritePanic? ==> EndBlock(off, |src|) <= MAXFILE
    ensures r.Count? ==> fs.files == old(fs.files)[i := Splice(old(fs.files)[i], off, src)]
    ensures r.Count? ==> SameHeads(old(fs.inodes), fs.inodes)
    ensures r.Count? ==> (Laid(fs, start) <==> old(Suffices(fs, i, off, |src|, start)))
    ensures r.Count? && Laid(fs, start) ==> CallsFit(fs, start)
    ensures r.Count? && |src| <= FileWrite.CHUNK ==> |fs.logged| <= 16 + fs.nbitmap
  {
    HomeFreeOnly(fs, start);
    r := WriteAlone(fs, i, src, off);
    if r.Count? {
      StillBelow(fs, old(fs.names)[i], old(fs.nfree), i, off, |src|, start);
      WriteCalls(fs, i, off, |src|, start);
    }
  }

  /** Types, device numbers and link counts are the same. */
  predicate SameHeads(a: seq<Inode>, b: seq<Inode>)
  {
    |a| == |b| && forall i :: 0 <= i < |a| ==> SameHead(a[i], b[i])
  }

  lemma CallsProper(calls: seq<Sector>, logged: set<Sector>, all: set<Sector>, g: Geometry, start: nat)
    requires Tracked(calls, logged) && logged <= all && forall x :: x in all ==> Proper(x, g, start)
    ensures CallsBelow(calls, g.ninodes, start) && forall x :: x in logged ==> Placed(x, g)
  {
    assert Unfold(5);
    forall k | 0 <= k < |calls| ensures Number(calls[k], g.ninodes) < start {
      assert calls[k] in logged;
    }
  }

  lemma WriteCalls(fs: Fs, i: nat, off: nat, n: nat, start: nat)
    requires fs.Valid() && i < |fs.inodes| && off + n <= MAXFILE * BSIZE
    requires fs.logged <= WriteSectors(fs.names[i], off, n, i, fs.nbitmap)
    ensures Laid(fs, start) ==> CallsFit(fs, start)
    ensures n <= FileWrite.CHUNK ==> |fs.logged| <= 16 + fs.nbitmap
  {
    BookedSo(fs.base, fs.OnDisk(), fs.size, fs.logged, fs.calls, fs.nfree, fs.freed);
    if Laid(fs, start) {
      SectorsProper(fs.names, fs.owner, fs.Marks(), Geo(fs), fs.inodes, fs.data, fs.files, i, off, n, start);
      CallsProper(fs.calls, fs.logged, WriteSectors(fs.names[i], off, n, i, fs.nbitmap), Geo(fs), start);
    }
    if n <= FileWrite.CHUNK {
      FileWrite.ChunkSectors(fs.names[i], off, n, i, fs.nbitmap);
      SubsetSize(fs.logged, WriteSectors(fs.names[i], off, n, i, fs.nbitmap));
    }
  }

  // ---------------------------------------------------------------------------
  // What is on the disk after a crash

  /** A file system laid out below the log is on the disk that it is stored on. */
  lemma LaidHolds(fs: Fs, start: nat, boot: seq<Block>)
    requires Laid(fs, start) && |boot| == 2
    ensures HasFiles(Image(fs.OnDisk(), boot, start), Geo(fs), fs.files)
  {
    StoredHolds(fs.OnDisk(), fs.names, fs.owner, Geo(fs), fs.files, start, boot);
  }

  lemma StoredHolds(st: Stored, names: Names, owner: seq<Owner>, g: Geometry, files: seq<seq<byte>>, start: nat,
                    boot: seq<Block>)
    requires HeldBy(st, names, owner, g.First(), files, start) && g.First() <= start <= g.size && |boot| == 2
    requires |st.bitmap| == g.nbitmap && |st.dinodes| == g.ninodes && |st.data| == g.size
    ensures var h := Image(st, boot, start);
      && HeldBy(Loaded(h, g), names, owner, g.First(), files, start) && Alike(Loaded(h, g), st, g.First(), start)
      && h[..2] == boot && Image(Loaded(h, g), boot, start) == h && HasFiles(h, g, files)
  {
    var h := Image(st, boot, start);
    SoundSizes(names, owner, Bitmap.Marks(st.bitmap, |st.data|), g.First(), st.dinodes, st.data, files);
    LoadedImage(st, boot, start, g);
    HeldAlike(st, Loaded(h, g), names, owner, g.First(), files, start);
    ImageAlike(Loaded(h, g), st, boot, start);
    assert h[..2] == boot;
  }

  /** How an operation over the log ends: without a panic; or with a panic of balloc or a block of the log
      taken; or with a panic of the log. */
  datatype Ending = Settled | NoRoom | LogFull

  /** The log is at rest over home sectors with a sound file system that has these files. */
  ghost predicate Rests(log: Log, l: Layout, g: Geometry, files: seq<seq<byte>>)
    reads log, log.bc, log.bc.disk
  {
    forall u: int {:trigger Unfold(u)} :: Unfold(u) && u == 0 ==>
      log.AtRest() && log.L() == l && HasFiles(Home(l, log.bc.view), g, files)
  }

  lemma LaidRests(fs: Fs, log: Log, l: Layout, boot: seq<Block>)
    requires Laid(fs, l.start) && |boot| == 2 && Over(log, l, Image(fs.OnDisk(), boot, l.start))
    ensures Rests(log, l, Geo(fs), fs.files)
  {
    LaidHolds(fs, l.start, boot);
  }

  /** The end of an operation: the transaction is recorded. `files` were the files when it began. */
  method Settle(fs: Fs, log: Log, boot: seq<Block>, crash: Option<nat>, cuts: seq<nat>, ghost l: Layout,
                ghost files: seq<seq<byte>>)
    returns (ok: bool, next: Log)
    requires Laid(fs, log.start) && CallsFit(fs, log.start) && |boot| == 2 && |fs.base.dinodes| == |fs.inodes|
    requires Over(log, l, Image(fs.base, boot, log.start)) && Rests(log, l, Geo(fs), files)
    modifies log, log.bc, log.bc.disk
    ensures next == log || (fresh(next) && fresh(next.bc) && fresh(next.bc.disk))
    ensures |fs.logged| + 1 < log.size <= LOGSIZE ==> ok
    ensures ok ==>
      && Over(next, l, Image(if Lasts(crash, |fs.logged|) then fs.OnDisk() else fs.base, boot, l.start))
      && Rests(next, l, Geo(fs), if Lasts(crash, |fs.logged|) then fs.files else files)
  {
    assert Unfold(0);
    LaidHolds(fs, log.start, boot);
    ok, next := Record(fs, log, boot, crash, cuts, l);
  }

  /** One writei over the log: the machine may stop after any sector write of the commit and of the recoveries that
      follow. It ends well exactly when the blocks below the log suffice. Then the disk holds a sound file system, in
      which all of `src` is in file `i` at `off` if the machine got past the header write and nothing has changed
      otherwise, and every other file is as it was. */
  method WriteThrough(fs: Fs, log: Log, i: nat, src: seq<byte>, off: uint, boot: seq<Block>, crash: Option<nat>,
                      cuts: seq<nat>, ghost l: Layout)
    returns (r: Written, how: Ending, next: Log)
    requires Laid(fs, log.start) && i < |fs.inodes| && |src| < U32 && |boot| == 2
    requires Over(log, l, Image(fs.OnDisk(), boot, log.start))
    modifies fs, log, log.bc, log.bc.disk
    ensures next == log || (fresh(next) && fresh(next.bc) && fresh(next.bc.disk))
    ensures r.WriteDevice? <==> old(fs.inodes)[i].kind == T_DEV
    ensures r.Count? || r.WritePanic? <==> Accepts(old(fs.inodes)[i].kind, |old(fs.files)[i]|, off, |src|)
    ensures r.Count? ==> r.n == |src|
    ensures how.NoRoom? <==> (r.Count? || r.WritePanic?) && !old(Suffices(fs, i, off, |src|, log.start))
    ensures how.NoRoom? ==> next == log && unchanged(log) && unchanged(log.bc) && unchanged(log.bc.disk)
    ensures |src| <= FileWrite.CHUNK && fs.nbitmap <= 12 && log.size == LOGSIZE ==> !how.LogFull?
    ensures how.Settled? ==> !r.WritePanic? && Laid(fs, l.start) && |fs.inodes| == |old(fs.inodes)|
    ensures how.Settled? ==> SameHeads(old(fs.inodes), fs.inodes)
    ensures how.Settled? ==>
      fs.files == if r.Count? then old(fs.files)[i := Splice(old(fs.files)[i], off, src)] else old(fs.files)
    ensures how.Settled? ==>
      |fs.logged| <= (if !r.Count? then 0 else if |src| <= FileWrite.CHUNK then 16 + fs.nbitmap else |fs.logged|)
    ensures how.Settled? ==>
      && Over(next, l, Image(if Lasts(crash, |fs.logged|) then fs.OnDisk() else old(fs.OnDisk()), boot, l.start))
      && Rests(next, l, Geo(fs), if Lasts(crash, |fs.logged|) then fs.files else old(fs.files))
  {
    LaidRests(fs, log, l, boot);
    next := log;
    r := WriteHome(fs, i, src, off, log.start);
    if r.WritePanic? || !Below(Bitmap.Marks(fs.bitmap, fs.size), log.start) {
      how := NoRoom;
      return;
    }
    var ok;
    ok, next := Settle(fs, log, boot, crash, cuts, l, old(fs.files));
    how := if ok then Settled else LogFull;
  }

  // ---------------------------------------------------------------------------
  // itrunc

  lemma TruncCalls(fs: Fs, i: nat, start: nat)
    requires Laid(fs, start) && i < |fs.inodes| && Tracked(fs.calls, fs.logged)
    requires fs.logged <= Bitmaps(fs.nbitmap) + {InodesAt(i / IPB)}
    ensures CallsFit(fs, start) && |fs.logged| <= fs.nbitmap + 1
  {
    var all := Bitmaps(fs.nbitmap) + {InodesAt(i / IPB)};
    BitmapsProper(fs.nbitmap, Geo(fs), start);
    assert Proper(InodesAt(i / IPB), Geo(fs), start);
    CallsProper(fs.calls, fs.logged, all, Geo(fs), start);
    FileWrite.BitmapsSize(fs.nbitmap);
    SubsetSize(fs.logged, all);
  }

  /** itrunc in a transaction of its own: all its calls of log_write are on home sectors. */
  method TruncHome(fs: Fs, i: nat, ghost start: nat)
    requires Laid(fs, start) && i < |fs.inodes|
    modifies fs
    ensures fs.base == old(fs.OnDisk()) && Laid(fs, start) && CallsFit(fs, start) && |fs.logged| <= fs.nbitmap + 1
    ensures fs.files == old(fs.files)[i := []] && SameHeads(old(fs.inodes), fs.inodes)
  {
    fs.Begin();
    ghost var marks := fs.Marks();
    var ok := fs.Itrunc(i);
    BookedSo(fs.base, fs.OnDisk(), fs.size, fs.logged, fs.calls, fs.nfree, fs.freed);
    TruncCalls(fs, i, start);
  }

  /** One itrunc over the log: in the end the disk holds a sound file system in which file `i` is empty if the machine
      got past the header write and as before otherwise, and every other file is as it was. */
  method TruncThrough(fs: Fs, log: Log, i: nat, boot: seq<Block>, crash: Option<nat>, cuts: seq<nat>, ghost l: Layout)
    returns (ok: bool, next: Log)
    requires Laid(fs, log.start) && i < |fs.inodes| && |boot| == 2
    requires Over(log, l, Image(fs.OnDisk(), boot, log.start))
    modifies fs, log, log.bc, log.bc.disk
    ensures next == log || (fresh(next) && fresh(next.bc) && fresh(next.bc.disk))
    ensures fs.nbitmap + 2 < log.size <= LOGSIZE ==> ok
    ensures Laid(fs, l.start) && fs.files == old(fs.files)[i := []] && |fs.inodes| == |old(fs.inodes)|
    ensures SameHeads(old(fs.inodes), fs.inodes) && |fs.logged| <= fs.nbitmap + 1
    ensures ok ==>
      && Over(next, l, Image(if Lasts(crash, |fs.logged|) then fs.OnDisk() else old(fs.OnDisk()), boot, l.start))
      && Rests(next, l, Geo(fs), if Lasts(crash, |fs.logged|) then fs.files else old(fs.files))
  {
    LaidRests(fs, log, l, boot);
    TruncHome(fs, i, log.start);
    ok, next := Settle(fs, log, boot, crash, cuts, l, old(fs.files));
  }

  // ---------------------------------------------------------------------------
  // A write that runs into the log

  lemma {:induction false} FreeAbove(marks: seq<bool>, first: nat)
    requires first <= |marks| && forall b :: 0 <= b < |marks| ==> (marks[b] <==> b < first)
    ensures FreeBlocks(marks) == |marks| - first
  {
    if first == |marks| {
      FreeNone(marks);
    } else {
      FreeAbove(marks[..|marks| - 1], first);
    }
  }

  lemma {:induction false} DirectNeeded(ns: seq<nat>, k: nat)
    requires ns == NoNames() && k <= NDIRECT
    ensures Needed(ns, 0, k) == k
  {
    if k > 0 {
      DirectNeeded(ns, k - 1);
    }
  }

  /** On an empty disk of 40 blocks with the log from block 10 on, a file of seven blocks takes a block of the log. */
  method TakesLogBlock() returns (fs: Fs, r: Written)
    ensures fs.Valid() && r == Count(7 * BSIZE) && !Below(fs.Marks(), 10)
  {
    fs := new Fs(40, 4, 1);
    FreeAbove(fs.Marks(), 4);
    FreeAbove(fs.Marks()[..10], 4);
    DirectNeeded(fs.names[0], 7);
    assert fs.nfree == 36 by {
      BookedSo(fs.base, fs.OnDisk(), fs.size, fs.logged, fs.calls, fs.nfree, fs.freed);
      assert Unfold(7);
    }
    r := WriteHome(fs, 0, seq(7 * BSIZE, k => 0), 0, 10);
  }
}
