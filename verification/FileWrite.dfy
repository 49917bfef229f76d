/** filewrite of file.c: a long write is cut into chunks, one log transaction each. */
module FileWrite {
  import opened Common
  import opened Bytes
  import opened BlockMap
  import opened Fs
  import LogCrash
  import LogAdmission

  /** ((LOGSIZE-1-1-2) / 2) * 512 bytes. */
  const CHUNK := (LogCrash.LOGSIZE - 1 - 1 - 2) / 2 * 512

  /** An open file on an inode. */
  class File {
    var ip: nat
    var off: uint
    var writable: bool

    constructor (ip: nat, off: uint, writable: bool)
      ensures this.ip == ip && this.off == off && this.writable == writable
    {
      this.ip, this.off, this.writable := ip, off, writable;
    }
  }

  datatype Outcome = Done | Failed | Device | Panic

  // ---------------------------------------------------------------------------
  // How many sectors a chunk records

  lemma {:induction false} BitmapsSize(n: nat)
    ensures |Bitmaps(n)| <= n
  {
    if n > 0 {
      BitmapsSize(n - 1);
    }
  }

  lemma {:induction false} DataSectorsSize(ns: seq<nat>, lo: nat, hi: nat)
    requires |ns| == NSLOTS && lo <= hi <= MAXFILE
    ensures |DataSectors(ns, lo, hi)| <= hi - lo
  {
    if lo < hi {
      DataSectorsSize(ns, lo, hi - 1);
    }
  }

  /** So one chunk records at most 14 data blocks, an indirect block, an inode block and the bitmap. */
  lemma ChunkSectors(ns: seq<nat>, off: nat, n: nat, i: nat, nb: nat)
    requires |ns| == NSLOTS && off + n <= MAXFILE * BSIZE && n <= CHUNK
    ensures |WriteSectors(ns, off, n, i, nb)| <= 16 + nb
  {
    BitmapsSize(nb);
    DataSectorsSize(ns, off / BSIZE, EndBlock(off, n));
  }

  /** The calls as log_write sees them, under a numbering of the sectors. */
  ghost function Numbered(calls: seq<Sector>, number: Sector -> nat): (ws: seq<nat>)
  {
    seq(|calls|, k requires 0 <= k < |calls| => number(calls[k]))
  }

  /** Process `p` has just begun an operation, and no other is open, in a log region of LOGSIZE blocks. */
  predicate AloneInLog(s: LogAdmission.State, p: nat)
  {
    && p < |s.ps| && s.ps[p].Open? && !s.panicked && s.outstanding == 1 && s.lh == []
    && s.size == LogCrash.LOGSIZE
  }

  /** However the sectors are numbered, the calls made by an operation alone in its transaction never reach
      the panic "too big a transaction". */
  ghost predicate NeverTooBig(calls: seq<Sector>)
  {
    forall number: Sector -> nat, s: LogAdmission.State, p: nat :: AloneInLog(s, p) ==>
      !LogAdmission.Exec(s, LogAdmission.Writes(p, Numbered(calls, number))).panicked
  }

  lemma {:induction false} ImageSize(a: set<Sector>, number: Sector -> nat)
    ensures |set x | x in a :: number(x)| <= |a|
    decreases a
  {
    if x :| x in a {
      var image := set y | y in a :: number(y);
      var rest := set y | y in a - {x} :: number(y);
      ImageSize(a - {x}, number);
      assert image == rest + {number(x)};
    }
  }

  /** Fewer sectors than the log holds never do. */
  lemma FewSectorsFit(calls: seq<Sector>, logged: set<Sector>)
    requires Tracked(calls, logged) && |logged| < LogCrash.LOGSIZE - 1
    ensures NeverTooBig(calls)
  {
    assert Unfold(5);
    forall number: Sector -> nat, s: LogAdmission.State, p: nat | AloneInLog(s, p)
      ensures !LogAdmission.Exec(s, LogAdmission.Writes(p, Numbered(calls, number))).panicked
    {
      ImageSize(logged, number);
      LogAdmission.LoneOperation(s, p, Numbered(calls, number), set x | x in logged :: number(x));
    }
  }

  // ---------------------------------------------------------------------------
  // The loop

  /** What a chunk passes to log_write: few sectors, which never overflow a transaction of their own when the
      bitmap has up to 12 blocks. */
  ghost predicate FitsLog(calls: seq<Sector>, logged: set<Sector>, nb: nat)
  {
    forall u: int {:trigger Unfold(u)} :: Unfold(u) && u == 13 ==>
      Tracked(calls, logged) && |logged| <= 16 + nb && (nb <= 12 ==> NeverTooBig(calls))
  }

  lemma ChunkFits(calls: seq<Sector>, logged: set<Sector>, ns: seq<nat>, off: nat, n: nat, i: nat, nb: nat)
    requires |ns| == NSLOTS && off + n <= MAXFILE * BSIZE && n <= CHUNK && Tracked(calls, logged)
    requires logged <= WriteSectors(ns, off, n, i, nb)
    ensures FitsLog(calls, logged, nb)
  {
    ChunkSectors(ns, off, n, i, nb);
    SubsetSize(logged, WriteSectors(ns, off, n, i, nb));
    if nb <= 12 {
      FewSectorsFit(calls, logged);
    }
  }

  /** `f` free blocks do not suffice for `n` bytes at `off`. */
  ghost predicate TooFew(ns: seq<nat>, off: nat, n: nat, f: nat)
  {
    forall u: int {:trigger Unfold(u)} :: Unfold(u) && u == 12 ==>
      |ns| == NSLOTS && EndBlock(off, n) <= MAXFILE && f < Needed(ns, off / BSIZE, EndBlock(off, n))
  }

  /** What a chunk does: `piece` goes into file `ip` at `off`, nothing else changes, and the free blocks become
      fewer by those needed. */
  ghost predicate Chunked(files: seq<seq<byte>>, after: seq<seq<byte>>, ns: seq<nat>, ms: seq<nat>, ip: nat, off: nat,
                          piece: seq<byte>, f: nat, g: nat)
  {
    forall u: int {:trigger Unfold(u)} :: Unfold(u) && u == 11 ==>
      && ip < |files| && off <= |files[ip]| && off + |piece| <= MAXFILE * BSIZE && |ns| == |ms| == NSLOTS
      && after == files[ip := Splice(files[ip], off, piece)]
      && Paid(ns, ms, off / BSIZE, EndBlock(off, |piece|), f, g)
      && 0 < EndBlock(off, |piece|) <= MAXFILE && ms[SlotOf(EndBlock(off, |piece|) - 1)] != 0
  }

  /** One transaction of filewrite. */
  method Chunk(fs: Fs, f: File, piece: seq<byte>) returns (r: Written)
    requires fs.Valid() && f.ip < |fs.inodes| && 0 < |piece| <= CHUNK
    modifies fs, f`off
    ensures r.WriteDevice? <==> old(fs.inodes)[f.ip].kind == T_DEV
    ensures r.Refused? <==>
      && old(fs.inodes)[f.ip].kind != T_DEV
      && (old(f.off) > |old(fs.files)[f.ip]| || old(f.off) + |piece| > MAXFILE * BSIZE)
    ensures r.WriteDevice? || r.Refused? ==>
      fs.Valid() && fs.inodes == old(fs.inodes) && Here(fs, f) == old(Here(fs, f))
    ensures r.WritePanic? ==> fs.Shape() && fs.Full() && TooFew(old(fs.names)[f.ip], old(f.off), |piece|, old(fs.nfree))
    ensures r.Count? ==> fs.Valid() && r.n == |piece| && f.off == old(f.off) + |piece|
    ensures r.Count? ==> |fs.inodes| == |old(fs.inodes)| && fs.inodes[f.ip].kind == old(fs.inodes)[f.ip].kind
    ensures r.Count? ==> Chunked(old(fs.files), fs.files, old(fs.names)[f.ip], fs.names[f.ip], f.ip, old(f.off), piece,
                                 old(fs.nfree), fs.nfree)
    ensures r.Count? ==> FitsLog(fs.calls, fs.logged, fs.nbitmap)
  {
    fs.Begin();
    r := fs.Writei(f.ip, piece, f.off);
    if r.Count? {
      BookedSo(fs.base, fs.OnDisk(), fs.size, fs.logged, fs.calls, fs.nfree, fs.freed);
      ChunkFits(fs.calls, fs.logged, fs.names[f.ip], f.off, |piece|, f.ip, fs.nbitmap);
      if r.n > 0 {
        f.off := f.off + r.n;
      }
    }
  }

  /** The first `i` bytes of `src` have gone into file `ip` at `off`, and nothing else has changed. */
  ghost predicate Through(before: seq<seq<byte>>, files: seq<seq<byte>>, ip: nat, off: nat, src: seq<byte>, i: nat)
  {
    && ip < |before| && i <= |src|
    && if i == 0 then files == before else
         off <= |before[ip]| && off + i <= MAXFILE * BSIZE && files == before[ip := Splice(before[ip], off, src[..i])]
  }

  lemma ThroughMore(before: seq<seq<byte>>, files: seq<seq<byte>>, after: seq<seq<byte>>, ip: nat, off: nat,
                    src: seq<byte>, i: nat, n: nat)
    requires Through(before, files, ip, off, src, i) && i + n <= |src| && 0 < n && |files| == |before|
    requires off + i <= |files[ip]| && off + i + n <= MAXFILE * BSIZE
    requires after == files[ip := Splice(files[ip], off + i, src[i..i + n])]
    ensures Through(before, after, ip, off, src, i + n)
  {
    SpliceChunk(before[ip], off, src, i, n);
  }

  /** The loop of filewrite after `i` bytes: what has been written, and what it has cost. */
  ghost predicate Sent(before: seq<seq<byte>>, files: seq<seq<byte>>, ns0: seq<nat>, ns: seq<nat>, ip: nat, off: nat,
                       src: seq<byte>, i: nat, f0: nat, f: nat)
  {
    forall u: int {:trigger Unfold(u)} :: Unfold(u) && u == 10 ==>
      && Through(before, files, ip, off, src, i) && |files| == |before| && |ns0| == |ns| == NSLOTS
      && (i == 0 ==> ns == ns0 && f == f0)
      && (i > 0 ==> var mid := EndBlock(off, i);
           mid <= MAXFILE && ns[SlotOf(mid - 1)] != 0 && Paid(ns0, ns, off / BSIZE, mid, f0, f))
  }

  lemma SentNothing(files: seq<seq<byte>>, ns: seq<nat>, ip: nat, off: nat, src: seq<byte>, f: nat)
    requires ip < |files| && |ns| == NSLOTS
    ensures Sent(files, files, ns, ns, ip, off, src, 0, f, f)
  {
  }

  /** One more chunk. */
  lemma SentMore(before: seq<seq<byte>>, files: seq<seq<byte>>, after: seq<seq<byte>>, ns0: seq<nat>, ns: seq<nat>,
                 ms: seq<nat>, ip: nat, off: nat, src: seq<byte>, i: nat, n: nat, f0: nat, f: nat, g: nat)
    requires Sent(before, files, ns0, ns, ip, off, src, i, f0, f) && 0 < n && i + n <= |src|
    requires Chunked(files, after, ns, ms, ip, off + i, src[i..i + n], f, g)
    ensures Sent(before, after, ns0, ms, ip, off, src, i + n, f0, g)
    ensures ip < |after| && off + i + n <= |after[ip]| && off + i + n <= MAXFILE * BSIZE
  {
    assert Unfold(10);
    assert Unfold(11);
    ThroughMore(before, files, after, ip, off, src, i, n);
    if i > 0 {
      NextChunk(off, i, n);
      PaidTwice(ns0, ns, ms, off / BSIZE, EndBlock(off, i), (off + i) / BSIZE, EndBlock(off, i + n), f0, f, g);
    }
  }

  /** A chunk starts in the file block after the last one, or in that one again. */
  lemma NextChunk(off: nat, i: nat, n: nat)
    requires 0 < i && 0 < n
    ensures EndBlock(off + i, n) == EndBlock(off, i + n) && off / BSIZE <= (off + i) / BSIZE < EndBlock(off, i + n)
    ensures (off + i) / BSIZE == EndBlock(off, i) || (off + i) / BSIZE + 1 == EndBlock(off, i)
    ensures EndBlock(off, i) <= EndBlock(off, i + n)
  {
  }

  /** The blocks run out in a chunk if and only if they do not suffice for the whole. */
  lemma SentShort(before: seq<seq<byte>>, files: seq<seq<byte>>, ns0: seq<nat>, ns: seq<nat>, ip: nat, off: nat,
                  src: seq<byte>, i: nat, m: nat, n: nat, f0: nat, f: nat)
    requires Sent(before, files, ns0, ns, ip, off, src, i, f0, f) && 0 < m && i + m <= n && off + n <= MAXFILE * BSIZE
    requires TooFew(ns, off + i, m, f)
    ensures TooFew(ns0, off, n, f0)
  {
    assert Unfold(10);
    assert Unfold(12);
    var end := EndBlock(off, i + m);
    if i > 0 {
      NextChunk(off, i, m);
      PaidRest(ns0, ns, off / BSIZE, EndBlock(off, i), (off + i) / BSIZE, end, f0, f);
      PaidAll(ns0, ns, off / BSIZE, EndBlock(off, i), f0, f);
    }
    NeededGrows(ns0, off / BSIZE, end, EndBlock(off, n));
  }

  lemma SentSo(before: seq<seq<byte>>, files: seq<seq<byte>>, ns0: seq<nat>, ns: seq<nat>, ip: nat, off: nat,
               src: seq<byte>, i: nat, f0: nat, f: nat)
    requires Sent(before, files, ns0, ns, ip, off, src, i, f0, f)
    ensures Through(before, files, ip, off, src, i)
  {
    assert Unfold(10);
  }

  lemma SentAll(before: seq<seq<byte>>, files: seq<seq<byte>>, ns0: seq<nat>, ns: seq<nat>, ip: nat, off: nat,
                src: seq<byte>, i: nat, f0: nat, f: nat)
    requires Sent(before, files, ns0, ns, ip, off, src, i, f0, f)
    ensures Through(before, files, ip, off, src, i) && |ns0| == NSLOTS
    ensures off + i <= MAXFILE * BSIZE ==> f0 >= Needed(ns0, off / BSIZE, EndBlock(off, i))
  {
    assert Unfold(10);
    if i > 0 {
      PaidAll(ns0, ns, off / BSIZE, EndBlock(off, i), f0, f);
    }
  }

  /** What filewrite depends on: the files, and of its own file the block names, the kind and the offset. */
  datatype Place = Place(files: seq<seq<byte>>, ns: seq<nat>, nfree: nat, kind: int, off: nat)

  ghost function Here(fs: Fs, f: File): (a: Place)
    reads fs, f
    requires f.ip < |fs.inodes| && f.ip < |fs.names|
  {
    Place(fs.files, fs.names[f.ip], fs.nfree, fs.inodes[f.ip].kind, f.off)
  }

  ghost predicate Going(was: Place, now: Place, ip: nat, src: seq<byte>, i: nat)
  {
    && now.off == was.off + i && now.kind == was.kind
    && (if i == 0 then now.files == was.files
        else was.kind != T_DEV && ip < |now.files| && now.off <= |now.files[ip]| && now.off <= MAXFILE * BSIZE)
    && Sent(was.files, now.files, was.ns, now.ns, ip, was.off, src, i, was.nfree, now.nfree)
  }

  /** How filewrite ends, with `n` bytes asked for and `i` written. */
  ghost predicate Ended(was: Place, now: Place, ip: nat, src: seq<byte>, n: nat, r: Outcome, i: nat)
  {
    forall u: int {:trigger Unfold(u)} :: Unfold(u) && u == 14 ==>
      && (r.Done? ==> i == n) && (r.Failed? ==> i < n) && ip < |was.files|
      && (r.Done? || r.Failed? ==> now.off == was.off + i && Through(was.files, now.files, ip, was.off, src, i))
      && (r.Failed? ==> was.off > |was.files[ip]| || was.off + n > MAXFILE * BSIZE)
      && (r.Device? ==> was.kind == T_DEV)
      && (Fits(true, was.kind, n, was.off, |was.files[ip]|) ==> Decided(was.ns, was.off, n, was.nfree, r))
  }

  /** A write that is not refused succeeds if and only if there are enough free blocks. */
  ghost predicate Decided(ns: seq<nat>, off: nat, n: nat, f: nat, r: Outcome)
  {
    && |ns| == NSLOTS && EndBlock(off, n) <= MAXFILE
    && r == if f < Needed(ns, off / BSIZE, EndBlock(off, n)) then Panic else Done
  }

  /** A chunk that is not written ends the loop. */
  lemma EndedBy(was: Place, a: Place, ip: nat, src: seq<byte>, n: nat, i: nat, m: nat, w: Written)
    requires Going(was, a, ip, src, i) && 0 < m && i + m <= n <= |src| && ip < |a.files| && !w.Count?
    requires w.WriteDevice? ==> a.kind == T_DEV
    requires w.Refused? ==> a.off > |a.files[ip]| || a.off + m > MAXFILE * BSIZE
    requires w.WritePanic? ==> TooFew(a.ns, a.off, m, a.nfree)
    ensures Ended(was, a, ip, src, n, Verdict(w), i)
  {
    SentSo(was.files, a.files, was.ns, a.ns, ip, was.off, src, i, was.nfree, a.nfree);
    if w.WritePanic? && was.off + n <= MAXFILE * BSIZE {
      SentShort(was.files, a.files, was.ns, a.ns, ip, was.off, src, i, m, n, was.nfree, a.nfree);
    }
    assert Unfold(12);
  }

  function Verdict(w: Written): (r: Outcome)
    requires !w.Count?
  {
    if w.WritePanic? then Panic else if w.Refused? then Failed else Device
  }

  lemma GoneOn(was: Place, a: Place, b: Place, ip: nat, src: seq<byte>, i: nat, m: nat)
    requires Going(was, a, ip, src, i) && 0 < m && i + m <= |src|
    requires a.kind != T_DEV && b.kind == a.kind && b.off == a.off + m
    requires Chunked(a.files, b.files, a.ns, b.ns, ip, a.off, src[i..i + m], a.nfree, b.nfree)
    ensures Going(was, b, ip, src, i + m)
  {
    SentMore(was.files, a.files, b.files, was.ns, a.ns, b.ns, ip, was.off, src, i, m, was.nfree, a.nfree, b.nfree);
  }

  lemma EndedDone(was: Place, now: Place, ip: nat, src: seq<byte>, n: nat)
    requires Going(was, now, ip, src, n)
    ensures Ended(was, now, ip, src, n, Done, n)
  {
    SentAll(was.files, now.files, was.ns, now.ns, ip, was.off, src, n, was.nfree, now.nfree);
  }

  /** One turn of the loop of filewrite. */
  method Step(fs: Fs, f: File, src: seq<byte>, n: nat, i: nat, ghost was: Place) returns (w: Written)
    requires fs.Valid() && f.ip < |fs.inodes| && i < n <= |src| < U32 / 2 && Going(was, Here(fs, f), f.ip, src, i)
    modifies fs, f`off
    ensures if w.WritePanic? then fs.Shape() && fs.Full() else fs.Valid() && |fs.inodes| == |old(fs.inodes)|
    ensures w.Count? ==> 0 < w.n <= n - i && Going(was, Here(fs, f), f.ip, src, i + w.n)
    ensures w.WritePanic? ==> Ended(was, old(Here(fs, f)), f.ip, src, n, Panic, i)
    ensures !w.WritePanic? && !w.Count? ==> Ended(was, Here(fs, f), f.ip, src, n, Verdict(w), i)
  {
    var n1 := if n - i > CHUNK then CHUNK else n - i;
    ghost var a := Here(fs, f);
    w := Chunk(fs, f, src[i..i + n1]);
    if w.Count? {
      GoneOn(was, a, Here(fs, f), f.ip, src, i, n1);
    } else {
      EndedBy(was, a, f.ip, src, n, i, n1, w);
    }
  }

  /** The loop of filewrite. */
  method WriteAll(fs: Fs, f: File, src: seq<byte>, n: nat) returns (r: Outcome, i: nat)
    requires fs.Valid() && f.ip < |fs.inodes| && n <= |src| < U32 / 2
    modifies fs, f`off
    ensures if r.Panic? then fs.Shape() && fs.Full() else fs.Valid() && |fs.inodes| == |old(fs.inodes)|
    ensures r.Panic? ==> exists now :: Ended(old(Here(fs, f)), now, f.ip, src, n, r, i)
    ensures !r.Panic? ==> Ended(old(Here(fs, f)), Here(fs, f), f.ip, src, n, r, i)
  {
    i := 0;
    ghost var was := Here(fs, f);
    SentNothing(was.files, was.ns, f.ip, f.off, src, fs.nfree);
    while i < n
      invariant 0 <= i <= n && fs.Valid() && |fs.inodes| == |old(fs.inodes)|
      invariant Going(was, Here(fs, f), f.ip, src, i)
    {
      var w := Step(fs, f, src, n, i, was);
      match w {
        case Refused =>
          return Failed, i;
        case WriteDevice =>
          return Device, i;
        case WritePanic =>
          return Panic, i;
        case Count(m) =>
          i := i + m;
      }
    }
    EndedDone(was, Here(fs, f), f.ip, src, n);
    r := Done;
  }

  /** Write the first `n` bytes of `src` through `f`; `i` is how many have been written. */
  method Filewrite(fs: Fs, f: File, src: seq<byte>, n: int) returns (r: Outcome, i: nat)
    requires fs.Valid() && f.ip < |fs.inodes| && n <= |src| < U32 / 2
    modifies fs, f`off
    ensures r.Done? ==> f.writable && i == n
    ensures r.Done? || r.Failed? ==> fs.Valid() && f.off == old(f.off) + i
    ensures r.Done? || r.Failed? ==> Through(old(fs.files), fs.files, f.ip, old(f.off), src, i)
    ensures r.Failed? && f.writable && n >= 0 ==> i < n
    ensures r.Failed? && f.writable && n > 0 ==> old(f.off) > |old(fs.files)[f.ip]| || old(f.off) + n > MAXFILE * BSIZE
    ensures r.Panic? ==> fs.Shape() && fs.Full()
    ensures r.Device? ==> old(fs.inodes)[f.ip].kind == T_DEV
    ensures Fits(f.writable, old(fs.inodes)[f.ip].kind, n, old(f.off), |old(fs.files)[f.ip]|) ==>
      Decided(old(fs.names)[f.ip], old(f.off), n, old(fs.nfree), r)
  {
    if !f.writable {
      return Failed, 0;
    }
    if n < 0 {
      // the loop is not entered, and i != n
      return Failed, 0;
    }
    r, i := WriteAll(fs, f, src, n);
    assert Unfold(14);
  }

  /** A write that is not refused. */
  predicate Fits(writable: bool, kind: int, n: int, off: nat, size: nat)
  {
    writable && kind != T_DEV && 0 <= n && off <= size && off + n <= MAXFILE * BSIZE
  }

  lemma SpliceChunk(c: seq<byte>, off: nat, src: seq<byte>, i: nat, n: nat)
    requires off <= |c| && i + n <= |src|
    ensures Splice(Splice(c, off, src[..i]), off + i, src[i..i + n]) == Splice(c, off, src[..i + n])
    ensures Splice(c, off, src[..0]) == c
  {
    SpliceTwice(c, off, src[..i], src[i..i + n]);
    assert src[..i] + src[i..i + n] == src[..i + n];
  }
}
