/** The ring buffer of pipe.c. Each method is one stretch of code between taking the pipe's lock and giving
    it up, by returning or by going to sleep. */
module Pipe {
  import opened Bytes
  import opened Common

  const PIPESIZE := 512

  /** How a stretch of pipewrite ends: all written, asleep because the pipe is full, or -1. */
  datatype Put = Written | WriterSleeps | WriteFails

  /** How a stretch of piperead ends: with the bytes read, asleep because the pipe is empty, or -1. */
  datatype Get = Read(s: seq<byte>) | ReaderSleeps | ReadFails

  // ---------------------------------------------------------------------------
  // A pipe as a bounded queue

  /** The bytes in the pipe, oldest first, and which ends are open. */
  datatype Queue = Queue(bytes: seq<byte>, readopen: bool, writeopen: bool)

  /** A stretch of pipewrite with the bytes `addr` still to store, one of piperead, and pipeclose. */
  datatype Op = Write(addr: seq<byte>, killed: bool) | Reading(n: int, killed: bool) | Close(writable: bool)

  /** The answer to an operation: `n` bytes stored, bytes read, or nothing. */
  datatype Answer = Stores(n: nat, put: Put) | Reads(get: Get) | Closes

  function Least(a: nat, b: nat): (r: nat)
  {
    if a <= b then a else b
  }

  /** How many of the bytes go in, and how many a read of `n` takes out. */
  function Room(q: Queue, addr: seq<byte>): (m: nat)
    ensures m <= |addr|
  {
    Least(|addr|, if |q.bytes| <= PIPESIZE then PIPESIZE - |q.bytes| else 0)
  }

  function Taking(q: Queue, n: int): (m: nat)
    ensures m <= |q.bytes|
  {
    Least(if n < 0 then 0 else n, |q.bytes|)
  }

  function Answered(q: Queue, op: Op): (a: Answer)
  {
    match op
    case Write(addr, killed) =>
      var m := Room(q, addr);
      Stores(m, if m == |addr| then Written else if !q.readopen || killed then WriteFails else WriterSleeps)
    case Reading(n, killed) =>
      Reads(if q.bytes == [] && q.writeopen then (if killed then ReadFails else ReaderSleeps)
            else Read(q.bytes[..Taking(q, n)]))
    case Close(_) => Closes
  }

  function After(q: Queue, op: Op): (r: Queue)
  {
    match op
    case Write(addr, _) => q.(bytes := q.bytes + addr[..Room(q, addr)])
    case Reading(n, _) => q.(bytes := q.bytes[Taking(q, n)..])
    case Close(writable) => if writable then q.(writeopen := false) else q.(readopen := false)
  }

  /** The queue after the operations, the answers it gives, and the bytes that went in and came out on the way. */
  function Ran(q: Queue, ops: seq<Op>): (r: Queue)
  {
    if ops == [] then q else After(Ran(q, ops[..|ops| - 1]), ops[|ops| - 1])
  }

  function Answers(q: Queue, ops: seq<Op>): (r: seq<Answer>)
    ensures |r| == |ops|
  {
    if ops == [] then []
    else Answers(q, ops[..|ops| - 1]) + [Answered(Ran(q, ops[..|ops| - 1]), ops[|ops| - 1])]
  }

  function In(op: Op, a: Answer): (s: seq<byte>)
  {
    if op.Write? && a.Stores? && a.n <= |op.addr| then op.addr[..a.n] else []
  }

  function Out(a: Answer): (s: seq<byte>)
  {
    if a.Reads? && a.get.Read? then a.get.s else []
  }

  function AllIn(ops: seq<Op>, answers: seq<Answer>): (s: seq<byte>)
    requires |ops| == |answers|
  {
    if ops == [] then []
    else AllIn(ops[..|ops| - 1], answers[..|ops| - 1]) + In(ops[|ops| - 1], answers[|ops| - 1])
  }

  function AllOut(answers: seq<Answer>): (s: seq<byte>)
  {
    if answers == [] then [] else AllOut(answers[..|answers| - 1]) + Out(answers[|answers| - 1])
  }

  /** First in, first out: what was in the pipe, followed by all that the writers have put in, is all that the
      readers have got, followed by what is still there, which is never too much. */
  lemma {:induction false} FirstInFirstOut(q: Queue, ops: seq<Op>)
    requires |q.bytes| <= PIPESIZE
    ensures q.bytes + AllIn(ops, Answers(q, ops)) == AllOut(Answers(q, ops)) + Ran(q, ops).bytes
    ensures |Ran(q, ops).bytes| <= PIPESIZE
  {
    if ops == [] {
      assert AllIn(ops, []) == [] && AllOut([]) == [];
    } else {
      var n := |ops| - 1;
      var ans, before := Answers(q, ops), Ran(q, ops[..n]);
      FirstInFirstOut(q, ops[..n]);
      assert ans[..n] == Answers(q, ops[..n]) && ans[n] == Answered(before, ops[n]);
      OneInOneOut(before, ops[n]);
      Chained(q.bytes, AllIn(ops[..n], ans[..n]), AllOut(ans[..n]), before.bytes, In(ops[n], ans[n]), Out(ans[n]),
              Ran(q, ops).bytes);
    }
  }

  lemma OneInOneOut(q: Queue, op: Op)
    requires |q.bytes| <= PIPESIZE
    ensures q.bytes + In(op, Answered(q, op)) == Out(Answered(q, op)) + After(q, op).bytes
    ensures |After(q, op).bytes| <= PIPESIZE
  {
  }

  lemma Chained(q: seq<byte>, before: seq<byte>, got: seq<byte>, b: seq<byte>, more: seq<byte>, next: seq<byte>,
                c: seq<byte>)
    requires q + before == got + b && b + more == next + c
    ensures q + (before + more) == got + next + c
  {
    assert q + (before + more) == q + before + more == got + b + more == got + (b + more);
  }

  // ---------------------------------------------------------------------------
  // The ring buffer

  class Pipe {
    const data: array<byte>
    var nread: uint
    var nwrite: uint
    var readopen: bool
    var writeopen: bool
    /** All bytes ever stored, and all ever fetched. */
    ghost var written: seq<byte>
    ghost var taken: seq<byte>

    constructor ()
      ensures Valid() && fresh(data) && written == [] && taken == [] && readopen && writeopen
    {
      data := new byte[PIPESIZE];
      nread, nwrite, readopen, writeopen := 0, 0, true, true;
      written, taken := [], [];
    }

    /** The counters count modulo 2^32; the bytes fetched are the first ones stored; the buffer holds the
        rest, which is never more than PIPESIZE. */
    ghost predicate Valid()
      reads this, data
    {
      && data.Length == PIPESIZE
      && |taken| <= |written| <= |taken| + PIPESIZE
      && nread == |taken| % U32 && nwrite == |written| % U32
      && taken == written[..|taken|]
      && forall k :: |taken| <= k < |written| ==> data[k % PIPESIZE] == written[k]
    }

    /** The wrapping difference of the counters is the number of bytes buffered. */
    lemma Buffered()
      requires Valid()
      ensures (nwrite - nread) % U32 == |written| - |taken| <= PIPESIZE
      ensures nwrite == (nread + PIPESIZE) % U32 <==> |written| == |taken| + PIPESIZE
      ensures nread == nwrite <==> |written| == |taken|
    {
      Wraps(|written|, |taken|);
    }

    /** Store one byte. */
    method Store(b: byte)
      requires Valid() && |written| < |taken| + PIPESIZE
      modifies this`nwrite, this`written, data
      ensures Valid() && written == old(written) + [b]
    {
      Slot(|written|);
      Apart(|taken|, |written|);
      data[nwrite % PIPESIZE] := b;
      nwrite := (nwrite + 1) % U32;
      written := written + [b];
    }

    /** Fetch one byte. */
    method Fetch() returns (b: byte)
      requires Valid() && |taken| < |written|
      modifies this`nread, this`taken
      ensures Valid() && b == written[|old(taken)|] && taken == old(taken) + [b]
    {
      Slot(|taken|);
      b := data[nread % PIPESIZE];
      nread := (nread + 1) % U32;
      taken := taken + [b];
    }

    /** pipewrite of `addr` from byte `i` on, up to its end or to the next sleep; `j` bytes are in then. */
    method Pipewrite(addr: seq<byte>, i: nat, killed: bool) returns (r: Put, j: nat)
      requires Valid() && i <= |addr|
      modifies this`nwrite, this`written, data
      ensures Valid() && i <= j <= |addr| && written == old(written) + addr[i..j]
      ensures r.Written? <==> j == |addr|
      ensures !r.Written? ==> |written| == |taken| + PIPESIZE && (r.WriteFails? <==> !readopen || killed)
    {
      j := i;
      while j < |addr|
        invariant i <= j <= |addr| && Valid() && written == old(written) + addr[i..j]
      {
        Buffered();
        if nwrite == (nread + PIPESIZE) % U32 {
          return if !readopen || killed then WriteFails else WriterSleeps, j;
        }
        Store(addr[j]);
        assert addr[i..j] + [addr[j]] == addr[i..j + 1];
        j := j + 1;
      }
      r := Written;
    }

    /** piperead of up to `n` bytes. */
    method Piperead(n: int, killed: bool) returns (r: Get)
      requires Valid()
      modifies this`nread, this`taken
      ensures Valid()
      ensures !r.Read? <==> |old(taken)| == |written| && writeopen
      ensures !r.Read? ==> taken == old(taken) && (r.ReadFails? <==> killed)
      ensures r.Read? ==> taken == old(taken) + r.s && |r.s| <= (if n < 0 then 0 else n)
      ensures r.Read? ==> |r.s| < n ==> |taken| == |written|
    {
      Buffered();
      if nread == nwrite && writeopen {
        return if killed then ReadFails else ReaderSleeps;
      }
      var s: seq<byte> := [];
      while |s| < n
        invariant Valid() && taken == old(taken) + s && |s| <= (if n < 0 then 0 else n)
        decreases n - |s|
      {
        Buffered();
        if nread == nwrite {
          return Read(s);
        }
        var b := Fetch();
        assert old(taken) + s + [b] == old(taken) + (s + [b]);
        s := s + [b];
      }
      r := Read(s);
    }

    /** pipeclose of one end. */
    method Pipeclose(writable: bool)
      requires Valid()
      modifies this`readopen, this`writeopen
      ensures Valid() && writeopen == (old(writeopen) && !writable) && readopen == (old(readopen) && writable)
    {
      if writable {
        writeopen := false;
      } else {
        readopen := false;
      }
    }

    /** What is in the buffer. */
    ghost function Contents(): (q: Queue)
      reads this, data
      requires Valid()
    {
      Queue(written[|taken|..], readopen, writeopen)
    }

    /** One operation answers as the queue does. */
    method Perform(op: Op) returns (a: Answer)
      requires Valid()
      modifies this, data
      ensures Valid() && Serves(old(Contents()), op, a, Contents())
      ensures written == old(written) + In(op, a) && taken == old(taken) + Out(a)
    {
      match op {
        case Write(addr, killed) =>
          var r, j := Pipewrite(addr, 0, killed);
          a := Stores(j, r);
          WriteAnswers(old(Contents()), op, r, j, old(written), taken);
        case Reading(n, killed) =>
          var r := Piperead(n, killed);
          a := Reads(r);
          ReadAnswers(old(Contents()), op, r, written, old(taken), taken);
        case Close(writable) =>
          Pipeclose(writable);
          a := Closes;
      }
    }

    /** Any interleaving of the operations, partial and failing ones included: the ring buffer answers each of them as
        the queue does, and holds what the queue holds. */
    method Interleave(ops: seq<Op>) returns (answers: seq<Answer>)
      requires Valid()
      modifies this, data
      ensures Valid() && answers == Answers(old(Contents()), ops) && Contents() == Ran(old(Contents()), ops)
      ensures written == old(written) + AllIn(ops, answers) && taken == old(taken) + AllOut(answers)
    {
      answers := [];
      ghost var q := Contents();
      ServedNone(q, ops, written, taken);
      for k := 0 to |ops|
        invariant Valid() && Served(q, ops, k, answers, Contents(), old(written), written, old(taken), taken)
      {
        ghost var before, w, t := Contents(), written, taken;
        var a := Perform(ops[k]);
        ServedMore(q, ops, k, answers, before, a, Contents(), old(written), w, old(taken), t);
        answers := answers + [a];
      }
      ServedAll(q, ops, answers, Contents(), old(written), written, old(taken), taken);
    }
  }

  /** The queue `q` answers `op` with `a` and becomes `r`. */
  predicate Serves(q: Queue, op: Op, a: Answer, r: Queue)
  {
    a == Answered(q, op) && r == After(q, op)
  }

  lemma WriteAnswers(q: Queue, op: Op, r: Put, j: nat, w: seq<byte>, t: seq<byte>)
    requires op.Write? && j <= |op.addr| && |t| <= |w| && q.bytes == w[|t|..] && |w| + j <= |t| + PIPESIZE
    requires r.Written? <==> j == |op.addr|
    requires !r.Written? ==> |w| + j == |t| + PIPESIZE && (r.WriteFails? <==> !q.readopen || op.killed)
    ensures Serves(q, op, Stores(j, r), q.(bytes := (w + op.addr[..j])[|t|..]))
  {
  }

  lemma ReadAnswers(q: Queue, op: Op, r: Get, w: seq<byte>, t0: seq<byte>, t: seq<byte>)
    requires op.Reading? && |t0| <= |t| <= |w| && t == w[..|t|] && q.bytes == w[|t0|..]
    requires !r.Read? <==> |t0| == |w| && q.writeopen
    requires !r.Read? ==> t == t0 && (r.ReadFails? <==> op.killed)
    requires r.Read? ==> t == t0 + r.s && |r.s| <= (if op.n < 0 then 0 else op.n) && (|r.s| < op.n ==> |t| == |w|)
    ensures Serves(q, op, Reads(r), q.(bytes := w[|t|..]))
  {
    if r.Read? {
      assert r.s == t[|t0|..];
    }
  }

  /** The first `k` operations were answered as the queue answers, which then holds `r`; the bytes stored and fetched
      in all are those before and those of the operations. */
  ghost predicate Served(q: Queue, ops: seq<Op>, k: nat, answers: seq<Answer>, r: Queue, w0: seq<byte>, w: seq<byte>,
                         t0: seq<byte>, t: seq<byte>)
  {
    forall u: int {:trigger Unfold(u)} :: Unfold(u) && u == 0 ==>
      && k <= |ops| && answers == Answers(q, ops[..k]) && r == Ran(q, ops[..k])
      && w == w0 + AllIn(ops[..k], answers) && t == t0 + AllOut(answers)
  }

  lemma ServedNone(q: Queue, ops: seq<Op>, w: seq<byte>, t: seq<byte>)
    ensures Served(q, ops, 0, [], q, w, w, t, t)
  {
    assert ops[..0] == [];
  }

  lemma ServedMore(q: Queue, ops: seq<Op>, k: nat, answers: seq<Answer>, before: Queue, a: Answer, r: Queue,
                   w0: seq<byte>, w: seq<byte>, t0: seq<byte>, t: seq<byte>)
    requires k < |ops| && Served(q, ops, k, answers, before, w0, w, t0, t) && Serves(before, ops[k], a, r)
    ensures Served(q, ops, k + 1, answers + [a], r, w0, w + In(ops[k], a), t0, t + Out(a))
  {
    assert Unfold(0);
    assert ops[..k + 1][..k] == ops[..k] && (answers + [a])[..k] == answers;
    Regroup(w0, AllIn(ops[..k], answers), In(ops[k], a));
    Regroup(t0, AllOut(answers), Out(a));
  }

  lemma Regroup(a: seq<byte>, b: seq<byte>, c: seq<byte>)
    ensures a + b + c == a + (b + c)
  {
  }

  lemma ServedAll(q: Queue, ops: seq<Op>, answers: seq<Answer>, r: Queue, w0: seq<byte>, w: seq<byte>, t0: seq<byte>,
                  t: seq<byte>)
    requires Served(q, ops, |ops|, answers, r, w0, w, t0, t)
    ensures |answers| == |ops| && answers == Answers(q, ops) && r == Ran(q, ops)
    ensures w == w0 + AllIn(ops, answers) && t == t0 + AllOut(answers)
  {
    assert Unfold(0);
    assert ops[..|ops|] == ops;
  }

  lemma Wraps(w: nat, t: nat)
    requires t <= w <= t + PIPESIZE
    ensures (w % U32 - t % U32) % U32 == w - t
    ensures w % U32 == (t % U32 + PIPESIZE) % U32 <==> w == t + PIPESIZE
    ensures t % U32 == w % U32 <==> w == t
  {
  }

  /** The slot index survives the wrap, since PIPESIZE divides 2^32. */
  lemma Slot(n: nat)
    ensures n % U32 % PIPESIZE == n % PIPESIZE
    ensures (n + 1) % U32 == (n % U32 + 1) % U32
  {
  }

  /** Bytes buffered together have slots of their own. */
  lemma Apart(t: nat, w: nat)
    requires t <= w < t + PIPESIZE
    ensures forall k :: t <= k < w ==> k % PIPESIZE != w % PIPESIZE
  {
  }
}
