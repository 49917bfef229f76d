/** Path names of fs.c: skipelem and namex. */
module Path {
  import opened Common
  import opened Bytes
  import opened BlockMap
  import opened Fs
  import D = Directory

  const SLASH: byte := 47
  const ROOTINO := 1

  // ---------------------------------------------------------------------------
  // The elements of a path

  function NoSlashes(path: seq<byte>): (r: seq<byte>)
    ensures |r| <= |path| && (r == [] || r[0] != SLASH) && (D.CString(path) ==> D.CString(r))
  {
    if path == [] || path[0] != SLASH then path else NoSlashes(path[1..])
  }

  /** The length of the element a path starts with. */
  function WordLength(path: seq<byte>): (n: nat)
    ensures n <= |path| && (n < |path| ==> path[n] == SLASH)
    ensures forall i :: 0 <= i < n ==> path[i] != SLASH
    ensures path != [] && path[0] != SLASH ==> n > 0
  {
    if path == [] || path[0] == SLASH then 0 else 1 + WordLength(path[1..])
  }

  /** The elements between slashes, each cut to what a directory can hold. */
  function Elements(path: seq<byte>): (r: seq<seq<byte>>)
    decreases |path|
  {
    var p := NoSlashes(path);
    if p == [] then [] else [D.Cut(p[..WordLength(p)])] + Elements(p[WordLength(p)..])
  }

  predicate Word(w: seq<byte>)
  {
    w != [] && SLASH !in w
  }

  lemma {:induction false} WordLengthOf(w: seq<byte>, rest: seq<byte>)
    requires SLASH !in w && (rest == [] || rest[0] == SLASH)
    ensures WordLength(w + rest) == |w|
  {
    if w == [] {
      assert w + rest == rest;
    } else {
      assert (w + rest)[1..] == w[1..] + rest;
      assert w[0] in w;
      WordLengthOf(w[1..], rest);
    }
  }

  lemma ElementsSlash(path: seq<byte>)
    requires path != [] && path[0] == SLASH
    ensures Elements(path) == Elements(path[1..])
  {
  }

  lemma ElementsStep(w: seq<byte>, rest: seq<byte>)
    requires Word(w) && (rest == [] || rest[0] == SLASH)
    ensures Elements(w + rest) == [D.Cut(w)] + Elements(rest)
  {
    var p := w + rest;
    assert p[0] == w[0] && w[0] in w;
    WordLengthOf(w, rest);
    assert p[..|w|] == w && p[|w|..] == rest;
  }

  /** A word alone is its own element. */
  lemma ElementsWord(w: seq<byte>)
    requires Word(w)
    ensures Elements(w) == [D.Cut(w)]
  {
    ElementsStep(w, []);
    assert w + [] == w;
  }

  /** A slash separates: the elements of `a/b` are those of `a` followed by those of `b`. */
  lemma {:induction false} ElementsJoin(a: seq<byte>, b: seq<byte>)
    ensures Elements(a + [SLASH] + b) == Elements(a) + Elements(b)
    decreases |a|
  {
    if a == [] {
      JoinNothing(a, b);
    } else if a[0] == SLASH {
      ElementsJoin(a[1..], b);
      TailJoined(a, b);
      JoinSlash(a, a + [SLASH] + b, Elements(b));
    } else {
      var n := WordLength(a);
      ElementsJoin(a[n..], b);
      JoinWord(a[..n], a[n..], b);
      Regrouped(a, b, n);
    }
  }

  lemma Regrouped(a: seq<byte>, b: seq<byte>, n: nat)
    requires n <= |a|
    ensures a[..n] + a[n..] == a && a[..n] + (a[n..] + [SLASH] + b) == a + [SLASH] + b
  {
  }

  lemma JoinNothing(a: seq<byte>, b: seq<byte>)
    requires a == []
    ensures Elements(a + [SLASH] + b) == Elements(a) + Elements(b)
  {
    var ab := a + [SLASH] + b;
    assert ab[0] == SLASH && ab[1..] == b;
    ElementsSlash(ab);
  }

  lemma JoinSlash(a: seq<byte>, ab: seq<byte>, more: seq<seq<byte>>)
    requires a != [] && a[0] == SLASH && ab != [] && ab[0] == SLASH && Elements(ab[1..]) == Elements(a[1..]) + more
    ensures Elements(ab) == Elements(a) + more
  {
    ElementsSlash(ab);
    ElementsSlash(a);
  }

  lemma TailJoined(a: seq<byte>, b: seq<byte>)
    requires a != []
    ensures (a + [SLASH] + b)[0] == a[0] && (a + [SLASH] + b)[1..] == a[1..] + [SLASH] + b
  {
  }

  lemma JoinWord(w: seq<byte>, rest: seq<byte>, b: seq<byte>)
    requires Word(w) && (rest == [] || rest[0] == SLASH)
    requires Elements(rest + [SLASH] + b) == Elements(rest) + Elements(b)
    ensures Elements(w + (rest + [SLASH] + b)) == Elements(w + rest) + Elements(b)
  {
    ElementsStep(w, rest);
    ElementsStep(w, rest + [SLASH] + b);
    Prepend(D.Cut(w), Elements(rest), Elements(b));
  }

  lemma Prepend<T>(x: T, a: seq<T>, b: seq<T>)
    ensures [x] + (a + b) == [x] + a + b
  {
  }

  /** An element and what follows it; None when there is none. */
  datatype Step = Step(name: seq<byte>, rest: seq<byte>)

  /** `r` is the first element of `path`, cut, and the rest without leading slashes. */
  predicate Splits(path: seq<byte>, r: Option<Step>)
  {
    match r
    case None => Elements(path) == []
    case Some(Step(name, rest)) =>
      && Elements(path) == [name] + Elements(rest) && |rest| < |path|
      && (rest == [] <==> Elements(rest) == [])
      && (D.CString(path) ==> D.CString(name) && D.CString(rest) && D.Cut(name) == name)
  }

  /** Copy the next path element into `name`. */
  method Skipelem(path: seq<byte>) returns (r: Option<Step>)
    ensures Splits(path, r)
  {
    var p := SkipSlashes(path);
    SameElements(path);
    if p == [] {
      return None;
    }
    var n := WordEnd(p);
    var name := if n >= D.DIRSIZ then p[..D.DIRSIZ] else p[..n];
    var rest := SkipSlashes(p[n..]);
    FirstElement(path, p, n, name, rest);
    r := Some(Step(name, rest));
  }

  lemma FirstElement(path: seq<byte>, p: seq<byte>, n: nat, name: seq<byte>, rest: seq<byte>)
    requires p == NoSlashes(path) && p != [] && n == WordLength(p) && rest == NoSlashes(p[n..])
    requires name == if n >= D.DIRSIZ then p[..D.DIRSIZ] else p[..n]
    ensures Splits(path, Some(Step(name, rest)))
  {
    CutWord(p, n, name);
    SameElements(p[n..]);
    assert Elements(path) == [name] + Elements(rest);
  }

  lemma CutWord(p: seq<byte>, n: nat, name: seq<byte>)
    requires n <= |p| && name == if n >= D.DIRSIZ then p[..D.DIRSIZ] else p[..n]
    ensures name == D.Cut(p[..n])
  {
    if n >= D.DIRSIZ {
      assert p[..n][..D.DIRSIZ] == p[..D.DIRSIZ];
    }
  }

  method WordEnd(path: seq<byte>) returns (n: nat)
    ensures n == WordLength(path)
  {
    n := 0;
    while n < |path| && path[n] != SLASH
      invariant 0 <= n <= |path| && SLASH !in path[..n]
    {
      n := n + 1;
    }
    WordLengthOf(path[..n], path[n..]);
    assert path[..n] + path[n..] == path;
  }

  method SkipSlashes(path: seq<byte>) returns (r: seq<byte>)
    ensures r == NoSlashes(path)
  {
    var k := 0;
    while k < |path| && path[k] == SLASH
      invariant 0 <= k <= |path| && NoSlashes(path) == NoSlashes(path[k..])
    {
      assert path[k..][1..] == path[k + 1..];
      k := k + 1;
    }
    r := path[k..];
  }

  lemma SameElements(path: seq<byte>)
    ensures Elements(NoSlashes(path)) == Elements(path)
    ensures NoSlashes(path) == [] <==> Elements(path) == []
  {
    assert NoSlashes(NoSlashes(path)) == NoSlashes(path);
  }

  // ---------------------------------------------------------------------------
  // Walking the tree

  /** Where a path leads: an inode, nowhere, to a panic (an unallocated inode, or a directory whose size is
      not a whole number of entries), or into a device that is a directory, which its driver lists. */
  datatype Found = Leads(inum: nat) | Nowhere | Panics | Device

  /** Directories name no inode twice by one name, and only inodes that exist. */
  predicate DirsOk(inodes: seq<Inode>, files: seq<seq<byte>>)
  {
    && |inodes| == |files|
    && forall i :: 0 <= i < |inodes| && inodes[i].kind == D.T_DIR ==> DirOk(D.Listing(files[i]), |inodes|)
  }

  predicate DirOk(es: seq<D.Dirent>, bound: nat)
  {
    D.NoTwins(es) && forall k :: 0 <= k < |es| && D.Live(es[k]) ==> es[k].inum < bound
  }

  lemma InRange(es: seq<D.Dirent>, bound: nat, name: seq<byte>)
    requires DirOk(es, bound) && name in D.MapOf(es)
    ensures D.MapOf(es)[name] < bound
  {
    D.MapKeys(es, name);
    var k :| 0 <= k < |es| && D.Live(es[k]) && es[k].name == name;
    D.MapValue(es, k);
  }

  /** A new name for an existing inode keeps the directories in order. */
  lemma LinkKeepsDirs(inodes: seq<Inode>, files: seq<seq<byte>>, after: seq<Inode>, written: seq<seq<byte>>, dp: nat,
                      name: seq<byte>, inum: nat)
    requires DirsOk(inodes, files) && |files| == |written| && dp < |files| && inodes[dp].kind == D.T_DIR
    requires D.SameKinds(inodes, after) && inum < |inodes|
    requires D.Gains(D.Listing(files[dp]), D.Listing(written[dp]), name, inum)
    requires forall j :: 0 <= j < |files| && j != dp ==> written[j] == files[j]
    ensures DirsOk(after, written) && after[dp].kind == D.T_DIR
    ensures inum > 0 ==> Child(after, written, dp, name) == Leads(inum)
  {
    GainsInRange(D.Listing(files[dp]), D.Listing(written[dp]), name, inum, |inodes|);
  }

  lemma GainsInRange(es: seq<D.Dirent>, fs: seq<D.Dirent>, name: seq<byte>, inum: nat, bound: nat)
    requires DirOk(es, bound) && D.Gains(es, fs, name, inum) && inum < bound
    ensures DirOk(fs, bound)
  {
    forall k | 0 <= k < |fs| && D.Live(fs[k]) ensures fs[k].inum < bound {
      D.MapValue(fs, k);
      if fs[k].name in D.MapOf(es) {
        InRange(es, bound, fs[k].name);
      }
    }
  }

  lemma LowBits(inum: nat)
    ensures inum % 65536 <= inum && (inum < 65536 ==> inum % 65536 == inum)
  {
  }

  /** dirlink, seen from the tree: after it the directories are in order again. */
  method Link(fs: Fs, dp: nat, name: seq<byte>, inum: uint, devDir: bool) returns (r: D.Link)
    requires fs.Valid() && DirsOk(fs.inodes, fs.files) && dp < |fs.inodes| && D.CString(name) && inum < |fs.inodes|
    modifies fs
    ensures r.Done? ==> fs.Valid() && DirsOk(fs.inodes, fs.files) && |fs.inodes| == |old(fs.inodes)|
    ensures r.Done? ==> old(fs.inodes)[dp].kind == D.T_DIR == fs.inodes[dp].kind
    ensures r.Done? && 0 < inum < 65536 ==> Child(fs.inodes, fs.files, dp, D.Cut(name)) == Leads(inum)
    ensures r.Exists? ==> unchanged(fs)
  {
    ghost var inodes, files := fs.inodes, fs.files;
    r := D.Dirlink(fs, dp, name, inum, devDir);
    if r.Done? {
      LowBits(inum);
      LinkKeepsDirs(inodes, files, fs.inodes, fs.files, dp, D.Cut(name), inum % 65536);
    }
  }

  /** Look up one name in directory `ip`. */
  function Child(inodes: seq<Inode>, files: seq<seq<byte>>, ip: nat, name: seq<byte>): (r: Found)
    requires DirsOk(inodes, files) && ip < |inodes| && (inodes[ip].kind == D.T_DIR || inodes[ip].kind == T_DEV)
    ensures r.Leads? ==> r.inum < |inodes|
  {
    if inodes[ip].kind == T_DEV then Device else
    var es := D.Listing(files[ip]);
    if name in D.MapOf(es) then InRange(es, |inodes|, name); Leads(D.MapOf(es)[name])
    else if |files[ip]| % D.ENTRY == 0 then Nowhere
    else Panics
  }

  /** Whether `ip` can be searched: `Leads(ip)` if it is a directory. `devDir` says which devices are. */
  function Open(inodes: seq<Inode>, devDir: nat -> bool, ip: nat): (r: Found)
    requires ip < |inodes|
    ensures r.Leads? ==> r.inum == ip && (inodes[ip].kind == D.T_DIR || inodes[ip].kind == T_DEV)
  {
    if inodes[ip].kind == 0 then Panics
    else if inodes[ip].kind == D.T_DIR || (inodes[ip].kind == T_DEV && devDir(ip)) then Leads(ip)
    else Nowhere
  }

  /** Fold the lookup over the elements. */
  function Walk(inodes: seq<Inode>, files: seq<seq<byte>>,
                devDir: nat -> bool, ip: nat, elems: seq<seq<byte>>): (r: Found)
    requires DirsOk(inodes, files) && ip < |inodes|
    ensures r.Leads? ==> r.inum < |inodes|
    decreases |elems|
  {
    if elems == [] then Leads(ip)
    else if !Open(inodes, devDir, ip).Leads? then Open(inodes, devDir, ip)
    else
      var next := Child(inodes, files, ip, elems[0]);
      if next.Leads? then Walk(inodes, files, devDir, next.inum, elems[1..]) else next
  }

  /** The directory of the last element: fold over all but it, and it must be searchable. */
  function WalkParent(inodes: seq<Inode>, files: seq<seq<byte>>,
                      devDir: nat -> bool, ip: nat, elems: seq<seq<byte>>): (r: Found)
    requires DirsOk(inodes, files) && ip < |inodes|
    ensures r.Leads? ==> r.inum < |inodes|
  {
    if elems == [] then Nowhere
    else
      var d := Walk(inodes, files, devDir, ip, elems[..|elems| - 1]);
      if d.Leads? then Open(inodes, devDir, d.inum) else d
  }

  /** namei is nameiparent followed by one lookup. */
  lemma {:induction false} WalkLast(inodes: seq<Inode>, files: seq<seq<byte>>,
                                    devDir: nat -> bool, ip: nat, elems: seq<seq<byte>>)
    requires DirsOk(inodes, files) && ip < |inodes| && elems != []
    ensures var d := WalkParent(inodes, files, devDir, ip, elems);
      Walk(inodes, files, devDir, ip, elems) == if d.Leads? then Child(inodes, files, d.inum, elems[|elems| - 1]) else d
    decreases |elems|
  {
    if |elems| == 1 {
      assert elems[..0] == [] && elems[1..] == [];
    } else if Open(inodes, devDir, ip).Leads? {
      var next := Child(inodes, files, ip, elems[0]);
      assert elems[..|elems| - 1][1..] == elems[1..][..|elems| - 2];
      if next.Leads? {
        WalkLast(inodes, files, devDir, next.inum, elems[1..]);
      }
    }
  }

  /** What is left to find once the walk stands at `ip` with `elems` to go. */
  function Resolve(inodes: seq<Inode>, files: seq<seq<byte>>,
                   devDir: nat -> bool, ip: nat, elems: seq<seq<byte>>, parent: bool): (r: Found)
    requires DirsOk(inodes, files) && ip < |inodes|
  {
    if parent then WalkParent(inodes, files, devDir, ip, elems) else Walk(inodes, files, devDir, ip, elems)
  }

  lemma ResolveStep(inodes: seq<Inode>, files: seq<seq<byte>>,
                    devDir: nat -> bool, ip: nat, elems: seq<seq<byte>>, parent: bool)
    requires DirsOk(inodes, files) && ip < |inodes| && elems != []
    ensures !Open(inodes, devDir, ip).Leads? ==>
      Resolve(inodes, files, devDir, ip, elems, parent) == Open(inodes, devDir, ip)
    ensures Open(inodes, devDir, ip).Leads? && parent && |elems| == 1 ==>
      Resolve(inodes, files, devDir, ip, elems, parent) == Leads(ip)
    ensures Open(inodes, devDir, ip).Leads? && !(parent && |elems| == 1) ==>
      var next := Child(inodes, files, ip, elems[0]);
      Resolve(inodes, files, devDir, ip, elems, parent) ==
        if next.Leads? then Resolve(inodes, files, devDir, next.inum, elems[1..], parent) else next
  {
    if |elems| == 1 {
      assert elems[..0] == [] && elems[1..] == [];
    } else {
      assert elems[..|elems| - 1][1..] == elems[1..][..|elems| - 2];
    }
  }

  predicate Ends(a: seq<seq<byte>>, b: seq<seq<byte>>)
  {
    a != [] ==> b != [] && a[|a| - 1] == b[|b| - 1]
  }

  /** A process walking a path: the reference counts it works on, and the inodes it has locked. */
  class Walker {
    const fs: Fs
    const cwd: nat
    const devDir: nat -> bool   // the drivers' answers, for a device, whether it is a directory
    var refs: seq<int>
    var locked: set<nat>

    constructor (fs: Fs, cwd: nat, refs: seq<int>, devDir: nat -> bool)
      ensures this.fs == fs && this.cwd == cwd && this.refs == refs && this.devDir == devDir && locked == {}
    {
      this.fs, this.cwd, this.refs, this.devDir, this.locked := fs, cwd, refs, devDir, {};
    }

    ghost predicate Ready()
      reads this, fs
    {
      && fs.Valid() && DirsOk(fs.inodes, fs.files) && |refs| == |fs.inodes|
      && ROOTINO < |fs.inodes| && cwd < |fs.inodes|
    }

    /** iget and idup: one more reference. */
    method Ref(ip: nat)
      requires ip < |refs|
      modifies `refs
      ensures refs == old(refs)[ip := old(refs)[ip] + 1]
    {
      refs := refs[ip := refs[ip] + 1];
    }

    /** iput: one reference less. */
    method Iput(ip: nat)
      requires ip < |refs|
      modifies `refs
      ensures refs == old(refs)[ip := old(refs)[ip] - 1]
    {
      refs := refs[ip := refs[ip] - 1];
    }

    /** The start of the walk: the root for an absolute path, else the working directory. */
    function Start(path: seq<byte>): (ip: nat)
    {
      if path != [] && path[0] == SLASH then ROOTINO else cwd
    }

    /** One turn of namex at `ip`: `next.Leads?` goes on at a child, or, when `stop`, ends at `ip` itself. `base` are
        the counts without the reference to `ip`. */
    method Turn(ip: nat, name: seq<byte>, stop: bool, ghost base: seq<int>) returns (next: Found)
      requires Ready() && ip < |refs| && locked == {} && D.CString(name) && D.Cut(name) == name
      requires OneMore(base, ip, refs)
      modifies this, fs
      ensures unchanged(fs) && Ready()
      ensures next ==
        if Open(fs.inodes, devDir, ip).Leads? && !stop then Child(fs.inodes, fs.files, ip, name)
        else Open(fs.inodes, devDir, ip)
      ensures next.Leads? || next.Nowhere? ==> locked == {}
      ensures next.Leads? ==> OneMore(base, next.inum, refs)
      ensures next.Nowhere? ==> refs == base
    {
      locked := locked + {ip};
      if fs.inodes[ip].kind == 0 {
        return Panics;
      }
      if fs.inodes[ip].kind != D.T_DIR && !(fs.inodes[ip].kind == T_DEV && devDir(ip)) {
        locked := locked - {ip};
        Drop(ip, base, Nowhere);
        return Nowhere;
      }
      if stop {
        locked := locked - {ip};
        return Leads(ip);
      }
      next := Lookup(ip, name);
      if next.Leads? || next.Nowhere? {
        locked := locked - {ip};
        Drop(ip, base, next);
      }
    }

    /** Give up the reference to `ip`; the one to the child, if there is one, is left. */
    method Drop(ip: nat, ghost base: seq<int>, ghost next: Found)
      requires ip < |base| && (next.Leads? ==> next.inum < |base|)
      requires var up := base[ip := base[ip] + 1];
        refs == if next.Leads? then up[next.inum := up[next.inum] + 1] else up
      modifies `refs
      ensures if next.Leads? then OneMore(base, next.inum, refs) else refs == base
    {
      Counted(base, ip);
      if next.Leads? {
        Moved(base, ip, next.inum);
      }
      Iput(ip);
    }

    /** The lookup in a turn: a name that is found gets a reference. */
    method Lookup(ip: nat, name: seq<byte>) returns (next: Found)
      requires Ready() && ip < |refs| && Open(fs.inodes, devDir, ip).Leads? && D.CString(name) && D.Cut(name) == name
      modifies `refs, fs
      ensures unchanged(fs) && Ready()
      ensures next == Child(fs.inodes, fs.files, ip, name)
      ensures refs == if next.Leads? then old(refs)[next.inum := old(refs)[next.inum] + 1] else old(refs)
    {
      var l := D.Dirlookup(fs, ip, name, fs.inodes[ip].kind == T_DEV && devDir(ip));
      match l {
        case Found(inum, _) =>
          InRange(D.Listing(fs.files[ip]), |fs.inodes|, name);
          Ref(inum);
          next := Leads(inum);
        case Absent =>
          next := Nowhere;
        case BadRead =>
          next := Panics;
        case _ =>
          next := Device;
      }
    }

    /** A turn of namex in terms of the whole walk. */
    method Advance(ip: nat, name: seq<byte>, parent: bool, stop: bool, ghost elems: seq<seq<byte>>,
                   ghost base: seq<int>)
      returns (next: Found)
      requires Ready() && ip < |refs| == |base| && locked == {} && D.CString(name) && D.Cut(name) == name
      requires elems != [] && elems[0] == name && (stop <==> parent && |elems| == 1)
      requires OneMore(base, ip, refs)
      modifies this, fs
      ensures unchanged(fs) && Ready() && |refs| == |base|
      ensures next.Leads? || next.Nowhere? ==> locked == {}
      ensures next.Leads? ==> OneMore(base, next.inum, refs)
      ensures next.Nowhere? ==> refs == base
      ensures Resolve(fs.inodes, fs.files, devDir, ip, elems, parent) ==
        if next.Leads? && !stop then Resolve(fs.inodes, fs.files, devDir, next.inum, elems[1..], parent) else next
    {
      ResolveStep(fs.inodes, fs.files, devDir, ip, elems, parent);
      next := Turn(ip, name, stop, base);
    }

    /** Look up a path; with `parent`, the directory of its last element, which goes to `name`. */
    method Namex(path: seq<byte>, parent: bool) returns (r: Found, name: seq<byte>)
      requires Ready() && D.CString(path) && locked == {}
      modifies this, fs
      ensures unchanged(fs) && |refs| == |old(refs)|
      ensures r == Resolve(fs.inodes, fs.files, devDir, Start(path), Elements(path), parent)
      ensures r.Leads? || r.Nowhere? ==> locked == {}
      ensures r.Leads? ==> OneMore(old(refs), r.inum, refs)
      ensures r.Nowhere? ==> refs == old(refs)
      ensures parent && r.Leads? ==> Ends([name], Elements(path))
    {
      var ip: nat, p := Start(path), path;
      ghost var goal, all := Resolve(fs.inodes, fs.files, devDir, ip, Elements(p), parent), Elements(path);
      ghost var left, base := all, refs;
      name := [];
      Ref(ip);
      var e := Skipelem(p);
      RemainsAll(p, e);
      while e.Some?
        invariant unchanged(fs) && Ready() && locked == {} && ip < |refs| == |old(refs)|
        invariant OneMore(base, ip, refs)
        invariant Remains(p, e, left, all)
        invariant Resolve(fs.inodes, fs.files, devDir, ip, left, parent) == goal
        decreases |p|
      {
        name := e.value.name;
        var stop := parent && e.value.rest == [];
        var rest := e.value.rest;
        RemainsSome(p, e.value, left, all);
        var next := Advance(ip, name, parent, stop, left, base);
        if !next.Leads? || stop {
          return next, name;
        }
        e := Skipelem(rest);
        RemainsMore(p, Step(name, rest), left, all, e);
        ip, p, left := next.inum, rest, left[1..];
      }
      RemainsNone(p, left, all);
      if parent {
        Counted(base, ip);
        Iput(ip);
        return Nowhere, name;
      }
      r := Leads(ip);
    }
  }

  /** The path `p` is left of a walk, its first element split off as `e`; its elements `left` are the end of `all`. */
  ghost predicate Remains(p: seq<byte>, e: Option<Step>, left: seq<seq<byte>>, all: seq<seq<byte>>)
  {
    forall u: int {:trigger Unfold(u)} :: Unfold(u) && u == 0 ==>
      D.CString(p) && left == Elements(p) && Splits(p, e) && Ends(left, all)
  }

  lemma RemainsAll(p: seq<byte>, e: Option<Step>)
    requires D.CString(p) && Splits(p, e)
    ensures Remains(p, e, Elements(p), Elements(p))
  {
  }

  lemma RemainsSome(p: seq<byte>, step: Step, left: seq<seq<byte>>, all: seq<seq<byte>>)
    requires Remains(p, Some(step), left, all)
    ensures left != [] && left[0] == step.name && (step.rest == [] <==> |left| == 1) && |step.rest| < |p|
    ensures D.CString(step.name) && D.Cut(step.name) == step.name && (|left| == 1 ==> Ends([step.name], all))
  {
    assert Unfold(0);
    assert left[1..] == Elements(step.rest);
  }

  lemma RemainsMore(p: seq<byte>, step: Step, left: seq<seq<byte>>, all: seq<seq<byte>>, e: Option<Step>)
    requires Remains(p, Some(step), left, all) && Splits(step.rest, e)
    ensures left != [] && Remains(step.rest, e, left[1..], all)
  {
    assert Unfold(0);
    assert left[1..] == Elements(step.rest);
  }

  lemma RemainsNone(p: seq<byte>, left: seq<seq<byte>>, all: seq<seq<byte>>)
    requires Remains(p, None, left, all)
    ensures left == []
  {
    assert Unfold(0);
  }

  /** One reference to `ip` more than in `base`. */
  predicate OneMore(base: seq<int>, ip: nat, refs: seq<int>)
  {
    ip < |base| && refs == base[ip := base[ip] + 1]
  }

  /** A reference that moves from `ip` to `next`. */
  lemma Moved(base: seq<int>, ip: nat, next: nat)
    requires ip < |base| && next < |base|
    ensures var up := base[ip := base[ip] + 1][next := base[ip := base[ip] + 1][next] + 1];
      up[ip := up[ip] - 1] == base[next := base[next] + 1]
  {
  }

  lemma Counted(base: seq<int>, ip: nat)
    requires ip < |base|
    ensures var up := base[ip := base[ip] + 1]; up[ip := up[ip] - 1] == base
  {
  }

}
