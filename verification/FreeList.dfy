/** The free list of umalloc.c as a ring of header addresses, counted in header-sized units, together
    with the live blocks and the units got from sbrk. */
module FreeList {

  /** The addresses of the free blocks in ascending order, `base` first; `size` gives a block's length. */
  type Ring = seq<int>

  /** Free blocks lie apart in ascending order; blocks `t` and `t + 1` may touch if `t` is in `touching`. */
  ghost predicate Apart(base: int, ring: Ring, size: map<int, int>, touching: set<int>)
  {
    && |ring| > 0 && ring[0] == base && base > 0
    && (forall k :: 0 <= k < |ring| ==> ring[k] in size && size[ring[k]] >= 0)
    && size[base] == 0
    && (forall k :: 0 < k < |ring| ==> size[ring[k]] > 0)
    && (forall j, k :: 0 <= j < k < |ring| ==> Before(ring, size, touching, j, k))
  }

  /** Block `j` ends before block `k` starts. */
  predicate Before(ring: Ring, size: map<int, int>, touching: set<int>, j: nat, k: nat)
    requires j < k < |ring| && ring[j] in size
  {
    && ring[j] + size[ring[j]] <= ring[k]
    && (ring[j] + size[ring[j]] == ring[k] ==> j in touching && k == j + 1)
  }

  /** The live blocks have their headers, and overlap neither each other nor a free block. */
  ghost predicate LiveOk(base: int, ring: Ring, size: map<int, int>, live: map<int, int>)
  {
    && (forall k :: 0 <= k < |ring| ==> ring[k] in size)
    && (forall a :: a in live ==> a > base && live[a] > 0 && a in size && size[a] == live[a])
    && (forall a, b :: a in live && b in live && a != b ==> a + live[a] <= b || b + live[b] <= a)
    && (forall a, k :: a in live && 0 < k < |ring| ==> a + live[a] <= ring[k] || ring[k] + size[ring[k]] <= a)
  }

  ghost predicate FreeHas(ring: Ring, size: map<int, int>, u: int)
    requires forall k :: 0 <= k < |ring| ==> ring[k] in size
  {
    exists k :: 0 < k < |ring| && ring[k] <= u < ring[k] + size[ring[k]]
  }

  ghost predicate LiveHas(live: map<int, int>, u: int)
  {
    exists a :: a in live && a <= u < a + live[a]
  }

  /** Conservation: the units got from sbrk are exactly those of the free and the live blocks. */
  ghost predicate Conserved(ring: Ring, size: map<int, int>, live: map<int, int>, granted: set<int>)
    requires forall k :: 0 <= k < |ring| ==> ring[k] in size
  {
    forall u: int :: u in granted <==> FreeHas(ring, size, u) || LiveHas(live, u)
  }

  ghost predicate HeapOk(base: int, ring: Ring, size: map<int, int>, live: map<int, int>, granted: set<int>,
                         touching: set<int>)
  {
    && Apart(base, ring, size, touching)
    && LiveOk(base, ring, size, live)
    && Conserved(ring, size, live, granted)
  }

  /** Every unit got from sbrk is in one block: a free one or a live one, never both, never two. */
  lemma OneBlockEach(base: int, ring: Ring, size: map<int, int>, live: map<int, int>, granted: set<int>, u: int)
    requires HeapOk(base, ring, size, live, granted, {})
    ensures u in granted <==> FreeHas(ring, size, u) || LiveHas(live, u)
    ensures !(FreeHas(ring, size, u) && LiveHas(live, u))
    ensures forall a, b :: a in live && b in live && a <= u < a + live[a] && b <= u < b + live[b] ==> a == b
    ensures forall j, k :: 0 < j < k < |ring| ==>
      !(ring[j] <= u < ring[j] + size[ring[j]] && ring[k] <= u < ring[k] + size[ring[k]])
  {
    if FreeHas(ring, size, u) {
      var k :| 0 < k < |ring| && ring[k] <= u < ring[k] + size[ring[k]];
      forall a | a in live ensures !(a <= u < a + live[a]) {
        assert a + live[a] <= ring[k] || ring[k] + size[ring[k]] <= a;
      }
    }
    forall j, k | 0 < j < k < |ring| ensures ring[j] + size[ring[j]] < ring[k] {
      assert Before(ring, size, {}, j, k);
    }
  }

  // ---------------------------------------------------------------------------
  // Freeing: a block enters the ring, then merges with the neighbours it touches

  /** Where `b` belongs: after block `i` and before the next. */
  predicate Between(ring: Ring, b: int, i: nat)
  {
    i < |ring| && ring[i] < b && (i + 1 < |ring| ==> b < ring[i + 1])
  }

  function Inserted(ring: Ring, b: int, i: nat): (r: Ring)
    requires i < |ring|
    ensures |r| == |ring| + 1
    ensures forall k :: 0 <= k < |r| ==> r[k] == if k <= i then ring[k] else if k == i + 1 then b else ring[k - 1]
  {
    ring[..i + 1] + [b] + ring[i + 1..]
  }

  lemma InsertApart(base: int, ring: Ring, size: map<int, int>, live: map<int, int>, b: int, i: nat)
    requires Apart(base, ring, size, {}) && LiveOk(base, ring, size, live) && b in live && Between(ring, b, i)
    ensures Apart(base, Inserted(ring, b, i), size, {i, i + 1})
  {
    var r := Inserted(ring, b, i);
    var near := {i, i + 1};
    forall j, k | 0 <= j < k < |r| ensures Before(r, size, near, j, k) {
      InsertPair(base, ring, size, live, b, i, j, k);
    }
  }

  lemma InsertPair(base: int, ring: Ring, size: map<int, int>, live: map<int, int>, b: int, i: nat, j: nat, k: nat)
    requires Apart(base, ring, size, {}) && LiveOk(base, ring, size, live) && b in live && Between(ring, b, i)
    requires j < k < |Inserted(ring, b, i)|
    ensures Inserted(ring, b, i)[j] in size && Before(Inserted(ring, b, i), size, {i, i + 1}, j, k)
  {
    if j == i + 1 {
      assert k == i + 2 || Before(ring, size, {}, i + 1, k - 1);
    } else if k == i + 1 {
      assert j == i || Before(ring, size, {}, j, i);
      assert i > 0 ==> b + live[b] <= ring[i] || ring[i] + size[ring[i]] <= b;
    } else {
      assert Before(ring, size, {}, if j <= i then j else j - 1, if k <= i then k else k - 1);
    }
  }

  lemma InsertHas(ring: Ring, size: map<int, int>, b: int, i: nat, u: int)
    requires i < |ring| && b in size && forall k :: 0 <= k < |ring| ==> ring[k] in size
    ensures forall k :: 0 <= k < |Inserted(ring, b, i)| ==> Inserted(ring, b, i)[k] in size
    ensures FreeHas(Inserted(ring, b, i), size, u) <==> FreeHas(ring, size, u) || b <= u < b + size[b]
  {
    var r := Inserted(ring, b, i);
    if FreeHas(ring, size, u) {
      var k :| 0 < k < |ring| && ring[k] <= u < ring[k] + size[ring[k]];
      assert r[if k <= i then k else k + 1] == ring[k];
    }
    assert r[i + 1] == b;
  }

  lemma LiveLess(live: map<int, int>, b: int, u: int)
    requires b in live
    ensures LiveHas(live, u) <==> LiveHas(live - {b}, u) || b <= u < b + live[b]
  {
    if LiveHas(live, u) {
      var a :| a in live && a <= u < a + live[a];
      assert a != b ==> a in live - {b};
    }
  }

  /** Block `b`, live until now, joins the ring after block `i`. */
  lemma InsertFree(base: int, ring: Ring, size: map<int, int>, live: map<int, int>, granted: set<int>, b: int, i: nat)
    requires HeapOk(base, ring, size, live, granted, {}) && b in live && Between(ring, b, i)
    ensures HeapOk(base, Inserted(ring, b, i), size, live - {b}, granted, {i, i + 1})
  {
    InsertApart(base, ring, size, live, b, i);
    var r := Inserted(ring, b, i);
    assert LiveOk(base, r, size, live - {b});
    forall u: int ensures u in granted <==> FreeHas(r, size, u) || LiveHas(live - {b}, u) {
      InsertHas(ring, size, b, i, u);
      LiveLess(live, b, u);
    }
  }

  function Merged(ring: Ring, t: nat): (r: Ring)
    requires t + 1 < |ring|
    ensures |r| == |ring| - 1
    ensures forall k :: 0 <= k < |r| ==> r[k] == if k <= t then ring[k] else ring[k + 1]
  {
    ring[..t + 1] + ring[t + 2..]
  }

  function Grown(ring: Ring, size: map<int, int>, t: nat): (r: map<int, int>)
    requires t + 1 < |ring| && ring[t] in size && ring[t + 1] in size
  {
    size[ring[t] := size[ring[t]] + size[ring[t + 1]]]
  }

  /** Blocks `t` and `t + 1`, which touch, become one. */
  lemma MergeApart(base: int, ring: Ring, size: map<int, int>, touching: set<int>, t: nat)
    requires Apart(base, ring, size, touching) && 0 < t && t + 1 < |ring| && ring[t] + size[ring[t]] == ring[t + 1]
    requires forall x :: x in touching ==> x <= t
    ensures Apart(base, Merged(ring, t), Grown(ring, size, t), touching - {t})
  {
    var r, s := Merged(ring, t), Grown(ring, size, t);
    Distinct(base, ring, size, touching, t);
    forall j, k | 0 <= j < k < |r| ensures Before(r, s, touching - {t}, j, k) {
      MergePair(base, ring, size, touching, t, j, k);
    }
  }

  lemma Distinct(base: int, ring: Ring, size: map<int, int>, touching: set<int>, t: nat)
    requires Apart(base, ring, size, touching) && 0 < t < |ring|
    ensures forall k :: 0 <= k < |ring| && k != t ==> ring[k] != ring[t]
  {
    forall k | 0 <= k < |ring| && k != t ensures ring[k] != ring[t] {
      assert k < t ==> Before(ring, size, touching, k, t);
      assert t < k ==> Before(ring, size, touching, t, k);
    }
  }

  lemma MergePair(base: int, ring: Ring, size: map<int, int>, touching: set<int>, t: nat, j: nat, k: nat)
    requires Apart(base, ring, size, touching) && 0 < t && t + 1 < |ring| && ring[t] + size[ring[t]] == ring[t + 1]
    requires forall x :: x in touching ==> x <= t
    requires j < k < |Merged(ring, t)|
    ensures Merged(ring, t)[j] in Grown(ring, size, t)
    ensures Before(Merged(ring, t), Grown(ring, size, t), touching - {t}, j, k)
  {
    Distinct(base, ring, size, touching, t);
    assert Before(ring, size, touching, if j <= t then j else j + 1, if k <= t then k else k + 1);
    if j == t {
      assert Before(ring, size, touching, t + 1, k + 1);
    }
  }

  lemma MergeHas(base: int, ring: Ring, size: map<int, int>, touching: set<int>, t: nat, u: int)
    requires Apart(base, ring, size, touching) && 0 < t && t + 1 < |ring| && ring[t] + size[ring[t]] == ring[t + 1]
    ensures forall k :: 0 <= k < |Merged(ring, t)| ==> Merged(ring, t)[k] in Grown(ring, size, t)
    ensures FreeHas(Merged(ring, t), Grown(ring, size, t), u) <==> FreeHas(ring, size, u)
  {
    var r, s := Merged(ring, t), Grown(ring, size, t);
    Distinct(base, ring, size, touching, t);
    if FreeHas(ring, size, u) {
      var k :| 0 < k < |ring| && ring[k] <= u < ring[k] + size[ring[k]];
      var m := if k <= t then k else k - 1;
      assert r[m] <= u < r[m] + s[r[m]];
    }
    if FreeHas(r, s, u) {
      var k :| 0 < k < |r| && r[k] <= u < r[k] + s[r[k]];
      var m := if k < t then k else if k > t then k + 1 else if u < ring[t + 1] then t else t + 1;
      assert ring[m] <= u < ring[m] + size[ring[m]];
    }
  }

  lemma MergeFree(base: int, ring: Ring, size: map<int, int>, live: map<int, int>, granted: set<int>,
                  touching: set<int>, t: nat)
    requires HeapOk(base, ring, size, live, granted, touching)
    requires 0 < t && t + 1 < |ring| && ring[t] + size[ring[t]] == ring[t + 1]
    requires forall x :: x in touching ==> x <= t
    ensures HeapOk(base, Merged(ring, t), Grown(ring, size, t), live, granted, touching - {t})
  {
    MergeApart(base, ring, size, touching, t);
    var r, s := Merged(ring, t), Grown(ring, size, t);
    MergeLive(base, ring, size, live, touching, t);
    forall u: int ensures u in granted <==> FreeHas(r, s, u) || LiveHas(live, u) {
      MergeHas(base, ring, size, touching, t, u);
    }
  }

  lemma MergeLive(base: int, ring: Ring, size: map<int, int>, live: map<int, int>, touching: set<int>, t: nat)
    requires Apart(base, ring, size, touching) && LiveOk(base, ring, size, live)
    requires 0 < t && t + 1 < |ring| && ring[t] + size[ring[t]] == ring[t + 1]
    ensures LiveOk(base, Merged(ring, t), Grown(ring, size, t), live)
  {
    var r, s := Merged(ring, t), Grown(ring, size, t);
    Distinct(base, ring, size, touching, t);
    forall a | a in live ensures a != ring[t] {
      assert a + live[a] <= ring[t] || ring[t] + size[ring[t]] <= a;
    }
    forall a, k | a in live && 0 < k < |r| ensures a + live[a] <= r[k] || r[k] + s[r[k]] <= a {
      var m := if k <= t then k else k + 1;
      assert a + live[a] <= ring[m] || ring[m] + size[ring[m]] <= a;
      if k == t {
        assert a + live[a] <= ring[t + 1] || ring[t + 1] + size[ring[t + 1]] <= a;
      }
    }
  }

  /** Blocks that do not touch need no leave to. */
  lemma NotTouching(base: int, ring: Ring, size: map<int, int>, live: map<int, int>, granted: set<int>,
                    touching: set<int>, t: nat)
    requires HeapOk(base, ring, size, live, granted, touching)
    requires t + 1 < |ring| ==> ring[t] + size[ring[t]] != ring[t + 1]
    ensures HeapOk(base, ring, size, live, granted, touching - {t})
  {
    forall j, k | 0 <= j < k < |ring| ensures Before(ring, size, touching - {t}, j, k) {
      assert Before(ring, size, touching, j, k);
    }
  }

  // ---------------------------------------------------------------------------
  // Allocating: a whole free block, or the tail of one

  lemma LiveMore(live: map<int, int>, b: int, n: int, u: int)
    requires b !in live
    ensures LiveHas(live[b := n], u) <==> LiveHas(live, u) || b <= u < b + n
  {
    if LiveHas(live, u) {
      var a :| a in live && a <= u < a + live[a];
      assert a in live[b := n];
    }
    if b <= u < b + n {
      assert b in live[b := n];
    }
  }

  lemma WholeHas(base: int, ring: Ring, size: map<int, int>, t: nat, u: int)
    requires Apart(base, ring, size, {}) && t + 1 < |ring|
    ensures FreeHas(ring, size, u) <==>
      FreeHas(Merged(ring, t), size, u) || ring[t + 1] <= u < ring[t + 1] + size[ring[t + 1]]
  {
    var r := Merged(ring, t);
    if FreeHas(ring, size, u) {
      var k :| 0 < k < |ring| && ring[k] <= u < ring[k] + size[ring[k]];
      assert k != t + 1 ==> r[if k <= t then k else k - 1] == ring[k];
    }
    if FreeHas(r, size, u) {
      var k :| 0 < k < |r| && r[k] <= u < r[k] + size[r[k]];
      assert ring[if k <= t then k else k + 1] == r[k];
    }
  }

  /** Free block `t + 1` becomes live. */
  lemma TakeWhole(base: int, ring: Ring, size: map<int, int>, live: map<int, int>, granted: set<int>, t: nat)
    requires HeapOk(base, ring, size, live, granted, {}) && t + 1 < |ring|
    ensures ring[t + 1] !in live && ring[t + 1] > base
    ensures HeapOk(base, Merged(ring, t), size, live[ring[t + 1] := size[ring[t + 1]]], granted, {})
  {
    var b := ring[t + 1];
    var r, after := Merged(ring, t), live[b := size[b]];
    forall a | a in live ensures a != b {
      assert a + live[a] <= ring[t + 1] || ring[t + 1] + size[ring[t + 1]] <= a;
    }
    assert Before(ring, size, {}, 0, t + 1);
    WholeApart(base, ring, size, t);
    WholeLive(base, ring, size, live, t);
    forall u: int ensures u in granted <==> FreeHas(r, size, u) || LiveHas(after, u) {
      LiveMore(live, b, size[b], u);
      WholeHas(base, ring, size, t, u);
    }
  }

  lemma WholeApart(base: int, ring: Ring, size: map<int, int>, t: nat)
    requires Apart(base, ring, size, {}) && t + 1 < |ring|
    ensures Apart(base, Merged(ring, t), size, {})
  {
    var r := Merged(ring, t);
    forall j, k | 0 <= j < k < |r| ensures Before(r, size, {}, j, k) {
      assert Before(ring, size, {}, if j <= t then j else j + 1, if k <= t then k else k + 1);
    }
  }

  lemma WholeLive(base: int, ring: Ring, size: map<int, int>, live: map<int, int>, t: nat)
    requires Apart(base, ring, size, {}) && LiveOk(base, ring, size, live) && t + 1 < |ring|
    ensures LiveOk(base, Merged(ring, t), size, live[ring[t + 1] := size[ring[t + 1]]])
  {
    var b := ring[t + 1];
    var r, after := Merged(ring, t), live[b := size[b]];
    assert Before(ring, size, {}, 0, t + 1);
    forall a, k | a in after && 0 < k < |r| ensures a + after[a] <= r[k] || r[k] + size[r[k]] <= a {
      var m := if k <= t then k else k + 1;
      if a == b {
        assert m < t + 1 ==> Before(ring, size, {}, m, t + 1);
        assert t + 1 < m ==> Before(ring, size, {}, t + 1, m);
      } else {
        assert a + live[a] <= ring[m] || ring[m] + size[ring[m]] <= a;
      }
    }
    forall a, c | a in after && c in after && a != c ensures a + after[a] <= c || c + after[c] <= a {
      assert a in live ==> a + live[a] <= ring[t + 1] || ring[t + 1] + size[ring[t + 1]] <= a;
      assert c in live ==> c + live[c] <= ring[t + 1] || ring[t + 1] + size[ring[t + 1]] <= c;
    }
  }

  /** The last `n` units of free block `i` become live. */
  lemma TakeTail(base: int, ring: Ring, size: map<int, int>, live: map<int, int>, granted: set<int>, i: nat, n: int)
    requires HeapOk(base, ring, size, live, granted, {}) && 0 < i < |ring| && 0 < n < size[ring[i]]
    ensures var b := ring[i] + size[ring[i]] - n;
      && b !in live && b > base
      && HeapOk(base, ring, size[ring[i] := size[ring[i]] - n][b := n], live[b := n], granted, {})
  {
    var b := ring[i] + size[ring[i]] - n;
    var s, after := size[ring[i] := size[ring[i]] - n][b := n], live[b := n];
    assert Before(ring, size, {}, 0, i);
    TailClear(base, ring, size, live, i, b);
    TailApart(base, ring, size, i, n);
    TailLive(base, ring, size, live, i, n);
    forall u: int ensures u in granted <==> FreeHas(ring, s, u) || LiveHas(after, u) {
      LiveMore(live, b, n, u);
      TailHas(base, ring, size, i, n, u);
    }
  }

  /** An address inside a free block is no header. */
  lemma TailClear(base: int, ring: Ring, size: map<int, int>, live: map<int, int>, i: nat, b: int)
    requires Apart(base, ring, size, {}) && LiveOk(base, ring, size, live) && 0 < i < |ring|
    requires ring[i] < b < ring[i] + size[ring[i]]
    ensures b !in live && b !in ring
  {
    forall a | a in live ensures a != b {
      assert a + live[a] <= ring[i] || ring[i] + size[ring[i]] <= a;
    }
    forall k | 0 <= k < |ring| ensures ring[k] != b {
      assert k < i ==> Before(ring, size, {}, k, i);
      assert i < k ==> Before(ring, size, {}, i, k);
    }
  }

  lemma TailApart(base: int, ring: Ring, size: map<int, int>, i: nat, n: int)
    requires Apart(base, ring, size, {}) && 0 < i < |ring| && 0 < n < size[ring[i]]
    requires ring[i] + size[ring[i]] - n !in ring
    ensures Apart(base, ring, size[ring[i] := size[ring[i]] - n][ring[i] + size[ring[i]] - n := n], {})
  {
    var s := size[ring[i] := size[ring[i]] - n][ring[i] + size[ring[i]] - n := n];
    Distinct(base, ring, size, {}, i);
    forall j, k | 0 <= j < k < |ring| ensures Before(ring, s, {}, j, k) {
      assert Before(ring, size, {}, j, k);
    }
  }

  lemma TailHas(base: int, ring: Ring, size: map<int, int>, i: nat, n: int, u: int)
    requires Apart(base, ring, size, {}) && 0 < i < |ring| && 0 < n < size[ring[i]]
    requires ring[i] + size[ring[i]] - n !in ring
    ensures var b := ring[i] + size[ring[i]] - n; var s := size[ring[i] := size[ring[i]] - n][b := n];
      FreeHas(ring, size, u) <==> FreeHas(ring, s, u) || b <= u < b + n
  {
    var b := ring[i] + size[ring[i]] - n;
    var s := size[ring[i] := size[ring[i]] - n][b := n];
    Distinct(base, ring, size, {}, i);
    if FreeHas(ring, size, u) {
      var k :| 0 < k < |ring| && ring[k] <= u < ring[k] + size[ring[k]];
      assert u < b || k != i ==> ring[k] <= u < ring[k] + s[ring[k]];
    }
    if FreeHas(ring, s, u) {
      var k :| 0 < k < |ring| && ring[k] <= u < ring[k] + s[ring[k]];
      assert ring[k] <= u < ring[k] + size[ring[k]];
    }
    if b <= u < b + n {
      assert ring[i] <= u < ring[i] + size[ring[i]];
    }
  }

  lemma TailLive(base: int, ring: Ring, size: map<int, int>, live: map<int, int>, i: nat, n: int)
    requires Apart(base, ring, size, {}) && LiveOk(base, ring, size, live) && 0 < i < |ring| && 0 < n < size[ring[i]]
    requires var b := ring[i] + size[ring[i]] - n; b !in ring && b !in live && b > base
    ensures var b := ring[i] + size[ring[i]] - n;
      LiveOk(base, ring, size[ring[i] := size[ring[i]] - n][b := n], live[b := n])
  {
    var b := ring[i] + size[ring[i]] - n;
    var s, after := size[ring[i] := size[ring[i]] - n][b := n], live[b := n];
    Distinct(base, ring, size, {}, i);
    forall a | a in live ensures a != ring[i] && (a + live[a] <= ring[i] || ring[i] + size[ring[i]] <= a) {
      assert a + live[a] <= ring[i] || ring[i] + size[ring[i]] <= a;
    }
    forall a, k | a in after && 0 < k < |ring| ensures a + after[a] <= ring[k] || ring[k] + s[ring[k]] <= a {
      if a == b {
        assert k < i ==> Before(ring, size, {}, k, i);
        assert i < k ==> Before(ring, size, {}, i, k);
      } else {
        assert a + live[a] <= ring[k] || ring[k] + size[ring[k]] <= a;
      }
    }
  }

  // ---------------------------------------------------------------------------
  // Growing: sbrk adds a region above everything, as one live block

  ghost function Units(lo: int, n: nat): (r: set<int>)
  {
    if n == 0 then {} else Units(lo, n - 1) + {lo + n - 1}
  }

  lemma {:induction false} InUnits(lo: int, n: nat, u: int)
    ensures u in Units(lo, n) <==> lo <= u < lo + n
  {
    if n > 0 {
      InUnits(lo, n - 1, u);
    }
  }

  lemma BelowTop(base: int, ring: Ring, size: map<int, int>, live: map<int, int>, granted: set<int>, lo: int)
    requires HeapOk(base, ring, size, live, granted, {}) && forall u :: u in granted ==> u < lo
    ensures forall a :: a in live ==> a + live[a] <= lo
    ensures forall k :: 0 < k < |ring| ==> ring[k] + size[ring[k]] <= lo
  {
    forall a | a in live ensures a + live[a] <= lo {
      assert LiveHas(live, a + live[a] - 1);
    }
    forall k | 0 < k < |ring| ensures ring[k] + size[ring[k]] <= lo {
      assert FreeHas(ring, size, ring[k] + size[ring[k]] - 1);
    }
  }

  lemma GrantApart(base: int, ring: Ring, size: map<int, int>, live: map<int, int>, lo: int, n: nat)
    requires Apart(base, ring, size, {}) && LiveOk(base, ring, size, live) && n > 0 && lo > base
    requires forall a :: a in live ==> a + live[a] <= lo
    requires forall k :: 0 < k < |ring| ==> ring[k] + size[ring[k]] <= lo
    ensures lo !in live && lo !in ring
    ensures Apart(base, ring, size[lo := n], {}) && LiveOk(base, ring, size[lo := n], live[lo := n])
  {
    var s := size[lo := n];
    forall j, k | 0 <= j < k < |ring| ensures Before(ring, s, {}, j, k) {
      assert Before(ring, size, {}, j, k);
    }
  }

  /** A region above everything joins the heap, as a live block. */
  lemma GrantRegion(base: int, ring: Ring, size: map<int, int>, live: map<int, int>, granted: set<int>, lo: int, n: nat)
    requires HeapOk(base, ring, size, live, granted, {}) && n > 0 && lo > base && forall u :: u in granted ==> u < lo
    ensures lo !in live && lo !in ring
    ensures HeapOk(base, ring, size[lo := n], live[lo := n], granted + Units(lo, n), {})
  {
    BelowTop(base, ring, size, live, granted, lo);
    GrantApart(base, ring, size, live, lo, n);
    GrantConserved(ring, size, live, granted, lo, n);
  }

  lemma GrantConserved(ring: Ring, size: map<int, int>, live: map<int, int>, granted: set<int>, lo: int, n: nat)
    requires (forall k :: 0 <= k < |ring| ==> ring[k] in size) && lo !in live && lo !in ring
    requires Conserved(ring, size, live, granted)
    ensures Conserved(ring, size[lo := n], live[lo := n], granted + Units(lo, n))
  {
    var s, after := size[lo := n], live[lo := n];
    forall u: int ensures u in granted + Units(lo, n) <==> FreeHas(ring, s, u) || LiveHas(after, u) {
      InUnits(lo, n, u);
      LiveMore(live, lo, n, u);
    }
  }

  // ---------------------------------------------------------------------------
  // The links

  function Succ(k: nat, n: nat): (r: nat)
  {
    if k + 1 < n then k + 1 else 0
  }

  /** Following `ptr` goes round the ring. */
  predicate Linked(ring: Ring, ptr: map<int, int>)
  {
    forall k :: 0 <= k < |ring| ==> LinkAt(ring, ptr, k)
  }

  predicate LinkAt(ring: Ring, ptr: map<int, int>, k: nat)
    requires k < |ring|
  {
    ring[k] in ptr && ptr[ring[k]] == ring[Succ(k, |ring|)]
  }

  predicate NoRepeats(ring: Ring)
  {
    forall j, k :: 0 <= j < k < |ring| ==> ring[j] != ring[k]
  }

  lemma ApartNoRepeats(base: int, ring: Ring, size: map<int, int>, touching: set<int>)
    requires Apart(base, ring, size, touching)
    ensures NoRepeats(ring)
  {
    forall j, k | 0 <= j < k < |ring| ensures ring[j] != ring[k] {
      assert Before(ring, size, touching, j, k);
      assert j == 0 && k > 1 ==> Before(ring, size, touching, 1, k);
      assert size[ring[j]] > 0 || j == 0;
    }
  }

  lemma LinkInsert(ring: Ring, ptr: map<int, int>, b: int, i: nat)
    requires Linked(ring, ptr) && NoRepeats(ring) && b !in ring && i < |ring|
    ensures LinkAt(ring, ptr, i)
    ensures Linked(Inserted(ring, b, i), ptr[b := ptr[ring[i]]][ring[i] := b])
  {
    assert LinkAt(ring, ptr, i);
    var r, q := Inserted(ring, b, i), ptr[b := ptr[ring[i]]][ring[i] := b];
    forall k | 0 <= k < |r| ensures LinkAt(r, q, k) {
      var m := if k <= i then k else k - 1;
      assert LinkAt(ring, ptr, m) && LinkAt(ring, ptr, i);
      assert m != i ==> ring[m] != ring[i];
    }
  }

  lemma LinkMerge(ring: Ring, ptr: map<int, int>, t: nat)
    requires Linked(ring, ptr) && NoRepeats(ring) && t + 1 < |ring|
    ensures LinkAt(ring, ptr, t + 1)
    ensures Linked(Merged(ring, t), ptr[ring[t] := ptr[ring[t + 1]]])
  {
    assert LinkAt(ring, ptr, t + 1);
    var r, q := Merged(ring, t), ptr[ring[t] := ptr[ring[t + 1]]];
    forall k | 0 <= k < |r| ensures LinkAt(r, q, k) {
      var m := if k <= t then k else k + 1;
      assert LinkAt(ring, ptr, m) && LinkAt(ring, ptr, t + 1);
      assert m != t ==> ring[m] != ring[t];
    }
  }
}
