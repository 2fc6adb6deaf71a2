/** The collision-surface list and the collision-model loader (surface.c).

    A collision model is an array of `s16` words: a header word, a vertex
    count, three words per vertex, then groups of (surface type, triangle
    count, index triples), closed by the word 0x41.  Loading it transforms
    the vertices into world space, turns every triangle into a `Surface`,
    drops degenerate triangles, and inserts the rest into one list ordered by
    descending `vertex1.y`.

    The object transform is a parameter `xf` (the matrix product and its
    floats are outside the model); the unit normal and plane offset are not
    stored: a surface keeps the integer cross product its normal is
    normalised from. */
module Surfaces {
  import opened Numeric
  import opened Results

  datatype Vec3i = Vec3i(x: int, y: int, z: int)

  const Zero: Vec3i := Vec3i(0, 0, 0)

  /** Handle of the object that owns a surface (a raw pointer in C). */
  type ObjectId = nat

  datatype Surface = Surface(
    surfaceType: int,
    lowerY: int,
    upperY: int,
    vertex1: Vec3i,
    vertex2: Vec3i,
    vertex3: Vec3i,
    /** The s32 integer cross product; the C normal is this vector scaled to length 1. */
    normal: Vec3i,
    owner: Option<ObjectId>)

  /** The list of floors plus the two allocation counters of the C pools. */
  datatype SurfacePool = SurfacePool(
    floors: seq<Surface>,
    surfacesAllocated: int,
    surfaceNodesAllocated: int)

  datatype LoadError =
    | Truncated        // the descriptor ends before the 0x41 terminator
    | BadVertexCount   // negative count, or more than the 600-word vertex buffer
    | BadIndex         // a vertex offset (3 * index, wrapped to s16) reads outside the loaded words
    | PoolFull         // more than 100 surfaces

  const MaxSurfaces: int := 100
  const MaxVertexWords: int := 600
  const Terminator: int := 0x41

  /** The key the list is ordered by. */
  function Priority(s: Surface): int { s.vertex1.y }

  ghost predicate Sorted(floors: seq<Surface>) {
    forall i, j :: 0 <= i < j < |floors| ==> Priority(floors[i]) >= Priority(floors[j])
  }

  /** Both counters equal the list length and the list fits in the
      100-entry pools. */
  predicate PoolCounted(pool: SurfacePool) {
    && pool.surfacesAllocated == |pool.floors|
    && pool.surfaceNodesAllocated == |pool.floors|
    && |pool.floors| <= MaxSurfaces
  }

  /** The pool invariant: the counters agree with the list and the list is
      ordered by descending priority. */
  ghost predicate PoolValid(pool: SurfacePool) {
    PoolCounted(pool) && Sorted(pool.floors)
  }

  /** The floors of `xs` whose priority is `p`, in list order. */
  function WithPriority(xs: seq<Surface>, p: int): seq<Surface> {
    if xs == [] then []
    else (if Priority(xs[0]) == p then [xs[0]] else []) + WithPriority(xs[1..], p)
  }

  // ---------------------------------------------------------------- clear

  function ClearSurfaces(): (pool: SurfacePool)
    ensures PoolValid(pool)
    ensures pool.floors == [] && pool.surfacesAllocated == 0 && pool.surfaceNodesAllocated == 0
  {
    SurfacePool([], 0, 0)
  }

  // ---------------------------------------------------------------- insertion

  /** Where `addSurface` links a surface of priority `p`: the walk stops at the
      first node whose priority is strictly below `p`. */
  function InsertPos(floors: seq<Surface>, p: int): (i: nat)
    ensures i <= |floors|
    ensures forall j :: 0 <= j < i ==> Priority(floors[j]) >= p
    ensures i < |floors| ==> Priority(floors[i]) < p
  {
    if floors == [] then 0
    else if p > Priority(floors[0]) then 0
    else 1 + InsertPos(floors[1..], p)
  }

  function Insert(floors: seq<Surface>, s: Surface): (r: seq<Surface>)
    ensures |r| == |floors| + 1
    ensures multiset(r) == multiset(floors) + multiset{s}
  {
    var i := InsertPos(floors, Priority(s));
    SpliceFacts(floors, s, i);
    floors[..i] + [s] + floors[i..]
  }

  /** Inserting into a sorted list keeps it sorted. */
  lemma InsertKeepsSorted(floors: seq<Surface>, s: Surface)
    requires Sorted(floors)
    ensures Sorted(Insert(floors, s))
  {
    SpliceSorted(floors, s, InsertPos(floors, Priority(s)));
  }

  /** Taking the new surface back out gives the old list: the relative order
      of the surfaces already present is unchanged. */
  lemma InsertKeepsOrder(floors: seq<Surface>, s: Surface)
    ensures var r := Insert(floors, s);
      exists i :: 0 <= i < |r| && r[i] == s && r[..i] + r[i+1..] == floors
  {
    var i := InsertPos(floors, Priority(s));
    SpliceFacts(floors, s, i);
    var r := Insert(floors, s);
    assert r == floors[..i] + [s] + floors[i..];
    assert r[i] == s && r[..i] + r[i+1..] == floors;
  }

  lemma ConcatAssoc<T>(a: seq<T>, b: seq<T>, c: seq<T>)
    ensures (a + b) + c == a + (b + c)
  {
  }

  lemma SpliceParts<T>(a: seq<T>, x: T, b: seq<T>)
    ensures var r := a + [x] + b;
      |r| == |a| + 1 + |b| && r[|a|] == x && r[..|a|] == a && r[|a|+1..] == b
  {
  }

  lemma SpliceFacts(floors: seq<Surface>, s: Surface, i: nat)
    requires i <= |floors|
    ensures var r := floors[..i] + [s] + floors[i..];
      && multiset(r) == multiset(floors) + multiset{s}
      && r[i] == s && r[..i] + r[i+1..] == floors
  {
    var pre, post := floors[..i], floors[i..];
    assert floors == pre + post;
    SpliceParts(pre, s, post);
  }

  lemma SpliceSorted(floors: seq<Surface>, s: Surface, i: nat)
    requires i == InsertPos(floors, Priority(s))
    requires Sorted(floors)
    ensures Sorted(floors[..i] + [s] + floors[i..])
  {
    var r := floors[..i] + [s] + floors[i..];
    SplicePlacement(floors, s, i);
    SpliceIndex(floors, s, i);
    forall a, b | 0 <= a < b < |r|
      ensures Priority(r[a]) >= Priority(r[b])
    {
      if a != i && b != i {
        var a', b' := if a < i then a else a - 1, if b < i then b else b - 1;
        assert r[a] == floors[a'] && r[b] == floors[b'];
      }
    }
  }

  /** Where the elements of `floors` sit once `s` is spliced in at `i`. */
  lemma SpliceIndex(floors: seq<Surface>, s: Surface, i: nat)
    requires i <= |floors|
    ensures var r := floors[..i] + [s] + floors[i..];
      && (forall j :: 0 <= j < i ==> r[j] == floors[j])
      && (forall j :: i < j < |r| ==> r[j] == floors[j - 1])
  {
  }

  function AddSurface(pool: SurfacePool, s: Surface): (r: SurfacePool)
    requires PoolCounted(pool) && |pool.floors| < MaxSurfaces
    ensures PoolCounted(r)
    ensures r.floors == Insert(pool.floors, s)
  {
    SurfacePool(Insert(pool.floors, s), pool.surfacesAllocated + 1, pool.surfaceNodesAllocated + 1)
  }

  /** `addSurface` keeps the pool invariant. */
  lemma AddSurfaceKeepsValid(pool: SurfacePool, s: Surface)
    requires PoolValid(pool) && |pool.floors| < MaxSurfaces
    ensures PoolValid(AddSurface(pool, s))
  {
    InsertKeepsSorted(pool.floors, s);
  }

  /** The inserted surface lands after every surface of priority at least its
      own and before every surface of strictly lower priority. */
  lemma InsertPlacement(floors: seq<Surface>, s: Surface)
    requires Sorted(floors)
    ensures var r := Insert(floors, s);
      exists i :: 0 <= i < |r| && r[i] == s
        && (forall j :: 0 <= j < i ==> Priority(r[j]) >= Priority(s))
        && (forall j :: i < j < |r| ==> Priority(r[j]) < Priority(s))
  {
    var i := InsertPos(floors, Priority(s));
    InsertAtPos(floors, s, i);
    SplicePlacement(floors, s, i);
  }

  /** Splicing `s` in at its insertion position puts it after every surface
      of priority at least its own and before every lower one. */
  lemma SplicePlacement(floors: seq<Surface>, s: Surface, i: nat)
    requires Sorted(floors)
    requires i == InsertPos(floors, Priority(s))
    ensures var r := floors[..i] + [s] + floors[i..];
      && 0 <= i < |r| && r[i] == s
      && (forall j :: 0 <= j < i ==> Priority(r[j]) >= Priority(s))
      && (forall j :: i < j < |r| ==> Priority(r[j]) < Priority(s))
  {
    var r := floors[..i] + [s] + floors[i..];
    forall j | 0 <= j < i
      ensures Priority(r[j]) >= Priority(s)
    {
      assert r[j] == floors[j];
    }
    forall j | i < j < |r|
      ensures Priority(r[j]) < Priority(s)
    {
      assert r[j] == floors[j - 1];
      assert Priority(floors[j - 1]) <= Priority(floors[i]) < Priority(s);
    }
  }

  lemma {:induction false} WithPriorityAppend(a: seq<Surface>, b: seq<Surface>, p: int)
    ensures WithPriority(a + b, p) == WithPriority(a, p) + WithPriority(b, p)
    decreases |a|
  {
    if a == [] {
      assert a + b == b;
    } else {
      var ab := a + b;
      assert ab[0] == a[0] && ab[1..] == a[1..] + b;
      WithPriorityAppend(a[1..], b, p);
      var h := if Priority(a[0]) == p then [a[0]] else [];
      ConcatAssoc(h, WithPriority(a[1..], p), WithPriority(b, p));
    }
  }

  lemma WithPriorityNone(xs: seq<Surface>, p: int)
    requires forall j :: 0 <= j < |xs| ==> Priority(xs[j]) < p
    ensures WithPriority(xs, p) == []
  {
    if xs != [] {
      WithPriorityNone(xs[1..], p);
    }
  }

  /** Stability: for every priority value, the surfaces of that priority keep
      their insertion order, and a new one goes after all older ones. */
  lemma {:induction false} InsertStable(floors: seq<Surface>, s: Surface, p: int)
    requires Sorted(floors)
    ensures WithPriority(Insert(floors, s), p)
         == WithPriority(floors, p) + (if Priority(s) == p then [s] else [])
  {
    var i := InsertPos(floors, Priority(s));
    var pre, post := floors[..i], floors[i..];
    if Priority(s) == p {
      BelowInsertPos(floors, Priority(s));
    }
    SpliceWithPriority(pre, s, post, p);
    assert floors == pre + post;
  }

  /** Behind the insertion point of a sorted list every priority is lower. */
  lemma BelowInsertPos(floors: seq<Surface>, p: int)
    requires Sorted(floors)
    ensures var i := InsertPos(floors, p);
      forall j :: 0 <= j < |floors[i..]| ==> Priority(floors[i..][j]) < p
  {
    var i := InsertPos(floors, p);
    forall j | 0 <= j < |floors[i..]|
      ensures Priority(floors[i..][j]) < p
    {
      assert floors[i..][j] == floors[i + j];
      assert Priority(floors[i + j]) <= Priority(floors[i]);
    }
  }

  lemma SpliceWithPriority(pre: seq<Surface>, s: Surface, post: seq<Surface>, p: int)
    requires Priority(s) == p ==> forall j :: 0 <= j < |post| ==> Priority(post[j]) < p
    ensures WithPriority(pre + [s] + post, p)
         == WithPriority(pre + post, p) + (if Priority(s) == p then [s] else [])
  {
    assert pre + [s] + post == pre + ([s] + post);
    WithPriorityAppend(pre, [s] + post, p);
    WithPriorityAppend([s], post, p);
    WithPriorityAppend(pre, post, p);
    assert WithPriority([s], p) == (if Priority(s) == p then [s] else []) by {
      assert [s][1..] == [];
    }
    if Priority(s) == p {
      WithPriorityNone(post, p);
    }
  }

  lemma InsertAtPos(floors: seq<Surface>, s: Surface, i: nat)
    requires InsertPos(floors, Priority(s)) == i
    ensures i <= |floors|
    ensures Insert(floors, s) == floors[..i] + [s] + floors[i..]
  {
  }

  /** Successive `addSurface` calls. */
  function InsertAll(floors: seq<Surface>, ss: seq<Surface>): (r: seq<Surface>)
    ensures |r| == |floors| + |ss|
    ensures multiset(r) == multiset(floors) + multiset(ss)
    decreases |ss|
  {
    if ss == [] then floors
    else
      assert ss == [ss[0]] + ss[1..];
      InsertAll(Insert(floors, ss[0]), ss[1..])
  }

  lemma {:induction false} InsertAllSorted(floors: seq<Surface>, ss: seq<Surface>)
    requires Sorted(floors)
    ensures Sorted(InsertAll(floors, ss))
    decreases |ss|
  {
    if ss != [] {
      InsertKeepsSorted(floors, ss[0]);
      InsertAllSorted(Insert(floors, ss[0]), ss[1..]);
    }
  }

  /** Inserting one by one is a stable sort by descending priority: the
      result is sorted, and for each priority the surfaces appear in the
      order they were inserted. */
  lemma {:induction false} InsertAllStableSort(floors: seq<Surface>, ss: seq<Surface>, p: int)
    requires Sorted(floors)
    ensures Sorted(InsertAll(floors, ss))
    ensures WithPriority(InsertAll(floors, ss), p) == WithPriority(floors, p) + WithPriority(ss, p)
    decreases |ss|
  {
    InsertAllSorted(floors, ss);
    if ss != [] {
      var f1 := Insert(floors, ss[0]);
      var own := if Priority(ss[0]) == p then [ss[0]] else [];
      InsertKeepsSorted(floors, ss[0]);
      InsertStable(floors, ss[0], p);
      InsertAllStableSort(f1, ss[1..], p);
      var a, b := WithPriority(floors, p), WithPriority(ss[1..], p);
      calc {
        WithPriority(InsertAll(floors, ss), p);
        WithPriority(InsertAll(f1, ss[1..]), p);
        WithPriority(f1, p) + b;
        (a + own) + b;
        { ConcatAssoc(a, own, b); }
        a + (own + b);
        a + WithPriority(ss, p);
      }
    }
  }

  // ---------------------------------------------------------------- vertices

  /** Vertex `k` of a flat word table: words 3k, 3k+1, 3k+2. */
  function VertexAt(table: seq<int>, k: int): Vec3i
    requires 0 <= k && 3 * k + 2 < |table|
  {
    Vec3i(table[3 * k], table[3 * k + 1], table[3 * k + 2])
  }

  /** A world-space vertex as stored in the `s16` vertex buffer. */
  function Place(xf: Vec3i -> Vec3i, v: Vec3i): (w: Vec3i)
    ensures InS16(w.x) && InS16(w.y) && InS16(w.z)
  {
    var t := xf(v);
    Vec3i(S16(t.x), S16(t.y), S16(t.z))
  }

  /** The local vertex `k` of a vertex list starting at word `start`. */
  function LocalVertex(d: seq<int>, start: nat, k: nat): Vec3i
    requires start + 3 * k + 2 < |d|
  {
    Vec3i(d[start + 3 * k], d[start + 3 * k + 1], d[start + 3 * k + 2])
  }

  /** The world-space vertex buffer built from the first `n` local vertices. */
  function VertexWords(d: seq<int>, start: nat, n: nat, xf: Vec3i -> Vec3i): (table: seq<int>)
    requires start + 3 * n <= |d|
    ensures |table| == 3 * n
    ensures forall k :: 0 <= k < n ==> VertexAt(table, k) == Place(xf, LocalVertex(d, start, k))
  {
    if n == 0 then []
    else
      var prev := VertexWords(d, start, n - 1, xf);
      var w := Place(xf, LocalVertex(d, start, n - 1));
      var table := prev + [w.x, w.y, w.z];
      assert forall k :: 0 <= k < n - 1 ==> VertexAt(table, k) == VertexAt(prev, k);
      table
  }

  /** Reads the vertex count at word 1 (word 0 is the skipped header) and
      builds the vertex buffer; returns it with the position after it. */
  function ReadVertices(d: seq<int>, xf: Vec3i -> Vec3i): (r: Result<(seq<int>, nat), LoadError>)
    ensures r.Ok? ==> 2 <= |d| && 0 <= d[1] && 3 * d[1] <= MaxVertexWords
    ensures r.Ok? ==> r.value.1 == 2 + 3 * d[1] <= |d| && |r.value.0| == 3 * d[1]
    ensures r.Ok? ==> forall k :: 0 <= k < d[1] ==> VertexAt(r.value.0, k) == Place(xf, LocalVertex(d, 2, k))
    ensures r.Err? ==> (|d| < 2 || d[1] < 0 || 3 * d[1] > MaxVertexWords || 2 + 3 * d[1] > |d|)
  {
    if |d| < 2 then Err(Truncated)
    else if d[1] < 0 || 3 * d[1] > MaxVertexWords then Err(BadVertexCount)
    else if 2 + 3 * d[1] > |d| then Err(Truncated)
    else Ok((VertexWords(d, 2, d[1], xf), 2 + 3 * d[1]))
  }

  // ---------------------------------------------------------------- triangles

  function Sub(a: Vec3i, b: Vec3i): Vec3i { Vec3i(a.x - b.x, a.y - b.y, a.z - b.z) }

  function Cross(u: Vec3i, w: Vec3i): Vec3i {
    Vec3i(u.y * w.z - u.z * w.y, u.z * w.x - u.x * w.z, u.x * w.y - u.y * w.x)
  }

  function Wrap32(v: Vec3i): Vec3i { Vec3i(S32(v.x), S32(v.y), S32(v.z)) }

  /** The normal direction `readSurfaceData` computes, as `s32` arithmetic:
      (v2 - v1) x (v3 - v2), each component wrapped to 32 bits (wrapping each
      product and the difference gives the same value as wrapping once). */
  function TriangleNormal(v1: Vec3i, v2: Vec3i, v3: Vec3i): Vec3i {
    Wrap32(Cross(Sub(v2, v1), Sub(v3, v2)))
  }

  /** Three points are collinear when the edges from `a` are parallel. */
  predicate Collinear(a: Vec3i, b: Vec3i, c: Vec3i) {
    Cross(Sub(b, a), Sub(c, a)) == Zero
  }

  function VertexCount(table: seq<int>): nat { |table| / 3 }

  /** The word offset `readSurfaceData` reads a vertex from: three times the
      index, truncated to `s16`, so a large index wraps around. */
  function IndexOffset(k: int): int { S16(3 * k) }

  /** An index whose offset lands inside the loaded vertex words. */
  predicate ValidIndex(table: seq<int>, k: int) {
    0 <= IndexOffset(k) && IndexOffset(k) + 2 < |table|
  }

  /** The three words an index reads, starting at its wrapped offset. */
  function IndexedVertex(table: seq<int>, k: int): Vec3i
    requires ValidIndex(table, k)
  {
    var o := IndexOffset(k);
    Vec3i(table[o], table[o + 1], table[o + 2])
  }

  /** When three times the index fits in `s16` nothing wraps: the index is
      valid exactly when it names a loaded vertex, and it reads that vertex. */
  lemma IndexedVertexUnwrapped(table: seq<int>, k: int)
    requires InS16(3 * k)
    ensures ValidIndex(table, k) <==> 0 <= k < VertexCount(table)
    ensures ValidIndex(table, k) ==> IndexedVertex(table, k) == VertexAt(table, k)
  {
    assert IndexOffset(k) == 3 * k;
  }

  /** An index of 21846 wraps to offset 2 and reads the words 2, 3 and 4,
      which straddle the first two vertices; a negative index can wrap into
      the table too. */
  lemma IndexWraps(table: seq<int>)
    requires 5 <= |table|
    ensures IndexOffset(21846) == 2 && ValidIndex(table, 21846)
    ensures IndexedVertex(table, 21846) == Vec3i(table[2], table[3], table[4])
    ensures IndexOffset(-21845) == 1 && ValidIndex(table, -21845)
  {
  }

  /** `readSurfaceData`: builds the surface for one index triple, or `None` for
      a degenerate triangle.  In C the magnitude test `mag < 0.0001` fails for
      every non-zero integer vector (its float length is at least 1), so the
      triangle is dropped exactly when the integer normal is zero. */
  function ReadSurfaceData(table: seq<int>, i1: int, i2: int, i3: int): (r: Result<Option<Surface>, LoadError>)
    ensures r.Err? <==> !(ValidIndex(table, i1) && ValidIndex(table, i2) && ValidIndex(table, i3))
    ensures r.Ok? ==>
      var v1, v2, v3 := IndexedVertex(table, i1), IndexedVertex(table, i2), IndexedVertex(table, i3);
      (r.value.None? <==> TriangleNormal(v1, v2, v3) == Zero)
    ensures r.Ok? && r.value.Some? ==>
      var s := r.value.value;
      && s.vertex1 == IndexedVertex(table, i1)
      && s.vertex2 == IndexedVertex(table, i2)
      && s.vertex3 == IndexedVertex(table, i3)
      && s.normal == TriangleNormal(s.vertex1, s.vertex2, s.vertex3) != Zero
      && s.surfaceType == 0 && s.owner == None
      && s.lowerY == S16(Min(Min(s.vertex1.y, s.vertex2.y), s.vertex3.y) - 5)
      && s.upperY == S16(Max(Max(s.vertex1.y, s.vertex2.y), s.vertex3.y) + 5)
  {
    if !(ValidIndex(table, i1) && ValidIndex(table, i2) && ValidIndex(table, i3)) then Err(BadIndex)
    else
      var v1, v2, v3 := IndexedVertex(table, i1), IndexedVertex(table, i2), IndexedVertex(table, i3);
      var n := TriangleNormal(v1, v2, v3);
      var minY := Min(Min(v1.y, v2.y), v3.y);
      var maxY := Max(Max(v1.y, v2.y), v3.y);
      if n == Zero then Ok(None)
      else Ok(Some(Surface(0, S16(minY - 5), S16(maxY + 5), v1, v2, v3, n, None)))
  }

  /** The normal `readSurfaceData` uses, (v2 - v1) x (v3 - v2), equals the
      textbook (v2 - v1) x (v3 - v1). */
  lemma CrossOfEdges(a: Vec3i, b: Vec3i, c: Vec3i)
    ensures Cross(Sub(b, a), Sub(c, b)) == Cross(Sub(b, a), Sub(c, a))
  {
    var u, w := Sub(b, a), Sub(c, a);
    assert Sub(c, b) == Vec3i(w.x - u.x, w.y - u.y, w.z - u.z);
    assert u.y * (w.z - u.z) - u.z * (w.y - u.y) == u.y * w.z - u.z * w.y;
    assert u.z * (w.x - u.x) - u.x * (w.z - u.z) == u.z * w.x - u.x * w.z;
    assert u.x * (w.y - u.y) - u.y * (w.x - u.x) == u.x * w.y - u.y * w.x;
  }

  predicate Small(v: Vec3i) {
    -0x4000 <= v.x < 0x4000 && -0x4000 <= v.y < 0x4000 && -0x4000 <= v.z < 0x4000
  }

  /** With coordinates in [-2^14, 2^14) no product overflows 32 bits, so the
      wrapped normal is the exact cross product. */
  lemma {:induction false} NormalExact(v1: Vec3i, v2: Vec3i, v3: Vec3i)
    requires Small(v1) && Small(v2) && Small(v3)
    ensures TriangleNormal(v1, v2, v3) == Cross(Sub(v2, v1), Sub(v3, v2))
  {
    var u, w := Sub(v2, v1), Sub(v3, v2);
    MulBound(u.y, w.z); MulBound(u.z, w.y);
    MulBound(u.z, w.x); MulBound(u.x, w.z);
    MulBound(u.x, w.y); MulBound(u.y, w.x);
  }

  /** For vertices small enough that the s32 products cannot overflow, a
      triangle is dropped exactly when its vertices are collinear. */
  lemma DroppedIffCollinear(table: seq<int>, i1: int, i2: int, i3: int)
    requires ValidIndex(table, i1) && ValidIndex(table, i2) && ValidIndex(table, i3)
    requires Small(IndexedVertex(table, i1)) && Small(IndexedVertex(table, i2)) && Small(IndexedVertex(table, i3))
    ensures ReadSurfaceData(table, i1, i2, i3).Ok?
    ensures ReadSurfaceData(table, i1, i2, i3).value.None?
        <==> Collinear(IndexedVertex(table, i1), IndexedVertex(table, i2), IndexedVertex(table, i3))
  {
    var v1, v2, v3 := IndexedVertex(table, i1), IndexedVertex(table, i2), IndexedVertex(table, i3);
    NormalExact(v1, v2, v3);
    CrossOfEdges(v1, v2, v3);
  }

  /** The vertical bounds enclose every vertex strictly, as long as widening
      by 5 does not leave the `s16` range. */
  lemma BoundsEncloseVertices(s: Surface)
    requires s.lowerY == S16(Min(Min(s.vertex1.y, s.vertex2.y), s.vertex3.y) - 5)
    requires s.upperY == S16(Max(Max(s.vertex1.y, s.vertex2.y), s.vertex3.y) + 5)
    requires -0x8000 + 5 <= s.vertex1.y < 0x8000 - 5
    requires -0x8000 + 5 <= s.vertex2.y < 0x8000 - 5
    requires -0x8000 + 5 <= s.vertex3.y < 0x8000 - 5
    ensures s.lowerY < s.vertex1.y < s.upperY
    ensures s.lowerY < s.vertex2.y < s.upperY
    ensures s.lowerY < s.vertex3.y < s.upperY
  {
  }

  // ---------------------------------------------------------------- loader

  /** Triangles `i..n-1` of a group whose index triples start at word `pos`. */
  function LoadTriangles(d: seq<int>, pos: nat, i: nat, n: int, table: seq<int>,
                         kind: int, obj: ObjectId, pool: SurfacePool): (r: Result<SurfacePool, LoadError>)
    requires PoolCounted(pool)
    decreases n - i
    ensures r.Ok? ==> PoolCounted(r.value) && |r.value.floors| >= |pool.floors|
  {
    if i >= n then Ok(pool)
    else if pos + 3 * i + 3 > |d| then Err(Truncated)
    else
      var t :- ReadSurfaceData(table, d[pos + 3 * i], d[pos + 3 * i + 1], d[pos + 3 * i + 2]);
      match t
      case None => LoadTriangles(d, pos, i + 1, n, table, kind, obj, pool)
      case Some(s) =>
        if |pool.floors| >= MaxSurfaces then Err(PoolFull)
        else
          var s' := s.(surfaceType := kind, owner := Some(obj));
          LoadTriangles(d, pos, i + 1, n, table, kind, obj, AddSurface(pool, s'))
  }

  /** The number of words a group occupies: type, count, and one triple per
      triangle (a negative count reads no triples). */
  function GroupWords(n: int): nat { 2 + 3 * Max(n, 0) }

  /** `loadObjColModelFromVertexData` repeated until the terminator. */
  function LoadGroups(d: seq<int>, pos: nat, table: seq<int>, obj: ObjectId, pool: SurfacePool): (r: Result<SurfacePool, LoadError>)
    requires PoolCounted(pool)
    decreases |d| - pos
    ensures r.Ok? ==> PoolCounted(r.value) && |r.value.floors| >= |pool.floors|
  {
    if pos >= |d| then Err(Truncated)
    else if d[pos] == Terminator then Ok(pool)
    else if pos + 1 >= |d| then Err(Truncated)
    else
      var p1 :- LoadTriangles(d, pos + 2, 0, d[pos + 1], table, d[pos], obj, pool);
      LoadGroups(d, pos + GroupWords(d[pos + 1]), table, obj, p1)
  }

  /** `loadObjectCollisionModel` for the object `obj` placed by `xf`. */
  function LoadObjectCollisionModel(d: seq<int>, xf: Vec3i -> Vec3i, obj: ObjectId, pool: SurfacePool): (r: Result<SurfacePool, LoadError>)
    requires PoolCounted(pool)
    ensures r.Ok? ==> PoolCounted(r.value) && |r.value.floors| >= |pool.floors|
    ensures r.Ok? ==> ReadVertices(d, xf).Ok?
  {
    var (table, pos) :- ReadVertices(d, xf);
    LoadGroups(d, pos, table, obj, pool)
  }
}
