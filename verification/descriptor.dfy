/** The collision-model descriptor as a data format.

    `Surfaces.LoadObjectCollisionModel` walks the `s16` words and inserts
    surfaces as it goes, the way surface.c does.  This module gives the same
    words a structural reading (`Parse`), its inverse (`Encode`), and the
    theorem that the streaming loader inserts exactly the non-degenerate
    triangles of the parsed model, in group and triangle order. */
module Descriptor {
  import opened Numeric
  import opened Results
  import opened Surfaces

  /** One index triple: three vertex numbers. */
  datatype Triple = Triple(i1: int, i2: int, i3: int)

  datatype Group = Group(surfaceType: int, tris: seq<Triple>)

  /** A decoded descriptor: the skipped header word, the local vertices and
      the triangle groups. */
  datatype Model = Model(header: int, vertices: seq<Vec3i>, groups: seq<Group>)

  // ---------------------------------------------------------------- decoding

  function Vertices(d: seq<int>, start: nat, n: nat): (vs: seq<Vec3i>)
    requires start + 3 * n <= |d|
    ensures |vs| == n
    ensures forall k :: 0 <= k < n ==> vs[k] == LocalVertex(d, start, k)
  {
    seq(n, k requires 0 <= k < n => LocalVertex(d, start, k))
  }

  function TriAt(d: seq<int>, pos: nat, i: nat): Triple
    requires pos + 3 * i + 2 < |d|
  {
    Triple(d[pos + 3 * i], d[pos + 3 * i + 1], d[pos + 3 * i + 2])
  }

  function Triples(d: seq<int>, pos: nat, n: nat): (ts: seq<Triple>)
    requires pos + 3 * n <= |d|
    ensures |ts| == n
    ensures forall i :: 0 <= i < n ==> ts[i] == TriAt(d, pos, i)
  {
    seq(n, i requires 0 <= i < n => TriAt(d, pos, i))
  }

  /** The groups from word `pos` up to the terminator. */
  function ParseGroups(d: seq<int>, pos: nat): (r: Result<seq<Group>, LoadError>)
    decreases |d| - pos
  {
    if pos >= |d| then Err(Truncated)
    else if d[pos] == Terminator then Ok([])
    else if pos + 1 >= |d| then Err(Truncated)
    else
      var n := Max(d[pos + 1], 0);
      if pos + 2 + 3 * n > |d| then Err(Truncated)
      else
        var rest :- ParseGroups(d, pos + 2 + 3 * n);
        Ok([Group(d[pos], Triples(d, pos + 2, n))] + rest)
  }

  function Parse(d: seq<int>): (r: Result<Model, LoadError>)
    ensures r.Ok? ==> |d| >= 2 && |r.value.vertices| == d[1] && 3 * |r.value.vertices| <= MaxVertexWords
  {
    if |d| < 2 then Err(Truncated)
    else if d[1] < 0 || 3 * d[1] > MaxVertexWords then Err(BadVertexCount)
    else if 2 + 3 * d[1] > |d| then Err(Truncated)
    else
      var gs :- ParseGroups(d, 2 + 3 * d[1]);
      Ok(Model(d[0], Vertices(d, 2, d[1]), gs))
  }

  // ---------------------------------------------------------------- encoding

  function EncodeVertices(vs: seq<Vec3i>): (w: seq<int>)
    ensures |w| == 3 * |vs|
  {
    if vs == [] then [] else [vs[0].x, vs[0].y, vs[0].z] + EncodeVertices(vs[1..])
  }

  function EncodeTriples(ts: seq<Triple>): (w: seq<int>)
    ensures |w| == 3 * |ts|
  {
    if ts == [] then [] else [ts[0].i1, ts[0].i2, ts[0].i3] + EncodeTriples(ts[1..])
  }

  function EncodeGroups(gs: seq<Group>): seq<int> {
    if gs == [] then []
    else [gs[0].surfaceType, |gs[0].tris|] + EncodeTriples(gs[0].tris) + EncodeGroups(gs[1..])
  }

  function Encode(m: Model): seq<int> {
    [m.header, |m.vertices|] + EncodeVertices(m.vertices) + EncodeGroups(m.groups) + [Terminator]
  }

  /** What a model needs to survive encoding: a vertex table that fits the
      600-word buffer and no group type equal to the terminator. */
  predicate WellFormed(m: Model) {
    && 3 * |m.vertices| <= MaxVertexWords
    && forall g :: g in m.groups ==> g.surfaceType != Terminator
  }

  lemma {:induction false} EncodeVerticesAt(vs: seq<Vec3i>, k: nat)
    requires k < |vs|
    ensures EncodeVertices(vs)[3 * k] == vs[k].x
    ensures EncodeVertices(vs)[3 * k + 1] == vs[k].y
    ensures EncodeVertices(vs)[3 * k + 2] == vs[k].z
  {
    if k > 0 {
      EncodeVerticesAt(vs[1..], k - 1);
    }
  }

  lemma {:induction false} EncodeTriplesAt(ts: seq<Triple>, k: nat)
    requires k < |ts|
    ensures EncodeTriples(ts)[3 * k] == ts[k].i1
    ensures EncodeTriples(ts)[3 * k + 1] == ts[k].i2
    ensures EncodeTriples(ts)[3 * k + 2] == ts[k].i3
  {
    if k > 0 {
      EncodeTriplesAt(ts[1..], k - 1);
    }
  }

  lemma VerticesOfEncoding(pre: seq<int>, vs: seq<Vec3i>, post: seq<int>)
    ensures Vertices(pre + EncodeVertices(vs) + post, |pre|, |vs|) == vs
  {
    var d := pre + EncodeVertices(vs) + post;
    forall k | 0 <= k < |vs|
      ensures LocalVertex(d, |pre|, k) == vs[k]
    {
      EncodeVerticesAt(vs, k);
    }
  }

  lemma TriplesOfEncoding(pre: seq<int>, ts: seq<Triple>, post: seq<int>)
    ensures Triples(pre + EncodeTriples(ts) + post, |pre|, |ts|) == ts
  {
    var d := pre + EncodeTriples(ts) + post;
    forall k | 0 <= k < |ts|
      ensures TriAt(d, |pre|, k) == ts[k]
    {
      EncodeTriplesAt(ts, k);
    }
  }

  /** The encoding of a non-empty group list, split after its first group. */
  lemma EncodeGroupsSplit(pre: seq<int>, gs: seq<Group>, post: seq<int>)
    requires gs != []
    ensures var g := gs[0];
      var d := pre + EncodeGroups(gs) + [Terminator] + post;
      var tail := EncodeGroups(gs[1..]) + [Terminator] + post;
      && d == (pre + [g.surfaceType, |g.tris|]) + EncodeTriples(g.tris) + tail
      && d == (pre + [g.surfaceType, |g.tris|] + EncodeTriples(g.tris)) + EncodeGroups(gs[1..]) + [Terminator] + post
  {
    var g := gs[0];
    var h := [g.surfaceType, |g.tris|];
    var body := EncodeTriples(g.tris);
    var e := EncodeGroups(gs[1..]);
    assert EncodeGroups(gs) == h + body + e;
    ConcatAssoc(pre, h + body + e, [Terminator]);
    ConcatAssoc(pre + h, body, e + [Terminator] + post);
  }

  lemma {:induction false} ParseGroupsOfEncoding(pre: seq<int>, gs: seq<Group>, post: seq<int>)
    requires forall g :: g in gs ==> g.surfaceType != Terminator
    ensures ParseGroups(pre + EncodeGroups(gs) + [Terminator] + post, |pre|) == Ok(gs)
    decreases |gs|
  {
    var d := pre + EncodeGroups(gs) + [Terminator] + post;
    if gs == [] {
      assert d[|pre|] == Terminator;
    } else {
      var g := gs[0];
      var pre' := pre + [g.surfaceType, |g.tris|] + EncodeTriples(g.tris);
      GroupEncodingParts(pre, gs, post);
      assert gs[0] in gs;
      assert forall h :: h in gs[1..] ==> h in gs;
      ParseGroupsOfEncoding(pre', gs[1..], post);
      ParseGroupsCons(d, |pre|, g, |pre'|, gs[1..]);
      ConsTail(gs);
    }
  }

  /** A group header and its triples, followed by groups that decode to
      `rest`, decode to the group followed by `rest`. */
  lemma ParseGroupsCons(d: seq<int>, pos: nat, g: Group, next: nat, rest: seq<Group>)
    requires pos + 1 < |d| && d[pos] == g.surfaceType != Terminator && d[pos + 1] == |g.tris|
    requires next == pos + GroupWords(|g.tris|) <= |d|
    requires Triples(d, pos + 2, |g.tris|) == g.tris
    requires ParseGroups(d, next) == Ok(rest)
    ensures ParseGroups(d, pos) == Ok([g] + rest)
  {
    ParseGroupsStep(d, pos);
  }

  /** A non-empty sequence is its head followed by its tail. */
  lemma ConsTail<T>(s: seq<T>)
    requires s != []
    ensures [s[0]] + s[1..] == s
  {
  }

  /** What the words of the first encoded group say: its header, its
      triples, and where the next group starts. */
  lemma GroupEncodingParts(pre: seq<int>, gs: seq<Group>, post: seq<int>)
    requires gs != []
    ensures var g, d := gs[0], pre + EncodeGroups(gs) + [Terminator] + post;
      var pre' := pre + [g.surfaceType, |g.tris|] + EncodeTriples(g.tris);
      && |pre| + 1 < |d| && d[|pre|] == g.surfaceType && d[|pre| + 1] == |g.tris|
      && |pre'| == |pre| + GroupWords(|g.tris|) <= |d|
      && Triples(d, |pre| + 2, |g.tris|) == g.tris
      && d == pre' + EncodeGroups(gs[1..]) + [Terminator] + post
  {
    var g := gs[0];
    var h := pre + [g.surfaceType, |g.tris|];
    EncodeGroupsSplit(pre, gs, post);
    TriplesOfEncoding(h, g.tris, EncodeGroups(gs[1..]) + [Terminator] + post);
  }

  /** Decoding an encoded model gives the model back. */
  lemma ParseEncode(m: Model)
    requires WellFormed(m)
    ensures Parse(Encode(m)) == Ok(m)
  {
    var d := Encode(m);
    var n := |m.vertices|;
    var pre := [m.header, n];
    assert d == pre + EncodeVertices(m.vertices) + (EncodeGroups(m.groups) + [Terminator]);
    VerticesOfEncoding(pre, m.vertices, EncodeGroups(m.groups) + [Terminator]);
    assert d == (pre + EncodeVertices(m.vertices)) + EncodeGroups(m.groups) + [Terminator] + [];
    ParseGroupsOfEncoding(pre + EncodeVertices(m.vertices), m.groups, []);
  }

  // ---------------------------------------------------------------- surfaces of a model

  /** The world-space vertices of a model placed by `xf`. */
  function Placed(vs: seq<Vec3i>, xf: Vec3i -> Vec3i): (ws: seq<Vec3i>)
    ensures |ws| == |vs|
    ensures forall k :: 0 <= k < |vs| ==> ws[k] == Place(xf, vs[k])
  {
    seq(|vs|, k requires 0 <= k < |vs| => Place(xf, vs[k]))
  }

  /** The vertex buffer of a placed model, three words per vertex. */
  function ModelTable(vs: seq<Vec3i>, xf: Vec3i -> Vec3i): seq<int> {
    EncodeVertices(Placed(vs, xf))
  }

  function Tag(s: Surface, kind: int, obj: ObjectId): Surface {
    s.(surfaceType := kind, owner := Some(obj))
  }

  /** The surfaces the non-degenerate triangles of `ts` produce, in order,
      each tagged with the group's type and the owning object. */
  function TriangleSurfaces(table: seq<int>, ts: seq<Triple>, kind: int, obj: ObjectId): (ss: seq<Surface>)
    ensures |ss| <= |ts|
    ensures forall s :: s in ss ==> s.surfaceType == kind && s.owner == Some(obj)
  {
    if ts == [] then []
    else
      var head := match ReadSurfaceData(table, ts[0].i1, ts[0].i2, ts[0].i3)
        case Ok(Some(s)) => [Tag(s, kind, obj)]
        case _ => [];
      head + TriangleSurfaces(table, ts[1..], kind, obj)
  }

  predicate IndicesValid(table: seq<int>, ts: seq<Triple>) {
    forall t :: t in ts ==> ValidIndex(table, t.i1) && ValidIndex(table, t.i2) && ValidIndex(table, t.i3)
  }

  function GroupSurfaces(table: seq<int>, gs: seq<Group>, obj: ObjectId): seq<Surface> {
    if gs == [] then []
    else TriangleSurfaces(table, gs[0].tris, gs[0].surfaceType, obj) + GroupSurfaces(table, gs[1..], obj)
  }

  predicate GroupsValid(table: seq<int>, gs: seq<Group>) {
    forall g :: g in gs ==> IndicesValid(table, g.tris)
  }

  /** Every surface a model produces when placed by `xf` and owned by `obj`. */
  function ModelSurfaces(m: Model, xf: Vec3i -> Vec3i, obj: ObjectId): seq<Surface> {
    GroupSurfaces(ModelTable(m.vertices, xf), m.groups, obj)
  }

  /** A single group yields at most one surface per triangle. */
  lemma OneGroupSurfaces(table: seq<int>, gs: seq<Group>, obj: ObjectId)
    requires |gs| == 1
    ensures |GroupSurfaces(table, gs, obj)| <= |gs[0].tris|
  {
    assert gs[1..] == [];
  }

  /** A model loads into a list already holding `count` surfaces when every
      index's (s16-wrapped) offset falls inside the loaded vertex words and
      the surfaces fit in the pool. */
  predicate Loadable(m: Model, xf: Vec3i -> Vec3i, obj: ObjectId, count: int) {
    && GroupsValid(ModelTable(m.vertices, xf), m.groups)
    && count + |ModelSurfaces(m, xf, obj)| <= MaxSurfaces
  }

  // ---------------------------------------------------------------- the loader reads the model

  lemma {:induction false} InsertAllAppend(floors: seq<Surface>, a: seq<Surface>, b: seq<Surface>)
    ensures InsertAll(floors, a + b) == InsertAll(InsertAll(floors, a), b)
    decreases |a|
  {
    if a == [] {
      assert a + b == b;
    } else {
      assert (a + b)[0] == a[0] && (a + b)[1..] == a[1..] + b;
      InsertAllAppend(Insert(floors, a[0]), a[1..], b);
    }
  }

  /** The triples at word `q` are the first one followed by the rest. */
  lemma TriplesTail(d: seq<int>, q: nat, m: nat)
    requires 0 < m && q + 3 * m <= |d|
    ensures Triples(d, q, m) == [Triple(d[q], d[q + 1], d[q + 2])] + Triples(d, q + 3, m - 1)
  {
    var a, b := Triples(d, q, m), Triples(d, q + 3, m - 1);
    assert a[0] == TriAt(d, q, 0);
    forall j | 0 <= j < m - 1
      ensures a[j + 1] == b[j]
    {
      assert a[j + 1] == TriAt(d, q, j + 1);
      assert b[j] == TriAt(d, q + 3, j);
    }
  }

  lemma TriplesCons(table: seq<int>, ts: seq<Triple>, kind: int, obj: ObjectId)
    requires ts != []
    ensures IndicesValid(table, ts) <==>
      (ValidIndex(table, ts[0].i1) && ValidIndex(table, ts[0].i2) && ValidIndex(table, ts[0].i3)
       && IndicesValid(table, ts[1..]))
  {
    assert ts == [ts[0]] + ts[1..];
  }

  /** The surface one triangle contributes, if any. */
  function Kept(table: seq<int>, t: Triple, kind: int, obj: ObjectId): seq<Surface> {
    match ReadSurfaceData(table, t.i1, t.i2, t.i3)
    case Ok(Some(s)) => [Tag(s, kind, obj)]
    case _ => []
  }

  lemma TriangleSurfacesStep(table: seq<int>, ts: seq<Triple>, kind: int, obj: ObjectId)
    requires ts != []
    ensures TriangleSurfaces(table, ts, kind, obj) == Kept(table, ts[0], kind, obj) + TriangleSurfaces(table, ts[1..], kind, obj)
  {
  }

  lemma LoadTrianglesStep(d: seq<int>, pos: nat, i: nat, n: int, table: seq<int>,
                          kind: int, obj: ObjectId, pool: SurfacePool)
    requires PoolCounted(pool)
    requires i < n && pos + 3 * i + 3 <= |d|
    ensures var rd := ReadSurfaceData(table, d[pos + 3 * i], d[pos + 3 * i + 1], d[pos + 3 * i + 2]);
      LoadTriangles(d, pos, i, n, table, kind, obj, pool) ==
        Step(rd, pool, kind, obj, LoadTriangles(d, pos, i + 1, n, table, kind, obj, NextPool(rd, pool, kind, obj)))
  {
  }

  /** `LoadTrianglesStep` with the triangle at word `q`, its surface data
      and the next pool named. */
  lemma LoadTrianglesParts(d: seq<int>, pos: nat, i: nat, n: int, q: nat, table: seq<int>,
                           kind: int, obj: ObjectId, pool: SurfacePool)
    returns (t: Triple, rd: Result<Option<Surface>, LoadError>, p1: SurfacePool)
    requires PoolCounted(pool)
    requires q == pos + 3 * i && i < n && q + 3 <= |d|
    ensures t == Triple(d[q], d[q + 1], d[q + 2])
    ensures rd == ReadSurfaceData(table, t.i1, t.i2, t.i3)
    ensures p1 == NextPool(rd, pool, kind, obj)
    ensures LoadTriangles(d, pos, i, n, table, kind, obj, pool) ==
            Step(rd, pool, kind, obj, LoadTriangles(d, pos, i + 1, n, table, kind, obj, p1))
  {
    t := Triple(d[q], d[q + 1], d[q + 2]);
    rd := ReadSurfaceData(table, t.i1, t.i2, t.i3);
    p1 := NextPool(rd, pool, kind, obj);
    LoadTrianglesStep(d, pos, i, n, table, kind, obj, pool);
  }

  /** A group whose triples run past the end of the descriptor does not load. */
  lemma {:induction false} LoadTrianglesOverrun(d: seq<int>, pos: nat, i: nat, n: int, table: seq<int>,
                                                kind: int, obj: ObjectId, pool: SurfacePool)
    requires PoolCounted(pool)
    requires pos + 3 * i <= |d| < pos + 3 * i + 3 * Max(n - i, 0)
    decreases n - i
    ensures LoadTriangles(d, pos, i, n, table, kind, obj, pool).Err?
  {
    if pos + 3 * i + 3 <= |d| {
      assert Max(n - (i + 1), 0) == Max(n - i, 0) - 1;
      LoadTrianglesStep(d, pos, i, n, table, kind, obj, pool);
      var rd := ReadSurfaceData(table, d[pos + 3 * i], d[pos + 3 * i + 1], d[pos + 3 * i + 2]);
      LoadTrianglesOverrun(d, pos, i + 1, n, table, kind, obj, NextPool(rd, pool, kind, obj));
    }
  }

  /** `r` is what loading exactly the triangles `ts` into `pool` gives: success
      when every index is valid and the kept surfaces fit, and then the list
      with those surfaces inserted in order. */
  predicate LoadsAll(r: Result<SurfacePool, LoadError>, pool: SurfacePool, table: seq<int>,
                     ts: seq<Triple>, kind: int, obj: ObjectId) {
    && (r.Ok? <==> IndicesValid(table, ts) && |pool.floors| + |TriangleSurfaces(table, ts, kind, obj)| <= MaxSurfaces)
    && (r.Ok? ==> r.value.floors == InsertAll(pool.floors, TriangleSurfaces(table, ts, kind, obj)))
  }

  /** The pool after one triangle whose surface data is `rd`. */
  function NextPool(rd: Result<Option<Surface>, LoadError>, pool: SurfacePool, kind: int, obj: ObjectId): (p: SurfacePool)
    requires PoolCounted(pool)
    ensures PoolCounted(p)
  {
    if rd.Ok? && rd.value.Some? && |pool.floors| < MaxSurfaces
    then AddSurface(pool, Tag(rd.value.value, kind, obj)) else pool
  }

  /** The outcome of one triangle whose surface data is `rd`, given the
      outcome `r1` of the triangles after it. */
  function Step(rd: Result<Option<Surface>, LoadError>, pool: SurfacePool, kind: int, obj: ObjectId,
                r1: Result<SurfacePool, LoadError>): Result<SurfacePool, LoadError> {
    if rd.Err? then Err(rd.error)
    else if rd.value.None? then r1
    else if |pool.floors| >= MaxSurfaces then Err(PoolFull)
    else r1
  }

  /** The triangles `[t] + rest` in terms of `t`'s own reading and the rest. */
  lemma ConsParts(table: seq<int>, t: Triple, rest: seq<Triple>, kind: int, obj: ObjectId)
    ensures IndicesValid(table, [t] + rest) <==>
      ReadSurfaceData(table, t.i1, t.i2, t.i3).Ok? && IndicesValid(table, rest)
    ensures TriangleSurfaces(table, [t] + rest, kind, obj) ==
      Kept(table, t, kind, obj) + TriangleSurfaces(table, rest, kind, obj)
  {
    var ts := [t] + rest;
    assert ts[0] == t && ts[1..] == rest;
    TriplesCons(table, ts, kind, obj);
    TriangleSurfacesStep(table, ts, kind, obj);
  }

  /** A triangle with a bad index fails the whole group. */
  lemma LoadsAllBad(e: LoadError, pool: SurfacePool, table: seq<int>, t: Triple, rest: seq<Triple>,
                    kind: int, obj: ObjectId)
    requires ReadSurfaceData(table, t.i1, t.i2, t.i3) == Err(e)
    ensures LoadsAll(Err(e), pool, table, [t] + rest, kind, obj)
  {
    ConsParts(table, t, rest, kind, obj);
  }

  /** A degenerate triangle is skipped. */
  lemma LoadsAllSkip(r1: Result<SurfacePool, LoadError>, pool: SurfacePool, table: seq<int>,
                     t: Triple, rest: seq<Triple>, kind: int, obj: ObjectId)
    requires ReadSurfaceData(table, t.i1, t.i2, t.i3) == Ok(None)
    requires LoadsAll(r1, pool, table, rest, kind, obj)
    ensures LoadsAll(r1, pool, table, [t] + rest, kind, obj)
  {
    ConsParts(table, t, rest, kind, obj);
    assert Kept(table, t, kind, obj) == [];
    assert TriangleSurfaces(table, [t] + rest, kind, obj) == TriangleSurfaces(table, rest, kind, obj);
  }

  /** A surface read into a full pool fails with `PoolFull`. */
  lemma LoadsAllFull(s: Surface, pool: SurfacePool, table: seq<int>, t: Triple, rest: seq<Triple>,
                     kind: int, obj: ObjectId)
    requires ReadSurfaceData(table, t.i1, t.i2, t.i3) == Ok(Some(s))
    requires |pool.floors| >= MaxSurfaces
    ensures LoadsAll(Err(PoolFull), pool, table, [t] + rest, kind, obj)
  {
    ConsParts(table, t, rest, kind, obj);
    assert Kept(table, t, kind, obj) == [Tag(s, kind, obj)];
  }

  /** A surface read into a pool with room is inserted before the rest. */
  lemma LoadsAllKeep(r1: Result<SurfacePool, LoadError>, s: Surface, pool: SurfacePool, table: seq<int>,
                     t: Triple, rest: seq<Triple>, kind: int, obj: ObjectId)
    requires PoolCounted(pool) && |pool.floors| < MaxSurfaces
    requires ReadSurfaceData(table, t.i1, t.i2, t.i3) == Ok(Some(s))
    requires LoadsAll(r1, AddSurface(pool, Tag(s, kind, obj)), table, rest, kind, obj)
    ensures LoadsAll(r1, pool, table, [t] + rest, kind, obj)
  {
    var s' := Tag(s, kind, obj);
    var later := TriangleSurfaces(table, rest, kind, obj);
    ConsParts(table, t, rest, kind, obj);
    assert Kept(table, t, kind, obj) == [s'];
    InsertAllAppend(pool.floors, [s'], later);
    assert InsertAll(pool.floors, [s']) == Insert(pool.floors, s') by {
      assert [s'][1..] == [];
    }
  }

  lemma LoadsAllStep(r1: Result<SurfacePool, LoadError>, pool: SurfacePool, p1: SurfacePool, table: seq<int>,
                     t: Triple, rest: seq<Triple>, kind: int, obj: ObjectId)
    requires PoolCounted(pool)
    requires p1 == NextPool(ReadSurfaceData(table, t.i1, t.i2, t.i3), pool, kind, obj)
    requires LoadsAll(r1, p1, table, rest, kind, obj)
    ensures LoadsAll(Step(ReadSurfaceData(table, t.i1, t.i2, t.i3), pool, kind, obj, r1), pool, table, [t] + rest, kind, obj)
  {
    var rd := ReadSurfaceData(table, t.i1, t.i2, t.i3);
    if rd.Err? {
      LoadsAllBad(rd.error, pool, table, t, rest, kind, obj);
    } else if rd.value.None? {
      LoadsAllSkip(r1, pool, table, t, rest, kind, obj);
    } else if |pool.floors| >= MaxSurfaces {
      LoadsAllFull(rd.value.value, pool, table, t, rest, kind, obj);
    } else {
      LoadsAllKeep(r1, rd.value.value, pool, table, t, rest, kind, obj);
    }
  }

  /** Triangles `i..n-1` of a group load exactly when they lie inside the
      descriptor, their indices are valid and their surfaces fit, and then
      they are inserted in order. */
  /** No triangles: the pool is returned as it is. */
  lemma LoadsNothing(pool: SurfacePool, table: seq<int>, kind: int, obj: ObjectId)
    requires |pool.floors| <= MaxSurfaces
    ensures LoadsAll(Ok(pool), pool, table, [], kind, obj)
  {
    assert TriangleSurfaces(table, [], kind, obj) == [];
  }

  /** A group with no triangles left loads nothing. */
  lemma LoadTrianglesNone(d: seq<int>, pos: nat, i: nat, n: int, table: seq<int>,
                          kind: int, obj: ObjectId, pool: SurfacePool)
    requires PoolCounted(pool)
    requires n <= i && pos + 3 * i <= |d|
    ensures LoadTriangles(d, pos, i, n, table, kind, obj, pool) == Ok(pool)
    ensures LoadsAll(Ok(pool), pool, table, Triples(d, pos + 3 * i, 0), kind, obj)
  {
    assert Triples(d, pos + 3 * i, 0) == [];
    LoadsNothing(pool, table, kind, obj);
  }

  lemma LoadTrianglesReadsTriples(d: seq<int>, pos: nat, i: nat, n: int, table: seq<int>,
                                  kind: int, obj: ObjectId, pool: SurfacePool)
    requires PoolCounted(pool)
    requires pos + 3 * i <= |d|
    ensures var k := Max(n - i, 0);
      var r := LoadTriangles(d, pos, i, n, table, kind, obj, pool);
      && (r.Ok? ==> pos + 3 * i + 3 * k <= |d|)
      && (pos + 3 * i + 3 * k <= |d| ==> LoadsAll(r, pool, table, Triples(d, pos + 3 * i, k), kind, obj))
  {
    var k := Max(n - i, 0);
    var r := LoadTriangles(d, pos, i, n, table, kind, obj, pool);
    if pos + 3 * i + 3 * k > |d| {
      assert !r.Ok? by {
        LoadTrianglesOverrun(d, pos, i, n, table, kind, obj, pool);
      }
    } else {
      assert LoadsAll(r, pool, table, Triples(d, pos + 3 * i, k), kind, obj) by {
        if i >= n {
          LoadTrianglesNone(d, pos, i, n, table, kind, obj, pool);
        } else {
          LoadTrianglesWithin(d, pos, i, n, pos + 3 * i, k, table, kind, obj, pool);
        }
      }
    }
  }

  /** Triangles `i..n-1`, which occupy the `m` triples from word `q` inside
      the descriptor, load exactly when their indices are valid and their
      surfaces fit. */
  lemma {:induction false} LoadTrianglesWithin(d: seq<int>, pos: nat, i: nat, n: int, q: nat, m: nat, table: seq<int>,
                                               kind: int, obj: ObjectId, pool: SurfacePool)
    requires PoolCounted(pool)
    requires q == pos + 3 * i && m == n - i && q + 3 * m <= |d|
    decreases m
    ensures LoadsAll(LoadTriangles(d, pos, i, n, table, kind, obj, pool), pool, table, Triples(d, q, m), kind, obj)
  {
    if m == 0 {
      LoadTrianglesEnd(d, pos, i, n, q, m, table, kind, obj, pool);
    } else {
      var p1 := LoadTrianglesCombine(d, pos, i, n, q, m, table, kind, obj, pool);
      assert LoadsAll(LoadTriangles(d, pos, i + 1, n, table, kind, obj, p1), p1, table, Triples(d, q + 3, m - 1), kind, obj) by {
        LoadTrianglesWithin(d, pos, i + 1, n, q + 3, m - 1, table, kind, obj, p1);
      }
    }
  }

  /** No triangles left: the pool is unchanged. */
  lemma LoadTrianglesEnd(d: seq<int>, pos: nat, i: nat, n: int, q: nat, m: nat, table: seq<int>,
                         kind: int, obj: ObjectId, pool: SurfacePool)
    requires PoolCounted(pool)
    requires m == n - i == 0 && q <= |d|
    ensures LoadsAll(LoadTriangles(d, pos, i, n, table, kind, obj, pool), pool, table, Triples(d, q, m), kind, obj)
  {
    assert Triples(d, q, m) == [];
  }

  /** One step of `LoadTrianglesWithin`: if the triangles after the `i`-th
      load as described from the pool `p1` that the `i`-th leaves, then so
      do the triangles from the `i`-th on. */
  lemma LoadTrianglesCombine(d: seq<int>, pos: nat, i: nat, n: int, q: nat, m: nat, table: seq<int>,
                             kind: int, obj: ObjectId, pool: SurfacePool) returns (p1: SurfacePool)
    requires PoolCounted(pool)
    requires q == pos + 3 * i && m == n - i && 0 < m && q + 3 * m <= |d|
    ensures PoolCounted(p1)
    ensures LoadsAll(LoadTriangles(d, pos, i + 1, n, table, kind, obj, p1), p1, table, Triples(d, q + 3, m - 1), kind, obj)
            ==> LoadsAll(LoadTriangles(d, pos, i, n, table, kind, obj, pool), pool, table, Triples(d, q, m), kind, obj)
  {
    var t, rd, p := LoadTrianglesParts(d, pos, i, n, q, table, kind, obj, pool);
    p1 := p;
    TriplesTail(d, q, m);
    if LoadsAll(LoadTriangles(d, pos, i + 1, n, table, kind, obj, p1), p1, table, Triples(d, q + 3, m - 1), kind, obj) {
      TrianglesFromParts(LoadTriangles(d, pos, i, n, table, kind, obj, pool), LoadTriangles(d, pos, i + 1, n, table, kind, obj, p1),
                         rd, pool, p1, table, t, Triples(d, q + 3, m - 1), Triples(d, q, m), kind, obj);
    }
  }

  /** How the loader's result for one triangle and the rest combines into
      the result for the whole list of triangles. */
  lemma TrianglesFromParts(r: Result<SurfacePool, LoadError>, r1: Result<SurfacePool, LoadError>,
                           rd: Result<Option<Surface>, LoadError>, pool: SurfacePool, p1: SurfacePool,
                           table: seq<int>, t: Triple, rest: seq<Triple>, ts: seq<Triple>, kind: int, obj: ObjectId)
    requires PoolCounted(pool)
    requires rd == ReadSurfaceData(table, t.i1, t.i2, t.i3)
    requires p1 == NextPool(rd, pool, kind, obj)
    requires LoadsAll(r1, p1, table, rest, kind, obj)
    requires r == Step(rd, pool, kind, obj, r1)
    requires ts == [t] + rest
    ensures LoadsAll(r, pool, table, ts, kind, obj)
  {
    LoadsAllStep(r1, pool, p1, table, t, rest, kind, obj);
  }

  lemma ParseGroupsStep(d: seq<int>, pos: nat)
    requires pos + 1 < |d| && d[pos] != Terminator
    requires pos + GroupWords(d[pos + 1]) <= |d|
    ensures var g := Group(d[pos], Triples(d, pos + 2, Max(d[pos + 1], 0)));
      var pr := ParseGroups(d, pos + GroupWords(d[pos + 1]));
      ParseGroups(d, pos) == if pr.Ok? then Ok([g] + pr.value) else pr
  {
  }

  lemma GroupsCons(table: seq<int>, g: Group, gs: seq<Group>, obj: ObjectId)
    ensures GroupSurfaces(table, [g] + gs, obj) == TriangleSurfaces(table, g.tris, g.surfaceType, obj) + GroupSurfaces(table, gs, obj)
    ensures GroupsValid(table, [g] + gs) <==> IndicesValid(table, g.tris) && GroupsValid(table, gs)
  {
    var all := [g] + gs;
    assert all[0] == g && all[1..] == gs;
    assert forall h :: h in all <==> h == g || h in gs;
  }

  /** `r` is what loading exactly the groups `gs` into `pool` gives. */
  predicate LoadsGroups(r: Result<SurfacePool, LoadError>, pool: SurfacePool, table: seq<int>,
                        gs: seq<Group>, obj: ObjectId) {
    && (r.Ok? <==> GroupsValid(table, gs) && |pool.floors| + |GroupSurfaces(table, gs, obj)| <= MaxSurfaces)
    && (r.Ok? ==> r.value.floors == InsertAll(pool.floors, GroupSurfaces(table, gs, obj)))
  }

  lemma LoadsGroupsStep(lt: Result<SurfacePool, LoadError>, rr: Result<SurfacePool, LoadError>, pool: SurfacePool,
                        table: seq<int>, g: Group, rest: seq<Group>, obj: ObjectId)
    requires LoadsAll(lt, pool, table, g.tris, g.surfaceType, obj)
    requires lt.Ok? ==> |lt.value.floors| == |pool.floors| + |TriangleSurfaces(table, g.tris, g.surfaceType, obj)|
    requires lt.Ok? ==> LoadsGroups(rr, lt.value, table, rest, obj)
    ensures LoadsGroups(if lt.Ok? then rr else Err(lt.error), pool, table, [g] + rest, obj)
  {
    GroupsCons(table, g, rest, obj);
    var own := TriangleSurfaces(table, g.tris, g.surfaceType, obj);
    InsertAllAppend(pool.floors, own, GroupSurfaces(table, rest, obj));
  }

  lemma LoadGroupsStep(d: seq<int>, pos: nat, table: seq<int>, obj: ObjectId, pool: SurfacePool)
    requires PoolCounted(pool)
    requires pos + 1 < |d| && d[pos] != Terminator
    ensures var lt := LoadTriangles(d, pos + 2, 0, d[pos + 1], table, d[pos], obj, pool);
      LoadGroups(d, pos, table, obj, pool) ==
        if lt.Ok? then LoadGroups(d, pos + GroupWords(d[pos + 1]), table, obj, lt.value) else Err(lt.error)
  {
  }

  /** All triangles of one group whose triples start at word `pos`. */
  lemma LoadGroupTriangles(d: seq<int>, pos: nat, n: int, table: seq<int>, kind: int, obj: ObjectId, pool: SurfacePool)
    requires PoolCounted(pool)
    requires pos <= |d|
    ensures var r := LoadTriangles(d, pos, 0, n, table, kind, obj, pool);
      && (r.Ok? ==> pos + 3 * Max(n, 0) <= |d|)
      && (pos + 3 * Max(n, 0) <= |d| ==> LoadsAll(r, pool, table, Triples(d, pos, Max(n, 0)), kind, obj))
  {
    assert pos + 3 * 0 == pos && Max(n - 0, 0) == Max(n, 0);
    LoadTrianglesReadsTriples(d, pos, 0, n, table, kind, obj, pool);
  }

  lemma {:induction false} LoadGroupsReadsGroups(d: seq<int>, pos: nat, table: seq<int>, obj: ObjectId, pool: SurfacePool)
    requires PoolCounted(pool)
    decreases |d| - pos
    ensures var r := LoadGroups(d, pos, table, obj, pool);
      var pg := ParseGroups(d, pos);
      && (r.Ok? ==> pg.Ok?)
      && (pg.Ok? ==> LoadsGroups(r, pool, table, pg.value, obj))
  {
    if pos >= |d| || d[pos] == Terminator || pos + 1 >= |d| {
      assert pos < |d| && d[pos] == Terminator ==> GroupSurfaces(table, [], obj) == [];
    } else {
      var n := d[pos + 1];
      var next := pos + GroupWords(n);
      LoadGroupsStep(d, pos, table, obj, pool);
      LoadGroupTriangles(d, pos + 2, n, table, d[pos], obj, pool);
      var lt := LoadTriangles(d, pos + 2, 0, n, table, d[pos], obj, pool);
      if next <= |d| {
        var g := Group(d[pos], Triples(d, pos + 2, Max(n, 0)));
        var rr := if lt.Ok? then LoadGroups(d, next, table, obj, lt.value) else lt;
        if lt.Ok? {
          LoadGroupsReadsGroups(d, next, table, obj, lt.value);
        }
        ParseGroupsStep(d, pos);
        GroupsFromParts(lt, rr, ParseGroups(d, next), pool, table, g, obj,
                        LoadGroups(d, pos, table, obj, pool), ParseGroups(d, pos));
      }
    }
  }

  /** How the loader's result for one group and the rest, and the decoded
      group and the rest, combine into the result for both. */
  lemma GroupsFromParts(lt: Result<SurfacePool, LoadError>, rr: Result<SurfacePool, LoadError>,
                        pr: Result<seq<Group>, LoadError>, pool: SurfacePool, table: seq<int>,
                        g: Group, obj: ObjectId,
                        r: Result<SurfacePool, LoadError>, pg: Result<seq<Group>, LoadError>)
    requires LoadsAll(lt, pool, table, g.tris, g.surfaceType, obj)
    requires lt.Ok? ==> |lt.value.floors| == |pool.floors| + |TriangleSurfaces(table, g.tris, g.surfaceType, obj)|
    requires lt.Ok? ==> (rr.Ok? ==> pr.Ok?) && (pr.Ok? ==> LoadsGroups(rr, lt.value, table, pr.value, obj))
    requires r == (if lt.Ok? then rr else Err(lt.error))
    requires pg == (if pr.Ok? then Ok([g] + pr.value) else pr)
    ensures r.Ok? ==> pg.Ok?
    ensures pg.Ok? ==> LoadsGroups(r, pool, table, pg.value, obj)
  {
    if pr.Ok? {
      if lt.Ok? {
        LoadsGroupsStep(lt, rr, pool, table, g, pr.value, obj);
      } else {
        LoadsGroupsStep(lt, lt, pool, table, g, pr.value, obj);
      }
    }
  }



  /** Two vertex buffers with the same vertices are the same buffer. */
  lemma TablesEqual(t1: seq<int>, t2: seq<int>, n: nat)
    requires |t1| == |t2| == 3 * n
    requires forall k :: 0 <= k < n ==> VertexAt(t1, k) == VertexAt(t2, k)
    ensures t1 == t2
  {
    forall i | 0 <= i < |t1|
      ensures t1[i] == t2[i]
    {
      var k := i / 3;
      assert 0 <= k < n;
      assert VertexAt(t1, k) == VertexAt(t2, k);
      assert i == 3 * k || i == 3 * k + 1 || i == 3 * k + 2;
    }
  }

  lemma ModelTableAt(vs: seq<Vec3i>, xf: Vec3i -> Vec3i, k: nat)
    requires k < |vs|
    ensures 3 * k + 2 < |ModelTable(vs, xf)|
    ensures VertexAt(ModelTable(vs, xf), k) == Place(xf, vs[k])
  {
    EncodeVerticesAt(Placed(vs, xf), k);
  }

  /** The loader's vertex buffer is the placed vertex list of the parsed model:
      vertex k occupies words 3k..3k+2, so an index whose offset does not
      wrap names the vertex with that number. */
  lemma VertexBufferIsModelTable(d: seq<int>, xf: Vec3i -> Vec3i)
    requires ReadVertices(d, xf).Ok?
    ensures 2 + 3 * d[1] <= |d|
    ensures ReadVertices(d, xf).value.0 == ModelTable(Vertices(d, 2, d[1]), xf)
  {
    var n := d[1];
    var vs := Vertices(d, 2, n);
    var t1 := ReadVertices(d, xf).value.0;
    var t2 := ModelTable(vs, xf);
    forall k | 0 <= k < n
      ensures VertexAt(t1, k) == VertexAt(t2, k)
    {
      ModelTableAt(vs, xf, k);
    }
    TablesEqual(t1, t2, n);
  }

  /** `loadObjectCollisionModel` succeeds exactly on descriptors that parse
      into a loadable model, and then inserts exactly the model's
      non-degenerate triangles, in group and triangle order, into the list. */
  lemma LoadReadsModel(d: seq<int>, xf: Vec3i -> Vec3i, obj: ObjectId, pool: SurfacePool)
    requires PoolCounted(pool)
    ensures var r := LoadObjectCollisionModel(d, xf, obj, pool);
      && (r.Ok? <==> Parse(d).Ok? && Loadable(Parse(d).value, xf, obj, |pool.floors|))
      && (r.Ok? ==> r.value.floors == InsertAll(pool.floors, ModelSurfaces(Parse(d).value, xf, obj)))
  {
    if ReadVertices(d, xf).Ok? {
      LoadReadsVertices(d, xf, obj, pool);
    } else {
      assert Parse(d).Err?;
    }
  }

  /** `LoadReadsModel` once the vertex table is read. */
  lemma LoadReadsVertices(d: seq<int>, xf: Vec3i -> Vec3i, obj: ObjectId, pool: SurfacePool)
    requires PoolCounted(pool) && ReadVertices(d, xf).Ok?
    ensures var r := LoadObjectCollisionModel(d, xf, obj, pool);
      && (r.Ok? <==> Parse(d).Ok? && Loadable(Parse(d).value, xf, obj, |pool.floors|))
      && (r.Ok? ==> r.value.floors == InsertAll(pool.floors, ModelSurfaces(Parse(d).value, xf, obj)))
  {
    var (table, pos) := ReadVertices(d, xf).value;
    var r := LoadObjectCollisionModel(d, xf, obj, pool);
    var pg := ParseGroups(d, pos);
    assert r == LoadGroups(d, pos, table, obj, pool);
    assert (r.Ok? ==> pg.Ok?) && (pg.Ok? ==> LoadsGroups(r, pool, table, pg.value, obj)) by {
      LoadGroupsReadsGroups(d, pos, table, obj, pool);
    }
    if pg.Ok? {
      var m := Model(d[0], Vertices(d, 2, d[1]), pg.value);
      assert Parse(d) == Ok(m);
      assert table == ModelTable(m.vertices, xf) by {
        VertexBufferIsModelTable(d, xf);
      }
      LoadsModel(r, pool, table, m, xf, obj);
    } else {
      assert Parse(d).Err?;
    }
  }

  /** Loading the groups of `m` over its placed vertex table is loading `m`. */
  lemma LoadsModel(r: Result<SurfacePool, LoadError>, pool: SurfacePool, table: seq<int>, m: Model,
                   xf: Vec3i -> Vec3i, obj: ObjectId)
    requires table == ModelTable(m.vertices, xf)
    requires LoadsGroups(r, pool, table, m.groups, obj)
    ensures r.Ok? <==> Loadable(m, xf, obj, |pool.floors|)
    ensures r.Ok? ==> r.value.floors == InsertAll(pool.floors, ModelSurfaces(m, xf, obj))
  {
  }

  /** Loading keeps the pool invariant: the list stays ordered by descending
      `vertex1.y`, and surfaces of equal priority keep their arrival order. */
  lemma LoadKeepsPoolValid(d: seq<int>, xf: Vec3i -> Vec3i, obj: ObjectId, pool: SurfacePool, p: int)
    requires PoolValid(pool)
    requires LoadObjectCollisionModel(d, xf, obj, pool).Ok?
    ensures Parse(d).Ok?
    ensures var r := LoadObjectCollisionModel(d, xf, obj, pool).value;
      && PoolValid(r)
      && WithPriority(r.floors, p)
         == WithPriority(pool.floors, p) + WithPriority(ModelSurfaces(Parse(d).value, xf, obj), p)
  {
    LoadReadsModel(d, xf, obj, pool);
    InsertAllStableSort(pool.floors, ModelSurfaces(Parse(d).value, xf, obj), p);
  }
}
