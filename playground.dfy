/**
 * The polygon-cut experiments of playground/Main.java: where a ray meets a
 * plane, how a polygon is classified against a solid from its nearest ray
 * hit, and how a polygon is cut along a plane once the side of every vertex
 * is known. Geometry is exact (`real`); the source uses doubles.
 */
module Playground {
  import opened Wrappers
  import opened Geometry

  /** Main.EPS, the tolerance of the cut walk (1e-8). */
  const EPS: real := 0.00000001

  /** The tolerance classifyPolygon uses (1e-10). */
  const TOL: real := 0.0000000001

  function Abs(x: real): real {
    if x < 0.0 then -x else x
  }

  datatype IntersectionType = On | Parallel | NonParallel

  datatype PlaneIntersection = PlaneIntersection(kind: IntersectionType, point: Option<Vec3>)

  /** The plane equation A x + B y + C z + D at `point`, with D = -(normal . anchor). */
  function PlaneValue(pl: Plane, point: Vec3): (v: real)
    ensures v == SignedDistance(pl, point)
  {
    var n, a := pl.normal, pl.anchor;
    var d := -(n.x * a.x + n.y * a.y + n.z * a.z);
    n.x * point.x + n.y * point.y + n.z * point.z + d
  }

  /**
   * computePlaneIntersection: where the line through `point` along `direction`
   * meets the plane. Within `tol` of parallel the line either lies in the
   * plane (the point itself is returned) or misses it (no point).
   */
  function ComputePlaneIntersection(pl: Plane, point: Vec3, direction: Vec3, tol: real): (r: PlaneIntersection)
    requires tol > 0.0
    ensures r.kind == NonParallel ==> r.point.Some?
  {
    var numerator := PlaneValue(pl, point);
    var denominator := Dot(pl.normal, direction);
    if Abs(denominator) < tol then
      if Abs(numerator) < tol then PlaneIntersection(On, Some(point))
      else PlaneIntersection(Parallel, None)
    else
      var t := -numerator / denominator;
      PlaneIntersection(NonParallel, Some(Add(point, Scale(t, direction))))
  }

  /**
   * The three cases of computePlaneIntersection in geometric terms: the line
   * is parallel exactly when the direction is within `tol` of the plane; it
   * then lies in the plane when the point does. Otherwise the result is the
   * point of the line that lies exactly on the plane.
   */
  lemma PlaneIntersectionCases(pl: Plane, point: Vec3, direction: Vec3, tol: real)
    requires tol > 0.0
    ensures var r := ComputePlaneIntersection(pl, point, direction, tol);
      && (r.kind == NonParallel <==> Abs(Dot(pl.normal, direction)) >= tol)
      && (r.kind == On <==> Abs(Dot(pl.normal, direction)) < tol && Abs(SignedDistance(pl, point)) < tol)
      && (r.kind == On ==> r.point == Some(point))
      && (r.kind == Parallel ==> r.point == None)
      && (r.kind == NonParallel ==>
            exists t :: r.point == Some(Add(point, Scale(t, direction))) && SignedDistance(pl, r.point.value) == 0.0)
  {
    var r := ComputePlaneIntersection(pl, point, direction, tol);
    if r.kind == NonParallel {
      var numerator, denominator := SignedDistance(pl, point), Dot(pl.normal, direction);
      var t := -numerator / denominator;
      LineDistance(pl, point, direction, t);
      assert t * denominator == -numerator;
      assert r.point == Some(Add(point, Scale(t, direction)));
    }
  }

  /** Moving along a line changes the signed distance linearly. */
  lemma LineDistance(pl: Plane, point: Vec3, direction: Vec3, t: real)
    ensures SignedDistance(pl, Add(point, Scale(t, direction))) == SignedDistance(pl, point) + t * Dot(pl.normal, direction)
  {
  }

  datatype PolygonType = Unknown | Inside | Outside | Opposite | Same

  /**
   * The decision table ending classifyPolygon: where the nearest hit lies
   * relative to the polygon's plane, and whether the hit polygon faces the
   * same way.
   */
  function SignTable(frontOrBack: int, sameOrOpposite: int): PolygonType {
    if frontOrBack > 0 && sameOrOpposite > 0 then Inside
    else if frontOrBack > 0 && sameOrOpposite < 0 then Outside
    else if frontOrBack < 0 && sameOrOpposite < 0 then Inside
    else if frontOrBack < 0 && sameOrOpposite > 0 then Outside
    else if frontOrBack == 0 && sameOrOpposite > 0 then Same
    else if frontOrBack == 0 && sameOrOpposite < 0 then Opposite
    else Unknown
  }

  /**
   * The table by the sign of the product: equal signs mean inside, opposite
   * signs outside, a hit on the plane itself same or opposite by the facing,
   * and no facing at all unknown.
   */
  lemma SignTableByProduct(f: int, s: int)
    ensures SignTable(f, s) == Inside <==> f * s > 0
    ensures SignTable(f, s) == Outside <==> f * s < 0
    ensures SignTable(f, s) == Same <==> f == 0 && s > 0
    ensures SignTable(f, s) == Opposite <==> f == 0 && s < 0
    ensures SignTable(f, s) == Unknown <==> s == 0
  {
    if f > 0 && s > 0 {
      assert f * s > 0;
    } else if f > 0 && s < 0 {
      assert f * s < 0;
    } else if f < 0 && s < 0 {
      assert f * s > 0;
    } else if f < 0 && s > 0 {
      assert f * s < 0;
    }
  }

  /** Turning both signs around keeps inside and outside and swaps same and opposite. */
  lemma SignTableFlip(f: int, s: int)
    ensures SignTable(-f, -s) ==
      match SignTable(f, s)
      case Same => Opposite
      case Opposite => Same
      case other => other
  {
  }

  /** A ray hit: the point where the ray meets a polygon, and that polygon's plane. */
  datatype RayIntersection = RayIntersection(point: Vec3, polygonPlane: Plane)

  /**
   * classifyPolygon of a polygon with plane `p1`, given whether its bounds meet
   * the solid's, the ray hits found from its centroid along its normal, and
   * the hit the nearest-hit loop chose, if any.
   */
  function ClassifyPolygon(p1: Plane, boundsMeet: bool, hits: seq<RayIntersection>, nearest: Option<RayIntersection>): PolygonType {
    if !boundsMeet then Outside
    else if hits == [] then Outside
    else if nearest.None? then Outside
    else
      var h := nearest.value;
      SignTable(Compare(p1, h.point, TOL), Compare(p1, Add(p1.anchor, h.polygonPlane.normal), TOL))
  }

  /** Whether the hit lies on or in front of the plane: the only hits the nearest-hit loop accepts. */
  predicate Ahead(p1: Plane, h: RayIntersection) {
    Compare(p1, h.point, TOL) >= 0
  }

  /**
   * classifyPolygon in geometric terms. Outside the three early exits, the
   * nearest hit decides: inside when it lies ahead of the polygon and its
   * polygon faces the same way (or behind and facing away), same or opposite
   * when it lies on the polygon's plane, unknown when the two planes are
   * perpendicular within the tolerance.
   */
  lemma ClassifyMeaning(p1: Plane, boundsMeet: bool, hits: seq<RayIntersection>, nearest: Option<RayIntersection>)
    requires nearest.Some?
    ensures var r, h := ClassifyPolygon(p1, boundsMeet, hits, nearest), nearest.value;
      var d, facing := SignedDistance(p1, h.point), Dot(p1.normal, h.polygonPlane.normal);
      && (r == Inside <==> boundsMeet && hits != [] && ((d >= TOL && facing >= TOL) || (d <= -TOL && facing <= -TOL)))
      && (r == Same <==> boundsMeet && hits != [] && -TOL < d < TOL && facing >= TOL)
      && (r == Opposite <==> boundsMeet && hits != [] && -TOL < d < TOL && facing <= -TOL)
      && (r == Unknown <==> boundsMeet && hits != [] && -TOL < facing < TOL)
  {
    var h := nearest.value;
    FacingDistance(p1, h.polygonPlane.normal);
  }

  /** The plane's anchor moved by a vector lies at the vector's component along the normal. */
  lemma FacingDistance(p1: Plane, n2: Vec3)
    ensures SignedDistance(p1, Add(p1.anchor, n2)) == Dot(p1.normal, n2)
  {
  }

  /**
   * Since the nearest-hit loop skips every hit behind the polygon, the rows of
   * the table for a hit behind it are never reached: a polygon is inside only
   * through a hit ahead of it that faces the same way.
   */
  lemma ClassifyAhead(p1: Plane, boundsMeet: bool, hits: seq<RayIntersection>, nearest: Option<RayIntersection>)
    requires nearest.Some? ==> Ahead(p1, nearest.value)
    ensures var r := ClassifyPolygon(p1, boundsMeet, hits, nearest);
      r == Inside ==> SignedDistance(p1, nearest.value.point) >= TOL && Dot(p1.normal, nearest.value.polygonPlane.normal) >= TOL
  {
    if nearest.Some? {
      ClassifyMeaning(p1, boundsMeet, hits, nearest);
    }
  }

  /* ---------- Cutting a polygon along a plane ---------- */

  /** The three vertex lists the cut walk fills: the front and back outlines, and the points on the plane. */
  datatype Pieces = Pieces(front: seq<Vec3>, back: seq<Vec3>, on: seq<Vec3>)

  /** The vertex positions of a polygon, in order. */
  function Positions(p: Polygon): (r: seq<Vec3>)
    ensures |r| == |p.vertices|
    ensures forall i :: 0 <= i < |r| ==> r[i] == p.vertices[i].pos
  {
    seq(|p.vertices|, i requires 0 <= i < |p.vertices| => p.vertices[i].pos)
  }

  /** The vertex after vertex i of n, wrapping round to the first: the source's (i + 1) % n. */
  function Next(i: nat, n: nat): (j: nat)
    requires i < n
    ensures j < n
  {
    if i + 1 == n then 0 else i + 1
  }

  lemma NextWraps(i: nat, n: nat)
    requires i < n
    ensures Next(i, n) == (i + 1) % n
  {
  }

  /** Edge i (from vertex i to the next, wrapping round) has its ends strictly on opposite sides. */
  predicate Spanning(ts: seq<int>, i: nat)
    requires i < |ts|
  {
    var tj := ts[Next(i, |ts|)];
    ts[i] != tj && ts[i] != 0 && tj != 0
  }

  /** The message of the exception the cut walk throws. */
  const CutError: string := "I need help (3)!"

  /** Where edge i meets the cut plane; an edge the intersection finds not to cross it is an error. */
  function Crossing(pl: Plane, vs: seq<Vec3>, i: nat): (r: Result<Vec3, string>)
    requires i < |vs|
    ensures r.Ok? ==> SignedDistance(pl, r.value) == 0.0
  {
    var vi, vj := vs[i], vs[Next(i, |vs|)];
    var pI := ComputePlaneIntersection(pl, vi, Sub(vj, vi), EPS);
    PlaneIntersectionCases(pl, vi, Sub(vj, vi), EPS);
    if pI.kind != NonParallel then Err(CutError) else Ok(pI.point.value)
  }

  /**
   * The crossing of every edge. The walk looks at it only for spanning
   * edges; the intersection is a pure function, so computing the others
   * changes nothing.
   */
  function Crossings(pl: Plane, vs: seq<Vec3>): (cs: seq<Result<Vec3, string>>)
    ensures |cs| == |vs|
    ensures forall i :: 0 <= i < |vs| ==> cs[i] == Crossing(pl, vs, i)
  {
    seq(|vs|, i requires 0 <= i < |vs| => Crossing(pl, vs, i))
  }

  /** The crossing points, with the origin standing in for edges that have none. */
  function Points(cs: seq<Result<Vec3, string>>): (xs: seq<Vec3>)
    ensures |xs| == |cs|
    ensures forall i :: 0 <= i < |cs| && cs[i].Ok? ==> xs[i] == cs[i].value
  {
    seq(|cs|, i requires 0 <= i < |cs| => if cs[i].Ok? then cs[i].value else Vec3(0.0, 0.0, 0.0))
  }

  /** Vertex v joins the list its type t names: front for 1, back for -1, both for 0. */
  function Place(v: Vec3, t: int, acc: Pieces): Pieces {
    Pieces(if t == 1 || t == 0 then acc.front + [v] else acc.front,
           if t == -1 || t == 0 then acc.back + [v] else acc.back,
           acc.on)
  }

  /** A crossing point joins all three lists. */
  function AddCrossing(x: Vec3, acc: Pieces): Pieces {
    Pieces(acc.front + [x], acc.back + [x], acc.on + [x])
  }

  /** The lists after the first k vertices, given the crossing point xs[i] of every spanning edge i. */
  function Walk(vs: seq<Vec3>, ts: seq<int>, xs: seq<Vec3>, k: nat): Pieces
    requires |ts| == |vs| == |xs| && k <= |vs|
  {
    if k == 0 then Pieces([], [], [])
    else
      var acc := Place(vs[k - 1], ts[k - 1], Walk(vs, ts, xs, k - 1));
      if Spanning(ts, k - 1) then AddCrossing(xs[k - 1], acc) else acc
  }

  /** Edge i spans the plane but the intersection found no crossing: where the walk throws. */
  predicate Stalls(ts: seq<int>, cs: seq<Result<Vec3, string>>, i: nat)
    requires |ts| == |cs| && i < |ts|
  {
    Spanning(ts, i) && cs[i].Err?
  }

  /** The walk over all vertices: it throws when any spanning edge has no crossing, and otherwise returns the lists. */
  function Cut(vs: seq<Vec3>, ts: seq<int>, cs: seq<Result<Vec3, string>>): Result<Pieces, string>
    requires |ts| == |vs| == |cs|
  {
    if exists i | 0 <= i < |vs| :: Stalls(ts, cs, i) then Err(CutError)
    else Ok(Walk(vs, ts, Points(cs), |vs|))
  }

  /**
   * cutPolygonWithPlaneAndTypes: walks the vertices with their precomputed
   * types. The front, back and on lists the source fills are returned; the
   * exception it throws is an Err.
   */
  method CutPolygonWithPlaneAndTypes(p: Polygon, cutPlane: Plane, vertexTypes: array<int>) returns (r: Result<Pieces, string>)
    requires vertexTypes.Length == |p.vertices|
    ensures r == Cut(Positions(p), vertexTypes[..], Crossings(cutPlane, Positions(p)))
  {
    ghost var vs := Positions(p);
    ghost var cs := Crossings(cutPlane, vs);
    ghost var xs := Points(cs);
    ghost var ts := vertexTypes[..];
    var n := |p.vertices|;
    var front, back, on := [], [], [];
    for i := 0 to n
      invariant forall j :: 0 <= j < i ==> !Stalls(ts, cs, j)
      invariant Walk(vs, ts, xs, i) == Pieces(front, back, on)
    {
      var j := (i + 1) % n;
      NextWraps(i, n);
      var ti, tj := vertexTypes[i], vertexTypes[j];
      var vi, vj := p.vertices[i], p.vertices[j];
      assert vs[i] == vi.pos && vs[j] == vj.pos;
      if ti == 1 {
        front := front + [vi.pos];
      }
      if ti == -1 {
        back := back + [vi.pos];
      }
      if ti == 0 {
        front := front + [vi.pos];
        back := back + [vi.pos];
      }
      assert Pieces(front, back, on) == Place(vs[i], ts[i], Walk(vs, ts, xs, i));
      assert Spanning(ts, i) <==> ti != tj && (ti != 0 && tj != 0);
      if ti != tj && (ti != 0 && tj != 0) {
        var pI := ComputePlaneIntersection(cutPlane, vi.pos, Sub(vj.pos, vi.pos), EPS);
        assert cs[i] == if pI.kind != NonParallel then Err(CutError) else Ok(pI.point.value);
        if pI.kind != NonParallel {
          assert Stalls(ts, cs, i);
          return Err(CutError);
        }
        var x := pI.point.value;
        front := front + [x];
        back := back + [x];
        on := on + [x];
      }
    }
    r := Ok(Pieces(front, back, on));
  }

  /** How many of the first k types equal t. */
  function Count(ts: seq<int>, t: int, k: nat): nat
    requires k <= |ts|
  {
    if k == 0 then 0 else Count(ts, t, k - 1) + (if ts[k - 1] == t then 1 else 0)
  }

  /** How many of the first k edges span the plane. */
  function CountSpanning(ts: seq<int>, k: nat): nat
    requires k <= |ts|
  {
    if k == 0 then 0 else CountSpanning(ts, k - 1) + (if Spanning(ts, k - 1) then 1 else 0)
  }

  /**
   * The sizes of the three lists: one on-plane point per spanning edge; the
   * front outline has every front and every on-plane vertex plus the
   * crossings, and the back outline likewise.
   */
  lemma {:induction false} WalkCounts(vs: seq<Vec3>, ts: seq<int>, xs: seq<Vec3>, k: nat)
    requires |ts| == |vs| == |xs| && k <= |vs|
    ensures var pc := Walk(vs, ts, xs, k);
      && |pc.on| == CountSpanning(ts, k)
      && |pc.front| == Count(ts, 1, k) + Count(ts, 0, k) + CountSpanning(ts, k)
      && |pc.back| == Count(ts, -1, k) + Count(ts, 0, k) + CountSpanning(ts, k)
  {
    if k > 0 {
      WalkCounts(vs, ts, xs, k - 1);
    }
  }

  /**
   * What goes where: a front or on-plane vertex joins the front list, a back
   * or on-plane vertex the back list, and a spanning edge's crossing all three.
   */
  lemma {:induction false} WalkPlaces(vs: seq<Vec3>, ts: seq<int>, xs: seq<Vec3>, k: nat, i: nat)
    requires |ts| == |vs| == |xs| && i < k <= |vs|
    ensures var pc := Walk(vs, ts, xs, k);
      && (ts[i] == 1 || ts[i] == 0 ==> vs[i] in pc.front)
      && (ts[i] == -1 || ts[i] == 0 ==> vs[i] in pc.back)
      && (Spanning(ts, i) ==> xs[i] in pc.front && xs[i] in pc.back && xs[i] in pc.on)
  {
    if i < k - 1 {
      WalkPlaces(vs, ts, xs, k - 1, i);
    }
  }

  /** The walk throws exactly when the intersection of some spanning edge with the plane is not NON_PARALLEL. */
  lemma CutFails(pl: Plane, vs: seq<Vec3>, ts: seq<int>)
    requires |ts| == |vs|
    ensures Cut(vs, ts, Crossings(pl, vs)).Err? <==>
      exists i | 0 <= i < |vs| ::
        Spanning(ts, i) && ComputePlaneIntersection(pl, vs[i], Sub(vs[Next(i, |vs|)], vs[i]), EPS).kind != NonParallel
  {
    var cs := Crossings(pl, vs);
    forall i | 0 <= i < |vs|
      ensures Stalls(ts, cs, i) <==>
        Spanning(ts, i) && ComputePlaneIntersection(pl, vs[i], Sub(vs[Next(i, |vs|)], vs[i]), EPS).kind != NonParallel
    {
      assert cs[i] == Crossing(pl, vs, i);
    }
  }

  /** The type of every vertex, as cutPolygonWithPlaneIf computes it. */
  function TypesOf(pl: Plane, vs: seq<Vec3>): (ts: seq<int>)
    ensures |ts| == |vs|
    ensures forall i :: 0 <= i < |vs| ==> ts[i] == Compare(pl, vs[i], EPS)
  {
    seq(|vs|, i requires 0 <= i < |vs| => Compare(pl, vs[i], EPS))
  }

  /**
   * With types taken from the plane itself, a spanning edge runs from at
   * least EPS in front to at least EPS behind, so its direction is never
   * parallel to the plane: the exception cannot be thrown.
   */
  lemma CrossingExists(pl: Plane, vs: seq<Vec3>, i: nat)
    requires i < |vs| && Spanning(TypesOf(pl, vs), i)
    ensures Crossing(pl, vs, i).Ok?
  {
    var vi, vj := vs[i], vs[Next(i, |vs|)];
    assert Dot(pl.normal, Sub(vj, vi)) == SignedDistance(pl, vj) - SignedDistance(pl, vi);
    PlaneIntersectionCases(pl, vi, Sub(vj, vi), EPS);
  }

  /** So the walk over plane-computed types always succeeds, and its crossing points lie on the plane. */
  lemma CutSucceeds(pl: Plane, vs: seq<Vec3>)
    ensures Cut(vs, TypesOf(pl, vs), Crossings(pl, vs)).Ok?
    ensures forall i :: 0 <= i < |vs| && Spanning(TypesOf(pl, vs), i) ==>
      SignedDistance(pl, Points(Crossings(pl, vs))[i]) == 0.0
  {
    var ts, cs := TypesOf(pl, vs), Crossings(pl, vs);
    forall i | 0 <= i < |vs| && Spanning(ts, i)
      ensures cs[i].Ok? && SignedDistance(pl, Points(cs)[i]) == 0.0
    {
      CrossingExists(pl, vs, i);
    }
  }

  /**
   * The front outline lies less than EPS behind the plane, the back outline
   * less than EPS in front of it, and the on-plane points exactly on it.
   */
  ghost predicate Sided(pl: Plane, pc: Pieces) {
    && (forall x :: x in pc.front ==> SignedDistance(pl, x) > -EPS)
    && (forall x :: x in pc.back ==> SignedDistance(pl, x) < EPS)
    && (forall x :: x in pc.on ==> SignedDistance(pl, x) == 0.0)
  }

  /** With plane-computed types and crossing points on the plane, the walk's lists are sided. */
  lemma {:induction false} WalkSides(pl: Plane, vs: seq<Vec3>, xs: seq<Vec3>, k: nat)
    requires |xs| == |vs| && k <= |vs|
    requires forall i :: 0 <= i < |vs| && Spanning(TypesOf(pl, vs), i) ==> SignedDistance(pl, xs[i]) == 0.0
    ensures Sided(pl, Walk(vs, TypesOf(pl, vs), xs, k))
  {
    if k > 0 {
      WalkSides(pl, vs, xs, k - 1);
      var ts := TypesOf(pl, vs);
      var acc := Place(vs[k - 1], ts[k - 1], Walk(vs, ts, xs, k - 1));
      assert ts[k - 1] == Compare(pl, vs[k - 1], EPS);
      assert Sided(pl, acc);
      if Spanning(ts, k - 1) {
        assert Sided(pl, AddCrossing(xs[k - 1], acc));
      }
    }
  }

  /** Polygon.fromPoints and Polygon.isValid, which are not part of this model. */
  datatype PolygonOps = PolygonOps(fromPoints: seq<Vec3> -> Polygon, isValid: Polygon -> bool)

  predicate AllEqual(ts: seq<int>) {
    forall i, j :: 0 <= i < |ts| && 0 <= j < |ts| ==> ts[i] == ts[j]
  }

  /** Each type equals the one before it: what the typesEqual flag accumulates. */
  predicate AdjacentEqual(ts: seq<int>) {
    forall i :: 0 < i < |ts| ==> ts[i] == ts[i - 1]
  }

  lemma {:induction false} AdjacentAllEqual(ts: seq<int>)
    ensures AdjacentEqual(ts) <==> AllEqual(ts)
  {
    if AdjacentEqual(ts) && |ts| > 0 {
      forall i | 0 <= i < |ts|
        ensures ts[i] == ts[0]
      {
        var k := i;
        while k > 0
          invariant 0 <= k <= i && ts[k] == ts[i]
        {
          k := k - 1;
        }
      }
    }
  }

  /** The outline as a polygon, kept when it has more than two points and is valid. */
  function Piece(ops: PolygonOps, pts: seq<Vec3>): (r: seq<Polygon>)
    ensures |r| <= 1
    ensures forall q :: q in r ==> |pts| > 2 && q == ops.fromPoints(pts) && ops.isValid(q)
  {
    if |pts| > 2 && ops.isValid(ops.fromPoints(pts)) then [ops.fromPoints(pts)] else []
  }

  /** What cutPolygonWithPlaneIf returns: `check` is None where the source passes null. */
  function CutIf(ops: PolygonOps, p: Polygon, pl: Plane, check: Option<seq<Vec3> -> bool>): Result<seq<Polygon>, string> {
    var vs := Positions(p);
    var ts := TypesOf(pl, vs);
    if AllEqual(ts) then Ok([])
    else match Cut(vs, ts, Crossings(pl, vs))
      case Err(e) => Err(e)
      case Ok(pc) =>
        if check.Some? && !check.value(pc.on) then Ok([])
        else Ok(Piece(ops, pc.front) + Piece(ops, pc.back))
  }

  /**
   * cutPolygonWithPlaneIf: types every vertex against the plane, gives up
   * when all types agree, cuts, lets `check` veto the cut by its on-plane
   * points, and keeps the front and back outlines that make valid polygons.
   */
  method CutPolygonWithPlaneIf(ops: PolygonOps, p: Polygon, plane: Plane, check: Option<seq<Vec3> -> bool>)
    returns (r: Result<seq<Polygon>, string>)
    ensures r == CutIf(ops, p, plane, check)
  {
    ghost var vs := Positions(p);
    var types, typesEqual := VertexTypes(p, plane);
    if typesEqual {
      return Ok([]);
    }
    var cut := CutPolygonWithPlaneAndTypes(p, plane, types);
    assert cut == Cut(vs, TypesOf(plane, vs), Crossings(plane, vs));
    if cut.Err? {
      return Err(cut.error);
    }
    var front, back, on := cut.value.front, cut.value.back, cut.value.on;
    var checkResult := check.None?;
    if check.Some? {
      checkResult := check.value(on);
    }
    if !checkResult {
      return Ok([]);
    }
    var frontCut := KeepCut(ops, front);
    var backCut := KeepCut(ops, back);
    r := Ok(frontCut + backCut);
  }

  /** The first loop of cutPolygonWithPlaneIf: the type of every vertex, and whether they all agree. */
  method VertexTypes(p: Polygon, plane: Plane) returns (types: array<int>, typesEqual: bool)
    ensures fresh(types)
    ensures types[..] == TypesOf(plane, Positions(p))
    ensures typesEqual <==> AllEqual(types[..])
  {
    ghost var vs := Positions(p);
    typesEqual := true;
    types := new int[|p.vertices|];
    for i := 0 to |p.vertices|
      invariant types[..i] == TypesOf(plane, vs)[..i]
      invariant typesEqual <==> AdjacentEqual(types[..i])
    {
      types[i] := Compare(plane, p.vertices[i].pos, EPS);
      if i > 0 && typesEqual {
        typesEqual := typesEqual && (types[i] == types[i - 1]);
      }
    }
    assert types[..] == types[..|p.vertices|];
    AdjacentAllEqual(types[..]);
  }

  /** The outline as a polygon, in a list of its own when it has more than two points and is valid. */
  method KeepCut(ops: PolygonOps, pts: seq<Vec3>) returns (r: seq<Polygon>)
    ensures r == Piece(ops, pts)
  {
    r := [];
    if |pts| > 2 {
      var cut := ops.fromPoints(pts);
      if ops.isValid(cut) {
        r := [cut];
      }
    }
  }

  /** Every point lies on one side of the plane, within EPS. */
  predicate OneSide(pl: Plane, pts: seq<Vec3>) {
    || (forall x :: x in pts ==> SignedDistance(pl, x) > -EPS)
    || (forall x :: x in pts ==> SignedDistance(pl, x) < EPS)
  }

  /** q is the valid polygon fromPoints makes of more than two points pts. */
  predicate MadeFrom(ops: PolygonOps, q: Polygon, pts: seq<Vec3>) {
    |pts| > 2 && q == ops.fromPoints(pts) && ops.isValid(q)
  }

  /**
   * The promises of cutPolygonWithPlaneIf: it never throws; it cuts nothing
   * when every vertex has the same type (a polygon parallel to the plane, or
   * all on one side) or when `check` rejects the on-plane points; otherwise
   * it returns at most two valid polygons, each made from more than two
   * points lying on one side of the plane.
   */
  lemma CutIfResult(ops: PolygonOps, p: Polygon, pl: Plane, check: Option<seq<Vec3> -> bool>)
    ensures var r, vs := CutIf(ops, p, pl, check), Positions(p);
      && r.Ok?
      && (AllEqual(TypesOf(pl, vs)) ==> r.value == [])
      && (!AllEqual(TypesOf(pl, vs)) && check.Some? && !check.value(Cut(vs, TypesOf(pl, vs), Crossings(pl, vs)).value.on) ==> r.value == [])
      && |r.value| <= 2
      && forall q :: q in r.value ==> exists pts :: MadeFrom(ops, q, pts) && OneSide(pl, pts)
  {
    var vs := Positions(p);
    CutSucceeds(pl, vs);
    WalkSides(pl, vs, Points(Crossings(pl, vs)), |vs|);
    var pc := Cut(vs, TypesOf(pl, vs), Crossings(pl, vs)).value;
    assert OneSide(pl, pc.front) && OneSide(pl, pc.back);
    var r := CutIf(ops, p, pl, check);
    forall q | q in r.value
      ensures exists pts :: MadeFrom(ops, q, pts) && OneSide(pl, pts)
    {
      if q in Piece(ops, pc.front) {
        assert MadeFrom(ops, q, pc.front);
      } else {
        assert MadeFrom(ops, q, pc.back);
      }
    }
  }

  /* ---------- Splitting one polygon list by the planes of another ---------- */

  /**
   * What splitPolygons relies on that is not part of this model: the polygon
   * operations, whether a polygon's bounds meet the other solid's bounds
   * (`meetsSolid`) and another polygon's bounds (`meets`), and the test the
   * cut hands its on-plane points to (`accept`, built from the line-line
   * intersection and Polygon.contains).
   */
  datatype SplitOps = SplitOps(
    polygon: PolygonOps,
    meetsSolid: Polygon -> bool,
    meets: (Polygon, Polygon) -> bool,
    accept: (Polygon, Polygon, seq<Vec3>) -> bool)

  /** The check splitPolygons passes when cutting p2 by p1's plane. */
  function Check(ops: SplitOps, p1: Polygon, p2: Polygon): seq<Vec3> -> bool {
    segments => ops.accept(p1, p2, segments)
  }

  /** The cuts one polygon p1 makes in the first k polygons of qs, and the polygons they replace. */
  datatype Cuts = Cuts(cuts: seq<Polygon>, toDelete: seq<Polygon>)

  function CutsWith(ops: SplitOps, p1: Polygon, qs: seq<Polygon>, k: nat): Result<Cuts, string>
    requires k <= |qs|
  {
    if k == 0 then Ok(Cuts([], []))
    else match CutsWith(ops, p1, qs, k - 1)
      case Err(e) => Err(e)
      case Ok(acc) => CutsStep(ops, p1, qs[k - 1], acc)
  }

  /** One turn of the inner loop: p2 is cut by p1's plane when their bounds meet. */
  function CutsStep(ops: SplitOps, p1: Polygon, p2: Polygon, acc: Cuts): Result<Cuts, string> {
    if !ops.meets(p1, p2) then Ok(acc)
    else match CutIf(ops.polygon, p2, p1.plane, Some(Check(ops, p1, p2)))
      case Err(e) => Err(e)
      case Ok(cs) => if cs == [] then Ok(acc) else Ok(Cuts(acc.cuts + cs, acc.toDelete + [p2]))
  }

  /** List.removeAll: every element equal to one in `del` goes, the rest stay in order. */
  function RemoveAll(xs: seq<Polygon>, del: seq<Polygon>): (r: seq<Polygon>)
    ensures forall x :: x in r <==> x in xs && x !in del
    ensures |r| <= |xs|
  {
    if xs == [] then []
    else if xs[0] in del then RemoveAll(xs[1..], del)
    else [xs[0]] + RemoveAll(xs[1..], del)
  }

  /** One pass of the outer loop: p1 cuts the current list, the cuts join it and the polygons cut leave it. */
  function SplitBy(ops: SplitOps, ps: seq<Polygon>, p1: Polygon): Result<seq<Polygon>, string> {
    if !ops.meetsSolid(p1) then Ok(ps)
    else match CutsWith(ops, p1, ps, |ps|)
      case Err(e) => Err(e)
      case Ok(c) => Ok(RemoveAll(ps + c.cuts, c.toDelete))
  }

  /** The list after the first k polygons of ps1 have cut it. */
  function SplitAll(ops: SplitOps, ps1: seq<Polygon>, ps2: seq<Polygon>, k: nat): Result<seq<Polygon>, string>
    requires k <= |ps1|
  {
    if k == 0 then Ok(ps2)
    else match SplitAll(ops, ps1, ps2, k - 1)
      case Err(e) => Err(e)
      case Ok(ps) => SplitBy(ops, ps, ps1[k - 1])
  }

  /** What splitPolygons returns. */
  function Split(ops: SplitOps, ps1: seq<Polygon>, ps2: seq<Polygon>): Result<seq<Polygon>, string> {
    if ps1 == [] || ps2 == [] then Ok([]) else SplitAll(ops, ps1, ps2, |ps1|)
  }

  /** The inner loop of splitPolygons over the current list. */
  method CutsWithP1(ops: SplitOps, p1: Polygon, ps2WithCuts: seq<Polygon>) returns (r: Result<Cuts, string>)
    ensures r == CutsWith(ops, p1, ps2WithCuts, |ps2WithCuts|)
  {
    var cutsWithP1, p2ToDelete := [], [];
    for k := 0 to |ps2WithCuts|
      invariant CutsWith(ops, p1, ps2WithCuts, k) == Ok(Cuts(cutsWithP1, p2ToDelete))
    {
      var p2 := ps2WithCuts[k];
      assert CutsWith(ops, p1, ps2WithCuts, k + 1) == CutsStep(ops, p1, p2, Cuts(cutsWithP1, p2ToDelete));
      if !ops.meets(p1, p2) {
        continue;
      }
      var cutsOfP2WithP1 := CutPolygonWithPlaneIf(ops.polygon, p2, p1.plane, Some(Check(ops, p1, p2)));
      if cutsOfP2WithP1.Err? {
        assert CutsWith(ops, p1, ps2WithCuts, k + 1) == Err(cutsOfP2WithP1.error);
        CutsStayFailed(ops, p1, ps2WithCuts, k + 1, |ps2WithCuts|);
        return Err(cutsOfP2WithP1.error);
      }
      if cutsOfP2WithP1.value != [] {
        cutsWithP1 := cutsWithP1 + cutsOfP2WithP1.value;
        p2ToDelete := p2ToDelete + [p2];
      }
    }
    r := Ok(Cuts(cutsWithP1, p2ToDelete));
  }

  lemma {:induction false} CutsStayFailed(ops: SplitOps, p1: Polygon, qs: seq<Polygon>, k: nat, m: nat)
    requires k <= m <= |qs| && CutsWith(ops, p1, qs, k).Err?
    ensures CutsWith(ops, p1, qs, m) == CutsWith(ops, p1, qs, k)
    decreases m
  {
    if k < m {
      CutsStayFailed(ops, p1, qs, k, m - 1);
      assert CutsWith(ops, p1, qs, m) == Err(CutsWith(ops, p1, qs, m - 1).error);
    }
  }

  lemma {:induction false} SplitStaysFailed(ops: SplitOps, ps1: seq<Polygon>, ps2: seq<Polygon>, k: nat, m: nat)
    requires k <= m <= |ps1| && SplitAll(ops, ps1, ps2, k).Err?
    ensures SplitAll(ops, ps1, ps2, m) == SplitAll(ops, ps1, ps2, k)
    decreases m
  {
    if k < m {
      SplitStaysFailed(ops, ps1, ps2, k, m - 1);
      assert SplitAll(ops, ps1, ps2, m) == Err(SplitAll(ops, ps1, ps2, m - 1).error);
    }
  }

  /**
   * splitPolygons: every polygon of ps1 whose bounds meet the other solid
   * cuts, by its plane, each polygon of the current list whose bounds it
   * meets; the pieces are appended and the polygons cut removed.
   */
  method SplitPolygons(ops: SplitOps, ps1: seq<Polygon>, ps2: seq<Polygon>) returns (r: Result<seq<Polygon>, string>)
    ensures r == Split(ops, ps1, ps2)
    ensures ps1 == [] || ps2 == [] ==> r == Ok([])
  {
    if ps1 == [] || ps2 == [] {
      return Ok([]);
    }
    var ps2WithCuts := ps2;
    for i := 0 to |ps1|
      invariant SplitAll(ops, ps1, ps2, i) == Ok(ps2WithCuts)
    {
      var p1 := ps1[i];
      if !ops.meetsSolid(p1) {
        continue;
      }
      var c := CutsWithP1(ops, p1, ps2WithCuts);
      if c.Err? {
        SplitStaysFailed(ops, ps1, ps2, i + 1, |ps1|);
        return Err(c.error);
      }
      ps2WithCuts := RemoveAll(ps2WithCuts + c.value.cuts, c.value.toDelete);
    }
    r := Ok(ps2WithCuts);
  }

  /** A polygon made by the cut: valid, and built from more than two points. */
  ghost predicate Made(ops: PolygonOps, q: Polygon) {
    exists pts :: MadeFrom(ops, q, pts)
  }

  /** Every polygon of xs is an original from ps2 or was made by a cut. */
  ghost predicate Traced(ops: PolygonOps, ps2: seq<Polygon>, xs: seq<Polygon>) {
    forall q :: q in xs ==> q in ps2 || Made(ops, q)
  }

  lemma {:induction false} CutsWithResult(ops: SplitOps, p1: Polygon, qs: seq<Polygon>, k: nat)
    requires k <= |qs|
    ensures CutsWith(ops, p1, qs, k).Ok?
    ensures forall q :: q in CutsWith(ops, p1, qs, k).value.cuts ==> Made(ops.polygon, q)
  {
    if k > 0 {
      CutsWithResult(ops, p1, qs, k - 1);
      var p2 := qs[k - 1];
      var acc := CutsWith(ops, p1, qs, k - 1).value;
      assert CutsWith(ops, p1, qs, k) == CutsStep(ops, p1, p2, acc);
      if ops.meets(p1, p2) {
        var r := CutIf(ops.polygon, p2, p1.plane, Some(Check(ops, p1, p2)));
        CutIfResult(ops.polygon, p2, p1.plane, Some(Check(ops, p1, p2)));
        assert forall q :: q in r.value ==> Made(ops.polygon, q);
        assert CutsWith(ops, p1, qs, k) == if r.value == [] then Ok(acc) else Ok(Cuts(acc.cuts + r.value, acc.toDelete + [p2]));
      }
    }
  }

  /**
   * What splitPolygons produces: it never fails, and every polygon it returns
   * is either one of ps2 or a valid piece cut from one.
   */
  lemma {:induction false} SplitAllResult(ops: SplitOps, ps1: seq<Polygon>, ps2: seq<Polygon>, k: nat)
    requires k <= |ps1|
    ensures SplitAll(ops, ps1, ps2, k).Ok?
    ensures Traced(ops.polygon, ps2, SplitAll(ops, ps1, ps2, k).value)
  {
    if k > 0 {
      SplitAllResult(ops, ps1, ps2, k - 1);
      var ps := SplitAll(ops, ps1, ps2, k - 1).value;
      CutsWithResult(ops, ps1[k - 1], ps, |ps|);
    }
  }

  lemma SplitResult(ops: SplitOps, ps1: seq<Polygon>, ps2: seq<Polygon>)
    ensures Split(ops, ps1, ps2).Ok?
    ensures Traced(ops.polygon, ps2, Split(ops, ps1, ps2).value)
  {
    SplitAllResult(ops, ps1, ps2, |ps1|);
  }

  /** When no polygon of ps1 comes near the other solid, the outer loop leaves the list as ps2. */
  lemma {:induction false} SplitApart(ops: SplitOps, ps1: seq<Polygon>, ps2: seq<Polygon>, k: nat)
    requires k <= |ps1|
    requires forall i :: 0 <= i < |ps1| ==> !ops.meetsSolid(ps1[i])
    ensures SplitAll(ops, ps1, ps2, k) == Ok(ps2)
  {
    if k > 0 {
      SplitApart(ops, ps1, ps2, k - 1);
    }
  }

  /**
   * splitPolygons returns ps2 unchanged when ps1 is not empty and none of its
   * polygons comes near the other solid; an empty ps1 gives the empty list.
   */
  lemma SplitMissed(ops: SplitOps, ps1: seq<Polygon>, ps2: seq<Polygon>)
    requires forall i :: 0 <= i < |ps1| ==> !ops.meetsSolid(ps1[i])
    ensures ps1 != [] ==> Split(ops, ps1, ps2) == Ok(ps2)
    ensures ps1 == [] ==> Split(ops, ps1, ps2) == Ok([])
  {
    SplitApart(ops, ps1, ps2, |ps1|);
  }
}
