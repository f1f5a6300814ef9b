/**
 * Value-level geometry shared by the BSP engine and the playground cut walk:
 * points, oriented planes (anchor point + normal), vertices and polygons.
 * Arithmetic is exact (`real`); the source uses IEEE doubles.
 */
module Geometry {

  datatype Vec3 = Vec3(x: real, y: real, z: real)

  function Add(a: Vec3, b: Vec3): Vec3 { Vec3(a.x + b.x, a.y + b.y, a.z + b.z) }

  function Sub(a: Vec3, b: Vec3): Vec3 { Vec3(a.x - b.x, a.y - b.y, a.z - b.z) }

  function Scale(t: real, a: Vec3): Vec3 { Vec3(t * a.x, t * a.y, t * a.z) }

  function Negate(a: Vec3): Vec3 { Vec3(-a.x, -a.y, -a.z) }

  function Dot(a: Vec3, b: Vec3): real { a.x * b.x + a.y * b.y + a.z * b.z }

  /** An oriented plane: points `p` with Dot(normal, p - anchor) == 0; `normal` points to the front. */
  datatype Plane = Plane(anchor: Vec3, normal: Vec3)

  /** Signed distance of a point from the plane, scaled by the normal's length. */
  function SignedDistance(pl: Plane, p: Vec3): real { Dot(pl.normal, Sub(p, pl.anchor)) }

  /**
   * Three-way point classification under a tolerance: 0 (on the plane) when the
   * distance is within `tol`, otherwise 1 (front) or -1 (back).
   */
  function Compare(pl: Plane, p: Vec3, tol: real): (c: int)
    requires tol > 0.0
    ensures c == 0 <==> -tol < SignedDistance(pl, p) < tol
    ensures c == 1 ==> SignedDistance(pl, p) >= tol
    ensures c == -1 ==> SignedDistance(pl, p) <= -tol
    ensures c in {-1, 0, 1}
  {
    var d := SignedDistance(pl, p);
    if -tol < d < tol then 0 else if d > 0.0 then 1 else -1
  }

  /** Reverses the orientation of a plane: front and back exchange. */
  function FlipPlane(pl: Plane): (r: Plane)
    ensures forall p :: SignedDistance(r, p) == -SignedDistance(pl, p)
  {
    Plane(pl.anchor, Negate(pl.normal))
  }

  lemma FlipPlaneInvolution(pl: Plane)
    ensures FlipPlane(FlipPlane(pl)) == pl
  {
  }

  datatype Vertex = Vertex(pos: Vec3, normal: Vec3)

  /** A polygon: a closed loop of vertices and the plane it lies in (its `_csg_plane`). */
  datatype Polygon = Polygon(vertices: seq<Vertex>, plane: Plane)

  function Reverse<T>(s: seq<T>): (r: seq<T>)
    ensures |r| == |s|
    ensures forall i :: 0 <= i < |s| ==> r[i] == s[|s| - 1 - i]
  {
    if s == [] then [] else Reverse(s[1..]) + [s[0]]
  }

  function FlipVertex(v: Vertex): Vertex { Vertex(v.pos, Negate(v.normal)) }

  function FlipVertices(vs: seq<Vertex>): (r: seq<Vertex>)
    ensures |r| == |vs|
    ensures forall i :: 0 <= i < |vs| ==> r[i] == FlipVertex(vs[|vs| - 1 - i])
  {
    var rev := Reverse(vs);
    seq(|rev|, i requires 0 <= i < |rev| => FlipVertex(rev[i]))
  }

  /** Polygon.flip: reverse the winding, negate every vertex normal and the plane. */
  function Flip(p: Polygon): (r: Polygon)
    ensures |r.vertices| == |p.vertices|
    ensures r.plane == FlipPlane(p.plane)
    ensures forall i :: 0 <= i < |p.vertices| ==>
      r.vertices[i].pos == p.vertices[|p.vertices| - 1 - i].pos
  {
    Polygon(FlipVertices(p.vertices), FlipPlane(p.plane))
  }

  lemma FlipInvolution(p: Polygon)
    ensures Flip(Flip(p)) == p
  {
    var q := Flip(Flip(p));
    assert |q.vertices| == |p.vertices|;
    forall i | 0 <= i < |p.vertices| ensures q.vertices[i] == p.vertices[i] {
    }
  }

  /** Flips every polygon of a list, keeping the list order. */
  function FlipAll(ps: seq<Polygon>): (r: seq<Polygon>)
    ensures |r| == |ps|
    ensures forall i :: 0 <= i < |ps| ==> r[i] == Flip(ps[i])
  {
    seq(|ps|, i requires 0 <= i < |ps| => Flip(ps[i]))
  }

  lemma FlipAllInvolution(ps: seq<Polygon>)
    ensures FlipAll(FlipAll(ps)) == ps
  {
    forall i | 0 <= i < |ps| ensures FlipAll(FlipAll(ps))[i] == ps[i] {
      FlipInvolution(ps[i]);
    }
  }

  /** Flipping a list flips its parts. */
  lemma FlipAllConcat(a: seq<Polygon>, b: seq<Polygon>)
    ensures FlipAll(a + b) == FlipAll(a) + FlipAll(b)
  {
    var l, r := FlipAll(a + b), FlipAll(a) + FlipAll(b);
    assert |l| == |r|;
    forall i | 0 <= i < |l| ensures l[i] == r[i] {
      if i < |a| {
        assert (a + b)[i] == a[i];
      } else {
        assert (a + b)[i] == b[i - |a|];
      }
    }
  }
}
