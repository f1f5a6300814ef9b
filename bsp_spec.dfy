/**
 * Value-level specification of the BSP engine: a tree value mirroring a Node
 * object graph, the buckets that Plane.splitPolygon fills, and the recursive
 * meaning of clipping and flattening that the queue-driven methods of Node
 * are proved against.
 */
module BspSpec {
  import opened Wrappers
  import opened Geometry

  /** The four output lists of Plane.splitPolygon for one polygon. */
  datatype SplitResult = SplitResult(
    coplanarFront: seq<Polygon>,
    coplanarBack: seq<Polygon>,
    front: seq<Polygon>,
    back: seq<Polygon>)

  /**
   * The polygon and plane operations the BSP engine calls but that are not part
   * of this model: Plane.splitPolygon and Polygon.isValid.
   */
  datatype Kernel = Kernel(split: (Plane, Polygon) -> SplitResult, isValid: Polygon -> bool)

  /**
   * What splitPolygon promises for one polygon: either the whole polygon goes to
   * exactly one coplanar list, or no coplanar output is produced and the polygon
   * leaves as at most one front and at most one back piece (a piece with fewer
   * than three points is dropped).
   */
  predicate Routes(p: Polygon, s: SplitResult) {
    || (s.front == [] && s.back == [] && s.coplanarFront + s.coplanarBack == [p])
    || (s.coplanarFront == [] && s.coplanarBack == [] && |s.front| <= 1 && |s.back| <= 1)
  }

  predicate IsCoplanar(s: SplitResult) {
    s.front == [] && s.back == [] && |s.coplanarFront + s.coplanarBack| == 1
  }

  /**
   * A kernel whose splitter routes every polygon as above and finds every polygon
   * coplanar with its own plane.
   */
  ghost predicate Sound(k: Kernel) {
    && (forall pl, p :: RoutesAt(k, pl, p))
    && (forall p :: OwnPlane(k, p))
  }

  predicate RoutesAt(k: Kernel, pl: Plane, p: Polygon) {
    Routes(p, k.split(pl, p))
  }

  predicate OwnPlane(k: Kernel, p: Polygon) {
    IsCoplanar(k.split(p.plane, p))
  }

  /**
   * Which output lists a caller collects: clipPolygons merges coplanar-front into
   * front and coplanar-back into back; build sends both coplanar lists to the
   * node itself and keeps front and back apart.
   */
  datatype Bucket = ClipFront | ClipBack | Coplanar | FrontOnly | BackOnly

  function Pick(s: SplitResult, b: Bucket): seq<Polygon> {
    match b
    case ClipFront => s.coplanarFront + s.front
    case ClipBack => s.coplanarBack + s.back
    case Coplanar => s.coplanarFront + s.coplanarBack
    case FrontOnly => s.front
    case BackOnly => s.back
  }

  /** What one bucket holds after splitting every polygon of `ps`, in order, against `pl`. */
  function Gather(k: Kernel, pl: Plane, ps: seq<Polygon>, b: Bucket): seq<Polygon>
  {
    if ps == [] then [] else Pick(k.split(pl, ps[0]), b) + Gather(k, pl, ps[1..], b)
  }

  lemma {:induction false} GatherAppend(k: Kernel, pl: Plane, a: seq<Polygon>, c: seq<Polygon>, b: Bucket)
    ensures Gather(k, pl, a + c, b) == Gather(k, pl, a, b) + Gather(k, pl, c, b)
  {
    if a == [] {
      assert a + c == c;
    } else {
      assert (a + c)[1..] == a[1..] + c;
      GatherAppend(k, pl, a[1..], c, b);
    }
  }

  /** Splitting one more polygon appends its pieces to each bucket. */
  lemma GatherSnoc(k: Kernel, pl: Plane, ps: seq<Polygon>, x: Polygon, b: Bucket)
    ensures Gather(k, pl, ps + [x], b) == Gather(k, pl, ps, b) + Pick(k.split(pl, x), b)
  {
    GatherAppend(k, pl, ps, [x], b);
    assert [x][1..] == [];
  }

  /** A polygon tree value: `Absent` stands for a null child link. */
  datatype Tree = Absent | Cell(plane: Option<Plane>, polygons: seq<Polygon>, front: Tree, back: Tree)

  function Size(t: Tree): nat {
    if t.Absent? then 0 else 1 + Size(t.front) + Size(t.back)
  }

  /** Every polygon of every node, node list by node list, this node first. */
  function Polygons(t: Tree): seq<Polygon> {
    if t.Absent? then [] else t.polygons + Polygons(t.front) + Polygons(t.back)
  }

  /** The present children of a node, front first: what a traversal enqueues. */
  function Kids(t: Tree): (r: seq<Tree>)
    requires t.Cell?
    ensures forall i :: 0 <= i < |r| ==> r[i].Cell?
  {
    (if t.front.Cell? then [t.front] else []) + (if t.back.Cell? then [t.back] else [])
  }

  /** Polygons of all trees of a queue. */
  function QueuePolygons(q: seq<Tree>): multiset<Polygon> {
    if q == [] then multiset{} else multiset(Polygons(q[0])) + QueuePolygons(q[1..])
  }

  function QueueSize(q: seq<Tree>): nat {
    if q == [] then 0 else Size(q[0]) + QueueSize(q[1..])
  }

  lemma {:induction false} QueueAppend(a: seq<Tree>, c: seq<Tree>)
    ensures QueuePolygons(a + c) == QueuePolygons(a) + QueuePolygons(c)
    ensures QueueSize(a + c) == QueueSize(a) + QueueSize(c)
  {
    if a != [] {
      assert (a + c)[1..] == a[1..] + c;
      QueueAppend(a[1..], c);
    } else {
      assert a + c == c;
    }
  }

  lemma KidsQueue(t: Tree)
    requires t.Cell?
    ensures QueuePolygons(Kids(t)) == multiset(Polygons(t.front)) + multiset(Polygons(t.back))
    ensures QueueSize(Kids(t)) == Size(t.front) + Size(t.back)
  {
    if t.front.Cell? && t.back.Cell? {
      QueueAppend([t.front], [t.back]);
      assert Kids(t) == [t.front] + [t.back];
    }
  }

  /**
   * Taking the first tree off a queue and appending its present children keeps
   * the queue's polygons apart from the node's own list and shrinks its size by one.
   */
  lemma Step(q: seq<Tree>, r: seq<Polygon>)
    requires q != [] && q[0].Cell?
    ensures multiset(r + q[0].polygons) + QueuePolygons(q[1..] + Kids(q[0])) == multiset(r) + QueuePolygons(q)
    ensures QueueSize(q[1..] + Kids(q[0])) == QueueSize(q) - 1
  {
    QueueAppend(q[1..], Kids(q[0]));
    KidsQueue(q[0]);
  }

  /**
   * The meaning of Node.clipPolygons on tree `t`: a node without a plane keeps
   * everything; otherwise the batch is split, the front pieces go on into the
   * front child and the back pieces into the back child. An absent child ends
   * the descent: `keep` says whether what reaches it is kept (an absent front
   * child) or dropped (an absent back child).
   */
  function Clip(k: Kernel, t: Tree, ps: seq<Polygon>, keep: bool): seq<Polygon>
    decreases t
  {
    if t.Absent? then (if keep then ps else [])
    else if t.plane.None? then ps
    else
      Clip(k, t.front, Gather(k, t.plane.value, ps, ClipFront), true)
      + Clip(k, t.back, Gather(k, t.plane.value, ps, ClipBack), false)
  }

  /** A pending clip job: a subtree and the batch that reached it. */
  datatype Job = Job(tree: Tree, batch: seq<Polygon>)

  /** What the pending jobs of a clip traversal will still add to its result. */
  function QueueClip(k: Kernel, q: seq<Job>): multiset<Polygon>
    requires forall i :: 0 <= i < |q| ==> q[i].tree.Cell?
  {
    if q == [] then multiset{} else multiset(Clip(k, q[0].tree, q[0].batch, true)) + QueueClip(k, q[1..])
  }

  function JobsSize(q: seq<Job>): nat {
    if q == [] then 0 else Size(q[0].tree) + JobsSize(q[1..])
  }

  lemma {:induction false} JobsAppend(k: Kernel, a: seq<Job>, c: seq<Job>)
    requires forall i :: 0 <= i < |a| ==> a[i].tree.Cell?
    requires forall i :: 0 <= i < |c| ==> c[i].tree.Cell?
    ensures QueueClip(k, a + c) == QueueClip(k, a) + QueueClip(k, c)
    ensures JobsSize(a + c) == JobsSize(a) + JobsSize(c)
  {
    if a != [] {
      assert (a + c)[1..] == a[1..] + c;
      JobsAppend(k, a[1..], c);
    } else {
      assert a + c == c;
    }
  }

  /** The jobs a clip step enqueues: the batches for the children that are present. */
  function NextJobs(t: Tree, fs: seq<Polygon>, bs: seq<Polygon>): (r: seq<Job>)
    requires t.Cell?
    ensures forall i :: 0 <= i < |r| ==> r[i].tree.Cell?
  {
    (if t.front.Cell? then [Job(t.front, fs)] else []) + (if t.back.Cell? then [Job(t.back, bs)] else [])
  }

  lemma NextJobsQueue(k: Kernel, t: Tree, fs: seq<Polygon>, bs: seq<Polygon>)
    requires t.Cell?
    ensures QueueClip(k, NextJobs(t, fs, bs))
      == multiset(if t.front.Cell? then Clip(k, t.front, fs, true) else [])
       + multiset(if t.back.Cell? then Clip(k, t.back, bs, true) else [])
    ensures JobsSize(NextJobs(t, fs, bs)) == Size(t.front) + Size(t.back)
  {
    if t.front.Cell? && t.back.Cell? {
      JobsAppend(k, [Job(t.front, fs)], [Job(t.back, bs)]);
      assert NextJobs(t, fs, bs) == [Job(t.front, fs)] + [Job(t.back, bs)];
    }
  }

  /**
   * Clipping at a node with a plane: the front pieces are kept when there is no
   * front child, and everything else is what the child jobs will add.
   */
  lemma ClipCell(k: Kernel, t: Tree, ps: seq<Polygon>, fs: seq<Polygon>, bs: seq<Polygon>)
    requires t.Cell? && t.plane.Some?
    requires fs == Gather(k, t.plane.value, ps, ClipFront) && bs == Gather(k, t.plane.value, ps, ClipBack)
    ensures multiset(Clip(k, t, ps, true)) == multiset(if t.front.Absent? then fs else []) + QueueClip(k, NextJobs(t, fs, bs))
  {
    NextJobsQueue(k, t, fs, bs);
    assert Clip(k, t, ps, true) == Clip(k, t.front, fs, true) + Clip(k, t.back, bs, false);
  }

  /**
   * One step of the clip traversal at a node with a plane: the kept front pieces
   * (when there is no front child) plus what the remaining and the new jobs add
   * is what the queue added before, and the queue gets smaller.
   */
  lemma ClipJobStep(k: Kernel, q: seq<Job>, t: Tree, ps: seq<Polygon>, fs: seq<Polygon>, bs: seq<Polygon>)
    requires q != [] && forall i :: 0 <= i < |q| ==> q[i].tree.Cell?
    requires q[0] == Job(t, ps) && t.Cell? && t.plane.Some?
    requires fs == Gather(k, t.plane.value, ps, ClipFront) && bs == Gather(k, t.plane.value, ps, ClipBack)
    ensures QueueClip(k, q) == multiset(if t.front.Absent? then fs else []) + QueueClip(k, q[1..] + NextJobs(t, fs, bs))
  {
    JobsAppend(k, q[1..], NextJobs(t, fs, bs));
    ClipCell(k, t, ps, fs, bs);
  }

  /**
   * A whole turn of the clip traversal on values: with the kept front pieces
   * appended to the result, result plus pending work is unchanged and the queue
   * shrinks.
   */
  lemma ClipTurn(k: Kernel, q: seq<Job>, r: seq<Polygon>, r': seq<Polygon>, fs: seq<Polygon>, bs: seq<Polygon>)
    requires q != [] && forall i :: 0 <= i < |q| ==> q[i].tree.Cell?
    requires q[0].tree.plane.Some?
    requires fs == Gather(k, q[0].tree.plane.value, q[0].batch, ClipFront)
    requires bs == Gather(k, q[0].tree.plane.value, q[0].batch, ClipBack)
    requires r' == r + (if q[0].tree.front.Absent? then fs else [])
    ensures multiset(r') + QueueClip(k, q[1..] + NextJobs(q[0].tree, fs, bs)) == multiset(r) + QueueClip(k, q)
    ensures JobsSize(q[1..] + NextJobs(q[0].tree, fs, bs)) < JobsSize(q)
  {
    ClipJobStep(k, q, q[0].tree, q[0].batch, fs, bs);
    JobsShrink(k, q, fs, bs);
  }

  /** Replacing the first job by the jobs for its children shrinks the queue. */
  lemma JobsShrink(k: Kernel, q: seq<Job>, fs: seq<Polygon>, bs: seq<Polygon>)
    requires q != [] && forall i :: 0 <= i < |q| ==> q[i].tree.Cell?
    ensures JobsSize(q[1..] + NextJobs(q[0].tree, fs, bs)) < JobsSize(q)
  {
    JobsAppend(k, q[1..], NextJobs(q[0].tree, fs, bs));
    NextJobsQueue(k, q[0].tree, fs, bs);
  }

  /** Clipping nothing yields nothing. */
  lemma {:induction false} ClipNothing(k: Kernel, t: Tree, keep: bool)
    ensures Clip(k, t, [], keep) == []
    decreases t
  {
    if t.Cell? && t.plane.Some? {
      ClipNothing(k, t.front, true);
      ClipNothing(k, t.back, false);
    }
  }

  /**
   * Clipping distributes over concatenation: each polygon is clipped on its own,
   * independently of the others in its batch.
   */
  lemma {:induction false} ClipConcat(k: Kernel, t: Tree, a: seq<Polygon>, c: seq<Polygon>, keep: bool)
    ensures multiset(Clip(k, t, a + c, keep)) == multiset(Clip(k, t, a, keep)) + multiset(Clip(k, t, c, keep))
    decreases t
  {
    if t.Cell? && t.plane.Some? {
      var pl := t.plane.value;
      GatherAppend(k, pl, a, c, ClipFront);
      GatherAppend(k, pl, a, c, ClipBack);
      ClipConcat(k, t.front, Gather(k, pl, a, ClipFront), Gather(k, pl, c, ClipFront), true);
      ClipConcat(k, t.back, Gather(k, pl, a, ClipBack), Gather(k, pl, c, ClipBack), false);
    }
  }

  /*
   * Inversion (Node.invert): every polygon is flipped, the node's plane is
   * flipped, front and back swap. A node without a plane adopts the plane of
   * its first polygon; a node with neither plane nor polygons stops the walk.
   */

  /** A node on which invert gives up: no plane and no polygons. */
  predicate Stuck(plane: Option<Plane>, ps: seq<Polygon>) {
    plane.None? && ps == []
  }

  /**
   * The plane a node holds after invert. The polygons are flipped before a
   * missing plane is adopted, so the adopted plane is the flipped first
   * polygon's plane, flipped once more.
   */
  function InvertPlane(plane: Option<Plane>, ps: seq<Polygon>): Option<Plane> {
    if plane.Some? then Some(FlipPlane(plane.value))
    else if ps != [] then Some(FlipPlane(FlipAll(ps)[0].plane))
    else None
  }

  /**
   * Invert gives up exactly on a stuck node; otherwise an existing plane is
   * flipped, and a missing one becomes the first polygon's own plane, unflipped.
   */
  lemma InvertPlaneCases(plane: Option<Plane>, ps: seq<Polygon>)
    ensures InvertPlane(plane, ps).None? <==> Stuck(plane, ps)
    ensures plane.Some? ==> InvertPlane(plane, ps) == Some(FlipPlane(plane.value))
    ensures plane.None? && ps != [] ==> InvertPlane(plane, ps) == Some(ps[0].plane)
  {
    if plane.None? && ps != [] {
      FlipPlaneInvolution(ps[0].plane);
    }
  }

  /** Whether some node of the tree is stuck. */
  predicate HasStuck(t: Tree) {
    t.Cell? && (Stuck(t.plane, t.polygons) || HasStuck(t.front) || HasStuck(t.back))
  }

  /** Whether every node of the tree has a plane. */
  predicate AllPlanes(t: Tree) {
    t.Absent? || (t.plane.Some? && AllPlanes(t.front) && AllPlanes(t.back))
  }

  /** The inverted tree, or None when invert gives up somewhere in it. */
  function InvertTree(t: Tree): Option<Tree> {
    if t.Absent? then Some(Absent)
    else
      var f, b := InvertTree(t.front), InvertTree(t.back);
      var pl := InvertPlane(t.plane, t.polygons);
      if pl.None? || f.None? || b.None? then None
      else Some(Cell(pl, FlipAll(t.polygons), b.value, f.value))
  }

  /** Invert completes exactly on trees without a stuck node, and then every node has a plane. */
  lemma {:induction false} InvertTreeDefined(t: Tree)
    ensures InvertTree(t).Some? <==> !HasStuck(t)
    ensures InvertTree(t).Some? ==> AllPlanes(InvertTree(t).value)
  {
    if t.Cell? {
      InvertTreeDefined(t.front);
      InvertTreeDefined(t.back);
      InvertPlaneCases(t.plane, t.polygons);
    }
  }

  /** Inverting twice restores a tree in which every node has a plane. */
  lemma {:induction false} InvertInvolution(t: Tree)
    requires AllPlanes(t)
    ensures InvertTree(t).Some?
    ensures InvertTree(InvertTree(t).value) == Some(t)
  {
    if t.Cell? {
      InvertInvolution(t.front);
      InvertInvolution(t.back);
      FlipPlaneInvolution(t.plane.value);
      FlipAllInvolution(t.polygons);
      InvertPlaneCases(t.plane, t.polygons);
    }
  }

  /** The inverted tree holds the flipped polygons of the tree, up to order. */
  lemma {:induction false} InvertPolygons(t: Tree)
    requires InvertTree(t).Some?
    ensures multiset(Polygons(InvertTree(t).value)) == multiset(FlipAll(Polygons(t)))
  {
    if t.Cell? {
      InvertPolygons(t.front);
      InvertPolygons(t.back);
      FlipAllConcat(t.polygons + Polygons(t.front), Polygons(t.back));
      FlipAllConcat(t.polygons, Polygons(t.front));
    }
  }
}
