/**
 * The BSP tree node of Node.java: a mutable object with a polygon list, an
 * optional splitting plane and optional front and back children. Every
 * operation is the source's queue-driven loop over nodes, proved against the
 * value-level meaning in BspSpec.
 */
module Bsp {
  import opened Wrappers
  import opened Geometry
  import opened BspSpec
  import opened BuildSpec

  /** The footprint of an optional child: empty for a null link. */
  ghost function SubOf(n: Node?): set<Node>
    reads if n == null then {} else {n}`Sub
  {
    if n == null then {} else n.Sub
  }

  /**
   * Node `n` owns its children exclusively: its footprint is itself plus the
   * disjoint footprints of its children, and it is not inside either of them.
   */
  ghost predicate Owns(n: Node)
    reads n`Sub, n`front, n`back, ({n.front, n.back} - {null})`Sub
  {
    && n in n.Sub
    && n.Sub == {n} + SubOf(n.front) + SubOf(n.back)
    && (n.front != null ==> n !in n.front.Sub)
    && (n.back != null ==> n !in n.back.Sub)
    && SubOf(n.front) !! SubOf(n.back)
  }

  /** A queue of nodes and the queue of tree values they currently stand for. */
  ghost predicate Mirrors(nodes: seq<Node>, q: seq<Tree>)
    reads nodes, set n, o | n in nodes && o in n.Sub :: o
  {
    && |q| == |nodes|
    && forall i :: 0 <= i < |nodes| ==> nodes[i].Valid() && q[i] == nodes[i].Model()
  }

  /** Dequeuing a node and enqueuing its children mirrors the same step on tree values. */
  lemma MirrorsStep(nodes: seq<Node>, q: seq<Tree>)
    requires nodes != [] && Mirrors(nodes, q)
    ensures q[0].Cell? && q[0].polygons == nodes[0].polygons
    ensures Mirrors(nodes[1..] + nodes[0].Children(), q[1..] + Kids(q[0]))
  {
    nodes[0].ChildrenModels();
  }

  /** A queue of (node, batch) pairs and the clip jobs on tree values they stand for. */
  ghost predicate MirrorsJobs(nodes: seq<(Node, seq<Polygon>)>, q: seq<Job>)
    reads set i | 0 <= i < |nodes| :: nodes[i].0
    reads set i, o | 0 <= i < |nodes| && o in nodes[i].0.Sub :: o
  {
    && |q| == |nodes|
    && (forall i :: 0 <= i < |nodes| ==>
         nodes[i].0.Valid() && q[i] == Job(nodes[i].0.Model(), nodes[i].1))
    && (forall i :: 0 <= i < |q| ==> q[i].tree.Cell?)
  }

  /** The pairs a clip step enqueues for the children of `n` that are present. */
  function ChildJobs(n: Node, fs: seq<Polygon>, bs: seq<Polygon>): seq<(Node, seq<Polygon>)>
    reads n
  {
    (if n.front != null then [(n.front, fs)] else []) + (if n.back != null then [(n.back, bs)] else [])
  }

  lemma MirrorsJobsStep(nodes: seq<(Node, seq<Polygon>)>, q: seq<Job>, fs: seq<Polygon>, bs: seq<Polygon>)
    requires nodes != [] && MirrorsJobs(nodes, q)
    ensures q[0].tree.Cell?
    ensures forall i :: 0 <= i < |q| ==> q[i].tree.Cell?
    ensures MirrorsJobs(nodes[1..], q[1..])
    ensures MirrorsJobs(nodes[1..] + ChildJobs(nodes[0].0, fs, bs), q[1..] + NextJobs(q[0].tree, fs, bs))
  {
    nodes[0].0.ChildrenModels();
  }

  /**
   * The inner loop of clipPolygons: splits every polygon of a batch by `pl`,
   * collecting coplanar-front and front pieces in `fs` and coplanar-back and
   * back pieces in `bs`, in batch order.
   */
  method SplitBatch(k: Kernel, pl: Plane, batch: seq<Polygon>) returns (fs: seq<Polygon>, bs: seq<Polygon>)
    ensures fs == Gather(k, pl, batch, ClipFront)
    ensures bs == Gather(k, pl, batch, ClipBack)
  {
    fs, bs := [], [];
    for i := 0 to |batch|
      invariant fs == Gather(k, pl, batch[..i], ClipFront)
      invariant bs == Gather(k, pl, batch[..i], ClipBack)
    {
      var s := k.split(pl, batch[i]);
      GatherSnoc(k, pl, batch[..i], batch[i], ClipFront);
      GatherSnoc(k, pl, batch[..i], batch[i], ClipBack);
      assert batch[..i + 1] == batch[..i] + [batch[i]];
      fs := fs + (s.coplanarFront + s.front);
      bs := bs + (s.coplanarBack + s.back);
    }
    assert batch[..|batch|] == batch;
  }

  /** The footprint recorded for `n` in a snapshot of footprints. */
  ghost function Fp(subs: map<Node, set<Node>>, n: Node): set<Node> {
    if n in subs then subs[n] else {}
  }

  /** The nodes of the subtrees rooted at the queued nodes. */
  ghost function QueueSubs(nodes: seq<Node>, subs: map<Node, set<Node>>): set<Node> {
    if nodes == [] then {} else Fp(subs, nodes[0]) + QueueSubs(nodes[1..], subs)
  }

  lemma {:induction false} QueueSubsAppend(a: seq<Node>, c: seq<Node>, subs: map<Node, set<Node>>)
    ensures QueueSubs(a + c, subs) == QueueSubs(a, subs) + QueueSubs(c, subs)
  {
    if a == [] {
      assert a + c == c;
    } else {
      assert (a + c)[1..] == a[1..] + c;
      QueueSubsAppend(a[1..], c, subs);
    }
  }

  /** The footprints of a queue of one or two nodes. */
  lemma QueueSubsShort(a: Node, b: Node, subs: map<Node, set<Node>>)
    ensures QueueSubs([], subs) == {}
    ensures QueueSubs([a], subs) == Fp(subs, a)
    ensures QueueSubs([a, b], subs) == Fp(subs, a) + Fp(subs, b)
  {
    assert [a][1..] == [];
    assert [a, b][1..] == [b];
    assert QueueSubs([b], subs) == Fp(subs, b);
  }

  lemma {:induction false} QueueSubsHas(nodes: seq<Node>, subs: map<Node, set<Node>>, i: nat)
    requires i < |nodes|
    ensures Fp(subs, nodes[i]) <= QueueSubs(nodes, subs)
  {
    if i > 0 {
      QueueSubsHas(nodes[1..], subs, i - 1);
    }
  }

  /**
   * The state of a node-by-node traversal, over a snapshot `subs` of the
   * footprints: the queued subtrees are pairwise disjoint, untouched by the
   * traversal so far, and together with the nodes already done they make up
   * the whole tree `all`.
   */
  ghost predicate Frontier(nodes: seq<Node>, done: set<Node>, all: set<Node>, subs: map<Node, set<Node>>) {
    && (forall i :: 0 <= i < |nodes| ==> nodes[i] in Fp(subs, nodes[i]) && Fp(subs, nodes[i]) !! done)
    && (forall i, j :: 0 <= i < j < |nodes| ==> Fp(subs, nodes[i]) !! Fp(subs, nodes[j]))
    && all == done + QueueSubs(nodes, subs)
  }

  /** A traversal starts with the root queued and nothing done. */
  lemma FrontierStart(root: Node, all: set<Node>, subs: map<Node, set<Node>>)
    requires root in subs && subs[root] == all && root in all
    ensures Frontier([root], {}, all, subs)
  {
    assert QueueSubs([root], subs) == subs[root] + QueueSubs([], subs);
  }

  /** The first queued node belongs to the tree and is not done yet. */
  lemma FrontierHead(nodes: seq<Node>, done: set<Node>, all: set<Node>, subs: map<Node, set<Node>>)
    requires nodes != [] && Frontier(nodes, done, all, subs)
    ensures nodes[0] in all && nodes[0] !in done
  {
    QueueSubsHas(nodes, subs, 0);
  }

  /** Changing polygon lists only keeps a tree well formed. */
  twostate lemma ShapeKept(n: Node)
    requires old(n.Valid())
    requires forall m | m in old(n.Sub) :: m.Sub == old(m.Sub) && m.front == old(m.front) && m.back == old(m.back)
    ensures n.Valid() && n.Sub == old(n.Sub)
  {
  }

  /** A tree none of whose nodes has changed is still valid and stands for the same value. */
  twostate lemma Framed(n: Node)
    requires old(n.Valid()) && unchanged(old(n.Sub))
    ensures n.Valid() && n.Model() == old(n.Model())
  {
  }

  /** The polygon lists of the nodes `all` are those recorded in `polys`. */
  ghost predicate Holds(all: set<Node>, polys: map<Node, seq<Polygon>>)
    reads all`polygons
  {
    forall n | n in all :: n in polys && n.polygons == polys[n]
  }

  /**
   * The polygon lists during clipTo, as recorded in `polys`: the nodes done
   * hold what `t` keeps of their lists from `before`, the others still hold
   * those lists.
   */
  ghost predicate Clipped(k: Kernel, t: Tree, done: set<Node>, all: set<Node>,
                          before: map<Node, seq<Polygon>>, polys: map<Node, seq<Polygon>>)
  {
    forall n | n in all :: n in before && n in polys &&
      if n in done then multiset(polys[n]) == multiset(Clip(k, t, before[n], true))
      else polys[n] == before[n]
  }

  /**
   * Node `n` as recorded in snapshots `subs` of the footprints and `kids` of
   * the children: its footprint is itself plus the disjoint footprints of its
   * children, it is in neither of them, and each child is in its own.
   */
  ghost predicate Shaped(subs: map<Node, set<Node>>, kids: map<Node, seq<Node>>, n: Node) {
    && n in subs && n in kids && n in subs[n] && |kids[n]| <= 2
    && (forall i :: 0 <= i < |kids[n]| ==> kids[n][i] in Fp(subs, kids[n][i]))
    && subs[n] == {n} + QueueSubs(kids[n], subs)
    && n !in QueueSubs(kids[n], subs)
    && (|kids[n]| == 2 ==> Fp(subs, kids[n][0]) !! Fp(subs, kids[n][1]))
  }

  /** A node whose recorded footprint is itself plus its children's is shaped. */
  lemma ShapedOf(subs: map<Node, set<Node>>, kids: map<Node, seq<Node>>, n: Node, ks: seq<Node>)
    requires n in subs && n in kids && kids[n] == ks && |ks| <= 2 && n in subs[n]
    requires forall i :: 0 <= i < |ks| ==> ks[i] in subs && ks[i] in subs[ks[i]] && n !in subs[ks[i]]
    requires subs[n] == {n} + (if |ks| > 0 then subs[ks[0]] else {}) + (if |ks| > 1 then subs[ks[1]] else {})
    requires |ks| == 2 ==> subs[ks[0]] !! subs[ks[1]]
    ensures Shaped(subs, kids, n)
  {
    if |ks| == 2 {
      QueueSubsShort(ks[0], ks[1], subs);
      assert ks == [ks[0], ks[1]];
    } else if |ks| == 1 {
      QueueSubsShort(ks[0], ks[0], subs);
      assert ks == [ks[0]];
    } else {
      QueueSubsShort(n, n, subs);
    }
  }

  /**
   * Taking the first queued node and queueing its children keeps the frontier:
   * the node is done, and its children's subtrees take the place of its own.
   */
  lemma FrontierStep(nodes: seq<Node>, done: set<Node>, all: set<Node>,
                     subs: map<Node, set<Node>>, kids: map<Node, seq<Node>>)
    requires nodes != [] && Frontier(nodes, done, all, subs) && Shaped(subs, kids, nodes[0])
    ensures Frontier(nodes[1..] + kids[nodes[0]], done + {nodes[0]}, all, subs)
  {
    var cur, rest, ks := nodes[0], nodes[1..], kids[nodes[0]];
    var next := rest + ks;
    assert QueueSubs(nodes, subs) == subs[cur] + QueueSubs(rest, subs);
    QueueSubsAppend(rest, ks, subs);
    forall i | 0 <= i < |ks|
      ensures Fp(subs, ks[i]) <= subs[cur]
    {
      QueueSubsHas(ks, subs, i);
    }
    forall i | 0 <= i < |next|
      ensures next[i] in Fp(subs, next[i]) && Fp(subs, next[i]) !! done + {cur}
    {
      if i < |rest| {
        assert next[i] == nodes[i + 1];
      } else {
        assert next[i] == ks[i - |rest|];
        QueueSubsHas(ks, subs, i - |rest|);
      }
    }
    forall i, j | 0 <= i < j < |next|
      ensures Fp(subs, next[i]) !! Fp(subs, next[j])
    {
      if j < |rest| {
        assert next[i] == nodes[i + 1] && next[j] == nodes[j + 1];
      } else if i < |rest| {
        assert next[i] == nodes[i + 1];
        assert next[j] == ks[j - |rest|];
      } else {
        assert next[i] == ks[0] && next[j] == ks[1];
      }
    }
  }


  /** The fields of one node, as a value. */
  datatype Fields = Fields(plane: Option<Plane>, polygons: seq<Polygon>, front: Node?, back: Node?)

  ghost function FieldsOf(n: Node): Fields
    reads n`plane, n`polygons, n`front, n`back
  {
    Fields(n.plane, n.polygons, n.front, n.back)
  }

  /** The present children recorded in `f`, front first. */
  function KidsIn(f: Fields): seq<Node> {
    (if f.front != null then [f.front] else []) + (if f.back != null then [f.back] else [])
  }

  /**
   * `b` is what invert makes of a node whose fields were `a`: the node was not
   * stuck, its polygons are flipped, its plane is flipped (or adopted from the
   * first polygon and then flipped), and its children are swapped.
   */
  ghost predicate InvertedFields(a: Fields, b: Fields) {
    && !Stuck(a.plane, a.polygons)
    && b == Fields(InvertPlane(a.plane, a.polygons), FlipAll(a.polygons), a.back, a.front)
  }

  /** The fields of the nodes `all` are those recorded in `now`. */
  ghost predicate Current(all: set<Node>, now: map<Node, Fields>)
    reads all`plane, all`polygons, all`front, all`back
  {
    forall n | n in all :: n in now && FieldsOf(n) == now[n]
  }

  /**
   * The fields during invert, as recorded in `now`: the nodes done are
   * inverted, the others still hold the fields recorded in `was`.
   */
  ghost predicate InvertState(done: set<Node>, all: set<Node>, was: map<Node, Fields>, now: map<Node, Fields>) {
    forall n | n in all :: n in was && n in now &&
      if n in done then InvertedFields(was[n], now[n]) else now[n] == was[n]
  }

  /** Every node of `all` is shaped as recorded, and its recorded fields name the recorded children. */
  ghost predicate Prepared(all: set<Node>, subs: map<Node, set<Node>>, kids: map<Node, seq<Node>>, was: map<Node, Fields>) {
    forall n | n in all :: Shaped(subs, kids, n) && n in was && kids[n] == KidsIn(was[n])
  }

  /**
   * Where the invert traversal stopped. `inverted` are the nodes it visited
   * and `pending` the queue it left, so every other node lies in the
   * untouched subtree of a queued one. A finished traversal leaves nothing
   * queued; an aborted one stops at the stuck node at the head of the
   * queue. The root is inverted unless it is the stuck node itself.
   */
  ghost predicate StoppedAt(finished: bool, root: Node, inverted: set<Node>, pending: seq<Node>,
                            all: set<Node>, subs: map<Node, set<Node>>, was: map<Node, Fields>) {
    && Frontier(pending, inverted, all, subs)
    && (finished <==> pending == [])
    && (!finished ==> pending[0] in was && Stuck(was[pending[0]].plane, was[pending[0]].polygons))
    && (root in inverted || (!finished && pending[0] == root))
  }

  /** A traversal finishes exactly when no node of the tree is stuck. */
  lemma StoppedStuck(finished: bool, root: Node, inverted: set<Node>, pending: seq<Node>,
                     all: set<Node>, subs: map<Node, set<Node>>, was: map<Node, Fields>, now: map<Node, Fields>)
    requires InvertState(inverted, all, was, now) && StoppedAt(finished, root, inverted, pending, all, subs, was)
    ensures finished <==> forall n | n in all :: !Stuck(was[n].plane, was[n].polygons)
  {
    if finished {
      assert QueueSubs(pending, subs) == {};
    } else {
      QueueSubsHas(pending, subs, 0);
    }
  }

  /** Each node either kept its recorded children or had them swapped. */
  lemma StateSwaps(inverted: set<Node>, all: set<Node>, was: map<Node, Fields>, now: map<Node, Fields>)
    requires InvertState(inverted, all, was, now)
    ensures forall n | n in all ::
      (now[n].front == was[n].front && now[n].back == was[n].back) ||
      (now[n].front == was[n].back && now[n].back == was[n].front)
  {
  }

  /** Between the two states, the nodes of `all` kept their footprints and kept or swapped their children. */
  twostate predicate KeptOrSwapped(all: set<Node>)
    reads all
  {
    forall m | m in all ::
      m.Sub == old(m.Sub) &&
      ((m.front == old(m.front) && m.back == old(m.back)) || (m.front == old(m.back) && m.back == old(m.front)))
  }

  /** Swapping the children of some nodes, and nothing else, keeps a tree well formed. */
  twostate lemma SwapKept(n: Node)
    requires old(n.Valid()) && KeptOrSwapped(old(n.Sub))
    ensures n.Valid() && n.Sub == old(n.Sub)
  {
    forall m | m in n.Sub
      ensures (m.front != null ==> m.front in n.Sub) && (m.back != null ==> m.back in n.Sub)
      ensures Owns(m)
    {
      assert old(Owns(m));
      var f, b := old(m.front), old(m.back);
      assert SubOf(f) == old(SubOf(f)) && SubOf(b) == old(SubOf(b));
    }
  }

  /** Footprints that have not changed give the same snapshot. */
  twostate lemma SubsKept(n: Node)
    requires n.Sub == old(n.Sub) && unchanged(old(n.Sub)`Sub)
    ensures n.Subs() == old(n.Subs())
  {
  }

  /** A node that owns its two well-formed, disjoint subtrees is a well-formed tree. */
  lemma Adopt(c: Node)
    requires c.Sub == {c} + SubOf(c.front) + SubOf(c.back) && SubOf(c.front) !! SubOf(c.back)
    requires c.front != null ==> c.front.Valid() && c !in c.front.Sub
    requires c.back != null ==> c.back.Valid() && c !in c.back.Sub
    ensures c.Valid()
  {
  }

  /** The optional node `n` is a well-formed tree standing for `t`; a null link stands for Absent. */
  ghost predicate Stands(n: Node?, t: Tree)
    reads {n} - {null}, SubOf(n)
  {
    if n == null then t == Absent else n.Valid() && n.Model() == t
  }

  /**
   * Links node `c` to the children `f` and `b`, well-formed trees with
   * footprints `fs` and `bs` standing for `tf` and `tb`, and gives it the
   * plane `pl` and polygons `ps`.
   */
  method Join(c: Node, pl: Option<Plane>, ps: seq<Polygon>, f: Node?, b: Node?,
              ghost fs: set<Node>, ghost bs: set<Node>, ghost tf: Tree, ghost tb: Tree)
    requires fs == SubOf(f) && bs == SubOf(b) && fs !! bs && c !in fs && c !in bs
    requires Stands(f, tf) && Stands(b, tb)
    modifies c
    ensures c.Valid() && c.Sub == {c} + fs + bs
    ensures c.Model() == Cell(pl, ps, tf, tb)
  {
    c.plane, c.polygons, c.front, c.back := pl, ps, f, b;
    c.Sub := {c} + fs + bs;
    if f != null {
      Framed(f);
    }
    if b != null {
      Framed(b);
    }
    Adopt(c);
  }

  /** A well-formed node stands for its model, and so do its children for theirs. */
  lemma Unpack(n: Node)
    requires n.Valid()
    ensures n.Sub == {n} + SubOf(n.front) + SubOf(n.back) && SubOf(n.front) !! SubOf(n.back)
    ensures n !in SubOf(n.front) && n !in SubOf(n.back)
    ensures n.Model().Cell? && Stands(n.front, n.Model().front) && Stands(n.back, n.Model().back)
  {
    n.MemberValid(n);
    assert Owns(n);
    if n.front != null {
      n.MemberValid(n.front);
    }
    if n.back != null {
      n.MemberValid(n.back);
    }
  }

  /** clone, of node `n` standing for `t`: a fresh copy of its tree. */
  method CloneOf(n: Node, ghost t: Tree) returns (c: Node)
    requires n.Valid() && n.Model() == t
    ensures fresh(c.Sub) && c.Valid() && c.Model() == t
    decreases n.Sub, 0
  {
    Unpack(n);
    c := CloneParts(n.plane, n.polygons, n.front, n.back, t.front, t.back);
  }

  /**
   * The body of clone for a node with plane `pl`, polygons `ps` and children
   * `fr` and `bk`: clones the front child, then the back child, and links the
   * copies under a new node.
   */
  method CloneParts(pl: Option<Plane>, ps: seq<Polygon>, fr: Node?, bk: Node?, ghost tf: Tree, ghost tb: Tree)
    returns (c: Node)
    requires Stands(fr, tf) && Stands(bk, tb) && SubOf(fr) !! SubOf(bk)
    ensures fresh(c.Sub) && c.Valid() && c.Model() == Cell(pl, ps, tf, tb)
    decreases SubOf(fr) + SubOf(bk), 3
  {
    var f, b, fs, bs := CloneBoth(fr, bk, tf, tb);
    c := new Node();
    ghost var all := {c} + fs + bs;
    assert fresh(all);
    Join(c, pl, ps, f, b, fs, bs, tf, tb);
  }

  /** Clones the front child, then the back child; cloning the back leaves the front copy alone. */
  method CloneBoth(fr: Node?, bk: Node?, ghost tf: Tree, ghost tb: Tree)
    returns (f: Node?, b: Node?, ghost fs: set<Node>, ghost bs: set<Node>)
    requires Stands(fr, tf) && Stands(bk, tb) && SubOf(fr) !! SubOf(bk)
    ensures fresh(fs) && fresh(bs) && fs !! bs && fs == SubOf(f) && bs == SubOf(b)
    ensures Stands(f, tf) && Stands(b, tb)
    decreases SubOf(fr) + SubOf(bk), 2
  {
    f, fs := CloneChild(fr, tf);
    label Fronted:
    if bk != null {
      Framed(bk);
    }
    b, bs := CloneChild(bk, tb);
    assert fresh(bs) && fs !! bs;
    if f != null {
      Framed@Fronted(f);
    }
  }

  /** Clones an optional child `n` standing for `t`; a null child stays null. */
  method CloneChild(n: Node?, ghost t: Tree) returns (f: Node?, ghost fs: set<Node>)
    requires Stands(n, t)
    ensures fresh(fs) && fs == SubOf(f) && Stands(f, t)
    decreases SubOf(n), 1
  {
    f, fs := null, {};
    if n != null {
      f := CloneOf(n, t);
      fs := f.Sub;
    }
  }

  /**
   * Snapshot `f` of the fields is a tree as far as `subs` says: each recorded
   * child is recorded too and has a strictly smaller footprint.
   */
  ghost predicate Tidy(f: map<Node, Fields>, subs: map<Node, set<Node>>) {
    forall n | n in f :: n in subs &&
      (f[n].front != null ==> f[n].front in f && f[n].front in subs && subs[f[n].front] < subs[n]) &&
      (f[n].back != null ==> f[n].back in f && f[n].back in subs && subs[f[n].back] < subs[n])
  }

  /** The tree value the snapshot `f` stands for below `n`. */
  ghost function TreeOf(f: map<Node, Fields>, subs: map<Node, set<Node>>, n: Node): (t: Tree)
    requires Tidy(f, subs) && n in f
    ensures t.Cell? && t.plane == f[n].plane && t.polygons == f[n].polygons
    decreases subs[n]
  {
    Cell(f[n].plane, f[n].polygons,
         if f[n].front == null then Absent else TreeOf(f, subs, f[n].front),
         if f[n].back == null then Absent else TreeOf(f, subs, f[n].back))
  }

  /**
   * When every recorded node has been inverted from `was` to `now`, the tree
   * `now` stands for is the inverse of the tree `was` stands for.
   */
  lemma {:induction false} InvertedTreeOf(was: map<Node, Fields>, now: map<Node, Fields>,
                                          subs: map<Node, set<Node>>, n: Node)
    requires Tidy(was, subs) && Tidy(now, subs) && n in was
    requires forall m | m in was :: m in now && InvertedFields(was[m], now[m])
    ensures InvertTree(TreeOf(was, subs, n)) == Some(TreeOf(now, subs, n))
    decreases subs[n]
  {
    var a, b := was[n], now[n];
    assert InvertedFields(a, b);
    if a.front != null {
      InvertedTreeOf(was, now, subs, a.front);
    }
    if a.back != null {
      InvertedTreeOf(was, now, subs, a.back);
    }
  }

  class Node {
    var polygons: seq<Polygon>
    var plane: Option<Plane>
    var front: Node?
    var back: Node?
    /** The nodes of the subtree rooted here, this node included. */
    ghost var Sub: set<Node>

    /**
     * The subtree is a tree: this node owns its children, whose footprints are
     * strictly smaller, and so on down.
     */
    ghost predicate Valid()
      reads this`Sub, Sub`Sub, Sub`front, Sub`back
    {
      && this in Sub
      && (forall n | n in Sub :: n.Sub <= Sub)
      && (forall n | n in Sub ::
            && (n.front != null ==> n.front in Sub)
            && (n.back != null ==> n.back in Sub)
            && Owns(n))
      && (forall n, m | n in Sub && m in n.Sub :: m.Sub <= n.Sub)
    }

    lemma MemberValid(n: Node)
      requires Valid() && n in Sub
      ensures n.Valid() && n.Sub <= Sub
    {
    }

    /** Snapshot of the footprints of all nodes of the tree. */
    ghost function Subs(): (m: map<Node, set<Node>>)
      reads this`Sub, Sub`Sub
      ensures m.Keys == Sub
    {
      map n | n in Sub :: n.Sub
    }

    /** Snapshot of the children of all nodes of the tree. */
    ghost function KidsOf(): (m: map<Node, seq<Node>>)
      reads this`Sub, Sub`front, Sub`back
      ensures m.Keys == Sub
    {
      map n | n in Sub :: n.Children()
    }

    /** Every node of a well-formed tree is shaped as recorded in the snapshots. */
    lemma Snapshot()
      requires Valid()
      ensures forall n | n in Sub :: Shaped(Subs(), KidsOf(), n)
    {
      forall n | n in Sub
        ensures Shaped(Subs(), KidsOf(), n)
      {
        assert Owns(n);
        assert n.front != null ==> n.front in Sub && Owns(n.front);
        assert n.back != null ==> n.back in Sub && Owns(n.back);
        ShapedAt(n);
      }
    }

    lemma ShapedAt(n: Node)
      requires n in Sub && Owns(n)
      requires n.front != null ==> n.front in Sub && Owns(n.front)
      requires n.back != null ==> n.back in Sub && Owns(n.back)
      ensures Shaped(Subs(), KidsOf(), n)
    {
      var subs, kids := Subs(), KidsOf();
      var f, b := n.front, n.back;
      n.ChildrenShape();
      assert subs[n] == n.Sub && kids[n] == n.Children();
      assert f != null ==> subs[f] == f.Sub;
      assert b != null ==> subs[b] == b.Sub;
      var ks := n.Children();
      if f != null && b != null {
        assert ks == [f, b] && subs[n] == {n} + subs[f] + subs[b];
        assert f in subs[f] && n !in subs[f] && b in subs[b] && n !in subs[b];
        ShapedOf(subs, kids, n, ks);
      } else if f != null {
        assert ks == [f] && subs[n] == {n} + subs[f];
        assert f in subs && ks[0] == f && f in subs[f] && n !in subs[f];
        ShapedOf(subs, kids, n, ks);
      } else if b != null {
        assert ks == [b] && subs[n] == {n} + subs[b];
        assert b in subs && ks[0] == b && b in subs[b] && n !in subs[b];
        ShapedOf(subs, kids, n, ks);
      } else {
        assert ks == [] && subs[n] == {n};
        ShapedOf(subs, kids, n, ks);
      }
    }

    /** The tree value this node currently stands for. */
    ghost function Model(): (t: Tree)
      reads this, Sub
      requires Valid()
      ensures t.Cell? && t.plane == plane && t.polygons == polygons
      ensures t.front.Cell? <==> front != null
      ensures t.back.Cell? <==> back != null
      decreases Sub
    {
      MemberValid(this);
      Cell(plane, polygons,
           if front == null then Absent else (MemberValid(front); front.Model()),
           if back == null then Absent else (MemberValid(back); back.Model()))
    }

    /** The present children, front first: what every traversal enqueues. */
    function Children(): (r: seq<Node>)
      reads this`front, this`back
    {
      (if front != null then [front] else []) + (if back != null then [back] else [])
    }

    lemma ChildrenShape()
      ensures front != null && back != null ==> Children() == [front, back]
      ensures front != null && back == null ==> Children() == [front]
      ensures front == null && back != null ==> Children() == [back]
      ensures front == null && back == null ==> Children() == []
    {
    }

    lemma ChildrenModels()
      requires Valid()
      ensures |Children()| == |Kids(Model())|
      ensures forall i :: 0 <= i < |Children()| ==>
        Children()[i] in Sub && Children()[i].Valid() && Children()[i].Model() == Kids(Model())[i]
    {
      if front != null { MemberValid(front); }
      if back != null { MemberValid(back); }
    }

    /** Node(): a node with no plane, no polygons and no children. */
    constructor ()
      ensures Valid() && Sub == {this}
      ensures polygons == [] && plane == None && front == null && back == null
    {
      polygons := [];
      plane := None;
      front := null;
      back := null;
      Sub := {this};
    }

    /**
     * allPolygons: breadth-first over the tree, appending each node's list; the
     * result holds every node's polygons, each as often as the nodes hold it.
     */
    method AllPolygons() returns (r: seq<Polygon>)
      requires Valid()
      ensures multiset(r) == multiset(Polygons(Model()))
    {
      r := [];
      var nodes := [this];
      ghost var q := [Model()];
      ghost var goal := multiset(Polygons(Model()));
      while |nodes| > 0
        invariant Mirrors(nodes, q)
        invariant multiset(r) + QueuePolygons(q) == goal
        decreases QueueSize(q)
      {
        var cur := nodes[0];
        MirrorsStep(nodes, q);
        Step(q, r);
        r := r + cur.polygons;
        nodes := nodes[1..] + cur.Children();
        q := q[1..] + Kids(q[0]);
      }
    }

    /** Snapshot of the fields of all nodes of the tree. */
    ghost function FieldsMap(): (m: map<Node, Fields>)
      reads this`Sub, Sub
      ensures m.Keys == Sub
      ensures Current(Sub, m)
      ensures forall n | n in Sub :: KidsIn(m[n]) == KidsOf()[n]
    {
      map n | n in Sub :: FieldsOf(n)
    }

    /** The fields snapshot of a well-formed tree is tidy. */
    lemma TidyNow()
      requires Valid()
      ensures Tidy(FieldsMap(), Subs())
    {
      var f, subs := FieldsMap(), Subs();
      forall n | n in f
        ensures n in subs
        ensures f[n].front != null ==> f[n].front in f && f[n].front in subs && subs[f[n].front] < subs[n]
        ensures f[n].back != null ==> f[n].back in f && f[n].back in subs && subs[f[n].back] < subs[n]
      {
        assert Owns(n) && n.front in Sub + {null} && n.back in Sub + {null};
        assert f[n] == FieldsOf(n) && subs[n] == n.Sub;
      }
    }

    /** The tree value of a node of the tree is the one the snapshot stands for. */
    lemma {:induction false} ModelAt(n: Node)
      requires Valid() && n in Sub && Tidy(FieldsMap(), Subs())
      ensures n.Valid() && n.Model() == TreeOf(FieldsMap(), Subs(), n)
      decreases n.Sub
    {
      MemberValid(n);
      if n.front != null {
        MemberValid(n.front);
        ModelAt(n.front);
      }
      if n.back != null {
        MemberValid(n.back);
        ModelAt(n.back);
      }
    }

    /** The tree value has a stuck node exactly when one of the nodes is stuck. */
    lemma StuckIn()
      requires Valid()
      ensures HasStuck(Model()) <==> exists m | m in Sub :: Stuck(m.plane, m.polygons)
      decreases Sub
    {
      if front != null {
        MemberValid(front);
        front.StuckIn();
      }
      if back != null {
        MemberValid(back);
        back.StuckIn();
      }
    }

    /**
     * clone: a fresh copy of the tree. The copy is made top down, each child
     * by its own clone, and shares no node with the original.
     */
    method Clone() returns (c: Node)
      requires Valid()
      ensures fresh(c.Sub) && c.Valid() && c.Model() == Model()
    {
      c := CloneOf(this, Model());
      Framed(this);
    }

    /**
     * invert: visits the nodes breadth first, flipping each node's polygons
     * and plane and swapping its children. A node without a plane first
     * adopts the plane of its first polygon; a node without plane and
     * polygons ends the whole traversal, which is then reported unfinished.
     * The ghost results say where it stopped: exactly the nodes `inverted`
     * changed, each inverted; `pending` is the queue left behind, headed by
     * the stuck node when there is one, and every node not inverted lies in
     * the untouched subtree of a queued node.
     */
    method Invert() returns (finished: bool, ghost inverted: set<Node>, ghost pending: seq<Node>)
      requires Valid()
      modifies Sub`polygons, Sub`plane, Sub`front, Sub`back
      ensures Valid() && Sub == old(Sub)
      ensures finished <==> !HasStuck(old(Model()))
      ensures finished ==> InvertTree(old(Model())) == Some(Model())
      ensures InvertState(inverted, Sub, old(FieldsMap()), FieldsMap())
      ensures StoppedAt(finished, this, inverted, pending, Sub, old(Subs()), old(FieldsMap()))
    {
      ghost var was, subs := FieldsMap(), Subs();
      StuckIn();
      TidyNow();
      ModelAt(this);
      ghost var now;
      finished, now, inverted, pending := InvertRecorded();
      SwapKept(this);
      SubsKept(this);
      NowFields(inverted, was, now);
      if finished {
        assert QueueSubs(pending, subs) == {};
        InvertedEnd(was, subs, now);
      }
    }

    /** The invert walk itself, started from snapshots of the tree. */
    method InvertRecorded() returns (finished: bool, ghost now: map<Node, Fields>, ghost inverted: set<Node>, ghost pending: seq<Node>)
      requires Valid()
      modifies Sub`polygons, Sub`plane, Sub`front, Sub`back
      ensures Sub == old(Sub) && unchanged(Sub`Sub) && KeptOrSwapped(Sub)
      ensures Current(Sub, now) && InvertState(inverted, Sub, old(FieldsMap()), now)
      ensures StoppedAt(finished, this, inverted, pending, Sub, old(Subs()), old(FieldsMap()))
      ensures finished <==> forall n | n in Sub :: !Stuck(old(n.plane), old(n.polygons))
    {
      ghost var was, subs := FieldsMap(), Subs();
      Snapshot();
      assert Prepared(Sub, subs, KidsOf(), was);
      finished, now, inverted, pending := InvertWalk(this, Sub, subs, KidsOf(), was);
      StoppedStuck(finished, this, inverted, pending, Sub, subs, was, now);
      StateSwaps(inverted, Sub, was, now);
    }

    /** The fields recorded in `now` are the current ones. */
    lemma NowFields(inverted: set<Node>, was: map<Node, Fields>, now: map<Node, Fields>)
      requires Current(Sub, now) && InvertState(inverted, Sub, was, now)
      ensures InvertState(inverted, Sub, was, FieldsMap())
    {
    }

    /**
     * After a finished invert, recorded from `was` to `now`, the tree stands
     * for the inverse of the tree value `was` stood for.
     */
    lemma InvertedEnd(was: map<Node, Fields>, subs: map<Node, set<Node>>, now: map<Node, Fields>)
      requires Valid() && subs == Subs() && was.Keys == Sub && Tidy(was, subs) && this in was
      requires Current(Sub, now) && forall n | n in Sub :: InvertedFields(was[n], now[n])
      ensures InvertTree(TreeOf(was, subs, this)) == Some(Model())
    {
      TidyNow();
      ModelAt(this);
      var f := FieldsMap();
      forall m | m in was
        ensures m in f && InvertedFields(was[m], f[m])
      {
        assert f[m] == FieldsOf(m) == now[m];
      }
      InvertedTreeOf(was, f, subs, this);
    }

    /**
     * build: pushes `batch` down the tree, splitting it at every node it
     * reaches. With a sound kernel it finishes, and the tree then stands for
     * the value-level result; nodes are only ever added, and the added ones
     * are new.
     */
    method Build(k: Kernel, batch: seq<Polygon>)
      requires Valid() && Sound(k)
      modifies Sub
      ensures Valid() && old(Sub) <= Sub && fresh(Sub - old(Sub))
      ensures Some(Model()) == BuildTree(k, old(Model()), batch, Size(old(Model())) + |batch| + 1)
      ensures batch == [] ==> Model() == old(Model())
    {
      ghost var fuel := Size(Model()) + |batch| + 1;
      BuildFinishes(k, Model(), batch, fuel);
      BuildAt(k, this, batch, fuel, Model());
    }

    /** Node(polygons): an empty node into which `ps` is built. */
    constructor FromPolygons(k: Kernel, ps: seq<Polygon>)
      requires Sound(k)
      ensures Valid() && fresh(Sub)
      ensures Some(Model()) == BuildTree(k, Cell(None, [], Absent, Absent), ps, |ps| + 2)
    {
      polygons := [];
      plane := None;
      front := null;
      back := null;
      Sub := {this};
      new;
      Build(k, ps);
    }

    /**
     * clipTo: visits every node of this tree and replaces its polygon list by
     * what `other` keeps of it. Only polygon lists change: planes, links and
     * the other tree stay as they are.
     */
    method ClipTo(k: Kernel, other: Node)
      requires Valid() && other.Valid() && Sub !! other.Sub
      modifies Sub`polygons
      ensures Valid() && other.Valid() && other.Model() == old(other.Model())
      ensures forall n | n in Sub ::
        multiset(n.polygons) == multiset(Clip(k, other.Model(), old(n.polygons), true))
    {
      ghost var before := map n | n in Sub :: n.polygons;
      Snapshot();
      ClipWalk(k, other, this, Sub, Subs(), KidsOf(), other.Model(), before);
      ShapeKept(this);
      Framed(other);
    }

    /**
     * clipPolygons: pushes `ps` down this tree breadth-first. A node without a
     * plane keeps what reaches it; otherwise front pieces go to the front child
     * or are kept when there is none, and back pieces go to the back child or
     * are dropped when there is none.
     */
    method ClipPolygons(k: Kernel, ps: seq<Polygon>) returns (r: seq<Polygon>)
      requires Valid()
      ensures multiset(r) == multiset(Clip(k, Model(), ps, true))
      ensures plane.None? ==> r == ps
      ensures plane.Some? && front == null && back == null ==> r == Gather(k, plane.value, ps, ClipFront)
    {
      r := [];
      var nodes: seq<(Node, seq<Polygon>)> := [(this, ps)];
      ghost var q := [Job(Model(), ps)];
      ghost var first := true;
      ghost var goal := multiset(Clip(k, Model(), ps, true));
      ghost var leaf := plane.None? || (front == null && back == null);
      ghost var exact := if plane.None? then ps else Gather(k, plane.value, ps, ClipFront);
      assert QueueClip(k, q) == goal;
      while |nodes| > 0
        invariant MirrorsJobs(nodes, q)
        invariant multiset(r) + QueueClip(k, q) == goal
        invariant first ==> r == [] && nodes == [(this, ps)]
        invariant !first && leaf ==> nodes == [] && r == exact
        decreases JobsSize(q)
      {
        nodes, r, q := ClipStep(k, nodes, r, q);
        first := false;
      }
    }
  }

  /**
   * One turn of the clipPolygons loop: dequeue a (node, batch) pair; a node
   * without a plane keeps the batch; otherwise the batch is split, front pieces
   * are enqueued for the front child (or kept without one) and back pieces for
   * the back child (or dropped without one).
   */
  method ClipStep(k: Kernel, nodes: seq<(Node, seq<Polygon>)>, r: seq<Polygon>, ghost q: seq<Job>)
    returns (nodes': seq<(Node, seq<Polygon>)>, r': seq<Polygon>, ghost q': seq<Job>)
    requires nodes != [] && MirrorsJobs(nodes, q)
    ensures MirrorsJobs(nodes', q')
    ensures multiset(r') + QueueClip(k, q') == multiset(r) + QueueClip(k, q)
    ensures JobsSize(q') < JobsSize(q)
    ensures nodes[0].0.plane.None? ==> nodes' == nodes[1..] && r' == r + nodes[0].1
    ensures nodes[0].0.plane.Some? && nodes[0].0.front == null && nodes[0].0.back == null ==>
      nodes' == nodes[1..] && r' == r + Gather(k, nodes[0].0.plane.value, nodes[0].1, ClipFront)
  {
    var cur, batch := nodes[0].0, nodes[0].1;
    if cur.plane.None? {
      MirrorsJobsStep(nodes, q, [], []);
      assert QueueClip(k, q) == multiset(batch) + QueueClip(k, q[1..]);
      nodes', r', q' := nodes[1..], r + batch, q[1..];
      return;
    }
    nodes', r', q' := ClipSplit(k, nodes, r, q);
  }

  /**
   * The turn of the clipPolygons loop at a node with a plane: split the batch,
   * pass front pieces to the front child (or keep them) and back pieces to the
   * back child (or drop them).
   */
  method ClipSplit(k: Kernel, nodes: seq<(Node, seq<Polygon>)>, r: seq<Polygon>, ghost q: seq<Job>)
    returns (nodes': seq<(Node, seq<Polygon>)>, r': seq<Polygon>, ghost q': seq<Job>)
    requires nodes != [] && MirrorsJobs(nodes, q) && nodes[0].0.plane.Some?
    ensures MirrorsJobs(nodes', q')
    ensures multiset(r') + QueueClip(k, q') == multiset(r) + QueueClip(k, q)
    ensures JobsSize(q') < JobsSize(q)
    ensures nodes[0].0.front == null && nodes[0].0.back == null ==>
      nodes' == nodes[1..] && r' == r + Gather(k, nodes[0].0.plane.value, nodes[0].1, ClipFront)
  {
    var cur, batch := nodes[0].0, nodes[0].1;
    var pl := cur.plane.value;
    var fs, bs := SplitBatch(k, pl, batch);
    nodes', r' := nodes[1..], r;
    if cur.front != null {
      nodes' := nodes' + [(cur.front, fs)];
    } else {
      r' := r' + fs;
    }
    if cur.back != null {
      nodes' := nodes' + [(cur.back, bs)];
    }
    assert nodes' == nodes[1..] + ChildJobs(cur, fs, bs);
    MirrorsJobsStep(nodes, q, fs, bs);
    q' := q[1..] + NextJobs(q[0].tree, fs, bs);
    ClipTurn(k, q, r, r', fs, bs);
  }
  /**
   * The clipTo traversal: visits every node of the tree `all` rooted at
   * `root`, breadth first, and clips its polygon list against `other`.
   */
  method ClipWalk(k: Kernel, other: Node, root: Node, ghost all: set<Node>, ghost subs: map<Node, set<Node>>,
                  ghost kids: map<Node, seq<Node>>, ghost target: Tree, ghost before: map<Node, seq<Polygon>>)
    requires root in all && root in subs && subs[root] == all
    requires forall n | n in all :: Shaped(subs, kids, n) && n.Children() == kids[n]
    requires other.Valid() && other.Model() == target && all !! other.Sub
    requires Holds(all, before)
    modifies all`polygons
    ensures forall n | n in all :: n in before && multiset(n.polygons) == multiset(Clip(k, target, before[n], true))
  {
    var nodes := [root];
    ghost var done: set<Node> := {};
    ghost var polys := before;
    FrontierStart(root, all, subs);
    while |nodes| > 0
      invariant other.Valid() && other.Model() == target
      invariant Frontier(nodes, done, all, subs)
      invariant Holds(all, polys)
      invariant Clipped(k, target, done, all, before, polys)
      decreases all - done
    {
      FrontierHead(nodes, done, all, subs);
      nodes, done, polys := Visit(k, other, nodes, nodes[0], target, all, subs, kids, done, before, polys);
    }
  }

  /**
   * One turn of the clipTo loop: dequeues `cur`, queues its children and
   * replaces its polygon list by what `other` keeps of it.
   */
  method Visit(k: Kernel, other: Node, nodes: seq<Node>, cur: Node, ghost target: Tree, ghost all: set<Node>,
               ghost subs: map<Node, set<Node>>, ghost kids: map<Node, seq<Node>>, ghost done: set<Node>,
               ghost before: map<Node, seq<Polygon>>, ghost polys: map<Node, seq<Polygon>>)
    returns (nodes': seq<Node>, ghost done': set<Node>, ghost polys': map<Node, seq<Polygon>>)
    requires nodes != [] && cur == nodes[0] && cur in all && cur !in done
    requires Frontier(nodes, done, all, subs) && Shaped(subs, kids, cur) && cur.Children() == kids[cur]
    requires other.Valid() && other.Model() == target && cur !in other.Sub
    requires Holds(all, polys) && Clipped(k, target, done, all, before, polys)
    modifies cur`polygons
    ensures other.Valid() && other.Model() == target
    ensures Frontier(nodes', done', all, subs) && done' == done + {cur}
    ensures Holds(all, polys') && Clipped(k, target, done', all, before, polys')
  {
    FrontierStep(nodes, done, all, subs, kids);
    nodes' := nodes[1..] + cur.Children();
    ClipNode(k, other, cur, target);
    Framed(other);
    polys' := polys[cur := cur.polygons];
    done' := done + {cur};
  }

  /**
   * One turn of the clipTo loop: replaces the polygon list of `cur` by what
   * `other` keeps of it.
   */
  method ClipNode(k: Kernel, other: Node, cur: Node, ghost target: Tree)
    requires other.Valid() && other.Model() == target && cur !in other.Sub
    modifies cur`polygons
    ensures multiset(cur.polygons) == multiset(Clip(k, target, old(cur.polygons), true))
  {
    var kept := other.ClipPolygons(k, cur.polygons);
    cur.polygons := kept;
  }

  /**
   * The invert traversal over the tree `all` rooted at `root`: inverts node
   * after node, breadth first, and stops at the first stuck node.
   */
  method InvertWalk(root: Node, ghost all: set<Node>, ghost subs: map<Node, set<Node>>,
                    ghost kids: map<Node, seq<Node>>, ghost was: map<Node, Fields>)
    returns (finished: bool, ghost now: map<Node, Fields>, ghost inverted: set<Node>, ghost pending: seq<Node>)
    requires root in all && root in subs && subs[root] == all
    requires Prepared(all, subs, kids, was)
    requires Current(all, was)
    modifies all`polygons, all`plane, all`front, all`back
    ensures Current(all, now)
    ensures InvertState(inverted, all, was, now)
    ensures StoppedAt(finished, root, inverted, pending, all, subs, was)
    ensures unchanged(all`Sub)
  {
    var nodes := [root];
    ghost var done: set<Node> := {};
    now := was;
    FrontierStart(root, all, subs);
    while |nodes| > 0
      invariant Frontier(nodes, done, all, subs)
      invariant Current(all, now)
      invariant InvertState(done, all, was, now)
      invariant root in done || (done == {} && nodes == [root])
      decreases all - done
    {
      FrontierHead(nodes, done, all, subs);
      var ok;
      ghost var queued, visited := nodes, done;
      nodes, ok, done, now := InvertVisit(nodes, nodes[0], all, subs, kids, done, was, now);
      if !ok {
        return false, now, visited, queued;
      }
    }
    return true, now, done, nodes;
  }

  /**
   * One turn of the invert loop: dequeues `cur`, inverts it and queues its
   * original children; reports `false` when `cur` is stuck.
   */
  method InvertVisit(nodes: seq<Node>, cur: Node, ghost all: set<Node>, ghost subs: map<Node, set<Node>>,
                     ghost kids: map<Node, seq<Node>>, ghost done: set<Node>,
                     ghost was: map<Node, Fields>, ghost now: map<Node, Fields>)
    returns (nodes': seq<Node>, ok: bool, ghost done': set<Node>, ghost now': map<Node, Fields>)
    requires nodes != [] && cur == nodes[0] && cur in all && cur !in done
    requires Frontier(nodes, done, all, subs) && Shaped(subs, kids, cur)
    requires cur in was && kids[cur] == KidsIn(was[cur])
    requires Current(all, now) && InvertState(done, all, was, now)
    modifies cur`polygons, cur`plane, cur`front, cur`back
    ensures Current(all, now')
    ensures ok ==> Frontier(nodes', done', all, subs) && done' == done + {cur} && InvertState(done', all, was, now')
    ensures !ok ==> Stuck(was[cur].plane, was[cur].polygons) && now' == now
  {
    FrontierStep(nodes, done, all, subs, kids);
    nodes' := nodes[1..] + cur.Children();
    ok := InvertNode(cur);
    now' := now[cur := FieldsOf(cur)];
    done' := done + {cur};
  }

  /**
   * Inverts one node: flips its polygons; without a plane it adopts the plane
   * of its first polygon, or gives up when it has no polygons; then flips the
   * plane and swaps the children.
   */
  method InvertNode(cur: Node) returns (ok: bool)
    modifies cur`polygons, cur`plane, cur`front, cur`back
    ensures ok == !Stuck(old(cur.plane), old(cur.polygons))
    ensures ok ==> InvertedFields(old(FieldsOf(cur)), FieldsOf(cur))
    ensures !ok ==> FieldsOf(cur) == old(FieldsOf(cur))
  {
    cur.polygons := FlipAll(cur.polygons);
    if cur.plane.None? {
      if cur.polygons == [] {
        return false;
      }
      cur.plane := Some(cur.polygons[0].plane);
    }
    cur.plane := Some(FlipPlane(cur.plane.value));
    cur.front, cur.back := cur.back, cur.front;
    return true;
  }

  /**
   * The inner loop of build: every polygon of `ps` is split by `pl`; coplanar
   * pieces go straight onto the node's own list, front and back pieces are
   * collected for the children.
   */
  method SplitInto(k: Kernel, n: Node, pl: Plane, ps: seq<Polygon>) returns (fs: seq<Polygon>, bs: seq<Polygon>)
    modifies n`polygons
    ensures n.polygons == old(n.polygons) + Gather(k, pl, ps, Coplanar)
    ensures fs == Gather(k, pl, ps, FrontOnly)
    ensures bs == Gather(k, pl, ps, BackOnly)
  {
    ghost var base := n.polygons;
    fs, bs := [], [];
    for i := 0 to |ps|
      invariant n.polygons == base + Gather(k, pl, ps[..i], Coplanar)
      invariant fs == Gather(k, pl, ps[..i], FrontOnly)
      invariant bs == Gather(k, pl, ps[..i], BackOnly)
    {
      var s := k.split(pl, ps[i]);
      var cp := s.coplanarFront + s.coplanarBack;
      GatherSnoc(k, pl, ps[..i], ps[i], Coplanar);
      GatherSnoc(k, pl, ps[..i], ps[i], FrontOnly);
      GatherSnoc(k, pl, ps[..i], ps[i], BackOnly);
      assert ps[..i + 1] == ps[..i] + [ps[i]];
      assert base + Gather(k, pl, ps[..i + 1], Coplanar) == n.polygons + cp;
      n.polygons := n.polygons + cp;
      fs := fs + s.front;
      bs := bs + s.back;
    }
    assert ps[..|ps|] == ps;
  }

  /**
   * Node `n` hangs over its children: it owns them, they are well-formed and
   * stand for `tf` and `tb`, and a missing child stands for Absent.
   */
  ghost predicate Hangs(n: Node, tf: Tree, tb: Tree)
    reads n, {n.front, n.back} - {null}, SubOf(n.front), SubOf(n.back)
  {
    && n.Sub == {n} + SubOf(n.front) + SubOf(n.back) && SubOf(n.front) !! SubOf(n.back)
    && n !in SubOf(n.front) && n !in SubOf(n.back)
    && Stands(n.front, tf) && Stands(n.back, tb)
  }

  /**
   * What build does at node `n`, standing for `t`, with a non-empty batch: a
   * planeless node adopts the plane of the batch's first polygon, the batch
   * loses its invalid polygons and repeats, and is split. The children are
   * left alone.
   */
  method NodeStep(k: Kernel, n: Node, batch: seq<Polygon>, ghost t: Tree, ghost s: Parts) returns (fs: seq<Polygon>, bs: seq<Polygon>)
    requires batch != [] && t.Cell? && t.plane == n.plane && t.polygons == n.polygons && s == Split(k, t, batch)
    requires Hangs(n, t.front, t.back)
    modifies n`plane, n`polygons
    ensures n.plane == Some(s.plane) && n.polygons == t.polygons + s.coplanar
    ensures fs == s.front && bs == s.back
    ensures Hangs(n, t.front, t.back)
  {
    if n.plane.None? {
      n.plane := Some(batch[0].plane);
    }
    var ps := Cleaned(k, batch);
    fs, bs := SplitInto(k, n, n.plane.value, ps);
    if n.front != null {
      Framed(n.front);
    }
    if n.back != null {
      Framed(n.back);
    }
  }

  /**
   * build, pushing `batch` into node `n` standing for `t`: the node ends up
   * standing for the value-level result, and every node it gained is new.
   */
  method BuildAt(k: Kernel, n: Node, batch: seq<Polygon>, ghost fuel: nat, ghost t: Tree)
    requires n.Valid() && n.Model() == t && BuildTree(k, t, batch, fuel).Some?
    modifies n.Sub
    ensures n.Valid() && n.Model() == BuildTree(k, t, batch, fuel).value
    ensures old(n.Sub) <= n.Sub && fresh(n.Sub - old(n.Sub))
    decreases fuel, 1
  {
    if batch == [] {
      return;
    }
    Unpack(n);
    BuildNodeAt(k, n, batch, fuel, t);
  }

  /** One node's share of build, with a non-empty batch, given the node's shape one level down. */
  method BuildNodeAt(k: Kernel, n: Node, batch: seq<Polygon>, ghost fuel: nat, ghost t: Tree)
    requires batch != [] && t.Cell? && t.plane == n.plane && t.polygons == n.polygons
    requires Hangs(n, t.front, t.back)
    requires BuildTree(k, t, batch, fuel).Some?
    modifies n, SubOf(n.front), SubOf(n.back)
    ensures n.Valid() && n.Model() == BuildTree(k, t, batch, fuel).value
    ensures old(n.Sub) <= n.Sub && fresh(n.Sub - old(n.Sub))
    decreases fuel, 0
  {
    BuildUnfold(k, t, batch, fuel);
    ghost var s := Split(k, t, batch);
    ghost var rf, rb := BuildTree(k, t.front, s.front, fuel - 1).value, BuildTree(k, t.back, s.back, fuel - 1).value;
    assert BuildTree(k, t, batch, fuel).value == Cell(Some(s.plane), t.polygons + s.coplanar, rf, rb);
    var fs, bs := NodeStep(k, n, batch, t, s);
    BuildKids(k, n, fs, bs, fuel - 1, t.front, t.back, rf, rb);
  }

  /**
   * The children step of build: the front and back pieces go down to the
   * children, created when missing and only for a non-empty batch, and the
   * node is linked to the results.
   */
  method BuildKids(k: Kernel, n: Node, fs: seq<Polygon>, bs: seq<Polygon>, ghost fuel: nat,
                   ghost tf: Tree, ghost tb: Tree, ghost rf: Tree, ghost rb: Tree)
    requires Hangs(n, tf, tb)
    requires BuildTree(k, tf, fs, fuel) == Some(rf) && BuildTree(k, tb, bs, fuel) == Some(rb)
    modifies n, SubOf(n.front), SubOf(n.back)
    ensures n.Valid() && old(n.Sub) <= n.Sub && fresh(n.Sub - old(n.Sub))
    ensures n.Model() == Cell(old(n.plane), old(n.polygons), rf, rb)
    decreases fuel, 4
  {
    var pl, own := n.plane, n.polygons;
    ghost var f0, b0 := SubOf(n.front), SubOf(n.back);
    var f, b, f1, b1 := BuildBoth(k, n.front, n.back, fs, bs, fuel, tf, tb, rf, rb);
    Join(n, pl, own, f, b, f1, b1, rf, rb);
    assert n.Sub - old(n.Sub) <= (f1 - f0) + (b1 - b0);
  }

  /** Builds both children in turn; the second build leaves the first child's subtree alone. */
  method BuildBoth(k: Kernel, fr: Node?, bk: Node?, fs: seq<Polygon>, bs: seq<Polygon>, ghost fuel: nat,
                   ghost tf: Tree, ghost tb: Tree, ghost rf: Tree, ghost rb: Tree)
    returns (f: Node?, b: Node?, ghost f1: set<Node>, ghost b1: set<Node>)
    requires Stands(fr, tf) && Stands(bk, tb) && SubOf(fr) !! SubOf(bk)
    requires BuildTree(k, tf, fs, fuel) == Some(rf) && BuildTree(k, tb, bs, fuel) == Some(rb)
    modifies SubOf(fr), SubOf(bk)
    ensures f1 == SubOf(f) && b1 == SubOf(b) && f1 !! b1
    ensures old(SubOf(fr)) <= f1 && old(SubOf(bk)) <= b1
    ensures fresh(f1 - old(SubOf(fr))) && fresh(b1 - old(SubOf(bk)))
    ensures Stands(f, rf) && Stands(b, rb)
    decreases fuel, 3
  {
    ghost var f0, b0 := SubOf(fr), SubOf(bk);
    f := BuildChild(k, fr, fs, fuel, tf, rf);
    f1 := SubOf(f);
    assert fresh(f1 - f0) && f1 !! b0;
    label Fronted:
    if bk != null {
      Framed(bk);
    }
    b := BuildChild(k, bk, bs, fuel, tb, rb);
    b1 := SubOf(b);
    assert fresh(b1 - b0);
    if f != null {
      Framed@Fronted(f);
    }
  }

  /**
   * Pushes `batch` into the optional child `c` standing for `t`: a missing
   * child is created only when the batch is non-empty, an existing one is
   * reused.
   */
  method BuildChild(k: Kernel, c: Node?, batch: seq<Polygon>, ghost fuel: nat, ghost t: Tree, ghost r: Tree)
    returns (n: Node?)
    requires Stands(c, t) && BuildTree(k, t, batch, fuel) == Some(r)
    modifies SubOf(c)
    ensures c != null ==> n == c
    ensures n == null <==> c == null && batch == []
    ensures Stands(n, r)
    ensures old(SubOf(c)) <= SubOf(n) && fresh(SubOf(n) - old(SubOf(c)))
    decreases fuel, 2
  {
    n := c;
    if batch == [] {
      return;
    }
    if n == null {
      n := new Node();
      BuildFresh(k, batch, fuel);
    }
    BuildAt(k, n, batch, fuel, n.Model());
  }
}
