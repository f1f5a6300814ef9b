/**
 * Value-level meaning of Node.build: a batch of polygons is filtered down an
 * existing tree. Every node the batch reaches keeps its plane (or adopts the
 * plane of the batch's first polygon), keeps its own polygons and appends the
 * coplanar pieces, and passes the front and back pieces on to its children,
 * creating a child only for a non-empty batch.
 */
module BuildSpec {
  import opened Wrappers
  import opened Geometry
  import opened BspSpec

  /** The polygons of `ps` that the kernel accepts, in order. */
  function Valids(k: Kernel, ps: seq<Polygon>): (r: seq<Polygon>)
    ensures |r| <= |ps|
  {
    if ps == [] then [] else (if k.isValid(ps[0]) then [ps[0]] else []) + Valids(k, ps[1..])
  }

  /** Valids keeps exactly the polygons the kernel accepts. */
  lemma {:induction false} ValidsSpec(k: Kernel, ps: seq<Polygon>)
    ensures forall p :: p in Valids(k, ps) <==> p in ps && k.isValid(p)
  {
    if ps != [] {
      ValidsSpec(k, ps[1..]);
      assert ps == [ps[0]] + ps[1..];
    }
  }

  /** `ps` without the polygons of `seen` and without repeats, first occurrences kept in order. */
  function Dedup(ps: seq<Polygon>, seen: set<Polygon>): seq<Polygon> {
    if ps == [] then []
    else if ps[0] in seen then Dedup(ps[1..], seen)
    else [ps[0]] + Dedup(ps[1..], seen + {ps[0]})
  }

  /** Stream.distinct: the first occurrence of every polygon, in order. */
  function Distinct(ps: seq<Polygon>): seq<Polygon> {
    Dedup(ps, {})
  }

  /** No polygon occurs twice. */
  predicate NoRepeats(ps: seq<Polygon>) {
    forall i, j :: 0 <= i < j < |ps| ==> ps[i] != ps[j]
  }

  lemma {:induction false} DedupSpec(ps: seq<Polygon>, seen: set<Polygon>)
    ensures var r := Dedup(ps, seen);
      && NoRepeats(r) && |r| <= |ps|
      && (forall p :: p in r <==> p in ps && p !in seen)
      && (ps != [] && ps[0] !in seen ==> r != [] && r[0] == ps[0])
  {
    if ps != [] {
      DedupSpec(ps[1..], if ps[0] in seen then seen else seen + {ps[0]});
      var r := Dedup(ps, seen);
      if ps[0] !in seen {
        var tail := Dedup(ps[1..], seen + {ps[0]});
        assert r == [ps[0]] + tail;
        forall i, j | 0 <= i < j < |r|
          ensures r[i] != r[j]
        {
          if i == 0 {
            assert r[j] == tail[j - 1] && r[j] in tail;
          } else {
            assert r[i] == tail[i - 1] && r[j] == tail[j - 1];
          }
        }
      }
    }
  }

  /**
   * Distinct keeps exactly the polygons of its input, each once, and never
   * drops the first one.
   */
  lemma DistinctSpec(ps: seq<Polygon>)
    ensures NoRepeats(Distinct(ps)) && |Distinct(ps)| <= |ps|
    ensures forall p :: p in Distinct(ps) <==> p in ps
    ensures ps != [] ==> Distinct(ps) != [] && Distinct(ps)[0] == ps[0]
  {
    DedupSpec(ps, {});
  }

  /** What a node splits in build: the valid polygons of its batch, duplicates dropped. */
  function Cleaned(k: Kernel, batch: seq<Polygon>): seq<Polygon> {
    Distinct(Valids(k, batch))
  }

  /** The plane a node splits with: its own, or else that of the batch's first polygon. */
  function SplitPlane(t: Tree, batch: seq<Polygon>): Plane
    requires batch != []
  {
    if t.Cell? && t.plane.Some? then t.plane.value else batch[0].plane
  }

  function Own(t: Tree): seq<Polygon> {
    if t.Cell? then t.polygons else []
  }

  function Front(t: Tree): Tree {
    if t.Cell? then t.front else Absent
  }

  function Back(t: Tree): Tree {
    if t.Cell? then t.back else Absent
  }

  /** What a node does with a non-empty batch: its plane and the three outputs of the split. */
  datatype Parts = Parts(plane: Plane, coplanar: seq<Polygon>, front: seq<Polygon>, back: seq<Polygon>)

  function Split(k: Kernel, t: Tree, batch: seq<Polygon>): Parts
    requires batch != []
  {
    var pl := SplitPlane(t, batch);
    var ps := Cleaned(k, batch);
    Parts(pl, Gather(k, pl, ps, Coplanar), Gather(k, pl, ps, FrontOnly), Gather(k, pl, ps, BackOnly))
  }

  /**
   * build on values: pushes `batch` into `t` (Absent stands for a node still
   * to be created). `fuel` bounds the depth; None means it ran out.
   */
  function BuildTree(k: Kernel, t: Tree, batch: seq<Polygon>, fuel: nat): Option<Tree>
    decreases fuel, 0
  {
    if batch == [] then Some(t)
    else if fuel == 0 then None
    else BuildCell(k, t, Split(k, t, batch), fuel - 1)
  }

  /** The node `t` after a split into `s`, with its children built from the pieces. */
  function BuildCell(k: Kernel, t: Tree, s: Parts, fuel: nat): Option<Tree>
    decreases fuel, 1
  {
    var f := BuildTree(k, Front(t), s.front, fuel);
    var b := BuildTree(k, Back(t), s.back, fuel);
    if f.None? || b.None? then None
    else Some(Cell(Some(s.plane), Own(t) + s.coplanar, f.value, b.value))
  }

  /** One level of build on a present node, with the children's results named. */
  lemma BuildUnfold(k: Kernel, t: Tree, batch: seq<Polygon>, fuel: nat)
    requires t.Cell? && batch != [] && BuildTree(k, t, batch, fuel).Some?
    ensures var s := Split(k, t, batch);
      && fuel > 0
      && BuildTree(k, t.front, s.front, fuel - 1).Some?
      && BuildTree(k, t.back, s.back, fuel - 1).Some?
      && BuildTree(k, t, batch, fuel).value
         == Cell(Some(s.plane), t.polygons + s.coplanar,
                 BuildTree(k, t.front, s.front, fuel - 1).value, BuildTree(k, t.back, s.back, fuel - 1).value)
  {
  }

  /**
   * A missing child and a fresh empty node take a batch the same way: build
   * creates the node and then pushes the batch into it.
   */
  lemma BuildFresh(k: Kernel, batch: seq<Polygon>, fuel: nat)
    requires batch != []
    ensures BuildTree(k, Absent, batch, fuel) == BuildTree(k, Cell(None, [], Absent, Absent), batch, fuel)
  {
    assert Split(k, Absent, batch) == Split(k, Cell(None, [], Absent, Absent), batch);
  }

  /**
   * What one node of the result holds: an empty batch leaves the tree as it
   * is; otherwise the node has the plane it split with (its own, or else the
   * plane of the batch's first polygon), its old polygons followed by the
   * coplanar pieces, and a child exactly where it had one or where pieces
   * were sent.
   */
  lemma BuildNode(k: Kernel, t: Tree, batch: seq<Polygon>, fuel: nat)
    requires BuildTree(k, t, batch, fuel).Some? && batch != []
    ensures var r, s := BuildTree(k, t, batch, fuel).value, Split(k, t, batch);
      && r.Cell?
      && r.plane == (if t.Cell? && t.plane.Some? then t.plane else Some(batch[0].plane))
      && r.polygons == Own(t) + s.coplanar
      && (r.front.Cell? <==> Front(t).Cell? || s.front != [])
      && (r.back.Cell? <==> Back(t).Cell? || s.back != [])
  {
    var s := Split(k, t, batch);
    BuildKeepsCells(k, Front(t), s.front, fuel - 1);
    BuildKeepsCells(k, Back(t), s.back, fuel - 1);
    if t.Absent? {
      assert s.plane == batch[0].plane;
    } else if t.plane.None? {
      assert s.plane == batch[0].plane;
    } else {
      assert s.plane == t.plane.value;
    }
  }

  /** A non-empty batch always yields a node; an empty one leaves Absent absent. */
  lemma BuildKeepsCells(k: Kernel, t: Tree, batch: seq<Polygon>, fuel: nat)
    requires BuildTree(k, t, batch, fuel).Some?
    ensures BuildTree(k, t, batch, fuel).value.Cell? <==> t.Cell? || batch != []
  {
  }

  /**
   * `r` extends `t`: every node of `t` is still there with its plane, if it had
   * one, and with its polygons as a prefix of the new list.
   */
  predicate Extends(t: Tree, r: Tree) {
    t.Absent? ||
    (&& r.Cell?
     && (t.plane.Some? ==> r.plane == t.plane)
     && t.polygons <= r.polygons
     && Extends(t.front, r.front)
     && Extends(t.back, r.back))
  }

  /** build only adds: existing nodes, planes and polygons are kept. */
  lemma {:induction false} BuildExtends(k: Kernel, t: Tree, batch: seq<Polygon>, fuel: nat)
    requires BuildTree(k, t, batch, fuel).Some?
    ensures Extends(t, BuildTree(k, t, batch, fuel).value)
    ensures Size(t) <= Size(BuildTree(k, t, batch, fuel).value)
    decreases fuel
  {
    var r := BuildTree(k, t, batch, fuel).value;
    if batch == [] {
      ExtendsRefl(t);
    } else {
      var s := Split(k, t, batch);
      BuildExtends(k, Front(t), s.front, fuel - 1);
      BuildExtends(k, Back(t), s.back, fuel - 1);
    }
  }

  lemma {:induction false} ExtendsRefl(t: Tree)
    ensures Extends(t, t)
  {
    if t.Cell? {
      ExtendsRefl(t.front);
      ExtendsRefl(t.back);
    }
  }

  /** Each polygon leaves a split as at most one front piece (and at most one back piece). */
  lemma {:induction false} GatherShort(k: Kernel, pl: Plane, ps: seq<Polygon>)
    requires Sound(k)
    ensures |Gather(k, pl, ps, FrontOnly)| <= |ps| && |Gather(k, pl, ps, BackOnly)| <= |ps|
  {
    if ps != [] {
      assert RoutesAt(k, pl, ps[0]);
      GatherShort(k, pl, ps[1..]);
    }
  }

  /**
   * A node that adopts its plane from the batch sends at least one polygon
   * fewer to each child than the batch holds: the first polygon is either
   * dropped as invalid or is coplanar with its own plane.
   */
  lemma AdoptShrinks(k: Kernel, batch: seq<Polygon>)
    requires Sound(k) && batch != []
    ensures var ps := Cleaned(k, batch);
      && |Gather(k, batch[0].plane, ps, FrontOnly)| < |batch|
      && |Gather(k, batch[0].plane, ps, BackOnly)| < |batch|
  {
    var pl, vs := batch[0].plane, Valids(k, batch);
    var ps := Distinct(vs);
    DistinctSpec(vs);
    if k.isValid(batch[0]) {
      assert vs == [batch[0]] + Valids(k, batch[1..]);
      assert ps[0] == batch[0];
      assert OwnPlane(k, ps[0]);
      GatherShort(k, pl, ps[1..]);
      assert Gather(k, pl, ps, FrontOnly) == Gather(k, pl, ps[1..], FrontOnly);
      assert Gather(k, pl, ps, BackOnly) == Gather(k, pl, ps[1..], BackOnly);
    } else {
      assert vs == Valids(k, batch[1..]);
      GatherShort(k, pl, ps);
    }
  }

  /**
   * With a sound kernel each child gets at most as many polygons as the
   * batch holds, and fewer when the node adopts its plane from the batch.
   */
  lemma SplitShrinks(k: Kernel, t: Tree, batch: seq<Polygon>)
    requires Sound(k) && batch != []
    ensures var s := Split(k, t, batch);
      && |s.front| <= |batch| && |s.back| <= |batch|
      && (t.Absent? || t.plane.None? ==> |s.front| < |batch| && |s.back| < |batch|)
  {
    if t.Cell? && t.plane.Some? {
      var vs := Valids(k, batch);
      DistinctSpec(vs);
      GatherShort(k, t.plane.value, Distinct(vs));
    } else {
      AdoptShrinks(k, batch);
    }
  }

  /** With a sound kernel the tree size plus the batch length drops from a node to its children. */
  lemma Measure(k: Kernel, t: Tree, batch: seq<Polygon>)
    requires Sound(k) && batch != []
    ensures Size(Front(t)) + |Split(k, t, batch).front| < Size(t) + |batch|
    ensures Size(Back(t)) + |Split(k, t, batch).back| < Size(t) + |batch|
  {
    SplitShrinks(k, t, batch);
  }

  /** A node's build succeeds when both of its children's builds do. */
  lemma BuildStep(k: Kernel, t: Tree, batch: seq<Polygon>, fuel: nat)
    requires batch != [] && fuel > 0
    requires BuildTree(k, Front(t), Split(k, t, batch).front, fuel - 1).Some?
    requires BuildTree(k, Back(t), Split(k, t, batch).back, fuel - 1).Some?
    ensures BuildTree(k, t, batch, fuel).Some?
  {
  }

  /**
   * With a sound kernel build always finishes: fuel of the tree's size plus
   * the batch's length is enough.
   */
  lemma {:induction false} BuildFinishes(k: Kernel, t: Tree, batch: seq<Polygon>, fuel: nat)
    requires Sound(k) && fuel > Size(t) + |batch|
    ensures BuildTree(k, t, batch, fuel).Some?
    decreases fuel
  {
    if batch != [] {
      var s := Split(k, t, batch);
      Measure(k, t, batch);
      BuildFinishes(k, Front(t), s.front, fuel - 1);
      BuildFinishes(k, Back(t), s.back, fuel - 1);
      BuildStep(k, t, batch, fuel);
    }
  }

  /** Fuel only bounds the depth: once build finishes, more fuel gives the same tree. */
  lemma {:induction false} BuildFuel(k: Kernel, t: Tree, batch: seq<Polygon>, fuel: nat, more: nat)
    requires BuildTree(k, t, batch, fuel).Some? && fuel <= more
    ensures BuildTree(k, t, batch, more) == BuildTree(k, t, batch, fuel)
    decreases fuel
  {
    if batch != [] {
      var s := Split(k, t, batch);
      BuildFuel(k, Front(t), s.front, fuel - 1, more - 1);
      BuildFuel(k, Back(t), s.back, fuel - 1, more - 1);
    }
  }
}
