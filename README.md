# java-csg: the BSP node and the polygon-cut playground, in Dafny

This project models two parts of java-csg, a Java library for constructive
solid geometry.

**The BSP tree, `Node`.** CSG union, subtraction and intersection are built
from a few operations on a binary space partitioning tree. A `Node` holds:
- a splitting plane;
- the polygons lying in that plane;
- a front child and a back child.

The operations are:
- `build`: pushes polygons down the tree, creating nodes as needed;
- `clipPolygons`: removes the parts of a polygon list that lie inside the solid;
- `clipTo`: clips every node's list by another tree;
- `invert`: swaps solid and empty space;
- `allPolygons`: flattens the tree;
- `clone`: deep-copies it.

**The playground.** `playground/Main.java` is an experimental polygon
classifier and cutter:
- where a line meets a plane (`computePlaneIntersection`);
- how a polygon is classified against a solid from the nearest ray hit (`classifyPolygon`);
- how a polygon is cut along a plane once every vertex has been typed as
  front (1), back (-1) or on the plane (0) (`cutPolygonWithPlaneAndTypes`,
  `cutPolygonWithPlaneIf`);
- how one polygon list is split by the planes of another (`splitPolygons`).

## Files

- `wrappers.dfy`: `Option` and `Result`.
- `geometry.dfy`: vectors, planes with a signed distance, and the
  three-way `Compare` under a tolerance. It also has vertices and polygons, and
  polygon flipping (reverse the vertices, negate the normals and the plane),
  which is an involution.
- `bsp_spec.dfy`: the BSP tree as a value (`Tree`) and what the node operations
  mean on it:
  - `Clip` and `Polygons`;
  - `InvertTree`, with its involution and defined-ness lemmas;
  - the queue measures used to prove the worklist loops.

  The polygon operations the tree calls (`Plane.splitPolygon`,
  `Polygon.isValid`) are a `Kernel` parameter. `Sound(k)` states what
  `splitPolygon` promises about its four output lists.
- `build_spec.dfy`: `build` on values (`BuildTree`). Termination is bounded by
  fuel; `BuildFinishes` proves that enough fuel always suffices, and
  `BuildFuel` that more fuel changes nothing.
- `bsp_node.dfy`: the `Node` class. It has mutable fields `polygons`, `plane`,
  `front` and `back`, and a ghost footprint `Sub`. Every public method is
  proved against the tree value `Model()`.
- `playground.dfy`: the `Main.java` routines, with exact real arithmetic and the
  source's tolerances (`EPS` = 1e-8, `TOL` = 1e-10).

## Model

| member | source | states |
|---|---|---|
| Bsp.Node.constructor | src/main/java/com/xahon/javacsg/Node.java:70-73 | a new node has no polygons, no plane and no children, and is a tree of its own |
| Bsp.Node.FromPolygons | src/main/java/com/xahon/javacsg/Node.java:63-68 | a node made from a polygon list is the empty node with the list built into it |
| Bsp.Node.Clone | src/main/java/com/xahon/javacsg/Node.java:75-107 | the copy is made only of freshly allocated nodes and is the same tree as the original |
| Bsp.CloneOf | src/main/java/com/xahon/javacsg/Node.java:76-104 | copying a node copies its plane and polygons and, recursively, each child present, into fresh nodes |
| Bsp.Node.Invert | src/main/java/com/xahon/javacsg/Node.java:114-159 | the walk completes exactly when no node has neither plane nor polygons, and then the new tree is InvertTree of the old one; when it aborts, the nodes reported inverted are fully inverted and every other node is untouched, the root is inverted unless it is itself the stuck node, the queue left behind is headed by the stuck node, and every node not inverted lies in the untouched subtree of a queued node; no node is added or removed |
| Bsp.InvertNode | src/main/java/com/xahon/javacsg/Node.java:119-157 | one node is inverted (polygons flipped, plane flipped or adopted, children swapped) unless it has neither plane nor polygons, in which case it is left unchanged and the walk stops |
| Bsp.InvertWalk | src/main/java/com/xahon/javacsg/Node.java:115-158 | the queue visits every node of the tree until one aborts; the visited nodes are inverted and all others untouched, the queue left behind is headed by the stuck node, every node not visited lies in the subtree of a queued node, and the walk finishes exactly when the queue empties |
| BspSpec.InvertTree | src/main/java/com/xahon/javacsg/Node.java:114-159 | the value meaning of invert: every node's polygons flipped, its plane flipped or adopted from the first flipped polygon, its children swapped, and no result (None) when some node has neither plane nor polygons; its contract is carried by InvertTreeDefined, InvertInvolution and InvertPolygons |
| BspSpec.InvertPlaneCases | src/main/java/com/xahon/javacsg/Node.java:135-146 | invert gives up exactly when a node has neither plane nor polygons; an existing plane is flipped; a missing one becomes the first polygon's plane (flipped twice, as the polygons are flipped first) |
| BspSpec.InvertTreeDefined | src/main/java/com/xahon/javacsg/Node.java:114-159 | inverting a tree succeeds if and only if no node is stuck, and the result has a plane at every node |
| BspSpec.InvertInvolution | src/main/java/com/xahon/javacsg/Node.java:114-159 | inverting twice restores any tree whose every node has a plane |
| BspSpec.InvertPolygons | src/main/java/com/xahon/javacsg/Node.java:130-133 | the inverted tree holds exactly the flipped polygons of the original |
| Geometry.FlipInvolution | src/main/java/com/xahon/javacsg/Node.java:130-133 | flipping a polygon twice gives it back |
| Bsp.Node.ClipPolygons | src/main/java/com/xahon/javacsg/Node.java:171-210 | the result is, as a multiset, the input clipped by the tree (front pieces kept where there is no front child, back pieces dropped where there is no back child); with no plane the input comes back unchanged; at a leaf the result is the front and coplanar-front pieces in order |
| Bsp.SplitBatch | src/main/java/com/xahon/javacsg/Node.java:190-192 | splitting a batch collects the coplanar-front and front pieces into one list and the coplanar-back and back pieces into the other, in input order |
| Bsp.ClipStep | src/main/java/com/xahon/javacsg/Node.java:177-206 | one turn of the clip queue preserves "result so far plus what the pending jobs will add" and shrinks the pending work |
| BspSpec.Clip | src/main/java/com/xahon/javacsg/Node.java:171-210 | the value meaning of clipPolygons: no plane returns the list, otherwise the split's front side goes to the front child (kept where there is none) and the back side to the back child (dropped where there is none); its contract is carried by ClipNothing, ClipConcat and Node.ClipPolygons |
| BspSpec.ClipNothing | src/main/java/com/xahon/javacsg/Node.java:171-210 | clipping an empty list gives an empty list |
| BspSpec.ClipConcat | src/main/java/com/xahon/javacsg/Node.java:171-210 | clipping distributes over list concatenation, up to order |
| Bsp.Node.ClipTo | src/main/java/com/xahon/javacsg/Node.java:222-238 | every node's polygon list becomes, up to order, its clip against the other tree; only polygon lists change; the other tree is unchanged |
| Bsp.ClipNode | src/main/java/com/xahon/javacsg/Node.java:230 | one node's list becomes, up to order, its clip against the other tree |
| Bsp.ClipWalk | src/main/java/com/xahon/javacsg/Node.java:223-237 | the queue reaches every node of the tree, and each node ends holding, up to order, the clip of the list it started with |
| Bsp.Node.AllPolygons | src/main/java/com/xahon/javacsg/Node.java:246-267 | the result holds every node's polygons, each exactly as often as in the tree, so its length is the sum of the list lengths |
| Bsp.Node.Build | src/main/java/com/xahon/javacsg/Node.java:276-317 | the tree becomes BuildTree of the old tree and the batch; nodes are only added, never removed; an empty batch changes nothing |
| Bsp.NodeStep | src/main/java/com/xahon/javacsg/Node.java:286-302 | a node without a plane takes the plane of the batch's first polygon, before filtering; the cleaned batch is split, coplanar pieces are appended to the node's own list, and front and back pieces are returned |
| Bsp.SplitInto | src/main/java/com/xahon/javacsg/Node.java:299-302 | the node's list grows by the coplanar pieces in input order, and the front and back pieces come back in input order |
| Bsp.BuildChild | src/main/java/com/xahon/javacsg/Node.java:304-315 | a child is created only for a non-empty batch; an existing child is reused and extended in place |
| BuildSpec.BuildTree | src/main/java/com/xahon/javacsg/Node.java:276-317 | the value meaning of build: an empty batch leaves the tree as it is, otherwise the node adopts the first polygon's plane if it has none, filters the batch to valid, distinct polygons, keeps the coplanar pieces and sends the front and back pieces down, creating children as needed, with fuel bounding the depth; its contract is carried by BuildFinishes, BuildFuel, BuildKeepsCells and BuildExtends |
| BuildSpec.BuildNode | src/main/java/com/xahon/javacsg/Node.java:286-315 | after a non-empty build a node's plane is its old plane or else the first batch polygon's; its list is the old list plus the coplanar pieces; a child exists exactly when it already did or received pieces |
| BuildSpec.BuildKeepsCells | src/main/java/com/xahon/javacsg/Node.java:286 | building creates a node exactly when the tree was empty and the batch is not |
| BuildSpec.BuildExtends | src/main/java/com/xahon/javacsg/Node.java:276-317 | build only adds: existing nodes, planes and polygons stay, and the tree does not shrink |
| BuildSpec.BuildFinishes | src/main/java/com/xahon/javacsg/Node.java:280-316 | for a splitter that keeps its promises, build ends within size of tree plus batch length levels |
| BuildSpec.BuildFuel | src/main/java/com/xahon/javacsg/Node.java:276-317 | the built tree does not depend on how much depth budget is allowed once it suffices |
| BuildSpec.ValidsSpec | src/main/java/com/xahon/javacsg/Node.java:292-293 | the filter keeps exactly the valid polygons |
| BuildSpec.DistinctSpec | src/main/java/com/xahon/javacsg/Node.java:292-293 | distinct keeps each polygon once, loses none, and keeps the first one first |
| BspSpec.GatherAppend | src/main/java/com/xahon/javacsg/Node.java:299-302 | splitting two batches one after the other gives each bucket the two outputs concatenated |
| Playground.ComputePlaneIntersection | src/main/java/com/xahon/javacsg/playground/Main.java:332-376 | a crossing kind always comes with a point; the three-way case split on the tolerance is stated by PlaneIntersectionCases |
| Playground.PlaneIntersectionCases | src/main/java/com/xahon/javacsg/playground/Main.java:332-376 | the line is reported non-parallel exactly when its direction leaves the plane by at least the tolerance, and the point returned then lies on the line and exactly on the plane; it is reported "on" exactly when it is parallel and its point is within tolerance of the plane, and then the point itself is returned; parallel gives no point |
| Playground.SignTable | src/main/java/com/xahon/javacsg/playground/Main.java:244-270 | the inside/outside/same/opposite/unknown table of classifyPolygon over the side of the hit and the facing of its polygon; SignTableByProduct and SignTableFlip state what it means |
| Playground.SignTableByProduct | src/main/java/com/xahon/javacsg/playground/Main.java:244-270 | the table answers inside when the two signs agree, outside when they differ, same or opposite when the hit is on the plane, and unknown when the facing sign is zero |
| Playground.SignTableFlip | src/main/java/com/xahon/javacsg/playground/Main.java:244-270 | negating both signs keeps inside and outside and swaps same with opposite |
| Playground.ClassifyPolygon | src/main/java/com/xahon/javacsg/playground/Main.java:167-271 | the classification given the bounds test, the ray hits and the nearest hit; ClassifyMeaning and ClassifyAhead state what it means |
| Playground.ClassifyMeaning | src/main/java/com/xahon/javacsg/playground/Main.java:167-271 | past the three early OUTSIDE exits (no bounds overlap, no hit, no nearest hit), the class follows the nearest hit's signed distance and the dot product of the two normals, each against the 1e-10 tolerance |
| Playground.ClassifyAhead | src/main/java/com/xahon/javacsg/playground/Main.java:192-199 | since hits behind the polygon are skipped, INSIDE only ever comes from a hit ahead of it whose polygon faces the same way |
| Playground.CutPolygonWithPlaneAndTypes | src/main/java/com/xahon/javacsg/playground/Main.java:462-503 | the walk over all vertices, with wrap-around edges, produces exactly the spec walk's lists, or its error when a spanning edge has no crossing |
| Playground.Walk | src/main/java/com/xahon/javacsg/playground/Main.java:468-501 | the vertex walk of cutPolygonWithPlaneAndTypes over the first k vertices; WalkCounts, WalkPlaces and WalkSides state what it produces |
| Playground.Cut | src/main/java/com/xahon/javacsg/playground/Main.java:462-503 | the cut fails when some spanning edge does not cross the plane, and otherwise is the full walk; CutFails and CutSucceeds state when each happens |
| Playground.Crossing | src/main/java/com/xahon/javacsg/playground/Main.java:488-498 | a crossing point, when there is one, lies exactly on the cut plane |
| Playground.WalkCounts | src/main/java/com/xahon/javacsg/playground/Main.java:468-501 | the on-plane list has one point per spanning edge; the front list has one per front vertex, one per on-plane vertex and one per spanning edge; the back list likewise |
| Playground.WalkPlaces | src/main/java/com/xahon/javacsg/playground/Main.java:468-501 | a vertex of type 1 or 0 is in the front list, one of type -1 or 0 in the back list, and the crossing of every spanning edge in all three |
| Playground.CutFails | src/main/java/com/xahon/javacsg/playground/Main.java:488-494 | the walk throws exactly when some spanning edge meets the plane in a way other than NON_PARALLEL |
| Playground.CutSucceeds | src/main/java/com/xahon/javacsg/playground/Main.java:586-604 | with types computed against the same plane and EPS, the throw cannot happen |
| Playground.WalkSides | src/main/java/com/xahon/javacsg/playground/Main.java:468-501 | with such types, the front outline lies less than EPS behind the plane, the back outline less than EPS in front, and the on-plane points exactly on it |
| Playground.AdjacentAllEqual | src/main/java/com/xahon/javacsg/playground/Main.java:585-599 | the pairwise typesEqual flag is true exactly when all types are equal |
| Playground.VertexTypes | src/main/java/com/xahon/javacsg/playground/Main.java:586-594 | every vertex gets its side of the plane within EPS, and the flag is true exactly when all those types are equal |
| Playground.CutPolygonWithPlaneIf | src/main/java/com/xahon/javacsg/playground/Main.java:583-630 | the method returns what CutIf specifies: early exit on equal types, the walk, the check, and the two pieces |
| Playground.KeepCut | src/main/java/com/xahon/javacsg/playground/Main.java:615-627 | an outline becomes a polygon only when it has more than two points and the polygon is valid |
| Playground.CutIf | src/main/java/com/xahon/javacsg/playground/Main.java:583-630 | the value meaning of cutPolygonWithPlaneIf: an empty list when all vertex types agree, the cut's error when the cut fails, no pieces when the check rejects the on-plane points, and otherwise the front and back outlines that make valid polygons; CutIfResult and CutPolygonWithPlaneIf state its properties |
| Playground.CutIfResult | src/main/java/com/xahon/javacsg/playground/Main.java:583-630 | never throws; empty when all vertex types agree (all zero included) or the check rejects the on-plane points; otherwise at most two valid polygons, each from more than two points all on one side of the plane within EPS |
| Playground.RemoveAll | src/main/java/com/xahon/javacsg/playground/Main.java:455 | exactly the elements not marked for deletion remain |
| Playground.CutsWithP1 | src/main/java/com/xahon/javacsg/playground/Main.java:405-452 | the inner loop collects, for each polygon whose bounds meet p1's, the cuts by p1's plane, and marks the polygons that were cut |
| Playground.SplitPolygons | src/main/java/com/xahon/javacsg/playground/Main.java:387-459 | the method returns what Split specifies, and an empty list whenever either input is empty |
| Playground.Split | src/main/java/com/xahon/javacsg/playground/Main.java:387-459 | the value meaning of splitPolygons: empty when either list is empty, otherwise ps2 cut in turn by each polygon of ps1; SplitResult, SplitApart and SplitMissed state its properties |
| Playground.SplitResult | src/main/java/com/xahon/javacsg/playground/Main.java:387-459 | splitting never fails, and every polygon returned is either an original from ps2 or a valid piece made from more than two points |
| Playground.SplitApart | src/main/java/com/xahon/javacsg/playground/Main.java:400-403 | when no polygon of ps1 meets the other solid's bounds, the outer loop over ps1 leaves the list as ps2 |
| Playground.SplitMissed | src/main/java/com/xahon/javacsg/playground/Main.java:387-459 | when no polygon of ps1 meets the other solid's bounds, splitPolygons returns ps2 unchanged if ps1 is non-empty, and the empty list if ps1 is empty |

## Left out

- Parallel streams (`parallelStream()` above 200 polygons in `clone` and
  `invert`): the mapping is per polygon, so it is modelled sequentially.
- `Plane.splitPolygon`, `Polygon.isValid`, `Polygon.fromPoints`, `Bounds.intersects`
  and `Polygon.contains` are not part of this model. They are parameters
  (`Kernel`, `PolygonOps`, `SplitOps`). `Plane`, `Polygon` and `Vertex` are
  values.
- Bsp.Node.Build: proved for a splitter that keeps its promises (`Sound`),
  because termination of `build` depends on them. The result is stated through
  `BuildTree` with a fuel bound, which `BuildFinishes` shows is always enough.
- Bsp.Node.Build: the source drains a FIFO queue of (node, batch) pairs, and the
  model descends recursively. Every node receives at most one batch, and nodes
  in different subtrees share nothing, so the end state is the same. The visiting
  order is not modelled.
- Bsp.Node.ClipPolygons: the result is stated up to order (as a multiset)
  except at a leaf. The order does matter further on: `build` adopts the
  plane of the first polygon of its batch (Node.java:286-289), the boolean
  operations build one tree from another's `allPolygons`, and `invert` reads
  the first polygon of a node without plane (Node.java:135-140). The model
  does not say which plane those calls will pick.
- Bsp.Node.AllPolygons: stated up to order, with the same consequence.
- Bsp.Node.ClipTo: each node's new list is stated up to order, with the same
  consequence. It also requires the two trees to share no node, which
  excludes `a.clipTo(a)`; that call is not modelled.
- Bsp.ClipWalk: each node's new list is stated up to order, as for ClipTo.
- Bsp.ClipNode: the node's new list is stated up to order, as for ClipTo.
- Bsp.Node.Invert: on abort, the set of inverted nodes is described by where
  the queue stopped, but not the breadth-first order in which they were visited.
- `Polygon.clone()` and `Plane.clone()` are the identity on values.
  Polygon and plane objects are not shared or aliased in the model.
- `Polygon.flip()` mutates shared polygon objects in place in the source. The
  model flips polygon values inside each node's list.
- Bsp.Node.Invert: the "Please fix me!" message printed before aborting is
  not modelled.
- The `Node(List)` constructor's `null` argument: `Node()` is modelled as
  its own constructor, and `Node(List)` always receives a list.
- `distinct()` and `removeAll` compare polygons by `Polygon.equals`, which is
  not part of this model. Here they compare polygon values.
- Floating point: all arithmetic is exact `real`. The tolerances 1e-8 and
  1e-10 are kept as constants, but rounding is not modelled.
- Playground.ComputePlaneIntersection: requires a positive tolerance. The
  source would divide by zero only for a zero or negative one, and every
  caller passes a positive constant.
- `classifyPolygon`: the nearest-hit loop (distance comparisons between ray
  hits) and `getPolygonsThatIntersectWithRay` are left out. The function
  takes the hits and the chosen hit as inputs. `ClassifyAhead` states the one
  property of the loop the table relies on: a hit behind the polygon is never
  chosen.
- `calculateLineLineIntersection` and the body of the check lambda in
  `splitPolygons` are left out. The check is the `accept` parameter.
- The console output in `splitPolygons`, `main`, `testCut`,
  `PolygonUtil.java` and the sample programs are not part of this model.
