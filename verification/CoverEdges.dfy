/** Covering: whether every child lies within its parent's covering distance. Insertions keep it. A removal rechecks it on
    the edges below the nodes whose element it swapped, not on the edge above the first of them
    (runners/genlayer-py-std/src-emb/genlayer_embeddings/vecdb.py:271-330, 353-423, 443-449). */
module CoverEdges {
  import opened Collections
  import opened Wrappers
  import opened CoverLevels
  import opened CoverForest
  import opened CoverBound
  import opened CoverDescent
  import opened CoverIndex
  import opened CoverRemoval

  /** `c` lies within `v`'s covering distance. */
  ghost predicate EdgeCovered<P(!new)>(s: Space<P>, f: Forest, v: nat, c: nat) {
    v < |f.nodes| && c < |f.nodes| && Dist(s, f, v, c) <= Power(f.nodes[v].level)
  }

  /** Every child lies within its parent's covering distance. */
  ghost predicate EdgesCovered<P(!new)>(s: Space<P>, f: Forest) {
    forall v, c | v in f.above && c in ChildrenOf(f, v) :: EdgeCovered(s, f, v, c)
  }

  /** What can be checked before the element of node `v` is removed: `v` has no children or no parent, or its parent covers
      the element that will move up into `v`, which is that of `v`'s nearest child. */
  predicate StaysCovered<P(!new)>(s: Space<P>, nodes: seq<Node>, v: nat) {
    v < |nodes| && nodes[v].children != [] && nodes[v].parent.Some? && nodes[v].parent.value < |nodes| ==>
      var p := nodes[v].parent.value;
      s.D(nodes[p].element, ElementOf(nodes, NearestChild(s, nodes, v))) <= Power(nodes[p].level)
  }

  // --- in the middle of a removal ---

  /** The edge that a removal leaves uncovered: none, or the one from `parent` to `child`; `Untracked` when the index was
      not covered before. */
  datatype Gap = Untracked | Closed | Open(parent: nat, child: nat)

  function GapAt<P(!new)>(s: Space<P>, nodes: seq<Node>, v: nat): Gap {
    if StaysCovered(s, nodes, v) then Closed else Open(nodes[v].parent.value, v)
  }

  /** Every edge is covered but those below the nodes of `line` and the one of the gap. */
  ghost predicate CoveredBut<P(!new)>(s: Space<P>, f: Forest, line: seq<nat>, gap: Gap) {
    forall v, c | v in f.above && c in ChildrenOf(f, v) && v !in line && !(gap.Open? && gap.child == c) :: EdgeCovered(s, f, v, c)
  }

  /** The uncovered edge is above the first node of the line and not in the trees to be reinserted. */
  ghost predicate Gaping<P(!new)>(s: Space<P>, f: Forest, line: seq<nat>, todo: seq<nat>, p: nat, v: nat) {
    && p in f.above && v in f.above && v in ChildrenOf(f, p) && !EdgeCovered(s, f, p, v)
    && p !in line && (line != [] ==> line[0] == v) && forall c | c in todo :: !Under(f, c, v)
  }

  ghost predicate Edges<P(!new)>(s: Space<P>, f: Forest, line: seq<nat>, todo: seq<nat>, gap: Gap) {
    gap.Untracked? || (CoveredBut(s, f, line, gap) && (gap.Open? ==> Gaping(s, f, line, todo, gap.parent, gap.child)))
  }

  /** At the end the index is covered exactly when there is no gap. */
  lemma {:induction false} EdgesDone<P(!new)>(s: Space<P>, f: Forest, gap: Gap)
    requires Edges(s, f, [], [], gap) && !gap.Untracked?
    ensures EdgesCovered(s, f) <==> gap.Closed?
  {
    if gap.Open? { assert !EdgeCovered(s, f, gap.parent, gap.child); }
  }

  /** The elements have moved up: only the edges below the swapped nodes are open, and the one above the first of them when
      its nearest child's element is too far from its parent. */
  lemma {:induction false} MovedEdges<P(!new)>(s: Space<P>, ix: Index, ix': Index, start: nat, path: seq<nat>, leaf: nat)
    requires Settled(s, ix) && EdgesCovered(s, ix.forest) && start in ix.forest.above
    requires MovedUp(s, ix.forest, ix'.forest, start, path, leaf) && AtLeaf(s, ix', path, leaf)
    ensures var gap := GapAt(s, ix.forest.nodes, start);
            Edges(s, ix'.forest, path, [], gap) && (gap.Open? ==> path != [])
  {
    var f, f', gap := ix.forest, ix'.forest, GapAt(s, ix.forest.nodes, start);
    hide Power, PowerUp, Bound, Chained, TrueMetric, InReach, Stored, FreeSlots, Placed, PlacedBut, LevelsFall;
    StartOfPath(s, f, f', start, path, leaf);
    forall v, c | v in f'.above && c in ChildrenOf(f', v) && v !in path && !(gap.Open? && gap.child == c)
      ensures EdgeCovered(s, f', v, c)
    {
      MovedEdge(s, f, f', start, path, leaf, v, c);
    }
    if gap.Open? { MovedGap(s, ix, f', start, path, leaf); }
  }

  lemma {:induction false} StartOfPath<P(!new)>(s: Space<P>, f: Forest, f': Forest, start: nat, path: seq<nat>, leaf: nat)
    requires MovedUp(s, f, f', start, path, leaf)
    ensures if path == [] then start == leaf else path[0] == start && start < |f.nodes| && f.nodes[start].children != []
    ensures path != [] && |path| == 1 ==> leaf == NearestChild(s, f.nodes, start)
    ensures |path| > 1 ==> path[1] == NearestChild(s, f.nodes, start)
  {
    var line := path + [leaf];
    if path != [] { assert Passed(s, f, f', path[0], line[1]); }
  }

  lemma {:induction false} MovedEdge<P(!new)>(s: Space<P>, f: Forest, f': Forest, start: nat, path: seq<nat>, leaf: nat, v: nat, c: nat)
    requires Shape(f) && EdgesCovered(s, f) && MovedUp(s, f, f', start, path, leaf) && Line(f', path + [leaf])
    requires v in f.above && c in f.nodes[v].children && v !in path && (c == start ==> StaysCovered(s, f.nodes, start))
    ensures EdgeCovered(s, f', v, c)
  {
    hide Power, PowerUp, LevelsFall, ChildrenOk, ParentsOk, Passed, StaysCovered;
    ChildOf(f, v, c);
    assert EdgeCovered(s, f, v, c);
    if c in path {
      var j :| 0 <= j < |path| && path[j] == c;
      var line := path + [leaf];
      assert line[j] in f'.above;
      if j > 0 {
        assert line[j - 1] in f'.above;
        assert Passed(s, f, f', path[j - 1], line[j]) && path[j - 1] in path;
        PassedParent(s, f, f', path[j - 1], c, v);
      } else {
        assert Passed(s, f, f', path[0], line[1]);
        PassedStart(s, f, f', v, c, line[1]);
      }
    }
  }

  lemma {:induction false} PassedStart<P(!new)>(s: Space<P>, f: Forest, f': Forest, v: nat, c: nat, d: nat)
    requires Shape(f) && v in f.above && c in f.nodes[v].children && Passed(s, f, f', c, d) && StaysCovered(s, f.nodes, c)
    requires |f'.nodes| == |f.nodes| && f'.nodes[v] == f.nodes[v]
    ensures EdgeCovered(s, f', v, c)
  {
    ChildOf(f, v, c);
    hide Power, PowerUp, LevelsFall, ChildrenOk, ParentsOk;
  }

  lemma {:induction false} PassedParent<P(!new)>(s: Space<P>, f: Forest, f': Forest, v: nat, c: nat, w: nat)
    requires Shape(f) && Passed(s, f, f', v, c) && v in f.above && w in f.above && c in f.nodes[w].children
    ensures w == v
  {
    ChildOf(f, v, c);
    ChildOf(f, w, c);
  }

  lemma {:induction false} MovedGap<P(!new)>(s: Space<P>, ix: Index, f': Forest, start: nat, path: seq<nat>, leaf: nat)
    requires Settled(s, ix) && start in ix.forest.above && MovedUp(s, ix.forest, f', start, path, leaf) && Line(f', path + [leaf])
    requires !StaysCovered(s, ix.forest.nodes, start) && leaf < |f'.nodes| && f'.nodes[leaf].children == []
    ensures path != [] && Gaping(s, f', path, [], ix.forest.nodes[start].parent.value, start)
  {
    var f := ix.forest;
    SettledShape(s, ix);
    hide Settled, Power, PowerUp, LevelsFall, ChildrenOk, ParentsOk, NearestChild;
    StartOfPath(s, f, f', start, path, leaf);
    ChildOfParent(s, ix, start);
    var p := Parent(f, start);
    ParentIs(f, start, p);
    OffPath(f, f', path, leaf);
    assert Passed(s, f, f', path[0], (path + [leaf])[1]);
    GapOpens(s, f, f', path, p, (path + [leaf])[1]);
  }

  lemma {:induction false} GapOpens<P(!new)>(s: Space<P>, f: Forest, f': Forest, path: seq<nat>, p: nat, c: nat)
    requires path != [] && p in f.above && path[0] in f.above && p !in path && path[0] in ChildrenOf(f, p) && path[0] < |f.nodes|
    requires f.nodes[path[0]].parent == Some(p) && Passed(s, f, f', path[0], c) && !StaysCovered(s, f.nodes, path[0])
    requires f'.above == f.above && |f'.nodes| == |f.nodes| && forall w | 0 <= w < |f.nodes| && w !in path :: f'.nodes[w] == f.nodes[w]
    ensures Gaping(s, f', path, [], p, path[0])
  {
    hide Power, PowerUp, NearestChild;
  }

  /** The parent of the path's first node is not on the path. */
  lemma {:induction false} OffPath(f: Forest, f': Forest, path: seq<nat>, leaf: nat)
    requires Shape(f) && f'.above == f.above && Line(f', path + [leaf]) && path != [] && path[0] in f.above && f.above[path[0]] != {}
    ensures Parent(f, path[0]) !in path
  {
    hide LevelsFall, ChildrenOk, ParentsOk;
    forall x | x in path ensures x != Parent(f, path[0]) {
      var j :| 0 <= j < |path| && path[j] == x;
      OnLine(f, f', path, leaf, j);
    }
  }

  lemma {:induction false} SettledShape<P(!new)>(s: Space<P>, ix: Index)
    requires Settled(s, ix)
    ensures Shape(ix.forest)
  {
    hide Shape, Bound, Chained, TrueMetric, InReach, Stored, FreeSlots, Placed;
  }

  lemma {:induction false} ParentIs(f: Forest, c: nat, p: nat)
    requires Shape(f) && c in f.above && f.above[c] != {} && p == Parent(f, c)
    ensures f.nodes[c].parent == Some(p)
  {
  }

  /** Between operations only the root has no parent. */
  lemma {:induction false} ChildOfParent<P(!new)>(s: Space<P>, ix: Index, v: nat)
    requires Settled(s, ix) && v in ix.forest.above && ix.forest.nodes[v].parent.Some?
    ensures ix.forest.above[v] != {}
  {
    hide Bound, Chained, TrueMetric, InReach, Stored, FreeSlots, Placed, LevelsFall, ChildrenOk, ParentsOk;
  }

  lemma {:induction false} OnLine(f: Forest, f': Forest, path: seq<nat>, leaf: nat, j: nat)
    requires Shape(f) && f'.above == f.above && Line(f', path + [leaf]) && j < |path| && path[0] in f.above && f.above[path[0]] != {}
    ensures path[j] != Parent(f, path[0])
  {
    var line, p := path + [leaf], Parent(f, path[0]);
    hide LevelsFall, ChildrenOk, ParentsOk;
    if j > 0 { assert line[0] in f'.above[line[j]]; }
  }

  /** Fewer nodes and fewer children: nothing uncovered is added, and the gap stays. */
  lemma {:induction false} FewerEdges<P(!new)>(s: Space<P>, f: Forest, f': Forest, line: seq<nat>, todo: seq<nat>, gap: Gap)
    requires Edges(s, f, line, [], gap) && |f'.nodes| == |f.nodes| && f'.above.Keys <= f.above.Keys
    requires forall v | 0 <= v < |f.nodes| ::
      f'.nodes[v].element == f.nodes[v].element && f'.nodes[v].level == f.nodes[v].level && forall c | c in f'.nodes[v].children :: c in f.nodes[v].children
    requires gap.Open? ==> Gaping(s, f', line, todo, gap.parent, gap.child)
    ensures Edges(s, f', line, todo, gap)
  {
    if !gap.Untracked? {
      forall v, c | v in f'.above && c in ChildrenOf(f', v) && v !in line && !(gap.Open? && gap.child == c)
        ensures EdgeCovered(s, f', v, c)
      {
        assert EdgeCovered(s, f, v, c);
      }
    }
  }

  /** The leaf is taken from its parent. */
  lemma {:induction false} LeafEdges<P(!new)>(s: Space<P>, ix: Index, path: seq<nat>, leaf: nat, p: nat, i: nat, gap: Gap)
    requires AtLeaf(s, ix, path, leaf) && leaf < |ix.forest.nodes| && ix.forest.nodes[leaf].parent == Some(p)
    requires InRange(ix.forest) && p in ix.forest.above && i < |ix.forest.nodes[p].children| && ix.forest.nodes[p].children[i] == leaf
    requires Edges(s, ix.forest, path, [], gap) && (gap.Open? ==> path != [])
    ensures Edges(s, LeafDropped(ix, leaf, p, Without(ix.forest.nodes[p].children, i)).forest, path, [], gap)
  {
    var f, kept := ix.forest, Without(ix.forest.nodes[p].children, i);
    var f' := LeafDropped(ix, leaf, p, kept).forest;
    hide AtLeaf, Without, LeafDropped, NoDup, Edges, Gaping, LevelsFall, ChildrenOk, ParentsOk;
    LeafKnown(s, ix, path, leaf);
    LeafParent(s, ix, path, leaf);
    WithoutOne(f.nodes[p].children, i);
    LeafDroppedFacts(ix, leaf, p, kept);
    LeafFewer(s, f, f', path, leaf, p, kept, gap);
  }

  lemma {:induction false} LeafFewer<P(!new)>(s: Space<P>, f: Forest, f': Forest, path: seq<nat>, leaf: nat, p: nat, kept: seq<nat>, gap: Gap)
    requires Edges(s, f, path, [], gap) && (gap.Open? ==> path != []) && leaf !in path && leaf < |f.nodes| && f.nodes[leaf].children == []
    requires f'.above == f.above - {leaf} && p < |f.nodes|
    requires f'.nodes == f.nodes[p := f.nodes[p].(children := kept)] && forall c :: c in kept <==> c in f.nodes[p].children && c != leaf
    ensures Edges(s, f', path, [], gap)
  {
    hide Edges, Gaping, Power, PowerUp;
    if gap.Open? { LeafGap(s, f, f', path, leaf, p, kept, gap.parent, gap.child, gap); }
    FewerEdges(s, f, f', path, [], gap);
  }

  lemma {:induction false} LeafKnown<P(!new)>(s: Space<P>, ix: Index, path: seq<nat>, leaf: nat)
    requires AtLeaf(s, ix, path, leaf)
    ensures Shape(ix.forest) && leaf in ix.forest.above && leaf < |ix.forest.nodes| && ix.forest.nodes[leaf].children == [] && leaf !in path
  {
    DescentFresh(s, ix, path, leaf);
    hide LevelsFall, ChildrenOk, ParentsOk, TrueMetric, InReach, Bound, Chained, FreeSlots, Rooted, Stored, PlacedBut, Trees, Line;
  }

  lemma {:induction false} LeafDroppedFacts(ix: Index, leaf: nat, p: nat, kept: seq<nat>)
    requires Shape(ix.forest) && p in ix.forest.above && leaf in ix.forest.nodes[p].children && ix.forest.nodes[leaf].children == [] && NoDup(kept)
    requires forall c :: c in kept <==> c in ix.forest.nodes[p].children && c != leaf
    ensures var f, f' := ix.forest, LeafDropped(ix, leaf, p, kept).forest;
            f'.above == f.above - {leaf} && f'.nodes == f.nodes[p := f.nodes[p].(children := kept)]
  {
    hide LevelsFall, ChildrenOk, ParentsOk, NoDup;
    var f := ix.forest;
    ChildOf(f, p, leaf);
    DetachShape(f, p, kept);
    DetachLeafFacts(f, p, kept, leaf);
    DropLeafFacts(Detach(f, p, kept), leaf);
  }

  lemma {:induction false} LeafGap<P(!new)>(s: Space<P>, f: Forest, f': Forest, path: seq<nat>, leaf: nat, p: nat, kept: seq<nat>, q: nat, v: nat, gap: Gap)
    requires Edges(s, f, path, [], gap) && gap == Open(q, v) && path != [] && leaf !in path && leaf < |f.nodes| && f.nodes[leaf].children == []
    requires f'.above == f.above - {leaf} && p < |f.nodes|
    requires f'.nodes == f.nodes[p := f.nodes[p].(children := kept)] && forall c :: c in kept <==> c in f.nodes[p].children && c != leaf
    ensures Gaping(s, f', path, [], q, v)
  {
  }

  /** The index is empty. */
  lemma {:induction false} LastEdges<P(!new)>(s: Space<P>, ix: Index, leaf: nat, gap: Gap)
    requires AtLeaf(s, ix, [], leaf) && ix.root == Some(leaf) && Edges(s, ix.forest, [], [], gap) && !gap.Open?
    ensures Edges(s, LastDropped(ix, leaf).forest, [], [], gap)
  {
    hide Power, PowerUp, Descending;
    FewerEdges(s, ix.forest, LastDropped(ix, leaf).forest, [], [], gap);
  }

  /** The lowest node of the line covers the children it keeps. */
  lemma {:induction false} RecheckEdges<P(!new)>(s: Space<P>, ix: Index, rest: seq<nat>, v: nat, kept: seq<nat>, gone: seq<nat>, gap: Gap)
    requires Repairing(s, ix, rest + [v], []) && v in ix.forest.above && Partition(ix.forest.nodes[v].children, kept, gone)
    requires forall c | c in kept :: c < |ix.forest.nodes| && Dist(s, ix.forest, v, c) <= Power(ix.forest.nodes[v].level)
    requires Edges(s, ix.forest, rest + [v], [], gap)
    ensures InRange(ix.forest) && Edges(s, WithChildren(ix, v, kept).forest, rest, gone, gap)
  {
    hide Repairing, Detach, Edges, Gaping, CoveredBut, NoDup, LevelsFall, ChildrenOk, ParentsOk, Power, PowerUp;
    RecheckLine(s, ix, rest, v);
    var f, f' := ix.forest, WithChildren(ix, v, kept).forest;
    DetachShape(f, v, kept);
    DetachFacts(f, v, kept);
    if !gap.Untracked? {
      RecheckCovered(s, f, f', rest, v, kept, gap);
      if gap.Open? { RecheckGap(s, f, f', rest, v, kept, gone, gap); }
    }
    JoinEdges(s, f', rest, gone, gap);
  }

  lemma {:induction false} RecheckLine<P(!new)>(s: Space<P>, ix: Index, rest: seq<nat>, v: nat)
    requires Repairing(s, ix, rest + [v], [])
    ensures Shape(ix.forest) && v in ix.forest.above && forall x | x in rest :: x in ix.forest.above && x in ix.forest.above[v]
  {
    hide LevelsFall, ChildrenOk, ParentsOk, Power, PowerUp, Bound, Chained, TrueMetric, InReach, FreeSlots, Stored, Placed, Trees, Line;
    LastOfLine(ix.forest, rest, v);
    LineKnown(s, ix, rest, v);
  }

  lemma {:induction false} JoinEdges<P(!new)>(s: Space<P>, f: Forest, line: seq<nat>, todo: seq<nat>, gap: Gap)
    requires !gap.Untracked? ==> CoveredBut(s, f, line, gap) && (gap.Open? ==> Gaping(s, f, line, todo, gap.parent, gap.child))
    ensures Edges(s, f, line, todo, gap)
  {
  }

  lemma {:induction false} RecheckCovered<P(!new)>(s: Space<P>, f: Forest, f': Forest, rest: seq<nat>, v: nat, kept: seq<nat>, gap: Gap)
    requires InRange(f) && v in f.above && f'.above.Keys == f.above.Keys && f'.nodes == f.nodes[v := f.nodes[v].(children := kept)]
    requires forall c | c in kept :: c < |f.nodes| && Dist(s, f, v, c) <= Power(f.nodes[v].level)
    requires Edges(s, f, rest + [v], [], gap) && !gap.Untracked?
    ensures CoveredBut(s, f', rest, gap)
  {
    hide Power, PowerUp;
    forall x, c | x in f'.above && c in ChildrenOf(f', x) && x !in rest && !(gap.Open? && gap.child == c)
      ensures EdgeCovered(s, f', x, c)
    {
      if x != v { assert EdgeCovered(s, f, x, c); }
    }
  }

  lemma {:induction false} RecheckGap<P(!new)>(s: Space<P>, f: Forest, f': Forest, rest: seq<nat>, v: nat, kept: seq<nat>, gone: seq<nat>, gap: Gap)
    requires Shape(f) && v in f.above && f'.above.Keys == f.above.Keys && f'.nodes == f.nodes[v := f.nodes[v].(children := kept)]
    requires forall w | w in f.above :: f'.above[w] <= f.above[w]
    requires forall c | c in gone :: c in f.nodes[v].children
    requires forall x | x in rest :: x in f.above && x in f.above[v]
    requires Edges(s, f, rest + [v], [], gap) && gap.Open?
    ensures Gaping(s, f', rest, gone, gap.parent, gap.child)
  {
    hide Power, PowerUp, LevelsFall, ChildrenOk, ParentsOk;
    var top := gap.child;
    assert (rest + [v])[0] == top && v in rest + [v];
    assert rest != [] ==> rest[0] == top;
    forall c | c in gone ensures !Under(f', c, top) {
      if top == v {
        ChildOf(f, v, c);
        NotAboveItself(f, v, c, c);
      } else {
        ApartFromLine(f, f', rest, v, c, top);
      }
    }
  }

  /** A detached tree is taken out. */
  lemma {:induction false} TakenEdges<P(!new)>(s: Space<P>, f: Forest, line: seq<nat>, c: nat, others: seq<nat>, gap: Gap)
    requires Shape(f) && c in f.above && Edges(s, f, line, [c] + others, gap)
    ensures Edges(s, DropTree(f, c), line, others, gap)
  {
    var f' := DropTree(f, c);
    hide Power, PowerUp, LevelsFall, ParentsOk;
    if gap.Open? {
      ChildOf(f, gap.parent, gap.child);
      assert c in [c] + others && forall d | d in others :: d in [c] + others;
    }
    if !gap.Untracked? {
      forall x, d | x in f'.above && d in ChildrenOf(f', x) && x !in line && !(gap.Open? && gap.child == d)
        ensures EdgeCovered(s, f', x, d)
      {
        assert EdgeCovered(s, f, x, d);
      }
    }
  }

  // --- insertions ---

  /** An insertion covers the edges it adds and leaves the others alone. */
  lemma {:induction false} InsertedEdges<P(!new)>(s: Space<P>, ix: Index, ix': Index, element: nat, n: nat, line: seq<nat>, todo: seq<nat>, gap: Gap)
    requires s.Measured() && Shape(ix.forest) && Rooted(ix.forest, ix.root) && Stored(s, ix'.forest) && Insertion(s, ix, ix', element, n)
    requires forall c | c in todo :: c in ix.forest.above
    requires Edges(s, ix.forest, line, todo, gap)
    ensures Edges(s, ix'.forest, line, todo, gap)
  {
    var f, f' := ix.forest, ix'.forest;
    hide Power, PowerUp, TrueMetric, InReach, LevelsFall, ChildrenOk, ParentsOk, Gaping, EdgeCovered, Kept, WellPlaced, Grown, Rooted;
    if !gap.Untracked? {
      forall v, c | v in f'.above && c in ChildrenOf(f', v) && v !in line && !(gap.Open? && gap.child == c)
        ensures EdgeCovered(s, f', v, c)
      {
        InsertedEdge(s, ix, ix', element, n, line, gap, v, c);
      }
      if gap.Open? { InsertedGap(s, ix, ix', element, n, line, todo, gap.parent, gap.child); }
    }
  }

  lemma {:induction false} InsertedEdge<P(!new)>(s: Space<P>, ix: Index, ix': Index, element: nat, n: nat, line: seq<nat>, gap: Gap, v: nat, c: nat)
    requires s.Measured() && Shape(ix.forest) && Rooted(ix.forest, ix.root) && Stored(s, ix'.forest) && Insertion(s, ix, ix', element, n)
    requires CoveredBut(s, ix.forest, line, gap) && v in ix'.forest.above && c in ChildrenOf(ix'.forest, v)
    requires v !in line && !(gap.Open? && gap.child == c)
    ensures EdgeCovered(s, ix'.forest, v, c)
  {
    var f, f' := ix.forest, ix'.forest;
    hide Power, PowerUp, TrueMetric, InReach, LevelsFall, ChildrenOk, ParentsOk;
    if v in f.above && c in ChildrenOf(f, v) {
      ChildOf(f, v, c);
      assert EdgeCovered(s, f, v, c);
    } else if v in f.above {
      assert c == n && Reaches(s, f', v, element);
      DistanceLaws(s, f'.nodes[v].element, element, element);
    }
  }

  lemma {:induction false} InsertedGap<P(!new)>(s: Space<P>, ix: Index, ix': Index, element: nat, n: nat, line: seq<nat>, todo: seq<nat>, p: nat, v: nat)
    requires Kept(ix, ix', element, n) && Grown(ix, ix', n) && Gaping(s, ix.forest, line, todo, p, v) && forall c | c in todo :: c in ix.forest.above
    ensures Gaping(s, ix'.forest, line, todo, p, v)
  {
    hide Power, PowerUp;
    var f, f' := ix.forest, ix'.forest;
    forall c | c in todo ensures !Under(f', c, v) { assert !Under(f, c, v); }
  }

  /** Insertion keeps every child within its parent's covering distance. */
  lemma {:induction false} InsertCovers<P(!new)>(s: Space<P>, ix: Index, ix': Index, element: nat, n: nat)
    requires Settled(s, ix) && Inserted(s, ix, ix', element, n, {}, None) && EdgesCovered(s, ix.forest)
    ensures EdgesCovered(s, ix'.forest)
  {
    hide Shape, TrueMetric, InReach, FreeSlots, Placed, Bound, Chained, Insertion;
    InsertedEdges(s, ix, ix', element, n, [], [], Closed);
  }

  // --- as the fields see it ---

  lemma {:induction false} StartEdges<P(!new)>(s: Space<P>, ix: Index, ix': Index, idx: nat, path: seq<nat>, leaf: nat, gap: Gap)
    requires Settled(s, ix) && idx in ix.at
    requires MovedUp(s, ix.forest, ix'.forest, ix.at[idx], path, leaf) && AtLeaf(s, ix', path, leaf)
    requires gap == if EdgesCovered(s, ix.forest) then GapAt(s, ix.forest.nodes, ix.at[idx]) else Untracked
    ensures Edges(s, ix'.forest, path, [], gap) && (gap.Open? ==> path != [])
  {
    hide Settled, AtLeaf, MovedUp, EdgesCovered, StaysCovered;
    PlaceKnown(s, ix, idx);
    if EdgesCovered(s, ix.forest) { MovedEdges(s, ix, ix', ix.at[idx], path, leaf); }
  }

  lemma {:induction false} PlaceKnown<P(!new)>(s: Space<P>, ix: Index, idx: nat)
    requires Settled(s, ix) && idx in ix.at
    ensures ix.at[idx] in ix.forest.above
  {
    hide LevelsFall, ChildrenOk, ParentsOk, TrueMetric, InReach, Bound, Chained, FreeSlots, Rooted, Stored, Power, PowerUp;
  }

  lemma {:induction false} RecheckedEdges<P(!new)>(s: Space<P>, ix: Index, rest: seq<nat>, v: nat, gap: Gap)
    requires Repairing(s, ix, rest + [v], []) && v < |ix.forest.nodes| && Edges(s, ix.forest, rest + [v], [], gap)
    requires forall i | 0 <= i < |ix.forest.nodes[v].children| :: ix.forest.nodes[v].children[i] < |ix.forest.nodes|
    requires InRange(ix.forest) && v in ix.forest.above
    ensures var children := ix.forest.nodes[v].children;
            var kept, gone := Selected(s, ix.forest.nodes, v, children, true), Selected(s, ix.forest.nodes, v, children, false);
            && Edges(s, WithChildren(ix, v, kept).forest, rest, gone, gap)
            && (forall c :: c in kept <==> c in children && c < |ix.forest.nodes| && Covers(s, ix.forest.nodes, v, c))
            && (forall c :: c in gone <==> c in children && c < |ix.forest.nodes| && !Covers(s, ix.forest.nodes, v, c))
  {
    hide Repairing, Edges, Selected, NoDup, LevelsFall, ChildrenOk, ParentsOk, Power, PowerUp;
    var f, children := ix.forest, ix.forest.nodes[v].children;
    LineKnown(s, ix, rest, v);
    ChildrenDistinct(f, v);
    SelectedMembers(s, f.nodes, v, children, true);
    SelectedMembers(s, f.nodes, v, children, false);
    assert forall c | c in children :: c < |f.nodes|;
    RecheckEdges(s, ix, rest, v, Selected(s, f.nodes, v, children, true), Selected(s, f.nodes, v, children, false), gap);
  }

  lemma {:induction false} NextEdges<P(!new)>(s: Space<P>, ix: Index, ix': Index, n: nat, line: seq<nat>, todo: seq<nat>, elements: seq<nat>, i: nat, held: set<nat>, gap: Gap)
    requires Reinserting(s, ix, line, todo, elements, i, held) && i < |elements|
    requires Inserted(s, ix, ix', elements[i], n, Members(line), Top(line)) && Edges(s, ix.forest, line, todo, gap)
    ensures Edges(s, ix'.forest, line, todo, gap)
  {
    hide Edges, Insertion, Bound, Chained, Line, FreeSlots, Placed, TrueMetric, InReach, Shape, Rooted, Stored;
    InsertedEdges(s, ix, ix', elements[i], n, line, todo, gap);
  }

  /** Storing a vector under an id that is not in the index moves no edge. */
  lemma {:induction false} KeysChangedEdges<P(!new)>(s: Space<P>, s': Space<P>, ix: Index)
    requires Settled(s, ix) && EdgesCovered(s, ix.forest) && s'.dist == s.dist
    requires |s.keys| <= |s'.keys| && forall e | e in ix.at && e < |s.keys| :: s'.keys[e] == s.keys[e]
    ensures EdgesCovered(s', ix.forest)
  {
    var f := ix.forest;
    hide LevelsFall, ParentsOk, TrueMetric, InReach, Bound, Chained, FreeSlots, Rooted, Power, PowerUp;
    forall v, c | v in f.above && c in ChildrenOf(f, v) ensures EdgeCovered(s', f, v, c) {
      ChildOf(f, v, c);
      assert EdgeCovered(s, f, v, c);
    }
  }

  // --- what the invariant gives ---

  /** What a settled index is, in one place: levels strictly fall, the distance to any descendant is bounded by the
      ancestor's level, and elements and nodes correspond one to one. */
  lemma {:induction false} SettledMeans<P(!new)>(s: Space<P>, ix: Index, a: nat, w: nat)
    requires Settled(s, ix) && w in ix.forest.above && a in ix.forest.above[w]
    ensures a < |ix.forest.nodes| && w < |ix.forest.nodes| && ix.forest.nodes[a].level > ix.forest.nodes[w].level
    ensures var ea, ew := ix.forest.nodes[a].element, ix.forest.nodes[w].element;
            ea < |s.keys| && ew < |s.keys| && s.dist(s.keys[ea], s.keys[ew]) <= Power(ix.forest.nodes[a].level + 1) / (BASE - 1.0)
    ensures ix.forest.nodes[w].element in ix.at && ix.at[ix.forest.nodes[w].element] == w && ix.root.Some? && Under(ix.forest, ix.root.value, w)
  {
    assert Within(s, ix.forest, a, w);
    hide Power, Bound, ChildrenOk, ParentsOk, TrueMetric, InReach;
    var r := TopOf(ix.forest, w);
    RootAbove(ix.forest, r, w);
  }

  lemma {:induction false} TopOf(f: Forest, w: nat) returns (r: nat)
    requires Shape(f) && w in f.above
    ensures r in f.above && f.above[r] == {}
    decreases f.above[w]
  {
    r := w;
    if f.above[w] != {} { r := TopOf(f, Parent(f, w)); }
  }
}
