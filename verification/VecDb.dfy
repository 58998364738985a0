/** The vector store and its cover-tree index, updated in place
    (runners/genlayer-py-std/src-emb/genlayer_embeddings/vecdb.py:142-516). */
module VecDb {
  import opened Collections
  import opened Wrappers
  import opened CoverLevels
  import opened CoverForest
  import opened CoverBound
  import opened CoverDescent
  import opened CoverWalk
  import opened KNearest
  import CoverIndex
  import opened CoverRemoval
  import opened CoverEdges
  import opened CoverSearch

  class VecDB<P(!new), V> {
    const dist: (P, P) -> real

    var keys: seq<P>
    var values: seq<V>
    var freeIdx: set<nat>
    var nodes: seq<Node>
    var freeNodes: set<nat>
    var elemToNode: map<nat, nat>
    var rootIdx: Option<nat>

    /** The nodes in use and the proper ancestors of each. */
    ghost var above: map<nat, set<nat>>

    ghost function Keyed(): Space<P>
      reads `keys
    {
      Space(keys, dist)
    }

    ghost function Tree(): Forest
      reads `nodes, `above
    {
      Forest(nodes, above)
    }

    ghost function Ix(): CoverIndex.Index
      reads `nodes, `above, `freeNodes, `elemToNode, `rootIdx
    {
      CoverIndex.Index(Tree(), freeNodes, elemToNode, rootIdx)
    }

    /** The ids `get_by_id` finds. */
    function Live(): set<nat>
      reads `keys, `freeIdx
    {
      set i | 0 <= i < |keys| && i !in freeIdx
    }

    /** What holds between operations: the tree holds exactly the live elements, and every node bounds its descendants. */
    ghost predicate Valid()
      reads this
    {
      && |values| == |keys| && CoverIndex.Settled(Keyed(), Ix())
      && (forall i | i in freeIdx :: i < |keys|)
      && elemToNode.Keys == Live()
    }

    constructor (distance: (P, P) -> real)
      requires TrueMetric(distance) && InReach(distance)
      ensures Valid() && Live() == {} && keys == [] && dist == distance && EdgesCovered(Keyed(), Tree())
    {
      dist := distance;
      keys, values, freeIdx := [], [], {};
      nodes, freeNodes, elemToNode, rootIdx := [], {}, map[], None;
      above := map[];
    }

    /** `_allocate_node`: a free slot if there is one, a new one otherwise. */
    method AllocateNode(element: nat, level: int) returns (n: nat)
      requires InRange(Tree()) && CoverIndex.FreeSlots(Tree(), freeNodes)
      modifies `nodes, `freeNodes
      ensures CoverIndex.Fresh(old(Ix()), nodes, freeNodes, n, Node(element, level, [], None))
    {
      if freeNodes != {} {
        n :| n in freeNodes;
        freeNodes := freeNodes - {n};
        nodes := nodes[n := Node(element, level, [], None)];
      } else {
        nodes := nodes + [Node(element, level, [], None)];
        n := |nodes| - 1;
      }
    }

    /** The very first node. */
    method AttachFirst(element: nat) returns (n: nat)
      requires CoverIndex.Slots(Ix())
      modifies `nodes, `freeNodes, `elemToNode, `rootIdx, `above
      ensures CoverIndex.Fresh(old(Ix()), nodes, freeNodes, n, Node(element, 0, [], None))
      ensures Ix() == CoverIndex.FirstAdded(old(Ix()), nodes, freeNodes, n, element)
    {
      hide LevelsFall, ChildrenOk, ParentsOk, Power, PowerUp;
      n := AllocateNode(element, 0);
      rootIdx, elemToNode, above := Some(n), elemToNode[element := n], above[n := {}];
    }

    /** A new root above the old one. */
    method AttachRoot(element: nat, level: int) returns (n: nat, ghost arena: seq<Node>)
      requires CoverIndex.Slots(Ix()) && rootIdx.Some?
      modifies `nodes, `freeNodes, `elemToNode, `rootIdx, `above
      ensures CoverIndex.Attached(old(Ix()), Ix(), arena, n, element, CoverIndex.AboveRoot(level))
    {
      hide LevelsFall, ChildrenOk, ParentsOk, Power, PowerUp;
      var root := rootIdx.value;
      n := AllocateNode(element, level);
      nodes := nodes[n := nodes[n].(children := nodes[n].children + [root])];
      arena := nodes;
      nodes := nodes[root := nodes[root].(parent := Some(n))];
      rootIdx, elemToNode, above := Some(n), elemToNode[element := n], RootAdded(Forest(arena, above), arena, n, root).above;
    }

    /** A new leaf below `p`. */
    method AttachLeaf(element: nat, level: int, p: nat) returns (n: nat, ghost arena: seq<Node>)
      requires CoverIndex.Slots(Ix()) && rootIdx.Some? && p in above
      modifies `nodes, `freeNodes, `elemToNode, `above
      ensures CoverIndex.Attached(old(Ix()), Ix(), arena, n, element, CoverIndex.Below(p, level))
    {
      hide LevelsFall, ChildrenOk, ParentsOk, Power, PowerUp;
      n := AllocateNode(element, level);
      nodes := nodes[n := nodes[n].(parent := Some(p))];
      arena := nodes;
      nodes := nodes[p := nodes[p].(children := nodes[p].children + [n])];
      elemToNode, above := elemToNode[element := n], above[n := above[p] + {p}];
    }

    /** The new node goes where it was chosen to. */
    method Attach(element: nat, place: CoverIndex.Place, ghost minCover: real) returns (n: nat, ghost arena: seq<Node>)
      requires CoverIndex.Slots(Ix()) && CoverIndex.Chosen(Keyed(), Ix(), element, place, minCover)
      modifies `nodes, `freeNodes, `elemToNode, `rootIdx, `above
      ensures CoverIndex.Attached(old(Ix()), Ix(), arena, n, element, place)
    {
      hide Shape, CoverIndex.Attached, CoverIndex.Slots, Power, PowerUp, Covering;
      match place
      case AboveRoot(level) => n, arena := AttachRoot(element, level);
      case Below(p, level) => n, arena := AttachLeaf(element, level, p);
    }

    /** `_insert_into_tree` */
    method InsertIntoTree(element: nat, ghost pending: set<nat>, ghost top: Option<nat>) returns (n: nat)
      requires CoverIndex.Ready(Keyed(), Ix(), element, pending, top)
      modifies `nodes, `freeNodes, `elemToNode, `rootIdx, `above
      ensures CoverIndex.Inserted(Keyed(), old(Ix()), Ix(), element, n, pending, top)
    {
      CoverIndex.ReadySlots(Keyed(), Ix(), element, pending, top);
      if rootIdx == None {
        n := AttachFirst(element);
        CoverIndex.FirstAddedCore(Keyed(), old(Ix()), nodes, freeNodes, n, element, pending, top);
      } else {
        hide CoverIndex.Ready, CoverIndex.Inserted, CoverIndex.Chosen, CoverIndex.Attached, CoverIndex.Slots, Power, PowerUp;
        ghost var minCover, arena;
        var place;
        place, minCover := ChoosePlace(Space(keys, dist), nodes, Ix(), element, rootIdx.value);
        n, arena := Attach(element, place, minCover);
        CoverIndex.AttachInserts(Keyed(), old(Ix()), Ix(), arena, n, element, place, minCover, pending, top);
      }
    }

    /** The elements of a detached subtree, its nodes freed. */
    method CollectSubtree(c: nat, ghost line: seq<nat>, ghost others: seq<nat>, ghost gap: Gap) returns (elements: seq<nat>)
      requires Repairing(Keyed(), Ix(), line, [c] + others) && Edges(Keyed(), Tree(), line, [c] + others, gap)
      modifies `freeNodes, `elemToNode, `above
      ensures Reinserting(Keyed(), Ix(), line, others, elements, 0, old(elemToNode.Keys)) && Edges(Keyed(), Tree(), line, others, gap)
    {
      hide Edges, Repairing, Reinserting, Collecting, Shape, Members, DropTree, NoDup, CoverIndex.Placed, Taken;
      ghost var s, ix := Keyed(), Ix();
      RepairFacts(s, ix, line, c, others);
      CollectStart(ix, c);
      elements := [];
      var stack := [c];
      ghost var seen: set<nat> := {};
      while stack != []
        invariant above == ix.forest.above
        invariant Collecting(ix, c, seen, stack, elements, freeNodes, elemToNode)
        decreases ix.forest.above.Keys - seen
      {
        var nidx, rest := stack[|stack| - 1], stack[..|stack| - 1];
        assert stack == rest + [nidx];
        CollectKnown(ix, c, seen, rest, nidx, elements, freeNodes, elemToNode);
        CollectStep(ix, c, seen, rest, nidx, elements, freeNodes, elemToNode);
        var n := nodes[nidx];
        stack, elements := rest + n.children, elements + [n.element];
        elemToNode := elemToNode - {n.element};
        freeNodes, seen := freeNodes + {nidx}, seen + {nidx};
      }
      Collected(s, ix, line, c, others, seen, elements, freeNodes, elemToNode);
      TakenEdges(s, ix.forest, line, c, others, gap);
      above := Taken(ix, c, freeNodes, elemToNode).forest.above;
      assert Ix() == Taken(ix, c, freeNodes, elemToNode);
    }

    /** `_reinsert_subtree` */
    method ReinsertSubtree(c: nat, ghost line: seq<nat>, ghost others: seq<nat>, ghost gap: Gap)
      requires Repairing(Keyed(), Ix(), line, [c] + others) && Edges(Keyed(), Tree(), line, [c] + others, gap)
      modifies `nodes, `freeNodes, `elemToNode, `rootIdx, `above
      ensures Repairing(Keyed(), Ix(), line, others) && elemToNode.Keys == old(elemToNode.Keys) && Edges(Keyed(), Tree(), line, others, gap)
    {
      hide Edges, Repairing, Reinserting, CoverIndex.Ready, CoverIndex.Inserted, Members, Top;
      ghost var s, held := Keyed(), elemToNode.Keys;
      var elements := CollectSubtree(c, line, others, gap);
      var i := 0;
      while i < |elements|
        invariant i <= |elements| && Reinserting(s, Ix(), line, others, elements, i, held) && Edges(s, Tree(), line, others, gap)
      {
        ghost var ix := Ix();
        NextReady(s, ix, line, others, elements, i, held);
        var n := InsertIntoTree(elements[i], Members(line), Top(line));
        NextReinserted(s, ix, Ix(), n, line, others, elements, i, held);
        NextEdges(s, ix, Ix(), n, line, others, elements, i, held, gap);
        i := i + 1;
      }
      AllReinserted(s, Ix(), line, others, elements, held);
    }

    /** Elements move up from the nearest child, again and again, until a leaf is free to go. */
    method SwapDown(start: nat) returns (path: seq<nat>, leaf: nat)
      requires Descending(Keyed(), Ix(), [], start)
      modifies `nodes, `elemToNode
      ensures AtLeaf(Keyed(), Ix(), path, leaf) && elemToNode.Keys == old(elemToNode.Keys)
      ensures MovedUp(Keyed(), old(Tree()), Tree(), start, path, leaf)
    {
      hide Descending, MovedUp, NearestOf, Power, PowerUp;
      ghost var f := Tree();
      path, leaf := [], start;
      DescentKnown(Keyed(), Ix(), path, leaf);
      NothingMoved(Keyed(), f, start);
      while nodes[leaf].children != []
        invariant Descending(Keyed(), Ix(), path, leaf) && elemToNode.Keys == old(elemToNode.Keys)
        invariant leaf < |nodes| && leaf in above && |nodes| == |f.nodes| && MovedUp(Keyed(), f, Tree(), start, path, leaf)
        decreases above.Keys - above[leaf]
      {
        ghost var ix := Ix();
        DescentKnown(Keyed(), ix, path, leaf);
        DescentFresh(Keyed(), ix, path, leaf);
        var node := nodes[leaf];
        var child := NearestCandidate(Space(keys, dist), nodes, node.element, node.children);
        var replacement := nodes[child].element;
        nodes := nodes[leaf := node.(element := replacement)];
        elemToNode := elemToNode[replacement := leaf];
        DescentNext(Keyed(), ix, Ix(), path, leaf, child);
        MovedNext(Keyed(), f, ix.forest, start, path, leaf, child);
        path, leaf := path + [leaf], child;
        DescentKnown(Keyed(), Ix(), path, leaf);
      }
    }

    /** The leaf is taken from its parent and freed. */
    method DropLeaf(ghost path: seq<nat>, leaf: nat, ghost gap: Gap)
      requires AtLeaf(Keyed(), Ix(), path, leaf) && Edges(Keyed(), Tree(), path, [], gap) && (gap.Open? ==> path != [])
      modifies `nodes, `freeNodes, `rootIdx, `above
      ensures Repairing(Keyed(), Ix(), path, []) && Edges(Keyed(), Tree(), path, [], gap)
    {
      hide Edges, AtLeaf, Repairing, LeafDropped, LastDropped, NoDup, Power, PowerUp;
      ghost var ix := Ix();
      LeafParent(Keyed(), ix, path, leaf);
      var parent := nodes[leaf].parent;
      if parent.Some? {
        var p := parent.value;
        var children := nodes[p].children;
        var i := 0;
        while children[i] != leaf
          invariant 0 <= i < |children| && forall j | 0 <= j < i :: children[j] != leaf
          decreases |children| - i
        {
          i := i + 1;
        }
        LeafCut(Keyed(), ix, path, leaf, p, i);
        LeafEdges(Keyed(), ix, path, leaf, p, i, gap);
        nodes := nodes[p := nodes[p].(children := children[..i] + children[i + 1..])];
        freeNodes, above := freeNodes + {leaf}, LeafDropped(ix, leaf, p, Without(children, i)).forest.above;
      } else {
        LastCut(Keyed(), ix, leaf);
        LastEdges(Keyed(), ix, leaf, gap);
        rootIdx, freeNodes, above := None, freeNodes + {leaf}, LastDropped(ix, leaf).forest.above;
      }
    }

    /** A node whose element was swapped drops the children that it no longer covers. */
    method DropUncovered(v: nat, ghost rest: seq<nat>, ghost gap: Gap) returns (toReinsert: seq<nat>)
      requires Repairing(Keyed(), Ix(), rest + [v], []) && Edges(Keyed(), Tree(), rest + [v], [], gap)
      modifies `nodes, `above
      ensures Repairing(Keyed(), Ix(), rest, toReinsert) && Edges(Keyed(), Tree(), rest, toReinsert, gap)
      ensures v < |nodes| == |old(nodes)| && nodes[v].element == old(nodes)[v].element && nodes[v].level == old(nodes)[v].level
      ensures forall c :: c in toReinsert <==> c in old(nodes)[v].children && c < |nodes| && !Covers(Keyed(), old(nodes), v, c)
      ensures forall c :: c in nodes[v].children <==> c in old(nodes)[v].children && c < |nodes| && Covers(Keyed(), old(nodes), v, c)
    {
      hide Edges, Repairing, WithChildren, Selected, Covers, Power, PowerUp;
      ghost var ix := Ix();
      Rechecked(Keyed(), ix, rest, v);
      RecheckedEdges(Keyed(), ix, rest, v, gap);
      var kept;
      kept, toReinsert := SplitChildren(Space(keys, dist), nodes, v);
      nodes := nodes[v := nodes[v].(children := kept)];
      above := WithChildren(ix, v, kept).forest.above;
    }

    /** `_remove_from_tree`. From a covered index the removal leaves a covered one if and only if the parent of the element's
        node, if any, covers the element that moves up. */
    method RemoveFromTree(idx: nat)
      requires CoverIndex.Settled(Keyed(), Ix())
      modifies `nodes, `freeNodes, `elemToNode, `rootIdx, `above
      ensures CoverIndex.Settled(Keyed(), Ix()) && elemToNode.Keys == old(elemToNode.Keys) - {idx}
      ensures idx !in old(elemToNode) ==> Ix() == old(Ix())
      ensures idx in old(elemToNode) && old(EdgesCovered(Keyed(), Tree())) ==>
                (EdgesCovered(Keyed(), Tree()) <==> StaysCovered(Keyed(), old(nodes), old(elemToNode)[idx]))
    {
      hide CoverIndex.Settled, Repairing, Descending, AtLeaf, MovedUp, Edges, EdgesCovered, StaysCovered, Power, PowerUp;
      if idx !in elemToNode { return; }
      ghost var ix := Ix();
      DescentStart(Keyed(), ix, idx);
      var start := elemToNode[idx];
      elemToNode := elemToNode - {idx};
      ghost var held := elemToNode.Keys;
      var path, leaf := SwapDown(start);
      ghost var gap := if EdgesCovered(Keyed(), ix.forest) then GapAt(Keyed(), ix.forest.nodes, start) else Untracked;
      StartEdges(Keyed(), ix, Ix(), idx, path, leaf, gap);
      DropLeaf(path, leaf, gap);
      var i := |path|;
      assert path[..i] == path;
      while i > 0
        invariant 0 <= i <= |path| && Repairing(Keyed(), Ix(), path[..i], []) && elemToNode.Keys == held
        invariant Edges(Keyed(), Tree(), path[..i], [], gap)
      {
        i := i - 1;
        assert path[..i + 1] == path[..i] + [path[i]];
        var toReinsert := DropUncovered(path[i], path[..i], gap);
        ReinsertAll(toReinsert, path[..i], gap);
      }
      assert path[..0] == [];
      Repaired(Keyed(), Ix());
      if !gap.Untracked? { EdgesDone(Keyed(), Tree(), gap); }
    }

    /** Every detached subtree goes back in, element by element. */
    method ReinsertAll(toReinsert: seq<nat>, ghost line: seq<nat>, ghost gap: Gap)
      requires Repairing(Keyed(), Ix(), line, toReinsert) && Edges(Keyed(), Tree(), line, toReinsert, gap)
      modifies `nodes, `freeNodes, `elemToNode, `rootIdx, `above
      ensures Repairing(Keyed(), Ix(), line, []) && elemToNode.Keys == old(elemToNode.Keys) && Edges(Keyed(), Tree(), line, [], gap)
    {
      hide Repairing, Edges;
      var j := 0;
      assert toReinsert[0..] == toReinsert;
      while j < |toReinsert|
        invariant 0 <= j <= |toReinsert| && Repairing(Keyed(), Ix(), line, toReinsert[j..]) && elemToNode.Keys == old(elemToNode.Keys)
        invariant Edges(Keyed(), Tree(), line, toReinsert[j..], gap)
      {
        assert toReinsert[j..] == [toReinsert[j]] + toReinsert[j + 1..];
        ReinsertSubtree(toReinsert[j], line, toReinsert[j + 1..], gap);
        j := j + 1;
      }
      assert toReinsert[j..] == [];
    }

    method Insert(key: P, val: V) returns (id: nat)
      requires Valid()
      modifies this
      ensures Valid() && id !in old(Live()) && Live() == old(Live()) + {id}
      ensures |old(keys)| <= |keys| && keys[id] == key && values[id] == val
      ensures forall i | i in old(Live()) :: keys[i] == old(keys[i]) && values[i] == old(values[i])
      ensures old(EdgesCovered(Keyed(), Tree())) ==> EdgesCovered(Keyed(), Tree())
    {
      hide CoverIndex.Settled, CoverIndex.Loose, CoverIndex.Insertion, EdgesCovered, Power, PowerUp;
      ghost var s, ix := Keyed(), Ix();
      if freeIdx != {} {
        id :| id in freeIdx;
        freeIdx := freeIdx - {id};
        keys, values := keys[id := key], values[id := val];
      } else {
        keys, values := keys + [key], values + [val];
        id := |keys| - 1;
      }
      KeysChanged(s, Keyed(), ix);
      SettledReady(Keyed(), Ix(), id);
      var n := InsertIntoTree(id, {}, None);
      InsertedSettled(Keyed(), ix, Ix(), id, n);
      if EdgesCovered(s, ix.forest) {
        KeysChangedEdges(s, Keyed(), ix);
        InsertCovers(Keyed(), ix, Ix(), id, n);
      }
    }

    /** `VecDBElement.remove`; removing an element again changes nothing. */
    method Remove(idx: nat)
      requires Valid() && idx < |keys|
      modifies `freeIdx, `nodes, `freeNodes, `elemToNode, `rootIdx, `above
      ensures Valid() && Live() == old(Live()) - {idx}
      ensures idx !in old(Live()) ==> Ix() == old(Ix())
      ensures idx in old(Live()) && old(EdgesCovered(Keyed(), Tree())) ==>
                (EdgesCovered(Keyed(), Tree()) <==> StaysCovered(Keyed(), old(nodes), old(elemToNode)[idx]))
    {
      hide CoverIndex.Settled, EdgesCovered, StaysCovered, Power, PowerUp;
      RemoveFromTree(idx);
      freeIdx := freeIdx + {idx};
    }

    /** The nearest `k` live elements, nearest first: the same distances as a scan of all live elements. */
    method Knn(v: P, k: int) returns (results: seq<Hit>)
      requires Valid()
      ensures |results| == if k <= 0 then 0 else if k <= |Live()| then k else |Live()|
      ensures forall h | h in results :: h.id in Live() && h.id < |keys| && h.dist == dist(keys[h.id], v)
      ensures forall i, j | 0 <= i < j < |results| ::
                results[i].id != results[j].id
                && (results[i].dist < results[j].dist || (results[i].dist == results[j].dist && results[i].id < results[j].id))
      ensures forall h, e | h in results && e in Live() && e < |keys| && (forall g | g in results :: g.id != e) :: h.dist <= dist(keys[e], v)
      ensures k > 0 ==> Dists(results) == Dists(LinearScan(Live(), Query(Keyed(), v), |keys|, k))
    {
      hide CoverIndex.Settled, Query, Nearest, Sorted, Best, Dists, LinearScan, Power, PowerUp;
      if k <= 0 { return []; }
      ghost var ix, q := Ix(), Query(Keyed(), v);
      var best: seq<Hit> := [];
      if rootIdx == None {
        NoRoot(Keyed(), ix);
        NothingFound(q, k);
      } else {
        best := Search(Space(keys, dist), nodes, freeNodes, freeIdx, ix, rootIdx.value, v, k);
      }
      results := SortBy(ResultOrder, best);
      ResultsAreScan(best, Live(), q, |keys|, k);
      NearestMeans(Keyed(), v, results, Live(), k);
      SortedMeans(results);
    }
  }

  /** Above the root when the root does not cover the new element, and below a covering node otherwise. */
  method ChoosePlace<P(!new)>(s: Space<P>, nodes: seq<Node>, ghost ix: CoverIndex.Index, element: nat, root: nat)
    returns (place: CoverIndex.Place, ghost minCover: real)
    requires CoverIndex.Slots(ix) && nodes == ix.forest.nodes && ix.root == Some(root)
    requires s.D(element, nodes[root].element) <= TopReach()
    ensures CoverIndex.Chosen(s, ix, element, place, minCover)
    ensures place.AboveRoot? <==> s.D(element, nodes[root].element) > Power(nodes[root].level)
    ensures place.AboveRoot? && place.level > nodes[root].level + 1 ==> Power(place.level - 1) < s.D(element, nodes[root].element)
    ensures place.Below? ==>
              && DeepestMet(s, ix.forest, root, element, place.parent) && LeastMet(s, ix.forest, root, element, minCover)
              && place.parent < |nodes| && place.level == Clamp(LevelForDist(minCover), nodes[place.parent].level - 1)
  {
    hide DeepestMet, LeastMet, LevelsFall, ChildrenOk, ParentsOk, Covering, Power, PowerUp, TopReach, CoverIndex.FreeSlots;
    var rootDist := s.D(element, nodes[root].element);
    if rootDist > Power(nodes[root].level) {
      var neededLevel := NeededLevel(rootDist, nodes[root].level);
      place, minCover := CoverIndex.AboveRoot(neededLevel), 0.0;
    } else {
      var nearest, newLevel;
      nearest, newLevel, minCover := ChooseLeaf(s, nodes, ix.forest.above, element, root, rootDist);
      place := CoverIndex.Below(nearest, newLevel);
    }
  }

  /** The level that lets a new root reach the old one. */
  method NeededLevel(rootDist: real, rootLevel: int) returns (needed: int)
    requires Power(rootLevel) < rootDist <= TopReach()
    ensures rootLevel < needed <= MAX_LEVEL && rootDist <= Power(needed)
    ensures needed > rootLevel + 1 ==> Power(needed - 1) < rootDist
  {
    hide Power, PowerUp;
    needed := CeilLog(rootDist);
    if rootLevel >= MAX_LEVEL { PowerMonotone(MAX_LEVEL, rootLevel); }
    if needed > MAX_LEVEL { PowerMonotone(MAX_LEVEL, needed - 1); }
    if needed < rootLevel + 1 {
      PowerMonotone(needed, rootLevel + 1);
      needed := rootLevel + 1;
    }
    if needed > MAX_LEVEL { needed := MAX_LEVEL; }
  }

  /** The parent and level of a new leaf: below the nearest of the deepest covering nodes, at the largest level that
      separates it from every covering node met, if that is below the parent's. */
  method ChooseLeaf<P(!new)>(s: Space<P>, nodes: seq<Node>, ghost above: map<nat, set<nat>>, element: nat, root: nat, rootDist: real)
    returns (nearest: nat, level: int, ghost minCover: real)
    requires Shape(Forest(nodes, above)) && CoverIndex.Rooted(Forest(nodes, above), Some(root))
    requires rootDist == s.D(element, nodes[root].element) <= Power(nodes[root].level)
    ensures nearest in above && nearest < |nodes| && level < nodes[nearest].level && Covering(s, Forest(nodes, above), root, element, [nearest], minCover)
    ensures DeepestMet(s, Forest(nodes, above), root, element, nearest) && LeastMet(s, Forest(nodes, above), root, element, minCover)
    ensures level == Clamp(LevelForDist(minCover), nodes[nearest].level - 1) && (level > MIN_LEVEL ==> Power(level) < minCover)
  {
    hide Shape, Covering, DeepestMet, LeastMet, Power, PowerUp;
    var met;
    nearest, met := DescendToParent(s, nodes, above, element, root, rootDist);
    minCover := met;
    level := LevelForDist(met);
    if level > nodes[nearest].level - 1 { level := nodes[nearest].level - 1; }
    if level < MIN_LEVEL { level := MIN_LEVEL; }
    if level > MIN_LEVEL { PowerMonotone(level, LevelForDist(met)); }
  }

  function Clamp(level: int, cap: int): int {
    var m := if level > cap then cap else level;
    if m < MIN_LEVEL then MIN_LEVEL else m
  }

  /** The nearest of the deepest covering nodes, and the smallest distance to any covering node met. */
  method DescendToParent<P(!new)>(s: Space<P>, nodes: seq<Node>, ghost above: map<nat, set<nat>>, element: nat, root: nat, rootDist: real)
    returns (nearest: nat, minCover: real)
    requires Shape(Forest(nodes, above)) && CoverIndex.Rooted(Forest(nodes, above), Some(root))
    requires rootDist == s.D(element, nodes[root].element) <= Power(nodes[root].level)
    ensures nearest in above && nearest < |nodes| && nodes[nearest].level > MIN_LEVEL && Covering(s, Forest(nodes, above), root, element, [nearest], minCover)
    ensures DeepestMet(s, Forest(nodes, above), root, element, nearest) && LeastMet(s, Forest(nodes, above), root, element, minCover)
  {
    hide Power, PowerUp, LevelsFall, ChildrenOk, ParentsOk, NextCandidates, NearestMet, Round, DeepestMet, LeastMet;
    ghost var f := Forest(nodes, above);
    var candidates := [root];
    minCover := rootDist;
    ghost var bound := nodes[root].level;
    ghost var k, closest: nat := 0, root;
    FirstRound(s, f, root, element);
    while true
      invariant candidates != [] && Covering(s, f, root, element, candidates, minCover)
      invariant Round(s, f, root, element, candidates, k, minCover, closest)
      invariant forall c | c in candidates :: f.nodes[c].level <= bound
      decreases bound - MIN_LEVEL
    {
      assert forall i | 0 <= i < |candidates| :: candidates[i] in candidates;
      assert f.nodes[candidates[0]].level <= bound;
      ChildrenKnown(f, candidates);
      var nextCovering, nearer := NextCovering(s, nodes, above, element, candidates, minCover);
      Descend(s, f, root, element, candidates, minCover, bound);
      ghost var closest' := NextRound(s, f, root, element, candidates, nextCovering, k, minCover, closest);
      if nextCovering == [] {
        NoneAtNext(s, f, root, element, k + 1, nearer, closest');
        break;
      }
      assert nextCovering[0] in nextCovering;
      candidates, minCover, bound, k, closest := nextCovering, nearer, bound - 1, k + 1, closest';
    }
    assert forall i | 0 <= i < |candidates| :: candidates[i] in candidates;
    nearest := NearestCandidate(s, nodes, element, candidates);
    ghost var first := NearestIsFirst(s, nodes, element, candidates);
    LastRound(s, f, root, element, candidates, k, minCover, closest, nearest);
  }

  /** One round of the descent: the children of the candidates that cover the new element. */
  method NextCovering<P(!new)>(s: Space<P>, nodes: seq<Node>, ghost above: map<nat, set<nat>>, element: nat, candidates: seq<nat>, minCover: real)
    returns (covering: seq<nat>, minCover': real)
    requires ChildrenInRange(nodes, candidates)
    ensures covering == NextCandidates(s, Forest(nodes, above), element, candidates)
    ensures forall i | 0 <= i < |covering| :: covering[i] < |nodes|
    ensures minCover' == NearestMet(s, Forest(nodes, above), element, covering, minCover)
  {
    ghost var f := Forest(nodes, above);
    covering, minCover' := [], minCover;
    var i := 0;
    while i < |candidates|
      invariant 0 <= i <= |candidates|
      invariant covering == NextCandidates(s, f, element, candidates[..i])
      invariant forall j | 0 <= j < |covering| :: covering[j] < |nodes|
      invariant minCover' == NearestMet(s, f, element, covering, minCover)
    {
      covering, minCover' := CoveringAmong(s, nodes, above, element, nodes[candidates[i]].children, covering, minCover, minCover');
      assert candidates[..i + 1][..i] == candidates[..i];
      i := i + 1;
    }
    assert candidates[..i] == candidates;
  }

  lemma {:induction false} ChildrenKnown(f: Forest, candidates: seq<nat>)
    requires Shape(f) && forall i | 0 <= i < |candidates| :: candidates[i] in f.above
    ensures ChildrenInRange(f.nodes, candidates)
  {
    forall i, j | 0 <= i < |candidates| && 0 <= j < |f.nodes[candidates[i]].children|
      ensures f.nodes[candidates[i]].children[j] < |f.nodes|
    {
      assert IsChild(f, candidates[i], f.nodes[candidates[i]].children[j]);
    }
  }

  ghost predicate ChildrenInRange(nodes: seq<Node>, candidates: seq<nat>) {
    forall i | 0 <= i < |candidates| ::
      candidates[i] < |nodes| && forall j | 0 <= j < |nodes[candidates[i]].children| :: nodes[candidates[i]].children[j] < |nodes|
  }

  method CoveringAmong<P(!new)>(s: Space<P>, nodes: seq<Node>, ghost above: map<nat, set<nat>>, element: nat, children: seq<nat>, met: seq<nat>,
                                ghost start: real, minCover: real) returns (covering: seq<nat>, minCover': real)
    requires (forall i | 0 <= i < |met| :: met[i] < |nodes|) && forall i | 0 <= i < |children| :: children[i] < |nodes|
    requires minCover == NearestMet(s, Forest(nodes, above), element, met, start)
    ensures covering == met + CandidatesAmong(s, Forest(nodes, above), element, children)
    ensures forall i | 0 <= i < |covering| :: covering[i] < |nodes|
    ensures minCover' == NearestMet(s, Forest(nodes, above), element, covering, start)
  {
    ghost var f := Forest(nodes, above);
    CandidatesStart(s, f, element);
    hide Power, PowerUp, NearestMet, CandidatesAmong;
    covering, minCover' := met, minCover;
    var i := 0;
    while i < |children|
      invariant 0 <= i <= |children|
      invariant covering == met + CandidatesAmong(s, f, element, children[..i])
      invariant forall j | 0 <= j < |covering| :: covering[j] < |nodes|
      invariant minCover' == NearestMet(s, f, element, covering, start)
    {
      var child := children[i];
      assert children[..i + 1] == children[..i] + [child];
      CandidatesStep(s, f, element, children[..i], child, covering, start);
      if nodes[child].level > MIN_LEVEL {
        var d := s.D(element, nodes[child].element);
        if d <= Power(nodes[child].level) {
          covering := covering + [child];
          if d < minCover' { minCover' := d; }
        }
      }
      i := i + 1;
    }
    assert children[..i] == children;
  }

  /** The candidate nearest to the new element, the first of several. */
  method NearestCandidate<P(!new)>(s: Space<P>, nodes: seq<Node>, element: nat, candidates: seq<nat>) returns (nearest: nat)
    requires candidates != [] && forall i | 0 <= i < |candidates| :: candidates[i] < |nodes|
    ensures nearest == NearestOf(s, nodes, element, candidates)
  {
    nearest := candidates[0];
    var i := 1;
    while i < |candidates|
      invariant 1 <= i <= |candidates| && nearest == NearestOf(s, nodes, element, candidates[..i])
      invariant nearest < |nodes|
    {
      assert candidates[..i + 1][..i] == candidates[..i];
      if s.D(element, nodes[candidates[i]].element) < s.D(element, nodes[nearest].element) { nearest := candidates[i]; }
      i := i + 1;
    }
    assert candidates[..i] == candidates;
  }

  /** The children that node `v` still covers, and those to be reinserted. */
  method SplitChildren<P(!new)>(s: Space<P>, nodes: seq<Node>, v: nat) returns (kept: seq<nat>, toReinsert: seq<nat>)
    requires v < |nodes| && forall i | 0 <= i < |nodes[v].children| :: nodes[v].children[i] < |nodes|
    ensures kept == Selected(s, nodes, v, nodes[v].children, true)
    ensures toReinsert == Selected(s, nodes, v, nodes[v].children, false)
  {
    ghost var children := nodes[v].children;
    kept, toReinsert := nodes[v].children, [];
    hide Power, PowerUp;
    var i := 0;
    ghost var k := 0;
    while i < |kept|
      invariant 0 <= i <= |kept| && 0 <= k <= |children| && kept[i..] == children[k..]
      invariant kept[..i] == Selected(s, nodes, v, children[..k], true)
      invariant toReinsert == Selected(s, nodes, v, children[..k], false)
      decreases |children| - k
    {
      var child := kept[i];
      assert child == kept[i..][0] == children[k..][0] == children[k];
      SelectedStep(s, nodes, v, children, k, true);
      SelectedStep(s, nodes, v, children, k, false);
      if s.D(nodes[v].element, nodes[child].element) > Power(nodes[v].level) {
        toReinsert := toReinsert + [child];
        kept := kept[..i] + kept[i + 1..];
      } else {
        i := i + 1;
      }
      k := k + 1;
    }
    assert children[..k] == children && kept[..i] == kept;
  }

  /** The depth-first search: the closest child first, subtrees that cannot matter left out. */
  method Search<P(!new)>(s: Space<P>, nodes: seq<Node>, freeNodes: set<nat>, freeIdx: set<nat>, ghost ix: CoverIndex.Index, root: nat, v: P, k: nat)
    returns (best: seq<Hit>)
    requires CoverIndex.Settled(s, ix) && nodes == ix.forest.nodes && freeNodes == ix.free && ix.root == Some(root) && k > 0
    requires ix.at.Keys !! freeIdx
    ensures Best(best, ix.at.Keys, Query(s, v), k)
    ensures |best| == if k <= |ix.at.Keys| then k else |ix.at.Keys|
    ensures forall h | h in best :: h.id in ix.at && h.id < |s.keys| && h.dist == s.dist(s.keys[h.id], v)
    ensures forall h, e | h in best && e in ix.at && e < |s.keys| && (forall g | g in best :: g.id != e) :: h.dist <= s.dist(s.keys[e], v)
  {
    hide CoverIndex.Settled, InSearch, Query, Best, Offer, Pushed, Power, PowerUp;
    best := [];
    SearchFirst(s, ix, v, k, root);
    var stack := [Hit(Query(s, v)(nodes[root].element), root)];
    ghost var seen: set<nat>, cut: set<nat>, offered: set<nat> := {}, {}, {};
    while stack != []
      invariant InSearch(s, ix, v, k, root, seen, stack, cut, offered, best)
      decreases ix.forest.above.Keys - seen
    {
      var top, rest := stack[|stack| - 1], stack[..|stack| - 1];
      assert stack == rest + [top];
      TopKnown(s, ix, v, k, root, seen, rest, top, cut, offered, best);
      var pushed: seq<Hit> := [];
      if top.id !in freeNodes {
        var node := nodes[top.id];
        ghost var was := best;
        if node.element !in freeIdx {
          best := Offer(best, k, Hit(top.dist, node.element));
        }
        pushed := WorthVisiting(s, nodes, v, best, k, node.children);
        cut := SearchRound(s, ix, v, k, root, seen, rest, top, cut, offered, was, best, pushed);
        offered := offered + {node.element};
      }
      stack, seen := rest + pushed, seen + {top.id};
    }
    SearchDone(s, ix, v, k, root, seen, cut, offered, best);
    IndexedKeys(s, ix);
    BestIsNearest(best, ix.at.Keys, Query(s, v), k);
    NearestMeans(s, v, best, ix.at.Keys, k);
  }
}
