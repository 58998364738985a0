/** The pruned search: whatever is below a node that was left out is no nearer than the farthest candidate kept
    (runners/genlayer-py-std/src-emb/genlayer_embeddings/vecdb.py:443-508). */
module CoverSearch {
  import opened Collections
  import opened Wrappers
  import opened CoverLevels
  import opened CoverForest
  import opened CoverBound
  import opened CoverWalk
  import opened CoverIndex
  import opened KNearest

  /** `_distance_to_point`, by element id. */
  function Query<P(!new)>(s: Space<P>, v: P): nat -> real {
    (e: nat) => if e < |s.keys| then s.dist(s.keys[e], v) else 0.0
  }

  /** The node ids of a stack. */
  function NodesOf(stack: seq<Hit>): (r: seq<nat>)
    ensures |r| == |stack|
  {
    seq(|stack|, i requires 0 <= i < |stack| => stack[i].id)
  }

  /** The stack entries carry their nodes' distances. */
  ghost predicate Measures(f: Forest, q: nat -> real, stack: seq<Hit>) {
    forall h | h in stack :: h.id < |f.nodes| && h.dist == q(f.nodes[h.id].element)
  }

  /** All candidates are kept and at least as near as `d`. */
  ghost predicate FullWithin(best: seq<Hit>, k: nat, d: real) {
    |best| == k && k > 0 && best[0].dist <= d
  }

  /** Nothing below `c` is needed any more. */
  ghost predicate Pruned(f: Forest, q: nat -> real, k: nat, best: seq<Hit>, c: nat) {
    forall w: nat | w < |f.nodes| && Under(f, c, w) :: FullWithin(best, k, q(f.nodes[w].element))
  }

  /** The search in progress: the best of the elements of the seen nodes are kept. */
  ghost predicate Searching(ix: Index, q: nat -> real, k: nat, root: nat, seen: set<nat>, stack: seq<nat>, cut: set<nat>, offered: set<nat>, best: seq<Hit>) {
    && Walk(ix.forest, root, seen, stack, cut) && k > 0
    && (forall x | x in seen :: x < |ix.forest.nodes| && ix.forest.nodes[x].element in offered)
    && (forall e | e in offered :: e in ix.at && ix.at[e] in seen)
    && Best(best, offered, q, k)
    && (forall c | c in cut :: Pruned(ix.forest, q, k, best, c))
  }

  /** A child too far away for its bound: none of its descendants is needed. */
  lemma {:induction false} PruneChild<P(!new)>(s: Space<P>, f: Forest, v: P, k: nat, best: seq<Hit>, c: nat)
    requires s.Measured() && Stored(s, f) && Bound(s, f, {}, None) && c in f.above && |best| == k && k > 0
    requires Query(s, v)(f.nodes[c].element) - Radius(f.nodes[c].level) > best[0].dist
    ensures Pruned(f, Query(s, v), k, best, c)
  {
    forall w: nat | w < |f.nodes| && Under(f, c, w) ensures FullWithin(best, k, Query(s, v)(f.nodes[w].element)) {
      NoNearer(s, f, v, c, w);
    }
  }

  lemma {:induction false} NoNearer<P(!new)>(s: Space<P>, f: Forest, v: P, c: nat, w: nat)
    requires s.Measured() && Stored(s, f) && Bound(s, f, {}, None) && c in f.above && Under(f, c, w)
    ensures Query(s, v)(f.nodes[w].element) >= Query(s, v)(f.nodes[c].element) - Radius(f.nodes[c].level)
  {
    hide Radius;
    assert w == c || Within(s, f, c, w);
    assert Triangle(s.dist, s.keys[f.nodes[c].element], s.keys[f.nodes[w].element], v);
  }

  /** Keeping nearer candidates keeps what was pruned pruned. */
  lemma {:induction false} PrunedStill(f: Forest, q: nat -> real, k: nat, best: seq<Hit>, best': seq<Hit>, c: nat)
    requires Pruned(f, q, k, best, c)
    requires |best| == k && k > 0 ==> |best'| == k && best'[0].dist <= best[0].dist
    ensures Pruned(f, q, k, best', c)
  {
    forall w: nat | w < |f.nodes| && Under(f, c, w) ensures FullWithin(best', k, q(f.nodes[w].element)) {
      assert FullWithin(best, k, q(f.nodes[w].element));
    }
  }

  lemma {:induction false} SearchStart(ix: Index, q: nat -> real, k: nat, root: nat)
    requires Shape(ix.forest) && root in ix.forest.above && ix.forest.above[root] == {} && k > 0
    ensures Searching(ix, q, k, root, {}, [root], {}, {}, [])
  {
    WalkStart(ix.forest, root);
    hide Walk;
  }

  /** A node is popped and offered. */
  ghost function Offered(ix: Index, q: nat -> real, k: nat, best: seq<Hit>, x: nat): seq<Hit>
    requires x < |ix.forest.nodes| && k > 0
  {
    var e := ix.forest.nodes[x].element;
    Offer(best, k, Hit(q(e), e))
  }

  lemma {:induction false} SearchKnown(ix: Index, q: nat -> real, k: nat, root: nat, seen: set<nat>, rest: seq<nat>, x: nat, cut: set<nat>, offered: set<nat>, best: seq<Hit>)
    requires Searching(ix, q, k, root, seen, rest + [x], cut, offered, best) && Placed(ix.forest, ix.at) && FreeSlots(ix.forest, ix.free)
    ensures x in ix.forest.above && x < |ix.forest.nodes| && x !in ix.free && x !in seen
    ensures ix.forest.nodes[x].element !in offered && ix.forest.nodes[x].element in ix.at && NoDup(ix.forest.nodes[x].children)
    ensures forall c | c in ix.forest.nodes[x].children :: c < |ix.forest.nodes| && c in ix.forest.above
  {
    hide LevelsFall, ParentsOk;
    assert x in rest + [x];
    forall c | c in ix.forest.nodes[x].children ensures c in ix.forest.above { ChildOf(ix.forest, x, c); }
  }

  /** One round: `x` offered, some of its children pushed, the others pruned. */
  lemma {:induction false} SearchStep(ix: Index, q: nat -> real, k: nat, root: nat, seen: set<nat>, rest: seq<nat>, x: nat, cut: set<nat>, offered: set<nat>, best: seq<Hit>,
                                      best': seq<Hit>, pushed: seq<nat>, cut': set<nat>)
    requires Searching(ix, q, k, root, seen, rest + [x], cut, offered, best)
    requires x in ix.forest.above && x < |ix.forest.nodes| && ix.forest.nodes[x].element !in offered
    requires ix.forest.nodes[x].element in ix.at && ix.at[ix.forest.nodes[x].element] == x
    requires best' == Offered(ix, q, k, best, x)
    requires NoDup(pushed) && forall c | c in pushed :: c in ix.forest.nodes[x].children
    requires cut' == cut + set c | c in ix.forest.nodes[x].children && c !in pushed
    requires forall c | c in ix.forest.nodes[x].children && c !in pushed :: Pruned(ix.forest, q, k, best', c)
    ensures Searching(ix, q, k, root, seen + {x}, rest + pushed, cut', offered + {ix.forest.nodes[x].element}, best')
  {
    hide LevelsFall, ChildrenOk, ParentsOk, NoDup, Walk, Best, Pruned, Offer, InRange;
    WalkStep(ix.forest, root, seen, rest, x, cut, pushed, cut');
    OfferBest(best, offered, q, k, ix.forest.nodes[x].element);
    OfferLength(best, offered, q, k, ix.forest.nodes[x].element);
    forall c | c in cut' ensures Pruned(ix.forest, q, k, best', c) {
      if c in cut { PrunedStill(ix.forest, q, k, best, best', c); }
    }
  }

  lemma {:induction false} OfferLength(best: seq<Hit>, offered: set<nat>, q: nat -> real, k: nat, e: nat)
    requires Best(best, offered, q, k) && k > 0 && e !in offered
    ensures |best| == k ==> |Offer(best, k, Hit(q(e), e))| == k
  {
    OfferBest(best, offered, q, k, e);
    SubsetSize(offered, offered + {e});
  }

  // --- the children worth visiting ---

  /** `child_dist - _max_descendant_dist(level) <= best_kth_dist()`, the latter infinite while there is room. */
  predicate Worth<P(!new)>(s: Space<P>, nodes: seq<Node>, v: P, best: seq<Hit>, k: nat, c: nat)
    requires c < |nodes|
  {
    |best| < k || best == [] || Query(s, v)(nodes[c].element) - Radius(nodes[c].level) <= best[0].dist
  }

  /** The children worth visiting, farthest first, with their distances. */
  ghost predicate Pushed<P(!new)>(s: Space<P>, nodes: seq<Node>, v: P, best: seq<Hit>, k: nat, children: seq<nat>, pushed: seq<Hit>)
    requires forall c | c in children :: c < |nodes|
  {
    && DistinctIds(pushed) && Sorted(FarthestFirst, pushed)
    && (forall h | h in pushed :: h.id in children && h.dist == Query(s, v)(nodes[h.id].element))
    && (forall c | c in children :: c in Ids(pushed) <==> Worth(s, nodes, v, best, k, c))
  }

  method WorthVisiting<P(!new)>(s: Space<P>, nodes: seq<Node>, v: P, best: seq<Hit>, k: nat, children: seq<nat>) returns (pushed: seq<Hit>)
    requires NoDup(children) && forall c | c in children :: c < |nodes|
    ensures Pushed(s, nodes, v, best, k, children, pushed)
  {
    hide Radius, Query, DistinctIds, Sorted, NoDup;
    var near: seq<Hit> := [];
    var i := 0;
    NoneNear(s, nodes, v, best, k, children);
    while i < |children|
      invariant 0 <= i <= |children| && Near(s, nodes, v, best, k, children, i, near)
    {
      var child := children[i];
      assert child in children;
      var dist := Query(s, v)(nodes[child].element);
      NearNext(s, nodes, v, best, k, children, i, near);
      if Worth(s, nodes, v, best, k, child) {
        near := near + [Hit(dist, child)];
      }
      i := i + 1;
    }
    pushed := SortBy(FarthestFirst, near);
    NearSorted(s, nodes, v, best, k, children, near);
  }

  /** Of the first `i` children those worth visiting are in `near`. */
  ghost predicate Near<P(!new)>(s: Space<P>, nodes: seq<Node>, v: P, best: seq<Hit>, k: nat, children: seq<nat>, i: nat, near: seq<Hit>)
    requires forall c | c in children :: c < |nodes|
  {
    && i <= |children| && DistinctIds(near)
    && (forall h | h in near :: h.id in children && h.dist == Query(s, v)(nodes[h.id].element))
    && (forall c | c in Ids(near) :: c in children[..i])
    && (forall j | 0 <= j < i :: children[j] in children && (children[j] in Ids(near) <==> Worth(s, nodes, v, best, k, children[j])))
  }

  lemma {:induction false} NoneNear<P(!new)>(s: Space<P>, nodes: seq<Node>, v: P, best: seq<Hit>, k: nat, children: seq<nat>)
    requires forall c | c in children :: c < |nodes|
    ensures Near(s, nodes, v, best, k, children, 0, [])
  {
  }

  lemma {:induction false} NearNext<P(!new)>(s: Space<P>, nodes: seq<Node>, v: P, best: seq<Hit>, k: nat, children: seq<nat>, i: nat, near: seq<Hit>)
    requires NoDup(children) && (forall c | c in children :: c < |nodes|) && i < |children| && Near(s, nodes, v, best, k, children, i, near)
    ensures children[i] in children && var near' := if Worth(s, nodes, v, best, k, children[i]) then near + [Hit(Query(s, v)(nodes[children[i]].element), children[i])] else near;
            Near(s, nodes, v, best, k, children, i + 1, near')
  {
    hide Query, Radius;
    var child := children[i];
    assert children[..i + 1] == children[..i] + [child] && child in children && child !in children[..i];
    IdsAppend(near, Hit(Query(s, v)(nodes[child].element), child));
    AppendDistinct(near, Hit(Query(s, v)(nodes[child].element), child));
  }

  lemma {:induction false} AppendDistinct(hits: seq<Hit>, x: Hit)
    requires DistinctIds(hits) && x.id !in Ids(hits)
    ensures DistinctIds(hits + [x])
  {
    assert forall h | h in hits :: h.id in Ids(hits);
  }

  lemma {:induction false} NearSorted<P(!new)>(s: Space<P>, nodes: seq<Node>, v: P, best: seq<Hit>, k: nat, children: seq<nat>, near: seq<Hit>)
    requires (forall c | c in children :: c < |nodes|) && Near(s, nodes, v, best, k, children, |children|, near)
    ensures Pushed(s, nodes, v, best, k, children, SortBy(FarthestFirst, near))
  {
    hide Query, Radius, DistinctIds, Sorted, Worth, SortBy, FarthestFirst;
    var pushed := SortBy(FarthestFirst, near);
    SortedFarthest(near);
    PermutedHits(near, pushed);
    assert forall h :: h in pushed <==> h in multiset(pushed);
    assert forall h :: h in near <==> h in multiset(near);
  }

  lemma {:induction false} SortedFarthest(near: seq<Hit>)
    ensures Sorted(FarthestFirst, SortBy(FarthestFirst, near)) && multiset(SortBy(FarthestFirst, near)) == multiset(near)
  {
    SortBySorted(FarthestFirst, near);
  }

  lemma {:induction false} NodesOfIds(stack: seq<Hit>)
    requires DistinctIds(stack)
    ensures NoDup(NodesOf(stack)) && forall c :: c in NodesOf(stack) <==> c in Ids(stack)
  {
    forall c | c in Ids(stack) ensures c in NodesOf(stack) {
      var h :| h in stack && h.id == c;
      var i :| 0 <= i < |stack| && stack[i] == h;
      assert NodesOf(stack)[i] == c;
    }
  }

  /** The search with its stack of nodes and distances. */
  ghost predicate InSearch<P(!new)>(s: Space<P>, ix: Index, v: P, k: nat, root: nat, seen: set<nat>, stack: seq<Hit>, cut: set<nat>, offered: set<nat>, best: seq<Hit>) {
    && Settled(s, ix) && ix.root == Some(root)
    && Searching(ix, Query(s, v), k, root, seen, NodesOf(stack), cut, offered, best) && Measures(ix.forest, Query(s, v), stack)
  }

  lemma {:induction false} SearchFirst<P(!new)>(s: Space<P>, ix: Index, v: P, k: nat, root: nat)
    requires Settled(s, ix) && ix.root == Some(root) && k > 0
    ensures root < |ix.forest.nodes|
    ensures InSearch(s, ix, v, k, root, {}, [Hit(Query(s, v)(ix.forest.nodes[root].element), root)], {}, {}, [])
  {
    hide LevelsFall, ChildrenOk, ParentsOk, Bound, Chained, TrueMetric, InReach, Searching, Query, Placed, FreeSlots;
    SearchStart(ix, Query(s, v), k, root);
    assert NodesOf([Hit(Query(s, v)(ix.forest.nodes[root].element), root)]) == [root];
  }

  /** What a round of the search finds on top of the stack. */
  lemma {:induction false} TopKnown<P(!new)>(s: Space<P>, ix: Index, v: P, k: nat, root: nat, seen: set<nat>, rest: seq<Hit>, top: Hit, cut: set<nat>, offered: set<nat>, best: seq<Hit>)
    requires InSearch(s, ix, v, k, root, seen, rest + [top], cut, offered, best)
    ensures top.id < |ix.forest.nodes| && top.id in ix.forest.above && top.id !in ix.free && top.id !in seen && k > 0
    ensures var node := ix.forest.nodes[top.id];
            && node.element in ix.at && ix.at[node.element] == top.id && top.dist == Query(s, v)(node.element) && NoDup(node.children)
            && forall c | c in node.children :: c < |ix.forest.nodes|
  {
    hide LevelsFall, ChildrenOk, ParentsOk, Bound, Chained, TrueMetric, InReach, Query, Walk, Best, Pruned, NoDup, FreeSlots, Rooted;
    StackPieces(rest, [top]);
    SearchKnown(ix, Query(s, v), k, root, seen, NodesOf(rest), top.id, cut, offered, best);
    assert top in rest + [top];
  }

  /** A round of the search, with the children chosen by what is worth visiting. */
  lemma {:induction false} SearchRound<P(!new)>(s: Space<P>, ix: Index, v: P, k: nat, root: nat, seen: set<nat>, rest: seq<Hit>, top: Hit, cut: set<nat>,
                                                offered: set<nat>, best: seq<Hit>, best': seq<Hit>, pushed: seq<Hit>) returns (cut': set<nat>)
    requires InSearch(s, ix, v, k, root, seen, rest + [top], cut, offered, best) && k > 0
    requires top.id < |ix.forest.nodes| && best' == Offer(best, k, Hit(top.dist, ix.forest.nodes[top.id].element))
    requires forall c | c in ix.forest.nodes[top.id].children :: c < |ix.forest.nodes|
    requires Pushed(s, ix.forest.nodes, v, best', k, ix.forest.nodes[top.id].children, pushed)
    ensures InSearch(s, ix, v, k, root, seen + {top.id}, rest + pushed, cut', offered + {ix.forest.nodes[top.id].element}, best')
  {
    hide LevelsFall, ChildrenOk, ParentsOk, Bound, Chained, Walk, Best, Pruned, TrueMetric, InReach, Offer, Radius, Query, Searching, DistinctIds, NoDup, FreeSlots, NodesOf, Sorted, Measures;
    var x, children, q := top.id, ix.forest.nodes[top.id].children, Query(s, v);
    TopKnown(s, ix, v, k, root, seen, rest, top, cut, offered, best);
    StackPieces(rest, [top]);
    StackPieces(rest, pushed);
    NodesOfIds(pushed);
    SearchKnown(ix, q, k, root, seen, NodesOf(rest), x, cut, offered, best);
    BestLength(ix, q, k, root, seen, NodesOf(rest + [top]), cut, offered, best, x);
    cut' := cut + set c | c in children && c !in NodesOf(pushed);
    forall c | c in children && c !in NodesOf(pushed) ensures Pruned(ix.forest, q, k, best', c) {
      assert !Worth(s, ix.forest.nodes, v, best', k, c);
      PruneChild(s, ix.forest, v, k, best', c);
    }
    assert forall c | c in NodesOf(pushed) :: c in Ids(pushed);
    SearchStep(ix, q, k, root, seen, NodesOf(rest), x, cut, offered, best, best', NodesOf(pushed), cut');
    MeasuresNext(ix.forest, q, rest, top, pushed);
  }

  lemma {:induction false} MeasuresNext(f: Forest, q: nat -> real, rest: seq<Hit>, top: Hit, pushed: seq<Hit>)
    requires Measures(f, q, rest + [top]) && forall h | h in pushed :: h.id < |f.nodes| && h.dist == q(f.nodes[h.id].element)
    ensures Measures(f, q, rest + pushed)
  {
    forall h | h in rest + pushed ensures h.id < |f.nodes| && h.dist == q(f.nodes[h.id].element) {
      if h in rest { assert h in rest + [top]; }
    }
  }

  lemma {:induction false} StackPieces(a: seq<Hit>, b: seq<Hit>)
    ensures NodesOf(a + b) == NodesOf(a) + NodesOf(b)
    ensures |b| == 1 ==> NodesOf(b) == [b[0].id]
  {
  }

  lemma {:induction false} BestLength(ix: Index, q: nat -> real, k: nat, root: nat, seen: set<nat>, stack: seq<nat>, cut: set<nat>, offered: set<nat>, best: seq<Hit>, x: nat)
    requires Searching(ix, q, k, root, seen, stack, cut, offered, best) && x < |ix.forest.nodes| && ix.forest.nodes[x].element !in offered
    ensures k > 0 && 0 < |Offered(ix, q, k, best, x)| <= k
  {
    hide Walk, Pruned, Offer;
    OfferBest(best, offered, q, k, ix.forest.nodes[x].element);
  }

  /** With nothing left on the stack, what was kept is the answer for the whole index. */
  lemma {:induction false} SearchDone<P(!new)>(s: Space<P>, ix: Index, v: P, k: nat, root: nat, seen: set<nat>, cut: set<nat>, offered: set<nat>, best: seq<Hit>)
    requires InSearch(s, ix, v, k, root, seen, [], cut, offered, best)
    ensures Best(best, ix.at.Keys, Query(s, v), k)
  {
    hide LevelsFall, ChildrenOk, ParentsOk, NoDup, Walk, Best, Pruned, TrueMetric, InReach, Bound, Chained, Query, FreeSlots, Stored, Placed, Rooted;
    var q := Query(s, v);
    assert NodesOf([]) == [];
    forall e | e in ix.at && e !in offered ensures FullWithin(best, k, q(e)) {
      NotOffered(s, ix, q, k, root, seen, cut, offered, best, e);
    }
    if ix.at.Keys != offered {
      var e :| e in ix.at && e !in offered;
      assert FullWithin(best, k, q(e));
    }
    NearestExtends(best, offered, ix.at.Keys, q, k);
  }

  lemma {:induction false} NotOffered<P(!new)>(s: Space<P>, ix: Index, q: nat -> real, k: nat, root: nat, seen: set<nat>, cut: set<nat>, offered: set<nat>, best: seq<Hit>, e: nat)
    requires Settled(s, ix) && ix.root == Some(root) && Searching(ix, q, k, root, seen, [], cut, offered, best)
    requires e in ix.at && e !in offered
    ensures FullWithin(best, k, q(e))
  {
    hide LevelsFall, ChildrenOk, ParentsOk, NoDup, Walk, Best, TrueMetric, InReach, Bound, Chained;
    var w := ix.at[e];
    RootAbove(ix.forest, root, w);
    var c := WalkDone(ix.forest, root, seen, cut, w);
    assert w !in seen;
    assert Pruned(ix.forest, q, k, best, c);
  }

  lemma {:induction false} NothingFound(q: nat -> real, k: nat)
    ensures Best([], {}, q, k)
  {
  }

  /** Without a root there is nothing. */
  lemma {:induction false} NoRoot<P(!new)>(s: Space<P>, ix: Index)
    requires Settled(s, ix) && ix.root == None
    ensures ix.at.Keys == {}
  {
    hide LevelsFall, ChildrenOk, ParentsOk, Bound, Chained, TrueMetric, InReach;
    forall e | e in ix.at ensures false {
      HasRoot(ix.forest, ix.at[e]);
    }
  }

  lemma {:induction false} HasRoot(f: Forest, w: nat)
    requires Shape(f) && w in f.above
    ensures exists v :: v in f.above && f.above[v] == {}
    decreases f.above[w]
  {
    if f.above[w] != {} { HasRoot(f, Parent(f, w)); }
  }

  /** Stored vectors may be added or replaced where no element of the index is. */
  ghost predicate SameElsewhere<P(!new)>(s: Space<P>, s': Space<P>, at: map<nat, nat>) {
    s'.dist == s.dist && |s.keys| <= |s'.keys| && forall e | e in at && e < |s.keys| :: s'.keys[e] == s.keys[e]
  }

  lemma {:induction false} KeysChanged<P(!new)>(s: Space<P>, s': Space<P>, ix: Index)
    requires Settled(s, ix) && SameElsewhere(s, s', ix.at)
    ensures Settled(s', ix)
  {
    hide LevelsFall, ChildrenOk, ParentsOk, Chained, TrueMetric, InReach, FreeSlots, Rooted;
    forall w, a | w in ix.forest.above && a in ix.forest.above[w] ensures Within(s', ix.forest, a, w) {
      assert Within(s, ix.forest, a, w);
    }
  }

  /** What an answer to a query is, in terms of the stored vectors. */
  lemma {:induction false} NearestMeans<P(!new)>(s: Space<P>, v: P, results: seq<Hit>, live: set<nat>, k: nat)
    requires Nearest(results, live, Query(s, v), k) && forall e | e in live :: e < |s.keys|
    ensures |results| == if k <= |live| then k else |live|
    ensures forall h | h in results :: h.id in live && h.id < |s.keys| && h.dist == s.dist(s.keys[h.id], v)
    ensures forall i, j | 0 <= i < j < |results| :: results[i].id != results[j].id
    ensures forall h, e | h in results && e in live && e < |s.keys| && (forall g | g in results :: g.id != e) :: h.dist <= s.dist(s.keys[e], v)
  {
    forall h, e | h in results && e in live && e < |s.keys| && (forall g | g in results :: g.id != e) ensures h.dist <= s.dist(s.keys[e], v) {
      assert e !in Ids(results);
      assert h.dist <= Query(s, v)(e);
    }
  }

  /** What the order of an answer is. */
  lemma {:induction false} SortedMeans(results: seq<Hit>)
    requires Sorted(ResultOrder, results) && forall i, j | 0 <= i < j < |results| :: results[i].id != results[j].id
    ensures forall i, j | 0 <= i < j < |results| ::
              results[i].dist < results[j].dist || (results[i].dist == results[j].dist && results[i].id < results[j].id)
  {
    forall i, j | 0 <= i < j < |results|
      ensures results[i].dist < results[j].dist || (results[i].dist == results[j].dist && results[i].id < results[j].id)
    {
      assert !ResultOrder(results[j], results[i]);
    }
  }

  lemma {:induction false} IndexedKeys<P(!new)>(s: Space<P>, ix: Index)
    requires Settled(s, ix)
    ensures forall e | e in ix.at :: e < |s.keys|
  {
    hide LevelsFall, ChildrenOk, ParentsOk, TrueMetric, InReach, Bound, Chained, FreeSlots, Rooted, Power, PowerUp;
  }
}
