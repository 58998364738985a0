/** The whole index as a value: the forest, the free slots, the node of each element, and the root. What
    inserting an element does to it (runners/genlayer-py-std/src-emb/genlayer_embeddings/vecdb.py:218-330). */
module CoverIndex {
  import opened Collections
  import opened Wrappers
  import opened CoverLevels
  import opened CoverForest
  import opened CoverBound
  import opened CoverDescent

  datatype Index = Index(forest: Forest, free: set<nat>, at: map<nat, nat>, root: Option<nat>)

  /** A slot is free exactly when it is not in use. */
  ghost predicate FreeSlots(f: Forest, free: set<nat>) {
    forall i: nat :: i in free <==> i < |f.nodes| && i !in f.above
  }

  /** The nodes in use and the elements in the index correspond one to one. */
  ghost predicate Placed(f: Forest, at: map<nat, nat>)
    requires InRange(f)
  {
    && (forall v | v in f.above :: f.nodes[v].element in at && at[f.nodes[v].element] == v)
    && (forall e | e in at :: at[e] in f.above && f.nodes[at[e]].element == e)
  }

  ghost predicate Rooted(f: Forest, root: Option<nat>)
    requires InRange(f)
  {
    root.Some? ==>
      && root.value in f.above && f.above[root.value] == {} && f.nodes[root.value].parent == None
      && 0 <= f.nodes[root.value].level <= MAX_LEVEL
  }

  /** What holds also while subtrees are detached from the tree. */
  ghost predicate Core<P(!new)>(s: Space<P>, ix: Index) {
    && s.Measured() && Shape(ix.forest) && Stored(s, ix.forest)
    && FreeSlots(ix.forest, ix.free) && Placed(ix.forest, ix.at) && Rooted(ix.forest, ix.root)
  }

  /** The same with the bound on descendants, but for the nodes in `pending`. */
  ghost predicate Loose<P(!new)>(s: Space<P>, ix: Index, pending: set<nat>, top: Option<nat>) {
    Core(s, ix) && Bound(s, ix.forest, pending, top) && Chained(ix.forest, pending, top)
  }

  /** Between operations: one tree, every node bounding its descendants. */
  ghost predicate Settled<P(!new)>(s: Space<P>, ix: Index) {
    Loose(s, ix, {}, None) && forall v | v in ix.forest.above && ix.forest.above[v] == {} :: ix.root == Some(v)
  }

  /** What inserting an element leaves alone and where it puts it. */
  ghost predicate Insertion<P(!new)>(s: Space<P>, ix: Index, ix': Index, element: nat, n: nat) {
    Kept(ix, ix', element, n) && WellPlaced(s, ix, ix', element, n) && Grown(ix, ix', n)
  }

  /** No node loses a child, and only one above the new leaf gains one, that leaf. */
  ghost predicate Grown(ix: Index, ix': Index, n: nat) {
    forall w | w in ix.forest.above ::
      || ChildrenOf(ix'.forest, w) == ChildrenOf(ix.forest, w)
      || (ix'.root != Some(n) && n in ix'.forest.above && w in ix'.forest.above[n]
          && ChildrenOf(ix'.forest, w) == ChildrenOf(ix.forest, w) + [n])
  }

  /** What inserting `element` does: the other nodes stay in use with their elements and levels, and trees other than
      the root's are untouched. */
  ghost predicate Kept(ix: Index, ix': Index, element: nat, n: nat) {
    var f, f' := ix.forest, ix'.forest;
    && SameNodes(f, f') && n !in f.above && f'.above.Keys == f.above.Keys + {n}
    && f'.nodes[n].element == element && ix'.at == ix.at[element := n]
    && (ix'.root == ix.root || ix'.root == Some(n)) && (forall w | w in f.above :: f.above[w] <= f'.above[w] <= f.above[w] + {n})
    && (forall w | w in f.above && (ix.root.None? || !Under(f, ix.root.value, w)) :: f'.above[w] == f.above[w] && f'.nodes[w] == f.nodes[w])
    && (forall v | v in f'.above && f'.above[v] == {} && ix'.root != Some(v) :: v in f.above && f.above[v] == {} && ix.root != Some(v))
  }

  /** Where the new node is: alone, above the old root which it covers without being covered, or a leaf that every
      ancestor covers and whose level separates it from each of them. */
  ghost predicate WellPlaced<P(!new)>(s: Space<P>, ix: Index, ix': Index, element: nat, n: nat) {
    var f' := ix'.forest;
    && n < |f'.nodes| && n in f'.above
    && if ix'.root == Some(n) then
         if ix.root.None? then f'.nodes[n].children == []
         else
           && f'.nodes[n].children == [ix.root.value]
           && s.D(element, ElementOf(f'.nodes, ix.root.value)) <= Power(f'.nodes[n].level)
           && !Reaches(s, f', ix.root.value, element)
       else
         && f'.above[n] != {} && f'.nodes[n].children == []
         && (forall a | a in f'.above[n] :: Reaches(s, f', a, element))
         && (f'.nodes[n].level > MIN_LEVEL ==> forall a | a in f'.above[n] :: Separate(s, f', a, element, f'.nodes[n].level))
  }

  /** Points of this level are farther than its power apart. */
  ghost predicate Separate<P(!new)>(s: Space<P>, f: Forest, a: nat, element: nat, level: int) {
    s.D(element, ElementOf(f.nodes, a)) > Power(level)
  }

  /** The arena and the free slots after `n` was allocated and filled. */
  ghost predicate Fresh(ix: Index, nodes: seq<Node>, free: set<nat>, n: nat, node: Node) {
    Allocated(ix.forest, nodes, n, node) && forall i: nat :: i in free <==> i < |nodes| && i !in ix.forest.above && i != n
  }

  /** One more node in use, for one more element. */
  lemma {:induction false} PutPlaced<P(!new)>(s: Space<P>, ix: Index, f': Forest, free: set<nat>, n: nat, element: nat)
    requires Stored(s, ix.forest) && Placed(ix.forest, ix.at) && element < |s.keys| && element !in ix.at
    requires SameNodes(ix.forest, f') && n !in ix.forest.above && f'.above.Keys == ix.forest.above.Keys + {n} && f'.nodes[n].element == element
    requires forall i: nat :: i in free <==> i < |f'.nodes| && i !in ix.forest.above && i != n
    ensures Stored(s, f') && FreeSlots(f', free) && Placed(f', ix.at[element := n])
  {
  }

  // --- first element ---

  ghost function FirstAdded(ix: Index, nodes: seq<Node>, free: set<nat>, n: nat, element: nat): Index {
    Index(Forest(nodes, ix.forest.above[n := {}]), free, ix.at[element := n], Some(n))
  }

  lemma {:induction false} FirstShape(f: Forest, nodes: seq<Node>, n: nat, element: nat)
    requires Shape(f) && Allocated(f, nodes, n, Node(element, 0, [], None))
    ensures Shape(Forest(nodes, f.above[n := {}])) && SameNodes(f, Forest(nodes, f.above[n := {}]))
  {
    var f' := Forest(nodes, f.above[n := {}]);
    assert InRange(f') && SameNodes(f, f');
    forall v | v in f'.above
      ensures NoDup(f'.nodes[v].children) && forall c | c in f'.nodes[v].children :: IsChild(f', v, c)
    {
      if v != n { assert forall c | c in f.nodes[v].children :: IsChild(f, v, c); }
    }
  }

  lemma {:induction false} FirstBound<P(!new)>(s: Space<P>, f: Forest, f': Forest, n: nat, pending: set<nat>, top: Option<nat>)
    requires SameNodes(f, f') && n !in f.above && f'.above == f.above[n := {}] && Bound(s, f, pending, top) && Chained(f, pending, top)
    ensures Bound(s, f', pending, top) && Chained(f', pending, top)
  {
    hide Within, Via;
    forall w, a | w in f'.above && a in f'.above[w] && a !in pending
      ensures Within(s, f', a, w) || Via(s, f', top, a, w)
    {
      SamePair(s, f, f', a, w, n, top);
    }
  }

  lemma {:induction false} FirstAddedCore<P(!new)>(s: Space<P>, ix: Index, nodes: seq<Node>, free: set<nat>, n: nat, element: nat, pending: set<nat>, top: Option<nat>)
    requires Loose(s, ix, pending, top) && ix.root == None && element < |s.keys| && element !in ix.at
    requires Fresh(ix, nodes, free, n, Node(element, 0, [], None))
    ensures var ix' := FirstAdded(ix, nodes, free, n, element);
            Loose(s, ix', pending, top) && Insertion(s, ix, ix', element, n)
  {
    hide LevelsFall, ChildrenOk, ParentsOk, TrueMetric, InReach, Bound, Chained, FreeSlots, Placed;
    var f, f' := ix.forest, Forest(nodes, ix.forest.above[n := {}]);
    FirstShape(f, nodes, n, element);
    hide SameNodes;
    PutPlaced(s, ix, f', free, n, element);
    FirstBound(s, f, f', n, pending, top);
    FirstKept(s, ix, FirstAdded(ix, nodes, free, n, element), n, element);
  }

  lemma {:induction false} FirstKept<P(!new)>(s: Space<P>, ix: Index, ix': Index, n: nat, element: nat)
    requires SameNodes(ix.forest, ix'.forest) && n !in ix.forest.above && ix'.forest.above == ix.forest.above[n := {}]
    requires ix.root == None && ix'.root == Some(n) && ix'.at == ix.at[element := n]
    requires n < |ix'.forest.nodes| && ix'.forest.nodes[n] == Node(element, 0, [], None)
    requires forall w | w in ix.forest.above :: ix'.forest.nodes[w] == ix.forest.nodes[w]
    ensures Insertion(s, ix, ix', element, n)
  {
  }

  // --- new root ---

  ghost function RootPut(ix: Index, nodes: seq<Node>, free: set<nat>, n: nat, root: nat, element: nat): Index
    requires root < |nodes|
  {
    Index(RootAdded(ix.forest, nodes, n, root), free, ix.at[element := n], Some(n))
  }

  lemma {:induction false} RootPutCore<P(!new)>(s: Space<P>, ix: Index, nodes: seq<Node>, free: set<nat>, n: nat, root: nat, element: nat, level: int, pending: set<nat>, top: Option<nat>)
    requires Core(s, ix) && ix.root == Some(root) && element < |s.keys| && element !in ix.at
    requires Fresh(ix, nodes, free, n, Node(element, level, [root], None)) && ix.forest.nodes[root].level < level <= MAX_LEVEL
    requires Bound(s, ix.forest, pending, top) && Chained(ix.forest, pending, top)
    requires s.D(element, ix.forest.nodes[root].element) <= Power(level)
    ensures var ix' := RootPut(ix, nodes, free, n, root, element);
            Core(s, ix') && Bound(s, ix'.forest, pending, top) && Chained(ix'.forest, pending, top)
  {
    hide LevelsFall, ChildrenOk, ParentsOk, TrueMetric, InReach, Bound, FreeSlots, Placed, RootAdded, SameNodes;
    var ix' := RootPut(ix, nodes, free, n, root, element);
    RootAddedBound(s, ix.forest, nodes, n, root, element, level, pending, top);
    RootAddedFacts(ix.forest, nodes, n, root, Node(element, level, [root], None));
    PutPlaced(s, ix, ix'.forest, free, n, element);
  }

  lemma {:induction false} RootPutKept<P(!new)>(s: Space<P>, ix: Index, nodes: seq<Node>, free: set<nat>, n: nat, root: nat, element: nat, level: int)
    requires Core(s, ix) && ix.root == Some(root)
    requires Fresh(ix, nodes, free, n, Node(element, level, [root], None))
    requires s.D(element, ix.forest.nodes[root].element) <= Power(level) && !Reaches(s, ix.forest, root, element)
    requires Shape(RootPut(ix, nodes, free, n, root, element).forest)
    ensures var ix' := RootPut(ix, nodes, free, n, root, element);
            Insertion(s, ix, ix', element, n)
  {
    hide LevelsFall, ChildrenOk, ParentsOk, RootAdded, TrueMetric, InReach, Stored, FreeSlots, Placed, SameNodes, Insertion;
    var ix' := RootPut(ix, nodes, free, n, root, element);
    RootAddedFacts(ix.forest, nodes, n, root, Node(element, level, [root], None));
    KeptByRoot(s, ix, ix', n, root, element, level);
  }

  lemma {:induction false} KeptByRoot<P(!new)>(s: Space<P>, ix: Index, ix': Index, n: nat, root: nat, element: nat, level: int)
    requires SameNodes(ix.forest, ix'.forest) && n !in ix.forest.above && ix'.forest.above.Keys == ix.forest.above.Keys + {n}
    requires ix.root == Some(root) && root in ix.forest.above && ix'.root == Some(n) && ix'.at == ix.at[element := n]
    requires forall w | w in ix.forest.above && w != root :: ix'.forest.nodes[w] == ix.forest.nodes[w]
    requires forall w | w in ix.forest.above :: ix'.forest.above[w] == if Under(ix.forest, root, w) then ix.forest.above[w] + {n} else ix.forest.above[w]
    requires ix'.forest.nodes[n] == Node(element, level, [root], None) && ix'.forest.above[n] == {}
    requires ix'.forest.nodes[root] == ix.forest.nodes[root].(parent := Some(n))
    requires s.D(element, ix.forest.nodes[root].element) <= Power(level) && !Reaches(s, ix.forest, root, element)
    ensures Insertion(s, ix, ix', element, n)
  {
  }

  // --- new leaf ---

  ghost function LeafPut(ix: Index, nodes: seq<Node>, free: set<nat>, n: nat, p: nat, element: nat): Index
    requires p in ix.forest.above && p < |nodes|
  {
    Index(LeafAdded(ix.forest, nodes, n, p), free, ix.at[element := n], ix.root)
  }

  lemma {:induction false} LeafPutCore<P(!new)>(s: Space<P>, ix: Index, nodes: seq<Node>, free: set<nat>, n: nat, p: nat, element: nat, level: int, pending: set<nat>, top: Option<nat>)
    requires Core(s, ix) && element < |s.keys| && element !in ix.at
    requires p in ix.forest.above && Fresh(ix, nodes, free, n, Node(element, level, [], Some(p))) && level < ix.forest.nodes[p].level
    requires forall a | a == p || a in ix.forest.above[p] :: s.D(element, ix.forest.nodes[a].element) <= Power(ix.forest.nodes[a].level)
    requires Bound(s, ix.forest, pending, top) && Chained(ix.forest, pending, top)
    ensures var ix' := LeafPut(ix, nodes, free, n, p, element);
            Core(s, ix') && Bound(s, ix'.forest, pending, top) && Chained(ix'.forest, pending, top)
  {
    hide LevelsFall, ChildrenOk, ParentsOk, TrueMetric, InReach, Bound, Chained, FreeSlots, Placed, LeafAdded;
    var f, ix' := ix.forest, LeafPut(ix, nodes, free, n, p, element);
    LeafAddedBound(s, f, nodes, n, p, element, level, pending, top);
    LeafAddedFacts(f, nodes, n, p, Node(element, level, [], Some(p)));
    assert Rooted(ix'.forest, ix.root);
    hide SameNodes;
    PutPlaced(s, ix, ix'.forest, free, n, element);
  }

  lemma {:induction false} LeafPutKept<P(!new)>(s: Space<P>, ix: Index, nodes: seq<Node>, free: set<nat>, n: nat, root: nat, p: nat, element: nat, level: int, minCover: real)
    requires Core(s, ix) && ix.root == Some(root)
    requires p in ix.forest.above && Fresh(ix, nodes, free, n, Node(element, level, [], Some(p)))
    requires Covering(s, ix.forest, root, element, [p], minCover) && (level > MIN_LEVEL ==> Power(level) < minCover)
    requires Shape(LeafPut(ix, nodes, free, n, p, element).forest)
    ensures var ix' := LeafPut(ix, nodes, free, n, p, element);
            Insertion(s, ix, ix', element, n)
  {
    hide LevelsFall, ChildrenOk, ParentsOk, LeafAdded, TrueMetric, InReach, Stored, FreeSlots, Placed, SameNodes, Insertion;
    var f, ix' := ix.forest, LeafPut(ix, nodes, free, n, p, element);
    assert p in [p];
    LeafAddedFacts(f, nodes, n, p, Node(element, level, [], Some(p)));
    KeptByLeaf(s, ix, ix', n, root, p, element, level, minCover);
  }

  lemma {:induction false} LeafPutReady<P(!new)>(s: Space<P>, ix: Index, nodes: seq<Node>, free: set<nat>, n: nat, root: nat, p: nat, element: nat, level: int, minCover: real, pending: set<nat>, top: Option<nat>)
    requires Loose(s, ix, pending, top) && ix.root == Some(root) && element < |s.keys| && element !in ix.at
    requires p in ix.forest.above && p < |ix.forest.nodes| && level < ix.forest.nodes[p].level && Fresh(ix, nodes, free, n, Node(element, level, [], Some(p)))
    requires Covering(s, ix.forest, root, element, [p], minCover) && (level > MIN_LEVEL ==> Power(level) < minCover)
    ensures p < |nodes| && n != p && var ix' := LeafPut(ix, nodes, free, n, p, element);
            Loose(s, ix', pending, top) && Insertion(s, ix, ix', element, n)
  {
    hide LevelsFall, ChildrenOk, ParentsOk, TrueMetric, InReach, Bound, Chained, FreeSlots, Placed, LeafPut, LeafAdded, Insertion;
    assert p in [p];
    assert forall a | a == p || a in ix.forest.above[p] :: Reaches(s, ix.forest, a, element);
    LeafPutCore(s, ix, nodes, free, n, p, element, level, pending, top);
    LeafPutKept(s, ix, nodes, free, n, root, p, element, level, minCover);
  }

  lemma {:induction false} RootPutReady<P(!new)>(s: Space<P>, ix: Index, nodes: seq<Node>, free: set<nat>, n: nat, root: nat, element: nat, level: int, pending: set<nat>, top: Option<nat>)
    requires Loose(s, ix, pending, top) && ix.root == Some(root) && element < |s.keys| && element !in ix.at && root < |ix.forest.nodes|
    requires Fresh(ix, nodes, free, n, Node(element, level, [root], None)) && ix.forest.nodes[root].level < level <= MAX_LEVEL
    requires s.D(element, ix.forest.nodes[root].element) <= Power(level) && !Reaches(s, ix.forest, root, element)
    ensures root < |nodes| && n != root && var ix' := RootPut(ix, nodes, free, n, root, element);
            Loose(s, ix', pending, top) && Insertion(s, ix, ix', element, n)
  {
    hide LevelsFall, ChildrenOk, ParentsOk, TrueMetric, InReach, Bound, Chained, FreeSlots, Placed, Insertion;
    RootPutCore(s, ix, nodes, free, n, root, element, level, pending, top);
    RootPutKept(s, ix, nodes, free, n, root, element, level);
  }

  lemma {:induction false} KeptByLeaf<P(!new)>(s: Space<P>, ix: Index, ix': Index, n: nat, root: nat, p: nat, element: nat, level: int, minCover: real)
    requires SameNodes(ix.forest, ix'.forest) && n !in ix.forest.above && p in ix.forest.above
    requires ix'.forest.above == ix.forest.above[n := ix.forest.above[p] + {p}]
    requires ix.root == Some(root) && root in ix.forest.above && Under(ix.forest, root, p) && ix'.root == ix.root && ix'.at == ix.at[element := n]
    requires forall w | w in ix.forest.above && w != p :: ix'.forest.nodes[w] == ix.forest.nodes[w]
    requires n < |ix'.forest.nodes| && ix'.forest.nodes[n] == Node(element, level, [], Some(p))
    requires forall a | a == p || a in ix.forest.above[p] :: Reaches(s, ix.forest, a, element) && minCover <= s.D(element, ix.forest.nodes[a].element)
    requires level > MIN_LEVEL ==> Power(level) < minCover
    requires ix'.forest.nodes[p] == ix.forest.nodes[p].(children := ix.forest.nodes[p].children + [n])
    ensures Insertion(s, ix, ix', element, n)
  {
    forall a | a in ix'.forest.above[n]
      ensures Reaches(s, ix'.forest, a, element) && (level > MIN_LEVEL ==> Separate(s, ix'.forest, a, element, level))
    {
      assert Reaches(s, ix.forest, a, element);
    }
  }

  // --- one insertion: choose a place, attach a node there ---

  /** `element` can be inserted. */
  ghost predicate Ready<P(!new)>(s: Space<P>, ix: Index, element: nat, pending: set<nat>, top: Option<nat>) {
    Loose(s, ix, pending, top) && element < |s.keys| && element !in ix.at
  }

  ghost predicate Inserted<P(!new)>(s: Space<P>, ix: Index, ix': Index, element: nat, n: nat, pending: set<nat>, top: Option<nat>) {
    Loose(s, ix', pending, top) && Insertion(s, ix, ix', element, n)
  }

  /** Where a new element goes: above the root, or below a node. */
  datatype Place = AboveRoot(level: int) | Below(parent: nat, level: int)

  ghost predicate Chosen<P(!new)>(s: Space<P>, ix: Index, element: nat, place: Place, minCover: real) {
    && Shape(ix.forest) && ix.root.Some?
    && match place {
         case AboveRoot(level) =>
           && ix.root.value < |ix.forest.nodes| && ix.forest.nodes[ix.root.value].level < level <= MAX_LEVEL
           && s.D(element, ix.forest.nodes[ix.root.value].element) <= Power(level) && !Reaches(s, ix.forest, ix.root.value, element)
         case Below(p, level) =>
           && p in ix.forest.above && level < ix.forest.nodes[p].level
           && Covering(s, ix.forest, ix.root.value, element, [p], minCover) && (level > MIN_LEVEL ==> Power(level) < minCover)
       }
  }

  /** `ix'` is `ix` with a new node `n` at `place`. */
  ghost predicate Attached(ix: Index, ix': Index, arena: seq<Node>, n: nat, element: nat, place: Place)
    requires ix.root.Some?
  {
    match place
    case AboveRoot(level) =>
      && Fresh(ix, arena, ix'.free, n, Node(element, level, [ix.root.value], None))
      && ix.root.value < |arena| && ix' == RootPut(ix, arena, ix'.free, n, ix.root.value, element)
    case Below(p, level) =>
      && p in ix.forest.above && p < |arena| && Fresh(ix, arena, ix'.free, n, Node(element, level, [], Some(p)))
      && ix' == LeafPut(ix, arena, ix'.free, n, p, element)
  }

  lemma {:induction false} AttachInserts<P(!new)>(s: Space<P>, ix: Index, ix': Index, arena: seq<Node>, n: nat, element: nat, place: Place, minCover: real, pending: set<nat>, top: Option<nat>)
    requires Ready(s, ix, element, pending, top) && Chosen(s, ix, element, place, minCover) && Attached(ix, ix', arena, n, element, place)
    ensures Inserted(s, ix, ix', element, n, pending, top)
  {
    hide Loose, Insertion, RootPut, LeafPut, Fresh, LevelsFall, ChildrenOk, ParentsOk, Covering, Power, PowerUp;
    match place
    case AboveRoot(level) => RootPutReady(s, ix, arena, ix'.free, n, ix.root.value, element, level, pending, top);
    case Below(p, level) => LeafPutReady(s, ix, arena, ix'.free, n, ix.root.value, p, element, level, minCover, pending, top);
  }

  /** What allocating and attaching a node needs. */
  ghost predicate Slots(ix: Index) {
    Shape(ix.forest) && FreeSlots(ix.forest, ix.free) && Rooted(ix.forest, ix.root)
  }

  lemma {:induction false} ReadySlots<P(!new)>(s: Space<P>, ix: Index, element: nat, pending: set<nat>, top: Option<nat>)
    requires Ready(s, ix, element, pending, top)
    ensures Slots(ix) && (ix.root.Some? ==> s.D(element, ix.forest.nodes[ix.root.value].element) <= TopReach())
  {
    hide Power, PowerUp, Shape, FreeSlots, Bound, Chained, TrueMetric, InReach, TopReach;
    if ix.root.Some? { DistanceLaws(s, element, ix.forest.nodes[ix.root.value].element, element); }
  }
}
