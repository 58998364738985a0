/** Removing an element: swapped elements move up along a line of nodes, a leaf goes, the line is rechecked from
    below and subtrees that are no longer covered are taken out and inserted again
    (runners/genlayer-py-std/src-emb/genlayer_embeddings/vecdb.py:332-423). */
module CoverRemoval {
  import opened Collections
  import opened Wrappers
  import opened CoverLevels
  import opened CoverForest
  import opened CoverBound
  import opened CoverDescent
  import opened CoverWalk
  import opened CoverIndex

  /** Each node of the line is above all later ones. */
  ghost predicate Line(f: Forest, line: seq<nat>) {
    && (forall j | 0 <= j < |line| :: line[j] in f.above)
    && (forall j, k | 0 <= j < k < |line| :: line[j] in f.above[line[k]])
  }

  /** The trees of the forest are the index's tree and those of the nodes in `todo`. */
  ghost predicate Trees(ix: Index, todo: seq<nat>) {
    && NoDup(todo)
    && (forall c | c in todo :: c in ix.forest.above && ix.forest.above[c] == {} && ix.root != Some(c))
    && (forall v | v in ix.forest.above && ix.forest.above[v] == {} && ix.root != Some(v) :: v in todo)
  }

  // --- first phase: elements move up ---

  /** One to one but for `hole`, whose element is gone or has moved up. */
  ghost predicate PlacedBut(f: Forest, at: map<nat, nat>, hole: nat)
    requires InRange(f)
  {
    && (forall v | v in f.above && v != hole :: f.nodes[v].element in at && at[f.nodes[v].element] == v)
    && (forall e | e in at :: at[e] in f.above && at[e] != hole && f.nodes[at[e]].element == e)
  }

  ghost predicate Descending<P(!new)>(s: Space<P>, ix: Index, path: seq<nat>, current: nat) {
    && s.Measured() && Shape(ix.forest) && Stored(s, ix.forest)
    && FreeSlots(ix.forest, ix.free) && PlacedBut(ix.forest, ix.at, current) && Rooted(ix.forest, ix.root)
    && Trees(ix, []) && current in ix.forest.above && Line(ix.forest, path + [current]) && Bound(s, ix.forest, Members(path), None)
  }

  lemma {:induction false} DescentStart<P(!new)>(s: Space<P>, ix: Index, idx: nat)
    requires Settled(s, ix) && idx in ix.at
    ensures Descending(s, ix.(at := ix.at - {idx}), [], ix.at[idx])
  {
    hide LevelsFall, ChildrenOk, ParentsOk, TrueMetric, InReach, Bound, Chained, FreeSlots, Rooted, Stored, Placed, PlacedBut, Power, PowerUp, Line, Members, Trees;
    HoleMade(ix.forest, ix.at, idx);
    AloneInTree(ix, ix.at - {idx}, ix.at[idx]);
  }

  lemma {:induction false} AloneInTree(ix: Index, at': map<nat, nat>, v: nat)
    requires v in ix.forest.above && forall v | v in ix.forest.above && ix.forest.above[v] == {} :: ix.root == Some(v)
    ensures Trees(ix.(at := at'), []) && Line(ix.forest, [] + [v]) && Members<nat>([]) == {}
  {
  }

  lemma {:induction false} HoleMade(f: Forest, at: map<nat, nat>, idx: nat)
    requires InRange(f) && Placed(f, at) && idx in at
    ensures at[idx] in f.above && PlacedBut(f, at - {idx}, at[idx])
  {
  }

  ghost function SwappedUp(ix: Index, current: nat, child: nat): Index
    requires current < |ix.forest.nodes| && child < |ix.forest.nodes|
  {
    var e := ix.forest.nodes[child].element;
    ix.(forest := WithElement(ix.forest, current, e), at := ix.at[e := current])
  }

  /** The node adopts a child's element, and the child becomes the hole. */
  lemma {:induction false} DescentStep<P(!new)>(s: Space<P>, ix: Index, path: seq<nat>, current: nat, child: nat)
    requires Descending(s, ix, path, current) && child in ix.forest.nodes[current].children
    ensures child < |ix.forest.nodes| && Descending(s, SwappedUp(ix, current, child), path + [current], child)
    ensures SwappedUp(ix, current, child).at.Keys == ix.at.Keys
    ensures IsChild(ix.forest, current, child)
  {
    var f := ix.forest;
    hide LevelsFall, ChildrenOk, ParentsOk, TrueMetric, InReach, Bound, Power, PowerUp, Line, PlacedBut, FreeSlots, Rooted, Stored, Trees, WithElement, Members;
    ChildOf(f, current, child);
    MembersAppend(path, current);
    SwapBound(s, f, current, child, Members(path));
    LineExtends(f, path, current, child);
    var ix' := SwappedUp(ix, current, child);
    SwapKeeps(s, ix, current, child, ix'.at);
    SameLine(f, ix'.forest, (path + [current]) + [child]);
    SwappedPlaced(f, ix.at, current, child);
  }

  lemma {:induction false} SwapKeeps<P(!new)>(s: Space<P>, ix: Index, current: nat, child: nat, at': map<nat, nat>)
    requires Stored(s, ix.forest) && FreeSlots(ix.forest, ix.free) && Rooted(ix.forest, ix.root) && Trees(ix, [])
    requires current in ix.forest.above && child in ix.forest.above
    ensures var f' := WithElement(ix.forest, current, ix.forest.nodes[child].element);
            InRange(f') && Stored(s, f') && FreeSlots(f', ix.free) && Rooted(f', ix.root) && Trees(ix.(forest := f', at := at'), [])
            && f'.above == ix.forest.above
  {
  }

  lemma {:induction false} SameLine(f: Forest, f': Forest, line: seq<nat>)
    requires Line(f, line) && f'.above == f.above
    ensures Line(f', line)
  {
  }

  lemma {:induction false} SwappedPlaced(f: Forest, at: map<nat, nat>, current: nat, child: nat)
    requires InRange(f) && current in f.above && child in f.above && child != current && PlacedBut(f, at, current)
    requires InRange(WithElement(f, current, f.nodes[child].element))
    ensures var e := f.nodes[child].element;
            PlacedBut(WithElement(f, current, e), at[e := current], child) && at[e := current].Keys == at.Keys
  {
  }

  lemma {:induction false} LineExtends(f: Forest, path: seq<nat>, current: nat, child: nat)
    requires InRange(f) && Line(f, path + [current]) && current in f.above && IsChild(f, current, child)
    ensures Line(f, (path + [current]) + [child])
  {
    var line, line' := path + [current], (path + [current]) + [child];
    forall j, k | 0 <= j < k < |line'| ensures line'[j] in f.above[line'[k]] {
      if k < |line| {
        assert line[j] in f.above[line[k]];
      } else if j < |path| {
        assert line[j] in f.above[line[|path|]];
      }
    }
  }

  // --- which elements move up ---

  /** The child whose element moves up into `v`. */
  function NearestChild<P(!new)>(s: Space<P>, nodes: seq<Node>, v: nat): nat
    requires v < |nodes| && nodes[v].children != []
  {
    NearestOf(s, nodes, nodes[v].element, nodes[v].children)
  }

  /** From `start` along `path` down to `leaf`, always to the nearest child, each node has the element of the next one;
      nothing else has changed. */
  ghost predicate MovedUp<P(!new)>(s: Space<P>, f: Forest, f': Forest, start: nat, path: seq<nat>, leaf: nat) {
    var line := path + [leaf];
    && f'.above == f.above && |f'.nodes| == |f.nodes| && line[0] == start && leaf !in path
    && (forall j | 0 <= j < |path| :: Passed(s, f, f', path[j], line[j + 1]))
    && forall w | 0 <= w < |f.nodes| && w !in path :: f'.nodes[w] == f.nodes[w]
  }

  /** `v` was left for its nearest child `c`, whose element it has now. */
  ghost predicate Passed<P(!new)>(s: Space<P>, f: Forest, f': Forest, v: nat, c: nat) {
    && v < |f.nodes| && v < |f'.nodes| && c < |f.nodes| && f.nodes[v].children != [] && c == NearestChild(s, f.nodes, v)
    && f'.nodes[v] == f.nodes[v].(element := f.nodes[c].element)
  }

  lemma {:induction false} NothingMoved<P(!new)>(s: Space<P>, f: Forest, start: nat)
    ensures MovedUp(s, f, f, start, [], start)
  {
  }

  lemma {:induction false} MovedNext<P(!new)>(s: Space<P>, f: Forest, f1: Forest, start: nat, path: seq<nat>, v: nat, c: nat)
    requires MovedUp(s, f, f1, start, path, v) && v < |f.nodes| && f1.nodes[v].children != [] && c == NearestChild(s, f1.nodes, v)
    requires v !in path && c < |f.nodes| && c !in path + [v] && forall x | x in f1.nodes[v].children :: x !in path
    ensures MovedUp(s, f, WithElement(f1, v, f1.nodes[c].element), start, path + [v], c)
  {
    var f2 := WithElement(f1, v, f1.nodes[c].element);
    assert f1.nodes[v] == f.nodes[v] && f1.nodes[c] == f.nodes[c];
    NearestSame(s, f.nodes, f1.nodes, f.nodes[v].element, f.nodes[v].children);
    var line, line' := path + [v], (path + [v]) + [c];
    forall j | 0 <= j < |path + [v]| ensures Passed(s, f, f2, (path + [v])[j], line'[j + 1]) {
      if j < |path| {
        assert Passed(s, f, f1, path[j], line[j + 1]);
        assert path[j] in path;
      }
    }
    assert line'[0] == line[0];
    forall w | 0 <= w < |f.nodes| && w !in path + [v] ensures f2.nodes[w] == f.nodes[w] {
      assert v in path + [v];
      assert w !in path;
    }
  }

  /** The way down meets no node twice. */
  lemma {:induction false} DescentFresh<P(!new)>(s: Space<P>, ix: Index, path: seq<nat>, current: nat)
    requires Descending(s, ix, path, current)
    ensures current in ix.forest.above && current < |ix.forest.nodes| && current !in path
    ensures forall c | c in ix.forest.nodes[current].children :: c !in path + [current] && c < |ix.forest.nodes|
  {
    hide LevelsFall, ParentsOk, TrueMetric, InReach, Bound, Chained, FreeSlots, Rooted, Stored, PlacedBut, Power, PowerUp, Trees;
    var line := path + [current];
    forall x | x in path ensures x in ix.forest.above[current] {
      var j :| 0 <= j < |path| && path[j] == x;
      assert line[j] in ix.forest.above[line[|path|]];
    }
    forall c | c in ix.forest.nodes[current].children ensures c !in path + [current] && c < |ix.forest.nodes| {
      ChildOf(ix.forest, current, c);
    }
  }

  // --- the leaf goes ---

  ghost function Without(children: seq<nat>, i: nat): seq<nat>
    requires i < |children|
  {
    children[..i] + children[i + 1..]
  }

  lemma {:induction false} WithoutOne(children: seq<nat>, i: nat)
    requires NoDup(children) && i < |children|
    ensures NoDup(Without(children, i)) && forall c :: c in Without(children, i) <==> c in children && c != children[i]
  {
    var kept := Without(children, i);
    forall c | c in kept ensures c in children && c != children[i] {
      var j :| 0 <= j < |kept| && kept[j] == c;
      assert c == children[if j < i then j else j + 1];
    }
    forall c | c in children && c != children[i] ensures c in kept {
      var j :| 0 <= j < |children| && children[j] == c;
      assert c == kept[if j < i then j else j - 1];
    }
  }

  /** The repair after the leaf is gone: the nodes of `line` are to be rechecked, the trees in `todo` to be reinserted. */
  ghost predicate Repairing<P(!new)>(s: Space<P>, ix: Index, line: seq<nat>, todo: seq<nat>) {
    && Loose(s, ix, Members(line), Top(line)) && Line(ix.forest, line) && Trees(ix, todo)
    && forall c, p | c in todo && p in line :: !Under(ix.forest, c, p)
  }

  ghost function Top(line: seq<nat>): Option<nat> {
    if line == [] then None else Some(line[0])
  }

  ghost function LastDropped(ix: Index, leaf: nat): Index {
    Index(DropTree(ix.forest, leaf), ix.free + {leaf}, ix.at, None)
  }

  ghost function LeafDropped(ix: Index, leaf: nat, p: nat, kept: seq<nat>): Index
    requires InRange(ix.forest) && p in ix.forest.above
  {
    Index(DropTree(Detach(ix.forest, p, kept), leaf), ix.free + {leaf}, ix.at, ix.root)
  }

  /** The element of the hole is the only one gone when the hole is dropped. */
  lemma {:induction false} HoleDropped(f: Forest, f': Forest, at: map<nat, nat>, free: set<nat>, hole: nat)
    requires InRange(f) && InRange(f') && hole in f.above && PlacedBut(f, at, hole) && FreeSlots(f, free)
    requires f'.above.Keys == f.above.Keys - {hole} && |f'.nodes| == |f.nodes| && forall v | v in f.above :: f'.nodes[v].element == f.nodes[v].element
    ensures Placed(f', at) && FreeSlots(f', free + {hole})
  {
  }

  lemma {:induction false} LastGone<P(!new)>(s: Space<P>, ix: Index, leaf: nat)
    requires Descending(s, ix, [], leaf) && ix.forest.nodes[leaf].children == [] && ix.root == Some(leaf)
    ensures Repairing(s, LastDropped(ix, leaf), [], [])
  {
    hide LevelsFall, ChildrenOk, ParentsOk, TrueMetric, InReach, Bound, Chained, Power, PowerUp;
    var f, f' := ix.forest, DropTree(ix.forest, leaf);
    assert Members<nat>([]) == {};
    assert Chained(f, {}, None) by { NothingPending(f); }
    DropTreeBound(s, f, leaf, {}, None);
    OnlyTree(ix, leaf);
    DropLeafFacts(f, leaf);
    HoleDropped(f, f', ix.at, ix.free, leaf);
  }

  lemma {:induction false} NothingPending(f: Forest)
    requires InRange(f)
    ensures Chained(f, {}, None)
  {
  }

  lemma {:induction false} OnlyTree(ix: Index, leaf: nat)
    requires Shape(ix.forest) && Trees(ix, []) && ix.root == Some(leaf) && leaf in ix.forest.above && ix.forest.above[leaf] == {}
    requires ix.forest.nodes[leaf].children == []
    ensures ix.forest.above.Keys == {leaf}
  {
    forall w | w in ix.forest.above ensures w == leaf {
      RootAbove(ix.forest, leaf, w);
      NothingBelow(ix.forest, leaf, w);
    }
  }

  lemma {:induction false} DropLeafFacts(f: Forest, leaf: nat)
    requires Shape(f) && leaf in f.above && f.above[leaf] == {} && f.nodes[leaf].children == []
    ensures var f' := DropTree(f, leaf);
            f'.nodes == f.nodes && f'.above == f.above - {leaf}
  {
    forall w | w in f.above ensures Under(f, leaf, w) <==> w == leaf {
      NothingBelow(f, leaf, w);
    }
  }

  lemma {:induction false} BoundByTop<P(!new)>(s: Space<P>, f: Forest, pending: set<nat>, top: Option<nat>)
    requires InRange(f) && Bound(s, f, pending, None)
    ensures Bound(s, f, pending, top)
  {
    forall w, a | w in f.above && a in f.above[w] && a !in pending ensures Within(s, f, a, w) {
      assert !Via(s, f, None, a, w);
    }
  }

  /** The line above the leaf is a line above its parent. */
  lemma {:induction false} LineAbove(f: Forest, path: seq<nat>, leaf: nat, p: nat)
    requires InRange(f) && Line(f, path + [leaf]) && leaf in f.above && p in f.above && IsChild(f, p, leaf)
    ensures Line(f, path) && Chained(f, Members(path), Top(path)) && leaf !in path
    ensures forall x | x in path :: Under(f, x, p)
  {
    var line := path + [leaf];
    forall j | 0 <= j < |path| ensures path[j] in f.above { assert line[j] in f.above; }
    forall j, k | 0 <= j < k < |path| ensures path[j] in f.above[path[k]] {
      assert line[j] in f.above[line[k]];
    }
    forall x | x in path ensures x in f.above && x in f.above[leaf] {
      var j :| 0 <= j < |path| && path[j] == x;
      assert line[j] in f.above[line[|path|]];
    }
    LineChained(f, path);
  }

  lemma {:induction false} LineChained(f: Forest, line: seq<nat>)
    requires InRange(f) && Line(f, line)
    ensures Chained(f, Members(line), Top(line))
    ensures line != [] ==> forall x | x in line :: Under(f, x, line[|line| - 1])
  {
  }

  /** Cutting off a single leaf takes ancestors from that leaf only. */
  lemma {:induction false} DetachLeafFacts(f: Forest, p: nat, kept: seq<nat>, leaf: nat)
    requires Shape(f) && p in f.above && leaf in f.nodes[p].children && f.nodes[leaf].children == []
    requires forall c :: c in kept <==> c in f.nodes[p].children && c != leaf
    ensures var f' := Detach(f, p, kept);
            f'.nodes == f.nodes[p := f.nodes[p].(children := kept)] && f'.above == f.above[leaf := {}]
  {
    var f' := Detach(f, p, kept);
    ChildOf(f, p, leaf);
    forall w | w in f.above ensures Cut(f, p, kept, w) <==> w == leaf {
      NothingBelow(f, leaf, w);
      assert Under(f, leaf, leaf);
    }
    assert f'.above[leaf] == {};
  }

  /** The leaf is gone: everything is in place but for the bounds of the swapped nodes. */
  lemma {:induction false} LeafGone<P(!new)>(s: Space<P>, ix: Index, path: seq<nat>, leaf: nat, p: nat, kept: seq<nat>)
    requires Descending(s, ix, path, leaf) && ix.forest.nodes[leaf].children == []
    requires p in ix.forest.above && leaf in ix.forest.nodes[p].children
    requires NoDup(kept) && forall c :: c in kept <==> c in ix.forest.nodes[p].children && c != leaf
    ensures Repairing(s, LeafDropped(ix, leaf, p, kept), path, [])
  {
    hide LevelsFall, ChildrenOk, ParentsOk, TrueMetric, InReach, Bound, Chained, Power, PowerUp, Line, Members, Trees, Stored, Rooted, FreeSlots, PlacedBut,
         Detach, DropTree, Top;
    var f := ix.forest;
    var f1 := Detach(f, p, kept);
    var f2 := DropTree(f1, leaf);
    ChildOf(f, p, leaf);
    LineAbove(f, path, leaf, p);
    BoundByTop(s, f, Members(path), Top(path));
    LinePending(f, path, p);
    DetachBound(s, f, p, kept, Members(path), Top(path));
    DetachLeafFacts(f, p, kept, leaf);
    assert f1.nodes[leaf].children == [];
    TopNotUnder(f1, path, leaf);
    DropTreeBound(s, f1, leaf, Members(path), Top(path));
    DropLeafFacts(f1, leaf);
    LeafGoneFacts(s, ix, LeafDropped(ix, leaf, p, kept), path, leaf, p);
  }

  lemma {:induction false} LinePending(f: Forest, path: seq<nat>, p: nat)
    requires forall x | x in path :: Under(f, x, p)
    ensures forall x | x in Members(path) :: Under(f, x, p)
    ensures Top(path).Some? ==> Under(f, Top(path).value, p)
  {
  }

  lemma {:induction false} TopNotUnder(f: Forest, path: seq<nat>, leaf: nat)
    requires Shape(f) && leaf in f.above && f.nodes[leaf].children == [] && leaf !in path
    ensures Top(path).Some? ==> !Under(f, leaf, Top(path).value)
  {
    if path != [] && path[0] in f.above { NothingBelow(f, leaf, path[0]); }
  }

  lemma {:induction false} LeafGoneFacts<P(!new)>(s: Space<P>, ix: Index, ix': Index, path: seq<nat>, leaf: nat, p: nat)
    requires InRange(ix.forest) && InRange(ix'.forest) && leaf in ix.forest.above && p in ix.forest.above
    requires p < |ix.forest.nodes| && ix.forest.above[leaf] != {}
    requires Stored(s, ix.forest) && FreeSlots(ix.forest, ix.free) && PlacedBut(ix.forest, ix.at, leaf) && Rooted(ix.forest, ix.root)
    requires Trees(ix, []) && Line(ix.forest, path) && leaf !in path
    requires ix'.forest.above == ix.forest.above - {leaf} && ix'.free == ix.free + {leaf} && ix'.at == ix.at && ix'.root == ix.root
    requires exists kept :: ix'.forest.nodes == ix.forest.nodes[p := ix.forest.nodes[p].(children := kept)]
    ensures Stored(s, ix'.forest) && FreeSlots(ix'.forest, ix'.free) && Placed(ix'.forest, ix'.at) && Rooted(ix'.forest, ix'.root)
    ensures Trees(ix', []) && Line(ix'.forest, path)
  {
    hide Line, Trees;
    HoleDropped(ix.forest, ix'.forest, ix.at, ix.free, leaf);
    LineKept(ix.forest, ix'.forest, path);
    TreesKept(ix, ix', leaf);
  }

  lemma {:induction false} TreesKept(ix: Index, ix': Index, leaf: nat)
    requires Trees(ix, []) && leaf in ix.forest.above && ix.forest.above[leaf] != {}
    requires ix'.forest.above == ix.forest.above - {leaf} && ix'.root == ix.root
    ensures Trees(ix', [])
  {
  }

  lemma {:induction false} LineKept(f: Forest, f': Forest, line: seq<nat>)
    requires Line(f, line) && forall x | x in line && x in f.above :: x in f'.above && f.above[x] <= f'.above[x]
    ensures Line(f', line)
  {
    assert forall j | 0 <= j < |line| :: line[j] in line;
  }

  // --- second phase: a node of the line is rechecked ---

  /** A node's children, those that stay and those that go. */
  ghost predicate Partition(children: seq<nat>, kept: seq<nat>, gone: seq<nat>) {
    NoDup(kept) && NoDup(gone) && (forall c :: c in children <==> c in kept || c in gone) && forall c | c in kept :: c !in gone
  }

  ghost function WithChildren(ix: Index, v: nat, kept: seq<nat>): Index
    requires InRange(ix.forest) && v in ix.forest.above
  {
    ix.(forest := Detach(ix.forest, v, kept))
  }

  /** The lowest node of the line keeps the children it covers and bounds its descendants again. */
  lemma {:induction false} Recheck<P(!new)>(s: Space<P>, ix: Index, rest: seq<nat>, v: nat, kept: seq<nat>, gone: seq<nat>)
    requires Repairing(s, ix, rest + [v], []) && v in ix.forest.above && Partition(ix.forest.nodes[v].children, kept, gone)
    requires forall c | c in kept :: c < |ix.forest.nodes| && Dist(s, ix.forest, v, c) <= Power(ix.forest.nodes[v].level)
    ensures Repairing(s, WithChildren(ix, v, kept), rest, gone)
  {
    hide LevelsFall, ChildrenOk, ParentsOk, TrueMetric, InReach, Bound, Chained, Power, PowerUp, Line, Members, Trees, Stored, Rooted, FreeSlots, Placed,
         Detach, Top;
    var f := ix.forest;
    var f' := Detach(f, v, kept);
    LastOfLine(f, rest, v);
    DetachBound(s, f, v, kept, Members(rest + [v]), Top(rest + [v]));
    DetachFacts(f, v, kept);
    KeptCore(s, ix, WithChildren(ix, v, kept), v);
    SettleLast(s, f', rest, v);
    LineKept(f, f', rest);
    CutTrees(ix, WithChildren(ix, v, kept), v, kept, gone);
    forall c, p | c in gone && p in rest ensures !Under(f', c, p) {
      ApartFromLine(f, f', rest, v, c, p);
    }
  }

  lemma {:induction false} LastOfLine(f: Forest, rest: seq<nat>, v: nat)
    requires InRange(f) && Line(f, rest + [v])
    ensures Line(f, rest) && v !in rest && Members(rest + [v]) == Members(rest) + {v} && Members(rest) == Members(rest + [v]) - {v}
    ensures forall x | x in Members(rest + [v]) :: Under(f, x, v)
    ensures Top(rest + [v]).Some? && Under(f, Top(rest + [v]).value, v)
    ensures forall x | x in rest :: x in f.above && x in f.above[v] && Under(f, x, v)
  {
    var line := rest + [v];
    LineChained(f, line);
    forall j | 0 <= j < |rest| ensures rest[j] in f.above { assert line[j] in f.above; }
    forall j, k | 0 <= j < k < |rest| ensures rest[j] in f.above[rest[k]] {
      assert line[j] in f.above[line[k]];
    }
    forall x | x in rest ensures x in f.above && x in f.above[v] {
      var j :| 0 <= j < |rest| && rest[j] == x;
      assert line[j] in f.above[line[|rest|]];
    }
  }

  /** Fewer ancestors and other children leave the rest of the index as it is. */
  lemma {:induction false} KeptCore<P(!new)>(s: Space<P>, ix: Index, ix': Index, v: nat)
    requires InRange(ix.forest) && InRange(ix'.forest) && v in ix.forest.above && ix'.forest.above.Keys == ix.forest.above.Keys
    requires exists kept :: ix'.forest.nodes == ix.forest.nodes[v := ix.forest.nodes[v].(children := kept)]
    requires forall w | w in ix.forest.above :: ix'.forest.above[w] <= ix.forest.above[w]
    requires Stored(s, ix.forest) && FreeSlots(ix.forest, ix.free) && Placed(ix.forest, ix.at) && Rooted(ix.forest, ix.root)
    requires ix'.free == ix.free && ix'.at == ix.at && ix'.root == ix.root
    ensures Stored(s, ix'.forest) && FreeSlots(ix'.forest, ix'.free) && Placed(ix'.forest, ix'.at) && Rooted(ix'.forest, ix'.root)
  {
  }

  lemma {:induction false} SettleLast<P(!new)>(s: Space<P>, f: Forest, rest: seq<nat>, v: nat)
    requires s.Measured() && Shape(f) && Stored(s, f) && v in f.above
    requires Bound(s, f, Members(rest + [v]), Top(rest + [v])) && Chained(f, Members(rest + [v]), Top(rest + [v]))
    requires Members(rest) == Members(rest + [v]) - {v} && forall x | x in Members(rest + [v]) :: Under(f, x, v)
    requires forall c | c in f.nodes[v].children :: c < |f.nodes| && Dist(s, f, v, c) <= Power(f.nodes[v].level)
    ensures Bound(s, f, Members(rest), Top(rest)) && Chained(f, Members(rest), Top(rest))
  {
    hide LevelsFall, ChildrenOk, ParentsOk, TrueMetric, InReach, Bound, Chained, Power, PowerUp, Within, Via;
    SettleBound(s, f, v, Members(rest + [v]), Top(rest + [v]));
    if rest == [] {
      assert Members(rest) == {};
      TopSettled(s, f, v);
      NothingPending(f);
    } else {
      assert (rest + [v])[0] == rest[0];
    }
  }

  /** The trees are the index's and those of the children cut off. */
  lemma {:induction false} CutTrees(ix: Index, ix': Index, v: nat, kept: seq<nat>, gone: seq<nat>)
    requires Shape(ix.forest) && v in ix.forest.above && Trees(ix, []) && Partition(ix.forest.nodes[v].children, kept, gone)
    requires ix'.forest.above.Keys == ix.forest.above.Keys && ix'.root == ix.root && Rooted(ix.forest, ix.root)
    requires forall w | w in ix.forest.above ::
      ix'.forest.above[w] == if Cut(ix.forest, v, kept, w) then ix.forest.above[w] - (ix.forest.above[v] + {v}) else ix.forest.above[w]
    ensures Trees(ix', gone)
  {
    hide LevelsFall, ChildrenOk, ParentsOk, Cut, IsChild;
    var f := ix.forest;
    forall c | c in gone ensures c in f.above && ix'.forest.above[c] == {} && ix.root != Some(c) {
      CutOff(f, v, kept, c);
    }
    forall w | w in f.above && ix'.forest.above[w] == {} && ix.root != Some(w) ensures w in gone {
      assert Cut(f, v, kept, w);
      var c := TopOfCut(f, v, kept, w);
    }
  }

  lemma {:induction false} CutOff(f: Forest, v: nat, kept: seq<nat>, c: nat)
    requires Shape(f) && v in f.above && c in f.nodes[v].children && c !in kept
    ensures c in f.above && Cut(f, v, kept, c) && f.above[c] == f.above[v] + {v}
  {
    ChildOf(f, v, c);
    assert Under(f, c, c);
  }

  lemma {:induction false} TopOfCut(f: Forest, v: nat, kept: seq<nat>, w: nat) returns (c: nat)
    requires Shape(f) && v in f.above && w in f.above && Cut(f, v, kept, w)
    ensures c in f.nodes[v].children && c !in kept && (c == w || c in f.above[w] - (f.above[v] + {v}))
  {
    c :| c in f.nodes[v].children && c !in kept && Under(f, c, w);
    ChildOf(f, v, c);
    NotAboveItself(f, v, c, c);
  }

  lemma {:induction false} ApartFromLine(f: Forest, f': Forest, rest: seq<nat>, v: nat, c: nat, p: nat)
    requires Shape(f) && v in f.above && c in f.nodes[v].children && p in f.above && p in f.above[v]
    requires f'.above.Keys == f.above.Keys && forall w | w in f.above :: f'.above[w] <= f.above[w]
    ensures !Under(f', c, p)
  {
    ChildOf(f, v, c);
    if Under(f, c, p) { NotAboveItself(f, v, c, p); }
  }

  // --- a subtree is taken out and its elements are inserted again ---

  /** `seen` nodes of the tree of `c` are freed, and `elements` are theirs. */
  ghost predicate Collecting(ix: Index, c: nat, seen: set<nat>, stack: seq<nat>, elements: seq<nat>, free: set<nat>, at: map<nat, nat>) {
    && Shape(ix.forest) && Walk(ix.forest, c, seen, stack, {}) && NoDup(elements)
    && (forall x | x in seen :: x in ix.forest.above && ix.forest.nodes[x].element in elements)
    && (forall e | e in elements :: e in ix.at && ix.at[e] in seen)
    && free == ix.free + seen && at == ix.at - Members(elements)
  }

  lemma {:induction false} CollectStart(ix: Index, c: nat)
    requires Shape(ix.forest) && c in ix.forest.above && ix.forest.above[c] == {}
    ensures Collecting(ix, c, {}, [c], [], ix.free, ix.at)
  {
    WalkStart(ix.forest, c);
    hide Shape;
    assert Members<nat>([]) == {};
    assert ix.at - {} == ix.at;
  }

  lemma {:induction false} CollectStep(ix: Index, c: nat, seen: set<nat>, rest: seq<nat>, x: nat, elements: seq<nat>, free: set<nat>, at: map<nat, nat>)
    requires Collecting(ix, c, seen, rest + [x], elements, free, at) && Placed(ix.forest, ix.at) && x in ix.forest.above
    ensures var node := ix.forest.nodes[x];
            Collecting(ix, c, seen + {x}, rest + node.children, elements + [node.element], free + {x}, at - {node.element})
    ensures x !in seen
  {
    hide LevelsFall, ChildrenOk, ParentsOk, Walk, Members, NoDup;
    var f, node := ix.forest, ix.forest.nodes[x];
    ChildrenDistinct(f, x);
    WalkStep(f, c, seen, rest, x, {}, node.children, {});
    AppendNoDup(elements, node.element);
    MembersAppend(elements, node.element);
    RemoveLater(ix.at, Members(elements), node.element);
  }

  lemma {:induction false} ChildrenDistinct(f: Forest, v: nat)
    requires Shape(f) && v in f.above
    ensures NoDup(f.nodes[v].children)
  {
  }

  lemma {:induction false} RemoveLater(at: map<nat, nat>, gone: set<nat>, e: nat)
    ensures (at - gone) - {e} == at - (gone + {e})
  {
  }

  lemma {:induction false} AppendNoDup(s: seq<nat>, x: nat)
    requires NoDup(s) && x !in s
    ensures NoDup(s + [x])
  {
  }

  lemma {:induction false} CollectDone(ix: Index, c: nat, seen: set<nat>, elements: seq<nat>, free: set<nat>, at: map<nat, nat>)
    requires Collecting(ix, c, seen, [], elements, free, at)
    ensures forall w :: w in seen <==> Under(ix.forest, c, w)
    ensures NoDup(elements) && free == ix.free + seen && at == ix.at - Members(elements)
    ensures forall x | x in seen :: x in ix.forest.above && ix.forest.nodes[x].element in elements
    ensures forall e | e in elements :: e in ix.at && ix.at[e] in seen
  {
    hide LevelsFall, ChildrenOk, ParentsOk, NoDup, Members;
    forall w | Under(ix.forest, c, w) ensures w in seen {
      var _ := WalkDone(ix.forest, c, seen, {}, w);
    }
  }

  ghost function Taken(ix: Index, c: nat, free: set<nat>, at: map<nat, nat>): Index {
    Index(DropTree(ix.forest, c), free, at, ix.root)
  }

  lemma {:induction false} TreeTaken<P(!new)>(s: Space<P>, ix: Index, line: seq<nat>, todo: seq<nat>, seen: set<nat>, elements: seq<nat>, free: set<nat>, at: map<nat, nat>)
    requires todo != [] && Repairing(s, ix, line, todo) && Collecting(ix, todo[0], seen, [], elements, free, at)
    ensures Repairing(s, Taken(ix, todo[0], free, at), line, todo[1..])
    ensures forall e | e in elements :: e < |s.keys| && e !in at
    ensures NoDup(elements) && at.Keys + Members(elements) == ix.at.Keys
  {
    hide Loose, Shape, Members, Top, DropTree, Collecting, Line, Trees, NoDup;
    TakenLoose(s, ix, line, todo, seen, elements, free, at);
    CollectDone(ix, todo[0], seen, elements, free, at);
    TakenFacts(ix, todo[0], seen, elements, free, at);
    TakenApart(s, ix, line, todo);
    LineKept(ix.forest, DropTree(ix.forest, todo[0]), line);
    TakenTrees(ix, Taken(ix, todo[0], free, at), line, todo, seen);
  }

  lemma {:induction false} TakenApart<P(!new)>(s: Space<P>, ix: Index, line: seq<nat>, todo: seq<nat>)
    requires todo != [] && Repairing(s, ix, line, todo)
    ensures InRange(ix.forest) && todo[0] in ix.forest.above
    ensures forall d | d in todo[1..] :: d in todo && !Under(ix.forest, todo[0], d)
    ensures forall p | p in line :: !Under(ix.forest, todo[0], p)
  {
    hide LevelsFall, ChildrenOk, ParentsOk, TrueMetric, InReach, Bound, Chained, Power, PowerUp, Members, Stored, FreeSlots, Placed, Line, Trees;
    ApartTrees(ix, line, todo);
  }

  /** The tree taken out leaves the others as they were. */
  lemma {:induction false} TakenLoose<P(!new)>(s: Space<P>, ix: Index, line: seq<nat>, todo: seq<nat>, seen: set<nat>, elements: seq<nat>, free: set<nat>, at: map<nat, nat>)
    requires todo != [] && Repairing(s, ix, line, todo) && Collecting(ix, todo[0], seen, [], elements, free, at)
    ensures Loose(s, Taken(ix, todo[0], free, at), Members(line), Top(line))
    ensures forall e | e in elements :: e < |s.keys| && e !in at
    ensures NoDup(elements) && at.Keys + Members(elements) == ix.at.Keys
  {
    hide LevelsFall, ChildrenOk, ParentsOk, TrueMetric, InReach, Bound, Chained, Power, PowerUp, Members, Stored, Rooted, FreeSlots, Placed,
         Top, DropTree, Collecting, Line, Trees, NoDup;
    var f, c := ix.forest, todo[0];
    CollectDone(ix, c, seen, elements, free, at);
    ApartTrees(ix, line, todo);
    DropTreeBound(s, f, c, Members(line), Top(line));
    TakenFacts(ix, c, seen, elements, free, at);
    TakenCore(s, ix, Taken(ix, c, free, at), seen, elements);
  }

  /** The first tree of `todo` holds neither the line nor the root nor another tree's root. */
  lemma {:induction false} ApartTrees(ix: Index, line: seq<nat>, todo: seq<nat>)
    requires todo != [] && Trees(ix, todo) && (forall c, p | c in todo && p in line :: !Under(ix.forest, c, p))
    requires InRange(ix.forest) && Rooted(ix.forest, ix.root)
    ensures todo[0] in todo && todo[0] in ix.forest.above && ix.forest.above[todo[0]] == {}
    ensures Top(line).Some? ==> !Under(ix.forest, todo[0], Top(line).value)
    ensures ix.root.Some? ==> !Under(ix.forest, todo[0], ix.root.value)
    ensures forall d | d in todo[1..] :: d in todo && !Under(ix.forest, todo[0], d)
    ensures forall p | p in line :: !Under(ix.forest, todo[0], p)
  {
    forall d | d in todo[1..] ensures d in todo && !Under(ix.forest, todo[0], d) {
      var i :| 0 <= i < |todo[1..]| && todo[1..][i] == d;
      assert todo[i + 1] == d;
    }
  }

  lemma {:induction false} TakenFacts(ix: Index, c: nat, seen: set<nat>, elements: seq<nat>, free: set<nat>, at: map<nat, nat>)
    requires forall w :: w in seen <==> Under(ix.forest, c, w)
    ensures Taken(ix, c, free, at).forest.nodes == ix.forest.nodes && Taken(ix, c, free, at).forest.above == ix.forest.above - seen
  {
  }

  lemma {:induction false} TakenCore<P(!new)>(s: Space<P>, ix: Index, ix': Index, seen: set<nat>, elements: seq<nat>)
    requires InRange(ix.forest) && InRange(ix'.forest) && ix'.forest.nodes == ix.forest.nodes && ix'.forest.above == ix.forest.above - seen
    requires Stored(s, ix.forest) && FreeSlots(ix.forest, ix.free) && Placed(ix.forest, ix.at) && Rooted(ix.forest, ix.root)
    requires ix.root.Some? ==> ix.root.value !in seen
    requires forall x | x in seen :: x in ix.forest.above && ix.forest.nodes[x].element in elements
    requires forall e | e in elements :: e in ix.at && ix.at[e] in seen
    requires ix'.free == ix.free + seen && ix'.at == ix.at - Members(elements) && ix'.root == ix.root
    ensures Stored(s, ix'.forest) && FreeSlots(ix'.forest, ix'.free) && Placed(ix'.forest, ix'.at) && Rooted(ix'.forest, ix'.root)
    ensures forall e | e in elements :: e < |s.keys| && e !in ix'.at
    ensures ix'.at.Keys + Members(elements) == ix.at.Keys
  {
  }

  lemma {:induction false} TakenTrees(ix: Index, ix': Index, line: seq<nat>, todo: seq<nat>, seen: set<nat>)
    requires todo != [] && Trees(ix, todo) && ix'.root == ix.root && ix'.forest.above == ix.forest.above - seen
    requires todo[0] in ix.forest.above && forall w :: w in seen <==> Under(ix.forest, todo[0], w)
    requires forall d | d in todo[1..] :: d in todo && !Under(ix.forest, todo[0], d)
    requires forall c, p | c in todo && p in line :: !Under(ix.forest, c, p)
    ensures Trees(ix', todo[1..])
    ensures forall c, p | c in todo[1..] && p in line :: !Under(ix'.forest, c, p)
  {
    assert todo[0] in seen;
    forall v | v in todo && v != todo[0] ensures v in todo[1..] {
      var i :| 0 <= i < |todo| && todo[i] == v;
      assert todo[1..][i - 1] == v;
    }
    forall c, p | c in todo[1..] && p in line ensures !Under(ix'.forest, c, p) {
      assert c in todo && !Under(ix.forest, c, p);
    }
  }

  /** Inserting an element into the index's tree disturbs no repair. */
  lemma {:induction false} RepairingKept<P(!new)>(s: Space<P>, ix: Index, ix': Index, e: nat, n: nat, line: seq<nat>, todo: seq<nat>)
    requires Repairing(s, ix, line, todo) && Inserted(s, ix, ix', e, n, Members(line), Top(line))
    ensures Repairing(s, ix', line, todo) && ix'.at.Keys == ix.at.Keys + {e}
  {
    hide LevelsFall, ChildrenOk, ParentsOk, TrueMetric, InReach, Bound, Chained, Power, PowerUp, Members, Stored, Rooted, FreeSlots, Placed, Top, WellPlaced, Grown, Trees, Line;
    LineKept(ix.forest, ix'.forest, line);
    hide SameNodes;
    TreesAfter(ix, ix', e, n, todo);
    ApartAfter(ix, ix', e, n, line, todo);
  }

  lemma {:induction false} TreesAfter(ix: Index, ix': Index, e: nat, n: nat, todo: seq<nat>)
    requires InRange(ix.forest) && Rooted(ix.forest, ix.root) && Trees(ix, todo) && Kept(ix, ix', e, n)
    ensures Trees(ix', todo)
  {
  }

  lemma {:induction false} ApartAfter(ix: Index, ix': Index, e: nat, n: nat, line: seq<nat>, todo: seq<nat>)
    requires Trees(ix, todo) && Kept(ix, ix', e, n) && Line(ix.forest, line)
    requires forall c, p | c in todo && p in line :: !Under(ix.forest, c, p)
    ensures forall c, p | c in todo && p in line :: !Under(ix'.forest, c, p)
  {
    forall c, p | c in todo && p in line ensures !Under(ix'.forest, c, p) {
      assert p in ix.forest.above && !Under(ix.forest, c, p);
    }
  }

  /** When nothing is left to recheck or reinsert the index is settled. */
  lemma {:induction false} Repaired<P(!new)>(s: Space<P>, ix: Index)
    requires Repairing(s, ix, [], [])
    ensures Settled(s, ix)
  {
    hide LevelsFall, ChildrenOk, ParentsOk, TrueMetric, InReach, Bound, Chained, Power, PowerUp, Stored, Rooted, FreeSlots, Placed;
    assert Members<nat>([]) == {};
  }

  // --- what the loops of a removal use ---

  /** The first `i` of a taken tree's elements are back in the index, which held `held` before. */
  ghost predicate Reinserting<P(!new)>(s: Space<P>, ix: Index, line: seq<nat>, todo: seq<nat>, elements: seq<nat>, i: nat, held: set<nat>) {
    && Repairing(s, ix, line, todo) && NoDup(elements) && i <= |elements|
    && (forall e | e in elements :: e < |s.keys|)
    && (forall k | i <= k < |elements| :: elements[k] !in ix.at)
    && ix.at.Keys + Members(elements[i..]) == held
  }

  lemma {:induction false} RepairFacts<P(!new)>(s: Space<P>, ix: Index, line: seq<nat>, c: nat, others: seq<nat>)
    requires Repairing(s, ix, line, [c] + others)
    ensures Shape(ix.forest) && InRange(ix.forest) && Placed(ix.forest, ix.at) && c in ix.forest.above && ix.forest.above[c] == {}
  {
    hide LevelsFall, ChildrenOk, ParentsOk, Power, PowerUp, Bound, Chained, TrueMetric, InReach, Line;
    assert c in [c] + others;
  }

  lemma {:induction false} CollectKnown(ix: Index, c: nat, seen: set<nat>, rest: seq<nat>, x: nat, elements: seq<nat>, free: set<nat>, at: map<nat, nat>)
    requires Collecting(ix, c, seen, rest + [x], elements, free, at)
    ensures x in ix.forest.above && InRange(ix.forest)
  {
    hide LevelsFall, ChildrenOk, ParentsOk;
    assert x in rest + [x];
  }

  lemma {:induction false} Collected<P(!new)>(s: Space<P>, ix: Index, line: seq<nat>, c: nat, others: seq<nat>, seen: set<nat>, elements: seq<nat>, free: set<nat>, at: map<nat, nat>)
    requires Repairing(s, ix, line, [c] + others) && Collecting(ix, c, seen, [], elements, free, at)
    ensures Taken(ix, c, free, at) == Index(Forest(ix.forest.nodes, Taken(ix, c, free, at).forest.above), free, at, ix.root)
    ensures Taken(ix, c, free, at).forest == DropTree(ix.forest, c)
    ensures Reinserting(s, Taken(ix, c, free, at), line, others, elements, 0, ix.at.Keys)
  {
    hide Repairing, Collecting, Members, DropTree, NoDup;
    assert ([c] + others)[1..] == others && elements[0..] == elements;
    TakenNodes(ix, c, free, at);
    TreeTaken(s, ix, line, [c] + others, seen, elements, free, at);
  }

  lemma {:induction false} TakenNodes(ix: Index, c: nat, free: set<nat>, at: map<nat, nat>)
    ensures Taken(ix, c, free, at) == Index(Forest(ix.forest.nodes, Taken(ix, c, free, at).forest.above), free, at, ix.root)
    ensures Taken(ix, c, free, at).forest == DropTree(ix.forest, c)
  {
  }

  lemma {:induction false} NextReady<P(!new)>(s: Space<P>, ix: Index, line: seq<nat>, todo: seq<nat>, elements: seq<nat>, i: nat, held: set<nat>)
    requires Reinserting(s, ix, line, todo, elements, i, held) && i < |elements|
    ensures Ready(s, ix, elements[i], Members(line), Top(line))
  {
    hide Loose, Line, Trees;
    assert elements[i] in elements;
  }

  lemma {:induction false} NextReinserted<P(!new)>(s: Space<P>, ix: Index, ix': Index, n: nat, line: seq<nat>, todo: seq<nat>, elements: seq<nat>, i: nat, held: set<nat>)
    requires Reinserting(s, ix, line, todo, elements, i, held) && i < |elements|
    requires Inserted(s, ix, ix', elements[i], n, Members(line), Top(line))
    ensures Reinserting(s, ix', line, todo, elements, i + 1, held)
  {
    hide Repairing, Inserted, Members, Top;
    RepairingKept(s, ix, ix', elements[i], n, line, todo);
    RestMembers(elements, i);
  }

  lemma {:induction false} RestMembers(elements: seq<nat>, i: nat)
    requires i < |elements|
    ensures Members(elements[i..]) == {elements[i]} + Members(elements[i + 1..])
  {
    assert elements[i..] == [elements[i]] + elements[i + 1..];
  }

  lemma {:induction false} AllReinserted<P(!new)>(s: Space<P>, ix: Index, line: seq<nat>, todo: seq<nat>, elements: seq<nat>, held: set<nat>)
    requires Reinserting(s, ix, line, todo, elements, |elements|, held)
    ensures Repairing(s, ix, line, todo) && ix.at.Keys == held
  {
    hide Repairing;
    assert elements[|elements|..] == [];
    assert Members<nat>([]) == {};
  }

  /** The descent has reached a node without children. */
  ghost predicate AtLeaf<P(!new)>(s: Space<P>, ix: Index, path: seq<nat>, leaf: nat) {
    Descending(s, ix, path, leaf) && ix.forest.nodes[leaf].children == []
  }

  lemma {:induction false} DescentKnown<P(!new)>(s: Space<P>, ix: Index, path: seq<nat>, current: nat)
    requires Descending(s, ix, path, current)
    ensures current < |ix.forest.nodes| && current in ix.forest.above && InRange(ix.forest)
    ensures forall i | 0 <= i < |ix.forest.nodes[current].children| :: ix.forest.nodes[current].children[i] < |ix.forest.nodes|
  {
    hide LevelsFall, ParentsOk, Power, PowerUp, Bound, Chained, TrueMetric, InReach, Line, PlacedBut, FreeSlots, Stored;
    forall i | 0 <= i < |ix.forest.nodes[current].children| ensures ix.forest.nodes[current].children[i] < |ix.forest.nodes| {
      ChildOf(ix.forest, current, ix.forest.nodes[current].children[i]);
    }
  }

  /** One step of the descent, as the fields see it. */
  lemma {:induction false} DescentNext<P(!new)>(s: Space<P>, ix: Index, ix': Index, path: seq<nat>, current: nat, child: nat)
    requires Descending(s, ix, path, current) && current < |ix.forest.nodes| && child in ix.forest.nodes[current].children && child < |ix.forest.nodes|
    requires var e := ix.forest.nodes[child].element;
             ix' == Index(Forest(ix.forest.nodes[current := ix.forest.nodes[current].(element := e)], ix.forest.above), ix.free, ix.at[e := current], ix.root)
    ensures Descending(s, ix', path + [current], child) && ix'.at.Keys == ix.at.Keys
    ensures current in ix.forest.above && child in ix.forest.above
    ensures ix.forest.above.Keys - ix.forest.above[child] < ix.forest.above.Keys - ix.forest.above[current]
  {
    hide Descending, Line;
    DescentKnown(s, ix, path, current);
    DescentStep(s, ix, path, current, child);
    assert ix' == SwappedUp(ix, current, child);
    assert current in ix.forest.above.Keys - ix.forest.above[current];
  }

  /** The leaf hangs below a parent or is all there is. */
  lemma {:induction false} LeafParent<P(!new)>(s: Space<P>, ix: Index, path: seq<nat>, leaf: nat)
    requires AtLeaf(s, ix, path, leaf)
    ensures leaf in ix.forest.above && leaf < |ix.forest.nodes| && InRange(ix.forest)
    ensures match ix.forest.nodes[leaf].parent {
              case Some(p) => p in ix.forest.above && p < |ix.forest.nodes| && leaf in ix.forest.nodes[p].children && NoDup(ix.forest.nodes[p].children)
              case None => ix.root == Some(leaf) && path == []
            }
  {
    hide LevelsFall, Power, PowerUp, Bound, Chained, TrueMetric, InReach, PlacedBut, FreeSlots, Stored, NoDup, IsChild;
    LineTop(ix.forest, path, leaf);
    if ix.forest.above[leaf] != {} { var p := Parent(ix.forest, leaf); }
  }

  lemma {:induction false} LineTop(f: Forest, path: seq<nat>, leaf: nat)
    requires Line(f, path + [leaf]) && leaf in f.above
    ensures path != [] ==> f.above[leaf] != {}
  {
    if path != [] { assert (path + [leaf])[0] in f.above[(path + [leaf])[|path|]]; }
  }

  lemma {:induction false} LeafCut<P(!new)>(s: Space<P>, ix: Index, path: seq<nat>, leaf: nat, p: nat, i: nat)
    requires AtLeaf(s, ix, path, leaf) && leaf < |ix.forest.nodes| && ix.forest.nodes[leaf].parent == Some(p)
    requires InRange(ix.forest) && p in ix.forest.above && i < |ix.forest.nodes[p].children| && ix.forest.nodes[p].children[i] == leaf
    ensures var kept := Without(ix.forest.nodes[p].children, i);
            var ix' := LeafDropped(ix, leaf, p, kept);
            && Repairing(s, ix', path, [])
            && ix' == Index(Forest(ix.forest.nodes[p := ix.forest.nodes[p].(children := kept)], ix'.forest.above), ix.free + {leaf}, ix.at, ix.root)
  {
    hide Repairing, Descending, Without;
    LeafParent(s, ix, path, leaf);
    WithoutOne(ix.forest.nodes[p].children, i);
    LeafGone(s, ix, path, leaf, p, Without(ix.forest.nodes[p].children, i));
  }

  lemma {:induction false} LastCut<P(!new)>(s: Space<P>, ix: Index, leaf: nat)
    requires AtLeaf(s, ix, [], leaf) && ix.root == Some(leaf)
    ensures var ix' := LastDropped(ix, leaf);
            Repairing(s, ix', [], []) && ix' == Index(Forest(ix.forest.nodes, ix'.forest.above), ix.free + {leaf}, ix.at, None)
  {
    hide Repairing;
    LastGone(s, ix, leaf);
  }

  /** The children that node `v` covers, or those that it does not. */
  ghost function Selected<P(!new)>(s: Space<P>, nodes: seq<Node>, v: nat, children: seq<nat>, covered: bool): seq<nat>
    requires v < |nodes| && forall i | 0 <= i < |children| :: children[i] < |nodes|
  {
    if children == [] then []
    else
      var last := |children| - 1;
      Selected(s, nodes, v, children[..last], covered) + if Covers(s, nodes, v, children[last]) == covered then [children[last]] else []
  }

  predicate Covers<P(!new)>(s: Space<P>, nodes: seq<Node>, v: nat, c: nat)
    requires v < |nodes| && c < |nodes|
  {
    s.D(nodes[v].element, nodes[c].element) <= Power(nodes[v].level)
  }

  lemma {:induction false} SelectedMembers<P(!new)>(s: Space<P>, nodes: seq<Node>, v: nat, children: seq<nat>, covered: bool)
    requires v < |nodes| && (forall i | 0 <= i < |children| :: children[i] < |nodes|) && NoDup(children)
    ensures var r := Selected(s, nodes, v, children, covered);
            NoDup(r) && forall c :: c in r <==> c in children && c < |nodes| && Covers(s, nodes, v, c) == covered
  {
    if children != [] {
      var last := |children| - 1;
      SelectedMembers(s, nodes, v, children[..last], covered);
      assert children == children[..last] + [children[last]];
      assert children[last] !in children[..last];
    }
  }

  lemma {:induction false} SelectedStep<P(!new)>(s: Space<P>, nodes: seq<Node>, v: nat, children: seq<nat>, i: nat, covered: bool)
    requires v < |nodes| && (forall i | 0 <= i < |children| :: children[i] < |nodes|) && i < |children|
    ensures Selected(s, nodes, v, children[..i + 1], covered)
         == Selected(s, nodes, v, children[..i], covered) + if Covers(s, nodes, v, children[i]) == covered then [children[i]] else []
  {
    assert children[..i + 1][..i] == children[..i];
  }

  /** Rechecking the lowest node of the line, as the fields see it. */
  lemma {:induction false} Rechecked<P(!new)>(s: Space<P>, ix: Index, rest: seq<nat>, v: nat)
    requires Repairing(s, ix, rest + [v], [])
    ensures v < |ix.forest.nodes| && forall i | 0 <= i < |ix.forest.nodes[v].children| :: ix.forest.nodes[v].children[i] < |ix.forest.nodes|
    ensures var kept := Selected(s, ix.forest.nodes, v, ix.forest.nodes[v].children, true);
            var gone := Selected(s, ix.forest.nodes, v, ix.forest.nodes[v].children, false);
            && InRange(ix.forest) && v in ix.forest.above
            && var ix' := WithChildren(ix, v, kept);
            && Repairing(s, ix', rest, gone)
            && ix' == ix.(forest := Forest(ix.forest.nodes[v := ix.forest.nodes[v].(children := kept)], ix'.forest.above))
  {
    hide Repairing, Selected, Line, NoDup, IsChild, LevelsFall, ChildrenOk, ParentsOk, Power, PowerUp;
    var f := ix.forest;
    LineKnown(s, ix, rest, v);
    forall i | 0 <= i < |f.nodes[v].children| ensures f.nodes[v].children[i] < |f.nodes| {
      ChildOf(f, v, f.nodes[v].children[i]);
    }
    ChildrenDistinct(f, v);
    SelectedMembers(s, f.nodes, v, f.nodes[v].children, true);
    SelectedMembers(s, f.nodes, v, f.nodes[v].children, false);
    Recheck(s, ix, rest, v, Selected(s, f.nodes, v, f.nodes[v].children, true), Selected(s, f.nodes, v, f.nodes[v].children, false));
  }

  lemma {:induction false} LineKnown<P(!new)>(s: Space<P>, ix: Index, rest: seq<nat>, v: nat)
    requires Repairing(s, ix, rest + [v], [])
    ensures Shape(ix.forest) && InRange(ix.forest) && v in ix.forest.above && v < |ix.forest.nodes|
  {
    hide LevelsFall, ChildrenOk, ParentsOk, Power, PowerUp, Bound, Chained, TrueMetric, InReach, FreeSlots, Stored, Placed, Trees;
    assert (rest + [v])[|rest|] == v;
  }

  // --- between operations ---

  lemma {:induction false} SettledReady<P(!new)>(s: Space<P>, ix: Index, e: nat)
    requires Settled(s, ix) && e < |s.keys| && e !in ix.at
    ensures Ready(s, ix, e, {}, None)
  {
  }

  lemma {:induction false} InsertedSettled<P(!new)>(s: Space<P>, ix: Index, ix': Index, e: nat, n: nat)
    requires Settled(s, ix) && Inserted(s, ix, ix', e, n, {}, None)
    ensures Settled(s, ix') && ix'.at.Keys == ix.at.Keys + {e}
  {
    hide Loose, WellPlaced, Grown, SameNodes;
  }
}
