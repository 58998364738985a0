/** The node arena of the cover tree as a forest: every node in use is mapped to the set of its proper
    ancestors, and the bound on descendants is a relation between a node and those below it
    (runners/genlayer-py-std/src-emb/genlayer_embeddings/vecdb.py:79-90, 260-423). */
module CoverForest {
  import opened Collections
  import opened Wrappers
  import opened CoverLevels

  datatype Node = Node(element: nat, level: int, children: seq<nat>, parent: Option<nat>)

  /** `above` is defined on the nodes in use and gives the proper ancestors of each. */
  datatype Forest = Forest(nodes: seq<Node>, above: map<nat, set<nat>>)

  function ElementOf(nodes: seq<Node>, v: nat): nat {
    if v < |nodes| then nodes[v].element else 0
  }

  ghost predicate InRange(f: Forest) {
    forall v | v in f.above :: v < |f.nodes| && v !in f.above[v] && f.above[v] <= f.above.Keys
  }

  ghost predicate LevelsFall(f: Forest)
    requires InRange(f)
  {
    forall v, a | v in f.above && a in f.above[v] :: f.nodes[a].level > f.nodes[v].level
  }

  ghost predicate IsChild(f: Forest, v: nat, c: nat)
    requires InRange(f) && v in f.above
  {
    c in f.above && f.nodes[c].parent == Some(v) && f.above[c] == f.above[v] + {v}
  }

  ghost predicate ChildrenOk(f: Forest)
    requires InRange(f)
  {
    forall v | v in f.above :: NoDup(f.nodes[v].children) && forall c | c in f.nodes[v].children :: IsChild(f, v, c)
  }

  /** A node with ancestors hangs below its parent. */
  ghost predicate ParentsOk(f: Forest)
    requires InRange(f)
  {
    forall c | c in f.above && f.above[c] != {} ::
      f.nodes[c].parent.Some? && f.nodes[c].parent.value in f.above
      && c in f.nodes[f.nodes[c].parent.value].children
  }

  ghost predicate Shape(f: Forest) {
    InRange(f) && LevelsFall(f) && ChildrenOk(f) && ParentsOk(f)
  }

  /** `w` is `v` or a descendant of it. */
  ghost predicate Under(f: Forest, v: nat, w: nat) {
    w in f.above && (w == v || v in f.above[w])
  }

  ghost function Parent(f: Forest, c: nat): (p: nat)
    requires Shape(f) && c in f.above && f.above[c] != {}
    ensures p in f.above && c in f.nodes[p].children && IsChild(f, p, c)
  {
    f.nodes[c].parent.value
  }

  lemma {:induction false} ChildOf(f: Forest, v: nat, c: nat)
    requires Shape(f) && v in f.above && c in f.nodes[v].children
    ensures IsChild(f, v, c) && v != c
  {
  }

  lemma {:induction false} AboveTransitive(f: Forest, a: nat, b: nat, w: nat)
    requires Shape(f) && w in f.above && b in f.above[w] && a in f.above[b]
    ensures a in f.above[w]
    decreases f.above[w]
  {
    var p := Parent(f, w);
    if b != p { AboveTransitive(f, a, b, p); }
  }

  /** Two ancestors of a node are one above the other. */
  lemma {:induction false} AboveChain(f: Forest, a: nat, b: nat, w: nat)
    requires Shape(f) && w in f.above && a in f.above[w] && b in f.above[w] && a != b
    ensures a in f.above[b] || b in f.above[a]
    decreases f.above[w]
  {
    var p := Parent(f, w);
    if a != p && b != p { AboveChain(f, a, b, p); }
  }

  /** A node without children has nothing below it. */
  lemma {:induction false} NothingBelow(f: Forest, v: nat, w: nat)
    requires Shape(f) && v in f.above && f.nodes[v].children == [] && w in f.above
    ensures v !in f.above[w]
    decreases f.above[w]
  {
    if v in f.above[w] {
      NothingBelow(f, v, Parent(f, w));
    }
  }

  /** In a forest with one root every node is under it. */
  lemma {:induction false} RootAbove(f: Forest, root: nat, w: nat)
    requires Shape(f) && w in f.above
    requires forall v | v in f.above && f.above[v] == {} :: v == root
    ensures Under(f, root, w)
    decreases f.above[w]
  {
    if w != root {
      var p := Parent(f, w);
      RootAbove(f, root, p);
    }
  }

  // --- the steps of the tree's operations ---

  /** The arena after `n` was allocated: every node in use is as before. */
  ghost predicate Allocated(f: Forest, nodes: seq<Node>, n: nat, node: Node) {
    n !in f.above && n < |nodes| && |f.nodes| <= |nodes| && nodes[n] == node
    && forall v | v in f.above && v < |f.nodes| :: nodes[v] == f.nodes[v]
  }

  /** A new leaf `n` below `p`. */
  ghost function LeafAdded(f: Forest, nodes: seq<Node>, n: nat, p: nat): Forest
    requires p in f.above && p < |nodes|
  {
    Forest(nodes[p := nodes[p].(children := nodes[p].children + [n])], f.above[n := f.above[p] + {p}])
  }

  /** The nodes in use before are in use and hold the same elements at the same levels. */
  ghost predicate SameNodes(f: Forest, f': Forest) {
    InRange(f) && InRange(f')
    && forall v | v in f.above ::
         v in f'.above && f'.nodes[v].element == f.nodes[v].element && f'.nodes[v].level == f.nodes[v].level
  }

  lemma {:induction false} LeafAddedFacts(f: Forest, nodes: seq<Node>, n: nat, p: nat, node: Node)
    requires InRange(f) && p in f.above && Allocated(f, nodes, n, node)
    ensures var f' := LeafAdded(f, nodes, n, p);
            SameNodes(f, f') && f'.above == f.above[n := f.above[p] + {p}] && |f'.nodes| == |nodes| && f'.nodes[n] == node
            && f'.nodes[p] == f.nodes[p].(children := f.nodes[p].children + [n])
            && forall w | w in f.above && w != p :: f'.nodes[w] == f.nodes[w]
  {
  }

  lemma {:induction false} LeafAddedShape(f: Forest, nodes: seq<Node>, n: nat, p: nat, element: nat, level: int)
    requires Shape(f) && p in f.above && Allocated(f, nodes, n, Node(element, level, [], Some(p))) && level < f.nodes[p].level
    ensures Shape(LeafAdded(f, nodes, n, p))
  {
    var f' := LeafAdded(f, nodes, n, p);
    assert InRange(f');
    forall v, a | v in f'.above && a in f'.above[v]
      ensures f'.nodes[a].level > f'.nodes[v].level
    {
      if v == n && a != p { assert a in f.above[p]; }
    }
    forall v | v in f'.above
      ensures NoDup(f'.nodes[v].children) && forall c | c in f'.nodes[v].children :: IsChild(f', v, c)
    {
      if v != n {
        assert forall c | c in f.nodes[v].children :: IsChild(f, v, c);
        assert n !in f.nodes[v].children;
        forall c | c in f'.nodes[v].children ensures IsChild(f', v, c) {
          if c != n { assert c in f.nodes[v].children; }
        }
      }
    }
    forall c | c in f'.above && f'.above[c] != {}
      ensures f'.nodes[c].parent.Some? && f'.nodes[c].parent.value in f'.above
           && c in f'.nodes[f'.nodes[c].parent.value].children
    {
      if c != n { assert c in f.nodes[f.nodes[c].parent.value].children; }
    }
  }

  /** A new root above `root`, the root of its tree. */
  ghost function RootAdded(f: Forest, nodes: seq<Node>, n: nat, root: nat): Forest
    requires root < |nodes|
  {
    Forest(nodes[root := nodes[root].(parent := Some(n))],
           map w | w in f.above.Keys + {n} :: if w !in f.above then {} else if Under(f, root, w) then f.above[w] + {n} else f.above[w])
  }

  lemma {:induction false} RootAddedFacts(f: Forest, nodes: seq<Node>, n: nat, root: nat, node: Node)
    requires InRange(f) && root in f.above && Allocated(f, nodes, n, node)
    ensures var f' := RootAdded(f, nodes, n, root);
            SameNodes(f, f') && f'.above.Keys == f.above.Keys + {n} && |f'.nodes| == |nodes| && f'.nodes[n] == node && f'.above[n] == {}
            && (forall w | w in f.above && w != root :: f'.nodes[w] == f.nodes[w])
            && f'.nodes[root] == f.nodes[root].(parent := Some(n))
            && (forall w | w in f.above :: f'.above[w] == if Under(f, root, w) then f.above[w] + {n} else f.above[w])
  {
    var f' := RootAdded(f, nodes, n, root);
    assert InRange(f');
  }

  /** `f'` is `f` with a new root `n` above `root`. */
  ghost predicate Crowned(f: Forest, f': Forest, n: nat, root: nat) {
    && SameNodes(f, f') && n !in f.above && root in f.above && f.above[root] == {} && f'.above.Keys == f.above.Keys + {n}
    && f'.above[n] == {} && f'.nodes[n].children == [root] && f'.nodes[n].level > f.nodes[root].level
    && f'.nodes[root] == f.nodes[root].(parent := Some(n))
    && (forall w | w in f.above && w != root :: f'.nodes[w] == f.nodes[w])
    && forall w | w in f.above :: f'.above[w] == if Under(f, root, w) then f.above[w] + {n} else f.above[w]
  }

  lemma {:induction false} RootAddedShape(f: Forest, nodes: seq<Node>, n: nat, root: nat, element: nat, level: int)
    requires Shape(f) && root in f.above && f.above[root] == {}
    requires Allocated(f, nodes, n, Node(element, level, [root], None)) && level > f.nodes[root].level
    ensures Shape(RootAdded(f, nodes, n, root))
  {
    var f' := RootAdded(f, nodes, n, root);
    RootAddedFacts(f, nodes, n, root, Node(element, level, [root], None));
    hide RootAdded, LevelsFall, ChildrenOk, ParentsOk;
    CrownedLevels(f, f', n, root);
    CrownedChildren(f, f', n, root);
    CrownedParents(f, f', n, root);
  }

  lemma {:induction false} CrownedLevels(f: Forest, f': Forest, n: nat, root: nat)
    requires Shape(f) && Crowned(f, f', n, root)
    ensures LevelsFall(f')
  {
    hide ChildrenOk, ParentsOk;
    forall v, a | v in f'.above && a in f'.above[v] ensures f'.nodes[a].level > f'.nodes[v].level {
      assert v != n;
      if a == n && v != root { assert f.nodes[root].level > f.nodes[v].level; }
    }
  }

  lemma {:induction false} CrownedChildren(f: Forest, f': Forest, n: nat, root: nat)
    requires Shape(f) && Crowned(f, f', n, root)
    ensures ChildrenOk(f')
  {
    hide LevelsFall, ParentsOk, IsChild;
    forall v | v in f'.above
      ensures NoDup(f'.nodes[v].children) && forall c | c in f'.nodes[v].children :: IsChild(f', v, c)
    {
      if v == n {
        CrownedBelow(f, f', n, root);
      } else {
        forall c | c in f'.nodes[v].children ensures IsChild(f', v, c) { CrownedChild(f, f', n, root, v, c); }
      }
    }
  }

  lemma {:induction false} CrownedBelow(f: Forest, f': Forest, n: nat, root: nat)
    requires InRange(f) && Crowned(f, f', n, root)
    ensures IsChild(f', n, root)
  {
  }

  lemma {:induction false} CrownedChild(f: Forest, f': Forest, n: nat, root: nat, v: nat, c: nat)
    requires Shape(f) && Crowned(f, f', n, root) && v in f.above && c in f.nodes[v].children
    ensures IsChild(f', v, c)
  {
    ChildOf(f, v, c);
    hide LevelsFall, ChildrenOk, ParentsOk;
    assert Under(f, root, v) <==> Under(f, root, c);
  }

  lemma {:induction false} CrownedParents(f: Forest, f': Forest, n: nat, root: nat)
    requires Shape(f) && Crowned(f, f', n, root)
    ensures ParentsOk(f')
  {
    forall c | c in f'.above && f'.above[c] != {}
      ensures f'.nodes[c].parent.Some? && f'.nodes[c].parent.value in f'.above
           && c in f'.nodes[f'.nodes[c].parent.value].children
    {
      if c != root {
        assert f.above[c] != {};
        var p := Parent(f, c);
        hide LevelsFall, ChildrenOk;
        assert f'.nodes[c].parent == Some(p);
      }
    }
  }

  /** Other elements in the same nodes. */
  ghost function WithElement(f: Forest, v: nat, element: nat): Forest
    requires v < |f.nodes|
  {
    f.(nodes := f.nodes[v := f.nodes[v].(element := element)])
  }

  lemma {:induction false} WithElementShape(f: Forest, v: nat, element: nat)
    requires Shape(f) && v in f.above
    ensures Shape(WithElement(f, v, element))
  {
    var f' := WithElement(f, v, element);
    assert InRange(f');
    forall x | x in f'.above
      ensures NoDup(f'.nodes[x].children) && forall c | c in f'.nodes[x].children :: IsChild(f', x, c)
    {
      assert f'.nodes[x].children == f.nodes[x].children;
      forall c | c in f'.nodes[x].children ensures IsChild(f', x, c) { assert IsChild(f, x, c); }
    }
  }

  /** `w` is under a child of `v` that is not kept. */
  ghost predicate Cut(f: Forest, v: nat, kept: seq<nat>, w: nat)
    requires InRange(f) && v in f.above
  {
    exists c :: c in f.nodes[v].children && c !in kept && Under(f, c, w)
  }

  /** `v`'s children cut down to `kept`; every other child becomes the root of a tree of its own. */
  ghost function Detach(f: Forest, v: nat, kept: seq<nat>): Forest
    requires InRange(f) && v in f.above
  {
    Forest(f.nodes[v := f.nodes[v].(children := kept)],
           map w | w in f.above :: if Cut(f, v, kept, w) then f.above[w] - (f.above[v] + {v}) else f.above[w])
  }

  lemma {:induction false} DetachFacts(f: Forest, v: nat, kept: seq<nat>)
    requires InRange(f) && v in f.above && InRange(Detach(f, v, kept))
    ensures var f' := Detach(f, v, kept);
            SameNodes(f, f') && f'.above.Keys == f.above.Keys && f'.nodes == f.nodes[v := f.nodes[v].(children := kept)]
            && forall w | w in f.above :: f'.above[w] == if Cut(f, v, kept, w) then f.above[w] - (f.above[v] + {v}) else f.above[w]
  {
  }

  lemma {:induction false} DetachShape(f: Forest, v: nat, kept: seq<nat>)
    requires Shape(f) && v in f.above && NoDup(kept) && forall c | c in kept :: c in f.nodes[v].children
    ensures Shape(Detach(f, v, kept))
  {
    var f' := Detach(f, v, kept);
    assert InRange(f') by {
      forall w | w in f'.above ensures f'.above[w] <= f'.above.Keys && w !in f'.above[w] {}
    }
    forall x | x in f'.above
      ensures NoDup(f'.nodes[x].children) && forall c | c in f'.nodes[x].children :: IsChild(f', x, c)
    {
      forall c | c in f'.nodes[x].children ensures IsChild(f', x, c) {
        DetachChild(f, v, kept, x, c);
      }
    }
    forall c | c in f'.above && f'.above[c] != {}
      ensures f'.nodes[c].parent.Some? && f'.nodes[c].parent.value in f'.above
           && c in f'.nodes[f'.nodes[c].parent.value].children
    {
      var p := Parent(f, c);
      if p == v && c !in kept {
        assert Under(f, c, c);
        assert false;
      }
    }
  }

  lemma {:induction false} DetachChild(f: Forest, v: nat, kept: seq<nat>, x: nat, c: nat)
    requires Shape(f) && v in f.above && x in f.above
    requires c in (if x == v then kept else f.nodes[x].children) && c in f.nodes[x].children && InRange(Detach(f, v, kept))
    ensures IsChild(Detach(f, v, kept), x, c)
  {
    hide Cut, Detach, LevelsFall, ChildrenOk, ParentsOk, NoDup;
    ChildOf(f, x, c);
    CutChild(f, v, kept, x, c);
    CutParent(f, v, kept, x, c);
    DetachFacts(f, v, kept);
    var gone := f.above[v] + {v};
    assert f.above[c] == f.above[x] + {x};
    if Cut(f, v, kept, x) {
      assert f.above[c] - gone == (f.above[x] - gone) + {x};
    }
  }

  /** What hangs below a node that is cut off is cut off with it. */
  lemma {:induction false} CutParent(f: Forest, v: nat, kept: seq<nat>, x: nat, c: nat)
    requires Shape(f) && v in f.above && x in f.above && c in f.nodes[x].children 
    ensures Cut(f, v, kept, x) ==> Cut(f, v, kept, c) && x != v && x !in f.above[v]
  {
    if Cut(f, v, kept, x) {
      var top :| top in f.nodes[v].children && top !in kept && Under(f, top, x);
      ChildOf(f, v, top);
      ChildOf(f, x, c);
      NotAboveItself(f, v, top, x);
      hide LevelsFall, ChildrenOk, ParentsOk;
      assert Under(f, top, c);
    }
  }

  lemma {:induction false} NotAboveItself(f: Forest, v: nat, top: nat, x: nat)
    requires Shape(f) && v in f.above && IsChild(f, v, top) && Under(f, top, x)
    ensures x !in f.above[v] && x != v
  {
    if x in f.above[top] && x != top { AboveTransitive(f, x, top, x); }
  }

  /** A child is cut off with its parent, or cut off from it. */
  lemma {:induction false} CutChild(f: Forest, v: nat, kept: seq<nat>, x: nat, c: nat)
    requires Shape(f) && v in f.above && x in f.above && c in f.nodes[x].children
    ensures Cut(f, v, kept, c) ==> Cut(f, v, kept, x) || (x == v && c !in kept)
  {
    assert IsChild(f, x, c);
    if Cut(f, v, kept, c) {
      var top :| top in f.nodes[v].children && top !in kept && Under(f, top, c);
      assert IsChild(f, v, top);
      assert top == c || Under(f, top, x);
    }
  }

  /** The tree of root `r` taken out of use. */
  ghost function DropTree(f: Forest, r: nat): Forest {
    f.(above := map w | w in f.above && !Under(f, r, w) :: f.above[w])
  }

  lemma {:induction false} DropTreeShape(f: Forest, r: nat)
    requires Shape(f) && r in f.above && f.above[r] == {}
    ensures Shape(DropTree(f, r))
  {
    var f' := DropTree(f, r);
    forall w, a | w in f'.above && a in f'.above[w] ensures a in f'.above {
      if Under(f, r, a) && a != r { AboveTransitive(f, r, a, w); }
    }
    assert InRange(f');
    forall x | x in f'.above
      ensures NoDup(f'.nodes[x].children) && forall c | c in f'.nodes[x].children :: IsChild(f', x, c)
    {
      forall c | c in f'.nodes[x].children ensures IsChild(f', x, c) {
        assert IsChild(f, x, c);
      }
    }
    forall c | c in f'.above && f'.above[c] != {}
      ensures f'.nodes[c].parent.Some? && f'.nodes[c].parent.value in f'.above
           && c in f'.nodes[f'.nodes[c].parent.value].children
    {
      var p := Parent(f, c);
      assert p in f.above[c];
    }
  }
}
