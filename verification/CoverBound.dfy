/** The bound on descendants and how the operations of the cover tree keep it, also across the states
    in the middle of a removal where some nodes hold a swapped element and are still to be rechecked
    (runners/genlayer-py-std/src-emb/genlayer_embeddings/vecdb.py:260-423, 443-449). */
module CoverBound {
  import opened Collections
  import opened Wrappers
  import opened CoverLevels
  import opened CoverForest

  ghost predicate Triangle<P>(dist: (P, P) -> real, a: P, b: P, c: P) {
    dist(a, c) <= dist(a, b) + dist(b, c)
  }

  /** What the distance protocol demands of an implementation. */
  ghost predicate TrueMetric<P(!new)>(dist: (P, P) -> real) {
    && (forall a, b :: dist(a, b) >= 0.0)
    && (forall a, b :: dist(a, b) == 0.0 <==> a == b)
    && (forall a, b :: dist(a, b) == dist(b, a))
    && (forall a, b, c :: Triangle(dist, a, b, c))
  }

  /** No distance exceeds the capped root level's reach. */
  ghost predicate InReach<P(!new)>(dist: (P, P) -> real) {
    forall a, b :: dist(a, b) <= TopReach()
  }

  /** The stored vectors, by element id, and their distance. */
  datatype Space<!P(!new)> = Space(keys: seq<P>, dist: (P, P) -> real) {
    function D(i: nat, j: nat): real {
      if i < |keys| && j < |keys| then dist(keys[i], keys[j]) else 0.0
    }

    ghost predicate Measured() {
      TrueMetric(dist) && InReach(dist)
    }
  }

  lemma {:induction false} DistanceLaws<P(!new)>(s: Space<P>, i: nat, j: nat, k: nat)
    requires s.Measured() && i < |s.keys| && j < |s.keys| && k < |s.keys|
    ensures s.D(i, k) <= s.D(i, j) + s.D(j, k)
    ensures s.D(i, j) == s.D(j, i)
    ensures 0.0 <= s.D(i, j) <= TopReach()
  {
    assert Triangle(s.dist, s.keys[i], s.keys[j], s.keys[k]);
  }

  /** Every node in use holds a stored element. */
  ghost predicate Stored<P(!new)>(s: Space<P>, f: Forest) {
    InRange(f) && forall v | v in f.above :: f.nodes[v].element < |s.keys|
  }

  ghost function Dist<P(!new)>(s: Space<P>, f: Forest, a: nat, w: nat): real
    requires a < |f.nodes| && w < |f.nodes|
  {
    s.D(f.nodes[a].element, f.nodes[w].element)
  }

  /** The distance from `a` to `w` is within `a`'s bound on descendants. */
  ghost predicate Within<P(!new)>(s: Space<P>, f: Forest, a: nat, w: nat)
    requires a < |f.nodes| && w < |f.nodes|
  {
    Dist(s, f, a, w) <= Radius(f.nodes[a].level)
  }

  /** `w` is under `top`, and `a` above it has room for all of `top`'s ball. */
  ghost predicate Via<P(!new)>(s: Space<P>, f: Forest, top: Option<nat>, a: nat, w: nat)
    requires InRange(f) && a in f.above
  {
    top.Some? && Under(f, top.value, w) && top.value in f.above && a in f.above[top.value]
    && Dist(s, f, a, top.value) + Radius(f.nodes[top.value].level) <= Radius(f.nodes[a].level)
  }

  /** Every node but those in `pending` bounds its descendants, directly or by way of `top`'s ball. */
  ghost predicate Bound<P(!new)>(s: Space<P>, f: Forest, pending: set<nat>, top: Option<nat>)
    requires InRange(f)
  {
    forall w, a | w in f.above && a in f.above[w] && a !in pending :: Within(s, f, a, w) || Via(s, f, top, a, w)
  }

  /** `pending` nodes all lie on the way down from `top`. */
  ghost predicate Chained(f: Forest, pending: set<nat>, top: Option<nat>)
    requires InRange(f)
  {
    pending <= f.above.Keys && (pending != {} ==> top.Some?) && (top.Some? ==> top.value in f.above)
    && forall p | p in pending :: Under(f, top.value, p)
  }

  /** An insertion that every ancestor of the new leaf covers keeps the bound. */
  lemma {:induction false} AddLeafBound<P(!new)>(s: Space<P>, f: Forest, f': Forest, n: nat, p: nat, pending: set<nat>, top: Option<nat>)
    requires Shape(f) && Shape(f') && p in f.above && n !in f.above && f'.above == f.above[n := f.above[p] + {p}]
    requires SameNodes(f, f')
    requires Bound(s, f, pending, top) && Chained(f, pending, top)
    requires forall a | a in f'.above[n] :: Dist(s, f', a, n) <= Power(f'.nodes[a].level)
    ensures Bound(s, f', pending, top) && Chained(f', pending, top)
  {
    hide Shape;
    forall w, a | w in f'.above && a in f'.above[w] && a !in pending
      ensures Within(s, f', a, w) || Via(s, f', top, a, w)
    {
      if w == n {
        RadiusCovers(f'.nodes[a].level, f'.nodes[a].level - 1);
      } else {
        assert Within(s, f, a, w) || Via(s, f, top, a, w);
      }
    }
  }

  lemma {:induction false} LeafAddedBound<P(!new)>(s: Space<P>, f: Forest, nodes: seq<Node>, n: nat, p: nat, element: nat, level: int, pending: set<nat>, top: Option<nat>)
    requires s.Measured() && Shape(f) && Stored(s, f) && p in f.above && element < |s.keys|
    requires Allocated(f, nodes, n, Node(element, level, [], Some(p))) && level < f.nodes[p].level
    requires Bound(s, f, pending, top) && Chained(f, pending, top)
    requires forall a | a == p || a in f.above[p] :: s.D(element, f.nodes[a].element) <= Power(f.nodes[a].level)
    ensures Shape(LeafAdded(f, nodes, n, p))
    ensures Bound(s, LeafAdded(f, nodes, n, p), pending, top) && Chained(LeafAdded(f, nodes, n, p), pending, top)
  {
    var f' := LeafAdded(f, nodes, n, p);
    hide LevelsFall, ChildrenOk, ParentsOk, LeafAdded, TrueMetric, InReach, Bound, Chained;
    LeafAddedFacts(f, nodes, n, p, Node(element, level, [], Some(p)));
    LeafAddedShape(f, nodes, n, p, element, level);
    forall a | a in f'.above[n] ensures Dist(s, f', a, n) <= Power(f'.nodes[a].level) {
      DistanceLaws(s, element, f.nodes[a].element, element);
    }
    AddLeafBound(s, f, f', n, p, pending, top);
  }

  /** Ancestors of the nodes in use change by gaining the new root only. */
  lemma {:induction false} SamePair<P(!new)>(s: Space<P>, f: Forest, f': Forest, a: nat, w: nat, n: nat, top: Option<nat>)
    requires SameNodes(f, f') && w in f.above && a in f.above[w] && n !in f.above
    requires forall v | v in f.above :: f.above[v] <= f'.above[v]
    ensures Within(s, f, a, w) ==> Within(s, f', a, w)
    ensures Via(s, f, top, a, w) ==> Via(s, f', top, a, w)
  {
  }

  /** A new root that reaches the old one bounds everything below the old one. */
  lemma {:induction false} RootAddedBound<P(!new)>(s: Space<P>, f: Forest, nodes: seq<Node>, n: nat, root: nat, element: nat, level: int, pending: set<nat>, top: Option<nat>)
    requires s.Measured() && Shape(f) && Stored(s, f) && root in f.above && f.above[root] == {}
    requires Allocated(f, nodes, n, Node(element, level, [root], None)) && level > f.nodes[root].level && element < |s.keys|
    requires Bound(s, f, pending, top) && Chained(f, pending, top)
    requires s.D(element, f.nodes[root].element) <= Power(level)
    requires root in pending ==> top == Some(root)
    ensures Shape(RootAdded(f, nodes, n, root))
    ensures Bound(s, RootAdded(f, nodes, n, root), pending, top) && Chained(RootAdded(f, nodes, n, root), pending, top)
  {
    var f' := RootAdded(f, nodes, n, root);
    hide LevelsFall, ChildrenOk, ParentsOk, RootAdded, TrueMetric, InReach, Bound, Chained;
    RootAddedFacts(f, nodes, n, root, Node(element, level, [root], None));
    RootAddedShape(f, nodes, n, root, element, level);
    NewRootBound(s, f, f', n, root, pending, top);
  }

  lemma {:induction false} NewRootBound<P(!new)>(s: Space<P>, f: Forest, f': Forest, n: nat, root: nat, pending: set<nat>, top: Option<nat>)
    requires s.Measured() && Shape(f) && Stored(s, f) && Shape(f') && root in f.above && f.above[root] == {} && n !in f.above
    requires f'.above.Keys == f.above.Keys + {n} && f'.above[n] == {}
    requires f'.nodes[n].element < |s.keys| && f'.nodes[n].level > f.nodes[root].level
    requires SameNodes(f, f')
    requires forall v | v in f.above :: f'.above[v] == if Under(f, root, v) then f.above[v] + {n} else f.above[v]
    requires Bound(s, f, pending, top) && Chained(f, pending, top)
    requires Dist(s, f', n, root) <= Power(f'.nodes[n].level)
    requires root in pending ==> top == Some(root)
    ensures Bound(s, f', pending, top) && Chained(f', pending, top)
  {
    hide Shape, Within, Via;
    forall w, a | w in f'.above && a in f'.above[w] && a !in pending
      ensures Within(s, f', a, w) || Via(s, f', top, a, w)
    {
      if a == n {
        NewRootReaches(s, f, f', n, root, w, pending, top);
      } else {
        SamePair(s, f, f', a, w, n, top);
      }
    }
  }

  lemma {:induction false} NewRootReaches<P(!new)>(s: Space<P>, f: Forest, f': Forest, n: nat, root: nat, w: nat, pending: set<nat>, top: Option<nat>)
    requires s.Measured() && Shape(f) && Stored(s, f) && Shape(f') && root in f.above && f.above[root] == {}
    requires n < |f'.nodes| && f'.nodes[n].element < |s.keys| && f'.nodes[n].level > f.nodes[root].level && n in f'.above
    requires SameNodes(f, f')
    requires forall v | v in f.above :: f'.above[v] == if Under(f, root, v) then f.above[v] + {n} else f.above[v]
    requires Bound(s, f, pending, top) && Chained(f, pending, top) && Under(f, root, w)
    requires Dist(s, f', n, root) <= Power(f'.nodes[n].level)
    requires root in pending ==> top == Some(root)
    ensures Within(s, f', n, w) || Via(s, f', top, n, w)
  {
    RadiusCovers(f'.nodes[n].level, f.nodes[root].level);
    DistanceLaws(s, f'.nodes[n].element, f.nodes[root].element, f.nodes[w].element);
    if w == root {
    } else if root in pending {
      assert Via(s, f', top, n, w);
    } else if Via(s, f, top, root, w) {
      DistanceLaws(s, f'.nodes[n].element, f.nodes[root].element, f.nodes[top.value].element);
      assert Via(s, f', top, n, w);
    } else {
      assert Within(s, f, root, w);
    }
  }

  /** Moving a child's element up into `v` leaves `v` to be rechecked and no other node's bound broken. */
  lemma {:induction false} SwapBound<P(!new)>(s: Space<P>, f: Forest, v: nat, c: nat, pending: set<nat>)
    requires Shape(f) && v in f.above && IsChild(f, v, c) && Bound(s, f, pending, None)
    ensures Shape(WithElement(f, v, f.nodes[c].element))
    ensures Bound(s, WithElement(f, v, f.nodes[c].element), pending + {v}, None)
  {
    var f' := WithElement(f, v, f.nodes[c].element);
    WithElementShape(f, v, f.nodes[c].element);
    forall w, a | w in f'.above && a in f'.above[w] && a !in pending + {v}
      ensures Within(s, f', a, w)
    {
      if w == v { assert Within(s, f, a, c); } else { assert Within(s, f, a, w); }
    }
  }

  /** Cutting children off `v` breaks no bound. */
  lemma {:induction false} DetachBound<P(!new)>(s: Space<P>, f: Forest, v: nat, kept: seq<nat>, pending: set<nat>, top: Option<nat>)
    requires Shape(f) && v in f.above && NoDup(kept) && forall c | c in kept :: c in f.nodes[v].children
    requires Bound(s, f, pending, top) && Chained(f, pending, top) && (top.Some? ==> Under(f, top.value, v))
    requires forall p | p in pending :: Under(f, p, v)
    ensures Shape(Detach(f, v, kept))
    ensures Bound(s, Detach(f, v, kept), pending, top) && Chained(Detach(f, v, kept), pending, top)
    ensures forall w | w in f.above && Under(f, w, v) :: Detach(f, v, kept).above[w] == f.above[w]
  {
    var f' := Detach(f, v, kept);
    DetachShape(f, v, kept);
    DetachFacts(f, v, kept);
    hide Detach, LevelsFall, ChildrenOk, ParentsOk, Within, Via, Cut;
    forall x | x in f.above && Under(f, x, v) ensures f'.above[x] == f.above[x] {
      UncutAbove(f, v, kept, x);
    }
    FewerAboveBound(s, f, f', v, pending, top);
  }

  /** Taking ancestors away from nodes that are not above `v` breaks no bound. */
  lemma {:induction false} FewerAboveBound<P(!new)>(s: Space<P>, f: Forest, f': Forest, v: nat, pending: set<nat>, top: Option<nat>)
    requires Shape(f) && v in f.above && SameNodes(f, f') && f'.above.Keys == f.above.Keys
    requires forall w | w in f.above :: f'.above[w] == f.above[w] || f'.above[w] == f.above[w] - (f.above[v] + {v})
    requires forall w | w in f.above && Under(f, w, v) :: f'.above[w] == f.above[w]
    requires Bound(s, f, pending, top) && Chained(f, pending, top) && (top.Some? ==> Under(f, top.value, v))
    requires forall p | p in pending :: Under(f, p, v)
    ensures Bound(s, f', pending, top) && Chained(f', pending, top)
  {
    hide Shape, Within, Via;
    forall w, a | w in f'.above && a in f'.above[w] && a !in pending
      ensures Within(s, f', a, w) || Via(s, f', top, a, w)
    {
      assert Within(s, f, a, w) || Via(s, f, top, a, w);
      FewerAbovePair(s, f, f', v, top, a, w);
    }
  }

  lemma {:induction false} FewerAbovePair<P(!new)>(s: Space<P>, f: Forest, f': Forest, v: nat, top: Option<nat>, a: nat, w: nat)
    requires Shape(f) && v in f.above && SameNodes(f, f') && f'.above.Keys == f.above.Keys
    requires w in f.above && (f'.above[w] == f.above[w] || f'.above[w] == f.above[w] - (f.above[v] + {v}))
    requires forall x | x in f.above && Under(f, x, v) :: f'.above[x] == f.above[x]
    requires (top.Some? ==> Under(f, top.value, v)) && w in f.above && a in f'.above[w]
    ensures Within(s, f, a, w) ==> Within(s, f', a, w)
    ensures Via(s, f, top, a, w) ==> Via(s, f', top, a, w)
  {
    if Via(s, f, top, a, w) && top.value != v { AboveTransitive(f, a, top.value, v); }
    hide Shape;
  }

  lemma {:induction false} UncutAbove(f: Forest, v: nat, kept: seq<nat>, x: nat)
    requires Shape(f) && v in f.above && x in f.above && Under(f, x, v)
    ensures !Cut(f, v, kept, x)
  {
    forall c | c in f.nodes[v].children && c !in kept ensures !Under(f, c, x) {
      assert IsChild(f, v, c);
      if Under(f, c, x) { NotAboveItself(f, v, c, x); }
    }
  }

  /** Once every remaining child of `v` is within one covering step, `v` bounds its descendants again. */
  lemma {:induction false} SettleBound<P(!new)>(s: Space<P>, f: Forest, v: nat, pending: set<nat>, top: Option<nat>)
    requires s.Measured() && Shape(f) && Stored(s, f) && v in pending && Bound(s, f, pending, top) && Chained(f, pending, top)
    requires forall p | p in pending :: Under(f, p, v)
    requires forall c | c in f.nodes[v].children :: Dist(s, f, v, c) <= Power(f.nodes[v].level)
    ensures Bound(s, f, pending - {v}, top) && Chained(f, pending - {v}, top)
  {
    forall w, a | w in f.above && a in f.above[w] && a !in pending - {v}
      ensures Within(s, f, a, w) || Via(s, f, top, a, w)
    {
      if a == v {
        SettledReaches(s, f, v, w, pending, top);
      }
    }
  }

  lemma {:induction false} SettledReaches<P(!new)>(s: Space<P>, f: Forest, v: nat, w: nat, pending: set<nat>, top: Option<nat>)
    requires s.Measured() && Shape(f) && Stored(s, f) && v in pending && Bound(s, f, pending, top) && Chained(f, pending, top)
    requires forall p | p in pending :: Under(f, p, v)
    requires forall c | c in f.nodes[v].children :: Dist(s, f, v, c) <= Power(f.nodes[v].level)
    requires w in f.above && v in f.above[w]
    ensures Within(s, f, v, w)
  {
    var c := ChildTowards(f, v, w);
    RadiusCovers(f.nodes[v].level, f.nodes[c].level);
    if c != w {
      NotAboveItself(f, v, c, c);
      assert c !in pending;
      ChildNotAbove(f, v, c, top.value);
      assert !Via(s, f, top, c, w);
      assert Within(s, f, c, w);
      DistanceLaws(s, f.nodes[v].element, f.nodes[c].element, f.nodes[w].element);
    }
  }

  lemma {:induction false} ChildNotAbove(f: Forest, v: nat, c: nat, t: nat)
    requires Shape(f) && v in f.above && IsChild(f, v, c) && t in f.above && Under(f, t, v)
    ensures c !in f.above[t]
  {
    NotAboveItself(f, v, c, c);
    if c in f.above[t] && t != v { AboveTransitive(f, c, t, v); }
  }

  /** The child of `v` on the way down to `w`. */
  lemma {:induction false} ChildTowards(f: Forest, v: nat, w: nat) returns (c: nat)
    requires Shape(f) && w in f.above && v in f.above[w]
    ensures c in f.nodes[v].children && IsChild(f, v, c) && Under(f, c, w)
    decreases f.above[w]
  {
    var p := Parent(f, w);
    if p == v {
      c := w;
    } else {
      c := ChildTowards(f, v, p);
    }
  }

  /** With nothing pending any more, the way by `top`'s ball is not needed either. */
  lemma {:induction false} TopSettled<P(!new)>(s: Space<P>, f: Forest, top: nat)
    requires s.Measured() && Shape(f) && Stored(s, f) && top in f.above && Bound(s, f, {}, Some(top))
    ensures Bound(s, f, {}, None)
  {
    forall w, a | w in f.above && a in f.above[w]
      ensures Within(s, f, a, w)
    {
      if Via(s, f, Some(top), a, w) && w != top {
        assert !Via(s, f, Some(top), top, w);
        assert Within(s, f, top, w);
        DistanceLaws(s, f.nodes[a].element, f.nodes[top].element, f.nodes[w].element);
      }
    }
  }

  /** Taking a tree out of use breaks no bound in the others. */
  lemma {:induction false} DropTreeBound<P(!new)>(s: Space<P>, f: Forest, r: nat, pending: set<nat>, top: Option<nat>)
    requires Shape(f) && r in f.above && f.above[r] == {} && Bound(s, f, pending, top) && Chained(f, pending, top)
    requires top.Some? ==> !Under(f, r, top.value)
    ensures Shape(DropTree(f, r)) && Bound(s, DropTree(f, r), pending, top) && Chained(DropTree(f, r), pending, top)
  {
    var f' := DropTree(f, r);
    DropTreeShape(f, r);
    forall w, a | w in f'.above && a in f'.above[w] && a !in pending
      ensures Within(s, f', a, w) || Via(s, f', top, a, w)
    {
      assert Within(s, f, a, w) || Via(s, f, top, a, w);
    }
    forall p | p in pending ensures p in f'.above && Under(f', top.value, p) {
      assert Under(f, top.value, p);
      if Under(f, r, p) { 
        if p != r && top.value != p { if r != top.value { AboveChain(f, r, top.value, p); } }
      }
    }
  }
}
