/** The candidate-set descent of an insertion: from all covering nodes to all covering children
    (runners/genlayer-py-std/src-emb/genlayer_embeddings/vecdb.py:289-330). */
module CoverDescent {
  import opened CoverLevels
  import opened CoverForest
  import opened CoverBound

  /** `element` lies within node `c`'s covering distance. */
  ghost predicate Reaches<P(!new)>(s: Space<P>, f: Forest, c: nat, element: nat) {
    c < |f.nodes| && s.D(element, f.nodes[c].element) <= Power(f.nodes[c].level)
  }

  /** A node that takes part in the descent: covering, and not at the sentinel level. */
  ghost predicate Candidate<P(!new)>(s: Space<P>, f: Forest, element: nat, c: nat) {
    Reaches(s, f, c, element) && f.nodes[c].level > MIN_LEVEL
  }

  ghost function CandidatesAmong<P(!new)>(s: Space<P>, f: Forest, element: nat, children: seq<nat>): seq<nat> {
    if children == [] then []
    else
      var last := |children| - 1;
      CandidatesAmong(s, f, element, children[..last]) + if Candidate(s, f, element, children[last]) then [children[last]] else []
  }

  ghost function ChildrenOf(f: Forest, v: nat): seq<nat> {
    if v < |f.nodes| then f.nodes[v].children else []
  }

  ghost function NextCandidates<P(!new)>(s: Space<P>, f: Forest, element: nat, candidates: seq<nat>): seq<nat> {
    if candidates == [] then []
    else
      var last := |candidates| - 1;
      NextCandidates(s, f, element, candidates[..last]) + CandidatesAmong(s, f, element, ChildrenOf(f, candidates[last]))
  }

  /** The smallest distance met so far. */
  ghost function NearestMet<P(!new)>(s: Space<P>, f: Forest, element: nat, met: seq<nat>, start: real): real
    requires forall i | 0 <= i < |met| :: met[i] < |f.nodes|
  {
    if met == [] then start
    else
      var last := |met| - 1;
      var m := NearestMet(s, f, element, met[..last], start);
      var d := s.D(element, f.nodes[met[last]].element);
      if d < m then d else m
  }

  lemma {:induction false} CandidatesStart<P(!new)>(s: Space<P>, f: Forest, element: nat)
    ensures CandidatesAmong(s, f, element, []) == []
  {
  }

  /** One more child looked at: it joins the candidates or not, and may be the nearest met. */
  lemma {:induction false} CandidatesStep<P(!new)>(s: Space<P>, f: Forest, element: nat, children: seq<nat>, child: nat, met: seq<nat>, start: real)
    requires child < |f.nodes| && forall i | 0 <= i < |met| :: met[i] < |f.nodes|
    ensures CandidatesAmong(s, f, element, children + [child])
         == CandidatesAmong(s, f, element, children) + if Candidate(s, f, element, child) then [child] else []
    ensures var d, m := s.D(element, f.nodes[child].element), NearestMet(s, f, element, met, start);
            NearestMet(s, f, element, met + [child], start) == if d < m then d else m
  {
    assert (children + [child])[..|children|] == children;
    assert (met + [child])[..|met|] == met;
  }

  lemma {:induction false} AmongMembers<P(!new)>(s: Space<P>, f: Forest, element: nat, children: seq<nat>, c: nat)
    ensures c in CandidatesAmong(s, f, element, children) <==> c in children && Candidate(s, f, element, c)
  {
    if children != [] {
      var last := |children| - 1;
      AmongMembers(s, f, element, children[..last], c);
      assert children == children[..last] + [children[last]];
    }
  }

  lemma {:induction false} NextFrom<P(!new)>(s: Space<P>, f: Forest, element: nat, candidates: seq<nat>, c: nat) returns (p: nat)
    requires c in NextCandidates(s, f, element, candidates)
    ensures p in candidates && c in ChildrenOf(f, p) && Candidate(s, f, element, c)
  {
    var last := |candidates| - 1;
    AmongMembers(s, f, element, ChildrenOf(f, candidates[last]), c);
    if c in NextCandidates(s, f, element, candidates[..last]) {
      p := NextFrom(s, f, element, candidates[..last], c);
      assert p in candidates;
    } else {
      p := candidates[last];
    }
  }

  lemma {:induction false} NextHas<P(!new)>(s: Space<P>, f: Forest, element: nat, candidates: seq<nat>, p: nat, c: nat)
    requires p in candidates && c in ChildrenOf(f, p) && Candidate(s, f, element, c)
    ensures c in NextCandidates(s, f, element, candidates)
  {
    var last := |candidates| - 1;
    assert candidates == candidates[..last] + [candidates[last]];
    AmongMembers(s, f, element, ChildrenOf(f, candidates[last]), c);
    if p != candidates[last] {
      NextHas(s, f, element, candidates[..last], p, c);
    }
  }

  lemma {:induction false} NearestMetBound<P(!new)>(s: Space<P>, f: Forest, element: nat, met: seq<nat>, start: real)
    requires forall i | 0 <= i < |met| :: met[i] < |f.nodes|
    ensures NearestMet(s, f, element, met, start) <= start
    ensures forall c | c in met :: NearestMet(s, f, element, met, start) <= s.D(element, f.nodes[c].element)
  {
    if met != [] {
      var last := |met| - 1;
      NearestMetBound(s, f, element, met[..last], start);
      assert met == met[..last] + [met[last]];
    }
  }

  /** Every candidate, and every node above it, covers the element and is no nearer to it than `minCover`. */
  ghost predicate Covering<P(!new)>(s: Space<P>, f: Forest, root: nat, element: nat, candidates: seq<nat>, minCover: real)
    requires InRange(f)
  {
    forall c | c in candidates ::
      Under(f, root, c) && f.nodes[c].level > MIN_LEVEL
      && forall a | a == c || a in f.above[c] :: Reaches(s, f, a, element) && minCover <= s.D(element, f.nodes[a].element)
  }

  /** One round of the descent keeps to covering nodes, strictly below. */
  lemma {:induction false} Descend<P(!new)>(s: Space<P>, f: Forest, root: nat, element: nat, candidates: seq<nat>, minCover: real, bound: int)
    requires Shape(f) && Covering(s, f, root, element, candidates, minCover)
    requires forall c | c in candidates :: f.nodes[c].level <= bound
    ensures var next := NextCandidates(s, f, element, candidates);
            (forall c | c in next :: c < |f.nodes| && f.nodes[c].level < bound)
            && (forall i | 0 <= i < |next| :: next[i] < |f.nodes|)
            && Covering(s, f, root, element, next, NearestMet(s, f, element, next, minCover))
  {
    var next := NextCandidates(s, f, element, candidates);
    forall c | c in next ensures c in f.above && f.nodes[c].level < bound {
      var p := NextFrom(s, f, element, candidates, c);
      assert IsChild(f, p, c);
    }
    assert forall i | 0 <= i < |next| :: next[i] in next;
    var m := NearestMet(s, f, element, next, minCover);
    NearestMetBound(s, f, element, next, minCover);
    forall c | c in next
      ensures Under(f, root, c) && f.nodes[c].level > MIN_LEVEL
      ensures forall a | a == c || a in f.above[c] :: Reaches(s, f, a, element) && m <= s.D(element, f.nodes[a].element)
    {
      var p := NextFrom(s, f, element, candidates, c);
      assert IsChild(f, p, c);
    }
  }

  /** The nearest of the nodes in `candidates`, the first of several. */
  function NearestOf<P(!new)>(s: Space<P>, nodes: seq<Node>, element: nat, candidates: seq<nat>): (nearest: nat)
    requires candidates != []
    ensures nearest in candidates
  {
    var last := |candidates| - 1;
    if last == 0 then candidates[0]
    else
      var nearest := NearestOf(s, nodes, element, candidates[..last]);
      if s.D(element, ElementOf(nodes, candidates[last])) < s.D(element, ElementOf(nodes, nearest)) then candidates[last] else nearest
  }

  /** What `NearestOf` finds. */
  lemma {:induction false} NearestIsFirst<P(!new)>(s: Space<P>, nodes: seq<Node>, element: nat, candidates: seq<nat>) returns (k: nat)
    requires candidates != []
    ensures k < |candidates| && NearestOf(s, nodes, element, candidates) == candidates[k]
    ensures forall i | 0 <= i < |candidates| :: s.D(element, ElementOf(nodes, candidates[k])) <= s.D(element, ElementOf(nodes, candidates[i]))
    ensures forall i | 0 <= i < k :: s.D(element, ElementOf(nodes, candidates[k])) < s.D(element, ElementOf(nodes, candidates[i]))
  {
    var last := |candidates| - 1;
    k := 0;
    if last > 0 {
      k := NearestIsFirst(s, nodes, element, candidates[..last]);
      if s.D(element, ElementOf(nodes, candidates[last])) < s.D(element, ElementOf(nodes, candidates[k])) { k := last; }
    }
  }

  lemma {:induction false} NearestSame<P(!new)>(s: Space<P>, nodes: seq<Node>, nodes': seq<Node>, element: nat, candidates: seq<nat>)
    requires candidates != [] && forall c | c in candidates :: ElementOf(nodes', c) == ElementOf(nodes, c)
    ensures NearestOf(s, nodes', element, candidates) == NearestOf(s, nodes, element, candidates)
  {
    var last := |candidates| - 1;
    if last > 0 { NearestSame(s, nodes, nodes', element, candidates[..last]); }
  }

  // --- which nodes the descent meets ---

  /** `c` and every node above it cover the element, and `c` is not at the sentinel level. */
  ghost predicate Met<P(!new)>(s: Space<P>, f: Forest, root: nat, element: nat, c: nat) {
    && Under(f, root, c) && c < |f.nodes| && f.nodes[c].level > MIN_LEVEL
    && forall a | a == c || a in f.above[c] :: Reaches(s, f, a, element)
  }

  ghost function Depth(f: Forest, c: nat): nat {
    if c in f.above then |f.above[c]| else 0
  }

  /** The smallest distance to any node met. */
  ghost predicate LeastMet<P(!new)>(s: Space<P>, f: Forest, root: nat, element: nat, minCover: real) {
    && (forall c | Met(s, f, root, element, c) :: minCover <= s.D(element, ElementOf(f.nodes, c)))
    && exists c :: Met(s, f, root, element, c) && s.D(element, ElementOf(f.nodes, c)) == minCover
  }

  /** The nearest of the deepest nodes met. */
  ghost predicate DeepestMet<P(!new)>(s: Space<P>, f: Forest, root: nat, element: nat, nearest: nat) {
    && Met(s, f, root, element, nearest)
    && forall c | Met(s, f, root, element, c) ::
         && Depth(f, c) <= Depth(f, nearest)
         && (Depth(f, c) == Depth(f, nearest) ==> s.D(element, ElementOf(f.nodes, nearest)) <= s.D(element, ElementOf(f.nodes, c)))
  }

  /** After `k` rounds the candidates are the nodes met at depth `k`, and `nearest` is the nearest met so far. */
  ghost predicate Round<P(!new)>(s: Space<P>, f: Forest, root: nat, element: nat, candidates: seq<nat>, k: nat, minCover: real, nearest: nat) {
    && (forall c :: c in candidates <==> Met(s, f, root, element, c) && Depth(f, c) == k)
    && (forall c | Met(s, f, root, element, c) && Depth(f, c) <= k :: minCover <= s.D(element, ElementOf(f.nodes, c)))
    && Met(s, f, root, element, nearest) && s.D(element, ElementOf(f.nodes, nearest)) == minCover
  }

  lemma {:induction false} FirstRound<P(!new)>(s: Space<P>, f: Forest, root: nat, element: nat)
    requires Shape(f) && root in f.above && f.above[root] == {} && f.nodes[root].level > MIN_LEVEL && Reaches(s, f, root, element)
    ensures Round(s, f, root, element, [root], 0, s.D(element, f.nodes[root].element), root)
  {
    hide LevelsFall, ChildrenOk, ParentsOk, Power, PowerUp;
    forall c | Met(s, f, root, element, c) && Depth(f, c) == 0 ensures c == root {
      assert f.above[c] == {};
    }
  }

  lemma {:induction false} ParentHigher(f: Forest, p: nat, c: nat)
    requires Shape(f) && p in f.above && IsChild(f, p, c)
    ensures f.nodes[p].level > f.nodes[c].level
  {
    hide ChildrenOk, ParentsOk;
  }

  /** A node met hangs below a node met. */
  lemma {:induction false} MetAbove<P(!new)>(s: Space<P>, f: Forest, root: nat, element: nat, c: nat) returns (p: nat)
    requires Shape(f) && Met(s, f, root, element, c) && Depth(f, c) > 0 && root in f.above && f.above[root] == {}
    ensures Met(s, f, root, element, p) && Depth(f, c) == Depth(f, p) + 1 && c in ChildrenOf(f, p)
  {
    hide Power, PowerUp, LevelsFall, ChildrenOk, ParentsOk;
    p := Parent(f, c);
    ParentHigher(f, p, c);
  }

  lemma {:induction false} MetBelow<P(!new)>(s: Space<P>, f: Forest, root: nat, element: nat, p: nat, c: nat)
    requires Shape(f) && Met(s, f, root, element, p) && c in ChildrenOf(f, p) && Candidate(s, f, element, c)
    ensures Met(s, f, root, element, c) && Depth(f, c) == Depth(f, p) + 1
  {
    ChildOf(f, p, c);
    hide LevelsFall, ChildrenOk, ParentsOk, Power, PowerUp;
  }

  lemma {:induction false} NextRound<P(!new)>(s: Space<P>, f: Forest, root: nat, element: nat, candidates: seq<nat>, next: seq<nat>, k: nat, minCover: real, nearest: nat)
    returns (nearest': nat)
    requires Shape(f) && root in f.above && f.above[root] == {} && Round(s, f, root, element, candidates, k, minCover, nearest)
    requires next == NextCandidates(s, f, element, candidates) && forall i | 0 <= i < |next| :: next[i] < |f.nodes|
    ensures Round(s, f, root, element, next, k + 1, NearestMet(s, f, element, next, minCover), nearest')
  {
    hide Shape, Met, Depth, NextCandidates, NearestMet, Power, PowerUp;
    forall c ensures c in next <==> Met(s, f, root, element, c) && Depth(f, c) == k + 1 {
      NextMet(s, f, root, element, candidates, k, minCover, nearest, c);
    }
    NearestMetBound(s, f, element, next, minCover);
    nearest' := NearestMetIs(s, f, element, next, minCover, nearest);
  }

  /** The least distance is that of a node met. */
  lemma {:induction false} NearestMetIs<P(!new)>(s: Space<P>, f: Forest, element: nat, met: seq<nat>, start: real, nearest: nat) returns (c: nat)
    requires (forall i | 0 <= i < |met| :: met[i] < |f.nodes|) && s.D(element, ElementOf(f.nodes, nearest)) == start
    ensures (c == nearest || c in met) && s.D(element, ElementOf(f.nodes, c)) == NearestMet(s, f, element, met, start)
  {
    c := nearest;
    if met != [] {
      var last := |met| - 1;
      c := NearestMetIs(s, f, element, met[..last], start, nearest);
      if s.D(element, f.nodes[met[last]].element) < NearestMet(s, f, element, met[..last], start) { c := met[last]; }
    }
  }

  lemma {:induction false} NextMet<P(!new)>(s: Space<P>, f: Forest, root: nat, element: nat, candidates: seq<nat>, k: nat, minCover: real, nearest: nat, c: nat)
    requires Shape(f) && root in f.above && f.above[root] == {} && Round(s, f, root, element, candidates, k, minCover, nearest)
    ensures c in NextCandidates(s, f, element, candidates) <==> Met(s, f, root, element, c) && Depth(f, c) == k + 1
  {
    hide LevelsFall, ChildrenOk, ParentsOk, NextCandidates, Power, PowerUp, Depth;
    if c in NextCandidates(s, f, element, candidates) {
      var p := NextFrom(s, f, element, candidates, c);
      MetBelow(s, f, root, element, p, c);
    }
    if Met(s, f, root, element, c) && Depth(f, c) == k + 1 {
      var p := MetAbove(s, f, root, element, c);
      NextHas(s, f, element, candidates, p, c);
    }
  }

  /** When no candidate is left every node met has been looked at. */
  lemma {:induction false} NoneDeeper<P(!new)>(s: Space<P>, f: Forest, root: nat, element: nat, k: nat, c: nat)
    requires Shape(f) && root in f.above && f.above[root] == {} && Met(s, f, root, element, c)
    requires forall d | Met(s, f, root, element, d) :: Depth(f, d) != k + 1
    ensures Depth(f, c) <= k
    decreases Depth(f, c)
  {
    hide Shape, Met, Depth;
    if Depth(f, c) > k + 1 {
      var p := MetAbove(s, f, root, element, c);
      NoneDeeper(s, f, root, element, k, p);
    }
  }

  lemma {:induction false} NoneAtNext<P(!new)>(s: Space<P>, f: Forest, root: nat, element: nat, k: nat, minCover: real, nearest: nat)
    requires Round(s, f, root, element, [], k, minCover, nearest)
    ensures forall d | Met(s, f, root, element, d) :: Depth(f, d) != k
  {
    hide Met, Depth, Power, PowerUp;
    assert forall d: nat :: d !in [];
  }

  lemma {:induction false} LastRound<P(!new)>(s: Space<P>, f: Forest, root: nat, element: nat, candidates: seq<nat>, k: nat, minCover: real, nearest: nat, best: nat)
    requires Shape(f) && root in f.above && f.above[root] == {} && Round(s, f, root, element, candidates, k, minCover, nearest)
    requires forall d | Met(s, f, root, element, d) :: Depth(f, d) != k + 1
    requires best in candidates && forall c | c in candidates :: s.D(element, ElementOf(f.nodes, best)) <= s.D(element, ElementOf(f.nodes, c))
    ensures LeastMet(s, f, root, element, minCover) && DeepestMet(s, f, root, element, best)
  {
    hide Shape, Met, Depth;
    forall c | Met(s, f, root, element, c) ensures Depth(f, c) <= k { NoneDeeper(s, f, root, element, k, c); }
  }
}
