/** Walking a tree of the forest with an explicit stack, as the search and the subtree collection do
    (runners/genlayer-py-std/src-emb/genlayer_embeddings/vecdb.py:411-421, 470-503). */
module CoverWalk {
  import opened Collections
  import opened CoverForest

  /** `seen` nodes were popped, `stack` nodes wait, and whatever is below a `cut` node was left out. */
  ghost predicate Walk(f: Forest, start: nat, seen: set<nat>, stack: seq<nat>, cut: set<nat>) {
    && Shape(f) && start in f.above && f.above[start] == {}
    && NoDup(stack)
    && (forall x | x in seen :: Under(f, start, x) && f.above[x] <= seen)
    && (forall x | x in stack :: Under(f, start, x) && x !in seen && f.above[x] <= seen)
    && (forall x | x in cut :: x in f.above)
    && (forall x, c | x in seen && c in f.nodes[x].children :: c in seen || c in stack || c in cut)
    && (start in seen || start in stack)
  }

  lemma {:induction false} WalkStart(f: Forest, start: nat)
    requires Shape(f) && start in f.above && f.above[start] == {}
    ensures Walk(f, start, {}, [start], {})
  {
  }

  /** Popping `top`, pushing some of its children and cutting off the others. */
  lemma {:induction false} WalkStep(f: Forest, start: nat, seen: set<nat>, rest: seq<nat>, top: nat, cut: set<nat>, pushed: seq<nat>, cut': set<nat>)
    requires Walk(f, start, seen, rest + [top], cut) && top in f.above
    requires NoDup(pushed) && forall c | c in pushed :: c in f.nodes[top].children
    requires cut' == cut + set c | c in f.nodes[top].children && c !in pushed
    ensures Walk(f, start, seen + {top}, rest + pushed, cut')
    ensures top !in seen
  {
    var stack := rest + [top];
    var seen', stack' := seen + {top}, rest + pushed;
    assert top in stack && forall x :: x in stack <==> x in rest || x == top;
    assert stack[|rest|] == top;
    forall x | x in rest ensures x != top {
      var i :| 0 <= i < |rest| && rest[i] == x;
      assert stack[i] == x;
    }
    forall c | c in f.nodes[top].children
      ensures IsChild(f, top, c) && Under(f, start, c) && c !in seen' && c !in rest && f.above[c] <= seen'
    {
      assert IsChild(f, top, c);
      assert top in f.above[c];
      assert c in rest ==> c in stack;
    }
    PushNoDup(rest, top, pushed);
    assert forall x :: x in stack' <==> x in rest || x in pushed;
    hide Shape, NoDup, IsChild;
    assert forall x, c | x in seen' && c in f.nodes[x].children :: c in seen' || c in stack' || c in cut';
  }

  lemma {:induction false} PushNoDup(rest: seq<nat>, top: nat, pushed: seq<nat>)
    requires NoDup(rest + [top]) && NoDup(pushed) && forall c | c in pushed :: c !in rest
    ensures NoDup(rest + pushed)
  {
    forall i, j | 0 <= i < j < |rest + pushed| ensures (rest + pushed)[i] != (rest + pushed)[j] {
      if j < |rest| {
        assert (rest + [top])[i] != (rest + [top])[j];
      } else if i < |rest| {
        assert pushed[j - |rest|] in pushed && rest[i] in rest;
      } else {
        assert pushed[i - |rest|] != pushed[j - |rest|];
      }
    }
  }

  /** When the stack is empty, a node was seen or is under one that was cut off. */
  lemma {:induction false} WalkDone(f: Forest, start: nat, seen: set<nat>, cut: set<nat>, w: nat) returns (c: nat)
    requires Walk(f, start, seen, [], cut) && Under(f, start, w)
    ensures w in seen || (c in cut && Under(f, c, w))
    decreases f.above[w]
  {
    c := w;
    if w != start {
      var p := Parent(f, w);
      c := WalkDone(f, start, seen, cut, p);
      if p in seen && w !in seen { c := w; }
    }
  }
}
