/** Nearest neighbours by linear scan, the order of results, and the bounded heap of best candidates
    (runners/genlayer-py-std/src-emb/genlayer_embeddings/vecdb.py:460-508). */
module KNearest {
  import opened Collections

  /** A distance to the query and the id it belongs to. */
  datatype Hit = Hit(dist: real, id: nat)

  /** Python's order on `(dist, id)` pairs. */
  predicate ResultOrder(a: Hit, b: Hit) {
    a.dist < b.dist || (a.dist == b.dist && a.id < b.id)
  }

  /** Python's order on `(-dist, id)` pairs, the farthest first. */
  predicate HeapOrder(a: Hit, b: Hit) {
    a.dist > b.dist || (a.dist == b.dist && a.id < b.id)
  }

  /** The sort key `-dist` alone. */
  predicate FarthestFirst(a: Hit, b: Hit) {
    a.dist > b.dist
  }

  /** Insertion behind everything that does not come after `x`. */
  function Insert(before: (Hit, Hit) -> bool, s: seq<Hit>, x: Hit): (r: seq<Hit>)
    ensures multiset(r) == multiset(s) + multiset{x}
  {
    if s == [] || before(x, s[0]) then [x] + s
    else
      assert s == [s[0]] + s[1..];
      [s[0]] + Insert(before, s[1..], x)
  }

  /** A stable sort. */
  function SortBy(before: (Hit, Hit) -> bool, s: seq<Hit>): (r: seq<Hit>)
    ensures multiset(r) == multiset(s)
  {
    if s == [] then []
    else
      assert s == s[..|s| - 1] + [s[|s| - 1]];
      Insert(before, SortBy(before, s[..|s| - 1]), s[|s| - 1])
  }

  ghost predicate Sorted(before: (Hit, Hit) -> bool, s: seq<Hit>) {
    forall i, j :: 0 <= i < j < |s| ==> !before(s[j], s[i])
  }

  ghost predicate WeakOrder(before: (Hit, Hit) -> bool) {
    && (forall a, b :: before(a, b) ==> !before(b, a))
    && (forall a, b, c :: !before(b, a) && !before(c, b) ==> !before(c, a))
  }

  lemma {:induction false} InsertSorted(before: (Hit, Hit) -> bool, s: seq<Hit>, x: Hit)
    requires WeakOrder(before) && Sorted(before, s)
    ensures Sorted(before, Insert(before, s, x))
  {
    if s != [] && !before(x, s[0]) {
      var rest := Insert(before, s[1..], x);
      InsertSorted(before, s[1..], x);
      forall j | 0 <= j < |rest| ensures !before(rest[j], s[0]) {
        assert rest[j] in multiset(rest);
        if rest[j] != x {
          assert rest[j] in s[1..];
        }
      }
    } else if s != [] {
      forall j | 0 <= j < |s| ensures !before(s[j], x) {
        assert !before(s[0], x);
        if j > 0 { assert !before(s[j], s[0]); }
      }
    }
  }

  lemma {:induction false} SortBySorted(before: (Hit, Hit) -> bool, s: seq<Hit>)
    requires WeakOrder(before)
    ensures Sorted(before, SortBy(before, s))
  {
    if s != [] {
      SortBySorted(before, s[..|s| - 1]);
      InsertSorted(before, SortBy(before, s[..|s| - 1]), s[|s| - 1]);
    }
  }

  function Ids(hits: seq<Hit>): set<nat> {
    set h | h in hits :: h.id
  }

  ghost function Dists(hits: seq<Hit>): seq<real> {
    seq(|hits|, i requires 0 <= i < |hits| => hits[i].dist)
  }

  ghost predicate DistinctIds(hits: seq<Hit>) {
    forall i, j :: 0 <= i < j < |hits| ==> hits[i].id != hits[j].id
  }

  /** `hits` are `min(k, |live|)` different live ids with their distances, and no other live id is nearer. */
  ghost predicate Nearest(hits: seq<Hit>, live: set<nat>, dist: nat -> real, k: nat) {
    && |hits| == Min(k, |live|)
    && DistinctIds(hits)
    && (forall h | h in hits :: h.id in live && h.dist == dist(h.id))
    && (forall h, e | h in hits && e in live && e !in Ids(hits) :: h.dist <= dist(e))
  }

  lemma {:induction false} IdsCount(hits: seq<Hit>)
    requires DistinctIds(hits)
    ensures |Ids(hits)| == |hits|
  {
    if hits == [] {
      assert Ids(hits) == {};
    } else {
      var last, rest := hits[|hits| - 1], hits[..|hits| - 1];
      IdsCount(rest);
      assert hits == rest + [last];
      IdsAppend(rest, last);
    }
  }

  lemma {:induction false} IdsAppend(hits: seq<Hit>, x: Hit)
    ensures Ids(hits + [x]) == Ids(hits) + {x.id}
    ensures DistinctIds(hits + [x]) ==> x.id !in Ids(hits)
  {
    var all := hits + [x];
    assert forall h :: h in all <==> h in hits || h == x;
    if DistinctIds(all) {
      forall h | h in hits ensures h.id != x.id {
        var i :| 0 <= i < |hits| && hits[i] == h;
        assert all[i] == h && all[|hits|] == x;
      }
    }
  }

  /** Two nearest-neighbour answers in order of distance report the same distances. */
  lemma {:induction false} NearestUnique(a: seq<Hit>, b: seq<Hit>, live: set<nat>, dist: nat -> real, k: nat)
    requires Nearest(a, live, dist, k) && Nearest(b, live, dist, k)
    requires Sorted(ResultOrder, a) && Sorted(ResultOrder, b)
    ensures Dists(a) == Dists(b)
  {
    forall i | 0 <= i < |a| ensures a[i].dist == b[i].dist {
      NotNearer(a, b, live, dist, k, i);
      NotNearer(b, a, live, dist, k, i);
    }
  }

  lemma {:induction false} InOrder(s: seq<Hit>, i: nat, j: nat)
    requires Sorted(ResultOrder, s) && i < |s| && j < |s|
    ensures i <= j ==> s[i].dist <= s[j].dist
  {
    if i < j { assert !ResultOrder(s[j], s[i]); }
  }

  lemma {:induction false} NotNearer(a: seq<Hit>, b: seq<Hit>, live: set<nat>, dist: nat -> real, k: nat, i: nat)
    requires Nearest(a, live, dist, k) && Nearest(b, live, dist, k)
    requires Sorted(ResultOrder, a) && Sorted(ResultOrder, b) && i < |a|
    ensures a[i].dist >= b[i].dist
  {
    if a[i].dist < b[i].dist {
      var front := a[..i + 1];
      forall h | h in front ensures h.id in Ids(b[..i]) {
        assert h in a && h.dist <= a[i].dist by {
          var j :| 0 <= j < |front| && front[j] == h;
          assert a[j] == h;
          InOrder(a, j, i);
        }
        assert b[i] in b;
        assert h.id in Ids(b);
        var g :| g in b && g.id == h.id;
        var j :| 0 <= j < |b| && b[j] == g;
        InOrder(b, i, j);
        assert b[..i][j] == g;
      }
      IdsCount(front);
      IdsCount(b[..i]);
      SubsetSize(Ids(front), Ids(b[..i]));
      assert false;
    }
  }

  /** All live ids below `n` with their distances, in id order. */
  ghost function AllHits(live: set<nat>, dist: nat -> real, n: nat): seq<Hit> {
    if n == 0 then []
    else AllHits(live, dist, n - 1) + (if n - 1 in live then [Hit(dist(n - 1), n - 1)] else [])
  }

  /** The reference answer: all distances sorted, the first `k` taken. */
  ghost function LinearScan(live: set<nat>, dist: nat -> real, n: nat, k: nat): seq<Hit> {
    var all := SortBy(ResultOrder, AllHits(live, dist, n));
    all[..Min(k, |all|)]
  }

  lemma {:induction false} AllHitsContents(live: set<nat>, dist: nat -> real, n: nat)
    requires forall e | e in live :: dist.requires(e)
    ensures var all := AllHits(live, dist, n);
            DistinctIds(all) && Ids(all) == (set e | e in live && e < n)
            && forall h | h in all :: h.id < n && h.id in live && h.dist == dist(h.id)
  {
    if n > 0 {
      AllHitsContents(live, dist, n - 1);
      var all, rest := AllHits(live, dist, n), AllHits(live, dist, n - 1);
      forall e | e in live && e < n ensures e in Ids(all) {
        if e == n - 1 { assert Hit(dist(e), e) in all; }
        else { assert e in Ids(rest); var h :| h in rest && h.id == e; assert h in all; }
      }
      forall e | e in Ids(all) ensures e in live && e < n {
        var h :| h in all && h.id == e;
      }
    }
  }

  lemma {:induction false} PermutedHits(a: seq<Hit>, b: seq<Hit>)
    requires multiset(a) == multiset(b) && DistinctIds(a)
    ensures DistinctIds(b) && Ids(a) == Ids(b) && |a| == |b|
  {
    assert forall h :: h in a <==> h in multiset(a);
    assert forall h :: h in b <==> h in multiset(b);
    assert |multiset(a)| == |a| && |multiset(b)| == |b|;
    forall i, j | 0 <= i < j < |b| ensures b[i].id != b[j].id {
      if b[i].id == b[j].id {
        OnceInDistinct(a, b[i]);
        OnceInDistinct(a, b[j]);
        SameIdSameHit(a, b[i], b[j]);
        TwiceIn(b, i, j);
        assert false;
      }
    }
  }

  lemma {:induction false} SameIdSameHit(a: seq<Hit>, x: Hit, y: Hit)
    requires DistinctIds(a) && x in a && y in a && x.id == y.id
    ensures x == y
  {
  }

  lemma {:induction false} OnceInDistinct(a: seq<Hit>, x: Hit)
    requires DistinctIds(a)
    ensures multiset(a)[x] <= 1
  {
    if a != [] {
      var last := |a| - 1;
      assert a == a[..last] + [a[last]];
      OnceInDistinct(a[..last], x);
      if a[last] == x { assert x !in a[..last]; }
    }
  }

  lemma {:induction false} TwiceIn(b: seq<Hit>, i: nat, j: nat)
    requires i < j < |b| && b[i] == b[j]
    ensures multiset(b)[b[i]] >= 2
  {
    assert b == b[..j] + [b[j]] + b[j + 1..];
    assert b[..j][i] == b[i];
    assert b[i] in multiset(b[..j]);
  }

  /** The scan's answer is a nearest-neighbour answer, in order. */
  lemma {:induction false} ScanIsNearest(live: set<nat>, dist: nat -> real, n: nat, k: nat)
    requires forall e | e in live :: e < n
    ensures Nearest(LinearScan(live, dist, n, k), live, dist, k)
    ensures Sorted(ResultOrder, LinearScan(live, dist, n, k))
  {
    var all := AllHits(live, dist, n);
    var sorted := SortBy(ResultOrder, all);
    AllHitsContents(live, dist, n);
    SortBySorted(ResultOrder, all);
    PermutedHits(all, sorted);
    assert forall h :: h in sorted <==> h in multiset(sorted);
    assert forall h :: h in all <==> h in multiset(all);
    assert live == Ids(all);
    hide AllHits, SortBy, WeakOrder;
    FrontIsNearest(sorted, live, dist, k);
  }

  lemma {:induction false} FrontIsNearest(sorted: seq<Hit>, live: set<nat>, dist: nat -> real, k: nat)
    requires DistinctIds(sorted) && Ids(sorted) == live && Sorted(ResultOrder, sorted)
    requires forall h | h in sorted :: h.dist == dist(h.id)
    ensures Nearest(sorted[..Min(k, |sorted|)], live, dist, k) && Sorted(ResultOrder, sorted[..Min(k, |sorted|)])
  {
    IdsCount(sorted);
    var hits := sorted[..Min(k, |sorted|)];
    assert forall h | h in hits :: h in sorted;
    hide DistinctIds, Ids;
    forall h, e | h in hits && e in live && e !in Ids(hits) ensures h.dist <= dist(e) {
      var i :| 0 <= i < |hits| && hits[i] == h;
      var j := BeyondFront(sorted, |hits|, e);
      assert sorted[j] in sorted;
      InOrder(sorted, i, j);
    }
  }

  lemma {:induction false} BeyondFront(hits: seq<Hit>, n: nat, id: nat) returns (j: nat)
    requires n <= |hits| && id in Ids(hits) && id !in Ids(hits[..n])
    ensures n <= j < |hits| && hits[j].id == id
  {
    var h :| h in hits && h.id == id;
    j :| 0 <= j < |hits| && hits[j] == h;
    assert forall i | 0 <= i < n :: hits[i] in hits[..n];
  }

  // --- the bounded heap of best candidates ---

  /** `heappush` on the ordered view of the heap, whose first element is the root. */
  function HeapPush(heap: seq<Hit>, x: Hit): seq<Hit> {
    Insert(HeapOrder, heap, x)
  }

  /** `heapreplace`: the root goes, `x` comes in. */
  function HeapReplace(heap: seq<Hit>, x: Hit): seq<Hit>
    requires heap != []
  {
    Insert(HeapOrder, heap[1..], x)
  }

  /** Offers a candidate: kept while there is room, or when nearer than the farthest kept one. */
  function Offer(heap: seq<Hit>, k: nat, x: Hit): seq<Hit>
    requires k > 0
  {
    if |heap| < k then HeapPush(heap, x)
    else if x.dist < heap[0].dist then HeapReplace(heap, x)
    else heap
  }

  /** The heap holds the nearest of the ids offered so far, farthest first. */
  ghost predicate Best(heap: seq<Hit>, offered: set<nat>, dist: nat -> real, k: nat) {
    Nearest(heap, offered, dist, k) && Sorted(HeapOrder, heap)
  }

  lemma {:induction false} InsertHits(heap: seq<Hit>, x: Hit)
    requires DistinctIds(heap) && x.id !in Ids(heap)
    ensures var r := Insert(HeapOrder, heap, x);
            DistinctIds(r) && Ids(r) == Ids(heap) + {x.id} && |r| == |heap| + 1
            && forall h :: h in r <==> h in heap || h == x
  {
    var r := Insert(HeapOrder, heap, x);
    assert multiset(r) == multiset(heap + [x]);
    assert DistinctIds(heap + [x]) by { assert forall h | h in heap :: h.id in Ids(heap); }
    PermutedHits(heap + [x], r);
    assert Ids(heap + [x]) == Ids(heap) + {x.id};
    assert forall h :: h in r <==> h in multiset(r);
  }

  lemma {:induction false} FarthestAtRoot(heap: seq<Hit>, h: Hit)
    requires Sorted(HeapOrder, heap) && h in heap
    ensures h.dist <= heap[0].dist
  {
    var i :| 0 <= i < |heap| && heap[i] == h;
    if i > 0 { assert !HeapOrder(heap[i], heap[0]); }
  }

  lemma {:induction false} OfferBest(heap: seq<Hit>, offered: set<nat>, dist: nat -> real, k: nat, id: nat)
    requires k > 0 && Best(heap, offered, dist, k) && id !in offered
    ensures Best(Offer(heap, k, Hit(dist(id), id)), offered + {id}, dist, k)
    ensures |heap| == k ==> Offer(heap, k, Hit(dist(id), id)) != [] && Offer(heap, k, Hit(dist(id), id))[0].dist <= heap[0].dist
  {
    var x := Hit(dist(id), id);
    assert forall h | h in heap :: h.id in offered;
    assert id !in Ids(heap);
    if |heap| < k {
      PushBest(heap, offered, dist, k, x);
    } else if x.dist < heap[0].dist {
      ReplaceBest(heap, offered, dist, k, x);
    } else {
      forall h, e | h in heap && e in offered + {id} && e !in Ids(heap) ensures h.dist <= dist(e) {
        FarthestAtRoot(heap, h);
      }
    }
  }

  lemma {:induction false} PushBest(heap: seq<Hit>, offered: set<nat>, dist: nat -> real, k: nat, x: Hit)
    requires |heap| < k && Best(heap, offered, dist, k) && x.id !in offered && x.dist == dist(x.id)
    ensures Best(HeapPush(heap, x), offered + {x.id}, dist, k) && |HeapPush(heap, x)| == |heap| + 1
  {
    AllOffered(heap, offered, dist, k);
    InsertHits(heap, x);
    InsertSorted(HeapOrder, heap, x);
  }

  lemma {:induction false} ReplaceBest(heap: seq<Hit>, offered: set<nat>, dist: nat -> real, k: nat, x: Hit)
    requires |heap| == k > 0 && Best(heap, offered, dist, k) && x.id !in offered && x.dist == dist(x.id) < heap[0].dist
    requires x.id !in Ids(heap)
    ensures Best(HeapReplace(heap, x), offered + {x.id}, dist, k)
    ensures HeapReplace(heap, x) != [] && HeapReplace(heap, x)[0].dist <= heap[0].dist
  {
    var heap', rest := HeapReplace(heap, x), heap[1..];
    WithoutRoot(heap);
    assert x.id !in Ids(rest);
    InsertHits(rest, x);
    InsertSorted(HeapOrder, rest, x);
    forall h | h in heap ensures h.dist <= heap[0].dist { FarthestAtRoot(heap, h); }
    hide Insert, Sorted, DistinctIds, Ids;
    assert heap'[0] in heap';
    ReplacedNearest(heap, heap', offered, dist, k, x);
  }

  lemma {:induction false} WithoutRoot(heap: seq<Hit>)
    requires heap != [] && DistinctIds(heap)
    ensures DistinctIds(heap[1..])
    ensures forall h :: h in heap[1..] <==> h in heap && h.id != heap[0].id
  {
    var rest := heap[1..];
    assert heap == [heap[0]] + rest;
    forall h | h in rest ensures h.id != heap[0].id {
      var i :| 0 <= i < |rest| && rest[i] == h;
      assert heap[i + 1] == h;
    }
  }

  lemma {:induction false} ReplacedNearest(heap: seq<Hit>, heap': seq<Hit>, offered: set<nat>, dist: nat -> real, k: nat, x: Hit)
    requires heap != [] && Nearest(heap, offered, dist, k) && |heap'| == |heap| == k && DistinctIds(heap')
    requires x.id !in offered && x.dist == dist(x.id) < heap[0].dist
    requires forall h | h in heap :: h.dist <= heap[0].dist
    requires forall h :: h in heap' <==> (h in heap && h.id != heap[0].id) || h == x
    ensures Nearest(heap', offered + {x.id}, dist, k)
  {
    hide DistinctIds;
    assert heap[0] in heap;
    assert |offered + {x.id}| == |offered| + 1;
    forall h, e | h in heap' && e in offered + {x.id} && e !in Ids(heap') ensures h.dist <= dist(e) {
      assert x in heap' && e in offered;
      if e in Ids(heap) {
        var g :| g in heap && g.id == e;
        assert g in heap' || g.id == heap[0].id;
        assert e == heap[0].id;
      }
    }
  }

  /** While there is room, everything offered is kept. */
  lemma {:induction false} AllOffered(heap: seq<Hit>, offered: set<nat>, dist: nat -> real, k: nat)
    requires Nearest(heap, offered, dist, k) && |heap| < k
    ensures Ids(heap) == offered
  {
    IdsCount(heap);
    assert Ids(heap) <= offered;
    assert |offered - Ids(heap)| == |offered| - |Ids(heap)|;
  }

  /** The nearest of some ids are the nearest of all when the others are no nearer than the farthest of them. */
  lemma {:induction false} NearestExtends(heap: seq<Hit>, offered: set<nat>, live: set<nat>, dist: nat -> real, k: nat)
    requires Best(heap, offered, dist, k) && offered <= live
    requires live != offered ==> |heap| == k
    requires forall e | e in live && e !in offered :: heap == [] || heap[0].dist <= dist(e)
    ensures Best(heap, live, dist, k)
  {
    SubsetSize(offered, live);
    forall h, e | h in heap && e in live && e !in Ids(heap) ensures h.dist <= dist(e) {
      if e !in offered { FarthestAtRoot(heap, h); }
    }
  }

  /** Sorting the heap's contents gives the linear scan's distances. */
  lemma {:induction false} ResultsAreScan(heap: seq<Hit>, live: set<nat>, dist: nat -> real, n: nat, k: nat)
    requires Best(heap, live, dist, k) && forall e | e in live :: e < n
    ensures var results := SortBy(ResultOrder, heap);
            Nearest(results, live, dist, k) && Sorted(ResultOrder, results)
            && Dists(results) == Dists(LinearScan(live, dist, n, k))
  {
    var results := SortBy(ResultOrder, heap);
    SortBySorted(ResultOrder, heap);
    PermutedHits(heap, results);
    assert forall h :: h in results <==> h in multiset(results);
    assert forall h :: h in heap <==> h in multiset(heap);
    ScanIsNearest(live, dist, n, k);
    NearestUnique(results, LinearScan(live, dist, n, k), live, dist, k);
  }

  lemma {:induction false} BestIsNearest(heap: seq<Hit>, offered: set<nat>, dist: nat -> real, k: nat)
    requires Best(heap, offered, dist, k)
    ensures Nearest(heap, offered, dist, k)
  {
  }
}
