/** The changes of a run as a list of runs of consecutive pages: exact, in order, and as few as possible
    (executor/src/rt/vm/storage.rs:10-31, 145-164). */
module StorageDelta {
  import opened StorageRead

  /** Consecutive pages of one slot from `id` on. */
  datatype Delta = Delta(id: PageID, data: seq<Byte>) {
    ghost predicate WholePages() { |data| > 0 && |data| % PAGE == 0 }

    /** The page number after the last one. */
    function End(): nat { id.index + |data| / PAGE }

    predicate Covers(k: PageID) { k.slot == id.slot && id.index <= k.index < End() }

    function PageOf(k: PageID): (p: seq<Byte>)
      requires WholePages() && Covers(k)
      ensures |p| == PAGE
    {
      Piece(id, data, k);
      data[(k.index - id.index) * PAGE..(k.index - id.index + 1) * PAGE]
    }
  }

  lemma {:induction false} Piece(id: PageID, data: seq<Byte>, k: PageID)
    requires |data| % PAGE == 0 && id.index <= k.index < id.index + |data| / PAGE
    ensures 0 <= (k.index - id.index) * PAGE && (k.index - id.index + 1) * PAGE <= |data|
  {
  }

  /** The order of the page map. */
  predicate Before(a: PageID, b: PageID) {
    a.slot < b.slot || (a.slot == b.slot && a.index < b.index)
  }

  /** One run ends at least one page before the next begins. */
  predicate Apart(a: Delta, b: Delta) {
    a.id.slot < b.id.slot || (a.id.slot == b.id.slot && a.End() < b.id.index)
  }

  /** The runs are exactly the given pages. */
  ghost predicate Exact(runs: seq<Delta>, pages: Pages) {
    && (forall i | 0 <= i < |runs| :: runs[i].WholePages())
    && (forall i, j | 0 <= i < j < |runs| :: Apart(runs[i], runs[j]))
    && (forall k | k in pages :: exists i :: 0 <= i < |runs| && runs[i].Covers(k) && runs[i].PageOf(k) == pages[k])
    && (forall i, k | 0 <= i < |runs| && runs[i].Covers(k) :: k in pages)
  }

  /** The storage that someone who applies the runs to the host's storage sees. */
  ghost function Applied(runs: seq<Delta>, host: Host, slot: nat, a: nat): Byte
    requires forall i | 0 <= i < |runs| :: runs[i].WholePages()
  {
    var k := PageID(slot, a / PAGE);
    if exists i :: 0 <= i < |runs| && runs[i].Covers(k) then
      var i :| 0 <= i < |runs| && runs[i].Covers(k);
      runs[i].PageOf(k)[a % PAGE]
    else host(slot, a)
  }

  /** No page is in two runs. */
  lemma {:induction false} OneRun(runs: seq<Delta>, i: nat, j: nat, k: PageID)
    requires i < |runs| && j < |runs| && runs[i].Covers(k) && runs[j].Covers(k)
    requires forall i, j | 0 <= i < j < |runs| :: Apart(runs[i], runs[j])
    ensures i == j
  {
  }

  lemma {:induction false} RunOf(runs: seq<Delta>, pages: Pages, k: PageID) returns (i: nat)
    requires Exact(runs, pages) && k in pages
    ensures i < |runs| && runs[i].Covers(k) && runs[i].PageOf(k) == pages[k]
  {
    i :| 0 <= i < |runs| && runs[i].Covers(k) && runs[i].PageOf(k) == pages[k];
  }

  lemma {:induction false} FirstIn(runs: seq<Delta>, pages: Pages)
    requires Exact(runs, pages) && runs != []
    ensures runs[0].id in pages && runs[0].Covers(runs[0].id)
  {
    assert runs[0].Covers(runs[0].id);
  }

  /** Applying exact runs to the host's storage gives the flat view. */
  lemma {:induction false} AppliedIsFlat(runs: seq<Delta>, pages: Pages, host: Host, slot: nat, a: nat)
    requires Exact(runs, pages)
    ensures Applied(runs, host, slot, a) == Flat(pages, host, slot, a)
  {
    var k := PageID(slot, a / PAGE);
    if exists i :: 0 <= i < |runs| && runs[i].Covers(k) {
      var j :| 0 <= j < |runs| && runs[j].Covers(k) && runs[j].PageOf(k) == pages[k];
      forall i | 0 <= i < |runs| && runs[i].Covers(k) ensures i == j { OneRun(runs, i, j, k); }
    }
  }

  lemma {:induction false} EmptyRuns(runs: seq<Delta>, pages: Pages)
    requires Exact(runs, pages)
    ensures runs == [] <==> pages == map[]
  {
    if runs != [] { FirstIn(runs, pages); }
    if pages != map[] {
      var k :| k in pages;
      var i := RunOf(runs, pages, k);
    }
  }

  /** There is one list of exact runs: runs cannot be joined or split. */
  lemma {:induction false} ExactUnique(runs: seq<Delta>, runs': seq<Delta>, pages: Pages)
    requires Exact(runs, pages) && Exact(runs', pages)
    ensures runs == runs'
    decreases |pages|
  {
    hide Exact;
    EmptyRuns(runs, pages);
    EmptyRuns(runs', pages);
    if runs == [] || runs' == [] {
    } else {
      hide Exact, Rest;
      FirstSame(runs, runs', pages);
      var rest := WithoutRun(runs, pages);
      RestExact(runs, pages, rest);
      RestExact(runs', pages, rest);
      ExactUnique(runs[1..], runs'[1..], rest);
      SameLists(runs, runs');
    }
  }

  lemma {:induction false} SameLists(a: seq<Delta>, b: seq<Delta>)
    requires a != [] && b != [] && a[0] == b[0] && a[1..] == b[1..]
    ensures a == b
  {
    assert a == [a[0]] + a[1..] && b == [b[0]] + b[1..];
  }

  lemma {:induction false} WithoutRun(runs: seq<Delta>, pages: Pages) returns (rest: Pages)
    requires Exact(runs, pages) && runs != []
    ensures rest == Rest(pages, runs[0]) && |rest| < |pages|
  {
    rest := Rest(pages, runs[0]);
    FirstIn(runs, pages);
    FewerPages(pages, rest, runs[0].id);
  }

  ghost function Rest(pages: Pages, run: Delta): Pages {
    map k | k in pages && !run.Covers(k) :: pages[k]
  }

  lemma {:induction false} FewerPages(pages: Pages, rest: Pages, k: PageID)
    requires rest.Keys <= pages.Keys && k in pages && k !in rest
    ensures |rest| < |pages|
  {
    assert pages.Keys == rest.Keys + (pages.Keys - rest.Keys);
    assert k in pages.Keys - rest.Keys;
    assert |pages| == |pages.Keys| && |rest| == |rest.Keys|;
  }

  lemma {:induction false} RestExact(runs: seq<Delta>, pages: Pages, rest: Pages)
    requires Exact(runs, pages) && runs != [] && rest == Rest(pages, runs[0])
    ensures Exact(runs[1..], rest)
  {
    var runs' := runs[1..];
    forall k | k in rest ensures exists i :: 0 <= i < |runs'| && runs'[i].Covers(k) && runs'[i].PageOf(k) == rest[k] {
      var i :| 0 <= i < |runs| && runs[i].Covers(k) && runs[i].PageOf(k) == pages[k];
      assert runs'[i - 1] == runs[i];
    }
    forall i, k | 0 <= i < |runs'| && runs'[i].Covers(k) ensures k in rest {
      assert runs'[i] == runs[i + 1] && Apart(runs[0], runs[i + 1]);
    }
  }

  lemma {:induction false} FirstSame(runs: seq<Delta>, runs': seq<Delta>, pages: Pages)
    requires Exact(runs, pages) && Exact(runs', pages) && runs != [] && runs' != []
    ensures runs[0] == runs'[0]
  {
    var a, b := runs[0], runs'[0];
    NotEarlier(runs, runs', pages);
    NotEarlier(runs', runs, pages);
    assert a.id == b.id;
    NotLonger(runs, runs', pages);
    NotLonger(runs', runs, pages);
    SameData(runs, runs', pages);
  }

  /** The first run starts at the least page. */
  lemma {:induction false} NotEarlier(runs: seq<Delta>, runs': seq<Delta>, pages: Pages)
    requires Exact(runs, pages) && Exact(runs', pages) && runs != [] && runs' != []
    ensures !Before(runs[0].id, runs'[0].id)
  {
    FirstIn(runs, pages);
    var i := RunOf(runs', pages, runs[0].id);
    assert i == 0 || Apart(runs'[0], runs'[i]);
  }

  lemma {:induction false} NotLonger(runs: seq<Delta>, runs': seq<Delta>, pages: Pages)
    requires Exact(runs, pages) && Exact(runs', pages) && runs != [] && runs' != [] && runs[0].id == runs'[0].id
    ensures runs[0].End() <= runs'[0].End()
  {
    var next := PageID(runs'[0].id.slot, runs'[0].End());
    if runs[0].Covers(next) {
      var i := RunOf(runs', pages, next);
      NextNotCovered(runs', i, next);
    }
  }

  lemma {:induction false} NextNotCovered(runs: seq<Delta>, i: nat, next: PageID)
    requires runs != [] && i < |runs| && next == PageID(runs[0].id.slot, runs[0].End())
    requires forall i, j | 0 <= i < j < |runs| :: Apart(runs[i], runs[j])
    ensures !runs[i].Covers(next)
  {
    assert i == 0 || Apart(runs[0], runs[i]);
  }

  lemma {:induction false} SameData(runs: seq<Delta>, runs': seq<Delta>, pages: Pages)
    requires Exact(runs, pages) && Exact(runs', pages) && runs != [] && runs' != []
    requires runs[0].id == runs'[0].id && runs[0].End() == runs'[0].End()
    ensures runs[0] == runs'[0]
  {
    var a, b := runs[0], runs'[0];
    assert |a.data| == |b.data|;
    forall n: nat | n < |a.data| ensures a.data[n] == b.data[n] {
      var k := PageID(a.id.slot, a.id.index + n / PAGE);
      assert a.Covers(k) && b.Covers(k);
      PageFound(runs, pages, k);
      PageFound(runs', pages, k);
      hide Exact, Delta.PageOf;
      DataByte(a, k, n);
      DataByte(b, k, n);
    }
  }

  lemma {:induction false} DataByte(run: Delta, k: PageID, n: nat)
    requires run.WholePages() && n < |run.data| && k == PageID(run.id.slot, run.id.index + n / PAGE)
    ensures run.Covers(k) && run.PageOf(k)[n % PAGE] == run.data[n]
  {
  }

  lemma {:induction false} PageFound(runs: seq<Delta>, pages: Pages, k: PageID)
    requires Exact(runs, pages) && runs != [] && runs[0].Covers(k)
    ensures k in pages && runs[0].PageOf(k) == pages[k]
  {
    var i :| 0 <= i < |runs| && runs[i].Covers(k) && runs[i].PageOf(k) == pages[k];
    OneRun(runs, 0, i, k);
  }

  // --- building the runs in page order ---

  ghost predicate InOrder(ks: seq<PageID>, pages: Pages) {
    (forall i, j | 0 <= i < j < |ks| :: Before(ks[i], ks[j])) && forall k :: k in ks <==> k in pages
  }

  function Previous(k: PageID): PageID
    requires k.index > 0
  {
    PageID(k.slot, k.index - 1)
  }

  ghost function Upto(pages: Pages, ks: seq<PageID>, i: nat): Pages
    requires i <= |ks|
  {
    map k | k in pages && k in ks[..i] :: pages[k]
  }

  /** The first `i` pages are in the runs, and the last run ends with the last of them. */
  ghost predicate Building(runs: seq<Delta>, pages: Pages, ks: seq<PageID>, i: nat) {
    && InOrder(ks, pages) && i <= |ks| && Exact(runs, Upto(pages, ks, i)) && (runs == [] <==> i == 0)
    && (i > 0 ==> runs[|runs| - 1].id.slot == ks[i - 1].slot && runs[|runs| - 1].End() == ks[i - 1].index + 1)
  }

  lemma {:induction false} BuildStart(pages: Pages, ks: seq<PageID>)
    requires InOrder(ks, pages)
    ensures Building([], pages, ks, 0)
  {
  }

  /** If the previous page is there too, it is the one before in the order. */
  lemma {:induction false} PreviousIsLast(pages: Pages, ks: seq<PageID>, i: nat)
    requires InOrder(ks, pages) && i < |ks| && ks[i].index > 0 && Previous(ks[i]) in pages
    ensures i > 0 && ks[i - 1] == Previous(ks[i])
  {
    var p := Previous(ks[i]);
    assert p in ks;
    var j :| 0 <= j < |ks| && ks[j] == p;
    assert j < i;
    SortedAt(ks, i - 1, i);
    SortedAt(ks, j, i - 1);
  }

  lemma {:induction false} SortedAt(ks: seq<PageID>, a: nat, b: nat)
    requires a <= b < |ks| && forall i, j | 0 <= i < j < |ks| :: Before(ks[i], ks[j])
    ensures a == b || Before(ks[a], ks[b])
  {
  }

  lemma {:induction false} NextUpto(pages: Pages, ks: seq<PageID>, i: nat)
    requires InOrder(ks, pages) && i < |ks|
    ensures ks[i] in pages && ks[i] !in Upto(pages, ks, i) && Upto(pages, ks, i + 1) == Upto(pages, ks, i)[ks[i] := pages[ks[i]]]
    ensures forall k | k in Upto(pages, ks, i) :: Before(k, ks[i])
  {
    assert ks[i] in ks && ks[..i + 1] == ks[..i] + [ks[i]];
  }

  /** A page whose predecessor is not there starts a run of its own. */
  lemma {:induction false} PushRun(runs: seq<Delta>, pages: Pages, ks: seq<PageID>, i: nat)
    requires Building(runs, pages, ks, i) && i < |ks| && ks[i] in pages
    requires ks[i].index > 0 ==> Previous(ks[i]) !in pages
    ensures Building(runs + [Delta(ks[i], pages[ks[i]])], pages, ks, i + 1)
  {
    NextUpto(pages, ks, i);
    var run, sofar := Delta(ks[i], pages[ks[i]]), Upto(pages, ks, i);
    if i > 0 {
      assert ks[i - 1] in ks && Before(ks[i - 1], ks[i]);
      assert Apart(runs[|runs| - 1], run);
    }
    hide Upto, InOrder;
    ExactPush(runs, sofar, run, ks[i], pages[ks[i]]);
  }

  lemma {:induction false} ExactPush(runs: seq<Delta>, sofar: Pages, run: Delta, k: PageID, page: Page)
    requires Exact(runs, sofar) && run == Delta(k, page) && k !in sofar
    requires runs != [] ==> Apart(runs[|runs| - 1], run)
    ensures Exact(runs + [run], sofar[k := page])
  {
    var runs', after := runs + [run], sofar[k := page];
    assert run.Covers(k) && run.PageOf(k) == page;
    forall i, j | 0 <= i < j < |runs'| ensures Apart(runs'[i], runs'[j]) {
      if j == |runs| && i < |runs| - 1 { assert Apart(runs[i], runs[|runs| - 1]); }
    }
    forall x | x in after ensures exists i :: 0 <= i < |runs'| && runs'[i].Covers(x) && runs'[i].PageOf(x) == after[x] {
      if x == k {
        assert runs'[|runs|] == run;
      } else {
        var i := RunOf(runs, sofar, x);
        assert runs'[i] == runs[i];
      }
    }
  }

  /** A page right after the last one joins the last run. */
  lemma {:induction false} ExtendRun(runs: seq<Delta>, pages: Pages, ks: seq<PageID>, i: nat)
    requires Building(runs, pages, ks, i) && i < |ks| && ks[i] in pages && ks[i].index > 0 && Previous(ks[i]) in pages
    ensures runs != []
    ensures var last := runs[|runs| - 1];
            Building(runs[..|runs| - 1] + [Delta(last.id, last.data + pages[ks[i]])], pages, ks, i + 1)
  {
    PreviousIsLast(pages, ks, i);
    NextUpto(pages, ks, i);
    hide Upto, InOrder;
    ExactExtend(runs, Upto(pages, ks, i), ks[i], pages[ks[i]]);
  }

  lemma {:induction false} ExactExtend(runs: seq<Delta>, sofar: Pages, k: PageID, page: Page)
    requires Exact(runs, sofar) && runs != [] && k !in sofar
    requires runs[|runs| - 1].id.slot == k.slot && runs[|runs| - 1].End() == k.index
    ensures var last := runs[|runs| - 1];
            var run := Delta(last.id, last.data + page);
            Exact(runs[..|runs| - 1] + [run], sofar[k := page]) && run.End() == k.index + 1
  {
    var n, last := |runs| - 1, runs[|runs| - 1];
    var run := Delta(last.id, last.data + page);
    var runs', after := runs[..n] + [run], sofar[k := page];
    assert run.End() == k.index + 1 && run.WholePages();
    forall i, j | 0 <= i < j < |runs'| ensures Apart(runs'[i], runs'[j]) {
      assert Apart(runs[i], runs[j]);
    }
    assert run.PageOf(k) == page;
    forall x | x in after ensures exists i :: 0 <= i < |runs'| && runs'[i].Covers(x) && runs'[i].PageOf(x) == after[x] {
      if x == k {
        assert runs'[n] == run;
      } else {
        var i := RunOf(runs, sofar, x);
        if i == n { LongerPageOf(last, page, x); }
        assert i == n || runs'[i] == runs[i];
        assert runs'[n] == run;
      }
    }
    forall i, x | 0 <= i < |runs'| && runs'[i].Covers(x) ensures x in after {
      if i == n {
        assert x == k || last.Covers(x);
      } else {
        assert runs'[i] == runs[i];
      }
    }
  }

  lemma {:induction false} LongerPageOf(last: Delta, page: Page, x: PageID)
    requires last.WholePages() && last.Covers(x)
    ensures var run := Delta(last.id, last.data + page);
            run.WholePages() && run.Covers(x) && run.PageOf(x) == last.PageOf(x)
  {
  }

  lemma {:induction false} BuildDone(runs: seq<Delta>, pages: Pages, ks: seq<PageID>)
    requires Building(runs, pages, ks, |ks|)
    ensures Exact(runs, pages)
  {
    assert ks[..|ks|] == ks;
    assert Upto(pages, ks, |ks|) == pages;
  }

  /** The map's iterator: the pages in order. */
  method SortedPages(pages: Pages) returns (ks: seq<PageID>)
    ensures InOrder(ks, pages)
  {
    ks := [];
    var rest := pages.Keys;
    while rest != {}
      invariant forall i, j | 0 <= i < j < |ks| :: Before(ks[i], ks[j])
      invariant forall k :: k in pages <==> k in ks || k in rest
      invariant forall i, k | 0 <= i < |ks| && k in rest :: Before(ks[i], k)
      decreases rest
    {
      var k := Least(rest);
      ks, rest := ks + [k], rest - {k};
    }
  }

  method Least(s: set<PageID>) returns (k: PageID)
    requires s != {}
    ensures k in s && forall x | x in s && x != k :: Before(k, x)
  {
    k :| k in s;
    var rest := s - {k};
    while rest != {}
      invariant k in s && rest <= s && k !in rest
      invariant forall x | x in s && x !in rest && x != k :: Before(k, x)
      decreases rest
    {
      var x :| x in rest;
      rest := rest - {x};
      if Before(x, k) { k := x; }
    }
  }
}
