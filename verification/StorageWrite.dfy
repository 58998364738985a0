/** Writing contract storage page by page: what is overridden, what it costs, and what it does to the flat view
    (executor/src/rt/vm/storage.rs:105-112, 282-405). */
module StorageWrite {
  import opened Collections
  import opened StorageRead

  /** A write of `data` at `index` of `slot` over the state before it. */
  datatype Edit = Edit(pages: Pages, host: Host, slot: nat, index: nat, data: seq<Byte>) {
    /** A byte of the slot after the write. */
    function NewByte(a: nat): Byte {
      if index <= a < index + |data| then data[a - index] else Flat(pages, host, slot, a)
    }

    function NewPage(j: nat): Page {
      var page := seq<Byte>(PAGE, (i: nat) => NewByte(j * PAGE + i));
      page
    }

    function OldPage(j: nat): Page {
      if PageID(slot, j) in pages then pages[PageID(slot, j)] else HostPage(host, PageID(slot, j))
    }

    function First(): nat { index / PAGE }

    function Last(): int { (index + |data| - 1) / PAGE }

    ghost predicate Touches(j: nat) { data != [] && First() <= j <= Last() }

    /** The pages that the write touches. */
    ghost function Touched(): set<nat> {
      set j: nat | First() <= j <= Last() && Touches(j)
    }

    /** Those of `done` that no earlier write overrides: each costs one page. */
    ghost function New(done: set<nat>): set<nat> {
      set j | j in done && PageID(slot, j) !in pages
    }

    /** `pages'` is the state with exactly the pages in `done` written. */
    ghost predicate Written(pages': Pages, done: set<nat>) {
      && (forall id :: id in pages' <==> id in pages || (id.slot == slot && id.index in done))
      && forall id | id in pages' ::
           pages'[id] == if id.slot == slot && id.index in done then NewPage(id.index) else pages[id]
    }
  }

  /** Some of the touched pages are written and paid for. */
  ghost predicate Writing(e: Edit, quota: nat, pages': Pages, quota': nat, done: set<nat>) {
    e.Written(pages', done) && done <= e.Touched() && quota' + |e.New(done)| == quota
  }

  lemma {:induction false} WriteStart(e: Edit, quota: nat)
    ensures Writing(e, quota, e.pages, quota, {})
  {
    assert e.New({}) == {};
  }

  /** One more page written. */
  lemma {:induction false} WriteNext(e: Edit, quota: nat, pages': Pages, quota': nat, done: set<nat>, j: nat, pages'': Pages, quota'': nat)
    requires Writing(e, quota, pages', quota', done) && j in e.Touched() && j !in done
    requires pages'' == pages'[PageID(e.slot, j) := e.NewPage(j)]
    requires quota'' == quota' - if PageID(e.slot, j) in pages' then 0 else 1
    ensures Writing(e, quota, pages'', quota'', done + {j})
  {
    if PageID(e.slot, j) in e.pages {
      assert e.New(done + {j}) == e.New(done);
    } else {
      assert e.New(done + {j}) == e.New(done) + {j};
    }
  }

  /** The write ran out of pages with some of them written. */
  ghost predicate Stopped(e: Edit, quota: nat, pages': Pages, quota': nat) {
    quota' == 0 && |e.New(e.Touched())| > quota && exists done :: done < e.Touched() && e.Written(pages', done) && |e.New(done)| == quota
  }

  /** Out of pages: the write as a whole needs more than there were. */
  lemma {:induction false} WriteFails(e: Edit, quota: nat, pages': Pages, done: set<nat>, j: nat)
    requires Writing(e, quota, pages', 0, done) && j in e.Touched() && j !in done && PageID(e.slot, j) !in pages'
    ensures Stopped(e, quota, pages', 0)
  {
    assert e.New(done) + {j} <= e.New(e.Touched());
    SubsetSize(e.New(done) + {j}, e.New(e.Touched()));
  }

  /** The flat view after a write, also one that stopped in the middle: the written pages of the range hold the data,
      every other byte is as before. */
  lemma {:induction false} WrittenFlat(e: Edit, pages': Pages, done: set<nat>, slot: nat, a: nat)
    requires e.Written(pages', done)
    ensures Flat(pages', e.host, slot, a)
         == if slot == e.slot && e.index <= a < e.index + |e.data| && a / PAGE in done then e.data[a - e.index]
            else Flat(e.pages, e.host, slot, a)
  {
    var id := PageID(slot, a / PAGE);
    assert (a / PAGE) * PAGE + a % PAGE == a;
    if id in pages' && slot == e.slot && a / PAGE in done {
      assert pages'[id][a % PAGE] == e.NewByte(a);
    }
  }

  /** A completed write changes exactly its range. */
  lemma {:induction false} WriteExact(e: Edit, pages': Pages, slot: nat, a: nat)
    requires e.Written(pages', e.Touched())
    ensures Flat(pages', e.host, slot, a)
         == if slot == e.slot && e.index <= a < e.index + |e.data| then e.data[a - e.index] else Flat(e.pages, e.host, slot, a)
  {
    WrittenFlat(e, pages', e.Touched(), slot, a);
    if e.index <= a < e.index + |e.data| { InRange(e, a); }
  }

  lemma {:induction false} InRange(e: Edit, a: nat)
    requires e.index <= a < e.index + |e.data|
    ensures a / PAGE in e.Touched()
  {
    assert e.Touches(a / PAGE);
  }

  /** What was charged is the number of pages that the override map gained. */
  lemma {:induction false} ChargedPages(e: Edit, pages': Pages, done: set<nat>)
    requires e.Written(pages', done)
    ensures |pages'| == |e.pages| + |e.New(done)|
  {
    var gained := Ids(e.slot, e.New(done));
    IdsCount(e.slot, e.New(done));
    assert pages'.Keys == e.pages.Keys + gained;
    assert e.pages.Keys !! gained;
  }

  ghost function Ids(slot: nat, js: set<nat>): set<PageID> {
    set j | j in js :: PageID(slot, j)
  }

  lemma {:induction false} IdsCount(slot: nat, js: set<nat>)
    ensures |Ids(slot, js)| == |js|
    decreases js
  {
    if js != {} {
      var j :| j in js;
      IdsCount(slot, js - {j});
      assert Ids(slot, js) == Ids(slot, js - {j}) + {PageID(slot, j)};
    }
  }

  // --- the pages that are put together ---

  /** The old page with `part` in place of the bytes from `offset` on. */
  function Patch(page: Page, offset: nat, part: seq<Byte>): Page
    requires offset + |part| <= PAGE
  {
    page[..offset] + part + page[offset + |part|..]
  }

  /** Patching in the part of the data that falls on a page gives the page of the write. */
  lemma {:induction false} PatchIsNew(e: Edit, j: nat, offset: nat, from: nat, n: nat)
    requires offset + n <= PAGE && from + n <= |e.data| && e.index + from == j * PAGE + offset
    requires offset == 0 || from == 0
    requires offset + n == PAGE || from + n == |e.data|
    ensures Patch(e.OldPage(j), offset, e.data[from..from + n]) == e.NewPage(j)
  {
    var page := Patch(e.OldPage(j), offset, e.data[from..from + n]);
    forall i | 0 <= i < PAGE ensures page[i] == e.NewPage(j)[i] {
      OldByte(e, j, i);
      assert e.NewPage(j)[i] == e.NewByte(j * PAGE + i);
      PatchByte(e.OldPage(j), offset, e.data[from..from + n], i);
      if offset <= i < offset + n {
        assert j * PAGE + i - e.index == from + (i - offset);
        assert e.data[from..from + n][i - offset] == e.data[from + (i - offset)];
      } else {
        assert !(e.index <= j * PAGE + i < e.index + |e.data|);
      }
    }
  }

  lemma {:induction false} OldByte(e: Edit, j: nat, i: nat)
    requires i < PAGE
    ensures e.OldPage(j)[i] == Flat(e.pages, e.host, e.slot, j * PAGE + i)
  {
    assert (j * PAGE + i) / PAGE == j && (j * PAGE + i) % PAGE == i;
  }

  lemma {:induction false} PatchByte(page: Page, offset: nat, part: seq<Byte>, i: nat)
    requires offset + |part| <= PAGE && i < PAGE
    ensures Patch(page, offset, part)[i] == if offset <= i < offset + |part| then part[i - offset] else page[i]
  {
  }

  /** A page wholly in the range is a stretch of the data. */
  lemma {:induction false} StretchIsNew(e: Edit, j: nat)
    requires e.index <= j * PAGE && (j + 1) * PAGE <= e.index + |e.data|
    ensures e.data[j * PAGE - e.index..(j + 1) * PAGE - e.index] == e.NewPage(j)
  {
    var from := j * PAGE - e.index;
    var page := e.data[from..from + PAGE];
    assert from + PAGE == (j + 1) * PAGE - e.index;
    forall i | 0 <= i < PAGE ensures page[i] == e.NewPage(j)[i] {
      assert j * PAGE + i - e.index == from + i;
      assert e.NewPage(j)[i] == e.NewByte(j * PAGE + i);
    }
  }

  /** A page not written yet is as before the write. */
  lemma {:induction false} StillOld(e: Edit, quota: nat, pages': Pages, quota': nat, done: set<nat>, j: nat)
    requires Writing(e, quota, pages', quota', done) && j !in done
    ensures (if PageID(e.slot, j) in pages' then pages'[PageID(e.slot, j)] else HostPage(e.host, PageID(e.slot, j))) == e.OldPage(j)
  {
  }

  lemma {:induction false} SinglePage(e: Edit)
    requires e.data != [] && e.First() == e.Last()
    ensures e.Touches(e.First()) && e.Touched() == {e.First()} && e.index % PAGE + |e.data| <= PAGE
    ensures e.index % PAGE == 0 && |e.data| == PAGE ==> e.data == e.NewPage(e.First())
    ensures Patch(e.OldPage(e.First()), e.index % PAGE, e.data) == e.NewPage(e.First())
  {
    assert e.data[0..|e.data|] == e.data;
    assert forall j :: j in e.Touched() <==> e.Touches(j);
    PatchIsNew(e, e.First(), e.index % PAGE, 0, |e.data|);
    if |e.data| == PAGE && e.index % PAGE == 0 {
      assert Patch(e.OldPage(e.First()), 0, e.data) == e.data;
    }
  }

  lemma {:induction false} FirstPage(e: Edit)
    requires e.data != [] && e.First() < e.Last()
    ensures e.Touches(e.First()) && PAGE - e.index % PAGE <= |e.data|
    ensures Patch(e.OldPage(e.First()), e.index % PAGE, e.data[..PAGE - e.index % PAGE]) == e.NewPage(e.First())
  {
    var n := PAGE - e.index % PAGE;
    assert e.data[0..n] == e.data[..n];
    PatchIsNew(e, e.First(), e.index % PAGE, 0, n);
  }

  lemma {:induction false} LastPage(e: Edit)
    requires e.data != [] && e.First() < e.Last() && e.index + |e.data| < (e.Last() + 1) * PAGE
    ensures var n := (e.index + |e.data|) % PAGE;
            && e.Touches(e.Last()) && n <= |e.data|
            && Patch(e.OldPage(e.Last()), 0, e.data[|e.data| - n..]) == e.NewPage(e.Last())
  {
    var n := (e.index + |e.data|) % PAGE;
    assert e.data[|e.data| - n..|e.data| - n + n] == e.data[|e.data| - n..];
    PatchIsNew(e, e.Last(), 0, |e.data| - n, n);
  }

  lemma {:induction false} MiddlePage(e: Edit, j: nat)
    requires e.data != [] && e.Touches(j) && !(j == e.First() && e.index > j * PAGE) && !(j == e.Last() && e.index + |e.data| < (j + 1) * PAGE)
    ensures e.index <= j * PAGE && (j + 1) * PAGE <= e.index + |e.data|
    ensures e.data[j * PAGE - e.index..(j + 1) * PAGE - e.index] == e.NewPage(j)
  {
    StretchIsNew(e, j);
  }

  lemma {:induction false} TouchedIs(e: Edit)
    ensures forall j :: j in e.Touched() <==> e.Touches(j)
  {
  }

  lemma {:induction false} NoPages(e: Edit, quota: nat)
    requires e.data == []
    ensures e.Touched() == {} && e.New({}) == {}
  {
  }

  lemma {:induction false} WriteOver(e: Edit, quota: nat, pages': Pages, quota': nat, ok: bool)
    requires if ok then Writing(e, quota, pages', quota', e.Touched()) else Stopped(e, quota, pages', quota')
    ensures ok <==> |e.New(e.Touched())| <= quota
    ensures ok ==> e.Written(pages', e.Touched()) && quota' == quota - |e.New(e.Touched())|
    ensures !ok ==> quota' == 0 && exists done :: done < e.Touched() && e.Written(pages', done) && |e.New(done)| == quota
  {
  }

  // --- the same without pages of the range: which pages hold a byte of it ---

  /** The pages on which some byte of the range lies. */
  ghost function PagesHit(slot: nat, index: nat, len: nat): set<PageID> {
    set a | index <= a < index + len :: PageID(slot, a / PAGE)
  }

  /** The pages touched are those on which some byte of the range lies. */
  lemma {:induction false} TouchedPages(e: Edit)
    ensures Ids(e.slot, e.Touched()) == PagesHit(e.slot, e.index, |e.data|)
  {
    var hit := PagesHit(e.slot, e.index, |e.data|);
    forall j | j in e.Touched() ensures PageID(e.slot, j) in hit {
      var a := if j * PAGE >= e.index then j * PAGE else e.index;
      OnTouched(e, j, a);
    }
    forall a | e.index <= a < e.index + |e.data| ensures a / PAGE in e.Touched() { InRange(e, a); }
  }

  lemma {:induction false} OnTouched(e: Edit, j: nat, a: nat)
    requires e.Touches(j) && a == if j * PAGE >= e.index then j * PAGE else e.index
    ensures e.index <= a < e.index + |e.data| && a / PAGE == j
  {
  }

  lemma {:induction false} NewPages(e: Edit, done: set<nat>)
    ensures Ids(e.slot, done) - e.pages.Keys == Ids(e.slot, e.New(done)) && |Ids(e.slot, done) - e.pages.Keys| == |e.New(done)|
  {
    IdsCount(e.slot, e.New(done));
  }

  /** The pages with some of them written, byte by byte. */
  lemma {:induction false} WrittenMeans(e: Edit, pages': Pages, done: set<nat>)
    requires e.Written(pages', done)
    ensures pages'.Keys == e.pages.Keys + Ids(e.slot, done)
    ensures forall id | id in pages' && id !in Ids(e.slot, done) :: id in e.pages && pages'[id] == e.pages[id]
    ensures forall id, k | id in Ids(e.slot, done) && 0 <= k < PAGE ::
              pages'[id][k] == if e.index <= id.index * PAGE + k < e.index + |e.data| then e.data[id.index * PAGE + k - e.index]
                               else if id in e.pages then e.pages[id][k] else e.host(id.slot, id.index * PAGE + k)
  {
    IdsMembers(e.slot, done);
    hide Ids;
    forall id, k | id in Ids(e.slot, done) && 0 <= k < PAGE
      ensures pages'[id][k] == if e.index <= id.index * PAGE + k < e.index + |e.data| then e.data[id.index * PAGE + k - e.index]
                               else if id in e.pages then e.pages[id][k] else e.host(id.slot, id.index * PAGE + k)
    {
      NewByteIs(e, id, k);
    }
  }

  lemma {:induction false} IdsMembers(slot: nat, js: set<nat>)
    ensures forall id :: id in Ids(slot, js) <==> id.slot == slot && id.index in js
  {
    forall id: PageID | id.slot == slot && id.index in js ensures id in Ids(slot, js) { assert id == PageID(slot, id.index); }
  }

  lemma {:induction false} NewByteIs(e: Edit, id: PageID, k: nat)
    requires id.slot == e.slot && k < PAGE
    ensures e.NewPage(id.index)[k] == if e.index <= id.index * PAGE + k < e.index + |e.data| then e.data[id.index * PAGE + k - e.index]
                                      else if id in e.pages then e.pages[id][k] else e.host(id.slot, id.index * PAGE + k)
  {
    assert id == PageID(e.slot, id.index);
    var a := id.index * PAGE + k;
    assert a / PAGE == id.index && a % PAGE == k;
    assert e.NewPage(id.index)[k] == e.NewByte(a);
  }

  /** Page `id` holds the data where the range covers it, and what it held before elsewhere. */
  ghost predicate Merged(was: Pages, host: Host, index: nat, data: seq<Byte>, id: PageID, page: Page) {
    forall k | 0 <= k < PAGE ::
      page[k] == if index <= id.index * PAGE + k < index + |data| then data[id.index * PAGE + k - index]
                 else if id in was then was[id][k] else host(id.slot, id.index * PAGE + k)
  }

  /** What a write leaves and charges. With pages enough all pages hit are overridden and merged, and the new ones are
      charged; otherwise some of them, as many new ones as there was quota. */
  ghost predicate WriteEffect(was: Pages, host: Host, slot: nat, index: nat, data: seq<Byte>, quota: nat, now: Pages, quota': nat, ok: bool) {
    var hit := PagesHit(slot, index, |data|);
    && (ok <==> |hit - was.Keys| <= quota)
    && (ok ==> now.Keys == was.Keys + hit && quota' == quota - |hit - was.Keys|)
    && (!ok ==> quota' == 0 && was.Keys <= now.Keys < was.Keys + hit && |now.Keys - was.Keys| == quota)
    && (forall id | id in now && id !in hit :: id in was && now[id] == was[id])
    && (forall id | id in now && id in hit :: (!ok && id in was && now[id] == was[id]) || Merged(was, host, index, data, id, now[id]))
  }

  /** So does every write, whatever its alignment. */
  lemma {:induction false} WriteMeans(e: Edit, quota: nat, pages': Pages, quota': nat, ok: bool)
    requires ok <==> |e.New(e.Touched())| <= quota
    requires ok ==> e.Written(pages', e.Touched()) && quota' == quota - |e.New(e.Touched())|
    requires !ok ==> quota' == 0 && exists done :: done < e.Touched() && e.Written(pages', done) && |e.New(done)| == quota
    ensures WriteEffect(e.pages, e.host, e.slot, e.index, e.data, quota, pages', quota', ok)
  {
    TouchedPages(e);
    NewPages(e, e.Touched());
    var done := e.Touched();
    if !ok {
      done :| done < e.Touched() && e.Written(pages', done) && |e.New(done)| == quota;
      FewerIds(e, done);
      NewPages(e, done);
    }
    WrittenMerged(e, pages', done);
    hide Edit.Touched, Edit.New, Edit.Written, Ids, PagesHit, Merged, WriteEffect;
    EffectIs(e, quota, pages', quota', ok, Ids(e.slot, done), PagesHit(e.slot, e.index, |e.data|));
  }

  /** Putting it together for the pages overridden, some or all of those hit. */
  lemma {:induction false} EffectIs(e: Edit, quota: nat, pages': Pages, quota': nat, ok: bool, some: set<PageID>, hit: set<PageID>)
    requires hit == PagesHit(e.slot, e.index, |e.data|) && some <= hit && pages'.Keys == e.pages.Keys + some
    requires ok <==> |hit - e.pages.Keys| <= quota
    requires if ok then some == hit && quota' == quota - |hit - e.pages.Keys| else quota' == 0 && |some - e.pages.Keys| == quota
    requires forall id | id in pages' && id !in some :: id in e.pages && pages'[id] == e.pages[id]
    requires forall id | id in some :: Merged(e.pages, e.host, e.index, e.data, id, pages'[id])
    ensures WriteEffect(e.pages, e.host, e.slot, e.index, e.data, quota, pages', quota', ok)
  {
    hide PagesHit, Merged;
    if !ok { StoppedKeys(e.pages.Keys, pages'.Keys, some, hit, quota, |hit - e.pages.Keys|); }
  }

  lemma {:induction false} WrittenMerged(e: Edit, pages': Pages, done: set<nat>)
    requires e.Written(pages', done)
    ensures pages'.Keys == e.pages.Keys + Ids(e.slot, done)
    ensures forall id | id in pages' && id !in Ids(e.slot, done) :: id in e.pages && pages'[id] == e.pages[id]
    ensures forall id | id in Ids(e.slot, done) :: Merged(e.pages, e.host, e.index, e.data, id, pages'[id])
  {
    WrittenMeans(e, pages', done);
    hide Edit.Written, Ids;
  }

  lemma {:induction false} FewerIds(e: Edit, done: set<nat>)
    requires done < e.Touched()
    ensures Ids(e.slot, done) <= Ids(e.slot, e.Touched())
  {
  }

  /** A write that stopped has overridden as many new pages as there was quota, and not all. */
  lemma {:induction false} StoppedKeys(was: set<PageID>, now: set<PageID>, some: set<PageID>, all: set<PageID>, quota: nat, needed: nat)
    requires now == was + some && some <= all && |some - was| == quota && |all - was| == needed > quota
    ensures was <= now < was + all && |now - was| == quota
  {
    assert now - was == some - was;
    assert now == was + all ==> all - was == some - was;
  }
}
