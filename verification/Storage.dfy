/** Contract storage: pages written so far over the host's storage, with a cache of host pages
    (executor/src/rt/vm/storage.rs:70-405). */
module Storage {
  import opened Collections
  import opened Lru
  import opened StorageRead
  import opened StorageWrite
  import opened StorageDelta

  class Storage {
    const host: Host

    var pages: Pages
    var cache: Cache

    /** How many more pages may be overridden. */
    var quota: nat

    constructor (host: Host, quota: nat)
      ensures Valid() && pages == map[] && cache == [] && this.host == host && this.quota == quota
    {
      this.host := host;
      this.quota := quota;
      pages, cache := map[], [];
    }

    ghost predicate Valid()
      reads `cache
    {
      Coherent(cache, host)
    }

    /** `page_is_known`; a cached page becomes the most recent. */
    method PageIsKnown(id: PageID) returns (known: bool)
      modifies `cache
      ensures known == IsKnown(old(cache), pages, id) && cache == Looked(old(cache), pages, id)
    {
      if id in pages { return true; }
      known := Find(cache, id).Some?;
      cache := Touch(cache, id);
    }

    /** The first page of the range that is not known. */
    method CutPrefix(s: Span) returns (p: nat)
      requires Valid() && s.len > 0 && s.pages == pages
      modifies `cache
      ensures PrefixCut(s, host, cache, old(Cached(cache)), p) && (p <= s.Last() ==> !s.Known(old(Cached(cache)), p))
    {
      hide Coherent, Cached, IsKnown, Looked;
      ghost var known := Cached(cache);
      p := s.First();
      while p <= s.Last()
        invariant PrefixCut(s, host, cache, known, p)
        decreases s.Last() + 1 - p
      {
        PrefixNext(s, host, cache, known, p);
        var isKnown := PageIsKnown(s.Id(p));
        if !isKnown { break; }
        p := p + 1;
      }
    }

    /** The first page of the known suffix; its cached pages are in front of the cache afterwards. */
    method CutSuffix(s: Span) returns (m: nat)
      requires Valid() && s.len > 0 && s.pages == pages
      modifies `cache
      ensures SuffixCut(s, host, cache, old(Cached(cache)), m) && (m > s.First() ==> !s.Known(old(Cached(cache)), m - 1))
    {
      ghost var known := Cached(cache);
      SuffixFirst(s, host, cache);
      hide Coherent, Cached, IsKnown, Looked, Keys, CutDown;
      m := s.Last() + 1;
      while m > s.First()
        invariant SuffixCut(s, host, cache, known, m)
      {
        SuffixNext(s, host, cache, known, m);
        var isKnown := PageIsKnown(s.Id(m - 1));
        if !isKnown { break; }
        m := m - 1;
      }
    }

    /** `read`: every byte is the flat view's, but for pages that the read itself pushed out of the cache. */
    method Read(slot: nat, index: nat, buf: array<Byte>)
      requires Valid() && index + buf.Length <= U32_MAX
      modifies `cache, buf
      ensures Valid()
      ensures buf.Length > 0 ==>
        buf[..] == ReadBytes(Span(pages, slot, index, buf.Length), host, old(Cached(cache)), old(buf[..]))
      ensures buf.Length > 0 && (index + buf.Length - 1) / PAGE - index / PAGE < 136 ==>
        forall i | 0 <= i < buf.Length ::
          buf[i] == var id := PageID(slot, (index + i) / PAGE);
                    if id in pages then pages[id][(index + i) % PAGE] else host(slot, index + i)
      ensures var s := Span(pages, slot, index, buf.Length);
              var most := old(Cached(cache)) + if buf.Length > 0 then WholePages(s, s.Last() + 1) else {};
              Cached(cache) <= most && (|most| <= CACHE_SIZE ==> Cached(cache) == most)
    {
      hide Coherent, Cached, PrefixCut, SuffixCut, CutDown, Cuts, Filling, ReadBytes, WholePages, SuffixStart, ReadStart, ReadEnd;
      ghost var known, before := Cached(cache), buf[..];
      if buf.Length == 0 { return; }
      var s := Span(pages, slot, index, buf.Length);
      var p := CutPrefix(s);
      CutPrefixKnown(s, host, cache, known, p);
      var m := CutSuffix(s);
      SuffixDone(s, host, cache, known, m);
      CutBoth(s, known, p, m);
      ReadRange(s, known, p, m);
      ReadFromHost(s, ReadStart(s, p), ReadEnd(s, m), buf);
      HostRead(s, host, known, before, p, m, buf[..]);
      CopyPages(s, p, m, known, before, buf);
      if (index + buf.Length - 1) / PAGE - index / PAGE < 136 { ReadMeans(s, host, known, before); }
    }

    /** The host's bytes of one stretch of the range go into the buffer. */
    method ReadFromHost(s: Span, from: nat, to: nat, buf: array<Byte>)
      requires s.len == buf.Length && s.index <= from && (from < to ==> to <= s.index + s.len)
      modifies buf
      ensures forall i | 0 <= i < buf.Length :: buf[i] == if from <= s.index + i < to then host(s.slot, s.index + i) else old(buf[i])
    {
      var a := from;
      while a < to
        invariant from <= a && (if from < to then a <= to else a == from)
        invariant forall i | 0 <= i < buf.Length :: buf[i] == if from <= s.index + i < a then host(s.slot, s.index + i) else old(buf[i])
      {
        buf[a - s.index] := host(s.slot, a);
        a := a + 1;
      }
    }

    /** The part of page `j` in the range goes into the buffer. */
    method CopyPage(s: Span, j: nat, page: Page, buf: array<Byte>)
      requires s.len == buf.Length > 0
      modifies buf
      ensures Copied(s, j, page, old(buf[..]), buf[..])
    {
      var a, to := CopyStart(s, j), CopyEnd(s, j);
      while a < to
        invariant CopyStart(s, j) <= a
        invariant forall i | 0 <= i < buf.Length ::
          buf[i] == if CopyStart(s, j) <= s.index + i < Min(a, to) then page[(s.index + i) % PAGE] else old(buf[i])
      {
        OffsetInPage(j, a);
        buf[a - s.index] := page[a - j * PAGE];
        a := a + 1;
      }
    }

    /** The pages of the range in order: found ones are copied, those just read are cached, eight of them later. */
    method CopyPages(s: Span, p: nat, m: nat, ghost known: set<PageID>, ghost before: seq<Byte>, buf: array<Byte>)
      requires Valid() && s.len == buf.Length > 0 && s.pages == pages
      requires Cuts(s, known, p, m) && known == Cached(cache) && CutDown(s, known, Keys(cache), m)
      requires Filling(s, host, known, before, p, m, s.First(), buf[..])
      modifies `cache, buf
      ensures Valid() && buf[..] == ReadBytes(s, host, known, before)
      ensures var most := known + WholePages(s, s.Last() + 1);
              Cached(cache) <= most && (|most| <= CACHE_SIZE ==> Cached(cache) == most)
    {
      hide Coherent, Cached, Keys, Filling, InSweep, Cuts, CutDown, Lost, ReadBytes, SuffixStart, Progress, Holds, WholePages, Unstaging;
      HoldsStart(s, cache);
      ghost var parts := CopyReady(s, host, known, before, cache, p, m, buf[..]);
      var staged: Cache := [];
      var j := s.First();
      while j <= s.Last()
        invariant s.First() <= j <= s.Last() + 1
        invariant Progress(s, host, known, before, cache, staged, p, m, j, parts, buf[..]) && Holds(s, known, cache, staged, j)
        decreases s.Last() + 1 - j
      {
        staged, parts := CopyOne(s, p, m, j, staged, parts, known, before, buf);
        j := j + 1;
      }
      CopyDone(s, host, known, before, cache, staged, p, m, j, parts, buf[..]);
      ghost var kept := cache;
      Unstage(staged);
      HoldsDone(s, known, kept, cache, staged, j);
    }

    /** One page: overridden, cached, just read, or lost. */
    method CopyOne(s: Span, p: nat, m: nat, j: nat, staged: Cache, ghost parts: Segments, ghost known: set<PageID>, ghost before: seq<Byte>, buf: array<Byte>)
      returns (staged': Cache, ghost parts': Segments)
      requires s.len == buf.Length > 0 && s.pages == pages && s.First() <= j <= s.Last()
      requires Progress(s, host, known, before, cache, staged, p, m, j, parts, buf[..]) && Holds(s, known, cache, staged, j)
      modifies `cache, buf
      ensures Progress(s, host, known, before, cache, staged', p, m, j + 1, parts', buf[..]) && Holds(s, known, cache, staged', j + 1)
    {
      SweepFacts(s, host, known, cache, staged, p, m, j, parts);
      hide Coherent, Cached, Keys, Filling, InSweep, Copied, Lost, Put, Touch, Find, Holds;
      staged', parts' := staged, parts;
      var id := s.Id(j);
      ghost var now := buf[..];
      if id in pages {
        VisitOverridden(s, host, known, cache, staged, p, m, j, parts);
        HoldsSame(s, known, cache, cache, staged, j);
        CopyPage(s, j, pages[id], buf);
        FilledByCopy(s, host, known, before, p, m, j, pages[id], now, buf[..]);
      } else if Find(cache, id).Some? {
        var page := Find(cache, id).value;
        parts' := VisitCached(s, host, known, cache, staged, p, m, j, parts);
        HoldsHit(s, host, known, cache, staged, j);
        cache := Touch(cache, id);
        CopyPage(s, j, page, buf);
        FilledByCopy(s, host, known, before, p, m, j, page, now, buf[..]);
      } else {
        WholeRead(s, p, m, j);
        if j < m {
          parts' := VisitMissing(s, host, known, cache, staged, p, m, j, parts);
        } else {
          VisitLost(s, host, known, cache, staged, p, m, j, parts);
          SuffixKnown(s, host, known, cache, staged, p, m, j, parts);
          HoldsSame(s, known, cache, cache, staged, j);
        }
        FilledByHost(s, host, known, before, p, m, j, now);
        if ReadStart(s, p) <= j * PAGE && (j + 1) * PAGE <= ReadEnd(s, m) {
          PageRead(s, host, known, before, p, m, j, now);
          var page: Page := buf[j * PAGE - s.index..(j + 1) * PAGE - s.index];
          if |staged| < STAGING {
            staged' := staged + [Entry(id, page)];
            HoldsStaged(s, known, cache, staged, j, page);
          } else {
            HoldsPut(s, host, known, cache, staged, j, page);
            cache := Put(cache, CACHE_SIZE, id, page);
          }
        } else if j < m {
          HoldsSame(s, known, cache, cache, staged, j);
        }
      }
    }

    /** The staged pages are cached. */
    method Unstage(staged: Cache)
      requires Valid() && forall e | e in staged :: e.value == HostPage(host, e.key)
      modifies `cache
      ensures Valid() && Unstaging(old(Cached(cache)), cache, staged, |staged|)
    {
      hide Coherent, Put, Unstaging;
      ghost var known := Cached(cache);
      UnstagingStart(cache, staged);
      var i := 0;
      while i < |staged|
        invariant 0 <= i <= |staged| && Valid() && Unstaging(known, cache, staged, i)
      {
        Unstaged(cache, host, staged, i);
        UnstagingNext(known, cache, host, staged, i);
        cache := Put(cache, CACHE_SIZE, staged[i].key, staged[i].value);
        i := i + 1;
      }
    }

    /** `write_page`: a page overridden for the first time is charged. */
    method WritePage(id: PageID, value: Page) returns (ok: bool)
      modifies `pages, `quota
      ensures ok <==> id in old(pages) || old(quota) > 0
      ensures ok ==> pages == old(pages)[id := value] && quota == old(quota) - if id in old(pages) then 0 else 1
      ensures !ok ==> pages == old(pages) && quota == old(quota)
    {
      if id !in pages {
        if quota == 0 { return false; }
        quota := quota - 1;
      }
      pages := pages[id := value];
      return true;
    }

    /** The next page of a write in progress. */
    method WriteNew(e: Edit, ghost was: nat, ghost done: set<nat>, j: nat, page: Page) returns (ok: bool)
      requires Writing(e, was, pages, quota, done) && j in e.Touched() && j !in done && page == e.NewPage(j)
      modifies `pages, `quota
      ensures ok ==> Writing(e, was, pages, quota, done + {j})
      ensures !ok ==> Stopped(e, was, pages, quota)
    {
      ok := WritePage(PageID(e.slot, j), page);
      if ok {
        WriteNext(e, was, old(pages), old(quota), done, j, pages, quota);
      } else {
        WriteFails(e, was, pages, done, j);
      }
    }

    /** The page as it is before the write: overridden, or the host's. */
    method ExistingPage(id: PageID) returns (page: Page)
      ensures page == if id in pages then pages[id] else HostPage(host, id)
    {
      if id in pages { page := pages[id]; } else { page := HostPage(host, id); }
    }

    /** `write_single_page` */
    method WriteSinglePage(e: Edit, ghost was: nat) returns (ok: bool)
      requires Writing(e, was, pages, quota, {}) && e.host == host && e.data != [] && e.First() == e.Last()
      modifies `pages, `quota
      ensures ok ==> Writing(e, was, pages, quota, e.Touched())
      ensures !ok ==> Stopped(e, was, pages, quota)
    {
      var j, offset := e.First(), e.index % PAGE;
      SinglePage(e);
      TouchedIs(e);
      StillOld(e, was, pages, quota, {}, j);
      hide Writing, Stopped, Patch, Edit.NewPage, Edit.OldPage;
      var page;
      if offset == 0 && |e.data| == PAGE {
        page := e.data;
      } else {
        page := ExistingPage(PageID(e.slot, j));
        page := Patch(page, offset, e.data);
      }
      ok := WriteNew(e, was, {}, j, page);
      assert {} + {j} == e.Touched();
    }

    /** The partly covered first and last pages, then all others in order. */
    method WriteMulti(e: Edit, ghost was: nat) returns (ok: bool)
      requires Writing(e, was, pages, quota, {}) && e.host == host && e.data != [] && e.First() < e.Last()
      modifies `pages, `quota
      ensures ok ==> Writing(e, was, pages, quota, e.Touched())
      ensures !ok ==> Stopped(e, was, pages, quota)
    {
      TouchedIs(e);
      hide Writing, Stopped, Patch, Edit.NewPage, Edit.OldPage, Edit.Touched;
      var first, last, end := e.First(), e.Last(), e.index + |e.data|;
      var partialFirst, partialLast := e.index > first * PAGE, end < (last + 1) * PAGE;
      ghost var done: set<nat> := {};
      if partialFirst {
        FirstPage(e);
        StillOld(e, was, pages, quota, done, first);
        var page := ExistingPage(PageID(e.slot, first));
        page := Patch(page, e.index % PAGE, e.data[..PAGE - e.index % PAGE]);
        ok := WriteNew(e, was, done, first, page);
        if !ok { return; }
        done := done + {first};
      }
      if partialLast {
        LastPage(e);
        StillOld(e, was, pages, quota, done, last);
        var page := ExistingPage(PageID(e.slot, last));
        page := Patch(page, 0, e.data[|e.data| - end % PAGE..]);
        ok := WriteNew(e, was, done, last, page);
        if !ok { return; }
        done := done + {last};
      }
      ok := WriteMiddle(e, was, done, partialFirst, partialLast);
    }

    /** All pages but the partly covered ones, which are done. */
    method WriteMiddle(e: Edit, ghost was: nat, ghost done0: set<nat>, partialFirst: bool, partialLast: bool) returns (ok: bool)
      requires Writing(e, was, pages, quota, done0) && e.data != [] && e.First() < e.Last()
      requires partialFirst <==> e.index > e.First() * PAGE
      requires partialLast <==> e.index + |e.data| < (e.Last() + 1) * PAGE
      requires done0 == (if partialFirst then {e.First()} else {}) + (if partialLast then {e.Last() as nat} else {})
      modifies `pages, `quota
      ensures ok ==> Writing(e, was, pages, quota, e.Touched())
      ensures !ok ==> Stopped(e, was, pages, quota)
    {
      TouchedIs(e);
      hide Writing, Stopped, Edit.NewPage, Edit.Touched;
      ghost var done: set<nat> := done0;
      var j := e.First();
      while j <= e.Last()
        invariant e.First() <= j <= e.Last() + 1
        invariant Writing(e, was, pages, quota, done)
        invariant forall k: nat :: k in done <==> (e.Touches(k) && k < j) || k in done0
        decreases e.Last() + 1 - j
      {
        if !((j == e.First() && partialFirst) || (j == e.Last() && partialLast)) {
          MiddlePage(e, j);
          ok := WriteNew(e, was, done, j, e.data[j * PAGE - e.index..(j + 1) * PAGE - e.index]);
          if !ok { return; }
          done := done + {j};
        }
        j := j + 1;
      }
      assert done == e.Touched();
      ok := true;
    }

    /** `write`: all touched pages, the partly covered ones first. */
    method Write(slot: nat, index: nat, data: seq<Byte>) returns (ok: bool)
      requires Valid() && index + |data| <= U32_MAX
      modifies `pages, `quota
      ensures Valid()
      ensures var e := Edit(old(pages), host, slot, index, data);
              && (ok <==> |e.New(e.Touched())| <= old(quota))
              && (ok ==> e.Written(pages, e.Touched()) && quota == old(quota) - |e.New(e.Touched())|)
              && (!ok ==> quota == 0 && exists done :: done < e.Touched() && e.Written(pages, done))
      ensures WriteEffect(old(pages), host, slot, index, data, old(quota), pages, quota, ok)
    {
      hide Edit.Touched, Edit.New, Edit.Written, Writing, Stopped, Coherent, WriteEffect;
      var e := Edit(pages, host, slot, index, data);
      ghost var was := quota;
      WriteStart(e, was);
      if data == [] {
        NoPages(e, was);
        WriteOver(e, was, pages, quota, true);
        WriteMeans(e, was, pages, quota, true);
        return true;
      }
      if e.First() == e.Last() {
        ok := WriteSinglePage(e, was);
      } else {
        ok := WriteMulti(e, was);
      }
      WriteOver(e, was, pages, quota, ok);
      WriteMeans(e, was, pages, quota, ok);
    }

    /** `make_delta` */
    method MakeDelta() returns (runs: seq<Delta>)
      ensures Exact(runs, pages)
    {
      var ks := SortedPages(pages);
      BuildStart(pages, ks);
      hide Building, Exact;
      runs := [];
      var i := 0;
      while i < |ks|
        invariant 0 <= i <= |ks| && Building(runs, pages, ks, i) && forall k | k in ks :: k in pages
      {
        var k := ks[i];
        assert k in ks;
        if k.index != 0 && Previous(k) in pages {
          ExtendRun(runs, pages, ks, i);
          var last := runs[|runs| - 1];
          runs := runs[..|runs| - 1] + [Delta(last.id, last.data + pages[k])];
        } else {
          PushRun(runs, pages, ks, i);
          runs := runs + [Delta(k, pages[k])];
        }
        i := i + 1;
      }
      BuildDone(runs, pages, ks);
    }
  }

  /** Of a storage of zeros page 136 is read, then pages 0 to 136: where page 136 belongs the second read leaves what the
      buffer held. */
  method SecondReadLoses(slot: nat) returns (storage: Storage, buf: array<Byte>)
    ensures storage.Valid() && storage.pages == map[] && buf.Length == 137 * PAGE
    ensures buf[136 * PAGE] == 1 && Flat(storage.pages, storage.host, slot, 136 * PAGE) == 0
  {
    hide Coherent, Cached, Lost, WholePages, Overflows;
    OnePageRead(slot, 136);
    LongReadLoses(slot);
    storage := new Storage((s, a) => 0, 0);
    NothingCached();
    var first := new Byte[PAGE](_ => 0);
    storage.Read(slot, 136 * PAGE, first);
    assert Cached(storage.cache) == {PageID(slot, 136)};
    buf := new Byte[137 * PAGE](_ => 1);
    storage.Read(slot, 0, buf);
  }

  lemma {:induction false} NothingCached()
    ensures Cached([]) == {}
  {
  }
}
