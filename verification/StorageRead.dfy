/** Contract storage as the contract sees it, and which cached pages a multi-page read loses while it fills the
    cache (executor/src/rt/vm/storage.rs:12-13, 172-280). */
module StorageRead {
  import opened Collections
  import opened Wrappers
  import opened Lru

  const PAGE: nat := 32
  const CACHE_SIZE: nat := 128
  const STAGING: nat := CACHE_SIZE / 16
  const U32_MAX: nat := 0xFFFF_FFFF

  type Byte = b: int | 0 <= b < 256

  type Page = p: seq<Byte> | |p| == PAGE witness seq(32, _ => 0)

  datatype PageID = PageID(slot: nat, index: nat)

  type Pages = map<PageID, Page>

  type Host = (nat, nat) -> Byte

  type Cache = seq<Entry<PageID, Page>>

  /** A byte of contract storage: of the overriding page if there is one, of the host otherwise. */
  function Flat(pages: Pages, host: Host, slot: nat, a: nat): Byte {
    var id := PageID(slot, a / PAGE);
    if id in pages then pages[id][a % PAGE] else host(slot, a)
  }

  function HostPage(host: Host, id: PageID): Page {
    var page := seq<Byte>(PAGE, (i: nat) => host(id.slot, id.index * PAGE + i));
    page
  }

  /** Every cached page is its host page. */
  ghost predicate Coherent(cache: Cache, host: Host) {
    && |cache| <= CACHE_SIZE && NoDup(Keys(cache))
    && forall e | e in cache :: e.value == HostPage(host, e.key)
  }

  /** What stays fixed during a read of `len > 0` bytes of `slot` at `index`. */
  datatype Span = Span(pages: Pages, slot: nat, index: nat, len: nat) {
    function First(): nat { index / PAGE }

    function Last(): int { (index + len - 1) / PAGE }

    function Id(j: nat): PageID { PageID(slot, j) }

    predicate Free(j: nat) { Id(j) !in pages }

    /** The whole page lies in the range. */
    predicate Whole(j: nat) { index <= j * PAGE && (j + 1) * PAGE <= index + len }

    /** The page is known before anything is read. */
    predicate Known(known: set<PageID>, j: nat) { !Free(j) || Id(j) in known }
  }

  /** The pages of [lo, hi) that no write overrides, in order. */
  ghost function FreePages(s: Span, lo: nat, hi: nat): seq<PageID>
    decreases hi - lo
  {
    if hi <= lo then [] else FreePages(s, lo, hi - 1) + if s.Free(hi - 1) then [s.Id(hi - 1)] else []
  }

  lemma {:induction false} FreeMembers(s: Span, lo: nat, hi: nat)
    ensures forall k :: k in FreePages(s, lo, hi) <==> k.slot == s.slot && lo <= k.index < hi && k !in s.pages
    ensures NoDup(FreePages(s, lo, hi))
    ensures |FreePages(s, lo, hi)| <= if lo <= hi then hi - lo else 0
    decreases hi - lo
  {
    if lo < hi { FreeMembers(s, lo, hi - 1); }
  }

  /** The first page of the known suffix: all pages from it on are known, the one before is not. */
  ghost function SuffixStart(s: Span, known: set<PageID>, hi: nat): (m: nat)
    requires s.First() <= hi
    ensures s.First() <= m <= hi
    ensures forall j | m <= j < hi :: s.Known(known, j)
    ensures m > s.First() ==> !s.Known(known, m - 1)
    decreases hi
  {
    if hi == s.First() || !s.Known(known, hi - 1) then hi else SuffixStart(s, known, hi - 1)
  }

  lemma {:induction false} SuffixUnique(s: Span, known: set<PageID>, hi: nat, m: nat)
    requires s.First() <= m <= hi && (forall j | m <= j < hi :: s.Known(known, j)) && (m > s.First() ==> !s.Known(known, m - 1))
    ensures m == SuffixStart(s, known, hi)
  {
    var n := SuffixStart(s, known, hi);
    var before, after := m > 0 && s.Known(known, m - 1), n > 0 && s.Known(known, n - 1);
  }

  /** Pages before the suffix that pass through the cache during the read: not overridden, and cached before or
      read whole from the host. */
  ghost function Passing(s: Span, known: set<PageID>, lo: nat, hi: nat): nat
    decreases hi - lo
  {
    if hi <= lo then 0
    else Passing(s, known, lo, hi - 1) + if s.Free(hi - 1) && (s.Id(hi - 1) in known || s.Whole(hi - 1)) then 1 else 0
  }

  lemma {:induction false} PassingBound(s: Span, known: set<PageID>, lo: nat, hi: nat)
    ensures Passing(s, known, lo, hi) <= if lo <= hi then hi - lo else 0
    decreases hi - lo
  {
    if lo < hi { PassingBound(s, known, lo, hi - 1); }
  }

  /** How many cached suffix pages the read itself pushes out of the cache. */
  ghost function LostCount(s: Span, known: set<PageID>): nat
    requires s.First() <= s.Last()
  {
    var m := SuffixStart(s, known, s.Last() + 1);
    var suffix := |FreePages(s, m, s.Last() + 1)|;
    var over := Passing(s, known, s.First(), m) + suffix - (CACHE_SIZE + STAGING);
    if over <= 0 then 0 else if over < suffix then over else suffix
  }

  /** Page `j` is one of the pushed-out suffix pages: the last ones go first. */
  ghost predicate Lost(s: Span, known: set<PageID>, j: nat)
    requires s.First() <= s.Last()
  {
    var m := SuffixStart(s, known, s.Last() + 1);
    m <= j <= s.Last() && s.Free(j)
    && |FreePages(s, m, j)| + LostCount(s, known) >= |FreePages(s, m, s.Last() + 1)|
  }

  // --- the cache during the sweep over the pages before the suffix ---

  /** The cache holds the passed pages in front, then what is left of the suffix in order, then the others. */
  ghost predicate Sweep(s: Span, known: set<PageID>, keys: seq<PageID>, m: nat, j: nat, staged: nat, passed: seq<PageID>, kept: seq<PageID>, others: seq<PageID>)
    requires s.First() <= s.Last()
  {
    var suffix := FreePages(s, m, s.Last() + 1);
    var count := Passing(s, known, s.First(), j) - staged;
    && s.First() <= j <= m && keys == passed + kept + others && |keys| <= CACHE_SIZE && NoDup(keys)
    && (forall k | k in passed :: k.slot == s.slot && k.index < j)
    && (forall k | k in others :: k in known && k !in suffix)
    && 0 <= count && staged <= STAGING
    && |passed| == Min(count, CACHE_SIZE)
    && |kept| == Min(|suffix|, CACHE_SIZE - |passed|) && kept == suffix[..|kept|]
    && (staged < STAGING ==> count + |suffix| <= CACHE_SIZE && forall k :: k in known <==> k in keys)
  }

  /** An overridden page, or one that is only partly read from the host, changes nothing. */
  lemma {:induction false} SweepSkip(s: Span, known: set<PageID>, keys: seq<PageID>, m: nat, j: nat, staged: nat, passed: seq<PageID>, kept: seq<PageID>, others: seq<PageID>)
    requires s.First() <= s.Last() && j < m && Sweep(s, known, keys, m, j, staged, passed, kept, others)
    requires s.Free(j) ==> s.Id(j) !in known && !s.Whole(j)
    ensures Sweep(s, known, keys, m, j + 1, staged, passed, kept, others)
  {
  }

  /** A page read whole from the host goes to the staging buffer while there is room. */
  lemma {:induction false} SweepStage(s: Span, known: set<PageID>, keys: seq<PageID>, m: nat, j: nat, staged: nat, passed: seq<PageID>, kept: seq<PageID>, others: seq<PageID>)
    requires s.First() <= s.Last() && j < m && Sweep(s, known, keys, m, j, staged, passed, kept, others)
    requires s.Free(j) && s.Whole(j) && staged < STAGING
    ensures Sweep(s, known, keys, m, j + 1, staged + 1, passed, kept, others)
  {
  }

  /** A cached page comes to the front. */
  lemma {:induction false} SweepHit(s: Span, known: set<PageID>, keys: seq<PageID>, m: nat, j: nat, staged: nat, passed: seq<PageID>, kept: seq<PageID>, others: seq<PageID>)
    requires s.First() <= s.Last() && j < m && m <= s.Last() + 1 && Sweep(s, known, keys, m, j, staged, passed, kept, others)
    requires s.Free(j) && s.Id(j) in keys
    ensures Sweep(s, known, [s.Id(j)] + Removed(keys, s.Id(j)), m, j + 1, staged, [s.Id(j)] + passed, kept, Removed(others, s.Id(j)))
  {
    var id, suffix := s.Id(j), FreePages(s, m, s.Last() + 1);
    FreeMembers(s, m, s.Last() + 1);
    hide FreePages, NoDup, Removed, SuffixStart;
    Parts(passed + kept, others);
    assert forall k | k in kept :: k in suffix;
    HitMoves(passed, kept, others, id);
  }

  lemma {:induction false} HitMoves<K>(passed: seq<K>, kept: seq<K>, others: seq<K>, id: K)
    requires NoDup(passed + kept + others) && id in passed + kept + others && id !in passed && id !in kept && NoDup(others)
    ensures var keys := passed + kept + others;
            && [id] + Removed(keys, id) == ([id] + passed) + kept + Removed(others, id)
            && NoDup([id] + Removed(keys, id)) && |Removed(keys, id)| == |keys| - 1 && |Removed(others, id)| == |others| - 1
            && (forall k :: k in [id] + Removed(keys, id) <==> k in keys) && forall k | k in Removed(others, id) :: k in others
  {
    var keys := passed + kept + others;
    hide NoDup;
    RemovedFromRest(passed + kept, others, id);
    RemovedMembers(keys, id);
    RemovedMembers(others, id);
    PrependDistinct(id, Removed(keys, id));
    assert forall k | k in Removed(others, id) :: k in others && k != id;
  }

  lemma {:induction false} Parts<K>(a: seq<K>, b: seq<K>)
    requires NoDup(a + b)
    ensures NoDup(a) && NoDup(b) && forall k | k in a :: k !in b
  {
    forall i, j | 0 <= i < j < |a| ensures a[i] != a[j] { assert (a + b)[i] != (a + b)[j]; }
    forall i, j | 0 <= i < j < |b| ensures b[i] != b[j] { assert (a + b)[|a| + i] != (a + b)[|a| + j]; }
    forall i, j | 0 <= i < |a| && 0 <= j < |b| ensures a[i] != b[j] { assert (a + b)[i] != (a + b)[|a| + j]; }
  }

  ghost function Front<K>(keys: seq<K>): seq<K> {
    if |keys| > CACHE_SIZE then keys[..CACHE_SIZE] else keys
  }

  /** A page inserted directly comes to the front, and a full cache gives up one of the others, or else the last
      page of the suffix. */
  lemma {:induction false} SweepInsert(s: Span, known: set<PageID>, keys: seq<PageID>, m: nat, j: nat, passed: seq<PageID>, kept: seq<PageID>, others: seq<PageID>)
    returns (passed': seq<PageID>, kept': seq<PageID>, others': seq<PageID>)
    requires s.First() <= s.Last() && j < m && m <= s.Last() + 1 && Sweep(s, known, keys, m, j, STAGING, passed, kept, others)
    requires s.Free(j) && s.Whole(j) && s.Id(j) !in keys
    ensures Sweep(s, known, Front([s.Id(j)] + keys), m, j + 1, STAGING, passed', kept', others')
  {
    var id := s.Id(j);
    hide FreePages;
    FrontDistinct(id, keys);
    passed', kept', others' := [id] + passed, kept, others;
    if |keys| == CACHE_SIZE {
      if others != [] {
        others' := others[..|others| - 1];
      } else if kept != [] {
        kept' := kept[..|kept| - 1];
      } else {
        passed' := passed'[..CACHE_SIZE];
      }
    }
    assert Front([id] + keys) == passed' + kept' + others';
  }

  lemma {:induction false} FrontDistinct<K>(k: K, keys: seq<K>)
    requires NoDup(keys) && k !in keys
    ensures NoDup(Front([k] + keys)) && |Front([k] + keys)| <= CACHE_SIZE
  {
  }

  // --- before and after the sweep ---

  lemma {:induction false} FreeFront(s: Span, lo: nat, hi: nat)
    requires lo < hi
    ensures FreePages(s, lo, hi) == (if s.Free(lo) then [s.Id(lo)] else []) + FreePages(s, lo + 1, hi)
    decreases hi
  {
    if lo + 1 < hi {
      FreeFront(s, lo, hi - 1);
    } else {
      assert FreePages(s, lo, lo) == [];
    }
  }

  lemma {:induction false} FreeSplit(s: Span, lo: nat, mid: nat, hi: nat)
    requires lo <= mid <= hi
    ensures FreePages(s, lo, hi) == FreePages(s, lo, mid) + FreePages(s, mid, hi)
    decreases hi
  {
    if mid < hi { FreeSplit(s, lo, mid, hi - 1); }
  }

  /** The suffix from page `i` on has been looked up, last page first: its cached pages are in front, in order. */
  ghost predicate CutDown(s: Span, known: set<PageID>, keys: seq<PageID>, i: nat)
    requires s.First() <= s.Last()
  {
    && s.First() <= i <= s.Last() + 1 && FreePages(s, i, s.Last() + 1) <= keys
    && |keys| <= CACHE_SIZE && NoDup(keys) && forall k :: k in known <==> k in keys
  }

  lemma {:induction false} CutStep(s: Span, known: set<PageID>, keys: seq<PageID>, i: nat)
    requires s.First() <= s.Last() && CutDown(s, known, keys, i) && s.First() < i && s.Known(known, i - 1)
    ensures var keys' := if s.Free(i - 1) then [s.Id(i - 1)] + Removed(keys, s.Id(i - 1)) else keys;
            CutDown(s, known, keys', i - 1)
  {
    hide FreePages, NoDup;
    var id, hi := s.Id(i - 1), s.Last() + 1;
    FreeFront(s, i - 1, hi);
    if s.Free(i - 1) {
      FreeMembers(s, i, hi);
      MovedBefore(keys, FreePages(s, i, hi), id);
    } else {
      assert [] + FreePages(s, i, hi) == FreePages(s, i, hi);
    }
  }

  lemma {:induction false} MovedBefore<K>(keys: seq<K>, front: seq<K>, k: K)
    requires front <= keys && NoDup(keys) && k in keys && k !in front
    ensures var keys' := [k] + Removed(keys, k);
            [k] + front <= keys' && NoDup(keys') && |keys'| == |keys| && forall x :: x in keys <==> x in keys'
  {
    var others := keys[|front|..];
    assert keys == front + others;
    RemovedFromRest(front, others, k);
    RemovedMembers(keys, k);
    PrependDistinct(k, Removed(keys, k));
    hide Removed, NoDup;
    assert [k] + Removed(keys, k) == ([k] + front) + Removed(others, k);
    assert ([k] + front) <= ([k] + front) + Removed(others, k);
  }

  lemma {:induction false} SweepStart(s: Span, known: set<PageID>, keys: seq<PageID>, m: nat)
    requires s.First() <= s.Last() && CutDown(s, known, keys, m)
    ensures var n := |FreePages(s, m, s.Last() + 1)|;
            Sweep(s, known, keys, m, s.First(), 0, [], keys[..n], keys[n..])
  {
    var suffix := FreePages(s, m, s.Last() + 1);
    assert keys == suffix + keys[|suffix|..];
    Parts(suffix, keys[|suffix|..]);
  }

  /** Which pages of the suffix are still cached. */
  ghost predicate Tail(s: Span, known: set<PageID>, keys: seq<PageID>, m: nat)
    requires s.First() <= s.Last()
  {
    forall j: nat | m <= j <= s.Last() && s.Free(j) :: s.Id(j) in keys <==> !Lost(s, known, j)
  }

  lemma {:induction false} SweepEnd(s: Span, known: set<PageID>, keys: seq<PageID>, m: nat, staged: nat, passed: seq<PageID>, kept: seq<PageID>, others: seq<PageID>)
    requires s.First() <= s.Last() && m == SuffixStart(s, known, s.Last() + 1) && Sweep(s, known, keys, m, m, staged, passed, kept, others)
    ensures Tail(s, known, keys, m)
  {
    hide FreePages, Passing, SuffixStart, NoDup;
    var suffix := FreePages(s, m, s.Last() + 1);
    FreeMembers(s, m, s.Last() + 1);
    assert |kept| == |suffix| - LostCount(s, known);
    forall j: nat | m <= j <= s.Last() && s.Free(j) ensures s.Id(j) in keys <==> |FreePages(s, m, j)| < |kept| {
      PlaceInSuffix(s, m, j, s.Last() + 1);
      InFront(suffix, |FreePages(s, m, j)|, |kept|);
      assert s.Id(j) in suffix;
    }
  }

  lemma {:induction false} PlaceInSuffix(s: Span, m: nat, j: nat, hi: nat)
    requires m <= j < hi && s.Free(j)
    ensures |FreePages(s, m, j)| < |FreePages(s, m, hi)| && FreePages(s, m, hi)[|FreePages(s, m, j)|] == s.Id(j)
  {
    FreeSplit(s, m, j, hi);
    FreeFront(s, j, hi);
  }

  lemma {:induction false} InFront<K>(keys: seq<K>, i: nat, n: nat)
    requires NoDup(keys) && i < |keys| && n <= |keys|
    ensures keys[i] in keys[..n] <==> i < n
  {
    if i < n { assert keys[..n][i] == keys[i]; }
  }

  lemma {:induction false} TailTouched(s: Span, known: set<PageID>, keys: seq<PageID>, keys': seq<PageID>, m: nat)
    requires s.First() <= s.Last() && Tail(s, known, keys, m) && forall k :: k in keys <==> k in keys'
    ensures Tail(s, known, keys', m)
  {
  }

  // --- what a read leaves in the buffer ---

  /** Every byte is the flat view's, but those of pages that were lost keep what the buffer held before. */
  ghost function ReadByte(s: Span, host: Host, known: set<PageID>, before: seq<Byte>, i: nat): Byte
    requires |before| == s.len && i < s.len
  {
    if Lost(s, known, (s.index + i) / PAGE) then before[i] else Flat(s.pages, host, s.slot, s.index + i)
  }

  ghost predicate Correct(s: Span, host: Host, after: seq<Byte>) {
    |after| == s.len && forall i | 0 <= i < s.len :: after[i] == Flat(s.pages, host, s.slot, s.index + i)
  }

  ghost function ReadBytes(s: Span, host: Host, known: set<PageID>, before: seq<Byte>): (after: seq<Byte>)
    requires |before| == s.len > 0
    ensures |after| == s.len
  {
    seq(s.len, i requires 0 <= i < s.len => ReadByte(s, host, known, before, i))
  }

  /** The read loses pages exactly when some page of the known suffix comes from the cache and the pages of the
      range that pass through the cache are more than it and the staging buffer hold together. */
  ghost predicate Overflows(s: Span, known: set<PageID>)
    requires s.len > 0
  {
    var m := SuffixStart(s, known, s.Last() + 1);
    var suffix := |FreePages(s, m, s.Last() + 1)|;
    suffix > 0 && Passing(s, known, s.First(), m) + suffix > CACHE_SIZE + STAGING
  }

  /** A read is right whatever the buffer held before, unless it overflows the cache while pages are still needed
      from it; then it is wrong for some buffer. */
  lemma {:induction false} ReadExact(s: Span, host: Host, known: set<PageID>)
    requires s.len > 0
    ensures (forall before: seq<Byte> | |before| == s.len :: Correct(s, host, ReadBytes(s, host, known, before))) <==> !Overflows(s, known)
  {
    if Overflows(s, known) {
      var before := LostWitness(s, host, known);
      assert !Correct(s, host, ReadBytes(s, host, known, before));
    } else {
      forall before: seq<Byte> | |before| == s.len ensures Correct(s, host, ReadBytes(s, host, known, before)) {
        forall i | 0 <= i < s.len ensures ReadByte(s, host, known, before, i) == Flat(s.pages, host, s.slot, s.index + i) {
          NoneLost(s, known, (s.index + i) / PAGE);
        }
      }
    }
  }

  lemma {:induction false} NoneLost(s: Span, known: set<PageID>, j: nat)
    requires s.len > 0 && !Overflows(s, known)
    ensures !Lost(s, known, j)
  {
    var m, hi := SuffixStart(s, known, s.Last() + 1), s.Last() + 1;
    if m <= j <= s.Last() && s.Free(j) {
      FreeSplit(s, m, j, hi);
      FreeFront(s, j, hi);
    }
  }

  /** The last cached suffix page is lost, and a buffer that differs there stays wrong. */
  lemma {:induction false} LostWitness(s: Span, host: Host, known: set<PageID>) returns (before: seq<Byte>)
    requires s.len > 0 && Overflows(s, known)
    ensures |before| == s.len && !Correct(s, host, ReadBytes(s, host, known, before))
  {
    var j := LostPage(s, known);
    hide Lost, FreePages, Overflows, SuffixStart;
    var i := InPage(s, j);
    var right := Flat(s.pages, host, s.slot, s.index + i);
    before := seq<Byte>(s.len, (k: nat) => if right == 0 then 1 else 0);
    assert ReadBytes(s, host, known, before)[i] == before[i] != right;
  }

  lemma {:induction false} LostPage(s: Span, known: set<PageID>) returns (j: nat)
    requires s.len > 0 && Overflows(s, known)
    ensures s.First() <= j <= s.Last() && Lost(s, known, j)
  {
    var m, hi := SuffixStart(s, known, s.Last() + 1), s.Last() + 1;
    var suffix := FreePages(s, m, hi);
    FreeMembers(s, m, hi);
    hide FreePages;
    assert suffix[|suffix| - 1] in suffix;
    j := suffix[|suffix| - 1].index;
    LastIsLast(s, m, j, hi);
  }

  lemma {:induction false} LastIsLast(s: Span, m: nat, j: nat, hi: nat)
    requires m <= j < hi && s.Free(j) && FreePages(s, m, hi) != [] && FreePages(s, m, hi)[|FreePages(s, m, hi)| - 1] == s.Id(j)
    ensures |FreePages(s, m, j)| + 1 == |FreePages(s, m, hi)|
  {
    FreeMembers(s, m, hi);
    FreeSplit(s, m, j, hi);
    FreeFront(s, j, hi);
    var all, n := FreePages(s, m, hi), |FreePages(s, m, j)|;
    assert all[n] == s.Id(j);
  }

  lemma {:induction false} InPage(s: Span, j: nat) returns (i: nat)
    requires s.len > 0 && s.First() <= j <= s.Last()
    ensures i < s.len && (s.index + i) / PAGE == j
  {
    if j * PAGE >= s.index { i := j * PAGE - s.index; } else { i := 0; }
  }

  /** No read of up to 136 pages loses anything. */
  lemma {:induction false} ShortReads(s: Span, known: set<PageID>)
    requires s.len > 0 && s.Last() - s.First() < CACHE_SIZE + STAGING
    ensures !Overflows(s, known)
  {
    var m := SuffixStart(s, known, s.Last() + 1);
    PassingBound(s, known, s.First(), m);
    FreeMembers(s, m, s.Last() + 1);
  }

  /** What a read of up to 136 pages leaves in the buffer: each byte is the overriding page's, or else the host's. */
  lemma {:induction false} ReadMeans(s: Span, host: Host, known: set<PageID>, before: seq<Byte>)
    requires |before| == s.len > 0 && (s.index + s.len - 1) / PAGE - s.index / PAGE < 136
    ensures forall i | 0 <= i < s.len ::
              ReadBytes(s, host, known, before)[i] == var id := PageID(s.slot, (s.index + i) / PAGE);
                                                      if id in s.pages then s.pages[id][(s.index + i) % PAGE] else host(s.slot, s.index + i)
  {
    ShortReads(s, known);
    hide Lost, Overflows;
    forall i | 0 <= i < s.len
      ensures ReadBytes(s, host, known, before)[i] == Flat(s.pages, host, s.slot, s.index + i)
    {
      NoneLost(s, known, (s.index + i) / PAGE);
    }
  }

  /** Reading 137 pages of which only the last is cached loses that one. */
  lemma {:induction false} LongReadLoses(slot: nat)
    ensures var s := Span(map[], slot, 0, 137 * PAGE);
            Overflows(s, {PageID(slot, 136)}) && Lost(s, {PageID(slot, 136)}, 136)
  {
    var s := Span(map[], slot, 0, 137 * PAGE);
    var known := {PageID(slot, 136)};
    assert s.Last() == 136 && !s.Known(known, 135);
    assert SuffixStart(s, known, 137) == SuffixStart(s, known, 136) == 136;
    assert FreePages(s, 136, 136) == [] && FreePages(s, 136, 137) == [s.Id(136)];
    AllPass(s, known, 136);
    var j := LostPage(s, known);
    assert j == 136;
  }

  lemma {:induction false} AllPass(s: Span, known: set<PageID>, hi: nat)
    requires s.pages == map[] && s.index == 0 && hi * PAGE <= s.len
    ensures Passing(s, known, 0, hi) == hi
  {
    if hi > 0 { AllPass(s, known, hi - 1); }
  }

  // --- the buffer while the pages are copied ---

  ghost function Cached(cache: Cache): set<PageID> {
    set k | k in Keys(cache)
  }

  lemma {:induction false} CachedKeys(cache: Cache)
    ensures forall k :: k in Cached(cache) <==> k in Keys(cache)
  {
  }

  lemma {:induction false} TouchedCache(cache: Cache, host: Host, id: PageID)
    requires Coherent(cache, host)
    ensures Coherent(Touch(cache, id), host) && Cached(Touch(cache, id)) == Cached(cache)
    ensures Find(cache, id).Some? <==> id in Cached(cache)
    ensures Find(cache, id).Some? ==> Find(cache, id).value == HostPage(host, id)
    ensures Keys(Touch(cache, id)) == if id in Cached(cache) then [id] + Removed(Keys(cache), id) else Keys(cache)
  {
    hide Touch, Find, Removed, NoDup;
    TouchKeys(cache, id);
    FindKeys(cache, id);
    RemovedMembers(Keys(cache), id);
    if id in Keys(cache) { PrependDistinct(id, Removed(Keys(cache), id)); }
    SameMembers(cache, Touch(cache, id));
  }

  lemma {:induction false} SameMembers(cache: Cache, cache': Cache)
    requires forall k :: k in Keys(cache) <==> k in Keys(cache')
    ensures Cached(cache) == Cached(cache')
  {
    hide Keys;
  }

  lemma {:induction false} PutCache(cache: Cache, host: Host, id: PageID)
    requires Coherent(cache, host)
    ensures Coherent(Put(cache, CACHE_SIZE, id, HostPage(host, id)), host)
    ensures id !in Cached(cache) ==> Keys(Put(cache, CACHE_SIZE, id, HostPage(host, id))) == Front([id] + Keys(cache))
  {
    PutKeys(cache, CACHE_SIZE, id, HostPage(host, id));
    RemovedMembers(Keys(cache), id);
    PrependDistinct(id, Removed(Keys(cache), id));
  }

  /** The part of the range still to be read from the host, as the two cuts leave it. */
  function ReadStart(s: Span, p: nat): nat { if p == s.First() then s.index else p * PAGE }

  function ReadEnd(s: Span, m: nat): nat
  { if m == s.Last() + 1 then s.index + s.len else m * PAGE }

  /** Pages before `j` are done; the rest of the buffer is as the host read left it. */
  ghost predicate Filling(s: Span, host: Host, known: set<PageID>, before: seq<Byte>, p: nat, m: nat, j: nat, now: seq<Byte>)
    requires s.len > 0
  {
    && |before| == s.len && |now| == s.len
    && forall i | 0 <= i < s.len ::
         now[i] == if (s.index + i) / PAGE < j then ReadByte(s, host, known, before, i)
                   else if ReadStart(s, p) <= s.index + i < ReadEnd(s, m) then host(s.slot, s.index + i)
                   else before[i]
  }

  /** The bytes of page `j` in the range. */
  function CopyStart(s: Span, j: nat): nat { if s.index > j * PAGE then s.index else j * PAGE }

  function CopyEnd(s: Span, j: nat): nat { Min(s.index + s.len, (j + 1) * PAGE) }

  /** `now'` is `now` with page `j` copied in. */
  ghost predicate Copied(s: Span, j: nat, page: Page, now: seq<Byte>, now': seq<Byte>) {
    && |now| == |now'| == s.len
    && forall i | 0 <= i < s.len ::
         now'[i] == if CopyStart(s, j) <= s.index + i < CopyEnd(s, j) then page[(s.index + i) % PAGE] else now[i]
  }

  lemma {:induction false} OffsetInPage(j: nat, a: nat)
    requires j * PAGE <= a < (j + 1) * PAGE
    ensures a % PAGE == a - j * PAGE
  {
  }

  lemma {:induction false} OnPage(s: Span, j: nat, a: nat)
    requires s.index <= a < s.index + s.len
    ensures CopyStart(s, j) <= a < CopyEnd(s, j) <==> a / PAGE == j
  {
  }

  /** A page found is copied: its bytes are the flat view's. */
  lemma {:induction false} FilledByCopy(s: Span, host: Host, known: set<PageID>, before: seq<Byte>, p: nat, m: nat, j: nat, page: Page, now: seq<Byte>, now': seq<Byte>)
    requires s.len > 0 && Filling(s, host, known, before, p, m, j, now) && Copied(s, j, page, now, now')
    requires !Lost(s, known, j) && page == if s.Id(j) in s.pages then s.pages[s.Id(j)] else HostPage(host, s.Id(j))
    ensures Filling(s, host, known, before, p, m, j + 1, now')
  {
    hide Lost;
    forall i | 0 <= i < s.len
      ensures now'[i] == if (s.index + i) / PAGE < j + 1 then ReadByte(s, host, known, before, i)
                         else if ReadStart(s, p) <= s.index + i < ReadEnd(s, m) then host(s.slot, s.index + i) else before[i]
    {
      OnPage(s, j, s.index + i);
      if (s.index + i) / PAGE == j { PageByte(host, s.Id(j), s.index + i); }
    }
  }

  lemma {:induction false} PageByte(host: Host, id: PageID, a: nat)
    requires a / PAGE == id.index
    ensures HostPage(host, id)[a % PAGE] == host(id.slot, a)
  {
    assert id.index * PAGE + a % PAGE == a;
  }

  /** A page that is not found was read from the host, or is lost. */
  lemma {:induction false} FilledByHost(s: Span, host: Host, known: set<PageID>, before: seq<Byte>, p: nat, m: nat, j: nat, now: seq<Byte>)
    requires s.len > 0 && Filling(s, host, known, before, p, m, j, now) && s.Free(j)
    requires if j < m then p <= j && !Lost(s, known, j) else Lost(s, known, j)
    requires s.First() <= p && s.First() <= m <= s.Last() + 1 && s.First() <= j <= s.Last()
    ensures Filling(s, host, known, before, p, m, j + 1, now)
  {
    hide Lost;
    forall i | 0 <= i < s.len && (s.index + i) / PAGE == j ensures now[i] == ReadByte(s, host, known, before, i) {
      HostRange(s, p, m, j, s.index + i);
    }
  }

  lemma {:induction false} HostRange(s: Span, p: nat, m: nat, j: nat, a: nat)
    requires s.len > 0 && s.index <= a < s.index + s.len && a / PAGE == j
    requires s.First() <= p && s.First() <= m <= s.Last() + 1
    ensures p <= j < m ==> ReadStart(s, p) <= a < ReadEnd(s, m)
    ensures j >= m ==> a >= ReadEnd(s, m)
  {
  }

  lemma {:induction false} AllFilled(s: Span, host: Host, known: set<PageID>, before: seq<Byte>, p: nat, m: nat, now: seq<Byte>)
    requires s.len > 0 && Filling(s, host, known, before, p, m, s.Last() + 1, now)
    ensures now == ReadBytes(s, host, known, before)
  {
    forall i | 0 <= i < s.len ensures now[i] == ReadByte(s, host, known, before, i) {
      BelowLast(s, i);
    }
  }

  lemma {:induction false} BelowLast(s: Span, i: nat)
    requires i < s.len
    ensures s.First() <= (s.index + i) / PAGE <= s.Last()
  {
  }

  /** A page not found before the suffix lies whole in the part read from the host exactly when it lies whole in the range. */
  lemma {:induction false} WholeRead(s: Span, p: nat, m: nat, j: nat)
    requires s.len > 0 && s.First() <= p && s.First() <= m <= s.Last() + 1
    ensures p <= j < m ==> (s.Whole(j) <==> ReadStart(s, p) <= j * PAGE && (j + 1) * PAGE <= ReadEnd(s, m))
    ensures j >= m && j <= s.Last() && (m > s.First() || p > s.Last()) ==> !(ReadStart(s, p) <= j * PAGE && (j + 1) * PAGE <= ReadEnd(s, m))
  {
  }

  // --- one page of the copying loop ---

  /** What the two cuts found: known pages up to `p`, and from `m` on. */
  ghost predicate Cuts(s: Span, known: set<PageID>, p: nat, m: nat)
    requires s.len > 0
  {
    && s.First() <= p <= s.Last() + 1 && m == SuffixStart(s, known, s.Last() + 1)
    && (forall j | s.First() <= j < p :: s.Known(known, j))
    && (p <= s.Last() ==> !s.Known(known, p))
  }

  datatype Segments = Segments(passed: seq<PageID>, kept: seq<PageID>, others: seq<PageID>)

  ghost predicate InSweep(s: Span, host: Host, known: set<PageID>, cache: Cache, staged: Cache, p: nat, m: nat, j: nat, parts: Segments)
    requires s.len > 0
  {
    && Cuts(s, known, p, m) && s.First() <= j && Coherent(cache, host) && (forall e | e in staged :: e.value == HostPage(host, e.key))
    && (j <= p ==> staged == [])
    && (j <= m ==> Sweep(s, known, Keys(cache), m, j, |staged|, parts.passed, parts.kept, parts.others))
    && (j >= m ==> Tail(s, known, Keys(cache), m))
  }

  lemma {:induction false} AfterSweep(s: Span, host: Host, known: set<PageID>, cache: Cache, staged: Cache, p: nat, m: nat, j: nat, parts: Segments)
    requires s.len > 0 && Cuts(s, known, p, m) && s.First() <= j && Coherent(cache, host) && (forall e | e in staged :: e.value == HostPage(host, e.key))
    requires (j <= p ==> staged == []) && j <= m
    requires Sweep(s, known, Keys(cache), m, j, |staged|, parts.passed, parts.kept, parts.others)
    ensures InSweep(s, host, known, cache, staged, p, m, j, parts)
  {
    hide Sweep, Tail, SuffixStart;
    if j == m { SweepEnd(s, known, Keys(cache), m, |staged|, parts.passed, parts.kept, parts.others); }
  }

  lemma {:induction false} VisitOverridden(s: Span, host: Host, known: set<PageID>, cache: Cache, staged: Cache, p: nat, m: nat, j: nat, parts: Segments)
    requires s.len > 0 && j <= s.Last() && InSweep(s, host, known, cache, staged, p, m, j, parts) && !s.Free(j)
    ensures InSweep(s, host, known, cache, staged, p, m, j + 1, parts) && !Lost(s, known, j)
  {
    hide Sweep, Tail, SuffixStart;
    if j < m {
      SweepSkip(s, known, Keys(cache), m, j, |staged|, parts.passed, parts.kept, parts.others);
      AfterSweep(s, host, known, cache, staged, p, m, j + 1, parts);
    }
  }

  lemma {:induction false} VisitCached(s: Span, host: Host, known: set<PageID>, cache: Cache, staged: Cache, p: nat, m: nat, j: nat, parts: Segments) returns (parts': Segments)
    requires s.len > 0 && j <= s.Last() && InSweep(s, host, known, cache, staged, p, m, j, parts) && s.Free(j) && s.Id(j) in Keys(cache)
    ensures InSweep(s, host, known, Touch(cache, s.Id(j)), staged, p, m, j + 1, parts') && !Lost(s, known, j)
  {
    hide Sweep, Tail, SuffixStart, Coherent, Touch, Keys, Cached, Lost, Removed, FreePages;
    var id, cache' := s.Id(j), Touch(cache, s.Id(j));
    TouchedFront(cache, host, id);
    parts' := Segments([id] + parts.passed, parts.kept, Removed(parts.others, id));
    if j < m {
      SweepHit(s, known, Keys(cache), m, j, |staged|, parts.passed, parts.kept, parts.others);
      AfterSweep(s, host, known, cache', staged, p, m, j + 1, parts');
      NotLostBefore(s, known, m, j);
    } else {
      TailTouched(s, known, Keys(cache), Keys(cache'), m);
      CachedNotLost(s, known, Keys(cache), m, j);
    }
  }

  lemma {:induction false} NotLostBefore(s: Span, known: set<PageID>, m: nat, j: nat)
    requires s.len > 0 && m == SuffixStart(s, known, s.Last() + 1) && j < m
    ensures !Lost(s, known, j)
  {
  }

  lemma {:induction false} CachedNotLost(s: Span, known: set<PageID>, keys: seq<PageID>, m: nat, j: nat)
    requires s.len > 0 && Tail(s, known, keys, m) && m <= j <= s.Last() && s.Free(j)
    ensures s.Id(j) in keys <==> !Lost(s, known, j)
  {
  }

  lemma {:induction false} TouchedFront(cache: Cache, host: Host, id: PageID)
    requires Coherent(cache, host) && id in Keys(cache)
    ensures Coherent(Touch(cache, id), host) && Keys(Touch(cache, id)) == [id] + Removed(Keys(cache), id)
    ensures forall k :: k in Keys(cache) <==> k in Keys(Touch(cache, id))
  {
    TouchedCache(cache, host, id);
    hide Coherent, Touch, Keys, Removed;
    CachedKeys(cache);
    CachedKeys(Touch(cache, id));
  }

  /** A page that is missing before the suffix was not known, and is staged, inserted, or only partly in the range. */
  lemma {:induction false} MissingUnknown(s: Span, host: Host, known: set<PageID>, cache: Cache, staged: Cache, p: nat, m: nat, j: nat, parts: Segments)
    requires s.len > 0 && j <= s.Last() && InSweep(s, host, known, cache, staged, p, m, j, parts) && s.Free(j) && s.Id(j) !in Keys(cache) && j < m
    ensures p <= j && (!s.Whole(j) ==> s.Id(j) !in known)
  {
    var wasKnown := s.Known(known, j);
    if !s.Whole(j) && j != s.First() { OnlyLast(s, j); }
  }

  lemma {:induction false} OnlyLast(s: Span, j: nat)
    requires s.len > 0 && s.First() < j <= s.Last() && !s.Whole(j)
    ensures j == s.Last()
  {
  }

  lemma {:induction false} VisitMissing(s: Span, host: Host, known: set<PageID>, cache: Cache, staged: Cache, p: nat, m: nat, j: nat, parts: Segments) returns (parts': Segments)
    requires s.len > 0 && j <= s.Last() && InSweep(s, host, known, cache, staged, p, m, j, parts) && s.Free(j) && s.Id(j) !in Keys(cache) && j < m
    ensures p <= j && !Lost(s, known, j)
    ensures var e := Entry(s.Id(j), HostPage(host, s.Id(j)));
            if !s.Whole(j) then InSweep(s, host, known, cache, staged, p, m, j + 1, parts')
            else if |staged| < STAGING then InSweep(s, host, known, cache, staged + [e], p, m, j + 1, parts')
            else InSweep(s, host, known, Put(cache, CACHE_SIZE, e.key, e.value), staged, p, m, j + 1, parts')
  {
    MissingUnknown(s, host, known, cache, staged, p, m, j, parts);
    StagedCount(s, known, Keys(cache), m, j, |staged|, parts);
    hide Sweep, Tail, SuffixStart, Coherent, Put, Keys, Front, Cached, Lost;
    NotLostBefore(s, known, m, j);
    parts' := parts;
    if !s.Whole(j) {
      SweepSkip(s, known, Keys(cache), m, j, |staged|, parts.passed, parts.kept, parts.others);
      AfterSweep(s, host, known, cache, staged, p, m, j + 1, parts');
    } else if |staged| < STAGING {
      SweepStage(s, known, Keys(cache), m, j, |staged|, parts.passed, parts.kept, parts.others);
      AfterSweep(s, host, known, cache, staged + [Entry(s.Id(j), HostPage(host, s.Id(j)))], p, m, j + 1, parts');
    } else {
      var cache' := Put(cache, CACHE_SIZE, s.Id(j), HostPage(host, s.Id(j)));
      CachedKeys(cache);
      PutCache(cache, host, s.Id(j));
      var a, b, c := SweepInsert(s, known, Keys(cache), m, j, parts.passed, parts.kept, parts.others);
      parts' := Segments(a, b, c);
      AfterSweep(s, host, known, cache', staged, p, m, j + 1, parts');
    }
  }

  lemma {:induction false} StagedCount(s: Span, known: set<PageID>, keys: seq<PageID>, m: nat, j: nat, staged: nat, parts: Segments)
    requires s.len > 0 && Sweep(s, known, keys, m, j, staged, parts.passed, parts.kept, parts.others)
    ensures staged <= STAGING
  {
  }

  lemma {:induction false} VisitLost(s: Span, host: Host, known: set<PageID>, cache: Cache, staged: Cache, p: nat, m: nat, j: nat, parts: Segments)
    requires s.len > 0 && j <= s.Last() && InSweep(s, host, known, cache, staged, p, m, j, parts) && s.Free(j) && s.Id(j) !in Keys(cache) && j >= m
    ensures InSweep(s, host, known, cache, staged, p, m, j + 1, parts) && Lost(s, known, j)
    ensures m > s.First() || p > s.Last()
  {
    var wasKnown := s.Known(known, p);
  }

  lemma {:induction false} CutNothing(s: Span, cache: Cache, host: Host)
    requires s.len > 0 && Coherent(cache, host)
    ensures CutDown(s, Cached(cache), Keys(cache), s.Last() + 1)
  {
  }

  lemma {:induction false} SweepReady(s: Span, host: Host, known: set<PageID>, cache: Cache, p: nat, m: nat) returns (parts: Segments)
    requires s.len > 0 && Coherent(cache, host) && Cuts(s, known, p, m) && CutDown(s, known, Keys(cache), m)
    ensures InSweep(s, host, known, cache, [], p, m, s.First(), parts)
  {
    hide FreePages, SuffixStart, Sweep, Tail, NoDup;
    SweepStart(s, known, Keys(cache), m);
    var n := |FreePages(s, m, s.Last() + 1)|;
    parts := Segments([], Keys(cache)[..n], Keys(cache)[n..]);
    AfterSweep(s, host, known, cache, [], p, m, s.First(), parts);
  }

  /** A whole page read from the host, extracted from the buffer. */
  lemma {:induction false} PageRead(s: Span, host: Host, known: set<PageID>, before: seq<Byte>, p: nat, m: nat, j: nat, now: seq<Byte>)
    requires s.len > 0 && Filling(s, host, known, before, p, m, j, now)
    requires s.index <= j * PAGE && (j + 1) * PAGE <= s.index + s.len && ReadStart(s, p) <= j * PAGE && (j + 1) * PAGE <= ReadEnd(s, m)
    ensures now[j * PAGE - s.index..(j + 1) * PAGE - s.index] == HostPage(host, s.Id(j))
  {
    var from := j * PAGE - s.index;
    var page := now[from..from + PAGE];
    forall k | 0 <= k < PAGE ensures page[k] == HostPage(host, s.Id(j))[k] {
      assert page[k] == now[from + k] && s.index + (from + k) == j * PAGE + k;
    }
    assert from + PAGE == (j + 1) * PAGE - s.index;
  }

  lemma {:induction false} Unstaged(cache: Cache, host: Host, staged: Cache, i: nat)
    requires Coherent(cache, host) && (forall e | e in staged :: e.value == HostPage(host, e.key)) && i < |staged|
    ensures Coherent(Put(cache, CACHE_SIZE, staged[i].key, staged[i].value), host)
  {
    hide Coherent, Put;
    assert staged[i] in staged;
    PutCache(cache, host, staged[i].key);
  }

  lemma {:induction false} SweepFacts(s: Span, host: Host, known: set<PageID>, cache: Cache, staged: Cache, p: nat, m: nat, j: nat, parts: Segments)
    requires s.len > 0 && InSweep(s, host, known, cache, staged, p, m, j, parts)
    ensures Coherent(cache, host) && (forall e | e in staged :: e.value == HostPage(host, e.key))
    ensures s.First() <= p <= s.Last() + 1 && s.First() <= m <= s.Last() + 1
    ensures forall id :: Find(cache, id).Some? ==> id in Keys(cache) && Find(cache, id).value == HostPage(host, id)
    ensures forall id :: Find(cache, id).None? ==> id !in Keys(cache)
  {
    hide Sweep, Tail;
    forall id ensures Find(cache, id).Some? <==> id in Keys(cache) { FindKeys(cache, id); }
    forall id | Find(cache, id).Some? ensures Find(cache, id).value == HostPage(host, id) { FindKeys(cache, id); }
  }

  ghost predicate Progress(s: Span, host: Host, known: set<PageID>, before: seq<Byte>, cache: Cache, staged: Cache, p: nat, m: nat, j: nat, parts: Segments, now: seq<Byte>) {
    s.len > 0 && InSweep(s, host, known, cache, staged, p, m, j, parts) && Filling(s, host, known, before, p, m, j, now)
  }

  /** The cache after a page was looked for. */
  function Looked(cache: Cache, pages: Pages, id: PageID): Cache {
    if id in pages then cache else Touch(cache, id)
  }

  predicate IsKnown(cache: Cache, pages: Pages, id: PageID) {
    id in pages || Find(cache, id).Some?
  }

  /** The prefix found so far. */
  ghost predicate PrefixCut(s: Span, host: Host, cache: Cache, known: set<PageID>, p: nat) {
    && s.len > 0 && s.First() <= p <= s.Last() + 1 && Coherent(cache, host) && Cached(cache) == known
    && forall j | s.First() <= j < p :: s.Known(known, j)
  }

  lemma {:induction false} PrefixNext(s: Span, host: Host, cache: Cache, known: set<PageID>, p: nat)
    requires PrefixCut(s, host, cache, known, p) && p <= s.Last()
    ensures IsKnown(cache, s.pages, s.Id(p)) <==> s.Known(known, p)
    ensures PrefixCut(s, host, Looked(cache, s.pages, s.Id(p)), known, if IsKnown(cache, s.pages, s.Id(p)) then p + 1 else p)
  {
    hide Coherent, Cached, Touch, Find, Keys, Removed, HostPage;
    TouchedCache(cache, host, s.Id(p));
  }

  /** The suffix found so far. */
  ghost predicate SuffixCut(s: Span, host: Host, cache: Cache, known: set<PageID>, m: nat) {
    && s.len > 0 && s.First() <= m <= s.Last() + 1 && Coherent(cache, host) && Cached(cache) == known
    && CutDown(s, known, Keys(cache), m) && forall j | m <= j <= s.Last() :: s.Known(known, j)
  }

  lemma {:induction false} SuffixFirst(s: Span, host: Host, cache: Cache)
    requires s.len > 0 && Coherent(cache, host)
    ensures SuffixCut(s, host, cache, Cached(cache), s.Last() + 1)
  {
    CutNothing(s, cache, host);
    hide Coherent, Cached, CutDown;
  }

  lemma {:induction false} SuffixNext(s: Span, host: Host, cache: Cache, known: set<PageID>, m: nat)
    requires SuffixCut(s, host, cache, known, m) && s.First() < m
    ensures IsKnown(cache, s.pages, s.Id(m - 1)) <==> s.Known(known, m - 1)
    ensures SuffixCut(s, host, Looked(cache, s.pages, s.Id(m - 1)), known, if IsKnown(cache, s.pages, s.Id(m - 1)) then m - 1 else m)
  {
    hide Coherent, Cached, CutDown, Removed, Touch, Find, Keys, HostPage;
    TouchedCache(cache, host, s.Id(m - 1));
    if s.Known(known, m - 1) { CutStep(s, known, Keys(cache), m); }
  }

  lemma {:induction false} SuffixDone(s: Span, host: Host, cache: Cache, known: set<PageID>, m: nat)
    requires SuffixCut(s, host, cache, known, m) && (m > s.First() ==> !s.Known(known, m - 1))
    ensures m == SuffixStart(s, known, s.Last() + 1) && CutDown(s, known, Keys(cache), m) && Coherent(cache, host) && Cached(cache) == known
  {
    hide CutDown, Coherent, Cached;
    SuffixUnique(s, known, s.Last() + 1, m);
  }

  lemma {:induction false} CopyReady(s: Span, host: Host, known: set<PageID>, before: seq<Byte>, cache: Cache, p: nat, m: nat, now: seq<Byte>) returns (parts: Segments)
    requires s.len > 0 && Coherent(cache, host) && Cuts(s, known, p, m) && CutDown(s, known, Keys(cache), m)
    requires Filling(s, host, known, before, p, m, s.First(), now)
    ensures Progress(s, host, known, before, cache, [], p, m, s.First(), parts, now)
  {
    hide Coherent, Cuts, CutDown, Filling, InSweep;
    parts := SweepReady(s, host, known, cache, p, m);
  }

  lemma {:induction false} CopyDone(s: Span, host: Host, known: set<PageID>, before: seq<Byte>, cache: Cache, staged: Cache, p: nat, m: nat, j: nat, parts: Segments, now: seq<Byte>)
    requires s.len > 0 && j == s.Last() + 1 && Progress(s, host, known, before, cache, staged, p, m, j, parts, now)
    ensures now == ReadBytes(s, host, known, before)
    ensures Coherent(cache, host) && (forall e | e in staged :: e.value == HostPage(host, e.key))
  {
    hide Coherent, Cuts, Filling, ReadBytes, Sweep, Tail;
    AllFilled(s, host, known, before, p, m, now);
  }

  // --- which pages are cached afterwards ---

  /** The pages before `j` that lie whole in the range and are not overridden. */
  ghost function WholePages(s: Span, j: nat): set<PageID> {
    set k | s.First() <= k < j && s.Free(k) && s.Whole(k) :: s.Id(k)
  }

  lemma {:induction false} WholeMembers(s: Span, j: nat, id: PageID)
    ensures id in WholePages(s, j) <==> id.slot == s.slot && s.First() <= id.index < j && s.Free(id.index) && s.Whole(id.index)
  {
    if id.slot == s.slot { assert id == s.Id(id.index); }
  }

  /** Only pages known before and whole pages of the range are cached or staged; all of those before `j` are when the cache
      holds them all. */
  ghost predicate Holds(s: Span, known: set<PageID>, cache: Cache, staged: Cache, j: nat)
    requires s.len > 0
  {
    var all, most := Cached(cache) + Cached(staged), known + WholePages(s, s.Last() + 1);
    all <= most && (|most| <= CACHE_SIZE ==> all == known + WholePages(s, j))
  }

  lemma {:induction false} HoldsStart(s: Span, cache: Cache)
    requires s.len > 0
    ensures Holds(s, Cached(cache), cache, [], s.First())
  {
    assert Cached([]) == {};
  }

  /** Page `j` was looked up, or is not kept. */
  lemma {:induction false} HoldsSame(s: Span, known: set<PageID>, cache: Cache, cache': Cache, staged: Cache, j: nat)
    requires s.len > 0 && Holds(s, known, cache, staged, j) && Cached(cache') == Cached(cache)
    requires s.Free(j) && s.Whole(j) && s.First() <= j ==> s.Id(j) in known || s.Id(j) in Cached(cache)
    ensures Holds(s, known, cache', staged, j + 1)
  {
    hide Cached;
    WholeNext(s, j);
  }

  lemma {:induction false} WholeNext(s: Span, j: nat)
    ensures WholePages(s, j + 1) == if s.First() <= j && s.Free(j) && s.Whole(j) then WholePages(s, j) + {s.Id(j)} else WholePages(s, j)
  {
  }

  /** Page `j` was read whole and is staged. */
  lemma {:induction false} HoldsStaged(s: Span, known: set<PageID>, cache: Cache, staged: Cache, j: nat, page: Page)
    requires s.len > 0 && Holds(s, known, cache, staged, j) && s.First() <= j <= s.Last() && s.Free(j) && s.Whole(j)
    ensures Holds(s, known, cache, staged + [Entry(s.Id(j), page)], j + 1)
  {
    WholeNext(s, j);
    WholeMembers(s, s.Last() + 1, s.Id(j));
    AppendedKeys(staged, Entry(s.Id(j), page));
    hide Cached, WholePages;
  }

  lemma {:induction false} AppendedKeys(cache: Cache, e: Entry<PageID, Page>)
    ensures Cached(cache + [e]) == Cached(cache) + {e.key}
  {
    assert Keys(cache + [e]) == Keys(cache) + [e.key];
  }

  /** Page `j` was read whole and is inserted. */
  lemma {:induction false} HoldsPut(s: Span, host: Host, known: set<PageID>, cache: Cache, staged: Cache, j: nat, page: Page)
    requires s.len > 0 && Holds(s, known, cache, staged, j) && s.First() <= j <= s.Last() && s.Free(j) && s.Whole(j) && Coherent(cache, host)
    ensures Holds(s, known, Put(cache, CACHE_SIZE, s.Id(j), page), staged, j + 1)
  {
    var id := s.Id(j);
    WholeNext(s, j);
    WholeMembers(s, s.Last() + 1, id);
    PutCached(cache, host, id, page);
    hide Cached, WholePages, Put, Coherent;
    var most := known + WholePages(s, s.Last() + 1);
    if |most| <= CACHE_SIZE { SubsetSize(Cached(cache) + {id}, most); }
  }

  /** Inserting drops nothing as long as there is room. */
  lemma {:induction false} PutCached(cache: Cache, host: Host, id: PageID, page: Page)
    requires Coherent(cache, host)
    ensures Cached(Put(cache, CACHE_SIZE, id, page)) <= Cached(cache) + {id}
    ensures |Cached(cache) + {id}| <= CACHE_SIZE ==> Cached(Put(cache, CACHE_SIZE, id, page)) == Cached(cache) + {id}
  {
    PutKeys(cache, CACHE_SIZE, id, page);
    RemovedMembers(Keys(cache), id);
    var all := [id] + Removed(Keys(cache), id);
    PrependDistinct(id, Removed(Keys(cache), id));
    hide Put, Removed;
    assert Members(all) == Cached(cache) + {id};
    MembersCount(all);
  }

  /** The first `i` staged pages have been inserted. */
  ghost predicate Unstaging(known: set<PageID>, cache: Cache, staged: Cache, i: nat) {
    i <= |staged| && Cached(cache) <= known + Cached(staged) && (|known + Cached(staged)| <= CACHE_SIZE ==> Cached(cache) == known + Cached(staged[..i]))
  }

  lemma {:induction false} UnstagingNext(known: set<PageID>, cache: Cache, host: Host, staged: Cache, i: nat)
    requires Unstaging(known, cache, staged, i) && i < |staged| && Coherent(cache, host)
    ensures Unstaging(known, Put(cache, CACHE_SIZE, staged[i].key, staged[i].value), staged, i + 1)
  {
    var id := staged[i].key;
    PutCached(cache, host, id, staged[i].value);
    assert staged[..i + 1] == staged[..i] + [staged[i]];
    AppendedKeys(staged[..i], staged[i]);
    assert Keys(staged)[i] == id;
    PrefixCached(staged, i + 1);
    hide Put, Coherent, Keys;
    if |known + Cached(staged)| <= CACHE_SIZE { SubsetSize(Cached(cache) + {id}, known + Cached(staged)); }
  }

  lemma {:induction false} PrefixCached(cache: Cache, i: nat)
    requires i <= |cache|
    ensures Cached(cache[..i]) <= Cached(cache)
  {
    assert Keys(cache[..i]) == Keys(cache)[..i];
  }

  lemma {:induction false} UnstagingStart(cache: Cache, staged: Cache)
    ensures Unstaging(Cached(cache), cache, staged, 0)
  {
    assert staged[..0] == [] && Cached([]) == {};
  }

  /** After the last page, with the staged pages inserted. */
  lemma {:induction false} HoldsDone(s: Span, known: set<PageID>, cache: Cache, cache': Cache, staged: Cache, j: nat)
    requires s.len > 0 && j == s.Last() + 1 && Holds(s, known, cache, staged, j) && Unstaging(Cached(cache), cache', staged, |staged|)
    ensures var most := known + WholePages(s, j);
            Cached(cache') <= most && (|most| <= CACHE_SIZE ==> Cached(cache') == most)
  {
    hide Cached, WholePages;
    assert staged[..|staged|] == staged;
  }

  /** A page found and looked up. */
  lemma {:induction false} HoldsHit(s: Span, host: Host, known: set<PageID>, cache: Cache, staged: Cache, j: nat)
    requires s.len > 0 && Holds(s, known, cache, staged, j) && Coherent(cache, host) && s.Id(j) in Keys(cache)
    ensures Holds(s, known, Touch(cache, s.Id(j)), staged, j + 1)
  {
    TouchedCache(cache, host, s.Id(j));
    CachedKeys(cache);
    hide Cached, Keys, Touch, Coherent, Removed, WholePages;
    HoldsSame(s, known, cache, Touch(cache, s.Id(j)), staged, j);
  }

  lemma {:induction false} SuffixKnown(s: Span, host: Host, known: set<PageID>, cache: Cache, staged: Cache, p: nat, m: nat, j: nat, parts: Segments)
    requires s.len > 0 && m <= j <= s.Last() && InSweep(s, host, known, cache, staged, p, m, j, parts) && s.Free(j)
    ensures s.Id(j) in known
  {
    hide Sweep, Tail, Coherent;
    assert s.Known(known, j);
  }

  // --- what a read has before the copying loop ---

  lemma {:induction false} CutPrefixKnown(s: Span, host: Host, cache: Cache, known: set<PageID>, p: nat)
    requires PrefixCut(s, host, cache, known, p) && (p <= s.Last() ==> !s.Known(known, p))
    ensures Coherent(cache, host) && Cached(cache) == known && s.First() <= p <= s.Last() + 1
    ensures forall j | s.First() <= j < p :: s.Known(known, j)
  {
  }

  lemma {:induction false} CutBoth(s: Span, known: set<PageID>, p: nat, m: nat)
    requires s.len > 0 && s.First() <= p <= s.Last() + 1 && m == SuffixStart(s, known, s.Last() + 1)
    requires (forall j | s.First() <= j < p :: s.Known(known, j)) && (p <= s.Last() ==> !s.Known(known, p))
    ensures Cuts(s, known, p, m)
  {
  }

  lemma {:induction false} ReadRange(s: Span, known: set<PageID>, p: nat, m: nat)
    requires s.len > 0 && Cuts(s, known, p, m)
    ensures s.index <= ReadStart(s, p) && (ReadStart(s, p) < ReadEnd(s, m) ==> ReadEnd(s, m) <= s.index + s.len)
  {
    hide SuffixStart;
  }

  lemma {:induction false} HostRead(s: Span, host: Host, known: set<PageID>, before: seq<Byte>, p: nat, m: nat, now: seq<Byte>)
    requires s.len > 0 && |before| == s.len && |now| == s.len
    requires forall i | 0 <= i < s.len ::
      now[i] == if ReadStart(s, p) <= s.index + i < ReadEnd(s, m) then host(s.slot, s.index + i) else before[i]
    ensures Filling(s, host, known, before, p, m, s.First(), now)
  {
    hide ReadStart, ReadEnd, Lost;
  }

  lemma {:induction false} OnePageRead(slot: nat, j: nat)
    ensures var s := Span(map[], slot, j * PAGE, PAGE); s.Last() == j && WholePages(s, s.Last() + 1) == {PageID(slot, j)}
  {
    var s := Span(map[], slot, j * PAGE, PAGE);
    assert s.First() == j && s.Last() == j;
    WholeNext(s, j);
    assert WholePages(s, j) == {};
  }
}
