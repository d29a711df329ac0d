/**
 Setting up physical memory: from the boot frames to a small early cache and a big cache per node.

 Caches are values here once they are set up. The page that holds a node's big cache itself is
 called its backing page.
 */
module GlobalMemory {
  import opened Frames
  import opened MCacheModule

  const EMEM_SIZE: nat := 2 * LARGE_PAGE_SIZE + 64 * BASE_PAGE_SIZE
  const MAX_NUMA_NODES: nat := 12
  const TCACHE_BASE: nat := 381
  const TCACHE_LARGE: nat := 128
  const NCACHE_BASE: nat := 131071
  const NCACHE_LARGE: nat := 131070

  datatype Cache = Cache(node: nat, base: seq<nat>, large: seq<nat>)

  /** Assertions may fail; but no early cache is ever without the large page it has to give. */
  datatype Boot = Failure | Ready(emem: seq<Cache>, ncaches: seq<Cache>, backing: seq<Frame>)

  ghost function Stock(c: Cache): multiset<Frame> {
    Pages(c.base, BASE_PAGE_SIZE, c.node) + Pages(c.large, LARGE_PAGE_SIZE, c.node)
  }

  ghost function StockAll(cs: seq<Cache>): multiset<Frame> {
    if cs == [] then multiset{} else StockAll(cs[..|cs| - 1]) + Stock(cs[|cs| - 1])
  }

  /** The cache of node `i` is at position `i`, and holds aligned pages only, within its capacity. */
  ghost predicate Proper(cs: seq<Cache>, baseCapacity: nat, largeCapacity: nat) {
    forall i :: 0 <= i < |cs| ==>
      && cs[i].node == i && |cs[i].base| <= baseCapacity && |cs[i].large| <= largeCapacity
      && Aligned(cs[i].base, BASE_PAGE_SIZE) && Aligned(cs[i].large, LARGE_PAGE_SIZE)
  }

  lemma StockPush(cs: seq<Cache>, c: Cache)
    ensures StockAll(cs + [c]) == StockAll(cs) + Stock(c)
  {
    assert (cs + [c])[..|cs|] == cs;
  }

  lemma {:induction false} StockUpdate(cs: seq<Cache>, i: nat, c: Cache)
    requires i < |cs|
    ensures StockAll(cs[i := c]) + Stock(cs[i]) == StockAll(cs) + Stock(c)
    decreases |cs|
  {
    hide Stock;
    var n := |cs| - 1;
    var cs' := cs[i := c];
    if i == n {
      assert cs'[..n] == cs[..n];
    } else {
      var rest := cs[..n];
      StockUpdate(rest, i, c);
      assert cs'[..n] == rest[i := c] && rest[i] == cs[i];
      AddBoth(StockAll(rest[i := c]), StockAll(rest), Stock(cs[n]), Stock(cs[i]), Stock(c));
    }
  }

  ghost predicate AllPaged(frames: seq<Frame>) {
    forall i :: 0 <= i < |frames| ==> Paged(frames[i])
  }

  lemma Replaced(frames: seq<Frame>, i: nat, f: Frame)
    requires i < |frames|
    ensures multiset(frames[i := f]) + multiset{frames[i]} == multiset(frames) + multiset{f}
  {
  }

  /** Cutting the early memory out of a frame leaves three pieces: below, the early memory, and above. */
  lemma Cut(f: Frame, low: Frame, high: Frame, emem: Frame, left: Frame)
    requires Parts(f, low, high) && Parts(high, emem, left)
    ensures Apart(multiset{low, left} + multiset{emem}) && Inside(multiset{low, left} + multiset{emem}, f)
  {
  }

  // ----- how much memory there is

  /** The bytes of node `a` in the first `i` frames. */
  function NodeSize(frames: seq<Frame>, a: nat, i: nat): nat
    requires i <= |frames|
  {
    if i == 0 then 0 else NodeSize(frames, a, i - 1) + if frames[i - 1].affinity == a then frames[i - 1].size else 0
  }

  /** The base and the large pages that the first `i` frames give to the big cache of node `a`. */
  function BaseTotal(frames: seq<Frame>, a: nat, i: nat): nat
    requires AllPaged(frames) && i <= |frames|
  {
    if i == 0 then 0
    else
      var f := frames[i - 1];
      BaseTotal(frames, a, i - 1) + if f.affinity == a then BasePages(f, MostlyLarge(f)) else 0
  }

  function LargeTotal(frames: seq<Frame>, a: nat, i: nat): nat
    requires AllPaged(frames) && i <= |frames|
  {
    if i == 0 then 0
    else
      var f := frames[i - 1];
      LargeTotal(frames, a, i - 1) + if f.affinity == a then LargePages(f, MostlyLarge(f)) else 0
  }

  /** Pages account for all bytes. */
  lemma {:induction false} TotalsAreSize(frames: seq<Frame>, a: nat, i: nat)
    requires AllPaged(frames) && i <= |frames|
    ensures BaseTotal(frames, a, i) * BASE_PAGE_SIZE + LargeTotal(frames, a, i) * LARGE_PAGE_SIZE ==
      NodeSize(frames, a, i)
    decreases i
  {
    hide BasePages, LargePages;
    if i > 0 {
      TotalsAreSize(frames, a, i - 1);
      NothingMissing(frames[i - 1], MostlyLarge(frames[i - 1]));
    }
  }

  function SizeHere(f: Frame, a: nat): nat {
    if f.affinity == a then f.size else 0
  }

  lemma {:induction false} NodeSizeUpdate(frames: seq<Frame>, a: nat, k: nat, f: Frame, i: nat)
    requires k < i <= |frames|
    ensures NodeSize(frames[k := f], a, i) + SizeHere(frames[k], a) == NodeSize(frames, a, i) + SizeHere(f, a)
    decreases i
  {
    if k < i - 1 {
      NodeSizeUpdate(frames, a, k, f, i - 1);
    } else {
      NodeSizeKept(frames, frames[k := f], a, k);
    }
  }

  lemma {:induction false} NodeSizeKept(frames: seq<Frame>, frames': seq<Frame>, a: nat, i: nat)
    requires i <= |frames| && i <= |frames'| && frames[..i] == frames'[..i]
    ensures NodeSize(frames, a, i) == NodeSize(frames', a, i)
    decreases i
  {
    if i > 0 {
      assert frames[..i][i - 1] == frames'[..i][i - 1];
      assert frames[..i - 1] == frames[..i][..i - 1] && frames'[..i - 1] == frames'[..i][..i - 1];
      NodeSizeKept(frames, frames', a, i - 1);
    }
  }

  /** What is left of node `a` after its early memory was taken out. */
  ghost predicate Left(boot: seq<Frame>, mem: seq<Frame>, leftovers: seq<Frame>, a: nat, served: nat) {
    var left := NodeSize(mem, a, |mem|) + NodeSize(leftovers, a, |leftovers|);
    left <= NodeSize(boot, a, |boot|) <= left + if a < served then EMEM_SIZE else 0
  }

  lemma LeftStep(boot: seq<Frame>, mem: seq<Frame>, leftovers: seq<Frame>, served: nat, i: nat, low: Frame,
                 left: Frame, a: nat)
    requires Left(boot, mem, leftovers, a, served) && i < |mem| && mem[i].affinity == served
    requires low.size + left.size <= mem[i].size <= low.size + left.size + EMEM_SIZE
    requires (low.size > 0 ==> low.affinity == served) && (left.size > 0 ==> left.affinity == served)
    ensures Left(boot, mem[i := low], if left != empty then leftovers + [left] else leftovers, a, served + 1)
  {
    NodeSizeUpdate(mem, a, i, low, |mem|);
    NodeSizeKept(leftovers, leftovers + [left], a, |leftovers|);
  }

  ghost predicate AllLeft(boot: seq<Frame>, mem: seq<Frame>, leftovers: seq<Frame>, served: nat) {
    forall a: nat :: Left(boot, mem, leftovers, a, served)
  }

  lemma AllLeftStep(boot: seq<Frame>, mem: seq<Frame>, leftovers: seq<Frame>, served: nat, i: nat, low: Frame,
                    left: Frame)
    requires AllLeft(boot, mem, leftovers, served) && i < |mem| && mem[i].affinity == served
    requires low.size + left.size <= mem[i].size <= low.size + left.size + EMEM_SIZE
    requires (low.size > 0 ==> low.affinity == served) && (left.size > 0 ==> left.affinity == served)
    ensures AllLeft(boot, mem[i := low], if left != empty then leftovers + [left] else leftovers, served + 1)
  {
    hide Left;
    var mem', leftovers', served' := mem[i := low], if left != empty then leftovers + [left] else leftovers, served + 1;
    forall a: nat ensures Left(boot, mem', leftovers', a, served') {
      LeftStep(boot, mem, leftovers, served, i, low, left, a);
    }
  }

  // ----- the three phases

  /** How many nodes have found their early memory among the first `i` frames. */
  function Served(boot: seq<Frame>, i: nat): (n: nat)
    requires i <= |boot|
    decreases i, 0
  {
    if i == 0 then 0 else Served(boot, i - 1) + if Chosen(boot, i - 1) then 1 else 0
  }

  /** Frame `i` is the first one large enough for the next node. */
  predicate Chosen(boot: seq<Frame>, i: nat)
    requires i < |boot|
    decreases i, 1
  {
    boot[i].affinity == Served(boot, i) && boot[i].size > EMEM_SIZE
  }

  /** No node's early memory starts at address zero. */
  predicate NoneAtZero(boot: seq<Frame>, i: nat)
    requires i <= |boot|
  {
    forall j :: 0 <= j < i && Chosen(boot, j) ==> boot[j].base != 0
  }

  /** An early cache as it is set up: one large page, and more than 64 base pages. */
  predicate Stocked(c: Cache) {
    |c.large| == 1 && |c.base| > 64
  }

  predicate TopsNonzero(emem: seq<Cache>) {
    forall k :: 0 <= k < |emem| ==> emem[k].large != [] && emem[k].large[|emem[k].large| - 1] != 0
  }

  /** Take the early memory of each node, in the order of the frames, out of the first frame large enough. */
  method EarlyCaches(boot: seq<Frame>) returns (mem: seq<Frame>, leftovers: seq<Frame>, emem: seq<Cache>)
    requires AllPaged(boot) && Apart(multiset(boot))
    ensures AllPaged(mem) && AllPaged(leftovers) && Proper(emem, TCACHE_BASE, TCACHE_LARGE)
    ensures forall i :: 0 <= i < |emem| ==> Stocked(emem[i])
    ensures AllLeft(boot, mem, leftovers, |emem|)
    ensures |emem| == Served(boot, |boot|) && (TopsNonzero(emem) <==> NoneAtZero(boot, |boot|))
    ensures Sound(multiset(mem) + multiset(leftovers) + StockAll(emem), boot)
  {
    hide Sound, Apart, Inside, StockAll, Stock, NoneAtZero, TopsNonzero, AllLeft;
    mem, leftovers, emem := boot, [], [];
    BootSound(boot);
    NoStock();
    NothingYet(boot);
    assert multiset(boot) + multiset(leftovers) + StockAll(emem) == multiset(boot);
    var i := 0;
    while i < |mem|
      invariant 0 <= i <= |mem| == |boot| && AllPaged(mem) && AllPaged(leftovers) &&
        Proper(emem, TCACHE_BASE, TCACHE_LARGE)
      invariant forall k :: i <= k < |mem| ==> mem[k] == boot[k]
      invariant forall k :: 0 <= k < |emem| ==> Stocked(emem[k])
      invariant AllLeft(boot, mem, leftovers, |emem|)
      invariant |emem| == Served(boot, i) && (TopsNonzero(emem) <==> NoneAtZero(boot, i))
      invariant Sound(multiset(mem) + multiset(leftovers) + StockAll(emem), boot)
    {
      if mem[i].affinity == |emem| && mem[i].size > EMEM_SIZE {
        ghost var others := multiset(mem) - multiset{mem[i]} + multiset(leftovers) + StockAll(emem);
        assert mem[i] in multiset(mem) &&
          others + multiset{mem[i]} == multiset(mem) + multiset(leftovers) + StockAll(emem);
        var low, left, c := EarlyCache(mem[i], |emem|, others, boot);
        EarlyStep(mem, i, low, leftovers, left, emem, c, boot);
        TopsPush(emem, c);
        AllLeftStep(boot, mem, leftovers, |emem|, i, low, left);
        mem := mem[i := low];
        if left != empty {
          leftovers := leftovers + [left];
        }
        emem := emem + [c];
      }
      NoneAtZeroNext(boot, i);
      i := i + 1;
    }
  }

  lemma NothingYet(boot: seq<Frame>)
    ensures TopsNonzero([]) && NoneAtZero(boot, 0) && Served(boot, 0) == 0 && AllLeft(boot, boot, [], 0)
  {
  }

  lemma NoneAtZeroNext(boot: seq<Frame>, i: nat)
    requires i < |boot|
    ensures NoneAtZero(boot, i + 1) <==> NoneAtZero(boot, i) && (Chosen(boot, i) ==> boot[i].base != 0)
  {
    hide Chosen;
  }

  lemma TopsPush(emem: seq<Cache>, c: Cache)
    requires c.large != []
    ensures TopsNonzero(emem + [c]) <==> TopsNonzero(emem) && c.large[|c.large| - 1] != 0
  {
    var emem' := emem + [c];
    assert emem'[|emem|] == c && forall k :: 0 <= k < |emem| ==> emem'[k] == emem[k];
  }

  lemma EarlyStep(mem: seq<Frame>, i: nat, low: Frame, leftovers: seq<Frame>, left: Frame, emem: seq<Cache>,
                  c: Cache, boot: seq<Frame>)
    requires i < |mem|
    requires Sound(multiset(mem) - multiset{mem[i]} + multiset(leftovers) + StockAll(emem) +
      (multiset{low, left} + Stock(c)), boot)
    ensures Sound(multiset(mem[i := low]) + multiset(if left != empty then leftovers + [left] else leftovers) +
      StockAll(emem + [c]), boot)
  {
    hide Sound, Stock, StockAll;
    Replaced(mem, i, low);
    StockPush(emem, c);
    var rest, lefts, stock := multiset(mem) - multiset{mem[i]}, multiset(leftovers), StockAll(emem);
    assert multiset(mem[i := low]) == rest + multiset{low};
    Shuffle(rest, lefts, stock, low, left, Stock(c));
    if left == empty {
      SoundPart(rest + multiset{low} + lefts + (stock + Stock(c)), multiset{left}, boot);
    } else {
      assert multiset(leftovers + [left]) == lefts + multiset{left};
    }
  }

  lemma Shuffle(rest: multiset<Frame>, lefts: multiset<Frame>, stock: multiset<Frame>, low: Frame, left: Frame,
                c: multiset<Frame>)
    ensures rest + lefts + stock + (multiset{low, left} + c) ==
      rest + multiset{low} + lefts + (stock + c) + multiset{left}
    ensures rest + lefts + stock + (multiset{low, left} + c) ==
      rest + multiset{low} + (lefts + multiset{left}) + (stock + c)
  {
  }

  lemma NoStock()
    ensures StockAll([]) == multiset{}
  {
  }

  lemma BootSound(boot: seq<Frame>)
    requires Apart(multiset(boot))
    ensures Sound(multiset(boot), boot)
  {
    forall g | g in multiset(boot) && g.size > 0 ensures Backed(g, boot) {
      var k :| 0 <= k < |boot| && boot[k] == g;
      assert Within(g, boot[k]);
    }
  }

  /** The early memory of a node gives one large page; its cache cannot hold much more than the rest. */
  lemma EarlyAsksOne(f: Frame)
    requires f.size <= EMEM_SIZE
    ensures BaseFirst(f, TCACHE_BASE) <= 1
  {
  }

  /** What that makes of an aligned frame. */
  lemma EarlyCounts(f: Frame)
    requires Paged(f) && f.base % LARGE_PAGE_SIZE == 0 && LARGE_PAGE_SIZE + 64 * BASE_PAGE_SIZE < f.size <= EMEM_SIZE
    ensures LargePages(f, BaseFirst(f, TCACHE_BASE)) == 1
    ensures BasePages(f, BaseFirst(f, TCACHE_BASE)) == (f.size - LARGE_PAGE_SIZE) / BASE_PAGE_SIZE > 64
  {
    EarlyAsksOne(f);
    hide BaseFirst;
  }

  /** The early cache of one node. */
  method EarlyCache(f: Frame, node: nat, ghost others: multiset<Frame>, ghost boot: seq<Frame>)
    returns (low: Frame, left: Frame, c: Cache)
    requires Paged(f) && f.affinity == node && f.size > EMEM_SIZE && Sound(others + multiset{f}, boot)
    ensures Paged(low) && Paged(left) && c.node == node && Stocked(c) && (c.large[0] == 0 <==> f.base == 0)
    ensures Aligned(c.base, BASE_PAGE_SIZE) && Aligned(c.large, LARGE_PAGE_SIZE) && |c.base| <= TCACHE_BASE
    ensures f.base % LARGE_PAGE_SIZE == 0 ==> |c.base| == TCACHE_BASE
    ensures low.size + left.size <= f.size <= low.size + left.size + EMEM_SIZE
    ensures (low.size > 0 ==> low.affinity == node) && (left.size > 0 ==> left.affinity == node)
    ensures Sound(others + (multiset{low, left} + Stock(c)), boot)
  {
    hide Sound, Apart, Inside, SplitAtNearestLargePageBoundary, BasePages, LargePages, BaseFirst, Stock, Pages;
    var (below, high) := SplitAtNearestLargePageBoundary(f);
    var (emem, above) := SplitAt(high, EMEM_SIZE);
    low, left := below, above;
    var cache := new MCache(node, TCACHE_BASE, TCACHE_LARGE);
    EarlyAsksOne(emem);
    EarlyCounts(emem);
    ghost var added := cache.Populate4kFirst(emem);
    c := Cache(node, cache.base, cache.large);
    StockOf(cache, c);
    assert Stock(c) == added;
    EarlySound(others, f, low, high, emem, left, added, boot);
  }

  lemma EarlySound(others: multiset<Frame>, f: Frame, low: Frame, high: Frame, emem: Frame, left: Frame,
                   added: multiset<Frame>, boot: seq<Frame>)
    requires Sound(others + multiset{f}, boot) && Parts(f, low, high) && Parts(high, emem, left)
    requires Apart(added) && Inside(added, emem)
    ensures Sound(others + (multiset{low, left} + added), boot)
  {
    hide Sound, Apart, Inside;
    Cut(f, low, high, emem, left);
    SoundRefine(others, f, multiset{low, left} + multiset{emem}, boot);
    assert others + (multiset{low, left} + multiset{emem}) == (others + multiset{low, left}) + multiset{emem};
    SoundRefine(others + multiset{low, left}, emem, added, boot);
    assert others + multiset{low, left} + added == others + (multiset{low, left} + added);
  }

  /** One large page of every early cache becomes the backing page of that node's big cache. */
  method BackingPages(emem0: seq<Cache>, ghost others: multiset<Frame>, ghost boot: seq<Frame>)
    returns (ok: bool, emem: seq<Cache>, backing: seq<Frame>)
    requires Proper(emem0, TCACHE_BASE, TCACHE_LARGE) && (forall i :: 0 <= i < |emem0| ==> emem0[i].large != [])
    requires Sound(others + StockAll(emem0), boot)
    ensures Proper(emem, TCACHE_BASE, TCACHE_LARGE) && |emem| == |emem0| && (ok ==> |backing| == |emem0|)
    ensures ok ==> forall i :: 0 <= i < |emem| ==>
      emem[i].base == emem0[i].base && emem0[i].large == emem[i].large + [backing[i].base]
    ensures ok <==> TopsNonzero(emem0)
    ensures ok ==> forall i :: 0 <= i < |backing| ==> IsPage(backing[i], LARGE_PAGE_SIZE, i) && backing[i].base != 0
    ensures Sound(others + multiset(backing) + StockAll(emem), boot)
  {
    hide Sound, StockAll, Stock;
    emem, backing := emem0, [];
    assert others + multiset(backing) + StockAll(emem) == others + StockAll(emem0);
    var i := 0;
    while i < |emem0|
      invariant 0 <= i <= |emem0| == |emem| && |backing| == i && Proper(emem, TCACHE_BASE, TCACHE_LARGE)
      invariant forall k :: i <= k < |emem| ==> emem[k] == emem0[k]
      invariant forall k :: 0 <= k < i ==> IsPage(backing[k], LARGE_PAGE_SIZE, k) && backing[k].base != 0
      invariant forall k :: 0 <= k < i ==> emem0[k].large[|emem0[k].large| - 1] != 0
      invariant forall k :: 0 <= k < i ==>
        emem[k].base == emem0[k].base && emem0[k].large == emem[k].large + [backing[k].base]
      invariant Sound(others + multiset(backing) + StockAll(emem), boot)
    {
      var c := emem[i];
      var page := PageAt(c.large[|c.large| - 1], LARGE_PAGE_SIZE, i);
      if page.base == 0 {
        return false, emem, backing;
      }
      var c' := c.(large := c.large[..|c.large| - 1]);
      PopStock(c, c');
      StockUpdate(emem, i, c');
      MovePage(others, backing, page, StockAll(emem), StockAll(emem[i := c']), Stock(c), Stock(c'));
      emem := emem[i := c'];
      backing := backing + [page];
      i := i + 1;
    }
    ok := true;
  }

  lemma PopStock(c: Cache, c': Cache)
    requires c.large != [] && c' == c.(large := c.large[..|c.large| - 1])
    ensures Stock(c) == Stock(c') + multiset{PageAt(c.large[|c.large| - 1], LARGE_PAGE_SIZE, c.node)}
  {
  }

  lemma MovePage(others: multiset<Frame>, backing: seq<Frame>, page: Frame, all: multiset<Frame>,
                 all': multiset<Frame>, s: multiset<Frame>, s': multiset<Frame>)
    requires s == s' + multiset{page} && all' + s == all + s'
    ensures others + multiset(backing + [page]) + all' == others + multiset(backing) + all
  {
    assert all' + multiset{page} == all by {
      forall f ensures (all' + multiset{page})[f] == all[f] {
        assert (all' + s)[f] == (all + s')[f];
      }
    }
    assert multiset(backing + [page]) == multiset(backing) + multiset{page};
  }

  /**
   Populate a node's cache with the frames of that node. `left` are the frames with those of this
   node replaced by nothing once they have been used.
   */
  method PopulateFrom(cache: MCache, frames: seq<Frame>, ghost left0: seq<Frame>, ghost others: multiset<Frame>,
                      ghost boot: seq<Frame>)
    returns (ghost left: seq<Frame>)
    requires cache.Valid() && AllPaged(frames) && |left0| == |frames|
    requires forall k :: 0 <= k < |frames| && frames[k].affinity == cache.node ==> left0[k] == frames[k]
    requires Sound(multiset(left0) + others + cache.Owned(), boot)
    modifies cache`base, cache`large
    ensures cache.Valid() && |left| == |frames|
    ensures |cache.base| == Min(cache.baseCapacity, |old(cache.base)| + BaseTotal(frames, cache.node, |frames|))
    ensures |cache.large| == Min(cache.largeCapacity, |old(cache.large)| + LargeTotal(frames, cache.node, |frames|))
    ensures forall k :: 0 <= k < |frames| && frames[k].affinity != cache.node ==> left[k] == left0[k]
    ensures Sound(multiset(left) + others + cache.Owned(), boot)
  {
    hide Sound, Apart, Inside, Pages, Aligned, BasePages, LargePages, MostlyLarge, BaseTotal, LargeTotal;
    left := left0;
    TotalsStart(frames, cache.node);
    var i := 0;
    while i < |frames|
      invariant 0 <= i <= |frames| == |left| && cache.Valid()
      invariant forall k :: 0 <= k < |frames| && (frames[k].affinity != cache.node || k >= i) ==> left[k] == left0[k]
      invariant |cache.base| == Min(cache.baseCapacity, |old(cache.base)| + BaseTotal(frames, cache.node, i))
      invariant |cache.large| == Min(cache.largeCapacity, |old(cache.large)| + LargeTotal(frames, cache.node, i))
      invariant Sound(multiset(left) + others + cache.Owned(), boot)
    {
      if frames[i].affinity == cache.node {
        ghost var owned := cache.Owned();
        ghost var added := cache.Populate2mFirst(frames[i]);
        UseFrame(left, i, frames[i], others, owned, added, boot);
        left := left[i := empty];
      }
      TotalsNext(frames, cache.node, i);
      i := i + 1;
    }
  }

  lemma TotalsStart(frames: seq<Frame>, a: nat)
    requires AllPaged(frames)
    ensures BaseTotal(frames, a, 0) == 0 && LargeTotal(frames, a, 0) == 0
  {
  }

  lemma TotalsNext(frames: seq<Frame>, a: nat, i: nat)
    requires AllPaged(frames) && i < |frames|
    ensures
      var f := frames[i];
      && BaseTotal(frames, a, i + 1) ==
           BaseTotal(frames, a, i) + (if f.affinity == a then BasePages(f, MostlyLarge(f)) else 0)
      && LargeTotal(frames, a, i + 1) ==
           LargeTotal(frames, a, i) + (if f.affinity == a then LargePages(f, MostlyLarge(f)) else 0)
  {
  }

  lemma PlusEmpty(added: multiset<Frame>, f: Frame)
    requires Apart(added) && Inside(added, f)
    ensures Apart(added + multiset{empty}) && Inside(added + multiset{empty}, f)
  {
  }

  lemma UseFrame(left: seq<Frame>, i: nat, f: Frame, others: multiset<Frame>, owned: multiset<Frame>,
                 added: multiset<Frame>, boot: seq<Frame>)
    requires i < |left| && left[i] == f && Sound(multiset(left) + others + owned, boot) && Apart(added) &&
      Inside(added, f)
    ensures Sound(multiset(left[i := empty]) + others + (owned + added), boot)
  {
    hide Sound, Apart, Inside;
    Replaced(left, i, empty);
    var rest := multiset(left) - multiset{f};
    assert f in multiset(left) && multiset(left) == rest + multiset{f};
    assert multiset(left) + others + owned == (rest + others + owned) + multiset{f};
    var parts := added + multiset{empty};
    PlusEmpty(added, f);
    SoundRefine(rest + others + owned, f, parts, boot);
    assert multiset(left[i := empty]) == rest + multiset{empty};
    assert (rest + others + owned) + parts == multiset(left[i := empty]) + others + (owned + added);
  }

  /** The big cache of node `a` has all pages of the node's frames, up to its capacity. */
  ghost predicate Filled(c: Cache, mem: seq<Frame>, leftovers: seq<Frame>, a: nat)
    requires AllPaged(mem) && AllPaged(leftovers)
  {
    && |c.base| == Min(NCACHE_BASE, BaseTotal(mem, a, |mem|) + BaseTotal(leftovers, a, |leftovers|))
    && |c.large| == Min(NCACHE_LARGE, LargeTotal(mem, a, |mem|) + LargeTotal(leftovers, a, |leftovers|))
  }

  /** Populate the big caches with all remaining memory. */
  method NodeCaches(nodes: nat, mem: seq<Frame>, leftovers: seq<Frame>, ghost others: multiset<Frame>,
                    ghost boot: seq<Frame>)
    returns (ncaches: seq<Cache>)
    requires AllPaged(mem) && AllPaged(leftovers) && Sound(multiset(mem) + multiset(leftovers) + others, boot)
    ensures |ncaches| == nodes && Proper(ncaches, NCACHE_BASE, NCACHE_LARGE)
    ensures forall a :: 0 <= a < nodes ==> Filled(ncaches[a], mem, leftovers, a)
    ensures Sound(others + StockAll(ncaches), boot)
  {
    hide Sound, StockAll, Stock, Pages, Aligned, BaseTotal, LargeTotal;
    ncaches := [];
    ghost var lm, ll := mem, leftovers;
    NoStock();
    assert multiset(lm) + multiset(ll) + (others + StockAll(ncaches)) == multiset(mem) + multiset(leftovers) + others;
    for a := 0 to nodes
      invariant |ncaches| == a && Proper(ncaches, NCACHE_BASE, NCACHE_LARGE) && |lm| == |mem| && |ll| == |leftovers|
      invariant forall b :: 0 <= b < a ==> Filled(ncaches[b], mem, leftovers, b)
      invariant forall k :: 0 <= k < |mem| && mem[k].affinity >= a ==> lm[k] == mem[k]
      invariant forall k :: 0 <= k < |leftovers| && leftovers[k].affinity >= a ==> ll[k] == leftovers[k]
      invariant Sound(multiset(lm) + multiset(ll) + (others + StockAll(ncaches)), boot)
    {
      var cache := new MCache(a, NCACHE_BASE, NCACHE_LARGE);
      ghost var stock := others + StockAll(ncaches);
      Regroup(multiset(lm), multiset(ll), stock, cache.Owned());
      lm := PopulateFrom(cache, mem, lm, multiset(ll) + stock, boot);
      Regroup(multiset(lm), multiset(ll), stock, cache.Owned());
      ll := PopulateFrom(cache, leftovers, ll, multiset(lm) + stock, boot);
      var c := Cache(a, cache.base, cache.large);
      StockOf(cache, c);
      StockPush(ncaches, c);
      Regroup(multiset(lm), multiset(ll), stock, cache.Owned());
      assert stock + Stock(c) == others + StockAll(ncaches + [c]);
      ncaches := ncaches + [c];
    }
    assert multiset(lm) + multiset(ll) + (others + StockAll(ncaches)) ==
      (others + StockAll(ncaches)) + (multiset(lm) + multiset(ll));
    SoundPart(others + StockAll(ncaches), multiset(lm) + multiset(ll), boot);
  }

  lemma Regroup(a: multiset<Frame>, b: multiset<Frame>, stock: multiset<Frame>, own: multiset<Frame>)
    ensures a + (b + stock) + own == b + (a + stock) + own == a + b + (stock + own)
    ensures own == multiset{} ==> a + (b + stock) + own == a + b + stock
  {
  }

  lemma StockOf(cache: MCache, c: Cache)
    requires c == Cache(cache.node, cache.base, cache.large)
    ensures Stock(c) == cache.Owned()
  {
  }

  predicate Sorted(boot: seq<Frame>) {
    forall i, j :: 0 <= i < j < |boot| ==> boot[i].affinity <= boot[j].affinity
  }

  /** The number of nodes: one more than the largest affinity. */
  function Nodes(boot: seq<Frame>): (n: nat)
    ensures forall i :: 0 <= i < |boot| ==> boot[i].affinity < n
    ensures n > 0 ==> exists i :: 0 <= i < |boot| && boot[i].affinity == n - 1
  {
    if boot == [] then 0
    else
      var m := Nodes(boot[..|boot| - 1]);
      var a := boot[|boot| - 1].affinity + 1;
      assert forall i :: 0 <= i < |boot| - 1 ==> boot[i] == boot[..|boot| - 1][i];
      if a > m then a else m
  }

  /** Among the first `i` frames there is one of node `a` with room for its early memory. */
  predicate RoomBefore(boot: seq<Frame>, i: nat, a: nat)
    requires i <= |boot|
  {
    exists j :: 0 <= j < i && boot[j].affinity == a && boot[j].size > EMEM_SIZE
  }

  /** Frame `j` is the first of its node with room for the early memory. */
  predicate FirstRoom(boot: seq<Frame>, j: nat)
    requires j < |boot|
  {
    boot[j].size > EMEM_SIZE && !RoomBefore(boot, j, boot[j].affinity)
  }

  /** The nodes served so far are those below the first one without room. */
  lemma {:induction false} ServedPrefix(boot: seq<Frame>, i: nat)
    requires i <= |boot| && Sorted(boot)
    ensures forall a: nat :: a < Served(boot, i) ==> RoomBefore(boot, i, a)
    ensures !RoomBefore(boot, i, Served(boot, i))
    decreases i
  {
    if i > 0 {
      ServedPrefix(boot, i - 1);
      forall a: nat | a < Served(boot, i) ensures RoomBefore(boot, i, a) {
        if a < Served(boot, i - 1) {
          assert RoomBefore(boot, i - 1, a);
        } else {
          assert boot[i - 1].affinity == a;
        }
      }
    }
  }

  /** Every node is served exactly if it has a frame with room, and from the first such frame. */
  lemma ServedIff(boot: seq<Frame>)
    requires Sorted(boot)
    ensures Served(boot, |boot|) == Nodes(boot) <==> forall a: nat :: a < Nodes(boot) ==> RoomBefore(boot, |boot|, a)
    ensures Served(boot, |boot|) == Nodes(boot) ==>
      forall j :: 0 <= j < |boot| ==> (Chosen(boot, j) <==> FirstRoom(boot, j))
  {
    var n, m := |boot|, Nodes(boot);
    ServedPrefix(boot, n);
    assert !RoomBefore(boot, n, m);
    if Served(boot, n) == m {
      forall j | 0 <= j < n ensures Chosen(boot, j) <==> FirstRoom(boot, j) {
        ServedPrefix(boot, j);
        assert Served(boot, j) < m ==> RoomBefore(boot, n, Served(boot, j));
      }
    }
  }

  /**
   The boot memory that can be set up: sorted by node, of at most twelve nodes, with room for the early
   memory on every node up to the last, which does not start at address zero.
   */
  ghost predicate Bootable(boot: seq<Frame>) {
    && boot != []
    && (forall i, j :: 0 <= i < j < |boot| ==> boot[i].affinity <= boot[j].affinity)
    && (forall i :: 0 <= i < |boot| ==> boot[i].affinity < MAX_NUMA_NODES)
    && (forall i, a: nat :: 0 <= i < |boot| && a <= boot[i].affinity ==> RoomBefore(boot, |boot|, a))
    && (forall j :: 0 <= j < |boot| && FirstRoom(boot, j) ==> boot[j].base != 0)
  }

  /** This is what the set-up tests. */
  lemma BootableIff(boot: seq<Frame>)
    ensures Bootable(boot) <==>
      && boot != [] && Sorted(boot) && Served(boot, |boot|) == Nodes(boot) <= MAX_NUMA_NODES
      && NoneAtZero(boot, |boot|)
  {
    if Sorted(boot) {
      ServedIff(boot);
    }
    hide Served, Chosen, FirstRoom, RoomBefore;
  }

  /** Unless it is full, at most the early memory of a node is missing from its big cache. */
  ghost predicate NearlyAll(c: Cache, boot: seq<Frame>, a: nat) {
    var bytes := |c.base| * BASE_PAGE_SIZE + |c.large| * LARGE_PAGE_SIZE;
    |c.base| == NCACHE_BASE || |c.large| == NCACHE_LARGE || bytes <= NodeSize(boot, a, |boot|) <= bytes + EMEM_SIZE
  }

  lemma FilledNearlyAll(c: Cache, boot: seq<Frame>, mem: seq<Frame>, leftovers: seq<Frame>, a: nat, served: nat)
    requires AllPaged(mem) && AllPaged(leftovers) && Filled(c, mem, leftovers, a) &&
      Left(boot, mem, leftovers, a, served)
    ensures NearlyAll(c, boot, a)
  {
    TotalsAreSize(mem, a, |mem|);
    TotalsAreSize(leftovers, a, |leftovers|);
  }

  /**
   From disjoint boot frames: every page in every cache, and every backing page, is a piece of boot
   memory of that node, aligned, and no byte is in two of them; and the big caches get all there is.
   */
  method New(boot: seq<Frame>) returns (r: Boot)
    requires AllPaged(boot) && Apart(multiset(boot))
    ensures r.Ready? <==> Bootable(boot)
    ensures r.Ready? ==> |r.emem| == |r.ncaches| == |r.backing| == Nodes(boot)
    ensures r.Ready? ==> Proper(r.emem, TCACHE_BASE, TCACHE_LARGE) && Proper(r.ncaches, NCACHE_BASE, NCACHE_LARGE)
    ensures r.Ready? ==> forall i :: 0 <= i < |r.backing| ==>
      IsPage(r.backing[i], LARGE_PAGE_SIZE, i) && r.backing[i].base != 0
    ensures r.Ready? ==> forall i :: 0 <= i < |r.emem| ==> r.emem[i].large == [] && |r.emem[i].base| > 64
    ensures r.Ready? ==> Sound(multiset(r.backing) + StockAll(r.emem) + StockAll(r.ncaches), boot)
    ensures r.Ready? ==> forall a :: 0 <= a < |r.ncaches| ==> NearlyAll(r.ncaches[a], boot, a)
  {
    hide Sound, StockAll, Stock, Apart, Filled, Left, NearlyAll, Bootable, Served, NoneAtZero;
    BootableIff(boot);
    if boot == [] || !Sorted(boot) {
      return Failure;
    }
    var nodes := Nodes(boot);
    var mem, leftovers, emem0 := EarlyCaches(boot);
    if |emem0| != nodes || nodes > MAX_NUMA_NODES {
      return Failure;
    }
    var ok, emem, backing := BackingPages(emem0, multiset(mem) + multiset(leftovers), boot);
    if !ok {
      return Failure;
    }
    ghost var kept := multiset(backing) + StockAll(emem);
    assert multiset(mem) + multiset(leftovers) + multiset(backing) + StockAll(emem) ==
      multiset(mem) + multiset(leftovers) + kept;
    var ncaches := NodeCaches(nodes, mem, leftovers, kept, boot);
    forall a | 0 <= a < |ncaches| ensures NearlyAll(ncaches[a], boot, a) {
      assert Left(boot, mem, leftovers, a, nodes);
      FilledNearlyAll(ncaches[a], boot, mem, leftovers, a, nodes);
    }
    return Ready(emem, ncaches, backing);
  }
}
