/**
 The page caches of a NUMA node: two stacks of free pages.

 A page in a cache is a frame of the cache's node. What an operation takes out of a cache it hands
 over, and what it puts in it has taken from its caller: the multiset of pages is conserved.
 */
module MCacheModule {
  import opened Frames

  datatype Outcome = Done | CacheFull | Panicked

  // ----- the pages on a stack of addresses

  function PageAt(addr: nat, size: nat, node: nat): Frame {
    Frame(addr, size, node)
  }

  ghost function Pages(addrs: seq<nat>, size: nat, node: nat): multiset<Frame> {
    if addrs == [] then multiset{}
    else Pages(addrs[..|addrs| - 1], size, node) + multiset{PageAt(addrs[|addrs| - 1], size, node)}
  }

  lemma PagesPush(addrs: seq<nat>, addr: nat, size: nat, node: nat)
    ensures Pages(addrs + [addr], size, node) == Pages(addrs, size, node) + multiset{PageAt(addr, size, node)}
  {
    assert (addrs + [addr])[..|addrs|] == addrs;
  }

  predicate Aligned(addrs: seq<nat>, size: nat)
    requires size > 0
  {
    forall i :: 0 <= i < |addrs| ==> addrs[i] % size == 0
  }

  /** The frame is one page for this node. */
  predicate IsPage(f: Frame, size: nat, node: nat)
    requires size > 0
  {
    f.size == size && f.base % size == 0 && f.affinity == node
  }

  /** What is left of `frame` above the address `at`. */
  ghost predicate Remains(frame: Frame, rest: Frame, at: nat) {
    && Paged(rest) && frame.base <= at && at + rest.size == End(frame)
    && (rest.size > 0 ==> rest.base == at && rest.affinity == frame.affinity)
  }

  predicate OnBoundary(f: Frame) {
    f.size > 0 ==> f.base % LARGE_PAGE_SIZE == 0
  }

  lemma WholeRemains(frame: Frame)
    requires Paged(frame) && (frame.size > 0 ==> frame.base % LARGE_PAGE_SIZE == 0)
    ensures Remains(frame, frame, frame.base) && OnBoundary(frame)
  {
  }

  /** Cutting one large page off the bottom of what is left. */
  lemma CutLarge(frame: Frame, rest: Frame, at: nat)
    requires Remains(frame, rest, at) && OnBoundary(rest) && rest.size >= LARGE_PAGE_SIZE
    ensures var (page, more) := SplitAt(rest, LARGE_PAGE_SIZE);
      && page == Frame(at, LARGE_PAGE_SIZE, frame.affinity) && at == rest.base &&
        IsPage(page, LARGE_PAGE_SIZE, frame.affinity)
      && Remains(frame, more, End(page)) && OnBoundary(more) && more.size < rest.size && frame.base <= at
      && frame.size > 0
  {
  }

  /** An aligned frame with room for a large page. */
  predicate OneLarge(frame: Frame) {
    frame.base % LARGE_PAGE_SIZE == 0 && frame.size >= LARGE_PAGE_SIZE
  }

  /** How many large pages of a frame a cache asks for by default. */
  function MostlyLarge(frame: Frame): nat {
    frame.size / LARGE_PAGE_SIZE * 87 / 100
  }

  /** How many a cache asks for that fills its base pages first. */
  function BaseFirst(frame: Frame, baseCapacity: nat): nat {
    var pages := frame.size / BASE_PAGE_SIZE;
    if pages > baseCapacity then (pages - baseCapacity) * BASE_PAGE_SIZE / LARGE_PAGE_SIZE else 1
  }

  /** How many large pages a frame is divided into: the number asked for, but at least one if there is one. */
  function LargePages(frame: Frame, howMany: nat): nat
    requires Paged(frame)
  {
    Min(if howMany == 0 then 1 else howMany, SplitAtNearestLargePageBoundary(frame).1.size / LARGE_PAGE_SIZE)
  }

  /** And how many base pages. */
  function BasePages(frame: Frame, howMany: nat): nat
    requires Paged(frame)
  {
    (frame.size - LargePages(frame, howMany) * LARGE_PAGE_SIZE) / BASE_PAGE_SIZE
  }

  /** The pages of the three stretches, counted. */
  lemma CountPages(frame: Frame, howMany: nat, low: Frame, high: Frame, rest: Frame, at: nat)
    requires Paged(frame) && (low, high) == SplitAtNearestLargePageBoundary(frame) && Remains(high, rest, at)
    requires rest.size ==
      high.size - Min(if howMany == 0 then 1 else howMany, high.size / LARGE_PAGE_SIZE) * LARGE_PAGE_SIZE
    ensures LargePages(frame, howMany) == Min(if howMany == 0 then 1 else howMany, high.size / LARGE_PAGE_SIZE)
    ensures low.size / BASE_PAGE_SIZE + rest.size / BASE_PAGE_SIZE == BasePages(frame, howMany)
  {
    hide SplitAtNearestLargePageBoundary;
  }

  /** Together they make up the whole frame. */
  lemma NothingMissing(frame: Frame, howMany: nat)
    requires Paged(frame)
    ensures BasePages(frame, howMany) * BASE_PAGE_SIZE + LargePages(frame, howMany) * LARGE_PAGE_SIZE == frame.size
  {
    hide SplitAtNearestLargePageBoundary;
  }

  /** Cutting at the boundary costs less than one large page. */
  lemma BoundaryCost(frame: Frame)
    requires Paged(frame)
    ensures var high := SplitAtNearestLargePageBoundary(frame).1;
      frame.size / LARGE_PAGE_SIZE <= high.size / LARGE_PAGE_SIZE + 1 && high.size <= frame.size
  {
    var (low, high) := SplitAtNearestLargePageBoundary(frame);
    hide SplitAtNearestLargePageBoundary;
    assert frame.size == low.size + high.size;
  }

  /** The default division: of two or more large pages' worth, 87 of 100 rounded down, but at least one. */
  lemma MostlyLargeShare(frame: Frame)
    requires Paged(frame)
    ensures
      var large, room := LargePages(frame, MostlyLarge(frame)), frame.size / LARGE_PAGE_SIZE;
      && large <= room && (large >= 2 ==> 100 * large <= 87 * room)
      && (room >= 2 ==> large >= 1 && 87 * room < 100 * (large + 1))
  {
    BoundaryCost(frame);
    hide SplitAtNearestLargePageBoundary;
  }

  /**
   Base pages first: more than one large page only if that leaves all the base pages the cache can hold, and
   never so few that two large pages' worth is left beyond them.
   */
  lemma BaseFirstShare(frame: Frame, baseCapacity: nat)
    requires Paged(frame)
    ensures
      var howMany := BaseFirst(frame, baseCapacity);
      && (LargePages(frame, howMany) >= 2 ==> BasePages(frame, howMany) >= baseCapacity)
      && BasePages(frame, howMany) * BASE_PAGE_SIZE < baseCapacity * BASE_PAGE_SIZE + 2 * LARGE_PAGE_SIZE
  {
    BoundaryCost(frame);
    hide SplitAtNearestLargePageBoundary;
  }

  function Min(a: nat, b: nat): nat {
    if a <= b then a else b
  }

  // ----- the cache

  class MCache {
    const node: nat
    const baseCapacity: nat
    const largeCapacity: nat
    var base: seq<nat>
    var large: seq<nat>

    ghost predicate Valid()
      reads this
    {
      && |base| <= baseCapacity && |large| <= largeCapacity
      && Aligned(base, BASE_PAGE_SIZE) && Aligned(large, LARGE_PAGE_SIZE)
    }

    /** All free pages in the cache. */
    ghost function Owned(): multiset<Frame>
      reads this
    {
      Pages(base, BASE_PAGE_SIZE, node) + Pages(large, LARGE_PAGE_SIZE, node)
    }

    constructor (node: nat, baseCapacity: nat, largeCapacity: nat)
      ensures Valid() && Owned() == multiset{} && base == [] && large == []
      ensures this.node == node && this.baseCapacity == baseCapacity && this.largeCapacity == largeCapacity
    {
      this.node := node;
      this.baseCapacity := baseCapacity;
      this.largeCapacity := largeCapacity;
      base, large := [], [];
    }

    /** A cache that already holds pages. */
    constructor Holding(node: nat, baseCapacity: nat, largeCapacity: nat, base: seq<nat>, large: seq<nat>)
      requires |base| <= baseCapacity && |large| <= largeCapacity
      requires Aligned(base, BASE_PAGE_SIZE) && Aligned(large, LARGE_PAGE_SIZE)
      ensures Valid() && this.base == base && this.large == large
      ensures this.node == node && this.baseCapacity == baseCapacity && this.largeCapacity == largeCapacity
    {
      this.node := node;
      this.baseCapacity := baseCapacity;
      this.largeCapacity := largeCapacity;
      this.base, this.large := base, large;
    }

    /** Add the base pages of a frame as long as there is room; the rest is lost. */
    method AddBasePages(frame: Frame) returns (ghost added: multiset<Frame>)
      requires Valid() && Paged(frame) && (frame.size > 0 ==> frame.affinity == node)
      modifies this`base
      ensures Valid() && Owned() == old(Owned()) + added && Laid(added, frame.base, End(frame))
      ensures forall g :: g in added ==> IsPage(g, BASE_PAGE_SIZE, node)
      ensures |base| == Min(baseCapacity, |old(base)| + frame.size / BASE_PAGE_SIZE)
    {
      hide Laid, Pages, Aligned;
      added := multiset{};
      LaidNothing(frame.base);
      var rest := frame;
      ghost var at := frame.base;
      while rest.size > 0 && |base| < baseCapacity
        invariant Valid() && Owned() == old(Owned()) + added
        invariant Remains(frame, rest, at) && Laid(added, frame.base, at)
        invariant forall g :: g in added ==> IsPage(g, BASE_PAGE_SIZE, node)
        invariant |base| + rest.size / BASE_PAGE_SIZE == |old(base)| + frame.size / BASE_PAGE_SIZE
        decreases rest.size
      {
        var (page, more) := NextPage(rest);
        PushBase(page.value);
        LayNext(added, frame.base, at, page.value);
        added := added + multiset{page.value};
        at := End(page.value);
        rest := more;
      }
      LaidWider(added, frame.base, at, End(frame));
    }

    /** Push a page for which there is room. */
    method PushBase(page: Frame)
      requires Valid() && |base| < baseCapacity && IsPage(page, BASE_PAGE_SIZE, node)
      modifies this`base
      ensures Valid() && Owned() == old(Owned()) + multiset{page} && |base| == |old(base)| + 1
    {
      PagesPush(base, page.base, BASE_PAGE_SIZE, node);
      base := base + [page.base];
    }

    method PushLarge(page: Frame)
      requires Valid() && |large| < largeCapacity && IsPage(page, LARGE_PAGE_SIZE, node)
      modifies this`large
      ensures Valid() && Owned() == old(Owned()) + multiset{page} && large == old(large) + [page.base]
    {
      PagesPush(large, page.base, LARGE_PAGE_SIZE, node);
      large := large + [page.base];
    }

    /** Cut large pages off an aligned frame; those for which there is no room are lost. */
    method AddLargePages(frame: Frame, howMany: nat) returns (rest: Frame, ghost added: multiset<Frame>, ghost at: nat)
      requires Valid() && Paged(frame) &&
        (frame.size > 0 ==> frame.affinity == node && frame.base % LARGE_PAGE_SIZE == 0)
      modifies this`large
      ensures Valid() && Owned() == old(Owned()) + added && Laid(added, frame.base, at) && Remains(frame, rest, at)
      ensures forall g :: g in added ==> IsPage(g, LARGE_PAGE_SIZE, node)
      ensures |large| == Min(largeCapacity, |old(large)| + Min(howMany, frame.size / LARGE_PAGE_SIZE))
      ensures rest.size == frame.size - Min(howMany, frame.size / LARGE_PAGE_SIZE) * LARGE_PAGE_SIZE
      ensures howMany == 1 && frame.size >= LARGE_PAGE_SIZE && |old(large)| < largeCapacity ==>
        large == old(large) + [frame.base]
    {
      hide Laid, Pages, Aligned, IsPage, SplitAt, Remains, OnBoundary;
      added := multiset{};
      LaidNothing(frame.base);
      rest, at := frame, frame.base;
      WholeRemains(frame);
      var left: nat := howMany;
      while left > 0 && rest.size >= LARGE_PAGE_SIZE
        invariant Valid() && Owned() == old(Owned()) + added && Laid(added, frame.base, at)
        invariant Remains(frame, rest, at) && OnBoundary(rest)
        invariant forall g :: g in added ==> IsPage(g, LARGE_PAGE_SIZE, node)
        invariant left <= howMany && (left == howMany ==> rest == frame && large == old(large))
        invariant rest.size == frame.size - (howMany - left) * LARGE_PAGE_SIZE
        invariant |large| == Min(largeCapacity, |old(large)| + (howMany - left))
        invariant left + 1 == howMany && |old(large)| < largeCapacity ==> large == old(large) + [frame.base]
        decreases rest.size
      {
        CutLarge(frame, rest, at);
        var (page, more) := SplitAt(rest, LARGE_PAGE_SIZE);
        if |large| < largeCapacity {
          PushLarge(page);
          LayNext(added, frame.base, at, page);
          added := added + multiset{page};
        } else {
          LaidWider(added, frame.base, at, End(page));
        }
        at := End(page);
        rest := more;
        left := left - 1;
      }
    }

    /**
     Divide a frame into pages: base pages up to the first large boundary, then large pages, and the
     rest as base pages again. No part of the frame goes into the cache twice.
     */
    method Populate(frame: Frame, howMany: nat) returns (ghost added: multiset<Frame>)
      requires Valid() && Paged(frame) && (frame.size > 0 ==> frame.affinity == node)
      modifies this`base, this`large
      ensures Valid() && Owned() == old(Owned()) + added && Apart(added) && Inside(added, frame)
      ensures forall g :: g in added ==> IsPage(g, BASE_PAGE_SIZE, node) || IsPage(g, LARGE_PAGE_SIZE, node)
      ensures |base| == Min(baseCapacity, |old(base)| + BasePages(frame, howMany))
      ensures |large| == Min(largeCapacity, |old(large)| + LargePages(frame, howMany))
      ensures OneLarge(frame) && howMany <= 1 && |old(large)| < largeCapacity ==> large == old(large) + [frame.base]
    {
      hide Laid, Pages, Aligned, Apart, SplitAtNearestLargePageBoundary, BasePages, LargePages, Inside;
      var wanted := if howMany == 0 then 1 else howMany;
      var (low, high) := SplitAtNearestLargePageBoundary(frame);
      ghost var first := AddBasePages(low);
      var rest;
      ghost var second, at;
      rest, second, at := AddLargePages(high, wanted);
      ghost var third := AddBasePages(rest);
      added := first + second + third;
      CountPages(frame, howMany, low, high, rest, at);
      Divided(frame, low, high, first, second, at, rest, third);
      LaidInside(added, frame, node);
    }

    /** Fill the base pages first. */
    method Populate4kFirst(frame: Frame) returns (ghost added: multiset<Frame>)
      requires Valid() && Paged(frame) && (frame.size > 0 ==> frame.affinity == node)
      modifies this`base, this`large
      ensures Valid() && Owned() == old(Owned()) + added && Apart(added) && Inside(added, frame)
      ensures forall g :: g in added ==> IsPage(g, BASE_PAGE_SIZE, node) || IsPage(g, LARGE_PAGE_SIZE, node)
      ensures |base| == Min(baseCapacity, |old(base)| + BasePages(frame, BaseFirst(frame, baseCapacity)))
      ensures |large| == Min(largeCapacity, |old(large)| + LargePages(frame, BaseFirst(frame, baseCapacity)))
      ensures OneLarge(frame) && BaseFirst(frame, baseCapacity) <= 1 && |old(large)| < largeCapacity ==>
        large == old(large) + [frame.base]
    {
      added := Populate(frame, BaseFirst(frame, baseCapacity));
    }

    /** Make most of it large pages. */
    method Populate2mFirst(frame: Frame) returns (ghost added: multiset<Frame>)
      requires Valid() && Paged(frame) && (frame.size > 0 ==> frame.affinity == node)
      modifies this`base, this`large
      ensures Valid() && Owned() == old(Owned()) + added && Apart(added) && Inside(added, frame)
      ensures forall g :: g in added ==> IsPage(g, BASE_PAGE_SIZE, node) || IsPage(g, LARGE_PAGE_SIZE, node)
      ensures |base| == Min(baseCapacity, |old(base)| + BasePages(frame, MostlyLarge(frame)))
      ensures |large| == Min(largeCapacity, |old(large)| + LargePages(frame, MostlyLarge(frame)))
    {
      added := Populate(frame, MostlyLarge(frame));
    }

    method AllocateBasePage() returns (r: Option<Frame>)
      requires Valid()
      modifies this`base
      ensures Valid() && (r.None? <==> old(base) == [])
      ensures r.None? ==> base == old(base)
      ensures r.Some? ==> IsPage(r.value, BASE_PAGE_SIZE, node) && Owned() + multiset{r.value} == old(Owned())
      ensures r.Some? ==> |base| == |old(base)| - 1
    {
      if base == [] {
        return None;
      }
      r := Some(PageAt(base[|base| - 1], BASE_PAGE_SIZE, node));
      base := base[..|base| - 1];
    }

    method AllocateLargePage() returns (r: Option<Frame>)
      requires Valid()
      modifies this`large
      ensures Valid() && (r.None? <==> old(large) == [])
      ensures r.None? ==> large == old(large)
      ensures r.Some? ==> IsPage(r.value, LARGE_PAGE_SIZE, node) && Owned() + multiset{r.value} == old(Owned())
      ensures r.Some? ==> |large| == |old(large)| - 1
    {
      if large == [] {
        return None;
      }
      r := Some(PageAt(large[|large| - 1], LARGE_PAGE_SIZE, node));
      large := large[..|large| - 1];
    }

    method ReleaseBasePage(f: Frame) returns (r: Outcome)
      requires Valid()
      modifies this`base
      ensures Valid()
      ensures r.Panicked? <==> !IsPage(f, BASE_PAGE_SIZE, node)
      ensures r.CacheFull? <==> IsPage(f, BASE_PAGE_SIZE, node) && |old(base)| == baseCapacity
      ensures r.Done? ==> Owned() == old(Owned()) + multiset{f} && |base| == |old(base)| + 1
      ensures !r.Done? ==> base == old(base)
    {
      if !IsPage(f, BASE_PAGE_SIZE, node) {
        return Panicked;
      }
      if |base| == baseCapacity {
        return CacheFull;
      }
      PushBase(f);
      return Done;
    }

    method ReleaseLargePage(f: Frame) returns (r: Outcome)
      requires Valid()
      modifies this`large
      ensures Valid()
      ensures r.Panicked? <==> !IsPage(f, LARGE_PAGE_SIZE, node)
      ensures r.CacheFull? <==> IsPage(f, LARGE_PAGE_SIZE, node) && |old(large)| == largeCapacity
      ensures r.Done? ==> Owned() == old(Owned()) + multiset{f} && |large| == |old(large)| + 1
      ensures !r.Done? ==> large == old(large)
    {
      if !IsPage(f, LARGE_PAGE_SIZE, node) {
        return Panicked;
      }
      if |large| == largeCapacity {
        return CacheFull;
      }
      PushLarge(f);
      return Done;
    }

    /** Take over frames from a list; when the cache fills up, the first `taken` have been taken over. */
    method GrowBasePages(list: seq<Frame>) returns (r: Outcome, ghost taken: nat)
      requires Valid()
      modifies this`base
      ensures Valid() && taken <= |list| && Owned() == old(Owned()) + multiset(list[..taken])
      ensures |base| == |old(base)| + taken
      ensures r.Done? ==> taken == |list|
      ensures !r.Done? ==> taken < |list|
      ensures r.CacheFull? ==> |base| == baseCapacity
      ensures r.Panicked? ==> !IsPage(list[taken], BASE_PAGE_SIZE, node)
    {
      hide Pages, Aligned;
      taken := 0;
      var i := 0;
      while i < |list|
        invariant 0 <= i == taken <= |list| && Valid()
        invariant Owned() == old(Owned()) + multiset(list[..i]) && |base| == |old(base)| + i
      {
        r := ReleaseBasePage(list[i]);
        if !r.Done? {
          return;
        }
        assert list[..i + 1] == list[..i] + [list[i]];
        i := i + 1;
        taken := i;
      }
      r := Done;
      assert list[..i] == list;
    }

    method GrowLargePages(list: seq<Frame>) returns (r: Outcome, ghost taken: nat)
      requires Valid()
      modifies this`large
      ensures Valid() && taken <= |list| && Owned() == old(Owned()) + multiset(list[..taken])
      ensures |large| == |old(large)| + taken
      ensures r.Done? ==> taken == |list|
      ensures !r.Done? ==> taken < |list|
      ensures r.CacheFull? ==> |large| == largeCapacity
      ensures r.Panicked? ==> !IsPage(list[taken], LARGE_PAGE_SIZE, node)
    {
      hide Pages, Aligned;
      taken := 0;
      var i := 0;
      while i < |list|
        invariant 0 <= i == taken <= |list| && Valid()
        invariant Owned() == old(Owned()) + multiset(list[..i]) && |large| == |old(large)| + i
      {
        r := ReleaseLargePage(list[i]);
        if !r.Done? {
          return;
        }
        assert list[..i + 1] == list[..i] + [list[i]];
        i := i + 1;
        taken := i;
      }
      r := Done;
      assert list[..i] == list;
    }

    /** Give up to a list full of pages away; slots beyond what the cache had are left alone. */
    method ReapBasePages(list: array<Option<Frame>>) returns (ghost given: seq<Frame>)
      requires Valid()
      modifies this`base, list
      ensures Valid() && |given| == Min(list.Length, |old(base)|)
      ensures forall j :: 0 <= j < |given| ==> IsPage(given[j], BASE_PAGE_SIZE, node)
      ensures Owned() + multiset(given) == old(Owned())
      ensures forall j :: 0 <= j < |given| ==> list[j] == Some(given[j])
      ensures forall j :: |given| <= j < list.Length ==> list[j] == old(list[j])
    {
      hide Pages, Aligned;
      given := [];
      var i := 0;
      while i < list.Length && base != []
        invariant 0 <= i == |given| <= list.Length && Valid() && |base| + i == |old(base)|
        invariant forall j :: 0 <= j < i ==> IsPage(given[j], BASE_PAGE_SIZE, node)
        invariant Owned() + multiset(given) == old(Owned())
        invariant forall j :: 0 <= j < i ==> list[j] == Some(given[j])
        invariant forall j :: i <= j < list.Length ==> list[j] == old(list[j])
      {
        var page := AllocateBasePage();
        list[i] := page;
        given := given + [page.value];
        i := i + 1;
      }
    }

    method ReapLargePages(list: array<Option<Frame>>) returns (ghost given: seq<Frame>)
      requires Valid()
      modifies this`large, list
      ensures Valid() && |given| == Min(list.Length, |old(large)|)
      ensures forall j :: 0 <= j < |given| ==> IsPage(given[j], LARGE_PAGE_SIZE, node)
      ensures Owned() + multiset(given) == old(Owned())
      ensures forall j :: 0 <= j < |given| ==> list[j] == Some(given[j])
      ensures forall j :: |given| <= j < list.Length ==> list[j] == old(list[j])
    {
      hide Pages, Aligned;
      given := [];
      var i := 0;
      while i < list.Length && large != []
        invariant 0 <= i == |given| <= list.Length && Valid() && |large| + i == |old(large)|
        invariant forall j :: 0 <= j < i ==> IsPage(given[j], LARGE_PAGE_SIZE, node)
        invariant Owned() + multiset(given) == old(Owned())
        invariant forall j :: 0 <= j < i ==> list[j] == Some(given[j])
        invariant forall j :: i <= j < list.Length ==> list[j] == old(list[j])
      {
        var page := AllocateLargePage();
        list[i] := page;
        given := given + [page.value];
        i := i + 1;
      }
    }

    function SpareBasePageCapacity(): int
      reads this
    {
      baseCapacity - |base|
    }

    function SpareLargePageCapacity(): int
      reads this
    {
      largeCapacity - |large|
    }
  }

  /** The three stretches of a populated frame lie one above the other. */
  lemma Divided(frame: Frame, low: Frame, high: Frame, first: multiset<Frame>, second: multiset<Frame>, at: nat,
                rest: Frame, third: multiset<Frame>)
    requires Parts(frame, low, high) && Remains(high, rest, at)
    requires Laid(first, low.base, End(low)) && Laid(second, high.base, at) && Laid(third, rest.base, End(rest))
    ensures Laid(first + second + third, frame.base, End(frame))
  {
    var mid := frame.base + low.size;
    assert Laid(first, frame.base, mid) by {
      LaidEmpty(first, low);
    }
    var at' := if high.size > 0 then at else mid;
    assert Laid(second, mid, at') by {
      if high.size == 0 {
        LaidEmpty(second, high);
      }
    }
    assert Laid(third, at', End(frame)) by {
      LaidEmpty(third, rest);
    }
    hide Laid;
    LaidJoin(first, frame.base, mid, second, mid, at');
    LaidJoin(first + second, frame.base, at', third, at', End(frame));
  }

  lemma LaidEmpty(ms: multiset<Frame>, f: Frame)
    requires Laid(ms, f.base, End(f))
    ensures f.size == 0 ==> ms == multiset{}
  {
    if f.size == 0 {
      assert forall g :: g !in ms;
    }
  }

  lemma LaidInside(ms: multiset<Frame>, frame: Frame, node: nat)
    requires Laid(ms, frame.base, End(frame)) && (frame.size > 0 ==> frame.affinity == node)
    requires forall g :: g in ms ==> g.affinity == node
    ensures Apart(ms) && Inside(ms, frame)
  {
  }

  // ----- moving pages between caches

  /**
   Refill a core's cache from its node's cache: at most what is asked for and never more than the
   core's cache has room for. When the node runs out midway, what was moved so far stays moved.
   */
  method TryRefill(tcache: MCache, ncache: MCache, neededBase: nat, neededLarge: nat) returns (ok: bool)
    requires tcache != ncache && tcache.Valid() && ncache.Valid() && tcache.node == ncache.node
    modifies tcache`base, tcache`large, ncache`base, ncache`large
    ensures tcache.Valid() && ncache.Valid()
    ensures tcache.Owned() + ncache.Owned() == old(tcache.Owned() + ncache.Owned())
    ensures ok <==> |old(ncache.base)| >= Min(old(tcache.SpareBasePageCapacity()), neededBase)
                    && |old(ncache.large)| >= Min(old(tcache.SpareLargePageCapacity()), neededLarge)
    ensures |tcache.base| == |old(tcache.base)| +
      Min(Min(old(tcache.SpareBasePageCapacity()), neededBase), |old(ncache.base)|)
    ensures ok ==> |tcache.large| == |old(tcache.large)| + Min(old(tcache.SpareLargePageCapacity()), neededLarge)
  {
    var wantBase := Min(tcache.SpareBasePageCapacity(), neededBase);
    var wantLarge := Min(tcache.SpareLargePageCapacity(), neededLarge);
    ok := MoveBase(tcache, ncache, wantBase);
    if !ok {
      return;
    }
    ok := MoveLarge(tcache, ncache, wantLarge);
  }

  method MoveBase(tcache: MCache, ncache: MCache, want: nat) returns (ok: bool)
    requires tcache != ncache && tcache.Valid() && ncache.Valid() && tcache.node == ncache.node
    requires want <= tcache.SpareBasePageCapacity()
    modifies tcache`base, ncache`base
    ensures tcache.Valid() && ncache.Valid()
    ensures tcache.Owned() + ncache.Owned() == old(tcache.Owned() + ncache.Owned())
    ensures ok <==> |old(ncache.base)| >= want
    ensures |tcache.base| == |old(tcache.base)| + Min(want, |old(ncache.base)|)
  {
    hide Pages, Aligned;
    for i := 0 to want
      invariant tcache.Valid() && ncache.Valid() && i <= |old(ncache.base)|
      invariant |tcache.base| == |old(tcache.base)| + i && |ncache.base| == |old(ncache.base)| - i
      invariant tcache.Owned() + ncache.Owned() == old(tcache.Owned() + ncache.Owned())
    {
      var frame := ncache.AllocateBasePage();
      if frame.None? {
        return false;
      }
      var r, taken := tcache.GrowBasePages([frame.value]);
      assert r.Done?;
      assert [frame.value][..1] == [frame.value];
    }
    return true;
  }

  method MoveLarge(tcache: MCache, ncache: MCache, want: nat) returns (ok: bool)
    requires tcache != ncache && tcache.Valid() && ncache.Valid() && tcache.node == ncache.node
    requires want <= tcache.SpareLargePageCapacity()
    modifies tcache`large, ncache`large
    ensures tcache.Valid() && ncache.Valid()
    ensures tcache.Owned() + ncache.Owned() == old(tcache.Owned() + ncache.Owned())
    ensures ok <==> |old(ncache.large)| >= want
    ensures |tcache.large| == |old(tcache.large)| + Min(want, |old(ncache.large)|)
  {
    hide Pages, Aligned;
    for i := 0 to want
      invariant tcache.Valid() && ncache.Valid() && i <= |old(ncache.large)|
      invariant |tcache.large| == |old(tcache.large)| + i && |ncache.large| == |old(ncache.large)| - i
      invariant tcache.Owned() + ncache.Owned() == old(tcache.Owned() + ncache.Owned())
    {
      var frame := ncache.AllocateLargePage();
      if frame.None? {
        return false;
      }
      var r, taken := tcache.GrowLargePages([frame.value]);
      assert r.Done?;
      assert [frame.value][..1] == [frame.value];
    }
    return true;
  }
}
