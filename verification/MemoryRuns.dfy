/**
 Any run of page operations on any number of caches, with the pages clients hold.

 Pages move between caches and clients. Whatever is done in whatever order, including operations
 that fail midway, every page keeps exactly one owner: from the boot frames through the set-up of
 the caches to the end of any run.
 */
module MemoryRuns {
  import opened Frames
  import opened MCacheModule
  import opened GlobalMemory

  datatype Op =
    | Allocate(cache: nat, large: bool)
    | Release(cache: nat, hand: nat, large: bool)
    | Grow(cache: nat, count: nat, large: bool)
    | Reap(cache: nat, count: nat, large: bool)
    | Refill(core: nat, node: nat, neededBase: nat, neededLarge: nat)

  // ----- sums of what the caches own

  ghost function Sum(owned: seq<multiset<Frame>>): multiset<Frame> {
    if owned == [] then multiset{} else Sum(owned[..|owned| - 1]) + owned[|owned| - 1]
  }

  lemma {:induction false} SumUpdate(owned: seq<multiset<Frame>>, i: nat, x: multiset<Frame>)
    requires i < |owned|
    ensures Sum(owned[i := x]) + owned[i] == Sum(owned) + x
    decreases |owned|
  {
    var n := |owned| - 1;
    var rest, owned' := owned[..n], owned[i := x];
    if i == n {
      assert owned'[..n] == rest;
    } else {
      SumUpdate(rest, i, x);
      assert owned'[..n] == rest[i := x] && rest[i] == owned[i];
      AddBoth(Sum(rest[i := x]), Sum(rest), owned[n], owned[i], x);
    }
  }

  /** What leaves one cache and arrives at the clients. */
  lemma Handed(owned: seq<multiset<Frame>>, i: nat, x: multiset<Frame>, before: multiset<Frame>, after: multiset<Frame>)
    requires i < |owned| && x + after == owned[i] + before
    ensures Sum(owned[i := x]) + after == Sum(owned) + before
  {
    SumUpdate(owned, i, x);
    var a, b := Sum(owned[i := x]), Sum(owned);
    forall f ensures (a + after)[f] == (b + before)[f] {
      assert (a + owned[i])[f] == (b + x)[f] && (x + after)[f] == (owned[i] + before)[f];
    }
  }

  /** What moves from one cache to another. */
  lemma Moved(owned: seq<multiset<Frame>>, i: nat, x: multiset<Frame>, k: nat, y: multiset<Frame>)
    requires i < |owned| && k < |owned| && i != k && x + y == owned[i] + owned[k]
    ensures Sum(owned[i := x][k := y]) == Sum(owned)
  {
    SumUpdate(owned, i, x);
    SumUpdate(owned[i := x], k, y);
    var a, b, c := Sum(owned[i := x][k := y]), Sum(owned[i := x]), Sum(owned);
    forall f ensures a[f] == c[f] {
      assert (b + owned[i])[f] == (c + x)[f] && (a + owned[k])[f] == (b + y)[f] &&
        (x + y)[f] == (owned[i] + owned[k])[f];
    }
  }

  /** A base page or a large page, aligned; Sound says that its node is that of the memory it lies in. */
  predicate OnePage(f: Frame) {
    IsPage(f, BASE_PAGE_SIZE, f.affinity) || IsPage(f, LARGE_PAGE_SIZE, f.affinity)
  }

  ghost predicate AllPages(fs: seq<Frame>) {
    forall i :: 0 <= i < |fs| ==> OnePage(fs[i])
  }

  // ----- the machine

  class Machine {
    const caches: seq<MCache>
    var hands: seq<Frame>

    ghost predicate Valid()
      reads this, caches
    {
      && AllPages(hands)
      && (forall i, j :: 0 <= i < j < |caches| ==> caches[i] != caches[j])
      && (forall i :: 0 <= i < |caches| ==> caches[i].Valid())
    }

    /** What each cache owns. */
    ghost function Owned(): (owned: seq<multiset<Frame>>)
      reads this, caches
      ensures |owned| == |caches| && forall i :: 0 <= i < |caches| ==> owned[i] == caches[i].Owned()
    {
      seq(|caches|, i requires 0 <= i < |caches| reads caches => caches[i].Owned())
    }

    /** All pages, with the caches or with clients. */
    ghost function Total(): multiset<Frame>
      reads this, caches
    {
      Sum(Owned()) + multiset(hands)
    }

    constructor (caches: seq<MCache>)
      requires forall i, j :: 0 <= i < j < |caches| ==> caches[i] != caches[j]
      requires forall i :: 0 <= i < |caches| ==> caches[i].Valid()
      ensures Valid() && this.caches == caches && hands == []
    {
      this.caches := caches;
      hands := [];
    }

    method Allocate(i: nat, large: bool)
      requires Valid() && i < |caches|
      modifies this`hands, caches[i]
      ensures Valid() && Total() == old(Total())
      ensures |hands| == |old(hands)| + Min(1, if large then |old(caches[i].large)| else |old(caches[i].base)|)
    {
      hide Pages, Aligned, Sum, OnePage;
      ghost var owned, held := Owned(), hands;
      var c := caches[i];
      var given := TakeOne(c, large);
      hands := hands + given;
      assert Owned() == owned[i := c.Owned()];
      Handed(owned, i, c.Owned(), multiset(held), multiset(hands));
    }

    /** A client gives a page back; if the cache does not take it, the client keeps it. */
    method Release(i: nat, k: nat, large: bool)
      requires Valid() && i < |caches| && k < |hands|
      modifies this`hands, caches[i]
      ensures Valid() && Total() == old(Total())
    {
      hide Pages, Aligned, Sum, OnePage;
      ghost var owned, held := Owned(), hands;
      var c, r := caches[i], Done;
      if large {
        r := c.ReleaseLargePage(hands[k]);
      } else {
        r := c.ReleaseBasePage(hands[k]);
      }
      if r.Done? {
        TakenOut(hands, k);
        hands := hands[..k] + hands[k + 1..];
      }
      assert Owned() == owned[i := c.Owned()];
      Handed(owned, i, c.Owned(), multiset(held), multiset(hands));
    }

    /** A client gives several pages at once; when the cache fills up it keeps the remaining ones. */
    method Grow(i: nat, count: nat, large: bool)
      requires Valid() && i < |caches| && count <= |hands|
      modifies this`hands, caches[i]
      ensures Valid() && Total() == old(Total())
    {
      hide Pages, Aligned, Sum, OnePage;
      ghost var owned, held := Owned(), hands;
      var c, at := caches[i], |hands| - count;
      var list := hands[at..];
      var moved := Give(c, list, large);
      SplitUp(hands, at, moved);
      hands := hands[..at] + list[moved..];
      assert Owned() == owned[i := c.Owned()];
      Handed(owned, i, c.Owned(), multiset(held), multiset(hands));
    }

    /** Pages are reclaimed from a cache through a list. */
    method Reap(i: nat, count: nat, large: bool)
      requires Valid() && i < |caches|
      modifies this`hands, caches[i]
      ensures Valid() && Total() == old(Total())
      ensures |hands| == |old(hands)| + Min(count, if large then |old(caches[i].large)| else |old(caches[i].base)|)
    {
      hide Pages, Aligned, Sum, OnePage;
      ghost var owned, held := Owned(), hands;
      var c := caches[i];
      var given := TakeBack(c, count, large);
      hands := hands + given;
      assert Owned() == owned[i := c.Owned()];
      Handed(owned, i, c.Owned(), multiset(held), multiset(hands));
    }

    method Refill(t: nat, n: nat, neededBase: nat, neededLarge: nat)
      requires Valid() && t < |caches| && n < |caches| && t != n && caches[t].node == caches[n].node
      modifies caches[t], caches[n]
      ensures Valid() && Total() == old(Total())
    {
      hide Pages, Aligned, Sum;
      ghost var owned := Owned();
      var ok := TryRefill(caches[t], caches[n], neededBase, neededLarge);
      assert Owned() == owned[t := caches[t].Owned()][n := caches[n].Owned()];
      Moved(owned, t, caches[t].Owned(), n, caches[n].Owned());
    }

    /** One operation; one that names no cache or no page does nothing. */
    method Perform(op: Op)
      requires Valid()
      modifies this`hands, caches
      ensures Valid() && Total() == old(Total())
    {
      hide Valid, Total;
      match op
      case Allocate(c, large) => if c < |caches| { Allocate(c, large); }
      case Release(c, k, large) => if c < |caches| && k < |hands| { Release(c, k, large); }
      case Grow(c, count, large) => if c < |caches| && count <= |hands| { Grow(c, count, large); }
      case Reap(c, count, large) => if c < |caches| { Reap(c, count, large); }
      case Refill(t, n, b, l) =>
        if t < |caches| && n < |caches| && t != n && caches[t].node == caches[n].node { Refill(t, n, b, l); }
    }

    /** Any run. */
    method Run(ops: seq<Op>)
      requires Valid()
      modifies this`hands, caches
      ensures Valid() && Total() == old(Total())
    {
      hide Valid, Total;
      for i := 0 to |ops|
        invariant Valid() && Total() == old(Total())
      {
        Perform(ops[i]);
      }
    }
  }

  // ----- from boot frames to any run

  /** The caches of one kind, in the order of their nodes. */
  method Build(cs: seq<Cache>, baseCapacity: nat, largeCapacity: nat) returns (caches: seq<MCache>)
    requires Proper(cs, baseCapacity, largeCapacity)
    ensures fresh(caches) && Distinct(caches) && |caches| == |cs|
    ensures forall i :: 0 <= i < |caches| ==> caches[i].Valid() && Stock(cs[i]) == caches[i].Owned()
  {
    hide Pages, Stock, Aligned;
    caches := [];
    for i := 0 to |cs|
      invariant |caches| == i && fresh(caches) && Distinct(caches)
      invariant forall k :: 0 <= k < i ==> caches[k].Valid() && Stock(cs[k]) == caches[k].Owned()
    {
      var c := new MCache.Holding(cs[i].node, baseCapacity, largeCapacity, cs[i].base, cs[i].large);
      StockOf(c, cs[i]);
      caches := caches + [c];
    }
  }

  ghost predicate Distinct(caches: seq<MCache>) {
    forall i, j :: 0 <= i < j < |caches| ==> caches[i] != caches[j]
  }

  /** Cores start with empty caches for their node. */
  method Empty(cores: seq<nat>) returns (caches: seq<MCache>)
    ensures fresh(caches) && Distinct(caches) && |caches| == |cores|
    ensures forall i :: 0 <= i < |caches| ==>
      caches[i].Valid() && caches[i].node == cores[i] && caches[i].Owned() == multiset{}
  {
    hide Pages;
    caches := [];
    for i := 0 to |cores|
      invariant |caches| == i && fresh(caches) && Distinct(caches)
      invariant forall k :: 0 <= k < i ==>
        caches[k].Valid() && caches[k].node == cores[k] && caches[k].Owned() == multiset{}
    {
      var c := new MCache(cores[i], TCACHE_BASE, TCACHE_LARGE);
      caches := caches + [c];
    }
  }

  /** The machine after set-up: the early caches, the big caches, and an empty cache for every core. */
  method Assemble(emem: seq<Cache>, ncaches: seq<Cache>, cores: seq<nat>) returns (m: Machine)
    requires Proper(emem, TCACHE_BASE, TCACHE_LARGE) && Proper(ncaches, NCACHE_BASE, NCACHE_LARGE)
    ensures fresh(m) && fresh(m.caches) && m.Valid() && m.hands == []
    ensures |m.caches| == |emem| + |ncaches| + |cores| && m.Total() == StockAll(emem) + StockAll(ncaches)
  {
    hide Proper, StockAll, Stock, Sum, Pages, Aligned;
    var a := Build(emem, TCACHE_BASE, TCACHE_LARGE);
    var b := Build(ncaches, NCACHE_BASE, NCACHE_LARGE);
    var c := Empty(cores);
    m := new Machine(a + b + c);
    TotalOfParts(m, a, b, c, emem, ncaches);
  }

  lemma TotalOfParts(m: Machine, a: seq<MCache>, b: seq<MCache>, c: seq<MCache>, xs: seq<Cache>, ys: seq<Cache>)
    requires m.caches == a + b + c && |a| == |xs| && |b| == |ys| && m.hands == []
    requires forall i :: 0 <= i < |a| ==> Stock(xs[i]) == a[i].Owned()
    requires forall i :: 0 <= i < |b| ==> Stock(ys[i]) == b[i].Owned()
    requires forall i :: 0 <= i < |c| ==> c[i].Owned() == multiset{}
    ensures m.Total() == StockAll(xs) + StockAll(ys)
  {
    hide StockAll, Stock, Sum, Pages;
    var owned, n := m.Owned(), |xs| + |ys|;
    forall i | |xs| <= i < n ensures owned[i] == Stock(ys[i - |xs|]) {
      assert m.caches[i] == b[i - |xs|];
    }
    forall i | n <= i < |owned| ensures owned[i] == multiset{} {
      assert m.caches[i] == c[i - n];
    }
    SumOfParts(owned, xs, ys);
  }

  lemma SumOfParts(owned: seq<multiset<Frame>>, xs: seq<Cache>, ys: seq<Cache>)
    requires |xs| + |ys| <= |owned|
    requires forall i :: 0 <= i < |xs| ==> owned[i] == Stock(xs[i])
    requires forall i :: |xs| <= i < |xs| + |ys| ==> owned[i] == Stock(ys[i - |xs|])
    requires forall i :: |xs| + |ys| <= i < |owned| ==> owned[i] == multiset{}
    ensures Sum(owned) == StockAll(xs) + StockAll(ys)
  {
    hide Stock, StockAll, Sum;
    var n := |xs| + |ys|;
    var a, b := owned[..|xs|], owned[|xs|..n];
    SumOfStock(xs, a);
    SumOfStock(ys, b);
    SumOfNothing(owned[n..]);
    assert owned[..n] == a + b && owned == owned[..n] + owned[n..];
    SumAppend(a, b);
    SumAppend(owned[..n], owned[n..]);
  }

  lemma {:induction false} SumAppend(a: seq<multiset<Frame>>, b: seq<multiset<Frame>>)
    ensures Sum(a + b) == Sum(a) + Sum(b)
    decreases |b|
  {
    if b == [] {
      assert a + b == a;
    } else {
      var n := |b| - 1;
      SumAppend(a, b[..n]);
      assert (a + b)[..|a| + n] == a + b[..n];
    }
  }

  lemma {:induction false} SumOfStock(cs: seq<Cache>, owned: seq<multiset<Frame>>)
    requires |owned| == |cs| && forall i :: 0 <= i < |cs| ==> owned[i] == Stock(cs[i])
    ensures Sum(owned) == StockAll(cs)
    decreases |cs|
  {
    hide Stock;
    if cs != [] {
      var n := |cs| - 1;
      SumOfStock(cs[..n], owned[..n]);
    }
  }

  lemma {:induction false} SumOfNothing(owned: seq<multiset<Frame>>)
    requires forall i :: 0 <= i < |owned| ==> owned[i] == multiset{}
    ensures Sum(owned) == multiset{}
    decreases |owned|
  {
    if owned != [] {
      SumOfNothing(owned[..|owned| - 1]);
    }
  }

  lemma HandsArePages(m: Machine)
    requires m.Valid()
    ensures AllPages(m.hands)
  {
  }

  /**
   From boot frames through set-up and any run: no byte has two owners among the backing pages, the
   caches and the clients, everything is boot memory of its own node, and what a client holds is
   one aligned page.
   */
  method BootAndRun(boot: seq<Frame>, cores: seq<nat>, ops: seq<Op>) returns (m: Machine?, backing: seq<Frame>)
    requires AllPaged(boot) && Apart(multiset(boot))
    ensures m != null <==> Bootable(boot)
    ensures m != null ==> m.Valid() && AllPages(m.hands) && AllPages(backing)
    ensures m != null ==> Sound(multiset(backing) + m.Total(), boot)
  {
    hide Sound, Apart, Proper, StockAll, AllPaged, Bootable, NearlyAll, Machine.Valid, Machine.Total;
    var r := New(boot);
    if r.Failure? {
      return null, [];
    }
    var machine := Assemble(r.emem, r.ncaches, cores);
    ghost var total := machine.Total();
    assert multiset(r.backing) + StockAll(r.emem) + StockAll(r.ncaches) == multiset(r.backing) + total;
    machine.Run(ops);
    HandsArePages(machine);
    return machine, r.backing;
  }

  /** Grow a cache with a list of pages, and count how many it took. */
  method Give(c: MCache, list: seq<Frame>, large: bool) returns (moved: nat)
    requires c.Valid()
    modifies c
    ensures c.Valid() && moved <= |list| && c.Owned() == old(c.Owned()) + multiset(list[..moved])
  {
    hide Pages, Aligned;
    var before := if large then |c.large| else |c.base|;
    ghost var taken;
    var r;
    if large {
      r, taken := c.GrowLargePages(list);
    } else {
      r, taken := c.GrowBasePages(list);
    }
    moved := (if large then |c.large| else |c.base|) - before;
  }

  /** Allocate a page, if there is one. */
  method TakeOne(c: MCache, large: bool) returns (pages: seq<Frame>)
    requires c.Valid()
    modifies c
    ensures c.Valid() && AllPages(pages) && c.Owned() + multiset(pages) == old(c.Owned())
    ensures |pages| == Min(1, if large then |old(c.large)| else |old(c.base)|)
  {
    hide Pages, Aligned;
    var r;
    if large {
      r := c.AllocateLargePage();
    } else {
      r := c.AllocateBasePage();
    }
    pages := if r.Some? then [r.value] else [];
  }

  /** Reap a list full of pages. */
  method TakeBack(c: MCache, count: nat, large: bool) returns (pages: seq<Frame>)
    requires c.Valid()
    modifies c
    ensures c.Valid() && AllPages(pages) && c.Owned() + multiset(pages) == old(c.Owned())
    ensures |pages| == Min(count, if large then |old(c.large)| else |old(c.base)|)
  {
    hide Pages, Aligned;
    var list := new Option<Frame>[count](j => None);
    ghost var given;
    if large {
      given := c.ReapLargePages(list);
    } else {
      given := c.ReapBasePages(list);
    }
    pages := Collect(list, given);
  }

  /** Take over what a list was filled with. */
  method Collect(list: array<Option<Frame>>, ghost given: seq<Frame>) returns (pages: seq<Frame>)
    requires |given| <= list.Length && (forall j :: 0 <= j < |given| ==> list[j] == Some(given[j]))
    requires forall j :: |given| <= j < list.Length ==> list[j].None?
    ensures pages == given
  {
    pages := [];
    var j := 0;
    while j < list.Length && list[j].Some?
      invariant 0 <= j <= |given| && pages == given[..j]
    {
      pages := pages + [list[j].value];
      j := j + 1;
    }
  }

  lemma TakenOut(hands: seq<Frame>, k: nat)
    requires k < |hands|
    ensures multiset(hands[..k] + hands[k + 1..]) + multiset{hands[k]} == multiset(hands)
  {
    assert hands == hands[..k] + [hands[k]] + hands[k + 1..];
  }

  lemma SplitUp(hands: seq<Frame>, at: nat, moved: nat)
    requires at + moved <= |hands|
    ensures multiset(hands[..at] + hands[at..][moved..]) + multiset(hands[at..][..moved]) == multiset(hands)
  {
    assert hands == hands[..at] + hands[at..][..moved] + hands[at..][moved..];
  }
}
