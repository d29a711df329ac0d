/**
 The boot loader's `VSpace`: `map_generic` fills the four-level tables with the largest pages
 that fit, allocating tables on the way.
 */
module VSpaceModule {
  import opened Arith
  import opened Paging

  // ----- the largest possible pages

  /** The whole block of this level around the address is absent. */
  ghost predicate Vacant(f: Found, level: nat) {
    f.Hole? && f.level >= level
  }

  /** The address is mapped by an entry of at least this level. */
  ghost predicate BigAt(mem: Memory, root: nat, c: nat, level: nat) {
    var f := Look(mem, root, c);
    f.Leaf? && f.level >= level
  }

  /** A naturally aligned block of the request whose physical memory is aligned the same way. */
  ghost predicate Fits(c: nat, level: nat, lo: nat, hi: nat, pbase: nat) {
    c % Span(level) == 0 && lo <= c && c + Span(level) <= hi && (pbase - lo) % Span(level) == 0
  }

  /** Every 2 MiB or 1 GiB block that fits, starts before `upto` and was vacant, got one entry of that size or more. */
  ghost predicate BigPages(root: nat, m0: Memory, m1: Memory, lo: nat, hi: nat, upto: nat, pbase: nat) {
    forall c, level ::
      2 <= level <= 3 && 0 <= c < upto && Fits(c, level, lo, hi, pbase) && Vacant(Look(m0, root, c), level) ==>
      BigAt(m1, root, c, level)
  }

  /** The request could not use an entry of this level for its first address. */
  ghost predicate FirstTooSmall(root: nat, m0: Memory, lo: nat, hi: nat, pbase: nat, level: nat) {
    !(Fits(lo, level, lo, hi, pbase) && Vacant(Look(m0, root, lo), level))
  }

  lemma BigFromRun(root: nat, m0: Memory, m1: Memory, lo: nat, hi: nat, mid: nat, pbase: nat, level: nat)
    requires 1 <= level <= 3 && lo <= mid <= hi && mid <= lo / Span(level + 1) * Span(level + 1) + Span(level + 1)
    requires LeafLevel(m1, root, lo, mid, level)
    requires forall l :: level < l <= 3 ==> FirstTooSmall(root, m0, lo, hi, pbase, l)
    ensures BigPages(root, m0, m1, lo, hi, mid, pbase)
  {
    forall c, l | 2 <= l <= 3 && 0 <= c < mid && Fits(c, l, lo, hi, pbase) && Vacant(Look(m0, root, c), l)
      ensures BigAt(m1, root, c, l)
    {
      assert lo <= c < mid;
      assert level < l ==> FirstTooSmall(root, m0, lo, hi, pbase, l);
      if level < l {
        AlignedIsFirst(level, l, lo, c);
      }
    }
  }

  /** An aligned address of the block around `lo`, not below `lo`, is `lo`. */
  lemma AlignedIsFirst(level: nat, l: nat, lo: nat, c: nat)
    requires 1 <= level < l <= 3
    requires c % Span(l) == 0 && lo <= c < lo / Span(level + 1) * Span(level + 1) + Span(level + 1)
    ensures c == lo
  {
    var s, m := Span(level + 1), lo / Span(level + 1);
    if l > level + 1 {
      var q := c / Span(l);
      assert c == s * (512 * q);
      DivUnique(s, 512 * q, 0);
    }
    DivUnique(s, m, c - s * m);
  }

  lemma BigTrans(root: nat, m0: Memory, m1: Memory, m2: Memory, lo: nat, mid: nat, hi: nat, pbase: nat,
                 rights: MapAction)
    requires lo < mid < hi <= VA_LIMIT
    requires Maps(root, m0, m1, lo, mid, pbase, rights)
    requires Maps(root, m1, m2, mid, hi, pbase + (mid - lo), rights)
    requires BigPages(root, m0, m1, lo, hi, mid, pbase)
    requires BigPages(root, m1, m2, mid, hi, hi, pbase + (mid - lo))
    ensures BigPages(root, m0, m2, lo, hi, hi, pbase)
  {
    forall c, l | 2 <= l <= 3 && 0 <= c < hi && Fits(c, l, lo, hi, pbase) && Vacant(Look(m0, root, c), l)
      ensures BigAt(m2, root, c, l)
    {
      assert Changed(Look(m0, root, c), Look(m1, root, c), c, lo, mid, pbase, rights);
      assert Changed(Look(m1, root, c), Look(m2, root, c), c, mid, hi, pbase + (mid - lo), rights);
      if c < mid {
        assert BigAt(m1, root, c, l);
      } else {
        assert c / Span(l) * Span(l) == c;
        assert Apart(l, c, lo, mid);
        assert Fits(c, l, mid, hi, pbase + (mid - lo));
        assert BigAt(m2, root, c, l);
      }
    }
  }

  // ----- when a request completes

  ghost predicate EarlierVacant(root: nat, m0: Memory, c: nat, v: nat, level: nat, lo: nat, hi: nat, pbase: nat) {
    && Fits(c, level, lo, hi, pbase)
    && c < v / Span(level) * Span(level)
    && c / Span(level + 1) == v / Span(level + 1)
    && Vacant(Look(m0, root, c), level)
  }

  /** The block of this level around `v` fits the request, and so does an earlier one of the same table
      that was vacant: the loop that starts there writes over `v`'s entry without looking at it. */
  ghost predicate Skipped(root: nat, m0: Memory, v: nat, level: nat, lo: nat, hi: nat, pbase: nat) {
    && Fits(v / Span(level) * Span(level), level, lo, hi, pbase)
    && exists c: nat :: EarlierVacant(root, m0, c, v, level, lo, hi, pbase)
  }

  /** The request gets past this address without a panic. */
  ghost predicate Tolerated(root: nat, m0: Memory, v: nat, lo: nat, hi: nat, pbase: nat) {
    Look(m0, root, v).Hole? || Skipped(root, m0, v, 2, lo, hi, pbase) || Skipped(root, m0, v, 3, lo, hi, pbase)
  }

  ghost predicate TolerantFrom(root: nat, m0: Memory, start: nat, lo: nat, hi: nat, pbase: nat) {
    forall v: nat :: start <= v < hi ==> Tolerated(root, m0, v, lo, hi, pbase)
  }

  /** Exactly when a well-formed request completes. An empty request still asserts that no big page covers its base. */
  ghost predicate NoPanic(root: nat, m0: Memory, lo: nat, hi: nat, pbase: nat) {
    && TolerantFrom(root, m0, lo, lo, hi, pbase)
    && (lo == hi ==> !BigAt(m0, root, lo, 2))
  }

  /** No vacant block before `mid` can make the request skip an address from `mid` on. */
  ghost predicate Closed(root: nat, m0: Memory, lo: nat, mid: nat, hi: nat, pbase: nat) {
    forall c: nat, v: nat, level: nat ::
      2 <= level <= 3 && c < mid <= v < hi && EarlierVacant(root, m0, c, v, level, lo, hi, pbase) ==>
      !Fits(v / Span(level) * Span(level), level, lo, hi, pbase)
  }

  /** Whether the rest of a request completes can be told before the request starts. */
  lemma TolerantLater(root: nat, m0: Memory, m1: Memory, lo: nat, mid: nat, hi: nat, pbase: nat, rights: MapAction)
    requires lo < mid < hi <= VA_LIMIT
    requires Maps(root, m0, m1, lo, mid, pbase, rights) && Closed(root, m0, lo, mid, hi, pbase)
    ensures TolerantFrom(root, m0, mid, lo, hi, pbase) <==> NoPanic(root, m1, mid, hi, pbase + (mid - lo))
  {
    hide Look, Tolerated, Maps, Closed;
    var p1 := pbase + (mid - lo);
    forall v: nat | mid <= v < hi
      ensures Tolerated(root, m0, v, lo, hi, pbase) <==> Tolerated(root, m1, v, mid, hi, p1)
    {
      ToleratedLater(root, m0, m1, v, lo, mid, hi, pbase, rights);
    }
    assert TolerantFrom(root, m0, mid, lo, hi, pbase) <==> TolerantFrom(root, m1, mid, mid, hi, p1);
  }

  lemma ToleratedLater(root: nat, m0: Memory, m1: Memory, v: nat, lo: nat, mid: nat, hi: nat, pbase: nat,
                       rights: MapAction)
    requires lo < mid <= v < hi <= VA_LIMIT
    requires Maps(root, m0, m1, lo, mid, pbase, rights) && Closed(root, m0, lo, mid, hi, pbase)
    ensures Tolerated(root, m0, v, lo, hi, pbase) <==> Tolerated(root, m1, v, mid, hi, pbase + (mid - lo))
  {
    assert Changed(Look(m0, root, v), Look(m1, root, v), v, lo, mid, pbase, rights);
    SkippedLater(root, m0, m1, v, 2, lo, mid, hi, pbase, rights);
    SkippedLater(root, m0, m1, v, 3, lo, mid, hi, pbase, rights);
  }

  lemma SkippedLater(root: nat, m0: Memory, m1: Memory, v: nat, level: nat, lo: nat, mid: nat, hi: nat, pbase: nat,
                     rights: MapAction)
    requires lo < mid <= v < hi <= VA_LIMIT && 2 <= level <= 3
    requires Maps(root, m0, m1, lo, mid, pbase, rights) && Closed(root, m0, lo, mid, hi, pbase)
    ensures Skipped(root, m0, v, level, lo, hi, pbase) <==> Skipped(root, m1, v, level, mid, hi, pbase + (mid - lo))
  {
    if Skipped(root, m0, v, level, lo, hi, pbase) {
      var c: nat :| EarlierVacant(root, m0, c, v, level, lo, hi, pbase);
      assert c >= mid;
      VacantLater(root, m0, m1, c, level, lo, mid, pbase, rights);
      assert EarlierVacant(root, m1, c, v, level, mid, hi, pbase + (mid - lo));
    }
    if Skipped(root, m1, v, level, mid, hi, pbase + (mid - lo)) {
      var c: nat :| EarlierVacant(root, m1, c, v, level, mid, hi, pbase + (mid - lo));
      VacantLater(root, m0, m1, c, level, lo, mid, pbase, rights);
      assert EarlierVacant(root, m0, c, v, level, lo, hi, pbase);
    }
  }

  lemma VacantLater(root: nat, m0: Memory, m1: Memory, c: nat, level: nat, lo: nat, mid: nat, pbase: nat,
                    rights: MapAction)
    requires lo < mid <= c < VA_LIMIT && 2 <= level <= 3 && c % Span(level) == 0
    requires Maps(root, m0, m1, lo, mid, pbase, rights)
    ensures Vacant(Look(m0, root, c), level) <==> Vacant(Look(m1, root, c), level)
  {
    assert Changed(Look(m0, root, c), Look(m1, root, c), c, lo, mid, pbase, rights);
    assert c / Span(level) * Span(level) == c;
  }

  // ----- what the completion condition means for a caller

  /** A request into unmapped memory completes. */
  lemma ClearCompletes(root: nat, m0: Memory, lo: nat, hi: nat, pbase: nat)
    requires Clear(m0, root, lo, hi) && Look(m0, root, lo).Hole?
    ensures NoPanic(root, m0, lo, hi, pbase)
  {
  }

  /** When physical and virtual base differ modulo 2 MiB, a request completes exactly if its range is unmapped. */
  lemma IncongruentCompletes(root: nat, m0: Memory, lo: nat, hi: nat, pbase: nat)
    requires lo < hi && (pbase - lo) % LARGE_PAGE_SIZE != 0
    ensures NoPanic(root, m0, lo, hi, pbase) <==> Clear(m0, root, lo, hi)
  {
    hide Look;
    assert (pbase - lo) % HUGE_PAGE_SIZE != 0 by {
      var q := (pbase - lo) / HUGE_PAGE_SIZE;
      assert (pbase - lo) % HUGE_PAGE_SIZE == 0 ==> pbase - lo == LARGE_PAGE_SIZE * (512 * q);
    }
    forall v: nat | lo <= v < hi ensures Tolerated(root, m0, v, lo, hi, pbase) <==> Look(m0, root, v).Hole? {
      assert !Skipped(root, m0, v, 2, lo, hi, pbase) && !Skipped(root, m0, v, 3, lo, hi, pbase);
    }
    if NoPanic(root, m0, lo, hi, pbase) {
      forall v | lo <= v < hi ensures Look(m0, root, v).Hole? {
        assert Tolerated(root, m0, v, lo, hi, pbase);
      }
    }
  }

  /** A completed request resolves to its physical range inside, and changes no other translation. */
  lemma MapsResolve(root: nat, m0: Memory, tags0: map<nat, Tag>, m1: Memory, tags1: map<nat, Tag>, lo: nat, hi: nat,
                    pbase: nat, rights: MapAction, v: nat)
    requires WellFormed(root, m0, tags0) && WellFormed(root, m1, tags1) && v < VA_LIMIT
    requires Maps(root, m0, m1, lo, hi, pbase, rights)
    ensures lo <= v < hi ==> ResolveAddr(m1, root, tags1, v) == At(pbase + (v - lo))
    ensures !(lo <= v < hi) ==> ResolveAddr(m1, root, tags1, v) == ResolveAddr(m0, root, tags0, v)
  {
    hide Look, WellFormed, ResolveAddr;
    ResolveIsWalk(root, m0, tags0, v);
    ResolveIsWalk(root, m1, tags1, v);
    assert Changed(Look(m0, root, v), Look(m1, root, v), v, lo, hi, pbase, rights);
  }

  /** After a run of this level that ended with its table, or with less than one block to go. */
  lemma RunCloses(root: nat, m0: Memory, lo: nat, mid: nat, hi: nat, pbase: nat, level: nat)
    requires 1 <= level <= 3 && lo < mid <= hi && mid % Span(level) == 0
    requires mid <= lo / Span(level + 1) * Span(level + 1) + Span(level + 1)
    requires hi - mid < Span(level) || mid == lo / Span(level + 1) * Span(level + 1) + Span(level + 1)
    requires forall l :: level < l <= 3 ==> FirstTooSmall(root, m0, lo, hi, pbase, l)
    ensures Closed(root, m0, lo, mid, hi, pbase)
  {
    hide Look, Fits, EarlierVacant, FirstTooSmall;
    forall c: nat, v: nat, l: nat | 2 <= l <= 3 && level < l && c < mid <= v < hi
      ensures !EarlierVacant(root, m0, c, v, l, lo, hi, pbase)
    {
      assert FirstTooSmall(root, m0, lo, hi, pbase, l);
      ClosesAbove(root, m0, lo, mid, hi, pbase, level, c, v, l);
    }
    forall c: nat, v: nat, l: nat | 2 <= l <= level && c < mid <= v < hi &&
      EarlierVacant(root, m0, c, v, l, lo, hi, pbase)
      ensures !Fits(v / Span(l) * Span(l), l, lo, hi, pbase)
    {
      ClosesBelow(root, m0, lo, mid, hi, pbase, level, c, v, l);
    }
  }

  lemma ClosesAbove(root: nat, m0: Memory, lo: nat, mid: nat, hi: nat, pbase: nat, level: nat, c: nat, v: nat, l: nat)
    requires 1 <= level < l <= 3 && lo < mid <= hi && mid <= lo / Span(level + 1) * Span(level + 1) + Span(level + 1)
    requires FirstTooSmall(root, m0, lo, hi, pbase, l) && c < mid <= v < hi
    ensures !EarlierVacant(root, m0, c, v, l, lo, hi, pbase)
  {
    hide Look;
    if Fits(c, l, lo, hi, pbase) {
      AlignedIsFirst(level, l, lo, c);
    }
  }

  lemma ClosesBelow(root: nat, m0: Memory, lo: nat, mid: nat, hi: nat, pbase: nat, level: nat, c: nat, v: nat, l: nat)
    requires 2 <= l <= level <= 3 && lo < mid <= hi && mid % Span(level) == 0
    requires hi - mid < Span(level) || mid == lo / Span(level + 1) * Span(level + 1) + Span(level + 1)
    requires c < mid <= v < hi && EarlierVacant(root, m0, c, v, l, lo, hi, pbase)
    ensures !Fits(v / Span(l) * Span(l), l, lo, hi, pbase)
  {
    hide Look;
    DivAcross(Span(level), c, mid, v);
    if l == level && mid == lo / Span(level + 1) * Span(level + 1) + Span(level + 1) {
      DivUnique(Span(level + 1), lo / Span(level + 1) + 1, 0);
      DivAcross(Span(level + 1), c, mid, v);
    }
  }

  // ----- the address space

  /** What `map_generic` asserts of its arguments. */
  predicate Acceptable(vbase: nat, pbase: nat, psize: nat, rights: MapAction) {
    && pbase % BASE_PAGE_SIZE == 0
    && psize % BASE_PAGE_SIZE == 0
    && vbase % BASE_PAGE_SIZE == 0
    && rights != NoAccess
  }

  lemma FreshPage(used: set<nat>) returns (a: nat)
    ensures a % BASE_PAGE_SIZE == 0 && forall x :: x in used ==> x < a
  {
    if used == {} {
      a := 0;
    } else {
      var x :| x in used;
      var b := FreshPage(used - {x});
      a := (b + x + 1) * BASE_PAGE_SIZE;
      assert forall y :: y in used ==> y == x || y in used - {x};
    }
  }

  /** How a request ends: what holds if it completes, and when it completes. */
  ghost predicate Outcome(root: nat, m0: Memory, m1: Memory, vbase: nat, pbase: nat, psize: nat, rights: MapAction,
                          ok: bool)
  {
    && (ok ==> Maps(root, m0, m1, vbase, vbase + psize, pbase, rights))
    && (ok ==> BigPages(root, m0, m1, vbase, vbase + psize, vbase + psize, pbase))
    && (ok <==> NoPanic(root, m0, vbase, vbase + psize, pbase))
  }

  class VSpace {
    const root: nat
    var mem: Memory
    ghost var tags: map<nat, Tag>

    ghost predicate Valid()
      reads this
    {
      WellFormed(root, mem, tags)
    }

    /** A new address space: one zeroed page for the top-level table. */
    constructor (pml4: nat)
      ensures Valid() && root == pml4
      ensures forall v: nat :: v < VA_LIMIT ==> Look(mem, root, v) == Hole(4)
    {
      root := pml4;
      mem := map[pml4 := EmptyTable()];
      tags := map[pml4 := Tag(4, 0)];
      new;
      forall v: nat | v < VA_LIMIT ensures Look(mem, root, v) == Hole(4) {
      }
    }

    /** `resolve_addr` */
    function Resolve(v: nat): Resolved
      requires Valid()
      reads this
    {
      ResolveAddr(mem, root, tags, v)
    }

    /** `allocate_one_page`: some page that no table uses. */
    method AllocateOnePage() returns (a: nat)
      ensures a % BASE_PAGE_SIZE == 0 && a !in mem
    {
      ghost var unused := FreshPage(mem.Keys);
      assert unused !in mem;
      a :| a % BASE_PAGE_SIZE == 0 && a !in mem;
    }

    /** `new_pdpt`, `new_pd` and `new_pt`: the absent slot gets an empty table. */
    method NewTable(t: nat, i: nat, ghost m0: Memory, ghost v: nat, ghost pbase: nat, ghost rights: MapAction)
      requires t in mem && t in tags && tags[t].level >= 2 &&
        OnPath(root, m0, mem, tags, t, tags[t].level, v, pbase, rights)
      requires i == Index(tags[t].level, v) && |mem[t]| == 512 && mem[t][i] == Absent
      modifies this
      ensures t in mem && |mem[t]| == 512 && mem[t][i].Table?
      ensures OnPath(root, m0, mem, tags, mem[t][i].table, old(tags[t].level) - 1, v, pbase, rights)
    {
      var n := AllocateOnePage();
      PathNew(root, m0, mem, tags, t, n, v, pbase, rights);
      tags := tags[n := ChildTag(tags[t], i)];
      mem := mem[t := mem[t][i := Table(n)]][n := EmptyTable()];
    }

    /** The huge-page and large-page loops: entries are written without looking at what they replace. */
    method FillRun(level: nat, t: nat, start: nat, vbase: nat, pbase: nat, psize: nat, rights: MapAction)
      returns (mapped: nat)
      requires Valid() && t in mem && 2 <= level <= 3 && tags[t].level == level && start < 512
      requires vbase < VA_LIMIT && Reach(mem, root, 4, t, level, vbase)
      requires vbase == SlotBase(tags[t], start) && pbase % Span(level) == 0 && psize >= Span(level)
      modifies this`mem
      ensures Running(root, old(mem), mem, tags, t, vbase, mapped, pbase, rights)
      ensures Span(level) <= mapped <= psize
      ensures psize - mapped < Span(level) || vbase + mapped == SlotBase(tags[t], 512)
    {
      hide RunAt, Running, Reach;
      var idx := start;
      mapped := 0;
      RunStart(root, mem, tags, t, start, vbase, pbase, rights);
      while mapped < psize && psize - mapped >= Span(level) && idx < 512
        invariant start <= idx <= 512 && mapped <= psize && (if idx > start then mapped >= Span(level) else mapped == 0)
        invariant RunAt(root, old(mem), mem, tags, t, idx, vbase, mapped, pbase, rights) && t in mem && |mem[t]| == 512
        invariant vbase + mapped == SlotBase(tags[t], idx)
        invariant Running(root, old(mem), mem, tags, t, vbase, mapped, pbase, rights)
        decreases 512 - idx
      {
        var mem' := Write(mem, t, idx, Page(pbase + mapped, rights));
        RunStep(root, old(mem), mem, mem', tags, t, idx, vbase, mapped, pbase, rights);
        mem, idx, mapped := mem', idx + 1, mapped + Span(level);
      }
    }

    /** The 4 KiB loop: stops with a panic at the first entry that is present. */
    method BaseRun(t: nat, start: nat, vbase: nat, pbase: nat, psize: nat, rights: MapAction)
      returns (ok: bool, mapped: nat)
      requires Valid() && t in mem && tags[t].level == 1 && start < 512
      requires vbase < VA_LIMIT && Reach(mem, root, 4, t, 1, vbase)
      requires vbase == SlotBase(tags[t], start) && pbase % BASE_PAGE_SIZE == 0 && psize % BASE_PAGE_SIZE == 0
      modifies this`mem
      ensures Running(root, old(mem), mem, tags, t, vbase, mapped, pbase, rights)
      ensures mapped <= psize && (ok && psize > 0 ==> mapped > 0)
      ensures ok ==> mapped == psize || vbase + mapped == SlotBase(tags[t], 512)
      ensures !ok ==> vbase + mapped < SlotBase(tags[t], 512)
      ensures Clear(old(mem), root, vbase, vbase + mapped)
      ensures !ok ==> mapped < psize && Look(old(mem), root, vbase + mapped).Leaf?
    {
      hide RunAt, Running, Reach, Look;
      var idx := start;
      mapped := 0;
      ok := true;
      RunStart(root, mem, tags, t, start, vbase, pbase, rights);
      while mapped < psize && idx < 512
        invariant start <= idx <= 512 && mapped <= psize && (idx > start ==> mapped > 0)
        invariant mapped % BASE_PAGE_SIZE == 0
        invariant RunAt(root, old(mem), mem, tags, t, idx, vbase, mapped, pbase, rights) && t in mem && |mem[t]| == 512
        invariant vbase + mapped == SlotBase(tags[t], idx)
        invariant Running(root, old(mem), mem, tags, t, vbase, mapped, pbase, rights)
        invariant Clear(old(mem), root, vbase, vbase + mapped)
        decreases 512 - idx
      {
        ModNext(BASE_PAGE_SIZE, mapped, psize);
        SlotSeen(root, old(mem), mem, tags, t, idx, vbase, mapped, pbase, rights);
        if !mem[t][idx].Absent? {
          return false, mapped;
        }
        var mem' := Write(mem, t, idx, Page(pbase + mapped, rights));
        RunStep(root, old(mem), mem, mem', tags, t, idx, vbase, mapped, pbase, rights);
        mem, idx, mapped := mem', idx + 1, mapped + BASE_PAGE_SIZE;
      }
    }

    /** `map_generic`. A failed assertion of the source is the result `false`. */
    method MapGeneric(vbase: nat, pbase: nat, psize: nat, rights: MapAction) returns (ok: bool)
      requires Valid() && vbase < VA_LIMIT && vbase + psize <= VA_LIMIT
      modifies this
      ensures Valid()
      ensures ok ==> Maps(root, old(mem), mem, vbase, vbase + psize, pbase, rights)
      ensures ok ==> BigPages(root, old(mem), mem, vbase, vbase + psize, vbase + psize, pbase)
      ensures ok <==>
        && pbase % BASE_PAGE_SIZE == 0 && psize % BASE_PAGE_SIZE == 0 && vbase % BASE_PAGE_SIZE == 0
        && rights != NoAccess
        && NoPanic(root, old(mem), vbase, vbase + psize, pbase)
      decreases psize, 4
    {
      hide Look, Maps, Reach, WellFormed, BigPages, OnPath;
      if !Acceptable(vbase, pbase, psize, rights) {
        return false;
      }
      ghost var m0 := mem;
      PathStart(root, mem, tags, vbase, pbase, rights);
      PathEntry(root, m0, mem, tags, root, 4, vbase, pbase, rights);
      var i4 := Index(4, vbase);
      if mem[root][i4].Absent? {
        NewTable(root, i4, m0, vbase, pbase, rights);
      } else {
        PathDown(root, m0, mem, tags, root, 4, vbase, pbase, rights);
      }
      ok := MapInPdpt(mem[root][i4].table, m0, vbase, pbase, psize, rights);
    }

    method MapInPdpt(pdpt: nat, ghost m0: Memory, vbase: nat, pbase: nat, psize: nat, rights: MapAction)
      returns (ok: bool)
      requires vbase < VA_LIMIT && vbase + psize <= VA_LIMIT && Acceptable(vbase, pbase, psize, rights)
      requires OnPath(root, m0, mem, tags, pdpt, 3, vbase, pbase, rights)
      modifies this
      ensures Valid() && Outcome(root, m0, mem, vbase, pbase, psize, rights, ok)
      decreases psize, 3
    {
      hide Look, Maps, Reach, WellFormed, BigPages, OnPath, NoPanic, FirstTooSmall;
      PathEntry(root, m0, mem, tags, pdpt, 3, vbase, pbase, rights);
      var i4, i3 := Index(4, vbase), Index(3, vbase);
      if mem[pdpt][i3].Absent? {
        HugePosition(vbase);
        if vbase == GIB_512 * i4 + HUGE_PAGE_SIZE * i3 && pbase % HUGE_PAGE_SIZE == 0 && psize >= HUGE_PAGE_SIZE {
          ok := MapBig(3, pdpt, i3, m0, vbase, pbase, psize, rights);
          return;
        }
        FirstFits(root, m0, vbase, vbase + psize, pbase, 3);
        NewTable(pdpt, i3, m0, vbase, pbase, rights);
      } else {
        if mem[pdpt][i3].Page? {
          FirstNotSkipped(root, m0, vbase, vbase + psize, pbase);
          return false;
        }
        FirstFits(root, m0, vbase, vbase + psize, pbase, 3);
        PathDown(root, m0, mem, tags, pdpt, 3, vbase, pbase, rights);
      }
      ok := MapInPd(mem[pdpt][i3].table, m0, vbase, pbase, psize, rights);
    }

    method MapInPd(pd: nat, ghost m0: Memory, vbase: nat, pbase: nat, psize: nat, rights: MapAction) returns (ok: bool)
      requires vbase < VA_LIMIT && vbase + psize <= VA_LIMIT && Acceptable(vbase, pbase, psize, rights)
      requires OnPath(root, m0, mem, tags, pd, 2, vbase, pbase, rights)
      requires FirstTooSmall(root, m0, vbase, vbase + psize, pbase, 3)
      modifies this
      ensures Valid() && Outcome(root, m0, mem, vbase, pbase, psize, rights, ok)
      decreases psize, 2
    {
      hide Look, Maps, Reach, WellFormed, BigPages, OnPath, NoPanic, FirstTooSmall;
      PathEntry(root, m0, mem, tags, pd, 2, vbase, pbase, rights);
      var i4, i3, i2 := Index(4, vbase), Index(3, vbase), Index(2, vbase);
      if mem[pd][i2].Absent? {
        LargePosition(vbase);
        if vbase == GIB_512 * i4 + HUGE_PAGE_SIZE * i3 + LARGE_PAGE_SIZE * i2 && pbase % LARGE_PAGE_SIZE == 0 &&
          psize >= LARGE_PAGE_SIZE {
          ok := MapBig(2, pd, i2, m0, vbase, pbase, psize, rights);
          return;
        }
        FirstFits(root, m0, vbase, vbase + psize, pbase, 2);
        NewTable(pd, i2, m0, vbase, pbase, rights);
      } else {
        if mem[pd][i2].Page? {
          FirstNotSkipped(root, m0, vbase, vbase + psize, pbase);
          return false;
        }
        FirstFits(root, m0, vbase, vbase + psize, pbase, 2);
        PathDown(root, m0, mem, tags, pd, 2, vbase, pbase, rights);
      }
      ok := MapBase(mem[pd][i2].table, Index(1, vbase), m0, vbase, pbase, psize, rights);
    }

    /** The 1 GiB and 2 MiB branches. */
    method MapBig(level: nat, t: nat, i: nat, ghost m0: Memory, vbase: nat, pbase: nat, psize: nat, rights: MapAction)
      returns (ok: bool)
      requires vbase < VA_LIMIT && vbase + psize <= VA_LIMIT && Acceptable(vbase, pbase, psize, rights)
      requires OnPath(root, m0, mem, tags, t, level, vbase, pbase, rights) && 2 <= level <= 3
      requires i == Index(level, vbase) && t in tags && vbase == SlotBase(tags[t], i)
      requires pbase % Span(level) == 0 && psize >= Span(level)
      requires level == 2 ==> FirstTooSmall(root, m0, vbase, vbase + psize, pbase, 3)
      requires Vacant(Look(m0, root, vbase), level) && vbase % Span(level) == 0
      modifies this
      ensures Valid() && Outcome(root, m0, mem, vbase, pbase, psize, rights, ok)
      decreases psize, 1
    {
      hide Look, Maps, Reach, WellFormed, BigPages, Running, OnPath, NoPanic, TolerantFrom, Closed;
      ghost var m1 := mem;
      PathEntry(root, m0, mem, tags, t, level, vbase, pbase, rights);
      var mapped := FillRun(level, t, i, vbase, pbase, psize, rights);
      RunFinished(root, m0, m1, mem, tags, t, level, vbase, mapped, vbase + psize, pbase, rights);
      BigTolerated(root, m0, m1, tags, t, level, vbase, vbase + mapped, vbase + psize, pbase, rights);
      ok := Continue(m0, vbase, pbase, psize, rights, mapped);
    }

    /** The 4 KiB branch. */
    method MapBase(t: nat, i: nat, ghost m0: Memory, vbase: nat, pbase: nat, psize: nat, rights: MapAction)
      returns (ok: bool)
      requires vbase < VA_LIMIT && vbase + psize <= VA_LIMIT && Acceptable(vbase, pbase, psize, rights)
      requires OnPath(root, m0, mem, tags, t, 1, vbase, pbase, rights) && i == Index(1, vbase)
      requires FirstTooSmall(root, m0, vbase, vbase + psize, pbase, 2)
      requires FirstTooSmall(root, m0, vbase, vbase + psize, pbase, 3)
      modifies this
      ensures Valid() && Outcome(root, m0, mem, vbase, pbase, psize, rights, ok)
      decreases psize, 1
    {
      hide Look, Maps, Reach, WellFormed, BigPages, Running, OnPath, NoPanic, TolerantFrom, Closed;
      ghost var m1 := mem;
      PathEntry(root, m0, mem, tags, t, 1, vbase, pbase, rights);
      var mapped;
      ok, mapped := BaseRun(t, i, vbase, pbase, psize, rights);
      RunFinished(root, m0, m1, mem, tags, t, 1, vbase, mapped, vbase + psize, pbase, rights);
      BaseTolerated(root, m0, m1, tags, t, vbase, mapped, vbase + psize, pbase, rights, ok);
      if ok {
        ok := Continue(m0, vbase, pbase, psize, rights, mapped);
      }
    }

    /** The end of each branch: done, or the recursive call for what is left. */
    method Continue(ghost m0: Memory, vbase: nat, pbase: nat, psize: nat, rights: MapAction, mapped: nat)
      returns (ok: bool)
      requires Valid() && vbase < VA_LIMIT && vbase + psize <= VA_LIMIT
      requires Acceptable(vbase, pbase, psize, rights) && mapped <= psize && mapped % BASE_PAGE_SIZE == 0
      requires mapped == 0 ==> psize == 0
      requires Maps(root, m0, mem, vbase, vbase + mapped, pbase, rights)
      requires BigPages(root, m0, mem, vbase, vbase + psize, vbase + mapped, pbase)
      requires mapped < psize ==> Closed(root, m0, vbase, vbase + mapped, vbase + psize, pbase)
      modifies this
      ensures Valid()
      ensures ok ==> Maps(root, m0, mem, vbase, vbase + psize, pbase, rights)
      ensures ok ==> BigPages(root, m0, mem, vbase, vbase + psize, vbase + psize, pbase)
      ensures ok <==> TolerantFrom(root, m0, vbase + mapped, vbase, vbase + psize, pbase)
      decreases psize, 0
    {
      hide Look, Maps, Reach, WellFormed, BigPages, Closed, Tolerated;
      ok := true;
      if mapped < psize {
        ghost var m1 := mem;
        TolerantLater(root, m0, m1, vbase, vbase + mapped, vbase + psize, pbase, rights);
        ModSum(BASE_PAGE_SIZE, vbase, mapped);
        ModSum(BASE_PAGE_SIZE, pbase, mapped);
        ok := MapGeneric(vbase + mapped, pbase + mapped, psize - mapped, rights);
        if ok {
          MapsTrans(root, m0, m1, mem, vbase, vbase + mapped, vbase + psize, pbase, rights);
          BigTrans(root, m0, m1, mem, vbase, vbase + mapped, vbase + psize, pbase, rights);
        }
      }
    }
  }

  /** The loops for big pages look only at their first entry. Here the second 1 GiB block of the second
      request holds a mapping, which is replaced and not reported. */
  method SilentOverwrite(pml4: nat) returns (first: bool, second: bool, before: Resolved, after: Resolved)
    ensures first && second && before == At(0x5000) && after == At(HUGE_PAGE_SIZE)
  {
    hide Look, Maps, BigPages, WellFormed, ResolveAddr;
    var space := new VSpace(pml4);
    ghost var m0, tags0 := space.mem, space.tags;
    ClearCompletes(space.root, m0, HUGE_PAGE_SIZE, HUGE_PAGE_SIZE + BASE_PAGE_SIZE, 0x5000);
    first := space.MapGeneric(HUGE_PAGE_SIZE, 0x5000, BASE_PAGE_SIZE, ReadKernel);
    ghost var m1, tags1 := space.mem, space.tags;
    MapsResolve(space.root, m0, tags0, m1, tags1,
                HUGE_PAGE_SIZE, HUGE_PAGE_SIZE + BASE_PAGE_SIZE, 0x5000, ReadKernel, HUGE_PAGE_SIZE);
    before := space.Resolve(HUGE_PAGE_SIZE);
    OverlapUnnoticed(space.root, m0, m1);
    second := space.MapGeneric(0, 0, 2 * HUGE_PAGE_SIZE, ReadKernel);
    MapsResolve(space.root, m1, tags1, space.mem, space.tags, 0, 2 * HUGE_PAGE_SIZE, 0, ReadKernel, HUGE_PAGE_SIZE);
    after := space.Resolve(HUGE_PAGE_SIZE);
  }

  lemma OverlapUnnoticed(root: nat, m0: Memory, m1: Memory)
    requires forall v: nat :: v < VA_LIMIT ==> Look(m0, root, v) == Hole(4)
    requires Maps(root, m0, m1, HUGE_PAGE_SIZE, HUGE_PAGE_SIZE + BASE_PAGE_SIZE, 0x5000, ReadKernel)
    ensures NoPanic(root, m1, 0, 2 * HUGE_PAGE_SIZE, 0)
  {
    hide Look;
    var lo, hi := HUGE_PAGE_SIZE, HUGE_PAGE_SIZE + BASE_PAGE_SIZE;
    assert Changed(Look(m0, root, 0), Look(m1, root, 0), 0, lo, hi, 0x5000, ReadKernel);
    forall v: nat | v < 2 * HUGE_PAGE_SIZE ensures Tolerated(root, m1, v, 0, 2 * HUGE_PAGE_SIZE, 0) {
      if v < HUGE_PAGE_SIZE {
        assert Changed(Look(m0, root, v), Look(m1, root, v), v, lo, hi, 0x5000, ReadKernel);
      } else {
        assert EarlierVacant(root, m1, 0, v, 3, 0, 2 * HUGE_PAGE_SIZE, 0);
      }
    }
  }

  // ----- the tables on the path to one address

  /** `m1` is `m0` with some empty tables added on the path of `v`, and `t` is the table of this level on it. */
  ghost predicate OnPath(root: nat, m0: Memory, m1: Memory, tags: map<nat, Tag>, t: nat, level: nat, v: nat,
                         pbase: nat, rights: MapAction)
  {
    && WellFormed(root, m1, tags)
    && v < VA_LIMIT
    && t in m1
    && tags[t].level == level
    && InTable(tags[t], v)
    && Reach(m1, root, 4, t, level, v)
    && Maps(root, m0, m1, v, v, pbase, rights)
    && Look(m1, root, v) == Deepened(Look(m0, root, v), level)
  }

  ghost function Deepened(f: Found, level: nat): Found {
    if f.Hole? && f.level > level then Hole(level) else f
  }

  lemma PathStart(root: nat, mem: Memory, tags: map<nat, Tag>, v: nat, pbase: nat, rights: MapAction)
    requires WellFormed(root, mem, tags) && v < VA_LIMIT
    ensures OnPath(root, mem, mem, tags, root, 4, v, pbase, rights)
  {
    ShallowHole(mem, root, 4, v);
  }

  lemma {:induction false} ShallowHole(mem: Memory, a: nat, level: nat, v: nat)
    ensures Walk(mem, a, level, v).level <= level
    decreases level
  {
    if level > 0 && a in mem && |mem[a]| == 512 && mem[a][Index(level, v)].Table? {
      ShallowHole(mem, mem[a][Index(level, v)].table, level - 1, v);
    }
  }

  lemma PathEntry(root: nat, m0: Memory, m1: Memory, tags: map<nat, Tag>, t: nat, level: nat, v: nat, pbase: nat,
                  rights: MapAction)
    requires OnPath(root, m0, m1, tags, t, level, v, pbase, rights)
    ensures WellFormed(root, m1, tags) && t in m1 && t in tags && tags[t].level == level && |m1[t]| == 512
    ensures Reach(m1, root, 4, t, level, v) && InSlot(tags[t], Index(level, v), v)
    ensures v % Span(level) == 0 ==> v == SlotBase(tags[t], Index(level, v))
    ensures m1[t][Index(level, v)].Page? ==> level <= 3 && Look(m0, root, v).Leaf? && Look(m0, root, v).level == level
    ensures Look(m0, root, v).Leaf? ==> Look(m0, root, v).level <= level
    ensures m1[t][Index(level, v)].Absent? ==> forall w :: InSlot(tags[t], Index(level, v), w) ==>
      Look(m0, root, w).Hole?
    ensures m1[t][Index(level, v)].Table? ==> level >= 2
    ensures m1[t][Index(level, v)].Absent? <==> Vacant(Look(m0, root, v), level)
    ensures Maps(root, m0, m1, v, v, pbase, rights)
  {
    var i := Index(level, v);
    IndexExists(tags[t], v);
    IndexIsSlot(tags[t], v, i);
    EntrySeen(root, m1, tags, t, i, v, v);
    assert SlotOk(m1, tags, t, i);
    if m1[t][i].Table? {
      ShallowHole(m1, m1[t][i].table, level - 1, v);
    }
    if m1[t][i].Absent? {
      forall w | InSlot(tags[t], i, w) ensures Look(m0, root, w).Hole? {
        EntrySeen(root, m1, tags, t, i, v, w);
        assert Changed(Look(m0, root, w), Look(m1, root, w), w, v, v, pbase, rights);
      }
    }
  }

  lemma PathDown(root: nat, m0: Memory, m1: Memory, tags: map<nat, Tag>, t: nat, level: nat, v: nat, pbase: nat,
                 rights: MapAction)
    requires OnPath(root, m0, m1, tags, t, level, v, pbase, rights) && m1[t][Index(level, v)].Table?
    ensures OnPath(root, m0, m1, tags, m1[t][Index(level, v)].table, level - 1, v, pbase, rights)
  {
    var i := Index(level, v);
    IndexExists(tags[t], v);
    assert SlotOk(m1, tags, t, i);
    ChildTable(tags[t], i, v);
    ReachStep(m1, root, 4, t, level, v);
    EntrySeen(root, m1, tags, t, i, v, v);
    ShallowHole(m1, m1[t][i].table, level - 1, v);
  }

  lemma PathNew(root: nat, m0: Memory, m1: Memory, tags: map<nat, Tag>, t: nat, n: nat, v: nat, pbase: nat,
                rights: MapAction)
    requires t in m1 && t in tags && OnPath(root, m0, m1, tags, t, tags[t].level, v, pbase, rights) &&
      tags[t].level >= 2
    requires m1[t][Index(tags[t].level, v)] == Absent && n !in m1
    ensures OnPath(root, m0, AddTable(m1, t, Index(tags[t].level, v), n),
      tags[n := ChildTag(tags[t], Index(tags[t].level, v))],
                   n, tags[t].level - 1, v, pbase, rights)
  {
    var level, i := tags[t].level, Index(tags[t].level, v);
    var m2 := AddTable(m1, t, i, n);
    IndexExists(tags[t], v);
    TableAdded(root, m1, tags, t, i, n, v, pbase, rights);
    MapsTrans(root, m0, m1, m2, v, v, v, pbase, rights);
    ChildTable(tags[t], i, v);
    EntrySeen(root, m1, tags, t, i, v, v);
    ReachWalk(m2, root, 4, n, level - 1, v);
  }

  /** A finished run, seen from the state before the request. */
  lemma RunFinished(root: nat, m0: Memory, m1: Memory, m2: Memory, tags: map<nat, Tag>, t: nat, level: nat, v: nat,
                    mapped: nat, hi: nat, pbase: nat, rights: MapAction)
    requires OnPath(root, m0, m1, tags, t, level, v, pbase, rights) && 1 <= level <= 3 && t in tags
    requires Running(root, m1, m2, tags, t, v, mapped, pbase, rights) && v + mapped <= hi
    requires forall l :: level < l <= 3 ==> FirstTooSmall(root, m0, v, hi, pbase, l)
    ensures WellFormed(root, m2, tags)
    ensures Maps(root, m0, m2, v, v + mapped, pbase, rights)
    ensures BigPages(root, m0, m2, v, hi, v + mapped, pbase)
    ensures forall w :: v <= w < VA_LIMIT && Look(m1, root, w).Hole? ==> Look(m0, root, w).Hole?
    ensures forall w :: v <= w < VA_LIMIT && Look(m1, root, w).Leaf? ==> Look(m0, root, w).Leaf?
    ensures mapped % BASE_PAGE_SIZE == 0 && mapped % Span(level) == 0 && v + mapped <= SlotBase(tags[t], 512)
  {
    hide Look, Reach, WellFormed, BigPages, LeafLevel, SlotBase, FirstTooSmall;
    PathEntry(root, m0, m1, tags, t, level, v, pbase, rights);
    MapsTrans(root, m0, m1, m2, v, v, v + mapped, pbase, rights);
    TableBlock(tags[t], v);
    BigFromRun(root, m0, m2, v, hi, v + mapped, pbase, level);
    forall w | v <= w < VA_LIMIT
      ensures Look(m1, root, w).Hole? <==> Look(m0, root, w).Hole?
    {
      assert Changed(Look(m0, root, w), Look(m1, root, w), w, v, v, pbase, rights);
    }
    SpanMultiple(level, mapped);
  }

  lemma SpanMultiple(level: nat, n: nat)
    requires n % Span(level) == 0
    ensures n % BASE_PAGE_SIZE == 0
  {
    var q, k := n / Span(level), Span(level) / BASE_PAGE_SIZE;
    assert Span(level) == BASE_PAGE_SIZE * k;
    assert n == BASE_PAGE_SIZE * (k * q);
    DivUnique(BASE_PAGE_SIZE, k * q, 0);
  }

  /** The entries a run of big pages writes over: the first was vacant, the others are skipped. */
  lemma BigTolerated(root: nat, m0: Memory, m1: Memory, tags: map<nat, Tag>, t: nat, level: nat, lo: nat, mid: nat,
                     hi: nat, pbase: nat, rights: MapAction)
    requires OnPath(root, m0, m1, tags, t, level, lo, pbase, rights) && 2 <= level <= 3 && t in tags
    requires lo % Span(level) == 0 && pbase % Span(level) == 0 && (mid - lo) % Span(level) == 0
    requires lo < mid <= hi && mid <= SlotBase(tags[t], 512) && lo + Span(level) <= hi
    requires hi - mid < Span(level) || mid == SlotBase(tags[t], 512)
    requires Vacant(Look(m0, root, lo), level)
    requires level == 2 ==> FirstTooSmall(root, m0, lo, hi, pbase, 3)
    ensures NoPanic(root, m0, lo, hi, pbase) <==> TolerantFrom(root, m0, mid, lo, hi, pbase)
    ensures Closed(root, m0, lo, mid, hi, pbase)
  {
    hide Look, Reach, WellFormed, Closed;
    var s, i := Span(level), Index(level, lo);
    PathEntry(root, m0, m1, tags, t, level, lo, pbase, rights);
    TableBlock(tags[t], lo);
    ModSum(s, lo, mid - lo);
    forall v: nat | lo <= v < mid ensures Tolerated(root, m0, v, lo, hi, pbase) {
      if v < lo + s {
        assert InSlot(tags[t], i, v);
      } else {
        ModSum(s, lo, s);
        DivAcross(s, lo, lo + s, v);
        DivAcross(s, v, mid, mid);
        DivUnique(Span(level + 1), lo / Span(level + 1), v - lo / Span(level + 1) * Span(level + 1));
        InnerBlock(s, v, mid);
        ModDiff(s, pbase, lo);
        assert EarlierVacant(root, m0, lo, v, level, lo, hi, pbase);
      }
    }
    RunCloses(root, m0, lo, mid, hi, pbase, level);
  }

  lemma InnerBlock(s: nat, v: nat, mid: nat)
    requires s > 0 && mid % s == 0 && v < mid
    ensures v / s * s + s <= mid && (v / s * s) % s == 0 && v / s * s <= v
  {
    DivAcross(s, v, mid, mid);
    var q, m := v / s, mid / s;
    MulMono(s, q + 1, m);
    assert mid == s * m;
    DivUnique(s, q, 0);
  }

  lemma MulMono(s: nat, a: nat, b: nat)
    requires a <= b
    ensures a * s <= b * s
  {
  }

  lemma ModDiff(s: nat, a: nat, b: nat)
    requires s > 0 && a % s == 0 && b % s == 0
    ensures (a - b) % s == 0
  {
    var d := a / s - b / s;
    assert a - b == s * d;
    ZeroByMagnitude(s, d - (a - b) / s, (a - b) % s);
  }

  /** In the 4 KiB branch nothing is skipped: the request passes an address exactly if it is a hole. */
  lemma BaseTolerated(root: nat, m0: Memory, m1: Memory, tags: map<nat, Tag>, t: nat, lo: nat, mapped: nat, hi: nat,
                      pbase: nat, rights: MapAction, ok: bool)
    requires OnPath(root, m0, m1, tags, t, 1, lo, pbase, rights) && t in tags
    requires lo + mapped <= hi && lo + mapped <= SlotBase(tags[t], 512) && lo % BASE_PAGE_SIZE == 0 &&
      mapped % BASE_PAGE_SIZE == 0
    requires FirstTooSmall(root, m0, lo, hi, pbase, 2) && FirstTooSmall(root, m0, lo, hi, pbase, 3)
    requires ok ==> lo + mapped == hi || lo + mapped == SlotBase(tags[t], 512)
    requires !ok ==> lo + mapped < SlotBase(tags[t], 512)
    ensures !ok && lo + mapped < hi && Look(m0, root, lo + mapped).Leaf? ==> !NoPanic(root, m0, lo, hi, pbase)
    ensures ok && Clear(m0, root, lo, lo + mapped) ==>
      (NoPanic(root, m0, lo, hi, pbase) <==> TolerantFrom(root, m0, lo + mapped, lo, hi, pbase))
    ensures ok && mapped > 0 ==> Closed(root, m0, lo, lo + mapped, hi, pbase)
  {
    hide Look, Reach, WellFormed, Closed;
    PathEntry(root, m0, m1, tags, t, 1, lo, pbase, rights);
    TableBlock(tags[t], lo);
    forall v: nat | lo <= v < SlotBase(tags[t], 512)
      ensures Tolerated(root, m0, v, lo, hi, pbase) <==> Look(m0, root, v).Hole?
    {
      NotSkipped(root, m0, v, 2, lo, hi, pbase);
      NotSkipped(root, m0, v, 3, lo, hi, pbase);
    }
    if ok && mapped > 0 {
      ModSum(BASE_PAGE_SIZE, lo, mapped);
      RunCloses(root, m0, lo, lo + mapped, hi, pbase, 1);
    }
  }

  lemma NotSkipped(root: nat, m0: Memory, v: nat, level: nat, lo: nat, hi: nat, pbase: nat)
    requires 2 <= level <= 3 && FirstTooSmall(root, m0, lo, hi, pbase, level)
    requires lo <= v < lo / LARGE_PAGE_SIZE * LARGE_PAGE_SIZE + LARGE_PAGE_SIZE
    ensures !Skipped(root, m0, v, level, lo, hi, pbase)
  {
    hide Look;
    forall c: nat ensures !EarlierVacant(root, m0, c, v, level, lo, hi, pbase) {
      if Fits(c, level, lo, hi, pbase) && c < v / Span(level) * Span(level) {
        assert v / Span(level) * Span(level) <= v;
        AlignedIsFirst(1, level, lo, c);
      }
    }
  }

  /** The first address of a request is never skipped. */
  lemma FirstNotSkipped(root: nat, m0: Memory, lo: nat, hi: nat, pbase: nat)
    requires lo <= hi && BigAt(m0, root, lo, 2)
    ensures !NoPanic(root, m0, lo, hi, pbase)
  {
    hide Look;
    assert !Skipped(root, m0, lo, 2, lo, hi, pbase) && !Skipped(root, m0, lo, 3, lo, hi, pbase);
    assert lo < hi ==> !Tolerated(root, m0, lo, lo, hi, pbase);
  }

  lemma FirstFits(root: nat, m0: Memory, lo: nat, hi: nat, pbase: nat, level: nat)
    requires !Vacant(Look(m0, root, lo), level) || lo % Span(level) != 0 || pbase % Span(level) != 0 ||
      hi - lo < Span(level)
    ensures FirstTooSmall(root, m0, lo, hi, pbase, level)
  {
    hide Look;
    if Fits(lo, level, lo, hi, pbase) {
      var s := Span(level);
      assert pbase == (pbase - lo) / s * s + lo / s * s;
      assert pbase == s * ((pbase - lo) / s + lo / s);
      if pbase >= 0 {
        DivExact(s, (pbase - lo) / s + lo / s, pbase);
      }
    }
  }

  lemma DivExact(s: nat, k: int, n: nat)
    requires s > 0 && n == s * k
    ensures n % s == 0
  {
    ZeroByMagnitude(s, k - n / s, n % s);
  }

  lemma TableBlock(tag: Tag, v: nat)
    requires 1 <= tag.level <= 3 && InTable(tag, v)
    ensures SlotBase(tag, 512) == v / Span(tag.level + 1) * Span(tag.level + 1) + Span(tag.level + 1)
  {
    var s := Span(tag.level + 1);
    OffsetIsProduct(tag.level + 1, tag.num);
    OffsetIsProduct(tag.level + 1, tag.num + 1);
    TableEnds(tag);
    DivUnique(s, tag.num, v - SlotBase(tag, 0));
  }

  lemma TableEnds(tag: Tag)
    requires 1 <= tag.level <= 3
    ensures SlotBase(tag, 0) == Offset(tag.level + 1, tag.num) &&
      SlotBase(tag, 512) == Offset(tag.level + 1, tag.num + 1)
    ensures SlotBase(tag, 512) == SlotBase(tag, 0) + Span(tag.level + 1)
  {
  }

  lemma HugePosition(v: nat)
    requires v < VA_LIMIT
    ensures GIB_512 * Index(4, v) + HUGE_PAGE_SIZE * Index(3, v) == v - v % HUGE_PAGE_SIZE
    ensures v == GIB_512 * Index(4, v) + HUGE_PAGE_SIZE * Index(3, v) <==> v % Span(3) == 0
  {
    var q := v / HUGE_PAGE_SIZE;
    assert v - v % HUGE_PAGE_SIZE == HUGE_PAGE_SIZE * q;
    DivUnique(GIB_512, q / 512, HUGE_PAGE_SIZE * (q % 512) + v % HUGE_PAGE_SIZE);
    assert Index(4, v) == q / 512;
  }

  lemma LargePosition(v: nat)
    requires v < VA_LIMIT
    ensures GIB_512 * Index(4, v) + HUGE_PAGE_SIZE * Index(3, v) + LARGE_PAGE_SIZE * Index(2, v) ==
      v - v % LARGE_PAGE_SIZE
    ensures v == GIB_512 * Index(4, v) + HUGE_PAGE_SIZE * Index(3, v) + LARGE_PAGE_SIZE * Index(2, v) <==>
      v % Span(2) == 0
  {
    HugePosition(v);
    var q := v / LARGE_PAGE_SIZE;
    assert v - v % LARGE_PAGE_SIZE == LARGE_PAGE_SIZE * q;
    DivUnique(HUGE_PAGE_SIZE, q / 512, LARGE_PAGE_SIZE * (q % 512) + v % LARGE_PAGE_SIZE);
  }

  // ----- a run of consecutive entries of one table

  /** `m0` became `m1` by writing page entries into table `t`, for `mapped` bytes from `lo` on. */
  ghost predicate Running(root: nat, m0: Memory, m1: Memory, tags: map<nat, Tag>, t: nat, lo: nat, mapped: nat,
                          pbase: nat, rights: MapAction)
  {
    && WellFormed(root, m1, tags)
    && t in m1
    && lo + mapped <= SlotBase(tags[t], 512) <= VA_LIMIT
    && mapped % Span(tags[t].level) == 0
    && Maps(root, m0, m1, lo, lo + mapped, pbase, rights)
    && LeafLevel(m1, root, lo, lo + mapped, tags[t].level)
  }

  /** The same, with slot `idx` the next one to write. */
  ghost predicate RunAt(root: nat, m0: Memory, m1: Memory, tags: map<nat, Tag>, t: nat, idx: nat, lo: nat,
                        mapped: nat, pbase: nat, rights: MapAction)
  {
    && Running(root, m0, m1, tags, t, lo, mapped, pbase, rights)
    && lo < VA_LIMIT
    && Reach(m1, root, 4, t, tags[t].level, lo)
    && lo + mapped == SlotBase(tags[t], idx)
    && pbase % Span(tags[t].level) == 0
  }

  lemma RunStart(root: nat, mem: Memory, tags: map<nat, Tag>, t: nat, idx: nat, lo: nat, pbase: nat, rights: MapAction)
    requires WellFormed(root, mem, tags) && t in mem && idx < 512
    requires lo < VA_LIMIT && Reach(mem, root, 4, t, tags[t].level, lo)
    requires lo == SlotBase(tags[t], idx) && pbase % Span(tags[t].level) == 0
    ensures RunAt(root, mem, mem, tags, t, idx, lo, 0, pbase, rights)
    ensures Running(root, mem, mem, tags, t, lo, 0, pbase, rights)
  {
    SlotNext(tags[t], idx);
  }

  /** One more page entry at the end of the run makes a longer run. */
  lemma RunStep(root: nat, m0: Memory, m1: Memory, m2: Memory, tags: map<nat, Tag>, t: nat, idx: nat, lo: nat,
                mapped: nat, pbase: nat, rights: MapAction)
    requires RunAt(root, m0, m1, tags, t, idx, lo, mapped, pbase, rights) && idx < 512 && tags[t].level <= 3
    requires m2 == Write(m1, t, idx, Page(pbase + mapped, rights))
    ensures RunAt(root, m0, m2, tags, t, idx + 1, lo, mapped + Span(tags[t].level), pbase, rights)
    ensures Running(root, m0, m2, tags, t, lo, mapped + Span(tags[t].level), pbase, rights)
    ensures t in m2 && |m2[t]| == 512 && lo + mapped + Span(tags[t].level) == SlotBase(tags[t], idx + 1)
  {
    hide Look, Maps, LeafLevel, Reach;
    var level := tags[t].level;
    SlotNext(tags[t], idx);
    ModSum(Span(level), pbase, mapped);
    ModSum(Span(level), mapped, Span(level));
    PageWritten(root, m1, tags, t, idx, Page(pbase + mapped, rights), lo);
    ReachFrame(root, m1, m2, tags, root, t, idx, lo);
    Longer(root, m0, m1, m2, lo, lo + mapped, lo + mapped + Span(level), pbase, rights, level);
  }

  lemma Longer(root: nat, m0: Memory, m1: Memory, m2: Memory, lo: nat, mid: nat, hi: nat, pbase: nat,
               rights: MapAction, level: nat)
    requires lo <= mid < hi <= VA_LIMIT
    requires Maps(root, m0, m1, lo, mid, pbase, rights) && LeafLevel(m1, root, lo, mid, level)
    requires Maps(root, m1, m2, mid, hi, pbase + (mid - lo), rights) && LeafLevel(m2, root, mid, hi, level)
    ensures Maps(root, m0, m2, lo, hi, pbase, rights)
    ensures LeafLevel(m2, root, lo, hi, level)
  {
    MapsTrans(root, m0, m1, m2, lo, mid, hi, pbase, rights);
    forall v | lo <= v < hi ensures Look(m2, root, v).Leaf? && Look(m2, root, v).level == level {
      if v < mid {
        assert Changed(Look(m1, root, v), Look(m2, root, v), v, mid, hi, pbase + (mid - lo), rights);
      }
    }
  }

  lemma SlotNext(tag: Tag, idx: nat)
    requires TagOk(tag) && idx < 512
    ensures SlotBase(tag, idx + 1) == SlotBase(tag, idx) + Span(tag.level)
    ensures SlotBase(tag, idx + 1) <= SlotBase(tag, 512)
    ensures idx == 511 ==> SlotBase(tag, idx + 1) == SlotBase(tag, 512)
    ensures SlotBase(tag, idx) % Span(tag.level) == 0
    ensures InSlot(tag, idx, SlotBase(tag, idx))
  {
    IndexIsSlot(tag, SlotBase(tag, idx), idx);
  }

  /** What the walk finds at an address is the entry of the table it reaches. */
  lemma EntrySeen(root: nat, mem: Memory, tags: map<nat, Tag>, t: nat, i: nat, at: nat, v: nat)
    requires WellFormed(root, mem, tags) && t in mem && i < 512
    requires at < VA_LIMIT && Reach(mem, root, 4, t, tags[t].level, at) && InSlot(tags[t], i, v)
    ensures v < VA_LIMIT
    ensures mem[t][i].Absent? ==> Look(mem, root, v) == Hole(tags[t].level)
    ensures mem[t][i].Page? ==> Look(mem, root, v).Leaf? && Look(mem, root, v).level == tags[t].level
    ensures mem[t][i].Table? ==> Look(mem, root, v) == Walk(mem, mem[t][i].table, tags[t].level - 1, v)
  {
    IndexIsSlot(tags[t], v, i);
    WalkUnder(root, mem, mem, tags, t, i, at, v);
    assert SlotOk(mem, tags, t, i);
  }

  /** An absent slot after the run was clear before the request; a present one was mapped. */
  lemma SlotSeen(root: nat, m0: Memory, m1: Memory, tags: map<nat, Tag>, t: nat, idx: nat, lo: nat, mapped: nat,
                 pbase: nat, rights: MapAction)
    requires RunAt(root, m0, m1, tags, t, idx, lo, mapped, pbase, rights) && idx < 512 && tags[t].level == 1
    ensures m1[t][idx].Absent? ==> Clear(m0, root, lo + mapped, lo + mapped + BASE_PAGE_SIZE)
    ensures !m1[t][idx].Absent? ==> Look(m0, root, lo + mapped).Leaf?
    ensures lo + mapped < SlotBase(tags[t], 512)
  {
    assert SlotOk(m1, tags, t, idx);
    SlotNext(tags[t], idx);
    forall v | lo + mapped <= v < lo + mapped + BASE_PAGE_SIZE
      ensures Look(m0, root, v).Hole? <==> m1[t][idx].Absent?
    {
      EntrySeen(root, m1, tags, t, idx, lo, v);
      assert Changed(Look(m0, root, v), Look(m1, root, v), v, lo, lo + mapped, pbase, rights);
    }
  }
}
