/**
 The page tables refine the model address space: after any sequence of requests that the model's
 alignment rules allow and that do not overlap, both translate every virtual address alike.
 */
module PagingRefinement {
  import opened Arith
  import opened Paging
  import opened VSpaceModule
  import opened VspaceModel

  ghost predicate SameTranslation(hit: Hit, found: Found) {
    match hit
    case Miss => found.Hole?
    case Hit(paddr, rights) => MappedTo(found, paddr, rights)
  }

  ghost predicate Agree(log: seq<Mapping>, mem: Memory, root: nat) {
    forall v: nat :: v < VA_LIMIT ==> SameTranslation(Lookup(log, v), Look(mem, root, v))
  }

  datatype Request = Request(base: nat, frame: Frame, action: MapAction)

  /** A whole number of pages below the address limit, aligned as the model demands, with some access. */
  ghost predicate Permitted(r: Request) {
    && r.frame.size > 0
    && r.frame.size % BASE_PAGE_SIZE == 0
    && r.frame.base % r.frame.size == 0
    && r.base % r.frame.size == 0
    && r.base + r.frame.size <= VA_LIMIT
    && r.action != NoAccess
  }

  ghost predicate Free(log: seq<Mapping>, r: Request) {
    forall v: nat :: r.base <= v < r.base + r.frame.size ==> Lookup(log, v).Miss?
  }

  ghost predicate Separate(rs: seq<Request>) {
    forall i, j :: 0 <= i < j < |rs| ==>
      !Overlaps(Interval(rs[i].base, rs[i].base + rs[i].frame.size),
        Interval(rs[j].base, rs[j].base + rs[j].frame.size))
  }

  lemma PageAligned(n: nat, size: nat)
    requires size > 0 && size % BASE_PAGE_SIZE == 0 && n % size == 0
    ensures n % BASE_PAGE_SIZE == 0
  {
    var k, q := size / BASE_PAGE_SIZE, n / size;
    assert n == (BASE_PAGE_SIZE * k) * q == BASE_PAGE_SIZE * (k * q);
    DivUnique(BASE_PAGE_SIZE, k * q, 0);
  }

  /** A mapping in the way of the request would cover one of its addresses. */
  lemma FreeMeansUnblocked(log: seq<Mapping>, r: Request, v: nat)
    requires Disjoint(log) && Free(log, r)
    ensures !Blocked(log, v, r.base, r.frame, r.action)
  {
    LookupMiss(log, v);
  }

  /** One request, carried out on both sides, keeps the agreement. */
  lemma MapAgrees(root: nat, log: seq<Mapping>, log': seq<Mapping>, m0: Memory, m1: Memory, r: Request)
    requires Agree(log, m0, root)
    requires Extended(log, log', r.base, r.frame, r.action)
    requires Maps(root, m0, m1, r.base, r.base + r.frame.size, r.frame.base, r.action)
    ensures Agree(log', m1, root)
  {
    hide Look, Lookup;
    forall v: nat | v < VA_LIMIT ensures SameTranslation(Lookup(log', v), Look(m1, root, v)) {
      assert SameTranslation(Lookup(log, v), Look(m0, root, v));
      assert Changed(Look(m0, root, v), Look(m1, root, v), v, r.base, r.base + r.frame.size, r.frame.base, r.action);
    }
  }

  lemma FreeIsClear(root: nat, log: seq<Mapping>, mem: Memory, r: Request)
    requires Agree(log, mem, root) && Free(log, r) && Permitted(r)
    ensures Clear(mem, root, r.base, r.base + r.frame.size) && Look(mem, root, r.base).Hole?
  {
    hide Look, Lookup;
    forall v | r.base <= v < r.base + r.frame.size ensures Look(mem, root, v).Hole? {
      assert SameTranslation(Lookup(log, v), Look(mem, root, v));
    }
  }

  /** Requests not yet made stay free. */
  lemma StillFree(log: seq<Mapping>, log': seq<Mapping>, r: Request, later: Request)
    requires Extended(log, log', r.base, r.frame, r.action) && Free(log, later)
    requires r.frame.size > 0 && later.frame.size > 0
    requires !Overlaps(Interval(r.base, r.base + r.frame.size), Interval(later.base, later.base + later.frame.size))
    ensures Free(log', later)
  {
    hide Lookup;
    forall v: nat | later.base <= v < later.base + later.frame.size ensures Lookup(log', v).Miss? {
      assert Lookup(log, v).Miss?;
    }
  }

  /** Both address spaces serve the same request. */
  method MapBoth(space: VSpace, model: ModelAddressSpace, r: Request) returns (served: bool)
    requires space.Valid() && model.Valid()
    requires Permitted(r) && Free(model.oplog, r) && Agree(model.oplog, space.mem, space.root)
    modifies space, model
    ensures served && space.Valid() && model.Valid()
    ensures Agree(model.oplog, space.mem, space.root)
    ensures Extended(old(model.oplog), model.oplog, r.base, r.frame, r.action)
  {
    hide Look, Lookup, Maps, BigPages, WellFormed, Disjoint, Extended, Agree, Free, NoPanic;
    ghost var log, mem := model.oplog, space.mem;
    forall v: nat ensures !Blocked(log, v, r.base, r.frame, r.action) {
      FreeMeansUnblocked(log, r, v);
    }
    FreeIsClear(space.root, log, mem, r);
    ClearCompletes(space.root, mem, r.base, r.base + r.frame.size, r.frame.base);
    PageAligned(r.base, r.frame.size);
    PageAligned(r.frame.base, r.frame.size);
    var answer := model.MapFrame(r.base, r.frame, r.action);
    var ok := space.MapGeneric(r.base, r.frame.base, r.frame.size, r.action);
    MapAgrees(space.root, log, model.oplog, mem, space.mem, r);
    served := answer.MapOk? && ok;
  }

  /** Any sequence of permitted, separate requests: every one is served by both, and both translate alike. */
  method MapAll(space: VSpace, model: ModelAddressSpace, rs: seq<Request>) returns (served: bool)
    requires space.Valid() && model.Valid() && Agree(model.oplog, space.mem, space.root)
    requires forall i :: 0 <= i < |rs| ==> Permitted(rs[i]) && Free(model.oplog, rs[i])
    requires Separate(rs)
    modifies space, model
    ensures served && space.Valid() && model.Valid()
    ensures forall v: nat :: v < VA_LIMIT ==>
              match Lookup(model.oplog, v)
              case Miss => space.Resolve(v) == Resolved.Unmapped
              case Hit(paddr, _) => space.Resolve(v) == At(paddr)
  {
    hide Look, Lookup, WellFormed, Disjoint, Extended, Agree, Free, Permitted;
    served := true;
    var i := 0;
    while i < |rs|
      invariant 0 <= i <= |rs| && served
      invariant space.Valid() && model.Valid() && Agree(model.oplog, space.mem, space.root)
      invariant forall k :: i <= k < |rs| ==> Free(model.oplog, rs[k])
    {
      ghost var log := model.oplog;
      var ok := MapBoth(space, model, rs[i]);
      forall k | i < k < |rs| ensures Free(model.oplog, rs[k]) {
        SizePositive(rs[i]);
        SizePositive(rs[k]);
        StillFree(log, model.oplog, rs[i], rs[k]);
      }
      served := served && ok;
      i := i + 1;
    }
    forall v: nat | v < VA_LIMIT
      ensures match Lookup(model.oplog, v)
              case Miss => space.Resolve(v) == Resolved.Unmapped
              case Hit(paddr, _) => space.Resolve(v) == At(paddr)
    {
      AgreeResolves(model.oplog, space.mem, space.root, space.tags, v);
    }
  }

  lemma SizePositive(r: Request)
    requires Permitted(r)
    ensures r.frame.size > 0
  {
  }

  lemma AgreeResolves(log: seq<Mapping>, mem: Memory, root: nat, tags: map<nat, Tag>, v: nat)
    requires Agree(log, mem, root) && WellFormed(root, mem, tags) && v < VA_LIMIT
    ensures match Lookup(log, v)
            case Miss => ResolveAddr(mem, root, tags, v) == Resolved.Unmapped
            case Hit(paddr, _) => ResolveAddr(mem, root, tags, v) == At(paddr)
  {
    hide Look, Lookup, WellFormed, ResolveAddr;
    ResolveIsWalk(root, mem, tags, v);
    assert SameTranslation(Lookup(log, v), Look(mem, root, v));
  }
}
