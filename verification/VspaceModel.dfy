/**
 The kernel's model address space: a log of mappings, searched from its end. The invariant is
 that no two mappings of the log overlap; under it the log is a partial function from addresses,
 and the order of the log does not matter.
 */
module VspaceModel {
  import opened Paging

  datatype Mapping = Mapping(vbase: nat, pbase: nat, length: nat, rights: MapAction)
  datatype Frame = Frame(base: nat, size: nat)
  datatype Hit = Miss | Hit(paddr: nat, rights: MapAction)
  datatype MapResult = MapOk | InvalidFrame | InvalidBase | AlreadyMapped(base: nat)
  datatype AdjustResult = Adjusted(vbase: nat, length: nat) | AdjustInvalidBase | AdjustNotMapped
  datatype UnmapResult = Removed(vbase: nat, frame: Frame) | UnmapInvalidBase | UnmapNotMapped
  datatype Interval = Interval(start: nat, end: nat)
  datatype Option<+T> = None | Some(value: T)

  const MAX_USIZE: nat := 0xffff_ffff_ffff_ffff

  // ----- ranges

  predicate Overlaps(a: Interval, b: Interval) {
    a.start < b.end && b.start < a.end
  }

  predicate Within(v: nat, a: Interval) {
    a.start <= v < a.end
  }

  function RangeOf(m: Mapping): Interval {
    Interval(m.vbase, m.vbase + m.length)
  }

  predicate Covers(m: Mapping, v: nat) {
    Within(v, RangeOf(m))
  }

  function Min(a: nat, b: nat): nat {
    if a < b then a else b
  }

  function Max(a: nat, b: nat): nat {
    if a > b then a else b
  }

  /**
   `intersection`: looks at every element of `a`. An empty range within the other one overlaps it,
   and then what comes out is empty, too.
   */
  method Intersection(a: Interval, b: Interval) returns (r: Option<Interval>)
    ensures r.Some? <==> Overlaps(a, b)
    ensures r.Some? ==> forall v: nat :: Within(v, r.value) <==> Within(v, a) && Within(v, b)
    ensures r.Some? && a.start < a.end && b.start < b.end ==> r.value.start < r.value.end
  {
    if !Overlaps(a, b) {
      return None;
    }
    var found, element := false, a.start;
    var min: nat, max: nat := MAX_USIZE, 0;
    while element < a.end
      invariant a.start <= element <= a.end || element == a.start
      invariant !found ==> min == MAX_USIZE && max == 0
      invariant found <==> exists v: nat :: v < element && Within(v, a) && Within(v, b)
      invariant found ==> min < element && max < element
      invariant found ==> Within(min, a) && Within(min, b) && Within(max, a) && Within(max, b)
      invariant found ==> forall v: nat :: v < element && Within(v, a) && Within(v, b) ==> min <= v <= max
    {
      if Within(element, b) {
        min := if found then Min(element, min) else element;
        max := Max(element, max);
        found := true;
      }
      element := element + 1;
    }
    ghost var common := if a.start < b.start then b.start else a.start;
    assert a.start < a.end && b.start < b.end ==> Within(common, a) && Within(common, b);
    r := Some(Interval(min, max + 1));
  }

  // ----- the log as a partial function

  ghost predicate Disjoint(log: seq<Mapping>) {
    && (forall i :: 0 <= i < |log| ==> log[i].length > 0)
    && (forall i, j :: 0 <= i < j < |log| ==> !Overlaps(RangeOf(log[i]), RangeOf(log[j])))
  }

  function Translate(m: Mapping, v: nat): Hit
    requires Covers(m, v)
  {
    Hit(m.pbase + (v - m.vbase), m.rights)
  }

  /** `resolve`: the last mapping of the log that covers the address. */
  function Lookup(log: seq<Mapping>, v: nat): Hit {
    if log == [] then Miss
    else
      var last := |log| - 1;
      if Covers(log[last], v) then Translate(log[last], v) else Lookup(log[..last], v)
  }

  lemma {:induction false} LookupAt(log: seq<Mapping>, k: nat, v: nat)
    requires Disjoint(log) && k < |log| && Covers(log[k], v)
    ensures Lookup(log, v) == Translate(log[k], v)
  {
    var last := |log| - 1;
    if k < last {
      assert !Overlaps(RangeOf(log[k]), RangeOf(log[last]));
      LookupAt(log[..last], k, v);
    }
  }

  lemma {:induction false} LookupMiss(log: seq<Mapping>, v: nat)
    ensures Lookup(log, v).Miss? <==> forall k :: 0 <= k < |log| ==> !Covers(log[k], v)
  {
    if log != [] {
      LookupMiss(log[..|log| - 1], v);
    }
  }

  /** Two logs with the same mappings, in any order, resolve every address alike. */
  lemma OrderIrrelevant(log: seq<Mapping>, other: seq<Mapping>, v: nat)
    requires Disjoint(log) && Disjoint(other)
    requires forall m :: m in log <==> m in other
    ensures Lookup(log, v) == Lookup(other, v)
  {
    LookupMiss(log, v);
    LookupMiss(other, v);
    if k :| 0 <= k < |log| && Covers(log[k], v) {
      assert log[k] in other;
      var j :| 0 <= j < |other| && other[j] == log[k];
      LookupAt(log, k, v);
      LookupAt(other, j, v);
    } else {
      assert forall j :: 0 <= j < |other| ==> other[j] in log;
    }
  }

  // ----- the address space

  /** The existing mapping can be extended in place: same start, same memory, same rights, not longer. */
  predicate Extendable(m: Mapping, base: nat, frame: Frame, action: MapAction) {
    m.vbase == base && m.vbase + m.length <= base + frame.size && m.pbase == frame.base && m.rights == action
  }

  predicate Conflicts(m: Mapping, base: nat, frame: Frame, action: MapAction) {
    Overlaps(RangeOf(m), Interval(base, base + frame.size)) && !Extendable(m, base, frame, action)
  }

  /** A requested address that the mapping already translates. */
  ghost predicate Shared(m: Mapping, v: nat, base: nat, size: nat) {
    base <= v < base + size && m.vbase <= v < m.vbase + m.length
  }

  /** The mapping translates a requested address, and starts elsewhere, ends later or maps something else. */
  ghost predicate Obstructs(m: Mapping, v: nat, base: nat, frame: Frame, action: MapAction) {
    Shared(m, v, base, frame.size) &&
    (m.vbase != base || m.vbase + m.length > base + frame.size || m.pbase != frame.base || m.rights != action)
  }

  /** Some mapping is in the way of the request at this address. */
  ghost predicate Blocked(log: seq<Mapping>, v: nat, base: nat, frame: Frame, action: MapAction) {
    exists m :: m in log && Obstructs(m, v, base, frame, action)
  }

  /** The test for a conflict finds what is in the way. */
  lemma ConflictsObstruct(m: Mapping, v: nat, base: nat, frame: Frame, action: MapAction)
    ensures Obstructs(m, v, base, frame, action) <==>
      Conflicts(m, base, frame, action) && Covers(m, v) && base <= v < base + frame.size
  {
  }

  lemma NothingBlocked(log: seq<Mapping>, base: nat, frame: Frame, action: MapAction)
    requires forall k :: 0 <= k < |log| ==> !Conflicts(log[k], base, frame, action)
    ensures forall v: nat :: !Blocked(log, v, base, frame, action)
  {
    hide Conflicts, Obstructs, Covers;
    forall m, v: nat | m in log ensures !Obstructs(m, v, base, frame, action) {
      ConflictsObstruct(m, v, base, frame, action);
    }
  }

  /** The log after a successful request translates the requested range as asked and nothing else differently. */
  ghost predicate Extended(log: seq<Mapping>, log': seq<Mapping>, base: nat, frame: Frame, action: MapAction) {
    forall v: nat :: Lookup(log', v) ==
      if base <= v < base + frame.size then Hit(frame.base + (v - base), action) else Lookup(log, v)
  }

  /** Some element is not above `v`. */
  ghost predicate ReachesDown(s: seq<nat>, v: nat) {
    exists c :: c in s && c <= v
  }

  lemma MoreReaches(s: seq<nat>, c: nat)
    ensures forall v: nat :: ReachesDown(s, v) || c <= v ==> ReachesDown(s + [c], v)
  {
    assert c in s + [c];
    assert forall d :: d in s ==> d in s + [c];
  }

  class ModelAddressSpace {
    var oplog: seq<Mapping>

    ghost predicate Valid()
      reads this
    {
      Disjoint(oplog)
    }

    constructor ()
      ensures Valid() && oplog == []
    {
      oplog := [];
    }

    method MapFrame(base: nat, frame: Frame, action: MapAction) returns (r: MapResult)
      requires Valid()
      modifies this
      ensures Valid()
      ensures r.InvalidFrame? <==> frame.size == 0 || frame.base % frame.size != 0
      ensures r.InvalidBase? <==> frame.size > 0 && frame.base % frame.size == 0 && base % frame.size != 0
      ensures r.MapOk? ==> Extended(old(oplog), oplog, base, frame, action)
      ensures r.MapOk? || r.AlreadyMapped? ==>
        (r.MapOk? <==> forall m, v: nat :: m in old(oplog) && Shared(m, v, base, frame.size) ==>
          m.vbase == base && m.vbase + m.length <= base + frame.size && m.pbase == frame.base && m.rights == action)
      ensures r.AlreadyMapped? ==> Blocked(oplog, r.base, base, frame, action)
      ensures r.AlreadyMapped? ==> forall v: nat :: v < r.base ==> !Blocked(oplog, v, base, frame, action)
      ensures !r.MapOk? ==> oplog == old(oplog)
    {
      if frame.size == 0 {
        return InvalidFrame;
      }
      if frame.base % frame.size != 0 {
        return InvalidFrame;
      }
      if base % frame.size != 0 {
        return InvalidBase;
      }
      var conflicts := FindConflicts(base, frame, action);
      if conflicts != [] {
        var lowest := Lowest(conflicts);
        return AlreadyMapped(lowest);
      }
      NothingBlocked(oplog, base, frame, action);
      ghost var log := oplog;
      var i := 0;
      while i < |oplog|
        invariant 0 <= i <= |oplog| && oplog == log
        invariant forall k :: 0 <= k < i ==> !Overlaps(RangeOf(log[k]), Interval(base, base + frame.size))
      {
        if Overlaps(RangeOf(oplog[i]), Interval(base, base + frame.size)) {
          assert !Conflicts(log[i], base, frame, action);
          Promoted(log, i, base, frame, action);
          oplog := oplog[i := oplog[i].(length := frame.size)];
          return MapOk;
        }
        i := i + 1;
      }
      Pushed(log, base, frame, action);
      oplog := oplog + [Mapping(base, frame.base, frame.size, action)];
      r := MapOk;
    }

    /** The lowest common address of the request with each mapping in its way. */
    method FindConflicts(base: nat, frame: Frame, action: MapAction) returns (conflicts: seq<nat>)
      requires Valid() && frame.size > 0
      ensures forall c :: c in conflicts ==> Blocked(oplog, c, base, frame, action)
      ensures forall v: nat :: Blocked(oplog, v, base, frame, action) ==> ReachesDown(conflicts, v)
      ensures conflicts == [] ==> forall k :: 0 <= k < |oplog| ==> !Conflicts(oplog[k], base, frame, action)
    {
      conflicts := [];
      var i := 0;
      while i < |oplog|
        invariant 0 <= i <= |oplog|
        invariant forall c :: c in conflicts ==> Blocked(oplog, c, base, frame, action)
        invariant forall k, v: nat ::
          0 <= k < i && Conflicts(oplog[k], base, frame, action) ==>
          Covers(oplog[k], v) && base <= v < base + frame.size ==>
          ReachesDown(conflicts, v)
        invariant conflicts == [] ==> forall k :: 0 <= k < i ==> !Conflicts(oplog[k], base, frame, action)
      {
        var m := oplog[i];
        if Overlaps(RangeOf(m), Interval(base, base + frame.size)) {
          if !Extendable(m, base, frame, action) {
            var overlap := Intersection(RangeOf(m), Interval(base, base + frame.size));
            var common := overlap.value;
            assert Within(common.start, common);
            ConflictsObstruct(m, common.start, base, frame, action);
            assert Blocked(oplog, common.start, base, frame, action);
            MoreReaches(conflicts, common.start);
            conflicts := conflicts + [common.start];
            assert forall v: nat :: Covers(m, v) && base <= v < base + frame.size ==> Within(v, common);
          }
        }
        i := i + 1;
      }
      forall m, v: nat | m in oplog && Obstructs(m, v, base, frame, action) ensures ReachesDown(conflicts, v) {
        ConflictsObstruct(m, v, base, frame, action);
      }
    }

    method Adjust(base: nat, rights: MapAction) returns (r: AdjustResult)
      requires Valid()
      modifies this
      ensures Valid() && |oplog| == |old(oplog)|
      ensures r.AdjustInvalidBase? <==> base % BASE_PAGE_SIZE != 0
      ensures r.AdjustNotMapped? <==> base % BASE_PAGE_SIZE == 0 && Lookup(old(oplog), base).Miss?
      ensures !r.Adjusted? ==> oplog == old(oplog)
      ensures r.Adjusted? ==> r.vbase <= base < r.vbase + r.length && r.length > 0
      ensures r.Adjusted? ==> forall v: nat :: r.vbase <= v < r.vbase + r.length ==>
                Lookup(old(oplog), v).Hit? && Lookup(oplog, v) == Lookup(old(oplog), v).(rights := rights)
      ensures r.Adjusted? ==> forall v: nat :: !(r.vbase <= v < r.vbase + r.length) ==>
        Lookup(oplog, v) == Lookup(old(oplog), v)
    {
      if base % BASE_PAGE_SIZE != 0 {
        return AdjustInvalidBase;
      }
      ghost var log := oplog;
      var i := |oplog|;
      while i > 0
        invariant 0 <= i <= |oplog| && oplog == log
        invariant forall k :: i <= k < |log| ==> !Covers(log[k], base)
      {
        i := i - 1;
        if Covers(oplog[i], base) {
          AdjustedLookup(log, i, rights);
          LookupMiss(log, base);
          oplog := oplog[i := oplog[i].(rights := rights)];
          return Adjusted(oplog[i].vbase, oplog[i].length);
        }
      }
      LookupMiss(log, base);
      r := AdjustNotMapped;
    }

    method Resolve(v: nat) returns (r: Hit)
      ensures r == Lookup(oplog, v)
    {
      var i := |oplog|;
      assert oplog[..i] == oplog;
      while i > 0
        invariant 0 <= i <= |oplog|
        invariant Lookup(oplog, v) == Lookup(oplog[..i], v)
      {
        i := i - 1;
        assert oplog[..i + 1][..i] == oplog[..i];
        if Covers(oplog[i], v) {
          return Translate(oplog[i], v);
        }
      }
      r := Miss;
    }

    /** Removes the one mapping around `base`. The scan goes on to the end of the log, as a filter does. */
    method Unmap(base: nat) returns (r: UnmapResult)
      requires Valid()
      modifies this
      ensures Valid()
      ensures r.UnmapInvalidBase? <==> base % BASE_PAGE_SIZE != 0
      ensures r.UnmapNotMapped? <==> base % BASE_PAGE_SIZE == 0 && Lookup(old(oplog), base).Miss?
      ensures !r.Removed? ==> oplog == old(oplog)
      ensures r.Removed? ==> |oplog| == |old(oplog)| - 1
      ensures r.Removed? ==> r.vbase <= base < r.vbase + r.frame.size
      ensures r.Removed? ==> forall v: nat :: r.vbase <= v < r.vbase + r.frame.size ==>
                Lookup(oplog, v).Miss? && Lookup(old(oplog), v).Hit? &&
                Lookup(old(oplog), v).paddr == r.frame.base + (v - r.vbase)
      ensures r.Removed? ==> forall v: nat :: !(r.vbase <= v < r.vbase + r.frame.size) ==>
        Lookup(oplog, v) == Lookup(old(oplog), v)
    {
      if base % BASE_PAGE_SIZE != 0 {
        return UnmapInvalidBase;
      }
      hide Lookup, Disjoint;
      var kept, found := Filter(oplog, base);
      LookupMiss(oplog, base);
      if found != [] {
        var k := found[0];
        RemovedLookup(oplog, k);
        var gone := oplog[k];
        oplog := kept;
        r := Removed(gone.vbase, Frame(gone.pbase, gone.length));
      } else {
        r := UnmapNotMapped;
      }
    }
  }

  /** What does not cover the address, and where what does was. */
  method Filter(log: seq<Mapping>, base: nat) returns (kept: seq<Mapping>, found: seq<nat>)
    requires Disjoint(log)
    ensures |found| <= 1
    ensures found == [] ==> kept == log && forall k :: 0 <= k < |log| ==> !Covers(log[k], base)
    ensures found != [] ==> found[0] < |log| && Covers(log[found[0]], base) && kept == RemoveAt(log, found[0])
  {
    kept, found := [], [];
    var i := 0;
    while i < |log|
      invariant 0 <= i <= |log| && |found| <= 1
      invariant found == [] ==> kept == log[..i] && forall k :: 0 <= k < i ==> !Covers(log[k], base)
      invariant found != [] ==> found[0] < i && Covers(log[found[0]], base) && kept == RemoveAt(log[..i], found[0])
    {
      assert found != [] ==> !Overlaps(RangeOf(log[found[0]]), RangeOf(log[i]));
      if Covers(log[i], base) {
        found := found + [i];
        assert kept == RemoveAt(log[..i + 1], i);
      } else {
        if found != [] {
          RemoveGrows(log, found[0], i);
        }
        kept := kept + [log[i]];
      }
      i := i + 1;
    }
    assert log[..|log|] == log;
  }

  method Lowest(s: seq<nat>) returns (m: nat)
    requires s != []
    ensures m in s && forall x :: x in s ==> m <= x
  {
    m := s[0];
    var i := 1;
    while i < |s|
      invariant 1 <= i <= |s|
      invariant m in s && forall k :: 0 <= k < i ==> m <= s[k]
    {
      if s[i] < m {
        m := s[i];
      }
      i := i + 1;
    }
  }

  // ----- one change to the log

  lemma Promoted(log: seq<Mapping>, i: nat, base: nat, frame: Frame, action: MapAction)
    requires Disjoint(log) && i < |log| && frame.size > 0
    requires Overlaps(RangeOf(log[i]), Interval(base, base + frame.size))
    requires forall k :: 0 <= k < |log| ==> !Conflicts(log[k], base, frame, action)
    ensures Disjoint(log[i := log[i].(length := frame.size)])
    ensures Extended(log, log[i := log[i].(length := frame.size)], base, frame, action)
  {
    var log' := log[i := log[i].(length := frame.size)];
    assert Extendable(log[i], base, frame, action);
    forall k | 0 <= k < |log| && k != i ensures !Overlaps(RangeOf(log[k]), Interval(base, base + frame.size)) {
      assert !Conflicts(log[k], base, frame, action);
      assert !Overlaps(RangeOf(log[k]), RangeOf(log[i])) by {
        assert k < i ==> !Overlaps(RangeOf(log[k]), RangeOf(log[i]));
        assert i < k ==> !Overlaps(RangeOf(log[i]), RangeOf(log[k]));
      }
    }
    forall v: nat
      ensures Lookup(log', v) ==
        if base <= v < base + frame.size then Hit(frame.base + (v - base), action) else Lookup(log, v)
    {
      if base <= v < base + frame.size {
        LookupAt(log', i, v);
      } else {
        SameElsewhere(log, log', i, v);
      }
    }
  }

  /** Replacing one mapping is invisible at addresses that neither the old nor the new one covers. */
  lemma {:induction false} SameElsewhere(log: seq<Mapping>, log': seq<Mapping>, i: nat, v: nat)
    requires i < |log| == |log'| && log' == log[i := log'[i]]
    requires !Covers(log[i], v) && !Covers(log'[i], v)
    ensures Lookup(log', v) == Lookup(log, v)
  {
    var last := |log| - 1;
    if i < last {
      SameElsewhere(log[..last], log'[..last], i, v);
    } else {
      assert log[..last] == log'[..last];
    }
  }

  lemma Pushed(log: seq<Mapping>, base: nat, frame: Frame, action: MapAction)
    requires Disjoint(log) && frame.size > 0
    requires forall k :: 0 <= k < |log| ==> !Overlaps(RangeOf(log[k]), Interval(base, base + frame.size))
    ensures Disjoint(log + [Mapping(base, frame.base, frame.size, action)])
    ensures Extended(log, log + [Mapping(base, frame.base, frame.size, action)], base, frame, action)
  {
    var m := Mapping(base, frame.base, frame.size, action);
    assert (log + [m])[..|log|] == log;
  }

  lemma AdjustedLookup(log: seq<Mapping>, i: nat, rights: MapAction)
    requires Disjoint(log) && i < |log|
    ensures Disjoint(log[i := log[i].(rights := rights)])
    ensures forall v: nat :: Covers(log[i], v) ==>
              Lookup(log, v).Hit? && Lookup(log[i := log[i].(rights := rights)], v) == Lookup(log, v).(rights := rights)
    ensures forall v: nat :: !Covers(log[i], v) ==> Lookup(log[i := log[i].(rights := rights)], v) == Lookup(log, v)
  {
    var log' := log[i := log[i].(rights := rights)];
    assert forall k :: 0 <= k < |log| ==> RangeOf(log'[k]) == RangeOf(log[k]);
    forall v: nat
      ensures Covers(log[i], v) ==> Lookup(log, v).Hit? && Lookup(log', v) == Lookup(log, v).(rights := rights)
      ensures !Covers(log[i], v) ==> Lookup(log', v) == Lookup(log, v)
    {
      if Covers(log[i], v) {
        LookupAt(log, i, v);
        LookupAt(log', i, v);
      } else {
        SameElsewhere(log, log', i, v);
      }
    }
  }

  function RemoveAt(log: seq<Mapping>, k: nat): seq<Mapping>
    requires k < |log|
  {
    log[..k] + log[k + 1..]
  }

  lemma RemoveGrows(log: seq<Mapping>, k: nat, i: nat)
    requires k < i < |log|
    ensures RemoveAt(log[..i + 1], k) == RemoveAt(log[..i], k) + [log[i]]
  {
  }

  lemma RemovedDisjoint(log: seq<Mapping>, k: nat)
    requires Disjoint(log) && k < |log|
    ensures Disjoint(RemoveAt(log, k))
  {
    var rest := RemoveAt(log, k);
    assert forall j :: 0 <= j < k ==> rest[j] == log[j];
    assert forall j :: k <= j < |rest| ==> rest[j] == log[j + 1];
    forall i, j | 0 <= i < j < |rest| ensures !Overlaps(RangeOf(rest[i]), RangeOf(rest[j])) {
      if j < k {
        assert !Overlaps(RangeOf(log[i]), RangeOf(log[j]));
      } else if i < k {
        assert !Overlaps(RangeOf(log[i]), RangeOf(log[j + 1]));
      } else {
        assert !Overlaps(RangeOf(log[i + 1]), RangeOf(log[j + 1]));
      }
    }
  }

  lemma {:induction false} RemovedElsewhere(log: seq<Mapping>, k: nat, v: nat)
    requires k < |log| && !Covers(log[k], v)
    ensures Lookup(RemoveAt(log, k), v) == Lookup(log, v)
  {
    var last := |log| - 1;
    if k == last {
      assert RemoveAt(log, k) == log[..last];
    } else {
      RemovedElsewhere(log[..last], k, v);
      assert log[..last + 1] == log;
      RemoveGrows(log, k, last);
      var rest := RemoveAt(log, k);
      assert rest[..|rest| - 1] == RemoveAt(log[..last], k);
    }
  }

  lemma RemovedInside(log: seq<Mapping>, k: nat, v: nat)
    requires Disjoint(log) && k < |log| && Covers(log[k], v)
    ensures Lookup(RemoveAt(log, k), v).Miss?
  {
    var rest := RemoveAt(log, k);
    LookupMiss(rest, v);
    forall j | 0 <= j < |rest| ensures !Covers(rest[j], v) {
      if j < k {
        assert !Overlaps(RangeOf(log[j]), RangeOf(log[k]));
      } else {
        assert !Overlaps(RangeOf(log[k]), RangeOf(log[j + 1]));
      }
    }
  }

  lemma RemovedLookup(log: seq<Mapping>, k: nat)
    requires Disjoint(log) && k < |log|
    ensures Disjoint(RemoveAt(log, k))
    ensures forall v: nat :: Covers(log[k], v) ==>
      Lookup(RemoveAt(log, k), v).Miss? && Lookup(log, v) == Translate(log[k], v)
    ensures forall v: nat :: !Covers(log[k], v) ==> Lookup(RemoveAt(log, k), v) == Lookup(log, v)
  {
    RemovedDisjoint(log, k);
    forall v: nat
      ensures Covers(log[k], v) ==> Lookup(RemoveAt(log, k), v).Miss? && Lookup(log, v) == Translate(log[k], v)
      ensures !Covers(log[k], v) ==> Lookup(RemoveAt(log, k), v) == Lookup(log, v)
    {
      if Covers(log[k], v) {
        RemovedInside(log, k, v);
        LookupAt(log, k, v);
      } else {
        RemovedElsewhere(log, k, v);
      }
    }
  }
}
