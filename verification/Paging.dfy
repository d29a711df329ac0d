/**
 Four-level page tables as physical memory holds them, and the walk that resolves a
 virtual address.

 Tables are 512-entry pages, named by their physical address. Every table carries a ghost
 tag: its level and its number among the tables of that level, in the order of the virtual
 addresses they translate. The one well-formedness rule is local: the child in slot `i` of
 table number `n` is number `512 * n + i` one level down. Two different slots therefore never
 share a child, so a write through one path is never seen through another.
 */
module Paging {
  import opened Arith

  const BASE_PAGE_SIZE: nat := 0x1000
  const LARGE_PAGE_SIZE: nat := 0x20_0000
  const HUGE_PAGE_SIZE: nat := 0x4000_0000
  const GIB_512: nat := 0x80_0000_0000
  const VA_LIMIT: nat := 0x1_0000_0000_0000

  datatype MapAction =
    | NoAccess
    | ReadUser
    | ReadKernel
    | ReadWriteUser
    | ReadWriteKernel
    | ReadExecuteUser
    | ReadExecuteKernel
    | ReadWriteExecuteUser
    | ReadWriteExecuteKernel

  /** A table entry: not present, a mapped page, or a pointer to the next table. */
  datatype Entry =
    | Absent
    | Page(frame: nat, rights: MapAction)
    | Table(table: nat)

  type Memory = map<nat, seq<Entry>>

  /** A table's level, and which table it is among those of that level, in address order. */
  datatype Tag = Tag(level: nat, num: nat)

  /** What a walk finds: the level of the first absent entry, or the page that maps the address. */
  datatype Found =
    | Hole(level: nat)
    | Leaf(paddr: nat, rights: MapAction, level: nat)

  /** Bytes of virtual address space that one entry of a table of this level covers. */
  function Span(level: nat): nat {
    if level <= 1 then BASE_PAGE_SIZE
    else if level == 2 then LARGE_PAGE_SIZE
    else if level == 3 then HUGE_PAGE_SIZE
    else GIB_512
  }

  /** Bytes below the first `i` entries. Written by cases so that every product has a literal factor. */
  ghost function Offset(level: nat, i: nat): nat {
    if level <= 1 then 0x1000 * i
    else if level == 2 then 0x20_0000 * i
    else if level == 3 then 0x4000_0000 * i
    else 0x80_0000_0000 * i
  }

  function Index(level: nat, v: nat): (i: nat)
    ensures i < 512
  {
    (v / Span(level)) % 512
  }

  /** The four indices and the offset in a base page are the digits of an address. */
  lemma Digits(v: nat)
    requires v < VA_LIMIT
    ensures v == Index(4, v) * GIB_512 + Index(3, v) * HUGE_PAGE_SIZE + Index(2, v) * LARGE_PAGE_SIZE +
      Index(1, v) * BASE_PAGE_SIZE + v % BASE_PAGE_SIZE
  {
    var q1, r1 := v / 0x1000, v % 0x1000;
    var q2, r2 := q1 / 512, q1 % 512 * 0x1000 + r1;
    DivUnique(0x20_0000, q2, r2);
    var q3, r3 := q2 / 512, q2 % 512 * 0x20_0000 + r2;
    DivUnique(0x4000_0000, q3, r3);
    var q4, r4 := q3 / 512, q3 % 512 * 0x4000_0000 + r3;
    DivUnique(0x80_0000_0000, q4, r4);
    DivUnique(512, 0, q4);
  }

  function EmptyTable(): (t: seq<Entry>)
    ensures |t| == 512 && forall i :: 0 <= i < 512 ==> t[i] == Absent
  {
    seq(512, i => Absent)
  }

  // ----- well-formedness

  ghost predicate TagOk(tag: Tag) {
    && 1 <= tag.level <= 4
    && SlotBase(tag, 512) <= VA_LIMIT
  }

  /** The first virtual address below slot `i`. */
  ghost function SlotBase(tag: Tag, i: nat): nat {
    Offset(tag.level, 512 * tag.num + i)
  }

  ghost function ChildTag(tag: Tag, i: nat): Tag
    requires tag.level > 0
  {
    Tag(tag.level - 1, 512 * tag.num + i)
  }

  ghost predicate SlotOk(mem: Memory, tags: map<nat, Tag>, a: nat, i: nat)
    requires a in mem && a in tags && i < |mem[a]|
  {
    match mem[a][i]
    case Absent => true
    case Page(frame, _) => tags[a].level <= 3 && frame % Span(tags[a].level) == 0
    case Table(t) =>
      && tags[a].level >= 2
      && t in mem
      && t in tags
      && tags[t] == ChildTag(tags[a], i)
  }

  ghost predicate WellFormed(root: nat, mem: Memory, tags: map<nat, Tag>) {
    && mem.Keys == tags.Keys
    && root in mem
    && tags[root] == Tag(4, 0)
    && (forall a :: a in mem ==> |mem[a]| == 512 && TagOk(tags[a]))
    && (forall a, i :: a in mem && 0 <= i < 512 ==> SlotOk(mem, tags, a, i))
  }

  // ----- the walk

  /** The walk from table `a` of the given level. */
  function Walk(mem: Memory, a: nat, level: nat, v: nat): Found
    decreases level
  {
    if level == 0 || a !in mem || |mem[a]| != 512 then Hole(level)
    else
      match mem[a][Index(level, v)]
      case Absent => Hole(level)
      case Page(frame, rights) => Leaf(frame + v % Span(level), rights, level)
      case Table(t) => Walk(mem, t, level - 1, v)
  }

  function Look(mem: Memory, root: nat, v: nat): Found {
    Walk(mem, root, 4, v)
  }

  /** `resolve_addr`, table by table. */
  function ResolveAddr(mem: Memory, root: nat, ghost tags: map<nat, Tag>, v: nat): Resolved
    requires WellFormed(root, mem, tags)
  {
    assert SlotOk(mem, tags, root, Index(4, v));
    match mem[root][Index(4, v)]
    case Absent => Unmapped
    case Page(_, _) => Unmapped
    case Table(pdpt) =>
      assert SlotOk(mem, tags, pdpt, Index(3, v));
      match mem[pdpt][Index(3, v)]
      case Absent => Unmapped
      case Page(frame, _) => At(frame + v % HUGE_PAGE_SIZE)
      case Table(pd) =>
        assert SlotOk(mem, tags, pd, Index(2, v));
        match mem[pd][Index(2, v)]
        case Absent => Unmapped
        case Page(frame, _) => At(frame + v % LARGE_PAGE_SIZE)
        case Table(pt) =>
          match mem[pt][Index(1, v)]
          case Absent => Unmapped
          case Page(frame, _) => At(frame + v % BASE_PAGE_SIZE)
          case Table(_) => Unmapped
  }

  datatype Resolved = Unmapped | At(paddr: nat)

  lemma ResolveIsWalk(root: nat, mem: Memory, tags: map<nat, Tag>, v: nat)
    requires WellFormed(root, mem, tags)
    ensures ResolveAddr(mem, root, tags, v) ==
      match Look(mem, root, v) { case Hole(_) => Unmapped case Leaf(p, _, _) => At(p) }
  {
    assert SlotOk(mem, tags, root, Index(4, v));
    match mem[root][Index(4, v)] {
      case Absent =>
      case Page(_, _) =>
      case Table(pdpt) =>
        assert SlotOk(mem, tags, pdpt, Index(3, v));
        match mem[pdpt][Index(3, v)] {
          case Absent =>
          case Page(_, _) =>
          case Table(pd) =>
            assert SlotOk(mem, tags, pd, Index(2, v));
            match mem[pd][Index(2, v)] {
              case Absent =>
              case Page(_, _) =>
              case Table(pt) => assert SlotOk(mem, tags, pt, Index(1, v));
            }
        }
    }
  }

  // ----- slots and the addresses below them

  /** The address lies under slot `i` of a table with this tag. */
  ghost predicate InSlot(tag: Tag, i: nat, v: nat) {
    SlotBase(tag, i) <= v < SlotBase(tag, i) + Span(tag.level)
  }

  ghost predicate InTable(tag: Tag, v: nat) {
    SlotBase(tag, 0) <= v < SlotBase(tag, 512)
  }

  lemma OffsetIsProduct(level: nat, n: nat)
    ensures Offset(level, n) == Span(level) * n
  {
  }

  /** The slot that `Index` selects is the only one `v` lies under, and its base is `v` rounded down. */
  lemma IndexIsSlot(tag: Tag, v: nat, i: nat)
    requires i < 512 && InSlot(tag, i, v)
    ensures i == Index(tag.level, v)
    ensures v % Span(tag.level) == v - SlotBase(tag, i)
    ensures v / Span(tag.level) * Span(tag.level) == SlotBase(tag, i)
    ensures SlotBase(tag, i) % Span(tag.level) == 0
    ensures InTable(tag, v)
  {
    var n := 512 * tag.num + i;
    OffsetIsProduct(tag.level, n);
    DivUnique(Span(tag.level), n, v - SlotBase(tag, i));
    DivUnique(Span(tag.level), n, 0);
    assert n % 512 == i;
  }

  lemma IndexExists(tag: Tag, v: nat)
    requires InTable(tag, v)
    ensures InSlot(tag, Index(tag.level, v), v)
  {
    var s, d := Span(tag.level), v - SlotBase(tag, 0);
    var k, r := d / s, d % s;
    assert d == k * s + r;
    OffsetIsProduct(tag.level, 512 * tag.num);
    OffsetIsProduct(tag.level, 512 * tag.num + 512);
    OffsetIsProduct(tag.level, 512 * tag.num + k);
    assert s * (512 * tag.num + k) == s * (512 * tag.num) + k * s;
    assert k >= 512 ==> k * s >= 512 * s;
    IndexIsSlot(tag, v, k);
  }

  /** The table `t` (of level `tl`) is the one the walk for `v` passes through. */
  ghost predicate Reach(mem: Memory, a: nat, level: nat, t: nat, tl: nat, v: nat)
    decreases level
  {
    if level <= tl then a == t && level == tl
    else
      && a in mem
      && |mem[a]| == 512
      && mem[a][Index(level, v)].Table?
      && Reach(mem, mem[a][Index(level, v)].table, level - 1, t, tl, v)
  }

  lemma {:induction false} ReachWalk(mem: Memory, a: nat, level: nat, t: nat, tl: nat, v: nat)
    requires Reach(mem, a, level, t, tl, v)
    ensures Walk(mem, a, level, v) == Walk(mem, t, tl, v)
    decreases level
  {
    if level > tl {
      ReachWalk(mem, mem[a][Index(level, v)].table, level - 1, t, tl, v);
    }
  }

  /** One path serves every address under the table it leads to. */
  lemma {:induction false} ReachAll(root: nat, mem: Memory, tags: map<nat, Tag>, a: nat, t: nat, v: nat, w: nat)
    requires WellFormed(root, mem, tags) && a in mem && t in mem
    requires Reach(mem, a, tags[a].level, t, tags[t].level, v)
    requires InTable(tags[a], v) && InTable(tags[t], w)
    ensures InTable(tags[a], w)
    ensures Reach(mem, a, tags[a].level, t, tags[t].level, w)
    decreases tags[a].level
  {
    var level := tags[a].level;
    if level > tags[t].level {
      var i := Index(level, v);
      assert SlotOk(mem, tags, a, i);
      var c := mem[a][i].table;
      IndexExists(tags[a], v);
      ChildTable(tags[a], i, v);
      ReachAll(root, mem, tags, c, t, v, w);
      ChildTable(tags[a], i, w);
      IndexIsSlot(tags[a], w, i);
    }
  }

  /** The addresses under slot `i` are those of the child table. */
  lemma ChildTable(tag: Tag, i: nat, v: nat)
    requires TagOk(tag) && i < 512 && tag.level >= 2
    ensures TagOk(ChildTag(tag, i))
    ensures InSlot(tag, i, v) <==> InTable(ChildTag(tag, i), v)
    ensures InSlot(tag, i, v) ==> InTable(tag, v)
  {
    if tag.level == 2 {
    } else if tag.level == 3 {
    } else {
    }
  }

  // ----- one table entry is written

  function Write(mem: Memory, t: nat, i: nat, e: Entry): Memory
    requires t in mem && i < |mem[t]|
  {
    mem[t := mem[t][i := e]]
  }

  /** `m1` has all the tables of `m0`, and they differ at most in slot `i` of table `t`. */
  ghost predicate SameBut(m0: Memory, m1: Memory, t: nat, i: nat) {
    forall a :: a in m0 ==>
      a in m1 && |m1[a]| == |m0[a]| &&
      forall k :: 0 <= k < |m0[a]| && (a != t || k != i) ==> m1[a][k] == m0[a][k]
  }

  /** Only the addresses under the written slot can notice the write. */
  lemma {:induction false} WalkFrame(root: nat, m0: Memory, m1: Memory, tags: map<nat, Tag>, a: nat, t: nat, i: nat,
                                     v: nat)
    requires WellFormed(root, m0, tags) && a in m0 && t in m0 && i < 512
    requires SameBut(m0, m1, t, i)
    requires InTable(tags[a], v) && !InSlot(tags[t], i, v)
    ensures Walk(m1, a, tags[a].level, v) == Walk(m0, a, tags[a].level, v)
    decreases tags[a].level
  {
    var k := Index(tags[a].level, v);
    IndexExists(tags[a], v);
    assert SlotOk(m0, tags, a, k);
    assert m1[a][k] == m0[a][k];
    if m0[a][k].Table? {
      ChildTable(tags[a], k, v);
      WalkFrame(root, m0, m1, tags, m0[a][k].table, t, i, v);
    }
  }

  /** A write to `t` leaves the path to `t` alone: every table on it has a higher level. */
  lemma {:induction false} ReachFrame(root: nat, m0: Memory, m1: Memory, tags: map<nat, Tag>, a: nat, t: nat, i: nat,
                                      v: nat)
    requires WellFormed(root, m0, tags) && a in m0 && t in m0
    requires SameBut(m0, m1, t, i)
    requires Reach(m0, a, tags[a].level, t, tags[t].level, v)
    ensures Reach(m1, a, tags[a].level, t, tags[t].level, v)
    decreases tags[a].level
  {
    if tags[a].level > tags[t].level {
      assert SlotOk(m0, tags, a, Index(tags[a].level, v));
      ReachFrame(root, m0, m1, tags, m0[a][Index(tags[a].level, v)].table, t, i, v);
    }
  }

  /** The walk from the root for any address under slot `i` of `t`, before and after the write. */
  lemma WalkUnder(root: nat, m0: Memory, m1: Memory, tags: map<nat, Tag>, t: nat, i: nat, at: nat, v: nat)
    requires WellFormed(root, m0, tags) && t in m0 && i < 512
    requires SameBut(m0, m1, t, i)
    requires at < VA_LIMIT && Reach(m0, root, 4, t, tags[t].level, at)
    requires InTable(tags[t], v) && InSlot(tags[t], i, v)
    ensures Look(m0, root, v) == Walk(m0, t, tags[t].level, v)
    ensures Look(m1, root, v) == Walk(m1, t, tags[t].level, v)
    ensures Index(tags[t].level, v) == i
  {
    IndexIsSlot(tags[t], v, i);
    ReachAll(root, m0, tags, root, t, at, v);
    ReachFrame(root, m0, m1, tags, root, t, i, v);
    ReachWalk(m0, root, 4, t, tags[t].level, v);
    ReachWalk(m1, root, 4, t, tags[t].level, v);
  }

  // ----- what a mapping request changes

  /** The aligned block of this level around `v` avoids the touched range `[lo, hi)` and the address `lo`. */
  ghost predicate Apart(level: nat, v: nat, lo: nat, hi: nat) {
    var b := v / Span(level) * Span(level);
    b + Span(level) <= lo || (hi <= b && lo < b)
  }

  /** Outside the range: a mapping stays as it was, and a hole stays a hole, one whose
      2 MiB or 1 GiB block is still entirely absent unless the request touched that block. */
  ghost predicate Kept(f0: Found, f1: Found, v: nat, lo: nat, hi: nat) {
    match f0
    case Leaf(_, _, _) => f1 == f0
    case Hole(k) =>
      && f1.Hole?
      && f1.level <= k
      && (k >= 2 && Apart(2, v, lo, hi) ==> f1.level >= 2)
      && (k >= 3 && Apart(3, v, lo, hi) ==> f1.level >= 3)
  }

  ghost predicate MappedTo(f: Found, paddr: int, rights: MapAction) {
    f.Leaf? && f.paddr == paddr && f.rights == rights
  }

  ghost predicate Changed(f0: Found, f1: Found, v: nat, lo: nat, hi: nat, pbase: nat, rights: MapAction) {
    if lo <= v < hi then MappedTo(f1, pbase + (v - lo), rights) else Kept(f0, f1, v, lo, hi)
  }

  /** `m1` is `m0` with `[lo, hi)` mapped to physical memory from `pbase` on, and nothing else. */
  ghost predicate Maps(root: nat, m0: Memory, m1: Memory, lo: nat, hi: nat, pbase: nat, rights: MapAction) {
    forall v :: 0 <= v < VA_LIMIT ==> Changed(Look(m0, root, v), Look(m1, root, v), v, lo, hi, pbase, rights)
  }

  /** No address of `[lo, hi)` is mapped. */
  ghost predicate Clear(mem: Memory, root: nat, lo: nat, hi: nat) {
    forall v :: lo <= v < hi ==> Look(mem, root, v).Hole?
  }

  /** All of `[lo, hi)` is mapped by entries of this level. */
  ghost predicate LeafLevel(mem: Memory, root: nat, lo: nat, hi: nat, level: nat) {
    forall v :: lo <= v < hi ==> Look(mem, root, v).Leaf? && Look(mem, root, v).level == level
  }

  lemma KeptTrans(f0: Found, f1: Found, f2: Found, v: nat, lo: nat, mid: nat, hi: nat)
    requires lo <= mid <= hi && (lo == mid || mid < hi)
    requires Kept(f0, f1, v, lo, mid) && Kept(f1, f2, v, mid, hi)
    ensures Kept(f0, f2, v, lo, hi)
  {
  }

  lemma MapsTrans(root: nat, m0: Memory, m1: Memory, m2: Memory, lo: nat, mid: nat, hi: nat, pbase: nat,
                  rights: MapAction)
    requires lo <= mid <= hi && (lo == mid || mid < hi)
    requires Maps(root, m0, m1, lo, mid, pbase, rights)
    requires Maps(root, m1, m2, mid, hi, pbase + (mid - lo), rights)
    ensures Maps(root, m0, m2, lo, hi, pbase, rights)
  {
    forall v | 0 <= v < VA_LIMIT
      ensures Changed(Look(m0, root, v), Look(m2, root, v), v, lo, hi, pbase, rights)
    {
      assert Changed(Look(m0, root, v), Look(m1, root, v), v, lo, mid, pbase, rights);
      assert Changed(Look(m1, root, v), Look(m2, root, v), v, mid, hi, pbase + (mid - lo), rights);
      if v < lo || hi <= v {
        KeptTrans(Look(m0, root, v), Look(m1, root, v), Look(m2, root, v), v, lo, mid, hi);
      }
    }
  }

  // ----- the two kinds of write

  /** Writing a page entry maps exactly the addresses under that slot. */
  lemma PageWritten(root: nat, mem: Memory, tags: map<nat, Tag>, t: nat, i: nat, e: Entry, at: nat)
    requires WellFormed(root, mem, tags) && t in mem && i < 512
    requires at < VA_LIMIT && Reach(mem, root, 4, t, tags[t].level, at)
    requires e.Page? && tags[t].level <= 3 && e.frame % Span(tags[t].level) == 0
    ensures WellFormed(root, Write(mem, t, i, e), tags)
    ensures Maps(root, mem, Write(mem, t, i, e),
                 SlotBase(tags[t], i), SlotBase(tags[t], i) + Span(tags[t].level), e.frame, e.rights)
    ensures LeafLevel(Write(mem, t, i, e), root,
                      SlotBase(tags[t], i), SlotBase(tags[t], i) + Span(tags[t].level), tags[t].level)
  {
    var mem' := Write(mem, t, i, e);
    var lo := SlotBase(tags[t], i);
    forall a, k | a in mem' && 0 <= k < 512 ensures SlotOk(mem', tags, a, k) {
      assert SlotOk(mem, tags, a, k);
    }
    forall v | lo <= v < lo + Span(tags[t].level)
      ensures Look(mem', root, v) == Leaf(e.frame + (v - lo), e.rights, tags[t].level)
    {
      IndexIsSlot(tags[t], v, i);
      WalkUnder(root, mem, mem', tags, t, i, at, v);
    }
    forall v | 0 <= v < VA_LIMIT
      ensures Changed(Look(mem, root, v), Look(mem', root, v), v, lo, lo + Span(tags[t].level), e.frame, e.rights)
    {
      if !InSlot(tags[t], i, v) {
        WalkFrame(root, mem, mem', tags, root, t, i, v);
      }
    }
  }

  ghost function AddTable(mem: Memory, t: nat, i: nat, n: nat): Memory
    requires t in mem && i < |mem[t]|
  {
    Write(mem, t, i, Table(n))[n := EmptyTable()]
  }

  lemma AddWellFormed(root: nat, mem: Memory, tags: map<nat, Tag>, t: nat, i: nat, n: nat)
    requires WellFormed(root, mem, tags) && t in mem && i < 512 && n !in mem
    requires tags[t].level >= 2
    ensures WellFormed(root, AddTable(mem, t, i, n), tags[n := ChildTag(tags[t], i)])
    ensures SameBut(mem, AddTable(mem, t, i, n), t, i)
  {
    var mem', tags' := AddTable(mem, t, i, n), tags[n := ChildTag(tags[t], i)];
    ChildTable(tags[t], i, SlotBase(tags[t], i));
    forall a, k | a in mem' && 0 <= k < 512 ensures SlotOk(mem', tags', a, k) {
      if a in mem {
        assert SlotOk(mem, tags, a, k);
      }
    }
  }

  /** A slot that held nothing now leads to an empty table: one level deeper, still a hole. */
  lemma AddKeeps(root: nat, mem: Memory, tags: map<nat, Tag>, t: nat, i: nat, n: nat, at: nat, v: nat)
    requires WellFormed(root, mem, tags) && t in mem && i < 512 && n !in mem
    requires at < VA_LIMIT && Reach(mem, root, 4, t, tags[t].level, at)
    requires tags[t].level >= 2 && mem[t][i] == Absent && InSlot(tags[t], i, at)
    requires v < VA_LIMIT
    ensures Kept(Look(mem, root, v), Look(AddTable(mem, t, i, n), root, v), v, at, at)
  {
    var mem' := AddTable(mem, t, i, n);
    AddWellFormed(root, mem, tags, t, i, n);
    if InSlot(tags[t], i, v) {
      IndexIsSlot(tags[t], at, i);
      IndexIsSlot(tags[t], v, i);
      WalkUnder(root, mem, mem', tags, t, i, at, v);
      assert Walk(mem', n, tags[t].level - 1, v) == Hole(tags[t].level - 1);
    } else {
      WalkFrame(root, mem, mem', tags, root, t, i, v);
    }
  }

  /** Hanging a fresh empty table under an absent slot changes no translation. */
  lemma TableAdded(root: nat, mem: Memory, tags: map<nat, Tag>, t: nat, i: nat, n: nat, at: nat, pbase: nat,
                   rights: MapAction)
    requires WellFormed(root, mem, tags) && t in mem && i < 512 && n !in mem
    requires at < VA_LIMIT && Reach(mem, root, 4, t, tags[t].level, at)
    requires tags[t].level >= 2 && mem[t][i] == Absent && InSlot(tags[t], i, at)
    ensures WellFormed(root, AddTable(mem, t, i, n), tags[n := ChildTag(tags[t], i)])
    ensures Maps(root, mem, AddTable(mem, t, i, n), at, at, pbase, rights)
    ensures Reach(AddTable(mem, t, i, n), root, 4, n, tags[t].level - 1, at)
  {
    var mem' := AddTable(mem, t, i, n);
    AddWellFormed(root, mem, tags, t, i, n);
    forall v | 0 <= v < VA_LIMIT
      ensures Changed(Look(mem, root, v), Look(mem', root, v), v, at, at, pbase, rights)
    {
      AddKeeps(root, mem, tags, t, i, n, at, v);
    }
    ReachFrame(root, mem, mem', tags, root, t, i, at);
    IndexIsSlot(tags[t], at, i);
    ReachStep(mem', root, 4, t, tags[t].level, at);
  }

  lemma {:induction false} ReachStep(mem: Memory, a: nat, level: nat, t: nat, tl: nat, v: nat)
    requires Reach(mem, a, level, t, tl, v) && tl >= 1
    requires t in mem && |mem[t]| == 512 && mem[t][Index(tl, v)].Table?
    ensures Reach(mem, a, level, mem[t][Index(tl, v)].table, tl - 1, v)
    decreases level
  {
    if level > tl {
      ReachStep(mem, mem[a][Index(level, v)].table, level - 1, t, tl, v);
    }
  }
}
