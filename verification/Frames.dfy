/**
 Physical memory frames, how they are split, and what it means that no byte has two owners.
 */
module Frames {

  const BASE_PAGE_SIZE: nat := 4096
  const LARGE_PAGE_SIZE: nat := 2097152

  datatype Option<+T> = None | Some(value: T)

  datatype Frame = Frame(base: nat, size: nat, affinity: nat)

  const empty := Frame(0, 0, 0)

  function End(f: Frame): nat {
    f.base + f.size
  }

  /** Base and size are multiples of a base page. */
  predicate Paged(f: Frame) {
    f.base % BASE_PAGE_SIZE == 0 && f.size % BASE_PAGE_SIZE == 0
  }

  /** `g` is a part of `f`, or nothing at all. */
  predicate Within(g: Frame, f: Frame) {
    g.size == 0 || (f.base <= g.base && End(g) <= End(f) && g.affinity == f.affinity)
  }

  predicate Separate(f: Frame, g: Frame) {
    f.size == 0 || g.size == 0 || End(f) <= g.base || End(g) <= f.base
  }

  // ----- splitting

  /** Two parts that make up the frame, in order. */
  ghost predicate Parts(f: Frame, low: Frame, high: Frame) {
    && low.size + high.size == f.size
    && (low.size > 0 ==> low.base == f.base && low.affinity == f.affinity)
    && (high.size > 0 ==> high.base == f.base + low.size && high.affinity == f.affinity)
    && (Paged(f) ==> Paged(low) && Paged(high))
  }

  function SplitAt(f: Frame, size: nat): (r: (Frame, Frame))
    requires size % BASE_PAGE_SIZE == 0
    ensures Parts(f, r.0, r.1)
    ensures r.0.size == if size >= f.size then f.size else size
    ensures r.1 == empty <==> size >= f.size
  {
    if size >= f.size then (f, empty)
    else (Frame(f.base, size, f.affinity), Frame(f.base + size, f.size - size, f.affinity))
  }

  /** The upper part is aligned to a large page, or empty. */
  function SplitAtNearestLargePageBoundary(f: Frame): (r: (Frame, Frame))
    requires Paged(f)
    ensures Parts(f, r.0, r.1)
    ensures r.1.size > 0 ==> r.1.base % LARGE_PAGE_SIZE == 0
    ensures r.0.size < LARGE_PAGE_SIZE && (f.base % LARGE_PAGE_SIZE == 0 ==> r.1 == f)
  {
    if f.base % LARGE_PAGE_SIZE == 0 then (empty, f)
    else
      var rounded := RoundUp(f.base);
      SplitAt(f, rounded - f.base)
  }

  function RoundUp(a: nat): (r: nat)
    ensures a <= r < a + LARGE_PAGE_SIZE && r % LARGE_PAGE_SIZE == 0
    ensures a % BASE_PAGE_SIZE == 0 ==> (r - a) % BASE_PAGE_SIZE == 0
  {
    (a + LARGE_PAGE_SIZE - 1) / LARGE_PAGE_SIZE * LARGE_PAGE_SIZE
  }

  /** The base pages of a frame, one at a time from the bottom. */
  function NextPage(f: Frame): (r: (Option<Frame>, Frame))
    requires Paged(f)
    ensures r.0.Some? <==> f.size > 0
    ensures r.0.Some? ==> r.0.value == Frame(f.base, BASE_PAGE_SIZE, f.affinity) && Parts(f, r.0.value, r.1)
    ensures r.0.None? ==> r.1 == f
  {
    if f.size > BASE_PAGE_SIZE then
      var (low, high) := SplitAt(f, BASE_PAGE_SIZE);
      (Some(low), high)
    else if f.size == BASE_PAGE_SIZE then (Some(f), empty)
    else (None, f)
  }

  // ----- ownership

  /** No two of these frames share a byte. */
  ghost predicate Apart(ms: multiset<Frame>) {
    && (forall f, g :: f in ms && g in ms && f != g ==> Separate(f, g))
    && (forall f :: f in ms && f.size > 0 ==> ms[f] == 1)
  }

  /** All of these are parts of `f`. */
  ghost predicate Inside(ms: multiset<Frame>, f: Frame) {
    forall g :: g in ms ==> Within(g, f)
  }

  lemma ApartPart(a: multiset<Frame>, b: multiset<Frame>)
    requires Apart(a + b)
    ensures Apart(a)
  {
    forall f | f in a && f.size > 0 ensures a[f] == 1 {
      assert f in a + b;
    }
  }

  /** Replacing a frame by parts of it that are apart from each other. */
  lemma Refine(ms: multiset<Frame>, f: Frame, parts: multiset<Frame>)
    requires Apart(ms + multiset{f}) && Apart(parts) && Inside(parts, f)
    ensures Apart(ms + parts)
  {
    forall x, y | x in ms + parts && y in ms + parts && x != y ensures Separate(x, y) {
      assert f in ms + multiset{f};
      assert x in ms ==> x in ms + multiset{f};
      assert y in ms ==> y in ms + multiset{f};
      if x in ms && y in parts {
        OwnerApart(ms, f, x);
      } else if y in ms && x in parts {
        OwnerApart(ms, f, y);
      }
    }
    forall x | x in ms + parts && x.size > 0 ensures (ms + parts)[x] == 1 {
      if x in ms {
        OwnerApart(ms, f, x);
        assert x in ms + multiset{f};
      }
    }
  }

  lemma OwnerApart(ms: multiset<Frame>, f: Frame, x: Frame)
    requires Apart(ms + multiset{f}) && x in ms
    ensures Separate(x, f) && (x.size > 0 ==> ms[x] == 1)
  {
    assert x in ms + multiset{f} && f in ms + multiset{f};
    assert x == f ==> (ms + multiset{f})[f] >= 2;
  }

  /** Pages that lie one after the other between two addresses. */
  ghost predicate Laid(ms: multiset<Frame>, lo: nat, hi: nat) {
    Apart(ms) && forall g :: g in ms ==> g.size > 0 && lo <= g.base && End(g) <= hi
  }

  lemma LayNext(ms: multiset<Frame>, lo: nat, at: nat, page: Frame)
    requires Laid(ms, lo, at) && lo <= at == page.base && page.size > 0
    ensures Laid(ms + multiset{page}, lo, End(page))
  {
    var ms' := ms + multiset{page};
    assert page !in ms;
    forall x | x in ms' ensures ms'[x] == 1 {
    }
  }

  lemma LaidNothing(at: nat)
    ensures Laid(multiset{}, at, at)
  {
  }

  /** One stretch above another. */
  lemma LaidJoin(a: multiset<Frame>, lo: nat, mid: nat, b: multiset<Frame>, mid': nat, hi: nat)
    requires Laid(a, lo, mid) && Laid(b, mid', hi) && lo <= mid <= mid' <= hi
    ensures Laid(a + b, lo, hi)
  {
    var ms := a + b;
    forall f, g | f in ms && g in ms && f != g ensures Separate(f, g) {
    }
    forall f | f in ms ensures ms[f] == 1 {
    }
  }

  lemma LaidWider(ms: multiset<Frame>, lo: nat, hi: nat, hi': nat)
    requires Laid(ms, lo, hi) && hi <= hi'
    ensures Laid(ms, lo, hi')
  {
  }

  // ----- where frames come from

  /** Every byte lies in one of the boot frames, of the same node. */
  ghost predicate FromBoot(ms: multiset<Frame>, boot: seq<Frame>) {
    forall g :: g in ms && g.size > 0 ==> Backed(g, boot)
  }

  ghost predicate Backed(g: Frame, boot: seq<Frame>) {
    exists k :: 0 <= k < |boot| && Within(g, boot[k])
  }

  /** Parts of a frame come from where the frame came from. */
  lemma BackedParts(ms: multiset<Frame>, f: Frame, parts: multiset<Frame>, boot: seq<Frame>)
    requires FromBoot(ms + multiset{f}, boot) && Inside(parts, f)
    ensures FromBoot(ms + parts, boot)
  {
    assert f in ms + multiset{f};
    forall g | g in ms + parts && g.size > 0 ensures Backed(g, boot) {
      if g in ms {
        assert g in ms + multiset{f};
      } else {
        assert f.size > 0;
        var k :| 0 <= k < |boot| && Within(f, boot[k]);
        assert Within(g, boot[k]);
      }
    }
  }

  /** Owned by nobody else, and from the boot memory. */
  ghost predicate Sound(ms: multiset<Frame>, boot: seq<Frame>) {
    Apart(ms) && FromBoot(ms, boot)
  }

  lemma SoundRefine(ms: multiset<Frame>, f: Frame, parts: multiset<Frame>, boot: seq<Frame>)
    requires Sound(ms + multiset{f}, boot) && Apart(parts) && Inside(parts, f)
    ensures Sound(ms + parts, boot)
  {
    Refine(ms, f, parts);
    BackedParts(ms, f, parts, boot);
  }

  lemma SoundPart(a: multiset<Frame>, b: multiset<Frame>, boot: seq<Frame>)
    requires Sound(a + b, boot)
    ensures Sound(a, boot)
  {
    ApartPart(a, b);
    forall g | g in a && g.size > 0 ensures Backed(g, boot) {
      assert g in a + b;
    }
  }

  lemma AddBoth(a: multiset<Frame>, b: multiset<Frame>, r: multiset<Frame>, s: multiset<Frame>, t: multiset<Frame>)
    requires a + s == b + t
    ensures (a + r) + s == (b + r) + t
  {
    assert (a + r) + s == (a + s) + r && (b + r) + t == (b + t) + r;
  }
}
