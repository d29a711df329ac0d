/**
 Positions on a ring that is written round after round, with a generation bit per round.

 A position counts from the start and never wraps; its slot and its generation do.
 */
module Ring {
  import opened Arith

  function Slot(p: nat, n: nat): (j: nat)
    requires n > 0
    ensures j < n
  {
    p % n
  }

  /** The generation of the first round is one. */
  function Gen(p: nat, n: nat): (g: nat)
    requires n > 0
    ensures g <= 1
  {
    if (p / n) % 2 == 0 then 1 else 0
  }

  lemma Advance(p: nat, n: nat)
    requires n > 0
    ensures Slot(p + 1, n) == if Slot(p, n) + 1 == n then 0 else Slot(p, n) + 1
    ensures Gen(p + 1, n) == if Slot(p, n) + 1 == n then 1 - Gen(p, n) else Gen(p, n)
  {
    var q, r := p / n, p % n;
    assert p == n * q + r;
    if r + 1 == n {
      assert p + 1 == n * (q + 1) + 0;
      DivUnique(n, q + 1, 0);
    } else {
      DivUnique(n, q, r + 1);
    }
  }

  /** One round later: the same slot, the other generation. */
  lemma Around(p: nat, n: nat)
    requires n > 0
    ensures Slot(p + n, n) == Slot(p, n) && Gen(p + n, n) == 1 - Gen(p, n)
  {
    var q, r := p / n, p % n;
    assert p + n == n * (q + 1) + r;
    DivUnique(n, q + 1, r);
  }

  lemma FirstRound(p: nat, n: nat)
    requires p < n
    ensures Slot(p, n) == p && Gen(p, n) == 1
  {
    DivUnique(n, 0, p);
  }

  lemma SlotsApart(p: nat, q: nat, n: nat)
    requires n > 0 && p < q < p + n
    ensures Slot(p, n) != Slot(q, n)
  {
    if Slot(p, n) == Slot(q, n) {
      SameResidue(n, p, q);
    }
  }

  /** The distance between two slots is the distance between positions less than a round apart. */
  lemma SlotDistance(p: nat, q: nat, n: nat)
    requires n > 0 && p <= q < p + n
    ensures (Slot(q, n) - Slot(p, n)) % n == q - p
  {
    var d := Slot(q, n) - Slot(p, n);
    assert q - p == d + n * (q / n - p / n);
    var k := q / n - p / n;
    assert d == n * (-k) + (q - p);
    assert d == n * (d / n) + d % n;
    ZeroByMagnitude(n, d / n + k, (q - p) - d % n);
  }

  /** The ring holds the last round of what was written, and blanks where nothing was. */
  ghost predicate Holds<T>(ring: seq<T>, log: seq<T>, blank: T) {
    var n := |ring|;
    && (forall p :: 0 <= p < |log| <= p + n ==> ring[Slot(p, n)] == log[p])
    && (forall p :: |log| <= p < n ==> ring[p] == blank)
  }

  lemma Write<T>(ring: seq<T>, log: seq<T>, blank: T, x: T)
    requires |ring| > 0 && Holds(ring, log, blank)
    ensures Holds(ring[Slot(|log|, |ring|) := x], log + [x], blank)
  {
    var n := |ring|;
    var ring', log' := ring[Slot(|log|, n) := x], log + [x];
    forall p | 0 <= p < |log'| <= p + n ensures ring'[Slot(p, n)] == log'[p] {
      if p < |log| {
        SlotsApart(p, |log|, n);
      }
    }
    if |log| < n {
      FirstRound(|log|, n);
    }
  }
}
