/**
 The timed waitlist of a scheduler core: threads with deadlines, the next one to wake up last.
 */
module Waitlist {

  datatype Entry = Entry(deadline: nat, tid: nat)

  /** By deadline, and by thread id where deadlines are equal. */
  predicate Less(a: Entry, b: Entry) {
    a.deadline < b.deadline || (a.deadline == b.deadline && a.tid < b.tid)
  }

  ghost predicate Descending(w: seq<Entry>) {
    forall i, j :: 0 <= i < j < |w| ==> Less(w[j], w[i])
  }

  /** The entries of other threads, in their order. */
  function Retain(w: seq<Entry>, tid: nat): (r: seq<Entry>)
    ensures forall e :: e in r <==> e in w && e.tid != tid
  {
    if w == [] then []
    else
      var last := w[|w| - 1];
      var r := Retain(w[..|w| - 1], tid);
      assert forall e :: e in w <==> e in w[..|w| - 1] || e == last;
      if last.tid != tid then r + [last] else r
  }

  lemma {:induction false} RetainDescending(w: seq<Entry>, tid: nat)
    requires Descending(w)
    ensures Descending(Retain(w, tid))
    decreases |w|
  {
    if w != [] {
      var rest := w[..|w| - 1];
      RetainDescending(rest, tid);
      var r := Retain(rest, tid);
      forall i | 0 <= i < |r| ensures Less(w[|w| - 1], r[i]) {
        assert r[i] in rest;
      }
    }
  }

  /** The thread ids from the end of the list to its front. */
  function Upwards(w: seq<Entry>): (tids: seq<nat>)
    ensures |tids| == |w|
    ensures forall i :: 0 <= i < |w| ==> tids[i] == w[|w| - 1 - i].tid
  {
    if w == [] then [] else [w[|w| - 1].tid] + Upwards(w[..|w| - 1])
  }

  class Core {
    var runnable: seq<nat>
    var waiting: seq<Entry>

    constructor ()
      ensures runnable == [] && waiting == [] && Descending(waiting)
    {
      runnable, waiting := [], [];
    }

    /** Where the entry is, or where it belongs. */
    method Search(x: Entry) returns (found: bool, pos: nat)
      requires Descending(waiting)
      ensures found <==> x in waiting
      ensures !found ==> pos <= |waiting|
      ensures !found ==> forall i :: 0 <= i < pos ==> Less(x, waiting[i])
      ensures !found ==> forall i :: pos <= i < |waiting| ==> Less(waiting[i], x)
    {
      var lo, hi := 0, |waiting|;
      while lo < hi
        invariant 0 <= lo <= hi <= |waiting|
        invariant forall i :: 0 <= i < lo ==> Less(x, waiting[i])
        invariant forall i :: hi <= i < |waiting| ==> Less(waiting[i], x)
      {
        var mid := (lo + hi) / 2;
        if waiting[mid] == x {
          return true, mid;
        } else if Less(x, waiting[mid]) {
          lo := mid + 1;
        } else {
          hi := mid;
        }
      }
      return false, lo;
    }

    /** A thread that waits for this very deadline already is a panic. */
    method WaitlistInsert(tid: nat, until: nat) returns (ok: bool)
      requires Descending(waiting)
      modifies this`waiting
      ensures Descending(waiting) && (ok <==> Entry(until, tid) !in old(waiting))
      ensures multiset(waiting) ==
        if ok then multiset(old(waiting)) + multiset{Entry(until, tid)} else multiset(old(waiting))
    {
      var x := Entry(until, tid);
      var found, pos := Search(x);
      if found {
        return false;
      }
      assert waiting == waiting[..pos] + waiting[pos..];
      waiting := waiting[..pos] + [x] + waiting[pos..];
      return true;
    }

    method WaitlistRemove(tid: nat)
      requires Descending(waiting)
      modifies this`waiting
      ensures Descending(waiting) && waiting == Retain(old(waiting), tid)
    {
      var kept := [];
      var i := 0;
      assert waiting[..0] == [];
      while i < |waiting|
        invariant 0 <= i <= |waiting| && kept == Retain(waiting[..i], tid)
      {
        assert waiting[..i + 1][..i] == waiting[..i];
        if waiting[i].tid != tid {
          kept := kept + [waiting[i]];
        }
        i := i + 1;
      }
      assert waiting[..i] == waiting;
      RetainDescending(waiting, tid);
      waiting := kept;
    }

    /**
     Wake every thread whose deadline has passed. The clock is read before each step, `clock(k)` being
     its reading number `k`; it does not go back. `readings` counts how often it was read.
     */
    method CheckWakeups(clock: nat -> nat) returns (ghost woken: seq<Entry>, ghost readings: nat)
      requires Descending(waiting) && forall i: nat, j: nat :: i <= j ==> clock(i) <= clock(j)
      modifies this
      ensures Descending(waiting) && old(waiting) == waiting + woken
      ensures runnable == old(runnable) + Upwards(woken)
      ensures forall i, j :: 0 <= i < j < |woken| ==>
        woken[j].deadline < woken[i].deadline ||
        (woken[j].deadline == woken[i].deadline && woken[j].tid < woken[i].tid)
      ensures readings == 0 <==> old(waiting) == []
      ensures readings > 0 ==> forall e :: e in woken ==> e.deadline <= clock(readings - 1)
      ensures readings > 0 ==> forall e :: e in waiting ==> e.deadline > clock(readings - 1)
    {
      woken, readings := [], 0;
      var k := 0;
      while waiting != [] && waiting[|waiting| - 1].deadline <= clock(k)
        invariant old(waiting) == waiting + woken && |woken| == readings == k
        invariant runnable == old(runnable) + Upwards(woken)
        invariant k > 0 ==> forall e :: e in woken ==> e.deadline <= clock(k - 1)
        decreases |waiting|
      {
        var e := waiting[|waiting| - 1];
        Further(woken, e);
        waiting := waiting[..|waiting| - 1];
        runnable := runnable + [e.tid];
        woken := [e] + woken;
        k := k + 1;
        readings := k;
      }
      if waiting != [] {
        readings := k + 1;
      }
      Ends(old(waiting), waiting, woken);
    }
  }

  lemma Further(woken: seq<Entry>, e: Entry)
    ensures Upwards([e] + woken) == Upwards(woken) + [e.tid]
  {
  }

  /** The parts of a descending list descend, and what is not at the end of it is later. */
  lemma Ends(w: seq<Entry>, front: seq<Entry>, back: seq<Entry>)
    requires Descending(w) && w == front + back
    ensures Descending(front) && Descending(back)
    ensures front != [] ==> forall e :: e in front ==> e.deadline >= front[|front| - 1].deadline
  {
    forall i, j | 0 <= i < j < |front| ensures Less(front[j], front[i]) {
      assert front[i] == w[i] && front[j] == w[j];
    }
    forall i, j | 0 <= i < j < |back| ensures Less(back[j], back[i]) {
      assert back[i] == w[|front| + i] && back[j] == w[|front| + j];
    }
  }
}
