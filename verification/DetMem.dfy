/**
 The deterministic allocator: the replica that is ahead allocates for all, and queues what the
 others will ask for.

 One requester per node; every node makes the same sequence of requests, `req(0)`, `req(1)`, and so
 on. One step is one queue operation, one lock operation or the allocation of a batch. The first pop
 may miss an entry that is being pushed. `mismatches` counts failed layout assertions, `overflows`
 pushes to a full queue. Pointers are numbers, null is zero.
 */
module DetMem {

  datatype Option<+T> = None | Some(value: T)

  /** The capacity asked for, 32000, rounded up to a power of two. */
  const CAPACITY: nat := 32768

  datatype Entry = Entry(layout: nat, ptr: nat)

  /** One allocation on every node, by the leader. */
  datatype Batch = Batch(layout: nat, ptrs: seq<nat>, leader: nat, ok: bool)

  datatype Pc = Idle | Waiting | Locked | Pushing(at: nat)

  datatype Alloc = Alloc(
    queues: seq<seq<Entry>>,
    fill: Option<nat>,
    pcs: seq<Pc>,
    answers: seq<seq<nat>>,
    batches: seq<Batch>,
    used: set<nat>,
    mismatches: nat,
    overflows: nat)

  datatype Act = Pop | Miss | Lock | Fill(ptrs: seq<nat>) | Push

  /** One queue, one requester and one sequence of answers for each node. */
  predicate Shaped(s: Alloc) {
    |s.queues| == |s.pcs| == |s.answers|
  }

  predicate SameShape(s: Alloc, r: Alloc) {
    Shaped(r) && |r.pcs| == |s.pcs|
  }

  // ----- steps

  /** Answer the current request of node `i` from the front of its queue. */
  function Take(s: Alloc, req: nat -> nat, i: nat): (r: Alloc)
    requires Shaped(s) && i < |s.pcs| && s.queues[i] != []
    ensures SameShape(s, r)
  {
    var e := s.queues[i][0];
    s.(queues := s.queues[i := s.queues[i][1..]],
       answers := s.answers[i := s.answers[i] + [e.ptr]],
       pcs := s.pcs[i := Idle],
       mismatches := if e.layout == req(|s.answers[i]|) then s.mismatches else s.mismatches + 1)
  }

  /** The allocator hands out memory it has not handed out, or null. */
  ghost predicate Available(s: Alloc, ptrs: seq<nat>) {
    && |ptrs| == |s.pcs|
    && (forall j :: 0 <= j < |ptrs| && ptrs[j] != 0 ==> ptrs[j] !in s.used)
    && (forall j, k :: 0 <= j < k < |ptrs| && ptrs[j] != 0 ==> ptrs[j] != ptrs[k])
  }

  predicate Succeeded(ptrs: seq<nat>) {
    forall j :: 0 <= j < |ptrs| ==> ptrs[j] != 0
  }

  /** With the lock held: somebody else has filled the queue, or allocate for everybody. */
  ghost function SecondPop(s: Alloc, req: nat -> nat, i: nat, ptrs: seq<nat>): (r: Alloc)
    requires Shaped(s) && i < |s.pcs|
    ensures SameShape(s, r)
  {
    if s.queues[i] != [] then Take(s, req, i).(fill := None)
    else if !Available(s, ptrs) then s
    else
      s.(batches := s.batches + [Batch(req(|s.answers[i]|), ptrs, i, Succeeded(ptrs))],
         used := s.used + (set j | 0 <= j < |ptrs| :: ptrs[j]),
         pcs := s.pcs[i := Pushing(0)])
  }

  function Append(s: Alloc, j: nat, e: Entry): (r: Alloc)
    requires Shaped(s) && j < |s.pcs|
    ensures SameShape(s, r)
  {
    s.(queues := s.queues[j := s.queues[j] + [e]])
  }

  /**
   One round of the pushing loop of node `i`. After a success every queue but its own gets its
   pointer; after a failure every queue, its own included, gets a null. Either way the answer is
   what was allocated for node `i`.
   */
  function PushNext(s: Alloc, req: nat -> nat, i: nat): (r: Alloc)
    requires Shaped(s) && i < |s.pcs| && s.pcs[i].Pushing?
    ensures SameShape(s, r)
  {
    var at := s.pcs[i].at;
    if s.batches == [] then s
    else
      var b := s.batches[|s.batches| - 1];
      if at >= |s.pcs| then
        if i >= |b.ptrs| then s
        else s.(answers := s.answers[i := s.answers[i] + [b.ptrs[i]]], pcs := s.pcs[i := Idle], fill := None)
      else if b.ok && at == i then s.(pcs := s.pcs[i := Pushing(at + 1)])
      else if |s.queues[at]| >= CAPACITY then s.(overflows := s.overflows + 1)
      else
        var ptr := if b.ok && at < |b.ptrs| then b.ptrs[at] else 0;
        Append(s, at, Entry(b.layout, ptr)).(pcs := s.pcs[i := Pushing(at + 1)])
  }

  ghost function Next(s: Alloc, req: nat -> nat, i: nat, act: Act): (r: Alloc)
    requires Shaped(s) && i < |s.pcs|
    ensures SameShape(s, r)
  {
    match s.pcs[i]
    case Idle =>
      if act.Pop? && s.queues[i] != [] then Take(s, req, i)
      else if act.Pop? || act.Miss? then s.(pcs := s.pcs[i := Waiting])
      else s
    case Waiting => if act.Lock? && s.fill.None? then s.(fill := Some(i), pcs := s.pcs[i := Locked]) else s
    case Locked => if act.Fill? then SecondPop(s, req, i, act.ptrs) else s
    case Pushing(_) => if act.Push? then PushNext(s, req, i) else s
  }

  ghost function Exec(s: Alloc, req: nat -> nat, schedule: seq<(nat, Act)>): (r: Alloc)
    requires Shaped(s)
    ensures SameShape(s, r)
    decreases |schedule|
  {
    if schedule == [] then s
    else
      var (i, act) := schedule[0];
      Exec(if i < |s.pcs| then Next(s, req, i, act) else s, req, schedule[1..])
  }

  ghost predicate Initial(s: Alloc) {
    && Shaped(s) && s.fill.None? && s.batches == [] && s.mismatches == 0 && s.overflows == 0
    && (forall i :: 0 <= i < |s.pcs| ==> s.pcs[i].Idle? && s.queues[i] == [] && s.answers[i] == [])
  }

  // ----- the invariant

  /** The lock is held by the one node that is past taking it. */
  ghost predicate LockOk(s: Alloc) {
    && (s.fill.Some? ==> s.fill.value < |s.pcs|)
    && forall i :: 0 <= i < |s.pcs| ==> (s.pcs[i].Locked? || s.pcs[i].Pushing? <==> s.fill == Some(i))
  }

  ghost predicate BatchesOk(s: Alloc) {
    && (forall k :: 0 <= k < |s.batches| ==>
      var b := s.batches[k]; |b.ptrs| == |s.pcs| && b.leader < |s.pcs| && b.ok == Succeeded(b.ptrs))
    && (s.fill.Some? && s.fill.value < |s.pcs| && s.pcs[s.fill.value].Pushing? ==>
          s.batches != [] && s.batches[|s.batches| - 1].leader == s.fill.value)
  }

  /** How many of the failed batches node `i` led. */
  function FailedBy(batches: seq<Batch>, i: nat): nat {
    if batches == [] then 0
    else
      var last := batches[|batches| - 1];
      FailedBy(batches[..|batches| - 1], i) + if !last.ok && last.leader == i then 1 else 0
  }

  /** What the leader at work still owes node `i` of its batch. */
  function Owed(s: Alloc, i: nat): nat {
    if s.fill.Some? && s.fill.value < |s.pcs| && s.pcs[s.fill.value].Pushing? && s.batches != [] then
      var n, at, ok := s.fill.value, s.pcs[s.fill.value].at, s.batches[|s.batches| - 1].ok;
      (if i == n then 1 else 0) + (if i >= at && !(ok && i == n) then 1 else 0)
    else 0
  }

  /** Answered or queued or still owed: one for each batch, and one more for each failed batch that node led. */
  ghost predicate Counted(s: Alloc, i: nat)
    requires Shaped(s) && i < |s.pcs|
  {
    |s.answers[i]| + |s.queues[i]| + Owed(s, i) == |s.batches| + FailedBy(s.batches, i)
  }

  ghost predicate Accounts(s: Alloc) {
    && Shaped(s) && LockOk(s) && BatchesOk(s)
    && forall i :: 0 <= i < |s.pcs| ==> Counted(s, i)
  }

  /** No allocation has failed on any node. */
  ghost predicate AllOk(s: Alloc) {
    forall k :: 0 <= k < |s.batches| ==> s.batches[k].ok
  }

  /** Entry `k` of node `i`. */
  function EntryOf(s: Alloc, k: nat, i: nat): Entry {
    if k < |s.batches| && i < |s.batches[k].ptrs| then Entry(s.batches[k].layout, s.batches[k].ptrs[i]) else Entry(0, 0)
  }

  /** Request `k` of node `i` was, or will be, answered from batch `k`. */
  ghost predicate NodeAligned(s: Alloc, i: nat)
    requires Shaped(s) && i < |s.pcs|
  {
    && |s.answers[i]| + |s.queues[i]| <= |s.batches|
    && (forall k :: 0 <= k < |s.answers[i]| ==> s.answers[i][k] == EntryOf(s, k, i).ptr)
    && (forall m :: 0 <= m < |s.queues[i]| ==> s.queues[i][m] == EntryOf(s, |s.answers[i]| + m, i))
    && (s.pcs[i].Pushing? ==> s.queues[i] == [])
  }

  ghost predicate Aligned(s: Alloc, req: nat -> nat)
    requires Shaped(s)
  {
    && (forall k :: 0 <= k < |s.batches| ==> s.batches[k].layout == req(k))
    && (forall i :: 0 <= i < |s.pcs| ==> NodeAligned(s, i))
    && s.mismatches == 0
  }

  predicate Slot(s: Alloc, k: nat, i: nat) {
    k < |s.batches| && i < |s.batches[k].ptrs|
  }

  /** The pointers of all batches are different, and never null. */
  ghost predicate Fresh(s: Alloc) {
    && (forall k: nat, i: nat :: Slot(s, k, i) ==> s.batches[k].ptrs[i] != 0 && s.batches[k].ptrs[i] in s.used)
    && (forall k: nat, i: nat, l: nat, j: nat :: Slot(s, k, i) && Slot(s, l, j) && (k, i) != (l, j) ==>
          s.batches[k].ptrs[i] != s.batches[l].ptrs[j])
  }

  ghost predicate Inv(s: Alloc, req: nat -> nat) {
    Accounts(s) && (AllOk(s) ==> Aligned(s, req) && Fresh(s))
  }

  // ----- accounting, with failures

  lemma FailedByNext(batches: seq<Batch>, b: Batch, i: nat)
    ensures FailedBy(batches + [b], i) == FailedBy(batches, i) + if !b.ok && b.leader == i then 1 else 0
  {
    assert (batches + [b])[..|batches|] == batches;
  }

  lemma {:induction false} NoneFailed(batches: seq<Batch>, i: nat)
    requires forall k :: 0 <= k < |batches| ==> batches[k].ok
    ensures FailedBy(batches, i) == 0
    decreases |batches|
  {
    if batches != [] {
      NoneFailed(batches[..|batches| - 1], i);
    }
  }

  lemma TakeAccounts(s: Alloc, req: nat -> nat, i: nat, s': Alloc)
    requires Accounts(s) && i < |s.pcs| && s.queues[i] != [] && !s.pcs[i].Pushing?
    requires s' == Take(s, req, i).(fill := if s.fill == Some(i) then None else s.fill)
    ensures Accounts(s')
  {
    forall j | 0 <= j < |s'.pcs| ensures Counted(s', j) {
      assert Counted(s, j);
    }
  }

  lemma FillAccounts(s: Alloc, req: nat -> nat, i: nat, ptrs: seq<nat>)
    requires Accounts(s) && i < |s.pcs| && s.pcs[i].Locked? && s.queues[i] == [] && Available(s, ptrs)
    ensures Accounts(SecondPop(s, req, i, ptrs))
  {
    var s' := SecondPop(s, req, i, ptrs);
    forall j | 0 <= j < |s'.pcs| ensures Counted(s', j) {
      assert Counted(s, j);
      FailedByNext(s.batches, s'.batches[|s.batches|], j);
    }
  }

  lemma PushAccounts(s: Alloc, req: nat -> nat, i: nat)
    requires Accounts(s) && i < |s.pcs| && s.pcs[i].Pushing?
    ensures Accounts(PushNext(s, req, i))
  {
    var s' := PushNext(s, req, i);
    forall j | 0 <= j < |s'.pcs| ensures Counted(s', j) {
      assert Counted(s, j);
    }
  }

  // ----- alignment, while nothing fails

  lemma TakeAligned(s: Alloc, req: nat -> nat, i: nat, s': Alloc)
    requires Accounts(s) && Aligned(s, req) && i < |s.pcs| && s.queues[i] != []
    requires s' == Take(s, req, i).(fill := s'.fill)
    ensures Aligned(s', req)
  {
    assert NodeAligned(s, i);
    assert s.queues[i][0] == EntryOf(s, |s.answers[i]| + 0, i);
    forall j | 0 <= j < |s'.pcs| ensures NodeAligned(s', j) {
      assert NodeAligned(s, j);
      forall m | 0 <= m < |s'.queues[j]| ensures s'.queues[j][m] == EntryOf(s', |s'.answers[j]| + m, j) {
        assert j == i ==> s'.queues[j][m] == s.queues[j][m + 1];
      }
    }
  }

  /** What every node has coming while the leader is about to allocate: it has used up its entries. */
  lemma LeaderAtEnd(s: Alloc, i: nat)
    requires Accounts(s) && AllOk(s) && i < |s.pcs| && s.pcs[i].Locked? && s.queues[i] == []
    ensures |s.answers[i]| == |s.batches|
  {
    assert Counted(s, i);
    NoneFailed(s.batches, i);
  }

  lemma FillAligned(s: Alloc, req: nat -> nat, i: nat, ptrs: seq<nat>)
    requires Accounts(s) && AllOk(s) && Aligned(s, req) && i < |s.pcs| && s.pcs[i].Locked? && s.queues[i] == [] &&
      Available(s, ptrs)
    ensures Aligned(SecondPop(s, req, i, ptrs), req)
  {
    LeaderAtEnd(s, i);
    hide Accounts;
    var s' := SecondPop(s, req, i, ptrs);
    forall j | 0 <= j < |s'.pcs| ensures NodeAligned(s', j) {
      assert NodeAligned(s, j);
      forall k: nat | k < |s.batches| ensures EntryOf(s', k, j) == EntryOf(s, k, j) {
        assert s'.batches[k] == s.batches[k];
      }
    }
  }

  lemma FillFresh(s: Alloc, req: nat -> nat, i: nat, ptrs: seq<nat>)
    requires Shaped(s) && Fresh(s) && i < |s.pcs| && s.queues[i] == [] && Available(s, ptrs) && Succeeded(ptrs)
    ensures Fresh(SecondPop(s, req, i, ptrs))
  {
    var s' := SecondPop(s, req, i, ptrs);
    var n := |s.batches|;
    forall k: nat, j: nat | Slot(s', k, j) ensures s'.batches[k].ptrs[j] != 0 && s'.batches[k].ptrs[j] in s'.used {
      assert k < n ==> Slot(s, k, j);
    }
    forall k: nat, j: nat, l: nat, m: nat | Slot(s', k, j) && Slot(s', l, m) && (k, j) != (l, m)
      ensures s'.batches[k].ptrs[j] != s'.batches[l].ptrs[m]
    {
      assert k < n ==> Slot(s, k, j);
      assert l < n ==> Slot(s, l, m);
    }
  }

  lemma PushAligned(s: Alloc, req: nat -> nat, i: nat)
    requires Accounts(s) && AllOk(s) && Aligned(s, req) && i < |s.pcs| && s.pcs[i].Pushing?
    ensures Aligned(PushNext(s, req, i), req)
  {
    var s', at := PushNext(s, req, i), s.pcs[i].at;
    var j := if at >= |s.pcs| then i else at;
    OwedNow(s, i, j);
    hide Accounts, Owed;
    forall u | 0 <= u < |s'.pcs| ensures NodeAligned(s', u) {
      assert NodeAligned(s, u) && NodeAligned(s, i);
    }
  }

  /** The node that gets the next entry of the batch at work has had all entries before it. */
  lemma OwedNow(s: Alloc, i: nat, j: nat)
    requires Accounts(s) && AllOk(s) && i < |s.pcs| && s.pcs[i].Pushing? && j < |s.pcs|
    requires j == (if s.pcs[i].at >= |s.pcs| then i else s.pcs[i].at)
    ensures s.fill == Some(i) && s.batches != [] && s.batches[|s.batches| - 1].ok &&
      |s.batches[|s.batches| - 1].ptrs| == |s.pcs|
    ensures |s.answers[j]| + |s.queues[j]| + 1 == |s.batches|
  {
    assert Counted(s, j);
    NoneFailed(s.batches, j);
  }

  // ----- every step

  lemma PushKeeps(s: Alloc, req: nat -> nat, i: nat)
    requires Inv(s, req) && i < |s.pcs| && s.pcs[i].Pushing?
    ensures Inv(PushNext(s, req, i), req)
  {
    PushAccounts(s, req, i);
    var s' := PushNext(s, req, i);
    assert s'.batches == s.batches && s'.used == s.used;
    if AllOk(s) {
      PushAligned(s, req, i);
    }
    hide Accounts, Aligned, PushNext;
    assert AllOk(s') ==> Fresh(s');
  }

  lemma TakeKeeps(s: Alloc, req: nat -> nat, i: nat, s': Alloc)
    requires Inv(s, req) && i < |s.pcs| && s.queues[i] != [] && !s.pcs[i].Pushing?
    requires s' == Take(s, req, i).(fill := if s.fill == Some(i) then None else s.fill)
    ensures Inv(s', req)
  {
    TakeAccounts(s, req, i, s');
    if AllOk(s) {
      TakeAligned(s, req, i, s');
    }
    hide Accounts, Aligned;
    assert AllOk(s') ==> Fresh(s');
  }

  lemma FillKeeps(s: Alloc, req: nat -> nat, i: nat, ptrs: seq<nat>)
    requires Inv(s, req) && i < |s.pcs| && s.pcs[i].Locked? && s.queues[i] == [] && Available(s, ptrs)
    ensures Inv(SecondPop(s, req, i, ptrs), req)
  {
    var s' := SecondPop(s, req, i, ptrs);
    FillAccounts(s, req, i, ptrs);
    hide Accounts, Aligned, Fresh;
    if AllOk(s') {
      assert forall k :: 0 <= k < |s.batches| ==> s.batches[k] == s'.batches[k];
      assert s'.batches[|s.batches|].ok;
      FillAligned(s, req, i, ptrs);
      FillFresh(s, req, i, ptrs);
    }
  }

  /** Steps that touch neither queues nor answers. */
  lemma MoveKeeps(s: Alloc, req: nat -> nat, s': Alloc, i: nat)
    requires Inv(s, req) && i < |s.pcs| && !s.pcs[i].Pushing? && !s.pcs[i].Locked?
    requires |s'.pcs| == |s.pcs| && s'.pcs == s.pcs[i := s'.pcs[i]] && s' == s.(fill := s'.fill, pcs := s'.pcs)
    requires (s'.pcs[i].Waiting? && s'.fill == s.fill) || (s'.pcs[i].Locked? && s.fill.None? && s'.fill == Some(i))
    ensures Inv(s', req)
  {
    assert Accounts(s') by {
      forall j | 0 <= j < |s'.pcs| ensures Counted(s', j) {
        assert Counted(s, j);
      }
    }
    hide Accounts;
    if AllOk(s) {
      forall j | 0 <= j < |s'.pcs| ensures NodeAligned(s', j) {
        assert NodeAligned(s, j);
      }
    }
  }

  lemma NextKeeps(s: Alloc, req: nat -> nat, i: nat, act: Act)
    requires Inv(s, req) && i < |s.pcs|
    ensures Inv(Next(s, req, i, act), req)
  {
    var s' := Next(s, req, i, act);
    assert s.pcs[i].Locked? || s.pcs[i].Pushing? <==> s.fill == Some(i);
    hide Inv, Take, SecondPop, PushNext;
    match s.pcs[i]
    case Idle =>
      if act.Pop? && s.queues[i] != [] { TakeStays(s, req, i); TakeKeeps(s, req, i, s'); }
      else if act.Pop? || act.Miss? { MoveKeeps(s, req, s', i); }
    case Waiting => if act.Lock? && s.fill.None? { MoveKeeps(s, req, s', i); }
    case Locked => if act.Fill? { LockedKeeps(s, req, i, act.ptrs); }
    case Pushing(_) => if act.Push? { PushKeeps(s, req, i); }
  }

  lemma TakeStays(s: Alloc, req: nat -> nat, i: nat)
    requires Shaped(s) && i < |s.pcs| && s.queues[i] != []
    ensures Take(s, req, i).fill == s.fill
  {
  }

  lemma LockedKeeps(s: Alloc, req: nat -> nat, i: nat, ptrs: seq<nat>)
    requires Inv(s, req) && i < |s.pcs| && s.pcs[i].Locked? && s.fill == Some(i)
    ensures Inv(SecondPop(s, req, i, ptrs), req)
  {
    if s.queues[i] != [] {
      TakeKeeps(s, req, i, SecondPop(s, req, i, ptrs));
    } else if Available(s, ptrs) {
      FillKeeps(s, req, i, ptrs);
    }
  }

  lemma {:induction false} ExecKeeps(s: Alloc, req: nat -> nat, schedule: seq<(nat, Act)>)
    requires Shaped(s) && Inv(s, req)
    ensures Inv(Exec(s, req, schedule), req)
    decreases |schedule|
  {
    hide Inv, Next;
    if schedule == [] {
    } else {
      var (i, act) := schedule[0];
      if i < |s.pcs| {
        NextKeeps(s, req, i, act);
      }
      ExecKeeps(if i < |s.pcs| then Next(s, req, i, act) else s, req, schedule[1..]);
    }
  }

  lemma InitialInv(s: Alloc, req: nat -> nat)
    requires Initial(s)
    ensures Inv(s, req)
  {
    forall i | 0 <= i < |s.pcs| ensures Counted(s, i) && NodeAligned(s, i) {
    }
  }

  // ----- what every run guarantees

  /** Node `i` has an answer to request `k`. */
  predicate Answered(s: Alloc, i: nat, k: nat) {
    i < |s.answers| && k < |s.answers[i]|
  }

  /**
   As long as no allocation fails: request `k` is answered from batch `k` on every node, so layouts
   match, all answers are there, and no two of them are the same memory.
   */
  lemma RunDeterministic(s: Alloc, req: nat -> nat, schedule: seq<(nat, Act)>)
    requires Initial(s) && AllOk(Exec(s, req, schedule))
    ensures var r := Exec(s, req, schedule);
      && r.mismatches == 0
      && (forall i: nat, k: nat :: Answered(r, i, k) ==>
            Slot(r, k, i) && r.batches[k].layout == req(k) && r.answers[i][k] == r.batches[k].ptrs[i] != 0)
      && (forall i: nat, k: nat, j: nat, l: nat :: Answered(r, i, k) && Answered(r, j, l) && (i, k) != (j, l) ==>
            r.answers[i][k] != r.answers[j][l])
  {
    InitialInv(s, req);
    ExecKeeps(s, req, schedule);
    var r := Exec(s, req, schedule);
    hide Exec;
    forall i: nat, k: nat | Answered(r, i, k)
      ensures Slot(r, k, i) && r.batches[k].layout == req(k) && r.answers[i][k] == r.batches[k].ptrs[i] != 0
    {
      assert NodeAligned(r, i);
    }
    forall i: nat, k: nat, j: nat, l: nat | Answered(r, i, k) && Answered(r, j, l) && (i, k) != (j, l)
      ensures r.answers[i][k] != r.answers[j][l]
    {
      assert Slot(r, k, i) && Slot(r, l, j);
    }
  }

  lemma {:induction false} SomeFailed(batches: seq<Batch>, k: nat)
    requires k < |batches| && !batches[k].ok
    ensures FailedBy(batches, batches[k].leader) > 0
    decreases |batches|
  {
    if k < |batches| - 1 {
      SomeFailed(batches[..|batches| - 1], k);
    }
  }

  /**
   With failures: between fills, every node has had one entry for each batch exactly when no batch
   failed. The leader of a failed batch gets one entry too many, and is out of step from then on.
   */
  lemma AccountsIffAllOk(s: Alloc, req: nat -> nat, schedule: seq<(nat, Act)>)
    requires Initial(s) && Exec(s, req, schedule).fill.None?
    ensures var r := Exec(s, req, schedule);
      (forall i :: 0 <= i < |r.pcs| ==> |r.answers[i]| + |r.queues[i]| == |r.batches|) <==> AllOk(r)
  {
    InitialInv(s, req);
    ExecKeeps(s, req, schedule);
    var r := Exec(s, req, schedule);
    hide Exec;
    forall i | 0 <= i < |r.pcs| ensures |r.answers[i]| + |r.queues[i]| == |r.batches| + FailedBy(r.batches, i) {
      assert Counted(r, i);
    }
    if AllOk(r) {
      forall i | 0 <= i < |r.pcs| ensures FailedBy(r.batches, i) == 0 {
        NoneFailed(r.batches, i);
      }
    } else {
      var k :| 0 <= k < |r.batches| && !r.batches[k].ok;
      SomeFailed(r.batches, k);
    }
  }

  /** A push finds its queue full exactly when that node is a queue's length of requests behind the leader. */
  lemma OverflowIffLagging(s: Alloc, req: nat -> nat, i: nat)
    requires Inv(s, req) && AllOk(s) && i < |s.pcs| && s.pcs[i].Pushing? && s.pcs[i].at < |s.pcs| && s.pcs[i].at != i
    ensures PushNext(s, req, i).overflows != s.overflows <==> |s.answers[i]| - |s.answers[s.pcs[i].at]| >= CAPACITY
  {
    OwedNow(s, i, s.pcs[i].at);
    assert Counted(s, i) && NodeAligned(s, i);
    NoneFailed(s.batches, i);
  }

  // ----- a request that nobody disturbs

  function Rounds(s: Alloc, req: nat -> nat, i: nat, n: nat): (r: Alloc)
    requires Shaped(s) && i < |s.pcs|
    ensures SameShape(s, r)
    decreases n
  {
    if n == 0 || !s.pcs[i].Pushing? then s else Rounds(PushNext(s, req, i), req, i, n - 1)
  }

  /** What leader `i` queues for node `j`: nothing for itself after a success, and nulls for all after a failure. */
  function Given(layout: nat, ptrs: seq<nat>, i: nat, j: nat): seq<Entry>
    requires j < |ptrs|
  {
    if !Succeeded(ptrs) then [Entry(layout, 0)] else if j == i then [] else [Entry(layout, ptrs[j])]
  }

  /** The leader is about to push to queue `at`, and all queues have room. */
  ghost predicate AboutToPush(s: Alloc, i: nat, at: nat) {
    && Shaped(s) && i < |s.pcs| && s.pcs[i] == Pushing(at) && at <= |s.pcs|
    && s.batches != [] && (var b := s.batches[|s.batches| - 1]; |b.ptrs| == |s.pcs| && b.ok == Succeeded(b.ptrs))
    && forall j :: at <= j < |s.pcs| ==> |s.queues[j]| < CAPACITY
  }

  lemma PushedOne(s: Alloc, req: nat -> nat, i: nat, at: nat)
    requires AboutToPush(s, i, at) && at < |s.pcs|
    ensures var b, r := s.batches[|s.batches| - 1], PushNext(s, req, i);
      && AboutToPush(r, i, at + 1)
      && r == s.(queues := s.queues[at := s.queues[at] + Given(b.layout, b.ptrs, i, at)],
        pcs := s.pcs[i := Pushing(at + 1)])
  {
    hide Succeeded;
    assert s.queues[at] + [] == s.queues[at] && s.queues[at := s.queues[at]] == s.queues;
  }

  /** The pushing loop. */
  lemma {:induction false} AllPushed(s: Alloc, req: nat -> nat, i: nat, at: nat)
    requires AboutToPush(s, i, at)
    ensures var b, r := s.batches[|s.batches| - 1], Rounds(s, req, i, |s.pcs| - at);
      && r == s.(queues := r.queues, pcs := s.pcs[i := Pushing(|s.pcs|)])
      && (forall j :: at <= j < |s.pcs| ==> r.queues[j] == s.queues[j] + Given(b.layout, b.ptrs, i, j))
      && (forall j :: 0 <= j < at ==> r.queues[j] == s.queues[j])
    decreases |s.pcs| - at
  {
    hide PushNext, Given;
    if at == |s.pcs| {
      assert s.pcs[i := s.pcs[i]] == s.pcs;
    } else {
      PushedOne(s, req, i, at);
      var s1 := PushNext(s, req, i);
      AllPushed(s1, req, i, at + 1);
      assert s.pcs[i := Pushing(at + 1)][i := Pushing(|s.pcs|)] == s.pcs[i := Pushing(|s.pcs|)];
    }
  }

  function Pushes(i: nat, n: nat): seq<(nat, Act)> {
    seq(n, k => (i, Push))
  }

  /** Rounds of the pushing loop are steps of the node. */
  lemma {:induction false} RoundsAreSteps(s: Alloc, req: nat -> nat, i: nat, n: nat, rest: seq<(nat, Act)>)
    requires Shaped(s) && i < |s.pcs|
    ensures Exec(s, req, Pushes(i, n) + rest) == Exec(Rounds(s, req, i, n), req, rest)
    decreases n
  {
    var all := Pushes(i, n) + rest;
    if n == 0 {
      assert all == rest;
    } else {
      assert all[1..] == Pushes(i, n - 1) + rest;
      var s' := Next(s, req, i, Push);
      RoundsAreSteps(s', req, i, n - 1, rest);
      if !s.pcs[i].Pushing? {
        assert s' == s && Rounds(s, req, i, n - 1) == s;
      }
    }
  }

  /** The last step: the lock is released and the request answered. */
  lemma Answers(s: Alloc, req: nat -> nat, i: nat)
    requires AboutToPush(s, i, |s.pcs|)
    ensures Exec(s, req, [(i, Push)]) ==
      s.(answers := s.answers[i := s.answers[i] + [s.batches[|s.batches| - 1].ptrs[i]]],
         pcs := s.pcs[i := Idle], fill := None)
  {
    assert [(i, Push)][1..] == [];
  }

  /** The whole call of node `i`, when the allocator gives `ptrs`. */
  function Calls(i: nat, ptrs: seq<nat>): seq<(nat, Act)> {
    [(i, Pop), (i, Lock), (i, Fill(ptrs))] + (Pushes(i, |ptrs|) + [(i, Push)])
  }

  /** A call that finds its queue empty takes the lock and allocates for everybody. */
  lemma Leads(s: Alloc, req: nat -> nat, i: nat, ptrs: seq<nat>, rest: seq<(nat, Act)>) returns (r: Alloc)
    requires Shaped(s) && i < |s.pcs| && s.pcs[i].Idle? && s.queues[i] == [] && s.fill.None? && Available(s, ptrs)
    ensures SameShape(s, r) && Exec(s, req, [(i, Pop), (i, Lock), (i, Fill(ptrs))] + rest) == Exec(r, req, rest)
    ensures r == s.(pcs := s.pcs[i := Pushing(0)], fill := Some(i), used := r.used,
      batches := s.batches + [Batch(req(|s.answers[i]|), ptrs, i, Succeeded(ptrs))])
    ensures r.used == s.used + (set j | 0 <= j < |ptrs| :: ptrs[j])
  {
    var x := [(i, Pop), (i, Lock), (i, Fill(ptrs))] + rest;
    var s1 := Next(s, req, i, Pop);
    var s2 := Next(s1, req, i, Lock);
    r := Next(s2, req, i, Fill(ptrs));
    assert s1 == s.(pcs := s.pcs[i := Waiting]);
    assert s2 == s1.(fill := Some(i), pcs := s1.pcs[i := Locked]);
    assert Available(s2, ptrs);
    assert x[1..] == [(i, Lock), (i, Fill(ptrs))] + rest;
    assert Exec(s, req, x) == Exec(s1, req, x[1..]);
    assert x[1..][1..] == [(i, Fill(ptrs))] + rest;
    assert Exec(s1, req, x[1..]) == Exec(s2, req, x[1..][1..]);
    assert x[1..][1..][1..] == rest;
  }

  /**
   A request that finds its queue empty: it is answered with what was allocated for its node, and every
   other node gets its own pointer queued; or, if one of the allocations failed, everybody gets a null.
   */
  lemma LeaderAlone(s: Alloc, req: nat -> nat, i: nat, ptrs: seq<nat>)
    requires Shaped(s) && i < |s.pcs| && s.pcs[i].Idle? && s.queues[i] == [] && s.fill.None? && Available(s, ptrs)
    requires forall j :: 0 <= j < |s.pcs| ==> |s.queues[j]| < CAPACITY
    ensures var r, layout := Exec(s, req, Calls(i, ptrs)), req(|s.answers[i]|);
      && r.answers == s.answers[i := s.answers[i] + [ptrs[i]]]
      && (forall j :: 0 <= j < |s.pcs| ==> r.queues[j] == s.queues[j] + Given(layout, ptrs, i, j))
      && r.batches == s.batches + [Batch(layout, ptrs, i, Succeeded(ptrs))]
      && r.pcs == s.pcs && r.fill == s.fill && r.mismatches == s.mismatches && r.overflows == s.overflows
  {
    hide Succeeded, Given, Exec, Rounds;
    var n := |s.pcs|;
    var q := Leads(s, req, i, ptrs, Pushes(i, n) + [(i, Push)]);
    hide Available;
    RoundsAreSteps(q, req, i, n, [(i, Push)]);
    AllPushed(q, req, i, 0);
    Answers(Rounds(q, req, i, n), req, i);
    assert s.pcs[i := Pushing(0)][i := Pushing(n)][i := Idle] == s.pcs;
  }

  /** A request that finds its queue filled is answered from its front; a wrong layout there is noticed. */
  lemma FollowerAlone(s: Alloc, req: nat -> nat, i: nat)
    requires Shaped(s) && i < |s.pcs| && s.pcs[i].Idle? && s.queues[i] != []
    ensures var r, e := Next(s, req, i, Pop), s.queues[i][0];
      && r == s.(answers := s.answers[i := s.answers[i] + [e.ptr]], queues := s.queues[i := s.queues[i][1..]],
        mismatches := r.mismatches)
      && r.mismatches == s.mismatches + (if e.layout == req(|s.answers[i]|) then 0 else 1)
  {
    assert s.pcs[i := Idle] == s.pcs;
  }

  /** One that finds it filled only once it has the lock is answered in the same way, and gives the lock back. */
  lemma LateFollower(s: Alloc, req: nat -> nat, i: nat, ptrs: seq<nat>)
    requires Shaped(s) && i < |s.pcs| && s.pcs[i].Locked? && s.queues[i] != []
    ensures var r, e := Next(s, req, i, Fill(ptrs)), s.queues[i][0];
      && r == s.(answers := s.answers[i := s.answers[i] + [e.ptr]], queues := s.queues[i := s.queues[i][1..]],
        pcs := s.pcs[i := Idle], fill := None, mismatches := r.mismatches)
      && r.mismatches == s.mismatches + (if e.layout == req(|s.answers[i]|) then 0 else 1)
  {
  }

  /**
   From the start, an allocation that fails on some node but not on the leader's own: every node
   finds a null in its queue, the leader too, but the leader's answer is the pointer that has just
   been freed.
   */
  lemma FailureSplitsNodes(s: Alloc, req: nat -> nat, i: nat, ptrs: seq<nat>) returns (schedule: seq<(nat, Act)>)
    requires Initial(s) && i < |s.pcs| && Available(s, ptrs) && ptrs[i] != 0 && !Succeeded(ptrs)
    ensures var r := Exec(s, req, schedule);
      && r.answers[i] == [ptrs[i]] && ptrs[i] != 0
      && forall j :: 0 <= j < |s.pcs| ==> r.queues[j] == [Entry(req(0), 0)]
  {
    hide Exec;
    schedule := Calls(i, ptrs);
    LeaderAlone(s, req, i, ptrs);
  }
}
