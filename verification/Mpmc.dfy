/**
 The bounded multi-producer multi-consumer queue, as a step machine.

 Any number of threads run `push` and `pop`. Each step is one atomic access of the source:
 a load, a compare-exchange (which may also fail spuriously), or a store. The history records,
 per ticket, the value pushed, the threads that won it, and the value returned.
 */
module Mpmc {
  import opened Arith
  import opened Bits

  datatype Option<+T> = None | Some(value: T)

  datatype Slot<+T> = Slot(sequence: nat, value: Option<T>)

  /** Where a thread is, with its local variables. */
  datatype Pc<+T> =
    | Idle
    | PushLoad(item: T)
    | PushRead(item: T, pos: nat)
    | PushTry(item: T, pos: nat, seen: nat)
    | PushStore(item: T, pos: nat)
    | PushPublish(item: T, pos: nat)
    | PopLoad
    | PopRead(pos: nat)
    | PopTry(pos: nat, seen: nat)
    | PopTake(pos: nat)
    | PopRelease(pos: nat, taken: Option<T>)

  datatype Queue<T> = Queue(
    capacity: nat,
    buffer: seq<Slot<T>>,
    enqueuePos: nat,
    dequeuePos: nat,
    threads: map<nat, Pc<T>>,
    pushed: seq<T>,
    producers: seq<nat>,
    consumers: seq<nat>,
    returned: map<nat, Option<T>>)

  datatype Act<+T> = BeginPush(item: T) | BeginPop | Continue | FailSpuriously

  // ----- steps

  function With<T>(q: Queue<T>, t: nat, pc: Pc<T>): Queue<T> {
    q.(threads := q.threads[t := pc])
  }

  function SlotOf<T>(q: Queue<T>, pos: nat): nat
    requires q.capacity > 0
  {
    pos % q.capacity
  }

  predicate Shaped<T>(q: Queue<T>) {
    q.capacity >= 2 && |q.buffer| == q.capacity
  }

  function SequenceAt<T>(q: Queue<T>, pos: nat): nat
    requires Shaped(q)
  {
    q.buffer[pos % q.capacity].sequence
  }

  /** One atomic step of a running thread. */
  function Advance<T>(q: Queue<T>, t: nat): (r: Queue<T>)
    requires Shaped(q) && t in q.threads
    ensures Shaped(r) && r.threads.Keys == q.threads.Keys
  {
    match q.threads[t]
    case Idle => q
    case PushLoad(item) => With(q, t, PushRead(item, q.enqueuePos))
    case PushRead(item, pos) => With(q, t, PushTry(item, pos, SequenceAt(q, pos)))
    case PushTry(item, pos, seen) =>
      if seen == pos then
        if q.enqueuePos == pos then
          With(q, t, PushStore(item, pos)).(
            enqueuePos := pos + 1, pushed := q.pushed + [item], producers := q.producers + [t])
        else With(q, t, PushRead(item, q.enqueuePos))
      else if seen < pos then With(q, t, Idle)
      else With(q, t, PushLoad(item))
    case PushStore(item, pos) =>
      var i := SlotOf(q, pos);
      With(q, t, PushPublish(item, pos)).(buffer := q.buffer[i := q.buffer[i].(value := Some(item))])
    case PushPublish(item, pos) =>
      var i := SlotOf(q, pos);
      With(q, t, Idle).(buffer := q.buffer[i := q.buffer[i].(sequence := pos + 1)])
    case PopLoad => With(q, t, PopRead(q.dequeuePos))
    case PopRead(pos) => With(q, t, PopTry(pos, SequenceAt(q, pos)))
    case PopTry(pos, seen) =>
      if seen == pos + 1 then
        if q.dequeuePos == pos then With(q, t, PopTake(pos)).(dequeuePos := pos + 1, consumers := q.consumers + [t])
        else With(q, t, PopRead(q.dequeuePos))
      else if seen < pos + 1 then With(q, t, Idle)
      else With(q, t, PopLoad)
    case PopTake(pos) =>
      var i := SlotOf(q, pos);
      With(q, t, PopRelease(pos, q.buffer[i].value)).(buffer := q.buffer[i := q.buffer[i].(value := None)])
    case PopRelease(pos, taken) =>
      var i := SlotOf(q, pos);
      With(q, t, Idle).(
        buffer := q.buffer[i := q.buffer[i].(sequence := pos + q.capacity)],
        returned := q.returned[pos := taken])
  }

  /** A weak compare-exchange that fails although the positions agree. */
  function Retry<T>(q: Queue<T>, t: nat): Queue<T>
    requires t in q.threads
  {
    match q.threads[t]
    case PushTry(item, pos, seen) => if seen == pos then With(q, t, PushRead(item, q.enqueuePos)) else q
    case PopTry(pos, seen) => if seen == pos + 1 then With(q, t, PopRead(q.dequeuePos)) else q
    case _ => q
  }

  function Next<T>(q: Queue<T>, t: nat, act: Act<T>): (r: Queue<T>)
    requires Shaped(q) && t in q.threads
    ensures Shaped(r) && r.threads.Keys == q.threads.Keys
  {
    match act
    case BeginPush(item) => if q.threads[t].Idle? then With(q, t, PushLoad(item)) else q
    case BeginPop => if q.threads[t].Idle? then With(q, t, PopLoad) else q
    case Continue => Advance(q, t)
    case FailSpuriously => Retry(q, t)
  }

  /** Any interleaving: a sequence of steps, each by some thread. */
  function Exec<T>(q: Queue<T>, schedule: seq<(nat, Act<T>)>): (r: Queue<T>)
    requires Shaped(q)
    ensures Shaped(r) && r.threads.Keys == q.threads.Keys
    decreases |schedule|
  {
    if schedule == [] then q
    else
      var (t, act) := schedule[0];
      Exec(if t in q.threads then Next(q, t, act) else q, schedule[1..])
  }

  /** `with_capacity`: the number of slots for a requested capacity. */
  function Slots(capacity: nat): (n: nat)
    ensures n >= 2 && n >= capacity && IsPow2(n)
    ensures IsPow2(capacity) && capacity >= 2 ==> n == capacity
    ensures capacity >= 2 ==> n < 2 * capacity
    ensures capacity < 2 ==> n == 2
  {
    assert IsPow2(2) by {
      assert Pow2(1) == 2;
    }
    assert IsPow2(1) by {
      assert Pow2(0) == 1;
    }
    if capacity < 2 then 2
    else
      Pow2Test(capacity);
      if BitAnd(capacity, capacity - 1) != 0 then RoundUp(capacity, 1) else capacity
  }

  /** The mask the source indexes with selects the slot of a ticket. */
  lemma MaskIsSlot(pos: nat, slots: nat)
    requires slots > 0 && IsPow2(slots)
    ensures BitAnd(pos, slots - 1) == pos % slots
  {
    var k: nat :| slots == Pow2(k);
    MaskIsMod(pos, k);
  }

  /** A new queue: slot `i` waits for ticket `i`. */
  ghost predicate Initial<T>(q: Queue<T>) {
    && Shaped(q)
    && (forall i :: 0 <= i < q.capacity ==> q.buffer[i] == Slot(i, None))
    && q.enqueuePos == 0 && q.dequeuePos == 0
    && (forall t :: t in q.threads ==> q.threads[t] == Idle)
    && q.pushed == [] && q.producers == [] && q.consumers == [] && q.returned == map[]
  }

  /** `with_capacity`: an empty queue. */
  function WithCapacity<T>(capacity: nat, threads: set<nat>): (q: Queue<T>)
    ensures Initial(q) && q.threads.Keys == threads
    ensures IsPow2(q.capacity) && q.capacity >= 2 && q.capacity >= capacity
    ensures q.capacity == 2 || q.capacity < 2 * capacity
  {
    var n := Slots(capacity);
    Queue(n, seq(n, i requires 0 <= i => Slot(i, None)), 0, 0, map t | t in threads :: Idle, [], [], [], map[])
  }

  /** A compare-exchange that fails for no reason is as good as one that lost: the position is read again. */
  lemma SpuriousFailure<T>(q: Queue<T>, t: nat)
    requires Shaped(q) && t in q.threads
    ensures var pc, r := q.threads[t], Next(q, t, FailSpuriously);
      && r == q.(threads := q.threads[t := r.threads[t]])
      && (pc.PushTry? && pc.seen == pc.pos ==> r.threads[t] == PushRead(pc.item, q.enqueuePos))
      && (pc.PopTry? && pc.seen == pc.pos + 1 ==> r.threads[t] == PopRead(q.dequeuePos))
      && (!pc.PushTry? && !pc.PopTry? ==> r.threads[t] == pc)
  {
    assert q.threads[t := q.threads[t]] == q.threads;
  }

  // ----- the invariant

  /** The thread has won enqueue ticket `pos` and not yet published it. */
  predicate Pushing<T>(pc: Pc<T>, pos: nat) {
    (pc.PushStore? || pc.PushPublish?) && pc.pos == pos
  }

  predicate Popping<T>(pc: Pc<T>, pos: nat) {
    (pc.PopTake? || pc.PopRelease?) && pc.pos == pos
  }

  /** Slot `i` waits for ticket `k`: nobody has it yet, or its producer is still writing. */
  ghost predicate Open<T>(q: Queue<T>, i: nat, k: nat)
    requires Shaped(q) && i < q.capacity && |q.pushed| == |q.producers| == q.enqueuePos
  {
    && k % q.capacity == i
    && q.buffer[i].sequence == k
    && k < q.dequeuePos + q.capacity
    && (k >= q.enqueuePos ==> k < q.enqueuePos + q.capacity && q.buffer[i].value == None)
    && (k < q.enqueuePos ==>
          && q.dequeuePos <= k
          && q.enqueuePos <= k + q.capacity
          && q.producers[k] in q.threads
          && (var pc := q.threads[q.producers[k]];
              Pushing(pc, k) && q.buffer[i].value == if pc.PushStore? then None else Some(q.pushed[k])))
  }

  /** Slot `i` holds ticket `k`: published, and possibly being taken out by its consumer. */
  ghost predicate Full<T>(q: Queue<T>, i: nat, k: nat)
    requires Shaped(q) && i < q.capacity && |q.pushed| == |q.producers| == q.enqueuePos && |q.consumers| == q.dequeuePos
  {
    && k % q.capacity == i
    && q.buffer[i].sequence == k + 1
    && k < q.enqueuePos <= k + q.capacity
    && k < q.dequeuePos + q.capacity
    && (k >= q.dequeuePos ==> q.buffer[i].value == Some(q.pushed[k]))
    && (k < q.dequeuePos ==>
          && q.consumers[k] in q.threads
          && (var pc := q.threads[q.consumers[k]];
              && Popping(pc, k)
              && (pc.PopTake? ==> q.buffer[i].value == Some(q.pushed[k]))
              && (pc.PopRelease? ==> q.buffer[i].value == None && pc.taken == Some(q.pushed[k]))))
  }

  ghost predicate SlotInv<T>(q: Queue<T>, i: nat)
    requires Shaped(q) && i < q.capacity && |q.pushed| == |q.producers| == q.enqueuePos && |q.consumers| == q.dequeuePos
  {
    var s := q.buffer[i].sequence;
    Open(q, i, s) || (s > 0 && Full(q, i, s - 1))
  }

  ghost predicate ThreadInv<T>(q: Queue<T>, t: nat)
    requires Shaped(q) && t in q.threads && |q.pushed| == |q.producers| == q.enqueuePos && |q.consumers| == q.dequeuePos
  {
    match q.threads[t]
    case PushRead(_, pos) => pos <= q.enqueuePos
    case PushTry(_, pos, seen) => pos <= q.enqueuePos && seen <= SequenceAt(q, pos)
    case PushStore(item, pos) =>
      pos < q.enqueuePos && q.producers[pos] == t && q.pushed[pos] == item && SequenceAt(q, pos) == pos
    case PushPublish(item, pos) =>
      pos < q.enqueuePos && q.producers[pos] == t && q.pushed[pos] == item && SequenceAt(q, pos) == pos
    case PopRead(pos) => pos <= q.dequeuePos
    case PopTry(pos, seen) => pos <= q.dequeuePos && seen <= SequenceAt(q, pos)
    case PopTake(pos) => pos < q.dequeuePos && q.consumers[pos] == t && SequenceAt(q, pos) == pos + 1
    case PopRelease(pos, _) => pos < q.dequeuePos && q.consumers[pos] == t && SequenceAt(q, pos) == pos + 1
    case _ => true
  }

  /** A dequeued ticket: released with the pushed value, or still on its way out of its slot. */
  ghost predicate TicketInv<T>(q: Queue<T>, k: nat)
    requires Shaped(q) && k < q.dequeuePos <= |q.pushed|
  {
    if k in q.returned then q.returned[k] == Some(q.pushed[k]) && SequenceAt(q, k) >= k + q.capacity
    else SequenceAt(q, k) == k + 1
  }

  ghost predicate Counts<T>(q: Queue<T>) {
    && Shaped(q)
    && q.dequeuePos <= q.enqueuePos <= q.dequeuePos + q.capacity
    && |q.pushed| == |q.producers| == q.enqueuePos
    && |q.consumers| == q.dequeuePos
    && (forall k :: k in q.returned ==> k < q.dequeuePos)
  }

  ghost predicate Inv<T>(q: Queue<T>) {
    && Counts(q)
    && (forall i :: 0 <= i < q.capacity ==> SlotInv(q, i))
    && (forall t :: t in q.threads ==> ThreadInv(q, t))
    && (forall k :: 0 <= k < q.dequeuePos ==> TicketInv(q, k))
  }

  // ----- every step keeps the invariant

  predicate Owning<T>(pc: Pc<T>) {
    pc.PushStore? || pc.PushPublish? || pc.PopTake? || pc.PopRelease?
  }

  lemma InitialInv<T>(q: Queue<T>)
    requires Initial(q)
    ensures Inv(q)
  {
    forall i | 0 <= i < q.capacity ensures SlotInv(q, i) {
      DivUnique(q.capacity, 0, i);
      assert Open(q, i, i);
    }
  }

  /** A step that only moves a thread between places where it owns no slot. */
  lemma QuietKeeps<T>(q: Queue<T>, t: nat, pc: Pc<T>)
    requires Inv(q) && t in q.threads && !Owning(q.threads[t]) && !Owning(pc)
    requires ThreadInv(With(q, t, pc), t)
    ensures Inv(With(q, t, pc))
  {
    var q' := With(q, t, pc);
    forall i | 0 <= i < q.capacity ensures SlotInv(q', i) {
      var s := q.buffer[i].sequence;
      assert SlotInv(q, i);
      assert Open(q, i, s) ==> Open(q', i, s);
      assert s > 0 && Full(q, i, s - 1) ==> Full(q', i, s - 1);
    }
    forall u | u in q'.threads ensures ThreadInv(q', u) {
      assert u != t ==> ThreadInv(q, u);
    }
    forall k | 0 <= k < q'.dequeuePos ensures TicketInv(q', k) {
      assert TicketInv(q, k);
    }
  }

  /** The slot of the next enqueue ticket is open for it once its sequence number says so. */
  lemma NextSlotOpen<T>(q: Queue<T>)
    requires Inv(q) && SequenceAt(q, q.enqueuePos) >= q.enqueuePos
    ensures Open(q, SlotOf(q, q.enqueuePos), q.enqueuePos)
    ensures q.enqueuePos < q.dequeuePos + q.capacity
  {
    var i, s := SlotOf(q, q.enqueuePos), SequenceAt(q, q.enqueuePos);
    assert SlotInv(q, i);
    if Open(q, i, s) {
      SameResidue(q.capacity, q.enqueuePos, s);
    } else {
      ResidueStep(q.capacity, s - 1);
    }
  }

  /** The slot of the next dequeue ticket holds it once its sequence number says so. */
  lemma NextSlotFull<T>(q: Queue<T>)
    requires Inv(q) && SequenceAt(q, q.dequeuePos) >= q.dequeuePos + 1
    ensures Full(q, SlotOf(q, q.dequeuePos), q.dequeuePos)
  {
    var i, s := SlotOf(q, q.dequeuePos), SequenceAt(q, q.dequeuePos);
    assert SlotInv(q, i);
    if Open(q, i, s) {
      SameResidue(q.capacity, q.dequeuePos, s);
    } else {
      SameResidue(q.capacity, q.dequeuePos, s - 1);
    }
  }

  lemma WinPushElsewhere<T>(q: Queue<T>, t: nat, j: nat)
    requires Inv(q) && t in q.threads && q.threads[t].PushTry?
    requires q.threads[t].seen == q.threads[t].pos == q.enqueuePos
    requires j < q.capacity && j != SlotOf(q, q.enqueuePos) && Counts(Advance(q, t))
    ensures SlotInv(Advance(q, t), j)
  {
    var q', s := Advance(q, t), q.buffer[j].sequence;
    assert SlotInv(q, j);
    if Open(q, j, s) {
      ResidueStep(q.capacity, s);
      assert Open(q', j, s);
    } else {
      ResidueStep(q.capacity, s - 1);
      assert Full(q', j, s - 1);
    }
  }

  lemma WinPushKeeps<T>(q: Queue<T>, t: nat)
    requires Inv(q) && t in q.threads && q.threads[t].PushTry?
    requires q.threads[t].seen == q.threads[t].pos == q.enqueuePos
    ensures Inv(Advance(q, t))
  {
    var q', i, e := Advance(q, t), SlotOf(q, q.enqueuePos), q.enqueuePos;
    assert ThreadInv(q, t);
    NextSlotOpen(q);
    forall j | 0 <= j < q.capacity ensures SlotInv(q', j) {
      if j == i {
        assert Open(q', i, e);
      } else {
        WinPushElsewhere(q, t, j);
      }
    }
    forall u | u in q'.threads ensures ThreadInv(q', u) {
      assert ThreadInv(q, u);
    }
    forall k | 0 <= k < q'.dequeuePos ensures TicketInv(q', k) {
      assert TicketInv(q, k);
    }
  }

  lemma WinPopKeeps<T>(q: Queue<T>, t: nat)
    requires Inv(q) && t in q.threads && q.threads[t].PopTry?
    requires q.threads[t].seen == q.threads[t].pos + 1 && q.threads[t].pos == q.dequeuePos
    ensures Inv(Advance(q, t))
  {
    var q', i, d := Advance(q, t), SlotOf(q, q.dequeuePos), q.dequeuePos;
    assert ThreadInv(q, t);
    NextSlotFull(q);
    forall j | 0 <= j < q.capacity ensures SlotInv(q', j) {
      var s := q.buffer[j].sequence;
      assert SlotInv(q, j);
      if j == i {
        assert Full(q', i, d);
      } else if Open(q, j, s) {
        assert Open(q', j, s);
      } else {
        assert Full(q', j, s - 1);
      }
    }
    forall u | u in q'.threads ensures ThreadInv(q', u) {
      assert ThreadInv(q, u);
    }
    forall k | 0 <= k < q'.dequeuePos ensures TicketInv(q', k) {
      assert k < d ==> TicketInv(q, k);
      assert d !in q.returned;
    }
  }

  /** A thread that won an enqueue ticket finds its slot open for that ticket. */
  lemma ProducerSlot<T>(q: Queue<T>, t: nat)
    requires Inv(q) && t in q.threads && (q.threads[t].PushStore? || q.threads[t].PushPublish?)
    ensures ThreadInv(q, t) && Open(q, SlotOf(q, q.threads[t].pos), q.threads[t].pos)
  {
    assert ThreadInv(q, t);
    var pos := q.threads[t].pos;
    assert SlotInv(q, SlotOf(q, pos));
    if pos > 0 {
      ResidueStep(q.capacity, pos - 1);
    }
  }

  lemma ConsumerSlot<T>(q: Queue<T>, t: nat)
    requires Inv(q) && t in q.threads && (q.threads[t].PopTake? || q.threads[t].PopRelease?)
    ensures ThreadInv(q, t) && Full(q, SlotOf(q, q.threads[t].pos), q.threads[t].pos)
  {
    assert ThreadInv(q, t);
    var pos := q.threads[t].pos;
    assert SlotInv(q, SlotOf(q, pos));
    ResidueStep(q.capacity, pos);
  }

  /** A step that changes the slot of one ticket, of which the stepping thread is the only owner. */
  ghost predicate OnlySlot<T>(q: Queue<T>, q': Queue<T>, t: nat, i: nat)
    requires Counts(q)
  {
    && Counts(q')
    && t in q.threads
    && i < q.capacity == q'.capacity
    && q'.enqueuePos == q.enqueuePos && q'.dequeuePos == q.dequeuePos
    && q'.pushed == q.pushed && q'.producers == q.producers && q'.consumers == q.consumers
    && q'.buffer == q.buffer[i := q'.buffer[i]]
    && q'.buffer[i].sequence >= q.buffer[i].sequence
    && t in q'.threads
    && q'.threads == q.threads[t := q'.threads[t]]
    && Owning(q.threads[t]) && q.threads[t].pos % q.capacity == i
    && (Owning(q'.threads[t]) ==> q'.threads[t].pos == q.threads[t].pos)
  }

  /**
   A release records the value taken and frees the slot; a publication raises the sequence number;
   nothing else does either.
   */
  ghost predicate Recorded<T>(q: Queue<T>, q': Queue<T>, t: nat, i: nat)
    requires Counts(q) && OnlySlot(q, q', t, i)
  {
    if q.threads[t].PopRelease? then
      q'.buffer[i].sequence == q.threads[t].pos + q.capacity &&
        q'.returned == q.returned[q.threads[t].pos := q.threads[t].taken]
    else q'.returned == q.returned && (q'.buffer[i].sequence == q.buffer[i].sequence || q.threads[t].PushPublish?)
  }

  /** Another slot is as it was: the stepping thread owns nothing there. */
  lemma OtherSlot<T>(q: Queue<T>, q': Queue<T>, t: nat, i: nat, j: nat)
    requires Inv(q) && OnlySlot(q, q', t, i) && j < q.capacity && j != i
    ensures SlotInv(q', j)
  {
    var s := q.buffer[j].sequence;
    assert SlotInv(q, j);
    if Open(q, j, s) {
      assert Open(q', j, s);
    } else {
      assert Full(q', j, s - 1);
    }
  }

  /** Another thread still finds what it relies on: it owns no ticket of that slot. */
  lemma OtherThread<T>(q: Queue<T>, q': Queue<T>, t: nat, i: nat, u: nat)
    requires Inv(q) && OnlySlot(q, q', t, i) && u in q.threads && u != t
    ensures ThreadInv(q', u)
  {
    assert ThreadInv(q, u);
    assert ThreadInv(q, t);
    if Owning(q.threads[u]) && q.threads[u].pos % q.capacity == i {
      OneOwner(q, t, u);
    }
  }

  /** No two threads own the value of one slot at the same time. */
  lemma OneOwner<T>(q: Queue<T>, t: nat, u: nat)
    requires Inv(q) && t in q.threads && u in q.threads && Owning(q.threads[t]) && Owning(q.threads[u])
    requires SlotOf(q, q.threads[t].pos) == SlotOf(q, q.threads[u].pos)
    ensures t == u
  {
    assert ThreadInv(q, t) && ThreadInv(q, u);
    ResidueStep(q.capacity, q.threads[t].pos);
    ResidueStep(q.capacity, q.threads[u].pos);
  }

  lemma StoreKeeps<T>(q: Queue<T>, t: nat)
    requires Inv(q) && t in q.threads && q.threads[t].PushStore?
    ensures Inv(Advance(q, t))
  {
    ProducerSlot(q, t);
    var q', pos := Advance(q, t), q.threads[t].pos;
    var i := SlotOf(q, pos);
    assert Open(q', i, pos);
    OneSlotKeeps(q, q', t, i);
  }

  lemma PublishKeeps<T>(q: Queue<T>, t: nat)
    requires Inv(q) && t in q.threads && q.threads[t].PushPublish?
    ensures Inv(Advance(q, t))
  {
    ProducerSlot(q, t);
    var q', pos := Advance(q, t), q.threads[t].pos;
    var i := SlotOf(q, pos);
    assert Full(q', i, pos);
    OneSlotKeeps(q, q', t, i);
  }

  lemma TakeKeeps<T>(q: Queue<T>, t: nat)
    requires Inv(q) && t in q.threads && q.threads[t].PopTake?
    ensures Inv(Advance(q, t))
  {
    ConsumerSlot(q, t);
    var q', pos := Advance(q, t), q.threads[t].pos;
    var i := SlotOf(q, pos);
    assert Full(q', i, pos);
    OneSlotKeeps(q, q', t, i);
  }

  lemma ReleaseKeeps<T>(q: Queue<T>, t: nat)
    requires Inv(q) && t in q.threads && q.threads[t].PopRelease?
    ensures Inv(Advance(q, t))
  {
    ConsumerSlot(q, t);
    var q', pos := Advance(q, t), q.threads[t].pos;
    var i := SlotOf(q, pos);
    ResidueStep(q.capacity, pos);
    assert Open(q', i, pos + q.capacity);
    OneSlotKeeps(q, q', t, i);
  }

  lemma OneSlotKeeps<T>(q: Queue<T>, q': Queue<T>, t: nat, i: nat)
    requires Inv(q) && OnlySlot(q, q', t, i) && SlotInv(q', i) && ThreadInv(q', t)
    requires Recorded(q, q', t, i)
    ensures Inv(q')
  {
    forall j | 0 <= j < q.capacity ensures SlotInv(q', j) {
      if j != i {
        OtherSlot(q, q', t, i, j);
      }
    }
    forall u | u in q'.threads ensures ThreadInv(q', u) {
      if u != t {
        OtherThread(q, q', t, i, u);
      }
    }
    forall k | 0 <= k < q'.dequeuePos ensures TicketInv(q', k) {
      TicketKept(q, q', t, i, k);
    }
  }

  lemma TicketKept<T>(q: Queue<T>, q': Queue<T>, t: nat, i: nat, k: nat)
    requires Inv(q) && OnlySlot(q, q', t, i) && k < q.dequeuePos
    requires Recorded(q, q', t, i)
    ensures TicketInv(q', k)
  {
    assert TicketInv(q, k);
    assert ThreadInv(q, t);
    var pos := q.threads[t].pos;
    if k % q.capacity == i {
      if q.threads[t].PopRelease? {
        ConsumerSlot(q, t);
      } else if q.threads[t].PushPublish? {
        ProducerSlot(q, t);
        ResidueStep(q.capacity, k);
      }
    }
  }

  lemma AdvanceKeeps<T>(q: Queue<T>, t: nat)
    requires Inv(q) && t in q.threads
    ensures Inv(Advance(q, t))
  {
    assert ThreadInv(q, t);
    hide Inv, ThreadInv;
    match q.threads[t] {
      case Idle =>
      case PushLoad(item) => QuietKeeps(q, t, PushRead(item, q.enqueuePos));
      case PushRead(item, pos) => QuietKeeps(q, t, PushTry(item, pos, SequenceAt(q, pos)));
      case PushTry(item, pos, seen) =>
        if seen == pos == q.enqueuePos {
          WinPushKeeps(q, t);
        } else {
          QuietKeeps(q, t, Advance(q, t).threads[t]);
        }
      case PushStore(_, _) => StoreKeeps(q, t);
      case PushPublish(_, _) => PublishKeeps(q, t);
      case PopLoad => QuietKeeps(q, t, PopRead(q.dequeuePos));
      case PopRead(pos) => QuietKeeps(q, t, PopTry(pos, SequenceAt(q, pos)));
      case PopTry(pos, seen) =>
        if seen == pos + 1 && pos == q.dequeuePos {
          WinPopKeeps(q, t);
        } else {
          QuietKeeps(q, t, Advance(q, t).threads[t]);
        }
      case PopTake(_) => TakeKeeps(q, t);
      case PopRelease(_, _) => ReleaseKeeps(q, t);
    }
  }

  lemma NextKeeps<T>(q: Queue<T>, t: nat, act: Act<T>)
    requires Inv(q) && t in q.threads
    ensures Inv(Next(q, t, act))
  {
    hide Inv, Advance;
    match act {
      case Continue => AdvanceKeeps(q, t);
      case _ => BeginKeeps(q, t, act);
    }
  }

  lemma BeginKeeps<T>(q: Queue<T>, t: nat, act: Act<T>)
    requires Inv(q) && t in q.threads && !act.Continue?
    ensures Inv(Next(q, t, act))
  {
    var q' := Next(q, t, act);
    if q' != q {
      QuietKeeps(q, t, q'.threads[t]);
    }
  }

  lemma {:induction false} ExecKeeps<T>(q: Queue<T>, schedule: seq<(nat, Act<T>)>)
    requires Inv(q)
    ensures Inv(Exec(q, schedule))
    decreases |schedule|
  {
    if schedule != [] {
      var (t, act) := schedule[0];
      if t in q.threads {
        NextKeeps(q, t, act);
        ExecKeeps(Next(q, t, act), schedule[1..]);
      } else {
        ExecKeeps(q, schedule[1..]);
      }
    }
  }

  // ----- what every run guarantees

  /** Ticket `k` is in exactly one of these places. */
  datatype Place = InProducer | InSlot | InConsumer | Returned

  ghost predicate At<T>(q: Queue<T>, k: nat, place: Place)
    requires Counts(q) && k < q.enqueuePos
  {
    match place
    case InProducer => q.dequeuePos <= k && q.producers[k] in q.threads && Pushing(q.threads[q.producers[k]], k)
    case InSlot => q.dequeuePos <= k && q.buffer[k % q.capacity] == Slot(k + 1, Some(q.pushed[k]))
    case InConsumer =>
      k < q.dequeuePos && k !in q.returned && q.consumers[k] in q.threads && Popping(q.threads[q.consumers[k]], k)
    case Returned => k < q.dequeuePos && k in q.returned && q.returned[k] == Some(q.pushed[k])
  }

  /** Nothing is lost and nothing is duplicated: every ticket ever won is in one place. */
  lemma TicketAccounted<T>(q: Queue<T>, k: nat) returns (place: Place)
    requires Inv(q) && k < q.enqueuePos
    ensures At(q, k, place)
    ensures forall other :: At(q, k, other) ==> other == place
  {
    var i := k % q.capacity;
    assert SlotInv(q, i);
    if k < q.dequeuePos {
      assert TicketInv(q, k);
      if k in q.returned {
        place := Returned;
      } else {
        ResidueStep(q.capacity, k);
        place := InConsumer;
      }
    } else {
      QueuedSlot(q, k);
      place := if Open(q, i, k) then InProducer else InSlot;
      if Full(q, i, k) && q.producers[k] in q.threads && Pushing(q.threads[q.producers[k]], k) {
        ProducerSlot(q, q.producers[k]);
      }
    }
  }

  /** The slot of a ticket between the two positions is the ticket's own. */
  lemma QueuedSlot<T>(q: Queue<T>, k: nat)
    requires Inv(q) && q.dequeuePos <= k < q.enqueuePos
    ensures Open(q, k % q.capacity, k) || Full(q, k % q.capacity, k)
  {
    var i := k % q.capacity;
    var s := q.buffer[i].sequence;
    assert SlotInv(q, i);
    if Open(q, i, s) {
      if s <= k {
        SameResidue(q.capacity, s, k);
      } else {
        SameResidue(q.capacity, k, s);
      }
    } else if s - 1 <= k {
      SameResidue(q.capacity, s - 1, k);
    } else {
      SameResidue(q.capacity, k, s - 1);
    }
  }

  /** Both threads own the value of one and the same slot. */
  predicate SharesSlot<T>(q: Queue<T>, t: nat, u: nat)
    requires Shaped(q) && t in q.threads && u in q.threads
  {
    Owning(q.threads[t]) && Owning(q.threads[u]) && SlotOf(q, q.threads[t].pos) == SlotOf(q, q.threads[u].pos)
  }

  ghost predicate SingleOwners<T>(q: Queue<T>)
    requires Shaped(q)
  {
    forall t, u :: t in q.threads && u in q.threads && SharesSlot(q, t, u) ==> t == u
  }

  /** Whatever the interleaving: the k-th dequeue ticket returns the value of the k-th enqueue ticket
      (so a pop that wins its ticket never returns nothing), positions stay within the capacity, and
      no slot has two owners. */
  lemma RunSafe<T>(q: Queue<T>, schedule: seq<(nat, Act<T>)>)
    requires Initial(q)
    ensures var r := Exec(q, schedule);
            && r.dequeuePos <= r.enqueuePos <= r.dequeuePos + r.capacity
            && |r.pushed| == r.enqueuePos
            && (forall k :: k in r.returned ==> k < r.dequeuePos && r.returned[k] == Some(r.pushed[k]))
            && SingleOwners(r)
  {
    InitialInv(q);
    ExecKeeps(q, schedule);
    var r := Exec(q, schedule);
    forall k | k in r.returned ensures r.returned[k] == Some(r.pushed[k]) {
      assert TicketInv(r, k);
    }
    forall t, u | t in r.threads && u in r.threads && SharesSlot(r, t, u) ensures t == u {
      OneOwner(r, t, u);
    }
  }

  /** A push gives up on a sequence number that is too small: then the ticket one lap earlier is still unreleased. */
  lemma PushFindsFull<T>(q: Queue<T>, t: nat)
    requires Inv(q) && t in q.threads && q.threads[t].PushRead?
    requires SequenceAt(q, q.threads[t].pos) < q.threads[t].pos
    ensures q.capacity <= q.threads[t].pos <= q.enqueuePos
    ensures q.threads[t].pos - q.capacity !in q.returned
  {
    var pos := q.threads[t].pos;
    var i, s := pos % q.capacity, SequenceAt(q, pos);
    assert ThreadInv(q, t);
    assert SlotInv(q, i);
    if pos < q.capacity {
      DivUnique(q.capacity, 0, pos);
      ModAtMost(s, q.capacity);
      if s > 0 {
        ModAtMost(s - 1, q.capacity);
      }
    } else {
      ResidueStep(q.capacity, pos - q.capacity);
      if pos - q.capacity < q.dequeuePos {
        assert TicketInv(q, pos - q.capacity);
      }
    }
  }

  /** A pop gives up on a sequence number that is too small: then no later ticket was dequeued, and the
      next one is not yet enqueued or its producer has not yet published it. */
  lemma PopFindsEmpty<T>(q: Queue<T>, t: nat)
    requires Inv(q) && t in q.threads && q.threads[t].PopRead?
    requires SequenceAt(q, q.threads[t].pos) < q.threads[t].pos + 1
    ensures q.threads[t].pos == q.dequeuePos
    ensures q.dequeuePos == q.enqueuePos || At(q, q.dequeuePos, InProducer)
  {
    var pos := q.threads[t].pos;
    assert ThreadInv(q, t);
    assert pos < q.dequeuePos ==> TicketInv(q, pos);
    if pos == q.dequeuePos < q.enqueuePos {
      QueuedSlot(q, pos);
    }
  }
}
