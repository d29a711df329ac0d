/**
 What `push` and `pop` answer: over any run, and when nobody interferes.

 The results speak of the states of a run and of where a thread is in them, not of single steps.
 */
module MpmcResults {
  import opened Arith
  import opened Mpmc

  // ----- the states of a run

  function Step<T>(q: Queue<T>, e: (nat, Act<T>)): Queue<T>
    requires Shaped(q)
  {
    if e.0 in q.threads then Next(q, e.0, e.1) else q
  }

  /** The states that the schedule goes through. */
  ghost predicate Trace<T>(r: seq<Queue<T>>, schedule: seq<(nat, Act<T>)>) {
    && |r| == |schedule| + 1 && Initial(r[0])
    && (forall i :: 0 <= i < |r| ==> Shaped(r[i]) && r[i].threads.Keys == r[0].threads.Keys)
    && (forall i :: 0 <= i < |schedule| ==> r[i + 1] == Step(r[i], schedule[i]))
  }

  /** Every run has its states. */
  lemma {:induction false} TraceOf<T>(q: Queue<T>, schedule: seq<(nat, Act<T>)>) returns (r: seq<Queue<T>>)
    requires Initial(q)
    ensures Trace(r, schedule) && r[0] == q
    decreases |schedule|
  {
    if schedule == [] {
      r := [q];
    } else {
      var n := |schedule| - 1;
      var s := TraceOf(q, schedule[..n]);
      r := s + [Step(s[n], schedule[n])];
      forall i | 0 <= i < |schedule| ensures r[i + 1] == Step(r[i], schedule[i]) {
        assert i < n ==> schedule[..n][i] == schedule[i];
      }
    }
  }

  lemma {:induction false} TraceInv<T>(r: seq<Queue<T>>, schedule: seq<(nat, Act<T>)>, i: nat)
    requires Trace(r, schedule) && i < |r|
    ensures Inv(r[i])
    decreases i
  {
    hide Inv, Next, Initial;
    if i == 0 {
      InitialInv(r[0]);
    } else {
      TraceInv(r, schedule, i - 1);
      assert r[i - 1 + 1] == Step(r[i - 1], schedule[i - 1]);
      if schedule[i - 1].0 in r[i - 1].threads {
        NextKeeps(r[i - 1], schedule[i - 1].0, schedule[i - 1].1);
      }
    }
  }

  /** A call of thread `t` that begins with step `i` has returned in state `j`, and not before. */
  ghost predicate Call<T>(r: seq<Queue<T>>, schedule: seq<(nat, Act<T>)>, t: nat, act: Act<T>, i: nat, j: nat) {
    && Trace(r, schedule) && i < j < |r| && t in r[0].threads && schedule[i] == (t, act)
    && t in r[i].threads && r[i].threads[t].Idle? && t in r[j].threads && r[j].threads[t].Idle?
    && forall k :: i < k < j ==> t in r[k].threads && !r[k].threads[t].Idle?
  }

  // ----- tickets won between two states

  /** Thread `t` won no enqueue ticket between the two states. */
  ghost predicate NoPush<T>(a: Queue<T>, b: Queue<T>, t: nat) {
    && a.enqueuePos <= b.enqueuePos == |b.producers|
    && forall p :: a.enqueuePos <= p < b.enqueuePos ==> b.producers[p] != t
  }

  /** It won ticket `p`, for `item`, and no other. */
  ghost predicate OnePush<T>(a: Queue<T>, b: Queue<T>, t: nat, item: T, p: nat) {
    && a.enqueuePos <= p < b.enqueuePos == |b.producers| == |b.pushed|
    && b.producers[p] == t && b.pushed[p] == item
    && forall o :: a.enqueuePos <= o < b.enqueuePos && o != p ==> b.producers[o] != t
  }

  ghost predicate NoPop<T>(a: Queue<T>, b: Queue<T>, t: nat) {
    && a.dequeuePos <= b.dequeuePos == |b.consumers|
    && forall p :: a.dequeuePos <= p < b.dequeuePos ==> b.consumers[p] != t
  }

  ghost predicate OnePop<T>(a: Queue<T>, b: Queue<T>, t: nat, p: nat) {
    && a.dequeuePos <= p < b.dequeuePos == |b.consumers|
    && b.consumers[p] == t
    && forall o :: a.dequeuePos <= o < b.dequeuePos && o != p ==> b.consumers[o] != t
  }

  /** What a step of thread `u` adds to the history. */
  ghost predicate Grows<T>(q: Queue<T>, q': Queue<T>, u: nat) {
    && q'.capacity == q.capacity
    && ((q'.enqueuePos == q.enqueuePos && q'.pushed == q.pushed && q'.producers == q.producers) ||
        (q'.enqueuePos == q.enqueuePos + 1 && |q'.pushed| == |q.pushed| + 1 && q.pushed <= q'.pushed &&
         q'.producers == q.producers + [u]))
    && ((q'.dequeuePos == q.dequeuePos && q'.consumers == q.consumers) ||
        (q'.dequeuePos == q.dequeuePos + 1 && q'.consumers == q.consumers + [u]))
  }

  lemma Grown<T>(q: Queue<T>, u: nat, act: Act<T>)
    requires Shaped(q) && u in q.threads
    ensures Grows(q, Next(q, u, act), u)
  {
  }

  lemma OthersStay<T>(q: Queue<T>, u: nat, act: Act<T>, t: nat)
    requires Shaped(q) && u in q.threads && t in q.threads && t != u
    ensures var q' := Next(q, u, act); t in q'.threads && q'.threads[t] == q.threads[t]
  {
  }

  // ----- push

  /** The thread is at `pc`, about to read the sequence number `seen` of position `pos`. */
  ghost predicate Reads<T>(q: Queue<T>, t: nat, pc: Pc<T>, pos: nat, seen: nat) {
    Shaped(q) && t in q.threads && q.threads[t] == pc && SequenceAt(q, pos) == seen
  }

  /** Where a push is, and what it has got, `m` states into the run. */
  ghost predicate PushUnderway<T>(r: seq<Queue<T>>, t: nat, item: T, i: nat, m: nat)
    requires i < m < |r|
  {
    t in r[m].threads &&
    match r[m].threads[t]
    case PushLoad(x) => x == item && NoPush(r[i], r[m], t)
    case PushRead(x, _) => x == item && NoPush(r[i], r[m], t)
    case PushTry(x, pos, seen) =>
      x == item && NoPush(r[i], r[m], t) && exists k :: i < k < m && Reads(r[k], t, PushRead(item, pos), pos, seen)
    case PushStore(x, pos) => x == item && OnePush(r[i], r[m], t, item, pos)
    case PushPublish(x, pos) => x == item && OnePush(r[i], r[m], t, item, pos)
    case _ => false
  }

  /** It found the ticket one round before its position not released: the queue was full. */
  ghost predicate SawFull<T>(r: seq<Queue<T>>, t: nat, item: T, k: nat)
    requires k < |r|
  {
    && t in r[k].threads && r[k].threads[t].PushRead? && r[k].threads[t].item == item
    && var pos := r[k].threads[t].pos;
       r[k].capacity <= pos <= r[k].enqueuePos && pos - r[k].capacity !in r[k].returned
  }

  /** The push has its one ticket, or none, and then it saw the queue full. */
  ghost predicate PushAnswer<T>(r: seq<Queue<T>>, t: nat, item: T, i: nat, j: nat)
    requires i < j < |r|
  {
    || (exists p: nat :: OnePush(r[i], r[j], t, item, p))
    || (NoPush(r[i], r[j], t) && exists k :: i < k < j && SawFull(r, t, item, k))
  }

  /** How a thread moves that is pushing. */
  ghost predicate PushMove<T>(q: Queue<T>, q': Queue<T>, t: nat)
    requires Shaped(q) && t in q.threads && t in q'.threads
  {
    var pc, pc' := q.threads[t], q'.threads[t];
    var same := q'.enqueuePos == q.enqueuePos && q'.producers == q.producers && q'.pushed == q.pushed;
    match pc
    case PushLoad(x) => same && (pc' == pc || (pc'.PushRead? && pc'.item == x))
    case PushRead(x, pos) => same && (pc' == pc || pc' == PushTry(x, pos, SequenceAt(q, pos)))
    case PushTry(x, pos, seen) =>
      || (same && (pc' == pc || pc' == PushLoad(x) || (pc'.PushRead? && pc'.item == x) || (pc'.Idle? && seen < pos)))
      || (pc' == PushStore(x, pos) && pos == q.enqueuePos && q'.enqueuePos == pos + 1 &&
          q'.producers == q.producers + [t] && q'.pushed == q.pushed + [x])
    case PushStore(x, pos) => same && (pc' == pc || pc' == PushPublish(x, pos))
    case PushPublish(_, _) => same && (pc' == pc || pc'.Idle?)
    case _ => true
  }

  lemma PushMoves<T>(q: Queue<T>, t: nat, act: Act<T>)
    requires Shaped(q) && t in q.threads
    ensures PushMove(q, Next(q, t, act), t)
  {
  }

  lemma NoPushLater<T>(a: Queue<T>, b: Queue<T>, b': Queue<T>, u: nat, t: nat)
    requires Counts(b) && Grows(b, b', u) && u != t && NoPush(a, b, t)
    ensures NoPush(a, b', t)
  {
  }

  lemma OnePushLater<T>(a: Queue<T>, b: Queue<T>, b': Queue<T>, u: nat, t: nat, item: T, p: nat)
    requires Counts(b) && Grows(b, b', u) && u != t && OnePush(a, b, t, item, p)
    ensures OnePush(a, b', t, item, p)
  {
  }

  /** One step of anybody during a push of `t`. */
  lemma PushProgress<T>(r: seq<Queue<T>>, schedule: seq<(nat, Act<T>)>, t: nat, item: T, i: nat, m: nat)
    requires Trace(r, schedule) && i < m < |schedule| && PushUnderway(r, t, item, i, m)
    ensures t in r[m + 1].threads
    ensures if r[m + 1].threads[t].Idle? then PushAnswer(r, t, item, i, m + 1) else PushUnderway(r, t, item, i, m + 1)
  {
    hide Initial, Next, PushUnderway, PushAnswer, PushMove, Grows, SlotInv, ThreadInv, TicketInv;
    TraceInv(r, schedule, m);
    var (u, act) := schedule[m];
    var q := r[m];
    assert r[m + 1] == Step(q, schedule[m]);
    InPush(r, t, item, i, m);
    if u == t {
      PushMoves(q, t, act);
      if q.threads[t].PushTry? && r[m + 1].threads[t].Idle? {
        PushGivesUp(r, schedule, t, item, i, m);
      } else {
        PushGoesOn(r, t, item, i, m);
      }
    } else {
      if u in q.threads {
        Grown(q, u, act);
        OthersStay(q, u, act, t);
      }
      PushWaits(r, t, item, i, m, u);
    }
  }

  lemma InPush<T>(r: seq<Queue<T>>, t: nat, item: T, i: nat, m: nat)
    requires i < m < |r| && PushUnderway(r, t, item, i, m)
    ensures t in r[m].threads && !r[m].threads[t].Idle?
  {
  }

  /** What it read, and when. */
  lemma PushGivesUp<T>(r: seq<Queue<T>>, schedule: seq<(nat, Act<T>)>, t: nat, item: T, i: nat, m: nat)
    requires Trace(r, schedule) && i < m < |schedule| && PushUnderway(r, t, item, i, m) && t in r[m + 1].threads
    requires r[m].threads[t].PushTry? && r[m + 1].threads[t].Idle? && PushMove(r[m], r[m + 1], t)
    ensures PushAnswer(r, t, item, i, m + 1)
  {
    hide Initial, Next, SlotInv, ThreadInv, TicketInv;
    var pos, seen := r[m].threads[t].pos, r[m].threads[t].seen;
    var k :| i < k < m && Reads(r[k], t, PushRead(item, pos), pos, seen);
    TraceInv(r, schedule, k);
    PushFindsFull(r[k], t);
    assert SawFull(r, t, item, k);
  }

  lemma PushGoesOn<T>(r: seq<Queue<T>>, t: nat, item: T, i: nat, m: nat)
    requires i < m < |r| - 1 && PushUnderway(r, t, item, i, m) && Counts(r[m])
    requires t in r[m + 1].threads && PushMove(r[m], r[m + 1], t)
    requires !(r[m].threads[t].PushTry? && r[m + 1].threads[t].Idle?)
    ensures if r[m + 1].threads[t].Idle? then PushAnswer(r, t, item, i, m + 1) else PushUnderway(r, t, item, i, m + 1)
  {
    var q, q' := r[m], r[m + 1];
    if q.threads[t].PushRead? && q'.threads[t].PushTry? {
      assert Reads(r[m], t, q.threads[t], q.threads[t].pos, q'.threads[t].seen);
    } else if q.threads[t].PushTry? && q'.threads[t].PushStore? {
      assert OnePush(r[i], q', t, item, q.threads[t].pos);
    } else if q.threads[t].PushPublish? && q'.threads[t].Idle? {
      assert OnePush(r[i], q', t, item, q.threads[t].pos);
    }
  }

  lemma PushWaits<T>(r: seq<Queue<T>>, t: nat, item: T, i: nat, m: nat, u: nat)
    requires i < m < |r| - 1 && PushUnderway(r, t, item, i, m) && Counts(r[m])
    requires t in r[m + 1].threads && r[m + 1].threads[t] == r[m].threads[t]
    requires r[m + 1] == r[m] || (Grows(r[m], r[m + 1], u) && u != t)
    ensures !r[m + 1].threads[t].Idle? && PushUnderway(r, t, item, i, m + 1)
  {
    if r[m + 1] != r[m] {
      if NoPush(r[i], r[m], t) {
        NoPushLater(r[i], r[m], r[m + 1], u, t);
      }
      if r[m].threads[t].PushStore? || r[m].threads[t].PushPublish? {
        OnePushLater(r[i], r[m], r[m + 1], u, t, item, r[m].threads[t].pos);
      }
    }
  }

  lemma {:induction false} PushUntil<T>(r: seq<Queue<T>>, schedule: seq<(nat, Act<T>)>, t: nat, item: T, i: nat,
                                        j: nat, m: nat)
    requires Call(r, schedule, t, BeginPush(item), i, j) && i < m < j && PushUnderway(r, t, item, i, m)
    ensures PushAnswer(r, t, item, i, j)
    decreases j - m
  {
    hide PushUnderway, PushAnswer;
    PushProgress(r, schedule, t, item, i, m);
    if m + 1 < j {
      PushUntil(r, schedule, t, item, i, j, m + 1);
    }
  }

  /**
   Over every run: a push that returns has won exactly one ticket, for its item; or it has won none,
   and at some point of the push the ticket one round before its position was not released.
   */
  lemma PushReturns<T>(r: seq<Queue<T>>, schedule: seq<(nat, Act<T>)>, t: nat, item: T, i: nat, j: nat)
    requires Call(r, schedule, t, BeginPush(item), i, j)
    ensures PushAnswer(r, t, item, i, j)
  {
    TraceInv(r, schedule, i);
    assert r[i + 1] == Step(r[i], schedule[i]);
    assert NoPush(r[i], r[i + 1], t);
    PushUntil(r, schedule, t, item, i, j, i + 1);
  }

  // ----- pop

  ghost predicate PopUnderway<T>(r: seq<Queue<T>>, t: nat, i: nat, m: nat)
    requires i < m < |r|
  {
    t in r[m].threads &&
    match r[m].threads[t]
    case PopLoad => NoPop(r[i], r[m], t)
    case PopRead(_) => NoPop(r[i], r[m], t)
    case PopTry(pos, seen) =>
      NoPop(r[i], r[m], t) && exists k :: i < k < m && Reads(r[k], t, PopRead(pos), pos, seen)
    case PopTake(pos) => OnePop(r[i], r[m], t, pos)
    case PopRelease(pos, _) => OnePop(r[i], r[m], t, pos)
    case _ => false
  }

  /** It found nothing queued, or the next value not yet published. */
  ghost predicate SawEmpty<T>(r: seq<Queue<T>>, t: nat, k: nat)
    requires k < |r|
  {
    && t in r[k].threads && r[k].threads[t] == PopRead(r[k].dequeuePos)
    && Counts(r[k]) && (r[k].dequeuePos == r[k].enqueuePos || At(r[k], r[k].dequeuePos, InProducer))
  }

  /** Ticket `p` was answered with the value pushed with it. */
  ghost predicate Delivered<T>(q: Queue<T>, p: nat) {
    p < |q.pushed| && p in q.returned && q.returned[p] == Some(q.pushed[p])
  }

  /** The pop has won one ticket and returned the value pushed with it, or none, and then it saw nothing to take. */
  ghost predicate PopAnswer<T>(r: seq<Queue<T>>, t: nat, i: nat, j: nat)
    requires i < j < |r|
  {
    || (exists p: nat :: OnePop(r[i], r[j], t, p) && Delivered(r[j], p))
    || (NoPop(r[i], r[j], t) && exists k :: i < k < j && SawEmpty(r, t, k))
  }

  ghost predicate PopMove<T>(q: Queue<T>, q': Queue<T>, t: nat)
    requires Shaped(q) && t in q.threads && t in q'.threads
  {
    var pc, pc' := q.threads[t], q'.threads[t];
    var same := q'.dequeuePos == q.dequeuePos && q'.consumers == q.consumers;
    match pc
    case PopLoad => same && (pc' == pc || pc'.PopRead?)
    case PopRead(pos) => same && (pc' == pc || pc' == PopTry(pos, SequenceAt(q, pos)))
    case PopTry(pos, seen) =>
      || (same && (pc' == pc || pc' == PopLoad || pc'.PopRead? || (pc'.Idle? && seen < pos + 1)))
      || (pc' == PopTake(pos) && pos == q.dequeuePos && q'.dequeuePos == pos + 1 && q'.consumers == q.consumers + [t])
    case PopTake(pos) => same && (pc' == pc || (pc'.PopRelease? && pc'.pos == pos))
    case PopRelease(pos, _) => same && (pc' == pc || (pc'.Idle? && pos in q'.returned))
    case _ => true
  }

  lemma PopMoves<T>(q: Queue<T>, t: nat, act: Act<T>)
    requires Shaped(q) && t in q.threads
    ensures PopMove(q, Next(q, t, act), t)
  {
  }

  lemma NoPopLater<T>(a: Queue<T>, b: Queue<T>, b': Queue<T>, u: nat, t: nat)
    requires Counts(b) && Grows(b, b', u) && u != t && NoPop(a, b, t)
    ensures NoPop(a, b', t)
  {
  }

  lemma OnePopLater<T>(a: Queue<T>, b: Queue<T>, b': Queue<T>, u: nat, t: nat, p: nat)
    requires Counts(b) && Grows(b, b', u) && u != t && OnePop(a, b, t, p)
    ensures OnePop(a, b', t, p)
  {
  }

  lemma PopProgress<T>(r: seq<Queue<T>>, schedule: seq<(nat, Act<T>)>, t: nat, i: nat, m: nat)
    requires Trace(r, schedule) && i < m < |schedule| && PopUnderway(r, t, i, m)
    ensures t in r[m + 1].threads
    ensures if r[m + 1].threads[t].Idle? then PopAnswer(r, t, i, m + 1) else PopUnderway(r, t, i, m + 1)
  {
    hide Initial, Next, PopUnderway, PopAnswer, PopMove, Grows, SlotInv, ThreadInv, TicketInv;
    TraceInv(r, schedule, m);
    var (u, act) := schedule[m];
    var q := r[m];
    assert r[m + 1] == Step(q, schedule[m]);
    InPop(r, t, i, m);
    if u == t {
      PopMoves(q, t, act);
      if q.threads[t].PopTry? && r[m + 1].threads[t].Idle? {
        PopGivesUp(r, schedule, t, i, m);
      } else if r[m + 1].threads[t].Idle? {
        TraceInv(r, schedule, m + 1);
        PopEnds(r, t, i, m);
      } else {
        PopGoesOn(r, t, i, m);
      }
    } else {
      if u in q.threads {
        Grown(q, u, act);
        OthersStay(q, u, act, t);
      }
      PopWaits(r, t, i, m, u);
    }
  }

  lemma InPop<T>(r: seq<Queue<T>>, t: nat, i: nat, m: nat)
    requires i < m < |r| && PopUnderway(r, t, i, m)
    ensures t in r[m].threads && !r[m].threads[t].Idle?
  {
  }

  lemma PopGivesUp<T>(r: seq<Queue<T>>, schedule: seq<(nat, Act<T>)>, t: nat, i: nat, m: nat)
    requires Trace(r, schedule) && i < m < |schedule| && PopUnderway(r, t, i, m) && t in r[m + 1].threads
    requires r[m].threads[t].PopTry? && r[m + 1].threads[t].Idle? && PopMove(r[m], r[m + 1], t)
    ensures PopAnswer(r, t, i, m + 1)
  {
    hide Initial, Next, SlotInv, ThreadInv, TicketInv;
    var pos, seen := r[m].threads[t].pos, r[m].threads[t].seen;
    var k :| i < k < m && Reads(r[k], t, PopRead(pos), pos, seen);
    TraceInv(r, schedule, k);
    PopFindsEmpty(r[k], t);
    assert SawEmpty(r, t, k);
  }

  lemma PopEnds<T>(r: seq<Queue<T>>, t: nat, i: nat, m: nat)
    requires i < m < |r| - 1 && PopUnderway(r, t, i, m) && Counts(r[m]) && Inv(r[m + 1])
    requires t in r[m + 1].threads && PopMove(r[m], r[m + 1], t)
    requires r[m + 1].threads[t].Idle? && !r[m].threads[t].PopTry?
    ensures PopAnswer(r, t, i, m + 1)
  {
    var p := r[m].threads[t].pos;
    assert OnePop(r[i], r[m + 1], t, p);
    assert TicketInv(r[m + 1], p) && Delivered(r[m + 1], p);
  }

  lemma PopGoesOn<T>(r: seq<Queue<T>>, t: nat, i: nat, m: nat)
    requires i < m < |r| - 1 && PopUnderway(r, t, i, m) && Counts(r[m])
    requires t in r[m + 1].threads && PopMove(r[m], r[m + 1], t) && !r[m + 1].threads[t].Idle?
    ensures PopUnderway(r, t, i, m + 1)
  {
    var q, q' := r[m], r[m + 1];
    if q.threads[t].PopRead? && q'.threads[t].PopTry? {
      assert Reads(r[m], t, q.threads[t], q.threads[t].pos, q'.threads[t].seen);
    } else if q.threads[t].PopTry? && q'.threads[t].PopTake? {
      assert OnePop(r[i], q', t, q.threads[t].pos);
    }
  }

  lemma PopWaits<T>(r: seq<Queue<T>>, t: nat, i: nat, m: nat, u: nat)
    requires i < m < |r| - 1 && PopUnderway(r, t, i, m) && Counts(r[m])
    requires t in r[m + 1].threads && r[m + 1].threads[t] == r[m].threads[t]
    requires r[m + 1] == r[m] || (Grows(r[m], r[m + 1], u) && u != t)
    ensures !r[m + 1].threads[t].Idle? && PopUnderway(r, t, i, m + 1)
  {
    if r[m + 1] != r[m] {
      if NoPop(r[i], r[m], t) {
        NoPopLater(r[i], r[m], r[m + 1], u, t);
      }
      if r[m].threads[t].PopTake? || r[m].threads[t].PopRelease? {
        OnePopLater(r[i], r[m], r[m + 1], u, t, r[m].threads[t].pos);
      }
    }
  }

  lemma {:induction false} PopUntil<T>(r: seq<Queue<T>>, schedule: seq<(nat, Act<T>)>, t: nat, i: nat, j: nat, m: nat)
    requires Call(r, schedule, t, BeginPop, i, j) && i < m < j && PopUnderway(r, t, i, m)
    ensures PopAnswer(r, t, i, j)
    decreases j - m
  {
    hide PopUnderway, PopAnswer;
    PopProgress(r, schedule, t, i, m);
    if m + 1 < j {
      PopUntil(r, schedule, t, i, j, m + 1);
    }
  }

  /**
   Over every run: a pop that returns has won exactly one ticket and returned its value; or it has
   won none, and at some point of the pop nothing was queued or the next value not published.
   */
  lemma PopReturns<T>(r: seq<Queue<T>>, schedule: seq<(nat, Act<T>)>, t: nat, i: nat, j: nat)
    requires Call(r, schedule, t, BeginPop, i, j)
    ensures PopAnswer(r, t, i, j)
  {
    TraceInv(r, schedule, i);
    assert r[i + 1] == Step(r[i], schedule[i]);
    assert NoPop(r[i], r[i + 1], t);
    PopUntil(r, schedule, t, i, j, i + 1);
  }

  // ----- when nobody interferes

  function Alone<T>(q: Queue<T>, t: nat, act: Act<T>, n: nat): (r: Queue<T>)
    requires Shaped(q) && t in q.threads
    ensures Shaped(r) && t in r.threads
  {
    if n == 0 then Next(q, t, act) else Next(Alone(q, t, act, n - 1), t, Continue)
  }

  /** The slot of the next enqueue ticket has been used up a round before, or never. */
  predicate HasRoom<T>(q: Queue<T>) {
    q.enqueuePos < q.capacity || q.enqueuePos - q.capacity in q.returned
  }

  lemma RoomSeen<T>(q: Queue<T>)
    requires Inv(q)
    ensures SequenceAt(q, q.enqueuePos) == q.enqueuePos <==> HasRoom(q)
    ensures SequenceAt(q, q.enqueuePos) <= q.enqueuePos
  {
    var e, n := q.enqueuePos, q.capacity;
    if SequenceAt(q, e) >= e {
      NextSlotOpen(q);
    }
    if e >= n {
      ResidueStep(n, e - n);
      if e - n < q.dequeuePos {
        assert TicketInv(q, e - n);
      }
    } else {
      FirstRoundOpen(q);
    }
  }

  lemma FirstRoundOpen<T>(q: Queue<T>)
    requires Inv(q) && q.enqueuePos < q.capacity
    ensures SequenceAt(q, q.enqueuePos) == q.enqueuePos
  {
    var e, n := q.enqueuePos, q.capacity;
    DivUnique(n, 0, e);
    var s := q.buffer[e].sequence;
    assert SlotInv(q, e);
    if s > 0 {
      ModAtMost(s - 1, n);
    }
    ModAtMost(s, n);
    if s >= e {
      NextSlotOpen(q);
    }
  }

  /** Threads other than `t` are where they were, and `t` has returned. */
  ghost predicate Returns<T>(q: Queue<T>, r: Queue<T>, t: nat) {
    t in q.threads && r.threads == q.threads[t := Idle] && r.capacity == q.capacity
  }

  /** An uninterrupted push: it succeeds exactly if there is room, and otherwise changes nothing. */
  lemma PushAlone<T>(q: Queue<T>, t: nat, item: T)
    requires Inv(q) && t in q.threads && q.threads[t].Idle?
    ensures !HasRoom(q) ==> Alone(q, t, BeginPush(item), 3) == q
    ensures
      var r := Alone(q, t, BeginPush(item), 5);
      HasRoom(q) ==>
        && Returns(q, r, t) && r.pushed == q.pushed + [item] && r.producers == q.producers + [t]
        && r.enqueuePos == q.enqueuePos + 1 && r.dequeuePos == q.dequeuePos && r.returned == q.returned
        && r.buffer[q.enqueuePos % q.capacity] == Slot(q.enqueuePos + 1, Some(item))
        && (forall i :: 0 <= i < q.capacity && i != q.enqueuePos % q.capacity ==> r.buffer[i] == q.buffer[i])
  {
    RoomSeen(q);
    hide Inv, HasRoom, Alone, Next;
    PushStarts(q, t, item);
    var q2 := Alone(q, t, BeginPush(item), 2);
    if HasRoom(q) {
      PushWins(q2, t);
      More(q, t, BeginPush(item), 2);
      More(q, t, BeginPush(item), 3);
      More(q, t, BeginPush(item), 4);
      WithTwice(q, t, q2.threads[t], Idle);
    } else {
      More(q, t, BeginPush(item), 2);
      GiveUp(q2, t);
      WithTwice(q, t, q2.threads[t], Idle);
    }
  }

  lemma More<T>(q: Queue<T>, t: nat, act: Act<T>, n: nat)
    requires Shaped(q) && t in q.threads
    ensures Alone(q, t, act, n + 1) == Next(Alone(q, t, act, n), t, Continue)
  {
  }

  lemma WithTwice<T>(q: Queue<T>, t: nat, a: Pc<T>, b: Pc<T>)
    requires t in q.threads
    ensures With(With(q, t, a), t, b) == With(q, t, b)
    ensures q.threads[t] == b ==> With(q, t, b) == q
  {
    assert q.threads[t := a][t := b] == q.threads[t := b];
    assert q.threads[t] == b ==> q.threads[t := b] == q.threads;
  }

  lemma PushStarts<T>(q: Queue<T>, t: nat, item: T)
    requires Shaped(q) && t in q.threads && q.threads[t].Idle?
    ensures Alone(q, t, BeginPush(item), 2) == With(q, t, PushTry(item, q.enqueuePos, SequenceAt(q, q.enqueuePos)))
  {
    var load, read := PushLoad(item), PushRead(item, q.enqueuePos);
    var try := PushTry(item, q.enqueuePos, SequenceAt(q, q.enqueuePos));
    assert Alone(q, t, BeginPush(item), 0) == With(q, t, load);
    hide Alone;
    More(q, t, BeginPush(item), 0);
    assert Next(With(q, t, load), t, Continue) == With(With(q, t, load), t, read);
    WithTwice(q, t, load, read);
    More(q, t, BeginPush(item), 1);
    assert Next(With(q, t, read), t, Continue) == With(With(q, t, read), t, try);
    WithTwice(q, t, read, try);
  }

  lemma GiveUp<T>(q: Queue<T>, t: nat)
    requires Shaped(q) && t in q.threads
    requires (q.threads[t].PushTry? && q.threads[t].seen < q.threads[t].pos) ||
      (q.threads[t].PopTry? && q.threads[t].seen < q.threads[t].pos + 1)
    ensures Next(q, t, Continue) == With(q, t, Idle)
  {
  }

  /** From the read of the right sequence number to the end. */
  lemma PushWins<T>(q: Queue<T>, t: nat)
    requires Shaped(q) && t in q.threads && q.threads[t].PushTry?
    requires q.threads[t].seen == q.threads[t].pos == q.enqueuePos
    ensures
      var e, i, item := q.enqueuePos, q.enqueuePos % q.capacity, q.threads[t].item;
      Next(Next(Next(q, t, Continue), t, Continue), t, Continue) == With(q, t, Idle).(
        enqueuePos := e + 1, pushed := q.pushed + [item], producers := q.producers + [t],
        buffer := q.buffer[i := Slot(e + 1, Some(item))])
  {
    var e, i, item := q.enqueuePos, q.enqueuePos % q.capacity, q.threads[t].item;
    var q3 := Next(q, t, Continue);
    var won := q.(enqueuePos := e + 1, pushed := q.pushed + [item], producers := q.producers + [t]);
    assert q3 == With(won, t, PushStore(item, e));
    var stored := won.(buffer := q.buffer[i := q.buffer[i].(value := Some(item))]);
    WithTwice(stored, t, PushStore(item, e), PushPublish(item, e));
    var q4 := Next(q3, t, Continue);
    assert q4 == With(stored, t, PushPublish(item, e));
    var q5 := Next(q4, t, Continue);
    WithTwice(stored.(buffer := stored.buffer[i := Slot(e + 1, Some(item))]), t, PushPublish(item, e), Idle);
    assert stored.buffer[i := Slot(e + 1, Some(item))] == q.buffer[i := Slot(e + 1, Some(item))];
  }

  /** The next value has been published. */
  predicate HasNext<T>(q: Queue<T>)
    requires Shaped(q)
  {
    q.dequeuePos < q.enqueuePos && SequenceAt(q, q.dequeuePos) == q.dequeuePos + 1
  }

  /** That is: something is queued, and its producer is done. */
  lemma NextSeen<T>(q: Queue<T>)
    requires Inv(q)
    ensures HasNext(q) <==> q.dequeuePos < q.enqueuePos && !At(q, q.dequeuePos, InProducer)
    ensures SequenceAt(q, q.dequeuePos) == q.dequeuePos + 1 <==> HasNext(q)
    ensures SequenceAt(q, q.dequeuePos) <= q.dequeuePos + 1
    ensures HasNext(q) ==> q.buffer[q.dequeuePos % q.capacity].value == Some(q.pushed[q.dequeuePos])
  {
    var d := q.dequeuePos;
    if SequenceAt(q, d) >= d + 1 {
      NextSlotFull(q);
    }
    if d < q.enqueuePos {
      QueuedSlot(q, d);
      if q.producers[d] in q.threads && Pushing(q.threads[q.producers[d]], d) {
        ProducerSlot(q, q.producers[d]);
      }
    }
  }

  /** An uninterrupted pop: it returns the next value exactly if that is published, and otherwise changes nothing. */
  lemma PopAlone<T>(q: Queue<T>, t: nat)
    requires Inv(q) && t in q.threads && q.threads[t].Idle?
    ensures !HasNext(q) ==> Alone(q, t, BeginPop, 3) == q
    ensures
      var r := Alone(q, t, BeginPop, 5);
      HasNext(q) ==>
        && Returns(q, r, t) && r.returned == q.returned[q.dequeuePos := Some(q.pushed[q.dequeuePos])]
        && r.dequeuePos == q.dequeuePos + 1 && r.consumers == q.consumers + [t]
        && r.enqueuePos == q.enqueuePos && r.pushed == q.pushed
        && r.buffer[q.dequeuePos % q.capacity] == Slot(q.dequeuePos + q.capacity, None)
        && (forall i :: 0 <= i < q.capacity && i != q.dequeuePos % q.capacity ==> r.buffer[i] == q.buffer[i])
  {
    NextSeen(q);
    hide Inv, HasNext, Alone, Next;
    PopStarts(q, t);
    var q2 := Alone(q, t, BeginPop, 2);
    if HasNext(q) {
      PopWins(q2, t);
      More(q, t, BeginPop, 2);
      More(q, t, BeginPop, 3);
      More(q, t, BeginPop, 4);
      WithTwice(q, t, q2.threads[t], Idle);
    } else {
      More(q, t, BeginPop, 2);
      GiveUp(q2, t);
      WithTwice(q, t, q2.threads[t], Idle);
    }
  }

  lemma PopStarts<T>(q: Queue<T>, t: nat)
    requires Shaped(q) && t in q.threads && q.threads[t].Idle?
    ensures Alone(q, t, BeginPop, 2) == With(q, t, PopTry(q.dequeuePos, SequenceAt(q, q.dequeuePos)))
  {
    assert Alone(q, t, BeginPop, 0) == With(q, t, PopLoad);
    hide Alone, Next;
    More(q, t, BeginPop, 0);
    PopLoads(q, t);
    More(q, t, BeginPop, 1);
    PopReads(q, t, q.dequeuePos);
  }

  lemma PopLoads<T>(q: Queue<T>, t: nat)
    requires Shaped(q) && t in q.threads
    ensures Next(With(q, t, PopLoad), t, Continue) == With(q, t, PopRead(q.dequeuePos))
  {
    WithTwice(q, t, PopLoad, PopRead(q.dequeuePos));
  }

  lemma PopReads<T>(q: Queue<T>, t: nat, pos: nat)
    requires Shaped(q) && t in q.threads
    ensures Next(With(q, t, PopRead(pos)), t, Continue) == With(q, t, PopTry(pos, SequenceAt(q, pos)))
  {
    WithTwice(q, t, PopRead(pos), PopTry(pos, SequenceAt(q, pos)));
  }

  lemma PopWins<T>(q: Queue<T>, t: nat)
    requires Shaped(q) && t in q.threads && q.threads[t].PopTry?
    requires q.threads[t].pos == q.dequeuePos && q.threads[t].seen == q.dequeuePos + 1
    ensures
      var d, i := q.dequeuePos, q.dequeuePos % q.capacity;
      Next(Next(Next(q, t, Continue), t, Continue), t, Continue) == With(q, t, Idle).(
        dequeuePos := d + 1, consumers := q.consumers + [t], returned := q.returned[d := q.buffer[i].value],
        buffer := q.buffer[i := Slot(d + q.capacity, None)])
  {
    var d, i := q.dequeuePos, q.dequeuePos % q.capacity;
    var value := q.buffer[i].value;
    var won := q.(dequeuePos := d + 1, consumers := q.consumers + [t]);
    var q3 := Next(q, t, Continue);
    assert q3 == With(won, t, PopTake(d));
    var taken := won.(buffer := q.buffer[i := q.buffer[i].(value := None)]);
    WithTwice(taken, t, PopTake(d), PopRelease(d, value));
    var q4 := Next(q3, t, Continue);
    assert q4 == With(taken, t, PopRelease(d, value));
    var q5 := Next(q4, t, Continue);
    var free := Slot(d + q.capacity, None);
    WithTwice(taken.(buffer := taken.buffer[i := free], returned := q.returned[d := value]), t,
      PopRelease(d, value), Idle);
    assert taken.buffer[i := free] == q.buffer[i := free];
  }

  // ----- from wherever they are, calls return when left alone

  function Solo<T>(q: Queue<T>, t: nat, n: nat): (r: Queue<T>)
    requires Shaped(q) && t in q.threads
    ensures Shaped(r) && t in r.threads
    decreases n
  {
    if n == 0 then q else Solo(Next(q, t, Continue), t, n - 1)
  }

  /** How many steps the thread is at most away from returning, if nobody interferes. */
  function Rank<T>(q: Queue<T>, t: nat): nat
    requires Shaped(q) && t in q.threads
  {
    match q.threads[t]
    case Idle => 0
    case PushPublish(_, _) => 1
    case PushStore(_, _) => 2
    case PushTry(_, pos, seen) =>
      if seen < pos then 1 else if seen > pos then 6 else if pos == q.enqueuePos then 3 else 5
    case PushRead(_, pos) => if pos == q.enqueuePos then 4 else 7
    case PushLoad(_) => 5
    case PopRelease(_, _) => 1
    case PopTake(_) => 2
    case PopTry(pos, seen) =>
      if seen < pos + 1 then 1 else if seen > pos + 1 then 6 else if pos == q.dequeuePos then 3 else 5
    case PopRead(pos) => if pos == q.dequeuePos then 4 else 7
    case PopLoad => 5
  }

  lemma RankFalls<T>(q: Queue<T>, t: nat)
    requires Inv(q) && t in q.threads
    ensures var q' := Next(q, t, Continue); Rank(q', t) < Rank(q, t) || Rank(q, t) == Rank(q', t) == 0
  {
    RoomSeen(q);
    NextSeen(q);
    hide Inv, HasRoom, HasNext, At;
    match q.threads[t]
    case PushLoad(_) =>
    case PushRead(_, _) =>
    case PushTry(_, _, _) => TryFalls(q, t);
    case PopLoad =>
    case PopRead(_) =>
    case PopTry(_, _) => TryFalls(q, t);
    case _ =>
  }

  lemma TryFalls<T>(q: Queue<T>, t: nat)
    requires Shaped(q) && t in q.threads && (q.threads[t].PushTry? || q.threads[t].PopTry?)
    ensures Rank(Next(q, t, Continue), t) < Rank(q, t)
  {
  }

  /** The queue is obstruction-free: seven uninterrupted steps end any call, in whatever state the others stopped. */
  lemma {:induction false} SoloReturns<T>(q: Queue<T>, t: nat, n: nat)
    requires Inv(q) && t in q.threads && Rank(q, t) <= n
    ensures Solo(q, t, n).threads[t].Idle?
    decreases n
  {
    if n > 0 {
      RankFalls(q, t);
      NextKeeps(q, t, Continue);
      hide Inv, Next, Rank;
      SoloReturns(Next(q, t, Continue), t, n - 1);
    }
  }

  lemma SevenSteps<T>(q: Queue<T>, t: nat)
    requires Inv(q) && t in q.threads
    ensures Solo(q, t, 7).threads[t].Idle?
  {
    hide Inv, Solo;
    SoloReturns(q, t, 7);
  }
}
