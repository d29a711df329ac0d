/**
 The sleeping mutex of `lineup` together with the scheduler that parks and resumes its waiters.

 Dispatchers pop threads from the run queue of their core and run them. A step is one atomic
 access of a running thread, or one action of a dispatcher: popping a thread and taking its
 generator out of the map, handling a yield, or putting the generator back. `turn`, `listed` and
 `granted` record history: no step reads them. `overflows` counts pushes to a full waitlist, which
 panic and leave the thread where it is, and `selfLocks` panics of a thread that tries to enter a
 mutex it owns. `faults` counts the other panics of the source: a thread without a generator, an
 exit of a free mutex.
 */
module LineupMutex {
  import opened Counting

  datatype Option<+T> = None | Some(value: T)

  const WAITLIST_CAPACITY: nat := 64

  /** Where a thread is. */
  datatype Pc =
    | Outside
    | Trying                // try_enter or enter_nowrap: about to compare-exchange the counter
    | Queued                // enter: counted itself behind the holder
    | Listed                //   put itself in the waitlist
    | Parked                //   gave up its core
    | Acquired              // has the mutex, about to write the owner
    | Inside                // holds the mutex
    | Exiting               // exit: cleared the owner, about to decrement the counter
    | Releasing             //   somebody waits, about to pop the waitlist
    | Handing(next: nat)    //   popped a waiter, about to make it runnable

  /** What a dispatcher is doing. */
  datatype Seat = Vacant | Running(tid: nat) | Storing(tid: nat)

  /** Whose turn it is: the one owner, the one leaver about to choose an heir, or the chosen heir. */
  datatype Turn = Nobody | Owner(tid: nat) | Leaver(tid: nat) | Heir(tid: nat)

  datatype System = System(
    counter: nat,
    owner: Option<nat>,
    waitlist: seq<nat>,
    threads: map<nat, Pc>,
    affinity: map<nat, nat>,
    seats: map<nat, Seat>,
    cores: map<nat, nat>,
    runnable: map<nat, seq<nat>>,
    generators: set<nat>,
    turn: Turn,
    listed: seq<nat>,
    granted: seq<nat>,
    overflows: nat,
    selfLocks: nat,
    faults: nat)

  datatype Act =
    | Dispatch | Store                                   // of a dispatcher
    | Enter | TryEnter | Spin | Exit | Yield | Step      // of the thread it runs
    | PassTo(heir: nat)                                  // the holder lets another thread exit for it
    | Interrupt(tid: nat)                                // an interrupt makes its thread runnable

  /** Names and queues are known, and every thread lives on a core with a queue. */
  ghost predicate Shaped(s: System) {
    && s.affinity.Keys == s.threads.Keys
    && s.cores.Keys == s.seats.Keys
    && (forall t :: t in s.affinity ==> s.affinity[t] in s.runnable)
    && (forall d :: d in s.cores ==> s.cores[d] in s.runnable)
  }

  ghost predicate SameShape(s: System, r: System) {
    && r.affinity == s.affinity && r.cores == s.cores
    && r.threads.Keys == s.threads.Keys && r.seats.Keys == s.seats.Keys && r.runnable.Keys == s.runnable.Keys
  }

  // ----- steps

  function At(s: System, t: nat, pc: Pc): System {
    s.(threads := s.threads[t := pc])
  }

  function Fault(s: System): System {
    s.(faults := s.faults + 1)
  }

  function MarkRunnable(s: System, t: nat, core: nat): System
    requires core in s.runnable
  {
    s.(runnable := s.runnable[core := s.runnable[core] + [t]])
  }

  /** The compare-exchange of `try_enter` and `enter_nowrap`. */
  function TryAcquire(s: System, t: nat): System {
    if s.counter == 0 then At(s, t, Acquired).(counter := 1, turn := Owner(t)) else s
  }

  /** The thread `t` on dispatcher `d` takes its next step. */
  function Advance(s: System, d: nat, t: nat): (r: System)
    requires Shaped(s) && d in s.seats && t in s.threads
    ensures SameShape(s, r)
  {
    match s.threads[t]
    case Trying => TryAcquire(s, t)
    case Queued =>
      if |s.waitlist| < WAITLIST_CAPACITY
      then At(s, t, Listed).(waitlist := s.waitlist + [t], listed := s.listed + [t])
      else s.(overflows := s.overflows + 1)
    case Listed => At(s, t, Parked).(seats := s.seats[d := Storing(t)])
    case Acquired => At(s, t, Inside).(owner := Some(t))
    case Exiting =>
      if s.counter == 0 then Fault(s)
      else if s.counter == 1 then At(s, t, Outside).(counter := 0, turn := Nobody)
      else At(s, t, Releasing).(counter := s.counter - 1, turn := Leaver(t))
    case Releasing =>
      if s.waitlist == [] then s
      else At(s, t, Handing(s.waitlist[0])).(waitlist := s.waitlist[1..])
    case Handing(next) =>
      if next in s.affinity
      then MarkRunnable(At(s, t, Outside), next, s.affinity[next]).(turn := Heir(next), granted := s.granted + [next])
      else Fault(s)
    case _ => s
  }

  /** A call of the thread `t` on dispatcher `d`; only a holder exits or passes the mutex on. */
  function Call(s: System, d: nat, t: nat, act: Act): (r: System)
    requires Shaped(s) && d in s.seats && t in s.threads
    ensures SameShape(s, r)
  {
    var pc := s.threads[t];
    match act
    case Enter =>
      if !pc.Outside? then s
      else if s.counter == 0 then At(s, t, Acquired).(counter := 1, turn := Owner(t))
      else At(s, t, Queued).(counter := s.counter + 1)
    case TryEnter =>
      if !pc.Outside? then s
      else if s.owner == Some(t) then s.(selfLocks := s.selfLocks + 1)
      else if s.counter != 0 then s
      else At(s, t, Trying)
    case Spin => if pc.Outside? then At(s, t, Trying) else s
    case Exit => if pc.Inside? then At(s, t, Exiting).(owner := None) else s
    case Yield =>
      if pc.Outside? || pc.Inside?
      then MarkRunnable(s, t, s.affinity[t]).(seats := s.seats[d := Storing(t)])
      else s
    case PassTo(heir) =>
      if pc.Inside? && heir in s.threads && s.threads[heir].Outside?
      then At(At(s, t, Outside), heir, Inside).(turn := Owner(heir))
      else s
    case Step => Advance(s, d, t)
    case _ => s
  }

  /** Pop the next thread and take its generator; a parked thread returns into `enter`. */
  function Start(s: System, d: nat): (r: System)
    requires Shaped(s) && d in s.seats
    ensures SameShape(s, r)
  {
    var core := s.cores[d];
    if s.runnable[core] == [] then s
    else
      var t := s.runnable[core][0];
      var popped := s.(runnable := s.runnable[core := s.runnable[core][1..]]);
      if t !in s.generators || t !in s.threads then Fault(popped)
      else
        var run := popped.(generators := s.generators - {t}, seats := s.seats[d := Running(t)]);
        if s.threads[t].Parked? then At(run, t, Acquired).(turn := Owner(t)) else run
  }

  function Next(s: System, d: nat, act: Act): (r: System)
    requires Shaped(s) && d in s.seats
    ensures SameShape(s, r)
  {
    match s.seats[d]
    case Vacant =>
      (match act
       case Dispatch => Start(s, d)
       case Interrupt(t) => if t in s.threads then MarkRunnable(s, t, s.cores[d]) else s
       case _ => s)
    case Running(t) => if t in s.threads then Call(s, d, t, act) else s
    case Storing(t) => if act.Store? then s.(generators := s.generators + {t}, seats := s.seats[d := Vacant]) else s
  }

  /** Any interleaving of dispatchers and the threads they run. */
  function Exec(s: System, schedule: seq<(nat, Act)>): (r: System)
    requires Shaped(s)
    ensures SameShape(s, r)
    decreases |schedule|
  {
    if schedule == [] then s
    else
      var (d, act) := schedule[0];
      Exec(if d in s.seats then Next(s, d, act) else s, schedule[1..])
  }

  // ----- the invariant: scheduling

  ghost predicate InQueue(s: System, t: nat) {
    t in s.affinity && s.affinity[t] in s.runnable && t in s.runnable[s.affinity[t]]
  }

  /** A run queue names every thread at most once, and only threads of its core. */
  ghost predicate QueueOk(s: System, core: nat)
    requires core in s.runnable
  {
    var q := s.runnable[core];
    && (forall i :: 0 <= i < |q| ==> q[i] in s.affinity && s.affinity[q[i]] == core)
    && (forall i, j :: 0 <= i < j < |q| ==> q[i] != q[j])
  }

  /** A thread that is not running waits in its run queue, unless it is parked and not yet chosen. */
  ghost predicate RestOk(s: System, t: nat) {
    && t in s.threads
    && (s.threads[t].Outside? || s.threads[t].Inside? || s.threads[t].Parked?)
    && (InQueue(s, t) <==> !s.threads[t].Parked? || s.turn == Heir(t))
  }

  /** A running thread is in its run queue only if it was chosen before it got to park. */
  ghost predicate RunOk(s: System, t: nat) {
    t in s.threads && !s.threads[t].Parked? && (InQueue(s, t) <==> s.turn == Heir(t))
  }

  ghost predicate SeatOk(s: System, d: nat)
    requires d in s.seats
  {
    match s.seats[d]
    case Vacant => true
    case Running(t) =>
      t in s.affinity && t !in s.generators && d in s.cores && s.affinity[t] == s.cores[d] && RunOk(s, t)
    case Storing(t) =>
      t in s.affinity && t !in s.generators && d in s.cores && s.affinity[t] == s.cores[d] && RestOk(s, t)
  }

  ghost predicate OnSeat(s: System, d: nat, t: nat) {
    d in s.seats && (s.seats[d] == Running(t) || s.seats[d] == Storing(t))
  }

  /** A generator is in the map, or with the dispatcher that runs the thread. */
  ghost predicate GeneratorOk(s: System, t: nat) {
    if t in s.generators then RestOk(s, t) else exists d :: OnSeat(s, d, t)
  }

  /** One dispatcher for each core that has a thread. */
  ghost predicate OneDispatcher(cores: map<nat, nat>, affinity: map<nat, nat>) {
    forall d, e, t :: d in cores && e in cores && t in affinity && cores[d] == cores[e] == affinity[t] ==> d == e
  }

  ghost predicate SchedInv(s: System) {
    && Shaped(s) && OneDispatcher(s.cores, s.affinity)
    && (forall c :: c in s.runnable ==> QueueOk(s, c))
    && (forall d :: d in s.seats ==> SeatOk(s, d))
    && (forall t :: t in s.threads ==> GeneratorOk(s, t))
  }

  // ----- the invariant: the mutex

  predicate Owns(pc: Pc) {
    pc.Acquired? || pc.Inside? || pc.Exiting?
  }

  predicate Leaves(pc: Pc) {
    pc.Releasing? || pc.Handing?
  }

  predicate Waits(pc: Pc) {
    pc.Listed? || pc.Parked?
  }

  predicate Counted(pc: Pc) {
    pc.Queued? || Waits(pc) || Owns(pc)
  }

  /** The leaver has taken `t` off the waitlist. */
  ghost predicate Chosen(s: System, t: nat) {
    s.turn.Leaver? && s.turn.tid in s.threads && s.threads[s.turn.tid] == Handing(t)
  }

  ghost predicate TurnOk(s: System, t: nat)
    requires t in s.threads
  {
    var pc := s.threads[t];
    && (Owns(pc) <==> s.turn == Owner(t))
    && (Leaves(pc) <==> s.turn == Leaver(t))
    && (s.turn == Heir(t) || Chosen(s, t) ==> Waits(pc))
    && (t in s.waitlist <==> Waits(pc) && s.turn != Heir(t) && !Chosen(s, t))
    && (pc.Handing? ==> pc.next in s.threads)
  }

  /** Waiters are served in the order in which they were listed. */
  ghost predicate Fifo(s: System) {
    if s.turn.Leaver? && s.turn.tid in s.threads && s.threads[s.turn.tid].Handing?
    then s.listed == s.granted + [s.threads[s.turn.tid].next] + s.waitlist
    else s.listed == s.granted + s.waitlist
  }

  ghost predicate Distinct(q: seq<nat>) {
    forall i, j :: 0 <= i < j < |q| ==> q[i] != q[j]
  }

  ghost predicate MutexInv(s: System) {
    && (s.turn != Nobody ==> s.turn.tid in s.threads)
    && (forall t :: t in s.threads ==> TurnOk(s, t))
    && Distinct(s.waitlist) && (forall t :: t in s.waitlist ==> t in s.threads)
    && s.counter == |Where(s.threads, Counted)|
    && (s.counter == 0 <==> s.turn == Nobody)
    && (s.owner.Some? ==> s.turn.Owner? && s.threads[s.turn.tid].Inside?)
    && Fifo(s)
  }

  /** The waitlist overflows only with more threads than it can hold beside the holder. */
  ghost predicate Inv(s: System) {
    SchedInv(s) && MutexInv(s) && s.faults == 0 && (|s.threads| <= WAITLIST_CAPACITY + 1 ==> s.overflows == 0)
  }

  // ----- steps keep the schedule consistent

  lemma SoleSeat(s: System, d: nat, e: nat, t: nat)
    requires SchedInv(s) && OnSeat(s, d, t) && OnSeat(s, e, t)
    ensures d == e
  {
    hide QueueOk, RunOk, RestOk, GeneratorOk;
    assert SeatOk(s, d) && SeatOk(s, e);
  }

  /** A step by dispatcher `d` that concerns thread `t` and leaves every other thread as well placed as before. */
  lemma SchedStep(s: System, d: nat, t: nat, s': System)
    requires SchedInv(s) && d in s.seats && SameShape(s, s')
    requires s.seats[d].Vacant? || OnSeat(s, d, t)
    requires s'.seats[d].Vacant? || OnSeat(s', d, t)
    requires forall e :: e in s.seats && e != d ==> s'.seats[e] == s.seats[e] && !OnSeat(s, e, t)
    requires forall c :: c in s'.runnable ==> QueueOk(s', c)
    requires forall u :: u in s.threads && u != t ==>
      (u in s'.generators <==> u in s.generators) && (RunOk(s, u) ==> RunOk(s', u)) && (RestOk(s, u) ==> RestOk(s', u))
    requires SeatOk(s', d) && GeneratorOk(s', t)
    ensures SchedInv(s')
  {
    hide OneDispatcher;
    hide QueueOk, RunOk, RestOk;
    forall e | e in s'.seats ensures SeatOk(s', e) {
      assert SeatOk(s, e);
    }
    hide SeatOk;
    forall u | u in s'.threads ensures GeneratorOk(s', u) {
      GeneratorKept(s, d, t, s', u);
    }
  }

  lemma GeneratorKept(s: System, d: nat, t: nat, s': System, u: nat)
    requires GeneratorOk(s, u) && d in s.seats && s'.seats.Keys == s.seats.Keys && GeneratorOk(s', t)
    requires s.seats[d].Vacant? || OnSeat(s, d, t)
    requires forall e :: e in s.seats && e != d ==> s'.seats[e] == s.seats[e]
    requires u != t ==> (u in s'.generators <==> u in s.generators) && (RestOk(s, u) ==> RestOk(s', u))
    ensures GeneratorOk(s', u)
  {
    hide RestOk;
    if u != t && u !in s.generators {
      var e :| OnSeat(s, e, u);
      assert OnSeat(s', e, u);
    }
  }

  /** Threads whose place, queueing and inheritance are untouched are as well placed as before. */
  lemma PlacesKept(s: System, s': System, t: nat)
    requires s'.threads.Keys == s.threads.Keys
    requires forall u :: u in s.threads && u != t ==> s'.threads[u] == s.threads[u]
    requires forall u: nat :: u != t ==>
      (InQueue(s', u) <==> InQueue(s, u)) && (s'.turn == Heir(u) <==> s.turn == Heir(u))
    ensures forall u :: u in s.threads && u != t ==> (RunOk(s, u) ==> RunOk(s', u)) && (RestOk(s, u) ==> RestOk(s', u))
  {
    hide InQueue;
  }

  lemma SeatsApart(s: System, d: nat, t: nat)
    requires SchedInv(s) && OnSeat(s, d, t)
    ensures forall e :: e in s.seats && e != d ==> !OnSeat(s, e, t)
  {
    hide SchedInv;
    forall e | e in s.seats && e != d ensures !OnSeat(s, e, t) {
      if OnSeat(s, e, t) {
        SoleSeat(s, d, e, t);
      }
    }
  }

  /** The queues are as before. */
  lemma QueuesKept(s: System, s': System)
    requires SchedInv(s) && s'.affinity == s.affinity && s'.runnable == s.runnable
    ensures forall c :: c in s'.runnable ==> QueueOk(s', c)
    ensures forall u: nat :: InQueue(s', u) == InQueue(s, u)
  {
    hide OneDispatcher;
    forall c | c in s'.runnable ensures QueueOk(s', c) {
      assert QueueOk(s, c);
    }
  }

  /** A running thread changes its place without parking, and nobody becomes or stops being the heir. */
  lemma SchedMove(s: System, d: nat, t: nat, s': System)
    requires SchedInv(s) && d in s.seats && s.seats[d] == Running(t) && t in s.threads
    requires SameShape(s, s') && !s'.threads[t].Parked?
    requires forall u :: u in s.threads && u != t ==> s'.threads[u] == s.threads[u]
    requires s'.seats == s.seats && s'.runnable == s.runnable && s'.generators == s.generators
    requires forall u: nat :: s'.turn == Heir(u) <==> s.turn == Heir(u)
    ensures SchedInv(s')
  {
    hide OneDispatcher;
    QueuesKept(s, s');
    hide InQueue, QueueOk;
    PlacesKept(s, s', t);
    assert SeatOk(s, d);
    SeatsApart(s, d, t);
    assert OnSeat(s', d, t);
    SchedStep(s, d, t, s');
  }

  /** Appending a thread that is not queued to the queue of its core. */
  lemma Appended(s: System, s': System, t: nat)
    requires Shaped(s) && (forall c :: c in s.runnable ==> QueueOk(s, c)) && t in s.affinity && !InQueue(s, t)
    requires s'.affinity == s.affinity
    requires s'.runnable == s.runnable[s.affinity[t] := s.runnable[s.affinity[t]] + [t]]
    ensures forall c :: c in s'.runnable ==> QueueOk(s', c)
    ensures forall u: nat :: InQueue(s', u) <==> InQueue(s, u) || u == t
  {
    forall c | c in s'.runnable ensures QueueOk(s', c) {
      assert QueueOk(s, c);
    }
    forall u: nat ensures InQueue(s', u) <==> InQueue(s, u) || u == t {
      if u in s.affinity {
        assert s'.runnable[s.affinity[u]] ==
          s.runnable[s.affinity[u]] + if s.affinity[u] == s.affinity[t] then [t] else [];
      }
    }
  }

  /** The seat of the running thread `t` becomes `Storing`, whether it parks or yields. */
  lemma SchedRest(s: System, d: nat, t: nat, s': System)
    requires SchedInv(s) && d in s.seats && s.seats[d] == Running(t) && t in s.threads
    requires SameShape(s, s') && s'.generators == s.generators && s'.turn == s.turn
    requires s'.seats == s.seats[d := Storing(t)]
    requires forall u :: u in s.threads && u != t ==> s'.threads[u] == s.threads[u]
    requires forall c :: c in s'.runnable ==> QueueOk(s', c)
    requires forall u: nat :: u != t ==> (InQueue(s', u) <==> InQueue(s, u))
    requires RestOk(s', t)
    ensures SchedInv(s')
  {
    hide OneDispatcher;
    hide InQueue, QueueOk;
    PlacesKept(s, s', t);
    assert SeatOk(s, d);
    SeatsApart(s, d, t);
    assert OnSeat(s', d, t);
    SchedStep(s, d, t, s');
  }

  lemma SchedPark(s: System, d: nat, t: nat)
    requires SchedInv(s) && d in s.seats && s.seats[d] == Running(t) && t in s.threads && s.threads[t].Listed?
    ensures SchedInv(Advance(s, d, t))
  {
    hide OneDispatcher;
    var s' := Advance(s, d, t);
    assert SeatOk(s, d);
    QueuesKept(s, s');
    hide InQueue, QueueOk;
    SchedRest(s, d, t, s');
  }

  lemma SchedYield(s: System, d: nat, t: nat)
    requires SchedInv(s) && d in s.seats && s.seats[d] == Running(t) && t in s.threads
    requires (s.threads[t].Outside? || s.threads[t].Inside?) && s.turn != Heir(t)
    ensures SchedInv(Call(s, d, t, Yield))
  {
    hide OneDispatcher;
    var s' := Call(s, d, t, Yield);
    assert SeatOk(s, d);
    Appended(s, s', t);
    hide InQueue, QueueOk;
    SchedRest(s, d, t, s');
  }

  lemma NotQueued(s: System, t: nat)
    requires SchedInv(s) && t in s.threads && Waits(s.threads[t]) && s.turn != Heir(t)
    ensures !InQueue(s, t)
  {
    hide OneDispatcher;
    hide QueueOk, InQueue;
    assert GeneratorOk(s, t);
    if t !in s.generators {
      var e :| OnSeat(s, e, t);
      assert SeatOk(s, e);
    }
  }

  /** The heir enters its run queue, whether it has parked by now or not. */
  lemma SchedHand(s: System, d: nat, t: nat, next: nat, s': System)
    requires SchedInv(s) && d in s.seats && s.seats[d] == Running(t) && t in s.threads
    requires next in s.threads && Waits(s.threads[next]) && t != next && !s.turn.Heir? && s'.turn == Heir(next)
    requires s'.threads == s.threads[t := Outside] && s'.affinity == s.affinity && s'.cores == s.cores
    requires s'.generators == s.generators && s'.seats == s.seats
    requires s'.runnable == s.runnable[s.affinity[next] := s.runnable[s.affinity[next]] + [next]]
    ensures SchedInv(s')
  {
    hide OneDispatcher;
    NotQueued(s, next);
    Appended(s, s', next);
    hide InQueue, QueueOk;
    assert SeatOk(s, d);
    SeatsApart(s, d, t);
    assert OnSeat(s', d, t);
    SchedStep(s, d, t, s');
  }

  /** The generator is back in the map before the dispatcher pops again. */
  lemma SchedStore(s: System, d: nat)
    requires SchedInv(s) && d in s.seats && s.seats[d].Storing?
    ensures SchedInv(Next(s, d, Store))
  {
    hide OneDispatcher;
    var s' := Next(s, d, Store);
    QueuesKept(s, s');
    hide InQueue, QueueOk;
    PlacesKept(s, s', s.seats[d].tid);
    assert SeatOk(s, d);
    SeatsApart(s, d, s.seats[d].tid);
    SchedStep(s, d, s.seats[d].tid, s');
  }

  /** A popped thread always finds its generator: only this dispatcher runs the threads of its core. */
  lemma PoppedIsStored(s: System, d: nat)
    requires SchedInv(s) && d in s.seats && s.seats[d].Vacant? && s.runnable[s.cores[d]] != []
    ensures var t := s.runnable[s.cores[d]][0];
      t in s.threads && t in s.generators && RestOk(s, t) && (s.threads[t].Parked? ==> s.turn == Heir(t))
  {
    assert QueueOk(s, s.cores[d]);
    var t := s.runnable[s.cores[d]][0];
    assert InQueue(s, t);
    hide InQueue;
    forall e | e in s.seats ensures !OnSeat(s, e, t) {
      assert SeatOk(s, e);
    }
    assert GeneratorOk(s, t);
  }

  /** Popping the front of a queue without repetitions. */
  lemma Popped(s: System, s': System, core: nat)
    requires Shaped(s) && (forall c :: c in s.runnable ==> QueueOk(s, c)) && core in s.runnable &&
      s.runnable[core] != []
    requires s'.affinity == s.affinity
    requires s'.runnable == s.runnable[core := s.runnable[core][1..]]
    ensures forall c :: c in s'.runnable ==> QueueOk(s', c)
    ensures forall u: nat :: InQueue(s', u) <==> InQueue(s, u) && u != s.runnable[core][0]
  {
    var q := s.runnable[core];
    forall c | c in s'.runnable ensures QueueOk(s', c) {
      assert QueueOk(s, c);
    }
    assert QueueOk(s, core);
    forall u: nat ensures InQueue(s', u) <==> InQueue(s, u) && u != q[0] {
      assert u in q[1..] <==> u in q && u != q[0];
    }
  }

  lemma SchedStart(s: System, d: nat, t: nat, s': System)
    requires SchedInv(s) && d in s.seats && s.seats[d].Vacant?
    requires s.runnable[s.cores[d]] != [] && t == s.runnable[s.cores[d]][0] && t in s.threads
    requires SameShape(s, s') && s'.runnable == s.runnable[s.cores[d] := s.runnable[s.cores[d]][1..]]
    requires s'.seats == s.seats[d := Running(t)] && s'.generators == s.generators - {t}
    requires forall u :: u in s.threads && u != t ==> s'.threads[u] == s.threads[u]
    requires !s'.threads[t].Parked?
    requires forall u: nat :: s'.turn == Heir(u) <==> s.turn == Heir(u) && u != t
    ensures SchedInv(s')
  {
    PoppedIsStored(s, d);
    assert s.affinity[t] == s.cores[d] by {
      assert QueueOk(s, s.cores[d]);
    }
    Popped(s, s', s.cores[d]);
    hide InQueue, QueueOk;
    PlacesKept(s, s', t);
    forall e | e in s.seats && e != d ensures !OnSeat(s, e, t) {
      assert SeatOk(s, e);
    }
    assert OnSeat(s', d, t);
    SchedStep(s, d, t, s');
  }

  /** Passing the mutex on changes two threads between places where both may run or rest. */
  lemma SchedPass(s: System, d: nat, t: nat, heir: nat, s': System)
    requires SchedInv(s) && d in s.seats && s.seats[d] == Running(t) && t in s.threads && s.threads[t].Inside?
    requires heir in s.threads && s.threads[heir].Outside? && !s.turn.Heir? && !s'.turn.Heir?
    requires s' == At(At(s, t, Outside), heir, Inside).(turn := s'.turn)
    ensures SchedInv(s')
  {
    hide OneDispatcher;
    QueuesKept(s, s');
    hide InQueue, QueueOk;
    assert SeatOk(s, d);
    SeatsApart(s, d, t);
    assert OnSeat(s', d, t);
    SchedStep(s, d, t, s');
  }

  // ----- steps keep the mutex consistent

  /** A sequence without repetitions is no longer than a set that holds its elements. */
  lemma {:induction false} DistinctFits(q: seq<nat>, all: set<nat>)
    requires Distinct(q) && forall t :: t in q ==> t in all
    ensures |q| <= |all|
    decreases |q|
  {
    if q != [] {
      var rest := q[1..];
      forall t | t in rest ensures t in all - {q[0]} {
      }
      assert q[0] in all;
      DistinctFits(rest, all - {q[0]});
    }
  }

  /** Everything but the count, after a step of thread `t`. */
  lemma MutexStep(s: System, t: nat, s': System)
    requires MutexInv(s) && t in s.threads && t in s'.threads && s'.threads == s.threads[t := s'.threads[t]]
    requires s'.counter + (if Counted(s.threads[t]) then 1 else 0) ==
      s.counter + (if Counted(s'.threads[t]) then 1 else 0)
    requires s'.turn != Nobody ==> s'.turn.tid in s.threads
    requires s'.counter == 0 <==> s'.turn == Nobody
    requires forall u :: u in s.threads ==> TurnOk(s', u)
    requires Distinct(s'.waitlist) && forall u :: u in s'.waitlist ==> u in s.threads
    requires s'.owner.Some? ==> s'.turn.Owner? && s'.threads[s'.turn.tid].Inside?
    requires Fifo(s')
    ensures MutexInv(s')
  {
    hide TurnOk, Where, Distinct, Fifo;
    Recount(s.threads, Counted, t, s'.threads[t]);
  }

  /** The thread moves between places that mean the same to the mutex. */
  lemma MutexMove(s: System, t: nat, pc: Pc, owner: Option<nat>)
    requires MutexInv(s) && t in s.threads
    requires !Leaves(s.threads[t]) && !Leaves(pc) && Waits(s.threads[t]) == Waits(pc) && Owns(s.threads[t]) == Owns(pc)
    requires s.threads[t].Queued? == pc.Queued?
    requires owner == s.owner || Owns(pc)
    requires owner.Some? && Owns(pc) ==> pc.Inside?
    ensures MutexInv(At(s, t, pc).(owner := owner))
  {
    hide Where, Distinct;
    var s' := At(s, t, pc).(owner := owner);
    assert TurnOk(s, t);
    forall u | u in s.threads ensures TurnOk(s', u) {
      assert TurnOk(s, u);
    }
    MutexStep(s, t, s');
  }

  /** A free mutex: nobody is counted, and nobody waits. */
  lemma FreeIsFree(s: System)
    requires MutexInv(s) && s.counter == 0
    ensures s.turn == Nobody && s.waitlist == []
    ensures forall u :: u in s.threads ==> !Counted(s.threads[u]) && !Leaves(s.threads[u])
  {
    assert |s.waitlist| > 0 ==> s.waitlist[0] in s.waitlist;
    NoneThere(s.threads, Counted);
    forall u | u in s.threads ensures u !in s.waitlist && !Leaves(s.threads[u]) {
      assert TurnOk(s, u);
    }
  }

  lemma MutexAcquire(s: System, t: nat)
    requires MutexInv(s) && t in s.threads && s.counter == 0
    ensures MutexInv(At(s, t, Acquired).(counter := 1, turn := Owner(t)))
  {
    hide Where, Distinct;
    var s' := At(s, t, Acquired).(counter := 1, turn := Owner(t));
    FreeIsFree(s);
    MutexStep(s, t, s');
  }

  lemma MutexQueue(s: System, t: nat)
    requires MutexInv(s) && t in s.threads && s.counter > 0 && s.threads[t].Outside?
    ensures MutexInv(At(s, t, Queued).(counter := s.counter + 1))
  {
    hide Where, Distinct;
    var s' := At(s, t, Queued).(counter := s.counter + 1);
    assert TurnOk(s, t);
    forall u | u in s.threads ensures TurnOk(s', u) {
      assert TurnOk(s, u);
    }
    MutexStep(s, t, s');
  }

  lemma MutexList(s: System, t: nat)
    requires MutexInv(s) && t in s.threads && s.threads[t].Queued?
    ensures MutexInv(At(s, t, Listed).(waitlist := s.waitlist + [t], listed := s.listed + [t]))
  {
    hide Where;
    var s' := At(s, t, Listed).(waitlist := s.waitlist + [t], listed := s.listed + [t]);
    assert TurnOk(s, t);
    forall u | u in s.threads ensures TurnOk(s', u) {
      assert TurnOk(s, u);
      assert u in s'.waitlist <==> u in s.waitlist || u == t;
    }
    MutexStep(s, t, s');
  }

  /** The last one leaves. */
  lemma MutexFree(s: System, t: nat)
    requires MutexInv(s) && t in s.threads && s.threads[t].Exiting? && s.counter == 1
    ensures MutexInv(At(s, t, Outside).(counter := 0, turn := Nobody))
  {
    hide Where, Distinct;
    var s' := At(s, t, Outside).(counter := 0, turn := Nobody);
    assert TurnOk(s, t);
    OneThere(s.threads, Counted, t);
    forall u | u in s.threads ensures TurnOk(s', u) {
      assert TurnOk(s, u);
    }
    MutexStep(s, t, s');
  }

  /** The holder leaves while others are counted. */
  lemma MutexRelease(s: System, t: nat)
    requires MutexInv(s) && t in s.threads && s.threads[t].Exiting? && s.counter > 1
    ensures MutexInv(At(s, t, Releasing).(counter := s.counter - 1, turn := Leaver(t)))
  {
    hide Where, Distinct;
    var s' := At(s, t, Releasing).(counter := s.counter - 1, turn := Leaver(t));
    assert TurnOk(s, t);
    forall u | u in s.threads ensures TurnOk(s', u) {
      assert TurnOk(s, u);
    }
    MutexStep(s, t, s');
  }

  lemma MutexPop(s: System, t: nat)
    requires MutexInv(s) && t in s.threads && s.threads[t].Releasing? && s.waitlist != []
    ensures MutexInv(At(s, t, Handing(s.waitlist[0])).(waitlist := s.waitlist[1..]))
  {
    hide Where;
    var next, rest := s.waitlist[0], s.waitlist[1..];
    var s' := At(s, t, Handing(next)).(waitlist := rest);
    assert TurnOk(s, t) && next in s.waitlist && next in s.threads;
    assert s.waitlist == [next] + rest;
    forall u | u in s.threads ensures TurnOk(s', u) {
      assert TurnOk(s, u) && TurnOk(s, next);
      assert u in rest <==> u in s.waitlist && u != next;
    }
    MutexStep(s, t, s');
  }

  lemma MutexHand(s: System, t: nat, next: nat)
    requires MutexInv(s) && t in s.threads && s.threads[t] == Handing(next)
    ensures next in s.threads && Waits(s.threads[next]) && next != t && s.turn == Leaver(t)
    ensures MutexInv(At(s, t, Outside).(turn := Heir(next), granted := s.granted + [next]))
  {
    hide Where, Distinct;
    var s' := At(s, t, Outside).(turn := Heir(next), granted := s.granted + [next]);
    assert TurnOk(s, t) && TurnOk(s, next);
    forall u | u in s.threads ensures TurnOk(s', u) {
      assert TurnOk(s, u);
    }
    MutexStep(s, t, s');
  }

  /** The heir wakes up and owns the mutex. */
  lemma MutexInherit(s: System, t: nat)
    requires MutexInv(s) && t in s.threads && s.turn == Heir(t)
    ensures MutexInv(At(s, t, Acquired).(turn := Owner(t)))
  {
    hide Where, Distinct;
    var s' := At(s, t, Acquired).(turn := Owner(t));
    assert TurnOk(s, t);
    forall u | u in s.threads ensures TurnOk(s', u) {
      assert TurnOk(s, u);
    }
    MutexStep(s, t, s');
  }

  lemma MutexPass(s: System, t: nat, heir: nat)
    requires MutexInv(s) && t in s.threads && s.threads[t].Inside? && heir in s.threads && s.threads[heir].Outside?
    ensures MutexInv(At(At(s, t, Outside), heir, Inside).(turn := Owner(heir)))
  {
    hide Where, Distinct;
    var mid := At(s, t, Outside);
    var s' := At(mid, heir, Inside).(turn := Owner(heir));
    Recount(s.threads, Counted, t, Outside);
    Recount(mid.threads, Counted, heir, Inside);
    assert TurnOk(s, t) && TurnOk(s, heir);
    forall u | u in s.threads ensures TurnOk(s', u) {
      assert TurnOk(s, u);
    }
  }

  // ----- every step keeps the invariant

  /** The holder and the thread about to list itself leave room in the waitlist. */
  lemma WaitlistHasRoom(s: System, t: nat)
    requires MutexInv(s) && t in s.threads && s.threads[t].Queued?
    ensures |s.waitlist| + 2 <= |s.threads|
  {
    OneThere(s.threads, Counted, t);
    assert TurnOk(s, t) && TurnOk(s, s.turn.tid);
    var others := s.threads.Keys - {t, s.turn.tid};
    assert |others| + 2 == |s.threads.Keys| by {
      assert {t, s.turn.tid} <= s.threads.Keys && |{t, s.turn.tid}| == 2;
    }
    forall u | u in s.waitlist ensures u in others {
      assert TurnOk(s, u);
    }
    DistinctFits(s.waitlist, others);
  }

  /** What the place of a thread says about the mutex. */
  lemma TurnFacts(s: System, t: nat)
    requires MutexInv(s) && t in s.threads
    ensures s.counter == 0 ==> s.turn == Nobody
    ensures Owns(s.threads[t]) ==> s.turn == Owner(t) && s.counter > 0
    ensures s.turn == Heir(t) ==> Waits(s.threads[t])
  {
    hide Where;
    assert TurnOk(s, t);
  }

  lemma AdvanceKeeps(s: System, d: nat, t: nat)
    requires Inv(s) && Shaped(s) && d in s.seats && s.seats[d] == Running(t) && t in s.threads
    ensures Inv(Advance(s, d, t))
  {
    hide SchedInv, MutexInv, TurnOk, Shaped;
    var s' := Advance(s, d, t);
    TurnFacts(s, t);
    match s.threads[t]
    case Trying => if s.counter == 0 { MutexAcquire(s, t); SchedMove(s, d, t, s'); }
    case Queued => ListingKeeps(s, d, t);
    case Listed => MutexMove(s, t, Parked, s.owner); MutexSame(At(s, t, Parked), s'); SchedPark(s, d, t);
    case Acquired => MutexMove(s, t, Inside, Some(t)); SchedMove(s, d, t, s');
    case Exiting =>
      if s.counter == 1 { MutexFree(s, t); } else { MutexRelease(s, t); }
      SchedMove(s, d, t, s');
    case Releasing => if s.waitlist != [] { MutexPop(s, t); SchedMove(s, d, t, s'); }
    case Handing(next) => HandingKeeps(s, d, t, next);
    case _ =>
  }

  lemma ListingKeeps(s: System, d: nat, t: nat)
    requires Inv(s) && Shaped(s) && d in s.seats && s.seats[d] == Running(t) && t in s.threads && s.threads[t].Queued?
    ensures Inv(Advance(s, d, t))
  {
    hide SchedInv, MutexInv, TurnOk;
    var s' := Advance(s, d, t);
    WaitlistHasRoom(s, t);
    if |s.waitlist| < WAITLIST_CAPACITY {
      MutexList(s, t);
    } else {
      MutexSame(s, s');
    }
    SchedMove(s, d, t, s');
  }

  lemma HandingKeeps(s: System, d: nat, t: nat, next: nat)
    requires Inv(s) && Shaped(s) && d in s.seats && s.seats[d] == Running(t) && t in s.threads &&
      s.threads[t] == Handing(next)
    ensures Inv(Advance(s, d, t))
  {
    hide SchedInv, MutexInv, TurnOk;
    var s' := Advance(s, d, t);
    MutexHand(s, t, next);
    MutexSame(At(s, t, Outside).(turn := Heir(next), granted := s.granted + [next]), s');
    SchedHand(s, d, t, next, s');
  }

  lemma CallKeeps(s: System, d: nat, t: nat, act: Act)
    requires Inv(s) && Shaped(s) && d in s.seats && s.seats[d] == Running(t) && t in s.threads
    ensures Inv(Call(s, d, t, act))
  {
    hide SchedInv, MutexInv, TurnOk, Shaped, Advance;
    var s' := Call(s, d, t, act);
    var pc := s.threads[t];
    TurnFacts(s, t);
    match act
    case Enter =>
      if pc.Outside? {
        if s.counter == 0 { MutexAcquire(s, t); } else { MutexQueue(s, t); }
        SchedMove(s, d, t, s');
      }
    case TryEnter =>
      if s' != s {
        if s.owner == Some(t) { MutexSame(s, s'); } else { MutexMove(s, t, Trying, s.owner); }
        SchedMove(s, d, t, s');
      }
    case Spin => if s' != s { MutexMove(s, t, Trying, s.owner); SchedMove(s, d, t, s'); }
    case Exit => if pc.Inside? { MutexMove(s, t, Exiting, None); SchedMove(s, d, t, s'); }
    case Yield => if pc.Outside? || pc.Inside? { MutexSame(s, s'); SchedYield(s, d, t); }
    case PassTo(heir) =>
      if pc.Inside? && heir in s.threads && s.threads[heir].Outside? {
        MutexPass(s, t, heir);
        SchedPass(s, d, t, heir, s');
      }
    case Step => AdvanceKeeps(s, d, t);
    case _ =>
  }

  /** The mutex does not depend on queues, seats and generators. */
  lemma MutexSame(s: System, s': System)
    requires MutexInv(s)
    requires s'.counter == s.counter && s'.owner == s.owner && s'.waitlist == s.waitlist && s'.threads == s.threads
    requires s'.turn == s.turn && s'.listed == s.listed && s'.granted == s.granted
    ensures MutexInv(s')
  {
    hide Where, Distinct;
    forall u | u in s.threads ensures TurnOk(s', u) {
      assert TurnOk(s, u);
    }
  }

  /** Popping: the thread has its generator, and if it was parked it is the heir. */
  lemma StartKeeps(s: System, d: nat)
    requires Inv(s) && Shaped(s) && d in s.seats && s.seats[d].Vacant?
    ensures Inv(Start(s, d))
  {
    hide SchedInv, MutexInv, TurnOk;
    var s' := Start(s, d);
    if s.runnable[s.cores[d]] != [] {
      PoppedIsStored(s, d);
      var t := s.runnable[s.cores[d]][0];
      TurnFacts(s, t);
      if s.threads[t].Parked? {
        MutexInherit(s, t);
        MutexSame(At(s, t, Acquired).(turn := Owner(t)), s');
      } else {
        MutexSame(s, s');
      }
      SchedStart(s, d, t, s');
    }
  }

  lemma NextKeeps(s: System, d: nat, act: Act)
    requires Inv(s) && Shaped(s) && d in s.seats && !act.Interrupt?
    ensures Inv(Next(s, d, act))
  {
    hide SchedInv, MutexInv, Advance, Call, Start;
    match s.seats[d]
    case Vacant => if act.Dispatch? { StartKeeps(s, d); }
    case Running(t) => if t in s.threads { CallKeeps(s, d, t, act); }
    case Storing(t) => if act.Store? { MutexSame(s, Next(s, d, act)); SchedStore(s, d); }
  }

  predicate NoInterrupts(schedule: seq<(nat, Act)>) {
    forall i :: 0 <= i < |schedule| ==> !schedule[i].1.Interrupt?
  }

  lemma {:induction false} ExecKeeps(s: System, schedule: seq<(nat, Act)>)
    requires Inv(s) && Shaped(s) && NoInterrupts(schedule)
    ensures Inv(Exec(s, schedule))
    decreases |schedule|
  {
    hide Inv, Next;
    if schedule == [] {
    } else {
      var (d, act) := schedule[0];
      if d in s.seats {
        NextKeeps(s, d, act);
      }
      ExecKeeps(if d in s.seats then Next(s, d, act) else s, schedule[1..]);
    }
  }

  /** Every thread is outside, stored, and queued on its own core. */
  ghost predicate Placed(s: System) {
    && Shaped(s) && s.overflows == 0 && s.selfLocks == 0
    && s.counter == 0 && s.owner.None? && s.waitlist == [] && s.turn == Nobody
    && s.listed == [] && s.granted == [] && s.faults == 0
    && s.generators == s.threads.Keys
    && (forall t :: t in s.threads ==> s.threads[t].Outside? && InQueue(s, t))
    && (forall d :: d in s.seats ==> s.seats[d].Vacant?)
    && (forall c :: c in s.runnable ==> QueueOk(s, c))
  }

  ghost predicate Initial(s: System) {
    Placed(s) && OneDispatcher(s.cores, s.affinity)
  }

  lemma InitialInv(s: System)
    requires Initial(s)
    ensures Inv(s)
  {
    hide InQueue, QueueOk;
    assert Where(s.threads, Counted) == {};
  }

  // ----- what holds in every reachable state

  lemma OneOwner(s: System, t: nat, u: nat)
    requires Inv(s) && t in s.threads && u in s.threads && Owns(s.threads[t]) && Owns(s.threads[u])
    ensures t == u
  {
    hide SchedInv, Where;
    assert TurnOk(s, t) && TurnOk(s, u);
  }

  /** A parked thread is on the waitlist, or on its way to being dispatched; and somebody is there to wake the first. */
  lemma NoLostWakeup(s: System, t: nat)
    requires Inv(s) && t in s.threads && s.threads[t].Parked?
    ensures s.turn != Nobody && s.turn.tid in s.threads
    ensures t in s.waitlist || Chosen(s, t) || (s.turn == Heir(t) && InQueue(s, t))
  {
    hide InQueue, QueueOk, Where;
    OneThere(s.threads, Counted, t);
    assert TurnOk(s, t) && GeneratorOk(s, t);
    if t !in s.generators {
      var d :| OnSeat(s, d, t);
      assert SeatOk(s, d);
    }
  }

  /** The loop at the end of `exit` waits for a thread that is running: it has counted itself and lists itself next. */
  lemma SpinEnds(s: System, t: nat) returns (u: nat)
    requires Inv(s) && t in s.threads && s.threads[t].Releasing? && s.waitlist == []
    ensures u in s.threads && u != t && s.threads[u].Queued? && exists d :: d in s.seats && s.seats[d] == Running(u)
  {
    hide InQueue, QueueOk, Where;
    assert TurnOk(s, t);
    u := AnotherThere(s.threads, Counted, t);
    assert TurnOk(s, u) && GeneratorOk(s, u);
    var d :| OnSeat(s, d, u);
    assert SeatOk(s, d);
  }

  /** The main result, for every run: one owner, no panic, first come first served. */
  lemma RunSafe(s: System, schedule: seq<(nat, Act)>)
    requires Initial(s) && NoInterrupts(schedule)
    ensures var r := Exec(s, schedule);
      && r.faults == 0 && (|s.threads| <= WAITLIST_CAPACITY + 1 ==> r.overflows == 0)
      && (forall t, u :: t in r.threads && u in r.threads && Owns(r.threads[t]) && Owns(r.threads[u]) ==> t == u)
      && r.counter == |Where(r.threads, Counted)|
      && (r.counter == 0 ==> forall t :: t in r.threads ==> !Owns(r.threads[t]) && !r.threads[t].Parked?)
      && Fifo(r) && r.granted <= r.listed
  {
    hide SchedInv, Next, TurnOk, Where, Distinct, InQueue, QueueOk;
    InitialInv(s);
    ExecKeeps(s, schedule);
    var r := Exec(s, schedule);
    assert r.granted <= r.listed;
    hide MutexInv;
    forall t, u | t in r.threads && u in r.threads && Owns(r.threads[t]) && Owns(r.threads[u]) ensures t == u {
      OneOwner(r, t, u);
    }
    if r.counter == 0 {
      FreeIsFree(r);
    }
  }

  /**
   `try_enter` does not load the counter again: having read zero it never gives up, but waits until
   it finds the mutex free.
   */
  lemma TryWaits(s: System, d: nat, act: Act, t: nat)
    requires Shaped(s) && d in s.seats && t in s.threads && s.threads[t].Trying?
    ensures var r := Next(s, d, act);
      if s.seats[d] == Running(t) && act.Step? && s.counter == 0 then r.threads[t].Acquired? else r.threads[t].Trying?
  {
  }

  // ----- when `try_enter` panics

  /** The thread that dispatcher `d` runs calls `try_enter` from outside while it is recorded as the owner. */
  ghost predicate OwnTry(s: System, d: nat, act: Act)
    requires d in s.seats
  {
    && s.seats[d].Running? && s.seats[d].tid in s.threads && act.TryEnter?
    && s.threads[s.seats[d].tid].Outside? && s.owner == Some(s.seats[d].tid)
  }

  ghost predicate NoOwnTry(s: System, schedule: seq<(nat, Act)>)
    requires Shaped(s)
    decreases |schedule|
  {
    schedule == [] ||
    var (d, act) := schedule[0];
    && (d in s.seats ==> !OwnTry(s, d, act))
    && NoOwnTry(if d in s.seats then Next(s, d, act) else s, schedule[1..])
  }

  lemma SelfLockStep(s: System, d: nat, act: Act)
    requires Shaped(s) && d in s.seats
    ensures Next(s, d, act).selfLocks == s.selfLocks + if OwnTry(s, d, act) then 1 else 0
  {
  }

  /** Over every run: no panic of `try_enter` exactly if the recorded owner never calls it. */
  lemma {:induction false} SelfLocksIff(s: System, schedule: seq<(nat, Act)>)
    requires Shaped(s)
    ensures Exec(s, schedule).selfLocks >= s.selfLocks
    ensures Exec(s, schedule).selfLocks == s.selfLocks <==> NoOwnTry(s, schedule)
    decreases |schedule|
  {
    hide Next, OwnTry;
    if schedule == [] {
    } else {
      var (d, act) := schedule[0];
      if d in s.seats {
        SelfLockStep(s, d, act);
      }
      SelfLocksIff(if d in s.seats then Next(s, d, act) else s, schedule[1..]);
    }
  }

  /** The recorded owner is the owner. */
  ghost predicate OwnerTrue(s: System) {
    s.owner.Some? ==> s.turn == Owner(s.owner.value)
  }

  predicate NoPassing(schedule: seq<(nat, Act)>) {
    forall i :: 0 <= i < |schedule| ==> !schedule[i].1.PassTo?
  }

  lemma OwnerStep(s: System, d: nat, act: Act)
    requires Inv(s) && Shaped(s) && d in s.seats && !act.Interrupt? && OwnerTrue(s)
    requires act.PassTo? ==> |s.threads| <= 1
    ensures OwnerTrue(Next(s, d, act)) && Next(s, d, act).selfLocks == s.selfLocks
  {
    hide SchedInv, MutexInv, Call, Start;
    match s.seats[d]
    case Vacant => if act.Dispatch? { OwnerStart(s, d); }
    case Running(t) =>
      if t in s.threads {
        OwnerFacts(s, t);
        OwnerCall(s, d, t, act);
      }
    case Storing(t) =>
  }

  lemma OwnerFacts(s: System, t: nat)
    requires MutexInv(s) && OwnerTrue(s) && t in s.threads
    ensures Owns(s.threads[t]) ==> s.turn == Owner(t)
    ensures s.counter == 0 || Leaves(s.threads[t]) ==> !s.turn.Owner?
    ensures s.owner == Some(t) ==> s.threads[t].Inside?
  {
    hide Where, Distinct, Fifo;
    assert TurnOk(s, t);
  }

  lemma OwnerStart(s: System, d: nat)
    requires Inv(s) && Shaped(s) && d in s.seats && s.seats[d].Vacant? && OwnerTrue(s)
    ensures OwnerTrue(Start(s, d)) && Start(s, d).selfLocks == s.selfLocks
  {
    hide SchedInv, MutexInv, RestOk;
    if s.runnable[s.cores[d]] != [] {
      PoppedIsStored(s, d);
    }
  }

  lemma OwnerCall(s: System, d: nat, t: nat, act: Act)
    requires Shaped(s) && d in s.seats && t in s.threads && OwnerTrue(s)
    requires Owns(s.threads[t]) ==> s.turn == Owner(t)
    requires s.counter == 0 || Leaves(s.threads[t]) ==> !s.turn.Owner?
    requires s.owner == Some(t) ==> s.threads[t].Inside?
    requires act.PassTo? ==> |s.threads| <= 1
    ensures OwnerTrue(Call(s, d, t, act)) && Call(s, d, t, act).selfLocks == s.selfLocks
  {
    if act.Step? {
      match s.threads[t]
      case Trying =>
      case Acquired =>
      case Exiting =>
      case _ =>
    } else {
      hide Advance;
      if act.PassTo? && act.heir in s.threads {
        SameThread(s, t, act.heir);
      }
    }
  }

  lemma SameThread(s: System, t: nat, u: nat)
    requires |s.threads| <= 1 && t in s.threads && u in s.threads
    ensures t == u
  {
    var others := s.threads.Keys - {t};
    assert |others| == |s.threads.Keys| - 1;
    assert others == {};
    assert u == t || u in others;
  }

  /** Without passing the mutex on, no `try_enter` ever meets its own caller as the recorded owner. */
  lemma {:induction false} NoPassingIsSafe(s: System, schedule: seq<(nat, Act)>)
    requires Inv(s) && Shaped(s) && OwnerTrue(s) && NoInterrupts(schedule)
    requires NoPassing(schedule) || |s.threads| <= 1
    ensures Exec(s, schedule).selfLocks == s.selfLocks
    decreases |schedule|
  {
    hide Inv, Next, OwnerTrue;
    if schedule == [] {
    } else {
      var (d, act) := schedule[0];
      var s' := if d in s.seats then Next(s, d, act) else s;
      if d in s.seats {
        NextKeeps(s, d, act);
        OwnerStep(s, d, act);
      }
      assert |s'.threads| == |s'.threads.Keys| == |s.threads.Keys|;
      NoPassingIsSafe(s', schedule[1..]);
    }
  }

  lemma {:induction false} Then(s: System, x: seq<(nat, Act)>, d: nat, act: Act) returns (y: seq<(nat, Act)>)
    requires Shaped(s) && d in s.seats
    ensures Shaped(Exec(s, x)) && d in Exec(s, x).seats
    ensures y == x + [(d, act)] && Exec(s, y) == Next(Exec(s, x), d, act)
    ensures NoInterrupts(x) && !act.Interrupt? ==> NoInterrupts(y)
    decreases |x|
  {
    hide Next;
    y := x + [(d, act)];
    if x == [] {
      assert y[1..] == [];
    } else {
      var s' := if x[0].0 in s.seats then Next(s, x[0].0, x[0].1) else s;
      var rest := Then(s', x[1..], d, act);
      assert y[1..] == rest;
    }
  }

  /** The holder passes the mutex on, as the readers of a lock do, and tries to enter it again. */
  lemma PassedOwnerPanics(s: System, d: nat, heir: nat) returns (schedule: seq<(nat, Act)>)
    requires Placed(s) && d in s.seats && s.runnable[s.cores[d]] != []
    requires heir in s.threads && heir != s.runnable[s.cores[d]][0]
    ensures NoInterrupts(schedule) && Exec(s, schedule).selfLocks > 0
  {
    var t := s.runnable[s.cores[d]][0];
    assert Exec(s, []) == s && NoInterrupts([]) && QueueOk(s, s.cores[d]);
    assert t in s.threads.Keys;
    hide Exec, NoInterrupts, QueueOk, Next;
    Dispatched(s, d);
    schedule := Then(s, [], d, Dispatch);
    var e := Exec(s, schedule);
    PassAndTry(e, d, t, heir);
    schedule := Then(s, schedule, d, Enter);
    schedule := Then(s, schedule, d, Step);
    schedule := Then(s, schedule, d, PassTo(heir));
    schedule := Then(s, schedule, d, TryEnter);
  }

  /** Popping a thread that rests. */
  lemma Dispatched(s: System, d: nat)
    requires Shaped(s) && d in s.seats && s.seats[d].Vacant? && s.runnable[s.cores[d]] != []
    requires var t := s.runnable[s.cores[d]][0]; t in s.threads && t in s.generators && !s.threads[t].Parked?
    ensures var q := s.runnable[s.cores[d]];
      Next(s, d, Dispatch) == s.(
        runnable := s.runnable[s.cores[d] := q[1..]],
        generators := s.generators - {q[0]},
        seats := s.seats[d := Running(q[0])])
  {
  }

  lemma PassAndTry(s: System, d: nat, t: nat, heir: nat)
    requires Shaped(s) && d in s.seats && s.seats[d] == Running(t) && t in s.threads && s.threads[t].Outside?
    requires s.counter == 0 && heir in s.threads && heir != t && s.threads[heir].Outside?
    ensures Next(Next(Next(Next(s, d, Enter), d, Step), d, PassTo(heir)), d, TryEnter).selfLocks == s.selfLocks + 1
  {
    hide Start, SameShape;
    var s1 := Next(s, d, Enter);
    assert s1 == At(s, t, Acquired).(counter := 1, turn := Owner(t));
    var s2 := Next(s1, d, Step);
    assert s2 == At(s1, t, Inside).(owner := Some(t));
    hide Advance;
    var s3 := Next(s2, d, PassTo(heir));
    assert s3 == At(At(s2, t, Outside), heir, Inside).(turn := Owner(heir));
  }

  ghost predicate Idle(s: System)
    requires Shaped(s)
  {
    forall d :: d in s.seats ==> s.seats[d].Vacant? && s.runnable[s.cores[d]] == []
  }

  lemma {:induction false} IdleStays(s: System, schedule: seq<(nat, Act)>)
    requires Shaped(s) && Idle(s) && NoInterrupts(schedule)
    ensures Exec(s, schedule) == s
    decreases |schedule|
  {
    if schedule != [] {
      IdleStays(s, schedule[1..]);
    }
  }

  /** A program is safe from the panic exactly if it has no two threads, or nothing to run. */
  lemma NoSelfLockIff(s: System)
    requires Initial(s)
    ensures (forall schedule :: NoInterrupts(schedule) ==> Exec(s, schedule).selfLocks == 0) <==>
      |s.threads| <= 1 || Idle(s)
  {
    InitialInv(s);
    hide Exec, Inv, NoInterrupts;
    if |s.threads| <= 1 || Idle(s) {
      forall schedule | NoInterrupts(schedule) ensures Exec(s, schedule).selfLocks == 0 {
        if |s.threads| <= 1 {
          NoPassingIsSafe(s, schedule);
        } else {
          IdleStays(s, schedule);
        }
      }
    } else {
      var d :| d in s.seats && s.runnable[s.cores[d]] != [];
      var t := s.runnable[s.cores[d]][0];
      assert |s.threads.Keys - {t}| >= |s.threads| - 1;
      var heir :| heir in s.threads.Keys - {t};
      var schedule := PassedOwnerPanics(s, d, heir);
    }
  }

  // ----- what the scheduler must not do

  /** Everybody queued on `core`, except for `t`, rests with its generator stored. */
  ghost predicate QueueRests(s: System, core: nat, t: nat) {
    core in s.runnable && forall u :: u in s.runnable[core] && u != t ==>
      u in s.threads && u in s.affinity && s.affinity[u] == core && u in s.generators &&
      (s.threads[u].Outside? || s.threads[u].Inside?)
  }

  ghost predicate FrontRests(s: System, d: nat)
    requires Shaped(s) && d in s.seats
  {
    s.seats[d].Vacant? && s.runnable[s.cores[d]] != [] &&
    var t := s.runnable[s.cores[d]][0];
    t in s.threads && s.affinity[t] == s.cores[d] && t in s.generators &&
      (s.threads[t].Outside? || s.threads[t].Inside?)
  }

  /** The front thread runs and yields: it is queued again before its generator is stored. */
  lemma Yielded(s: System, d: nat)
    requires Shaped(s) && d in s.seats && FrontRests(s, d)
    ensures var q := s.runnable[s.cores[d]];
      Next(Next(s, d, Dispatch), d, Yield) == s.(
        runnable := s.runnable[s.cores[d] := q[1..] + [q[0]]],
        generators := s.generators - {q[0]},
        seats := s.seats[d := Storing(q[0])])
  {
    Dispatched(s, d);
    var c, q, s1 := s.cores[d], s.runnable[s.cores[d]], Next(s, d, Dispatch);
    assert s1.runnable[c := q[1..] + [q[0]]] == s.runnable[c := q[1..] + [q[0]]];
    assert s1.seats[d := Storing(q[0])] == s.seats[d := Storing(q[0])];
    hide Start, Advance;
  }

  /** Then it is stored, and is now the last. */
  lemma Rotated(s: System, d: nat)
    requires Shaped(s) && d in s.seats && FrontRests(s, d)
    ensures var q := s.runnable[s.cores[d]];
      Next(Next(Next(s, d, Dispatch), d, Yield), d, Store) == s.(runnable := s.runnable[s.cores[d] := q[1..] + [q[0]]])
  {
    Yielded(s, d);
    var t, s2 := s.runnable[s.cores[d]][0], Next(Next(s, d, Dispatch), d, Yield);
    assert s2.generators + {t} == s.generators && s2.seats[d := Vacant] == s.seats;
    hide Start, Call;
  }

  /** Dispatcher `d` runs the threads of its core in turn until `t` is in front. */
  lemma {:induction false} RotateTo(s: System, x: seq<(nat, Act)>, d: nat, t: nat, k: nat) returns (y: seq<(nat, Act)>)
    requires Shaped(s) && d in s.seats && Shaped(Exec(s, x))
    requires Exec(s, x).seats[d].Vacant? && QueueRests(Exec(s, x), s.cores[d], t)
    requires var q := Exec(s, x).runnable[s.cores[d]]; k < |q| && q[k] == t
    ensures NoInterrupts(x) ==> NoInterrupts(y)
    ensures var e, f := Exec(s, x), Exec(s, y); var c := e.cores[d];
      && f == e.(runnable := f.runnable) && Shaped(f) && f.runnable[c] != [] && f.runnable[c][0] == t &&
        QueueRests(f, c, t)
    decreases k
  {
    hide Exec, Next, NoInterrupts;
    var e := Exec(s, x);
    var c, q := e.cores[d], e.runnable[e.cores[d]];
    if q[0] == t {
      y := x;
    } else {
      assert q[0] in q;
      Rotated(e, d);
      y := Then(s, x, d, Dispatch);
      y := Then(s, y, d, Yield);
      y := Then(s, y, d, Store);
      var f := Exec(s, y);
      assert f.runnable[c] == q[1..] + [q[0]];
      assert f.runnable[c][k - 1] == t;
      forall u | u in f.runnable[c] ensures u in q {
      }
      y := RotateTo(s, y, d, t, k - 1);
    }
  }

  lemma PopFaults(s: System, d: nat)
    requires Shaped(s) && d in s.seats && s.seats[d].Vacant? && s.runnable[s.cores[d]] != []
    requires s.runnable[s.cores[d]][0] !in s.generators
    ensures Next(s, d, Dispatch).faults == s.faults + 1
  {
  }

  ghost predicate AllRest(s: System, core: nat, q: seq<nat>) {
    forall u :: u in q ==>
      u in s.threads && u in s.affinity && s.affinity[u] == core && u in s.generators && s.threads[u].Outside?
  }

  lemma PlacedRest(s: System, core: nat)
    requires Placed(s) && core in s.runnable
    ensures AllRest(s, core, s.runnable[core])
  {
    assert QueueOk(s, core);
    forall u | u in s.runnable[core] ensures u in s.affinity && s.affinity[u] == core && u in s.threads {
      assert u in s.affinity.Keys;
    }
  }

  /** The front thread of a core yields, and its generator is not back yet. */
  lemma YieldsEarly(s: System, d: nat)
    requires Shaped(s) && d in s.seats && s.seats[d].Vacant? && s.runnable[s.cores[d]] != []
    requires AllRest(s, s.cores[d], s.runnable[s.cores[d]])
    ensures
      var q, f := s.runnable[s.cores[d]], Next(Next(s, d, Dispatch), d, Yield);
      && s.cores[d] in f.runnable && f.runnable[s.cores[d]] == q[1..] + [q[0]] && q[0] !in f.generators
      && QueueRests(f, s.cores[d], q[0]) && f.seats == s.seats[d := Storing(q[0])] && f.faults == s.faults
  {
    hide Next;
    var c, q := s.cores[d], s.runnable[s.cores[d]];
    assert q[0] in q;
    Yielded(s, d);
    var f := Next(Next(s, d, Dispatch), d, Yield);
    forall u | u in f.runnable[c] ensures u in q {
    }
  }

  /**
   Two dispatchers on one core: a yielding thread is queued before its generator is back, and the
   other dispatcher pops it and panics.
   */
  lemma SharedCorePanics(s: System, d: nat, e: nat, t: nat) returns (schedule: seq<(nat, Act)>)
    requires Placed(s) && d in s.seats && e in s.seats && d != e && t in s.threads
    requires s.cores[d] == s.cores[e] == s.affinity[t]
    ensures NoInterrupts(schedule) && Exec(s, schedule).faults > 0
  {
    assert Exec(s, []) == s && NoInterrupts([]) && s.seats[e].Vacant? && InQueue(s, t);
    PlacedRest(s, s.cores[d]);
    YieldsEarly(s, d);
    var q := s.runnable[s.cores[d]];
    hide Exec, NoInterrupts, Placed, Next;
    schedule := Then(s, [], d, Dispatch);
    schedule := Then(s, schedule, d, Yield);
    schedule := RotateTo(s, schedule, e, q[0], |q| - 1);
    PopFaults(Exec(s, schedule), e);
    schedule := Then(s, schedule, e, Dispatch);
  }

  /** No run panics in the scheduler exactly if no two dispatchers share a core that has a thread. */
  lemma SafeIffOneDispatcher(s: System)
    requires Placed(s)
    ensures (forall schedule :: NoInterrupts(schedule) ==> Exec(s, schedule).faults == 0) <==>
      OneDispatcher(s.cores, s.affinity)
  {
    hide Exec, NoInterrupts;
    if OneDispatcher(s.cores, s.affinity) {
      forall schedule | NoInterrupts(schedule) ensures Exec(s, schedule).faults == 0 {
        RunSafe(s, schedule);
      }
    } else {
      var d, e, t :| d in s.cores && e in s.cores && t in s.affinity && s.cores[d] == s.cores[e] == s.affinity[t] &&
        d != e;
      var schedule := SharedCorePanics(s, d, e, t);
    }
  }

  // ----- what interrupts do

  predicate Exclusive(s: System) {
    forall t, u :: t in s.threads && u in s.threads && Owns(s.threads[t]) && Owns(s.threads[u]) ==> t == u
  }

  /** The queue of the dispatcher's core, with `t` in front. */
  ghost predicate InFront(s: System, d: nat, t: nat)
    requires Shaped(s) && d in s.seats
  {
    && s.seats[d].Vacant? && t in s.threads && t in s.generators
    && s.runnable[s.cores[d]] != [] && s.runnable[s.cores[d]][0] == t
  }

  /** A thread enters the free mutex and yields inside it. */
  lemma HoldsAndYields(s: System, d: nat, o: nat)
    requires Shaped(s) && d in s.seats && InFront(s, d, o) && s.threads[o].Outside? && s.counter == 0
    ensures
      var r := Next(Next(Next(Next(s, d, Dispatch), d, Enter), d, Step), d, Yield);
      var tail := s.runnable[s.cores[d]][1..];
      && r.threads == s.threads[o := Inside] && r.counter == 1 && r.waitlist == s.waitlist && r.cores == s.cores
      && r.seats == s.seats[d := Storing(o)] && r.generators == s.generators - {o} && r.affinity == s.affinity
      && s.cores[d] in r.runnable && r.runnable[s.cores[d]] == if s.affinity[o] == s.cores[d] then tail + [o] else tail
  {
    Dispatched(s, d);
    var s1 := Next(s, d, Dispatch);
    hide Start, SameShape;
    var s2 := Next(s1, d, Enter);
    assert s2 == At(s1, o, Acquired).(counter := 1, turn := Owner(o));
    var s3 := Next(s2, d, Step);
    assert s3 == At(s2, o, Inside).(owner := Some(o));
    hide Advance;
    var r := Next(s3, d, Yield);
    assert r == MarkRunnable(s3, o, s3.affinity[o]).(seats := s3.seats[d := Storing(o)]);
  }

  /** A thread enters the held mutex and parks. */
  lemma EntersAndParks(s: System, d: nat, t: nat)
    requires Shaped(s) && d in s.seats && InFront(s, d, t) && s.threads[t].Outside? && s.counter > 0
    requires |s.waitlist| < WAITLIST_CAPACITY
    ensures
      var r := Next(Next(Next(Next(s, d, Dispatch), d, Enter), d, Step), d, Step);
      && r.threads == s.threads[t := Parked] && r.cores == s.cores && r.affinity == s.affinity
      && r.seats == s.seats[d := Storing(t)] && r.generators == s.generators - {t}
      && r.runnable == s.runnable[s.cores[d] := s.runnable[s.cores[d]][1..]]
  {
    Dispatched(s, d);
    var s1 := Next(s, d, Dispatch);
    hide Start, SameShape;
    var s2 := Next(s1, d, Enter);
    assert s2 == At(s1, t, Queued).(counter := s.counter + 1);
    var s3 := Next(s2, d, Step);
    assert s3 == At(s2, t, Listed).(waitlist := s.waitlist + [t], listed := s.listed + [t]);
    var r := Next(s3, d, Step);
    assert r == At(s3, t, Parked).(seats := s3.seats[d := Storing(t)]);
  }

  lemma Stored(s: System, d: nat, t: nat)
    requires Shaped(s) && d in s.seats && s.seats[d] == Storing(t)
    ensures Next(s, d, Store) == s.(generators := s.generators + {t}, seats := s.seats[d := Vacant])
  {
  }

  lemma Interrupted(s: System, d: nat, t: nat)
    requires Shaped(s) && d in s.seats && s.seats[d].Vacant? && t in s.threads
    ensures Next(s, d, Interrupt(t)) == MarkRunnable(s, t, s.cores[d])
  {
  }

  /** Thread `o` holds the mutex, dispatcher `d` is free, and everybody else queued on its core rests. */
  ghost predicate Ready(s: System, d: nat, o: nat, t: nat) {
    && Shaped(s) && d in s.seats && s.seats[d].Vacant? && o in s.threads && t in s.threads && o != t
    && s.threads[o].Inside? && t in s.generators && QueueRests(s, s.cores[d], t)
  }

  /** Some thread is in front; if the core has none, an interrupt brings one. */
  lemma OneInFront(s: System, d: nat) returns (y: seq<(nat, Act)>, o: nat)
    requires Placed(s) && d in s.seats && s.threads.Keys != {}
    ensures Shaped(Exec(s, y)) && d in Exec(s, y).seats && InFront(Exec(s, y), d, o)
    ensures var e := Exec(s, y);
      e == s.(runnable := e.runnable) && AllRest(e, e.cores[d], e.runnable[e.cores[d]][1..])
  {
    assert Exec(s, []) == s;
    PlacedRest(s, s.cores[d]);
    y := [];
    if s.runnable[s.cores[d]] == [] {
      o :| o in s.threads.Keys;
      Interrupted(s, d, o);
      y := Then(s, y, d, Interrupt(o));
    } else {
      o := s.runnable[s.cores[d]][0];
      assert o in s.runnable[s.cores[d]];
    }
  }

  /** Some thread holds the mutex. */
  lemma OneHolds(s: System, d: nat) returns (y: seq<(nat, Act)>, o: nat)
    requires Placed(s) && d in s.seats && s.threads.Keys != {}
    ensures o in s.threads && forall t :: t in s.threads && t != o ==>
      Ready(Exec(s, y), d, o, t) && Exec(s, y).threads[t].Outside?
    ensures Exec(s, y).counter == 1 && Exec(s, y).waitlist == []
  {
    y, o := OneInFront(s, d);
    var e := Exec(s, y);
    hide Exec, Next, AllRest, Ready;
    y := HoldsBy(s, y, d, o);
    forall t | t in s.threads && t != o ensures Ready(Exec(s, y), d, o, t) && Exec(s, y).threads[t].Outside? {
      HeldIsReady(e, Exec(s, y), d, o, t);
    }
  }

  lemma HoldsBy(s: System, x: seq<(nat, Act)>, d: nat, o: nat) returns (y: seq<(nat, Act)>)
    requires Shaped(s) && d in s.seats && Shaped(Exec(s, x)) && InFront(Exec(s, x), d, o)
    requires Exec(s, x).threads[o].Outside? && Exec(s, x).counter == 0
    ensures Shaped(Exec(s, y))
    ensures
      var e, r := Exec(s, x), Exec(s, y);
      var tail := e.runnable[e.cores[d]][1..];
      && r.threads == e.threads[o := Inside] && r.counter == 1 && r.waitlist == e.waitlist && r.cores == e.cores
      && r.affinity == e.affinity && d in r.seats && r.seats[d].Vacant? && r.generators == e.generators
      && e.cores[d] in r.runnable && r.runnable[e.cores[d]] == if e.affinity[o] == e.cores[d] then tail + [o] else tail
  {
    hide Exec, Next;
    HoldsAndYields(Exec(s, x), d, o);
    y := Then(s, x, d, Dispatch);
    y := Then(s, y, d, Enter);
    y := Then(s, y, d, Step);
    y := Then(s, y, d, Yield);
    var f := Exec(s, y);
    Stored(f, d, o);
    y := Then(s, y, d, Store);
  }

  lemma HeldIsReady(e: System, r: System, d: nat, o: nat, t: nat)
    requires Shaped(e) && Shaped(r) && d in e.seats && InFront(e, d, o) && t in e.threads && t != o && t in e.generators
    requires AllRest(e, e.cores[d], e.runnable[e.cores[d]][1..])
    requires r.threads == e.threads[o := Inside] && r.generators == e.generators && r.cores == e.cores
    requires r.affinity == e.affinity && d in r.seats && r.seats[d].Vacant?
    requires var tail := e.runnable[e.cores[d]][1..];
      r.runnable[e.cores[d]] == if e.affinity[o] == e.cores[d] then tail + [o] else tail
    ensures Ready(r, d, o, t)
  {
  }

  /** An interrupt for `t` brings it to the front. */
  lemma BringToFront(s: System, x: seq<(nat, Act)>, d: nat, o: nat, t: nat) returns (y: seq<(nat, Act)>)
    requires Shaped(s) && d in s.seats && Ready(Exec(s, x), d, o, t)
    ensures Ready(Exec(s, y), d, o, t) && InFront(Exec(s, y), d, t)
    ensures Exec(s, y) == Exec(s, x).(runnable := Exec(s, y).runnable)
  {
    hide Exec, Next;
    var e := Exec(s, x);
    var q := e.runnable[e.cores[d]];
    Interrupted(e, d, t);
    y := Then(s, x, d, Interrupt(t));
    assert Exec(s, y).runnable[e.cores[d]] == q + [t];
    y := RotateTo(s, y, d, t, |q|);
  }

  /**
   An interrupt whose thread is parked in `enter` makes it runnable, and `enter` returns to it while
   another thread owns the mutex.
   */
  lemma InterruptBreaks(s: System, d: nat) returns (schedule: seq<(nat, Act)>)
    requires Placed(s) && d in s.seats && |s.threads| >= 2
    ensures !Exclusive(Exec(s, schedule))
  {
    var o;
    schedule, o := OneHolds(s, d);
    assert |s.threads.Keys - {o}| >= |s.threads| - 1;
    var t :| t in s.threads.Keys - {o};
    hide Exec, Next;
    schedule := BringToFront(s, schedule, d, o, t);
    schedule := ParksBehind(s, schedule, d, o, t);
    schedule := BringToFront(s, schedule, d, o, t);
    schedule := WakesEarly(s, schedule, d, o, t);
  }

  lemma ParksBehind(s: System, x: seq<(nat, Act)>, d: nat, o: nat, t: nat) returns (y: seq<(nat, Act)>)
    requires Shaped(s) && d in s.seats && Ready(Exec(s, x), d, o, t) && InFront(Exec(s, x), d, t)
    requires Exec(s, x).threads[t].Outside? && Exec(s, x).counter > 0 && |Exec(s, x).waitlist| < WAITLIST_CAPACITY
    ensures Ready(Exec(s, y), d, o, t) && Exec(s, y).threads[t].Parked?
  {
    hide Exec, Next, QueueRests;
    var e := Exec(s, x);
    EntersAndParks(e, d, t);
    y := Then(s, x, d, Dispatch);
    y := Then(s, y, d, Enter);
    y := Then(s, y, d, Step);
    y := Then(s, y, d, Step);
    var f := Exec(s, y);
    Stored(f, d, t);
    y := Then(s, y, d, Store);
    ParkedIsReady(e, Exec(s, y), d, o, t);
  }

  lemma ParkedIsReady(e: System, r: System, d: nat, o: nat, t: nat)
    requires Ready(e, d, o, t) && Shaped(r) && InFront(e, d, t)
    requires r.threads == e.threads[t := Parked] && r.generators == e.generators && r.cores == e.cores
    requires r.affinity == e.affinity && d in r.seats && r.seats[d].Vacant?
    requires r.runnable == e.runnable[e.cores[d] := e.runnable[e.cores[d]][1..]]
    ensures Ready(r, d, o, t)
  {
    forall u | u in r.runnable[e.cores[d]] ensures u in e.runnable[e.cores[d]] {
    }
  }

  lemma WakesEarly(s: System, x: seq<(nat, Act)>, d: nat, o: nat, t: nat) returns (y: seq<(nat, Act)>)
    requires Shaped(s) && d in s.seats && Ready(Exec(s, x), d, o, t) && InFront(Exec(s, x), d, t)
    requires Exec(s, x).threads[t].Parked?
    ensures !Exclusive(Exec(s, y))
  {
    hide Exec;
    y := Then(s, x, d, Dispatch);
    var e, f := Exec(s, x), Exec(s, y);
    assert f.threads == e.threads[t := Acquired];
    assert Owns(f.threads[t]) && Owns(f.threads[o]);
  }

  /** With interrupts for any thread, the mutex excludes exactly if there are no two threads, or no dispatcher. */
  lemma InterruptsSafeIff(s: System)
    requires Placed(s)
    ensures (forall schedule :: Exclusive(Exec(s, schedule))) <==> |s.threads| <= 1 || s.seats.Keys == {}
  {
    hide Exec;
    if |s.threads| <= 1 || s.seats.Keys == {} {
      forall schedule ensures Exclusive(Exec(s, schedule)) {
        var r := Exec(s, schedule);
        if |s.threads| <= 1 {
          forall t, u | t in r.threads.Keys && u in r.threads.Keys ensures t == u {
            SameThread(s, t, u);
          }
        } else {
          SeatlessStays(s, schedule);
        }
      }
    } else {
      var d :| d in s.seats.Keys;
      var schedule := InterruptBreaks(s, d);
    }
  }

  lemma {:induction false} SeatlessStays(s: System, schedule: seq<(nat, Act)>)
    requires Shaped(s) && s.seats.Keys == {}
    ensures Exec(s, schedule) == s
    decreases |schedule|
  {
    if schedule != [] {
      SeatlessStays(s, schedule[1..]);
    }
  }
}
