/**
 The kernel's distributed reader-writer lock: one flag for writers, one counter per reader slot.

 A writer takes the flag and then waits until every one of the first `scanned` slots reads zero; a
 reader counts itself in its slot and only then looks at the flag. One step is one atomic access.
 `faults` counts panics: releasing a lock that is not held, or a release whose weak
 compare-exchange fails although the flag is set.
 */
module KernelRwLock {
  import opened Counting

  datatype Option<+T> = None | Some(value: T)

  datatype Pc =
    | Idle
    | ReadSpin              // read: waiting for the flag to read false
    | ReadSeen              //   saw it false, about to count itself in its slot
    | ReadAdded             //   counted in its slot, about to look at the flag
    | ReadBackoff           //   saw the flag, about to leave its slot
    | ReadHold              // holds a read guard
    | WriteSpin             // write: about to set the flag
    | WriteScan(slot: nat)  //   flag set, about to load this slot
    | WriteHold             // holds a write guard
    | Panicked              // dropped a write guard, and the release failed

  datatype Agent = Agent(slot: nat, pc: Pc)

  datatype Lock = Lock(
    wlock: bool,
    rlock: seq<nat>,
    scanned: nat,
    agents: map<nat, Agent>,
    writer: Option<nat>,     // who set the flag: history, no step reads it
    faults: nat)

  datatype Act = Read | Write | Drop | Continue | FailSpuriously

  /** Every agent has a slot of its core, and writers scan slots that exist. */
  ghost predicate Shaped(s: Lock) {
    s.scanned <= |s.rlock| && forall a :: a in s.agents ==> s.agents[a].slot < |s.rlock|
  }

  ghost predicate SameShape(s: Lock, r: Lock) {
    && r.scanned == s.scanned && |r.rlock| == |s.rlock| && r.agents.Keys == s.agents.Keys
    && forall a :: a in s.agents ==> r.agents[a].slot == s.agents[a].slot
  }

  // ----- steps

  function At(s: Lock, a: nat, pc: Pc): Lock
    requires a in s.agents
  {
    s.(agents := s.agents[a := s.agents[a].(pc := pc)])
  }

  function Add(s: Lock, slot: nat): Lock
    requires slot < |s.rlock|
  {
    s.(rlock := s.rlock[slot := s.rlock[slot] + 1])
  }

  function Sub(s: Lock, slot: nat): Lock
    requires slot < |s.rlock|
  {
    if s.rlock[slot] == 0 then s.(faults := s.faults + 1) else s.(rlock := s.rlock[slot := s.rlock[slot] - 1])
  }

  function Scan(s: Lock, slot: nat): Pc {
    if slot >= s.scanned then WriteHold else WriteScan(slot)
  }

  function Next(s: Lock, a: nat, act: Act): (r: Lock)
    requires Shaped(s) && a in s.agents
    ensures SameShape(s, r)
  {
    var slot := s.agents[a].slot;
    match s.agents[a].pc
    case Idle => if act.Read? then At(s, a, ReadSpin) else if act.Write? then At(s, a, WriteSpin) else s
    case ReadSpin => if act.Continue? && !s.wlock then At(s, a, ReadSeen) else s
    case ReadSeen => if act.Continue? then Add(At(s, a, ReadAdded), slot) else s
    case ReadAdded => if act.Continue? then At(s, a, if s.wlock then ReadBackoff else ReadHold) else s
    case ReadBackoff => if act.Continue? then Sub(At(s, a, ReadSpin), slot) else s
    case ReadHold => if act.Drop? then Sub(At(s, a, Idle), slot) else s
    case WriteSpin => if act.Continue? && !s.wlock then At(s, a, Scan(s, 0)).(wlock := true, writer := Some(a)) else s
    case WriteScan(i) =>
      if act.Continue? then At(s, a, if i < |s.rlock| && s.rlock[i] == 0 then Scan(s, i + 1) else Scan(s, 0)) else s
    case WriteHold =>
      if act.Drop? then
        if s.wlock then At(s, a, Idle).(wlock := false, writer := None) else At(s, a, Panicked).(faults := s.faults + 1)
      else if act.FailSpuriously? then At(s, a, Panicked).(faults := s.faults + 1)
      else s
    case Panicked => s
  }

  function Exec(s: Lock, schedule: seq<(nat, Act)>): (r: Lock)
    requires Shaped(s)
    ensures SameShape(s, r)
    decreases |schedule|
  {
    if schedule == [] then s
    else
      var (a, act) := schedule[0];
      Exec(if a in s.agents then Next(s, a, act) else s, schedule[1..])
  }

  ghost predicate Initial(s: Lock) {
    && Shaped(s) && !s.wlock && s.writer.None? && s.faults == 0
    && (forall i :: 0 <= i < |s.rlock| ==> s.rlock[i] == 0)
    && (forall a :: a in s.agents ==> s.agents[a].pc == Idle)
  }

  // ----- the invariant

  predicate Counted(pc: Pc) {
    pc.ReadAdded? || pc.ReadBackoff? || pc.ReadHold?
  }

  predicate Writing(pc: Pc) {
    pc.WriteScan? || pc.WriteHold? || pc.Panicked?
  }

  /** The agents counted in a slot. */
  function InSlot(slot: nat): Agent -> bool {
    (a: Agent) => a.slot == slot && Counted(a.pc)
  }

  const broken := (a: Agent) => a.pc.Panicked?

  /** How many slots the writer has found empty of readers. */
  function Cleared(s: Lock, pc: Pc): nat {
    match pc
    case WriteScan(i) => i
    case WriteHold => s.scanned
    case _ => 0
  }

  ghost predicate SlotOk(s: Lock, slot: nat)
    requires slot < |s.rlock|
  {
    s.rlock[slot] == |Where(s.agents, InSlot(slot))|
  }

  ghost predicate AgentOk(s: Lock, a: nat)
    requires a in s.agents
  {
    var pc := s.agents[a].pc;
    && (Writing(pc) <==> s.writer == Some(a))
    && (pc.WriteScan? ==> pc.slot < s.scanned)
    && (forall b :: b in s.agents && s.agents[b].pc.ReadHold? ==> Cleared(s, pc) <= s.agents[b].slot)
  }

  ghost predicate Inv(s: Lock) {
    && Shaped(s)
    && s.wlock == s.writer.Some?
    && (forall i :: 0 <= i < |s.rlock| ==> SlotOk(s, i))
    && (forall a :: a in s.agents ==> AgentOk(s, a))
    && s.faults == |Where(s.agents, broken)|
  }

  // ----- every step keeps it

  /** The counters after an agent has moved and its own slot was adjusted to match. */
  lemma SlotsKept(s: Lock, a: nat, s': Lock)
    requires Inv(s) && a in s.agents && a in s'.agents && s'.agents == s.agents[a := s'.agents[a]]
    requires s'.agents[a].slot == s.agents[a].slot && |s'.rlock| == |s.rlock|
    requires var own := s.agents[a].slot;
      && s'.rlock == s.rlock[own := s'.rlock[own]]
      && s'.rlock[own] + (if Counted(s.agents[a].pc) then 1 else 0) ==
        s.rlock[own] + (if Counted(s'.agents[a].pc) then 1 else 0)
    ensures forall i :: 0 <= i < |s'.rlock| ==> SlotOk(s', i)
  {
    forall i | 0 <= i < |s'.rlock| ensures SlotOk(s', i) {
      assert SlotOk(s, i);
      Recount(s.agents, InSlot(i), a, s'.agents[a]);
    }
  }

  /** A counted agent is in its slot's counter. */
  lemma CountedInSlot(s: Lock, a: nat)
    requires Inv(s) && a in s.agents && Counted(s.agents[a].pc)
    ensures s.rlock[s.agents[a].slot] > 0
  {
    assert SlotOk(s, s.agents[a].slot);
    OneThere(s.agents, InSlot(s.agents[a].slot), a);
  }

  /** A slot that reads zero has no read guard. */
  lemma EmptySlot(s: Lock, slot: nat)
    requires Inv(s) && slot < |s.rlock| && s.rlock[slot] == 0
    ensures forall b :: b in s.agents && s.agents[b].pc.ReadHold? ==> s.agents[b].slot != slot
  {
    assert SlotOk(s, slot);
    NoneThere(s.agents, InSlot(slot));
    forall b | b in s.agents && s.agents[b].pc.ReadHold? ensures s.agents[b].slot != slot {
      assert !InSlot(slot)(s.agents[b]);
    }
  }

  /** What a step of agent `a` has to show beside the counters. */
  lemma StepKeeps(s: Lock, a: nat, s': Lock)
    requires Inv(s) && a in s.agents && SameShape(s, s') && s'.agents == s.agents[a := s'.agents[a]]
    requires s'.wlock == s'.writer.Some?
    requires s'.rlock == s.rlock[s.agents[a].slot := s'.rlock[s.agents[a].slot]]
    requires s'.rlock[s.agents[a].slot] + (if Counted(s.agents[a].pc) then 1 else 0)
          == s.rlock[s.agents[a].slot] + (if Counted(s'.agents[a].pc) then 1 else 0)
    requires s'.faults + (if s.agents[a].pc.Panicked? then 1 else 0) ==
      s.faults + (if s'.agents[a].pc.Panicked? then 1 else 0)
    requires forall b :: b in s.agents ==> AgentOk(s', b)
    ensures Inv(s')
  {
    hide AgentOk, Where;
    SlotsKept(s, a, s');
    Recount(s.agents, broken, a, s'.agents[a]);
  }

  /** A reader moves; it only gets a guard while there is no writer. */
  lemma ReaderMoves(s: Lock, a: nat, s': Lock)
    requires Inv(s) && a in s.agents && SameShape(s, s') && s'.agents == s.agents[a := s'.agents[a]]
    requires s'.writer == s.writer && !Writing(s.agents[a].pc) && !Writing(s'.agents[a].pc)
    requires s'.agents[a].pc.ReadHold? ==> s.agents[a].pc.ReadHold? || s.writer.None?
    ensures forall b :: b in s.agents ==> AgentOk(s', b)
  {
    hide Where, SlotOk;
    assert AgentOk(s, a);
    forall b | b in s.agents ensures AgentOk(s', b) {
      assert AgentOk(s, b);
    }
  }

  lemma ReaderKeeps(s: Lock, a: nat, act: Act)
    requires Inv(s) && a in s.agents
    requires var pc := s.agents[a].pc; pc.Idle? || pc.ReadSpin? || pc.ReadSeen? || Counted(pc)
    ensures Inv(Next(s, a, act))
  {
    hide Where, SlotOk, AgentOk;
    var s' := Next(s, a, act);
    if Counted(s.agents[a].pc) {
      CountedInSlot(s, a);
    }
    ReaderMoves(s, a, s');
    StepKeeps(s, a, s');
  }

  /** The writer moves; readers stay where they are. */
  lemma WriterMoves(s: Lock, a: nat, s': Lock)
    requires Inv(s) && a in s.agents && SameShape(s, s') && s'.agents == s.agents[a := s'.agents[a]]
    requires !s'.agents[a].pc.ReadHold? && !s.agents[a].pc.ReadHold?
    requires s'.writer == if Writing(s'.agents[a].pc) then Some(a) else None
    requires s.writer.Some? ==> s.writer == Some(a)
    requires s'.agents[a].pc.WriteScan? ==> s'.agents[a].pc.slot < s.scanned
    requires forall b :: b in s.agents && s.agents[b].pc.ReadHold? ==> Cleared(s, s'.agents[a].pc) <= s.agents[b].slot
    ensures forall b :: b in s.agents ==> AgentOk(s', b)
  {
    hide Where, SlotOk;
    forall b | b in s.agents ensures AgentOk(s', b) {
      assert AgentOk(s, b);
    }
  }

  /** One slot of the scan. */
  lemma ScanClears(s: Lock, a: nat)
    requires Inv(s) && a in s.agents && s.agents[a].pc.WriteScan?
    ensures s.writer == Some(a)
    ensures var i := s.agents[a].pc.slot;
      && i < s.scanned
      && (s.rlock[i] == 0 ==> forall b :: b in s.agents && s.agents[b].pc.ReadHold? ==> i + 1 <= s.agents[b].slot)
  {
    hide Where, SlotOk;
    assert AgentOk(s, a);
    if s.rlock[s.agents[a].pc.slot] == 0 {
      EmptySlot(s, s.agents[a].pc.slot);
    }
  }

  lemma WriterKeeps(s: Lock, a: nat, act: Act)
    requires Inv(s) && a in s.agents && (s.agents[a].pc.WriteSpin? || Writing(s.agents[a].pc))
    ensures Inv(Next(s, a, act))
  {
    hide Where, SlotOk;
    var s' := Next(s, a, act);
    assert AgentOk(s, a);
    hide AgentOk;
    if s' != s {
      if s.agents[a].pc.WriteScan? {
        ScanClears(s, a);
      }
      WriterMoves(s, a, s');
      StepKeeps(s, a, s');
    }
  }

  lemma NextKeeps(s: Lock, a: nat, act: Act)
    requires Inv(s) && a in s.agents
    ensures Inv(Next(s, a, act))
  {
    hide Inv, Next;
    if s.agents[a].pc.WriteSpin? || Writing(s.agents[a].pc) {
      WriterKeeps(s, a, act);
    } else {
      ReaderKeeps(s, a, act);
    }
  }

  lemma {:induction false} ExecKeeps(s: Lock, schedule: seq<(nat, Act)>)
    requires Inv(s)
    ensures Inv(Exec(s, schedule))
    decreases |schedule|
  {
    hide AgentOk, SlotOk, Where, Next;
    if schedule == [] {
    } else {
      var (a, act) := schedule[0];
      if a in s.agents {
        NextKeeps(s, a, act);
      }
      ExecKeeps(if a in s.agents then Next(s, a, act) else s, schedule[1..]);
    }
  }

  lemma InitialInv(s: Lock)
    requires Initial(s)
    ensures Inv(s)
  {
    forall i | 0 <= i < |s.rlock| ensures SlotOk(s, i) {
      assert Where(s.agents, InSlot(i)) == {};
    }
    assert Where(s.agents, broken) == {};
  }

  // ----- what every run guarantees

  /** At most one write guard, and no read guard in a scanned slot beside it. */
  ghost predicate Exclusive(s: Lock) {
    forall a, b :: a in s.agents && b in s.agents && a != b && s.agents[a].pc.WriteHold? ==>
      !s.agents[b].pc.WriteHold? && !s.agents[b].pc.ReadHold?
  }

  ghost predicate AllScanned(s: Lock) {
    forall a :: a in s.agents ==> s.agents[a].slot < s.scanned
  }

  lemma InvExclusive(s: Lock)
    requires Inv(s) && AllScanned(s)
    ensures Exclusive(s)
  {
    hide Where, SlotOk;
    forall a, b | a in s.agents && b in s.agents && a != b && s.agents[a].pc.WriteHold?
      ensures !s.agents[b].pc.WriteHold? && !s.agents[b].pc.ReadHold?
    {
      assert AgentOk(s, a) && AgentOk(s, b);
    }
  }

  /** A reader that counts itself once the flag is set, also in a slot scanned already, finds the flag and leaves. */
  lemma LateReaderBacksOff(s: Lock, a: nat, w: nat)
    requires Inv(s) && a in s.agents && w in s.agents && Writing(s.agents[w].pc) && s.agents[a].pc.ReadSeen?
    ensures Next(Next(s, a, Continue), a, Continue).agents[a].pc.ReadBackoff?
  {
    hide Where, SlotOk;
    assert AgentOk(s, w);
  }

  /** Every run: counters never underflow, and the only panic is a release that failed spuriously. */
  lemma RunSafe(s: Lock, schedule: seq<(nat, Act)>)
    requires Initial(s)
    ensures var r := Exec(s, schedule);
      && (AllScanned(s) ==> Exclusive(r))
      && r.faults == |Where(r.agents, broken)|
      && (forall a :: a in r.agents && r.agents[a].pc.ReadHold? ==> r.rlock[r.agents[a].slot] > 0)
      && (forall a :: a in r.agents && r.agents[a].pc.WriteHold? ==> r.wlock)
  {
    InitialInv(s);
    ExecKeeps(s, schedule);
    var r := Exec(s, schedule);
    if AllScanned(s) {
      InvExclusive(r);
    }
    forall a | a in r.agents && r.agents[a].pc.ReadHold? ensures r.rlock[r.agents[a].slot] > 0 {
      CountedInSlot(r, a);
    }
    forall a | a in r.agents && r.agents[a].pc.WriteHold? ensures r.wlock {
      assert AgentOk(r, a);
    }
  }

  // ----- exclusion needs every reader slot to be scanned

  function Steps(a: nat, k: nat): seq<(nat, Act)> {
    seq(k, i => (a, Continue))
  }

  lemma {:induction false} ScanPasses(s: Lock, w: nat, i: nat)
    requires Shaped(s) && w in s.agents && i <= s.scanned && s.agents[w].pc == Scan(s, i)
    requires forall j :: i <= j < s.scanned ==> s.rlock[j] == 0
    ensures Exec(s, Steps(w, s.scanned - i)) == At(s, w, WriteHold)
    decreases s.scanned - i
  {
    var steps := Steps(w, s.scanned - i);
    if i == s.scanned {
      assert At(s, w, WriteHold).agents == s.agents;
    } else {
      assert steps[0] == (w, Continue) && steps[1..] == Steps(w, s.scanned - (i + 1));
      var s' := Next(s, w, Continue);
      assert s' == At(s, w, Scan(s, i + 1));
      ScanPasses(s', w, i + 1);
      assert At(s', w, WriteHold).agents == At(s, w, WriteHold).agents;
    }
  }

  lemma ExecStep(s: Lock, a: nat, act: Act, rest: seq<(nat, Act)>) returns (schedule: seq<(nat, Act)>)
    requires Shaped(s) && a in s.agents
    ensures Exec(s, schedule) == Exec(Next(s, a, act), rest)
  {
    schedule := [(a, act)] + rest;
    assert schedule[1..] == rest;
  }

  /** A read that meets no writer. */
  lemma ReaderGetsIn(s: Lock, r: nat)
    requires Shaped(s) && r in s.agents && s.agents[r].pc.Idle? && !s.wlock
    ensures Next(Next(Next(Next(s, r, Read), r, Continue), r, Continue), r, Continue)
         == Add(At(s, r, ReadHold), s.agents[r].slot)
  {
    ReaderSees(s, r);
    var seen := At(s, r, ReadSeen);
    var added := Add(At(s, r, ReadAdded), s.agents[r].slot);
    assert Next(seen, r, Continue).agents == added.agents;
    assert Next(added, r, Continue).agents == At(s, r, ReadHold).agents;
  }

  lemma ReaderSees(s: Lock, r: nat)
    requires Shaped(s) && r in s.agents && s.agents[r].pc.Idle? && !s.wlock
    ensures Next(Next(s, r, Read), r, Continue) == At(s, r, ReadSeen)
  {
    assert Next(Next(s, r, Read), r, Continue).agents == At(s, r, ReadSeen).agents;
  }

  lemma WriterStarts(s: Lock, w: nat)
    requires Shaped(s) && w in s.agents && s.agents[w].pc.Idle? && !s.wlock
    ensures Next(Next(s, w, Write), w, Continue) == At(s, w, Scan(s, 0)).(wlock := true, writer := Some(w))
  {
  }

  /** A reader whose slot the writer does not scan, and a writer: both get their guards. */
  lemma UnscannedBreaks(s: Lock, r: nat, w: nat) returns (schedule: seq<(nat, Act)>)
    requires Initial(s) && r in s.agents && w in s.agents && r != w && s.agents[r].slot >= s.scanned
    ensures !Exclusive(Exec(s, schedule))
  {
    hide Next, Exec;
    ReaderGetsIn(s, r);
    var s1 := Next(s, r, Read);
    var s2 := Next(s1, r, Continue);
    var s3 := Next(s2, r, Continue);
    var s4 := Next(s3, r, Continue);
    WriterStarts(s4, w);
    var s5 := Next(s4, w, Write);
    var s6 := Next(s5, w, Continue);
    ScanPasses(s6, w, 0);
    var q5 := ExecStep(s5, w, Continue, Steps(w, s.scanned));
    var q4 := ExecStep(s4, w, Write, q5);
    var q3 := ExecStep(s3, r, Continue, q4);
    var q2 := ExecStep(s2, r, Continue, q3);
    var q1 := ExecStep(s1, r, Continue, q2);
    schedule := ExecStep(s, r, Read, q1);
    var e := Exec(s, schedule);
    assert e.agents[r].pc.ReadHold? && e.agents[w].pc.WriteHold?;
  }

  /** Guards exclude each other in every run exactly when no agent's slot lies beyond the scanned ones. */
  lemma SafeIffScanned(s: Lock)
    requires Initial(s) && |s.agents| >= 2
    ensures (forall schedule :: Exclusive(Exec(s, schedule))) <==> AllScanned(s)
  {
    hide Exclusive;
    if AllScanned(s) {
      forall schedule ensures Exclusive(Exec(s, schedule)) {
        RunSafe(s, schedule);
      }
    } else {
      var r :| r in s.agents && s.agents[r].slot >= s.scanned;
      assert |s.agents.Keys - {r}| >= 1;
      var w :| w in s.agents.Keys - {r};
      var schedule := UnscannedBreaks(s, r, w);
      assert !Exclusive(Exec(s, schedule));
    }
  }

  // ----- what the calls return with

  predicate Reading(pc: Pc) {
    pc.ReadSpin? || pc.ReadSeen? || pc.ReadAdded? || pc.ReadBackoff?
  }

  predicate Scanning(pc: Pc) {
    pc.WriteSpin? || pc.WriteScan?
  }

  function Place(s: Lock, a: nat): Pc
    requires a in s.agents
  {
    s.agents[a].pc
  }

  /** The step at which a call returns: before it the agent is in the call, after it, it holds a guard. */
  ghost predicate Returns(s: Lock, a: nat, act: Act, inCall: Pc -> bool, guard: Pc)
    requires Shaped(s) && a in s.agents
  {
    act == Continue && inCall(Place(s, a)) && Place(Next(s, a, act), a) == guard
  }

  /** A read that ends does so with a guard, at a moment at which the flag is clear and it is counted in its slot. */
  lemma ReadStep(s: Lock, a: nat, b: nat, act: Act)
    requires Inv(s) && a in s.agents && b in s.agents && Reading(Place(s, a))
    ensures Reading(Place(Next(s, b, act), a)) || (b == a && Returns(s, a, act, Reading, ReadHold))
    ensures b == a && Returns(s, a, act, Reading, ReadHold) ==>
      !s.wlock && s.rlock[s.agents[a].slot] > 0 && Next(s, a, act) == At(s, a, ReadHold)
  {
    hide AgentOk;
    if Counted(Place(s, a)) {
      CountedInSlot(s, a);
    }
  }

  /** A write that ends does so with a guard, and with the flag it has set itself. */
  lemma WriteStep(s: Lock, a: nat, b: nat, act: Act)
    requires Inv(s) && a in s.agents && b in s.agents && Scanning(Place(s, a))
    ensures Scanning(Place(Next(s, b, act), a)) || (b == a && Returns(s, a, act, Scanning, WriteHold))
    ensures b == a && Returns(s, a, act, Scanning, WriteHold) ==>
      var r := Next(s, a, act);
      r.wlock && r.writer == Some(a) && r.rlock == s.rlock && (s.scanned > 0 ==> s.rlock[s.scanned - 1] == 0)
  {
    hide SlotOk;
    assert AgentOk(s, a);
  }

  /** The call returns at some step of the schedule. */
  ghost predicate ReturnsIn(s: Lock, schedule: seq<(nat, Act)>, a: nat, inCall: Pc -> bool, guard: Pc)
    requires Shaped(s) && a in s.agents
    decreases |schedule|
  {
    schedule != [] && inCall(Place(s, a)) &&
    var (b, act) := schedule[0];
    || (b == a && Returns(s, a, act, inCall, guard))
    || ReturnsIn(if b in s.agents then Next(s, b, act) else s, schedule[1..], a, inCall, guard)
  }

  /** Over every run: a `read` goes on, or it returns with a read guard. */
  lemma {:induction false} ReadReturns(s: Lock, schedule: seq<(nat, Act)>, a: nat)
    requires Inv(s) && a in s.agents && Reading(Place(s, a))
    ensures Reading(Place(Exec(s, schedule), a)) || ReturnsIn(s, schedule, a, Reading, ReadHold)
    decreases |schedule|
  {
    hide SlotOk, AgentOk, Where, Next;
    if schedule == [] {
    } else {
      var (b, act) := schedule[0];
      if b in s.agents {
        ReadStep(s, a, b, act);
        NextKeeps(s, b, act);
        if Reading(Place(Next(s, b, act), a)) {
          ReadReturns(Next(s, b, act), schedule[1..], a);
        }
      } else {
        ReadReturns(s, schedule[1..], a);
      }
    }
  }

  /** Over every run: a `write` goes on, or it returns with the write guard. */
  lemma {:induction false} WriteReturns(s: Lock, schedule: seq<(nat, Act)>, a: nat)
    requires Inv(s) && a in s.agents && Scanning(Place(s, a))
    ensures Scanning(Place(Exec(s, schedule), a)) || ReturnsIn(s, schedule, a, Scanning, WriteHold)
    decreases |schedule|
  {
    hide SlotOk, AgentOk, Where, Next;
    if schedule == [] {
    } else {
      var (b, act) := schedule[0];
      if b in s.agents {
        WriteStep(s, a, b, act);
        NextKeeps(s, b, act);
        if Scanning(Place(Next(s, b, act), a)) {
          WriteReturns(Next(s, b, act), schedule[1..], a);
        }
      } else {
        WriteReturns(s, schedule[1..], a);
      }
    }
  }

  // ----- one call undoes the other

  /** A reader that holds a guard, and is counted in its slot once more than without it. */
  function WithReader(s: Lock, a: nat): Lock
    requires Shaped(s) && a in s.agents
  {
    var slot := s.agents[a].slot;
    s.(agents := s.agents[a := Agent(slot, ReadHold)], rlock := s.rlock[slot := s.rlock[slot] + 1])
  }

  lemma DropsRead(s: Lock, a: nat)
    requires Shaped(s) && a in s.agents && s.agents[a].pc.Idle?
    ensures Next(WithReader(s, a), a, Drop) == s
  {
    var slot := s.agents[a].slot;
    assert s.rlock[slot := s.rlock[slot] + 1][slot := s.rlock[slot]] == s.rlock;
    MovedTwice(s.agents, a, Agent(slot, ReadHold), s.agents[a]);
  }

  /** A `read` that meets no writer, and the drop of its guard. */
  lemma ReadDrop(s: Lock, a: nat)
    requires Shaped(s) && a in s.agents && s.agents[a].pc.Idle? && !s.wlock
    ensures
      var r := Next(Next(Next(Next(s, a, Read), a, Continue), a, Continue), a, Continue);
      r == WithReader(s, a) && Next(r, a, Drop) == s
  {
    hide Next;
    ReaderGetsIn(s, a);
    DropsRead(s, a);
  }

  /** A `write` that meets nobody, and the drop of its guard. */
  lemma WriteDrop(s: Lock, a: nat)
    requires Shaped(s) && a in s.agents && s.agents[a].pc.Idle? && !s.wlock && s.writer == None
    requires forall i :: 0 <= i < s.scanned ==> s.rlock[i] == 0
    ensures
      var r := Exec(Next(Next(s, a, Write), a, Continue), Steps(a, s.scanned));
      && r == s.(agents := s.agents[a := s.agents[a].(pc := WriteHold)], wlock := true, writer := Some(a))
      && Next(r, a, Drop) == s
  {
    WriterStarts(s, a);
    var s1 := Next(Next(s, a, Write), a, Continue);
    ScanPasses(s1, a, 0);
    MovedTwice(s.agents, a, s1.agents[a], s.agents[a].(pc := WriteHold));
    MovedTwice(s.agents, a, s.agents[a].(pc := WriteHold), s.agents[a]);
  }

  /** A `read` that meets a writer takes itself out of its slot and starts over, with nothing else changed. */
  lemma ReadRetries(s: Lock, a: nat)
    requires Shaped(s) && a in s.agents && s.agents[a].pc.ReadSeen? && s.wlock
    ensures Next(Next(Next(s, a, Continue), a, Continue), a, Continue) == At(s, a, ReadSpin)
  {
    var slot := s.agents[a].slot;
    var s1 := Add(At(s, a, ReadAdded), slot);
    MovedTwice(s.agents, a, s1.agents[a], s.agents[a].(pc := ReadBackoff));
    var s2 := Add(At(s, a, ReadBackoff), slot);
    assert Next(s1, a, Continue) == s2;
    MovedTwice(s.agents, a, s2.agents[a], s.agents[a].(pc := ReadSpin));
    assert s.rlock[slot := s.rlock[slot] + 1][slot := s.rlock[slot]] == s.rlock;
  }

  /** While the flag is set, neither call gets beyond its first loop. */
  lemma FlagHolds(s: Lock, a: nat, act: Act)
    requires Shaped(s) && a in s.agents && s.wlock && (s.agents[a].pc.ReadSpin? || s.agents[a].pc.WriteSpin?)
    ensures Next(s, a, act) == s
  {
  }

  /** A slot in use stops the scan: it starts again at the first slot. */
  lemma ScanRestarts(s: Lock, a: nat, i: nat)
    requires Shaped(s) && a in s.agents && s.agents[a].pc == WriteScan(i) && i < s.scanned && s.rlock[i] > 0
    ensures Next(s, a, Continue) == s.(agents := s.agents[a := s.agents[a].(pc := WriteScan(0))])
  {
  }
}
