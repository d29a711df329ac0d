/**
 The user-level reader-writer lock of `lineup`: a counter of readers, a lock type, and two
 mutexes, `access` and `wait`.

 Any number of threads; one step is one atomic access or one mutex operation of the source. A
 mutex is what the module LineupMutex shows it to be: free, or held until some thread exits it;
 entering it records the caller as its owner, and exiting it clears the record before releasing
 it. `selfLocks` counts the panics of a `try_enter` whose caller is the recorded owner, `faults`
 the other panics of the source: exiting a free mutex, or a reader count below zero.
 */
module LineupRwLock {
  import opened Counting

  datatype Option<+T> = None | Some(value: T)

  datatype LockType = Free | Writeable | Readable

  /** Where a thread is. */
  datatype Pc =
    | Outside
    | Reader                 // holds the lock for reading
    | Writer                 // holds the lock for writing
    | EnterWriteWait         // enter(Write): at wait.enter
    | EnterWriteAccess       //   at access.enter
    | WriteSetType           //   has access, about to store the lock type
    | WriteLeaveWait         //   about to exit wait
    | EnterReadWait          // enter(Read): at wait.enter
    | EnterReadCount         //   about to count itself
    | FirstReaderAccess      //   first reader, at access.enter
    | ReadSetType            //   first reader, has access, about to store the lock type
    | ReadLeaveWait          //   about to exit wait
    | TryWriteWait           // try_enter(Write): at wait.try_enter
    | TryWriteAccess         //   at access.try_enter
    | TryReadWait            // try_enter(Read): at wait.try_enter
    | TryReadLoad            //   about to load readers
    | TryReadDecide(readers: nat)
    | TryReadStore           //   has access, about to set readers to one
    | TryFailed              //   about to exit wait and return false
    | ReaderExit             // exit, by a reader: about to load the lock type
    | ReaderUncount          //   about to decrement readers
    | WriterExit             // exit, by a writer: about to load the lock type
    | ExitSetType            //   last holder, about to store Free
    | ExitAccess             //   at access.exit: about to clear its owner
    | ExitRelease            //   about to release access
    | DowngradeSetType       // downgrade: about to store Readable
    | DowngradeCount         //   about to increment readers
    | DowngradeAccess        //   not the first reader, at access.exit: about to clear its owner
    | DowngradeRelease       //   about to release access
    | UpgradeTry             // try_upgrade: about to compare-exchange readers
    | UpgradeSetType         //   succeeded, about to store Writeable

  datatype Rw = Rw(
    lockType: LockType,
    readers: nat,
    wait: Option<nat>,
    access: bool,
    owner: Option<nat>,      // who entered access, as the mutex itself records it
    threads: map<nat, Pc>,
    acquired: nat,
    released: nat,
    selfLocks: nat,
    faults: nat)

  datatype Call = EnterRead | EnterWrite | TryRead | TryWrite | Exit | TryUpgrade | Downgrade

  datatype Act = Begin(call: Call) | Continue | GiveUp

  // ----- steps

  function At(s: Rw, t: nat, pc: Pc): Rw {
    s.(threads := s.threads[t := pc])
  }

  function AccessEnter(s: Rw, t: nat): Rw {
    s.(access := true, owner := Some(t), acquired := s.acquired + 1)
  }

  /** `try_enter` of a mutex panics if the caller is its recorded owner; the thread stays where it is. */
  function SelfLock(s: Rw): Rw {
    s.(selfLocks := s.selfLocks + 1)
  }

  function AccessExit(s: Rw): Rw {
    if s.access then s.(access := false, released := s.released + 1) else s.(faults := s.faults + 1)
  }

  function WaitExit(s: Rw): Rw {
    if s.wait.Some? then s.(wait := None) else s.(faults := s.faults + 1)
  }

  /**
   What a step from place `pc` does to the rest of the lock, and where it leads. A thread at a held
   mutex stays where it is.
   */
  function Effect(s: Rw, t: nat, pc: Pc): (Rw, Pc) {
    match pc
    case EnterWriteWait => if s.wait.None? then (s.(wait := Some(t)), EnterWriteAccess) else (s, pc)
    case EnterWriteAccess => if !s.access then (AccessEnter(s, t), WriteSetType) else (s, pc)
    case WriteSetType => (s.(lockType := Writeable), WriteLeaveWait)
    case WriteLeaveWait => (WaitExit(s), Writer)
    case EnterReadWait => if s.wait.None? then (s.(wait := Some(t)), EnterReadCount) else (s, pc)
    case EnterReadCount => (s.(readers := s.readers + 1), if s.readers == 0 then FirstReaderAccess else ReadLeaveWait)
    case FirstReaderAccess => if !s.access then (AccessEnter(s, t), ReadSetType) else (s, pc)
    case ReadSetType => (s.(lockType := Readable), ReadLeaveWait)
    case ReadLeaveWait => (WaitExit(s), Reader)
    case _ => EffectTry(s, t, pc)
  }

  function EffectTry(s: Rw, t: nat, pc: Pc): (Rw, Pc) {
    match pc
    case TryWriteWait =>
      if s.wait == Some(t) then (SelfLock(s), pc)
      else if s.wait.None? then (s.(wait := Some(t)), TryWriteAccess) else (s, pc)
    case TryWriteAccess =>
      if s.owner == Some(t) then (SelfLock(s), pc) else if !s.access then (AccessEnter(s, t), WriteSetType) else (s, pc)
    case TryReadWait =>
      if s.wait == Some(t) then (SelfLock(s), pc)
      else if s.wait.None? then (s.(wait := Some(t)), TryReadLoad) else (s, pc)
    case TryReadLoad => (s, TryReadDecide(s.readers))
    case TryReadDecide(n) =>
      if n == 0 then
        if s.owner == Some(t) then (SelfLock(s), pc)
        else if !s.access then (AccessEnter(s, t), TryReadStore)
        else (s, pc)
      else if s.readers == n then (s.(readers := n + 1), ReadLeaveWait)
      else (s, TryReadDecide(s.readers))
    case TryReadStore => (s.(readers := 1), ReadSetType)
    case TryFailed => (WaitExit(s), Outside)
    case _ => EffectOut(s, t, pc)
  }

  function EffectOut(s: Rw, t: nat, pc: Pc): (Rw, Pc) {
    match pc
    case ReaderExit => (s, if s.lockType == Writeable then ExitSetType else ReaderUncount)
    case WriterExit => (s, if s.lockType == Writeable then ExitSetType else ReaderUncount)
    case ReaderUncount =>
      if s.readers == 0 then (s.(faults := s.faults + 1), Outside)
      else (s.(readers := s.readers - 1), if s.readers == 1 then ExitSetType else Outside)
    case ExitSetType => (s.(lockType := Free), ExitAccess)
    case ExitAccess => (s.(owner := None), ExitRelease)
    case ExitRelease => (AccessExit(s), Outside)
    case DowngradeSetType => (s.(lockType := Readable), DowngradeCount)
    case DowngradeCount => (s.(readers := s.readers + 1), if s.readers != 0 then DowngradeAccess else Reader)
    case DowngradeAccess => (s.(owner := None), DowngradeRelease)
    case DowngradeRelease => (AccessExit(s), Reader)
    case UpgradeTry => if s.readers == 1 then (s.(readers := 0), UpgradeSetType) else (s, Reader)
    case UpgradeSetType => (s.(lockType := Writeable), Writer)
    case _ => (s, pc)
  }

  function Put(t: nat, e: (Rw, Pc)): Rw {
    At(e.0, t, e.1)
  }

  /** One step of a running thread. */
  function Advance(s: Rw, t: nat): Rw
    requires t in s.threads
  {
    Put(t, Effect(s, t, s.threads[t]))
  }

  /** A `try_enter` on a mutex that is held returns false. */
  function Abandon(s: Rw, t: nat): Rw
    requires t in s.threads
  {
    match s.threads[t]
    case TryWriteWait => if s.wait.Some? && s.wait != Some(t) then At(s, t, Outside) else s
    case TryReadWait => if s.wait.Some? && s.wait != Some(t) then At(s, t, Outside) else s
    case TryWriteAccess => if s.access && s.owner != Some(t) then At(s, t, TryFailed) else s
    case TryReadDecide(r) => if r == 0 && s.access && s.owner != Some(t) then At(s, t, TryFailed) else s
    case _ => s
  }

  /** Calls by legitimate holders: only a holder exits, only a reader upgrades, only a writer downgrades. */
  function Enter(s: Rw, t: nat, call: Call): Rw
    requires t in s.threads
  {
    match (s.threads[t], call)
    case (Outside, EnterRead) => At(s, t, EnterReadWait)
    case (Outside, EnterWrite) => At(s, t, EnterWriteWait)
    case (Outside, TryRead) => At(s, t, TryReadWait)
    case (Outside, TryWrite) => At(s, t, TryWriteWait)
    case (Reader, Exit) => At(s, t, ReaderExit)
    case (Reader, TryUpgrade) => At(s, t, UpgradeTry)
    case (Writer, Exit) => At(s, t, WriterExit)
    case (Writer, Downgrade) => At(s, t, DowngradeSetType)
    case (_, _) => s
  }

  function Next(s: Rw, t: nat, act: Act): Rw
    requires t in s.threads
  {
    match act
    case Begin(call) => Enter(s, t, call)
    case Continue => Advance(s, t)
    case GiveUp => Abandon(s, t)
  }

  function Exec(s: Rw, schedule: seq<(nat, Act)>): Rw
    decreases |schedule|
  {
    if schedule == [] then s
    else
      var (t, act) := schedule[0];
      Exec(if t in s.threads then Next(s, t, act) else s, schedule[1..])
  }

  ghost predicate Initial(s: Rw) {
    s == Rw(Free, 0, None, false, None, s.threads, 0, 0, 0, 0) && forall t :: t in s.threads ==> s.threads[t] == Outside
  }

  // ----- the invariant

  /** The thread holds `wait`. */
  predicate HoldsWait(pc: Pc) {
    pc.EnterWriteAccess? || pc.WriteSetType? || pc.WriteLeaveWait? ||
    pc.EnterReadCount? || pc.FirstReaderAccess? || pc.ReadSetType? || pc.ReadLeaveWait? ||
    pc.TryWriteAccess? || pc.TryReadLoad? || pc.TryReadDecide? || pc.TryReadStore? || pc.TryFailed?
  }

  /** A downgraded writer on its way to give `access` to the first reader. */
  predicate Yielding(pc: Pc) {
    pc.DowngradeAccess? || pc.DowngradeRelease?
  }

  /** The last holder on its way to give `access` back. */
  predicate LastOut(pc: Pc) {
    pc.ExitAccess? || pc.ExitRelease?
  }

  /** The thread holds the lock for reading, or is about to return with it, or has not yet given it up. */
  predicate HoldsRead(pc: Pc) {
    pc.Reader? || pc.ReadLeaveWait? || pc.ReaderExit? || pc.ReaderUncount? || pc.UpgradeTry? || Yielding(pc)
  }

  /** The thread alone holds `access`, and no reader holds the lock. */
  predicate Exclusive(pc: Pc) {
    pc.WriteSetType? || pc.WriteLeaveWait? || pc.Writer? || pc.WriterExit? || pc.ExitSetType? || LastOut(pc) ||
    pc.DowngradeSetType? || pc.DowngradeCount? || pc.UpgradeSetType? || pc.TryReadStore?
  }

  /** The thread itself answers for `access`; otherwise the readers together do. */
  predicate Personal(pc: Pc) {
    Exclusive(pc) || pc.ReadSetType? || Yielding(pc)
  }

  predicate Counted(pc: Pc) {
    HoldsRead(pc) || pc.FirstReaderAccess? || pc.ReadSetType?
  }

  /** The first reader is waiting for `access`. */
  ghost predicate FirstBlocked(s: Rw) {
    s.wait.Some? && s.wait.value in s.threads && s.threads[s.wait.value].FirstReaderAccess?
  }

  /** Who is responsible for the held `access`. */
  ghost predicate Responsible(s: Rw, t: nat) {
    t in s.threads && (Personal(s.threads[t]) || (HoldsRead(s.threads[t]) && !FirstBlocked(s)))
  }

  /** Why the lock type need not be `Free`. */
  ghost predicate InUse(s: Rw, t: nat) {
    t in s.threads && (Counted(s.threads[t]) || (Personal(s.threads[t]) && !LastOut(s.threads[t])))
  }

  ghost predicate TypeOk(s: Rw, pc: Pc) {
    && (pc.WriteLeaveWait? || pc.Writer? || pc.WriterExit? || pc.DowngradeSetType? ==> s.lockType == Writeable)
    && (HoldsRead(pc) || pc.DowngradeCount? ==> s.lockType == Readable)
    && (LastOut(pc) ==> s.lockType == Free)
  }

  /** Two different threads never hold the lock in incompatible ways. */
  predicate Compatible(a: Pc, b: Pc) {
    && !(Personal(a) && Personal(b))
    && !(Exclusive(a) && HoldsRead(b)) && !(HoldsRead(a) && Exclusive(b))
    && !(Yielding(a) && HoldsRead(b)) && !(HoldsRead(a) && Yielding(b))
  }

  ghost predicate PairOk(s: Rw, t: nat, u: nat)
    requires t in s.threads && u in s.threads
  {
    t != u ==> Compatible(s.threads[t], s.threads[u])
  }

  ghost predicate ThreadOk(s: Rw, t: nat)
    requires t in s.threads
  {
    var pc := s.threads[t];
    && (HoldsWait(pc) <==> s.wait == Some(t))
    && (Personal(pc) ==> s.access)
    && (HoldsRead(pc) && !FirstBlocked(s) ==> s.access)
    && (Yielding(pc) ==> FirstBlocked(s))
    && (pc.ExitRelease? || pc.DowngradeRelease? ==> s.owner.None?)
    && TypeOk(s, pc)
  }

  ghost predicate Inv(s: Rw) {
    && (s.wait.Some? ==> s.wait.value in s.threads)
    && (forall t :: t in s.threads ==> ThreadOk(s, t))
    && (forall t, u :: t in s.threads && u in s.threads ==> PairOk(s, t, u))
    && s.readers == |Where(s.threads, Counted)|
    && (s.access ==> exists t :: Responsible(s, t))
    && (s.lockType != Free ==> exists t :: InUse(s, t))
    && (s.owner.Some? ==> s.access)
    && s.acquired == s.released + (if s.access then 1 else 0)
    && s.faults == 0
  }

  // ----- every step keeps the invariant

  /** What a step of thread `t` into `s'` has to show. */
  ghost predicate StepOk(s: Rw, t: nat, s': Rw)
    requires t in s.threads
  {
    && t in s'.threads && s'.threads == s.threads[t := s'.threads[t]]
    && s'.readers + (if Counted(s.threads[t]) then 1 else 0) == s.readers + (if Counted(s'.threads[t]) then 1 else 0)
    && (s'.wait.Some? ==> s'.wait.value in s.threads)
    && ThreadOk(s', t)
    && (forall u :: u in s.threads && u != t ==> ThreadOk(s', u) && PairOk(s', t, u))
    && (s'.access ==> exists u :: Responsible(s', u))
    && (s'.lockType != Free ==> exists u :: InUse(s', u))
    && (s'.owner.Some? ==> s'.access)
    && s'.acquired == s'.released + (if s'.access then 1 else 0)
    && s'.faults == 0
  }

  lemma StepKeeps(s: Rw, t: nat, s': Rw)
    requires Inv(s) && t in s.threads && StepOk(s, t, s')
    ensures Inv(s')
  {
    hide Where, ThreadOk;
    Recount(s.threads, Counted, t, s'.threads[t]);
    forall u, v | u in s'.threads && v in s'.threads ensures PairOk(s', u, v) {
      assert PairOk(s, u, v);
      assert u != t ==> PairOk(s', t, u);
      assert v != t ==> PairOk(s', t, v);
    }
  }

  /** Both places hold the lock in the same way. */
  predicate SameHold(was: Pc, pc: Pc) {
    && HoldsRead(was) == HoldsRead(pc)
    && Exclusive(was) == Exclusive(pc) && Personal(was) == Personal(pc)
    && was.FirstReaderAccess? == pc.FirstReaderAccess? && was.ReadSetType? == pc.ReadSetType?
    && Yielding(was) == Yielding(pc) && LastOut(was) == LastOut(pc)
  }

  lemma HoldKept(s: Rw, t: nat, s': Rw, u: nat)
    requires Inv(s) && t in s.threads && u in s.threads && u != t
    requires t in s'.threads && s' ==
      s.(threads := s.threads[t := s'.threads[t]], wait := s'.wait, owner := s'.owner, selfLocks := s'.selfLocks)
    requires SameHold(s.threads[t], s'.threads[t]) && FirstBlocked(s) == FirstBlocked(s')
    requires s'.owner == s.owner || s'.owner.None?
    requires s.wait == Some(u) <==> s'.wait == Some(u)
    ensures ThreadOk(s', u) && PairOk(s', t, u)
    ensures Responsible(s, u) ==> Responsible(s', u)
    ensures Responsible(s, t) ==> Responsible(s', t)
  {
    hide Where;
    assert ThreadOk(s, u) && PairOk(s, t, u);
  }

  /** Steps that leave the shared state alone: calls begin, a value is read, a try fails. */
  lemma MoveKeeps(s: Rw, t: nat, pc: Pc)
    requires Inv(s) && t in s.threads
    requires SameHold(s.threads[t], pc) && HoldsWait(s.threads[t]) == HoldsWait(pc) && TypeOk(s, pc)
    requires !pc.ExitRelease? && !pc.DowngradeRelease?
    ensures Inv(At(s, t, pc))
  {
    WaitKeeps(s, t, At(s, t, pc));
  }

  lemma WaitKeeps(s: Rw, t: nat, s': Rw)
    requires Inv(s) && t in s.threads
    requires t in s'.threads && s' ==
      s.(threads := s.threads[t := s'.threads[t]], wait := s'.wait, owner := s'.owner, selfLocks := s'.selfLocks)
    requires SameHold(s.threads[t], s'.threads[t]) && TypeOk(s, s'.threads[t]) &&
      (s'.owner == s.owner || s'.owner.None?)
    requires s'.threads[t].ExitRelease? || s'.threads[t].DowngradeRelease? ==> s'.owner.None?
    requires HoldsWait(s'.threads[t]) <==> s'.wait == Some(t)
    requires s'.wait == s.wait || (s.wait.None? && s'.wait == Some(t)) || (s.wait == Some(t) && s'.wait.None?)
    requires s'.wait != s.wait ==> !s.threads[t].FirstReaderAccess?
    ensures Inv(s')
  {
    hide Where;
    assert ThreadOk(s, t);
    assert FirstBlocked(s') == FirstBlocked(s);
    forall u | u in s.threads && u != t
      ensures ThreadOk(s', u) && PairOk(s', t, u) && (Responsible(s, u) ==> Responsible(s', u))
    {
      HoldKept(s, t, s', u);
    }
    if s.access {
      var u :| Responsible(s, u);
      assert Responsible(s', u);
    }
    if s.lockType != Free {
      var u :| InUse(s, u);
      assert InUse(s', u);
    }
    StepKeeps(s, t, s');
  }

  /** Entering the free `wait`. */
  lemma WaitEnterKeeps(s: Rw, t: nat, pc: Pc)
    requires Inv(s) && t in s.threads && s.wait.None?
    requires SameHold(s.threads[t], pc) && HoldsWait(pc) && !pc.FirstReaderAccess? && TypeOk(s, pc)
    ensures Inv(At(s, t, pc).(wait := Some(t)))
  {
    WaitKeeps(s, t, At(s, t, pc).(wait := Some(t)));
  }

  /** Exiting `wait`, into the lock or out of it. */
  lemma WaitExitKeeps(s: Rw, t: nat, pc: Pc)
    requires Inv(s) && t in s.threads && HoldsWait(s.threads[t])
    requires SameHold(s.threads[t], pc) && !HoldsWait(pc) && !pc.FirstReaderAccess? && TypeOk(s, pc)
    requires !pc.ExitRelease? && !pc.DowngradeRelease?
    ensures Inv(WaitExit(At(s, t, pc)))
  {
    assert ThreadOk(s, t);
    WaitKeeps(s, t, WaitExit(At(s, t, pc)));
  }

  /** Clearing the owner of `access`, before releasing it. */
  lemma ClearOwnerKeeps(s: Rw, t: nat, pc: Pc)
    requires Inv(s) && t in s.threads &&
      ((s.threads[t].ExitAccess? && pc.ExitRelease?) || (s.threads[t].DowngradeAccess? && pc.DowngradeRelease?))
    ensures Inv(At(s, t, pc).(owner := None))
  {
    assert ThreadOk(s, t);
    WaitKeeps(s, t, At(s, t, pc).(owner := None));
  }

  /** A panic at `try_enter` changes nothing else. */
  lemma SelfLockKeeps(s: Rw, t: nat)
    requires Inv(s) && t in s.threads
    ensures Inv(SelfLock(s))
  {
    assert ThreadOk(s, t);
    assert s.threads[t := s.threads[t]] == s.threads;
    WaitKeeps(s, t, SelfLock(s));
  }

  /** While a thread other than the first reader holds `wait`, a free `access` means no holder at all. */
  lemma FreeMeansFree(s: Rw, t: nat)
    requires Inv(s) && t in s.threads && HoldsWait(s.threads[t]) && !s.access
    ensures forall u :: u in s.threads ==> !Personal(s.threads[u])
    ensures !s.threads[t].FirstReaderAccess? ==> forall u :: u in s.threads ==> !Counted(s.threads[u])
  {
    assert ThreadOk(s, t);
    forall u | u in s.threads
      ensures !Personal(s.threads[u]) && (s.threads[t].FirstReaderAccess? || !Counted(s.threads[u]))
    {
      assert ThreadOk(s, u);
    }
  }

  /** Entering the free `access`. */
  lemma AccessEnterKeeps(s: Rw, t: nat, pc: Pc)
    requires Inv(s) && t in s.threads && !s.access
    requires var was := s.threads[t]; was.EnterWriteAccess? || was.TryWriteAccess? || was.TryReadDecide?
    requires pc.WriteSetType? || pc.TryReadStore?
    ensures Inv(AccessEnter(At(s, t, pc), t))
  {
    hide Where;
    var s' := AccessEnter(At(s, t, pc), t);
    FreeMeansFree(s, t);
    forall u | u in s.threads && u != t ensures ThreadOk(s', u) && PairOk(s', t, u) {
      assert ThreadOk(s, u);
    }
    assert ThreadOk(s, t);
    assert Responsible(s', t) && (InUse(s', t) || s'.lockType == Free);
    StepKeeps(s, t, s');
  }

  lemma FirstReaderEnterKeeps(s: Rw, t: nat)
    requires Inv(s) && t in s.threads && s.threads[t].FirstReaderAccess? && !s.access
    ensures Inv(AccessEnter(At(s, t, ReadSetType), t))
  {
    hide Where;
    var s' := AccessEnter(At(s, t, ReadSetType), t);
    FreeMeansFree(s, t);
    forall u | u in s.threads && u != t ensures ThreadOk(s', u) && PairOk(s', t, u) {
      assert ThreadOk(s, u);
    }
    assert ThreadOk(s, t);
    assert Responsible(s', t) && (InUse(s', t) || s'.lockType == Free);
    StepKeeps(s, t, s');
  }

  predicate TypeStep(was: Pc, pc: Pc, lockType: LockType) {
    match was
    case WriteSetType => pc == WriteLeaveWait && lockType == Writeable
    case UpgradeSetType => pc == Writer && lockType == Writeable
    case ExitSetType => pc == ExitAccess && lockType == Free
    case DowngradeSetType => pc == DowngradeCount && lockType == Readable
    case ReadSetType => pc == ReadLeaveWait && lockType == Readable
    case _ => false
  }

  /** The thread alone answers for `access` and stores a lock type. */
  lemma SetTypeKeeps(s: Rw, t: nat, pc: Pc, lockType: LockType)
    requires Inv(s) && t in s.threads
    requires TypeStep(s.threads[t], pc, lockType)
    ensures Inv(At(s, t, pc).(lockType := lockType))
  {
    hide Where;
    var s' := At(s, t, pc).(lockType := lockType);
    assert ThreadOk(s, t);
    forall u | u in s.threads && u != t ensures ThreadOk(s', u) && PairOk(s', t, u) {
      assert ThreadOk(s, u) && PairOk(s, t, u);
    }
    assert Responsible(s', t) && (InUse(s', t) || s'.lockType == Free);
    StepKeeps(s, t, s');
  }

  /** Another thread is counted while `t` holds `wait`: readers hold the lock, and hold `access` together. */
  lemma ReadersHold(s: Rw, t: nat)
    requires Inv(s) && t in s.threads && HoldsWait(s.threads[t]) && !Counted(s.threads[t]) && s.readers > 0
    ensures s.access && s.lockType == Readable
    ensures forall u :: u in s.threads ==> !Personal(s.threads[u])
  {
    hide Where;
    var v := AnotherThere(s.threads, Counted, t);
    assert ThreadOk(s, t) && ThreadOk(s, v);
    forall u | u in s.threads ensures !Personal(s.threads[u]) {
      assert ThreadOk(s, u) && PairOk(s, u, v);
    }
  }

  /** A further reader counts itself. */
  lemma JoinKeeps(s: Rw, t: nat)
    requires Inv(s) && t in s.threads && s.readers > 0
    requires s.threads[t].EnterReadCount? || s.threads[t].TryReadDecide?
    ensures Inv(At(s, t, ReadLeaveWait).(readers := s.readers + 1))
  {
    hide Where;
    var s' := At(s, t, ReadLeaveWait).(readers := s.readers + 1);
    ReadersHold(s, t);
    assert ThreadOk(s, t);
    forall u | u in s.threads && u != t ensures ThreadOk(s', u) && PairOk(s', t, u) {
      assert ThreadOk(s, u);
    }
    assert Responsible(s', t) && (InUse(s', t) || s'.lockType == Free);
    StepKeeps(s, t, s');
  }

  /** The first reader counts itself before it has `access`. */
  lemma FirstCountKeeps(s: Rw, t: nat)
    requires Inv(s) && t in s.threads && s.readers == 0 && s.threads[t].EnterReadCount?
    ensures Inv(At(s, t, FirstReaderAccess).(readers := 1))
  {
    hide Where;
    var s' := At(s, t, FirstReaderAccess).(readers := 1);
    NoneThere(s.threads, Counted);
    assert ThreadOk(s, t);
    forall u | u in s.threads && u != t ensures ThreadOk(s', u) && PairOk(s', t, u) {
      assert ThreadOk(s, u);
    }
    if s.access {
      var u :| Responsible(s, u);
      assert Responsible(s', u);
    }
    if s.lockType != Free {
      var u :| InUse(s, u);
      assert InUse(s', u);
    }
    StepKeeps(s, t, s');
  }

  /** `try_enter` sets the count to one: it was zero. */
  lemma StoreOneKeeps(s: Rw, t: nat)
    requires Inv(s) && t in s.threads && s.threads[t].TryReadStore?
    ensures s.readers == 0
    ensures Inv(At(s, t, ReadSetType).(readers := 1))
  {
    hide Where;
    var s' := At(s, t, ReadSetType).(readers := 1);
    assert ThreadOk(s, t);
    if s.readers > 0 {
      ReadersHold(s, t);
    }
    forall u | u in s.threads && u != t ensures ThreadOk(s', u) && PairOk(s', t, u) {
      assert ThreadOk(s, u) && PairOk(s, t, u);
    }
    assert Responsible(s', t) && (InUse(s', t) || s'.lockType == Free);
    StepKeeps(s, t, s');
  }

  /** The only counted thread, holding for reading: `access` is held, and nobody else has any claim on it. */
  lemma AloneHolds(s: Rw, t: nat)
    requires Inv(s) && t in s.threads && s.readers == 1 && HoldsRead(s.threads[t]) && !Personal(s.threads[t])
    ensures s.access && !FirstBlocked(s)
    ensures forall u :: u in s.threads && u != t ==> !Personal(s.threads[u]) && !Counted(s.threads[u])
  {
    hide Where;
    OneThere(s.threads, Counted, t);
    assert ThreadOk(s, t);
    forall u | u in s.threads && u != t ensures !Personal(s.threads[u]) {
      assert PairOk(s, t, u);
    }
  }

  /** The last reader leaves, or the only reader upgrades: it takes over `access`. */
  lemma TakeOverKeeps(s: Rw, t: nat, pc: Pc)
    requires Inv(s) && t in s.threads && s.readers == 1
    requires s.threads[t].ReaderUncount? || s.threads[t].UpgradeTry?
    requires pc.ExitSetType? || pc.UpgradeSetType?
    ensures Inv(At(s, t, pc).(readers := 0))
  {
    hide Where;
    var s' := At(s, t, pc).(readers := 0);
    AloneHolds(s, t);
    assert ThreadOk(s, t);
    forall u | u in s.threads && u != t ensures ThreadOk(s', u) && PairOk(s', t, u) {
      assert ThreadOk(s, u);
    }
    assert Responsible(s', t) && (InUse(s', t) || s'.lockType == Free);
    StepKeeps(s, t, s');
  }

  /** Whoever remains counted answers for `access` and the lock type. */
  lemma AnotherHolds(s: Rw, t: nat, s': Rw)
    requires Inv(s) && t in s.threads && s.readers > 1 && s.threads[t].ReaderUncount? &&
      FirstBlocked(s') == FirstBlocked(s)
    requires s' == At(s, t, Outside).(readers := s.readers - 1)
    ensures exists u :: InUse(s', u)
    ensures s.access ==> exists u :: Responsible(s', u)
  {
    hide Where, FirstBlocked;
    var v := AnotherThere(s.threads, Counted, t);
    assert ThreadOk(s, t) && ThreadOk(s, v) && PairOk(s, t, v) && InUse(s', v);
    if s.access {
      var u :| Responsible(s, u);
      assert Responsible(s', if u != t then u else v) by {
        if u == t && s.threads[v].FirstReaderAccess? {
          BlockedFirst(s, v);
        }
      }
    }
  }

  lemma BlockedFirst(s: Rw, v: nat)
    requires v in s.threads && ThreadOk(s, v) && s.threads[v].FirstReaderAccess?
    ensures FirstBlocked(s)
  {
  }

  /** A reader that is not the last leaves. */
  lemma LeaveKeeps(s: Rw, t: nat)
    requires Inv(s) && t in s.threads && s.readers > 1 && s.threads[t].ReaderUncount?
    ensures Inv(At(s, t, Outside).(readers := s.readers - 1))
  {
    hide Where;
    var s' := At(s, t, Outside).(readers := s.readers - 1);
    assert ThreadOk(s, t);
    assert FirstBlocked(s') == FirstBlocked(s);
    hide FirstBlocked;
    forall u | u in s.threads && u != t ensures ThreadOk(s', u) && PairOk(s', t, u) {
      assert ThreadOk(s, u);
    }
    AnotherHolds(s, t, s');
    hide ThreadOk;
    StepKeeps(s, t, s');
  }

  /** A writer becomes a reader; if a first reader is already waiting, it still has to give `access` up. */
  lemma DowngradeKeeps(s: Rw, t: nat)
    requires Inv(s) && t in s.threads && s.threads[t].DowngradeCount?
    ensures Inv(At(s, t, if s.readers != 0 then DowngradeAccess else Reader).(readers := s.readers + 1))
  {
    hide Where;
    var s' := At(s, t, if s.readers != 0 then DowngradeAccess else Reader).(readers := s.readers + 1);
    assert ThreadOk(s, t);
    if s.readers == 0 {
      NoneThere(s.threads, Counted);
    } else {
      var v := AnotherThere(s.threads, Counted, t);
      assert ThreadOk(s, v) && PairOk(s, t, v);
    }
    assert FirstBlocked(s') == FirstBlocked(s) == (s.readers != 0);
    forall u | u in s.threads && u != t ensures ThreadOk(s', u) && PairOk(s', t, u) {
      assert ThreadOk(s, u) && PairOk(s, t, u);
    }
    assert Responsible(s', t) && (InUse(s', t) || s'.lockType == Free);
    StepKeeps(s, t, s');
  }

  /** The last holder exits `access`, which it holds. */
  lemma LastExitKeeps(s: Rw, t: nat)
    requires Inv(s) && t in s.threads && s.threads[t].ExitRelease?
    ensures s.access && Inv(AccessExit(At(s, t, Outside)))
  {
    hide Where;
    var s' := AccessExit(At(s, t, Outside));
    assert ThreadOk(s, t);
    forall u | u in s.threads && u != t ensures ThreadOk(s', u) && PairOk(s', t, u) {
      assert ThreadOk(s, u) && PairOk(s, t, u);
    }
    StepKeeps(s, t, s');
  }

  /** The downgraded writer exits `access` for the first reader, which is waiting for it. */
  lemma HandOverKeeps(s: Rw, t: nat)
    requires Inv(s) && t in s.threads && s.threads[t].DowngradeRelease?
    ensures s.access && FirstBlocked(s) && Inv(AccessExit(At(s, t, Reader)))
  {
    hide Where;
    var s' := AccessExit(At(s, t, Reader));
    assert ThreadOk(s, t);
    forall u | u in s.threads && u != t ensures ThreadOk(s', u) && PairOk(s', t, u) {
      assert ThreadOk(s, u) && PairOk(s, t, u);
    }
    assert InUse(s', t);
    StepKeeps(s, t, s');
  }

  lemma AdvanceKeeps(s: Rw, t: nat)
    requires Inv(s) && t in s.threads
    ensures Inv(Advance(s, t))
  {
    hide Inv, Where, FirstBlocked, EffectTry;
    HeldFacts(s, t);
    MovedTwice(s.threads, t, s.threads[t], s.threads[t]);
    match s.threads[t]
    case EnterWriteWait => if s.wait.None? { WaitEnterKeeps(s, t, EnterWriteAccess); }
    case EnterWriteAccess => if !s.access { AccessEnterKeeps(s, t, WriteSetType); }
    case WriteSetType => SetTypeKeeps(s, t, WriteLeaveWait, Writeable);
    case WriteLeaveWait => WaitExitKeeps(s, t, Writer);
    case EnterReadWait => if s.wait.None? { WaitEnterKeeps(s, t, EnterReadCount); }
    case EnterReadCount => if s.readers == 0 { FirstCountKeeps(s, t); } else { JoinKeeps(s, t); }
    case FirstReaderAccess => if !s.access { FirstReaderEnterKeeps(s, t); }
    case ReadSetType => SetTypeKeeps(s, t, ReadLeaveWait, Readable);
    case ReadLeaveWait => WaitExitKeeps(s, t, Reader);
    case _ => AdvanceTryKeeps(s, t);
  }

  lemma AdvanceTryKeeps(s: Rw, t: nat)
    requires Inv(s) && t in s.threads
    ensures Inv(Put(t, EffectTry(s, t, s.threads[t])))
  {
    hide Inv, Where, FirstBlocked, EffectOut;
    HeldFacts(s, t);
    MovedTwice(s.threads, t, s.threads[t], s.threads[t]);
    match s.threads[t]
    case TryWriteWait =>
      if s.wait == Some(t) { SelfLockKeeps(s, t); } else if s.wait.None? { WaitEnterKeeps(s, t, TryWriteAccess); }
    case TryWriteAccess =>
      if s.owner == Some(t) { SelfLockKeeps(s, t); } else if !s.access { AccessEnterKeeps(s, t, WriteSetType); }
    case TryReadWait =>
      if s.wait == Some(t) { SelfLockKeeps(s, t); } else if s.wait.None? { WaitEnterKeeps(s, t, TryReadLoad); }
    case TryReadLoad => MoveKeeps(s, t, TryReadDecide(s.readers));
    case TryReadDecide(r) =>
      if r == 0 {
        if s.owner == Some(t) { SelfLockKeeps(s, t); } else if !s.access { AccessEnterKeeps(s, t, TryReadStore); }
      }
      else if s.readers == r { JoinKeeps(s, t); }
      else { MoveKeeps(s, t, TryReadDecide(s.readers)); }
    case TryReadStore => StoreOneKeeps(s, t);
    case TryFailed => WaitExitKeeps(s, t, Outside);
    case _ => AdvanceOutKeeps(s, t);
  }

  lemma AdvanceOutKeeps(s: Rw, t: nat)
    requires Inv(s) && t in s.threads
    ensures Inv(Put(t, EffectOut(s, t, s.threads[t])))
  {
    hide Inv, Where, FirstBlocked;
    HeldFacts(s, t);
    MovedTwice(s.threads, t, s.threads[t], s.threads[t]);
    match s.threads[t]
    case ReaderExit => MoveKeeps(s, t, ReaderUncount);
    case WriterExit => MoveKeeps(s, t, ExitSetType);
    case ReaderUncount => if s.readers == 1 { TakeOverKeeps(s, t, ExitSetType); } else { LeaveKeeps(s, t); }
    case ExitSetType => SetTypeKeeps(s, t, ExitAccess, Free);
    case ExitAccess => ClearOwnerKeeps(s, t, ExitRelease);
    case ExitRelease => LastExitKeeps(s, t);
    case DowngradeSetType => SetTypeKeeps(s, t, DowngradeCount, Readable);
    case DowngradeCount => DowngradeKeeps(s, t);
    case DowngradeAccess => ClearOwnerKeeps(s, t, DowngradeRelease);
    case DowngradeRelease => HandOverKeeps(s, t);
    case UpgradeTry => if s.readers == 1 { TakeOverKeeps(s, t, UpgradeSetType); } else { MoveKeeps(s, t, Reader); }
    case UpgradeSetType => SetTypeKeeps(s, t, Writer, Writeable);
    case _ =>
  }

  /** What a thread knows at its own place: `exit` takes the branch that matches its hold, and no count underflows. */
  lemma HeldFacts(s: Rw, t: nat)
    requires Inv(s) && t in s.threads
    ensures TypeOk(s, s.threads[t])
    ensures Counted(s.threads[t]) ==> s.readers > 0
  {
    assert ThreadOk(s, t);
    if Counted(s.threads[t]) {
      OneThere(s.threads, Counted, t);
    }
  }

  lemma EnterKeeps(s: Rw, t: nat, call: Call)
    requires Inv(s) && t in s.threads
    ensures Inv(Enter(s, t, call))
  {
    hide Inv, Where, FirstBlocked;
    HeldFacts(s, t);
    match s.threads[t]
    case Outside =>
      if call.EnterRead? { MoveKeeps(s, t, EnterReadWait); }
      else if call.EnterWrite? { MoveKeeps(s, t, EnterWriteWait); }
      else if call.TryRead? { MoveKeeps(s, t, TryReadWait); }
      else if call.TryWrite? { MoveKeeps(s, t, TryWriteWait); }
    case Reader =>
      if call.Exit? { MoveKeeps(s, t, ReaderExit); } else if call.TryUpgrade? { MoveKeeps(s, t, UpgradeTry); }
    case Writer =>
      if call.Exit? { MoveKeeps(s, t, WriterExit); } else if call.Downgrade? { MoveKeeps(s, t, DowngradeSetType); }
    case _ =>
  }

  lemma AbandonKeeps(s: Rw, t: nat)
    requires Inv(s) && t in s.threads
    ensures Inv(Abandon(s, t))
  {
    hide Inv, Where, FirstBlocked;
    HeldFacts(s, t);
    if Abandon(s, t) != s {
      MoveKeeps(s, t, Abandon(s, t).threads[t]);
    }
  }

  lemma NextKeeps(s: Rw, t: nat, act: Act)
    requires Inv(s) && t in s.threads
    ensures Inv(Next(s, t, act))
  {
    hide Inv, Advance, Enter, Abandon;
    match act
    case Begin(call) => EnterKeeps(s, t, call);
    case Continue => AdvanceKeeps(s, t);
    case GiveUp => AbandonKeeps(s, t);
  }

  /** Every interleaving of any number of threads keeps the invariant. */
  lemma {:induction false} ExecKeeps(s: Rw, schedule: seq<(nat, Act)>)
    requires Inv(s)
    ensures Inv(Exec(s, schedule))
    decreases |schedule|
  {
    if schedule == [] {
    } else {
      var (t, act) := schedule[0];
      if t in s.threads {
        NextKeeps(s, t, act);
      }
      ExecKeeps(if t in s.threads then Next(s, t, act) else s, schedule[1..]);
    }
  }

  lemma InitialInv(s: Rw)
    requires Initial(s)
    ensures Inv(s)
  {
    assert Where(s.threads, Counted) == {};
  }

  // ----- what holds in every reachable state

  /** A writer is alone: no other thread holds the lock in any way. */
  lemma WriterAlone(s: Rw, t: nat, u: nat)
    requires Inv(s) && t in s.threads && u in s.threads && t != u && s.threads[t].Writer?
    ensures !s.threads[u].Writer? && !HoldsRead(s.threads[u])
    ensures s.lockType == Writeable && s.access
  {
    assert ThreadOk(s, t) && PairOk(s, t, u);
  }

  /** When nobody is inside any call, the lock is as new: nothing leaks over any run. */
  lemma QuietIsNew(s: Rw)
    requires Inv(s) && forall t :: t in s.threads ==> s.threads[t].Outside?
    ensures s.lockType == Free && s.readers == 0 && s.wait.None? && !s.access && s.acquired == s.released
  {
    assert Where(s.threads, Counted) == {};
    assert s.wait.Some? ==> ThreadOk(s, s.wait.value);
  }

  /** The main result, for every interleaving of calls by legitimate holders. */
  lemma RunSafe(s: Rw, schedule: seq<(nat, Act)>)
    requires Initial(s)
    ensures var r := Exec(s, schedule);
      && r.faults == 0
      && r.readers == |Where(r.threads, Counted)|
      && r.acquired == r.released + (if r.access then 1 else 0)
      && (r.owner.Some? ==> r.access)
      && (forall t :: t in r.threads ==> (HoldsWait(r.threads[t]) <==> r.wait == Some(t)))
      && (forall t, u :: t in r.threads && u in r.threads && t != u && r.threads[t].Writer? ==>
            !r.threads[u].Writer? && !r.threads[u].Reader?)
      && (forall t :: t in r.threads && r.threads[t].Reader? ==> r.readers > 0 && r.lockType == Readable)
      && ((forall t :: t in r.threads ==> r.threads[t].Outside?) ==>
            r.lockType == Free && r.readers == 0 && r.wait.None? && !r.access)
  {
    InitialInv(s);
    ExecKeeps(s, schedule);
    var r := Exec(s, schedule);
    forall t | t in r.threads ensures HoldsWait(r.threads[t]) <==> r.wait == Some(t) {
      assert ThreadOk(r, t);
    }
    forall t, u | t in r.threads && u in r.threads && t != u && r.threads[t].Writer?
      ensures !r.threads[u].Writer? && !r.threads[u].Reader?
    {
      WriterAlone(r, t, u);
    }
    forall t | t in r.threads && r.threads[t].Reader? ensures r.readers > 0 && r.lockType == Readable {
      HeldFacts(r, t);
    }
    if forall t :: t in r.threads ==> r.threads[t].Outside? {
      QuietIsNew(r);
    }
  }

  // ----- when a try panics: the recorded owner of `access` may have left the lock to other readers

  predicate AtAccessTry(pc: Pc) {
    pc.TryWriteAccess? || pc == TryReadDecide(0)
  }

  predicate InTry(pc: Pc) {
    pc.TryWriteWait? || pc.TryWriteAccess? || pc.TryReadWait? || pc.TryReadLoad? || pc.TryReadDecide?
  }

  /** A step panics exactly if its thread reaches `access.try_enter` while recorded as its owner; `wait` never does. */
  lemma SelfLockIff(s: Rw, t: nat, act: Act)
    requires Inv(s) && t in s.threads
    ensures Next(s, t, act).selfLocks
         == s.selfLocks + if act.Continue? && AtAccessTry(s.threads[t]) && s.owner == Some(t) then 1 else 0
  {
    assert ThreadOk(s, t);
    assert s.threads[t].TryWriteWait? || s.threads[t].TryReadWait? ==> s.wait != Some(t);
    hide Inv, ThreadOk;
  }

  /** No step of the run is one of `access.try_enter` by the thread that is recorded as its owner. */
  ghost predicate NoOwnTry(s: Rw, schedule: seq<(nat, Act)>)
    decreases |schedule|
  {
    schedule == [] ||
    var (t, act) := schedule[0];
    && !(t in s.threads && act.Continue? && AtAccessTry(s.threads[t]) && s.owner == Some(t))
    && NoOwnTry(if t in s.threads then Next(s, t, act) else s, schedule[1..])
  }

  /** Over every run: no panic exactly if that never happens. */
  lemma {:induction false} NoSelfLockIff(s: Rw, schedule: seq<(nat, Act)>)
    requires Inv(s)
    ensures Exec(s, schedule).selfLocks >= s.selfLocks
    ensures Exec(s, schedule).selfLocks == s.selfLocks <==> NoOwnTry(s, schedule)
    decreases |schedule|
  {
    hide Inv, Next;
    if schedule == [] {
    } else {
      var (t, act) := schedule[0];
      if t in s.threads {
        NextKeeps(s, t, act);
        SelfLockIff(s, t, act);
      }
      NoSelfLockIff(if t in s.threads then Next(s, t, act) else s, schedule[1..]);
    }
  }

  /** No try of the run is begun by the thread that is recorded as the owner of `access`. */
  ghost predicate NoOwnerTries(s: Rw, schedule: seq<(nat, Act)>)
    decreases |schedule|
  {
    schedule == [] ||
    var (t, act) := schedule[0];
    && (t in s.threads && s.owner == Some(t) ==> act != Begin(TryRead) && act != Begin(TryWrite))
    && NoOwnerTries(if t in s.threads then Next(s, t, act) else s, schedule[1..])
  }

  ghost predicate TriesClean(s: Rw) {
    forall t :: t in s.threads && InTry(s.threads[t]) ==> s.owner != Some(t)
  }

  /** A step moves its own thread, and only that thread can make itself the owner: by entering `access`. */
  ghost predicate OwnStep(s: Rw, t: nat, act: Act, r: Rw)
    requires t in s.threads
  {
    && (forall u :: u in r.threads <==> u in s.threads)
    && (forall u :: u in s.threads && u != t ==> r.threads[u] == s.threads[u])
    && (r.owner == s.owner || r.owner.None? || (r.owner == Some(t) && !InTry(r.threads[t])))
    && (InTry(r.threads[t]) ==> InTry(s.threads[t]) || act == Begin(TryRead) || act == Begin(TryWrite))
  }

  lemma Moved(s: Rw, t: nat, act: Act, r: Rw, pc: Pc)
    requires t in s.threads && r.threads == s.threads[t := pc]
    requires r.owner == s.owner || r.owner.None? || (r.owner == Some(t) && !InTry(pc))
    requires InTry(pc) ==> InTry(s.threads[t]) || act == Begin(TryRead) || act == Begin(TryWrite)
    ensures OwnStep(s, t, act, r)
  {
  }

  lemma OwnSteps(s: Rw, t: nat, act: Act)
    requires t in s.threads
    ensures OwnStep(s, t, act, Next(s, t, act))
  {
    hide OwnStep, Advance;
    Moved(s, t, act, s, s.threads[t]);
    var r := Next(s, t, act);
    match act
    case Continue => OwnAdvance(s, t);
    case Begin(call) =>
      match s.threads[t] {
        case Outside =>
          if call.EnterRead? { Moved(s, t, act, r, EnterReadWait); }
          else if call.EnterWrite? { Moved(s, t, act, r, EnterWriteWait); }
          else if call.TryRead? { Moved(s, t, act, r, TryReadWait); }
          else if call.TryWrite? { Moved(s, t, act, r, TryWriteWait); }
        case Reader =>
          if call.Exit? { Moved(s, t, act, r, ReaderExit); }
          else if call.TryUpgrade? { Moved(s, t, act, r, UpgradeTry); }
        case Writer =>
          if call.Exit? { Moved(s, t, act, r, WriterExit); }
          else if call.Downgrade? { Moved(s, t, act, r, DowngradeSetType); }
        case _ =>
      }
    case GiveUp =>
      if r != s {
        Moved(s, t, act, r, if s.threads[t].TryWriteWait? || s.threads[t].TryReadWait? then Outside else TryFailed);
      }
  }

  lemma OwnAdvance(s: Rw, t: nat)
    requires t in s.threads
    ensures OwnStep(s, t, Continue, Advance(s, t))
  {
    EffectThreads(s, t, s.threads[t]);
    EffectOwner(s, t, s.threads[t]);
    hide OwnStep, Effect;
    Moved(s, t, Continue, Advance(s, t), Effect(s, t, s.threads[t]).1);
  }

  lemma EffectThreads(s: Rw, t: nat, pc: Pc)
    ensures Effect(s, t, pc).0.threads == s.threads
  {
  }

  lemma EffectOwner(s: Rw, t: nat, pc: Pc)
    ensures var (r, pc') := Effect(s, t, pc);
      && (r.owner == s.owner || r.owner.None? || (r.owner == Some(t) && !InTry(pc')))
      && (InTry(pc') ==> InTry(pc))
  {
  }

  lemma CleanStep(s: Rw, t: nat, act: Act)
    requires t in s.threads && TriesClean(s)
    requires s.owner == Some(t) ==> act != Begin(TryRead) && act != Begin(TryWrite)
    ensures TriesClean(Next(s, t, act))
  {
    OwnSteps(s, t, act);
    hide Next;
  }

  /** What a caller can do about it: a run without tries by the recorded owner never panics. */
  lemma {:induction false} NoOwnerTriesIsSafe(s: Rw, schedule: seq<(nat, Act)>)
    requires Inv(s) && TriesClean(s) && NoOwnerTries(s, schedule)
    ensures Exec(s, schedule).selfLocks == s.selfLocks
    decreases |schedule|
  {
    hide Inv, Next, TriesClean;
    if schedule == [] {
    } else {
      var (t, act) := schedule[0];
      if t in s.threads {
        NextKeeps(s, t, act);
        CleanStep(s, t, act);
        SelfLockIff(s, t, act);
        assert AtAccessTry(s.threads[t]) ==> s.owner != Some(t) by {
          CleanAt(s, t);
        }
      }
      NoOwnerTriesIsSafe(if t in s.threads then Next(s, t, act) else s, schedule[1..]);
    }
  }

  lemma CleanAt(s: Rw, t: nat)
    requires TriesClean(s) && t in s.threads
    ensures AtAccessTry(s.threads[t]) ==> s.owner != Some(t)
  {
  }

  /** An uninterrupted try from outside panics exactly if the caller is the recorded owner ... */
  lemma TryWritePanicsIff(s: Rw, t: nat)
    requires t in s.threads && s.threads[t].Outside? && s.wait.None?
    ensures var w := Next(Next(s, t, Begin(TryWrite)), t, Continue);
      t in w.threads && (Next(w, t, Continue).selfLocks > s.selfLocks <==> s.owner == Some(t))
  {
    var v := Next(s, t, Begin(TryWrite));
    assert v == At(s, t, TryWriteWait);
    var w := Next(v, t, Continue);
    assert w == At(v, t, TryWriteAccess).(wait := Some(t));
  }

  /** ... and, for reading, no reader is there to join. */
  lemma TryReadPanicsIff(s: Rw, t: nat)
    requires t in s.threads && s.threads[t].Outside? && s.wait.None?
    ensures var r := Next(Next(Next(s, t, Begin(TryRead)), t, Continue), t, Continue);
      t in r.threads && (Next(r, t, Continue).selfLocks > s.selfLocks <==> s.owner == Some(t) && s.readers == 0)
  {
    var v := Next(s, t, Begin(TryRead));
    assert v == At(s, t, TryReadWait);
    var w := Next(v, t, Continue);
    assert w == At(v, t, TryReadLoad).(wait := Some(t));
    var r := Next(w, t, Continue);
    assert r == At(w, t, TryReadDecide(s.readers));
  }

  lemma {:induction false} Then(s: Rw, x: seq<(nat, Act)>, t: nat, act: Act) returns (y: seq<(nat, Act)>)
    requires t in Exec(s, x).threads
    ensures y == x + [(t, act)] && Exec(s, y) == Next(Exec(s, x), t, act)
    decreases |x|
  {
    y := x + [(t, act)];
    if x == [] {
      assert y[1..] == [];
    } else {
      var s' := if x[0].0 in s.threads then Next(s, x[0].0, x[0].1) else s;
      var rest := Then(s', x[1..], t, act);
      assert y[1..] == rest;
    }
  }

  /** A thread enters the free lock for reading. */
  lemma FirstReads(s: Rw, x: seq<(nat, Act)>, a: nat) returns (y: seq<(nat, Act)>)
    requires var e := Exec(s, x);
      a in e.threads && e.threads[a].Outside? && e.wait.None? && !e.access && e.readers == 0
    ensures var e, f := Exec(s, x), Exec(s, y);
      && f.threads == e.threads[a := Reader] && f.wait.None? && f.readers == 1 && f.lockType == Readable
      && f.owner == Some(a) && f.selfLocks == e.selfLocks
  {
    hide Exec;
    y := Then(s, x, a, Begin(EnterRead));
    y := Then(s, y, a, Continue);
    y := Then(s, y, a, Continue);
    y := Then(s, y, a, Continue);
    y := Then(s, y, a, Continue);
    y := Then(s, y, a, Continue);
  }

  /** Another thread joins it. */
  lemma SecondReads(s: Rw, x: seq<(nat, Act)>, b: nat) returns (y: seq<(nat, Act)>)
    requires var e := Exec(s, x); b in e.threads && e.threads[b].Outside? && e.wait.None? && e.readers == 1
    ensures var e, f := Exec(s, x), Exec(s, y);
      && f.threads == e.threads[b := Reader] && f.wait.None? && f.readers == 2 && f.lockType == e.lockType
      && f.owner == e.owner && f.selfLocks == e.selfLocks
  {
    hide Exec;
    y := Then(s, x, b, Begin(EnterRead));
    y := Then(s, y, b, Continue);
    y := Then(s, y, b, Continue);
    y := Then(s, y, b, Continue);
  }

  /** The first leaves: it is still recorded as the owner of `access`. */
  lemma FirstLeaves(s: Rw, x: seq<(nat, Act)>, a: nat) returns (y: seq<(nat, Act)>)
    requires var e := Exec(s, x); a in e.threads && e.threads[a].Reader? && e.readers == 2 && e.lockType == Readable
    ensures var e, f := Exec(s, x), Exec(s, y);
      && f.threads == e.threads[a := Outside] && f.wait == e.wait && f.owner == e.owner && f.selfLocks == e.selfLocks
  {
    hide Exec;
    y := Then(s, x, a, Begin(Exit));
    y := Then(s, y, a, Continue);
    y := Then(s, y, a, Continue);
  }

  /** Two threads are enough: one reads first and leaves while the other reads, and its next try panics. */
  lemma OwnerTryPanics(s: Rw, a: nat, b: nat) returns (schedule: seq<(nat, Act)>)
    requires Initial(s) && a in s.threads && b in s.threads && a != b
    ensures Exec(s, schedule).selfLocks > 0
  {
    assert Exec(s, []) == s;
    schedule := FirstReads(s, [], a);
    schedule := SecondReads(s, schedule, b);
    schedule := FirstLeaves(s, schedule, a);
    hide Exec;
    schedule := Then(s, schedule, a, Begin(TryWrite));
    schedule := Then(s, schedule, a, Continue);
    schedule := Then(s, schedule, a, Continue);
  }

  /** A thread that is alone holds the lock whenever it is recorded as the owner, so it is not trying. */
  lemma AloneIsClean(s: Rw, t: nat)
    requires Inv(s) && s.threads.Keys == {t}
    ensures AtAccessTry(s.threads[t]) ==> s.owner != Some(t)
  {
    hide Where;
    if s.owner == Some(t) {
      var u :| Responsible(s, u);
      assert u in s.threads.Keys && u == t;
    }
  }

  lemma {:induction false} AloneIsSafe(s: Rw, t: nat, schedule: seq<(nat, Act)>)
    requires Inv(s) && s.threads.Keys == {t}
    ensures Exec(s, schedule).selfLocks == s.selfLocks
    decreases |schedule|
  {
    hide Inv;
    if schedule == [] {
    } else {
      var (u, act) := schedule[0];
      assert u in s.threads <==> u == t by {
        assert u in s.threads <==> u in s.threads.Keys;
      }
      var s' := if u in s.threads then Next(s, u, act) else s;
      if u in s.threads {
        NextKeeps(s, t, act);
        AloneIsClean(s, t);
        SelfLockIff(s, t, act);
        KeysKept(s, t, act);
      }
      AloneIsSafe(s', t, schedule[1..]);
    }
  }

  lemma KeysKept(s: Rw, t: nat, act: Act)
    requires t in s.threads
    ensures Next(s, t, act).threads.Keys == s.threads.Keys
  {
    OwnSteps(s, t, act);
    hide Next;
  }

  /** Whether a program is safe from the panic is decided by its number of threads. */
  lemma NoSelfLockIffAlone(s: Rw)
    requires Initial(s)
    ensures (forall schedule :: Exec(s, schedule).selfLocks == 0) <==> |s.threads| <= 1
  {
    hide Exec, Where;
    if |s.threads| <= 1 {
      forall schedule ensures Exec(s, schedule).selfLocks == 0 {
        if s.threads.Keys == {} {
          EmptyIsStill(s, schedule);
        } else {
          var t :| t in s.threads.Keys;
          assert s.threads.Keys == {t} by {
            assert |s.threads.Keys - {t}| == 0;
          }
          InitialInv(s);
          AloneIsSafe(s, t, schedule);
        }
      }
    } else {
      var a :| a in s.threads.Keys;
      assert |s.threads.Keys - {a}| == |s.threads| - 1;
      var b :| b in s.threads.Keys - {a};
      var schedule := OwnerTryPanics(s, a, b);
    }
  }

  lemma {:induction false} EmptyIsStill(s: Rw, schedule: seq<(nat, Act)>)
    requires s.threads.Keys == {}
    ensures Exec(s, schedule) == s
    decreases |schedule|
  {
    if schedule != [] {
      EmptyIsStill(s, schedule[1..]);
    }
  }
}
