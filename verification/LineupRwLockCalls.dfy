/**
 What the calls of the user-level reader-writer lock do when nobody interferes: the state each of
 them ends in, and what the tries answer, from every state that a run can reach.
 */
module LineupRwLockCalls {
  import opened Counting
  import opened LineupRwLock

  /** The thread goes on for `n` steps, undisturbed. */
  function Go(s: Rw, t: nat, n: nat): Rw
    decreases n
  {
    if n == 0 || t !in s.threads then s else Go(Advance(s, t), t, n - 1)
  }

  /** One step, with the place of the thread kept apart. */
  lemma GoTo(s: Rw, t: nat, pc: Pc, r: Rw, pc': Pc, n: nat)
    requires t in s.threads && n > 0 && Effect(s, t, pc) == (r, pc')
    ensures r.threads == s.threads && Go(At(s, t, pc), t, n) == Go(At(r, t, pc'), t, n - 1)
  {
    EffectThreads(s, t, pc);
    EffectAside(s, t, pc);
    hide Effect;
    MovedTwice(s.threads, t, pc, pc');
  }

  /** The same for a step on the way out, and in a try. */
  lemma GoOut(s: Rw, t: nat, pc: Pc, r: Rw, pc': Pc, n: nat)
    requires t in s.threads && n > 0 && LeavesLock(pc) && EffectOut(s, t, pc) == (r, pc')
    ensures r.threads == s.threads && Go(At(s, t, pc), t, n) == Go(At(r, t, pc'), t, n - 1)
  {
    hide EffectOut, Go;
    GoTo(s, t, pc, r, pc', n);
  }

  predicate LeavesLock(pc: Pc) {
    pc.ReaderExit? || pc.ReaderUncount? || pc.WriterExit? || pc.ExitSetType? || LastOut(pc) ||
    pc.DowngradeSetType? || pc.DowngradeCount? || Yielding(pc) || pc.UpgradeTry? || pc.UpgradeSetType?
  }

  lemma GoTry(s: Rw, t: nat, pc: Pc, r: Rw, pc': Pc, n: nat)
    requires t in s.threads && n > 0 && (InTry(pc) || pc.TryReadStore? || pc.TryFailed?)
    requires EffectTry(s, t, pc) == (r, pc')
    ensures r.threads == s.threads && Go(At(s, t, pc), t, n) == Go(At(r, t, pc'), t, n - 1)
  {
    hide EffectTry, Go;
    GoTo(s, t, pc, r, pc', n);
  }

  /** A step does not look at the places of others. */
  lemma EffectAside(s: Rw, t: nat, pc: Pc)
    ensures Aside(s, t, pc, Effect(s, t, pc), Effect(At(s, t, pc), t, pc))
  {
    TryAside(s, t, pc);
    hide EffectTry;
  }

  ghost predicate Aside(s: Rw, t: nat, pc: Pc, e: (Rw, Pc), e': (Rw, Pc)) {
    e' == (e.0.(threads := s.threads[t := pc]), e.1)
  }

  lemma TryAside(s: Rw, t: nat, pc: Pc)
    ensures Aside(s, t, pc, EffectTry(s, t, pc), EffectTry(At(s, t, pc), t, pc))
  {
    OutAside(s, t, pc);
    hide EffectOut;
  }

  lemma OutAside(s: Rw, t: nat, pc: Pc)
    ensures Aside(s, t, pc, EffectOut(s, t, pc), EffectOut(At(s, t, pc), t, pc))
  {
  }

  /** And a call that has ended stays ended. */
  lemma Ended(s: Rw, t: nat, pc: Pc)
    requires t in s.threads
    ensures Go(At(s, t, pc), t, 0) == At(s, t, pc)
    ensures s.threads[t] == pc ==> At(s, t, pc) == s
  {
    MovedTwice(s.threads, t, pc, pc);
  }

  // ----- who holds the lock

  /** `access` is held exactly if somebody answers for it. */
  lemma AccessIffHeld(s: Rw)
    requires Inv(s)
    ensures s.access <==> exists u :: Responsible(s, u)
  {
    hide Where;
    if u :| Responsible(s, u) {
      assert ThreadOk(s, u);
    }
  }

  /** A counted thread is the only one exactly if the count is one. */
  lemma OnlyOne(s: Rw, t: nat)
    requires Inv(s) && t in s.threads && Counted(s.threads[t])
    ensures s.readers >= 1
    ensures s.readers == 1 <==> forall u :: u in s.threads && u != t ==> !Counted(s.threads[u])
  {
    OneThere(s.threads, Counted, t);
    if forall u :: u in s.threads && u != t ==> !Counted(s.threads[u]) {
      assert Where(s.threads, Counted) == {t};
    }
  }

  /** Nobody is counted exactly if the count is zero. */
  lemma NoReader(s: Rw)
    requires Inv(s)
    ensures s.readers == 0 <==> forall u :: u in s.threads ==> !Counted(s.threads[u])
  {
    if s.readers == 0 {
      NoneThere(s.threads, Counted);
    } else {
      var u :| u in Where(s.threads, Counted);
    }
  }

  /** A call begins. */
  lemma Begins(s: Rw, t: nat, call: Call, pc: Pc)
    requires t in s.threads && Enter(s, t, call) == At(s, t, pc)
    ensures Next(s, t, Begin(call)) == At(s, t, pc)
  {
  }

  lemma HoldsAccess(s: Rw, t: nat)
    requires Inv(s) && t in s.threads
    requires s.threads[t].Writer? || (s.threads[t].Reader? && s.readers == 1)
    ensures s.access
  {
    hide Where;
    assert ThreadOk(s, t);
    if s.threads[t].Reader? {
      AloneHolds(s, t);
    }
  }

  // ----- enter and try_enter

  /** The state of the lock after a thread has entered for writing. */
  function Written(s: Rw, t: nat): Rw {
    AccessEnter(s, t).(lockType := Writeable)
  }

  lemma EnterWriteAlone(s: Rw, t: nat)
    requires t in s.threads && s.threads[t].Outside? && s.wait.None? && !s.access
    ensures Go(Next(s, t, Begin(EnterWrite)), t, 4) == At(Written(s, t), t, Writer)
  {
    hide Go, Advance, Abandon;
    Begins(s, t, EnterWrite, EnterWriteWait);
    hide Next;
    var w := s.(wait := Some(t));
    GoTo(s, t, EnterWriteWait, w, EnterWriteAccess, 4);
    GoTo(w, t, EnterWriteAccess, AccessEnter(w, t), WriteSetType, 3);
    GoTo(AccessEnter(w, t), t, WriteSetType, Written(w, t), WriteLeaveWait, 2);
    GoTo(Written(w, t), t, WriteLeaveWait, Written(s, t), Writer, 1);
    Ended(Written(s, t), t, Writer);
  }

  lemma TryWriteAlone(s: Rw, t: nat)
    requires t in s.threads && s.threads[t].Outside? && s.wait.None? && !s.access && s.owner != Some(t)
    ensures Go(Next(s, t, Begin(TryWrite)), t, 4) == At(Written(s, t), t, Writer)
  {
    hide Go, Advance, Abandon, EffectOut;
    Begins(s, t, TryWrite, TryWriteWait);
    hide Next;
    var w := s.(wait := Some(t));
    GoTry(s, t, TryWriteWait, w, TryWriteAccess, 4);
    GoTry(w, t, TryWriteAccess, AccessEnter(w, t), WriteSetType, 3);
    GoTo(AccessEnter(w, t), t, WriteSetType, Written(w, t), WriteLeaveWait, 2);
    GoTo(Written(w, t), t, WriteLeaveWait, Written(s, t), Writer, 1);
    Ended(Written(s, t), t, Writer);
  }

  /** The state of the lock after the first reader has entered. */
  function FirstRead(s: Rw, t: nat): Rw {
    AccessEnter(s, t).(lockType := Readable, readers := 1)
  }

  lemma EnterReadFirst(s: Rw, t: nat)
    requires t in s.threads && s.threads[t].Outside? && s.wait.None? && !s.access && s.readers == 0
    ensures Go(Next(s, t, Begin(EnterRead)), t, 5) == At(FirstRead(s, t), t, Reader)
  {
    hide Go, Advance, Abandon;
    Begins(s, t, EnterRead, EnterReadWait);
    hide Next;
    var w := s.(wait := Some(t));
    var c := w.(readers := 1);
    GoTo(s, t, EnterReadWait, w, EnterReadCount, 5);
    GoTo(w, t, EnterReadCount, c, FirstReaderAccess, 4);
    GoTo(c, t, FirstReaderAccess, AccessEnter(c, t), ReadSetType, 3);
    GoTo(AccessEnter(c, t), t, ReadSetType, FirstRead(w, t), ReadLeaveWait, 2);
    GoTo(FirstRead(w, t), t, ReadLeaveWait, FirstRead(s, t), Reader, 1);
    Ended(FirstRead(s, t), t, Reader);
  }

  lemma TryReadFirst(s: Rw, t: nat)
    requires t in s.threads && s.threads[t].Outside? && s.wait.None? && !s.access && s.readers == 0
    requires s.owner != Some(t)
    ensures Go(Next(s, t, Begin(TryRead)), t, 6) == At(FirstRead(s, t), t, Reader)
  {
    hide Go, Advance, Abandon, EffectOut;
    Begins(s, t, TryRead, TryReadWait);
    hide Next;
    var w := s.(wait := Some(t));
    GoTry(s, t, TryReadWait, w, TryReadLoad, 6);
    GoTry(w, t, TryReadLoad, w, TryReadDecide(0), 5);
    GoTry(w, t, TryReadDecide(0), AccessEnter(w, t), TryReadStore, 4);
    ReadStores(AccessEnter(w, t), t);
  }

  lemma ReadStores(s: Rw, t: nat)
    requires t in s.threads && s.wait == Some(t)
    ensures Go(At(s, t, TryReadStore), t, 3) == At(s.(readers := 1, lockType := Readable, wait := None), t, Reader)
  {
    hide Go, Advance, EffectOut;
    var c := s.(readers := 1);
    var r := c.(lockType := Readable);
    GoTry(s, t, TryReadStore, c, ReadSetType, 3);
    GoTo(c, t, ReadSetType, r, ReadLeaveWait, 2);
    GoTo(r, t, ReadLeaveWait, r.(wait := None), Reader, 1);
    Ended(r.(wait := None), t, Reader);
  }

  /** A further reader only counts itself. */
  lemma EnterReadJoins(s: Rw, t: nat)
    requires t in s.threads && s.threads[t].Outside? && s.wait.None? && s.readers > 0
    ensures Go(Next(s, t, Begin(EnterRead)), t, 3) == At(s.(readers := s.readers + 1), t, Reader)
  {
    hide Go, Advance, Abandon;
    Begins(s, t, EnterRead, EnterReadWait);
    hide Next;
    var w, r := s.(wait := Some(t)), s.(readers := s.readers + 1);
    GoTo(s, t, EnterReadWait, w, EnterReadCount, 3);
    GoTo(w, t, EnterReadCount, w.(readers := s.readers + 1), ReadLeaveWait, 2);
    GoTo(w.(readers := s.readers + 1), t, ReadLeaveWait, r, Reader, 1);
    Ended(r, t, Reader);
  }

  lemma TryReadJoins(s: Rw, t: nat)
    requires t in s.threads && s.threads[t].Outside? && s.wait.None? && s.readers > 0
    ensures Go(Next(s, t, Begin(TryRead)), t, 4) == At(s.(readers := s.readers + 1), t, Reader)
  {
    hide Go, Advance, Abandon, EffectOut;
    Begins(s, t, TryRead, TryReadWait);
    hide Next;
    var w, r := s.(wait := Some(t)), s.(readers := s.readers + 1);
    GoTry(s, t, TryReadWait, w, TryReadLoad, 4);
    GoTry(w, t, TryReadLoad, w, TryReadDecide(s.readers), 3);
    GoTry(w, t, TryReadDecide(s.readers), w.(readers := s.readers + 1), ReadLeaveWait, 2);
    GoTo(w.(readers := s.readers + 1), t, ReadLeaveWait, r, Reader, 1);
    Ended(r, t, Reader);
  }

  // ----- upgrade, downgrade and exit

  /** The only reader becomes the writer; one of several stays what it is, and nothing else changes. */
  lemma UpgradeAnswers(s: Rw, t: nat)
    requires Inv(s) && t in s.threads && s.threads[t].UpgradeTry?
    ensures
      if forall u :: u in s.threads && u != t ==> !Counted(s.threads[u])
      then Go(s, t, 2) == At(s.(readers := 0, lockType := Writeable), t, Writer)
      else Go(s, t, 1) == At(s, t, Reader)
  {
    hide Inv, Go;
    OnlyOne(s, t);
    Ended(s, t, UpgradeTry);
    if s.readers == 1 {
      UpgradeWins(s, t);
    } else {
      UpgradeLoses(s, t);
    }
  }

  lemma UpgradeWins(s: Rw, t: nat)
    requires t in s.threads && s.readers == 1
    ensures Go(At(s, t, UpgradeTry), t, 2) == At(s.(readers := 0, lockType := Writeable), t, Writer)
  {
    hide Go, Advance, Effect;
    var r := s.(readers := 0);
    var w := r.(lockType := Writeable);
    assert EffectOut(s, t, UpgradeTry) == (r, UpgradeSetType);
    assert EffectOut(r, t, UpgradeSetType) == (w, Writer);
    hide EffectOut;
    GoOut(s, t, UpgradeTry, r, UpgradeSetType, 2);
    GoOut(r, t, UpgradeSetType, w, Writer, 1);
    Ended(w, t, Writer);
  }

  lemma UpgradeLoses(s: Rw, t: nat)
    requires t in s.threads && s.readers != 1
    ensures Go(At(s, t, UpgradeTry), t, 1) == At(s, t, Reader)
  {
    hide Go, Advance, Effect;
    GoOut(s, t, UpgradeTry, s, Reader, 1);
    Ended(s, t, Reader);
  }

  /** The whole call, from a reader. */
  lemma UpgradeAlone(s: Rw, t: nat)
    requires Inv(s) && t in s.threads && s.threads[t].Reader?
    ensures
      var s0 := Next(s, t, Begin(TryUpgrade));
      if forall u :: u in s.threads && u != t ==> !Counted(s.threads[u])
      then Go(s0, t, 2) == At(s.(readers := 0, lockType := Writeable), t, Writer)
      else Go(s0, t, 1) == s
  {
    hide Inv, Go, Advance, Abandon;
    Begins(s, t, TryUpgrade, UpgradeTry);
    NextKeeps(s, t, Begin(TryUpgrade));
    hide Next;
    UpgradeAnswers(At(s, t, UpgradeTry), t);
    MovedTwice(s.threads, t, UpgradeTry, Writer);
    MovedTwice(s.threads, t, UpgradeTry, Reader);
    Ended(s, t, Reader);
  }

  /** A writer becomes the only reader, or one beside a first reader that is waiting, to which it leaves `access`. */
  lemma DowngradeAlone(s: Rw, t: nat)
    requires Inv(s) && t in s.threads && s.threads[t].Writer?
    ensures
      var s0, r := Next(s, t, Begin(Downgrade)), s.(lockType := Readable, readers := s.readers + 1);
      if forall u :: u in s.threads ==> !Counted(s.threads[u])
      then Go(s0, t, 2) == At(r, t, Reader)
      else Go(s0, t, 4) == At(r.(owner := None, access := false, released := s.released + 1), t, Reader)
  {
    hide Inv, Go, Advance, Abandon, Effect;
    NoReader(s);
    HoldsAccess(s, t);
    Begins(s, t, Downgrade, DowngradeSetType);
    hide Next;
    var d := s.(lockType := Readable);
    var r := d.(readers := s.readers + 1);
    if s.readers == 0 {
      GoOut(s, t, DowngradeSetType, d, DowngradeCount, 2);
      GoOut(d, t, DowngradeCount, r, Reader, 1);
      Ended(r, t, Reader);
    } else {
      GoOut(s, t, DowngradeSetType, d, DowngradeCount, 4);
      GoOut(d, t, DowngradeCount, r, DowngradeAccess, 3);
      Yields(r, t);
    }
  }

  lemma Yields(s: Rw, t: nat)
    requires t in s.threads && s.access
    ensures Go(At(s, t, DowngradeAccess), t, 2) ==
      At(s.(owner := None, access := false, released := s.released + 1), t, Reader)
  {
    hide Go, Advance, Effect;
    var o := s.(owner := None);
    var r := o.(access := false, released := s.released + 1);
    GoOut(s, t, DowngradeAccess, o, DowngradeRelease, 2);
    GoOut(o, t, DowngradeRelease, r, Reader, 1);
    Ended(r, t, Reader);
  }

  /** The lock given back by its last holder. */
  function Freed(s: Rw): Rw {
    s.(lockType := Free, owner := None, access := false, released := s.released + 1)
  }

  lemma LastExits(s: Rw, t: nat)
    requires t in s.threads && s.access
    ensures Go(At(s, t, ExitSetType), t, 3) == At(Freed(s), t, Outside)
  {
    hide Go, Advance, Effect;
    var f := s.(lockType := Free);
    GoOut(s, t, ExitSetType, f, ExitAccess, 3);
    Releases(f, t);
  }

  lemma Releases(s: Rw, t: nat)
    requires t in s.threads && s.access
    ensures Go(At(s, t, ExitAccess), t, 2) ==
      At(s.(owner := None, access := false, released := s.released + 1), t, Outside)
  {
    hide Go, Advance, Effect;
    var o := s.(owner := None);
    var r := o.(access := false, released := s.released + 1);
    GoOut(s, t, ExitAccess, o, ExitRelease, 2);
    GoOut(o, t, ExitRelease, r, Outside, 1);
    Ended(r, t, Outside);
  }

  /** A writer gives the lock back; so does the last reader, and another one only uncounts itself. */
  lemma ExitAlone(s: Rw, t: nat)
    requires Inv(s) && t in s.threads && (s.threads[t].Reader? || s.threads[t].Writer?)
    ensures
      var s0 := Next(s, t, Begin(Exit));
      if s.threads[t].Writer? then Go(s0, t, 4) == At(Freed(s), t, Outside)
      else if forall u :: u in s.threads && u != t ==> !Counted(s.threads[u])
      then Go(s0, t, 5) == At(Freed(s.(readers := 0)), t, Outside)
      else s.readers > 1 && Go(s0, t, 2) == At(s.(readers := s.readers - 1), t, Outside)
  {
    hide Inv, Go, Advance, Abandon, Effect;
    HeldFacts(s, t);
    if s.threads[t].Writer? {
      Begins(s, t, Exit, WriterExit);
      hide Next;
      HoldsAccess(s, t);
      GoOut(s, t, WriterExit, s, ExitSetType, 4);
      LastExits(s, t);
    } else {
      OnlyOne(s, t);
      Begins(s, t, Exit, ReaderExit);
      hide Next;
      if s.readers == 1 {
        HoldsAccess(s, t);
        GoOut(s, t, ReaderExit, s, ReaderUncount, 5);
        GoOut(s, t, ReaderUncount, s.(readers := 0), ExitSetType, 4);
        LastExits(s.(readers := 0), t);
      } else {
        GoOut(s, t, ReaderExit, s, ReaderUncount, 2);
        GoOut(s, t, ReaderUncount, s.(readers := s.readers - 1), Outside, 1);
        Ended(s.(readers := s.readers - 1), t, Outside);
      }
    }
  }

  // ----- what the tries answer

  /** The thread has nothing to do with the lock, or is about to. */
  predicate Away(pc: Pc) {
    !HoldsWait(pc) && !Personal(pc) && !HoldsRead(pc)
  }

  ghost predicate AllAway(s: Rw) {
    forall u :: u in s.threads ==> Away(s.threads[u])
  }

  /** Nobody is entering, and nobody holds the lock for writing or is about to give it back. */
  ghost predicate OnlyReaders(s: Rw) {
    forall u :: u in s.threads ==> !HoldsWait(s.threads[u]) && !Personal(s.threads[u])
  }

  /** Both mutexes are free exactly if all threads are away. */
  lemma FreeIffAway(s: Rw)
    requires Inv(s)
    ensures AllAway(s) <==> s.wait.None? && !s.access
    ensures AllAway(s) ==> s.readers == 0 && s.lockType == Free
  {
    AccessIffHeld(s);
    NoReader(s);
    WaitIffHeld(s);
    hide Where, ThreadOk, PairOk;
    if AllAway(s) {
      assert forall u :: !Responsible(s, u) && !InUse(s, u);
    } else {
      var u :| u in s.threads && !Away(s.threads[u]);
      assert HoldsWait(s.threads[u]) || Responsible(s, u) || FirstBlocked(s);
    }
  }

  lemma WaitIffHeld(s: Rw)
    requires Inv(s)
    ensures s.wait.Some? <==> exists u :: u in s.threads && HoldsWait(s.threads[u])
  {
    hide Where;
    if s.wait.Some? {
      assert ThreadOk(s, s.wait.value);
    }
    if u :| u in s.threads && HoldsWait(s.threads[u]) {
      assert ThreadOk(s, u);
    }
  }

  lemma ReadersOnly(s: Rw)
    requires Inv(s)
    ensures OnlyReaders(s) <==> s.wait.None? && (s.access ==> s.readers > 0)
    ensures OnlyReaders(s) && s.readers > 0 ==> s.access
  {
    WaitIffHeld(s);
    AccessIffHeld(s);
    NoReader(s);
    if s.wait.None? {
      if s.readers > 0 {
        var v :| v in s.threads && Counted(s.threads[v]);
        assert ThreadOk(s, v);
        forall u | u in s.threads ensures !Personal(s.threads[u]) {
          assert ThreadOk(s, u) && PairOk(s, u, v);
        }
      } else if s.access {
        var u :| Responsible(s, u);
        assert Personal(s.threads[u]);
      } else {
        forall u | u in s.threads ensures !Personal(s.threads[u]) {
          assert ThreadOk(s, u);
        }
      }
    }
  }

  /** A try that finds its mutex held by another thread gives up. */
  lemma GivesUp(s: Rw, t: nat, pc: Pc, pc': Pc)
    requires t in s.threads && Abandon(At(s, t, pc), t) == At(At(s, t, pc), t, pc')
    ensures Next(At(s, t, pc), t, GiveUp) == At(s, t, pc')
  {
    MovedTwice(s.threads, t, pc, pc');
  }

  /** The call returns false and has changed nothing: at once, or after entering `wait`. */
  ghost predicate Refused(s: Rw, s0: Rw, t: nat, n: nat) {
    if s.wait.Some? then Quit(s0, t) == s else Go(Quit(Go(s0, t, n), t), t, 1) == s
  }

  function Quit(s: Rw, t: nat): Rw {
    if t in s.threads then Next(s, t, GiveUp) else s
  }

  lemma TryWriteRefused(s: Rw, t: nat)
    requires t in s.threads && s.threads[t].Outside? && s.wait != Some(t)
    requires s.wait.Some? || (s.access && s.owner != Some(t))
    ensures Refused(s, Next(s, t, Begin(TryWrite)), t, 1)
  {
    hide Go, Advance, EffectOut;
    Begins(s, t, TryWrite, TryWriteWait);
    if s.wait.Some? {
      GivesUp(s, t, TryWriteWait, Outside);
      Ended(s, t, Outside);
    } else {
      var w := s.(wait := Some(t));
      GoTry(s, t, TryWriteWait, w, TryWriteAccess, 1);
      Ended(w, t, TryWriteAccess);
      GivesUp(w, t, TryWriteAccess, TryFailed);
      GoTry(w, t, TryFailed, s, Outside, 1);
      Ended(s, t, Outside);
    }
  }

  /** `try_enter` for writing succeeds exactly if all threads are away. */
  lemma TryWriteAnswers(s: Rw, t: nat)
    requires Inv(s) && t in s.threads && s.threads[t].Outside? && (s.owner != Some(t) || s.wait.Some?)
    ensures
      var s0 := Next(s, t, Begin(TryWrite));
      if AllAway(s) then Go(s0, t, 4) == At(Written(s, t), t, Writer) else Refused(s, s0, t, 1)
  {
    NotInWait(s, t);
    FreeIffAway(s);
    hide Inv, Go, Next, AllAway, Refused;
    if AllAway(s) {
      TryWriteAlone(s, t);
    } else {
      TryWriteRefused(s, t);
    }
  }

  lemma NotInWait(s: Rw, t: nat)
    requires Inv(s) && t in s.threads && s.threads[t].Outside?
    ensures s.wait != Some(t)
  {
    assert ThreadOk(s, t);
  }

  lemma TryReadRefused(s: Rw, t: nat)
    requires t in s.threads && s.threads[t].Outside? && s.wait != Some(t)
    requires s.wait.Some? || (s.access && s.readers == 0 && s.owner != Some(t))
    ensures Refused(s, Next(s, t, Begin(TryRead)), t, 2)
  {
    hide Go, Advance, EffectOut;
    Begins(s, t, TryRead, TryReadWait);
    if s.wait.Some? {
      GivesUp(s, t, TryReadWait, Outside);
      Ended(s, t, Outside);
    } else {
      var w := s.(wait := Some(t));
      GoTry(s, t, TryReadWait, w, TryReadLoad, 2);
      GoTry(w, t, TryReadLoad, w, TryReadDecide(0), 1);
      Ended(w, t, TryReadDecide(0));
      GivesUp(w, t, TryReadDecide(0), TryFailed);
      GoTry(w, t, TryFailed, s, Outside, 1);
      Ended(s, t, Outside);
    }
  }

  /** And for reading exactly if nobody is entering and the only holders are readers, whom it joins if there are any. */
  lemma TryReadAnswers(s: Rw, t: nat)
    requires Inv(s) && t in s.threads && s.threads[t].Outside?
    requires s.owner != Some(t) || s.wait.Some? || s.readers > 0
    ensures
      var s0 := Next(s, t, Begin(TryRead));
      if !OnlyReaders(s) then Refused(s, s0, t, 2)
      else if s.readers > 0 then Go(s0, t, 4) == At(s.(readers := s.readers + 1), t, Reader)
      else Go(s0, t, 6) == At(FirstRead(s, t), t, Reader)
  {
    NotInWait(s, t);
    ReadersOnly(s);
    hide Inv, Go, Next, OnlyReaders, Refused;
    if !OnlyReaders(s) {
      TryReadRefused(s, t);
    } else if s.readers > 0 {
      TryReadJoins(s, t);
    } else {
      TryReadFirst(s, t);
    }
  }

  /** At whatever moment a try fails, another thread is entering, or answers for `access`; and nothing else changes. */
  lemma TryFailsHeld(s: Rw, t: nat, act: Act)
    requires Inv(s) && t in s.threads && InTry(s.threads[t])
    ensures
      var r := Next(s, t, act);
      t in r.threads &&
      var pc := r.threads[t];
      && (pc.Outside? ==> exists u :: u in s.threads && u != t && HoldsWait(s.threads[u]))
      && (pc.TryFailed? ==> exists u :: u != t && Responsible(s, u))
      && (pc.Outside? || pc.TryFailed? ==> r == At(s, t, pc))
  {
    hide Where, PairOk;
    if s.wait.Some? {
      assert ThreadOk(s, s.wait.value);
    }
    assert ThreadOk(s, t) && !Responsible(s, t);
    hide ThreadOk, Inv;
  }
}
