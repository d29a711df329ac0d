/**
 What the calls of the sleeping mutex do when nobody interferes: the state each of them ends in, from
 every state of a thread that runs, and that one call undoes the other.
 */
module LineupMutexCalls {
  import opened Counting
  import opened LineupMutex

  /** The thread runs on the dispatcher. */
  ghost predicate Runs(s: System, d: nat, t: nat) {
    Shaped(s) && d in s.seats && s.seats[d] == Running(t) && t in s.threads
  }

  /** The thread goes on for `n` steps of its call, undisturbed. */
  function Go(s: System, d: nat, n: nat): (r: System)
    requires Shaped(s) && d in s.seats
    ensures SameShape(s, r)
    decreases n
  {
    if n == 0 then s else Go(Next(s, d, Step), d, n - 1)
  }

  /** Only the last place of a thread counts. */
  lemma AtTwice(s: System, t: nat, a: Pc, b: Pc)
    requires t in s.threads
    ensures At(At(s, t, a), t, b) == At(s, t, b)
    ensures s.threads[t] == b ==> At(s, t, b) == s
  {
    MovedTwice(s.threads, t, a, b);
  }

  // ----- a free mutex

  /** The counter reads zero exactly if no thread holds the mutex or waits for it. */
  lemma FreeIff(s: System)
    requires Inv(s)
    ensures s.counter == 0 <==> forall u :: u in s.threads ==> !Counted(s.threads[u])
    ensures s.counter == 0 ==> s.owner == None && s.turn == Nobody && s.waitlist == []
  {
    hide SchedInv, TurnOk, Fifo;
    if s.counter == 0 {
      FreeIsFree(s);
    } else {
      var u :| u in Where(s.threads, Counted);
    }
  }

  /** And one exactly if a thread that holds it is the only such. */
  lemma AloneIff(s: System, t: nat)
    requires Inv(s) && t in s.threads && Counted(s.threads[t])
    ensures s.counter >= 1
    ensures s.counter == 1 <==> forall u :: u in s.threads && u != t ==> !Counted(s.threads[u])
  {
    hide SchedInv, TurnOk, Fifo;
    OneThere(s.threads, Counted, t);
    if forall u :: u in s.threads && u != t ==> !Counted(s.threads[u]) {
      assert Where(s.threads, Counted) == {t};
    }
  }

  /** The owner is recorded. */
  lemma Owned(s: System, d: nat, t: nat)
    requires Runs(s, d, t) && s.threads[t].Acquired?
    ensures Go(s, d, 1) == s.(threads := s.threads[t := Inside], owner := Some(t))
  {
  }

  /** `enter` of a free mutex takes it. */
  lemma EnterFree(s: System, d: nat, t: nat)
    requires Runs(s, d, t) && s.threads[t].Outside? && s.counter == 0
    ensures Go(Next(s, d, Enter), d, 1) ==
      s.(threads := s.threads[t := Inside], counter := 1, owner := Some(t), turn := Owner(t))
  {
    var s1 := At(s, t, Acquired).(counter := 1, turn := Owner(t));
    assert Next(s, d, Enter) == s1;
    hide Next, Go;
    Owned(s1, d, t);
    MovedTwice(s.threads, t, Acquired, Inside);
  }

  /** `try_enter` answers at once: it panics for the recorded owner, and else enters exactly if the mutex is free. */
  lemma TryEnterAnswers(s: System, d: nat, t: nat)
    requires Runs(s, d, t) && s.threads[t].Outside?
    ensures Go(Next(s, d, TryEnter), d, 2) ==
      if s.owner == Some(t) then s.(selfLocks := s.selfLocks + 1)
      else if s.counter != 0 then s
      else s.(threads := s.threads[t := Inside], counter := 1, owner := Some(t), turn := Owner(t))
  {
    if s.owner != Some(t) && s.counter == 0 {
      TryingEnters(s, d, t);
    }
  }

  /** The compare-exchange finds the mutex free. */
  lemma TryingEnters(s: System, d: nat, t: nat)
    requires Runs(s, d, t) && s.counter == 0
    ensures Go(At(s, t, Trying), d, 2) ==
      s.(threads := s.threads[t := Inside], counter := 1, owner := Some(t), turn := Owner(t))
  {
    var s1 := At(s, t, Acquired).(counter := 1, turn := Owner(t));
    AtTwice(s, t, Trying, Acquired);
    assert Next(At(s, t, Trying), d, Step) == s1;
    assert Go(At(s, t, Trying), d, 2) == Go(s1, d, 1);
    hide Next, Go;
    Owned(s1, d, t);
    MovedTwice(s.threads, t, Acquired, Inside);
  }

  /** The spinning `enter` takes a free mutex, and otherwise waits without changing anything. */
  lemma SpinAnswers(s: System, d: nat, t: nat)
    requires Runs(s, d, t) && s.threads[t].Outside?
    ensures Go(Next(s, d, Spin), d, 2) ==
      if s.counter != 0 then s.(threads := s.threads[t := Trying])
      else s.(threads := s.threads[t := Inside], counter := 1, owner := Some(t), turn := Owner(t))
  {
    if s.counter == 0 {
      TryingEnters(s, d, t);
    }
  }

  /** `enter` of a mutex that is held: last in the waitlist, and parked. */
  lemma EnterParks(s: System, d: nat, t: nat)
    requires Runs(s, d, t) && s.threads[t].Outside? && s.counter != 0 && |s.waitlist| < WAITLIST_CAPACITY
    ensures Go(Next(s, d, Enter), d, 2) ==
      s.(threads := s.threads[t := Parked], counter := s.counter + 1, waitlist := s.waitlist + [t],
         listed := s.listed + [t], seats := s.seats[d := Storing(t)])
  {
    AtTwice(s, t, Queued, Listed);
    AtTwice(s, t, Listed, Parked);
  }

  /** With the waitlist full it panics, counted already. */
  lemma EnterOverflows(s: System, d: nat, t: nat)
    requires Runs(s, d, t) && s.threads[t].Outside? && s.counter != 0 && |s.waitlist| >= WAITLIST_CAPACITY
    ensures Go(Next(s, d, Enter), d, 1) ==
      s.(threads := s.threads[t := Queued], counter := s.counter + 1, overflows := s.overflows + 1)
  {
  }

  // ----- exit

  /** `exit` of a mutex that nobody else wants leaves it free. */
  lemma ExitAlone(s: System, d: nat, t: nat)
    requires Runs(s, d, t) && s.threads[t].Inside? && s.counter == 1
    ensures Go(Next(s, d, Exit), d, 1) ==
      s.(threads := s.threads[t := Outside], counter := 0, owner := None, turn := Nobody)
  {
    AtTwice(s, t, Exiting, Outside);
  }

  /** Otherwise the first of the waitlist becomes runnable on its own core, as the next to have the mutex. */
  lemma ExitHands(s: System, d: nat, t: nat)
    requires Runs(s, d, t) && s.threads[t].Inside? && s.counter > 1
    requires s.waitlist != [] && s.waitlist[0] in s.threads
    ensures
      var next := s.waitlist[0];
      var core := s.affinity[next];
      Go(Next(s, d, Exit), d, 3) ==
      s.(threads := s.threads[t := Outside], counter := s.counter - 1, owner := None, turn := Heir(next),
         waitlist := s.waitlist[1..], granted := s.granted + [next],
         runnable := s.runnable[core := s.runnable[core] + [next]])
  {
    hide Next, Go;
    Releases(s, d, t);
    var s1 := s.(threads := s.threads[t := Releasing], counter := s.counter - 1, owner := None, turn := Leaver(t));
    Chooses(s1, d, t);
    MovedTwice(s.threads, t, Releasing, Outside);
  }

  /** First the counter, */
  lemma Releases(s: System, d: nat, t: nat)
    requires Runs(s, d, t) && s.threads[t].Inside? && s.counter > 1
    ensures Go(Next(s, d, Exit), d, 3) ==
      Go(s.(threads := s.threads[t := Releasing], counter := s.counter - 1, owner := None, turn := Leaver(t)), d, 2)
  {
    AtTwice(s, t, Exiting, Releasing);
    var s1 := Next(s, d, Exit);
    assert Next(s1, d, Step) ==
      s.(threads := s.threads[t := Releasing], counter := s.counter - 1, owner := None, turn := Leaver(t));
    hide Next;
  }

  /** and then the waitlist and the run queue. */
  lemma Chooses(s: System, d: nat, t: nat)
    requires Runs(s, d, t) && s.threads[t].Releasing? && s.waitlist != [] && s.waitlist[0] in s.threads
    ensures
      var next := s.waitlist[0];
      var core := s.affinity[next];
      Go(s, d, 2) ==
      s.(threads := s.threads[t := Outside], turn := Heir(next), waitlist := s.waitlist[1..],
         granted := s.granted + [next], runnable := s.runnable[core := s.runnable[core] + [next]])
  {
    var next := s.waitlist[0];
    var s1 := At(s, t, Handing(next)).(waitlist := s.waitlist[1..]);
    assert Next(s, d, Step) == s1;
    AtTwice(s, t, Handing(next), Outside);
    assert Next(s1, d, Step) ==
      MarkRunnable(At(s1, t, Outside), next, s.affinity[next]).(turn := Heir(next), granted := s.granted + [next]);
    hide Next;
  }

  /** Popping a thread from the front of the run queue; a parked one is about to own the mutex. */
  lemma Resumes(s: System, d: nat, t: nat)
    requires Shaped(s) && d in s.seats && s.seats[d].Vacant? && t in s.threads && s.threads[t].Parked?
    requires s.runnable[s.cores[d]] != [] && s.runnable[s.cores[d]][0] == t && t in s.generators
    ensures
      var q := s.runnable[s.cores[d]];
      Next(s, d, Dispatch) ==
      At(s, t, Acquired).(turn := Owner(t), seats := s.seats[d := Running(t)], generators := s.generators - {t},
        runnable := s.runnable[s.cores[d] := q[1..]])
  {
  }

  /** A parked thread that is dispatched has the mutex. */
  lemma ParkedResumes(s: System, d: nat, t: nat)
    requires Shaped(s) && d in s.seats && s.seats[d].Vacant? && t in s.threads && s.threads[t].Parked?
    requires s.runnable[s.cores[d]] != [] && s.runnable[s.cores[d]][0] == t && t in s.generators
    ensures
      var q := s.runnable[s.cores[d]];
      Go(Next(s, d, Dispatch), d, 1) ==
      s.(threads := s.threads[t := Inside], owner := Some(t), turn := Owner(t), seats := s.seats[d := Running(t)],
         generators := s.generators - {t}, runnable := s.runnable[s.cores[d] := q[1..]])
  {
    hide Next, Go;
    Resumes(s, d, t);
    Owned(Next(s, d, Dispatch), d, t);
    MovedTwice(s.threads, t, Acquired, Inside);
  }

  // ----- one call undoes the other

  /** Entering a free mutex and leaving it again changes nothing. */
  lemma EnterExit(s: System, d: nat, t: nat)
    requires Runs(s, d, t) && s.threads[t].Outside? && s.counter == 0 && s.owner == None && s.turn == Nobody
    ensures Go(Next(Go(Next(s, d, Enter), d, 1), d, Exit), d, 1) == s
  {
    hide Next, Go;
    EnterFree(s, d, t);
    ExitAlone(Go(Next(s, d, Enter), d, 1), d, t);
    MovedTwice(s.threads, t, Inside, Outside);
  }
}
