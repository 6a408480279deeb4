/**
 web/web_thread_impl.cc: when a post comes late, that is when it uses the message loop of a
 thread that has been stopped since. The header promises that there are no race conditions.
 */
module PostRaces {
  import opened Options
  import opened ThreadLifetimes

  ghost predicate NoneLate(s: State) {
    forall t :: !Late(s, t)
  }

  /** The post has read the loop of thread `id` and not used it yet. */
  predicate AboutToUse(s: State, t: int, id: nat) {
    t in s.posts && s.posts[t].pc.Enqueue? && s.posts[t].target == id
  }

  /** A thread is stopped whose loop some post is about to use. */
  ghost predicate StopsTarget(s: State, step: Step) {
    step.Environment? && step.e.Stop? && exists t :: AboutToUse(s, t, step.e.id)
  }

  /** Whoever posts, and in whatever order threads die, just that makes a post late. */
  lemma LateIffTargetStopped(form: Form, s: State, step: Step, s': State)
    requires Inv(form, s) && Next(form, s, step, s') && NoneLate(s)
    ensures NoneLate(s') <==> !StopsTarget(s, step)
  {
    if StopsTarget(s, step) {
      var t :| AboutToUse(s, t, step.e.id);
      assert !Late(s, t);
      assert Late(s', t);
    } else {
      StepKeepsInv(form, s, step, s');
      forall t ensures !Late(s', t) {
        StaysInTime(form, s, step, s', t);
      }
    }
  }

  lemma StaysInTime(form: Form, s: State, step: Step, s': State, t: int)
    requires Inv(form, s) && Inv(form, s') && Next(form, s, step, s')
    requires !Late(s, t) && (step.Environment? && step.e.Stop? ==> !AboutToUse(s, t, step.e.id))
    ensures !Late(s', t)
  {
    if t in s'.posts && s'.posts[t].pc.Enqueue? {
      assert PostInv(form, s', t, s'.posts[t]);
      if t in s.posts {
        assert PostInv(form, s, t, s.posts[t]);
      }
    }
  }

  /** A run is free of late posts exactly if no thread is stopped whose loop is about to be used. */
  lemma {:induction false} RunInTimeIffNoTargetStopped(form: Form, states: seq<State>, steps: seq<Step>, n: nat)
    requires IsRun(form, states, steps) && n <= |steps|
    ensures (forall i :: 0 <= i <= n ==> NoneLate(states[i]))
      <==> forall i :: 0 <= i < n ==> !StopsTarget(states[i], steps[i])
  {
    if n > 0 {
      RunInTimeIffNoTargetStopped(form, states, steps, n - 1);
      RunKeepsInv(form, states, steps, n - 1);
      if NoneLate(states[n - 1]) {
        LateIffTargetStopped(form, states[n - 1], steps[n - 1], states[n]);
      }
    }
  }

  // ---------- The three ways to be late ----------

  /** The post holds the lock. */
  ghost predicate StopsUnderLock(s: State, step: Step) {
    step.Environment? && step.e.Stop?
    && exists t :: AboutToUse(s, t, step.e.id) && s.posts[t].pc.mode.Locked?
  }

  /** The post has skipped the lock for a caller without a message loop. */
  ghost predicate StopsUnderBlind(s: State, step: Step) {
    step.Environment? && step.e.Stop?
    && exists t :: AboutToUse(s, t, step.e.id) && s.posts[t].pc.mode.Elided? && s.posts[t].loop.None?
  }

  /** The post has skipped the lock for the message loop of a thread listed behind the target. */
  ghost predicate StopsUnderElided(s: State, step: Step) {
    step.Environment? && step.e.Stop?
    && exists t :: AboutToUse(s, t, step.e.id) && ElidesOnLoop(s.posts[t])
  }

  /** Stops in the order of the enumeration rule out the third way. */
  lemma ThreeWaysToBeLate(form: Form, s: State, step: Step, s': State)
    requires Inv(form, s) && Next(form, s, step, s')
    ensures StopsTarget(s, step)
      <==> StopsUnderLock(s, step) || StopsUnderBlind(s, step) || StopsUnderElided(s, step)
    ensures StopsUnderElided(s, step) ==> !form.ordered && !AllAboveFree(s.slots, step.e.id)
  {
    if StopsUnderElided(s, step) {
      var t :| AboutToUse(s, t, step.e.id) && ElidesOnLoop(s.posts[t]);
      assert PostInv(form, s, t, s.posts[t]);
    } else if StopsTarget(s, step) {
      var t :| AboutToUse(s, t, step.e.id);
      assert !ElidesOnLoop(s.posts[t]);
    }
  }

  /** All callers ever have had message loops. */
  ghost predicate OnLoops(s: State) {
    forall t :: t in s.calls ==> s.calls[t].loop.Some?
  }

  lemma CallsStay(form: Form, states: seq<State>, steps: seq<Step>, m: nat, n: nat)
    requires IsRun(form, states, steps) && m <= n <= |steps|
    ensures forall t :: t in states[m].calls ==> t in states[n].calls && states[n].calls[t] == states[m].calls[t]
    decreases n - m
  {
    if m < n {
      CallsStay(form, states, steps, m, n - 1);
      assert Next(form, states[n - 1], steps[n - 1], states[n]);
    }
  }

  lemma OnLoopsNoneIsBlind(form: Form, s: State, step: Step)
    requires Inv(form, s) && OnLoops(s)
    ensures !StopsUnderBlind(s, step)
  {
    forall t | t in s.posts ensures s.posts[t].loop.Some? {
      assert PostInv(form, s, t, s.posts[t]);
    }
  }

  /**
   With callers on message loops and stops in order, a run is free of late posts exactly if
   no thread is stopped whose loop has been read under the lock and not used yet.
   */
  lemma OnLoopsInTimeIffNoneStoppedUnderLock(form: Form, states: seq<State>, steps: seq<Step>, n: nat)
    requires IsRun(form, states, steps) && n <= |steps| && form.ordered && OnLoops(states[n])
    ensures (forall i :: 0 <= i <= n ==> NoneLate(states[i]))
      <==> forall i :: 0 <= i < n ==> !StopsUnderLock(states[i], steps[i])
  {
    RunInTimeIffNoTargetStopped(form, states, steps, n);
    forall i | 0 <= i < n ensures StopsTarget(states[i], steps[i]) <==> StopsUnderLock(states[i], steps[i]) {
      RunKeepsInv(form, states, steps, i);
      CallsStay(form, states, steps, i, n);
      OnLoopsNoneIsBlind(form, states[i], steps[i]);
      ThreeWaysToBeLate(form, states[i], steps[i], states[i + 1]);
    }
  }

  ghost predicate NoElidedLate(s: State) {
    forall t :: Late(s, t) ==> !ElidesOnLoop(s.posts[t])
  }

  /**
   In whatever order threads are stopped, a run is free of late posts that have skipped the
   lock on behalf of a message loop exactly if no thread is stopped while such a post, from
   a thread listed behind it, is about to use its loop.
   */
  lemma {:induction false} ElidedInTimeIffNoneStoppedEarly(form: Form, states: seq<State>, steps: seq<Step>, n: nat)
    requires IsRun(form, states, steps) && n <= |steps|
    ensures (forall i :: 0 <= i <= n ==> NoElidedLate(states[i]))
      <==> forall i :: 0 <= i < n ==> !StopsUnderElided(states[i], steps[i])
  {
    if n > 0 {
      ElidedInTimeIffNoneStoppedEarly(form, states, steps, n - 1);
      RunKeepsInv(form, states, steps, n - 1);
      if NoElidedLate(states[n - 1]) {
        ElidedLateIffStoppedEarly(form, states[n - 1], steps[n - 1], states[n]);
      }
    }
  }

  lemma ElidedLateIffStoppedEarly(form: Form, s: State, step: Step, s': State)
    requires Inv(form, s) && Next(form, s, step, s') && NoElidedLate(s)
    ensures NoElidedLate(s') <==> !StopsUnderElided(s, step)
  {
    if StopsUnderElided(s, step) {
      var t :| AboutToUse(s, t, step.e.id) && ElidesOnLoop(s.posts[t]);
      assert Late(s', t) && ElidesOnLoop(s'.posts[t]);
    } else {
      StepKeepsInv(form, s, step, s');
      forall t | t in s'.posts && ElidesOnLoop(s'.posts[t]) ensures !Late(s', t) {
        if Late(s, t) {
          assert PostInv(form, s, t, s.posts[t]);
        } else {
          StaysInTime(form, s, step, s', t);
        }
      }
    }
  }

  // ---------- Each of the three ways, as a run ----------

  ghost predicate BlindAndLate(s: State, t: int) {
    Late(s, t) && s.posts[t].loop.None? && s.posts[t].pc.mode.Elided?
  }

  ghost predicate LockedAndLate(s: State, t: int) {
    Late(s, t) && s.posts[t].pc.mode.Locked?
  }

  ghost predicate ElidedAndLate(s: State, t: int) {
    Late(s, t) && ElidesOnLoop(s.posts[t]) && s.posts[t].home.Some?
  }

  lemma RegisterTwo(form: Form, first: Option<Thread>, second: Option<Thread>) returns (s: State)
    requires first.Some? && second.Some? && !first.value.Stopped? && !second.value.Stopped?
    ensures Reachable(form, s)
    ensures s == INIT.(slots := [first, second, None, None, None, None])
  {
    InitReachable(form);
    var s1 := INIT.(slots := [first, None, None, None, None, None]);
    assert s1.slots == INIT.slots[0 := first];
    StepReachable(form, INIT, Environment(Register(0, first.value)), s1);
    s := s1.(slots := [first, second, None, None, None, None]);
    assert s.slots == s1.slots[1 := second];
    StepReachable(form, s1, Environment(Register(1, second.value)), s);
  }

  /** The second thread's id is found for the caller, and so a post to the first skips the lock. */
  lemma ElideBySecond(form: Form, loop: Option<int>, second: Thread) returns (s: State)
    requires form.elide && !second.Stopped? && Matches(Some(second), loop) && loop != Some(10)
    ensures Reachable(form, s) && s.lock == None
    ensures s.slots == [Some(Running(10)), Some(second), None, None, None, None]
    ensures s.posts.Keys == {7} && s.posts[7].loop == loop && s.posts[7].target == 0
    ensures s.posts[7].pc == Enqueue(Elided(1), 10) && s.posts[7].home == HomeOf(s.slots, loop)
  {
    var s2 := RegisterTwo(form, Some(Running(10)), Some(second));
    var s3 := s2.(calls := map[7 := Call(loop, 0)], posts := map[7 := Post(loop, 0, HomeOf(s2.slots, loop), Scan(0))]);
    StepReachable(form, s2, Begin(7, loop, 0), s3);
    var s4 := At(s3, 7, Scan(1));
    StepReachable(form, s3, ScanSlot(7), s4);
    var s5 := At(s4, 7, Read(Elided(1)));
    StepReachable(form, s4, ScanSlot(7), s5);
    s := At(s5, 7, Enqueue(Elided(1), 10));
    StepReachable(form, s5, ReadSlot(7), s);
  }

  /**
   A caller without a message loop is taken for a thread that is registered but not yet
   started, so it elides the lock, and its post can outlive both that thread and the target.
   */
  lemma CallerWithoutLoopCanBeLate()
    ensures exists s :: Reachable(ELIDING, s) && BlindAndLate(s, 7)
  {
    var s := ElideBySecond(ELIDING, None, Unstarted);
    var s1 := s.(slots := s.slots[1 := Some(Stopped)]);
    StepReachable(ELIDING, s, Environment(Stop(1)), s1);
    var s2 := s1.(slots := s1.slots[1 := None]);
    StepReachable(ELIDING, s1, Environment(Deregister(1)), s2);
    var s3 := s2.(slots := s2.slots[0 := Some(Stopped)]);
    StepReachable(ELIDING, s2, Environment(Stop(0)), s3);
    assert BlindAndLate(s3, 7);
  }

  /**
   The check in the destructor comes too late: a thread that is stopped before one listed
   behind it, and would be found out when it deregisters, is posted to after it has stopped.
   */
  lemma CheckAtDeregistrationIsTooLate()
    ensures exists s :: Reachable(Form(true, false), s) && ElidedAndLate(s, 7)
  {
    var form := Form(true, false);
    var s := ElideBySecond(form, Some(20), Running(20));
    assert IsLeast(s.slots, Some(20), 1);
    var s1 := s.(slots := s.slots[0 := Some(Stopped)]);
    StepReachable(form, s, Environment(Stop(0)), s1);
    assert ElidedAndLate(s1, 7);
  }

  /** With the lock held, a target can still be stopped between being read and being posted to. */
  lemma LockDoesNotKeepTargetRunning()
    ensures exists s :: Reachable(ELIDING, s) && LockedAndLate(s, 7)
    ensures exists s :: Reachable(LOCKING, s) && LockedAndLate(s, 7)
  {
    // The UI thread, on loop 10, posts to the DB thread, on loop 20.
    var s2 := RegisterTwo(ELIDING, Some(Running(10)), Some(Running(20)));
    var home := HomeOf(s2.slots, Some(10));
    var s3 := s2.(calls := map[7 := Call(Some(10), 1)], posts := map[7 := Post(Some(10), 1, home, Scan(0))]);
    StepReachable(ELIDING, s2, Begin(7, Some(10), 1), s3);
    var s4 := At(s3, 7, Acquire);
    StepReachable(ELIDING, s3, ScanSlot(7), s4);
    StoppedUnderLock(ELIDING, s4, home);
    var r2 := RegisterTwo(LOCKING, Some(Running(10)), Some(Running(20)));
    StepReachable(LOCKING, r2, Begin(7, Some(10), 1), s4);
    StoppedUnderLock(LOCKING, s4, home);
  }

  lemma StoppedUnderLock(form: Form, s: State, home: Option<nat>)
    requires Reachable(form, s) && s.lock == None
    requires s.slots == [Some(Running(10)), Some(Running(20)), None, None, None, None]
    requires s.posts == map[7 := Post(Some(10), 1, home, Acquire)]
    ensures exists l :: Reachable(form, l) && LockedAndLate(l, 7)
  {
    var t2 := At(s, 7, Read(Locked)).(lock := Some(7));
    StepReachable(form, s, AcquireLock(7), t2);
    var t3 := At(t2, 7, Enqueue(Locked, 20));
    StepReachable(form, t2, ReadSlot(7), t3);
    var t4 := t3.(slots := t3.slots[1 := Some(Stopped)]);
    StepReachable(form, t3, Environment(Stop(1)), t4);
    assert LockedAndLate(t4, 7);
  }
}
