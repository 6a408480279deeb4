/**
 Whether eliding the lock can be observed: the histories of the eliding form of
 `PostTaskHelper` are compared with those of the form that always takes the lock.
 */
module LockElision {
  import opened Options
  import opened ThreadLifetimes
  import opened PostRaces
  import opened LockHistories

  // ---------- What the eliding form shows ----------

  /**
   If the step is a late post, nothing has been settled or registered since its target last
   had the loop that it uses.
   */
  ghost predicate InWindow(h: seq<Board>, s: State, step: Step) {
    IsLate(s, step) ==> WindowOpen(h, EntryOf(s, step.task).target, EntryOf(s, step.task).loop, None)
  }

  // The caller's own thread is no further condition: it stays where it is during the call.

  ghost predicate ReadSince(h: seq<Board>, r: nat, id: nat, loop: int, caller: Option<int>) {
    && r < |h| && id < ID_COUNT && LoopAt(h[r].slots, id) == Some(loop)
    && forall j :: r <= j < |h| - 1 && SameRegistered(h[j], h[j + 1]) ==> SameThread(h[j], h[j + 1], caller)
  }

  ghost predicate HasRead(h: seq<Board>, id: nat, loop: int, caller: Option<int>) {
    exists r: nat :: ReadSince(h, r, id, loop, caller)
  }

  ghost predicate AllHaveRead(s: State, h: seq<Board>) {
    forall t :: t in s.posts && s.posts[t].pc.Enqueue? ==>
      HasRead(h, s.posts[t].target, s.posts[t].pc.loop, s.posts[t].loop)
  }

  lemma ReadStays(h: seq<Board>, b: Board, id: nat, loop: int, caller: Option<int>)
    requires h != [] && HasRead(h, id, loop, caller)
    requires SameRegistered(h[|h| - 1], b) ==> SameThread(h[|h| - 1], b, caller)
    ensures HasRead(Noted(h, b), id, loop, caller)
  {
    var r: nat :| ReadSince(h, r, id, loop, caller);
    assert ReadSince(Noted(h, b), r, id, loop, caller);
  }

  lemma CallersStay(form: Form, s: State, step: Step, s': State, t: int)
    requires Inv(form, s) && Next(form, s, step, s') && t in s.posts
    ensures SameRegistered(BoardOf(s), BoardOf(s')) ==> SameThread(BoardOf(s), BoardOf(s'), s.posts[t].loop)
  {
    assert PostInv(form, s, t, s.posts[t]);
  }

  lemma StepKeepsRead(form: Form, h: seq<Board>, s: State, step: Step, s': State)
    requires Inv(form, s) && Next(form, s, step, s')
    requires h != [] && h[|h| - 1] == BoardOf(s) && AllHaveRead(s, h)
    ensures AllHaveRead(s', Noted(h, BoardOf(s')))
  {
    forall t | t in s'.posts && s'.posts[t].pc.Enqueue?
      ensures HasRead(Noted(h, BoardOf(s')), s'.posts[t].target, s'.posts[t].pc.loop, s'.posts[t].loop)
    {
      assert t in s.posts;
      var p := s'.posts[t];
      if step == ReadSlot(t) {
        assert ReadSince(h, |h| - 1, p.target, p.pc.loop, p.loop);
      } else {
        CallersStay(form, s, step, s', t);
        assert s.posts[t] == p;
        ReadStays(h, BoardOf(s'), p.target, p.pc.loop, p.loop);
      }
    }
  }

  lemma {:induction false} RunKeepsRead(form: Form, states: seq<State>, steps: seq<Step>, n: nat)
    requires IsRun(form, states, steps) && n <= |steps|
    ensures AllHaveRead(states[n], History(states, n))
  {
    if n > 0 {
      RunKeepsRead(form, states, steps, n - 1);
      RunKeepsInv(form, states, steps, n - 1);
      HistoryEnds(states, n - 1);
      StepKeepsRead(form, History(states, n - 1), states[n - 1], steps[n - 1], states[n]);
    }
  }

  lemma CallerIsNoCondition(h: seq<Board>, id: nat, loop: int, caller: Option<int>)
    requires HasRead(h, id, loop, caller)
    ensures WindowOpen(h, id, loop, caller) <==> WindowOpen(h, id, loop, None)
  {
    if i: nat :| OpenSince(h, i, id, loop, None) {
      var r: nat :| ReadSince(h, r, id, loop, caller);
      var m := if i < r then r else i;
      forall j | m <= j < |h| ensures Undisturbed(h[m], h[j], caller) {
        assert Undisturbed(h[i], h[m], None) && Undisturbed(h[i], h[j], None);
        SameThreadThroughout(h, i, r, m, j, id, loop, caller);
      }
      assert OpenSince(h, m, id, loop, caller) by {
        assert LoopAt(h[m].slots, id) == Some(loop);
      }
    }
    if i: nat :| OpenSince(h, i, id, loop, caller) {
      assert OpenSince(h, i, id, loop, None);
    }
  }

  /** While nothing is registered, the caller's thread stays from one board to the next. */
  lemma {:induction false} SameThreadThroughout(h: seq<Board>, i: nat, r: nat, m: nat, j: nat,
                                                id: nat, loop: int, caller: Option<int>)
    requires OpenSince(h, i, id, loop, None) && ReadSince(h, r, id, loop, caller)
    requires i <= m && r <= m <= j < |h|
    ensures SameThread(h[m], h[j], caller)
  {
    if m < j {
      SameThreadThroughout(h, i, r, m, j - 1, id, loop, caller);
      assert Undisturbed(h[i], h[j - 1], None) && Undisturbed(h[i], h[j], None);
      assert SameRegistered(h[j - 1], h[(j - 1) + 1]);
    }
  }

  lemma LateInWindowIffLockable(ordered: bool, h: seq<Board>, entry: Enqueued, caller: Option<int>)
    requires Lockable(ordered, h) && entry.target < ID_COUNT && entry.task !in h[|h| - 1].decided
    requires LoopAt(h[|h| - 1].slots, entry.target) != Some(entry.loop)
    ensures Lockable(ordered, Noted(h, Handed(h[|h| - 1], entry, caller)))
      <==> WindowOpen(h, entry.target, entry.loop, caller)
  {
    var last := h[|h| - 1];
    LateIsNotAtomic(ordered, last, entry, caller);
    NotedLockable(ordered, h, Handed(last, entry, caller));
    forall other, c | Handed(last, entry, caller) == Handed(last, other, c) ensures other == entry && c == caller {
      HandedIsInjective(last, entry, caller, other, c);
    }
  }

  lemma HandedIsInjective(b: Board, entry: Enqueued, caller: Option<int>, other: Enqueued, c: Option<int>)
    requires Handed(b, entry, caller) == Handed(b, other, c)
    ensures other == entry && c == caller
  {
    assert Handed(b, other, c).log[|b.log|] == other;
    assert Handed(b, entry, caller).log[|b.log|] == entry;
    assert Handed(b, other, c).decided[other.task] == Outcome(Call(c, other.target), true);
    assert Handed(b, entry, caller).decided[entry.task] == Outcome(Call(caller, entry.target), true);
  }

  /** All late posts among the first `n` steps are in their windows. */
  ghost predicate LatePostsInWindow(states: seq<State>, steps: seq<Step>, n: nat)
    requires n <= |states| && n <= |steps|
  {
    forall i :: 0 <= i < n ==> InWindow(History(states, i), states[i], steps[i])
  }

  lemma {:induction false} HistoryLockableIff(form: Form, states: seq<State>, steps: seq<Step>, n: nat)
    requires IsRun(form, states, steps) && n <= |steps|
    ensures Lockable(form.ordered, History(states, n)) <==> LatePostsInWindow(states, steps, n)
  {
    if n > 0 {
      HistoryLockableIff(form, states, steps, n - 1);
      LongerHistoryLockableIff(form, states, steps, n);
      OneMoreInWindow(states, steps, n);
    }
  }

  lemma LongerHistoryLockableIff(form: Form, states: seq<State>, steps: seq<Step>, n: nat)
    requires IsRun(form, states, steps) && 0 < n <= |steps|
    ensures Lockable(form.ordered, History(states, n)) <==>
      Lockable(form.ordered, History(states, n - 1)) && InWindow(History(states, n - 1), states[n - 1], steps[n - 1])
  {
    StepOfRun(form, states, steps, n - 1);
    LastStepLockableIff(form, History(states, n - 1), states[n - 1], steps[n - 1], states[n]);
  }

  lemma StepOfRun(form: Form, states: seq<State>, steps: seq<Step>, n: nat)
    requires IsRun(form, states, steps) && n < |steps|
    ensures Inv(form, states[n]) && Next(form, states[n], steps[n], states[n + 1])
    ensures AllHaveRead(states[n], History(states, n))
    ensures var h := History(states, n); h != [] && h[|h| - 1] == BoardOf(states[n])
  {
    HistoryEnds(states, n);
    RunKeepsInv(form, states, steps, n);
    RunKeepsRead(form, states, steps, n);
  }

  lemma OneMoreInWindow(states: seq<State>, steps: seq<Step>, n: nat)
    requires 0 < n <= |states| && n <= |steps|
    ensures LatePostsInWindow(states, steps, n) <==>
      LatePostsInWindow(states, steps, n - 1) && InWindow(History(states, n - 1), states[n - 1], steps[n - 1])
  {
    if LatePostsInWindow(states, steps, n) {
      assert InWindow(History(states, n - 1), states[n - 1], steps[n - 1]);
    }
  }

  lemma LastStepLockableIff(form: Form, h: seq<Board>, s: State, step: Step, s': State)
    requires Inv(form, s) && Next(form, s, step, s')
    requires h != [] && h[|h| - 1] == BoardOf(s) && AllHaveRead(s, h)
    ensures Lockable(form.ordered, Noted(h, BoardOf(s'))) <==> Lockable(form.ordered, h) && InWindow(h, s, step)
  {
    NotedLockable(form.ordered, h, BoardOf(s'));
    if Lockable(form.ordered, h) {
      LastStepInWindowIff(form, h, s, step, s');
    }
  }

  lemma LastStepInWindowIff(form: Form, h: seq<Board>, s: State, step: Step, s': State)
    requires Inv(form, s) && Next(form, s, step, s')
    requires h != [] && h[|h| - 1] == BoardOf(s) && AllHaveRead(s, h) && Lockable(form.ordered, h)
    ensures Lockable(form.ordered, Noted(h, BoardOf(s'))) <==> InWindow(h, s, step)
  {
    StepIsAtomicUnlessLate(form, s, step, s');
    NotedLockable(form.ordered, h, BoardOf(s'));
    if IsLate(s, step) {
      var entry, caller := EntryOf(s, step.task), s.posts[step.task].loop;
      LateInWindowIffLockable(form.ordered, h, entry, caller);
      CallerIsNoCondition(h, entry.target, entry.loop, caller);
    }
  }

  /**
   A run of the locking form with this history, in which each call that has returned was made
   by the same caller for the same target, and has returned the same.
   */
  ghost predicate Matched(ordered: bool, h: seq<Board>, s: State) {
    exists l :: Traced(Form(false, ordered), h, l)
      && forall t :: t in s.returned ==>
        t in l.returned && l.returned[t] == s.returned[t]
        && t in s.calls && t in l.calls && l.calls[t] == s.calls[t]
  }

  /**
   A run of the eliding form is matched by one run of the locking form, through the whole of
   its history, exactly if its late posts come before any other call is settled or thread
   registered since their targets' stop.
   */
  lemma ElisionRefinesLockingIff(form: Form, states: seq<State>, steps: seq<Step>)
    requires IsRun(form, states, steps)
    ensures Matched(form.ordered, History(states, |steps|), states[|steps|])
      <==> LatePostsInWindow(states, steps, |steps|)
  {
    var h, n := History(states, |steps|), |steps|;
    HistoryLockableIff(form, states, steps, n);
    HistoryEnds(states, n);
    RunKeepsInv(form, states, steps, n);
    LocksIffLockable(form.ordered, h);
    MatchedIffLocks(form, h, states[n]);
  }

  lemma MatchedIffLocks(form: Form, h: seq<Board>, s: State)
    requires Inv(form, s) && h != [] && h[|h| - 1] == BoardOf(s)
    ensures Matched(form.ordered, h, s) ==> exists l :: Traced(Form(false, form.ordered), h, l)
    ensures Locks(form.ordered, h) ==> Matched(form.ordered, h, s)
  {
    if Locks(form.ordered, h) {
      var l :| Traced(Form(false, form.ordered), h, l) && Quiet(l);
      TracedEnds(Form(false, form.ordered), h, l);
      assert BoardOf(l) == BoardOf(s);
      forall t | t in s.returned
        ensures t in l.returned && l.returned[t] == s.returned[t]
        ensures t in s.calls && t in l.calls && l.calls[t] == s.calls[t]
      {
        assert t in s.decided && s.decided[t] == l.decided[t];
      }
    }
  }

  /** In particular if no post is late. */
  lemma ElisionRefinesLocking(form: Form, states: seq<State>, steps: seq<Step>)
    requires IsRun(form, states, steps)
    requires forall i :: 0 <= i < |steps| ==> !StopsTarget(states[i], steps[i])
    ensures Matched(form.ordered, History(states, |steps|), states[|steps|])
  {
    RunInTimeIffNoTargetStopped(form, states, steps, |steps|);
    forall i | 0 <= i < |steps| ensures InWindow(History(states, i), states[i], steps[i]) {
      assert NoneLate(states[i]);
    }
    ElisionRefinesLockingIff(form, states, steps);
  }

  /**
   So when callers have message loops and no thread is stopped in the critical section of
   a post to it, whatever the eliding form does the always-locking form can do.
   */
  lemma ElisionIsUnobservable(states: seq<State>, steps: seq<Step>)
    requires IsRun(ELIDING, states, steps) && OnLoops(states[|steps|])
    requires forall i :: 0 <= i < |steps| ==> !StopsUnderLock(states[i], steps[i])
    ensures Matched(true, History(states, |steps|), states[|steps|])
  {
    OnLoopsInTimeIffNoneStoppedUnderLock(ELIDING, states, steps, |steps|);
    RunInTimeIffNoTargetStopped(ELIDING, states, steps, |steps|);
    ElisionRefinesLocking(ELIDING, states, steps);
  }

  // ---------- A late post that can be told ----------

  const THREE: Slots := [Some(Running(10)), Some(Running(20)), Some(Running(30)), None, None, None]
  const TWO: Slots := [Some(Running(10)), Some(Running(20)), Some(Stopped), None, None, None]

  lemma RegisterNext(h: seq<Board>, s: State, id: nat, slots: Slots) returns (h': seq<Board>, s': State)
    requires Traced(ELIDING, h, s) && s == INIT.(slots := s.slots) && forall i :: 0 <= i < |h| ==> h[i].log == []
    requires id < ID_COUNT && s.slots[id].None? && AllAboveFree(s.slots, id)
    requires forall j :: 0 <= j < id ==> s.slots[j] != Some(Stopped)
    requires slots[id].Some? && slots[id].value.Running? && slots == s.slots[id := slots[id]]
    ensures Traced(ELIDING, h', s') && s' == INIT.(slots := slots) && forall i :: 0 <= i < |h'| ==> h'[i].log == []
  {
    s' := INIT.(slots := slots);
    SeenStep(ELIDING, h, s, Environment(Register(id, slots[id].value)), s');
    h' := h + [BoardOf(s')];
  }

  const ONE: Slots := [Some(Running(10)), None, None, None, None, None]
  const BOTH: Slots := [Some(Running(10)), Some(Running(20)), None, None, None, None]

  lemma RegisterOne() returns (h: seq<Board>, s: State)
    ensures Traced(ELIDING, h, s) && s == INIT.(slots := ONE)
    ensures forall i :: 0 <= i < |h| ==> h[i].log == []
  {
    StartTraced(ELIDING);
    h, s := RegisterNext([BoardOf(INIT)], INIT, 0, ONE);
  }

  lemma RegisterBoth() returns (h: seq<Board>, s: State)
    ensures Traced(ELIDING, h, s) && s == INIT.(slots := BOTH)
    ensures forall i :: 0 <= i < |h| ==> h[i].log == []
  {
    h, s := RegisterOne();
    h, s := RegisterNext(h, s, 1, BOTH);
  }

  lemma RegisterThree() returns (h: seq<Board>, s: State)
    ensures Traced(ELIDING, h, s) && s == INIT.(slots := THREE)
    ensures forall i :: 0 <= i < |h| ==> h[i].log == []
  {
    h, s := RegisterBoth();
    h, s := RegisterNext(h, s, 2, THREE);
  }

  /** The first thread has read the third one's loop under the lock. */
  lemma LockForThird(h: seq<Board>, s: State) returns (s4: State)
    requires Traced(ELIDING, h, s) && s == INIT.(slots := THREE)
    ensures Traced(ELIDING, h, s4) && s4.slots == THREE && s4.log == [] && s4.decided == map[] && s4.lock == Some(7)
    ensures s4.calls == map[7 := Call(Some(10), 2)] && s4.posts.Keys == {7}
    ensures s4.posts[7].pc == Enqueue(Locked, 30) && s4.posts[7].target == 2 && s4.posts[7].loop == Some(10)
  {
    var s1 := s.(calls := map[7 := Call(Some(10), 2)],
                 posts := map[7 := Post(Some(10), 2, HomeOf(s.slots, Some(10)), Scan(0))]);
    UnseenStep(ELIDING, h, s, Begin(7, Some(10), 2), s1);
    var s2 := At(s1, 7, Acquire);
    UnseenStep(ELIDING, h, s1, ScanSlot(7), s2);
    var s3 := At(s2, 7, Read(Locked)).(lock := Some(7));
    UnseenStep(ELIDING, h, s2, AcquireLock(7), s3);
    s4 := At(s3, 7, Enqueue(Locked, 30));
    UnseenStep(ELIDING, h, s3, ReadSlot(7), s4);
  }

  lemma BeginForFirst(h: seq<Board>, s: State) returns (s1: State)
    requires Traced(ELIDING, h, s) && 8 !in s.calls && 8 !in s.posts
    ensures Traced(ELIDING, h, s1) && 8 in s1.posts && s1.posts[8].loop == Some(20)
    ensures s1 == s.(calls := s.calls[8 := Call(Some(20), 0)], posts := s.posts[8 := s1.posts[8]])
    ensures s1.posts[8].pc == Scan(0) && s1.posts[8].target == 0
  {
    var p := Post(Some(20), 0, HomeOf(s.slots, Some(20)), Scan(0));
    s1 := s.(calls := s.calls[8 := Call(Some(20), 0)], posts := s.posts[8 := p]);
    UnseenStep(ELIDING, h, s, Begin(8, Some(20), 0), s1);
  }

  /** The second thread's scan has found its own id. */
  lemma ScanForFirst(h: seq<Board>, s: State) returns (s3: State)
    requires Traced(ELIDING, h, s) && s.slots == THREE && 8 !in s.calls && 8 !in s.posts
    ensures Traced(ELIDING, h, s3) && 8 in s3.posts && s3.posts[8].loop == Some(20)
    ensures s3 == s.(calls := s.calls[8 := Call(Some(20), 0)], posts := s.posts[8 := s3.posts[8]])
    ensures s3.posts[8].pc == Read(Elided(1)) && s3.posts[8].target == 0
  {
    var s1 := BeginForFirst(h, s);
    var s2 := At(s1, 8, Scan(1));
    UnseenStep(ELIDING, h, s1, ScanSlot(8), s2);
    s3 := At(s2, 8, Read(Elided(1)));
    UnseenStep(ELIDING, h, s2, ScanSlot(8), s3);
  }

  /** The second thread has read the first one's loop without the lock. */
  lemma ElideForFirst(h: seq<Board>, s: State) returns (s4: State)
    requires Traced(ELIDING, h, s) && s.slots == THREE && 8 !in s.calls && 8 !in s.posts
    ensures Traced(ELIDING, h, s4) && 8 in s4.posts && s4.posts[8].loop == Some(20)
    ensures s4 == s.(calls := s.calls[8 := Call(Some(20), 0)], posts := s.posts[8 := s4.posts[8]])
    ensures s4.posts[8].pc == Enqueue(Elided(1), 10) && s4.posts[8].target == 0
  {
    var s3 := ScanForFirst(h, s);
    s4 := At(s3, 8, Enqueue(Elided(1), 10));
    UnseenStep(ELIDING, h, s3, ReadSlot(8), s4);
  }

  /** The third thread is stopped, and only then the post without the lock is made. */
  lemma StopAndDisturb(h: seq<Board>, s: State) returns (h': seq<Board>, s': State)
    requires Traced(ELIDING, h, s) && forall i :: 0 <= i < |h| ==> h[i].log == []
    requires s.slots == THREE && s.log == [] && s.decided == map[]
    requires s.posts.Keys == {7, 8} && s.posts[7].loop == Some(10) && s.posts[8].loop == Some(20)
    requires s.posts[8].pc == Enqueue(Elided(1), 10) && s.posts[8].target == 0
    ensures Traced(ELIDING, h', s') && s'.posts.Keys == {7, 8} && s'.posts[7] == s.posts[7] && s'.calls == s.calls
    ensures s'.slots == TWO && s'.log == [Enqueued(0, 10, 8)] && s'.decided.Keys == {8}
    ensures forall i :: 0 <= i < |h'| - 1 ==> h'[i].log == []
  {
    var s1 := s.(slots := TWO);
    assert TWO == THREE[2 := Some(Stopped)];
    SeenStep(ELIDING, h, s, Environment(Stop(2)), s1);
    s' := At(s1, 8, Leave(Elided(1), true)).(
      log := [Enqueued(0, 10, 8)], decided := map[8 := Outcome(Call(Some(20), 0), true)]);
    SeenStep(ELIDING, h + [BoardOf(s1)], s1, EnqueueTask(8), s');
    h' := h + [BoardOf(s1)] + [BoardOf(s')];
  }

  /**
   Though all callers have message loops and threads stop in order: a post that skips the
   lock may be settled between the stop of a thread and a late post to it under the lock,
   which no run of the always-locking form can show.
   */
  lemma DisturbedLatePostIsObservable()
    ensures exists h, s :: Traced(ELIDING, h, s) && OnLoops(s) && !Matched(true, h, s)
  {
    var h, s := RegisterThree();
    var s1 := LockForThird(h, s);
    var h4, s4 := Disturb(h, s1);
    LateAfterDisturbance(h4, s4);
  }

  lemma Disturb(h: seq<Board>, s: State) returns (h': seq<Board>, s': State)
    requires Traced(ELIDING, h, s) && forall i :: 0 <= i < |h| ==> h[i].log == []
    requires s.slots == THREE && s.log == [] && s.decided == map[]
    requires s.calls == map[7 := Call(Some(10), 2)] && s.posts.Keys == {7} && s.posts[7].loop == Some(10)
    ensures Traced(ELIDING, h', s') && forall i :: 0 <= i < |h'| - 1 ==> h'[i].log == []
    ensures s'.slots == TWO && s'.log != [] && 7 !in s'.decided && OnLoops(s')
    ensures 7 in s'.posts && s'.posts[7] == s.posts[7]
  {
    var s2 := ElideForFirst(h, s);
    h', s' := StopAndDisturb(h, s2);
  }

  lemma LateAfterDisturbance(h: seq<Board>, s: State)
    requires Traced(ELIDING, h, s) && s.slots == TWO && s.log != [] && 7 !in s.decided && OnLoops(s)
    requires forall i :: 0 <= i < |h| - 1 ==> h[i].log == []
    requires 7 in s.posts && s.posts[7].pc == Enqueue(Locked, 30) && s.posts[7].target == 2
    ensures exists h', s' :: Traced(ELIDING, h', s') && OnLoops(s') && !Matched(true, h', s')
  {
    TracedEnds(ELIDING, h, s);
    NoWindow(h, BoardOf(s), s.posts[7].loop);
    var s' := At(s, 7, Leave(Locked, true)).(
      log := s.log + [Enqueued(2, 30, 7)], decided := s.decided[7 := OutcomeOf(s.posts[7], true)]);
    LateIsNotAtomic(true, BoardOf(s), Enqueued(2, 30, 7), s.posts[7].loop);
    SeenStep(ELIDING, h, s, EnqueueTask(7), s');
    NotShownByLocking(h, s, s', s.posts[7].loop);
    assert OnLoops(s');
  }

  lemma NoWindow(h: seq<Board>, last: Board, caller: Option<int>)
    requires h != [] && h[|h| - 1] == last && last.slots == TWO && last.log != []
    requires forall i :: 0 <= i < |h| - 1 ==> h[i].log == []
    ensures !WindowOpen(h, 2, 30, caller)
  {
    forall i: nat ensures !OpenSince(h, i, 2, 30, caller) {
      if i < |h| - 1 {
        assert !Undisturbed(h[i], h[|h| - 1], caller);
      }
    }
  }

  lemma NotShownByLocking(h: seq<Board>, s: State, s': State, caller: Option<int>)
    requires h != [] && h[|h| - 1] == BoardOf(s) && s.slots == TWO && 7 !in s.decided
    requires BoardOf(s') == Handed(BoardOf(s), Enqueued(2, 30, 7), caller) && !WindowOpen(h, 2, 30, caller)
    ensures !Matched(true, h + [BoardOf(s')], s')
  {
    var h' := h + [BoardOf(s')];
    LateIsNotAtomic(true, BoardOf(s), Enqueued(2, 30, 7), caller);
    NotedLockable(true, h, BoardOf(s'));
    LocksIffLockable(true, h');
    if Lockable(true, h') {
      LateInWindowIffLockable(true, h, Enqueued(2, 30, 7), caller);
    }
  }
}
