/** web/public/web_thread.h: what the result of a post says about the task. */
module PostedTasks {
  import opened Options
  import opened ThreadLifetimes

  ghost predicate In(log: seq<Enqueued>, task: int) {
    exists i :: 0 <= i < |log| && log[i].task == task
  }

  /** Each entry of the log is for the target its call was made with. */
  ghost predicate ForTargets(log: seq<Enqueued>, calls: map<int, Call>) {
    forall i :: 0 <= i < |log| ==> log[i].task in calls && calls[log[i].task].target == log[i].target
  }

  /** The tasks handed over are those of the calls settled as true, each of them once. */
  ghost predicate LogInv(log: seq<Enqueued>, decided: map<int, Outcome>) {
    && (forall t :: (t in decided && decided[t].posted) <==> In(log, t))
    && (forall i, j :: 0 <= i < j < |log| ==> log[i].task != log[j].task)
  }

  lemma AppendKeepsLog(log: seq<Enqueued>, decided: map<int, Outcome>, entry: Enqueued, outcome: Outcome)
    requires LogInv(log, decided) && entry.task !in decided && outcome.posted
    ensures LogInv(log + [entry], decided[entry.task := outcome])
  {
    var log' := log + [entry];
    forall t ensures In(log', t) <==> In(log, t) || t == entry.task {
      assert log'[|log|] == entry;
      if In(log, t) {
        var i :| 0 <= i < |log| && log[i].task == t;
        assert log'[i].task == t;
      }
    }
    forall i | 0 <= i < |log| ensures log[i].task != entry.task {
      assert In(log, log[i].task);
    }
  }

  lemma {:induction false} RunKeepsLog(form: Form, states: seq<State>, steps: seq<Step>, n: nat)
    requires IsRun(form, states, steps) && n <= |steps|
    ensures LogInv(states[n].log, states[n].decided) && ForTargets(states[n].log, states[n].calls)
  {
    if n > 0 {
      var s, step := states[n - 1], steps[n - 1];
      RunKeepsLog(form, states, steps, n - 1);
      RunKeepsInv(form, states, steps, n - 1);
      assert Next(form, s, step, states[n]);
      if step.EnqueueTask? {
        assert PostInv(form, s, step.task, s.posts[step.task]);
        AppendKeepsLog(s.log, s.decided, states[n].log[|s.log|], states[n].decided[step.task]);
      } else if step.ReadSlot? {
        assert PostInv(form, s, step.task, s.posts[step.task]);
      }
    }
  }

  // ---------- The loop a task is handed to ----------

  /** At some time so far the thread has been running on the loop. */
  ghost predicate HasRunOn(states: seq<State>, n: nat, id: nat, loop: int)
    requires n < |states| && id < ID_COUNT
  {
    exists i :: 0 <= i <= n && LoopAt(states[i].slots, id) == Some(loop)
  }

  ghost predicate LoopsAreTargets(states: seq<State>, n: nat)
    requires n < |states|
  {
    && (forall t :: t in states[n].posts && states[n].posts[t].pc.Enqueue? ==>
      var p := states[n].posts[t]; p.target < ID_COUNT && HasRunOn(states, n, p.target, p.pc.loop))
    && (forall i :: 0 <= i < |states[n].log| ==>
      var e := states[n].log[i]; e.target < ID_COUNT && HasRunOn(states, n, e.target, e.loop))
  }

  lemma {:induction false} RunKeepsLoops(form: Form, states: seq<State>, steps: seq<Step>, n: nat)
    requires IsRun(form, states, steps) && n <= |steps|
    ensures LoopsAreTargets(states, n)
  {
    if n > 0 {
      RunKeepsLoops(form, states, steps, n - 1);
      assert Next(form, states[n - 1], steps[n - 1], states[n]);
      forall t | t in states[n].posts && states[n].posts[t].pc.Enqueue?
        ensures var p := states[n].posts[t]; p.target < ID_COUNT && HasRunOn(states, n, p.target, p.pc.loop)
      {
        PostKeepsLoop(form, states, steps, n, t);
      }
      forall i | 0 <= i < |states[n].log|
        ensures var e := states[n].log[i]; e.target < ID_COUNT && HasRunOn(states, n, e.target, e.loop)
      {
        EntryKeepsLoop(form, states, steps, n, i);
      }
    }
  }

  lemma HasRunLater(states: seq<State>, n: nat, id: nat, loop: int)
    requires 0 < n < |states| && id < ID_COUNT && HasRunOn(states, n - 1, id, loop)
    ensures HasRunOn(states, n, id, loop)
  {
  }

  lemma PostKeepsLoop(form: Form, states: seq<State>, steps: seq<Step>, n: nat, t: int)
    requires IsRun(form, states, steps) && 0 < n <= |steps| && LoopsAreTargets(states, n - 1)
    requires Next(form, states[n - 1], steps[n - 1], states[n])
    requires t in states[n].posts && states[n].posts[t].pc.Enqueue?
    ensures var p := states[n].posts[t]; p.target < ID_COUNT && HasRunOn(states, n, p.target, p.pc.loop)
  {
    var s, p := states[n - 1], states[n].posts[t];
    if steps[n - 1] == ReadSlot(t) {
      assert LoopAt(states[n - 1].slots, p.target) == Some(p.pc.loop);
    } else {
      assert t in s.posts && s.posts[t] == p;
      HasRunLater(states, n, p.target, p.pc.loop);
    }
  }

  lemma EntryKeepsLoop(form: Form, states: seq<State>, steps: seq<Step>, n: nat, i: nat)
    requires IsRun(form, states, steps) && 0 < n <= |steps| && LoopsAreTargets(states, n - 1)
    requires Next(form, states[n - 1], steps[n - 1], states[n]) && i < |states[n].log|
    ensures var e := states[n].log[i]; e.target < ID_COUNT && HasRunOn(states, n, e.target, e.loop)
  {
    var s, e := states[n - 1], states[n].log[i];
    if i < |s.log| {
      assert s.log[i] == e;
    } else {
      assert s.posts[steps[n - 1].task].pc.loop == e.loop;
    }
    HasRunLater(states, n, e.target, e.loop);
  }

  /** Just one entry has the task: for the call's target, on a loop the target has been running on. */
  ghost predicate PostedOnce(states: seq<State>, n: nat, task: int)
    requires n < |states| && task in states[n].calls
  {
    var log, target := states[n].log, states[n].calls[task].target;
    && (exists i ::
      0 <= i < |log| && log[i].task == task && log[i].target == target < ID_COUNT
      && HasRunOn(states, n, target, log[i].loop))
    && forall i, j :: 0 <= i < |log| && 0 <= j < |log| && log[i].task == task && log[j].task == task ==> i == j
  }

  /** A call returns true exactly when its task has been handed over to the target, and then just once. */
  lemma TrueIffEnqueuedOnce(form: Form, states: seq<State>, steps: seq<Step>, n: nat, t: int)
    requires IsRun(form, states, steps) && n <= |steps| && t in states[n].returned
    ensures t in states[n].calls
    ensures states[n].returned[t] <==> PostedOnce(states, n, t)
    ensures !states[n].returned[t] ==> !In(states[n].log, t)
  {
    RunKeepsLog(form, states, steps, n);
    RunKeepsInv(form, states, steps, n);
    RunKeepsLoops(form, states, steps, n);
    if states[n].returned[t] {
      assert In(states[n].log, t);
    }
  }

  // ---------- What the result says about the target ----------

  /** The call has read its target's slot once, and then the target did or did not have a loop. */
  ghost predicate ReadOnce(states: seq<State>, steps: seq<Step>, n: nat, t: int, target: nat, found: bool)
    requires n < |states| && n <= |steps|
  {
    exists i :: 0 <= i < n && steps[i] == ReadSlot(t) && ReadOnceAt(states, steps, n, t, target, found, i)
  }

  ghost predicate ReadOnceAt(states: seq<State>, steps: seq<Step>, n: nat, t: int, target: nat, found: bool, i: nat)
    requires n < |states| && n <= |steps| && i < n
  {
    && target < ID_COUNT && LoopAt(states[i].slots, target).Some? == found
    && forall j :: 0 <= j < n && steps[j] == ReadSlot(t) ==> j == i
  }

  ghost predicate NotRead(steps: seq<Step>, n: nat, t: int)
    requires n <= |steps|
  {
    forall i :: 0 <= i < n ==> steps[i] != ReadSlot(t)
  }

  /** How far a call has got, and whether its task is to be posted, if it has got past the read. */
  function Found(s: State, t: int): Option<bool> {
    if t in s.decided then Some(s.decided[t].posted)
    else if t in s.posts && s.posts[t].pc.Enqueue? then Some(true)
    else None
  }

  ghost predicate ReadsAre(states: seq<State>, steps: seq<Step>, n: nat, t: int)
    requires n < |states| && n <= |steps|
  {
    var s := states[n];
    if t in s.calls && Found(s, t).Some? then ReadOnce(states, steps, n, t, s.calls[t].target, Found(s, t).value)
    else NotRead(steps, n, t)
  }

  lemma StepKeepsFound(form: Form, s: State, step: Step, s': State, t: int)
    requires Inv(form, s) && Next(form, s, step, s')
    ensures t in s.calls ==> t in s'.calls && s'.calls[t] == s.calls[t]
    ensures if step == ReadSlot(t) then
        && t in s.calls && Found(s, t).None? && s.calls[t].target < ID_COUNT
        && Found(s', t) == Some(LoopAt(s.slots, s.calls[t].target).Some?)
      else
        Found(s', t) == Found(s, t)
    ensures Found(s, t).Some? ==> t in s.calls
  {
    if t in s.posts {
      assert PostInv(form, s, t, s.posts[t]);
    }
    if !step.Environment? && step.task in s.posts {
      assert PostInv(form, s, step.task, s.posts[step.task]);
    }
  }

  lemma {:induction false} RunKeepsReads(form: Form, states: seq<State>, steps: seq<Step>, n: nat, t: int)
    requires IsRun(form, states, steps) && n <= |steps|
    ensures ReadsAre(states, steps, n, t)
  {
    if n > 0 {
      RunKeepsReads(form, states, steps, n - 1, t);
      RunKeepsInv(form, states, steps, n - 1);
      var s, s' := states[n - 1], states[n];
      StepKeepsFound(form, s, steps[n - 1], s', t);
      if steps[n - 1] == ReadSlot(t) {
        FirstRead(states, steps, n, t, s.calls[t].target);
      } else if Found(s, t).Some? {
        LaterStepKeepsRead(states, steps, n, t, s.calls[t].target, Found(s, t).value);
      } else {
        LaterStepKeepsRead(states, steps, n, t, 0, false);
      }
    }
  }

  lemma LaterStepKeepsRead(states: seq<State>, steps: seq<Step>, n: nat, t: int, target: nat, found: bool)
    requires 0 < n < |states| && n <= |steps| && steps[n - 1] != ReadSlot(t)
    ensures NotRead(steps, n, t) <==> NotRead(steps, n - 1, t)
    ensures ReadOnce(states, steps, n - 1, t, target, found) ==> ReadOnce(states, steps, n, t, target, found)
  {
    if ReadOnce(states, steps, n - 1, t, target, found) {
      var i :| 0 <= i < n - 1 && steps[i] == ReadSlot(t) && ReadOnceAt(states, steps, n - 1, t, target, found, i);
      assert ReadOnceAt(states, steps, n, t, target, found, i);
    }
  }

  lemma FirstRead(states: seq<State>, steps: seq<Step>, n: nat, t: int, target: nat)
    requires 0 < n < |states| && n <= |steps| && steps[n - 1] == ReadSlot(t) && NotRead(steps, n - 1, t)
    requires target < ID_COUNT
    ensures ReadOnce(states, steps, n, t, target, LoopAt(states[n - 1].slots, target).Some?)
  {
    assert ReadOnceAt(states, steps, n, t, target, LoopAt(states[n - 1].slots, target).Some?, n - 1);
  }

  /**
   A call reads its target's slot just once before it returns, and returns true exactly when
   it then finds a thread there that has a message loop.
   */
  lemma TrueIffTargetHadLoop(form: Form, states: seq<State>, steps: seq<Step>, n: nat, t: int)
    requires IsRun(form, states, steps) && n <= |steps| && t in states[n].returned
    ensures t in states[n].calls
    ensures ReadOnce(states, steps, n, t, states[n].calls[t].target, states[n].returned[t])
    ensures !ReadOnce(states, steps, n, t, states[n].calls[t].target, !states[n].returned[t])
  {
    RunKeepsInv(form, states, steps, n);
    RunKeepsReads(form, states, steps, n, t);
  }
}
