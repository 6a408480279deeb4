/**
 What can be observed of a run of `PostTaskHelper` calls, and exactly which histories the
 form that always takes the lock can show.
 */
module LockHistories {
  import opened Options
  import opened ThreadLifetimes
  import opened PostRaces

  // ---------- The atomic post ----------

  /**
   What can be observed: the slot array, the tasks handed over, and of each call that has
   been settled who made it, its target and its outcome.
   */
  datatype Board = Board(slots: Slots, log: seq<Enqueued>, decided: map<int, Outcome>)

  function BoardOf(s: State): Board {
    Board(s.slots, s.log, s.decided)
  }

  datatype AtomicStep = Life(e: Lifetime) | AtomicPost(call: Call, task: int)

  /** The task is handed over on behalf of a caller. */
  function Handed(b: Board, entry: Enqueued, caller: Option<int>): Board {
    b.(log := b.log + [entry], decided := b.decided[entry.task := Outcome(Call(caller, entry.target), true)])
  }

  function Refused(b: Board, call: Call, task: int): Board {
    b.(decided := b.decided[task := Outcome(call, false)])
  }

  ghost predicate AtomicNext(ordered: bool, b: Board, step: AtomicStep, b': Board) {
    match step
    case Life(e) =>
      LifetimeStep(ordered, b.slots, e, b'.slots) && b' == b.(slots := b'.slots)
    case AtomicPost(call, task) =>
      && call.target < ID_COUNT && task !in b.decided
      && var loop := LoopAt(b.slots, call.target);
      && b' == (if loop.Some? then Handed(b, Enqueued(call.target, loop.value, task), call.loop)
                else Refused(b, call, task))
  }

  ghost predicate Atomic(ordered: bool, b: Board, b': Board) {
    exists step :: AtomicNext(ordered, b, step, b')
  }

  /** The step hands a task to a loop that its target no longer has. */
  ghost predicate IsLate(s: State, step: Step) {
    step.EnqueueTask? && Late(s, step.task)
  }

  function EntryOf(s: State, t: int): Enqueued
    requires t in s.posts && s.posts[t].pc.Enqueue?
  {
    Enqueued(s.posts[t].target, s.posts[t].pc.loop, t)
  }

  /** A step of either form is an atomic post, a change of lifetimes or nothing, unless it is late. */
  lemma StepIsAtomicUnlessLate(form: Form, s: State, step: Step, s': State)
    requires Inv(form, s) && Next(form, s, step, s')
    ensures BoardOf(s') == BoardOf(s) || Atomic(form.ordered, BoardOf(s), BoardOf(s')) <==> !IsLate(s, step)
    ensures step.EnqueueTask? ==>
      && BoardOf(s') == Handed(BoardOf(s), EntryOf(s, step.task), s.posts[step.task].loop)
      && step.task !in s.decided
  {
    match step
    case Environment(e) =>
      assert AtomicNext(form.ordered, BoardOf(s), Life(e), BoardOf(s'));
    case Begin(_, _, _) =>
    case ScanSlot(_) =>
    case AcquireLock(_) =>
    case ReadSlot(t) =>
      assert PostInv(form, s, t, s.posts[t]);
      if s.posts[t].pc.Read? && LoopAt(s.slots, s.posts[t].target).None? {
        assert AtomicNext(form.ordered, BoardOf(s), AtomicPost(s.calls[t], t), BoardOf(s'));
      }
    case EnqueueTask(t) =>
      assert PostInv(form, s, t, s.posts[t]);
      var entry := EntryOf(s, t);
      assert BoardOf(s') == Handed(BoardOf(s), entry, s.posts[t].loop);
      if !Late(s, t) {
        assert AtomicNext(form.ordered, BoardOf(s), AtomicPost(s.calls[t], t), BoardOf(s'));
      } else {
        LateIsNotAtomic(form.ordered, BoardOf(s), entry, s.posts[t].loop);
      }
    case Return(_) =>
  }

  lemma LateIsNotAtomic(ordered: bool, b: Board, entry: Enqueued, caller: Option<int>)
    requires entry.target < ID_COUNT && LoopAt(b.slots, entry.target) != Some(entry.loop)
    ensures Handed(b, entry, caller) != b && !Atomic(ordered, b, Handed(b, entry, caller))
  {
    var b' := Handed(b, entry, caller);
    var log := b'.log;
    assert |log| == |b.log| + 1 && log[|b.log|] == entry;
    forall step ensures !AtomicNext(ordered, b, step, b') {
      if step.AtomicPost? && step.call.target < ID_COUNT && LoopAt(b.slots, step.call.target).Some? {
        var other := Enqueued(step.call.target, LoopAt(b.slots, step.call.target).value, step.task);
        assert (b.log + [other])[|b.log|] == other;
      }
    }
  }

  // ---------- Histories ----------

  function Noted(h: seq<Board>, b: Board): seq<Board> {
    if h != [] && h[|h| - 1] == b then h else h + [b]
  }

  /**
   All an observer sees of a run up to its n-th state: its boards, one after the other,
   without repetitions.
   */
  function History(states: seq<State>, n: nat): seq<Board>
    requires n < |states|
  {
    var b := BoardOf(states[n]);
    if n == 0 then [b] else Noted(History(states, n - 1), b)
  }

  lemma HistoryEnds(states: seq<State>, n: nat)
    requires n < |states|
    ensures var h := History(states, n); h != [] && h[|h| - 1] == BoardOf(states[n])
  {
  }

  lemma {:induction false} HistoryOfPrefix(states: seq<State>, more: seq<State>, n: nat)
    requires n < |states|
    ensures History(states + more, n) == History(states, n)
  {
    if n > 0 {
      HistoryOfPrefix(states, more, n - 1);
    }
  }

  /** Some run with this history leads to the state. */
  ghost predicate Traced(form: Form, h: seq<Board>, s: State) {
    exists states: seq<State>, steps: seq<Step> ::
      IsRun(form, states, steps) && states[|steps|] == s && History(states, |steps|) == h
  }

  lemma StartTraced(form: Form)
    ensures Traced(form, [BoardOf(INIT)], INIT)
  {
    var states, steps: seq<Step> := [INIT], [];
    assert IsRun(form, states, steps) && History(states, 0) == [BoardOf(INIT)];
  }

  lemma LongerRun(form: Form, states: seq<State>, steps: seq<Step>, step: Step, s': State)
    requires IsRun(form, states, steps) && Next(form, states[|steps|], step, s')
    ensures IsRun(form, states + [s'], steps + [step])
  {
    var states', steps' := states + [s'], steps + [step];
    forall i | 0 <= i < |steps'| ensures Next(form, states'[i], steps'[i], states'[i + 1]) {
      if i == |steps| {
        assert states'[i] == states[i];
      }
    }
  }

  lemma StepTraced(form: Form, h: seq<Board>, s: State, step: Step, s': State)
    requires Traced(form, h, s) && Next(form, s, step, s')
    ensures Traced(form, Noted(h, BoardOf(s')), s')
  {
    var states: seq<State>, steps: seq<Step> :|
      IsRun(form, states, steps) && states[|steps|] == s && History(states, |steps|) == h;
    LongerRun(form, states, steps, step, s');
    LongerHistory(states, |steps|, s');
    assert (states + [s'])[|steps + [step]|] == s';
  }

  lemma LongerHistory(states: seq<State>, n: nat, s': State)
    requires |states| == n + 1
    ensures History(states + [s'], n + 1) == Noted(History(states, n), BoardOf(s'))
  {
    HistoryOfPrefix(states, [s'], n);
  }

  lemma TracedEnds(form: Form, h: seq<Board>, s: State)
    requires Traced(form, h, s)
    ensures Inv(form, s) && h != [] && h[|h| - 1] == BoardOf(s)
  {
    var states: seq<State>, steps: seq<Step> :|
      IsRun(form, states, steps) && states[|steps|] == s && History(states, |steps|) == h;
    RunKeepsInv(form, states, steps, |steps|);
    HistoryEnds(states, |steps|);
  }

  lemma UnseenStep(form: Form, h: seq<Board>, s: State, step: Step, s': State)
    requires Traced(form, h, s) && Next(form, s, step, s') && BoardOf(s') == BoardOf(s)
    ensures Traced(form, h, s')
  {
    TracedEnds(form, h, s);
    StepTraced(form, h, s, step, s');
  }

  lemma SeenStep(form: Form, h: seq<Board>, s: State, step: Step, s': State)
    requires Traced(form, h, s) && Next(form, s, step, s') && BoardOf(s') != BoardOf(s)
    ensures Traced(form, h + [BoardOf(s')], s')
  {
    TracedEnds(form, h, s);
    StepTraced(form, h, s, step, s');
  }

  // ---------- What the always-locking form can show ----------

  /**
   From one board to the other no call is settled, no slot filled or emptied, and the
   caller's thread neither stopped nor started.
   */
  predicate Undisturbed(a: Board, b: Board, caller: Option<int>) {
    && b.log == a.log && b.decided == a.decided
    && SameRegistered(a, b) && SameThread(a, b, caller)
  }

  predicate SameRegistered(a: Board, b: Board) {
    forall k :: 0 <= k < ID_COUNT ==> (b.slots[k].Some? <==> a.slots[k].Some?)
  }

  /** The caller's thread, if it has one, is where it was. */
  predicate SameThread(a: Board, b: Board, caller: Option<int>) {
    caller.Some? ==> forall k :: 0 <= k < ID_COUNT ==>
      (LoopAt(b.slots, k) == caller <==> LoopAt(a.slots, k) == caller)
  }

  ghost predicate OpenSince(h: seq<Board>, i: nat, id: nat, loop: int, caller: Option<int>) {
    && i < |h| && id < ID_COUNT && LoopAt(h[i].slots, id) == Some(loop)
    && forall j :: i <= j < |h| ==> Undisturbed(h[i], h[j], caller)
  }

  /** Nothing has been settled or registered since the thread last had the loop. */
  ghost predicate WindowOpen(h: seq<Board>, id: nat, loop: int, caller: Option<int>) {
    exists i: nat :: OpenSince(h, i, id, loop, caller)
  }

  ghost predicate LatePost(h: seq<Board>, b: Board)
    requires h != []
  {
    var last := h[|h| - 1];
    exists entry, caller ::
      && b == Handed(last, entry, caller) && entry.task !in last.decided
      && WindowOpen(h, entry.target, entry.loop, caller)
  }

  ghost predicate LockableStep(ordered: bool, h: seq<Board>, b: Board) {
    h != [] && b != h[|h| - 1] && (Atomic(ordered, h[|h| - 1], b) || LatePost(h, b))
  }

  /** A history of atomic steps, and of late posts while the window for them is open. */
  ghost predicate Lockable(ordered: bool, h: seq<Board>) {
    && h != [] && h[0] == BoardOf(INIT)
    && forall k {:trigger LockableStep(ordered, h[..k], h[k])} :: 1 <= k < |h| ==> LockableStep(ordered, h[..k], h[k])
  }

  /** All that has been read under the lock can still be used. */
  ghost predicate ReadsOpen(s: State, h: seq<Board>) {
    forall t :: t in s.posts && s.posts[t].pc.Enqueue? ==>
      WindowOpen(h, s.posts[t].target, s.posts[t].pc.loop, s.posts[t].loop)
  }

  lemma StaysOpen(h: seq<Board>, b: Board, id: nat, loop: int, caller: Option<int>)
    requires h != [] && WindowOpen(h, id, loop, caller) && Undisturbed(h[|h| - 1], b, caller)
    ensures WindowOpen(Noted(h, b), id, loop, caller)
  {
    var i: nat :| OpenSince(h, i, id, loop, caller);
    assert OpenSince(Noted(h, b), i, id, loop, caller);
  }

  lemma NotedLockable(ordered: bool, h: seq<Board>, b: Board)
    requires h != []
    ensures Lockable(ordered, Noted(h, b)) <==> Lockable(ordered, h) && (b == h[|h| - 1] || LockableStep(ordered, h, b))
  {
    if b != h[|h| - 1] {
      AppendedLockable(ordered, h, b);
    }
  }

  lemma AppendedLockable(ordered: bool, h: seq<Board>, b: Board)
    requires h != []
    ensures Lockable(ordered, h + [b]) <==> Lockable(ordered, h) && LockableStep(ordered, h, b)
  {
    var all := h + [b];
    assert all[..|h|] == h && all[|h|] == b;
    forall k | 1 <= k < |h| ensures all[..k] == h[..k] && all[k] == h[k] {
    }
    if Lockable(ordered, all) {
      assert LockableStep(ordered, all[..|h|], all[|h|]);
      forall k | 1 <= k < |h| ensures LockableStep(ordered, h[..k], h[k]) {
        assert LockableStep(ordered, all[..k], all[k]);
      }
    }
  }

  lemma LockablePrefix(ordered: bool, h: seq<Board>, n: nat)
    requires Lockable(ordered, h) && 1 <= n <= |h|
    ensures Lockable(ordered, h[..n])
  {
    forall k | 1 <= k < n ensures LockableStep(ordered, h[..n][..k], h[..n][k]) {
      assert h[..n][..k] == h[..k];
      assert LockableStep(ordered, h[..k], h[k]);
    }
  }

  /** In the locking form only the call that holds the lock is past its read. */
  lemma LockedStepKeepsLockable(form: Form, h: seq<Board>, s: State, step: Step, s': State)
    requires !form.elide && Inv(form, s) && Next(form, s, step, s')
    requires h != [] && h[|h| - 1] == BoardOf(s) && Lockable(form.ordered, h) && ReadsOpen(s, h)
    ensures Lockable(form.ordered, Noted(h, BoardOf(s')))
    ensures ReadsOpen(s', Noted(h, BoardOf(s')))
  {
    StepIsAtomicUnlessLate(form, s, step, s');
    if IsLate(s, step) {
      assert LatePost(h, BoardOf(s')) by {
        assert WindowOpen(h, EntryOf(s, step.task).target, EntryOf(s, step.task).loop, s.posts[step.task].loop);
      }
    }
    NotedLockable(form.ordered, h, BoardOf(s'));
    StepKeepsInv(form, s, step, s');
    forall t | t in s'.posts && s'.posts[t].pc.Enqueue?
      ensures WindowOpen(Noted(h, BoardOf(s')), s'.posts[t].target, s'.posts[t].pc.loop, s'.posts[t].loop)
    {
      LockedReadStaysOpen(form, h, s, step, s', t);
    }
  }

  lemma LockedReadStaysOpen(form: Form, h: seq<Board>, s: State, step: Step, s': State, t: int)
    requires !form.elide && Inv(form, s) && Next(form, s, step, s') && Inv(form, s')
    requires h != [] && h[|h| - 1] == BoardOf(s) && ReadsOpen(s, h)
    requires t in s'.posts && s'.posts[t].pc.Enqueue?
    ensures WindowOpen(Noted(h, BoardOf(s')), s'.posts[t].target, s'.posts[t].pc.loop, s'.posts[t].loop)
  {
    assert PostInv(form, s', t, s'.posts[t]);
    var id, loop, caller := s'.posts[t].target, s'.posts[t].pc.loop, s'.posts[t].loop;
    if step == ReadSlot(t) {
      assert OpenSince(h, |h| - 1, id, loop, caller);
    } else {
      LockExcludes(form, s, step, s', t);
      StaysOpen(h, BoardOf(s'), id, loop, caller);
    }
  }

  lemma LockExcludes(form: Form, s: State, step: Step, s': State, t: int)
    requires !form.elide && Inv(form, s) && Next(form, s, step, s') && step != ReadSlot(t)
    requires t in s'.posts && s'.posts[t].pc.Enqueue?
    ensures t in s.posts && s.posts[t] == s'.posts[t] && Undisturbed(BoardOf(s), BoardOf(s'), s.posts[t].loop)
  {
    assert t in s.posts && PostInv(form, s, t, s.posts[t]);
    forall u | u in s.posts && u != t ensures s.posts[u].pc.Acquire? {
      assert PostInv(form, s, u, s.posts[u]);
    }
  }

  lemma {:induction false} LockedRunIsLockable(form: Form, states: seq<State>, steps: seq<Step>, n: nat)
    requires !form.elide && IsRun(form, states, steps) && n <= |steps|
    ensures Lockable(form.ordered, History(states, n)) && ReadsOpen(states[n], History(states, n))
  {
    if n > 0 {
      LockedRunIsLockable(form, states, steps, n - 1);
      HistoryEnds(states, n - 1);
      RunKeepsInv(form, states, steps, n - 1);
      LockedStepKeepsLockable(form, History(states, n - 1), states[n - 1], steps[n - 1], states[n]);
    }
  }

  // ---------- What it can show, it shows ----------

  /** No post is under way, and every outcome has been returned. */
  ghost predicate Quiet(s: State) {
    s.posts == map[] && s.lock == None && s.calls.Keys == s.decided.Keys == s.returned.Keys
  }

  ghost predicate Locks(ordered: bool, h: seq<Board>) {
    exists l :: Traced(Form(false, ordered), h, l) && Quiet(l)
  }

  /** The call is the only one under way, and has got so far. */
  ghost predicate Alone(s: State, t: int, call: Call, pc: Pc) {
    && s.posts.Keys == {t} && s.posts[t].loop == call.loop && s.posts[t].target == call.target
    && s.posts[t].pc == pc && s.lock == (if pc.Acquire? then None else Some(t))
  }

  ghost predicate Unsettled(s: State, t: int, call: Call) {
    && t !in s.decided && s.calls.Keys == s.decided.Keys + {t} && s.calls[t] == call
    && s.returned.Keys == s.decided.Keys
  }

  /** It holds the lock and has read the loop. */
  ghost predicate Holds(ordered: bool, h: seq<Board>, t: int, call: Call, loop: int) {
    exists l :: Traced(Form(false, ordered), h, l) && Alone(l, t, call, Enqueue(Locked, loop)) && Unsettled(l, t, call)
  }

  lemma TakeLock(ordered: bool, h: seq<Board>, s: State, call: Call, t: int) returns (s2: State)
    requires Traced(Form(false, ordered), h, s) && Quiet(s) && call.target < ID_COUNT && t !in s.decided
    ensures Traced(Form(false, ordered), h, s2) && BoardOf(s2) == BoardOf(s)
    ensures Alone(s2, t, call, Read(Locked)) && Unsettled(s2, t, call)
  {
    var p := Post(call.loop, call.target, HomeOf(s.slots, call.loop), Acquire);
    var s1 := s.(calls := s.calls[t := call], posts := map[t := p]);
    UnseenStep(Form(false, ordered), h, s, Begin(t, call.loop, call.target), s1);
    assert Unsettled(s1, t, call);
    s2 := AcquireAlone(ordered, h, s1, t, call);
  }

  lemma AcquireAlone(ordered: bool, h: seq<Board>, s: State, t: int, call: Call) returns (s': State)
    requires Traced(Form(false, ordered), h, s) && Alone(s, t, call, Acquire) && Unsettled(s, t, call)
    ensures Traced(Form(false, ordered), h, s') && BoardOf(s') == BoardOf(s)
    ensures Alone(s', t, call, Read(Locked)) && Unsettled(s', t, call)
  {
    s' := At(s, t, Read(Locked)).(lock := Some(t));
    UnseenStep(Form(false, ordered), h, s, AcquireLock(t), s');
  }

  lemma ReadUnderLock(ordered: bool, h: seq<Board>, call: Call, loop: int, t: int)
    requires Locks(ordered, h) && h != [] && call.target < ID_COUNT
    requires LoopAt(h[|h| - 1].slots, call.target) == Some(loop) && t !in h[|h| - 1].decided
    ensures Holds(ordered, h, t, call, loop)
  {
    var form := Form(false, ordered);
    var s :| Traced(form, h, s) && Quiet(s);
    TracedEnds(form, h, s);
    var s2 := TakeLock(ordered, h, s, call, t);
    ReadTraced(form, h, s2, call, loop, t);
  }

  lemma ReadTraced(form: Form, h: seq<Board>, s: State, call: Call, loop: int, t: int)
    requires !form.elide && Traced(form, h, s) && call.target < ID_COUNT && LoopAt(s.slots, call.target) == Some(loop)
    requires Alone(s, t, call, Read(Locked)) && Unsettled(s, t, call)
    ensures Holds(form.ordered, h, t, call, loop)
  {
    assert form == Form(false, form.ordered);
    var s' := At(s, t, Enqueue(Locked, loop));
    UnseenStep(form, h, s, ReadSlot(t), s');
    assert Alone(s', t, call, Enqueue(Locked, loop)) && Unsettled(s', t, call);
  }

  lemma EnqueueAndReturn(ordered: bool, h: seq<Board>, t: int, call: Call, loop: int)
    requires Holds(ordered, h, t, call, loop) && h != []
    ensures Locks(ordered, h + [Handed(h[|h| - 1], Enqueued(call.target, loop, t), call.loop)])
  {
    var form := Form(false, ordered);
    var s :| Traced(form, h, s) && Alone(s, t, call, Enqueue(Locked, loop)) && Unsettled(s, t, call);
    TracedEnds(form, h, s);
    var s1 := At(s, t, Leave(Locked, true)).(
      log := s.log + [Enqueued(call.target, loop, t)], decided := s.decided[t := Outcome(call, true)]);
    assert OutcomeOf(s.posts[t], true) == Outcome(call, true);
    assert |s1.log| == |s.log| + 1;
    SeenStep(form, h, s, EnqueueTask(t), s1);
    ReturnQuietly(ordered, h + [BoardOf(s1)], s1, t, true);
  }

  lemma ReturnQuietly(ordered: bool, h: seq<Board>, s: State, t: int, posted: bool)
    requires Traced(Form(false, ordered), h, s) && s.posts.Keys == {t} && s.posts[t].pc == Leave(Locked, posted)
    requires s.calls.Keys == s.decided.Keys == s.returned.Keys + {t}
    ensures Locks(ordered, h)
  {
    TracedEnds(Form(false, ordered), h, s);
    var s' := s.(posts := s.posts - {t}, lock := None, returned := s.returned[t := posted]);
    UnseenStep(Form(false, ordered), h, s, Return(t), s');
    assert Quiet(s');
  }

  lemma PostNothing(ordered: bool, h: seq<Board>, call: Call, t: int)
    requires Locks(ordered, h) && h != [] && call.target < ID_COUNT
    requires LoopAt(h[|h| - 1].slots, call.target).None? && t !in h[|h| - 1].decided
    ensures Locks(ordered, h + [Refused(h[|h| - 1], call, t)])
  {
    var form := Form(false, ordered);
    var s :| Traced(form, h, s) && Quiet(s);
    TracedEnds(form, h, s);
    var s2 := TakeLock(ordered, h, s, call, t);
    RefuseAndReturn(ordered, h, s2, t, call);
    TracedEnds(form, h, s2);
  }

  lemma RefuseAndReturn(ordered: bool, h: seq<Board>, s: State, t: int, call: Call)
    requires Traced(Form(false, ordered), h, s) && Alone(s, t, call, Read(Locked)) && Unsettled(s, t, call)
    requires call.target < ID_COUNT && LoopAt(s.slots, call.target).None?
    ensures Locks(ordered, h + [Refused(BoardOf(s), call, t)])
  {
    var s' := At(s, t, Leave(Locked, false)).(decided := s.decided[t := Outcome(call, false)]);
    assert OutcomeOf(s.posts[t], false) == Outcome(call, false);
    assert t in s'.decided && BoardOf(s') != BoardOf(s);
    SeenStep(Form(false, ordered), h, s, ReadSlot(t), s');
    ReturnQuietly(ordered, h + [BoardOf(s')], s', t, false);
  }

  /** Every atomic step is a run of the locking form, by the same caller. */
  lemma AtomicLocks(ordered: bool, h: seq<Board>, b: Board)
    requires Locks(ordered, h) && h != [] && b != h[|h| - 1] && Atomic(ordered, h[|h| - 1], b)
    ensures Locks(ordered, h + [b])
  {
    var last := h[|h| - 1];
    var step :| AtomicNext(ordered, last, step, b);
    match step
    case Life(e) =>
      LifeLocks(ordered, h, e, b);
    case AtomicPost(call, t) =>
      var loop := LoopAt(last.slots, call.target);
      if loop.Some? {
        ReadUnderLock(ordered, h, call, loop.value, t);
        EnqueueAndReturn(ordered, h, t, call, loop.value);
      } else {
        PostNothing(ordered, h, call, t);
      }
  }

  lemma LifeLocks(ordered: bool, h: seq<Board>, e: Lifetime, b: Board)
    requires Locks(ordered, h) && h != [] && b != h[|h| - 1] && AtomicNext(ordered, h[|h| - 1], Life(e), b)
    ensures Locks(ordered, h + [b])
  {
    var s :| Traced(Form(false, ordered), h, s) && Quiet(s);
    TracedEnds(Form(false, ordered), h, s);
    var s' := s.(slots := b.slots);
    SeenStep(Form(false, ordered), h, s, Environment(e), s');
    assert Quiet(s');
  }

  /** Threads other than the caller's can be started and stopped while the lock is held. */
  lemma LifeUnderLock(ordered: bool, h: seq<Board>, b: Board, t: int, call: Call, loop: int)
    requires Holds(ordered, h, t, call, loop) && h != [] && b != h[|h| - 1]
    requires Undisturbed(h[|h| - 1], b, call.loop) && Atomic(ordered, h[|h| - 1], b)
    ensures Holds(ordered, h + [b], t, call, loop)
  {
    var form := Form(false, ordered);
    var s :| Traced(form, h, s) && Alone(s, t, call, Enqueue(Locked, loop)) && Unsettled(s, t, call);
    TracedEnds(form, h, s);
    var step :| AtomicNext(ordered, h[|h| - 1], step, b);
    assert step.Life?;
    var s' := s.(slots := b.slots);
    OtherLifeIsAllowed(ordered, s, step.e, s', t);
    SeenStep(form, h, s, Environment(step.e), s');
    assert Alone(s', t, call, Enqueue(Locked, loop)) && Unsettled(s', t, call);
  }

  lemma OtherLifeIsAllowed(ordered: bool, s: State, e: Lifetime, s': State, t: int)
    requires s.posts.Keys == {t} && s' == s.(slots := s'.slots)
    requires LifetimeStep(ordered, s.slots, e, s'.slots)
    requires Undisturbed(BoardOf(s), BoardOf(s'), s.posts[t].loop)
    ensures Next(Form(false, ordered), s, Environment(e), s')
  {
    assert e.Start? || e.Stop?;
    var before, after := s.slots[e.id], s'.slots[e.id];
    if s.posts[t].loop.Some? {
      assert LoopAt(s.slots, e.id) == s.posts[t].loop <==> LoopAt(s'.slots, e.id) == s.posts[t].loop;
    }
  }

  lemma LatePostSettles(h: seq<Board>, b: Board)
    requires h != []
    ensures LatePost(h, b) ==> b.log != h[|h| - 1].log
  {
    var last := h[|h| - 1];
    if LatePost(h, b) {
      var entry, caller :| b == Handed(last, entry, caller) && entry.task !in last.decided
        && WindowOpen(h, entry.target, entry.loop, caller);
      assert |b.log| == |last.log| + 1;
    }
  }

  lemma SlicePlusOne(h: seq<Board>, n: nat)
    requires n < |h|
    ensures h[..n + 1] == h[..n] + [h[n]]
  {
  }

  lemma HoldOn(ordered: bool, h: seq<Board>, b: Board, t: int, call: Call, loop: int)
    requires Holds(ordered, h, t, call, loop) && LockableStep(ordered, h, b) && Undisturbed(h[|h| - 1], b, call.loop)
    ensures Holds(ordered, h + [b], t, call, loop)
  {
    LatePostSettles(h, b);
    LifeUnderLock(ordered, h, b, t, call, loop);
  }

  lemma UndisturbedBetween(a: Board, b: Board, c: Board, caller: Option<int>)
    requires Undisturbed(a, b, caller) && Undisturbed(a, c, caller)
    ensures Undisturbed(b, c, caller)
  {
    forall k | 0 <= k < ID_COUNT && caller.Some?
      ensures LoopAt(b.slots, k) == caller <==> LoopAt(c.slots, k) == caller
    {
      assert LoopAt(b.slots, k) == caller <==> LoopAt(a.slots, k) == caller;
      assert LoopAt(c.slots, k) == caller <==> LoopAt(a.slots, k) == caller;
    }
  }

  lemma {:induction false} HoldUpTo(ordered: bool, h: seq<Board>, i: nat, j: nat, t: int, call: Call, loop: int)
    requires Lockable(ordered, h) && OpenSince(h, i, call.target, loop, call.loop) && i <= j < |h|
    requires t !in h[i].decided && Locks(ordered, h[..i + 1])
    ensures Holds(ordered, h[..j + 1], t, call, loop)
    decreases j
  {
    if i == j {
      ReadUnderLock(ordered, h[..i + 1], call, loop, t);
    } else {
      HoldUpTo(ordered, h, i, j - 1, t, call, loop);
      UndisturbedBetween(h[i], h[j - 1], h[j], call.loop);
      assert LockableStep(ordered, h[..j], h[j]);
      HoldOn(ordered, h[..j], h[j], t, call, loop);
      SlicePlusOne(h, j);
    }
  }

  /** The call takes the lock while its target still runs, and holds it until it posts. */
  lemma LatePostLocks(ordered: bool, h: seq<Board>, i: nat, entry: Enqueued, caller: Option<int>)
    requires Lockable(ordered, h) && OpenSince(h, i, entry.target, entry.loop, caller) && Locks(ordered, h[..i + 1])
    requires entry.task !in h[|h| - 1].decided
    ensures Locks(ordered, h + [Handed(h[|h| - 1], entry, caller)])
  {
    assert Undisturbed(h[i], h[|h| - 1], caller);
    HoldUpTo(ordered, h, i, |h| - 1, entry.task, Call(caller, entry.target), entry.loop);
    assert h[..|h|] == h;
    EnqueueAndReturn(ordered, h, entry.task, Call(caller, entry.target), entry.loop);
  }

  lemma StepLocks(ordered: bool, h: seq<Board>, b: Board)
    requires Lockable(ordered, h) && forall n :: 1 <= n <= |h| ==> Locks(ordered, h[..n])
    requires LockableStep(ordered, h, b)
    ensures Locks(ordered, h + [b])
  {
    assert h[..|h|] == h;
    if Atomic(ordered, h[|h| - 1], b) {
      AtomicLocks(ordered, h, b);
    } else {
      var entry, caller :| b == Handed(h[|h| - 1], entry, caller) && entry.task !in h[|h| - 1].decided
        && WindowOpen(h, entry.target, entry.loop, caller);
      var i: nat :| OpenSince(h, i, entry.target, entry.loop, caller);
      LatePostLocks(ordered, h, i, entry, caller);
    }
  }

  lemma StartLocks(ordered: bool)
    ensures Locks(ordered, [BoardOf(INIT)])
  {
    StartTraced(Form(false, ordered));
    assert Quiet(INIT);
  }

  lemma NextPrefixLocks(ordered: bool, h: seq<Board>, n: nat)
    requires Lockable(ordered, h) && 2 <= n <= |h|
    requires forall m :: 1 <= m < n ==> Locks(ordered, h[..m])
    ensures Locks(ordered, h[..n])
  {
    var before := h[..n - 1];
    LockablePrefix(ordered, h, n - 1);
    forall m | 1 <= m <= |before| ensures Locks(ordered, before[..m]) {
      assert before[..m] == h[..m];
    }
    assert LockableStep(ordered, h[..n - 1], h[n - 1]);
    StepLocks(ordered, before, h[n - 1]);
    SlicePlusOne(h, n - 1);
  }

  lemma {:induction false} PrefixLocks(ordered: bool, h: seq<Board>, n: nat)
    requires Lockable(ordered, h) && 1 <= n <= |h|
    ensures Locks(ordered, h[..n])
    decreases n
  {
    if n == 1 {
      StartLocks(ordered);
      assert h[..1] == [BoardOf(INIT)];
    } else {
      forall m | 1 <= m < n ensures Locks(ordered, h[..m]) {
        PrefixLocks(ordered, h, m);
      }
      NextPrefixLocks(ordered, h, n);
    }
  }

  /**
   The histories of the form that always takes the lock are exactly those made of lifetime
   changes, atomic posts, and late posts to a thread since whose stop nothing was settled.
   */
  lemma LocksIffLockable(ordered: bool, h: seq<Board>)
    ensures Locks(ordered, h) <==> Lockable(ordered, h)
    ensures (exists l :: Traced(Form(false, ordered), h, l)) <==> Locks(ordered, h)
  {
    if l :| Traced(Form(false, ordered), h, l) {
      var states: seq<State>, steps: seq<Step> :|
        IsRun(Form(false, ordered), states, steps) && states[|steps|] == l && History(states, |steps|) == h;
      LockedRunIsLockable(Form(false, ordered), states, steps, |steps|);
    }
    if Lockable(ordered, h) {
      PrefixLocks(ordered, h, |h|);
      assert h[..|h|] == h;
    }
  }
}
