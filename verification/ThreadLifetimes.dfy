/**
 web/web_thread_impl.cc as interleaved steps: thread objects coming and going in a slot
 array, and callers of `PostTaskHelper` that read it with or without the lock.
 */
module ThreadLifetimes {
  import opened Options

  /** The well-known threads UI, DB, FILE, FILE_USER_BLOCKING, CACHE and IO. */
  const ID_COUNT := 6

  /** A registered thread object. `message_loop()` is null unless it is running. */
  datatype Thread = Unstarted | Running(loop: int) | Stopped {
    function MessageLoop(): Option<int> {
      if Running? then Some(loop) else None
    }
  }

  /** `globals.threads`: at each id the registered object, if any. */
  type Slots = s: seq<Option<Thread>> | |s| == ID_COUNT
    witness [None, None, None, None, None, None]

  const NO_THREADS: Slots := [None, None, None, None, None, None]

  /** The comparison made for each slot by `GetCurrentThreadIdentifier`. */
  predicate Matches(slot: Option<Thread>, current: Option<int>) {
    slot.Some? && slot.value.MessageLoop() == current
  }

  function LoopAt(slots: Slots, id: nat): Option<int>
    requires id < ID_COUNT
  {
    if slots[id].Some? then slots[id].value.MessageLoop() else None
  }

  /** `k` is the least id registered for the message loop. */
  ghost predicate IsLeast(slots: Slots, current: Option<int>, k: nat) {
    && k < ID_COUNT && Matches(slots[k], current)
    && forall j :: 0 <= j < k ==> !Matches(slots[j], current)
  }

  // ---------- Lifetimes ----------

  datatype Lifetime =
    | Register(id: nat, thread: Thread)   // Initialize
    | Start(id: nat, loop: int)           // Thread::StartWithOptions
    | Stop(id: nat)                       // Thread::Stop, first in the destructor
    | Deregister(id: nat)                 // the rest of the destructor

  predicate AllAboveFree(slots: Slots, id: nat) {
    forall j :: id < j < ID_COUNT ==> slots[j].None?
  }

  /**
   Threads die in the reverse of the order in which the enumeration lists them. That a
   thread registers within the lifetime of those listed before it, and with `ordered` that
   it is stopped only after those listed behind it are gone, is what the enumeration's
   comment demands and what web/app/web_main_loop.mm does. Without, the order is that of the
   check in the destructor, which comes after the thread has been stopped.
   */
  ghost predicate LifetimeStep(ordered: bool, s: Slots, e: Lifetime, s': Slots) {
    && e.id < ID_COUNT
    && match e
       case Register(id, thread) =>
         && s[id].None? && !thread.Stopped? && AllAboveFree(s, id)
         && (forall j :: 0 <= j < id ==> s[j] != Some(Stopped))
         && s' == s[id := Some(thread)]
       case Start(id, loop) =>
         && s[id] == Some(Unstarted)
         && (forall j :: 0 <= j < ID_COUNT ==> s[j] != Some(Running(loop)))
         && s' == s[id := Some(Running(loop))]
       case Stop(id) =>
         && s[id].Some? && !s[id].value.Stopped? && (ordered ==> AllAboveFree(s, id))
         && s' == s[id := Some(Stopped)]
       case Deregister(id) =>
         && s[id] == Some(Stopped) && (!ordered ==> AllAboveFree(s, id))
         && s' == s[id := None]
  }

  /** What the destructor double-checks, from the start of the destruction: nothing listed below a dying thread is registered. */
  ghost predicate Nested(slots: Slots) {
    forall i :: 0 <= i < ID_COUNT && slots[i] == Some(Stopped) ==> AllAboveFree(slots, i)
  }

  // ---------- Posting a task ----------

  /** How a post reads the slot array after the scan. */
  datatype Mode = Locked | Elided(own: nat)

  datatype Pc =
    | Scan(next: nat)                     // in GetCurrentThreadIdentifier
    | Acquire                             // about to take the lock
    | Read(mode: Mode)                    // about to read the target's slot
    | Enqueue(mode: Mode, loop: int)      // about to post on the loop it has read
    | Leave(mode: Mode, posted: bool)     // about to release the lock and return

  /**
   A call of `PostTaskHelper` in progress. `loop` is the caller's current message loop;
   `home` remembers the least id registered for it when the call began.
   */
  datatype Post = Post(loop: Option<int>, target: nat, home: Option<nat>, pc: Pc)

  datatype Enqueued = Enqueued(target: nat, loop: int, task: int)

  /** What a call of `PostTaskHelper` started with. */
  datatype Call = Call(loop: Option<int>, target: nat)

  /** A call that has been settled, and whether its task was posted. */
  datatype Outcome = Outcome(call: Call, posted: bool)

  /**
   Each call has a task of its own, which names the call; the lock is held by a call.
   `calls` has all the calls ever made, `posts` those in progress. `log` lists the tasks
   handed to message loops; `decided` holds the outcome of a call from the step that settles
   it, and `returned` its result from its return.
   */
  datatype State = State(
    slots: Slots, lock: Option<int>, posts: map<int, Post>, calls: map<int, Call>,
    log: seq<Enqueued>, decided: map<int, Outcome>, returned: map<int, bool>)

  const INIT := State(NO_THREADS, None, map[], map[], [], map[], map[])

  /** With `elide` the machine is the code; without, it always takes the lock and skips the scan. */
  datatype Form = Form(elide: bool, ordered: bool)

  const ELIDING := Form(true, true)
  const LOCKING := Form(false, true)

  datatype Step =
    | Environment(e: Lifetime)
    | Begin(task: int, loop: Option<int>, target: nat)
    | ScanSlot(task: int)
    | AcquireLock(task: int)
    | ReadSlot(task: int)
    | EnqueueTask(task: int)
    | Return(task: int)

  function At(s: State, t: int, pc: Pc): State
    requires t in s.posts
  {
    s.(posts := s.posts[t := s.posts[t].(pc := pc)])
  }

  ghost function HomeOf(slots: Slots, loop: Option<int>): (k: Option<nat>)
    ensures k.Some? ==> IsLeast(slots, loop, k.value)
    ensures k.None? ==> forall j :: 0 <= j < ID_COUNT ==> !Matches(slots[j], loop)
  {
    if exists k: nat :: IsLeast(slots, loop, k) then
      var k: nat :| IsLeast(slots, loop, k);
      Some(k)
    else
      NoLeast(slots, loop, ID_COUNT);
      None
  }

  lemma {:induction false} NoLeast(slots: Slots, loop: Option<int>, n: nat)
    requires n <= ID_COUNT
    requires forall k: nat :: !IsLeast(slots, loop, k)
    ensures forall j :: 0 <= j < n ==> !Matches(slots[j], loop)
  {
    if n > 0 {
      NoLeast(slots, loop, n - 1);
      assert !IsLeast(slots, loop, n - 1);
    }
  }

  /**
   A thread object changes under these conditions besides those of its lifetime: slots are
   written with the lock held; `Stop` joins the thread, so nothing is running on its
   loop; and the loop of a thread being started is a new one.
   */
  ghost predicate EnvironmentGuard(s: State, e: Lifetime)
    requires e.id < ID_COUNT
  {
    match e
    case Register(_, _) => s.lock == None
    case Deregister(_) => s.lock == None
    case Stop(id) => s.slots[id].Some? ==> forall t :: t in s.posts ==>
      s.posts[t].loop.None? || s.posts[t].loop != s.slots[id].value.MessageLoop()
    case Start(_, loop) => forall t :: t in s.posts ==> s.posts[t].loop != Some(loop)
  }

  function OutcomeOf(p: Post, posted: bool): Outcome {
    Outcome(Call(p.loop, p.target), posted)
  }

  /** Where a scan that has got to slot `i` goes from there. */
  function AfterSlot(slots: Slots, loop: Option<int>, target: nat, i: nat): Pc {
    if i >= ID_COUNT then Acquire
    else if !Matches(slots[i], loop) then Scan(i + 1)
    else if i >= target then Read(Elided(i))
    else Acquire
  }

  /** One step of the machine. */
  ghost predicate Next(form: Form, s: State, step: Step, s': State) {
    match step
    case Environment(e) =>
      && e.id < ID_COUNT && EnvironmentGuard(s, e)
      && LifetimeStep(form.ordered, s.slots, e, s'.slots)
      && s' == s.(slots := s'.slots)
    case Begin(t, loop, target) =>
      && t !in s.calls && t !in s.posts && target < ID_COUNT
      && s' == s.(calls := s.calls[t := Call(loop, target)],
                  posts := s.posts[t := Post(loop, target, HomeOf(s.slots, loop),
                                             if form.elide then Scan(0) else Acquire)])
    case ScanSlot(t) =>
      && t in s.posts && s.posts[t].pc.Scan?
      && var p := s.posts[t];
      && s' == At(s, t, AfterSlot(s.slots, p.loop, p.target, p.pc.next))
    case AcquireLock(t) =>
      && t in s.posts && s.posts[t].pc.Acquire? && s.lock == None
      && s' == At(s, t, Read(Locked)).(lock := Some(t))
    case ReadSlot(t) =>
      && t in s.posts && s.posts[t].pc.Read? && s.posts[t].target < ID_COUNT
      && var p := s.posts[t]; var loop := LoopAt(s.slots, p.target);
      && s' == (if loop.Some? then At(s, t, Enqueue(p.pc.mode, loop.value))
                else At(s, t, Leave(p.pc.mode, false)).(decided := s.decided[t := OutcomeOf(p, false)]))
    case EnqueueTask(t) =>
      && t in s.posts && s.posts[t].pc.Enqueue?
      && var p := s.posts[t];
      && s' == At(s, t, Leave(p.pc.mode, true)).(
                 log := s.log + [Enqueued(p.target, p.pc.loop, t)], decided := s.decided[t := OutcomeOf(p, true)])
    case Return(t) =>
      && t in s.posts && s.posts[t].pc.Leave?
      && var p := s.posts[t];
      && s' == s.(posts := s.posts - {t},
                  lock := if p.pc.mode.Locked? then None else s.lock,
                  returned := s.returned[t := p.pc.posted])
  }

  // ---------- What every step keeps ----------

  /** The mode of a post that has got past the scan. */
  function ModeOf(pc: Pc): Option<Mode> {
    match pc
    case Scan(_) => None
    case Acquire => None
    case Read(m) => Some(m)
    case Enqueue(m, _) => Some(m)
    case Leave(m, _) => Some(m)
  }

  /** A caller that is running on a message loop, and whose scan has elided the lock. */
  predicate ElidesOnLoop(p: Post) {
    p.loop.Some? && ModeOf(p.pc).Some? && ModeOf(p.pc).value.Elided?
  }

  ghost predicate PostInv(form: Form, s: State, t: int, p: Post) {
    && p.target < ID_COUNT
    && (p.pc.Scan? ==> form.elide)
    // The lock is held exactly while the post is in its critical section.
    && (s.lock == Some(t) <==> ModeOf(p.pc) == Some(Locked))
    // An elided post goes through an id at or above its target; the caller's own thread has it.
    && (ModeOf(p.pc).Some? && ModeOf(p.pc).value.Elided? ==>
        form.elide && p.target <= ModeOf(p.pc).value.own < ID_COUNT)
    && (ElidesOnLoop(p) ==> s.slots[ModeOf(p.pc).value.own] == Some(Running(p.loop.value)))
    // What has been read is still there, unless the thread was stopped behind the lock.
    && (p.pc.Enqueue? && p.pc.mode.Locked? ==>
        s.slots[p.target] in {Some(Running(p.pc.loop)), Some(Stopped)})
    && (p.pc.Enqueue? && ElidesOnLoop(p) ==>
        s.slots[p.target] == Some(Running(p.pc.loop)) || (!form.ordered && s.slots[p.target] == Some(Stopped)))
    && HomeInv(form, s.slots, p)
    && SettledInv(s, t, p)
  }

  /** A caller whose loop was registered when the post began finds exactly its least id. */
  ghost predicate HomeInv(form: Form, slots: Slots, p: Post) {
    p.home.Some? && p.loop.Some? ==>
      && IsLeast(slots, p.loop, p.home.value)
      && (p.pc.Scan? ==> p.pc.next <= p.home.value)
      && (ModeOf(p.pc).Some? && ModeOf(p.pc).value.Elided? ==> ModeOf(p.pc) == Some(Elided(p.home.value)))
      && (form.elide && (p.pc.Acquire? || ModeOf(p.pc) == Some(Locked)) ==> p.home.value < p.target)
  }

  /** A call is settled once: by the step that brings it to its return. */
  ghost predicate SettledInv(s: State, t: int, p: Post) {
    && t in s.calls && s.calls[t] == Call(p.loop, p.target) && t !in s.returned
    && if p.pc.Leave? then t in s.decided && s.decided[t].posted == p.pc.posted else t !in s.decided
  }

  /** Outcomes are those of calls made, and results those of outcomes. */
  ghost predicate RecordsAgree(s: State) {
    && (forall t :: t in s.decided ==> t in s.calls && s.decided[t].call == s.calls[t])
    && (forall t :: t in s.returned ==> t in s.decided && s.decided[t].posted == s.returned[t])
  }

  ghost predicate Inv(form: Form, s: State) {
    && (form.ordered ==> Nested(s.slots))
    && (s.lock.Some? ==> s.lock.value in s.posts)
    && (forall t :: t in s.posts ==> PostInv(form, s, t, s.posts[t]))
    && RecordsAgree(s)
  }

  lemma LifetimeKeepsNested(s: Slots, e: Lifetime, s': Slots)
    requires Nested(s) && LifetimeStep(true, s, e, s')
    ensures Nested(s')
  {
  }

  /** The destructor's double check never fires: what it deregisters is the last thread alive. */
  lemma DeregisterFindsNothingBelow(s: Slots, id: nat, s': Slots)
    requires Nested(s) && LifetimeStep(true, s, Deregister(id), s')
    ensures AllAboveFree(s', id)
  {
  }

  lemma EnvironmentKeepsPost(form: Form, s: State, e: Lifetime, s': State, t: int)
    requires Inv(form, s) && Next(form, s, Environment(e), s') && t in s.posts
    ensures PostInv(form, s', t, s'.posts[t])
  {
    var p := s.posts[t];
    assert PostInv(form, s, t, p);
    if p.home.Some? && p.loop.Some? {
      var k := p.home.value;
      assert s.slots[k] == Some(Running(p.loop.value));
      assert s'.slots[k] == s.slots[k];
    }
  }

  lemma BeginKeepsOwn(form: Form, s: State, step: Step, s': State)
    requires Inv(form, s) && Next(form, s, step, s') && step.Begin?
    ensures step.task in s'.posts && PostInv(form, s', step.task, s'.posts[step.task])
  {
  }

  lemma PostStepKeepsOwn(form: Form, s: State, step: Step, s': State)
    requires Inv(form, s) && Next(form, s, step, s') && !step.Environment? && !step.Begin? && !step.Return?
    ensures step.task in s'.posts && PostInv(form, s', step.task, s'.posts[step.task])
  {
    assert PostInv(form, s, step.task, s.posts[step.task]);
  }

  lemma PostStepKeepsOther(form: Form, s: State, step: Step, s': State, u: int)
    requires Inv(form, s) && Next(form, s, step, s') && !step.Environment?
    requires u in s'.posts && u != step.task
    ensures u in s.posts && s'.posts[u] == s.posts[u] && PostInv(form, s', u, s'.posts[u])
  {
    assert PostInv(form, s, u, s.posts[u]);
    if step.task in s.posts {
      assert PostInv(form, s, step.task, s.posts[step.task]);
    }
  }

  /** Every step of either form keeps the invariant, whatever the other threads do. */
  lemma StepKeepsInv(form: Form, s: State, step: Step, s': State)
    requires Inv(form, s) && Next(form, s, step, s')
    ensures Inv(form, s')
  {
    if step.Environment? {
      if form.ordered {
        LifetimeKeepsNested(s.slots, step.e, s'.slots);
      }
      forall t | t in s'.posts ensures PostInv(form, s', t, s'.posts[t]) {
        EnvironmentKeepsPost(form, s, step.e, s', t);
      }
    } else {
      forall u | u in s'.posts ensures PostInv(form, s', u, s'.posts[u]) {
        if u != step.task {
          PostStepKeepsOther(form, s, step, s', u);
        } else if step.Begin? {
          BeginKeepsOwn(form, s, step, s');
        } else {
          PostStepKeepsOwn(form, s, step, s');
        }
      }
      PostStepKeepsRecords(form, s, step, s');
    }
  }

  lemma PostStepKeepsRecords(form: Form, s: State, step: Step, s': State)
    requires Inv(form, s) && Next(form, s, step, s') && !step.Environment?
    ensures s'.slots == s.slots && (s'.lock.Some? ==> s'.lock.value in s'.posts)
    ensures RecordsAgree(s')
  {
    if step.task in s.posts {
      assert PostInv(form, s, step.task, s.posts[step.task]);
    }
  }

  /** A run of the machine: `steps[i]` leads from `states[i]` to `states[i + 1]`. */
  ghost predicate IsRun(form: Form, states: seq<State>, steps: seq<Step>) {
    && |states| == |steps| + 1 && states[0] == INIT
    && forall i :: 0 <= i < |steps| ==> Next(form, states[i], steps[i], states[i + 1])
  }

  lemma {:induction false} RunKeepsInv(form: Form, states: seq<State>, steps: seq<Step>, n: nat)
    requires IsRun(form, states, steps) && n <= |steps|
    ensures Inv(form, states[n])
  {
    if n > 0 {
      RunKeepsInv(form, states, steps, n - 1);
      StepKeepsInv(form, states[n - 1], steps[n - 1], states[n]);
    }
  }

  ghost predicate Reachable(form: Form, s: State) {
    exists states: seq<State>, steps: seq<Step> :: IsRun(form, states, steps) && states[|steps|] == s
  }

  lemma InitReachable(form: Form)
    ensures Reachable(form, INIT)
  {
    var states, steps: seq<Step> := [INIT], [];
    assert IsRun(form, states, steps) && states[|steps|] == INIT;
  }

  lemma StepReachable(form: Form, s: State, step: Step, s': State)
    requires Reachable(form, s) && Next(form, s, step, s')
    ensures Reachable(form, s')
  {
    var states: seq<State>, steps: seq<Step> :| IsRun(form, states, steps) && states[|steps|] == s;
    var states', steps' := states + [s'], steps + [step];
    forall i | 0 <= i < |steps'| ensures Next(form, states'[i], steps'[i], states'[i + 1]) {
      if i == |steps| {
        assert states'[i] == s;
      }
    }
    assert IsRun(form, states', steps') && states'[|steps'|] == s';
  }

  lemma ReachableInv(form: Form, s: State)
    requires Reachable(form, s)
    ensures Inv(form, s)
  {
    var states: seq<State>, steps: seq<Step> :| IsRun(form, states, steps) && states[|steps|] == s;
    RunKeepsInv(form, states, steps, |steps|);
  }

  // ---------- What the elision rests on ----------

  predicate SlotWritten(s: Slots, s': Slots, i: nat)
    requires i < ID_COUNT
  {
    s[i].Some? != s'[i].Some?
  }

  /**
   While a caller registered for its message loop is in a call, from the start of the
   unlocked scan to the return, no step of any thread writes a slot up to the caller's own.
   These are the slots it reads without the lock. A thread running in one of them goes on
   running unless it is stopped out of order, while the caller's is still there.
   */
  lemma RegisteredWindowIsStable(form: Form, s: State, step: Step, s': State, t: int, i: nat)
    requires Inv(form, s) && Next(form, s, step, s')
    requires t in s.posts && s.posts[t].loop.Some? && s.posts[t].home.Some? && i <= s.posts[t].home.value
    ensures i < ID_COUNT && !SlotWritten(s.slots, s'.slots, i)
    ensures s.posts[t].pc.Scan? ==> s.posts[t].pc.next <= s.posts[t].home.value
    ensures s.slots[i].Some? && s.slots[i].value.Running? ==>
      (s'.slots[i] == s.slots[i] <==> step != Environment(Stop(i)))
    ensures step == Environment(Stop(i)) ==> !form.ordered && !AllAboveFree(s.slots, i)
  {
    assert PostInv(form, s, t, s.posts[t]);
  }

  /** The same from the end of the scan on, for whoever has skipped the lock for a message loop. */
  lemma ElidedWindowIsStable(s: State, step: Step, s': State, t: int, i: nat)
    requires Inv(ELIDING, s) && Next(ELIDING, s, step, s')
    requires t in s.posts && ElidesOnLoop(s.posts[t]) && i <= ModeOf(s.posts[t].pc).value.own
    ensures i < ID_COUNT && !SlotWritten(s.slots, s'.slots, i)
    ensures s.slots[i].Some? && s.slots[i].value.Running? ==> s'.slots[i] == s.slots[i]
    ensures s.posts[t].target <= ModeOf(s.posts[t].pc).value.own
  {
    assert PostInv(ELIDING, s, t, s.posts[t]);
  }

  /** The slot that a scan reads next is being written. */
  ghost predicate ScanDisturbed(s: State, step: Step, s': State, t: int) {
    && t in s.posts && s.posts[t].pc.Scan? && s.posts[t].pc.next < ID_COUNT
    && Next(ELIDING, s, step, s') && SlotWritten(s.slots, s'.slots, s.posts[t].pc.next)
  }

  /** Registration is what it takes: only the scan of a caller without loop or slot is disturbed. */
  lemma DisturbedCallerIsUnregistered(s: State, step: Step, s': State, t: int)
    requires Reachable(ELIDING, s) && ScanDisturbed(s, step, s', t)
    ensures s.posts[t].loop.None? || s.posts[t].home.None?
  {
    ReachableInv(ELIDING, s);
    if s.posts[t].loop.Some? && s.posts[t].home.Some? {
      assert PostInv(ELIDING, s, t, s.posts[t]);
      RegisteredWindowIsStable(ELIDING, s, step, s', t, s.posts[t].pc.next);
    }
  }

  /** And such a caller has no protection: a slot can be emptied just as it is about to be read. */
  lemma UnregisteredScanIsDisturbed(loop: Option<int>)
    requires loop != Some(10)
    ensures exists s, step, s' :: Reachable(ELIDING, s) && ScanDisturbed(s, step, s', 7) && s.posts[7].loop == loop
  {
    InitReachable(ELIDING);
    var s1 := INIT.(slots := INIT.slots[0 := Some(Running(10))]);
    StepReachable(ELIDING, INIT, Environment(Register(0, Running(10))), s1);
    var p := Post(loop, 0, HomeOf(s1.slots, loop), Scan(0));
    var s2 := s1.(calls := map[7 := Call(loop, 0)], posts := map[7 := p]);
    StepReachable(ELIDING, s1, Begin(7, loop, 0), s2);
    var s3 := s2.(slots := s2.slots[0 := Some(Stopped)]);
    StepReachable(ELIDING, s2, Environment(Stop(0)), s3);
    var s4 := s3.(slots := s3.slots[0 := None]);
    assert ScanDisturbed(s3, Environment(Deregister(0)), s4, 7);
  }

  /**
   A caller whose thread is registered scans no slot past the least id of its loop, and
   elides the lock exactly when that id is not above the target in the order of lifetimes.
   */
  lemma RegisteredCallerFindsItself(s: State, t: int)
    requires Reachable(ELIDING, s) && t in s.posts
    requires s.posts[t].loop.Some? && s.posts[t].home.Some?
    ensures var p := s.posts[t]; var home := p.home.value;
      && IsLeast(s.slots, p.loop, home)
      && (p.pc.Scan? ==> p.pc.next <= home)
      && (p.pc.Acquire? || ModeOf(p.pc) == Some(Locked) ==> home < p.target)
      && (ModeOf(p.pc).Some? && ModeOf(p.pc).value.Elided? ==>
          ModeOf(p.pc).value.own == home && home >= p.target)
  {
    ReachableInv(ELIDING, s);
    assert PostInv(ELIDING, s, t, s.posts[t]);
  }

  /** Where a scan ends if no slot changes on the way. */
  function ScanEnd(slots: Slots, loop: Option<int>, target: nat, i: nat): Pc
    decreases ID_COUNT - i
  {
    var pc := AfterSlot(slots, loop, target, i);
    if pc.Scan? && i < ID_COUNT then ScanEnd(slots, loop, target, i + 1) else pc
  }

  /** A step of a scan leads towards its end. */
  lemma ScanFollows(s: State, t: int, s': State)
    requires Next(ELIDING, s, ScanSlot(t), s')
    ensures var p, p' := s.posts[t], s'.posts[t];
      ScanEnd(s.slots, p.loop, p.target, p.pc.next) ==
        if p'.pc.Scan? then ScanEnd(s'.slots, p.loop, p.target, p'.pc.next) else p'.pc
  {
  }

  /**
   On slots as they are, a call skips the lock exactly when the least id found for its loop
   is not before the target. A caller without a loop finds the least id that is registered
   and not running, which need not outlive anything.
   */
  lemma SkipsLockIffLeastIsBehindTarget(slots: Slots, loop: Option<int>, target: nat)
    ensures ScanEnd(slots, loop, target, 0) == Acquire || exists k: nat :: ScanEnd(slots, loop, target, 0) == Read(Elided(k))
    ensures forall k: nat :: ScanEnd(slots, loop, target, 0) == Read(Elided(k)) <==> IsLeast(slots, loop, k) && target <= k
    ensures loop.None? ==> forall k: nat :: IsLeast(slots, loop, k) <==> IsLeastNotRunning(slots, k)
  {
    ScanFrom(slots, loop, target, 0);
  }

  ghost predicate IsLeastNotRunning(slots: Slots, k: nat) {
    && k < ID_COUNT && slots[k] in {Some(Unstarted), Some(Stopped)}
    && forall j :: 0 <= j < k ==> slots[j].None? || slots[j].value.Running?
  }

  lemma {:induction false} ScanFrom(slots: Slots, loop: Option<int>, target: nat, i: nat)
    requires i <= ID_COUNT && forall j :: 0 <= j < i ==> !Matches(slots[j], loop)
    ensures var pc := ScanEnd(slots, loop, target, i);
      && (pc == Acquire || (pc.Read? && pc.mode.Elided? && pc.mode.own < ID_COUNT))
      && forall k: nat :: pc == Read(Elided(k)) <==> IsLeast(slots, loop, k) && target <= k
    decreases ID_COUNT - i
  {
    if i < ID_COUNT && !Matches(slots[i], loop) {
      ScanFrom(slots, loop, target, i + 1);
    }
  }

  /** The post is about to use a loop that its target's slot no longer shows. */
  ghost predicate Late(s: State, t: int) {
    && t in s.posts && s.posts[t].pc.Enqueue? && s.posts[t].target < ID_COUNT
    && LoopAt(s.slots, s.posts[t].target) != Some(s.posts[t].pc.loop)
  }

  /**
   No post that elides the lock on behalf of a message loop is ever late. Only a target
   stopped while the lock is held, or a caller without a message loop, can make one late;
   or a thread stopped before those listed behind it, if the order allows that.
   */
  lemma LatePosts(form: Form, s: State, t: int)
    requires Reachable(form, s) && Late(s, t)
    ensures var p := s.posts[t];
      && (p.pc.mode.Locked? || p.loop.Some? ==> s.slots[p.target] == Some(Stopped))
      && (form.ordered ==> !ElidesOnLoop(p))
  {
    ReachableInv(form, s);
    assert PostInv(form, s, t, s.posts[t]);
  }
}
