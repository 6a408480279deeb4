/**
 web/webui/url_data_manager_ios.cc and url_data_source_ios_impl.cc as interleaved steps:
 reference counted data sources may lose their last reference on any thread, but are
 deleted on the UI thread.
 */
module DataSourceDeletion {

  /** What the UI thread is in the middle of. */
  datatype Ui =
    | Idle
    | Dropping(source: int)      // has taken a count to zero itself
    | Draining(rest: seq<int>)   // in DeleteDataSources, with the list it has swapped out
    | Sending(source: int)       // in SendResponse, past the IsScheduledForDeletion check

  /**
   `count` has the reference count of every source ever created. `dropping` holds the
   sources whose count another thread has just taken to zero, `list` those scheduled for
   deletion. `posting` threads have seen the list empty and are about to wake the UI
   thread, on which `tasks` wake-ups are queued. `deleted` lists the deletions made;
   `postFailed` tells that a wake-up could not be posted since the list was last swapped out.
   */
  datatype State = State(
    count: map<int, nat>, dropping: multiset<int>, list: seq<int>, posting: nat,
    tasks: nat, ui: Ui, deleted: seq<int>, postFailed: bool)

  const INIT := State(map[], multiset{}, [], 0, 0, Idle, [], false)

  datatype Step =
    | Create(source: int)        // AddDataSource
    | AddRef(source: int)        // copying a reference one holds
    | Release(source: int)       // on another thread than the UI thread
    | Push                       // DeleteDataSource, up to the release of the lock
    | Post                       // DeleteDataSource, the wake-up after it
    | PostFails
    | RunTask                    // the UI thread runs a wake-up: DeleteDataSources
    | ForceDelete                // the same, called directly
    | DeleteNext                 // one deletion of DeleteDataSources, or its end
    | UiRelease(source: int)
    | UiDelete                   // DeleteDataSource on the UI thread
    | SendCheck(source: int)     // SendResponse, up to its check
    | SendTask                   // the rest of it: binding a reference to a task

  ghost predicate Next(s: State, step: Step, s': State) {
    match step
    case Create(x) =>
      x !in s.count && s.ui.Idle? && s' == s.(count := s.count[x := 1])
    case AddRef(x) =>
      x in s.count && s.count[x] > 0 && s' == s.(count := s.count[x := s.count[x] + 1])
    case Release(x) =>
      && x in s.count && s.count[x] > 0
      && s' == s.(count := s.count[x := s.count[x] - 1],
                  dropping := if s.count[x] == 1 then s.dropping + multiset{x} else s.dropping)
    case Push =>
      exists x :: x in s.dropping && PushOf(s, x, s')
    case Post =>
      s.posting > 0 && s' == s.(posting := s.posting - 1, tasks := s.tasks + 1)
    case PostFails =>
      s.posting > 0 && s' == s.(posting := s.posting - 1, postFailed := true)
    case RunTask =>
      && s.tasks > 0 && s.ui.Idle?
      && s' == s.(tasks := s.tasks - 1, ui := Draining(s.list), list := [], postFailed := false)
    case ForceDelete =>
      s.ui.Idle? && s' == s.(ui := Draining(s.list), list := [], postFailed := false)
    case DeleteNext =>
      && s.ui.Draining?
      && s' == (if s.ui.rest == [] then s.(ui := Idle)
                else s.(ui := Draining(s.ui.rest[1..]), deleted := s.deleted + [s.ui.rest[0]]))
    case UiRelease(x) =>
      && x in s.count && s.count[x] > 0 && s.ui.Idle?
      && s' == s.(count := s.count[x := s.count[x] - 1],
                  ui := if s.count[x] == 1 then Dropping(x) else Idle)
    case UiDelete =>
      s.ui.Dropping? && s' == s.(ui := Idle, deleted := s.deleted + [s.ui.source])
    case SendCheck(x) =>
      && x in s.count && x !in s.deleted && s.ui.Idle?
      && s' == (if x in s.list then s else s.(ui := Sending(x)))
    case SendTask =>
      && s.ui.Sending? && s.ui.source in s.count
      && s' == s.(ui := Idle, count := s.count[s.ui.source := s.count[s.ui.source] + 1])
  }

  /** Some thread puts the source on the list and notes whether a wake-up is due. */
  predicate PushOf(s: State, x: int, s': State) {
    s' == s.(dropping := s.dropping - multiset{x}, list := s.list + [x],
             posting := if s.list == [] then s.posting + 1 else s.posting)
  }

  // ---------- Conservation ----------

  predicate Zero(s: State, x: int) {
    x in s.count && s.count[x] == 0
  }

  function InUi(ui: Ui): multiset<int> {
    match ui
    case Dropping(x) => multiset{x}
    case Draining(rest) => multiset(rest)
    case _ => multiset{}
  }

  /** How often a source is in a place for sources without references, deletion included. */
  function Condemned(s: State, x: int): nat {
    s.dropping[x] + multiset(s.list)[x] + InUi(s.ui)[x] + multiset(s.deleted)[x]
  }

  ghost predicate NoLostWakeup(s: State) {
    s.list != [] ==> s.tasks > 0 || s.posting > 0 || s.postFailed
  }

  /** Without references the source is in just one of those places, and otherwise in none. */
  predicate Placed(s: State, x: int) {
    Condemned(s, x) == if Zero(s, x) then 1 else 0
  }

  ghost predicate Inv(s: State) {
    (forall x :: Placed(s, x)) && NoLostWakeup(s)
  }

  /** The step takes a reference to the source although it has none left. */
  predicate RevivesIt(s: State, step: Step, x: int) {
    step.SendTask? && s.ui == Sending(x) && Zero(s, x)
  }

  predicate Revives(s: State, step: Step) {
    s.ui.Sending? && RevivesIt(s, step, s.ui.source)
  }

  /** All steps but those that change a count move condemned sources from place to place. */
  lemma MovesConserve(s: State, step: Step, s': State, x: int)
    requires Next(s, step, s') && !step.Release? && !step.UiRelease?
    ensures Condemned(s', x) == Condemned(s, x)
  {
    if step.Push? {
      var y :| y in s.dropping && PushOf(s, y, s');
      PushConserves(s, y, s', x);
    } else if step.DeleteNext? || step.UiDelete? {
      DeletionConserves(s, step, s', x);
    }
  }

  lemma DeletionConserves(s: State, step: Step, s': State, x: int)
    requires Next(s, step, s') && (step.DeleteNext? || step.UiDelete?)
    ensures Condemned(s', x) == Condemned(s, x)
  {
    if step.UiDelete? {
      LastAdded(s.deleted, s.ui.source, x);
    } else if s.ui.rest != [] {
      FirstAndRest(s.ui.rest, x);
      LastAdded(s.deleted, s.ui.rest[0], x);
    }
  }

  lemma PushConserves(s: State, y: int, s': State, x: int)
    requires y in s.dropping && PushOf(s, y, s')
    ensures Condemned(s', x) == Condemned(s, x)
  {
    LastAdded(s.list, y, x);
  }

  lemma FirstAndRest(rest: seq<int>, x: int)
    requires rest != []
    ensures multiset(rest)[x] == (if rest[0] == x then 1 else 0) + multiset(rest[1..])[x]
  {
    assert rest == [rest[0]] + rest[1..];
  }

  lemma LastAdded(list: seq<int>, y: int, x: int)
    ensures multiset(list + [y])[x] == multiset(list)[x] + (if y == x then 1 else 0)
  {
  }

  /** A step keeps a source in its place exactly when it does not revive it. */
  lemma StaysPlacedUnlessRevived(s: State, step: Step, s': State, x: int)
    requires Placed(s, x) && Next(s, step, s')
    ensures Placed(s', x) <==> !RevivesIt(s, step, x)
  {
    if !step.Release? && !step.UiRelease? {
      MovesConserve(s, step, s', x);
      ZeroUnlessRevived(s, step, s', x);
    }
  }

  lemma ZeroUnlessRevived(s: State, step: Step, s': State, x: int)
    requires Next(s, step, s') && !step.Release? && !step.UiRelease?
    ensures Zero(s', x) <==> Zero(s, x) && !RevivesIt(s, step, x)
  {
  }

  lemma StepKeepsWakeup(s: State, step: Step, s': State)
    requires NoLostWakeup(s) && Next(s, step, s')
    ensures NoLostWakeup(s')
  {
  }

  /** A step keeps the invariant exactly when it does not revive a source. */
  lemma StepKeepsInvUnlessReviving(s: State, step: Step, s': State)
    requires Inv(s) && Next(s, step, s')
    ensures Inv(s') <==> !Revives(s, step)
  {
    StepKeepsWakeup(s, step, s');
    forall x ensures Placed(s', x) <==> !RevivesIt(s, step, x) {
      StaysPlacedUnlessRevived(s, step, s', x);
    }
    if Revives(s, step) {
      assert !Placed(s', s.ui.source);
    }
  }

  // ---------- Runs ----------

  ghost predicate IsRun(states: seq<State>, steps: seq<Step>) {
    && |states| == |steps| + 1 && states[0] == INIT
    && forall i {:trigger steps[i]} :: 0 <= i < |steps| ==> Next(states[i], steps[i], states[i + 1])
  }

  ghost predicate NothingRevived(states: seq<State>, steps: seq<Step>) {
    IsRun(states, steps) && forall i :: 0 <= i < |steps| ==> !Revives(states[i], steps[i])
  }

  lemma {:induction false} RunKeepsInv(states: seq<State>, steps: seq<Step>, n: nat)
    requires NothingRevived(states, steps) && n <= |steps|
    ensures Inv(states[n])
  {
    if n > 0 {
      RunKeepsInv(states, steps, n - 1);
      StepKeepsInvUnlessReviving(states[n - 1], steps[n - 1], states[n]);
    }
  }

  // ---------- What a count counts ----------

  /** The references to the source that the step takes or gives up. */
  function Change(s: State, step: Step, x: int): int {
    if step == Create(x) || step == AddRef(x) || (step.SendTask? && s.ui == Sending(x)) then 1
    else if step == Release(x) || step == UiRelease(x) then -1
    else 0
  }

  /** The references taken so far less those given up. */
  ghost function Balance(states: seq<State>, steps: seq<Step>, n: nat, x: int): int
    requires n <= |steps| && n <= |states|
  {
    if n == 0 then 0 else Balance(states, steps, n - 1, x) + Change(states[n - 1], steps[n - 1], x)
  }

  function CountOf(s: State, x: int): int {
    if x in s.count then s.count[x] else 0
  }

  lemma StepChangesCount(s: State, step: Step, s': State, x: int)
    requires Next(s, step, s')
    ensures CountOf(s', x) == CountOf(s, x) + Change(s, step, x)
    ensures x in s'.count <==> x in s.count || step == Create(x)
  {
  }

  predicate ChangesCount(states: seq<State>, steps: seq<Step>, i: nat, x: int) {
    && i < |steps| && i + 1 < |states|
    && CountOf(states[i + 1], x) == CountOf(states[i], x) + Change(states[i], steps[i], x)
  }

  /** After any run, a count is the number of references taken and not given up. */
  lemma CountIsBalance(states: seq<State>, steps: seq<Step>, n: nat, x: int)
    requires IsRun(states, steps) && n <= |steps|
    ensures CountOf(states[n], x) == Balance(states, steps, n, x) >= 0
  {
    forall i | 0 <= i < n ensures ChangesCount(states, steps, i, x) {
      StepChangesCount(states[i], steps[i], states[i + 1], x);
    }
    CountAddsUp(states, steps, n, x);
  }

  lemma {:induction false} CountAddsUp(states: seq<State>, steps: seq<Step>, n: nat, x: int)
    requires |states| == |steps| + 1 && n <= |steps| && states[0] == INIT
    requires forall i :: 0 <= i < n ==> ChangesCount(states, steps, i, x)
    ensures CountOf(states[n], x) == Balance(states, steps, n, x)
  {
    if n > 0 {
      CountAddsUp(states, steps, n - 1, x);
      assert ChangesCount(states, steps, n - 1, x);
    }
  }

  /** Step `i` gives up the last of the references. */
  ghost predicate GivesUpLast(states: seq<State>, steps: seq<Step>, i: nat, x: int)
    requires i < |steps| && i < |states|
  {
    (steps[i] == Release(x) || steps[i] == UiRelease(x)) && Balance(states, steps, i, x) == 1
  }

  /** How often the last of the references has been given up. */
  ghost function Drops(states: seq<State>, steps: seq<Step>, n: nat, x: int): nat
    requires n <= |steps| && n <= |states|
  {
    if n == 0 then 0 else Drops(states, steps, n - 1, x) + if GivesUpLast(states, steps, n - 1, x) then 1 else 0
  }

  lemma StepCondemns(s: State, step: Step, s': State, x: int)
    requires Next(s, step, s')
    ensures Condemned(s', x) == Condemned(s, x)
      + if (step == Release(x) || step == UiRelease(x)) && CountOf(s, x) == 1 then 1 else 0
  {
    if !step.Release? && !step.UiRelease? {
      MovesConserve(s, step, s', x);
    }
  }

  ghost predicate CondemnsAt(states: seq<State>, steps: seq<Step>, i: nat, x: int) {
    && i < |steps| && i + 1 < |states|
    && Condemned(states[i + 1], x) == Condemned(states[i], x) + if GivesUpLast(states, steps, i, x) then 1 else 0
  }

  lemma {:induction false} CondemnedAddsUp(states: seq<State>, steps: seq<Step>, n: nat, x: int)
    requires |states| == |steps| + 1 && n <= |steps| && states[0] == INIT
    requires forall i :: 0 <= i < n ==> CondemnsAt(states, steps, i, x)
    ensures Condemned(states[n], x) == Drops(states, steps, n, x)
  {
    if n > 0 {
      CondemnedAddsUp(states, steps, n - 1, x);
      assert CondemnsAt(states, steps, n - 1, x);
    }
  }

  /**
   A source is being dropped, listed, drained or has been deleted exactly as often as the
   last of its references has been given up; so never before the references taken and those
   given up were level.
   */
  lemma CondemnedIffGivenUp(states: seq<State>, steps: seq<Step>, n: nat, x: int)
    requires IsRun(states, steps) && n <= |steps|
    ensures Condemned(states[n], x) == Drops(states, steps, n, x)
    ensures Condemned(states[n], x) > 0 ==> exists m: nat :: 0 < m <= n && IsLevelAt(states, steps, m, x)
  {
    forall i | 0 <= i < n ensures CondemnsAt(states, steps, i, x) {
      CountIsBalance(states, steps, i, x);
      StepCondemns(states[i], steps[i], states[i + 1], x);
    }
    CondemnedAddsUp(states, steps, n, x);
    if Drops(states, steps, n, x) > 0 {
      LevelAfterDrop(states, steps, n, x);
    }
  }

  /** A reference has just been given up, and none is left. */
  ghost predicate IsLevelAt(states: seq<State>, steps: seq<Step>, m: nat, x: int)
    requires 0 < m <= |steps| && m <= |states|
  {
    GivesUpLast(states, steps, m - 1, x) && Balance(states, steps, m, x) == 0
  }

  lemma {:induction false} LevelAfterDrop(states: seq<State>, steps: seq<Step>, n: nat, x: int)
    requires n <= |steps| && n <= |states| && Drops(states, steps, n, x) > 0
    ensures exists m: nat :: 0 < m <= n && IsLevelAt(states, steps, m, x)
  {
    if GivesUpLast(states, steps, n - 1, x) {
      assert IsLevelAt(states, steps, n, x);
    } else {
      LevelAfterDrop(states, steps, n - 1, x);
    }
  }

  // ---------- What wake-ups are for ----------

  ghost function Posts(steps: seq<Step>, n: nat): nat
    requires n <= |steps|
  {
    if n == 0 then 0 else Posts(steps, n - 1) + if steps[n - 1].Post? then 1 else 0
  }

  ghost function TasksRun(steps: seq<Step>, n: nat): nat
    requires n <= |steps|
  {
    if n == 0 then 0 else TasksRun(steps, n - 1) + if steps[n - 1].RunTask? then 1 else 0
  }

  /** Each wake-up posted is queued until it has been run, and run once. */
  lemma {:induction false} WakeupsAddUp(states: seq<State>, steps: seq<Step>, n: nat)
    requires IsRun(states, steps) && n <= |steps|
    ensures Posts(steps, n) == TasksRun(steps, n) + states[n].tasks
  {
    if n > 0 {
      WakeupsAddUp(states, steps, n - 1);
      StepMovesTask(states[n - 1], steps[n - 1], states[n]);
    }
  }

  lemma StepMovesTask(s: State, step: Step, s': State)
    requires Next(s, step, s')
    ensures s'.tasks == s.tasks + (if step.Post? then 1 else 0) - (if step.RunTask? then 1 else 0)
  {
  }

  // ---------- Never revived ----------

  /** So far no step has revived the source. */
  ghost predicate NotRevived(states: seq<State>, steps: seq<Step>, n: nat, x: int) {
    && IsRun(states, steps) && n <= |steps|
    && forall i :: 0 <= i < n ==> !RevivesIt(states[i], steps[i], x)
  }

  predicate KeepsPlaced(states: seq<State>, i: nat, x: int) {
    i + 1 < |states| && (Placed(states[i], x) ==> Placed(states[i + 1], x))
  }

  lemma StepKeepsPlaced(states: seq<State>, steps: seq<Step>, i: nat, x: int)
    requires IsRun(states, steps) && i < |steps| && !RevivesIt(states[i], steps[i], x)
    ensures KeepsPlaced(states, i, x)
  {
    if Placed(states[i], x) {
      StaysPlacedUnlessRevived(states[i], steps[i], states[i + 1], x);
    }
  }

  lemma PlacedUnlessRevived(states: seq<State>, steps: seq<Step>, n: nat, x: int)
    requires NotRevived(states, steps, n, x)
    ensures Placed(states[n], x)
  {
    forall i | 0 <= i < n ensures KeepsPlaced(states, i, x) {
      StepKeepsPlaced(states, steps, i, x);
    }
    PlacedKept(states, n, x);
  }

  lemma {:induction false} PlacedKept(states: seq<State>, n: nat, x: int)
    requires n < |states| && states[0] == INIT && forall i :: 0 <= i < n ==> KeepsPlaced(states, i, x)
    ensures Placed(states[n], x)
  {
    if n > 0 {
      PlacedKept(states, n - 1, x);
      assert KeepsPlaced(states, n - 1, x);
    }
  }

  /**
   A source that has never been revived, whatever happens to others, is deleted at most
   once, and never while it is referenced, listed or being drained; nor is it listed twice.
   */
  lemma DeletedAtMostOnce(states: seq<State>, steps: seq<Step>, n: nat, x: int)
    requires NotRevived(states, steps, n, x)
    ensures InOnePlace(states[n], x)
  {
    PlacedUnlessRevived(states, steps, n, x);
    PlacedIsInOnePlace(states[n], x);
  }

  predicate InOnePlace(s: State, x: int) {
    && multiset(s.deleted)[x] <= 1 && multiset(s.list)[x] <= 1
    && (x in s.deleted ==> Zero(s, x) && x !in s.list && x !in InUi(s.ui) && x !in s.dropping)
    && (x in s.list ==> Zero(s, x) && x !in InUi(s.ui) && x !in s.dropping)
    && (x in InUi(s.ui) ==> Zero(s, x) && x !in s.dropping)
  }

  lemma PlacedIsInOnePlace(s: State, x: int)
    requires Placed(s, x)
    ensures InOnePlace(s, x)
  {
    assert x in s.deleted <==> multiset(s.deleted)[x] > 0;
    assert x in s.list <==> multiset(s.list)[x] > 0;
  }

  /** What the step puts on the list. */
  function PutOn(step: Step, s': State): seq<int> {
    if step.Push? && s'.list != [] then [s'.list[|s'.list| - 1]] else []
  }

  /** What the step deletes of what was on the list, in DeleteDataSources. */
  function TakenOff(s: State, step: Step): seq<int> {
    if step.DeleteNext? && s.ui.Draining? && s.ui.rest != [] then [s.ui.rest[0]] else []
  }

  function Rest(ui: Ui): seq<int> {
    if ui.Draining? then ui.rest else []
  }

  /** What is still to be deleted, in order. */
  function Pending(s: State): seq<int> {
    Rest(s.ui) + s.list
  }

  lemma PushKeepsOrder(s: State, s': State)
    requires Next(s, Push, s')
    ensures Pending(s') == Pending(s) + PutOn(Push, s')
  {
    var x :| x in s.dropping && PushOf(s, x, s');
    assert Rest(s.ui) + (s.list + [x]) == Rest(s.ui) + s.list + [x];
  }

  lemma DeletionKeepsOrder(s: State, s': State)
    requires Next(s, DeleteNext, s')
    ensures Pending(s) == TakenOff(s, DeleteNext) + Pending(s')
  {
    if s.ui.rest != [] {
      var first, rest := s.ui.rest[0], s.ui.rest[1..];
      assert s.ui.rest == [first] + rest;
      assert ([first] + rest) + s.list == [first] + (rest + s.list);
    }
  }

  predicate InOrder(s: State, step: Step, s': State) {
    Pending(s) + PutOn(step, s') == TakenOff(s, step) + Pending(s')
  }

  lemma StepKeepsOrder(s: State, step: Step, s': State)
    requires Next(s, step, s')
    ensures InOrder(s, step, s')
  {
    if step.Push? {
      PushKeepsOrder(s, s');
    } else if step.DeleteNext? {
      DeletionKeepsOrder(s, s');
    } else {
      assert Pending(s') == Pending(s);
    }
  }

  ghost function Scheduled(states: seq<State>, steps: seq<Step>, n: nat): seq<int>
    requires n < |states| && n <= |steps|
  {
    if n == 0 then [] else Scheduled(states, steps, n - 1) + PutOn(steps[n - 1], states[n])
  }

  ghost function Drained(states: seq<State>, steps: seq<Step>, n: nat): seq<int>
    requires n < |states| && n <= |steps|
  {
    if n == 0 then [] else Drained(states, steps, n - 1) + TakenOff(states[n - 1], steps[n - 1])
  }

  /**
   Sources are deleted in the order in which they have been scheduled: those scheduled are
   those deleted from the list, then those being drained, then those listed.
   */
  lemma DeletedInOrder(states: seq<State>, steps: seq<Step>, n: nat)
    requires IsRun(states, steps) && n <= |steps|
    ensures Scheduled(states, steps, n) == Drained(states, steps, n) + Pending(states[n])
  {
    forall i | 0 <= i < |steps| ensures InOrderAt(states, steps, i) {
      StepKeepsOrder(states[i], steps[i], states[i + 1]);
    }
    OrderAddsUp(states, steps, n);
  }

  predicate InOrderAt(states: seq<State>, steps: seq<Step>, i: nat) {
    i < |steps| && i + 1 < |states| && InOrder(states[i], steps[i], states[i + 1])
  }

  lemma {:induction false} OrderAddsUp(states: seq<State>, steps: seq<Step>, n: nat)
    requires |states| == |steps| + 1 && n <= |steps| && Pending(states[0]) == []
    requires forall i :: 0 <= i < |steps| ==> InOrderAt(states, steps, i)
    ensures Scheduled(states, steps, n) == Drained(states, steps, n) + Pending(states[n])
  {
    if n > 0 {
      OrderAddsUp(states, steps, n - 1);
      assert InOrderAt(states, steps, n - 1);
      var scheduled, drained := Scheduled(states, steps, n - 1), Drained(states, steps, n - 1);
      OneMoreInOrder(states[n - 1], steps[n - 1], states[n], scheduled, drained);
      OneMoreScheduled(states, steps, n, scheduled, drained);
    }
  }

  lemma OneMoreScheduled(states: seq<State>, steps: seq<Step>, n: nat, scheduled: seq<int>, drained: seq<int>)
    requires 0 < n < |states| && n <= |steps|
    requires scheduled == Scheduled(states, steps, n - 1) && drained == Drained(states, steps, n - 1)
    ensures Scheduled(states, steps, n) == scheduled + PutOn(steps[n - 1], states[n])
    ensures Drained(states, steps, n) == drained + TakenOff(states[n - 1], steps[n - 1])
  {
  }

  lemma OneMoreInOrder(s: State, step: Step, s': State, scheduled: seq<int>, drained: seq<int>)
    requires InOrder(s, step, s') && scheduled == drained + Pending(s)
    ensures scheduled + PutOn(step, s') == (drained + TakenOff(s, step)) + Pending(s')
  {
    Regroup(scheduled, drained, Pending(s), PutOn(step, s'), TakenOff(s, step), Pending(s'));
  }

  lemma Regroup(all: seq<int>, a: seq<int>, b: seq<int>, c: seq<int>, d: seq<int>, e: seq<int>)
    requires all == a + b && b + c == d + e
    ensures all + c == (a + d) + e
  {
    assert (a + b) + c == a + (b + c);
    assert (a + d) + e == a + (d + e);
  }

  // ---------- What the check in SendResponse does ----------

  /** Without references, past its push, and with no response for it half sent. */
  predicate Protected(s: State, x: int) {
    Zero(s, x) && Placed(s, x) && x !in s.dropping && s.ui != Sending(x)
  }

  /** From then on every step leaves it so, and a response for it comes to nothing. */
  lemma StaysProtected(s: State, step: Step, s': State, x: int)
    requires Protected(s, x) && Next(s, step, s')
    ensures Protected(s', x) && !RevivesIt(s, step, x)
    ensures step == SendCheck(x) ==> s' == s
  {
    StaysPlacedUnlessRevived(s, step, s', x);
    PlacedIsInOnePlace(s, x);
    if step == SendCheck(x) {
      assert x in s.list by {
        assert multiset(s.deleted)[x] == 0;
      }
    } else if step.Push? {
      var y :| y in s.dropping && PushOf(s, y, s');
    }
  }

  predicate KeepsProtected(states: seq<State>, i: nat, x: int) {
    i + 1 < |states| && (Protected(states[i], x) ==> Protected(states[i + 1], x))
  }

  lemma StepKeepsProtected(states: seq<State>, steps: seq<Step>, i: nat, x: int)
    requires IsRun(states, steps) && i < |steps|
    ensures KeepsProtected(states, i, x)
  {
    if Protected(states[i], x) {
      StaysProtected(states[i], steps[i], states[i + 1], x);
    }
  }

  lemma RunKeepsProtected(states: seq<State>, steps: seq<Step>, m: nat, n: nat, x: int)
    requires IsRun(states, steps) && m <= n <= |steps| && Protected(states[m], x)
    ensures Protected(states[n], x)
  {
    forall i | m <= i < n ensures KeepsProtected(states, i, x) {
      StepKeepsProtected(states, steps, i, x);
    }
    ProtectedKept(states, m, n, x);
  }

  lemma {:induction false} ProtectedKept(states: seq<State>, m: nat, n: nat, x: int)
    requires m <= n < |states| && Protected(states[m], x)
    requires forall i :: m <= i < n ==> KeepsProtected(states, i, x)
    ensures Protected(states[n], x)
    decreases n - m
  {
    if m < n {
      ProtectedKept(states, m, n - 1, x);
      assert KeepsProtected(states, n - 1, x);
    }
  }

  /** A source that has come on the list without having been revived. */
  lemma ListedIsProtected(states: seq<State>, steps: seq<Step>, m: nat, x: int)
    requires NotRevived(states, steps, m, x) && x in states[m].list
    ensures Zero(states[m], x)
    ensures Protected(states[m], x) <==> states[m].ui != Sending(x)
  {
    DeletedAtMostOnce(states, steps, m, x);
    PlacedUnlessRevived(states, steps, m, x);
  }

  /**
   From its listing on the check keeps a source without references, and a response for it
   comes to nothing, if none was half sent. All other sources and callers may do as they like.
   */
  lemma ListedGetsNoResponse(states: seq<State>, steps: seq<Step>, m: nat, n: nat, x: int)
    requires NotRevived(states, steps, m, x) && x in states[m].list && states[m].ui != Sending(x)
    requires m <= n < |steps|
    ensures Zero(states[n], x) && Zero(states[n + 1], x) && !RevivesIt(states[n], steps[n], x)
    ensures steps[n] == SendCheck(x) ==> states[n + 1] == states[n]
  {
    ListedIsProtected(states, steps, m, x);
    RunKeepsProtected(states, steps, m, n, x);
    StaysProtected(states[n], steps[n], states[n + 1], x);
  }

  /** Once listed, a source stays without references exactly if no response for it was half sent. */
  lemma ScheduledStaysUnreferenced(states: seq<State>, steps: seq<Step>, m: nat, x: int)
    requires NotRevived(states, steps, m, x) && x in states[m].list
    requires states[|steps|].ui != Sending(x)
    ensures (forall n :: m <= n <= |steps| ==> Zero(states[n], x)) <==> states[m].ui != Sending(x)
  {
    ListedIsProtected(states, steps, m, x);
    if states[m].ui != Sending(x) {
      forall n | m <= n <= |steps| ensures Zero(states[n], x) {
        RunKeepsProtected(states, steps, m, n, x);
      }
    } else if forall n :: m <= n <= |steps| ==> Zero(states[n], x) {
      forall i | m <= i < |steps| ensures KeepsHalfSent(states, i, x) {
        StepKeepsHalfSent(states, steps, i, x);
      }
      HalfSentKept(states, m, |steps|, x);
    }
  }

  /** A response that is half sent remains so until its task takes a reference. */
  lemma SendsOrRevives(s: State, step: Step, s': State, x: int)
    requires Next(s, step, s') && s.ui == Sending(x) && Zero(s, x)
    ensures if RevivesIt(s, step, x) then !Zero(s', x) else s'.ui == Sending(x) && Zero(s', x)
  {
  }

  predicate HalfSent(s: State, x: int) {
    s.ui == Sending(x) && Zero(s, x)
  }

  predicate KeepsHalfSent(states: seq<State>, i: nat, x: int) {
    i + 1 < |states| && (HalfSent(states[i], x) ==> HalfSent(states[i + 1], x))
  }

  lemma StepKeepsHalfSent(states: seq<State>, steps: seq<Step>, i: nat, x: int)
    requires IsRun(states, steps) && i < |steps|
    requires !RevivesIt(states[i], steps[i], x) || Zero(states[i + 1], x)
    ensures KeepsHalfSent(states, i, x)
  {
    if HalfSent(states[i], x) {
      SendsOrRevives(states[i], steps[i], states[i + 1], x);
    }
  }

  lemma {:induction false} HalfSentKept(states: seq<State>, m: nat, n: nat, x: int)
    requires m <= n < |states| && HalfSent(states[m], x)
    requires forall i :: m <= i < n ==> KeepsHalfSent(states, i, x)
    ensures HalfSent(states[n], x)
    decreases n - m
  {
    if m < n {
      HalfSentKept(states, m, n - 1, x);
      assert KeepsHalfSent(states, n - 1, x);
    }
  }

  /**
   No wake-up is lost, revived sources or not: unless a post has failed since the list was
   last swapped out, a nonempty list means that a DeleteDataSources task is queued or some
   thread is about to post one.
   */
  lemma {:induction false} WakeupIsNeverLost(states: seq<State>, steps: seq<Step>, n: nat)
    requires IsRun(states, steps) && n <= |steps|
    ensures NoLostWakeup(states[n])
    ensures !states[n].postFailed && states[n].tasks == 0 && states[n].posting == 0 ==> states[n].list == []
  {
    if n > 0 {
      WakeupIsNeverLost(states, steps, n - 1);
      assert Next(states[n - 1], steps[n - 1], states[n]);
    }
  }

  /** Sources are scheduled, and nobody is going to see to them. */
  predicate Stuck(s: State) {
    s.list != [] && s.tasks == 0 && s.posting == 0
  }

  /**
   After a failed post the next sources to be scheduled find the list nonempty and post
   nothing either: only a call of DeleteDataSources from outside helps.
   */
  lemma OnlyForceDeleteHelps(s: State, step: Step, s': State)
    requires Stuck(s) && Next(s, step, s')
    ensures Stuck(s') <==> !step.ForceDelete?
    ensures !step.ForceDelete? ==> s.list <= s'.list
  {
  }

  lemma {:induction false} StuckUntilForced(states: seq<State>, steps: seq<Step>, m: nat, n: nat)
    requires IsRun(states, steps) && m <= n <= |steps| && Stuck(states[m])
    requires forall i :: m <= i < n ==> !steps[i].ForceDelete?
    ensures Stuck(states[n]) && states[m].list <= states[n].list
    decreases n - m
  {
    if m < n {
      StuckUntilForced(states, steps, m, n - 1);
      OnlyForceDeleteHelps(states[n - 1], steps[n - 1], states[n]);
    }
  }

  /** The one post that would have woken the UI thread fails. */
  predicate LosesWakeup(s: State, step: Step) {
    step.PostFails? && s.posting == 1 && s.tasks == 0 && s.list != []
  }

  /** That is the only way to get there. */
  lemma GetsStuckIffWakeupLost(s: State, step: Step, s': State)
    requires Next(s, step, s') && !Stuck(s)
    ensures Stuck(s') <==> LosesWakeup(s, step)
  {
  }

  lemma {:induction false} NeverStuckIffNoWakeupLost(states: seq<State>, steps: seq<Step>, n: nat)
    requires IsRun(states, steps) && n <= |steps|
    ensures (forall i :: 0 <= i <= n ==> !Stuck(states[i]))
      <==> forall i :: 0 <= i < n ==> !LosesWakeup(states[i], steps[i])
  {
    if n > 0 {
      NeverStuckIffNoWakeupLost(states, steps, n - 1);
      if !Stuck(states[n - 1]) {
        GetsStuckIffWakeupLost(states[n - 1], steps[n - 1], states[n]);
      }
    }
  }

  /** And so it can come: the result of the post is not looked at. */
  lemma FailedPostIsNotMadeUpFor()
    ensures exists s :: Reachable(s) && Stuck(s)
  {
    var s1 := INIT.(count := map[1 := 1]);
    InitReachable();
    StepReachable(INIT, Create(1), s1);
    var s2 := s1.(count := map[1 := 0], dropping := multiset{1});
    StepReachable(s1, Release(1), s2);
    var s3 := s2.(dropping := multiset{}, list := [1], posting := 1);
    assert PushOf(s2, 1, s3);
    StepReachable(s2, Push, s3);
    var s4 := s3.(posting := 0, postFailed := true);
    StepReachable(s3, PostFails, s4);
    assert Stuck(s4);
  }

  /**
   With no wake-up queued or on its way and no call under way, nothing is left over: the
   list is empty and every source without references that was never revived has been deleted.
   */
  lemma QuiescentMeansDeleted(states: seq<State>, steps: seq<Step>, n: nat, x: int)
    requires NotRevived(states, steps, n, x) && !states[n].postFailed
    requires states[n].tasks == 0 && states[n].posting == 0
    ensures states[n].list == []
    ensures states[n].dropping == multiset{} && states[n].ui.Idle? && Zero(states[n], x) ==> x in states[n].deleted
  {
    WakeupIsNeverLost(states, steps, n);
    PlacedUnlessRevived(states, steps, n, x);
    var s := states[n];
    assert x in s.deleted <==> multiset(s.deleted)[x] > 0;
  }

  // ---------- What it takes never to revive a source ----------

  /** If a response is being sent for the source then it is still referenced. */
  predicate SendIsSafe(s: State, x: int) {
    s.ui == Sending(x) ==> x in s.count && s.count[x] > 0
  }

  /**
   The part of those who have to do with the source: the last reference is not given up
   behind the check, and it is not asked to respond between losing its last reference and
   being listed.
   */
  predicate Guarded(s: State, step: Step, x: int) {
    && (step == Release(x) && s.ui == Sending(x) ==> x in s.count && s.count[x] > 1)
    && (step == SendCheck(x) ==> x in s.count && (s.count[x] > 0 || x in s.list))
  }

  lemma SendStaysSafeIffGuarded(s: State, step: Step, s': State, x: int)
    requires SendIsSafe(s, x) && Next(s, step, s')
    ensures SendIsSafe(s', x) <==> Guarded(s, step, x)
    ensures !RevivesIt(s, step, x)
  {
  }

  predicate GuardedAt(states: seq<State>, steps: seq<Step>, i: nat, x: int) {
    i < |steps| && i < |states| && Guarded(states[i], steps[i], x)
  }

  /** A source whose callers do their part is never revived, whatever others do with theirs. */
  lemma {:induction false} GuardedIsNeverRevived(states: seq<State>, steps: seq<Step>, n: nat, x: int)
    requires IsRun(states, steps) && n <= |steps|
    requires forall i :: 0 <= i < n ==> GuardedAt(states, steps, i, x)
    ensures SendIsSafe(states[n], x)
    ensures n < |steps| ==> !RevivesIt(states[n], steps[n], x)
  {
    if n > 0 {
      GuardedIsNeverRevived(states, steps, n - 1, x);
      assert GuardedAt(states, steps, n - 1, x);
      SendStaysSafeIffGuarded(states[n - 1], steps[n - 1], states[n], x);
    }
    if n < |steps| {
      SendStaysSafeIffGuarded(states[n], steps[n], states[n + 1], x);
    }
  }

  lemma HalfSentToTheEnd(states: seq<State>, steps: seq<Step>, m: nat, x: int)
    requires NotRevived(states, steps, |steps|, x) && m <= |steps| && HalfSent(states[m], x)
    ensures states[|steps|].ui == Sending(x)
  {
    forall i | m <= i < |steps| ensures KeepsHalfSent(states, i, x) {
      StepKeepsHalfSent(states, steps, i, x);
    }
    HalfSentKept(states, m, |steps|, x);
  }

  lemma {:induction false} FirstUnguarded(states: seq<State>, steps: seq<Step>, i: nat, x: int) returns (m: nat)
    requires !GuardedAt(states, steps, i, x)
    ensures m <= i && !GuardedAt(states, steps, m, x) && forall j :: 0 <= j < m ==> GuardedAt(states, steps, j, x)
  {
    if j: nat :| j < i && !GuardedAt(states, steps, j, x) {
      m := FirstUnguarded(states, steps, j, x);
    } else {
      m := i;
    }
  }

  /** A send goes on to its end, so the first step that is not guarded leads to a revival. */
  lemma UnguardedIsRevived(states: seq<State>, steps: seq<Step>, m: nat, x: int)
    requires IsRun(states, steps) && states[|steps|].ui != Sending(x)
    requires m < |steps| && !GuardedAt(states, steps, m, x)
    requires forall j :: 0 <= j < m ==> GuardedAt(states, steps, j, x)
    ensures !NotRevived(states, steps, |steps|, x)
  {
    FirstUnguardedIsHalfSent(states, steps, m, x);
    if NotRevived(states, steps, |steps|, x) {
      HalfSentToTheEnd(states, steps, m + 1, x);
    }
  }

  lemma FirstUnguardedIsHalfSent(states: seq<State>, steps: seq<Step>, m: nat, x: int)
    requires IsRun(states, steps) && m < |steps| && !GuardedAt(states, steps, m, x)
    requires forall j :: 0 <= j < m ==> GuardedAt(states, steps, j, x)
    ensures HalfSent(states[m + 1], x)
  {
    GuardedIsNeverRevived(states, steps, m, x);
    SendStaysSafeIffGuarded(states[m], steps[m], states[m + 1], x);
  }

  /**
   A run that ends with no response for the source half sent never revives it exactly if
   its callers have done their part.
   */
  lemma NeverRevivedIffGuarded(states: seq<State>, steps: seq<Step>, x: int)
    requires IsRun(states, steps) && states[|steps|].ui != Sending(x)
    ensures NotRevived(states, steps, |steps|, x)
      <==> forall i :: 0 <= i < |steps| ==> GuardedAt(states, steps, i, x)
  {
    if i: nat :| i < |steps| && !GuardedAt(states, steps, i, x) {
      var m := FirstUnguarded(states, steps, i, x);
      UnguardedIsRevived(states, steps, m, x);
    } else {
      forall i | 0 <= i < |steps| ensures !RevivesIt(states[i], steps[i], x) {
        GuardedIsNeverRevived(states, steps, i, x);
      }
    }
  }

  /**
   Without that the check does not suffice: the last reference is given up between the
   check and the task, the source is revived while listed, and deleted twice.
   */
  lemma UnguardedSendDeletesTwice()
    ensures exists s :: Reachable(s) && s.deleted == [1, 1]
  {
    var s1 := INIT.(count := map[1 := 1]);
    InitReachable();
    StepReachable(INIT, Create(1), s1);
    var s2 := s1.(ui := Sending(1));
    StepReachable(s1, SendCheck(1), s2);
    var s3 := s2.(count := map[1 := 0], dropping := multiset{1});
    StepReachable(s2, Release(1), s3);
    var s4 := s3.(dropping := multiset{}, list := [1], posting := 1);
    assert PushOf(s3, 1, s4);
    StepReachable(s3, Push, s4);
    var s5 := s4.(ui := Idle, count := map[1 := 1]);
    StepReachable(s4, SendTask, s5);
    ListedTwice(s5);
  }

  lemma ListedTwice(s: State)
    requires Reachable(s)
    requires s == INIT.(count := map[1 := 1], list := [1], posting := 1)
    ensures exists s :: Reachable(s) && s.deleted == [1, 1]
  {
    var s1 := s.(count := map[1 := 0], dropping := multiset{1});
    StepReachable(s, Release(1), s1);
    var s2 := s1.(dropping := multiset{}, list := [1, 1]);
    assert PushOf(s1, 1, s2);
    StepReachable(s1, Push, s2);
    var s3 := s2.(ui := Draining([1, 1]), list := []);
    StepReachable(s2, ForceDelete, s3);
    var s4 := s3.(ui := Draining([1]), deleted := [1]);
    StepReachable(s3, DeleteNext, s4);
    var s5 := s4.(ui := Draining([]), deleted := [1, 1]);
    StepReachable(s4, DeleteNext, s5);
  }

  ghost predicate Reachable(s: State) {
    exists states: seq<State>, steps: seq<Step> :: IsRun(states, steps) && states[|steps|] == s
  }

  lemma InitReachable()
    ensures Reachable(INIT)
  {
    var states, steps: seq<Step> := [INIT], [];
    assert IsRun(states, steps) && states[|steps|] == INIT;
  }

  lemma StepReachable(s: State, step: Step, s': State)
    requires Reachable(s) && Next(s, step, s')
    ensures Reachable(s')
  {
    var states: seq<State>, steps: seq<Step> :| IsRun(states, steps) && states[|steps|] == s;
    var states', steps' := states + [s'], steps + [step];
    forall i | 0 <= i < |steps'| ensures Next(states'[i], steps'[i], states'[i + 1]) {
      if i == |steps| {
        assert states'[i] == s;
      }
    }
    assert IsRun(states', steps') && states'[|steps'|] == s';
  }
}
