/** web/web_thread_impl.cc, one call at a time: the slot array and what each call does to it. */
module WebThreads {
  import ThreadLifetimes
  import Options

  const ID_COUNT := ThreadLifetimes.ID_COUNT

  datatype Task = Task(closure: int, delay: int, nestable: bool)

  class MessageLoop {
    var tasks: seq<Task>

    constructor ()
      ensures tasks == []
    {
      tasks := [];
    }
  }

  class WebThreadImpl {
    const identifier: nat
    var messageLoop: MessageLoop?

    constructor (identifier: nat, messageLoop: MessageLoop?)
      ensures this.identifier == identifier && this.messageLoop == messageLoop
    {
      this.identifier := identifier;
      this.messageLoop := messageLoop;
    }
  }

  class WebThreadGlobals {
    const threads: array<WebThreadImpl?>

    ghost function Registered(): set<object>
      reads this, threads
    {
      set i | 0 <= i < threads.Length && threads[i] != null :: threads[i]
    }

    /** Each registered thread sits in the slot of its own identifier. */
    ghost predicate Valid()
      reads this, threads
    {
      && threads.Length == ID_COUNT
      && forall i :: 0 <= i < ID_COUNT && threads[i] != null ==> threads[i].identifier == i
    }

    ghost predicate RunsOn(i: nat, current: MessageLoop?)
      requires Valid() && i < ID_COUNT
      reads this, threads, Registered()
    {
      threads[i] != null && threads[i].messageLoop == current
    }

    /** `k` is the least identifier registered for the message loop. */
    ghost predicate IsLeast(current: MessageLoop?, k: nat)
      requires Valid()
      reads this, threads, Registered()
    {
      k < ID_COUNT && RunsOn(k, current) && forall j :: 0 <= j < k ==> !RunsOn(j, current)
    }

    constructor ()
      ensures Valid() && forall i :: 0 <= i < ID_COUNT ==> threads[i] == null
      ensures fresh(threads)
    {
      threads := new WebThreadImpl?[ID_COUNT](_ => null);
    }

    method Initialize(thread: WebThreadImpl)
      requires Valid() && thread.identifier < ID_COUNT && threads[thread.identifier] == null
      modifies threads
      ensures Valid()
      ensures threads[..] == old(threads[..])[thread.identifier := thread]
    {
      threads[thread.identifier] := thread;
    }

    /** The destructor; `ordered` is the outcome of its double check. */
    method Destroy(thread: WebThreadImpl) returns (ordered: bool)
      requires Valid() && thread.identifier < ID_COUNT && threads[thread.identifier] == thread
      modifies threads, thread`messageLoop
      ensures Valid() && thread.messageLoop == null
      ensures threads[..] == old(threads[..])[thread.identifier := null]
      ensures ordered <==> forall j :: thread.identifier < j < ID_COUNT ==> threads[j] == null
    {
      thread.messageLoop := null;
      threads[thread.identifier] := null;
      ordered := true;
      for i := thread.identifier + 1 to ID_COUNT
        invariant ordered <==> forall j :: thread.identifier < j < i ==> threads[j] == null
      {
        if threads[i] != null {
          ordered := false;
        }
      }
    }

    /** Finds the least identifier whose thread runs on the caller's message loop. */
    method GetCurrentThreadIdentifier(current: MessageLoop?) returns (found: bool, identifier: nat)
      requires Valid()
      ensures found ==> IsLeast(current, identifier)
      ensures !found ==> identifier == ID_COUNT && forall i :: 0 <= i < ID_COUNT ==> !RunsOn(i, current)
    {
      for i := 0 to ID_COUNT
        invariant forall j :: 0 <= j < i ==> !RunsOn(j, current)
      {
        if threads[i] != null && threads[i].messageLoop == current {
          return true, threads[i].identifier;
        }
      }
      return false, ID_COUNT;
    }

    ghost function LoopOf(identifier: nat): (loop: MessageLoop?)
      requires Valid() && identifier < ID_COUNT
      reads this, threads, Registered()
      ensures threads[identifier] != null ==> RunsOn(identifier, loop)
      ensures threads[identifier] == null ==> loop == null
    {
      if threads[identifier] == null then null else threads[identifier].messageLoop
    }

    /**
     Hands the task to the target's message loop, if it has one, and says so. `locked` tells
     whether the lock was taken on the way: only if no thread that dies no later than the
     target is found to be the current one.
     */
    method PostTaskHelper(identifier: nat, closure: int, delay: int, nestable: bool, current: MessageLoop?)
        returns (posted: bool, locked: bool)
      requires Valid() && identifier < ID_COUNT
      modifies if LoopOf(identifier) == null then {} else {LoopOf(identifier)}
      ensures threads[..] == old(threads[..]) && Valid() && LoopOf(identifier) == old(LoopOf(identifier))
      ensures posted <==> threads[identifier] != null && threads[identifier].messageLoop != null
      ensures posted ==>
        var loop := threads[identifier].messageLoop;
        loop == old(threads[identifier].messageLoop) && loop.tasks == old(loop.tasks) + [Task(closure, delay, nestable)]
      ensures !locked <==> exists k: nat :: identifier <= k && IsLeast(current, k)
    {
      var found, currentThread := GetCurrentThreadIdentifier(current);
      label scanned:
      var targetThreadOutlivesCurrent := found && currentThread >= identifier;
      locked := !targetThreadOutlivesCurrent;
      var messageLoop := if threads[identifier] != null then threads[identifier].messageLoop else null;
      if messageLoop != null {
        if nestable {
          messageLoop.tasks := messageLoop.tasks + [Task(closure, delay, true)];
        } else {
          messageLoop.tasks := messageLoop.tasks + [Task(closure, delay, false)];
        }
      }
      posted := messageLoop != null;
      assert forall i :: 0 <= i < ID_COUNT ==> (RunsOn(i, current) <==> old@scanned(RunsOn(i, current)));
      assert found ==> IsLeast(current, currentThread);
    }

    method CurrentlyOn(identifier: nat, current: MessageLoop?) returns (on: bool)
      requires Valid() && identifier < ID_COUNT
      ensures on <==> RunsOn(identifier, current)
      ensures on && current != null ==> exists k: nat :: k <= identifier && IsLeast(current, k)
    {
      on := threads[identifier] != null && threads[identifier].messageLoop == current;
      if on {
        LeastExists(current, identifier);
      }
    }

    method IsMessageLoopValid(identifier: nat) returns (valid: bool)
      requires Valid() && identifier < ID_COUNT
      ensures valid <==> threads[identifier] != null && threads[identifier].messageLoop != null
    {
      valid := threads[identifier] != null && threads[identifier].messageLoop != null;
    }

    lemma {:induction false} LeastExists(current: MessageLoop?, i: nat)
      requires Valid() && i < ID_COUNT && RunsOn(i, current)
      ensures exists k: nat :: k <= i && IsLeast(current, k)
      decreases i
    {
      if j: nat :| j < i && RunsOn(j, current) {
        LeastExists(current, j);
      } else {
        assert IsLeast(current, i);
      }
    }

    // ---------- The same slots as in the state machine ----------

    /** The slots as `ThreadLifetimes` has them, given a number for each message loop. */
    ghost function Slots(number: MessageLoop -> int): ThreadLifetimes.Slots
      requires Valid()
      reads this, threads, Registered()
    {
      seq(ID_COUNT, i requires 0 <= i < ID_COUNT reads this, threads, Registered() => SlotOf(threads[i], number))
    }

    /** The loop a call posts to is what a read of the target's slot finds. */
    lemma CallReadsLikeTheMachine(identifier: nat, number: MessageLoop -> int)
      requires Valid() && identifier < ID_COUNT
      ensures ThreadLifetimes.LoopAt(Slots(number), identifier) == LoopNumber(LoopOf(identifier), number)
    {
      assert Slots(number)[identifier] == SlotOf(threads[identifier], number);
    }

    /** That a call finds the least id, and skips the lock for it, is what a scan does step by step. */
    lemma CallScansLikeTheMachine(current: MessageLoop?, number: MessageLoop -> int, identifier: nat, k: nat)
      requires Valid() && forall l, m :: number(l) == number(m) ==> l == m
      ensures IsLeast(current, k) <==> ThreadLifetimes.IsLeast(Slots(number), LoopNumber(current, number), k)
      ensures identifier <= k && IsLeast(current, k) <==>
        ThreadLifetimes.ScanEnd(Slots(number), LoopNumber(current, number), identifier, 0)
        == ThreadLifetimes.Read(ThreadLifetimes.Elided(k))
    {
      var slots, loop := Slots(number), LoopNumber(current, number);
      forall i: nat | i < ID_COUNT ensures RunsOn(i, current) <==> ThreadLifetimes.Matches(slots[i], loop) {
        assert slots[i] == SlotOf(threads[i], number);
      }
      ThreadLifetimes.SkipsLockIffLeastIsBehindTarget(slots, loop, identifier);
    }
  }

  ghost function LoopNumber(loop: MessageLoop?, number: MessageLoop -> int): Options.Option<int> {
    if loop == null then Options.None else Options.Some(number(loop))
  }

  /** A thread without a message loop has not been started, or has been stopped. */
  ghost function SlotOf(thread: WebThreadImpl?, number: MessageLoop -> int): Options.Option<ThreadLifetimes.Thread>
    reads thread
  {
    if thread == null then Options.None
    else if thread.messageLoop == null then Options.Some(ThreadLifetimes.Unstarted)
    else Options.Some(ThreadLifetimes.Running(number(thread.messageLoop)))
  }
}
