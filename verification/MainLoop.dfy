/** web/app/web_main_loop.mm: in which order the well-known threads come and go. */
module MainLoop {
  import opened Options
  import opened ThreadLifetimes

  /** The threads listed before `k` are running, each on a loop of its own. */
  function Up(loops: seq<int>, k: nat): Slots
    requires |loops| == ID_COUNT
  {
    seq(ID_COUNT, i requires 0 <= i < ID_COUNT => if i < k then Some(Running(loops[i])) else None)
  }

  ghost predicate Distinct(loops: seq<int>) {
    |loops| == ID_COUNT && forall i, j :: 0 <= i < j < ID_COUNT ==> loops[i] != loops[j]
  }

  /** A way of slots from one step of a lifetime to the next. */
  ghost predicate Lifetimes(slots: seq<Slots>, events: seq<Lifetime>) {
    && |slots| == |events| + 1
    && forall i {:trigger events[i]} :: 0 <= i < |events| ==> LifetimeStep(true, slots[i], events[i], slots[i + 1])
  }

  lemma Append(slots: seq<Slots>, events: seq<Lifetime>, e: Lifetime, after: Slots)
    requires Lifetimes(slots, events) && LifetimeStep(true, slots[|events|], e, after)
    ensures Lifetimes(slots + [after], events + [e])
  {
  }

  /** The main thread registers itself; the others are created and started one by one. */
  function StartUp(loops: seq<int>, k: nat): seq<Lifetime>
    requires |loops| == ID_COUNT && 1 <= k <= ID_COUNT
  {
    if k == 1 then [Register(0, Running(loops[0]))]
    else StartUp(loops, k - 1) + [Register(k - 1, Unstarted)] + [Start(k - 1, loops[k - 1])]
  }

  /** They are destroyed in the reverse order, down to `k`. */
  function ShutDown(k: nat): seq<Lifetime>
    requires k <= ID_COUNT
    decreases ID_COUNT - k
  {
    if k == ID_COUNT then [] else ShutDown(k + 1) + [Stop(k)] + [Deregister(k)]
  }

  lemma {:induction false} StartUpIsOrdered(loops: seq<int>, k: nat) returns (slots: seq<Slots>)
    requires Distinct(loops) && 1 <= k <= ID_COUNT
    ensures Lifetimes(slots, StartUp(loops, k))
    ensures slots[0] == NO_THREADS && slots[|slots| - 1] == Up(loops, k)
  {
    if k == 1 {
      slots := [NO_THREADS, Up(loops, 1)];
      assert Up(loops, 1) == NO_THREADS[0 := Some(Running(loops[0]))];
    } else {
      slots := StartUpIsOrdered(loops, k - 1);
      var registered := Up(loops, k - 1)[k - 1 := Some(Unstarted)];
      Append(slots, StartUp(loops, k - 1), Register(k - 1, Unstarted), registered);
      assert Up(loops, k) == registered[k - 1 := Some(Running(loops[k - 1]))];
      Append(slots + [registered], StartUp(loops, k - 1) + [Register(k - 1, Unstarted)],
             Start(k - 1, loops[k - 1]), Up(loops, k));
      slots := slots + [registered] + [Up(loops, k)];
    }
  }

  lemma {:induction false} ShutDownIsOrdered(loops: seq<int>, k: nat) returns (slots: seq<Slots>)
    requires Distinct(loops) && k <= ID_COUNT
    ensures Lifetimes(slots, ShutDown(k))
    ensures slots[0] == Up(loops, ID_COUNT) && slots[|slots| - 1] == Up(loops, k)
    decreases ID_COUNT - k
  {
    if k == ID_COUNT {
      slots := [Up(loops, ID_COUNT)];
    } else {
      slots := ShutDownIsOrdered(loops, k + 1);
      var stopped := Up(loops, k + 1)[k := Some(Stopped)];
      Append(slots, ShutDown(k + 1), Stop(k), stopped);
      assert Up(loops, k) == stopped[k := None];
      Append(slots + [stopped], ShutDown(k + 1) + [Stop(k)], Deregister(k), Up(loops, k));
      slots := slots + [stopped] + [Up(loops, k)];
    }
  }

  /**
   Threads started and destroyed by the main loop keep the order of the enumeration, from no
   thread up to all of them and down to none again.
   */
  lemma MainLoopIsOrdered(loops: seq<int>)
    requires Distinct(loops)
    ensures exists up, down ::
      && Lifetimes(up, StartUp(loops, ID_COUNT)) && Lifetimes(down, ShutDown(0))
      && up[0] == NO_THREADS && up[|up| - 1] == Up(loops, ID_COUNT) == down[0]
      && down[|down| - 1] == NO_THREADS
  {
    var up := StartUpIsOrdered(loops, ID_COUNT);
    var down := ShutDownIsOrdered(loops, 0);
    assert Up(loops, 0) == NO_THREADS;
  }
}
