/**
 web/webui/url_data_manager_ios.cc and url_data_source_ios_impl.cc, one call at a time.
 The static list is null until the first source is scheduled.
 */
module DataSources {
  import opened Options
  import opened DataSourceDeletion

  class URLDataManagerIOS {
    var dataSources: Option<seq<int>>
    // Tasks posted: wake-ups for the UI thread, responses for the IO thread.
    var wakeups: nat
    var responses: seq<int>
    // Deletions made, in order.
    var deleted: seq<int>

    constructor ()
      ensures dataSources == None && wakeups == 0 && responses == [] && deleted == []
    {
      dataSources, wakeups, responses, deleted := None, 0, [], [];
    }

    ghost function Scheduled(): seq<int>
      reads this
    {
      if dataSources.Some? then dataSources.value else []
    }

    /** Empties the list first and then deletes what was on it, in order. */
    method DeleteDataSources()
      modifies this
      ensures Scheduled() == [] && (dataSources.None? <==> old(dataSources).None?)
      ensures deleted == old(deleted) + old(Scheduled())
      ensures wakeups == old(wakeups) && responses == old(responses)
    {
      if dataSources.None? {
        return;
      }
      var sources := dataSources.value;
      dataSources := Some([]);
      var i := 0;
      while i < |sources|
        invariant 0 <= i <= |sources|
        invariant dataSources == Some([])
        invariant wakeups == old(wakeups) && responses == old(responses)
        invariant deleted == old(deleted) + sources[..i]
      {
        deleted := deleted + [sources[i]];
        i := i + 1;
      }
      assert sources[..i] == sources;
    }

    /**
     Deletes the source on the UI thread; elsewhere lists it, and wakes the UI thread if it
     is the first.
     */
    method DeleteDataSource(source: int, onUiThread: bool)
      modifies this
      ensures responses == old(responses)
      ensures deleted == if onUiThread then old(deleted) + [source] else old(deleted)
      ensures Scheduled() == if onUiThread then old(Scheduled()) else old(Scheduled()) + [source]
      ensures wakeups == if !onUiThread && old(Scheduled()) == [] then old(wakeups) + 1 else old(wakeups)
    {
      if onUiThread {
        deleted := deleted + [source];
        return;
      }
      if dataSources.None? {
        dataSources := Some([]);
      }
      var scheduleDelete := dataSources.value == [];
      dataSources := Some(dataSources.value + [source]);
      if scheduleDelete {
        wakeups := wakeups + 1;
      }
    }

    method IsScheduledForDeletion(source: int) returns (scheduled: bool)
      ensures scheduled <==> source in Scheduled()
    {
      if dataSources.None? {
        return false;
      }
      scheduled := source in dataSources.value;
    }

    /** Nothing is posted, and so no reference taken, for a source scheduled for deletion. */
    method SendResponse(source: int)
      modifies this
      ensures responses == if source in old(Scheduled()) then old(responses) else old(responses) + [source]
      ensures dataSources == old(dataSources) && wakeups == old(wakeups) && deleted == old(deleted)
    {
      var scheduled := IsScheduledForDeletion(source);
      if scheduled {
        return;
      }
      responses := responses + [source];
    }
  }

  // ---------- The same as steps of the state machine ----------

  /** What DeleteDataSource does off the UI thread: the push, and the wake-up if one is due. */
  lemma DeleteIsPushAndPost(s: State, x: int, s1: State, s2: State)
    requires x in s.dropping && PushOf(s, x, s1)
    requires if s.list == [] then Next(s1, Post, s2) else s2 == s1
    ensures Next(s, Push, s1)
    ensures s2.list == s.list + [x] && s2.deleted == s.deleted
    ensures s2.tasks == (if s.list == [] then s.tasks + 1 else s.tasks) && s2.posting == s.posting
  {
  }

  /** The UI thread carries on until what it has taken off the list is deleted. */
  ghost predicate Drains(s: State, s': State)
    requires s.ui.Draining?
    decreases |s.ui.rest|
  {
    if s.ui.rest == [] then Next(s, DeleteNext, s')
    else exists m: State :: Next(s, DeleteNext, m) && m.ui == Draining(s.ui.rest[1..]) && Drains(m, s')
  }

  /** What DeleteDataSources does: the swap and then the deletions, one by one. */
  lemma DeleteAllIsSwapAndDrain(s: State, s1: State, s2: State)
    requires Next(s, ForceDelete, s1) && Drains(s1, s2)
    ensures s2 == s.(list := [], deleted := s.deleted + s.list, postFailed := false)
  {
    DrainDeletesRest(s1, s2);
  }

  lemma {:induction false} DrainDeletesRest(s: State, s': State)
    requires s.ui.Draining? && Drains(s, s')
    ensures s' == s.(ui := Idle, deleted := s.deleted + s.ui.rest)
    decreases |s.ui.rest|
  {
    if s.ui.rest != [] {
      var m: State :| Next(s, DeleteNext, m) && m.ui == Draining(s.ui.rest[1..]) && Drains(m, s');
      DrainDeletesRest(m, s');
      assert s.ui.rest == [s.ui.rest[0]] + s.ui.rest[1..];
      assert s.deleted + [s.ui.rest[0]] + s.ui.rest[1..] == s.deleted + s.ui.rest;
    }
  }
}
