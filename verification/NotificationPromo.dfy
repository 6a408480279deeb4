/** chrome/browser/notification_promo.cc: promo objects, and what sessions of them add up to. */
module NotificationPromos {
  import opened Options
  import opened PromoPrefs

  /** What the server says about a promo. */
  datatype Config = Config(
    id: int, text: string, start: real, end: real, maxViews: int, maxSeconds: int)

  // ---------- May the promo be shown? ----------

  predicate ExceedsMaxViews(c: Config, r: Record) {
    c.maxViews != 0 && r.views >= c.maxViews
  }

  predicate ExceedsMaxSeconds(c: Config, r: Record, now: real) {
    c.maxSeconds != 0 && r.firstViewTime != 0.0 && r.firstViewTime + c.maxSeconds as real < now
  }

  predicate Showable(c: Config, r: Record, now: real) {
    && !r.closed && c.text != "" && !ExceedsMaxViews(c, r) && !ExceedsMaxSeconds(c, r, now)
    && c.start < now < c.end
  }

  // ---------- One object ----------

  /** The preference service, as far as the promo preference goes. */
  class PrefService {
    var promos: Dict

    constructor (promos: Dict)
      ensures this.promos == promos
    {
      this.promos := promos;
    }
  }

  class NotificationPromo {
    const localState: PrefService
    const config: Config
    var firstViewTime: real
    var views: int
    var closed: bool

    ghost function Fields(): Record
      reads this
    {
      Record(firstViewTime, views, closed)
    }

    constructor (localState: PrefService, config: Config)
      ensures this.localState == localState && this.config == config && Fields() == NEW_RECORD
    {
      this.localState, this.config := localState, config;
      firstViewTime, views, closed := 0.0, 0, false;
    }

    method WritePrefs(promoId: int, firstViewTime: real, views: int, closed: bool)
      modifies localState
      ensures localState.promos == Written(old(localState.promos), promoId, Record(firstViewTime, views, closed))
    {
      var ntpPromo: Dict := map[];
      ntpPromo := ntpPromo[FIRST_VIEW_TIME := Double(firstViewTime)];
      ntpPromo := ntpPromo[VIEWS := Integer(views)];
      ntpPromo := ntpPromo[CLOSED := Boolean(closed)];
      assert ntpPromo == ToDict(Record(firstViewTime, views, closed));
      localState.promos := localState.promos[IntToString(promoId) := Dictionary(ntpPromo)];
    }

    method MigrateOldPrefs()
      modifies localState
      ensures localState.promos == Migrated(old(localState.promos))
    {
      var promoList := GetList(localState.promos, OLD_LIST);
      if promoList.None? {
        return;
      }
      if promoList.value == [] || !promoList.value[0].Dictionary? {
        localState.promos := map[];
        return;
      }
      var ntpPromo := promoList.value[0].entries;
      var promoId := GetInteger(ntpPromo, ID, -1);
      if promoId == -1 {
        localState.promos := map[];
        return;
      }
      var firstViewTime := GetDouble(ntpPromo, FIRST_VIEW_TIME, 0.0);
      var views := GetInteger(ntpPromo, VIEWS, 0);
      var closed := GetBoolean(ntpPromo, CLOSED, false);
      localState.promos := map[];
      WritePrefs(promoId, firstViewTime, views, closed);
    }

    method InitFromPrefs()
      modifies this, localState
      ensures localState.promos == Migrated(old(localState.promos))
      ensures Fields() == Loaded(localState.promos, config.id, old(Fields()))
    {
      MigrateOldPrefs();
      if config.id == -1 {
        return;
      }
      var ntpPromo := GetDictionary(localState.promos, IntToString(config.id));
      if ntpPromo.None? {
        return;
      }
      firstViewTime := GetDouble(ntpPromo.value, FIRST_VIEW_TIME, firstViewTime);
      views := GetInteger(ntpPromo.value, VIEWS, views);
      closed := GetBoolean(ntpPromo.value, CLOSED, closed);
    }

    method CanShow(now: real) returns (show: bool)
      ensures show <==> Showable(config, Fields(), now)
      ensures show <==>
        && !closed && config.text != "" && config.start < now < config.end
        && (config.maxViews == 0 || views < config.maxViews)
        && (config.maxSeconds == 0 || firstViewTime == 0.0 || now <= firstViewTime + config.maxSeconds as real)
    {
      show := !closed && config.text != "" && !(config.maxViews != 0 && views >= config.maxViews)
        && !(config.maxSeconds != 0 && firstViewTime != 0.0 && firstViewTime + config.maxSeconds as real < now)
        && config.start < now && config.end > now;
    }

    /** The fields stay as they are: a handler takes effect with the next object. */
    method HandleClosed()
      modifies localState
      ensures localState.promos == Handled(config, Fields(), old(localState.promos), Close)
    {
      if !closed {
        WritePrefs(config.id, firstViewTime, views, true);
      }
    }

    method HandleViewed(now: real)
      modifies localState
      ensures localState.promos == Written(old(localState.promos), config.id, Effect(Fields(), View(now)))
    {
      var newViews := views + 1;
      var newFirstViewTime := firstViewTime;
      if newFirstViewTime == 0.0 {
        newFirstViewTime := now;
      }
      WritePrefs(config.id, newFirstViewTime, newViews, closed);
    }
  }

  // ---------- Sessions ----------

  /** A handler call. The promo is viewed only if it can be shown at that time. */
  datatype Action = View(now: real) | Close

  predicate Effective(c: Config, fields: Record, a: Action) {
    match a
    case View(now) => Showable(c, fields, now)
    case Close => !fields.closed
  }

  function Effect(fields: Record, a: Action): Record {
    match a
    case View(now) =>
      Record(if fields.firstViewTime == 0.0 then now else fields.firstViewTime, fields.views + 1, fields.closed)
    case Close => fields.(closed := true)
  }

  function Handled(c: Config, fields: Record, prefs: Dict, a: Action): Dict {
    if Effective(c, fields, a) then Written(prefs, c.id, Effect(fields, a)) else prefs
  }

  /** The actions of one object, whose fields never change after it has been initialised. */
  function AllHandled(c: Config, fields: Record, prefs: Dict, actions: seq<Action>): Dict {
    if actions == [] then prefs
    else Handled(c, fields, AllHandled(c, fields, prefs, actions[..|actions| - 1]), actions[|actions| - 1])
  }

  datatype Session = Session(config: Config, actions: seq<Action>)

  /** A session: a fresh object, InitFromPrefs, and then the actions. */
  function After(prefs: Dict, s: Session): Dict {
    AllHandled(s.config, Entry(prefs, s.config.id), Migrated(prefs), s.actions)
  }

  function Run(prefs: Dict, sessions: seq<Session>): Dict {
    if sessions == [] then prefs
    else After(Run(prefs, sessions[..|sessions| - 1]), sessions[|sessions| - 1])
  }

  /** The record a session leaves: of its effective actions only the last counts. */
  function Outcome(c: Config, fields: Record, actions: seq<Action>): Record {
    if actions == [] then fields
    else if Effective(c, fields, actions[|actions| - 1]) then Effect(fields, actions[|actions| - 1])
    else Outcome(c, fields, actions[..|actions| - 1])
  }

  /** The position of the last action that has an effect, or -1. */
  function LastEffective(c: Config, fields: Record, actions: seq<Action>): (n: int)
    ensures -1 <= n < |actions|
    ensures n >= 0 ==> Effective(c, fields, actions[n])
    ensures forall i :: n < i < |actions| ==> !Effective(c, fields, actions[i])
  {
    if actions == [] then -1
    else if Effective(c, fields, actions[|actions| - 1]) then |actions| - 1
    else LastEffective(c, fields, actions[..|actions| - 1])
  }

  lemma {:induction false} AllHandledWritesOutcome(c: Config, fields: Record, prefs: Dict, actions: seq<Action>)
    ensures AllHandled(c, fields, prefs, actions) ==
      if LastEffective(c, fields, actions) == -1 then prefs
      else Written(prefs, c.id, Outcome(c, fields, actions))
    ensures LastEffective(c, fields, actions) == -1 ==> Outcome(c, fields, actions) == fields
  {
    if actions != [] {
      AllHandledWritesOutcome(c, fields, prefs, actions[..|actions| - 1]);
    }
  }

  /** A session changes the record of its own promo only, and that to its outcome. */
  lemma SessionChangesItsRecord(prefs: Dict, s: Session, id: int)
    requires id != -1
    ensures Entry(After(prefs, s), id) ==
      if s.config.id == id then Outcome(s.config, Entry(prefs, id), s.actions) else Entry(prefs, id)
  {
    var fields := Entry(prefs, s.config.id);
    var d := Migrated(prefs);
    MigrationIsIdempotent(prefs);
    AllHandledWritesOutcome(s.config, fields, d, s.actions);
    WriteIsLocal(d, s.config.id, Outcome(s.config, fields, s.actions), id, NEW_RECORD);
    ReadsBack(d, s.config.id, Outcome(s.config, fields, s.actions), NEW_RECORD);
  }

  /** The session leaves a record with one more view. */
  predicate RecordsView(prefs: Dict, s: Session, id: int) {
    s.config.id == id && Outcome(s.config, Entry(prefs, id), s.actions).views != Entry(prefs, id).views
  }

  function RecordedViews(prefs: Dict, sessions: seq<Session>, id: int): nat {
    if sessions == [] then 0
    else
      var before := sessions[..|sessions| - 1];
      RecordedViews(prefs, before, id) + if RecordsView(Run(prefs, before), sessions[|sessions| - 1], id) then 1 else 0
  }

  lemma {:induction false} OutcomeOf(c: Config, r: Record, actions: seq<Action>)
    ensures var o := Outcome(c, r, actions);
      && (o.views == r.views || (o.views == r.views + 1 && !r.closed && !ExceedsMaxViews(c, r)))
      && (r.firstViewTime != 0.0 ==> o.firstViewTime == r.firstViewTime)
      && (r.closed ==> o == r)
  {
    if actions != [] {
      OutcomeOf(c, r, actions[..|actions| - 1]);
    }
  }

  /**
   However sessions of this and other promos are mixed, the record counts the sessions that
   have recorded a view, and their number never goes over the cap.
   */
  lemma {:induction false} RecordedViewsAreCapped(prefs: Dict, sessions: seq<Session>, id: int, cap: int)
    requires id != -1
    requires forall i :: 0 <= i < |sessions| && sessions[i].config.id == id ==> 0 < sessions[i].config.maxViews <= cap
    ensures Entry(Run(prefs, sessions), id).views == Entry(prefs, id).views + RecordedViews(prefs, sessions, id)
    ensures RecordedViews(prefs, sessions, id) > 0 ==> Entry(prefs, id).views + RecordedViews(prefs, sessions, id) <= cap
  {
    if sessions != [] {
      var before, s := sessions[..|sessions| - 1], sessions[|sessions| - 1];
      RecordedViewsAreCapped(prefs, before, id, cap);
      SessionChangesItsRecord(Run(prefs, before), s, id);
      OutcomeOf(s.config, Entry(Run(prefs, before), id), s.actions);
    }
  }

  // ---------- When a promo is shown ----------

  /**
   In any run a call of HandleViewed is made exactly if the promo is open, has a text, is
   between its start and end, has fewer recorded views than its cap, if there is one, and is
   not past its time after the first view, if it had one when the session began.
   */
  lemma ViewCallIff(prefs: Dict, sessions: seq<Session>, i: nat, j: nat)
    requires i < |sessions| && j < |sessions[i].actions| && sessions[i].actions[j].View?
    ensures var c, now := sessions[i].config, sessions[i].actions[j].now;
      var r := Entry(Run(prefs, sessions[..i]), c.id);
      IsViewCall(c, r, sessions[i].actions[j]) <==>
        && !r.closed && c.text != "" && c.start < now < c.end
        && (c.maxViews != 0 ==> r.views < c.maxViews)
        && (c.maxSeconds != 0 && r.firstViewTime != 0.0 ==> now <= r.firstViewTime + c.maxSeconds as real)
  {
  }

  // ---------- Calls of HandleViewed ----------

  /** How often the promo is viewed in a session. */
  function ViewCalls(c: Config, fields: Record, actions: seq<Action>): nat {
    if actions == [] then 0
    else
      var a := actions[|actions| - 1];
      ViewCalls(c, fields, actions[..|actions| - 1]) + if a.View? && Effective(c, fields, a) then 1 else 0
  }

  /** How often the promo is viewed in a run. */
  function AllViewCalls(prefs: Dict, sessions: seq<Session>, id: int): nat {
    if sessions == [] then 0
    else
      var before, s := sessions[..|sessions| - 1], sessions[|sessions| - 1];
      AllViewCalls(prefs, before, id)
      + if s.config.id == id then ViewCalls(s.config, Entry(Run(prefs, before), id), s.actions) else 0
  }

  predicate IsViewCall(c: Config, fields: Record, a: Action) {
    a.View? && Effective(c, fields, a)
  }

  /** Nothing has an effect after a view; so it is if there is one handler call a session. */
  ghost predicate ViewEndsSession(c: Config, fields: Record, actions: seq<Action>) {
    forall i, j :: 0 <= i < j < |actions| && IsViewCall(c, fields, actions[i]) ==> !Effective(c, fields, actions[j])
  }

  lemma {:induction false} NoViewCalls(c: Config, r: Record, actions: seq<Action>)
    ensures ViewCalls(c, r, actions) == 0 <==> forall i :: 0 <= i < |actions| ==> !IsViewCall(c, r, actions[i])
  {
    if actions != [] {
      NoViewCalls(c, r, actions[..|actions| - 1]);
    }
  }

  /** A session records at most one view, and all its views exactly if a view ends it. */
  lemma {:induction false} RecordsAllViewsIffViewEndsSession(c: Config, r: Record, actions: seq<Action>)
    ensures var recorded := if Outcome(c, r, actions).views != r.views then 1 else 0;
      && recorded <= ViewCalls(c, r, actions)
      && (recorded == ViewCalls(c, r, actions) <==> ViewEndsSession(c, r, actions))
  {
    if actions != [] {
      var before, a := actions[..|actions| - 1], actions[|actions| - 1];
      RecordsAllViewsIffViewEndsSession(c, r, before);
      NoViewCalls(c, r, before);
      OneMoreAction(c, r, actions);
    }
  }

  lemma OneMoreAction(c: Config, r: Record, actions: seq<Action>)
    requires actions != []
    ensures var before, a := actions[..|actions| - 1], actions[|actions| - 1];
      ViewEndsSession(c, r, actions) <==>
        && ViewEndsSession(c, r, before)
        && (Effective(c, r, a) ==> forall i :: 0 <= i < |before| ==> !IsViewCall(c, r, before[i]))
  {
    var before := actions[..|actions| - 1];
    assert forall i :: 0 <= i < |before| ==> before[i] == actions[i];
  }

  /** Over a run the record counts the views exactly if each session of the promo ends with its view. */
  lemma {:induction false} RecordCountsViewsIff(prefs: Dict, sessions: seq<Session>, id: int)
    ensures RecordedViews(prefs, sessions, id) <= AllViewCalls(prefs, sessions, id)
    ensures RecordedViews(prefs, sessions, id) == AllViewCalls(prefs, sessions, id)
      <==> AllEndWithView(prefs, sessions, id)
  {
    if sessions != [] {
      var before, s := sessions[..|sessions| - 1], sessions[|sessions| - 1];
      RecordCountsViewsIff(prefs, before, id);
      RecordsAllViewsIffViewEndsSession(s.config, Entry(Run(prefs, before), id), s.actions);
      OneMoreSession(prefs, sessions, id);
    }
  }

  lemma OneMoreSession(prefs: Dict, sessions: seq<Session>, id: int)
    requires sessions != []
    ensures AllEndWithView(prefs, sessions, id) <==>
      AllEndWithView(prefs, sessions[..|sessions| - 1], id) && EndsWithView(prefs, sessions, |sessions| - 1, id)
  {
    if AllEndWithView(prefs, sessions, id) {
      EarlierSessionsEnd(prefs, sessions, id);
    } else if AllEndWithView(prefs, sessions[..|sessions| - 1], id) {
      LastSessionDoesNot(prefs, sessions, id);
    }
  }

  lemma EarlierSessionsEnd(prefs: Dict, sessions: seq<Session>, id: int)
    requires sessions != [] && AllEndWithView(prefs, sessions, id)
    ensures AllEndWithView(prefs, sessions[..|sessions| - 1], id)
  {
    var before := sessions[..|sessions| - 1];
    forall i | 0 <= i < |before| ensures EndsWithView(prefs, before, i, id) {
      EarlierSession(prefs, sessions, i, id);
    }
  }

  lemma LastSessionDoesNot(prefs: Dict, sessions: seq<Session>, id: int)
    requires sessions != [] && !AllEndWithView(prefs, sessions, id)
    requires AllEndWithView(prefs, sessions[..|sessions| - 1], id)
    ensures !EndsWithView(prefs, sessions, |sessions| - 1, id)
  {
    var i :| 0 <= i < |sessions| && !EndsWithView(prefs, sessions, i, id);
    if i < |sessions| - 1 {
      EarlierSession(prefs, sessions, i, id);
    }
  }

  lemma EarlierSession(prefs: Dict, sessions: seq<Session>, i: nat, id: int)
    requires i < |sessions| - 1
    ensures EndsWithView(prefs, sessions[..|sessions| - 1], i, id) <==> EndsWithView(prefs, sessions, i, id)
  {
    assert sessions[..|sessions| - 1][..i] == sessions[..i];
  }

  ghost predicate AllEndWithView(prefs: Dict, sessions: seq<Session>, id: int) {
    forall i :: 0 <= i < |sessions| ==> EndsWithView(prefs, sessions, i, id)
  }

  ghost predicate EndsWithView(prefs: Dict, sessions: seq<Session>, i: nat, id: int)
    requires i < |sessions|
  {
    sessions[i].config.id == id ==>
      ViewEndsSession(sessions[i].config, Entry(Run(prefs, sessions[..i]), id), sessions[i].actions)
  }

  /**
   With views gated by CanShow and at most one handler call a session, or none with an
   effect after a view, HandleViewed is called no more often than the cap says.
   */
  lemma ViewsAreCapped(prefs: Dict, sessions: seq<Session>, id: int, cap: int)
    requires id != -1
    requires forall i :: 0 <= i < |sessions| && sessions[i].config.id == id ==>
      0 < sessions[i].config.maxViews <= cap && (|sessions[i].actions| <= 1 || EndsWithView(prefs, sessions, i, id))
    ensures AllViewCalls(prefs, sessions, id) > 0 ==> Entry(prefs, id).views + AllViewCalls(prefs, sessions, id) <= cap
  {
    RecordCountsViewsIff(prefs, sessions, id);
    RecordedViewsAreCapped(prefs, sessions, id, cap);
  }

  predicate ViewedOverCap(s: Session) {
    && s.config.id != -1 && 0 < s.config.maxViews
    && AllViewCalls(map[], [s], s.config.id) > s.config.maxViews
    && RecordedViews(map[], [s], s.config.id) == 1
  }

  /** Without that it is not so: one object allows any number of views, and records one. */
  lemma TwoViewsInOneSession()
    ensures exists s: Session :: ViewedOverCap(s)
  {
    var c := Config(0, "promo", 1.0, 3.0, 1, 0);
    var s := Session(c, [View(2.0), View(2.0)]);
    FirstSession(s);
    assert ViewedOverCap(s);
  }

  predicate ViewedUnrecorded(s: Session) {
    && s.config.id != -1
    && AllViewCalls(map[], [s], s.config.id) == 1 && RecordedViews(map[], [s], s.config.id) == 0
  }

  /** And a view followed by a close is not recorded at all. */
  lemma ViewThenCloseIsNotRecorded()
    ensures exists s: Session :: ViewedUnrecorded(s)
  {
    var c := Config(0, "promo", 1.0, 3.0, 1, 0);
    var s := Session(c, [View(2.0), Close]);
    FirstSession(s);
    assert ViewedUnrecorded(s);
  }

  lemma FirstSession(s: Session)
    requires s.config.id == 0 && |s.actions| == 2
    ensures var c, a := s.config, s.actions;
      && AllViewCalls(map[], [s], 0) ==
         (if IsViewCall(c, NEW_RECORD, a[0]) then 1 else 0) + (if IsViewCall(c, NEW_RECORD, a[1]) then 1 else 0)
      && RecordedViews(map[], [s], 0) == if Outcome(c, NEW_RECORD, a).views != 0 then 1 else 0
  {
    var c, a := s.config, s.actions;
    assert [s][..0] == [] && Entry(Run(map[], []), 0) == NEW_RECORD;
    assert a[..1][..0] == [] && a[..1][0] == a[0];
    assert ViewCalls(c, NEW_RECORD, a[..1]) == if IsViewCall(c, NEW_RECORD, a[0]) then 1 else 0;
  }

  /** The time of the first view is kept for good. */
  lemma {:induction false} FirstViewTimeNeverChanges(prefs: Dict, sessions: seq<Session>, id: int)
    requires id != -1 && Entry(prefs, id).firstViewTime != 0.0
    ensures Entry(Run(prefs, sessions), id).firstViewTime == Entry(prefs, id).firstViewTime
  {
    if sessions != [] {
      var before, s := sessions[..|sessions| - 1], sessions[|sessions| - 1];
      FirstViewTimeNeverChanges(prefs, before, id);
      SessionChangesItsRecord(Run(prefs, before), s, id);
      OutcomeOf(s.config, Entry(Run(prefs, before), id), s.actions);
    }
  }

  /**
   Within a session a time once stored is kept by the next action that has an effect exactly
   if the object started with one of its own, or views the promo at that very time again.
   */
  lemma NextActionKeepsTimeIff(c: Config, r: Record, actions: seq<Action>, a: Action)
    requires Effective(c, r, a) && Outcome(c, r, actions).firstViewTime != 0.0
    ensures Outcome(c, r, actions + [a]).firstViewTime == Outcome(c, r, actions).firstViewTime
      <==> r.firstViewTime != 0.0 || (a.View? && a.now == Outcome(c, r, actions).firstViewTime)
  {
    OutcomeOf(c, r, actions);
    assert (actions + [a])[..|actions|] == actions;
  }

  /** A second view by the object that made the first one overwrites its time. */
  lemma SecondViewOverwritesTime()
    ensures exists s: Session :: OverwritesTime(s)
  {
    var c := Config(0, "promo", 1.0, 3.0, 9, 0);
    var s := Session(c, [View(2.0), View(2.5)]);
    assert s.actions[..1] == [View(2.0)] && [View(2.0)][..0] == [];
    assert Outcome(c, NEW_RECORD, s.actions[..1]) == Record(2.0, 1, false);
    assert Outcome(c, NEW_RECORD, s.actions) == Record(2.5, 1, false);
    SessionChangesItsRecord(map[], s, 0);
    SessionChangesItsRecord(map[], Session(c, s.actions[..1]), 0);
    assert Entry(map[], 0) == NEW_RECORD;
    assert OverwritesTime(s);
  }

  predicate OverwritesTime(s: Session) {
    && s.config.id != -1 && |s.actions| == 2
    && var first := Entry(After(map[], Session(s.config, s.actions[..1])), s.config.id).firstViewTime;
    && first != 0.0 && Entry(After(map[], s), s.config.id).firstViewTime != first
  }

  /** A promo closed once stays closed, and no later session can show it, whatever its server says. */
  lemma {:induction false} ClosedForGood(prefs: Dict, sessions: seq<Session>, id: int)
    requires id != -1 && Entry(prefs, id).closed
    ensures Entry(Run(prefs, sessions), id) == Entry(prefs, id)
    ensures forall c: Config, now :: !Showable(c, Entry(Run(prefs, sessions), id), now)
  {
    if sessions != [] {
      var before, s := sessions[..|sessions| - 1], sessions[|sessions| - 1];
      ClosedForGood(prefs, before, id);
      SessionChangesItsRecord(Run(prefs, before), s, id);
      OutcomeOf(s.config, Entry(Run(prefs, before), id), s.actions);
    }
  }

  /**
   Exactly when a session closes an open promo: the last of its effective actions is a
   close. A view after it opens the promo again; with one action a session that cannot be.
   */
  lemma ClosesIffLastActionDoes(prefs: Dict, s: Session)
    requires s.config.id != -1 && !Entry(prefs, s.config.id).closed
    ensures var n := LastEffective(s.config, Entry(prefs, s.config.id), s.actions);
      Entry(After(prefs, s), s.config.id).closed <==> n >= 0 && s.actions[n].Close?
    ensures |s.actions| == 1 ==> (Entry(After(prefs, s), s.config.id).closed <==> s.actions[0].Close?)
  {
    SessionChangesItsRecord(prefs, s, s.config.id);
    OutcomeByLastEffective(s.config, Entry(prefs, s.config.id), s.actions);
  }

  /**
   A session counts as one view exactly when the last of its effective actions is a view:
   with one action a session, when HandleViewed is called.
   */
  lemma ViewsIffLastActionDoes(prefs: Dict, s: Session)
    ensures var n := LastEffective(s.config, Entry(prefs, s.config.id), s.actions);
      RecordsView(prefs, s, s.config.id) <==> n >= 0 && s.actions[n].View?
    ensures |s.actions| == 1 ==>
      (RecordsView(prefs, s, s.config.id) <==>
        s.actions[0].View? && Showable(s.config, Entry(prefs, s.config.id), s.actions[0].now))
  {
    OutcomeByLastEffective(s.config, Entry(prefs, s.config.id), s.actions);
  }

  lemma {:induction false} OutcomeByLastEffective(c: Config, r: Record, actions: seq<Action>)
    ensures var n := LastEffective(c, r, actions);
      Outcome(c, r, actions) == if n >= 0 then Effect(r, actions[n]) else r
  {
    if actions != [] {
      OutcomeByLastEffective(c, r, actions[..|actions| - 1]);
    }
  }

  predicate ReopenedBy(s: Session, now: real) {
    && s.config.id != -1 && s.actions == [Close, View(now)]
    && Showable(s.config, Entry(After(map[], s), s.config.id), now)
  }

  /** Closing and then viewing in one session leaves the promo open, as if never closed. */
  lemma CloseThenViewReopens()
    ensures exists s: Session, now: real :: ReopenedBy(s, now)
  {
    var c := Config(0, "promo", 1.0, 3.0, 9, 0);
    var s := Session(c, [Close, View(2.0)]);
    ClosesIffLastActionDoes(map[], s);
    SessionChangesItsRecord(map[], s, 0);
    assert Outcome(c, NEW_RECORD, s.actions) == Record(2.0, 1, false);
    assert Entry(map[], 0) == NEW_RECORD;
    assert ReopenedBy(s, 2.0);
  }

  /** The cap does not bind a promo without an id: its record is written but never read. */
  lemma {:induction false} NoIdNoCap(prefs: Dict, c: Config, now: real, sessions: seq<Session>)
    requires c.id == -1 && Showable(c, NEW_RECORD, now)
    requires forall i :: 0 <= i < |sessions| ==> sessions[i] == Session(c, [View(now)])
    ensures RecordedViews(prefs, sessions, -1) == |sessions|
  {
    if sessions != [] {
      NoIdNoCap(prefs, c, now, sessions[..|sessions| - 1]);
      assert Effective(c, NEW_RECORD, View(now));
    }
  }
}
