/** net/cookies/cookie_cache.cc: the cache, and what its reports add up to. */
module CookieCaching {
  import opened CookieSets

  datatype CookieKey = CookieKey(url: string, name: string)

  type Cache = map<CookieKey, seq<Cookie>>

  function Get(cache: Cache, key: CookieKey): seq<Cookie> {
    if key in cache then cache[key] else []
  }

  ghost predicate AllSets(cache: Cache) {
    forall key :: key in cache ==> IsSet(cache[key])
  }

  // ---------- One update ----------

  /** The removals and additions reported for the change from one set to the other are exact. */
  lemma DeltasAreExact(oldSet: seq<Cookie>, newSet: seq<Cookie>)
    ensures var removed, added := Tuples(Minus(oldSet, newSet)), Tuples(Minus(newSet, oldSet));
      && removed <= Tuples(oldSet) && added <= Tuples(newSet) && removed !! added
      && Tuples(newSet) == (Tuples(oldSet) - removed) + added
    ensures Minus(oldSet, newSet) == [] && Minus(newSet, oldSet) == [] <==> Tuples(oldSet) == Tuples(newSet)
  {
    MinusMembers(oldSet, newSet);
    MinusMembers(newSet, oldSet);
    SetDelta(Tuples(oldSet), Tuples(newSet));
    EmptyByTuples(Minus(oldSet, newSet));
    EmptyByTuples(Minus(newSet, oldSet));
  }

  lemma SetDelta(was: set<Tuple>, now: set<Tuple>)
    ensures now == (was - (was - now)) + (now - was)
    ensures was - now == {} && now - was == {} <==> was == now
  {
    if was - now == {} && now - was == {} {
      assert forall t :: t in was ==> t in now || t in was - now;
      assert forall t :: t in now ==> t in was || t in now - was;
    }
  }

  lemma EmptyByTuples(s: seq<Cookie>)
    ensures s == [] <==> Tuples(s) == {}
  {
    if s != [] {
      assert TupleOf(s[0]) in Tuples(s);
    }
  }

  /** An output parameter: a vector that `Update` appends to. */
  class CookieVector {
    var cookies: seq<Cookie>

    constructor ()
      ensures cookies == []
    {
      cookies := [];
    }
  }

  class CookieCache {
    var cache: Cache

    ghost predicate Valid()
      reads this
    {
      AllSets(cache)
    }

    constructor ()
      ensures Valid() && cache == map[]
    {
      cache := map[];
    }

    /**
     Overwrites the set cached for the key, and reports what went and what came. The set is
     left as it is if no 4-tuple differs; looking the key up inserts an empty set for it.
     */
    method Update(url: string, name: string, newCookies: seq<Cookie>,
                  outRemoved: CookieVector?, outAdded: CookieVector?) returns (changed: bool)
      requires Valid()
      modifies this, outRemoved, outAdded
      ensures Valid()
      ensures changed <==> Tuples(Get(old(cache), CookieKey(url, name))) != Tuples(SetOf(newCookies))
      ensures !changed ==> Get(cache, CookieKey(url, name)) == Get(old(cache), CookieKey(url, name))
      ensures changed ==> Get(cache, CookieKey(url, name)) == SetOf(newCookies)
      ensures forall other :: other != CookieKey(url, name) ==>
        (other in cache <==> other in old(cache)) && Get(cache, other) == Get(old(cache), other)
      ensures cache == Updated(old(cache), Call(CookieKey(url, name), newCookies))
      ensures var was, now := Get(old(cache), CookieKey(url, name)), SetOf(newCookies);
        var removed, added := Minus(was, now), Minus(now, was);
        && (outRemoved != null && outRemoved != outAdded ==>
            outRemoved.cookies == old(outRemoved.cookies) + removed)
        && (outAdded != null && outRemoved != outAdded ==> outAdded.cookies == old(outAdded.cookies) + added)
        && (outAdded != null && outRemoved == outAdded ==>
            outAdded.cookies == old(outAdded.cookies) + removed + added)
    {
      var removed, added;
      changed, removed, added := Overwrite(CookieKey(url, name), newCookies);
      if changed {
        Report(outRemoved, outAdded, removed, added);
      }
    }

    /** The part that has to do with the vectors. */
    method Report(outRemoved: CookieVector?, outAdded: CookieVector?, removed: seq<Cookie>, added: seq<Cookie>)
      modifies outRemoved, outAdded
      ensures outRemoved != null && outRemoved != outAdded ==>
        outRemoved.cookies == old(outRemoved.cookies) + removed
      ensures outAdded != null && outRemoved != outAdded ==> outAdded.cookies == old(outAdded.cookies) + added
      ensures outAdded != null && outRemoved == outAdded ==>
        outAdded.cookies == old(outAdded.cookies) + removed + added
    {
      if outRemoved != null {
        outRemoved.cookies := outRemoved.cookies + removed;
      }
      if outAdded != null {
        outAdded.cookies := outAdded.cookies + added;
      }
    }

    /** The part of `Update` that has to do with the cache. */
    method Overwrite(key: CookieKey, newCookies: seq<Cookie>)
        returns (changed: bool, removed: seq<Cookie>, added: seq<Cookie>)
      requires Valid()
      modifies this
      ensures Valid()
      ensures changed <==> Tuples(Get(old(cache), key)) != Tuples(SetOf(newCookies))
      ensures cache == old(cache)[key := if changed then SetOf(newCookies) else Get(old(cache), key)]
      ensures removed == Minus(Get(old(cache), key), SetOf(newCookies))
      ensures added == Minus(SetOf(newCookies), Get(old(cache), key))
      ensures !changed ==> removed == [] && added == []
    {
      if key !in cache {
        cache := cache[key := []];
      }
      var oldSet := cache[key];
      SetOfKeepsFirst(newCookies);
      var newSet := SetOf(newCookies);
      added := SetDifference(newSet, oldSet);
      removed := SetDifference(oldSet, newSet);
      DeltasAreExact(oldSet, newSet);
      changed := added != [] || removed != [];
      if changed {
        cache := cache[key := newSet];
      }
    }
  }

  // ---------- Runs ----------

  datatype Call = Call(key: CookieKey, cookies: seq<Cookie>)

  /** The cache after a call. */
  ghost function Updated(cache: Cache, call: Call): Cache {
    var was, now := Get(cache, call.key), SetOf(call.cookies);
    cache[call.key := if Tuples(was) == Tuples(now) then was else now]
  }

  ghost function Run(calls: seq<Call>): Cache {
    if calls == [] then map[] else Updated(Run(calls[..|calls| - 1]), calls[|calls| - 1])
  }

  /** What an observer of one key's reports holds after a run: removals taken out, additions put in. */
  ghost function Replay(calls: seq<Call>, key: CookieKey): set<Tuple> {
    if calls == [] then {}
    else
      var before, call := calls[..|calls| - 1], calls[|calls| - 1];
      var seen := Replay(before, key);
      if call.key != key then seen
      else
        var was, now := Get(Run(before), key), SetOf(call.cookies);
        (seen - Tuples(Minus(was, now))) + Tuples(Minus(now, was))
  }

  /** The cookies of the last call for a key. */
  function LastCookies(calls: seq<Call>, key: CookieKey): seq<Cookie> {
    if calls == [] then []
    else if calls[|calls| - 1].key == key then calls[|calls| - 1].cookies
    else LastCookies(calls[..|calls| - 1], key)
  }

  /**
   The reports of any run tell all there is to know: replayed for one key they yield its
   cached set, which is that of its last cookies. Calls for other keys do not interfere.
   */
  lemma {:induction false} ReplayYieldsLastCookies(calls: seq<Call>, key: CookieKey)
    ensures Replay(calls, key) == Tuples(Get(Run(calls), key))
    ensures Replay(calls, key) == Tuples(SetOf(LastCookies(calls, key)))
  {
    if calls != [] {
      var before, call := calls[..|calls| - 1], calls[|calls| - 1];
      ReplayYieldsLastCookies(before, key);
      if call.key == key {
        DeltasAreExact(Get(Run(before), key), SetOf(call.cookies));
      }
    }
  }

  /** The 4-tuples of the call differ from those of the call for its key before it. */
  ghost predicate Changes(calls: seq<Call>, i: nat, key: CookieKey)
    requires i < |calls|
  {
    calls[i].key == key && Tuples(SetOf(LastCookies(calls[..i], key))) != Tuples(SetOf(calls[i].cookies))
  }

  ghost predicate IsLastChange(calls: seq<Call>, i: nat, key: CookieKey) {
    i < |calls| && Changes(calls, i, key) && forall j :: i < j < |calls| ==> !Changes(calls, j, key)
  }

  /**
   The cookies cached for a key, attributes and all, are those of the last call for it that
   reported a change; calls that report none leave them as they are.
   */
  ghost predicate NoneChanges(calls: seq<Call>, key: CookieKey) {
    forall i :: 0 <= i < |calls| ==> !Changes(calls, i, key)
  }

  ghost predicate CachedByLast(calls: seq<Call>, key: CookieKey) {
    && (forall i: nat :: IsLastChange(calls, i, key) ==> Get(Run(calls), key) == SetOf(calls[i].cookies))
    && (NoneChanges(calls, key) ==> Get(Run(calls), key) == [])
  }

  lemma {:induction false} CachedByLastChange(calls: seq<Call>, key: CookieKey)
    ensures CachedByLast(calls, key)
  {
    if calls != [] {
      CachedByLastChange(calls[..|calls| - 1], key);
      if Changes(calls, |calls| - 1, key) {
        LastCallChanges(calls, key);
      } else {
        LastCallDoesNot(calls, key);
      }
    }
  }

  lemma ChangesIffReported(calls: seq<Call>, key: CookieKey)
    requires calls != []
    ensures var before, call := calls[..|calls| - 1], calls[|calls| - 1];
      && (Changes(calls, |calls| - 1, key) <==>
          call.key == key && Tuples(Get(Run(before), key)) != Tuples(SetOf(call.cookies)))
      && Get(Run(calls), key) == if Changes(calls, |calls| - 1, key) then SetOf(call.cookies) else Get(Run(before), key)
  {
    ReplayYieldsLastCookies(calls[..|calls| - 1], key);
  }

  lemma LastCallChanges(calls: seq<Call>, key: CookieKey)
    requires calls != [] && Changes(calls, |calls| - 1, key)
    ensures CachedByLast(calls, key)
  {
    ChangesIffReported(calls, key);
    forall i: nat | IsLastChange(calls, i, key) ensures i == |calls| - 1 {
    }
  }

  lemma EarlierChanges(calls: seq<Call>, i: nat, key: CookieKey)
    requires i < |calls| - 1
    ensures Changes(calls[..|calls| - 1], i, key) <==> Changes(calls, i, key)
  {
    assert calls[..|calls| - 1][..i] == calls[..i];
  }

  lemma EarlierLastChange(calls: seq<Call>, i: nat, key: CookieKey)
    requires calls != [] && !Changes(calls, |calls| - 1, key) && IsLastChange(calls, i, key)
    ensures IsLastChange(calls[..|calls| - 1], i, key)
  {
    var before := calls[..|calls| - 1];
    assert i < |before|;
    forall j | i <= j < |before| ensures Changes(before, j, key) <==> Changes(calls, j, key) {
      EarlierChanges(calls, j, key);
    }
  }

  lemma NoneEarlier(calls: seq<Call>, key: CookieKey)
    requires calls != [] && NoneChanges(calls, key)
    ensures NoneChanges(calls[..|calls| - 1], key)
  {
    var before := calls[..|calls| - 1];
    forall i | 0 <= i < |before| ensures !Changes(before, i, key) {
      EarlierChanges(calls, i, key);
    }
  }

  lemma LastCallDoesNot(calls: seq<Call>, key: CookieKey)
    requires calls != [] && !Changes(calls, |calls| - 1, key) && CachedByLast(calls[..|calls| - 1], key)
    ensures CachedByLast(calls, key)
  {
    ChangesIffReported(calls, key);
    forall i: nat | IsLastChange(calls, i, key) ensures Get(Run(calls), key) == SetOf(calls[i].cookies) {
      EarlierLastChange(calls, i, key);
    }
    if NoneChanges(calls, key) {
      NoneEarlier(calls, key);
    }
  }

  lemma {:induction false} RunKeepsSets(calls: seq<Call>)
    ensures AllSets(Run(calls))
  {
    if calls != [] {
      RunKeepsSets(calls[..|calls| - 1]);
      SetOfKeepsFirst(calls[|calls| - 1].cookies);
    }
  }
}
