/** web/navigation/time_smoother.cc: times, in microseconds, told apart where they would coincide. */
module TimeSmoothing {

  datatype Marks = Marks(low: int, high: int) {
    predicate Contains(t: int) {
      low <= t <= high
    }

    /** A time between the marks is replaced by the one after the high mark. */
    function Smoothed(t: int): int {
      if Contains(t) then high + 1 else t
    }

    function Next(t: int): Marks {
      Marks(if Contains(t) then low else t, Smoothed(t))
    }
  }

  class TimeSmoother {
    var lowWaterMark: int
    var highWaterMark: int

    function Current(): Marks
      reads this
    {
      Marks(lowWaterMark, highWaterMark)
    }

    /** Null times. */
    constructor ()
      ensures Current() == After([])
    {
      lowWaterMark, highWaterMark := 0, 0;
    }

    method GetSmoothedTime(t: int) returns (smoothed: int)
      modifies this
      ensures smoothed == old(Current()).Smoothed(t)
      ensures Current() == old(Current()).Next(t)
    {
      if lowWaterMark <= t && t <= highWaterMark {
        highWaterMark := highWaterMark + 1;
        return highWaterMark;
      }
      lowWaterMark, highWaterMark := t, t;
      return t;
    }
  }

  // ---------- Call sequences ----------

  function After(times: seq<int>): Marks {
    if times == [] then Marks(0, 0) else After(times[..|times| - 1]).Next(times[|times| - 1])
  }

  function Output(times: seq<int>, i: nat): int
    requires i < |times|
  {
    After(times[..i]).Smoothed(times[i])
  }

  /** Call `i` moves the water marks to its time. */
  predicate Resets(times: seq<int>, i: nat)
    requires i < |times|
  {
    !After(times[..i]).Contains(times[i])
  }

  lemma Step(times: seq<int>, i: nat)
    requires i < |times|
    ensures After(times[..i + 1]) == After(times[..i]).Next(times[i])
    ensures After(times[..i + 1]).high == Output(times, i)
  {
    assert times[..i + 1][..i] == times[..i];
  }

  /** A call on a smoother that has been given `times` is one more of the sequence. */
  lemma CallExtendsSequence(times: seq<int>, t: int)
    ensures After(times + [t]) == After(times).Next(t)
    ensures Output(times + [t], |times|) == After(times).Smoothed(t)
  {
    assert (times + [t])[..|times|] == times;
  }

  /** The last reset up to call `i`, if there was any. */
  predicate IsLastReset(times: seq<int>, r: nat, i: nat)
    requires i < |times|
  {
    r <= i && Resets(times, r) && forall k :: r < k <= i ==> !Resets(times, k)
  }

  /** Without resets in between, outputs are consecutive microseconds. */
  lemma {:induction false} OutputsAreConsecutive(times: seq<int>, i: nat, j: nat)
    requires i <= j < |times| && forall k :: i < k <= j ==> !Resets(times, k)
    ensures Output(times, j) == Output(times, i) + (j - i)
    ensures After(times[..j + 1]).low == After(times[..i + 1]).low
  {
    Step(times, j);
    if i < j {
      OutputsAreConsecutive(times, i, j - 1);
      Step(times, j - 1);
      assert !Resets(times, j);
    }
  }

  /** An output exceeds its input by at most the number of adjusted calls since the last reset. */
  lemma ExcessIsBounded(times: seq<int>, r: nat, i: nat)
    requires i < |times| && IsLastReset(times, r, i)
    ensures times[r] <= times[i] <= Output(times, i) <= times[i] + (i - r)
    ensures Output(times, i) == times[r] + (i - r)
  {
    OutputsAreConsecutive(times, r, i);
    Step(times, r);
    Step(times, i);
  }

  /** Before the first reset the same holds of the marks' initial values. */
  lemma ExcessBeforeReset(times: seq<int>, i: nat)
    requires i < |times| && forall k :: 0 <= k <= i ==> !Resets(times, k)
    ensures 0 <= times[i] <= Output(times, i) == i + 1
  {
    assert times[..0] == [] && !Resets(times, 0) && !Resets(times, i);
    OutputsAreConsecutive(times, 0, i);
    Step(times, 0);
    Step(times, i);
  }

  /** Outputs are never before their inputs. */
  lemma NeverEarlier(times: seq<int>, i: nat)
    requires i < |times|
    ensures times[i] <= Output(times, i)
  {
  }

  lemma {:induction false} LowMarkIsLowest(times: seq<int>)
    ensures After(times).low <= After(times).high
  {
    if times != [] {
      LowMarkIsLowest(times[..|times| - 1]);
    }
  }

  ghost predicate Nondecreasing(times: seq<int>) {
    forall i, j :: 0 <= i < j < |times| ==> times[i] <= times[j]
  }

  ghost predicate OutputsIncrease(times: seq<int>) {
    forall i, j :: 0 <= i < j < |times| ==> Output(times, i) < Output(times, j)
  }

  /** An output exceeds all the ones before exactly if its input is not before the low mark. */
  lemma NextOutputIncreases(times: seq<int>, i: nat)
    requires i + 1 < |times|
    ensures Output(times, i) < Output(times, i + 1) <==> After(times[..i + 1]).low <= times[i + 1]
    ensures Output(times, i + 1) < Output(times, i) <==> times[i + 1] < After(times[..i + 1]).low
  {
    Step(times, i);
    LowMarkIsLowest(times[..i + 1]);
  }

  /** All outputs are strictly increasing exactly if no time given is before the low mark. */
  lemma OutputsIncreaseIff(times: seq<int>)
    ensures OutputsIncrease(times)
      <==> forall i :: 0 < i < |times| ==> After(times[..i]).low <= times[i]
  {
    if forall i :: 0 < i < |times| ==> After(times[..i]).low <= times[i] {
      forall i, j | 0 <= i < j < |times| ensures Output(times, i) < Output(times, j) {
        Ascend(times, i, j);
      }
    } else {
      var j :| 0 < j < |times| && times[j] < After(times[..j]).low;
      NextOutputIncreases(times, j - 1);
    }
  }

  lemma {:induction false} Ascend(times: seq<int>, i: nat, j: nat)
    requires i < j < |times| && forall k :: 0 < k < |times| ==> After(times[..k]).low <= times[k]
    ensures Output(times, i) < Output(times, j)
  {
    NextOutputIncreases(times, j - 1);
    if i < j - 1 {
      Ascend(times, i, j - 1);
    }
  }

  lemma {:induction false} LowMarkIsAnInput(times: seq<int>, i: nat)
    requires i < |times| && Nondecreasing(times)
    ensures After(times[..i + 1]).low <= times[i]
  {
    Step(times, i);
    if i > 0 {
      LowMarkIsAnInput(times, i - 1);
    }
  }

  /** Times that do not decrease come out strictly increasing. */
  lemma NondecreasingTimesIncrease(times: seq<int>)
    requires Nondecreasing(times)
    ensures OutputsIncrease(times)
  {
    forall i | 0 < i < |times| ensures After(times[..i]).low <= times[i] {
      LowMarkIsAnInput(times, i - 1);
    }
    OutputsIncreaseIff(times);
  }

  /** And no later than needed for that. */
  lemma {:induction false} OutputsAreEarliest(times: seq<int>, others: seq<int>, i: nat)
    requires Nondecreasing(times) && i < |times| == |others| && (times[0] == 0 ==> others[0] > 0)
    requires forall k :: 0 <= k < |others| ==> times[k] <= others[k]
    requires forall j, k :: 0 <= j < k < |others| ==> others[j] < others[k]
    ensures Output(times, i) <= others[i]
  {
    if i == 0 {
      assert times[..0] == [];
    } else {
      OutputsAreEarliest(times, others, i - 1);
      Step(times, i - 1);
    }
  }

  /** The outputs are themselves such a sequence, and so the least one. */
  lemma OutputsAreLeast(times: seq<int>)
    requires Nondecreasing(times)
    ensures OutputsIncrease(times) && forall i :: 0 <= i < |times| ==> times[i] <= Output(times, i)
    ensures forall others: seq<int> :: IsSpreadOf(others, times) ==>
      forall i :: 0 <= i < |times| ==> Output(times, i) <= others[i]
  {
    NondecreasingTimesIncrease(times);
    forall i | 0 <= i < |times| ensures times[i] <= Output(times, i) {
      NeverEarlier(times, i);
    }
    forall others: seq<int>, i | IsSpreadOf(others, times) && 0 <= i < |times| ensures Output(times, i) <= others[i] {
      OutputsAreEarliest(times, others, i);
    }
  }

  /** Strictly increasing times not before the given ones, and not null at first. */
  ghost predicate IsSpreadOf(others: seq<int>, times: seq<int>) {
    && |others| == |times| && (times != [] && times[0] == 0 ==> others[0] > 0)
    && (forall k :: 0 <= k < |others| ==> times[k] <= others[k])
    && (forall j, k :: 0 <= j < k < |others| ==> others[j] < others[k])
  }
}
