/**
 The std::multimap<int, int> operations used by the memoizing store.

 A multimap is the sequence of its pairs in iteration order: sorted by key, pairs of
 one key in insertion order. An iterator is an index into that sequence.
 */
module IdMultimap {

  datatype Pair = Pair(key: int, value: int)

  ghost predicate Sorted(m: seq<Pair>) {
    forall i, j :: 0 <= i < j < |m| ==> m[i].key <= m[j].key
  }

  ghost predicate Distinct(m: seq<Pair>) {
    forall i, j :: 0 <= i < j < |m| ==> m[i] != m[j]
  }

  ghost predicate WellFormed(m: seq<Pair>) {
    Sorted(m) && Distinct(m)
  }

  /** The relation a multimap denotes. */
  ghost function Entries(m: seq<Pair>): set<Pair> {
    set p | p in m
  }

  /** `equal_range`: the iterators [first, last) that enclose the pairs of the key. */
  method EqualRange(m: seq<Pair>, key: int) returns (first: nat, last: nat)
    requires Sorted(m)
    ensures IsEqualRange(m, key, first, last)
  {
    first := 0;
    while first < |m| && m[first].key < key
      invariant first <= |m|
      invariant forall i :: 0 <= i < first ==> m[i].key < key
    {
      first := first + 1;
    }
    last := first;
    while last < |m| && m[last].key <= key
      invariant first <= last <= |m|
      invariant forall i :: first <= i < last ==> m[i].key == key
    {
      last := last + 1;
    }
  }

  ghost predicate IsEqualRange(m: seq<Pair>, key: int, first: nat, last: nat) {
    && first <= last <= |m|
    && (forall i :: 0 <= i < first ==> m[i].key < key)
    && (forall i :: first <= i < last ==> m[i].key == key)
    && (forall i :: last <= i < |m| ==> key < m[i].key)
  }

  /** `std::find_if` with `MatchSecond(value)` over the equal range of a key. */
  method FindSecond(m: seq<Pair>, first: nat, last: nat, value: int, ghost key: int) returns (n: nat)
    requires IsEqualRange(m, key, first, last)
    ensures first <= n <= last
    ensures n < last <==> Pair(key, value) in m
    ensures n < last ==> m[n] == Pair(key, value)
  {
    n := first;
    while n < last && m[n].value != value
      invariant first <= n <= last
      invariant forall i :: first <= i < n ==> m[i].value != value
    {
      n := n + 1;
    }
  }

  /** `UpdateMap`: adds key -> value unless that very pair is present. */
  method UpdateMap(m: seq<Pair>, key: int, value: int) returns (r: seq<Pair>)
    requires WellFormed(m)
    ensures WellFormed(r)
    ensures Entries(r) == Entries(m) + {Pair(key, value)}
  {
    var first, last := EqualRange(m, key);
    var n := FindSecond(m, first, last, value, key);
    if n == last {
      InsertAt(m, last, Pair(key, value));
      r := m[..last] + [Pair(key, value)] + m[last..];
    } else {
      r := m;
    }
  }

  lemma InsertAt(m: seq<Pair>, n: nat, p: Pair)
    requires WellFormed(m) && n <= |m| && p !in m
    requires forall i :: 0 <= i < n ==> m[i].key <= p.key
    requires forall i :: n <= i < |m| ==> p.key <= m[i].key
    ensures WellFormed(m[..n] + [p] + m[n..])
    ensures Entries(m[..n] + [p] + m[n..]) == Entries(m) + {p}
  {
    var r := m[..n] + [p] + m[n..];
    assert forall i :: 0 <= i < |r| ==> r[i] == if i < n then m[i] else if i == n then p else m[i - 1];
    assert Sorted(r) && Distinct(r);
    InsertEntries(m, n, p);
  }

  lemma InsertEntries(m: seq<Pair>, n: nat, p: Pair)
    requires n <= |m|
    ensures Entries(m[..n] + [p] + m[n..]) == Entries(m) + {p}
  {
    var r := m[..n] + [p] + m[n..];
    assert m == m[..n] + m[n..];
    assert forall q :: q in r <==> q in m[..n] || q == p || q in m[n..];
  }

  /** `erase(first, last)`. */
  method EraseRange(m: seq<Pair>, first: nat, last: nat) returns (r: seq<Pair>)
    requires WellFormed(m) && first <= last <= |m|
    ensures WellFormed(r)
    ensures Entries(r) == Entries(m) - Entries(m[first..last])
  {
    r := m[..first] + m[last..];
    EraseEntries(m, first, last);
  }

  lemma EraseEntries(m: seq<Pair>, first: nat, last: nat)
    requires Distinct(m) && first <= last <= |m|
    ensures Entries(m[..first] + m[last..]) == Entries(m) - Entries(m[first..last])
  {
    var r := m[..first] + m[last..];
    forall q ensures q in r <==> q in m && q !in m[first..last] {
      if q in m {
        var i :| 0 <= i < |m| && m[i] == q;
        if i < first { assert r[i] == q; }
        else if i < last { assert m[first..last][i - first] == q; }
        else { assert r[i - (last - first)] == q; }
      }
    }
  }

  /**
   The test made while a tracker is removed: the pair found is both the first and the
   last of its equal range exactly when no other pair has its key.
   */
  lemma AdjacencyMeansSole(m: seq<Pair>, n: nat, first: nat, last: nat)
    requires WellFormed(m) && n < |m| && IsEqualRange(m, m[n].key, first, last)
    ensures first == n && n + 1 == last
      <==> forall p :: p in Entries(m) && p.key == m[n].key ==> p == m[n]
  {
    if first == n && n + 1 == last {
      forall p | p in Entries(m) && p.key == m[n].key ensures p == m[n] {
        var i :| 0 <= i < |m| && m[i] == p;
      }
    } else {
      OtherPair(m, n, if first < n then first else n + 1);
    }
  }

  lemma OtherPair(m: seq<Pair>, n: nat, i: nat)
    requires Distinct(m) && n < |m| && i < |m| && i != n && m[i].key == m[n].key
    ensures exists p :: p in Entries(m) && p.key == m[n].key && p != m[n]
  {
    assert m[i] in Entries(m);
  }
}
