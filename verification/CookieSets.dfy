/**
 net/cookies/cookie_cache.cc: the two orders on cookies, sets sorted by the coarse one and
 their difference under the fine one.
 */
module CookieSets {

  /** `attributes` stands for whatever neither comparator looks at. */
  datatype Cookie = Cookie(domain: string, path: string, name: string, value: string, attributes: int)

  datatype Key = Key(domain: string, path: string, name: string)
  datatype Tuple = Tuple(key: Key, value: string)

  function KeyOf(c: Cookie): Key {
    Key(c.domain, c.path, c.name)
  }

  function TupleOf(c: Cookie): Tuple {
    Tuple(KeyOf(c), c.value)
  }

  ghost function Tuples(s: seq<Cookie>): set<Tuple> {
    set c | c in s :: TupleOf(c)
  }

  // ---------- The comparators ----------

  /** `operator<` of std::string. */
  predicate StringLess(a: string, b: string) {
    if b == [] then false
    else if a == [] then true
    else if a[0] != b[0] then a[0] < b[0]
    else StringLess(a[1..], b[1..])
  }

  /** CookieComparator. */
  predicate Coarse(l: Cookie, r: Cookie) {
    if l.domain != r.domain then StringLess(l.domain, r.domain)
    else if l.path != r.path then StringLess(l.path, r.path)
    else if l.name != r.name then StringLess(l.name, r.name)
    else false
  }

  /** CookieAndValueComparator. */
  predicate Fine(l: Cookie, r: Cookie) {
    if l.domain != r.domain then StringLess(l.domain, r.domain)
    else if l.path != r.path then StringLess(l.path, r.path)
    else if l.name != r.name then StringLess(l.name, r.name)
    else if l.value != r.value then StringLess(l.value, r.value)
    else false
  }

  lemma {:induction false} StringLessIsTotal(a: string, b: string)
    ensures !(StringLess(a, b) && StringLess(b, a)) && !StringLess(a, a)
    ensures a != b ==> StringLess(a, b) || StringLess(b, a)
  {
    if a != [] && b != [] {
      assert a == [a[0]] + a[1..] && b == [b[0]] + b[1..];
      StringLessIsTotal(a[1..], b[1..]);
      StringLessIsTotal(a[1..], a[1..]);
    } else if a != [] {
      StringLessIsTotal(a[1..], a[1..]);
    }
  }

  lemma {:induction false} StringLessIsTransitive(a: string, b: string, c: string)
    requires StringLess(a, b) && StringLess(b, c)
    ensures StringLess(a, c) && a != c
  {
    StringLessIsTotal(a, b);
    if a != [] && a[0] == b[0] == c[0] {
      StringLessIsTransitive(a[1..], b[1..], c[1..]);
    }
  }

  /** The first place where the strings differ decides, by the smaller character or the end of `a`. */
  predicate DiffersAt(a: string, b: string, n: nat) {
    n <= |a| && n < |b| && a[..n] == b[..n] && (n < |a| ==> a[n] < b[n])
  }

  lemma {:induction false} StringLessIffDiffers(a: string, b: string)
    ensures StringLess(a, b) <==> exists n: nat :: DiffersAt(a, b, n)
  {
    if a == [] || b == [] {
      if b != [] {
        assert DiffersAt(a, b, 0);
      }
    } else if a[0] != b[0] {
      if a[0] < b[0] {
        assert DiffersAt(a, b, 0);
      }
      forall n: nat | DiffersAt(a, b, n) ensures n == 0 {
        HeadsDecide(a, b, n);
      }
    } else {
      StringLessIffDiffers(a[1..], b[1..]);
      if n: nat :| DiffersAt(a[1..], b[1..], n) {
        DiffersLater(a, b, n);
      }
      if n: nat :| DiffersAt(a, b, n) {
        DiffersLater(a, b, n - 1);
      }
    }
  }

  lemma HeadsDecide(a: string, b: string, n: nat)
    requires a != [] && b != [] && a[0] != b[0]
    ensures DiffersAt(a, b, n) ==> n == 0
  {
    if 0 < n <= |a| && n < |b| {
      assert a[..n][0] == a[0] && b[..n][0] == b[0];
    }
  }

  lemma DiffersLater(a: string, b: string, n: nat)
    requires a != [] && b != [] && a[0] == b[0]
    ensures DiffersAt(a, b, n + 1) <==> DiffersAt(a[1..], b[1..], n)
  {
    if n < |a| && n + 1 < |b| {
      assert a[..n + 1] == [a[0]] + a[1..][..n] && b[..n + 1] == [b[0]] + b[1..][..n];
      assert a[1..][..n] == a[..n + 1][1..] && b[1..][..n] == b[..n + 1][1..];
    }
  }

  /** The domain comes before the path, and the path before the name. */
  lemma CoarseIsLexicographic(l: Cookie, r: Cookie)
    ensures Coarse(l, r) <==>
      || StringLess(l.domain, r.domain)
      || (l.domain == r.domain && StringLess(l.path, r.path))
      || (l.domain == r.domain && l.path == r.path && StringLess(l.name, r.name))
  {
    StringLessIsTotal(l.domain, r.domain);
    StringLessIsTotal(l.path, r.path);
    StringLessIsTotal(l.name, r.name);
    StringLessIsTotal(l.domain, l.domain);
    StringLessIsTotal(l.path, l.path);
    StringLessIsTotal(l.name, l.name);
  }

  /** Cookies are equivalent under the coarse order when their keys are equal. */
  lemma CoarseIsTotal(a: Cookie, b: Cookie)
    ensures !(Coarse(a, b) && Coarse(b, a))
    ensures !Coarse(a, b) && !Coarse(b, a) <==> KeyOf(a) == KeyOf(b)
  {
    StringLessIsTotal(a.domain, b.domain);
    StringLessIsTotal(a.path, b.path);
    StringLessIsTotal(a.name, b.name);
  }

  /** Cookies are equivalent under the fine order when their 4-tuples are equal. */
  lemma FineIsTotal(a: Cookie, b: Cookie)
    ensures !(Fine(a, b) && Fine(b, a))
    ensures !Fine(a, b) && !Fine(b, a) <==> TupleOf(a) == TupleOf(b)
  {
    StringLessIsTotal(a.domain, b.domain);
    StringLessIsTotal(a.path, b.path);
    StringLessIsTotal(a.name, b.name);
    StringLessIsTotal(a.value, b.value);
  }

  lemma CoarseIsTransitive(a: Cookie, b: Cookie, c: Cookie)
    requires Coarse(a, b) && Coarse(b, c)
    ensures Coarse(a, c)
  {
    if StringLess(a.domain, b.domain) && StringLess(b.domain, c.domain) {
      StringLessIsTransitive(a.domain, b.domain, c.domain);
    } else if StringLess(a.path, b.path) && StringLess(b.path, c.path) {
      StringLessIsTransitive(a.path, b.path, c.path);
    }
    if StringLess(a.name, b.name) && StringLess(b.name, c.name) {
      StringLessIsTransitive(a.name, b.name, c.name);
    }
  }

  /** The fine order refines the coarse one, by value among cookies of one key. */
  lemma FineRefinesCoarse(a: Cookie, b: Cookie)
    ensures Fine(a, b) <==> Coarse(a, b) || (KeyOf(a) == KeyOf(b) && StringLess(a.value, b.value))
  {
    StringLessIsTotal(a.value, b.value);
    StringLessIsTotal(a.value, a.value);
  }

  lemma FineIsTransitive(a: Cookie, b: Cookie, c: Cookie)
    requires Fine(a, b) && Fine(b, c)
    ensures Fine(a, c)
  {
    FineRefinesCoarse(a, b);
    FineRefinesCoarse(b, c);
    FineRefinesCoarse(a, c);
    if Coarse(a, b) && Coarse(b, c) {
      CoarseIsTransitive(a, b, c);
    } else if !Coarse(a, b) && !Coarse(b, c) {
      StringLessIsTransitive(a.value, b.value, c.value);
    }
  }

  // ---------- std::set under the coarse order ----------

  /** The elements of a set in iteration order. */
  ghost predicate IsSet(s: seq<Cookie>) {
    forall i, j :: 0 <= i < j < |s| ==> Coarse(s[i], s[j])
  }

  ghost predicate SortedFinely(s: seq<Cookie>) {
    forall i, j :: 0 <= i < j < |s| ==> Fine(s[i], s[j])
  }

  lemma SetIsSortedFinely(s: seq<Cookie>)
    requires IsSet(s)
    ensures SortedFinely(s)
  {
    forall i, j | 0 <= i < j < |s| ensures Fine(s[i], s[j]) {
      FineRefinesCoarse(s[i], s[j]);
    }
  }

  ghost predicate HasKey(s: seq<Cookie>, k: Key) {
    exists i :: 0 <= i < |s| && KeyOf(s[i]) == k
  }

  /** `insert`: does nothing if the set has an element of the same key. */
  function Inserted(s: seq<Cookie>, c: Cookie): seq<Cookie> {
    if s == [] || Coarse(c, s[0]) then [c] + s
    else if Coarse(s[0], c) then [s[0]] + Inserted(s[1..], c)
    else s
  }

  lemma {:induction false} InsertedIsSet(s: seq<Cookie>, c: Cookie)
    requires IsSet(s)
    ensures IsSet(Inserted(s, c))
    ensures forall x :: x in Inserted(s, c) <==> x in s || (x == c && !HasKey(s, KeyOf(c)))
  {
    if s == [] {
    } else {
      var rest := s[1..];
      assert s == [s[0]] + rest;
      CoarseIsTotal(c, s[0]);
      if Coarse(c, s[0]) {
        forall i | 0 <= i < |s| ensures Coarse(c, s[i]) && KeyOf(s[i]) != KeyOf(c) {
          if i > 0 { CoarseIsTransitive(c, s[0], s[i]); }
          CoarseIsTotal(c, s[i]);
        }
      } else if Coarse(s[0], c) {
        InsertedIsSet(rest, c);
        HasKeyRest(s, KeyOf(c));
        var r := Inserted(rest, c);
        forall i | 0 <= i < |r| ensures Coarse(s[0], r[i]) {
          assert r[i] in r;
        }
      } else {
        assert HasKey(s, KeyOf(c));
      }
    }
  }

  lemma HasKeyRest(s: seq<Cookie>, k: Key)
    requires s != [] && KeyOf(s[0]) != k
    ensures HasKey(s, k) <==> HasKey(s[1..], k)
  {
    if HasKey(s, k) {
      var i :| 0 <= i < |s| && KeyOf(s[i]) == k;
      assert s[1..][i - 1] == s[i];
    }
  }

  /** An element above all others goes to the end. */
  lemma {:induction false} InsertedLast(s: seq<Cookie>, c: Cookie)
    requires forall i :: 0 <= i < |s| ==> Coarse(s[i], c)
    ensures Inserted(s, c) == s + [c]
  {
    if s != [] {
      CoarseIsTotal(s[0], c);
      InsertedLast(s[1..], c);
    }
  }

  /** The set constructed from a range of cookies. */
  function SetOf(cookies: seq<Cookie>): seq<Cookie> {
    if cookies == [] then []
    else Inserted(SetOf(cookies[..|cookies| - 1]), cookies[|cookies| - 1])
  }

  /** `x` is the first cookie of its key. */
  ghost predicate IsFirst(cookies: seq<Cookie>, x: Cookie) {
    exists i :: 0 <= i < |cookies| && FirstAt(cookies, i) && cookies[i] == x
  }

  ghost predicate FirstAt(cookies: seq<Cookie>, i: nat)
    requires i < |cookies|
  {
    forall j :: 0 <= j < i ==> KeyOf(cookies[j]) != KeyOf(cookies[i])
  }

  /** Of the cookies with one key, the set keeps the first. */
  lemma {:induction false} SetOfKeepsFirst(cookies: seq<Cookie>)
    ensures IsSet(SetOf(cookies))
    ensures forall x :: x in SetOf(cookies) <==> IsFirst(cookies, x)
    ensures forall k :: HasKey(SetOf(cookies), k) <==> HasKey(cookies, k)
  {
    if cookies != [] {
      var before, c := cookies[..|cookies| - 1], cookies[|cookies| - 1];
      SetOfKeepsFirst(before);
      InsertedIsSet(SetOf(before), c);
      assert cookies == before + [c];
      forall x ensures IsFirst(cookies, x) <==> IsFirst(before, x) || (x == c && !HasKey(before, KeyOf(c))) {
        FirstStep(before, c, x);
      }
      forall k ensures HasKey(SetOf(cookies), k) <==> HasKey(cookies, k) {
        HasKeyMember(SetOf(cookies), k);
        HasKeyMember(SetOf(before), k);
        HasKeyMember(before, k);
        HasKeyMember(cookies, k);
      }
    }
  }

  lemma HasKeyMember(s: seq<Cookie>, k: Key)
    ensures HasKey(s, k) <==> exists x :: x in s && KeyOf(x) == k
  {
    if x :| x in s && KeyOf(x) == k {
      var i :| 0 <= i < |s| && s[i] == x;
    }
  }

  lemma FirstStep(before: seq<Cookie>, c: Cookie, x: Cookie)
    ensures IsFirst(before + [c], x) <==> IsFirst(before, x) || (x == c && !HasKey(before, KeyOf(c)))
  {
    var all := before + [c];
    assert all[|before|] == c;
    assert forall i :: 0 <= i < |before| ==> all[i] == before[i];
    forall i | 0 <= i < |before| ensures FirstAt(all, i) <==> FirstAt(before, i) {
      if FirstAt(all, i) {
        assert forall j :: 0 <= j < i ==> before[j] == all[j];
      }
    }
    if HasKey(before, KeyOf(c)) {
      var i :| 0 <= i < |before| && KeyOf(before[i]) == KeyOf(c);
      assert KeyOf(all[i]) == KeyOf(all[|before|]);
    }
  }

  // ---------- std::set_difference under the fine order ----------

  /** The cookies of `a` whose 4-tuple is not in `b`, in the order of `a`. */
  ghost function Minus(a: seq<Cookie>, b: seq<Cookie>): seq<Cookie> {
    if a == [] then []
    else
      var c := a[|a| - 1];
      Minus(a[..|a| - 1], b) + if TupleOf(c) in Tuples(b) then [] else [c]
  }

  lemma {:induction false} MinusMembers(a: seq<Cookie>, b: seq<Cookie>)
    ensures forall x :: x in Minus(a, b) <==> x in a && TupleOf(x) !in Tuples(b)
    ensures Tuples(Minus(a, b)) == Tuples(a) - Tuples(b)
  {
    if a != [] {
      MinusMembers(a[..|a| - 1], b);
      assert a == a[..|a| - 1] + [a[|a| - 1]];
    }
  }

  /**
   The merge of `std::set_difference`, whose output iterator inserts into a set that is
   ordered coarsely. Nothing is lost on the way, whatever the difference of the orders.
   */
  method SetDifference(a: seq<Cookie>, b: seq<Cookie>) returns (r: seq<Cookie>)
    requires IsSet(a) && IsSet(b)
    ensures r == Minus(a, b) && IsSet(r)
  {
    r := [];
    var i, j := 0, 0;
    while i < |a|
      invariant 0 <= i <= |a| && 0 <= j <= |b|
      invariant r == Minus(a[..i], b) && IsSet(r)
      invariant Passed(a, i, b, j)
      decreases |a| - i + |b| - j
    {
      if j == |b| || Fine(a[i], b[j]) {
        MergeTakes(a, i, b, j, r);
        r := Inserted(r, a[i]);
        i := i + 1;
      } else {
        if !Fine(b[j], a[i]) {
          MergeSkips(a, i, b, j);
          i := i + 1;
        }
        j := j + 1;
      }
    }
    assert a[..i] == a;
  }

  /** All of b[..j] is below what is left of `a`. */
  ghost predicate Passed(a: seq<Cookie>, i: nat, b: seq<Cookie>, j: nat) {
    i < |a| && j <= |b| ==> forall q :: 0 <= q < j ==> Fine(b[q], a[i])
  }

  lemma MergeTakes(a: seq<Cookie>, i: nat, b: seq<Cookie>, j: nat, r: seq<Cookie>)
    requires IsSet(a) && IsSet(b) && i < |a| && j <= |b| && Passed(a, i, b, j)
    requires j == |b| || Fine(a[i], b[j])
    requires r == Minus(a[..i], b) && IsSet(r)
    ensures Inserted(r, a[i]) == Minus(a[..i + 1], b) && IsSet(Inserted(r, a[i]))
    ensures Passed(a, i + 1, b, j)
  {
    SetIsSortedFinely(a);
    SetIsSortedFinely(b);
    NotIn(a[i], b, j);
    assert a[..i + 1] == a[..i] + [a[i]];
    MinusMembers(a[..i], b);
    GoesLast(a, i, r);
    AdvanceFirst(a, i, b, j);
  }

  /** What is in both is passed over in both. */
  lemma MergeSkips(a: seq<Cookie>, i: nat, b: seq<Cookie>, j: nat)
    requires IsSet(a) && IsSet(b) && i < |a| && j < |b| && Passed(a, i, b, j)
    requires !Fine(a[i], b[j]) && !Fine(b[j], a[i])
    ensures Minus(a[..i + 1], b) == Minus(a[..i], b)
    ensures Passed(a, i + 1, b, j + 1)
  {
    FineIsTotal(a[i], b[j]);
    MinusSkips(a, i, b, j);
    SetIsSortedFinely(a);
    AdvanceFirst(a, i, b, j);
    if i + 1 < |a| {
      SameTupleSameOrder(a[i], b[j], a[i + 1]);
    }
  }

  lemma MinusSkips(a: seq<Cookie>, i: nat, b: seq<Cookie>, j: nat)
    requires i < |a| && j < |b| && TupleOf(a[i]) == TupleOf(b[j])
    ensures Minus(a[..i + 1], b) == Minus(a[..i], b)
  {
    assert b[j] in b;
    assert a[..i + 1] == a[..i] + [a[i]];
  }

  lemma SameTupleSameOrder(x: Cookie, y: Cookie, z: Cookie)
    requires TupleOf(x) == TupleOf(y)
    ensures Fine(x, z) <==> Fine(y, z)
  {
  }

  /** A cookie between b[..j] and b[j..] is not in `b`. */
  lemma NotIn(c: Cookie, b: seq<Cookie>, j: nat)
    requires SortedFinely(b) && j <= |b|
    requires forall q :: 0 <= q < j ==> Fine(b[q], c)
    requires j == |b| || Fine(c, b[j])
    ensures TupleOf(c) !in Tuples(b)
  {
    forall q | 0 <= q < |b| ensures TupleOf(b[q]) != TupleOf(c) {
      if q > j {
        FineIsTransitive(c, b[j], b[q]);
      }
      FineIsTotal(b[q], c);
    }
  }

  /** What the merge puts out next is above all it has put out before. */
  lemma GoesLast(a: seq<Cookie>, i: nat, r: seq<Cookie>)
    requires IsSet(a) && i < |a| && IsSet(r) && forall x :: x in r ==> x in a[..i]
    ensures Inserted(r, a[i]) == r + [a[i]] && IsSet(r + [a[i]])
  {
    forall k | 0 <= k < |r| ensures Coarse(r[k], a[i]) {
      assert r[k] in a[..i];
    }
    InsertedLast(r, a[i]);
  }

  lemma AdvanceFirst(a: seq<Cookie>, i: nat, b: seq<Cookie>, j: nat)
    requires SortedFinely(a) && i < |a| && j <= |b| && Passed(a, i, b, j)
    ensures Passed(a, i + 1, b, j)
  {
    forall q | 0 <= q < j && i + 1 < |a| ensures Fine(b[q], a[i + 1]) {
      FineIsTransitive(b[q], a[i], a[i + 1]);
    }
  }
}
