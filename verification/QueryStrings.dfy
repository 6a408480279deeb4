/**
 Query strings as chrome/common/x_callback_url.cc writes and reads them through net::: keys
 and values percent-encoded as in section 2.1 of RFC 3986, with a space written as '+'.
 A character stands for a byte.
 */
module QueryStrings {

  datatype Param = Param(key: string, value: string)

  predicate IsBytes(s: string) {
    forall i :: 0 <= i < |s| ==> s[i] < 256 as char
  }

  predicate IsPrintable(s: string) {
    forall i :: 0 <= i < |s| ==> ' ' <= s[i] <= '~'
  }

  /** The unreserved characters of section 2.3 of RFC 3986. */
  predicate UnreservedChar(c: char) {
    'a' <= c <= 'z' || 'A' <= c <= 'Z' || '0' <= c <= '9' || c in {'-', '.', '_', '~'}
  }

  predicate IsUnreserved(s: string) {
    forall i :: 0 <= i < |s| ==> UnreservedChar(s[i])
  }

  // ---------- What is escaped ----------

  /** The characters that are not escaped, and those whose escapes are decoded when read. */
  datatype Characters = Characters(kept: set<char>, decoded: set<char>)

  /**
   No unreserved character is escaped, but every one with a meaning in a query and those of
   a URL that the unit test shows escaped; printable characters are decoded, others may be.
   */
  ghost predicate Sensible(t: Characters) {
    && (forall c :: UnreservedChar(c) ==> c in t.kept)
    && (forall c :: c in t.kept ==> c < 256 as char)
    && '%' !in t.kept && '+' !in t.kept && ' ' !in t.kept && '&' !in t.kept && '=' !in t.kept
    && ':' !in t.kept && '/' !in t.kept && '?' !in t.kept
    && (forall c :: ' ' <= c <= '~' ==> c in t.decoded)
    && (forall c :: c in t.decoded ==> c < 256 as char)
  }

  type Table = t: Characters | Sensible(t)
    witness Characters(set c: char | UnreservedChar(c), set c: char | ' ' <= c <= '~')

  /** The table of net::, of which nothing else is known here. */
  const TABLE: Table

  predicate IsKept(s: string) {
    forall i :: 0 <= i < |s| ==> s[i] in TABLE.kept
  }

  predicate ShownChar(c: char) {
    c in TABLE.kept || c == ' ' || c in TABLE.decoded
  }

  predicate IsShown(s: string) {
    forall i :: 0 <= i < |s| ==> ShownChar(s[i])
  }

  // ---------- Escaping ----------

  function HexDigit(n: nat): char
    requires n < 16
  {
    "0123456789ABCDEF"[n]
  }

  function HexValue(c: char): int {
    if '0' <= c <= '9' then (c - '0') as int
    else if 'A' <= c <= 'F' then (c - 'A') as int + 10
    else if 'a' <= c <= 'f' then (c - 'a') as int + 10
    else -1
  }

  function PercentEncoded(c: char): string {
    ['%', HexDigit(c as int / 16 % 16), HexDigit(c as int % 16)]
  }

  function EscapedChar(c: char): string {
    if c in TABLE.kept then [c] else if c == ' ' then "+" else PercentEncoded(c)
  }

  function Escape(s: string): string {
    if s == "" then "" else EscapedChar(s[0]) + Escape(s[1..])
  }

  /** The escapes of some characters are decoded, any other is left alone. */
  function Unescape(s: string): string {
    if s == "" then ""
    else if s[0] == '+' then " " + Unescape(s[1..])
    else if DecodesAt(s) then [(HexValue(s[1]) * 16 + HexValue(s[2])) as char] + Unescape(s[3..])
    else [s[0]] + Unescape(s[1..])
  }

  predicate DecodesAt(s: string) {
    && |s| >= 3 && s[0] == '%' && HexValue(s[1]) >= 0 && HexValue(s[2]) >= 0
    && (HexValue(s[1]) * 16 + HexValue(s[2])) as char in TABLE.decoded
  }

  /** What a value looks like after having been escaped and unescaped again. */
  function Displayed(s: string): string {
    if s == "" then ""
    else (if ShownChar(s[0]) then [s[0]] else PercentEncoded(s[0])) + Displayed(s[1..])
  }

  lemma HexRoundTrip(n: nat)
    requires n < 16
    ensures HexValue(HexDigit(n)) == n && HexDigit(n) != '+' && HexDigit(n) != '%' && HexDigit(n) != ' '
    ensures HexDigit(n) != '&' && HexDigit(n) != '='
  {
  }

  lemma UnescapePlain(c: char, rest: string)
    requires c != '+' && c != '%'
    ensures Unescape([c] + rest) == [c] + Unescape(rest)
  {
    assert ([c] + rest)[1..] == rest;
  }

  lemma UnescapePercent(c: char, rest: string)
    requires c < 256 as char
    ensures Unescape(PercentEncoded(c) + rest)
      == (if c in TABLE.decoded then [c] else PercentEncoded(c)) + Unescape(rest)
  {
    HexRoundTrip(c as int / 16 % 16);
    HexRoundTrip(c as int % 16);
    ByteOfDigits(c as int);
    UnescapeDigits(HexDigit(c as int / 16 % 16), HexDigit(c as int % 16), rest, c);
  }

  lemma UnescapeDigits(hi: char, lo: char, rest: string, c: char)
    requires HexValue(hi) >= 0 && HexValue(lo) >= 0 && HexValue(hi) * 16 + HexValue(lo) == c as int
    ensures Unescape(['%', hi, lo] + rest) == (if c in TABLE.decoded then [c] else ['%', hi, lo]) + Unescape(rest)
  {
    var s := ['%', hi, lo] + rest;
    assert s[0] == '%' && s[1] == hi && s[2] == lo && s[3..] == rest;
    if c !in TABLE.decoded {
      assert s[1..] == [hi] + ([lo] + rest);
      UnescapeTwo(hi, lo, rest);
      assert Unescape(s) == ['%'] + ([hi] + ([lo] + Unescape(rest)));
    }
  }

  lemma UnescapeTwo(c: char, d: char, rest: string)
    requires c != '+' && c != '%' && d != '+' && d != '%'
    ensures Unescape([c] + ([d] + rest)) == [c] + ([d] + Unescape(rest))
  {
    UnescapePlain(c, [d] + rest);
    UnescapePlain(d, rest);
  }

  lemma UnescapeChar(c: char, rest: string)
    requires c < 256 as char
    ensures Unescape(EscapedChar(c) + rest)
      == (if ShownChar(c) then [c] else PercentEncoded(c)) + Unescape(rest)
  {
    if c in TABLE.kept {
      UnescapePlain(c, rest);
    } else if c == ' ' {
      assert ("+" + rest)[1..] == rest;
    } else {
      UnescapePercent(c, rest);
    }
  }

  lemma {:induction false} UnescapeEscape(s: string)
    requires IsBytes(s)
    ensures Unescape(Escape(s)) == Displayed(s)
  {
    if s != "" {
      UnescapeChar(s[0], Escape(s[1..]));
      UnescapeEscape(s[1..]);
    }
  }

  lemma {:induction false} DisplayedLength(s: string)
    ensures |Displayed(s)| >= |s|
    ensures |Displayed(s)| == |s| <==> IsShown(s)
    ensures IsShown(s) ==> Displayed(s) == s
  {
    if s != "" {
      DisplayedLength(s[1..]);
      assert s == [s[0]] + s[1..];
      if IsShown(s) {
        forall i | 0 <= i < |s[1..]| ensures ShownChar(s[1..][i]) {
          assert s[1..][i] == s[i + 1];
        }
      }
    }
  }

  /** A value survives exactly if all of it is decoded, if it is escaped at all. */
  lemma ValueRoundTrip(s: string)
    requires IsBytes(s)
    ensures Unescape(Escape(s)) == s <==> IsShown(s)
  {
    UnescapeEscape(s);
    DisplayedLength(s);
  }

  /** A key, which is not unescaped when read, survives exactly if none of it is escaped. */
  lemma {:induction false} KeyRoundTrip(s: string)
    ensures |Escape(s)| >= |s|
    ensures Escape(s) == s <==> IsKept(s)
  {
    if s != "" {
      var rest := s[1..];
      KeyRoundTrip(rest);
      assert s == [s[0]] + rest;
      if IsKept(s) {
        forall i | 0 <= i < |rest| ensures rest[i] in TABLE.kept {
          assert rest[i] == s[i + 1];
        }
      } else if s[0] in TABLE.kept {
        assert Escape(s)[0] == s[0] && Escape(s)[1..] == Escape(rest);
      } else {
        assert Escape(s)[0] == EscapedChar(s[0])[0];
      }
    }
  }

  /** An escaped key is longer unless only spaces had to be escaped, and has no spaces. */
  lemma {:induction false} KeyGrows(s: string)
    ensures |Escape(s)| >= |s| && ' ' !in Escape(s)
    ensures !IsKept(s) && ' ' !in s ==> |Escape(s)| > |s|
  {
    if s != "" {
      var rest := s[1..];
      KeyGrows(rest);
      HexRoundTrip(s[0] as int / 16 % 16);
      HexRoundTrip(s[0] as int % 16);
      assert s == [s[0]] + rest;
      if s[0] in TABLE.kept && !IsKept(s) {
        assert !IsKept(rest);
      }
    }
  }

  lemma PercentDetermined(a: char, b: char, x: string, y: string)
    requires a < 256 as char && b < 256 as char
    requires PercentEncoded(a) + x == PercentEncoded(b) + y
    ensures a == b && x == y
  {
    var s, t := PercentEncoded(a) + x, PercentEncoded(b) + y;
    assert s[1] == HexDigit(a as int / 16 % 16) && s[2] == HexDigit(a as int % 16) && s[3..] == x;
    assert t[1] == HexDigit(b as int / 16 % 16) && t[2] == HexDigit(b as int % 16) && t[3..] == y;
    HexRoundTrip(a as int / 16 % 16);
    HexRoundTrip(a as int % 16);
    HexRoundTrip(b as int / 16 % 16);
    HexRoundTrip(b as int % 16);
    ByteOfDigits(a as int);
    ByteOfDigits(b as int);
  }

  lemma ByteOfDigits(n: nat)
    requires n < 256
    ensures n == (n / 16 % 16) * 16 + n % 16
  {
  }

  lemma CharDetermined(a: char, b: char, x: string, y: string)
    requires a < 256 as char && b < 256 as char
    requires EscapedChar(a) + x == EscapedChar(b) + y
    ensures a == b && x == y
  {
    var s, t := EscapedChar(a) + x, EscapedChar(b) + y;
    assert s[0] == EscapedChar(a)[0] && t[0] == EscapedChar(b)[0];
    if s[0] == '%' {
      PercentDetermined(a, b, x, y);
    } else {
      assert s[1..] == x && t[1..] == y;
    }
  }

  /** No two keys are escaped to the same. */
  lemma {:induction false} EscapeInjective(s: string, t: string)
    requires IsBytes(s) && IsBytes(t) && Escape(s) == Escape(t)
    ensures s == t
  {
    if s != "" && t != "" {
      CharDetermined(s[0], t[0], Escape(s[1..]), Escape(t[1..]));
      EscapeInjective(s[1..], t[1..]);
      assert s == [s[0]] + s[1..] && t == [t[0]] + t[1..];
    }
  }

  lemma {:induction false} EscapeConcat(s: string, t: string)
    ensures Escape(s + t) == Escape(s) + Escape(t)
  {
    if s == "" {
      assert s + t == t;
    } else {
      assert (s + t)[0] == s[0] && (s + t)[1..] == s[1..] + t;
      EscapeConcat(s[1..], t);
    }
  }

  lemma EscapeOne(c: char)
    ensures Escape([c]) == EscapedChar(c)
  {
    assert [c][1..] == "";
  }

  /** As the unit test shows them: a '+' for a space, and capital hexadecimal digits. */
  lemma PercentSigns()
    ensures EscapedChar(':') == "%3A" && EscapedChar('/') == "%2F" && EscapedChar('?') == "%3F"
    ensures EscapedChar('=') == "%3D" && EscapedChar('%') == "%25" && EscapedChar(' ') == "+"
  {
  }

  lemma UnreservedStays(s: string)
    requires IsUnreserved(s)
    ensures Escape(s) == s
  {
    assert IsKept(s);
    KeyRoundTrip(s);
  }

  /** Between words, a character is replaced and the words are not. */
  lemma EscapeBetweenWords(a: string, c: char, b: string)
    requires IsUnreserved(a) && IsUnreserved(b)
    ensures Escape(a + ([c] + b)) == a + (EscapedChar(c) + b)
  {
    EscapeConcat(a, [c] + b);
    EscapeConcat([c], b);
    EscapeOne(c);
    UnreservedStays(a);
    UnreservedStays(b);
  }

  /** Small hexadecimal digits are read as well. */
  lemma HexValueIgnoresCase(c: char)
    requires 'a' <= c <= 'f'
    ensures HexValue(c) == HexValue(c - 'a' + 'A') == c as int - 'a' as int + 10
  {
  }

  predicate NoSeparator(s: string) {
    '&' !in s && '=' !in s
  }

  lemma {:induction false} EscapeHasNoSeparator(s: string)
    ensures NoSeparator(Escape(s))
  {
    if s != "" {
      EscapeHasNoSeparator(s[1..]);
      HexRoundTrip(s[0] as int / 16 % 16);
      HexRoundTrip(s[0] as int % 16);
    }
  }

  // ---------- Writing and reading a query ----------

  function Piece(p: Param): string {
    Escape(p.key) + "=" + Escape(p.value)
  }

  function Joined(query: string, more: string): (s: string)
    ensures |s| == |query| + 1 + |more|
  {
    query + "&" + more
  }

  /** The query part of net::AppendQueryParameter. */
  function Appended(query: string, p: Param): string {
    if query == "" then Piece(p) else Joined(query, Piece(p))
  }

  function AllAppended(query: string, params: seq<Param>): string {
    if params == [] then query
    else Appended(AllAppended(query, params[..|params| - 1]), params[|params| - 1])
  }

  /** The parts of a query between its '&'s. */
  function Parts(query: string): (parts: seq<string>)
    ensures |parts| >= 1
  {
    if query == "" then [""]
    else
      var rest := Parts(query[1..]);
      if query[0] == '&' then [""] + rest else [[query[0]] + rest[0]] + rest[1..]
  }

  lemma {:induction false} PartsOfJoined(query: string, more: string)
    ensures Parts(Joined(query, more)) == Parts(query) + Parts(more)
  {
    var all := Joined(query, more);
    if query == "" {
      assert all[0] == '&' && all[1..] == more;
    } else {
      assert all[0] == query[0] && all[1..] == Joined(query[1..], more);
      PartsOfJoined(query[1..], more);
    }
  }

  lemma {:induction false} PartsOfPlain(s: string)
    requires '&' !in s
    ensures Parts(s) == [s]
  {
    if s != "" {
      PartsOfPlain(s[1..]);
      assert s == [s[0]] + s[1..];
    }
  }

  /** The position of the first `c`, or the end. */
  function IndexOf(s: string, c: char): (n: nat)
    ensures n <= |s|
    ensures c !in s[..n]
    ensures n < |s| ==> s[n] == c
  {
    if s == "" || s[0] == c then 0
    else
      var n := IndexOf(s[1..], c);
      assert s[..n + 1] == [s[0]] + s[1..][..n];
      n + 1
  }

  lemma IndexUnique(s: string, c: char, n: nat)
    requires n < |s| && c !in s[..n] && s[n] == c
    ensures IndexOf(s, c) == n
  {
    assert forall i :: 0 <= i < n ==> s[i] == s[..n][i];
    var m := IndexOf(s, c);
    assert forall i :: 0 <= i < m ==> s[i] == s[..m][i];
  }

  /** The key of a `key=value` part, and its value or nothing. */
  function PairOf(part: string): Param {
    var k := IndexOf(part, '=');
    Param(part[..k], if k < |part| then part[k + 1..] else "")
  }

  /** A part without a '=' is a key without a value. */
  lemma PartWithoutValue(part: string)
    requires '=' !in part
    ensures PairOf(part) == Param(part, "")
  {
    assert part[..|part|] == part;
  }

  /** And otherwise the key ends at the first one. */
  lemma PartWithValue(key: string, value: string)
    requires '=' !in key
    ensures PairOf(key + "=" + value) == Param(key, value)
  {
    var part := key + "=" + value;
    assert part[..|key|] == key && part[|key|] == '=' && part[|key| + 1..] == value;
    IndexUnique(part, '=', |key|);
  }

  function PairsOf(parts: seq<string>): seq<Param> {
    seq(|parts|, i requires 0 <= i < |parts| => PairOf(parts[i]))
  }

  lemma PairsOfConcat(a: seq<string>, b: seq<string>)
    ensures PairsOf(a + b) == PairsOf(a) + PairsOf(b)
  {
  }

  lemma PairsOfOne(part: string)
    ensures PairsOf([part]) == [PairOf(part)]
  {
  }

  /** The parts the iterator stops at: there is none for what follows a final '&'. */
  function Stops(query: string): seq<string> {
    var parts := Parts(query);
    if parts[|parts| - 1] == "" then parts[..|parts| - 1] else parts
  }

  /** The keys and values net::QueryIterator yields, still escaped. */
  function Pairs(query: string): seq<Param> {
    PairsOf(Stops(query))
  }

  /** The pairs a query contributes when more is appended to it. */
  function PairsBefore(query: string): seq<Param> {
    if query == "" then [] else PairsOf(Parts(query))
  }

  function FirstPart(query: string): string {
    query[..IndexOf(query, '&')]
  }

  function OtherParts(query: string): (rest: string)
    ensures query != "" ==> |rest| < |query|
  {
    var n := IndexOf(query, '&');
    if n < |query| then query[n + 1..] else ""
  }

  /** One step of the iterator: the pair up to the first '&', and what is left after it. */
  lemma FirstPair(query: string)
    requires query != ""
    ensures Pairs(query) == [PairOf(FirstPart(query))] + Pairs(OtherParts(query))
  {
    var first, rest := FirstPart(query), OtherParts(query);
    FirstStop(query);
    PairsOfConcat([first], Stops(rest));
    PairsOfOne(first);
  }

  lemma FirstStop(query: string)
    requires query != ""
    ensures Stops(query) == [FirstPart(query)] + Stops(OtherParts(query))
  {
    var first, rest := FirstPart(query), OtherParts(query);
    PartsOfPlain(first);
    if |first| < |query| {
      assert query == Joined(first, rest);
      PartsOfJoined(first, rest);
      StopsAfter(query, first, rest);
    } else {
      assert first == query;
    }
  }

  lemma StopsAfter(query: string, first: string, rest: string)
    requires Parts(query) == [first] + Parts(rest)
    ensures Stops(query) == [first] + Stops(rest)
  {
    var parts := Parts(rest);
    assert ([first] + parts)[..|parts|] == [first] + parts[..|parts| - 1];
  }

  lemma PairOfPiece(p: Param)
    ensures Parts(Piece(p)) == [Piece(p)] && Piece(p) != ""
    ensures PairOf(Piece(p)) == Escaped(p)
  {
    var key, value, q := Escape(p.key), Escape(p.value), Piece(p);
    EscapeHasNoSeparator(p.key);
    EscapeHasNoSeparator(p.value);
    PartsOfPlain(q);
    assert q[..|key|] == key && q[|key|] == '=' && q[|key| + 1..] == value;
    IndexUnique(q, '=', |key|);
  }

  lemma StopsOfJoined(query: string, more: string)
    requires Parts(more) == [more] && more != ""
    ensures Parts(Joined(query, more)) == Parts(query) + [more] == Stops(Joined(query, more))
  {
    PartsOfJoined(query, more);
  }

  lemma PairsOfAppended(query: string, p: Param)
    ensures Pairs(Appended(query, p)) == PairsBefore(query) + [Escaped(p)]
    ensures PairsBefore(Appended(query, p)) == Pairs(Appended(query, p))
  {
    var piece := Piece(p);
    PairOfPiece(p);
    PairsOfOne(piece);
    if query == "" {
      assert Stops(piece) == [piece];
    } else {
      StopsOfJoined(query, piece);
      PairsOfConcat(Parts(query), [piece]);
    }
  }

  function Escaped(p: Param): Param {
    Param(Escape(p.key), Escape(p.value))
  }

  /** A query of two parameters, spelled out. */
  lemma QueryOfTwo(p: Param, q: Param)
    ensures AllAppended("", [p, q]) == Escape(p.key) + "=" + Escape(p.value) + "&" + (Escape(q.key) + "=" + Escape(q.value))
  {
    var params := [p, q];
    assert params[..1] == [p] && params[..1][..0] == [];
    assert AllAppended("", params[..1]) == Piece(p);
  }

  function EscapedParams(params: seq<Param>): seq<Param> {
    seq(|params|, i requires 0 <= i < |params| => Escaped(params[i]))
  }

  lemma EscapedLast(params: seq<Param>)
    requires params != []
    ensures EscapedParams(params) == EscapedParams(params[..|params| - 1]) + [Escaped(params[|params| - 1])]
  {
  }

  /** Reading a query yields what it started with and then all that has been appended, escaped. */
  lemma {:induction false} PairsOfAllAppended(query: string, params: seq<Param>)
    requires params != []
    ensures Pairs(AllAppended(query, params)) == PairsBefore(query) + EscapedParams(params)
    ensures PairsBefore(AllAppended(query, params)) == Pairs(AllAppended(query, params))
  {
    var before, p := params[..|params| - 1], params[|params| - 1];
    PairsOfAppended(AllAppended(query, before), p);
    EscapedLast(params);
    if before != [] {
      PairsOfAllAppended(query, before);
      Associative(PairsBefore(query), EscapedParams(before), [Escaped(p)]);
    }
  }

  lemma Associative(a: seq<Param>, b: seq<Param>, c: seq<Param>)
    ensures a + (b + c) == (a + b) + c
  {
  }
}
