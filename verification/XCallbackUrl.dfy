/** chrome/common/x_callback_url.cc: x-callback-urls, built from parameters and read back. */
module XCallbackUrls {
  import opened Options
  import opened QueryStrings
  import opened Urls

  const X_HOST := "x-callback-url"
  const SUCCESS := "x-success"
  const ERROR := "x-error"
  const CANCEL := "x-cancel"

  predicate IsXCallbackURL(url: Url) {
    if url.InvalidUrl? then false
    else if url.standard then url.host == X_HOST
    else
      var pathPiece := if |url.path| >= 2 && url.path[..2] == "//" then url.path[2..] else url.path;
      Cut(pathPiece, '/') == X_HOST
  }

  /**
   Whether a URL is an x-callback-url depends on its authority: of a standard one on the
   host, whatever its case, the user and the port; of another one on all of it.
   */
  lemma IsXCallbackIffAuthority(scheme: string, authority: string, tail: string, standard: set<string>)
    requires ValidScheme(scheme) && PlainAuthority(authority) && EndsAuthority(tail)
    requires LowerCase(scheme) in standard ==> IsSpelledOut(authority)
    ensures IsXCallbackURL(ParseUrl(TextOf(scheme, authority, tail), standard)) <==>
      if LowerCase(scheme) in standard then HostFor(LowerCase(scheme), authority) == Some("x-callback-url")
      else authority == "x-callback-url"
  {
    ParseAuthority(scheme, authority, tail, standard);
    PathStartsWithSlash(tail);
    SlashEndsHost(authority, PathOf(tail));
  }

  lemma XHostIsSpelledInLetters()
    ensures forall i :: 0 <= i < |X_HOST| ==> 'a' <= X_HOST[i] <= 'z' || X_HOST[i] == '-'
    ensures '-' in X_HOST
  {
    assert X_HOST[1] == '-';
  }

  lemma XHostIsPlain(name: string)
    requires name == X_HOST
    ensures PlainAuthority(name) && IsSpelledOut(name)
    ensures forall scheme :: HostFor(scheme, name) == if scheme == FILESYSTEM then None else Some(name)
  {
    XHostIsSpelledInLetters();
    assert '-' in name && !NumberChar('-');
    PlainName(name);
  }

  /** Without "//", what counts in a URL that is not standard is the first segment of its path. */
  lemma IsXCallbackIffFirstSegment(scheme: string, first: string, tail: string, standard: set<string>)
    requires ValidScheme(scheme) && LowerCase(scheme) !in standard
    requires PlainAuthority(first) && EndsAuthority(tail)
    requires first == "" ==> |tail| < 2 || tail[..2] != "//"
    ensures IsXCallbackURL(ParseUrl(scheme + (":" + (first + tail)), standard)) <==> first == "x-callback-url"
  {
    ParseOpaque(scheme, first, tail, standard);
    PathStartsWithSlash(tail);
    SlashEndsHost(first, PathOf(tail));
    NoDoubleSlash(first, tail);
  }

  lemma NoDoubleSlash(first: string, tail: string)
    requires PlainAuthority(first) && (first == "" ==> |tail| < 2 || tail[..2] != "//")
    ensures var path := first + PathOf(tail); |path| < 2 || path[..2] != "//"
  {
    var path := first + PathOf(tail);
    if first == "" {
      assert path == PathOf(tail);
      assert |path| >= 2 ==> path[..2] == tail[..2];
    } else {
      assert path[0] == first[0] && first[0] in first;
    }
  }

  // ---------- Creating ----------

  /** The text a URL is created from. */
  function CreatedText(scheme: string, action: string): string {
    TextOf(scheme, X_HOST, "/" + action)
  }

  /** The query an action brings along. */
  function OwnQuery(action: string): string {
    QueryOf("/" + action)
  }

  /** The parameter of a callback URL, given by its spec; none if it is not valid. */
  function Callback(name: string, url: Option<string>): seq<Param> {
    if url.Some? then [Param(name, url.value)] else []
  }

  function Callbacks(success: Option<string>, error: Option<string>, cancel: Option<string>): seq<Param> {
    Callback(SUCCESS, success) + Callback(ERROR, error) + Callback(CANCEL, cancel)
  }

  function WithQuery(url: Url, query: string): Url {
    if url.InvalidUrl? then url else url.(query := query)
  }

  function Created(scheme: string, action: string, params: seq<Param>, standard: set<string>): Url {
    var url := ParseUrl(CreatedText(scheme, action), standard);
    if url.InvalidUrl? then url else WithQuery(url, AllAppended(url.query, params))
  }

  /** The URL that is created. */
  function CreatedUrl(
      scheme: string, action: string, success: Option<string>, error: Option<string>,
      cancel: Option<string>, parameters: seq<Param>, standard: set<string>): Url {
    Created(scheme, action, Callbacks(success, error, cancel) + parameters, standard)
  }

  /** A valid scheme whose URLs have an authority or need none. */
  predicate TakesAuthority(scheme: string, standard: set<string>) {
    ValidScheme(scheme) && !(LowerCase(scheme) == FILESYSTEM && FILESYSTEM in standard)
  }

  /** Every URL created is a valid x-callback-url, standard or not, unless its scheme is the filesystem one. */
  lemma CreatedIsXCallback(scheme: string, action: string, params: seq<Param>, standard: set<string>)
    requires ValidScheme(scheme)
    ensures var url := Created(scheme, action, params, standard);
      && (TakesAuthority(scheme, standard) ==>
        url.Url? && IsXCallbackURL(url) && url.query == AllAppended(OwnQuery(action), params))
      && (!TakesAuthority(scheme, standard) ==> url.InvalidUrl?)
  {
    XHostIsPlain(X_HOST);
    ParseAuthority(scheme, X_HOST, "/" + action, standard);
    IsXCallbackIffAuthority(scheme, X_HOST, "/" + action, standard);
  }

  lemma OtherSchemesAreInvalid(scheme: string, action: string, params: seq<Param>, standard: set<string>)
    requires ':' !in scheme && !ValidScheme(scheme)
    ensures Created(scheme, action, params, standard).InvalidUrl?
  {
    SplitScheme(scheme, "//" + (X_HOST + ("/" + action)));
  }

  method AppendQueryParameter(url: Url, name: string, value: string) returns (r: Url)
    ensures url.Url? ==> r == WithQuery(url, Appended(url.query, Param(name, value)))
    ensures url.InvalidUrl? ==> r == url
  {
    r := if url.InvalidUrl? then url else url.(query := Appended(url.query, Param(name, value)));
  }

  lemma AppendedLast(query: string, done: seq<Param>, p: Param)
    ensures AllAppended(query, done + [p]) == Appended(AllAppended(query, done), p)
  {
    assert (done + [p])[..|done|] == done;
  }

  lemma AppendedNext(query: string, done: seq<Param>, params: seq<Param>, i: nat)
    requires i < |params|
    ensures AllAppended(query, done + params[..i + 1]) == Appended(AllAppended(query, done + params[..i]), params[i])
  {
    PrefixNext(done, params, i);
    AppendedLast(query, done + params[..i], params[i]);
  }

  lemma PrefixNext(done: seq<Param>, params: seq<Param>, i: nat)
    requires i < |params|
    ensures done + params[..i + 1] == done + params[..i] + [params[i]]
  {
  }

  method AppendCallback(url: Url, name: string, callback: Option<string>, ghost query: string, ghost done: seq<Param>)
      returns (r: Url)
    requires url.Url? ==> url.query == AllAppended(query, done)
    ensures r == WithQuery(url, AllAppended(query, done + Callback(name, callback)))
  {
    r := url;
    if callback.Some? {
      r := AppendQueryParameter(url, name, callback.value);
      AppendedLast(query, done, Param(name, callback.value));
    } else {
      assert done + [] == done;
    }
  }

  method AppendAll(url: Url, parameters: seq<Param>, ghost query: string, ghost done: seq<Param>) returns (r: Url)
    requires url.Url? ==> url.query == AllAppended(query, done)
    ensures r == WithQuery(url, AllAppended(query, done + parameters))
  {
    r := url;
    assert done + [] == done;
    for i := 0 to |parameters|
      invariant r == WithQuery(url, AllAppended(query, done + parameters[..i]))
    {
      AppendedNext(query, done, parameters, i);
      r := AppendQueryParameter(r, parameters[i].key, parameters[i].value);
    }
    assert parameters[..|parameters|] == parameters;
  }

  /** `parameters` are the elements of the std::map in iteration order. */
  method CreateXCallbackURLWithParameters(
      scheme: string, action: string, successUrl: Option<string>, errorUrl: Option<string>,
      cancelUrl: Option<string>, parameters: seq<Param>, standard: set<string>) returns (url: Url)
    requires scheme != ""
    ensures url == CreatedUrl(scheme, action, successUrl, errorUrl, cancelUrl, parameters, standard)
    ensures ':' !in scheme ==> (IsXCallbackURL(url) <==> TakesAuthority(scheme, standard))
  {
    url := ParseUrl(CreatedText(scheme, action), standard);
    url := AppendParameters(url, successUrl, errorUrl, cancelUrl, parameters);
    ClosingCheck(scheme, action, Callbacks(successUrl, errorUrl, cancelUrl) + parameters, standard);
  }

  /** Appends the callback URLs that are valid, and then the parameters. */
  method AppendParameters(created: Url, successUrl: Option<string>, errorUrl: Option<string>,
                          cancelUrl: Option<string>, parameters: seq<Param>) returns (url: Url)
    ensures created.InvalidUrl? ==> url == created
    ensures created.Url? ==>
      url == WithQuery(created, AllAppended(created.query, Callbacks(successUrl, errorUrl, cancelUrl) + parameters))
  {
    url := created;
    ghost var query := if url.Url? then url.query else "";
    url := AppendCallback(url, SUCCESS, successUrl, query, []);
    url := AppendCallback(url, ERROR, errorUrl, query, [] + Callback(SUCCESS, successUrl));
    url := AppendCallback(url, CANCEL, cancelUrl, query, [] + Callback(SUCCESS, successUrl) + Callback(ERROR, errorUrl));
    assert [] + Callback(SUCCESS, successUrl) + Callback(ERROR, errorUrl) + Callback(CANCEL, cancelUrl)
      == Callbacks(successUrl, errorUrl, cancelUrl);
    url := AppendAll(url, parameters, query, Callbacks(successUrl, errorUrl, cancelUrl));
  }

  lemma ClosingCheck(scheme: string, action: string, params: seq<Param>, standard: set<string>)
    ensures ':' !in scheme ==>
      (IsXCallbackURL(Created(scheme, action, params, standard)) <==> TakesAuthority(scheme, standard))
  {
    if ValidScheme(scheme) {
      CreatedIsXCallback(scheme, action, params, standard);
    } else if ':' !in scheme {
      OtherSchemesAreInvalid(scheme, action, params, standard);
    }
  }

  // ---------- Extracting ----------

  function Unescaped(p: Param): Param {
    Param(p.key, Unescape(p.value))
  }

  function UnescapeValues(pairs: seq<Param>): seq<Param> {
    seq(|pairs|, i requires 0 <= i < |pairs| => Unescaped(pairs[i]))
  }

  /** Inserting the pairs one by one: the first of a key stays. */
  function Collected(pairs: seq<Param>): map<string, string> {
    if pairs == [] then map[]
    else
      var m, p := Collected(pairs[..|pairs| - 1]), pairs[|pairs| - 1];
      if p.key in m then m else m[p.key := p.value]
  }

  function Extracted(query: string): map<string, string> {
    Collected(UnescapeValues(Pairs(query)))
  }

  method ExtractQueryParametersFromXCallbackURL(url: Url) returns (parameters: map<string, string>)
    requires IsXCallbackURL(url)
    ensures parameters == Extracted(url.query)
  {
    parameters := map[];
    var rest := url.query;
    ghost var seen: seq<Param> := [];
    while rest != ""
      invariant seen + Pairs(rest) == Pairs(url.query)
      invariant parameters == Collected(UnescapeValues(seen))
      decreases |rest|
    {
      FirstPair(rest);
      var pair := PairOf(FirstPart(rest));
      if pair.key !in parameters {
        parameters := parameters[pair.key := Unescape(pair.value)];
      }
      CollectNext(seen, pair);
      Associative(seen, [pair], Pairs(OtherParts(rest)));
      seen := seen + [pair];
      rest := OtherParts(rest);
    }
    assert Pairs("") == [] && seen + [] == seen;
  }

  lemma CollectNext(seen: seq<Param>, pair: Param)
    ensures Collected(UnescapeValues(seen + [pair])) ==
      var m := Collected(UnescapeValues(seen));
      if pair.key in m then m else m[pair.key := Unescape(pair.value)]
  {
    var next := UnescapeValues(seen + [pair]);
    assert next[..|next| - 1] == UnescapeValues(seen) && next[|next| - 1] == Unescaped(pair);
  }

  // ---------- Round trip ----------

  predicate Survives(p: Param) {
    IsKept(p.key) && IsShown(p.value)
  }

  lemma PairRoundTrip(p: Param)
    requires IsBytes(p.value)
    ensures Unescaped(Escaped(p)) == p <==> Survives(p)
  {
    KeyRoundTrip(p.key);
    ValueRoundTrip(p.value);
  }

  /** Parameters are read back as they were written exactly if all keys and values survive. */
  lemma ParamsRoundTrip(params: seq<Param>)
    requires forall i :: 0 <= i < |params| ==> IsBytes(params[i].value)
    ensures UnescapeValues(EscapedParams(params)) == params
      <==> forall i :: 0 <= i < |params| ==> Survives(params[i])
  {
    var back := UnescapeValues(EscapedParams(params));
    forall i | 0 <= i < |params| ensures back[i] == params[i] <==> Survives(params[i]) {
      PairRoundTrip(params[i]);
      assert back[i] == Unescaped(Escaped(params[i]));
    }
  }

  lemma UnescapeConcat(a: seq<Param>, b: seq<Param>)
    ensures UnescapeValues(a + b) == UnescapeValues(a) + UnescapeValues(b)
  {
  }

  /** Of two lists of pairs collected one after the other, the first overrides the second. */
  lemma {:induction false} CollectedConcat(a: seq<Param>, b: seq<Param>)
    ensures Collected(a + b) == Collected(b) + Collected(a)
  {
    if b == [] {
      assert a + b == a;
    } else {
      assert (a + b)[..|a + b| - 1] == a + b[..|b| - 1];
      CollectedConcat(a, b[..|b| - 1]);
    }
  }

  /** What is extracted of the query the action brings along. */
  function Own(action: string, params: seq<Param>): map<string, string> {
    OwnOf(OwnQuery(action), params)
  }

  function OwnOf(query: string, params: seq<Param>): map<string, string> {
    Collected(UnescapeValues(if params == [] then Pairs(query) else PairsBefore(query)))
  }

  /** The pairs of the action's own query come first and so take precedence. */
  lemma ExtractCreated(scheme: string, action: string, params: seq<Param>, standard: set<string>)
    requires TakesAuthority(scheme, standard)
    ensures var url := Created(scheme, action, params, standard);
      url.Url? && Extracted(url.query) == Collected(ReadBack(params)) + Own(action, params)
  {
    CreatedIsXCallback(scheme, action, params, standard);
    if params == [] {
      ExtractUnappended(OwnQuery(action));
    } else {
      ExtractAppended(OwnQuery(action), params);
    }
  }

  lemma ExtractUnappended(query: string)
    ensures Extracted(AllAppended(query, [])) == Collected(ReadBack([])) + OwnOf(query, [])
  {
    assert ReadBack([]) == [];
  }

  lemma ExtractAppended(query: string, params: seq<Param>)
    requires params != []
    ensures Extracted(AllAppended(query, params)) ==
      Collected(ReadBack(params)) + OwnOf(query, params)
  {
    PairsOfAllAppended(query, params);
    UnescapeConcat(PairsBefore(query), EscapedParams(params));
    CollectedConcat(UnescapeValues(PairsBefore(query)), ReadBack(params));
  }

  /**
   Extracting undoes creating: it yields the caller's parameters, overridden by the callback
   URLs that are valid and by the action's own query, exactly if every parameter survives or
   is overridden along with what is read in its place.
   */
  lemma ExtractUndoesCreate(
      scheme: string, action: string, success: Option<string>, error: Option<string>,
      cancel: Option<string>, parameters: seq<Param>, standard: set<string>)
    requires TakesAuthority(scheme, standard) && DistinctKeys(parameters)
    requires forall i :: 0 <= i < |parameters| ==> IsBytes(parameters[i].key) && IsBytes(parameters[i].value)
    requires forall url :: url in {success, error, cancel} && url.Some? ==> IsPrintable(url.value)
    ensures var url := CreatedUrl(scheme, action, success, error, cancel, parameters, standard);
      var over := Overriding(action, success, error, cancel, parameters);
      && url.Url?
      && (Extracted(url.query) == Collected(parameters) + over
          <==> forall p :: p in parameters ==> Survives(p) || Masked(p, parameters, over))
  {
    var over := Overriding(action, success, error, cancel, parameters);
    ExtractAll(scheme, action, success, error, cancel, parameters, standard);
    ReadBackDistinct(parameters);
    SameOverriddenIff(ReadBack(parameters), parameters, over);
    SameIffMasked(parameters, over);
  }

  /**
   If no key in the action's own query needs escaping, that is so exactly if every parameter
   that is not overridden survives.
   */
  lemma ExtractUndoesCreateForPlainActions(
      scheme: string, action: string, success: Option<string>, error: Option<string>,
      cancel: Option<string>, parameters: seq<Param>, standard: set<string>)
    requires TakesAuthority(scheme, standard)
    requires DistinctKeys(parameters) && forall i :: 0 <= i < |parameters| ==> IsBytes(parameters[i].value)
    requires forall url :: url in {success, error, cancel} && url.Some? ==> IsPrintable(url.value)
    requires forall k :: k in Own(action, Callbacks(success, error, cancel) + parameters) ==> IsKept(k)
    ensures var url := CreatedUrl(scheme, action, success, error, cancel, parameters, standard);
      var over := Overriding(action, success, error, cancel, parameters);
      && url.Url?
      && (Extracted(url.query) == Collected(parameters) + over
          <==> forall p :: p in parameters && p.key !in over ==> Survives(p))
  {
    CallbacksSurvive(success, error, cancel);
    KeysSurvive(Callbacks(success, error, cancel));
    ExtractAll(scheme, action, success, error, cancel, parameters, standard);
    ReadBackOutside(parameters, Overriding(action, success, error, cancel, parameters));
  }

  lemma ExtractAll(
      scheme: string, action: string, success: Option<string>, error: Option<string>,
      cancel: Option<string>, parameters: seq<Param>, standard: set<string>)
    requires TakesAuthority(scheme, standard)
    requires forall url :: url in {success, error, cancel} && url.Some? ==> IsPrintable(url.value)
    ensures var url := CreatedUrl(scheme, action, success, error, cancel, parameters, standard);
      && url.Url?
      && Extracted(url.query) ==
        Collected(ReadBack(parameters)) + Overriding(action, success, error, cancel, parameters)
  {
    var callbacks := Callbacks(success, error, cancel);
    CallbacksSurvive(success, error, cancel);
    ExtractCreated(scheme, action, callbacks + parameters, standard);
    SurvivorsFirst(callbacks, parameters);
    MapsAssociate(Collected(ReadBack(parameters)), Collected(callbacks), Own(action, callbacks + parameters));
  }

  // ---------- What goes where ----------

  /** Scheme, host and path of a created URL. */
  lemma CreatedParts(scheme: string, action: string, params: seq<Param>, standard: set<string>)
    requires TakesAuthority(scheme, standard) && '?' !in action && '#' !in action
    ensures var url := Created(scheme, action, params, standard);
      && url.Url? && url.scheme == LowerCase(scheme) && url.standard == (LowerCase(scheme) in standard)
      && url.host == (if url.standard then "x-callback-url" else "")
      && url.path == (if url.standard then "/" + action else "//" + ("x-callback-url" + ("/" + action)))
      && url.query == AllAppended("", params)
  {
    XHostIsPlain(X_HOST);
    ParseAuthority(scheme, X_HOST, "/" + action, standard);
    NoQueryOrFragment("/" + action);
  }

  lemma NoQueryOrFragment(tail: string)
    requires '?' !in tail && '#' !in tail
    ensures PathOf(tail) == tail && QueryOf(tail) == ""
  {
    CutAfter(tail, "", '#');
    CutAfter(tail, "", '?');
    assert tail + "" == tail;
  }

  /** The query an action brings along is what follows its first question mark. */
  lemma OwnQueryAfterQuestionMark(path: string, query: string)
    requires '?' !in path && '#' !in path && '#' !in query
    ensures OwnQuery(path + ("?" + query)) == query
  {
    var head, tail := "/" + path, "?" + query;
    assert "/" + (path + tail) == head + tail;
    CutAfter(head + tail, "", '#');
    assert head + tail + "" == head + tail;
    CutAfter(head, tail, '?');
    assert tail[0] == '?' && tail[1..] == query;
  }

  /** The callback URLs that are valid come first, in this order and under these names. */
  lemma CallbacksComeFirst(
      scheme: string, action: string, success: Option<string>, error: Option<string>,
      cancel: Option<string>, parameters: seq<Param>, standard: set<string>)
    requires TakesAuthority(scheme, standard)
    ensures var url := CreatedUrl(scheme, action, success, error, cancel, parameters, standard);
      && url.Url?
      && url.query == AllAppended(OwnQuery(action),
        (if success.Some? then [Param("x-success", success.value)] else [])
        + (if error.Some? then [Param("x-error", error.value)] else [])
        + (if cancel.Some? then [Param("x-cancel", cancel.value)] else [])
        + parameters)
  {
    CreatedIsXCallback(scheme, action, Callbacks(success, error, cancel) + parameters, standard);
  }

  /** Of the callback URLs given, the one that goes under the name. */
  ghost predicate GoesUnder(name: string, url: Option<string>, success: Option<string>, error: Option<string>,
                            cancel: Option<string>) {
    || (name == "x-success" && url == success)
    || (name == "x-error" && url == error)
    || (name == "x-cancel" && url == cancel)
  }

  /**
   Each valid callback URL is extracted under its name; without one, nothing is there under
   that name unless the caller has given it as a parameter. The action has no query.
   */
  lemma CallbackIsReadUnderItsName(
      scheme: string, action: string, success: Option<string>, error: Option<string>,
      cancel: Option<string>, parameters: seq<Param>, standard: set<string>, name: string, url: Option<string>)
    requires TakesAuthority(scheme, standard) && OwnQuery(action) == ""
    requires forall p :: p in parameters ==> IsBytes(p.key)
    requires forall u :: u in {success, error, cancel} && u.Some? ==> IsPrintable(u.value)
    requires GoesUnder(name, url, success, error, cancel)
    ensures var created := CreatedUrl(scheme, action, success, error, cancel, parameters, standard);
      && created.Url?
      && var m := Extracted(created.query);
      && (url.Some? ==> name in m && m[name] == url.value)
      && (url.None? ==> (name in m <==> exists p :: p in parameters && p.key == name))
  {
    var callbacks := Callbacks(success, error, cancel);
    ExtractAll(scheme, action, success, error, cancel, parameters, standard);
    NothingOwn(action, callbacks + parameters);
    NothingAdded(Collected(callbacks));
    CollectedCallbacks(success, error, cancel, name, url);
    NamesAreUnreserved(name);
    ReadUnderName(parameters, name);
    FoundInSum(Collected(ReadBack(parameters)), Collected(callbacks), name);
  }

  lemma NamesAreUnreserved(name: string)
    requires name == "x-success" || name == "x-error" || name == "x-cancel"
    ensures IsUnreserved(name) && IsBytes(name)
  {
  }

  lemma NothingAdded(m: map<string, string>)
    ensures m + map[] == m
  {
  }

  lemma FoundInSum(m: map<string, string>, over: map<string, string>, k: string)
    ensures k in m + over <==> k in m || k in over
    ensures k in over ==> (m + over)[k] == over[k]
  {
  }

  lemma NothingOwn(action: string, params: seq<Param>)
    requires OwnQuery(action) == ""
    ensures Own(action, params) == map[]
  {
    assert Parts("") == [""];
    assert UnescapeValues([]) == [];
  }

  lemma CollectedCallbacks(success: Option<string>, error: Option<string>, cancel: Option<string>,
                           name: string, url: Option<string>)
    requires GoesUnder(name, url, success, error, cancel)
    ensures var m := Collected(Callbacks(success, error, cancel));
      (name in m <==> url.Some?) && (url.Some? ==> m[name] == url.value)
  {
    var callbacks := Callbacks(success, error, cancel);
    CallbacksAreDistinct(success, error, cancel);
    CollectedMembers(callbacks);
    CollectedFrom(callbacks);
    UnderName(success, error, cancel, name, url);
  }

  lemma CallbacksAreDistinct(success: Option<string>, error: Option<string>, cancel: Option<string>)
    ensures DistinctKeys(Callbacks(success, error, cancel))
  {
    assert SUCCESS != ERROR && SUCCESS != CANCEL && ERROR != CANCEL by {
      assert SUCCESS[2] != ERROR[2] && SUCCESS[2] != CANCEL[2] && ERROR[2] != CANCEL[2];
    }
  }

  lemma UnderName(success: Option<string>, error: Option<string>, cancel: Option<string>,
                  name: string, url: Option<string>)
    requires GoesUnder(name, url, success, error, cancel)
    ensures url.Some? ==> Param(name, url.value) in Callbacks(success, error, cancel)
    ensures forall v :: url.None? ==> Param(name, v) !in Callbacks(success, error, cancel)
  {
    assert SUCCESS[2] == 's' && ERROR[2] == 'e' && CANCEL[2] == 'c';
  }

  lemma {:induction false} CollectedKeys(params: seq<Param>)
    ensures forall p :: p in params ==> p.key in Collected(params)
  {
    if params != [] {
      var before, p := params[..|params| - 1], params[|params| - 1];
      CollectedKeys(before);
      assert params == before + [p];
    }
  }

  /** A name that is not escaped is read back where it was given, and nowhere else. */
  lemma ReadUnderName(params: seq<Param>, name: string)
    requires IsUnreserved(name) && IsBytes(name) && forall p :: p in params ==> IsBytes(p.key)
    ensures name in Collected(ReadBack(params)) <==> exists p :: p in params && p.key == name
  {
    CollectedFrom(ReadBack(params));
    CollectedKeys(ReadBack(params));
    ReadBackMembers(params);
    UnreservedStays(name);
    forall p | p in params ensures Escape(p.key) == name <==> p.key == name {
      if Escape(p.key) == name {
        EscapeInjective(p.key, name);
      }
    }
  }

  /** What is read in place of a parameter. */
  function ComesBackAs(p: Param): Param {
    Unescaped(Escaped(p))
  }

  /**
   The parameter is overridden, or another one comes back as it; and what it comes back as is
   overridden, or is also a parameter.
   */
  predicate Masked(p: Param, params: seq<Param>, over: map<string, string>) {
    && (p.key in over || p in ReadBack(params))
    && (ComesBackAs(p).key in over || ComesBackAs(p) in params)
  }

  lemma ReadBackDistinct(params: seq<Param>)
    requires DistinctKeys(params) && forall i :: 0 <= i < |params| ==> IsBytes(params[i].key)
    ensures DistinctKeys(ReadBack(params))
  {
    forall i, j | 0 <= i < j < |params| ensures ReadBack(params)[i].key != ReadBack(params)[j].key {
      if Escape(params[i].key) == Escape(params[j].key) {
        EscapeInjective(params[i].key, params[j].key);
      }
    }
  }

  /** With distinct keys, maps are the same outside `over` exactly if the parameters there are. */
  lemma SameOverriddenIff(a: seq<Param>, b: seq<Param>, over: map<string, string>)
    requires DistinctKeys(a) && DistinctKeys(b)
    ensures Collected(a) + over == Collected(b) + over <==> SameOutsideOf(a, b, over)
  {
    CollectedMembers(a);
    CollectedMembers(b);
    CollectedFrom(a);
    CollectedFrom(b);
    if SameOutsideOf(a, b, over) {
      SameElementsSameMap(a, b, over);
    }
    if Collected(a) + over == Collected(b) + over {
      forall q: Param | q.key !in over ensures q in a <==> q in b {
        SameAt(Collected(a), Collected(b), over, q.key);
      }
    }
  }

  ghost predicate SameOutsideOf(a: seq<Param>, b: seq<Param>, over: map<string, string>) {
    forall q: Param :: q.key !in over ==> (q in a <==> q in b)
  }

  lemma SameAt(a: map<string, string>, b: map<string, string>, over: map<string, string>, k: string)
    requires a + over == b + over && k !in over
    ensures k in a <==> k in b
    ensures k in a ==> a[k] == b[k]
  {
    assert k in a <==> k in a + over;
    assert k in b <==> k in b + over;
    assert k in a ==> a[k] == (a + over)[k];
    assert k in b ==> b[k] == (b + over)[k];
  }

  lemma SameElementsSameMap(a: seq<Param>, b: seq<Param>, over: map<string, string>)
    requires DistinctKeys(a) && DistinctKeys(b) && SameOutsideOf(a, b, over)
    ensures Collected(a) + over == Collected(b) + over
  {
    var m, n := Collected(a), Collected(b);
    forall k | k !in over ensures (k in m <==> k in n) && (k in m ==> m[k] == n[k]) {
      SameElementAt(a, b, k);
    }
    SameSum(m, n, over);
  }

  lemma SameElementAt(a: seq<Param>, b: seq<Param>, k: string)
    requires DistinctKeys(a) && DistinctKeys(b) && forall v :: Param(k, v) in a <==> Param(k, v) in b
    ensures var m, n := Collected(a), Collected(b); (k in m <==> k in n) && (k in m ==> m[k] == n[k])
  {
    CollectedMembers(a);
    CollectedMembers(b);
    CollectedFrom(a);
    CollectedFrom(b);
    var m, n := Collected(a), Collected(b);
    if k in m {
      assert Param(k, m[k]) in b;
    }
    if k in n {
      assert Param(k, n[k]) in a;
    }
  }

  lemma SameSum(m: map<string, string>, n: map<string, string>, over: map<string, string>)
    requires forall k :: k !in over ==> (k in m <==> k in n) && (k in m ==> m[k] == n[k])
    ensures m + over == n + over
  {
    assert forall k :: k in m + over <==> k in n + over;
  }

  lemma ReadBackMembers(params: seq<Param>)
    ensures forall q :: q in ReadBack(params) <==> exists p :: p in params && ComesBackAs(p) == q
  {
    var back := ReadBack(params);
    forall q | q in back ensures exists p :: p in params && ComesBackAs(p) == q {
      var i :| 0 <= i < |back| && back[i] == q;
      assert params[i] in params && ComesBackAs(params[i]) == q;
    }
    forall p | p in params ensures ComesBackAs(p) in back {
      var i :| 0 <= i < |params| && params[i] == p;
      assert back[i] == ComesBackAs(p);
    }
  }

  lemma SameIffMasked(params: seq<Param>, over: map<string, string>)
    requires forall i :: 0 <= i < |params| ==> IsBytes(params[i].value)
    ensures SameOutsideOf(ReadBack(params), params, over)
      <==> forall p :: p in params ==> Survives(p) || Masked(p, params, over)
  {
    forall p | p in params ensures ComesBackAs(p) == p <==> Survives(p) {
      PairRoundTrip(p);
    }
    if forall p :: p in params ==> Survives(p) || Masked(p, params, over) {
      forall q: Param | q.key !in over ensures q in ReadBack(params) <==> q in params {
        SameAtMasked(params, over, q);
      }
    }
    if SameOutsideOf(ReadBack(params), params, over) {
      forall p | p in params ensures Survives(p) || Masked(p, params, over) {
        MaskedIfSame(params, over, p);
      }
    }
  }

  lemma MaskedIfSame(params: seq<Param>, over: map<string, string>, p: Param)
    requires p in params && SameOutsideOf(ReadBack(params), params, over)
    ensures Masked(p, params, over)
  {
    ReadBackMembers(params);
  }

  lemma SameAtMasked(params: seq<Param>, over: map<string, string>, q: Param)
    requires q.key !in over
    requires forall p :: p in params ==> (ComesBackAs(p) == p <==> Survives(p))
    requires forall p :: p in params ==> Survives(p) || Masked(p, params, over)
    ensures q in ReadBack(params) <==> q in params
  {
    ReadBackMembers(params);
    if q in ReadBack(params) {
      var p :| p in params && ComesBackAs(p) == q;
      assert Survives(p) || Masked(p, params, over);
    }
    if q in params {
      assert Survives(q) || Masked(q, params, over);
    }
  }

  function Overriding(action: string, success: Option<string>, error: Option<string>, cancel: Option<string>,
                      parameters: seq<Param>): map<string, string> {
    var callbacks := Callbacks(success, error, cancel);
    Collected(callbacks) + Own(action, callbacks + parameters)
  }

  lemma MapsAssociate(a: map<string, string>, b: map<string, string>, c: map<string, string>)
    ensures (a + b) + c == a + (b + c)
  {
  }

  /** What extracting yields of what has been appended. */
  function ReadBack(params: seq<Param>): seq<Param> {
    UnescapeValues(EscapedParams(params))
  }

  lemma ReadBackConcat(a: seq<Param>, b: seq<Param>)
    ensures ReadBack(a + b) == ReadBack(a) + ReadBack(b)
  {
    EscapedConcat(a, b);
    UnescapeConcat(EscapedParams(a), EscapedParams(b));
  }

  lemma EscapedConcat(a: seq<Param>, b: seq<Param>)
    ensures EscapedParams(a + b) == EscapedParams(a) + EscapedParams(b)
  {
  }

  lemma SurvivorsFirst(a: seq<Param>, b: seq<Param>)
    requires forall p :: p in a ==> Survives(p)
    ensures Collected(ReadBack(a + b)) == Collected(ReadBack(b)) + Collected(a)
  {
    ReadBackConcat(a, b);
    SurvivorsAreRead(a);
    CollectedConcat(a, ReadBack(b));
  }

  lemma SurvivorsAreRead(params: seq<Param>)
    requires forall p :: p in params ==> Survives(p)
    ensures ReadBack(params) == params
  {
    forall i | 0 <= i < |params| ensures IsBytes(params[i].value) && Survives(params[i]) {
      var p := params[i];
      assert p in params;
      ShownIsBytes(p.value);
    }
    ParamsRoundTrip(params);
  }

  lemma ShownIsBytes(s: string)
    requires IsShown(s)
    ensures IsBytes(s)
  {
  }

  lemma KeysSurvive(params: seq<Param>)
    requires forall p :: p in params ==> Survives(p)
    ensures forall k :: k in Collected(params) ==> IsKept(k)
  {
    CollectedFrom(params);
  }

  ghost predicate DistinctKeys(params: seq<Param>) {
    forall i, j :: 0 <= i < j < |params| ==> params[i].key != params[j].key
  }

  /** Where `over` overrides, what is read back does not matter. */
  lemma ReadBackOutside(params: seq<Param>, over: map<string, string>)
    requires DistinctKeys(params) && forall i :: 0 <= i < |params| ==> IsBytes(params[i].value)
    requires forall k :: k in over ==> IsKept(k)
    ensures Collected(ReadBack(params)) + over == Collected(params) + over
      <==> forall p :: p in params && p.key !in over ==> Survives(p)
  {
    var back := ReadBack(params);
    if forall p :: p in params && p.key !in over ==> Survives(p) {
      forall i | 0 <= i < |params|
        ensures back[i].key == params[i].key && (back[i] == params[i] || params[i].key in over)
      {
        assert params[i] in params;
        PairRoundTrip(params[i]);
        KeyRoundTrip(params[i].key);
      }
      SameOutside(params, back, over);
    }
    if Collected(back) + over == Collected(params) + over {
      forall p | p in params && p.key !in over ensures Survives(p) {
        if !Survives(p) {
          LoserIsNotReadBack(params, over, p);
        }
      }
    }
  }

  lemma {:induction false} SameOutside(a: seq<Param>, b: seq<Param>, over: map<string, string>)
    requires |a| == |b|
    requires forall i :: 0 <= i < |a| ==> b[i].key == a[i].key && (b[i] == a[i] || a[i].key in over)
    ensures Collected(a).Keys == Collected(b).Keys
    ensures forall k :: k in Collected(a) && k !in over ==> Collected(a)[k] == Collected(b)[k]
    ensures Collected(a) + over == Collected(b) + over
  {
    if a != [] {
      SameOutside(a[..|a| - 1], b[..|b| - 1], over);
    }
  }

  /**
   A parameter that does not survive has a greater size when read back, so of those that do not survive
   a shortest one is missing.
   */
  lemma {:induction false} LoserIsNotReadBack(params: seq<Param>, over: map<string, string>, p: Param)
    requires DistinctKeys(params) && forall i :: 0 <= i < |params| ==> IsBytes(params[i].value)
    requires forall k :: k in over ==> IsKept(k)
    requires p in params && p.key !in over && !Survives(p)
    ensures Collected(ReadBack(params)) + over != Collected(params) + over
    decreases Size(p)
  {
    CollectedMembers(params);
    CollectedFrom(ReadBack(params));
    if p.key in Collected(ReadBack(params)) && Collected(ReadBack(params))[p.key] == p.value {
      var i :| 0 <= i < |params| && ReadBack(params)[i] == p;
      ReadBackGrows(params[i]);
      LoserIsNotReadBack(params, over, params[i]);
    } else {
      Missing(Collected(params), Collected(ReadBack(params)), over, p.key);
    }
  }

  lemma Missing(a: map<string, string>, b: map<string, string>, over: map<string, string>, k: string)
    requires k in a && k !in over && (k in b ==> b[k] != a[k])
    ensures b + over != a + over
  {
    assert (a + over)[k] == a[k];
  }

  function Size(p: Param): nat {
    |p.key| + (if ' ' in p.key then 0 else 1) + |p.value|
  }

  lemma ReadBackGrows(p: Param)
    requires IsBytes(p.value)
    ensures var back := Unescaped(Escaped(p));
      && (Survives(p) ==> back == p)
      && (!Survives(p) ==> Size(p) < Size(back))
      && (IsKept(p.key) ==> back.key == p.key)
  {
    KeyGrows(p.key);
    KeyRoundTrip(p.key);
    UnescapeEscape(p.value);
    DisplayedLength(p.value);
  }

  lemma CallbacksSurvive(success: Option<string>, error: Option<string>, cancel: Option<string>)
    requires forall url :: url in {success, error, cancel} && url.Some? ==> IsPrintable(url.value)
    ensures forall p :: p in Callbacks(success, error, cancel) ==> Survives(p)
  {
    assert IsUnreserved(SUCCESS) && IsUnreserved(ERROR) && IsUnreserved(CANCEL);
    assert forall k :: IsUnreserved(k) ==> IsKept(k);
    assert forall v :: IsPrintable(v) ==> IsShown(v);
  }

  /** With distinct keys, collecting the parameters is the caller's map. */
  lemma {:induction false} CollectedMembers(params: seq<Param>)
    requires DistinctKeys(params)
    ensures forall p :: p in params ==> p.key in Collected(params) && Collected(params)[p.key] == p.value
  {
    if params != [] {
      var before, p := params[..|params| - 1], params[|params| - 1];
      LastKeyIsNew(params);
      CollectedMembers(before);
      assert params == before + [p];
    }
  }

  lemma LastKeyIsNew(params: seq<Param>)
    requires DistinctKeys(params) && params != []
    ensures var before := params[..|params| - 1];
      DistinctKeys(before) && params[|params| - 1].key !in Collected(before)
      && forall p :: p in before ==> p.key != params[|params| - 1].key
  {
    var before, p := params[..|params| - 1], params[|params| - 1];
    CollectedFrom(before);
    forall q | q in before ensures q.key != p.key {
      var i :| 0 <= i < |before| && before[i] == q;
      assert params[i] == q;
    }
  }

  lemma {:induction false} CollectedFrom(params: seq<Param>)
    ensures forall k :: k in Collected(params) ==> Param(k, Collected(params)[k]) in params
  {
    if params != [] {
      var before, p := params[..|params| - 1], params[|params| - 1];
      CollectedFrom(before);
      assert params == before + [p];
    }
  }
}
