/** Sanitizing links in public shares (web/chat_shares.go): query components are decoded to a fixed point, and URLs
    nested inside query values are followed to a bounded depth. Parsing is the library's and stays abstract. */
module ShareQuery {
  import opened Options

  const MAX_DEPTH := 4
  const MAX_PASSES := 8

  // ----- Repeated decoding -----

  /** `k` decoding passes over `value`, if none of them fails. */
  function Passes(decode: string -> Option<string>, value: string, k: nat): Option<string> {
    if k == 0 then Some(value)
    else
      var before := Passes(decode, value, k - 1);
      if before.None? then None else decode(before.value)
  }

  predicate Settles(decode: string -> Option<string>, value: string, k: nat) {
    var reached := Passes(decode, value, k);
    reached.Some? && decode(reached.value) == reached
  }

  lemma {:induction false} NoPassAfterFailure(decode: string -> Option<string>, value: string, k: nat)
    requires Passes(decode, value, k) == None
    ensures forall j: nat :: j >= k ==> Passes(decode, value, j) == None
  {
    forall j: nat | j >= k ensures Passes(decode, value, j) == None { FailureStays(decode, value, k, j); }
  }

  lemma {:induction false} FailureStays(decode: string -> Option<string>, value: string, k: nat, j: nat)
    requires Passes(decode, value, k) == None && j >= k
    ensures Passes(decode, value, j) == None
  {
    if j > k { FailureStays(decode, value, k, j - 1); }
  }

  lemma {:induction false} SettledStays(decode: string -> Option<string>, value: string, k: nat)
    requires Settles(decode, value, k)
    ensures forall j: nat :: j >= k ==> Passes(decode, value, j) == Passes(decode, value, k)
  {
    forall j: nat | j >= k ensures Passes(decode, value, j) == Passes(decode, value, k) {
      FixedStays(decode, value, k, j);
    }
  }

  lemma {:induction false} FixedStays(decode: string -> Option<string>, value: string, k: nat, j: nat)
    requires Settles(decode, value, k) && j >= k
    ensures Passes(decode, value, j) == Passes(decode, value, k)
  {
    if j > k { FixedStays(decode, value, k, j - 1); }
  }

  /** The fixed point reached within `passes` changing passes, if there is one. */
  function Decoded(decode: string -> Option<string>, value: string, passes: nat): Option<string>
    decreases passes
  {
    var next := decode(value);
    if next.None? then None
    else if next.value == value then Some(value)
    else if passes == 0 then None
    else Decoded(decode, next.value, passes - 1)
  }

  lemma {:induction false} DecodedIs(decode: string -> Option<string>, value: string, passes: nat)
    ensures Decoded(decode, value, passes).Some? <==> exists k: nat :: k <= passes && Settles(decode, value, k)
    ensures forall k: nat :: k <= passes && Settles(decode, value, k) ==>
              Passes(decode, value, k) == Decoded(decode, value, passes)
    decreases passes
  {
    var next := decode(value);
    assert Settles(decode, value, 0) <==> next == Some(value);
    if next.None? {
      assert Passes(decode, value, 1) == None;
      NoPassAfterFailure(decode, value, 1);
    } else if next.value == value {
      SettledStays(decode, value, 0);
    } else if passes > 0 {
      DecodedIs(decode, next.value, passes - 1);
      forall k: nat ensures Passes(decode, value, k + 1) == Passes(decode, next.value, k) {
        PassesShift(decode, value, k);
      }
      forall k: nat | k <= passes && Settles(decode, value, k) ensures Settles(decode, next.value, k - 1) && k > 0 {
        PassesShift(decode, value, k - 1);
      }
      if exists k: nat :: k <= passes - 1 && Settles(decode, next.value, k) {
        var k: nat :| k <= passes - 1 && Settles(decode, next.value, k);
        assert Settles(decode, value, k + 1);
      }
    }
  }

  lemma {:induction false} PassesShift(decode: string -> Option<string>, value: string, k: nat)
    requires decode(value).Some?
    ensures Passes(decode, value, k + 1) == Passes(decode, decode(value).value, k)
  {
    if k > 0 { PassesShift(decode, value, k - 1); }
  }

  /** Complete exactly when a fixed point is reached, without failure, within eight changing passes; it is then
      the value returned. */
  method DecodeComponent(decode: string -> Option<string>, value: string) returns (result: string, complete: bool)
    ensures complete <==> exists k: nat :: k <= 8 && Settles(decode, value, k)
    ensures complete ==> decode(result) == Some(result)
    ensures forall k: nat :: k <= 8 && Settles(decode, value, k) ==> Passes(decode, value, k) == Some(result)
    ensures Decoded(decode, value, MAX_PASSES) == if complete then Some(result) else None
  {
    DecodedIs(decode, value, MAX_PASSES);
    result := value;
    for pass := 0 to MAX_PASSES
      invariant Decoded(decode, value, MAX_PASSES) == Decoded(decode, result, MAX_PASSES - pass)
    {
      var decoded := decode(result);
      if decoded.None? {
        return "", false;
      }
      if decoded.value == result {
        return result, true;
      }
      result := decoded.value;
    }
    var decoded := decode(result);
    complete := decoded.Some? && decoded.value == result;
  }

  // ----- Nested URLs -----

  type Query = map<string, seq<string>>

  datatype Parts = Parts(fragment: string, rawQuery: string)

  datatype Ip = Ip(loopback: bool, reserved: bool, unspecified: bool)

  /** The library: any functions at all. `trim` removes trailing punctuation and what follows a joined link; `scheme`
      and `hostname` are in lower case; `protectedRoute` is asked of a URL's path; `ip` reads a host as an address, of
      which `reserved` says that it is private; `query` is the raw query after punctuation is trimmed; `render` puts a
      new query in; `candidates` finds URLs in a text. */
  datatype Library<!Url> = Library(
    trim: string -> string, parseUrl: string -> Option<Url>,
    scheme: Url -> string, host: Url -> string, hasUser: Url -> bool, protectedRoute: Url -> bool,
    hostname: Url -> string, ip: string -> Option<Ip>, query: Url -> string, render: (Url, string) -> string,
    parseQuery: string -> Option<Query>, encode: Query -> string, decode: string -> Option<string>,
    namesSecret: string -> bool, candidates: string -> seq<string>, parse: string -> Option<Parts>,
    hasQuerySyntax: string -> bool, hasEquals: string -> bool)

  /** A web URL without credentials that leads to nothing protected and to no local or private address. */
  predicate Public<Url>(lib: Library<Url>, url: Url) {
    && (lib.scheme(url) == "http" || lib.scheme(url) == "https") && lib.host(url) != ""
    && !lib.hasUser(url) && !lib.protectedRoute(url) && lib.hostname(url) != "localhost"
    && var ip := lib.ip(lib.hostname(url));
       ip == None || !(ip.value.loopback || ip.value.reserved || ip.value.unspecified)
  }

  /** The URL a text stands for, if it may be shown. */
  function Accepted<Url>(lib: Library<Url>, raw: string): (url: Option<Url>)
    ensures url.Some? ==> Public(lib, url.value)
  {
    var text := lib.trim(raw);
    if text == "" then None
    else
      var url := lib.parseUrl(text);
      if url.Some? && Public(lib, url.value) then url else None
  }

  function Budget(depth: nat): nat { if depth > MAX_DEPTH then 0 else MAX_DEPTH + 1 - depth }

  predicate SensitiveKey<Url>(lib: Library<Url>, key: string) {
    var decoded := Decoded(lib.decode, key, MAX_PASSES);
    decoded.None? || lib.namesSecret(decoded.value)
  }

  /** publicExternalURLDepth: the cleaned URL, or None. */
  ghost function ExternalUrl<Url>(lib: Library<Url>, raw: string, depth: nat): Option<string>
    decreases Budget(depth), 4
  {
    var url := Accepted(lib, raw);
    if url.None? then None
    else
      var query := Sanitized(lib, lib.query(url.value), depth);
      if query.None? then None else Some(lib.render(url.value, query.value))
  }

  /** The query without its sensitive keys. */
  ghost function Cleaned<Url>(lib: Library<Url>, query: Query, depth: nat): Query
    decreases Budget(depth), 2
  {
    map key | key in query && !KeyRemoved(lib, query, key, depth) :: query[key]
  }

  ghost predicate KeyRemoved<Url>(lib: Library<Url>, query: Query, key: string, depth: nat)
    requires key in query
    decreases Budget(depth), 1, 2
  {
    SensitiveKey(lib, key) || SomeSensitive(lib, query[key], depth)
  }

  ghost predicate SomeSensitive<Url>(lib: Library<Url>, values: seq<string>, depth: nat)
    decreases Budget(depth), 1, 1
  {
    exists i :: 0 <= i < |values| && SensitiveValue(lib, values[i], depth)
  }

  ghost function Sanitized<Url>(lib: Library<Url>, rawQuery: string, depth: nat): Option<string>
    decreases Budget(depth), 3
  {
    if rawQuery == "" then Some("")
    else
      var query := lib.parseQuery(rawQuery);
      if query.None? then None else Some(lib.encode(Cleaned(lib, query.value, depth)))
  }

  ghost predicate SensitiveValue<Url>(lib: Library<Url>, value: string, depth: nat)
    decreases Budget(depth), 1, 0
  {
    var decoded := Decoded(lib.decode, value, MAX_PASSES);
    if decoded.None? then true
    else
      var text := decoded.value;
      var candidates := lib.candidates(text);
      if candidates != [] && depth >= MAX_DEPTH then true
      else if candidates != [] && SomeChanges(lib, candidates, depth + 1) then true
      else
        var parsed := lib.parse(text);
        if parsed.None? then lib.hasQuerySyntax(text)
        else if parsed.value.fragment != "" then true
        else if parsed.value.rawQuery != "" then SensitiveQuery(lib, parsed.value.rawQuery, depth + 1)
        else lib.hasEquals(text) && SensitiveQuery(lib, text, depth + 1)
  }

  /** Some URL is refused or comes back different. */
  ghost predicate SomeChanges<Url>(lib: Library<Url>, candidates: seq<string>, depth: nat)
    decreases Budget(depth), 5
  {
    exists i :: 0 <= i < |candidates| && ExternalUrl(lib, candidates[i], depth) != Some(candidates[i])
  }

  ghost predicate SensitiveQuery<Url>(lib: Library<Url>, rawQuery: string, depth: nat)
    decreases Budget(depth), if depth > MAX_DEPTH then 0 else 3
  {
    if depth > MAX_DEPTH then true
    else
      var query := lib.parseQuery(rawQuery);
      query.None? || exists key :: key in query.value && KeyRemoved(lib, query.value, key, depth)
  }

  // ----- The functions as the program runs them -----

  method IsSensitiveKey<Url>(lib: Library<Url>, key: string) returns (sensitive: bool)
    ensures sensitive == SensitiveKey(lib, key)
  {
    var decoded, complete := DecodeComponent(lib.decode, key);
    return !complete || lib.namesSecret(decoded);
  }

  method PublicExternalUrl<Url>(lib: Library<Url>, raw: string, depth: nat) returns (clean: Option<string>)
    ensures clean == ExternalUrl(lib, raw, depth)
    ensures clean.Some? <==>
              && lib.trim(raw) != "" && lib.parseUrl(lib.trim(raw)).Some?
              && var url := lib.parseUrl(lib.trim(raw)).value;
                 && lib.host(url) != "" && (lib.scheme(url) == "http" || lib.scheme(url) == "https")
                 && !lib.hasUser(url) && !lib.protectedRoute(url) && lib.hostname(url) != "localhost"
                 && (lib.ip(lib.hostname(url)).Some? ==>
                       var ip := lib.ip(lib.hostname(url)).value; !ip.loopback && !ip.reserved && !ip.unspecified)
                 && (lib.query(url) == "" || lib.parseQuery(lib.query(url)).Some?)
    ensures clean.Some? ==>
              var url := lib.parseUrl(lib.trim(raw)).value;
              && (lib.query(url) == "" ==> clean == Some(lib.render(url, "")))
              && (lib.query(url) != "" ==>
                    var kept := Cleaned(lib, lib.parseQuery(lib.query(url)).value, depth);
                    clean == Some(lib.render(url, lib.encode(kept))))
    decreases Budget(depth), 4
  {
    var text := lib.trim(raw);
    if text == "" {
      return None;
    }
    var parsed := lib.parseUrl(text);
    if parsed.None? || lib.scheme(parsed.value) == "" || lib.host(parsed.value) == "" {
      return None;
    }
    var url := parsed.value;
    if lib.scheme(url) != "http" && lib.scheme(url) != "https" {
      return None;
    }
    if lib.hasUser(url) {
      return None;
    }
    if lib.protectedRoute(url) {
      return None;
    }
    var host := lib.hostname(url);
    if host == "localhost" {
      return None;
    }
    var ip := lib.ip(host);
    if ip.Some? {
      if ip.value.loopback || ip.value.reserved || ip.value.unspecified {
        return None;
      }
    }
    var query := SanitizeQuery(lib, lib.query(url), depth);
    if query.None? {
      return None;
    }
    return Some(lib.render(url, query.value));
  }

  /** Deletes keys while it ranges over them, in whatever order the map yields them. */
  method SanitizeQuery<Url>(lib: Library<Url>, rawQuery: string, depth: nat) returns (clean: Option<string>)
    ensures clean == Sanitized(lib, rawQuery, depth)
    decreases Budget(depth), 3
  {
    if rawQuery == "" {
      return Some("");
    }
    var parsed := lib.parseQuery(rawQuery);
    if parsed.None? {
      return None;
    }
    var original, query, pending := parsed.value, parsed.value, parsed.value.Keys;
    while pending != {}
      invariant pending <= original.Keys
      invariant query ==
                map key | key in original && (key in pending || !KeyRemoved(lib, original, key, depth)) :: original[key]
    {
      var key :| key in pending;
      var removed := RemovesKey(lib, original, key, depth);
      pending := pending - {key};
      if removed {
        query := query - {key};
      }
    }
    assert query == Cleaned(lib, original, depth);
    return Some(lib.encode(query));
  }

  method RemovesKey<Url>(lib: Library<Url>, query: Query, key: string, depth: nat) returns (removed: bool)
    requires key in query
    ensures removed == KeyRemoved(lib, query, key, depth)
    decreases Budget(depth), 1, 2
  {
    removed := IsSensitiveKey(lib, key);
    if removed {
      return;
    }
    removed := HasSensitive(lib, query[key], depth);
  }

  method HasSensitive<Url>(lib: Library<Url>, values: seq<string>, depth: nat) returns (sensitive: bool)
    ensures sensitive == SomeSensitive(lib, values, depth)
    decreases Budget(depth), 1, 1
  {
    for i := 0 to |values|
      invariant forall k :: 0 <= k < i ==> !SensitiveValue(lib, values[k], depth)
    {
      sensitive := ContainsSensitiveData(lib, values[i], depth);
      if sensitive {
        return;
      }
    }
    return false;
  }

  method ContainsSensitiveData<Url>(lib: Library<Url>, value: string, depth: nat) returns (sensitive: bool)
    ensures sensitive == SensitiveValue(lib, value, depth)
    decreases Budget(depth), 1, 0
  {
    var text, complete := DecodeComponent(lib.decode, value);
    if !complete {
      return true;
    }
    var candidates := lib.candidates(text);
    if |candidates| > 0 && depth >= MAX_DEPTH {
      return true;
    }
    if |candidates| > 0 {
      var changed := SomeCandidateChanges(lib, candidates, depth + 1);
      if changed {
        return true;
      }
    }
    var parsed := lib.parse(text);
    if parsed.None? {
      return lib.hasQuerySyntax(text);
    }
    if parsed.value.fragment != "" {
      return true;
    }
    if parsed.value.rawQuery != "" {
      sensitive := QueryContainsSensitiveData(lib, parsed.value.rawQuery, depth + 1);
      return;
    }
    if lib.hasEquals(text) {
      sensitive := QueryContainsSensitiveData(lib, text, depth + 1);
      return;
    }
    return false;
  }

  method SomeCandidateChanges<Url>(lib: Library<Url>, candidates: seq<string>, depth: nat) returns (changed: bool)
    ensures changed == SomeChanges(lib, candidates, depth)
    decreases Budget(depth), 5
  {
    for i := 0 to |candidates|
      invariant forall k :: 0 <= k < i ==> ExternalUrl(lib, candidates[k], depth) == Some(candidates[k])
    {
      var clean := PublicExternalUrl(lib, candidates[i], depth);
      if clean != Some(candidates[i]) {
        return true;
      }
    }
    return false;
  }

  method QueryContainsSensitiveData<Url>(lib: Library<Url>, rawQuery: string, depth: nat) returns (sensitive: bool)
    ensures sensitive == SensitiveQuery(lib, rawQuery, depth)
    decreases Budget(depth), if depth > MAX_DEPTH then 0 else 3
  {
    if depth > MAX_DEPTH {
      return true;
    }
    var parsed := lib.parseQuery(rawQuery);
    if parsed.None? {
      return true;
    }
    var query, pending := parsed.value, parsed.value.Keys;
    while pending != {}
      invariant pending <= query.Keys
      invariant forall key :: key in query && key !in pending ==> !KeyRemoved(lib, query, key, depth)
    {
      var key :| key in pending;
      sensitive := RemovesKey(lib, query, key, depth);
      if sensitive {
        return;
      }
      pending := pending - {key};
    }
    return false;
  }

  // ----- What the recursion guarantees -----

  /** The parsed, nonempty query of an acceptable URL. */
  function QueryOf<Url>(lib: Library<Url>, raw: string): Option<Query> {
    var url := Accepted(lib, raw);
    if url.None? || lib.query(url.value) == "" then None else lib.parseQuery(lib.query(url.value))
  }

  /** Deleting keys from the query of a URL changes the URL: a fact about net/url, not about this program. */
  ghost predicate DeletionShows<Url>(lib: Library<Url>) {
    forall raw, keys: set<string> | QueryOf(lib, raw).Some? &&
        Without(QueryOf(lib, raw).value, keys) != QueryOf(lib, raw).value ::
      lib.render(Accepted(lib, raw).value, lib.encode(Without(QueryOf(lib, raw).value, keys))) != raw
  }

  function Without(query: Query, keys: set<string>): Query { query - keys }

  predicate Proper(query: Query) { forall key :: key in query ==> query[key] != [] }

  /** Parsing undoes encoding, and a parsed query has a value for every key: facts about net/url. */
  ghost predicate EncodingParses<Url>(lib: Library<Url>) {
    && (forall query: Query :: Proper(query) ==> lib.parseQuery(lib.encode(query)) == Some(query))
    && (forall raw :: lib.parseQuery(raw).Some? ==> Proper(lib.parseQuery(raw).value))
  }

  /** A sanitized query passes the check for sensitive data, and sanitizing it again changes nothing. */
  lemma SanitizedIsClean<Url>(lib: Library<Url>, rawQuery: string, depth: nat)
    requires EncodingParses(lib) && depth <= MAX_DEPTH && Sanitized(lib, rawQuery, depth).Some?
    ensures var clean := Sanitized(lib, rawQuery, depth).value;
      && Sanitized(lib, clean, depth) == Some(clean)
      && (clean != "" ==> !SensitiveQuery(lib, clean, depth))
  {
    var clean := Sanitized(lib, rawQuery, depth).value;
    if clean != "" {
      var query := lib.parseQuery(rawQuery).value;
      var kept := Cleaned(lib, query, depth);
      assert Proper(kept) && lib.parseQuery(clean) == Some(kept);
      forall key | key in kept ensures !KeyRemoved(lib, kept, key, depth) {
        assert KeyRemoved(lib, kept, key, depth) <==> KeyRemoved(lib, query, key, depth);
      }
      assert Cleaned(lib, kept, depth) == kept;
    }
  }

  /** A key is sensitive exactly when it names a secret once decoded, or does not decode to a fixed point in time. */
  lemma SensitiveKeyIff<Url>(lib: Library<Url>, key: string)
    ensures SensitiveKey(lib, key) <==>
              forall k: nat :: k <= MAX_PASSES && Settles(lib.decode, key, k) ==>
                lib.namesSecret(Passes(lib.decode, key, k).value)
  {
    DecodedIs(lib.decode, key, MAX_PASSES);
  }

  /** What a query keeps: the keys that are not sensitive and have no sensitive value, with all their values. */
  lemma CleanedExactly<Url>(lib: Library<Url>, query: Query, depth: nat, key: string)
    ensures key in Cleaned(lib, query, depth) <==>
              && key in query && !SensitiveKey(lib, key)
              && forall v :: v in query[key] ==> !SensitiveValue(lib, v, depth)
    ensures key in Cleaned(lib, query, depth) ==> Cleaned(lib, query, depth)[key] == query[key]
  {
    if key in query {
      forall v | v in query[key] && SensitiveValue(lib, v, depth) ensures SomeSensitive(lib, query[key], depth) {
        OneSensitive(lib, query[key], v, depth);
      }
      if SomeSensitive(lib, query[key], depth) {
        var i :| 0 <= i < |query[key]| && SensitiveValue(lib, query[key][i], depth);
        assert query[key][i] in query[key];
      }
    }
  }

  /** A text without links, parameters or a fragment is not sensitive. */
  lemma PlainTextIsKept<Url>(lib: Library<Url>, value: string, depth: nat)
    requires lib.decode(value) == Some(value) && lib.candidates(value) == [] && !lib.hasEquals(value)
    requires if lib.parse(value).Some? then lib.parse(value).value == Parts("", "") else !lib.hasQuerySyntax(value)
    ensures !SensitiveValue(lib, value, depth)
  {}

  /** A harmless link in a value is not sensitive: one that comes back as it was, in a text that parses without a
      fragment and whose own query holds nothing sensitive. */
  lemma HarmlessLinkIsKept<Url>(lib: Library<Url>, value: string, depth: nat)
    requires depth < 4 && lib.decode(value) == Some(value)
    requires forall c :: c in lib.candidates(value) ==> ExternalUrl(lib, c, depth + 1) == Some(c)
    requires lib.parse(value).Some? && lib.parse(value).value.fragment == ""
    requires var rawQuery := lib.parse(value).value.rawQuery;
             if rawQuery != "" then !SensitiveQuery(lib, rawQuery, depth + 1)
             else lib.hasEquals(value) ==> !SensitiveQuery(lib, value, depth + 1)
    ensures !SensitiveValue(lib, value, depth)
  {
    assert !SomeChanges(lib, lib.candidates(value), depth + 1);
  }

  /** Four levels down no link is followed any more, and one level further no query: both are refused. */
  lemma DeepNestingIsRefused<Url>(lib: Library<Url>, value: string, text: string, rawQuery: string, depth: nat)
    ensures depth >= 4 && Decoded(lib.decode, value, MAX_PASSES) == Some(text) && lib.candidates(text) != [] ==>
              SensitiveValue(lib, value, depth)
    ensures depth > 4 ==> SensitiveQuery(lib, rawQuery, depth)
  {}

  /** `value` hides something up to `n` levels deep: it is undecodable; a URL in it is refused, or has a query that
      hides something one level less deep; or its own text does. */
  ghost predicate Hides<Url>(lib: Library<Url>, value: string, n: nat)
    decreases n, 3
  {
    var decoded := Decoded(lib.decode, value, MAX_PASSES);
    || decoded.None?
    || (n > 0 && exists c :: c in lib.candidates(decoded.value) && HidesInUrl(lib, c, n - 1))
    || HidesInText(lib, decoded.value, n)
  }

  ghost predicate HidesInUrl<Url>(lib: Library<Url>, raw: string, n: nat)
    decreases n, 5
  {
    var url := Accepted(lib, raw);
    url.None? || (lib.query(url.value) != "" && HidesInQuery(lib, lib.query(url.value), n))
  }

  /** The text as a relative reference: a fragment, a query of its own, or bare parameters; or it cannot be parsed and
      looks like a query. */
  ghost predicate HidesInText<Url>(lib: Library<Url>, text: string, n: nat)
    decreases n, 2
  {
    var parsed := lib.parse(text);
    || (parsed.None? && lib.hasQuerySyntax(text))
    || (parsed.Some? && parsed.value.fragment != "")
    || (parsed.Some? && parsed.value.rawQuery != "" && n > 0 && HidesInQuery(lib, parsed.value.rawQuery, n - 1))
    || (parsed.Some? && parsed.value.rawQuery == "" && lib.hasEquals(text) && n > 0 && HidesInQuery(lib, text, n - 1))
  }

  /** A query that cannot be parsed, or has a key that is sensitive or whose value hides something. */
  ghost predicate HidesInQuery<Url>(lib: Library<Url>, rawQuery: string, n: nat)
    decreases n, 4
  {
    var query := lib.parseQuery(rawQuery);
    query.None? || exists key | key in query.value ::
      SensitiveKey(lib, key) || exists v :: v in query.value[key] && Hides(lib, v, n)
  }

  /** A URL that loses a key does not come back as it was. */
  lemma RemovalShows<Url>(lib: Library<Url>, raw: string, key: string, depth: nat)
    requires DeletionShows(lib) && QueryOf(lib, raw).Some? && key in QueryOf(lib, raw).value
    requires KeyRemoved(lib, QueryOf(lib, raw).value, key, depth)
    ensures ExternalUrl(lib, raw, depth) != Some(raw)
  {
    var query := QueryOf(lib, raw).value;
    var kept := Cleaned(lib, query, depth);
    assert key !in kept && kept == Without(query, query.Keys - kept.Keys);
  }

  lemma OneSensitive<Url>(lib: Library<Url>, values: seq<string>, value: string, depth: nat)
    requires value in values && SensitiveValue(lib, value, depth)
    ensures SomeSensitive(lib, values, depth)
  {
    var k :| 0 <= k < |values| && values[k] == value;
  }

  lemma OneChanges<Url>(lib: Library<Url>, candidates: seq<string>, candidate: string, depth: nat)
    requires candidate in candidates && ExternalUrl(lib, candidate, depth) != Some(candidate)
    ensures SomeChanges(lib, candidates, depth)
  {
    var k :| 0 <= k < |candidates| && candidates[k] == candidate;
  }

  /** A sensitive key in the query of a relative link, or in bare parameters, is found at every depth. */
  lemma RelativeQueryIsFound<Url>(lib: Library<Url>, value: string, text: string, key: string, depth: nat)
    requires Decoded(lib.decode, value, MAX_PASSES) == Some(text) && lib.parse(text).Some?
    requires var parts := lib.parse(text).value;
      var rawQuery := if parts.rawQuery != "" then parts.rawQuery else text;
      && (parts.rawQuery == "" ==> lib.hasEquals(text))
      && (lib.parseQuery(rawQuery).Some? ==> key in lib.parseQuery(rawQuery).value && SensitiveKey(lib, key))
    ensures SensitiveValue(lib, value, depth)
  {
    var parts := lib.parse(text).value;
    var rawQuery := if parts.rawQuery != "" then parts.rawQuery else text;
    var query := lib.parseQuery(rawQuery);
    assert query.Some? ==> KeyRemoved(lib, query.value, key, depth + 1);
    TextIsFound(lib, value, depth);
  }

  /** Nothing sensitive survives by being wrapped in URLs, relative links or bare parameters, however deep: it is
      found, or the nesting is refused. */
  lemma {:induction false} NestingHidesNothing<Url>(lib: Library<Url>, value: string, n: nat, depth: nat)
    requires DeletionShows(lib) && Hides(lib, value, n)
    ensures SensitiveValue(lib, value, depth)
    decreases n, 3
  {
    var decoded := Decoded(lib.decode, value, MAX_PASSES);
    if decoded.Some? {
      if HidesInText(lib, decoded.value, n) {
        HiddenTextIsFound(lib, value, n, depth);
      } else {
        var c := HidingUrl(lib, value, n);
        HiddenUrlChanges(lib, c, n - 1, depth + 1);
        OneChanges(lib, lib.candidates(decoded.value), c, depth + 1);
        FoundOrRefused(lib, value, depth);
      }
    }
  }

  lemma HidingUrl<Url>(lib: Library<Url>, value: string, n: nat) returns (c: string)
    requires Hides(lib, value, n) && Decoded(lib.decode, value, MAX_PASSES).Some?
    requires !HidesInText(lib, Decoded(lib.decode, value, MAX_PASSES).value, n)
    ensures n > 0 && c in lib.candidates(Decoded(lib.decode, value, MAX_PASSES).value) && HidesInUrl(lib, c, n - 1)
  {
    c :| c in lib.candidates(Decoded(lib.decode, value, MAX_PASSES).value) && HidesInUrl(lib, c, n - 1);
  }

  lemma FoundOrRefused<Url>(lib: Library<Url>, value: string, depth: nat)
    requires var decoded := Decoded(lib.decode, value, MAX_PASSES);
      decoded.None? || (lib.candidates(decoded.value) != [] && depth >= MAX_DEPTH)
      || SomeChanges(lib, lib.candidates(decoded.value), depth + 1)
    ensures SensitiveValue(lib, value, depth)
  {}

  lemma {:induction false} HiddenTextIsFound<Url>(lib: Library<Url>, value: string, n: nat, depth: nat)
    requires DeletionShows(lib) && Decoded(lib.decode, value, MAX_PASSES).Some?
    requires HidesInText(lib, Decoded(lib.decode, value, MAX_PASSES).value, n)
    ensures SensitiveValue(lib, value, depth)
    decreases n, 2
  {
    var text := Decoded(lib.decode, value, MAX_PASSES).value;
    var parsed := lib.parse(text);
    if parsed.Some? && parsed.value.fragment == "" {
      HiddenQueryIsFound(lib, if parsed.value.rawQuery != "" then parsed.value.rawQuery else text, n - 1, depth + 1);
    }
    TextIsFound(lib, value, depth);
  }

  lemma TextIsFound<Url>(lib: Library<Url>, value: string, depth: nat)
    requires Decoded(lib.decode, value, MAX_PASSES).Some?
    requires var text := Decoded(lib.decode, value, MAX_PASSES).value;
      var parsed := lib.parse(text);
      || (parsed.None? && lib.hasQuerySyntax(text))
      || (parsed.Some? && parsed.value.fragment != "")
      || (parsed.Some? && parsed.value.rawQuery != "" && SensitiveQuery(lib, parsed.value.rawQuery, depth + 1))
      || (parsed.Some? && parsed.value.rawQuery == "" && lib.hasEquals(text) && SensitiveQuery(lib, text, depth + 1))
    ensures SensitiveValue(lib, value, depth)
  {}

  lemma {:induction false} HiddenQueryIsFound<Url>(lib: Library<Url>, rawQuery: string, n: nat, depth: nat)
    requires DeletionShows(lib) && HidesInQuery(lib, rawQuery, n)
    ensures SensitiveQuery(lib, rawQuery, depth)
    decreases n, 4
  {
    if depth <= MAX_DEPTH && lib.parseQuery(rawQuery).Some? {
      var key := HiddenKeyIsRemoved(lib, rawQuery, n, depth);
    }
  }

  lemma {:induction false} HiddenKeyIsRemoved<Url>(lib: Library<Url>, rawQuery: string, n: nat, depth: nat)
    returns (key: string)
    requires DeletionShows(lib) && HidesInQuery(lib, rawQuery, n) && lib.parseQuery(rawQuery).Some?
    ensures key in lib.parseQuery(rawQuery).value && KeyRemoved(lib, lib.parseQuery(rawQuery).value, key, depth)
    decreases n, 4, 0
  {
    var query := lib.parseQuery(rawQuery).value;
    key :| key in query && (SensitiveKey(lib, key) || exists v :: v in query[key] && Hides(lib, v, n));
    if !SensitiveKey(lib, key) {
      var v :| v in query[key] && Hides(lib, v, n);
      NestingHidesNothing(lib, v, n, depth);
      OneSensitive(lib, query[key], v, depth);
    }
  }

  lemma {:induction false} HiddenUrlChanges<Url>(lib: Library<Url>, raw: string, n: nat, depth: nat)
    requires DeletionShows(lib) && HidesInUrl(lib, raw, n)
    ensures ExternalUrl(lib, raw, depth) != Some(raw)
    decreases n, 5
  {
    var url := Accepted(lib, raw);
    if url.Some? && lib.parseQuery(lib.query(url.value)).Some? {
      var key := HiddenKeyIsRemoved(lib, lib.query(url.value), n, depth);
      RemovalShows(lib, raw, key, depth);
    }
  }
}
