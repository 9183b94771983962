/** The route-call context: everything needed to build the request for one
    route call, hydrated from the raw command-line values. The pure functions
    below specify each hydration step; the class RouteCallContext performs
    them on its fields and is proved to follow them. */
module CallContext {
  import opened Wrappers
  import opened Text
  import opened PhpArrays
  import opened RouteMethods
  import opened LaraCallExceptions

  // ---------------------------------------------------------------------------
  // The application around the context

  /** A registered route: its name (if any), its URI template without the
      leading slash, its HTTP methods as registered and its parameter names. */
  datatype Route = Route(name: Option<string>, uri: string, methods: seq<string>, paramNames: seq<string>)

  /** An authenticatable entity, by identity only. */
  datatype Entity = Entity(handle: nat)

  /** The application the context runs in: the router's route table, the
      acting-as configuration, the entity lookup and the PHP built-ins.
      `find(entityClass, column, identifier)` is the first entity whose
      column holds the identifier: a query on the configured entity class,
      or the auth user provider when no class is given (None). */
  datatype Runtime = Runtime(
    routeTable: seq<Route>,
    actingAsEntity: Option<string>,
    actingAsIdentifiers: seq<string>,
    find: (Option<string>, string, Value) -> Option<Entity>,
    php: Php)

  /** The identifier columns the configuration file ships with. */
  const DefaultIdentifierColumns: seq<string> := ["id", "email"]

  // ---------------------------------------------------------------------------
  // resolveRoute

  /** The route getByName returns: the router's name index keeps the last
      route registered under a name. */
  function LastNamed(table: seq<Route>, name: string): (r: Option<nat>)
    ensures r.Some? ==> r.value < |table| && table[r.value].name == Some(name)
                        && forall j :: r.value < j < |table| ==> table[j].name != Some(name)
    ensures r.None? ==> forall j :: 0 <= j < |table| ==> table[j].name != Some(name)
  {
    if table == [] then None
    else if table[|table| - 1].name == Some(name) then Some(|table| - 1)
    else LastNamed(table[..|table| - 1], name)
  }

  /** A route the URI scan accepts: same URI, and the method is among the
      route's methods when one is specified. */
  predicate UriMatches(route: Route, uri: string, specified: Option<Method>) {
    route.uri == uri && (specified.None? || RouteMethods.Value(specified.value) in route.methods)
  }

  /** The first route of the table the URI scan accepts. */
  function FirstUriMatch(table: seq<Route>, uri: string, specified: Option<Method>): (r: Option<nat>)
    ensures r.Some? ==> r.value < |table| && UriMatches(table[r.value], uri, specified)
                        && forall j :: 0 <= j < r.value ==> !UriMatches(table[j], uri, specified)
    ensures r.None? ==> forall j :: 0 <= j < |table| ==> !UriMatches(table[j], uri, specified)
  {
    if table == [] then None
    else if UriMatches(table[0], uri, specified) then Some(0)
    else match FirstUriMatch(table[1..], uri, specified)
      case None => None
      case Some(i) => Some(i + 1)
  }

  /** The URI the scan looks for: the given one without one leading slash. */
  function ScanUri(routeUri: string): (r: string)
    ensures StartsWith(routeUri, "/") ==> "/" + r == routeUri
    ensures !StartsWith(routeUri, "/") ==> r == routeUri
  {
    if StartsWith(routeUri, "/") then routeUri[1..] else routeUri
  }

  /** resolveRoute: by name when a name is given, otherwise by URI. */
  function ResolvedRoute(table: seq<Route>, routeName: Option<string>, routeUri: Option<string>,
                         specified: Option<Method>): Result<Route, Thrown>
    requires TruthyText(routeName) || TruthyText(routeUri)
  {
    if TruthyText(routeName) then
      match LastNamed(table, routeName.value)
      case Some(i) => Ok(table[i])
      case None => Err(LaraCall(RouteNotFound(routeName.value)))
    else
      match FirstUriMatch(table, ScanUri(routeUri.value), specified)
      case Some(i) => Ok(table[i])
      case None => Err(LaraCall(RouteNotFound(routeUri.value)))
  }

  /** Lookup by name is exact and takes the last route registered under the
      name; without one it fails naming the route name. */
  lemma ResolveByName(table: seq<Route>, routeName: Option<string>, routeUri: Option<string>, specified: Option<Method>)
    requires TruthyText(routeName)
    ensures var r := ResolvedRoute(table, routeName, routeUri, specified);
      && (r.Ok? <==> exists j :: 0 <= j < |table| && table[j].name == routeName)
      && (r.Ok? ==> r.value.name == routeName
                    && exists j :: 0 <= j < |table| && table[j] == r.value
                                   && forall k :: j < k < |table| ==> table[k].name != routeName)
      && (r.Err? ==> r.error == LaraCall(RouteNotFound(routeName.value)))
  {
    var i := LastNamed(table, routeName.value);
    if i.Some? {
      assert table[i.value] == ResolvedRoute(table, routeName, routeUri, specified).value;
    }
  }

  /** Lookup by URI strips exactly one leading slash, returns the first route
      with that URI that allows the specified method, and otherwise fails
      naming the URI as given. */
  lemma ResolveByUri(table: seq<Route>, routeName: Option<string>, routeUri: Option<string>, specified: Option<Method>)
    requires !TruthyText(routeName) && TruthyText(routeUri)
    ensures var r := ResolvedRoute(table, routeName, routeUri, specified);
      var uri := ScanUri(routeUri.value);
      && (r.Ok? <==> exists j :: 0 <= j < |table| && UriMatches(table[j], uri, specified))
      && (r.Ok? ==> exists j :: 0 <= j < |table| && table[j] == r.value && UriMatches(table[j], uri, specified)
                                 && forall k :: 0 <= k < j ==> !UriMatches(table[k], uri, specified))
      && (r.Err? ==> r.error == LaraCall(RouteNotFound(routeUri.value)))
  {
    var i := FirstUriMatch(table, ScanUri(routeUri.value), specified);
    if i.Some? {
      assert table[i.value] == ResolvedRoute(table, routeName, routeUri, specified).value;
    }
  }

  // ---------------------------------------------------------------------------
  // resolveRouteMethod

  /** resolveRouteMethod for a route and the context's method: the value the
      method field holds afterwards (the unspecified case sets GET before it
      reads the route), and the method or error it returns. */
  function MethodResolution(route: Route, specified: Option<Method>): (Option<Method>, Result<Method, Thrown>) {
    if specified.Some? then
      if Upper(RouteMethods.Value(specified.value)) in route.methods then (specified, Ok(specified.value))
      else
        var shown := if route.name.Some? then route.name.value else route.uri;
        (specified, Err(LaraCall(RouteMethodNotAllowed(shown, RouteMethods.Value(specified.value)))))
    else if route.methods == [] then
      (Some(GET), Err(PhpWarning("Undefined array key 0")))
    else
      match TryFrom(Upper(route.methods[0]))
      case Some(m) => (Some(GET), Ok(m))
      case None => (Some(GET), Err(ValueError("not a valid backing value for enum RouteMethod")))
  }

  lemma {:induction false} UpperValue(m: Method)
    ensures Upper(RouteMethods.Value(m)) == RouteMethods.Value(m)
  {
    var v := RouteMethods.Value(m);
    assert forall i :: 0 <= i < |v| ==> 'A' <= v[i] <= 'Z';
  }

  /** A specified method is kept if the route allows it and otherwise fails
      naming the route (its name, or its URI when unnamed) and the method; it
      never falls back to another method. Without one, the route's first
      declared method is used. */
  lemma MethodResolutionSpec(route: Route, specified: Option<Method>)
    ensures var (field, r) := MethodResolution(route, specified);
      && (specified.Some? ==>
            && field == specified
            && (r.Ok? <==> RouteMethods.Value(specified.value) in route.methods)
            && (r.Ok? ==> r.value == specified.value)
            && (r.Err? ==> r.error == LaraCall(RouteMethodNotAllowed(
                              if route.name.Some? then route.name.value else route.uri, RouteMethods.Value(specified.value)))))
      && (specified.None? ==>
            && field == Some(GET)
            && (r.Ok? <==> route.methods != [] && exists m :: RouteMethods.Value(m) == Upper(route.methods[0]))
            && (r.Ok? ==> RouteMethods.Value(r.value) == Upper(route.methods[0])))
  {
    if specified.Some? {
      UpperValue(specified.value);
    } else if route.methods != [] {
      var t := TryFrom(Upper(route.methods[0]));
      if t.Some? {
        assert RouteMethods.Value(t.value) == Upper(route.methods[0]);
      }
    }
  }

  // ---------------------------------------------------------------------------
  // generatePopulatedUriAndParameters

  /** The placeholder a parameter key fills: `{key}`. */
  function Placeholder(key: Key): (p: string)
    ensures p != []
  {
    "{" + KeyText(key) + "}"
  }

  /** A parameter whose key is one of the route's parameter names. */
  predicate NamesRouteParameter(paramNames: seq<string>, key: Key) {
    KeyText(key) in paramNames
  }

  /** The foreach of generatePopulatedUriAndParameters over `params`, from the
      URI and query parameters so far: the query parameters afterwards (kept
      as far as the loop got when it throws) and the populated URI or the
      error. */
  function Populate(paramNames: seq<string>, params: Entries<Value>, uri: string, query: Entries<Value>)
    : (Entries<Value>, Result<string, Thrown>)
    decreases |params|
  {
    if params == [] then (query, Ok(uri))
    else
      var key := params[0].0;
      var value := params[0].1;
      if NamesRouteParameter(paramNames, key) then
        if value.VStr? then Populate(paramNames, params[1..], ReplaceAll(uri, Placeholder(key), value.s), query)
        else (query, Err(TypeError("str_replace(): Argument #2 ($replace) must be of type array|string")))
      else Populate(paramNames, params[1..], uri, Put(query, key, value))
  }

  /** The parameters that are not route parameters, in order. */
  function QueryEntries(paramNames: seq<string>, params: Entries<Value>): (r: Entries<Value>)
    ensures forall i :: 0 <= i < |r| ==> !NamesRouteParameter(paramNames, r[i].0) && r[i] in params
  {
    if params == [] then []
    else if NamesRouteParameter(paramNames, params[0].0) then QueryEntries(paramNames, params[1..])
    else [params[0]] + QueryEntries(paramNames, params[1..])
  }

  /** Populating fails exactly when a route parameter is given a value that is
      not a string (str_replace under strict types). */
  lemma {:induction false} PopulateFails(paramNames: seq<string>, params: Entries<Value>, uri: string, query: Entries<Value>)
    ensures Populate(paramNames, params, uri, query).1.Err?
        <==> exists i :: 0 <= i < |params| && NamesRouteParameter(paramNames, params[i].0) && !params[i].1.VStr?
    decreases |params|
  {
    if params != [] {
      var key, value := params[0].0, params[0].1;
      if NamesRouteParameter(paramNames, key) && value.VStr? {
        PopulateFails(paramNames, params[1..], ReplaceAll(uri, Placeholder(key), value.s), query);
      } else if !NamesRouteParameter(paramNames, key) {
        PopulateFails(paramNames, params[1..], uri, Put(query, key, value));
      }
      if exists i :: 1 <= i < |params| && NamesRouteParameter(paramNames, params[i].0) && !params[i].1.VStr? {
        var i :| 1 <= i < |params| && NamesRouteParameter(paramNames, params[i].0) && !params[i].1.VStr?;
        assert params[1..][i - 1] == params[i];
      }
      if exists i :: 0 <= i < |params| - 1 && NamesRouteParameter(paramNames, params[1..][i].0) && !params[1..][i].1.VStr? {
        var i :| 0 <= i < |params| - 1 && NamesRouteParameter(paramNames, params[1..][i].0) && !params[1..][i].1.VStr?;
        assert params[i + 1] == params[1..][i];
      }
    }
  }

  /** No route parameter reaches the query parameters: every key there was
      there before or is a supplied parameter that names no route parameter. */
  lemma {:induction false} PopulateQueryKeys(paramNames: seq<string>, params: Entries<Value>, uri: string, query: Entries<Value>, k: Key)
    requires HasKey(Populate(paramNames, params, uri, query).0, k)
    ensures HasKey(query, k) || (HasKey(params, k) && !NamesRouteParameter(paramNames, k))
    decreases |params|
  {
    if params != [] {
      var key, value := params[0].0, params[0].1;
      if NamesRouteParameter(paramNames, key) {
        if value.VStr? {
          PopulateQueryKeys(paramNames, params[1..], ReplaceAll(uri, Placeholder(key), value.s), query, k);
        }
      } else {
        PopulateQueryKeys(paramNames, params[1..], uri, Put(query, key, value), k);
        if HasKey(params[1..], k) {
          var i :| 0 <= i < |params[1..]| && params[1..][i].0 == k;
          assert params[i + 1].0 == k;
        }
        if HasKey(Put(query, key, value), k) && k != key {
          assert Get(Put(query, key, value), k) == Get(query, k);
        }
        if k == key {
          assert params[0].0 == k;
        }
      }
    }
  }

  /** No key of `a` is a key of `b`. */
  predicate KeysApart<V, W>(a: Entries<V>, b: Entries<W>) {
    forall i, j :: 0 <= i < |a| && 0 <= j < |b| ==> a[i].0 != b[j].0
  }

  /** With distinct parameter keys, none of them already a query parameter,
      every parameter that names no route parameter is appended to the query
      parameters, in order. */
  lemma {:induction false} PopulateQueryOrder(paramNames: seq<string>, params: Entries<Value>, uri: string, query: Entries<Value>)
    requires UniqueKeys(params) && KeysApart(query, params)
    requires Populate(paramNames, params, uri, query).1.Ok?
    ensures Populate(paramNames, params, uri, query).0 == query + QueryEntries(paramNames, params)
    decreases |params|
  {
    if params != [] {
      var uri', query' := PopulateNext(paramNames, params, uri, query);
      ApartStep(params, query, query');
      PopulateQueryOrder(paramNames, params[1..], uri', query');
    }
  }

  /** The state after the first iteration of a loop that does not fail. */
  lemma PopulateNext(paramNames: seq<string>, params: Entries<Value>, uri: string, query: Entries<Value>)
    returns (uri': string, query': Entries<Value>)
    requires params != [] && KeysApart(query, params)
    requires Populate(paramNames, params, uri, query).1.Ok?
    ensures Populate(paramNames, params, uri, query) == Populate(paramNames, params[1..], uri', query')
    ensures query' == query || query' == Put(query, params[0].0, params[0].1)
    ensures query + QueryEntries(paramNames, params) == query' + QueryEntries(paramNames, params[1..])
  {
    var key, value := params[0].0, params[0].1;
    if NamesRouteParameter(paramNames, key) {
      assert value.VStr?;
      uri', query' := ReplaceAll(uri, Placeholder(key), value.s), query;
    } else {
      uri', query' := uri, Put(query, key, value);
      QueryAppend(paramNames, params, query);
    }
  }

  /** A parameter that names no route parameter and is not yet a query
      parameter is appended to the query parameters. */
  lemma QueryAppend(paramNames: seq<string>, params: Entries<Value>, query: Entries<Value>)
    requires params != [] && !NamesRouteParameter(paramNames, params[0].0) && KeysApart(query, params)
    ensures query + QueryEntries(paramNames, params)
         == Put(query, params[0].0, params[0].1) + QueryEntries(paramNames, params[1..])
  {
    NotYetQuery(query, params);
    assert QueryEntries(paramNames, params) == [params[0]] + QueryEntries(paramNames, params[1..]);
    AppendNew(query, params[0], QueryEntries(paramNames, params[1..]));
  }

  /** The first parameter is not yet a query parameter. */
  lemma NotYetQuery(query: Entries<Value>, params: Entries<Value>)
    requires params != [] && KeysApart(query, params)
    ensures !HasKey(query, params[0].0)
  {
    assert forall i :: 0 <= i < |query| ==> query[i].0 != params[0].0;
  }

  /** Assigning a new key before more entries is appending it before them. */
  lemma AppendNew(query: Entries<Value>, entry: (Key, Value), rest: Entries<Value>)
    requires !HasKey(query, entry.0)
    ensures query + ([entry] + rest) == Put(query, entry.0, entry.1) + rest
  {
    PutPositions(query, entry.0, entry.1);
    assert query + ([entry] + rest) == (query + [entry]) + rest;
  }

  /** One step of the loop keeps the remaining keys apart from the query. */
  lemma ApartStep(params: Entries<Value>, query: Entries<Value>, query': Entries<Value>)
    requires params != [] && UniqueKeys(params) && KeysApart(query, params)
    requires query' == query || query' == Put(query, params[0].0, params[0].1)
    ensures UniqueKeys(params[1..]) && KeysApart(query', params[1..])
    ensures query' != query ==> query' == query + [params[0]]
  {
    var rest := params[1..];
    assert forall i :: 0 <= i < |rest| ==> rest[i] == params[i + 1];
    if query' != query {
      assert !HasKey(query, params[0].0);
      PutPositions(query, params[0].0, params[0].1);
    }
  }

  /** When no parameter names a route parameter, the URI template is kept
      as it is, placeholders included. */
  lemma {:induction false} PopulateKeepsUri(paramNames: seq<string>, params: Entries<Value>, uri: string, query: Entries<Value>)
    requires forall i :: 0 <= i < |params| ==> !NamesRouteParameter(paramNames, params[i].0)
    ensures Populate(paramNames, params, uri, query).1 == Ok(uri)
    decreases |params|
  {
    if params != [] {
      assert forall i :: 0 <= i < |params| - 1 ==> params[1..][i] == params[i + 1];
      PopulateKeepsUri(paramNames, params[1..], uri, Put(query, params[0].0, params[0].1));
    }
  }

  /** Route parameter names are plain words, without braces. */
  predicate PlainNames(paramNames: seq<string>) {
    forall i :: 0 <= i < |paramNames| ==> BraceFree(paramNames[i])
  }

  /** A placeholder whose parameter was not supplied stays in the URI. */
  lemma {:induction false} UnsuppliedPlaceholderStays(paramNames: seq<string>, params: Entries<Value>, uri: string,
                                                      query: Entries<Value>, name: string, k: nat)
    requires PlainNames(paramNames) && BraceFree(name)
    requires forall i :: 0 <= i < |params| ==> KeyText(params[i].0) != name
    requires OccursAt("{" + name + "}", uri, k)
    requires Populate(paramNames, params, uri, query).1.Ok?
    ensures Occurs("{" + name + "}", Populate(paramNames, params, uri, query).1.value)
    decreases |params|
  {
    if params == [] {
      assert OccursAt("{" + name + "}", Populate(paramNames, params, uri, query).1.value, k);
    } else {
      var key, value := params[0].0, params[0].1;
      assert forall i :: 0 <= i < |params| - 1 ==> params[1..][i] == params[i + 1];
      if NamesRouteParameter(paramNames, key) {
        var uri' := ReplaceAll(uri, Placeholder(key), value.s);
        PlaceholderSurvives(uri, name, KeyText(key), value.s, k);
        var m :| 0 <= m && OccursAt("{" + name + "}", uri', m);
        UnsuppliedPlaceholderStays(paramNames, params[1..], uri', query, name, m);
      } else {
        UnsuppliedPlaceholderStays(paramNames, params[1..], uri, Put(query, key, value), name, k);
      }
    }
  }

  // ---------------------------------------------------------------------------
  // normalizeRequestBody and resolveBody

  /** The values the body property can hold: null, a string or an array. */
  predicate BodyTyped(body: Value) {
    body.VNull? || body.VStr? || body.VArr?
  }

  /** normalizeRequestBody: a truthy string body is replaced by its JSON
      decoding (to arrays when it starts with `{`); a failed decoding keeps
      it; a decoding the property cannot hold is a TypeError. */
  function NormalizedBody(php: Php, body: Value): (r: Result<Value, Thrown>)
    ensures !Truthy(body) || body.VArr? ==> r == Ok(body)
    ensures body.VStr? && Truthy(body) && php.jsonDecode(body.s, StartsWith(body.s, "{")).None? ==> r == Ok(body)
    ensures r.Ok? && r.value != body ==> body.VStr? && Some(r.value) == php.jsonDecode(body.s, StartsWith(body.s, "{"))
    ensures r.Ok? && BodyTyped(body) ==> BodyTyped(r.value)
  {
    if !Truthy(body) || !body.VStr? then Ok(body)
    else
      match php.jsonDecode(body.s, StartsWith(body.s, "{"))
      case None => Ok(body)
      case Some(decoded) => if BodyTyped(decoded) then Ok(decoded) else Err(TypeError("Cannot assign decoded JSON to property $body"))
  }

  /** resolveBody: no content for a falsy body, the JSON encoding of an array,
      a string as it is. */
  function ResolvedBody(php: Php, body: Value): (r: Result<Option<string>, Thrown>)
    ensures r == Ok(None) <==> !Truthy(body)
    ensures Truthy(body) && body.VStr? ==> r == Ok(Some(body.s))
    ensures Truthy(body) && body.VArr? ==> (r.Ok? <==> php.jsonEncode(body).Some?)
    ensures Truthy(body) && body.VArr? && r.Ok? ==> r.value == php.jsonEncode(body)
    ensures r.Err? ==> r.error.TypeError?
  {
    if !Truthy(body) then Ok(None)
    else if body.VArr? then
      match php.jsonEncode(body)
      case Some(text) => Ok(Some(text))
      case None => Err(TypeError("Return value must be of type ?string, false returned"))
    else if body.VStr? then Ok(Some(body.s))
    else Err(TypeError("Return value must be of type ?string"))
  }

  // ---------------------------------------------------------------------------
  // parseHeaders and the server variables

  /** The CGI meta-variable name of an HTTP header field (section 4.1.18 of
      RFC 3875): `HTTP_`, then the name upper-cased with `-` turned into `_`. */
  function HeaderVariable(name: string): (r: string)
    ensures StartsWith(r, "HTTP_") && |r| == 5 + |name|
  {
    "HTTP_" + Upper(ReplaceChar(name, '-', '_'))
  }

  /** parseHeaders over the header values from `headers` on, with the
      variables so far in `acc`: each string value holding `=` is split at
      its first `=` into a header name and value; a value that is not a
      string is a TypeError (str_contains under strict types). */
  function ParsedHeaders(headers: Entries<Value>, acc: Entries<string>): Result<Entries<string>, Thrown>
    decreases |headers|
  {
    if headers == [] then Ok(acc)
    else
      var value := headers[0].1;
      if !value.VStr? then Err(TypeError("str_contains(): Argument #1 ($haystack) must be of type string"))
      else if '=' in value.s then
        var (name, text) := SplitFirst(value.s, '=');
        ParsedHeaders(headers[1..], Put(acc, StrKey(HeaderVariable(name)), text))
      else ParsedHeaders(headers[1..], acc)
  }

  /** Every key is a string key naming an HTTP_ variable. */
  predicate HttpVariables(vars: Entries<string>) {
    forall i :: 0 <= i < |vars| ==> vars[i].0.StrKey? && StartsWith(vars[i].0.s, "HTTP_")
  }

  /** The header value at position `i` sets variable `k`: it is a string
      holding `=`, and the text before its first `=` names `k`. */
  predicate SetsVariable(headers: Entries<Value>, i: int, k: Key) {
    && 0 <= i < |headers| && headers[i].1.VStr? && '=' in headers[i].1.s
    && StrKey(HeaderVariable(SplitFirst(headers[i].1.s, '=').0)) == k
  }

  /** The text after the first `=` of the last header value that sets `k`,
      if any does. */
  function LastSetting(headers: Entries<Value>, k: Key): Option<string>
    decreases |headers|
  {
    if headers == [] then None
    else match LastSetting(headers[1..], k)
      case Some(text) => Some(text)
      case None => if SetsVariable(headers, 0, k) then Some(SplitFirst(headers[0].1.s, '=').1) else None
  }

  /** The header value at position `i` is the last one that sets `k`. */
  predicate LastSetter(headers: Entries<Value>, i: int, k: Key) {
    SetsVariable(headers, i, k) && forall j :: i < j < |headers| ==> !SetsVariable(headers, j, k)
  }

  /** LastSetting finds nothing exactly when no header value sets `k`, and
      otherwise the text of the last value that sets `k`. */
  lemma LastSettingSpec(headers: Entries<Value>, k: Key)
    ensures LastSetting(headers, k).None? <==> forall i :: 0 <= i < |headers| ==> !SetsVariable(headers, i, k)
    ensures LastSetting(headers, k).Some? ==> exists i ::
      LastSetter(headers, i, k) && LastSetting(headers, k).value == SplitFirst(headers[i].1.s, '=').1
  {
    LastSettingNone(headers, k);
    LastSettingFound(headers, k);
  }

  lemma {:induction false} LastSettingNone(headers: Entries<Value>, k: Key)
    ensures LastSetting(headers, k).None? <==> forall i :: 0 <= i < |headers| ==> !SetsVariable(headers, i, k)
    decreases |headers|
  {
    if headers != [] {
      var rest := headers[1..];
      LastSettingNone(rest, k);
      SetsVariableShift(headers, k);
      assert LastSetting(headers, k).None? <==> LastSetting(rest, k).None? && !SetsVariable(headers, 0, k);
    }
  }

  lemma {:induction false} LastSettingFound(headers: Entries<Value>, k: Key)
    ensures LastSetting(headers, k).Some? ==> exists i ::
      LastSetter(headers, i, k) && LastSetting(headers, k).value == SplitFirst(headers[i].1.s, '=').1
    decreases |headers|
  {
    if headers != [] {
      var rest := headers[1..];
      if LastSetting(rest, k).Some? {
        LastSettingFound(rest, k);
        var i :| LastSetter(rest, i, k) && LastSetting(rest, k).value == SplitFirst(rest[i].1.s, '=').1;
        LastSetterShift(headers, i, k);
        assert rest[i] == headers[i + 1];
        assert LastSetting(headers, k) == LastSetting(rest, k);
        assert LastSetter(headers, i + 1, k) && LastSetting(headers, k).value == SplitFirst(headers[i + 1].1.s, '=').1;
      } else if SetsVariable(headers, 0, k) {
        LastSettingNone(rest, k);
        SetsVariableShift(headers, k);
        assert LastSetter(headers, 0, k) && LastSetting(headers, k).value == SplitFirst(headers[0].1.s, '=').1;
      }
    }
  }

  /** The last setter in the tail is the last setter one place further on. */
  lemma LastSetterShift(headers: Entries<Value>, i: int, k: Key)
    requires headers != [] && LastSetter(headers[1..], i, k)
    ensures LastSetter(headers, i + 1, k)
  {
    SetsVariableShift(headers, k);
  }

  /** A header value sets a variable at the same place in the tail. */
  lemma SetsVariableShift(headers: Entries<Value>, k: Key)
    requires headers != []
    ensures forall i :: 0 < i < |headers| ==> (SetsVariable(headers, i, k) <==> SetsVariable(headers[1..], i - 1, k))
    ensures forall j :: 0 <= j < |headers| - 1 ==> (SetsVariable(headers[1..], j, k) <==> SetsVariable(headers, j + 1, k))
  {
    forall i | 0 < i < |headers|
      ensures SetsVariable(headers, i, k) <==> SetsVariable(headers[1..], i - 1, k)
    {
      assert headers[i] == headers[1..][i - 1];
    }
  }

  /** After parseHeaders, a variable holds the text of the last header value
      that sets it, and otherwise what it held before. */
  lemma {:induction false} ParsedHeadersValues(headers: Entries<Value>, acc: Entries<string>)
    ensures var r := ParsedHeaders(headers, acc);
      r.Ok? ==> forall k :: Get(r.value, k) == if LastSetting(headers, k).Some? then LastSetting(headers, k) else Get(acc, k)
    decreases |headers|
  {
    if headers != [] && headers[0].1.VStr? {
      var value := headers[0].1.s;
      var rest := headers[1..];
      if '=' in value {
        var (name, text) := SplitFirst(value, '=');
        var acc' := Put(acc, StrKey(HeaderVariable(name)), text);
        assert ParsedHeaders(headers, acc) == ParsedHeaders(rest, acc');
        ParsedHeadersValues(rest, acc');
      } else {
        assert forall k :: !SetsVariable(headers, 0, k);
        ParsedHeadersValues(rest, acc);
      }
    }
  }

  /** parseHeaders fails exactly when a header value is not a string; it
      builds HTTP_ variables with distinct keys, one for every value that holds
      `=`, holding the text after the first `=` of the last value that maps
      to the same variable; every other variable is one it started with. */
  lemma ParsedHeadersSpec(headers: Entries<Value>, acc: Entries<string>)
    requires UniqueKeys(acc) && HttpVariables(acc)
    ensures var r := ParsedHeaders(headers, acc);
      && (r.Err? <==> exists i :: 0 <= i < |headers| && !headers[i].1.VStr?)
      && (r.Err? ==> r.error.TypeError?)
      && (r.Ok? ==> UniqueKeys(r.value) && HttpVariables(r.value))
      && (r.Ok? ==> forall i :: 0 <= i < |headers| && '=' in headers[i].1.s ==>
            HasKey(r.value, StrKey(HeaderVariable(SplitFirst(headers[i].1.s, '=').0))))
      && (r.Ok? ==> forall k :: Get(r.value, k) == if LastSetting(headers, k).Some? then LastSetting(headers, k) else Get(acc, k))
      && (r.Ok? ==> forall k :: HasKey(r.value, k) ==> HasKey(acc, k) || exists i :: SetsVariable(headers, i, k))
  {
    ParsedHeadersShape(headers, acc);
    ParsedHeadersValues(headers, acc);
    ParsedHeadersOnly(headers, acc);
  }

  /** Only a header value holding `=` adds a variable. */
  lemma ParsedHeadersOnly(headers: Entries<Value>, acc: Entries<string>)
    ensures var r := ParsedHeaders(headers, acc);
      r.Ok? ==> forall k :: HasKey(r.value, k) ==> HasKey(acc, k) || exists i :: SetsVariable(headers, i, k)
  {
    ParsedHeadersValues(headers, acc);
    var r := ParsedHeaders(headers, acc);
    forall k | r.Ok? && HasKey(r.value, k)
      ensures HasKey(acc, k) || exists i :: SetsVariable(headers, i, k)
    {
      LastSettingSpec(headers, k);
      assert Get(r.value, k).Some?;
    }
  }

  /** The failure cases, distinct HTTP_ keys, and a variable for every value
      holding `=`. */
  lemma ParsedHeadersShape(headers: Entries<Value>, acc: Entries<string>)
    requires UniqueKeys(acc) && HttpVariables(acc)
    ensures var r := ParsedHeaders(headers, acc);
      && (r.Err? <==> exists i :: 0 <= i < |headers| && !headers[i].1.VStr?)
      && (r.Err? ==> r.error.TypeError?)
      && (r.Ok? ==> UniqueKeys(r.value) && HttpVariables(r.value))
      && (r.Ok? ==> forall i :: 0 <= i < |headers| && '=' in headers[i].1.s ==>
            HasKey(r.value, StrKey(HeaderVariable(SplitFirst(headers[i].1.s, '=').0))))
  {
    ParsedHeadersFails(headers, acc);
    ParsedHeadersKeys(headers, acc);
    ParsedHeadersCovers(headers, acc);
  }

  /** The variables after the first header value. */
  function HeaderStep(value: string, acc: Entries<string>): Entries<string> {
    if '=' in value then Put(acc, StrKey(HeaderVariable(SplitFirst(value, '=').0)), SplitFirst(value, '=').1) else acc
  }

  /** parseHeaders fails, with a TypeError, exactly at a value that is not a
      string. */
  lemma {:induction false} ParsedHeadersFails(headers: Entries<Value>, acc: Entries<string>)
    ensures var r := ParsedHeaders(headers, acc);
      && (r.Err? <==> exists i :: 0 <= i < |headers| && !headers[i].1.VStr?)
      && (r.Err? ==> r.error.TypeError?)
    decreases |headers|
  {
    if headers != [] && headers[0].1.VStr? {
      var rest := headers[1..];
      var acc' := HeaderStep(headers[0].1.s, acc);
      assert ParsedHeaders(headers, acc) == ParsedHeaders(rest, acc');
      ParsedHeadersFails(rest, acc');
      if exists i :: 0 <= i < |headers| && !headers[i].1.VStr? {
        var i :| 0 <= i < |headers| && !headers[i].1.VStr?;
        assert rest[i - 1] == headers[i];
      }
      if exists i :: 0 <= i < |rest| && !rest[i].1.VStr? {
        var i :| 0 <= i < |rest| && !rest[i].1.VStr?;
        assert rest[i] == headers[i + 1];
      }
    }
  }

  /** parseHeaders keeps the variables' keys distinct and HTTP_ names. */
  lemma {:induction false} ParsedHeadersKeys(headers: Entries<Value>, acc: Entries<string>)
    requires UniqueKeys(acc) && HttpVariables(acc)
    ensures var r := ParsedHeaders(headers, acc);
      r.Ok? ==> UniqueKeys(r.value) && HttpVariables(r.value)
    decreases |headers|
  {
    if headers != [] && headers[0].1.VStr? {
      var value := headers[0].1.s;
      var acc' := HeaderStep(value, acc);
      if '=' in value {
        var k := StrKey(HeaderVariable(SplitFirst(value, '=').0));
        PutUnique(acc, k, SplitFirst(value, '=').1);
        PutPositions(acc, k, SplitFirst(value, '=').1);
        assert HttpVariables(acc') by {
          forall i | 0 <= i < |acc'| ensures acc'[i].0.StrKey? && StartsWith(acc'[i].0.s, "HTTP_") {
            if i < |acc| {
              assert acc'[i].0 == acc[i].0;
            }
          }
        }
      }
      assert ParsedHeaders(headers, acc) == ParsedHeaders(headers[1..], acc');
      ParsedHeadersKeys(headers[1..], acc');
    }
  }

  /** Every value holding `=` leaves its variable set. */
  lemma ParsedHeadersCovers(headers: Entries<Value>, acc: Entries<string>)
    ensures var r := ParsedHeaders(headers, acc);
      r.Ok? ==> forall i :: 0 <= i < |headers| && headers[i].1.VStr? && '=' in headers[i].1.s ==>
        HasKey(r.value, StrKey(HeaderVariable(SplitFirst(headers[i].1.s, '=').0)))
  {
    ParsedHeadersValues(headers, acc);
    var r := ParsedHeaders(headers, acc);
    forall i | r.Ok? && 0 <= i < |headers| && headers[i].1.VStr? && '=' in headers[i].1.s
      ensures HasKey(r.value, StrKey(HeaderVariable(SplitFirst(headers[i].1.s, '=').0)))
    {
      var k := StrKey(HeaderVariable(SplitFirst(headers[i].1.s, '=').0));
      assert SetsVariable(headers, i, k);
      LastSettingNone(headers, k);
      assert Get(r.value, k).Some?;
    }
  }

  const HttpAccept: Key := StrKey("HTTP_ACCEPT")
  const ContentTypeKey: Key := StrKey("CONTENT_TYPE")

  /** The server variables of the request: HTTP_ACCEPT from the context and a
      fixed CONTENT_TYPE of application/json, merged with the parsed headers. */
  function ServerVariables(accept: string, parsed: Entries<string>): Entries<string> {
    Merge([(HttpAccept, accept), (ContentTypeKey, "application/json")], parsed)
  }

  /** A parsed header overrides a default variable of the same name; the
      defaults hold otherwise (CONTENT_TYPE is application/json whatever the
      context's content type); every parsed header is a server variable. */
  lemma ServerVariablesSpec(accept: string, parsed: Entries<string>)
    requires UniqueKeys(parsed) && HttpVariables(parsed)
    ensures var server := ServerVariables(accept, parsed);
      && UniqueKeys(server)
      && Get(server, HttpAccept) == (if HasKey(parsed, HttpAccept) then Get(parsed, HttpAccept) else Some(accept))
      && Get(server, ContentTypeKey) == Some("application/json")
      && forall i :: 0 <= i < |parsed| ==> Get(server, parsed[i].0) == Get(parsed, parsed[i].0)
  {
    var defaults := [(HttpAccept, accept), (ContentTypeKey, "application/json")];
    DefaultsUnique(accept);
    MergeUnique(defaults, parsed);
    MergeStringKeys(defaults, parsed, "HTTP_ACCEPT");
    MergeStringKeys(defaults, parsed, "CONTENT_TYPE");
    NoContentType(parsed);
    forall i | 0 <= i < |parsed|
      ensures Get(ServerVariables(accept, parsed), parsed[i].0) == Get(parsed, parsed[i].0)
    {
      MergeStringKeys(defaults, parsed, parsed[i].0.s);
    }
  }

  lemma DefaultsUnique(accept: string)
    ensures UniqueKeys([(HttpAccept, accept), (ContentTypeKey, "application/json")])
  {
    assert HttpAccept.s[0] != ContentTypeKey.s[0];
  }

  /** CONTENT_TYPE is not an HTTP_ variable. */
  lemma NoContentType(parsed: Entries<string>)
    requires HttpVariables(parsed)
    ensures !HasKey(parsed, ContentTypeKey)
  {
    forall i | 0 <= i < |parsed| ensures parsed[i].0 != ContentTypeKey {
      assert parsed[i].0.s[..5][0] == 'H';
    }
  }

  // ---------------------------------------------------------------------------
  // resolveActingAsEntity

  /** The values the acting-as identifier can hold: null, an int or a string. */
  predicate IdentifierTyped(id: Value) {
    id.VNull? || id.VInt? || id.VStr?
  }

  /** The identifier as string interpolation shows it. */
  function IdentifierText(id: Value): string {
    match id
    case VInt(i) => IntText(i)
    case VStr(s) => s
    case _ => ""
  }

  /** The entity found for the identifier under the first column, in order,
      that finds one. */
  function FirstFound(find: (Option<string>, string, Value) -> Option<Entity>, entityClass: Option<string>,
                      columns: seq<string>, id: Value): (r: Option<Entity>)
    ensures r.Some? ==> exists i :: 0 <= i < |columns| && find(entityClass, columns[i], id) == r
                                    && forall j :: 0 <= j < i ==> find(entityClass, columns[j], id).None?
    ensures r.None? ==> forall i :: 0 <= i < |columns| ==> find(entityClass, columns[i], id).None?
  {
    if columns == [] then None
    else if find(entityClass, columns[0], id).Some? then find(entityClass, columns[0], id)
    else
      var r := FirstFound(find, entityClass, columns[1..], id);
      assert forall i :: 0 <= i < |columns| - 1 ==> columns[1..][i] == columns[i + 1];
      r
  }

  /** The configured entity class, when it is set to a truthy name. */
  function CustomEntity(rt: Runtime): (r: Option<string>)
    ensures r.Some? <==> TruthyText(rt.actingAsEntity)
  {
    if TruthyText(rt.actingAsEntity) then rt.actingAsEntity else None
  }

  /** resolveActingAsEntity: no entity without a truthy identifier; otherwise
      the first match over the identifier columns, or the not-found error of
      the configured entity class, or of the auth provider when none is set. */
  function ActingAsEntity(rt: Runtime, id: Value): (r: Result<Option<Entity>, Thrown>)
    ensures !Truthy(id) ==> r == Ok(None)
    ensures Truthy(id) && r.Ok? ==> r.value.Some? && r.value == FirstFound(rt.find, CustomEntity(rt), rt.actingAsIdentifiers, id)
    ensures Truthy(id) ==> (r.Err? <==> forall i :: 0 <= i < |rt.actingAsIdentifiers| ==> rt.find(CustomEntity(rt), rt.actingAsIdentifiers[i], id).None?)
    ensures r.Err? ==> r.error == LaraCall(
      if CustomEntity(rt).Some? then CustomActingAsEntityNotFound(CustomEntity(rt).value, IdentifierText(id))
      else AuthUserNotFound(IdentifierText(id)))
  {
    if !Truthy(id) then Ok(None)
    else
      var custom := CustomEntity(rt);
      match FirstFound(rt.find, custom, rt.actingAsIdentifiers, id)
      case Some(entity) => Ok(Some(entity))
      case None =>
        if custom.Some? then Err(LaraCall(CustomActingAsEntityNotFound(custom.value, IdentifierText(id))))
        else Err(LaraCall(AuthUserNotFound(IdentifierText(id))))
  }

  // ---------------------------------------------------------------------------
  // The context's state, hydrate and toRequest

  /** The constructor's arguments. */
  datatype Arguments = Arguments(
    name: Option<string>, routeName: Option<string>, routeUri: Option<string>, routeMethod: Option<Method>,
    parameters: Entries<Value>, headers: Entries<Value>, cookies: Entries<Value>, body: Value,
    withoutMiddleware: bool, actingAsIdentifier: Value, accept: string, contentType: string)

  /** Every property of a context. `route` and `populatedRouteUri` are typed
      properties without a default: None stands both for null and for "not yet
      set". `routes` is the cached route collection. */
  datatype State = State(
    name: Option<string>, routeName: Option<string>, routeUri: Option<string>, routeMethod: Option<Method>,
    parameters: Entries<Value>, headers: Entries<Value>, cookies: Entries<Value>, body: Value,
    withoutMiddleware: bool, actingAsIdentifier: Value, accept: string, contentType: string,
    route: Option<Route>, routes: Option<seq<Route>>, actingAsEntity: Option<Entity>,
    populatedRouteUri: Option<string>, queryParams: Entries<Value>)

  /** The state once the promoted constructor properties are assigned, before
      hydrate runs. */
  function Initial(args: Arguments): (s: State)
    ensures s.route.None? && s.routes.None? && s.actingAsEntity.None? && s.populatedRouteUri.None? && s.queryParams == []
  {
    State(args.name, args.routeName, args.routeUri, args.routeMethod, args.parameters, args.headers, args.cookies,
          args.body, args.withoutMiddleware, args.actingAsIdentifier, args.accept, args.contentType,
          None, None, None, None, [])
  }

  /** What the typed properties and the hydration steps guarantee about a
      context: a set route comes with a set method, and the body and the
      identifier hold values of their declared types. */
  predicate Consistent(s: State) {
    (s.route.Some? ==> s.routeMethod.Some?) && BodyTyped(s.body) && IdentifierTyped(s.actingAsIdentifier)
  }

  /** The last step of hydrate, which always runs: actingAsEntity. */
  function ActingAsStep(s: State, rt: Runtime): (State, Outcome<Thrown>) {
    match ActingAsEntity(rt, s.actingAsIdentifier)
    case Err(e) => (s, Fail(e))
    case Ok(entity) => (s.(actingAsEntity := entity), Pass)
  }

  /** The steps of hydrate that run when a route name or URI is given:
      resolve the route, overwrite the name and URI, resolve the method,
      populate the URI and query parameters, normalise the body. A step that
      throws leaves what the earlier steps assigned. */
  function RouteSteps(s: State, rt: Runtime): (State, Outcome<Thrown>)
    requires TruthyText(s.routeName) || TruthyText(s.routeUri)
  {
    var table := if s.routes.Some? then s.routes.value else rt.routeTable;
    var s1 := s.(routes := Some(table));
    match ResolvedRoute(table, s.routeName, s.routeUri, s.routeMethod)
    case Err(e) => (s1, Fail(e))
    case Ok(route) => MethodSteps(s1.(route := Some(route), routeName := route.name, routeUri := Some(route.uri)), route, rt)
  }

  /** The steps of hydrate from resolveRouteMethod on, for the resolved route. */
  function MethodSteps(s: State, route: Route, rt: Runtime): (State, Outcome<Thrown>) {
    var (field, chosen) := MethodResolution(route, s.routeMethod);
    match chosen
    case Err(e) => (s.(routeMethod := field), Fail(e))
    case Ok(m) => PopulateSteps(s.(routeMethod := Some(m)), route, rt)
  }

  /** The steps of hydrate from generatePopulatedUriAndParameters on. */
  function PopulateSteps(s: State, route: Route, rt: Runtime): (State, Outcome<Thrown>) {
    var (query, populated) := Populate(route.paramNames, s.parameters, route.uri, s.queryParams);
    match populated
    case Err(e) => (s.(queryParams := query), Fail(e))
    case Ok(uri) =>
      var s1 := s.(queryParams := query, populatedRouteUri := Some(uri));
      match NormalizedBody(rt.php, s1.body)
      case Err(e) => (s1, Fail(e))
      case Ok(body) => (s1.(body := body), Pass)
  }

  /** hydrate: the new state and whether it threw. */
  function Hydration(s: State, rt: Runtime): (State, Outcome<Thrown>) {
    if TruthyText(s.routeName) || TruthyText(s.routeUri) then
      var (s1, outcome) := RouteSteps(s, rt);
      if outcome.Fail? then (s1, outcome) else ActingAsStep(s1, rt)
    else ActingAsStep(s, rt)
  }

  /** The arguments toRequest passes to Request::create. */
  datatype RequestDescriptor = RequestDescriptor(
    uri: string, httpMethod: string, parameters: Entries<Value>, cookies: Entries<Value>,
    server: Entries<string>, content: Option<string>)

  /** toRequest, its arguments evaluated in order. */
  function BuildRequest(s: State, rt: Runtime): Result<RequestDescriptor, Thrown> {
    if s.route.None? then Err(LaraCall(RouteContextNotCallable))
    else if s.populatedRouteUri.None? then Err(UninitializedProperty("populatedRouteUri"))
    else if s.routeMethod.None? then Err(PhpWarning("Attempt to read property \"value\" on null"))
    else
      match ParsedHeaders(s.headers, [])
      case Err(e) => Err(e)
      case Ok(parsed) =>
        match ResolvedBody(rt.php, s.body)
        case Err(e) => Err(e)
        case Ok(content) =>
          Ok(RequestDescriptor(s.populatedRouteUri.value, RouteMethods.Value(s.routeMethod.value), s.queryParams,
                               s.cookies, ServerVariables(s.accept, parsed), content))
  }

  /** Without a route name or URI nothing is resolved: only the acting-as
      entity can change, and it is the only thing that can fail. */
  lemma HydrationWithoutRoute(s: State, rt: Runtime)
    requires !TruthyText(s.routeName) && !TruthyText(s.routeUri)
    ensures var (s', outcome) := Hydration(s, rt);
      && s' == s.(actingAsEntity := s'.actingAsEntity)
      && (outcome.Pass? <==> ActingAsEntity(rt, s.actingAsIdentifier).Ok?)
      && (outcome.Pass? ==> s'.actingAsEntity == ActingAsEntity(rt, s.actingAsIdentifier).value)
  {
  }

  /** After a successful hydration with a route name or URI: the route is the
      resolved one, its name and template URI overwrite routeName and
      routeUri, the method is one the route allows (or its first declared one
      when none was specified), the populated URI is the substituted template,
      the query parameters gained no route parameter, and the acting-as entity
      is resolved. */
  lemma HydrationResolves(s: State, rt: Runtime)
    requires TruthyText(s.routeName) || TruthyText(s.routeUri)
    requires Hydration(s, rt).1.Pass?
    ensures var s' := Hydration(s, rt).0;
      var table := if s.routes.Some? then s.routes.value else rt.routeTable;
      var route := ResolvedRoute(table, s.routeName, s.routeUri, s.routeMethod);
      && route.Ok? && s'.route == Some(route.value)
      && s'.routes == Some(table)
      && s'.routeName == route.value.name && s'.routeUri == Some(route.value.uri)
      && s'.routeMethod.Some?
      && (s.routeMethod.Some? ==> s'.routeMethod == s.routeMethod
                                  && RouteMethods.Value(s.routeMethod.value) in route.value.methods)
      && (s.routeMethod.None? ==> RouteMethods.Value(s'.routeMethod.value) == Upper(route.value.methods[0]))
      && s'.populatedRouteUri == Some(Populate(route.value.paramNames, s.parameters, route.value.uri, s.queryParams).1.value)
      && (forall k :: HasKey(s'.queryParams, k) ==> HasKey(s.queryParams, k) || (HasKey(s.parameters, k) && !NamesRouteParameter(route.value.paramNames, k)))
      && s'.actingAsEntity == ActingAsEntity(rt, s.actingAsIdentifier).value
  {
    var table := if s.routes.Some? then s.routes.value else rt.routeTable;
    var route := ResolvedRoute(table, s.routeName, s.routeUri, s.routeMethod).value;
    MethodResolutionSpec(route, s.routeMethod);
    forall k | HasKey(Hydration(s, rt).0.queryParams, k)
      ensures HasKey(s.queryParams, k) || (HasKey(s.parameters, k) && !NamesRouteParameter(route.paramNames, k))
    {
      PopulateQueryKeys(route.paramNames, s.parameters, route.uri, s.queryParams, k);
    }
  }

  /** A failure after the route is found leaves the route set, so the
      context is callable even though hydrate threw. */
  lemma HydrationFailureKeepsRoute(s: State, rt: Runtime)
    requires TruthyText(s.routeName) || TruthyText(s.routeUri)
    requires Hydration(s, rt).1.Fail?
    ensures var table := if s.routes.Some? then s.routes.value else rt.routeTable;
      var route := ResolvedRoute(table, s.routeName, s.routeUri, s.routeMethod);
      && (route.Err? ==> Hydration(s, rt) == (s.(routes := Some(table)), Fail(route.error)))
      && (route.Ok? ==> Hydration(s, rt).0.route == Some(route.value))
  {
  }

  /** hydrate keeps a context consistent. */
  lemma HydrationConsistent(s: State, rt: Runtime)
    requires Consistent(s)
    ensures Consistent(Hydration(s, rt).0)
  {
    if TruthyText(s.routeName) || TruthyText(s.routeUri) {
      RouteStepsConsistent(s, rt);
    }
  }

  lemma RouteStepsConsistent(s: State, rt: Runtime)
    requires TruthyText(s.routeName) || TruthyText(s.routeUri)
    requires Consistent(s)
    ensures Consistent(RouteSteps(s, rt).0)
  {
    var table := if s.routes.Some? then s.routes.value else rt.routeTable;
    var r := ResolvedRoute(table, s.routeName, s.routeUri, s.routeMethod);
    if r.Ok? {
      var s2 := s.(routes := Some(table), route := Some(r.value), routeName := r.value.name, routeUri := Some(r.value.uri));
      var (field, chosen) := MethodResolution(r.value, s2.routeMethod);
      if chosen.Ok? {
        PopulateStepsConsistent(s2.(routeMethod := Some(chosen.value)), r.value, rt);
      }
    }
  }

  lemma PopulateStepsConsistent(s: State, route: Route, rt: Runtime)
    requires Consistent(s)
    ensures Consistent(PopulateSteps(s, route, rt).0)
  {
  }

  /** A context is callable exactly when its route is set: toRequest fails
      with routeContextNotCallable otherwise. */
  lemma CallableIffRoute(s: State, rt: Runtime)
    ensures BuildRequest(s, rt) == Err(LaraCall(RouteContextNotCallable)) <==> s.route.None?
  {
    ParsedHeadersSpec(s.headers, []);
  }

  /** On a callable, hydrated context toRequest fails only on a header value
      or a body that is not usable; otherwise the request takes the populated
      URI, the resolved method, the query parameters and the cookies
      unchanged, the server variables from the accept value and the headers,
      and the resolved body. */
  lemma BuildRequestSpec(s: State, rt: Runtime)
    requires Consistent(s) && s.route.Some? && s.populatedRouteUri.Some?
    ensures var r := BuildRequest(s, rt);
      var parsed := ParsedHeaders(s.headers, []);
      && (r.Ok? <==> parsed.Ok? && ResolvedBody(rt.php, s.body).Ok?)
      && (r.Err? ==> r.error.TypeError?)
      && (r.Ok? ==> r.value == RequestDescriptor(s.populatedRouteUri.value, RouteMethods.Value(s.routeMethod.value),
                                                 s.queryParams, s.cookies, ServerVariables(s.accept, parsed.value),
                                                 ResolvedBody(rt.php, s.body).value))
  {
    ParsedHeadersSpec(s.headers, []);
  }

  /** A context constructed with a route name or URI that hydrated without
      throwing builds its request from the populated URI, the resolved
      method and the non-route parameters; only an unusable header value or
      body can still make toRequest fail. */
  lemma CreatedContextRequest(args: Arguments, rt: Runtime)
    requires TruthyText(args.routeName) || TruthyText(args.routeUri)
    requires BodyTyped(args.body) && IdentifierTyped(args.actingAsIdentifier)
    requires Hydration(Initial(args), rt).1.Pass?
    ensures var s := Hydration(Initial(args), rt).0;
      var r := BuildRequest(s, rt);
      && s.route.Some? && s.populatedRouteUri.Some?
      && (r.Err? ==> r.error.TypeError?)
      && (r.Ok? ==> r.value.uri == s.populatedRouteUri.value
                    && r.value.httpMethod == RouteMethods.Value(s.routeMethod.value)
                    && r.value.parameters == s.queryParams
                    && (forall k :: HasKey(r.value.parameters, k) ==> !NamesRouteParameter(s.route.value.paramNames, k)))
  {
    var s0 := Initial(args);
    HydrationResolves(s0, rt);
    HydrationConsistent(s0, rt);
    var s := Hydration(s0, rt).0;
    BuildRequestSpec(s, rt);
    assert !HasKey(s0.queryParams, StrKey(""));
  }

  // ---------------------------------------------------------------------------
  // The class

  class RouteCallContext {
    var name: Option<string>
    var routeName: Option<string>
    var routeUri: Option<string>
    var routeMethod: Option<Method>
    var parameters: Entries<Value>
    var headers: Entries<Value>
    var cookies: Entries<Value>
    var body: Value
    var withoutMiddleware: bool
    var actingAsIdentifier: Value
    var accept: string
    var contentType: string
    var route: Option<Route>
    var routes: Option<seq<Route>>
    var actingAsEntity: Option<Entity>
    var populatedRouteUri: Option<string>
    var queryParams: Entries<Value>
    /** The application the context runs in. */
    const rt: Runtime

    function Snapshot(): State
      reads this
    {
      State(name, routeName, routeUri, routeMethod, parameters, headers, cookies, body, withoutMiddleware,
            actingAsIdentifier, accept, contentType, route, routes, actingAsEntity, populatedRouteUri, queryParams)
    }

    /** The promoted constructor properties; hydrate is called by Create. */
    constructor (args: Arguments, rt: Runtime)
      ensures Snapshot() == Initial(args) && this.rt == rt
    {
      name, routeName, routeUri, routeMethod := args.name, args.routeName, args.routeUri, args.routeMethod;
      parameters, headers, cookies, body := args.parameters, args.headers, args.cookies, args.body;
      withoutMiddleware, actingAsIdentifier := args.withoutMiddleware, args.actingAsIdentifier;
      accept, contentType := args.accept, args.contentType;
      route, routes, actingAsEntity, populatedRouteUri, queryParams := None, None, None, None, [];
      this.rt := rt;
    }

    /** isCallable: hydrates again when asked, then tells whether the route
        is set. */
    method IsCallable(hydrate: bool) returns (callable: bool, outcome: Outcome<Thrown>)
      modifies this
      ensures hydrate ==> (Snapshot(), outcome) == Hydration(old(Snapshot()), rt)
      ensures !hydrate ==> Snapshot() == old(Snapshot()) && outcome == Pass
      ensures outcome.Pass? ==> (callable <==> route.Some?)
    {
      outcome, callable := Pass, false;
      if hydrate {
        outcome := Hydrate();
        if outcome.Fail? {
          return;
        }
      }
      callable := route.Some?;
    }

    /** hydrate */
    method Hydrate() returns (outcome: Outcome<Thrown>)
      modifies this
      ensures (Snapshot(), outcome) == Hydration(old(Snapshot()), rt)
    {
      if TruthyText(routeName) || TruthyText(routeUri) {
        outcome := HydrateRoute();
        if outcome.Fail? {
          return;
        }
      }
      var entity := ResolveActingAsEntity();
      if entity.Err? {
        return Fail(entity.error);
      }
      actingAsEntity := entity.value;
      outcome := Pass;
    }

    /** The part of hydrate under its route name or URI test. */
    method HydrateRoute() returns (outcome: Outcome<Thrown>)
      requires TruthyText(routeName) || TruthyText(routeUri)
      modifies this
      ensures (Snapshot(), outcome) == RouteSteps(old(Snapshot()), rt)
    {
      ghost var before := Snapshot();
      var resolved := ResolveRoute();
      if resolved.Err? {
        return Fail(resolved.error);
      }
      var r := resolved.value;
      route := Some(r);
      routeName := r.name;
      routeUri := Some(r.uri);
      ghost var table := if before.routes.Some? then before.routes.value else rt.routeTable;
      assert ResolvedRoute(table, before.routeName, before.routeUri, before.routeMethod) == Ok(r);
      assert Snapshot() == before.(routes := Some(table), route := Some(r), routeName := r.name, routeUri := Some(r.uri));
      outcome := HydrateMethod(r);
    }

    /** The part of hydrate from resolveRouteMethod on. */
    method HydrateMethod(r: Route) returns (outcome: Outcome<Thrown>)
      modifies this
      ensures (Snapshot(), outcome) == MethodSteps(old(Snapshot()), r, rt)
    {
      var chosen := ResolveRouteMethod(r);
      if chosen.Err? {
        return Fail(chosen.error);
      }
      routeMethod := Some(chosen.value);
      outcome := HydratePopulate(r);
    }

    /** The part of hydrate from generatePopulatedUriAndParameters on. */
    method HydratePopulate(r: Route) returns (outcome: Outcome<Thrown>)
      modifies this
      ensures (Snapshot(), outcome) == PopulateSteps(old(Snapshot()), r, rt)
    {
      outcome := GeneratePopulatedUriAndParameters(r);
      if outcome.Fail? {
        return;
      }
      outcome := NormalizeRequestBody();
    }

    /** routeCollection: the route table, loaded on first use and cached. */
    method RouteCollection() returns (table: seq<Route>)
      modifies this
      ensures table == (if old(routes).Some? then old(routes).value else rt.routeTable)
      ensures Snapshot() == old(Snapshot()).(routes := Some(table))
    {
      if routes.None? {
        routes := Some(rt.routeTable);
      }
      table := routes.value;
    }

    /** resolveRoute: the name index, or a scan of the table in order. */
    method ResolveRoute() returns (r: Result<Route, Thrown>)
      requires TruthyText(routeName) || TruthyText(routeUri)
      modifies this
      ensures var table := if old(routes).Some? then old(routes).value else rt.routeTable;
        && Snapshot() == old(Snapshot()).(routes := Some(table))
        && r == ResolvedRoute(table, routeName, routeUri, routeMethod)
    {
      var table := RouteCollection();
      if TruthyText(routeName) {
        var found := LastNamed(table, routeName.value);
        if found.None? {
          return Err(LaraCall(RouteNotFound(routeName.value)));
        }
        return Ok(table[found.value]);
      }
      var uri := ScanUri(routeUri.value);
      for i := 0 to |table|
        invariant forall j :: 0 <= j < i ==> !UriMatches(table[j], uri, routeMethod)
      {
        if table[i].uri == uri {
          if routeMethod.Some? && RouteMethods.Value(routeMethod.value) !in table[i].methods {
            continue;
          }
          return Ok(table[i]);
        }
      }
      return Err(LaraCall(RouteNotFound(routeUri.value)));
    }

    /** resolveRouteMethod */
    method ResolveRouteMethod(r: Route) returns (m: Result<Method, Thrown>)
      modifies this
      ensures Snapshot() == old(Snapshot()).(routeMethod := MethodResolution(r, old(routeMethod)).0)
      ensures m == MethodResolution(r, old(routeMethod)).1
    {
      var specified := true;
      if routeMethod.None? {
        specified := false;
        routeMethod := Some(GET);
      }
      if specified {
        if Upper(RouteMethods.Value(routeMethod.value)) !in r.methods {
          var shown := if r.name.Some? then r.name.value else r.uri;
          return Err(LaraCall(RouteMethodNotAllowed(shown, RouteMethods.Value(routeMethod.value))));
        }
        return Ok(routeMethod.value);
      }
      if r.methods == [] {
        return Err(PhpWarning("Undefined array key 0"));
      }
      var parsed := TryFrom(Upper(r.methods[0]));
      if parsed.None? {
        return Err(ValueError("not a valid backing value for enum RouteMethod"));
      }
      return Ok(parsed.value);
    }

    /** generatePopulatedUriAndParameters */
    method GeneratePopulatedUriAndParameters(r: Route) returns (outcome: Outcome<Thrown>)
      modifies this
      ensures var (query, populated) := Populate(r.paramNames, old(parameters), r.uri, old(queryParams));
        && Snapshot() == old(Snapshot()).(queryParams := query,
                                          populatedRouteUri := if populated.Ok? then Some(populated.value) else old(populatedRouteUri))
        && (outcome.Pass? <==> populated.Ok?)
        && (outcome.Fail? ==> outcome.error == populated.error)
    {
      var uri := r.uri;
      var routeParams := r.paramNames;
      for i := 0 to |parameters|
        invariant Snapshot() == old(Snapshot()).(queryParams := queryParams)
        invariant Populate(routeParams, parameters[i..], uri, queryParams) == Populate(r.paramNames, parameters, r.uri, old(queryParams))
      {
        var (key, value) := parameters[i];
        assert parameters[i..][1..] == parameters[i + 1..] && parameters[i..][0] == parameters[i];
        if NamesRouteParameter(routeParams, key) {
          if !value.VStr? {
            return Fail(TypeError("str_replace(): Argument #2 ($replace) must be of type array|string"));
          }
          uri := ReplaceAll(uri, Placeholder(key), value.s);
          continue;
        }
        queryParams := Put(queryParams, key, value);
      }
      populatedRouteUri := Some(uri);
      outcome := Pass;
    }

    /** normalizeRequestBody */
    method NormalizeRequestBody() returns (outcome: Outcome<Thrown>)
      modifies this
      ensures var r := NormalizedBody(rt.php, old(body));
        && Snapshot() == old(Snapshot()).(body := if r.Ok? then r.value else old(body))
        && (outcome.Pass? <==> r.Ok?)
        && (outcome.Fail? ==> outcome.error == r.error)
    {
      if !Truthy(body) || body.VArr? {
        return Pass;
      }
      if !body.VStr? {
        return Pass;
      }
      var decoded := rt.php.jsonDecode(body.s, StartsWith(body.s, "{"));
      if decoded.None? {
        return Pass;
      }
      if !BodyTyped(decoded.value) {
        return Fail(TypeError("Cannot assign decoded JSON to property $body"));
      }
      body := decoded.value;
      outcome := Pass;
    }

    /** resolveActingAsEntity */
    method ResolveActingAsEntity() returns (r: Result<Option<Entity>, Thrown>)
      ensures r == ActingAsEntity(rt, actingAsIdentifier)
    {
      if !Truthy(actingAsIdentifier) {
        return Ok(None);
      }
      var columns := rt.actingAsIdentifiers;
      var custom := CustomEntity(rt);
      for i := 0 to |columns|
        invariant FirstFound(rt.find, custom, columns[i..], actingAsIdentifier) == FirstFound(rt.find, custom, columns, actingAsIdentifier)
      {
        assert columns[i..][1..] == columns[i + 1..] && columns[i..][0] == columns[i];
        var entity := rt.find(custom, columns[i], actingAsIdentifier);
        if entity.Some? {
          return Ok(entity);
        }
      }
      if custom.Some? {
        return Err(LaraCall(CustomActingAsEntityNotFound(custom.value, IdentifierText(actingAsIdentifier))));
      }
      return Err(LaraCall(AuthUserNotFound(IdentifierText(actingAsIdentifier))));
    }

    /** parseHeaders */
    method ParseHeaders() returns (r: Result<Entries<string>, Thrown>)
      ensures r == ParsedHeaders(headers, [])
    {
      var parsed: Entries<string> := [];
      for i := 0 to |headers|
        invariant ParsedHeaders(headers[i..], parsed) == ParsedHeaders(headers, [])
      {
        assert headers[i..][1..] == headers[i + 1..] && headers[i..][0] == headers[i];
        var header := headers[i].1;
        if !header.VStr? {
          return Err(TypeError("str_contains(): Argument #1 ($haystack) must be of type string"));
        }
        if '=' in header.s {
          var (key, value) := SplitFirst(header.s, '=');
          parsed := Put(parsed, StrKey(HeaderVariable(key)), value);
        }
      }
      return Ok(parsed);
    }

    /** toRequest */
    method ToRequest() returns (r: Result<RequestDescriptor, Thrown>)
      ensures r == BuildRequest(Snapshot(), rt)
    {
      if route.None? {
        return Err(LaraCall(RouteContextNotCallable));
      }
      if populatedRouteUri.None? {
        return Err(UninitializedProperty("populatedRouteUri"));
      }
      if routeMethod.None? {
        return Err(PhpWarning("Attempt to read property \"value\" on null"));
      }
      var parsed := ParseHeaders();
      if parsed.Err? {
        return Err(parsed.error);
      }
      var content := ResolvedBody(rt.php, body);
      if content.Err? {
        return Err(content.error);
      }
      return Ok(RequestDescriptor(populatedRouteUri.value, RouteMethods.Value(routeMethod.value), queryParams, cookies,
                                  ServerVariables(accept, parsed.value), content.value));
    }
  }

  /** `new RouteCallContext(...)`: construction, then hydrate; a throw
      leaves no context. */
  method Create(args: Arguments, rt: Runtime) returns (r: Result<RouteCallContext, Thrown>)
    ensures var (s, outcome) := Hydration(Initial(args), rt);
      && (r.Ok? <==> outcome.Pass?)
      && (r.Ok? ==> fresh(r.value) && r.value.Snapshot() == s && r.value.rt == rt)
      && (r.Err? ==> r.error == outcome.error)
  {
    var context := new RouteCallContext(args, rt);
    var outcome := context.Hydrate();
    if outcome.Fail? {
      return Err(outcome.error);
    }
    return Ok(context);
  }
}
