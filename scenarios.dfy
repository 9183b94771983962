/** The route table of the package's feature tests and the outcomes those
    tests expect, derived from the model for every runtime that registers
    that table. */
module Scenarios {
  import opened Wrappers
  import opened Text
  import opened PhpArrays
  import opened RouteMethods
  import opened LaraCallExceptions
  import opened CallContext
  import opened LaraCallCommand

  // The routes as the router stores them: the URI without its leading
  // slash, and GET routes registered for GET and HEAD.
  const MessagesIndex: Route := Route(Some("messages.index"), "messages", ["GET", "HEAD"], [])
  const MessagesStore: Route := Route(Some("messages.store"), "messages", ["POST"], [])
  const MessagesShow: Route := Route(Some("messages.show"), "messages/{id}", ["GET", "HEAD"], ["id"])
  const MessagesUpdate: Route := Route(Some("messages.update"), "messages/{id}", ["PUT"], ["id"])
  const MessagesDestroy: Route := Route(Some("messages.destroy"), "messages/{id}", ["DELETE"], ["id"])
  const NoBody: Route := Route(Some("test.no-body"), "no-body", ["GET", "HEAD"], [])
  const NoContent: Route := Route(Some("test.no-content"), "no-content", ["GET", "HEAD"], [])
  const OptionalParameter: Route :=
    Route(Some("test.optional-parameter"), "optional-parameter/{id}/{name?}", ["GET", "HEAD"], ["id", "name"])

  const TestRoutes: seq<Route> :=
    [MessagesIndex, MessagesStore, MessagesShow, MessagesUpdate, MessagesDestroy, NoBody, NoContent, OptionalParameter]

  /** The command run with a route argument, an optional method option and
      nothing else. */
  function Invocation(route: string, methodOption: Option<string>): CommandInput {
    CommandInput(Some(route), methodOption, None, [], [], [], [], false, None)
  }

  /** The package's default configuration: every environment allowed. */
  function Anywhere(environment: string): CommandConfig {
    CommandConfig(DefaultEnvironments, environment)
  }

  /** A run that resolves `route` with `verb`, starts a session or not, and
      calls the URI `uri` with no query, cookies, content or entity. */
  predicate CallsRoute(run: Run, route: Route, verb: Method, uri: string) {
    && run.Dispatch?
    && run.call.route == route
    && run.call.routeMethod == verb
    && run.call.populatedUri == uri
    && run.call.request.uri == uri
    && run.call.request.httpMethod == RouteMethods.Value(verb)
    && run.call.request.parameters == []
    && run.call.request.content.None?
    && run.call.actingAs.None?
  }

  /** The routes-and-method part of a plain invocation: the route argument
      resolves to `resolved`, the method to `verb`. */
  predicate Resolves(route: string, methodOption: Option<string>, rt: Runtime, resolved: Route, verb: Method)
    requires TruthyText(Some(route))
  {
    var (name, uri) := RouteTarget(route);
    && ResolvedRoute(rt.routeTable, name, uri, MethodOption(methodOption)) == Ok(resolved)
    && MethodResolution(resolved, MethodOption(methodOption)).1 == Ok(verb)
  }

  /** The context arguments of a plain invocation: no parameters, headers,
      body or acting-as identifier, and the method option as given. */
  lemma PlainArguments(php: Php, route: string, methodOption: Option<string>)
    ensures var args := ContextArguments(php, route, Invocation(route, methodOption));
      && args.parameters == [] && args.headers == [] && args.body == VArr([]) && args.actingAsIdentifier == VNull
      && args.routeMethod == MethodOption(methodOption)
  {
    var args := ContextArguments(php, route, Invocation(route, methodOption));
    assert OptionArray(php, []) == [];
  }

  /** Hydrating plain arguments whose route and method resolve records the
      route, the method and the template URI, and nothing else fails. */
  lemma PlainHydration(args: Arguments, rt: Runtime, resolved: Route, verb: Method, withoutMiddleware: bool)
    requires TruthyText(args.routeName) || TruthyText(args.routeUri)
    requires args.parameters == [] && args.body == VArr([]) && args.actingAsIdentifier == VNull
    requires resolved.paramNames == []
    requires ResolvedRoute(rt.routeTable, args.routeName, args.routeUri, args.routeMethod) == Ok(resolved)
    requires MethodResolution(resolved, args.routeMethod).1 == Ok(verb)
    ensures PlanContextCall(args, withoutMiddleware, rt)
         == PlanDispatch(Initial(args).(routes := Some(rt.routeTable), route := Some(resolved), routeName := resolved.name,
                                        routeUri := Some(resolved.uri), routeMethod := Some(verb),
                                        populatedRouteUri := Some(resolved.uri)), withoutMiddleware, rt)
  {
    var s := Initial(args);
    var s1 := s.(routes := Some(rt.routeTable), route := Some(resolved), routeName := resolved.name,
                 routeUri := Some(resolved.uri), routeMethod := Some(verb));
    assert RouteSteps(s, rt) == PopulateSteps(s1, resolved, rt);
    PlainPopulate(s1, resolved, rt);
    assert ActingAsEntity(rt, VNull) == Ok(None);
  }

  /** With no parameters and an empty body, populating and normalising only
      record the template URI as the populated one. */
  lemma PlainPopulate(s: State, route: Route, rt: Runtime)
    requires route.paramNames == [] && s.parameters == [] && s.queryParams == [] && s.body == VArr([])
    ensures PopulateSteps(s, route, rt) == (s.(populatedRouteUri := Some(route.uri)), Pass)
  {
    assert Populate([], [], route.uri, []) == ([], Ok(route.uri));
    assert NormalizedBody(rt.php, VArr([])) == Ok(VArr([]));
  }

  /** A hydrated context with a route, a method, no query, headers or body
      and no acting-as entity dispatches exactly that. */
  lemma PlainDispatch(s: State, withoutMiddleware: bool, rt: Runtime, resolved: Route, verb: Method)
    requires s.route == Some(resolved) && s.routeMethod == Some(verb) && s.populatedRouteUri == Some(resolved.uri)
    requires s.queryParams == [] && s.headers == [] && s.body == VArr([]) && s.actingAsEntity.None?
    ensures CallsRoute(PlanDispatch(s, withoutMiddleware, rt), resolved, verb, resolved.uri)
  {
    assert ParsedHeaders([], []) == Ok([]);
    assert ResolvedBody(rt.php, VArr([])) == Ok(None);
  }

  /** Every plain invocation that resolves reaches the dispatch of the
      resolved route with the resolved method, whatever the environment,
      with no query, no content and no acting-as entity. */
  lemma PlainCall(environment: string, route: string, methodOption: Option<string>, rt: Runtime, resolved: Route,
                  verb: Method)
    requires TruthyText(Some(route)) && resolved.paramNames == []
    requires Resolves(route, methodOption, rt, resolved, verb)
    ensures CallsRoute(PlanCall(Anywhere(environment), Invocation(route, methodOption), rt), resolved, verb, resolved.uri)
  {
    DefaultAllowsEverywhere(environment);
    var input := Invocation(route, methodOption);
    var args := ContextArguments(rt.php, route, input);
    PlainArguments(rt.php, route, methodOption);
    assert PlanCall(Anywhere(environment), input, rt) == PlanContextCall(args, false, rt);
    PlainHydration(args, rt, resolved, verb, false);
    var s := Initial(args).(routes := Some(rt.routeTable), route := Some(resolved), routeName := resolved.name,
                            routeUri := Some(resolved.uri), routeMethod := Some(verb),
                            populatedRouteUri := Some(resolved.uri));
    PlainDispatch(s, false, rt, resolved, verb);
  }

  /** A plain invocation whose route is not found, or whose route refuses
      the method, fails with that error and exit code 1. */
  lemma PlainFailure(environment: string, route: string, methodOption: Option<string>, rt: Runtime, e: Thrown)
    requires TruthyText(Some(route))
    requires var (name, uri) := RouteTarget(route);
      var found := ResolvedRoute(rt.routeTable, name, uri, MethodOption(methodOption));
      found.Err? ==> found.error == e
    requires var (name, uri) := RouteTarget(route);
      var found := ResolvedRoute(rt.routeTable, name, uri, MethodOption(methodOption));
      found.Ok? ==> MethodResolution(found.value, MethodOption(methodOption)).1 == Err(e)
    ensures PlanCall(Anywhere(environment), Invocation(route, methodOption), rt) == Failed(e)
    ensures ExitCode(Failed(e)) == 1
  {
    DefaultAllowsEverywhere(environment);
  }

  /** A route argument that starts with a letter is a route name. */
  lemma NameArgument(route: string)
    requires route != [] && 'a' <= route[0] <= 'z'
    ensures !StartsWith(route, "/")
  {
    assert route[..1][0] == route[0];
  }

  /** By name, `messages.index` is the first route of the table. */
  lemma IndexNamedOnce()
    ensures LastNamed(TestRoutes, "messages.index") == Some(0)
  {
    var name := "messages.index";
    assert name[9] == 'i' && TestRoutes[1].name.value[9] == 's';
    assert forall j :: 2 <= j < |TestRoutes| ==> |TestRoutes[j].name.value| != |name|;
    assert forall j :: 1 <= j < |TestRoutes| ==> TestRoutes[j].name != Some(name);
    assert TestRoutes[0].name == Some(name);
    var r := LastNamed(TestRoutes, name);
    assert r.Some?;
    assert r.value == 0;
  }

  /** By name, `messages.store` is the second route of the table. */
  lemma StoreNamedOnce()
    ensures LastNamed(TestRoutes, "messages.store") == Some(1)
  {
    var name := "messages.store";
    assert forall j :: 2 <= j < |TestRoutes| ==> |TestRoutes[j].name.value| != |name|;
    assert forall j :: 2 <= j < |TestRoutes| ==> TestRoutes[j].name != Some(name);
    assert TestRoutes[1].name == Some(name);
    var r := LastNamed(TestRoutes, name);
    assert r.Some?;
    assert r.value == 1;
  }

  /** `route:call /messages`: the first route with that URI, GET, calling
      `messages`. */
  lemma CallIndexByUri(environment: string, rt: Runtime)
    requires rt.routeTable == TestRoutes
    ensures CallsRoute(PlanCall(Anywhere(environment), Invocation("/messages", None), rt), MessagesIndex, GET, "messages")
  {
    assert StartsWith("/messages", "/");
    assert ScanUri("/messages") == "messages";
    assert MethodOption(None) == None by { MethodOptionSpec(None); }
    assert UriMatches(TestRoutes[0], "messages", None);
    assert TryFrom(Upper("GET")) == Some(GET) by { UpperValue(GET); }
    PlainCall(environment, "/messages", None, rt, MessagesIndex, GET);
  }

  /** `route:call messages.index`: the same route and method by name. */
  lemma CallIndexByName(environment: string, rt: Runtime)
    requires rt.routeTable == TestRoutes
    ensures CallsRoute(PlanCall(Anywhere(environment), Invocation("messages.index", None), rt), MessagesIndex, GET, "messages")
  {
    NameArgument("messages.index");
    assert MethodOption(None) == None by { MethodOptionSpec(None); }
    IndexNamedOnce();
    assert TryFrom(Upper("GET")) == Some(GET) by { UpperValue(GET); }
    PlainCall(environment, "messages.index", None, rt, MessagesIndex, GET);
  }

  /** `route:call messages.store`: POST, taken from the route, with a
      session. */
  lemma CallStoreByName(environment: string, rt: Runtime)
    requires rt.routeTable == TestRoutes
    ensures var run := PlanCall(Anywhere(environment), Invocation("messages.store", None), rt);
      CallsRoute(run, MessagesStore, POST, "messages") && run.call.startsSession
  {
    NameArgument("messages.store");
    assert MethodOption(None) == None by { MethodOptionSpec(None); }
    StoreNamedOnce();
    assert TryFrom(Upper("POST")) == Some(POST) by { UpperValue(POST); }
    PlainCall(environment, "messages.store", None, rt, MessagesStore, POST);
    DispatchSpec(Anywhere(environment), Invocation("messages.store", None), rt);
    StartsSessionSpec(POST);
  }

  /** `route:call /messages --method=POST`: the URI scan passes over the GET
      route and takes the POST route registered after it. */
  lemma CallStoreByUriAndMethod(environment: string, rt: Runtime)
    requires rt.routeTable == TestRoutes
    ensures CallsRoute(PlanCall(Anywhere(environment), Invocation("/messages", Some("POST")), rt), MessagesStore, POST, "messages")
  {
    assert StartsWith("/messages", "/");
    assert ScanUri("/messages") == "messages";
    assert MethodOption(Some("POST")) == Some(POST) by { UpperValue(POST); }
    assert !UriMatches(TestRoutes[0], "messages", Some(POST));
    assert UriMatches(TestRoutes[1], "messages", Some(POST));
    assert Upper("POST") == "POST" by { UpperValue(POST); }
    PlainCall(environment, "/messages", Some("POST"), rt, MessagesStore, POST);
  }

  /** `route:call /non-existent`: no route has that URI; the error names the
      URI with its slash. */
  lemma CallUnknownUri(environment: string, rt: Runtime)
    requires rt.routeTable == TestRoutes
    ensures var run := PlanCall(Anywhere(environment), Invocation("/non-existent", None), rt);
      && run == Failed(LaraCall(RouteNotFound("/non-existent")))
      && Message(run.error.exception) == "Route with name `/non-existent` not found"
      && ExitCode(run) == 1
  {
    assert StartsWith("/non-existent", "/");
    assert ScanUri("/non-existent") == "non-existent";
    assert MethodOption(None) == None by { MethodOptionSpec(None); }
    UnknownUriUnmatched();
    PlainFailure(environment, "/non-existent", None, rt, LaraCall(RouteNotFound("/non-existent")));
    UnknownUriText();
  }

  /** No route of the table has the URI `non-existent`. */
  lemma UnknownUriUnmatched()
    ensures FirstUriMatch(TestRoutes, "non-existent", None) == None
  {
    assert forall j :: 0 <= j < |TestRoutes| ==> |TestRoutes[j].uri| != |"non-existent"|;
    var r := FirstUriMatch(TestRoutes, "non-existent", None);
    assert r.None?;
  }

  /** `route:call non-existent`: no route has that name. */
  lemma CallUnknownName(environment: string, rt: Runtime)
    requires rt.routeTable == TestRoutes
    ensures var run := PlanCall(Anywhere(environment), Invocation("non-existent", None), rt);
      && run == Failed(LaraCall(RouteNotFound("non-existent")))
      && Message(run.error.exception) == "Route with name `non-existent` not found"
      && ExitCode(run) == 1
  {
    NameArgument("non-existent");
    assert MethodOption(None) == None by { MethodOptionSpec(None); }
    UnknownNameUnmatched();
    PlainFailure(environment, "non-existent", None, rt, LaraCall(RouteNotFound("non-existent")));
    UnknownNameText();
  }

  /** No route of the table has the name `non-existent`. */
  lemma UnknownNameUnmatched()
    ensures LastNamed(TestRoutes, "non-existent") == None
  {
    assert forall j :: 0 <= j < |TestRoutes| ==> TestRoutes[j].name.value[0] != 'n';
    var r := LastNamed(TestRoutes, "non-existent");
    assert r.None?;
  }

  /** The text the unknown-URI test looks for. */
  lemma UnknownUriText()
    ensures Message(RouteNotFound("/non-existent")) == "Route with name `/non-existent` not found"
  {
  }

  /** The text the unknown-name test looks for. */
  lemma UnknownNameText()
    ensures Message(RouteNotFound("non-existent")) == "Route with name `non-existent` not found"
  {
  }

  /** `route:call messages.index --method=POST`: the route only allows GET
      and HEAD, and the error names the route and the method. */
  lemma CallIndexWithPost(environment: string, rt: Runtime)
    requires rt.routeTable == TestRoutes
    ensures var run := PlanCall(Anywhere(environment), Invocation("messages.index", Some("POST")), rt);
      && run == Failed(LaraCall(RouteMethodNotAllowed("messages.index", "POST")))
      && Message(run.error.exception)
         == "Route with name `" + "messages.index" + "` does not allow method `" + "POST" + "`"
      && ExitCode(run) == 1
  {
    NameArgument("messages.index");
    assert MethodOption(Some("POST")) == Some(POST) by { UpperValue(POST); }
    IndexNamedOnce();
    assert Upper("POST") == "POST" by { UpperValue(POST); }
    assert "POST" !in MessagesIndex.methods;
    PlainFailure(environment, "messages.index", Some("POST"), rt, LaraCall(RouteMethodNotAllowed("messages.index", "POST")));
    MethodNotAllowedText();
  }

  /** The text the method test looks for, split where the route name and
      the method are interpolated. */
  lemma MethodNotAllowedText()
    ensures Message(RouteMethodNotAllowed("messages.index", "POST"))
            == "Route with name `" + "messages.index" + "` does not allow method `" + "POST" + "`"
  {
  }
}
