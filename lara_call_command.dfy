/** The route:call console command: folding the repeated options into
    arrays, the environment gate, turning the arguments into a route-call
    context, and the rules applied around the dispatch. */
module LaraCallCommand {
  import opened Wrappers
  import opened Text
  import opened PhpArrays
  import opened RouteMethods
  import opened LaraCallExceptions
  import opened JsonInputDecoder
  import opened CallContext

  // ---------------------------------------------------------------------------
  // optionToArray

  /** An item that is neither a decodable bracketed blob: `key=value` is
      assigned under the text before the first `=`, a bare item is assigned
      null under its whole text. */
  function PlainItem(result: Entries<Value>, item: string): Entries<Value> {
    if '=' in item then
      var (key, value) := SplitFirst(item, '=');
      Put(result, ArrayKey(key), VStr(value))
    else Put(result, ArrayKey(item), VNull)
  }

  /** One iteration of optionToArray: a `{…}` or `[…]` item that
      fixAndDecode turns into an array is merged in with array_merge; any
      other item is a plain item. */
  function FoldItem(php: Php, result: Entries<Value>, item: string): Entries<Value> {
    if Bracketed(item) then
      match DecodeResult(php, item)
      case DecodedArray(values) => Merge(result, values)
      case Original(_) => PlainItem(result, item)
    else PlainItem(result, item)
  }

  /** optionToArray over the option's items; an empty option gives []. */
  function OptionArray(php: Php, items: seq<string>): Entries<Value> {
    if items == [] then [] else FoldItem(php, OptionArray(php, items[..|items| - 1]), items[|items| - 1])
  }

  /** optionToArray */
  method OptionToArray(php: Php, items: seq<string>) returns (result: Entries<Value>)
    ensures result == OptionArray(php, items)
  {
    result := [];
    if items == [] {
      return;
    }
    for i := 0 to |items|
      invariant result == OptionArray(php, items[..i])
    {
      var item := items[i];
      assert items[..i + 1][..i] == items[..i] && items[..i + 1][i] == item;
      if Bracketed(item) {
        var values := FixAndDecode(php, item);
        if values.DecodedArray? {
          result := Merge(result, values.entries);
          continue;
        }
      }
      if '=' in item {
        var (key, value) := SplitFirst(item, '=');
        result := Put(result, ArrayKey(key), VStr(value));
        continue;
      }
      result := Put(result, ArrayKey(item), VNull);
    }
    assert items[..|items|] == items;
  }

  /** An item that does not decode to an array: bracketed text whose repair
      does not decode to a non-empty array falls through like any other. */
  predicate IsPlain(php: Php, item: string) {
    !Bracketed(item) || DecodeResult(php, item).Original?
  }

  /** optionToArray gives an array with distinct keys. */
  lemma {:induction false} OptionArrayUnique(php: Php, items: seq<string>)
    ensures UniqueKeys(OptionArray(php, items))
    decreases |items|
  {
    if items != [] {
      var before := OptionArray(php, items[..|items| - 1]);
      OptionArrayUnique(php, items[..|items| - 1]);
      var item := items[|items| - 1];
      if Bracketed(item) && DecodeResult(php, item).DecodedArray? {
        MergeUnique(before, DecodeResult(php, item).entries);
      } else if '=' in item {
        var (key, value) := SplitFirst(item, '=');
        PutUnique(before, ArrayKey(key), VStr(value));
      } else {
        PutUnique(before, ArrayKey(item), VNull);
      }
    }
  }

  /** The key a plain item assigns: the text before the first `=`, or the
      whole item when it holds none. */
  function PlainKey(item: string): Key {
    ArrayKey(if '=' in item then SplitFirst(item, '=').0 else item)
  }

  /** A plain item `key=value` assigns the text after its first `=` under
      the text before it, overwriting any earlier value of that key, and
      leaves every other key as it was; a bare item assigns null under its
      whole text. */
  lemma PlainItemAssigns(php: Php, items: seq<string>, item: string)
    requires IsPlain(php, item)
    ensures var before, after := OptionArray(php, items), OptionArray(php, items + [item]);
      && ('=' in item ==> Get(after, ArrayKey(SplitFirst(item, '=').0)) == Some(VStr(SplitFirst(item, '=').1)))
      && ('=' !in item ==> Get(after, ArrayKey(item)) == Some(VNull))
      && (forall k :: k != PlainKey(item) ==> Get(after, k) == Get(before, k))
  {
    assert (items + [item])[..|items|] == items;
  }

  /** The last plain item naming a key decides its value: later plain items,
      `key=value` or bare, with other keys do not touch it. */
  lemma {:induction false} LastWriteWins(php: Php, items: seq<string>, i: nat)
    requires i < |items| && '=' in items[i] && IsPlain(php, items[i])
    requires forall j :: i < j < |items| ==> IsPlain(php, items[j]) && PlainKey(items[j]) != PlainKey(items[i])
    ensures Get(OptionArray(php, items), PlainKey(items[i])) == Some(VStr(SplitFirst(items[i], '=').1))
    decreases |items|
  {
    var front := items[..|items| - 1];
    assert front + [items[|items| - 1]] == items;
    PlainItemAssigns(php, front, items[|items| - 1]);
    if i < |items| - 1 {
      assert forall j :: i < j < |front| ==> front[j] == items[j];
      LastWriteWins(php, front, i);
    }
  }

  /** A decoded blob is merged with array_merge: its string keys override,
      earlier string keys survive, and the integer-keyed values of both are
      kept in order and renumbered from 0. */
  lemma BlobMerged(php: Php, items: seq<string>, item: string)
    requires Bracketed(item) && DecodeResult(php, item).DecodedArray?
    requires UniqueKeys(DecodeResult(php, item).entries)
    ensures var before, after, blob := OptionArray(php, items), OptionArray(php, items + [item]), DecodeResult(php, item).entries;
      && after == Merge(before, blob)
      && (forall s :: Get(after, StrKey(s)) == if HasKey(blob, StrKey(s)) then Get(blob, StrKey(s)) else Get(before, StrKey(s)))
      && IntEntries(after) == NumberedFrom(IntValues(before) + IntValues(blob), 0)
  {
    assert (items + [item])[..|items|] == items;
    var before, blob := OptionArray(php, items), DecodeResult(php, item).entries;
    OptionArrayUnique(php, items);
    forall s {
      MergeStringKeys(before, blob, s);
    }
    MergeIntegerKeys(before, blob);
  }

  // ---------------------------------------------------------------------------
  // appEnvironmentCheck

  /** The allowed_environments setting: a list, or a single value. */
  datatype EnvironmentSetting = EnvList(environments: seq<string>) | EnvScalar(environment: string)

  /** The setting as a list: a single value is a one-element list. */
  function AllowedList(setting: EnvironmentSetting): (r: seq<string>)
    ensures setting.EnvScalar? ==> r == [setting.environment]
  {
    match setting
    case EnvList(l) => l
    case EnvScalar(e) => [e]
  }

  /** appEnvironmentCheck */
  function EnvironmentCheck(setting: EnvironmentSetting, current: string): (r: Outcome<Thrown>)
    ensures r.Pass? <==> "*" in AllowedList(setting) || current in AllowedList(setting)
    ensures r.Fail? ==> r.error == LaraCall(EnvironmentNotAllowed)
  {
    var allowed := AllowedList(setting);
    if "*" in allowed || current in allowed then Pass else Fail(LaraCall(EnvironmentNotAllowed))
  }

  /** The configuration file's default, ['*'], allows every environment. */
  const DefaultEnvironments: EnvironmentSetting := EnvList(["*"])

  lemma DefaultAllowsEverywhere(current: string)
    ensures EnvironmentCheck(DefaultEnvironments, current) == Pass
  {
    assert "*" in AllowedList(DefaultEnvironments);
  }

  // ---------------------------------------------------------------------------
  // buildRouteContextFromCommandLine

  /** The route argument as routeName and routeUri: a leading `/` makes it a
      URI. */
  function RouteTarget(route: string): (r: (Option<string>, Option<string>))
    ensures StartsWith(route, "/") ==> r == (None, Some(route))
    ensures !StartsWith(route, "/") ==> r == (Some(route), None)
  {
    if StartsWith(route, "/") then (None, Some(route)) else (Some(route), None)
  }

  /** RouteMethod::tryFrom(strtoupper(option ?? '')) */
  function MethodOption(option: Option<string>): (r: Option<Method>)
  {
    TryFrom(Upper(option.GetOr("")))
  }

  /** The method option is matched without regard to the case of its
      letters; an absent option, or one naming no method, leaves the method
      unspecified. */
  lemma MethodOptionSpec(option: Option<string>)
    ensures MethodOption(option).Some? <==> option.Some? && exists m :: RouteMethods.Value(m) == Upper(option.value)
    ensures MethodOption(option).Some? ==> RouteMethods.Value(MethodOption(option).value) == Upper(option.value)
    ensures option.Some? && option.value == [] ==> MethodOption(option).None?
  {
    if option.None? {
      assert Upper("") == "";
    }
    var r := MethodOption(option);
    if r.Some? {
      assert RouteMethods.Value(r.value) == Upper(option.GetOr(""));
    }
  }

  /** The raw options of one invocation. */
  datatype CommandInput = CommandInput(
    route: Option<string>, methodOption: Option<string>, auth: Option<string>,
    params: seq<string>, headers: seq<string>, cookies: seq<string>, body: seq<string>,
    withoutMiddleware: bool, contextName: Option<string>)

  /** The constructor arguments buildRouteContextFromCommandLine passes. */
  function ContextArguments(php: Php, route: string, input: CommandInput): (args: Arguments)
    ensures (args.routeName, args.routeUri) == RouteTarget(route)
    ensures args.body.VArr? && IdentifierTyped(args.actingAsIdentifier)
  {
    var (routeName, routeUri) := RouteTarget(route);
    Arguments(
      input.contextName, routeName, routeUri, MethodOption(input.methodOption),
      OptionArray(php, input.params), OptionArray(php, input.headers), OptionArray(php, input.cookies),
      VArr(OptionArray(php, input.body)), input.withoutMiddleware,
      if input.auth.Some? then VStr(input.auth.value) else VNull,
      "application/json", "application/json")
  }

  // ---------------------------------------------------------------------------
  // The method check before dispatch

  /** The session is started and the CSRF token set unless the method is
      GET, HEAD or OPTIONS. */
  predicate StartsSession(m: Method) {
    RouteMethods.Value(m) !in ["GET", "HEAD", "OPTIONS"]
  }

  /** Exactly GET, HEAD and OPTIONS (the safe methods of section 9.2.1 of
      RFC 9110 without TRACE, which the enum lacks) go without a session. */
  lemma StartsSessionSpec(m: Method)
    ensures !StartsSession(m) <==> m == GET || m == HEAD || m == OPTIONS
  {
    match m
    case POST => assert RouteMethods.Value(m)[0] == 'P';
    case PUT => assert RouteMethods.Value(m)[0] == 'P';
    case PATCH => assert RouteMethods.Value(m)[0] == 'P';
    case DELETE => assert RouteMethods.Value(m)[0] == 'D';
    case ANY => assert RouteMethods.Value(m)[0] == 'A';
    case _ =>
  }

  // ---------------------------------------------------------------------------
  // resolveControllerMethodParameters

  /** `$request->route($param) ?? $request->input($param)`: the route's value,
      or the input's when the route has none (VNull). */
  function ParameterValue(routeValue: string -> Value, input: string -> Value, param: string): Value {
    if routeValue(param) != VNull then routeValue(param) else input(param)
  }

  /** The loop over the route's parameter names, by prefix. */
  function ControllerParameters(names: seq<string>, routeValue: string -> Value, input: string -> Value): Entries<Value> {
    if names == [] then []
    else
      var before := ControllerParameters(names[..|names| - 1], routeValue, input);
      var param := names[|names| - 1];
      var value := ParameterValue(routeValue, input, param);
      if value != VNull then Put(before, ArrayKey(param), value) else before
  }

  /** resolveControllerMethodParameters */
  method ResolveControllerMethodParameters(names: seq<string>, routeValue: string -> Value, input: string -> Value)
    returns (parameters: Entries<Value>)
    ensures parameters == ControllerParameters(names, routeValue, input)
  {
    parameters := [];
    for i := 0 to |names|
      invariant parameters == ControllerParameters(names[..i], routeValue, input)
    {
      assert names[..i + 1][..i] == names[..i] && names[..i + 1][i] == names[i];
      var param := names[i];
      var value := if routeValue(param) != VNull then routeValue(param) else input(param);
      if value != VNull {
        parameters := Put(parameters, ArrayKey(param), value);
      }
    }
    assert names[..|names|] == names;
  }

  /** A parameter is passed exactly when it is a route parameter whose value,
      from the route or else from the input, is not null, and it is passed
      that value. */
  lemma {:induction false} ControllerParametersSpec(names: seq<string>, routeValue: string -> Value, input: string -> Value, param: string)
    ensures var r := ControllerParameters(names, routeValue, input);
      var value := ParameterValue(routeValue, input, param);
      && (HasKey(r, ArrayKey(param)) <==> param in names && value != VNull)
      && (HasKey(r, ArrayKey(param)) ==> Get(r, ArrayKey(param)) == Some(value))
    decreases |names|
  {
    if names != [] {
      var front := names[..|names| - 1];
      var last := names[|names| - 1];
      ControllerParametersSpec(front, routeValue, input, param);
      var before := ControllerParameters(front, routeValue, input);
      var r := ControllerParameters(names, routeValue, input);
      var lastValue := ParameterValue(routeValue, input, last);
      assert names[..|names| - 1] == front;
      assert r == if lastValue != VNull then Put(before, ArrayKey(last), lastValue) else before;
      assert names == front + [last];
      assert param in names <==> param in front || param == last;
      if last != param {
        assert KeyText(ArrayKey(last)) == last && KeyText(ArrayKey(param)) == param;
        assert ArrayKey(last) != ArrayKey(param);
        assert Get(r, ArrayKey(param)) == Get(before, ArrayKey(param));
      }
    }
  }

  // ---------------------------------------------------------------------------
  // The response status

  /** The response, as far as its status goes: a Symfony response has a
      status code; anything else a controller returns has none. */
  datatype Response = SymfonyResponse(statusCode: int) | OtherResponse

  /** getResponseStatusCode */
  function ResponseStatusCode(response: Response): (code: int)
    ensures response.OtherResponse? ==> code == 0
  {
    match response
    case SymfonyResponse(code) => code
    case OtherResponse => 0
  }

  datatype Colour = Green | Red

  /** The colour outputResponse shows the status in. */
  function StatusColour(code: int): Colour {
    if code >= 200 && code < 300 then Green else Red
  }

  /** Only a successful (2xx) status is green, so a response without a status
      code is red. */
  lemma StatusColourSpec(response: Response)
    ensures StatusColour(ResponseStatusCode(response)) == Green
        <==> response.SymfonyResponse? && 200 <= response.statusCode <= 299
  {
  }

  // ---------------------------------------------------------------------------
  // callRoute and handleCommandLineCall up to the dispatch

  /** The command's configuration and the application environment. */
  datatype CommandConfig = CommandConfig(allowedEnvironments: EnvironmentSetting, environment: string)

  /** Everything the dispatch is given. */
  datatype PreparedCall = PreparedCall(
    request: RequestDescriptor, routeMethod: Method, startsSession: bool, actingAs: Option<Entity>,
    route: Route, populatedUri: string, withoutMiddleware: bool)

  /** How a run ends before the dispatch: nothing to call (exit code 0), a
      failure (exit code 1), or a prepared dispatch. */
  datatype Run = NothingToCall | Failed(error: Thrown) | Dispatch(call: PreparedCall)

  /** callRoute up to the dispatch. */
  function PlanCall(config: CommandConfig, input: CommandInput, rt: Runtime): Run {
    match EnvironmentCheck(config.allowedEnvironments, config.environment)
    case Fail(e) => Failed(e)
    case Pass =>
      if !TruthyText(input.route) then NothingToCall
      else PlanContextCall(ContextArguments(rt.php, input.route.value, input), input.withoutMiddleware, rt)
  }

  /** handleCommandLineCall up to the dispatch, for the context's arguments. */
  function PlanContextCall(args: Arguments, withoutMiddleware: bool, rt: Runtime): Run {
    var (s, outcome) := Hydration(Initial(args), rt);
    if outcome.Fail? then Failed(outcome.error) else PlanDispatch(s, withoutMiddleware, rt)
  }

  /** The request and the session decision for a hydrated context. */
  function PlanDispatch(s: State, withoutMiddleware: bool, rt: Runtime): Run {
    match BuildRequest(s, rt)
    case Err(e) => Failed(e)
    case Ok(request) =>
      // toRequest only succeeds once the route, the populated URI and the method are set
      assert s.route.Some? && s.populatedRouteUri.Some? && s.routeMethod.Some?;
      Dispatch(PreparedCall(request, s.routeMethod.value, StartsSession(s.routeMethod.value), s.actingAsEntity,
                              s.route.value, s.populatedRouteUri.value, withoutMiddleware))
  }

  /** The exit code of a run that ends before the dispatch. */
  function ExitCode(run: Run): (code: int)
    requires !run.Dispatch?
    ensures code == 0 <==> run.NothingToCall?
  {
    if run.NothingToCall? then 0 else 1
  }

  /** callRoute up to the dispatch. */
  method CallRoute(config: CommandConfig, input: CommandInput, rt: Runtime) returns (run: Run)
    ensures run == PlanCall(config, input, rt)
  {
    var gate := EnvironmentCheck(config.allowedEnvironments, config.environment);
    if gate.Fail? {
      return Failed(gate.error);
    }
    if !TruthyText(input.route) {
      return NothingToCall;
    }
    run := HandleCommandLineCall(input.route.value, input, rt);
  }

  /** handleCommandLineCall up to the dispatch. */
  method HandleCommandLineCall(route: string, input: CommandInput, rt: Runtime) returns (run: Run)
    ensures run == PlanContextCall(ContextArguments(rt.php, route, input), input.withoutMiddleware, rt)
  {
    var created := BuildRouteContextFromCommandLine(route, input, rt);
    if created.Err? {
      return Failed(created.error);
    }
    var context := created.value;
    var request := context.ToRequest();
    if request.Err? {
      return Failed(request.error);
    }
    assert context.route.Some? && context.populatedRouteUri.Some? && context.routeMethod.Some?;
    var m := context.routeMethod.value;
    return Dispatch(PreparedCall(request.value, m, StartsSession(m), context.actingAsEntity,
                                 context.route.value, context.populatedRouteUri.value, input.withoutMiddleware));
  }

  /** buildRouteContextFromCommandLine: the context for the route argument
      and the folded options, or what its hydration threw. */
  method BuildRouteContextFromCommandLine(route: string, input: CommandInput, rt: Runtime)
    returns (r: Result<RouteCallContext, Thrown>)
    ensures var (s, outcome) := Hydration(Initial(ContextArguments(rt.php, route, input)), rt);
      && (r.Ok? <==> outcome.Pass?)
      && (r.Ok? ==> fresh(r.value) && r.value.Snapshot() == s && r.value.rt == rt)
      && (r.Err? ==> r.error == outcome.error)
  {
    var isRouteUri := StartsWith(route, "/");
    var params := OptionToArray(rt.php, input.params);
    var headers := OptionToArray(rt.php, input.headers);
    var cookies := OptionToArray(rt.php, input.cookies);
    var body := OptionToArray(rt.php, input.body);
    var args := Arguments(
      input.contextName, if isRouteUri then None else Some(route), if isRouteUri then Some(route) else None,
      TryFrom(Upper(input.methodOption.GetOr(""))), params, headers, cookies, VArr(body), input.withoutMiddleware,
      if input.auth.Some? then VStr(input.auth.value) else VNull, "application/json", "application/json");
    assert args == ContextArguments(rt.php, route, input);
    r := Create(args, rt);
  }

  /** The environment gate runs before anything else: outside the allowed
      environments every run fails with environmentNotAllowed. */
  lemma EnvironmentGateFirst(config: CommandConfig, input: CommandInput, rt: Runtime)
    requires "*" !in AllowedList(config.allowedEnvironments) && config.environment !in AllowedList(config.allowedEnvironments)
    ensures PlanCall(config, input, rt) == Failed(LaraCall(EnvironmentNotAllowed))
  {
  }

  /** With no route argument (or a falsy one such as "0") the command
      succeeds without calling anything. */
  lemma NoRouteNothingToCall(config: CommandConfig, input: CommandInput, rt: Runtime)
    requires EnvironmentCheck(config.allowedEnvironments, config.environment).Pass?
    requires !TruthyText(input.route)
    ensures PlanCall(config, input, rt) == NothingToCall && ExitCode(NothingToCall) == 0
  {
  }

  /** A prepared dispatch calls the resolved route with the resolved method,
      starts a session exactly for methods other than GET, HEAD and OPTIONS,
      and its request goes to the populated URI. */
  lemma DispatchSpec(config: CommandConfig, input: CommandInput, rt: Runtime)
    requires PlanCall(config, input, rt).Dispatch?
    ensures var call := PlanCall(config, input, rt).call;
      && call.request.httpMethod == RouteMethods.Value(call.routeMethod)
      && call.request.uri == call.populatedUri
      && (call.startsSession <==> !(call.routeMethod == GET || call.routeMethod == HEAD || call.routeMethod == OPTIONS))
      && call.withoutMiddleware == input.withoutMiddleware
  {
    var call := PlanCall(config, input, rt).call;
    StartsSessionSpec(call.routeMethod);
  }

  /** The header quirk: the command folds `--header` items into a key/value
      array and the context then looks for `=` in the values only, so
      `name=value` with no `=` in the value contributes nothing, and
      `a=b=c` sets the variable for `b` to `c`. */
  lemma HeaderValuesOnly(php: Php, key: string, value: string)
    requires '=' !in key && !Bracketed(key + "=" + value)
    ensures var item := key + "=" + value;
      var parsed := ParsedHeaders(OptionArray(php, [item]), []);
      && OptionArray(php, [item]) == [(ArrayKey(key), VStr(value))]
      && ('=' !in value ==> parsed == Ok([]))
      && ('=' in value ==> parsed == Ok([(StrKey(HeaderVariable(SplitFirst(value, '=').0)), SplitFirst(value, '=').1)]))
  {
    var item := key + "=" + value;
    assert item[|key|] == '=';
    assert '=' in item;
    var (k, v) := SplitFirst(item, '=');
    SplitUnique(key, value, k, v);
    assert [item][..0] == [];
  }

  /** Splitting `key=value` at its first `=` gives back `key` when `key` holds
      no `=`. */
  lemma SplitUnique(key: string, value: string, k: string, v: string)
    requires '=' !in key && '=' !in k && k + "=" + v == key + "=" + value
    ensures k == key && v == value
  {
    var t := key + "=" + value;
    assert forall j :: 0 <= j < |k| ==> t[j] == k[j] != '=';
    assert forall j :: 0 <= j < |key| ==> t[j] == key[j] != '=';
    assert t[|k|] == '=' && t[|key|] == '=';
    assert k == (k + "=" + v)[..|k|];
    assert key == (key + "=" + value)[..|key|];
    assert v == (k + "=" + v)[|k| + 1..];
    assert value == (key + "=" + value)[|key| + 1..];
  }
}
