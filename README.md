# laracall `route:call` — a Dafny model

laracall is a Laravel package whose `route:call` console command calls a
route of the application from the command line. This project models the
command's own logic:

- **Folding the options.** The repeated `--param`, `--header`, `--cookie`
  and `--body` options become PHP arrays (`optionToArray`). Relaxed JSON
  blobs such as `{name: test}` are first repaired by `JsonInputDecoder` and
  then merged with `array_merge`.
- **The environment gate.** The command only runs in an allowed environment.
- **Route name or URI.** A route argument with a leading `/` is a URI;
  anything else is a route name.
- **Hydrating the route-call context.** `RouteCallContext`:
  - resolves the route by name or by URI from the ordered route table;
  - reconciles the HTTP method with the route's methods;
  - splits the parameters into URI placeholders and query parameters;
  - normalises the body;
  - resolves the acting-as entity through the configured identifier columns.
- **Building the request description.** This includes the CGI server
  variables of section 4.1.18 of RFC 3875 (`HTTP_` + upper-cased name with
  `-` turned into `_`).
- **Around the dispatch:** the session and CSRF rule for methods other than
  GET, HEAD and OPTIONS (the safe methods of section 9.2.1 of RFC 9110 less
  TRACE), the controller-parameter loop of a dispatch without middleware,
  and the colour of the response status.
- **The types around these:** the eight-case `RouteMethod` enum and the
  package's exception kinds with their exact messages.

Modules, one per file, in dependency order:

| file | module | what it holds |
|---|---|---|
| `wrappers.dfy` | `Wrappers` | `Option`, `Result`, `Outcome` |
| `text.dfy` | `Text` | the PHP string functions: `trim`, `strtoupper`, `str_replace`, `strpos`, `implode`, decimal text |
| `php_arrays.dfy` | `PhpArrays` | PHP values and ordered arrays, key casting, `array_merge`, truthiness, the uninterpreted built-ins |
| `route_method.dfy` | `RouteMethods` | the `RouteMethod` enum, `from`/`tryFrom` |
| `lara_call_exception.dfy` | `LaraCallExceptions` | the six exception kinds, their messages, and PHP's own errors |
| `json_input_decoder.dfy` | `JsonInputDecoder` | `splitTopLevel`, `getMatchingBrace`, `fixValue`/`fixObject`/`fixArray`/`fixJson`/`fixAndDecode` |
| `route_call_context.dfy` | `CallContext` | hydration as pure step functions, and the class `RouteCallContext` proved to follow them |
| `lara_call_command.dfy` | `LaraCallCommand` | `optionToArray`, the environment gate, `callRoute` and `handleCommandLineCall` up to the dispatch, the session rule, controller parameters, status colour |
| `scenarios.dfy` | `Scenarios` | the feature tests' calls against the test application's route table, as lemmas |

The files follow the form of the source. Each loop of the source is a
`method` with a `for` or `while` loop, proved equal to a recursive
specification function. The loops are:

- `splitTopLevel`, `getMatchingBrace`, `fixObject` and `fixArray`;
- `optionToArray` and `resolveControllerMethodParameters`;
- the URI scan of `resolveRoute`, `generatePopulatedUriAndParameters`,
  `parseHeaders` and `resolveActingAsEntity`.

The properties the source promises are lemmas about those functions.
`RouteCallContext` is a class whose fields are the PHP properties. Its
methods assign them step by step, as `hydrate` does, and their contracts tie
the new state (`Snapshot()`) to the step functions `RouteSteps`,
`MethodSteps`, `PopulateSteps` and `Hydration`.

A step that throws leaves the fields assigned before it, as in PHP. PHP's own
errors are values of `Thrown`:

- a strict-types `TypeError`;
- the `ValueError` of `RouteMethod::from`;
- reading an uninitialised typed property;
- a warning that Laravel's error handler turns into an `ErrorException`.

The framework around the core is a parameter (`Runtime`). It holds:

- the route table, as Laravel stores it: URIs without the leading `/`, and
  `get` routes registered for GET and HEAD;
- the acting-as configuration;
- an entity lookup `find(entityClass, column, identifier)`;
- the built-ins `is_numeric`, `json_decode` and `json_encode`, as
  uninterpreted functions (`Php`).

Two behaviours are stated as the code has them, where the command's own
help text or message wording suggests otherwise:

- **A route with no methods, or whose first method is not an enum case.**
  The help text of `--method` says the method defaults to the route's
  method or GET (src/Commands/LaraCallCommand.php:28). `resolveRouteMethod`
  takes `RouteMethod::from(strtoupper($route->methods[0]))`
  (src/Data/RouteCallContext.php:131). So with no `--method`, a route with
  no methods raises a warning (an undefined array key) rather than falling
  back to GET, and a route whose first method is not one of the eight cases
  raises a `ValueError`. The model raises both.
- **A URI that is not found.** It is reported as "Route with name `/x` not
  found", with the slash the user typed (src/Data/RouteCallContext.php:156).

## Model

| member | source | states |
|---|---|---|
| RouteMethods.TryFrom | src/Enums/RouteMethod.php:5-14 | `tryFrom` finds a case exactly when the text is that case's value, and finds none otherwise |
| RouteMethods.AllMethodsComplete | src/Enums/RouteMethod.php:7-14 | every method is among eight pairwise distinct cases |
| RouteMethods.ValueInjective | src/Enums/RouteMethod.php:7-14 | two cases with the same string value are the same case |
| RouteMethods.TryFromValue | src/Enums/RouteMethod.php:5-14 | parsing a case's own value gives that case back |
| RouteMethods.TryFromExact | src/Enums/RouteMethod.php:5-14 | lower- or mixed-case text, an unknown verb and the empty string parse to nothing |
| LaraCallExceptions.RouteNotFoundMessageInjective | src/Exceptions/LaraCallException.php:12-15 | the route-not-found message determines the route it names |
| LaraCallExceptions.MethodNotAllowedMessageInjective | src/Exceptions/LaraCallException.php:17-20 | the method-not-allowed message determines both route and method when the route holds no backtick |
| LaraCallExceptions.MessageDeterminesKind | src/Exceptions/LaraCallException.php:5-36 | equal messages come from exceptions of the same kind |
| LaraCallExceptions.SignatureOfMessage | src/Exceptions/LaraCallException.php:5-36 | each kind's message has a fixed first, seventh and last character that tells the kinds apart |
| LaraCallExceptions.NotFoundMessagesMention | src/Exceptions/LaraCallException.php:22-30 | the entity-not-found message contains the entity class and the identifier; the auth-user message contains the identifier |
| Text.TrimSpec | src/Helpers/JsonInputDecoder.php:94 | `trim` removes exactly the leading and trailing whitespace run and keeps the middle |
| Text.IndexOf | src/Helpers/JsonInputDecoder.php:59 | `strpos` of a character is its first position, or none exactly when it is absent |
| Text.SplitFirst | src/Commands/LaraCallCommand.php:304 | `explode('=', item, 2)` gives the text before the first `=` and everything after it |
| Text.Upper | src/Commands/LaraCallCommand.php:153 | `strtoupper` keeps the length and maps each character |
| Text.ReplaceAllAbsent | src/Data/RouteCallContext.php:204 | `str_replace` leaves a text without the placeholder unchanged |
| Text.PlaceholderSurvives | src/Data/RouteCallContext.php:204 | replacing one placeholder `{q}` leaves every other placeholder `{p}` in the text |
| Text.DecimalRoundTrip | src/Commands/LaraCallCommand.php:305 | canonical decimal text read as a number prints back to the same text (PHP's integer-string key cast) |
| PhpArrays.ArrayKey | src/Commands/LaraCallCommand.php:305 | an array key cast from a string reads back as that string, and a string key is the string itself |
| PhpArrays.Get | src/Commands/LaraCallCommand.php:305 | a lookup finds a value exactly when the key is present, and the value is stored under that key |
| PhpArrays.Put | src/Commands/LaraCallCommand.php:305 | an assignment sets the key and leaves every other key's value unchanged |
| PhpArrays.PutPositions | src/Data/RouteCallContext.php:208 | assigning a new key appends it at the end; assigning an existing key keeps every position's key |
| PhpArrays.PutUnique | src/Commands/LaraCallCommand.php:305 | assignment keeps keys unique |
| PhpArrays.MergeUnique | src/Commands/LaraCallCommand.php:298 | `array_merge` gives unique keys |
| PhpArrays.MergeStringKeys | src/Commands/LaraCallCommand.php:298 | under `array_merge` a string key takes the second array's value when it has one, and the first's otherwise |
| PhpArrays.MergeIntegerKeys | src/Commands/LaraCallCommand.php:298 | under `array_merge` the integer-keyed values of both arrays are renumbered 0, 1, 2, … in order |
| JsonInputDecoder.SplitTopLevel | src/Helpers/JsonInputDecoder.php:123-142 | the loop returns the parts of the depth-counting split |
| JsonInputDecoder.PartsShorter | src/Helpers/JsonInputDecoder.php:123-142 | no part is longer than the input (so the fixers' recursion terminates) |
| JsonInputDecoder.SplitJoin | src/Helpers/JsonInputDecoder.php:123-142 | there are no parts exactly when the input is empty, and joining the parts gives back the input, less a trailing top-level separator |
| JsonInputDecoder.NoTopLevelSeparator | src/Helpers/JsonInputDecoder.php:133-140 | without a separator at depth 0 the input is one part (none when empty) |
| JsonInputDecoder.FirstTopLevelSeparator | src/Helpers/JsonInputDecoder.php:133-135 | the input is cut at its first depth-0 separator and the rest is split the same way from depth 0 |
| JsonInputDecoder.UnmatchedCloserStopsSplitting | src/Helpers/JsonInputDecoder.php:129-133 | once an unmatched closer makes the depth negative, no later separator is cut at unless an opener follows |
| JsonInputDecoder.GetMatchingBrace | src/Helpers/JsonInputDecoder.php:151-167 | the loop returns the closer position of the specification, always after the start and inside the text |
| JsonInputDecoder.MatchingBraceFirstZero | src/Helpers/JsonInputDecoder.php:151-167 | the result is the first position where openers minus closers of the same kind reach zero, and holds the closer; none means the counter never reaches zero |
| JsonInputDecoder.MatchingBracePrefix | src/Helpers/JsonInputDecoder.php:151-167 | the result depends only on the text up to the closer |
| JsonInputDecoder.FixValue | src/Helpers/JsonInputDecoder.php:93-114 | fixValue returns the specified fixed value |
| JsonInputDecoder.FixedValueScalars | src/Helpers/JsonInputDecoder.php:93-114 | literals and numeric text are returned trimmed and unchanged; other text without a matched bracket is wrapped in quotes, unescaped |
| JsonInputDecoder.FixedValueBracket | src/Helpers/JsonInputDecoder.php:99-110 | a bracketed value with a matching closer is fixed as the object or array of its interior |
| JsonInputDecoder.FixedValueDiscardsTail | src/Helpers/JsonInputDecoder.php:99-110 | text after the matching closer does not change the fixed value |
| JsonInputDecoder.FixObject | src/Helpers/JsonInputDecoder.php:55-70 | the loop returns the specified fixed object |
| JsonInputDecoder.FixedObjectPairs | src/Helpers/JsonInputDecoder.php:55-70 | the object is `{` + the comma-joined pairs that hold a colon, each as quoted key `:` fixed value, in order + `}` |
| JsonInputDecoder.FixedPairsFilterMap | src/Helpers/JsonInputDecoder.php:58-68 | one fixed pair per top-level part with a colon, in order, split at the first colon |
| JsonInputDecoder.FixArray | src/Helpers/JsonInputDecoder.php:78-85 | the loop returns the specified fixed array |
| JsonInputDecoder.FixedArrayElements | src/Helpers/JsonInputDecoder.php:78-85 | the array is `[` + exactly one fixed value per top-level element, comma-joined in order + `]` |
| JsonInputDecoder.FixedElementsMap | src/Helpers/JsonInputDecoder.php:81-83 | the k-th fixed element is the fixed value of the k-th element |
| JsonInputDecoder.FixJson | src/Helpers/JsonInputDecoder.php:40-47 | fixJson returns the specified repair, dispatching on the first character |
| JsonInputDecoder.FixAndDecode | src/Helpers/JsonInputDecoder.php:19-32 | fixAndDecode returns the specified decoding result |
| JsonInputDecoder.DecodeResult | src/Helpers/JsonInputDecoder.php:19-32 | the result is the decoded array exactly when the trimmed text is bracketed and decodes to a non-empty array; otherwise it is the original, untrimmed text |
| CallContext.LastNamed | src/Data/RouteCallContext.php:137 | `getByName` finds the last route registered under the name, or none when no route has it |
| CallContext.FirstUriMatch | src/Data/RouteCallContext.php:147-154 | the URI scan finds the first route with that URI that allows the specified method, or none when no route qualifies |
| CallContext.ScanUri | src/Data/RouteCallContext.php:145 | exactly one leading `/` is stripped |
| CallContext.ResolveByName | src/Data/RouteCallContext.php:136-143 | by name, resolution succeeds exactly when some route has the name; the route found has that name and is its last registration; otherwise `routeNotFound(name)` |
| CallContext.ResolveByUri | src/Data/RouteCallContext.php:145-156 | by URI, resolution succeeds exactly when a route matches; the route found is the first match; otherwise `routeNotFound` with the URI as given |
| CallContext.MethodResolutionSpec | src/Data/RouteCallContext.php:115-132 | a specified method is kept when the route allows it, and never falls back otherwise (`routeMethodNotAllowed(name ?? uri, method)`); an unspecified method becomes GET in the property and the result is the route's upper-cased first method |
| CallContext.PopulateFails | src/Data/RouteCallContext.php:202-206 | populating fails exactly when a route parameter's value is not a string (strict types) |
| CallContext.PopulateQueryKeys | src/Data/RouteCallContext.php:202-209 | every query key was already a query key or is a supplied key that names no route parameter |
| CallContext.PopulateQueryOrder | src/Data/RouteCallContext.php:202-209 | the query parameters gain the non-route parameters, in insertion order, after the existing ones |
| CallContext.PopulateKeepsUri | src/Data/RouteCallContext.php:199-211 | without route parameters among the keys, the populated URI is the template |
| CallContext.UnsuppliedPlaceholderStays | src/Data/RouteCallContext.php:199-211 | a placeholder whose name was not supplied stays literal in the populated URI |
| CallContext.NormalizedBody | src/Data/RouteCallContext.php:227-238 | a falsy or array body is kept; a string body becomes its JSON decoding, or is kept when that fails; a typed body stays typed |
| CallContext.ResolvedBody | src/Data/RouteCallContext.php:103-113 | a falsy body gives no content; a string is passed through; an array is JSON-encoded (a failed encoding breaks the `?string` return type) |
| CallContext.HeaderVariable | src/Data/RouteCallContext.php:220 | the server variable name is `HTTP_` followed by one character per header-name character |
| CallContext.ParsedHeadersSpec | src/Data/RouteCallContext.php:214-225 | parsing fails, with a TypeError, exactly when a header value is not a string; otherwise keys stay unique and only `HTTP_` names appear; each variable holds the text after the first `=` of the last value holding `=` that names it (or its earlier value when none does); every value holding `=` yields its variable, and every other variable was already there |
| CallContext.ParsedHeadersValues | src/Data/RouteCallContext.php:217-221 | after the header loop a variable holds the text of the last header value that sets it, and otherwise what it held before |
| CallContext.LastSettingSpec | src/Data/RouteCallContext.php:217-221 | the last setting of a variable is none exactly when no header value (a string holding `=`, split at its first `=`) names it, and otherwise the text after the `=` of a value that names it with no later value naming it |
| CallContext.ServerVariablesSpec | src/Data/RouteCallContext.php:92-98 | the defaults are `HTTP_ACCEPT` = accept and `CONTENT_TYPE` = application/json (not the contentType property); a parsed header overrides `HTTP_ACCEPT`, and every parsed header is kept |
| CallContext.FirstFound | src/Data/RouteCallContext.php:179-191 | the identifier columns are tried in order and the first match is taken |
| CallContext.ActingAsEntity | src/Data/RouteCallContext.php:168-195 | no identifier gives no entity; otherwise the first match over the columns, or `customActingAsEntityNotFound` when a custom entity class is set and `authUserNotFound` otherwise |
| CallContext.HydrationWithoutRoute | src/Data/RouteCallContext.php:64-76 | with neither name nor URI only the acting-as entity changes, and it is the only thing that can fail |
| CallContext.HydrationResolves | src/Data/RouteCallContext.php:64-76 | after a successful hydration: the route is the resolved one, its name and template URI overwrite routeName and routeUri, the method is allowed (or the first declared one), the URI is populated, the query parameters hold no route parameter, and the acting-as entity is resolved |
| CallContext.HydrationFailureKeepsRoute | src/Data/RouteCallContext.php:64-76 | a failed resolution changes only the cached route table; a later failure keeps the resolved route |
| CallContext.HydrationConsistent | src/Data/RouteCallContext.php:19-45 | hydration keeps the typed-property invariant: a set route comes with a set method, and body and identifier keep their declared types |
| CallContext.CallableIffRoute | src/Data/RouteCallContext.php:52-59 | toRequest fails with `routeContextNotCallable` exactly when no route is set |
| CallContext.BuildRequestSpec | src/Data/RouteCallContext.php:81-101 | a callable context's request uses the populated URI, the method's value, the query parameters and the cookies unchanged; it fails only with a TypeError from a header or the body |
| CallContext.CreatedContextRequest | src/Data/RouteCallContext.php:32-101 | a context built with a route name or URI that hydrates is callable, and its request carries the populated URI, the method and query parameters that name no route parameter |
| CallContext.RouteCallContext.constructor | src/Data/RouteCallContext.php:32-45 | the promoted properties are set from the arguments and the others start unset |
| CallContext.RouteCallContext.IsCallable | src/Data/RouteCallContext.php:52-59 | hydrates again when asked, then reports whether the route is set |
| CallContext.RouteCallContext.Hydrate | src/Data/RouteCallContext.php:64-76 | the new fields and the outcome are those of `Hydration` |
| CallContext.RouteCallContext.HydrateRoute | src/Data/RouteCallContext.php:66-73 | the route steps, field by field, as `RouteSteps` |
| CallContext.RouteCallContext.HydrateMethod | src/Data/RouteCallContext.php:70-72 | the steps from resolveRouteMethod on, as `MethodSteps` |
| CallContext.RouteCallContext.HydratePopulate | src/Data/RouteCallContext.php:71-72 | populate then normalise, as `PopulateSteps` |
| CallContext.RouteCallContext.RouteCollection | src/Data/RouteCallContext.php:159-166 | the route table is fetched once and cached in `routes` |
| CallContext.RouteCallContext.ResolveRoute | src/Data/RouteCallContext.php:134-157 | returns the resolved route or the error, caching only the table |
| CallContext.RouteCallContext.ResolveRouteMethod | src/Data/RouteCallContext.php:115-132 | the method property and the result are those of `MethodResolution` |
| CallContext.RouteCallContext.GeneratePopulatedUriAndParameters | src/Data/RouteCallContext.php:197-212 | the loop leaves the query parameters and populated URI of `Populate`, and on a TypeError the query parameters assigned so far |
| CallContext.RouteCallContext.NormalizeRequestBody | src/Data/RouteCallContext.php:227-238 | the body becomes its normalised value |
| CallContext.RouteCallContext.ResolveActingAsEntity | src/Data/RouteCallContext.php:168-195 | the column loop returns `ActingAsEntity` |
| CallContext.RouteCallContext.ParseHeaders | src/Data/RouteCallContext.php:214-225 | the header loop returns `ParsedHeaders` |
| CallContext.RouteCallContext.ToRequest | src/Data/RouteCallContext.php:81-101 | returns `BuildRequest` of the current fields |
| CallContext.Create | src/Data/RouteCallContext.php:32-47 | `new RouteCallContext(...)` succeeds exactly when hydration passes, with the hydrated fields, and otherwise throws hydration's error |
| LaraCallCommand.OptionToArray | src/Commands/LaraCallCommand.php:283-313 | the loop returns the fold `OptionArray` over the items |
| LaraCallCommand.OptionArrayUnique | src/Commands/LaraCallCommand.php:283-313 | the folded option has unique keys |
| LaraCallCommand.PlainItemAssigns | src/Commands/LaraCallCommand.php:303-309 | `key=value` assigns the value under the text before the first `=`; a bare item assigns null under its whole text; no other key changes |
| LaraCallCommand.LastWriteWins | src/Commands/LaraCallCommand.php:303-309 | a `key=value` item decides its key's value when every later item is plain (`key=value` or bare) and assigns a different key |
| LaraCallCommand.BlobMerged | src/Commands/LaraCallCommand.php:292-301 | a decodable blob is merged with `array_merge`: its string keys override, and integer keys are appended and renumbered |
| LaraCallCommand.AllowedList | src/Commands/LaraCallCommand.php:72-75 | a scalar setting is a one-element list |
| LaraCallCommand.EnvironmentCheck | src/Commands/LaraCallCommand.php:70-82 | the gate passes exactly when the list holds `*` or the current environment, compared as exact text, and otherwise fails with `environmentNotAllowed` |
| LaraCallCommand.DefaultAllowsEverywhere | src/Commands/LaraCallCommand.php:72 | the default `['*']` allows every environment |
| LaraCallCommand.RouteTarget | src/Commands/LaraCallCommand.php:146-152 | a route argument starting with `/` is the URI, anything else the name |
| LaraCallCommand.MethodOptionSpec | src/Commands/LaraCallCommand.php:153 | the method option is a method exactly when its upper-cased text is a case's value; an absent or empty option is unspecified |
| LaraCallCommand.ContextArguments | src/Commands/LaraCallCommand.php:144-161 | the context gets the name/URI choice of `RouteTarget`, an array body and a typed identifier |
| LaraCallCommand.StartsSessionSpec | src/Commands/LaraCallCommand.php:102-108 | the session and CSRF token are set exactly when the method is not GET, HEAD or OPTIONS |
| LaraCallCommand.ResolveControllerMethodParameters | src/Commands/LaraCallCommand.php:180-194 | the loop returns `ControllerParameters` |
| LaraCallCommand.ControllerParametersSpec | src/Commands/LaraCallCommand.php:180-194 | a parameter is passed exactly when it is a route parameter whose value (the route's, else the input's) is not null, and it is passed that value |
| LaraCallCommand.ResponseStatusCode | src/Commands/LaraCallCommand.php:274-281 | a response that is not a Symfony response reports status 0 |
| LaraCallCommand.StatusColourSpec | src/Commands/LaraCallCommand.php:240 | the status is green exactly for a Symfony response with a 2xx status, and red otherwise |
| LaraCallCommand.ExitCode | src/Commands/LaraCallCommand.php:40-68 | a run that ends before the dispatch exits with 0 exactly when there was nothing to call, and with 1 on an error |
| LaraCallCommand.CallRoute | src/Commands/LaraCallCommand.php:58-68 | callRoute runs the plan `PlanCall` |
| LaraCallCommand.HandleCommandLineCall | src/Commands/LaraCallCommand.php:94-115 | builds the context, the request and the session decision, as `PlanContextCall` |
| LaraCallCommand.BuildRouteContextFromCommandLine | src/Commands/LaraCallCommand.php:144-161 | the context is created from the command-line arguments, or hydration's error is thrown |
| LaraCallCommand.EnvironmentGateFirst | src/Commands/LaraCallCommand.php:58-82 | in a disallowed environment the command fails with `environmentNotAllowed` before anything else |
| LaraCallCommand.NoRouteNothingToCall | src/Commands/LaraCallCommand.php:63-67 | without a route argument the command succeeds with exit code 0 and calls nothing |
| LaraCallCommand.DispatchSpec | src/Commands/LaraCallCommand.php:94-124 | a dispatched request carries the resolved method's value and the populated URI; the session starts exactly for methods other than GET, HEAD and OPTIONS; and `--without-middleware` is passed on |
| LaraCallCommand.HeaderValuesOnly | src/Commands/LaraCallCommand.php:155 | `--header=K=V` is folded to `[K => V]`, and parseHeaders reads only the value: it is dropped unless V holds `=`, and V = `a=b` yields `HTTP_A => b` |
| Scenarios.PlainCall | src/Commands/LaraCallCommand.php:94-124 | any plain invocation whose route and method resolve dispatches that route with that method, no query, no content and no acting-as entity |
| Scenarios.PlainFailure | src/Commands/LaraCallCommand.php:40-53 | a plain invocation whose resolution fails ends with that error and exit code 1 |
| Scenarios.IndexNamedOnce | tests/TestCase.php:59 | in the test routes `messages.index` names the first route only |
| Scenarios.StoreNamedOnce | tests/TestCase.php:60 | in the test routes `messages.store` names the second route only |
| Scenarios.CallIndexByUri | tests/Feature/RouteCallCommandWithArgumentsAndOptionsTest.php:4-13 | `route:call /messages` calls `messages` with GET |
| Scenarios.CallIndexByName | tests/Feature/RouteCallCommandWithArgumentsAndOptionsTest.php:15-24 | `route:call messages.index` calls `messages` with GET |
| Scenarios.CallUnknownUri | tests/Feature/RouteCallCommandWithArgumentsAndOptionsTest.php:26-33 | `route:call /non-existent` exits 1 with "Route with name `/non-existent` not found" |
| Scenarios.CallUnknownName | tests/Feature/RouteCallCommandWithArgumentsAndOptionsTest.php:35-42 | `route:call non-existent` exits 1 with "Route with name `non-existent` not found" |
| Scenarios.CallIndexWithPost | tests/Feature/RouteCallCommandWithArgumentsAndOptionsTest.php:44-51 | `route:call messages.index --method=POST` exits 1 with "Route with name `messages.index` does not allow method `POST`" |
| Scenarios.CallStoreByName | tests/Feature/RouteCallCommandWithArgumentsAndOptionsTest.php:53-62 | `route:call messages.store` calls `messages` with the route's POST and starts a session |
| Scenarios.CallStoreByUriAndMethod | tests/Feature/RouteCallCommandWithArgumentsAndOptionsTest.php:64-73 | `route:call /messages --method=POST` skips the GET route and calls the POST route |

## Left out

- LaraCallCommand.EnvironmentCheck: `in_array` at
  src/Commands/LaraCallCommand.php:77 compares loosely, and the model
  compares environment names as exact text. The model also takes the setting
  to hold strings only. So it does not capture PHP 8's numeric-string
  equality (allowed `["1e1"]` passes in environment `10` in PHP and fails in
  the model). Nor can it express a non-string setting such as `true`, which
  PHP wraps as `[true]` and which `in_array('*', [true])` accepts.
- CallContext.NamesRouteParameter: `in_array($key, $routeParams)` at
  src/Data/RouteCallContext.php:203 is also loose, and the model compares the
  key's text exactly. They differ only for a numeric route-parameter name
  that is not canonical decimal text, such as `01` for the key `1`. Laravel's
  route compiler rejects parameter names that start with a digit.
- The dispatch and everything after it: `Router::dispatch`,
  `dispatchWithoutMiddleware`'s container calls, `bootstrapHttpKernel`, the
  session and `csrf_token`, `Auth::login`, binding the request in the
  container. These are framework calls. The model ends at `Run.Dispatch`,
  which records what would be dispatched, including whether a session is
  started.
- Output: `outputResponse`, `outputExceptionThrown`, `dump`, `info`, the
  response headers and content, and the elapsed time (`microtime`, floating
  point). Only the status-code and colour choice are modelled.
- `appDebugCheck`. It only writes the framework's configuration.
- `json_decode`, `json_encode` and `is_numeric` are uninterpreted functions.
  So the model proves nothing about whether the repaired text is valid JSON
  in the sense of RFC 8259. It states the text `fixJson` produces and that
  `fixAndDecode` returns whatever `json_decode` makes of it.
- Eloquent queries and the auth user provider are the one lookup function
  `find`. The configuration values (`acting_as_entity`,
  `acting_as_identifiers`, `allowed_environments`) are parameters, with the
  shipped defaults as constants.
- CallContext.Populate: the model does not claim that no `{key}` is left
  after substitution. This is weaker than "every occurrence is replaced",
  because `str_replace` scans once, left to right, so a value can rebuild
  the placeholder: key `ab`, value `a` and URI `{{ab}b}` give `{ab}`. What
  is proved is the scan itself (`ReplaceAll`), that other placeholders and
  unsupplied placeholders survive, and that a URI with no route parameters
  is unchanged.
- Route methods are kept as strings, as Laravel stores them, so that
  `RouteMethod::from` can fail on them as it does in PHP.
- Scenarios.CallStoreByUriAndMethod: the test also passes
  `--body={"name":"test"}` and `--output-raw`. The scenario leaves the body
  out, because decoding it goes through the uninterpreted `json_decode`, and
  the raw output is not modelled. The controllers' responses are not
  modelled, so no scenario states the exit code 0 or the response text of a
  successful call.
- The interactive menu, the service provider, the facade and the reflection
  helper `UsefulEnum` are not part of this model.
- PHP integers are 64-bit. Integer keys produced by the key cast are bounded
  by `PhpArrays.MinInt`/`MaxInt`, and renumbering under `array_merge` is not
  bounded. No option array comes near the limit.
