/** The closed set of HTTP methods a call may name, backed by strings. */
module RouteMethods {
  import opened Wrappers

  datatype Method = GET | POST | PUT | PATCH | DELETE | OPTIONS | HEAD | ANY

  /** Every case, in declaration order. */
  const AllMethods: seq<Method> := [GET, POST, PUT, PATCH, DELETE, OPTIONS, HEAD, ANY]

  /** The backing string of a case: its own name. */
  function Value(m: Method): string {
    match m
    case GET => "GET"
    case POST => "POST"
    case PUT => "PUT"
    case PATCH => "PATCH"
    case DELETE => "DELETE"
    case OPTIONS => "OPTIONS"
    case HEAD => "HEAD"
    case ANY => "ANY"
  }

  /** RouteMethod::tryFrom: the case whose backing string is exactly `s`
      (RouteMethod::from is the same lookup, throwing a ValueError instead
      of returning none). */
  function TryFrom(s: string): (r: Option<Method>)
    ensures r.Some? ==> Value(r.value) == s
    ensures r.None? ==> forall m :: Value(m) != s
  {
    if s == "GET" then Some(GET)
    else if s == "POST" then Some(POST)
    else if s == "PUT" then Some(PUT)
    else if s == "PATCH" then Some(PATCH)
    else if s == "DELETE" then Some(DELETE)
    else if s == "OPTIONS" then Some(OPTIONS)
    else if s == "HEAD" then Some(HEAD)
    else if s == "ANY" then Some(ANY)
    else None
  }

  /** There are exactly eight cases, all distinct, and every method is one of them. */
  lemma AllMethodsComplete(m: Method)
    ensures m in AllMethods
    ensures |AllMethods| == 8
    ensures forall i, j :: 0 <= i < j < |AllMethods| ==> AllMethods[i] != AllMethods[j]
  {
  }

  /** Distinct cases have distinct backing strings. */
  lemma ValueInjective(a: Method, b: Method)
    requires Value(a) == Value(b)
    ensures a == b
  {
    assert Value(a)[0] == Value(b)[0] && |Value(a)| == |Value(b)|;
    if Value(a)[0] == 'P' {
      assert Value(a)[1] == Value(b)[1];
    }
  }

  /** Parsing a case's own value gives the case back. */
  lemma {:induction false} TryFromValue(m: Method)
    ensures TryFrom(Value(m)) == Some(m)
  {
    var r := TryFrom(Value(m));
    ValueInjective(r.value, m);
  }

  /** Parsing is exact: lower-case spellings and the empty string are not methods. */
  lemma TryFromExact()
    ensures TryFrom("get") == None
    ensures TryFrom("Post") == None
    ensures TryFrom("") == None
    ensures TryFrom("TRACE") == None
  {
  }
}
