/** The package's own error kinds and their message texts, and the other
    failures a call can end in. */
module LaraCallExceptions {
  import opened Text
  import Wrappers

  datatype LaraCallException =
    | EnvironmentNotAllowed
    | RouteNotFound(routeName: string)
    | RouteMethodNotAllowed(routeName: string, methodName: string)
    | CustomActingAsEntityNotFound(entityClass: string, identifier: string)
    | AuthUserNotFound(identifier: string)
    | RouteContextNotCallable

  /** Anything a call can throw: one of the package's exceptions, or an error
      raised by PHP itself (a strict-types TypeError, the ValueError of
      RouteMethod::from, reading a typed property before it is set, or a
      warning such as an undefined array key, which the framework's error
      handler rethrows as an ErrorException). */
  datatype Thrown =
    | LaraCall(exception: LaraCallException)
    | TypeError(origin: string)
    | ValueError(origin: string)
    | UninitializedProperty(property: string)
    | PhpWarning(origin: string)

  const RouteNamePrefix: string := "Route with name `"
  const NotFoundSuffix: string := "` not found"
  const DisallowInfix: string := "` does not allow method `"

  /** The text the exception's static constructor gives it. */
  function Message(e: LaraCallException): string {
    match e
    case EnvironmentNotAllowed => "Not allowed to run in this environment"
    case RouteNotFound(r) => RouteNamePrefix + r + NotFoundSuffix
    case RouteMethodNotAllowed(r, m) => RouteNamePrefix + r + DisallowInfix + m + "`"
    case CustomActingAsEntityNotFound(c, id) => "Entity `" + c + "` with identifier `" + id + "` not found"
    case AuthUserNotFound(id) => "Auth with identifier `" + id + "` not found"
    case RouteContextNotCallable => "Route context is not callable"
  }

  /** The route-not-found message determines the route it names. */
  lemma RouteNotFoundMessageInjective(a: string, b: string)
    requires Message(RouteNotFound(a)) == Message(RouteNotFound(b))
    ensures a == b
  {
    var ma, mb := Message(RouteNotFound(a)), Message(RouteNotFound(b));
    assert |a| == |b|;
    assert ma[|RouteNamePrefix|..|RouteNamePrefix| + |a|] == a;
    assert mb[|RouteNamePrefix|..|RouteNamePrefix| + |b|] == b;
  }

  /** The method-not-allowed message determines the route and the method,
      provided the route name holds no backtick (route names and URIs of a
      Laravel application do not). */
  lemma MethodNotAllowedMessageInjective(r1: string, m1: string, r2: string, m2: string)
    requires '`' !in r1 && '`' !in r2
    requires Message(RouteMethodNotAllowed(r1, m1)) == Message(RouteMethodNotAllowed(r2, m2))
    ensures r1 == r2 && m1 == m2
  {
    assert DisallowInfix[0] == '`';
    FramedInjective(RouteNamePrefix, DisallowInfix, "`", r1, m1, r2, m2);
  }

  /** Two texts framed as p + r + d + m + q, with no backtick in r and d
      starting with one, agree only when their r and m agree. */
  lemma FramedInjective(p: string, d: string, q: string, r1: string, m1: string, r2: string, m2: string)
    requires '`' !in r1 && '`' !in r2 && d != [] && d[0] == '`'
    requires p + r1 + d + m1 + q == p + r2 + d + m2 + q
    ensures r1 == r2 && m1 == m2
  {
    assert p + r1 + d + m1 + q == p + (r1 + (d + m1 + q));
    assert p + r2 + d + m2 + q == p + (r2 + (d + m2 + q));
    PrefixCancel(p, r1 + (d + m1 + q), r2 + (d + m2 + q));
    SplitAtFirstBacktick(r1, d + m1 + q, r2, d + m2 + q);
    assert d + m1 + q == d + (m1 + q) && d + m2 + q == d + (m2 + q);
    PrefixCancel(d, m1 + q, m2 + q);
    SuffixCancel(m1, m2, q);
  }

  lemma SuffixCancel(a: string, b: string, q: string)
    requires a + q == b + q
    ensures a == b
  {
    assert a == (a + q)[..|a|];
    assert b == (b + q)[..|b|];
  }

  lemma PrefixCancel(p: string, a: string, b: string)
    requires p + a == p + b
    ensures a == b
  {
    assert a == (p + a)[|p|..];
    assert b == (p + b)[|p|..];
  }

  lemma SplitAtFirstBacktick(r1: string, rest1: string, r2: string, rest2: string)
    requires '`' !in r1 && '`' !in r2
    requires rest1 != [] && rest1[0] == '`' && rest2 != [] && rest2[0] == '`'
    requires r1 + rest1 == r2 + rest2
    ensures r1 == r2 && rest1 == rest2
  {
    FirstBacktick(r1, rest1);
    FirstBacktick(r2, rest2);
    assert r1 == (r1 + rest1)[..|r1|];
    assert r2 == (r2 + rest2)[..|r2|];
    assert rest1 == (r1 + rest1)[|r1|..];
    assert rest2 == (r2 + rest2)[|r2|..];
  }

  lemma FirstBacktick(r: string, rest: string)
    requires '`' !in r && rest != [] && rest[0] == '`'
    ensures IndexOf(r + rest, '`') == Wrappers.Some(|r|)
  {
    assert (r + rest)[|r|] == '`';
    assert (r + rest)[..|r|] == r;
  }

  /** Messages of different kinds differ, so the message tells the kind. */
  lemma MessageDeterminesKind(e1: LaraCallException, e2: LaraCallException)
    requires Message(e1) == Message(e2)
    ensures e1.EnvironmentNotAllowed? == e2.EnvironmentNotAllowed?
    ensures e1.RouteNotFound? == e2.RouteNotFound?
    ensures e1.RouteMethodNotAllowed? == e2.RouteMethodNotAllowed?
    ensures e1.CustomActingAsEntityNotFound? == e2.CustomActingAsEntityNotFound?
    ensures e1.AuthUserNotFound? == e2.AuthUserNotFound?
    ensures e1.RouteContextNotCallable? == e2.RouteContextNotCallable?
  {
    var m := Message(e1);
    assert Signature(e1) == Signature(e2) by {
      SignatureOfMessage(e1);
      SignatureOfMessage(e2);
    }
  }

  /** The first character, the seventh character and the last character of a
      message, which between them tell the six kinds apart. */
  function Signature(e: LaraCallException): (char, char, char) {
    match e
    case EnvironmentNotAllowed => ('N', 'l', 't')
    case RouteNotFound(_) => ('R', 'w', 'd')
    case RouteMethodNotAllowed(_, _) => ('R', 'w', '`')
    case CustomActingAsEntityNotFound(_, _) => ('E', ' ', 'd')
    case AuthUserNotFound(_) => ('A', 'i', 'd')
    case RouteContextNotCallable => ('R', 'c', 'e')
  }

  lemma SignatureOfMessage(e: LaraCallException)
    ensures var m := Message(e); |m| > 7 && Signature(e) == (m[0], m[6], m[|m| - 1])
  {
    match e
    case RouteNotFound(r) =>
      Framed(RouteNamePrefix, r, NotFoundSuffix);
    case RouteMethodNotAllowed(r, x) =>
      Framed(RouteNamePrefix, r + DisallowInfix + x, "`");
    case CustomActingAsEntityNotFound(c, id) =>
      Framed("Entity `", c + "` with identifier `" + id, "` not found");
    case AuthUserNotFound(id) =>
      Framed("Auth with identifier `", id, "` not found");
    case _ =>
  }

  /** The characters a message takes from its fixed prefix and suffix. */
  lemma Framed(p: string, x: string, q: string)
    requires |p| > 7 && q != []
    ensures var m := p + x + q; |m| > 7 && m[0] == p[0] && m[6] == p[6] && m[|m| - 1] == q[|q| - 1]
  {
  }

  /** The entity-not-found message names both the entity class and the
      identifier; the auth-user message names the identifier. */
  lemma NotFoundMessagesMention(c: string, id: string)
    ensures Occurs(c, Message(CustomActingAsEntityNotFound(c, id)))
    ensures Occurs(id, Message(CustomActingAsEntityNotFound(c, id)))
    ensures Occurs(id, Message(AuthUserNotFound(id)))
  {
    var m1 := Message(CustomActingAsEntityNotFound(c, id));
    assert OccursAt(c, m1, |"Entity `"|);
    assert OccursAt(id, m1, |"Entity `"| + |c| + |"` with identifier `"|);
    var m2 := Message(AuthUserNotFound(id));
    assert OccursAt(id, m2, |"Auth with identifier `"|);
  }
}
