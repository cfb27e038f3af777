/**
 * SslRedirector: the redirect decision for insecure requests and the emission of the HSTS
 * header for secure ones. Both read the redirector's options object (the process-wide
 * options the redirector was built with), passed here as a parameter.
 */
module Redirector {
  import opened Wrappers
  import opened Strings
  import opened Numbers
  import opened Http
  import opened Policies
  import opened Options

  /**
   * Fallback: the redirect method used for GET requests. The method-preserving codes give
   * way to their counterparts that let the client switch to GET (307 to 302, 308 to 301),
   * keeping the redirection temporary or permanent; 301 and 302 are kept.
   */
  function Fallback(m: HttpRedirectMethod): (r: HttpRedirectMethod)
    ensures !r.PreservesMethod()
    ensures r.IsPermanent() == m.IsPermanent()
    ensures !m.PreservesMethod() ==> r == m
  {
    match m
    case TemporaryRedirect => Found
    case PermanentRedirect => MovedPermanently
    case _ => m
  }

  lemma FallbackIsIdempotent(m: HttpRedirectMethod)
    ensures Fallback(Fallback(m)) == Fallback(m)
  {
  }

  /** The status code an upgraded request gets: the configured method, or its fallback for GET. */
  function RedirectStatus(m: HttpRedirectMethod, requestMethod: string): (r: HttpRedirectMethod)
    ensures !IsGet(requestMethod) ==> r == m
    ensures IsGet(requestMethod) ==> !r.PreservesMethod() && r.IsPermanent() == m.IsPermanent()
  {
    if IsGet(requestMethod) then Fallback(m) else m
  }

  /**
   * The index of the first policy, from position `k` on, that accepts the request, if any:
   * the ordered, short-circuiting OR EnforcePolicies computes.
   */
  function FirstAccepting(ps: seq<SslPolicy>, context: HttpContext, k: nat): (r: Option<nat>)
    requires k <= |ps| && AllValid(ps)
    reads Objects(ps), context
    decreases |ps| - k
    ensures r.Some? ==> k <= r.value < |ps| && ps[r.value].Accept(context)
    ensures r.Some? ==> forall j :: k <= j < r.value ==> !ps[j].Accept(context)
    ensures r.None? ==> forall j :: k <= j < |ps| ==> !ps[j].Accept(context)
  {
    if k == |ps| then None
    else if ps[k].Accept(context) then Some(k)
    else FirstAccepting(ps, context, k + 1)
  }

  /** A list holding an SslAllPolicy always enforces, at that policy at the latest. */
  lemma AllPolicyEnforces(ps: seq<SslPolicy>, context: HttpContext, i: nat)
    requires AllValid(ps) && i < |ps| && ps[i].All?
    ensures FirstAccepting(ps, context, 0).Some? && FirstAccepting(ps, context, 0).value <= i
  {
    assert ps[i].Accept(context);
  }

  /**
   * EnforcePolicies: walks the policy list in order and stops at the first policy that
   * accepts. `evaluated` counts the policies asked, so none after the accepting one is.
   */
  method EnforcePolicies(options: SslRedirectOptions, context: HttpContext) returns (r: bool, ghost evaluated: nat)
    requires AllValid(options.policies.items)
    ensures r == FirstAccepting(options.policies.items, context, 0).Some?
    ensures var first := FirstAccepting(options.policies.items, context, 0);
      evaluated == if first.Some? then first.value + 1 else |options.policies.items|
  {
    var ps := options.policies.items;
    evaluated := 0;
    for i := 0 to |ps|
      invariant evaluated == i
      invariant FirstAccepting(ps, context, i) == FirstAccepting(ps, context, 0)
    {
      evaluated := i + 1;
      if ps[i].Accept(context) {
        return true, evaluated;
      }
    }
    return false, evaluated;
  }

  /** Whether Accept upgrades the request: it is insecure and policies are skipped or one accepts. */
  ghost predicate Upgrades(options: SslRedirectOptions, context: HttpContext, enforcePolicies: bool)
    requires AllValid(options.policies.items)
    reads context, options, options.policies, Objects(options.policies.items)
  {
    !context.IsHttps() && (!enforcePolicies || FirstAccepting(options.policies.items, context, 0).Some?)
  }

  const HTTPS_PREFIX: string := "https://"

  /** The Location of the upgraded request: the host name with the SSL port, then the path. */
  function Location(host: string, port: nat, path: string): string {
    HTTPS_PREFIX + host + ":" + NatToString(port) + path
  }

  /**
   * The Location reads back into its parts: the https scheme, the request's host name, the
   * SSL port (which replaces the incoming port) and the path; nothing else, so neither the
   * path base nor the query string.
   */
  lemma LocationParts(host: string, port: nat, path: string)
    requires port <= INT32_MAX
    ensures var loc := Location(host, port, path);
      var start := |HTTPS_PREFIX| + |host| + 1;
      var end := |loc| - |path|;
      start < end && loc[..|HTTPS_PREFIX|] == HTTPS_PREFIX && loc[|HTTPS_PREFIX|..start - 1] == host &&
      loc[start - 1] == ':' && loc[end..] == path &&
      AllDigits(loc[start..end]) && TryParseInt32(Some(loc[start..end])) == Some(port)
  {
    var loc := Location(host, port, path);
    var digits := NatToString(port);
    var start := |HTTPS_PREFIX| + |host| + 1;
    assert loc == (HTTPS_PREFIX + host + ":") + digits + path;
    assert loc[start..|loc| - |path|] == digits;
    TryParseInt32OfNatToString(port);
  }

  /**
   * SslRedirector.Accept. A secure request, or an insecure one no policy accepts while
   * policies are enforced, is left untouched and gives false. Otherwise the scheme becomes
   * https, then a non-positive SSL port makes HostString throw; with a valid port the
   * Location header and the status code are set and the result is true.
   */
  method Accept(options: SslRedirectOptions, context: HttpContext, enforcePolicies: bool) returns (r: Result<bool, Exception>)
    requires AllValid(options.policies.items)
    modifies context`scheme, context`statusCode, context`responseHeaders
    ensures !old(Upgrades(options, context, enforcePolicies)) ==> r == Success(false) && unchanged(context)
    ensures old(Upgrades(options, context, enforcePolicies)) ==> context.scheme == "https" && context.IsHttps()
    ensures old(Upgrades(options, context, enforcePolicies)) && options.sslPort <= 0 ==>
      r == Failure(ArgumentOutOfRangeException("port")) &&
      context.statusCode == old(context.statusCode) && context.responseHeaders == old(context.responseHeaders)
    ensures old(Upgrades(options, context, enforcePolicies)) && options.sslPort > 0 ==>
      r == Success(true) &&
      context.responseHeaders ==
        SetHeader(old(context.responseHeaders), LOCATION, Location(context.host, options.sslPort, context.path)) &&
      context.statusCode == RedirectStatus(options.redirectMethod, context.requestMethod).Code()
  {
    if context.IsHttps() {
      return Success(false);
    }
    if enforcePolicies {
      var accepted;
      ghost var evaluated;
      accepted, evaluated := EnforcePolicies(options, context);
      if !accepted {
        return Success(false);
      }
    }
    context.scheme := "https";
    if options.sslPort <= 0 {
      return Failure(ArgumentOutOfRangeException("port"));
    }
    context.responseHeaders :=
      SetHeader(context.responseHeaders, LOCATION, Location(context.host, options.sslPort, context.path));
    var m := options.redirectMethod;
    if IsGet(context.requestMethod) {
      m := Fallback(m);
    }
    context.statusCode := m.Code();
    return Success(true);
  }

  const MAX_AGE: string := "max-age="
  const INCLUDE_SUB_DOMAINS: string := "; includeSubDomains"

  /** The Strict-Transport-Security value: the max-age directive, then includeSubDomains if set. */
  function HstsValue(maxAge: nat, includeSubDomains: bool): (v: string)
    ensures |MAX_AGE| < |v| && v[..|MAX_AGE|] == MAX_AGE
    ensures includeSubDomains ==> |v| > |INCLUDE_SUB_DOMAINS| && v[|v| - |INCLUDE_SUB_DOMAINS|..] == INCLUDE_SUB_DOMAINS
  {
    MAX_AGE + NatToString(maxAge) + (if includeSubDomains then INCLUDE_SUB_DOMAINS else "")
  }

  /**
   * The value reads back into its parts: "max-age=", the configured max-age in decimal
   * digits, and "; includeSubDomains" exactly when that is set.
   */
  lemma HstsValueParts(maxAge: nat, includeSubDomains: bool)
    ensures var v := HstsValue(maxAge, includeSubDomains);
      var suffix := if includeSubDomains then INCLUDE_SUB_DOMAINS else "";
      |MAX_AGE| + |suffix| < |v| && v[..|MAX_AGE|] == MAX_AGE && v[|v| - |suffix|..] == suffix &&
      AllDigits(v[|MAX_AGE|..|v| - |suffix|]) && DigitsValue(v[|MAX_AGE|..|v| - |suffix|]) == maxAge
  {
    var v := HstsValue(maxAge, includeSubDomains);
    var suffix := if includeSubDomains then INCLUDE_SUB_DOMAINS else "";
    assert v == MAX_AGE + NatToString(maxAge) + suffix;
    assert v[|MAX_AGE|..|v| - |suffix|] == NatToString(maxAge);
    DigitsValueOfNatToString(maxAge);
  }

  /** The value ends in a digit of max-age without includeSubDomains, in its last letter with it. */
  lemma HstsValueLastChar(maxAge: nat, includeSubDomains: bool)
    ensures var v := HstsValue(maxAge, includeSubDomains);
      IsDigit(v[|v| - 1]) <==> !includeSubDomains
  {
    var v := HstsValue(maxAge, includeSubDomains);
    var digits := NatToString(maxAge);
    if includeSubDomains {
      assert v[|v| - 1] == INCLUDE_SUB_DOMAINS[|INCLUDE_SUB_DOMAINS| - 1];
    } else {
      assert v == MAX_AGE + digits;
      assert v[|v| - 1] == digits[|digits| - 1];
    }
  }

  /**
   * Distinct settings give distinct header values: the value determines max-age and
   * whether includeSubDomains is set.
   */
  lemma HstsValueIsInjective(a: nat, x: bool, b: nat, y: bool)
    requires HstsValue(a, x) == HstsValue(b, y)
    ensures a == b && x == y
  {
    HstsValueLastChar(a, x);
    HstsValueLastChar(b, y);
    var v := HstsValue(a, x);
    var suffix := if x then INCLUDE_SUB_DOMAINS else "";
    assert v == (MAX_AGE + NatToString(a)) + suffix;
    assert v == (MAX_AGE + NatToString(b)) + suffix;
    assert MAX_AGE + NatToString(a) == v[..|v| - |suffix|] == MAX_AGE + NatToString(b);
    assert NatToString(a) == (MAX_AGE + NatToString(a))[|MAX_AGE|..];
    assert NatToString(b) == (MAX_AGE + NatToString(b))[|MAX_AGE|..];
    DigitsValueOfNatToString(a);
    DigitsValueOfNatToString(b);
  }

  /**
   * SslRedirector.AddHstsHeader: a secure request gets the Strict-Transport-Security header
   * when HSTS settings are configured; otherwise the response headers are left as they are.
   */
  method AddHstsHeader(options: SslRedirectOptions, context: HttpContext)
    modifies context`responseHeaders
    ensures context.IsHttps() && options.hstsHeader != null ==>
      context.responseHeaders ==
        SetHeader(old(context.responseHeaders), HSTS,
                  HstsValue(options.hstsHeader.maxAge, options.hstsHeader.includeSubDomains))
    ensures !(context.IsHttps() && options.hstsHeader != null) ==>
      context.responseHeaders == old(context.responseHeaders)
  {
    if context.IsHttps() && options.hstsHeader != null {
      var maxAge := options.hstsHeader.maxAge;
      context.responseHeaders := SetHeader(context.responseHeaders, HSTS,
        HstsValue(maxAge, options.hstsHeader.includeSubDomains));
    }
  }
}
