/**
 * The redirector's unit tests as proved scenarios. Each one builds the options and the
 * request the test arranges, runs the operation and states the outcome the test asserts.
 */
module Scenarios {
  import opened Wrappers
  import opened Strings
  import opened Numbers
  import opened Http
  import opened Policies
  import opened PolicyExtensions
  import opened Options
  import opened Context
  import opened Redirector
  import opened Filter
  import Forwarded
  import ForwardedExamples

  /** A request to localhost over http or https; the port the tests give the host is never read. */
  method Request(secure: bool, requestMethod: string, path: string, headers: Headers) returns (c: HttpContext)
    ensures fresh(c)
    ensures c.IsHttps() == secure && c.host == "localhost" && c.path == path
    ensures c.requestMethod == requestMethod && c.requestHeaders == headers
    ensures c.statusCode == 200 && c.responseHeaders == map[]
  {
    c := new HttpContext(if secure then "https" else "http", "localhost", "", path, "", requestMethod, headers);
    assert !EqualsIgnoreCase("https", "http") by {
      assert |Upper("https")| != |Upper("http")|;
    }
  }

  /** Default options with RedirectAll added. */
  method RedirectAllOptions() returns (o: SslRedirectOptions)
    ensures fresh(o) && fresh(o.policies)
    ensures o.sslPort == 443 && o.redirectMethod == TemporaryRedirect && o.filter == null
    ensures |o.policies.items| == 1 && o.policies.items[0].All? && AllValid(o.policies.items)
  {
    o := new SslRedirectOptions();
    var chained := RedirectAll(o.policies);
  }

  lemma PostIsNotGet()
    ensures !IsGet("POST")
  {
    assert |Upper("GET")| != |Upper("POST")|;
  }

  /** An insecure POST with RedirectAll is redirected: its status is no longer 200 but 307. */
  method UnsecureRequestRedirected() returns (r: Result<bool, Exception>, status: int)
    ensures r == Success(true) && status != 200 && status == 307
  {
    var options := RedirectAllOptions();
    var http := Request(false, "POST", "", map[]);
    AllPolicyEnforces(options.policies.items, http, 0);
    PostIsNotGet();
    r := Accept(options, http, true);
    status := http.statusCode;
  }

  /** A secure request is not redirected, even with RedirectAll: the status stays 200. */
  method SecureRequestNotRedirected() returns (r: Result<bool, Exception>, status: int)
    ensures r == Success(false) && status == 200
  {
    var options := RedirectAllOptions();
    var http := Request(true, "POST", "", map[]);
    r := Accept(options, http, true);
    status := http.statusCode;
  }

  /** The configured method is used for a POST: 308. */
  method RedirectMethodSet() returns (status: int)
    ensures status == 308
  {
    var options := RedirectAllOptions();
    options.redirectMethod := PermanentRedirect;
    var http := Request(false, "POST", "", map[]);
    AllPolicyEnforces(options.policies.items, http, 0);
    PostIsNotGet();
    var r := Accept(options, http, true);
    status := http.statusCode;
  }

  /** A GET falls back from 307 to 302. */
  method RedirectMethodFallsBack() returns (status: int)
    ensures status == 302
  {
    var options := RedirectAllOptions();
    var http := Request(false, "GET", "", map[]);
    AllPolicyEnforces(options.policies.items, http, 0);
    var r := Accept(options, http, true);
    status := http.statusCode;
  }

  lemma NatToString1234()
    ensures NatToString(1234) == "1234"
  {
    assert NatToString(1234) == NatToString(123) + "4";
    assert NatToString(123) == NatToString(12) + "3";
    assert NatToString(12) == NatToString(1) + "2";
  }

  lemma TestLocation()
    ensures Location("localhost", 1234, "/test") == "https://localhost:1234/test"
  {
    NatToString1234();
  }

  /** With SSL port 1234 the Location is https://localhost:1234/test. */
  method LocationSet() returns (location: Option<seq<string>>)
    ensures location == Some(["https://localhost:1234/test"])
  {
    var options := RedirectAllOptions();
    options.sslPort := 1234;
    options.redirectMethod := PermanentRedirect;
    var http := Request(false, "POST", "/test", map[]);
    AllPolicyEnforces(options.policies.items, http, 0);
    var r := Accept(options, http, true);
    assert http.responseHeaders == SetHeader(map[], LOCATION, Location("localhost", 1234, "/test"));
    TestLocation();
    location := TryGetValue(http.responseHeaders, LOCATION);
  }

  /** A filter that answers true terminates the redirection: the status stays 200. */
  method FilterTerminatesRedirection() returns (r: Result<bool, Exception>, status: int)
    ensures r == Success(false) && status == 200
  {
    var options := RedirectAllOptions();
    options.filter := new SslRedirectFilter();
    var http := Request(false, "POST", "", map[]);
    var ctx := new SslRedirectContext(http, options);
    r := AcceptWithFilter(ctx, true, true);
    status := http.statusCode;
  }

  /**
   * Accept as written never consults the filter: with a filter that would answer true, the
   * request of FilterTerminatesRedirection is still redirected with 307.
   */
  method FilterIgnoredByAccept() returns (r: Result<bool, Exception>, status: int)
    ensures r == Success(true) && status == 307
  {
    var options := RedirectAllOptions();
    options.filter := new SslRedirectFilter();
    var http := Request(false, "POST", "", map[]);
    AllPolicyEnforces(options.policies.items, http, 0);
    PostIsNotGet();
    r := Accept(options, http, true);
    status := http.statusCode;
  }

  /**
   * A filter that clears the request's policy list and answers false: the request is not
   * redirected, and the process-wide options keep their policy.
   */
  method FilterDuplicatesOptions() returns (r: Result<bool, Exception>, status: int, kept: nat)
    ensures r == Success(false) && status == 200 && kept == 1
  {
    var options := RedirectAllOptions();
    options.filter := new SslRedirectFilter();
    var http := Request(false, "POST", "", map[]);
    var ctx := new SslRedirectContext(http, options);
    ctx.options.policies.Clear();
    r := AcceptWithFilter(ctx, true, false);
    status := http.statusCode;
    kept := |options.policies.items|;
  }

  /** The filter sees the forwarded header of the request, here a record declaring https. */
  method FilterReceivesForwardedHeader() returns (header: Outcome)
    ensures header == Success(Some(Forwarded.EMPTY.(protocol := Https)))
  {
    var options := RedirectAllOptions();
    options.filter := new SslRedirectFilter();
    var http := Request(false, "POST", "", map[Key(FORWARDED) := ["proto=https"]]);
    var ctx := new SslRedirectContext(http, options);
    header := ctx.ForwardedHeader();
    ForwardedExamples.ProtoOnlyForwarded();
  }

  /** A secure request gets the HSTS header, with the default max-age of 365 days. */
  method HstsHeaderAdded() returns (value: Option<seq<string>>)
    ensures value == Some([HstsValue(31_536_000, false)])
  {
    var options := new SslRedirectOptions();
    var http := Request(true, "GET", "", map[]);
    AddHstsHeader(options, http);
    value := TryGetValue(http.responseHeaders, HSTS);
  }

  /** An insecure request gets no HSTS header. */
  method HstsHeaderOmitted() returns (value: Option<seq<string>>)
    ensures value == None
  {
    var options := new SslRedirectOptions();
    var http := Request(false, "GET", "", map[]);
    AddHstsHeader(options, http);
    value := TryGetValue(http.responseHeaders, HSTS);
  }

  /** With the HSTS settings set to null no header is sent. */
  method HstsHeaderOmittedWhenNull() returns (value: Option<seq<string>>)
    ensures value == None
  {
    var options := new SslRedirectOptions();
    options.hstsHeader := null;
    var http := Request(true, "GET", "", map[]);
    AddHstsHeader(options, http);
    value := TryGetValue(http.responseHeaders, HSTS);
  }

  /** IncludeSubDomains set: the header value ends with includeSubDomains. */
  method HstsHeaderIncludesSubdomains() returns (value: string)
    ensures |value| >= |"includeSubDomains"| && value[|value| - |"includeSubDomains"|..] == "includeSubDomains"
  {
    var options := new SslRedirectOptions();
    options.hstsHeader.includeSubDomains := true;
    var http := Request(true, "GET", "", map[]);
    AddHstsHeader(options, http);
    value := http.responseHeaders[Key(HSTS)][0];
    EndsWithIncludeSubDomains(value);
  }

  lemma EndsWithIncludeSubDomains(v: string)
    requires |v| > |INCLUDE_SUB_DOMAINS| && v[|v| - |INCLUDE_SUB_DOMAINS|..] == INCLUDE_SUB_DOMAINS
    ensures |v| >= |"includeSubDomains"| && v[|v| - |"includeSubDomains"|..] == "includeSubDomains"
  {
    assert v[|v| - |"includeSubDomains"|..] == INCLUDE_SUB_DOMAINS[2..];
  }

  /** A max-age of 123 seconds: the header value starts with max-age=123. */
  method HstsHeaderMaxAgeSet() returns (value: string)
    ensures |value| >= |"max-age=123"| && value[..|"max-age=123"|] == "max-age=123"
  {
    var options := new SslRedirectOptions();
    options.hstsHeader.maxAge := 123;
    var http := Request(true, "GET", "", map[]);
    AddHstsHeader(options, http);
    value := http.responseHeaders[Key(HSTS)][0];
    assert NatToString(123) == "123" by {
      assert NatToString(123) == NatToString(12) + "3";
      assert NatToString(12) == NatToString(1) + "2";
    }
    assert value == "max-age=123";
  }
}
