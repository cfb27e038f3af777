/**
 * The request/response abstraction the core works on (the part of ASP.NET Core's HttpContext
 * it touches), the enumerations ProtocolType and HttpRedirectMethod, and the header names.
 */
module Http {
  import opened Wrappers
  import opened Strings

  /** The protocol a client originally used, as declared by forwarding headers. */
  datatype ProtocolType = Unspecified | Http | Https

  /** The redirect status codes of sections 6.4.2, 6.4.3 and 6.4.7 of RFC 7231 and of RFC 7238. */
  datatype HttpRedirectMethod = MovedPermanently | Found | TemporaryRedirect | PermanentRedirect {
    /** The numeric value of the enumeration member, which is the status code sent. */
    function Code(): (code: int)
      ensures 301 <= code <= 308
    {
      match this
      case MovedPermanently => 301
      case Found => 302
      case TemporaryRedirect => 307
      case PermanentRedirect => 308
    }

    /** Whether the status code obliges the client to repeat the request method unchanged. */
    predicate PreservesMethod() {
      TemporaryRedirect? || PermanentRedirect?
    }

    /** Whether the redirection is permanent (301 and 308) rather than temporary (302 and 307). */
    predicate IsPermanent() {
      MovedPermanently? || PermanentRedirect?
    }
  }

  /** Distinct members have distinct status codes. */
  lemma CodeIsInjective(a: HttpRedirectMethod, b: HttpRedirectMethod)
    ensures a.Code() == b.Code() <==> a == b
  {
  }

  const FORWARDED: string := "Forwarded"
  const FORWARDED_FOR: string := "X-Forwarded-For"
  const FORWARDED_HOST: string := "X-Forwarded-Host"
  const FORWARDED_PORT: string := "X-Forwarded-Port"
  const PROXY_USER_IP: string := "X-ProxyUser-Ip"
  const HSTS: string := "Strict-Transport-Security"
  const LOCATION: string := "Location"

  /**
   * A header dictionary. Header names are compared ignoring case, so every name is stored
   * under its folded form Key(name); each name carries its list of values (StringValues).
   */
  type Headers = map<string, seq<string>>

  function Key(name: string): string {
    Upper(name)
  }

  predicate ContainsKey(h: Headers, name: string) {
    Key(name) in h
  }

  /** TryGetValue: the values stored under `name`, if any. */
  function TryGetValue(h: Headers, name: string): (r: Option<seq<string>>)
    ensures r.Some? <==> ContainsKey(h, name)
  {
    if Key(name) in h then Some(h[Key(name)]) else None
  }

  /** headers[name] = value: replaces whatever was stored under the name. */
  function SetHeader(h: Headers, name: string, value: string): (r: Headers)
    ensures TryGetValue(r, name) == Some([value])
    ensures forall other :: !EqualsIgnoreCase(other, name) ==> TryGetValue(r, other) == TryGetValue(h, other)
  {
    h[Key(name) := [value]]
  }

  /** Lookups ignore the case of the header name. */
  lemma TryGetValueIgnoresCase(h: Headers, a: string, b: string)
    requires EqualsIgnoreCase(a, b)
    ensures TryGetValue(h, a) == TryGetValue(h, b)
  {
  }

  /** The values joined with `sep` between them. */
  function Join(values: seq<string>, sep: string): string {
    if values == [] then [] else if |values| == 1 then values[0] else values[0] + sep + Join(values[1..], sep)
  }

  /**
   * The implicit conversion of StringValues to string: null for no value, the value itself
   * for one, and the values joined by "," for several.
   */
  function AsString(values: seq<string>): (r: Option<string>)
    ensures r.None? <==> values == []
    ensures |values| == 1 ==> r == Some(values[0])
  {
    if values == [] then None else Some(Join(values, ","))
  }

  /** HttpMethods.IsGet: the method is GET, ignoring case. */
  predicate IsGet(requestMethod: string) {
    EqualsIgnoreCase("GET", requestMethod)
  }

  /**
   * The request and response of one exchange. IsHttps is read from Scheme, as ASP.NET Core's
   * default request does; Host holds the host name without its port.
   */
  class HttpContext {
    var scheme: string
    var host: string
    var pathBase: string
    var path: string
    var queryString: string
    var requestMethod: string
    var requestHeaders: Headers
    var statusCode: int
    var responseHeaders: Headers

    /** Request.IsHttps. */
    predicate IsHttps()
      reads this
    {
      EqualsIgnoreCase("https", scheme)
    }

    /** A fresh exchange for the given request; the response is 200 with no header. */
    constructor (scheme: string, host: string, pathBase: string, path: string, queryString: string,
                 requestMethod: string, requestHeaders: Headers)
      ensures this.scheme == scheme && this.host == host && this.pathBase == pathBase
      ensures this.path == path && this.queryString == queryString && this.requestMethod == requestMethod
      ensures this.requestHeaders == requestHeaders
      ensures statusCode == 200 && responseHeaders == map[]
    {
      this.scheme := scheme;
      this.host := host;
      this.pathBase := pathBase;
      this.path := path;
      this.queryString := queryString;
      this.requestMethod := requestMethod;
      this.requestHeaders := requestHeaders;
      statusCode := 200;
      responseHeaders := map[];
    }

    /** Setting Request.IsHttps rewrites the scheme. */
    method SetIsHttps(value: bool)
      modifies this`scheme
      ensures scheme == (if value then "https" else "http")
      ensures IsHttps() == value
    {
      scheme := if value then "https" else "http";
    }
  }
}
