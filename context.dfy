/**
 * SslRedirectContext: what one request carries through the redirector. It holds the
 * HttpContext it was given, its own snapshot of the options, and the forwarded-header
 * record, which is parsed on first use and then kept (Lazy<ForwardedHeader>).
 */
module Context {
  import opened Wrappers
  import opened Http
  import opened Options
  import Forwarded

  /** What reading ForwardedHeader yields: the record (possibly null) or the exception thrown. */
  type Outcome = Result<Option<Forwarded.ForwardedHeader>, Exception>

  class SslRedirectContext {
    /** The HttpContext given to the constructor; it has no public setter. */
    const httpContext: HttpContext?
    /** This request's own copy of the options; it has no public setter. */
    const options: SslRedirectOptions
    /** The lazy cell: None until the first read, then what that read computed. */
    var cache: Option<Outcome>

    /**
     * The constructor keeps the context, clones the options (so the request never shares
     * the process-wide object, its policy list or its HSTS settings) and parses nothing yet.
     */
    constructor (context: HttpContext?, options: SslRedirectOptions)
      ensures httpContext == context
      ensures fresh(this.options) && fresh(this.options.policies)
      ensures this.options.sslPort == options.sslPort && this.options.redirectMethod == options.redirectMethod
      ensures this.options.filter == options.filter
      ensures this.options.policies.items == options.policies.items
      ensures options.hstsHeader == null ==> this.options.hstsHeader == null
      ensures options.hstsHeader != null ==>
        this.options.hstsHeader != null && fresh(this.options.hstsHeader) &&
        this.options.hstsHeader.maxAge == options.hstsHeader.maxAge &&
        this.options.hstsHeader.includeSubDomains == options.hstsHeader.includeSubDomains
      ensures cache == None
    {
      httpContext := context;
      var snapshot := options.Clone();
      this.options := snapshot;
      cache := None;
    }

    /**
     * The ForwardedHeader property. The first read parses the request headers as they are
     * at that moment; every later read returns that same outcome, a null record or a thrown
     * exception included (Lazy caches both).
     */
    method ForwardedHeader() returns (r: Outcome)
      modifies this`cache
      ensures old(cache).Some? ==> r == old(cache).value && cache == old(cache)
      ensures old(cache).None? ==> r == Forwarded.Evaluate(httpContext) && cache == Some(r)
    {
      if cache.Some? {
        return cache.value;
      }
      r := Forwarded.FromHttpContext(httpContext);
      cache := Some(r);
    }
  }

  /**
   * Two reads of ForwardedHeader agree even when the request headers change between them:
   * the parse happens once.
   */
  method ReadTwice(ctx: SslRedirectContext, changed: Headers) returns (first: Outcome, second: Outcome)
    requires ctx.httpContext != null
    modifies ctx`cache, ctx.httpContext`requestHeaders
    ensures first == second
    ensures old(ctx.cache).None? ==> first == Success(Forwarded.Parse(old(ctx.httpContext.requestHeaders)))
  {
    first := ctx.ForwardedHeader();
    ctx.httpContext.requestHeaders := changed;
    second := ctx.ForwardedHeader();
  }
}
