/**
 * The per-request filter step, kept apart from SslRedirector.Accept, which never invokes
 * the filter. The redirector interface takes an SslRedirectContext, and the filter delegate
 * is documented to terminate SSL usage when it answers true. Read that way, the request's
 * own option snapshot decides. The filter runs first, and an answer of true leaves the
 * request alone.
 */
module Filter {
  import opened Wrappers
  import opened Http
  import opened Policies
  import opened Options
  import opened Context
  import opened Redirector

  /**
   * Accept over an SslRedirectContext. `verdict` is what the context's filter answered when
   * it was called with `ctx`; whatever the filter changed in the snapshot (its policy list,
   * say) has already happened. Without a filter, or when it answers false, the decision is
   * Accept's over the snapshot.
   */
  method AcceptWithFilter(ctx: SslRedirectContext, enforcePolicies: bool, verdict: bool)
    returns (r: Result<bool, Exception>)
    requires ctx.httpContext != null && AllValid(ctx.options.policies.items)
    modifies ctx.httpContext`scheme, ctx.httpContext`statusCode, ctx.httpContext`responseHeaders
    ensures ctx.options.filter != null && verdict ==> r == Success(false) && unchanged(ctx.httpContext)
    ensures (ctx.options.filter == null || !verdict) && !old(Upgrades(ctx.options, ctx.httpContext, enforcePolicies)) ==>
      r == Success(false) && unchanged(ctx.httpContext)
    ensures (ctx.options.filter == null || !verdict) && old(Upgrades(ctx.options, ctx.httpContext, enforcePolicies)) ==>
      ctx.httpContext.IsHttps() &&
      r == if ctx.options.sslPort > 0 then Success(true) else Failure(ArgumentOutOfRangeException("port"))
    ensures (ctx.options.filter == null || !verdict) && ctx.options.sslPort <= 0 &&
            old(Upgrades(ctx.options, ctx.httpContext, enforcePolicies)) ==>
      ctx.httpContext.statusCode == old(ctx.httpContext.statusCode) &&
      ctx.httpContext.responseHeaders == old(ctx.httpContext.responseHeaders)
    ensures (ctx.options.filter == null || !verdict) && ctx.options.sslPort > 0 &&
            old(Upgrades(ctx.options, ctx.httpContext, enforcePolicies)) ==>
      ctx.httpContext.responseHeaders ==
        SetHeader(old(ctx.httpContext.responseHeaders), LOCATION,
                  Location(ctx.httpContext.host, ctx.options.sslPort, ctx.httpContext.path)) &&
      ctx.httpContext.statusCode == RedirectStatus(ctx.options.redirectMethod, ctx.httpContext.requestMethod).Code()
  {
    if ctx.options.filter != null && verdict {
      return Success(false);
    }
    r := Accept(ctx.options, ctx.httpContext, enforcePolicies);
  }
}
