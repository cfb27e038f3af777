/**
 * The configuration of the redirector: SslRedirectOptions and the HSTS settings it holds,
 * with the Clone methods that give every request its own snapshot.
 */
module Options {
  import opened Http
  import opened Policies

  /** TimeSpan.FromDays(365), in whole seconds. */
  const DEFAULT_MAX_AGE: nat := 365 * 24 * 60 * 60

  /** The HSTS header settings of section 6.1 of RFC 6797. */
  class HstsHeader {
    /** max-age in whole seconds (section 6.1.1 of RFC 6797). */
    var maxAge: nat
    /** includeSubDomains (section 6.1.2 of RFC 6797). */
    var includeSubDomains: bool

    /** The defaults: a max-age of 365 days, without includeSubDomains. */
    constructor ()
      ensures maxAge == 31_536_000 && !includeSubDomains
    {
      maxAge := DEFAULT_MAX_AGE;
      includeSubDomains := false;
    }

    /** Clone: a distinct object with the same settings; the source is left as it is. */
    method Clone() returns (c: HstsHeader)
      ensures fresh(c)
      ensures c.maxAge == maxAge && c.includeSubDomains == includeSubDomains
    {
      c := new HstsHeader();
      c.maxAge := maxAge;
      c.includeSubDomains := includeSubDomains;
    }
  }

  /**
   * The SslRedirectFilter delegate. Only its identity matters to the options (Clone copies
   * the reference); what it answers is a parameter of the filter wrapper.
   */
  class SslRedirectFilter {
    constructor ()
    {
    }
  }

  class SslRedirectOptions {
    var sslPort: int
    var redirectMethod: HttpRedirectMethod
    /** The HSTS settings, or null to disable HSTS headers. */
    var hstsHeader: HstsHeader?
    /** The policy collection; only the constructor and Clone assign the reference. */
    var policies: PolicyList
    var filter: SslRedirectFilter?

    /**
     * The defaults: port 443, 307 Temporary Redirect, default HSTS settings, an empty policy
     * list and no filter.
     */
    constructor ()
      ensures sslPort == 443 && redirectMethod == TemporaryRedirect
      ensures hstsHeader != null && fresh(hstsHeader)
      ensures hstsHeader.maxAge == DEFAULT_MAX_AGE && !hstsHeader.includeSubDomains
      ensures fresh(policies) && policies.items == []
      ensures filter == null
    {
      sslPort := 443;
      redirectMethod := TemporaryRedirect;
      hstsHeader := new HstsHeader();
      policies := new PolicyList();
      filter := null;
    }

    /**
     * Clone: a distinct options object with the same port, method and filter; a fresh list
     * holding the same policy references in the same order; and a fresh copy of the HSTS
     * settings, or null when they are null. The source is left as it is.
     */
    method Clone() returns (c: SslRedirectOptions)
      ensures fresh(c) && fresh(c.policies)
      ensures c.sslPort == sslPort && c.redirectMethod == redirectMethod && c.filter == filter
      ensures c.policies.items == policies.items
      ensures hstsHeader == null ==> c.hstsHeader == null
      ensures hstsHeader != null ==>
        c.hstsHeader != null && fresh(c.hstsHeader) &&
        c.hstsHeader.maxAge == hstsHeader.maxAge &&
        c.hstsHeader.includeSubDomains == hstsHeader.includeSubDomains
    {
      c := new SslRedirectOptions();
      c.sslPort := sslPort;
      c.redirectMethod := redirectMethod;
      if hstsHeader == null {
        c.hstsHeader := null;
      } else {
        c.hstsHeader := hstsHeader.Clone();
      }
      c.policies := new PolicyList.Copy(policies);
      c.filter := filter;
    }
  }

  /**
   * Clearing the clone's policy list leaves the original's list as it was, and so does any
   * other change to the clone's list or HSTS settings.
   */
  method ClonesAreIndependent(options: SslRedirectOptions) returns (c: SslRedirectOptions)
    ensures c != options && c.policies != options.policies && c.policies.items == []
    ensures options.policies.items == old(options.policies.items)
    ensures options.hstsHeader != null ==> options.hstsHeader.maxAge == old(options.hstsHeader.maxAge)
  {
    c := options.Clone();
    c.policies.Clear();
    if c.hstsHeader != null {
      c.hstsHeader.maxAge := 0;
    }
  }
}
