# AspNetCore.SslRedirect in Dafny

A model of the core of AspNetCore.SslRedirect, an ASP.NET Core middleware that sends
insecure requests to their HTTPS address and adds the HSTS header (RFC 6797) to secure ones.
The model covers these parts:

- **Forwarded headers** (`forwarded.dfy`). `ForwardedHeader.FromHttpContext` reads
  forwarding information from the request headers, in order:
  - the five legacy protocol headers (X-Forwarded-Proto, Front-End-Https, ...);
  - X-Forwarded-For, or else X-ProxyUser-Ip;
  - X-Forwarded-Host and X-Forwarded-Port;
  - the Forwarded header of RFC 7239, whose proto, for, host and by parameters override the
    legacy values.

  The method is imperative and mirrors the source step by step, including the lazily
  created record. It is proved equal to `Parse`, a field-by-field definition, and the
  precedence rules are lemmas about `Parse`. Their building blocks live in `strings.dfy`
  (String.Split without empty entries, Trim, ASCII case folding) and `numbers.dfy`
  (Int32.TryParse).
- **Policies** (`policies.dfy`, `policy_extensions.dfy`):
  - `SslAllPolicy` accepts every request.
  - `SslPathPolicy` keeps its pattern and the matcher built from it. Its Pattern setter
    rebuilds the matcher only for a non-empty value, and Accept starts with the
    empty-pattern guard.
  - A policy collection is a `PolicyList` class whose `items` sequence holds references to
    policy objects.
  - The fluent `RedirectPath` and `RedirectAll` builders append to that list in place.
- **Options** (`options.dfy`): `SslRedirectOptions` and `HstsHeader` with their defaults
  and their `Clone` methods. A clone is a fresh object with a fresh policy list and fresh
  HSTS settings.
- **Per-request context** (`context.dfy`): `SslRedirectContext` clones the options it is
  given. Its forwarded header is parsed on first read and then kept.
- **Redirector** (`redirector.dfy`): `Accept`, `EnforcePolicies`, `Fallback` and
  `AddHstsHeader`. `Accept` works on the HttpContext and the options, as the code does.
- **Filter** (`filter.dfy`): the filter delegate of the options, applied on a
  per-request context ahead of `Accept` (see Findings).
- **Tests as scenarios**:
  - `forwarded_examples.dfy` proves the forwarded-header unit tests on the model.
  - `scenarios.dfy` proves the redirector's unit tests.

`HttpContext` (`http.dfy`) is a class that holds the request fields the core reads and the
response fields it writes. Its header dictionaries are maps keyed by the upper-cased name,
which gives the dictionary's case-insensitive lookup. A null string is `Option<string>`. A
thrown exception is the `Failure` branch of a `Result`.

Where the interface and the code disagree, the model follows the code.
`ISslRedirector.Accept` and `AddHstsHeader` (ISslRedirector.cs:22,28) take an
SslRedirectContext. The implementation (SslRedirector.cs:31,53) takes an HttpContext and
reads the options it was constructed with. The model's `Accept` and `AddHstsHeader` take
the HttpContext and those options as parameters.

## Model

| member | source | states |
|---|---|---|
| Http.CodeIsInjective | src/AspNetCore.SslRedirect/HttpRedirectMethod.cs:6-28 | The four redirect methods have pairwise distinct status codes (301, 302, 307, 308), so the code sent identifies the method. |
| Http.TryGetValue | src/AspNetCore.SslRedirect/ForwardedHeader.cs:88 | A header lookup yields values exactly when the header is present. |
| Http.TryGetValueIgnoresCase | src/AspNetCore.SslRedirect/ForwardedHeader.cs:83-88 | Header names that are equal ignoring case find the same values. |
| Http.SetHeader | src/AspNetCore.SslRedirect/SslRedirector.cs:36-37 | Assigning a response header makes it hold exactly that one value, and every header whose name differs ignoring case keeps its values. |
| Http.AsString | src/AspNetCore.SslRedirect/ForwardedHeader.cs:85 | Reading header values as a string gives null for no value and the value itself for a single value. |
| Http.HttpContext.SetIsHttps | test/AspNetCore.SslRedirect.Tests/SslRedirectorTests.cs:39 | Setting IsHttps sets the scheme so that IsHttps then reads back the value set. |
| Strings.Upper | src/AspNetCore.SslRedirect/ForwardedHeader.cs:109 | Upper-casing keeps the length and folds each character on its own. |
| Strings.EqualsIgnoreCaseIsEquivalence | src/AspNetCore.SslRedirect/ForwardedHeader.cs:85 | Ordinal ignore-case comparison is reflexive, symmetric and transitive. |
| Strings.TrimStartIsSuffix | src/AspNetCore.SslRedirect/ForwardedHeader.cs:91 | Trimming the start keeps a suffix, drops only white space, and stops at the first other character. |
| Strings.TrimEndIsPrefix | src/AspNetCore.SslRedirect/ForwardedHeader.cs:91 | Trimming the end keeps a prefix, drops only white space, and stops at the last other character. |
| Strings.TrimWithIsMiddle | src/AspNetCore.SslRedirect/ForwardedHeader.cs:91 | Trim returns a contiguous part of its input that neither starts nor ends with white space, and everything cut off on either side is white space. |
| Strings.TrimWithIdempotent | src/AspNetCore.SslRedirect/ForwardedHeader.cs:91 | Trimming a trimmed string changes nothing. |
| Strings.TrimWithPadded | src/AspNetCore.SslRedirect/ForwardedHeader.cs:109 | White space added around a trimmed string is removed again, and nothing else is. |
| Strings.SplitPiecesAreTokens | src/AspNetCore.SslRedirect/ForwardedHeader.cs:90 | Splitting with RemoveEmptyEntries yields only non-empty pieces without separators. |
| Strings.SplitLosesOnlySeparators | src/AspNetCore.SslRedirect/ForwardedHeader.cs:106 | The pieces concatenated are the input with the separators removed, so no other character is lost or reordered. |
| Strings.SplitAtSeparator | src/AspNetCore.SslRedirect/ForwardedHeader.cs:106 | A separator cuts the input into two parts that are split independently. |
| Strings.SplitOnlySeparators | src/AspNetCore.SslRedirect/ForwardedHeader.cs:90 | A value made only of separators yields no piece. |
| Numbers.NatToString | src/AspNetCore.SslRedirect/SslRedirector.cs:57 | A number is rendered as a non-empty string of decimal digits without a leading zero. |
| Numbers.DigitsValueOfNatToString | src/AspNetCore.SslRedirect/SslRedirector.cs:57 | Reading back a number's decimal digits gives the number. |
| Numbers.TryParseInt32 | src/AspNetCore.SslRedirect/ForwardedHeader.cs:100 | Int32.TryParse succeeds only with a value in the 32-bit signed range. |
| Numbers.TryParseInt32OfNatToString | src/AspNetCore.SslRedirect/ForwardedHeader.cs:100 | A rendered non-negative number within the 32-bit range parses back to itself. |
| Numbers.TryParseInt32OfNegative | src/AspNetCore.SslRedirect/ForwardedHeader.cs:100 | A minus sign followed by a rendered number down to Int32.MinValue parses to the negative value. |
| Numbers.TryParseInt32Overflow | src/AspNetCore.SslRedirect/ForwardedHeader.cs:100 | A number beyond Int32.MaxValue does not parse. |
| Numbers.TryParseInt32RejectsNoDigits | src/AspNetCore.SslRedirect/ForwardedHeader.cs:100 | A null value, or one without any digit, does not parse. |
| Forwarded.ProtocolVerdict | src/AspNetCore.SslRedirect/ForwardedHeader.cs:84-86 | A protocol header gives Https exactly when its value equals the header's token ignoring case; otherwise it gives Http, never Unspecified. |
| Forwarded.LegacyProtocolUnspecified | src/AspNetCore.SslRedirect/ForwardedHeader.cs:82-86 | The legacy protocol stays Unspecified exactly when none of the protocol headers is present. |
| Forwarded.TrimAll | src/AspNetCore.SslRedirect/ForwardedHeader.cs:91 | Each piece is trimmed in place; the count and the order are kept. |
| Forwarded.Evaluate | src/AspNetCore.SslRedirect/ForwardedHeader.cs:71-73 | The outcome of FromHttpContext, and of the lazy forwarded header built on it, is a thrown exception exactly when the context is null. |
| Forwarded.FromHttpContext | src/AspNetCore.SslRedirect/ForwardedHeader.cs:71-126 | A null context throws ArgumentNullException("context"). Otherwise the result is `Parse` of the request headers, which is null when no field was assigned. |
| Forwarded.ReadProtocolHeaders | src/AspNetCore.SslRedirect/ForwardedHeader.cs:82-86 | The loop creates the record exactly when some protocol header is present, and the last present header in table order sets Protocol. |
| Forwarded.ReadLegacyHeaders | src/AspNetCore.SslRedirect/ForwardedHeader.cs:88-101 | For comes from X-Forwarded-For, or else from X-ProxyUser-Ip. Host comes from X-Forwarded-Host. Port comes from X-Forwarded-Port only when it parses. The record exists once any of these assigned. |
| Forwarded.ReadForwardedHeader | src/AspNetCore.SslRedirect/ForwardedHeader.cs:104-123 | The Forwarded header's last proto, all for values, last host and last by override the earlier fields; Port is untouched. |
| Forwarded.RecognisedKeys | src/AspNetCore.SslRedirect/HeaderNames.cs:5-9 | The folded names of the ten recognised headers, which are pairwise distinct. |
| Forwarded.NoRecognisedHeaderGivesNull | src/AspNetCore.SslRedirect/ForwardedHeader.cs:75-125 | Without any recognised header the result is null. |
| Forwarded.PortAlone | src/AspNetCore.SslRedirect/ForwardedHeader.cs:99-101 | An X-Forwarded-Port alone gives a record holding only that port when it parses, and null when it does not. |
| Forwarded.ForwardedForAlone | src/AspNetCore.SslRedirect/ForwardedHeader.cs:88-92 | An X-Forwarded-For alone gives a record whose For is the comma-split, trimmed list. |
| Forwarded.ProxyUserIpAlone | src/AspNetCore.SslRedirect/ForwardedHeader.cs:93-94 | An X-ProxyUser-Ip alone gives a record whose For is its values, unsplit. |
| Forwarded.HostAlone | src/AspNetCore.SslRedirect/ForwardedHeader.cs:96-97 | An X-Forwarded-Host alone gives a record whose Host is its value as a string. |
| Forwarded.ForwardedAlone | src/AspNetCore.SslRedirect/ForwardedHeader.cs:104-123 | A Forwarded header alone gives a record only when it carries proto, for, host or by, holding those values. |
| Forwarded.CreatedRecordDefaults | src/AspNetCore.SslRedirect/ForwardedHeader.cs:26-64 | A field no header assigned keeps its default: Unspecified, an empty For, or null. |
| Forwarded.LegacyProtocolIsLastPresent | src/AspNetCore.SslRedirect/ForwardedHeader.cs:82-86 | Among the protocol headers, the last present one in table order decides Protocol. |
| Forwarded.LastProtocolHeaderWins | src/AspNetCore.SslRedirect/ForwardedHeader.cs:82-86 | Without a Forwarded proto, the parse's Protocol is the last present protocol header's verdict. |
| Forwarded.ForwardedOverridesLegacy | src/AspNetCore.SslRedirect/ForwardedHeader.cs:111-122 | When the Forwarded header carries proto, for, host or by, that value wins over the legacy headers. |
| Forwarded.ProxyUserIpIsFallback | src/AspNetCore.SslRedirect/ForwardedHeader.cs:88-94 | X-ProxyUser-Ip counts only when X-Forwarded-For is absent. |
| Forwarded.ForwardedForEntriesTrimmed | src/AspNetCore.SslRedirect/ForwardedHeader.cs:89-92 | Every For entry from X-Forwarded-For is already trimmed. |
| Forwarded.SplitForwardedForAppend | src/AspNetCore.SslRedirect/ForwardedHeader.cs:89-92 | Several X-Forwarded-For values give the concatenation of the entries of each, in order. |
| Forwarded.LookupAppend | src/AspNetCore.SslRedirect/ForwardedHeader.cs:109 | The lookup over several Forwarded values keeps all matches in order of appearance. |
| Forwarded.PairKeysAreFolded | src/AspNetCore.SslRedirect/ForwardedHeader.cs:109 | Every Forwarded parameter name is looked up in upper case. |
| ForwardedExamples.ProtocolHeaderRead | test/AspNetCore.SslRedirect.Tests/ForwardedHeaderTests.cs:11-24 | A single protocol header gives a record holding only its verdict. |
| ForwardedExamples.ProtocolHeaderTokensGiveHttps | test/AspNetCore.SslRedirect.Tests/ForwardedHeaderTests.cs:11-24 | Each of the five protocol headers with its own token gives Https. |
| ForwardedExamples.ProtocolHeaderCaseAndMismatch | src/AspNetCore.SslRedirect/ForwardedHeader.cs:84-86 | "HTTPS" in X-Forwarded-Proto gives Https; "http" gives Http. |
| ForwardedExamples.ForwardedForParsed | test/AspNetCore.SslRedirect.Tests/ForwardedHeaderTests.cs:29-40 | An X-Forwarded-For of three comma-separated hops with spaces gives the three hops, trimmed, in order. |
| ForwardedExamples.ForwardedForBlankPieceKept | src/AspNetCore.SslRedirect/ForwardedHeader.cs:89-92 | A blank hop between commas survives the split and becomes an empty entry, because trimming comes after removing empty entries. |
| ForwardedExamples.ProxyUserIpRead | test/AspNetCore.SslRedirect.Tests/ForwardedHeaderTests.cs:45-54 | The X-ProxyUser-Ip of the test gives For with that address. |
| ForwardedExamples.ForwardedHostRead | test/AspNetCore.SslRedirect.Tests/ForwardedHeaderTests.cs:59-68 | The X-Forwarded-Host of the test gives that Host. |
| ForwardedExamples.ForwardedPortRead | test/AspNetCore.SslRedirect.Tests/ForwardedHeaderTests.cs:73-82 | The X-Forwarded-Port "8081" gives Port 8081. |
| ForwardedExamples.ForwardedParsed | test/AspNetCore.SslRedirect.Tests/ForwardedHeaderTests.cs:87-101 | A Forwarded header with two for values, a by, a proto and a host gives both for values in order, and the by, the protocol and the host. |
| ForwardedExamples.ProtoOnlyForwarded | test/AspNetCore.SslRedirect.Tests/SslRedirectorTests.cs:247 | "Forwarded: proto=https" gives a record with Protocol Https and nothing else. |
| Policies.SslAllPolicy.Accept | src/AspNetCore.SslRedirect/Policies/SslAllPolicy.cs:12 | Accepts every request. |
| Policies.SslPathPolicy.constructor | src/AspNetCore.SslRedirect/Policies/SslPathPolicy.cs:19 | A new policy has neither a pattern nor a matcher. |
| Policies.SslPathPolicy.WithPattern | src/AspNetCore.SslRedirect/Policies/SslPathPolicy.cs:25-27 | The pattern constructor goes through the setter: the pattern is the argument, and a matcher exists only for a non-empty one. |
| Policies.SslPathPolicy.SetPattern | src/AspNetCore.SslRedirect/Policies/SslPathPolicy.cs:32-41 | The getter returns the value set. The matcher is rebuilt for a non-empty value and kept for a null or empty one. A usable pattern always has its own matcher. |
| Policies.SslPathPolicy.Accept | src/AspNetCore.SslRedirect/Policies/SslPathPolicy.cs:44-48 | A null or empty pattern rejects every request, even when an old matcher remains. Otherwise the path is accepted exactly when it matches the current pattern, ignoring case. |
| Policies.SslPathPolicy.ToString | src/AspNetCore.SslRedirect/Policies/SslPathPolicy.cs:51 | The text is the class name, a colon and the pattern in double quotes, with null shown as nothing between the quotes. |
| Policies.SslPolicy.Accept | src/AspNetCore.SslRedirect/Policies/ISslPolicy.cs:20 | A policy reference answers as the object it refers to. |
| Policies.PolicyList.constructor | src/AspNetCore.SslRedirect/SslRedirectOptions.cs:46 | A new collection is empty. |
| Policies.PolicyList.Copy | src/AspNetCore.SslRedirect/SslRedirectOptions.cs:65 | Copying a list keeps the same references in the same order. |
| Policies.PolicyList.Add | src/AspNetCore.SslRedirect/Extensions/SslRedirectPolicyExtensions.cs:24 | Adding appends one element at the end. |
| Policies.PolicyList.Clear | test/AspNetCore.SslRedirect.Tests/SslRedirectorTests.cs:219 | Clearing empties the list. |
| PolicyExtensions.RedirectPath | src/AspNetCore.SslRedirect/Extensions/SslRedirectPolicyExtensions.cs:20-26 | A null collection throws ArgumentNullException("policies"). Otherwise the same collection is returned, keeping its elements and gaining a new path policy for the pattern. |
| PolicyExtensions.RedirectAll | src/AspNetCore.SslRedirect/Extensions/SslRedirectPolicyExtensions.cs:35-41 | A null collection throws ArgumentNullException("policies"). Otherwise the same collection is returned, keeping its elements and gaining a new all-policy. |
| PolicyExtensions.RedirectPathWithoutPattern | src/AspNetCore.SslRedirect/Policies/SslPathPolicy.cs:44-48 | A path policy added with a null or empty pattern never accepts a request. |
| Options.HstsHeader.constructor | src/AspNetCore.SslRedirect/HstsHeader.cs:16-29 | The HSTS defaults are a max-age of 365 days (31 536 000 seconds) and no includeSubDomains. |
| Options.HstsHeader.Clone | src/AspNetCore.SslRedirect/HstsHeader.cs:35-39 | A clone is a new object with the same max-age and includeSubDomains. |
| Options.SslRedirectOptions.constructor | src/AspNetCore.SslRedirect/SslRedirectOptions.cs:14-54 | The defaults are port 443, 307 Temporary Redirect, default HSTS settings, an empty policy collection and no filter. |
| Options.SslRedirectOptions.Clone | src/AspNetCore.SslRedirect/SslRedirectOptions.cs:60-67 | A clone is a new object with the same port, method and filter. Its new collection holds the same policies in order. Its HSTS settings are a new copy, or null when the original's are null. |
| Options.ClonesAreIndependent | src/AspNetCore.SslRedirect/SslRedirectOptions.cs:60-67 | Clearing the clone's policies or changing its HSTS settings leaves the original as it was. |
| Context.SslRedirectContext.constructor | src/AspNetCore.SslRedirect/SslRedirectContext.cs:39-43 | The context keeps the HttpContext it is given. It holds a new clone of the options, with its own policy collection and HSTS settings, and nothing is parsed yet. |
| Context.SslRedirectContext.ForwardedHeader | src/AspNetCore.SslRedirect/SslRedirectContext.cs:24 | The first read computes FromHttpContext's outcome, a thrown exception included, and caches it. Every later read returns the cached outcome. |
| Context.ReadTwice | src/AspNetCore.SslRedirect/SslRedirectContext.cs:24-42 | Two reads agree even when the request headers change between them, and the value is the parse of the headers at the first read. |
| Redirector.Fallback | src/AspNetCore.SslRedirect/SslRedirector.cs:62-71 | The fallback never demands that the method be kept. It keeps a redirection temporary or permanent, and 301 and 302 are returned as they are. |
| Redirector.FallbackIsIdempotent | src/AspNetCore.SslRedirect/SslRedirector.cs:62-71 | Falling back twice is the same as falling back once. |
| Redirector.RedirectStatus | src/AspNetCore.SslRedirect/SslRedirector.cs:39-42 | A non-GET request gets the configured method. A GET gets a code that lets the client use GET and keeps temporary or permanent. |
| Redirector.FirstAccepting | src/AspNetCore.SslRedirect/SslRedirector.cs:74-82 | Returns the first accepting policy at or after a position, with no accepting policy before it, or nothing when none accepts. |
| Redirector.AllPolicyEnforces | src/AspNetCore.SslRedirect/Policies/SslAllPolicy.cs:12 | A collection holding an all-policy always enforces, at that policy at the latest. |
| Redirector.EnforcePolicies | src/AspNetCore.SslRedirect/SslRedirector.cs:74-82 | The loop answers true exactly when some policy accepts. It asks the policies in order and stops at the first that accepts, so no later policy is asked. |
| Redirector.LocationParts | src/AspNetCore.SslRedirect/SslRedirector.cs:34-37 | The Location reads back as the https scheme, the request's host name, a colon, the SSL port in digits that parse back to the port, and the path, with neither path base nor query string. |
| Redirector.Accept | src/AspNetCore.SslRedirect/SslRedirector.cs:31-50 | A secure request, or one no policy accepts while policies are enforced, is left untouched and gives false. Otherwise the scheme becomes https. A non-positive SSL port then throws with no header or status set. A valid port sets the Location header alone and the redirect status (the fallback for GET), and gives true. |
| Redirector.HstsValue | src/AspNetCore.SslRedirect/SslRedirector.cs:56-57 | The value starts with "max-age=" and ends with "; includeSubDomains" when that is set. |
| Redirector.HstsValueParts | src/AspNetCore.SslRedirect/SslRedirector.cs:55-57 | The value reads back as "max-age=", then decimal digits whose value is the configured max-age in seconds (section 6.1.1 of RFC 6797), then "; includeSubDomains" exactly when that is set. |
| Redirector.HstsValueLastChar | src/AspNetCore.SslRedirect/SslRedirector.cs:56-57 | The value ends in a digit exactly when includeSubDomains is not set. |
| Redirector.HstsValueIsInjective | src/AspNetCore.SslRedirect/SslRedirector.cs:55-57 | Distinct settings give distinct header values: the value determines both max-age and includeSubDomains. |
| Redirector.AddHstsHeader | src/AspNetCore.SslRedirect/SslRedirector.cs:53-59 | A secure request with HSTS settings gets exactly that Strict-Transport-Security header added. Otherwise the response headers are unchanged. |
| Filter.AcceptWithFilter | src/AspNetCore.SslRedirect/SslRedirectFilter.cs:7-8 | A filter that answers true leaves the request untouched and gives false. Otherwise the decision is Accept's, made over the request's own snapshot of the options: untouched and false when nothing upgrades. An upgraded request becomes https. A non-positive SSL port then fails with status and headers unchanged. A valid port sets the Location header and the redirect status, and gives true. |
| Scenarios.UnsecureRequestRedirected | test/AspNetCore.SslRedirect.Tests/SslRedirectorTests.cs:123-134 | An insecure POST with RedirectAll is redirected with 307. |
| Scenarios.SecureRequestNotRedirected | test/AspNetCore.SslRedirect.Tests/SslRedirectorTests.cs:107-118 | A secure request keeps status 200. |
| Scenarios.RedirectMethodSet | test/AspNetCore.SslRedirect.Tests/SslRedirectorTests.cs:139-152 | A configured 308 is used for a POST. |
| Scenarios.RedirectMethodFallsBack | test/AspNetCore.SslRedirect.Tests/SslRedirectorTests.cs:157-170 | A GET falls back from 307 to 302. |
| Scenarios.LocationSet | test/AspNetCore.SslRedirect.Tests/SslRedirectorTests.cs:175-190 | With SSL port 1234 the Location is https://localhost:1234/test. |
| Scenarios.FilterIgnoredByAccept | src/AspNetCore.SslRedirect/SslRedirector.cs:31-50 | Accept as written redirects with 307 even when a filter is configured. |
| Scenarios.FilterTerminatesRedirection | test/AspNetCore.SslRedirect.Tests/SslRedirectorTests.cs:195-209 | A filter answering true keeps status 200. |
| Scenarios.FilterDuplicatesOptions | test/AspNetCore.SslRedirect.Tests/SslRedirectorTests.cs:214-231 | A filter clearing the request's policies prevents the redirect, while the process-wide options keep their policy. |
| Scenarios.FilterReceivesForwardedHeader | test/AspNetCore.SslRedirect.Tests/SslRedirectorTests.cs:236-256 | The filter reads a non-null forwarded header declaring https. |
| Scenarios.HstsHeaderAdded | test/AspNetCore.SslRedirect.Tests/SslRedirectorTests.cs:36-47 | A secure request gets the HSTS header with the default max-age. |
| Scenarios.HstsHeaderOmitted | test/AspNetCore.SslRedirect.Tests/SslRedirectorTests.cs:49-60 | An insecure request gets no HSTS header. |
| Scenarios.HstsHeaderOmittedWhenNull | test/AspNetCore.SslRedirect.Tests/SslRedirectorTests.cs:62-73 | Null HSTS settings give no header. |
| Scenarios.HstsHeaderIncludesSubdomains | test/AspNetCore.SslRedirect.Tests/SslRedirectorTests.cs:75-89 | With includeSubDomains the value ends with "includeSubDomains". |
| Scenarios.HstsHeaderMaxAgeSet | test/AspNetCore.SslRedirect.Tests/SslRedirectorTests.cs:91-102 | A max-age of 123 seconds gives a value starting with "max-age=123". |

## Left out

- Asynchrony: the `Task` results of Accept, EnforcePolicies and the policies are plain values.
- Logging: the logger calls in SslRedirector have no observable effect on the request and are dropped.
- Middleware, dependency injection and MVC integration: SslRedirectMiddleware, the builder
  and service-collection extensions, RequireSslAttribute, RequireSslFilter and NullResult
  only wire the core into ASP.NET Core.
- The test web application under test/WebApp is not part of this model.
- Policies.SslPolicy: only the two built-in policies, SslAllPolicy and SslPathPolicy, are
  modelled. A custom ISslPolicy implementation added to the policy collection may run
  arbitrary code with side effects. The model does not cover it: the purity of
  Redirector.FirstAccepting and Accept leaving the request unchanged when it does not
  upgrade both rely on the closed set.
- Policies.GLOB_MATCH: Minimatch's glob semantics come from a third-party library, so
  matching is an uninterpreted function of the upper-cased pattern and path. For that
  reason the SslPathPolicy tests (SslPathPolicyTests.cs:11-42), which depend on what
  `/Secure/**/*.html` matches, are not proved.
  The path given to the matcher is the raw path; PathString's escaping of the path's
  string form is not modelled.
- Options.HstsHeader.constructor: MaxAge is a TimeSpan, and the header prints
  TotalSeconds, a double. The model keeps whole, non-negative seconds, so fractional and
  negative durations are not modelled.
- Strings.Trim: removes only the white-space characters below U+0100 (space, tab, line
  feed, vertical tab, form feed, carriage return, U+0085, U+00A0). The other
  Char.IsWhiteSpace characters (U+1680, U+2000 to U+200A, U+2028, U+2029, U+202F, U+205F,
  U+3000), which .NET's String.Trim also removes from X-Forwarded-For entries and Forwarded
  keys and values, are kept.
- Strings.Upper: folds ASCII letters only, not the full Unicode upper-casing of
  ToUpperInvariant and OrdinalIgnoreCase.
- Numbers.TryParseInt32: accepts an optional sign and ASCII digits, surrounded by white
  space; culture-specific forms (thousands separators, other digit sets) are not modelled.
- Redirector.Location: HostString's IPv6 bracketing and IDN encoding and PathString's
  escaping are not modelled; the host and path are used as given.
- Redirector.Accept: the host name is never null, and the incoming request's port is not a
  field, since the Location always uses the SSL port.
- Redirector.Fallback: C# enums may hold values other than their four declared members,
  which the default branch returns unchanged. The model has only the four members.
- Forwarded.PROTOCOL_HEADERS: the dictionary's enumeration order is taken to be its
  insertion order, so the last present header in table order wins.
- Context.SslRedirectContext.constructor: a null options argument, which throws a
  NullReferenceException in Clone, is excluded by the parameter's type.
- Context.SslRedirectContext.ForwardedHeader: the thread safety of Lazy is not modelled.
- Filter.AcceptWithFilter: the filter delegate's code is arbitrary user code. Its answer
  is a parameter, and whatever it changes is done by the caller beforehand.

## Findings

| source | as written | input that shows it | evidently intended | confidence | as-written member | corrected member |
|---|---|---|---|---|---|---|
| src/AspNetCore.SslRedirect/SslRedirector.cs:31-50 | Accept never reads the Filter of the options, nor a per-request SslRedirectContext, although the interface takes one (ISslRedirector.cs:22) and the filter is documented to terminate SSL usage when it answers true (SslRedirectFilter.cs:7) | RedirectAll with a filter answering true, and an insecure POST: the request is redirected with 307, while SslRedirectorTests.cs:195-209 expects status 200 | Run the filter on the request's context first. An answer of true leaves the request alone; otherwise decide over the request's own option snapshot | high (not executed) | Scenarios.FilterIgnoredByAccept | Filter.AcceptWithFilter |
