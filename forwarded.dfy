/**
 * ForwardedHeader.FromHttpContext: what the legacy X-Forwarded-* headers and the Forwarded
 * header of RFC 7239 declare about the original request, following the code's own split
 * rules (no quoted strings).
 */
module Forwarded {
  import opened Wrappers
  import opened Strings
  import opened Numbers
  import opened Http

  /**
   * The parsed forwarding information. Its setters are private and only FromHttpContext
   * assigns them, so the record is a value.
   */
  datatype ForwardedHeader = ForwardedHeader(
    protocol: ProtocolType,
    forwardedFor: seq<string>,
    host: Option<string>,
    forwardedBy: Option<string>,
    port: Option<int>)

  /** A newly created record: Protocol Unspecified, For an empty array, the rest null. */
  const EMPTY: ForwardedHeader := ForwardedHeader(Unspecified, [], None, None, None)

  /** The legacy protocol headers, in table order, each with the value that means https. */
  const PROTOCOL_HEADERS: seq<(string, string)> := [
    ("X-Forwarded-Proto", "https"),
    ("Front-End-Https", "on"),
    ("X-Forwarded-Protocol", "https"),
    ("X-Forwarded-Ssl", "on"),
    ("X-Url-Scheme", "https")
  ]

  /** Https when the value equals the token ignoring case, Http otherwise (a null value included). */
  function ProtocolVerdict(token: string, value: Option<string>): (p: ProtocolType)
    ensures p == Https <==> value.Some? && EqualsIgnoreCase(token, value.value)
    ensures p != Unspecified
  {
    if value.Some? && EqualsIgnoreCase(token, value.value) then Https else Http
  }

  /** Some header among the first `n` of the table is present. */
  predicate AnyProtocolHeader(h: Headers, n: nat)
    requires n <= |PROTOCOL_HEADERS|
  {
    exists i :: 0 <= i < n && ContainsKey(h, PROTOCOL_HEADERS[i].0)
  }

  /** The protocol the first `n` table headers declare: the last present one decides. */
  function LegacyProtocol(h: Headers, n: nat): ProtocolType
    requires n <= |PROTOCOL_HEADERS|
  {
    if n == 0 then Unspecified
    else
      var (name, token) := PROTOCOL_HEADERS[n - 1];
      if ContainsKey(h, name) then ProtocolVerdict(token, AsString(h[Key(name)]))
      else LegacyProtocol(h, n - 1)
  }

  /** Without any legacy protocol header the protocol stays Unspecified. */
  lemma {:induction false} LegacyProtocolUnspecified(h: Headers, n: nat)
    requires n <= |PROTOCOL_HEADERS|
    ensures !AnyProtocolHeader(h, n) <==> LegacyProtocol(h, n) == Unspecified
  {
    if n > 0 {
      LegacyProtocolUnspecified(h, n - 1);
      if !ContainsKey(h, PROTOCOL_HEADERS[n - 1].0) && AnyProtocolHeader(h, n) {
        var i :| 0 <= i < n && ContainsKey(h, PROTOCOL_HEADERS[i].0);
        assert AnyProtocolHeader(h, n - 1);
      }
    }
  }

  /** Each piece of `pieces` trimmed, in order. */
  function TrimAll(pieces: seq<string>): (r: seq<string>)
    ensures |r| == |pieces|
    ensures forall i :: 0 <= i < |r| ==> r[i] == Trim(pieces[i])
  {
    if pieces == [] then []
    else
      var rest := TrimAll(pieces[1..]);
      assert forall i :: 1 <= i < |pieces| ==> ([Trim(pieces[0])] + rest)[i] == rest[i - 1];
      [Trim(pieces[0])] + rest
  }

  /**
   * X-Forwarded-For: every value split on ',' with empty pieces removed, then each piece
   * trimmed (so a piece of white space only becomes an empty entry).
   */
  function SplitForwardedFor(values: seq<string>): seq<string> {
    if values == [] then [] else TrimAll(Split(values[0], {','})) + SplitForwardedFor(values[1..])
  }

  /** The pair a piece key=value stands for: the key trimmed and upper-cased, the value trimmed. */
  function Param(key: string, value: string): (string, string) {
    (Upper(Trim(key)), Trim(value))
  }

  /** One key/value pair per piece that splits on '=' into exactly two non-empty parts. */
  function ElementPairs(pieces: seq<string>): seq<(string, string)> {
    if pieces == [] then []
    else
      var parts := Split(pieces[0], {'='});
      (if |parts| == 2 then [Param(parts[0], parts[1])] else [])
        + ElementPairs(pieces[1..])
  }

  /** Forwarded: every value split on ';' and ',' with empty pieces removed, then into pairs. */
  function ForwardedPairs(values: seq<string>): seq<(string, string)> {
    if values == [] then [] else ElementPairs(Split(values[0], {';', ','})) + ForwardedPairs(values[1..])
  }

  /** ToLookup(...)[key]: the values of every pair with that key, in document order. */
  function Lookup(pairs: seq<(string, string)>, key: string): (r: seq<string>)
    ensures |r| <= |pairs|
  {
    if pairs == [] then []
    else (if pairs[0].0 == key then [pairs[0].1] else []) + Lookup(pairs[1..], key)
  }

  function Last(s: seq<string>): string
    requires s != []
  {
    s[|s| - 1]
  }

  /** The pairs the Forwarded header holds (none when it is absent). */
  function Pairs(h: Headers): seq<(string, string)> {
    match TryGetValue(h, FORWARDED)
    case None => []
    case Some(values) => ForwardedPairs(values)
  }

  /** Protocol: the last Forwarded proto if there is one, else the legacy protocol headers. */
  function ProtocolOf(h: Headers): ProtocolType {
    var proto := Lookup(Pairs(h), "PROTO");
    if proto != [] then ProtocolVerdict("https", Some(Last(proto))) else LegacyProtocol(h, |PROTOCOL_HEADERS|)
  }

  /** For as the legacy headers give it: X-Forwarded-For, else X-ProxyUser-Ip, else empty. */
  function LegacyFor(h: Headers): seq<string> {
    match TryGetValue(h, FORWARDED_FOR)
    case Some(values) => SplitForwardedFor(values)
    case None =>
      match TryGetValue(h, PROXY_USER_IP)
      case Some(ips) => ips
      case None => []
  }

  /** For: every Forwarded for, else the legacy headers' list. */
  function ForOf(h: Headers): seq<string> {
    var fors := Lookup(Pairs(h), "FOR");
    if fors != [] then fors else LegacyFor(h)
  }

  /** Host as the legacy header gives it: X-Forwarded-Host as a string, else null. */
  function LegacyHost(h: Headers): Option<string> {
    match TryGetValue(h, FORWARDED_HOST)
    case Some(values) => AsString(values)
    case None => None
  }

  /** Host: the last Forwarded host, else the legacy header's. */
  function HostOf(h: Headers): Option<string> {
    var hosts := Lookup(Pairs(h), "HOST");
    if hosts != [] then Some(Last(hosts)) else LegacyHost(h)
  }

  /** By: the last Forwarded by, else null. */
  function ByOf(h: Headers): Option<string> {
    var bys := Lookup(Pairs(h), "BY");
    if bys != [] then Some(Last(bys)) else None
  }

  /** Port: X-Forwarded-Port when it parses as a 32-bit integer, else null. */
  function PortOf(h: Headers): Option<int> {
    match TryGetValue(h, FORWARDED_PORT)
    case Some(values) => TryParseInt32(AsString(values))
    case None => None
  }

  /** Some step of the parser assigns a field, so that the record gets created. */
  predicate Assigned(h: Headers) {
    || AnyProtocolHeader(h, |PROTOCOL_HEADERS|)
    || ContainsKey(h, FORWARDED_FOR)
    || ContainsKey(h, PROXY_USER_IP)
    || ContainsKey(h, FORWARDED_HOST)
    || PortOf(h).Some?
    || Lookup(Pairs(h), "PROTO") != []
    || Lookup(Pairs(h), "FOR") != []
    || Lookup(Pairs(h), "HOST") != []
    || Lookup(Pairs(h), "BY") != []
  }

  /**
   * The specification of FromHttpContext, field by field: null when no field is assigned,
   * otherwise each field as the precedence rules above say.
   */
  function Parse(h: Headers): Option<ForwardedHeader> {
    if Assigned(h) then Some(ForwardedHeader(ProtocolOf(h), ForOf(h), HostOf(h), ByOf(h), PortOf(h)))
    else None
  }

  /** The local function header(): the record created so far, or a new one. */
  function Touch(result: Option<ForwardedHeader>): ForwardedHeader {
    if result.Some? then result.value else EMPTY
  }

  /** What FromHttpContext yields: the exception for a null context, else the parse of its headers. */
  ghost function Evaluate(context: HttpContext?): (r: Result<Option<ForwardedHeader>, Exception>)
    reads context
    ensures r.Failure? <==> context == null
  {
    if context == null then Failure(ArgumentNullException("context"))
    else Success(Parse(context.requestHeaders))
  }

  /**
   * ForwardedHeader.FromHttpContext: throws for a null context; otherwise creates the record
   * the first time a field is assigned and returns it, or null when nothing was assigned.
   */
  method FromHttpContext(context: HttpContext?) returns (r: Result<Option<ForwardedHeader>, Exception>)
    ensures r == Evaluate(context)
    ensures context == null ==> r == Failure(ArgumentNullException("context"))
    ensures context != null ==> r == Success(Parse(context.requestHeaders))
  {
    if context == null {
      return Failure(ArgumentNullException("context"));
    }
    var headers := context.requestHeaders;
    var result := ReadProtocolHeaders(headers);
    LegacyProtocolUnspecified(headers, |PROTOCOL_HEADERS|);
    result := ReadLegacyHeaders(headers, result);
    assert Touch(result).protocol == LegacyProtocol(headers, |PROTOCOL_HEADERS|);
    assert Touch(result).forwardedBy == None;
    result := ReadForwardedHeader(headers, result);
    return Success(result);
  }

  /** The loop over the legacy protocol headers: each present one overwrites Protocol. */
  method ReadProtocolHeaders(headers: Headers) returns (result: Option<ForwardedHeader>)
    ensures result.Some? <==> AnyProtocolHeader(headers, |PROTOCOL_HEADERS|)
    ensures result.Some? ==> result.value == EMPTY.(protocol := LegacyProtocol(headers, |PROTOCOL_HEADERS|))
  {
    result := None;
    for i := 0 to |PROTOCOL_HEADERS|
      invariant result.Some? <==> AnyProtocolHeader(headers, i)
      invariant result.Some? ==> result.value == EMPTY.(protocol := LegacyProtocol(headers, i))
    {
      var (name, token) := PROTOCOL_HEADERS[i];
      if ContainsKey(headers, name) {
        result := Some(Touch(result).(protocol := ProtocolVerdict(token, AsString(headers[Key(name)]))));
      }
    }
  }

  /** X-Forwarded-For or else X-ProxyUser-Ip, then X-Forwarded-Host, then X-Forwarded-Port. */
  method ReadLegacyHeaders(headers: Headers, result0: Option<ForwardedHeader>)
    returns (result: Option<ForwardedHeader>)
    requires result0.Some? ==> result0.value.forwardedFor == [] && result0.value.host.None?
                               && result0.value.port.None?
    ensures result.Some? <==> (result0.Some? || ContainsKey(headers, FORWARDED_FOR)
      || ContainsKey(headers, PROXY_USER_IP) || ContainsKey(headers, FORWARDED_HOST) || PortOf(headers).Some?)
    ensures result.Some? ==>
      result.value == Touch(result0).(forwardedFor := LegacyFor(headers), host := LegacyHost(headers),
                                      port := PortOf(headers))
  {
    result := result0;
    var forValues := TryGetValue(headers, FORWARDED_FOR);
    if forValues.Some? {
      result := Some(Touch(result).(forwardedFor := SplitForwardedFor(forValues.value)));
    } else {
      var ips := TryGetValue(headers, PROXY_USER_IP);
      if ips.Some? {
        result := Some(Touch(result).(forwardedFor := ips.value));
      }
    }
    var hostValues := TryGetValue(headers, FORWARDED_HOST);
    if hostValues.Some? {
      result := Some(Touch(result).(host := AsString(hostValues.value)));
    }
    var portValues := TryGetValue(headers, FORWARDED_PORT);
    if portValues.Some? {
      var port := TryParseInt32(AsString(portValues.value));
      if port.Some? {
        result := Some(Touch(result).(port := port));
      }
    }
  }

  /** The Forwarded header: its proto, for, host and by override what the legacy headers gave. */
  method ReadForwardedHeader(headers: Headers, result0: Option<ForwardedHeader>)
    returns (result: Option<ForwardedHeader>)
    ensures var pairs := Pairs(headers);
      result.Some? <==> (result0.Some? || Lookup(pairs, "PROTO") != [] || Lookup(pairs, "FOR") != []
        || Lookup(pairs, "HOST") != [] || Lookup(pairs, "BY") != [])
    ensures var pairs := Pairs(headers);
      result.Some? ==> result.value == ForwardedHeader(
        if Lookup(pairs, "PROTO") != [] then ProtocolVerdict("https", Some(Last(Lookup(pairs, "PROTO"))))
        else Touch(result0).protocol,
        if Lookup(pairs, "FOR") != [] then Lookup(pairs, "FOR") else Touch(result0).forwardedFor,
        if Lookup(pairs, "HOST") != [] then Some(Last(Lookup(pairs, "HOST"))) else Touch(result0).host,
        if Lookup(pairs, "BY") != [] then Some(Last(Lookup(pairs, "BY"))) else Touch(result0).forwardedBy,
        Touch(result0).port)
  {
    result := result0;
    var fw := TryGetValue(headers, FORWARDED);
    if fw.Some? {
      var values := ForwardedPairs(fw.value);
      var proto := Lookup(values, "PROTO");
      if proto != [] {
        result := Some(Touch(result).(protocol := ProtocolVerdict("https", Some(Last(proto)))));
      }
      var fors := Lookup(values, "FOR");
      if fors != [] {
        result := Some(Touch(result).(forwardedFor := fors));
      }
      var hosts := Lookup(values, "HOST");
      if hosts != [] {
        result := Some(Touch(result).(host := Some(Last(hosts))));
      }
      var bys := Lookup(values, "BY");
      if bys != [] {
        result := Some(Touch(result).(forwardedBy := Some(Last(bys))));
      }
    }
  }

  // Properties of the parse.

  /** The folded forms of the recognised header names, which are pairwise distinct. */
  lemma RecognisedKeys()
    ensures Key(PROTOCOL_HEADERS[0].0) == "X-FORWARDED-PROTO"
    ensures Key(PROTOCOL_HEADERS[1].0) == "FRONT-END-HTTPS"
    ensures Key(PROTOCOL_HEADERS[2].0) == "X-FORWARDED-PROTOCOL"
    ensures Key(PROTOCOL_HEADERS[3].0) == "X-FORWARDED-SSL"
    ensures Key(PROTOCOL_HEADERS[4].0) == "X-URL-SCHEME"
    ensures Key(FORWARDED_FOR) == "X-FORWARDED-FOR"
    ensures Key(PROXY_USER_IP) == "X-PROXYUSER-IP"
    ensures Key(FORWARDED_HOST) == "X-FORWARDED-HOST"
    ensures Key(FORWARDED_PORT) == "X-FORWARDED-PORT"
    ensures Key(FORWARDED) == "FORWARDED"
  {
    ProtocolKeys();
    LegacyKeys();
  }

  lemma ProtocolKeys()
    ensures Key(PROTOCOL_HEADERS[0].0) == "X-FORWARDED-PROTO"
    ensures Key(PROTOCOL_HEADERS[1].0) == "FRONT-END-HTTPS"
    ensures Key(PROTOCOL_HEADERS[2].0) == "X-FORWARDED-PROTOCOL"
    ensures Key(PROTOCOL_HEADERS[3].0) == "X-FORWARDED-SSL"
    ensures Key(PROTOCOL_HEADERS[4].0) == "X-URL-SCHEME"
  {
  }

  lemma LegacyKeys()
    ensures Key(FORWARDED_FOR) == "X-FORWARDED-FOR"
    ensures Key(PROXY_USER_IP) == "X-PROXYUSER-IP"
    ensures Key(FORWARDED_HOST) == "X-FORWARDED-HOST"
    ensures Key(FORWARDED_PORT) == "X-FORWARDED-PORT"
    ensures Key(FORWARDED) == "FORWARDED"
  {
  }

  /** Without any recognised header the result is null, not an empty record. */
  lemma NoRecognisedHeaderGivesNull(h: Headers)
    requires forall i :: 0 <= i < |PROTOCOL_HEADERS| ==> !ContainsKey(h, PROTOCOL_HEADERS[i].0)
    requires !ContainsKey(h, FORWARDED_FOR) && !ContainsKey(h, PROXY_USER_IP)
    requires !ContainsKey(h, FORWARDED_HOST) && !ContainsKey(h, FORWARDED_PORT) && !ContainsKey(h, FORWARDED)
    ensures Parse(h) == None
  {
  }

  /** X-Forwarded-Port alone: a record holding the port when it parses, null otherwise. */
  lemma PortAlone(values: seq<string>)
    ensures var port := TryParseInt32(AsString(values));
      Parse(map[Key(FORWARDED_PORT) := values]) == if port.Some? then Some(EMPTY.(port := port)) else None
  {
    var h := map[Key(FORWARDED_PORT) := values];
    RecognisedKeys();
    assert !ContainsKey(h, FORWARDED) && Pairs(h) == [];
    assert !AnyProtocolHeader(h, |PROTOCOL_HEADERS|);
    LegacyProtocolUnspecified(h, |PROTOCOL_HEADERS|);
  }

  /** X-Forwarded-For alone: its split and trimmed entries, nothing else. */
  lemma ForwardedForAlone(values: seq<string>)
    ensures Parse(map[Key(FORWARDED_FOR) := values]) == Some(EMPTY.(forwardedFor := SplitForwardedFor(values)))
  {
    var h := map[Key(FORWARDED_FOR) := values];
    RecognisedKeys();
    assert !ContainsKey(h, FORWARDED) && Pairs(h) == [];
    assert !AnyProtocolHeader(h, |PROTOCOL_HEADERS|);
    LegacyProtocolUnspecified(h, |PROTOCOL_HEADERS|);
  }

  /** X-ProxyUser-Ip alone: its values, unsplit, are the For entries. */
  lemma ProxyUserIpAlone(values: seq<string>)
    ensures Parse(map[Key(PROXY_USER_IP) := values]) == Some(EMPTY.(forwardedFor := values))
  {
    var h := map[Key(PROXY_USER_IP) := values];
    RecognisedKeys();
    assert !ContainsKey(h, FORWARDED) && Pairs(h) == [];
    assert !AnyProtocolHeader(h, |PROTOCOL_HEADERS|);
    LegacyProtocolUnspecified(h, |PROTOCOL_HEADERS|);
  }

  /** X-Forwarded-Host alone: its values as one string are the host. */
  lemma HostAlone(values: seq<string>)
    ensures Parse(map[Key(FORWARDED_HOST) := values]) == Some(EMPTY.(host := AsString(values)))
  {
    var h := map[Key(FORWARDED_HOST) := values];
    RecognisedKeys();
    assert !ContainsKey(h, FORWARDED) && Pairs(h) == [];
    assert !AnyProtocolHeader(h, |PROTOCOL_HEADERS|);
    LegacyProtocolUnspecified(h, |PROTOCOL_HEADERS|);
  }

  /** Forwarded alone: the fields its pairs name, defaults for the rest, null when it names none. */
  lemma ForwardedAlone(values: seq<string>)
    ensures var pairs := ForwardedPairs(values);
      var proto, fors, hosts, bys := Lookup(pairs, "PROTO"), Lookup(pairs, "FOR"), Lookup(pairs, "HOST"), Lookup(pairs, "BY");
      Parse(map[Key(FORWARDED) := values]) ==
        if proto == [] && fors == [] && hosts == [] && bys == [] then None
        else Some(ForwardedHeader(
          if proto != [] then ProtocolVerdict("https", Some(Last(proto))) else Unspecified,
          fors,
          if hosts != [] then Some(Last(hosts)) else None,
          if bys != [] then Some(Last(bys)) else None,
          None))
  {
    var h := map[Key(FORWARDED) := values];
    RecognisedKeys();
    assert Pairs(h) == ForwardedPairs(values);
    assert !ContainsKey(h, FORWARDED_FOR) && !ContainsKey(h, PROXY_USER_IP);
    assert !ContainsKey(h, FORWARDED_HOST) && !ContainsKey(h, FORWARDED_PORT);
    assert !AnyProtocolHeader(h, |PROTOCOL_HEADERS|);
    LegacyProtocolUnspecified(h, |PROTOCOL_HEADERS|);
  }

  /**
   * Once created, the record keeps the defaults for whatever no header assigned:
   * For is empty, Protocol Unspecified, and Host, By and Port null.
   */
  lemma CreatedRecordDefaults(h: Headers)
    requires Parse(h).Some?
    ensures !ContainsKey(h, FORWARDED_FOR) && !ContainsKey(h, PROXY_USER_IP) && Lookup(Pairs(h), "FOR") == []
      ==> Parse(h).value.forwardedFor == []
    ensures !AnyProtocolHeader(h, |PROTOCOL_HEADERS|) && Lookup(Pairs(h), "PROTO") == []
      ==> Parse(h).value.protocol == Unspecified
    ensures !ContainsKey(h, FORWARDED_HOST) && Lookup(Pairs(h), "HOST") == [] ==> Parse(h).value.host.None?
    ensures Lookup(Pairs(h), "BY") == [] ==> Parse(h).value.forwardedBy.None?
    ensures (!ContainsKey(h, FORWARDED_PORT) || TryParseInt32(AsString(h[Key(FORWARDED_PORT)])).None?)
      ==> Parse(h).value.port.None?
  {
    LegacyProtocolUnspecified(h, |PROTOCOL_HEADERS|);
  }

  lemma {:induction false} LegacyProtocolIsLastPresent(h: Headers, n: nat, j: nat)
    requires j < n <= |PROTOCOL_HEADERS|
    requires ContainsKey(h, PROTOCOL_HEADERS[j].0)
    requires forall k :: j < k < n ==> !ContainsKey(h, PROTOCOL_HEADERS[k].0)
    ensures LegacyProtocol(h, n) == ProtocolVerdict(PROTOCOL_HEADERS[j].1, AsString(h[Key(PROTOCOL_HEADERS[j].0)]))
  {
    if n - 1 > j {
      LegacyProtocolIsLastPresent(h, n - 1, j);
    }
  }

  /**
   * Among the legacy protocol headers the last present one in table order decides: Https
   * exactly when its value equals that header's token ignoring case. A Forwarded proto
   * would override it.
   */
  lemma LastProtocolHeaderWins(h: Headers, j: nat)
    requires j < |PROTOCOL_HEADERS| && ContainsKey(h, PROTOCOL_HEADERS[j].0)
    requires forall k :: j < k < |PROTOCOL_HEADERS| ==> !ContainsKey(h, PROTOCOL_HEADERS[k].0)
    requires Lookup(Pairs(h), "PROTO") == []
    ensures Parse(h).Some?
    ensures var value := AsString(h[Key(PROTOCOL_HEADERS[j].0)]);
      Parse(h).value.protocol == (if value.Some? && EqualsIgnoreCase(PROTOCOL_HEADERS[j].1, value.value) then Https else Http)
  {
    LegacyProtocolIsLastPresent(h, |PROTOCOL_HEADERS|, j);
  }

  /** The Forwarded header's parameters override what the legacy headers declared. */
  lemma ForwardedOverridesLegacy(h: Headers)
    requires Parse(h).Some?
    ensures var proto := Lookup(Pairs(h), "PROTO");
      proto != [] ==> Parse(h).value.protocol == (if EqualsIgnoreCase("https", Last(proto)) then Https else Http)
    ensures Lookup(Pairs(h), "FOR") != [] ==> Parse(h).value.forwardedFor == Lookup(Pairs(h), "FOR")
    ensures var hosts := Lookup(Pairs(h), "HOST"); hosts != [] ==> Parse(h).value.host == Some(Last(hosts))
    ensures var bys := Lookup(Pairs(h), "BY"); bys != [] ==> Parse(h).value.forwardedBy == Some(Last(bys))
  {
  }

  /**
   * X-ProxyUser-Ip is read only when X-Forwarded-For is absent, and then each of its values is
   * one entry, unsplit.
   */
  lemma ProxyUserIpIsFallback(h: Headers, ips: seq<string>)
    requires Lookup(Pairs(h), "FOR") == []
    ensures ContainsKey(h, FORWARDED_FOR) ==> ForOf(h[Key(PROXY_USER_IP) := ips]) == ForOf(h)
    ensures !ContainsKey(h, FORWARDED_FOR) ==> ForOf(h[Key(PROXY_USER_IP) := ips]) == ips
  {
    RecognisedKeys();
    var h' := h[Key(PROXY_USER_IP) := ips];
    assert TryGetValue(h', FORWARDED) == TryGetValue(h, FORWARDED);
    assert TryGetValue(h', FORWARDED_FOR) == TryGetValue(h, FORWARDED_FOR);
  }

  /** Every X-Forwarded-For entry is trimmed. */
  lemma {:induction false} ForwardedForEntriesTrimmed(values: seq<string>)
    ensures forall i :: 0 <= i < |SplitForwardedFor(values)| ==> Trim(SplitForwardedFor(values)[i]) == SplitForwardedFor(values)[i]
  {
    if values != [] {
      ForwardedForEntriesTrimmed(values[1..]);
      var head := TrimAll(Split(values[0], {','}));
      forall i | 0 <= i < |head| ensures Trim(head[i]) == head[i] {
        TrimWithIdempotent(Split(values[0], {','})[i], WHITE_SPACE);
      }
    }
  }

  /** The X-Forwarded-For entries of several values follow each other in order. */
  lemma {:induction false} SplitForwardedForAppend(a: seq<string>, b: seq<string>)
    ensures SplitForwardedFor(a + b) == SplitForwardedFor(a) + SplitForwardedFor(b)
  {
    if a == [] {
      assert a + b == b;
    } else {
      assert (a + b)[0] == a[0];
      assert (a + b)[1..] == a[1..] + b;
      SplitForwardedForAppend(a[1..], b);
    }
  }

  /** Lookup keeps document order across the values of the header. */
  lemma {:induction false} LookupAppend(a: seq<(string, string)>, b: seq<(string, string)>, key: string)
    ensures Lookup(a + b, key) == Lookup(a, key) + Lookup(b, key)
  {
    if a == [] {
      assert a + b == b;
    } else {
      assert (a + b)[0] == a[0];
      assert (a + b)[1..] == a[1..] + b;
      LookupAppend(a[1..], b, key);
    }
  }

  /** Every Forwarded parameter name is looked up in its trimmed, upper-cased form. */
  lemma {:induction false} PairKeysAreFolded(pieces: seq<string>)
    ensures forall i :: 0 <= i < |ElementPairs(pieces)| ==> Upper(ElementPairs(pieces)[i].0) == ElementPairs(pieces)[i].0
  {
    if pieces != [] {
      PairKeysAreFolded(pieces[1..]);
      var parts := Split(pieces[0], {'='});
      if |parts| == 2 {
        UpperIdempotent(Trim(parts[0]));
      }
    }
  }
}
