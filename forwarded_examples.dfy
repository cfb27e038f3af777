/**
 * The request headers of the parser's unit tests, and a few inputs that show how the code's
 * own split rules treat unusual values, each with the record the parse yields.
 */
module ForwardedExamples {
  import opened Wrappers
  import opened Strings
  import opened Numbers
  import opened Http
  import opened Forwarded

  /** Each legacy protocol header alone: Https exactly when its value matches its token, ignoring case. */
  lemma ProtocolHeaderRead(k: nat, value: string)
    requires k < |PROTOCOL_HEADERS|
    ensures var h := map[Key(PROTOCOL_HEADERS[k].0) := [value]];
      Parse(h) == Some(EMPTY.(protocol := if EqualsIgnoreCase(PROTOCOL_HEADERS[k].1, value) then Https else Http))
  {
    var h := map[Key(PROTOCOL_HEADERS[k].0) := [value]];
    RecognisedKeys();
    LastProtocolHeaderWins(h, k);
    LegacyProtocolUnspecified(h, |PROTOCOL_HEADERS|);
  }

  /** The five headers with the values of the unit test all declare https. */
  lemma ProtocolHeaderTokensGiveHttps(k: nat)
    requires k < |PROTOCOL_HEADERS|
    ensures Parse(map[Key(PROTOCOL_HEADERS[k].0) := [PROTOCOL_HEADERS[k].1]]).value.protocol == Https
  {
    ProtocolHeaderRead(k, PROTOCOL_HEADERS[k].1);
  }

  /** "HTTPS" matches "https", and "http" does not. */
  lemma ProtocolHeaderCaseAndMismatch()
    ensures Parse(map[Key("X-Forwarded-Proto") := ["HTTPS"]]) == Some(EMPTY.(protocol := Https))
    ensures Parse(map[Key("X-Forwarded-Proto") := ["http"]]) == Some(EMPTY.(protocol := Http))
  {
    ProtocolHeaderRead(0, "HTTPS");
    ProtocolHeaderRead(0, "http");
    assert Upper("HTTPS") == Upper("https");
    assert Upper("http") != Upper("https") by {
      assert |Upper("http")| != |Upper("https")|;
    }
  }

  /** A run of spaces, such as surrounds the values in the unit tests. */
  predicate Spaces(w: string) {
    forall i :: 0 <= i < |w| ==> w[i] == ' '
  }

  /** A value with no character of `seps` and no white space at either end. */
  predicate Bare(t: string, seps: set<char>) {
    t != [] && NoneIn(t, seps) && t[0] !in WHITE_SPACE && t[|t| - 1] !in WHITE_SPACE
  }

  lemma SpacesAreWhite(w: string)
    requires Spaces(w)
    ensures forall i :: 0 <= i < |w| ==> w[i] in WHITE_SPACE
  {
  }

  /** Trimming removes spaces put around a bare value. */
  lemma SpacedTrim(pre: string, t: string, post: string, seps: set<char>)
    requires Spaces(pre) && Spaces(post) && Bare(t, seps)
    ensures Trim(pre + t + post) == t
  {
    SpacesAreWhite(pre);
    SpacesAreWhite(post);
    TrimWithPadded(pre, t, post, WHITE_SPACE);
  }

  lemma LeftSpacedTrim(pre: string, t: string, seps: set<char>)
    requires Spaces(pre) && Bare(t, seps)
    ensures Trim(pre + t) == t
  {
    SpacedTrim(pre, t, "", seps);
    assert pre + t == pre + t + "";
  }

  lemma RightSpacedTrim(t: string, post: string, seps: set<char>)
    requires Spaces(post) && Bare(t, seps)
    ensures Trim(t + post) == t
  {
    SpacedTrim("", t, post, seps);
    assert t + post == "" + t + post;
  }

  lemma BareTrim(t: string, seps: set<char>)
    requires Bare(t, seps)
    ensures Trim(t) == t
  {
    TrimWithNoop(t, WHITE_SPACE);
  }

  /** No separator inside: the concatenation is one piece. */
  lemma OnePiece(a: string, b: string, seps: set<char>)
    requires NoneIn(a, seps) && NoneIn(b, seps) && a + b != []
    ensures Split(a + b, seps) == [a + b]
  {
    assert forall i :: 0 <= i < |a + b| ==> (a + b)[i] == if i < |a| then a[i] else b[i - |a|];
    SplitToken(a + b, seps);
  }

  // X-Forwarded-For

  lemma HopsPieces(a: string, b: string, c: string, w: string)
    requires Bare(a, {','}) && Bare(b, {','}) && Bare(c, {','}) && Spaces(w)
    ensures Split(a + "," + w + b + "," + w + c, {','}) == [a, w + b, w + c]
  {
    assert a + "," + w + b + "," + w + c == a + [','] + ((w + b) + [','] + (w + c));
    SplitAtSeparator(a, ',', (w + b) + [','] + (w + c), {','});
    SplitAtSeparator(w + b, ',', w + c, {','});
    SplitToken(a, {','});
    OnePiece(w, b, {','});
    OnePiece(w, c, {','});
  }

  lemma HopsTrimmed(a: string, b: string, c: string, w: string)
    requires Bare(a, {','}) && Bare(b, {','}) && Bare(c, {','}) && Spaces(w)
    ensures TrimAll([a, w + b, w + c]) == [a, b, c]
  {
    TrimAllThree(a, w + b, w + c);
    BareTrim(a, {','});
    LeftSpacedTrim(w, b, {','});
    LeftSpacedTrim(w, c, {','});
  }

  /**
   * X-Forwarded-For, header name in any case, with three hops after ',' and spaces, as in
   * the unit test's "172.217.20.195, fd00::211:32ff:fe0c:9319, clientA": the hops, trimmed,
   * in order.
   */
  lemma ForwardedForParsed(a: string, b: string, c: string, w: string)
    requires Bare(a, {','}) && Bare(b, {','}) && Bare(c, {','}) && Spaces(w)
    ensures Parse(map[Key("X-Forwarded-for") := [a + "," + w + b + "," + w + c]])
      == Some(EMPTY.(forwardedFor := [a, b, c]))
  {
    var v := a + "," + w + b + "," + w + c;
    RecognisedKeys();
    assert Key("X-Forwarded-for") == Key(FORWARDED_FOR);
    HopsPieces(a, b, c, w);
    HopsTrimmed(a, b, c, w);
    assert SplitForwardedFor([v]) == TrimAll(Split(v, {','})) + SplitForwardedFor([]);
    assert SplitForwardedFor([v]) == [a, b, c];
    ForwardedForAlone([v]);
    assert map[Key("X-Forwarded-for") := [v]] == map[Key(FORWARDED_FOR) := [v]];
  }

  lemma BlankPiecePieces(a: string, b: string, w: string)
    requires Bare(a, {','}) && Bare(b, {','}) && Spaces(w) && w != []
    ensures Split(a + "," + w + "," + b, {','}) == [a, w, b]
  {
    assert a + "," + w + "," + b == a + [','] + (w + [','] + b);
    SplitAtSeparator(a, ',', w + [','] + b, {','});
    SplitAtSeparator(w, ',', b, {','});
    SplitToken(a, {','});
    SplitToken(w, {','});
    SplitToken(b, {','});
  }

  lemma TrimAllThree(a: string, b: string, c: string)
    ensures TrimAll([a, b, c]) == [Trim(a), Trim(b), Trim(c)]
  {
  }

  lemma SpacesTrim(w: string)
    requires Spaces(w)
    ensures Trim(w) == []
  {
    SpacesAreWhite(w);
    TrimWithPadded(w, "", "", WHITE_SPACE);
    assert w == w + "" + "";
  }

  lemma BlankPieceTrimmed(a: string, b: string, w: string)
    requires Bare(a, {','}) && Bare(b, {','}) && Spaces(w)
    ensures TrimAll([a, w, b]) == [a, "", b]
  {
    TrimAllThree(a, w, b);
    BareTrim(a, {','});
    BareTrim(b, {','});
    SpacesTrim(w);
  }

  /** A piece of spaces only between two commas is kept, as an empty entry. */
  lemma ForwardedForBlankPieceKept(a: string, b: string, w: string)
    requires Bare(a, {','}) && Bare(b, {','}) && Spaces(w) && w != []
    ensures Parse(map[Key(FORWARDED_FOR) := [a + "," + w + "," + b]])
      == Some(EMPTY.(forwardedFor := [a, "", b]))
  {
    var v := a + "," + w + "," + b;
    BlankPiecePieces(a, b, w);
    BlankPieceTrimmed(a, b, w);
    assert SplitForwardedFor([v]) == TrimAll(Split(v, {','})) + SplitForwardedFor([]);
    assert SplitForwardedFor([v]) == [a, "", b];
    ForwardedForAlone([v]);
  }

  /** X-ProxyUser-Ip alone: its value is the one entry of For. */
  lemma ProxyUserIpRead()
    ensures Parse(map[Key(PROXY_USER_IP) := ["172.217.20.195"]])
      == Some(EMPTY.(forwardedFor := ["172.217.20.195"]))
  {
    ProxyUserIpAlone(["172.217.20.195"]);
  }

  /** X-Forwarded-Host alone is copied as it is. */
  lemma ForwardedHostRead()
    ensures Parse(map[Key(FORWARDED_HOST) := ["myhost"]]) == Some(EMPTY.(host := Some("myhost")))
  {
    HostAlone(["myhost"]);
  }

  /** X-Forwarded-Port alone, "8081". */
  lemma NatToString8081()
    ensures NatToString(8081) == "8081"
  {
    assert NatToString(8081) == NatToString(808) + "1";
    assert NatToString(808) == NatToString(80) + "8";
    assert NatToString(80) == NatToString(8) + "0";
  }

  lemma ParsePort8081()
    ensures TryParseInt32(Some("8081")) == Some(8081)
  {
    NatToString8081();
    TryParseInt32OfNatToString(8081);
  }

  lemma ForwardedPortRead()
    ensures Parse(map[Key(FORWARDED_PORT) := ["8081"]]) == Some(EMPTY.(port := Some(8081)))
  {
    ParsePort8081();
    assert AsString(["8081"]) == Some("8081");
    PortAlone(["8081"]);
  }

  /** A piece "key=value" with a single '=' splits into its key and its value. */
  lemma KeyValueSplit(key: string, value: string)
    requires key != [] && value != [] && NoneIn(key, {'='}) && NoneIn(value, {'='})
    ensures Split(key + "=" + value, {'='}) == [key, value]
  {
    assert key + "=" + value == key + ['='] + value;
    SplitAtSeparator(key, '=', value, {'='});
    SplitToken(key, {'='});
    SplitToken(value, {'='});
  }

  // Forwarded

  /** The separators a Forwarded value must avoid: ';' and ',' between pairs, '=' inside them. */
  const FORWARDED_SEPARATORS: set<char> := {';', ',', '='}

  /**
   * The Forwarded value of the unit test with its spaces, its keys and its values left open:
   * `w` is the space the test writes around keys and values, and each key may be spelt in
   * any case.
   */
  datatype TestInput = TestInput(
    w: string,
    forKey: string, byKey: string, protoKey: string, hostKey: string,
    for1: string, for2: string, byValue: string, proto: string, host: string)
  {
    /**
     * With `w` a single space, the keys for, by, proto and host and the test's values, this
     * is " for=192.0.2.43  , for =198.51.100.17; by = 203.0.113.60 ; proto=https;host= example.com ".
     */
    function Value(): string {
      var p := Pieces();
      p[0] + "," + (p[1] + ";" + (p[2] + ";" + (p[3] + ";" + p[4])))
    }

    /** The keys and the values of its pieces. */
    function Keys(): seq<string> {
      [w + forKey, w + forKey + w, w + byKey + w, w + protoKey, hostKey]
    }

    function Values(): seq<string> {
      [for1 + (w + w), for2, w + byValue + w, proto, w + host + w]
    }

    /** Its pieces between ';' and ',': key, '=', value. */
    function Pieces(): seq<string> {
      [w + forKey + "=" + (for1 + (w + w)), w + forKey + w + "=" + for2, w + byKey + w + "=" + (w + byValue + w),
       w + protoKey + "=" + proto, hostKey + "=" + (w + host + w)]
    }

    predicate Valid() {
      && Spaces(w)
      && Bare(forKey, FORWARDED_SEPARATORS) && Upper(forKey) == "FOR"
      && Bare(byKey, FORWARDED_SEPARATORS) && Upper(byKey) == "BY"
      && Bare(protoKey, FORWARDED_SEPARATORS) && Upper(protoKey) == "PROTO"
      && Bare(hostKey, FORWARDED_SEPARATORS) && Upper(hostKey) == "HOST"
      && Bare(for1, FORWARDED_SEPARATORS) && Bare(for2, FORWARDED_SEPARATORS)
      && Bare(byValue, FORWARDED_SEPARATORS) && Bare(proto, FORWARDED_SEPARATORS)
      && Bare(host, FORWARDED_SEPARATORS)
    }

    /** The pairs the value holds. */
    function Pairs(): seq<(string, string)> {
      [("FOR", for1), ("FOR", for2), ("BY", byValue), ("PROTO", proto), ("HOST", host)]
    }
  }

  lemma PieceNotSplit(p: string)
    requires NoneIn(p, {';', ','}) && p != []
    ensures Split(p, {';', ','}) == [p]
  {
    SplitToken(p, {';', ','});
  }

  lemma TestPartsFree(t: TestInput)
    requires t.Valid()
    ensures forall k :: 0 <= k < 5 ==> t.Keys()[k] != [] && NoneIn(t.Keys()[k], FORWARDED_SEPARATORS)
    ensures forall k :: 0 <= k < 5 ==> t.Values()[k] != [] && NoneIn(t.Values()[k], FORWARDED_SEPARATORS)
  {
    var keys, values := t.Keys(), t.Values();
    forall k | 0 <= k < 5 ensures keys[k] != [] && NoneIn(keys[k], FORWARDED_SEPARATORS) {
      forall i | 0 <= i < |keys[k]| ensures keys[k][i] !in FORWARDED_SEPARATORS {
      }
    }
    forall k | 0 <= k < 5 ensures values[k] != [] && NoneIn(values[k], FORWARDED_SEPARATORS) {
      forall i | 0 <= i < |values[k]| ensures values[k][i] !in FORWARDED_SEPARATORS {
      }
    }
  }

  lemma TestPiecesFree(t: TestInput)
    requires t.Valid()
    ensures forall k :: 0 <= k < 5 ==> t.Pieces()[k] != [] && NoneIn(t.Pieces()[k], {';', ','})
  {
    TestPartsFree(t);
    var p := t.Pieces();
    forall k | 0 <= k < 5 ensures p[k] != [] && NoneIn(p[k], {';', ','}) {
      var key, value := t.Keys()[k], t.Values()[k];
      assert p[k] == key + "=" + value;
      forall i | 0 <= i < |p[k]| ensures p[k][i] !in {';', ','} {
        if i < |key| {
          assert p[k][i] == key[i];
        } else if i > |key| {
          assert p[k][i] == value[i - |key| - 1];
        }
      }
    }
  }

  /** Five pieces joined by ',' then ';' split back into themselves. */
  lemma JoinedPiecesSplit(p: seq<string>)
    requires |p| == 5 && forall k :: 0 <= k < 5 ==> p[k] != [] && NoneIn(p[k], {';', ','})
    ensures Split(p[0] + [','] + (p[1] + [';'] + (p[2] + [';'] + (p[3] + [';'] + p[4]))), {';', ','}) == p
  {
    var seps := {';', ','};
    var r3 := p[3] + [';'] + p[4];
    var r2 := p[2] + [';'] + r3;
    var r1 := p[1] + [';'] + r2;
    SplitAtSeparator(p[0], ',', r1, seps);
    SplitAtSeparator(p[1], ';', r2, seps);
    SplitAtSeparator(p[2], ';', r3, seps);
    SplitAtSeparator(p[3], ';', p[4], seps);
    PieceNotSplit(p[0]);
    PieceNotSplit(p[1]);
    PieceNotSplit(p[2]);
    PieceNotSplit(p[3]);
    PieceNotSplit(p[4]);
  }

  lemma TestValuePieces(t: TestInput)
    requires t.Valid()
    ensures Split(t.Value(), {';', ','}) == t.Pieces()
  {
    TestPiecesFree(t);
    JoinedPiecesSplit(t.Pieces());
  }

  /** Pieces that each split on '=' into a key and a value give one pair each, in order. */
  lemma {:induction false} ElementPairsOfKeyValues(p: seq<string>, keys: seq<string>, values: seq<string>, k: nat)
    requires |p| == |keys| == |values| && k < |p|
    requires forall j :: 0 <= j < |p| ==> Split(p[j], {'='}) == [keys[j], values[j]]
    ensures |ElementPairs(p)| == |p|
    ensures ElementPairs(p)[k] == Param(keys[k], values[k])
    decreases |p|
  {
    var rest := ElementPairs(p[1..]);
    assert ElementPairs(p) == [Param(keys[0], values[0])] + rest by {
      ElementPairsStep(p, keys[0], values[0]);
    }
    if |p| > 1 {
      assert forall j :: 0 <= j < |p| - 1 ==> Split(p[1..][j], {'='}) == [keys[1..][j], values[1..][j]] by {
        forall j | 0 <= j < |p| - 1 ensures Split(p[1..][j], {'='}) == [keys[1..][j], values[1..][j]] {
          assert p[1..][j] == p[j + 1] && keys[1..][j] == keys[j + 1] && values[1..][j] == values[j + 1];
        }
      }
      ElementPairsOfKeyValues(p[1..], keys[1..], values[1..], if k > 0 then k - 1 else 0);
    } else {
      assert rest == [];
    }
    if k > 0 {
      assert keys[1..][k - 1] == keys[k] && values[1..][k - 1] == values[k];
    }
  }

  /** The first piece, when it splits into a key and a value, gives the first pair. */
  lemma ElementPairsStep(p: seq<string>, key: string, value: string)
    requires p != [] && Split(p[0], {'='}) == [key, value]
    ensures ElementPairs(p) == [Param(key, value)] + ElementPairs(p[1..])
  {
  }

  /** Each piece of the test value splits on '=' into its key and its value. */
  lemma TestPiecesSplit(t: TestInput)
    requires t.Valid()
    ensures forall k :: 0 <= k < 5 ==> Split(t.Pieces()[k], {'='}) == [t.Keys()[k], t.Values()[k]]
  {
    TestPartsFree(t);
    TestPiecesAreKeyValues(t);
    forall k | 0 <= k < 5 ensures Split(t.Pieces()[k], {'='}) == [t.Keys()[k], t.Values()[k]] {
      var key, value := t.Keys()[k], t.Values()[k];
      assert NoneIn(key, {'='}) && NoneIn(value, {'='});
      KeyValueSplit(key, value);
    }
  }

  /** The pairs of the test value, keys and values still as written. */
  lemma TestPairsAsWritten(t: TestInput, k: nat)
    requires t.Valid() && k < 5
    ensures |ElementPairs(t.Pieces())| == 5
    ensures ElementPairs(t.Pieces())[k] == Param(t.Keys()[k], t.Values()[k])
  {
    TestPiecesSplit(t);
    ElementPairsOfKeyValues(t.Pieces(), t.Keys(), t.Values(), k);
  }

  // Each key of the test value folds to its parameter name, and each value trims to the bare value.

  lemma TestKeyValue0(t: TestInput)
    requires t.Valid()
    ensures Upper(Trim(t.Keys()[0])) == t.Pairs()[0].0
    ensures Trim(t.Values()[0]) == t.Pairs()[0].1
  {
    assert Trim(t.w + t.forKey) == t.forKey by {
      LeftSpacedTrim(t.w, t.forKey, FORWARDED_SEPARATORS);
    }
    assert Trim(t.for1 + (t.w + t.w)) == t.for1 by {
      assert Spaces(t.w + t.w);
      RightSpacedTrim(t.for1, t.w + t.w, FORWARDED_SEPARATORS);
    }
  }

  lemma TestKeyValue1(t: TestInput)
    requires t.Valid()
    ensures Upper(Trim(t.Keys()[1])) == t.Pairs()[1].0
    ensures Trim(t.Values()[1]) == t.Pairs()[1].1
  {
    assert Trim(t.w + t.forKey + t.w) == t.forKey by {
      SpacedTrim(t.w, t.forKey, t.w, FORWARDED_SEPARATORS);
    }
    assert Trim(t.for2) == t.for2 by {
      BareTrim(t.for2, FORWARDED_SEPARATORS);
    }
  }

  lemma TestKeyValue2(t: TestInput)
    requires t.Valid()
    ensures Upper(Trim(t.Keys()[2])) == t.Pairs()[2].0
    ensures Trim(t.Values()[2]) == t.Pairs()[2].1
  {
    assert Trim(t.w + t.byKey + t.w) == t.byKey by {
      SpacedTrim(t.w, t.byKey, t.w, FORWARDED_SEPARATORS);
    }
    assert Trim(t.w + t.byValue + t.w) == t.byValue by {
      SpacedTrim(t.w, t.byValue, t.w, FORWARDED_SEPARATORS);
    }
  }

  lemma TestKeyValue3(t: TestInput)
    requires t.Valid()
    ensures Upper(Trim(t.Keys()[3])) == t.Pairs()[3].0
    ensures Trim(t.Values()[3]) == t.Pairs()[3].1
  {
    assert Trim(t.w + t.protoKey) == t.protoKey by {
      LeftSpacedTrim(t.w, t.protoKey, FORWARDED_SEPARATORS);
    }
    assert Trim(t.proto) == t.proto by {
      BareTrim(t.proto, FORWARDED_SEPARATORS);
    }
  }

  lemma TestKeyValue4(t: TestInput)
    requires t.Valid()
    ensures Upper(Trim(t.Keys()[4])) == t.Pairs()[4].0
    ensures Trim(t.Values()[4]) == t.Pairs()[4].1
  {
    assert Trim(t.hostKey) == t.hostKey by {
      BareTrim(t.hostKey, FORWARDED_SEPARATORS);
    }
    assert Trim(t.w + t.host + t.w) == t.host by {
      SpacedTrim(t.w, t.host, t.w, FORWARDED_SEPARATORS);
    }
  }

  /** Each pair of the test value has the folded key and the trimmed value. */
  lemma TestPairAt(t: TestInput, k: nat)
    requires t.Valid() && k < 5
    ensures |ElementPairs(t.Pieces())| == 5
    ensures ElementPairs(t.Pieces())[k] == t.Pairs()[k]
  {
    TestPairsAsWritten(t, k);
    if k == 0 {
      TestKeyValue0(t);
    } else if k == 1 {
      TestKeyValue1(t);
    } else if k == 2 {
      TestKeyValue2(t);
    } else if k == 3 {
      TestKeyValue3(t);
    } else {
      TestKeyValue4(t);
    }
  }

  lemma TestPairs(t: TestInput)
    requires t.Valid()
    ensures ElementPairs(t.Pieces()) == t.Pairs()
  {
    var pairs, expected := ElementPairs(t.Pieces()), t.Pairs();
    TestPairAt(t, 0);
    forall k | 0 <= k < 5 ensures pairs[k] == expected[k] {
      TestPairAt(t, k);
    }
  }

  lemma TestPiecesAreKeyValues(t: TestInput)
    ensures |t.Pieces()| == |t.Keys()| == |t.Values()| == 5
    ensures forall k :: 0 <= k < 5 ==> t.Pieces()[k] == t.Keys()[k] + "=" + t.Values()[k]
  {
  }

  /** Lookup of a pair before the rest. */
  lemma LookupCons(p: (string, string), rest: seq<(string, string)>, key: string)
    ensures Lookup([p] + rest, key) == (if p.0 == key then [p.1] else []) + Lookup(rest, key)
  {
    assert ([p] + rest)[1..] == rest;
  }

  lemma TestKeysDistinct()
    ensures "FOR" != "BY" && "FOR" != "PROTO" && "FOR" != "HOST"
    ensures "BY" != "PROTO" && "BY" != "HOST" && "PROTO" != "HOST"
  {
    assert |"FOR"| == 3 && |"BY"| == 2 && |"PROTO"| == 5 && |"HOST"| == 4;
  }

  lemma TestLookup(f1: string, f2: string, node: string, proto: string, host: string, key: string)
    ensures var pairs := [("FOR", f1), ("FOR", f2), ("BY", node), ("PROTO", proto), ("HOST", host)];
      Lookup(pairs, key) == (if key == "FOR" then [f1, f2] else [])
        + (if key == "BY" then [node] else []) + (if key == "PROTO" then [proto] else [])
        + (if key == "HOST" then [host] else [])
  {
    var pairs := [("FOR", f1), ("FOR", f2), ("BY", node), ("PROTO", proto), ("HOST", host)];
    LookupCons(("HOST", host), [], key);
    LookupCons(("PROTO", proto), pairs[4..], key);
    LookupCons(("BY", node), pairs[3..], key);
    LookupCons(("FOR", f2), pairs[2..], key);
    LookupCons(("FOR", f1), pairs[1..], key);
    assert pairs == [pairs[0]] + pairs[1..] && pairs[1..] == [pairs[1]] + pairs[2..];
    assert pairs[2..] == [pairs[2]] + pairs[3..] && pairs[3..] == [pairs[3]] + pairs[4..];
    assert pairs[4..] == [pairs[4]] + [];
    TestKeysDistinct();
  }

  lemma TestLookups(f1: string, f2: string, node: string, proto: string, host: string)
    ensures var pairs := [("FOR", f1), ("FOR", f2), ("BY", node), ("PROTO", proto), ("HOST", host)];
      && Lookup(pairs, "FOR") == [f1, f2] && Lookup(pairs, "BY") == [node]
      && Lookup(pairs, "PROTO") == [proto] && Lookup(pairs, "HOST") == [host]
  {
    TestKeysDistinct();
    TestLookup(f1, f2, node, proto, host, "FOR");
    TestLookup(f1, f2, node, proto, host, "BY");
    TestLookup(f1, f2, node, proto, host, "PROTO");
    TestLookup(f1, f2, node, proto, host, "HOST");
  }

  /**
   * The Forwarded header of the unit test: both for entries in document order, by and host
   * trimmed, the protocol decided by proto ignoring case, and no port.
   */
  lemma ForwardedParsed(t: TestInput)
    requires t.Valid()
    ensures Parse(map[Key("Forwarded") := [t.Value()]])
      == Some(ForwardedHeader(if EqualsIgnoreCase("https", t.proto) then Https else Http,
                              [t.for1, t.for2], Some(t.host), Some(t.byValue), None))
  {
    var value := t.Value();
    RecognisedKeys();
    assert Key("Forwarded") == Key(FORWARDED);
    TestValuePieces(t);
    TestPairs(t);
    assert ForwardedPairs([value]) == t.Pairs() by {
      assert ForwardedPairs([value]) == ElementPairs(Split(value, {';', ','})) + ForwardedPairs([]);
    }
    TestLookups(t.for1, t.for2, t.byValue, t.proto, t.host);
    ForwardedAlone([value]);
    assert map[Key("Forwarded") := [value]] == map[Key(FORWARDED) := [value]];
  }

  /** The pair "proto=https" stands for. */
  lemma ProtoParam()
    ensures Param("proto", "https") == ("PROTO", "https")
  {
    assert Trim("proto") == "proto" by {
      assert Bare("proto", {});
      BareTrim("proto", {});
    }
    assert Trim("https") == "https" by {
      assert Bare("https", {});
      BareTrim("https", {});
    }
    assert Upper("proto") == "PROTO" by {
      assert forall i :: 0 <= i < 5 ==> Upper("proto")[i] == "PROTO"[i];
    }
  }

  lemma ProtoPieces()
    ensures Split("proto=https", {';', ','}) == ["proto=https"]
  {
    SplitToken("proto=https", {';', ','});
  }

  lemma ProtoKeyValue()
    ensures Split("proto=https", {'='}) == ["proto", "https"]
  {
    assert "proto=https" == "proto" + "=" + "https";
    KeyValueSplit("proto", "https");
  }

  lemma ProtoPairs()
    ensures ForwardedPairs(["proto=https"]) == [("PROTO", "https")]
  {
    var p := "proto=https";
    assert ElementPairs([p]) == [("PROTO", "https")] by {
      ProtoKeyValue();
      ElementPairsStep([p], "proto", "https");
      ProtoParam();
    }
    assert ForwardedPairs([p]) == ElementPairs([p]) by {
      ProtoPieces();
      assert ForwardedPairs([p]) == ElementPairs(Split(p, {';', ','})) + ForwardedPairs([]);
    }
  }

  /** Forwarded holding only "proto=https": a record whose protocol is Https, every other field default. */
  lemma ProtoOnlyForwarded()
    ensures Parse(map[Key(FORWARDED) := ["proto=https"]]) == Some(EMPTY.(protocol := Https))
  {
    var pairs := [("PROTO", "https")];
    ProtoPairs();
    TestKeysDistinct();
    assert Lookup(pairs, "PROTO") == ["https"] && Lookup(pairs, "FOR") == [];
    assert Lookup(pairs, "HOST") == [] && Lookup(pairs, "BY") == [];
    ForwardedAlone(["proto=https"]);
  }
}
