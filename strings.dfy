/**
 * The .NET string operations the core relies on, restricted to what the model needs:
 * ASCII case folding (ToUpperInvariant, OrdinalIgnoreCase), IsNullOrEmpty, Trim and
 * Split with StringSplitOptions.RemoveEmptyEntries.
 */
module Strings {
  import opened Wrappers

  /** Upper-casing of one character; only the ASCII letters are folded. */
  function UpperChar(c: char): char {
    if 'a' <= c <= 'z' then (c as int - 32) as char else c
  }

  /** ToUpperInvariant, restricted to ASCII letters. */
  function Upper(s: string): (r: string)
    ensures |r| == |s|
    ensures forall i :: 0 <= i < |s| ==> r[i] == UpperChar(s[i])
  {
    seq(|s|, i requires 0 <= i < |s| => UpperChar(s[i]))
  }

  /** Equals(a, b, StringComparison.OrdinalIgnoreCase). */
  predicate EqualsIgnoreCase(a: string, b: string) {
    Upper(a) == Upper(b)
  }

  lemma UpperIdempotent(s: string)
    ensures Upper(Upper(s)) == Upper(s)
  {
  }

  /** Two strings that differ only in the case of ASCII letters compare equal, in both directions. */
  lemma EqualsIgnoreCaseIsEquivalence(a: string, b: string, c: string)
    ensures EqualsIgnoreCase(a, a)
    ensures EqualsIgnoreCase(a, b) ==> EqualsIgnoreCase(b, a)
    ensures EqualsIgnoreCase(a, b) && EqualsIgnoreCase(b, c) ==> EqualsIgnoreCase(a, c)
  {
  }

  /** String.IsNullOrEmpty. */
  predicate IsNullOrEmpty(s: Option<string>) {
    s.None? || s.value == []
  }

  /** The characters of Char.IsWhiteSpace below U+0100, which String.Trim removes. */
  const WHITE_SPACE: set<char> := {' ', '\t', '\n', '\U{000B}', '\U{000C}', '\r', '\U{0085}', '\U{00A0}'}

  /** The white space Int32.TryParse skips around a number (NumberStyles.Integer). */
  const NUMBER_WHITE_SPACE: set<char> := {' ', '\t', '\n', '\U{000B}', '\U{000C}', '\r'}

  /** No character of `s` is in `cs`. */
  predicate NoneIn(s: string, cs: set<char>) {
    forall i :: 0 <= i < |s| ==> s[i] !in cs
  }

  /** Drops the leading characters that are in `ws`. */
  function TrimStart(s: string, ws: set<char>): (r: string)
    ensures |r| <= |s|
  {
    if s != [] && s[0] in ws then TrimStart(s[1..], ws) else s
  }

  /** Drops the trailing characters that are in `ws`. */
  function TrimEnd(s: string, ws: set<char>): (r: string)
    ensures |r| <= |s|
  {
    if s != [] && s[|s| - 1] in ws then TrimEnd(s[..|s| - 1], ws) else s
  }

  /** TrimStart keeps a suffix of `s`, removing only characters of `ws`, and up to the first other one. */
  lemma {:induction false} TrimStartIsSuffix(s: string, ws: set<char>)
    ensures var r := TrimStart(s, ws);
      && |r| <= |s| && r == s[|s| - |r|..]
      && (r == [] || r[0] !in ws)
      && (forall i :: 0 <= i < |s| - |r| ==> s[i] in ws)
  {
    if s != [] && s[0] in ws {
      TrimStartIsSuffix(s[1..], ws);
    }
  }

  /** TrimEnd keeps a prefix of `s`, removing only characters of `ws`, and back to the last other one. */
  lemma {:induction false} TrimEndIsPrefix(s: string, ws: set<char>)
    ensures var r := TrimEnd(s, ws);
      && |r| <= |s| && r == s[..|r|]
      && (r == [] || r[|r| - 1] !in ws)
      && (forall i :: |r| <= i < |s| ==> s[i] in ws)
  {
    if s != [] && s[|s| - 1] in ws {
      TrimEndIsPrefix(s[..|s| - 1], ws);
    }
  }

  /** Drops the characters in `ws` from both ends. */
  function TrimWith(s: string, ws: set<char>): string {
    TrimEnd(TrimStart(s, ws), ws)
  }

  /** String.Trim(). */
  function Trim(s: string): string {
    TrimWith(s, WHITE_SPACE)
  }

  /**
   * TrimWith keeps a contiguous middle part of `s`: everything cut off on either side is
   * white space, and what is kept neither starts nor ends with white space.
   */
  lemma TrimWithIsMiddle(s: string, ws: set<char>)
    ensures var i := |s| - |TrimStart(s, ws)|; var r := TrimWith(s, ws);
      && i + |r| <= |s| && r == s[i..i + |r|]
      && (forall k :: 0 <= k < i ==> s[k] in ws)
      && (forall k :: i + |r| <= k < |s| ==> s[k] in ws)
      && (r == [] || (r[0] !in ws && r[|r| - 1] !in ws))
  {
    var t := TrimStart(s, ws);
    var r := TrimEnd(t, ws);
    var i := |s| - |t|;
    TrimStartIsSuffix(s, ws);
    TrimEndIsPrefix(t, ws);
    assert t == s[i..];
    assert r == t[..|r|];
    assert r == s[i..i + |r|];
    forall k | i + |r| <= k < |s| ensures s[k] in ws {
      assert s[k] == t[k - i];
    }
    if r != [] {
      assert r[0] == t[0];
    }
  }

  /** A string that neither starts nor ends with white space is its own trim. */
  lemma TrimWithNoop(s: string, ws: set<char>)
    requires s == [] || (s[0] !in ws && s[|s| - 1] !in ws)
    ensures TrimWith(s, ws) == s
  {
  }

  /** Trimming is idempotent. */
  lemma TrimWithIdempotent(s: string, ws: set<char>)
    ensures TrimWith(TrimWith(s, ws), ws) == TrimWith(s, ws)
  {
    var r := TrimWith(s, ws);
    TrimWithIsMiddle(s, ws);
    TrimWithNoop(r, ws);
  }

  /** Leading white space does not change the trim. */
  lemma TrimWithLeading(c: char, s: string, ws: set<char>)
    requires c in ws
    ensures TrimWith([c] + s, ws) == TrimWith(s, ws)
  {
    assert ([c] + s)[1..] == s;
  }

  /** Trailing white space does not change the trim. */
  lemma TrimWithTrailing(s: string, c: char, ws: set<char>)
    requires c in ws
    ensures TrimWith(s + [c], ws) == TrimWith(s, ws)
  {
    var t := TrimStart(s, ws);
    TrimStartIsSuffix(s, ws);
    if t == [] {
      assert forall i :: 0 <= i < |s| ==> s[i] in ws;
      TrimStartAllWhite(s + [c], ws);
    } else {
      TrimStartAppend(s, [c], ws);
      assert (t + [c])[..|t|] == t;
    }
  }

  /** White space added around a trimmed string is removed again. */
  lemma {:induction false} TrimWithPadded(pre: string, s: string, post: string, ws: set<char>)
    requires forall i :: 0 <= i < |pre| ==> pre[i] in ws
    requires forall i :: 0 <= i < |post| ==> post[i] in ws
    requires s == [] || (s[0] !in ws && s[|s| - 1] !in ws)
    ensures TrimWith(pre + s + post, ws) == s
    decreases |pre| + |post|
  {
    if pre != [] {
      assert pre + s + post == [pre[0]] + (pre[1..] + s + post);
      TrimWithLeading(pre[0], pre[1..] + s + post, ws);
      TrimWithPadded(pre[1..], s, post, ws);
    } else if post != [] {
      var init := post[..|post| - 1];
      assert pre + s + post == (pre + s + init) + [post[|post| - 1]];
      TrimWithTrailing(pre + s + init, post[|post| - 1], ws);
      TrimWithPadded(pre, s, init, ws);
    } else {
      assert pre + s + post == s;
      TrimWithNoop(s, ws);
    }
  }

  lemma {:induction false} TrimStartAllWhite(s: string, ws: set<char>)
    requires forall i :: 0 <= i < |s| ==> s[i] in ws
    ensures TrimStart(s, ws) == []
  {
    if s != [] {
      TrimStartAllWhite(s[1..], ws);
    }
  }

  lemma {:induction false} TrimStartAppend(s: string, u: string, ws: set<char>)
    requires TrimStart(s, ws) != []
    ensures TrimStart(s + u, ws) == TrimStart(s, ws) + u
  {
    if s != [] && s[0] in ws {
      assert (s + u)[1..] == s[1..] + u;
      TrimStartAppend(s[1..], u, ws);
    }
  }

  /** Length of the longest prefix of `s` that holds no separator. */
  function TokenLength(s: string, seps: set<char>): (n: nat)
    ensures n <= |s|
  {
    if s == [] || s[0] in seps then 0 else 1 + TokenLength(s[1..], seps)
  }

  /** The token is free of separators and ends at a separator or at the end of `s`. */
  lemma {:induction false} TokenLengthIsMaximal(s: string, seps: set<char>)
    ensures var n := TokenLength(s, seps);
      && (forall i :: 0 <= i < n ==> s[i] !in seps)
      && (n == |s| || s[n] in seps)
  {
    if s != [] && s[0] !in seps {
      TokenLengthIsMaximal(s[1..], seps);
    }
  }

  /**
   * String.Split(seps, StringSplitOptions.RemoveEmptyEntries): the maximal runs of `s`
   * free of separators, in order; empty runs are dropped.
   */
  function Split(s: string, seps: set<char>): seq<string>
    decreases |s|
  {
    if s == [] then []
    else if s[0] in seps then Split(s[1..], seps)
    else
      var n := TokenLength(s, seps);
      [s[..n]] + Split(s[n..], seps)
  }

  /** No piece of a split is empty, and none holds a separator. */
  lemma {:induction false} SplitPiecesAreTokens(s: string, seps: set<char>)
    ensures forall i :: 0 <= i < |Split(s, seps)| ==> Split(s, seps)[i] != [] && NoneIn(Split(s, seps)[i], seps)
    decreases |s|
  {
    if s == [] {
    } else if s[0] in seps {
      SplitPiecesAreTokens(s[1..], seps);
    } else {
      var n := TokenLength(s, seps);
      TokenLengthIsMaximal(s, seps);
      SplitPiecesAreTokens(s[n..], seps);
      var rest := Split(s[n..], seps);
      assert Split(s, seps) == [s[..n]] + rest;
      forall i | 1 <= i < |Split(s, seps)| ensures Split(s, seps)[i] == rest[i - 1] {
      }
    }
  }

  /** The characters of `s` that are not in `cs`, in order. */
  function Without(s: string, cs: set<char>): string {
    if s == [] then [] else (if s[0] in cs then [] else [s[0]]) + Without(s[1..], cs)
  }

  /** The concatenation of a sequence of strings. */
  function Concat(ss: seq<string>): string {
    if ss == [] then [] else ss[0] + Concat(ss[1..])
  }

  lemma {:induction false} WithoutAppend(a: string, b: string, cs: set<char>)
    ensures Without(a + b, cs) == Without(a, cs) + Without(b, cs)
  {
    if a == [] {
      assert a + b == b;
    } else {
      assert (a + b)[0] == a[0];
      assert (a + b)[1..] == a[1..] + b;
      WithoutAppend(a[1..], b, cs);
    }
  }

  lemma {:induction false} WithoutNoneIn(s: string, cs: set<char>)
    requires NoneIn(s, cs)
    ensures Without(s, cs) == s
  {
    if s != [] {
      WithoutNoneIn(s[1..], cs);
    }
  }

  /** Splitting loses exactly the separators: the pieces put back together are `s` without them. */
  lemma {:induction false} SplitLosesOnlySeparators(s: string, seps: set<char>)
    ensures Concat(Split(s, seps)) == Without(s, seps)
    decreases |s|
  {
    if s == [] {
    } else if s[0] in seps {
      SplitLosesOnlySeparators(s[1..], seps);
    } else {
      var n := TokenLength(s, seps);
      var pieces := Split(s, seps);
      assert pieces == [s[..n]] + Split(s[n..], seps);
      assert pieces[1..] == Split(s[n..], seps);
      SplitLosesOnlySeparators(s[n..], seps);
      assert s == s[..n] + s[n..];
      WithoutAppend(s[..n], s[n..], seps);
      TokenLengthIsMaximal(s, seps);
      WithoutNoneIn(s[..n], seps);
    }
  }

  lemma {:induction false} TokenLengthBeforeSeparator(a: string, c: char, b: string, seps: set<char>)
    requires c in seps
    ensures TokenLength(a + [c] + b, seps) == TokenLength(a, seps)
  {
    if a != [] && a[0] !in seps {
      assert (a + [c] + b)[1..] == a[1..] + [c] + b;
      TokenLengthBeforeSeparator(a[1..], c, b, seps);
    }
  }

  /** A separator cuts the input in two parts that are split independently. */
  lemma {:induction false} SplitAtSeparator(a: string, c: char, b: string, seps: set<char>)
    requires c in seps
    ensures Split(a + [c] + b, seps) == Split(a, seps) + Split(b, seps)
    decreases |a|
  {
    var s := a + [c] + b;
    if a == [] {
      assert s[1..] == b;
    } else if a[0] in seps {
      assert s[1..] == a[1..] + [c] + b;
      SplitAtSeparator(a[1..], c, b, seps);
    } else {
      var n := TokenLength(a, seps);
      TokenLengthBeforeSeparator(a, c, b, seps);
      assert s[..n] == a[..n];
      assert s[n..] == a[n..] + [c] + b;
      SplitAtSeparator(a[n..], c, b, seps);
    }
  }

  /** A non-empty string without separators splits into itself alone. */
  lemma SplitToken(t: string, seps: set<char>)
    requires t != [] && NoneIn(t, seps)
    ensures Split(t, seps) == [t]
  {
    var n := TokenLength(t, seps);
    TokenLengthIsMaximal(t, seps);
    assert n == |t|;
    assert t[..n] == t;
  }

  /** Splitting a string of separators only yields nothing. */
  lemma {:induction false} SplitOnlySeparators(s: string, seps: set<char>)
    requires forall i :: 0 <= i < |s| ==> s[i] in seps
    ensures Split(s, seps) == []
  {
    if s != [] {
      SplitOnlySeparators(s[1..], seps);
    }
  }
}
