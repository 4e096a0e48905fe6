/// The string handling that a `Content-Encoding` value goes through in
/// `crates/hamsy-core/src/body.rs`.

module Tokens {
  import opened Common

  /// `char::is_whitespace`.
  predicate IsSpace(c: char) {
    var n := c as int;
    9 <= n <= 13 || n == 32 || n == 0x85 || n == 0xA0 || n == 0x1680 || 0x2000 <= n <= 0x200A ||
    n == 0x2028 || n == 0x2029 || n == 0x202F || n == 0x205F || n == 0x3000
  }

  function TrimStart(s: string): (r: string)
    ensures |r| <= |s|
  {
    if s != [] && IsSpace(s[0]) then TrimStart(s[1..]) else s
  }

  function TrimEnd(s: string): (r: string)
    ensures |r| <= |s|
  {
    if s != [] && IsSpace(s[|s| - 1]) then TrimEnd(s[..|s| - 1]) else s
  }

  /// `str::trim`.
  function Trim(s: string): string {
    TrimEnd(TrimStart(s))
  }

  predicate AllSpace(s: string) {
    forall c | c in s :: IsSpace(c)
  }

  lemma {:induction false} TrimStartIs(s: string) returns (before: string)
    ensures s == before + TrimStart(s) && AllSpace(before)
    ensures TrimStart(s) != "" ==> !IsSpace(TrimStart(s)[0])
  {
    if s != [] && IsSpace(s[0]) {
      var inner := TrimStartIs(s[1..]);
      before := [s[0]] + inner;
      assert s == [s[0]] + s[1..];
    } else {
      before := "";
    }
  }

  lemma {:induction false} TrimEndIs(s: string) returns (after: string)
    ensures s == TrimEnd(s) + after && AllSpace(after) && TrimEnd(s) <= s
    ensures TrimEnd(s) != "" ==> !IsSpace(TrimEnd(s)[|TrimEnd(s)| - 1])
  {
    if s != [] && IsSpace(s[|s| - 1]) {
      var inner := TrimEndIs(s[..|s| - 1]);
      after := inner + [s[|s| - 1]];
      assert s == s[..|s| - 1] + [s[|s| - 1]];
    } else {
      after := "";
    }
  }

  /// Trimming takes white space off both ends and stops at the first other character.
  lemma TrimIs(s: string) returns (before: string, after: string)
    ensures s == before + Trim(s) + after && AllSpace(before) && AllSpace(after)
    ensures Trim(s) != "" ==> !IsSpace(Trim(s)[0]) && !IsSpace(Trim(s)[|Trim(s)| - 1])
  {
    before := TrimStartIs(s);
    after := TrimEndIs(TrimStart(s));
    Regroup(before, Trim(s), after);
  }

  /// What comes before the first `c`.
  function Before(s: string, c: char): (r: string)
    ensures |r| <= |s|
  {
    if s == [] || s[0] == c then [] else [s[0]] + Before(s[1..], c)
  }

  /// `str::split`.
  function Split(s: string, c: char): seq<string>
    decreases |s|
  {
    var first := Before(s, c);
    if |first| == |s| then [first] else [first] + Split(s[|first| + 1..], c)
  }

  function Normal(token: string): string {
    Lower(Trim(token))
  }

  /// The non-empty items of a comma-separated list, trimmed and lower-cased.
  function NormalItems(items: seq<string>): seq<string> {
    if items == [] then []
    else (if Trim(items[0]) == "" then [] else [Normal(items[0])]) + NormalItems(items[1..])
  }

  function ListTokens(header: string): seq<string> {
    NormalItems(Split(header, ','))
  }

  /// A header value that lists the tokens.
  function JoinTokens(tokens: seq<string>): string {
    if tokens == [] then ""
    else if |tokens| == 1 then tokens[0]
    else tokens[0] + ", " + JoinTokens(tokens[1..])
  }

  /// A token as a header may carry it.
  predicate IsToken(t: string) {
    t != "" && ',' !in t && !IsSpace(t[0]) && !IsSpace(t[|t| - 1])
  }

  lemma {:induction false} BeforeComma(t: string, rest: string)
    requires ',' !in t
    ensures Before(t + "," + rest, ',') == t && Before(t, ',') == t
  {
    if t != "" {
      assert (t + "," + rest)[1..] == t[1..] + "," + rest;
      BeforeComma(t[1..], rest);
    }
  }

  /// A leading blank changes nothing about the first item.
  lemma TokensAfterBlank(s: string)
    ensures ListTokens(" " + s) == ListTokens(s)
  {
    var b := " " + s;
    assert b[1..] == s;
    var first := Before(s, ',');
    assert Before(b, ',') == " " + first;
    assert (" " + first)[1..] == first;
    assert Trim(" " + first) == Trim(first);
    if |first| < |s| {
      assert b[|first| + 2..] == s[|first| + 1..];
      assert Split(b, ',') == [" " + first] + Split(s[|first| + 1..], ',');
      assert Split(b, ',')[1..] == Split(s, ',')[1..];
    } else {
      assert Split(b, ',') == [" " + first] && Split(s, ',') == [first];
      assert [" " + first][1..] == [] == [first][1..];
    }
  }

  function Lowers(tokens: seq<string>): seq<string> {
    if tokens == [] then [] else [Lower(tokens[0])] + Lowers(tokens[1..])
  }

  lemma TokenIsNormal(t: string)
    requires IsToken(t)
    ensures Trim(t) == t && Normal(t) == Lower(t)
  {
  }

  lemma TokensOfOne(t: string)
    requires IsToken(t)
    ensures ListTokens(t) == [Lower(t)]
  {
    TokenIsNormal(t);
    BeforeComma(t, "");
    assert Split(t, ',') == [t] && [t][1..] == [];
    assert NormalItems([t]) == [Normal(t)] + NormalItems([]);
  }

  lemma TokensOfMore(t: string, rest: string)
    requires IsToken(t)
    ensures ListTokens(t + "," + rest) == [Lower(t)] + ListTokens(rest)
  {
    TokenIsNormal(t);
    BeforeComma(t, rest);
    var s := t + "," + rest;
    assert s[|t| + 1..] == rest;
    var items := Split(s, ',');
    assert items == [t] + Split(rest, ',');
    assert items[0] == t && items[1..] == Split(rest, ',');
  }

  /// Listing tokens in a header and reading the list back only lower-cases them.
  lemma {:induction false} ListRoundTrip(tokens: seq<string>)
    requires forall t | t in tokens :: IsToken(t)
    ensures ListTokens(JoinTokens(tokens)) == Lowers(tokens)
  {
    if tokens == [] {
      assert Split("", ',') == [""];
      assert [""][1..] == [];
    } else if |tokens| == 1 {
      TokensOfOne(tokens[0]);
    } else {
      var rest := JoinTokens(tokens[1..]);
      assert JoinTokens(tokens) == tokens[0] + "," + (" " + rest);
      TokensOfMore(tokens[0], " " + rest);
      TokensAfterBlank(rest);
      ListRoundTrip(tokens[1..]);
    }
  }
}
