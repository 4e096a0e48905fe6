/// The body, URL and mock that the matched rules of `crates/hamsy-core/src/rule.rs`
/// leave, read off the rules themselves: no compiled entry, regex or decoder of the
/// engine appears in what the results are said to be.

module RuleOutcomes {
  import opened Common
  import opened Headers
  import opened Rules
  import opened RuleEngine
  import opened RuleEffects
  import opened RuleMatching

  // ----- Payloads and templates -----

  /// The bytes a payload stands for: the text itself, or what has the text as its
  /// base64 form; nothing if there is no such thing.
  ghost function Payload(text: string, encoding: Encoding): Bytes {
    if encoding.Text? then Utf8.Encode(text)
    else if exists b :: Base64.Encode(b) == text then (var b :| Base64.Encode(b) == text; b)
    else []
  }

  lemma DecodePayloadIs(text: string, encoding: Encoding)
    ensures DecodePayload(text, encoding) == Payload(text, encoding)
  {
    if encoding.Base64Text? {
      if b :| Base64.Encode(b) == text {
        Base64.DecodeIffEncoded(text, b);
        Base64.DecodeIffEncoded(text, Payload(text, encoding));
      } else {
        forall b ensures Base64.Decode(text) != Some(b) {
          Base64.DecodeIffEncoded(text, b);
        }
      }
    }
  }

  /// `$1` to `$9` give way to the group of that number, or to nothing if it took
  /// no part in the match.
  lemma {:induction false} SubstitutesGroup(before: string, digit: char, later: string, groups: seq<Option<string>>)
    requires '$' !in before && '1' <= digit <= '9'
    ensures SubstituteCaptures(before + (['$', digit] + later), Some(groups)) ==
            before + (GroupText(groups, digit as int - '0' as int) + SubstituteCaptures(later, Some(groups)))
  {
    var s := before + (['$', digit] + later);
    var rest := GroupText(groups, digit as int - '0' as int) + SubstituteCaptures(later, Some(groups));
    if before == [] {
      assert s == ['$', digit] + later && s[2..] == later;
    } else {
      assert s[1..] == before[1..] + (['$', digit] + later);
      SubstitutesGroup(before[1..], digit, later, groups);
      assert [before[0]] + (before[1..] + rest) == before + rest;
    }
  }

  function GroupText(groups: seq<Option<string>>, k: nat): string {
    if k < |groups| && groups[k].Some? then groups[k].value else ""
  }

  /// Any other text stays: that before a `$` with no such digit after it, and all of
  /// it without a match.
  lemma {:induction false} KeepsOtherText(before: string, later: string, groups: seq<Option<string>>)
    requires '$' !in before
    ensures SubstituteCaptures(before, Some(groups)) == before && SubstituteCaptures(before, None) == before
    ensures later == "" || !('1' <= later[0] <= '9') ==>
              SubstituteCaptures(before + ("$" + later), Some(groups)) == before + ("$" + SubstituteCaptures(later, Some(groups)))
  {
    var s, rest := before + ("$" + later), "$" + SubstituteCaptures(later, Some(groups));
    if before == [] {
      assert s == "$" + later && s[1..] == later;
    } else {
      assert s[1..] == before[1..] + ("$" + later);
      KeepsOtherText(before[1..], later, groups);
      assert [before[0]] + (before[1..] + rest) == before + rest;
    }
  }

  // ----- What fired -----

  /// A rule that fired, and the URL at which it did.
  datatype Firing = Firing(rule: Rule, url: Url)

  /// An action that ran, and the groups of its rule's URL match.
  datatype Shot = Shot(action: Action, groups: Option<seq<Option<string>>>)

  function GroupsOf(L: Libs, f: Firing): Option<seq<Option<string>>> {
    if f.rule.matcher.urlOp.UrlRegex? then L.regexCaptures(f.rule.matcher.urlValue, L.printUrl(f.url)) else None
  }

  function ShotsOf(actions: seq<Action>, groups: Option<seq<Option<string>>>): seq<Shot> {
    seq(|actions|, i requires 0 <= i < |actions| => Shot(actions[i], groups))
  }

  function Shots(L: Libs, firings: seq<Firing>): seq<Shot> {
    if firings == [] then [] else ShotsOf(firings[0].rule.actions, GroupsOf(L, firings[0])) + Shots(L, firings[1..])
  }

  function Ids(firings: seq<Firing>): seq<string> {
    seq(|firings|, i requires 0 <= i < |firings| => firings[i].rule.id)
  }

  /// The rules that fire in the request phase, in order: those that match what the
  /// ones before them left, up to the first that blocks or mocks.
  function Firings(L: Libs, rules: seq<Compiled>, kind: ResourceType, st: RequestState): seq<Firing>
    decreases |rules|
  {
    if rules == [] then []
    else
      var c := rules[0];
      if !RequestMatches(L, c, st, kind, false) then Firings(L, rules[1..], kind, st)
      else
        var after := RequestRule(L, c, st);
        [Firing(c.0, st.url)] + if after.Stopped() then [] else Firings(L, rules[1..], kind, after)
  }

  // ----- What each action does to the URL, the body and the mock -----

  function ParsedOr(L: Libs, url: Url, text: string): Url {
    var parsed := L.parseUrl(text);
    if parsed.Some? then parsed.value else url
  }

  function Replaced(L: Libs, text: string, find: string, replace: string, regex: bool): string {
    if regex then L.regexReplace(find, text, replace) else L.replaceText(text, find, replace)
  }

  function Rewritten(L: Libs, url: Url, find: string, replace: string, regex: bool): Url {
    var text := Replaced(L, L.printUrl(url), find, replace, regex);
    if text == L.printUrl(url) then url else ParsedOr(L, url, text)
  }

  function UrlAfter(L: Libs): (Url, Shot) -> Url {
    (url: Url, s: Shot) =>
      match s.action
      case Redirect(to) => ParsedOr(L, url, SubstituteCaptures(to, s.groups))
      case RewriteUrl(find, replace, regex) =>
        Rewritten(L, url, find, SubstituteCaptures(replace, s.groups), regex)
      case SetQueryParam(name, value) => L.withQuery(url, OtherPairs(L.queryPairs(url), name) + [(name, value)])
      case RemoveQueryParam(name) =>
        var others := OtherPairs(L.queryPairs(url), name);
        if others == L.queryPairs(url) then url
        else if others == [] then url.(query := None)
        else L.withQuery(url, others)
      case _ => url
  }

  /// A replacement in a body that is there.
  function ReplacedIn(L: Libs, body: Option<Bytes>, find: string, replace: string, regex: bool): Option<Bytes> {
    if body.None? then None
    else
      var text := L.lossyText(body.value);
      var changed := Replaced(L, text, find, replace, regex);
      if changed == text then body else Some(Utf8.Encode(changed))
  }

  /// Edits of a body that is there and is JSON.
  function PatchedIn(L: Libs, body: Option<Bytes>, ops: seq<JsonEdit.JsonOp>): Option<Bytes> {
    if body.None? then None
    else
      var j := L.parseJson(body.value);
      if j.None? then body else Some(L.printJson(JsonEdit.ApplyOps(j.value, ops)))
  }

  ghost function BodyAfter(L: Libs): (Option<Bytes>, Shot) -> Option<Bytes> {
    (body: Option<Bytes>, s: Shot) =>
      match s.action
      case SetRequestBody(text, encoding, _) => Some(Payload(text, encoding))
      case ReplaceInRequestBody(find, replace, regex) => ReplacedIn(L, body, find, replace, regex)
      case JsonPatchRequest(ops) => PatchedIn(L, body, ops)
      case _ => body
  }

  ghost function MockedAfter(): (Option<Mocked>, Shot) -> Option<Mocked> {
    (mock: Option<Mocked>, s: Shot) =>
      match s.action
      case MockResponse(status, headers, body, encoding, delay) => Some(Mocked(status, headers, Payload(body, encoding), delay))
      case _ => mock
  }

  /// Actions that always count as a modification of the request, and those that may.
  predicate Edits(a: Action) {
    a.SetQueryParam? || a.SetRequestHeader? || a.SetRequestBody? || a.MockResponse? || a.SetMethod? || a.Block?
  }

  predicate MayEdit(a: Action) {
    Edits(a) || a.Redirect? || a.RewriteUrl? || a.RemoveQueryParam? || a.RemoveRequestHeader? || a.ReplaceInRequestBody?
    || a.JsonPatchRequest?
  }

  ghost predicate Results(L: Libs, before: RequestState, shots: seq<Shot>, after: RequestState) {
    && after.url == Folded(UrlAfter(L), before.url, shots)
    && after.body == Folded(BodyAfter(L), before.body, shots)
    && after.mocked == Folded(MockedAfter(), before.mocked, shots)
    && (before.modified || (exists s | s in shots :: Edits(s.action)) ==> after.modified)
    && (after.modified ==> before.modified || exists s | s in shots :: MayEdit(s.action))
  }

  lemma ResultsJoin(L: Libs, before: RequestState, a: seq<Shot>, mid: RequestState, b: seq<Shot>, after: RequestState)
    requires Results(L, before, a, mid) && Results(L, mid, b, after)
    ensures Results(L, before, a + b, after)
  {
    FoldedConcat(UrlAfter(L), before.url, a, b);
    FoldedConcat(BodyAfter(L), before.body, a, b);
    FoldedConcat(MockedAfter(), before.mocked, a, b);
    assert forall s :: s in a + b <==> s in a || s in b;
  }

  lemma OthersIfAsMany(pairs: seq<(string, string)>, name: string)
    ensures |OtherPairs(pairs, name)| == |pairs| <==> OtherPairs(pairs, name) == pairs
  {
    FilterShortens((p: (string, string)) => p.0 != name, pairs);
  }

  lemma ReplacedIs(L: Libs, text: string, find: string, replace: string, regex: bool)
    ensures FindReplace(L, text, find, replace, regex, if regex then Some(find) else None) == Replaced(L, text, find, replace, regex)
  {
  }

  lemma RewriteResults(L: Libs, find: string, replace: string, regex: bool, groups: Option<seq<Option<string>>>, st: RequestState)
    ensures var a := RewriteUrl(find, replace, regex);
            RequestAction(L, a, ActionRegexOf(a), groups, st).url == Rewritten(L, st.url, find, SubstituteCaptures(replace, groups), regex)
  {
    ReplacedIs(L, L.printUrl(st.url), find, SubstituteCaptures(replace, groups), regex);
  }

  lemma UrlResults(L: Libs, a: Action, groups: Option<seq<Option<string>>>, st: RequestState)
    ensures RequestAction(L, a, ActionRegexOf(a), groups, st).url == UrlAfter(L)(st.url, Shot(a, groups))
  {
    match a {
      case Redirect(to) =>
        assert UrlAfter(L)(st.url, Shot(a, groups)) == ParsedOr(L, st.url, SubstituteCaptures(to, groups));
      case RewriteUrl(find, replace, regex) =>
        RewriteResults(L, find, replace, regex, groups, st);
      case RemoveQueryParam(name) => OthersIfAsMany(L.queryPairs(st.url), name);
      case SetQueryParam(_, _) =>
      case _ => assert UrlAfter(L)(st.url, Shot(a, groups)) == st.url;
    }
  }

  lemma ReplacedBodyIs(L: Libs, body: Option<Bytes>, find: string, replace: string, regex: bool)
    ensures var r := ReplacedBody(L, body, find, replace, regex, if regex then Some(find) else None);
            ReplacedIn(L, body, find, replace, regex) == if r.Some? then r else body
  {
    if body.Some? {
      ReplacedIs(L, L.lossyText(body.value), find, replace, regex);
    }
  }

  lemma BodyResults(L: Libs, a: Action, groups: Option<seq<Option<string>>>, st: RequestState)
    ensures RequestAction(L, a, ActionRegexOf(a), groups, st).body == BodyAfter(L)(st.body, Shot(a, groups))
  {
    match a {
      case SetRequestBody(text, encoding, _) => DecodePayloadIs(text, encoding);
      case ReplaceInRequestBody(find, replace, regex) => ReplacedBodyIs(L, st.body, find, replace, regex);
      case _ =>
    }
  }

  lemma MockResults(L: Libs, a: Action, groups: Option<seq<Option<string>>>, st: RequestState)
    ensures RequestAction(L, a, ActionRegexOf(a), groups, st).mocked == MockedAfter()(st.mocked, Shot(a, groups))
  {
    match a {
      case MockResponse(_, _, text, encoding, _) => DecodePayloadIs(text, encoding);
      case _ =>
    }
  }

  lemma FlagResults(L: Libs, a: Action, groups: Option<seq<Option<string>>>, st: RequestState)
    ensures var after := RequestAction(L, a, ActionRegexOf(a), groups, st);
            && (st.modified || Edits(a) ==> after.modified) && (after.modified ==> st.modified || MayEdit(a))
  {
  }

  lemma ActionResults(L: Libs, a: Action, groups: Option<seq<Option<string>>>, st: RequestState)
    ensures Results(L, st, [Shot(a, groups)], RequestAction(L, a, ActionRegexOf(a), groups, st))
  {
    var s := Shot(a, groups);
    UrlResults(L, a, groups, st);
    BodyResults(L, a, groups, st);
    MockResults(L, a, groups, st);
    FlagResults(L, a, groups, st);
    FoldedOne(UrlAfter(L), st.url, s);
    FoldedOne(BodyAfter(L), st.body, s);
    FoldedOne(MockedAfter(), st.mocked, s);
    assert s in [s];
  }

  lemma OwnActs(actions: seq<Action>)
    requires actions != []
    ensures Zip(actions, ActionRegexes(actions)) ==
            [(actions[0], ActionRegexOf(actions[0]))] + Zip(actions[1..], ActionRegexes(actions[1..]))
  {
    RegexesAlign(actions);
    RegexesAlign(actions[1..]);
  }

  lemma {:induction false} RegexesAlign(actions: seq<Action>)
    ensures |ActionRegexes(actions)| == |actions|
  {
    if actions != [] {
      RegexesAlign(actions[1..]);
    }
  }

  lemma {:induction false} ActionsResults(L: Libs, actions: seq<Action>, groups: Option<seq<Option<string>>>, st: RequestState)
    ensures Results(L, st, ShotsOf(actions, groups), RequestActions(L, Zip(actions, ActionRegexes(actions)), groups, st))
    decreases |actions|
  {
    if actions != [] {
      OwnActs(actions);
      var next := RequestAction(L, actions[0], ActionRegexOf(actions[0]), groups, st);
      var acts := Zip(actions, ActionRegexes(actions));
      assert acts[1..] == Zip(actions[1..], ActionRegexes(actions[1..]));
      ActionResults(L, actions[0], groups, st);
      ActionsResults(L, actions[1..], groups, next);
      ResultsJoin(L, st, [Shot(actions[0], groups)], next, ShotsOf(actions[1..], groups), RequestActions(L, acts, groups, st));
      assert ShotsOf(actions, groups) == [Shot(actions[0], groups)] + ShotsOf(actions[1..], groups);
    }
  }

  lemma {:induction false} ActionsKeepRecord(L: Libs, acts: seq<(Action, Option<string>)>, groups: Option<seq<Option<string>>>, st: RequestState)
    ensures RequestActions(L, acts, groups, st).matched == st.matched
    decreases |acts|
  {
    if acts != [] {
      ActionsKeepRecord(L, acts[1..], groups, RequestAction(L, acts[0].0, acts[0].1, groups, st));
    }
  }

  lemma RuleResults(L: Libs, c: Compiled, st: RequestState)
    requires Own(L, c)
    ensures Results(L, st, ShotsOf(c.0.actions, GroupsOf(L, Firing(c.0, st.url))), RequestRule(L, c, st))
  {
    var groups, start := GroupsOf(L, Firing(c.0, st.url)), st.(matched := st.matched + [c.0.id]);
    assert CapturesOf(L, c, st.url) == groups;
    ActionsResults(L, c.0.actions, groups, start);
  }

  lemma ShotsOfOne(L: Libs, f: Firing)
    ensures Shots(L, [f]) == ShotsOf(f.rule.actions, GroupsOf(L, f))
  {
    assert [f][1..] == [];
  }

  lemma ShotsCons(L: Libs, f: Firing, later: seq<Firing>)
    ensures Shots(L, [f] + later) == ShotsOf(f.rule.actions, GroupsOf(L, f)) + Shots(L, later)
    ensures Ids([f] + later) == [f.rule.id] + Ids(later)
  {
    assert ([f] + later)[1..] == later;
  }

  lemma {:induction false} RulesResults(L: Libs, rules: seq<Compiled>, kind: ResourceType, st: RequestState)
    requires AllOwn(L, rules)
    ensures Results(L, st, Shots(L, Firings(L, rules, kind, st)), RequestRules(L, rules, kind, st, false).0)
    decreases |rules|
  {
    if rules != [] {
      var c, later := rules[0], rules[1..];
      assert c in rules && forall d | d in later :: d in rules;
      if !RequestMatches(L, c, st, kind, false) {
        RulesResults(L, later, kind, st);
      } else {
        FirstResults(L, c, st);
        var f, after := Firing(c.0, st.url), RequestRule(L, c, st);
        if after.Stopped() {
          assert Firings(L, rules, kind, st) == [f];
        } else {
          var rest := Firings(L, later, kind, after);
          RulesResults(L, later, kind, after);
          assert Firings(L, rules, kind, st) == [f] + rest;
          FirstJoins(L, f, st, after, rest, RequestRules(L, later, kind, after, false).0);
        }
      }
    }
  }

  lemma FirstResults(L: Libs, c: Compiled, st: RequestState)
    requires Own(L, c)
    ensures Results(L, st, Shots(L, [Firing(c.0, st.url)]), RequestRule(L, c, st))
  {
    RuleResults(L, c, st);
    ShotsOfOne(L, Firing(c.0, st.url));
  }

  lemma FirstJoins(L: Libs, f: Firing, st: RequestState, mid: RequestState, rest: seq<Firing>, after: RequestState)
    requires Results(L, st, Shots(L, [f]), mid) && Results(L, mid, Shots(L, rest), after)
    ensures Results(L, st, Shots(L, [f] + rest), after)
  {
    ShotsOfOne(L, f);
    ShotsCons(L, f, rest);
    ResultsJoin(L, st, Shots(L, [f]), mid, Shots(L, rest), after);
  }

  lemma {:induction false} RulesRecord(L: Libs, rules: seq<Compiled>, kind: ResourceType, st: RequestState)
    ensures RequestRules(L, rules, kind, st, false).0.matched == st.matched + Ids(Firings(L, rules, kind, st))
    decreases |rules|
  {
    if rules != [] {
      var c, later := rules[0], rules[1..];
      if !RequestMatches(L, c, st, kind, false) {
        RulesRecord(L, later, kind, st);
      } else {
        var after := RequestRule(L, c, st);
        ActionsKeepRecord(L, Zip(c.0.actions, c.1.actionRegex), CapturesOf(L, c, st.url), st.(matched := st.matched + [c.0.id]));
        if !after.Stopped() {
          RulesRecord(L, later, kind, after);
          ShotsCons(L, Firing(c.0, st.url), Firings(L, later, kind, after));
        }
      }
    }
  }

  /// The outcome's URL and body are what the edits of the rules that fired make of
  /// the client's, one after the other; its mock is the last one given, whole; the
  /// recorded ids are those of the rules that fired; and it is flagged if one of
  /// them edits for sure, and only if one may have.
  lemma OutcomeIsFolded(L: Libs, rules: seq<Compiled>, ctx: RequestCtx)
    requires AllOwn(L, rules)
    ensures var o, firings := ApplyRequest(L, rules, ctx), Firings(L, rules, ctx.kind, StartRequest(ctx));
            var shots := Shots(L, firings);
            && o.url == Folded(UrlAfter(L), ctx.url, shots)
            && o.body == Folded(BodyAfter(L), ctx.body, shots)
            && o.mocked == Folded(MockedAfter(), None, shots)
            && o.matched == Ids(firings)
            && ((exists s | s in shots :: Edits(s.action)) ==> o.modified)
            && (o.modified ==> exists s | s in shots :: MayEdit(s.action))
  {
    RulesResults(L, rules, ctx.kind, StartRequest(ctx));
    RulesRecord(L, rules, ctx.kind, StartRequest(ctx));
  }

  predicate EditsBody(a: Action) {
    a.SetRequestBody? || a.ReplaceInRequestBody? || a.JsonPatchRequest?
  }

  lemma {:induction false} BodyStays(L: Libs, body: Option<Bytes>, shots: seq<Shot>)
    requires forall s | s in shots :: !EditsBody(s.action)
    ensures Folded(BodyAfter(L), body, shots) == body
    decreases |shots|
  {
    if shots != [] {
      assert shots[0] in shots && forall s | s in shots[1..] :: s in shots;
      BodyStays(L, body, shots[1..]);
    }
  }

  lemma {:induction false} MockStays(mock: Option<Mocked>, shots: seq<Shot>)
    requires forall s | s in shots :: !s.action.MockResponse?
    ensures Folded(MockedAfter(), mock, shots) == mock
    decreases |shots|
  {
    if shots != [] {
      assert shots[0] in shots && forall s | s in shots[1..] :: s in shots;
      MockStays(mock, shots[1..]);
    }
  }

  /// So the last body set, with no edit of it afterwards, is the body sent, and
  /// the last mock given is the answer.
  lemma LastSetIsSent(L: Libs, rules: seq<Compiled>, ctx: RequestCtx, before: seq<Shot>, s: Shot, after: seq<Shot>)
    requires AllOwn(L, rules)
    requires Shots(L, Firings(L, rules, ctx.kind, StartRequest(ctx))) == before + [s] + after
    ensures var o := ApplyRequest(L, rules, ctx);
            && (s.action.SetRequestBody? && (forall t | t in after :: !EditsBody(t.action)) ==>
                  o.body == Some(Payload(s.action.body, s.action.encoding)))
            && (s.action.MockResponse? && (forall t | t in after :: !t.action.MockResponse?) ==>
                  o.mocked == Some(Mocked(s.action.status, s.action.headers, Payload(s.action.body, s.action.encoding), s.action.delayMs)))
  {
    OutcomeIsFolded(L, rules, ctx);
    FoldedConcat(BodyAfter(L), ctx.body, before + [s], after);
    FoldedConcat(BodyAfter(L), ctx.body, before, [s]);
    FoldedOne(BodyAfter(L), Folded(BodyAfter(L), ctx.body, before), s);
    FoldedConcat(MockedAfter(), None, before + [s], after);
    FoldedConcat(MockedAfter(), None, before, [s]);
    FoldedOne(MockedAfter(), Folded(MockedAfter(), None, before), s);
    if forall t | t in after :: !EditsBody(t.action) {
      BodyStays(L, Folded(BodyAfter(L), ctx.body, before + [s]), after);
    }
    if forall t | t in after :: !t.action.MockResponse? {
      MockStays(Folded(MockedAfter(), None, before + [s]), after);
    }
  }

  // ----- Query parameters -----

  /// Reading a query that was just written gives its pairs back, and none from a
  /// URL without a query.
  ghost predicate QueryLaws(L: Libs) {
    && (forall u, ps {:trigger L.withQuery(u, ps)} :: L.queryPairs(L.withQuery(u, ps)) == ps)
    && (forall u: Url {:trigger L.queryPairs(u)} :: u.query.None? ==> L.queryPairs(u) == [])
  }

  function Values(pairs: seq<(string, string)>, name: string): seq<string> {
    if pairs == [] then [] else (if pairs[0].0 == name then [pairs[0].1] else []) + Values(pairs[1..], name)
  }

  lemma {:induction false} ValuesConcat(a: seq<(string, string)>, b: seq<(string, string)>, name: string)
    ensures Values(a + b, name) == Values(a, name) + Values(b, name)
  {
    if a == [] {
      assert a + b == b;
    } else {
      assert (a + b)[1..] == a[1..] + b;
      ValuesConcat(a[1..], b, name);
      Regroup(if a[0].0 == name then [a[0].1] else [], Values(a[1..], name), Values(b, name));
    }
  }

  lemma {:induction false} ValuesOfOthers(pairs: seq<(string, string)>, name: string, other: string)
    ensures Values(OtherPairs(pairs, name), other) == if other == name then [] else Values(pairs, other)
  {
    if pairs != [] {
      var p, later := pairs[0], pairs[1..];
      ValuesOfOthers(later, name, other);
      ValuesConcat(if p.0 != name then [p] else [], OtherPairs(later, name), other);
      assert Values([p], other) == (if p.0 == other then [p.1] else []) + Values([], other);
    }
  }

  /// After a query parameter is set it has exactly the new value, after it is
  /// removed it has none, and every other parameter keeps its values.
  lemma QueryFollows(L: Libs, url: Url, a: Action, groups: Option<seq<Option<string>>>, other: string)
    requires QueryLaws(L) && (a.SetQueryParam? || a.RemoveQueryParam?)
    ensures Values(L.queryPairs(UrlAfter(L)(url, Shot(a, groups))), other) ==
            if other != a.name then Values(L.queryPairs(url), other)
            else if a.SetQueryParam? then [a.value] else []
  {
    var pairs := L.queryPairs(url);
    var others := OtherPairs(pairs, a.name);
    ValuesOfOthers(pairs, a.name, other);
    if a.SetQueryParam? {
      ValuesConcat(others, [(a.name, a.value)], other);
      assert Values([(a.name, a.value)], other) == (if a.name == other then [a.value] else []) + Values([], other);
    }
  }

  // ----- The response phase -----

  /// The rules that fire in the response phase.
  function ResponseFirings(L: Libs, rules: seq<Compiled>, req: RequestCtx, st: ResponseState): seq<Rule>
    decreases |rules|
  {
    if rules == [] then []
    else
      var c := rules[0];
      if !MatchesResponse(L, c, req, st, false) then ResponseFirings(L, rules[1..], req, st)
      else
        var after := ResponseRule(L, c, st);
        [c.0] + if after.shortCircuit then [] else ResponseFirings(L, rules[1..], req, after)
  }

  function ActionsOf(rules: seq<Rule>): seq<Action> {
    if rules == [] then [] else rules[0].actions + ActionsOf(rules[1..])
  }

  function RuleIds(rules: seq<Rule>): seq<string> {
    seq(|rules|, i requires 0 <= i < |rules| => rules[i].id)
  }

  ghost function ResponseBodyAfter(L: Libs): (Option<Bytes>, Action) -> Option<Bytes> {
    (body: Option<Bytes>, a: Action) =>
      match a
      case SetResponseBody(text, encoding, _) => Some(Payload(text, encoding))
      case ReplaceInResponseBody(find, replace, regex) => ReplacedIn(L, body, find, replace, regex)
      case JsonPatchResponse(ops) => PatchedIn(L, body, ops)
      case _ => body
  }

  predicate EditsResponse(a: Action) {
    a.SetResponseHeader? || a.SetResponseBody? || a.SetStatus?
  }

  predicate MayEditResponse(a: Action) {
    EditsResponse(a) || a.RemoveResponseHeader? || a.ReplaceInResponseBody? || a.JsonPatchResponse?
  }

  ghost predicate ResponseResults(L: Libs, before: ResponseState, fired: seq<Action>, after: ResponseState) {
    && after.body == Folded(ResponseBodyAfter(L), before.body, fired)
    && (before.delay <= U64_MAX ==> after.delay == Min(before.delay + Sum(Delays(fired)), U64_MAX))
    && after.throttle == LeastThrottle(fired, before.throttle)
    && (before.modified || (exists a | a in fired :: EditsResponse(a)) ==> after.modified)
    && (after.modified ==> before.modified || exists a | a in fired :: MayEditResponse(a))
    && (after.shortCircuit <==> before.shortCircuit || exists a | a in fired :: a.Block?)
  }

  lemma ResponseResultsJoin(L: Libs, before: ResponseState, a: seq<Action>, mid: ResponseState, b: seq<Action>, after: ResponseState)
    requires ResponseResults(L, before, a, mid) && ResponseResults(L, mid, b, after)
    ensures ResponseResults(L, before, a + b, after)
  {
    FoldedConcat(ResponseBodyAfter(L), before.body, a, b);
    DelaysConcat(a, b);
    SumConcat(Delays(a), Delays(b));
    ThrottleConcat(a, b, before.throttle);
    assert forall x :: x in a + b <==> x in a || x in b;
  }

  lemma ResponseBodyResults(L: Libs, a: Action, st: ResponseState)
    ensures ResponseAction(L, a, ActionRegexOf(a), st).body == ResponseBodyAfter(L)(st.body, a)
  {
    match a {
      case SetResponseBody(text, encoding, _) => DecodePayloadIs(text, encoding);
      case ReplaceInResponseBody(find, replace, regex) => ReplacedBodyIs(L, st.body, find, replace, regex);
      case _ =>
    }
  }

  lemma ResponseFlagResults(L: Libs, a: Action, st: ResponseState)
    ensures var after := ResponseAction(L, a, ActionRegexOf(a), st);
            && (st.modified || EditsResponse(a) ==> after.modified) && (after.modified ==> st.modified || MayEditResponse(a))
            && (after.shortCircuit <==> st.shortCircuit || a.Block?)
  {
  }

  lemma ResponseTimeResults(L: Libs, a: Action, st: ResponseState)
    ensures var after := ResponseAction(L, a, ActionRegexOf(a), st);
            && (st.delay <= U64_MAX ==> after.delay == Min(st.delay + Sum(Delays([a])), U64_MAX))
            && after.throttle == LeastThrottle([a], st.throttle)
  {
    OneAddsUp(a, st.throttle);
  }

  lemma ResponseActionResults(L: Libs, a: Action, st: ResponseState)
    ensures ResponseResults(L, st, [a], ResponseAction(L, a, ActionRegexOf(a), st))
  {
    ResponseBodyResults(L, a, st);
    ResponseFlagResults(L, a, st);
    ResponseTimeResults(L, a, st);
    FoldedOne(ResponseBodyAfter(L), st.body, a);
    assert a in [a] && forall x | x in [a] :: x == a;
  }

  lemma {:induction false} ResponseActionsResults(L: Libs, actions: seq<Action>, st: ResponseState)
    ensures ResponseResults(L, st, actions, ResponseActions(L, Zip(actions, ActionRegexes(actions)), st))
    decreases |actions|
  {
    if actions != [] {
      OwnActs(actions);
      var next := ResponseAction(L, actions[0], ActionRegexOf(actions[0]), st);
      var acts := Zip(actions, ActionRegexes(actions));
      assert acts[1..] == Zip(actions[1..], ActionRegexes(actions[1..]));
      ResponseActionResults(L, actions[0], st);
      ResponseActionsResults(L, actions[1..], next);
      ResponseResultsJoin(L, st, [actions[0]], next, actions[1..], ResponseActions(L, acts, st));
      assert actions == [actions[0]] + actions[1..];
    }
  }

  lemma {:induction false} ResponseKeepsRecord(L: Libs, acts: seq<(Action, Option<string>)>, st: ResponseState)
    ensures ResponseActions(L, acts, st).matched == st.matched
    decreases |acts|
  {
    if acts != [] {
      ResponseKeepsRecord(L, acts[1..], ResponseAction(L, acts[0].0, acts[0].1, st));
    }
  }

  lemma ActionsOfCons(rule: Rule, later: seq<Rule>)
    ensures ActionsOf([rule] + later) == rule.actions + ActionsOf(later)
    ensures RuleIds([rule] + later) == [rule.id] + RuleIds(later)
    ensures ActionsOf([rule]) == rule.actions
  {
    assert ([rule] + later)[1..] == later && [rule][1..] == [];
  }

  lemma {:induction false} ResponseRulesResults(L: Libs, rules: seq<Compiled>, req: RequestCtx, st: ResponseState)
    requires AllOwn(L, rules)
    ensures var firings, after := ResponseFirings(L, rules, req, st), ResponseRules(L, rules, req, st, false).0;
            ResponseResults(L, st, ActionsOf(firings), after)
    decreases |rules|
  {
    if rules != [] {
      var c, later := rules[0], rules[1..];
      assert c in rules && forall d | d in later :: d in rules;
      if !MatchesResponse(L, c, req, st, false) {
        ResponseRulesResults(L, later, req, st);
      } else {
        var start, after := st.(matched := st.matched + [c.0.id]), ResponseRule(L, c, st);
        ResponseActionsResults(L, c.0.actions, start);
        assert ResponseResults(L, st, c.0.actions, after);
        if after.shortCircuit {
          ActionsOfCons(c.0, []);
        } else {
          ResponseRulesResults(L, later, req, after);
          var rest := ResponseFirings(L, later, req, after);
          ActionsOfCons(c.0, rest);
          ResponseResultsJoin(L, st, c.0.actions, after, ActionsOf(rest), ResponseRules(L, later, req, after, false).0);
        }
      }
    }
  }

  lemma {:induction false} ResponseRecord(L: Libs, rules: seq<Compiled>, req: RequestCtx, st: ResponseState)
    ensures ResponseRules(L, rules, req, st, false).0.matched == st.matched + RuleIds(ResponseFirings(L, rules, req, st))
    decreases |rules|
  {
    if rules != [] {
      var c, later := rules[0], rules[1..];
      if !MatchesResponse(L, c, req, st, false) {
        ResponseRecord(L, later, req, st);
      } else {
        var after := ResponseRule(L, c, st);
        ResponseKeepsRecord(L, Zip(c.0.actions, c.1.actionRegex), st.(matched := st.matched + [c.0.id]));
        if !after.shortCircuit {
          ResponseRecord(L, later, req, after);
          ActionsOfCons(c.0, ResponseFirings(L, later, req, after));
        }
      }
    }
  }

  /// The response's body is what the edits of the rules that fired make of the
  /// server's, one after the other; delays add up and the least throttle holds, as
  /// in the request phase; the phase is cut short exactly by a block.
  lemma ResponseIsFolded(L: Libs, rules: seq<Compiled>, req: RequestCtx, status: nat, headers: HeaderList, body: Option<Bytes>)
    requires AllOwn(L, rules)
    ensures var start := StartResponse(status, headers, body);
            var o, firings := ApplyResponse(L, rules, req, status, headers, body), ResponseFirings(L, rules, req, start);
            var fired := ActionsOf(firings);
            && o.body == Folded(ResponseBodyAfter(L), body, fired)
            && o.delay == Min(Sum(Delays(fired)), U64_MAX) && o.throttle == LeastThrottle(fired, None)
            && o.matched == RuleIds(firings)
            && ((exists a | a in fired :: EditsResponse(a)) ==> o.modified)
            && (o.modified ==> exists a | a in fired :: MayEditResponse(a))
            && (o.shortCircuit <==> exists a | a in fired :: a.Block?)
  {
    ResponseRulesResults(L, rules, req, StartResponse(status, headers, body));
    ResponseRecord(L, rules, req, StartResponse(status, headers, body));
  }
}
