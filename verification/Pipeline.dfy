/// How `handle_captured_request` in `crates/hamsy-proxy/src/http.rs` strings the
/// two rule phases together around a request body that it chose not to buffer.

module Pipeline {
  import opened Common
  import opened Headers
  import opened Rules
  import opened RuleEngine
  import Authority
  import RulesStore

  /// Parsing the text of the URL gives it back.
  predicate Reparses(L: Libs, u: Url) {
    L.parseUrl(L.printUrl(u)) == Some(u)
  }

  /// The request that the response phase matches against: the client's own
  /// method, and the URL and headers adopted from the outcome.
  function ResponseRequest(L: Libs, ctx: RequestCtx, port: nat, o: RequestState, body: Option<Bytes>): RequestCtx {
    var host := Authority.OrElse(ctx.url.host, "");
    var now := Authority.Adopt(L, Authority.Inflight(ctx.url, host, port, ctx.headers), L.printUrl(o.url), o.headers);
    RequestCtx(ctx.verb, now.url, now.headers, body, ctx.kind)
  }

  /// The rules left the method alone (up to case), and adopting the headers
  /// neither dropped a per-hop field nor added a Host.
  predicate Undisturbed(L: Libs, ctx: RequestCtx, port: nat, o: RequestState) {
    SameName(o.verb, ctx.verb) && ResponseRequest(L, ctx, port, o, None).headers == o.headers
  }

  lemma AdoptedUrl(L: Libs, ctx: RequestCtx, port: nat, o: RequestState, body: Option<Bytes>)
    requires Reparses(L, ctx.url) && Reparses(L, o.url)
    ensures ResponseRequest(L, ctx, port, o, body).url == o.url
  {
  }

  lemma HeadIgnoresCase(L: Libs, rules: seq<Compiled>, a: string, b: string, url: Url, headers: HeaderList, kind: ResourceType)
    requires SameName(a, b)
    ensures BodyConditionReachable(L, rules, a, url, headers, kind) <==> BodyConditionReachable(L, rules, b, url, headers, kind)
  {
    forall c | c in rules
      ensures MatchesRequestHead(L, c, a, url, headers, kind) <==> MatchesRequestHead(L, c, b, url, headers, kind)
    {
      assert forall x | x in c.0.matcher.methods :: SameName(x, a) <==> SameName(x, b);
    }
  }

  /// A body the probe did not ask for, in a request that was neither blocked nor
  /// mocked, is not missed by the response phase of an undisturbed request:
  /// whatever the response, in probe mode or not, the phase is as with the body.
  lemma WithheldBodyIsNotMissed(L: Libs, rules: seq<Compiled>, ctx: RequestCtx, port: nat, body: Option<Bytes>,
                                st: ResponseState, probe: bool)
    requires ctx.body.None? && !NeedsRequestBody(L, rules, ctx)
    requires var o := ApplyRequest(L, rules, ctx);
             Reparses(L, ctx.url) && Reparses(L, o.url) && !o.Stopped() && Undisturbed(L, ctx, port, o)
    ensures var o := ApplyRequest(L, rules, ctx);
            ResponseRules(L, rules, ResponseRequest(L, ctx, port, o, body), st, probe) ==
            ResponseRules(L, rules, ResponseRequest(L, ctx, port, o, None), st, probe)
  {
    var o := ApplyRequest(L, rules, ctx);
    assert ctx == ctx.(body := None);
    ProbeRunIsSound(L, rules, ctx.kind, StartRequest(ctx), None);
    AdoptedUrl(L, ctx, port, o, None);
    var req := ResponseRequest(L, ctx, port, o, None);
    HeadIgnoresCase(L, rules, o.verb, ctx.verb, o.url, o.headers, ctx.kind);
    assert ResponseRequest(L, ctx, port, o, body) == req.(body := body);
    ResponseIgnoresRequestBody(L, rules, req, body, st, probe);
  }

  // ----- Exactly when it is missed -----

  /// Everything in the rule's response verdict but the body condition holds, and
  /// that condition tells the body from an empty one.
  predicate TurnsOnBody(L: Libs, c: Compiled, req: RequestCtx, body: Bytes, st: ResponseState) {
    && MatchesResponse(L, (c.0.(matcher := c.0.matcher.(requestBody := None)), c.1), req, st, false)
    && BodyCondMatches(L, c.0.matcher.requestBody, c.1.requestBodyRegex, Some(body))
       != BodyCondMatches(L, c.0.matcher.requestBody, c.1.requestBodyRegex, None)
  }

  /// Run without the body, the phase gets to rule `k`, and its verdict turns on
  /// the body.
  predicate TurnsAt(L: Libs, rules: seq<Compiled>, req: RequestCtx, body: Bytes, st: ResponseState, k: nat)
    requires k < |rules|
  {
    var at := ResponseRules(L, rules[..k], req.(body := None), st, false).0;
    !at.shortCircuit && TurnsOnBody(L, rules[k], req, body, at)
  }

  lemma VerdictDependsIff(L: Libs, c: Compiled, req: RequestCtx, body: Bytes, st: ResponseState)
    ensures MatchesResponse(L, c, req.(body := Some(body)), st, false) != MatchesResponse(L, c, req.(body := None), st, false)
            <==> TurnsOnBody(L, c, req, body, st)
  {
  }

  predicate DistinctIds(rules: seq<Compiled>) {
    forall i, j | 0 <= i < j < |rules| :: rules[i].0.id != rules[j].0.id
  }

  /// None of the rules has been recorded as matched yet.
  predicate NoneMatched(rules: seq<Compiled>, matched: seq<string>) {
    forall i | 0 <= i < |rules| :: rules[i].0.id !in matched
  }

  lemma {:induction false} ActionsKeepMatched(L: Libs, acts: seq<(Action, Option<string>)>, st: ResponseState)
    ensures ResponseActions(L, acts, st).matched == st.matched
    decreases |acts|
  {
    if acts != [] {
      ActionsKeepMatched(L, acts[1..], ResponseAction(L, acts[0].0, acts[0].1, st));
    }
  }

  lemma RuleIsRecorded(L: Libs, c: Compiled, st: ResponseState)
    ensures ResponseRule(L, c, st).matched == st.matched + [c.0.id]
  {
    ActionsKeepMatched(L, Zip(c.0.actions, c.1.actionRegex), st.(matched := st.matched + [c.0.id]));
  }

  /// The ids recorded stay, and only ids of rules are added.
  lemma {:induction false} RecordedAreRules(L: Libs, rules: seq<Compiled>, req: RequestCtx, st: ResponseState, id: string)
    ensures id in st.matched ==> id in ResponseRules(L, rules, req, st, false).0.matched
    ensures id in ResponseRules(L, rules, req, st, false).0.matched && id !in st.matched ==> !NoneMatched(rules, [id])
    decreases |rules|
  {
    if rules != [] {
      var c := rules[0];
      RuleIsRecorded(L, c, st);
      var next := if MatchesResponse(L, c, req, st, false) then ResponseRule(L, c, st) else st;
      RecordedAreRules(L, rules[1..], req, next, id);
      if !NoneMatched(rules[1..], [id]) {
        var i :| 0 <= i < |rules[1..]| && rules[1..][i].0.id in [id];
        assert rules[i + 1].0.id in [id];
      }
    }
  }

  lemma TurnsAtFirst(L: Libs, rules: seq<Compiled>, req: RequestCtx, body: Bytes, st: ResponseState)
    requires rules != [] && !st.shortCircuit
    ensures TurnsAt(L, rules, req, body, st, 0) <==> TurnsOnBody(L, rules[0], req, body, st)
  {
    assert ResponseRules(L, rules[..0], req.(body := None), st, false) == (st, false);
  }

  lemma TurnsAtLater(L: Libs, rules: seq<Compiled>, req: RequestCtx, body: Bytes, st: ResponseState, k: nat)
    requires 0 < k < |rules|
    ensures var c := rules[0];
            var next := if MatchesResponse(L, c, req.(body := None), st, false) then ResponseRule(L, c, st) else st;
            TurnsAt(L, rules, req, body, st, k) <==>
            !(MatchesResponse(L, c, req.(body := None), st, false) && next.shortCircuit)
            && TurnsAt(L, rules[1..], req, body, next, k - 1)
  {
    assert rules[..k][0] == rules[0] && rules[..k][1..] == rules[1..][..k - 1] && rules[1..][k - 1] == rules[k];
  }

  ghost predicate TurnsSomewhere(L: Libs, rules: seq<Compiled>, req: RequestCtx, body: Bytes, st: ResponseState) {
    exists k: nat | k < |rules| :: TurnsAt(L, rules, req, body, st, k)
  }

  lemma TurnsHereOrLater(L: Libs, rules: seq<Compiled>, req: RequestCtx, body: Bytes, st: ResponseState)
    requires rules != [] && !st.shortCircuit && TurnsSomewhere(L, rules, req, body, st)
    ensures var c := rules[0];
            var next := if MatchesResponse(L, c, req.(body := None), st, false) then ResponseRule(L, c, st) else st;
            || TurnsOnBody(L, c, req, body, st)
            || (!next.shortCircuit && TurnsSomewhere(L, rules[1..], req, body, next))
  {
    var k: nat :| k < |rules| && TurnsAt(L, rules, req, body, st, k);
    TurnsAtFirst(L, rules, req, body, st);
    if k > 0 {
      TurnsAtLater(L, rules, req, body, st, k);
      assert k - 1 < |rules[1..]|;
    }
  }

  lemma TurnsSomewhereStep(L: Libs, rules: seq<Compiled>, req: RequestCtx, body: Bytes, st: ResponseState)
    requires rules != [] && !st.shortCircuit
    ensures var c := rules[0];
            var next := if MatchesResponse(L, c, req.(body := None), st, false) then ResponseRule(L, c, st) else st;
            TurnsSomewhere(L, rules, req, body, st) <==>
            || TurnsOnBody(L, c, req, body, st)
            || (!next.shortCircuit && TurnsSomewhere(L, rules[1..], req, body, next))
  {
    var c := rules[0];
    var next := if MatchesResponse(L, c, req.(body := None), st, false) then ResponseRule(L, c, st) else st;
    TurnsAtFirst(L, rules, req, body, st);
    if TurnsSomewhere(L, rules, req, body, st) {
      TurnsHereOrLater(L, rules, req, body, st);
    }
    if !next.shortCircuit && TurnsSomewhere(L, rules[1..], req, body, next) {
      var k: nat :| k < |rules[1..]| && TurnsAt(L, rules[1..], req, body, next, k);
      TurnsAtLater(L, rules, req, body, st, k + 1);
      assert TurnsAt(L, rules, req, body, st, k + 1);
    }
  }

  /// Where no verdict that the phase gets to turns on the body, it is the same
  /// with and without it.
  lemma {:induction false} SameUnlessItTurns(L: Libs, rules: seq<Compiled>, req: RequestCtx, body: Bytes, st: ResponseState)
    requires !st.shortCircuit && !TurnsSomewhere(L, rules, req, body, st)
    ensures ResponseRules(L, rules, req.(body := Some(body)), st, false) == ResponseRules(L, rules, req.(body := None), st, false)
    decreases |rules|
  {
    if rules != [] {
      var c := rules[0];
      TurnsSomewhereStep(L, rules, req, body, st);
      VerdictDependsIff(L, c, req, body, st);
      var next := if MatchesResponse(L, c, req.(body := None), st, false) then ResponseRule(L, c, st) else st;
      if !next.shortCircuit {
        SameUnlessItTurns(L, rules[1..], req, body, next);
      }
    }
  }

  /// Where the first verdict turns on the body, only one of the two runs records
  /// the rule.
  lemma FirstTurnShows(L: Libs, rules: seq<Compiled>, req: RequestCtx, body: Bytes, st: ResponseState)
    requires rules != [] && DistinctIds(rules) && NoneMatched(rules, st.matched)
    requires TurnsOnBody(L, rules[0], req, body, st)
    ensures ResponseRules(L, rules, req.(body := Some(body)), st, false).0.matched
            != ResponseRules(L, rules, req.(body := None), st, false).0.matched
  {
    var c := rules[0];
    VerdictDependsIff(L, c, req, body, st);
    RuleIsRecorded(L, c, st);
    OnlyOneRecords(L, rules, req.(body := Some(body)), st);
    OnlyOneRecords(L, rules, req.(body := None), st);
  }

  /// The first rule is recorded in the end exactly if it matches.
  lemma OnlyOneRecords(L: Libs, rules: seq<Compiled>, req: RequestCtx, st: ResponseState)
    requires rules != [] && DistinctIds(rules) && NoneMatched(rules, st.matched)
    ensures rules[0].0.id in ResponseRules(L, rules, req, st, false).0.matched <==> MatchesResponse(L, rules[0], req, st, false)
  {
    var c := rules[0];
    RuleIsRecorded(L, c, st);
    if MatchesResponse(L, c, req, st, false) {
      RecordedAreRules(L, rules[1..], req, ResponseRule(L, c, st), c.0.id);
    } else {
      RecordedAreRules(L, rules[1..], req, st, c.0.id);
      assert forall i | 0 <= i < |rules[1..]| :: rules[1..][i] == rules[i + 1];
    }
  }

  lemma {:induction false} DiffersWhereItTurns(L: Libs, rules: seq<Compiled>, req: RequestCtx, body: Bytes, st: ResponseState)
    requires !st.shortCircuit && DistinctIds(rules) && NoneMatched(rules, st.matched)
    requires TurnsSomewhere(L, rules, req, body, st)
    ensures ResponseRules(L, rules, req.(body := Some(body)), st, false).0.matched
            != ResponseRules(L, rules, req.(body := None), st, false).0.matched
    decreases |rules|
  {
    var c := rules[0];
    TurnsSomewhereStep(L, rules, req, body, st);
    if TurnsOnBody(L, c, req, body, st) {
      FirstTurnShows(L, rules, req, body, st);
    } else {
      VerdictDependsIff(L, c, req, body, st);
      RuleIsRecorded(L, c, st);
      var next := if MatchesResponse(L, c, req.(body := None), st, false) then ResponseRule(L, c, st) else st;
      assert NoneMatched(rules[1..], next.matched) && DistinctIds(rules[1..]) by {
        assert forall i | 0 <= i < |rules[1..]| :: rules[1..][i] == rules[i + 1];
      }
      DiffersWhereItTurns(L, rules[1..], req, body, next);
    }
  }

  /// As the proxy runs the two phases, with rules told apart by their ids: the
  /// response phase misses an unbuffered body, its outcome differing from the one
  /// with the body, exactly when without the body it gets to a rule whose
  /// verdict, all else holding, turns on it.
  lemma BodyIsMissedIff(L: Libs, rules: seq<Compiled>, ctx: RequestCtx, port: nat, body: Bytes,
                        status: nat, headers: HeaderList, answer: Option<Bytes>)
    requires DistinctIds(rules)
    ensures var o := ApplyRequest(L, rules, ctx);
            ApplyResponse(L, rules, ResponseRequest(L, ctx, port, o, Some(body)), status, headers, answer)
            != ApplyResponse(L, rules, ResponseRequest(L, ctx, port, o, None), status, headers, answer)
            <==> TurnsSomewhere(L, rules, ResponseRequest(L, ctx, port, o, None), body, StartResponse(status, headers, answer))
  {
    var o := ApplyRequest(L, rules, ctx);
    var req, st := ResponseRequest(L, ctx, port, o, None), StartResponse(status, headers, answer);
    assert ResponseRequest(L, ctx, port, o, Some(body)) == req.(body := Some(body)) && req == req.(body := None);
    if TurnsSomewhere(L, rules, req, body, st) {
      DiffersWhereItTurns(L, rules, req, body, st);
    } else {
      SameUnlessItTurns(L, rules, req, body, st);
    }
  }

  // ----- Where an unbuffered body is missed -----

  const ANY_REQUEST := Matcher(UrlAny, "", [], [], [], [], [], [], None, None)

  function RuleWith(id: string, m: Matcher, a: Action): Compiled {
    (Rule(id, true, 0, m, [a]), CompiledEntry(None, None, [], [], HeaderRegexes(m.requestHeaders), [], None, None, [None]))
  }

  /// The rule and its own compiled entry, always usable.
  predicate Compiles(L: Libs, c: Compiled) {
    c.0.enabled && Compile(L, c.0) == Some(c.1)
  }

  /// A rule without patterns.
  predicate Plain(c: Compiled) {
    var m := c.0.matcher;
    && m == ANY_REQUEST.(methods := m.methods, requestHeaders := m.requestHeaders, requestBody := m.requestBody)
    && |m.requestHeaders| <= 1 && (m.requestHeaders != [] ==> !m.requestHeaders[0].op.HeaderRegex?)
    && BodyRegexOf(m.requestBody).None?
    && |c.0.actions| == 1 && ActionRegexOf(c.0.actions[0]).None?
    && c == RuleWith(c.0.id, m, c.0.actions[0])
  }

  lemma PlainRegexes(m: Matcher, a: Action)
    requires |m.requestHeaders| <= 1 && (m.requestHeaders != [] ==> !m.requestHeaders[0].op.HeaderRegex?)
    requires ActionRegexOf(a).None?
    ensures HeaderRegexes(m.requestHeaders) == if m.requestHeaders == [] then [] else [None]
    ensures ActionRegexes([a]) == [None]
  {
    assert [a][1..] == [];
  }

  lemma PlainCompiles(L: Libs, c: Compiled)
    requires Plain(c)
    ensures Compiles(L, c)
  {
    var m := c.0.matcher;
    PlainRegexes(m, c.0.actions[0]);
    assert c.0.actions == [c.0.actions[0]];
    assert HeaderRegexes(m.requestHeaders) + HeaderRegexes(m.responseHeaders) == HeaderRegexes(m.requestHeaders);
    assert m.requestHeaders + m.responseHeaders == m.requestHeaders;
    assert Compilable(L, c.0);
  }

  lemma WitnessIsNew(L: Libs, first: Compiled, mark: Compiled)
    requires Plain(first) && Plain(mark)
    ensures RulesStore.New(L, [first.0, mark.0]) == [first, mark]
  {
    PlainCompiles(L, first);
    PlainCompiles(L, mark);
    PairIsNew(L, first, mark);
  }

  /// Two such rules of one priority are the rule set that their list compiles to.
  lemma PairIsNew(L: Libs, first: Compiled, mark: Compiled)
    requires Compiles(L, first) && Compiles(L, mark) && first.0.priority == mark.0.priority
    ensures RulesStore.New(L, [first.0, mark.0]) == [first, mark]
  {
    var rules := [first.0, mark.0];
    assert RulesStore.RankedUpTo(rules, 1) == [0] by {
      assert RulesStore.RankedUpTo(rules, 0) == [];
    }
    assert RulesStore.RankedUpTo(rules, 2) == [0, 1] by {
      assert [0][1..] == [];
      assert RulesStore.InsertRanked(rules, [], 1) == [1];
    }
    assert RulesStore.Selected(L, rules) == [0, 1] by {
      assert [0, 1][1..] == [1] && [1][1..] == [];
      assert RulesStore.KeepUsable(L, rules, [1]) == [1];
    }
  }

  /// A rule that marks GET requests whose body has this text.
  function MarkGet(text: string): Compiled {
    RuleWith("mark", ANY_REQUEST.(methods := ["GET"], requestBody := Some(BodyCond(BodyEquals, text))), SetStatus(599))
  }

  /// A rule that marks requests with a Host field whose body has this text.
  function MarkHosted(text: string): Compiled {
    RuleWith("mark",
             ANY_REQUEST.(requestHeaders := [HeaderCond("host", HeaderExists, None)],
                          requestBody := Some(BodyCond(BodyEquals, text))),
             SetStatus(599))
  }

  /// A rule that marks requests without a TE field whose body has this text.
  function MarkNoTe(text: string): Compiled {
    RuleWith("mark",
             ANY_REQUEST.(requestHeaders := [HeaderCond("te", HeaderAbsent, None)],
                          requestBody := Some(BodyCond(BodyEquals, text))),
             SetStatus(599))
  }

  /// After the request phase has asked for no body, the response comes out with
  /// one status if the phase is shown the body and with another as it is run.
  predicate Missed(L: Libs, rules: seq<Compiled>, ctx: RequestCtx, port: nat, body: Bytes) {
    var o := ApplyRequest(L, rules, ctx);
    && !NeedsRequestBody(L, rules, ctx) && !o.Stopped()
    && ApplyResponse(L, rules, ResponseRequest(L, ctx, port, o, Some(body)), 200, [], None).status == 599
    && ApplyResponse(L, rules, ResponseRequest(L, ctx, port, o, None), 200, [], None).status == 200
  }

  lemma OneAction(L: Libs, c: Compiled, a: Action, st: RequestState)
    requires c.0.actions == [a] && c.1.actionRegex == [None]
    ensures RequestRule(L, c, st) == RequestAction(L, a, None, CapturesOf(L, c, st.url), st.(matched := st.matched + [c.0.id]))
  {
    var acts, caps, start := Zip(c.0.actions, c.1.actionRegex), CapturesOf(L, c, st.url), st.(matched := st.matched + [c.0.id]);
    assert acts == [(a, None)] && acts[1..] == [];
    assert RequestActions(L, acts, caps, start) == RequestActions(L, [], caps, RequestAction(L, a, None, caps, start));
  }

  lemma OneResponseAction(L: Libs, c: Compiled, a: Action, st: ResponseState)
    requires c.0.actions == [a] && c.1.actionRegex == [None]
    ensures ResponseRule(L, c, st) == ResponseAction(L, a, None, st.(matched := st.matched + [c.0.id]))
  {
    var acts, start := Zip(c.0.actions, c.1.actionRegex), st.(matched := st.matched + [c.0.id]);
    assert acts == [(a, None)] && acts[1..] == [];
    assert ResponseActions(L, acts, start) == ResponseActions(L, [], ResponseAction(L, a, None, start));
  }

  lemma LastRuleUnmatched(L: Libs, c: Compiled, kind: ResourceType, st: RequestState, probe: bool)
    requires !MatchesRequestHead(L, c, st.verb, st.url, st.headers, kind)
    ensures RequestRules(L, [c], kind, st, probe) == (st, false)
  {
    assert [c][1..] == [];
    assert RequestRules(L, [c], kind, st, probe) == RequestRules(L, [], kind, st, probe);
  }

  predicate OnRequestOnly(a: Action) {
    a.SetMethod? || a.Redirect? || a.SetRequestHeader?
  }

  /// Two rules of which the first always matches, says nothing about the
  /// response, and by itself leaves the second unmatched in the request phase.
  lemma SecondRuleMisses(L: Libs, first: Compiled, mark: Compiled, ctx: RequestCtx, port: nat, body: Bytes)
    requires ctx.body.None?
    requires first.0.matcher == ANY_REQUEST && first.1.actionRegex == [None]
    requires |first.0.actions| == 1 && OnRequestOnly(first.0.actions[0])
    requires mark.0.matcher.requestBody.Some? && mark.0.actions == [SetStatus(599)] && mark.1.actionRegex == [None]
    requires mark.0.matcher.statusCodes == [] && mark.0.matcher.responseHeaders == []
             && mark.0.matcher.responseBody == None
    requires BodyCondMatches(L, mark.0.matcher.requestBody, mark.1.requestBodyRegex, Some(body))
    requires !BodyCondMatches(L, mark.0.matcher.requestBody, mark.1.requestBodyRegex, None)
    requires var o := RequestRule(L, first, StartRequest(ctx));
             && !MatchesRequestHead(L, mark, o.verb, o.url, o.headers, ctx.kind)
             && var req := ResponseRequest(L, ctx, port, o, None);
                MatchesRequestHead(L, mark, req.verb, req.url, req.headers, req.kind)
    ensures Missed(L, [first, mark], ctx, port, body)
  {
    var rules := [first, mark];
    var a := first.0.actions[0];
    var st := StartRequest(ctx);
    var o := RequestRule(L, first, st);
    OneAction(L, first, a, st);
    assert rules[1..] == [mark] && [mark][1..] == [];
    assert RequestMatches(L, first, st, ctx.kind, true) && RequestMatches(L, first, st, ctx.kind, false);
    assert !WantsRequestBody(first.0);
    LastRuleUnmatched(L, mark, ctx.kind, o, true);
    LastRuleUnmatched(L, mark, ctx.kind, o, false);
    assert RequestRules(L, rules, ctx.kind, st, true) == (o, false);
    assert ApplyRequest(L, rules, ctx) == o;
    MarkedIf(L, first, mark, ResponseRequest(L, ctx, port, o, Some(body)));
    MarkedIf(L, first, mark, ResponseRequest(L, ctx, port, o, None));
  }

  lemma MarkedIf(L: Libs, first: Compiled, mark: Compiled, req: RequestCtx)
    requires first.0.matcher == ANY_REQUEST && first.1.actionRegex == [None]
    requires |first.0.actions| == 1 && OnRequestOnly(first.0.actions[0])
    requires mark.0.actions == [SetStatus(599)] && mark.1.actionRegex == [None]
    requires mark.0.matcher.statusCodes == [] && mark.0.matcher.responseHeaders == []
             && mark.0.matcher.responseBody == None
    ensures ApplyResponse(L, [first, mark], req, 200, [], None).status ==
            if MatchesRequest(L, mark, req.verb, req.url, req.headers, req.body, req.kind, false) then 599 else 200
  {
    var st := StartResponse(200, [], None);
    OneResponseAction(L, first, first.0.actions[0], st);
    var next := ResponseRule(L, first, st);
    OneResponseAction(L, mark, SetStatus(599), next);
    var rules := [first, mark];
    assert rules[1..] == [mark] && [mark][1..] == [];
    assert MatchesResponse(L, first, req, st, false);
    assert next.status == 200 && !next.shortCircuit;
    assert ResponseRules(L, rules, req, st, false) == ResponseRules(L, [mark], req, next, false);
    var last := if MatchesResponse(L, mark, req, next, false) then ResponseRule(L, mark, next) else next;
    assert ResponseRules(L, [mark], req, next, false).0 == last by {
      assert ResponseRules(L, [], req, last, false) == (last, false);
    }
  }

  lemma ChangedMethodMissed(L: Libs, url: Url, headers: HeaderList, kind: ResourceType, port: nat, body: Bytes)
    requires L.lossyText(body) != ""
    ensures Missed(L, [RuleWith("change", ANY_REQUEST, SetMethod("POST")), MarkGet(L.lossyText(body))], RequestCtx("GET", url, headers, None, kind), port, body)
  {
    var first, mark := RuleWith("change", ANY_REQUEST, SetMethod("POST")), MarkGet(L.lossyText(body));
    var ctx := RequestCtx("GET", url, headers, None, kind);
    OneAction(L, first, SetMethod("POST"), StartRequest(ctx));
    assert Lower("GET")[0] == 'g' && Lower("POST")[0] == 'p';
    assert SameName("GET", "GET") && "GET" in mark.0.matcher.methods;
    SecondRuleMisses(L, first, mark, ctx, port, body);
  }

  /// A method change is one way: the response phase goes by the client's method,
  /// where a rule that the request phase ruled out matches again.
  lemma MethodChangeMisses(L: Libs, url: Url, headers: HeaderList, kind: ResourceType, port: nat, body: Bytes)
    requires L.lossyText(body) != ""
    ensures Missed(L, RulesStore.New(L, [RuleWith("change", ANY_REQUEST, SetMethod("POST")).0, MarkGet(L.lossyText(body)).0]),
                   RequestCtx("GET", url, headers, None, kind), port, body)
  {
    WitnessIsNew(L, RuleWith("change", ANY_REQUEST, SetMethod("POST")), MarkGet(L.lossyText(body)));
    ChangedMethodMissed(L, url, headers, kind, port, body);
  }

  lemma AddedHostMissed(L: Libs, url: Url, to: string, kind: ResourceType, port: nat, body: Bytes)
    requires L.lossyText(body) != "" && Reparses(L, url)
    requires L.parseUrl(to).Some? && L.parseUrl(to).value != url && Reparses(L, L.parseUrl(to).value)
    ensures Missed(L, [RuleWith("move", ANY_REQUEST, Redirect(to)), MarkHosted(L.lossyText(body))], RequestCtx("GET", url, [], None, kind), port, body)
  {
    var first, mark := RuleWith("move", ANY_REQUEST, Redirect(to)), MarkHosted(L.lossyText(body));
    var ctx := RequestCtx("GET", url, [], None, kind);
    var st := StartRequest(ctx);
    OneAction(L, first, Redirect(to), st);
    var o := RequestRule(L, first, st);
    assert SubstituteCaptures(to, None) == to;
    assert o.url == L.parseUrl(to).value && o.headers == [];
    var req := ResponseRequest(L, ctx, port, o, None);
    Authority.NamesDiffer();
    LookupAfterSet([], "Host", Authority.OwnHost(L, url, Authority.OrElse(o.url.host, Authority.OrElse(url.host, ""))), "host");
    assert Lookup(req.headers, "host") != [];
    assert HeaderCondMatches(L, mark.0.matcher.requestHeaders[0], None, req.headers);
    assert !HeaderCondMatches(L, mark.0.matcher.requestHeaders[0], None, o.headers);
    SecondRuleMisses(L, first, mark, ctx, port, body);
  }

  /// A synthesized Host is another: it is added after the request phase, and a
  /// rule that asks for the field matches only then.
  lemma AddedHostMisses(L: Libs, url: Url, to: string, kind: ResourceType, port: nat, body: Bytes)
    requires L.lossyText(body) != "" && Reparses(L, url)
    requires L.parseUrl(to).Some? && L.parseUrl(to).value != url && Reparses(L, L.parseUrl(to).value)
    ensures Missed(L, RulesStore.New(L, [RuleWith("move", ANY_REQUEST, Redirect(to)).0, MarkHosted(L.lossyText(body)).0]),
                   RequestCtx("GET", url, [], None, kind), port, body)
  {
    WitnessIsNew(L, RuleWith("move", ANY_REQUEST, Redirect(to)), MarkHosted(L.lossyText(body)));
    AddedHostMissed(L, url, to, kind, port, body);
  }

  lemma TeIsDropped(L: Libs, ctx: RequestCtx, port: nat, o: RequestState)
    requires o.url == ctx.url && o.headers == [HeaderPair("te", "trailers")]
    ensures ResponseRequest(L, ctx, port, o, None) == RequestCtx(ctx.verb, ctx.url, [], None, ctx.kind)
  {
    assert Authority.HOP_BY_HOP[3] in Authority.HOP_BY_HOP && SameName("te", Authority.HOP_BY_HOP[3]);
    Authority.DroppedByStrip(o.headers[0]);
  }

  lemma NoTeTells(L: Libs, text: string, verb: string, url: Url, kind: ResourceType)
    ensures MatchesRequestHead(L, MarkNoTe(text), verb, url, [], kind)
    ensures !MatchesRequestHead(L, MarkNoTe(text), verb, url, [HeaderPair("te", "trailers")], kind)
  {
    var mark, te := MarkNoTe(text), [HeaderPair("te", "trailers")];
    LookupAfterSet([], "te", "trailers", "te");
    assert SetHeader([], "te", "trailers") == te;
    assert HeaderCondMatches(L, mark.0.matcher.requestHeaders[0], None, []);
    assert !HeaderCondMatches(L, mark.0.matcher.requestHeaders[0], None, te);
    assert mark.1.requestHeaderRegex == [None];
  }

  lemma DroppedFieldMissed(L: Libs, url: Url, kind: ResourceType, port: nat, body: Bytes)
    requires L.lossyText(body) != ""
    ensures Missed(L, [RuleWith("te", ANY_REQUEST, SetRequestHeader("te", "trailers")), MarkNoTe(L.lossyText(body))], RequestCtx("GET", url, [], None, kind), port, body)
  {
    var first, mark := RuleWith("te", ANY_REQUEST, SetRequestHeader("te", "trailers")), MarkNoTe(L.lossyText(body));
    var ctx := RequestCtx("GET", url, [], None, kind);
    var st := StartRequest(ctx);
    OneAction(L, first, SetRequestHeader("te", "trailers"), st);
    var o := RequestRule(L, first, st);
    assert o.headers == [HeaderPair("te", "trailers")] && o.url == url && o.verb == "GET";
    TeIsDropped(L, ctx, port, o);
    NoTeTells(L, L.lossyText(body), "GET", url, kind);
    SecondRuleMisses(L, first, mark, ctx, port, body);
  }

  /// A dropped per-hop field is the third: a rule's TE is gone when the response
  /// phase looks, and a rule that asks for its absence matches only then.
  lemma DroppedFieldMisses(L: Libs, url: Url, kind: ResourceType, port: nat, body: Bytes)
    requires L.lossyText(body) != ""
    ensures Missed(L, RulesStore.New(L, [RuleWith("te", ANY_REQUEST, SetRequestHeader("te", "trailers")).0, MarkNoTe(L.lossyText(body)).0]),
                   RequestCtx("GET", url, [], None, kind), port, body)
  {
    WitnessIsNew(L, RuleWith("te", ANY_REQUEST, SetRequestHeader("te", "trailers")), MarkNoTe(L.lossyText(body)));
    DroppedFieldMissed(L, url, kind, port, body);
  }
}
