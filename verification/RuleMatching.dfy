/// When a rule of `crates/hamsy-core/src/rule.rs` matches, said of the rule itself:
/// that its compiled entry stands for its own patterns is proved, not assumed.

module RuleMatching {
  import opened Common
  import opened Headers
  import opened Rules
  import opened RuleEngine
  import RulesStore

  /// The entry is the one that compiling the rule yields.
  predicate Own(L: Libs, c: Compiled) {
    Compile(L, c.0) == Some(c.1)
  }

  predicate AllOwn(L: Libs, rules: seq<Compiled>) {
    forall c | c in rules :: Own(L, c)
  }

  /// As in every rule set that is made from a list of rules.
  lemma NewIsOwn(L: Libs, rules: seq<Rule>)
    ensures AllOwn(L, RulesStore.New(L, rules))
  {
    RulesStore.NewIsTheSelection(L, rules);
  }

  // ----- The tests -----

  ghost predicate Within(part: string, text: string) {
    exists before: string, after: string :: text == before + part + after
  }

  ghost predicate AcceptsUrl(L: Libs, m: Matcher, text: string) {
    match m.urlOp
    case UrlAny => true
    case UrlEquals => text == m.urlValue
    case UrlContains => Within(m.urlValue, text)
    case UrlStartsWith => exists after: string :: text == m.urlValue + after
    case UrlEndsWith => exists before: string :: text == before + m.urlValue
    case UrlRegex => L.regexMatch(m.urlValue, text)
    case UrlWildcard => L.globMatch(m.urlValue, text)
  }

  /// One of the patterns takes the host, or the host with the port.
  predicate AcceptsHost(L: Libs, m: Matcher, url: Url) {
    var host := match url.host case Some(h) => h case None => "";
    var port := match url.port
                case Some(p) => p
                case None => if url.scheme in {"https", "wss"} then 443 else if url.scheme in {"http", "ws"} then 80 else 0;
    m.hostPorts == [] || exists g | g in m.hostPorts :: L.globMatch(g, host) || L.globMatch(g, host + ":" + L.portText(port))
  }

  predicate Named(h: HeaderPair, name: string) {
    Lower(h.name) == Lower(name)
  }

  ghost predicate AcceptsHeader(L: Libs, c: HeaderCond, headers: HeaderList) {
    match c.op
    case HeaderExists => exists h | h in headers :: Named(h, c.name)
    case HeaderAbsent => forall h | h in headers :: !Named(h, c.name)
    case HeaderEquals => exists h | h in headers :: Named(h, c.name) && c.value == Some(h.value)
    case HeaderContains => c.value.Some? && exists h | h in headers :: Named(h, c.name) && Within(c.value.value, h.value)
    case HeaderRegex => c.value.Some? && exists h | h in headers :: Named(h, c.name) && L.regexMatch(c.value.value, h.value)
  }

  ghost predicate AcceptsBody(L: Libs, cond: Option<BodyCond>, body: Option<Bytes>) {
    var text := match body case Some(b) => L.lossyText(b) case None => "";
    match cond
    case None => true
    case Some(BodyCond(BodyContains, value)) => Within(value, text)
    case Some(BodyCond(BodyEquals, value)) => text == value
    case Some(BodyCond(BodyRegex, value)) => L.regexMatch(value, text)
  }

  ghost predicate AcceptsRequest(L: Libs, m: Matcher, verb: string, url: Url, headers: HeaderList, body: Option<Bytes>, kind: ResourceType) {
    && AcceptsUrl(L, m, L.printUrl(url)) && AcceptsHost(L, m, url)
    && (m.methods == [] || exists x | x in m.methods :: Lower(x) == Lower(verb))
    && (m.resourceTypes == [] || kind in m.resourceTypes)
    && (forall c | c in m.requestHeaders :: AcceptsHeader(L, c, headers))
    && AcceptsBody(L, m.requestBody, body)
  }

  /// One of the status specifications takes the code.
  predicate AcceptsStatus(L: Libs, m: Matcher, status: nat) {
    m.statusCodes == [] ||
    exists spec | spec in m.statusCodes :: L.parseStatus(spec).Some? && L.parseStatus(spec).value.Matches(status)
  }

  ghost predicate AcceptsResponse(L: Libs, m: Matcher, req: RequestCtx, st: ResponseState) {
    && AcceptsRequest(L, m, req.verb, req.url, req.headers, req.body, req.kind)
    && AcceptsStatus(L, m, st.status)
    && (forall c | c in m.responseHeaders :: AcceptsHeader(L, c, st.headers))
    && AcceptsBody(L, m.responseBody, st.body)
  }

  // ----- The engine's tests are these -----

  lemma ContainsIff(text: string, part: string)
    ensures Contains(text, part) <==> Within(part, text)
  {
    if Contains(text, part) {
      var i :| 0 <= i <= |text| && part <= text[i..];
      assert text == text[..i] + part + text[i + |part|..];
    }
    if Within(part, text) {
      var before: string, after: string :| text == before + part + after;
      assert text[|before|..] == part + after;
    }
  }

  lemma UrlIff(L: Libs, c: Compiled, text: string)
    requires Own(L, c)
    ensures MatchesUrl(L, c.0.matcher, c.1, text) <==> AcceptsUrl(L, c.0.matcher, text)
  {
    var value := c.0.matcher.urlValue;
    match c.0.matcher.urlOp {
      case UrlContains => ContainsIff(text, value);
      case UrlStartsWith => StartsIff(text, value);
      case UrlEndsWith => EndsIff(text, value);
      case _ =>
    }
  }

  lemma {:induction false} LookupMembers(headers: HeaderList, name: string)
    ensures forall v :: v in Lookup(headers, name) <==> exists h | h in headers :: Named(h, name) && h.value == v
  {
    if headers != [] {
      LookupMembers(headers[1..], name);
      assert headers == [headers[0]] + headers[1..];
    }
  }

  lemma HeaderIff(L: Libs, c: HeaderCond, re: Option<string>, headers: HeaderList)
    requires re == if c.op.HeaderRegex? then c.value else None
    ensures HeaderCondMatches(L, c, re, headers) <==> AcceptsHeader(L, c, headers)
  {
    var values := Lookup(headers, c.name);
    LookupMembers(headers, c.name);
    match c.op {
      case HeaderExists => NoneNamed(headers, c.name);
      case HeaderAbsent => NoneNamed(headers, c.name);
      case HeaderContains =>
        if c.value.Some? {
          forall v | v in values ensures Contains(v, c.value.value) <==> Within(c.value.value, v) {
            ContainsIff(v, c.value.value);
          }
        }
      case _ =>
    }
  }

  lemma NoneNamed(headers: HeaderList, name: string)
    ensures Lookup(headers, name) == [] <==> forall h | h in headers :: !Named(h, name)
  {
    LookupMembers(headers, name);
    if Lookup(headers, name) != [] {
      assert Lookup(headers, name)[0] in Lookup(headers, name);
    }
    forall h | h in headers && Named(h, name) ensures Lookup(headers, name) != [] {
      assert h.value in Lookup(headers, name);
    }
  }

  lemma {:induction false} RegexesAre(conds: seq<HeaderCond>)
    ensures |HeaderRegexes(conds)| == |conds|
    ensures forall i | 0 <= i < |conds| :: HeaderRegexes(conds)[i] == if conds[i].op.HeaderRegex? then conds[i].value else None
  {
    if conds != [] {
      RegexesAre(conds[1..]);
    }
  }

  lemma HeadersIff(L: Libs, conds: seq<HeaderCond>, headers: HeaderList)
    ensures AllHeaderConds(L, conds, HeaderRegexes(conds), headers) <==> forall c | c in conds :: AcceptsHeader(L, c, headers)
  {
    RegexesAre(conds);
    forall i | 0 <= i < |conds|
      ensures HeaderCondMatches(L, conds[i], HeaderRegexes(conds)[i], headers) <==> AcceptsHeader(L, conds[i], headers)
    {
      HeaderIff(L, conds[i], HeaderRegexes(conds)[i], headers);
    }
    if forall c | c in conds :: AcceptsHeader(L, c, headers) {
      assert forall i | 0 <= i < |conds| :: conds[i] in conds;
    }
  }

  lemma BodyIff(L: Libs, cond: Option<BodyCond>, body: Option<Bytes>)
    ensures BodyCondMatches(L, cond, BodyRegexOf(cond), body) <==> AcceptsBody(L, cond, body)
  {
    if cond.Some? {
      ContainsIff(if body.Some? then L.lossyText(body.value) else "", cond.value.value);
    }
  }

  lemma HeadIff(L: Libs, c: Compiled, verb: string, url: Url, headers: HeaderList, kind: ResourceType)
    requires Own(L, c)
    ensures var m := c.0.matcher;
            MatchesRequestHead(L, c, verb, url, headers, kind) <==>
            && AcceptsUrl(L, m, L.printUrl(url)) && AcceptsHost(L, m, url)
            && (m.methods == [] || exists x | x in m.methods :: Lower(x) == Lower(verb))
            && (m.resourceTypes == [] || kind in m.resourceTypes)
            && (forall c | c in m.requestHeaders :: AcceptsHeader(L, c, headers))
  {
    UrlIff(L, c, L.printUrl(url));
    HeadersIff(L, c.0.matcher.requestHeaders, headers);
    assert MatchesHostPort(L, c.0.matcher, c.1, url) <==> AcceptsHost(L, c.0.matcher, url);
  }

  /// A rule matches a request exactly when its own conditions accept it; as a
  /// probe it leaves the body condition out.
  lemma RequestMatchIff(L: Libs, c: Compiled, verb: string, url: Url, headers: HeaderList, body: Option<Bytes>, kind: ResourceType)
    requires Own(L, c)
    ensures MatchesRequest(L, c, verb, url, headers, body, kind, false) <==>
            AcceptsRequest(L, c.0.matcher, verb, url, headers, body, kind)
    ensures MatchesRequest(L, c, verb, url, headers, body, kind, true) <==>
            AcceptsRequest(L, c.0.matcher.(requestBody := None), verb, url, headers, body, kind)
  {
    HeadIff(L, c, verb, url, headers, kind);
    BodyIff(L, c.0.matcher.requestBody, body);
  }

  lemma {:induction false} StatusIff(L: Libs, specs: seq<string>, status: nat)
    ensures (exists sm | sm in StatusMatchers(L, specs) :: sm.Matches(status)) <==>
            exists spec | spec in specs :: L.parseStatus(spec).Some? && L.parseStatus(spec).value.Matches(status)
  {
    if specs != [] {
      StatusIff(L, specs[1..], status);
      var m := L.parseStatus(specs[0]);
      var later := StatusMatchers(L, specs[1..]);
      assert specs == [specs[0]] + specs[1..];
      assert forall sm :: sm in StatusMatchers(L, specs) <==> (m.Some? && sm == m.value) || sm in later;
    }
  }

  /// A rule matches a response exactly when its own conditions accept the request
  /// and the response.
  lemma ResponseMatchIff(L: Libs, c: Compiled, req: RequestCtx, st: ResponseState)
    requires Own(L, c)
    ensures MatchesResponse(L, c, req, st, false) <==> AcceptsResponse(L, c.0.matcher, req, st)
  {
    var m := c.0.matcher;
    RequestMatchIff(L, c, req.verb, req.url, req.headers, req.body, req.kind);
    StatusIff(L, m.statusCodes, st.status);
    HeadersIff(L, m.responseHeaders, st.headers);
    BodyIff(L, m.responseBody, st.body);
  }

  /// Of the three-digit codes an exact specification takes one, a class its hundred
  /// and a range everything between its ends.
  lemma StatusCodes(status: nat, code: nat, d: nat, low: nat, high: nat)
    requires 100 <= status <= 999 && d < 256
    ensures Exact(code).Matches(status) <==> status == code
    ensures Class(d).Matches(status) <==> 100 * d <= status <= 100 * d + 99
    ensures Range(low, high).Matches(status) <==> low <= status && status <= high
  {
  }
}
