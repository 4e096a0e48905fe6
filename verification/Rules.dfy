/// The rule model of `crates/hamsy-core/src/rule.rs`: matchers, actions,
/// compilation and the match tests. Regexes, globs, URL text, JSON text and
/// lossy decoding belong to foreign libraries and are functions of `Libs`.

module Rules {
  import opened Common
  import opened Headers
  import JsonEdit
  import Utf8
  import Base64

  /// The foreign libraries a rule set runs on.
  datatype Libs = Libs(
    regexOk: string -> bool,
    regexMatch: (string, string) -> bool,
    regexCaptures: (string, string) -> Option<seq<Option<string>>>,
    regexReplace: (string, string, string) -> string,
    globOk: string -> bool,
    globMatch: (string, string) -> bool,
    parseStatus: string -> Option<StatusMatcher>,
    parseUrl: string -> Option<Url>,
    printUrl: Url -> string,
    queryPairs: Url -> seq<(string, string)>,
    withQuery: (Url, seq<(string, string)>) -> Url,
    replaceText: (string, string, string) -> string,
    lossyText: Bytes -> string,
    parseJson: Bytes -> Option<JsonEdit.Json>,
    printJson: JsonEdit.Json -> Bytes,
    portText: nat -> string)

  datatype UrlOp = UrlAny | UrlContains | UrlEquals | UrlStartsWith | UrlEndsWith | UrlRegex | UrlWildcard

  datatype HeaderOp = HeaderExists | HeaderAbsent | HeaderEquals | HeaderContains | HeaderRegex

  datatype HeaderCond = HeaderCond(name: string, op: HeaderOp, value: Option<string>)

  datatype BodyOp = BodyContains | BodyRegex | BodyEquals

  datatype BodyCond = BodyCond(op: BodyOp, value: string)

  datatype ResourceType =
    | Document | Stylesheet | Script | Image | Font | Xhr | JsonDoc | Media | WebSocket | Other

  datatype Matcher = Matcher(
    urlOp: UrlOp,
    urlValue: string,
    methods: seq<string>,
    hostPorts: seq<string>,
    statusCodes: seq<string>,
    resourceTypes: seq<ResourceType>,
    requestHeaders: seq<HeaderCond>,
    responseHeaders: seq<HeaderCond>,
    requestBody: Option<BodyCond>,
    responseBody: Option<BodyCond>)

  datatype Encoding = Text | Base64Text

  datatype Action =
    | Redirect(target: string)
    | RewriteUrl(find: string, replace: string, regex: bool)
    | SetQueryParam(name: string, value: string)
    | RemoveQueryParam(name: string)
    | SetRequestHeader(name: string, value: string)
    | RemoveRequestHeader(name: string)
    | SetResponseHeader(name: string, value: string)
    | RemoveResponseHeader(name: string)
    | SetRequestBody(body: string, encoding: Encoding, contentType: Option<string>)
    | SetResponseBody(body: string, encoding: Encoding, contentType: Option<string>)
    | ReplaceInRequestBody(find: string, replace: string, regex: bool)
    | ReplaceInResponseBody(find: string, replace: string, regex: bool)
    | JsonPatchRequest(ops: seq<JsonEdit.JsonOp>)
    | JsonPatchResponse(ops: seq<JsonEdit.JsonOp>)
    | MockResponse(status: nat, headers: HeaderList, body: string, encoding: Encoding, delayMs: nat)
    | SetStatus(status: nat)
    | Block(reason: string)
    | Delay(ms: nat)
    | Throttle(bytesPerSec: nat)
    | SetMethod(newMethod: string)

  datatype Rule = Rule(id: string, enabled: bool, priority: int, matcher: Matcher, actions: seq<Action>)

  datatype StatusMatcher = Exact(code: nat) | Class(hundreds: nat) | Range(low: nat, high: nat) {
    /// `StatusMatcher::matches`; the class comparison truncates to `u8`.
    predicate Matches(status: nat) {
      match this
      case Exact(v) => v == status
      case Class(d) => status / 100 % 256 == d
      case Range(lo, hi) => lo <= status <= hi
    }
  }

  /// What compiling a rule keeps; a regex or glob is its accepted pattern.
  datatype CompiledEntry = CompiledEntry(
    urlRegex: Option<string>,
    urlGlob: Option<string>,
    hostGlobs: seq<string>,
    statusMatchers: seq<StatusMatcher>,
    requestHeaderRegex: seq<Option<string>>,
    responseHeaderRegex: seq<Option<string>>,
    requestBodyRegex: Option<string>,
    responseBodyRegex: Option<string>,
    actionRegex: seq<Option<string>>)

  type Compiled = (Rule, CompiledEntry)

  // ----- Compiling one rule -----

  function HeaderRegexes(conds: seq<HeaderCond>): seq<Option<string>> {
    if conds == [] then []
    else [if conds[0].op.HeaderRegex? then conds[0].value else None] + HeaderRegexes(conds[1..])
  }

  function BodyRegexOf(cond: Option<BodyCond>): Option<string> {
    if cond.Some? && cond.value.op.BodyRegex? then Some(cond.value.value) else None
  }

  function ActionRegexOf(a: Action): Option<string> {
    match a
    case RewriteUrl(find, _, true) => Some(find)
    case ReplaceInRequestBody(find, _, true) => Some(find)
    case ReplaceInResponseBody(find, _, true) => Some(find)
    case _ => None
  }

  function ActionRegexes(actions: seq<Action>): seq<Option<string>> {
    if actions == [] then [] else [ActionRegexOf(actions[0])] + ActionRegexes(actions[1..])
  }

  function StatusMatchers(L: Libs, specs: seq<string>): seq<StatusMatcher> {
    if specs == [] then []
    else
      var m := L.parseStatus(specs[0]);
      (if m.Some? then [m.value] else []) + StatusMatchers(L, specs[1..])
  }

  predicate AllAccepted(L: Libs, regexes: seq<Option<string>>) {
    forall r | r in regexes :: r.Some? ==> L.regexOk(r.value)
  }

  /// Every pattern in the rule is accepted by its library.
  predicate Compilable(L: Libs, rule: Rule) {
    var m := rule.matcher;
    && (m.urlOp.UrlRegex? ==> L.regexOk(m.urlValue))
    && (m.urlOp.UrlWildcard? ==> L.globOk(m.urlValue))
    && (forall p | p in m.hostPorts :: L.globOk(p))
    && (forall c | c in m.requestHeaders + m.responseHeaders :: c.op.HeaderRegex? ==> c.value.Some?)
    && AllAccepted(L, HeaderRegexes(m.requestHeaders) + HeaderRegexes(m.responseHeaders))
    && AllAccepted(L, [BodyRegexOf(m.requestBody), BodyRegexOf(m.responseBody)])
    && AllAccepted(L, ActionRegexes(rule.actions))
  }

  /// `compile_rule`; `None` where the source reports errors.
  function Compile(L: Libs, rule: Rule): Option<CompiledEntry> {
    var m := rule.matcher;
    if !Compilable(L, rule) then None
    else Some(CompiledEntry(
                if m.urlOp.UrlRegex? then Some(m.urlValue) else None,
                if m.urlOp.UrlWildcard? then Some(m.urlValue) else None,
                m.hostPorts,
                StatusMatchers(L, m.statusCodes),
                HeaderRegexes(m.requestHeaders),
                HeaderRegexes(m.responseHeaders),
                BodyRegexOf(m.requestBody),
                BodyRegexOf(m.responseBody),
                ActionRegexes(rule.actions)))
  }

  // ----- Matching -----

  function DefaultPortForScheme(scheme: string): nat {
    if scheme in ["https", "wss"] then 443
    else if scheme in ["http", "ws"] then 80
    else 0
  }

  predicate MatchesUrl(L: Libs, m: Matcher, e: CompiledEntry, url: string) {
    match m.urlOp
    case UrlAny => true
    case UrlContains => Contains(url, m.urlValue)
    case UrlEquals => url == m.urlValue
    case UrlStartsWith => m.urlValue <= url
    case UrlEndsWith => |m.urlValue| <= |url| && url[|url| - |m.urlValue|..] == m.urlValue
    case UrlRegex => e.urlRegex.Some? && L.regexMatch(e.urlRegex.value, url)
    case UrlWildcard => e.urlGlob.Some? && L.globMatch(e.urlGlob.value, url)
  }

  predicate MatchesHostPort(L: Libs, m: Matcher, e: CompiledEntry, url: Url) {
    m.hostPorts == [] ||
    var host := if url.host.Some? then url.host.value else "";
    var port := if url.port.Some? then url.port.value else DefaultPortForScheme(url.scheme);
    exists g | g in e.hostGlobs :: L.globMatch(g, host + ":" + L.portText(port)) || L.globMatch(g, host)
  }

  predicate HeaderCondMatches(L: Libs, c: HeaderCond, re: Option<string>, headers: HeaderList) {
    var values := Lookup(headers, c.name);
    match c.op
    case HeaderExists => values != []
    case HeaderAbsent => values == []
    case HeaderEquals => c.value.Some? && c.value.value in values
    case HeaderContains => c.value.Some? && exists v | v in values :: Contains(v, c.value.value)
    case HeaderRegex => re.Some? && exists v | v in values :: L.regexMatch(re.value, v)
  }

  /// The conditions are zipped with their regexes.
  predicate AllHeaderConds(L: Libs, conds: seq<HeaderCond>, regexes: seq<Option<string>>, headers: HeaderList) {
    forall i | 0 <= i < |conds| && i < |regexes| :: HeaderCondMatches(L, conds[i], regexes[i], headers)
  }

  predicate BodyCondMatches(L: Libs, cond: Option<BodyCond>, re: Option<string>, body: Option<Bytes>) {
    cond.None? ||
    var text := if body.Some? then L.lossyText(body.value) else "";
    match cond.value.op
    case BodyContains => Contains(text, cond.value.value)
    case BodyEquals => text == cond.value.value
    case BodyRegex => re.Some? && L.regexMatch(re.value, text)
  }

  /// The request half of a rule's matcher, body condition aside.
  predicate MatchesRequestHead(L: Libs, c: Compiled, verb: string, url: Url, headers: HeaderList, kind: ResourceType) {
    var m := c.0.matcher;
    && MatchesUrl(L, m, c.1, L.printUrl(url))
    && (m.methods == [] || exists x | x in m.methods :: SameName(x, verb))
    && MatchesHostPort(L, m, c.1, url)
    && (m.resourceTypes == [] || kind in m.resourceTypes)
    && AllHeaderConds(L, m.requestHeaders, c.1.requestHeaderRegex, headers)
  }

  /// `matches_request`.
  predicate MatchesRequest(L: Libs, c: Compiled, verb: string, url: Url, headers: HeaderList,
                           body: Option<Bytes>, kind: ResourceType, probe: bool) {
    MatchesRequestHead(L, c, verb, url, headers, kind) &&
    (probe || BodyCondMatches(L, c.0.matcher.requestBody, c.1.requestBodyRegex, body))
  }

  // ----- Pieces shared by the two phases -----

  function IsCaptureDigit(c: char): bool {
    '1' <= c <= '9'
  }

  /// `substitute_captures`.
  function SubstituteCaptures(template: string, caps: Option<seq<Option<string>>>): string {
    if caps.None? || template == [] then template
    else if template[0] == '$' && |template| > 1 && IsCaptureDigit(template[1]) then
      var idx := template[1] as int - '0' as int;
      (if idx < |caps.value| && caps.value[idx].Some? then caps.value[idx].value else [])
      + SubstituteCaptures(template[2..], caps)
    else [template[0]] + SubstituteCaptures(template[1..], caps)
  }

  /// `apply_find_replace`.
  function FindReplace(L: Libs, text: string, find: string, replace: string, regex: bool, re: Option<string>): string {
    if !regex then L.replaceText(text, find, replace)
    else if re.Some? then L.regexReplace(re.value, text, replace)
    else text
  }

  /// The query pairs under other names.
  function OtherPairs(pairs: seq<(string, string)>, name: string): seq<(string, string)> {
    Filter((p: (string, string)) => p.0 != name, pairs)
  }

  /// `decode_payload_encoding`.
  function DecodePayload(body: string, encoding: Encoding): Bytes {
    match encoding
    case Text => Utf8.Encode(body)
    case Base64Text =>
      var b := Base64.Decode(body);
      if b.Some? then b.value else []
  }

  /// A find-and-replace over a body; `None` when it leaves the body alone.
  function ReplacedBody(L: Libs, body: Option<Bytes>, find: string, replace: string, regex: bool, re: Option<string>)
    : Option<Bytes>
  {
    if body.None? then None
    else
      var text := L.lossyText(body.value);
      var replaced := FindReplace(L, text, find, replace, regex, re);
      if replaced == text then None else Some(Utf8.Encode(replaced))
  }

  /// `apply_json_ops`; `None` when the body is not JSON or is missing.
  function PatchedBody(L: Libs, body: Option<Bytes>, ops: seq<JsonEdit.JsonOp>): Option<Bytes> {
    if body.None? then None
    else
      var j := L.parseJson(body.value);
      if j.None? then None else Some(L.printJson(JsonEdit.ApplyOps(j.value, ops)))
  }

  /// The most restrictive of two throttles.
  function TighterThrottle(existing: Option<nat>, bps: nat): Option<nat> {
    if existing.Some? then Some(Min(existing.value, bps)) else Some(bps)
  }

  /// `rules.iter().zip(compiled.iter())`.
  function Zip<A, B>(a: seq<A>, b: seq<B>): (r: seq<(A, B)>)
    ensures |r| == Min(|a|, |b|)
  {
    seq(Min(|a|, |b|), i requires 0 <= i < |a| && i < |b| => (a[i], b[i]))
  }

  predicate TouchesRequestBody(a: Action) {
    a.SetRequestBody? || a.ReplaceInRequestBody? || a.JsonPatchRequest?
  }

  predicate TouchesResponseBody(a: Action) {
    a.SetResponseBody? || a.ReplaceInResponseBody? || a.JsonPatchResponse?
  }

  /// The rule reads or writes the request body.
  predicate WantsRequestBody(rule: Rule) {
    rule.matcher.requestBody.Some? || exists a | a in rule.actions :: TouchesRequestBody(a)
  }

  /// The rule reads or writes the response body.
  predicate WantsResponseBody(rule: Rule) {
    rule.matcher.responseBody.Some? || exists a | a in rule.actions :: TouchesResponseBody(a)
  }
}
