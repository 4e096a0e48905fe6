/// The two phases of `RuleSet` in `crates/hamsy-core/src/rule.rs`, and why the
/// probes that decide about buffering a body can be believed.

module RuleEngine {
  import opened Common
  import opened Headers
  import opened Rules

  datatype Mocked = Mocked(status: nat, headers: HeaderList, body: Bytes, delayMs: nat)

  /// The variables that `apply_request_inner` rewrites as it goes.
  datatype RequestState = RequestState(
    verb: string,
    url: Url,
    headers: HeaderList,
    body: Option<Bytes>,
    matched: seq<string>,
    modified: bool,
    blocked: Option<string>,
    mocked: Option<Mocked>,
    delay: nat,
    throttle: Option<nat>)
  {
    predicate Stopped() {
      blocked.Some? || mocked.Some?
    }
  }

  /// The variables that `apply_response_inner` rewrites as it goes.
  datatype ResponseState = ResponseState(
    status: nat,
    headers: HeaderList,
    body: Option<Bytes>,
    matched: seq<string>,
    modified: bool,
    delay: nat,
    throttle: Option<nat>,
    shortCircuit: bool)

  datatype RequestCtx = RequestCtx(verb: string, url: Url, headers: HeaderList, body: Option<Bytes>, kind: ResourceType)

  // ----- Request phase -----

  function StartRequest(ctx: RequestCtx): RequestState {
    RequestState(ctx.verb, ctx.url, ctx.headers, ctx.body, [], false, None, None, 0, None)
  }

  function CapturesOf(L: Libs, c: Compiled, url: Url): Option<seq<Option<string>>> {
    if c.0.matcher.urlOp.UrlRegex? && c.1.urlRegex.Some?
    then L.regexCaptures(c.1.urlRegex.value, L.printUrl(url)) else None
  }

  function MovedTo(L: Libs, st: RequestState, target: string): RequestState {
    var parsed := L.parseUrl(target);
    if parsed.None? then st else st.(url := parsed.value, modified := true)
  }

  function WithBody(st: RequestState, body: Option<Bytes>): RequestState {
    if body.None? then st else st.(body := body, modified := true)
  }

  /// One arm of the `match` in `apply_request_inner`.
  function RequestAction(L: Libs, a: Action, re: Option<string>, caps: Option<seq<Option<string>>>, st: RequestState)
    : RequestState
  {
    match a
    case Redirect(to) => MovedTo(L, st, SubstituteCaptures(to, caps))
    case RewriteUrl(find, replace, regex) =>
      var current := L.printUrl(st.url);
      var updated := FindReplace(L, current, find, SubstituteCaptures(replace, caps), regex, re);
      if updated == current then st else MovedTo(L, st, updated)
    case SetQueryParam(name, value) =>
      st.(url := L.withQuery(st.url, OtherPairs(L.queryPairs(st.url), name) + [(name, value)]), modified := true)
    case RemoveQueryParam(name) =>
      var pairs := L.queryPairs(st.url);
      var kept := OtherPairs(pairs, name);
      if |kept| == |pairs| then st
      else st.(url := if kept == [] then st.url.(query := None) else L.withQuery(st.url, kept), modified := true)
    case SetRequestHeader(name, value) => st.(headers := SetHeader(st.headers, name, value), modified := true)
    case RemoveRequestHeader(name) =>
      var kept := RemoveHeader(st.headers, name);
      if |kept| == |st.headers| then st.(headers := kept) else st.(headers := kept, modified := true)
    case SetRequestBody(body, encoding, contentType) =>
      st.(body := Some(DecodePayload(body, encoding)),
          headers := if contentType.Some? then SetHeader(st.headers, "Content-Type", contentType.value) else st.headers,
          modified := true)
    case ReplaceInRequestBody(find, replace, regex) =>
      WithBody(st, ReplacedBody(L, st.body, find, replace, regex, re))
    case JsonPatchRequest(ops) => WithBody(st, PatchedBody(L, st.body, ops))
    case MockResponse(status, headers, body, encoding, delayMs) =>
      st.(mocked := Some(Mocked(status, headers, DecodePayload(body, encoding), delayMs)), modified := true)
    case SetMethod(m) => st.(verb := m, modified := true)
    case Block(reason) => st.(blocked := Some(if reason == "" then "blocked by rule" else reason), modified := true)
    case Delay(ms) => st.(delay := SatAdd(st.delay, ms))
    case Throttle(bps) => st.(throttle := TighterThrottle(st.throttle, bps))
    case SetResponseHeader(_, _) => st
    case RemoveResponseHeader(_) => st
    case SetResponseBody(_, _, _) => st
    case ReplaceInResponseBody(_, _, _) => st
    case JsonPatchResponse(_) => st
    case SetStatus(_) => st
  }

  function RequestActions(L: Libs, acts: seq<(Action, Option<string>)>, caps: Option<seq<Option<string>>>, st: RequestState)
    : RequestState
    decreases |acts|
  {
    if acts == [] then st
    else RequestActions(L, acts[1..], caps, RequestAction(L, acts[0].0, acts[0].1, caps, st))
  }

  /// What a matching rule does in the request phase.
  function RequestRule(L: Libs, c: Compiled, st: RequestState): RequestState {
    RequestActions(L, Zip(c.0.actions, c.1.actionRegex), CapturesOf(L, c, st.url), st.(matched := st.matched + [c.0.id]))
  }

  predicate RequestMatches(L: Libs, c: Compiled, st: RequestState, kind: ResourceType, probe: bool) {
    MatchesRequest(L, c, st.verb, st.url, st.headers, st.body, kind, probe)
  }

  /// The rule loop of `apply_request_inner`; the flag is `needs_body`.
  function RequestRules(L: Libs, rules: seq<Compiled>, kind: ResourceType, st: RequestState, probe: bool)
    : (RequestState, bool)
    decreases |rules|
  {
    if rules == [] then (st, false)
    else
      var c := rules[0];
      if !RequestMatches(L, c, st, kind, probe) then RequestRules(L, rules[1..], kind, st, probe)
      else if probe && WantsRequestBody(c.0) then (st, true)
      else
        var after := RequestRule(L, c, st);
        if after.Stopped() then (after, false) else RequestRules(L, rules[1..], kind, after, probe)
  }

  /// Some rule with a request-body condition matches otherwise.
  predicate BodyConditionReachable(L: Libs, rules: seq<Compiled>, verb: string, url: Url, headers: HeaderList, kind: ResourceType) {
    exists c | c in rules ::
      c.0.matcher.requestBody.Some? && MatchesRequestHead(L, c, verb, url, headers, kind)
  }

  /// `apply_request_inner`.
  function ApplyRequestInner(L: Libs, rules: seq<Compiled>, ctx: RequestCtx, probe: bool): (RequestState, bool) {
    var (st, needs) := RequestRules(L, rules, ctx.kind, StartRequest(ctx), probe);
    (st, needs || (probe && !st.Stopped() && BodyConditionReachable(L, rules, st.verb, st.url, st.headers, ctx.kind)))
  }

  function ApplyRequest(L: Libs, rules: seq<Compiled>, ctx: RequestCtx): RequestState {
    ApplyRequestInner(L, rules, ctx, false).0
  }

  predicate NeedsRequestBody(L: Libs, rules: seq<Compiled>, ctx: RequestCtx) {
    ApplyRequestInner(L, rules, ctx, true).1
  }

  /// The action loop, run in place.
  method RunRequestActions(L: Libs, c: Compiled, start: RequestState) returns (st: RequestState)
    ensures st == RequestRule(L, c, start)
  {
    var caps := CapturesOf(L, c, start.url);
    var acts := Zip(c.0.actions, c.1.actionRegex);
    st := start.(matched := start.matched + [c.0.id]);
    for i := 0 to |acts|
      invariant RequestActions(L, acts[i..], caps, st) == RequestRule(L, c, start)
    {
      st := RequestAction(L, acts[i].0, acts[i].1, caps, st);
      assert acts[i..][1..] == acts[i + 1..];
    }
  }

  /// `apply_request_inner` as the source runs it: a loop that stops at the
  /// first needed body, block or mock.
  method RunRequest(L: Libs, rules: seq<Compiled>, ctx: RequestCtx, probe: bool) returns (st: RequestState, needs: bool)
    ensures (st, needs) == ApplyRequestInner(L, rules, ctx, probe)
  {
    st, needs := StartRequest(ctx), false;
    var i := 0;
    while i < |rules|
      invariant i <= |rules|
      invariant RequestRules(L, rules[i..], ctx.kind, st, probe) ==
                RequestRules(L, rules, ctx.kind, StartRequest(ctx), probe)
    {
      var c := rules[i];
      assert rules[i..][1..] == rules[i + 1..];
      if RequestMatches(L, c, st, ctx.kind, probe) {
        if probe && WantsRequestBody(c.0) {
          needs := true;
          break;
        }
        st := RunRequestActions(L, c, st);
        if st.Stopped() {
          break;
        }
      }
      i := i + 1;
    }
    if probe && !needs && !st.Stopped() {
      needs := BodyConditionReachable(L, rules, st.verb, st.url, st.headers, ctx.kind);
    }
  }

  // ----- The request probe -----

  lemma ActionIgnoresBody(L: Libs, a: Action, re: Option<string>, caps: Option<seq<Option<string>>>,
                          st: RequestState, body: Option<Bytes>)
    requires !TouchesRequestBody(a)
    ensures RequestAction(L, a, re, caps, st.(body := body)) == RequestAction(L, a, re, caps, st).(body := body)
  {
  }

  /// Actions that do not touch the body commute with supplying one.
  lemma {:induction false} ActionsIgnoreBody(L: Libs, acts: seq<(Action, Option<string>)>,
                                             caps: Option<seq<Option<string>>>, st: RequestState, body: Option<Bytes>)
    requires forall p | p in acts :: !TouchesRequestBody(p.0)
    ensures RequestActions(L, acts, caps, st.(body := body)) == RequestActions(L, acts, caps, st).(body := body)
    decreases |acts|
  {
    if acts != [] {
      assert !TouchesRequestBody(acts[0].0);
      var next := RequestAction(L, acts[0].0, acts[0].1, caps, st);
      ActionIgnoresBody(L, acts[0].0, acts[0].1, caps, st, body);
      ActionsIgnoreBody(L, acts[1..], caps, next, body);
    }
  }

  lemma {:induction false} ProbeRunIsSound(L: Libs, rules: seq<Compiled>, kind: ResourceType, st: RequestState, body: Option<Bytes>)
    requires !RequestRules(L, rules, kind, st, true).1
    ensures RequestRules(L, rules, kind, st.(body := body), false) ==
            (RequestRules(L, rules, kind, st, true).0.(body := body), false)
    decreases |rules|
  {
    if rules != [] {
      var c := rules[0];
      if !RequestMatches(L, c, st, kind, true) {
        ProbeRunIsSound(L, rules[1..], kind, st, body);
      } else {
        var acts := Zip(c.0.actions, c.1.actionRegex);
        ActionsIgnoreBody(L, acts, CapturesOf(L, c, st.url), st.(matched := st.matched + [c.0.id]), body);
        var after := RequestRule(L, c, st);
        assert RequestRule(L, c, st.(body := body)) == after.(body := body);
        if !after.Stopped() {
          ProbeRunIsSound(L, rules[1..], kind, after, body);
        }
      }
    }
  }

  /// A probe that asks for no body can be believed: with any body at all the
  /// request phase comes out as without one, and hands the body back as it was.
  lemma RequestProbeIsSound(L: Libs, rules: seq<Compiled>, ctx: RequestCtx, body: Option<Bytes>)
    requires !NeedsRequestBody(L, rules, ctx.(body := None))
    ensures ApplyRequest(L, rules, ctx.(body := body)) == ApplyRequest(L, rules, ctx.(body := None)).(body := body)
    ensures ApplyRequest(L, rules, ctx.(body := None)).body == None
  {
    var st := StartRequest(ctx.(body := None));
    ProbeRunIsSound(L, rules, ctx.kind, st, body);
    ProbeRunIsSound(L, rules, ctx.kind, st, None);
  }

  /// Started in `st`, the rules before `k` run to the end without a stop, and
  /// rule `k` both matches, its body condition aside, and wants the body.
  predicate WantsAt(L: Libs, rules: seq<Compiled>, kind: ResourceType, st: RequestState, k: nat)
    requires k < |rules|
  {
    var (at, needs) := RequestRules(L, rules[..k], kind, st, true);
    && !needs && !at.Stopped() && RequestMatches(L, rules[k], at, kind, true)
    && (rules[k].0.matcher.requestBody.Some? ||
        exists a | a in rules[k].0.actions :: a.SetRequestBody? || a.ReplaceInRequestBody? || a.JsonPatchRequest?)
  }

  lemma WantsAtLater(L: Libs, rules: seq<Compiled>, kind: ResourceType, st: RequestState, k: nat)
    requires 0 < k < |rules| && !st.Stopped()
    requires !WantsAt(L, rules, kind, st, 0)
    ensures var after := if RequestMatches(L, rules[0], st, kind, true) then RequestRule(L, rules[0], st) else st;
            WantsAt(L, rules, kind, st, k) <==> !after.Stopped() && WantsAt(L, rules[1..], kind, after, k - 1)
  {
    assert RequestRules(L, rules[..0], kind, st, true) == (st, false);
    assert rules[..k][0] == rules[0] && rules[..k][1..] == rules[1..][..k - 1];
  }

  lemma {:induction false} ProbeStopsAtWant(L: Libs, rules: seq<Compiled>, kind: ResourceType, st: RequestState)
    requires !st.Stopped()
    ensures RequestRules(L, rules, kind, st, true).1 <==> exists k: nat | k < |rules| :: WantsAt(L, rules, kind, st, k)
    decreases |rules|
  {
    if rules != [] {
      var c, later := rules[0], rules[1..];
      assert RequestRules(L, rules[..0], kind, st, true) == (st, false);
      if !WantsAt(L, rules, kind, st, 0) {
        var after := if RequestMatches(L, c, st, kind, true) then RequestRule(L, c, st) else st;
        forall k: nat | 0 < k < |rules| { WantsAtLater(L, rules, kind, st, k); }
        if !after.Stopped() {
          ProbeStopsAtWant(L, later, kind, after);
          assert forall k: nat | k < |later| :: WantsAt(L, later, kind, after, k) ==> WantsAt(L, rules, kind, st, k + 1);
        }
      }
    }
  }

  /// The probe asks for the body exactly when execution reaches a rule that
  /// wants it, or ends unstopped where some body condition has become reachable.
  lemma RequestProbeIsExact(L: Libs, rules: seq<Compiled>, ctx: RequestCtx)
    ensures NeedsRequestBody(L, rules, ctx) <==>
            || (exists k: nat | k < |rules| :: WantsAt(L, rules, ctx.kind, StartRequest(ctx), k))
            || (var st := RequestRules(L, rules, ctx.kind, StartRequest(ctx), true).0;
                !st.Stopped() && BodyConditionReachable(L, rules, st.verb, st.url, st.headers, ctx.kind))
  {
    ProbeStopsAtWant(L, rules, ctx.kind, StartRequest(ctx));
  }

  // ----- Response phase -----

  /// `matches_response`.
  predicate MatchesResponse(L: Libs, c: Compiled, req: RequestCtx, st: ResponseState, probe: bool) {
    && MatchesRequest(L, c, req.verb, req.url, req.headers, req.body, req.kind, false)
    && (c.0.matcher.statusCodes == [] || exists sm | sm in c.1.statusMatchers :: sm.Matches(st.status))
    && AllHeaderConds(L, c.0.matcher.responseHeaders, c.1.responseHeaderRegex, st.headers)
    && (probe || BodyCondMatches(L, c.0.matcher.responseBody, c.1.responseBodyRegex, st.body))
  }

  function WithResponseBody(st: ResponseState, body: Option<Bytes>): ResponseState {
    if body.None? then st else st.(body := body, modified := true)
  }

  /// One arm of the `match` in `apply_response_inner`.
  function ResponseAction(L: Libs, a: Action, re: Option<string>, st: ResponseState): ResponseState {
    match a
    case SetResponseHeader(name, value) => st.(headers := SetHeader(st.headers, name, value), modified := true)
    case RemoveResponseHeader(name) =>
      var kept := RemoveHeader(st.headers, name);
      if |kept| == |st.headers| then st.(headers := kept) else st.(headers := kept, modified := true)
    case SetResponseBody(body, encoding, contentType) =>
      st.(body := Some(DecodePayload(body, encoding)),
          headers := if contentType.Some? then SetHeader(st.headers, "Content-Type", contentType.value) else st.headers,
          modified := true)
    case ReplaceInResponseBody(find, replace, regex) =>
      WithResponseBody(st, ReplacedBody(L, st.body, find, replace, regex, re))
    case JsonPatchResponse(ops) => WithResponseBody(st, PatchedBody(L, st.body, ops))
    case SetStatus(status) => st.(status := status, modified := true)
    case Delay(ms) => st.(delay := SatAdd(st.delay, ms))
    case Throttle(bps) => st.(throttle := TighterThrottle(st.throttle, bps))
    case Block(_) => st.(shortCircuit := true)
    case _ => st
  }

  function ResponseActions(L: Libs, acts: seq<(Action, Option<string>)>, st: ResponseState): ResponseState
    decreases |acts|
  {
    if acts == [] then st else ResponseActions(L, acts[1..], ResponseAction(L, acts[0].0, acts[0].1, st))
  }

  function ResponseRule(L: Libs, c: Compiled, st: ResponseState): ResponseState {
    ResponseActions(L, Zip(c.0.actions, c.1.actionRegex), st.(matched := st.matched + [c.0.id]))
  }

  /// The rule loop of `apply_response_inner`; the flag is `needs_body`.
  function ResponseRules(L: Libs, rules: seq<Compiled>, req: RequestCtx, st: ResponseState, probe: bool)
    : (ResponseState, bool)
    decreases |rules|
  {
    if rules == [] then (st, false)
    else
      var c := rules[0];
      if !MatchesResponse(L, c, req, st, probe) then ResponseRules(L, rules[1..], req, st, probe)
      else if probe && WantsResponseBody(c.0) then (st, true)
      else
        var after := ResponseRule(L, c, st);
        if after.shortCircuit then (after, false) else ResponseRules(L, rules[1..], req, after, probe)
  }

  function StartResponse(status: nat, headers: HeaderList, body: Option<Bytes>): ResponseState {
    ResponseState(status, headers, body, [], false, 0, None, false)
  }

  /// `apply_response`.
  function ApplyResponse(L: Libs, rules: seq<Compiled>, req: RequestCtx, status: nat, headers: HeaderList, body: Option<Bytes>)
    : ResponseState
  {
    ResponseRules(L, rules, req, StartResponse(status, headers, body), false).0
  }

  /// `needs_response_body`.
  predicate NeedsResponseBody(L: Libs, rules: seq<Compiled>, req: RequestCtx, status: nat, headers: HeaderList) {
    ResponseRules(L, rules, req, StartResponse(status, headers, None), true).1
  }

  /// The action loop of the response phase, run in place.
  method RunResponseActions(L: Libs, c: Compiled, start: ResponseState) returns (st: ResponseState)
    ensures st == ResponseRule(L, c, start)
  {
    var acts := Zip(c.0.actions, c.1.actionRegex);
    st := start.(matched := start.matched + [c.0.id]);
    for i := 0 to |acts|
      invariant ResponseActions(L, acts[i..], st) == ResponseRule(L, c, start)
    {
      st := ResponseAction(L, acts[i].0, acts[i].1, st);
      assert acts[i..][1..] == acts[i + 1..];
    }
  }

  /// `apply_response_inner` as the source runs it.
  method RunResponse(L: Libs, rules: seq<Compiled>, req: RequestCtx, start: ResponseState, probe: bool)
    returns (st: ResponseState, needs: bool)
    ensures (st, needs) == ResponseRules(L, rules, req, start, probe)
  {
    st, needs := start, false;
    var i := 0;
    while i < |rules|
      invariant i <= |rules|
      invariant ResponseRules(L, rules[i..], req, st, probe) == ResponseRules(L, rules, req, start, probe)
    {
      var c := rules[i];
      assert rules[i..][1..] == rules[i + 1..];
      if MatchesResponse(L, c, req, st, probe) {
        if probe && WantsResponseBody(c.0) {
          needs := true;
          return;
        }
        st := RunResponseActions(L, c, st);
        if st.shortCircuit {
          return;
        }
      }
      i := i + 1;
    }
  }

  lemma {:induction false} ResponseActionsIgnoreBody(L: Libs, acts: seq<(Action, Option<string>)>, st: ResponseState, body: Option<Bytes>)
    requires forall p | p in acts :: !TouchesResponseBody(p.0)
    ensures ResponseActions(L, acts, st.(body := body)) == ResponseActions(L, acts, st).(body := body)
    decreases |acts|
  {
    if acts != [] {
      assert !TouchesResponseBody(acts[0].0);
      var next := ResponseAction(L, acts[0].0, acts[0].1, st);
      assert ResponseAction(L, acts[0].0, acts[0].1, st.(body := body)) == next.(body := body);
      ResponseActionsIgnoreBody(L, acts[1..], next, body);
    }
  }

  lemma {:induction false} ResponseProbeRun(L: Libs, rules: seq<Compiled>, req: RequestCtx, st: ResponseState, body: Option<Bytes>)
    requires !ResponseRules(L, rules, req, st, true).1
    ensures ResponseRules(L, rules, req, st.(body := body), false) ==
            (ResponseRules(L, rules, req, st, true).0.(body := body), false)
    decreases |rules|
  {
    if rules != [] {
      var c := rules[0];
      if !MatchesResponse(L, c, req, st, true) {
        ResponseProbeRun(L, rules[1..], req, st, body);
      } else {
        var acts := Zip(c.0.actions, c.1.actionRegex);
        ResponseActionsIgnoreBody(L, acts, st.(matched := st.matched + [c.0.id]), body);
        var after := ResponseRule(L, c, st);
        assert ResponseRule(L, c, st.(body := body)) == after.(body := body);
        if !after.shortCircuit {
          ResponseProbeRun(L, rules[1..], req, after, body);
        }
      }
    }
  }

  /// The response probe can be believed: when it asks for no body, every
  /// output but the body itself is independent of the response body.
  lemma ResponseProbeIsSound(L: Libs, rules: seq<Compiled>, req: RequestCtx, status: nat, headers: HeaderList, body: Option<Bytes>)
    requires !NeedsResponseBody(L, rules, req, status, headers)
    ensures ApplyResponse(L, rules, req, status, headers, body) ==
            ApplyResponse(L, rules, req, status, headers, None).(body := body)
    ensures ApplyResponse(L, rules, req, status, headers, None).body == None
  {
    var st := StartResponse(status, headers, None);
    ResponseProbeRun(L, rules, req, st, body);
    ResponseProbeRun(L, rules, req, st, None);
  }

  /// Started in `st`, the rules before `k` run to the end without a block, and
  /// rule `k` both matches, its body condition aside, and reads or writes the body.
  predicate WantsResponseAt(L: Libs, rules: seq<Compiled>, req: RequestCtx, st: ResponseState, k: nat)
    requires k < |rules|
  {
    var (at, needs) := ResponseRules(L, rules[..k], req, st, true);
    && !needs && !at.shortCircuit && MatchesResponse(L, rules[k], req, at, true)
    && (rules[k].0.matcher.responseBody.Some? ||
        exists a | a in rules[k].0.actions :: a.SetResponseBody? || a.ReplaceInResponseBody? || a.JsonPatchResponse?)
  }

  lemma WantsResponseLater(L: Libs, rules: seq<Compiled>, req: RequestCtx, st: ResponseState, k: nat)
    requires 0 < k < |rules| && !st.shortCircuit
    requires !WantsResponseAt(L, rules, req, st, 0)
    ensures var after := if MatchesResponse(L, rules[0], req, st, true) then ResponseRule(L, rules[0], st) else st;
            WantsResponseAt(L, rules, req, st, k) <==> !after.shortCircuit && WantsResponseAt(L, rules[1..], req, after, k - 1)
  {
    assert ResponseRules(L, rules[..0], req, st, true) == (st, false);
    assert rules[..k][0] == rules[0] && rules[..k][1..] == rules[1..][..k - 1];
  }

  lemma {:induction false} ResponseStopsAtWant(L: Libs, rules: seq<Compiled>, req: RequestCtx, st: ResponseState)
    requires !st.shortCircuit
    ensures ResponseRules(L, rules, req, st, true).1 <==> exists k: nat | k < |rules| :: WantsResponseAt(L, rules, req, st, k)
    decreases |rules|
  {
    if rules != [] {
      var c, later := rules[0], rules[1..];
      assert ResponseRules(L, rules[..0], req, st, true) == (st, false);
      if !WantsResponseAt(L, rules, req, st, 0) {
        var after := if MatchesResponse(L, c, req, st, true) then ResponseRule(L, c, st) else st;
        forall k: nat | 0 < k < |rules| { WantsResponseLater(L, rules, req, st, k); }
        if !after.shortCircuit {
          ResponseStopsAtWant(L, later, req, after);
          assert forall k: nat | k < |later| :: WantsResponseAt(L, later, req, after, k) ==> WantsResponseAt(L, rules, req, st, k + 1);
        }
      }
    }
  }

  /// The response probe asks for the body exactly when execution reaches a rule
  /// that matches otherwise and reads or writes it.
  lemma ResponseProbeIsExact(L: Libs, rules: seq<Compiled>, req: RequestCtx, status: nat, headers: HeaderList)
    ensures NeedsResponseBody(L, rules, req, status, headers) <==>
            exists k: nat | k < |rules| :: WantsResponseAt(L, rules, req, StartResponse(status, headers, None), k)
  {
    ResponseStopsAtWant(L, rules, req, StartResponse(status, headers, None));
  }

  // ----- The response phase and the request body -----

  /// With no body condition reachable, the response phase cannot tell which
  /// request body it was given, in probe mode or not.
  lemma {:induction false} ResponseIgnoresRequestBody(L: Libs, rules: seq<Compiled>, req: RequestCtx, body: Option<Bytes>,
                                                      st: ResponseState, probe: bool)
    requires !BodyConditionReachable(L, rules, req.verb, req.url, req.headers, req.kind)
    ensures ResponseRules(L, rules, req.(body := body), st, probe) == ResponseRules(L, rules, req, st, probe)
    decreases |rules|
  {
    if rules != [] {
      var c := rules[0];
      assert c in rules;
      assert forall d | d in rules[1..] :: d in rules;
      assert MatchesResponse(L, c, req.(body := body), st, probe) == MatchesResponse(L, c, req, st, probe);
      var next := if MatchesResponse(L, c, req, st, probe) then ResponseRule(L, c, st) else st;
      ResponseIgnoresRequestBody(L, rules[1..], req, body, next, probe);
    }
  }

  /// The response phase needs no withheld request body: once the request
  /// probe has asked for none and nothing was blocked or mocked, the response
  /// phase on the outcome's method, URL and headers is the same with the
  /// request body supplied or missing, whatever the response is.
  lemma ResponsePhaseNeedsNoWithheldBody(L: Libs, rules: seq<Compiled>, ctx: RequestCtx, body: Option<Bytes>,
                                         st: ResponseState, probe: bool)
    requires !NeedsRequestBody(L, rules, ctx.(body := None))
    requires !ApplyRequest(L, rules, ctx.(body := None)).Stopped()
    ensures var o := ApplyRequest(L, rules, ctx.(body := None));
            ResponseRules(L, rules, RequestCtx(o.verb, o.url, o.headers, body, ctx.kind), st, probe) ==
            ResponseRules(L, rules, RequestCtx(o.verb, o.url, o.headers, None, ctx.kind), st, probe)
  {
    ProbeRunIsSound(L, rules, ctx.kind, StartRequest(ctx.(body := None)), None);
    var o := ApplyRequest(L, rules, ctx.(body := None));
    ResponseIgnoresRequestBody(L, rules, RequestCtx(o.verb, o.url, o.headers, None, ctx.kind), body, st, probe);
  }

  // ----- What the matched rules add up to -----

  /// Every action that ran in the request phase, in order.
  function Fired(L: Libs, rules: seq<Compiled>, kind: ResourceType, st: RequestState): seq<Action>
    decreases |rules|
  {
    if rules == [] then []
    else
      var c := rules[0];
      if !RequestMatches(L, c, st, kind, false) then Fired(L, rules[1..], kind, st)
      else
        var after := RequestRule(L, c, st);
        FiredBy(c) + if after.Stopped() then [] else Fired(L, rules[1..], kind, after)
  }

  /// The actions of one matched rule.
  function FiredBy(c: Compiled): seq<Action> {
    FirstActions(Zip(c.0.actions, c.1.actionRegex))
  }

  function FirstActions(acts: seq<(Action, Option<string>)>): seq<Action> {
    if acts == [] then [] else [acts[0].0] + FirstActions(acts[1..])
  }

  function Delays(actions: seq<Action>): seq<nat> {
    if actions == [] then []
    else (if actions[0].Delay? then [actions[0].ms] else []) + Delays(actions[1..])
  }

  /// The smallest of the throttles and `least`.
  function LeastThrottle(actions: seq<Action>, least: Option<nat>): Option<nat> {
    if actions == [] then least
    else LeastThrottle(actions[1..], if actions[0].Throttle? then TighterThrottle(least, actions[0].bytesPerSec) else least)
  }

  lemma {:induction false} LeastThrottleIsLeast(actions: seq<Action>, least: Option<nat>)
    ensures forall a | a in actions && a.Throttle? ::
              LeastThrottle(actions, least).Some? && LeastThrottle(actions, least).value <= a.bytesPerSec
    ensures least.Some? ==> LeastThrottle(actions, least).Some? && LeastThrottle(actions, least).value <= least.value
    ensures LeastThrottle(actions, least) == least ||
            exists a | a in actions :: a.Throttle? && LeastThrottle(actions, least) == Some(a.bytesPerSec)
  {
    if actions != [] {
      var a := actions[0];
      assert actions == [a] + actions[1..];
      LeastThrottleIsLeast(actions[1..], if a.Throttle? then TighterThrottle(least, a.bytesPerSec) else least);
    }
  }

  lemma {:induction false} ThrottleConcat(a: seq<Action>, b: seq<Action>, least: Option<nat>)
    ensures LeastThrottle(a + b, least) == LeastThrottle(b, LeastThrottle(a, least))
  {
    if a == [] {
      assert a + b == b;
    } else {
      assert (a + b)[1..] == a[1..] + b;
      ThrottleConcat(a[1..], b, if a[0].Throttle? then TighterThrottle(least, a[0].bytesPerSec) else least);
    }
  }

  lemma {:induction false} DelaysConcat(a: seq<Action>, b: seq<Action>)
    ensures Delays(a + b) == Delays(a) + Delays(b)
  {
    if a == [] {
      assert a + b == b;
    } else {
      assert (a + b)[1..] == a[1..] + b;
      DelaysConcat(a[1..], b);
    }
  }

  /// `after` differs from `before` by the delays and throttles in `fired`.
  predicate AddsUp(before: RequestState, fired: seq<Action>, after: RequestState) {
    && after.delay == Min(before.delay + Sum(Delays(fired)), U64_MAX)
    && after.throttle == LeastThrottle(fired, before.throttle)
  }

  lemma AddsUpJoin(before: RequestState, first: seq<Action>, mid: RequestState, second: seq<Action>, after: RequestState)
    requires AddsUp(before, first, mid) && AddsUp(mid, second, after)
    ensures AddsUp(before, first + second, after)
  {
    DelaysConcat(first, second);
    SumConcat(Delays(first), Delays(second));
    ThrottleConcat(first, second, before.throttle);
  }

  lemma ActionAddsUp(L: Libs, a: Action, re: Option<string>, caps: Option<seq<Option<string>>>, st: RequestState)
    requires st.delay <= U64_MAX
    ensures AddsUp(st, [a], RequestAction(L, a, re, caps, st))
  {
    OneAddsUp(a, st.throttle);
  }

  lemma OneAddsUp(a: Action, least: Option<nat>)
    ensures Sum(Delays([a])) == if a.Delay? then a.ms else 0
    ensures LeastThrottle([a], least) == if a.Throttle? then TighterThrottle(least, a.bytesPerSec) else least
  {
    assert [a][1..] == [];
    assert Delays([a]) == if a.Delay? then [a.ms] else [];
    assert a.Delay? ==> [a.ms][1..] == [];
  }

  lemma {:induction false} ActionsAddUp(L: Libs, acts: seq<(Action, Option<string>)>, caps: Option<seq<Option<string>>>, st: RequestState)
    requires st.delay <= U64_MAX
    ensures AddsUp(st, FirstActions(acts), RequestActions(L, acts, caps, st))
    decreases |acts|
  {
    if acts != [] {
      var next := RequestAction(L, acts[0].0, acts[0].1, caps, st);
      ActionAddsUp(L, acts[0].0, acts[0].1, caps, st);
      ActionsAddUp(L, acts[1..], caps, next);
      AddsUpJoin(st, [acts[0].0], next, FirstActions(acts[1..]), RequestActions(L, acts, caps, st));
    }
  }

  lemma RuleAddsUp(L: Libs, c: Compiled, st: RequestState)
    requires st.delay <= U64_MAX
    ensures AddsUp(st, FiredBy(c), RequestRule(L, c, st))
  {
    ActionsAddUp(L, Zip(c.0.actions, c.1.actionRegex), CapturesOf(L, c, st.url), st.(matched := st.matched + [c.0.id]));
  }

  lemma {:induction false} RulesAddUp(L: Libs, rules: seq<Compiled>, kind: ResourceType, st: RequestState)
    requires st.delay <= U64_MAX
    ensures AddsUp(st, Fired(L, rules, kind, st), RequestRules(L, rules, kind, st, false).0)
    decreases |rules|
  {
    if rules != [] {
      var c := rules[0];
      if !RequestMatches(L, c, st, kind, false) {
        RulesAddUp(L, rules[1..], kind, st);
      } else {
        var after := RequestRule(L, c, st);
        RuleAddsUp(L, c, st);
        if after.Stopped() {
          assert FiredBy(c) + [] == FiredBy(c);
        } else {
          RulesAddUp(L, rules[1..], kind, after);
          AddsUpJoin(st, FiredBy(c), after, Fired(L, rules[1..], kind, after),
                     RequestRules(L, rules[1..], kind, after, false).0);
        }
      }
    }
  }

  /// The reported delay is the saturated total of every delay that fired and
  /// the reported throttle is the smallest that fired, if any did.
  lemma DelayIsTotalThrottleIsLeast(L: Libs, rules: seq<Compiled>, ctx: RequestCtx)
    ensures var o, fired := ApplyRequest(L, rules, ctx), Fired(L, rules, ctx.kind, StartRequest(ctx));
            && o.delay == Min(Sum(Delays(fired)), U64_MAX)
            && (o.throttle.None? <==> forall a | a in fired :: !a.Throttle?)
            && (o.throttle.Some? ==> exists a | a in fired :: a.Throttle? && a.bytesPerSec == o.throttle.value)
            && (forall a | a in fired && a.Throttle? :: o.throttle.Some? && o.throttle.value <= a.bytesPerSec)
  {
    RulesAddUp(L, rules, ctx.kind, StartRequest(ctx));
    LeastThrottleIsLeast(Fired(L, rules, ctx.kind, StartRequest(ctx)), None);
  }
}
