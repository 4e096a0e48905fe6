/// What an outcome of `crates/hamsy-core/src/rule.rs` shows of the actions that
/// fired: the last edit of each thing wins, and nothing changes unflagged.

module RuleEffects {
  import opened Common
  import opened Headers
  import opened Rules
  import opened RuleEngine

  function Folded<S, T>(f: (S, T) -> S, s: S, items: seq<T>): S
    decreases |items|
  {
    if items == [] then s else Folded(f, f(s, items[0]), items[1..])
  }

  lemma {:induction false} FoldedConcat<S, T>(f: (S, T) -> S, s: S, a: seq<T>, b: seq<T>)
    ensures Folded(f, s, a + b) == Folded(f, Folded(f, s, a), b)
    decreases |a|
  {
    if a == [] {
      assert a + b == b;
    } else {
      assert (a + b)[1..] == a[1..] + b;
      FoldedConcat(f, f(s, a[0]), a[1..], b);
    }
  }

  // ----- One thing at a time -----

  function MethodAfter(verb: string, a: Action): string {
    if a.SetMethod? then a.newMethod else verb
  }

  function BlockAfter(reason: Option<string>, a: Action): Option<string> {
    if a.Block? then Some(if a.reason == "" then "blocked by rule" else a.reason) else reason
  }

  function MockAfter(mocked: bool, a: Action): bool {
    mocked || a.MockResponse?
  }

  /// The values of one request header.
  function RequestValues(name: string): (seq<string>, Action) -> seq<string> {
    (values: seq<string>, a: Action) =>
      match a
      case SetRequestHeader(n, v) => if SameName(n, name) then [v] else values
      case RemoveRequestHeader(n) => if SameName(n, name) then [] else values
      case SetRequestBody(_, _, Some(v)) => if SameName("Content-Type", name) then [v] else values
      case _ => values
  }

  function StatusAfter(status: nat, a: Action): nat {
    if a.SetStatus? then a.status else status
  }

  /// The values of one response header.
  function ResponseValues(name: string): (seq<string>, Action) -> seq<string> {
    (values: seq<string>, a: Action) =>
      match a
      case SetResponseHeader(n, v) => if SameName(n, name) then [v] else values
      case RemoveResponseHeader(n) => if SameName(n, name) then [] else values
      case SetResponseBody(_, _, Some(v)) => if SameName("Content-Type", name) then [v] else values
      case _ => values
  }

  // ----- The request phase -----

  /// What the two states show differs by what fired in between.
  predicate Follows(before: RequestState, fired: seq<Action>, after: RequestState, name: string) {
    && after.verb == Folded(MethodAfter, before.verb, fired)
    && after.blocked == Folded(BlockAfter, before.blocked, fired)
    && after.mocked.Some? == Folded(MockAfter, before.mocked.Some?, fired)
    && Lookup(after.headers, name) == Folded(RequestValues(name), Lookup(before.headers, name), fired)
  }

  lemma FollowsJoin(before: RequestState, a: seq<Action>, mid: RequestState, b: seq<Action>, after: RequestState, name: string)
    requires Follows(before, a, mid, name) && Follows(mid, b, after, name)
    ensures Follows(before, a + b, after, name)
  {
    FoldedConcat(MethodAfter, before.verb, a, b);
    FoldedConcat(BlockAfter, before.blocked, a, b);
    FoldedConcat(MockAfter, before.mocked.Some?, a, b);
    FoldedConcat(RequestValues(name), Lookup(before.headers, name), a, b);
  }

  lemma FoldedOne<S, T>(f: (S, T) -> S, s: S, a: T)
    ensures Folded(f, s, [a]) == f(s, a)
  {
    assert [a][1..] == [];
  }

  predicate EditsHeaders(a: Action) {
    a.SetRequestHeader? || a.RemoveRequestHeader? || a.SetRequestBody?
  }

  lemma OthersKeepHeaders(L: Libs, a: Action, re: Option<string>, caps: Option<seq<Option<string>>>, st: RequestState)
    requires !EditsHeaders(a)
    ensures RequestAction(L, a, re, caps, st).headers == st.headers
  {
  }

  lemma BodyTypeFollows(L: Libs, a: Action, re: Option<string>, caps: Option<seq<Option<string>>>, st: RequestState, name: string)
    requires a.SetRequestBody?
    ensures Lookup(RequestAction(L, a, re, caps, st).headers, name) == RequestValues(name)(Lookup(st.headers, name), a)
  {
    if a.contentType.Some? {
      LookupAfterSet(st.headers, "Content-Type", a.contentType.value, name);
    }
  }

  lemma HeadersFollow(L: Libs, a: Action, re: Option<string>, caps: Option<seq<Option<string>>>, st: RequestState, name: string)
    ensures Lookup(RequestAction(L, a, re, caps, st).headers, name) == RequestValues(name)(Lookup(st.headers, name), a)
  {
    if a.SetRequestHeader? {
      LookupAfterSet(st.headers, a.name, a.value, name);
    } else if a.RemoveRequestHeader? {
      LookupAfterRemove(st.headers, a.name, name);
    } else if a.SetRequestBody? {
      BodyTypeFollows(L, a, re, caps, st, name);
    } else {
      OthersKeepHeaders(L, a, re, caps, st);
    }
  }

  lemma ActionFollows(L: Libs, a: Action, re: Option<string>, caps: Option<seq<Option<string>>>, st: RequestState, name: string)
    ensures Follows(st, [a], RequestAction(L, a, re, caps, st), name)
  {
    HeadersFollow(L, a, re, caps, st, name);
    FoldedOne(MethodAfter, st.verb, a);
    FoldedOne(BlockAfter, st.blocked, a);
    FoldedOne(MockAfter, st.mocked.Some?, a);
    FoldedOne(RequestValues(name), Lookup(st.headers, name), a);
  }

  lemma {:induction false} ActionsFollow(L: Libs, acts: seq<(Action, Option<string>)>, caps: Option<seq<Option<string>>>,
                                         st: RequestState, name: string)
    ensures Follows(st, FirstActions(acts), RequestActions(L, acts, caps, st), name)
    decreases |acts|
  {
    if acts != [] {
      var next := RequestAction(L, acts[0].0, acts[0].1, caps, st);
      ActionFollows(L, acts[0].0, acts[0].1, caps, st, name);
      ActionsFollow(L, acts[1..], caps, next, name);
      FollowsJoin(st, [acts[0].0], next, FirstActions(acts[1..]), RequestActions(L, acts, caps, st), name);
    }
  }

  lemma RuleFollows(L: Libs, c: Compiled, st: RequestState, name: string)
    ensures Follows(st, FiredBy(c), RequestRule(L, c, st), name)
  {
    ActionsFollow(L, Zip(c.0.actions, c.1.actionRegex), CapturesOf(L, c, st.url), st.(matched := st.matched + [c.0.id]), name);
  }

  lemma {:induction false} RulesFollow(L: Libs, rules: seq<Compiled>, kind: ResourceType, st: RequestState, name: string)
    ensures Follows(st, Fired(L, rules, kind, st), RequestRules(L, rules, kind, st, false).0, name)
    decreases |rules|
  {
    if rules != [] {
      var c := rules[0];
      if !RequestMatches(L, c, st, kind, false) {
        RulesFollow(L, rules[1..], kind, st, name);
      } else {
        var after := RequestRule(L, c, st);
        RuleFollows(L, c, st, name);
        if after.Stopped() {
          assert FiredBy(c) + [] == FiredBy(c);
        } else {
          RulesFollow(L, rules[1..], kind, after, name);
          FollowsJoin(st, FiredBy(c), after, Fired(L, rules[1..], kind, after), RequestRules(L, rules[1..], kind, after, false).0, name);
        }
      }
    }
  }

  /// The outcome's method is the last one set, its block reason the last one
  /// given, it is mocked exactly if a mock fired, and every header has the
  /// values that the last edit of its name left.
  lemma OutcomeFollowsFired(L: Libs, rules: seq<Compiled>, ctx: RequestCtx, name: string)
    ensures var o, fired := ApplyRequest(L, rules, ctx), Fired(L, rules, ctx.kind, StartRequest(ctx));
            && o.verb == Folded(MethodAfter, ctx.verb, fired)
            && o.blocked == Folded(BlockAfter, None, fired)
            && o.mocked.Some? == Folded(MockAfter, false, fired)
            && Lookup(o.headers, name) == Folded(RequestValues(name), Lookup(ctx.headers, name), fired)
  {
    RulesFollow(L, rules, ctx.kind, StartRequest(ctx), name);
  }

  // ----- Nothing changes unflagged -----

  lemma {:induction false} FilterShortens<T>(p: T -> bool, s: seq<T>)
    ensures |Filter(p, s)| <= |s| && (|Filter(p, s)| == |s| ==> Filter(p, s) == s)
  {
    if s != [] {
      FilterShortens(p, s[1..]);
    }
  }

  /// Unless flagged, the request is as it was and goes on.
  predicate Untouched(before: RequestState, after: RequestState) {
    && (before.modified ==> after.modified)
    && (!after.modified ==>
          && after.verb == before.verb && after.url == before.url && after.headers == before.headers
          && after.body == before.body && after.blocked == before.blocked && after.mocked == before.mocked)
  }

  lemma ActionFlags(L: Libs, a: Action, re: Option<string>, caps: Option<seq<Option<string>>>, st: RequestState)
    ensures Untouched(st, RequestAction(L, a, re, caps, st))
  {
    if a.RemoveRequestHeader? {
      FilterShortens((h: HeaderPair) => !SameName(h.name, a.name), st.headers);
    }
  }

  lemma {:induction false} ActionsFlag(L: Libs, acts: seq<(Action, Option<string>)>, caps: Option<seq<Option<string>>>, st: RequestState)
    ensures Untouched(st, RequestActions(L, acts, caps, st))
    decreases |acts|
  {
    if acts != [] {
      ActionFlags(L, acts[0].0, acts[0].1, caps, st);
      ActionsFlag(L, acts[1..], caps, RequestAction(L, acts[0].0, acts[0].1, caps, st));
    }
  }

  lemma {:induction false} RulesFlag(L: Libs, rules: seq<Compiled>, kind: ResourceType, st: RequestState, probe: bool)
    ensures Untouched(st, RequestRules(L, rules, kind, st, probe).0)
    decreases |rules|
  {
    if rules != [] {
      var c := rules[0];
      ActionsFlag(L, Zip(c.0.actions, c.1.actionRegex), CapturesOf(L, c, st.url), st.(matched := st.matched + [c.0.id]));
      var next := if RequestMatches(L, c, st, kind, probe) then RequestRule(L, c, st) else st;
      RulesFlag(L, rules[1..], kind, next, probe);
    }
  }

  /// A request outcome without the modified flag has the client's own method,
  /// URL, headers and body and is neither blocked nor mocked.
  lemma UnflaggedRequestIsUntouched(L: Libs, rules: seq<Compiled>, ctx: RequestCtx)
    ensures var o := ApplyRequest(L, rules, ctx);
            !o.modified ==> o.verb == ctx.verb && o.url == ctx.url && o.headers == ctx.headers && o.body == ctx.body
                            && !o.Stopped()
  {
    RulesFlag(L, rules, ctx.kind, StartRequest(ctx), false);
  }

  // ----- The response phase -----

  function FiredInResponse(L: Libs, rules: seq<Compiled>, req: RequestCtx, st: ResponseState): seq<Action>
    decreases |rules|
  {
    if rules == [] then []
    else
      var c := rules[0];
      if !MatchesResponse(L, c, req, st, false) then FiredInResponse(L, rules[1..], req, st)
      else
        var after := ResponseRule(L, c, st);
        FiredBy(c) + if after.shortCircuit then [] else FiredInResponse(L, rules[1..], req, after)
  }

  /// What the two states show differs by what fired in between, and only with
  /// the flag.
  predicate ResponseFollows(before: ResponseState, fired: seq<Action>, after: ResponseState, name: string) {
    && after.status == Folded(StatusAfter, before.status, fired)
    && Lookup(after.headers, name) == Folded(ResponseValues(name), Lookup(before.headers, name), fired)
    && (before.modified ==> after.modified)
    && (!after.modified ==>
          after.status == before.status && after.headers == before.headers && after.body == before.body)
  }

  lemma ResponseFollowsJoin(before: ResponseState, a: seq<Action>, mid: ResponseState, b: seq<Action>, after: ResponseState, name: string)
    requires ResponseFollows(before, a, mid, name) && ResponseFollows(mid, b, after, name)
    ensures ResponseFollows(before, a + b, after, name)
  {
    FoldedConcat(StatusAfter, before.status, a, b);
    FoldedConcat(ResponseValues(name), Lookup(before.headers, name), a, b);
  }

  lemma ResponseActionFollows(L: Libs, a: Action, re: Option<string>, st: ResponseState, name: string)
    ensures ResponseFollows(st, [a], ResponseAction(L, a, re, st), name)
  {
    FoldedOne(StatusAfter, st.status, a);
    FoldedOne(ResponseValues(name), Lookup(st.headers, name), a);
    match a {
      case SetResponseHeader(n, v) => LookupAfterSet(st.headers, n, v, name);
      case RemoveResponseHeader(n) =>
        LookupAfterRemove(st.headers, n, name);
        FilterShortens((h: HeaderPair) => !SameName(h.name, n), st.headers);
      case SetResponseBody(_, _, contentType) =>
        if contentType.Some? {
          LookupAfterSet(st.headers, "Content-Type", contentType.value, name);
        }
      case _ =>
    }
  }

  lemma {:induction false} ResponseActionsFollow(L: Libs, acts: seq<(Action, Option<string>)>, st: ResponseState, name: string)
    ensures ResponseFollows(st, FirstActions(acts), ResponseActions(L, acts, st), name)
    decreases |acts|
  {
    if acts != [] {
      var next := ResponseAction(L, acts[0].0, acts[0].1, st);
      ResponseActionFollows(L, acts[0].0, acts[0].1, st, name);
      ResponseActionsFollow(L, acts[1..], next, name);
      ResponseFollowsJoin(st, [acts[0].0], next, FirstActions(acts[1..]), ResponseActions(L, acts, st), name);
    }
  }

  lemma {:induction false} ResponseRulesFollow(L: Libs, rules: seq<Compiled>, req: RequestCtx, st: ResponseState, name: string)
    ensures ResponseFollows(st, FiredInResponse(L, rules, req, st), ResponseRules(L, rules, req, st, false).0, name)
    decreases |rules|
  {
    if rules != [] {
      var c := rules[0];
      if !MatchesResponse(L, c, req, st, false) {
        ResponseRulesFollow(L, rules[1..], req, st, name);
      } else {
        var after := ResponseRule(L, c, st);
        ResponseActionsFollow(L, Zip(c.0.actions, c.1.actionRegex), st.(matched := st.matched + [c.0.id]), name);
        if after.shortCircuit {
          assert FiredBy(c) + [] == FiredBy(c);
        } else {
          ResponseRulesFollow(L, rules[1..], req, after, name);
          ResponseFollowsJoin(st, FiredBy(c), after, FiredInResponse(L, rules[1..], req, after),
                              ResponseRules(L, rules[1..], req, after, false).0, name);
        }
      }
    }
  }

  /// The status is the last one set, every header has the values that the last
  /// edit of its name left, and without the modified flag status, headers and
  /// body are the server's own.
  lemma ResponseFollowsFired(L: Libs, rules: seq<Compiled>, req: RequestCtx, status: nat, headers: HeaderList,
                             body: Option<Bytes>, name: string)
    ensures var o := ApplyResponse(L, rules, req, status, headers, body);
            var fired := FiredInResponse(L, rules, req, StartResponse(status, headers, body));
            && o.status == Folded(StatusAfter, status, fired)
            && Lookup(o.headers, name) == Folded(ResponseValues(name), Lookup(headers, name), fired)
            && (!o.modified ==> o.status == status && o.headers == headers && o.body == body)
  {
    ResponseRulesFollow(L, rules, req, StartResponse(status, headers, body), name);
  }
}
