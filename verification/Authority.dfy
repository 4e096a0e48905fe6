/// Which origin a request claims to be for, across URL rewrites and HTTP
/// versions: `crates/hamsy-proxy/src/http.rs`. URI parsing and the grammar of
/// authorities and header names belong to the `http` crate and are functions
/// of `Net`.

module Authority {
  import opened Common
  import opened Headers
  import opened Rules

  datatype Version = Http10 | Http11 | Http2

  datatype Sender = Http1Sender | Http2Sender

  datatype Uri = Uri(scheme: Option<string>, authority: Option<string>, path: string)

  datatype Net = Net(
    parseUri: string -> Option<Uri>,
    authorityOk: string -> bool,
    nameOk: string -> bool)

  // ----- Adopting what the rules decided -----

  const HOP_BY_HOP: seq<string> := [
    "connection", "proxy-connection", "keep-alive", "te", "trailer", "transfer-encoding", "upgrade",
    "proxy-authorization"]

  predicate HopByHop(name: string) {
    exists hop | hop in HOP_BY_HOP :: SameName(name, hop)
  }

  function StripHopByHop(headers: HeaderList): HeaderList {
    Filter((h: HeaderPair) => !HopByHop(h.name), headers)
  }

  lemma DroppedByStrip(h: HeaderPair)
    requires HopByHop(h.name)
    ensures StripHopByHop([h]) == []
  {
    assert [h][1..] == [];
    assert StripHopByHop([h]) == [] + Filter((h: HeaderPair) => !HopByHop(h.name), []);
  }

  /// The names, in lower case, of the fields that belong to one connection.
  predicate IsPerHop(lower: string) {
    lower in {"connection", "proxy-connection", "keep-alive", "te", "trailer", "transfer-encoding", "upgrade",
              "proxy-authorization"}
  }

  lemma HopsAreListed(lower: string)
    ensures IsPerHop(lower) <==> lower in HOP_BY_HOP
  {
    assert HOP_BY_HOP[..4] == ["connection", "proxy-connection", "keep-alive", "te"];
    assert HOP_BY_HOP[4..] == ["trailer", "transfer-encoding", "upgrade", "proxy-authorization"];
    assert HOP_BY_HOP == HOP_BY_HOP[..4] + HOP_BY_HOP[4..];
  }

  lemma HopsAreLower()
    ensures forall hop | hop in HOP_BY_HOP :: Lower(hop) == hop
  {
  }

  lemma HopByHopIff(name: string)
    ensures HopByHop(name) <==> IsPerHop(Lower(name))
  {
    HopsAreLower();
    HopsAreListed(Lower(name));
  }

  lemma LookupCons(h: HeaderPair, later: HeaderList, name: string)
    ensures Lookup([h] + later, name) == (if SameName(h.name, name) then [h.value] else []) + Lookup(later, name)
  {
    assert ([h] + later)[1..] == later;
  }

  lemma {:induction false} LookupAfterFilter(p: HeaderPair -> bool, headers: HeaderList, name: string, kept: bool)
    requires forall h | h in headers && SameName(h.name, name) :: p(h) == kept
    ensures Lookup(Filter(p, headers), name) == if kept then Lookup(headers, name) else []
  {
    if headers != [] {
      var h, later := headers[0], headers[1..];
      assert h in headers && forall x | x in later :: x in headers;
      LookupAfterFilter(p, later, name, kept);
      LookupCons(h, Filter(p, later), name);
      assert Filter(p, headers) == if p(h) then [h] + Filter(p, later) else Filter(p, later);
    }
  }

  /// The fields that belong to one connection are gone, the others keep their values.
  lemma LookupAfterStrip(headers: HeaderList, name: string)
    ensures Lookup(StripHopByHop(headers), name) == if IsPerHop(Lower(name)) then [] else Lookup(headers, name)
  {
    forall h | h in headers && SameName(h.name, name) ensures HopByHop(h.name) == IsPerHop(Lower(name)) {
      HopByHopIff(h.name);
    }
    LookupAfterFilter((h: HeaderPair) => !HopByHop(h.name), headers, name, !IsPerHop(Lower(name)));
  }

  function OrElse<T>(o: Option<T>, other: T): T {
    if o.Some? then o.value else other
  }

  function DefaultPort(scheme: string): nat {
    if scheme == "https" || scheme == "wss" then 443 else 80
  }

  /// `Url::port_or_known_default`.
  function PortOrKnownDefault(url: Url): Option<nat> {
    if url.port.Some? then url.port
    else if url.scheme == "http" || url.scheme == "ws" then Some(80)
    else if url.scheme == "https" || url.scheme == "wss" then Some(443)
    else if url.scheme == "ftp" then Some(21)
    else None
  }

  function HostValue(L: Libs, host: string, port: nat, usual: nat): string {
    if port == usual then host else host + ":" + L.portText(port)
  }

  function SetHostHeader(L: Libs, headers: HeaderList, host: string, port: nat, scheme: string): HeaderList {
    SetHeader(headers, "Host", HostValue(L, host, port, if SameName(scheme, "https") then 443 else 80))
  }

  datatype Inflight = Inflight(url: Url, host: string, port: nat, headers: HeaderList)

  /// The host and port that a URL names as its own, `host` failing a name in it.
  function OwnHost(L: Libs, url: Url, host: string): string {
    HostValue(L, OrElse(url.host, host), OrElse(PortOrKnownDefault(url), DefaultPort(url.scheme)),
              if SameName(url.scheme, "https") then 443 else 80)
  }

  function Rewrites(L: Libs, st: Inflight, outcomeUrl: string): Option<Url> {
    if outcomeUrl == L.printUrl(st.url) then None else L.parseUrl(outcomeUrl)
  }

  /// `apply_outcome_url_and_headers`.
  function Adopt(L: Libs, st: Inflight, outcomeUrl: string, outcomeHeaders: HeaderList): Inflight {
    var headers := StripHopByHop(outcomeHeaders);
    var rewritten := Rewrites(L, st, outcomeUrl);
    if rewritten.None? then st.(headers := headers)
    else
      var url := rewritten.value;
      var host := OrElse(url.host, st.host);
      Inflight(url, host, OrElse(PortOrKnownDefault(url), st.port),
               if Lookup(headers, "host") == [] then SetHeader(headers, "Host", OwnHost(L, st.url, host)) else headers)
  }

  /// The host and port in the way a Host field names them: the port only where it
  /// is not the one of the scheme.
  lemma OwnHostText(L: Libs, url: Url, host: string)
    requires url.scheme == "http" || url.scheme == "https"
    ensures var name := match url.host case Some(h) => h case None => host;
            var usual := if url.scheme == "https" then 443 else 80;
            OwnHost(L, url, host) == if url.port.Some? && url.port.value != usual then name + ":" + L.portText(url.port.value) else name
  {
    assert Lower("http") == "http" && Lower("https") == "https";
    assert |Lower("http")| != |Lower("https")|;
  }

  /// What is adopted: the rewritten URL with its host and port, if the text is a
  /// new one that parses, and the headers without the fields of one connection; a
  /// missing Host is supplied for a rewritten request only.
  lemma AdoptedIs(L: Libs, st: Inflight, outcomeUrl: string, outcomeHeaders: HeaderList, name: string)
    ensures var now, parsed := Adopt(L, st, outcomeUrl, outcomeHeaders), L.parseUrl(outcomeUrl);
            var rewritten := outcomeUrl != L.printUrl(st.url) && parsed.Some?;
            && (!rewritten ==> now.url == st.url && now.host == st.host && now.port == st.port)
            && (rewritten ==>
                  && now.url == parsed.value
                  && now.host == (match parsed.value.host case Some(h) => h case None => st.host)
                  && (parsed.value.port.Some? ==> now.port == parsed.value.port.value)
                  && (parsed.value.port.None? && parsed.value.scheme in {"http", "https"} ==>
                        now.port == if parsed.value.scheme == "https" then 443 else 80))
            && (SameName("host", name) && rewritten && Lookup(StripHopByHop(outcomeHeaders), "host") == [] ==>
                  Lookup(now.headers, name) == [OwnHost(L, st.url, now.host)])
            && (!SameName("host", name) || !rewritten || Lookup(StripHopByHop(outcomeHeaders), "host") != [] ==>
                  Lookup(now.headers, name) == Lookup(StripHopByHop(outcomeHeaders), name))
  {
    assert Lower("Host") == Lower("host");
    var now := Adopt(L, st, outcomeUrl, outcomeHeaders);
    LookupAfterSet(StripHopByHop(outcomeHeaders), "Host", OwnHost(L, st.url, now.host), name);
  }

  /// The request that rules are being applied to.
  class InflightRequest {
    var url: Url
    var host: string
    var port: nat
    var headers: HeaderList

    ghost function Now(): Inflight
      reads this
    {
      Inflight(url, host, port, headers)
    }

    constructor (url: Url, host: string, port: nat, headers: HeaderList)
      ensures Now() == Inflight(url, host, port, headers)
    {
      this.url, this.host, this.port, this.headers := url, host, port, headers;
    }

    method ApplyOutcomeUrlAndHeaders(L: Libs, outcomeUrl: string, outcomeHeaders: HeaderList)
      modifies this
      ensures Now() == Adopt(L, old(Now()), outcomeUrl, outcomeHeaders)
    {
      var originalUrl := url;
      var urlChanged := outcomeUrl != L.printUrl(url);
      headers := StripHopByHop(outcomeHeaders);
      if urlChanged {
        var parsed := L.parseUrl(outcomeUrl);
        if parsed.Some? {
          url := parsed.value;
          host := OrElse(url.host, host);
          port := OrElse(PortOrKnownDefault(url), port);
          if Lookup(headers, "host") == [] {
            var origPort := OrElse(PortOrKnownDefault(originalUrl), DefaultPort(originalUrl.scheme));
            headers := SetHostHeader(L, headers, OrElse(originalUrl.host, host), origPort, originalUrl.scheme);
          }
        }
      }
    }
  }

  // ----- Building the outbound request -----

  datatype Parts = Parts(version: Version, uri: Uri, headers: HeaderList)

  /// What `HeaderValue::from_str` accepts.
  predicate VisibleValue(v: string) {
    forall c | c in v :: c == '\t' || ' ' <= c <= '~'
  }

  predicate HeadersAccepted(N: Net, headers: HeaderList) {
    forall h | h in headers :: N.nameOk(h.name) && VisibleValue(h.value)
  }

  function PathWithQuery(url: Url): string {
    if url.query.Some? then url.path + "?" + url.query.value else url.path
  }

  /// `align_h2_authority_with_host`. A URI without a scheme cannot take an authority.
  function Align(N: Net, p: Parts): Parts {
    var hosts := Lookup(p.headers, "host");
    if hosts == [] then p
    else
      var stripped := p.(headers := RemoveHeader(p.headers, "host"));
      if N.authorityOk(hosts[0]) && p.uri.scheme.Some? then stripped.(uri := p.uri.(authority := Some(hosts[0])))
      else stripped
  }

  /// `build_outbound_request`; `None` is an error reported to the client.
  function BuildOutbound(L: Libs, N: Net, url: Url, headers: HeaderList, viaProxy: bool, version: Version): Option<Parts> {
    var absolute := viaProxy || version.Http2?;
    var uri := N.parseUri(if absolute then L.printUrl(url) else PathWithQuery(url));
    if uri.None? || !HeadersAccepted(N, headers) then None
    else
      var p := Parts(version, uri.value, headers);
      Some(if version.Http2? then Align(N, p) else p)
  }

  // ----- Adapting it to the connection -----

  function Joined(values: seq<string>): string {
    if values == [] then "" else values[0] + Following(values[1..])
  }

  function Following(values: seq<string>): string {
    if values == [] then "" else "; " + values[0] + Following(values[1..])
  }

  /// `join_cookie_headers`.
  function JoinCookies(headers: HeaderList): HeaderList {
    var cookies := Lookup(headers, "cookie");
    if |cookies| < 2 then headers else SetHeader(headers, "cookie", Joined(cookies))
  }

  /// `ensure_host_header`.
  function EnsureHost(L: Libs, headers: HeaderList, url: Url, preferred: Option<string>): HeaderList {
    if Lookup(headers, "host") != [] then headers
    else if preferred.Some? && VisibleValue(preferred.value) then SetHeader(headers, "host", preferred.value)
    else
      var usual := DefaultPort(url.scheme);
      var value := HostValue(L, OrElse(url.host, ""), OrElse(PortOrKnownDefault(url), usual), usual);
      if VisibleValue(value) then SetHeader(headers, "host", value) else headers
  }

  /// `adapt_request_to_sender`.
  function Adapt(L: Libs, N: Net, p: Parts, sender: Sender, viaProxy: bool, url: Url): Parts {
    if sender.Http1Sender? && p.version.Http2? then
      var origin := N.parseUri(PathWithQuery(url));
      Parts(Http11, if !viaProxy && origin.Some? then origin.value else p.uri,
            EnsureHost(L, JoinCookies(p.headers), url, p.uri.authority))
    else if sender.Http2Sender? && !p.version.Http2? then
      var uri := N.parseUri(L.printUrl(url));
      Align(N, Parts(Http2, OrElse(uri, p.uri), p.headers))
    else p
  }

  /// The parts of the outbound request, changed in place.
  class OutboundRequest {
    var version: Version
    var uri: Uri
    var headers: HeaderList

    ghost function Now(): Parts
      reads this
    {
      Parts(version, uri, headers)
    }

    constructor (version: Version, uri: Uri, headers: HeaderList)
      ensures Now() == Parts(version, uri, headers)
    {
      this.version, this.uri, this.headers := version, uri, headers;
    }

    method AlignAuthorityWithHost(N: Net)
      modifies this
      ensures Now() == Align(N, old(Now()))
    {
      var hosts := Lookup(headers, "host");
      if hosts == [] {
        return;
      }
      headers := RemoveHeader(headers, "host");
      if !N.authorityOk(hosts[0]) {
        return;
      }
      if uri.scheme.Some? {
        uri := uri.(authority := Some(hosts[0]));
      }
    }

    method JoinCookieHeaders()
      modifies this`headers
      ensures headers == JoinCookies(old(headers))
    {
      var cookies := Lookup(headers, "cookie");
      if |cookies| < 2 {
        return;
      }
      var joined := cookies[0];
      for i := 1 to |cookies|
        invariant joined + Following(cookies[i..]) == Joined(cookies)
        invariant headers == old(headers)
      {
        ghost var was, next := joined, Following(cookies[i + 1..]);
        assert cookies[i..][1..] == cookies[i + 1..];
        assert was + ("; " + cookies[i] + next) == was + "; " + cookies[i] + next;
        joined := joined + "; " + cookies[i];
      }
      assert joined + "" == joined;
      headers := SetHeader(headers, "cookie", joined);
    }

    method EnsureHostHeader(L: Libs, url: Url, preferred: Option<string>)
      modifies this`headers
      ensures headers == EnsureHost(L, old(headers), url, preferred)
    {
      if Lookup(headers, "host") != [] {
        return;
      }
      if preferred.Some? {
        if VisibleValue(preferred.value) {
          headers := SetHeader(headers, "host", preferred.value);
          return;
        }
      }
      var usual := DefaultPort(url.scheme);
      var value := HostValue(L, OrElse(url.host, ""), OrElse(PortOrKnownDefault(url), usual), usual);
      if VisibleValue(value) {
        headers := SetHeader(headers, "host", value);
      }
    }

    method AdaptToSender(L: Libs, N: Net, sender: Sender, viaProxy: bool, url: Url)
      modifies this
      ensures Now() == Adapt(L, N, old(Now()), sender, viaProxy, url)
      ensures sender.Http1Sender? && old(version).Http2? ==>
                var origin := N.parseUri(match url.query case Some(q) => url.path + "?" + q case None => url.path);
                uri == if !viaProxy && origin.Some? then origin.value else old(uri)
      ensures sender.Http2Sender? && !old(version).Http2? ==>
                var whole := N.parseUri(L.printUrl(url));
                && uri.scheme == (if whole.Some? then whole.value.scheme else old(uri).scheme)
                && uri.path == (if whole.Some? then whole.value.path else old(uri).path)
      ensures sender.Http2Sender? == old(version).Http2? ==> Now() == old(Now())
    {
      if sender.Http1Sender? && version.Http2? {
        version := Http11;
        JoinCookieHeaders();
        var preserved := uri.authority;
        if !viaProxy {
          var origin := N.parseUri(PathWithQuery(url));
          if origin.Some? {
            uri := origin.value;
          }
        }
        EnsureHostHeader(L, url, preserved);
      } else if sender.Http2Sender? && !version.Http2? {
        version := Http2;
        var absolute := N.parseUri(L.printUrl(url));
        if absolute.Some? {
          uri := absolute.value;
        }
        AlignAuthorityWithHost(N);
      }
    }
  }

  /// A request is built exactly when its target parses, every field name is one for
  /// the `http` crate, and every value is visible ASCII, blanks or tabs.
  lemma BuiltIff(L: Libs, N: Net, url: Url, headers: HeaderList, viaProxy: bool, version: Version)
    ensures var text := if viaProxy || version.Http2? then L.printUrl(url)
                        else match url.query case Some(q) => url.path + "?" + q case None => url.path;
            BuildOutbound(L, N, url, headers, viaProxy, version).Some? <==>
            && N.parseUri(text).Some?
            && forall h | h in headers :: N.nameOk(h.name) && forall c | c in h.value :: c == '\t' || ' ' <= c <= '~'
  {
  }

  // ----- The target -----

  /// The target of a request adapted to its connection: to an HTTP/1 origin the
  /// URL's path and query; to a proxy, and from there on to HTTP/2, the scheme and
  /// path of the whole URL, for which a text that does not parse leaves what
  /// the request was built with.
  ghost predicate TargetsUrl(L: Libs, N: Net, url: Url, viaProxy: bool, version: Version, sender: Sender, sent: Parts) {
    var origin := N.parseUri(match url.query case Some(q) => url.path + "?" + q case None => url.path);
    var whole := N.parseUri(L.printUrl(url));
    if sender.Http1Sender? && !viaProxy && origin.Some? then sent.uri == origin.value
    else if whole.Some? then
      && sent.uri.scheme == whole.value.scheme && sent.uri.path == whole.value.path
      && (sender.Http1Sender? && !version.Http2? ==> sent.uri == whole.value)
    else
      sender.Http2Sender? && origin.Some? && sent.uri.scheme == origin.value.scheme && sent.uri.path == origin.value.path
  }

  lemma AlignKeepsTarget(N: Net, p: Parts)
    ensures Align(N, p).uri.scheme == p.uri.scheme && Align(N, p).uri.path == p.uri.path && Align(N, p).version == p.version
  {
  }

  lemma TargetIsUrl(L: Libs, N: Net, url: Url, headers: HeaderList, viaProxy: bool, version: Version, sender: Sender)
    requires BuildOutbound(L, N, url, headers, viaProxy, version).Some?
    ensures TargetsUrl(L, N, url, viaProxy, version, sender,
                       Adapt(L, N, BuildOutbound(L, N, url, headers, viaProxy, version).value, sender, viaProxy, url))
  {
    var built := N.parseUri(if viaProxy || version.Http2? then L.printUrl(url) else PathWithQuery(url)).value;
    AlignKeepsTarget(N, Parts(version, built, headers));
    AlignKeepsTarget(N, Parts(Http2, OrElse(N.parseUri(L.printUrl(url)), built), headers));
  }

  // ----- One identity -----

  /// The request says it is for `id`, in the way its version says it, and names
  /// nobody else: a target that has an authority beside Host has the same.
  predicate Claims(p: Parts, id: string) {
    if p.version.Http2? then p.uri.authority == Some(id) && Lookup(p.headers, "host") == []
    else Lookup(p.headers, "host") == [id] && (p.uri.authority.None? || p.uri.authority == Some(id))
  }

  predicate ClaimsNothing(p: Parts) {
    p.uri.authority.None? && Lookup(p.headers, "host") == []
  }

  /// A URL with a host and a rooted path, as every http URL has.
  predicate Rooted(u: Url) {
    u.host.Some? && u.path != "" && u.path[0] == '/'
  }

  /// What the `http` crate is relied on for: the text of such a URL has a scheme
  /// and an authority, its path has neither.
  ghost predicate UriLaws(L: Libs, N: Net) {
    && (forall u: Url | Rooted(u) ::
          var r := N.parseUri(L.printUrl(u)); r.Some? ==> r.value.scheme.Some? && r.value.authority.Some?)
    && (forall u: Url | Rooted(u) ::
          var r := N.parseUri(PathWithQuery(u)); r.Some? ==> r.value.scheme.None? && r.value.authority.None?)
  }

  /// A request built for a direct connection and adapted to the connection got;
  /// `dispatch` refuses a URL without a host.
  function Sent(L: Libs, N: Net, url: Url, headers: HeaderList, version: Version, sender: Sender): Option<Parts> {
    var built := BuildOutbound(L, N, url, headers, false, version);
    if built.None? || url.host.None? then None else Some(Adapt(L, N, built.value, sender, false, url))
  }

  lemma {:induction false} LookupAccepted(N: Net, headers: HeaderList, name: string)
    requires HeadersAccepted(N, headers)
    ensures forall v | v in Lookup(headers, name) :: VisibleValue(v)
  {
    if headers != [] {
      assert headers[0] in headers;
      LookupAccepted(N, headers[1..], name);
    }
  }

  lemma NamesDiffer()
    ensures !SameName("cookie", "host") && SameName("host", "host") && SameName("Host", "host")
  {
    assert Lower("cookie")[0] == 'c' && Lower("host")[0] == 'h';
    assert Lower("Host") == Lower("host");
  }

  lemma JoinCookiesKeeps(headers: HeaderList, name: string)
    ensures !SameName("cookie", name) ==> Lookup(JoinCookies(headers), name) == Lookup(headers, name)
    ensures Lookup(JoinCookies(headers), "cookie") ==
            if Lookup(headers, "cookie") == [] then [] else [Joined(Lookup(headers, "cookie"))]
  {
    var cookies := Lookup(headers, "cookie");
    if |cookies| == 1 {
      assert cookies[0] + "" == cookies[0] && cookies == [cookies[0]];
    }
    LookupAfterSet(headers, "cookie", Joined(cookies), name);
    LookupAfterSet(headers, "cookie", Joined(cookies), "cookie");
  }

  lemma EnsureHostKeeps(L: Libs, headers: HeaderList, url: Url, preferred: Option<string>, name: string)
    ensures !SameName("host", name) ==> Lookup(EnsureHost(L, headers, url, preferred), name) == Lookup(headers, name)
    ensures Lookup(headers, "host") == [] && preferred.Some? && VisibleValue(preferred.value) ==>
              Lookup(EnsureHost(L, headers, url, preferred), "host") == [preferred.value]
    ensures Lookup(headers, "host") != [] ==> EnsureHost(L, headers, url, preferred) == headers
    ensures Lookup(headers, "host") == [] && preferred.None? && url.scheme in {"http", "https"} && VisibleValue(OwnHost(L, url, "")) ==>
              Lookup(EnsureHost(L, headers, url, preferred), "host") == [OwnHost(L, url, "")]
  {
    assert Lower("http") == "http" && Lower("https") == "https" && |Lower("http")| != |Lower("https")|;
    var usual := DefaultPort(url.scheme);
    var value := HostValue(L, OrElse(url.host, ""), OrElse(PortOrKnownDefault(url), usual), usual);
    LookupAfterSet(headers, "host", OrElse(preferred, ""), name);
    LookupAfterSet(headers, "host", value, name);
    LookupAfterSet(headers, "host", OrElse(preferred, ""), "host");
    LookupAfterSet(headers, "host", value, "host");
  }

  lemma AlignClaims(N: Net, p: Parts, host: string)
    requires p.version.Http2? && p.uri.scheme.Some? && N.authorityOk(host) && Lookup(p.headers, "host") == [host]
    ensures Claims(Align(N, p), host)
  {
    LookupAfterRemove(p.headers, "host", "host");
  }

  /// A single valid Host arrives as exactly one identity, on every pair of
  /// client and connection versions, unless an HTTP/1 request goes to an HTTP/2
  /// connection with a URL the `http` crate does not take: then none arrives,
  /// and never a wrong one.
  lemma HostArrivesIff(L: Libs, N: Net, url: Url, headers: HeaderList, version: Version, sender: Sender, host: string)
    requires UriLaws(L, N) && Rooted(url) && Lookup(headers, "host") == [host] && N.authorityOk(host)
    requires Sent(L, N, url, headers, version, sender).Some?
    ensures var sent := Sent(L, N, url, headers, version, sender).value;
            var untaken := !version.Http2? && sender.Http2Sender? && N.parseUri(L.printUrl(url)).None?;
            && (Claims(sent, host) <==> !untaken)
            && (untaken ==> ClaimsNothing(sent))
            && sent.version == (if sender.Http2Sender? then Http2 else if version.Http2? then Http11 else version)
  {
    var p := BuildOutbound(L, N, url, headers, false, version).value;
    NamesDiffer();
    LookupAfterRemove(headers, "host", "host");
    if version.Http2? {
      AlignClaims(N, Parts(version, N.parseUri(L.printUrl(url)).value, headers), host);
      if sender.Http1Sender? {
        LookupAccepted(N, headers, "host");
        JoinCookiesKeeps(p.headers, "host");
        EnsureHostKeeps(L, JoinCookies(p.headers), url, Some(host), "host");
      }
    } else if sender.Http2Sender? {
      var uri := N.parseUri(L.printUrl(url));
      if uri.Some? {
        AlignClaims(N, Parts(Http2, uri.value, headers), host);
      }
    }
  }

  /// On HTTP/2 the Host header is never sent beside `:authority`, whatever the
  /// headers were.
  lemma NeverBoth(L: Libs, N: Net, url: Url, headers: HeaderList, version: Version, sender: Sender)
    requires Sent(L, N, url, headers, version, sender).Some?
    ensures var sent := Sent(L, N, url, headers, version, sender).value;
            sent.version.Http2? ==> Lookup(sent.headers, "host") == []
  {
    LookupAfterRemove(headers, "host", "host");
    NamesDiffer();
  }

  /// A rewrite that leaves no Host claims the original URL's own host and port.
  lemma HostlessRewriteClaimsOriginal(L: Libs, N: Net, st: Inflight, outcomeUrl: string, outcomeHeaders: HeaderList,
                                      version: Version, sender: Sender)
    requires UriLaws(L, N) && Rewrites(L, st, outcomeUrl).Some? && st.url.host.Some?
    requires Lookup(StripHopByHop(outcomeHeaders), "host") == []
    requires N.authorityOk(OwnHost(L, st.url, ""))
    requires var now := Adopt(L, st, outcomeUrl, outcomeHeaders);
             && Rooted(now.url) && Sent(L, N, now.url, now.headers, version, sender).Some?
             && (!version.Http2? && sender.Http2Sender? ==> N.parseUri(L.printUrl(now.url)).Some?)
    ensures var now := Adopt(L, st, outcomeUrl, outcomeHeaders);
            var sent := Sent(L, N, now.url, now.headers, version, sender).value;
            && now.url == L.parseUrl(outcomeUrl).value && TargetsUrl(L, N, now.url, false, version, sender, sent)
            && Claims(sent, OwnHost(L, st.url, ""))
  {
    TargetIsUrl(L, N, Adopt(L, st, outcomeUrl, outcomeHeaders).url, Adopt(L, st, outcomeUrl, outcomeHeaders).headers, false, version, sender);
    var now := Adopt(L, st, outcomeUrl, outcomeHeaders);
    NamesDiffer();
    LookupAfterSet(StripHopByHop(outcomeHeaders), "Host", OwnHost(L, st.url, ""), "host");
    HostArrivesIff(L, N, now.url, now.headers, version, sender, OwnHost(L, st.url, ""));
  }

  /// A rewrite never replaces a Host that is there: the request goes to the new
  /// URL and claims the Host it had, on every pair of versions.
  lemma RewriteClaimsKeptHost(L: Libs, N: Net, st: Inflight, outcomeUrl: string, outcomeHeaders: HeaderList,
                              version: Version, sender: Sender, host: string)
    requires UriLaws(L, N) && Rewrites(L, st, outcomeUrl).Some? && N.authorityOk(host)
    requires Lookup(StripHopByHop(outcomeHeaders), "host") == [host]
    requires var now := Adopt(L, st, outcomeUrl, outcomeHeaders);
             && Rooted(now.url) && Sent(L, N, now.url, now.headers, version, sender).Some?
             && (!version.Http2? && sender.Http2Sender? ==> N.parseUri(L.printUrl(now.url)).Some?)
    ensures var now := Adopt(L, st, outcomeUrl, outcomeHeaders);
            var sent := Sent(L, N, now.url, now.headers, version, sender).value;
            && now.url == L.parseUrl(outcomeUrl).value && TargetsUrl(L, N, now.url, false, version, sender, sent)
            && Claims(sent, host)
  {
    TargetIsUrl(L, N, Adopt(L, st, outcomeUrl, outcomeHeaders).url, Adopt(L, st, outcomeUrl, outcomeHeaders).headers, false, version, sender);
    var now := Adopt(L, st, outcomeUrl, outcomeHeaders);
    HostArrivesIff(L, N, now.url, now.headers, version, sender, host);
  }

  /// Without Host and without a rewrite, the URL's own authority is claimed
  /// exactly when HTTP/2 is spoken on either side; from HTTP/1 to HTTP/1 nothing
  /// is, although the comment at http.rs:305-309 counts on a fallback there.
  lemma HostlessClaimsUrlIff(L: Libs, N: Net, url: Url, headers: HeaderList, version: Version, sender: Sender)
    requires UriLaws(L, N) && Lookup(headers, "host") == []
    requires Rooted(url) && N.parseUri(L.printUrl(url)).Some? && VisibleValue(N.parseUri(L.printUrl(url)).value.authority.value)
    requires Sent(L, N, url, headers, version, sender).Some?
    ensures var sent := Sent(L, N, url, headers, version, sender).value;
            var own := N.parseUri(L.printUrl(url)).value.authority.value;
            && (Claims(sent, own) <==> version.Http2? || sender.Http2Sender?)
            && (!version.Http2? && !sender.Http2Sender? ==> ClaimsNothing(sent))
  {
    NamesDiffer();
    JoinCookiesKeeps(headers, "host");
    EnsureHostKeeps(L, JoinCookies(headers), url, N.parseUri(L.printUrl(url)).value.authority, "host");
  }

  lemma BuiltKeeps(L: Libs, N: Net, url: Url, headers: HeaderList, version: Version, name: string)
    requires BuildOutbound(L, N, url, headers, false, version).Some? && !SameName("host", name)
    ensures Lookup(BuildOutbound(L, N, url, headers, false, version).value.headers, name) == Lookup(headers, name)
  {
    LookupAfterRemove(headers, "host", name);
  }

  lemma AdaptedKeeps(L: Libs, N: Net, p: Parts, sender: Sender, url: Url, name: string)
    requires !SameName("host", name)
    ensures !p.version.Http2? || sender.Http2Sender? || !SameName("cookie", name) ==>
              Lookup(Adapt(L, N, p, sender, false, url).headers, name) == Lookup(p.headers, name)
    ensures p.version.Http2? && sender.Http1Sender? && SameName("cookie", name) ==>
              Lookup(Adapt(L, N, p, sender, false, url).headers, name) == Lookup(JoinCookies(p.headers), name)
  {
    if p.version.Http2? && sender.Http1Sender? {
      JoinCookiesKeeps(p.headers, name);
      EnsureHostKeeps(L, JoinCookies(p.headers), url, p.uri.authority, name);
    } else {
      LookupAfterRemove(p.headers, "host", name);
    }
  }

  /// A downgrade joins the Cookie fields in order with "; "; every other field
  /// but Host keeps its values, and without a downgrade Cookie does too.
  lemma OtherFieldsArrive(L: Libs, N: Net, url: Url, headers: HeaderList, version: Version, sender: Sender, name: string)
    requires Sent(L, N, url, headers, version, sender).Some? && !SameName("host", name)
    ensures var sent := Sent(L, N, url, headers, version, sender).value;
            var downgraded := version.Http2? && sender.Http1Sender?;
            var cookies := Lookup(headers, "cookie");
            && (downgraded && cookies != [] ==> Lookup(sent.headers, "cookie") == [Joined(cookies)])
            && (!downgraded || !SameName("cookie", name) ==> Lookup(sent.headers, name) == Lookup(headers, name))
  {
    var p := BuildOutbound(L, N, url, headers, false, version).value;
    BuiltKeeps(L, N, url, headers, version, name);
    AdaptedKeeps(L, N, p, sender, url, name);
    NamesDiffer();
    assert !SameName("host", "cookie");
    BuiltKeeps(L, N, url, headers, version, "cookie");
    AdaptedKeeps(L, N, p, sender, url, "cookie");
    JoinCookiesKeeps(p.headers, "cookie");
  }

  // ----- The laws can be met -----

  function UpToSlash(s: string): string {
    if s == "" || s[0] == '/' then "" else [s[0]] + UpToSlash(s[1..])
  }

  lemma {:induction false} UpToFirstSlash(s: string, rest: string)
    requires '/' !in s
    ensures UpToSlash(s + ("/" + rest)) == s
  {
    if s != "" {
      assert (s + ("/" + rest))[1..] == s[1..] + ("/" + rest);
      UpToFirstSlash(s[1..], rest);
    }
  }

  /// A parser that tells paths from URLs by the slash in front.
  function PlainParse(s: string): Option<Uri> {
    if s != "" && s[0] == '/' then Some(Uri(None, None, s))
    else if "http://" <= s then Some(Uri(Some("http"), Some(UpToSlash(s[7..])), s))
    else None
  }

  const PLAIN_NET := Net(PlainParse, a => true, n => true)

  /// Libraries that print URLs for it; `to` is what any URL text parses to.
  function PlainLibs(to: Url): Libs {
    Libs(p => true, (p, s) => true, (p, s) => None, (p, s, r) => s, p => true, (p, s) => true, s => None,
         s => Some(to), (u: Url) => "http://" + OrElse(u.host, "") + PathWithQuery(u), u => [], (u, q) => u,
         (s, f, r) => s, b => "", b => None, j => [], n => "")
  }

  lemma PlainLawsHold(to: Url)
    ensures UriLaws(PlainLibs(to), PLAIN_NET)
    ensures forall u: Url | Rooted(u) ::
              PLAIN_NET.parseUri(PlainLibs(to).printUrl(u)).Some? && PLAIN_NET.parseUri(PathWithQuery(u)).Some?
  {
    forall u: Url | Rooted(u)
      ensures PlainParse(PathWithQuery(u)) == Some(Uri(None, None, PathWithQuery(u)))
      ensures PlainParse(PlainLibs(to).printUrl(u)).Some?
      ensures PlainParse(PlainLibs(to).printUrl(u)).value.scheme.Some? && PlainParse(PlainLibs(to).printUrl(u)).value.authority.Some?
    {
      var text := PlainLibs(to).printUrl(u);
      assert text == "http://" + (OrElse(u.host, "") + PathWithQuery(u));
      assert text[0] == 'h' && text[..7] == "http://";
    }
  }

  const HERE := Url("http", "", Some("here"), None, "/", None, None)
  const THERE := Url("http", "", Some("there"), None, "/x", None, None)

  /// Under the laws requests are sent, and claim their Host, between all versions.
  lemma KeptHostHappens(version: Version, sender: Sender)
    ensures var L, headers := PlainLibs(THERE), [HeaderPair("Host", "origin")];
            var now := Adopt(L, Inflight(HERE, "here", 80, []), "there", headers);
            && UriLaws(L, PLAIN_NET) && now.url == THERE
            && Sent(L, PLAIN_NET, now.url, now.headers, version, sender).Some?
            && Claims(Sent(L, PLAIN_NET, now.url, now.headers, version, sender).value, "origin")
  {
    var L, host := PlainLibs(THERE), HeaderPair("Host", "origin");
    PlainLawsHold(THERE);
    NamesDiffer();
    KeptByStrip(host);
    assert L.printUrl(HERE)[0] == 'h';
    assert Lookup([host], "host") == ["origin"] + Lookup([], "host");
    RewriteClaimsKeptHost(L, PLAIN_NET, Inflight(HERE, "here", 80, []), "there", [host], version, sender, "origin");
  }

  lemma KeptByStrip(h: HeaderPair)
    requires h.name == "Host"
    ensures StripHopByHop([h]) == [h]
  {
    assert forall i | 0 <= i < |HOP_BY_HOP| :: |HOP_BY_HOP[i]| != 4;
    assert forall hop | hop in HOP_BY_HOP :: |Lower(hop)| != |Lower(h.name)|;
    assert [h][1..] == [];
    assert StripHopByHop([h]) == [h] + Filter((h: HeaderPair) => !HopByHop(h.name), []);
  }

  /// So are rewritten requests without one, which claim the original URL's host.
  lemma HostlessRewriteHappens(version: Version, sender: Sender)
    ensures var L := PlainLibs(THERE);
            var now := Adopt(L, Inflight(HERE, "here", 80, []), "there", []);
            && UriLaws(L, PLAIN_NET) && now.url == THERE
            && Sent(L, PLAIN_NET, now.url, now.headers, version, sender).Some?
            && Claims(Sent(L, PLAIN_NET, now.url, now.headers, version, sender).value, "here")
  {
    var L := PlainLibs(THERE);
    PlainLawsHold(THERE);
    assert L.printUrl(HERE)[0] == 'h';
    assert OwnHost(L, HERE, "") == "here";
    HostlessRewriteClaimsOriginal(L, PLAIN_NET, Inflight(HERE, "here", 80, []), "there", [], version, sender);
  }

  lemma ThereIsParsed()
    ensures PLAIN_NET.parseUri(PlainLibs(THERE).printUrl(THERE)).Some?
    ensures PLAIN_NET.parseUri(PlainLibs(THERE).printUrl(THERE)).value.authority == Some("there")
  {
    var text := PlainLibs(THERE).printUrl(THERE);
    assert text == "http://" + ("there" + ("/" + "x"));
    assert text[..7] == "http://" && text[7..] == "there" + ("/" + "x");
    UpToFirstSlash("there", "x");
  }

  /// And those without one that are not rewritten, between any two versions of
  /// which one is HTTP/2.
  lemma HostlessHappens(version: Version, sender: Sender)
    ensures var L := PlainLibs(THERE);
            && UriLaws(L, PLAIN_NET) && Sent(L, PLAIN_NET, THERE, [], version, sender).Some?
            && (Claims(Sent(L, PLAIN_NET, THERE, [], version, sender).value, "there") <==> version.Http2? || sender.Http2Sender?)
  {
    PlainLawsHold(THERE);
    ThereIsParsed();
    HostlessClaimsUrlIff(PlainLibs(THERE), PLAIN_NET, THERE, [], version, sender);
  }
}
