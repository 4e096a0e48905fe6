/// The TLS ClientHello parser of `crates/hamsy-proxy/src/connect.rs`, against
/// the encoding of section 4.1.2 of RFC 8446 with the extensions of section 3
/// of RFC 6066 and section 3.1 of RFC 7301.

module ClientHello {
  import opened Common
  import Utf8

  datatype HelloInfo = HelloInfo(sni: Option<string>, alpn: seq<Bytes>)

  // ----- Reading -----

  /// The first `n` bytes and the rest.
  function Take(s: Bytes, n: nat): Option<(Bytes, Bytes)> {
    if n <= |s| then Some((s[..n], s[n..])) else None
  }

  function TakeU8(s: Bytes): Option<(nat, Bytes)> {
    var (b, rest) :- Take(s, 1);
    Some((b[0], rest))
  }

  function TakeU16(s: Bytes): Option<(nat, Bytes)> {
    var (b, rest) :- Take(s, 2);
    Some((b[0] as nat * 256 + b[1], rest))
  }

  /// A length byte and that many bytes.
  function TakeVec8(s: Bytes): Option<(Bytes, Bytes)> {
    var (n, s) :- TakeU8(s);
    Take(s, n)
  }

  /// A two-byte length and that many bytes.
  function TakeVec16(s: Bytes): Option<(Bytes, Bytes)> {
    var (n, s) :- TakeU16(s);
    Take(s, n)
  }

  /// `parse_sni`: the first entry, if it is a host name in UTF-8.
  function ParseSni(data: Bytes): Option<string> {
    var (_, s) :- TakeU16(data);
    var (kind, s) :- TakeU8(s);
    var (len, s) :- TakeU16(s);
    var (name, _) :- Take(s, len);
    if kind == 0 && Utf8.Valid(name) then Some(Utf8.Decode(name)) else None
  }

  /// The names that `parse_alpn` reads after the list length.
  function ParseProtocols(s: Bytes): seq<Bytes>
    decreases |s|
  {
    var name := TakeVec8(s);
    if name.None? then [] else [name.value.0] + ParseProtocols(name.value.1)
  }

  /// `parse_alpn`.
  function ParseAlpn(data: Bytes): seq<Bytes> {
    var len := TakeU16(data);
    if len.None? then [] else ParseProtocols(len.value.1)
  }

  /// One extension: its type, its body, and the bytes after it.
  function TakeExtension(s: Bytes): Option<(nat, Bytes, Bytes)> {
    var (kind, s) :- TakeU16(s);
    var (len, s) :- TakeU16(s);
    var (body, rest) :- Take(s, len);
    Some((kind, body, rest))
  }

  function Noting(info: HelloInfo, kind: nat, body: Bytes): HelloInfo {
    if kind == 0x0000 then info.(sni := ParseSni(body))
    else if kind == 0x0010 then info.(alpn := ParseAlpn(body))
    else info
  }

  /// The extension loop.
  function ParseExtensions(s: Bytes, info: HelloInfo): HelloInfo
    decreases |s|
  {
    if |s| < 4 then info
    else
      var e := TakeExtension(s);
      if e.None? then info else ParseExtensions(e.value.2, Noting(info, e.value.0, e.value.1))
  }

  /// The end of `parse_client_hello`: the extensions, which may be missing.
  function ParseBlock(s: Bytes): Option<HelloInfo> {
    if |s| < 2 then Some(HelloInfo(None, []))
    else
      var (exts, _) :- TakeVec16(s);
      Some(ParseExtensions(exts, HelloInfo(None, [])))
  }

  /// `parse_client_hello` from the cipher suites on.
  function ParseSuites(s: Bytes): Option<HelloInfo> {
    var (_, s) :- TakeVec16(s);
    var (_, s) :- TakeVec8(s);
    ParseBlock(s)
  }

  /// `parse_client_hello` from the session id on.
  function ParseBody(s: Bytes): Option<HelloInfo> {
    var (_, s) :- TakeVec8(s);
    ParseSuites(s)
  }

  /// `parse_client_hello` from the handshake header on.
  function ParseHandshake(s: Bytes): Option<HelloInfo> {
    var (kind, s) :- TakeU8(s);
    if kind != 0x01 then None
    else
      var (_, s) :- Take(s, 3);
      var (_, s) :- TakeU16(s);
      var (_, s) :- Take(s, 32);
      ParseBody(s)
  }

  /// `parse_client_hello`.
  function Parse(data: Bytes): Option<HelloInfo> {
    var (kind, s) :- TakeU8(data);
    if kind != 0x16 then None
    else
      var (_, s) :- TakeU16(s);
      var (_, s) :- TakeU16(s);
      ParseHandshake(s)
  }

  /// The cursor as the source has it: a position that moves over fixed data.
  class Cursor {
    const data: Bytes
    var pos: nat

    constructor (data: Bytes)
      ensures this.data == data && pos == 0
    {
      this.data, this.pos := data, 0;
    }

    ghost predicate Valid()
      reads this
    {
      pos <= |data|
    }

    function Rest(): Bytes
      requires pos <= |data|
      reads this
    {
      data[pos..]
    }

    method TakeBytes(n: nat) returns (r: Option<Bytes>)
      requires Valid()
      modifies this
      ensures Valid()
      ensures var t := Take(old(Rest()), n);
              if t.Some? then r == Some(t.value.0) && Rest() == t.value.1 else r == None && Rest() == old(Rest())
    {
      var end := pos + n;
      if end > |data| {
        return None;
      }
      r := Some(data[pos..end]);
      assert data[pos..][..n] == data[pos..end] && data[pos..][n..] == data[end..];
      pos := end;
    }

    method TakeByte() returns (r: Option<nat>)
      requires Valid()
      modifies this
      ensures Valid()
      ensures var t := TakeU8(old(Rest()));
              if t.Some? then r == Some(t.value.0) && Rest() == t.value.1 else r == None && Rest() == old(Rest())
    {
      var s := TakeBytes(1);
      r := if s.Some? then Some(s.value[0] as nat) else None;
    }

    method TakeShort() returns (r: Option<nat>)
      requires Valid()
      modifies this
      ensures Valid()
      ensures var t := TakeU16(old(Rest()));
              if t.Some? then r == Some(t.value.0) && Rest() == t.value.1 else r == None && Rest() == old(Rest())
    {
      var s := TakeBytes(2);
      r := if s.Some? then Some(s.value[0] as nat * 256 + s.value[1]) else None;
    }

    /// A length byte and that many bytes; where it stops on failure is nobody's business.
    method TakeCounted() returns (r: Option<Bytes>)
      requires Valid()
      modifies this
      ensures Valid()
      ensures var t := TakeVec8(old(Rest()));
              if t.Some? then r == Some(t.value.0) && Rest() == t.value.1 else r == None
    {
      var len :- TakeByte();
      r := TakeBytes(len);
    }

    /// The loop of `parse_alpn`.
    method ReadProtocols() returns (out: seq<Bytes>)
      requires Valid()
      modifies this
      ensures Valid() && out == ParseProtocols(old(Rest()))
    {
      out := [];
      while pos < |data|
        invariant Valid() && out + ParseProtocols(Rest()) == ParseProtocols(old(Rest()))
        decreases |data| - pos
      {
        ghost var rest := Rest();
        var name := TakeCounted();
        if name.None? {
          return;
        }
        assert ParseProtocols(rest) == [name.value] + ParseProtocols(Rest());
        assert |Rest()| < |rest|;
        out := out + [name.value];
      }
    }

    method Remaining() returns (n: nat)
      requires Valid()
      ensures n == |Rest()|
    {
      n := |data| - pos;
    }
  }

  method RunParseSni(data: Bytes) returns (sni: Option<string>)
    ensures sni == ParseSni(data)
  {
    var c := new Cursor(data);
    assert data[0..] == data;
    var _ :- c.TakeShort();
    var kind :- c.TakeByte();
    var len :- c.TakeShort();
    var name :- c.TakeBytes(len);
    sni := if kind == 0 && Utf8.Valid(name) then Some(Utf8.Decode(name)) else None;
  }

  method RunParseAlpn(data: Bytes) returns (out: seq<Bytes>)
    ensures out == ParseAlpn(data)
  {
    var c := new Cursor(data);
    assert data[0..] == data;
    var listLen := c.TakeShort();
    if listLen.None? {
      return [];
    }
    out := c.ReadProtocols();
  }

  /// The extension loop, run with a cursor.
  method RunExtensions(exts: Bytes) returns (info: HelloInfo)
    ensures info == ParseExtensions(exts, HelloInfo(None, []))
  {
    var ec := new Cursor(exts);
    assert exts[0..] == exts;
    info := HelloInfo(None, []);
    var left := |exts|;
    while left >= 4
      invariant ec.Valid() && fresh(ec) && left == |ec.Rest()|
      invariant ParseExtensions(ec.Rest(), info) == ParseExtensions(exts, HelloInfo(None, []))
      decreases left
    {
      var kind := ec.TakeShort();
      var len := ec.TakeShort();
      var body := ec.TakeBytes(len.value);
      if body.None? {
        return;
      }
      if kind.value == 0x0000 {
        var sni := RunParseSni(body.value);
        info := info.(sni := sni);
      } else if kind.value == 0x0010 {
        var alpn := RunParseAlpn(body.value);
        info := info.(alpn := alpn);
      }
      left := ec.Remaining();
    }
  }

  /// `parse_client_hello`, run with a cursor.
  method RunParse(data: Bytes) returns (info: Option<HelloInfo>)
    ensures info == Parse(data)
  {
    var c := new Cursor(data);
    assert data[0..] == data;
    var record :- c.TakeByte();
    if record != 0x16 {
      return None;
    }
    var _ :- c.TakeShort();
    var _ :- c.TakeShort();
    var message :- c.TakeByte();
    if message != 0x01 {
      return None;
    }
    var _ :- c.TakeBytes(3);
    var _ :- c.TakeShort();
    var _ :- c.TakeBytes(32);
    info := RunParseBody(c);
  }

  method RunParseBody(c: Cursor) returns (info: Option<HelloInfo>)
    requires c.Valid()
    modifies c
    ensures info == ParseBody(old(c.Rest()))
  {
    var sessionIdLen :- c.TakeByte();
    var _ :- c.TakeBytes(sessionIdLen);
    var cipherSuitesLen :- c.TakeShort();
    var _ :- c.TakeBytes(cipherSuitesLen);
    var compressionLen :- c.TakeByte();
    var _ :- c.TakeBytes(compressionLen);
    var left := c.Remaining();
    if left < 2 {
      return Some(HelloInfo(None, []));
    }
    var extTotalLen := c.TakeShort();
    var exts :- c.TakeBytes(extTotalLen.value);
    var found := RunExtensions(exts);
    info := Some(found);
  }

  // ----- Writing -----

  datatype Extension =
    | ServerName(host: string, more: Bytes)
    | Alpn(protocols: seq<Bytes>)
    | OtherExtension(kind: nat, body: Bytes)

  datatype Hello = Hello(
    recordVersion: nat,
    version: nat,
    random: Bytes,
    sessionId: Bytes,
    cipherSuites: Bytes,
    compression: Bytes,
    extensions: Option<seq<Extension>>)

  function U16(n: nat): (b: Bytes)
    requires n < 0x1_0000
    ensures |b| == 2
  {
    [n / 256, n % 256]
  }

  function U24(n: nat): (b: Bytes)
    requires n < 0x100_0000
    ensures |b| == 3
  {
    [n / 0x1_0000, n / 256 % 256, n % 256]
  }

  /// A vector with a one-byte length.
  function Vec8(b: Bytes): Bytes
    requires |b| < 256
  {
    [|b|] + b
  }

  /// A vector with a two-byte length.
  function Vec16(b: Bytes): Bytes
    requires |b| < 0x1_0000
  {
    U16(|b|) + b
  }

  predicate GoodProtocols(ps: seq<Bytes>) {
    forall p | p in ps :: 0 < |p| < 256
  }

  function EncodeProtocols(ps: seq<Bytes>): Bytes
    requires GoodProtocols(ps)
  {
    if ps == [] then [] else Vec8(ps[0]) + EncodeProtocols(ps[1..])
  }

  /// The server name list: one host name, then whatever further entries there are.
  function NameList(host: string, more: Bytes): Bytes
    requires |Utf8.Encode(host)| < 0x1_0000
  {
    [0] + (Vec16(Utf8.Encode(host)) + more)
  }

  predicate GoodExtension(e: Extension) {
    match e
    case ServerName(host, more) =>
      host != "" && |Utf8.Encode(host)| < 0x1_0000 && |NameList(host, more)| + 2 < 0x1_0000
    case Alpn(ps) => ps != [] && GoodProtocols(ps) && |EncodeProtocols(ps)| + 2 < 0x1_0000
    case OtherExtension(kind, body) => kind < 0x1_0000 && kind != 0x0000 && kind != 0x0010 && |body| < 0x1_0000
  }

  function Kind(e: Extension): (k: nat)
    requires GoodExtension(e)
    ensures k < 0x1_0000
  {
    match e
    case ServerName(_, _) => 0x0000
    case Alpn(_) => 0x0010
    case OtherExtension(kind, _) => kind
  }

  function ExtensionBody(e: Extension): (b: Bytes)
    requires GoodExtension(e)
    ensures |b| < 0x1_0000
  {
    match e
    case ServerName(host, more) => Vec16(NameList(host, more))
    case Alpn(ps) => Vec16(EncodeProtocols(ps))
    case OtherExtension(_, body) => body
  }

  predicate GoodExtensions(es: seq<Extension>) {
    forall e | e in es :: GoodExtension(e)
  }

  function EncodeExtensions(es: seq<Extension>): Bytes
    requires GoodExtensions(es)
  {
    if es == [] then [] else U16(Kind(es[0])) + (Vec16(ExtensionBody(es[0])) + EncodeExtensions(es[1..]))
  }

  /// Everything before the extensions, from the session id on.
  function Middle(h: Hello, tail: Bytes): Bytes
    requires |h.sessionId| < 256 && |h.cipherSuites| < 0x1_0000 && |h.compression| < 256
  {
    Vec8(h.sessionId) + (Vec16(h.cipherSuites) + (Vec8(h.compression) + tail))
  }

  predicate WellFormed(h: Hello) {
    && h.recordVersion < 0x1_0000 && h.version < 0x1_0000 && |h.random| == 32
    && |h.sessionId| < 256 && |h.cipherSuites| < 0x1_0000 && |h.compression| < 256
    && (h.extensions.Some? ==>
          GoodExtensions(h.extensions.value) && |EncodeExtensions(h.extensions.value)| < 0x1_0000)
    && |Message(h)| + 4 < 0x1_0000
  }

  function ExtensionBlock(h: Hello): Bytes
    requires h.extensions.Some? ==>
               GoodExtensions(h.extensions.value) && |EncodeExtensions(h.extensions.value)| < 0x1_0000
  {
    if h.extensions.None? then [] else Vec16(EncodeExtensions(h.extensions.value))
  }

  /// The body of the handshake message.
  function Message(h: Hello): Bytes
    requires h.version < 0x1_0000
    requires |h.sessionId| < 256 && |h.cipherSuites| < 0x1_0000 && |h.compression| < 256
    requires h.extensions.Some? ==>
               GoodExtensions(h.extensions.value) && |EncodeExtensions(h.extensions.value)| < 0x1_0000
  {
    U16(h.version) + (h.random + Middle(h, ExtensionBlock(h)))
  }

  /// The record that carries the hello.
  function Encode(h: Hello): Bytes
    requires WellFormed(h)
  {
    var m := Message(h);
    [0x16] + (U16(h.recordVersion) + (U16(|m| + 4) + ([0x01] + (U24(|m|) + m))))
  }

  /// The last server name, if any.
  function LastName(es: seq<Extension>, found: Option<string>): Option<string> {
    if es == [] then found
    else LastName(es[1..], if es[0].ServerName? then Some(es[0].host) else found)
  }

  function LastAlpn(es: seq<Extension>, found: seq<Bytes>): seq<Bytes> {
    if es == [] then found
    else LastAlpn(es[1..], if es[0].Alpn? then es[0].protocols else found)
  }

  // ----- Reading what was written -----

  /// Cutting `a + b` to `k` bytes and taking `|a|` of them.
  lemma PeelPrefix(a: Bytes, b: Bytes, k: nat)
    requires k <= |a| + |b|
    ensures Take((a + b)[..k], |a|) == if k < |a| then None else Some((a, b[..k - |a|]))
  {
    if |a| <= k {
      assert (a + b)[..k][..|a|] == a;
      assert (a + b)[..k][|a|..] == b[..k - |a|];
    }
  }

  lemma Peel(a: Bytes, b: Bytes)
    ensures Take(a + b, |a|) == Some((a, b))
  {
    assert (a + b)[..|a|] == a && (a + b)[|a|..] == b;
  }

  lemma PeelU8(n: Byte, b: Bytes)
    ensures TakeU8([n] + b) == Some((n as nat, b))
  {
    Peel([n], b);
  }

  lemma PeelU16(n: nat, b: Bytes)
    requires n < 0x1_0000
    ensures TakeU16(U16(n) + b) == Some((n, b))
  {
    Peel(U16(n), b);
  }

  lemma SniRoundTrip(host: string, more: Bytes)
    requires GoodExtension(ServerName(host, more))
    ensures ParseSni(ExtensionBody(ServerName(host, more))) == Some(host)
  {
    var name := Utf8.Encode(host);
    Utf8.DecodeEncode(host);
    PeelU16(|NameList(host, more)|, NameList(host, more));
    PeelU8(0, Vec16(name) + more);
    assert Vec16(name) + more == U16(|name|) + (name + more);
    PeelU16(|name|, name + more);
    Peel(name, more);
  }

  lemma {:induction false} ProtocolsRoundTrip(ps: seq<Bytes>)
    requires GoodProtocols(ps)
    ensures ParseProtocols(EncodeProtocols(ps)) == ps
  {
    if ps != [] {
      var rest := EncodeProtocols(ps[1..]);
      assert EncodeProtocols(ps) == [|ps[0]|] + (ps[0] + rest);
      PeelU8(|ps[0]|, ps[0] + rest);
      Peel(ps[0], rest);
      ProtocolsRoundTrip(ps[1..]);
    }
  }

  lemma TakeEncodedExtension(e: Extension, rest: Bytes)
    requires GoodExtension(e)
    ensures TakeExtension(U16(Kind(e)) + (Vec16(ExtensionBody(e)) + rest)) == Some((Kind(e), ExtensionBody(e), rest))
  {
    var body := ExtensionBody(e);
    PeelU16(Kind(e), Vec16(body) + rest);
    assert Vec16(body) + rest == U16(|body|) + (body + rest);
    PeelU16(|body|, body + rest);
    Peel(body, rest);
  }

  lemma NotingIsLast(e: Extension, info: HelloInfo)
    requires GoodExtension(e)
    ensures Noting(info, Kind(e), ExtensionBody(e)) ==
            HelloInfo(if e.ServerName? then Some(e.host) else info.sni, if e.Alpn? then e.protocols else info.alpn)
  {
    match e {
      case ServerName(host, more) => SniRoundTrip(host, more);
      case Alpn(ps) =>
        ProtocolsRoundTrip(ps);
        PeelU16(|EncodeProtocols(ps)|, EncodeProtocols(ps));
      case OtherExtension(_, _) =>
    }
  }

  lemma {:induction false} ExtensionsRoundTrip(es: seq<Extension>, info: HelloInfo)
    requires GoodExtensions(es)
    ensures ParseExtensions(EncodeExtensions(es), info) == HelloInfo(LastName(es, info.sni), LastAlpn(es, info.alpn))
    decreases |es|
  {
    if es != [] {
      TakeEncodedExtension(es[0], EncodeExtensions(es[1..]));
      NotingIsLast(es[0], info);
      ExtensionsRoundTrip(es[1..], Noting(info, Kind(es[0]), ExtensionBody(es[0])));
    }
  }

  /// The length of a hello up to its extensions.
  function FixedLength(h: Hello): nat {
    43 + (1 + |h.sessionId|) + (2 + |h.cipherSuites|) + (1 + |h.compression|)
  }

  lemma TakeU16Prefix(n: nat, b: Bytes, k: nat)
    requires n < 0x1_0000 && k <= 2 + |b|
    ensures TakeU16((U16(n) + b)[..k]) == if k < 2 then None else Some((n, b[..k - 2]))
  {
    PeelPrefix(U16(n), b, k);
  }

  lemma TakeU8Prefix(n: Byte, b: Bytes, k: nat)
    requires k <= 1 + |b|
    ensures TakeU8(([n] + b)[..k]) == if k < 1 then None else Some((n as nat, b[..k - 1]))
  {
    PeelPrefix([n], b, k);
  }

  lemma TakeVec8Prefix(v: Bytes, b: Bytes, k: nat)
    requires |v| < 256 && k <= |Vec8(v) + b|
    ensures TakeVec8((Vec8(v) + b)[..k]) == if k < 1 + |v| then None else Some((v, b[..k - 1 - |v|]))
  {
    assert Vec8(v) + b == [|v|] + (v + b);
    TakeU8Prefix(|v|, v + b, k);
    if 1 <= k {
      PeelPrefix(v, b, k - 1);
    }
  }

  lemma TakeVec16Prefix(v: Bytes, b: Bytes, k: nat)
    requires |v| < 0x1_0000 && k <= |Vec16(v) + b|
    ensures TakeVec16((Vec16(v) + b)[..k]) == if k < 2 + |v| then None else Some((v, b[..k - 2 - |v|]))
  {
    assert Vec16(v) + b == U16(|v|) + (v + b);
    TakeU16Prefix(|v|, v + b, k);
    if 2 <= k {
      PeelPrefix(v, b, k - 2);
    }
  }

  /// What the parser reads off the first `k` bytes from the extensions on.
  lemma ParseCutBlock(h: Hello, tail: Bytes, k: nat)
    requires WellFormed(h) && k <= |ExtensionBlock(h) + tail|
    ensures ParseBlock((ExtensionBlock(h) + tail)[..k]) == Outcome(h, tail, k)
  {
    if h.extensions.None? {
      assert ExtensionBlock(h) + tail == tail;
    } else if 2 <= k {
      TakeVec16Prefix(EncodeExtensions(h.extensions.value), tail, k);
      ExtensionsRoundTrip(h.extensions.value, HelloInfo(None, []));
    }
  }

  /// What `k` bytes from the extensions on read as. The parser does not go by the
  /// record's length: without extensions it takes what follows for them.
  function Outcome(h: Hello, tail: Bytes, k: nat): Option<HelloInfo>
    requires WellFormed(h) && k <= |ExtensionBlock(h) + tail|
  {
    if h.extensions.None? then ParseBlock(tail[..k])
    else if k < 2 then Some(HelloInfo(None, []))
    else if k < |ExtensionBlock(h)| then None
    else Some(HelloInfo(LastName(h.extensions.value, None), LastAlpn(h.extensions.value, [])))
  }

  // Each stage of the parser on a cut input hands its cut rest to the next stage.

  lemma CutBody(sid: Bytes, suites: Bytes, comp: Bytes, block: Bytes, k: nat)
    requires |sid| < 256 && |suites| < 0x1_0000 && |comp| < 256
    requires k <= 4 + |sid| + |suites| + |comp| + |block|
    ensures var fixed := 4 + |sid| + |suites| + |comp|;
            ParseBody((Vec8(sid) + (Vec16(suites) + (Vec8(comp) + block)))[..k]) ==
            if k < fixed then None else ParseBlock(block[..k - fixed])
  {
    var rest := Vec16(suites) + (Vec8(comp) + block);
    TakeVec8Prefix(sid, rest, k);
    if 1 + |sid| <= k {
      CutSuites(suites, comp, block, k - 1 - |sid|);
    }
  }

  lemma CutSuites(suites: Bytes, comp: Bytes, block: Bytes, k: nat)
    requires |suites| < 0x1_0000 && |comp| < 256 && k <= 3 + |suites| + |comp| + |block|
    ensures var fixed := 3 + |suites| + |comp|;
            ParseSuites((Vec16(suites) + (Vec8(comp) + block))[..k]) ==
            if k < fixed then None else ParseBlock(block[..k - fixed])
  {
    TakeVec16Prefix(suites, Vec8(comp) + block, k);
    if 2 + |suites| <= k {
      TakeVec8Prefix(comp, block, k - 2 - |suites|);
    }
  }

  lemma CutHandshake(m: nat, version: nat, random: Bytes, body: Bytes, k: nat)
    requires m < 0x100_0000 && version < 0x1_0000 && |random| == 32 && k <= 38 + |body|
    ensures ParseHandshake(([0x01] + (U24(m) + (U16(version) + (random + body))))[..k]) ==
            if k < 38 then None else ParseBody(body[..k - 38])
  {
    var s3 := random + body;
    var s2 := U16(version) + s3;
    TakeU8Prefix(0x01, U24(m) + s2, k);
    if 1 <= k {
      PeelPrefix(U24(m), s2, k - 1);
      if 4 <= k {
        TakeU16Prefix(version, s3, k - 4);
        if 6 <= k {
          PeelPrefix(random, body, k - 6);
        }
      }
    }
  }

  lemma CutRecord(recordVersion: nat, len: nat, handshake: Bytes, k: nat)
    requires recordVersion < 0x1_0000 && len < 0x1_0000 && k <= 5 + |handshake|
    ensures Parse(([0x16] + (U16(recordVersion) + (U16(len) + handshake)))[..k]) ==
            if k < 5 then None else ParseHandshake(handshake[..k - 5])
  {
    var s2 := U16(len) + handshake;
    TakeU8Prefix(0x16, U16(recordVersion) + s2, k);
    if 1 <= k {
      TakeU16Prefix(recordVersion, s2, k - 1);
      if 3 <= k {
        TakeU16Prefix(len, handshake, k - 3);
      }
    }
  }

  function HandshakeWith(h: Hello, block: Bytes): Bytes
    requires WellFormed(h)
  {
    [0x01] + (U24(|Message(h)|) + (U16(h.version) + (h.random + Middle(h, block))))
  }

  lemma PushTailFour(a: Bytes, b: Bytes, c: Bytes, d: Bytes, tail: Bytes)
    ensures (a + (b + (c + d))) + tail == a + (b + (c + (d + tail)))
  {
    Regroup(a, b + (c + d), tail);
    Regroup(b, c + d, tail);
    Regroup(c, d, tail);
  }

  lemma MessageWithTail(h: Hello, tail: Bytes)
    requires WellFormed(h)
    ensures ([0x01] + (U24(|Message(h)|) + Message(h))) + tail == HandshakeWith(h, ExtensionBlock(h) + tail)
  {
    var middle := Middle(h, ExtensionBlock(h));
    PushTailFour(Vec8(h.sessionId), Vec16(h.cipherSuites), Vec8(h.compression), ExtensionBlock(h), tail);
    assert middle + tail == Middle(h, ExtensionBlock(h) + tail);
    Regroup([0x01], U24(|Message(h)|) + Message(h), tail);
    PushTailFour(U24(|Message(h)|), U16(h.version), h.random, middle, tail);
  }

  /// A record whose handshake message ends in this block.
  function RecordWith(h: Hello, block: Bytes): Bytes
    requires WellFormed(h)
  {
    [0x16] + (U16(h.recordVersion) + (U16(|Message(h)| + 4) + HandshakeWith(h, block)))
  }

  lemma EncodeWithTail(h: Hello, tail: Bytes)
    requires WellFormed(h)
    ensures Encode(h) + tail == RecordWith(h, ExtensionBlock(h) + tail)
  {
    var handshake := [0x01] + (U24(|Message(h)|) + Message(h));
    PushTailFour([0x16], U16(h.recordVersion), U16(|Message(h)| + 4), handshake, tail);
    MessageWithTail(h, tail);
  }

  lemma EncodeLength(h: Hello)
    requires WellFormed(h)
    ensures |Encode(h)| == FixedLength(h) + |ExtensionBlock(h)|
  {
    assert |Message(h)| == 34 + |Middle(h, ExtensionBlock(h))|;
  }

  lemma RecordLength(h: Hello, block: Bytes)
    requires WellFormed(h)
    ensures |RecordWith(h, block)| == FixedLength(h) + |block| && |HandshakeWith(h, block)| == FixedLength(h) - 5 + |block|
  {
    assert |Middle(h, block)| == FixedLength(h) - 43 + |block|;
  }

  lemma CutHandshakeWith(h: Hello, block: Bytes, k: nat)
    requires WellFormed(h) && k <= FixedLength(h) - 5 + |block|
    ensures ParseHandshake(HandshakeWith(h, block)[..k]) ==
            if k < FixedLength(h) - 5 then None else ParseBlock(block[..k - FixedLength(h) + 5])
  {
    CutHandshake(|Message(h)|, h.version, h.random, Middle(h, block), k);
    if 38 <= k {
      CutBody(h.sessionId, h.cipherSuites, h.compression, block, k - 38);
    }
  }

  lemma CutRecordWith(h: Hello, block: Bytes, k: nat)
    requires WellFormed(h) && k <= FixedLength(h) + |block|
    ensures k <= |RecordWith(h, block)|
    ensures Parse(RecordWith(h, block)[..k]) ==
            if k < FixedLength(h) then None else ParseBlock(block[..k - FixedLength(h)])
  {
    RecordLength(h, block);
    CutRecord(h.recordVersion, |Message(h)| + 4, HandshakeWith(h, block), k);
    if 5 <= k {
      CutHandshakeWith(h, block, k - 5);
    }
  }

  lemma ParseCutRecord(h: Hello, tail: Bytes, k: nat)
    requires WellFormed(h) && k <= FixedLength(h) + |ExtensionBlock(h) + tail|
    ensures k <= |RecordWith(h, ExtensionBlock(h) + tail)|
    ensures Parse(RecordWith(h, ExtensionBlock(h) + tail)[..k]) ==
            if k < FixedLength(h) then None else Outcome(h, tail, k - FixedLength(h))
  {
    CutRecordWith(h, ExtensionBlock(h) + tail, k);
    if FixedLength(h) <= k {
      ParseCutBlock(h, tail, k - FixedLength(h));
    }
  }

  /// Parsing any prefix of an encoded hello, followed by anything: too short
  /// for the fixed part gives nothing, cut inside the extensions gives nothing,
  /// cut right before them reads as a hello without any, a complete hello gives
  /// exactly its host name and protocol list, and after a hello without
  /// extensions the bytes that follow are read as some.
  lemma ParsePrefix(h: Hello, tail: Bytes, k: nat)
    requires WellFormed(h) && k <= |Encode(h) + tail|
    ensures |Encode(h)| == FixedLength(h) + |ExtensionBlock(h)|
    ensures Parse((Encode(h) + tail)[..k]) ==
            if k < FixedLength(h) then None
            else if h.extensions.None? then ParseBlock(tail[..k - FixedLength(h)])
            else if k < FixedLength(h) + 2 then Some(HelloInfo(None, []))
            else if k < |Encode(h)| then None
            else Some(HelloInfo(LastName(h.extensions.value, None), LastAlpn(h.extensions.value, [])))
  {
    EncodeLength(h);
    EncodeWithTail(h, tail);
    ParseCutRecord(h, tail, k);
  }

  lemma ReadsWhatFollows(h: Hello, tail: Bytes)
    requires WellFormed(h) && h.extensions.None?
    ensures Parse(Encode(h) + tail) == ParseBlock(tail)
  {
    var all := Encode(h) + tail;
    ParsePrefix(h, tail, |all|);
    assert all[..|all|] == all && tail[..|tail|] == tail;
    assert |Encode(h)| == FixedLength(h);
  }

  lemma BlockReads(es: seq<Extension>, rest: Bytes)
    requires GoodExtensions(es) && |EncodeExtensions(es)| < 0x1_0000
    ensures ParseBlock(Vec16(EncodeExtensions(es)) + rest) == Some(HelloInfo(LastName(es, None), LastAlpn(es, [])))
  {
    var tail := Vec16(EncodeExtensions(es)) + rest;
    assert tail[..|tail|] == tail;
    TakeVec16Prefix(EncodeExtensions(es), rest, |tail|);
    ExtensionsRoundTrip(es, HelloInfo(None, []));
  }

  /// A hello without extensions reads as such by itself, but takes the host name
  /// and the protocols of an extension block that happens to follow it.
  lemma ExtensionlessReadsOn(h: Hello, es: seq<Extension>, rest: Bytes)
    requires WellFormed(h) && h.extensions.None?
    requires GoodExtensions(es) && |EncodeExtensions(es)| < 0x1_0000
    ensures Parse(Encode(h)) == Some(HelloInfo(None, []))
    ensures Parse(Encode(h) + (Vec16(EncodeExtensions(es)) + rest)) == Some(HelloInfo(LastName(es, None), LastAlpn(es, [])))
  {
    ReadsWhatFollows(h, []);
    assert Encode(h) + [] == Encode(h);
    ReadsWhatFollows(h, Vec16(EncodeExtensions(es)) + rest);
    BlockReads(es, rest);
  }

  /// At most one extension of each of the two kinds.
  predicate NoRepeats(es: seq<Extension>) {
    forall i, j | 0 <= i < j < |es| :: !(es[i].ServerName? && es[j].ServerName?) && !(es[i].Alpn? && es[j].Alpn?)
  }

  lemma {:induction false} LastIsOnly(es: seq<Extension>, i: nat, name: Option<string>, alpn: seq<Bytes>)
    requires NoRepeats(es) && i < |es|
    ensures es[i].ServerName? ==> LastName(es, name) == Some(es[i].host)
    ensures es[i].Alpn? ==> LastAlpn(es, alpn) == es[i].protocols
    decreases |es|
  {
    var name' := if es[0].ServerName? then Some(es[0].host) else name;
    var alpn' := if es[0].Alpn? then es[0].protocols else alpn;
    if i == 0 {
      LastIfNone(es[1..], name', alpn');
    } else {
      LastIsOnly(es[1..], i - 1, name', alpn');
    }
  }

  lemma {:induction false} LastIfNone(es: seq<Extension>, name: Option<string>, alpn: seq<Bytes>)
    ensures (forall e | e in es :: !e.ServerName?) ==> LastName(es, name) == name
    ensures (forall e | e in es :: !e.Alpn?) ==> LastAlpn(es, alpn) == alpn
    decreases |es|
  {
    if es != [] {
      assert es[0] in es && forall e | e in es[1..] :: e in es;
      LastIfNone(es[1..], if es[0].ServerName? then Some(es[0].host) else name,
                 if es[0].Alpn? then es[0].protocols else alpn);
    }
  }

  /// The round trip: for every well-formed hello with at most one server name
  /// and one ALPN extension, anywhere among any others, parsing its bytes (with
  /// anything after them) gives exactly that host name and that protocol list,
  /// and nothing where there is no such extension.
  lemma HelloRoundTrip(h: Hello, tail: Bytes)
    requires WellFormed(h) && h.extensions.Some? && NoRepeats(h.extensions.value)
    ensures var parsed, es := Parse(Encode(h) + tail), h.extensions.value;
            && parsed.Some?
            && (forall i | 0 <= i < |es| && es[i].ServerName? :: parsed.value.sni == Some(es[i].host))
            && (forall i | 0 <= i < |es| && es[i].Alpn? :: parsed.value.alpn == es[i].protocols)
            && ((forall e | e in es :: !e.ServerName?) ==> parsed.value.sni == None)
            && ((forall e | e in es :: !e.Alpn?) ==> parsed.value.alpn == [])
  {
    var es, all := h.extensions.value, Encode(h) + tail;
    ParsePrefix(h, tail, |all|);
    assert all[..|all|] == all;
    forall i | 0 <= i < |es| { LastIsOnly(es, i, None, []); }
    LastIfNone(es, None, []);
  }
}
