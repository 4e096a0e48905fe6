/// Content codings and captured payloads of `crates/hamsy-core/src/body.rs`.

module Body {
  import opened Common
  import opened Tokens
  import Utf8
  import Base64

  /// The cap on every intermediate decoding step.
  const MAX_DECODE_OUTPUT: nat := 128 * 1024 * 1024

  datatype Coding = Gzip | Zlib | RawDeflate | Brotli | Zstd

  /// What reading a decoder to its end yields: some bytes, then the end or an error.
  datatype Stream = Stream(output: Bytes, failed: bool)

  /// The compression libraries.
  datatype Codecs = Codecs(decode: (Coding, Bytes) -> Stream, encode: (Coding, Bytes) -> Bytes)

  /// Decoding undoes encoding; `encode_body` never writes raw DEFLATE.
  ghost predicate Inverse(C: Codecs) {
    forall k, b {:trigger C.encode(k, b)} :: k != RawDeflate ==> C.decode(k, C.encode(k, b)) == Stream(b, false)
  }

  /// Output and whether it was cut at the cap.
  type Decoded = Result<(Bytes, bool), string>

  /// `read_capped`.
  function ReadCapped(s: Stream, max: nat): Decoded {
    if |s.output| > max then Ok((s.output[..max], true))
    else if s.failed then Err("decode failed")
    else Ok((s.output, false))
  }

  /// `decode_single`; the token is already normalised.
  function DecodeSingle(C: Codecs, b: Bytes, token: string, max: nat): Decoded {
    if token == "gzip" || token == "x-gzip" then ReadCapped(C.decode(Gzip, b), max)
    else if token == "deflate" then
      var zlib := ReadCapped(C.decode(Zlib, b), max);
      if zlib.Ok? && zlib.value.0 != [] then zlib else ReadCapped(C.decode(RawDeflate, b), max)
    else if token == "br" then ReadCapped(C.decode(Brotli, b), max)
    else if token == "zstd" then ReadCapped(C.decode(Zstd, b), max)
    else Ok((b, false))
  }

  /// The decoding loop, last coding first.
  function DecodeTokens(C: Codecs, b: Bytes, tokens: seq<string>, max: nat): Decoded
    decreases |tokens|
  {
    var n := |tokens|;
    if n == 0 then Ok((b, false))
    else
      var step := DecodeSingle(C, b, tokens[n - 1], if n == 1 then max else MAX_DECODE_OUTPUT);
      if step.Err? || step.value.1 then step else DecodeTokens(C, step.value.0, tokens[..n - 1], max)
  }

  /// `decode_body`.
  function DecodeBody(C: Codecs, b: Bytes, encoding: Option<string>, max: nat): Decoded {
    if encoding.None? then Ok((b, false)) else DecodeTokens(C, b, ListTokens(encoding.value), max)
  }

  /// `decode_body`, with its loop over the codings in reverse.
  method RunDecodeBody(C: Codecs, bytes: Bytes, encoding: Option<string>, max: nat) returns (r: Decoded)
    ensures r == DecodeBody(C, bytes, encoding, max)
  {
    if encoding.None? {
      return Ok((bytes, false));
    }
    var data := bytes;
    var codings := ListTokens(encoding.value);
    var left := |codings|;
    assert codings[..left] == codings;
    while left > 0
      invariant 0 <= left <= |codings|
      invariant DecodeTokens(C, data, codings[..left], max) == DecodeBody(C, bytes, encoding, max)
    {
      var limit := if left == 1 then max else MAX_DECODE_OUTPUT;
      var step := DecodeSingle(C, data, codings[left - 1], limit);
      if step.Err? || step.value.1 {
        return step;
      }
      assert codings[..left][..left - 1] == codings[..left - 1];
      data := step.value.0;
      left := left - 1;
    }
    r := Ok((data, false));
  }

  /// The library that a normalised token stands for.
  function CodingOf(token: string): Option<Coding> {
    if token == "gzip" || token == "x-gzip" then Some(Gzip)
    else if token == "deflate" then Some(Zlib)
    else if token == "br" then Some(Brotli)
    else if token == "zstd" then Some(Zstd)
    else None
  }

  /// `encode_body`.
  function EncodeBody(C: Codecs, b: Bytes, encoding: string): Bytes {
    var k := CodingOf(Normal(encoding));
    if k.Some? then C.encode(k.value, b) else b
  }

  /// The codings applied one after the other, as a sender does.
  function EncodeAll(C: Codecs, b: Bytes, encodings: seq<string>): Bytes
    decreases |encodings|
  {
    if encodings == [] then b
    else
      var n := |encodings| - 1;
      EncodeBody(C, EncodeAll(C, b, encodings[..n]), encodings[n])
  }

  /// The names of the codings: which library writes and reads each of them.
  lemma CodingsByName(C: Codecs, b: Bytes, max: nat)
    ensures EncodeBody(C, b, "gzip") == EncodeBody(C, b, "x-gzip") == C.encode(Gzip, b)
    ensures EncodeBody(C, b, "deflate") == C.encode(Zlib, b)
    ensures EncodeBody(C, b, "br") == C.encode(Brotli, b) && EncodeBody(C, b, "zstd") == C.encode(Zstd, b)
    ensures DecodeSingle(C, b, "gzip", max) == DecodeSingle(C, b, "x-gzip", max) == ReadCapped(C.decode(Gzip, b), max)
    ensures DecodeSingle(C, b, "br", max) == ReadCapped(C.decode(Brotli, b), max)
    ensures DecodeSingle(C, b, "zstd", max) == ReadCapped(C.decode(Zstd, b), max)
  {
    NamesAreNormal();
  }

  lemma NamesAreNormal()
    ensures Normal("gzip") == "gzip" && Normal("x-gzip") == "x-gzip" && Normal("deflate") == "deflate"
    ensures Normal("br") == "br" && Normal("zstd") == "zstd"
  {
    TokenIsNormal("gzip");
    TokenIsNormal("x-gzip");
    TokenIsNormal("deflate");
    TokenIsNormal("br");
    TokenIsNormal("zstd");
    LowerNames();
  }

  lemma LowerNames()
    ensures Lower("gzip") == "gzip" && Lower("x-gzip") == "x-gzip" && Lower("deflate") == "deflate"
    ensures Lower("br") == "br" && Lower("zstd") == "zstd"
  {
  }

  // ----- Layered codings -----

  /// The body as a step with this cap hands it on.
  function Capped(b: Bytes, token: string, max: nat): (Bytes, bool) {
    if CodingOf(token).Some? && |b| > max then (b[..max], true) else (b, false)
  }

  /// Where `deflate` falls through to raw DEFLATE although zlib worked.
  predicate FallsThrough(b: Bytes, token: string, max: nat) {
    token == "deflate" && (b == [] || max == 0)
  }

  /// One coding undone gives the capped body, except where zlib output that is
  /// empty (an empty body, or a cap of zero) sends `deflate` to the raw decoder.
  lemma DecodeUndoesEncode(C: Codecs, b: Bytes, encoding: string, max: nat)
    requires Inverse(C)
    ensures DecodeSingle(C, EncodeBody(C, b, encoding), Normal(encoding), max) ==
            if FallsThrough(b, Normal(encoding), max)
            then ReadCapped(C.decode(RawDeflate, C.encode(Zlib, b)), max)
            else Ok(Capped(b, Normal(encoding), max))
  {
    var k := CodingOf(Normal(encoding));
    if k.Some? {
      assert C.decode(k.value, C.encode(k.value, b)) == Stream(b, false);
    }
  }

  /// So `deflate` gives a body back exactly when body and cap are non-empty,
  /// unless the raw decoder happens to say the same.
  lemma DeflateRoundTripIff(C: Codecs, b: Bytes, max: nat)
    requires Inverse(C)
    ensures DecodeSingle(C, EncodeBody(C, b, "deflate"), "deflate", max) == Ok(Capped(b, "deflate", max)) <==>
            (b != [] && max > 0)
            || ReadCapped(C.decode(RawDeflate, C.encode(Zlib, b)), max) == Ok(Capped(b, "deflate", max))
  {
    DeflateIsNormal();
    DecodeUndoesEncode(C, b, "deflate", max);
  }

  /// The zlib form of the empty body is no raw DEFLATE: its header reads as the
  /// start of a stored block whose length and complement disagree.
  ghost predicate EmptyZlibIsNotRaw(C: Codecs) {
    C.decode(RawDeflate, C.encode(Zlib, [])) == Stream([], true)
  }

  lemma DeflateIsNormal()
    ensures Normal("deflate") == "deflate" && ListTokens("deflate") == ["deflate"]
  {
    assert Lower("deflate") == "deflate";
    TokenIsNormal("deflate");
    TokensOfOne("deflate");
  }

  /// With such a raw decoder `deflate` gives back every body but the empty one,
  /// which is an error instead.
  lemma DeflateFailsOnEmpty(C: Codecs, b: Bytes, max: nat)
    requires Inverse(C) && EmptyZlibIsNotRaw(C) && max > 0
    ensures var r := DecodeSingle(C, EncodeBody(C, b, "deflate"), "deflate", max);
            && (r == Ok(Capped(b, "deflate", max)) <==> b != [])
            && (r.Err? <==> b == [])
  {
    DeflateIsNormal();
    DecodeUndoesEncode(C, b, "deflate", max);
  }

  lemma OneTokenIsSingle(C: Codecs, b: Bytes, token: string, max: nat)
    ensures DecodeTokens(C, b, [token], max) == DecodeSingle(C, b, token, max)
  {
    assert [token][..0] == [];
  }

  /// So an empty body sent as `deflate` is captured as its coded bytes.
  lemma EmptyDeflateIsCapturedCoded(C: Codecs, max: nat)
    requires Inverse(C) && EmptyZlibIsNotRaw(C)
    ensures DecodedFor(C, EncodeBody(C, [], "deflate"), Some("deflate"), max) == (C.encode(Zlib, []), false)
  {
    DeflateIsNormal();
    var limit := Min(max + 3, MAX_DECODE_OUTPUT);
    DeflateFailsOnEmpty(C, [], limit);
    OneTokenIsSingle(C, EncodeBody(C, [], "deflate"), "deflate", limit);
  }

  /// The intermediate representations fit their cap and no `deflate` falls through.
  predicate FitsBetween(C: Codecs, b: Bytes, encodings: seq<string>, max: nat) {
    && (forall i | 1 <= i < |encodings| ::
          CodingOf(Normal(encodings[i])).Some? ==> |EncodeAll(C, b, encodings[..i])| <= MAX_DECODE_OUTPUT)
    && (forall i | 0 <= i < |encodings| ::
          !FallsThrough(EncodeAll(C, b, encodings[..i]), Normal(encodings[i]), if i == 0 then max else MAX_DECODE_OUTPUT))
  }

  function Normals(encodings: seq<string>): (r: seq<string>)
    ensures |r| == |encodings|
  {
    seq(|encodings|, i requires 0 <= i < |encodings| => Normal(encodings[i]))
  }

  lemma {:induction false} TokensUndone(C: Codecs, b: Bytes, encodings: seq<string>, max: nat)
    requires Inverse(C) && FitsBetween(C, b, encodings, max)
    ensures DecodeTokens(C, EncodeAll(C, b, encodings), Normals(encodings), max) ==
            Ok(if encodings == [] then (b, false) else Capped(b, Normal(encodings[0]), max))
    decreases |encodings|
  {
    if encodings != [] {
      var n := |encodings| - 1;
      var init := encodings[..n];
      var before := EncodeAll(C, b, init);
      DecodeUndoesEncode(C, before, encodings[n], if n == 0 then max else MAX_DECODE_OUTPUT);
      assert Normals(encodings)[..n] == Normals(init);
      if n > 0 {
        assert forall i | 0 <= i <= n :: init[..i] == encodings[..i];
        TokensUndone(C, b, init, max);
      } else {
        assert before == b;
      }
    }
  }

  /// Codings undo in reverse order: for any list of codings, decoding what
  /// repeated encoding made gives the body back when it fits the cap, and
  /// otherwise its first `max` bytes, flagged, if the first coding compresses.
  lemma LayeredRoundTrip(C: Codecs, b: Bytes, encodings: seq<string>, header: string, max: nat)
    requires Inverse(C) && FitsBetween(C, b, encodings, max)
    requires ListTokens(header) == Normals(encodings)
    ensures DecodeBody(C, EncodeAll(C, b, encodings), Some(header), max) ==
            Ok(if encodings == [] then (b, false) else Capped(b, Normal(encodings[0]), max))
  {
    TokensUndone(C, b, encodings, max);
  }

  lemma {:induction false} LowersAreNormals(encodings: seq<string>)
    requires forall t | t in encodings :: IsToken(t)
    ensures Lowers(encodings) == Normals(encodings)
  {
    if encodings != [] {
      assert encodings[0] in encodings && forall t | t in encodings[1..] :: t in encodings;
      TokenIsNormal(encodings[0]);
      LowersAreNormals(encodings[1..]);
      assert Normals(encodings) == [Normal(encodings[0])] + Normals(encodings[1..]);
    }
  }

  /// The usual header value, tokens joined by commas, is one that works.
  lemma JoinedHeaderWorks(encodings: seq<string>)
    requires forall t | t in encodings :: IsToken(t)
    ensures ListTokens(JoinTokens(encodings)) == Normals(encodings)
  {
    ListRoundTrip(encodings);
    LowersAreNormals(encodings);
  }

  /// The last coding undone, with more codings before it, when nothing falls through.
  lemma UndoLast(C: Codecs, b: Bytes, encodings: seq<string>, max: nat)
    requires Inverse(C) && |encodings| > 1
    requires var n := |encodings| - 1;
             !FallsThrough(EncodeAll(C, b, encodings[..n]), Normal(encodings[n]), MAX_DECODE_OUTPUT)
    ensures var n := |encodings| - 1;
            var (data, cut) := Capped(EncodeAll(C, b, encodings[..n]), Normal(encodings[n]), MAX_DECODE_OUTPUT);
            DecodeTokens(C, EncodeAll(C, b, encodings), Normals(encodings), max) ==
            if cut then Ok((data, true)) else DecodeTokens(C, data, Normals(encodings[..n]), max)
  {
    var n := |encodings| - 1;
    DecodeUndoesEncode(C, EncodeAll(C, b, encodings[..n]), encodings[n], MAX_DECODE_OUTPUT);
    assert Normals(encodings)[..n] == Normals(encodings[..n]);
  }

  /// The layer below coding `j` comes out of its decoding step whole.
  predicate LayerPasses(C: Codecs, b: Bytes, encodings: seq<string>, j: nat)
    requires j < |encodings|
  {
    var layer := EncodeAll(C, b, encodings[..j]);
    !Capped(layer, Normal(encodings[j]), MAX_DECODE_OUTPUT).1
    && !FallsThrough(layer, Normal(encodings[j]), MAX_DECODE_OUTPUT)
  }

  lemma LayerPassesInit(C: Codecs, b: Bytes, encodings: seq<string>, n: nat, j: nat)
    requires j < n <= |encodings|
    ensures LayerPasses(C, b, encodings[..n], j) == LayerPasses(C, b, encodings, j)
  {
    assert encodings[..n][..j] == encodings[..j];
  }

  lemma LayersPassInit(C: Codecs, b: Bytes, encodings: seq<string>, n: nat, i: nat)
    requires i < n <= |encodings| && forall j | i < j < n :: LayerPasses(C, b, encodings, j)
    ensures encodings[..n][..i] == encodings[..i] && encodings[..n][i] == encodings[i]
    ensures forall j | i < j < n :: LayerPasses(C, b, encodings[..n], j)
  {
    forall j | i < j < n {
      LayerPassesInit(C, b, encodings, n, j);
    }
  }

  /// An intermediate representation over the cap ends decoding there.
  lemma {:induction false} OversizedLayerStops(C: Codecs, b: Bytes, encodings: seq<string>, max: nat, i: nat)
    requires Inverse(C) && 1 <= i < |encodings|
    requires CodingOf(Normal(encodings[i])).Some? && |EncodeAll(C, b, encodings[..i])| > MAX_DECODE_OUTPUT
    requires forall j | i < j < |encodings| :: LayerPasses(C, b, encodings, j)
    ensures DecodeTokens(C, EncodeAll(C, b, encodings), Normals(encodings), max) ==
            Ok((EncodeAll(C, b, encodings[..i])[..MAX_DECODE_OUTPUT], true))
    decreases |encodings|
  {
    var n := |encodings| - 1;
    if i == n {
      UndoLast(C, b, encodings, max);
    } else {
      assert LayerPasses(C, b, encodings, n);
      UndoLast(C, b, encodings, max);
      LayersPassInit(C, b, encodings, n, i);
      OversizedLayerStops(C, b, encodings[..n], max, i);
    }
  }

  /// Coding `i` is undone to just what it was applied to: that fits the cap of its
  /// step, or is not compressed, and is not the empty body under `deflate`.
  predicate LayerIsWhole(C: Codecs, b: Bytes, encodings: seq<string>, i: nat, max: nat)
    requires i < |encodings|
  {
    var before, token := EncodeAll(C, b, encodings[..i]), Normal(encodings[i]);
    && (CodingOf(token).Some? ==> |before| <= if i == 0 then max else MAX_DECODE_OUTPUT)
    && !(token == "deflate" && before == [])
  }

  predicate AllWhole(C: Codecs, b: Bytes, encodings: seq<string>, max: nat) {
    forall i | 0 <= i < |encodings| :: LayerIsWhole(C, b, encodings, i, max)
  }

  lemma AllWholeSnoc(C: Codecs, b: Bytes, encodings: seq<string>, max: nat)
    requires encodings != []
    ensures var n := |encodings| - 1;
            AllWhole(C, b, encodings, max) <==> LayerIsWhole(C, b, encodings, n, max) && AllWhole(C, b, encodings[..n], max)
  {
    var n := |encodings| - 1;
    assert forall i | 0 <= i < n :: encodings[..n][..i] == encodings[..i];
    assert forall i | 0 <= i < n :: LayerIsWhole(C, b, encodings[..n], i, max) == LayerIsWhole(C, b, encodings, i, max);
  }

  predicate WholeFrom(r: Decoded, b: Bytes, whole: bool) {
    && (r.Ok? && !r.value.1 <==> whole)
    && (r.Ok? && !r.value.1 ==> r.value.0 == b)
  }

  /// Decoding repeated encodings ends without an error and unflagged exactly when
  /// every layer is whole, and then with the body: never with a part of it, or
  /// with one of its coded forms.
  lemma {:induction false} WholeIff(C: Codecs, b: Bytes, encodings: seq<string>, max: nat)
    requires Inverse(C) && EmptyZlibIsNotRaw(C) && max > 0
    ensures WholeFrom(DecodeTokens(C, EncodeAll(C, b, encodings), Normals(encodings), max), b, AllWhole(C, b, encodings, max))
    decreases |encodings|
  {
    if encodings != [] {
      var n := |encodings| - 1;
      var init := encodings[..n];
      DecodeUndoesEncode(C, EncodeAll(C, b, init), encodings[n], if n == 0 then max else MAX_DECODE_OUTPUT);
      assert Normals(encodings)[..n] == Normals(init);
      AllWholeSnoc(C, b, encodings, max);
      WholeIff(C, b, init, max);
    }
  }

  // ----- Payloads -----

  datatype BodyKind = TextBody | Base64Body | NoBody | TruncatedBody

  datatype BodyPayload = BodyPayload(kind: BodyKind, data: string, size: nat, truncated: bool, encoding: Option<string>)

  /// `has_control_bytes`.
  predicate HasControlBytes(b: Bytes) {
    exists i | 0 <= i < |b| :: b[i] < 0x20 && b[i] !in {9, 10, 13}
  }

  /// `is_textual_mime`.
  predicate IsTextualMime(mime: string) {
    IsTextualType(Normal(Before(mime, ';')))
  }

  predicate IsTextualType(m: string) {
    || "text/" <= m
    || (|m| >= 5 && m[|m| - 5..] == "+json")
    || (|m| >= 4 && m[|m| - 4..] == "+xml")
    || m in ["application/json", "application/xml", "application/xhtml+xml", "application/javascript",
             "application/x-javascript", "application/ecmascript", "application/x-www-form-urlencoded",
             "application/graphql", "application/manifest+json", "image/svg+xml"]
  }

  /// What `to_payload` works on: the decoded bytes, or the raw ones if decoding fails.
  function DecodedFor(C: Codecs, b: Bytes, encoding: Option<string>, max: nat): (Bytes, bool) {
    var d := DecodeBody(C, b, encoding, Min(max + 3, MAX_DECODE_OUTPUT));
    if d.Ok? then d.value else (b, false)
  }

  predicate IsText(decoded: Bytes, cut: bool, contentType: Option<string>) {
    (Utf8.Valid(decoded) || (cut && Utf8.EndsMidChar(decoded))) &&
    ((contentType.Some? && IsTextualMime(contentType.value)) || !HasControlBytes(decoded))
  }

  /// The loop that backs up to a character boundary.
  function BackUp(prefix: Bytes, end: nat): (r: nat)
    requires end <= |prefix|
    ensures r <= end && Utf8.Valid(prefix[..r])
    ensures forall k | r < k <= end :: !Utf8.Valid(prefix[..k])
  {
    if end == 0 || Utf8.Valid(prefix[..end]) then end else BackUp(prefix, end - 1)
  }

  /// The packaging half of `to_payload`.
  function Package(decoded: Bytes, cut: bool, contentType: Option<string>, encoding: Option<string>, max: nat): BodyPayload {
    var text := IsText(decoded, cut, contentType);
    if decoded == [] && !cut then BodyPayload(NoBody, "", 0, false, encoding)
    else if |decoded| <= max && !cut then
      if text then BodyPayload(TextBody, Utf8.Decode(decoded), |decoded|, false, encoding)
      else BodyPayload(Base64Body, Base64.Encode(decoded), |decoded|, false, encoding)
    else
      var prefix := decoded[..Min(|decoded|, max)];
      var data := if text then Utf8.Decode(prefix[..BackUp(prefix, |prefix|)]) else Base64.Encode(prefix);
      BodyPayload(TruncatedBody, data, |decoded|, true, encoding)
  }

  /// `to_payload`.
  function ToPayload(C: Codecs, b: Bytes, contentType: Option<string>, encoding: Option<string>, max: nat): BodyPayload {
    var (decoded, cut) := DecodedFor(C, b, encoding, max);
    Package(decoded, cut, contentType, encoding, max)
  }

  /// `from_payload`.
  function FromPayload(p: BodyPayload): Bytes {
    match p.kind
    case TextBody => Utf8.Encode(p.data)
    case Base64Body =>
      var b := Base64.Decode(p.data);
      if b.Some? then b.value else []
    case _ => []
  }

  /// The truncation loop of `to_payload`, run in place.
  method RunBackUp(prefix: Bytes) returns (end: nat)
    ensures end == BackUp(prefix, |prefix|)
  {
    end := |prefix|;
    while end > 0 && !Utf8.Valid(prefix[..end])
      invariant end <= |prefix| && BackUp(prefix, end) == BackUp(prefix, |prefix|)
    {
      end := end - 1;
    }
  }

  /// `to_payload` as the source runs it.
  method RunToPayload(C: Codecs, bytes: Bytes, contentType: Option<string>, encoding: Option<string>, max: nat)
    returns (p: BodyPayload)
    ensures p == ToPayload(C, bytes, contentType, encoding, max)
  {
    var d := RunDecodeBody(C, bytes, encoding, Min(max + 3, MAX_DECODE_OUTPUT));
    var (decoded, cut) := if d.Ok? then d.value else (bytes, false);
    if decoded == [] && !cut {
      return BodyPayload(NoBody, "", 0, false, encoding);
    }
    var text := IsText(decoded, cut, contentType);
    if |decoded| <= max && !cut {
      if text {
        return BodyPayload(TextBody, Utf8.Decode(decoded), |decoded|, false, encoding);
      }
      return BodyPayload(Base64Body, Base64.Encode(decoded), |decoded|, false, encoding);
    }
    var prefix := decoded[..Min(|decoded|, max)];
    var data;
    if text {
      var end := RunBackUp(prefix);
      data := Utf8.Decode(prefix[..end]);
    } else {
      data := Base64.Encode(prefix);
    }
    p := BodyPayload(TruncatedBody, data, |decoded|, true, encoding);
  }

  /// A payload that is not truncated gives back exactly the decoded bytes, and
  /// it is truncated only when they exceed the cap or decoding was cut.
  lemma UntruncatedGivesBack(decoded: Bytes, cut: bool, contentType: Option<string>, encoding: Option<string>, max: nat)
    ensures var p := Package(decoded, cut, contentType, encoding, max);
            && (p.truncated <==> |decoded| > max || cut)
            && (!p.truncated ==> FromPayload(p) == decoded)
            && p.size == |decoded|
  {
    if decoded != [] && !cut && |decoded| <= max {
      if IsText(decoded, cut, contentType) {
        Utf8.EncodeDecode(decoded);
      } else {
        Base64.DecodeIffEncoded(Base64.Encode(decoded), decoded);
      }
    }
  }

  /// A truncated text payload is the longest valid UTF-8 prefix within the
  /// cap, at most 3 bytes short of the cut-off, also when decoding itself
  /// stopped in mid-character; a truncated binary one is exactly the prefix.
  lemma TruncatedIsLongestPrefix(decoded: Bytes, cut: bool, contentType: Option<string>, encoding: Option<string>, max: nat)
    requires Package(decoded, cut, contentType, encoding, max).truncated
    ensures var p := Package(decoded, cut, contentType, encoding, max);
            if IsText(decoded, cut, contentType) then
              var kept := Utf8.Encode(p.data);
              && kept <= decoded && Utf8.LongestValidPrefix(decoded, max, |kept|)
              && Min(|decoded|, max) - 3 <= |kept|
            else Base64.Decode(p.data) == Some(decoded[..Min(|decoded|, max)])
  {
    var prefix := decoded[..Min(|decoded|, max)];
    if IsText(decoded, cut, contentType) {
      var end := BackUp(prefix, |prefix|);
      Utf8.EncodeDecode(prefix[..end]);
      var near := Utf8.BoundaryWithinThree(decoded, |prefix|);
      assert forall k | 0 <= k <= |prefix| :: prefix[..k] == decoded[..k];
    } else {
      Base64.DecodeIffEncoded(Base64.Encode(prefix), prefix);
    }
  }

  // ----- From the sender's text to the capture -----

  lemma {:induction false} CutTextIsText(b: Bytes, cut: nat)
    requires Utf8.Valid(b) && cut <= |b|
    ensures Utf8.Valid(b[..cut]) || Utf8.EndsMidChar(b[..cut])
    decreases |b|
  {
    if b != [] && cut > 0 {
      var n := Utf8.CharLen(b);
      if n <= cut {
        CutTextIsText(b[n..], cut - n);
        Utf8.CharLenOfPrefix(b, cut);
        assert b[..cut][n..] == b[n..][..cut - n];
      } else {
        Utf8.CharLenOfPrefix(b, cut);
        assert Utf8.Starts(b[..cut], cut);
      }
    }
  }

  /// Packaging a text, or the front of one with more than the cap in it.
  lemma PackagedPrefix(b: Bytes, k: nat, cut: bool, contentType: Option<string>, encoding: Option<string>, max: nat)
    requires Utf8.Valid(b) && ((contentType.Some? && IsTextualMime(contentType.value)) || !HasControlBytes(b))
    requires k <= |b| && (if cut then max < k < |b| else k == |b|)
    ensures var p := Package(b[..k], cut, contentType, encoding, max);
            && (p.truncated <==> |b| > max)
            && (|b| <= max ==> FromPayload(p) == b)
            && (|b| > max ==> Utf8.Encode(p.data) <= b && Utf8.LongestValidPrefix(b, max, |Utf8.Encode(p.data)|))
  {
    var decoded := b[..k];
    CutTextIsText(b, k);
    assert k == |b| ==> decoded == b;
    assert HasControlBytes(decoded) ==> HasControlBytes(b);
    assert IsText(decoded, cut, contentType);
    UntruncatedGivesBack(decoded, cut, contentType, encoding, max);
    if |b| > max {
      TruncatedIsLongestPrefix(decoded, cut, contentType, encoding, max);
      assert forall j | 0 <= j <= k :: decoded[..j] == b[..j];
    }
  }

  /// A body is kept as text exactly if it is whole, not empty, valid, and either of
  /// a textual type or without bytes below 0x20 other than tab, line feed and
  /// carriage return; what is whole and not text is kept as base64.
  lemma KindIs(decoded: Bytes, cut: bool, contentType: Option<string>, encoding: Option<string>, max: nat)
    ensures var kind := Package(decoded, cut, contentType, encoding, max).kind;
            var text := && Utf8.Valid(decoded)
                        && ((contentType.Some? && IsTextualMime(contentType.value))
                            || forall x | x in decoded :: x >= 0x20 || x == 0x09 || x == 0x0A || x == 0x0D);
            && (kind == TruncatedBody <==> cut || |decoded| > max)
            && (kind == NoBody <==> decoded == [] && !cut)
            && (kind == TextBody <==> decoded != [] && !cut && |decoded| <= max && text)
            && (kind == Base64Body <==> decoded != [] && !cut && |decoded| <= max && !text)
  {
    ControlIff(decoded);
  }

  lemma ControlIff(b: Bytes)
    ensures !HasControlBytes(b) <==> forall x | x in b :: x >= 0x20 || x == 0x09 || x == 0x0A || x == 0x0D
  {
    if !HasControlBytes(b) {
      forall x | x in b ensures x >= 0x20 || x == 0x09 || x == 0x0A || x == 0x0D {
        var i :| 0 <= i < |b| && b[i] == x;
      }
    }
    if HasControlBytes(b) {
      var i :| 0 <= i < |b| && b[i] < 0x20 && b[i] !in {9, 10, 13};
      assert b[i] in b;
    }
  }

  lemma TypeIff(m: string)
    ensures IsTextualType(m) <==>
            || (exists rest: string :: m == "text/" + rest)
            || (exists name: string :: m == name + "+json") || (exists name: string :: m == name + "+xml")
            || IsListed(m)
  {
    StartsIff(m, "text/");
    EndsIff(m, "+json");
    EndsIff(m, "+xml");
    ListedIff(m);
  }

  /// Parameters, case and surrounding blanks of a type do not matter; textual are
  /// `text/` types, those ending in `+json` or `+xml`, and the listed ones.
  lemma TextualIs(mime: string, params: string)
    requires ';' !in mime
    ensures IsTextualMime(mime + ";" + params) == IsTextualMime(mime)
    ensures IsTextualMime(mime) <==>
            var m := Normal(mime);
            || (exists rest: string :: m == "text/" + rest)
            || (exists name: string :: m == name + "+json") || (exists name: string :: m == name + "+xml")
            || IsListed(m)
  {
    BeforeMark(mime, ';', params);
    TypeIff(Normal(mime));
  }

  /// Three of the listed types have one of the two endings.
  lemma ListedIff(m: string)
    ensures m in ["application/json", "application/xml", "application/xhtml+xml", "application/javascript",
                  "application/x-javascript", "application/ecmascript", "application/x-www-form-urlencoded",
                  "application/graphql", "application/manifest+json", "image/svg+xml"]
            <==> IsListed(m) || m == "application/xhtml+xml" || m == "application/manifest+json" || m == "image/svg+xml"
    ensures m == "application/xhtml+xml" ==> m == "application/xhtml" + "+xml"
    ensures m == "application/manifest+json" ==> m == "application/manifest" + "+json"
    ensures m == "image/svg+xml" ==> m == "image/svg" + "+xml"
  {
  }

  predicate IsListed(m: string) {
    m in {"application/json", "application/xml", "application/javascript", "application/x-javascript",
          "application/ecmascript", "application/x-www-form-urlencoded", "application/graphql"}
  }

  lemma {:induction false} BeforeMark(s: string, c: char, rest: string)
    requires c !in s
    ensures Before(s + [c] + rest, c) == s && Before(s, c) == s
  {
    if s != "" {
      assert (s + [c] + rest)[1..] == s[1..] + [c] + rest;
      BeforeMark(s[1..], c, rest);
    }
  }

  lemma DecodedIsPrefix(C: Codecs, b: Bytes, encodings: seq<string>, header: string, max: nat)
    requires Inverse(C) && FitsBetween(C, b, encodings, max + 3)
    requires ListTokens(header) == Normals(encodings) && max + 3 <= MAX_DECODE_OUTPUT
    ensures var (decoded, cut) := DecodedFor(C, EncodeAll(C, b, encodings), Some(header), max);
            |decoded| <= |b| && decoded == b[..|decoded|] && if cut then max < |decoded| < |b| else |decoded| == |b|
  {
    LayeredRoundTrip(C, b, encodings, header, max + 3);
    assert b == b[..|b|];
  }

  /// End to end: any valid text, sent under any layered codings whose
  /// intermediate forms fit, is captured whole when it fits the cap, and
  /// otherwise as its longest valid prefix within the cap.
  lemma TextIsCaptured(C: Codecs, b: Bytes, encodings: seq<string>, header: string, contentType: Option<string>, max: nat)
    requires Inverse(C) && FitsBetween(C, b, encodings, max + 3)
    requires ListTokens(header) == Normals(encodings) && max + 3 <= MAX_DECODE_OUTPUT
    requires Utf8.Valid(b) && ((contentType.Some? && IsTextualMime(contentType.value)) || !HasControlBytes(b))
    ensures var p := ToPayload(C, EncodeAll(C, b, encodings), contentType, Some(header), max);
            && (p.truncated <==> |b| > max)
            && (|b| <= max ==> FromPayload(p) == b)
            && (|b| > max ==> Utf8.Encode(p.data) <= b && Utf8.LongestValidPrefix(b, max, |Utf8.Encode(p.data)|))
  {
    DecodedIsPrefix(C, b, encodings, header, max);
    var (decoded, cut) := DecodedFor(C, EncodeAll(C, b, encodings), Some(header), max);
    PackagedPrefix(b, |decoded|, cut, contentType, Some(header), max);
  }
}
