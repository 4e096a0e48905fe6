/// The body that rules are shown: "Body preparation" in
/// `crates/hamsy-proxy/src/http.rs`, from the frames on the wire to the decoded bytes.

module RuleBody {
  import opened Common
  import opened Tokens
  import opened Body
  import Tee

  const HARD_BUFFER_CAP: nat := 64 * 1024 * 1024

  datatype BodyError = NotCollected(cause: Tee.CollectError) | Unsupported | CannotDecode | ExceedsLimit

  const SUPPORTED := ["", "identity", "gzip", "x-gzip", "deflate", "br", "zstd"]

  /// Every item of the header value is empty or a coding that is undone.
  predicate AllSupported(encoding: Option<string>) {
    encoding.Some? ==> forall item | item in Split(encoding.value, ',') :: Normal(item) in SUPPORTED
  }

  /// `decode_for_rules`.
  function DecodeForRules(C: Codecs, b: Bytes, encoding: Option<string>): Result<Bytes, BodyError> {
    if !AllSupported(encoding) then Err(Unsupported)
    else
      var d := DecodeBody(C, b, encoding, HARD_BUFFER_CAP);
      if d.Err? then Err(CannotDecode)
      else if d.value.1 then Err(ExceedsLimit)
      else Ok(d.value.0)
  }

  /// The codings, in the order in which the sender applied them.
  predicate Lists(encoding: Option<string>, encodings: seq<string>) {
    if encoding.None? then encodings == [] else ListTokens(encoding.value) == Normals(encodings)
  }

  lemma {:induction false} SupportedItems(items: seq<string>)
    ensures (forall item | item in items :: Normal(item) in SUPPORTED) <==> forall t | t in NormalItems(items) :: t in SUPPORTED
  {
    if items != [] {
      SupportedItems(items[1..]);
      assert items == [items[0]] + items[1..];
      assert Trim(items[0]) == "" ==> Normal(items[0]) == "" == SUPPORTED[0];
    }
  }

  /// The check on the header is one on the sender's codings.
  lemma SupportedIff(encoding: Option<string>, encodings: seq<string>)
    requires Lists(encoding, encodings)
    ensures AllSupported(encoding) <==> forall t | t in encodings :: Normal(t) in SUPPORTED
  {
    if encoding.Some? {
      SupportedItems(Split(encoding.value, ','));
      NormalsMembers(encodings);
    }
  }

  lemma NormalsMembers(encodings: seq<string>)
    ensures (forall t | t in Normals(encodings) :: t in SUPPORTED) <==> forall t | t in encodings :: Normal(t) in SUPPORTED
  {
    if forall t | t in Normals(encodings) :: t in SUPPORTED {
      forall t | t in encodings ensures Normal(t) in SUPPORTED {
        var i :| 0 <= i < |encodings| && encodings[i] == t;
        assert Normals(encodings)[i] in Normals(encodings);
      }
    }
  }

  lemma DecodedWholeIff(C: Codecs, b: Bytes, encoding: Option<string>, encodings: seq<string>)
    requires Inverse(C) && EmptyZlibIsNotRaw(C) && Lists(encoding, encodings)
    ensures var r := DecodeForRules(C, EncodeAll(C, b, encodings), encoding);
            && (r.Ok? <==> (forall t | t in encodings :: Normal(t) in SUPPORTED) && AllWhole(C, b, encodings, HARD_BUFFER_CAP))
            && (r.Ok? ==> r.value == b)
  {
    SupportedIff(encoding, encodings);
    WholeIff(C, b, encodings, HARD_BUFFER_CAP);
  }

  /// A body read for the rules. Whatever the frames are that bring a body under
  /// any codings, or the front of it up to a read error, the rules are shown the
  /// whole original body or nothing at all, and they are shown it exactly when
  /// it was read to its end, its coded form fits the buffer, the codings are
  /// known ones and every layer is undone whole.
  method BodyForRules(C: Codecs, items: seq<Tee.Item>, encoding: Option<string>, ghost b: Bytes, ghost encodings: seq<string>)
    returns (r: Result<Bytes, BodyError>)
    requires Inverse(C) && EmptyZlibIsNotRaw(C) && Lists(encoding, encodings)
    requires var came := Tee.DataOf(Tee.FramesOf(items));
             came <= EncodeAll(C, b, encodings) && (Tee.AllGood(items) ==> came == EncodeAll(C, b, encodings))
    ensures r.Ok? <==>
            && Tee.AllGood(items) && |EncodeAll(C, b, encodings)| <= HARD_BUFFER_CAP
            && (forall t | t in encodings :: Normal(t) in SUPPORTED) && AllWhole(C, b, encodings, HARD_BUFFER_CAP)
    ensures r.Ok? ==> r.value == b
  {
    var bytes := Tee.CollectForRules(items, HARD_BUFFER_CAP);
    if bytes.Err? {
      return Err(NotCollected(bytes.error));
    }
    DecodedWholeIff(C, b, encoding, encodings);
    r := DecodeForRules(C, bytes.value, encoding);
  }

  /// Codecs that store, with a raw decoder that takes nothing.
  const STORE := Codecs((k, b) => if k == RawDeflate then Stream([], true) else Stream(b, false), (k, b) => b)

  lemma StoreMeetsLaws()
    ensures Inverse(STORE) && EmptyZlibIsNotRaw(STORE)
  {
  }

  lemma OneDeflate()
    ensures Normal("deflate") == "deflate" && Lists(Some("deflate"), ["deflate"]) && "deflate" in SUPPORTED
  {
    DeflateIsNormal();
    assert SUPPORTED[4] == "deflate";
  }

  lemma StoredIsWhole(b: Bytes, encoding: string)
    requires 0 < |b| <= HARD_BUFFER_CAP
    ensures EncodeAll(STORE, b, [encoding]) == b && AllWhole(STORE, b, [encoding], HARD_BUFFER_CAP)
  {
    assert EncodeAll(STORE, b, [encoding][..0]) == b;
    assert EncodeBody(STORE, b, encoding) == b;
  }

  /// They meet the laws, and with them every body but the empty one, up to the
  /// limit, is shown to the rules under `deflate`.
  lemma LawsCanBeMet(b: Bytes)
    requires 0 < |b| <= HARD_BUFFER_CAP
    ensures Inverse(STORE) && EmptyZlibIsNotRaw(STORE)
    ensures DecodeForRules(STORE, b, Some("deflate")) == Ok(b)
  {
    StoreMeetsLaws();
    OneDeflate();
    StoredIsWhole(b, "deflate");
    DecodedWholeIff(STORE, b, Some("deflate"), ["deflate"]);
  }
}
