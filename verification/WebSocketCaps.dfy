/// The two caps of `crates/hamsy-proxy/src/websocket.rs`: how much of a
/// socket's history a flow keeps and how much of one text message.

module WebSocketCaps {
  import opened Common
  import opened Retention
  import Utf8

  const MAX_MESSAGES: nat := 1000
  const MAX_PAYLOAD_BYTES: nat := 16 * 1024 * 1024

  /// A recorded message; its buffer appears as its allocated size.
  datatype WsMessage = WsMessage(opcode: string, buffer: nat, timestamp: nat)

  function Sizes(messages: seq<WsMessage>): (w: seq<nat>)
    ensures |w| == |messages|
  {
    seq(|messages|, i requires 0 <= i < |messages| => messages[i].buffer)
  }

  /// The messages a flow keeps.
  class WsHistory {
    var messages: seq<WsMessage>

    /// The total of all allocations.
    method AllocatedBytes() returns (bytes: nat)
      ensures bytes == Sum(Sizes(messages))
    {
      bytes := 0;
      var w := Sizes(messages);
      for i := 0 to |w|
        invariant bytes + Sum(w[i..]) == Sum(w)
      {
        SumSuffix(w, i);
        bytes := bytes + w[i];
      }
    }

    /// The two counting loops of `cap_ws_messages`.
    method Excess() returns (excess: nat)
      ensures LongestFit(Sizes(messages), MAX_MESSAGES, MAX_PAYLOAD_BYTES, excess)
    {
      ghost var w := Sizes(messages);
      var bytes := AllocatedBytes();
      excess := if |messages| > MAX_MESSAGES then |messages| - MAX_MESSAGES else 0;
      for i := 0 to excess
        invariant bytes == Sum(w[i..])
      {
        SumSuffix(w, i);
        bytes := bytes - messages[i].buffer;
      }
      while bytes > MAX_PAYLOAD_BYTES && excess < |messages|
        invariant excess <= |w| && |w| - excess <= MAX_MESSAGES
        invariant bytes == Sum(w[excess..])
        invariant forall k | 0 <= k < excess :: !Fits(w[k..], MAX_MESSAGES, MAX_PAYLOAD_BYTES)
      {
        SumSuffix(w, excess);
        bytes := bytes - messages[excess].buffer;
        excess := excess + 1;
      }
    }

    /// `cap_ws_messages`: drops the oldest messages, leaving the longest run of
    /// newest ones within the count and the byte budget.
    method Cap() returns (ghost drop: nat)
      modifies this
      ensures LongestFit(Sizes(old(messages)), MAX_MESSAGES, MAX_PAYLOAD_BYTES, drop)
      ensures messages == old(messages)[drop..]
    {
      var excess := Excess();
      drop := excess;
      if excess > 0 {
        messages := messages[excess..];
      }
    }
  }

  /// `cap_str` on the bytes of a string: backs up to a character boundary.
  method CapStr(text: Bytes, maxBytes: nat) returns (capped: Bytes)
    requires Utf8.Valid(text)
    ensures capped <= text && Utf8.LongestValidPrefix(text, maxBytes, |capped|)
    ensures Min(|text|, maxBytes) - 3 <= |capped|
  {
    if |text| <= maxBytes {
      assert text[..|text|] == text;
      assert Utf8.LongestValidPrefix(text, maxBytes, |text|);
      return text;
    }
    var end := maxBytes;
    ghost var near := Utf8.BoundaryWithinThree(text, maxBytes);
    while end > 0 && Utf8.IsTail(text[end])
      invariant near <= end <= maxBytes
      invariant forall k | end < k <= maxBytes :: !Utf8.Valid(text[..k])
    {
      Utf8.BoundaryIffNoTail(text, end);
      end := end - 1;
    }
    Utf8.BoundaryIffNoTail(text, end);
    capped := text[..end];
  }
}
