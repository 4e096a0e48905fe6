/// Sniffing: how `crates/hamsy-proxy/src/connect.rs` peeks at a stream and replays what it read.

module Sniffing {
  import opened Common
  import ClientHello

  const MAX_PEEK_BYTES: nat := 16 * 1024
  const PEEK_CHUNK: nat := 4096

  /// A byte stream whose reads return as much as they please, but something
  /// unless the stream has ended.
  class Io {
    var incoming: Bytes
    var grants: seq<nat>

    /// How many bytes the next read brings.
    function ReadSize(room: nat): nat
      reads this
    {
      Min(Min(if grants == [] then room else Max(grants[0], 1), room), |incoming|)
    }

    method Read(room: nat) returns (chunk: Bytes)
      modifies this
      ensures chunk + incoming == old(incoming) && |chunk| == old(ReadSize(room)) <= room
      ensures chunk == [] <==> room == 0 || old(incoming) == []
    {
      var n := ReadSize(room);
      grants := if grants == [] then [] else grants[1..];
      chunk := incoming[..n];
      incoming := incoming[n..];
    }
  }

  /// Where reading stops: the record's declared end, capped.
  function Target(buf: Bytes): nat
    requires |buf| >= 5
  {
    Min(5 + buf[3] as nat * 256 + buf[4], MAX_PEEK_BYTES)
  }

  /// `peek_bytes`: takes bytes off the front of the stream and loses none. For
  /// what looks like a TLS record it reads on to the record's end, the cap, or
  /// the end of the stream; after a first read of less than a record header, or of
  /// something else, it leaves it at that.
  method PeekBytes(io: Io) returns (buf: Bytes)
    modifies io
    ensures buf + io.incoming == old(io.incoming)
    ensures |buf| <= MAX_PEEK_BYTES
    ensures |buf| >= 5 && buf[0] == 0x16 ==> |buf| >= Target(buf) || io.incoming == []
    ensures buf == [] ==> io.incoming == []
    ensures var n := old(io.ReadSize(PEEK_CHUNK));
            |buf| >= n && (n < 5 || old(io.incoming)[0] != 0x16 ==> |buf| == n)
  {
    buf := io.Read(PEEK_CHUNK);
    if |buf| == 0 || buf[0] != 0x16 || |buf| < 5 {
      return;
    }
    var target := Target(buf);
    while |buf| < target
      invariant buf + io.incoming == old(io.incoming)
      invariant 5 <= |buf| <= MAX_PEEK_BYTES && buf[0] == 0x16 && target == Target(buf)
      decreases target - |buf|
    {
      ghost var before, left := buf, io.incoming;
      var want := Min(target - |buf|, PEEK_CHUNK);
      var extra := io.Read(want);
      if |extra| == 0 {
        break;
      }
      buf := buf + extra;
      assert buf + io.incoming == before + (extra + io.incoming);
    }
  }

  /// `Rewind`: a stream with bytes put back in front of it.
  class Rewind {
    const io: Io
    var leftover: Option<Bytes>

    constructor (io: Io, leftover: Bytes)
      ensures this.io == io && Pending() == leftover + io.incoming
    {
      this.io := io;
      this.leftover := if leftover == [] then None else Some(leftover);
    }

    /// The bytes still to be read.
    ghost function Pending(): Bytes
      reads this, io
    {
      (if leftover.Some? then leftover.value else []) + io.incoming
    }

    /// `poll_read`: delivers the next bytes of the pending stream.
    method PollRead(room: nat) returns (chunk: Bytes)
      modifies this, io
      ensures chunk + Pending() == old(Pending()) && |chunk| <= room
      ensures chunk == [] <==> room == 0 || old(Pending()) == []
    {
      if leftover.Some? {
        var data := leftover.value;
        leftover := None;
        if data != [] {
          var n := Min(|data|, room);
          chunk := data[..n];
          if data[n..] != [] {
            leftover := Some(data[n..]);
          }
          assert data == data[..n] + data[n..];
          return;
        }
      }
      chunk := io.Read(room);
    }
  }

  function Concat(chunks: seq<Bytes>): Bytes {
    if chunks == [] then [] else chunks[0] + Concat(chunks[1..])
  }

  lemma {:induction false} ConcatSnoc(chunks: seq<Bytes>, c: Bytes)
    ensures Concat(chunks + [c]) == Concat(chunks) + c
  {
    if chunks == [] {
      assert chunks + [c] == [c] && [c][1..] == [];
    } else {
      assert (chunks + [c])[1..] == chunks[1..] + [c];
      ConcatSnoc(chunks[1..], c);
    }
  }

  /// Each chunk is within its buffer, and none was empty while bytes were left.
  ghost predicate Delivered(chunks: seq<Bytes>, rooms: seq<nat>, pending: Bytes) {
    && |chunks| == |rooms|
    && forall i | 0 <= i < |rooms| :: |chunks[i]| <= rooms[i] && (chunks[i] == [] ==> rooms[i] == 0 || pending == [])
  }

  lemma DeliveredSnoc(chunks: seq<Bytes>, rooms: seq<nat>, chunk: Bytes, room: nat, pending: Bytes)
    requires Delivered(chunks, rooms, chunk + pending) && |chunk| <= room
    requires chunk == [] ==> room == 0 || pending == []
    ensures Delivered(chunks + [chunk], rooms + [room], pending)
  {
    assert chunk + pending == [] ==> pending == [];
  }

  /// Reads with buffers of the sizes given.
  method Replay(stream: Rewind, rooms: seq<nat>) returns (chunks: seq<Bytes>)
    modifies stream, stream.io
    ensures Concat(chunks) + stream.Pending() == old(stream.Pending())
    ensures Delivered(chunks, rooms, stream.Pending())
  {
    chunks := [];
    for i := 0 to |rooms|
      invariant Concat(chunks) + stream.Pending() == old(stream.Pending())
      invariant Delivered(chunks, rooms[..i], stream.Pending())
    {
      var chunk := stream.PollRead(rooms[i]);
      ConcatSnoc(chunks, chunk);
      Regroup(Concat(chunks), chunk, stream.Pending());
      DeliveredSnoc(chunks, rooms[..i], chunk, rooms[i], stream.Pending());
      assert rooms[..i + 1] == rooms[..i] + [rooms[i]];
      chunks := chunks + [chunk];
    }
    assert rooms[..|rooms|] == rooms;
  }

  /// Peeking and then reading, with buffers of any sizes, gives exactly the
  /// client's stream: the chunks read so far and what is still to come make up
  /// all of it, however the reads fell.
  method PeekAndReplay(io: Io, rooms: seq<nat>) returns (chunks: seq<Bytes>, ghost pending: Bytes)
    modifies io
    ensures Concat(chunks) + pending == old(io.incoming)
    ensures Delivered(chunks, rooms, pending)
  {
    var buf := PeekBytes(io);
    var stream := new Rewind(io, buf);
    chunks := Replay(stream, rooms);
    pending := stream.Pending();
  }

  // ----- Sniffing a hello -----

  /// The first five bytes of a hello's record tell where it ends.
  lemma TargetIsHelloEnd(h: ClientHello.Hello, tail: Bytes, buf: Bytes)
    requires ClientHello.WellFormed(h) && |buf| >= 5 && buf <= ClientHello.Encode(h) + tail
    ensures buf[0] == 0x16 && Target(buf) == Min(|ClientHello.Encode(h)|, MAX_PEEK_BYTES)
  {
    var s := ClientHello.Encode(h) + tail;
    var len := |ClientHello.Message(h)| + 4;
    ClientHello.EncodeWithTail(h, tail);
    assert s[3] == len / 256 && s[4] == len % 256;
    assert buf[3] == s[3] && buf[4] == s[4] && buf[0] == s[0];
  }

  /// If the first read brings the five header bytes, the peeked bytes parse as the
  /// whole hello does, however the rest arrives. If it brings fewer, sniffing gives
  /// up with those: they read as no hello, and all bytes are still delivered.
  method SniffHello(io: Io, ghost h: ClientHello.Hello, ghost tail: Bytes)
    returns (buf: Bytes, info: Option<ClientHello.HelloInfo>)
    requires ClientHello.WellFormed(h) && h.extensions.Some? && |ClientHello.Encode(h)| <= MAX_PEEK_BYTES
    requires io.incoming == ClientHello.Encode(h) + tail
    modifies io
    ensures buf + io.incoming == old(io.incoming)
    ensures old(io.ReadSize(PEEK_CHUNK)) >= 5 ==> info == ClientHello.Parse(ClientHello.Encode(h) + tail) && info.Some?
    ensures old(io.ReadSize(PEEK_CHUNK)) < 5 ==> |buf| == old(io.ReadSize(PEEK_CHUNK)) && info == None
  {
    ghost var all := ClientHello.Encode(h) + tail;
    buf := PeekBytes(io);
    info := ClientHello.RunParse(buf);
    assert buf == all[..|buf|] && all == all[..|all|];
    ClientHello.ParsePrefix(h, tail, |buf|);
    if |buf| >= 5 {
      TargetIsHelloEnd(h, tail, buf);
      ClientHello.ParsePrefix(h, tail, |all|);
    }
  }
}
