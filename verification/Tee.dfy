/// Body capture in `crates/hamsy-proxy/src/tee.rs`: the tee, the two
/// collectors, and the wrapper that finalizes a capture once.

module Tee {
  import opened Common

  datatype Frame = Data(bytes: Bytes) | Trailers

  /// The data of the frames, joined.
  function DataOf(frames: seq<Frame>): Bytes {
    if frames == [] then []
    else (if frames[0].Data? then frames[0].bytes else []) + DataOf(frames[1..])
  }

  lemma {:induction false} DataOfConcat(a: seq<Frame>, b: seq<Frame>)
    ensures DataOf(a + b) == DataOf(a) + DataOf(b)
  {
    if a == [] {
      assert a + b == b;
    } else {
      assert (a + b)[1..] == a[1..] + b;
      DataOfConcat(a[1..], b);
    }
  }

  lemma DataOfSnoc(frames: seq<Frame>, f: Frame)
    ensures DataOf(frames + [f]) == DataOf(frames) + if f.Data? then f.bytes else []
  {
    DataOfConcat(frames, [f]);
    assert [f][1..] == [];
  }

  /// How many bytes the first `i` frames carry.
  function Seen(frames: seq<Frame>, i: nat): nat
    requires i <= |frames|
  {
    |DataOf(frames[..i])|
  }

  lemma SeenAll(frames: seq<Frame>)
    ensures Seen(frames, |frames|) == |DataOf(frames)| && Seen(frames, 0) == 0
  {
    assert frames[..|frames|] == frames;
  }

  lemma SeenStep(frames: seq<Frame>, i: nat)
    requires i < |frames|
    ensures Seen(frames, i + 1) == Seen(frames, i) + if frames[i].Data? then |frames[i].bytes| else 0
  {
    assert frames[..i + 1] == frames[..i] + [frames[i]];
    DataOfSnoc(frames[..i], frames[i]);
  }

  lemma SeenGrows(frames: seq<Frame>, i: nat, j: nat)
    requires i <= j <= |frames|
    ensures Seen(frames, i) <= Seen(frames, j)
  {
    assert frames[..j] == frames[..i] + frames[i..j];
    DataOfConcat(frames[..i], frames[i..j]);
  }

  lemma SeenOfPrefix(frames: seq<Frame>, f: Frame, i: nat)
    requires i <= |frames|
    ensures Seen(frames + [f], i) == Seen(frames, i)
  {
    assert (frames + [f])[..i] == frames[..i];
  }

  /// What a capture with this cap holds after the frames.
  function CapturedOf(frames: seq<Frame>, cap: nat): Bytes {
    DataOf(frames)[..Min(cap, |DataOf(frames)|)]
  }

  /// Frame `i` is a data frame that found no room at all, even if it is empty,
  /// or too little.
  predicate NoRoom(frames: seq<Frame>, i: nat, cap: nat)
    requires i < |frames|
  {
    frames[i].Data? && (Seen(frames, i) >= cap || Seen(frames, i + 1) > cap)
  }

  predicate Overran(frames: seq<Frame>, cap: nat) {
    exists i: nat | i < |frames| :: NoRoom(frames, i, cap)
  }

  lemma OverranMeansFull(frames: seq<Frame>, cap: nat)
    ensures Overran(frames, cap) ==> |DataOf(frames)| >= cap
  {
    SeenAll(frames);
    forall i: nat | i < |frames| && NoRoom(frames, i, cap) ensures |DataOf(frames)| >= cap {
      SeenGrows(frames, i, |frames|);
      SeenGrows(frames, i + 1, |frames|);
    }
  }

  lemma NoRoomSnoc(frames: seq<Frame>, f: Frame, i: nat, cap: nat)
    requires i < |frames|
    ensures NoRoom(frames + [f], i, cap) <==> NoRoom(frames, i, cap)
  {
    SeenOfPrefix(frames, f, i);
    SeenOfPrefix(frames, f, i + 1);
  }

  lemma NoRoomAtEnd(frames: seq<Frame>, f: Frame, cap: nat)
    ensures NoRoom(frames + [f], |frames|, cap) <==>
            f.Data? && (|DataOf(frames)| >= cap || |DataOf(frames)| + |f.bytes| > cap)
  {
    SeenAll(frames);
    SeenOfPrefix(frames, f, |frames|);
    SeenStep(frames + [f], |frames|);
  }

  lemma OverranStays(frames: seq<Frame>, f: Frame, cap: nat)
    requires Overran(frames, cap)
    ensures Overran(frames + [f], cap)
  {
    var i: nat :| i < |frames| && NoRoom(frames, i, cap);
    NoRoomSnoc(frames, f, i, cap);
  }

  lemma OverranBefore(frames: seq<Frame>, f: Frame, cap: nat)
    requires Overran(frames + [f], cap) && !NoRoom(frames + [f], |frames|, cap)
    ensures Overran(frames, cap)
  {
    var i: nat :| i < |frames + [f]| && NoRoom(frames + [f], i, cap);
    NoRoomSnoc(frames, f, i, cap);
  }

  lemma OverranSnoc(frames: seq<Frame>, f: Frame, cap: nat)
    ensures Overran(frames + [f], cap) <==>
            Overran(frames, cap)
            || (f.Data? && (|DataOf(frames)| >= cap || |DataOf(frames)| + |f.bytes| > cap))
  {
    NoRoomAtEnd(frames, f, cap);
    if Overran(frames, cap) {
      OverranStays(frames, f, cap);
    } else if Overran(frames + [f], cap) && !NoRoom(frames + [f], |frames|, cap) {
      OverranBefore(frames, f, cap);
    }
  }

  /// One step of the capture, as the tee and the capped collector take it: the
  /// new buffer and flag are those of the longer stream.
  method Keep(ghost seen: seq<Frame>, data: Bytes, cap: nat, captured: Bytes, truncated: bool)
    returns (captured': Bytes, truncated': bool)
    requires captured == CapturedOf(seen, cap) && (truncated <==> Overran(seen, cap))
    ensures captured' == CapturedOf(seen + [Data(data)], cap)
    ensures truncated' <==> Overran(seen + [Data(data)], cap)
  {
    OverranSnoc(seen, Data(data), cap);
    OverranMeansFull(seen, cap);
    DataOfSnoc(seen, Data(data));
    captured', truncated' := captured, truncated;
    if !truncated {
      var remaining := if |captured| < cap then cap - |captured| else 0;
      if remaining == 0 {
        truncated' := true;
      } else if |data| <= remaining {
        captured' := captured + data;
      } else {
        captured' := captured + data[..remaining];
        truncated' := true;
      }
    }
  }

  /// `TeeState` and the tee around it; `seen` are the frames passed through.
  class TeeBody {
    const cap: nat
    var captured: Bytes
    var total: nat
    var truncated: bool
    ghost var seen: seq<Frame>

    /// The capture is an exact prefix and the byte count is exact.
    ghost predicate Valid()
      reads this
    {
      && captured == CapturedOf(seen, cap)
      && total == |DataOf(seen)|
      && (truncated <==> Overran(seen, cap))
    }

    constructor (cap: nat)
      ensures Valid() && seen == [] && this.cap == cap
    {
      this.cap, captured, total, truncated, seen := cap, [], 0, false, [];
    }

    /// One frame passing through `poll_frame`, unchanged.
    method PollFrame(frame: Frame) returns (passed: Frame)
      requires Valid()
      modifies this
      ensures Valid() && seen == old(seen) + [frame] && passed == frame
    {
      passed := frame;
      DataOfSnoc(seen, frame);
      if frame.Data? {
        total := total + |frame.bytes|;
        captured, truncated := Keep(seen, frame.bytes, cap, captured, truncated);
      } else {
        OverranSnoc(seen, frame, cap);
      }
      seen := seen + [frame];
    }
  }

  /// An empty data frame arrived with the cap exactly reached, and nothing more came.
  predicate EmptyAtCap(frames: seq<Frame>, cap: nat) {
    |DataOf(frames)| <= cap && exists i: nat | i < |frames| :: frames[i] == Data([]) && Seen(frames, i) == cap
  }

  /// `truncated` means "more than the cap was seen" exactly when no empty data
  /// frame arrived with the cap exactly reached.
  lemma TruncatedMeansOverCapIff(frames: seq<Frame>, cap: nat)
    ensures (Overran(frames, cap) <==> |DataOf(frames)| > cap) <==> !EmptyAtCap(frames, cap)
  {
    if |DataOf(frames)| > cap {
      var i := CrossingFrame(frames, cap);
      assert NoRoom(frames, i, cap);
    } else {
      SeenAll(frames);
      forall i: nat | i < |frames|
        ensures NoRoom(frames, i, cap) <==> frames[i] == Data([]) && Seen(frames, i) == cap
      {
        SeenStep(frames, i);
        SeenGrows(frames, i + 1, |frames|);
      }
    }
  }

  lemma CrossingFrame(frames: seq<Frame>, cap: nat) returns (i: nat)
    requires |DataOf(frames)| > cap
    ensures i < |frames| && frames[i].Data? && Seen(frames, i) <= cap < Seen(frames, i + 1)
  {
    SeenAll(frames);
    i := 0;
    while Seen(frames, i + 1) <= cap
      invariant i < |frames| && Seen(frames, i) <= cap
      decreases |frames| - i
    {
      i := i + 1;
    }
    SeenStep(frames, i);
  }

  /// The excluded case does happen.
  lemma EmptyFrameAtCapFlags()
    ensures Overran([Data([7]), Data([])], 1) && |DataOf([Data([7]), Data([])])| == 1
  {
    var frames := [Data([7]), Data([])];
    assert frames[..1] == [Data([7])] && frames[1..] == [Data([])];
    assert [Data([7])][1..] == [] && [Data([])][1..] == [];
    assert NoRoom(frames, 1, 1);
  }

  // ----- Collectors -----

  /// What a body yields, one item at a time.
  datatype Item = Good(frame: Frame) | Broken

  predicate AllGood(items: seq<Item>) {
    forall x | x in items :: x.Good?
  }

  /// The frames before the first read error.
  function FramesOf(items: seq<Item>): seq<Frame> {
    if items == [] || items[0].Broken? then [] else [items[0].frame] + FramesOf(items[1..])
  }

  lemma {:induction false} FramesOfGood(items: seq<Item>, k: nat)
    requires k < |items| && AllGood(items[..k])
    ensures items[k].Broken? ==> !AllGood(items) && FramesOf(items) == FramesOf(items[..k])
    ensures items[k].Good? ==> AllGood(items[..k + 1])
                               && FramesOf(items[..k + 1]) == FramesOf(items[..k]) + [items[k].frame]
  {
    assert items[k] in items;
    if k > 0 {
      assert items[0] == items[..k][0] && items[0] in items[..k];
      assert items[..k][1..] == items[1..][..k - 1];
      assert items[..k + 1][1..] == items[1..][..k];
      FramesOfGood(items[1..], k - 1);
    }
  }

  lemma {:induction false} FramesOfExtends(items: seq<Item>, k: nat)
    requires k <= |items|
    ensures FramesOf(items[..k]) <= FramesOf(items)
  {
    if k > 0 && items[0].Good? {
      assert items[..k][1..] == items[1..][..k - 1];
      FramesOfExtends(items[1..], k - 1);
    }
  }

  datatype CollectError = ReadError | TooLarge

  /// `collect_capped`: reads to the end, keeps an exact prefix, counts everything.
  method CollectCapped(items: seq<Item>, hardCap: nat) returns (r: Result<(Bytes, nat, bool), CollectError>)
    ensures r.Err? <==> !AllGood(items)
    ensures r.Err? ==> r.error == ReadError
    ensures r.Ok? ==> var frames := FramesOf(items);
                      r.value == (CapturedOf(frames, hardCap), |DataOf(frames)|, Overran(frames, hardCap))
  {
    var buf, total, truncated := [], 0, false;
    ghost var seen := [];
    for k := 0 to |items|
      invariant AllGood(items[..k]) && seen == FramesOf(items[..k])
      invariant buf == CapturedOf(seen, hardCap) && total == |DataOf(seen)|
      invariant truncated <==> Overran(seen, hardCap)
    {
      FramesOfGood(items, k);
      if items[k].Broken? {
        return Err(ReadError);
      }
      var frame := items[k].frame;
      DataOfSnoc(seen, frame);
      if frame.Data? {
        total := total + |frame.bytes|;
        buf, truncated := Keep(seen, frame.bytes, hardCap, buf, truncated);
      } else {
        OverranSnoc(seen, frame, hardCap);
      }
      seen := seen + [frame];
    }
    assert items[..|items|] == items;
    r := Ok((buf, total, truncated));
  }

  /// `collect_for_rules`: the whole body exactly when it was read without error
  /// and fits; never a part of it. It gives up as soon as the frames so far are
  /// too long, and so never sees an error that comes later.
  method CollectForRules(items: seq<Item>, cap: nat) returns (r: Result<Bytes, CollectError>)
    ensures r.Ok? <==> AllGood(items) && |DataOf(FramesOf(items))| <= cap
    ensures r.Ok? ==> r.value == DataOf(FramesOf(items))
    ensures r == Err(TooLarge) <==> |DataOf(FramesOf(items))| > cap
  {
    var buf := [];
    ghost var seen := [];
    for k := 0 to |items|
      invariant AllGood(items[..k]) && seen == FramesOf(items[..k])
      invariant buf == DataOf(seen) && |buf| <= cap
    {
      FramesOfGood(items, k);
      if items[k].Broken? {
        return Err(ReadError);
      }
      var frame := items[k].frame;
      DataOfSnoc(seen, frame);
      seen := seen + [frame];
      if frame.Data? {
        if |frame.bytes| > cap - |buf| {
          FramesOfExtends(items, k + 1);
          LongerCarriesMore(seen, FramesOf(items));
          return Err(TooLarge);
        }
        buf := buf + frame.bytes;
      }
    }
    assert items[..|items|] == items;
    r := Ok(buf);
  }

  lemma LongerCarriesMore(a: seq<Frame>, b: seq<Frame>)
    requires a <= b
    ensures |DataOf(a)| <= |DataOf(b)|
  {
    assert b == a + b[|a|..];
    DataOfConcat(a, b[|a|..]);
  }

  // ----- Finalizing once -----

  /// What polling the wrapped body, or the wrapper, comes to.
  datatype Polled = Pending | Yielded(frame: Frame) | Failed | Ended

  /// `CaptureBody`. `starts` counts the times the callback was started,
  /// `finished` says that its run is over, `withBody` what it was told.
  class CaptureBody {
    var finalize: bool
    var task: bool
    var done: bool
    ghost var starts: nat
    ghost var finished: bool
    ghost var withBody: bool

    /// The callback is still there to be started, or has been started once; a
    /// job is under way exactly while a started callback is not finished.
    ghost predicate Valid()
      reads this
    {
      && starts == (if finalize then 0 else 1)
      && (finalize ==> !task && !finished)
      && (!finalize ==> (task <==> !finished))
    }

    /// Until the drop, only the end of the body starts the callback.
    ghost predicate Live()
      reads this
    {
      Valid() && (done <==> !finalize)
    }

    constructor ()
      ensures Live() && !done
    {
      finalize, task, done := true, false, false;
      starts, finished, withBody := 0, false, false;
    }

    /// `start`: queues the job if there is room, else runs the callback at once
    /// without a body. A second call does nothing.
    method Start(queueHasRoom: bool)
      requires Valid()
      modifies this
      ensures Valid() && !finalize && done == old(done)
      ensures old(finalize) ==> withBody == queueHasRoom && task == queueHasRoom
      ensures !old(finalize) ==> finished == old(finished) && withBody == old(withBody) && task == old(task)
    {
      if finalize {
        finalize, starts, withBody := false, starts + 1, queueHasRoom;
        if queueHasRoom {
          task := true;
        } else {
          finished := true;
        }
      }
    }

    /// `poll_frame`; `jobReady` says whether a job still running is found over.
    method PollFrame(inner: Polled, queueHasRoom: bool, jobReady: bool) returns (out: Polled)
      requires Live()
      modifies this
      ensures Live() && (done <==> old(done) || inner == Ended)
      ensures !done ==> out == inner
      ensures done ==> finished == (jobReady || if old(done) then old(finished) else !queueHasRoom)
      ensures done ==> out == if finished then Ended else Pending
    {
      if !done {
        if inner != Ended {
          return inner;
        }
        done := true;
        Start(queueHasRoom);
      }
      if task {
        if !jobReady {
          return Pending;
        }
        task := false;
        finished := true;
      }
      out := Ended;
    }

    /// `is_end_stream` is true only once the job is over too.
    method IsEndStream() returns (end: bool)
      requires Live()
      ensures end <==> done && finished
    {
      end := done && !task;
    }
  }

  datatype PollInput = PollInput(inner: Polled, queueHasRoom: bool, jobReady: bool)

  /// The body ended at poll `j`, and by poll `i` the callback's run was over:
  /// it ran on the spot, or a poll since then found its job finished.
  predicate RunOver(polls: seq<PollInput>, j: nat, i: nat)
    requires j <= i < |polls|
  {
    polls[j].inner == Ended && (!polls[j].queueHasRoom || exists k | j <= k <= i :: polls[k].jobReady)
  }

  predicate EndsAfterRun(polls: seq<PollInput>, outs: seq<Polled>, i: nat)
    requires i < |polls| && i < |outs|
  {
    outs[i] == Ended ==> exists j: nat | j <= i :: RunOver(polls, j, i)
  }

  /// A whole life, any polls and then the drop: the callback is started exactly
  /// once, and the end is reported only after its run is over.
  method CaptureLife(polls: seq<PollInput>, roomAtDrop: bool) returns (outs: seq<Polled>, ghost starts: nat)
    ensures starts == 1 && |outs| == |polls|
    ensures forall i: nat | i < |outs| :: EndsAfterRun(polls, outs, i)
  {
    var body := new CaptureBody();
    outs := [];
    ghost var endAt := 0;
    for i := 0 to |polls|
      invariant fresh(body) && body.Live() && |outs| == i
      invariant body.done ==> endAt < i && polls[endAt].inner == Ended
      invariant body.done && body.finished ==> RunOver(polls, endAt, i - 1)
      invariant forall i': nat | i' < i :: EndsAfterRun(polls, outs, i')
    {
      var p := polls[i];
      if !body.done {
        endAt := i;
      }
      ghost var was := outs;
      var out := body.PollFrame(p.inner, p.queueHasRoom, p.jobReady);
      outs := outs + [out];
      assert forall i': nat | i' < i :: outs[i'] == was[i'] && EndsAfterRun(polls, was, i');
      assert body.done && body.finished ==> RunOver(polls, endAt, i);
    }
    body.Start(roomAtDrop);
    starts := body.starts;
  }
}
