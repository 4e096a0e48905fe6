/// The bandwidth throttle in `crates/hamsy-proxy/src/tee.rs`. Time and tokens
/// are real numbers; a sleep never ends before its deadline, and one poll takes
/// no time.

module Throttle {
  import opened Common
  import opened Tee

  function RMin(a: real, b: real): real {
    if a <= b then a else b
  }

  lemma Product(a: real, b: real)
    requires a >= 0.0 && b >= 0.0
    ensures a * b >= 0.0
  {
  }

  class TokenBucket {
    const rate: real
    const capacity: real
    var tokens: real

    ghost predicate Valid()
      reads this
    {
      rate >= 1.0 && capacity == rate && 0.0 <= tokens <= capacity
    }

    constructor (bytesPerSec: nat)
      ensures Valid() && tokens == capacity && rate == Max(bytesPerSec, 1) as real
    {
      rate, capacity, tokens := Max(bytesPerSec, 1) as real, Max(bytesPerSec, 1) as real, Max(bytesPerSec, 1) as real;
    }

    method Refill(elapsed: real)
      requires Valid() && elapsed >= 0.0
      modifies this
      ensures Valid() && tokens == RMin(old(tokens) + elapsed * rate, capacity)
    {
      Product(elapsed, rate);
      tokens := RMin(tokens + elapsed * rate, capacity);
    }

    /// `try_take`: `None` if the amount is there, else the time to wait for it,
    /// with the bucket left empty.
    method TryTake(amount: real) returns (wait: Option<real>)
      requires Valid() && amount >= 0.0
      modifies this
      ensures Valid()
      ensures wait.None? <==> old(tokens) >= amount
      ensures wait.None? ==> tokens == old(tokens) - amount
      ensures wait.Some? ==> tokens == 0.0 && wait.value == (amount - old(tokens)) / rate
    {
      if tokens >= amount {
        tokens := tokens - amount;
        wait := None;
      } else {
        var deficit := amount - tokens;
        tokens := 0.0;
        wait := Some(deficit / rate);
      }
    }
  }

  lemma Positive(x: real, rate: real)
    requires x > 0.0 && rate > 0.0
    ensures x / rate > 0.0 && rate * (x / rate) == x
  {
  }

  /// A frame held back until its sleep is over.
  datatype Held = Held(deadline: real, frame: Frame)

  /// The fields of `Throttled`.
  datatype State = State(rate: real, tokens: real, last: real, held: Option<Held>)

  /// What the clock has refilled since the last refill.
  function Gain(s: State, now: real): real {
    (now - s.last) * s.rate
  }

  function Filled(s: State, now: real): real {
    RMin(s.tokens + Gain(s, now), s.rate)
  }

  function Size(f: Frame): real {
    if f.Data? then |f.bytes| as real else 0.0
  }

  /// The bytes by which a frame taken now overdraws the bucket.
  function Deficit(s: State, now: real, frame: Frame): real {
    if frame.Data? && Filled(s, now) < Size(frame) then Size(frame) - Filled(s, now) else 0.0
  }

  /// How long a frame taken now has to wait.
  function WaitFor(s: State, now: real, frame: Frame): real
    requires s.rate > 0.0
  {
    Deficit(s, now, frame) / s.rate
  }

  /// The deadline of the sleep that a poll would ask about, if there is one.
  function Deadline(s: State, now: real, inner: Polled): Option<real>
    requires s.rate > 0.0
  {
    if s.held.Some? then Some(s.held.value.deadline)
    else if inner.Yielded? && WaitFor(s, now, inner.frame) > 0.0 then Some(now + WaitFor(s, now, inner.frame))
    else None
  }

  /// What a poll leaves behind and reports. `inner` is what the wrapped body
  /// would yield if it is asked, `fired` whether the sleep is found over.
  function PollOnce(s: State, now: real, inner: Polled, fired: bool): (State, Polled)
    requires s.rate > 0.0
  {
    if s.held.Some? then
      if fired then (s.(held := None), Yielded(s.held.value.frame)) else (s, Pending)
    else if !inner.Yielded? || inner.frame.Trailers? then
      (s, inner)
    else if Filled(s, now) >= Size(inner.frame) then
      (s.(tokens := Filled(s, now) - Size(inner.frame), last := now), inner)
    else if fired then
      (s.(tokens := 0.0, last := now), inner)
    else
      (s.(tokens := 0.0, last := now, held := Some(Held(now + WaitFor(s, now, inner.frame), inner.frame))), Pending)
  }

  class Throttled {
    const bucket: TokenBucket
    var lastRefill: real
    var pending: Option<Held>

    ghost predicate Valid()
      reads this, bucket
    {
      bucket.Valid()
    }

    ghost function Now(): State
      reads this, bucket
    {
      State(bucket.rate, bucket.tokens, lastRefill, pending)
    }

    constructor (bytesPerSec: nat, now: real)
      ensures Valid() && fresh(bucket)
      ensures Now() == State(Max(bytesPerSec, 1) as real, Max(bytesPerSec, 1) as real, now, None)
    {
      bucket := new TokenBucket(bytesPerSec);
      lastRefill, pending := now, None;
    }

    /// `poll_frame`, step by step, does what `PollOnce` says.
    method PollFrame(now: real, inner: Polled, fired: bool) returns (out: Polled)
      requires Valid() && now >= lastRefill
      modifies this, bucket
      ensures Valid() && (Now(), out) == PollOnce(old(Now()), now, inner, fired)
    {
      if pending.Some? {
        var held := pending.value;
        pending := None;
        if !fired {
          pending := Some(held);
          return Pending;
        }
        return Yielded(held.frame);
      }
      if !inner.Yielded? || inner.frame.Trailers? {
        return inner;
      }
      ghost var s := Now();
      bucket.Refill(now - lastRefill);
      lastRefill := now;
      assert bucket.tokens == Filled(s, now);
      var wait := bucket.TryTake(|inner.frame.bytes| as real);
      if wait.None? {
        return inner;
      }
      if !fired {
        pending := Some(Held(now + wait.value, inner.frame));
        return Pending;
      }
      out := inner;
    }
  }

  // ----- Every schedule of polls -----

  /// How the wrapped body answers when asked.
  datatype Source = NotReady | Ready | Fails

  datatype Tick = Tick(now: real, source: Source, fired: bool)

  /// Running totals of a transfer: bytes refilled by the clock, the part of them
  /// that did not fit the bucket, bytes owed by frames that had to wait, and the
  /// seconds they were made to wait.
  datatype Totals = Totals(refilled: real, spilled: real, owed: real, waited: real)

  /// A throttled transfer: the wrapped body's frames still to come and those let out.
  datatype World = World(s: State, left: seq<Frame>, out: seq<Frame>, start: real, now: real, sum: Totals)

  function Begin(rate: nat, frames: seq<Frame>, start: real): World {
    var r := Max(rate, 1) as real;
    World(State(r, r, start, None), frames, [], start, start, Totals(0.0, 0.0, 0.0, 0.0))
  }

  function Inner(w: World, source: Source): Polled {
    match source
    case NotReady => Pending
    case Fails => Failed
    case Ready => if w.left == [] then Ended else Yielded(w.left[0])
  }

  /// Time does not run backwards and no sleep ends early.
  predicate Legal(w: World, t: Tick) {
    && w.s.rate > 0.0
    && w.now <= t.now
    && (t.fired ==> var d := Deadline(w.s, t.now, Inner(w, t.source)); d.Some? && d.value <= t.now)
  }

  predicate Takes(w: World, source: Source) {
    w.s.held.None? && source.Ready? && w.left != []
  }

  function Count(sum: Totals, s: State, now: real, frame: Frame): Totals
    requires s.rate > 0.0
  {
    if frame.Trailers? then sum else
    Totals(sum.refilled + Gain(s, now),
           sum.spilled + (s.tokens + Gain(s, now) - Filled(s, now)),
           sum.owed + Deficit(s, now, frame),
           sum.waited + WaitFor(s, now, frame))
  }

  function Step(w: World, t: Tick): World
    requires w.s.rate > 0.0
  {
    var (s', polled) := PollOnce(w.s, t.now, Inner(w, t.source), t.fired);
    var out' := if polled.Yielded? then w.out + [polled.frame] else w.out;
    if Takes(w, t.source) then
      World(s', w.left[1..], out', w.start, t.now, Count(w.sum, w.s, t.now, w.left[0]))
    else
      World(s', w.left, out', w.start, t.now, w.sum)
  }

  predicate LegalRun(w: World, ticks: seq<Tick>)
    decreases |ticks|
  {
    ticks == [] || (Legal(w, ticks[0]) && LegalRun(Step(w, ticks[0]), ticks[1..]))
  }

  function Run(w: World, ticks: seq<Tick>): World
    requires LegalRun(w, ticks)
    decreases |ticks|
  {
    if ticks == [] then w else Run(Step(w, ticks[0]), ticks[1..])
  }

  function HeldFrames(w: World): seq<Frame> {
    if w.s.held.Some? then [w.s.held.value.frame] else []
  }

  function Bytes(frames: seq<Frame>): real {
    |DataOf(frames)| as real
  }

  lemma BytesSnoc(frames: seq<Frame>, f: Frame)
    ensures Bytes(frames + [f]) == Bytes(frames) + Size(f)
  {
    DataOfSnoc(frames, f);
  }

  // ----- The invariant -----

  predicate BucketOk(s: State) {
    s.rate >= 1.0 && 0.0 <= s.tokens <= s.rate
  }

  /// Every byte taken, every token left and every token spilled was in the full
  /// bucket at the start, was refilled by the clock, or is owed by a wait.
  predicate Ledger(w: World) {
    Bytes(w.out) + Bytes(HeldFrames(w)) + w.s.tokens + w.sum.spilled == w.s.rate + w.sum.refilled + w.sum.owed
  }

  /// The clock refills at the rate throughout, and waits last as long as what
  /// is owed takes at the rate: time spent waiting is counted by both.
  predicate Metered(w: World) {
    w.sum.refilled == w.s.rate * (w.s.last - w.start) && w.sum.owed == w.s.rate * w.sum.waited
  }

  /// Waits do not overlap: they fit between the start and now, or the deadline
  /// of the one under way.
  predicate WaitsFit(w: World) {
    && w.start <= w.s.last <= w.now
    && w.sum.spilled >= 0.0
    && w.sum.waited <= (if w.s.held.Some? then w.s.held.value.deadline else w.now) - w.start
  }

  predicate Inv(w: World) {
    BucketOk(w.s) && Ledger(w) && Metered(w) && WaitsFit(w)
  }

  lemma FilledIsInBounds(s: State, now: real)
    requires BucketOk(s) && s.last <= now
    ensures s.tokens <= Filled(s, now) <= s.rate && Filled(s, now) <= s.tokens + Gain(s, now)
  {
    Product(now - s.last, s.rate);
  }

  predicate Pays(rate: real, wait: real, owed: real) {
    rate * wait == owed
  }

  lemma WaitPays(s: State, now: real, f: Frame)
    requires BucketOk(s)
    ensures Pays(s.rate, WaitFor(s, now, f), Deficit(s, now, f))
    ensures WaitFor(s, now, f) >= 0.0 && (WaitFor(s, now, f) > 0.0 <==> Deficit(s, now, f) > 0.0)
  {
    if Deficit(s, now, f) > 0.0 {
      Positive(Deficit(s, now, f), s.rate);
    }
  }

  /// A fresh wait cannot be over in the poll that asked for it.
  lemma NewWaitIsNotOver(w: World, t: Tick)
    requires BucketOk(w.s) && Legal(w, t) && Takes(w, t.source)
    ensures w.left[0].Data? && Filled(w.s, t.now) < Size(w.left[0]) ==> !t.fired
  {
    WaitPays(w.s, t.now, w.left[0]);
  }

  lemma BucketStaysOk(w: World, t: Tick)
    requires BucketOk(w.s) && w.s.last <= w.now && Legal(w, t)
    ensures BucketOk(Step(w, t).s) && Step(w, t).s.rate == w.s.rate
  {
    FilledIsInBounds(w.s, t.now);
  }

  lemma BytesOfOne(f: Frame)
    ensures Bytes([f]) == Size(f) && Bytes([]) == 0.0
  {
    assert [] + [f] == [f];
    BytesSnoc([], f);
  }

  lemma LedgerKept(w: World, t: Tick)
    requires BucketOk(w.s) && Ledger(w) && Legal(w, t)
    ensures Ledger(Step(w, t))
  {
    if w.s.held.Some? {
      BytesSnoc(w.out, w.s.held.value.frame);
      BytesOfOne(w.s.held.value.frame);
    } else if Takes(w, t.source) {
      NewWaitIsNotOver(w, t);
      BytesSnoc(w.out, w.left[0]);
      BytesOfOne(w.left[0]);
    }
  }

  lemma Distribute(rate: real, a: real, b: real)
    ensures rate * (a + b) == rate * a + rate * b && rate * a == a * rate
  {
  }

  lemma MeterKept(w: World, t: Tick)
    requires BucketOk(w.s) && Metered(w) && Legal(w, t)
    ensures Metered(Step(w, t))
  {
    if Takes(w, t.source) && w.left[0].Data? {
      WaitPays(w.s, t.now, w.left[0]);
      Distribute(w.s.rate, t.now - w.s.last, w.s.last - w.start);
      Distribute(w.s.rate, w.sum.waited, WaitFor(w.s, t.now, w.left[0]));
    }
  }

  lemma WaitsStillFit(w: World, t: Tick)
    requires BucketOk(w.s) && WaitsFit(w) && Legal(w, t)
    ensures WaitsFit(Step(w, t))
  {
    FilledIsInBounds(w.s, t.now);
    if Takes(w, t.source) {
      WaitPays(w.s, t.now, w.left[0]);
      NewWaitIsNotOver(w, t);
    }
  }

  lemma StepKeepsInv(w: World, t: Tick)
    requires Inv(w) && Legal(w, t)
    ensures Inv(Step(w, t))
  {
    BucketStaysOk(w, t);
    LedgerKept(w, t);
    MeterKept(w, t);
    WaitsStillFit(w, t);
  }

  lemma BeginIsOk(rate: nat, frames: seq<Frame>, start: real)
    ensures Inv(Begin(rate, frames, start)) && WithinTwice(Begin(rate, frames, start))
  {
    BytesOfOne(Trailers);
  }

  // ----- The bound -----

  predicate WithinTwice(w: World) {
    Bytes(w.out) <= w.s.rate + 2.0 * (w.s.rate * (w.now - w.start))
  }

  lemma Scale(r: real, a: real, b: real)
    requires r >= 0.0 && a <= b
    ensures r * a <= r * b
  {
    Product(r, b - a);
    Distribute(r, b - a, a);
  }

  lemma IdleIsWithinTwice(w: World)
    requires Inv(w) && w.s.held.None?
    ensures WithinTwice(w)
  {
    BytesOfOne(Trailers);
    assert Bytes(HeldFrames(w)) == 0.0;
    var allowed := w.s.rate * (w.now - w.start);
    assert w.sum.owed <= allowed by {
      Scale(w.s.rate, w.sum.waited, w.now - w.start);
    }
    assert w.sum.refilled <= allowed by {
      Scale(w.s.rate, w.s.last - w.start, w.now - w.start);
    }
    assert Bytes(w.out) <= w.s.rate + allowed + allowed;
  }

  lemma LaterIsWithinTwice(w: World, w': World)
    requires WithinTwice(w) && w.s.rate >= 0.0
    requires w'.out == w.out && w'.s.rate == w.s.rate && w'.start == w.start && w.now <= w'.now
    ensures WithinTwice(w')
  {
    Scale(w.s.rate, w.now - w.start, w'.now - w.start);
  }

  lemma StepStaysWithinTwice(w: World, t: Tick)
    requires Inv(w) && Legal(w, t) && WithinTwice(w)
    ensures WithinTwice(Step(w, t))
  {
    StepKeepsInv(w, t);
    if Step(w, t).s.held.None? {
      IdleIsWithinTwice(Step(w, t));
    } else {
      LaterIsWithinTwice(w, Step(w, t));
    }
  }

  lemma StepKeepsFrames(w: World, t: Tick)
    requires Inv(w) && Legal(w, t)
    ensures var w' := Step(w, t); w'.out + HeldFrames(w') + w'.left == w.out + HeldFrames(w) + w.left
  {
    if Takes(w, t.source) {
      assert w.left == [w.left[0]] + w.left[1..];
    }
  }

  lemma {:induction false} RunKeepsAll(w: World, ticks: seq<Tick>)
    requires Inv(w) && WithinTwice(w) && LegalRun(w, ticks)
    ensures var w' := Run(w, ticks);
            && Inv(w') && WithinTwice(w') && w'.s.rate == w.s.rate && w'.start == w.start
            && w'.out + HeldFrames(w') + w'.left == w.out + HeldFrames(w) + w.left
    decreases |ticks|
  {
    if ticks != [] {
      StepKeepsInv(w, ticks[0]);
      StepStaysWithinTwice(w, ticks[0]);
      StepKeepsFrames(w, ticks[0]);
      RunKeepsAll(Step(w, ticks[0]), ticks[1..]);
    }
  }

  /// On every frame sequence and every schedule the tokens stay within the
  /// bucket, and what has come out by now is at most the bucket plus twice the
  /// rate times the time gone by.
  lemma ThrottleBound(rate: nat, frames: seq<Frame>, start: real, ticks: seq<Tick>)
    requires LegalRun(Begin(rate, frames, start), ticks)
    ensures var w := Run(Begin(rate, frames, start), ticks);
            && w.s.rate == Max(rate, 1) as real && w.start == start
            && 0.0 <= w.s.tokens <= w.s.rate && WithinTwice(w)
  {
    BeginIsOk(rate, frames, start);
    RunKeepsAll(Begin(rate, frames, start), ticks);
  }

  /// The frames come out unchanged and in order: those let out, the one held
  /// back and those still to come are the body's own frames.
  lemma FramesInOrder(rate: nat, frames: seq<Frame>, start: real, ticks: seq<Tick>)
    requires LegalRun(Begin(rate, frames, start), ticks)
    ensures var w := Run(Begin(rate, frames, start), ticks); w.out + HeldFrames(w) + w.left == frames
  {
    BeginIsOk(rate, frames, start);
    RunKeepsAll(Begin(rate, frames, start), ticks);
  }

  // ----- The single-rate bound -----

  /// What a throttle that counted every second once would guarantee.
  predicate WithinOnce(w: World) {
    AtMost(Bytes(w.out), w.s.rate, w.now - w.start)
  }

  /// At most, and at least, a bucket and what the rate brings in this time.
  predicate AtMost(bytes: real, rate: real, elapsed: real) {
    bytes <= rate + rate * elapsed
  }

  predicate AtLeast(bytes: real, rate: real, elapsed: real) {
    bytes >= rate + rate * elapsed
  }

  ghost predicate AlwaysWithinOnce(rate: nat, frames: seq<Frame>, start: real) {
    forall ticks | LegalRun(Begin(rate, frames, start), ticks) :: WithinOnce(Run(Begin(rate, frames, start), ticks))
  }

  /// The frames before the last one that carries bytes.
  function BeforeLast(frames: seq<Frame>): seq<Frame> {
    if frames == [] || DataOf(frames[1..]) == [] then [] else [frames[0]] + BeforeLast(frames[1..])
  }

  lemma BytesFirst(f: Frame, frames: seq<Frame>)
    ensures Bytes([f] + frames) == Size(f) + Bytes(frames)
  {
    assert ([f] + frames)[1..] == frames;
  }

  /// Everything but the last frame with bytes fits the bucket: so far the
  /// bucket has covered every frame, and will cover all but that one.
  predicate Covered(w: World) {
    DataOf(w.left) != [] ==>
      && w.s.held.None? && w.sum.owed == 0.0
      && w.s.tokens + Bytes(w.out) >= w.s.rate
      && Bytes(w.out) + Bytes(BeforeLast(w.left)) <= w.s.rate
  }

  /// Once it has been taken, its own wait keeps the transfer within the rate.
  predicate LastOnTime(w: World) {
    DataOf(w.left) == [] ==>
      if w.s.held.None? then WithinOnce(w)
      else Bytes(w.out) <= w.s.rate
           && Bytes(w.out) + Size(w.s.held.value.frame) <= w.s.rate + w.s.rate * (w.s.held.value.deadline - w.start)
  }

  lemma CoveredKept(w: World, t: Tick)
    requires Inv(w) && Legal(w, t) && Covered(w) && DataOf(Step(w, t).left) != []
    ensures Covered(Step(w, t))
  {
    if Takes(w, t.source) {
      var f := w.left[0];
      assert w.left == [f] + w.left[1..];
      BytesFirst(f, BeforeLast(w.left[1..]));
      FilledIsInBounds(w.s, t.now);
      assert Bytes(w.out) + Size(f) <= w.s.rate;
      WaitPays(w.s, t.now, f);
      BytesSnoc(w.out, f);
    }
  }

  /// A transfer owing only the wait under way lets its frame out on time.
  lemma HeldIsOnTime(w: World)
    requires Inv(w) && w.s.held.Some? && w.s.held.value.frame.Data?
    requires w.sum.owed == w.s.rate * (w.s.held.value.deadline - w.s.last)
    ensures Bytes(w.out) + Size(w.s.held.value.frame)
            <= w.s.rate + w.s.rate * (w.s.held.value.deadline - w.start)
  {
    BytesOfOne(w.s.held.value.frame);
    assert Bytes(w.out) + Size(w.s.held.value.frame) <= w.s.rate + w.sum.refilled + w.sum.owed;
    TwoSpans(w.s.rate, w.start, w.s.last, w.s.held.value.deadline);
  }

  lemma TwoSpans(r: real, a: real, b: real, c: real)
    ensures r * (b - a) + r * (c - b) == r * (c - a)
  {
  }

  lemma NoDebtIsWithinOnce(w: World)
    requires Inv(w) && w.s.held.None? && w.sum.owed == 0.0
    ensures WithinOnce(w)
  {
    BytesOfOne(Trailers);
    assert Bytes(HeldFrames(w)) == 0.0;
    assert Bytes(w.out) <= w.s.rate + w.sum.refilled;
    assert AtMost(Bytes(w.out), w.s.rate, w.s.last - w.start);
    AtMostLater(Bytes(w.out), w.s.rate, w.s.last - w.start, w.now - w.start);
  }

  lemma AtMostLater(bytes: real, rate: real, a: real, b: real)
    requires AtMost(bytes, rate, a) && rate >= 0.0 && a <= b
    ensures AtMost(bytes, rate, b)
  {
    Scale(rate, a, b);
  }

  lemma TakenOwes(w: World, t: Tick)
    requires BucketOk(w.s) && w.sum.owed == 0.0 && Legal(w, t) && Takes(w, t.source)
    ensures var w' := Step(w, t);
            if w'.s.held.None? then w'.sum.owed == 0.0
            else && w'.s.held.value.frame.Data? && w'.out == w.out
                 && w'.sum.owed == w'.s.rate * (w'.s.held.value.deadline - w'.s.last)
  {
    WaitPays(w.s, t.now, w.left[0]);
    NewWaitIsNotOver(w, t);
  }

  predicate OwesOnlyItsWait(w: World) {
    if w.s.held.None? then w.sum.owed == 0.0
    else && w.s.held.value.frame.Data? && Bytes(w.out) <= w.s.rate
         && w.sum.owed == w.s.rate * (w.s.held.value.deadline - w.s.last)
  }

  lemma FirstWaitIsOnTime(w: World)
    requires Inv(w) && OwesOnlyItsWait(w)
    ensures LastOnTime(w)
  {
    if w.s.held.Some? {
      HeldIsOnTime(w);
    } else {
      NoDebtIsWithinOnce(w);
    }
  }

  lemma OnTimeAtLast(w: World, t: Tick)
    requires Inv(w) && Legal(w, t) && Covered(w) && DataOf(w.left) != [] && Takes(w, t.source)
    ensures LastOnTime(Step(w, t))
  {
    StepKeepsInv(w, t);
    assert OwesOnlyItsWait(Step(w, t)) by {
      TakenOwes(w, t);
    }
    FirstWaitIsOnTime(Step(w, t));
  }

  lemma LaterIsWithinOnce(w: World, w': World)
    requires WithinOnce(w) && w.s.rate >= 0.0 && w.now <= w'.now
    requires Bytes(w'.out) == Bytes(w.out) && w'.s.rate == w.s.rate && w'.start == w.start
    ensures WithinOnce(w')
  {
    Scale(w.s.rate, w.now - w.start, w'.now - w.start);
  }

  lemma DueOnTime(w: World, now: real)
    requires w.s.rate >= 0.0 && w.s.held.Some? && w.s.held.value.deadline <= now
    requires Bytes(w.out) + Size(w.s.held.value.frame)
             <= w.s.rate + w.s.rate * (w.s.held.value.deadline - w.start)
    ensures Bytes(w.out + [w.s.held.value.frame]) <= w.s.rate + w.s.rate * (now - w.start)
  {
    BytesSnoc(w.out, w.s.held.value.frame);
    Scale(w.s.rate, w.s.held.value.deadline - w.start, now - w.start);
  }

  lemma OnTimeKept(w: World, t: Tick)
    requires Inv(w) && Legal(w, t) && LastOnTime(w) && DataOf(w.left) == []
    ensures LastOnTime(Step(w, t))
  {
    if w.s.held.None? {
      EmptyOnTime(w, t);
    } else if t.fired {
      DueOnTime(w, t.now);
    }
  }

  lemma EmptyOnTime(w: World, t: Tick)
    requires Inv(w) && Legal(w, t) && LastOnTime(w) && DataOf(w.left) == [] && w.s.held.None?
    ensures LastOnTime(Step(w, t))
  {
    if Takes(w, t.source) {
      EmptyPasses(w, t);
    }
    LaterIsWithinOnce(w, Step(w, t));
  }

  lemma EmptyPasses(w: World, t: Tick)
    requires BucketOk(w.s) && w.s.last <= w.now && Legal(w, t) && Takes(w, t.source) && Size(w.left[0]) == 0.0
    ensures var w' := Step(w, t); w'.s.held.None? && w'.s.rate == w.s.rate && Bytes(w'.out) == Bytes(w.out)
    ensures t.now == w.now ==> Filled(Step(w, t).s, w.now) == Filled(w.s, w.now)
  {
    FilledIsInBounds(w.s, t.now);
    BytesSnoc(w.out, w.left[0]);
  }

  lemma SmallIsWithinOnce(w: World)
    requires Bytes(w.out) <= w.s.rate && w.s.rate >= 0.0 && w.start <= w.now
    ensures WithinOnce(w)
  {
    Product(w.s.rate, w.now - w.start);
  }

  lemma OnTimeNow(w: World)
    requires w.s.rate >= 0.0 && w.start <= w.now && Covered(w) && LastOnTime(w)
    ensures WithinOnce(w)
  {
    if DataOf(w.left) != [] || w.s.held.Some? {
      assert Bytes(w.out) <= w.s.rate;
      SmallIsWithinOnce(w);
    }
  }

  lemma {:induction false} RunIsWithinOnce(w: World, ticks: seq<Tick>)
    requires Inv(w) && Covered(w) && LastOnTime(w) && LegalRun(w, ticks)
    ensures WithinOnce(Run(w, ticks))
    decreases |ticks|
  {
    if ticks == [] {
      OnTimeNow(w);
    } else {
      StepKeepsInv(w, ticks[0]);
      StepIsOnTime(w, ticks[0]);
      RunIsWithinOnce(Step(w, ticks[0]), ticks[1..]);
    }
  }

  lemma StepIsOnTime(w: World, t: Tick)
    requires Inv(w) && Covered(w) && LastOnTime(w) && Legal(w, t)
    ensures Covered(Step(w, t)) && LastOnTime(Step(w, t))
  {
    if DataOf(w.left) == [] {
      OnTimeKept(w, t);
    } else if DataOf(Step(w, t).left) == [] {
      OnTimeAtLast(w, t);
    } else {
      CoveredKept(w, t);
    }
  }

  // Building schedules.

  ghost predicate Reaches(w: World, w': World) {
    exists ticks :: LegalRun(w, ticks) && Run(w, ticks) == w'
  }

  lemma {:induction false} RunConcat(w: World, a: seq<Tick>, b: seq<Tick>)
    requires LegalRun(w, a) && LegalRun(Run(w, a), b)
    ensures LegalRun(w, a + b) && Run(w, a + b) == Run(Run(w, a), b)
    decreases |a|
  {
    if a == [] {
      assert a + b == b;
    } else {
      assert (a + b)[1..] == a[1..] + b;
      RunConcat(Step(w, a[0]), a[1..], b);
    }
  }

  lemma ReachesTrans(w: World, w1: World, w2: World)
    requires Reaches(w, w1) && Reaches(w1, w2)
    ensures Reaches(w, w2)
  {
    var a :| LegalRun(w, a) && Run(w, a) == w1;
    var b :| LegalRun(w1, b) && Run(w1, b) == w2;
    RunConcat(w, a, b);
  }

  lemma ReachesStep(w: World, t: Tick)
    requires Legal(w, t)
    ensures Reaches(w, Step(w, t))
  {
    var ticks := [t];
    assert ticks[1..] == [];
    assert LegalRun(Step(w, t), ticks[1..]) && Run(Step(w, t), ticks[1..]) == Step(w, t);
    assert LegalRun(w, ticks) && Run(w, ticks) == Step(w, t);
  }

  /// Between frames, with frames still to come.
  predicate Idle(w: World) {
    BucketOk(w.s) && w.start <= w.s.last <= w.now && w.s.held.None? && w.left != []
  }

  /// The next frame is out.
  predicate NextOut(w: World, w': World)
    requires w.left != []
  {
    && BucketOk(w'.s) && w'.s.rate == w.s.rate && w'.s.held.None?
    && w'.left == w.left[1..] && w'.start == w.start <= w'.s.last <= w'.now
    && Bytes(w'.out) == Bytes(w.out) + Size(w.left[0])
  }

  /// Taking the next frame and, if it has to wait, polling again at its
  /// deadline. `filled` is what the bucket holds for it.
  lemma Next(w: World) returns (w': World, filled: real, wait: real)
    requires Idle(w)
    ensures Reaches(w, w') && NextOut(w, w') && w'.now == w.now + wait && wait >= 0.0
    ensures w.s.tokens <= filled <= w.s.rate
    ensures w.s.last == w.now ==> filled == w.s.tokens
    ensures w.s.last < w.now ==> filled > 0.0
    ensures w.s.last + 1.0 <= w.now ==> filled == w.s.rate
    ensures Size(w.left[0]) <= filled ==> wait == 0.0
    ensures Size(w.left[0]) > filled ==> Pays(w.s.rate, wait, Size(w.left[0]) - filled) && wait > 0.0
    ensures w.left[0].Trailers? ==> w'.s == w.s
    ensures w.left[0].Data? ==> w'.s.last == w.now && w'.s.tokens == if Size(w.left[0]) <= filled then filled - Size(w.left[0]) else 0.0
  {
    var f := w.left[0];
    var t := Tick(w.now, Ready, false);
    filled, wait := Filled(w.s, w.now), WaitFor(w.s, w.now, f);
    RefillIs(w.s, w.now);
    WaitPays(w.s, w.now, f);
    BytesSnoc(w.out, f);
    w' := Step(w, t);
    ReachesStep(w, t);
    if w'.s.held.Some? {
      var t2 := Tick(w.now + wait, NotReady, true);
      var w1 := w';
      ReachesStep(w1, t2);
      w' := Step(w1, t2);
      ReachesTrans(w, w1, w');
    }
  }

  lemma PositiveProduct(a: real, b: real)
    requires a > 0.0 && b > 0.0
    ensures a * b > 0.0
  {
  }

  lemma Refilled(s: State, now: real)
    requires s.rate >= 1.0 && s.last + 1.0 <= now
    ensures Gain(s, now) >= s.rate
  {
    var d := now - s.last - 1.0;
    Product(d, s.rate);
    assert Gain(s, now) == (d + 1.0) * s.rate == d * s.rate + s.rate;
  }

  lemma RefillIs(s: State, now: real)
    requires BucketOk(s) && s.last <= now
    ensures s.tokens <= Filled(s, now) <= s.rate
    ensures s.last == now ==> Filled(s, now) == s.tokens
    ensures s.last < now ==> Filled(s, now) > 0.0
    ensures s.last + 1.0 <= now ==> Filled(s, now) == s.rate
  {
    FilledIsInBounds(s, now);
    if s.last == now {
      assert now - s.last == 0.0;
      assert Gain(s, now) == 0.0;
    }
    if s.last < now {
      PositiveProduct(now - s.last, s.rate);
    }
    if s.last + 1.0 <= now {
      Refilled(s, now);
    }
  }

  /// The allowance is used up, and there are tokens again.
  predicate Spent(w: World) {
    && Idle(w) && DataOf(w.left) != [] && (w.s.tokens > 0.0 || w.s.last < w.now)
    && AtLeast(Bytes(w.out), w.s.rate, w.now - w.start)
  }

  lemma PastAllowance(r: real, out: real, size: real, filled: real, since: real, wait: real)
    requires AtLeast(out, r, since) && filled > 0.0
    requires if size <= filled then wait == 0.0 && size > 0.0 else Pays(r, wait, size - filled)
    ensures !AtMost(out + size, r, since + wait)
  {
    Distribute(r, wait, since);
  }

  lemma NextOvershoots(w: World) returns (w': World)
    requires Spent(w) && Size(w.left[0]) > 0.0
    ensures Reaches(w, w') && !WithinOnce(w')
  {
    var filled, wait;
    w', filled, wait := Next(w);
    PastAllowance(w.s.rate, Bytes(w.out), Size(w.left[0]), filled, w.now - w.start, wait);
    assert w'.now - w'.start == w.now - w.start + wait && Bytes(w'.out) == Bytes(w.out) + Size(w.left[0]);
  }

  lemma NextLeavesSpent(w: World) returns (w': World)
    requires Spent(w) && Size(w.left[0]) == 0.0
    ensures Reaches(w, w') && Spent(w') && w'.left == w.left[1..]
  {
    var filled, wait;
    w', filled, wait := Next(w);
    assert w'.now - w'.start == w.now - w.start && Bytes(w'.out) == Bytes(w.out);
    assert AtLeast(Bytes(w'.out), w'.s.rate, w'.now - w'.start);
    assert DataOf(w'.left) != [] && Idle(w') && (w'.s.tokens > 0.0 || w'.s.last < w'.now);
  }

  /// From there some schedule breaks the single-rate bound.
  lemma {:induction false} Overshoot(w: World) returns (w': World)
    requires Spent(w)
    ensures Reaches(w, w') && !WithinOnce(w')
    decreases |w.left|
  {
    if Size(w.left[0]) == 0.0 {
      var w1 := NextLeavesSpent(w);
      w' := Overshoot(w1);
      ReachesTrans(w, w1, w');
    } else {
      w' := NextOvershoots(w);
    }
  }

  /// No time has gone by, and the frames to come overdraw the bucket before the
  /// last one with bytes.
  predicate Bursting(w: World) {
    && Idle(w) && w.start == w.s.last == w.now
    && w.s.tokens + Bytes(w.out) == w.s.rate
    && Bytes(w.out) + Bytes(BeforeLast(w.left)) > w.s.rate
  }

  lemma BurstingHas(w: World)
    requires Bursting(w)
    ensures DataOf(w.left[1..]) != []
    ensures Bytes(BeforeLast(w.left)) == Size(w.left[0]) + Bytes(BeforeLast(w.left[1..]))
  {
    BytesOfOne(Trailers);
    BytesFirst(w.left[0], BeforeLast(w.left[1..]));
  }

  lemma NextLeavesBursting(w: World) returns (w': World)
    requires Bursting(w) && Size(w.left[0]) <= w.s.tokens
    ensures Reaches(w, w') && Bursting(w') && w'.left == w.left[1..]
  {
    BurstingHas(w);
    var filled, wait;
    w', filled, wait := Next(w);
    assert w'.now == w.now;
  }

  lemma FirstWait(r: real, wait: real, owed: real)
    requires Pays(r, wait, owed)
    ensures AtLeast(r + owed, r, wait)
  {
  }

  lemma NextOverdraws(w: World) returns (w': World)
    requires Bursting(w) && Size(w.left[0]) > w.s.tokens
    ensures Reaches(w, w') && Spent(w')
  {
    BurstingHas(w);
    var filled, wait;
    w', filled, wait := Next(w);
    FirstWait(w.s.rate, wait, Size(w.left[0]) - w.s.tokens);
    assert w'.now - w'.start == wait && Bytes(w'.out) == w.s.rate + (Size(w.left[0]) - w.s.tokens);
  }

  /// Frames are taken at once until one overdraws the bucket; that one waits,
  /// and its wait refills the bucket for the next.
  lemma {:induction false} Burst(w: World) returns (w': World)
    requires Bursting(w)
    ensures Reaches(w, w') && !WithinOnce(w')
    decreases |w.left|
  {
    if Size(w.left[0]) <= w.s.tokens {
      var w1 := NextLeavesBursting(w);
      w' := Burst(w1);
      ReachesTrans(w, w1, w');
    } else {
      var w1 := NextOverdraws(w);
      w' := Overshoot(w1);
      ReachesTrans(w, w1, w');
    }
  }

  /// The single-rate bound holds on every schedule exactly when all frames
  /// before the last one with bytes fit the full bucket.
  lemma SingleRateBoundIff(rate: nat, frames: seq<Frame>, start: real)
    ensures AlwaysWithinOnce(rate, frames, start) <==> Bytes(BeforeLast(frames)) <= Max(rate, 1) as real
  {
    var w := Begin(rate, frames, start);
    BeginIsOk(rate, frames, start);
    BytesOfOne(Trailers);
    if Bytes(BeforeLast(frames)) <= Max(rate, 1) as real {
      forall ticks | LegalRun(w, ticks) ensures WithinOnce(Run(w, ticks)) {
        RunIsWithinOnce(w, ticks);
      }
    } else {
      assert Bursting(w);
      var w' := Burst(w);
    }
  }

  // ----- The double bound is reached -----

  /// Frames of one second's worth each.
  predicate Seconds(frames: seq<Frame>, rate: nat) {
    forall f | f in frames :: f.Data? && |f.bytes| == rate
  }

  /// From an empty bucket, each second lets out two such frames: one waits for
  /// it, and the next finds the bucket refilled by it.
  lemma {:induction false} TwoPerSecond(w: World, rate: nat, n: nat) returns (w': World)
    requires BucketOk(w.s) && w.s.held.None? && w.s.rate == rate as real && w.s.tokens == 0.0
    requires w.start <= w.s.last == w.now && Seconds(w.left, rate) && |w.left| == 2 * n
    ensures Reaches(w, w') && w'.now == w.now + n as real && w'.left == [] && w'.s.held.None?
    decreases n
  {
    if n == 0 {
      w' := w;
      assert LegalRun(w, []) && Run(w, []) == w;
    } else {
      assert w.left[0] in w.left && w.left[1] in w.left;
      var w1, filled, wait := Next(w);
      OneSecond(rate as real, wait);
      var w2, filled2, wait2 := Next(w1);
      assert w2.left == w.left[2..];
      ReachesTrans(w, w1, w2);
      w' := TwoPerSecond(w2, rate, n - 1);
      ReachesTrans(w, w2, w');
    }
  }

  lemma OneSecond(r: real, wait: real)
    requires r > 0.0 && Pays(r, wait, r)
    ensures wait == 1.0
  {
    assert r * (wait - 1.0) == 0.0;
  }

  /// For every whole number of seconds some run lets out exactly the bucket plus
  /// twice the rate for that long: the factor two cannot be lowered.
  lemma DoubleRateIsReached(rate: nat, n: nat, frames: seq<Frame>, start: real) returns (w: World)
    requires rate >= 1 && Seconds(frames, rate) && |frames| == 2 * n + 1
    ensures Reaches(Begin(rate, frames, start), w)
    ensures w.now == start + n as real && |DataOf(w.out)| == rate + 2 * rate * n
  {
    var b := Begin(rate, frames, start);
    assert frames[0] in frames;
    var w1, filled, wait := Next(b);
    w := TwoPerSecond(w1, rate, n);
    ReachesTrans(b, w1, w);
    AllOut(rate, frames, start, w);
    OddSeconds(frames, rate, n);
  }

  lemma AllOut(rate: nat, frames: seq<Frame>, start: real, w: World)
    requires Reaches(Begin(rate, frames, start), w) && w.left == [] && w.s.held.None?
    ensures w.out == frames
  {
    var ticks :| LegalRun(Begin(rate, frames, start), ticks) && Run(Begin(rate, frames, start), ticks) == w;
    FramesInOrder(rate, frames, start, ticks);
  }

  lemma OddSeconds(frames: seq<Frame>, rate: nat, n: nat)
    requires Seconds(frames, rate) && |frames| == 2 * n + 1
    ensures |DataOf(frames)| == rate + 2 * rate * n
  {
    SecondsOfData(frames, rate);
    OddTimes(rate, n);
  }

  lemma OddTimes(rate: nat, n: nat)
    ensures rate * (2 * n + 1) == rate + 2 * rate * n
  {
  }

  lemma OneMore(rate: nat, k: nat)
    ensures rate * (k + 1) == rate + rate * k
  {
  }

  lemma {:induction false} SecondsOfData(frames: seq<Frame>, rate: nat)
    requires Seconds(frames, rate)
    ensures |DataOf(frames)| == rate * |frames|
  {
    if frames != [] {
      assert frames[0] in frames;
      SecondsOfData(frames[1..], rate);
      OneMore(rate, |frames[1..]|);
    }
  }
}
