/// Leases on pooled connections in `crates/hamsy-proxy/src/upstream.rs`:
/// dialing, checking out, waiting for a stream permit, finishing and failing,
/// in any order.

module PoolProtocol {
  import opened Common
  import opened Pool

  type LeaseId = nat

  /// A sender in use: its connection and the key it goes back to.
  datatype Lease = Lease(id: ConnId, key: PoolKey)

  type Leases = map<LeaseId, Lease>

  /// `waiting` are the HTTP/2 checkouts that have no stream permit yet.
  datatype World = World(conns: Conns, buckets: Buckets, leases: Leases, waiting: Leases, now: nat)

  datatype Step =
    | Tick(seconds: nat)
    | Close(id: ConnId)
    | Dial(l: LeaseId, id: ConnId, key: PoolKey, negotiatedH2: bool)
    | Checkout(l: LeaseId, key: PoolKey)
    | Acquire(l: LeaseId)
    | Abandon(l: LeaseId)
    | Finish(l: LeaseId)
    | Fail(l: LeaseId)

  predicate Enabled(w: World, step: Step) {
    match step
    case Tick(_) => true
    case Close(id) => id in w.conns
    case Dial(l, id, key, h2) =>
      l !in w.leases && l !in w.waiting && id !in w.conns && (h2 ==> key.https && key.mirrorH2)
    case Checkout(l, _) => l !in w.leases && l !in w.waiting
    case Acquire(l) => l in w.waiting && w.waiting[l].id in w.conns && w.conns[w.waiting[l].id].free > 0
    case Abandon(l) => l in w.waiting
    case Finish(l) => l in w.leases && w.leases[l].id in w.conns
    case Fail(l) => l in w.leases && w.leases[l].id in w.conns
  }

  /// `conns` with the stream permits of one connection changed.
  function WithFree(conns: Conns, id: ConnId, free: nat): Conns
    requires id in conns
  {
    conns[id := conns[id].(free := free)]
  }

  /// A sender dropped: its stream permit, if it had one, is free again.
  function Dropped(w: World, l: LeaseId): World
    requires l in w.leases && w.leases[l].id in w.conns
  {
    var id := w.leases[l].id;
    w.(leases := w.leases - {l},
       conns := if w.conns[id].http2 then WithFree(w.conns, id, w.conns[id].free + 1) else w.conns)
  }

  /// A stream permit taken for a new lease.
  function Granted(w: World, l: LeaseId, lease: Lease): World
    requires lease.id in w.conns && w.conns[lease.id].free > 0
  {
    w.(leases := w.leases[l := lease], conns := WithFree(w.conns, lease.id, w.conns[lease.id].free - 1))
  }

  function Next(w: World, step: Step): World
    requires Enabled(w, step)
  {
    match step
    case Tick(d) => w.(now := w.now + d)
    case Close(id) => w.(conns := w.conns[id := w.conns[id].(closed := true)])
    case Dial(l, id, key, h2) =>
      var conns := w.conns[id := Conn(h2, key, false, if h2 then MAX_H2_STREAMS - 1 else 0)];
      w.(conns := conns, leases := w.leases[l := Lease(id, key)],
         buckets := if h2 then CheckedIn(conns, w.buckets, key, id, w.now) else w.buckets)
    case Checkout(l, key) =>
      var (buckets, got) := CheckedOut(w.conns, w.buckets, key, w.now);
      if got.None? then w.(buckets := buckets)
      else if got.value in w.conns && w.conns[got.value].http2
      then w.(buckets := buckets, waiting := w.waiting[l := Lease(got.value, key)])
      else w.(buckets := buckets, leases := w.leases[l := Lease(got.value, key)])
    case Acquire(l) =>
      var lease := w.waiting[l];
      // A connection that closed meanwhile is not used; the permit is free again.
      var rest := w.(waiting := w.waiting - {l});
      if w.conns[lease.id].closed then rest else Granted(rest, l, lease)
    case Abandon(l) => w.(waiting := w.waiting - {l})
    case Finish(l) =>
      var lease := w.leases[l];
      if w.conns[lease.id].http2 then Dropped(w.(buckets := Touched(w.buckets, lease.key, lease.id, w.now)), l)
      else w.(leases := w.leases - {l}, buckets := CheckedIn(w.conns, w.buckets, lease.key, lease.id, w.now))
    case Fail(l) => Dropped(w, l)
  }

  // ----- The invariant -----

  ghost predicate BucketOk(conns: Conns, k: PoolKey, bucket: Bucket) {
    && |bucket| <= MAX_IDLE_PER_KEY && Distinct(bucket)
    && forall id | Holds(bucket, id) :: id in conns && conns[id].dialedFor == k
  }

  /// Buckets are small and hold connections dialed for their key, once each.
  ghost predicate BucketsOk(conns: Conns, buckets: Buckets) {
    forall k | k in buckets :: BucketOk(conns, k, buckets[k])
  }

  /// The pool holds the connection, under the key it was dialed for.
  ghost predicate IsPooled(conns: Conns, buckets: Buckets, id: ConnId) {
    id in conns && conns[id].dialedFor in buckets && Holds(buckets[conns[id].dialedFor], id)
  }

  ghost predicate LeaseOk(conns: Conns, lease: Lease) {
    lease.id in conns && lease.key == conns[lease.id].dialedFor
  }

  ghost predicate LeasesOk(w: World) {
    && (forall l | l in w.leases :: LeaseOk(w.conns, w.leases[l]))
    && (forall l | l in w.waiting :: LeaseOk(w.conns, w.waiting[l]) && w.conns[w.waiting[l].id].http2)
  }

  ghost predicate Http1(conns: Conns, id: ConnId) {
    id in conns && !conns[id].http2
  }

  /// An HTTP/1 connection with a lease has no other lease and is not pooled.
  ghost predicate Exclusive(conns: Conns, buckets: Buckets, leases: Leases) {
    && (forall l | l in leases && Http1(conns, leases[l].id) :: !IsPooled(conns, buckets, leases[l].id))
    && (forall l, m | l in leases && m in leases && Http1(conns, leases[l].id) :: leases[l].id == leases[m].id ==> l == m)
  }

  function LeasesOf(leases: Leases, id: ConnId): set<LeaseId> {
    set l | l in leases && leases[l].id == id
  }

  /// For every HTTP/2 connection, free permits and live leases make 100.
  ghost predicate PermitsOk(conns: Conns, leases: Leases) {
    forall id | id in conns && conns[id].http2 :: conns[id].free + |LeasesOf(leases, id)| == MAX_H2_STREAMS
  }

  ghost predicate Inv(w: World) {
    BucketsOk(w.conns, w.buckets) && LeasesOk(w) && Exclusive(w.conns, w.buckets, w.leases) && PermitsOk(w.conns, w.leases)
  }

  // ----- The bucket functions against the invariant -----

  /// Checking out shrinks the pool at most, and hands out an open connection
  /// dialed for the key; an HTTP/1 connection is no longer pooled afterwards.
  lemma CheckoutTakesFromPool(conns: Conns, buckets: Buckets, key: PoolKey, now: nat)
    requires BucketsOk(conns, buckets)
    ensures var (after, got) := CheckedOut(conns, buckets, key, now);
            && BucketsOk(conns, after)
            && (forall id :: IsPooled(conns, after, id) ==> IsPooled(conns, buckets, id))
            && (got.Some? ==>
                  && IsPooled(conns, buckets, got.value)
                  && conns[got.value].dialedFor == key && !conns[got.value].closed
                  && (!conns[got.value].http2 ==> !IsPooled(conns, after, got.value)))
  {
    if key in buckets {
      assert BucketOk(conns, key, buckets[key]);
      var bucket := Retained(conns, now, buckets[key]);
      RetainedIsPart(conns, now, buckets[key]);
      if bucket != [] {
        var at := PickFrom(conns, bucket, |bucket|);
        assert Holds(bucket, bucket[at].id);
        SwapRemoveIsPart(bucket, at);
        PickedStaysHeld(bucket, at, now);
      }
    }
  }

  lemma PickedStaysHeld(bucket: Bucket, at: nat, now: nat)
    requires at < |bucket|
    ensures var b := bucket[at := Pooled(bucket[at].id, now)];
            (Distinct(bucket) ==> Distinct(b)) && forall id :: Holds(b, id) ==> Holds(bucket, id)
  {
    var b := bucket[at := Pooled(bucket[at].id, now)];
    assert forall i | 0 <= i < |b| :: b[i].id == bucket[i].id;
  }

  lemma SweepTakesFromPool(conns: Conns, buckets: Buckets, now: nat)
    requires BucketsOk(conns, buckets)
    ensures BucketsOk(conns, Swept(conns, buckets, now))
    ensures forall id :: IsPooled(conns, Swept(conns, buckets, now), id) ==> IsPooled(conns, buckets, id)
  {
    forall k | k in buckets
      ensures BucketOk(conns, k, Retained(conns, now, buckets[k]))
      ensures forall id :: Holds(Retained(conns, now, buckets[k]), id) ==> Holds(buckets[k], id)
    {
      assert BucketOk(conns, k, buckets[k]);
      RetainedIsPart(conns, now, buckets[k]);
    }
  }

  /// Checking in adds the returned connection at most.
  lemma CheckinAddsOne(conns: Conns, buckets: Buckets, key: PoolKey, id: ConnId, now: nat)
    requires BucketsOk(conns, buckets) && id in conns && conns[id].dialedFor == key
    requires !IsPooled(conns, buckets, id)
    ensures BucketsOk(conns, CheckedIn(conns, buckets, key, id, now))
    ensures forall x :: IsPooled(conns, CheckedIn(conns, buckets, key, id, now), x) ==> x == id || IsPooled(conns, buckets, x)
  {
    if !conns[id].closed {
      var swept := Swept(conns, buckets, now);
      SweepTakesFromPool(conns, buckets, now);
      var bucket := if key in swept then swept[key] else [];
      assert BucketOk(conns, key, bucket);
      PushedIsPart(bucket, Pooled(id, now));
      assert !Holds(bucket, id) by {
        assert !IsPooled(conns, swept, id);
      }
    }
  }

  lemma TouchKeepsPool(conns: Conns, buckets: Buckets, key: PoolKey, id: ConnId, now: nat)
    requires BucketsOk(conns, buckets)
    ensures BucketsOk(conns, Touched(buckets, key, id, now))
    ensures forall x :: IsPooled(conns, Touched(buckets, key, id, now), x) <==> IsPooled(conns, buckets, x)
  {
    if key in buckets {
      assert BucketOk(conns, key, buckets[key]);
      TouchedIsSame(buckets[key], id, now);
    }
  }

  /// The pool does not care whether a connection is closed or how busy it is.
  lemma PoolIgnoresState(conns: Conns, id: ConnId, c: Conn, buckets: Buckets)
    requires id in conns && c.dialedFor == conns[id].dialedFor && BucketsOk(conns, buckets)
    ensures BucketsOk(conns[id := c], buckets)
    ensures forall x :: IsPooled(conns[id := c], buckets, x) <==> IsPooled(conns, buckets, x)
  {
    forall k | k in buckets ensures BucketOk(conns[id := c], k, buckets[k]) {
      assert BucketOk(conns, k, buckets[k]);
    }
  }

  lemma ExclusiveIgnoresState(conns: Conns, id: ConnId, c: Conn, buckets: Buckets, leases: Leases)
    requires id in conns && c.dialedFor == conns[id].dialedFor && c.http2 == conns[id].http2
    requires BucketsOk(conns, buckets) && Exclusive(conns, buckets, leases)
    ensures Exclusive(conns[id := c], buckets, leases)
  {
    PoolIgnoresState(conns, id, c, buckets);
  }

  lemma SharedLeaseIsExclusive(conns: Conns, buckets: Buckets, leases: Leases, l: LeaseId, lease: Lease)
    requires Exclusive(conns, buckets, leases) && l !in leases && lease.id in conns && conns[lease.id].http2
    ensures Exclusive(conns, buckets, leases[l := lease])
  {
  }

  // ----- Counting leases -----

  lemma AddLease(leases: Leases, l: LeaseId, lease: Lease, id: ConnId)
    requires l !in leases
    ensures |LeasesOf(leases[l := lease], id)| == |LeasesOf(leases, id)| + if lease.id == id then 1 else 0
  {
    assert LeasesOf(leases[l := lease], id) == LeasesOf(leases, id) + if lease.id == id then {l} else {};
  }

  lemma RemoveLease(leases: Leases, l: LeaseId, id: ConnId)
    requires l in leases
    ensures |LeasesOf(leases - {l}, id)| == |LeasesOf(leases, id)| - if leases[l].id == id then 1 else 0
  {
    assert LeasesOf(leases, id) == LeasesOf(leases - {l}, id) + if leases[l].id == id then {l} else {};
  }

  lemma PermitTaken(conns: Conns, leases: Leases, l: LeaseId, lease: Lease)
    requires PermitsOk(conns, leases) && l !in leases && lease.id in conns && conns[lease.id].free > 0
    ensures PermitsOk(WithFree(conns, lease.id, conns[lease.id].free - 1), leases[l := lease])
  {
    forall x { AddLease(leases, l, lease, x); }
  }

  lemma PermitGiven(conns: Conns, leases: Leases, l: LeaseId)
    requires PermitsOk(conns, leases) && l in leases && leases[l].id in conns
    ensures PermitsOk(WithFree(conns, leases[l].id, conns[leases[l].id].free + 1), leases - {l})
    ensures !conns[leases[l].id].http2 ==> PermitsOk(conns, leases - {l})
  {
    forall x { RemoveLease(leases, l, x); }
  }

  lemma PermitUntouched(conns: Conns, leases: Leases, l: LeaseId, lease: Lease)
    requires PermitsOk(conns, leases) && l !in leases && lease.id in conns && !conns[lease.id].http2
    ensures PermitsOk(conns, leases[l := lease])
  {
    forall x { AddLease(leases, l, lease, x); }
  }

  lemma PermitsFresh(conns: Conns, leases: Leases, l: LeaseId, id: ConnId, c: Conn)
    requires PermitsOk(conns, leases) && l !in leases && id !in conns
    requires forall m | m in leases :: leases[m].id in conns
    requires c.http2 ==> c.free == MAX_H2_STREAMS - 1
    ensures PermitsOk(conns[id := c], leases[l := Lease(id, c.dialedFor)])
  {
    assert LeasesOf(leases, id) == {};
    forall x { AddLease(leases, l, Lease(id, c.dialedFor), x); }
  }

  // ----- Every step -----

  lemma FreshIsNotPooled(w: World, id: ConnId, c: Conn)
    requires BucketsOk(w.conns, w.buckets) && id !in w.conns
    ensures BucketsOk(w.conns[id := c], w.buckets)
    ensures forall x :: IsPooled(w.conns[id := c], w.buckets, x) <==> IsPooled(w.conns, w.buckets, x)
  {
    forall k | k in w.buckets ensures BucketOk(w.conns[id := c], k, w.buckets[k]) {
      assert BucketOk(w.conns, k, w.buckets[k]);
    }
    forall x ensures IsPooled(w.conns[id := c], w.buckets, x) <==> IsPooled(w.conns, w.buckets, x) {
      if IsPooled(w.conns[id := c], w.buckets, x) {
        assert BucketOk(w.conns, w.conns[id := c][x].dialedFor, w.buckets[w.conns[id := c][x].dialedFor]);
      }
    }
  }

  lemma FreshIsExclusive(w: World, l: LeaseId, id: ConnId, c: Conn)
    requires Inv(w) && l !in w.leases && id !in w.conns
    ensures Exclusive(w.conns[id := c], w.buckets, w.leases[l := Lease(id, c.dialedFor)])
    ensures LeasesOk(w.(conns := w.conns[id := c], leases := w.leases[l := Lease(id, c.dialedFor)]))
  {
    FreshIsNotPooled(w, id, c);
    assert forall m | m in w.leases :: w.leases[m].id != id;
  }

  lemma DialKeepsInv(w: World, l: LeaseId, id: ConnId, key: PoolKey, h2: bool)
    requires Inv(w) && Enabled(w, Dial(l, id, key, h2))
    ensures Inv(Next(w, Dial(l, id, key, h2)))
  {
    var c := Conn(h2, key, false, if h2 then MAX_H2_STREAMS - 1 else 0);
    var v := Next(w, Dial(l, id, key, h2));
    assert PermitsOk(v.conns, v.leases) by { PermitsFresh(w.conns, w.leases, l, id, c); }
    assert LeasesOk(v) && Exclusive(v.conns, w.buckets, v.leases) by { FreshIsExclusive(w, l, id, c); }
    FreshIsNotPooled(w, id, c);
    if h2 {
      CheckinAddsOne(v.conns, w.buckets, key, id, w.now);
      ExclusiveWithMore(v.conns, w.buckets, v.buckets, v.leases, id);
    }
  }

  /// Pooling an HTTP/2 connection, or fewer connections, endangers no lease.
  lemma ExclusiveWithMore(conns: Conns, buckets: Buckets, after: Buckets, leases: Leases, shared: ConnId)
    requires Exclusive(conns, buckets, leases) && !Http1(conns, shared)
    requires forall x :: IsPooled(conns, after, x) ==> x == shared || IsPooled(conns, buckets, x)
    ensures Exclusive(conns, after, leases)
  {
  }

  lemma OwnLeaseIsExclusive(conns: Conns, buckets: Buckets, leases: Leases, l: LeaseId, lease: Lease)
    requires Exclusive(conns, buckets, leases) && l !in leases && !IsPooled(conns, buckets, lease.id)
    requires forall m | m in leases :: leases[m].id != lease.id
    ensures Exclusive(conns, buckets, leases[l := lease])
  {
  }

  lemma CheckoutKeepsInv(w: World, l: LeaseId, key: PoolKey)
    requires Inv(w) && Enabled(w, Checkout(l, key))
    ensures Inv(Next(w, Checkout(l, key)))
  {
    var (buckets, got) := CheckedOut(w.conns, w.buckets, key, w.now);
    CheckoutTakesFromPool(w.conns, w.buckets, key, w.now);
    assert Exclusive(w.conns, buckets, w.leases);
    if got.Some? && !w.conns[got.value].http2 {
      var lease := Lease(got.value, key);
      PermitUntouched(w.conns, w.leases, l, lease);
      assert forall m | m in w.leases :: w.leases[m].id != got.value by {
        assert IsPooled(w.conns, w.buckets, got.value);
      }
      OwnLeaseIsExclusive(w.conns, buckets, w.leases, l, lease);
    }
  }

  lemma LeasesIgnoreState(w: World, id: ConnId, c: Conn)
    requires LeasesOk(w) && id in w.conns && c.dialedFor == w.conns[id].dialedFor && c.http2 == w.conns[id].http2
    ensures LeasesOk(w.(conns := w.conns[id := c]))
  {
  }

  lemma GrantKeepsInv(w: World, l: LeaseId, lease: Lease)
    requires Inv(w) && l !in w.leases && LeaseOk(w.conns, lease) && w.conns[lease.id].http2
    requires w.conns[lease.id].free > 0
    ensures Inv(Granted(w, l, lease))
  {
    var v, c := Granted(w, l, lease), w.conns[lease.id].(free := w.conns[lease.id].free - 1);
    assert PermitsOk(v.conns, v.leases) by { PermitTaken(w.conns, w.leases, l, lease); }
    assert LeasesOk(v) by { LeasesIgnoreState(w, lease.id, c); }
    assert Exclusive(v.conns, v.buckets, v.leases) by {
      ExclusiveIgnoresState(w.conns, lease.id, c, w.buckets, w.leases);
      SharedLeaseIsExclusive(w.conns[lease.id := c], w.buckets, w.leases, l, lease);
    }
    assert BucketsOk(v.conns, v.buckets) by { PoolIgnoresState(w.conns, lease.id, c, w.buckets); }
  }

  lemma AbandonKeepsInv(w: World, l: LeaseId)
    requires Inv(w)
    ensures Inv(w.(waiting := w.waiting - {l}))
  {
  }

  lemma AcquireKeepsInv(w: World, l: LeaseId)
    requires Inv(w) && Enabled(w, Acquire(l)) && l !in w.leases
    ensures Inv(Next(w, Acquire(l)))
  {
    AbandonKeepsInv(w, l);
    if !w.conns[w.waiting[l].id].closed {
      assert LeaseOk(w.conns, w.waiting[l]);
      GrantKeepsInv(w.(waiting := w.waiting - {l}), l, w.waiting[l]);
    }
  }

  lemma FewerLeases(w: World, l: LeaseId)
    requires LeasesOk(w) && Exclusive(w.conns, w.buckets, w.leases)
    ensures LeasesOk(w.(leases := w.leases - {l})) && Exclusive(w.conns, w.buckets, w.leases - {l})
  {
  }

  lemma DropKeepsInv(w: World, l: LeaseId)
    requires Inv(w) && l in w.leases && w.leases[l].id in w.conns
    ensures Inv(Dropped(w, l))
  {
    var id, v := w.leases[l].id, Dropped(w, l);
    assert PermitsOk(v.conns, v.leases) by { PermitGiven(w.conns, w.leases, l); }
    var c := v.conns[id];
    assert v.conns == w.conns[id := c];
    assert BucketsOk(v.conns, v.buckets) by { PoolIgnoresState(w.conns, id, c, w.buckets); }
    assert LeasesOk(v) && Exclusive(v.conns, v.buckets, v.leases) by {
      ExclusiveIgnoresState(w.conns, id, c, w.buckets, w.leases);
      LeasesIgnoreState(w, id, c);
      FewerLeases(w.(conns := v.conns), l);
    }
  }

  lemma FinishKeepsInv(w: World, l: LeaseId)
    requires Inv(w) && Enabled(w, Finish(l))
    ensures Inv(Next(w, Finish(l)))
  {
    var lease := w.leases[l];
    if w.conns[lease.id].http2 {
      TouchKeepsPool(w.conns, w.buckets, lease.key, lease.id, w.now);
      DropKeepsInv(w.(buckets := Touched(w.buckets, lease.key, lease.id, w.now)), l);
    } else {
      assert LeaseOk(w.conns, lease);
      CheckinAddsOne(w.conns, w.buckets, lease.key, lease.id, w.now);
      PermitGiven(w.conns, w.leases, l);
    }
  }

  lemma CloseKeepsInv(w: World, id: ConnId)
    requires Inv(w) && id in w.conns
    ensures Inv(Next(w, Close(id)))
  {
    PoolIgnoresState(w.conns, id, w.conns[id].(closed := true), w.buckets);
    ExclusiveIgnoresState(w.conns, id, w.conns[id].(closed := true), w.buckets, w.leases);
  }

  /// No lease id is in use and waiting at once.
  ghost predicate IdsApart(w: World) {
    forall l | l in w.waiting :: l !in w.leases
  }

  lemma TickKeepsInv(w: World, seconds: nat)
    requires Inv(w)
    ensures Inv(w.(now := w.now + seconds))
  {
  }

  lemma StepKeepsIdsApart(w: World, step: Step)
    requires IdsApart(w) && Enabled(w, step)
    ensures IdsApart(Next(w, step))
  {
  }

  /// Every step keeps the pool's promises.
  lemma StepKeepsInv(w: World, step: Step)
    requires Inv(w) && IdsApart(w) && Enabled(w, step)
    ensures Inv(Next(w, step)) && IdsApart(Next(w, step))
  {
    StepKeepsIdsApart(w, step);
    match step {
      case Tick(d) => TickKeepsInv(w, d);
      case Close(id) => CloseKeepsInv(w, id);
      case Dial(l, id, key, h2) => DialKeepsInv(w, l, id, key, h2);
      case Checkout(l, key) => CheckoutKeepsInv(w, l, key);
      case Acquire(l) => AcquireKeepsInv(w, l);
      case Abandon(l) => AbandonKeepsInv(w, l);
      case Finish(l) => FinishKeepsInv(w, l);
      case Fail(l) => DropKeepsInv(w, l);
    }
  }

  // ----- Connections that must not come back -----

  /// An HTTP/1 connection that nobody holds.
  ghost predicate Gone(w: World, id: ConnId) {
    && id in w.conns && !w.conns[id].http2
    && !IsPooled(w.conns, w.buckets, id)
    && forall l | l in w.leases :: w.leases[l].id != id
  }

  lemma DialLeavesGone(w: World, l: LeaseId, id: ConnId, key: PoolKey, h2: bool, gone: ConnId)
    requires Inv(w) && Enabled(w, Dial(l, id, key, h2)) && Gone(w, gone)
    ensures Gone(Next(w, Dial(l, id, key, h2)), gone)
  {
    var c := Conn(h2, key, false, if h2 then MAX_H2_STREAMS - 1 else 0);
    FreshIsNotPooled(w, id, c);
    if h2 {
      CheckinAddsOne(w.conns[id := c], w.buckets, key, id, w.now);
    }
  }

  lemma StepLeavesGone(w: World, step: Step, gone: ConnId)
    requires Inv(w) && IdsApart(w) && Enabled(w, step) && Gone(w, gone)
    ensures Gone(Next(w, step), gone)
  {
    match step {
      case Dial(l, id, key, h2) => DialLeavesGone(w, l, id, key, h2, gone);
      case Checkout(l, key) => CheckoutTakesFromPool(w.conns, w.buckets, key, w.now);
      case Finish(l) =>
        var lease := w.leases[l];
        assert LeaseOk(w.conns, lease);
        if w.conns[lease.id].http2 {
          TouchKeepsPool(w.conns, w.buckets, lease.key, lease.id, w.now);
        } else {
          CheckinAddsOne(w.conns, w.buckets, lease.key, lease.id, w.now);
        }
      case _ =>
    }
  }

  ghost predicate Runs(w: World, steps: seq<Step>)
    decreases |steps|
  {
    steps == [] || (Enabled(w, steps[0]) && Runs(Next(w, steps[0]), steps[1..]))
  }

  ghost function Final(w: World, steps: seq<Step>): World
    requires Runs(w, steps)
    decreases |steps|
  {
    if steps == [] then w else Final(Next(w, steps[0]), steps[1..])
  }

  /// Every reachable state keeps the pool's promises: an HTTP/1 connection is
  /// pooled or leased once, never both; permits and leases of an HTTP/2
  /// connection make 100; buckets hold at most 8, all dialed for their key.
  lemma {:induction false} EveryRunKeepsInv(w: World, steps: seq<Step>)
    requires Inv(w) && IdsApart(w) && Runs(w, steps)
    ensures Inv(Final(w, steps)) && IdsApart(Final(w, steps))
    decreases |steps|
  {
    if steps != [] {
      StepKeepsInv(w, steps[0]);
      EveryRunKeepsInv(Next(w, steps[0]), steps[1..]);
    }
  }

  lemma {:induction false} GoneStaysGone(w: World, steps: seq<Step>, gone: ConnId)
    requires Inv(w) && IdsApart(w) && Runs(w, steps) && Gone(w, gone)
    ensures Gone(Final(w, steps), gone)
    decreases |steps|
  {
    if steps != [] {
      StepKeepsInv(w, steps[0]);
      StepLeavesGone(w, steps[0], gone);
      GoneStaysGone(Next(w, steps[0]), steps[1..], gone);
    }
  }

  /// An HTTP/1 connection whose response did not end cleanly is never pooled
  /// or leased again, whatever happens afterwards.
  lemma FailedConnectionNeverReturns(w: World, l: LeaseId, later: seq<Step>)
    requires Inv(w) && IdsApart(w) && Enabled(w, Fail(l)) && !w.conns[w.leases[l].id].http2
    requires Runs(Next(w, Fail(l)), later)
    ensures Gone(Final(Next(w, Fail(l)), later), w.leases[l].id)
  {
    StepKeepsInv(w, Fail(l));
    GoneStaysGone(Next(w, Fail(l)), later, w.leases[l].id);
  }

  // ----- Connections that do come back -----

  lemma PushedHoldsLast(bucket: Bucket, p: Pooled)
    ensures Pushed(bucket, p) != [] && Pushed(bucket, p)[|Pushed(bucket, p)| - 1] == p
  {
  }

  /// With the newest entry passing and able to serve, it is what a checkout finds.
  lemma LastIsHandedOut(conns: Conns, buckets: Buckets, key: PoolKey, now: nat, id: ConnId)
    requires key in buckets && buckets[key] != [] && Distinct(buckets[key])
    requires var last := buckets[key][|buckets[key]| - 1];
             last.id == id && HasRoom(conns, last)
    ensures CheckedOut(conns, buckets, key, now).1 == Some(id) <==> Passes(conns, now, buckets[key][|buckets[key]| - 1])
  {
    CheckoutHandsOut(conns, buckets, key, now);
    var bucket, got := buckets[key], CheckedOut(conns, buckets, key, now).1;
    var last := |bucket| - 1;
    assert bucket[last] in bucket;
    if got.Some? {
      var i: nat :| IsBest(conns, now, bucket, i) && got.value == bucket[i].id;
      assert IsBest(conns, now, bucket, i);
    }
  }

  /// An open HTTP/1 connection whose lease finishes serves the next request for
  /// its key exactly if that comes within 90 seconds.
  lemma ReusedWithin90(w: World, l: LeaseId, d: nat, m: LeaseId)
    requires Inv(w) && IdsApart(w) && Enabled(w, Finish(l))
    requires !w.conns[w.leases[l].id].http2 && !w.conns[w.leases[l].id].closed
    requires m !in w.leases && m !in w.waiting
    ensures var key, v := w.leases[l].key, Next(Next(w, Finish(l)), Tick(d));
            && Enabled(v, Checkout(m, key))
            && var u := Next(v, Checkout(m, key));
               (m in u.leases && u.leases[m] == w.leases[l] <==> d <= 90)
  {
    var lease, v := w.leases[l], Next(Next(w, Finish(l)), Tick(d));
    StepKeepsInv(w, Finish(l));
    assert BucketOk(v.conns, lease.key, v.buckets[lease.key]);
    var swept := Swept(w.conns, w.buckets, w.now);
    PushedHoldsLast(if lease.key in swept then swept[lease.key] else [], Pooled(lease.id, w.now));
    LastIsHandedOut(v.conns, v.buckets, lease.key, v.now, lease.id);
    assert w.leases[l] == Lease(lease.id, lease.key);
  }

  /// A freshly dialed HTTP/2 connection serves a second request at once, on a
  /// permit of its own, however long the first one takes.
  lemma SharedAfterDial(w: World, l: LeaseId, id: ConnId, key: PoolKey, d: nat, m: LeaseId)
    requires Inv(w) && IdsApart(w) && Enabled(w, Dial(l, id, key, true))
    requires m !in w.leases && m !in w.waiting && m != l
    ensures var v := Next(Next(w, Dial(l, id, key, true)), Tick(d));
            && Enabled(v, Checkout(m, key)) && Enabled(Next(v, Checkout(m, key)), Acquire(m))
            && var u := Next(Next(v, Checkout(m, key)), Acquire(m));
               u.leases == w.leases[l := Lease(id, key)][m := Lease(id, key)] && u.conns[id].free == 98
  {
    var dialed := Next(w, Dial(l, id, key, true));
    var v := Next(dialed, Tick(d));
    StepKeepsInv(w, Dial(l, id, key, true));
    assert BucketOk(v.conns, key, v.buckets[key]);
    var swept := Swept(dialed.conns, w.buckets, w.now);
    PushedHoldsLast(if key in swept then swept[key] else [], Pooled(id, w.now));
    LastIsHandedOut(v.conns, v.buckets, key, v.now, id);
  }

  /// A waiting request that gets a permit gets the connection too, unless that
  /// has closed meanwhile; then the permit stays free.
  lemma GrantedIffOpen(w: World, l: LeaseId)
    requires Enabled(w, Acquire(l)) && l !in w.leases
    ensures var lease, v := w.waiting[l], Next(w, Acquire(l));
            && l !in v.waiting && (l in v.leases <==> !w.conns[lease.id].closed)
            && (l in v.leases ==> v.leases[l] == lease)
            && v.conns[lease.id].free == w.conns[lease.id].free - if w.conns[lease.id].closed then 0 else 1
  {
  }

  /// The pool a connector starts with.
  lemma EmptyPoolIsOk(now: nat)
    ensures Inv(World(map[], map[], map[], map[], now)) && IdsApart(World(map[], map[], map[], map[], now))
  {
  }
}
