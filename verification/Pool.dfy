/// The connection pool of `crates/hamsy-proxy/src/upstream.rs`: what checkout,
/// checkin and release do to the buckets, as functions and as the class.

module Pool {
  import opened Common

  type ConnId = nat

  /// Seconds an idle connection is kept.
  const IDLE_TIMEOUT: nat := 90
  /// Pooled connections per bucket.
  const MAX_IDLE_PER_KEY: nat := 8
  /// Stream permits per HTTP/2 connection.
  const MAX_H2_STREAMS: nat := 100

  datatype PoolKey = PoolKey(https: bool, host: string, port: nat, mirrorH2: bool, upstreamProxy: Option<string>)

  /// What the pool can ask a connection: its protocol, whether it is closed,
  /// and how many stream permits are free. `dialedFor` is where it leads.
  datatype Conn = Conn(http2: bool, dialedFor: PoolKey, closed: bool, free: nat)

  type Conns = map<ConnId, Conn>

  datatype Pooled = Pooled(id: ConnId, idleSince: nat)

  type Bucket = seq<Pooled>
  type Buckets = map<PoolKey, Bucket>

  /// The `retain` test: open, and either busy or not idle for too long.
  predicate Keeps(conns: Conns, now: nat, p: Pooled) {
    p.id in conns && !conns[p.id].closed &&
    ((conns[p.id].http2 && conns[p.id].free < MAX_H2_STREAMS) || now <= p.idleSince + IDLE_TIMEOUT)
  }

  function Retained(conns: Conns, now: nat, bucket: Bucket): Bucket {
    Filter((p: Pooled) => Keeps(conns, now, p), bucket)
  }

  predicate HasCapacity(conns: Conns, p: Pooled) {
    p.id in conns && (!conns[p.id].http2 || conns[p.id].free > 0)
  }

  /// The newest entry with capacity, or else the newest entry.
  function PickFrom(conns: Conns, bucket: Bucket, upTo: nat): (at: nat)
    requires upTo <= |bucket| && bucket != []
    ensures at < |bucket|
    decreases upTo
  {
    if upTo == 0 then |bucket| - 1
    else if HasCapacity(conns, bucket[upTo - 1]) then upTo - 1
    else PickFrom(conns, bucket, upTo - 1)
  }

  function SwapRemove(bucket: Bucket, at: nat): Bucket
    requires at < |bucket|
  {
    bucket[at := bucket[|bucket| - 1]][..|bucket| - 1]
  }

  /// The part of `checkout` under the pool lock.
  function CheckedOut(conns: Conns, buckets: Buckets, key: PoolKey, now: nat): (Buckets, Option<ConnId>)
  {
    if key !in buckets then (buckets, None)
    else
      var bucket := Retained(conns, now, buckets[key]);
      if bucket == [] then (buckets[key := bucket], None)
      else
        var at := PickFrom(conns, bucket, |bucket|);
        var id := bucket[at].id;
        if id in conns && conns[id].http2
        then (buckets[key := bucket[at := Pooled(id, now)]], Some(id))
        else (buckets[key := SwapRemove(bucket, at)], Some(id))
  }

  /// The sweep that every checkin makes over every bucket.
  function Swept(conns: Conns, buckets: Buckets, now: nat): Buckets {
    map k | k in buckets && Retained(conns, now, buckets[k]) != [] :: Retained(conns, now, buckets[k])
  }

  /// A bucket with one more entry, cut to size from the old end.
  function Pushed(bucket: Bucket, p: Pooled): Bucket {
    var b := bucket + [p];
    if |b| > MAX_IDLE_PER_KEY then b[|b| - MAX_IDLE_PER_KEY..] else b
  }

  /// `checkin`.
  function CheckedIn(conns: Conns, buckets: Buckets, key: PoolKey, id: ConnId, now: nat): Buckets {
    if id !in conns || conns[id].closed then buckets
    else
      var swept := Swept(conns, buckets, now);
      swept[key := Pushed(if key in swept then swept[key] else [], Pooled(id, now))]
  }

  /// `release` of an HTTP/2 sender: the shared handle counts as used just now.
  function Touched(buckets: Buckets, key: PoolKey, id: ConnId, now: nat): Buckets {
    if key !in buckets then buckets
    else buckets[key := TouchedBucket(buckets[key], id, now)]
  }

  function TouchedBucket(bucket: Bucket, id: ConnId, now: nat): (r: Bucket)
    ensures |r| == |bucket|
  {
    seq(|bucket|, i requires 0 <= i < |bucket| => if bucket[i].id == id then Pooled(id, now) else bucket[i])
  }

  /// The buckets behind their lock.
  class ConnPool {
    var buckets: Buckets

    constructor ()
      ensures buckets == map[]
    {
      buckets := map[];
    }

    /// HTTP/1 is removed exclusively; HTTP/2 stays pooled.
    method Checkout(conns: Conns, key: PoolKey, now: nat) returns (id: Option<ConnId>)
      modifies this
      ensures (buckets, id) == CheckedOut(conns, old(buckets), key, now)
      ensures HandsOut(conns, old(buckets), key, now, buckets, id)
    {
      CheckoutHandsOut(conns, buckets, key, now);
      if key !in buckets {
        return None;
      }
      var bucket := Retained(conns, now, buckets[key]);
      if bucket == [] {
        buckets := buckets[key := bucket];
        return None;
      }
      var at: nat := |bucket|;
      while at > 0 && !HasCapacity(conns, bucket[at - 1])
        invariant at <= |bucket|
        invariant PickFrom(conns, bucket, at) == PickFrom(conns, bucket, |bucket|)
        invariant buckets == old(buckets)
      {
        at := at - 1;
      }
      at := if at == 0 then |bucket| - 1 else at - 1;
      id := Some(bucket[at].id);
      if id.value in conns && conns[id.value].http2 {
        bucket := bucket[at := Pooled(id.value, now)];
      } else {
        bucket := SwapRemove(bucket, at);
      }
      buckets := buckets[key := bucket];
    }

    method Checkin(conns: Conns, key: PoolKey, id: ConnId, now: nat)
      modifies this
      ensures buckets == CheckedIn(conns, old(buckets), key, id, now)
    {
      if id !in conns || conns[id].closed {
        return;
      }
      buckets := Swept(conns, buckets, now);
      var bucket := (if key in buckets then buckets[key] else []) + [Pooled(id, now)];
      if |bucket| > MAX_IDLE_PER_KEY {
        var excess := |bucket| - MAX_IDLE_PER_KEY;
        bucket := bucket[excess..];
      }
      buckets := buckets[key := bucket];
    }

    method ReleaseH2(key: PoolKey, id: ConnId, now: nat)
      modifies this
      ensures buckets == Touched(old(buckets), key, id, now)
      ensures buckets.Keys == old(buckets).Keys && forall k | k in buckets && k != key :: buckets[k] == old(buckets)[k]
      ensures key in buckets ==>
                && |buckets[key]| == |old(buckets)[key]|
                && forall i | 0 <= i < |buckets[key]| :: buckets[key][i].id == old(buckets)[key][i].id
                     && buckets[key][i].idleSince == if buckets[key][i].id == id then now else old(buckets)[key][i].idleSince
    {
      if key in buckets {
        buckets := buckets[key := TouchedBucket(buckets[key], id, now)];
      }
    }
  }

  // ----- What the bucket functions keep -----

  /// No connection is in the bucket twice.
  predicate Distinct(bucket: Bucket) {
    forall i, j | 0 <= i < j < |bucket| :: bucket[i].id != bucket[j].id
  }

  ghost predicate Holds(bucket: Bucket, id: ConnId) {
    exists i :: 0 <= i < |bucket| && bucket[i].id == id
  }

  lemma RetainedIsPart(conns: Conns, now: nat, bucket: Bucket)
    ensures |Retained(conns, now, bucket)| <= |bucket|
    ensures forall id :: Holds(Retained(conns, now, bucket), id) ==> Holds(bucket, id) && id in conns && !conns[id].closed
    ensures Distinct(bucket) ==> Distinct(Retained(conns, now, bucket))
  {
    var p, r := (p: Pooled) => Keeps(conns, now, p), Retained(conns, now, bucket);
    var at := FilterPicks(p, bucket);
    PicksAreFew(p, bucket, at);
    forall id | Holds(r, id) ensures Holds(bucket, id) && id in conns && !conns[id].closed {
      var k :| 0 <= k < |r| && r[k].id == id;
      assert at[k] in at && bucket[at[k]].id == id;
    }
  }

  lemma {:induction false} PickIsNewestWithCapacity(conns: Conns, bucket: Bucket, upTo: nat)
    requires upTo <= |bucket| && bucket != []
    ensures var at := PickFrom(conns, bucket, upTo);
            && (forall j | at < j < upTo :: !HasCapacity(conns, bucket[j]))
            && ((exists j | 0 <= j < upTo :: HasCapacity(conns, bucket[j])) ==> HasCapacity(conns, bucket[at]))
    decreases upTo
  {
    if upTo > 0 && !HasCapacity(conns, bucket[upTo - 1]) {
      PickIsNewestWithCapacity(conns, bucket, upTo - 1);
    }
  }

  lemma SwapRemoveIsPart(bucket: Bucket, at: nat)
    requires at < |bucket|
    ensures |SwapRemove(bucket, at)| == |bucket| - 1
    ensures forall id :: Holds(SwapRemove(bucket, at), id) ==> Holds(bucket, id)
    ensures Distinct(bucket) ==> Distinct(SwapRemove(bucket, at)) && !Holds(SwapRemove(bucket, at), bucket[at].id)
  {
    var r, last := SwapRemove(bucket, at), |bucket| - 1;
    forall id | Holds(r, id) ensures Holds(bucket, id) {
      var i :| 0 <= i < |r| && r[i].id == id;
      assert bucket[if i == at then last else i].id == id;
    }
  }

  lemma PushedIsPart(bucket: Bucket, p: Pooled)
    ensures |Pushed(bucket, p)| <= MAX_IDLE_PER_KEY
    ensures forall id :: Holds(Pushed(bucket, p), id) ==> id == p.id || Holds(bucket, id)
    ensures Distinct(bucket) && !Holds(bucket, p.id) ==> Distinct(Pushed(bucket, p))
  {
    var b, r := bucket + [p], Pushed(bucket, p);
    var cut := |b| - |r|;
    forall id | Holds(r, id) ensures id == p.id || Holds(bucket, id) {
      var i :| 0 <= i < |r| && r[i].id == id;
      assert b[cut + i].id == id;
    }
    if Distinct(bucket) && !Holds(bucket, p.id) {
      assert forall i | 0 <= i < |bucket| :: bucket[i].id != p.id;
      assert forall i | 0 <= i < |r| :: r[i] == b[cut + i];
    }
  }

  lemma TouchedIsSame(bucket: Bucket, id: ConnId, now: nat)
    ensures forall x :: Holds(TouchedBucket(bucket, id, now), x) <==> Holds(bucket, x)
    ensures Distinct(bucket) ==> Distinct(TouchedBucket(bucket, id, now))
  {
    var r := TouchedBucket(bucket, id, now);
    assert forall i | 0 <= i < |bucket| :: r[i].id == bucket[i].id;
    forall x ensures Holds(r, x) <==> Holds(bucket, x) {
      if Holds(r, x) {
        var i :| 0 <= i < |r| && r[i].id == x;
        assert bucket[i].id == x;
      }
      if Holds(bucket, x) {
        var i :| 0 <= i < |bucket| && bucket[i].id == x;
        assert r[i].id == x;
      }
    }
  }

  // ----- Which connections are kept and handed out -----

  /// Worth keeping: open, and either shared with streams in use or idle for at
  /// most 90 seconds.
  predicate Passes(conns: Conns, now: nat, p: Pooled) {
    && p.id in conns && !conns[p.id].closed
    && ((conns[p.id].http2 && conns[p.id].free < 100) || now - p.idleSince <= 90)
  }

  /// Exactly the entries that pass, in the order they had.
  ghost predicate KeepsPassing(conns: Conns, now: nat, before: Bucket, after: Bucket) {
    exists at: seq<nat> ::
      Picks((p: Pooled) => Passes(conns, now, p), before, at) && after == Selected(before, at)
  }

  lemma RetainedKeepsPassing(conns: Conns, now: nat, bucket: Bucket) returns (at: seq<nat>)
    ensures Picks((p: Pooled) => Passes(conns, now, p), bucket, at) && Retained(conns, now, bucket) == Selected(bucket, at)
    ensures KeepsPassing(conns, now, bucket, Retained(conns, now, bucket))
  {
    at := FilterPicks((p: Pooled) => Keeps(conns, now, p), bucket);
    assert forall p :: Keeps(conns, now, p) == Passes(conns, now, p);
  }

  lemma RetainedMembers(conns: Conns, now: nat, bucket: Bucket)
    ensures forall p :: p in Retained(conns, now, bucket) <==> p in bucket && Passes(conns, now, p)
  {
    FilterMembers((p: Pooled) => Keeps(conns, now, p), bucket);
  }

  predicate HasRoom(conns: Conns, p: Pooled) {
    p.id in conns && (conns[p.id].http2 ==> conns[p.id].free > 0)
  }

  /// The newest passing entry with capacity, or the newest passing one if none
  /// of them has any.
  ghost predicate IsBest(conns: Conns, now: nat, bucket: Bucket, i: nat) {
    && i < |bucket| && Passes(conns, now, bucket[i])
    && (forall j | i < j < |bucket| :: Passes(conns, now, bucket[j]) ==> HasRoom(conns, bucket[i]) && !HasRoom(conns, bucket[j]))
    && (!HasRoom(conns, bucket[i]) ==>
          forall j | 0 <= j < |bucket| :: Passes(conns, now, bucket[j]) ==> !HasRoom(conns, bucket[j]))
  }

  /// What a checkout finds and leaves: something exactly if an entry for the key
  /// passes, and then the best; the other passing entries stay pooled, the rest
  /// is dropped, and an HTTP/2 connection stays with its idle time reset.
  ghost predicate HandsOut(conns: Conns, before: Buckets, key: PoolKey, now: nat, after: Buckets, got: Option<ConnId>) {
    var bucket := if key in before then before[key] else [];
    && after.Keys == before.Keys && (forall k | k in before && k != key :: after[k] == before[k])
    && (got.None? <==> forall p | p in bucket :: !Passes(conns, now, p))
    && (got.None? && key in before ==> after[key] == [])
    && (got.Some? ==> key in before && exists i: nat | IsBest(conns, now, bucket, i) :: got.value == bucket[i].id)
    && (got.Some? && Distinct(bucket) ==> forall p ::
          p in after[key] <==> (p in bucket && Passes(conns, now, p) && p.id != got.value)
                               || (conns[got.value].http2 && p == Pooled(got.value, now)))
  }

  /// The best of what passes is the best of the bucket.
  lemma BestAmongKept(conns: Conns, now: nat, bucket: Bucket, kept: Bucket, at: seq<nat>, k: nat)
    requires Picks((p: Pooled) => Passes(conns, now, p), bucket, at) && kept == Selected(bucket, at) && k < |kept|
    requires forall m | k < m < |kept| :: HasRoom(conns, kept[k]) && !HasRoom(conns, kept[m])
    requires !HasRoom(conns, kept[k]) ==> forall m | 0 <= m < |kept| :: !HasRoom(conns, kept[m])
    ensures at[k] < |bucket| && bucket[at[k]] == kept[k] && IsBest(conns, now, bucket, at[k])
  {
    assert at[k] in at;
    forall j: nat | j < |bucket| && Passes(conns, now, bucket[j])
      ensures j > at[k] ==> HasRoom(conns, kept[k]) && !HasRoom(conns, bucket[j])
      ensures !HasRoom(conns, kept[k]) ==> !HasRoom(conns, bucket[j])
    {
      var m := PickOf((p: Pooled) => Passes(conns, now, p), bucket, at, j, k);
      assert kept[m] == bucket[j];
    }
  }

  lemma BestOfRetained(conns: Conns, now: nat, bucket: Bucket) returns (i: nat)
    requires Retained(conns, now, bucket) != []
    ensures IsBest(conns, now, bucket, i)
    ensures var kept := Retained(conns, now, bucket); bucket[i].id == kept[PickFrom(conns, kept, |kept|)].id
  {
    var kept := Retained(conns, now, bucket);
    var at := RetainedKeepsPassing(conns, now, bucket);
    var k := PickFrom(conns, kept, |kept|);
    PickIsNewestWithCapacity(conns, kept, |kept|);
    PickIsLastIfNone(conns, kept, |kept|);
    forall m | 0 <= m < |kept| ensures HasRoom(conns, kept[m]) == HasCapacity(conns, kept[m]) {
      RoomIsCapacity(conns, kept[m]);
    }
    BestAmongKept(conns, now, bucket, kept, at, k);
    i := at[k];
  }

  lemma RoomIsCapacity(conns: Conns, p: Pooled)
    ensures HasRoom(conns, p) == HasCapacity(conns, p)
  {
  }

  lemma PickIsLastIfNone(conns: Conns, bucket: Bucket, upTo: nat)
    requires upTo <= |bucket| && bucket != []
    ensures (forall j | 0 <= j < upTo :: !HasCapacity(conns, bucket[j])) ==> PickFrom(conns, bucket, upTo) == |bucket| - 1
    decreases upTo
  {
  }

  lemma SwapRemoveMembers(bucket: Bucket, at: nat)
    requires at < |bucket| && Distinct(bucket)
    ensures forall p :: p in SwapRemove(bucket, at) <==> p in bucket && p.id != bucket[at].id
  {
    var r, last := SwapRemove(bucket, at), |bucket| - 1;
    forall p ensures p in r <==> p in bucket && p.id != bucket[at].id {
      if p in bucket && p.id != bucket[at].id {
        var i :| 0 <= i < |bucket| && bucket[i] == p;
        assert r[if i == last then at else i] == p;
      }
      if p in r {
        var i :| 0 <= i < |r| && r[i] == p;
        assert bucket[if i == at then last else i] == p;
      }
    }
  }

  lemma ReplacedMembers(bucket: Bucket, at: nat, now: nat)
    requires at < |bucket| && Distinct(bucket)
    ensures forall p ::
              p in bucket[at := Pooled(bucket[at].id, now)] <==>
              (p in bucket && p.id != bucket[at].id) || p == Pooled(bucket[at].id, now)
  {
    var r := bucket[at := Pooled(bucket[at].id, now)];
    forall p ensures p in r <==> (p in bucket && p.id != bucket[at].id) || p == Pooled(bucket[at].id, now) {
      if p in bucket && p.id != bucket[at].id {
        var i :| 0 <= i < |bucket| && bucket[i] == p;
        assert r[i] == p;
      }
      if p in r {
        var i :| 0 <= i < |r| && r[i] == p;
        assert i != at ==> bucket[i] == p;
      }
      assert r[at] == Pooled(bucket[at].id, now);
    }
  }

  lemma LeftInBucket(conns: Conns, kept: Bucket, at: nat, now: nat)
    requires at < |kept| && Distinct(kept) && kept[at].id in conns
    ensures var left := if conns[kept[at].id].http2 then kept[at := Pooled(kept[at].id, now)] else SwapRemove(kept, at);
            forall p :: p in left <==> (p in kept && p.id != kept[at].id)
                                       || (conns[kept[at].id].http2 && p == Pooled(kept[at].id, now))
  {
    if conns[kept[at].id].http2 {
      ReplacedMembers(kept, at, now);
    } else {
      SwapRemoveMembers(kept, at);
    }
  }

  /// A checkout does that.
  lemma CheckoutHandsOut(conns: Conns, buckets: Buckets, key: PoolKey, now: nat)
    ensures var (after, got) := CheckedOut(conns, buckets, key, now);
            HandsOut(conns, buckets, key, now, after, got)
  {
    if key in buckets {
      var bucket, kept := buckets[key], Retained(conns, now, buckets[key]);
      RetainedMembers(conns, now, bucket);
      RetainedIsPart(conns, now, bucket);
      if kept == [] {
        assert forall p | p in bucket :: !Passes(conns, now, p) by {
          assert forall p :: p !in kept;
        }
      } else {
        var i := BestOfRetained(conns, now, bucket);
        var at := PickFrom(conns, kept, |kept|);
        assert bucket[i] in bucket;
        if Distinct(bucket) {
          LeftInBucket(conns, kept, at, now);
        }
      }
    }
  }

  /// What a checkin leaves: nothing changes for a closed connection; otherwise
  /// every bucket keeps what passes, an emptied one goes, and the returned
  /// connection is the newest of at most 8 under its key.
  ghost predicate TakesBack(conns: Conns, before: Buckets, key: PoolKey, id: ConnId, now: nat, after: Buckets) {
    if id !in conns || conns[id].closed then after == before
    else
      && (forall k | k != key :: k in after <==> k in before && exists p | p in before[k] :: Passes(conns, now, p))
      && (forall k | k != key && k in after :: k in before && KeepsPassing(conns, now, before[k], after[k]))
      && key in after
      && exists kept: Bucket ::
           && KeepsPassing(conns, now, if key in before then before[key] else [], kept)
           && after[key] == (if |kept| > 7 then kept[|kept| - 7..] else kept) + [Pooled(id, now)]
  }

  lemma SweptIs(conns: Conns, buckets: Buckets, now: nat, k: PoolKey)
    ensures var swept := Swept(conns, buckets, now);
            && (k in swept <==> k in buckets && exists p | p in buckets[k] :: Passes(conns, now, p))
            && (k in swept ==> KeepsPassing(conns, now, buckets[k], swept[k]))
            && KeepsPassing(conns, now, if k in buckets then buckets[k] else [], if k in swept then swept[k] else [])
  {
    var bucket := if k in buckets then buckets[k] else [];
    var kept := Retained(conns, now, bucket);
    RetainedMembers(conns, now, bucket);
    var at := RetainedKeepsPassing(conns, now, bucket);
    if kept != [] {
      assert kept[0] in kept;
    }
  }

  lemma OthersSwept(conns: Conns, buckets: Buckets, key: PoolKey, now: nat)
    ensures var swept := Swept(conns, buckets, now);
            && (forall k | k != key :: k in swept <==> k in buckets && exists p | p in buckets[k] :: Passes(conns, now, p))
            && (forall k | k != key && k in swept :: k in buckets && KeepsPassing(conns, now, buckets[k], swept[k]))
  {
    forall k | k != key {
      SweptIs(conns, buckets, now, k);
    }
  }

  lemma PushedIs(bucket: Bucket, p: Pooled)
    ensures Pushed(bucket, p) == (if |bucket| > 7 then bucket[|bucket| - 7..] else bucket) + [p]
  {
  }

  /// A checkin does that.
  lemma CheckinTakesBack(conns: Conns, buckets: Buckets, key: PoolKey, id: ConnId, now: nat)
    ensures TakesBack(conns, buckets, key, id, now, CheckedIn(conns, buckets, key, id, now))
  {
    if id in conns && !conns[id].closed {
      var swept, after := Swept(conns, buckets, now), CheckedIn(conns, buckets, key, id, now);
      OthersSwept(conns, buckets, key, now);
      assert forall k | k != key :: (k in after <==> k in swept) && (k in after ==> after[k] == swept[k]);
      SweptIs(conns, buckets, now, key);
      PushedIs(if key in swept then swept[key] else [], Pooled(id, now));
    }
  }
}
