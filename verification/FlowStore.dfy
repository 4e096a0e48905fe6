/// The flow store of `crates/hamsy-core/src/store.rs`: what each critical
/// section does to the stored flows, as functions and as the class itself.

module FlowStore {
  import opened Common
  import opened Retention

  type FlowId = nat

  /// A captured flow; the payload buffers appear as their allocated sizes.
  datatype Flow = Flow(
    id: FlowId,
    request: Option<nat>,
    originalRequest: Option<nat>,
    response: Option<nat>,
    originalResponse: Option<nat>,
    wsMessages: seq<nat>,
    rest: string)

  function Size(body: Option<nat>): nat {
    if body.Some? then body.value else 0
  }

  /// `stored_payload_bytes`.
  function Payload(f: Flow): nat {
    Size(f.request) + Size(f.originalRequest) + Size(f.response) + Size(f.originalResponse) + Sum(f.wsMessages)
  }

  /// The bytes of every buffer of the flow.
  lemma PayloadIsAllBuffers(f: Flow)
    ensures Payload(f) == Sum([Size(f.request), Size(f.originalRequest), Size(f.response), Size(f.originalResponse)] + f.wsMessages)
  {
    var bodies: seq<nat> := [Size(f.request), Size(f.originalRequest), Size(f.response), Size(f.originalResponse)];
    SumConcat(bodies, f.wsMessages);
    SumSuffix(bodies, 0);
    SumSuffix(bodies, 1);
    SumSuffix(bodies, 2);
    SumSuffix(bodies, 3);
    assert bodies[0..] == bodies;
  }

  /// `saturating_sub`.
  function SatSub(a: nat, b: nat): nat {
    if b <= a then a - b else 0
  }

  /// What the write lock protects.
  datatype Store = Store(
    flows: map<FlowId, Flow>,
    order: seq<FlowId>,
    capacity: nat,
    total: nat,
    maxBytes: nat)

  function Weights(flows: map<FlowId, Flow>, order: seq<FlowId>): (w: seq<nat>)
    ensures |w| == |order|
  {
    seq(|order|, i requires 0 <= i < |order| => if order[i] in flows then Payload(flows[order[i]]) else 0)
  }

  /// The order lists exactly the stored ids.
  ghost predicate Lists(order: seq<FlowId>, flows: map<FlowId, Flow>) {
    forall id {:trigger id in order} {:trigger id in flows} :: id in order <==> id in flows
  }

  /// The order lists exactly the stored ids, once each, and the byte total is exact.
  ghost predicate Consistent(s: Store) {
    NoDuplicates(s.order) && Lists(s.order, s.flows) && s.total == Sum(Weights(s.flows, s.order))
  }

  /// Consistent and within both bounds: what holds whenever the lock is free.
  ghost predicate Valid(s: Store) {
    Consistent(s) && |s.order| <= s.capacity && s.total <= s.maxBytes
  }

  // ----- The critical sections -----

  predicate OverLimit(s: Store) {
    |s.order| > s.capacity || s.total > s.maxBytes
  }

  /// One turn of the eviction loop.
  function EvictOldest(s: Store): Store
    requires s.order != []
  {
    var oldest := s.order[0];
    s.(order := s.order[1..],
       flows := s.flows - {oldest},
       total := if oldest in s.flows then SatSub(s.total, Payload(s.flows[oldest])) else s.total)
  }

  /// `evict_if_needed`.
  function Evicted(s: Store): Store
    decreases |s.order|
  {
    if OverLimit(s) && s.order != [] then Evicted(EvictOldest(s)) else s
  }

  /// Takes out an older flow under the same id, as `retain` does for the order.
  function Replaced(s: Store, id: FlowId): Store {
    if id !in s.flows then s
    else s.(flows := s.flows - {id}, total := SatSub(s.total, Payload(s.flows[id])), order := Without(s.order, id))
  }

  /// A new flow at the end.
  function Appended(s: Store, flow: Flow): Store {
    s.(total := s.total + Payload(flow), order := s.order + [flow.id], flows := s.flows[flow.id := flow])
  }

  /// `insert`.
  function Inserted(s: Store, flow: Flow): Store {
    Evicted(Appended(Replaced(s, flow.id), flow))
  }

  /// A stored flow changed to `after`, with its bytes accounted again.
  function Rewritten(s: Store, id: FlowId, after: Flow): Store
    requires id in s.flows
  {
    s.(flows := s.flows[id := after], total := SatSub(s.total, Payload(s.flows[id])) + Payload(after))
  }

  /// `update`, seen as one step: the callback on the stored version, once.
  function Updated(s: Store, id: FlowId, callback: Flow -> Flow): Store {
    if id !in s.flows then s else Evicted(Rewritten(s, id, callback(s.flows[id])))
  }

  /// `update` on a clone of the stored version: the bytes of the stored one give way.
  function UpdatedFrom(s: Store, id: FlowId, base: Flow, callback: Flow -> Flow): Store
    requires id in s.flows
  {
    Evicted(Rewritten(s, id, callback(base)))
  }

  /// `clear`.
  function Cleared(s: Store): Store {
    s.(flows := map[], order := [], total := 0)
  }

  /// `set_capacity`.
  function Resized(s: Store, capacity: nat): Store {
    Evicted(s.(capacity := Max(capacity, 1)))
  }

  /// `set_max_total_bytes`.
  function Rebudgeted(s: Store, maxBytes: nat): Store {
    Evicted(s.(maxBytes := maxBytes))
  }

  // ----- Accounting -----

  /// Eviction only ever takes flows away.
  lemma {:induction false} EvictedIsPart(s: Store)
    ensures forall id | id in Evicted(s).flows :: id in s.flows && Evicted(s).flows[id] == s.flows[id]
    ensures Evicted(s).capacity == s.capacity && Evicted(s).maxBytes == s.maxBytes
    decreases |s.order|
  {
    if OverLimit(s) && s.order != [] {
      EvictedIsPart(EvictOldest(s));
    }
  }

  lemma TailLists(order: seq<FlowId>, flows: map<FlowId, Flow>)
    requires order != [] && NoDuplicates(order) && Lists(order, flows)
    ensures NoDuplicates(order[1..]) && Lists(order[1..], flows - {order[0]})
  {
    assert order == [order[0]] + order[1..];
    assert order[0] !in order[1..];
  }

  lemma EvictOldestIsConsistent(s: Store)
    requires Consistent(s) && s.order != []
    ensures Consistent(EvictOldest(s))
    ensures Weights(EvictOldest(s).flows, s.order[1..]) == Weights(s.flows, s.order)[1..]
  {
    TailLists(s.order, s.flows);
    var e := EvictOldest(s);
    assert s.order[0] in s.flows;
    assert Weights(e.flows, e.order) == Weights(s.flows, s.order)[1..];
  }

  /// Eviction keeps the store consistent, meets both bounds, and keeps the
  /// longest suffix of the insertion order that does; kept flows are untouched.
  lemma {:induction false} EvictionKeepsLongestSuffix(s: Store) returns (drop: nat)
    requires Consistent(s)
    ensures Valid(Evicted(s))
    ensures LongestFit(Weights(s.flows, s.order), s.capacity, s.maxBytes, drop)
    ensures Evicted(s).order == s.order[drop..]
    decreases |s.order|
  {
    var w := Weights(s.flows, s.order);
    assert w[0..] == w;
    if OverLimit(s) && s.order != [] {
      var e := EvictOldest(s);
      EvictOldestIsConsistent(s);
      var inner := EvictionKeepsLongestSuffix(e);
      drop := inner + 1;
      assert s.order[drop..] == e.order[inner..];
      assert w[drop..] == w[1..][inner..];
      forall k | 0 <= k < drop
        ensures !Fits(w[k..], s.capacity, s.maxBytes)
      {
        if k > 0 {
          assert w[k..] == w[1..][k - 1..];
        }
      }
    } else {
      drop := 0;
    }
  }

  lemma {:induction false} WithoutWeighsLess(flows: map<FlowId, Flow>, order: seq<FlowId>, id: FlowId)
    requires NoDuplicates(order) && id in order && id in flows
    ensures Sum(Weights(flows - {id}, Without(order, id))) + Payload(flows[id]) == Sum(Weights(flows, order))
  {
    var x, later := order[0], order[1..];
    assert order == [x] + later;
    assert Weights(flows, order)[1..] == Weights(flows, later);
    if x == id {
      WithoutAbsent(later, id);
      assert Without(order, id) == later;
      assert Weights(flows - {id}, later) == Weights(flows, later);
    } else {
      WithoutWeighsLess(flows, later, id);
      var kept := Without(later, id);
      assert Without(order, id) == [x] + kept;
      assert Weights(flows - {id}, [x] + kept)[1..] == Weights(flows - {id}, kept);
    }
  }

  lemma ReplacedIsConsistent(s: Store, id: FlowId)
    requires Consistent(s)
    ensures Consistent(Replaced(s, id)) && id !in Replaced(s, id).flows
  {
    if id in s.flows {
      WithoutHasNoDuplicates(s.order, id);
      WithoutMembers(s.order, id);
      WithoutWeighsLess(s.flows, s.order, id);
    }
  }

  lemma AppendedIsConsistent(s: Store, flow: Flow)
    requires Consistent(s) && flow.id !in s.flows
    ensures Consistent(Appended(s, flow))
    ensures Weights(Appended(s, flow).flows, Appended(s, flow).order) == Weights(s.flows, s.order) + [Payload(flow)]
  {
    var n, w := Appended(s, flow), Weights(s.flows, s.order);
    assert flow.id !in s.order;
    assert Weights(n.flows, n.order) == w + [Payload(flow)];
    SumConcat(w, [Payload(flow)]);
    assert Sum([Payload(flow)]) == Payload(flow) + Sum([]);
  }

  lemma RewrittenIsConsistent(s: Store, id: FlowId, after: Flow)
    requires Consistent(s) && id in s.flows
    ensures Consistent(Rewritten(s, id, after))
  {
    assert id in s.order;
    var i :| 0 <= i < |s.order| && s.order[i] == id;
    var w := Weights(s.flows, s.order);
    assert Weights(s.flows[id := after], s.order) == w[i := Payload(after)];
    SumUpdate(w, i, Payload(after));
  }

  lemma {:induction false} LastWeighsLess(w: seq<nat>, k: nat)
    requires k < |w|
    ensures w[|w| - 1] <= Sum(w[k..])
    decreases |w| - k
  {
    SumSuffix(w, k);
    if k + 1 < |w| {
      LastWeighsLess(w, k + 1);
    }
  }

  /// The newest entry survives eviction exactly when it alone fits.
  lemma NewestSurvives(w: seq<nat>, count: nat, bytes: nat, drop: nat)
    requires w != [] && 1 <= count && LongestFit(w, count, bytes, drop)
    ensures drop < |w| <==> w[|w| - 1] <= bytes
  {
    if drop < |w| {
      LastWeighsLess(w, drop);
    } else {
      SumSuffix(w, |w| - 1);
      assert !Fits(w[|w| - 1..], count, bytes);
    }
  }

  /// After an insert the store is valid again.
  lemma InsertIsValid(s: Store, flow: Flow)
    requires Consistent(s)
    ensures Valid(Inserted(s, flow))
    ensures forall id | id in Inserted(s, flow).flows ::
              id in s.flows[flow.id := flow] && Inserted(s, flow).flows[id] == s.flows[flow.id := flow][id]
  {
    var r := Replaced(s, flow.id);
    ReplacedIsConsistent(s, flow.id);
    AppendedIsConsistent(r, flow);
    var drop := EvictionKeepsLongestSuffix(Appended(r, flow));
    EvictedIsPart(Appended(r, flow));
  }

  lemma NewestStays(flows: map<FlowId, Flow>, order: seq<FlowId>, capacity: nat, maxBytes: nat, drop: nat)
    requires order != [] && 1 <= capacity && order[|order| - 1] in flows
    requires LongestFit(Weights(flows, order), capacity, maxBytes, drop)
    ensures order[|order| - 1] in order[drop..] ==> order[drop..][|order| - drop - 1] == order[|order| - 1]
    ensures NoDuplicates(order) ==>
              (order[|order| - 1] in order[drop..] <==> Payload(flows[order[|order| - 1]]) <= maxBytes)
  {
    NewestSurvives(Weights(flows, order), capacity, maxBytes, drop);
    if drop < |order| {
      assert order[drop..][|order| - drop - 1] == order[|order| - 1];
    }
  }

  /// The new flow is stored exactly when it alone is within the budget, and
  /// then it is the newest.
  lemma InsertStoresWhatFits(s: Store, flow: Flow)
    requires Consistent(s) && 1 <= s.capacity
    ensures flow.id in Inserted(s, flow).order <==> Payload(flow) <= s.maxBytes
    ensures flow.id in Inserted(s, flow).order ==>
              Inserted(s, flow).order[|Inserted(s, flow).order| - 1] == flow.id
  {
    ReplacedIsConsistent(s, flow.id);
    AppendedIsConsistent(Replaced(s, flow.id), flow);
    var n := Appended(Replaced(s, flow.id), flow);
    var drop := EvictionKeepsLongestSuffix(n);
    NewestStays(n.flows, n.order, n.capacity, n.maxBytes, drop);
  }

  /// Whatever a stored flow is changed to, with the bytes of the stored one taken
  /// off, the accounting is exact again.
  lemma RewriteIsValid(s: Store, id: FlowId, after: Flow)
    requires Valid(s) && id in s.flows
    ensures var s' := Evicted(Rewritten(s, id, after));
            && Valid(s')
            && forall x | x in s'.flows :: x in s.flows && s'.flows[x] == if x == id then after else s.flows[x]
  {
    RewrittenIsConsistent(s, id, after);
    var drop := EvictionKeepsLongestSuffix(Rewritten(s, id, after));
    EvictedIsPart(Rewritten(s, id, after));
  }

  /// Of these flows in this order, the newest that fit are what is left, each as
  /// it is here, under the limits given.
  ghost predicate KeepsNewest(flows: map<FlowId, Flow>, order: seq<FlowId>, capacity: nat, maxBytes: nat, now: Store) {
    && now.capacity == capacity && now.maxBytes == maxBytes && Lists(now.order, now.flows)
    && (forall id | id in now.flows :: id in flows && now.flows[id] == flows[id])
    && exists drop: nat :: drop <= |order| && LongestFit(Weights(flows, order), capacity, maxBytes, drop) && now.order == order[drop..]
  }

  lemma EvictedKeepsNewest(s: Store)
    requires Consistent(s)
    ensures KeepsNewest(s.flows, s.order, s.capacity, s.maxBytes, Evicted(s))
  {
    var drop := EvictionKeepsLongestSuffix(s);
    EvictedIsPart(s);
  }

  /// An insert moves the id to the newest place with the new flow, and then the
  /// newest flows that fit are kept.
  lemma InsertKeepsNewest(s: Store, flow: Flow)
    requires Consistent(s)
    ensures KeepsNewest(s.flows[flow.id := flow], Without(s.order, flow.id) + [flow.id], s.capacity, s.maxBytes, Inserted(s, flow))
  {
    var r := Replaced(s, flow.id);
    ReplacedIsConsistent(s, flow.id);
    AppendedIsConsistent(r, flow);
    if flow.id !in s.flows {
      WithoutAbsent(s.order, flow.id);
    }
    assert Appended(r, flow).flows == s.flows[flow.id := flow];
    EvictedKeepsNewest(Appended(r, flow));
  }

  /// An update leaves the order alone and puts what the callback makes of `base`
  /// in the flow's place, and then the newest flows that fit are kept.
  lemma RewriteKeepsNewest(s: Store, id: FlowId, base: Flow, callback: Flow -> Flow)
    requires Consistent(s) && id in s.flows
    ensures KeepsNewest(s.flows[id := callback(base)], s.order, s.capacity, s.maxBytes, UpdatedFrom(s, id, base, callback))
  {
    RewrittenIsConsistent(s, id, callback(base));
    EvictedKeepsNewest(Rewritten(s, id, callback(base)));
  }

  ghost predicate UpdateLeaves(s: Store, id: FlowId, callback: Flow -> Flow, now: Store) {
    if id !in s.flows then now == s
    else KeepsNewest(s.flows[id := callback(s.flows[id])], s.order, s.capacity, s.maxBytes, now)
  }

  /// The same of `update`, which does nothing for an id that is not stored; a
  /// flow that does not grow stays, and all others with it.
  lemma UpdateKeepsNewest(s: Store, id: FlowId, callback: Flow -> Flow)
    requires Valid(s)
    ensures UpdateLeaves(s, id, callback, Updated(s, id, callback))
    ensures id in s.flows && Payload(callback(s.flows[id])) <= Payload(s.flows[id]) ==>
              var now := Updated(s, id, callback);
              now.order == s.order && now.flows == s.flows[id := callback(s.flows[id])]
  {
    if id in s.flows {
      RewriteKeepsNewest(s, id, s.flows[id], callback);
      if Payload(callback(s.flows[id])) <= Payload(s.flows[id]) {
        RewrittenIsConsistent(s, id, callback(s.flows[id]));
        var i :| 0 <= i < |s.order| && s.order[i] == id;
        SumUpdate(Weights(s.flows, s.order), i, 0);
      }
    }
  }

  /// New limits take effect on the flows as they are.
  lemma ResizeKeepsNewest(s: Store, n: nat)
    requires Consistent(s)
    ensures KeepsNewest(s.flows, s.order, if n == 0 then 1 else n, s.maxBytes, Resized(s, n))
    ensures KeepsNewest(s.flows, s.order, s.capacity, n, Rebudgeted(s, n))
  {
    EvictedKeepsNewest(s.(capacity := Max(n, 1)));
    EvictedKeepsNewest(s.(maxBytes := n));
  }

  /// After an update the store is valid again; the flow, if it survived, holds
  /// the callback's result and every other survivor is as it was.
  lemma UpdateIsValid(s: Store, id: FlowId, callback: Flow -> Flow)
    requires Valid(s)
    ensures Valid(Updated(s, id, callback))
    ensures forall x | x in Updated(s, id, callback).flows ::
              x in s.flows && Updated(s, id, callback).flows[x] == if x == id then callback(s.flows[x]) else s.flows[x]
  {
    if id in s.flows {
      RewriteIsValid(s, id, callback(s.flows[id]));
    }
  }

  lemma ResizeIsValid(s: Store, n: nat)
    requires Consistent(s)
    ensures Valid(Resized(s, n)) && Valid(Rebudgeted(s, n)) && Valid(Cleared(s))
    ensures Resized(s, n).capacity >= 1
  {
    var a := EvictionKeepsLongestSuffix(s.(capacity := Max(n, 1)));
    var b := EvictionKeepsLongestSuffix(s.(maxBytes := n));
    EvictedIsPart(s.(capacity := Max(n, 1)));
  }

  /// The store as the source holds it: the fields behind its lock, each method
  /// one critical section.
  class FlowTable {
    var flows: map<FlowId, Flow>
    var order: seq<FlowId>
    var capacity: nat
    var nextSeq: nat
    var totalBytes: nat
    var maxTotalBytes: nat

    function Now(): Store
      reads this
    {
      Store(flows, order, capacity, totalBytes, maxTotalBytes)
    }

    ghost predicate Invariant()
      reads this
    {
      Valid(Now()) && 1 <= capacity
    }

    constructor (capacity: nat)
      ensures Invariant() && Now() == Store(map[], [], Max(capacity, 1), 0, U64_MAX) && nextSeq == 1
    {
      this.flows, this.order := map[], [];
      this.capacity, this.nextSeq := Max(capacity, 1), 1;
      this.totalBytes, this.maxTotalBytes := 0, U64_MAX;
    }

    method NextSeq() returns (seqNo: nat)
      modifies this`nextSeq
      ensures seqNo == old(nextSeq) && nextSeq == seqNo + 1
    {
      seqNo := nextSeq;
      nextSeq := nextSeq + 1;
    }

    /// The eviction loop.
    method EvictIfNeeded()
      requires Consistent(Now())
      modifies this`flows, this`order, this`totalBytes
      ensures Now() == Evicted(old(Now())) && Valid(Now())
    {
      while |order| > capacity || totalBytes > maxTotalBytes
        invariant Consistent(Now()) && capacity == old(capacity) && maxTotalBytes == old(maxTotalBytes)
        invariant Evicted(Now()) == Evicted(old(Now()))
        decreases |order|
      {
        if order == [] {
          break;
        }
        ghost var was := Now();
        EvictOldestIsConsistent(was);
        var oldest := order[0];
        order := order[1..];
        if oldest in flows {
          totalBytes := SatSub(totalBytes, Payload(flows[oldest]));
          flows := flows - {oldest};
        }
        assert Now() == EvictOldest(was);
      }
      ghost var drop := EvictionKeepsLongestSuffix(Now());
      EvictedIsPart(Now());
    }

    /// The part of an insert that takes an older flow of the same id out.
    method TakeOut(id: FlowId)
      modifies this`flows, this`order, this`totalBytes
      ensures Now() == Replaced(old(Now()), id)
    {
      if id in flows {
        totalBytes := SatSub(totalBytes, Payload(flows[id]));
        flows := flows - {id};
        order := Without(order, id);
      }
    }

    /// The part that puts the new flow at the end.
    method Append(flow: Flow)
      modifies this`flows, this`order, this`totalBytes
      ensures Now() == Appended(old(Now()), flow)
    {
      totalBytes := totalBytes + Payload(flow);
      order := order + [flow.id];
      flows := flows[flow.id := flow];
    }

    method Insert(flow: Flow)
      requires Invariant()
      modifies this`flows, this`order, this`totalBytes
      ensures Invariant() && Now() == Inserted(old(Now()), flow)
      ensures KeepsNewest(old(flows)[flow.id := flow], Without(old(order), flow.id) + [flow.id], capacity, maxTotalBytes, Now())
    {
      InsertKeepsNewest(Now(), flow);
      ReplacedIsConsistent(Now(), flow.id);
      AppendedIsConsistent(Replaced(Now(), flow.id), flow);
      TakeOut(flow.id);
      Append(flow);
      EvictIfNeeded();
    }

    /// The part of an update that stores the changed flow and corrects the total.
    method Put(id: FlowId, flow: Flow, before: nat)
      requires id in flows && before == Payload(flows[id])
      modifies this`flows, this`totalBytes
      ensures Now() == Rewritten(old(Now()), id, flow)
    {
      flows := flows[id := flow];
      totalBytes := SatSub(totalBytes, before) + Payload(flow);
    }

    /// Returns the summary's flow, or `None` when the id is missing or the
    /// updated flow did not survive the budget.
    method Update(id: FlowId, callback: Flow -> Flow) returns (summary: Option<Flow>)
      requires Invariant()
      modifies this`flows, this`order, this`totalBytes
      ensures Invariant() && Now() == Updated(old(Now()), id, callback)
      ensures UpdateLeaves(old(Now()), id, callback, Now())
      ensures summary == if id in old(flows) && id in flows then Some(callback(old(flows)[id])) else None
    {
      UpdateKeepsNewest(Now(), id, callback);
      if id !in flows {
        return None;
      }
      ghost var was := Now();
      var before := Payload(flows[id]);
      var flow := callback(flows[id]);
      RewrittenIsConsistent(was, id, flow);
      Put(id, flow, before);
      EvictIfNeeded();
      summary := if id in flows then Some(flow) else None;
    }

    method Clear()
      requires Invariant()
      modifies this`flows, this`order, this`totalBytes
      ensures Invariant() && Now() == Cleared(old(Now()))
      ensures flows == map[] && order == [] && totalBytes == 0
    {
      flows, order, totalBytes := map[], [], 0;
    }

    method SetCapacity(cap: nat)
      requires Invariant()
      modifies this`flows, this`order, this`totalBytes, this`capacity
      ensures Invariant() && Now() == Resized(old(Now()), cap)
      ensures KeepsNewest(old(flows), old(order), if cap == 0 then 1 else cap, maxTotalBytes, Now())
    {
      ResizeKeepsNewest(Now(), cap);
      capacity := Max(cap, 1);
      EvictIfNeeded();
    }

    method SetMaxTotalBytes(max: nat)
      requires Invariant()
      modifies this`flows, this`order, this`totalBytes, this`maxTotalBytes
      ensures Invariant() && Now() == Rebudgeted(old(Now()), max)
      ensures KeepsNewest(old(flows), old(order), capacity, max, Now())
    {
      ResizeKeepsNewest(Now(), max);
      maxTotalBytes := max;
      EvictIfNeeded();
    }

    /// The stored flows, in insertion order or in the order of the ids asked
    /// for; ids that are not stored are skipped.
    method Snapshots(ids: Option<seq<FlowId>>) returns (shared: seq<Flow>)
      ensures shared == Present(flows, if ids.Some? then ids.value else order)
    {
      var wanted := if ids.Some? then ids.value else order;
      shared := [];
      for i := 0 to |wanted|
        invariant shared + Present(flows, wanted[i..]) == Present(flows, wanted)
      {
        assert wanted[i..][1..] == wanted[i + 1..];
        Regroup(shared, if wanted[i] in flows then [flows[wanted[i]]] else [], Present(flows, wanted[i + 1..]));
        if wanted[i] in flows {
          shared := shared + [flows[wanted[i]]];
        }
      }
    }
  }

  /// The snapshots are the stored flows under the ids, in the order of the ids;
  /// of a whole store, one for each flow in insertion order.
  lemma PresentIsInOrder(flows: map<FlowId, Flow>, ids: seq<FlowId>) returns (at: seq<nat>)
    ensures Picks((id: FlowId) => id in flows, ids, at) && |Present(flows, ids)| == |at|
    ensures forall k | 0 <= k < |at| :: ids[at[k]] in flows && Present(flows, ids)[k] == flows[ids[at[k]]]
    ensures (forall id | id in ids :: id in flows) ==>
              |Present(flows, ids)| == |ids| && forall k | 0 <= k < |ids| :: Present(flows, ids)[k] == flows[ids[k]]
  {
    at := FilterPicks((id: FlowId) => id in flows, ids);
    PresentIsFilter(flows, ids);
    if forall id | id in ids :: id in flows {
      AllPresent(flows, ids);
    }
  }

  lemma {:induction false} PresentIsFilter(flows: map<FlowId, Flow>, ids: seq<FlowId>)
    ensures var kept := Filter((id: FlowId) => id in flows, ids);
            && |Present(flows, ids)| == |kept|
            && forall k | 0 <= k < |kept| :: kept[k] in flows && Present(flows, ids)[k] == flows[kept[k]]
  {
    if ids != [] {
      PresentIsFilter(flows, ids[1..]);
    }
  }

  lemma {:induction false} AllPresent(flows: map<FlowId, Flow>, ids: seq<FlowId>)
    requires forall id | id in ids :: id in flows
    ensures |Present(flows, ids)| == |ids| && forall k | 0 <= k < |ids| :: Present(flows, ids)[k] == flows[ids[k]]
  {
    if ids != [] {
      assert ids[0] in ids && forall id | id in ids[1..] :: id in ids;
      AllPresent(flows, ids[1..]);
    }
  }

  /// The stored flows under the listed ids.
  function Present(flows: map<FlowId, Flow>, ids: seq<FlowId>): seq<Flow> {
    if ids == [] then []
    else (if ids[0] in flows then [flows[ids[0]]] else []) + Present(flows, ids[1..])
  }
}
