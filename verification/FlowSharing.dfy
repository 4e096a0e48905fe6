/// Threads over one `FlowStore`: `update` copies a shared flow outside the
/// lock and rechecks its identity, while other threads insert, update, clear
/// and hold snapshots. A state machine over the lock's critical sections.

module FlowSharing {
  import opened Common
  import opened FlowStore

  /// Identity of one `Arc<Flow>` allocation.
  type Ref = nat
  type CallId = nat
  type HandleId = nat

  /// Where one call of `update` stands.
  datatype Phase =
    | Waiting
    | Sharing(snap: Ref, before: nat)
    | Copied(snap: Ref, detached: Ref, before: nat)
    | Done

  datatype Call = Call(id: FlowId, callback: Flow -> Flow, phase: Phase)

  datatype World = World(
    cells: map<Ref, Flow>,
    table: map<FlowId, Ref>,
    order: seq<FlowId>,
    capacity: nat,
    total: nat,
    maxBytes: nat,
    calls: map<CallId, Call>,
    handles: map<HandleId, Ref>,
    panicked: bool)

  datatype Step =
    | Begin(c: CallId, id: FlowId, callback: Flow -> Flow)
    | Lock(c: CallId)
    | Copy(c: CallId, at: Ref, clone: Flow)
    | Recheck(c: CallId)
    | Insert(flow: Flow, at: Ref)
    | TakeSnapshots(picks: map<HandleId, FlowId>)
    | DropHandle(h: HandleId)
    | Clear
    | SetCapacity(n: nat)
    | SetBudget(n: nat)

  // ----- Clones -----

  predicate ClonedBody(a: Option<nat>, b: Option<nat>) {
    a.Some? == b.Some? && (a.Some? ==> a.value <= b.value)
  }

  /// A clone has the contents of the original; its buffers are allocated anew,
  /// without the slack the original's may have.
  predicate Cloned(a: Flow, b: Flow) {
    && a.id == b.id && a.rest == b.rest
    && ClonedBody(a.request, b.request) && ClonedBody(a.originalRequest, b.originalRequest)
    && ClonedBody(a.response, b.response) && ClonedBody(a.originalResponse, b.originalResponse)
    && |a.wsMessages| == |b.wsMessages| && forall i | 0 <= i < |a.wsMessages| :: a.wsMessages[i] <= b.wsMessages[i]
  }

  // ----- Reference counts -----

  /// Everything that keeps an allocation alive.
  datatype Holder = InTable(id: FlowId) | BySnap(c: CallId) | ByCopy(c: CallId) | ByHandle(h: HandleId)

  predicate HoldsSnap(k: Call, r: Ref) {
    (k.phase.Sharing? || k.phase.Copied?) && k.phase.snap == r
  }

  predicate HoldsCopy(k: Call, r: Ref) {
    k.phase.Copied? && k.phase.detached == r
  }

  function Holders(w: World, r: Ref): set<Holder> {
    (set id | id in w.table && w.table[id] == r :: InTable(id))
    + (set c | c in w.calls && HoldsSnap(w.calls[c], r) :: BySnap(c))
    + (set c | c in w.calls && HoldsCopy(w.calls[c], r) :: ByCopy(c))
    + (set h | h in w.handles && w.handles[h] == r :: ByHandle(h))
  }

  /// `Arc::strong_count`.
  function StrongCount(w: World, r: Ref): nat {
    |Holders(w, r)|
  }

  /// Nothing but the table holds the flow stored under `id`; by `CountOneIsSole`
  /// this is `strong_count == 1`, and it stands for that test in the steps.
  predicate SoleHolder(w: World, id: FlowId)
    requires id in w.table
  {
    && (forall x | x in w.table :: w.table[x] == w.table[id] ==> x == id)
    && (forall c | c in w.calls :: !HoldsSnap(w.calls[c], w.table[id]) && !HoldsCopy(w.calls[c], w.table[id]))
    && (forall h | h in w.handles :: w.handles[h] != w.table[id])
  }

  /// Nothing holds the allocation, unless the table does under `id`: its address
  /// may be handed out again.
  predicate UnheldBut(w: World, r: Ref, id: Option<FlowId>) {
    && (forall x | x in w.table && Some(x) != id :: w.table[x] != r)
    && (forall c | c in w.calls :: !HoldsSnap(w.calls[c], r) && !HoldsCopy(w.calls[c], r))
    && (forall h | h in w.handles :: w.handles[h] != r)
  }

  lemma OnlyMember<T>(s: set<T>, x: T)
    requires x in s
    ensures |s| == 1 <==> s == {x}
  {
    assert s == {x} + (s - {x});
    assert |s - {x}| == 0 <==> s - {x} == {};
  }

  /// A strong count of one means that the table is the only holder.
  lemma CountOneIsSole(w: World, id: FlowId)
    requires id in w.table
    ensures StrongCount(w, w.table[id]) == 1 <==> SoleHolder(w, id)
  {
    var r := w.table[id];
    var hs := Holders(w, r);
    assert InTable(id) in hs;
    OnlyMember(hs, InTable(id));
    if hs == {InTable(id)} {
      forall x | x in w.table && w.table[x] == r ensures x == id { assert InTable(x) in hs; }
      forall c | c in w.calls ensures !HoldsSnap(w.calls[c], r) && !HoldsCopy(w.calls[c], r) {
        assert BySnap(c) !in hs && ByCopy(c) !in hs;
      }
      forall h | h in w.handles ensures w.handles[h] != r { assert ByHandle(h) !in hs; }
    }
    if SoleHolder(w, id) {
      assert hs <= {InTable(id)};
    }
  }

  // ----- The steps -----

  ghost predicate Live(w: World) {
    && (forall id | id in w.table :: w.table[id] in w.cells)
    && (forall h | h in w.handles :: w.handles[h] in w.cells)
    && (forall c | c in w.calls && (w.calls[c].phase.Sharing? || w.calls[c].phase.Copied?) :: w.calls[c].phase.snap in w.cells)
    && (forall c | c in w.calls && w.calls[c].phase.Copied? :: w.calls[c].phase.detached in w.cells)
  }

  /// The store that the table and its cells stand for.
  function Abs(w: World): Store {
    Store(map id | id in w.table && w.table[id] in w.cells :: w.cells[w.table[id]], w.order, w.capacity, w.total, w.maxBytes)
  }

  /// `w` holding the bookkeeping of `s`; evicted entries leave the table.
  function Keeping(w: World, s: Store): World {
    w.(table := map id | id in w.table && id in s.flows :: w.table[id],
       order := s.order, capacity := s.capacity, total := s.total, maxBytes := s.maxBytes)
  }

  function WithPhase(w: World, c: CallId, phase: Phase): World
    requires c in w.calls
  {
    w.(calls := w.calls[c := w.calls[c].(phase := phase)])
  }

  /// The callback run in place, with `before` bytes giving way.
  function Changed(w: World, c: CallId, before: nat): World
    requires c in w.calls && w.calls[c].id in w.table && w.table[w.calls[c].id] in w.cells
  {
    var r := w.table[w.calls[c].id];
    var after := w.calls[c].callback(w.cells[r]);
    w.(cells := w.cells[r := after], total := SatSub(w.total, before) + Payload(after))
  }

  /// The tail of `update`, still under the lock: `Arc::get_mut` demands a count
  /// of one; then the callback runs and the limits are enforced.
  function Apply(w: World, c: CallId, before: nat): World
    requires c in w.calls && w.calls[c].id in w.table && w.table[w.calls[c].id] in w.cells
  {
    if !SoleHolder(w, w.calls[c].id) then w.(panicked := true)
    else Keeping(Changed(w, c, before), Evicted(Abs(Changed(w, c, before))))
  }

  ghost predicate Enabled(w: World, step: Step) {
    match step
    case Begin(c, _, _) => c !in w.calls
    case Lock(c) => c in w.calls && w.calls[c].phase == Waiting
    case Copy(c, r, clone) =>
      && c in w.calls && w.calls[c].phase.Sharing? && UnheldBut(w, r, None)
      && w.calls[c].phase.snap in w.cells && Cloned(clone, w.cells[w.calls[c].phase.snap])
    case Recheck(c) => c in w.calls && w.calls[c].phase.Copied?
    case Insert(flow, r) => UnheldBut(w, r, Some(flow.id))
    case TakeSnapshots(picks) => picks.Keys !! w.handles.Keys && forall h | h in picks :: picks[h] in w.table
    case DropHandle(h) => h in w.handles
    case _ => true
  }

  /// The first critical section of `update`'s loop.
  ghost function NextLock(w: World, c: CallId): World
    requires Live(w) && c in w.calls
  {
    var id := w.calls[c].id;
    if id !in w.table then WithPhase(w, c, Done)
    else
      var r := w.table[id];
      if SoleHolder(w, id) then WithPhase(Apply(w, c, Payload(w.cells[r])), c, Done)
      else WithPhase(w, c, Sharing(r, Payload(w.cells[r])))
  }

  /// The copy, made while the lock is free.
  ghost function NextCopy(w: World, c: CallId, r: Ref, clone: Flow): World
    requires Live(w) && c in w.calls && w.calls[c].phase.Sharing?
  {
    var p := w.calls[c].phase;
    WithPhase(w.(cells := w.cells[r := clone]), c, Copied(p.snap, r, p.before))
  }

  /// The table after the copy moved into it; the snapshot handle lives until
  /// the loop is left.
  ghost function Moved(w: World, c: CallId): World
    requires c in w.calls && w.calls[c].phase.Copied?
  {
    var id, p := w.calls[c].id, w.calls[c].phase;
    WithPhase(w, c, Sharing(p.snap, p.before)).(table := w.table[id := p.detached])
  }

  predicate StillCurrent(w: World, c: CallId)
    requires c in w.calls && w.calls[c].phase.Copied?
  {
    w.calls[c].id in w.table && w.table[w.calls[c].id] == w.calls[c].phase.snap
  }

  /// The second critical section: identity is rechecked before the callback runs.
  ghost function NextRecheck(w: World, c: CallId): World
    requires Live(w) && c in w.calls && w.calls[c].phase.Copied?
  {
    if StillCurrent(w, c) then WithPhase(Apply(Moved(w, c), c, w.calls[c].phase.before), c, Done)
    else WithPhase(w, c, Waiting)
  }

  function Grown(w: World, flow: Flow, r: Ref): World {
    w.(cells := w.cells[r := flow], table := w.table[flow.id := r])
  }

  ghost function Next(w: World, step: Step): World
    requires Live(w) && Enabled(w, step)
  {
    match step
    case Begin(c, id, callback) => w.(calls := w.calls[c := Call(id, callback, Waiting)])
    case Lock(c) => NextLock(w, c)
    case Copy(c, r, clone) => NextCopy(w, c, r, clone)
    case Recheck(c) => NextRecheck(w, c)
    case Insert(flow, r) => Keeping(Grown(w, flow, r), Inserted(Abs(w), flow))
    case TakeSnapshots(picks) => w.(handles := w.handles + map h | h in picks :: w.table[picks[h]])
    case DropHandle(h) => w.(handles := w.handles - {h})
    case Clear => Keeping(w, Cleared(Abs(w)))
    case SetCapacity(n) => Keeping(w, Resized(Abs(w), n))
    case SetBudget(n) => Keeping(w, Rebudgeted(Abs(w), n))
  }

  // ----- What each step means -----

  /// A change to the store as a caller sees it.
  datatype Event =
    | Quiet
    | DidUpdate(c: CallId, id: FlowId, callback: Flow -> Flow, base: Option<Flow>)
    | DidInsert(flow: Flow)
    | DidClear
    | DidResize(n: nat)
    | DidBudget(n: nat)

  function After(s: Store, e: Event): Store {
    match e
    case Quiet => s
    case DidUpdate(_, id, callback, base) =>
      if id in s.flows && base.Some? then UpdatedFrom(s, id, base.value, callback) else s
    case DidInsert(flow) => Inserted(s, flow)
    case DidClear => Cleared(s)
    case DidResize(n) => Resized(s, n)
    case DidBudget(n) => Rebudgeted(s, n)
  }

  /// An update applies its callback to the version then stored or a clone of it,
  /// and to nothing only if nothing is stored.
  predicate FitsStore(s: Store, e: Event) {
    e.DidUpdate? ==>
      && (e.base.Some? <==> e.id in s.flows)
      && (e.id in s.flows ==> Cloned(e.base.value, s.flows[e.id]))
  }

  /// The critical section with which call `c` of `update` ends.
  predicate EndsCall(w: World, step: Step, c: CallId)
    requires c in w.calls
  {
    || (step == Lock(c) && (w.calls[c].id !in w.table || SoleHolder(w, w.calls[c].id)))
    || (step == Recheck(c) && w.calls[c].phase.Copied? && StillCurrent(w, c))
  }

  /// An update takes effect at its last critical section.
  ghost function EventOf(w: World, step: Step): Event
    requires Live(w) && Enabled(w, step)
  {
    match step
    case Lock(c) =>
      var id := w.calls[c].id;
      var base := if id in w.table then Some(w.cells[w.table[id]]) else None;
      if EndsCall(w, step, c) then DidUpdate(c, id, w.calls[c].callback, base) else Quiet
    case Recheck(c) =>
      var base := Some(w.cells[w.calls[c].phase.detached]);
      if EndsCall(w, step, c) then DidUpdate(c, w.calls[c].id, w.calls[c].callback, base) else Quiet
    case Insert(flow, _) => DidInsert(flow)
    case Clear => DidClear
    case SetCapacity(n) => DidResize(n)
    case SetBudget(n) => DidBudget(n)
    case _ => Quiet
  }

  // ----- The invariant -----

  /// A copy on its way into the table belongs to its call alone.
  ghost predicate CopyIsPrivate(w: World, c: CallId)
    requires c in w.calls && w.calls[c].phase.Copied?
  {
    var d := w.calls[c].phase.detached;
    && (forall id | id in w.table :: w.table[id] != d)
    && (forall h | h in w.handles :: w.handles[h] != d)
    && (forall k | k in w.calls :: !HoldsSnap(w.calls[k], d) && (HoldsCopy(w.calls[k], d) ==> k == c))
  }

  ghost predicate CallOk(w: World, c: CallId)
    requires c in w.calls && Live(w)
  {
    match w.calls[c].phase
    case Sharing(snap, before) => before == Payload(w.cells[snap])
    case Copied(snap, detached, before) =>
      before == Payload(w.cells[snap]) && Cloned(w.cells[detached], w.cells[snap]) && CopyIsPrivate(w, c)
    case _ => true
  }

  ghost predicate Injective(table: map<FlowId, Ref>) {
    forall x, y | x in table && y in table :: table[x] == table[y] ==> x == y
  }

  /// Who may hold what.
  ghost predicate Sound(w: World) {
    Live(w) && Injective(w.table) && forall c | c in w.calls :: CallOk(w, c)
  }

  ghost predicate Inv(w: World) {
    Sound(w) && !w.panicked && Valid(Abs(w)) && 1 <= w.capacity
  }

  /// No handle that is still there points anywhere new or sees other contents.
  ghost predicate HandlesKept(w: World, v: World) {
    forall h | h in w.handles && h in v.handles ::
      v.handles[h] == w.handles[h] &&
      w.handles[h] in w.cells && w.handles[h] in v.cells && v.cells[w.handles[h]] == w.cells[w.handles[h]]
  }

  lemma HandlesKeptJoin(u: World, v: World, w: World)
    requires HandlesKept(u, v) && HandlesKept(v, w) && u.handles == v.handles
    ensures HandlesKept(u, w)
  {
  }

  // ----- Small moves that keep it -----

  /// Table entries may go; whatever the table held may stay held elsewhere.
  lemma ShrinkIsSound(w: World, s: Store)
    requires Sound(w)
    ensures Sound(Keeping(w, s)) && HandlesKept(w, Keeping(w, s))
  {
    forall c | c in w.calls ensures CallOk(Keeping(w, s), c) { assert CallOk(w, c); }
  }

  /// A flow held by the table alone may be changed in place.
  lemma ChangeIsSound(w: World, id: FlowId, after: Flow, total: nat)
    requires Sound(w) && id in w.table && SoleHolder(w, id)
    ensures var v := w.(cells := w.cells[w.table[id] := after], total := total); Sound(v) && HandlesKept(w, v)
  {
    var v := w.(cells := w.cells[w.table[id] := after], total := total);
    forall c | c in w.calls ensures CallOk(v, c) {
      assert CallOk(w, c);
      assert !HoldsSnap(w.calls[c], w.table[id]) && !HoldsCopy(w.calls[c], w.table[id]);
    }
  }

  /// A call may let go of what it holds.
  lemma LetGoIsSound(w: World, c: CallId, phase: Phase)
    requires Sound(w) && c in w.calls && (phase == Done || phase == Waiting)
    ensures Sound(WithPhase(w, c, phase)) && HandlesKept(w, WithPhase(w, c, phase))
    ensures Abs(WithPhase(w, c, phase)) == Abs(w)
  {
    var v := WithPhase(w, c, phase);
    forall k | k in v.calls ensures CallOk(v, k) { assert CallOk(w, k); }
  }

  lemma ShareIsSound(w: World, c: CallId)
    requires Sound(w) && c in w.calls && w.calls[c].id in w.table
    ensures var r := w.table[w.calls[c].id];
            var v := WithPhase(w, c, Sharing(r, Payload(w.cells[r])));
            Sound(v) && HandlesKept(w, v) && Abs(v) == Abs(w)
  {
    var r := w.table[w.calls[c].id];
    var v := WithPhase(w, c, Sharing(r, Payload(w.cells[r])));
    forall k | k in v.calls ensures CallOk(v, k) { assert CallOk(w, k); }
  }

  lemma CopyIsLive(w: World, c: CallId, r: Ref, clone: Flow)
    requires Sound(w) && Enabled(w, Copy(c, r, clone))
    ensures var v := NextCopy(w, c, r, clone); Live(v) && HandlesKept(w, v) && Abs(v) == Abs(w)
  {
    assert Abs(NextCopy(w, c, r, clone)).flows == Abs(w).flows;
  }

  lemma CopyIsSound(w: World, c: CallId, r: Ref, clone: Flow)
    requires Sound(w) && Enabled(w, Copy(c, r, clone))
    ensures var v := NextCopy(w, c, r, clone); Sound(v) && HandlesKept(w, v) && Abs(v) == Abs(w)
  {
    var v := NextCopy(w, c, r, clone);
    CopyIsLive(w, c, r, clone);
    assert CallOk(w, c);
    forall k | k in v.calls ensures CallOk(v, k) { assert CallOk(w, k); }
  }

  lemma MoveIsLive(w: World, c: CallId)
    requires Sound(w) && c in w.calls && w.calls[c].phase.Copied? && StillCurrent(w, c)
    ensures var v, id, clone := Moved(w, c), w.calls[c].id, w.cells[w.calls[c].phase.detached];
            && Live(v) && HandlesKept(w, v) && v.cells[v.table[id]] == clone
            && Abs(v) == Abs(w).(flows := Abs(w).flows[id := clone])
  {
    assert Abs(Moved(w, c)).flows == Abs(w).flows[w.calls[c].id := w.cells[w.calls[c].phase.detached]];
  }

  /// Moving the private copy into the table leaves it held by the table alone,
  /// and only the flow it stands in for has changed.
  lemma MoveIsSound(w: World, c: CallId)
    requires Sound(w) && c in w.calls && w.calls[c].phase.Copied? && StillCurrent(w, c)
    ensures Sound(Moved(w, c)) && SoleHolder(Moved(w, c), w.calls[c].id)
  {
    var v := Moved(w, c);
    MoveIsLive(w, c);
    assert CallOk(w, c);
    forall k | k in v.calls ensures CallOk(v, k) { assert CallOk(w, k); }
  }

  lemma GrownIsLive(w: World, flow: Flow, r: Ref)
    requires Sound(w) && UnheldBut(w, r, Some(flow.id))
    ensures var v := Grown(w, flow, r);
            Live(v) && Injective(v.table) && HandlesKept(w, v) && Abs(v).flows == Abs(w).flows[flow.id := flow]
  {
  }

  lemma GrownIsSound(w: World, flow: Flow, r: Ref)
    requires Sound(w) && UnheldBut(w, r, Some(flow.id))
    ensures Sound(Grown(w, flow, r))
  {
    var v := Grown(w, flow, r);
    GrownIsLive(w, flow, r);
    forall k | k in v.calls ensures CallOk(v, k) { assert CallOk(w, k); }
  }

  // ----- What the moves do to the store -----

  lemma KeepingIsAbs(w: World, s: Store)
    requires Live(w)
    requires forall id | id in s.flows :: id in Abs(w).flows && s.flows[id] == Abs(w).flows[id]
    ensures Abs(Keeping(w, s)) == s
  {
    assert Abs(Keeping(w, s)).flows == s.flows;
  }

  /// `s` with the flow under `id` replaced by `base`.
  predicate StandsIn(w: World, s: Store, id: FlowId, base: Flow) {
    id in s.flows && Abs(w) == s.(flows := s.flows[id := base])
  }

  lemma ChangedIsRewritten(w: World, c: CallId, s: Store, base: Flow)
    requires Sound(w) && c in w.calls && w.calls[c].id in w.table && SoleHolder(w, w.calls[c].id)
    requires StandsIn(w, s, w.calls[c].id, base)
    ensures var id := w.calls[c].id;
            var v := Changed(w, c, Payload(s.flows[id]));
            && Sound(v) && HandlesKept(w, v)
            && Abs(v) == Rewritten(s, id, w.calls[c].callback(base))
  {
    var id := w.calls[c].id;
    var v := Changed(w, c, Payload(s.flows[id]));
    assert Abs(w).flows[id] == base;
    ChangeIsSound(w, id, v.cells[w.table[id]], v.total);
    var after := v.cells[w.table[id]];
    assert Abs(v).flows == Abs(w).flows[id := after];
    assert s.flows[id := base][id := after] == s.flows[id := after];
  }

  /// The tail of `update` on a flow that only the table holds: no panic, and
  /// the store changes as by one atomic update of `s`, in which the flow counts
  /// with the bytes of the version that `base` stands in for.
  lemma ApplyIsUpdate(w: World, c: CallId, s: Store, base: Flow)
    requires Sound(w) && !w.panicked && c in w.calls && w.calls[c].id in w.table
    requires SoleHolder(w, w.calls[c].id) && StandsIn(w, s, w.calls[c].id, base)
    ensures var v := WithPhase(Apply(w, c, Payload(s.flows[w.calls[c].id])), c, Done);
            && Sound(v) && !v.panicked && HandlesKept(w, v) && v.handles == w.handles
            && v.calls == w.calls[c := w.calls[c].(phase := Done)]
            && Abs(v) == UpdatedFrom(s, w.calls[c].id, base, w.calls[c].callback)
  {
    var before := Payload(s.flows[w.calls[c].id]);
    var changed := Changed(w, c, before);
    var kept := Evicted(Abs(changed));
    var a := Keeping(changed, kept);
    assert Apply(w, c, before) == a;
    ChangedIsRewritten(w, c, s, base);
    EvictedIsPart(Abs(changed));
    KeepingIsAbs(changed, kept);
    ShrinkIsSound(changed, kept);
    HandlesKeptJoin(w, changed, a);
    LetGoIsSound(a, c, Done);
    HandlesKeptJoin(w, a, WithPhase(a, c, Done));
  }

  lemma InsertedIsPart(s: Store, flow: Flow)
    ensures forall id | id in Inserted(s, flow).flows ::
              id in s.flows[flow.id := flow] && Inserted(s, flow).flows[id] == s.flows[flow.id := flow][id]
  {
    EvictedIsPart(Appended(Replaced(s, flow.id), flow));
  }

  // ----- Every step -----

  /// What one step guarantees.
  ghost predicate StepOk(w: World, step: Step, v: World)
    requires Live(w) && Enabled(w, step)
  {
    && Sound(v) && !v.panicked && HandlesKept(w, v)
    && FitsStore(Abs(w), EventOf(w, step)) && Abs(v) == After(Abs(w), EventOf(w, step))
  }

  lemma ClonedSelf(f: Flow)
    ensures Cloned(f, f)
  {
  }

  lemma LockIsOk(w: World, c: CallId)
    requires Inv(w) && Enabled(w, Lock(c))
    ensures StepOk(w, Lock(c), NextLock(w, c))
  {
    var id := w.calls[c].id;
    if id !in w.table {
      LetGoIsSound(w, c, Done);
    } else if SoleHolder(w, id) {
      var stored := w.cells[w.table[id]];
      ClonedSelf(stored);
      assert Abs(w).flows[id := stored] == Abs(w).flows;
      ApplyIsUpdate(w, c, Abs(w), stored);
    } else {
      ShareIsSound(w, c);
    }
  }

  /// The update on the copy moved into the table.
  lemma MovedIsUpdate(w: World, c: CallId)
    requires Inv(w) && Enabled(w, Recheck(c)) && StillCurrent(w, c)
    ensures var v, p := NextRecheck(w, c), w.calls[c].phase;
            && Sound(v) && !v.panicked && HandlesKept(w, v) && v.handles == w.handles
            && v.calls == w.calls[c := w.calls[c].(phase := Done)]
            && p.detached in w.cells && p.snap in w.cells && Cloned(w.cells[p.detached], w.cells[p.snap])
            && Abs(v) == UpdatedFrom(Abs(w), w.calls[c].id, w.cells[p.detached], w.calls[c].callback)
  {
    var moved := Moved(w, c);
    assert CallOk(w, c);
    MoveIsLive(w, c);
    MoveIsSound(w, c);
    ApplyIsUpdate(moved, c, Abs(w), w.cells[w.calls[c].phase.detached]);
    HandlesKeptJoin(w, moved, NextRecheck(w, c));
  }

  lemma RecheckIsOk(w: World, c: CallId)
    requires Inv(w) && Enabled(w, Recheck(c))
    ensures StepOk(w, Recheck(c), NextRecheck(w, c))
  {
    if StillCurrent(w, c) {
      MovedIsUpdate(w, c);
    } else {
      LetGoIsSound(w, c, Waiting);
    }
  }

  lemma InsertIsOk(w: World, flow: Flow, r: Ref)
    requires Inv(w) && Enabled(w, Insert(flow, r))
    ensures StepOk(w, Insert(flow, r), Next(w, Insert(flow, r)))
  {
    GrownIsLive(w, flow, r);
    GrownIsSound(w, flow, r);
    InsertedIsPart(Abs(w), flow);
    KeepingIsAbs(Grown(w, flow, r), Inserted(Abs(w), flow));
    ShrinkIsSound(Grown(w, flow, r), Inserted(Abs(w), flow));
  }

  lemma TrimIsOk(w: World, s: Store)
    requires Sound(w)
    requires forall id | id in s.flows :: id in Abs(w).flows && s.flows[id] == Abs(w).flows[id]
    ensures Sound(Keeping(w, s)) && HandlesKept(w, Keeping(w, s)) && Abs(Keeping(w, s)) == s
  {
    KeepingIsAbs(w, s);
    ShrinkIsSound(w, s);
  }

  lemma BeginIsOk(w: World, c: CallId, id: FlowId, callback: Flow -> Flow)
    requires Inv(w) && Enabled(w, Begin(c, id, callback))
    ensures StepOk(w, Begin(c, id, callback), Next(w, Begin(c, id, callback)))
  {
    var v := Next(w, Begin(c, id, callback));
    assert Abs(v) == Abs(w);
    forall k | k in v.calls ensures CallOk(v, k) { assert k in w.calls ==> CallOk(w, k); }
  }

  /// Handles may come and go as long as they point into the table or stay put.
  lemma HandlesMayChange(w: World, handles: map<HandleId, Ref>)
    requires Sound(w)
    requires forall h | h in handles ::
               (h in w.handles && handles[h] == w.handles[h]) ||
               (h !in w.handles && exists id :: id in w.table && w.table[id] == handles[h])
    ensures Sound(w.(handles := handles)) && HandlesKept(w, w.(handles := handles))
  {
    var v := w.(handles := handles);
    forall k | k in v.calls ensures CallOk(v, k) { assert CallOk(w, k); }
  }

  lemma HandlesIsOk(w: World, step: Step)
    requires Inv(w) && Enabled(w, step) && (step.TakeSnapshots? || step.DropHandle?)
    ensures StepOk(w, step, Next(w, step))
  {
    var v := Next(w, step);
    assert Abs(v) == Abs(w);
    HandlesMayChange(w, v.handles);
  }

  lemma StoreStaysValid(s: Store, e: Event)
    requires Valid(s) && 1 <= s.capacity && FitsStore(s, e)
    ensures Valid(After(s, e)) && 1 <= After(s, e).capacity
  {
    match e {
      case Quiet =>
      case DidUpdate(_, id, callback, base) =>
        if id in s.flows {
          RewriteIsValid(s, id, callback(base.value));
          EvictedIsPart(Rewritten(s, id, callback(base.value)));
        }
      case DidInsert(flow) =>
        InsertIsValid(s, flow);
        EvictedIsPart(Appended(Replaced(s, flow.id), flow));
      case DidClear => ResizeIsValid(s, 0);
      case DidResize(n) => ResizeIsValid(s, n);
      case DidBudget(n) =>
        ResizeIsValid(s, n);
        EvictedIsPart(s.(maxBytes := n));
    }
  }

  /// Every step keeps the invariant (so `Arc::get_mut` never fails), changes
  /// the store as its event says, and leaves snapshots alone.
  lemma StepIsOk(w: World, step: Step)
    requires Inv(w) && Enabled(w, step)
    ensures StepOk(w, step, Next(w, step)) && Inv(Next(w, step))
  {
    match step {
      case Lock(c) => LockIsOk(w, c);
      case Copy(c, r, clone) => CopyIsSound(w, c, r, clone);
      case Recheck(c) => RecheckIsOk(w, c);
      case Insert(flow, r) => InsertIsOk(w, flow, r);
      case Clear => TrimIsOk(w, Cleared(Abs(w)));
      case SetCapacity(n) =>
        EvictedIsPart(Abs(w).(capacity := Max(n, 1)));
        TrimIsOk(w, Resized(Abs(w), n));
      case SetBudget(n) =>
        EvictedIsPart(Abs(w).(maxBytes := n));
        TrimIsOk(w, Rebudgeted(Abs(w), n));
      case Begin(c, id, callback) => BeginIsOk(w, c, id, callback);
      case _ => HandlesIsOk(w, step);
    }
    StoreStaysValid(Abs(w), EventOf(w, step));
  }

  /// The calls after a step, which depend on little.
  ghost function CallsAfter(w: World, step: Step): map<CallId, Call>
    requires Live(w) && Enabled(w, step)
  {
    match step
    case Begin(c, id, callback) => w.calls[c := Call(id, callback, Waiting)]
    case Lock(c) =>
      w.calls[c := w.calls[c].(phase :=
        if EndsCall(w, step, c) then Done
        else Sharing(w.table[w.calls[c].id], Payload(w.cells[w.table[w.calls[c].id]])))]
    case Copy(c, r, _) => w.calls[c := w.calls[c].(phase := Copied(w.calls[c].phase.snap, r, w.calls[c].phase.before))]
    case Recheck(c) => w.calls[c := w.calls[c].(phase := if EndsCall(w, step, c) then Done else Waiting)]
    case _ => w.calls
  }

  lemma ApplyKeepsCalls(w: World, c: CallId, before: nat)
    requires c in w.calls && w.calls[c].id in w.table && w.table[w.calls[c].id] in w.cells
    ensures Apply(w, c, before).calls == w.calls && Apply(w, c, before).handles == w.handles
  {
  }

  lemma NextRecheckCalls(w: World, c: CallId)
    requires Live(w) && Enabled(w, Recheck(c))
    ensures NextRecheck(w, c).calls == CallsAfter(w, Recheck(c)) && NextRecheck(w, c).handles == w.handles
  {
    if StillCurrent(w, c) {
      ApplyKeepsCalls(Moved(w, c), c, w.calls[c].phase.before);
    }
  }

  lemma NextLockCalls(w: World, c: CallId)
    requires Live(w) && Enabled(w, Lock(c))
    ensures NextLock(w, c).calls == CallsAfter(w, Lock(c)) && NextLock(w, c).handles == w.handles
  {
    if w.calls[c].id in w.table {
      ApplyKeepsCalls(w, c, Payload(w.cells[w.table[w.calls[c].id]]));
    }
  }

  lemma NextCalls(w: World, step: Step)
    requires Live(w) && Enabled(w, step)
    ensures Next(w, step).calls == CallsAfter(w, step)
    ensures step.DropHandle? || w.handles.Keys <= Next(w, step).handles.Keys
  {
    match step {
      case Lock(c) => NextLockCalls(w, c);
      case Recheck(c) => NextRecheckCalls(w, c);
      case _ =>
    }
  }

  /// A callback ran on a clone of the stored flow, which gave way to the result.
  ghost predicate TakesUpdate(s: Store, id: FlowId, callback: Flow -> Flow, t: Store)
    requires id in s.flows
  {
    exists base: Flow :: Cloned(base, s.flows[id]) && KeepsNewest(s.flows[id := callback(base)], s.order, s.capacity, s.maxBytes, t)
  }

  ghost predicate StoresUpdate(w: World, c: CallId, v: World)
    requires Live(w) && Live(v) && c in w.calls && w.calls[c].id in w.table
  {
    && v.calls == w.calls[c := w.calls[c].(phase := Done)]
    && TakesUpdate(Abs(w), w.calls[c].id, w.calls[c].callback, Abs(v))
  }

  /// The call goes on in this phase and the store is as it was.
  ghost predicate OnlyMoves(w: World, c: CallId, phase: Phase, v: World)
    requires Live(w) && Live(v) && c in w.calls
  {
    v.calls == w.calls[c := w.calls[c].(phase := phase)] && Abs(v) == Abs(w)
  }

  /// What each step does to the stored flows and to the call that takes it, in
  /// terms of the counts and pointers that the code tests.
  ghost predicate Does(w: World, step: Step, v: World)
    requires Live(w) && Live(v) && Enabled(w, step)
  {
    var s := Abs(w);
    match step
    case Lock(c) =>
      var id := w.calls[c].id;
      if id !in w.table then OnlyMoves(w, c, Done, v)
      else if StrongCount(w, w.table[id]) == 1 then StoresUpdate(w, c, v)
      else OnlyMoves(w, c, Sharing(w.table[id], Payload(w.cells[w.table[id]])), v)
    case Recheck(c) =>
      var p := w.calls[c].phase;
      if w.calls[c].id in w.table && w.table[w.calls[c].id] == p.snap then StoresUpdate(w, c, v)
      else OnlyMoves(w, c, Waiting, v)
    case TakeSnapshots(picks) =>
      Abs(v) == s && forall h | h in picks :: h in v.handles && v.cells[v.handles[h]] == s.flows[picks[h]]
    case Insert(flow, _) =>
      KeepsNewest(s.flows[flow.id := flow], Without(s.order, flow.id) + [flow.id], s.capacity, s.maxBytes, Abs(v))
    case Clear => Abs(v).flows == map[] && Abs(v).order == []
    case SetCapacity(n) => KeepsNewest(s.flows, s.order, if n == 0 then 1 else n, s.maxBytes, Abs(v))
    case SetBudget(n) => KeepsNewest(s.flows, s.order, s.capacity, n, Abs(v))
    case _ => Abs(v) == s
  }

  lemma UpdateIsTaken(s: Store, id: FlowId, callback: Flow -> Flow, base: Flow)
    requires Consistent(s) && id in s.flows && Cloned(base, s.flows[id])
    ensures TakesUpdate(s, id, callback, UpdatedFrom(s, id, base, callback))
  {
    RewriteKeepsNewest(s, id, base, callback);
  }

  /// The store after a step, and no more.
  lemma StepAbs(w: World, step: Step)
    requires Inv(w) && Enabled(w, step)
    ensures Consistent(Abs(w)) && Live(Next(w, step)) && Abs(Next(w, step)) == After(Abs(w), EventOf(w, step))
    ensures FitsStore(Abs(w), EventOf(w, step))
  {
    StepIsOk(w, step);
  }

  lemma UpdateDoes(w: World, step: Step, c: CallId, base: Flow)
    requires Inv(w) && Enabled(w, step) && c in w.calls && w.calls[c].id in w.table
    requires EventOf(w, step) == DidUpdate(c, w.calls[c].id, w.calls[c].callback, Some(base))
    requires CallsAfter(w, step) == w.calls[c := w.calls[c].(phase := Done)]
    ensures Live(Next(w, step)) && StoresUpdate(w, c, Next(w, step))
  {
    var s, id, callback := Abs(w), w.calls[c].id, w.calls[c].callback;
    StepAbs(w, step);
    assert After(s, EventOf(w, step)) == UpdatedFrom(s, id, base, callback);
    assert TakesUpdate(s, id, callback, Abs(Next(w, step))) by {
      UpdateIsTaken(s, id, callback, base);
    }
    NextCalls(w, step);
  }

  lemma LockDoes(w: World, c: CallId)
    requires Inv(w) && Enabled(w, Lock(c))
    ensures Live(Next(w, Lock(c))) && Does(w, Lock(c), Next(w, Lock(c)))
  {
    var id := w.calls[c].id;
    StepAbs(w, Lock(c));
    NextCalls(w, Lock(c));
    if id in w.table {
      CountOneIsSole(w, id);
      if SoleHolder(w, id) {
        UpdateDoes(w, Lock(c), c, w.cells[w.table[id]]);
      }
    }
  }

  lemma RecheckDoes(w: World, c: CallId)
    requires Inv(w) && Enabled(w, Recheck(c))
    ensures Live(Next(w, Recheck(c))) && Does(w, Recheck(c), Next(w, Recheck(c)))
  {
    StepAbs(w, Recheck(c));
    NextCalls(w, Recheck(c));
    if StillCurrent(w, c) {
      UpdateDoes(w, Recheck(c), c, w.cells[w.calls[c].phase.detached]);
    }
  }

  lemma InsertDoes(w: World, flow: Flow, r: Ref)
    requires Inv(w) && Enabled(w, Insert(flow, r))
    ensures Live(Next(w, Insert(flow, r))) && Does(w, Insert(flow, r), Next(w, Insert(flow, r)))
  {
    StepAbs(w, Insert(flow, r));
    assert Abs(Next(w, Insert(flow, r))) == Inserted(Abs(w), flow);
    InsertKeepsNewest(Abs(w), flow);
  }

  lemma CapacityDoes(w: World, n: nat)
    requires Inv(w) && Enabled(w, SetCapacity(n))
    ensures Live(Next(w, SetCapacity(n))) && Does(w, SetCapacity(n), Next(w, SetCapacity(n)))
  {
    StepAbs(w, SetCapacity(n));
    assert Abs(Next(w, SetCapacity(n))) == Resized(Abs(w), n);
    ResizeKeepsNewest(Abs(w), n);
  }

  lemma BudgetDoes(w: World, n: nat)
    requires Inv(w) && Enabled(w, SetBudget(n))
    ensures Live(Next(w, SetBudget(n))) && Does(w, SetBudget(n), Next(w, SetBudget(n)))
  {
    StepAbs(w, SetBudget(n));
    assert Abs(Next(w, SetBudget(n))) == Rebudgeted(Abs(w), n);
    ResizeKeepsNewest(Abs(w), n);
  }

  lemma SnapshotsDo(w: World, picks: map<HandleId, FlowId>)
    requires Inv(w) && Enabled(w, TakeSnapshots(picks))
    ensures Live(Next(w, TakeSnapshots(picks))) && Does(w, TakeSnapshots(picks), Next(w, TakeSnapshots(picks)))
  {
    StepAbs(w, TakeSnapshots(picks));
  }

  /// Every step does that: nothing is lost, and no call waits where it could end.
  lemma StepDoes(w: World, step: Step)
    requires Inv(w) && Enabled(w, step)
    ensures Live(Next(w, step)) && Does(w, step, Next(w, step))
  {
    match step {
      case Lock(c) => LockDoes(w, c);
      case Recheck(c) => RecheckDoes(w, c);
      case TakeSnapshots(picks) => SnapshotsDo(w, picks);
      case Insert(flow, r) => InsertDoes(w, flow, r);
      case SetCapacity(n) => CapacityDoes(w, n);
      case SetBudget(n) => BudgetDoes(w, n);
      case _ => StepAbs(w, step);
    }
  }

  // ----- Whole runs -----

  ghost predicate Runs(w: World, steps: seq<Step>)
    decreases |steps|
  {
    Live(w) && (steps == [] || (Enabled(w, steps[0]) && Runs(Next(w, steps[0]), steps[1..])))
  }

  ghost function Final(w: World, steps: seq<Step>): World
    requires Runs(w, steps)
    decreases |steps|
  {
    if steps == [] then w else Final(Next(w, steps[0]), steps[1..])
  }

  ghost function Events(w: World, steps: seq<Step>): seq<Event>
    requires Runs(w, steps)
    decreases |steps|
  {
    if steps == [] then [] else [EventOf(w, steps[0])] + Events(Next(w, steps[0]), steps[1..])
  }

  function AfterAll(s: Store, events: seq<Event>): Store
    decreases |events|
  {
    if events == [] then s else AfterAll(After(s, events[0]), events[1..])
  }

  /// Each event fits the store that the ones before it left.
  predicate AllFit(s: Store, events: seq<Event>)
    decreases |events|
  {
    events == [] || (FitsStore(s, events[0]) && AllFit(After(s, events[0]), events[1..]))
  }

  predicate IsUpdateOf(e: Event, c: CallId) {
    e.DidUpdate? && e.c == c
  }

  function UpdatesBy(events: seq<Event>, c: CallId): nat {
    if events == [] then 0 else (if IsUpdateOf(events[0], c) then 1 else 0) + UpdatesBy(events[1..], c)
  }

  function Finished(w: World, c: CallId): nat {
    if c in w.calls && w.calls[c].phase == Done then 1 else 0
  }

  /// Under every interleaving the store goes through the atomic updates,
  /// inserts and clears that the events list, each applied to the version then
  /// stored or a clone of it, so no write is lost; the byte total stays exact, as
  /// the stored version's bytes are those taken off; and nothing panics.
  lemma {:induction false} EveryInterleavingIsAtomic(w: World, steps: seq<Step>)
    requires Inv(w) && Runs(w, steps)
    ensures Inv(Final(w, steps)) && Abs(Final(w, steps)) == AfterAll(Abs(w), Events(w, steps))
    ensures AllFit(Abs(w), Events(w, steps))
    decreases |steps|
  {
    if steps != [] {
      var v := Next(w, steps[0]);
      StepIsOk(w, steps[0]);
      EveryInterleavingIsAtomic(v, steps[1..]);
      assert Events(w, steps)[1..] == Events(v, steps[1..]);
    }
  }

  lemma StepEndsCalls(w: World, step: Step, c: CallId)
    requires Live(w) && Enabled(w, step) && c in w.calls
    ensures var v, e := Next(w, step), EventOf(w, step);
            && c in v.calls && v.calls[c].id == w.calls[c].id && v.calls[c].callback == w.calls[c].callback
            && Finished(v, c) == Finished(w, c) + (if IsUpdateOf(e, c) then 1 else 0)
            && (IsUpdateOf(e, c) ==> e.id == w.calls[c].id && e.callback == w.calls[c].callback)
  {
    NextCalls(w, step);
  }

  /// A call of `update` takes effect exactly once, with its own id and
  /// callback, and that is when it finishes.
  lemma {:induction false} EachUpdateHappensOnce(w: World, steps: seq<Step>, c: CallId)
    requires Inv(w) && Runs(w, steps) && c in w.calls
    ensures c in Final(w, steps).calls
    ensures UpdatesBy(Events(w, steps), c) + Finished(w, c) == Finished(Final(w, steps), c)
    ensures forall e | e in Events(w, steps) && IsUpdateOf(e, c) ::
              e.id == w.calls[c].id && e.callback == w.calls[c].callback
    decreases |steps|
  {
    if steps != [] {
      var v := Next(w, steps[0]);
      StepIsOk(w, steps[0]);
      StepEndsCalls(w, steps[0], c);
      EachUpdateHappensOnce(v, steps[1..], c);
      var events := Events(w, steps);
      assert events == [EventOf(w, steps[0])] + Events(v, steps[1..]);
    }
  }

  /// A snapshot never changes: as long as its handle is not dropped it points
  /// to the same flow with the same contents, whatever runs beside it.
  lemma {:induction false} SnapshotsNeverChange(w: World, steps: seq<Step>, h: HandleId)
    requires Inv(w) && Runs(w, steps)
    requires h in w.handles && DropHandle(h) !in steps
    ensures h in Final(w, steps).handles && Final(w, steps).handles[h] in Final(w, steps).cells
    ensures Final(w, steps).cells[Final(w, steps).handles[h]] == w.cells[w.handles[h]]
    decreases |steps|
  {
    if steps != [] {
      StepIsOk(w, steps[0]);
      NextCalls(w, steps[0]);
      assert steps == [steps[0]] + steps[1..];
      SnapshotsNeverChange(Next(w, steps[0]), steps[1..], h);
    }
  }

  /// The state a new store starts in.
  lemma EmptyWorldIsOk(capacity: nat, maxBytes: nat)
    ensures Inv(World(map[], map[], [], Max(capacity, 1), 0, maxBytes, map[], map[], false))
  {
    var w := World(map[], map[], [], Max(capacity, 1), 0, maxBytes, map[], map[], false);
    assert Abs(w).flows == map[];
  }
}
