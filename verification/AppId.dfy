/// Which process a connection is attributed to: the port cache of
/// `crates/hamsy-proxy/src/appid.rs`, its scans, and any number of lookups
/// taking their steps in any order.

module AppId {
  import opened Common

  const PORT_CACHE_MAX := 4096
  const PID_CACHE_MAX := 4096

  type Ports = map<nat, nat>

  /// The port half of `Cache`.
  datatype PortCache = PortCache(portToPid: Ports, scanStartedAt: Option<nat>) {
    predicate IsFreshFor(accepted: nat) {
      scanStartedAt.Some? && scanStartedAt.value > accepted
    }

    function Get(port: nat): Option<nat> {
      if port in portToPid then Some(portToPid[port]) else None
    }
  }

  // ----- The caches under their lock -----

  class Cache {
    var portToPid: Ports
    var scanStartedAt: Option<nat>
    var pidToApp: map<nat, string>

    ghost function Now(): PortCache
      reads this
    {
      PortCache(portToPid, scanStartedAt)
    }

    constructor ()
      ensures Now() == PortCache(map[], None) && pidToApp == map[]
    {
      portToPid, scanStartedAt, pidToApp := map[], None, map[];
    }

    /// `pid_for_port` under the lock: whether the cache can be trusted, and what it says.
    method LookUp(port: nat, accepted: nat) returns (trusted: bool, pid: Option<nat>)
      ensures trusted <==> scanStartedAt.Some? && scanStartedAt.value > accepted
      ensures trusted == Now().IsFreshFor(accepted) && (trusted ==> pid == Now().Get(port))
      ensures pid == if trusted && port in portToPid then Some(portToPid[port]) else None
    {
      trusted := scanStartedAt.Some? && scanStartedAt.value > accepted;
      pid := if trusted && port in portToPid then Some(portToPid[port]) else None;
    }

    /// A finished scan replaces the whole map; `kept` are the entries that the
    /// iteration order lets through when there are too many.
    method Publish(scan: Ports, kept: set<nat>, started: nat)
      requires kept <= scan.Keys && |kept| <= PORT_CACHE_MAX
      modifies this
      ensures Now() == PortCache(Truncated(scan, kept), Some(started)) && pidToApp == old(pidToApp)
      ensures |portToPid| <= PORT_CACHE_MAX && scanStartedAt == Some(started)
      ensures |scan| <= PORT_CACHE_MAX ==> portToPid == scan
      ensures |scan| > PORT_CACHE_MAX ==> portToPid.Keys == kept && forall p | p in kept :: portToPid[p] == scan[p]
    {
      TruncatedSize(scan, kept);
      portToPid := if |scan| > PORT_CACHE_MAX then map p | p in kept :: scan[p] else scan;
      scanStartedAt := Some(started);
    }

    /// `app_for_pid`: what a pid's executable was called when it was first
    /// asked for, as long as the entry is kept.
    method AppForPid(pid: nat, path: Option<string>) returns (app: Option<string>)
      requires |pidToApp| <= PID_CACHE_MAX
      modifies this`pidToApp
      ensures |pidToApp| <= PID_CACHE_MAX
      ensures pid in old(pidToApp) ==> app == Some(old(pidToApp)[pid]) && pidToApp == old(pidToApp)
      ensures pid !in old(pidToApp) ==> app == path
      ensures forall p | p in pidToApp && p != pid :: p in old(pidToApp) && pidToApp[p] == old(pidToApp)[p]
      ensures app.Some? ==> pid in pidToApp && pidToApp[pid] == app.value
    {
      if pid in pidToApp {
        return Some(pidToApp[pid]);
      }
      if path.None? {
        return None;
      }
      if |pidToApp| >= PID_CACHE_MAX {
        pidToApp := map[];
      }
      pidToApp := pidToApp[pid := path.value];
      app := path;
    }
  }

  function Truncated(scan: Ports, kept: set<nat>): Ports
    requires kept <= scan.Keys
  {
    if |scan| > PORT_CACHE_MAX then map p | p in kept :: scan[p] else scan
  }

  lemma TruncatedSize(scan: Ports, kept: set<nat>)
    requires kept <= scan.Keys && |kept| <= PORT_CACHE_MAX
    ensures |Truncated(scan, kept)| <= PORT_CACHE_MAX
  {
    if |scan| > PORT_CACHE_MAX {
      assert Truncated(scan, kept).Keys == kept;
    }
  }

  // ----- The steps -----

  /// Where a lookup stands: at the first check, waiting for the scan gate,
  /// holding it, waiting for its own scan, back from `rescan`, or answered.
  /// Back from its own successful scan it knows when that one started; an answer
  /// with a pid comes from a scan that ran from `start` until its publication.
  datatype Phase =
    | First
    | AtGate
    | HasGate
    | Scanning
    | BackFresh
    | BackScanned(started: nat)
    | BackFailed
    | Answered(pid: Option<nat>, start: nat, until: nat)

  datatype Lookup = Lookup(port: nat, accepted: nat, phase: Phase)

  /// A scan under way for a lookup, and what it has come across so far.
  datatype Job = Job(started: nat, seen: Ports)

  datatype Holder = Nobody | ByLookup(id: nat) | ByJob(id: nat)

  /// Jobs go by the lookup that started them; they outlive a cancelled one. The
  /// scan in the cache was published at `published`.
  datatype World = World(now: nat, cache: PortCache, published: nat, gate: Holder, lookups: map<nat, Lookup>, jobs: map<nat, Job>)

  datatype Step =
    | Tick(d: nat)
    | Accept(id: nat, port: nat, accepted: nat)
    | Check(id: nat)
    | TakeGate(id: nat)
    | Decide(id: nat)
    | Observe(job: nat, port: nat, pid: nat)
    | Finish(job: nat, kept: set<nat>)
    | Fail(job: nat)
    | Answer(id: nat)
    | Cancel(id: nat)

  /// `owns(pid, port, t)`: at `t` the process has a TCP socket with that local port.
  type Owns = (nat, nat, nat) -> bool

  predicate At(w: World, id: nat, phase: Phase) {
    id in w.lookups && w.lookups[id].phase == phase
  }

  predicate IsBack(w: World, id: nat) {
    id in w.lookups && (w.lookups[id].phase.BackFresh? || w.lookups[id].phase.BackScanned? || w.lookups[id].phase.BackFailed?)
  }

  predicate Enabled(owns: Owns, w: World, step: Step) {
    match step
    case Tick(_) => true
    case Accept(id, _, accepted) => id !in w.lookups && id !in w.jobs && accepted <= w.now
    case Check(id) => At(w, id, First)
    case TakeGate(id) => At(w, id, AtGate) && w.gate == Nobody
    case Decide(id) => At(w, id, HasGate)
    case Observe(job, port, pid) => job in w.jobs && owns(pid, port, w.now)
    case Finish(job, kept) => job in w.jobs && kept <= w.jobs[job].seen.Keys && |kept| <= PORT_CACHE_MAX
    case Fail(job) => job in w.jobs
    case Answer(id) => IsBack(w, id)
    case Cancel(id) => At(w, id, AtGate) || At(w, id, Scanning)
  }

  function To(w: World, id: nat, phase: Phase): World
    requires id in w.lookups
  {
    w.(lookups := w.lookups[id := w.lookups[id].(phase := phase)])
  }

  /// The job is over: the gate is free and its lookup, if it still waits, goes on.
  function Ended(w: World, job: nat, phase: Phase): World {
    var rest := w.(jobs := w.jobs - {job}, gate := Nobody);
    if At(w, job, Scanning) then To(rest, job, phase) else rest
  }

  /// What the cache tells a lookup, and from which scan.
  function Reply(w: World, l: Lookup): Phase {
    if w.cache.IsFreshFor(l.accepted) then Answered(w.cache.Get(l.port), w.cache.scanStartedAt.value, w.published)
    else Answered(None, 0, 0)
  }

  function Next(owns: Owns, w: World, step: Step): World
    requires Enabled(owns, w, step)
  {
    match step
    case Tick(d) => w.(now := w.now + d)
    case Accept(id, port, accepted) => w.(lookups := w.lookups[id := Lookup(port, accepted, First)])
    case Check(id) =>
      var l := w.lookups[id];
      if w.cache.IsFreshFor(l.accepted) then To(w, id, Reply(w, l)) else To(w, id, AtGate)
    case TakeGate(id) => To(w, id, HasGate).(gate := ByLookup(id))
    case Decide(id) =>
      if w.cache.IsFreshFor(w.lookups[id].accepted) then To(w, id, BackFresh).(gate := Nobody)
      else To(w, id, Scanning).(gate := ByJob(id), jobs := w.jobs[id := Job(w.now, map[])])
    case Observe(job, port, pid) =>
      w.(jobs := w.jobs[job := w.jobs[job].(seen := w.jobs[job].seen[port := pid])])
    case Finish(job, kept) =>
      var j := w.jobs[job];
      Ended(w, job, BackScanned(j.started)).(cache := PortCache(Truncated(j.seen, kept), Some(j.started)), published := w.now)
    case Fail(job) => Ended(w, job, BackFailed)
    case Answer(id) => To(w, id, Reply(w, w.lookups[id]))
    case Cancel(id) => w.(lookups := w.lookups - {id})
  }

  // ----- The invariant -----

  /// Somebody saw the process own the port between the two times.
  ghost predicate Witnessed(owns: Owns, pid: nat, port: nat, from: nat, to: nat) {
    exists t: nat :: from <= t <= to && owns(pid, port, t)
  }

  ghost predicate AllWitnessed(owns: Owns, ports: Ports, from: nat, to: nat) {
    forall p | p in ports :: Witnessed(owns, ports[p], p, from, to)
  }

  /// What the cache holds was seen between the start and the publication of its scan.
  ghost predicate CacheOk(owns: Owns, cache: PortCache, published: nat, now: nat) {
    if cache.scanStartedAt.None? then cache.portToPid == map[]
    else && cache.scanStartedAt.value <= published <= now
         && AllWitnessed(owns, cache.portToPid, cache.scanStartedAt.value, published)
  }

  /// One scan at a time, which holds the gate and started no earlier than the
  /// one published.
  ghost predicate JobsOk(owns: Owns, w: World) {
    && (forall j | j in w.jobs :: w.gate == ByJob(j))
    && (forall j | j in w.jobs ::
          && NotBefore(w.cache, w.jobs[j].started)
          && w.jobs[j].started <= w.now
          && AllWitnessed(owns, w.jobs[j].seen, w.jobs[j].started, w.now))
  }

  predicate NotBefore(cache: PortCache, t: nat) {
    cache.scanStartedAt.Some? ==> cache.scanStartedAt.value <= t
  }

  /// The answer was seen while a scan ran that started after the acceptance.
  ghost predicate AnswerOk(owns: Owns, now: nat, l: Lookup)
    requires l.phase.Answered? && l.phase.pid.Some?
  {
    && l.accepted < l.phase.start <= l.phase.until <= now
    && Witnessed(owns, l.phase.pid.value, l.port, l.phase.start, l.phase.until)
  }

  /// A lookup back from `rescan` finds what it came for: a cache fresh for it, or
  /// a scan published that started no earlier than its own. What was answered
  /// had been seen by a scan that started after the connection was accepted.
  ghost predicate LookupOk(owns: Owns, cache: PortCache, gate: Holder, now: nat, id: nat, l: Lookup) {
    && l.accepted <= now
    && (l.phase.HasGate? ==> gate == ByLookup(id))
    && (l.phase.BackFresh? ==> cache.IsFreshFor(l.accepted))
    && (l.phase.BackScanned? ==> cache.scanStartedAt.Some? && cache.scanStartedAt.value >= l.phase.started >= l.accepted)
    && (l.phase.Answered? && l.phase.pid.Some? ==> AnswerOk(owns, now, l))
  }

  ghost predicate LookupsOk(owns: Owns, w: World) {
    && (forall id | id in w.lookups :: LookupOk(owns, w.cache, w.gate, w.now, id, w.lookups[id]))
    && (forall id | id in w.lookups && id in w.jobs :: w.jobs[id].started >= w.lookups[id].accepted)
  }

  ghost predicate Inv(owns: Owns, w: World) {
    CacheOk(owns, w.cache, w.published, w.now) && JobsOk(owns, w) && LookupsOk(owns, w)
  }

  lemma WitnessedLonger(owns: Owns, pid: nat, port: nat, from: nat, to: nat, from': nat, to': nat)
    requires Witnessed(owns, pid, port, from, to) && from' <= from && to <= to'
    ensures Witnessed(owns, pid, port, from', to')
  {
    var t: nat :| from <= t <= to && owns(pid, port, t);
    assert from' <= t <= to';
  }

  lemma TickKeepsInv(owns: Owns, w: World, d: nat)
    requires Inv(owns, w)
    ensures Inv(owns, w.(now := w.now + d))
  {
    forall pid: nat, port: nat, from: nat | Witnessed(owns, pid, port, from, w.now)
      ensures Witnessed(owns, pid, port, from, w.now + d)
    {
      WitnessedLonger(owns, pid, port, from, w.now, from, w.now + d);
    }
  }

  /// A fresh cache answers only with what its scan saw since the acceptance.
  lemma FreshAnswer(owns: Owns, w: World, l: Lookup)
    requires CacheOk(owns, w.cache, w.published, w.now) && w.cache.IsFreshFor(l.accepted) && w.cache.Get(l.port).Some?
    ensures AnswerOk(owns, w.now, l.(phase := Reply(w, l)))
  {
  }

  lemma ObserveKeepsInv(owns: Owns, w: World, step: Step)
    requires Inv(owns, w) && step.Observe? && Enabled(owns, w, step)
    ensures Inv(owns, Next(owns, w, step))
  {
    var j := w.jobs[step.job];
    assert Witnessed(owns, step.pid, step.port, j.started, w.now);
    assert AllWitnessed(owns, j.seen[step.port := step.pid], j.started, w.now);
  }

  lemma FinishKeepsInv(owns: Owns, w: World, step: Step)
    requires Inv(owns, w) && step.Finish? && Enabled(owns, w, step)
    ensures Inv(owns, Next(owns, w, step))
  {
    var j, w' := w.jobs[step.job], Next(owns, w, step);
    assert CacheOk(owns, w'.cache, w'.published, w.now) by {
      assert forall p | p in w'.cache.portToPid :: p in j.seen && w'.cache.portToPid[p] == j.seen[p];
    }
    assert w.gate == ByJob(step.job);
    assert w'.jobs == map[] by {
      assert forall k | k in w.jobs :: k == step.job;
    }
    forall id | id in w'.lookups ensures LookupOk(owns, w'.cache, w'.gate, w'.now, id, w'.lookups[id]) {
      assert LookupOk(owns, w.cache, w.gate, w.now, id, w.lookups[id]);
    }
  }

  lemma FailKeepsInv(owns: Owns, w: World, step: Step)
    requires Inv(owns, w) && step.Fail? && Enabled(owns, w, step)
    ensures Inv(owns, Next(owns, w, step))
  {
    var w' := Next(owns, w, step);
    assert w.gate == ByJob(step.job);
    assert w'.jobs == map[] by {
      assert forall k | k in w.jobs :: k == step.job;
    }
    forall id | id in w'.lookups ensures LookupOk(owns, w'.cache, w'.gate, w'.now, id, w'.lookups[id]) {
      assert LookupOk(owns, w.cache, w.gate, w.now, id, w.lookups[id]);
    }
  }

  lemma LookupKeepsInv(owns: Owns, w: World, step: Step)
    requires Inv(owns, w) && Enabled(owns, w, step)
    requires step.Accept? || step.Check? || step.Answer? || step.Cancel?
    ensures Inv(owns, Next(owns, w, step))
  {
    var w' := Next(owns, w, step);
    forall id | id in w'.lookups ensures LookupOk(owns, w'.cache, w'.gate, w'.now, id, w'.lookups[id]) {
      if step.id == id && id in w.lookups {
        var l := w.lookups[id];
        if w.cache.IsFreshFor(l.accepted) && w.cache.Get(l.port).Some? {
          FreshAnswer(owns, w, l);
        }
      }
    }
  }

  lemma GateKeepsInv(owns: Owns, w: World, step: Step)
    requires Inv(owns, w) && Enabled(owns, w, step) && (step.TakeGate? || step.Decide?)
    ensures Inv(owns, Next(owns, w, step))
  {
    var w' := Next(owns, w, step);
    assert w.jobs == map[] by {
      assert LookupOk(owns, w.cache, w.gate, w.now, step.id, w.lookups[step.id]);
      assert forall j | j in w.jobs :: w.gate == ByJob(j);
    }
    forall id | id in w'.lookups ensures LookupOk(owns, w'.cache, w'.gate, w'.now, id, w'.lookups[id]) {
      assert LookupOk(owns, w.cache, w.gate, w.now, id, w.lookups[id]);
    }
  }

  lemma StepKeepsInv(owns: Owns, w: World, step: Step)
    requires Inv(owns, w) && Enabled(owns, w, step)
    ensures Inv(owns, Next(owns, w, step))
  {
    match step
    case Tick(d) => TickKeepsInv(owns, w, d);
    case Observe(_, _, _) => ObserveKeepsInv(owns, w, step);
    case Finish(_, _) => FinishKeepsInv(owns, w, step);
    case Fail(_) => FailKeepsInv(owns, w, step);
    case TakeGate(_) => GateKeepsInv(owns, w, step);
    case Decide(_) => GateKeepsInv(owns, w, step);
    case _ => LookupKeepsInv(owns, w, step);
  }

  /// Published scan start times never go backwards.
  lemma StartTimesAdvance(owns: Owns, w: World, step: Step)
    requires Inv(owns, w) && Enabled(owns, w, step)
    ensures var w' := Next(owns, w, step);
            && (w.cache.scanStartedAt.Some? ==>
                  w'.cache.scanStartedAt.Some? && w.cache.scanStartedAt.value <= w'.cache.scanStartedAt.value)
            && w.now <= w'.now
  {
    if step.Finish? {
      assert NotBefore(w.cache, w.jobs[step.job].started);
    }
  }

  // ----- Every interleaving -----

  const START := World(0, PortCache(map[], None), 0, Nobody, map[], map[])

  predicate IsRun(owns: Owns, w: World, steps: seq<Step>)
    decreases |steps|
  {
    steps == [] || (Enabled(owns, w, steps[0]) && IsRun(owns, Next(owns, w, steps[0]), steps[1..]))
  }

  function Run(owns: Owns, w: World, steps: seq<Step>): World
    requires IsRun(owns, w, steps)
    decreases |steps|
  {
    if steps == [] then w else Run(owns, Next(owns, w, steps[0]), steps[1..])
  }

  lemma {:induction false} RunKeepsInv(owns: Owns, w: World, steps: seq<Step>)
    requires Inv(owns, w) && IsRun(owns, w, steps)
    ensures Inv(owns, Run(owns, w, steps))
    decreases |steps|
  {
    if steps != [] {
      StepKeepsInv(owns, w, steps[0]);
      RunKeepsInv(owns, Next(owns, w, steps[0]), steps[1..]);
    }
  }

  /// In every interleaving, a pid that a lookup is answered with was seen owning
  /// the port while a scan ran that started after the connection was accepted.
  lemma AnswersAreWitnessed(owns: Owns, steps: seq<Step>, id: nat)
    requires IsRun(owns, START, steps)
    requires var w := Run(owns, START, steps); id in w.lookups && w.lookups[id].phase.Answered? && w.lookups[id].phase.pid.Some?
    ensures var w := Run(owns, START, steps);
            var l := w.lookups[id];
            && l.accepted < l.phase.start <= l.phase.until <= w.now
            && Witnessed(owns, l.phase.pid.value, l.port, l.phase.start, l.phase.until)
  {
    assert Inv(owns, START);
    RunKeepsInv(owns, START, steps);
    var w := Run(owns, START, steps);
    assert LookupOk(owns, w.cache, w.gate, w.now, id, w.lookups[id]);
  }

  /// So a port with one owner while that scan ran is attributed to no other,
  /// whoever has it before or afterwards.
  lemma SoleOwnerIsNotMistaken(owns: Owns, steps: seq<Step>, id: nat, owner: nat)
    requires IsRun(owns, START, steps)
    requires var w := Run(owns, START, steps);
             && id in w.lookups && w.lookups[id].phase.Answered?
             && var l := w.lookups[id];
                forall pid: nat, t: nat :: l.phase.start <= t <= l.phase.until && owns(pid, l.port, t) ==> pid == owner
    ensures var phase := Run(owns, START, steps).lookups[id].phase;
            phase.pid == None || phase.pid == Some(owner)
  {
    var w := Run(owns, START, steps);
    var l := w.lookups[id];
    if l.phase.pid.Some? {
      AnswersAreWitnessed(owns, steps, id);
      var t: nat :| l.phase.start <= t <= l.phase.until && owns(l.phase.pid.value, l.port, t);
    }
  }

  /// A lookup back from its own scan can use the cache exactly when the scan
  /// published by then started after the acceptance; a scan of its own that
  /// started in the same instant does not do, whatever it saw.
  lemma OwnScanSufficesIff(owns: Owns, w: World, id: nat)
    requires Inv(owns, w) && id in w.lookups && w.lookups[id].phase.BackScanned?
    ensures var l := w.lookups[id];
            && (w.cache.IsFreshFor(l.accepted) <==> l.phase.started > l.accepted || w.cache.scanStartedAt.value > l.phase.started)
            && (!w.cache.IsFreshFor(l.accepted) ==> Next(owns, w, Answer(id)).lookups[id].phase.pid == None)
  {
    assert LookupOk(owns, w.cache, w.gate, w.now, id, w.lookups[id]);
  }

  /// Whoever the gate is given to is there to pass it on: a lookup about to decide,
  /// or a scan under way.
  predicate GateIsHeld(w: World) {
    && (w.gate.ByLookup? ==> At(w, w.gate.id, HasGate))
    && (w.gate.ByJob? ==> w.gate.id in w.jobs)
  }

  /// The gate never gets stuck: in every reachable state it is free, or one more
  /// step of its holder frees it or starts the scan that will.
  lemma {:induction false} GateNeverSticks(owns: Owns, w: World, steps: seq<Step>)
    requires Inv(owns, w) && GateIsHeld(w) && IsRun(owns, w, steps)
    ensures var v := Run(owns, w, steps);
            && GateIsHeld(v)
            && (v.gate.ByLookup? ==> Enabled(owns, v, Decide(v.gate.id)) && Next(owns, v, Decide(v.gate.id)).gate != v.gate)
            && (v.gate.ByJob? ==> Enabled(owns, v, Fail(v.gate.id)) && Next(owns, v, Fail(v.gate.id)).gate == Nobody)
            && (v.gate.ByJob? ==> Enabled(owns, v, Finish(v.gate.id, {})) && Next(owns, v, Finish(v.gate.id, {})).gate == Nobody)
    decreases |steps|
  {
    if steps != [] {
      StepKeepsInv(owns, w, steps[0]);
      StepKeepsGate(owns, w, steps[0]);
      GateNeverSticks(owns, Next(owns, w, steps[0]), steps[1..]);
    }
  }

  lemma StepKeepsGate(owns: Owns, w: World, step: Step)
    requires Inv(owns, w) && GateIsHeld(w) && Enabled(owns, w, step)
    ensures GateIsHeld(Next(owns, w, step))
  {
    assert step.Accept? ==> step.id !in w.lookups;
  }

  /// A cache fresh for a lookup answers it: with the pid under its port, and with
  /// nobody only if the scan has no such port. One that is not fresh does not.
  lemma FreshCacheAnswers(owns: Owns, w: World, step: Step)
    requires Enabled(owns, w, step) && (step.Check? || step.Answer?)
    ensures var l, phase := w.lookups[step.id], Next(owns, w, step).lookups[step.id].phase;
            if w.cache.scanStartedAt.Some? && w.cache.scanStartedAt.value > l.accepted then
              && phase.Answered? && phase.start == w.cache.scanStartedAt.value && phase.until == w.published
              && phase.pid == if l.port in w.cache.portToPid then Some(w.cache.portToPid[l.port]) else None
            else if step.Check? then phase == AtGate
            else phase.Answered? && phase.pid == None
  {
  }

  /// While a lookup waits for its scan nothing ends the scan, and while it is back
  /// from it nothing is published and it is not answered yet.
  predicate Undisturbed(steps: seq<Step>, id: nat) {
    forall s | s in steps ::
      !s.Finish? && s != Fail(id) && s != Cancel(id) && s != Answer(id)
  }

  /// Somebody is seen to own the port, and nobody else.
  ghost predicate SeesOnly(steps: seq<Step>, id: nat, port: nat, pid: nat) {
    && Observe(id, port, pid) in steps
    && forall q | Observe(id, port, q) in steps :: q == pid
  }

  ghost predicate SeenIs(seen: Ports, port: nat, pid: nat, steps: seq<Step>, id: nat) {
    && (port in seen ==> seen[port] == pid)
    && (forall q | Observe(id, port, q) in steps :: q == pid)
  }

  lemma {:induction false} ScanGoesOn(owns: Owns, w: World, steps: seq<Step>, id: nat, pid: nat)
    requires IsRun(owns, w, steps) && Undisturbed(steps, id)
    requires At(w, id, Scanning) && id in w.jobs
    requires SeenIs(w.jobs[id].seen, w.lookups[id].port, pid, steps, id)
    ensures var v := Run(owns, w, steps);
            && id in v.lookups && v.lookups[id] == w.lookups[id] && id in v.jobs && v.jobs[id].started == w.jobs[id].started
            && SeenIs(v.jobs[id].seen, w.lookups[id].port, pid, [], id)
            && (w.lookups[id].port in w.jobs[id].seen || Observe(id, w.lookups[id].port, pid) in steps
                ==> w.lookups[id].port in v.jobs[id].seen)
    decreases |steps|
  {
    if steps != [] {
      var next := Next(owns, w, steps[0]);
      assert steps == [steps[0]] + steps[1..];
      assert steps[0] in steps && forall s | s in steps[1..] :: s in steps;
      ScanGoesOn(owns, next, steps[1..], id, pid);
    }
  }

  lemma {:induction false} BackWaits(owns: Owns, w: World, steps: seq<Step>, id: nat)
    requires IsRun(owns, w, steps) && Undisturbed(steps, id) && IsBack(w, id)
    ensures var v := Run(owns, w, steps);
            id in v.lookups && v.lookups[id] == w.lookups[id] && v.cache == w.cache
    decreases |steps|
  {
    if steps != [] {
      assert steps == [steps[0]] + steps[1..];
      assert steps[0] in steps && forall s | s in steps[1..] :: s in steps;
      BackWaits(owns, Next(owns, w, steps[0]), steps[1..], id);
    }
  }

  /// A lookup that holds the gate after the instant of its acceptance is told who
  /// owns its port: when its own scan sees one owner and no other, finds at
  /// most 4096 ports, and is the last one published before the answer, the answer
  /// is that owner, whatever else goes on meanwhile.
  lemma OwnScanAnswers(owns: Owns, w: World, id: nat, scan: seq<Step>, kept: set<nat>, rest: seq<Step>, pid: nat)
    requires At(w, id, HasGate) && w.now > w.lookups[id].accepted
    requires w.cache.scanStartedAt.Some? ==> w.cache.scanStartedAt.value <= w.lookups[id].accepted
    requires var w1 := Next(owns, w, Decide(id));
             && IsRun(owns, w1, scan) && Undisturbed(scan, id) && SeesOnly(scan, id, w.lookups[id].port, pid)
             && var w2 := Run(owns, w1, scan);
                && Enabled(owns, w2, Finish(id, kept)) && |w2.jobs[id].seen| <= PORT_CACHE_MAX
                && IsRun(owns, Next(owns, w2, Finish(id, kept)), rest) && Undisturbed(rest, id)
    ensures var w4 := Run(owns, Next(owns, Run(owns, Next(owns, w, Decide(id)), scan), Finish(id, kept)), rest);
            && Enabled(owns, w4, Answer(id))
            && var phase := Next(owns, w4, Answer(id)).lookups[id].phase;
               phase.Answered? && phase.pid == Some(pid) && phase.start == w.now
  {
    var w1 := Next(owns, w, Decide(id));
    ScanGoesOn(owns, w1, scan, id, pid);
    var w2 := Run(owns, w1, scan);
    var w3 := Next(owns, w2, Finish(id, kept));
    BackWaits(owns, w3, rest, id);
    FreshCacheAnswers(owns, Run(owns, w3, rest), Answer(id));
  }

  /// A lookup that starts its scan in the instant of its acceptance, and the rest
  /// of that run.
  function ToScan(port: nat): seq<Step> {
    [Accept(0, port, 0), Check(0), TakeGate(0), Decide(0)]
  }

  function FromScan(port: nat, pid: nat): seq<Step> {
    [Observe(0, port, pid), Finish(0, {}), Answer(0)]
  }

  function InScan(port: nat): World {
    START.(gate := ByJob(0), lookups := map[0 := Lookup(port, 0, Scanning)], jobs := map[0 := Job(0, map[])])
  }

  lemma {:induction false} RunConcat(owns: Owns, w: World, a: seq<Step>, b: seq<Step>)
    requires IsRun(owns, w, a) && IsRun(owns, Run(owns, w, a), b)
    ensures IsRun(owns, w, a + b) && Run(owns, w, a + b) == Run(owns, Run(owns, w, a), b)
    decreases |a|
  {
    if a == [] {
      assert a + b == b;
    } else {
      assert (a + b)[1..] == a[1..] + b;
      RunConcat(owns, Next(owns, w, a[0]), a[1..], b);
    }
  }

  lemma RunOne(owns: Owns, w: World, step: Step)
    requires Enabled(owns, w, step)
    ensures IsRun(owns, w, [step]) && Run(owns, w, [step]) == Next(owns, w, step)
  {
    assert [step][1..] == [];
  }

  lemma RunTwo(owns: Owns, w: World, a: Step, b: Step)
    requires Enabled(owns, w, a) && Enabled(owns, Next(owns, w, a), b)
    ensures IsRun(owns, w, [a, b]) && Run(owns, w, [a, b]) == Next(owns, Next(owns, w, a), b)
  {
    assert [a, b][1..] == [b];
    RunOne(owns, Next(owns, w, a), b);
  }

  lemma ScanStarts(owns: Owns, port: nat)
    ensures IsRun(owns, START, ToScan(port)) && Run(owns, START, ToScan(port)) == InScan(port)
  {
    var mid := START.(lookups := map[0 := Lookup(port, 0, AtGate)]);
    assert map[][0 := Lookup(port, 0, First)] == map[0 := Lookup(port, 0, First)];
    RunTwo(owns, START, Accept(0, port, 0), Check(0));
    assert Run(owns, START, [Accept(0, port, 0), Check(0)]) == mid;
    RunTwo(owns, mid, TakeGate(0), Decide(0));
    RunConcat(owns, START, [Accept(0, port, 0), Check(0)], [TakeGate(0), Decide(0)]);
    assert ToScan(port) == [Accept(0, port, 0), Check(0)] + [TakeGate(0), Decide(0)];
  }

  lemma ScanIsLost(owns: Owns, port: nat, pid: nat)
    requires owns(pid, port, 0)
    ensures IsRun(owns, InScan(port), FromScan(port, pid))
    ensures var w := Run(owns, InScan(port), FromScan(port, pid));
            && w.cache == PortCache(map[port := pid], Some(0))
            && w.lookups == map[0 := Lookup(port, 0, Answered(None, 0, 0))]
  {
    var seen := InScan(port).(jobs := map[0 := Job(0, map[port := pid])]);
    RunOne(owns, InScan(port), Observe(0, port, pid));
    assert Next(owns, InScan(port), Observe(0, port, pid)) == seen;
    assert |map[port := pid]| == 1;
    RunTwo(owns, seen, Finish(0, {}), Answer(0));
    RunConcat(owns, InScan(port), [Observe(0, port, pid)], [Finish(0, {}), Answer(0)]);
    assert FromScan(port, pid) == [Observe(0, port, pid)] + [Finish(0, {}), Answer(0)];
  }

  /// A run from the start: the scan of the instant of acceptance succeeds, sees
  /// the owner and is published, and still the lookup is answered with nobody.
  lemma SameInstantScanIsLost(owns: Owns, port: nat, pid: nat)
    requires owns(pid, port, 0)
    ensures IsRun(owns, START, ToScan(port) + FromScan(port, pid))
    ensures var w := Run(owns, START, ToScan(port) + FromScan(port, pid));
            && w.cache == PortCache(map[port := pid], Some(0))
            && w.lookups == map[0 := Lookup(port, 0, Answered(None, 0, 0))]
  {
    ScanStarts(owns, port);
    ScanIsLost(owns, port, pid);
    RunConcat(owns, START, ToScan(port), FromScan(port, pid));
  }
}
