/// The marker protocol of `crates/hamsy-api/src/sysproxy_state.rs`, run one
/// command or file operation at a time so that a process can die in between, and
/// the guard of `crates/hamsy-cli/src/run.rs`. Commands and file operations that
/// are reached succeed.

module SysProxyMarker {
  import opened Common
  import opened SysProxy

  /// The settings, the marker file's snapshot, and what the user last chose.
  datatype World = World(os: Settings, marker: Option<Snapshot>, user: Settings)

  datatype Micro = Command(cmd: Cmd) | WriteMarker(snap: Snapshot) | DeleteMarker

  function Do(w: World, m: Micro): World {
    match m
    case Command(cmd) => w.(os := Exec(w.os, cmd))
    case WriteMarker(snap) => w.(marker := Some(snap))
    case DeleteMarker => w.(marker := None)
  }

  function DoAll(w: World, ms: seq<Micro>): World
    decreases |ms|
  {
    if ms == [] then w else DoAll(Do(w, ms[0]), ms[1..])
  }

  function Commands(cmds: seq<Cmd>): (r: seq<Micro>)
    ensures |r| == |cmds|
  {
    seq(|cmds|, i requires 0 <= i < |cmds| => Command(cmds[i]))
  }

  datatype Op =
    | Acquire(host: string, port: nat, bypass: seq<string>)
    | Release
    | RestoreIfMarked
    | RecoverStale

  /// `take_marker`, then `restore`.
  function RecoverScript(w: World): seq<Micro> {
    if w.marker.None? then [] else [DeleteMarker] + Commands(RestoreScript(w.marker.value))
  }

  function Recovered(w: World): World {
    DoAll(w, RecoverScript(w))
  }

  /// The steps an operation takes from here. Without a service `enable` fails
  /// and no marker is written.
  function Script(names: seq<string>, w: World, op: Op): seq<Micro>
    requires Covers(names, w.os)
  {
    match op
    case Acquire(host, port, bypass) =>
      RecoverKeepsCover(names, w);
      RecoverScript(w) + if names == [] then []
                         else Commands(EnableScript(names, host, port, bypass)) + [WriteMarker(SnapshotOf(names, Recovered(w).os))]
    case Release => if w.marker.Some? then RecoverScript(w) else Commands(DisableScript(names))
    case RestoreIfMarked => RecoverScript(w)
    case RecoverStale => RecoverScript(w)
  }

  lemma {:induction false} CommandsExec(w: World, cmds: seq<Cmd>)
    ensures DoAll(w, Commands(cmds)) == w.(os := ExecAll(w.os, cmds))
    decreases |cmds|
  {
    if cmds != [] {
      assert Commands(cmds)[1..] == Commands(cmds[1..]);
      CommandsExec(w.(os := Exec(w.os, cmds[0])), cmds[1..]);
    }
  }

  lemma {:induction false} DoConcat(w: World, a: seq<Micro>, b: seq<Micro>)
    ensures DoAll(w, a + b) == DoAll(DoAll(w, a), b)
    decreases |a|
  {
    if a == [] {
      assert a + b == b;
    } else {
      assert (a + b)[1..] == a[1..] + b;
      DoConcat(Do(w, a[0]), a[1..], b);
    }
  }

  lemma RecoveredIs(w: World)
    ensures Recovered(w) == if w.marker.None? then w
                            else World(ExecAll(w.os, RestoreScript(w.marker.value)), None, w.user)
  {
    if w.marker.Some? {
      var rest := Commands(RestoreScript(w.marker.value));
      assert ([DeleteMarker] + rest)[1..] == rest;
      CommandsExec(w.(marker := None), RestoreScript(w.marker.value));
    }
  }

  lemma RecoverKeepsCover(names: seq<string>, w: World)
    requires Covers(names, w.os)
    ensures Covers(names, Recovered(w).os)
  {
    RecoveredIs(w);
    if w.marker.Some? {
      ExecKeepsKeys(w.os, RestoreScript(w.marker.value));
    }
  }

  // ----- The operations as the code runs them -----

  class SystemProxy {
    const net: NetworkSetup
    var marker: Option<Snapshot>

    ghost function Now(user: Settings): World
      reads this, net
    {
      World(net.services, marker, user)
    }

    ghost predicate Ready()
      reads this, net
    {
      Covers(net.names, net.services)
    }

    constructor (net: NetworkSetup, marker: Option<Snapshot>)
      ensures this.net == net && this.marker == marker
    {
      this.net, this.marker := net, marker;
    }

    method TakeMarker() returns (taken: Option<Snapshot>)
      modifies this
      ensures taken == old(marker) && marker == None
    {
      taken := marker;
      marker := None;
    }

    /// `restore_if_marked`; true means that a marker was there.
    method RestoreIfMarked(ghost user: Settings) returns (restored: bool)
      requires Ready()
      modifies this, net
      ensures Ready() && Now(user) == Recovered(old(Now(user)))
      ensures Now(user) == DoAll(old(Now(user)), Script(net.names, old(Now(user)), Op.RestoreIfMarked))
      ensures restored <==> old(marker).Some?
    {
      RecoveredIs(Now(user));
      RecoverKeepsCover(net.names, Now(user));
      var taken := TakeMarker();
      restored := taken.Some?;
      if taken.Some? {
        net.Restore(taken.value);
      }
    }

    method RecoverStale(ghost user: Settings)
      requires Ready()
      modifies this, net
      ensures Ready() && Now(user) == Recovered(old(Now(user)))
      ensures Now(user) == DoAll(old(Now(user)), Script(net.names, old(Now(user)), Op.RecoverStale))
    {
      var restored := RestoreIfMarked(user);
    }

    method Release(ghost user: Settings)
      requires Ready()
      modifies this, net
      ensures Now(user) == DoAll(old(Now(user)), Script(net.names, old(Now(user)), Op.Release))
    {
      RecoveredIs(Now(user));
      CommandsExec(Now(user), DisableScript(net.names));
      var taken := TakeMarker();
      if taken.Some? {
        net.Restore(taken.value);
      } else {
        net.Disable();
      }
    }

    method Acquire(ghost user: Settings, host: string, port: nat, bypass: seq<string>) returns (ok: bool)
      requires Ready()
      modifies this, net
      ensures ok <==> net.names != []
      ensures Now(user) == DoAll(old(Now(user)), Script(net.names, old(Now(user)), Op.Acquire(host, port, bypass)))
    {
      ghost var start := Now(user);
      RecoverStale(user);
      ghost var mid := Now(user);
      var snap := net.Snapshot();
      ok := net.Enable(host, port, bypass);
      ghost var recover := RecoverScript(start);
      if !ok {
        assert recover + [] == recover;
        return;
      }
      AcquireIs(start, mid, EnableScript(net.names, host, port, bypass), snap);
      marker := Some(snap);
    }
  }

  lemma AcquireIs(start: World, mid: World, enable: seq<Cmd>, snap: Snapshot)
    requires mid == Recovered(start)
    ensures DoAll(start, RecoverScript(start) + (Commands(enable) + [WriteMarker(snap)])) ==
            World(ExecAll(mid.os, enable), Some(snap), start.user)
  {
    RecoveredIs(start);
    DoConcat(start, RecoverScript(start), Commands(enable) + [WriteMarker(snap)]);
    DoConcat(mid, Commands(enable), [WriteMarker(snap)]);
    CommandsExec(mid, enable);
    assert [WriteMarker(snap)][1..] == [];
  }

  // ----- Every run -----

  predicate AllRestorable(names: seq<string>, user: Settings) {
    Covers(names, user) && forall n | n in names :: Restorable(user[n])
  }

  /// The snapshot holds settings of the same effect as the user's.
  ghost predicate Holds(names: seq<string>, snap: Snapshot, user: Settings)
    requires Covers(names, user)
  {
    exists kept: Settings :: Covers(names, kept) && snap == SnapshotOf(names, kept) && SameEffect(names, kept, user)
  }

  /// Without a marker the system is set as the user wants it; with one, the
  /// marker holds what the user wants.
  ghost predicate Inv(names: seq<string>, w: World) {
    && Covers(names, w.os) && AllRestorable(names, w.user)
    && if w.marker.None? then SameEffect(names, w.os, w.user) else Holds(names, w.marker.value, w.user)
  }

  /// What happens: an operation that gets through its first `upTo` steps before
  /// its process dies (all of them if it does not), or a choice by the user.
  datatype Event = Ran(op: Op, upTo: nat) | Chosen(settings: Settings)

  /// A release that finds no marker is a request to switch the proxy off.
  predicate SwitchesOff(w: World, op: Op) {
    op.Release? && w.marker.None?
  }

  function After(names: seq<string>, w: World, e: Event): World
    requires Covers(names, w.os)
  {
    match e
    case Chosen(settings) => w.(os := settings, user := settings)
    case Ran(op, upTo) =>
      var script := Script(names, w, op);
      var w' := DoAll(w, script[..Min(upTo, |script|)]);
      if SwitchesOff(w, op) then w'.(user := w'.os) else w'
  }

  /// A crash outside the two windows: before anything, right after a stale
  /// marker has been recovered, or not at all.
  predicate OutsideWindows(names: seq<string>, w: World, op: Op, upTo: nat)
    requires Covers(names, w.os)
  {
    upTo == 0 || upTo == |RecoverScript(w)| || upTo >= |Script(names, w, op)| || SwitchesOff(w, op)
  }

  predicate Allowed(names: seq<string>, w: World, e: Event) {
    && Covers(names, w.os)
    && match e
       case Ran(op, upTo) => OutsideWindows(names, w, op, upTo)
       case Chosen(settings) => w.marker.None? && AllRestorable(names, settings)
  }

  lemma RecoveryRestores(names: seq<string>, w: World)
    requires NoDuplicates(names) && Inv(names, w)
    ensures Inv(names, Recovered(w)) && Recovered(w).marker.None? && Recovered(w).user == w.user
  {
    RecoveredIs(w);
    RecoverKeepsCover(names, w);
    if w.marker.Some? {
      var kept: Settings :| Covers(names, kept) && w.marker.value == SnapshotOf(names, kept) && SameEffect(names, kept, w.user);
      RestoreUndoesIff(names, kept, w.os);
      var r := ExecAll(w.os, RestoreScript(w.marker.value));
      forall n | n in names ensures SameService(r[n], w.user[n]) {
        assert SameService(kept[n], w.user[n]) && Restorable(w.user[n]);
        assert Restorable(kept[n]);
      }
    }
  }

  lemma AcquireHolds(names: seq<string>, w: World, op: Op)
    requires NoDuplicates(names) && Inv(names, w) && op.Acquire? && names != []
    ensures var w' := DoAll(w, Script(names, w, op));
            && Inv(names, w') && w'.user == w.user && w'.marker.Some?
            && forall n | n in names :: w'.os[n] == EnabledFor(op.host, op.port, op.bypass)
  {
    var mid := Recovered(w);
    RecoveryRestores(names, w);
    var enable := EnableScript(names, op.host, op.port, op.bypass);
    AcquireIs(w, mid, enable, SnapshotOf(names, mid.os));
    EnableAll(names, mid.os, op.host, op.port, op.bypass);
  }

  /// A release puts the user's settings in force if a marker keeps them, and
  /// otherwise switches every proxy off; no marker is left.
  lemma ReleaseLeaves(names: seq<string>, w: World)
    requires NoDuplicates(names) && Inv(names, w) && Covers(names, w.os)
    ensures var w' := DoAll(w, Script(names, w, Op.Release));
            && w'.marker.None? && Covers(names, w'.os)
            && (w.marker.Some? ==> SameEffect(names, w'.os, w.user) && w'.user == w.user)
            && (w.marker.None? ==> forall n | n in names :: !w'.os[n].web.enabled && !w'.os[n].secure.enabled)
  {
    if w.marker.Some? {
      RecoveryRestores(names, w);
    } else {
      CommandsExec(w, DisableScript(names));
      DisableAll(names, w.os);
    }
  }

  lemma SwitchOffIsChosen(names: seq<string>, w: World, cmds: seq<Cmd>)
    requires Inv(names, w) && w.marker.None?
    requires forall c | c in cmds :: (c.WebState? || c.SecureState?) && !c.on
    ensures Covers(names, ExecAll(w.os, cmds)) && forall n | n in names :: Restorable(ExecAll(w.os, cmds)[n])
  {
    forall n | n in names ensures Restorable(w.os[n]) {
      assert SameService(w.os[n], w.user[n]) && Restorable(w.user[n]);
    }
    OffKeepsRestorable(names, w.os, cmds);
  }

  lemma {:induction false} OffKeepsRestorable(names: seq<string>, os: Settings, cmds: seq<Cmd>)
    requires Covers(names, os) && forall n | n in names :: Restorable(os[n])
    requires forall c | c in cmds :: (c.WebState? || c.SecureState?) && !c.on
    ensures Covers(names, ExecAll(os, cmds)) && forall n | n in names :: Restorable(ExecAll(os, cmds)[n])
    decreases |cmds|
  {
    if cmds != [] {
      assert cmds[0] in cmds;
      OffKeepsRestorable(names, Exec(os, cmds[0]), cmds[1..]);
    }
  }

  lemma {:induction false} DisableOnlySwitchesOff(names: seq<string>)
    ensures forall c | c in DisableScript(names) :: (c.WebState? || c.SecureState?) && !c.on
  {
    if names != [] {
      DisableOnlySwitchesOff(names[1..]);
    }
  }

  lemma SwitchOffKeepsInv(names: seq<string>, w: World, upTo: nat)
    requires Inv(names, w) && w.marker.None?
    ensures Inv(names, After(names, w, Ran(Release, upTo)))
  {
    var cmds := DisableScript(names);
    var k := Min(upTo, |cmds|);
    assert Commands(cmds)[..k] == Commands(cmds[..k]);
    CommandsExec(w, cmds[..k]);
    DisableOnlySwitchesOff(names);
    SwitchOffIsChosen(names, w, cmds[..k]);
  }

  /// Every operation, run to its end or killed outside the windows, keeps the
  /// promise; so does the user choosing new settings while no marker is there.
  lemma EventKeepsInv(names: seq<string>, w: World, e: Event)
    requires NoDuplicates(names) && Inv(names, w) && Allowed(names, w, e)
    ensures Inv(names, After(names, w, e))
  {
    if e.Ran? {
      if SwitchesOff(w, e.op) {
        SwitchOffKeepsInv(names, w, e.upTo);
      } else {
        RanKeepsInv(names, w, e.op, e.upTo);
      }
    }
  }

  lemma RanKeepsInv(names: seq<string>, w: World, op: Op, upTo: nat)
    requires NoDuplicates(names) && Inv(names, w) && OutsideWindows(names, w, op, upTo) && !SwitchesOff(w, op)
    ensures Inv(names, After(names, w, Ran(op, upTo)))
  {
    var script, recover := Script(names, w, op), RecoverScript(w);
    RecoveryRestores(names, w);
    if upTo == 0 {
      assert script[..0] == [];
    } else if upTo == |recover| {
      assert script[..|recover|] == recover;
    } else {
      assert script[..|script|] == script;
      if op.Acquire? && names != [] {
        AcquireHolds(names, w, op);
      } else {
        assert recover + [] == recover;
      }
    }
  }

  ghost predicate AllowedRun(names: seq<string>, w: World, events: seq<Event>)
    decreases |events|
  {
    events == [] || (Allowed(names, w, events[0]) && AllowedRun(names, After(names, w, events[0]), events[1..]))
  }

  function Run(names: seq<string>, w: World, events: seq<Event>): World
    requires AllowedRun(names, w, events)
    decreases |events|
  {
    if events == [] then w else Run(names, After(names, w, events[0]), events[1..])
  }

  /// Over every run of acquires (nested or not), releases, restores, crashes
  /// outside the windows, and recoveries, the user's settings are in force
  /// whenever no marker exists and kept by the marker otherwise.
  lemma {:induction false} EveryRunKeepsInv(names: seq<string>, w: World, events: seq<Event>)
    requires NoDuplicates(names) && Inv(names, w) && AllowedRun(names, w, events)
    ensures Inv(names, Run(names, w, events))
    decreases |events|
  {
    if events != [] {
      EventKeepsInv(names, w, events[0]);
      EveryRunKeepsInv(names, After(names, w, events[0]), events[1..]);
    }
  }

  // ----- The two windows -----

  /// A prefix of the acquire that reaches into enabling.
  lemma EnablingPrefix(names: seq<string>, w: World, op: Op, k: nat)
    requires op.Acquire? && names != [] && Covers(names, w.os)
    requires k <= |EnableScript(names, op.host, op.port, op.bypass)|
    ensures var n, cmds := |RecoverScript(w)| + k, EnableScript(names, op.host, op.port, op.bypass);
            && n < |Script(names, w, op)|
            && DoAll(w, Script(names, w, op)[..n]) == Recovered(w).(os := ExecAll(Recovered(w).os, cmds[..k]))
  {
    var recover, cmds := RecoverScript(w), EnableScript(names, op.host, op.port, op.bypass);
    assert Script(names, w, op)[..|recover| + k] == recover + Commands(cmds[..k]);
    DoConcat(w, recover, Commands(cmds[..k]));
    CommandsExec(Recovered(w), cmds[..k]);
  }

  /// A prefix of the recovery that reaches into restoring.
  lemma RestoringPrefix(names: seq<string>, w: World, op: Op, k: nat)
    requires Covers(names, w.os) && w.marker.Some? && k <= |RestoreScript(w.marker.value)|
    ensures 1 + k <= |Script(names, w, op)|
    ensures DoAll(w, Script(names, w, op)[..1 + k]) ==
            World(ExecAll(w.os, RestoreScript(w.marker.value)[..k]), None, w.user)
  {
    var cmds := RestoreScript(w.marker.value);
    assert Script(names, w, op)[..1 + k] == [DeleteMarker] + Commands(cmds[..k]);
    assert ([DeleteMarker] + Commands(cmds[..k]))[1..] == Commands(cmds[..k]);
    CommandsExec(w.(marker := None), cmds[..k]);
  }

  lemma AllButWrite(names: seq<string>, w: World, op: Op)
    requires op.Acquire? && names != [] && Covers(names, w.os)
    ensures var mid := Recovered(w);
            After(names, w, Ran(op, |Script(names, w, op)| - 1)) ==
            mid.(os := ExecAll(mid.os, EnableScript(names, op.host, op.port, op.bypass)))
  {
    var enable := EnableScript(names, op.host, op.port, op.bypass);
    EnablingPrefix(names, w, op, |enable|);
    assert enable[..|enable|] == enable;
  }

  predicate AllSetTo(names: seq<string>, os: Settings, s: Service) {
    Covers(names, os) && forall n | n in names :: os[n] == s
  }

  lemma HamsysOwn(names: seq<string>, w: World, op: Op)
    requires op.Acquire? && names != [] && Covers(names, w.os)
    ensures var w' := After(names, w, Ran(op, |Script(names, w, op)| - 1));
            && w'.marker.None? && w'.user == w.user
            && AllSetTo(names, w'.os, EnabledFor(op.host, op.port, op.bypass))
  {
    AllButWrite(names, w, op);
    RecoveredIs(w);
    RecoverKeepsCover(names, w);
    EnableAll(names, Recovered(w).os, op.host, op.port, op.bypass);
  }

  /// The first `j` commands of enabling a service change nothing for a user who
  /// wants it as `user` says: what they set is what the user has.
  predicate EnablingSpares(user: Service, to: Service, j: nat) {
    && (j >= 1 ==> SameProxy(to.web, user.web))
    && (j >= 2 ==> SameProxy(to.secure, user.secure))
    && (j >= 3 ==> to.bypass == user.bypass)
  }

  lemma AfterEnabling(names: seq<string>, w: World, op: Op, k: nat)
    requires op.Acquire? && names != [] && Covers(names, w.os)
    requires k <= |EnableScript(names, op.host, op.port, op.bypass)|
    ensures var mid := Recovered(w);
            After(names, w, Ran(op, |RecoverScript(w)| + k)) ==
            World(ExecAll(mid.os, EnableScript(names, op.host, op.port, op.bypass)[..k]), None, w.user)
  {
    EnablingPrefix(names, w, op, k);
    RecoveredIs(w);
  }

  lemma AfterRestoring(names: seq<string>, w: World, op: Op, k: nat)
    requires Covers(names, w.os) && w.marker.Some? && k <= |RestoreScript(w.marker.value)|
    ensures After(names, w, Ran(op, 1 + k)) == World(ExecAll(w.os, RestoreScript(w.marker.value)[..k]), None, w.user)
  {
    RestoringPrefix(names, w, op, k);
  }

  /// Killed after `k` commands of enabling: the user's settings survive exactly
  /// if, service by service, everything those commands set was as the user had it.
  lemma KilledWhileEnablingIff(names: seq<string>, w: World, op: Op, k: nat)
    requires NoDuplicates(names) && Inv(names, w) && op.Acquire? && names != []
    requires k <= |EnableScript(names, op.host, op.port, op.bypass)|
    ensures var w' := After(names, w, Ran(op, |RecoverScript(w)| + k));
            var cmds := EnableScript(names, op.host, op.port, op.bypass)[..k];
            && w'.marker.None? && w'.user == w.user
            && (Inv(names, w') <==> forall n | n in names ::
                  EnablingSpares(w.user[n], EnabledFor(op.host, op.port, op.bypass), Reached(n, cmds)))
  {
    var cmds, mid := EnableScript(names, op.host, op.port, op.bypass)[..k], Recovered(w);
    AfterEnabling(names, w, op, k);
    RecoveryRestores(names, w);
    ExecKeepsKeys(mid.os, cmds);
    var os := ExecAll(mid.os, cmds);
    forall n | n in names
      ensures SameService(os[n], w.user[n]) <==>
              EnablingSpares(w.user[n], EnabledFor(op.host, op.port, op.bypass), Reached(n, cmds))
    {
      EnablingLeaves(names, mid.os, op.host, op.port, op.bypass, k, n);
      assert SameService(mid.os[n], w.user[n]);
    }
  }

  /// After the first `j` commands of restoring a service it is as the user wants
  /// it: what they have not reached yet is so already.
  predicate RestoringSuffices(name: string, user: Service, now: Service, j: nat) {
    && (j >= 1 || now.bypass == user.bypass)
    && (j >= 2 || SameProxy(now.web, user.web))
    && (j >= 2 + |RestoreWeb(name, user.web)| || SameProxy(now.secure, user.secure))
  }

  /// Killed after the marker is gone and `k` commands of restoring: the user's
  /// settings survive exactly if, service by service, everything not restored yet
  /// is as the user had it.
  lemma KilledWhileRestoringIff(names: seq<string>, w: World, op: Op, k: nat)
    requires NoDuplicates(names) && Inv(names, w) && w.marker.Some? && k <= |RestoreScript(w.marker.value)|
    ensures var w' := After(names, w, Ran(op, 1 + k));
            var cmds := RestoreScript(w.marker.value)[..k];
            && w'.marker.None? && w'.user == w.user
            && (Inv(names, w') <==> forall n | n in names :: RestoringSuffices(n, w.user[n], w.os[n], Reached(n, cmds)))
  {
    var cmds := RestoreScript(w.marker.value)[..k];
    var kept: Settings :| Covers(names, kept) && w.marker.value == SnapshotOf(names, kept) && SameEffect(names, kept, w.user);
    AfterRestoring(names, w, op, k);
    ExecKeepsKeys(w.os, cmds);
    var os := ExecAll(w.os, cmds);
    forall n | n in names
      ensures SameService(os[n], w.user[n]) <==> RestoringSuffices(n, w.user[n], w.os[n], Reached(n, cmds))
    {
      RestoringLeaves(names, kept, w.os, k, n);
      RestoredPartIs(n, kept[n], w.user[n], w.os[n], Reached(n, cmds));
    }
  }

  lemma RestoredPartIs(name: string, kept: Service, user: Service, now: Service, j: nat)
    requires SameService(kept, user) && Restorable(user)
    ensures SameService(RestoredPart(name, kept, now, j), user) <==> RestoringSuffices(name, user, now, j)
  {
    assert |RestoreWeb(name, kept.web)| == |RestoreWeb(name, user.web)|;
  }

  /// Killed when enabling is done and the marker is about to be written: the
  /// user's settings survive exactly if they were hamsy's in effect already. No
  /// recovery brings them back, and the next acquire keeps hamsy's own as theirs.
  lemma KilledBeforeWrite(names: seq<string>, w: World, op: Op)
    requires Inv(names, w) && op.Acquire? && names != []
    ensures var w' := After(names, w, Ran(op, |Script(names, w, op)| - 1));
            && AllSetTo(names, w'.os, EnabledFor(op.host, op.port, op.bypass))
            && (Inv(names, w') <==> forall n | n in names :: SameService(EnabledFor(op.host, op.port, op.bypass), w.user[n]))
            && Recovered(w') == w'
            && DoAll(w', Script(names, w', op)).marker == Some(SnapshotOf(names, w'.os))
  {
    HamsysOwn(names, w, op);
    AcquireFrom(names, After(names, w, Ran(op, |Script(names, w, op)| - 1)), op);
  }

  /// Without a marker an acquire keeps whatever settings it finds.
  lemma AcquireFrom(names: seq<string>, w: World, op: Op)
    requires op.Acquire? && names != [] && Covers(names, w.os) && w.marker.None?
    ensures Recovered(w) == w && DoAll(w, Script(names, w, op)).marker == Some(SnapshotOf(names, w.os))
  {
    RecoveredIs(w);
    AcquireIs(w, w, EnableScript(names, op.host, op.port, op.bypass), SnapshotOf(names, w.os));
  }

  /// Killed when the marker is gone and nothing is restored yet: hamsy's settings
  /// stay, no recovery changes them, and the user's are lost unless they equal them.
  lemma KilledAfterDelete(names: seq<string>, w: World, op: Op)
    requires Inv(names, w) && w.marker.Some?
    ensures var w' := After(names, w, Ran(op, 1));
            && w' == w.(marker := None) && Recovered(w') == w'
            && (Inv(names, w') <==> SameEffect(names, w.os, w.user))
  {
    var script := Script(names, w, op);
    assert script[0] == DeleteMarker && script[..1] == [DeleteMarker];
    assert [DeleteMarker][1..] == [];
  }

  // ----- The guard of one process -----

  class SystemProxyGuard {
    const state: SystemProxy
    var restored: bool
    ghost var restores: nat

    ghost predicate Valid()
      reads this
    {
      restores == if restored then 1 else 0
    }

    constructor (state: SystemProxy)
      ensures Valid() && !restored && this.state == state
    {
      this.state, restored, restores := state, false, 0;
    }

    /// `restore` on shutdown and on drop. The first call restores if there is a
    /// marker; any later one does nothing, not even with a marker written since.
    method Restore(ghost user: Settings) returns (r: Option<bool>)
      requires Valid() && state.Ready()
      modifies this, state, state.net
      ensures Valid() && restored && state.Ready()
      ensures !old(restored) ==> state.Now(user) == Recovered(old(state.Now(user))) && r == Some(old(state.marker).Some?)
      ensures old(restored) ==> state.Now(user) == old(state.Now(user)) && r == None
    {
      var already := restored;
      restored := true;
      if already {
        return None;
      }
      restores := restores + 1;
      var done := state.RestoreIfMarked(user);
      r := Some(done);
    }
  }
}
