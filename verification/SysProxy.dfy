/// The macOS system-proxy settings of `crates/hamsy-api/src/sysproxy.rs`, as the
/// `networksetup` commands change them one at a time.

module SysProxy {
  import opened Common

  /// One proxy of a network service; a missing server is an empty one.
  datatype Proxy = Proxy(enabled: bool, server: Option<string>, port: Option<nat>)

  datatype Service = Service(web: Proxy, secure: Proxy, bypass: seq<string>)

  type Settings = map<string, Service>

  datatype Cmd =
    | SetWeb(name: string, server: string, port: nat)
    | SetSecure(name: string, server: string, port: nat)
    | SetBypass(name: string, args: seq<string>)
    | WebState(name: string, on: bool)
    | SecureState(name: string, on: bool)

  /// What one command does: setting a proxy's server also turns it on, and the
  /// keyword "Empty" clears the bypass list.
  function ExecOn(s: Service, cmd: Cmd): Service {
    match cmd
    case SetWeb(_, server, port) => s.(web := Proxy(true, Some(server), Some(port)))
    case SetSecure(_, server, port) => s.(secure := Proxy(true, Some(server), Some(port)))
    case SetBypass(_, args) => s.(bypass := if args == ["Empty"] then [] else args)
    case WebState(_, on) => s.(web := s.web.(enabled := on))
    case SecureState(_, on) => s.(secure := s.secure.(enabled := on))
  }

  function Exec(os: Settings, cmd: Cmd): Settings {
    if cmd.name in os then os[cmd.name := ExecOn(os[cmd.name], cmd)] else os
  }

  function ExecAll(os: Settings, cmds: seq<Cmd>): Settings
    decreases |cmds|
  {
    if cmds == [] then os else ExecAll(Exec(os, cmds[0]), cmds[1..])
  }

  // ----- The three operations as command lists -----

  /// `bypass_domains_args`, without the service name.
  function BypassArgs(bypass: seq<string>): seq<string> {
    if bypass == [] then ["Empty"] else bypass
  }

  function EnableCmds(name: string, host: string, port: nat, bypass: seq<string>): seq<Cmd> {
    [SetWeb(name, host, port), SetSecure(name, host, port), SetBypass(name, BypassArgs(bypass)),
     WebState(name, true), SecureState(name, true)]
  }

  function RestoreWeb(name: string, p: Proxy): seq<Cmd> {
    if p.enabled && p.server.Some? && p.port.Some?
    then [SetWeb(name, p.server.value, p.port.value), WebState(name, true)] else [WebState(name, false)]
  }

  function RestoreSecure(name: string, p: Proxy): seq<Cmd> {
    if p.enabled && p.server.Some? && p.port.Some?
    then [SetSecure(name, p.server.value, p.port.value), SecureState(name, true)] else [SecureState(name, false)]
  }

  function RestoreCmds(name: string, s: Service): seq<Cmd> {
    [SetBypass(name, BypassArgs(s.bypass))] + RestoreWeb(name, s.web) + RestoreSecure(name, s.secure)
  }

  function DisableCmds(name: string): seq<Cmd> {
    [WebState(name, false), SecureState(name, false)]
  }

  /// The services in order, each with its settings.
  type Snapshot = seq<(string, Service)>

  function EnableScript(names: seq<string>, host: string, port: nat, bypass: seq<string>): seq<Cmd> {
    if names == [] then [] else EnableCmds(names[0], host, port, bypass) + EnableScript(names[1..], host, port, bypass)
  }

  function RestoreScript(snap: Snapshot): seq<Cmd> {
    if snap == [] then [] else RestoreCmds(snap[0].0, snap[0].1) + RestoreScript(snap[1..])
  }

  function DisableScript(names: seq<string>): seq<Cmd> {
    if names == [] then [] else DisableCmds(names[0]) + DisableScript(names[1..])
  }

  predicate Covers(names: seq<string>, os: Settings) {
    forall n | n in names :: n in os
  }

  function SnapshotOf(names: seq<string>, os: Settings): Snapshot
    requires Covers(names, os)
  {
    if names == [] then [] else [(names[0], os[names[0]])] + SnapshotOf(names[1..], os)
  }

  lemma {:induction false} ExecConcat(os: Settings, a: seq<Cmd>, b: seq<Cmd>)
    ensures ExecAll(os, a + b) == ExecAll(ExecAll(os, a), b)
    decreases |a|
  {
    if a == [] {
      assert a + b == b;
    } else {
      assert (a + b)[1..] == a[1..] + b;
      ExecConcat(Exec(os, a[0]), a[1..], b);
    }
  }

  lemma {:induction false} ExecKeepsKeys(os: Settings, cmds: seq<Cmd>)
    ensures ExecAll(os, cmds).Keys == os.Keys
    decreases |cmds|
  {
    if cmds != [] {
      assert Exec(os, cmds[0]).Keys == os.Keys;
      ExecKeepsKeys(Exec(os, cmds[0]), cmds[1..]);
    }
  }

  /// The settings under one name.
  function ExecOnAll(s: Service, cmds: seq<Cmd>): Service
    decreases |cmds|
  {
    if cmds == [] then s else ExecOnAll(ExecOn(s, cmds[0]), cmds[1..])
  }

  predicate AllFor(name: string, cmds: seq<Cmd>) {
    forall c | c in cmds :: c.name == name
  }

  lemma {:induction false} ExecForOne(os: Settings, name: string, cmds: seq<Cmd>)
    requires name in os && AllFor(name, cmds)
    ensures ExecAll(os, cmds) == os[name := ExecOnAll(os[name], cmds)]
    decreases |cmds|
  {
    if cmds == [] {
      assert os[name := os[name]] == os;
    } else {
      assert cmds[0].name == name;
      ExecForOne(Exec(os, cmds[0]), name, cmds[1..]);
    }
  }

  // ----- What they come to -----

  function RestoredProxy(p: Proxy, was: Proxy): Proxy {
    if p.enabled && p.server.Some? && p.port.Some? then Proxy(true, p.server, p.port) else was.(enabled := false)
  }

  function Restored(s: Service, was: Service): Service {
    Service(RestoredProxy(s.web, was.web), RestoredProxy(s.secure, was.secure), if s.bypass == ["Empty"] then [] else s.bypass)
  }

  function EnabledFor(host: string, port: nat, bypass: seq<string>): Service {
    Service(Proxy(true, Some(host), Some(port)), Proxy(true, Some(host), Some(port)), if bypass == ["Empty"] then [] else bypass)
  }

  lemma ThreeStages(s: Service, a: seq<Cmd>, b: seq<Cmd>, c: seq<Cmd>)
    ensures ExecOnAll(s, a + b + c) == ExecOnAll(ExecOnAll(ExecOnAll(s, a), b), c)
  {
    ExecOnConcat(s, a + b, c);
    ExecOnConcat(s, a, b);
  }

  lemma {:induction false} ExecOnConcat(s: Service, a: seq<Cmd>, b: seq<Cmd>)
    ensures ExecOnAll(s, a + b) == ExecOnAll(ExecOnAll(s, a), b)
    decreases |a|
  {
    if a == [] {
      assert a + b == b;
    } else {
      assert (a + b)[1..] == a[1..] + b;
      ExecOnConcat(ExecOn(s, a[0]), a[1..], b);
    }
  }

  lemma OneCmd(s: Service, cmd: Cmd)
    ensures ExecOnAll(s, [cmd]) == ExecOn(s, cmd)
  {
    assert [cmd][1..] == [];
  }

  lemma TwoCmds(s: Service, a: Cmd, b: Cmd)
    ensures ExecOnAll(s, [a, b]) == ExecOn(ExecOn(s, a), b)
  {
    assert [a, b][1..] == [b];
    OneCmd(ExecOn(s, a), b);
  }

  lemma RestoreOne(name: string, s: Service, was: Service)
    ensures ExecOnAll(was, RestoreCmds(name, s)) == Restored(s, was)
  {
    var bypass := SetBypass(name, BypassArgs(s.bypass));
    ThreeStages(was, [bypass], RestoreWeb(name, s.web), RestoreSecure(name, s.secure));
    OneCmd(was, bypass);
    var mid := ExecOn(was, bypass);
    var web := ExecOnAll(mid, RestoreWeb(name, s.web));
    assert web == mid.(web := RestoredProxy(s.web, was.web)) by {
      if RestoreWeb(name, s.web) == [WebState(name, false)] {
        OneCmd(mid, WebState(name, false));
      } else {
        TwoCmds(mid, SetWeb(name, s.web.server.value, s.web.port.value), WebState(name, true));
      }
    }
    if RestoreSecure(name, s.secure) == [SecureState(name, false)] {
      OneCmd(web, SecureState(name, false));
    } else {
      TwoCmds(web, SetSecure(name, s.secure.server.value, s.secure.port.value), SecureState(name, true));
    }
  }

  lemma EnableOne(name: string, was: Service, host: string, port: nat, bypass: seq<string>)
    ensures ExecOnAll(was, EnableCmds(name, host, port, bypass)) == EnabledFor(host, port, bypass)
  {
    var cmds := EnableCmds(name, host, port, bypass);
    assert cmds == [cmds[0], cmds[1]] + [cmds[2]] + [cmds[3], cmds[4]];
    ThreeStages(was, [cmds[0], cmds[1]], [cmds[2]], [cmds[3], cmds[4]]);
    TwoCmds(was, cmds[0], cmds[1]);
    var two := ExecOn(ExecOn(was, cmds[0]), cmds[1]);
    OneCmd(two, cmds[2]);
    TwoCmds(ExecOn(two, cmds[2]), cmds[3], cmds[4]);
  }

  lemma RestoreFirst(names: seq<string>, user: Settings, os: Settings)
    requires names != [] && Covers(names, user) && Covers(names, os)
    ensures ExecAll(os, RestoreScript(SnapshotOf(names, user))) ==
            ExecAll(os[names[0] := Restored(user[names[0]], os[names[0]])], RestoreScript(SnapshotOf(names[1..], user)))
  {
    var n, rest := names[0], SnapshotOf(names[1..], user);
    var first, script := RestoreCmds(n, user[n]), RestoreScript(rest);
    assert RestoreScript(SnapshotOf(names, user)) == first + script by {
      assert ([(n, user[n])] + rest)[1..] == rest;
    }
    RestoreOneFirst(os, n, user[n], script);
  }

  lemma RestoreOneFirst(os: Settings, n: string, s: Service, script: seq<Cmd>)
    requires n in os
    ensures ExecAll(os, RestoreCmds(n, s) + script) == ExecAll(os[n := Restored(s, os[n])], script)
  {
    ExecConcat(os, RestoreCmds(n, s), script);
    ExecForOne(os, n, RestoreCmds(n, s));
    RestoreOne(n, s, os[n]);
  }

  /// Restoring a snapshot over any later settings gives every service what
  /// `Restored` says and touches no other service.
  lemma {:induction false} RestoreAll(names: seq<string>, user: Settings, os: Settings)
    requires NoDuplicates(names) && Covers(names, user) && Covers(names, os)
    ensures var r := ExecAll(os, RestoreScript(SnapshotOf(names, user)));
            && r.Keys == os.Keys
            && (forall n | n in names :: r[n] == Restored(user[n], os[n]))
            && (forall n | n in os && n !in names :: r[n] == os[n])
    decreases |names|
  {
    if names != [] {
      RestoreFirst(names, user, os);
      assert names[0] !in names[1..];
      RestoreAll(names[1..], user, os[names[0] := Restored(user[names[0]], os[names[0]])]);
    }
  }

  lemma EnableFirst(names: seq<string>, os: Settings, host: string, port: nat, bypass: seq<string>)
    requires names != [] && Covers(names, os)
    ensures ExecAll(os, EnableScript(names, host, port, bypass)) ==
            ExecAll(os[names[0] := EnabledFor(host, port, bypass)], EnableScript(names[1..], host, port, bypass))
  {
    var n := names[0];
    ExecConcat(os, EnableCmds(n, host, port, bypass), EnableScript(names[1..], host, port, bypass));
    ExecForOne(os, n, EnableCmds(n, host, port, bypass));
    EnableOne(n, os[n], host, port, bypass);
  }

  lemma {:induction false} EnableAll(names: seq<string>, os: Settings, host: string, port: nat, bypass: seq<string>)
    requires Covers(names, os)
    ensures var r := ExecAll(os, EnableScript(names, host, port, bypass));
            && r.Keys == os.Keys
            && (forall n | n in names ::
                  && r[n] == EnabledFor(host, port, bypass)
                  && r[n].web == Proxy(true, Some(host), Some(port)) && r[n].secure == r[n].web
                  && (bypass != ["Empty"] ==> r[n].bypass == bypass))
            && (forall n | n in os && n !in names :: r[n] == os[n])
    decreases |names|
  {
    if names != [] {
      EnableFirst(names, os, host, port, bypass);
      EnableAll(names[1..], os[names[0] := EnabledFor(host, port, bypass)], host, port, bypass);
    }
  }

  lemma DisableOne(name: string, was: Service)
    ensures ExecOnAll(was, DisableCmds(name)) == was.(web := was.web.(enabled := false), secure := was.secure.(enabled := false))
  {
    TwoCmds(was, WebState(name, false), SecureState(name, false));
  }

  /// Switching off leaves both proxies of every listed service off, everything else
  /// about them as it was, and no other service touched.
  lemma {:induction false} DisableAll(names: seq<string>, os: Settings)
    requires Covers(names, os)
    ensures var r := ExecAll(os, DisableScript(names));
            && r.Keys == os.Keys
            && (forall n | n in names ::
                  && !r[n].web.enabled && !r[n].secure.enabled && r[n].bypass == os[n].bypass
                  && r[n].web.server == os[n].web.server && r[n].web.port == os[n].web.port
                  && r[n].secure.server == os[n].secure.server && r[n].secure.port == os[n].secure.port)
            && (forall n | n in os && n !in names :: r[n] == os[n])
    decreases |names|
  {
    if names != [] {
      var n := names[0];
      var next := os[n := os[n].(web := os[n].web.(enabled := false), secure := os[n].secure.(enabled := false))];
      ExecConcat(os, DisableCmds(n), DisableScript(names[1..]));
      ExecForOne(os, n, DisableCmds(n));
      DisableOne(n, os[n]);
      DisableAll(names[1..], next);
    }
  }

  // ----- Having the same effect -----

  predicate SameProxy(a: Proxy, b: Proxy) {
    a.enabled == b.enabled && (a.enabled ==> a.server == b.server && a.port == b.port)
  }

  /// Equal flags, equal server and port where enabled, equal bypass lists.
  predicate SameService(a: Service, b: Service) {
    SameProxy(a.web, b.web) && SameProxy(a.secure, b.secure) && a.bypass == b.bypass
  }

  predicate SameEffect(names: seq<string>, a: Settings, b: Settings)
    requires Covers(names, a) && Covers(names, b)
  {
    forall n | n in names :: SameService(a[n], b[n])
  }

  predicate RestorableProxy(p: Proxy) {
    p.enabled ==> p.server.Some? && p.port.Some?
  }

  /// An enabled proxy has a server and a port, and the bypass list is not the
  /// keyword that means an empty one.
  predicate Restorable(s: Service) {
    RestorableProxy(s.web) && RestorableProxy(s.secure) && s.bypass != ["Empty"]
  }

  /// Whatever happened to the settings since the snapshot, restoring it brings
  /// back their effect exactly when every service was restorable.
  lemma RestoreUndoesIff(names: seq<string>, user: Settings, os: Settings)
    requires NoDuplicates(names) && Covers(names, user) && Covers(names, os)
    ensures var r := ExecAll(os, RestoreScript(SnapshotOf(names, user)));
            Covers(names, r) && (SameEffect(names, r, user) <==> forall n | n in names :: Restorable(user[n]))
  {
    RestoreAll(names, user, os);
    forall n | n in names ensures SameService(Restored(user[n], os[n]), user[n]) <==> Restorable(user[n]) {
    }
  }

  /// The proxy is put back as it was: it was on, with a server and a port, or off
  /// with the server and the port that it has now.
  predicate ExactProxy(user: Proxy, now: Proxy) {
    if user.enabled then user.server.Some? && user.port.Some? else now.server == user.server && now.port == user.port
  }

  predicate ExactService(user: Service, now: Service) {
    ExactProxy(user.web, now.web) && ExactProxy(user.secure, now.secure) && user.bypass != ["Empty"]
  }

  /// Restoring gives back the very settings of the snapshot exactly when every
  /// proxy that was on had a server and a port, every other has its old ones
  /// still, and no bypass list was the keyword.
  lemma RestoreIsExactIff(names: seq<string>, user: Settings, os: Settings)
    requires NoDuplicates(names) && Covers(names, user) && Covers(names, os)
    ensures var r := ExecAll(os, RestoreScript(SnapshotOf(names, user)));
            && Covers(names, r)
            && ((forall n | n in names :: r[n] == user[n]) <==> forall n | n in names :: ExactService(user[n], os[n]))
  {
    RestoreAll(names, user, os);
    forall n | n in names ensures Restored(user[n], os[n]) == user[n] <==> ExactService(user[n], os[n]) {
    }
  }

  /// What is left of a proxy that was off: hamsy's server and port, switched off.
  predicate LeftAsHamsys(user: Proxy, restored: Proxy, host: string, port: nat) {
    && restored == Proxy(false, Some(host), Some(port))
    && (restored == user <==> user.server == Some(host) && user.port == Some(port))
  }

  /// So after an enable the settings of a proxy that was off, web or secure, come
  /// back exactly only if they were hamsy's.
  lemma OffServersAreNotRestored(names: seq<string>, user: Settings, host: string, port: nat, bypass: seq<string>, n: string)
    requires NoDuplicates(names) && Covers(names, user) && n in names
    ensures var os := ExecAll(user, EnableScript(names, host, port, bypass));
            var r := ExecAll(os, RestoreScript(SnapshotOf(names, user)));
            && n in r
            && (!user[n].web.enabled ==> LeftAsHamsys(user[n].web, r[n].web, host, port))
            && (!user[n].secure.enabled ==> LeftAsHamsys(user[n].secure, r[n].secure, host, port))
  {
    var os := ExecAll(user, EnableScript(names, host, port, bypass));
    EnableAll(names, user, host, port, bypass);
    assert Covers(names, os);
    RestoreAll(names, user, os);
  }

  // ----- Part of the way -----

  /// The commands for one service.
  function CmdsFor(name: string, cmds: seq<Cmd>): seq<Cmd> {
    if cmds == [] then [] else (if cmds[0].name == name then [cmds[0]] else []) + CmdsFor(name, cmds[1..])
  }

  lemma {:induction false} CmdsForConcat(name: string, a: seq<Cmd>, b: seq<Cmd>)
    ensures CmdsFor(name, a + b) == CmdsFor(name, a) + CmdsFor(name, b)
  {
    if a == [] {
      assert a + b == b;
    } else {
      assert (a + b)[1..] == a[1..] + b;
      CmdsForConcat(name, a[1..], b);
      var head, later := if a[0].name == name then [a[0]] else [], CmdsFor(name, a[1..]);
      assert head + (later + CmdsFor(name, b)) == head + later + CmdsFor(name, b);
    }
  }

  lemma {:induction false} CmdsForBlock(name: string, owner: string, cmds: seq<Cmd>)
    requires AllFor(owner, cmds)
    ensures CmdsFor(name, cmds) == if name == owner then cmds else []
  {
    if cmds != [] {
      assert cmds[0] in cmds && AllFor(owner, cmds[1..]);
      CmdsForBlock(name, owner, cmds[1..]);
    }
  }

  /// A service sees the commands for it and no others.
  lemma {:induction false} ServiceSees(os: Settings, cmds: seq<Cmd>, name: string)
    requires name in os
    ensures name in ExecAll(os, cmds) && ExecAll(os, cmds)[name] == ExecOnAll(os[name], CmdsFor(name, cmds))
    decreases |cmds|
  {
    if cmds != [] {
      ServiceSees(Exec(os, cmds[0]), cmds[1..], name);
      var rest := CmdsFor(name, cmds[1..]);
      assert ([cmds[0]] + rest)[1..] == rest && [] + rest == rest;
    }
  }

  /// Some commands for each service, one service after the other.
  function Joined(names: seq<string>, cmdsOf: map<string, seq<Cmd>>): seq<Cmd>
    requires forall n | n in names :: n in cmdsOf
  {
    if names == [] then [] else cmdsOf[names[0]] + Joined(names[1..], cmdsOf)
  }

  predicate Blocks(names: seq<string>, cmdsOf: map<string, seq<Cmd>>) {
    forall n | n in names :: n in cmdsOf && AllFor(n, cmdsOf[n])
  }

  lemma {:induction false} CmdsForOther(names: seq<string>, cmdsOf: map<string, seq<Cmd>>, name: string, k: nat)
    requires Blocks(names, cmdsOf) && name !in names && k <= |Joined(names, cmdsOf)|
    ensures CmdsFor(name, Joined(names, cmdsOf)[..k]) == []
  {
    if names != [] {
      var first, rest := cmdsOf[names[0]], Joined(names[1..], cmdsOf);
      if k <= |first| {
        assert (first + rest)[..k] == first[..k];
        CmdsForBlock(name, names[0], first[..k]);
      } else {
        assert (first + rest)[..k] == first + rest[..k - |first|];
        CmdsForConcat(name, first, rest[..k - |first|]);
        CmdsForBlock(name, names[0], first);
        CmdsForOther(names[1..], cmdsOf, name, k - |first|);
      }
    }
  }

  /// Of the first `k` commands, those for a service are the first of its own.
  lemma {:induction false} PartOfOwn(names: seq<string>, cmdsOf: map<string, seq<Cmd>>, name: string, k: nat)
    requires Blocks(names, cmdsOf) && NoDuplicates(names) && name in names && k <= |Joined(names, cmdsOf)|
    ensures CmdsFor(name, Joined(names, cmdsOf)[..k]) <= cmdsOf[name]
  {
    var first, rest := cmdsOf[names[0]], Joined(names[1..], cmdsOf);
    if k <= |first| {
      assert (first + rest)[..k] == first[..k];
      CmdsForBlock(name, names[0], first[..k]);
    } else {
      assert (first + rest)[..k] == first + rest[..k - |first|];
      CmdsForConcat(name, first, rest[..k - |first|]);
      CmdsForBlock(name, names[0], first);
      if name == names[0] {
        CmdsForOther(names[1..], cmdsOf, name, k - |first|);
      } else {
        PartOfOwn(names[1..], cmdsOf, name, k - |first|);
      }
    }
  }

  /// A service that the first `j` commands of its enabling have reached.
  function EnabledPart(was: Service, host: string, port: nat, bypass: seq<string>, j: nat): Service {
    var to := EnabledFor(host, port, bypass);
    Service(if j >= 1 then to.web else was.web, if j >= 2 then to.secure else was.secure,
            if j >= 3 then to.bypass else was.bypass)
  }

  lemma {:induction false} EnablePart(name: string, was: Service, host: string, port: nat, bypass: seq<string>, j: nat)
    requires j <= 5
    ensures ExecOnAll(was, EnableCmds(name, host, port, bypass)[..j]) == EnabledPart(was, host, port, bypass, j)
  {
    if j > 0 {
      var cmds := EnableCmds(name, host, port, bypass);
      assert cmds[..j] == cmds[..j - 1] + [cmds[j - 1]];
      ExecOnConcat(was, cmds[..j - 1], [cmds[j - 1]]);
      EnablePart(name, was, host, port, bypass, j - 1);
      OneCmd(ExecOnAll(was, cmds[..j - 1]), cmds[j - 1]);
    }
  }

  /// A service that the first `j` commands of its restoring have reached: one
  /// command of a proxy already puts it right.
  function RestoredPart(name: string, s: Service, was: Service, j: nat): Service {
    var to := Restored(s, was);
    Service(if j >= 2 then to.web else was.web,
            if j >= 2 + |RestoreWeb(name, s.web)| then to.secure else was.secure,
            if j >= 1 then to.bypass else was.bypass)
  }

  lemma {:induction false} RestorePart(name: string, s: Service, was: Service, j: nat)
    requires j <= |RestoreCmds(name, s)|
    ensures ExecOnAll(was, RestoreCmds(name, s)[..j]) == RestoredPart(name, s, was, j)
  {
    if j > 0 {
      var cmds := RestoreCmds(name, s);
      assert cmds[..j] == cmds[..j - 1] + [cmds[j - 1]];
      ExecOnConcat(was, cmds[..j - 1], [cmds[j - 1]]);
      RestorePart(name, s, was, j - 1);
      OneCmd(ExecOnAll(was, cmds[..j - 1]), cmds[j - 1]);
    }
  }

  function EnableBlocks(names: seq<string>, host: string, port: nat, bypass: seq<string>): map<string, seq<Cmd>> {
    map n | n in names :: EnableCmds(n, host, port, bypass)
  }

  function RestoreBlocks(names: seq<string>, user: Settings): map<string, seq<Cmd>>
    requires Covers(names, user)
  {
    map n | n in names :: RestoreCmds(n, user[n])
  }

  lemma {:induction false} EnableIsJoined(names: seq<string>, host: string, port: nat, bypass: seq<string>, all: seq<string>)
    requires forall n | n in names :: n in all
    ensures EnableScript(names, host, port, bypass) == Joined(names, EnableBlocks(all, host, port, bypass))
  {
    if names != [] {
      EnableIsJoined(names[1..], host, port, bypass, all);
    }
  }

  lemma {:induction false} RestoreIsJoined(names: seq<string>, user: Settings, all: seq<string>)
    requires Covers(all, user) && forall n | n in names :: n in all
    ensures RestoreScript(SnapshotOf(names, user)) == Joined(names, RestoreBlocks(all, user))
  {
    if names != [] {
      RestoreIsJoined(names[1..], user, all);
      assert SnapshotOf(names, user)[1..] == SnapshotOf(names[1..], user);
    }
  }

  /// How many commands for a service there are.
  function Reached(name: string, cmds: seq<Cmd>): nat {
    |CmdsFor(name, cmds)|
  }

  lemma EnableCmdsAreOwn(n: string, host: string, port: nat, bypass: seq<string>)
    ensures AllFor(n, EnableCmds(n, host, port, bypass))
  {
    var cmds := EnableCmds(n, host, port, bypass);
    assert cmds[0].name == cmds[1].name == cmds[2].name == cmds[3].name == cmds[4].name == n;
  }

  lemma EnableBlocksAreOwn(names: seq<string>, host: string, port: nat, bypass: seq<string>)
    ensures Blocks(names, EnableBlocks(names, host, port, bypass))
  {
    forall n | n in names ensures AllFor(n, EnableCmds(n, host, port, bypass)) {
      EnableCmdsAreOwn(n, host, port, bypass);
    }
  }

  lemma EnableOwn(names: seq<string>, host: string, port: nat, bypass: seq<string>, k: nat, n: string)
    requires NoDuplicates(names) && n in names && k <= |EnableScript(names, host, port, bypass)|
    ensures CmdsFor(n, EnableScript(names, host, port, bypass)[..k]) <= EnableCmds(n, host, port, bypass)
  {
    EnableIsJoined(names, host, port, bypass, names);
    EnableBlocksAreOwn(names, host, port, bypass);
    PartOfOwn(names, EnableBlocks(names, host, port, bypass), n, k);
  }

  lemma RestoreBlocksAreOwn(names: seq<string>, user: Settings)
    requires Covers(names, user)
    ensures Blocks(names, RestoreBlocks(names, user))
  {
    forall n | n in names ensures AllFor(n, RestoreCmds(n, user[n])) {
    }
  }

  lemma RestoreOwn(names: seq<string>, user: Settings, k: nat, n: string)
    requires NoDuplicates(names) && Covers(names, user) && n in names && k <= |RestoreScript(SnapshotOf(names, user))|
    ensures CmdsFor(n, RestoreScript(SnapshotOf(names, user))[..k]) <= RestoreCmds(n, user[n])
  {
    RestoreIsJoined(names, user, names);
    RestoreBlocksAreOwn(names, user);
    PartOfOwn(names, RestoreBlocks(names, user), n, k);
  }

  /// What the first `k` commands of enabling leave of each service.
  lemma EnablingLeaves(names: seq<string>, os: Settings, host: string, port: nat, bypass: seq<string>, k: nat, n: string)
    requires NoDuplicates(names) && n in names && n in os && k <= |EnableScript(names, host, port, bypass)|
    ensures var cmds := EnableScript(names, host, port, bypass)[..k];
            && n in ExecAll(os, cmds)
            && ExecAll(os, cmds)[n] == EnabledPart(os[n], host, port, bypass, Reached(n, cmds))
  {
    var cmds, own := EnableScript(names, host, port, bypass)[..k], EnableCmds(n, host, port, bypass);
    EnableOwn(names, host, port, bypass, k, n);
    ServiceSees(os, cmds, n);
    PrefixIsTake(CmdsFor(n, cmds), own);
    EnablePart(n, os[n], host, port, bypass, Reached(n, cmds));
  }

  /// What the first `k` commands of restoring leave of each service.
  lemma RestoringLeaves(names: seq<string>, user: Settings, os: Settings, k: nat, n: string)
    requires NoDuplicates(names) && Covers(names, user) && n in names && n in os && k <= |RestoreScript(SnapshotOf(names, user))|
    ensures var cmds := RestoreScript(SnapshotOf(names, user))[..k];
            && n in ExecAll(os, cmds)
            && ExecAll(os, cmds)[n] == RestoredPart(n, user[n], os[n], Reached(n, cmds))
  {
    var cmds, own := RestoreScript(SnapshotOf(names, user))[..k], RestoreCmds(n, user[n]);
    RestoreOwn(names, user, k, n);
    ServiceSees(os, cmds, n);
    PrefixIsTake(CmdsFor(n, cmds), own);
    RestorePart(n, user[n], os[n], Reached(n, cmds));
  }

  lemma PrefixIsTake(a: seq<Cmd>, b: seq<Cmd>)
    requires a <= b
    ensures a == b[..|a|]
  {
  }

  // ----- The operations, command by command -----

  class NetworkSetup {
    const names: seq<string>
    var services: Settings

    constructor (names: seq<string>, services: Settings)
      ensures this.names == names && this.services == services
    {
      this.names, this.services := names, services;
    }

    method Run(cmd: Cmd)
      modifies this
      ensures services == Exec(old(services), cmd)
    {
      if cmd.name in services {
        services := services[cmd.name := ExecOn(services[cmd.name], cmd)];
      }
    }

    /// `enable`; false is the error of having no service.
    method Enable(host: string, port: nat, bypass: seq<string>) returns (ok: bool)
      modifies this
      ensures ok <==> names != []
      ensures services == ExecAll(old(services), EnableScript(names, host, port, bypass))
    {
      if names == [] {
        return false;
      }
      for i := 0 to |names|
        invariant ExecAll(services, EnableScript(names[i..], host, port, bypass)) ==
                  ExecAll(old(services), EnableScript(names, host, port, bypass))
      {
        ghost var before := services;
        ghost var later := EnableScript(names[i..][1..], host, port, bypass);
        ExecConcat(before, EnableCmds(names[i], host, port, bypass), later);
        assert names[i..][1..] == names[i + 1..];
        Run(SetWeb(names[i], host, port));
        Run(SetSecure(names[i], host, port));
        Run(SetBypass(names[i], BypassArgs(bypass)));
        Run(WebState(names[i], true));
        Run(SecureState(names[i], true));
        FiveCmds(before, EnableCmds(names[i], host, port, bypass));
      }
      ok := true;
    }

    method Disable()
      modifies this
      ensures services == ExecAll(old(services), DisableScript(names))
    {
      for i := 0 to |names|
        invariant ExecAll(services, DisableScript(names[i..])) == ExecAll(old(services), DisableScript(names))
      {
        ghost var before := services;
        ExecConcat(before, DisableCmds(names[i]), DisableScript(names[i..][1..]));
        assert names[i..][1..] == names[i + 1..];
        Run(WebState(names[i], false));
        Run(SecureState(names[i], false));
        ExecTwo(before, WebState(names[i], false), SecureState(names[i], false));
      }
    }

    method Snapshot() returns (snap: Snapshot)
      requires Covers(names, services)
      ensures snap == SnapshotOf(names, services)
    {
      snap := [];
      for i := 0 to |names|
        invariant snap + SnapshotOf(names[i..], services) == SnapshotOf(names, services)
      {
        assert names[i..][1..] == names[i + 1..];
        snap := snap + [(names[i], services[names[i]])];
      }
    }

    method RestoreProxyOf(name: string, p: Proxy, secure: bool)
      modifies this
      ensures services == ExecAll(old(services), if secure then RestoreSecure(name, p) else RestoreWeb(name, p))
    {
      ghost var before := services;
      if p.enabled {
        if p.server.Some? && p.port.Some? {
          var target := if secure then SetSecure(name, p.server.value, p.port.value) else SetWeb(name, p.server.value, p.port.value);
          var on := if secure then SecureState(name, true) else WebState(name, true);
          Run(target);
          Run(on);
          ExecTwo(before, target, on);
          return;
        }
      }
      var off := if secure then SecureState(name, false) else WebState(name, false);
      Run(off);
      ExecOne(before, off);
    }

    /// `restore`.
    method Restore(snap: Snapshot)
      modifies this
      ensures services == ExecAll(old(services), RestoreScript(snap))
    {
      for i := 0 to |snap|
        invariant ExecAll(services, RestoreScript(snap[i..])) == ExecAll(old(services), RestoreScript(snap))
      {
        ghost var before := services;
        var (name, s) := snap[i];
        var bypass := SetBypass(name, BypassArgs(s.bypass));
        ExecConcat(before, RestoreCmds(name, s), RestoreScript(snap[i..][1..]));
        ExecConcat(before, [bypass] + RestoreWeb(name, s.web), RestoreSecure(name, s.secure));
        ExecConcat(before, [bypass], RestoreWeb(name, s.web));
        assert snap[i..][1..] == snap[i + 1..];
        Run(bypass);
        ExecOne(before, bypass);
        RestoreProxyOf(name, s.web, false);
        RestoreProxyOf(name, s.secure, true);
      }
    }
  }

  lemma ExecOne(os: Settings, a: Cmd)
    ensures ExecAll(os, [a]) == Exec(os, a)
  {
    assert [a][1..] == [];
  }

  lemma ExecTwo(os: Settings, a: Cmd, b: Cmd)
    ensures ExecAll(os, [a, b]) == Exec(Exec(os, a), b)
  {
    assert [a, b][1..] == [b];
    ExecOne(Exec(os, a), b);
  }

  lemma FiveCmds(os: Settings, cmds: seq<Cmd>)
    requires |cmds| == 5
    ensures ExecAll(os, cmds) == Exec(Exec(Exec(Exec(Exec(os, cmds[0]), cmds[1]), cmds[2]), cmds[3]), cmds[4])
  {
    assert cmds == [cmds[0], cmds[1]] + ([cmds[2]] + [cmds[3], cmds[4]]);
    ExecConcat(os, [cmds[0], cmds[1]], [cmds[2]] + [cmds[3], cmds[4]]);
    ExecTwo(os, cmds[0], cmds[1]);
    var two := Exec(Exec(os, cmds[0]), cmds[1]);
    ExecConcat(two, [cmds[2]], [cmds[3], cmds[4]]);
    ExecOne(two, cmds[2]);
    ExecTwo(Exec(two, cmds[2]), cmds[3], cmds[4]);
  }
}
