/// The certificate cache of `crates/hamsy-proxy/src/ca.rs`. Signing and building
/// a server configuration are foreign: each call is given what they come to.

module CertCache {
  import opened Common
  import opened Tokens
  import Utf8

  const MAX_HOST_LEN := 255

  datatype Cert = Cert(serial: nat, host: string)

  /// A shared server configuration; the id tells one `Arc` from another.
  datatype Config = Config(id: nat, cert: Cert, alpn: seq<Bytes>)

  datatype HostEntry = HostEntry(minted: Cert, configs: seq<(seq<Bytes>, Config)>)

  datatype Failure = BadHost | MintFailed | BuildFailed | InvariantViolated

  // ----- The recency list -----

  /// Hosts by last use: the reference for the cache's order.
  function Recency<T(==)>(history: seq<T>): seq<T> {
    if history == [] then []
    else
      var last := history[|history| - 1];
      Without(Recency(history[..|history| - 1]), last) + [last]
  }

  function LastN<T>(s: seq<T>, n: nat): seq<T> {
    if |s| <= n then s else s[|s| - n..]
  }

  lemma WithoutLast<T>(s: seq<T>, x: T)
    requires x !in s
    ensures Without(s + [x], x) == s
  {
    WithoutConcat(s, [x], x);
    WithoutAbsent(s, x);
    assert [x][1..] == [];
    assert Without([x], x) == [];
  }

  lemma NoDuplicatesSnoc<T>(s: seq<T>, x: T)
    requires NoDuplicates(s) && x !in s
    ensures NoDuplicates(s + [x])
  {
  }

  lemma {:induction false} RecencyIsValid<T>(history: seq<T>)
    ensures NoDuplicates(Recency(history))
    ensures forall x :: x in Recency(history) <==> x in history
  {
    if history != [] {
      var last, before := history[|history| - 1], history[..|history| - 1];
      RecencyIsValid(before);
      WithoutHasNoDuplicates(Recency(before), last);
      WithoutMembers(Recency(before), last);
      NoDuplicatesSnoc(Without(Recency(before), last), last);
      assert history == before + [last];
    }
  }

  lemma RecencySnoc<T>(history: seq<T>, x: T)
    ensures Recency(history + [x]) == Without(Recency(history), x) + [x]
  {
    assert (history + [x])[..|history|] == history;
  }

  /// Splitting a list without repeats at one of its elements.
  lemma WithoutMiddle<T>(a: seq<T>, x: T, b: seq<T>)
    requires x !in a && x !in b
    ensures Without(a + [x] + b, x) == a + b
  {
    WithoutConcat(a + [x], b, x);
    WithoutLast(a, x);
    WithoutAbsent(b, x);
  }

  lemma Around<T>(s: seq<T>, x: T) returns (a: seq<T>, b: seq<T>)
    requires x in s && NoDuplicates(s)
    ensures s == a + [x] + b && x !in a && x !in b
  {
    var i :| 0 <= i < |s| && s[i] == x;
    a, b := s[..i], s[i + 1..];
    assert forall j | 0 <= j < |a| :: a[j] == s[j];
    assert forall j | 0 <= j < |b| :: b[j] == s[i + 1 + j];
  }

  lemma LastNMembers<T>(s: seq<T>, n: nat)
    ensures forall x | x in LastN(s, n) :: x in s
  {
  }

  lemma LastNOfConcat<T>(a: seq<T>, b: seq<T>, n: nat)
    ensures LastN(a + b, n) == if |b| > n then LastN(b, n) else LastN(a, n - |b|) + b
  {
  }

  lemma LastNTwice<T>(s: seq<T>, x: T, n: nat)
    ensures n >= 1 ==> LastN(LastN(s, n) + [x], n) == LastN(s + [x], n)
  {
  }

  /// Using a host and keeping the last `n` is the same before and after.
  lemma LastNOfUse<T>(r: seq<T>, n: nat, x: T)
    requires NoDuplicates(r) && n >= 1
    ensures LastN(Without(r, x) + [x], n) ==
            if x in LastN(r, n) then Without(LastN(r, n), x) + [x] else LastN(LastN(r, n) + [x], n)
  {
    LastNMembers(r, n);
    if x !in r {
      WithoutAbsent(r, x);
      LastNTwice(r, x, n);
    } else {
      var a, b := Around(r, x);
      WithoutMiddle(a, x, b);
      assert a + [x] + b == a + ([x] + b) && a + b + [x] == a + (b + [x]);
      LastNOfConcat(a, [x] + b, n);
      LastNOfConcat(a, b + [x], n);
      if |b| < n {
        UsedInside(a, b, n, x);
      } else {
        UsedOutside(b, n, x);
      }
    }
  }

  lemma UsedInside<T>(a: seq<T>, b: seq<T>, n: nat, x: T)
    requires x !in a && x !in b && |b| < n
    ensures var kept := LastN(a, n - 1 - |b|) + ([x] + b);
            x in kept && Without(kept, x) + [x] == LastN(a, n - 1 - |b|) + (b + [x])
  {
    var a' := LastN(a, n - 1 - |b|);
    LastNMembers(a, n - 1 - |b|);
    assert a' + ([x] + b) == a' + [x] + b;
    WithoutMiddle(a', x, b);
    assert (a' + [x] + b)[|a'|] == x;
  }

  lemma UsedOutside<T>(b: seq<T>, n: nat, x: T)
    requires x !in b && |b| >= n >= 1
    ensures LastN([x] + b, n) == LastN(b, n) && x !in LastN(b, n)
    ensures LastN(b + [x], n) == LastN(LastN(b, n) + [x], n)
  {
    LastNMembers(b, n);
    LastNTwice(b, x, n);
  }

  // ----- The cache -----

  datatype State = State(entries: map<string, HostEntry>, order: seq<string>)

  /// Map and order hold the same hosts, each once, no more than fit.
  ghost predicate ValidState(st: State, capacity: nat) {
    NoDuplicates(st.order) && |st.order| <= capacity && SameHosts(st)
  }

  ghost predicate SameHosts(st: State) {
    forall h :: h in st.order <==> h in st.entries
  }

  /// The eviction loop: the oldest go until the rest fit.
  function Evicted(st: State, capacity: nat): State
    decreases |st.order|
  {
    if |st.order| <= capacity then st
    else Evicted(State(st.entries - {st.order[0]}, st.order[1..]), capacity)
  }

  /// `get_or_mint`; `minted` is what minting comes to if it is asked for.
  function Accessed(st: State, capacity: nat, host: string, minted: Option<Cert>): (State, Result<HostEntry, Failure>) {
    if host in st.entries then (State(st.entries, Without(st.order, host) + [host]), Ok(st.entries[host]))
    else if minted.None? then (st, Err(MintFailed))
    else
      var st' := Evicted(State(st.entries[host := HostEntry(minted.value, [])], st.order + [host]), capacity);
      (st', if host in st'.entries then Ok(st'.entries[host]) else Err(InvariantViolated))
  }

  lemma {:induction false} EvictedIs(st: State, capacity: nat)
    requires NoDuplicates(st.order) && SameHosts(st)
    ensures var st' := Evicted(st, capacity);
            && ValidState(st', capacity) && st'.order == LastN(st.order, capacity)
            && (forall h | h in st'.entries :: h in st.entries && st'.entries[h] == st.entries[h])
    decreases |st.order|
  {
    if |st.order| > capacity {
      var next := State(st.entries - {st.order[0]}, st.order[1..]);
      assert SameHosts(next) by {
        assert st.order == [st.order[0]] + next.order;
      }
      EvictedIs(next, capacity);
    }
  }

  lemma HitKeepsValid(st: State, capacity: nat, host: string)
    requires ValidState(st, capacity) && host in st.entries
    ensures ValidState(State(st.entries, Without(st.order, host) + [host]), capacity)
  {
    var a, b := Around(st.order, host);
    WithoutMiddle(a, host, b);
    WithoutHasNoDuplicates(st.order, host);
    WithoutMembers(st.order, host);
    NoDuplicatesSnoc(Without(st.order, host), host);
  }

  /// The state before the eviction loop of a miss.
  function Grown(st: State, host: string, minted: Cert): State {
    State(st.entries[host := HostEntry(minted, [])], st.order + [host])
  }

  lemma MissKeepsValid(st: State, capacity: nat, host: string, minted: Cert)
    requires ValidState(st, capacity) && host !in st.entries
    ensures var st' := Evicted(Grown(st, host, minted), capacity);
            && ValidState(st', capacity) && (host in st'.entries <==> capacity > 0)
            && st'.order == LastN(st.order + [host], capacity)
            && forall h | h in st'.entries :: h in Grown(st, host, minted).entries
                                             && st'.entries[h] == Grown(st, host, minted).entries[h]
  {
    NoDuplicatesSnoc(st.order, host);
    assert SameHosts(Grown(st, host, minted));
    EvictedIs(Grown(st, host, minted), capacity);
    if capacity > 0 {
      var kept := LastN(st.order + [host], capacity);
      assert kept[|kept| - 1] == host;
    }
  }

  /// What one access does, whatever the state: hits and misses keep every other
  /// resident entry as it is or evict it, a failed mint changes nothing, and the
  /// host asked for is there afterwards if the cache can hold any host.
  lemma AccessKeepsValid(st: State, capacity: nat, host: string, minted: Option<Cert>)
    requires ValidState(st, capacity)
    ensures var (st', r) := Accessed(st, capacity, host, minted);
            && ValidState(st', capacity)
            && (r == Err(MintFailed) <==> host !in st.entries && minted.None?)
            && (r == Err(InvariantViolated) <==> host !in st.entries && minted.Some? && capacity == 0)
            && (r == Err(MintFailed) ==> st' == st)
            && (r.Ok? ==> host in st'.entries && st'.entries[host] == r.value && EndsWith(st'.order, host))
            && (r.Ok? ==> r.value == if host in st.entries then st.entries[host] else HostEntry(minted.value, []))
            && (forall h | h in st'.entries && h != host :: h in st.entries && st'.entries[h] == st.entries[h])
  {
    if host in st.entries {
      HitKeepsValid(st, capacity, host);
    } else if minted.Some? {
      MissKeepsValid(st, capacity, host, minted.value);
    }
  }

  predicate EndsWith(order: seq<string>, host: string) {
    order != [] && order[|order| - 1] == host
  }

  /// The order is the last `capacity` of the hosts by last use.
  lemma AccessKeepsRecency(st: State, capacity: nat, host: string, minted: Option<Cert>, history: seq<string>)
    requires ValidState(st, capacity) && capacity >= 1 && st.order == LastN(Recency(history), capacity)
    requires host in st.entries || minted.Some?
    ensures Accessed(st, capacity, host, minted).0.order == LastN(Recency(history + [host]), capacity)
  {
    RecencySnoc(history, host);
    RecencyIsValid(history);
    LastNOfUse(Recency(history), capacity, host);
    if host !in st.entries {
      MissKeepsValid(st, capacity, host, minted.value);
    }
  }

  lemma {:induction false} RecencyOfLater<T>(a: seq<T>, x: T, b: seq<T>) returns (front: seq<T>)
    requires x !in b
    ensures Recency(a + [x] + b) == front + [x] + Recency(b)
    decreases |b|
  {
    if b == [] {
      RecencySnoc(a, x);
      front := Without(Recency(a), x);
      assert a + [x] + [] == a + [x];
    } else {
      var last, before := b[|b| - 1], b[..|b| - 1];
      assert b == before + [last] && a + [x] + b == (a + [x] + before) + [last];
      front := RecencyOfLater(a, x, before);
      RecencySnoc(a + [x] + before, last);
      WithoutConcat(front + [x], Recency(before), last);
      WithoutConcat(front, [x], last);
      WithoutAbsent([x], last);
      front := Without(front, last);
      assert (front + [x] + Without(Recency(before), last)) + [last] == front + [x] + (Without(Recency(before), last) + [last]);
    }
  }

  lemma NoDuplicatesSize<T>(s: seq<T>, members: set<T>)
    requires NoDuplicates(s) && forall x :: x in s <==> x in members
    ensures |s| == |members|
    decreases |s|
  {
    if s == [] {
      assert members == {};
    } else {
      var last := s[|s| - 1];
      assert s == s[..|s| - 1] + [last];
      NoDuplicatesSize(s[..|s| - 1], members - {last});
    }
  }

  function Members<T(==)>(s: seq<T>): set<T> {
    set x | x in s
  }

  /// A host last used before the accesses `later` is still among the last
  /// `capacity` exactly if fewer than `capacity` other hosts were used since.
  lemma ResidentIff(before: seq<string>, host: string, later: seq<string>, capacity: nat)
    requires host !in later
    ensures host in LastN(Recency(before + [host] + later), capacity) <==> |Members(later)| < capacity
  {
    var front := RecencyOfLater(before, host, later);
    var all := Recency(before + [host] + later);
    RecencyIsValid(later);
    RecencyIsValid(before + [host] + later);
    NoDuplicatesSize(Recency(later), Members(later));
    assert all[|front|] == host;
    if |Members(later)| < capacity {
      assert LastN(all, capacity)[|front| - (|all| - |LastN(all, capacity)|)] == host;
    } else {
      assert forall x | x in LastN(all, capacity) :: x in Recency(later) by {
        assert LastN(all, capacity) == LastN(Recency(later), capacity);
      }
    }
  }

  class HostCache {
    const capacity: nat
    var entries: map<string, HostEntry>
    var order: seq<string>
    ghost var history: seq<string>
    ghost var mints: seq<string>

    ghost function Now(): State
      reads this
    {
      State(entries, order)
    }

    ghost function Point(): Moment
      reads this
    {
      Moment(Now(), history)
    }

    /// The cache is a least-recently-used one over the accesses that succeeded.
    ghost predicate Valid()
      reads this
    {
      ValidState(Now(), capacity) && (capacity >= 1 ==> order == LastN(Recency(history), capacity))
    }

    constructor (capacity: nat)
      ensures Valid() && this.capacity == capacity && entries == map[] && history == [] && mints == []
    {
      this.capacity, entries, order, history, mints := capacity, map[], [], [], [];
    }

    method Touch(host: string)
      requires NoDuplicates(order)
      modifies this`order
      ensures order == Without(old(order), host) + [host]
    {
      ghost var was := order;
      var pos := 0;
      while pos < |order| && order[pos] != host
        invariant pos <= |order| && order == was && host !in order[..pos]
      {
        pos := pos + 1;
      }
      if pos < |order| {
        var a, b := order[..pos], order[pos + 1..];
        assert order == a + [host] + b;
        assert host !in b;
        WithoutMiddle(a, host, b);
        order := a + b;
      } else {
        WithoutAbsent(order, host);
      }
      order := order + [host];
    }

    /// Minting is asked for exactly when the host is not resident.
    method GetOrMint(host: string, minted: Option<Cert>) returns (r: Result<HostEntry, Failure>)
      requires Valid()
      modifies this
      ensures Valid()
      ensures (Now(), r) == Accessed(old(Now()), capacity, host, minted)
      ensures history == if r.Ok? then old(history) + [host] else old(history)
      ensures mints == if host in old(entries) then old(mints) else old(mints) + [host]
    {
      ghost var st := Now();
      assert ValidState(Accessed(st, capacity, host, minted).0, capacity) by {
        AccessKeepsValid(st, capacity, host, minted);
      }
      assert capacity >= 1 && Accessed(st, capacity, host, minted).1.Ok? ==>
          Accessed(st, capacity, host, minted).0.order == LastN(Recency(history + [host]), capacity) by {
        if capacity >= 1 && Accessed(st, capacity, host, minted).1.Ok? {
          AccessKeepsRecency(st, capacity, host, minted, history);
        }
      }
      if host in entries {
        Touch(host);
      } else {
        mints := mints + [host];
        if minted.None? {
          return Err(MintFailed);
        }
        entries := entries[host := HostEntry(minted.value, [])];
        order := order + [host];
        EvictLoop();
        if host !in entries {
          CapacityIsZero(st, host, minted.value);
          return Err(InvariantViolated);
        }
      }
      history := history + [host];
      r := Ok(entries[host]);
    }

    lemma CapacityIsZero(st: State, host: string, minted: Cert)
      requires ValidState(st, capacity) && host !in st.entries
      ensures host in Evicted(Grown(st, host, minted), capacity).entries <==> capacity > 0
    {
      MissKeepsValid(st, capacity, host, minted);
    }

    /// A resident host's entry is replaced through the reference handed out.
    method SetEntry(host: string, entry: HostEntry)
      requires Valid() && host in entries
      modifies this`entries
      ensures Valid() && Now() == State(old(entries)[host := entry], order)
    {
      entries := entries[host := entry];
    }

    method EvictLoop()
      modifies this`entries, this`order
      ensures Now() == Evicted(old(Now()), capacity)
    {
      while |order| > capacity
        invariant Evicted(Now(), capacity) == Evicted(old(Now()), capacity)
      {
        var oldest := order[0];
        order := order[1..];
        entries := entries - {oldest};
      }
    }
  }

  // ----- What the proxy asks for -----

  /// `sanitize_host`.
  function SanitizeHost(host: string): Result<string, Failure> {
    var t := Trim(host);
    var stripped := if |t| >= 2 && t[0] == '[' && t[|t| - 1] == ']' then t[1..|t| - 1] else t;
    if stripped == "" || |Utf8.Encode(stripped)| > MAX_HOST_LEN then Err(BadHost) else Ok(stripped)
  }

  const H2: Bytes := [0x68, 0x32]
  const HTTP11: Bytes := [0x68, 0x74, 0x74, 0x70, 0x2F, 0x31, 0x2E, 0x31]

  /// `restrict_alpn`: the protocols the proxy speaks, in the client's order.
  function RestrictAlpn(offered: seq<Bytes>): seq<Bytes> {
    Filter((p: Bytes) => p == H2 || p == HTTP11, offered)
  }

  /// White space around a host and one pair of brackets do not count; what is left
  /// is the name, unless it is empty or longer than 255 bytes.
  lemma SanitizedIs(host: string, name: string)
    requires Trim(host) == "[" + name + "]" || (Trim(host) == name && !("[" <= name && |name| >= 2 && name[|name| - 1] == ']'))
    ensures SanitizeHost(host) == if name == "" || |Utf8.Encode(name)| > 255 then Err(BadHost) else Ok(name)
  {
    if Trim(host) == "[" + name + "]" {
      assert ("[" + name + "]")[1..|name| + 1] == name;
    }
  }

  /// Exactly the offers of `h2` and `http/1.1` are left, in the client's order.
  lemma RestrictedIs(offered: seq<Bytes>) returns (at: seq<nat>)
    ensures |at| == |RestrictAlpn(offered)| && forall a, b | 0 <= a < b < |at| :: at[a] < at[b]
    ensures forall k | 0 <= k < |at| :: at[k] < |offered| && RestrictAlpn(offered)[k] == offered[at[k]]
    ensures forall i: nat | i < |offered| ::
              i in at <==> offered[i] == Utf8.Encode("h2") || offered[i] == Utf8.Encode("http/1.1")
  {
    at := FilterPicks((p: Bytes) => p == H2 || p == HTTP11, offered);
    NamesAreAscii();
  }

  lemma NamesAreAscii()
    ensures Utf8.Encode("h2") == H2 && Utf8.Encode("http/1.1") == HTTP11
  {
    AsciiIs("h2");
    AsciiIs("http/1.1");
  }

  lemma {:induction false} AsciiIs(s: string)
    requires forall i | 0 <= i < |s| :: s[i] < '\U{0080}'
    ensures |Utf8.Encode(s)| == |s| && forall i | 0 <= i < |s| :: Utf8.Encode(s)[i] == s[i] as int
  {
    if s != "" {
      AsciiIs(s[1..]);
    }
  }

  function FindConfig(configs: seq<(seq<Bytes>, Config)>, alpn: seq<Bytes>): Option<Config> {
    if configs == [] then None
    else if configs[0].0 == alpn then Some(configs[0].1)
    else FindConfig(configs[1..], alpn)
  }

  lemma {:induction false} FindConfigSnoc(configs: seq<(seq<Bytes>, Config)>, alpn: seq<Bytes>, c: Config, other: seq<Bytes>)
    requires FindConfig(configs, alpn).None?
    ensures FindConfig(configs + [(alpn, c)], other) == if other == alpn then Some(c) else FindConfig(configs, other)
  {
    if configs == [] {
      assert [(alpn, c)][1..] == [];
    } else {
      assert (configs + [(alpn, c)])[1..] == configs[1..] + [(alpn, c)];
      FindConfigSnoc(configs[1..], alpn, c, other);
    }
  }

  /// Each list is kept with a configuration for it, on the entry's own certificate.
  ghost predicate EntryOk(e: HostEntry) {
    forall alpn :: var c := FindConfig(e.configs, alpn); c.Some? ==> c.value.cert == e.minted && c.value.alpn == alpn
  }

  ghost predicate EntriesOk(entries: map<string, HostEntry>) {
    forall h | h in entries :: EntryOk(entries[h])
  }

  lemma AccessKeepsEntries(st: State, capacity: nat, host: string, minted: Option<Cert>)
    requires ValidState(st, capacity) && EntriesOk(st.entries)
    ensures var (st', r) := Accessed(st, capacity, host, minted);
            EntriesOk(st'.entries) && (r.Ok? ==> EntryOk(r.value))
  {
    AccessKeepsValid(st, capacity, host, minted);
    var st' := Accessed(st, capacity, host, minted).0;
    forall h | h in st'.entries ensures EntryOk(st'.entries[h]) {
      if h == host && host !in st.entries {
        assert capacity > 0 && minted.Some?;
      }
    }
  }

  /// Only the entry's list of configurations may have grown, by the one returned,
  /// and every list already there keeps its configuration.
  ghost predicate Served(entry: HostEntry, entry': HostEntry, alpn: seq<Bytes>, built: Option<nat>, r: Result<Config, Failure>) {
    && entry'.minted == entry.minted
    && (r == Err(BuildFailed) <==> FindConfig(entry.configs, alpn).None? && built.None?)
    && (r.Err? ==> r.error.BuildFailed? && entry' == entry)
    && (r.Ok? ==> FindConfig(entry'.configs, alpn) == Some(r.value)
                  && r.value.cert == entry.minted && r.value.alpn == alpn)
    && (FindConfig(entry.configs, alpn).Some? ==> entry' == entry)
    && (forall other | other != alpn :: FindConfig(entry'.configs, other) == FindConfig(entry.configs, other))
  }

  /// Looks a configuration up and builds one only if there is none.
  method ConfigFor(entry: HostEntry, alpn: seq<Bytes>, built: Option<nat>) returns (entry': HostEntry, r: Result<Config, Failure>)
    requires EntryOk(entry)
    ensures EntryOk(entry') && Served(entry, entry', alpn, built, r)
  {
    var found := FindConfig(entry.configs, alpn);
    if found.Some? {
      return entry, Ok(found.value);
    }
    if built.None? {
      return entry, Err(BuildFailed);
    }
    var c := Config(built.value, entry.minted, alpn);
    entry' := HostEntry(entry.minted, entry.configs + [(alpn, c)]);
    forall other ensures FindConfig(entry'.configs, other) ==
                         if other == alpn then Some(c) else FindConfig(entry.configs, other)
    {
      FindConfigSnoc(entry.configs, alpn, c, other);
    }
    r := Ok(c);
  }

  lemma ServedKeeps(st: State, entry: HostEntry, entry': HostEntry, host: string, alpn: seq<Bytes>, built: Option<nat>,
                    r: Result<Config, Failure>)
    requires EntriesOk(st.entries) && host in st.entries && EntryOk(entry') && Served(entry, entry', alpn, built, r)
    ensures EntriesOk(st.entries[host := entry'])
    ensures Serves(st, entry, host, alpn, built, State(st.entries[host := entry'], st.order), r)
  {
  }

  class CertAuthority {
    const cache: HostCache

    ghost predicate Valid()
      reads this, cache
    {
      cache.Valid() && EntriesOk(cache.entries)
    }

    constructor (capacity: nat)
      ensures Valid() && fresh(cache) && cache.capacity == capacity && cache.entries == map[] && cache.history == []
    {
      cache := new HostCache(capacity);
    }

    /// The entry for a host, under the cache's lock.
    method Entry(host: string, minted: Option<Cert>) returns (r: Result<HostEntry, Failure>)
      requires Valid()
      modifies cache
      ensures Valid() && (cache.Now(), r) == Accessed(old(cache.Now()), cache.capacity, host, minted)
      ensures cache.history == if r.Ok? then old(cache.history) + [host] else old(cache.history)
      ensures r.Ok? ==> host in cache.entries && cache.entries[host] == r.value && EntryOk(r.value)
    {
      AccessKeepsEntries(cache.Now(), cache.capacity, host, minted);
      AccessKeepsValid(cache.Now(), cache.capacity, host, minted);
      r := cache.GetOrMint(host, minted);
    }

    /// The configuration for a resident host.
    method Serve(host: string, entry: HostEntry, alpn: seq<Bytes>, built: Option<nat>) returns (r: Result<Config, Failure>)
      requires Valid() && host in cache.entries && cache.entries[host] == entry
      modifies cache
      ensures Valid() && Serves(old(cache.Now()), entry, host, alpn, built, cache.Now(), r)
      ensures cache.history == old(cache.history)
    {
      ghost var before := cache.Now();
      var entry', got := ConfigFor(entry, alpn, built);
      cache.SetEntry(host, entry');
      r := got;
      ServedKeeps(before, entry, entry', host, alpn, built, r);
    }

    /// `mint`.
    method Mint(host: string, minted: Option<Cert>) returns (r: Result<Cert, Failure>)
      requires Valid()
      modifies cache
      ensures Valid() && Does(old(cache.Point()), cache.capacity, MintCall(host, minted, r), cache.Point())
    {
      var name := SanitizeHost(host);
      if name.Err? {
        return Err(name.error);
      }
      var entry := Entry(name.value, minted);
      if entry.Err? {
        return Err(entry.error);
      }
      r := Ok(entry.value.minted);
    }

    /// `server_config`.
    method ServerConfig(host: string, offered: seq<Bytes>, minted: Option<Cert>, built: Option<nat>)
      returns (r: Result<Config, Failure>)
      requires Valid()
      modifies cache
      ensures Valid() && Does(old(cache.Point()), cache.capacity, ConfigCall(host, offered, minted, built, r), cache.Point())
    {
      var name := SanitizeHost(host);
      if name.Err? {
        return Err(name.error);
      }
      var entry := Entry(name.value, minted);
      if entry.Err? {
        return Err(entry.error);
      }
      r := Serve(name.value, entry.value, RestrictAlpn(offered), built);
    }
  }

  /// After an access that left `st` with this entry for the host, only that
  /// entry has changed, and only as it is served from.
  ghost predicate Serves(st: State, entry: HostEntry, host: string, alpn: seq<Bytes>, built: Option<nat>,
                         now: State, r: Result<Config, Failure>)
  {
    && host in now.entries && now == st.(entries := st.entries[host := now.entries[host]])
    && Served(entry, now.entries[host], alpn, built, r)
  }

  // ----- Runs of calls -----

  /// The cache at one point of a run, with the hosts accessed so far.
  datatype Moment = Moment(st: State, history: seq<string>)

  /// A call and what it answered.
  datatype Call =
    | MintCall(host: string, minted: Option<Cert>, cert: Result<Cert, Failure>)
    | ConfigCall(host: string, offered: seq<Bytes>, minted: Option<Cert>, built: Option<nat>, config: Result<Config, Failure>)

  ghost predicate Refused(call: Call, error: Failure) {
    if call.MintCall? then call.cert == Err(error) else call.config == Err(error)
  }

  /// What a call does: a bad name changes nothing, and otherwise the sanitised
  /// host is accessed once and the answer comes from its entry.
  ghost predicate Does(m: Moment, capacity: nat, call: Call, m': Moment) {
    var name := SanitizeHost(call.host);
    if name.Err? then m' == m && Refused(call, BadHost)
    else
      var (st, got) := Accessed(m.st, capacity, name.value, call.minted);
      if got.Err? then m' == Moment(st, m.history) && Refused(call, got.error)
      else m'.history == m.history + [name.value] && Answers(st, got.value, name.value, call, m'.st)
  }

  ghost predicate Answers(st: State, entry: HostEntry, name: string, call: Call, now: State) {
    match call
    case MintCall(_, _, r) => now == st && r == Ok(entry.minted)
    case ConfigCall(_, offered, _, built, r) => Serves(st, entry, name, RestrictAlpn(offered), built, now, r)
  }

  /// A call of a run and where it leads.
  datatype Step = Step(call: Call, after: Moment)

  ghost predicate IsRun(m: Moment, steps: seq<Step>, capacity: nat)
    decreases |steps|
  {
    steps != [] ==> Does(m, capacity, steps[0].call, steps[0].after) && IsRun(steps[0].after, steps[1..], capacity)
  }

  /// What the class keeps, of one point of a run.
  ghost predicate Good(m: Moment, capacity: nat) {
    && ValidState(m.st, capacity) && EntriesOk(m.st.entries)
    && m.st.order == LastN(Recency(m.history), capacity)
  }

  /// The hosts accessed after the last access of this one.
  function Since(host: string, history: seq<string>): seq<string>
    requires host in history
  {
    if history[|history| - 1] == host then []
    else Since(host, history[..|history| - 1]) + [history[|history| - 1]]
  }

  lemma {:induction false} SinceSplits(host: string, history: seq<string>) returns (before: seq<string>)
    requires host in history
    ensures history == before + [host] + Since(host, history) && host !in Since(host, history)
  {
    var last, rest := history[|history| - 1], history[..|history| - 1];
    assert history == rest + [last];
    if last == host {
      before := rest;
    } else {
      before := SinceSplits(host, rest);
    }
  }

  /// A host is resident exactly when it has been accessed and fewer than
  /// `capacity` others have been since; only then is a call not minting it.
  lemma ResidentNowIff(m: Moment, capacity: nat, host: string)
    requires Good(m, capacity)
    ensures host in m.st.entries <==> host in m.history && |Members(Since(host, m.history))| < capacity
  {
    assert host in m.st.entries <==> host in LastN(Recency(m.history), capacity);
    if host in m.history {
      var before := SinceSplits(host, m.history);
      ResidentIff(before, host, Since(host, m.history), capacity);
    } else {
      LastNMembers(Recency(m.history), capacity);
      RecencyIsValid(m.history);
    }
  }

  lemma AnswerKeepsGood(st: State, capacity: nat, entry: HostEntry, name: string, call: Call, now: State)
    requires ValidState(st, capacity) && EntriesOk(st.entries) && name in st.entries && st.entries[name] == entry
    requires Answers(st, entry, name, call, now)
    ensures ValidState(now, capacity) && EntriesOk(now.entries) && now.order == st.order
  {
    if call.ConfigCall? {
      var alpn, e := RestrictAlpn(call.offered), now.entries[name];
      assert EntryOk(entry);
      assert EntryOk(e) by {
        forall other ensures var c := FindConfig(e.configs, other); c.Some? ==> c.value.cert == e.minted && c.value.alpn == other {
          assert other == alpn || FindConfig(e.configs, other) == FindConfig(entry.configs, other);
        }
      }
    }
  }

  lemma CallKeepsGood(m: Moment, capacity: nat, call: Call, m': Moment)
    requires Good(m, capacity) && capacity >= 1 && Does(m, capacity, call, m')
    ensures Good(m', capacity)
  {
    var name := SanitizeHost(call.host);
    if name.Ok? {
      AccessKeepsValid(m.st, capacity, name.value, call.minted);
      var (st, got) := Accessed(m.st, capacity, name.value, call.minted);
      if got.Ok? {
        AccessKeepsEntries(m.st, capacity, name.value, call.minted);
        AccessKeepsRecency(m.st, capacity, name.value, call.minted, m.history);
        AnswerKeepsGood(st, capacity, got.value, name.value, call, m'.st);
      }
    }
  }

  /// The host is resident and serves this configuration for the list.
  ghost predicate Holds(st: State, host: string, alpn: seq<Bytes>, c: Config) {
    host in st.entries && st.entries[host].minted == c.cert && FindConfig(st.entries[host].configs, alpn) == Some(c)
  }

  /// The answer the host's callers get while it holds the configuration: that
  /// certificate for any list, and that very configuration for the list.
  ghost predicate AnsweredWith(call: Call, alpn: seq<Bytes>, c: Config) {
    match call
    case MintCall(_, _, r) => r == Ok(c.cert)
    case ConfigCall(_, offered, _, built, r) =>
      && (RestrictAlpn(offered) == alpn ==> r == Ok(c))
      && (r.Ok? ==> r.value.cert == c.cert)
      && (r.Err? ==> r == Err(BuildFailed) && built.None?)
  }

  lemma CallKeepsHeld(m: Moment, capacity: nat, call: Call, m': Moment, host: string, alpn: seq<Bytes>, c: Config)
    requires Good(m, capacity) && Does(m, capacity, call, m') && Holds(m.st, host, alpn, c)
    ensures host in m'.st.entries ==> Holds(m'.st, host, alpn, c)
    ensures SanitizeHost(call.host) == Ok(host) ==> host in m'.st.entries && AnsweredWith(call, alpn, c)
  {
    if SanitizeHost(call.host).Ok? {
      AccessKeepsValid(m.st, capacity, SanitizeHost(call.host).value, call.minted);
    }
  }

  /// A configuration answered is one the host then serves.
  lemma AnsweredIsHeld(m: Moment, capacity: nat, call: Call, m': Moment)
    requires Good(m, capacity) && Does(m, capacity, call, m')
    requires call.ConfigCall? && call.config.Ok?
    ensures SanitizeHost(call.host).Ok?
    ensures Holds(m'.st, SanitizeHost(call.host).value, RestrictAlpn(call.offered), call.config.value)
  {
  }

  /// Fewer than `capacity` other hosts were used since the last use of this one.
  ghost predicate InUse(m: Moment, capacity: nat, host: string) {
    host in m.history ==> |Members(Since(host, m.history))| < capacity
  }

  lemma StaysHeld(m: Moment, capacity: nat, call: Call, m': Moment, host: string, alpn: seq<Bytes>, c: Config)
    requires capacity >= 1 && Does(m, capacity, call, m') && InUse(m', capacity, host)
    requires Good(m, capacity) && Holds(m.st, host, alpn, c)
    ensures Good(m', capacity) && Holds(m'.st, host, alpn, c)
  {
    CallKeepsGood(m, capacity, call, m');
    CallKeepsHeld(m, capacity, call, m', host, alpn, c);
    ResidentNowIff(m, capacity, host);
    ResidentNowIff(m', capacity, host);
    HistoryGrows(m, capacity, call, m');
  }

  lemma HistoryGrows(m: Moment, capacity: nat, call: Call, m': Moment)
    requires Does(m, capacity, call, m')
    ensures forall h | h in m.history :: h in m'.history
  {
  }

  lemma StaysHeldFirst(m: Moment, steps: seq<Step>, capacity: nat, host: string, alpn: seq<Bytes>, c: Config)
    requires steps != [] && IsRun(m, steps, capacity) && capacity >= 1 && InUse(steps[0].after, capacity, host)
    requires Good(m, capacity) && Holds(m.st, host, alpn, c)
    ensures Good(steps[0].after, capacity) && Holds(steps[0].after.st, host, alpn, c)
    ensures IsRun(steps[0].after, steps[1..], capacity)
  {
    StaysHeld(m, capacity, steps[0].call, steps[0].after, host, alpn, c);
  }

  lemma AnsweredFirst(m: Moment, steps: seq<Step>, capacity: nat, host: string, alpn: seq<Bytes>, c: Config)
    requires steps != [] && IsRun(m, steps, capacity) && capacity >= 1
    requires Good(m, capacity) && Holds(m.st, host, alpn, c)
    ensures SanitizeHost(steps[0].call.host) == Ok(host) ==> AnsweredWith(steps[0].call, alpn, c)
  {
    CallKeepsHeld(m, capacity, steps[0].call, steps[0].after, host, alpn, c);
  }

  /// From here on every point of the run holds the configuration, and every call
  /// for the host is answered with it.
  ghost predicate HeldThrough(steps: seq<Step>, host: string, alpn: seq<Bytes>, c: Config)
    decreases |steps|
  {
    steps != [] ==>
      && Holds(steps[0].after.st, host, alpn, c)
      && (SanitizeHost(steps[0].call.host) == Ok(host) ==> AnsweredWith(steps[0].call, alpn, c))
      && HeldThrough(steps[1..], host, alpn, c)
  }

  ghost predicate InUseThrough(steps: seq<Step>, capacity: nat, host: string)
    decreases |steps|
  {
    steps != [] ==> InUse(steps[0].after, capacity, host) && InUseThrough(steps[1..], capacity, host)
  }

  lemma {:induction false} InUseAll(steps: seq<Step>, capacity: nat, host: string)
    requires forall i | 0 <= i < |steps| :: InUse(steps[i].after, capacity, host)
    ensures InUseThrough(steps, capacity, host)
    decreases |steps|
  {
    if steps != [] {
      InUseAll(steps[1..], capacity, host);
    }
  }

  lemma {:induction false} HeldAt(steps: seq<Step>, host: string, alpn: seq<Bytes>, c: Config, i: nat)
    requires HeldThrough(steps, host, alpn, c) && i < |steps|
    ensures Holds(steps[i].after.st, host, alpn, c)
    ensures SanitizeHost(steps[i].call.host) == Ok(host) ==> AnsweredWith(steps[i].call, alpn, c)
    decreases |steps|
  {
    if i > 0 {
      HeldAt(steps[1..], host, alpn, c, i - 1);
    }
  }

  lemma {:induction false} RunIsHeld(m: Moment, steps: seq<Step>, capacity: nat, host: string, alpn: seq<Bytes>, c: Config)
    requires IsRun(m, steps, capacity) && capacity >= 1 && InUseThrough(steps, capacity, host)
    requires Good(m, capacity) && Holds(m.st, host, alpn, c)
    ensures HeldThrough(steps, host, alpn, c)
    decreases |steps|
  {
    if steps != [] {
      AnsweredFirst(m, steps, capacity, host, alpn, c);
      StaysHeldFirst(m, steps, capacity, host, alpn, c);
      RunIsHeld(steps[0].after, steps[1..], capacity, host, alpn, c);
    }
  }

  /// Over every run of calls from where a host serves a configuration: as long
  /// as no stretch without a use of it uses `capacity` or more other hosts, it stays
  /// resident, is never minted again, and its callers all get that certificate
  /// and, for the same protocols, that very configuration.
  lemma ServedTheSame(m: Moment, steps: seq<Step>, capacity: nat, host: string, alpn: seq<Bytes>, c: Config)
    requires IsRun(m, steps, capacity) && capacity >= 1
    requires Good(m, capacity) && Holds(m.st, host, alpn, c)
    requires forall i | 0 <= i < |steps| :: InUse(steps[i].after, capacity, host)
    ensures forall i | 0 <= i < |steps| ::
              && Holds(steps[i].after.st, host, alpn, c)
              && (SanitizeHost(steps[i].call.host) == Ok(host) ==> AnsweredWith(steps[i].call, alpn, c))
  {
    InUseAll(steps, capacity, host);
    RunIsHeld(m, steps, capacity, host, alpn, c);
    forall i | 0 <= i < |steps|
      ensures Holds(steps[i].after.st, host, alpn, c)
      ensures SanitizeHost(steps[i].call.host) == Ok(host) ==> AnsweredWith(steps[i].call, alpn, c)
    {
      HeldAt(steps, host, alpn, c, i);
    }
  }
}
