/// The stored rules of `crates/hamsy-core/src/rules_store.rs` and the compiled
/// set kept beside them, with `RuleSet::new` from `rule.rs`.

module RulesStore {
  import opened Common
  import opened Rules

  // ----- Compiling a list of rules -----

  /// Lower priority first, then the order of the list.
  predicate Sooner(rules: seq<Rule>, i: nat, j: nat)
    requires i < |rules| && j < |rules|
  {
    rules[i].priority < rules[j].priority || (rules[i].priority == rules[j].priority && i < j)
  }

  predicate Indexes(rules: seq<Rule>, idx: seq<nat>) {
    forall k | 0 <= k < |idx| :: idx[k] < |rules|
  }

  /// Strictly sorted, each index once.
  predicate Ranked(rules: seq<Rule>, idx: seq<nat>)
    requires Indexes(rules, idx)
  {
    forall a, b | 0 <= a < b < |idx| :: Sooner(rules, idx[a], idx[b])
  }

  /// `sort_by` on the numbered rules, one rule inserted at a time.
  function InsertRanked(rules: seq<Rule>, idx: seq<nat>, n: nat): (r: seq<nat>)
    requires Indexes(rules, idx) && n < |rules|
    ensures Indexes(rules, r)
  {
    if idx == [] then [n]
    else if Sooner(rules, n, idx[0]) then
      [n] + idx
    else
      [idx[0]] + InsertRanked(rules, idx[1..], n)
  }

  function RankedUpTo(rules: seq<Rule>, n: nat): (r: seq<nat>)
    requires n <= |rules|
    ensures Indexes(rules, r)
  {
    if n == 0 then [] else InsertRanked(rules, RankedUpTo(rules, n - 1), n - 1)
  }

  predicate Usable(L: Libs, rule: Rule) {
    rule.enabled && Compilable(L, rule)
  }

  function KeepUsable(L: Libs, rules: seq<Rule>, idx: seq<nat>): (r: seq<nat>)
    requires Indexes(rules, idx)
    ensures Indexes(rules, r)
  {
    if idx == [] then []
    else (if Usable(L, rules[idx[0]]) then [idx[0]] else []) + KeepUsable(L, rules, idx[1..])
  }

  function CompiledAt(L: Libs, rules: seq<Rule>, idx: seq<nat>): (r: seq<Compiled>)
    requires Indexes(rules, idx) && forall k | 0 <= k < |idx| :: Compilable(L, rules[idx[k]])
    ensures |r| == |idx|
  {
    seq(|idx|, k requires 0 <= k < |idx| => (rules[idx[k]], Compile(L, rules[idx[k]]).value))
  }

  lemma {:induction false} InsertedMembers(rules: seq<Rule>, idx: seq<nat>, n: nat)
    requires Indexes(rules, idx) && n < |rules|
    ensures forall i :: i in InsertRanked(rules, idx, n) <==> i in idx || i == n
  {
    if idx != [] {
      InsertedMembers(rules, idx[1..], n);
    }
  }

  lemma {:induction false} InsertKeepsRank(rules: seq<Rule>, idx: seq<nat>, n: nat)
    requires Indexes(rules, idx) && Ranked(rules, idx) && n < |rules| && n !in idx
    ensures Ranked(rules, InsertRanked(rules, idx, n))
  {
    if idx != [] {
      assert idx[0] in idx;
      if Sooner(rules, n, idx[0]) {
        assert forall k | 0 <= k < |idx| :: idx[k] in idx && (k > 0 ==> Sooner(rules, idx[0], idx[k]));
      } else {
        InsertKeepsRank(rules, idx[1..], n);
        InsertedMembers(rules, idx[1..], n);
        var later := InsertRanked(rules, idx[1..], n);
        forall k | 0 <= k < |later| ensures Sooner(rules, idx[0], later[k]) {
          assert later[k] in later;
          if later[k] != n {
            var j :| 0 <= j < |idx[1..]| && idx[1..][j] == later[k];
            assert idx[j + 1] == later[k];
          }
        }
      }
    }
  }

  lemma {:induction false} RankedUpToIs(rules: seq<Rule>, n: nat)
    requires n <= |rules|
    ensures Ranked(rules, RankedUpTo(rules, n)) && forall i: nat :: i in RankedUpTo(rules, n) <==> i < n
  {
    if n > 0 {
      RankedUpToIs(rules, n - 1);
      InsertKeepsRank(rules, RankedUpTo(rules, n - 1), n - 1);
      InsertedMembers(rules, RankedUpTo(rules, n - 1), n - 1);
    }
  }

  lemma {:induction false} KeepUsableIs(L: Libs, rules: seq<Rule>, idx: seq<nat>)
    requires Indexes(rules, idx)
    ensures var kept := KeepUsable(L, rules, idx);
            && Indexes(rules, kept) && (Ranked(rules, idx) ==> Ranked(rules, kept))
            && forall i :: i in kept <==> i in idx && Usable(L, rules[i])
  {
    if idx != [] {
      var later := KeepUsable(L, rules, idx[1..]);
      KeepUsableIs(L, rules, idx[1..]);
      assert idx[0] in idx;
      if Ranked(rules, idx) {
        assert Ranked(rules, idx[1..]) by {
          assert forall a | 0 <= a < |idx[1..]| :: idx[1..][a] == idx[a + 1];
        }
        forall k | 0 <= k < |later| ensures Sooner(rules, idx[0], later[k]) {
          assert later[k] in later && later[k] in idx[1..];
          var j :| 0 <= j < |idx[1..]| && idx[1..][j] == later[k];
          assert idx[j + 1] == later[k];
        }
      }
    }
  }

  /// `RuleSet::new`: which rules, in which order.
  function Selected(L: Libs, rules: seq<Rule>): seq<nat> {
    KeepUsable(L, rules, RankedUpTo(rules, |rules|))
  }

  function New(L: Libs, rules: seq<Rule>): seq<Compiled> {
    KeepUsableIs(L, rules, RankedUpTo(rules, |rules|));
    CompiledAt(L, rules, Selected(L, rules))
  }

  /// The order in which a rule set holds the rules of a list: strictly ranked,
  /// and exactly the enabled rules that compile.
  predicate IsSelection(L: Libs, rules: seq<Rule>, idx: seq<nat>) {
    && Indexes(rules, idx) && Ranked(rules, idx)
    && (forall k | 0 <= k < |idx| :: Usable(L, rules[idx[k]]))
    && (forall i | 0 <= i < |rules| :: Usable(L, rules[i]) ==> i in idx)
  }

  /// The compiled set is the stable priority sort of exactly the enabled,
  /// compilable rules, each with its own compiled entry.
  lemma NewIsTheSelection(L: Libs, rules: seq<Rule>)
    ensures IsSelection(L, rules, Selected(L, rules))
    ensures New(L, rules) == CompiledAt(L, rules, Selected(L, rules))
    ensures var idx := Selected(L, rules);
            && |New(L, rules)| == |idx| && (forall k | 0 <= k < |idx| :: New(L, rules)[k].0 == rules[idx[k]])
            && forall a, b | 0 <= a < b < |idx| ::
                 && rules[idx[a]].priority <= rules[idx[b]].priority
                 && (rules[idx[a]].priority == rules[idx[b]].priority ==> idx[a] < idx[b])
    ensures forall c | c in New(L, rules) :: c.0 in rules && c.0.enabled && Compile(L, c.0) == Some(c.1)
  {
    RankedUpToIs(rules, |rules|);
    KeepUsableIs(L, rules, RankedUpTo(rules, |rules|));
  }

  /// Nothing else is: the selection is determined by the list.
  lemma {:induction false} SelectionIsUnique(rules: seq<Rule>, a: seq<nat>, b: seq<nat>)
    requires Indexes(rules, a) && Indexes(rules, b) && Ranked(rules, a) && Ranked(rules, b)
    requires forall i :: i in a <==> i in b
    ensures a == b
  {
    FirstIn(a);
    FirstIn(b);
    if a != [] && b != [] {
      SameFirst(rules, a, b);
      TailMembers(rules, a);
      TailMembers(rules, b);
      assert Ranked(rules, a[1..]) && Ranked(rules, b[1..]) by {
        assert forall k | 0 <= k < |a[1..]| :: a[1..][k] == a[k + 1];
        assert forall k | 0 <= k < |b[1..]| :: b[1..][k] == b[k + 1];
      }
      SelectionIsUnique(rules, a[1..], b[1..]);
      assert a == [a[0]] + a[1..] && b == [b[0]] + b[1..];
    }
  }

  lemma FirstIsSoonest(rules: seq<Rule>, idx: seq<nat>, i: nat)
    requires Indexes(rules, idx) && Ranked(rules, idx) && i in idx
    ensures i < |rules| && (i == idx[0] || Sooner(rules, idx[0], i))
  {
    var k :| 0 <= k < |idx| && idx[k] == i;
  }

  lemma FirstIn(idx: seq<nat>)
    ensures idx != [] ==> idx[0] in idx
  {
  }

  lemma SameFirst(rules: seq<Rule>, a: seq<nat>, b: seq<nat>)
    requires Indexes(rules, a) && Indexes(rules, b) && Ranked(rules, a) && Ranked(rules, b) && a != [] && b != []
    requires forall i :: i in a <==> i in b
    ensures a[0] == b[0]
  {
    FirstIn(a);
    FirstIn(b);
    FirstIsSoonest(rules, a, b[0]);
    FirstIsSoonest(rules, b, a[0]);
  }

  lemma TailMembers(rules: seq<Rule>, idx: seq<nat>)
    requires Indexes(rules, idx) && Ranked(rules, idx) && idx != []
    ensures forall i :: i in idx[1..] <==> i in idx && i != idx[0]
  {
    forall i ensures i in idx[1..] <==> i in idx && i != idx[0] {
      if i in idx[1..] {
        var k :| 0 <= k < |idx[1..]| && idx[1..][k] == i;
        assert idx[k + 1] == i && Sooner(rules, idx[0], idx[k + 1]);
      }
      assert idx == [idx[0]] + idx[1..];
    }
  }

  function SkippedOne(L: Libs, rule: Rule): seq<string> {
    if rule.enabled && !Compilable(L, rule) then [rule.id] else []
  }

  /// The ids of the enabled rules that do not compile.
  function SkippedIds(L: Libs, rules: seq<Rule>, idx: seq<nat>): seq<string>
    requires Indexes(rules, idx)
  {
    if idx == [] then []
    else SkippedOne(L, rules[idx[0]]) + SkippedIds(L, rules, idx[1..])
  }

  lemma {:induction false} SkippedMembers(L: Libs, rules: seq<Rule>, idx: seq<nat>)
    requires Indexes(rules, idx)
    ensures forall k | 0 <= k < |idx| ::
              rules[idx[k]].enabled && !Compilable(L, rules[idx[k]]) ==> rules[idx[k]].id in SkippedIds(L, rules, idx)
    ensures forall id | id in SkippedIds(L, rules, idx) ::
              exists k | 0 <= k < |idx| :: rules[idx[k]].enabled && !Compilable(L, rules[idx[k]]) && rules[idx[k]].id == id
  {
    if idx != [] {
      var later := idx[1..];
      SkippedMembers(L, rules, later);
      forall k | 0 < k < |idx| ensures idx[k] == later[k - 1] {
      }
      forall id | id in SkippedIds(L, rules, idx)
        ensures exists k | 0 <= k < |idx| :: rules[idx[k]].enabled && !Compilable(L, rules[idx[k]]) && rules[idx[k]].id == id
      {
        if id !in SkippedOne(L, rules[idx[0]]) {
          assert id in SkippedIds(L, rules, later);
          var k :| 0 <= k < |later| && rules[later[k]].enabled && !Compilable(L, rules[later[k]]) && rules[later[k]].id == id;
          assert idx[k + 1] == later[k];
        }
      }
    }
  }

  /// Every enabled rule that does not compile is reported.
  lemma SkippedAreReported(L: Libs, rules: seq<Rule>)
    ensures forall i: nat | i < |rules| && rules[i].enabled && !Compilable(L, rules[i]) ::
              rules[i].id in SkippedIds(L, rules, RankedUpTo(rules, |rules|))
    ensures forall id | id in SkippedIds(L, rules, RankedUpTo(rules, |rules|)) ::
              exists i: nat | i < |rules| :: rules[i].enabled && !Compilable(L, rules[i]) && rules[i].id == id
  {
    var idx := RankedUpTo(rules, |rules|);
    RankedUpToIs(rules, |rules|);
    SkippedMembers(L, rules, idx);
    forall i: nat | i < |rules| && rules[i].enabled && !Compilable(L, rules[i])
      ensures rules[i].id in SkippedIds(L, rules, idx)
    {
      assert i in idx;
      var k :| 0 <= k < |idx| && idx[k] == i;
    }
    forall id | id in SkippedIds(L, rules, idx)
      ensures exists i: nat | i < |rules| :: rules[i].enabled && !Compilable(L, rules[i]) && rules[i].id == id
    {
      var k :| 0 <= k < |idx| && rules[idx[k]].enabled && !Compilable(L, rules[idx[k]]) && rules[idx[k]].id == id;
      assert idx[k] in idx;
    }
  }

  function CompiledOne(L: Libs, rule: Rule): seq<Compiled> {
    if Usable(L, rule) then [(rule, Compile(L, rule).value)] else []
  }

  /// The loop over the sorted rules.
  function CompiledAll(L: Libs, rules: seq<Rule>, idx: seq<nat>): seq<Compiled>
    requires Indexes(rules, idx)
  {
    if idx == [] then [] else CompiledOne(L, rules[idx[0]]) + CompiledAll(L, rules, idx[1..])
  }

  predicate AllCompilable(L: Libs, rules: seq<Rule>, idx: seq<nat>) {
    Indexes(rules, idx) && forall k | 0 <= k < |idx| :: Compilable(L, rules[idx[k]])
  }

  lemma CompiledAtCons(L: Libs, rules: seq<Rule>, i: nat, later: seq<nat>)
    requires i < |rules| && Compilable(L, rules[i]) && AllCompilable(L, rules, later)
    ensures AllCompilable(L, rules, [i] + later)
    ensures CompiledAt(L, rules, [i] + later) == [(rules[i], Compile(L, rules[i]).value)] + CompiledAt(L, rules, later)
  {
  }

  lemma {:induction false} CompiledAllIs(L: Libs, rules: seq<Rule>, idx: seq<nat>)
    requires Indexes(rules, idx)
    ensures AllCompilable(L, rules, KeepUsable(L, rules, idx))
    ensures CompiledAll(L, rules, idx) == CompiledAt(L, rules, KeepUsable(L, rules, idx))
  {
    if idx != [] {
      var later := KeepUsable(L, rules, idx[1..]);
      CompiledAllIs(L, rules, idx[1..]);
      if Usable(L, rules[idx[0]]) {
        CompiledAtCons(L, rules, idx[0], later);
      } else {
        assert KeepUsable(L, rules, idx) == later;
      }
    }
  }

  lemma ZipSnoc<A, B>(a: seq<A>, b: seq<B>, x: A, y: B)
    requires |a| == |b|
    ensures Zip(a + [x], b + [y]) == Zip(a, b) + [(x, y)]
  {
  }

  /// One round of the loop.
  method CompileNext(L: Libs, rule: Rule, rules: seq<Rule>, compiled: seq<CompiledEntry>, skipped: seq<string>)
    returns (rules': seq<Rule>, compiled': seq<CompiledEntry>, skipped': seq<string>)
    requires |rules| == |compiled|
    ensures |rules'| == |compiled'| && Zip(rules', compiled') == Zip(rules, compiled) + CompiledOne(L, rule)
    ensures skipped' == skipped + SkippedOne(L, rule)
  {
    rules', compiled', skipped' := rules, compiled, skipped;
    if rule.enabled {
      var entry := Compile(L, rule);
      if entry.Some? {
        ZipSnoc(rules, compiled, rule, entry.value);
        rules', compiled' := rules + [rule], compiled + [entry.value];
      } else {
        skipped' := skipped + [rule.id];
      }
    }
  }

  lemma AllFrom(L: Libs, rules: seq<Rule>, idx: seq<nat>, k: nat)
    requires Indexes(rules, idx) && k < |idx|
    ensures CompiledAll(L, rules, idx[k..]) == CompiledOne(L, rules[idx[k]]) + CompiledAll(L, rules, idx[k + 1..])
    ensures SkippedIds(L, rules, idx[k..]) == SkippedOne(L, rules[idx[k]]) + SkippedIds(L, rules, idx[k + 1..])
  {
    assert idx[k..][1..] == idx[k + 1..];
  }

  /// The loop over the sorted rules, one after the other.
  method CompileSorted(L: Libs, rules: seq<Rule>, indexed: seq<nat>)
    returns (outRules: seq<Rule>, outCompiled: seq<CompiledEntry>, skipped: seq<string>)
    requires Indexes(rules, indexed)
    ensures |outRules| == |outCompiled| && Zip(outRules, outCompiled) == CompiledAll(L, rules, indexed)
    ensures skipped == SkippedIds(L, rules, indexed)
  {
    outRules, outCompiled, skipped := [], [], [];
    ghost var done := [];
    for k := 0 to |indexed|
      invariant |outRules| == |outCompiled| && done == Zip(outRules, outCompiled)
      invariant done + CompiledAll(L, rules, indexed[k..]) == CompiledAll(L, rules, indexed)
      invariant skipped + SkippedIds(L, rules, indexed[k..]) == SkippedIds(L, rules, indexed)
    {
      AllFrom(L, rules, indexed, k);
      ghost var one, later := CompiledOne(L, rules[indexed[k]]), CompiledAll(L, rules, indexed[k + 1..]);
      Regroup(done, one, later);
      Regroup(skipped, SkippedOne(L, rules[indexed[k]]), SkippedIds(L, rules, indexed[k + 1..]));
      outRules, outCompiled, skipped := CompileNext(L, rules[indexed[k]], outRules, outCompiled, skipped);
      done := done + one;
    }
  }

  lemma NewIsTheLoop(L: Libs, rules: seq<Rule>)
    ensures New(L, rules) == CompiledAll(L, rules, RankedUpTo(rules, |rules|))
  {
    CompiledAllIs(L, rules, RankedUpTo(rules, |rules|));
  }

  /// `RuleSet::new`: three lists, the first two aligned.
  method CompileRules(L: Libs, rules: seq<Rule>)
    returns (outRules: seq<Rule>, outCompiled: seq<CompiledEntry>, skipped: seq<string>)
    ensures |outRules| == |outCompiled| && Zip(outRules, outCompiled) == New(L, rules)
    ensures skipped == SkippedIds(L, rules, RankedUpTo(rules, |rules|))
  {
    NewIsTheLoop(L, rules);
    outRules, outCompiled, skipped := CompileSorted(L, rules, RankedUpTo(rules, |rules|));
  }

  // ----- Reordering -----

  function Position(rules: seq<Rule>, id: string): (r: Option<nat>)
    ensures r.Some? ==> r.value < |rules| && rules[r.value].id == id && forall k | 0 <= k < r.value :: rules[k].id != id
    ensures r.None? ==> forall k | 0 <= k < |rules| :: rules[k].id != id
  {
    if rules == [] then None
    else if rules[0].id == id then Some(0)
    else
      var later := Position(rules[1..], id);
      assert forall k | 0 <= k < |rules[1..]| :: rules[1..][k] == rules[k + 1];
      if later.None? then None else Some(later.value + 1)
  }

  function RemovedAt<T>(s: seq<T>, i: nat): seq<T>
    requires i < |s|
  {
    s[..i] + s[i + 1..]
  }

  /// The rules that the ids pick, in the order of the ids.
  function Picked(rules: seq<Rule>, ids: seq<string>): seq<Rule>
    decreases |ids|
  {
    if ids == [] then []
    else
      var pos := Position(rules, ids[0]);
      if pos.None? then Picked(rules, ids[1..])
      else [rules[pos.value]] + Picked(RemovedAt(rules, pos.value), ids[1..])
  }

  /// The rules left over.
  function Left(rules: seq<Rule>, ids: seq<string>): seq<Rule>
    decreases |ids|
  {
    if ids == [] then rules
    else
      var pos := Position(rules, ids[0]);
      Left(if pos.None? then rules else RemovedAt(rules, pos.value), ids[1..])
  }

  function Reordered(rules: seq<Rule>, ids: seq<string>): seq<Rule> {
    Picked(rules, ids) + Left(rules, ids)
  }

  /// Every rule is still there, as often as it was.
  lemma {:induction false} ReorderIsPermutation(rules: seq<Rule>, ids: seq<string>)
    ensures multiset(Reordered(rules, ids)) == multiset(rules)
    decreases |ids|
  {
    if ids != [] {
      var pos := Position(rules, ids[0]);
      if pos.None? {
        ReorderIsPermutation(rules, ids[1..]);
      } else {
        var rest := RemovedAt(rules, pos.value);
        ReorderIsPermutation(rest, ids[1..]);
        assert rules == rules[..pos.value] + [rules[pos.value]] + rules[pos.value + 1..];
        assert Reordered(rules, ids) == [rules[pos.value]] + Reordered(rest, ids[1..]);
      }
    }
  }

  predicate DistinctIds(rules: seq<Rule>) {
    forall i, j | 0 <= i < j < |rules| :: rules[i].id != rules[j].id
  }

  predicate HasId(rules: seq<Rule>, id: string) {
    exists r | r in rules :: r.id == id
  }

  function OtherThan(id: string): Rule -> bool {
    (r: Rule) => r.id != id
  }

  function NotAmong(ids: seq<string>): Rule -> bool {
    (r: Rule) => r.id !in ids
  }

  /// The ids of a list that name a rule, each the first time it comes.
  function Naming(rules: seq<Rule>, ids: seq<string>): seq<string>
    decreases |ids|
  {
    if ids == [] then []
    else (if HasId(rules, ids[0]) then [ids[0]] else [])
         + Naming(Filter(OtherThan(ids[0]), rules), ids[1..])
  }

  function IdsOf(rules: seq<Rule>): (r: seq<string>)
    ensures |r| == |rules|
  {
    seq(|rules|, i requires 0 <= i < |rules| => rules[i].id)
  }

  lemma {:induction false} FilterDropsOne<T>(p: T -> bool, a: seq<T>, x: T, b: seq<T>)
    requires (forall k | 0 <= k < |a| :: p(a[k])) && (forall k | 0 <= k < |b| :: p(b[k])) && !p(x)
    ensures Filter(p, a + [x] + b) == a + b
  {
    if a == [] {
      FilterAll(p, b);
      assert ([x] + b)[1..] == b && a + [x] + b == [x] + b;
      assert Filter(p, [x] + b) == [] + Filter(p, b);
    } else {
      assert (a + [x] + b)[1..] == a[1..] + [x] + b;
      FilterDropsOne(p, a[1..], x, b);
    }
  }

  /// The rules once the one with this id, if there is one, is taken out.
  function TakenOut(rules: seq<Rule>, id: string): seq<Rule> {
    var pos := Position(rules, id);
    if pos.None? then rules else RemovedAt(rules, pos.value)
  }

  lemma TakenOutIsFiltered(rules: seq<Rule>, id: string)
    requires DistinctIds(rules)
    ensures TakenOut(rules, id) == Filter(OtherThan(id), rules) && DistinctIds(TakenOut(rules, id))
  {
    var pos := Position(rules, id);
    if pos.None? {
      FilterAll(OtherThan(id), rules);
    } else {
      var a, b := rules[..pos.value], rules[pos.value + 1..];
      assert rules == a + [rules[pos.value]] + b;
      FilterDropsOne(OtherThan(id), a, rules[pos.value], b);
    }
  }

  lemma {:induction false} FilterAll<T>(p: T -> bool, s: seq<T>)
    requires forall k | 0 <= k < |s| :: p(s[k])
    ensures Filter(p, s) == s
  {
    if s != [] {
      FilterAll(p, s[1..]);
    }
  }

  lemma {:induction false} FilterTwice<T>(p: T -> bool, q: T -> bool, pq: T -> bool, s: seq<T>)
    requires forall x :: pq(x) <==> p(x) && q(x)
    ensures Filter(q, Filter(p, s)) == Filter(pq, s)
  {
    if s != [] {
      var later := Filter(p, s[1..]);
      FilterTwice(p, q, pq, s[1..]);
      if p(s[0]) {
        assert ([s[0]] + later)[1..] == later;
      } else {
        assert [] + later == later;
      }
    }
  }

  lemma {:induction false} PickedAreNamed(rules: seq<Rule>, ids: seq<string>)
    requires DistinctIds(rules)
    ensures IdsOf(Picked(rules, ids)) == Naming(rules, ids)
    decreases |ids|
  {
    if ids != [] {
      var rest := TakenOut(rules, ids[0]);
      PositionIff(rules, ids[0]);
      TakenOutIsFiltered(rules, ids[0]);
      PickedAreNamed(rest, ids[1..]);
      PickFirst(rules, ids);
    }
  }

  lemma PickFirst(rules: seq<Rule>, ids: seq<string>)
    requires ids != []
    ensures IdsOf(Picked(rules, ids)) ==
            (if Position(rules, ids[0]).Some? then [ids[0]] else []) + IdsOf(Picked(TakenOut(rules, ids[0]), ids[1..]))
  {
  }

  lemma {:induction false} LeftAreOthers(rules: seq<Rule>, ids: seq<string>)
    requires DistinctIds(rules)
    ensures Left(rules, ids) == Filter(NotAmong(ids), rules)
    decreases |ids|
  {
    if ids == [] {
      FilterAll(NotAmong(ids), rules);
    } else {
      TakenOutIsFiltered(rules, ids[0]);
      LeftAreOthers(TakenOut(rules, ids[0]), ids[1..]);
      FilterTwice(OtherThan(ids[0]), NotAmong(ids[1..]), NotAmong(ids), rules);
    }
  }

  /// With distinct ids, the listed rules come first in the order given and the
  /// others follow in the order they had.
  lemma ReorderPutsListedFirst(rules: seq<Rule>, ids: seq<string>)
    requires DistinctIds(rules)
    ensures Reordered(rules, ids) == Picked(rules, ids) + Filter(NotAmong(ids), rules)
    ensures IdsOf(Picked(rules, ids)) == Naming(rules, ids)
  {
    PickedAreNamed(rules, ids);
    LeftAreOthers(rules, ids);
  }

  lemma PositionIff(rules: seq<Rule>, id: string)
    ensures Position(rules, id).Some? <==> HasId(rules, id)
  {
    if Position(rules, id).Some? {
      assert rules[Position(rules, id).value] in rules;
    }
  }

  /// The loop of `reorder`.
  method RunReorder(rules: seq<Rule>, ids: seq<string>) returns (out: seq<Rule>)
    ensures out == Reordered(rules, ids)
  {
    var rest, reordered := rules, [];
    for i := 0 to |ids|
      invariant reordered + Picked(rest, ids[i..]) == Picked(rules, ids)
      invariant Left(rest, ids[i..]) == Left(rules, ids)
    {
      assert ids[i..][1..] == ids[i + 1..];
      var pos := Position(rest, ids[i]);
      if pos.Some? {
        reordered := reordered + [rest[pos.value]];
        rest := RemovedAt(rest, pos.value);
      }
    }
    out := reordered + rest;
  }

  // ----- The store -----

  datatype Error = NotFound | WriteFailed

  /// `saved` says whether the file could be written.
  class Store {
    const L: Libs
    var rules: seq<Rule>
    var ruleset: seq<Compiled>
    var file: seq<Rule>

    /// The cached set is the one the current list compiles to.
    ghost predicate Valid()
      reads this
    {
      ruleset == New(L, rules)
    }

    constructor (L: Libs, loaded: seq<Rule>)
      ensures Valid() && rules == loaded && file == loaded && this.L == L
    {
      this.L, this.rules, this.file := L, loaded, loaded;
      ruleset := New(L, loaded);
    }

    /// Replaces the cached set first and only then tries the disk.
    method Persist(saved: bool) returns (r: Result<(), Error>)
      modifies this`ruleset, this`file
      ensures Valid()
      ensures r == if saved then Ok(()) else Err(WriteFailed)
      ensures file == if saved then rules else old(file)
    {
      var outRules, outCompiled, skipped := CompileRules(L, rules);
      ruleset := Zip(outRules, outCompiled);
      if !saved {
        return Err(WriteFailed);
      }
      file := rules;
      r := Ok(());
    }

    method Create(rule: Rule, saved: bool) returns (r: Result<(), Error>)
      modifies this
      ensures Valid() && rules == old(rules) + [rule]
      ensures r == if saved then Ok(()) else Err(WriteFailed)
      ensures file == if saved then rules else old(file)
    {
      rules := rules + [rule];
      r := Persist(saved);
    }

    method Update(id: string, rule: Rule, saved: bool) returns (r: Result<(), Error>)
      requires Valid()
      modifies this
      ensures Valid() && (r == Err(NotFound) <==> !HasId(old(rules), id))
      ensures Position(old(rules), id).None? ==> rules == old(rules) && file == old(file)
      ensures Position(old(rules), id).Some? ==> rules == old(rules)[Position(old(rules), id).value := rule]
                                                 && r == (if saved then Ok(()) else Err(WriteFailed))
                                                 && file == if saved then rules else old(file)
    {
      var pos := Position(rules, id);
      PositionIff(rules, id);
      if pos.None? {
        return Err(NotFound);
      }
      rules := rules[pos.value := rule];
      r := Persist(saved);
    }

    method Delete(id: string, saved: bool) returns (r: Result<(), Error>)
      requires Valid()
      modifies this
      ensures Valid() && (r == Err(NotFound) <==> !HasId(old(rules), id))
      ensures Position(old(rules), id).None? ==> rules == old(rules) && file == old(file)
      ensures Position(old(rules), id).Some? ==> rules == RemovedAt(old(rules), Position(old(rules), id).value)
                                                 && r == (if saved then Ok(()) else Err(WriteFailed))
                                                 && file == if saved then rules else old(file)
    {
      var pos := Position(rules, id);
      PositionIff(rules, id);
      if pos.None? {
        return Err(NotFound);
      }
      rules := RemovedAt(rules, pos.value);
      r := Persist(saved);
    }

    method Toggle(id: string, saved: bool) returns (r: Result<(), Error>)
      requires Valid()
      modifies this
      ensures Valid() && (r == Err(NotFound) <==> !HasId(old(rules), id))
      ensures Position(old(rules), id).None? ==> rules == old(rules) && file == old(file)
      ensures Position(old(rules), id).Some? ==>
                var i := Position(old(rules), id).value;
                && rules == old(rules)[i := old(rules)[i].(enabled := !old(rules)[i].enabled)]
                && r == (if saved then Ok(()) else Err(WriteFailed))
                && file == if saved then rules else old(file)
    {
      var pos := Position(rules, id);
      PositionIff(rules, id);
      if pos.None? {
        return Err(NotFound);
      }
      var rule := rules[pos.value];
      rules := rules[pos.value := rule.(enabled := !rule.enabled)];
      r := Persist(saved);
    }

    method Reorder(ids: seq<string>, saved: bool) returns (r: Result<(), Error>)
      modifies this
      ensures Valid() && rules == Reordered(old(rules), ids) && multiset(rules) == multiset(old(rules))
      ensures r == if saved then Ok(()) else Err(WriteFailed)
      ensures file == if saved then rules else old(file)
    {
      ReorderIsPermutation(rules, ids);
      rules := RunReorder(rules, ids);
      r := Persist(saved);
    }

    method Import(imported: seq<Rule>, saved: bool) returns (r: Result<(), Error>)
      modifies this
      ensures Valid() && rules == imported
      ensures r == if saved then Ok(()) else Err(WriteFailed)
      ensures file == if saved then rules else old(file)
    {
      rules := imported;
      r := Persist(saved);
    }
  }
}
