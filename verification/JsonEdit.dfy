/// The JSON editing operations of `crates/hamsy-core/src/rule.rs`: the
/// dot/bracket path parser and the four edits that `JsonOp` performs.

module JsonEdit {
  import opened Common

  /// A `serde_json::Value`; the order of object members is not observable here.
  datatype Json =
    | Null
    | Bool(flag: bool)
    | Num(text: string)
    | Str(text: string)
    | Arr(items: seq<Json>)
    | Obj(fields: map<string, Json>)

  datatype Seg = Key(name: string) | Index(at: nat)

  type Path = seq<Seg>

  datatype OpKind = OpSet | OpRemove | OpMerge | OpAppend

  datatype JsonOp = JsonOp(op: OpKind, path: string, value: Option<Json>)

  // ----- Navigation and the four edits -----

  /// The child of `j` that one segment selects, if there is one.
  function Child(j: Json, s: Seg): Option<Json> {
    match (s, j)
    case (Key(k), Obj(m)) => if k in m then Some(m[k]) else None
    case (Index(i), Arr(a)) => if i < |a| then Some(a[i]) else None
    case _ => None
  }

  /// `json_get_mut`, read side.
  function Get(root: Json, path: Path): Option<Json> {
    if path == [] then Some(root)
    else
      var c := Child(root, path[0]);
      if c.None? then None else Get(c.value, path[1..])
  }

  /// The array `a` padded with `null` until index `i` exists.
  function Padded(a: seq<Json>, i: nat): (r: seq<Json>)
    ensures |r| == Max(|a|, i + 1)
  {
    if i < |a| then a else a + seq(i + 1 - |a|, _ => Null)
  }

  /// The container that `json_set` descends into at segment `s`.
  function Prepared(j: Json, s: Seg): Json {
    match s
    case Key(k) =>
      var m := if j.Obj? then j.fields else map[];
      Obj(if k in m then m else m[k := Null])
    case Index(i) => Arr(Padded(if j.Arr? then j.items else [], i))
  }

  /// `j` with the child that `s` selects replaced by `v`.
  function WithChild(j: Json, s: Seg, v: Json): Json
    requires Child(j, s).Some?
  {
    match s
    case Key(k) => Obj(j.fields[k := v])
    case Index(i) => Arr(j.items[i := v])
  }

  /// `json_set`.
  function Set(current: Json, path: Path, value: Json): Json
    decreases |path|
  {
    if path == [] then value
    else
      var p := Prepared(current, path[0]);
      WithChild(p, path[0], Set(Child(p, path[0]).value, path[1..], value))
  }

  /// What assigning through the reference returned by `json_get_mut` leaves.
  function Assign(root: Json, path: Path, value: Json): Json
    requires Get(root, path).Some?
    decreases |path|
  {
    if path == [] then value
    else WithChild(root, path[0], Assign(Child(root, path[0]).value, path[1..], value))
  }

  /// `json_remove`, at the parent.
  function Drop(parent: Json, last: Seg): Json {
    match (last, parent)
    case (Key(k), Obj(m)) => Obj(m - {k})
    case (Index(i), Arr(a)) => if i < |a| then Arr(a[..i] + a[i + 1..]) else parent
    case _ => parent
  }

  /// `json_remove`.
  function Remove(root: Json, path: Path): Json {
    if path == [] then root
    else
      var init := path[..|path| - 1];
      var parent := Get(root, init);
      if parent.None? then root else Assign(root, init, Drop(parent.value, path[|path| - 1]))
  }

  /// `json_merge`.
  function Merge(root: Json, path: Path, value: Json): Json {
    if !value.Obj? then Set(root, path, value)
    else
      match Get(root, path)
      case Some(Obj(existing)) => Assign(root, path, Obj(existing + value.fields))
      case Some(_) => Assign(root, path, value)
      case None => Set(root, path, value)
  }

  /// `json_append`.
  function Append(root: Json, path: Path, value: Json): Json {
    match Get(root, path)
    case Some(Arr(a)) => Assign(root, path, Arr(a + [value]))
    case Some(_) => Assign(root, path, Arr([value]))
    case None => Set(root, path, Arr([value]))
  }

  // ----- The edits as the source runs them -----

  /// `json_get_mut`: walks the segments one by one.
  method GetMut(root: Json, path: Path) returns (found: Option<Json>)
    ensures found == Get(root, path)
  {
    var cur := root;
    for i := 0 to |path|
      invariant Get(root, path) == Get(cur, path[i..])
    {
      var c := Child(cur, path[i]);
      if c.None? {
        return None;
      }
      cur := c.value;
      assert path[i..][1..] == path[i + 1..];
    }
    found := Some(cur);
  }

  /// The loop of `json_set` that pads an array with `null`.
  method PadTo(items: seq<Json>, idx: nat) returns (arr: seq<Json>)
    ensures arr == Padded(items, idx)
  {
    arr := items;
    while |arr| <= idx
      invariant |items| <= |arr| <= Max(|items|, idx + 1)
      invariant arr == items + seq(|arr| - |items|, _ => Null)
    {
      arr := arr + [Null];
    }
  }

  /// `json_set`: makes the container where needed, then recurses into it.
  method SetInPlace(current: Json, path: Path, value: Json) returns (updated: Json)
    ensures updated == Set(current, path, value)
    decreases |path|
  {
    if path == [] {
      return value;
    }
    var seg, rest := path[0], path[1..];
    match seg {
      case Key(key) =>
        var m := if current.Obj? then current.fields else map[];
        if key !in m {
          m := m[key := Null];
        }
        assert Prepared(current, seg) == Obj(m) && Child(Obj(m), seg) == Some(m[key]);
        var entry := SetInPlace(m[key], rest, value);
        updated := Obj(m[key := entry]);
        assert updated == WithChild(Obj(m), seg, entry);
      case Index(idx) =>
        var arr := PadTo(if current.Arr? then current.items else [], idx);
        assert Prepared(current, seg) == Arr(arr) && Child(Arr(arr), seg) == Some(arr[idx]);
        var entry := SetInPlace(arr[idx], rest, value);
        updated := Arr(arr[idx := entry]);
        assert updated == WithChild(Arr(arr), seg, entry);
    }
  }

  /// The loop of `json_merge` that inserts every new member.
  method InsertAll(existing: map<string, Json>, added: map<string, Json>) returns (merged: map<string, Json>)
    ensures merged == existing + added
  {
    merged := existing;
    var todo := added.Keys;
    while todo != {}
      invariant todo <= added.Keys
      invariant merged == existing + map k | k in added && k !in todo :: added[k]
    {
      var k :| k in todo;
      merged := merged[k := added[k]];
      todo := todo - {k};
    }
    assert added == map k | k in added && k !in todo :: added[k];
  }

  /// `json_merge`: inserts member by member through the reference found.
  method MergeInPlace(root: Json, path: Path, value: Json) returns (updated: Json)
    ensures updated == Merge(root, path, value)
  {
    if !value.Obj? {
      updated := SetInPlace(root, path, value);
      return;
    }
    var found := GetMut(root, path);
    match found {
      case Some(Obj(existing)) =>
        var merged := InsertAll(existing, value.fields);
        updated := Assign(root, path, Obj(merged));
      case Some(_) => updated := Assign(root, path, value);
      case None => updated := SetInPlace(root, path, value);
    }
  }

  /// `json_append`.
  method AppendInPlace(root: Json, path: Path, value: Json) returns (updated: Json)
    ensures updated == Append(root, path, value)
  {
    var found := GetMut(root, path);
    match found {
      case Some(Arr(items)) => updated := Assign(root, path, Arr(items + [value]));
      case Some(_) => updated := Assign(root, path, Arr([value]));
      case None => updated := SetInPlace(root, path, Arr([value]));
    }
  }

  /// `json_remove`.
  method RemoveInPlace(root: Json, path: Path) returns (updated: Json)
    ensures updated == Remove(root, path)
  {
    if path == [] {
      return root;
    }
    var init, last := path[..|path| - 1], path[|path| - 1];
    var parent := GetMut(root, init);
    updated := if parent.None? then root else Assign(root, init, Drop(parent.value, last));
  }

  // ----- Lens laws -----

  lemma PreparedHasChild(j: Json, s: Seg)
    ensures Child(Prepared(j, s), s).Some?
    ensures Child(j, s).Some? ==> Prepared(j, s) == j
  {
  }

  lemma ChildReplaced(j: Json, s: Seg, v: Json, w: Json)
    requires Child(j, s).Some?
    ensures Child(WithChild(j, s, v), s) == Some(v)
    ensures WithChild(WithChild(j, s, v), s, w) == WithChild(j, s, w)
    ensures WithChild(j, s, Child(j, s).value) == j
  {
  }

  lemma SetStep(j: Json, path: Path, v: Json)
    requires path != []
    ensures Child(Set(j, path, v), path[0]) == Some(Set(Child(Prepared(j, path[0]), path[0]).value, path[1..], v))
  {
    ChildReplaced(Prepared(j, path[0]), path[0], Set(Child(Prepared(j, path[0]), path[0]).value, path[1..], v), v);
  }

  /// Reading what was just set gives the value back, whatever was there.
  lemma {:induction false} GetSet(j: Json, path: Path, v: Json)
    ensures Get(Set(j, path, v), path) == Some(v)
    decreases |path|
  {
    if path != [] {
      SetStep(j, path, v);
      GetSet(Child(Prepared(j, path[0]), path[0]).value, path[1..], v);
    }
  }

  /// The second of two sets at one path wins.
  lemma {:induction false} SetSet(j: Json, path: Path, v: Json, w: Json)
    ensures Set(Set(j, path, v), path, w) == Set(j, path, w)
    decreases |path|
  {
    if path != [] {
      var s, rest := path[0], path[1..];
      var p := Prepared(j, s);
      var c := Child(p, s).value;
      var once := Set(j, path, v);
      SetStep(j, path, v);
      PreparedHasChild(once, s);
      SetSet(c, rest, v, w);
      ChildReplaced(p, s, Set(c, rest, v), Set(c, rest, w));
    }
  }

  /// Setting the value that is already there changes nothing.
  lemma {:induction false} SetGet(j: Json, path: Path)
    requires Get(j, path).Some?
    ensures Set(j, path, Get(j, path).value) == j
    decreases |path|
  {
    if path != [] {
      PreparedHasChild(j, path[0]);
      SetGet(Child(j, path[0]).value, path[1..]);
      ChildReplaced(j, path[0], j, j);
    }
  }

  /// Where a value exists, assigning through the reference is a set.
  lemma {:induction false} AssignIsSet(j: Json, path: Path, v: Json)
    requires Get(j, path).Some?
    ensures Assign(j, path, v) == Set(j, path, v)
    decreases |path|
  {
    if path != [] {
      AssignIsSet(Child(j, path[0]).value, path[1..], v);
    }
  }

  predicate SameKind(a: Seg, b: Seg) {
    a.Key? == b.Key?
  }

  /// The paths agree before `at` and part there.
  predicate DivergeAt(p: Path, q: Path, at: nat) {
    at < |p| && at < |q| && p[..at] == q[..at] && p[at] != q[at]
  }

  /// A set leaves an existing value on a diverging path alone exactly when the
  /// two paths part at segments of one kind; where a key meets an index the
  /// container is replaced and the other value is gone.
  lemma {:induction false} SetFrame(j: Json, p: Path, q: Path, at: nat, v: Json)
    requires DivergeAt(p, q, at) && Get(j, q).Some?
    ensures Get(Set(j, p, v), q) == (if SameKind(p[at], q[at]) then Get(j, q) else None)
    decreases |p|
  {
    var c := Prepared(j, p[0]);
    if at > 0 {
      assert p[0] == p[..at][0] == q[..at][0] == q[0];
      assert p[1..][..at - 1] == p[..at][1..] == q[..at][1..] == q[1..][..at - 1];
      SetFrame(Child(c, p[0]).value, p[1..], q[1..], at - 1, v);
    }
  }

  /// What the set of an array place makes of a place before it.
  predicate PadsOver(p: Path, q: Path, at: nat)
    requires at < |p| && at < |q|
  {
    at == |q| - 1 && p[at].Index? && q[at].Index? && q[at].at < p[at].at
  }

  /// A set makes nothing up on a diverging path, but for the `null`s with which an
  /// array is padded up to the place that is set.
  lemma {:induction false} SetPads(j: Json, p: Path, q: Path, at: nat, v: Json)
    requires DivergeAt(p, q, at) && Get(j, q).None?
    ensures Get(Set(j, p, v), q) == if PadsOver(p, q, at) then Some(Null) else None
    decreases |p|
  {
    if at > 0 {
      var child := Child(Prepared(j, p[0]), p[0]).value;
      assert p[0] == p[..at][0] == q[..at][0] == q[0];
      assert p[1..][..at - 1] == p[..at][1..] == q[..at][1..] == q[1..][..at - 1];
      assert q == [q[0]] + q[1..];
      NothingBelow(j, p[0], q[1..]);
      SetPads(child, p[1..], q[1..], at - 1, v);
      SetStep(j, p, v);
    } else {
      SetPadsHere(j, p, q, v);
    }
  }

  lemma SetPadsHere(j: Json, p: Path, q: Path, v: Json)
    requires DivergeAt(p, q, 0) && Get(j, q).None?
    ensures Get(Set(j, p, v), q) == if PadsOver(p, q, 0) then Some(Null) else None
  {
    assert |q| > 1 ==> Get(Null, q[1..]) == None;
  }

  lemma NothingBelow(j: Json, s: Seg, rest: Path)
    requires rest != [] && Get(j, [s] + rest).None?
    ensures Get(Child(Prepared(j, s), s).value, rest).None?
  {
    assert ([s] + rest)[1..] == rest;
  }

  /// Merging into an object is the right-biased union; anything else is replaced.
  lemma MergeAt(j: Json, path: Path, v: Json)
    ensures Get(Merge(j, path, v), path) == Some(
              if v.Obj? && Get(j, path).Some? && Get(j, path).value.Obj?
              then Obj(Get(j, path).value.fields + v.fields) else v)
  {
    EditIsSet(j, path, v);
    var r := if v.Obj? && Get(j, path).Some? && Get(j, path).value.Obj?
             then Obj(Get(j, path).value.fields + v.fields) else v;
    GetSet(j, path, r);
  }

  /// Appending lengthens an array by one and makes a one-element array elsewhere.
  lemma AppendAt(j: Json, path: Path, v: Json)
    ensures Get(Append(j, path, v), path) == Some(
              if Get(j, path).Some? && Get(j, path).value.Arr?
              then Arr(Get(j, path).value.items + [v]) else Arr([v]))
  {
    EditIsSet(j, path, v);
    var r := if Get(j, path).Some? && Get(j, path).value.Arr?
             then Arr(Get(j, path).value.items + [v]) else Arr([v]);
    GetSet(j, path, r);
  }

  /// Merge and append only ever set one value at their path, so `SetFrame`
  /// and the other set laws speak about them too.
  lemma EditIsSet(j: Json, path: Path, v: Json)
    ensures Merge(j, path, v) == Set(j, path,
              if v.Obj? && Get(j, path).Some? && Get(j, path).value.Obj?
              then Obj(Get(j, path).value.fields + v.fields) else v)
    ensures Append(j, path, v) == Set(j, path,
              if Get(j, path).Some? && Get(j, path).value.Arr?
              then Arr(Get(j, path).value.items + [v]) else Arr([v]))
  {
    if Get(j, path).Some? {
      var cur := Get(j, path).value;
      AssignIsSet(j, path, v);
      AssignIsSet(j, path, Arr([v]));
      if v.Obj? && cur.Obj? {
        AssignIsSet(j, path, Obj(cur.fields + v.fields));
      }
      if cur.Arr? {
        AssignIsSet(j, path, Arr(cur.items + [v]));
      }
    }
  }

  lemma {:induction false} GetConcat(j: Json, p: Path, q: Path)
    ensures Get(j, p + q) == if Get(j, p).None? then None else Get(Get(j, p).value, q)
    decreases |p|
  {
    if p == [] {
      assert p + q == q;
    } else {
      assert (p + q)[1..] == p[1..] + q;
      var c := Child(j, p[0]);
      if c.Some? {
        GetConcat(c.value, p[1..], q);
      }
    }
  }

  /// Where something is addressed, its parent is left without it.
  lemma RemovePresent(j: Json, init: Path, last: Seg)
    requires Get(j, init + [last]).Some?
    ensures Get(j, init).Some? && Child(Get(j, init).value, last).Some?
    ensures Remove(j, init + [last]) == Set(j, init, Drop(Get(j, init).value, last))
    ensures Get(Remove(j, init + [last]), init) == Some(Drop(Get(j, init).value, last))
  {
    var path := init + [last];
    assert path[..|path| - 1] == init && path[|path| - 1] == last;
    GetConcat(j, init, [last]);
    var parent := Get(j, init).value;
    assert Get(parent, [last]) == Child(parent, last);
    AssignIsSet(j, init, Drop(parent, last));
    GetSet(j, init, Drop(parent, last));
  }

  lemma RemoveAbsent(j: Json, init: Path, last: Seg)
    requires Get(j, init + [last]).None?
    ensures Remove(j, init + [last]) == j
  {
    var path := init + [last];
    assert path[..|path| - 1] == init && path[|path| - 1] == last;
    GetConcat(j, init, [last]);
    if Get(j, init).Some? {
      var parent := Get(j, init).value;
      assert Get(parent, [last]) == Child(parent, last);
      DropNothing(parent, last);
      AssignIsSet(j, init, parent);
      SetGet(j, init);
    }
  }

  lemma DropNothing(parent: Json, last: Seg)
    requires Child(parent, last).None?
    ensures Drop(parent, last) == parent
  {
    if parent.Obj? && last.Key? {
      assert parent.fields - {last.name} == parent.fields;
    }
  }

  /// Remove takes out exactly the addressed member or element: a key is gone
  /// and its siblings stay, an array closes up over the index, and where
  /// nothing is addressed the document is unchanged. It only ever sets the
  /// parent, so `SetFrame` speaks about the rest of the document.
  lemma RemoveAt(j: Json, init: Path, last: Seg)
    ensures Get(j, init + [last]).None? ==> Remove(j, init + [last]) == j
    ensures Get(j, init + [last]).Some? ==>
              Get(j, init).Some? && Remove(j, init + [last]) == Set(j, init, Drop(Get(j, init).value, last))
    ensures Get(j, init + [last]).Some? && last.Key? ==>
              Get(j, init).Some? && Get(j, init).value.Obj? &&
              Get(Remove(j, init + [last]), init) == Some(Obj(Get(j, init).value.fields - {last.name}))
    ensures Get(j, init + [last]).Some? && last.Index? ==>
              Get(j, init).Some? && Get(j, init).value.Arr? && last.at < |Get(j, init).value.items| &&
              Get(Remove(j, init + [last]), init) ==
              Some(Arr(Get(j, init).value.items[..last.at] + Get(j, init).value.items[last.at + 1..]))
  {
    if Get(j, init + [last]).Some? {
      RemovePresent(j, init, last);
    } else {
      RemoveAbsent(j, init, last);
    }
  }

  // ----- The path parser -----

  predicate IsDigit(c: char) {
    '0' <= c <= '9'
  }

  /// The value of a run of decimal digits.
  function DigitsValue(s: string): Option<nat> {
    if s == [] then Some(0)
    else
      var front := DigitsValue(s[..|s| - 1]);
      if front.None? || !IsDigit(s[|s| - 1]) then None
      else Some(10 * front.value + (s[|s| - 1] as int - '0' as int))
  }

  /// `str::parse::<usize>`: an optional plus sign, at least one digit, at most 64 bits.
  function ParseUsize(s: string): Option<nat> {
    var digits := if s != [] && s[0] == '+' then s[1..] else s;
    if digits == [] then None
    else
      var n := DigitsValue(digits);
      if n.Some? && n.value <= U64_MAX then n else None
  }

  function UntilBracket(s: string): string {
    if s == [] || s[0] == ']' then [] else [s[0]] + UntilBracket(s[1..])
  }

  function AfterBracket(s: string): (r: string)
    ensures |r| <= |s|
  {
    if s == [] then [] else if s[0] == ']' then s[1..] else AfterBracket(s[1..])
  }

  function Flushed(current: string): Path {
    if current == [] then [] else [Key(current)]
  }

  function IndexSegs(text: string): Path {
    var n := ParseUsize(text);
    if n.Some? then [Index(n.value)] else []
  }

  /// The segments still to come when `current` is half-read and `rest` is unread.
  function ParseFrom(current: string, rest: string): Path
    decreases |rest|
  {
    if rest == [] then Flushed(current)
    else if rest[0] == '.' then Flushed(current) + ParseFrom([], rest[1..])
    else if rest[0] == '[' then
      Flushed(current) + IndexSegs(UntilBracket(rest[1..])) + ParseFrom([], AfterBracket(rest[1..]))
    else ParseFrom(current + [rest[0]], rest[1..])
  }

  /// The inner loop of `parse_path`: everything up to the closing bracket.
  method ReadIndexText(after: string) returns (idx: string, chars: string)
    ensures idx == UntilBracket(after) && chars == AfterBracket(after)
  {
    idx, chars := [], after;
    while chars != []
      invariant idx + UntilBracket(chars) == UntilBracket(after)
      invariant AfterBracket(chars) == AfterBracket(after)
      decreases |chars|
    {
      var c := chars[0];
      if c == ']' {
        chars := chars[1..];
        return;
      }
      idx, chars := idx + [c], chars[1..];
    }
  }

  /// One separator of `parse_path`: closes the current key and, at a bracket,
  /// reads the index.
  method ReadSeparator(current: string, c: char, rest: string) returns (found: Path, after: string)
    requires c == '.' || c == '['
    ensures |after| <= |rest|
    ensures ParseFrom(current, [c] + rest) == found + ParseFrom([], after)
  {
    found, after := [], rest;
    if current != [] {
      found := [Key(current)];
    }
    assert found == Flushed(current);
    assert ([c] + rest)[1..] == rest;
    if c == '[' {
      var idx;
      idx, after := ReadIndexText(rest);
      var n := ParseUsize(idx);
      if n.Some? {
        found := found + [Index(n.value)];
      }
      assert found == Flushed(current) + IndexSegs(idx);
    }
  }

  /// `parse_path`: one pass over the characters.
  method ParsePath(path: string) returns (segments: Path)
    ensures segments == ParseFrom([], path)
  {
    segments := [];
    var current, chars := "", path;
    while chars != []
      invariant segments + ParseFrom(current, chars) == ParseFrom([], path)
      decreases |chars|
    {
      var c, rest := chars[0], chars[1..];
      assert chars == [c] + rest;
      if c == '.' || c == '[' {
        var found, after := ReadSeparator(current, c, rest);
        Regroup(segments, found, ParseFrom([], after));
        segments, current, chars := segments + found, [], after;
      } else {
        current, chars := current + [c], rest;
      }
    }
    if current != [] {
      segments := segments + [Key(current)];
    }
  }

  function Decimal(n: nat): string {
    if n < 10 then [('0' as int + n) as char]
    else Decimal(n / 10) + [('0' as int + n % 10) as char]
  }

  /// The usual spelling of a path: keys joined by dots, indices in brackets.
  function Print(path: Path): string {
    PrintTail(path, true)
  }

  function PrintSeg(s: Seg, first: bool): string {
    match s
    case Key(k) => (if first then [] else ".") + k
    case Index(i) => "[" + Decimal(i) + "]"
  }

  function PrintTail(path: Path, first: bool): string {
    if path == [] then [] else PrintSeg(path[0], first) + PrintTail(path[1..], false)
  }

  predicate CleanKey(k: string) {
    k != [] && '.' !in k && '[' !in k
  }

  predicate CleanSeg(s: Seg) {
    match s
    case Key(k) => CleanKey(k)
    case Index(i) => i <= U64_MAX
  }

  predicate CleanPath(path: Path) {
    forall s :: s in path ==> CleanSeg(s)
  }

  lemma {:induction false} DecimalDigits(n: nat)
    ensures DigitsValue(Decimal(n)) == Some(n)
    ensures Decimal(n) != [] && forall c :: c in Decimal(n) ==> IsDigit(c)
  {
    var s := Decimal(n);
    if n < 10 {
      assert s[..|s| - 1] == [];
    } else {
      DecimalDigits(n / 10);
      assert s[..|s| - 1] == Decimal(n / 10);
    }
  }

  lemma {:induction false} BracketSplit(inner: string, rest: string)
    requires ']' !in inner
    ensures UntilBracket(inner + "]" + rest) == inner
    ensures AfterBracket(inner + "]" + rest) == rest
  {
    var s := inner + "]" + rest;
    if inner != [] {
      assert s[1..] == inner[1..] + "]" + rest;
      BracketSplit(inner[1..], rest);
    }
  }

  /// A bracket whose text is no index closes the key before it and is skipped; one
  /// that is never closed takes the rest of the path with it.
  lemma NoIndexIsSkipped(current: string, inner: string, rest: string)
    requires ']' !in inner && IndexSegs(inner) == []
    ensures ParseFrom(current, "[" + (inner + "]" + rest)) == Flushed(current) + ParseFrom([], rest)
    ensures ParseFrom(current, "[" + inner) == Flushed(current)
  {
    var s := "[" + (inner + "]" + rest);
    BracketSplit(inner, rest);
    assert s[1..] == inner + "]" + rest && ("[" + inner)[1..] == inner;
    NoBracket(inner);
    assert Flushed(current) + [] + ParseFrom([], rest) == Flushed(current) + ParseFrom([], rest);
    assert Flushed(current) + [] + [] == Flushed(current);
  }

  lemma {:induction false} NoBracket(s: string)
    requires ']' !in s
    ensures UntilBracket(s) == s && AfterBracket(s) == []
  {
    if s != [] {
      NoBracket(s[1..]);
    }
  }

  lemma {:induction false} ParseKeyChars(current: string, k: string, rest: string)
    requires '.' !in k && '[' !in k
    ensures ParseFrom(current, k + rest) == ParseFrom(current + k, rest)
    decreases |k|
  {
    if k == [] {
      assert k + rest == rest && current + k == current;
    } else {
      assert (k + rest)[1..] == k[1..] + rest;
      ParseKeyChars(current + [k[0]], k[1..], rest);
      assert current + [k[0]] + k[1..] == current + k;
    }
  }

  lemma ParsePrintedKey(current: string, k: string, first: bool, tail: string)
    requires CleanKey(k) && (first ==> current == [])
    ensures ParseFrom(current, PrintSeg(Key(k), first) + tail) == Flushed(current) + ParseFrom(k, tail)
  {
    ParseKeyChars([], k, tail);
    assert [] + k == k;
    if first {
      assert [] + k + tail == k + tail;
    } else {
      assert (("." + k) + tail)[1..] == k + tail;
    }
  }

  lemma ParsePrintedIndex(current: string, i: nat, first: bool, tail: string)
    requires i <= U64_MAX
    ensures ParseFrom(current, PrintSeg(Index(i), first) + tail) ==
            Flushed(current) + [Index(i)] + ParseFrom([], tail)
  {
    DecimalDigits(i);
    var text := PrintSeg(Index(i), first) + tail;
    assert text[1..] == Decimal(i) + "]" + tail;
    BracketSplit(Decimal(i), tail);
    assert Decimal(i)[0] in Decimal(i);
  }

  lemma {:induction false} ParsePrintTail(current: string, path: Path, first: bool)
    requires CleanPath(path) && (first ==> current == [])
    ensures ParseFrom(current, PrintTail(path, first)) == Flushed(current) + path
    decreases |path|
  {
    if path != [] {
      var s, later := path[0], path[1..];
      assert path == [s] + later && CleanSeg(s);
      match s {
        case Key(k) =>
          ParsePrintTail(k, later, false);
          ParsePrintedKey(current, k, first, PrintTail(later, false));
          assert Flushed(k) == [s];
        case Index(i) =>
          ParsePrintTail([], later, false);
          ParsePrintedIndex(current, i, first, PrintTail(later, false));
          Regroup(Flushed(current), [s], later);
      }
    }
  }

  lemma {:induction false} ParsedIsClean(current: string, rest: string)
    requires '.' !in current && '[' !in current
    ensures CleanPath(ParseFrom(current, rest))
    decreases |rest|
  {
    if rest != [] {
      if rest[0] == '.' {
        ParsedIsClean([], rest[1..]);
      } else if rest[0] == '[' {
        ParsedIsClean([], AfterBracket(rest[1..]));
      } else {
        ParsedIsClean(current + [rest[0]], rest[1..]);
      }
    }
  }

  /// Parsing undoes printing for exactly the paths whose keys are non-empty
  /// and free of '.' and '[' and whose indices fit a `usize`.
  lemma ParseInvertsPrint(path: Path)
    ensures ParseFrom([], Print(path)) == path <==> CleanPath(path)
  {
    ParsedIsClean([], Print(path));
    if CleanPath(path) {
      ParsePrintTail([], path, true);
    }
  }

  // ----- Running a list of edits -----

  function ApplyOp(j: Json, op: JsonOp): Json {
    var path := ParseFrom([], op.path);
    var value := if op.value.Some? then op.value.value else Null;
    match op.op
    case OpSet => Set(j, path, value)
    case OpRemove => Remove(j, path)
    case OpMerge => Merge(j, path, value)
    case OpAppend => Append(j, path, value)
  }

  /// One value is put at the path; the set laws say what that leaves elsewhere.
  predicate Puts(j: Json, path: Path, w: Json, r: Json) {
    r == Set(j, path, w) && Get(r, path) == Some(w)
  }

  /// The member or the element is taken out of its parent.
  predicate TakesOut(j: Json, init: Path, last: Seg, r: Json) {
    var parent := Get(j, init);
    match (last, parent)
    case (Key(k), Some(Obj(fields))) => k in fields && Puts(j, init, Obj(fields - {k}), r)
    case (Index(i), Some(Arr(items))) => i < |items| && Puts(j, init, Arr(items[..i] + items[i + 1..]), r)
    case _ => false
  }

  /// What one edit leaves.
  predicate Leaves(j: Json, op: JsonOp, r: Json) {
    var path := ParseFrom([], op.path);
    var value := match op.value case Some(v) => v case None => Null;
    match op.op
    case OpSet => Puts(j, path, value, r)
    case OpMerge =>
      (match (Get(j, path), value)
       case (Some(Obj(there)), Obj(added)) => Puts(j, path, Obj(there + added), r)
       case _ => Puts(j, path, value, r))
    case OpAppend =>
      (match Get(j, path)
       case Some(Arr(items)) => Puts(j, path, Arr(items + [value]), r)
       case _ => Puts(j, path, Arr([value]), r))
    case OpRemove =>
      if path == [] || Get(j, path).None? then r == j else TakesOut(j, path[..|path| - 1], path[|path| - 1], r)
  }

  lemma RemoveTakesOut(j: Json, init: Path, last: Seg)
    requires Get(j, init + [last]).Some?
    ensures TakesOut(j, init, last, Remove(j, init + [last]))
  {
    RemovePresent(j, init, last);
    GetSet(j, init, Drop(Get(j, init).value, last));
  }

  lemma MergePuts(j: Json, path: Path, value: Json)
    ensures match (Get(j, path), value)
            case (Some(Obj(there)), Obj(added)) => Puts(j, path, Obj(there + added), Merge(j, path, value))
            case _ => Puts(j, path, value, Merge(j, path, value))
  {
    EditIsSet(j, path, value);
    MergeAt(j, path, value);
  }

  lemma AppendPuts(j: Json, path: Path, value: Json)
    ensures match Get(j, path)
            case Some(Arr(items)) => Puts(j, path, Arr(items + [value]), Append(j, path, value))
            case _ => Puts(j, path, Arr([value]), Append(j, path, value))
  {
    EditIsSet(j, path, value);
    AppendAt(j, path, value);
  }

  /// Every operation does what its name says, with `null` for a missing value.
  lemma OpLeaves(j: Json, op: JsonOp)
    ensures Leaves(j, op, ApplyOp(j, op))
  {
    var path := ParseFrom([], op.path);
    var value := if op.value.Some? then op.value.value else Null;
    match op.op {
      case OpSet => GetSet(j, path, value);
      case OpMerge => MergePuts(j, path, value);
      case OpAppend => AppendPuts(j, path, value);
      case OpRemove =>
        if path != [] {
          var init, last := path[..|path| - 1], path[|path| - 1];
          assert path == init + [last];
          if Get(j, path).Some? {
            RemoveTakesOut(j, init, last);
          } else {
            RemoveAbsent(j, init, last);
          }
        }
    }
  }

  /// Edits run in the order of the list.
  lemma {:induction false} OpsConcat(j: Json, a: seq<JsonOp>, b: seq<JsonOp>)
    ensures ApplyOps(j, a + b) == ApplyOps(ApplyOps(j, a), b)
    decreases |a|
  {
    if a == [] {
      assert a + b == b;
    } else {
      assert (a + b)[1..] == a[1..] + b;
      OpsConcat(ApplyOp(j, a[0]), a[1..], b);
    }
  }

  function ApplyOps(j: Json, ops: seq<JsonOp>): Json
    decreases |ops|
  {
    if ops == [] then j else ApplyOps(ApplyOp(j, ops[0]), ops[1..])
  }
}
