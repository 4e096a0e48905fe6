/// Types and sequence helpers shared by the models of several source files.

module Common {

  datatype Option<+T> = None | Some(value: T) {
    predicate IsFailure() {
      None?
    }

    function PropagateFailure<U>(): Option<U>
      requires None?
    {
      None
    }

    function Extract(): T
      requires Some?
    {
      value
    }
  }

  datatype Result<+T, +E> = Ok(value: T) | Err(error: E)

  type Byte = b: int | 0 <= b < 256
  type Bytes = seq<Byte>

  /// The largest `u64`; arithmetic that saturates in the source saturates here.
  const U64_MAX: nat := 0xFFFF_FFFF_FFFF_FFFF

  function Min(a: int, b: int): int {
    if a <= b then a else b
  }

  function Max(a: int, b: int): int {
    if a <= b then b else a
  }

  /// `u64::saturating_add`.
  function SatAdd(a: nat, b: nat): nat {
    if a + b <= U64_MAX then a + b else U64_MAX
  }

  /// ASCII lower-casing, as `to_ascii_lowercase` does it.
  function LowerChar(c: char): char {
    if 'A' <= c <= 'Z' then c - 'A' + 'a' else c
  }

  function Lower(s: string): (r: string)
    ensures |r| == |s|
  {
    seq(|s|, i requires 0 <= i < |s| => LowerChar(s[i]))
  }

  /// `str::eq_ignore_ascii_case`.
  predicate SameName(a: string, b: string) {
    Lower(a) == Lower(b)
  }

  predicate Contains(s: string, sub: string) {
    exists i | 0 <= i <= |s| :: sub <= s[i..]
  }

  lemma StartsIff(text: string, part: string)
    ensures part <= text <==> exists after: string :: text == part + after
  {
    if part <= text {
      assert text == part + text[|part|..];
    }
  }

  lemma EndsIff(text: string, part: string)
    ensures |part| <= |text| && text[|text| - |part|..] == part <==> exists before: string :: text == before + part
  {
    if |part| <= |text| && text[|text| - |part|..] == part {
      assert text == text[..|text| - |part|] + part;
    }
  }

  function Filter<T>(p: T -> bool, s: seq<T>): seq<T> {
    if s == [] then []
    else (if p(s[0]) then [s[0]] else []) + Filter(p, s[1..])
  }

  lemma {:induction false} FilterMembers<T>(p: T -> bool, s: seq<T>)
    ensures forall x :: x in Filter(p, s) <==> x in s && p(x)
  {
    if s != [] {
      FilterMembers(p, s[1..]);
      assert s == [s[0]] + s[1..];
    }
  }

  /// The places of `s` that pass the test, in order.
  ghost predicate Picks<T>(p: T -> bool, s: seq<T>, at: seq<nat>) {
    && (forall a, b | 0 <= a < b < |at| :: at[a] < at[b])
    && (forall a | 0 <= a < |at| :: at[a] < |s|)
    && (forall i: nat | i < |s| :: i in at <==> p(s[i]))
  }

  lemma PicksCons<T>(p: T -> bool, s: seq<T>, inner: seq<nat>) returns (at: seq<nat>)
    requires s != [] && Picks(p, s[1..], inner)
    ensures Picks(p, s, at)
    ensures at == (if p(s[0]) then [0] else []) + seq(|inner|, k requires 0 <= k < |inner| => inner[k] + 1)
  {
    var moved := seq(|inner|, k requires 0 <= k < |inner| => inner[k] + 1);
    at := (if p(s[0]) then [0] else []) + moved;
    forall i: nat | i < |s| ensures i in at <==> p(s[i]) {
      if i == 0 {
        assert 0 !in moved;
      } else {
        assert s[i] == s[1..][i - 1];
        MovedMembers(inner, moved, i - 1);
      }
    }
  }

  lemma MovedMembers(inner: seq<nat>, moved: seq<nat>, i: nat)
    requires |moved| == |inner| && forall k | 0 <= k < |inner| :: moved[k] == inner[k] + 1
    ensures i + 1 in moved <==> i in inner
  {
    if i in inner {
      var k :| 0 <= k < |inner| && inner[k] == i;
      assert moved[k] == i + 1;
    }
  }

  lemma PicksAreFew<T>(p: T -> bool, s: seq<T>, at: seq<nat>)
    requires Picks(p, s, at)
    ensures |at| <= |s|
  {
    AtLeast(at, |at|);
    if at != [] {
      var last := |at| - 1;
      assert last <= at[last] < |s|;
    }
  }

  lemma {:induction false} AtLeast(at: seq<nat>, n: nat)
    requires n <= |at| && forall a, b | 0 <= a < b < |at| :: at[a] < at[b]
    ensures forall k | 0 <= k < n :: at[k] >= k
  {
    if n > 0 {
      AtLeast(at, n - 1);
      assert n > 1 ==> at[n - 2] < at[n - 1];
    }
  }

  /// Where a passing place is among the picks.
  lemma PickOf<T>(p: T -> bool, s: seq<T>, at: seq<nat>, i: nat, k: nat) returns (m: nat)
    requires Picks(p, s, at) && i < |s| && p(s[i]) && k < |at|
    ensures m < |at| && at[m] == i && (i > at[k] ==> m > k)
  {
    m :| 0 <= m < |at| && at[m] == i;
    assert m < k ==> at[m] < at[k];
  }

  /// What is at the places.
  function Selected<T>(s: seq<T>, at: seq<nat>): (r: seq<T>)
    requires forall a | 0 <= a < |at| :: at[a] < |s|
    ensures |r| == |at|
  {
    seq(|at|, k requires 0 <= k < |at| => s[at[k]])
  }

  lemma SelectedLater<T>(s: seq<T>, inner: seq<nat>, moved: seq<nat>)
    requires s != [] && |moved| == |inner|
    requires forall k | 0 <= k < |inner| :: inner[k] < |s| - 1 && moved[k] == inner[k] + 1
    ensures Selected(s, moved) == Selected(s[1..], inner) && Selected(s, [0] + moved) == [s[0]] + Selected(s[1..], inner)
  {
  }

  /// A filter keeps exactly what passes, in the order it had.
  lemma {:induction false} FilterPicks<T>(p: T -> bool, s: seq<T>) returns (at: seq<nat>)
    ensures Picks(p, s, at) && Filter(p, s) == Selected(s, at)
  {
    if s == [] {
      at := [];
    } else {
      var inner := FilterPicks(p, s[1..]);
      at := PicksCons(p, s, inner);
      SelectedLater(s, inner, seq(|inner|, k requires 0 <= k < |inner| => inner[k] + 1));
    }
  }

  function Sum(s: seq<nat>): nat {
    if s == [] then 0 else s[0] + Sum(s[1..])
  }

  lemma {:induction false} SumConcat(a: seq<nat>, b: seq<nat>)
    ensures Sum(a + b) == Sum(a) + Sum(b)
  {
    if a == [] {
      assert a + b == b;
    } else {
      assert (a + b)[1..] == a[1..] + b;
      SumConcat(a[1..], b);
    }
  }

  lemma Regroup<T>(a: seq<T>, b: seq<T>, c: seq<T>)
    ensures a + b + c == a + (b + c)
  {
  }

  predicate NoDuplicates<T(==)>(s: seq<T>) {
    forall i, j | 0 <= i < j < |s| :: s[i] != s[j]
  }

  function Without<T(==)>(s: seq<T>, x: T): seq<T> {
    if s == [] then [] else (if s[0] == x then [] else [s[0]]) + Without(s[1..], x)
  }

  lemma {:induction false} WithoutMembers<T>(s: seq<T>, x: T)
    ensures forall y :: y in Without(s, x) <==> y in s && y != x
  {
    if s != [] {
      WithoutMembers(s[1..], x);
    }
  }

  lemma {:induction false} WithoutAbsent<T>(s: seq<T>, x: T)
    requires x !in s
    ensures Without(s, x) == s
  {
    if s != [] {
      assert s[0] in s;
      WithoutAbsent(s[1..], x);
    }
  }

  lemma {:induction false} WithoutConcat<T>(a: seq<T>, b: seq<T>, x: T)
    ensures Without(a + b, x) == Without(a, x) + Without(b, x)
  {
    if a == [] {
      assert a + b == b;
    } else {
      assert (a + b)[1..] == a[1..] + b;
      WithoutConcat(a[1..], b, x);
    }
  }

  lemma {:induction false} WithoutHasNoDuplicates<T>(s: seq<T>, x: T)
    requires NoDuplicates(s)
    ensures NoDuplicates(Without(s, x))
  {
    if s != [] {
      var later := Without(s[1..], x);
      WithoutHasNoDuplicates(s[1..], x);
      WithoutMembers(s[1..], x);
      assert Without(s, x) == (if s[0] != x then [s[0]] else []) + later;
      assert s[0] !in later;
    }
  }
}
