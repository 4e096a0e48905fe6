/// URLs and header lists as `rule.rs` and `http.rs` see them. Both files carry
/// the same `set_header`/`remove_header` pair; it is modelled once, here.

module Headers {
  import opened Common

  /// The parts of a `url::Url` that the two files look at.
  datatype Url = Url(
    scheme: string,
    credentials: string,
    host: Option<string>,
    port: Option<nat>,
    path: string,
    query: Option<string>,
    fragment: Option<string>)

  datatype HeaderPair = HeaderPair(name: string, value: string)

  type HeaderList = seq<HeaderPair>

  /// `header_lookup`: the values under a name, in order, ignoring ASCII case.
  function Lookup(headers: HeaderList, name: string): seq<string> {
    if headers == [] then []
    else (if SameName(headers[0].name, name) then [headers[0].value] else []) + Lookup(headers[1..], name)
  }

  /// `remove_header`: `retain` everything under other names.
  function RemoveHeader(headers: HeaderList, name: string): HeaderList {
    Filter((h: HeaderPair) => !SameName(h.name, name), headers)
  }

  /// `set_header`: one value under the name, at the end.
  function SetHeader(headers: HeaderList, name: string, value: string): HeaderList {
    RemoveHeader(headers, name) + [HeaderPair(name, value)]
  }

  lemma {:induction false} LookupConcat(a: HeaderList, b: HeaderList, name: string)
    ensures Lookup(a + b, name) == Lookup(a, name) + Lookup(b, name)
  {
    if a == [] {
      assert a + b == b;
    } else {
      assert (a + b)[1..] == a[1..] + b;
      LookupConcat(a[1..], b, name);
    }
  }

  /// After a removal the name has no values and every other name keeps its own.
  lemma {:induction false} LookupAfterRemove(headers: HeaderList, name: string, other: string)
    ensures Lookup(RemoveHeader(headers, name), other) ==
            if SameName(name, other) then [] else Lookup(headers, other)
  {
    if headers != [] {
      LookupAfterRemove(headers[1..], name, other);
      var p := (h: HeaderPair) => !SameName(h.name, name);
      LookupConcat(if p(headers[0]) then [headers[0]] else [], Filter(p, headers[1..]), other);
      assert Filter(p, headers[1..]) == RemoveHeader(headers[1..], name);
      if p(headers[0]) {
        assert Lookup([headers[0]], other) ==
               (if SameName(headers[0].name, other) then [headers[0].value] else []) + Lookup([], other);
      }
    }
  }

  /// After a set the name has exactly the new value and every other name keeps its own.
  lemma LookupAfterSet(headers: HeaderList, name: string, value: string, other: string)
    ensures Lookup(SetHeader(headers, name, value), other) ==
            if SameName(name, other) then [value] else Lookup(headers, other)
  {
    LookupAfterRemove(headers, name, other);
    LookupConcat(RemoveHeader(headers, name), [HeaderPair(name, value)], other);
    assert Lookup([HeaderPair(name, value)], other) ==
           (if SameName(name, other) then [value] else []) + Lookup([], other);
  }
}
