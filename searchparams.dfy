/**
 * A parsed URL as the extension sees it: host name, path and the ordered list
 * of query pairs behind `url.searchParams`, with the `has`, `get`, `set` and
 * `delete` operations of the URLSearchParams interface (section 6.2 of the
 * WHATWG URL Standard). Percent- and form-encoding are abstracted away: a pair
 * holds the same text in the raw query string and in the parsed list.
 */
module SearchParams {
  import opened Wrappers

  datatype Param = Param(name: string, value: string)

  datatype Url = Url(host: string, path: string, query: seq<Param>)

  /** `searchParams.has(name)` */
  function Has(ps: seq<Param>, name: string): (r: bool)
    ensures r <==> exists i :: 0 <= i < |ps| && ps[i].name == name
  {
    if ps == [] then false
    else if ps[0].name == name then true
    else
      var r := Has(ps[1..], name);
      assert forall i :: 0 < i < |ps| ==> ps[i] == ps[1..][i - 1];
      r
  }

  /** `searchParams.get(name)`: the value of the first pair named `name`, or null. */
  function Get(ps: seq<Param>, name: string): (r: Option<string>)
    ensures r.None? <==> !Has(ps, name)
    ensures r.Some? ==> Param(name, r.value) in ps
  {
    if ps == [] then None
    else if ps[0].name == name then Some(ps[0].value)
    else Get(ps[1..], name)
  }

  /** `get` answers with the pair at the first position that carries the name. */
  lemma {:induction false} GetIsFirst(ps: seq<Param>, name: string, i: int)
    requires 0 <= i < |ps| && ps[i].name == name
    requires forall j :: 0 <= j < i ==> ps[j].name != name
    ensures Get(ps, name) == Some(ps[i].value)
  {
    if i > 0 {
      GetIsFirst(ps[1..], name, i - 1);
    }
  }

  /** `searchParams.delete(name)`: removes every pair named `name`, keeping the others in order. */
  function Delete(ps: seq<Param>, name: string): (r: seq<Param>)
    ensures !Has(r, name)
    ensures forall p {:trigger p in r} :: p in r <==> p in ps && p.name != name
    ensures !Has(ps, name) ==> r == ps
  {
    if ps == [] then []
    else
      var rest := Delete(ps[1..], name);
      assert forall p :: p in ps <==> p == ps[0] || p in ps[1..];
      if ps[0].name == name then rest
      else
        var r := [ps[0]] + rest;
        assert r[1..] == rest;
        r
  }

  /** Deleting one name leaves `get` of every other name as it was. */
  lemma {:induction false} DeleteKeepsOthers(ps: seq<Param>, name: string, other: string)
    requires other != name
    ensures Get(Delete(ps, name), other) == Get(ps, other)
  {
    if ps != [] {
      DeleteKeepsOthers(ps[1..], name, other);
      if ps[0].name != name {
        assert ([ps[0]] + Delete(ps[1..], name))[1..] == Delete(ps[1..], name);
      }
    }
  }

  /** `delete` distributes over concatenation: the kept pairs stay in their order. */
  lemma {:induction false} DeleteAppend(a: seq<Param>, b: seq<Param>, name: string)
    ensures Delete(a + b, name) == Delete(a, name) + Delete(b, name)
  {
    if a == [] {
      assert a + b == b;
    } else {
      assert (a + b)[1..] == a[1..] + b;
      DeleteAppend(a[1..], b, name);
      if a[0].name != name {
        assert [a[0]] + (Delete(a[1..], name) + Delete(b, name)) == [a[0]] + Delete(a[1..], name) + Delete(b, name);
      }
    }
  }

  lemma HasAppend(a: seq<Param>, b: seq<Param>, name: string)
    ensures Has(a + b, name) <==> Has(a, name) || Has(b, name)
  {
    if Has(a + b, name) {
      var i :| 0 <= i < |a + b| && (a + b)[i].name == name;
      if i >= |a| {
        assert b[i - |a|] == (a + b)[i];
      }
    }
    if Has(a, name) {
      var i :| 0 <= i < |a| && a[i].name == name;
      assert (a + b)[i] == a[i];
    }
    if Has(b, name) {
      var i :| 0 <= i < |b| && b[i].name == name;
      assert (a + b)[|a| + i] == b[i];
    }
  }

  lemma {:induction false} GetAppend(a: seq<Param>, b: seq<Param>, name: string)
    ensures Get(a + b, name) == if Has(a, name) then Get(a, name) else Get(b, name)
  {
    if a != [] {
      assert (a + b)[1..] == a[1..] + b;
      GetAppend(a[1..], b, name);
    } else {
      assert a + b == b;
    }
  }

  /**
   * `searchParams.set(name, value)`: when a pair named `name` exists, the
   * first one takes the new value and the others are removed; otherwise the
   * pair is appended. Either way exactly one pair carries the name afterwards
   * and every other pair is kept, in order.
   */
  function Set(ps: seq<Param>, name: string, value: string): (r: seq<Param>)
    ensures Get(r, name) == Some(value)
    ensures Delete(r, name) == Delete(ps, name)
    ensures |r| == |Delete(ps, name)| + 1
    ensures !Has(ps, name) ==> r == ps + [Param(name, value)]
  {
    if Has(ps, name) then ReplaceFirst(ps, name, value)
    else
      var r := ps + [Param(name, value)];
      DeleteAppend(ps, [Param(name, value)], name);
      GetAppend(ps, [Param(name, value)], name);
      assert Delete([Param(name, value)], name) == [];
      r
  }

  /** The branch of `set` taken when a pair named `name` exists. */
  function ReplaceFirst(ps: seq<Param>, name: string, value: string): (r: seq<Param>)
    requires Has(ps, name)
    ensures Get(r, name) == Some(value)
    ensures Delete(r, name) == Delete(ps, name)
    ensures |r| == |Delete(ps, name)| + 1
  {
    if ps[0].name == name then
      var r := [Param(name, value)] + Delete(ps[1..], name);
      assert r[1..] == Delete(ps[1..], name);
      r
    else
      var rest := ReplaceFirst(ps[1..], name, value);
      var r := [ps[0]] + rest;
      assert r[1..] == rest;
      r
  }

  /** `set` leaves `get` of every other name as it was. */
  lemma SetKeepsOthers(ps: seq<Param>, name: string, value: string, other: string)
    requires other != name
    ensures Get(Set(ps, name, value), other) == Get(ps, other)
  {
    DeleteKeepsOthers(Set(ps, name, value), name, other);
    DeleteKeepsOthers(ps, name, other);
  }

  /** Setting two absent names appends both pairs, in order. */
  lemma SetTwiceAppends(ps: seq<Param>, n1: string, v1: string, n2: string, v2: string)
    requires !Has(ps, n1) && !Has(ps, n2) && n1 != n2
    ensures Set(Set(ps, n1, v1), n2, v2) == ps + [Param(n1, v1), Param(n2, v2)]
  {
    var once := Set(ps, n1, v1);
    assert once == ps + [Param(n1, v1)];
    HasAppend(ps, [Param(n1, v1)], n2);
    assert !Has([Param(n1, v1)], n2);
    assert !Has(once, n2);
    assert once + [Param(n2, v2)] == ps + [Param(n1, v1), Param(n2, v2)];
  }

  /** Deleting the two appended names again restores the original pairs. */
  lemma DeleteTwoAppended(ps: seq<Param>, n1: string, v1: string, n2: string, v2: string)
    requires !Has(ps, n1) && !Has(ps, n2) && n1 != n2
    ensures Delete(Delete(ps + [Param(n1, v1), Param(n2, v2)], n1), n2) == ps
  {
    var a := Param(n1, v1);
    var b := Param(n2, v2);
    assert [a, b] == [a] + [b];
    DeleteAppend(ps, [a, b], n1);
    DeleteAppend([a], [b], n1);
    assert Delete([a], n1) == [];
    assert Delete([b], n1) == [b];
    DeleteAppend(ps, [b], n2);
    assert Delete([b], n2) == [];
  }

  /** The raw query string `url.search`: empty iff there are no pairs, otherwise `?` followed by `name=value` pairs joined by `&`. */
  function Search(ps: seq<Param>): (r: string)
    ensures r == "" <==> ps == []
    ensures ps != [] ==> r[0] == '?'
  {
    Entries('?', ps)
  }

  /** Serialises `ps`, the first pair preceded by `sep` and every later one by `&`. */
  function Entries(sep: char, ps: seq<Param>): string
    decreases ps
  {
    if ps == [] then ""
    else [sep] + ps[0].name + "=" + ps[0].value + Entries('&', ps[1..])
  }

}
