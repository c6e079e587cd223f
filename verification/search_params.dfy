/** The name-value list behind a URL's `searchParams`, with the three
    operations the resolver uses: `get` (first match), `append` (add at the
    end) and `delete` (remove every pair with a name), as section 6.2 of the
    WHATWG URL Standard defines them, plus the serialisation that `url.search`
    exposes. Percent-encoding of names and values is a parameter. */
module SearchParams {
  import opened Wrappers
  import opened Subsequence

  /** One name-value pair of a query. */
  type Pair = (string, string)

  /** `get(name)`: the value of the first pair named `name`, or `None` (the
      standard's null) when there is none. */
  function Get(list: seq<Pair>, name: string): (r: Option<string>)
    ensures r.None? <==> forall i :: 0 <= i < |list| ==> list[i].0 != name
    ensures r.Some? ==>
      exists i :: 0 <= i < |list| && list[i] == (name, r.value) &&
        forall j :: 0 <= j < i ==> list[j].0 != name
  {
    if |list| == 0 then None
    else if list[0].0 == name then
      assert list[0] == (name, list[0].1);
      Some(list[0].1)
    else
      var r := Get(list[1..], name);
      if r.Some? then
        var i :| 0 <= i < |list[1..]| && list[1..][i] == (name, r.value) &&
          forall j :: 0 <= j < i ==> list[1..][j].0 != name;
        assert list[i + 1] == (name, r.value);
        assert forall j :: 0 <= j < i + 1 ==> list[j].0 != name by {
          forall j | 0 <= j < i + 1 ensures list[j].0 != name {
            if j > 0 { assert list[j] == list[1..][j - 1]; }
          }
        }
        r
      else
        r
  }

  /** `append(name, value)`: exactly one new pair, at the end. */
  function Append(list: seq<Pair>, name: string, value: string): (r: seq<Pair>)
    ensures |r| == |list| + 1
    ensures r[..|list|] == list && r[|list|] == (name, value)
  {
    list + [(name, value)]
  }

  /** `delete(name)`: the pairs not named `name`, in order. */
  function Delete(list: seq<Pair>, name: string): (r: seq<Pair>)
    ensures |r| <= |list|
    ensures forall i :: 0 <= i < |r| ==> r[i].0 != name
  {
    if |list| == 0 then []
    else if list[0].0 == name then Delete(list[1..], name)
    else [list[0]] + Delete(list[1..], name)
  }

  /** `delete(name)` removes every pair named `name` and keeps every other
      pair with its multiplicity. */
  lemma {:induction false} DeleteCount(list: seq<Pair>, name: string)
    ensures forall p :: multiset(Delete(list, name))[p] == (if p.0 == name then 0 else multiset(list)[p])
    decreases |list|
  {
    if |list| > 0 {
      DeleteCount(list[1..], name);
      assert list == [list[0]] + list[1..];
      if list[0].0 != name {
        assert Delete(list, name) == [list[0]] + Delete(list[1..], name);
      }
    }
  }

  /** A pair survives `delete(name)` exactly when it was there and is not
      named `name`. */
  lemma DeleteMembers(list: seq<Pair>, name: string)
    ensures forall p :: p in Delete(list, name) <==> p in list && p.0 != name
  {
    DeleteCount(list, name);
    forall p ensures p in Delete(list, name) <==> p in list && p.0 != name {
      assert p in Delete(list, name) <==> multiset(Delete(list, name))[p] > 0;
      assert p in list <==> multiset(list)[p] > 0;
    }
  }

  /** The pairs `delete(name)` keeps stay in their relative order. */
  lemma {:induction false} DeleteSubseq(list: seq<Pair>, name: string)
    ensures IsSubseq(Delete(list, name), list)
    decreases |list|
  {
    if |list| > 0 {
      var rest := Delete(list[1..], name);
      DeleteSubseq(list[1..], name);
      if list[0].0 == name {
        assert |rest| > 0 ==> IsSubseq(rest, list[1..]);
      } else {
        assert Delete(list, name)[1..] == rest;
      }
    }
  }

  /** A pair as it appears in a serialised query, with names and values
      passed through the form-urlencoded percent-encoder `enc`. */
  function SerializePair(p: Pair, enc: string -> string): string
  {
    enc(p.0) + "=" + enc(p.1)
  }

  /** The `application/x-www-form-urlencoded` serialisation of a list: the
      pairs in order, joined by `&`. Only the empty list serialises to the
      empty string, because every pair contributes at least its `=`. */
  function Serialize(list: seq<Pair>, enc: string -> string): (s: string)
    ensures list == [] <==> s == ""
    ensures |s| >= 2 * |list| - 1
  {
    if |list| == 0 then ""
    else if |list| == 1 then SerializePair(list[0], enc)
    else SerializePair(list[0], enc) + "&" + Serialize(list[1..], enc)
  }

  /** `url.search` once the list has been written back: empty when the list
      is empty (no `?` is emitted), otherwise `?` and the serialisation. */
  function Search(list: seq<Pair>, enc: string -> string): (s: string)
    ensures list == [] <==> s == ""
    ensures list != [] ==> s[0] == '?' && s[1..] == Serialize(list, enc)
  {
    if list == [] then "" else "?" + Serialize(list, enc)
  }

  /** After `append(name, value)`, `get(name)` finds the earlier value if
      there was one, and `value` otherwise. */
  lemma {:induction false} GetAfterAppend(list: seq<Pair>, name: string, value: string)
    ensures Get(Append(list, name, value), name) ==
      if Get(list, name).None? then Some(value) else Get(list, name)
    decreases |list|
  {
    if |list| > 0 {
      assert Append(list, name, value)[1..] == Append(list[1..], name, value);
      GetAfterAppend(list[1..], name, value);
    }
  }

  /** `append` of another name is invisible to `get(name)`. */
  lemma {:induction false} GetAfterAppendOther(list: seq<Pair>, name: string, other: string, value: string)
    requires other != name
    ensures Get(Append(list, other, value), name) == Get(list, name)
    decreases |list|
  {
    if |list| > 0 {
      assert Append(list, other, value)[1..] == Append(list[1..], other, value);
      GetAfterAppendOther(list[1..], name, other, value);
    }
  }

  /** `delete` distributes over concatenation: it acts on each part in
      place, so pairs never change sides. */
  lemma {:induction false} DeleteConcat(a: seq<Pair>, b: seq<Pair>, name: string)
    ensures Delete(a + b, name) == Delete(a, name) + Delete(b, name)
    decreases |a|
  {
    if |a| == 0 {
      assert a + b == b;
    } else {
      assert (a + b)[0] == a[0];
      assert (a + b)[1..] == a[1..] + b;
      DeleteConcat(a[1..], b, name);
    }
  }

  /** Deleting a name that no pair carries changes nothing. */
  lemma {:induction false} DeleteAbsent(list: seq<Pair>, name: string)
    requires Get(list, name).None?
    ensures Delete(list, name) == list
    decreases |list|
  {
    if |list| > 0 {
      DeleteAbsent(list[1..], name);
      assert list == [list[0]] + list[1..];
    }
  }

  /** Appending one pair to a non-empty list extends its serialisation by
      `&` and that pair alone. */
  lemma {:induction false} SerializeAppend(list: seq<Pair>, name: string, value: string, enc: string -> string)
    requires list != []
    ensures Serialize(Append(list, name, value), enc) ==
      Serialize(list, enc) + "&" + SerializePair((name, value), enc)
    decreases |list|
  {
    var r := Append(list, name, value);
    if |list| > 1 {
      assert r[1..] == Append(list[1..], name, value);
      SerializeAppend(list[1..], name, value, enc);
    } else {
      assert r[1..] == [(name, value)];
    }
  }

  /** `delete` keeps the sub-sequence relation between two lists. */
  lemma {:induction false} DeleteMonotone(a: seq<Pair>, b: seq<Pair>, name: string)
    requires IsSubseq(a, b)
    ensures IsSubseq(Delete(a, name), Delete(b, name))
    decreases |b|
  {
    if |a| == 0 {
      assert Delete(a, name) == [];
    } else if a[0] == b[0] && IsSubseq(a[1..], b[1..]) {
      DeleteMonotone(a[1..], b[1..], name);
      if a[0].0 != name {
        assert Delete(a, name)[1..] == Delete(a[1..], name);
        assert Delete(b, name)[1..] == Delete(b[1..], name);
      }
    } else {
      DeleteMonotone(a, b[1..], name);
      var db := Delete(b, name);
      if b[0].0 != name {
        assert db[1..] == Delete(b[1..], name);
        if |Delete(a, name)| > 0 {
          assert IsSubseq(Delete(a, name), db[1..]);
        }
      }
    }
  }
}
