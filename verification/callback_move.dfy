/** Step 4 of the resolver: moving the callback URL's query pairs onto the
    outer URL's query.

    The source iterates `cbUrl.searchParams.forEach(...)` and, for every pair
    whose name and value are both non-empty, appends it to the outer query
    and deletes its name from the callback query. A WebIDL iterable's
    `forEach` walks an index over the object's current pair list and re-reads
    that list after every callback, so the deletion shifts the pairs that
    follow: the pair just after a moved one is never visited. `VisitFrom` is
    the sequence of pairs that loop visits, `LiveMove` what it appends, and
    `MoveCallbackParams` the loop itself. `Movables` is what a loop over a
    snapshot of the list would append. */
module CallbackMove {
  import opened SearchParams
  import opened Subsequence

  /** The guard `key && value`: both strings are truthy, i.e. non-empty. */
  predicate Movable(p: Pair)
  {
    p.0 != "" && p.1 != ""
  }

  /** The pairs of `list` that pass the guard, in order. */
  function Movables(list: seq<Pair>): (r: seq<Pair>)
    ensures |r| <= |list|
  {
    if |list| == 0 then []
    else if Movable(list[0]) then [list[0]] + Movables(list[1..])
    else Movables(list[1..])
  }

  /** `Movables` keeps exactly the pairs that pass the guard, each with its
      multiplicity. */
  lemma {:induction false} MovablesCount(list: seq<Pair>)
    ensures forall p :: multiset(Movables(list))[p] == (if Movable(p) then multiset(list)[p] else 0)
    decreases |list|
  {
    if |list| > 0 {
      MovablesCount(list[1..]);
      assert list == [list[0]] + list[1..];
      if Movable(list[0]) {
        assert Movables(list) == [list[0]] + Movables(list[1..]);
      }
    }
  }

  /** A pair is kept by `Movables` exactly when it is in the list and
      passes the guard. */
  lemma MovablesMembers(list: seq<Pair>)
    ensures forall p :: p in Movables(list) <==> p in list && Movable(p)
  {
    MovablesCount(list);
    forall p ensures p in Movables(list) <==> p in list && Movable(p) {
      assert p in Movables(list) <==> multiset(Movables(list))[p] > 0;
      assert p in list <==> multiset(list)[p] > 0;
    }
  }

  /** `Movables` keeps the pairs it selects in their order. */
  lemma {:induction false} MovablesSubseq(list: seq<Pair>)
    ensures IsSubseq(Movables(list), list)
    decreases |list|
  {
    if |list| > 0 {
      var rest := Movables(list[1..]);
      MovablesSubseq(list[1..]);
      if Movable(list[0]) {
        assert Movables(list)[1..] == rest;
      } else {
        assert |rest| > 0 ==> IsSubseq(rest, list[1..]);
      }
    }
  }

  /** The pairs at and after index `i`, or none once `i` is past the end. */
  function Tail(list: seq<Pair>, i: nat): seq<Pair>
  {
    if i <= |list| then list[i..] else []
  }

  /** The pairs the live `forEach` visits when it is at index `i` of the
      current list `list`: after visiting a pair that passes the guard, the
      walk continues at index `i + 1` of the list with that name deleted. */
  function VisitFrom(list: seq<Pair>, i: nat): (visited: seq<Pair>)
    ensures |visited| <= if i <= |list| then |list| - i else 0
    decreases |list| - i
  {
    if i >= |list| then []
    else if Movable(list[i]) then [list[i]] + VisitFrom(Delete(list, list[i].0), i + 1)
    else [list[i]] + VisitFrom(list, i + 1)
  }

  /** What the live walk appends when it is at index `i` of `list`. */
  function MovedFrom(list: seq<Pair>, i: nat): (moved: seq<Pair>)
    ensures |moved| <= if i <= |list| then |list| - i else 0
    decreases |list| - i
  {
    if i >= |list| then []
    else if Movable(list[i]) then [list[i]] + MovedFrom(Delete(list, list[i].0), i + 1)
    else MovedFrom(list, i + 1)
  }

  /** What the source's loop appends to the outer query. */
  function LiveMove(callback: seq<Pair>): (moved: seq<Pair>)
    ensures |moved| <= |callback|
    ensures callback == [] ==> moved == []
  {
    MovedFrom(callback, 0)
  }

  /** The walk appends every pair it visits that passes the guard, and
      nothing else, in visit order. */
  lemma {:induction false} MovedIsVisitedMovables(list: seq<Pair>, i: nat)
    ensures MovedFrom(list, i) == Movables(VisitFrom(list, i))
    decreases |list| - i
  {
    if i < |list| {
      var pair := list[i];
      if Movable(pair) {
        var rest := VisitFrom(Delete(list, pair.0), i + 1);
        MovedIsVisitedMovables(Delete(list, pair.0), i + 1);
        assert ([pair] + rest)[1..] == rest;
      } else {
        var rest := VisitFrom(list, i + 1);
        MovedIsVisitedMovables(list, i + 1);
        assert ([pair] + rest)[1..] == rest;
      }
    }
  }

  lemma {:induction false} MovablesSnoc(list: seq<Pair>, p: Pair)
    ensures Movables(list + [p]) == Movables(list) + (if Movable(p) then [p] else [])
    decreases |list|
  {
    if |list| == 0 {
      assert list + [p] == [p];
    } else {
      assert (list + [p])[1..] == list[1..] + [p];
      MovablesSnoc(list[1..], p);
    }
  }

  /** The list the walk continues on after visiting `list[i]`. */
  function AfterVisit(list: seq<Pair>, i: nat): seq<Pair>
    requires i < |list|
  {
    if Movable(list[i]) then Delete(list, list[i].0) else list
  }

  /** One step of the walk: visit `list[i]`, append it if it passes the
      guard, and go on at `i + 1`. */
  lemma WalkStep(list: seq<Pair>, i: nat)
    requires i < |list|
    ensures VisitFrom(list, i) == [list[i]] + VisitFrom(AfterVisit(list, i), i + 1)
    ensures MovedFrom(list, i) ==
      (if Movable(list[i]) then [list[i]] else []) + MovedFrom(AfterVisit(list, i), i + 1)
  {
  }

  lemma ConsAssoc(a: seq<Pair>, p: Pair, b: seq<Pair>)
    ensures a + ([p] + b) == (a + [p]) + b
  {
  }

  /** The source's loop (src/index.ts:11-16) over the callback's live list
      `remaining`: `merged` is the outer query after the appends and
      `visited` the pairs the callback saw. */
  method MoveCallbackParams(outer: seq<Pair>, callback: seq<Pair>)
    returns (merged: seq<Pair>, visited: seq<Pair>)
    ensures visited == VisitFrom(callback, 0)
    ensures merged == outer + LiveMove(callback)
    ensures merged[|outer|..] == Movables(visited)
  {
    var remaining := callback;
    merged, visited := outer, [];
    ghost var moved: seq<Pair> := [];
    var i := 0;
    while i < |remaining|
      invariant visited + VisitFrom(remaining, i) == VisitFrom(callback, 0)
      invariant moved + MovedFrom(remaining, i) == MovedFrom(callback, 0)
      invariant merged == outer + moved
      decreases |remaining| - i
    {
      var pair := remaining[i];
      var key, value := pair.0, pair.1;
      WalkStep(remaining, i);
      var next := AfterVisit(remaining, i);
      ConsAssoc(visited, pair, VisitFrom(next, i + 1));
      visited := visited + [pair];
      if key != "" && value != "" {
        ConsAssoc(moved, pair, MovedFrom(next, i + 1));
        moved := moved + [pair];
        merged := Append(merged, key, value);
        remaining := Delete(remaining, key);
      } else {
        assert [] + MovedFrom(next, i + 1) == MovedFrom(next, i + 1);
      }
      i := i + 1;
    }
    assert merged[|outer|..] == moved;
    MovedIsVisitedMovables(callback, 0);
  }

  /** The corrected loop, over a snapshot of the callback's list: every pair
      that passes the guard is appended, in order, duplicates kept. */
  method MoveCallbackParamsSnapshot(outer: seq<Pair>, callback: seq<Pair>)
    returns (merged: seq<Pair>)
    ensures |merged| >= |outer| && merged[..|outer|] == outer
    ensures forall p :: p in merged[|outer|..] <==> p in callback && Movable(p)
    ensures forall p :: multiset(merged[|outer|..])[p] == if Movable(p) then multiset(callback)[p] else 0
    ensures IsSubseq(merged[|outer|..], callback)
  {
    merged := outer;
    var i := 0;
    while i < |callback|
      invariant 0 <= i <= |callback|
      invariant merged == outer + Movables(callback[..i])
    {
      var (key, value) := callback[i];
      assert callback[..i + 1] == callback[..i] + [callback[i]];
      MovablesSnoc(callback[..i], callback[i]);
      if key != "" && value != "" {
        merged := Append(merged, key, value);
      }
      i := i + 1;
    }
    assert callback[..i] == callback;
    assert merged[|outer|..] == Movables(callback);
    MovablesMembers(callback);
    MovablesCount(callback);
    MovablesSubseq(callback);
  }

  lemma TailSubseq(list: seq<Pair>, i: nat)
    ensures IsSubseq(Tail(list, i), list)
  {
    if i <= |list| {
      SubseqSuffix(list, i);
    }
  }

  /** Deleting the name of `list[i]` deletes it on both sides of index `i`
      and removes `list[i]` itself. */
  lemma DeleteAround(list: seq<Pair>, i: nat)
    requires i < |list|
    ensures Delete(list, list[i].0) == Delete(list[..i], list[i].0) + Delete(list[i + 1..], list[i].0)
  {
    var key := list[i].0;
    var front, rest := list[..i], list[i..];
    assert front + rest == list;
    DeleteConcat(front, rest, key);
    assert rest[0].0 == key && rest[1..] == list[i + 1..];
    assert Delete(rest, key) == Delete(list[i + 1..], key);
  }

  lemma SuffixOfConcat(a: seq<Pair>, b: seq<Pair>, j: nat)
    requires |a| <= j <= |a| + |b|
    ensures (a + b)[j..] == b[j - |a|..]
  {
  }

  /** After a move at index `i`, the walk resumes at index `i + 1` of the
      list with that name deleted: a suffix of the deleted rest of the old
      list, since the deletion can only shift pairs towards the front. */
  lemma ResumeAfterMove(list: seq<Pair>, i: nat)
    requires i < |list| && Movable(list[i])
    ensures IsSubseq(Tail(Delete(list, list[i].0), i + 1), list[i + 1..])
  {
    var key := list[i].0;
    var next := Delete(list, key);
    var d1 := Delete(list[..i], key);
    var d2 := Delete(list[i + 1..], key);
    DeleteAround(list, i);
    if i + 1 <= |next| {
      SuffixOfConcat(d1, d2, i + 1);
      SubseqSuffix(d2, i + 1 - |d1|);
      DeleteSubseq(list[i + 1..], key);
      SubseqTrans(Tail(next, i + 1), d2, list[i + 1..]);
    }
  }

  /** The walk visits pairs of the list it starts from, in their order:
      each step looks at a later position of a list that only ever loses
      pairs. */
  lemma {:induction false} VisitSubseq(list: seq<Pair>, i: nat)
    ensures IsSubseq(VisitFrom(list, i), Tail(list, i))
    decreases |list| - i
  {
    if i < |list| {
      var pair := list[i];
      var next := AfterVisit(list, i);
      var rest := VisitFrom(next, i + 1);
      WalkStep(list, i);
      VisitSubseq(next, i + 1);
      if Movable(pair) {
        ResumeAfterMove(list, i);
        SubseqTrans(rest, Tail(next, i + 1), list[i + 1..]);
      }
      assert list[i..] == [pair] + list[i + 1..];
      SubseqPrefix([pair], rest, list[i + 1..]);
    }
  }

  /** Filtering by the guard keeps the sub-sequence relation. */
  lemma {:induction false} MovablesMonotone(a: seq<Pair>, b: seq<Pair>)
    requires IsSubseq(a, b)
    ensures IsSubseq(Movables(a), Movables(b))
    decreases |b|
  {
    if |a| == 0 {
      assert Movables(a) == [];
    } else if a[0] == b[0] && IsSubseq(a[1..], b[1..]) {
      MovablesMonotone(a[1..], b[1..]);
      assert a == [a[0]] + a[1..];
      if Movable(a[0]) {
        assert Movables(a)[1..] == Movables(a[1..]);
        assert Movables(b)[1..] == Movables(b[1..]);
      } else {
        var ma := Movables(a);
        var mb := Movables(b);
        assert mb == Movables(b[1..]);
        assert ma == Movables(a[1..]);
      }
    } else {
      MovablesMonotone(a, b[1..]);
      var mb := Movables(b);
      if Movable(b[0]) {
        assert mb[1..] == Movables(b[1..]);
        if |Movables(a)| > 0 {
          assert IsSubseq(Movables(a), mb[1..]);
        }
      } else {
        assert mb == Movables(b[1..]);
      }
    }
  }

  /** What the live walk appends is an order-preserving selection of the
      list it starts from. */
  lemma MovedSubseq(list: seq<Pair>, i: nat)
    ensures IsSubseq(MovedFrom(list, i), Tail(list, i))
  {
    MovedIsVisitedMovables(list, i);
    MovablesSubseq(VisitFrom(list, i));
    VisitSubseq(list, i);
    SubseqTrans(MovedFrom(list, i), VisitFrom(list, i), Tail(list, i));
  }

  /** What the source appends is an order-preserving selection of the
      callback pairs that pass the guard: in particular a pair with an empty
      name or value is never appended, and the appended pairs keep the
      callback's order. */
  lemma LiveMoveSubseq(callback: seq<Pair>)
    ensures IsSubseq(LiveMove(callback), Movables(callback))
    ensures forall p :: p in LiveMove(callback) ==> p in callback && Movable(p)
  {
    VisitSubseq(callback, 0);
    assert Tail(callback, 0) == callback;
    MovedIsVisitedMovables(callback, 0);
    MovablesMonotone(VisitFrom(callback, 0), callback);
    SubseqMembers(LiveMove(callback), Movables(callback));
    MovablesMembers(callback);
  }

  /** Distinct names: no two pairs share a name. */
  ghost predicate DistinctNames(list: seq<Pair>)
  {
    forall i, j :: 0 <= i < j < |list| ==> list[i].0 != list[j].0
  }

  lemma {:induction false} MovedDistinct(list: seq<Pair>, i: nat)
    ensures DistinctNames(MovedFrom(list, i))
    decreases |list| - i
  {
    if i < |list| {
      var pair := list[i];
      if Movable(pair) {
        var next := Delete(list, pair.0);
        var rest := MovedFrom(next, i + 1);
        MovedDistinct(next, i + 1);
        assert forall q :: q in rest ==> q in next by {
          MovedSubseq(next, i + 1);
          TailSubseq(next, i + 1);
          SubseqTrans(rest, Tail(next, i + 1), next);
          SubseqMembers(rest, next);
        }
        var m := [pair] + rest;
        forall j | 0 < j < |m| ensures m[j].0 != pair.0 {
          assert m[j] == rest[j - 1];
          assert m[j] in next;
        }
      } else {
        MovedDistinct(list, i + 1);
      }
    }
  }

  /** Once a name has been moved, the live walk never moves it again, even
      when the callback carried it several times. */
  lemma LiveMoveDistinctNames(callback: seq<Pair>)
    ensures DistinctNames(LiveMove(callback))
  {
    MovedDistinct(callback, 0);
  }

  /** The live walk skips the pair that follows a moved pair: with a movable
      first pair and a movable second pair of another name that occurs only
      there, the second pair is never appended although a snapshot loop
      would append it. */
  lemma LiveMoveSkipsSecond(callback: seq<Pair>)
    requires |callback| >= 2 && Movable(callback[0]) && Movable(callback[1])
    requires callback[1].0 != callback[0].0 && callback[1] !in callback[2..]
    ensures callback[1] in Movables(callback)
    ensures callback[1] !in LiveMove(callback)
  {
    var key := callback[0].0;
    var next := Delete(callback, key);
    assert next == [callback[1]] + Delete(callback[2..], key) by {
      assert callback == [callback[0]] + ([callback[1]] + callback[2..]);
      DeleteConcat([callback[0]], [callback[1]] + callback[2..], key);
      DeleteConcat([callback[1]], callback[2..], key);
      assert Delete([callback[0]], key) == [];
      assert Delete([callback[1]], key) == [callback[1]];
    }
    assert Tail(next, 1) == Delete(callback[2..], key);
    var rest := MovedFrom(next, 1);
    assert callback[1] !in rest by {
      MovedSubseq(next, 1);
      SubseqMembers(rest, Tail(next, 1));
      DeleteMembers(callback[2..], key);
    }
    assert LiveMove(callback) == [callback[0]] + rest;
    assert callback[1] in Movables(callback) by {
      MovablesMembers(callback);
    }
  }

  /** The smallest input that shows the skip: `?a=1&b=2` loses `b=2`. */
  lemma LiveMoveExample()
    ensures LiveMove([("a", "1"), ("b", "2")]) == [("a", "1")]
    ensures Movables([("a", "1"), ("b", "2")]) == [("a", "1"), ("b", "2")]
  {
    var list := [("a", "1"), ("b", "2")];
    assert Delete(list, "a") == [("b", "2")] by {
      assert list[1..] == [("b", "2")];
      assert Delete([("b", "2")], "a") == [("b", "2")] by {
        assert [("b", "2")][1..] == [];
      }
    }
    assert MovedFrom([("b", "2")], 1) == [];
    assert Movables([("b", "2")]) == [("b", "2")] by {
      assert [("b", "2")][1..] == [];
    }
    assert list[1..] == [("b", "2")];
  }
}
