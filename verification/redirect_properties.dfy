/** Properties of the resolver that relate several calls or several parts
    of its result: the callback's origin never reaches the destination, the
    destination's query pairs come only from the outer query and from
    movable callback pairs, and the source's live-list move loses pairs that
    the corrected move keeps. */
module RedirectProperties {
  import opened Wrappers
  import opened SearchParams
  import opened Subsequence
  import opened CallbackMove
  import opened Resolver

  /** Two parse results agree on what the resolver keeps: both fail, or
      both succeed with the same pathname and query, whatever their scheme,
      host, port and fragment. */
  predicate SamePathAndQuery(a: Option<Url>, b: Option<Url>)
  {
    (a.None? && b.None?) ||
    (a.Some? && b.Some? && a.value.path == b.value.path && a.value.query == b.value.query)
  }

  /** The anti-open-redirect property: the callback record's scheme, host,
      port and fragment never contribute to the destination, so two parsers
      that differ only in those give the same result and the same
      navigation. */
  lemma OriginNeverContributes(href: string, name: string, p1: Parser, p2: Parser, enc: Encoder)
    requires p1(href, None) == p2(href, None)
    requires forall v :: SamePathAndQuery(p1(v, Some(href)), p2(v, Some(href)))
    ensures GetRedirectionQueryParam(href, name, p1, enc) == GetRedirectionQueryParam(href, name, p2, enc)
    ensures Redirect(href, name, p1, enc) == Redirect(href, name, p2, enc)
  {
    if p1(href, None).Some? {
      var outer := p1(href, None).value;
      var value := CallbackValue(outer.query, name);
      if value.Some? {
        assert SamePathAndQuery(p1(value.value, Some(href)), p2(value.value, Some(href)));
      }
    }
  }

  /** Without a truthy callback value the destination is exactly `/`. */
  lemma NoCallbackGivesRoot(href: string, name: string, parse: Parser, enc: Encoder)
    requires parse(href, None).Some?
    requires Get(parse(href, None).value.query, name) in {None, Some("")}
    ensures GetRedirectionQueryParam(href, name, parse, enc) == Success("/")
    ensures Redirect(href, name, parse, enc) == [Assign("/")]
  {
  }

  /** With a truthy callback value that parses, the destination is the
      callback record's pathname followed by the search of the outer query
      after the move and the deletion of `name`, and `redirect` assigns
      exactly that. */
  lemma CallbackDestination(href: string, name: string, parse: Parser, enc: Encoder, outer: Url, cb: Url)
    requires parse(href, None) == Some(outer)
    requires CallbackValue(outer.query, name).Some?
    requires parse(CallbackValue(outer.query, name).value, Some(href)) == Some(cb)
    ensures GetRedirectionQueryParam(href, name, parse, enc) ==
      Success(cb.path + Search(Delete(outer.query, name) + Delete(LiveMove(cb.query), name), enc))
    ensures Redirect(href, name, parse, enc) ==
      [Assign(cb.path + Search(Delete(outer.query, name) + Delete(LiveMove(cb.query), name), enc))]
  {
  }

  /** Keeping only the pathname does not keep the destination on the
      current origin: a callback whose pathname begins with `//` (such as
      the one `/.//evil.com` resolves to) gives a destination that begins
      with `//`, a protocol-relative reference to the host after the
      slashes, and `redirect` assigns it. */
  lemma ProtocolRelativeDestination(href: string, name: string, parse: Parser, enc: Encoder, outer: Url, cb: Url)
    requires parse(href, None) == Some(outer)
    requires CallbackValue(outer.query, name).Some?
    requires parse(CallbackValue(outer.query, name).value, Some(href)) == Some(cb)
    requires |cb.path| >= 2 && cb.path[..2] == "//"
    ensures GetRedirectionQueryParam(href, name, parse, enc).Success?
    ensures var dest := GetRedirectionQueryParam(href, name, parse, enc).value;
      |dest| >= 2 && dest[..2] == "//" && Redirect(href, name, parse, enc) == [Assign(dest)]
  {
    var search := Search(Delete(outer.query, name) + Delete(LiveMove(cb.query), name), enc);
    assert (cb.path + search)[..2] == cb.path[..2];
  }

  /** The same for the corrected resolver, with every movable callback pair
      carried over. */
  lemma CorrectedCallbackDestination(href: string, name: string, parse: Parser, enc: Encoder, outer: Url, cb: Url)
    requires parse(href, None) == Some(outer)
    requires CallbackValue(outer.query, name).Some?
    requires parse(CallbackValue(outer.query, name).value, Some(href)) == Some(cb)
    ensures GetRedirectionQueryParamCorrected(href, name, parse, enc) ==
      Success(cb.path + Search(Delete(outer.query, name) + Delete(Movables(cb.query), name), enc))
    ensures RedirectCorrected(href, name, parse, enc) ==
      [Assign(cb.path + Search(Delete(outer.query, name) + Delete(Movables(cb.query), name), enc))]
  {
  }

  /** Every pair of the destination's query is an outer pair not named
      `name`, or a callback pair with a non-empty name and value not named
      `name`: a callback pair with an empty name or value never reaches the
      outer query. */
  lemma ResolvedPairsOrigin(href: string, name: string, parse: Parser)
    requires parse(href, None).Some?
    requires CallbackValue(parse(href, None).value.query, name).Some?
    requires Resolve(href, name, parse).Success?
    ensures var outer := parse(href, None).value;
      var cb := parse(CallbackValue(outer.query, name).value, Some(href)).value;
      forall p :: p in Resolve(href, name, parse).value.query ==>
        p.0 != name && (p in outer.query || (p in cb.query && Movable(p)))
  {
    var outer := parse(href, None).value;
    var cb := parse(CallbackValue(outer.query, name).value, Some(href)).value;
    var q := Resolve(href, name, parse).value.query;
    assert q == Delete(outer.query, name) + Delete(LiveMove(cb.query), name);
    DeleteMembers(outer.query, name);
    DeleteMembers(LiveMove(cb.query), name);
    LiveMoveSubseq(cb.query);
    forall p | p in q ensures p.0 != name && (p in outer.query || (p in cb.query && Movable(p))) {
      if p in Delete(outer.query, name) {
      } else {
        assert p in Delete(LiveMove(cb.query), name);
      }
    }
  }

  /** The source's destination query is an order-preserving selection of
      the corrected one: the live-list move only ever loses callback pairs,
      and the pathname and the error cases are the same. */
  lemma LiveResultWithinCorrected(href: string, name: string, parse: Parser)
    ensures Resolve(href, name, parse).Success? <==> ResolveCorrected(href, name, parse).Success?
    ensures Resolve(href, name, parse).Success? ==>
      Resolve(href, name, parse).value.path == ResolveCorrected(href, name, parse).value.path &&
      IsSubseq(Resolve(href, name, parse).value.query, ResolveCorrected(href, name, parse).value.query)
  {
    var live := Resolve(href, name, parse);
    var fixed := ResolveCorrected(href, name, parse);
    if parse(href, None).Some? {
      var outer := parse(href, None).value;
      var value := CallbackValue(outer.query, name);
      if value.None? {
        SubseqRefl(live.value.query);
      } else if parse(value.value, Some(href)).Some? {
        var cb := parse(value.value, Some(href)).value;
        LiveMoveSubseq(cb.query);
        DeleteMonotone(LiveMove(cb.query), Movables(cb.query), name);
        SubseqPrefix(Delete(outer.query, name), Delete(LiveMove(cb.query), name), Delete(Movables(cb.query), name));
      }
    }
  }

  /** The corrected move carries every callback pair that passes the guard
      and is not named `name` onto the destination, after the outer pairs
      and with its multiplicity. */
  lemma CorrectedCarriesCallbackPairs(href: string, name: string, parse: Parser)
    requires parse(href, None).Some?
    requires CallbackValue(parse(href, None).value.query, name).Some?
    requires ResolveCorrected(href, name, parse).Success?
    ensures var outer := parse(href, None).value;
      var cb := parse(CallbackValue(outer.query, name).value, Some(href)).value;
      var q := ResolveCorrected(href, name, parse).value.query;
      forall p :: Movable(p) && p.0 != name ==>
        multiset(q)[p] == multiset(Delete(outer.query, name))[p] + multiset(cb.query)[p]
  {
    var outer := parse(href, None).value;
    var cb := parse(CallbackValue(outer.query, name).value, Some(href)).value;
    var q := ResolveCorrected(href, name, parse).value.query;
    assert q == Delete(outer.query, name) + Delete(Movables(cb.query), name);
    DeleteCount(Movables(cb.query), name);
    MovablesCount(cb.query);
  }

  /** When the outer query holds nothing but the callback parameter and the
      callback has no query, the destination is the callback's pathname
      with no `?`. */
  lemma BareCallbackPath(href: string, name: string, parse: Parser, enc: Encoder)
    requires parse(href, None).Some?
    requires CallbackValue(parse(href, None).value.query, name).Some?
    requires Delete(parse(href, None).value.query, name) == []
    requires parse(CallbackValue(parse(href, None).value.query, name).value, Some(href)).Some?
    requires parse(CallbackValue(parse(href, None).value.query, name).value, Some(href)).value.query == []
    ensures GetRedirectionQueryParam(href, name, parse, enc) ==
      Success(parse(CallbackValue(parse(href, None).value.query, name).value, Some(href)).value.path)
  {
    var outer := parse(href, None).value;
    var cb := parse(CallbackValue(outer.query, name).value, Some(href)).value;
    assert LiveMove(cb.query) == [];
  }
}
