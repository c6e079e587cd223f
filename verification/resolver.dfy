/** The redirect-target resolver of src/index.ts: `getRedirectionQueryParam`
    reads the callback value from the current location's query, resolves it
    against the current location, moves the callback's query pairs onto the
    outer query, removes the callback parameter, and keeps only the
    callback's pathname and the outer search; `redirect` hands that value to
    a single `assign` navigation.

    URL parsing is a parameter: a `Parser` maps an input (and an optional
    base) to a parsed record, or to `None` where the URL constructor throws.
    Percent-encoding of query names and values is a parameter too. */
module Resolver {
  import opened Wrappers
  import opened SearchParams
  import opened CallbackMove

  /** A parsed URL: scheme, host, port, serialised pathname, query as its
      name-value list, and fragment. */
  datatype Url = Url(
    scheme: string,
    host: string,
    port: Option<nat>,
    path: string,
    query: seq<Pair>,
    fragment: Option<string>)

  /** `new URL(input)` when the base is `None`, `new URL(input, base)`
      otherwise; `None` where the constructor throws. */
  type Parser = (string, Option<string>) -> Option<Url>

  /** The form-urlencoded percent-encoder applied to each name and value. */
  type Encoder = string -> string

  /** Which URL constructor threw. */
  datatype Error = InvalidLocation(href: string) | InvalidCallback(value: string)

  /** What the resolver keeps: a pathname and the query to serialise. */
  datatype Target = Target(path: string, query: seq<Pair>)

  /** The two navigations a location offers. */
  datatype Navigation = Assign(url: string) | Replace(url: string)

  /** The target used when no redirection was asked for. */
  const Fallback := Target("/", [])

  /** The value that triggers redirection: the first value of `name` when
      it is truthy, i.e. present and non-empty. */
  function CallbackValue(query: seq<Pair>, name: string): (r: Option<string>)
    ensures r.Some? <==> Get(query, name).Some? && Get(query, name).value != ""
    ensures r.Some? ==> Get(query, name) == r
  {
    match Get(query, name)
    case Some(v) => if v != "" then Some(v) else None
    case None => None
  }

  /** The outer query once the callback pairs chosen by `move` have been
      appended and every `name` pair deleted: the outer pairs not named
      `name`, in their order, followed by the moved pairs not named `name`,
      in theirs. */
  function MergedQuery(outer: seq<Pair>, name: string, moved: seq<Pair>): (r: seq<Pair>)
    ensures forall i :: 0 <= i < |r| ==> r[i].0 != name
    ensures r == Delete(outer, name) + Delete(moved, name)
  {
    DeleteConcat(outer, moved, name);
    Delete(outer + moved, name)
  }

  /** The resolver's steps, with the callback pairs to append chosen by
      `move`: `LiveMove` is what the source's loop appends, `Movables` what
      a loop over a snapshot would. */
  function ResolveWith(href: string, name: string, parse: Parser, move: seq<Pair> -> seq<Pair>): (r: Result<Target, Error>)
    ensures r == Failure(InvalidLocation(href)) <==> parse(href, None).None?
    ensures r.Success? ==> forall i :: 0 <= i < |r.value.query| ==> r.value.query[i].0 != name
    ensures parse(href, None).Some? && CallbackValue(parse(href, None).value.query, name).None? ==>
      r == Success(Fallback)
    ensures parse(href, None).Some? && CallbackValue(parse(href, None).value.query, name).Some? ==>
      var outer := parse(href, None).value;
      var value := CallbackValue(outer.query, name).value;
      (r.Failure? <==> parse(value, Some(href)).None?) &&
      (r.Failure? ==> r.error == InvalidCallback(value)) &&
      (r.Success? ==>
        var cb := parse(value, Some(href)).value;
        r.value.path == cb.path &&
        r.value.query == Delete(outer.query, name) + Delete(move(cb.query), name))
  {
    match parse(href, None)
    case None => Failure(InvalidLocation(href))
    case Some(outer) =>
      match CallbackValue(outer.query, name)
      case None => Success(Fallback)
      case Some(value) =>
        match parse(value, Some(href))
        case None => Failure(InvalidCallback(value))
        case Some(cb) => Success(Target(cb.path, MergedQuery(outer.query, name, move(cb.query))))
  }

  /** The source's resolver, with its live-list move. */
  function Resolve(href: string, name: string, parse: Parser): Result<Target, Error>
  {
    ResolveWith(href, name, parse, LiveMove)
  }

  /** The resolver with the move made over a snapshot of the callback's
      pairs, so that every pair that passes the guard is carried over. */
  function ResolveCorrected(href: string, name: string, parse: Parser): Result<Target, Error>
  {
    ResolveWith(href, name, parse, Movables)
  }

  /** `cbUrl.pathname + url.search`: the pathname alone when the query is
      empty, otherwise the pathname, `?` and the serialised query. */
  function Href(t: Target, enc: Encoder): (s: string)
    ensures |s| >= |t.path| && s[..|t.path|] == t.path
    ensures t.query == [] <==> s == t.path
    ensures t.query != [] ==>
      |s| > |t.path| + 1 && s[|t.path|] == '?' && s[|t.path| + 1..] == Serialize(t.query, enc)
  {
    t.path + Search(t.query, enc)
  }

  /** `getRedirectionQueryParam` (src/index.ts:6-22), or the error it
      throws: the location error exactly when the href does not parse, `/`
      without a truthy callback value, and otherwise the callback error or
      the callback's pathname followed by the search of the merged query. */
  function GetRedirectionQueryParam(href: string, name: string, parse: Parser, enc: Encoder): (r: Result<string, Error>)
    ensures r == Failure(InvalidLocation(href)) <==> parse(href, None).None?
    ensures parse(href, None).Some? && CallbackValue(parse(href, None).value.query, name).None? ==>
      r == Success("/")
    ensures parse(href, None).Some? && CallbackValue(parse(href, None).value.query, name).Some? ==>
      var outer := parse(href, None).value;
      var value := CallbackValue(outer.query, name).value;
      (r.Failure? <==> parse(value, Some(href)).None?) &&
      (r.Failure? ==> r.error == InvalidCallback(value)) &&
      (r.Success? ==>
        var cb := parse(value, Some(href)).value;
        r.value == cb.path + Search(Delete(outer.query, name) + Delete(LiveMove(cb.query), name), enc))
  {
    match Resolve(href, name, parse)
    case Success(t) => Success(Href(t, enc))
    case Failure(e) => Failure(e)
  }

  /** `getRedirectionQueryParam` with the corrected move. */
  function GetRedirectionQueryParamCorrected(href: string, name: string, parse: Parser, enc: Encoder): (r: Result<string, Error>)
    ensures r == Failure(InvalidLocation(href)) <==> parse(href, None).None?
    ensures parse(href, None).Some? && CallbackValue(parse(href, None).value.query, name).None? ==>
      r == Success("/")
    ensures parse(href, None).Some? && CallbackValue(parse(href, None).value.query, name).Some? ==>
      var outer := parse(href, None).value;
      var value := CallbackValue(outer.query, name).value;
      (r.Failure? <==> parse(value, Some(href)).None?) &&
      (r.Failure? ==> r.error == InvalidCallback(value)) &&
      (r.Success? ==>
        var cb := parse(value, Some(href)).value;
        r.value == cb.path + Search(Delete(outer.query, name) + Delete(Movables(cb.query), name), enc))
  {
    match ResolveCorrected(href, name, parse)
    case Success(t) => Success(Href(t, enc))
    case Failure(e) => Failure(e)
  }

  /** `redirect` (src/index.ts:1-4): the navigations it performs. Exactly one
      `assign` of the resolved value, never a `replace`; none when resolving
      throws, since the source does not catch. */
  function Redirect(href: string, name: string, parse: Parser, enc: Encoder): (effects: seq<Navigation>)
    ensures |effects| <= 1
    ensures forall k :: 0 <= k < |effects| ==> effects[k].Assign?
    ensures |effects| == 1 <==> GetRedirectionQueryParam(href, name, parse, enc).Success?
    ensures |effects| == 1 ==> effects[0].url == GetRedirectionQueryParam(href, name, parse, enc).value
  {
    match GetRedirectionQueryParam(href, name, parse, enc)
    case Success(value) => [Assign(value)]
    case Failure(_) => []
  }

  /** `redirect` with the corrected move. */
  function RedirectCorrected(href: string, name: string, parse: Parser, enc: Encoder): (effects: seq<Navigation>)
    ensures |effects| <= 1
    ensures forall k :: 0 <= k < |effects| ==> effects[k].Assign?
    ensures |effects| == 1 <==> GetRedirectionQueryParamCorrected(href, name, parse, enc).Success?
    ensures |effects| == 1 ==> effects[0].url == GetRedirectionQueryParamCorrected(href, name, parse, enc).value
  {
    match GetRedirectionQueryParamCorrected(href, name, parse, enc)
    case Success(value) => [Assign(value)]
    case Failure(_) => []
  }
}
