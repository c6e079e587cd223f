# safe-redirect in Dafny

A model of the redirect-target resolver of Trendyol/safe-redirect, with proofs
about it.

`redirect(queryParamName)` reads a callback value from the current page's query
string and navigates there. It is meant to keep the navigation on the current
site. It builds the destination from the callback's pathname and the outer
query, into which the callback's query pairs are moved.
The resolver `getRedirectionQueryParam` works in five steps:

1. It parses the current href and takes the first value of `queryParamName`.
2. If that value is missing or empty, it returns `/`.
3. Otherwise it resolves the value as a URL relative to the current href.
4. It walks the callback's live pair list. Each visited pair whose name and
   value are both non-empty is appended to the outer query, and its name is
   deleted from the callback (so some pairs are never visited; see Findings).
   It then deletes `queryParamName` from the outer query.
5. It returns the callback's pathname followed by the outer search.

The destination does not depend on the callback's scheme, host, port or
fragment fields, and it never contains a fragment. That alone does not keep it
on the current origin. A callback pathname that begins with `//` makes the
destination a protocol-relative reference to another host
(`ProtocolRelativeDestination`).

The model works over parsed URL records. URL parsing is a parameter
(`Resolver.Parser`). It returns `None` where the URL constructor would throw.
Percent-encoding of query names and values is a parameter too
(`Resolver.Encoder`). Navigation is a returned list of `Navigation` values.

Modules:

- `Wrappers`: `Option` and `Result`.
- `Subsequence`: order-preserving sub-sequences, used to state "keeps the
  relative order".
- `SearchParams`: the `URLSearchParams` list (name-value pairs) with `get`,
  `append` and `delete`, as defined in section 6.2 of the WHATWG URL Standard.
  It also holds the query's serialisation and `url.search`.
- `CallbackMove`: the `forEach` loop of step 4. A WebIDL iterable's `forEach`
  keeps an index into the object's *current* pair list and re-reads that list
  after every callback. So the loop is modelled as an index walk over a list
  that its own `delete` calls shrink. `VisitFrom` gives the pairs the walk
  visits. `MovedFrom` and `LiveMove` give what it appends.
  `MoveCallbackParams` is the loop itself. `Movables` is what a loop over a
  snapshot would append.
- `Resolver`: the URL record, `ResolveWith` (the five steps, with the move as
  a parameter), and `Resolve` / `GetRedirectionQueryParam` / `Redirect`, which
  model the source. `ResolveCorrected` / `GetRedirectionQueryParamCorrected` /
  `RedirectCorrected` use the snapshot move (see Findings).
- `RedirectProperties`: properties that relate several calls or parts of a
  result.
- `RedirectExamples`: the scenarios of test/index.spec.ts, stated over
  concrete parsed records.

The model follows src/index.ts as it stands:

- `redirect` takes only the parameter name. test/index.spec.ts:145-202 passes
  an options object (`extraQueryParams`, `replace`), but the code never reads
  it, so the model has no options.
- Without a truthy callback value the result is exactly `/`.
- Nothing is caught. A URL constructor that throws makes `redirect` throw
  before it navigates (an empty `Navigation` list).
- The href is parsed as it is. No decoding step comes before `new URL`.
- No fragment reaches the destination, neither the outer URL's nor the
  callback's.
- Only callback pairs with a non-empty name and value are moved. Because of
  the live-list iteration, some of those are skipped as well (see Findings).

## Model

| member | source | states |
|---|---|---|
| SearchParams.Get | src/index.ts:8 | `get` returns `None` exactly when no pair has the name. Otherwise it returns the value of a pair with that name that has no earlier pair of the same name, i.e. the first match. |
| SearchParams.Append | src/index.ts:13 | `append` adds exactly one pair, at the end, and leaves the earlier pairs unchanged. |
| SearchParams.GetAfterAppend | src/index.ts:13 | After `append(name, v)`, `get(name)` gives the earlier first value if there was one, and `v` otherwise. |
| SearchParams.GetAfterAppendOther | src/index.ts:13 | An `append` under another name does not change `get(name)`. |
| SearchParams.Delete | src/index.ts:14 | `delete(name)` leaves no pair with that name and never makes the list longer. |
| SearchParams.DeleteCount | src/index.ts:18 | `delete(name)` keeps every pair with another name at its exact multiplicity and keeps none named `name`. |
| SearchParams.DeleteMembers | src/index.ts:18 | A pair survives `delete(name)` exactly when it was in the list and has another name. |
| SearchParams.DeleteSubseq | src/index.ts:18 | The pairs that survive `delete(name)` keep their relative order. |
| SearchParams.DeleteConcat | src/index.ts:18 | `delete` acts on each part of a concatenation in place, so outer pairs stay in front of appended pairs. |
| SearchParams.DeleteAbsent | src/index.ts:18 | Deleting a name no pair carries changes nothing. |
| SearchParams.DeleteMonotone | src/index.ts:18 | If one list is an ordered selection of another, `delete(name)` keeps that relation. |
| SearchParams.Serialize | src/index.ts:19 | The serialised query is empty exactly when the list is empty. Every pair adds at least its `=`, and pairs are joined by `&`. |
| SearchParams.SerializeAppend | src/index.ts:19 | After appending to a non-empty list, the serialisation is the old one plus `&` and the new pair. |
| SearchParams.Search | src/index.ts:19 | `url.search` is empty exactly when the query is empty, so no `?` is emitted. Otherwise it is `?` and the serialisation. |
| CallbackMove.Movable | src/index.ts:12 | The guard `key && value`: a pair passes exactly when both its name and its value are non-empty strings, which is the truthiness of a JavaScript string. |
| CallbackMove.Movables | src/index.ts:11-16 | The corrected, snapshot move: never longer than the callback list. Its exact contents are stated by `MovablesCount`, `MovablesMembers` and `MovablesSubseq`. |
| CallbackMove.VisitFrom | src/index.ts:11 | The pairs the live `forEach` visits from index i: at most one per remaining index, because the walk advances one index per step over a list that `delete` can only shorten. `VisitSubseq` states their order. |
| CallbackMove.MovedFrom | src/index.ts:11-16 | The pairs the live walk appends from index i: at most one per remaining index. `MovedIsVisitedMovables` proves they are the visited pairs that pass the guard. |
| CallbackMove.LiveMove | src/index.ts:11-16 | What the source's loop appends: never more pairs than the callback has, and none for an empty callback. `LiveMoveSubseq` and `LiveMoveDistinctNames` state which pairs and in which order. |
| CallbackMove.MovablesCount | src/index.ts:12 | The snapshot move keeps each pair with a non-empty name and value at its multiplicity, and no other pair. |
| CallbackMove.MovablesMembers | src/index.ts:12 | A pair is kept by the snapshot move exactly when it is a callback pair with a non-empty name and value. |
| CallbackMove.MovablesSubseq | src/index.ts:12 | The snapshot move keeps the callback's order. |
| CallbackMove.MovedIsVisitedMovables | src/index.ts:11-16 | The live loop appends every pair it visits whose name and value are non-empty, and nothing else, in visit order. |
| CallbackMove.MoveCallbackParams | src/index.ts:11-16 | The loop over the live list visits exactly `VisitFrom(callback, 0)`. It leaves the outer pairs in front, followed by the visited pairs that pass the guard. |
| CallbackMove.MoveCallbackParamsSnapshot | src/index.ts:11-16 | The corrected loop keeps the outer pairs in front. It then appends exactly the callback pairs with a non-empty name and value, with their multiplicity and in callback order. |
| CallbackMove.ResumeAfterMove | src/index.ts:14 | After a move at index i, the walk resumes inside the callback pairs after i, with that name removed. |
| CallbackMove.VisitSubseq | src/index.ts:11-16 | The live walk visits callback pairs in callback order, each position at most once. |
| CallbackMove.LiveMoveSubseq | src/index.ts:11-16 | What the source appends is an ordered selection of the callback pairs with a non-empty name and value. A pair with an empty name or value is never appended. |
| CallbackMove.LiveMoveDistinctNames | src/index.ts:13-14 | The source never appends two pairs with the same name, even when the callback repeats a name. |
| CallbackMove.LiveMoveSkipsSecond | src/index.ts:11-16 | Take a movable first pair and a movable second pair with another name that occurs only there. The source never appends the second pair, although the snapshot move does. |
| CallbackMove.LiveMoveExample | src/index.ts:11-16 | For the callback query `a=1&b=2` the source appends only `a=1`. The snapshot move appends both pairs. |
| Resolver.MergedQuery | src/index.ts:13-18 | After the move and `delete(queryParamName)`, the outer query has no pair with that name. It is the surviving outer pairs in their order, followed by the surviving moved pairs in theirs. |
| Resolver.ResolveWith | src/index.ts:6-21 | An unparsable href is the only source of the location error. Without a truthy callback value the target is `/` with an empty query. With one, it fails exactly when the callback does not parse. On success its path is the callback's pathname and its query is the outer pairs, then the moved pairs, none named `queryParamName`. |
| Resolver.CallbackValue | src/index.ts:8-9 | The value that triggers redirection is present exactly when the name's first value exists and is non-empty. It is then that first value. |
| Resolver.Resolve | src/index.ts:6-21 | `ResolveWith` with the source's live move, so `ResolveWith`'s contract applies. `OriginNeverContributes`, `ResolvedPairsOrigin` and `LiveResultWithinCorrected` state its properties. |
| Resolver.ResolveCorrected | src/index.ts:6-21 | `ResolveWith` with the snapshot move: the resolver as evidently intended, carrying every callback pair that passes the guard. `CorrectedCarriesCallbackPairs` and `LiveResultWithinCorrected` state its properties. |
| Resolver.GetRedirectionQueryParam | src/index.ts:6-21 | Gives the location error exactly when the href does not parse. Returns `/` when the name's first value is missing or empty. Otherwise it gives the callback error exactly when the callback does not parse. Else it returns the callback's pathname followed by the search of the surviving outer pairs, then the surviving pairs the live loop moved. |
| Resolver.GetRedirectionQueryParamCorrected | src/index.ts:6-21 | The same with the snapshot move, which carries every callback pair that passes the guard. |
| Resolver.Href | src/index.ts:19 | The destination starts with the pathname. It is exactly the pathname when the query is empty. Otherwise the pathname is followed by `?` and the serialised query. |
| Resolver.Redirect | src/index.ts:1-4 | At most one navigation. It is always `assign`, never `replace`, and carries the resolver's value. There is exactly one precisely when the resolver does not throw. |
| Resolver.RedirectCorrected | src/index.ts:1-4 | The same for the corrected resolver. |
| RedirectProperties.OriginNeverContributes | src/index.ts:10-19 | Two parsers that agree on the href, and on each callback's pathname and query, give the same destination and navigation, whatever scheme, host, port and fragment they return. |
| RedirectProperties.ProtocolRelativeDestination | src/index.ts:10-19 | When the callback's pathname begins with `//`, the resolver succeeds and its destination begins with `//`, a protocol-relative reference to another host. `redirect` assigns it. |
| RedirectProperties.NoCallbackGivesRoot | src/index.ts:8-21 | When the name is missing from the outer query, or its first value is empty, the destination is exactly `/` and `redirect` assigns `/`. |
| RedirectProperties.CallbackDestination | src/index.ts:10-19 | With a truthy callback value that parses, the destination is the callback's pathname followed by the search of the surviving outer pairs and then the surviving moved pairs. |
| RedirectProperties.CorrectedCallbackDestination | src/index.ts:10-19 | The same for the corrected resolver, with every movable callback pair. |
| RedirectProperties.ResolvedPairsOrigin | src/index.ts:11-18 | Every pair of the destination query is either an outer pair or a callback pair with a non-empty name and value, and none is named `queryParamName`. |
| RedirectProperties.LiveResultWithinCorrected | src/index.ts:11-16 | The source and the corrected resolver fail together and agree on the path. The source's query is an ordered selection of the corrected one. |
| RedirectProperties.CorrectedCarriesCallbackPairs | src/index.ts:11-18 | The corrected destination holds each movable callback pair not named `queryParamName` as often as the callback does, on top of the outer occurrences. |
| RedirectProperties.BareCallbackPath | src/index.ts:19 | If the outer query holds only the callback parameter and the callback has no query, the destination is the callback's pathname with no `?`. |
| RedirectExamples.RedirectsToCallbackPath | test/index.spec.ts:45-54 | `?next=/account` assigns exactly `/account`. |
| RedirectExamples.RedirectsToRootWithoutCallback | test/index.spec.ts:56-65 | `redirect("")` assigns `/`. |
| RedirectExamples.PreservesCallbackQuery | test/index.spec.ts:67-88 | For `?next=/cart?k1=v1&k2=v2` the resolver succeeds, and its destination query looks up `v1` for `k1` and `v2` for `k2`. `redirect` assigns `/cart?k2=v2&k1=v1`. |
| RedirectExamples.EscapesOtherDomain | test/index.spec.ts:90-106 | `?next=https://www.google.com` assigns `/`. |
| RedirectExamples.EscapesEncodedOtherDomain | test/index.spec.ts:108-124 | `?next=http%3A%2F%2Fgoogle.com` assigns `/`. |
| RedirectExamples.EscapesJavascript | test/index.spec.ts:126-143 | `?next=javascript:alert('hey')` assigns `alert('hey')`. |
| RedirectExamples.ProtocolRelativeCallback | src/index.ts:10-19 | `?next=/.//evil.com`, whose pathname the parser gives as `//evil.com`, assigns `//evil.com`. |
| RedirectExamples.NoNavigationOnInvalidLocation | src/index.ts:1-7 | An href the parser rejects gives the location error and no navigation. |
| RedirectExamples.LiveMoveDropsSecondCallbackPair | src/index.ts:11-19 | The encoded callback `/x?a=1&b=2` assigns `/x?a=1` in the source, and `/x?a=1&b=2` when corrected. |

## Findings

| source | as written | input that shows it | evidently intended | confidence | as-written member | corrected member |
|---|---|---|---|---|---|---|
| src/index.ts:11-16 | `cbUrl.searchParams.forEach` deletes from the list it is iterating. WebIDL `forEach` re-reads the live list at the next index, so the pair just after each moved pair is skipped. Later pairs with a moved name are dropped by the delete. | Location `?next=%2Fx%3Fa%3D1%26b%3D2` (callback `/x?a=1&b=2`) resolves to `/x?a=1`. `b=2` is lost. | Every callback pair with a non-empty name and value is carried over, giving `/x?a=1&b=2` (the test title says "preserving callbacks query params"). | medium; not executed | CallbackMove.LiveMoveSkipsSecond | CallbackMove.MoveCallbackParamsSnapshot |

The test at test/index.spec.ts:67-88 does not expose this. Its callback value is
not encoded, so `k2=v2` stays in the outer query and the callback carries only
one pair.

The model keeps both behaviours. `Resolve`, `GetRedirectionQueryParam` and
`Redirect` model the code as written, skip included. `ResolveCorrected`,
`GetRedirectionQueryParamCorrected` and `RedirectCorrected` use the corrected
move (`Movables`, computed by `MoveCallbackParamsSnapshot`).
`CorrectedCarriesCallbackPairs` proves the intended property about them.
`LiveResultWithinCorrected` proves that the code as written only ever loses
callback pairs relative to the corrected version.

## Left out

- URL parsing (section 4.4 of the WHATWG URL Standard): a `Parser` parameter. Relative resolution, the pathname of special and opaque-path URLs, and the constructor's exceptions are whatever that parameter returns.
- `application/x-www-form-urlencoded` parsing and percent-encoding (section 5 of the WHATWG URL Standard): parsed records already hold decoded pairs. Serialisation joins `enc(name)=enc(value)` pairs with `&`, with the encoder `enc` as a parameter.
- `window.location` as a global, and the navigation side effect: the href is a parameter, and navigation is a returned `Navigation` list.
- The final state of the callback URL's query after the loop's deletions: it never reaches the result, because only `cbUrl.pathname` is read. `MoveCallbackParams` keeps it local and states nothing about it.
- Resolver.ResolveWith: states the destination path as the callback's pathname exactly as parsed. It does not model the current URL Standard step that strips trailing spaces from an opaque path when a `URLSearchParams` update leaves the query empty. That step could change `javascript:x ?a=1`-shaped callbacks, and whether the runtime implements it is outside the source.
- A same-origin guarantee for the destination: the model does not prove that the destination stays on the current origin, because the source does not ensure it. `OriginNeverContributes` covers only the callback record's scheme, host, port and fragment fields. `ProtocolRelativeDestination` shows that a pathname beginning with `//` still leads to another host.
- The options that test/index.spec.ts:145-202 exercises (`extraQueryParams`, `replace`): `redirect` at src/index.ts:1 accepts no options, so the code has no such behaviour.
