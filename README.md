# Result shaping of the reveald HTTP adapter, in Dafny

This project models the result-shaping layer of the reveald HTTP adapter
(`result.go`). That layer turns a search result into a response document.
The result holds the hits, the aggregation buckets, the pagination and sort
state, and the request that produced it. In the response, every pagination
link, sort option and facet bucket carries a query-string link. Each link
is the originating request with one dimension overridden.

The model has seven modules:

- `Wrappers`: the `Option` type, standing for Go's nil-or-value results.

- `GoLib`: the bits of Go it needs. Integer division truncates toward zero
  (`GoDiv`), `%d` is `IntText`, and `strings.Join` is `Join`. `Split` and a
  parser for decimal text serve as the inverses used in round trips.
- `Reveald`: the types of the external `reveald` library as the call sites
  use them. A `Request` is a sequence of named `Parameter`s, each discrete
  or a range. `Set` replaces a parameter with one discrete value, or
  appends it when the name is absent. The module also holds the backend's
  `SearchResult`.
- `RequestUrl`: `makeRequestURL` as an imperative loop
  (`MakeRequestUrl`), proved against `Serialize`. `Serialize` lists the
  pairs each parameter writes, renders them and joins them with `&`.
  `ParseQuery` reads such a string back.
- `Pages`: `NewPagination`. It holds the page arithmetic (`PageCount`,
  `CurrentPage`) and the previous and next links.
- `SortOptions`: `NewSortOptions`.
- `Response`: `NewResult` and its bucket loop, both as written and
  corrected (see Findings).

In `NewPagination`, `NewSortOptions`, `NewBuckets` and `NewResult`, each
Go function's `request` local is a local variable, threaded through the
function's loop and `Set` calls as the source mutates it. In
`MakeRequestUrl` the value threaded through the loop is the slice of
`parts`. `NewBucketsIsolated` and `NewResultIsolated` are the corrected
versions of the bucket loop and of `NewResult`: they take the request
afresh for every aggregation, which the source does not. Each link is
characterised by a specification function of the inputs: `PageRequest`,
`SortRequest`, `LinkRequest` and `CarriedRequest`. Lemmas state what the
link's request holds for each parameter name.

Three behaviours of the code differ from what one would expect of the
response document. The as-written members follow the code:

- **Page count.** "25 hits, page size 10 and offset 10 give `current = 2`,
  `count = 3`, and a next link to `offset=20&size=10`" does not hold. The
  code computes `count = TotalHitCount / PageSize = 2`, so page 2 has no
  next link. `Pages.PartialLastPageExample` proves the code's values.
- **Sort options.** "The sort options are omitted only when there is no
  sort descriptor" does not hold. `NewSortOptions` also returns a nil slice
  when sorting is present but offers no options. The model gives `None` in
  both cases.
- **Bucket request.** "Each bucket link starts from an independent copy of
  the originating request" does not hold. The code shares one request
  across all aggregations. `NewBuckets` and `NewResult` model that, and
  `NewBucketsIsolated` and `NewResultIsolated` model the intended
  behaviour; see Findings.

## Model

| member | source | states |
|---|---|---|
| GoLib.GoDiv | result.go:78-85 | Go's integer `/`: the magnitude is the quotient of the magnitudes; the sign is positive only when the operands agree in sign; it equals Euclidean division for a non-negative dividend and positive divisor |
| GoLib.ParseIntText | result.go:96-104 | the `%d` text of any integer reads back as that integer |
| GoLib.IntTextInjective | result.go:96-104 | distinct offsets or sizes give distinct texts |
| GoLib.SplitJoin | result.go:156 | splitting at `&` undoes `strings.Join(parts, "&")` when no part holds `&` |
| Reveald.SetSemantics | result.go:47 | after `Set(name, v)`: `name` holds exactly `[v]`, every other name is unchanged, an absent name is appended at the end, a present one is replaced in place, and unique names stay unique |
| Reveald.SetOverwrites | result.go:122 | a second `Set` of the same name leaves no trace of the first |
| Reveald.SetCommutes | result.go:96-104 | `Set`s of two different names commute once the first is present |
| RequestUrl.Serialize | result.go:156 | the query string is empty exactly when the request writes no pairs, so an empty request gives `""` |
| RequestUrl.MakeRequestUrl | result.go:135-157 | the loop returns exactly `Serialize(req)`: every parameter's pairs rendered as `key=value`, in request order, joined by `&` |
| RequestUrl.AppendRange | result.go:139-148 | a range parameter appends `k.min=` then `k.max=`, each only when that bound is set |
| RequestUrl.AppendValues | result.go:149-153 | a discrete parameter appends one `k=v` per value, in value order |
| RequestUrl.AppendParam | result.go:139-153 | one loop body appends exactly that parameter's rendered pairs |
| RequestUrl.RangeEntries | result.go:139-148 | a range writes a `.min` pair iff min is set and a `.max` pair iff max is set, min first, so 0, 1 or 2 pairs |
| RequestUrl.DiscreteEntries | result.go:149-153 | a discrete parameter writes exactly one `name=v` pair per value, in order |
| RequestUrl.RequestPairsAppend | result.go:138-154 | the pairs of a concatenation of requests are the concatenation of their pairs |
| RequestUrl.RequestPairsSplit | result.go:138-154 | each parameter's pairs sit contiguously between those of the parameters before and after it |
| RequestUrl.SerializeOne | result.go:151-156 | a single one-valued parameter serialises to `name=value` |
| RequestUrl.SerializeTwo | result.go:151-156 | two one-valued parameters serialise to `a=x&b=y` |
| RequestUrl.SerializeRoundTrip | result.go:135-157 | reading the query string back gives exactly the request's pairs, when names hold no `&` or `=` and values no `&` |
| Pages.PageCount | result.go:78-81 | `count >= 1`; with fewer hits than one page, `count = 1` |
| Pages.PageCountFullPages | result.go:78-81 | with at least one full page, `count` is the number of full pages |
| Pages.CurrentPage | result.go:83-86 | `current >= 1` for a positive page size; `current > 1` only when `offset >= size`, so the previous offset is non-negative |
| Pages.CurrentPageHoldsOffset | result.go:83-86 | for a positive size and a non-negative offset, page `current` holds the hit at `offset` |
| Pages.PageRequest | result.go:96-97 | the link request has `offset` and `size` set to the given texts, every other parameter unchanged, and unique names kept |
| Pages.PageRequestAgain | result.go:96-104 | the next link's two `Set`s erase the previous link's `offset`, so the next link is the originating request with the next page's `offset` and `size` |
| Pages.NewPagination | result.go:73-111 | none iff no pagination or page size 0; count and current as above; previous iff `current > 1` and next iff `current < count`; each link is the originating request with `offset` moved by one page and `size` kept |
| Pages.LinkedPagesExist | result.go:83-108 | for non-negative offset and positive size, the next link starts at an existing hit, and the previous link's offset lies in `[0, offset)` |
| Pages.CountFloorExample | result.go:78-81 | 5 hits with page size 10 give `count = 1` |
| Pages.PartialLastPageExample | result.go:78-108 | offset 10, size 10 and 25 hits give `current = 2` and `count = 2`; the previous link is `offset=0&size=10` |
| SortOptions.NewSortOptions | result.go:113-133 | none iff sorting is absent or offers no options; otherwise one entry per option, in order, with name and flags copied and a link that starts from the originating request |
| SortOptions.SortRequestSelects | result.go:122 | an option's link sets the sort parameter to exactly that option's name and leaves every other parameter as it was |
| SortOptions.SortRequestsDiffer | result.go:121-128 | options with different names link to different requests |
| Response.Milliseconds | result.go:64 | `int64(r.Duration / time.Millisecond)` with Go's truncating division: the magnitude is the number of whole milliseconds in the duration's magnitude, and the sign is the duration's (zero for less than a millisecond) |
| Response.MillisecondsRounding | result.go:64 | a non-negative duration is reported in whole milliseconds, rounded down; a negative one is rounded toward zero |
| Response.LinkBuckets | result.go:45-54 | one bucket per statistic, in order, with the value and the hit count copied; bucket `t`'s link is the start request with the key set to value `t` |
| Response.LinkRequestSelects | result.go:47 | a bucket's link holds exactly that bucket's value for the key, so no earlier bucket's value survives; every other parameter is unchanged; names stay unique |
| Response.BucketsUpToKeys | result.go:44-60 | the bucket map has an entry for every aggregation processed so far and for nothing else |
| Response.BucketsUpToValues | result.go:44-60 | with unique aggregation names, no later aggregation overwrites an earlier one's entry |
| Response.NewBuckets | result.go:41-61 | as written: an entry for every aggregation, empty ones included, and for nothing else; each aggregation's links start from the request the aggregations before it left behind |
| Response.CarriedRequestKeys | result.go:41-61 | after the loop over some aggregations, the shared request holds each non-empty aggregation's last bucket value under its key |
| Response.CarriedRequestOthers | result.go:41-61 | every other name in the shared request keeps its originating value |
| Response.AfterLinksLookup | result.go:46-54 | one aggregation's inner loop leaves its key at its last value, if it has buckets, and every other name unchanged |
| Response.CarriedLinks | result.go:41-53 | as written: the link of bucket `t` of aggregation `i` also carries, for every earlier aggregation with buckets, that aggregation's last value; the link keeps parameter names unique when the originating request does, so the key appears exactly once |
| Response.CarriedWellFormed | result.go:41-53 | the shared request keeps parameter names unique across all aggregations: a bucket's `Set` replaces its key, never adds a second one |
| Response.CrossFacetCarryOver | result.go:41-53 | concrete case (see Findings): the `size=S` link comes out as `color=blue&size=S` |
| Response.NewBucketsIsolated | result.go:41-61 | corrected: the same entries, with every aggregation's links starting from the originating request |
| Response.IsolatedLinks | result.go:46-53 | corrected: bucket `t` of aggregation `i` copies value and hit count; its link is the originating request with only that aggregation's key set to the bucket's value |
| Response.IsolatedExample | result.go:46-53 | corrected, same concrete case: the link is `size=S` |
| Response.NewResult | result.go:40-71 | as written: duration in milliseconds, hit count and hits copied; an entry for every aggregation and nothing else, each aggregation's links starting from the shared request the aggregations before it left behind (`FacetBuckets(r, i, Carried)`); the pagination and sort blocks exactly as `NewPagination` and `NewSortOptions` promise |
| Response.NewResultIsolated | result.go:40-71 | corrected: the same document, except that every aggregation's links start from the originating request (`FacetBuckets(r, i, Originating)`) |

## Left out

- HTTP routing, middleware, options, handlers, readers and the logger (`server.go`, `route.go`, `handler.go`, `reader.go`, `logger.go`) and the example program are not part of this model: they are plumbing with no logic beyond calls into `net/http`, `net/url` and `encoding/json`.
- JSON encoding of the response and `omitempty` are not modelled. A nil and an empty slice are told apart only where the code's result differs (`Option` for `Pages`, `Sort` and the links). The empty bucket sequence is `[]`.
- `Request`, `Parameter` and `Result` belong to the external `reveald` library, which is not part of this model. Only the contract the call sites rely on is modelled: `Set` replaces or appends, and `GetAll` hands out the parameters. `r.Request()` is taken to return the originating request as an independent value each time it is called.
- Go map iteration order in `r.GetAll()` and `r.Aggregations` is unspecified. The model takes each order as an input sequence. `UniqueKeys` stands for the map's distinct keys.
- The parameter order of a query string is not modelled as unspecified. `Serialize` writes the parameters in the request's sequence order, and `Set` appends a new name last. In Go, `GetAll` returns a map, so each `makeRequestURL` call may write the parameters in any order. The lemmas about which parameters a link's request holds hold for every order. The exact strings hold only for the sequence order: `offset=0&size=10` in `Pages.PartialLastPageExample`, and `color=blue&size=S` in `Response.CrossFacetCarryOver` and in the Findings row. (`size=S` in `Response.IsolatedExample` has only one parameter.)
- `%v` of an `interface{}` bucket value is `ValueText`, over string and integer values only. `%.0f` of a range bound is modelled by taking bounds as integers. Floating-point rounding is not modelled.
- Fixed-width integers are modelled as unbounded `int`. Overflow of `int64`/`int` in the page arithmetic and the duration conversion is not modelled.
- Query strings are not percent-encoded by the source. The round trip is therefore proved only for requests whose names hold no `&` or `=` and whose values hold no `&`.

## Findings

| source | as written | input that shows it | evidently intended | confidence | as-written member | corrected member |
|---|---|---|---|---|---|---|
| result.go:41-47 | one `request` is created before the aggregation loop and every bucket `Set`s its aggregation's key on it, so the links of each aggregation keep the last value of every aggregation iterated before it | no request parameters; aggregation `color` with buckets `red`, `blue`, then `size` with bucket `S`: the `S` link is `color=blue&size=S` | each bucket link is the originating request with only that aggregation's key overridden, here `size=S` (take `r.Request()` inside the aggregation loop) | not executed | Response.CrossFacetCarryOver | Response.NewBucketsIsolated |
