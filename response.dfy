/** `NewResult`: the response document, with a link per aggregation bucket,
    the pagination block and the sort options. */
module Response {
  import opened Wrappers
  import opened GoLib
  import opened Reveald
  import opened RequestUrl
  import opened Pages
  import opened SortOptions

  /** `Bucket`. */
  datatype Bucket = Bucket(value: Value, count: int, query: string)

  /** `Result`: the duration in milliseconds, the hit count, the hits, the
      buckets by aggregation name, and the optional pages and sort blocks. */
  datatype Result = Result(
    durationMs: int,
    numberOfHits: int,
    hits: seq<Document>,
    buckets: map<string, seq<Bucket>>,
    pages: Option<Pagination>,
    sort: Option<seq<SortOption>>)

  const NanosecondsPerMillisecond := 1000000

  /** `r.Duration / time.Millisecond`, truncated toward zero: the whole
      milliseconds in the duration's magnitude, with the duration's sign. */
  function Milliseconds(d: int): (ms: int)
    ensures Abs(ms) == Abs(d) / NanosecondsPerMillisecond
    ensures d >= 0 ==> ms >= 0
    ensures d < 0 ==> ms <= 0
  {
    GoDiv(d, NanosecondsPerMillisecond)
  }

  /** A duration that is not negative is reported in whole milliseconds,
      rounded down; a negative one is rounded toward zero. */
  lemma MillisecondsRounding(d: int)
    ensures d >= 0 ==>
      && Milliseconds(d) >= 0
      && Milliseconds(d) * NanosecondsPerMillisecond <= d < (Milliseconds(d) + 1) * NanosecondsPerMillisecond
    ensures d < 0 ==> Milliseconds(d) == -Milliseconds(-d)
  {
    assert Abs(d) == Abs(-d);
    if d >= 0 {
      FloorBounds(d, NanosecondsPerMillisecond);
    }
  }

  // ---------------------------------------------------------------------
  // The links of one aggregation's buckets

  /** The request behind the link of a bucket with value `v`: `start` with
      the aggregation's key set to the text of `v`. */
  function LinkRequest(start: Request, key: string, v: Value): Request
  {
    Set(start, key, ValueText(v))
  }

  /** The bucket promised for statistic `t` when the links start from
      `start`. */
  function LinkedBucket(start: Request, key: string, stats: seq<BucketStat>, t: nat): Bucket
    requires t < |stats|
  {
    Bucket(stats[t].value, stats[t].hitCount, Serialize(LinkRequest(start, key, stats[t].value)))
  }

  /** What the request is after an aggregation's buckets have been linked:
      the aggregation's key holds the last bucket's value. */
  function AfterLinks(start: Request, key: string, stats: seq<BucketStat>): Request
  {
    if |stats| == 0 then start else LinkRequest(start, key, stats[|stats| - 1].value)
  }

  /** The inner loop of `NewResult`: one bucket per statistic, in order.
      Every statistic overwrites the same key, so each link holds its own
      value for that key and none of the values before it. */
  method LinkBuckets(start: Request, key: string, stats: seq<BucketStat>)
    returns (b: seq<Bucket>, request: Request)
    ensures |b| == |stats|
    ensures forall t :: 0 <= t < |stats| ==> b[t] == LinkedBucket(start, key, stats, t)
    ensures request == AfterLinks(start, key, stats)
  {
    request := start;
    b := [];
    var j := 0;
    while j < |stats|
      invariant 0 <= j <= |stats|
      invariant |b| == j
      invariant forall t :: 0 <= t < j ==> b[t] == LinkedBucket(start, key, stats, t)
      invariant j == 0 ==> request == start
      invariant j > 0 ==> request == Set(start, key, ValueText(stats[j - 1].value))
    {
      var bs := stats[j];
      if j > 0 {
        SetOverwrites(start, key, ValueText(stats[j - 1].value), ValueText(bs.value));
      }
      request := Set(request, key, ValueText(bs.value));

      var url := MakeRequestUrl(request);
      LinkStep(start, key, stats, b, url);
      b := b + [Bucket(bs.value, bs.hitCount, url)];
      j := j + 1;
    }
  }

  /** One more link keeps the buckets built so far as promised. */
  lemma LinkStep(start: Request, key: string, stats: seq<BucketStat>, b: seq<Bucket>, url: string)
    requires |b| < |stats|
    requires forall t :: 0 <= t < |b| ==> b[t] == LinkedBucket(start, key, stats, t)
    requires url == Serialize(Set(start, key, ValueText(stats[|b|].value)))
    ensures forall t :: 0 <= t <= |b| ==>
      (b + [Bucket(stats[|b|].value, stats[|b|].hitCount, url)])[t] == LinkedBucket(start, key, stats, t)
  {
  }

  /** The link of a bucket sets the aggregation's key to that bucket's value
      alone, so no value of an earlier bucket survives for that key, and
      leaves every other parameter as `start` has it; a request without
      repeated names stays so, and the key occurs in it exactly once. */
  lemma LinkRequestSelects(start: Request, key: string, v: Value)
    ensures Lookup(LinkRequest(start, key, v), key) == Some(Discrete([ValueText(v)]))
    ensures forall m :: m != key ==> Lookup(LinkRequest(start, key, v), m) == Lookup(start, m)
    ensures WellFormed(start) ==> WellFormed(LinkRequest(start, key, v))
  {
    SetSemantics(start, key, ValueText(v));
  }

  // ---------------------------------------------------------------------
  // The request the aggregations start from

  /** Where the links of an aggregation start: `Carried` is the request as
      the aggregations before it left it, as `NewResult` has it; and
      `Originating` is the request of the search itself. */
  datatype Origin = Carried | Originating

  /** The request as `NewResult` leaves it after the aggregations `aggs`: one
      request is used for every aggregation, so each aggregation with buckets
      leaves its key set to its last bucket's value. */
  function CarriedRequest(req: Request, aggs: seq<Facet>): Request
    decreases |aggs|
  {
    if |aggs| == 0 then req
    else
      var last := aggs[|aggs| - 1];
      AfterLinks(CarriedRequest(req, aggs[..|aggs| - 1]), last.key, last.stats)
  }

  /** The shared request keeps parameter names unique: each aggregation
      with buckets replaces or appends its key, never adds a second one. */
  lemma {:induction false} CarriedWellFormed(req: Request, aggs: seq<Facet>)
    requires WellFormed(req)
    ensures WellFormed(CarriedRequest(req, aggs))
    decreases |aggs|
  {
    if |aggs| > 0 {
      var last := aggs[|aggs| - 1];
      CarriedWellFormed(req, aggs[..|aggs| - 1]);
      if |last.stats| > 0 {
        LinkRequestSelects(CarriedRequest(req, aggs[..|aggs| - 1]), last.key, last.stats[|last.stats| - 1].value);
      }
    }
  }

  function FacetStart(r: SearchResult, i: nat, o: Origin): Request
    requires i < |r.aggregations|
  {
    if o == Carried then CarriedRequest(r.request, r.aggregations[..i]) else r.request
  }

  /** The buckets of aggregation `i`, its links starting as `o` says. */
  function FacetBuckets(r: SearchResult, i: nat, o: Origin): seq<Bucket>
    requires i < |r.aggregations|
  {
    var start, agg := FacetStart(r, i, o), r.aggregations[i];
    seq(|agg.stats|, t requires 0 <= t < |agg.stats| => LinkedBucket(start, agg.key, agg.stats, t))
  }

  /** The bucket map after the first `k` aggregations. */
  function BucketsUpTo(r: SearchResult, k: nat, o: Origin): map<string, seq<Bucket>>
    requires k <= |r.aggregations|
  {
    if k == 0 then map[]
    else BucketsUpTo(r, k - 1, o)[r.aggregations[k - 1].key := FacetBuckets(r, k - 1, o)]
  }

  /** The map holds an entry for each of the first `k` aggregations and for
      nothing else. */
  lemma BucketsUpToKeys(r: SearchResult, k: nat, o: Origin)
    requires k <= |r.aggregations|
    ensures forall key :: key in BucketsUpTo(r, k, o) <==>
      exists i :: 0 <= i < k && r.aggregations[i].key == key
  {
    forall key | key in BucketsUpTo(r, k, o)
      ensures exists i :: 0 <= i < k && r.aggregations[i].key == key
    {
      BucketsUpToOnly(r, k, o, key);
    }
    forall i | 0 <= i < k ensures r.aggregations[i].key in BucketsUpTo(r, k, o) {
      BucketsUpToHas(r, k, o, i);
    }
  }

  lemma {:induction false} BucketsUpToHas(r: SearchResult, k: nat, o: Origin, i: nat)
    requires i < k <= |r.aggregations|
    ensures r.aggregations[i].key in BucketsUpTo(r, k, o)
  {
    if i < k - 1 {
      BucketsUpToHas(r, k - 1, o, i);
    }
  }

  lemma {:induction false} BucketsUpToOnly(r: SearchResult, k: nat, o: Origin, key: string)
    requires k <= |r.aggregations| && key in BucketsUpTo(r, k, o)
    ensures exists i :: 0 <= i < k && r.aggregations[i].key == key
  {
    if key != r.aggregations[k - 1].key {
      BucketsUpToOnly(r, k - 1, o, key);
    }
  }

  /** With unique aggregation names, the entry of each of the first `k`
      aggregations holds that aggregation's buckets: no later aggregation
      overwrites it. */
  lemma BucketsUpToValues(r: SearchResult, k: nat, o: Origin)
    requires k <= |r.aggregations| && UniqueKeys(r.aggregations)
    ensures forall i :: 0 <= i < k ==>
      && r.aggregations[i].key in BucketsUpTo(r, k, o)
      && BucketsUpTo(r, k, o)[r.aggregations[i].key] == FacetBuckets(r, i, o)
  {
    forall i | 0 <= i < k
      ensures r.aggregations[i].key in BucketsUpTo(r, k, o)
      ensures BucketsUpTo(r, k, o)[r.aggregations[i].key] == FacetBuckets(r, i, o)
    {
      BucketsUpToAt(r, k, o, i);
    }
  }

  lemma {:induction false} BucketsUpToAt(r: SearchResult, k: nat, o: Origin, i: nat)
    requires i < k <= |r.aggregations| && UniqueKeys(r.aggregations)
    ensures r.aggregations[i].key in BucketsUpTo(r, k, o)
    ensures BucketsUpTo(r, k, o)[r.aggregations[i].key] == FacetBuckets(r, i, o)
  {
    if i < k - 1 {
      BucketsUpToAt(r, k - 1, o, i);
      assert r.aggregations[i].key != r.aggregations[k - 1].key;
    }
  }

  /** The buckets one aggregation's links give are the ones promised, and
      they extend the map by that aggregation's entry. */
  lemma BucketsStep(r: SearchResult, k: nat, o: Origin, b: seq<Bucket>)
    requires k < |r.aggregations|
    requires |b| == |r.aggregations[k].stats|
    requires forall t :: 0 <= t < |b| ==>
      b[t] == LinkedBucket(FacetStart(r, k, o), r.aggregations[k].key, r.aggregations[k].stats, t)
    ensures b == FacetBuckets(r, k, o)
    ensures BucketsUpTo(r, k, o)[r.aggregations[k].key := b] == BucketsUpTo(r, k + 1, o)
  {
    assert b == FacetBuckets(r, k, o);
  }

  lemma CarriedStep(req: Request, aggs: seq<Facet>, k: nat)
    requires k < |aggs|
    ensures CarriedRequest(req, aggs[..k + 1]) == AfterLinks(CarriedRequest(req, aggs[..k]), aggs[k].key, aggs[k].stats)
  {
    assert aggs[..k + 1][..k] == aggs[..k];
  }

  /** The bucket loop of `NewResult` as written: an entry for every
      aggregation and for nothing else; one bucket per statistic in order,
      and an empty sequence for an aggregation without statistics. One
      request serves every aggregation, so each link starts from the
      request the aggregations before it left behind. */
  method NewBuckets(r: SearchResult) returns (buckets: map<string, seq<Bucket>>)
    requires UniqueKeys(r.aggregations)
    ensures forall key :: key in buckets <==>
      exists i :: 0 <= i < |r.aggregations| && r.aggregations[i].key == key
    ensures forall i :: 0 <= i < |r.aggregations| ==>
      buckets[r.aggregations[i].key] == FacetBuckets(r, i, Carried)
  {
    var request := r.request;

    buckets := map[];
    var k := 0;
    while k < |r.aggregations|
      invariant 0 <= k <= |r.aggregations|
      invariant request == CarriedRequest(r.request, r.aggregations[..k])
      invariant buckets == BucketsUpTo(r, k, Carried)
    {
      var key, aggs := r.aggregations[k].key, r.aggregations[k].stats;
      var b;
      b, request := LinkBuckets(request, key, aggs);
      BucketsStep(r, k, Carried, b);
      CarriedStep(r.request, r.aggregations, k);

      if |b| > 0 {
        buckets := buckets[key := b];
      } else {
        // A facet without buckets still gets an entry, an empty one.
        buckets := buckets[key := []];
      }
      k := k + 1;
    }
    BucketsUpToKeys(r, k, Carried);
    BucketsUpToValues(r, k, Carried);
  }

  /** The bucket loop with the request taken afresh for every aggregation:
      the same entries as `NewBuckets`, but every link starts from the
      originating request. */
  method NewBucketsIsolated(r: SearchResult) returns (buckets: map<string, seq<Bucket>>)
    requires UniqueKeys(r.aggregations)
    ensures forall key :: key in buckets <==>
      exists i :: 0 <= i < |r.aggregations| && r.aggregations[i].key == key
    ensures forall i :: 0 <= i < |r.aggregations| ==>
      buckets[r.aggregations[i].key] == FacetBuckets(r, i, Originating)
  {
    buckets := map[];
    var k := 0;
    while k < |r.aggregations|
      invariant 0 <= k <= |r.aggregations|
      invariant buckets == BucketsUpTo(r, k, Originating)
    {
      var request := r.request;
      var key, aggs := r.aggregations[k].key, r.aggregations[k].stats;
      var b;
      b, request := LinkBuckets(request, key, aggs);
      BucketsStep(r, k, Originating, b);

      if |b| > 0 {
        buckets := buckets[key := b];
      } else {
        buckets := buckets[key := []];
      }
      k := k + 1;
    }
    BucketsUpToKeys(r, k, Originating);
    BucketsUpToValues(r, k, Originating);
  }

  // ---------------------------------------------------------------------
  // What the links say

  /** The last statistic of an aggregation that has some. */
  function LastValue(agg: Facet): Value
    requires |agg.stats| > 0
  {
    agg.stats[|agg.stats| - 1].value
  }

  /** After the aggregations `aggs` (with unique names), the carried request
      holds, for the key of every aggregation with buckets, that
      aggregation's last value. */
  lemma {:induction false} CarriedRequestKeys(req: Request, aggs: seq<Facet>)
    requires UniqueKeys(aggs)
    ensures forall j :: 0 <= j < |aggs| && |aggs[j].stats| > 0 ==>
      Lookup(CarriedRequest(req, aggs), aggs[j].key) == Some(Discrete([ValueText(LastValue(aggs[j]))]))
    decreases |aggs|
  {
    if |aggs| > 0 {
      var n := |aggs| - 1;
      var front, last := aggs[..n], aggs[n];
      assert UniqueKeys(front);
      CarriedRequestKeys(req, front);
      var before := CarriedRequest(req, front);
      var after := CarriedRequest(req, aggs);
      assert after == AfterLinks(before, last.key, last.stats);
      forall j | 0 <= j < |aggs| && |aggs[j].stats| > 0
        ensures Lookup(after, aggs[j].key) == Some(Discrete([ValueText(LastValue(aggs[j]))]))
      {
        AfterLinksLookup(before, last, aggs[j].key);
        if j < n {
          assert front[j] == aggs[j];
          assert aggs[j].key != last.key;
        }
      }
    }
  }

  /** Linking an aggregation's buckets leaves its key at the last value, if
      it has buckets, and every other name as it was. */
  lemma AfterLinksLookup(before: Request, f: Facet, m: string)
    ensures Lookup(AfterLinks(before, f.key, f.stats), m) ==
      if |f.stats| > 0 && m == f.key then Some(Discrete([ValueText(LastValue(f))])) else Lookup(before, m)
  {
    if |f.stats| > 0 {
      LinkRequestSelects(before, f.key, LastValue(f));
    }
  }

  /** Every name that is not the key of an aggregation with buckets keeps in
      the carried request what it has in `req`. */
  lemma {:induction false} CarriedRequestOthers(req: Request, aggs: seq<Facet>, m: string)
    requires forall j :: 0 <= j < |aggs| ==> aggs[j].key != m || |aggs[j].stats| == 0
    ensures Lookup(CarriedRequest(req, aggs), m) == Lookup(req, m)
    decreases |aggs|
  {
    if |aggs| > 0 {
      var n := |aggs| - 1;
      var front, last := aggs[..n], aggs[n];
      assert forall j :: 0 <= j < n ==> front[j] == aggs[j];
      CarriedRequestOthers(req, front, m);
      AfterLinksLookup(CarriedRequest(req, front), last, m);
    }
  }

  lemma FacetBucketAt(r: SearchResult, i: nat, o: Origin, t: nat)
    requires i < |r.aggregations| && t < |r.aggregations[i].stats|
    ensures FacetBuckets(r, i, o)[t] ==
      LinkedBucket(FacetStart(r, i, o), r.aggregations[i].key, r.aggregations[i].stats, t)
  {
  }

  /** As written, the link of bucket `t` of aggregation `i` sets that
      aggregation's key to the bucket's value, but also holds, for the key
      of every aggregation before it that has buckets, that aggregation's
      last value. */
  lemma CarriedLinks(r: SearchResult, i: nat, t: nat)
    requires UniqueKeys(r.aggregations)
    requires i < |r.aggregations| && t < |r.aggregations[i].stats|
    ensures var agg := r.aggregations[i];
      FacetBuckets(r, i, Carried)[t].query == Serialize(LinkRequest(FacetStart(r, i, Carried), agg.key, agg.stats[t].value))
    ensures var q := LinkRequest(FacetStart(r, i, Carried), r.aggregations[i].key, r.aggregations[i].stats[t].value);
      && Lookup(q, r.aggregations[i].key) == Some(Discrete([ValueText(r.aggregations[i].stats[t].value)]))
      && forall j :: 0 <= j < i && |r.aggregations[j].stats| > 0 ==>
        Lookup(q, r.aggregations[j].key) == Some(Discrete([ValueText(LastValue(r.aggregations[j]))]))
    ensures var q := LinkRequest(FacetStart(r, i, Carried), r.aggregations[i].key, r.aggregations[i].stats[t].value);
      WellFormed(r.request) ==> WellFormed(q)
  {
    var aggs := r.aggregations;
    var front := aggs[..i];
    assert UniqueKeys(front);
    CarriedRequestKeys(r.request, front);
    var start := FacetStart(r, i, Carried);
    LinkRequestSelects(start, aggs[i].key, aggs[i].stats[t].value);
    if WellFormed(r.request) {
      CarriedWellFormed(r.request, front);
    }
    forall j | 0 <= j < i && |aggs[j].stats| > 0 ensures aggs[j].key != aggs[i].key && front[j] == aggs[j] {
    }
  }

  /** With the request taken afresh, the link of bucket `t` of aggregation
      `i` is the originating request with that aggregation's key set to the
      bucket's value alone, and every other parameter as the search had
      it. */
  lemma IsolatedLinks(r: SearchResult, i: nat, t: nat)
    requires i < |r.aggregations| && t < |r.aggregations[i].stats|
    ensures var agg := r.aggregations[i];
      && FacetBuckets(r, i, Originating)[t].value == agg.stats[t].value
      && FacetBuckets(r, i, Originating)[t].count == agg.stats[t].hitCount
      && FacetBuckets(r, i, Originating)[t].query == Serialize(LinkRequest(r.request, agg.key, agg.stats[t].value))
    ensures var q := LinkRequest(r.request, r.aggregations[i].key, r.aggregations[i].stats[t].value);
      && Lookup(q, r.aggregations[i].key) == Some(Discrete([ValueText(r.aggregations[i].stats[t].value)]))
      && forall m :: m != r.aggregations[i].key ==> Lookup(q, m) == Lookup(r.request, m)
  {
    LinkRequestSelects(r.request, r.aggregations[i].key, r.aggregations[i].stats[t].value);
  }

  /** A search with no parameters, a `color` aggregation with buckets `red`
      and `blue`, then a `size` aggregation with bucket `S`. */
  function TwoFacetResult(): SearchResult
  {
    SearchResult(0, 2, [],
      [Facet("color", [BucketStat(Str("red"), 1), BucketStat(Str("blue"), 1)]),
       Facet("size", [BucketStat(Str("S"), 2)])],
      Unpaged, Unsorted, [])
  }

  /** As written, the link of the `S` bucket also selects `color=blue`,
      the last color bucket. */
  lemma CrossFacetCarryOver()
    ensures FacetBuckets(TwoFacetResult(), 1, Carried)[0].query == "color=blue&size=S"
  {
    ColorLeftBehind();
    FacetBucketAt(TwoFacetResult(), 1, Carried, 0);
    SizeAfterBlue();
  }

  lemma SizeAfterBlue()
    ensures Serialize(LinkRequest([Entry("color", Discrete(["blue"]))], "size", Str("S"))) == "color=blue&size=S"
  {
    assert "color" + "=" + "blue" + "&" + "size" + "=" + "S" == "color=blue&size=S";
    var blue := [Entry("color", Discrete(["blue"]))];
    assert "color" != "size" by {
      assert "color"[0] != "size"[0];
    }
    assert IndexOf(blue, "size") == |blue|;
    calc {
      Serialize(LinkRequest(blue, "size", Str("S")));
      == { assert LinkRequest(blue, "size", Str("S")) == [Entry("color", Discrete(["blue"])), Entry("size", Discrete(["S"]))]; }
      Serialize([Entry("color", Discrete(["blue"])), Entry("size", Discrete(["S"]))]);
      == { SerializeTwo("color", "blue", "size", "S"); }
      "color" + "=" + "blue" + "&" + "size" + "=" + "S";
    }
  }

  /** The `color` aggregation leaves its last value in the shared request. */
  lemma ColorLeftBehind()
    ensures FacetStart(TwoFacetResult(), 1, Carried) == [Entry("color", Discrete(["blue"]))]
  {
    var r := TwoFacetResult();
    assert r.aggregations[..1][..0] == [];
    assert CarriedRequest(r.request, r.aggregations[..1]) ==
      AfterLinks([], "color", r.aggregations[0].stats);
  }

  /** Taken afresh, the link of the `S` bucket selects the size alone. */
  lemma IsolatedExample()
    ensures FacetBuckets(TwoFacetResult(), 1, Originating)[0].query == "size=S"
  {
    assert "size" + "=" + "S" == "size=S";
    var link := [Entry("size", Discrete(["S"]))];
    calc {
      FacetBuckets(TwoFacetResult(), 1, Originating)[0].query;
      == { FacetBucketAt(TwoFacetResult(), 1, Originating, 0); }
      Serialize(LinkRequest([], "size", Str("S")));
      == { assert LinkRequest([], "size", Str("S")) == link; }
      Serialize(link);
      == { SerializeOne("size", "S"); }
      "size" + "=" + "S";
    }
  }

  /** `NewResult` as written: the duration in milliseconds, the hit count
      and the hits as given, the pagination and sort blocks, and the
      buckets of the shared-request loop (`NewBuckets`), so each
      aggregation's links start from the request the aggregations before it
      left behind. */
  method NewResult(r: SearchResult) returns (res: Result)
    requires UniqueKeys(r.aggregations)
    ensures res.durationMs == Milliseconds(r.duration)
    ensures res.numberOfHits == r.totalHitCount && res.hits == r.hits
    ensures forall key :: key in res.buckets <==>
      exists i :: 0 <= i < |r.aggregations| && r.aggregations[i].key == key
    ensures forall i :: 0 <= i < |r.aggregations| ==>
      res.buckets[r.aggregations[i].key] == FacetBuckets(r, i, Carried)
    ensures res.pages.None? <==> r.pagination.Unpaged? || r.pagination.pageSize == 0
    ensures res.pages.Some? ==> res.pages.value.count == PageCount(r.totalHitCount, r.pagination.pageSize)
    ensures res.pages.Some? ==>
      res.pages.value.current == CurrentPage(r.pagination.offset, r.pagination.pageSize)
    ensures res.pages.Some? ==> (res.pages.value.previous.Some? <==> res.pages.value.current > 1)
    ensures res.pages.Some? ==> (res.pages.value.next.Some? <==> res.pages.value.current < res.pages.value.count)
    ensures res.pages.Some? && res.pages.value.previous.Some? ==>
      res.pages.value.previous.value == Serialize(PageRequest(r.request,
        r.pagination.offset - r.pagination.pageSize, r.pagination.pageSize))
    ensures res.pages.Some? && res.pages.value.next.Some? ==>
      res.pages.value.next.value == Serialize(PageRequest(r.request,
        r.pagination.offset + r.pagination.pageSize, r.pagination.pageSize))
    ensures res.sort.None? <==> r.sorting.Unsorted? || |r.sorting.options| == 0
    ensures res.sort.Some? ==> |res.sort.value| == |r.sorting.options|
    ensures res.sort.Some? ==> forall i :: 0 <= i < |res.sort.value| ==> res.sort.value[i] == OptionEntry(r, i)
  {
    var buckets := NewBuckets(r);
    var pages := NewPagination(r);
    var sort := NewSortOptions(r);
    res := Result(Milliseconds(r.duration), r.totalHitCount, r.hits, buckets, pages, sort);
  }

  /** `NewResult` corrected: the same document, with the buckets of the
      loop that takes the request afresh for every aggregation
      (`NewBucketsIsolated`), so every link starts from the originating
      request. */
  method NewResultIsolated(r: SearchResult) returns (res: Result)
    requires UniqueKeys(r.aggregations)
    ensures res.durationMs == Milliseconds(r.duration)
    ensures res.numberOfHits == r.totalHitCount && res.hits == r.hits
    ensures forall key :: key in res.buckets <==>
      exists i :: 0 <= i < |r.aggregations| && r.aggregations[i].key == key
    ensures forall i :: 0 <= i < |r.aggregations| ==>
      res.buckets[r.aggregations[i].key] == FacetBuckets(r, i, Originating)
    ensures res.pages.None? <==> r.pagination.Unpaged? || r.pagination.pageSize == 0
    ensures res.pages.Some? ==> res.pages.value.count == PageCount(r.totalHitCount, r.pagination.pageSize)
    ensures res.pages.Some? ==>
      res.pages.value.current == CurrentPage(r.pagination.offset, r.pagination.pageSize)
    ensures res.pages.Some? ==> (res.pages.value.previous.Some? <==> res.pages.value.current > 1)
    ensures res.pages.Some? ==> (res.pages.value.next.Some? <==> res.pages.value.current < res.pages.value.count)
    ensures res.pages.Some? && res.pages.value.previous.Some? ==>
      res.pages.value.previous.value == Serialize(PageRequest(r.request,
        r.pagination.offset - r.pagination.pageSize, r.pagination.pageSize))
    ensures res.pages.Some? && res.pages.value.next.Some? ==>
      res.pages.value.next.value == Serialize(PageRequest(r.request,
        r.pagination.offset + r.pagination.pageSize, r.pagination.pageSize))
    ensures res.sort.None? <==> r.sorting.Unsorted? || |r.sorting.options| == 0
    ensures res.sort.Some? ==> |res.sort.value| == |r.sorting.options|
    ensures res.sort.Some? ==> forall i :: 0 <= i < |res.sort.value| ==> res.sort.value[i] == OptionEntry(r, i)
  {
    var buckets := NewBucketsIsolated(r);
    var pages := NewPagination(r);
    var sort := NewSortOptions(r);
    res := Result(Milliseconds(r.duration), r.totalHitCount, r.hits, buckets, pages, sort);
  }
}
