/** The few types of the external `reveald` search library that the result
    shaping code consumes: query parameters, the request that carries them,
    and the search result handed back by a backend. Only the behaviour the
    call sites rely on is modelled. */
module Reveald {
  import opened Wrappers
  import GoLib

  /** A parameter is either a list of discrete values or a numeric range
      whose two bounds are each optional. */
  datatype Parameter =
    | Discrete(values: seq<string>)
    | Range(min: Option<int>, max: Option<int>)

  datatype Entry = Entry(name: string, param: Parameter)

  /** A request: its parameters, in the order `GetAll` hands them out. */
  type Request = seq<Entry>

  /** No parameter name occurs twice (the library keeps a map by name). */
  predicate WellFormed(req: Request)
  {
    forall i, j :: 0 <= i < j < |req| ==> req[i].name != req[j].name
  }

  /** Position of the first parameter called `name`, or `|req|`. */
  function IndexOf(req: Request, name: string): (i: nat)
    ensures i <= |req|
    ensures forall j :: 0 <= j < i ==> req[j].name != name
    ensures i < |req| ==> req[i].name == name
  {
    if |req| == 0 then 0
    else if req[0].name == name then 0
    else 1 + IndexOf(req[1..], name)
  }

  function Lookup(req: Request, name: string): (r: Option<Parameter>)
    ensures r.None? <==> forall i :: 0 <= i < |req| ==> req[i].name != name
    ensures r.Some? ==> exists i :: 0 <= i < |req| && req[i] == Entry(name, r.value)
    ensures WellFormed(req) ==>
      forall i :: 0 <= i < |req| && req[i].name == name ==> r == Some(req[i].param)
  {
    var i := IndexOf(req, name);
    if i < |req| then Some(req[i].param) else None
  }

  /** Two requests with the same names position by position find every
      name at the same position. */
  lemma {:induction false} SameNamesSameIndex(a: Request, b: Request, m: string)
    requires |a| == |b|
    requires forall i :: 0 <= i < |a| ==> a[i].name == b[i].name
    ensures IndexOf(a, m) == IndexOf(b, m)
    decreases |a|
  {
    if |a| > 0 && a[0].name != m {
      SameNamesSameIndex(a[1..], b[1..], m);
    }
  }

  lemma SameNamesEveryIndex(a: Request, b: Request)
    requires |a| == |b|
    requires forall i :: 0 <= i < |a| ==> a[i].name == b[i].name
    ensures forall m :: IndexOf(a, m) == IndexOf(b, m)
  {
    forall m ensures IndexOf(a, m) == IndexOf(b, m) {
      SameNamesSameIndex(a, b, m);
    }
  }

  /** Appending an entry leaves every name found before where it was. */
  lemma {:induction false} IndexOfAppend(req: Request, e: Entry, m: string)
    ensures IndexOf(req + [e], m) ==
      if IndexOf(req, m) < |req| then IndexOf(req, m)
      else if e.name == m then |req| else |req| + 1
    decreases |req|
  {
    if |req| == 0 {
    } else if req[0].name != m {
      assert (req + [e])[1..] == req[1..] + [e];
      IndexOfAppend(req[1..], e, m);
    }
  }

  /** Every parameter called `name` becomes the single value `value`. */
  function Replace(req: Request, name: string, value: string): (r: Request)
    ensures |r| == |req|
    ensures forall i :: 0 <= i < |req| ==>
      r[i] == if req[i].name == name then Entry(name, Discrete([value])) else req[i]
    ensures forall m :: IndexOf(r, m) == IndexOf(req, m)
  {
    var r := seq(|req|, i requires 0 <= i < |req| =>
      if req[i].name == name then Entry(name, Discrete([value])) else req[i]);
    SameNamesEveryIndex(r, req);
    r
  }

  /** `Request.Set(name, value)`. */
  function Set(req: Request, name: string, value: string): Request
  {
    if IndexOf(req, name) < |req| then Replace(req, name, value)
    else req + [Entry(name, Discrete([value]))]
  }

  /** What the call sites rely on: after `Set`, the parameter called `name`
      is the single discrete value `value`, in the place it had, or appended
      when there was none; every other parameter is as it was; and names stay
      unique. */
  lemma SetSemantics(req: Request, name: string, value: string)
    ensures var r := Set(req, name, value);
      Lookup(r, name) == Some(Discrete([value])) &&
      (forall m :: m != name ==> Lookup(r, m) == Lookup(req, m)) &&
      (Lookup(req, name).None? ==> r == req + [Entry(name, Discrete([value]))]) &&
      (Lookup(req, name).Some? ==> r == Replace(req, name, value)) &&
      (WellFormed(req) ==> WellFormed(r))
  {
    var e := Entry(name, Discrete([value]));
    if IndexOf(req, name) == |req| {
      var r := req + [e];
      IndexOfAppend(req, e, name);
      forall m | m != name
        ensures IndexOf(r, m) == IndexOf(req, m) || IndexOf(req, m) == |req|
      {
        IndexOfAppend(req, e, m);
      }
    }
  }

  /** A second `Set` of the same name wipes out the first. */
  lemma SetOverwrites(req: Request, name: string, a: string, b: string)
    ensures Set(Set(req, name, a), name, b) == Set(req, name, b)
  {
    SetSemantics(req, name, a);
    SetSemantics(Set(req, name, a), name, b);
    SetSemantics(req, name, b);
    if Lookup(req, name).Some? {
      ReplaceTwice(req, name, a, b);
    } else {
      ReplaceAppended(req, name, a, b);
    }
  }

  lemma ReplaceTwice(req: Request, name: string, a: string, b: string)
    ensures Replace(Replace(req, name, a), name, b) == Replace(req, name, b)
  {
    var twice, direct := Replace(Replace(req, name, a), name, b), Replace(req, name, b);
    assert |twice| == |direct|;
    forall i | 0 <= i < |twice| ensures twice[i] == direct[i] {
    }
  }

  lemma ReplaceAppended(req: Request, name: string, a: string, b: string)
    requires Lookup(req, name).None?
    ensures Replace(req + [Entry(name, Discrete([a]))], name, b) == req + [Entry(name, Discrete([b]))]
  {
    var left, right := Replace(req + [Entry(name, Discrete([a]))], name, b), req + [Entry(name, Discrete([b]))];
    assert |left| == |right|;
    forall i | 0 <= i < |left| ensures left[i] == right[i] {
      if i < |req| {
        assert (req + [Entry(name, Discrete([a]))])[i] == req[i];
      }
    }
  }

  lemma ReplaceCommutes(req: Request, n: string, m: string, a: string, b: string)
    requires n != m
    ensures Replace(Replace(req, m, b), n, a) == Replace(Replace(req, n, a), m, b)
  {
    var left := Replace(Replace(req, m, b), n, a);
    var right := Replace(Replace(req, n, a), m, b);
    assert |left| == |right|;
    forall i | 0 <= i < |left| ensures left[i] == right[i] {
    }
  }

  lemma ReplaceAppend(req: Request, e: Entry, n: string, a: string)
    requires e.name != n
    ensures Replace(req + [e], n, a) == Replace(req, n, a) + [e]
  {
    var left := Replace(req + [e], n, a);
    var right := Replace(req, n, a) + [e];
    assert |left| == |right|;
    forall i | 0 <= i < |left| ensures left[i] == right[i] {
      if i < |req| {
        assert (req + [e])[i] == req[i];
      }
    }
  }

  /** `Set` of two different names commutes once one of them is present. */
  lemma SetCommutes(req: Request, n: string, m: string, a: string, b: string)
    requires n != m
    requires Lookup(req, n).Some?
    ensures Set(Set(req, m, b), n, a) == Set(Set(req, n, a), m, b)
  {
    var x := Set(req, m, b);
    var y := Set(req, n, a);
    SetSemantics(req, m, b);
    SetSemantics(req, n, a);
    SetSemantics(x, n, a);
    SetSemantics(y, m, b);
    assert Set(x, n, a) == Replace(x, n, a);
    assert y == Replace(req, n, a);
    if Lookup(req, m).Some? {
      assert x == Replace(req, m, b);
      assert Set(y, m, b) == Replace(y, m, b);
      ReplaceCommutes(req, n, m, a, b);
    } else {
      var e := Entry(m, Discrete([b]));
      assert x == req + [e];
      assert Set(y, m, b) == y + [e];
      ReplaceAppend(req, e, n, a);
    }
  }

  // ---------------------------------------------------------------------
  // The search result a backend returns

  /** The value of an aggregation bucket: a term or a whole number. */
  datatype Value = Str(s: string) | Num(n: int)

  /** `fmt.Sprintf("%v", value)`. */
  function ValueText(v: Value): string
  {
    match v
    case Str(s) => s
    case Num(n) => GoLib.IntText(n)
  }

  datatype BucketStat = BucketStat(value: Value, hitCount: int)

  /** One aggregation: its name and its buckets, in the engine's order. */
  datatype Facet = Facet(key: string, stats: seq<BucketStat>)

  /** `Result.Pagination`, nil for an unpaged search. */
  datatype Paging = Unpaged | Paged(offset: int, pageSize: int)

  datatype SortChoice = SortChoice(name: string, selected: bool, ascending: bool)

  /** `Result.Sorting`, nil for an unsorted search. */
  datatype Sorting = Unsorted | Sorted(param: string, options: seq<SortChoice>)

  /** A hit is an opaque document passed through untouched. */
  type Document = map<string, string>

  /** `reveald.Result`; `duration` is in nanoseconds, like `time.Duration`. */
  datatype SearchResult = SearchResult(
    duration: int,
    totalHitCount: int,
    hits: seq<Document>,
    aggregations: seq<Facet>,
    pagination: Paging,
    sorting: Sorting,
    request: Request)

  /** Aggregations arrive in a map, so no name appears twice. */
  predicate UniqueKeys(aggs: seq<Facet>)
  {
    forall i, j :: 0 <= i < j < |aggs| ==> aggs[i].key != aggs[j].key
  }
}
