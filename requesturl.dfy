/** `makeRequestURL`: a request written out as a query string, one
    `key=value` pair per range bound that is set and per discrete value,
    joined with `&`; and the reading that a client applies to such a
    string, which gives the pairs back. */
module RequestUrl {
  import opened Wrappers
  import opened GoLib
  import opened Reveald

  /** The suffixes `reveald` gives the two bounds of a range parameter. */
  const RangeMinName := "min"
  const RangeMaxName := "max"

  datatype Pair = Pair(key: string, value: string)

  function MinKey(name: string): string { name + "." + RangeMinName }
  function MaxKey(name: string): string { name + "." + RangeMaxName }

  /** The pairs of a discrete parameter. */
  function ValuePairs(name: string, values: seq<string>): seq<Pair>
  {
    if |values| == 0 then []
    else ValuePairs(name, values[..|values| - 1]) + [Pair(name, values[|values| - 1])]
  }

  /** A pair per bound that is set, the lower bound first. */
  function RangePairs(name: string, min: Option<int>, max: Option<int>): seq<Pair>
  {
    (if min.Some? then [Pair(MinKey(name), IntText(min.value))] else []) +
    (if max.Some? then [Pair(MaxKey(name), IntText(max.value))] else [])
  }

  function ParamPairs(e: Entry): seq<Pair>
  {
    match e.param
    case Range(min, max) => RangePairs(e.name, min, max)
    case Discrete(values) => ValuePairs(e.name, values)
  }

  /** The pairs of a whole request, parameter by parameter. */
  function RequestPairs(req: Request): seq<Pair>
  {
    if |req| == 0 then [] else RequestPairs(req[..|req| - 1]) + ParamPairs(req[|req| - 1])
  }

  function Render(p: Pair): string { p.key + "=" + p.value }

  function RenderAll(ps: seq<Pair>): (parts: seq<string>)
  {
    if |ps| == 0 then [] else RenderAll(ps[..|ps| - 1]) + [Render(ps[|ps| - 1])]
  }

  lemma {:induction false} RenderAllAt(ps: seq<Pair>)
    ensures |RenderAll(ps)| == |ps|
    ensures forall i :: 0 <= i < |ps| ==> RenderAll(ps)[i] == Render(ps[i])
  {
    if |ps| > 0 {
      RenderAllAt(ps[..|ps| - 1]);
    }
  }

  /** The query string of a request. */
  function Serialize(req: Request): (s: string)
    ensures s == "" <==> RequestPairs(req) == []
  {
    var parts := RenderAll(RequestPairs(req));
    RenderAllAt(RequestPairs(req));
    assert |parts| >= 1 ==> |parts[0]| >= 1;
    Join(parts, '&')
  }

  lemma {:induction false} RenderAllAppend(a: seq<Pair>, b: seq<Pair>)
    ensures RenderAll(a + b) == RenderAll(a) + RenderAll(b)
    decreases |b|
  {
    if |b| > 0 {
      var n := |b| - 1;
      assert (a + b)[..|a + b| - 1] == a + b[..n];
      assert (a + b)[|a + b| - 1] == b[n];
      RenderAllAppend(a, b[..n]);
    } else {
      assert a + b == a;
    }
  }

  lemma RenderBound(name: string, suffix: string, text: string)
    ensures name + "." + suffix + "=" + text == Render(Pair(name + "." + suffix, text))
  {
  }

  /** The parts a range parameter adds: a lower, then an upper bound, each
      only when it is set. */
  method AppendRange(parts: seq<string>, k: string, min: Option<int>, max: Option<int>)
    returns (out: seq<string>)
    ensures out == parts + RenderAll(RangePairs(k, min, max))
  {
    out := parts;
    ghost var added: seq<Pair> := [];
    if min.Some? {
      var pair := Pair(MinKey(k), IntText(min.value));
      RenderBound(k, RangeMinName, IntText(min.value));
      out := out + [k + "." + RangeMinName + "=" + IntText(min.value)];
      added := [pair];
    }
    assert out == parts + RenderAll(added);
    if max.Some? {
      var pair := Pair(MaxKey(k), IntText(max.value));
      RenderBound(k, RangeMaxName, IntText(max.value));
      assert (added + [pair])[..|added|] == added;
      out := out + [k + "." + RangeMaxName + "=" + IntText(max.value)];
      added := added + [pair];
    }
    assert added == RangePairs(k, min, max);
  }

  /** The parts a discrete parameter adds: one per value. */
  method AppendValues(parts: seq<string>, k: string, values: seq<string>)
    returns (out: seq<string>)
    ensures out == parts + RenderAll(ValuePairs(k, values))
  {
    out := parts;
    var j := 0;
    while j < |values|
      invariant 0 <= j <= |values|
      invariant out == parts + RenderAll(ValuePairs(k, values[..j]))
    {
      ValuesStep(parts, k, values, j);
      out := out + [k + "=" + values[j]];
      j := j + 1;
    }
    assert values[..j] == values;
  }

  /** One more value adds its `name=value` part at the end. */
  lemma ValuesStep(parts: seq<string>, k: string, values: seq<string>, j: nat)
    requires j < |values|
    ensures parts + RenderAll(ValuePairs(k, values[..j])) + [k + "=" + values[j]]
      == parts + RenderAll(ValuePairs(k, values[..j + 1]))
  {
    assert values[..j + 1][..j] == values[..j];
    var ps := ValuePairs(k, values[..j]);
    assert ValuePairs(k, values[..j + 1]) == ps + [Pair(k, values[j])];
    assert (ps + [Pair(k, values[j])])[..|ps|] == ps;
    assert RenderAll(ps + [Pair(k, values[j])]) == RenderAll(ps) + [k + "=" + values[j]];
  }

  /** The body of `makeRequestURL`'s loop: the parts one parameter adds. */
  method AppendParam(parts: seq<string>, k: string, p: Parameter) returns (out: seq<string>)
    ensures out == parts + RenderAll(ParamPairs(Entry(k, p)))
  {
    if p.Range? {
      out := AppendRange(parts, k, p.min, p.max);
    } else {
      out := AppendValues(parts, k, p.values);
    }
  }

  /** `makeRequestURL`. */
  method MakeRequestUrl(req: Request) returns (url: string)
    ensures url == Serialize(req)
  {
    var parts: seq<string> := [];
    var i := 0;
    while i < |req|
      invariant 0 <= i <= |req|
      invariant parts == RenderAll(RequestPairs(req[..i]))
    {
      assert req[..i + 1][..i] == req[..i];
      assert req[i] == Entry(req[i].name, req[i].param);
      RenderAllAppend(RequestPairs(req[..i]), ParamPairs(req[i]));
      parts := AppendParam(parts, req[i].name, req[i].param);
      i := i + 1;
    }
    assert req[..i] == req;
    url := Join(parts, '&');
  }

  // ---------------------------------------------------------------------
  // What a range and a discrete parameter contribute

  /** A range parameter writes `name.min` exactly when its lower bound is set
      and `name.max` exactly when its upper bound is set, lower bound first,
      each with the bound's decimal text. */
  lemma RangeEntries(name: string, min: Option<int>, max: Option<int>)
    ensures var ps := RangePairs(name, min, max);
      |ps| == (if min.Some? then 1 else 0) + (if max.Some? then 1 else 0) &&
      ((exists i :: 0 <= i < |ps| && ps[i].key == MinKey(name)) <==> min.Some?) &&
      ((exists i :: 0 <= i < |ps| && ps[i].key == MaxKey(name)) <==> max.Some?) &&
      (min.Some? ==> ps[0] == Pair(MinKey(name), IntText(min.value))) &&
      (max.Some? ==> ps[|ps| - 1] == Pair(MaxKey(name), IntText(max.value)))
  {
    var ps := RangePairs(name, min, max);
    assert MinKey(name)[|name| + 2] == 'i';
    assert MaxKey(name)[|name| + 2] == 'a';
    assert MinKey(name) != MaxKey(name);
    if min.Some? {
      assert ps[0].key == MinKey(name);
    }
    if max.Some? {
      assert ps[|ps| - 1].key == MaxKey(name);
    }
    if min.None? {
      assert forall i :: 0 <= i < |ps| ==> ps[i].key == MaxKey(name);
    }
    if max.None? {
      assert forall i :: 0 <= i < |ps| ==> ps[i].key == MinKey(name);
    }
  }

  /** The pairs of a concatenation are the concatenation of the pairs. */
  lemma {:induction false} RequestPairsAppend(a: Request, b: Request)
    ensures RequestPairs(a + b) == RequestPairs(a) + RequestPairs(b)
    decreases |b|
  {
    if |b| == 0 {
      assert a + b == a;
    } else {
      var m := |b| - 1;
      calc {
        RequestPairs(a + b);
        == { RequestPairsLast(a, b); }
        RequestPairs(a + b[..m]) + ParamPairs(b[m]);
        == { RequestPairsAppend(a, b[..m]); }
        (RequestPairs(a) + RequestPairs(b[..m])) + ParamPairs(b[m]);
        ==
        RequestPairs(a) + (RequestPairs(b[..m]) + ParamPairs(b[m]));
      }
    }
  }

  lemma RequestPairsLast(a: Request, b: Request)
    requires |b| > 0
    ensures RequestPairs(a + b) == RequestPairs(a + b[..|b| - 1]) + ParamPairs(b[|b| - 1])
  {
    var ab := a + b;
    assert ab[..|ab| - 1] == a + b[..|b| - 1];
  }

  /** Each parameter's pairs appear in the request's pairs, in request order:
      right after the pairs of the parameters before it and right before
      those of the parameters after it. */
  lemma RequestPairsSplit(front: Request, e: Entry, back: Request)
    ensures RequestPairs(front + [e] + back) ==
      RequestPairs(front) + ParamPairs(e) + RequestPairs(back)
  {
    RequestPairsAppend(front + [e], back);
    assert (front + [e])[..|front|] == front;
  }

  /** A discrete parameter writes exactly one `name=value` pair per value,
      in value order. */
  lemma {:induction false} DiscreteEntries(name: string, values: seq<string>)
    ensures |ValuePairs(name, values)| == |values|
    ensures forall i :: 0 <= i < |values| ==> ValuePairs(name, values)[i] == Pair(name, values[i])
  {
    if |values| > 0 {
      DiscreteEntries(name, values[..|values| - 1]);
    }
  }

  /** A request of one single-valued parameter is `name=value`. */
  lemma SerializeOne(a: string, x: string)
    ensures Serialize([Entry(a, Discrete([x]))]) == a + "=" + x
  {
    var req := [Entry(a, Discrete([x]))];
    assert req[..0] == [];
    assert ValuePairs(a, [x]) == [Pair(a, x)] by {
      assert [x][..0] == [];
    }
    var pairs := [Pair(a, x)];
    assert RequestPairs(req) == pairs;
    assert RenderAll(pairs) == [Render(pairs[0])] by {
      assert pairs[..0] == [];
    }
    assert Join([Render(pairs[0])], '&') == a + "=" + x;
  }

  /** A request of two single-valued parameters is `a=x&b=y`. */
  lemma SerializeTwo(a: string, x: string, b: string, y: string)
    ensures Serialize([Entry(a, Discrete([x])), Entry(b, Discrete([y]))]) == a + "=" + x + "&" + b + "=" + y
  {
    var req := [Entry(a, Discrete([x])), Entry(b, Discrete([y]))];
    TwoPairs(req, a, x, b, y);
    TwoParts(a, x, b, y);
    var parts := [a + "=" + x, b + "=" + y];
    assert Join(parts, '&') == parts[0] + "&" + parts[1] by {
      assert parts[1..] == [parts[1]];
    }
  }

  lemma TwoPairs(req: Request, a: string, x: string, b: string, y: string)
    requires req == [Entry(a, Discrete([x])), Entry(b, Discrete([y]))]
    ensures RequestPairs(req) == [Pair(a, x), Pair(b, y)]
  {
    assert req[..1] == [req[0]];
    assert RequestPairs(req[..1]) == [Pair(a, x)] by {
      assert [req[0]][..0] == [];
      assert ValuePairs(a, [x]) == [Pair(a, x)] by {
        assert [x][..0] == [];
      }
    }
    assert ValuePairs(b, [y]) == [Pair(b, y)] by {
      assert [y][..0] == [];
    }
  }

  lemma TwoParts(a: string, x: string, b: string, y: string)
    ensures RenderAll([Pair(a, x), Pair(b, y)]) == [a + "=" + x, b + "=" + y]
  {
    var pairs := [Pair(a, x), Pair(b, y)];
    assert pairs[..1] == [pairs[0]];
    assert [pairs[0]][..0] == [];
    assert RenderAll([pairs[0]]) == [Render(pairs[0])];
  }

  // ---------------------------------------------------------------------
  // Reading a query string back

  /** `key=value`, cut at the first `=`; a piece without one is a key with an
      empty value. */
  function ParsePair(s: string): Pair
  {
    var i := FirstIndex(s, '=');
    if i < |s| then Pair(s[..i], s[i + 1..]) else Pair(s, "")
  }

  function ParseQuery(s: string): (ps: seq<Pair>)
  {
    if s == "" then []
    else
      var pieces := Split(s, '&');
      seq(|pieces|, i requires 0 <= i < |pieces| => ParsePair(pieces[i]))
  }

  lemma ParseRendered(p: Pair)
    requires '=' !in p.key
    ensures ParsePair(Render(p)) == p
  {
    var s := Render(p);
    assert s[|p.key|] == '=';
    assert forall j :: 0 <= j < |p.key| ==> s[j] != '=' by {
      forall j | 0 <= j < |p.key| ensures s[j] != '=' {
        assert s[j] == p.key[j];
      }
    }
    var i := FirstIndex(s, '=');
    assert i == |p.key|;
    assert s[..i] == p.key && s[i + 1..] == p.value;
  }

  /** A pair survives the trip through a query string: its key holds no `&`
      or `=`, its value no `&`. */
  predicate Transparent(p: Pair)
  {
    '&' !in p.key && '=' !in p.key && '&' !in p.value
  }

  /** A parameter whose name holds no `&` or `=` and whose values hold no
      `&`; nothing is percent-encoded, so only such parameters come back
      intact. */
  predicate EntryEncodable(e: Entry)
  {
    '&' !in e.name && '=' !in e.name &&
    (e.param.Discrete? ==> forall j :: 0 <= j < |e.param.values| ==> '&' !in e.param.values[j])
  }

  predicate Encodable(req: Request)
  {
    forall i :: 0 <= i < |req| ==> EntryEncodable(req[i])
  }

  lemma EntryPairsTransparent(e: Entry)
    requires EntryEncodable(e)
    ensures forall k :: 0 <= k < |ParamPairs(e)| ==> Transparent(ParamPairs(e)[k])
  {
    assert '&' !in "." + RangeMinName && '=' !in "." + RangeMinName;
    assert '&' !in "." + RangeMaxName && '=' !in "." + RangeMaxName;
    assert '&' !in MinKey(e.name) && '=' !in MinKey(e.name);
    assert '&' !in MaxKey(e.name) && '=' !in MaxKey(e.name);
    if e.param.Discrete? {
      DiscreteEntries(e.name, e.param.values);
    }
  }

  lemma {:induction false} EncodablePairs(req: Request)
    requires Encodable(req)
    ensures forall k :: 0 <= k < |RequestPairs(req)| ==> Transparent(RequestPairs(req)[k])
    decreases |req|
  {
    if |req| > 0 {
      var front, e := req[..|req| - 1], req[|req| - 1];
      assert Encodable(front) by {
        forall i | 0 <= i < |front| ensures front[i] == req[i] { }
      }
      EncodablePairs(front);
      EntryPairsTransparent(e);
      var a, b := RequestPairs(front), ParamPairs(e);
      assert RequestPairs(req) == a + b;
      forall k | 0 <= k < |a + b| ensures Transparent((a + b)[k]) {
        if k < |a| {
          assert (a + b)[k] == a[k];
        } else {
          assert (a + b)[k] == b[k - |a|];
        }
      }
    }
  }

  /** Reading the query string of an encodable request yields exactly the
      request's pairs, in order: no pair is lost, added or altered. */
  lemma SerializeRoundTrip(req: Request)
    requires Encodable(req)
    ensures ParseQuery(Serialize(req)) == RequestPairs(req)
  {
    var ps := RequestPairs(req);
    var parts := RenderAll(ps);
    RenderAllAt(ps);
    if ps != [] {
      EncodablePairs(req);
      forall i | 0 <= i < |parts| ensures '&' !in parts[i] {
        assert parts[i] == ps[i].key + "=" + ps[i].value;
      }
      SplitJoin(parts, '&');
      var back := ParseQuery(Serialize(req));
      assert |back| == |ps|;
      forall i | 0 <= i < |ps| ensures back[i] == ps[i] {
        ParseRendered(ps[i]);
      }
    }
  }
}
