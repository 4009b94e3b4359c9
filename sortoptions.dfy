/** `NewSortOptions`: one entry per sort option the backend offers, each with
    a link that selects it. */
module SortOptions {
  import opened Wrappers
  import opened Reveald
  import opened RequestUrl

  /** `SortOption`. */
  datatype SortOption = SortOption(name: string, selected: bool, ascending: bool, query: string)

  /** The request behind the link of the option called `name`: the
      originating request with the sort parameter set to that name. */
  function SortRequest(r: SearchResult, name: string): Request
    requires r.sorting.Sorted?
  {
    Set(r.request, r.sorting.param, name)
  }

  /** The entry promised for the option at position `k`. */
  function OptionEntry(r: SearchResult, k: nat): SortOption
    requires r.sorting.Sorted? && k < |r.sorting.options|
  {
    var v := r.sorting.options[k];
    SortOption(v.name, v.selected, v.ascending, Serialize(SortRequest(r, v.name)))
  }

  /** `NewSortOptions`: nothing for an unsorted search, and nothing (a nil
      slice) when there are no options; otherwise one entry per option, in
      the backend's order, copying its name and flags, whose link selects
      that option alone: every option starts again from the originating
      request, whatever the options before it set. */
  method NewSortOptions(r: SearchResult) returns (options: Option<seq<SortOption>>)
    ensures options.None? <==> r.sorting.Unsorted? || |r.sorting.options| == 0
    ensures options.Some? ==> |options.value| == |r.sorting.options|
    ensures options.Some? ==> forall i :: 0 <= i < |options.value| ==> options.value[i] == OptionEntry(r, i)
  {
    if r.sorting.Unsorted? {
      return None;
    }

    var request := r.request;

    var built: seq<SortOption> := [];
    var i := 0;
    while i < |r.sorting.options|
      invariant 0 <= i <= |r.sorting.options|
      invariant |built| == i
      invariant forall k :: 0 <= k < i ==> built[k] == OptionEntry(r, k)
      invariant i == 0 ==> request == r.request
      invariant i > 0 ==> request == SortRequest(r, r.sorting.options[i - 1].name)
    {
      var v := r.sorting.options[i];
      if i > 0 {
        SetOverwrites(r.request, r.sorting.param, r.sorting.options[i - 1].name, v.name);
      }
      request := Set(request, r.sorting.param, v.name);

      var url := MakeRequestUrl(request);
      OptionStep(r, built, url);
      built := built + [SortOption(v.name, v.selected, v.ascending, url)];
      i := i + 1;
    }

    // Appending to a nil slice nothing leaves it nil.
    if |built| == 0 {
      return None;
    }
    return Some(built);
  }

  /** One more option keeps the entries built so far as promised. */
  lemma OptionStep(r: SearchResult, built: seq<SortOption>, url: string)
    requires r.sorting.Sorted? && |built| < |r.sorting.options|
    requires forall k :: 0 <= k < |built| ==> built[k] == OptionEntry(r, k)
    requires url == Serialize(SortRequest(r, r.sorting.options[|built|].name))
    ensures var v := r.sorting.options[|built|];
      forall k :: 0 <= k <= |built| ==>
        (built + [SortOption(v.name, v.selected, v.ascending, url)])[k] == OptionEntry(r, k)
  {
  }

  /** The link of an option sets the sort parameter to that option's name
      and to nothing else, and leaves every other parameter as the
      originating request has it. */
  lemma SortRequestSelects(r: SearchResult, name: string)
    requires r.sorting.Sorted?
    ensures Lookup(SortRequest(r, name), r.sorting.param) == Some(Discrete([name]))
    ensures forall m :: m != r.sorting.param ==> Lookup(SortRequest(r, name), m) == Lookup(r.request, m)
  {
    SetSemantics(r.request, r.sorting.param, name);
  }

  /** Options with different names link to different requests. */
  lemma SortRequestsDiffer(r: SearchResult, a: string, b: string)
    requires r.sorting.Sorted? && a != b
    ensures SortRequest(r, a) != SortRequest(r, b)
  {
    SortRequestSelects(r, a);
    SortRequestSelects(r, b);
  }
}
