/** `NewPagination`: the page count, the current page and the links to the
    previous and the next page of a paginated result. */
module Pages {
  import opened Wrappers
  import opened GoLib
  import opened Reveald
  import opened RequestUrl

  /** `Pagination`; `nil` links are `None`. */
  datatype Pagination = Pagination(count: int, current: int, previous: Option<string>, next: Option<string>)

  /** The request parameters a page link overrides. */
  const OffsetParam := "offset"
  const SizeParam := "size"

  lemma FloorBounds(x: int, y: int)
    ensures x >= 0 && y > 0 ==> (x / y) * y <= x < (x / y + 1) * y
    ensures x >= y > 0 ==> x / y >= 1
  {
    if x >= 0 && y > 0 {
      assert x == (x / y) * y + x % y;
      if x >= y {
        DivAtLeastOneConverse(x, y);
      }
    }
  }

  lemma DivAtLeastOneConverse(x: nat, y: nat)
    requires x >= y > 0
    ensures x / y >= 1
  {
  }

  /** `count`: the number of full pages the hits fill, raised to one. */
  function PageCount(total: int, size: int): (c: int)
    requires size != 0
    ensures c >= 1
    ensures size > 0 && total < size ==> c == 1
  {
    var count := GoDiv(total, size);
    if count < 1 then 1 else count
  }

  /** With a positive page size, `count` is the number of full pages. */
  lemma PageCountFullPages(total: int, size: int)
    requires size > 0 && total >= size
    ensures var c := PageCount(total, size); c * size <= total < (c + 1) * size
  {
    FloorBounds(total, size);
  }

  lemma NegativeQuotient(offset: int, size: int)
    requires size < 0 && offset >= size && GoDiv(offset, size) >= 1
    ensures offset == size
  {
    DivAtLeastOne(Abs(offset), Abs(size));
  }

  /** `current`: the page the offset falls on, counting from one. The gate
      `offset >= size` makes the previous page's offset non-negative, for
      every page size, negative ones included. */
  function CurrentPage(offset: int, size: int): (c: int)
    requires size != 0
    ensures size > 0 ==> c >= 1
    ensures c > 1 ==> offset >= size && offset - size >= 0
  {
    FloorBounds(offset, size);
    if offset >= size then
      var q := GoDiv(offset, size);
      assert size < 0 && q >= 1 ==> offset == size by {
        if size < 0 && q >= 1 {
          NegativeQuotient(offset, size);
        }
      }
      q + 1
    else
      1
  }

  /** With a positive page size and an offset that is not negative, page
      `current` is the one holding the hit at `offset`. */
  lemma CurrentPageHoldsOffset(offset: int, size: int)
    requires size > 0 && offset >= 0
    ensures var c := CurrentPage(offset, size); (c - 1) * size <= offset < c * size
  {
    FloorBounds(offset, size);
  }

  /** The request behind a page link: the originating request with `offset`
      and `size` overridden, every other parameter as it was. */
  function PageRequest(req: Request, offset: int, size: int): (r: Request)
    ensures Lookup(r, OffsetParam) == Some(Discrete([IntText(offset)]))
    ensures Lookup(r, SizeParam) == Some(Discrete([IntText(size)]))
    ensures forall m :: m != OffsetParam && m != SizeParam ==> Lookup(r, m) == Lookup(req, m)
    ensures WellFormed(req) ==> WellFormed(r)
  {
    assert OffsetParam != SizeParam by { assert OffsetParam[0] != SizeParam[0]; }
    SetSemantics(req, OffsetParam, IntText(offset));
    SetSemantics(Set(req, OffsetParam, IntText(offset)), SizeParam, IntText(size));
    Set(Set(req, OffsetParam, IntText(offset)), SizeParam, IntText(size))
  }

  /** Setting `offset` and `size` again on a request that has had them set
      leaves no trace of the first pair of values. Stated on the texts, so
      that callers pass the already formatted numbers. */
  lemma PageRequestAgain(req: Request, a: string, b: string, size: string)
    ensures Set(Set(Set(Set(req, OffsetParam, a), SizeParam, size), OffsetParam, b), SizeParam, size)
      == Set(Set(req, OffsetParam, b), SizeParam, size)
  {
    assert OffsetParam != SizeParam by { assert OffsetParam[0] != SizeParam[0]; }
    var withA := Set(req, OffsetParam, a);
    var withB := Set(req, OffsetParam, b);
    SetSemantics(req, OffsetParam, a);
    SetCommutes(withA, OffsetParam, SizeParam, b, size);
    SetOverwrites(req, OffsetParam, a, b);
    SetOverwrites(withB, SizeParam, size, size);
  }

  /** `NewPagination`: nothing for an unpaged search or a page size of
      zero; otherwise the page count and the current page, a link to the
      previous page exactly when the current page is not the first, and a
      link to the next page exactly when the current page is before the
      last. Each link is the originating request with `offset` moved back
      or forward by one page and `size` kept. */
  method NewPagination(r: SearchResult) returns (p: Option<Pagination>)
    ensures p.None? <==> r.pagination.Unpaged? || r.pagination.pageSize == 0
    ensures p.Some? ==> p.value.count == PageCount(r.totalHitCount, r.pagination.pageSize)
    ensures p.Some? ==> p.value.current == CurrentPage(r.pagination.offset, r.pagination.pageSize)
    ensures p.Some? ==> (p.value.previous.Some? <==> p.value.current > 1)
    ensures p.Some? ==> (p.value.next.Some? <==> p.value.current < p.value.count)
    ensures p.Some? && p.value.previous.Some? ==>
      p.value.previous.value == Serialize(PageRequest(r.request, r.pagination.offset - r.pagination.pageSize,
        r.pagination.pageSize))
    ensures p.Some? && p.value.next.Some? ==>
      p.value.next.value == Serialize(PageRequest(r.request, r.pagination.offset + r.pagination.pageSize,
        r.pagination.pageSize))
  {
    if r.pagination.Unpaged? || r.pagination.pageSize == 0 {
      return None;
    }
    var count := PageCount(r.totalHitCount, r.pagination.pageSize);
    var current := CurrentPage(r.pagination.offset, r.pagination.pageSize);

    var previous: Option<string> := None;
    var next: Option<string> := None;

    var request := r.request;

    if current > 1 {
      request := Set(request, OffsetParam, IntText(r.pagination.offset - r.pagination.pageSize));
      request := Set(request, SizeParam, IntText(r.pagination.pageSize));

      var url := MakeRequestUrl(request);
      previous := Some(url);
    }
    if current < count {
      request := Set(request, OffsetParam, IntText(r.pagination.offset + r.pagination.pageSize));
      request := Set(request, SizeParam, IntText(r.pagination.pageSize));
      if current > 1 {
        PageRequestAgain(r.request, IntText(r.pagination.offset - r.pagination.pageSize),
          IntText(r.pagination.offset + r.pagination.pageSize), IntText(r.pagination.pageSize));
      }

      var url := MakeRequestUrl(request);
      next := Some(url);
    }

    p := Some(Pagination(count, current, previous, next));
  }

  // ---------------------------------------------------------------------
  // Properties of the page arithmetic

  /** For a page size and offset that are not negative, the next link starts
      at a hit that exists, and the previous link at the start of the page
      before or at offset zero. */
  lemma LinkedPagesExist(total: int, offset: int, size: int)
    requires size > 0 && offset >= 0
    ensures CurrentPage(offset, size) < PageCount(total, size) ==> offset + size < total
    ensures CurrentPage(offset, size) > 1 ==> 0 <= offset - size < offset
  {
    var c, n := CurrentPage(offset, size), PageCount(total, size);
    if c < n {
      assert total >= size;
      CurrentPageHoldsOffset(offset, size);
      PageCountFullPages(total, size);
      NextPageStart(offset, size, c, n, total);
    }
  }

  /** The arithmetic behind the next link: the page after page `c` begins
      within the first `n` full pages. */
  lemma NextPageStart(offset: int, size: int, c: int, n: int, total: int)
    requires size > 0 && offset < c * size && c < n && n * size <= total
    ensures offset + size < total
  {
    assert (c + 1) * size == c * size + size;
    assert (c + 1) * size <= n * size;
  }

  /** Five hits and a page size of ten still make one page. */
  lemma CountFloorExample()
    ensures PageCount(5, 10) == 1
  {
  }

  /** Offset 10, page size 10 and 25 hits: the second of two pages, since
      `count` counts only full pages; so a previous link leads to offset 0
      and there is no next link, although hits 21 to 25 lie beyond the
      second page. */
  lemma PartialLastPageExample()
    ensures CurrentPage(10, 10) == 2 && PageCount(25, 10) == 2
    ensures Serialize(PageRequest([], 0, 10)) == "offset=0&size=10"
  {
    assert GoDiv(10, 10) == 1;
    assert GoDiv(25, 10) == 2;
    FirstPageRequest();
    FirstPageText();
  }

  lemma FirstPageRequest()
    ensures PageRequest([], 0, 10) == [Entry(OffsetParam, Discrete(["0"])), Entry(SizeParam, Discrete(["10"]))]
  {
    assert Set([], OffsetParam, IntText(0)) == [Entry(OffsetParam, Discrete(["0"]))];
    assert IntText(10) == "10" by {
      assert NatText(10) == NatText(1) + [DigitChar(0)];
    }
  }

  lemma FirstPageText()
    ensures Serialize([Entry(OffsetParam, Discrete(["0"])), Entry(SizeParam, Discrete(["10"]))])
      == "offset=0&size=10"
  {
    SerializeTwo(OffsetParam, "0", SizeParam, "10");
  }
}
