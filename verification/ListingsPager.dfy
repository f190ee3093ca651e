/** The client's page state (listings_controller.dart) over the server's pages. */
module ListingsPager {
  import opened Options
  import opened Sorting
  import opened Patterns
  import opened Scoring
  import opened Filters
  import opened ListingQuery

  datatype ListingsState = ListingsState(
    isLoading: bool, errorMessage: Option<string>, total: int, page: int, pageSize: int,
    sort: ListingSort, filters: Filter, items: seq<Scored>)
  {
    predicate CanPrev() { page > 1 }
    predicate CanNext() { (page - 1) * pageSize + |items| < total }
  }

  const NO_FILTER := Filter(None, None, None, None, None, None, None, None, None, None)

  function InitialState(): ListingsState {
    ListingsState(true, None, 0, 1, 20, LastSeenDesc, NO_FILTER, [])
  }

  /** fetchListings: a page, or what the exception says. */
  datatype Fetched = Fetched(listings: ListingsPage) | Failed(message: string)

  /** Asked for a page, a page size, a sort and filters. */
  type Repository = (int, int, ListingSort, Filter) -> Fetched

  function OrElse<T>(value: Option<T>, default: T): T {
    if value.Some? then value.value else default
  }

  /** The state while a load waits for its answer: what was asked for, over the old rows. */
  function Asked(s: ListingsState, page: int, filters: Filter, sort: ListingSort): ListingsState {
    s.(isLoading := true, errorMessage := None, page := page, filters := filters, sort := sort)
  }

  /** The state after an answer has come to a load for these filters and this sort. */
  function Answered(s: ListingsState, answer: Fetched, filters: Filter, sort: ListingSort): ListingsState {
    match answer
    case Fetched(l) => ListingsState(false, None, l.total, l.page, l.pageSize, sort, filters, l.items)
    case Failed(m) => Refused(s, m)
  }

  /** A message over a state that else stays. */
  function Refused(s: ListingsState, message: string): ListingsState {
    s.(isLoading := false, errorMessage := Some(message))
  }

  /** A load whose answer comes before another load begins. */
  function Loaded(s: ListingsState, answer: Fetched, page: int, filters: Filter, sort: ListingSort): ListingsState {
    Answered(Asked(s, page, filters, sort), answer, filters, sort)
  }

  function LoadOf(s: ListingsState, repository: Repository, page: int, filters: Filter, sort: ListingSort): ListingsState {
    Loaded(s, repository(page, s.pageSize, sort, filters), page, filters, sort)
  }

  function NextOf(s: ListingsState, repository: Repository): ListingsState {
    if s.CanNext() then LoadOf(s, repository, s.page + 1, s.filters, s.sort) else s
  }

  function PrevOf(s: ListingsState, repository: Repository): ListingsState {
    if s.CanPrev() then LoadOf(s, repository, s.page - 1, s.filters, s.sort) else s
  }

  /* ---- The filter form ---- */

  /** What the platform does with a text: trim, double.tryParse and int.tryParse. */
  datatype Reading = Reading(trim: string -> string, parseDouble: string -> Option<real>, parseInt: string -> Option<int>)
  {
    predicate HasText(value: Option<string>) {
      value.Some? && trim(value.value) != ""
    }

    /** A text that is there and does not parse. */
    predicate IsUnreadable<T>(value: Option<string>, parse: string -> Option<T>) {
      HasText(value) && parse(trim(value.value)).None?
    }

    /** _parseDouble and _parseInt. */
    function Parsed<T>(value: Option<string>, parse: string -> Option<T>): (number: Option<T>)
      ensures IsUnreadable(value, parse) <==> number.None? && HasText(value)
    {
      if HasText(value) then parse(trim(value.value)) else None
    }

    function NormalizedText(value: Option<string>): Option<string> {
      if HasText(value) then Some(trim(value.value)) else None
    }

    /** The filters of a form that can be read. */
    function FormFilters(q: Option<string>, minPrice: Option<string>, maxPrice: Option<string>, minBeds: Option<string>,
                         propertyType: Option<string>): Filter
    {
      NO_FILTER.(query := NormalizedText(q), minPrice := Parsed(minPrice, parseDouble), maxPrice := Parsed(maxPrice, parseDouble),
        minBeds := Parsed(minBeds, parseInt), propertyType := NormalizedText(propertyType))
    }
  }

  class ListingsController {
    const repository: Repository
    var state: ListingsState

    constructor (repository: Repository)
      ensures this.repository == repository
      ensures state == LoadOf(InitialState(), repository, 1, NO_FILTER, LastSeenDesc)
    {
      this.repository := repository;
      state := InitialState();
      new;
      Load(None, None, None);
    }

    /** load up to its await: what is asked of the repository. */
    method Ask(page: Option<int>, filters: Option<Filter>, sort: Option<ListingSort>)
      returns (nextPage: int, pageSize: int, nextSort: ListingSort, nextFilters: Filter)
      modifies this
      ensures nextPage == OrElse(page, old(state).page) && nextFilters == OrElse(filters, old(state).filters)
      ensures nextSort == OrElse(sort, old(state).sort) && pageSize == old(state).pageSize
      ensures state == Asked(old(state), nextPage, nextFilters, nextSort)
    {
      nextPage := OrElse(page, state.page);
      nextFilters := OrElse(filters, state.filters);
      nextSort := OrElse(sort, state.sort);
      state := state.(isLoading := true, errorMessage := None, page := nextPage, sort := nextSort, filters := nextFilters);
      pageSize := state.pageSize;
    }

    /** load from its await on. */
    method Show(answer: Fetched, nextFilters: Filter, nextSort: ListingSort)
      modifies this
      ensures state == Answered(old(state), answer, nextFilters, nextSort)
    {
      match answer
      case Fetched(data) =>
        state := state.(isLoading := false, errorMessage := None, total := data.total, items := data.items,
          page := data.page, pageSize := data.pageSize, sort := nextSort, filters := nextFilters);
      case Failed(message) =>
        state := state.(isLoading := false, errorMessage := Some(message));
    }

    method Load(page: Option<int>, filters: Option<Filter>, sort: Option<ListingSort>)
      modifies this
      ensures state == LoadOf(old(state), repository, OrElse(page, old(state).page), OrElse(filters, old(state).filters),
                              OrElse(sort, old(state).sort))
    {
      var nextPage, pageSize, nextSort, nextFilters := Ask(page, filters, sort);
      Show(repository(nextPage, pageSize, nextSort, nextFilters), nextFilters, nextSort);
    }

    /** The first input that cannot be read is reported over a state that else stays; a form that
        can be read loads page 1. */
    method ApplyFilters(reading: Reading, q: Option<string>, minPrice: Option<string>, maxPrice: Option<string>,
                        minBeds: Option<string>, propertyType: Option<string>, sort: ListingSort)
      modifies this
      ensures if reading.IsUnreadable(minPrice, reading.parseDouble) then state == Refused(old(state), "Invalid min price")
              else if reading.IsUnreadable(maxPrice, reading.parseDouble) then state == Refused(old(state), "Invalid max price")
              else if reading.IsUnreadable(minBeds, reading.parseInt) then state == Refused(old(state), "Invalid min beds")
              else state == LoadOf(old(state), repository, 1,
                                   reading.FormFilters(q, minPrice, maxPrice, minBeds, propertyType), sort)
    {
      var parsedMinPrice := reading.Parsed(minPrice, reading.parseDouble);
      if parsedMinPrice.None? && reading.HasText(minPrice) {
        state := state.(isLoading := false, errorMessage := Some("Invalid min price"));
        return;
      }
      var parsedMaxPrice := reading.Parsed(maxPrice, reading.parseDouble);
      if parsedMaxPrice.None? && reading.HasText(maxPrice) {
        state := state.(isLoading := false, errorMessage := Some("Invalid max price"));
        return;
      }
      var parsedMinBeds := reading.Parsed(minBeds, reading.parseInt);
      if parsedMinBeds.None? && reading.HasText(minBeds) {
        state := state.(isLoading := false, errorMessage := Some("Invalid min beds"));
        return;
      }
      var filters := NO_FILTER.(query := reading.NormalizedText(q), minPrice := parsedMinPrice, maxPrice := parsedMaxPrice,
        minBeds := parsedMinBeds, propertyType := reading.NormalizedText(propertyType));
      Load(Some(1), Some(filters), Some(sort));
    }

    method NextPage()
      modifies this
      ensures state == NextOf(old(state), repository)
    {
      if !state.CanNext() { return; }
      Load(Some(state.page + 1), None, None);
    }

    method PrevPage()
      modifies this
      ensures state == PrevOf(old(state), repository)
    {
      if !state.CanPrev() { return; }
      Load(Some(state.page - 1), None, None);
    }
  }

  /** A form that can be read stands for a bound for each input with text in it, and for no other:
      a listing passes exactly when it meets the numbers and contains the texts. */
  lemma {:induction false} FormMeans(reading: Reading, q: Option<string>, minPrice: Option<string>, maxPrice: Option<string>,
                                     minBeds: Option<string>, propertyType: Option<string>, l: Listing, fold: Folding)
    requires !reading.IsUnreadable(minPrice, reading.parseDouble) && !reading.IsUnreadable(maxPrice, reading.parseDouble)
    requires !reading.IsUnreadable(minBeds, reading.parseInt)
    ensures Passes(reading.FormFilters(q, minPrice, maxPrice, minBeds, propertyType), l, fold)
            <==>
            && (reading.HasText(minPrice) ==>
                  l.currentPrice.Some? && l.currentPrice.value >= reading.parseDouble(reading.trim(minPrice.value)).value)
            && (reading.HasText(maxPrice) ==>
                  l.currentPrice.Some? && l.currentPrice.value <= reading.parseDouble(reading.trim(maxPrice.value)).value)
            && (reading.HasText(minBeds) ==>
                  l.beds.Some? && l.beds.value >= reading.parseInt(reading.trim(minBeds.value)).value)
            && (reading.HasText(propertyType) ==> l.propertyType == reading.trim(propertyType.value))
            && (reading.HasText(q) ==> ILike(l.address, "%" + reading.trim(q.value) + "%", fold))
  {
  }

  /* ---- Over an unchanged table ---- */

  function ParamOf(n: int): Param { if InWord(n) then Given(n) else Malformed }

  /** The server over one table. */
  function Server(table: seq<Listing>, fold: Folding): Repository {
    (page, pageSize, sort, filters) =>
      match Answer(table, filters, sort, PagingOf(ParamOf(page), ParamOf(pageSize), Absent, Absent), fold)
      case None => Failed("")
      case Some(listings) => Fetched(listings)
  }

  /** max(1, ceil(total / size)). */
  function PageCount(total: nat, size: nat): nat
    requires size > 0
  {
    if total == 0 then 1 else (total + size - 1) / size
  }

  function Min(a: int, b: int): int { if a < b then a else b }

  /** s shows its page of the rows. */
  predicate Shows(s: ListingsState, rows: seq<Scored>) {
    && !s.isLoading && s.errorMessage.None?
    && 1 <= s.pageSize <= MAX_PAGE_SIZE && s.total == |rows|
    && 1 <= s.page <= PageCount(|rows|, s.pageSize)
    && s.items == PageOf(rows, s.page, s.pageSize)
  }

  function PageOf(rows: seq<Scored>, page: int, size: nat): seq<Scored>
    requires page >= 1
  {
    ProductIsNatural(page - 1, size);
    Slice(rows, size, (page - 1) * size)
  }

  /** The repository cuts its pages of `size` from the rows. */
  ghost predicate Serves(repository: Repository, f: Filter, sort: ListingSort, size: int, rows: seq<Scored>) {
    && 1 <= size <= MAX_PAGE_SIZE
    && forall page :: 1 <= page <= PageCount(|rows|, size) ==>
         repository(page, size, sort, f) == Fetched(ListingsPage(PageOf(rows, page, size), page, size, |rows|))
  }

  /* ---- Page arithmetic ---- */

  lemma {:induction false} PagesCover(total: nat, size: nat, page: int)
    requires size > 0 && page >= 1
    ensures page <= PageCount(total, size) <==> page == 1 || (page - 1) * size < total
    ensures page * size == (page - 1) * size + size && (page - 1) * size >= 0
  {
    ProductIsNatural(page - 1, size);
    assert page * size == (page - 1) * size + size;
    AtMostQuotient(page, total + size - 1, size);
    AtMostQuotient(1, total + size - 1, size);
  }

  lemma {:induction false} AtLeastOnce(a: int, b: int)
    requires a >= 0 && b >= 1
    ensures a <= a * b
  {
    ProductIsNatural(a, b - 1);
    assert a * b == a * (b - 1) + a;
  }

  // What is in front of page + 1, from what is in front of page.
  lemma {:induction false} PageSteps(rows: seq<Scored>, size: nat, page: int)
    requires size > 0 && 1 <= page <= PageCount(|rows|, size)
    ensures page * size >= 0 && (page - 1) * size >= 0
    ensures page < PageCount(|rows|, size) <==> page * size < |rows|
    ensures page < PageCount(|rows|, size) ==> |PageOf(rows, page, size)| == size
    ensures (page - 1) * size + |PageOf(rows, page, size)| == Min(page * size, |rows|)
    ensures rows[..Min((page - 1) * size, |rows|)] + PageOf(rows, page, size) == rows[..Min(page * size, |rows|)]
  {
    PagesCover(|rows|, size, page);
    PagesCover(|rows|, size, page + 1);
    SliceSteps(rows, size, (page - 1) * size);
  }

  lemma {:induction false} SliceSteps(rows: seq<Scored>, limit: nat, offset: nat)
    requires offset <= |rows|
    ensures offset + |Slice(rows, limit, offset)| == Min(offset + limit, |rows|)
    ensures rows[..offset] + Slice(rows, limit, offset) == rows[..Min(offset + limit, |rows|)]
  {
  }

  /* ---- Turning pages ---- */

  /** A page can be followed by another exactly when it is not the last. */
  lemma {:induction false} NextStopsAtTheEnd(s: ListingsState, rows: seq<Scored>)
    requires Shows(s, rows)
    ensures s.CanNext() <==> s.page < PageCount(|rows|, s.pageSize)
  {
    PageSteps(rows, s.pageSize, s.page);
  }

  // A load of a page there is.
  lemma {:induction false} LoadShows(s: ListingsState, repository: Repository, filters: Filter, sort: ListingSort,
                                     rows: seq<Scored>, page: int)
    requires Serves(repository, filters, sort, s.pageSize, rows) && 1 <= page <= PageCount(|rows|, s.pageSize)
    ensures LoadOf(s, repository, page, filters, sort)
            == ListingsState(false, None, |rows|, page, s.pageSize, sort, filters, PageOf(rows, page, s.pageSize))
  {
  }

  /** Next goes on by one page, and previous comes back to the very same state. */
  lemma {:induction false} PrevUndoesNext(s: ListingsState, repository: Repository, rows: seq<Scored>)
    requires Serves(repository, s.filters, s.sort, s.pageSize, rows) && Shows(s, rows)
    ensures var next := NextOf(s, repository);
            && Shows(next, rows) && next.filters == s.filters && next.sort == s.sort && next.pageSize == s.pageSize
            && next.page == (if s.CanNext() then s.page + 1 else s.page)
            && (s.CanNext() ==> PrevOf(next, repository) == s)
  {
    NextStopsAtTheEnd(s, rows);
    if s.CanNext() {
      LoadShows(s, repository, s.filters, s.sort, rows, s.page + 1);
      LoadShows(NextOf(s, repository), repository, s.filters, s.sort, rows, s.page);
    }
  }

  /** After a failed next, the number of the new page stands over the old rows. Loading again shows
      the new page and previous the old one; another next, which is refused exactly when the new
      page is the last, leaves the new page out. */
  lemma {:induction false} FailedNextIsPassedOver(s: ListingsState, repository: Repository, rows: seq<Scored>, message: string)
    requires Serves(repository, s.filters, s.sort, s.pageSize, rows) && Shows(s, rows) && s.CanNext()
    ensures var failed := Loaded(s, Failed(message), s.page + 1, s.filters, s.sort);
            && failed.page == s.page + 1 && failed.items == PageOf(rows, s.page, s.pageSize)
            && LoadOf(failed, repository, failed.page, s.filters, s.sort).items == PageOf(rows, s.page + 1, s.pageSize)
            && PrevOf(failed, repository) == s
            && (failed.CanNext() <==> s.page + 1 < PageCount(|rows|, s.pageSize))
            && (failed.CanNext() ==> NextOf(failed, repository).page == s.page + 2
                                     && NextOf(failed, repository).items == PageOf(rows, s.page + 2, s.pageSize))
  {
    var failed := Loaded(s, Failed(message), s.page + 1, s.filters, s.sort);
    NextStopsAtTheEnd(s, rows);
    PageSteps(rows, s.pageSize, s.page);
    PageSteps(rows, s.pageSize, s.page + 1);
    LoadShows(failed, repository, s.filters, s.sort, rows, s.page + 1);
    LoadShows(failed, repository, s.filters, s.sort, rows, s.page);
    PagesCover(|rows|, s.pageSize, s.page + 1);
    if failed.CanNext() {
      LoadShows(failed, repository, s.filters, s.sort, rows, s.page + 2);
    }
  }

  /** Two loads under way at once, the second asked for while the first one waits. If both are
      answered with pages, the answer that comes last is shown, with the filters and sort of its own
      load, whichever load was asked for last. */
  lemma {:induction false} LastAnswerIsShown(
      s: ListingsState, page: int, filters: Filter, sort: ListingSort, answer: ListingsPage,
      page': int, filters': Filter, sort': ListingSort, answer': ListingsPage)
    ensures var both := Asked(Asked(s, page, filters, sort), page', filters', sort');
            && Answered(Answered(both, Fetched(answer), filters, sort), Fetched(answer'), filters', sort')
               == Loaded(s, Fetched(answer'), page', filters', sort')
            && Answered(Answered(both, Fetched(answer'), filters', sort'), Fetched(answer), filters, sort)
               == Loaded(s, Fetched(answer), page, filters, sort)
  {
  }

  /* ---- The server ---- */

  lemma {:induction false} MatchingIsNoLonger(table: seq<Listing>, f: Filter, fold: Folding)
    ensures |Matching(table, f, fold)| <= |table|
  {
    if table != [] {
      MatchingIsNoLonger(table[1..], f, fold);
    }
  }

  lemma {:induction false} PagingOfPage(page: int, size: int)
    requires page >= 1 && 1 <= size <= MAX_PAGE_SIZE && 0 <= (page - 1) * size < MAX_WORD
    ensures PagingOf(ParamOf(page), ParamOf(size), Absent, Absent) == Ok(Paging(page, size, (page - 1) * size))
  {
    AtLeastOnce(page - 1, size);
  }

  /** The server's pages are cut from the matching rows in order. */
  lemma {:induction false} ServerServes(table: seq<Listing>, fold: Folding, f: Filter, sort: ListingSort, size: int)
    requires IsTable(table) && |table| <= MAX_WORD && 1 <= size <= MAX_PAGE_SIZE
    ensures Serves(Server(table, fold), f, sort, size, Browse(table, f, sort, fold))
  {
    var rows := Browse(table, f, sort, fold);
    BrowseShowsMatches(table, f, sort, fold);
    MatchingIsNoLonger(table, f, fold);
    forall page | 1 <= page <= PageCount(|rows|, size)
      ensures Server(table, fold)(page, size, sort, f)
              == Fetched(ListingsPage(PageOf(rows, page, size), page, size, |rows|))
    {
      ServerPage(table, fold, f, sort, size, page);
    }
  }

  lemma {:induction false} ServerPage(table: seq<Listing>, fold: Folding, f: Filter, sort: ListingSort, size: int, page: int)
    requires 1 <= size <= MAX_PAGE_SIZE && |Browse(table, f, sort, fold)| <= MAX_WORD
    requires 1 <= page <= PageCount(|Browse(table, f, sort, fold)|, size)
    ensures var rows := Browse(table, f, sort, fold);
            Server(table, fold)(page, size, sort, f) == Fetched(ListingsPage(PageOf(rows, page, size), page, size, |rows|))
  {
    PagesCover(|Browse(table, f, sort, fold)|, size, page);
    PagingOfPage(page, size);
  }

  /** Whatever the state was, new filters and a new sort show the first page of what they stand for. */
  lemma {:induction false} FilteredLoadShows(s: ListingsState, table: seq<Listing>, fold: Folding, f: Filter, sort: ListingSort)
    requires IsTable(table) && |table| <= MAX_WORD && 1 <= s.pageSize <= MAX_PAGE_SIZE
    ensures var loaded, rows := LoadOf(s, Server(table, fold), 1, f, sort), Browse(table, f, sort, fold);
            && Shows(loaded, rows) && loaded.page == 1 && loaded.pageSize == s.pageSize
            && loaded.filters == f && loaded.sort == sort
            && loaded.items == rows[..Min(s.pageSize, |rows|)]
  {
    var rows := Browse(table, f, sort, fold);
    ServerServes(table, fold, f, sort, s.pageSize);
    PagesCover(|rows|, s.pageSize, 1);
    LoadShows(s, Server(table, fold), f, sort, rows, 1);
  }

  lemma {:induction false} AllMatch(table: seq<Listing>, fold: Folding)
    ensures Matching(table, NO_FILTER, fold) == table
  {
    if table != [] {
      AllMatch(table[1..], fold);
      assert table == [table[0]] + table[1..];
    }
  }

  /** A new controller asks for 20 of all listings. */
  lemma {:induction false} FirstLoadShows(table: seq<Listing>, fold: Folding)
    requires IsTable(table) && |table| <= MAX_WORD
    ensures var loaded := LoadOf(InitialState(), Server(table, fold), 1, NO_FILTER, LastSeenDesc);
            && loaded.total == |table| && |loaded.items| == Min(20, |table|)
            && Shows(loaded, Browse(table, NO_FILTER, LastSeenDesc, fold))
            && IsSortedBy(LastSeenDesc, loaded.items)
  {
    var rows := Browse(table, NO_FILTER, LastSeenDesc, fold);
    FilteredLoadShows(InitialState(), table, fold, NO_FILTER, LastSeenDesc);
    AllMatch(table, fold);
    BrowseShowsMatches(table, NO_FILTER, LastSeenDesc, fold);
    BrowseIsSorted(table, NO_FILTER, LastSeenDesc, fold);
    assert forall i :: 0 <= i < Min(20, |rows|) ==> rows[..Min(20, |rows|)][i] == rows[i];
  }

  /** Turning the pages from the first until there is no next one shows all rows once, in order. */
  method ReadAll(c: ListingsController, ghost rows: seq<Scored>) returns (shown: seq<Scored>, pages: nat)
    requires Serves(c.repository, c.state.filters, c.state.sort, c.state.pageSize, rows)
    modifies c
    ensures shown == rows && pages == PageCount(|rows|, old(c.state).pageSize)
  {
    ghost var before := c.state;
    PagesCover(|rows|, before.pageSize, 1);
    LoadShows(before, c.repository, before.filters, before.sort, rows, 1);
    c.Load(Some(1), None, None);
    PageSteps(rows, before.pageSize, 1);
    shown, pages := c.state.items, 1;
    while c.state.CanNext()
      invariant Shows(c.state, rows) && pages == c.state.page && pages * before.pageSize >= 0
      invariant c.state.filters == before.filters && c.state.sort == before.sort && c.state.pageSize == before.pageSize
      invariant shown == rows[..Min(pages * before.pageSize, |rows|)]
      decreases PageCount(|rows|, before.pageSize) - pages
    {
      NextStopsAtTheEnd(c.state, rows);
      PrevUndoesNext(c.state, c.repository, rows);
      c.NextPage();
      pages := pages + 1;
      PageSteps(rows, before.pageSize, pages);
      shown := shown + c.state.items;
    }
    NextStopsAtTheEnd(c.state, rows);
    PageSteps(rows, before.pageSize, pages);
  }

  /** Over the server's table: every listing that passes the filters is shown exactly once, and
      nothing else is. */
  method ReadMatches(c: ListingsController, table: seq<Listing>, fold: Folding) returns (shown: seq<Scored>, pages: nat)
    requires IsTable(table) && |table| <= MAX_WORD
    requires c.repository == Server(table, fold) && 1 <= c.state.pageSize <= MAX_PAGE_SIZE
    modifies c
    ensures shown == Browse(table, old(c.state).filters, old(c.state).sort, fold)
    ensures Distinct(shown, ScoredKey) && Sorted(shown, Before(old(c.state).sort))
    ensures forall l :: (l in table && Passes(old(c.state).filters, l, fold)) <==> exists s :: s in shown && s.listing == l
    ensures pages == PageCount(|shown|, old(c.state).pageSize)
  {
    ServerServes(table, fold, c.state.filters, c.state.sort, c.state.pageSize);
    BrowseShowsMatches(table, c.state.filters, c.state.sort, fold);
    shown, pages := ReadAll(c, Browse(table, c.state.filters, c.state.sort, fold));
  }
}
