/**
 * The shows listing page: the filter and pagination state it keeps, the
 * handlers that change that state, the request it sends to
 * `GET /api/shows`, and what it does with the answer.
 *
 * The network is the parameter `server` of `FetchShows`; the moment a
 * fetch is issued and the moment it settles are the two methods
 * `BeginFetch` and `CompleteFetch`.
 */
module ShowsPage {
  import opened Wrappers
  import opened Decimal
  import opened SearchParams
  import opened Database
  import ShowsRoute

  /** The fixed page size. */
  const ItemsPerPage: nat := 12

  const FailedToFetch: string := "Failed to fetch shows"
  const AnErrorOccurred: string := "An error occurred"

  /** How a fetch settled, as `fetchShows` sees it. */
  datatype FetchResult =
    | Ok(body: Option<seq<ShowWithDetails>>)  // `response.ok`; the body's `data`, if present
    | NotOk                                   // a response whose `ok` is false
    | Failed(message: Option<string>)         // `fetch` or `json()` threw; the Error's message, if it was an Error

  /** A filter value as a query parameter: present only when non-empty. */
  function NonEmpty(s: string): (r: Option<string>)
    ensures r.None? <==> s == ""
    ensures r.Some? ==> r.value == s
  {
    if s == "" then None else Some(s)
  }

  /**
   * The query string `fetchShows` builds: `limit`, `offset`, then `city`,
   * `date` and `comedian` for each one that is non-empty. The route reads it
   * back as page size 12, offset `(page - 1) * 12` and the three filters.
   */
  method BuildRequest(page: int, city: string, date: string, comedian: string) returns (params: Params)
    requires page >= 1
    ensures Get(params, "limit") == Some(NatToString(ItemsPerPage))
    ensures Get(params, "offset") == Some(NatToString((page - 1) * ItemsPerPage))
    ensures Get(params, "city") == NonEmpty(city)
    ensures Get(params, "date") == NonEmpty(date)
    ensures Get(params, "comedian") == NonEmpty(comedian)
    ensures ShowsRoute.ReadParams(params) ==
      ShowsRoute.ShowsParams(Int(ItemsPerPage), Int((page - 1) * ItemsPerPage), NonEmpty(city), NonEmpty(date), NonEmpty(comedian))
  {
    params := [];
    var offset: nat := (page - 1) * ItemsPerPage;
    AppendFacts(params, "limit", NatToString(ItemsPerPage));
    params := Append(params, "limit", NatToString(ItemsPerPage));
    AppendFacts(params, "offset", NatToString(offset));
    params := Append(params, "offset", NatToString(offset));
    if city != "" {
      AppendFacts(params, "city", city);
      params := Append(params, "city", city);
    }
    if date != "" {
      AppendFacts(params, "date", date);
      params := Append(params, "date", date);
    }
    if comedian != "" {
      AppendFacts(params, "comedian", comedian);
      params := Append(params, "comedian", comedian);
    }
    RouteReadsRequest(params, page, city, date, comedian);
  }

  /**
   * The shows route reads the page's request back as the page meant it:
   * page size 12, offset `(page - 1) * 12`, and each non-empty filter.
   */
  lemma RouteReadsRequest(params: Params, page: int, city: string, date: string, comedian: string)
    requires page >= 1
    requires Get(params, "limit") == Some(NatToString(ItemsPerPage))
    requires Get(params, "offset") == Some(NatToString((page - 1) * ItemsPerPage))
    requires Get(params, "city") == NonEmpty(city)
    requires Get(params, "date") == NonEmpty(date)
    requires Get(params, "comedian") == NonEmpty(comedian)
    ensures ShowsRoute.ReadParams(params) ==
      ShowsRoute.ShowsParams(Int(ItemsPerPage), Int((page - 1) * ItemsPerPage), NonEmpty(city), NonEmpty(date), NonEmpty(comedian))
  {
    ParseIntOfNatToString(ItemsPerPage);
    ParseIntOfNatToString((page - 1) * ItemsPerPage);
  }

  /** What `get` answers for each parameter the page uses, after one more append. */
  lemma AppendFacts(params: Params, name: string, value: string)
    ensures Get(Append(params, name, value), "limit") == AfterAppend(params, name, value, "limit")
    ensures Get(Append(params, name, value), "offset") == AfterAppend(params, name, value, "offset")
    ensures Get(Append(params, name, value), "city") == AfterAppend(params, name, value, "city")
    ensures Get(Append(params, name, value), "date") == AfterAppend(params, name, value, "date")
    ensures Get(Append(params, name, value), "comedian") == AfterAppend(params, name, value, "comedian")
  {
    GetAfterAppend(params, name, value, "limit");
    GetAfterAppend(params, name, value, "offset");
    GetAfterAppend(params, name, value, "city");
    GetAfterAppend(params, name, value, "date");
    GetAfterAppend(params, name, value, "comedian");
  }

  /** `get(key)` after appending `(name, value)`: an earlier value wins. */
  function AfterAppend(params: Params, name: string, value: string, key: string): Option<string> {
    if Get(params, key).Some? then Get(params, key) else if key == name then Some(value) else None
  }

  class ShowsPage {
    var shows: seq<ShowWithDetails>
    var loading: bool
    var error: Option<string>
    var searchQuery: string
    var selectedCity: string
    var selectedDate: string
    var selectedComedian: string
    var currentPage: int
    const itemsPerPage: nat

    /** Pages are numbered from 1 and hold 12 shows. */
    ghost predicate Valid()
      reads this
    {
      currentPage >= 1 && itemsPerPage == ItemsPerPage
    }

    /** The state on first render: loading, nothing listed, no filter, page 1. */
    constructor ()
      ensures Valid()
      ensures shows == [] && loading && error == None
      ensures searchQuery == "" && selectedCity == "" && selectedDate == "" && selectedComedian == ""
      ensures currentPage == 1
    {
      shows := [];
      loading := true;
      error := None;
      searchQuery := "";
      selectedCity := "";
      selectedDate := "";
      selectedComedian := "";
      currentPage := 1;
      itemsPerPage := ItemsPerPage;
    }

    /** Typing in the search box. */
    method EditSearchQuery(text: string)
      requires Valid()
      modifies this`searchQuery
      ensures Valid()
      ensures searchQuery == text
    {
      searchQuery := text;
    }

    /** Choosing a city in the city list. */
    method SelectCity(city: string)
      requires Valid()
      modifies this`selectedCity
      ensures Valid()
      ensures selectedCity == city
    {
      selectedCity := city;
    }

    /** Choosing a date in the date field. */
    method SelectDate(date: string)
      requires Valid()
      modifies this`selectedDate
      ensures Valid()
      ensures selectedDate == date
    {
      selectedDate := date;
    }

    /** Submitting the search form: back to page 1, searching for the typed comedian. */
    method HandleSearch()
      requires Valid()
      modifies this`currentPage, this`selectedComedian
      ensures Valid()
      ensures currentPage == 1 && selectedComedian == searchQuery
      ensures selectedCity == old(selectedCity) && selectedDate == old(selectedDate)
    {
      currentPage := 1;
      selectedComedian := searchQuery;
    }

    /**
     * Clearing every filter and going back to page 1. The state it leaves
     * does not depend on the state before, so doing it twice is doing it once.
     */
    method ResetFilters()
      requires Valid()
      modifies this`searchQuery, this`selectedCity, this`selectedDate, this`selectedComedian, this`currentPage
      ensures Valid()
      ensures searchQuery == "" && selectedCity == "" && selectedDate == "" && selectedComedian == ""
      ensures currentPage == 1
    {
      searchQuery := "";
      selectedCity := "";
      selectedDate := "";
      selectedComedian := "";
      currentPage := 1;
    }

    /**
     * `!error` in the page: no error, or an error whose message is empty,
     * which JavaScript treats as false.
     */
    predicate ErrorHidden()
      reads this
    {
      error.None? || error.value == ""
    }

    /**
     * The Previous button is disabled on the first page; when it is
     * enabled, `Math.max(1, currentPage - 1)` is just the page before.
     */
    function PreviousDisabled(): (disabled: bool)
      requires Valid()
      reads this
      ensures !disabled ==> currentPage - 1 >= 1
      ensures disabled ==> currentPage - 1 < 1
    {
      currentPage == 1
    }

    /** The Next button is disabled when the list holds fewer shows than a full page of 12. */
    function NextDisabled(): (disabled: bool)
      requires Valid()
      reads this
      ensures disabled <==> |shows| < ItemsPerPage
    {
      |shows| < itemsPerPage
    }

    /**
     * The pagination controls are shown for a non-empty list, when not
     * loading and `!error` holds: an error with an empty message does not
     * hide them.
     */
    function PaginationShown(): (shown: bool)
      reads this
      ensures shown ==> !loading && |shows| > 0
      ensures shown && error.Some? ==> error.value == ""
    {
      !loading && ErrorHidden() && |shows| > 0
    }

    /** The Previous button: one page back, but never before page 1. */
    method PreviousPage()
      requires Valid()
      modifies this`currentPage
      ensures Valid()
      ensures old(PreviousDisabled()) ==> currentPage == 1
      ensures !old(PreviousDisabled()) ==> currentPage == old(currentPage) - 1
      ensures PreviousDisabled() <==> old(currentPage) <= 2
    {
      currentPage := if currentPage - 1 > 1 then currentPage - 1 else 1;
    }

    /** The Next button: one page forward. */
    method NextPage()
      requires Valid()
      modifies this`currentPage
      ensures Valid()
      ensures currentPage == old(currentPage) + 1
      ensures !PreviousDisabled()
    {
      currentPage := currentPage + 1;
    }

    /** `fetchShows` up to the `await`: loading, no error, and the request for the current state. */
    method BeginFetch() returns (params: Params)
      requires Valid()
      modifies this`loading, this`error
      ensures Valid() && loading && error == None
      ensures ShowsRoute.ReadParams(params) ==
        ShowsRoute.ShowsParams(Int(ItemsPerPage), Int((currentPage - 1) * ItemsPerPage),
          NonEmpty(selectedCity), NonEmpty(selectedDate), NonEmpty(selectedComedian))
    {
      loading := true;
      error := None;
      params := BuildRequest(currentPage, selectedCity, selectedDate, selectedComedian);
    }

    /**
     * `fetchShows` after the `await`: the list becomes the body's `data`
     * (empty when absent) on success; otherwise the list stays and the error
     * is set. Loading ends in every case.
     */
    method CompleteFetch(result: FetchResult)
      requires Valid()
      modifies this`shows, this`error, this`loading
      ensures Valid() && !loading
      ensures result.Ok? ==> shows == result.body.GetOr([]) && error == old(error)
      ensures result.NotOk? ==> shows == old(shows) && error == Some(FailedToFetch)
      ensures result.Failed? ==> shows == old(shows) && error == Some(result.message.GetOr(AnErrorOccurred))
      ensures result.Ok? ==> (NextDisabled() <==> |result.body.GetOr([])| < ItemsPerPage)
      ensures PaginationShown() <==>
        && |shows| > 0
        && ((result.Ok? && old(ErrorHidden())) || (result.Failed? && result.message == Some("")))
    {
      match result {
      case Ok(body) =>
        shows := body.GetOr([]);
      case NotOk =>
        error := Some(FailedToFetch);
      case Failed(message) =>
        error := Some(message.GetOr(AnErrorOccurred));
      }
      loading := false;
    }

    /** One whole fetch that settles before any other starts. */
    method FetchShows(server: Params -> FetchResult) returns (sent: Params)
      requires Valid()
      modifies this`shows, this`error, this`loading
      ensures Valid() && !loading
      ensures ShowsRoute.ReadParams(sent) ==
        ShowsRoute.ShowsParams(Int(ItemsPerPage), Int((currentPage - 1) * ItemsPerPage),
          NonEmpty(selectedCity), NonEmpty(selectedDate), NonEmpty(selectedComedian))
      ensures server(sent).Ok? ==> shows == server(sent).body.GetOr([]) && error == None
      ensures server(sent).NotOk? ==> shows == old(shows) && error == Some(FailedToFetch)
      ensures server(sent).Failed? ==> shows == old(shows) && error == Some(server(sent).message.GetOr(AnErrorOccurred))
      ensures server(sent).Ok? ==> (NextDisabled() <==> |server(sent).body.GetOr([])| < ItemsPerPage)
      ensures server(sent).Ok? ==> (PaginationShown() <==> |shows| > 0)
      ensures server(sent).NotOk? ==> !PaginationShown()
      ensures server(sent).Failed? ==> (PaginationShown() <==> server(sent).message == Some("") && |shows| > 0)
    {
      sent := BeginFetch();
      CompleteFetch(server(sent));
    }
  }
}
