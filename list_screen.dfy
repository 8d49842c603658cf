/**
 * The character list screen (ui/CharacterListScreen.kt): the state the
 * screen keeps, the page load that updates it, the reload on a filter
 * change, the pagination buttons and what the screen displays.
 *
 * Each page load is one sequential step; the request goes through the
 * same `Http` oracle as the API client.
 */
module CharacterListScreen {
  import opened Wrappers
  import opened Text
  import opened Model
  import opened ApiClient

  // ---------------------------------------------------------------------------
  // Pagination controls
  // ---------------------------------------------------------------------------

  /** The four buttons of the pagination row: `<<`, `<`, `>` and `>>`. */
  datatype PageButton = First | Prev | Next | Last

  /** Backward buttons need a page before the current one, forward buttons one after it. */
  predicate Enabled(b: PageButton, current: int, total: int) {
    match b
    case First => current > 1
    case Prev => current > 1
    case Next => current < total
    case Last => current < total
  }

  /** The page a button asks for. */
  function Target(b: PageButton, current: int, total: int): int {
    match b
    case First => 1
    case Prev => current - 1
    case Next => current + 1
    case Last => total
  }

  /**
   * On a page inside `1..total`, a button is enabled exactly when it leads
   * to another page inside `1..total`.
   */
  lemma EnabledIffMoves(b: PageButton, current: int, total: int)
    requires 1 <= current <= total
    ensures Enabled(b, current, total) <==> 1 <= Target(b, current, total) <= total && Target(b, current, total) != current
  {
  }

  /** From any page numbered 1 or more, every enabled button leads to a page numbered 1 or more. */
  lemma EnabledTargetPositive(b: PageButton, current: int, total: int)
    requires current >= 1 && Enabled(b, current, total)
    ensures Target(b, current, total) >= 1
    ensures b.Next? || b.Last? ==> Target(b, current, total) <= total
  {
  }

  /** The text between the buttons: "<current> de <total>". */
  function PageIndicator(current: int, total: int): (s: string)
    ensures |s| >= 6
  {
    IntToDecimal(current) + " de " + IntToDecimal(total)
  }

  /** The indicator names both numbers, which can be read back from it. */
  lemma PageIndicatorReadsBack(current: int, total: int)
    ensures var (first, rest) := SplitAtFirst(PageIndicator(current, total), ' ');
            var (word, last) := SplitAtFirst(rest, ' ');
            ParseInt(first) == Some(current) && word == "de" && ParseInt(last) == Some(total)
  {
    var c := IntToDecimal(current);
    var t := IntToDecimal(total);
    assert PageIndicator(current, total) == c + [' '] + ("de " + t);
    SplitAtFirstJoin(c, ' ', "de " + t);
    assert "de " + t == "de" + [' '] + t;
    SplitAtFirstJoin("de", ' ', t);
    IntDecimalRoundTrip(current);
    IntDecimalRoundTrip(total);
  }

  // ---------------------------------------------------------------------------
  // What the screen displays
  // ---------------------------------------------------------------------------

  /** The content area below the filter bar. */
  datatype ScreenView =
    | Spinner
    | ErrorMessage
    | EmptyResults
    | Grid(cards: seq<Character>, current: int, total: int)

  /**
   * Loading wins over an error, an error over an empty list, and only a
   * non-empty list is shown as a grid with the pagination row under it.
   */
  function Display(isLoading: bool, hasError: bool, characters: seq<Character>, current: int, total: int): (v: ScreenView)
    ensures v.Spinner? <==> isLoading
    ensures v.ErrorMessage? <==> !isLoading && hasError
    ensures v.EmptyResults? <==> !isLoading && !hasError && characters == []
    ensures v.Grid? <==> !isLoading && !hasError && characters != []
    ensures v.Grid? ==> v.cards == characters && |v.cards| > 0 && v.current == current && v.total == total
  {
    if isLoading then Spinner
    else if hasError then ErrorMessage
    else if characters == [] then EmptyResults
    else Grid(characters, current, total)
  }

  // ---------------------------------------------------------------------------
  // The request the screen sends
  // ---------------------------------------------------------------------------

  /** A blank name filter is sent as no name; the status goes out as selected. */
  function RequestFiltersFor(name: string, status: Option<string>): (f: Filters)
    ensures f.status == status
    ensures f.species.None? && f.kind.None? && f.gender.None?
  {
    Filters(name := if IsBlank(name) then None else Some(name), status := status)
  }

  /**
   * The request for a name filter is the request without one exactly when
   * the name is blank: whitespace-only names are dropped, any other name
   * changes the URL.
   */
  lemma BlankNameSendsNoName(page: int, name: string, status: Option<string>)
    ensures Url(page, RequestFiltersFor(name, status)) == Url(page, RequestFiltersFor("", status)) <==> IsBlank(name)
  {
    var f := RequestFiltersFor(name, status);
    var g := RequestFiltersFor("", status);
    if !IsBlank(name) {
      AmpersandCount(page, f);
      AmpersandCount(page, g);
      assert NonNullCount(f) == NonNullCount(g) + 1;
      assert Params(page, f) != Params(page, g);
      if Url(page, f) == Url(page, g) {
        UrlDeterminesParams(page, f, page, g);
      }
    }
  }

  /**
   * A name that is not blank is sent as typed and without escaping, so the
   * server reads it up to its first `&`: a name without `&` comes back whole.
   */
  lemma NameReadBack(page: int, name: string, status: Option<string>)
    requires !IsBlank(name)
    ensures var d := DecodeQuery(Params(page, RequestFiltersFor(name, status)));
      d.Some? && d.value.0 == page && d.value.1.name == Some(SplitAtFirst(name, '&').0)
    ensures '&' !in name ==> DecodeQuery(Params(page, RequestFiltersFor(name, status))).value.1.name == Some(name)
  {
    DecodedName(page, RequestFiltersFor(name, status));
    if '&' !in name {
      SplitAtFirstAbsent(name, '&');
    }
  }

  // ---------------------------------------------------------------------------
  // The screen state
  // ---------------------------------------------------------------------------

  class Screen {
    var nameFilter: string
    var statusFilter: Option<string>
    var currentPage: int
    var totalPages: int
    var characters: seq<Character>
    var isLoading: bool
    var hasError: bool

    /** The state before the first load: page 1 of 0, nothing loaded, loading. */
    constructor ()
      ensures nameFilter == "" && statusFilter == None
      ensures currentPage == 1 && totalPages == 0 && characters == []
      ensures isLoading && !hasError
      ensures View() == Spinner
      ensures Valid()
    {
      nameFilter := "";
      statusFilter := None;
      currentPage := 1;
      totalPages := 0;
      characters := [];
      isLoading := true;
      hasError := false;
    }

    /** The page number the screen shows is never below 1. */
    predicate Valid()
      reads this
    {
      currentPage >= 1
    }

    function View(): ScreenView
      reads this
    {
      Display(isLoading, hasError, characters, currentPage, totalPages)
    }

    /** The filters the next request carries. */
    function Request(): Filters
      reads this
    {
      RequestFiltersFor(nameFilter, statusFilter)
    }

    /** The list state after a load of `page` that got `response`. */
    twostate predicate LoadedFrom(page: int, new response: Result<CharacterResponse>)
      reads this
    {
      !isLoading &&
      match response
      case Ok(body) =>
        !hasError && characters == body.results && totalPages == body.info.pages && currentPage == page
      case Err(_) =>
        hasError && characters == [] && currentPage == old(currentPage) && totalPages == old(totalPages)
    }

    /** The start of a load: the spinner shows and any earlier error is cleared. */
    method BeginLoad()
      modifies this
      ensures isLoading && !hasError
      ensures nameFilter == old(nameFilter) && statusFilter == old(statusFilter)
      ensures currentPage == old(currentPage) && totalPages == old(totalPages) && characters == old(characters)
      ensures View() == Spinner
    {
      isLoading := true;
      hasError := false;
    }

    /** The end of a load: the outcome is applied and loading stops. */
    method FinishLoad(page: int, response: Result<CharacterResponse>)
      requires !hasError
      modifies this
      ensures nameFilter == old(nameFilter) && statusFilter == old(statusFilter)
      ensures LoadedFrom(page, response)
    {
      match response {
        case Ok(body) =>
          characters := body.results;
          totalPages := body.info.pages;
          currentPage := page;
        case Err(_) =>
          hasError := true;
          characters := [];
      }
      isLoading := false;
    }

    /**
     * `loadPage`: shows the spinner while the request for `page` with the
     * current filters is out, then applies its outcome.
     */
    method LoadPage(page: int, get: Http) returns (whileLoading: ScreenView)
      modifies this
      ensures whileLoading == Spinner
      ensures nameFilter == old(nameFilter) && statusFilter == old(statusFilter)
      ensures LoadedFrom(page, FetchPage(get, page, old(Request())))
    {
      BeginLoad();
      whileLoading := View();
      var response := FetchPage(get, page, Request());
      FinishLoad(page, response);
    }

    /** The first display runs the load of page 1 with the filters as they are. */
    method Start(get: Http)
      modifies this
      ensures nameFilter == old(nameFilter) && statusFilter == old(statusFilter)
      ensures LoadedFrom(1, FetchPage(get, 1, old(Request())))
      ensures old(Valid()) ==> Valid()
    {
      var _ := LoadPage(1, get);
    }

    /**
     * A new text in the name field. The load of page 1 runs only when the
     * filter value actually changes.
     */
    method OnNameChange(name: string, get: Http)
      modifies this
      ensures name == old(nameFilter) ==> unchanged(this)
      ensures name != old(nameFilter) ==>
        nameFilter == name && statusFilter == old(statusFilter) &&
        LoadedFrom(1, FetchPage(get, 1, RequestFiltersFor(name, old(statusFilter))))
      ensures old(Valid()) ==> Valid()
    {
      if name != nameFilter {
        nameFilter := name;
        var _ := LoadPage(1, get);
      }
    }

    /** A chip click. The load of page 1 runs only when the status actually changes. */
    method OnStatusChange(status: Option<string>, get: Http)
      modifies this
      ensures status == old(statusFilter) ==> unchanged(this)
      ensures status != old(statusFilter) ==>
        statusFilter == status && nameFilter == old(nameFilter) &&
        LoadedFrom(1, FetchPage(get, 1, RequestFiltersFor(old(nameFilter), status)))
      ensures old(Valid()) ==> Valid()
    {
      if status != statusFilter {
        statusFilter := status;
        var _ := LoadPage(1, get);
      }
    }

    /** A click on an enabled pagination button loads the page it targets. */
    method OnPageChange(b: PageButton, get: Http)
      requires Enabled(b, currentPage, totalPages)
      modifies this
      ensures nameFilter == old(nameFilter) && statusFilter == old(statusFilter)
      ensures LoadedFrom(Target(b, old(currentPage), old(totalPages)), FetchPage(get, Target(b, old(currentPage), old(totalPages)), old(Request())))
      ensures old(Valid()) ==> Valid()
    {
      var target := Target(b, currentPage, totalPages);
      var _ := LoadPage(target, get);
    }
  }

  /** What the user does on the screen: type a name, pick a chip, click a pagination button. */
  datatype Event = NameTyped(name: string) | StatusPicked(status: Option<string>) | PageClicked(b: PageButton)

  /**
   * The screen from its first display through a run of user events. The
   * filter bar's callbacks feed the two filter handlers; a click on a
   * disabled pagination button does nothing. Each load runs to completion
   * before the next event.
   */
  method Session(get: Http, events: seq<Event>) returns (s: Screen)
    ensures fresh(s)
    ensures s.Valid() && !s.isLoading
    ensures s.View() != Spinner
  {
    s := new Screen();
    s.Start(get);
    for i := 0 to |events|
      invariant s.Valid() && !s.isLoading
    {
      match events[i]
      case NameTyped(name) => s.OnNameChange(name, get);
      case StatusPicked(status) => s.OnStatusChange(status, get);
      case PageClicked(b) =>
        if Enabled(b, s.currentPage, s.totalPages) {
          s.OnPageChange(b, get);
        }
    }
  }
}
