# Rick and Morty character browser — Dafny model

This project models the logic of a Compose Multiplatform client for the public
Rick and Morty character API. The client has four parts:

- **The API client** (`ApiClient`). `fetchPage` turns a page number and five
  optional filters (name, status, species, type, gender) into a query URL and
  asks the HTTP client for the decoded `CharacterResponse`. `fetchAllCharacters`
  fetches page 1, then pages 2..`info.pages`, and concatenates the results.
- **The data model** (`Model`). Immutable records with default values:
  `CharacterResponse`, `Info`, `Character` and `LocationRef`.
- **The character list screen** (`CharacterListScreen`). The screen keeps
  filter, pagination, result and loading/error state. `loadPage` moves it
  through one load. A change of filter reloads page 1. The pagination buttons
  are enabled by bound checks. Exactly one of a spinner, an error message, an
  "empty results" message or the card grid is shown.
- **The card and the filter bar** (`CharacterInfoCard`, `CharacterFilterBar`).
  The card has a case-insensitive status colour and a type row shown only when
  the type is set. The filter bar has four status chips, each emitting a fixed
  value and selected by exact equality, plus a clear button for the name field.

The HTTP client with its JSON decoding is an oracle `Http = string ->
Result<CharacterResponse>`. It maps a URL to either the decoded page or the
exception the call raised. Every fetch in the model goes through it, so the
properties hold for any server behaviour.

Files:

- `wrappers.dfy`: `Option` and `Result`.
- `text.dfy`: the Kotlin string operations the code uses, on `seq<char>`.
  These are ASCII `lowercase()`, `isBlank()`, `Int.toString()` and
  `joinToString`. It also has a `Split` and a number parser, which serve as
  the inverses in the round-trip lemmas.
- `character.dfy`: the records.
- `api_client.dfy`: the query builder, its decoding partner, and the
  `fetchAllCharacters` loop with the lemmas about the pages it requests and
  returns.
- `info_card.dfy`, `filter_bar.dfy`, `list_screen.dfy`: the UI rules.

The Kotlin field `type` is called `kind` in the model, because `type` is a
reserved word in Dafny.

Three behaviours of the code shape the model:

- Only null filters are dropped. An empty-string filter is sent as `key=`.
- Filter values go into the URL unescaped. Nothing is percent-encoded.
- No "no results" response body gets special treatment. A body the decoder
  rejects is a failed fetch, so the screen shows its error message.

## Model

| member | source | states |
|---|---|---|
| ApiClient.QueryStartsWithPage | composeApp/src/commonMain/kotlin/org/example/kotlinmulti/network/ApiClient.kt:29-38 | the query begins with `page=<page>` and the URL is the base, `?`, then the query |
| ApiClient.AmpersandCount | composeApp/src/commonMain/kotlin/org/example/kotlinmulti/network/ApiClient.kt:30-37 | the number of `&` in the query equals the number of non-null filters plus the `&` characters inside the (unescaped) filter values |
| ApiClient.AmpersandCountPlain | composeApp/src/commonMain/kotlin/org/example/kotlinmulti/network/ApiClient.kt:30-37 | when no filter value contains `&`, the number of `&` equals the number of non-null filters |
| ApiClient.QueryRoundTrip | composeApp/src/commonMain/kotlin/org/example/kotlinmulti/network/ApiClient.kt:30-37 | reading the query back gives the page and every filter: a null filter comes back absent, a non-null one (empty strings included) as its value, with status and gender lower-cased and name, species and type verbatim |
| ApiClient.SegmentOrder | composeApp/src/commonMain/kotlin/org/example/kotlinmulti/network/ApiClient.kt:30-37 | when no filter value contains `&`, the first segment is `page=<page>` and the keys follow in the fixed order page, name, status, species, type, gender, each at most once |
| ApiClient.NameQueryExample | composeApp/src/commonMain/kotlin/org/example/kotlinmulti/network/ApiClient.kt:29-38 | page 1 with name "rick" is requested at `.../api/character?page=1&name=rick` |
| ApiClient.StatusQueryExample | composeApp/src/commonMain/kotlin/org/example/kotlinmulti/network/ApiClient.kt:31-37 | status "Alive" is sent as `status=alive` |
| ApiClient.EmptyValueSent | composeApp/src/commonMain/kotlin/org/example/kotlinmulti/network/ApiClient.kt:30-37 | for any page and gender, an empty species is sent as the segment `species=` and the gender lower-cased: the query is `page=<page>&species=&gender=<lower-cased gender>` |
| Text.LowercaseHasNoUpper | composeApp/src/commonMain/kotlin/org/example/kotlinmulti/network/ApiClient.kt:33-36 | a lower-cased status or gender contains no upper-case letter |
| ApiClient.DecodedName | composeApp/src/commonMain/kotlin/org/example/kotlinmulti/network/ApiClient.kt:31-32 | for any name, even one containing `&` or `=`, reading the query back gives the page and the name cut at its first `&` |
| ApiClient.FetchAllCharacters | composeApp/src/commonMain/kotlin/org/example/kotlinmulti/network/ApiClient.kt:43-59 | the loop returns the page walk `AllPages` and requests exactly the pages `Requested`, both over the same filters |
| ApiClient.AllPagesContents | composeApp/src/commonMain/kotlin/org/example/kotlinmulti/network/ApiClient.kt:51-58 | the walk succeeds iff page 1 and pages 2..`pages` fetch without error, and it then returns the results of pages 1..max(1, `pages`) concatenated in ascending order |
| ApiClient.AllPagesRequested | composeApp/src/commonMain/kotlin/org/example/kotlinmulti/network/ApiClient.kt:51-57 | the pages requested are 1, 2, ... in order; on success there are max(1, `pages`) of them; on failure the last one is the page whose fetch failed, and every earlier fetch succeeded |
| ApiClient.SinglePage | composeApp/src/commonMain/kotlin/org/example/kotlinmulti/network/ApiClient.kt:51-58 | when page 1 reports at most one page, only page 1 is requested and its results are returned |
| ApiClient.PagesFromOutcome | composeApp/src/commonMain/kotlin/org/example/kotlinmulti/network/ApiClient.kt:54-57 | the loop over pages `from..last` succeeds iff every fetch in it does, and then yields their results concatenated in order |
| Model.InfoDefaults | composeApp/src/commonMain/kotlin/org/example/kotlinmulti/model/Character.kt:14-19 | `next` and `prev` default to null |
| Model.CharacterDefaults | composeApp/src/commonMain/kotlin/org/example/kotlinmulti/model/Character.kt:23-34 | `type` and `gender` default to "" and `episode` to the empty list |
| Model.LocationRefDefaults | composeApp/src/commonMain/kotlin/org/example/kotlinmulti/model/Character.kt:38-41 | `url` defaults to "" |
| CharacterInfoCard.StatusColor | composeApp/src/commonMain/kotlin/org/example/kotlinmulti/ui/CharacterInfoCard.kt:164-170 | green 0xFF97CE4C iff the lower-cased status is "alive", red 0xFFF44336 iff it is "dead", grey 0xFF9E9E9E iff it is neither |
| CharacterInfoCard.StatusColorIgnoresCase | composeApp/src/commonMain/kotlin/org/example/kotlinmulti/ui/CharacterInfoCard.kt:165 | the colour of a status equals the colour of its lower-cased form |
| CharacterInfoCard.StatusColorExamples | composeApp/src/commonMain/kotlin/org/example/kotlinmulti/ui/CharacterInfoCard.kt:164-170 | "Alive" and "ALIVE" are green, "Dead" is red, "unknown" and "" are grey |
| CharacterInfoCard.InfoRows | composeApp/src/commonMain/kotlin/org/example/kotlinmulti/ui/CharacterInfoCard.kt:127-136 | the card has exactly the origin (green) and location (light blue) rows, plus a third "Tipo:" row (yellow, with the type) iff the type is not empty |
| CharacterFilterBar.Value | composeApp/src/commonMain/kotlin/org/example/kotlinmulti/ui/CharacterFilterBar.kt:95-117 | exactly the "Todos" chip emits null; every other chip emits a status |
| CharacterFilterBar.Label | composeApp/src/commonMain/kotlin/org/example/kotlinmulti/ui/CharacterFilterBar.kt:93-121 | the chip labelled "Todos" is the one for all statuses |
| CharacterFilterBar.ClickSelectsExactly | composeApp/src/commonMain/kotlin/org/example/kotlinmulti/ui/CharacterFilterBar.kt:93-121 | after a click on a chip, that chip and only that chip is selected |
| CharacterFilterBar.SelectedChips | composeApp/src/commonMain/kotlin/org/example/kotlinmulti/ui/CharacterFilterBar.kt:94-116 | at most one chip is selected; none is iff the status is outside {null, "Alive", "Dead", "unknown"}; "Todos" is iff the status is null |
| CharacterFilterBar.LowercaseAliveSelectsNone | composeApp/src/commonMain/kotlin/org/example/kotlinmulti/ui/CharacterFilterBar.kt:101 | the status "alive" selects no chip, because the comparison is case-sensitive |
| CharacterFilterBar.ClearName | composeApp/src/commonMain/kotlin/org/example/kotlinmulti/ui/CharacterFilterBar.kt:60-61 | the clear button is there only for a non-empty name, and it sets the name to "", which hides the button |
| CharacterListScreen.EnabledIffMoves | composeApp/src/commonMain/kotlin/org/example/kotlinmulti/ui/CharacterListScreen.kt:150-186 | on a page in 1..total, a pagination button is enabled iff its target (1, current - 1, current + 1, total) is another page in 1..total |
| CharacterListScreen.EnabledTargetPositive | composeApp/src/commonMain/kotlin/org/example/kotlinmulti/ui/CharacterListScreen.kt:150-186 | from a page numbered 1 or more, an enabled button targets a page numbered 1 or more, and a forward button stays within the total |
| CharacterListScreen.PageIndicatorReadsBack | composeApp/src/commonMain/kotlin/org/example/kotlinmulti/ui/CharacterListScreen.kt:168-171 | the text "<current> de <total>" contains both numbers, and they can be read back from it |
| CharacterListScreen.Display | composeApp/src/commonMain/kotlin/org/example/kotlinmulti/ui/CharacterListScreen.kt:95-130 | the spinner shows iff loading; the error message iff not loading and failed; the empty message iff neither and no characters; otherwise the grid of those characters, with the pagination row |
| CharacterListScreen.RequestFiltersFor | composeApp/src/commonMain/kotlin/org/example/kotlinmulti/ui/CharacterListScreen.kt:48-52 | the status goes out unchanged and species, type and gender are not sent |
| CharacterListScreen.BlankNameSendsNoName | composeApp/src/commonMain/kotlin/org/example/kotlinmulti/ui/CharacterListScreen.kt:50 | the URL for a name filter equals the URL with no name iff the name is blank (whitespace only counts as blank) |
| CharacterListScreen.NameReadBack | composeApp/src/commonMain/kotlin/org/example/kotlinmulti/ui/CharacterListScreen.kt:50 | a name that is not blank is sent unescaped: `DecodeQuery` reads back the page and the name up to its first `&`; a name without `&` comes back whole |
| CharacterListScreen.Screen.constructor | composeApp/src/commonMain/kotlin/org/example/kotlinmulti/ui/CharacterListScreen.kt:24-34 | the initial state is page 1 of 0, no characters, loading, no error, empty name and no status, shown as a spinner; the page number is at least 1 |
| CharacterListScreen.Screen.Start | composeApp/src/commonMain/kotlin/org/example/kotlinmulti/ui/CharacterListScreen.kt:65-68 | on first display, page 1 is loaded with the current filters, with the outcome given by `LoadedFrom` |
| CharacterListScreen.Screen.BeginLoad | composeApp/src/commonMain/kotlin/org/example/kotlinmulti/ui/CharacterListScreen.kt:45-46 | a load starts by setting loading and clearing the error, and the spinner shows |
| CharacterListScreen.Screen.FinishLoad | composeApp/src/commonMain/kotlin/org/example/kotlinmulti/ui/CharacterListScreen.kt:53-61 | on success the characters, total pages and current page become the response's results, page count and the requested page; on failure the error is set, the list emptied and the page numbers kept; loading stops either way |
| CharacterListScreen.Screen.LoadPage | composeApp/src/commonMain/kotlin/org/example/kotlinmulti/ui/CharacterListScreen.kt:43-63 | the spinner shows while the request for the page with the current filters is out, then its outcome is applied as in `FinishLoad` |
| CharacterListScreen.Screen.OnNameChange | composeApp/src/commonMain/kotlin/org/example/kotlinmulti/ui/CharacterListScreen.kt:66-68 | a different name is stored and page 1 is loaded with it; the same name changes nothing; the page number stays 1 or more |
| CharacterListScreen.Screen.OnStatusChange | composeApp/src/commonMain/kotlin/org/example/kotlinmulti/ui/CharacterListScreen.kt:66-68 | a different status is stored and page 1 is loaded with it; the same status changes nothing; the page number stays 1 or more |
| CharacterListScreen.Screen.OnPageChange | composeApp/src/commonMain/kotlin/org/example/kotlinmulti/ui/CharacterListScreen.kt:114-118 | a click on an enabled button loads its target page with the current filters; the page number stays 1 or more |
| CharacterListScreen.Session | composeApp/src/commonMain/kotlin/org/example/kotlinmulti/ui/CharacterListScreen.kt:65-118 | from the first display through any run of typed names, chip clicks and pagination clicks (a disabled button does nothing), the screen ends with no load pending, not on the spinner, and on a page numbered 1 or more |

## Left out

- Layout, styling, scrolling and the theme of every composable, and the app entry points (`App.kt`, `MainActivity.kt`, `main.kt`). They have no behaviour beyond the rules above.
- The Ktor client and kotlinx JSON decoding. They are the `Http` oracle: a URL maps to the decoded page or to the exception the call raised.
- Coroutine scheduling (`scope.launch`, `LaunchedEffect`). Each page load is one sequential step, so the stale-response race between overlapping loads is not modelled.
- The image of a card (asynchronous image loading). It has no rule to state.
- Text.Lowercase: lower-cases ASCII letters only. Kotlin's `lowercase()` also maps other Unicode letters.
- Text.IsBlank: uses the JVM whitespace set of current JDKs. The treatment of U+180E, which differs between JDK versions, is not modelled.
- Page numbers, counts and ids are unbounded integers. Kotlin's 32-bit `Int` cannot overflow at the sizes this API reports.
- ApiClient.FetchAllCharacters: returns the list of page numbers it requested, not the URLs. Page `p` is fetched through `PageFetcher(get, f)`, that is at `Url(p, f)` with the caller's filters.
- ApiClient.SegmentOrder: holds only when no filter value contains `&`. The code does not escape values, so a value with `&` adds segments whose keys come from the value.
- CharacterListScreen.NameReadBack: a name containing `&` is not read back whole, because the code does not escape it; the lemma states the part that is read back. The lemma is about the model's own decoder `DecodeQuery`, not about the server. The HTTP client's parsing of the URL string is not modelled (a `#` in a value starts a fragment, so the query is cut short there and the rest is never sent), nor is the server's decoding of `%` and `+`.
- ApiClient.QueryRoundTrip: holds only when no filter value contains `&`. The code does not escape values, so a value with `&` splits into several segments. ApiClient.AmpersandCount covers every value, including these.
- CharacterListScreen.Screen.FinishLoad: requires no earlier error. This holds after `BeginLoad`, and the source only reaches that code through `BeginLoad`.
