/**
 * `ReadwiseDataManager`: the UI's entry point to the reading service. It
 * guards against overlapping loads, maps the service's records to the UI
 * models, and turns API errors into a loading state with a German message
 * and, for key problems, a request to show the API key view.
 *
 * Asynchronous completions are separate methods that receive the fetch
 * result; ISO 8601 parsing and the clock are inputs.
 */
module DataManager {
  import opened Wrappers
  import opened Text
  import opened Models
  import opened APIService

  // ---------------------------------------------------------------------------
  // The service's records (the fields the mapping reads)
  // ---------------------------------------------------------------------------

  datatype BookAPIModel = BookAPIModel(
    id: int,
    title: string,
    author: Option<string>,
    category: string,
    coverImageURL: Option<string>,
    lastHighlightAt: Option<string>,
    numHighlights: int)

  datatype BooksAPIResponse = BooksAPIResponse(results: seq<BookAPIModel>)

  datatype HighlightAPIModel = HighlightAPIModel(
    id: int,
    text: string,
    location: Option<int>,
    locationType: Option<string>,
    highlightedAt: Option<string>,
    bookId: int)

  datatype HighlightsAPIResponse = HighlightsAPIResponse(results: seq<HighlightAPIModel>)

  /** The two ISO 8601 formatters, with and without fractional seconds. */
  datatype DateParsers = DateParsers(withFraction: string -> Option<Date>, withoutFraction: string -> Option<Date>)

  /** Try the formatter with fractional seconds first, then the one without. */
  function ParseDate(p: DateParsers, s: string): (d: Option<Date>)
    ensures d.Some? <==> p.withFraction(s).Some? || p.withoutFraction(s).Some?
    ensures p.withFraction(s).Some? ==> d == p.withFraction(s)
  {
    if p.withFraction(s).Some? then p.withFraction(s) else p.withoutFraction(s)
  }

  const UnknownAuthor := "Unbekannt"

  /** `URL(string:)` on the cover address: the empty string gives no URL. */
  function CoverURL(s: Option<string>): (u: Option<string>)
    ensures u.Some? <==> s.Some? && s.value != ""
    ensures u.Some? ==> u.value == s.value
  {
    if s.Some? && s.value != "" then s else None
  }

  /** One book of `mapBooks(from:)`. */
  function MapBook(b: BookAPIModel, p: DateParsers): (book: BookPreview)
    ensures book.id == b.id && book.readwiseId == Some(b.id)
    ensures book.title == b.title && book.category == b.category
    ensures book.author == (if b.author.Some? then b.author.value else UnknownAuthor)
    ensures book.coverImageURL == CoverURL(b.coverImageURL)
    ensures book.numHighlights == b.numHighlights
    ensures book.lastHighlightAt.Some? <==> b.lastHighlightAt.Some? && ParseDate(p, b.lastHighlightAt.value).Some?
    ensures book.lastHighlightAt.Some? ==> book.lastHighlightAt == ParseDate(p, b.lastHighlightAt.value)
  {
    var highlightDate := if b.lastHighlightAt.Some? then ParseDate(p, b.lastHighlightAt.value) else None;
    NewBookPreview(b.title, b.author.GetOr(UnknownAuthor), b.category, CoverURL(b.coverImageURL),
                   Some(b.id), b.numHighlights, highlightDate)
  }

  /** `mapBooks(from:)`: one book per record, in the service's order. */
  function MapBooks(r: BooksAPIResponse, p: DateParsers): (books: seq<BookPreview>)
    ensures |books| == |r.results|
    ensures forall i :: 0 <= i < |books| ==> books[i] == MapBook(r.results[i], p)
  {
    seq(|r.results|, i requires 0 <= i < |r.results| => MapBook(r.results[i], p))
  }

  /** The page of a highlight: its location when the location is a page, else 0. */
  function PageOf(h: HighlightAPIModel): (page: int)
    ensures page != 0 ==> h.locationType == Some("page") && h.location == Some(page)
    ensures h.locationType == Some("page") && h.location.Some? ==> page == h.location.value
  {
    if h.locationType == Some("page") && h.location.Some? then h.location.value else 0
  }

  /** One highlight of `mapHighlights(from:)`; an unparsable or missing date becomes `now`. */
  function MapHighlight(h: HighlightAPIModel, p: DateParsers, now: Date): (item: HighlightItem)
    ensures item.text == h.text && item.page == PageOf(h)
    ensures item.chapter == 0 && item.chapterTitle == ""
    ensures item.readwiseId == Some(h.id) && item.bookId == Some(h.bookId)
    ensures h.highlightedAt.None? ==> item.date == now
    ensures h.highlightedAt.Some? && ParseDate(p, h.highlightedAt.value).Some? ==>
              item.date == ParseDate(p, h.highlightedAt.value).value
    ensures h.highlightedAt.Some? && ParseDate(p, h.highlightedAt.value).None? ==> item.date == now
  {
    var date := if h.highlightedAt.Some? then ParseDate(p, h.highlightedAt.value).GetOr(now) else now;
    HighlightItem(h.text, PageOf(h), 0, "", date, Some(h.id), Some(h.bookId))
  }

  /** `mapHighlights(from:)`: one item per record, in the service's order. */
  function MapHighlights(r: HighlightsAPIResponse, p: DateParsers, now: Date): (items: seq<HighlightItem>)
    ensures |items| == |r.results|
    ensures forall i :: 0 <= i < |items| ==> items[i] == MapHighlight(r.results[i], p, now)
  {
    seq(|r.results|, i requires 0 <= i < |r.results| => MapHighlight(r.results[i], p, now))
  }

  /** Every highlight mapped from one book's response belongs to the books it names. */
  lemma MappedHighlightsKeepBook(r: HighlightsAPIResponse, p: DateParsers, now: Date, bookId: int)
    requires forall i :: 0 <= i < |r.results| ==> r.results[i].bookId == bookId
    ensures forall h :: h in MapHighlights(r, p, now) ==> h.bookId == Some(bookId)
  {
    var items := MapHighlights(r, p, now);
    forall h | h in items ensures h.bookId == Some(bookId) {
      var i :| 0 <= i < |items| && items[i] == h;
    }
  }

  // ---------------------------------------------------------------------------
  // Error messages
  // ---------------------------------------------------------------------------

  /** The message `handleAPIError` shows for each error. */
  function ErrorMessage(e: ValidationError): string {
    match e
    case NoKey => "Kein API-Schlüssel hinterlegt."
    case InvalidKey => "Der API-Schlüssel ist ungültig."
    case NetworkError(detail) => "Netzwerkfehler: " + detail
    case InvalidResponse => "Ungültige Serverantwort."
    case ServerError(code) => "Serverfehler (Code: " + IntToString(code) + ")."
    case InvalidURL => "Interne Fehlkonfiguration (URL)."
    case NoData => "Keine Daten empfangen."
  }

  /** Errors that send the user to the API key view. */
  predicate IsKeyError(e: ValidationError) {
    e == NoKey || e == InvalidKey
  }

  /** A character at a fixed place of each message that differs between the cases: it tells the messages apart in `ErrorMessageInjective`. */
  function MessageMark(e: ValidationError): (c: char)
    ensures |ErrorMessage(e)| > 4
    ensures c == (if e.NoKey? || e.NoData? then ErrorMessage(e)[4] else ErrorMessage(e)[0])
  {
    match e
    case NoKey => ' '
    case InvalidKey => 'D'
    case NetworkError(_) => 'N'
    case InvalidResponse => 'U'
    case ServerError(_) => 'S'
    case InvalidURL => 'I'
    case NoData => 'e'
  }

  /** Different errors give different messages: the message tells which error occurred. */
  lemma ErrorMessageInjective(a: ValidationError, b: ValidationError)
    requires ErrorMessage(a) == ErrorMessage(b)
    ensures a == b
  {
    var m := ErrorMessage(a);
    var ma, mb := MessageMark(a), MessageMark(b);
    match a {
      case NetworkError(d) =>
        assert b.NetworkError?;
        assert d == m[16..] == b.detail;
      case ServerError(c) =>
        assert b.ServerError?;
        var prefix := "Serverfehler (Code: ";
        assert m == prefix + IntToString(c) + ").";
        assert m == prefix + IntToString(b.code) + ").";
        assert IntToString(c) == m[|prefix|..|m| - 2] == IntToString(b.code);
        IntToStringInjective(c, b.code);
      case _ =>
    }
  }

  // ---------------------------------------------------------------------------
  // The manager
  // ---------------------------------------------------------------------------

  class ReadwiseDataManager {
    var loadingState: LoadingState
    var lastUpdate: Option<Date>
    var fullyLoadedBooks: seq<BookPreview>
    var shouldShowAPIKeyView: bool

    /** `init`: idle, nothing loaded, and the key view shown exactly when no key is stored. */
    constructor (k: KeychainRead)
      ensures loadingState == Idle && lastUpdate == None && fullyLoadedBooks == []
      ensures shouldShowAPIKeyView == !HasAPIKey(k)
    {
      loadingState := Idle;
      lastUpdate := None;
      fullyLoadedBooks := [];
      shouldShowAPIKeyView := !HasAPIKey(k);
    }

    /** `updateAPIKeyViewState()`. */
    method UpdateAPIKeyViewState(k: KeychainRead)
      modifies this
      ensures shouldShowAPIKeyView == !HasAPIKey(k)
      ensures loadingState == old(loadingState) && lastUpdate == old(lastUpdate)
      ensures fullyLoadedBooks == old(fullyLoadedBooks)
    {
      shouldShowAPIKeyView := !HasAPIKey(k);
    }

    /** The observer of the show-API-key-view notification. */
    method ShowAPIKeyViewNotification()
      modifies this
      ensures shouldShowAPIKeyView
      ensures loadingState == old(loadingState) && lastUpdate == old(lastUpdate)
      ensures fullyLoadedBooks == old(fullyLoadedBooks)
    {
      if !shouldShowAPIKeyView {
        shouldShowAPIKeyView := true;
      }
    }

    /**
     * `loadBooks()` up to the request: a load already in flight makes it a
     * no-op; otherwise the state becomes `loadingBooks` and the fetch starts.
     */
    method LoadBooks() returns (started: bool)
      modifies this
      ensures started <==> !IsLoading(old(loadingState))
      ensures started ==> loadingState == LoadingBooks
      ensures !started ==> loadingState == old(loadingState)
      ensures lastUpdate == old(lastUpdate) && fullyLoadedBooks == old(fullyLoadedBooks)
      ensures shouldShowAPIKeyView == old(shouldShowAPIKeyView)
    {
      if loadingState == LoadingBooks || loadingState == LoadingHighlights {
        return false;
      }
      loadingState := LoadingBooks;
      return true;
    }

    /** `refreshData()`: only the book list is reloaded. */
    method RefreshData() returns (started: bool)
      modifies this
      ensures started <==> !IsLoading(old(loadingState))
      ensures started ==> loadingState == LoadingBooks
      ensures !started ==> loadingState == old(loadingState)
      ensures lastUpdate == old(lastUpdate) && fullyLoadedBooks == old(fullyLoadedBooks)
      ensures shouldShowAPIKeyView == old(shouldShowAPIKeyView)
    {
      started := LoadBooks();
    }

    /**
     * The completion of `loadBooks()`: the state is reset to idle; books
     * replace the list and stamp the update time; a key error asks for the
     * key view, any other error shows its `description`.
     */
    method CompleteLoadBooks(result: Result<BooksAPIResponse, ValidationError>, description: string,
                             p: DateParsers, now: Date)
      modifies this
      ensures result.Success? ==>
                && loadingState == Idle
                && fullyLoadedBooks == MapBooks(result.value, p) && lastUpdate == Some(now)
                && shouldShowAPIKeyView == old(shouldShowAPIKeyView)
      ensures result.Failure? ==>
                fullyLoadedBooks == old(fullyLoadedBooks) && lastUpdate == old(lastUpdate)
      ensures result.Failure? && IsKeyError(result.error) ==>
                loadingState == Idle && shouldShowAPIKeyView
      ensures result.Failure? && !IsKeyError(result.error) ==>
                loadingState == Error(description) && shouldShowAPIKeyView == old(shouldShowAPIKeyView)
    {
      loadingState := Idle;
      match result {
        case Success(apiResponse) =>
          var books := MapBooks(apiResponse, p);
          fullyLoadedBooks := books;
          lastUpdate := Some(now);
        case Failure(error) =>
          if ValidationErrorEquals(error, NoKey) || ValidationErrorEquals(error, InvalidKey) {
            shouldShowAPIKeyView := true;
          } else {
            loadingState := Error(description);
          }
      }
    }

    /** `handleAPIError(_:)`: the error's message becomes the state; a key error also asks for the key view. */
    method HandleAPIError(error: ValidationError)
      modifies this
      ensures loadingState == Error(ErrorMessage(error))
      ensures shouldShowAPIKeyView == (old(shouldShowAPIKeyView) || IsKeyError(error))
      ensures lastUpdate == old(lastUpdate) && fullyLoadedBooks == old(fullyLoadedBooks)
    {
      loadingState := Error(ErrorMessage(error));
      if ValidationErrorEquals(error, NoKey) || ValidationErrorEquals(error, InvalidKey) {
        shouldShowAPIKeyView := true;
      }
    }

    /**
     * `loadHighlights(for:completion:)` up to the request: without a key the
     * error is handled and reported at once and nothing is requested;
     * otherwise the highlights of `bookId` are requested.
     */
    method LoadHighlights(bookId: int, k: KeychainRead)
      returns (request: Option<string>, immediate: Option<Result<seq<HighlightItem>, ValidationError>>)
      modifies this
      ensures !HasAPIKey(k) ==>
                && request == None && immediate == Some(Failure(NoKey))
                && loadingState == Error(ErrorMessage(NoKey)) && shouldShowAPIKeyView
      ensures HasAPIKey(k) ==>
                && request == Some(HighlightsURL(bookId)) && immediate == None
                && loadingState == old(loadingState) && shouldShowAPIKeyView == old(shouldShowAPIKeyView)
      ensures lastUpdate == old(lastUpdate) && fullyLoadedBooks == old(fullyLoadedBooks)
    {
      if !HasAPIKey(k) {
        var error := NoKey;
        HandleAPIError(error);
        return None, Some(Failure(error));
      }
      return Some(HighlightsURL(bookId)), None;
    }

    /** The completion of `loadHighlights`: mapped highlights, or the error handled and passed on. */
    method CompleteLoadHighlights(result: Result<HighlightsAPIResponse, ValidationError>,
                                  p: DateParsers, now: Date)
      returns (r: Result<seq<HighlightItem>, ValidationError>)
      modifies this
      ensures result.Success? ==>
                && r == Success(MapHighlights(result.value, p, now))
                && loadingState == old(loadingState) && shouldShowAPIKeyView == old(shouldShowAPIKeyView)
      ensures result.Failure? ==>
                && r == Failure(result.error)
                && loadingState == Error(ErrorMessage(result.error))
                && shouldShowAPIKeyView == (old(shouldShowAPIKeyView) || IsKeyError(result.error))
      ensures lastUpdate == old(lastUpdate) && fullyLoadedBooks == old(fullyLoadedBooks)
    {
      match result {
        case Success(apiResponse) =>
          var highlights := MapHighlights(apiResponse, p, now);
          return Success(highlights);
        case Failure(error) =>
          HandleAPIError(error);
          return Failure(error);
      }
    }
  }

  /** While a load is in flight, a second `loadBooks()` changes nothing. */
  method NoOverlappingLoads(k: KeychainRead) returns (first: bool, second: bool)
    ensures first && !second
  {
    var m := new ReadwiseDataManager(k);
    first := m.LoadBooks();
    second := m.LoadBooks();
  }
}
