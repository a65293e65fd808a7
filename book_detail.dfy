/**
 * `BookDetailViewModel`: loads one book's highlights through the data
 * manager and offers them as a single text for copying.
 */
module BookDetail {
  import opened Wrappers
  import opened Text
  import opened Models
  import opened APIService
  import opened DataManager

  const MissingBookIdMessage := "Buch-ID nicht gefunden."

  /** The line that separates highlights in the copied text. */
  const EntrySeparator := "\n\n----------\n\n"

  const ChapterLabel := "\nKapitel: "

  /** One highlight in the copied text: the quoted text, then its chapter title when it has one. */
  function Entry(h: HighlightItem): (e: string)
    ensures IsPrefix("\"" + h.text + "\"", e)
    ensures h.chapterTitle == "" <==> |e| == |h.text| + 2
    ensures h.chapterTitle != "" ==> e[|h.text| + 2..] == ChapterLabel + h.chapterTitle
  {
    var quoted := "\"" + h.text + "\"";
    var e := if h.chapterTitle != "" then quoted + (ChapterLabel + h.chapterTitle) else quoted;
    assert e[..|quoted|] == quoted;
    e
  }

  function Entries(hs: seq<HighlightItem>): (es: seq<string>)
    ensures |es| == |hs|
    ensures forall i :: 0 <= i < |hs| ==> es[i] == Entry(hs[i])
  {
    seq(|hs|, i requires 0 <= i < |hs| => Entry(hs[i]))
  }

  /** `allHighlightsText` over the given highlights. */
  function AllHighlightsText(hs: seq<HighlightItem>): (r: string)
    ensures hs == [] ==> r == ""
    ensures hs != [] ==> IsPrefix(Entry(hs[0]), r)
    ensures |hs| == 1 ==> r == Entry(hs[0])
  {
    var es := Entries(hs);
    var r := Join(es, EntrySeparator);
    assert hs != [] ==> r[..|es[0]|] == es[0];
    r
  }

  /** One more highlight adds one separator and its entry at the end; a single highlight is its entry alone. */
  lemma AllHighlightsTextSnoc(hs: seq<HighlightItem>, h: HighlightItem)
    ensures hs == [] ==> AllHighlightsText(hs + [h]) == Entry(h)
    ensures hs != [] ==> AllHighlightsText(hs + [h]) == AllHighlightsText(hs) + EntrySeparator + Entry(h)
  {
    assert Entries(hs + [h]) == Entries(hs) + [Entry(h)];
    if hs != [] {
      JoinSnoc(Entries(hs), Entry(h), EntrySeparator);
    } else {
      assert Entries(hs + [h]) == [Entry(h)];
    }
  }

  class BookDetailViewModel {
    const book: BookPreview
    const dataManager: ReadwiseDataManager
    var highlights: seq<HighlightItem>
    var isLoadingHighlights: bool
    var highlightError: Option<string>

    /** While a load is in flight the list and the error are clear, and the book has an id. */
    predicate Valid()
      reads this
    {
      isLoadingHighlights ==> highlights == [] && highlightError == None && book.readwiseId.Some?
    }

    constructor (book: BookPreview, dataManager: ReadwiseDataManager)
      ensures this.book == book && this.dataManager == dataManager
      ensures highlights == [] && !isLoadingHighlights && highlightError == None
      ensures Valid()
    {
      this.book := book;
      this.dataManager := dataManager;
      highlights := [];
      isLoadingHighlights := false;
      highlightError := None;
    }

    /** `filteredHighlights`: no filter is applied, every loaded highlight is shown. */
    function FilteredHighlights(): (r: seq<HighlightItem>)
      reads this
      ensures r == highlights
    {
      highlights
    }

    /** `allHighlightsText`. */
    function AllText(): (r: string)
      reads this
      ensures r == AllHighlightsText(highlights)
      ensures highlights == [] ==> r == ""
    {
      AllHighlightsText(FilteredHighlights())
    }

    /** The completion handler: the load is over; highlights on success, the error's description otherwise. */
    method Complete(result: Result<seq<HighlightItem>, ValidationError>, describe: ValidationError -> string)
      requires Valid()
      modifies this
      ensures Valid() && !isLoadingHighlights
      ensures result.Success? ==> highlights == result.value && highlightError == None
      ensures result.Failure? ==>
                && highlightError == Some("Fehler: " + describe(result.error))
                && highlights == old(highlights)
                && (old(isLoadingHighlights) ==> highlights == [])
    {
      isLoadingHighlights := false;
      match result {
        case Success(fetchedHighlights) =>
          highlights := fetchedHighlights;
          highlightError := None;
        case Failure(error) =>
          highlightError := Some("Fehler: " + describe(error));
      }
    }

    /**
     * `loadHighlights()` up to the request: a book without id shows an
     * error, a load in flight makes it a no-op; otherwise the list and the
     * error are cleared and the data manager asked. Without an API key the
     * data manager fails at once and the completion runs immediately.
     */
    method LoadHighlights(k: KeychainRead, describe: ValidationError -> string)
      returns (request: Option<string>)
      requires Valid()
      modifies this, dataManager
      ensures Valid()
      ensures dataManager.lastUpdate == old(dataManager.lastUpdate)
      ensures dataManager.fullyLoadedBooks == old(dataManager.fullyLoadedBooks)
      ensures book.readwiseId.None? || old(isLoadingHighlights) || HasAPIKey(k) ==>
                dataManager.shouldShowAPIKeyView == old(dataManager.shouldShowAPIKeyView)
      ensures book.readwiseId.None? ==>
                && request == None && highlightError == Some(MissingBookIdMessage)
                && highlights == old(highlights) && isLoadingHighlights == old(isLoadingHighlights)
                && dataManager.loadingState == old(dataManager.loadingState)
      ensures book.readwiseId.Some? && old(isLoadingHighlights) ==>
                && request == None && highlights == old(highlights)
                && isLoadingHighlights && highlightError == old(highlightError)
                && dataManager.loadingState == old(dataManager.loadingState)
      ensures book.readwiseId.Some? && !old(isLoadingHighlights) && HasAPIKey(k) ==>
                && request == Some(HighlightsURL(book.readwiseId.value))
                && isLoadingHighlights && highlights == [] && highlightError == None
                && dataManager.loadingState == old(dataManager.loadingState)
      ensures book.readwiseId.Some? && !old(isLoadingHighlights) && !HasAPIKey(k) ==>
                && request == None
                && !isLoadingHighlights && highlights == []
                && highlightError == Some("Fehler: " + describe(NoKey))
                && dataManager.loadingState == Error(ErrorMessage(NoKey)) && dataManager.shouldShowAPIKeyView
    {
      if book.readwiseId.None? {
        highlightError := Some(MissingBookIdMessage);
        return None;
      }
      var bookId := book.readwiseId.value;
      if isLoadingHighlights {
        return None;
      }
      isLoadingHighlights := true;
      highlights := [];
      highlightError := None;
      var immediate;
      request, immediate := dataManager.LoadHighlights(bookId, k);
      if immediate.Some? {
        Complete(immediate.value, describe);
      }
    }

    /** The service's answer reaches the data manager, whose completion then reaches this view model. */
    method ReceiveHighlights(result: Result<HighlightsAPIResponse, ValidationError>, p: DateParsers, now: Date,
                             describe: ValidationError -> string)
      requires Valid()
      modifies this, dataManager
      ensures Valid() && !isLoadingHighlights
      ensures dataManager.lastUpdate == old(dataManager.lastUpdate)
      ensures dataManager.fullyLoadedBooks == old(dataManager.fullyLoadedBooks)
      ensures result.Success? ==>
                && highlights == MapHighlights(result.value, p, now) && highlightError == None
                && dataManager.loadingState == old(dataManager.loadingState)
                && dataManager.shouldShowAPIKeyView == old(dataManager.shouldShowAPIKeyView)
      ensures result.Failure? ==>
                && highlightError == Some("Fehler: " + describe(result.error))
                && highlights == old(highlights)
                && (old(isLoadingHighlights) ==> highlights == [])
                && dataManager.loadingState == Error(ErrorMessage(result.error))
                && dataManager.shouldShowAPIKeyView
                   == (old(dataManager.shouldShowAPIKeyView) || IsKeyError(result.error))
    {
      var r := dataManager.CompleteLoadHighlights(result, p, now);
      Complete(r, describe);
    }
  }
}
