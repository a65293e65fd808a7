/** The text logic of `HighlightCard`: search matching and the detail line under a highlight. */
module HighlightCard {
  import opened Wrappers
  import opened Text
  import opened Models

  /** `isMatchingSearch`: the search text occurs in the highlight or its chapter title, ignoring case. */
  function IsMatchingSearch(h: HighlightItem, searchText: string): (r: bool)
    ensures searchText == "" ==> !r
    ensures searchText != "" ==>
              (r <==> Contains(Lower(h.text), Lower(searchText)) || Contains(Lower(h.chapterTitle), Lower(searchText)))
  {
    if searchText == "" then false
    else CaseInsensitiveContains(h.text, searchText) || CaseInsensitiveContains(h.chapterTitle, searchText)
  }

  /** The search text, ignoring case, occurs in the highlight text: the card is highlighted. */
  lemma MatchingTextIsHighlighted(h: HighlightItem, searchText: string)
    requires searchText != ""
    requires exists i :: OccursAt(Lower(h.text), Lower(searchText), i)
    ensures IsMatchingSearch(h, searchText)
  {
    ContainsIffOccurs(Lower(h.text), Lower(searchText));
  }

  const ChapterPrefix := "Kapitel: "
  const PagePrefix := "Seite "
  const DetailSeparator := " | "

  /** The parts of the detail line: the chapter title, then the page. */
  function DetailParts(h: HighlightItem): (parts: seq<string>)
    ensures |parts| == (if h.chapterTitle != "" then 1 else 0) + (if h.page > 0 then 1 else 0)
    ensures h.chapterTitle != "" ==> parts[0] == ChapterPrefix + h.chapterTitle
    ensures h.page > 0 ==> parts[|parts| - 1] == PagePrefix + IntToString(h.page)
  {
    (if h.chapterTitle != "" then [ChapterPrefix + h.chapterTitle] else [])
    + (if h.page > 0 then [PagePrefix + IntToString(h.page)] else [])
  }

  /** `detailText`: no line when there is neither a chapter title nor a page. */
  function DetailText(h: HighlightItem): (r: Option<string>)
    ensures r.None? <==> h.chapterTitle == "" && h.page <= 0
    ensures h.chapterTitle != "" && h.page <= 0 ==> r == Some(ChapterPrefix + h.chapterTitle)
    ensures h.chapterTitle == "" && h.page > 0 ==> r == Some(PagePrefix + IntToString(h.page))
    ensures h.chapterTitle != "" && h.page > 0 ==>
              r == Some(ChapterPrefix + h.chapterTitle + DetailSeparator + PagePrefix + IntToString(h.page))
  {
    var details := DetailParts(h);
    if details == [] then None
    else
      assert h.chapterTitle != "" && h.page > 0 ==>
               Join(details, DetailSeparator)
               == ChapterPrefix + h.chapterTitle + DetailSeparator + PagePrefix + IntToString(h.page) by {
        if h.chapterTitle != "" && h.page > 0 {
          assert details[1..] == [details[1]];
          assert Join(details[1..], DetailSeparator) == details[1];
          var a, b := ChapterPrefix + h.chapterTitle, PagePrefix + IntToString(h.page);
          assert a + DetailSeparator + b == ChapterPrefix + h.chapterTitle + DetailSeparator + PagePrefix + IntToString(h.page);
        }
      }
      Some(Join(details, DetailSeparator))
  }
}
