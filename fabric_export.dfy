/**
 * Markdown export of a book's highlights (`FabricExportService`): the safe
 * file name derived from the title, the generated document, and the export
 * that writes `<name>.md` into the export directory and remembers when each
 * book was exported.
 *
 * The export directory, the outcome of the file write and the clock are
 * inputs; date formatting is a function supplied by the caller.
 */
module FabricExport {
  import opened Wrappers
  import opened Text
  import opened Models

  // ---------------------------------------------------------------------------
  // sanitizeFilename
  // ---------------------------------------------------------------------------

  /** Characters that may not appear in a file name: `/ \\ ? % * | " < > :`. */
  predicate IsInvalidChar(c: char) {
    c == '/' || c == '\\' || c == '?' || c == '%' || c == '*' || c == '|' || c == '"' || c == '<' || c == '>' || c == ':'
  }

  predicate NoInvalid(s: string) {
    forall i :: 0 <= i < |s| ==> !IsInvalidChar(s[i])
  }

  /** Characters trimmed from both ends. */
  predicate IsTrimChar(c: char) {
    c == '_' || c == ' '
  }

  const MaxFilenameLength := 200
  const FallbackFilename := "Highlights"

  /** `components(separatedBy: invalid).joined(separator: "_")`: each invalid character becomes `_`. */
  function ReplaceInvalid(s: string): (r: string)
    ensures |r| == |s| && NoInvalid(r)
    ensures forall i :: 0 <= i < |s| ==> r[i] == (if IsInvalidChar(s[i]) then '_' else s[i])
  {
    seq(|s|, i requires 0 <= i < |s| => if IsInvalidChar(s[i]) then '_' else s[i])
  }

  /** The `while contains("__")` loop: halve runs of underscores until none is doubled. */
  function Collapse(s: string): (r: string)
    ensures NoDoubled(r, '_')
    ensures forall i :: 0 <= i < |r| ==> r[i] in s || r[i] == '_'
    ensures !Contains(s, "__") ==> r == s
    decreases |s|
  {
    if Contains(s, "__") then
      var next := ReplaceAll(s, "__", "_");
      ReplaceAllLength(s, "__", "_");
      ReplaceAllChars(s, "__", "_");
      Collapse(next)
    else
      NotContainsPairIsNoDoubled(s, '_');
      s
  }

  /**
   * Every run of `_` shrinks to a single `_`; all other characters stay, in order. The
   * reference for `Collapse`, read left to right: a `_` followed by another `_` is dropped.
   */
  function Squeeze(s: string): string
    decreases |s|
  {
    if |s| <= 1 then s
    else if s[0] == '_' && s[1] == '_' then Squeeze(s[1..])
    else [s[0]] + Squeeze(s[1..])
  }

  /** Squeezing keeps the first character. */
  lemma {:induction false} SqueezeHead(s: string)
    requires s != []
    ensures Squeeze(s) != [] && Squeeze(s)[0] == s[0]
    decreases |s|
  {
    if |s| > 1 && s[0] == '_' && s[1] == '_' {
      SqueezeHead(s[1..]);
    }
  }

  /** A `_` in front of a squeezed text that starts with `_` is absorbed. */
  function PrependSqueezed(c: char, t: string): string {
    if c == '_' && t != [] && t[0] == '_' then t else [c] + t
  }

  /** Squeezing one more character in front depends only on the squeezed rest. */
  lemma SqueezeCons(c: char, x: string)
    ensures Squeeze([c] + x) == PrependSqueezed(c, Squeeze(x))
  {
    var y := [c] + x;
    if x != [] {
      SqueezeHead(x);
      assert y[1..] == x;
    }
  }

  /** A text without a doubled `_` is its own squeeze. */
  lemma {:induction false} SqueezeNoDoubled(s: string)
    requires NoDoubled(s, '_')
    ensures Squeeze(s) == s
    decreases |s|
  {
    if |s| > 1 {
      SqueezeNoDoubled(s[1..]);
      assert s == [s[0]] + s[1..];
    }
  }

  /** One pass of `replacingOccurrences(of: "__", with: "_")` does not change the squeeze. */
  lemma {:induction false} ReplacePairKeepsSqueeze(s: string)
    ensures Squeeze(ReplaceAll(s, "__", "_")) == Squeeze(s)
    decreases |s|
  {
    if |s| > 0 {
      if IsPrefix("__", s) {
        var t := s[2..];
        ReplacePairKeepsSqueeze(t);
        assert s == ['_'] + (['_'] + t);
        assert ReplaceAll(s, "__", "_") == ['_'] + ReplaceAll(t, "__", "_");
        SqueezeCons('_', ReplaceAll(t, "__", "_"));
        SqueezeCons('_', ['_'] + t);
        SqueezeCons('_', t);
      } else {
        ReplacePairKeepsSqueeze(s[1..]);
        assert s == [s[0]] + s[1..];
        assert ReplaceAll(s, "__", "_") == [s[0]] + ReplaceAll(s[1..], "__", "_");
        SqueezeCons(s[0], ReplaceAll(s[1..], "__", "_"));
        SqueezeCons(s[0], s[1..]);
      }
    }
  }

  /** The `while contains("__")` loop computes exactly the squeeze. */
  lemma {:induction false} CollapseIsSqueeze(s: string)
    ensures Collapse(s) == Squeeze(s)
    decreases |s|
  {
    if Contains(s, "__") {
      ReplaceAllLength(s, "__", "_");
      CollapseIsSqueeze(ReplaceAll(s, "__", "_"));
      ReplacePairKeepsSqueeze(s);
    } else {
      NotContainsPairIsNoDoubled(s, '_');
      SqueezeNoDoubled(s);
    }
  }

  function TrimLeading(s: string): (r: string)
    ensures |r| <= |s| && r == s[|s| - |r|..]
    ensures forall i :: 0 <= i < |s| - |r| ==> IsTrimChar(s[i])
    ensures r != [] ==> !IsTrimChar(r[0])
    ensures r == [] ==> forall i :: 0 <= i < |s| ==> IsTrimChar(s[i])
  {
    if s != [] && IsTrimChar(s[0]) then
      var t := s[1..];
      var r := TrimLeading(t);
      assert t[|t| - |r|..] == s[|s| - |r|..];
      forall i | 0 < i < |s| - |r| ensures IsTrimChar(s[i]) {
        assert s[i] == t[i - 1];
      }
      r
    else s
  }

  function TrimTrailing(s: string): (r: string)
    ensures |r| <= |s| && r == s[..|r|]
    ensures forall i :: |r| <= i < |s| ==> IsTrimChar(s[i])
    ensures r != [] ==> !IsTrimChar(r[|r| - 1])
    ensures r == [] ==> forall i :: 0 <= i < |s| ==> IsTrimChar(s[i])
  {
    if s != [] && IsTrimChar(s[|s| - 1]) then
      var t := s[..|s| - 1];
      var r := TrimTrailing(t);
      assert t[..|r|] == s[..|r|];
      forall i | |r| <= i < |s| - 1 ensures IsTrimChar(s[i]) {
        assert s[i] == t[i];
      }
      r
    else s
  }

  /** A piece of a name keeps it free of invalid characters and doubled `_`. */
  lemma SliceKeepsValid(s: string, lo: nat, hi: nat)
    requires lo <= hi <= |s|
    ensures NoInvalid(s) ==> NoInvalid(s[lo..hi])
    ensures NoDoubled(s, '_') ==> NoDoubled(s[lo..hi], '_')
  {
    var t := s[lo..hi];
    assert forall i :: 0 <= i < |t| ==> t[i] == s[lo + i];
  }

  /** A prefix of a suffix is a slice. */
  lemma SliceOfSuffix(s: string, k: nat, n: nat)
    requires k + n <= |s|
    ensures s[k..][..n] == s[k..k + n]
  {
  }

  /** `r` is the piece of `s` starting at `lo`, and everything of `s` outside it is `_` or space. */
  predicate TrimmedAt(s: string, r: string, lo: int) {
    && 0 <= lo && lo + |r| <= |s| && r == s[lo..lo + |r|]
    && (forall i :: 0 <= i < lo ==> IsTrimChar(s[i]))
    && (forall i :: lo + |r| <= i < |s| ==> IsTrimChar(s[i]))
  }

  /** Trimming the front, then the back, leaves the piece of `s` after the leading `_` and spaces. */
  lemma TrimBothEnds(s: string, lead: string, r: string)
    requires |lead| <= |s| && lead == s[|s| - |lead|..]
    requires forall i :: 0 <= i < |s| - |lead| ==> IsTrimChar(s[i])
    requires |r| <= |lead| && r == lead[..|r|]
    requires forall i :: |r| <= i < |lead| ==> IsTrimChar(lead[i])
    ensures TrimmedAt(s, r, |s| - |lead|)
  {
    var lo := |s| - |lead|;
    SliceOfSuffix(s, lo, |r|);
    forall i | lo + |r| <= i < |s| ensures IsTrimChar(s[i]) {
      assert s[i] == lead[i - lo];
    }
  }

  /** `trimmingCharacters(in: "_ ")`: a piece of the text with no `_` or space at either end. */
  function Trim(s: string): (r: string)
    ensures r != [] ==> !IsTrimChar(r[0]) && !IsTrimChar(r[|r| - 1])
    ensures r == [] <==> forall i :: 0 <= i < |s| ==> IsTrimChar(s[i])
    ensures exists lo :: TrimmedAt(s, r, lo)
  {
    var lead := TrimLeading(s);
    var r := TrimTrailing(lead);
    assert r != [] ==> r[0] == lead[0];
    assert lead != [] ==> r != [];
    TrimBothEnds(s, lead, r);
    r
  }

  /** Trimming keeps a name free of invalid characters and doubled `_`. */
  lemma TrimKeepsValid(s: string)
    ensures NoInvalid(s) ==> NoInvalid(Trim(s))
    ensures NoDoubled(s, '_') ==> NoDoubled(Trim(s), '_')
  {
    var lead := TrimLeading(s);
    var r := TrimTrailing(lead);
    SliceOfSuffix(s, |s| - |lead|, |r|);
    SliceKeepsValid(s, |s| - |lead|, |s| - |lead| + |r|);
  }

  /** Collapsing keeps the name free of invalid characters; a title of only invalid, `_` and space characters trims to nothing. */
  lemma CollapsedStaysValid(title: string)
    ensures NoInvalid(Collapse(ReplaceInvalid(title)))
    ensures (forall i :: 0 <= i < |title| ==> IsInvalidChar(title[i]) || IsTrimChar(title[i])) ==>
              Trim(Collapse(ReplaceInvalid(title))) == []
  {
    var replaced := ReplaceInvalid(title);
    var collapsed := Collapse(replaced);
    forall i | 0 <= i < |collapsed| ensures !IsInvalidChar(collapsed[i]) {
      if collapsed[i] != '_' {
        var j :| 0 <= j < |replaced| && replaced[j] == collapsed[i];
      }
    }
    if forall i :: 0 <= i < |title| ==> IsInvalidChar(title[i]) || IsTrimChar(title[i]) {
      forall i | 0 <= i < |collapsed| ensures IsTrimChar(collapsed[i]) {
        if collapsed[i] != '_' {
          var j :| 0 <= j < |replaced| && replaced[j] == collapsed[i];
        }
      }
      assert TrimLeading(collapsed) == [];
    }
  }

  /** The name `sanitizeFilename` produces, step by step. */
  function Sanitized(title: string): string {
    var trimmed := Trim(Collapse(ReplaceInvalid(title)));
    var cut := if |trimmed| > MaxFilenameLength then trimmed[..MaxFilenameLength] else trimmed;
    if cut == [] then FallbackFilename else cut
  }

  /** What makes a name safe: no invalid character, no doubled `_`, 1 to 200 characters, no `_` or space in front. */
  predicate IsSafeFilename(name: string) {
    && 0 < |name| <= MaxFilenameLength
    && NoInvalid(name) && NoDoubled(name, '_')
    && !IsTrimChar(name[0])
  }

  lemma FallbackIsSafe()
    ensures IsSafeFilename(FallbackFilename)
  {
  }

  /** Every sanitized name is safe; a title made only of invalid characters, `_` and spaces falls back to "Highlights". */
  lemma SanitizedIsSafe(title: string)
    ensures IsSafeFilename(Sanitized(title))
    ensures (forall i :: 0 <= i < |title| ==> IsInvalidChar(title[i]) || IsTrimChar(title[i])) ==>
              Sanitized(title) == FallbackFilename
  {
    CollapsedStaysValid(title);
    TrimKeepsValid(Collapse(ReplaceInvalid(title)));
    var trimmed := Trim(Collapse(ReplaceInvalid(title)));
    var cut := if |trimmed| > MaxFilenameLength then trimmed[..MaxFilenameLength] else trimmed;
    assert Sanitized(title) == if cut == [] then FallbackFilename else cut;
    if cut == [] {
      FallbackIsSafe();
    } else if |trimmed| > MaxFilenameLength {
      SliceKeepsValid(trimmed, 0, MaxFilenameLength);
      assert cut == trimmed[0..MaxFilenameLength];
    }
  }

  /** A name that is already safe, trimmed and short enough. */
  predicate IsCleanFilename(s: string) {
    IsSafeFilename(s) && !IsTrimChar(s[|s| - 1])
  }

  /** A clean name is its own sanitized form. */
  lemma SanitizedKeepsCleanNames(s: string)
    requires IsCleanFilename(s)
    ensures Sanitized(s) == s
  {
    ReplaceInvalidKeepsValid(s);
    NotContainsPairIsNoDoubled(s, '_');
    TrimKeepsTrimmed(s);
  }

  lemma ReplaceInvalidKeepsValid(s: string)
    requires NoInvalid(s)
    ensures ReplaceInvalid(s) == s
  {
    assert forall i :: 0 <= i < |s| ==> ReplaceInvalid(s)[i] == s[i];
  }

  lemma TrimKeepsTrimmed(s: string)
    requires s != [] && !IsTrimChar(s[0]) && !IsTrimChar(s[|s| - 1])
    ensures Trim(s) == s
  {
    assert TrimLeading(s) == s;
    assert TrimTrailing(s) == s;
  }

  /** `sanitizeFilename`, with its `while` loop. */
  method SanitizeFilename(filename: string) returns (sanitized: string)
    ensures sanitized == Sanitized(filename)
    ensures IsSafeFilename(sanitized)
  {
    SanitizedIsSafe(filename);
    sanitized := ReplaceInvalid(filename);
    ghost var replaced := sanitized;
    while Contains(sanitized, "__")
      invariant Collapse(sanitized) == Collapse(replaced)
      decreases |sanitized|
    {
      ReplaceAllLength(sanitized, "__", "_");
      sanitized := ReplaceAll(sanitized, "__", "_");
    }
    sanitized := Trim(sanitized);
    if |sanitized| > MaxFilenameLength {
      sanitized := sanitized[..MaxFilenameLength];
    }
    if sanitized == [] {
      sanitized := FallbackFilename;
    }
  }

  // ---------------------------------------------------------------------------
  // generateMarkdown
  // ---------------------------------------------------------------------------

  /** The date styles the document uses. */
  datatype DateStyle = ShortDate | MediumDate | MediumDateShortTime

  /** A German-locale date formatter. */
  type DateFormat = (DateStyle, Date) -> string

  /** The sort comparator: by page, then by date. */
  predicate Less(a: HighlightItem, b: HighlightItem) {
    if a.page != b.page then a.page < b.page else a.date < b.date
  }

  predicate SortedByPageThenDate(s: seq<HighlightItem>) {
    forall i, j :: 0 <= i < j < |s| ==> !Less(s[j], s[i])
  }

  function Insert(h: HighlightItem, s: seq<HighlightItem>): (r: seq<HighlightItem>)
    requires SortedByPageThenDate(s)
    ensures SortedByPageThenDate(r)
    ensures multiset(r) == multiset(s) + multiset{h}
  {
    if s == [] then [h]
    else if Less(h, s[0]) then [h] + s
    else
      var rest := Insert(h, s[1..]);
      assert s == [s[0]] + s[1..];
      NothingBelowFirst(s[0], h, s[1..], rest);
      [s[0]] + rest
  }

  /** A list made of `h` and the elements of `tail`, none of which sorts before `first`, has none either. */
  lemma NothingBelowFirst(first: HighlightItem, h: HighlightItem, tail: seq<HighlightItem>, rest: seq<HighlightItem>)
    requires !Less(h, first)
    requires forall j :: 0 <= j < |tail| ==> !Less(tail[j], first)
    requires multiset(rest) == multiset(tail) + multiset{h}
    ensures forall k :: 0 <= k < |rest| ==> !Less(rest[k], first)
  {
    forall k | 0 <= k < |rest| ensures !Less(rest[k], first) {
      var x := rest[k];
      assert x in multiset(rest);
      if x != h {
        assert x in multiset(tail);
        var j :| 0 <= j < |tail| && tail[j] == x;
      }
    }
  }

  /** `highlights.sorted { … }`: ordered by page, ties by date. */
  function SortHighlights(hs: seq<HighlightItem>): (r: seq<HighlightItem>)
    ensures SortedByPageThenDate(r)
    ensures multiset(r) == multiset(hs)
  {
    if hs == [] then []
    else
      assert hs == hs[..|hs| - 1] + [hs[|hs| - 1]];
      Insert(hs[|hs| - 1], SortHighlights(hs[..|hs| - 1]))
  }

  /** The parts of a highlight's meta line: page, chapter, date. */
  function MetaParts(h: HighlightItem, format: DateFormat): (parts: seq<string>)
    ensures parts != [] && parts[|parts| - 1] == format(ShortDate, h.date)
    ensures h.page > 0 ==> parts[0] == "Seite " + IntToString(h.page)
    ensures |parts| == 1 + (if h.page > 0 then 1 else 0)
                         + (if h.chapterTitle != "" || h.chapter > 0 then 1 else 0)
    ensures h.chapterTitle != "" ==> parts[|parts| - 2] == "Kapitel: " + h.chapterTitle
    ensures h.chapterTitle == "" && h.chapter > 0 ==> parts[|parts| - 2] == "Kapitel " + IntToString(h.chapter)
  {
    var page := if h.page > 0 then ["Seite " + IntToString(h.page)] else [];
    var chapter := if h.chapterTitle != "" then ["Kapitel: " + h.chapterTitle]
                   else if h.chapter > 0 then ["Kapitel " + IntToString(h.chapter)]
                   else [];
    page + chapter + [format(ShortDate, h.date)]
  }

  /** The quoted highlight text. */
  function QuoteLine(h: HighlightItem): string {
    "> " + h.text + "\n\n"
  }

  /** The italic meta line, written only when there are meta parts. */
  function MetaLine(meta: seq<string>): string {
    if meta != [] then "*— " + Join(meta, " · ") + "*\n\n" else ""
  }

  /** One highlight: the quoted text, then its meta line. */
  function HighlightBlock(h: HighlightItem, format: DateFormat): string {
    QuoteLine(h) + MetaLine(MetaParts(h, format))
  }

  function Blocks(hs: seq<HighlightItem>, format: DateFormat): (r: seq<string>)
    ensures |r| == |hs|
    ensures forall i :: 0 <= i < |hs| ==> r[i] == HighlightBlock(hs[i], format)
  {
    seq(|hs|, i requires 0 <= i < |hs| => HighlightBlock(hs[i], format))
  }

  /** The separator written between consecutive highlights. */
  const Separator := "---\n\n"

  /** The strings concatenated in order. */
  function Concat(parts: seq<string>): string {
    if parts == [] then "" else parts[0] + Concat(parts[1..])
  }

  /** Each part sits in the concatenation right after the parts before it. */
  lemma {:induction false} ConcatPlacesPart(parts: seq<string>, k: nat)
    requires k < |parts|
    ensures OccursAt(Concat(parts), parts[k], |Concat(parts[..k])|)
    decreases k
  {
    var whole := Concat(parts);
    if k == 0 {
      assert parts[..0] == [];
      assert whole[..|parts[0]|] == parts[0];
    } else {
      var rest := parts[1..];
      ConcatPlacesPart(rest, k - 1);
      assert parts[..k][1..] == rest[..k - 1];
      assert |Concat(parts[..k])| == |parts[0]| + |Concat(rest[..k - 1])|;
      var i := |Concat(rest[..k - 1])|;
      assert whole[|parts[0]| + i..|parts[0]| + i + |parts[k]|] == Concat(rest)[i..i + |parts[k]|];
    }
  }

  function TitleLine(book: BookPreview): string {
    "# " + book.title + "\n\n"
  }

  function CountLine(count: int): string {
    "**Anzahl Highlights:** " + IntToString(count) + "\n"
  }

  /** The header's lines: title, author, category, count, last highlight if known, export time, source. */
  function HeaderLines(book: BookPreview, count: int, now: Date, format: DateFormat): (lines: seq<string>)
    ensures |lines| == 9 && lines[0] == TitleLine(book) && lines[3] == CountLine(count)
  {
    [ TitleLine(book),
      "**Autor:** " + book.author + "\n",
      "**Kategorie:** " + book.category + "\n",
      CountLine(count),
      if book.lastHighlightAt.Some? then
        "**Letztes Highlight:** " + format(MediumDate, book.lastHighlightAt.value) + "\n"
      else "",
      "**Exportiert:** " + format(MediumDateShortTime, now) + "\n",
      "**Quelle:** ReadwiseHighApp\n",
      "\n---\n\n",
      "## Highlights\n\n" ]
  }

  function Header(book: BookPreview, count: int, now: Date, format: DateFormat): string {
    Concat(HeaderLines(book, count, now, format))
  }

  /** The header opens with the book's title and states the number of highlights. */
  lemma HeaderNamesTitleAndCount(book: BookPreview, count: int, now: Date, format: DateFormat)
    ensures IsPrefix(TitleLine(book), Header(book, count, now, format))
    ensures Contains(Header(book, count, now, format), CountLine(count))
  {
    var lines := HeaderLines(book, count, now, format);
    ConcatPlacesPart(lines, 0);
    assert lines[..0] == [];
    assert Header(book, count, now, format)[..|TitleLine(book)|]
           == Header(book, count, now, format)[0..0 + |TitleLine(book)|];
    ConcatPlacesPart(lines, 3);
    ContainsIffOccurs(Header(book, count, now, format), CountLine(count));
  }

  const Footer := "\n---\n\n*Exportiert aus Readwise via ReadwiseHighApp*\n"

  /** The document: header, the sorted highlights separated by `---`, footer. */
  function Markdown(book: BookPreview, hs: seq<HighlightItem>, now: Date, format: DateFormat): string {
    Header(book, |hs|, now, format) + Join(Blocks(SortHighlights(hs), format), Separator) + Footer
  }

  /** The highlights written so far: the first `i` blocks, with a separator after each but the last block of all. */
  function WrittenBlocks(blocks: seq<string>, i: nat): string
    requires i <= |blocks|
  {
    Join(blocks[..i], Separator) + (if 0 < i < |blocks| then Separator else "")
  }

  lemma WrittenBlocksStep(blocks: seq<string>, i: nat)
    requires i < |blocks|
    ensures WrittenBlocks(blocks, i + 1)
            == WrittenBlocks(blocks, i) + (blocks[i] + (if i < |blocks| - 1 then Separator else ""))
  {
    assert blocks[..i + 1] == blocks[..i] + [blocks[i]];
    if i > 0 {
      JoinSnoc(blocks[..i], blocks[i], Separator);
    } else {
      assert blocks[..1] == [blocks[0]];
    }
  }

  /** The meta parts of one highlight, gathered as the loop body does. */
  method CollectMetaParts(highlight: HighlightItem, format: DateFormat) returns (meta: seq<string>)
    ensures meta == MetaParts(highlight, format)
  {
    meta := [];
    if highlight.page > 0 {
      meta := meta + ["Seite " + IntToString(highlight.page)];
    }
    if highlight.chapterTitle != "" {
      meta := meta + ["Kapitel: " + highlight.chapterTitle];
    } else if highlight.chapter > 0 {
      meta := meta + ["Kapitel " + IntToString(highlight.chapter)];
    }
    meta := meta + [format(ShortDate, highlight.date)];
  }

  /** The loop body: the quoted text, the meta line, then the separator unless this is the last highlight. */
  method AppendHighlight(md: string, highlight: HighlightItem, format: DateFormat, isLast: bool)
    returns (out: string)
    ensures out == md + (HighlightBlock(highlight, format) + (if isLast then "" else Separator))
  {
    var quote := QuoteLine(highlight);
    var meta := CollectMetaParts(highlight, format);
    var metaLine := MetaLine(meta);
    out := md + quote;
    out := out + metaLine;
    assert out == md + (quote + metaLine);
    if !isLast {
      out := out + Separator;
      assert out == md + (quote + metaLine + Separator);
    }
  }

  /** The loop of `generateMarkdown` over the sorted highlights: each block, with `---` between consecutive ones. */
  method WriteBlocks(sorted: seq<HighlightItem>, format: DateFormat) returns (out: string)
    ensures out == Join(Blocks(sorted, format), Separator)
  {
    out := "";
    ghost var blocks := Blocks(sorted, format);
    for index := 0 to |sorted|
      invariant out == WrittenBlocks(blocks, index)
    {
      out := AppendHighlight(out, sorted[index], format, index == |sorted| - 1);
      WrittenBlocksStep(blocks, index);
    }
    assert blocks[..|sorted|] == blocks;
  }

  /** `generateMarkdown(for:highlights:)`: the header, the sorted highlights, the footer. */
  method GenerateMarkdown(book: BookPreview, highlights: seq<HighlightItem>, now: Date,
                          format: DateFormat) returns (md: string)
    ensures md == Markdown(book, highlights, now, format)
  {
    md := Header(book, |highlights|, now, format);
    var sorted := SortHighlights(highlights);
    var blocks := WriteBlocks(sorted, format);
    md := md + blocks;
    md := md + Footer;
  }

  // ---------------------------------------------------------------------------
  // The export
  // ---------------------------------------------------------------------------

  /** `FabricExportError`. */
  datatype FabricExportError = NoExportDirectory | NoHighlights | WriteError(message: string) | AccessDenied

  /** How writing the file went: written, the write threw, or setting its protection threw. */
  datatype WriteOutcome = Written | WriteFailed(message: string) | ProtectionFailed(message: string)

  /** `exportDir.appendingPathComponent("<name>.md")`. */
  function ExportPath(dir: string, name: string): string {
    dir + "/" + name + ".md"
  }

  class FabricExportService {
    /** Readwise id of each exported book to the time of its last export. */
    var exportedBooks: map<int, Date>
    /** The Markdown files written into export directories, by path. */
    var files: map<string, string>

    constructor (exportedBooks: map<int, Date>)
      ensures this.exportedBooks == exportedBooks && files == map[]
    {
      this.exportedBooks := exportedBooks;
      files := map[];
    }

    /** `lastExportDate(for:)`. */
    function LastExportDate(bookId: int): (r: Option<Date>)
      reads this
      ensures r.Some? <==> bookId in exportedBooks
      ensures r.Some? ==> r.value == exportedBooks[bookId]
    {
      if bookId in exportedBooks then Some(exportedBooks[bookId]) else None
    }

    /**
     * `exportHighlights(for:highlights:completion:)`: no directory, then no
     * highlights, are reported before anything is written; a written file
     * replaces any earlier export of the same title, and only a fully
     * successful export of a book with a Readwise id records its time.
     */
    method ExportHighlights(book: BookPreview, highlights: seq<HighlightItem>,
                            exportDir: Option<string>, write: WriteOutcome,
                            now: Date, format: DateFormat)
      returns (r: Result<string, FabricExportError>)
      modifies this
      ensures exportDir.None? ==>
                r == Failure(NoExportDirectory) && files == old(files) && exportedBooks == old(exportedBooks)
      ensures exportDir.Some? && highlights == [] ==>
                r == Failure(NoHighlights) && files == old(files) && exportedBooks == old(exportedBooks)
      ensures exportDir.Some? && highlights != [] ==>
                var path := ExportPath(exportDir.value, Sanitized(book.title));
                var content := Markdown(book, highlights, now, format);
                match write
                case Written =>
                  && r == Success(path)
                  && files == old(files)[path := content]
                  && exportedBooks == (if book.readwiseId.Some?
                                       then old(exportedBooks)[book.readwiseId.value := now]
                                       else old(exportedBooks))
                case WriteFailed(m) =>
                  r == Failure(WriteError(m)) && files == old(files) && exportedBooks == old(exportedBooks)
                case ProtectionFailed(m) =>
                  && r == Failure(WriteError(m))
                  && files == old(files)[path := content] && exportedBooks == old(exportedBooks)
    {
      if exportDir.None? {
        return Failure(NoExportDirectory);
      }
      if highlights == [] {
        return Failure(NoHighlights);
      }
      var safeTitle := SanitizeFilename(book.title);
      var fileURL := ExportPath(exportDir.value, safeTitle);
      var markdownContent := GenerateMarkdown(book, highlights, now, format);
      r := StoreExport(fileURL, markdownContent, write, book.readwiseId, now);
    }

    /**
     * Writing the document: a failed write changes nothing; a failure to set
     * the file's protection leaves the file written but reports the error;
     * only a full success records the export time of a book with an id.
     */
    method StoreExport(fileURL: string, markdownContent: string, write: WriteOutcome,
                       readwiseId: Option<int>, now: Date)
      returns (r: Result<string, FabricExportError>)
      modifies this
      ensures write.WriteFailed? ==>
                r == Failure(WriteError(write.message)) && files == old(files) && exportedBooks == old(exportedBooks)
      ensures write.ProtectionFailed? ==>
                && r == Failure(WriteError(write.message))
                && files == old(files)[fileURL := markdownContent] && exportedBooks == old(exportedBooks)
      ensures write.Written? ==>
                && r == Success(fileURL)
                && files == old(files)[fileURL := markdownContent]
                && exportedBooks == (if readwiseId.Some? then old(exportedBooks)[readwiseId.value := now]
                                     else old(exportedBooks))
    {
      if write.WriteFailed? {
        return Failure(WriteError(write.message));
      }
      files := files[fileURL := markdownContent];
      if write.ProtectionFailed? {
        return Failure(WriteError(write.message));
      }
      if readwiseId.Some? {
        exportedBooks := exportedBooks[readwiseId.value := now];
      }
      r := Success(fileURL);
    }
  }

  /** `FabricExportResult`: what the UI reports after an export. */
  datatype FabricExportResult = FabricExportResult(fileURL: string, filename: string,
                                                   highlightCount: int, isUpdate: bool)

  /** `FabricExportResult.message`. */
  function Message(r: FabricExportResult): (m: string)
    ensures m == IntToString(r.highlightCount) + " Highlights "
                 + (if r.isUpdate then "aktualisiert in '" else "exportiert nach '") + r.filename + "'"
    ensures IsPrefix(IntToString(r.highlightCount) + " Highlights ", m)
    ensures IsPrefix(if r.isUpdate then "aktualisiert in '" else "exportiert nach '",
                     m[|IntToString(r.highlightCount) + " Highlights "|..])
  {
    var lead := IntToString(r.highlightCount) + " Highlights ";
    var verb := if r.isUpdate then "aktualisiert in '" else "exportiert nach '";
    var m := lead + verb + r.filename + "'";
    assert m == lead + (verb + r.filename + "'");
    assert m[..|lead|] == lead;
    assert m[|lead|..] == verb + r.filename + "'";
    assert (verb + r.filename + "'")[..|verb|] == verb;
    m
  }

  /** An update and a first export of the same file are reported differently. */
  lemma MessageTellsUpdateApart(r: FabricExportResult)
    ensures Message(r.(isUpdate := true)) != Message(r.(isUpdate := false))
  {
    var n := |IntToString(r.highlightCount) + " Highlights "|;
    assert Message(r.(isUpdate := true))[n..][0] == 'a';
    assert Message(r.(isUpdate := false))[n..][0] == 'e';
  }
}
