/**
 * The list logic of `MainContentView`: the category chips offered above
 * the book grid, which chip is selected, and the books the grid shows for
 * a search text and a selected category.
 */
module MainContent {
  import opened Wrappers
  import opened Text
  import opened Models

  /** The chip that stands for "no category filter". */
  const AllChip := "Alle"

  // ---------------------------------------------------------------------------
  // categoryList
  // ---------------------------------------------------------------------------

  /** Inserts `x` into an ascending duplicate-free list, keeping it so. */
  function InsertSorted(x: string, xs: seq<string>): (r: seq<string>)
    requires StrictlySorted(xs)
    ensures StrictlySorted(r)
    ensures forall s :: s in r <==> s in xs || s == x
  {
    if xs == [] then [x]
    else if x == xs[0] then xs
    else if StrLess(x, xs[0]) then
      assert forall j :: 0 < j < |xs| ==> StrLess(x, xs[j]) by {
        forall j | 0 < j < |xs| ensures StrLess(x, xs[j]) {
          StrLessTransitive(x, xs[0], xs[j]);
        }
      }
      [x] + xs
    else
      StrLessTotal(x, xs[0]);
      var rest := InsertSorted(x, xs[1..]);
      assert forall s :: s in rest ==> StrLess(xs[0], s);
      [xs[0]] + rest
  }

  /** `Set(categories).sorted()`: the distinct values in ascending order. */
  function SortedDistinct(xs: seq<string>): (r: seq<string>)
    ensures StrictlySorted(r)
    ensures forall s :: s in r <==> s in xs
  {
    if xs == [] then []
    else
      var init := xs[..|xs| - 1];
      assert xs == init + [xs[|xs| - 1]];
      InsertSorted(xs[|xs| - 1], SortedDistinct(init))
  }

  function CategoriesOf(books: seq<BookPreview>): (cs: seq<string>)
    ensures |cs| == |books|
    ensures forall i :: 0 <= i < |books| ==> cs[i] == books[i].category
  {
    seq(|books|, i requires 0 <= i < |books| => books[i].category)
  }

  /** A category some loaded book has. */
  predicate IsCategoryOf(books: seq<BookPreview>, c: string) {
    exists i :: 0 <= i < |books| && books[i].category == c
  }

  /** `categoryList`: "Alle", then every category of the books once, ascending. */
  function CategoryList(books: seq<BookPreview>): (r: seq<string>)
    ensures |r| >= 1 && r[0] == AllChip
    ensures StrictlySorted(r[1..])
    ensures forall c :: c in r[1..] <==> IsCategoryOf(books, c)
  {
    var cs := CategoriesOf(books);
    var sorted := SortedDistinct(cs);
    var r := [AllChip] + sorted;
    assert r[1..] == sorted;
    forall c ensures c in sorted <==> IsCategoryOf(books, c) {
      if c in cs {
        var i :| 0 <= i < |cs| && cs[i] == c;
      }
      if IsCategoryOf(books, c) {
        var i :| 0 <= i < |books| && books[i].category == c;
        assert cs[i] == c;
      }
    }
    r
  }

  /** The chips after "Alle" are the only ascending duplicate-free listing of the books' categories. */
  lemma CategoryListIsTheSortedSet(books: seq<BookPreview>, listing: seq<string>)
    requires StrictlySorted(listing)
    requires forall c :: c in listing <==> IsCategoryOf(books, c)
    ensures CategoryList(books) == [AllChip] + listing
  {
    var r := CategoryList(books);
    StrictlySortedUnique(r[1..], listing);
    assert r == [r[0]] + r[1..];
  }

  // ---------------------------------------------------------------------------
  // filteredBooks
  // ---------------------------------------------------------------------------

  /** `a` is `b` with some elements left out, the rest in their order. */
  predicate IsSubsequence<T(==)>(a: seq<T>, b: seq<T>)
    decreases |b|
  {
    if a == [] then true
    else if b == [] then false
    else (a[0] == b[0] && IsSubsequence(a[1..], b[1..])) || IsSubsequence(a, b[1..])
  }

  /** The search text occurs in the title or in the author, ignoring case. */
  predicate MatchesSearch(b: BookPreview, searchText: string) {
    CaseInsensitiveContains(b.title, searchText) || CaseInsensitiveContains(b.author, searchText)
  }

  function FilterBySearch(books: seq<BookPreview>, searchText: string): (r: seq<BookPreview>)
    ensures IsSubsequence(r, books)
    ensures forall b :: b in r <==> b in books && MatchesSearch(b, searchText)
    ensures forall b :: multiset(r)[b] == if MatchesSearch(b, searchText) then multiset(books)[b] else 0
  {
    if books == [] then []
    else
      assert books == [books[0]] + books[1..];
      if MatchesSearch(books[0], searchText) then [books[0]] + FilterBySearch(books[1..], searchText)
      else FilterBySearch(books[1..], searchText)
  }

  function FilterByCategory(books: seq<BookPreview>, category: string): (r: seq<BookPreview>)
    ensures IsSubsequence(r, books)
    ensures forall b :: b in r <==> b in books && b.category == category
    ensures forall b :: multiset(r)[b] == if b.category == category then multiset(books)[b] else 0
  {
    if books == [] then []
    else
      assert books == [books[0]] + books[1..];
      if books[0].category == category then [books[0]] + FilterByCategory(books[1..], category)
      else FilterByCategory(books[1..], category)
  }

  lemma {:induction false} SubsequenceTransitive<T>(a: seq<T>, b: seq<T>, c: seq<T>)
    requires IsSubsequence(a, b) && IsSubsequence(b, c)
    ensures IsSubsequence(a, c)
    decreases |c|
  {
    if a != [] && b != [] && c != [] {
      if b[0] == c[0] && IsSubsequence(b[1..], c[1..]) {
        if a[0] == b[0] && IsSubsequence(a[1..], b[1..]) {
          SubsequenceTransitive(a[1..], b[1..], c[1..]);
        } else {
          SubsequenceTransitive(a, b[1..], c[1..]);
        }
      } else {
        SubsequenceTransitive(a, b, c[1..]);
      }
    }
  }

  /** The category filter is active: a category other than "Alle" is selected. */
  predicate FiltersCategory(selectedCategory: Option<string>) {
    selectedCategory.Some? && selectedCategory.value != AllChip
  }

  /** `filteredBooks`: the loaded books that match the search and the selected category. */
  function FilteredBooks(books: seq<BookPreview>, searchText: string, selectedCategory: Option<string>)
    : (r: seq<BookPreview>)
    ensures IsSubsequence(r, books)
    ensures forall b :: b in r <==>
              && b in books
              && (searchText != "" ==> MatchesSearch(b, searchText))
              && (FiltersCategory(selectedCategory) ==> b.category == selectedCategory.value)
    ensures forall b :: multiset(r)[b] ==
              if && (searchText != "" ==> MatchesSearch(b, searchText))
                 && (FiltersCategory(selectedCategory) ==> b.category == selectedCategory.value)
              then multiset(books)[b] else 0
    ensures searchText == "" && !FiltersCategory(selectedCategory) ==> r == books
  {
    var afterSearch := if searchText != "" then FilterBySearch(books, searchText) else books;
    assert IsSubsequence(afterSearch, books) by { if searchText == "" { SubsequenceReflexive(books); } }
    if FiltersCategory(selectedCategory) then
      var r := FilterByCategory(afterSearch, selectedCategory.value);
      SubsequenceTransitive(r, afterSearch, books);
      r
    else afterSearch
  }

  lemma {:induction false} SubsequenceReflexive<T>(a: seq<T>)
    ensures IsSubsequence(a, a)
    decreases |a|
  {
    if a != [] { SubsequenceReflexive(a[1..]); }
  }

  // ---------------------------------------------------------------------------
  // Category chips
  // ---------------------------------------------------------------------------

  /** Whether a chip is drawn as selected. */
  predicate IsChipSelected(selectedCategory: Option<string>, chip: string) {
    (selectedCategory.None? && chip == AllChip) || selectedCategory == Some(chip)
  }

  /** The selection after tapping a chip: "Alle" clears it. */
  function TapChip(chip: string): (selectedCategory: Option<string>)
    ensures selectedCategory.None? <==> chip == AllChip
  {
    if chip == AllChip then None else Some(chip)
  }

  /** After tapping a chip, exactly that chip is drawn as selected. */
  lemma TapSelectsExactlyThatChip(chip: string, other: string)
    ensures IsChipSelected(TapChip(chip), other) <==> other == chip
  {
  }

  /** Tapping a chip shows exactly the books of its category; tapping "Alle" shows all books. */
  lemma TapChipFilters(books: seq<BookPreview>, chip: string)
    ensures chip == AllChip ==> FilteredBooks(books, "", TapChip(chip)) == books
    ensures chip != AllChip ==> FilteredBooks(books, "", TapChip(chip)) == FilterByCategory(books, chip)
  {
  }
}
