# ReadwiseHighApp core, modelled in Dafny

ReadwiseHighApp is a SwiftUI client for a reading-highlights service. It lists
the user's books, shows each book's highlights and exports them as Markdown.
This project models the app's logic and proves properties of it:

- the client of the service: API key lookup and the guard chain that turns a
  response into a decoded body or a `ValidationError` (`APIService`);
- the shared value types and their hand-written equality (`Models`);
- the data manager: its loading state machine, its overlapping-load guard,
  the mapping of service records to UI models, and its German error messages
  (`DataManager`);
- the book detail view model: loading one book's highlights and the text
  offered for copying (`BookDetail`);
- the list logic of the main view: category chips and book filtering
  (`MainContent`);
- the search match and detail line of a highlight card (`HighlightCard`);
- the Markdown export: the safe file name, the generated document, the
  export with its error order and the map of export times (`FabricExport`);
- the two-tier image cache: key derivation, memory → disk → network lookup,
  clearing and the age sweep (`ImageCache`);
- the connectivity monitor: connection state, the one-shot restore timer and
  the FIFO queue of work deferred while offline (`Network`).

Where the app changes state in place, the model is a class with the same
fields and `modifies` clauses: `ImageCacheManager`, `NetworkMonitor`,
`FabricExportService`, `ReadwiseDataManager` and `BookDetailViewModel`.
Loops in the source are `while`/`for` loops proved against specification
functions:
- `sanitizeFilename` (against `Sanitized`);
- `generateMarkdown` (against `Markdown`);
- `processPendingRequests` (against `RunAll`);
- `clearCache` (against `Cleared`);
- `cleanOldCacheFiles` (against `Swept`).

Pure code becomes functions and lemmas.

Asynchronous completions are separate methods that receive the outcome as a
parameter. Other external effects are parameters too: the clock, the
network, the keychain read, file writes and directory listings, the date
parsers and formatters, SHA-256 and the image codec.

Source paths below are relative to the repository root.

## Model

| member | source | states |
|---|---|---|
| Models.IsLoading | ReadwiseHighApp/Models.swift:13-20 | a state is loading exactly when it is `loadingBooks` or `loadingHighlights` |
| Models.LoadingStateEquals | ReadwiseHighApp/Models.swift:22-33 | the hand-written `==` holds exactly when both states are the same case with the same error message |
| Models.ValidationErrorEquals | ReadwiseHighApp/Models.swift:46-58 | the hand-written `==` holds exactly when both errors are the same case with the same code or message |
| Models.NewBookPreview | ReadwiseHighApp/Models.swift:73-83 | the book's id is its Readwise id, or -1 without one; every other field is stored as given |
| APIService.GetAPIKey | ReadwiseHighApp/Services/ReadwiseAPIService.swift:98-104 | a failed keychain read yields the empty key; otherwise the stored text |
| APIService.HasAPIKey | ReadwiseHighApp/Services/ReadwiseAPIService.swift:112-114 | a key is present exactly when the read succeeded with a non-empty text |
| APIService.Classify | ReadwiseHighApp/Services/ReadwiseAPIService.swift:135-165 | success exactly when there is no transport error, the response is HTTP with a 2xx status, and the body is present and decodes; the result is then the decoded body. A transport error wins over everything else. A non-HTTP response means `invalidResponse`. 401 means `invalidKey`, and any other non-2xx status means `serverError` with that code. A 2xx without a body means `noData`, and a body that does not decode means `invalidResponse`. The chain never yields `noKey` or `invalidURL` |
| APIService.FetchBooks | ReadwiseHighApp/Services/ReadwiseAPIService.swift:120-167 | without a key nothing is requested and the result is `noKey`; with a key the books URL is requested and the response classified. A success implies a key and a 2xx HTTP status |
| APIService.FetchHighlightsForBook | ReadwiseHighApp/Services/ReadwiseAPIService.swift:171-224 | the same key guard and classification, requesting the highlights URL of the book |
| APIService.HighlightsQuery | ReadwiseHighApp/Services/ReadwiseAPIService.swift:177-182 | the query is exactly one item, named `book_id`, whose value is the id's decimal text |
| APIService.HighlightsQueryDistinct | ReadwiseHighApp/Services/ReadwiseAPIService.swift:177-182 | different books are asked for with different queries and different URLs |
| DataManager.ParseDate | ReadwiseHighApp/Services/ReadwiseDataManager.swift:120-126 | a date parses when either formatter accepts it, and the fractional-seconds formatter is preferred |
| DataManager.CoverURL | ReadwiseHighApp/Services/ReadwiseDataManager.swift:128-148 | a cover URL exists exactly when the record carries a non-empty address; it is that address |
| DataManager.MapBook | ReadwiseHighApp/Services/ReadwiseDataManager.swift:128-148 | the book keeps the record's id as both id and Readwise id, with its title, category, count and cover. A missing author becomes "Unbekannt". The last-highlight date is known exactly when the record has one that parses, and it is then the parsed date |
| DataManager.MapBooks | ReadwiseHighApp/Services/ReadwiseDataManager.swift:116-149 | one book per record, same count and order |
| DataManager.PageOf | ReadwiseHighApp/Services/ReadwiseDataManager.swift:174-177 | the page is the location when the location type is "page" and a location exists, otherwise 0 |
| DataManager.MapHighlight | ReadwiseHighApp/Services/ReadwiseDataManager.swift:180-189 | text and ids are copied, chapter 0 and empty chapter title; a missing or unparsable date becomes the current time |
| DataManager.MapHighlights | ReadwiseHighApp/Services/ReadwiseDataManager.swift:152-191 | one item per record, same count and order |
| DataManager.MappedHighlightsKeepBook | ReadwiseHighApp/Services/ReadwiseDataManager.swift:180-189 | highlights mapped from records of one book all name that book |
| DataManager.ErrorMessageInjective | ReadwiseHighApp/Services/ReadwiseDataManager.swift:195-218 | the per-case messages of `handleAPIError` are pairwise different: the message determines the error |
| DataManager.ReadwiseDataManager.constructor | ReadwiseHighApp/Services/ReadwiseDataManager.swift:18-22 | starts idle with nothing loaded; the key view is shown exactly when no key is stored |
| DataManager.ReadwiseDataManager.UpdateAPIKeyViewState | ReadwiseHighApp/Services/ReadwiseDataManager.swift:34-36 | `shouldShowAPIKeyView` becomes "no key stored"; nothing else changes |
| DataManager.ReadwiseDataManager.ShowAPIKeyViewNotification | ReadwiseHighApp/Services/ReadwiseDataManager.swift:24-31 | the notification sets `shouldShowAPIKeyView`; nothing else changes |
| DataManager.ReadwiseDataManager.LoadBooks | ReadwiseHighApp/Services/ReadwiseDataManager.swift:41-53 | a load starts exactly when none is in flight, and the state becomes `loadingBooks`; otherwise nothing changes |
| DataManager.ReadwiseDataManager.RefreshData | ReadwiseHighApp/Services/ReadwiseDataManager.swift:230-233 | behaves as `loadBooks` |
| DataManager.ReadwiseDataManager.CompleteLoadBooks | ReadwiseHighApp/Services/ReadwiseDataManager.swift:55-71 | success: idle, the mapped books, and the update time set. Key error: idle and the key view requested. Other error: `.error(description)`. A failure keeps the books and the update time |
| DataManager.ReadwiseDataManager.HandleAPIError | ReadwiseHighApp/Services/ReadwiseDataManager.swift:195-221 | the state becomes the error's message; the key view is requested exactly for `noKey`/`invalidKey`, and is otherwise left as it was |
| DataManager.ReadwiseDataManager.LoadHighlights | ReadwiseHighApp/Services/ReadwiseDataManager.swift:79-96 | without a key nothing is requested, `noKey` is handled and reported at once. With a key the book's highlights URL is requested and the state is untouched |
| DataManager.ReadwiseDataManager.CompleteLoadHighlights | ReadwiseHighApp/Services/ReadwiseDataManager.swift:98-108 | success passes on the mapped highlights; a failure is handled (message, key view) and passed on |
| DataManager.NoOverlappingLoads | ReadwiseHighApp/Services/ReadwiseDataManager.swift:43-49 | a second `loadBooks` while the first is in flight does not start |
| BookDetail.Entry | ReadwiseHighApp/ViewModels/BookDetailViewModel.swift:26-35 | an entry is the quoted text, followed by "\nKapitel: " and the chapter title exactly when that title is non-empty |
| BookDetail.Entries | ReadwiseHighApp/ViewModels/BookDetailViewModel.swift:26-35 | one entry per highlight, in order |
| BookDetail.AllHighlightsText | ReadwiseHighApp/ViewModels/BookDetailViewModel.swift:26-35 | no highlights give the empty text; the text opens with the first highlight's entry, and one highlight is its entry alone |
| BookDetail.AllHighlightsTextSnoc | ReadwiseHighApp/ViewModels/BookDetailViewModel.swift:26-35 | one highlight is its entry alone; each further highlight adds the "----------" separator and its entry at the end |
| BookDetail.BookDetailViewModel.constructor | ReadwiseHighApp/ViewModels/BookDetailViewModel.swift:38-43 | starts with no highlights, not loading, no error |
| BookDetail.BookDetailViewModel.FilteredHighlights | ReadwiseHighApp/ViewModels/BookDetailViewModel.swift:20-24 | every loaded highlight, unfiltered |
| BookDetail.BookDetailViewModel.AllText | ReadwiseHighApp/ViewModels/BookDetailViewModel.swift:26-35 | `allHighlightsText` is the joined entries of all loaded highlights, and empty when none are loaded |
| BookDetail.BookDetailViewModel.Complete | ReadwiseHighApp/ViewModels/BookDetailViewModel.swift:72-81 | the loading flag is cleared. Success stores the highlights and clears the error. A failure sets "Fehler: …" and leaves the list empty after a load |
| BookDetail.BookDetailViewModel.LoadHighlights | ReadwiseHighApp/ViewModels/BookDetailViewModel.swift:47-84 | a book without id gets "Buch-ID nicht gefunden." and no load starts. A load in flight makes it a no-op. Otherwise the flag is set and the list and error are cleared before the request. Without a key the completion runs at once. The data manager's last update and fully loaded books are never touched. Its key-view flag stays as it was unless the key is missing |
| BookDetail.BookDetailViewModel.ReceiveHighlights | ReadwiseHighApp/ViewModels/BookDetailViewModel.swift:72-81 | the service's answer, mapped by the data manager, ends the load. On success it shows the mapped highlights and leaves the data manager's state as it was. On failure it shows "Fehler: " and the error and keeps the (cleared) list. The data manager then reports the error's message and raises the key view for a key error. The last update and fully loaded books never change |
| MainContent.InsertSorted | ReadwiseHighApp/Views/MainContentView.swift:19-24 | inserting into an ascending duplicate-free list keeps it so, with exactly one more element value |
| MainContent.SortedDistinct | ReadwiseHighApp/Views/MainContentView.swift:21-23 | `Set(…).sorted()`: ascending, no duplicates, the same values |
| MainContent.CategoryList | ReadwiseHighApp/Views/MainContentView.swift:19-24 | "Alle" first, then strictly ascending exactly the categories some book has |
| MainContent.CategoryListIsTheSortedSet | ReadwiseHighApp/Views/MainContentView.swift:19-24 | the chips after "Alle" are the only ascending duplicate-free listing of the books' categories |
| MainContent.FilterBySearch | ReadwiseHighApp/Views/MainContentView.swift:31-36 | an order-preserving sub-list holding exactly the books whose title or author contains the search, ignoring case, each as often as in the input |
| MainContent.FilterByCategory | ReadwiseHighApp/Views/MainContentView.swift:39-41 | an order-preserving sub-list holding exactly the books of the category, each as often as in the input |
| MainContent.FilteredBooks | ReadwiseHighApp/Views/MainContentView.swift:27-44 | an order-preserving sub-list of the loaded books. It holds exactly the books that match the search when there is one, and the category when one other than "Alle" is selected, each as often as in the input. With neither, it is all books |
| MainContent.SubsequenceTransitive | ReadwiseHighApp/Views/MainContentView.swift:27-44 | filtering a filtered list keeps it a sub-list of the original |
| MainContent.TapChip | ReadwiseHighApp/Views/MainContentView.swift:69-71 | tapping "Alle" clears the selection; any other chip selects it |
| MainContent.TapSelectsExactlyThatChip | ReadwiseHighApp/Views/MainContentView.swift:68-71 | after a tap exactly the tapped chip is drawn selected |
| MainContent.TapChipFilters | ReadwiseHighApp/Views/MainContentView.swift:27-44 | tapping a chip shows exactly its category's books; "Alle" shows all |
| HighlightCard.IsMatchingSearch | ReadwiseHighApp/Views/Components/HighlightCard.swift:11-18 | never matches an empty search. Otherwise it matches exactly when the search occurs, ignoring case, in the text or the chapter title |
| HighlightCard.MatchingTextIsHighlighted | ReadwiseHighApp/Views/Components/HighlightCard.swift:11-18 | a non-empty search occurring in the text, ignoring case, marks the card |
| HighlightCard.DetailParts | ReadwiseHighApp/Views/Components/HighlightCard.swift:22-30 | a chapter part exactly when there is a chapter title, a page part exactly when the page is positive, chapter first |
| HighlightCard.DetailText | ReadwiseHighApp/Views/Components/HighlightCard.swift:21-35 | no line exactly when the chapter title is empty and the page is not positive. Otherwise "Kapitel: t", "Seite p" or "Kapitel: t \| Seite p" |
| FabricExport.ReplaceInvalid | ReadwiseHighApp/Services/FabricExportService.swift:301-303 | each invalid character becomes `_`, everything else is kept, length unchanged |
| FabricExport.Collapse | ReadwiseHighApp/Services/FabricExportService.swift:304-307 | the result has no doubled `_` and no character not already present except `_`; a text without "__" is unchanged |
| FabricExport.CollapseIsSqueeze | ReadwiseHighApp/Services/FabricExportService.swift:304-307 | the loop gives exactly the reference `Squeeze`: every run of `_` becomes one `_`, and all other characters stay in order |
| FabricExport.Trim | ReadwiseHighApp/Services/FabricExportService.swift:310 | the result is a piece of the text with only `_` and spaces outside it, and no `_` or space at either end; empty exactly when only such characters were present |
| FabricExport.TrimKeepsValid | ReadwiseHighApp/Services/FabricExportService.swift:310 | trimming introduces no invalid character and no doubled `_` |
| FabricExport.SanitizedIsSafe | ReadwiseHighApp/Services/FabricExportService.swift:299-323 | every sanitized name has 1 to 200 characters, no invalid character, no "__", and no `_` or space in front. A title of only invalid characters, `_` and spaces gives "Highlights" |
| FabricExport.SanitizedKeepsCleanNames | ReadwiseHighApp/Services/FabricExportService.swift:299-323 | a name that is already safe and trimmed is left unchanged (the rewrite is idempotent on its clean outputs) |
| FabricExport.SanitizeFilename | ReadwiseHighApp/Services/FabricExportService.swift:299-323 | the loop computes the sanitized name, which is therefore safe |
| FabricExport.Insert | ReadwiseHighApp/Services/FabricExportService.swift:252-257 | inserting into a list sorted by page, then date, keeps it sorted and adds exactly that highlight |
| FabricExport.SortHighlights | ReadwiseHighApp/Services/FabricExportService.swift:252-257 | sorted by page ascending, ties by date ascending, and a permutation of the input |
| FabricExport.MetaParts | ReadwiseHighApp/Services/FabricExportService.swift:264-283 | "Seite p" first exactly when the page is positive. A chapter part just before the date: "Kapitel: <title>" when there is a title, else "Kapitel <n>" for a positive chapter number. The date is always last, so the meta line is never empty |
| FabricExport.Blocks | ReadwiseHighApp/Services/FabricExportService.swift:259-289 | one block per sorted highlight, in order |
| FabricExport.ConcatPlacesPart | ReadwiseHighApp/Services/FabricExportService.swift:223-249 | each header line sits in the header right after the lines before it |
| FabricExport.HeaderLines | ReadwiseHighApp/Services/FabricExportService.swift:223-249 | nine lines, the title line first and the count line fourth |
| FabricExport.HeaderNamesTitleAndCount | ReadwiseHighApp/Services/FabricExportService.swift:223-228 | the document opens with "# <title>" and contains "**Anzahl Highlights:** <n>" |
| FabricExport.WrittenBlocksStep | ReadwiseHighApp/Services/FabricExportService.swift:286-288 | each highlight appends its block, then "---" unless it is the last |
| FabricExport.CollectMetaParts | ReadwiseHighApp/Services/FabricExportService.swift:264-283 | the loop body gathers exactly the meta parts |
| FabricExport.AppendHighlight | ReadwiseHighApp/Services/FabricExportService.swift:260-288 | one iteration appends the highlight's block, then "---" unless it is the last |
| FabricExport.WriteBlocks | ReadwiseHighApp/Services/FabricExportService.swift:259-289 | the loop writes the blocks joined by "---", with none after the last |
| FabricExport.GenerateMarkdown | ReadwiseHighApp/Services/FabricExportService.swift:219-296 | the document is the header, then the sorted highlights' blocks joined by "---" (none after the last), then the footer |
| FabricExport.FabricExportService.constructor | ReadwiseHighApp/Services/FabricExportService.swift:179-181 | starts from the stored export times and no written files |
| FabricExport.FabricExportService.LastExportDate | ReadwiseHighApp/Services/FabricExportService.swift:179-181 | a date exactly for an exported book, the one recorded |
| FabricExport.FabricExportService.ExportHighlights | ReadwiseHighApp/Services/FabricExportService.swift:115-174 | a missing directory is reported before an empty list, both before anything is written. The file is `<dir>/<sanitized title>.md` with the generated document, replacing an earlier export of the title. A failed write changes nothing. A failed protection step leaves the file but reports the error. Only a full success records the time, and only for a book with a Readwise id |
| FabricExport.FabricExportService.StoreExport | ReadwiseHighApp/Services/FabricExportService.swift:145-172 | the write outcomes as above, for a given path and content |
| FabricExport.Message | ReadwiseHighApp/Services/FabricExportService.swift:358-364 | the whole message: "<n> Highlights ", then "aktualisiert in '" for an update or "exportiert nach '" for a first export, then the file name and a closing quote |
| FabricExport.MessageTellsUpdateApart | ReadwiseHighApp/Services/FabricExportService.swift:358-364 | an update and a first export of the same file give different messages |
| ImageCache.HexEncode | ReadwiseHighApp/Utils/ImageCacheManager.swift:115-116 | two lower-case hex digits per byte |
| ImageCache.HexRoundTrip | ReadwiseHighApp/Utils/ImageCacheManager.swift:115-116 | the hex text decodes back to the bytes |
| ImageCache.DigestCacheKey | ReadwiseHighApp/Utils/ImageCacheManager.swift:113-116 | the digest key is 64 lower-case hex characters |
| ImageCache.DigestCacheKeyInjective | ReadwiseHighApp/Utils/ImageCacheManager.swift:113-116 | different digests give different keys |
| ImageCache.FallbackCacheKey | ReadwiseHighApp/Utils/ImageCacheManager.swift:117-124 | after "://" becomes `_`, each '/', '.' and ':' becomes `_` and every other character stays in place; so the key contains none of them |
| ImageCache.FallbackCacheKeyCollides | ReadwiseHighApp/Utils/ImageCacheManager.swift:117-124 | the fallback key maps "a.b" and "a:b" to the same key, so two URLs can share a file |
| ImageCache.FileNameInjective | ReadwiseHighApp/Utils/ImageCacheManager.swift:193 | different keys live in different `<key>.png` files |
| ImageCache.Swept | ReadwiseHighApp/Utils/ImageCacheManager.swift:270-295 | a file is gone exactly when it was visited, its creation day is known and more than 30 days back, and its removal did not fail; the rest is unchanged |
| ImageCache.SweepBoundary | ReadwiseHighApp/Utils/ImageCacheManager.swift:72 | a file 30 days old survives the sweep, one 31 days old does not |
| ImageCache.Cleared | ReadwiseHighApp/Utils/ImageCacheManager.swift:253-264 | removal only deletes, never deletes a file whose removal fails, and nothing listed after the first failure. With a clean listing exactly the listed files go |
| ImageCache.ClearedRemovesPrefix | ReadwiseHighApp/Utils/ImageCacheManager.swift:253-264 | the exact outcome: the names listed before the first removal that throws (a failing, missing or already removed file) are gone, and every other file is kept unchanged |
| ImageCache.ClearedEmpties | ReadwiseHighApp/Utils/ImageCacheManager.swift:247-265 | with a listing of the whole directory and no failures, the disk tier ends empty |
| ImageCache.ImageCacheManager.constructor | ReadwiseHighApp/Utils/ImageCacheManager.swift:83 | starts with an empty memory tier over the existing files |
| ImageCache.ImageCacheManager.CacheKey | ReadwiseHighApp/Utils/ImageCacheManager.swift:111-125 | the digest key where SHA-256 is available, else the fallback key; either way without '/', '.' or ':' |
| ImageCache.ImageCacheManager.GetImageFromMemoryCache | ReadwiseHighApp/Utils/ImageCacheManager.swift:182-184 | a hit exactly when the key is present, with its image |
| ImageCache.ImageCacheManager.GetImageFromDiskCache | ReadwiseHighApp/Utils/ImageCacheManager.swift:192-204 | a hit exactly when `<key>.png` exists, its read succeeds and its bytes decode, and the hit is the decoded image; a missing, unreadable or undecodable file is a miss |
| ImageCache.ImageCacheManager.SaveImageToMemoryCache | ReadwiseHighApp/Utils/ImageCacheManager.swift:187-189 | the memory tier maps the key to the image |
| ImageCache.ImageCacheManager.Evict | ReadwiseHighApp/Utils/ImageCacheManager.swift:66-83 | `NSCache` discarding entries on its own: exactly the chosen keys leave the memory tier, and nothing else changes |
| ImageCache.ImageCacheManager.SaveImageToDiskCache | ReadwiseHighApp/Utils/ImageCacheManager.swift:207-244 | writes `<key>.png`, overwriting in place; an encode or write failure leaves the disk tier unchanged |
| ImageCache.ImageCacheManager.LoadImage | ReadwiseHighApp/Utils/ImageCacheManager.swift:128-179 | a memory hit returns it and touches nothing. Otherwise a readable, decodable disk file is promoted into memory and returned; a file whose read throws counts as a miss. Otherwise the network outcome decides: a transport error gives `networkError`, no data gives `noData`, undecodable data gives `imageConversionFailed`. Else the image is stored in both tiers and returned |
| ImageCache.ImageCacheManager.RemoveListed | ReadwiseHighApp/Utils/ImageCacheManager.swift:257-259 | the loop over the listing leaves the disk tier exactly as `Cleared` describes: the files before the first removal that throws are gone |
| ImageCache.ImageCacheManager.ClearCache | ReadwiseHighApp/Utils/ImageCacheManager.swift:247-265 | memory is always emptied; the loop removes the listed files up to the first failure; a failed listing removes nothing |
| ImageCache.ImageCacheManager.CleanOldCacheFiles | ReadwiseHighApp/Utils/ImageCacheManager.swift:270-295 | the loop deletes exactly what the sweep deletes; a failed listing removes nothing |
| Network.DetermineConnectionType | ReadwiseHighApp/Utils/NetworkMonitor.swift:104-114 | the most preferred of Wi-Fi, cellular and wired Ethernet the path uses; `unknown` exactly when it uses none |
| Network.IsNetworkError | ReadwiseHighApp/Utils/NetworkMonitor.swift:190-204 | true exactly for the five connectivity `URLError` codes |
| Network.RunAll | ReadwiseHighApp/Utils/NetworkMonitor.swift:145-152 | running a batch runs each request once, in order |
| Network.RunAllAppend | ReadwiseHighApp/Utils/NetworkMonitor.swift:145-152 | running two batches is running their concatenation |
| Network.NetworkMonitor.constructor | ReadwiseHighApp/Utils/NetworkMonitor.swift:18-44 | connected, type unknown, empty queue, no timer |
| Network.NetworkMonitor.PathUpdate | ReadwiseHighApp/Utils/NetworkMonitor.swift:77-86 | the connection state and type are overwritten; a restore timer is armed exactly on an offline → online edge |
| Network.NetworkMonitor.HandleConnectionRestored | ReadwiseHighApp/Utils/NetworkMonitor.swift:117-124 | the earlier timer is invalidated and exactly one new timer is live |
| Network.NetworkMonitor.Fire | ReadwiseHighApp/Utils/NetworkMonitor.swift:125-134 | only the live timer acts: it signals the restore, then drains the queue; a stale timer changes nothing |
| Network.NetworkMonitor.ProcessPendingRequests | ReadwiseHighApp/Utils/NetworkMonitor.swift:138-153 | the queue is emptied and the taken requests run once each, in enqueue order |
| Network.NetworkMonitor.EnqueueRequestIfOffline | ReadwiseHighApp/Utils/NetworkMonitor.swift:157-163 | offline: appended at the back, true; online: unchanged, false |
| Network.NetworkMonitor.IsOfflineAndNotCached | ReadwiseHighApp/Utils/NetworkMonitor.swift:170-185 | never while online. Offline, the negated cache check when one is given, else whether both tiers miss for the URL's key (a disk file whose read throws is a miss) |
| Network.UnreadableFileIsNotCached | ReadwiseHighApp/Utils/NetworkMonitor.swift:170-185 | offline with no cache check, a URL that is not in memory and whose disk file cannot be read counts as not cached |
| Network.NetworkMonitor.CheckOfflineAndNotCached | ReadwiseHighApp/Utils/NetworkMonitor.swift:274-283 | the same answer as without a cache check |
| Network.OfflineReplayScenario | ReadwiseHighApp/Utils/NetworkMonitor.swift:117-153 | three requests deferred offline run once each, in order, after a flapping reconnect; the superseded timer and a repeat firing do nothing |

## Left out

- Concurrency: `DispatchQueue` hops, `@MainActor`, Combine publishers and `NotificationCenter` are not modelled. Each completion is a separate method that runs in order.
- `NWPathMonitor`, its start and stop, and foreground re-monitoring are OS plumbing. A path report is the input of `PathUpdate`, and the timer's half-second delay is not modelled. `Fire` says when the live timer runs.
- SHA-256 and the `#available` platform check are a constant digest function and a flag of the cache. Only the hex encoding is modelled.
- Image decoding and PNG encoding are constant partial functions over an opaque image type.
- ImageCache.ImageCacheManager.constructor: does not run the age sweep that the initializer schedules on a background queue. That sweep is the separate `CleanOldCacheFiles` method, called with the listing and the day. Creating the cache directory is not modelled either.
- `NSCache`'s count limit of 100 and its choice of victims are not modelled. `Evict` removes entries the environment chooses.
- Network, keychain and file-system effects are inputs of the methods that use them: the fetch outcome, the write outcome, directory listings and failing removals. Whether a file can be read is part of the file (`DiskFile.contents` is `None` for a file whose read throws), so a file that becomes readable again when the device unlocks is not modelled.
- ImageCache.Cleared: follows `clearCache` as written, which stops at the first removal that throws (ImageCacheManager.swift:257-259). The cache's intended contract, that individual deletion failures are skipped and the remaining files still go, is not what the code does, and the model does not promise it.
- Calendar day arithmetic, ISO 8601 parsing and `DateFormatter` output are not modelled. Days are integers, and parsers and formatters are functions given by the caller. An export uses one `now` for both its header and its recorded time.
- Persistence is not modelled: `UserDefaults`, JSON coding of the export map, security-scoped bookmarks, `isConfigured` and `exportPath`. The export directory is an input (`None` when none is set).
- URL validation beyond "an empty cover address gives no URL" is not modelled, and request headers are left out.
- UUIDs that identify views and highlight ids in SwiftUI lists are not modelled.
- `localizedCaseInsensitiveContains` is modelled as containment after lower-casing ASCII and Latin-1 letters. Other scripts and locale rules are not modelled.
- The 200-character cut counts Unicode scalars, not Swift `Character`s (grapheme clusters).
- Swift `String` ordering in `categoryList` is modelled as code-point order.
- FabricExport.SortHighlights: the sort is a stable insertion sort. Swift's `sorted(by:)` does not promise stability, so the order of highlights equal in page and date is fixed here but not in the app.
- DataManager.ReadwiseDataManager.HandleAPIError: only `ValidationError` values are modelled. The fallback message for other error types is unreachable from the modelled callers, whose fetches only fail with `ValidationError`.
- DataManager.ReadwiseDataManager.CompleteLoadBooks: `error.localizedDescription` is a parameter (`description`), so the shown text is not tied to `ErrorMessage`.
- BookDetail.BookDetailViewModel.Complete: the error's `localizedDescription` is a parameter (`describe`).
- `FabricExportError.accessDenied` is declared but never returned by `exportHighlights`; the model returns it nowhere either.
- The descriptions of `FabricExportError` and `ImageCacheError` are not modelled, only the cases.
- The clipboard copy, the copy toast and its `Task.sleep`, and `HighlightedText` are UI effects and are not modelled.
- `KeychainHelper` is not part of this model. A keychain read is an input that succeeds with a text or fails.
- The app's views, previews, CoreData bootstrap and sample data are not modelled. `APIKeyView`'s own key validation repeats the classification modelled in `APIService.Classify`.
