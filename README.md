# collection-manager, modelled in Dafny

collection-manager is a personal catalogue for vinyls, CDs, owned books and
books read. It is a React front end over a hosted database. Four list pages
let the owner add, edit, delete, search and sort records. A dashboard shows
counts, the pages read, the five longest books and a reading goal. Three
lookup clients fetch release and cover data: iTunes, Discogs and Google
Books, with Open Library as the fallback for covers. A one-off tool
backfills vinyl covers from iTunes.

This project models that core in Dafny and proves properties of the model:

- `text.dfy`, `seqs.dfy`, `jsvalues.dfy`, `wrappers.dfy`: the JavaScript
  operations the code relies on. These are `trim`, `includes`,
  `replace` with a string pattern, `split(c)[0]`, `toLowerCase`, `<` on
  strings, `filter`/`find`, the `|| null` and `|| 0` defaults, and
  `Math.round`.
- `listing.dfy`: the list logic the four pages share. It covers the next id,
  delete by id, update by id, the sort toggle, the sort callback and
  `Array.prototype.sort`. The sort is an in-place insertion sort on an
  array, proved equal to a stable sort function. That function's result is
  proved sorted, and a permutation of its input.
- `itunes.dfy`: text normalisation, artist choice, album match and the
  artwork rewrite (`src/lib/itunes.ts`).
- `googlebooks.dfy`: cover URL reconstruction, ISBN query detection, and
  the identifier, price and author defaults (`src/lib/googleBooks.ts`).
- `discogs.dfy`: barcode detection and the request parameters, built in
  place (`src/lib/discogs.ts`).
- `openlibrary.dfy`: ISBN cleaning, the cover URL and the status check
  (`src/lib/openLibrary.ts`).
- `coverupdater.dfy`: the backfill loop as a method over a store class
  (`src/components/CoverUpdater.tsx`).
- `cds.dfy`, `vinyls.dfy`, `ownedbooks.dfy`, `readbooks.dfy`: one class per
  page. Its fields are the page's state, and its methods are the handlers.
- `dashboard.dfy`: counts, the top-five chart, the goal and the progress.

Everything that crosses a process boundary becomes an input of the model:

- HTTP replies and status codes.
- Database replies: data, error or no data.
- The confirmation dialog's answer.
- The current year.
- `parseInt`, `parseFloat` and number printing.
- `new URL(...).searchParams.get('id')`.

Where the written description of the system and the code differ, the model
follows the code:

- Open Library: the ISBN loses every hyphen, but only its two ends are
  trimmed. White space inside it is kept and goes into the URL.
- Google Books fallback: the `&fife=w600` directive takes the place of the
  first `&zoom=<digit>`. It ends the URL only when it is appended.
- Google Books fallback: a later `&zoom=` is left in place.

## Model

| member | source | states |
|---|---|---|
| Text.Trim | src/lib/itunes.ts:9 | `trim` leaves no white space at either end and only characters of the input |
| Text.IsSpace | src/lib/itunes.ts:9 | the characters `trim` removes: ECMAScript white space and line terminators |
| Text.TrimStartSpec | src/lib/itunes.ts:9 | what the front trim removes is a run of white space, and the rest is a suffix of the input |
| Text.TrimEndSpec | src/lib/itunes.ts:9 | what the back trim removes is a run of white space, and the rest is a prefix of the input |
| Text.TrimSlice | src/lib/itunes.ts:9 | the trim is one contiguous slice of the input, starting where the leading white space ends |
| Text.TrimIsTrimmedAt | src/lib/itunes.ts:9 | the trim is the input less a leading and a trailing run of white space, and neither starts nor ends with white space |
| Text.TrimOfTrimmed | src/lib/itunes.ts:9 | a string without white space at its ends is its own trim |
| Text.TrimKeepsInner | src/lib/googleBooks.ts:67 | every non-space character survives trimming, at its shifted position |
| Text.TrimKeepsCount | src/lib/openLibrary.ts:7 | trimming keeps every non-space character as often as it occurred |
| Text.IndexOf | src/lib/itunes.ts:41 | `indexOf` yields the first position where the pattern occurs, or none when it occurs nowhere |
| Text.OccurrenceContains | src/lib/itunes.ts:41 | an occurrence anywhere makes `includes` true |
| Text.ContainsIff | src/lib/itunes.ts:41 | `includes` is true exactly when the pattern occurs at some position |
| Text.ContainsEmpty | src/lib/itunes.ts:78 | every string includes the empty string |
| Text.ContainsSelf | src/lib/itunes.ts:78 | every string includes itself |
| Text.ReplaceFirst | src/lib/googleBooks.ts:34 | `replace` with a string pattern splices the replacement in at the first occurrence only and keeps the rest; without one the string is unchanged |
| Text.RemoveAll | src/lib/openLibrary.ts:7 | `replace(/-/g, '')` is the order-keeping filter of the non-hyphens: no hyphen is left, and every other character stays, in order, as often as it occurred |
| Text.Before | src/lib/itunes.ts:46 | `split('(')[0]` is the prefix before the first parenthesis, or the whole string |
| Text.ToLower | src/pages/CDs.tsx:129 | lower-casing keeps the length and maps each character |
| Text.LowerChar | src/pages/CDs.tsx:129 | `toLowerCase` on one character: A-Z and the Latin-1 capitals move to their small letters, the rest is kept |
| Text.ToLowerIdempotent | src/pages/CDs.tsx:129 | lower-casing twice is lower-casing once |
| Text.LexLess | src/pages/CDs.tsx:139 | `<` on strings: the first differing character decides, and a proper prefix is smaller |
| Text.LexLessIrreflexive | src/pages/CDs.tsx:139 | no string is `<` itself |
| Text.LexLessTransitive | src/pages/CDs.tsx:139-140 | string `<` is transitive |
| Text.LexLessTotal | src/pages/CDs.tsx:139-140 | of two different strings one is `<` the other |
| Seqs.FindIndex | src/lib/itunes.ts:33 | `find` yields the first element satisfying the predicate, or none |
| Seqs.Find | src/lib/googleBooks.ts:83 | `find` yields an element satisfying the predicate exactly when one exists |
| Seqs.FindCons | src/lib/itunes.ts:71-82 | the first hit is the head when it passes, else the first hit of the rest |
| Seqs.FindFiltered | src/lib/itunes.ts:68-82 | searching a filtered list finds the first element of the whole list that passes both the filter and the search |
| Seqs.Filter | src/pages/CDs.tsx:128-131 | `filter` keeps exactly the elements that pass |
| Seqs.FilterAppend | src/pages/CDs.tsx:128-131 | `filter` keeps order: it distributes over concatenation |
| Seqs.FilterCount | src/pages/Vinyls.tsx:120 | `filter` keeps each passing element as many times as it occurs and drops the rest |
| Seqs.FilterAll | src/pages/CDs.tsx:128-131 | a filter every element passes changes nothing |
| Seqs.SumAppend | src/pages/ReadBooks.tsx:120 | the `reduce` total adds up over a split of the list, so an appended book adds its pages |
| Seqs.SumNonNegative | src/pages/Dashboard.tsx:59 | without negative amounts the `reduce` total is not negative |
| Seqs.SumBounds | src/pages/ReadBooks.tsx:120 | without negative amounts no element has more than the total |
| JsValues.OrNull | src/pages/CDs.tsx:90 | `parseInt(x) \|\| null` is null exactly for NaN and 0, else the parsed value |
| JsValues.OrZeroInt | src/pages/ReadBooks.tsx:86 | `parseInt(x) \|\| 0` is the parsed value, or 0 for NaN |
| JsValues.OrZero | src/pages/CDs.tsx:91 | `parseFloat(x) \|\| 0` is the parsed value, or 0 for NaN |
| JsValues.RoundHalfUp | src/components/CoverUpdater.tsx:42 | `Math.round` of an exact quotient is the integer within a half of it, halves rounding up |
| JsValues.RoundMonotone | src/components/CoverUpdater.tsx:42 | rounding is monotone |
| JsValues.RoundExact | src/components/CoverUpdater.tsx:42 | an exact integer quotient rounds to itself |
| Listing.Ids | src/pages/CDs.tsx:54 | `map(cd => cd.id)` lists each row's id at its index |
| Listing.Max | src/pages/CDs.tsx:55 | `Math.max(...ids)` is a listed id no smaller than any other |
| Listing.NextId | src/pages/CDs.tsx:52-57 | the new id is 1 for an empty list, otherwise greater than every id and one more than a listed id |
| Listing.NextIdAboveRows | src/pages/Vinyls.tsx:61-66 | the new id exceeds the id of every listed row |
| Listing.AppendNextKeepsUnique | src/pages/ReadBooks.tsx:100 | appending a row carrying the new id keeps ids unique |
| Listing.RemoveById | src/pages/CDs.tsx:118 | delete leaves no row with the id and keeps every other row with its multiplicity |
| Listing.RemoveKeepsOrder | src/pages/Vinyls.tsx:120 | delete keeps the order of the remaining rows |
| Listing.RemoveKeepsUnique | src/pages/OwnedBooks.tsx:121 | delete keeps ids unique |
| Listing.ReplaceById | src/pages/CDs.tsx:99 | update replaces every row with the id and leaves the others in place |
| Listing.ReplaceIsPointUpdate | src/pages/CDs.tsx:99 | with unique ids, update by id is an in-place update of that one row |
| Listing.ReplaceKeepsIds | src/pages/CDs.tsx:99 | a replacement with the same id keeps the list of ids |
| Listing.ToggleSort | src/pages/CDs.tsx:121-125 | the clicked column becomes the key; descending exactly when it was already the key, ascending |
| Listing.ToggleAlternates | src/pages/Vinyls.tsx:124-130 | clicking the same header again flips the direction |
| Listing.JsLessAsymmetric | src/pages/CDs.tsx:139-140 | `<` on two numbers or two strings is asymmetric |
| Listing.JsLessNegTransitive | src/pages/CDs.tsx:139-140 | `<` on values of one kind is negatively transitive |
| Listing.JsLess | src/pages/CDs.tsx:139-140 | `<` on two column values: numbers by value, strings by `LexLess`, and a number and a string never below each other |
| Listing.ColumnOrder | src/pages/CDs.tsx:133-142 | the sort callback for a column and a direction: -1, 1 or 0 from `<` and `>` on the column values |
| Listing.ColumnOrderConsistent | src/pages/CDs.tsx:133-142 | on an all-number or all-string column the sort callback is a strict weak order in either direction |
| Listing.Insert | src/pages/CDs.tsx:133 | inserting into a sorted prefix adds one element |
| Listing.SortBy | src/pages/CDs.tsx:133 | the stable sort keeps the length |
| Listing.InsertKeeps | src/pages/CDs.tsx:133 | an insertion step adds exactly the inserted element |
| Listing.SortByPermutes | src/pages/CDs.tsx:133 | sorting is a permutation |
| Listing.InsertSorted | src/pages/CDs.tsx:133-142 | an insertion step keeps a consistent sort sorted |
| Listing.SortBySorted | src/pages/CDs.tsx:133-142 | with a consistent callback the result is sorted |
| Listing.SwapBack | src/pages/CDs.tsx:133 | one swap of neighbouring elements in place |
| Listing.InsertAt | src/pages/CDs.tsx:133 | the inner loop moves `a[i]` left to its stable place in the sorted prefix, in place |
| Listing.SortInPlace | src/pages/CDs.tsx:133 | `items.sort(cmp)` on an array, in place, yields the stable sort of the old contents |
| Listing.SortedView | src/pages/CDs.tsx:132-144 | no key keeps the filtered order; a key sorts it by that column and direction; always a permutation |
| Listing.SortedColumnMeaning | src/pages/CDs.tsx:139-140 | sorted by a column means no later value is `<` an earlier one (reversed for descending) |
| ITunes.NfdTableLatin | src/lib/itunes.ts:7 | every decomposition entry is a Latin-1 letter splitting into a-z and a combining mark |
| ITunes.DecomposeAgreesWithTable | src/lib/itunes.ts:7 | `normalize("NFD")` splits each letter of the table into the base letter and mark listed for it |
| ITunes.DecomposeShape | src/lib/itunes.ts:7 | `normalize("NFD")` keeps a character or splits it into a base a-z and one combining mark |
| ITunes.Nfd | src/lib/itunes.ts:7 | `normalize("NFD")` turns each character into one or two |
| ITunes.StripMarks | src/lib/itunes.ts:7 | `replace(/[\u0300-\u036f]/g, "")` keeps, in order, the characters that are not combining marks |
| ITunes.KeepAllowed | src/lib/itunes.ts:8 | `replace(/[^a-z0-9 ]/g, "")` keeps, in order, the characters a-z, 0-9 and space |
| ITunes.FoldChar | src/lib/itunes.ts:6-8 | the per-character fold leaves only a-z, 0-9 and space |
| ITunes.FoldAllowedChar | src/lib/itunes.ts:8 | an allowed character folds to itself |
| ITunes.Fold | src/lib/itunes.ts:6-8 | folding leaves only a-z, 0-9 and space |
| ITunes.Normalize | src/lib/itunes.ts:4-10 | `normalize` leaves only a-z, 0-9 and spaces, with no space at either end |
| ITunes.TrimAllowed | src/lib/itunes.ts:9 | trimming a string of `[a-z0-9 ]` leaves only such characters |
| ITunes.FoldIsPipeline | src/lib/itunes.ts:6-8 | the per-character fold equals lower-case, NFD, strip marks, keep allowed |
| ITunes.NormalizeIsPipeline | src/lib/itunes.ts:4-10 | `Normalize` equals the chain lower-case, NFD, strip marks, keep allowed, trim |
| ITunes.FoldAllowed | src/lib/itunes.ts:8 | a string of allowed characters folds to itself |
| ITunes.NormalizeIdempotent | src/lib/itunes.ts:4-10 | normalising twice is normalising once |
| ITunes.FoldAppend | src/lib/itunes.ts:5-8 | folding distributes over concatenation |
| ITunes.FoldLower | src/lib/itunes.ts:6 | folding ignores case |
| ITunes.NormalizeIgnoresCase | src/lib/itunes.ts:6 | lower-casing first does not change the normal form |
| ITunes.FoldAccent | src/lib/itunes.ts:7 | an accented letter folds as its base letter |
| ITunes.AccentsIgnored | src/lib/itunes.ts:7 | swapping an accented letter for its base letter anywhere leaves the normal form unchanged |
| ITunes.CleanInput | src/lib/itunes.ts:46-47 | the cleaned input has no parenthesis and no white space at its ends |
| ITunes.BeforeStops | src/lib/itunes.ts:46 | text followed by `(` keeps exactly the text before it |
| ITunes.CleanInputDropsSuffix | src/lib/itunes.ts:46-47 | a parenthesised suffix is dropped and the rest trimmed |
| ITunes.Results | src/lib/itunes.ts:14-20 | a network failure reads as an empty result list |
| ITunes.PickId | src/lib/itunes.ts:33-42 | the id of the first exact hit, else of the first loose hit, else none |
| ITunes.ChooseArtist | src/lib/itunes.ts:33-42 | the first hit whose normal form equals the name wins, else the first whose normal form includes it, else none |
| ITunes.GetArtistId | src/lib/itunes.ts:24-43 | a reply without results, or a failed fetch, gives no artist id |
| ITunes.PickIdSound | src/lib/itunes.ts:40-42 | a picked id is the id of some loosely matching hit |
| ITunes.ChooseArtistSound | src/lib/itunes.ts:33-42 | a chosen artist id belongs to a hit whose normal form includes the name |
| ITunes.LargeArtwork | src/lib/itunes.ts:80 | the first `100x100bb` is spliced out for `1000x1000bb`, the rest kept; without it the URL is unchanged |
| ITunes.Discography | src/lib/itunes.ts:68 | the discography holds exactly the results of collection type `Album` |
| ITunes.SameAlbum | src/lib/itunes.ts:72-78 | an album matches when its normalized name, `""` when missing, includes the target or is included in it |
| ITunes.MissingNameMatchesAny | src/lib/itunes.ts:72-78 | an album without a name matches every target |
| ITunes.DiscographyFirstMatch | src/lib/itunes.ts:68-81 | the cover is the artwork of the first raw result, in reply order, that is an album and matches |
| ITunes.FirstCover | src/lib/itunes.ts:71-82 | a cover exists iff some album matches; it is the large artwork of the first match |
| ITunes.CoverSteps | src/lib/itunes.ts:53-65 | the artist search is sent first; the discography lookup follows only for a non-zero id |
| ITunes.FindITunesCover | src/lib/itunes.ts:45-86 | one or two requests go out, and a cover comes only after the discography lookup |
| ITunes.FindITunesCoverRequests | src/lib/itunes.ts:45-65 | the requests sent: always the artist search, and the lookup exactly when an id was found |
| ITunes.FindITunesCoverResult | src/lib/itunes.ts:45-86 | a cover exactly when the artist was found and an album matches the title; it is the first such album's large artwork |
| ITunes.EmptyTitleTakesFirstAlbum | src/lib/itunes.ts:78 | a title that normalises to nothing matches the first album of the discography |
| GoogleBooks.FirstTruthy | src/lib/googleBooks.ts:29 | the first non-empty size in precedence order, or `""` exactly when there is none |
| GoogleBooks.FirstZoomFrom | src/lib/googleBooks.ts:57 | the regular expression's match: the first `&zoom=` followed by a digit |
| GoogleBooks.ReplaceZoom | src/lib/googleBooks.ts:57 | the first `&zoom=<digit>` is spliced out for `&fife=w600`, the rest kept; without a match the URL is unchanged |
| GoogleBooks.Fallback | src/lib/googleBooks.ts:52-62 | the manual fallback: first page curl removed, then the zoom replaced or the width appended |
| GoogleBooks.BestImage | src/lib/googleBooks.ts:22-63 | the cover: generic without links, empty without a size, else the largest size made secure and rebuilt from its `id` or through the fallback |
| GoogleBooks.GetBestImage | src/lib/googleBooks.ts:22-63 | the step-by-step reconstruction yields `BestImage`, whose branches the lemmas below state |
| GoogleBooks.NoLinksGivesGenericCover | src/lib/googleBooks.ts:24-26 | no image links give the generic cover built from the volume id |
| GoogleBooks.NoSizeGivesEmpty | src/lib/googleBooks.ts:29-31 | links without any non-empty size give `""` |
| GoogleBooks.LargestSizeRebuilt | src/lib/googleBooks.ts:29-47 | the largest present size, made https, is rebuilt from its `id` parameter alone |
| GoogleBooks.ZoomWithoutDigitUnchanged | src/lib/googleBooks.ts:53-57 | `&zoom=` never followed by a digit: only the page curl is removed |
| GoogleBooks.ZoomWithDigitReplaced | src/lib/googleBooks.ts:53-57 | the first `&zoom=<digit>` after the curl removal becomes `&fife=w600`, the rest kept |
| GoogleBooks.UnparsedFallsBack | src/lib/googleBooks.ts:29-60 | when the secure URL of the largest size does not parse or has no `id`, the cover is that URL through the fallback |
| GoogleBooks.NoZoomAppendsWidth | src/lib/googleBooks.ts:53-60 | without `&zoom=` the width directive is appended after removing the page curl |
| GoogleBooks.IsIsbnQuery | src/lib/googleBooks.ts:67 | a query is an ISBN when, trimmed, it is 10 to 13 digits |
| GoogleBooks.FinalQuery | src/lib/googleBooks.ts:67-68 | an ISBN-looking query gets the `isbn:` prefix; any other query is sent as typed |
| GoogleBooks.TextQueryUnchanged | src/lib/googleBooks.ts:67-68 | a query with an inner non-digit is never taken for an ISBN |
| GoogleBooks.IsbnOf | src/lib/googleBooks.ts:83 | the first ISBN_13, else the first ISBN_10, else none |
| GoogleBooks.PriceOf | src/lib/googleBooks.ts:88-93 | list price, else retail price, else 0; 0 exactly when neither is truthy |
| GoogleBooks.FoundPrice | src/lib/googleBooks.ts:88-93 | the if/else reassignment yields that price |
| GoogleBooks.ToBookResult | src/lib/googleBooks.ts:79-107 | one result per volume: its fields, the default author, the best cover, the ISBN and the price |
| GoogleBooks.SearchGoogleBooks | src/lib/googleBooks.ts:65-113 | the query sent; any failure or missing items gives []; otherwise one result per volume, in order |
| GoogleBooks.ResultAuthors | src/lib/googleBooks.ts:98 | missing authors become `["Sconosciuto"]`; a present list is kept |
| Discogs.NonDigitIsText | src/lib/discogs.ts:20 | a query with a non-digit is free text |
| Discogs.ShortIsText | src/lib/discogs.ts:20 | a query of at most 8 characters is free text |
| Discogs.IsBarcode | src/lib/discogs.ts:20 | a query is a barcode when it is all digits and longer than 8 |
| Discogs.RequestParams | src/lib/discogs.ts:22-32 | token, type and page size, then `barcode` or `q` with the query |
| Discogs.SearchParams.constructor | src/lib/discogs.ts:22-26 | the parameters start as token, `type=release`, `per_page=10` |
| Discogs.SearchParams.Append | src/lib/discogs.ts:28-32 | `append` adds one entry at the end and keeps the others |
| Discogs.RequestParamsShape | src/lib/discogs.ts:22-32 | the fixed parameters come first; `barcode` is present iff the query is a barcode and `q` iff it is not, carrying the query |
| Discogs.SearchDiscogs | src/lib/discogs.ts:16-44 | an empty query sends nothing and gives []; otherwise those parameters are sent and a failure gives [] |
| OpenLibrary.CleanIsbn | src/lib/openLibrary.ts:7 | no hyphen is left; every other non-space character is kept as often as it occurred |
| OpenLibrary.CleanIsbnSlice | src/lib/openLibrary.ts:7 | the ISBN is the hyphen-free input, in order, less its leading and trailing white space; inner white space stays |
| OpenLibrary.CoverUrl | src/lib/openLibrary.ts:11 | the large-cover URL with `default=false` around the cleaned ISBN |
| OpenLibrary.CoverUrlShape | src/lib/openLibrary.ts:7-11 | the probed URL is exactly the fixed prefix, the cleaned ISBN and the fixed suffix, with no hyphen in between |
| OpenLibrary.FindOpenLibraryCover | src/lib/openLibrary.ts:3-26 | an empty ISBN sends nothing; otherwise the URL is returned iff the status is 200 |
| CoverUpdater.SetCover | src/components/CoverUpdater.tsx:52-55 | the update by id sets the cover of the rows with that id and changes nothing else |
| CoverUpdater.Backfill | src/components/CoverUpdater.tsx:38-70 | processing rows never adds or removes a row of the table |
| CoverUpdater.BackfillOnlyCovers | src/components/CoverUpdater.tsx:52-55 | processing rows keeps every row in place and changes only its cover |
| CoverUpdater.CountFound | src/components/CoverUpdater.tsx:50-58 | `updatedCount`: the rows whose lookup gave a cover |
| CoverUpdater.LogsFor | src/components/CoverUpdater.tsx:57-63 | the log, newest first: one line per row whose lookup did not throw |
| CoverUpdater.Percentage | src/components/CoverUpdater.tsx:42 | `Math.round(((i + 1) / total) * 100)` as an exact rounding |
| CoverUpdater.VinylStore.SelectMissing | src/components/CoverUpdater.tsx:21-24 | the select returns the rows whose cover is null or empty, in table order |
| CoverUpdater.VinylStore.UpdateCover | src/components/CoverUpdater.tsx:52-55 | the store applies the cover update |
| CoverUpdater.CoverUpdater.constructor | src/components/CoverUpdater.tsx:9-12 | the initial state: not loading, progress 0, no status, no log |
| CoverUpdater.CoverUpdater.ProcessRow | src/components/CoverUpdater.tsx:39-65 | one row: progress and status set; a non-empty URL updates the store and logs a find; `null` logs a miss; a throw does neither |
| CoverUpdater.CoverUpdater.ProcessAll | src/components/CoverUpdater.tsx:35-70 | the loop processes the selected rows once each, in order: the store is their backfill, the log their lines newest first, the counter their finds, the progress that of the last row |
| CoverUpdater.CoverUpdater.StartUpdate | src/components/CoverUpdater.tsx:14-74 | no confirmation or a failed load changes no row; otherwise each selected row is processed once in order, and the store, log, progress and status are as specified |
| CoverUpdater.ProgressMonotone | src/components/CoverUpdater.tsx:42-43 | the progress never decreases and stays within 0..100 |
| CoverUpdater.ProgressComplete | src/components/CoverUpdater.tsx:42 | after the last row the progress is 100 |
| CoverUpdater.CountBound | src/components/CoverUpdater.tsx:58 | the counter never exceeds the number of rows |
| CoverUpdater.CountMatchesLogs | src/components/CoverUpdater.tsx:57-58 | the counter equals the number of "cover found" log lines |
| CoverUpdater.OneLogPerCompletedRow | src/components/CoverUpdater.tsx:57-65 | one log line per row whose lookup did not throw |
| CoverUpdater.BackfillAt | src/components/CoverUpdater.tsx:48-55 | a row ends with its found cover when it is processed, and is unchanged otherwise |
| CoverUpdater.BackfillEffect | src/components/CoverUpdater.tsx:20-70 | with unique ids, a row gets a cover iff it had none and its lookup found one; only `cover_url` changes; rows with a cover are untouched |
| CDs.ColumnsConsistent | src/pages/CDs.tsx:133-142 | every CD column sorts consistently |
| CDs.KeyOf | src/pages/CDs.tsx:133-142 | the value the sort callback reads for a column |
| CDs.Matches | src/pages/CDs.tsx:128-131 | the search: one of the searched fields includes the search, ignoring case |
| CDs.View | src/pages/CDs.tsx:127-145 | the matching records in their order, sorted by the chosen column when one is set |
| CDs.EditForm | src/pages/CDs.tsx:70-79 | the edit form copies the CD; a non-zero year and the cost show as printed, a null or 0 year as empty |
| CDs.PayloadOf | src/pages/CDs.tsx:86-92 | text copied; year parsed with 0 or NaN as null; cost parsed with 0 as default |
| CDs.EmptySearchKeepsAll | src/pages/CDs.tsx:128-131 | an empty search shows every CD |
| CDs.SearchIgnoresCase | src/pages/CDs.tsx:128-131 | the search ignores the case of what is typed |
| CDs.CDsPage.constructor | src/pages/CDs.tsx:25-39 | the initial page state |
| CDs.CDsPage.Load | src/pages/CDs.tsx:41-48 | data replaces the list; an error or null leaves it |
| CDs.CDsPage.OpenNewCDModal | src/pages/CDs.tsx:50-68 | a blank form with an id above every listed id (1 when empty), not editing |
| CDs.CDsPage.OpenEditModal | src/pages/CDs.tsx:70-81 | editing that id with its fields in the form |
| CDs.CDsPage.HandleSave | src/pages/CDs.tsx:83-113 | a non-zero editing id sends an update and replaces that id's rows in place; otherwise an insert whose row is appended; failure changes nothing |
| CDs.CDsPage.HandleDelete | src/pages/CDs.tsx:115-119 | after confirmation and no error exactly that id's CDs are gone; otherwise nothing changes |
| CDs.CDsPage.HandleSort | src/pages/CDs.tsx:121-125 | the sort configuration toggles |
| CDs.CDsPage.SortedAndFiltered | src/pages/CDs.tsx:127-145 | the view is a permutation of the matching CDs, in list order without a key and sorted by the key with one |
| Vinyls.ColumnsConsistent | src/pages/Vinyls.tsx:139-150 | every column but notes sorts consistently |
| Vinyls.KeyOf | src/pages/Vinyls.tsx:139-150 | the value the sort callback reads for a column |
| Vinyls.Matches | src/pages/Vinyls.tsx:133-137 | the search: one of the searched fields includes the search, ignoring case |
| Vinyls.View | src/pages/Vinyls.tsx:132-152 | the matching records in their order, sorted by the chosen column when one is set |
| Vinyls.PayloadOf | src/pages/Vinyls.tsx:85-95 | id and text copied; year and rating parsed with 0 or NaN as null; cost defaults to 0 |
| Vinyls.EmptySearchKeepsAll | src/pages/Vinyls.tsx:133-137 | an empty search shows every vinyl |
| Vinyls.NotesFound | src/pages/Vinyls.tsx:136 | non-empty notes are searched |
| Vinyls.VinylsPage.constructor | src/pages/Vinyls.tsx:29-46 | the initial page state |
| Vinyls.VinylsPage.Load | src/pages/Vinyls.tsx:48-58 | data replaces the list; an error or null leaves it |
| Vinyls.VinylsPage.OpenNewVinylModal | src/pages/Vinyls.tsx:60-80 | a blank form with an id above every listed id (1 when empty) |
| Vinyls.VinylsPage.HandleSave | src/pages/Vinyls.tsx:82-109 | the payload is sent; the returned row is appended; failure changes nothing |
| Vinyls.VinylsPage.HandleDelete | src/pages/Vinyls.tsx:111-122 | after confirmation and no error exactly that id's vinyls are gone |
| Vinyls.VinylsPage.HandleSort | src/pages/Vinyls.tsx:124-130 | the sort configuration toggles |
| Vinyls.VinylsPage.SortedAndFiltered | src/pages/Vinyls.tsx:132-152 | the view is a permutation of the matching vinyls, sorted by a key other than notes when one is set |
| OwnedBooks.ColumnsConsistent | src/pages/OwnedBooks.tsx:140-151 | every column but the series name sorts consistently |
| OwnedBooks.KeyOf | src/pages/OwnedBooks.tsx:140-151 | the value the sort callback reads for a column |
| OwnedBooks.Matches | src/pages/OwnedBooks.tsx:134-138 | the search: one of the searched fields includes the search, ignoring case |
| OwnedBooks.View | src/pages/OwnedBooks.tsx:133-153 | the matching records in their order, sorted by the chosen column when one is set |
| OwnedBooks.PayloadOf | src/pages/OwnedBooks.tsx:84-94 | series name and number only when the box is ticked, null otherwise; cost defaults to 0 |
| OwnedBooks.EmptySearchKeepsAll | src/pages/OwnedBooks.tsx:134-138 | an empty search shows every book |
| OwnedBooks.SeriesFound | src/pages/OwnedBooks.tsx:137 | a non-empty series name is searched |
| OwnedBooks.OwnedBooksPage.constructor | src/pages/OwnedBooks.tsx:29-45 | the initial page state |
| OwnedBooks.OwnedBooksPage.Load | src/pages/OwnedBooks.tsx:47-57 | data replaces the list; an error or null leaves it |
| OwnedBooks.OwnedBooksPage.OpenNewBookModal | src/pages/OwnedBooks.tsx:59-78 | a blank form with an id above every listed id (1 when empty) |
| OwnedBooks.OwnedBooksPage.HandleSave | src/pages/OwnedBooks.tsx:80-108 | the payload is sent; the returned row is appended; failure changes nothing |
| OwnedBooks.OwnedBooksPage.HandleDelete | src/pages/OwnedBooks.tsx:110-123 | after confirmation and no error exactly that id's books are gone |
| OwnedBooks.OwnedBooksPage.HandleSort | src/pages/OwnedBooks.tsx:125-131 | the sort configuration toggles |
| OwnedBooks.OwnedBooksPage.SortedAndFiltered | src/pages/OwnedBooks.tsx:133-153 | the view is a permutation of the matching books, sorted by a key other than the series name when one is set |
| ReadBooks.ColumnsConsistent | src/pages/ReadBooks.tsx:137-148 | every column sorts consistently |
| ReadBooks.KeyOf | src/pages/ReadBooks.tsx:137-148 | the value the sort callback reads for a column |
| ReadBooks.Matches | src/pages/ReadBooks.tsx:132-135 | the search: one of the searched fields includes the search, ignoring case |
| ReadBooks.View | src/pages/ReadBooks.tsx:131-150 | the matching records in their order, sorted by the chosen column when one is set |
| ReadBooks.PayloadOf | src/pages/ReadBooks.tsx:81-89 | read year and rating parsed with 0 or NaN as null; pages parsed with 0 as default |
| ReadBooks.EmptySearchKeepsAll | src/pages/ReadBooks.tsx:132-135 | an empty search shows every book |
| ReadBooks.SearchIgnoresCase | src/pages/ReadBooks.tsx:132-135 | the search ignores the case of what is typed |
| ReadBooks.TotalPages | src/pages/ReadBooks.tsx:120 | the pages read: the sum of the pages, a missing count as 0 |
| ReadBooks.ReadBooksPage.constructor | src/pages/ReadBooks.tsx:27-41 | the initial page state, the form on the current year |
| ReadBooks.ReadBooksPage.Load | src/pages/ReadBooks.tsx:44-54 | data replaces the list; an error or null leaves it |
| ReadBooks.ReadBooksPage.OpenNewReadBookModal | src/pages/ReadBooks.tsx:57-75 | a blank form for the current year with an id above every listed id (1 when empty) |
| ReadBooks.ReadBooksPage.HandleSave | src/pages/ReadBooks.tsx:78-103 | the payload is sent; the returned row is appended and the page total grows by its pages; failure changes nothing |
| ReadBooks.ReadBooksPage.HandleDelete | src/pages/ReadBooks.tsx:106-117 | after confirmation and no error exactly that id's books are gone |
| ReadBooks.ReadBooksPage.HandleSort | src/pages/ReadBooks.tsx:123-129 | the sort configuration toggles |
| ReadBooks.ReadBooksPage.SortedAndFiltered | src/pages/ReadBooks.tsx:131-150 | the view is a permutation of the matching books, sorted by the key when one is set |
| Dashboard.CountOf | src/pages/Dashboard.tsx:73-76 | a missing list counts 0, otherwise its length |
| Dashboard.TotalPages | src/pages/Dashboard.tsx:59 | the pages read: the sum of the pages, a missing count as 0 |
| Dashboard.ByPagesDesc | src/pages/Dashboard.tsx:63 | the chart comparator: more pages first, a missing count as 0 |
| Dashboard.ByPagesDescConsistent | src/pages/Dashboard.tsx:63 | the pages-difference callback is a strict weak order |
| Dashboard.LongestBooks | src/pages/Dashboard.tsx:62-64 | the chart takes min(5, n) books |
| Dashboard.LongestBooksSpec | src/pages/Dashboard.tsx:62-68 | the top five come from the list, by non-increasing pages, and no book left out has more pages than one shown |
| Dashboard.ChartOf | src/pages/Dashboard.tsx:65-68 | each chart entry is a book's title and its pages as stored |
| Dashboard.FetchDashboardData | src/pages/Dashboard.tsx:30-84 | missing lists count as empty; the figures are the counts, the page total and the chart; a throw keeps the old figures |
| Dashboard.SaveGoal | src/pages/Dashboard.tsx:98-105 | only a parsed goal above 0 is taken and ends editing; otherwise nothing changes; a positive goal stays positive |
| Dashboard.ProgressPercentage | src/pages/Dashboard.tsx:107 | the goal progress lies within 0..100 |
| Dashboard.ProgressReachesFull | src/pages/Dashboard.tsx:107 | reaching the goal shows 100, and reading more never lowers the figure |

## Left out

- Database access through `supabase` is not modelled as I/O. Each handler takes the store's reply as an input: data, error or no data. The backfill's store is a class over the table's rows.
- A write reply that carries an empty data array is not modelled; the code would append `undefined`. Replies carry the written row.
- `fetch`, `response.json()`, `encodeURIComponent`, `URLSearchParams.toString()` and the template URLs of the iTunes and Google Books requests are not modelled. Requests are modelled as their parameters, and replies as inputs.
- An unset Discogs token, which `URLSearchParams` would send as the text `undefined`, is not modelled. The token is a plain parameter.
- `parseInt`, `parseFloat`, number printing and `new URL(...)` parsing are given functions. They are not modelled.
- ITunes.Nfd: `String.prototype.normalize("NFD")` is modelled only for the Latin-1 lower-case letters, and `toLowerCase` only for ASCII and Latin-1 letters. A letter outside Latin-1, such as the Latin Extended ř, ā or ő, is dropped whole by the model, while the source keeps its base letter. So `normalize("Dvořák")` is `dvorak` in the source and `dvoak` in the model; an iTunes artist "Dvorak" is an exact match for the source and no match at all for `ChooseArtist`. Letters of other scripts are dropped by both.
- ITunes.FindITunesCover: `artistName` and `artworkUrl100` are taken as always present. In the source, a search hit without `artistName` makes `normalize` throw (src/lib/itunes.ts:33, 41), and so does a matching album without `artworkUrl100` (src/lib/itunes.ts:80). That rejection leaves `findITunesCover`, and the backfill sees it as a lookup that threw. The model has no such outcome for the iTunes lookup; the backfill's own lookup input does have it.
- String `<` compares `char` values, which are Unicode scalar values; JavaScript compares UTF-16 code units, and the two orders differ only above U+FFFF.
- A `null` text column compares as neither smaller nor larger than any text. This equals JavaScript for text that does not read as a number. The notes and series-name sorts are therefore left without a consistency proof.
- Floating-point cost totals and `toFixed` are not modelled: the pages' `totalValue` and the dashboard's collection value.
- Percentages use exact integer rounding of `done * 100 / total`. The floating-point `(done / total) * 100` could differ by rounding very close to a half; that is not modelled.
- `Promise.all` concurrency on the dashboard is not modelled. The four replies are one input, and a throw in any of them is one outcome.
- The 500 ms pause between backfill rows, `localStorage` for the reading goal, `confirm` (taken as an input), `alert`, `console`, JSX rendering, navigation, the footer, the stat cards and the poster modal are not modelled.
- The search field's typing (`setSearch`) and the form's field edits are plain assignments; they have no handler here.
- `mockData.ts` and `types.ts` are static data and type declarations, so they are not modelled.
- Text fields that the record types declare as strings are modelled as always present. The exceptions are the vinyl notes and the owned-book series name, which the code itself tests for presence.
- GoogleBooks.SearchGoogleBooks does not model the throw of a volume without `volumeInfo`. A result list is built for every volume.
- CoverUpdater.CoverUpdater.StartUpdate assumes the store's update succeeds. The code ignores the update's error and counts the row anyway, and the model's counter does the same.
