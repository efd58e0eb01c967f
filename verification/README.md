# Second-hand price checker backend, modelled in Dafny

This project models the core of a demo price-checking backend. A client uploads
photos of a second-hand item. The service stores the photos and files an
analysis record. A background task then identifies the item, looks up market
listings and estimates a price range in Thai baht. The record can be looked
up, listed in a per-user history, deleted or re-run by hand.

The model has three parts.

- **Registry and endpoints** (`Records`, `Validation`, `History`, `Api`):
  - The `analyses_db` dictionary is a map from analysis id to record. It also
    keeps the ids in insertion order, which the history listing relies on.
  - Each endpoint is a pure function from the state before the request to the
    state after it and the reply.
  - Every error (400 from upload validation, 404 for an unknown id) is a
    `Result` value.
  - The background task is two steps. `BeginProcessing` marks the record
    processing, and `FinishProcessing` merges the outcome.
- **Analysis pipeline** (`Identify`, `Market`, `Pricing`, `Analysis`):
  - Keyword identification from the image file name, with the random fallback
    as a parameter `pick`.
  - Shaping of search results, and the keyword fallback tables used when the
    search raises.
  - Price extraction from `฿` texts, and the min / max / mean estimate.
  - The mock result that `analyze_images` returns on any exception.
- **Artifact store** (`Storage`):
  - A map from `(analysis directory, file name)` to bytes, plus the set of
    analysis directories.
  - Save, read, delete and per-analysis delete, plus URL derivation.

`Text` holds the Python string and `pathlib` operations the code uses. `Wrappers`
holds `Option` and `Result`.

The main invariant is `Api.Consistent`:

- the registry is well formed;
- every record's image paths are stored files in the record's own directory;
- every stored file belongs to the record of its directory;
- every record holds the fields its status calls for.

Submission, processing and deletion each preserve it.

Inputs the program takes from outside become parameters:

- the `uuid4` analysis id and the file-name tokens, with a freshness precondition;
- `datetime.now()`, as a natural timestamp;
- what the search provider does (`SearchOutcome`: hits, or an exception);
- the `random.choice` index `pick`.

Two behaviours of the code are worth stating outright.

- History pages are the Python slice `[(page - 1) * limit : page * limit]` in
  `api/main.py`. Page 2 with limit 20 over 25 records is `[20:40]`, which
  holds 5 records (`History.SecondPageOfTwentyFive`).
- `process_analysis` merges its outcome into the record with `dict.update`.
  A failed re-run of a completed record therefore keeps its earlier results
  next to the new `error_message` (`Api.RerunFailureKeepsResults`).

## Model

| member | source | states |
|---|---|---|
| Storage.EmptyStore | api/services/storage_service.py:8-10 | The store starts with no files, and every file lies in an existing directory. |
| Storage.StoredName | api/services/storage_service.py:19-21 | The generated name starts with the random token, is a single path component (no `/`), and is the token followed by the filename's suffix, or by `.jpg` when the filename has none. |
| Storage.StoredNameKeepsExtension | api/services/storage_service.py:19-21 | The stored file keeps the upload's extension: the suffix of the generated name is the filename's suffix, or `.jpg` when the filename has none. |
| Storage.SaveImage | api/services/storage_service.py:12-28 | Creates the analysis directory if needed. The new file lies in that directory under the generated name and did not exist before. Exactly that one file is added, every existing file keeps its bytes, and directory validity is kept. |
| Storage.GetImage | api/services/storage_service.py:30-37 | A file's bytes are returned exactly when the file exists, and they are the stored bytes. A missing file gives `None`. |
| Storage.SaveGetRoundTrip | api/services/storage_service.py:12-37 | Reading a file just saved returns the saved bytes. Reads of every other file are unaffected. |
| Storage.DeleteImage | api/services/storage_service.py:39-46 | Returns true exactly when the file existed. The file is gone afterwards, every other file reads as before, and the directories are unchanged. |
| Storage.DeleteTwice | api/services/storage_service.py:39-46 | A second deletion of the same file returns false and changes nothing. |
| Storage.SaveThenDelete | api/services/storage_service.py:12-46 | Deleting a file just saved succeeds and restores the earlier files exactly. |
| Storage.DeleteAnalysisImages | api/services/storage_service.py:48-66 | An absent directory gives false with nothing changed. Otherwise the directory and every file in it are removed, every file of other directories reads as before, and the result is true. |
| Storage.GetImageUrl | api/services/storage_service.py:68-73 | For path strings already in `pathlib`'s normal form, a URL is produced exactly when the path lies under the storage root. It is `<base url>/uploads/` followed by the path relative to the root, and nothing else. |
| Storage.ImageUrlOfStoredFile | api/services/storage_service.py:68-73 | The URL of a stored file's path is `<base url>/uploads/<analysis id>/<name>`. |
| Text.ContainsIffOccurs | api/services/analysis_service.py:84 | The recursive substring test holds exactly when the word occurs at some position. This is the meaning of Python's `in` on strings. |
| Text.ToLower | api/services/analysis_service.py:81 | Keeps the length and every non-upper-case character, and leaves no upper-case ASCII letter. |
| Text.BaseName | api/services/analysis_service.py:81 | `Path.name` is the tail of the path after its last `/`: it holds no `/`, the character just before it is `/` whenever it is shorter than the path, and it is the whole path when the path has no `/`. |
| Text.Suffix | api/services/storage_service.py:20 | `Path.suffix` is empty, or a tail of the name that starts with a dot, has no further dot and no `/`, and is at least two characters long. |
| Text.SuffixAt | api/services/storage_service.py:20 | The suffix of a single component whose last dot is at an interior position is the tail that starts at that dot. |
| Text.SuffixOfDotted | api/services/storage_service.py:20 | The suffix of `stem.ext` is `.ext` when neither part holds `/` and the extension holds no dot. |
| Text.StripLeft | api/services/analysis_service.py:302 | The result is a tail of the text. Everything removed is whitespace, and the result does not start with whitespace. |
| Text.StripRight | api/services/analysis_service.py:302 | The result is a prefix of the text. Everything removed is whitespace, and the result does not end with whitespace. |
| Text.RemoveChar | api/services/analysis_service.py:302 | `replace(c, "")` leaves no `c`, is no longer than the text, and keeps only characters of the text. |
| Text.NatToStringRoundTrip | api/services/analysis_service.py:302 | Reading back the decimal rendering of a natural gives that natural. |
| Validation.FirstRejection | api/main.py:54-63 | No error exactly when every remaining upload has an `image/` type and at most 10 MiB. Any error is the type error or the size error. |
| Validation.ValidateUploads | api/main.py:50-63 | More than five uploads fail with "Maximum 5 images allowed". A submission passes exactly when it has at most five uploads and each passes both checks. Otherwise the per-image loop decides the error. |
| Validation.FirstRejectionAt | api/main.py:54-63 | When the uploads before position `j` pass and the one at `j` fails, the loop reports the failure of `j`: the type error first, else the size error. |
| Validation.RejectsFirstOffender | api/main.py:54-63 | The first failing upload decides the 400 error of the whole submission, whatever follows it. |
| Validation.SizeLimitInclusive | api/main.py:62-63 | A single image of exactly 10 MiB is accepted, and one byte more fails with "Image size must be less than 10MB". |
| Records.NewRecord | api/main.py:79-86 | A new record is pending, with no outcome fields, estimated time 30, and the given id, user, image paths and creation time. |
| Records.Insert | api/main.py:79-86 | Adds the record under its id and appends the id to the insertion order, keeping the registry well formed. |
| Records.Replace | api/main.py:210-217 | In-place update of a record keeps the ids and their order, and keeps the registry well formed when the record stays under its id. |
| Records.RemoveId | api/main.py:167 | Removing an id from the order keeps every other id and keeps the order free of duplicates. An id that is not there leaves the order unchanged. |
| Records.RemoveIdSplices | api/main.py:167 | In an order without repeats, removing a present id splices it out at its position: the ids before and after it keep their relative order, as `del` on a `dict` does. |
| Records.Remove | api/main.py:167 | `del` drops the record and its id, and keeps the registry well formed. |
| History.UserRecords | api/main.py:133-136 | Holds only records of the user, and every record of the user. |
| History.UserRecordsAppend | api/main.py:133-136 | One more id at the end of the registry order appends its record exactly when it is the user's. So each of the user's records appears once, in registry order, and the total count is their number. |
| History.SortPermutes | api/main.py:139 | The sort neither loses nor adds a record (same multiset). |
| History.SortOrders | api/main.py:139 | The sorted records are newest first. |
| History.SortIsStable | api/main.py:139 | Records with equal creation times keep their relative order, as Python's stable `list.sort` guarantees. |
| History.SliceKeepsOrder | api/main.py:142-144 | A Python slice of a newest-first sequence is newest first and holds only its elements. |
| History.PageWithinLimit | api/main.py:142-144 | For a non-negative limit, a page holds at most `limit` records. |
| History.NegativeLimitFirstPage | api/main.py:142-144 | A negative limit is not refused. Page 1 then drops the last `-limit` records and returns the rest. |
| History.SecondPageOfTwentyFive | api/main.py:142-144 | Page 2 with limit 20 over 25 records is the last 5 records. |
| History.UserHistory | api/main.py:133-151 | The total count is the number of the user's records, independent of the page. The page is the Python slice `[(page-1)*limit : (page-1)*limit+limit]` of the sorted list, holds only the user's registry records, and is newest first. |
| Identify.FirstMatch | api/services/analysis_service.py:84-118 | Finds the first keyword group with a word in the name. No earlier group has one. |
| Identify.IdentifyItem | api/services/analysis_service.py:80-145 | The first matching group, in the order book, phone, laptop, watch, camera, decides the description. With no match, the random choice among the three book descriptions decides. |
| Identify.IdentifyRange | api/services/analysis_service.py:84-145 | Identification always gives one of the five keyword descriptions or one of the three fallback ones, and a keyword description whenever any group matches. |
| Identify.BookWordShadowsLaptop | api/services/analysis_service.py:84-104 | A name containing `macbook` or `notebook` is identified as the programming book, because the book group is probed first. |
| Identify.StoredNameMatchesNoKeyword | api/services/analysis_service.py:84-118 | No keyword occurs in a name made of hexadecimal digits and `.jpg`. |
| Identify.StoredImageUsesFallback | api/services/analysis_service.py:80-145 | For a stored image path `<dir>/<32 hex digits>.jpg`, identification always falls to the random book description. |
| Market.ShapeResults | api/services/analysis_service.py:166-176 | Gives the first five hits in rank order. Title and link default to "", every price is "Price not available", and every source is "Google Search". |
| Market.FallbackListings | api/services/analysis_service.py:178-286 | Always three `฿`-priced listings. The first keyword group found in the lower-cased query decides the table, in the order book, laptop, watch, camera. A query matching no group gives the default table. |
| Market.SearchMarketData | api/services/analysis_service.py:156-286 | At most five listings. Provider hits are shaped, and a raised search falls back to the keyword tables. |
| Market.MacbookQueryGetsBookTable | api/services/analysis_service.py:181-202 | A failed search for a query containing `macbook` gives the book table, not the laptop table, because `book` is probed first. |
| Pricing.ParsePrice | api/services/analysis_service.py:298-305 | Only texts holding `฿` yield a number. |
| Pricing.ParsePlainPrice | api/services/analysis_service.py:300-303 | `<digits> ฿` reads as that number. |
| Pricing.ParseGroupedPrice | api/services/analysis_service.py:300-303 | `<n>,<ddd> ฿` reads as `1000 * n + ddd`, since the comma is removed before reading. |
| Pricing.ExtractPrices | api/services/analysis_service.py:296-305 | Empty exactly when no listing's price reads. Every number comes from some listing's price, and every readable price is among the numbers. |
| Pricing.ExtractPricesAppend | api/services/analysis_service.py:296-305 | One more listing appends its price exactly when the price reads, and adds nothing otherwise. So each readable price is extracted once, in listing order. |
| Pricing.MinOf | api/services/analysis_service.py:308 | The minimum is one of the prices and at most every price. |
| Pricing.MaxOf | api/services/analysis_service.py:309 | The maximum is one of the prices and at least every price. |
| Pricing.MeanBetweenExtremes | api/services/analysis_service.py:307-311 | The mean lies between the minimum and the maximum. |
| Pricing.MeanTimesCount | api/services/analysis_service.py:310 | The mean times the number of prices is their sum. |
| Pricing.AnalyzePrice | api/services/analysis_service.py:288-327 | Confidence is 85 and the currency THB on every path, and min <= suggested <= max. With no readable price the result is 280 / 450 / 365. Otherwise min and max are prices bounding all others, and the suggestion is their mean. |
| Pricing.ShapedResultsUseDefault | api/services/analysis_service.py:167-176 | Listings shaped from search hits never yield a price, so a successful search always ends in the 280 / 450 / 365 estimate. |
| Pricing.BookTablePrices | api/services/analysis_service.py:182-201 | The book table reads as 350, 450, 280. |
| Pricing.BookTableEstimate | api/services/analysis_service.py:182-201 | The book table gives 280 to 450, suggesting 360. |
| Pricing.DefaultTablePrices | api/services/analysis_service.py:267-286 | The default table reads as 350, 420, 280. |
| Pricing.DefaultTableEstimate | api/services/analysis_service.py:267-286 | The default table gives 280 to 420, suggesting 350. |
| Pricing.LaptopTablePrices | api/services/analysis_service.py:203-222 | The laptop table reads as 35000, 38500, 32800, since the thousands separators are dropped. |
| Pricing.LaptopTableEstimate | api/services/analysis_service.py:203-222 | The laptop table gives 32800 to 38500. |
| Analysis.SearchQuery | api/services/analysis_service.py:52 | The query starts with `name + " " + series`, has that length plus the phrase's, and ends with " ราคา มือสอง". |
| Analysis.AnalyzeImages | api/services/analysis_service.py:40-68 | Never fails. With no image it gives the mock result. Otherwise it identifies the first path, searches with that item's query, and prices the listings found. Confidence is 85 and min <= suggested <= max. |
| Analysis.OnlyFirstPathMatters | api/services/analysis_service.py:44-46 | Paths after the first never affect the result. |
| Analysis.FallbackItemsQueryBooks | api/services/analysis_service.py:181-201 | The query of every fallback book description falls back to the book table. |
| Analysis.MacBookQueryGetsBookTable | api/services/analysis_service.py:181-202 | The MacBook description's own query falls back to the book table. |
| Analysis.StoredImageEstimate | api/services/analysis_service.py:40-68 | For a stored image path, the result is the random book description with a range from 280 to 450. A failed search gives the book table (suggestion 360), and a successful one gives unpriced listings (suggestion 365). |
| Analysis.MockOnlyWithoutImages | api/services/analysis_service.py:65-68 | For any path list, the mock result is returned exactly when the list is empty. |
| Api.Initial | api/main.py:32-36 | The service starts with an empty registry and an empty store, which agree. |
| Api.StoredUploadName | api/main.py:73-75 | Every upload, named `image_<i>.jpg` by the handler, is stored as `<token>.jpg`. |
| Api.SaveAll | api/main.py:72-76 | The saving loop returns one path per upload, in upload order, each in the analysis directory, and creates the directory exactly when there is an upload. |
| Api.SaveAllContents | api/main.py:72-76 | After the loop, each upload's bytes are stored under its path, earlier files are unchanged, and no other file appears. |
| Api.Accept | api/main.py:68-86 | Exactly one new pending record is filed, listing the saved paths in upload order, and its id is appended to the order. The store gains exactly those files, holding the uploads' bytes. |
| Api.AcceptThenGet | api/main.py:78-96 | Right after acceptance, lookup shows the record pending with no result, although the reply says processing. No other lookup changes. |
| Api.AcceptKeepsConsistent | api/main.py:68-96 | Filing the record together with its saved files keeps the registry and the store in agreement. |
| Api.Submit | api/main.py:42-96 | A refused submission changes nothing and returns the validation error. An accepted one is answered with status processing and estimated time 30. Lookup then shows it pending with its submission time and no result. The store gains exactly the uploads' files with their bytes, and no other lookup changes. The registry and the store stay in agreement either way. |
| Api.Get | api/main.py:98-127 | 404 exactly for an unknown id. A completed record shows its stored item, price range, confidence and market data, with market data defaulting to []. Any other status shows only id, status and creation time. Completion time and error message are never shown. |
| Api.BeginProcessing | api/main.py:195-198 | Only the record's status changes, to processing. Other records, the ids and the order are unchanged. |
| Api.FinishProcessing | api/main.py:209-228 | Success merges status completed, the four result fields and the completion time, and keeps any earlier error message. An exception merges status error, the message and the completion time, and leaves earlier result fields in place. Id, user, image paths, creation time and estimated time are kept, and other records are untouched. |
| Api.RunTask | api/main.py:192-228 | The task changes only the processed record, which ends holding the merged outcome and the fields its new status calls for. It does nothing for an unknown id, and it keeps the registry and the store in agreement whether the service returns or raises. |
| Api.MergeKeepsConsistent | api/main.py:192-228 | Changing one record while keeping its images and the fields its status calls for keeps the agreement. |
| Api.Process | api/main.py:192-217 | The record ends completed and is merged as `dict.update` would merge the service's output into it; its lookup shows exactly that output for the record's stored paths. Every other stored record and lookup is unchanged, the order, the keys and the store are untouched, and the agreement is kept. |
| Api.DeleteAll | api/main.py:162-164 | Deleting every path of a record removes exactly those files, and leaves the other files and the directories unchanged. |
| Api.Delete | api/main.py:153-169 | 404 with nothing changed for an unknown id. Otherwise the reply is "Analysis deleted successfully", the analysis is unknown afterwards, its image files are gone, and every other record, file and directory is as before. The agreement is kept. |
| Api.RemovalKeepsConsistent | api/main.py:157-169 | Removing a record together with its image files keeps the agreement. |
| Api.CompleteManually | api/main.py:180-190 | 404 with nothing changed for an unknown id. Otherwise the reply is "Analysis completed" whatever the current status, the record is merged with the service's output and shows it. Every other stored record and lookup is unchanged, the order, the keys and the store are untouched, and the agreement is kept. |
| Api.DeleteThenGet | api/main.py:157-190 | After deletion, lookup, a second deletion and the manual trigger all answer 404, and none of the record's files remains. |
| Api.DeletedWhileProcessing | api/main.py:195-228 | A deletion between the task's two steps wins: the final merge finds no record, and the analysis stays deleted. |
| Api.RerunFailureKeepsResults | api/main.py:221-228 | A failed re-run of a completed analysis leaves its item and price range next to the error message. |
| Api.FirstUploadPath | api/main.py:73-76 | The service receives `<root>/<analysis id>/<token>.jpg` as the first path. |
| Api.SubmitThenProcess | api/main.py:69-217 | End to end: a submission with images, once processed, is completed with the randomly chosen book description and a range from 280 to 450, whatever the search does. |
| Api.EmptySubmissionGetsMock | api/main.py:69-217 | A submission without images is accepted, stores nothing, and its processing yields the mock result (Educational Book, book table). |

## Left out

- `float()` parsing: prices are naturals written as digit runs with optional commas. Forms `float()` also accepts (decimals, signs, exponents, `nan`, `inf`, digits other than ASCII) are not modelled. The mean is a `real`.
- Pricing.ParsePrice: states the baht gate and the readings proved for `<digits> ฿` and `<n>,<ddd> ฿`, not a full characterisation of `float()`.
- Text.ToLower: lower-cases ASCII letters only. Python's `str.lower()` also maps non-ASCII letters; no keyword or file name in the model depends on them.
- Text.StripLeft: whitespace is the code points Python's `str.isspace()` accepts, listed explicitly. Nothing about Unicode categories beyond that list is modelled.
- Storage.EmptyStore: the store starts with no files. `mkdir(exist_ok=True)` keeps files from earlier runs, while the registry restarts empty; the model assumes the upload directory starts empty.
- Api.Initial: assumes an empty upload directory at start-up, as above. Files left by an earlier run would belong to no record, which `Api.Consistent` does not allow.
- Text.BaseName: works on the path string as written, without `pathlib`'s normalisation. A path ending in `/` gives the empty name, while `Path("a/b/").name` is `b`. A final `.` component gives `.`, while `Path("a/book/.").name` is `book` and `Path(".").name` is empty, so such a path could be identified differently. Stored paths are `<root>/<id>/<token>.<ext>` and never end in `/` or `.`.
- Storage.GetImageUrl: paths and the storage root are taken as normalised `pathlib` strings. `relative_to` first collapses `//`, drops a leading `./` and a trailing `/`, and maps the root itself to `.`. So `./uploads/x`, `uploads//x`, `uploads/x/` and `uploads` get different answers in the model (respectively no URL, the `//` kept, the `/` kept, and no URL). `Storage.EmptyStore` and `Api.Initial` likewise keep the root exactly as given. Every path the service hands out is built by `PathString` from a normalised root, for which `Storage.ImageUrlOfStoredFile` gives the source's URL.
- Text.Suffix: follows `Path.suffix` for names whose last dot is neither the first nor the last character. Other `pathlib` normalisation (trailing slashes, `.` and `..` components) is not modelled.
- FastAPI request handling: routing, CORS, pydantic validation and the 422 reply FastAPI gives a request with no `images` field are not modelled. An empty upload list flows through the handler as the code allows.
- Concurrency: the background task is two sequential steps. The `asyncio.sleep(2)` in between is modelled only by `Api.DeletedWhileProcessing`. A deletion during the manual trigger's sleep, which makes it reply `{"success": False}`, is not modelled.
- Unreachable `except` branches: `_identify_item`'s "Unknown Item" result and `_analyze_price`'s exception result cannot be reached on modelled inputs, so they are not modelled.
- External services: the Ark client setup, the LLM call and the SerpAPI client are not part of this model. The search result is a parameter (`SearchOutcome`), and the random choice is the parameter `pick`.
- `uuid4` and `datetime.now()` are parameters. Timestamps are naturals ordered like the ISO-8601 strings the code compares.
- The `GET /` and `GET /api/test-analysis` endpoints, `print` logging and `start_backend.py` are not modelled.
- `delete_analysis` removes the image files but not the analysis directory, as the code does. `delete_analysis_images` is modelled on its own because no endpoint calls it.
- File contents are byte sequences. Disk errors from `aiofiles` and `os.remove` other than a missing file are not modelled.
