# Walgreens clearance to Amazon matcher, modelled in Dafny

The repository scrapes the Walgreens clearance search page. Of the first ten
product tiles, for each one whose product is not stored yet, it reads the
detail page: the title, the two prices and the image URLs. It searches Amazon
for the title and keeps the readable ones among the first ten results. It then asks an image-matching model
(GPT-4o) which results show the same product, and stores the listing, the
matched Amazon products and the matches in three SQL tables.

This project models that core: `main.py` and the tables of `app/models.py`.
It proves what each step promises.

| file | module | models |
|---|---|---|
| `wrappers.dfy` | `Wrappers` | `Option` |
| `pystr.dfy` | `PyStr` | Python's `str.strip`, `replace(p, '')`, `split` and `join` |
| `asin.dfy` | `Asin` | `extract_asin` and its regular expression |
| `oracle_reply.dfy` | `OracleReply` | trimming, un-fencing and un-tagging the model's reply, and `json.loads` of an integer array, with an independent printer for the round trip |
| `listing_fields.dfy` | `ListingFields` | title, price and image-URL extraction from a detail page |
| `index_resolution.dfy` | `IndexResolution` | mapping the model's indices onto the results with Python list indexing |
| `models.dfy` | `Models` | the three tables, their unique keys, not-null columns and foreign keys |
| `catalog.dfy` | `Catalog` | `insert_data_to_db`, as functions on the tables and as the `Store` class that changes them in place |
| `matching.dfy` | `Matching` | `find_matching_amazon_images`: the request, the model call, the decoded reply |
| `pipeline.dfy` | `Pipeline` | `search_amazon_with_selenium`'s result loop and `scrape_walgreens_promotions_selenium` |

The browser, the Amazon search and the model are parameters (`Pipeline.Env`).
Each one returns what the page or the service gave back:
- The detail page is `None` when its thumbnails never appear. The wait then
  raises and the whole scrape ends in its outer `except` (main.py:207-209).
- The model's reply is `None` when the call raises. That also ends the whole
  scrape.
- The search has two failure levels. `search_amazon_with_selenium` catches
  what raises inside its `try` and returns `[]` (main.py:84-86). That is
  `Some(None)`, and the tile goes on with no results. Opening the Amazon tab
  comes before that `try` (main.py:37-39), and `driver.close()` runs in its
  `finally` (main.py:88). When either raises, the search is `None` and the
  whole scrape ends.

Each imperative part of the source is a method proved equal to a
specification function:
- `Store.InsertDataToDb` follows `InsertData`;
- `ScrapePromotions` follows `ScrapeRun`;
- `ProcessTile` follows `ScrapeTile`;
- `CollectCandidates` follows `SearchResults`;
- `BuildOracleRequest` follows `OracleRequestFor`;
- `ResolveMatches` follows `Resolve`;
- `CollectImageUrls` follows `ImageUrls`.

The properties are proved as lemmas about those functions.

Facts about `main.py` that the model keeps:
- **Products are insert-only.** A stored product is never updated: there is no price-change or in-stock transition. New rows get `in_stock = False` and no price.
- **No navigation retry.** A timeout while a detail page loads ends the whole scrape. The page is not retried, and the tile is not skipped.
- **Indices are not bounds-checked.** Oracle indices are resolved with Python list indexing, so index 0 and in-range negative indices pick results from the end of the list. Only indices outside Python's range are dropped.
- **Errors end the whole run.** A failed model call, and any other exception in the tile loop that nothing inside catches, ends the whole run. The error is not confined to one listing.
- **No enrichment pass.** There is no buy-box or seller-count computation. Those columns stay unset.

The request puts the listing's image first and then one image per result, so
request image `k` is result `k - 1`. Index `k` therefore picks `amazon_results[k - 1]`,
which matches the reply to the right result if the model counts the listing's
own image as 0. The prompt does not say how to count. The model takes the code as written.

## Model

| member | source | states |
|---|---|---|
| PyStr.Strip | main.py:324 | the result has no whitespace at either end and is no longer than the input |
| PyStr.StripRemovesOnlyEnds | main.py:324 | the input is whitespace, then the stripped text, then whitespace: nothing inside is removed |
| PyStr.StripPadded | main.py:152 | text with no whitespace at its ends, padded with whitespace, strips back to itself |
| PyStr.StripIdempotent | main.py:152 | stripping twice is stripping once |
| PyStr.RemoveAll | main.py:152 | `replace(p, '')` never lengthens the text |
| PyStr.RemoveAllAbsent | main.py:152 | text that does not contain the pattern is left unchanged |
| PyStr.RemoveCharGone | main.py:162 | after removing a quote character, none is left |
| PyStr.RemoveCharAbsent | main.py:162 | removing a character the text lacks changes nothing |
| PyStr.JoinStripped | main.py:148 | joining non-empty stripped pieces gives non-empty stripped text |
| PyStr.JoinSplit | main.py:162 | joining the pieces of `split(sep)` with `sep` gives back the text |
| PyStr.SplitCut | main.py:162 | splitting around one separator occurrence that no other occurrence overlaps gives the pieces on each side |
| PyStr.SplitNoSep | main.py:162 | text without the separator splits into itself |
| PyStr.SplitFirstNoChar | main.py:162 | the first piece of `split(c)` does not contain `c` |
| PyStr.ContainsChar | main.py:162 | a one-character pattern occurs exactly when the character is in the text |
| PyStr.RemoveAllKeeps | main.py:162 | removal adds no character |
| Asin.FirstMatchFrom | main.py:26 | the position found is a match and no match precedes it; none means there is no match from there on |
| Asin.ExtractAsin | main.py:25-27 | `None` exactly when no `/` + 10 of `[A-Z0-9]` + (`/`, `?` or end) occurs; otherwise the 10 characters of the leftmost occurrence |
| Asin.ExtractAsinAfterPlainPrefix | main.py:25-27 | after a prefix without ID characters, the ID following the first `/` is extracted |
| Asin.FirstMatchSkips | main.py:26 | positions without a match do not change the leftmost match |
| Asin.ExtractAsinFromProductPage | main.py:25-27 | a `https://www.amazon.com/dp/<ID>` URL yields its ID |
| Asin.NoSlashNoAsin | main.py:25-27 | a URL without `/` has no ID |
| OracleReply.Unfence | main.py:327-328 | dropping one pair of fences keeps a stripped text stripped |
| OracleReply.Untag | main.py:331-332 | dropping the `json` tag keeps a stripped text stripped |
| OracleReply.Normalize | main.py:324-332 | the normalised reply never has whitespace at its ends |
| OracleReply.NormalizeUnfenced | main.py:324-332 | a reply that is neither fenced nor tagged is only trimmed |
| OracleReply.UnfenceFenced | main.py:327-328 | a fenced text loses exactly its two fences and is trimmed |
| OracleReply.UntagTagged | main.py:331-332 | a tagged text loses exactly its tag and the whitespace around the body |
| OracleReply.NormalizeFenced | main.py:324-332 | whatever whitespace surrounds a fenced body, with or without the `json` tag, normalisation gives back the body |
| OracleReply.NormalizeExample | main.py:324-332 | "```json\n[1,3]\n```" normalises to "[1,3]" |
| OracleReply.SkipWs | main.py:335 | the result is a suffix of the input, the part skipped is all JSON whitespace (space, tab, line feed, carriage return), and the suffix does not start with whitespace |
| OracleReply.SpanDigits | main.py:335 | splits off the longest digit prefix |
| OracleReply.ParseElements | main.py:335 | parsing elements consumes input and yields at least one integer |
| OracleReply.DigitsValueOfNat | main.py:335 | reading the printed digits of `n` gives `n` |
| OracleReply.SpanDigitsOf | main.py:335 | digits followed by a non-digit split exactly there |
| OracleReply.ParseNatOf | main.py:335 | a printed natural number parses back |
| OracleReply.ParseIntOf | main.py:335 | a printed integer, negative or not, parses back and leaves the rest |
| OracleReply.ParseIndexListOf | main.py:335 | `json.loads` of the compact JSON text of any integer array gives the array back |
| OracleReply.ParseIntToken | main.py:335 | whatever integer is read, the text read is a JSON number token for that value |
| OracleReply.ParseRendered | main.py:335 | every JSON integer array, with any whitespace between its tokens, parses to its integers |
| OracleReply.ParseIndexListShape | main.py:335 | whatever parses to `xs` is laid out as a JSON integer array of `xs` |
| OracleReply.ParseIndexListIff | main.py:335 | parsing gives `xs` exactly when the text is the JSON text of the integer array `xs` (RFC 8259, sections 2, 5 and 6), in both directions |
| OracleReply.DecodeNotJson | main.py:335-339 | a reply whose normalised text is no JSON integer array decodes to no index instead of raising |
| OracleReply.DecodeJson | main.py:324-339 | a reply whose normalised text is the JSON text of `xs` decodes to `xs` |
| OracleReply.DecodeFencedExample | main.py:324-339 | the fenced, tagged reply "```json\n[1,3]\n```" decodes to [1, 3] |
| ListingFields.StrippedStrings | main.py:148 | each kept piece is non-empty and stripped, and none is added |
| ListingFields.StrippedStringsOne | main.py:148 | one text piece gives its stripped text, or nothing when that is empty |
| ListingFields.StrippedStringsConcat | main.py:148 | the pieces are handled one by one in order: the result for `a + b` is the result for `a`, then for `b` |
| ListingFields.TitleStripped | main.py:148 | a title never has whitespace at either end |
| ListingFields.TitleOfOnePiece | main.py:148 | a heading with one text piece gives that text, trimmed |
| ListingFields.TitleOfBlankHeading | main.py:148 | a heading of only whitespace pieces has no stripped string |
| ListingFields.CleanPrice | main.py:151-155 | a present price is stripped text; an absent one is its fallback text |
| ListingFields.PriceAfterLabel | main.py:151-155 | the amount shown after "old price" or "Sale price" comes back exactly, whatever the whitespace around it |
| ListingFields.FirstBackgroundStyle | main.py:158 | the chosen style is the first one that mentions `background-image`; none means no style mentions it |
| ListingFields.BackgroundImageUrl | main.py:161-164 | the URL taken from the style is never protocol-relative |
| ListingFields.BackgroundImageUrlClean | main.py:162 | the URL holds no quote and no `)` |
| ListingFields.BackgroundImageUrlOf | main.py:161-164 | a quoted or bare `url(...)` in a style yields that URL |
| ListingFields.ThumbnailUrls | main.py:169-177 | every thumbnail URL starts with `https:`, and there is at most one per item |
| ListingFields.ThumbnailUrlsOne | main.py:171-175 | one item gives `https:` + its `src`, or nothing when the `src` is missing or empty |
| ListingFields.ThumbnailUrlsConcat | main.py:171-175 | thumbnails are collected item by item in order |
| ListingFields.ThumbnailUrlsAllPresent | main.py:172-175 | when every item has a non-empty `src`, the URLs are exactly `https:` + each `src`, in order |
| ListingFields.ImageUrlsHaveScheme | main.py:158-177 | no image URL of a listing is protocol-relative |
| ListingFields.ImageUrlsBackgroundFirst | main.py:158-166 | when a background image exists it is the first image URL |
| ListingFields.CollectImageUrls | main.py:157-177 | the loop collects exactly the image URLs of the page |
| ListingFields.ListingOf | main.py:146-185 | the listing carries the URL it was read from; its title is stripped, and is `No title found` without a heading; each price is stripped when shown and its fallback text otherwise; no image URL is protocol-relative; a background image is the first image URL |
| IndexResolution.PyIndex | main.py:196 | Python's `xs[j]` reads position `j` or `n + j`, and raises exactly when `j` is outside `-n <= j < n` |
| IndexResolution.Resolve | main.py:192-200 | at most one result per index, each one of the results |
| IndexResolution.ResolveMatches | main.py:192-200 | the loop's list equals the resolved results |
| IndexResolution.ResolveConcat | main.py:192-200 | resolution keeps the order of the indices |
| IndexResolution.ResolveInRange | main.py:192-200 | indices between 1 and the number of results pick `results[k - 1]` each, keeping order and repetitions |
| IndexResolution.ResolveDropsOutOfRange | main.py:197-199 | an index outside Python's range is dropped |
| IndexResolution.ResolveZeroIsLast | main.py:196 | index 0 picks the last result |
| IndexResolution.ResolveNegative | main.py:196 | a negative index counts from the end |
| IndexResolution.ResolveNoResults | main.py:192-200 | with no results, nothing is matched |
| Models.FindFirst | main.py:220 | `filter_by(...).first()` finds the first row with the key, and finds none exactly when no row has it |
| Models.FindFirstExtended | main.py:241 | a row found stays the one found after rows are added |
| Models.FindFirstAppended | main.py:225-232 | a key appended to a table that lacked it is found in the new last row |
| Models.UniqueAppend | app/models.py:13 | appending a missing key keeps a key column unique |
| Models.EmptyValid | app/models.py:7-62 | the empty tables meet every constraint |
| Models.KeysExtended | app/models.py:13 | adding rows keeps each key column as a prefix of the new one |
| Catalog.EnsureProduct | main.py:220-234 | inserts the product exactly when its URL is not stored, as the next row with no price and not in stock; an existing row is left untouched |
| Catalog.LinkMatch | main.py:258-264 | afterwards the pair is matched; an existing pair changes nothing, and a new one is appended as the next match row; the other tables stay as they were |
| Catalog.InsertCandidate | main.py:237-264 | fails exactly when the URL has no ASIN, or the ASIN is new and the image is missing; otherwise a known ASIN adds no Amazon row, a new one is appended as the next row with the result's title, URL and image, and the match to the ASIN's row is added exactly as `LinkMatch` adds it |
| Catalog.InsertCandidates | main.py:237-268 | the loop only appends rows, never product rows, and stops at a candidate it reports |
| Catalog.InsertData | main.py:216-270 | `insert_data_to_db` only appends rows |
| Catalog.EnsureProductValid | main.py:220-234 | the constraints are kept and the id returned is the row of the listing's URL |
| Catalog.LinkMatchValid | app/models.py:44-53 | a match between existing rows keeps the constraints |
| Catalog.AddAmazonValid | app/models.py:27-36 | an Amazon row with a new ASIN taken from its URL keeps the constraints |
| Catalog.InsertCandidateValid | main.py:237-264 | one candidate keeps the constraints |
| Catalog.InsertCandidatesValid | main.py:237-268 | the candidate loop keeps the constraints |
| Catalog.InsertDataValid | main.py:216-270 | `insert_data_to_db` keeps every unique key and every foreign key valid |
| Catalog.InsertCandidateDefaults | main.py:247-252 | a new Amazon row has no buy-box count and no seller count |
| Catalog.InsertCandidatesDefaults | main.py:237-264 | rows added by the loop keep their defaults |
| Catalog.InsertDataDefaults | main.py:226-252 | new products are from `walgreens`, without price and not in stock; new Amazon rows have no metrics |
| Catalog.StoredExtended | main.py:241-264 | a stored and matched candidate stays so as rows are added |
| Catalog.InsertCandidateStored | main.py:241-264 | a candidate already stored and matched changes nothing |
| Catalog.InsertCandidateStores | main.py:241-264 | a candidate that succeeds is stored and matched |
| Catalog.ReplayCompleted | main.py:237-264 | candidates all handled once change nothing when handled again on any later tables |
| Catalog.ReplayRolledBack | main.py:237-268 | replaying a loop that stopped stops at the same candidate, with no change |
| Catalog.InsertCandidatesReplay | main.py:237-268 | running the candidate loop twice is running it once |
| Catalog.EnsureProductAgain | main.py:220-234 | a product once ensured is found with the same id later |
| Catalog.InsertDataIdempotent | main.py:216-270 | calling `insert_data_to_db` twice with the same data adds nothing the second time |
| Catalog.InsertCandidatesAppend | main.py:237-268 | the loop over `a + b` is the loop over `a`, then over `b` unless `a` stopped |
| Catalog.InsertCandidatesTwice | main.py:237-268 | a candidate list repeated adds no rows beyond one pass |
| Catalog.RolledBackKeepsCommitted | main.py:266-268 | after a failure the candidates before it stay committed, and the failing one is exactly what could not be inserted |
| Catalog.CompletedStoresAll | main.py:237-264 | when the loop completes, every candidate is stored and matched to the product |
| Catalog.Store.constructor | app/models.py:7-62 | a new store has empty tables |
| Catalog.Store.HasProduct | main.py:130-134 | true exactly when a product with the URL is stored |
| Catalog.Store.FindOrAddProduct | main.py:220-234 | changes the store as `EnsureProduct` and returns its id |
| Catalog.Store.AddCandidate | main.py:238-264 | succeeds exactly when `InsertCandidate` does, and leaves the store unchanged when it fails |
| Catalog.Store.InsertDataToDb | main.py:216-270 | changes the store and reports the outcome as `InsertData`, and keeps every table constraint |
| Matching.CandidateImages | main.py:284 | one image entry per result, in result order, a missing image included |
| Matching.OracleRequestFor | main.py:276-313 | no request when the listing has no image; otherwise the prompt, the listing's first image, then image `k` is result `k - 1` |
| Matching.BuildOracleRequest | main.py:281-313 | the loop builds exactly that request |
| Matching.FindMatchingAmazonImages | main.py:273-339 | returns the decoded indices, none without images, and fails when the call raises |
| Matching.NoImagesNoIndexes | main.py:277-279 | a listing without images gets no index, whatever the model would say |
| Matching.FencedReplyIndexes | main.py:324-339 | a fenced, tagged JSON array reply yields exactly its indices |
| Matching.NotJsonReplyIndexes | main.py:335-339 | any reply whose normalised text is not a JSON integer array yields no index and no error |
| Matching.JsonReplyIndexes | main.py:324-339 | a reply whose normalised text is the JSON text of `xs` yields exactly `xs` |
| Pipeline.Take | main.py:53 | `xs[:n]` is a prefix of at most `n` elements, and all of `xs` when it is short enough |
| Pipeline.KeptCandidates | main.py:55-81 | the readable results only, never more than the elements |
| Pipeline.SearchResults | main.py:53-86 | at most ten results, none when the search raised inside its `try` |
| Pipeline.KeptAllReadable | main.py:55-81 | when every element is readable, all are kept in order |
| Pipeline.UnreadableSkipped | main.py:79-81 | an unreadable element takes no place |
| Pipeline.KeptConcat | main.py:55-81 | results are kept element by element in page order |
| Pipeline.CollectCandidates | main.py:53-86 | the loop collects exactly the search results |
| Pipeline.ScrapeTile | main.py:127-202 | known exactly when the tile's URL is stored; a failure changes nothing; a scraped listing was new and is stored afterwards |
| Pipeline.ScrapeListing | main.py:185-202 | a search or model failure ends the tile with the listing collected and nothing stored; otherwise the listing is stored |
| Pipeline.ScrapeListingValid | main.py:185-202 | storing a scraped listing keeps every table constraint |
| Pipeline.ScrapeListingStored | main.py:185-202 | once the search and the model answer, the listing is stored with the results the model picked |
| Pipeline.InsertDataStoresProduct | main.py:220-234 | after `insert_data_to_db` the listing's product is stored |
| Pipeline.ScrapeTiles | main.py:125-203 | only appends rows, and collects at most one listing per tile |
| Pipeline.ScrapeRun | main.py:104-209 | only appends rows, returns at most ten listings, and changes nothing without tiles |
| Pipeline.ScrapeTileValid | main.py:127-202 | one tile keeps every table constraint |
| Pipeline.ScrapeTilesValid | main.py:125-203 | the tile loop keeps every table constraint |
| Pipeline.ScrapeRunValid | main.py:104-209 | a whole scrape keeps every table constraint |
| Pipeline.KnownStaysKnown | main.py:130-134 | a stored URL stays stored |
| Pipeline.ScrapeTilesFresh | main.py:125-203 | the listings are new products, pairwise distinct, and all stored when the run ends normally |
| Pipeline.ScrapeTilesCovers | main.py:125-203 | after a normal run every tile looked at names a stored product |
| Pipeline.AllKnownSkipped | main.py:130-136 | tiles whose products are stored change nothing and yield nothing, with no page, search or model call consulted |
| Pipeline.RerunAddsNothing | main.py:104-209 | scraping the same page again after a normal run stores nothing and returns no listing |
| Pipeline.ScrapeRunListings | main.py:104-209 | the listings returned are at most ten, new, distinct and stored |
| Pipeline.LaterTilesIgnored | main.py:122 | tiles after the tenth are never looked at |
| Pipeline.OneTileScenario | main.py:125-202 | one new tile whose reply is index 2 stores one product, one Amazon product (the second result) and one match |
| Pipeline.ScenarioSearch | main.py:55-81 | an unreadable third result is skipped |
| Pipeline.ScenarioInsert | main.py:216-264 | one candidate on empty tables gives rows 1, 1 and match (1, 1) |
| Pipeline.ScenarioCandidate | main.py:237-264 | a candidate with a new ASIN next to the first product becomes Amazon row 1 and match (1, 1) |
| Pipeline.ScenarioRun | main.py:125-203 | a page of one tile that is scraped returns that tile's listing |
| Pipeline.ProcessTile | main.py:127-202 | one tile changes the store and reports as `ScrapeTile` |
| Pipeline.ScrapePromotions | main.py:104-209 | the scrape changes the store and returns the listings as `ScrapeRun` |

## Left out

- Selenium, BeautifulSoup, the OpenAI client and the SQLAlchemy session are not modelled. The model takes what they return as parameters: `DetailPage`, `ListingPage`, `Pipeline.Env` and the `Store` tables. Waits, sleeps and tab handling are left out. Only their outcome is kept: for the search, whether it raised outside its `try` or inside it.
- `main`, `asyncio.run`, printing and the API key setup are left out: they only start the scrape or log.
- `app/db.py`, `extension/server.js`, `image-recognition.py` and the alembic migration are not part of this model. The migration types `last_seen_price` as Integer; the model follows `app/models.py:15`, which declares String.
- The `created_date` and `updated_date` timestamps are left out: they come from the database clock.
- Models.ProductsValid: ids are modelled as dense row numbers. The database can skip ids after a failed insert, and that gap is not modelled.
- Catalog.InsertCandidate: a new Amazon row gets id `|t.amazonProducts| + 1`. A rolled-back Amazon insert can use up an id in the database, and that gap is not modelled.
- Models.AmazonValid: Amazon ids are checked as dense row numbers, for the same reason.
- Models.MatchesValid: match ids and the Amazon ids they refer to are checked as dense row numbers, for the same reason.
- OracleReply.ParseIndexList: only JSON arrays of integers are decoded. Any other JSON value (an object, a string, a float, `true`) counts as undecodable and gives no index. In the source such a value is returned and either iterated or made to raise later.
- Catalog.Candidate: a result URL is always text. An Amazon link without `href` gives `None` in the source, and `extract_asin(None)` then raises inside the insert. The model stands for it by a URL without an ID: that candidate's insert fails and rolls back in the same way.
- Pipeline.ScrapeTile: every reason a detail page can fail is one `None` from `detailPage`: the thumbnail wait timing out, or the browser raising.
- A race between two scrapers inserting the same key is not modelled: the source runs one scraper and has no code for it.
- There are no price or stock updates, no retry and no enrichment pass, because `main.py` has no code for them.
