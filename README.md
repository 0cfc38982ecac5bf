# realestate_scrapy in Dafny

A model of the data path of the `realestate_scrapy` crawler, from a rendered
homely.com.au listing page to the row in the database:

* **the homely spider** (`HomelySpider`, `CommonUtils`, `HomelyPrice`,
  `HomelyPostcode`, `HomelyFields`, `HomelyGallery`): `extract_external_id`,
  `parse_price`, `parse_postcode`, the post-processing of the selector
  strings (counts, land area, address, coordinates), `parse_gallery` and the
  item that `parse_property` yields or the exception it raises;
* **`HlImagesPipeline`** and **`HlDocumentsPipeline`** (`HlImagesPipeline`,
  `HlDocumentsPipeline`, with their shared part in `StoredFiles`): the
  storage path `realestate/hl/{external_id}/{stem}-{index}.jpg` and the CDN
  URLs appended to `images` / `pdf_document` once files are stored, plus the
  metadata patch written to each stored document;
* **`RealEstateMediaPipeline`**: the download requests, the file name
  `realestate/hl/{external_id}/{category}-{index}.{ext}`, the download report
  and the replacement of `images`, `floor_plan` and `pdf_document` by
  original-to-target mappings;
* **`DBRealEstatePipeline.process_item`** (`DatabasePipeline`): the agent
  found by its exact `(name, phone)` pair or created, the listing with the
  item's `external_id` inserted or merged with Python's `or`, and the commit
  with the table's NOT NULL and UNIQUE constraints.

Python values are modelled by `PyValue.Value` (None, str, int, list, tuple,
dict, datetime) with Python's truthiness and `or`; an item is a map from the
`Field` keys to values. Strings are `seq<char>`; `PyStr` holds the parts of
Python's `str` the source uses (`strip`, `find`, `in`, `replace`, `int`) and
`PosixPath` holds `os.path.join` and `os.path.basename`. Exceptions are the
`Err` side of `Wrappers.Result`, one `PyError` constructor per exception
class the source can raise.

Where the source does not do what it evidently means to, the model keeps
both versions, selected by `Wrappers.Variant` (`AsWritten` or `Corrected`):
see "## Findings". Two further oddities are modelled as written with no
corrected twin: line 112 of `database_pipeline.py` ends in a comma, so a
re-scraped listing stores `council_rates` as a one-element tuple
(`DatabasePipeline.RescrapeSameItem`); and the documents pipeline names
every stored document `doc-{index}.jpg` (`HlDocumentsPipeline.FilePathLayout`).
A page whose map has no coordinates makes `parse_property` raise
UnboundLocalError for `latitude` (`HomelySpider.NoCoordinatesRaises`).

Sources of effects are parameters: the clock (`now`), SHAKE-256 of the URL
(`digest`), the CDN domains of `NEWS_ACCOUNTS` (`cdn`), the bucket name of
`GCS_BUCKET_NAME` (`bucket`), whether a blob patch went through
(`patched`), and what the selectors or the download machinery returned
(`PropertyPage`, `GalleryPage`, `DownloadResult`, `MediaResult`).

## Model

| member | source | states |
|---|---|---|
| CommonUtils.ExtractExternalId | realestate_scrapy/utils/common.py:4-14 | a returned id is a non-empty string of digits |
| CommonUtils.ExtractExternalIdIsSearch | realestate_scrapy/utils/common.py:10-14 | an id is returned exactly when `/(\d+)/?$` matches somewhere, and then it is the group of every match |
| CommonUtils.ExtractExternalIdComplete | realestate_scrapy/spiders/homely.py:388-392 | any match of the pattern yields its group as the id |
| CommonUtils.ExtractExternalIdSound | realestate_scrapy/spiders/homely.py:388-392 | a returned id is the group of some match |
| CommonUtils.ExtractExternalIdShape | realestate_scrapy/utils/common.py:10-14 | a returned id closes the URL: after a '/', before at most one '/' and the newline `$` tolerates |
| CommonUtils.IdOfListingUrl | realestate_scrapy/utils/common.py:6-8 | a URL ending in `/digits` or `/digits/` has those digits as its id |
| CommonUtils.NoIdWithoutSlash | realestate_scrapy/utils/common.py:10-14 | digits not directly after a '/' give no id |
| CommonUtils.ExampleListingUrl | realestate_scrapy/utils/common.py:6-8 | the documented listing URL gives `11105399` |
| CommonUtils.ExampleTrailingSlash | realestate_scrapy/spiders/homely.py:388 | a trailing '/' is accepted |
| CommonUtils.ExampleNoSlashBeforeDigits | realestate_scrapy/spiders/homely.py:388 | `.../abc123` has no id |
| HomelyPrice.GroupValue | realestate_scrapy/spiders/homely.py:459-460 | `int(g.replace(',', '').strip())` is the value of the group's digits, failing exactly when there are none |
| HomelyPrice.RangeValues | realestate_scrapy/spiders/homely.py:457-464 | a matched range gives both values or, when either conversion fails, `(None, None)` |
| HomelyPrice.ParsePrice | realestate_scrapy/spiders/homely.py:431-479 | a missing or empty text gives `(None, None)`; both bounds are present or neither; bounds are never negative |
| HomelyPrice.ParsePriceDiscardsPrefix | realestate_scrapy/spiders/homely.py:442-444 | everything before the first '$' is ignored |
| HomelyPrice.ParsePriceRange | realestate_scrapy/spiders/homely.py:455-464 | `$G1 - $G2` / `$G1 to $G2` (spaces and second '$' optional) gives the two group values |
| HomelyPrice.ParsePriceSingle | realestate_scrapy/spiders/homely.py:467-473 | `$G` with no range gives the same value for both bounds |
| HomelyPrice.ParsePriceNoMarkers | realestate_scrapy/spiders/homely.py:478-479 | a text with none of '$', '-', 't' and 'T' has no price |
| HomelyPrice.ParsePriceNoDigits | realestate_scrapy/spiders/homely.py:431-479 | a text with no digit and no comma (such as "Contact Agent" or "Auction") has no price: neither pattern matches after stripping and cutting at '$' |
| HomelyPrice.ExampleContactAgent | realestate_scrapy/spiders/homely.py:478-479 | "Contact Agent" gives `(None, None)` |
| HomelyPrice.ParsePriceRangeThenText | realestate_scrapy/spiders/homely.py:455-464 | a range followed by other text (starting with no digit or comma) gives the two group values, as the bare range does |
| HomelyPrice.ParsePriceSingleThenText | realestate_scrapy/spiders/homely.py:455-473 | a single price followed by text with no digit or comma, not opening (after spaces) with "-" or "to", and not ending in a space, gives the same value for both bounds: no range is found anywhere in the text |
| HomelyPrice.ParsePriceGroupedThenText | realestate_scrapy/spiders/homely.py:467-473 | for all numbers, a single price with thousands separators followed by such words reads back as `(n, n)` |
| HomelyPrice.ExampleNegotiable | realestate_scrapy/spiders/homely.py:467-473 | "$249,500 negotiable" gives `(249500, 249500)` |
| HomelyPrice.ParsePriceGroupedRange | realestate_scrapy/spiders/homely.py:418-419 | for all numbers, a range written with thousands separators reads back as its two numbers |
| HomelyPrice.ParsePriceGroupedSingle | realestate_scrapy/spiders/homely.py:420-422 | for all numbers and status prefixes without '$', a single price reads back as `(n, n)` |
| HomelyPrice.ParsePriceGroupedDescribedRange | realestate_scrapy/spiders/homely.py:423 | a described range reads back as its two numbers |
| HomelyPrice.ExampleCommasOnly | realestate_scrapy/spiders/homely.py:457-464 | a group of commas fails `int`, and a failed range does not fall back to a single price |
| HomelyPrice.ExampleInvertedRange | realestate_scrapy/spiders/homely.py:455-461 | range bounds are not reordered |
| HomelyPostcode.ParsePostcode | realestate_scrapy/spiders/homely.py:495-502 | a missing or empty text gives None; a result is four digits |
| HomelyPostcode.ParsePostcodeSound | realestate_scrapy/spiders/homely.py:499-501 | the result is the leftmost four-digit token bounded by `\b` |
| HomelyPostcode.ParsePostcodeComplete | realestate_scrapy/spiders/homely.py:499-501 | whenever such a token exists a postcode is returned |
| HomelyPostcode.ParsePostcodeNone | realestate_scrapy/spiders/homely.py:499-502 | no token, no postcode |
| HomelyPostcode.NoPostcodeInDigitRun | realestate_scrapy/spiders/homely.py:499 | a run of digits of another length is not a postcode |
| HomelyPostcode.PostcodeAfterWords | realestate_scrapy/spiders/homely.py:486 | four digits after a suburb and state are found |
| HomelyPostcode.ExampleSuburbLine | realestate_scrapy/spiders/homely.py:486 | "Abbotsford VIC 3067" gives "3067" |
| HomelyFields.CoerceCount | realestate_scrapy/spiders/homely.py:135-146 | a missing or empty count is None |
| HomelyFields.CoerceCountRoundTrip | realestate_scrapy/spiders/homely.py:135-146 | a decimal count with surrounding whitespace reads back as itself |
| HomelyFields.CoerceCountNoDigits | realestate_scrapy/spiders/homely.py:135-146 | text without digits gives None |
| HomelyFields.FirstDigitRun | realestate_scrapy/spiders/homely.py:196 | the first digit run is a non-empty digit string, absent exactly when the text has no digit |
| HomelyFields.LandArea | realestate_scrapy/spiders/homely.py:186-199 | no area text or no digits in it gives 0 |
| HomelyFields.LandAreaIgnoresFallback | realestate_scrapy/spiders/homely.py:186 | a non-empty header value makes the description fallback irrelevant |
| HomelyFields.LandAreaUsesFallback | realestate_scrapy/spiders/homely.py:186-191 | a missing or empty header value defers to the fallback |
| HomelyFields.LandAreaValue | realestate_scrapy/spiders/homely.py:195-197 | the area is the first number written in the text |
| HomelyFields.FullAddress | realestate_scrapy/spiders/homely.py:123 | an address exists exactly when both lines are non-empty |
| HomelyFields.FullAddressPadded | realestate_scrapy/spiders/homely.py:123 | the address is the stripped lines joined by one space |
| HomelyFields.Split | realestate_scrapy/spiders/homely.py:228 | `str.split` gives at least one part |
| HomelyFields.SplitAt | realestate_scrapy/spiders/homely.py:228 | splitting at the first separator peels off the part before it |
| HomelyFields.CoordinateValue | realestate_scrapy/spiders/homely.py:281-282 | a coordinate is its own text when that is non-empty (truthy), and 0 exactly when it is empty |
| HomelyFields.Coordinates | realestate_scrapy/spiders/homely.py:227-232 | a missing or empty center raises UnboundLocalError for `latitude` |
| HomelyFields.CoordinatesOfPair | realestate_scrapy/spiders/homely.py:227-228 | "lat,lon" unpacks into its halves: latitude is the text before the comma and longitude the text after it, each 0 when empty |
| HomelyFields.CoordinatesNoComma | realestate_scrapy/spiders/homely.py:228 | no comma: ValueError |
| HomelyFields.CoordinatesTwoCommas | realestate_scrapy/spiders/homely.py:228 | two commas: ValueError |
| HomelyGallery.KindOf | realestate_scrapy/spiders/homely.py:366-378 | an image is kept only with a non-empty src; it is a floor plan exactly when its last heading contains "Floor plan", a photo exactly when the heading contains "Photo" and not "Floor plan", and dropped otherwise |
| HomelyGallery.ParseGallery | realestate_scrapy/spiders/homely.py:314-380 | a failed reveal gives two empty lists; otherwise the photos and the plans in document order |
| HomelyGallery.CollectedMember | realestate_scrapy/spiders/homely.py:365-378 | a URL is collected exactly when some image of that kind has it as src |
| HomelyGallery.CollectedAppend | realestate_scrapy/spiders/homely.py:365-378 | collection distributes over concatenated pages |
| HomelyGallery.CollectedTotal | realestate_scrapy/spiders/homely.py:365-380 | no image is both a photo and a plan |
| HomelyGallery.PhotosHoldsPhoto | realestate_scrapy/spiders/homely.py:377 | the "Photos" test is subsumed by the "Photo" test |
| HomelyGallery.FloorPlanBeforePhoto | realestate_scrapy/spiders/homely.py:375-378 | a heading naming both files the image as a floor plan |
| HomelySpider.PriceField | realestate_scrapy/spiders/homely.py:270-271 | `p if p else 0` is the price or 0 |
| HomelySpider.BaseItem | realestate_scrapy/spiders/homely.py:260-295 | the item has exactly the keys of the literal |
| HomelySpider.Gate | realestate_scrapy/spiders/homely.py:309-312 | the item is yielded exactly when its id is not None, unchanged |
| HomelySpider.ParseProperty | realestate_scrapy/spiders/homely.py:92-312 | the outcome is the page's item (gallery merged into `origin_images`), nothing, or the raised error |
| HomelySpider.YieldedIffId | realestate_scrapy/spiders/homely.py:227-232 | an item is yielded exactly when the coordinates unpack and the URL has an id; dropped exactly when they unpack and it has none |
| HomelySpider.NoCoordinatesRaises | realestate_scrapy/spiders/homely.py:227-232 | a page without coordinates raises UnboundLocalError |
| HomelySpider.YieldedItem | realestate_scrapy/spiders/homely.py:298-310 | a yielded item is the page item for the parsed coordinates |
| HomelySpider.YieldedId | realestate_scrapy/spiders/homely.py:263 | the yielded id is the URL's id, which closes the URL |
| HomelySpider.YieldedLowerPrice | realestate_scrapy/spiders/homely.py:270 | the yielded `lower_price` is the parsed lower bound, 0 when there is none |
| HomelySpider.YieldedUpperPrice | realestate_scrapy/spiders/homely.py:271 | the yielded `upper_price` is the parsed upper bound, 0 when there is none |
| HomelySpider.YieldedImages | realestate_scrapy/spiders/homely.py:279-306 | `origin_images` is the photos then the plans; `images` starts empty |
| HomelySpider.NoDocumentLink | realestate_scrapy/spiders/homely.py:210-211 | without a link the item still lists one document, None |
| DatabasePipeline.FieldsAreColumns | realestate_scrapy/pipelines/database_pipeline.py:66-122 | corrected, every written field is a column; as written `price` is written and is no column; the key, timestamps and agent id are never merged |
| DatabasePipeline.FindAgent | realestate_scrapy/pipelines/database_pipeline.py:26-29 | the first agent with exactly the pair, or None when there is none |
| DatabasePipeline.AgentStepValid | realestate_scrapy/pipelines/database_pipeline.py:26-57 | the agents stay consecutively numbered and the resolved id carries the item's pair |
| DatabasePipeline.AgentNewLaw | realestate_scrapy/pipelines/database_pipeline.py:32-47 | a pair not yet stored appends one agent with the next id, the item's pair and optional fields and both timestamps at `now`; the earlier agents are unchanged |
| DatabasePipeline.AgentMergeLaw | realestate_scrapy/pipelines/database_pipeline.py:48-57 | an existing agent takes each truthy optional field and keeps the rest; id, pair and creation time kept; no other agent changes |
| DatabasePipeline.SamePairOneAgent | realestate_scrapy/pipelines/database_pipeline.py:26-47 | two items with one pair resolve to one agent and add no row |
| DatabasePipeline.OtherPhoneOtherAgent | realestate_scrapy/pipelines/database_pipeline.py:26-29 | the same name with another phone is another agent |
| DatabasePipeline.NewListingLaw | realestate_scrapy/pipelines/database_pipeline.py:66-95 | as written the constructor always raises TypeError; corrected the row holds the item's written fields, both timestamps and the agent id |
| DatabasePipeline.UpdateListingLaw | realestate_scrapy/pipelines/database_pipeline.py:99-124 | each merged column takes the item's truthy value and keeps its own otherwise; others unchanged; `updated_at` and `agent_id` set |
| DatabasePipeline.UpdateAsWritten | realestate_scrapy/pipelines/database_pipeline.py:105 | as written the update raises AttributeError exactly when the item has no truthy price |
| DatabasePipeline.NoPriceNoListing | realestate_scrapy/pipelines/database_pipeline.py:66-105 | as written an item without price never reaches the table: TypeError for a new listing, AttributeError for an old one |
| DatabasePipeline.RescrapeSameItem | realestate_scrapy/pipelines/database_pipeline.py:99-124 | storing the same item twice changes only `updated_at` and wraps `council_rates` in a tuple |
| DatabasePipeline.ListingStepFrame | realestate_scrapy/pipelines/database_pipeline.py:60-126 | a committed step adds or replaces only the item's listing |
| DatabasePipeline.MissingKeyRefused | realestate_scrapy/db/models.py:37-38 | a missing id, or a new listing without url, fails the commit with IntegrityError |
| DatabasePipeline.DuplicateUrlRefused | realestate_scrapy/db/models.py:37 | a new listing reusing another's url fails the commit |
| DatabasePipeline.DBRealEstatePipeline.constructor | realestate_scrapy/pipelines/database_pipeline.py:10-12 | a fresh session over an empty store |
| DatabasePipeline.DBRealEstatePipeline.ProcessItem | realestate_scrapy/pipelines/database_pipeline.py:14-127 | without name or phone nothing changes; after a failed commit every call raises; otherwise the agent step always persists and the listing step commits or leaves the listings as they were |
| StoredFiles.FirstIndex | realestate_scrapy/pipelines/images_pipeline.py:31 | `list.index`: the first position holding the value, None exactly when none does |
| StoredFiles.IndexOf | realestate_scrapy/pipelines/images_pipeline.py:30-33 | `.index` on a list or tuple, on a str, or AttributeError on anything else |
| StoredFiles.FileNamePlain | realestate_scrapy/pipelines/images_pipeline.py:35 | the file name has no separator |
| StoredFiles.PathOfParts | realestate_scrapy/pipelines/images_pipeline.py:35 | `os.path.join` of the four parts is the documented layout |
| StoredFiles.StoragePathJpg | realestate_scrapy/pipelines/images_pipeline.py:35 | every built path ends in `.jpg` |
| StoredFiles.StoragePathLayout | realestate_scrapy/pipelines/images_pipeline.py:22-35 | with an id the path is `realestate/hl/{id}/{stem}-{position}.jpg`, position 0 when the URL is not listed |
| StoredFiles.UnlistedCollidesWithFirst | realestate_scrapy/pipelines/images_pipeline.py:30-33 | an unlisted URL gets the same path as the first listed one |
| StoredFiles.DigestDirectory | realestate_scrapy/pipelines/images_pipeline.py:25-27 | without an id the directory is the URL digest |
| StoredFiles.CdnUrlsAppend | realestate_scrapy/pipelines/images_pipeline.py:59-65 | the URLs of concatenated results are concatenated |
| StoredFiles.CdnUrlsBound | realestate_scrapy/pipelines/images_pipeline.py:59-65 | at most one URL per result |
| StoredFiles.CdnUrlsAllKept | realestate_scrapy/pipelines/images_pipeline.py:60-65 | when every result is stored, one URL per result, in order, domain then path |
| StoredFiles.CdnUrlsNoneKept | realestate_scrapy/pipelines/images_pipeline.py:60 | failed results give no URL |
| StoredFiles.CdnUrlsPrefix | realestate_scrapy/pipelines/images_pipeline.py:64 | every URL starts with the CDN domain |
| StoredFiles.ExampleOneFailed | realestate_scrapy/pipelines/images_pipeline.py:59-65 | ok, failed, ok gives the two URLs in order |
| StoredFiles.CdnUrlsStep | realestate_scrapy/pipelines/images_pipeline.py:59-65 | one more result adds its URL exactly when it was stored |
| StoredFiles.AppendedListStep | realestate_scrapy/pipelines/images_pipeline.py:57-65 | one more result appends at most its URL to the target list |
| StoredFiles.AppendedListEmpty | realestate_scrapy/pipelines/images_pipeline.py:57 | no results leave the list as `setdefault` made it |
| StoredFiles.AppendedListGrows | realestate_scrapy/pipelines/images_pipeline.py:57-65 | the prior list is kept as a prefix |
| StoredFiles.AppendedListTail | realestate_scrapy/pipelines/images_pipeline.py:59-65 | what follows the prior list is the CDN URLs |
| StoredFiles.NothingAppended | realestate_scrapy/pipelines/images_pipeline.py:58 | without the source field nothing is appended |
| StoredFiles.AppendedListConcat | realestate_scrapy/pipelines/images_pipeline.py:59-65 | results processed in two batches append the same URLs |
| HlImagesPipeline.FilePath | realestate_scrapy/pipelines/images_pipeline.py:14-37 | with no item, AttributeError |
| HlImagesPipeline.FilePathLayout | realestate_scrapy/pipelines/images_pipeline.py:20-35 | the path is `realestate/hl/{id}/gallery-{position}.jpg` |
| HlImagesPipeline.FilePathOfPosition | realestate_scrapy/pipelines/images_pipeline.py:29-35 | the URL first at position k is `gallery-{k}.jpg` |
| HlImagesPipeline.ItemCompleted | realestate_scrapy/pipelines/images_pipeline.py:50-72 | only `images` changes, to the prior list followed by the CDN URLs of the stored files |
| HlImagesPipeline.ExampleOneFailed | realestate_scrapy/pipelines/images_pipeline.py:57-65 | a failed middle download is skipped |
| HlDocumentsPipeline.FilePath | realestate_scrapy/pipelines/documents_pipeline.py:16-35 | with no item, AttributeError |
| HlDocumentsPipeline.FilePathLayout | realestate_scrapy/pipelines/documents_pipeline.py:16-35 | the path is `realestate/hl/{id}/doc-{position}.jpg` |
| HlDocumentsPipeline.ItemCompleted | realestate_scrapy/pipelines/documents_pipeline.py:37-84 | the item as `DocumentsAfter` says, and one metadata patch per stored file, none without bucket or source |
| HlDocumentsPipeline.DispositionOfLayout | realestate_scrapy/pipelines/documents_pipeline.py:65-67 | a stored document is served inline under its file name |
| HlDocumentsPipeline.NoBucketNoUrls | realestate_scrapy/pipelines/documents_pipeline.py:47-55 | without a bucket only `pdf_document`'s default is set |
| HlDocumentsPipeline.StoredDocumentsAppended | realestate_scrapy/pipelines/documents_pipeline.py:58-82 | with a bucket the CDN URLs of the stored files follow the prior list |
| RealEstateMediaPipeline.RequestsFor | realestate_scrapy/pipelines/media_pipeline.py:28-50 | one request per URL with 1-based index, TypeError exactly when some URL is not a str |
| RealEstateMediaPipeline.MediaRequestsOfLists | realestate_scrapy/pipelines/media_pipeline.py:25-61 | gallery requests, then plans, then the document, each numbered in list order |
| RealEstateMediaPipeline.DocumentListRaises | realestate_scrapy/pipelines/media_pipeline.py:52-61 | a list in `pdf_document` raises TypeError |
| RealEstateMediaPipeline.Extension | realestate_scrapy/pipelines/media_pipeline.py:72 | `pdf` exactly for the pdf category |
| RealEstateMediaPipeline.FilePathReturnsNone | realestate_scrapy/pipelines/media_pipeline.py:63-75 | as written the method returns None though it computes a path |
| RealEstateMediaPipeline.FilePathExtension | realestate_scrapy/pipelines/media_pipeline.py:72-74 | the corrected path ends in `.pdf` exactly for pdf, else `.jpg` |
| RealEstateMediaPipeline.FilePathOfRequest | realestate_scrapy/pipelines/media_pipeline.py:66-74 | a request of this pipeline is filed at `realestate/hl/{id}/{category}-{index}.{ext}` |
| RealEstateMediaPipeline.FilePathDefaults | realestate_scrapy/pipelines/media_pipeline.py:69-71 | with no meta: `realestate/hl/unknown/file-1.jpg` |
| RealEstateMediaPipeline.FileDownloaded | realestate_scrapy/pipelines/media_pipeline.py:77-84 | the report has exactly original, target, category and index |
| RealEstateMediaPipeline.DownloadedOfRequest | realestate_scrapy/pipelines/media_pipeline.py:77-84 | a request's report carries its URL, category, index and path |
| RealEstateMediaPipeline.DownloadedFallsBackToUrl | realestate_scrapy/pipelines/media_pipeline.py:80 | without `original_url` the request URL is reported |
| RealEstateMediaPipeline.ItemCompleted | realestate_scrapy/pipelines/media_pipeline.py:86-116 | the item with each field replaced by its mappings when it has some; AttributeError for a success without a dict |
| RealEstateMediaPipeline.MappingsAppend | realestate_scrapy/pipelines/media_pipeline.py:96-108 | result order is kept within a category |
| RealEstateMediaPipeline.MappingsPartition | realestate_scrapy/pipelines/media_pipeline.py:96-108 | every result lands in one list or none |
| RealEstateMediaPipeline.MappingsAllFiled | realestate_scrapy/pipelines/media_pipeline.py:96-108 | stored files of one category give one mapping each, in order |
| RealEstateMediaPipeline.FailuresDropped | realestate_scrapy/pipelines/media_pipeline.py:97 | failed results add nothing |
| RealEstateMediaPipeline.CompletedKeepsEmpty | realestate_scrapy/pipelines/media_pipeline.py:109-116 | a field without mappings keeps its value or absence, one with mappings is replaced, nothing else changes |
| RealEstateMediaPipeline.AsWrittenTargetsNone | realestate_scrapy/pipelines/media_pipeline.py:78-81 | as written the report `file_downloaded` returns has target None, since `file_path` returns None |

## Left out

- The browser, XPath selectors, Redis queue and the debug HTML dumps: the selector results are the input `PropertyPage`, the gallery outcome the input `GalleryPage`.
- `parse` (listing-page crawling and link following) and `parse_gallery`'s clicking and waiting: only the classification of the revealed images is modelled.
- Logging and `print`: no effect on the results.
- `datetime.utcnow()`: the parameter `now`, an opaque instant.
- SHAKE-256: the parameter `digest`; its value is not modelled.
- `NEWS_ACCOUNTS`: the parameter `cdn`, keyed by spider name; a missing entry is modelled as no domain.
- SQLAlchemy is modelled as an in-memory store: queries, sessions, flushes and the driver are not. After an AttributeError half way through an update, the attributes already set stay dirty in the real session and would be flushed by the next query; the model drops them.
- The database driver's conversion of the `council_rates` tuple and its length limits on string columns are not modelled.
- `publish_date`'s NOT NULL constraint is not checked at commit; every spider item sets it.
- `close_spider`: it only closes the session.
- Google Cloud Storage: `storage.Client()` and `bucket.blob` are not modelled; each patch is recorded as a `BlobPatch` value, and `patched` says whether it went through.
- HlDocumentsPipeline.ItemCompleted: when `storage.Client()` itself raises (no credentials), the source fails before reading the bucket name; the model starts at the bucket name.
- The Scrapy base classes that turn downloads into `results` (`FilesPipeline.media_downloaded`, checksums, storage backends) are not modelled: `results` is an input.
- Scrapy's own check of a request URL's scheme is not modelled: any `str` is accepted.
- `Render` stands in for `str()` / f-string formatting; for lists, tuples, dicts and datetimes it gives a placeholder, where Python gives the repr or, for a datetime, `YYYY-MM-DD HH:MM:SS`.
- Iterating a dict in `get_media_requests` (which yields its keys) is modelled as TypeError.
- Items are passed and returned by value; the pipelines' in-place mutation of the item dict and any aliasing of it are not modelled.
- RealEstateMediaPipeline.ItemCompleted: each result's `file_info` is taken to be the report `file_downloaded` builds. Scrapy's `FilesPipeline.media_downloaded` instead returns a dict of `url`, `path`, `checksum` and `status`, with that report under `checksum`; the override also skips the base `file_downloaded`, which is what stores the file. As written, then, no success carries a `category`, no mapping is written, the three fields keep their values, and nothing is stored. None of that Scrapy code is part of this model.
- PyStr (`IsDigit`, `IsSpace`, `IsWordChar`, `Strip`, `LStrip`, `ParseInt`) is ASCII-only, so `HomelyFields.CoerceCount`, `HomelyFields.FullAddress`, `HomelyFields.LandArea`, `HomelyPostcode.ParsePostcode`, `HomelyPrice.ParsePrice` and `CommonUtils.ExtractExternalId` follow ASCII. Python's `str.strip`, `int()`, `\d`, `\s` and `\b` are Unicode-aware. For example, `int("3\xa0")` is 3 where `CoerceCount(Some("3\u00a0"))` is None, and `.strip()` removes a trailing no-break space that `FullAddress` keeps.
- PyStr.ParseInt: CPython 3.11 and later refuse `int()` of a string of more than 4300 digits; the model's `ParseInt` has no such limit.
- HlDocumentsPipeline.DocumentsAfter: a `path` that is not a `str` is modelled as an uncaught TypeError. In the source, `bucket.blob` would reject it first, with another exception. Scrapy's paths are always `str`, so this case does not occur.
- `settings.py:72` disables `RealEstateMediaPipeline`; it is modelled on its own, not chained after the other two pipelines.

## Findings

| source | as written | input that shows it | evidently intended | confidence | as-written member | corrected member |
|---|---|---|---|---|---|---|
| realestate_scrapy/pipelines/database_pipeline.py:74 | `HomeListing(price=...)` passes `price`, which is not a mapped attribute, and line 105 reads `listing.price`, which does not exist; every insert raises TypeError, and every update of an item without a truthy `price` raises AttributeError | any spider item with an agent name and phone (spider items have no `price`) | write `price_text`, `lower_price` and `upper_price`, the columns of models.py:46-48 | not executed | DatabasePipeline.NoPriceNoListing | DatabasePipeline.NewListingLaw |
| realestate_scrapy/pipelines/media_pipeline.py:63-75 | `file_path` computes and logs the path but has no `return`, so it returns None and every download reports target None | any request, e.g. one with meta `{"external_id": "1", "category": "gallery", "index": 1}` | return the path `realestate/hl/{external_id}/{category}-{index}.{ext}` | not executed | RealEstateMediaPipeline.FilePathReturnsNone | RealEstateMediaPipeline.FilePathOfRequest |
