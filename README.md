# Cluster image inventory, modelled in Dafny

This project models the core of a small image-inventory service for a GPU
cluster. The service lists container images from two places:

- **Local containerd images.** It runs `crictl images` and parses the
  fixed-width table that command prints. Column boundaries come from where
  the labels `TAG`, `IMAGE ID` and `SIZE` start in the header line. Rows whose
  image id appears in a CSV ignore list are dropped.
- **A Harbor registry.** It walks projects, then repositories, then
  artifacts, then tags through Harbor's paged v2.0 API, and flattens the walk
  into image records.

The repository has three services, and the model covers each:

- the local-images service (`server/app/image_api.py` and `image_api.py`):
  the crictl parser, the ignore-list loader and the configuration loader;
- the per-repository Harbor service (`harbor_image_api.py`): pages of 50,
  three stop rules, re-raised errors, repository-name derivation,
  `quote_plus` encoding and per-repository error containment;
- the unified service (`image.py` with `harbor_api.py`): pages of 100, `None`
  on failure, a single answer with `containerd_images`, `harbor_images` and
  `errors`, and a section-wise configuration merge.

Modules, one per source concern:

| module | file | models |
|---|---|---|
| `CrictlImages` | `crictl_images.dfy` | `parse_crictl_images_output`: a specification function `Parse` and the loop `ParseCrictlImagesOutput` proved equal to it |
| `IgnoreList` | `ignore_list.dfy` | `load_ignored_image_ids`, over rows the CSV reader has already tokenised |
| `ImageApi` | `image_api.dfy` | `load_app_config` over a decoded JSON value, and the module state (`APP_CONFIG`, `ignored_image_ids`) as a class |
| `HarborApi` | `harbor_api.dfy` | the unified service's fetcher `get_harbor_paginated_results` |
| `HarborImageApi` | `harbor_image_api.dfy` | the per-repository service's fetcher and `get_harbor_images` |
| `UnifiedImages` | `image.dfy` | `load_config` and `get_all_images`, with the parser call at `image.py:142` corrected as the Findings table describes; the call as written is modelled beside it |
| `Registry` | `registry.dfy` | what Harbor answers: paged responses, entities, and the query-parameter dictionary the fetchers update in place |
| `Json`, `Text`, `UrlEncoding`, `Wrappers` | | JSON values and Python's `int()` and truthiness; `strip`, `splitlines`, `find`, slicing, `replace` and `rstrip`; UTF-8 and `quote_plus`; `Option` |

**The registry as an oracle.** A `Registry.Server` maps a URL and the query
parameters other than `page` to the answers for pages 1, 2 and so on. An
answer is a decoded body with an optional `x-total-count` header, or a
failure: an HTTP status, a transport error or invalid JSON. Every page past
the listed ones answers an empty list. The page sequence is finite, so every
fetch loop ends, and its termination measure is the number of listed pages
still ahead.

**Specifications and loops.** Each loop of the source is a `method` whose
`ensures` ties its result, and the caller's parameter dictionary, to a
recursive specification function. The properties are proved as lemmas about
those functions.

## Model

| member | source | states |
|---|---|---|
| CrictlImages.HeaderColumns | server/app/image_api.py:109-124 | An accepted header's column starts are the first occurrences of `TAG`, `IMAGE ID` and `SIZE`, in strictly increasing order |
| CrictlImages.HeaderMissingLabel | server/app/image_api.py:109-124 | A header lacking any of the three labels is rejected |
| CrictlImages.HeaderColumnsExact | server/app/image_api.py:109-118 | When all three labels occur, the header is accepted exactly when their first occurrences are strictly ordered, and those offsets become the columns |
| CrictlImages.RawFields | server/app/image_api.py:135-138 | A data line is cut into exactly four pieces at the three column starts |
| CrictlImages.RawFieldsCoverLine | server/app/image_api.py:135-138 | The four pieces concatenate back to the line; any piece that starts past the end of a short line is empty, never a fault |
| CrictlImages.ParseCrictlImagesOutput | server/app/image_api.py:83-158 | The loop returns exactly the specified parse of the output; an omitted ignore set ignores nothing |
| CrictlImages.ParseNeedsTwoLines | server/app/image_api.py:98-103 | Output that strips and splits into fewer than two lines gives no rows |
| CrictlImages.ParseRejectsBadHeader | server/app/image_api.py:105-124 | A header without the three labels in strict order gives no rows, whatever the data lines hold |
| CrictlImages.ParsedRowsAreClean | server/app/image_api.py:135-146 | Every emitted row has all four fields trimmed and a non-empty tag (a blank tag becomes `<none>`), and no emitted id is in the ignore set |
| CrictlImages.ParseIgnoreIsFilter | server/app/image_api.py:144-146 | Parsing with an ignore set gives exactly the rows of the unfiltered parse whose id is not in the set, in the same order |
| CrictlImages.ParseOneRowPerLine | server/app/image_api.py:126-155 | With nothing ignored, row k is the parse of the k-th non-blank data line, and there are exactly as many rows as non-blank data lines |
| CrictlImages.DataRowShape | server/app/image_api.py:127-130 | A data line contributes nothing, or the single row parsed from its stripped text |
| IgnoreList.IndexOf | server/app/image_api.py:48-56 | The id column is the first header cell equal to `IMAGE ID`, and there is none exactly when no cell is |
| IgnoreList.LoadIgnoredImageIds | server/app/image_api.py:23-80 | The loop returns exactly the specified ignore set of the file |
| IgnoreList.CollectIdsMembership | server/app/image_api.py:60-73 | A string is collected exactly when it is non-empty and some row, long enough for the column, holds it there once trimmed |
| IgnoreList.IgnoredIdsMembership | image_api.py:199-225 | With the id column found at `col`, a string is ignored exactly when it is non-empty and some later row holds it, trimmed, in that column; empty and short rows add nothing |
| IgnoreList.IgnoredIdsAreTrimmed | server/app/image_api.py:66-68 | The set never holds the empty string, and every id in it is trimmed |
| IgnoreList.NothingIgnoredWithoutIdColumn | server/app/image_api.py:33-56 | A missing file, an empty file, or a header without an `IMAGE ID` cell ignores nothing |
| ImageApi.RuleOutcome | image_api.py:64-86 | A checked key keeps a well-typed value; a non-int value that `int()` accepts becomes `int()` of it; a `ValueError`, or a wrong type for a boolean or string key, reverts to exactly the default; the check raises exactly when `int()` gives `TypeError` or the needed default is missing |
| ImageApi.ApplyRules | image_api.py:64-86 | Validation never adds or removes a configuration key |
| ImageApi.ConvertIntKey | image_api.py:65-71 | One integer key: a non-int file value is converted, or replaced by the default on `ValueError`, as the rule specifies |
| ImageApi.CheckKind | image_api.py:72-86 | One boolean or string key: a value of the wrong type reverts to the default, as the rule specifies |
| ImageApi.ConvertIntKeys | image_api.py:64-71 | The integer-key loop does what the rules' first three entries specify, and hands the rest of the rules its configuration, unless it raised |
| ImageApi.CheckKinds | image_api.py:72-86 | The four type checks do what the remaining rules specify |
| ImageApi.LoadAppConfig | image_api.py:47-112 | The loader returns exactly the specified configuration: the defaults updated with the file's object, then validated, stopping at the first exception |
| ImageApi.ApplyRulesFrame | image_api.py:62-86 | A key the file does not hold, or one that no rule checks, keeps its value through validation |
| ImageApi.NoFileObjectGivesDefaults | image_api.py:88-110 | A missing or undecodable file, or a top level that is not an object, gives the defaults unchanged |
| ImageApi.LoadedKeys | image_api.py:57-62 | The loaded configuration has the defaults' keys plus the file's keys, and no others |
| ImageApi.FileOverridesDefaults | image_api.py:57-62 | A key the file does not mention keeps its default; a file key no rule checks takes the file's value, whether or not the defaults have it |
| ImageApi.ApplyRulesPointwise | image_api.py:64-86 | For rules on distinct keys, starting from the file's values, validation goes on exactly when no rule raises on the file's value, and each checked key then holds what its rule makes of that value |
| ImageApi.ValidatedKeys | image_api.py:64-86 | The same for the service's seven rules: loading completes exactly when no rule raises, and each checked key the file mentions is kept, converted or reverted |
| ImageApi.DefaultsAbortOnlyOnTypeError | image_api.py:64-71 | With the built-in defaults, validation stops early exactly when an integer key holds null, a list or an object |
| ImageApi.DefaultsLoadWellTyped | image_api.py:32-86 | With the built-in defaults and no early stop, every checked key ends up with its declared type |
| ImageApi.LocalImagesService.constructor | image_api.py:118-236 | Start-up holds the configuration loaded over the defaults, and the ignore set of the ignore file |
| ImageApi.LocalImagesService.ParseCrictlImagesOutput | image_api.py:239-310 | The one-argument parser is the shared parse, filtered by the module's ignore set |
| Json.TruncateReal | image_api.py:68 | `int()` of a float truncates toward zero |
| Json.PyInt | image_api.py:64-71 | `int()` keeps an int; a string converts unless it is not a decimal integer (`ValueError`); it raises `TypeError` exactly on null, lists and objects |
| Json.PyIntOfDecimalString | image_api.py:68 | A string holding an integer's decimal spelling converts to that integer |
| Text.Strip | server/app/image_api.py:127 | The result of `strip` has whitespace at neither end |
| Text.StripIsTrimmedInfix | server/app/image_api.py:127 | `strip` returns a contiguous piece of its input |
| Text.StripEmptyIffAllSpace | server/app/image_api.py:127-130 | A line strips to the empty string exactly when it is all whitespace, which is when it is skipped |
| Text.StripIdempotent | server/app/image_api.py:98 | Stripping twice is the same as stripping once |
| Text.LinesHaveNoBreaks | server/app/image_api.py:98 | No line that `splitlines` returns contains a line boundary |
| Text.LinesLoseOnlyBreaks | server/app/image_api.py:98 | Gluing the lines together gives the text without its line boundaries |
| Text.FindIsFirstOccurrence | server/app/image_api.py:109-111 | `find` returns the first occurrence whenever there is one |
| Text.SliceConcat | server/app/image_api.py:135-138 | Slices at ordered offsets are adjacent: gluing them loses nothing, even when the offsets pass the end |
| Text.ParseIntOfString | harbor_image_api.py:42 | `int(str(n)) == n` for decimal strings |
| Text.RStripChar | harbor_image_api.py:10 | `rstrip('/')` removes exactly the trailing slashes and keeps the rest as a prefix |
| Text.RemoveAllAbsent | harbor_image_api.py:129 | `replace(p, '')` leaves text with no occurrence of `p` unchanged |
| UrlEncoding.DecodeUtf8OfUtf8 | image.py:140 | Decoding the UTF-8 encoding of a string gives the string back |
| UrlEncoding.Utf8Injective | image.py:140 | Distinct strings have distinct UTF-8 encodings |
| UrlEncoding.UnquotePlusOfQuotePlus | harbor_image_api.py:114 | `quote_plus` can be undone: decoding its output gives the name back |
| UrlEncoding.QuotePlusInjective | harbor_image_api.py:114 | Distinct repository names get distinct encodings |
| UrlEncoding.QuotePlusIsOneSegment | harbor_image_api.py:114-117 | The encoded name contains no `/` and no space, so it fills one URL path segment |
| UrlEncoding.QuotePlusKeepsUnreserved | harbor_image_api.py:114 | A name made of unreserved characters (section 2.3 of RFC 3986) is left as it is |
| UrlEncoding.QuotePlusSlashAndSpace | harbor_image_api.py:114 | A `/` inside a name becomes `%2F`, and a space becomes `+` |
| Registry.PagedQuery | harbor_image_api.py:27-28 | The shared request parameters have `page_size` forced to the fetcher's size, no `page`, and every other caller parameter unchanged |
| Registry.NextRequest | harbor_api.py:45-46 | Writing `page` and then `page_size` into the caller's dictionary gives that page's request, and leaves the shared part as it was |
| HarborApi.PageItems | harbor_api.py:53-61 | A list body is the page; an object body's `data` must be a list, and is then the page; anything else is rejected |
| HarborApi.PageResult | harbor_api.py:48-80 | A failed request gives `None`; a successful one gives its decoded page |
| HarborApi.DecodePage | harbor_api.py:50-61 | The decoding code does what the page decoding specifies |
| HarborApi.RequestPage | harbor_api.py:45-53 | One turn writes `page` and `page_size = 100` into the shared dictionary, sends that request, and decodes its answer |
| HarborApi.FetchFromStep | harbor_api.py:63-70 | A failed page ends the fetch with `None`, a short page ends it with everything collected, and a full page makes the next request |
| HarborApi.GetHarborPaginatedResults | harbor_api.py:21-83 | The loop returns the specified result, and leaves the caller's dictionary holding the last request's parameters |
| HarborApi.FetchFromShape | harbor_api.py:44-70 | Request k asks for page k; every page before the last is full and the last is not; the result is `None` if the last page failed, and otherwise every page's items in order |
| HarborApi.FetchFromRequests | harbor_api.py:45-46 | The k-th request of a fetch from page p asks for page p + k |
| HarborApi.FetchFromStops | harbor_api.py:66-70 | The loop stops at the first page with fewer than 100 items, and never at a full one |
| HarborApi.FetchFromResult | harbor_api.py:63-83 | The result is the items of all requested pages, in request order, unless the last request failed |
| HarborApi.RequestsCarryPageNumbers | harbor_api.py:38-46 | Request k (from 0) carries `page = k + 1`, `page_size = 100`, and every other caller parameter unchanged, the caller's own `page` and `page_size` overwritten |
| HarborApi.FetchOutcome | harbor_api.py:44-83 | After n requests, pages 1 to n - 1 were full and page n was not; the result is `None` exactly when page n failed, and otherwise the items of all n pages |
| HarborApi.ThreeFullPagesAndAShortOne | harbor_api.py:44-70 | Pages of 100, 100, 100 and k < 100 items take exactly four requests and give 300 + k items, in order |
| HarborApi.EmptyFirstPage | harbor_api.py:63-68 | An empty first page ends the fetch after one request, with an empty list |
| HarborApi.FailedFirstRequest | harbor_api.py:72-80 | A failed first request gives `None` after that one request |
| HarborImageApi.HarborUrl | harbor_image_api.py:10 | The registry address is the environment's value or the default, with every trailing `/` removed and nothing else |
| HarborImageApi.DefaultHarborUrlIsKept | harbor_image_api.py:10 | Without the environment variable, the default address is used unchanged |
| HarborImageApi.Extension | harbor_image_api.py:35 | `results.extend(body)` appends a list's elements, an object's keys, or a string's characters, and raises on numbers, booleans and null |
| HarborImageApi.TotalCountVerdict | harbor_image_api.py:41-43 | An absent or empty `x-total-count` never stops the loop; a non-integer one raises; an integer one stops it once the items collected reach it |
| HarborImageApi.PageTurn | harbor_image_api.py:30-44 | Checks on one answer: a failure is re-raised, an empty body stops without adding anything, and the loop goes on only after a full page with no count reached |
| HarborImageApi.ReadPage | harbor_image_api.py:31-44 | The checks are written as the page-turn specification says, in that order |
| HarborImageApi.RequestPage | harbor_image_api.py:27-32 | One turn writes `page` and `page_size = 50` into the shared dictionary, sends that request, and reads its answer |
| HarborImageApi.FetchFromStep | harbor_image_api.py:26-44 | A turn that ends the loop ends the fetch with its outcome; one that goes on makes the next page's request |
| HarborImageApi.GetHarborPaginatedResults | harbor_image_api.py:16-51 | The loop returns the specified outcome, and leaves the caller's dictionary holding the last request's parameters |
| HarborImageApi.FetchFromRequests | harbor_image_api.py:21-44 | The k-th request of a fetch from page p asks for page p + k |
| HarborImageApi.FetchFromFullPages | harbor_image_api.py:33-44 | Every page before the last was answered, non-empty and full |
| HarborImageApi.FetchFromRaises | harbor_image_api.py:45-50 | A request failure is raised exactly when the last answer failed, and it is that answer's failure |
| HarborImageApi.TurnAddsPageItems | harbor_image_api.py:33-40 | Whether the loop stops or goes on, one answer adds exactly its page's items |
| HarborImageApi.FetchFromGathers | harbor_image_api.py:35 | A result that is not an exception is every page's items, in request order |
| HarborImageApi.RequestsCarryPageNumbers | harbor_image_api.py:21-28 | Request k (from 0) carries `page = k + 1`, `page_size = 50` overriding the caller's value, and every other caller parameter unchanged |
| HarborImageApi.FailuresAreRaised | harbor_image_api.py:45-50 | Errors are re-raised: a failed answer ends the fetch with that failure and no result, and every earlier answer was a full page |
| HarborImageApi.StopRulesInOrder | harbor_image_api.py:33-43 | On the first page: empty stops with nothing; short stops before the count header is read; a full page with a malformed count raises; a reached count stops; no count asks for page 2 |
| HarborImageApi.SplitAtSlash | harbor_image_api.py:97 | `split('/', 1)` gives two parts exactly when the name has a `/`; then the first has no `/` and the parts joined by `/` are the name |
| HarborImageApi.DerivedName | harbor_image_api.py:97-108 | A full name starting with the project's name and `/` loses that prefix; any other full name is used whole |
| HarborImageApi.SplitAtSlashOfPrefix | harbor_image_api.py:97-99 | A slash-free prefix followed by `/` is exactly what `split('/', 1)` cuts off |
| HarborImageApi.ArtifactsUrlSegment | harbor_image_api.py:114-117 | The encoded derived name fills exactly one path segment of the artifacts URL |
| HarborImageApi.StripSchemeOfHost | harbor_image_api.py:129 | Removing the schemes from `https://` followed by a host leaves the host |
| HarborImageApi.CollectTagRecords | harbor_image_api.py:126-135 | The tag loop gives the specified records, up to the first exception |
| HarborImageApi.CollectArtifactRecords | harbor_image_api.py:124-142 | The artifact loop gives the specified records, up to the first exception |
| HarborImageApi.NonListTagsGiveNoRecord | harbor_image_api.py:125-135 | Truthy `tags` that are not a list give no record, and raise exactly unless they are an object whose only key is empty, whose one iterated key is falsy and skipped |
| HarborImageApi.ArtifactsRecordsRaiseIff | harbor_image_api.py:124-142 | A repository's artifact loop stops early exactly when one of its artifacts raises, so an artifact that raises nothing never cuts off the later ones |
| HarborImageApi.CollectProjectImages | harbor_image_api.py:87-153 | The repository loop gives the specified images for one project |
| HarborImageApi.CollectOneProject | harbor_image_api.py:69-85 | One project gives the specified images, or fails the request |
| HarborImageApi.GetHarborImages | harbor_image_api.py:53-163 | The handler returns the specified answer: every record of the walk, or the 500 error with its cause |
| HarborImageApi.UntaggedArtifactGivesNoneRecord | harbor_image_api.py:136-142 | An artifact whose `tags` are absent, null or empty gives exactly one `<none>` record |
| HarborImageApi.TagNames | harbor_image_api.py:127 | Every tag name that gives a record is non-empty |
| HarborImageApi.TagRecordsAreNamedTags | harbor_image_api.py:126-135 | A tag list with no truthy non-object element gives one record per named tag, in order; null and nameless tags give none |
| HarborImageApi.TagNamesAreFromTags | harbor_image_api.py:127-130 | Every recorded tag name is the name of some tag object in the list |
| HarborImageApi.NamelessTagsGiveNoRecord | harbor_image_api.py:125-135 | A non-empty list of only null or nameless tags gives no record, and no `<none>` record either |
| HarborImageApi.HarborImagesRecordsShape | harbor_image_api.py:128-138 | Every record's `repository` starts with the registry address without its scheme and a `/`, and goes on past it; every tag is non-empty |
| HarborImageApi.RepositoriesServerErrorIff | harbor_image_api.py:87-153 | Within a project, a repository fails the whole request exactly when it is not an object; a failing artifact fetch, or a bad artifact or tag, skips at most the rest of that repository |
| HarborImageApi.ProjectsServerErrorIff | harbor_image_api.py:69-163 | The walk over projects fails the request exactly when some project fails it |
| HarborImageApi.ProjectServerErrorIff | harbor_image_api.py:69-91 | A project fails the request exactly when it is not an object, or it has a non-empty name and listing its repositories raises or gives a non-object |
| HarborImageApi.ArtifactFetchFailureSkipsRepository | harbor_image_api.py:120-153 | A repository whose artifacts fetch raises (a 404 or any other error) contributes nothing, and the request goes on |
| UnifiedImages.MergeSections | image.py:109-111 | The merge keeps the set of sections and never removes a key from one |
| UnifiedImages.LoadConfig | image.py:102-115 | The loader returns exactly the specified section-wise merge over the defaults |
| UnifiedImages.MergeSectionsFrame | image.py:109-111 | Sections the merge is not asked about stay as they were |
| UnifiedImages.MergeSectionsOverride | image.py:109-111 | When every merged section exists and the file gives each as an object, a named section is its defaults with the file's keys written over them; the others keep their defaults |
| UnifiedImages.FileSectionsOverride | image.py:104-111 | The same for `load_config`: file keys override, other keys keep their defaults, and no section is added |
| UnifiedImages.MergeSectionsStop | image.py:105-114 | Once a section's update raises, that section and every later one keep the values they had |
| UnifiedImages.BadSectionStopsMerge | image.py:111-114 | A file section that cannot be merged stops the merge from that section on |
| UnifiedImages.MergeSectionsIgnoresOtherKeys | image.py:109-110 | Files that agree on the merged sections give the same configuration |
| UnifiedImages.UnknownSectionsIgnored | image.py:109-110 | Top-level keys other than the three sections are ignored |
| UnifiedImages.DefaultsKeepEverySetting | image.py:35-58 | Whatever the file holds, the loaded configuration keeps every setting the handler looks up |
| UnifiedImages.ContainerdSection | image.py:130-155 | A clean run lists the parsed output filtered by the ignore file, with no error entry; otherwise there are no images and exactly one `containerd` entry |
| UnifiedImages.ContainerdSectionAsWritten | image.py:139-142 | As written, no local image is ever listed: every run yields a `containerd` entry, and a clean run yields the argument-count error |
| UnifiedImages.ArityMismatchHidesLocalImages | image.py:142 | The intended call and the call as written differ exactly on clean runs |
| UnifiedImages.HarborSection | image.py:157-213 | A missing setting crashes the handler; incomplete settings give only the incomplete-configuration entry; a failed walk gives no images and one `harbor` entry |
| UnifiedImages.CollectTagRecords | image.py:191-198 | The tag loop gives the specified records, or the exception that stopped it |
| UnifiedImages.ArtifactStep | image.py:189-191 | One artifact's `tags` test and tag loop give the specified records |
| UnifiedImages.CollectArtifactRecords | image.py:189-198 | The artifact loop gives the specified records, or the exception that stopped it |
| UnifiedImages.RepositoryStep | image.py:180-187 | One repository's artifacts fetch and loop give the specified records |
| UnifiedImages.CollectRepositoryRecords | image.py:180-198 | The repository loop gives the specified records, or the exception that stopped it |
| UnifiedImages.ProjectStep | image.py:171-178 | One project's repositories fetch and loop give the specified records |
| UnifiedImages.CollectProjectRecords | image.py:171-198 | The project loop gives the specified records, or the exception that stopped it |
| UnifiedImages.WalkHarbor | image.py:160-198 | The Harbor `try` block gives the specified walk |
| UnifiedImages.ContainerdBlock | image.py:130-155 | The containerd block, with the corrected two-argument parser call, gives the specified part; `UnifiedImages.ContainerdSectionAsWritten` gives the block as written |
| UnifiedImages.HarborBlock | image.py:157-213 | The Harbor block gives the specified part |
| UnifiedImages.Assemble | image.py:124-215 | The result holds both parts' images, and their error entries with containerd's first |
| UnifiedImages.GetAllImages | image.py:117-215 | The handler, with the corrected parser call at line 142, returns the specified reply |
| UnifiedImages.ErrorEntriesInOrder | image.py:124-213 | In the handler with the corrected parser call: there are at most two error entries, sourced `containerd` then `harbor`, and a part that reports an error lists no images |
| UnifiedImages.ContainerdErrorIffNotParsed | image.py:139-155 | In the handler with the corrected parser call: a `containerd` entry is present exactly when the run did not reach the parser; otherwise the local images are the filtered parse. As written, every clean run gives the `TypeError` entry instead (`UnifiedImages.ArityMismatchHidesLocalImages`) |
| UnifiedImages.FailedCrictlReportsStderr | image.py:143-149 | A non-zero exit lists no local image and reports the stripped error output after the fixed prefix |
| UnifiedImages.IncompleteConfigSkipsHarbor | image.py:158-213 | With `url`, `user` or `password` empty, the registry is never contacted, no Harbor image is listed, and the last entry is the incomplete-configuration one |
| UnifiedImages.HarborFailureListsNothing | image.py:200-207 | Any exception in the Harbor walk discards every record gathered so far and gives exactly one `harbor` entry, carrying that exception |
| UnifiedImages.LoadedDefaultsNeverCrash | image.py:141-159 | In the handler with the corrected parser call, a configuration loaded over the defaults never crashes on a setting lookup, and every clean run reaches the parser |
| UnifiedImages.ProjectsRecordsThrowIff | image.py:171-207 | The walk fails exactly when some project's part fails: there is no per-project containment |
| UnifiedImages.RepositoriesRecordsThrowIff | image.py:180-207 | A project's part fails exactly when one of its repositories fails |
| UnifiedImages.ArtifactsRecordsThrowIff | image.py:189-207 | A repository's part fails exactly when one of its artifacts fails |
| UnifiedImages.UntaggedArtifactListsNothing | image.py:190 | An artifact with absent, null or empty `tags` contributes nothing here, while the per-repository service lists it as `<none>` |
| UnifiedImages.NamedTagsGiveOneRecordEach | image.py:191-198 | Tag objects with a `name`, on an artifact with a `digest`, give one record per tag, in order, with the tag's name, the digest, the size (`unknown` when absent), the repository and the project |
| UnifiedImages.TagRecordsCarryArtifactFields | image.py:192-198 | Every record of a tag list carries the artifact's digest and size, and the walk's repository and project names |
| UnifiedImages.RecordsComeFromTaggedArtifacts | image.py:189-198 | Every record comes from an artifact whose `tags` is a non-empty list |
| UnifiedImages.RepositoryNameIsVerbatim | image.py:181-182 | The repository name goes into the artifacts URL unencoded; a name with `/` asks for a different URL than its `quote_plus` encoding would |

## Behaviour worth noting

In a few places the code does less than a reader might expect. The model
follows the code each time.

- **A failed repository listing fails the request.** Errors fetching one
  repository's artifacts are caught per repository: the comment at
  `harbor_image_api.py:145` says "log and continue". The repository listing
  at `harbor_image_api.py:84` lies outside that inner `try`. So a failure to
  list one project's repositories propagates to
  `harbor_image_api.py:158-163` and answers a 500 for the whole request,
  rather than skipping that project
  (`HarborImageApi.ProjectServerErrorIff`).
- **Tags that are all null or nameless give no record.** The comment at
  `harbor_image_api.py:136` places artifacts without tags in the `<none>`
  branch. A non-empty list holding only null or nameless tags has no usable
  tag either. But it is truthy at `harbor_image_api.py:125`, so each entry is
  only logged as malformed (`harbor_image_api.py:134`), and the artifact
  gives no record at all (`HarborImageApi.NamelessTagsGiveNoRecord`).
- **The unified service drops untagged artifacts.** `image.py:190` has no
  `<none>` branch like `harbor_image_api.py:136-142`, so an untagged
  artifact is not listed (`UnifiedImages.UntaggedArtifactListsNothing`).
- **The unified service has no failure containment.** Any failure in its
  walk discards every Harbor record gathered so far
  (`UnifiedImages.HarborFailureListsNothing`).

## Left out

- Flask routing, `jsonify`, `app.run` and the `__main__` blocks are web
  plumbing and are not modelled.
- `get_local_images` in both local-images modules is left out: it is the
  route around the parser. Its error answers are web plumbing.
- `setup_logging`, the rotating file handler and every logger call are side
  effects only.
- `subprocess.Popen`, `communicate` and the 30-second timeout are process
  I/O. A run is given as its exit code and raw output, or as "could not run".
- The network is left out: `requests.get`, `raise_for_status`, Basic auth,
  TLS verification and `disable_warnings`. The registry is the page oracle
  described above.
- The values of `verify_ssl`, `user` and `password` are never sent anywhere
  in the model. What matters is their presence: a missing key raises
  `KeyError` at `image.py:159` or `image.py:167`. The truthiness of `user`
  and `password` matters too: the `all([...])` test at `image.py:159`
  checks it along with `url` (`UnifiedImages.HarborConfigured`).
- File existence and the path an ignore file is found at are left out. The
  `csv.reader` tokeniser (RFC 4180 quoting) is too; the model takes the rows
  it produced.
- `json.load` is left out; the model takes the decoded value. JSON numbers
  are exact integers and reals, so `Infinity` and `NaN` are not modelled,
  and neither is the `OverflowError` that `int()` raises on them.
- Python's `int()` on strings is modelled for ASCII decimal digits with an
  optional sign and surrounding whitespace. Underscores and non-ASCII digits
  are not.
- `ImageApi.LoadedAppConfig`: a top-level JSON list of key/value pairs is
  treated like any other non-object, which gives the defaults. Python's
  `dict.update` would accept such a list, and then skip validation, because
  `key in file_config` searches the list.
- `UnifiedImages.UpdateSection`: a section given as a non-empty list is
  treated as raising. Python's `dict.update` would accept a list of
  key/value pairs, and would keep the pairs applied before a malformed one.
- Names are modelled as strings or null: project, repository and tag
  `name` values of other JSON types are left out.
- Names are strings of Unicode scalar values, so they cannot hold a lone
  surrogate, which a JSON escape such as `\ud800` decodes to in Python.
  On such a name, `quote_plus` at `harbor_image_api.py:114` raises
  `UnicodeEncodeError` from strict UTF-8 encoding. That happens outside the
  inner `try` at `harbor_image_api.py:120`, so the request answers a 500
  (`harbor_image_api.py:158-163`). The model does not capture this. The text of exception
  messages is not modelled; a raised exception is identified by its kind.
- `image.py:104` and `image.py:111` alias the nested default dictionaries
  through a shallow copy. The model treats the configuration as a value, so
  it does not capture that `load_config` mutates `DEFAULT_CONFIG`.
- A registry that answers full pages forever is excluded by the finite page
  oracle. The source's loops would not terminate on it.
- The 404 and other-status cases of the artifacts fetch are not told apart
  (`harbor_image_api.py:145-153`). Both skip the repository, and the model
  says exactly that.
- The import-time loads of the root `image_api.py` module are modelled only
  as the constructor of `ImageApi.LocalImagesService`. These are the
  configuration at line 118 and the ignore set at line 236. The import from
  `image.py:27` is not modelled.
- The `HARBOR_URL` environment variable is modelled by a parameter of
  `HarborImageApi.HarborUrl`. The traversal takes the address as a
  parameter.

## Findings

| source | as written | input that shows it | evidently intended | confidence | as-written member | corrected member |
|---|---|---|---|---|---|---|
| image.py:142 | It imports `parse_crictl_images_output` from `image_api.py` (`image.py:27`), whose parser takes only the output (`image_api.py:239`), and calls it with two arguments. The call raises `TypeError`, caught at `image.py:150` | Any `crictl images` run that exits 0 with UTF-8 output, under a configuration that has `crictl_config.ignore_file_path` | The two-parameter parser of `server/app/image_api.py:83`: the parsed rows, filtered by the ignore file, with no `containerd` error entry | not executed | `UnifiedImages.ContainerdSectionAsWritten`, exhibited by `UnifiedImages.ArityMismatchHidesLocalImages` | `UnifiedImages.ContainerdSection` |
