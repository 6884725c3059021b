# jellyfin-newsletter, modelled in Dafny

jellyfin-newsletter asks a Jellyfin media server for the movies and TV episodes added to
the watched library folders. It looks each movie and series up on TMDB (The Movie
Database) for an overview and a poster, and emails a newsletter when anything new was
found. A watermark file records the date of the last newsletter. When the
`ignore_item_added_before_last_newsletter` option is on, items created before that date
are dropped. Two output handlers, dry-run and preview, write the rendered HTML and a JSON
metadata file instead of, or beside, sending mail.

The model covers:

- **main.py**: the episode fold `populate_series_item_from_episode`, the series enrichment
  `populate_series_item_with_series_related_information`, and `send_newsletter`. That last
  one covers folder classification, the movie and TV loops, the watermark filter and the
  decision to send an email.
- **source/utils.py**: `summarize_ranges` and the watermark file's read and write.
- **source/TmdbAPI.py**: both lookups, including the popularity-based choice among several
  search results.
- **source/dry_run_handler.py** and **source/preview_handler.py**:
  - the output directory and file-name placeholders;
  - the metadata comment put into the HTML;
  - the save step, including the JSON path;
  - `get_metadata`.

Design of the model:

- Python exceptions are explicit outcomes:
  - `None` from a function;
  - `crashed` from a method;
  - `Crashed` for the whole run.
- A dictionary keeps its insertion order, so `Items.Dict` pairs an `order` sequence with a
  map.
- Outside services are parameters of the model:
  - the Jellyfin client, TMDB's HTTP answers and the configured template language are one
    `Services` value of functions;
  - the container check `os.path.exists('/app')` and `os.path.abspath` are a `Host` value;
  - each `datetime.now()` is a `DateTime` parameter.
- The watermark file and the series dictionary are updated in place by the source, so each
  is a class (`Watermark.WatermarkFile`, `Items.SeriesItems`). The loops over them are
  methods, each proved equal to a specification function. The properties of the
  newsletter are proved as lemmas about those functions.
- A missing key and a key set to `None` lead to different branches in the source, so
  `Wrappers.Field` has three cases: `Absent`, `Null` and `Present`.

Where the code and the written description of the project disagree, the model follows the
code:

- The created-on date of a series is always that of its last folded episode. Line 54 of
  main.py overwrites the comparison made on lines 48-53.
- The watermark filter compares the item's creation day, taken at midnight, with the full
  stored watermark. So an item created later on the watermark's own day is dropped unless
  the watermark is exactly midnight.
- When a movie has no `Name`, the item is not skipped. The source only `continue`s its
  inner key loop, and the next `item['Name']` raises, so the run crashes.
- When TMDB has no overview, the enrichment writes the default under a different key
  (`"Overview"`) and then reads `"overview"`, so a series whose TMDB entry has no overview
  crashes the run.

## Model

| member | source | states |
|---|---|---|
| Ranges.SummarizeRanges | source/utils.py:5-38 | The scan with `start`/`end` returns exactly `Summary(nums)`. That is `[]` for an empty list and None when some element cannot be converted to `int`; otherwise it is the tokens of the consecutive runs of the sorted values. |
| Ranges.ScanRuns | source/utils.py:19-36 | The `start`/`end` loop and the final flush over a non-empty sorted list return exactly the tokens of its runs. |
| Ranges.AsInts | source/utils.py:13-17 | Conversion succeeds iff every element is present, and then keeps every value in place. |
| Ranges.SortAscPermutation | source/utils.py:18 | `sorted` returns a permutation of its input. |
| Ranges.SortAscSorted | source/utils.py:18 | `sorted` returns an ascending list. |
| Ranges.SortAscIdentity | source/utils.py:18 | An already sorted list is returned unchanged. |
| Ranges.RunsExpand | source/utils.py:19-36 | The runs found by the scan, written out in full, give back the scanned list exactly, and every run has start <= end. |
| Ranges.StepExpand | source/utils.py:23-31 | One scan step adds exactly the scanned value to the values the runs stand for. |
| Ranges.StepNonEmpty | source/utils.py:23-31 | One scan step keeps every run non-empty (start <= end). |
| Ranges.RunsSeparated | source/utils.py:23-31 | Two neighbouring runs never join (the next run does not start at end + 1). On sorted input the runs ascend, and on strictly increasing input they are separated by a gap of at least one value. |
| Ranges.DistinctRunsGapped | source/utils.py:18-31 | Sorting a list without repeated values gives a strictly increasing list, and its runs are separated by a gap of at least one missing value. |
| Ranges.SummaryCovers | source/utils.py:5-38 | A value occurs in the input iff some run of the summary covers it: the summary loses and invents nothing. |
| Ranges.SummaryLength | source/utils.py:5-38 | The lengths of the runs add up to the number of input values, duplicates included. |
| Ranges.InInterval | source/utils.py:30 | A token `a-b` stands for exactly the integers between a and b. |
| Ranges.InExpand | source/utils.py:19-36 | A value is in the written-out runs iff some run covers it. |
| Ranges.TotalLengthExpand | source/utils.py:19-36 | The summed run lengths equal the length of the written-out runs. |
| Ranges.DocstringRuns | source/utils.py:7-8 | The runs of the docstring's example shape `a, a+1, a+2, a+4, a+5, a+7` are `a..a+2`, `a+4..a+5` and `a+7`. |
| Ranges.DocstringShifted | source/utils.py:7-8 | The docstring example shifted by any offset `a` summarises to the tokens of the shifted runs. |
| Ranges.DocstringTokens | source/utils.py:27-30 | Those runs print as `"0-2"`, `"4-5"` and `"7"`. |
| Ranges.DocstringExample | source/utils.py:7-8 | `[0, 1, 2, 4, 5, 7]` summarises to `['0-2', '4-5', '7']`, as the docstring says. |
| Ranges.DuplicateRuns | source/utils.py:23-31 | A value seen twice and then its successor give two runs: `a` alone, then `a..a+1`. |
| Ranges.DuplicateExample | source/utils.py:23-31 | A repeated value starts a new run: `[3, 3, 4]` gives `['3', '3-4']`. |
| Ranges.SingleExample | source/utils.py:33-34 | A one-element list gives that number alone. |
| Watermark.WatermarkFile.Load | source/utils.py:41-55 | Reading gives None when the file is missing and otherwise `fromisoformat` of the stripped text, None on a parse error. |
| Watermark.WatermarkFile.Save | source/utils.py:57-63 | The file then holds `date.isoformat()`, and reading it gives back `date`. |
| Watermark.WatermarkFile.constructor | source/utils.py:47 | The file starts with the given contents, or is missing. |
| Watermark.SavedReadsBack | source/utils.py:41-63 | Saving a date and reading it back gives the same date. |
| Watermark.SurroundingWhitespaceIgnored | source/utils.py:48-50 | Whitespace around a saved date is stripped before parsing. |
| Watermark.StripSurrounded | source/utils.py:48 | `strip()` removes exactly the whitespace around a text that starts and ends with a digit. |
| Watermark.GarbageReadsNone | source/utils.py:51-53 | A file whose text holds no digit, such as an empty file or "yesterday", reads as no watermark instead of failing the run. |
| DateTimes.IsoRoundTrip | source/utils.py:50 | `fromisoformat(d.isoformat()) == d` for every valid datetime, with or without microseconds. |
| DateTimes.IsoDateRoundTrip | source/utils.py:50-63 | The date half of `isoformat()` has 10 characters and parses back to the year, month and day. |
| DateTimes.ParseDateFields | source/utils.py:50 | Digit fields of widths 4, 2 and 2 joined by dashes parse as their values. |
| DateTimes.ClockRoundTrip | source/utils.py:50-63 | `HH:MM:SS` has 8 characters and parses back to the hour, minute and second. |
| DateTimes.ParseClockFields | source/utils.py:50 | Three two-digit fields joined by colons parse as their values. |
| DateTimes.IsoTimeRoundTrip | source/utils.py:50-63 | The time half parses back to hour, minute, second and microsecond, whether or not microseconds are written. |
| DateTimes.ParseIso | source/utils.py:50 | Every datetime parsed from text is a valid calendar datetime. |
| DateTimes.IsoFormatEnds | source/utils.py:63 | `isoformat()` starts and ends with a digit, so `strip()` leaves it intact. |
| DateTimes.ParseYmd | main.py:145 | `strptime(.., "%Y-%m-%d")` yields a valid datetime at midnight, or fails. |
| DateTimes.ParseYmdParts | main.py:145 | A four-digit year, a month field and a day field joined by dashes parse to that date at midnight. |
| DateTimes.SplitOnceAt | main.py:145 | Splitting once at `c` a text whose first part has no `c` gives back both parts. |
| DateTimes.YmdOfIsoDate | main.py:145 | The date part of an ISO timestamp, before its `T`, parses to midnight of that day. |
| DateTimes.DayOfStamp | main.py:145 | Whatever follows the `T`, the filter reads midnight of the stamp's day. |
| DateTimes.MidnightBefore | main.py:145 | Midnight of day d is before watermark w iff d's date is earlier than w's, or the dates are equal and w is not exactly midnight. |
| Tmdb.Language | source/TmdbAPI.py:13-17 | The request language is `fr-fr` iff the template language is `fr`, and `en-us` otherwise. |
| Tmdb.YearQuery | source/TmdbAPI.py:9 | The year parameter is omitted iff the year is missing or 0, and otherwise is `&year=` followed by the year. |
| Tmdb.SelectBest | source/TmdbAPI.py:33-38 | The popularity loop returns `Best(results)`. |
| Tmdb.ScanInvariant | source/TmdbAPI.py:33-38 | After any prefix, `max_popularity` and `best_result` are 0 and None while no positive popularity was seen. Otherwise they are the earliest greatest one. |
| Tmdb.BestIsEarliestMaximum | source/TmdbAPI.py:31-40 | No result is chosen iff no popularity is positive. A chosen result has the greatest popularity, is the first with it, and is unique as such. |
| Tmdb.GetMediaDetailFromTitle | source/TmdbAPI.py:8-43 | The title search returns `TitleLookup(...)`. |
| Tmdb.TitleLookupOutcome | source/TmdbAPI.py:18-43 | A non-200 status raises, and no results gives None. Exactly one result gives that result. Several results give the most popular one, and raise iff none has a positive popularity. |
| Tmdb.InvalidTypeNoRequest | source/TmdbAPI.py:10-12 | A type other than `movie`/`tv` returns None without consulting the search. |
| Tmdb.IdLookup | source/TmdbAPI.py:46-65 | An invalid type returns None. Otherwise the lookup raises iff the detail request's status is not 200, and returns its body when it is. |
| Items.PosterUrl | main.py:102 | A missing `poster_path` raises. A null or empty one gives the placeholder poster, and any other gives the TMDB image URL. |
| Items.Dict.Put | main.py:35-36 | `d[k] = v`: the value is stored under k. A new key goes to the end and an existing key keeps its place. |
| Items.PutValid | main.py:35-36 | Insertion keeps keys unique and in step with the map, and never reorders existing keys. |
| Items.SeriesItems.constructor | main.py:130 | `series_items` starts empty. |
| Episodes.PopulateSeriesItemFromEpisode | main.py:11-54 | The statement-by-statement update of the dictionary equals `FoldEpisode` of its old contents. |
| Episodes.IncompleteIgnored | main.py:30-34 | An episode missing SeriesId, SeriesName or SeasonName leaves the dictionary unchanged. |
| Episodes.FirstEpisodeCreates | main.py:35-54 | A series' first episode appends the series with its name, the default description, no year and the placeholder poster. Its season and episode lists each hold one entry, and its created-on date is the episode's. |
| Episodes.LaterEpisodeKeeps | main.py:45-54 | A later episode keeps the series' place, name, description, year and poster. It appends the episode number, and the created-on date becomes the new episode's. |
| Episodes.OtherSeriesUntouched | main.py:11-54 | Every other series' record is unchanged. |
| Episodes.FoldEpisodeValid | main.py:35-54 | One fold step keeps the dictionary well formed and its key order as a prefix. |
| Episodes.FoldEpisodesValid | main.py:182-193 | Folding a whole list keeps the dictionary well formed and only appends keys. |
| Episodes.AppendNewProperties | main.py:45-46 | The season list never holds a duplicate, keeps its earlier entries and holds exactly the seasons seen. |
| Episodes.SeasonNamesMembers | main.py:45-46 | A season name is in the collected list iff some episode carries it. |
| Episodes.FoldPerSeries | main.py:11-54 | What the fold stores for a series depends only on that series' own complete episodes, in order. |
| Episodes.GrownFresh | main.py:35-54 | A new record grown by a series' complete episodes has the given name, duplicate-free seasons that are exactly the episodes' seasons, the episode numbers in order, and the last episode's created-on date. |
| Episodes.FoldFromEmpty | main.py:11-54 | From an empty dictionary, a series is present iff it has a complete episode. Then it has the first episode's series name and a duplicate-free list of exactly its season names. Its episode numbers are in folding order, one per episode, and its created-on date is its last episode's. |
| Enrichment.EnrichOne | main.py:63-104 | One iteration for one series id crashes iff `EnrichSeries` is None, and otherwise leaves the dictionary and `tmdb_info` as `EnrichSeries` says. |
| Enrichment.LookUpInfo | main.py:75-92 | The id lookup and the title search crash iff `AfterLookups` is None, and otherwise leave `tmdb_info` as it says. |
| Enrichment.WriteInfo | main.py:94-102 | Writing the overview and poster crashes iff `ApplyInfo` is None, and otherwise leaves the dictionary equal to its result. |
| Enrichment.PopulateSeriesItemWithSeriesRelatedInformation | main.py:57-104 | The nested loops crash iff `EnrichFolders` is None, and otherwise leave the dictionary equal to its result. |
| Enrichment.EnrichSeriesPreserves | main.py:74-102 | Enriching a series only rewrites year, description and poster. Keys, order, names, seasons, episodes and dates stay as they were. |
| Enrichment.EnrichKeysPreserves | main.py:63-104 | The same holds over all series ids of a folder. |
| Enrichment.EnrichFoldersPreserves | main.py:62-104 | The same holds over all watched TV folders. |
| Enrichment.IdLookupFirst | main.py:80-87 | When the TMDB id lookup succeeds with a result, the title search is never consulted. |
| Enrichment.TitleSearchWhenNeeded | main.py:81-92 | Without a TMDB id, the title search decides `tmdb_info`, and one that raises leaves the previous `tmdb_info`. When the id lookup raises while the carried `tmdb_info` is None, the title search decides as well, and one that raises leaves None. |
| Enrichment.CarriedOverInfo | main.py:81-102 | When the id lookup raises, the handler swallows it and keeps the previous series' `tmdb_info`, whose overview and poster are then written to this series. |
| Enrichment.UnboundInfoRaises | main.py:81-87 | When the very first id lookup raises, `tmdb_info` is unbound and the next test of it crashes the run. |
| Enrichment.EnrichSeriesEffect | main.py:74-102 | The year is always the item's production year. Without TMDB info the description and poster are kept; with it they are TMDB's overview and poster URL. Info without an overview crashes the run. |
| Newsletter.WatchedFolderIds | main.py:111-125 | The folder loop returns `WatchedFolders(...)`. |
| Newsletter.PrependNested | main.py:114-125 | Putting film and TV ids in front of a partial result composes by concatenation. |
| Newsletter.WatchedFoldersSpec | main.py:114-125 | The loop crashes iff some watched folder has no Id. Otherwise the film list holds exactly the Ids of folders named in the film list. The TV list holds exactly those named in the TV list and not in the film list. |
| Newsletter.WatchedFoldersFails | main.py:114-125 | The classification fails iff some folder named in a watched list has no Id. |
| Newsletter.WatchedFoldersIds | main.py:114-125 | When it succeeds, the film and TV lists hold exactly the Ids of the folders named in the film list and in the TV list only. |
| Newsletter.IsSkipped | main.py:142-147 | The per-item filter re-reads the watermark file and returns `SkipsItem` of its contents. |
| Newsletter.WatermarkFilter | main.py:142-147 | The same filter also guards the TV loop (main.py:186-191). Nothing is skipped when the option is off, when there is no watermark, or when DateCreated is None. A missing DateCreated raises. An item is skipped iff its day at midnight precedes the watermark. |
| Newsletter.LaterSameDayDropped | main.py:145 | An item created later on the watermark's own day is dropped when the watermark is not exactly midnight. |
| Newsletter.AddMovie | main.py:136-179 | One movie's iteration returns `MovieStep`: skipped, stored, left out when TMDB has nothing, or crashed. |
| Newsletter.CollectMovies | main.py:133-179 | The movie loops return `MovieFolders` from an empty dictionary and a zero total. |
| Newsletter.AddFolderMovies | main.py:136-179 | The loop over one folder's items returns `MovieItems` of the dictionary and those items. |
| Newsletter.MovieFoldersSpec | main.py:133-179 | `total_movie` is the sum of the server's totals, whatever the filter drops. The dictionary stays well formed and keeps earlier keys in order. |
| Newsletter.MovieItemsValid | main.py:136-179 | A folder's items keep the dictionary well formed and only add Ids of those items. |
| Newsletter.MovieItemsOrdered | main.py:136-179 | A folder's items keep the dictionary well formed and its earlier keys as a prefix of the new order. |
| Newsletter.MovieStepShape | main.py:136-179 | One movie leaves the dictionary as it is or stores one record under its Id. |
| Newsletter.MovieRecorded | main.py:148-179 | A kept movie that TMDB finds is stored with its name, its year (0 when missing) and its DateCreated. Its description is TMDB's overview or "No overview available.", and its poster URL comes from TMDB. With a TMDB id the title search is never consulted. |
| Newsletter.CollectEpisodes | main.py:182-193 | The TV loops fill `series_items` as `TvFolders` says and return `total_tv`, or report a crash. |
| Newsletter.AddTvItem | main.py:185-193 | One TV item succeeds iff `TvStep` does, and then the dictionary equals its result. |
| Newsletter.FoldEpisodesAppend | main.py:185-193 | Folding two lists one after the other is folding their concatenation. |
| Newsletter.TvItemsFold | main.py:185-193 | A folder's items fold into the dictionary exactly as its kept episodes do, in order. |
| Newsletter.TvFoldersFold | main.py:182-193 | The TV loops fold exactly the kept episodes of all watched TV folders, in order, and `total_tv` is the sum of the server's totals. |
| Newsletter.SendNewsletter | main.py:109-206 | The whole run returns `Newsletter(...)` of the configuration, the stored watermark and the services' answers. |
| Newsletter.NewsletterOutcome | main.py:109-206 | An email goes out only with at least one movie or series, in well-formed dictionaries. Its totals are the server's totals over the watched folders, and its series hold exactly what folding the kept episodes produced. With no watched folders no email goes out. |
| PyPath.Join | source/dry_run_handler.py:30 | An absolute second part replaces the first. Otherwise the second part is appended after the first, with one `/` between them when needed. |
| PyPath.RFind | source/dry_run_handler.py:64 | The index of the last occurrence of a character, or -1 iff it does not occur. |
| PyPath.SplitExt | source/dry_run_handler.py:64 | The stem and extension concatenate back to the path. The extension is empty, or is a dot followed by text with no dot and no slash. |
| PyPath.SplitExtPlain | source/dry_run_handler.py:64 | `dir/stem.ext` splits at the last dot. |
| PyPath.SplitExtLeadingDot | source/dry_run_handler.py:64 | A final component `.name` has no extension. |
| PyPath.InsertSuffixKeepsExtension | source/dry_run_handler.py:63-65 | Inserting `_suffix` keeps the extension: the result splits into the old stem plus `_suffix`, and the old extension. |
| PyPath.InsertedSlash | source/dry_run_handler.py:64 | Inserting `_suffix` before an extension leaves the last `/` where it was. |
| PyPath.InsertedDot | source/dry_run_handler.py:64 | After the insertion the last `.` is the one that starts the extension. |
| PyPath.AppendedKeeps | source/dry_run_handler.py:64 | Appending `_suffix` without a character `c` leaves the last `c` where it was. |
| PyPath.PlainSeparators | source/dry_run_handler.py:64 | In `dir/stem.ext` the last `/` follows `dir` and the last `.` follows `stem`. |
| DryRun.ResolveSpec | source/dry_run_handler.py:16-37 | In the container the directory starts with `/app`. One that already does is kept; any other loses its leading `.` and `/` characters and goes under `/app/`. Locally an absolute directory is kept and a relative one is made absolute. |
| DryRun.ResolveParentRelative | source/dry_run_handler.py:30 | In the container `../name` resolves to `/app/name`. `lstrip` removes a character set, not a prefix. |
| DryRun.ParentPrefixStripped | source/dry_run_handler.py:30 | `lstrip('./')` removes all of a leading `../`. |
| DryRun.JoinUnderApp | source/dry_run_handler.py:30 | Joining a part that does not start with `/` to `/app` puts exactly one `/` between them. |
| DryRun.ResolveAbsoluteOutside | source/dry_run_handler.py:30 | In the container an absolute directory outside `/app` is moved under `/app`. |
| DryRun.GenerateFilename | source/dry_run_handler.py:51-69 | The generated path is `FileName(...)`. |
| DryRun.SubstitutedSpec | source/dry_run_handler.py:58-60 | After the three replacements no `{date}`, `{timestamp}` or `{time}` placeholder is left. |
| DryRun.FileNameSpec | source/dry_run_handler.py:51-69 | The name keeps no placeholder. Without a suffix it is the substituted template; a suffix goes between stem and extension. When the name is not absolute, the path starts with the resolved directory and ends with the name. This says nothing about an absolute name, which `os.path.join` lets replace the directory. |
| DryRun.AddMetadataSpec | source/dry_run_handler.py:71-86 | With metadata off the HTML is unchanged. Otherwise the whole HTML follows a block that opens with `<!--` and ends with `-->` and a newline. |
| DryRun.CommentInFront | source/dry_run_handler.py:71-86 | A comment block of any body put in front of the HTML keeps the whole HTML at the end, opens with `<!--` and ends with `-->` and a newline. |
| DryRun.SaveDryRunOutput | source/dry_run_handler.py:88-130 | When disabled nothing is written and both paths are None. Otherwise the HTML with its metadata goes to the generated path. The JSON path is the `data` file name with `.html` replaced by `.json`, and only when the email data is saved. |
| DryRun.GetMetadata | source/dry_run_handler.py:132-172 | The two projection loops and the dictionary give `MetadataOf(...)`. |
| DryRun.GetMetadataSpec | source/dry_run_handler.py:132-172 | Building the metadata fails iff some record has no creation date. Otherwise there is one entry per movie and per series, the stats hold the totals and size 0, and the timestamp is `now.isoformat()`. Recipients are the configured ones iff the mode is `dry-run-smtp-only`, and `["dry-run-mode"]` otherwise. |
| Preview.GenerateFilename | source/preview_handler.py:21-35 | The generated path is `FileName(...)`. |
| Preview.SubstitutedSpec | source/preview_handler.py:27-29 | After the three replacements no `{date}`, `{time}` or `{timestamp}` placeholder is left. |
| Preview.FileNameSpec | source/preview_handler.py:21-35 | The name keeps no placeholder. A suffix goes between stem and extension. When the name is not absolute, the path starts with the configured directory and ends with the name. If that directory is also non-empty and does not end in `/`, exactly one `/` separates them. `os.path.join` lets an absolute name replace the directory, and it adds no `/` after an empty one. |
| Preview.AddMetadataSpec | source/preview_handler.py:37-60 | With metadata off the HTML is unchanged. With a DOCTYPE and a `>`, the comment block goes right after the first `>` and the HTML is otherwise intact. Otherwise the block goes in front of the whole HTML. |
| Preview.InsertedAfterFirst | source/preview_handler.py:55-58 | `split('>', 1)` cuts at the first `>`, and rejoining puts the block right after it. |
| Preview.SavePreview | source/preview_handler.py:62-95 | When disabled nothing is written and both paths are None. Otherwise the HTML goes to the generated path, with metadata when enabled. The JSON path is the `data` file name with `.html` replaced by `.json`. |
| Preview.GetMetadata | source/preview_handler.py:97-148 | The two projection loops and the dictionary give `MetadataOf(...)`. |
| Preview.GetMetadataSpec | source/preview_handler.py:97-148 | Building the metadata fails iff some record has no creation date. Otherwise there is one entry per movie and per series, the stats hold the totals and size 0, and the timestamp is `now.isoformat()`. Recipients are the configured ones iff the mode is `dry-run`, and `["preview-mode"]` otherwise. |
| OutputFiles.ProjectMovies | source/dry_run_handler.py:137-143 | The movies loop returns `MovieList` of the dictionary's keys, in insertion order. |
| OutputFiles.ProjectSeries | source/dry_run_handler.py:146-153 | The series loop returns `SeriesList` of the dictionary's keys, in insertion order. |
| OutputFiles.MovieListSpec | source/dry_run_handler.py:137-143 | The list fails iff some movie's creation date is None. Otherwise it has one entry per movie in order, with its name, the date part before `T`, and an empty TMDB id. |
| OutputFiles.SeriesListSpec | source/preview_handler.py:124-131 | The list fails iff some series' creation date is None. Otherwise it has one entry per series in order, with its name, seasons, episodes and the date part before `T`. |
| OutputFiles.MovieListFails | source/dry_run_handler.py:137-143 | The movies list fails iff some movie's creation date is None. |
| OutputFiles.MovieListEntries | source/dry_run_handler.py:137-143 | A successful movies list has one entry per movie, in order, with its name, date part and empty TMDB id. |
| OutputFiles.SeriesListFails | source/dry_run_handler.py:146-153 | The series list fails iff some series' creation date is None. |
| OutputFiles.SeriesListEntries | source/dry_run_handler.py:146-153 | A successful series list has one entry per series, in order, with its name, seasons, episodes and date part. |
| OutputFiles.MoviesDated | source/dry_run_handler.py:137-143 | Over a whole dictionary the movies list exists iff every movie is dated, and then has one entry per key. |
| OutputFiles.SeriesDated | source/dry_run_handler.py:146-153 | Over a whole dictionary the series list exists iff every series is dated, and then has one entry per key. |
| OutputFiles.MovieListStaysNone | source/dry_run_handler.py:137-143 | Once a movie's date fails, the whole list fails. |
| OutputFiles.SeriesListStaysNone | source/dry_run_handler.py:146-153 | Once a series' date fails, the whole list fails. |
| OutputFiles.StampsAreStampText | source/dry_run_handler.py:58-60 | Every `strftime` stamp is made of digits, `-` and `_`. |
| OutputFiles.StampIsolated | source/dry_run_handler.py:58-60 | A stamp can never form part of a placeholder. |
| OutputFiles.ReplaceStep | source/dry_run_handler.py:58-60 | Each replacement removes its own placeholder and creates none of the others. |
| OutputFiles.SuffixKeepsNoPlaceholder | source/dry_run_handler.py:63-65 | Inserting a suffix without `{` creates no placeholder. |
| OutputFiles.SuffixedName | source/dry_run_handler.py:62-65 | Inserting a suffix into a placeholder-free name keeps it placeholder-free. No suffix leaves the name unchanged, and a plain suffix goes between stem and extension. |
| OutputFiles.JsonPathSpec | source/dry_run_handler.py:117 | No `.html` is left in the metadata path. A path without `.html` is used unchanged, so its metadata file gets no `.json` extension. |
| Text.ReplaceAllRemoves | source/preview_handler.py:27-29 | `str.replace` with a replacement that cannot overlap the pattern leaves no occurrence of it. |
| Text.ReplaceAllKeepsAbsent | source/preview_handler.py:27-29 | `str.replace` with such a replacement creates no occurrence of another pattern. |
| Text.ReplaceAllAbsent | source/dry_run_handler.py:117 | `str.replace` leaves text without the pattern unchanged. |
| Text.SplitOnce | source/preview_handler.py:56-57 | `split(c, 1)` yields two parts iff `c` occurs. The parts rejoin around the first `c`. |
| Text.BeforeFirst | main.py:145 | `split(c)[0]` is a prefix without `c`, followed by `c` when shorter than the text. |
| Text.LStrip | source/dry_run_handler.py:30 | `lstrip(chars)` removes exactly the longest prefix made of `chars`. |
| Text.StripClean | source/utils.py:48 | `strip()` leaves text without surrounding whitespace unchanged. |

## Left out

- Logging is not modelled. `email_controller`, `email_template`, the configuration loader and checker, and the cron scheduler are not part of this model.
- File writes, `os.makedirs` and `json.dump` are not modelled. `SaveDryRunOutput` and `SavePreview` return the paths and the HTML text that would be written, so a failed write or a failed `_ensure_output_directory` is not represented.
- The Jellyfin client and TMDB's HTTP requests are oracle functions in `Items.Services` and `Tmdb`. The minimum-creation-date window that `get_item_from_parent` applies on the server is inside that oracle.
- `datetime.now()` is a parameter, one per call. The two file names of one save each get their own instant.
- `os.path.exists('/app')` and `os.path.abspath` are the `DryRun.Host` oracle.
- DateTimes.ParseIso: follows the `fromisoformat` grammar of Python 3.7-3.10: the extended format only, and 3 or 6 fraction digits. Python 3.11 and later also accept the basic format, other fraction lengths and `Z`, which the model reads as failures. It also reads `fromisoformat` without UTC offsets. An offset stamp is a parse failure, so the TypeError of comparing an aware datetime with a naive one is not represented.
- OutputFiles.DateStamp: writes `%Y` zero-padded to four digits for every year. The platform's `strftime` may write years below 1000 with fewer digits, which no current clock produces.
- The title is put into the TMDB search URL as it is, without URL encoding, as the source does. HTTP headers and the API key are not modelled.
- `configuration_hash` is not in `OutputFiles.Metadata`, because Python's `hash` of a string is randomised per process. The email size is a text field set to `"0"`, because the handlers only ever store 0 there.
- The `mode` parameter of `save_dry_run_output` and `save_preview` is unused by the source and is not a parameter of the model.
- The `'Unknown'` and `[]` defaults of `get_metadata` are not modelled: the records built by `send_newsletter` always hold those keys. The `'N/A'` default of the preview comment is not modelled either, because `smtp_tested` is always present.
- `tmdb_id` is never stored in a movie record, so the metadata always holds `""` for it.
- Text.Whitespace: holds the ASCII whitespace only, `\x1c`-`\x1f` included. Python's `str.strip()` also removes non-ASCII whitespace such as `\x85`, `\xa0` and `\u2000`-`\u200a`, so a watermark file padded with those characters loads as a date in Python but as None in the model.
- Items.Item: a JSON `null` under `SeriesName` or `SeasonName` counts as a missing key, so the model skips the episode. The key test in main.py:30-34 lets it through and folds it in.
- Items.Item: a JSON `null` under `ProductionYear` counts as a missing key. In the enrichment the model then crashes, where main.py:74 stores None as the year. In the movie loop the model stores 0, where main.py:149-151 tests only for the key and stores None.
- Items.Item: a JSON `null` under `Name` on a movie counts as a missing key, so the model crashes. The key test at main.py:137-141 lets it through, and the source searches TMDB for the title "None" and stores None as the name.
- Items.Item: a JSON `null` under `Name` on a series counts as a missing key, so the enrichment crashes. The source logs it as "None" at main.py:84, main.py:92 and main.py:95, searches TMDB for the title "None" at main.py:90, and goes on.
- Items.Item: a JSON `null` under `Id` on a root folder counts as a missing key, so `WatchedFolders` crashes. main.py:119 and main.py:122 append None to the watched folder ids and go on.
- Items.Item: `"ProviderIds": null` reads as "no TMDB id", so the model goes on to the title search. The source calls `.keys()` on None at main.py:77 and main.py:156, outside any try, and the run stops with AttributeError.
- Items.Item: a JSON `null` under `Id` on a movie counts as a missing key, so the model crashes. main.py:173 stores the record under the key None.
- Items.Item: a JSON `null` under `SeriesId` counts as a missing key, so the model skips the episode. main.py:30-36 lets it through and files the episode under the key None.
- Items.Item: a JSON `null` under `Type` counts as a missing key, so the model crashes. main.py:192 compares it with "Episode" and skips the item.
- Tmdb.TmdbEntry: a JSON `null` under `"overview"` counts as a missing key. For a movie the model then writes "No overview available.", and for a series it crashes. main.py:95-100 and main.py:169-177 store None as the description.
- Tmdb.TmdbEntry: every search result is taken to hold `"popularity"` and `"id"`. A result without them makes the source raise KeyError at source/TmdbAPI.py:36 or source/TmdbAPI.py:39, which the model does not represent.
- Enrichment.EnrichSeriesEffect: describes one series' effect in the case the source reaches. It does not enumerate every missing-key crash, such as a missing `ProductionYear`, which the function `EnrichSeries` does model.
