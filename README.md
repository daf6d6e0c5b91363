# fconx in Dafny

fconx mirrors the back catalogue of the Chinese podcast network FCONX to disk. Its
pipeline has three stages, run in order from the command line:

1. **discovery** (`EpisodeScraper`): scrape each series' listing pages and append every
   episode whose id is not already in that series' JSON metadata file;
2. **resolution** (`DownloadUrlScraper`): for every stored episode with no download URL,
   open its page, cut the link after the first `.mp3` and write the episode back;
3. **retrieval** (`Downloader`): for every stored episode whose mp3 is not on disk, fetch
   the file, hash it (`Sha1Hasher`: SHA-1 of the first 2048 bytes), record the hash and
   write the mp3.

One `Canceller` flag, set by the Ctrl-C handler, stops every stage between jobs. The older
`fconx-scraper` crate did the same work with a plain-append store, a retrying browser
scraper and a filename-based mp3 scan; those variants are modelled in the `Legacy*`
modules.

The model works on values:
- a series' metadata file is a `JsonFile<Episode>`, which is missing, unparseable or a
  list of records;
- the store is a class holding a `map` from series to file;
- an `Episode` is a datatype whose setters return an updated copy.

Each worker pool becomes a sequential loop that pops jobs from the end of the job list.
The generic fold `WorkerPool.Drain` states what a fully or partly drained pool leaves
behind. The outside world is a set of function-valued parameters:
- uuid v5;
- SHA-1;
- the rendered listing pages and episode pages;
- HTTP;
- the mp3 directories;
- when Ctrl-C arrives.

## Model

| member | source | states |
|---|---|---|
| SeriesConfig.Url | fconx-scraper/src/config/series.rs:28-36 | every series' listing URL is under the site's base and ends in `/` |
| SeriesConfig.DataJsonFilename | fconx-scraper/src/config/series.rs:38-46 | every metadata filename ends in `.json` |
| SeriesConfig.Mp3Dirname | fconx-scraper/src/config/series.rs:48-56 | every mp3 directory name is non-empty |
| SeriesConfig.TryFrom | fconx-scraper/src/config/series.rs:63-72 | parsing succeeds exactly on the five variant names; otherwise the error carries the rejected text |
| SeriesConfig.TryFromSameName | fconx-scraper/src/config/series.rs:63-72 | each variant's own name parses back to that variant |
| SeriesConfig.DataJsonFilenameInjective | fconx-scraper/src/config/series.rs:38-46 | distinct series never share a metadata file |
| SeriesConfig.Mp3DirnameInjective | fconx-scraper/src/config/series.rs:48-56 | distinct series never share an mp3 directory |
| SeriesConfig.UrlInjective | fconx-scraper/src/config/series.rs:20-36 | distinct series never share a listing URL |
| ConfigModel.DefaultSeriesVec | fconx/src/config/model.rs:16-42 | the default list has no duplicates and serializes to the five names in order |
| ConfigModel.DefaultSeriesVecCoversAll | fconx/src/config/model.rs:24-35 | the default list contains every series |
| ConfigModel.VariantName | fconx/src/config/model.rs:53-64 | the name written for a series parses back to that series |
| ConfigModel.SerializeSeriesVec | fconx/src/config/model.rs:49-66 | serialization keeps the length, and each name parses back to the series at its position |
| ConfigModel.DeserializeSeriesVec | fconx/src/config/model.rs:69-82 | succeeds iff every name parses, then yields the parsed series in order; otherwise fails with the fixed message |
| ConfigModel.SerializeThenDeserialize | fconx/src/config/model.rs:49-82 | deserializing a serialized list gives back the same list |
| Strings.FindFrom | fconx/src/scraper/download_url_scraper.rs:151-155 | returns the first occurrence at or after the start, or none if there is none |
| Strings.Find | fconx/src/scraper/download_url_scraper.rs:151-155 | finds something iff the pattern occurs, and it is the leftmost occurrence |
| Strings.RFindBelow | fconx-scraper/src/scraper/scraper.rs:114 | returns the last occurrence below the bound, or none if there is none |
| Strings.RFind | fconx-scraper/src/scraper/scraper.rs:114 | finds something iff the pattern occurs, and it is the rightmost occurrence |
| Strings.TrimStartMatches | fconx/src/scraper/episode_scraper.rs:103 | the result is a suffix of the input and (for a non-empty pattern) no longer starts with the pattern |
| Strings.TrimStartMatchesRemovesCopies | fconx/src/scraper/episode_scraper.rs:103 | the input is some number of copies of the pattern followed by the trimmed result |
| Strings.TrimStartMatchesIdempotent | fconx/src/scraper/episode_scraper.rs:103 | trimming twice is the same as trimming once |
| Decimal.ParseUsize | fconx/src/scraper/episode_scraper.rs:104 | a successful `usize` parse reads a non-empty run of digits, optionally after one `+`, as its decimal value, and the value fits in 64 bits |
| Decimal.ParseUsizeAcceptsDigits | fconx/src/scraper/episode_scraper.rs:104 | every non-empty run of digits whose value fits in 64 bits parses, to that value |
| Decimal.ParseUsizeSkipsPlus | fconx/src/scraper/episode_scraper.rs:104 | one leading `+` is skipped, so the text parses as the text after it; a second `+` is rejected |
| Decimal.ToDecimal | fconx/src/scraper/episode_scraper.rs:105 | the written number is non-empty digits with no leading zero, and reads back as the same value |
| Decimal.ZeroPad4 | fconx/src/scraper/episode_scraper.rs:105 | `{:04}` reads back as the same value; it is exactly four characters, zeros then the digits, when the number has fewer than four digits, and the digits alone otherwise |
| Decimal.ParseZeroPad4 | fconx/src/scraper/episode_scraper.rs:104-105 | parsing a zero-padded number gives the number back |
| Decimal.LeadingZeros | fconx/src/scraper/episode_scraper.rs:105 | prefixing zeros does not change a digit string's value |
| Decimal.ZerosValue | fconx/src/scraper/episode_scraper.rs:105 | a string of zeros is worth zero |
| Decimal.DigitChar | fconx/src/scraper/episode_scraper.rs:105 | the character written for a digit reads back as that digit |
| Decimal.Zeros | fconx/src/scraper/episode_scraper.rs:105 | the padding is exactly k zero digits |
| WorkerPool.Min | fconx/src/scraper/download_url_scraper.rs:93 | the pool size is the smaller of the thread limit and the job count |
| WorkerPool.Drain | fconx/src/scraper/download_url_scraper.rs:103-111 | defines the state after popping every job from the end of the list and applying the per-job step to each |
| WorkerPool.DrainPushFront | fconx/src/scraper/download_url_scraper.rs:103-111 | a job below the others on the stack is processed after all of them |
| WorkerPool.DrainOneMore | fconx/src/scraper/download_url_scraper.rs:103-111 | popping one more job applies one more step to the state left by the jobs above it |
| Episodes.Episode.SetSha1 | fconx/src/episode/model.rs:80-82 | sets the hash and changes no other field |
| Episodes.Episode.SetDownloadUrl | fconx/src/episode/model.rs:85-87 | sets the download URL and changes no other field |
| Episodes.New | fconx/src/episode/model.rs:23-42 | a new episode stores its arguments, has no hash or download URL, and its id is the uuid v5 of its page URL |
| Episodes.IdDependsOnlyOnPageUrl | fconx/src/episode/model.rs:30-31 | two episodes built from the same page URL have the same id |
| Episodes.SettersCommute | fconx/src/episode/model.rs:80-87 | the two setters commute, and neither changes the id or the series |
| JsonFiles.ReadRecords | fconx/src/rw/rw_json.rs:133-144 | defines reading a metadata file: its records when it parses, no records when it is missing or unparseable |
| MetadataStore.WithoutId | fconx/src/rw/rw_json.rs:83-85 | keeps exactly the records whose id differs |
| MetadataStore.WithoutIdConcat | fconx/src/rw/rw_json.rs:83-85 | filtering distributes over concatenation |
| MetadataStore.WithoutIdNoop | fconx/src/rw/rw_json.rs:83-85 | filtering an id that is absent changes nothing |
| MetadataStore.WithoutIdPreservesUniqueIds | fconx/src/rw/rw_json.rs:83-85 | filtering keeps ids unique |
| MetadataStore.Upsert | fconx/src/rw/rw_json.rs:82-87 | the edited episode is last, no earlier record has its id, and the other records are those with a different id |
| MetadataStore.UpsertPreservesUniqueIds | fconx/src/rw/rw_json.rs:82-87 | editing keeps ids unique |
| MetadataStore.UpsertLaterWins | fconx/src/rw/rw_json.rs:82-87 | of two edits of the same id, only the later survives |
| MetadataStore.UpsertIdempotent | fconx/src/rw/rw_json.rs:82-87 | editing twice with the same episode is editing once |
| MetadataStore.EditedFiles | fconx/src/rw/rw_json.rs:80-89 | an edit rewrites only the episode's own series file, as the upserted list |
| MetadataStore.EditLaterWins | fconx/src/rw/rw_json.rs:80-89 | of two edits to the same episode, the later one wins |
| MetadataStore.EditTwice | fconx/src/rw/rw_json.rs:80-89 | repeating an edit changes nothing |
| MetadataStore.RWJson.constructor | fconx/src/rw/rw_json.rs:16-26 | one file per configured series, as found on disk |
| MetadataStore.RWJson.OverwriteAllEpisodes | fconx/src/rw/rw_json.rs:34-45 | the series file becomes exactly the given list; the other files are unchanged |
| MetadataStore.RWJson.ReadAllEpisodes | fconx/src/rw/rw_json.rs:56-63 | returns the stored records, or nothing when the file is missing or unparseable |
| MetadataStore.RWJson.EditEpisode | fconx/src/rw/rw_json.rs:80-89 | the store becomes the edited files |
| MetadataStore.RWJson.PushEpisode | fconx/src/rw/rw_json.rs:125-130 | the episode is appended to its series' records |
| Hasher.Fingerprint | fconx/src/hasher/mod.rs:17-26 | defines the fingerprint as the digest of the first min(2048, length) bytes |
| Hasher.SamePrefixSameFingerprint | fconx/src/hasher/mod.rs:17-26 | inputs that agree on their first 2048 bytes get the same fingerprint |
| Hasher.ShortInputHashedInFull | fconx/src/hasher/mod.rs:20-21 | an input of at most 2048 bytes is hashed in full |
| Hasher.AppendKeepsFingerprint | fconx/src/hasher/mod.rs:20-21 | appending bytes after the first 2048 does not change the fingerprint |
| Hasher.Sha1Hasher.constructor | fconx/src/hasher/mod.rs:11-15 | a new hasher has nothing pending |
| Hasher.Sha1Hasher.CreateSha1 | fconx/src/hasher/mod.rs:17-26 | returns the SHA-1 of the first 2048 bytes and leaves the hasher reset |
| Hasher.HashTwice | fconx/src/hasher/mod.rs:17-26 | because of the reset, the second hash does not depend on the first input |
| Cancellation.Canceller.constructor | fconx/src/canceller/mod.rs:11-28 | a new canceller is not cancelled and its sender is unused |
| Cancellation.Canceller.IsCancel | fconx/src/canceller/mod.rs:36-38 | reports the flag |
| Cancellation.Canceller.Cancel | fconx/src/canceller/mod.rs:41-43 | cancelling sets the flag and uses up the one-shot sender |
| Cancellation.Interrupt | fconx-cli/src/main.rs:26-39 | a Ctrl-C sets the flag at most once, and the flag is never cleared |
| EpisodeScraper.NormalizeNumber | fconx/src/scraper/episode_scraper.rs:100-112 | strips every `No. ` prefix; a number that parses is written back with `{:04}` (so it parses to the same value); anything else is kept as trimmed |
| EpisodeScraper.NormalizeNumberIdempotent | fconx/src/scraper/episode_scraper.rs:100-112 | normalizing a normalized number changes nothing |
| EpisodeScraper.EntryEpisode | fconx/src/scraper/episode_scraper.rs:139 | a complete listing entry becomes a fresh episode of its series with the normalized number, the link text as title, and the uuid of the link as id |
| EpisodeScraper.Scraped | fconx/src/scraper/episode_scraper.rs:70-144 | as many episodes as complete entries, each a fresh episode of the series built from some complete entry; incomplete entries are skipped; page order is pinned by ScrapedConcat |
| EpisodeScraper.ScrapedKeepsComplete | fconx/src/scraper/episode_scraper.rs:96-141 | every complete entry's episode is among the scraped episodes |
| EpisodeScraper.ScrapedConcat | fconx/src/scraper/episode_scraper.rs:96-141 | scraping keeps page order: two consecutive stretches of entries give their episodes one after the other |
| EpisodeScraper.ScrapeEpisodesBySeries | fconx/src/scraper/episode_scraper.rs:70-144 | the loop over the listing returns the page error or the scraped episodes |
| EpisodeScraper.NotStored | fconx/src/scraper/episode_scraper.rs:47-55 | keeps exactly the scraped episodes whose id is not stored; order and duplicates are pinned by NotStoredConcat |
| EpisodeScraper.NotStoredConcat | fconx/src/scraper/episode_scraper.rs:47-55 | the selection keeps scraped order and duplicates: it distributes over concatenation |
| EpisodeScraper.MergeNew | fconx/src/scraper/episode_scraper.rs:46-58 | the stored records stay in front, unchanged; after them come exactly the scraped episodes with new ids, in scraped order (the ordered selection NotStored) |
| EpisodeScraper.MergeNewAddsOnlyNewIds | fconx/src/scraper/episode_scraper.rs:47-57 | no appended episode shares an id with a stored one |
| EpisodeScraper.MergeNewIdempotent | fconx/src/scraper/episode_scraper.rs:46-58 | rerunning discovery on the same listing adds nothing |
| EpisodeScraper.MergeSeries | fconx/src/scraper/episode_scraper.rs:39-67 | discovery of one series keeps the store's series |
| EpisodeScraper.Discover | fconx/src/scraper/episode_scraper.rs:39-67 | discovery of all series keeps the store's series |
| EpisodeScraper.DiscoverSpec | fconx/src/scraper/episode_scraper.rs:39-67 | after discovery, each listed series whose page loaded is the merge of its stored and scraped episodes; every other file is unchanged |
| EpisodeScraper.DiscoverIdempotent | fconx/src/scraper/episode_scraper.rs:39-67 | running discovery twice is running it once |
| EpisodeScraper.FirstFailure | fconx/src/scraper/episode_scraper.rs:63-65 | discovery passes iff every series page loaded; otherwise it reports the error of the first series that failed |
| EpisodeScraper.ScrapeAndWriteEpisodes | fconx/src/scraper/episode_scraper.rs:39-67 | the store becomes the discovered files and the result is the first page error |
| Mp3Urls.TryTruncateUrl | fconx/src/scraper/download_url_scraper.rs:151-155 | truncation succeeds iff the link contains `.mp3`; the result is a prefix of the link ending in its first `.mp3` |
| Mp3Urls.ResolvedUrl | fconx/src/scraper/download_url_scraper.rs:162-165 | a link with `.mp3` becomes its truncation, the prefix ending in its first `.mp3`; any other link is kept whole |
| Mp3Urls.ResolvedUrlIdempotent | fconx/src/scraper/download_url_scraper.rs:151-165 | resolving a resolved URL changes nothing |
| Mp3Urls.TruncateAtLastMp3 | fconx-scraper/src/scraper/scraper.rs:114 | the older cut is a prefix ending in the last `.mp3`, with no `.mp3` after it |
| Mp3Urls.FirstAndLastCutAgree | fconx-scraper/src/scraper/scraper.rs:114 | when `.mp3` occurs once, the older last-occurrence cut and the newer first-occurrence cut agree |
| DownloadUrlScraper.WithoutDownloadUrl | fconx/src/scraper/download_url_scraper.rs:59-63 | keeps exactly the records with no download URL; file order, and so pop order, is pinned by WithoutDownloadUrlConcat |
| DownloadUrlScraper.WithoutDownloadUrlConcat | fconx/src/scraper/download_url_scraper.rs:59-63 | the selection keeps file order and duplicates: it distributes over concatenation |
| DownloadUrlScraper.NoDownloadUrlEpisodes | fconx/src/scraper/download_url_scraper.rs:48-84 | the resolution jobs are exactly the stored episodes, across the listed series, with no download URL |
| DownloadUrlScraper.ResolveStep | fconx/src/scraper/download_url_scraper.rs:112-122 | a job whose page fails leaves the store unchanged; otherwise the store is edited (upserted) with the episode carrying the resolved URL, which ends up last in its series' file |
| DownloadUrlScraper.ResolvedLeavesScan | fconx/src/scraper/download_url_scraper.rs:59-63 | once an episode is resolved it is no longer selected by the scan of its series |
| DownloadUrlScraper.ScrapeAndWriteDownloadUrls | fconx/src/scraper/download_url_scraper.rs:87-135 | pool size is min(cpus, jobs); the store is the jobs popped so far applied in pop order; popping stops short only on cancellation, does nothing when cancelled before, and with no Ctrl-C processes every job |
| DownloadUrlScraper.Run | fconx/src/scraper/download_url_scraper.rs:39-45 | the jobs are the scan; the store is the jobs popped so far applied in pop order; it stops short only on cancellation and with no Ctrl-C processes every job |
| Downloader.NotDownloadedOf | fconx/src/downloader/downloader.rs:99-108 | keeps exactly the records whose hash is missing or not among the files on disk; file order is pinned by NotDownloadedOfConcat |
| Downloader.NotDownloadedOfConcat | fconx/src/downloader/downloader.rs:99-108 | the selection keeps file order and duplicates: it distributes over concatenation |
| Downloader.ScanNotDownloadedMp3s | fconx/src/downloader/downloader.rs:86-127 | the scan returns exactly the stored episodes, across the listed series, whose mp3 is not on disk |
| Downloader.OnDiskNeverSelected | fconx/src/downloader/downloader.rs:99-108 | an episode whose hash is among the files on disk of each series storing it is never fetched again |
| Downloader.ScanSelectsUnresolved | fconx/src/downloader/downloader.rs:99-108 | the scan as written selects an episode that has no download URL (see Findings) |
| Downloader.DownloadableOf | fconx/src/downloader/downloader.rs:99-108 | keeps exactly the records that are not on disk and have a download URL; file order is pinned by DownloadableOfConcat |
| Downloader.DownloadableOfConcat | fconx/src/downloader/downloader.rs:99-108 | the corrected selection keeps file order and duplicates: it distributes over concatenation |
| Downloader.ScanDownloadableMp3s | fconx/src/downloader/downloader.rs:86-127 | the corrected scan is the as-written scan restricted to episodes with a download URL |
| Downloader.DownloadStep | fconx/src/downloader/downloader.rs:148-170 | an episode with no download URL, or whose fetch fails, changes nothing; otherwise the episode gets the fingerprint of the bytes, its series is edited and the mp3 is written |
| Downloader.DownloadedLeavesScan | fconx/src/downloader/downloader.rs:99-108 | once downloaded, an episode whose fingerprint is on disk leaves the scan |
| Downloader.DownloadMp3s | fconx/src/downloader/downloader.rs:130-182 | pool size is min(threads, jobs); the store and the written files are the jobs popped so far applied in pop order; stops short only on cancellation, and with no Ctrl-C processes every job |
| Downloader.Run | fconx/src/downloader/downloader.rs:44-51 | the jobs are the corrected scan; store and written files are the jobs popped so far applied in pop order; stops short only on cancellation, and with no Ctrl-C processes every job |
| Pipeline.ScrapeEpisodes | fconx/src/fconx/fconx.rs:68-74 | skipped when cancelled; otherwise the store becomes the discovered files and the first page error is passed on |
| Pipeline.ScrapeDownloadUrl | fconx/src/fconx/fconx.rs:76-82 | skipped when cancelled; otherwise resolution runs on the scanned jobs with a pool sized by the CPU count, stopping short only on cancellation; it never reports an error |
| Pipeline.DownloadMp3 | fconx/src/fconx/fconx.rs:84-90 | skipped when cancelled; otherwise retrieval runs on the corrected scan with 8 workers, stopping short only on cancellation; it never reports an error |
| Pipeline.Run | fconx-cli/src/main.rs:18-23 | the stages run in order and each needs the previous one; a cancel before the start skips all of them and leaves the store alone; with no cancel discovery runs; a discovery error stops the run and is returned |
| LegacyEpisodes.Episode.SetDownloadUrl | fconx-scraper/src/episode/model.rs:65-67 | sets the download URL and changes no other field |
| LegacyEpisodes.New | fconx-scraper/src/episode/model.rs:28-47 | a new episode stores its arguments and has no download URL or hash; its id is the uuid v5 of its page URL |
| LegacyEpisodes.IdDependsOnlyOnUrl | fconx-scraper/src/episode/model.rs:35 | two episodes with the same page URL have the same id |
| LegacyEpisodes.DownloadUrlAsWritten | fconx-scraper/src/episode/model.rs:57-59 | the accessor as written always returns the page URL |
| LegacyEpisodes.DownloadUrl | fconx-scraper/src/episode/model.rs:57-59 | the corrected accessor returns the download-URL field |
| LegacyEpisodes.DownloadUrlAsWrittenIgnoresField | fconx-scraper/src/episode/model.rs:57-59 | on a fresh episode the as-written accessor reports a URL that the field does not hold |
| LegacyEpisodes.DownloadUrlAfterSet | fconx-scraper/src/episode/model.rs:57-67 | the corrected accessor returns what the setter stored |
| LegacyStore.Appended | fconx-scraper/src/rw/rw_json.rs:78-97 | writing appends the episode to its own series' records and touches no other series |
| LegacyStore.WriteTwiceKeepsBoth | fconx-scraper/src/rw/rw_json.rs:78-97 | the legacy store does not deduplicate: writing twice stores two copies |
| LegacyStore.RWJson.constructor | fconx-scraper/src/rw/rw_json.rs:29-40 | one file per configured series, as found on disk |
| LegacyStore.RWJson.ReadEpisodes | fconx-scraper/src/rw/rw_json.rs:52-59 | returns the stored records, or nothing when the file is missing or unparseable |
| LegacyStore.RWJson.WriteEpisode | fconx-scraper/src/rw/rw_json.rs:46-50 | the store becomes the appended files, and the series grows by one record |
| LegacyMp3.FilterReserved | fconx-scraper/src/rw/rw_mp3.rs:47 | no reserved FAT character survives, every other character is kept, and the title never grows |
| LegacyMp3.FilterReservedConcat | fconx-scraper/src/rw/rw_mp3.rs:47 | filtering distributes over concatenation |
| LegacyMp3.FilterReservedKeepsClean | fconx-scraper/src/rw/rw_mp3.rs:47 | a title with no reserved character is unchanged |
| LegacyMp3.FilterReservedIdempotent | fconx-scraper/src/rw/rw_mp3.rs:47 | filtering twice is filtering once |
| LegacyMp3.GetFilename | fconx-scraper/src/rw/rw_mp3.rs:43-50 | the filename is `<number> - <filtered title>.mp3` |
| LegacyMp3.GetFilenameTitleIsSafe | fconx-scraper/src/rw/rw_mp3.rs:18 | the title part of the filename holds no reserved FAT character |
| LegacyMp3.Mp3Paths | fconx-scraper/src/rw/rw_mp3.rs:90-92 | keeps exactly the paths of the directory's mp3 files |
| LegacyMp3.ReadDir | fconx-scraper/src/rw/rw_mp3.rs:79-97 | the directory loop collects exactly the mp3 paths, in order |
| LegacyMp3.Fingerprints | fconx-scraper/src/rw/rw_mp3.rs:139 | one fingerprint per path, each the hash of that file's first 2048 bytes |
| LegacyMp3.FingerprintsPop | fconx-scraper/src/rw/rw_mp3.rs:124-148 | popping one more path adds exactly its fingerprint to the collected multiset |
| LegacyMp3.CollectOneMore | fconx-scraper/src/rw/rw_mp3.rs:124-148 | pushing the hash of the next path popped keeps the collected hashes equal, as a multiset, to those of the paths popped |
| LegacyMp3.ReadMp3sAndToSha1 | fconx-scraper/src/rw/rw_mp3.rs:100-163 | with at least one worker, the result is a permutation of the fingerprints of the directory's mp3 files; with none it is empty |
| LegacyDownloadUrlScraper.Filter | fconx-scraper/src/scraper/download_url_scraper.rs:50-53 | keeps exactly the records the predicate accepts; order and duplicates are pinned by FilterConcat |
| LegacyDownloadUrlScraper.FilterConcat | fconx-scraper/src/scraper/download_url_scraper.rs:50-53 | filtering keeps order and duplicates: it distributes over concatenation |
| LegacyDownloadUrlScraper.WithoutDownloadUrlAsWritten | fconx-scraper/src/scraper/download_url_scraper.rs:50-53 | the as-written filter keeps records whose as-written accessor is empty |
| LegacyDownloadUrlScraper.NoDownloadUrlEpisodesAsWritten | fconx-scraper/src/scraper/download_url_scraper.rs:38-74 | the scan as written selects the stored records of the listed series whose as-written accessor reports no URL |
| LegacyDownloadUrlScraper.NoDownloadUrlEpisodesAsWrittenIsEmpty | fconx-scraper/src/scraper/download_url_scraper.rs:38-74 | the as-written scan never selects anything (see Findings) |
| LegacyDownloadUrlScraper.WithoutDownloadUrl | fconx-scraper/src/scraper/download_url_scraper.rs:50-53 | the corrected filter keeps exactly the records with no download URL; order is pinned by WithoutDownloadUrlConcat |
| LegacyDownloadUrlScraper.WithoutDownloadUrlConcat | fconx-scraper/src/scraper/download_url_scraper.rs:50-53 | the corrected filter keeps file order and duplicates: it distributes over concatenation |
| LegacyDownloadUrlScraper.NoDownloadUrlEpisodes | fconx-scraper/src/scraper/download_url_scraper.rs:38-74 | the corrected scan is exactly the stored episodes, across the listed series, with no download URL |
| LegacyDownloadUrlScraper.ResolvedJobsHaveUrls | fconx-scraper/src/scraper/download_url_scraper.rs:143-154 | every episode handed to the store's edit carries a download URL |
| LegacyDownloadUrlScraper.ResolveStep | fconx-scraper/src/scraper/download_url_scraper.rs:88-106 | on success exactly the episode with its resolved URL is appended to the edits; a page that fails leaves the edits unchanged |
| LegacyDownloadUrlScraper.ScrapeAndWriteDownloadUrls | fconx-scraper/src/scraper/download_url_scraper.rs:77-120 | pool size is min(workers, jobs); the edits sent to the store are the jobs' resolved episodes in pop order |
| LegacyDownloadUrlScraper.Run | fconx-scraper/src/scraper/download_url_scraper.rs:30-35 | resolves the corrected scan |
| LegacyScraper.EntryEpisode | fconx-scraper/src/scraper/scraper.rs:191-214 | a complete entry becomes an episode whose number is a suffix of the raw number with every leading `NO. ` removed |
| LegacyScraper.Scraped | fconx-scraper/src/scraper/scraper.rs:164-222 | every complete entry gives its episode and nothing else is produced; page order is pinned by ScrapedConcat |
| LegacyScraper.ScrapedConcat | fconx-scraper/src/scraper/scraper.rs:188-219 | scraping keeps page order: two consecutive stretches of entries give their episodes one after the other |
| LegacyScraper.ScrapeEpisode | fconx-scraper/src/scraper/scraper.rs:164-222 | the loop over the listing returns the page error or the scraped episodes |
| LegacyScraper.Unscraped | fconx-scraper/src/scraper/scraper.rs:54-57 | keeps exactly the scraped episodes whose id is not stored; order, which sets the append order, is pinned by UnscrapedConcat |
| LegacyScraper.UnscrapedConcat | fconx-scraper/src/scraper/scraper.rs:54-57 | the selection keeps scraped order and duplicates: it distributes over concatenation |
| LegacyScraper.ScanUnscrapedEpisodes | fconx-scraper/src/scraper/scraper.rs:42-74 | the scan succeeds iff every series page loads; otherwise it reports the error of the first failing series in configuration order |
| LegacyScraper.ScanUnscrapedMembers | fconx-scraper/src/scraper/scraper.rs:42-74 | the scan selects exactly the listed episodes, over the listed series, whose id is not yet stored |
| LegacyScraper.LeastFrom | fconx-scraper/src/scraper/scraper.rs:142-144 | the retry loop finds the first attempt that succeeds |
| LegacyScraper.Resolved | fconx-scraper/src/scraper/scraper.rs:108-116 | the written episode differs from the job only in its download URL, which ends in `.mp3`; ResolvedCutsFirstLink pins which URL |
| LegacyScraper.ResolvedCutsFirstLink | fconx-scraper/src/scraper/scraper.rs:108-116 | the URL written is a prefix of the link of the first successful attempt, ends in `.mp3`, and leaves no `.mp3` in the cut-off rest: the cut after the last `.mp3` |
| LegacyScraper.ScrapeStep | fconx-scraper/src/scraper/scraper.rs:138-149 | one job keeps the store's series and appends the resolved episode to its own series |
| LegacyScraper.ScrapeStepCount | fconx-scraper/src/scraper/scraper.rs:146 | one write adds exactly one record to the job's own series |
| LegacyScraper.ScrapeAppendsOnePerJob | fconx-scraper/src/scraper/scraper.rs:127-160 | after the pool, each series has gained exactly one record per job of that series |
| LegacyScraper.DrainKeepsKeys | fconx-scraper/src/scraper/scraper.rs:127-160 | the pool never adds or removes a series |
| LegacyScraper.ScrapingOneMore | fconx-scraper/src/scraper/scraper.rs:138-149 | popping one more job appends its resolved episode to the store left by the jobs popped before it, whose file for that series exists |
| LegacyScraper.ScrapeJob | fconx-scraper/src/scraper/scraper.rs:138-149 | one worker iteration takes the store from the jobs popped so far to one job more |
| LegacyScraper.ScrapeUntilResolved | fconx-scraper/src/scraper/scraper.rs:142-144 | retries until the first successful attempt and returns the episode with that URL |
| LegacyScraper.Scrape | fconx-scraper/src/scraper/scraper.rs:127-160 | pool size is the worker count; with workers the store is every job resolved and appended in pop order, and with none it is unchanged |
| LegacyScraper.Run | fconx-scraper/src/scraper/scraper.rs:33-37 | a scan error is returned with the store untouched; otherwise, with at least one worker, every unscraped episode is resolved and appended in pop order; with no worker the store is unchanged |

## Left out

- Concurrency:
  - Tasks, threads and mutexes are not modelled; each pool's workers are one sequential loop popping from the end of the job list.
  - The scans spawn one task per series, and the tasks append in whatever order they finish. The model appends in series order.
  - `edit_episode` reads and overwrites the file under two separate locks (fconx/src/rw/rw_json.rs:82 and 87). Two concurrent edits can therefore lose one update. The model applies each edit atomically.
  - Tasks left running after a join error are not modelled.
- Cancellation:
  - The Ctrl-C handler forwards its signal through a channel to a spawned task. The model sets the flag directly, at the points the `ctrlC`/`beforeStage` parameters choose.
- Files and I/O:
  - Files are whole values in a map, with no paths. The file writer opens without truncation (fconx/src/rw/rw_json.rs:114-120, fconx-scraper/src/rw/rw_json.rs:87-94), so a shorter rewrite could leave stale bytes. The model assumes a clean overwrite.
  - `write_mp3` renames before copying (fconx-scraper/src/rw/rw_mp3.rs:68-74). It is modelled as one recorded `Mp3Write`, with no file system.
  - An empty file and a missing file both read as no records.
- Panics and unwraps:
  - The source panics on a missing page element and on an unparsable date. The model treats the page and the date parser as total oracles.
- Mp3Urls.TruncateAtLastMp3: requires a `.mp3` in the link. The source panics on the `unwrap` otherwise (fconx-scraper/src/scraper/scraper.rs:114).
- Downloader.DownloadStep: a failed HTTP transfer is modelled as `fetch` returning no bytes, which skips the job. In the source, `reqwest::get(..).unwrap()` and `.bytes().unwrap()` (fconx/src/downloader/downloader.rs:188-189) panic the worker instead, so the error arm at fconx/src/downloader/downloader.rs:159-165 is never reached.
- LegacyScraper.ScrapeUntilResolved: requires that some attempt eventually succeeds. The source's retry loop never ends otherwise.
- Episode:
  - The setters are functional updates on a value, not in-place mutation of a shared object.
  - The date `serde` module is not modelled. Dates are opaque strings from the page oracle.
- LegacyDownloadUrlScraper.ScrapeAndWriteDownloadUrls: returns the sequence of edits it would issue instead of changing a store. The fconx-scraper store has no `edit_episode`, although this loop calls one.
- LegacyDownloadUrlScraper: the loop also calls `read_all_episodes` (fconx-scraper/src/scraper/download_url_scraper.rs:49) and the accessors `page_url()`, `number()` and `title()` (lines 97-99 and 128). Neither the fconx-scraper store (fconx-scraper/src/rw/rw_json.rs:46-59) nor its `Episode` (fconx-scraper/src/episode/model.rs:49-67) defines them. The model reads with `read_episodes` semantics (`JsonFiles.ReadRecords`) and uses the episode's `url` as its page URL.
- DownloadUrlScraper.ResolveStep, Downloader.DownloadStep: a job whose series has no metadata file leaves the store unchanged. The source panics instead, through `file_path_map.get(series).unwrap()` (fconx/src/rw/rw_json.rs:60, reached from line 82). Every job comes from a scan of the configured series, whose files the store always holds.
- Integers:
  - `usize` is taken to be 64 bits wide.
- Not part of this model:
  - fconx's own `config/series.rs`, `rw/rw_mp3.rs` and `config/config.rs` are not part of this model. The fconx-scraper `Series` module stands in for fconx's.
  - The fconx-scraper hasher is not part of this model. `Hasher.Sha1Hasher` is reused.
  - The unfinished fconx-scraper downloader is a stub and is not modelled.
  - The logger, the progress output and the command-line parsing are not modelled.

## Findings

| source | as written | input that shows it | evidently intended | confidence | as-written member | corrected member |
|---|---|---|---|---|---|---|
| fconx/src/downloader/downloader.rs:99-108, 186 | the retrieval scan selects every episode whose hash is not on disk, including episodes with no download URL, and `download_mp3` then unwraps the missing URL | a stored episode with no hash and no download URL (its page failed during resolution) | select only episodes that have a download URL | not executed | Downloader.ScanSelectsUnresolved | Downloader.ScanDownloadableMp3s |
| fconx-scraper/src/episode/model.rs:57-59; fconx-scraper/src/scraper/download_url_scraper.rs:50-53 | `download_url()` returns `Some(page url)` instead of the download-URL field, so the resolution scan's `is_none()` filter never selects anything | any store, for example one freshly discovered episode with no download URL | return the download-URL field, so the scan selects the unresolved episodes | not executed | LegacyDownloadUrlScraper.NoDownloadUrlEpisodesAsWrittenIsEmpty | LegacyDownloadUrlScraper.NoDownloadUrlEpisodes |
