/**
 * Discovery and resolution in one stage, as the older `fconx-scraper` crate does it
 * (`Scraper`): scrape each listing page, keep the episodes whose id is not stored, then let
 * `max_worker` workers pop them, retry each until its episode page yields a download link,
 * cut that link after its last ".mp3", and append the episode to the store.
 */
module LegacyScraper {
  import opened Wrappers
  import opened Strings
  import opened SeriesConfig
  import opened JsonFiles
  import opened WorkerPool
  import opened Mp3Urls
  import opened LegacyEpisodes
  import opened LegacyStore
  import EpisodeScraper

  type RawEntry = EpisodeScraper.RawEntry

  /**
   * The external services: the listing pages, uuid v5, the text form of a parsed
   * `%m/%d/%y` date, and the k-th attempt at reading the download link of an episode
   * page (`None` when that attempt fails).
   */
  datatype Site = Site(
    page: Series -> Result<seq<RawEntry>, string>,
    uuid5: string -> string,
    formatDate: string -> string,
    attempt: (Episode, nat) -> Option<string>)

  const NUMBER_PREFIX: string := "NO. "

  predicate Complete(entry: RawEntry) {
    entry.number.Some? && entry.titleLink.Some? && entry.date.Some?
  }

  /** The episode a complete entry describes: every leading "NO. " stripped from the number, nothing else. */
  function EntryEpisode(site: Site, series: Series, entry: RawEntry): (e: Episode)
    requires Complete(entry)
    ensures e.number == TrimStartMatches(entry.number.value, NUMBER_PREFIX)
    ensures EndsWith(entry.number.value, e.number) && !StartsWith(e.number, NUMBER_PREFIX)
    ensures e.series == series && e.title == entry.titleLink.value.text && e.url == entry.titleLink.value.href
    ensures e.id == site.uuid5(e.url) && e.downloadUrl.None?
  {
    LegacyEpisodes.New(site.uuid5, series, TrimStartMatches(entry.number.value, NUMBER_PREFIX),
                       entry.titleLink.value.text, entry.titleLink.value.href, site.formatDate(entry.date.value))
  }

  /** The episodes of the complete entries, in page order. */
  function Scraped(site: Site, series: Series, entries: seq<RawEntry>): (r: seq<Episode>)
    ensures |r| <= |entries|
    ensures forall e :: e in r ==> exists i :: 0 <= i < |entries| && Complete(entries[i]) && e == EntryEpisode(site, series, entries[i])
    ensures forall i :: 0 <= i < |entries| && Complete(entries[i]) ==> EntryEpisode(site, series, entries[i]) in r
  {
    if |entries| == 0 then []
    else
      var init := entries[..|entries| - 1];
      var last := entries[|entries| - 1];
      assert forall i :: 0 <= i < |init| ==> init[i] == entries[i];
      Scraped(site, series, init) + (if Complete(last) then [EntryEpisode(site, series, last)] else [])
  }

  /** The last entry contributes its episode, if complete, after those of the entries before it. */
  lemma ScrapedSnoc(site: Site, series: Series, entries: seq<RawEntry>)
    requires |entries| > 0
    ensures Scraped(site, series, entries) ==
      Scraped(site, series, entries[..|entries| - 1]) +
      (if Complete(entries[|entries| - 1]) then [EntryEpisode(site, series, entries[|entries| - 1])] else [])
  {
  }

  /** Scraping keeps page order: the entries of two consecutive stretches scrape to their episodes in turn. */
  lemma {:induction false} ScrapedConcat(site: Site, series: Series, a: seq<RawEntry>, b: seq<RawEntry>)
    ensures Scraped(site, series, a + b) == Scraped(site, series, a) + Scraped(site, series, b)
    decreases |b|
  {
    if |b| == 0 {
      assert a + b == a;
    } else {
      var ab := a + b;
      assert ab[..|ab| - 1] == a + b[..|b| - 1];
      assert ab[|ab| - 1] == b[|b| - 1];
      var lastPart := if Complete(b[|b| - 1]) then [EntryEpisode(site, series, b[|b| - 1])] else [];
      ScrapedSnoc(site, series, ab);
      ScrapedSnoc(site, series, b);
      ScrapedConcat(site, series, a, b[..|b| - 1]);
      AppendAssoc(Scraped(site, series, a), Scraped(site, series, b[..|b| - 1]), lastPart);
    }
  }

  function ScrapeResult(site: Site, series: Series): Result<seq<Episode>, string> {
    match site.page(series)
    case Success(entries) => Success(Scraped(site, series, entries))
    case Failure(err) => Failure(err)
  }

  /** `scrape_episode`: one episode per archive entry; an entry missing a part is skipped. */
  method ScrapeEpisode(site: Site, series: Series) returns (r: Result<seq<Episode>, string>)
    ensures r == ScrapeResult(site, series)
  {
    var page := site.page(series);
    if page.Failure? {
      return Failure(page.error);
    }
    var elems := page.value;
    var out: seq<Episode> := [];
    for i := 0 to |elems|
      invariant out == Scraped(site, series, elems[..i])
    {
      assert elems[..i + 1][..i] == elems[..i];
      var elem := elems[i];
      if elem.number.None? {
        continue;
      }
      var number := TrimStartMatches(elem.number.value, NUMBER_PREFIX);
      if elem.titleLink.None? {
        continue;
      }
      var title, url := elem.titleLink.value.text, elem.titleLink.value.href;
      if elem.date.None? {
        continue;
      }
      var date := site.formatDate(elem.date.value);
      out := out + [LegacyEpisodes.New(site.uuid5, series, number, title, url, date)];
    }
    assert elems[..|elems|] == elems;
    return Success(out);
  }

  function Ids(eps: seq<Episode>): set<string> {
    set e | e in eps :: e.id
  }

  /** The scraped episodes whose id is not among `stored`, in order. */
  function Unscraped(stored: set<string>, all: seq<Episode>): (r: seq<Episode>)
    ensures forall e :: e in r <==> e in all && e.id !in stored
    ensures |r| <= |all|
  {
    if |all| == 0 then []
    else if all[0].id !in stored then [all[0]] + Unscraped(stored, all[1..])
    else Unscraped(stored, all[1..])
  }

  /** Selection keeps scraped order and duplicates: it distributes over concatenation. */
  lemma {:induction false} UnscrapedConcat(stored: set<string>, a: seq<Episode>, b: seq<Episode>)
    ensures Unscraped(stored, a + b) == Unscraped(stored, a) + Unscraped(stored, b)
  {
    if |a| > 0 {
      assert (a + b)[1..] == a[1..] + b;
      assert (a + b)[0] == a[0];
      var kept := if a[0].id !in stored then [a[0]] else [];
      assert Unscraped(stored, a + b) == kept + Unscraped(stored, a[1..] + b);
      assert Unscraped(stored, a) == kept + Unscraped(stored, a[1..]);
      UnscrapedConcat(stored, a[1..], b);
      AppendAssoc(kept, Unscraped(stored, a[1..]), Unscraped(stored, b));
    } else {
      assert a + b == b;
    }
  }

  /**
   * `scan_unscraped_episodes`: for each configured series, the scraped episodes that are
   * not stored yet; the first series whose page fails, in configuration order, fails the scan.
   */
  function ScanUnscrapedEpisodes(files: map<Series, JsonFile<Episode>>, site: Site, seriesVec: seq<Series>)
    : (r: Result<seq<Episode>, string>)
    requires forall s :: s in seriesVec ==> s in files
    ensures r.Success? <==> forall i :: 0 <= i < |seriesVec| ==> site.page(seriesVec[i]).Success?
    ensures r.Failure? ==> exists i :: 0 <= i < |seriesVec| && site.page(seriesVec[i]) == Failure(r.error) &&
                                       (forall j :: 0 <= j < i ==> site.page(seriesVec[j]).Success?)
  {
    if |seriesVec| == 0 then Success([])
    else
      var init := seriesVec[..|seriesVec| - 1];
      var last := seriesVec[|seriesVec| - 1];
      var before := ScanUnscrapedEpisodes(files, site, init);
      assert forall i :: 0 <= i < |init| ==> init[i] == seriesVec[i];
      if before.Failure? then
        assert exists i :: 0 <= i < |init| && !site.page(init[i]).Success?;
        assert exists i :: 0 <= i < |seriesVec| && !site.page(seriesVec[i]).Success?;
        before
      else
        assert forall i :: 0 <= i < |init| ==> site.page(seriesVec[i]).Success?;
        if site.page(last).Failure? then
          assert !site.page(seriesVec[|seriesVec| - 1]).Success?;
          Failure(site.page(last).error)
        else
          assert forall i :: 0 <= i < |seriesVec| ==> site.page(seriesVec[i]).Success?;
          Success(before.value + Unscraped(Ids(ReadRecords(files[last])), Scraped(site, last, site.page(last).value)))
  }

  /** Discovery's selection: scraped from series `s` and not stored in its file. */
  predicate Selected(files: map<Series, JsonFile<Episode>>, site: Site, s: Series, e: Episode)
    requires s in files
  {
    site.page(s).Success? && e in Scraped(site, s, site.page(s).value) && e.id !in Ids(ReadRecords(files[s]))
  }

  /** What a successful scan selects: exactly the episodes selected from some configured series. */
  lemma {:induction false} ScanUnscrapedMembers(files: map<Series, JsonFile<Episode>>, site: Site, seriesVec: seq<Series>, e: Episode)
    requires forall s :: s in seriesVec ==> s in files
    requires ScanUnscrapedEpisodes(files, site, seriesVec).Success?
    ensures e in ScanUnscrapedEpisodes(files, site, seriesVec).value <==>
      exists s :: s in seriesVec && Selected(files, site, s, e)
    decreases |seriesVec|
  {
    if |seriesVec| > 0 {
      var init := seriesVec[..|seriesVec| - 1];
      var last := seriesVec[|seriesVec| - 1];
      assert seriesVec == init + [last];
      var before := ScanUnscrapedEpisodes(files, site, init);
      var tail := Unscraped(Ids(ReadRecords(files[last])), Scraped(site, last, site.page(last).value));
      assert before.Success? && site.page(last).Success?;
      assert ScanUnscrapedEpisodes(files, site, seriesVec).value == before.value + tail;
      assert e in tail <==> Selected(files, site, last, e);
      ScanUnscrapedMembers(files, site, init, e);
      if e in before.value {
        var s :| s in init && Selected(files, site, s, e);
        assert s in seriesVec;
      } else if e in tail {
        assert last in seriesVec;
      }
      if exists s :: s in seriesVec && Selected(files, site, s, e) {
        var s :| s in seriesVec && Selected(files, site, s, e);
        if s != last {
          assert s in init;
        }
      }
    }
  }

  /** Every attempt sequence eventually succeeds, and every link read has an ".mp3" to cut at. */
  ghost predicate Resolvable(attempt: (Episode, nat) -> Option<string>, e: Episode) {
    (exists n: nat :: attempt(e, n).Some?) &&
    (forall n: nat :: attempt(e, n).Some? ==> Contains(attempt(e, n).value, MP3))
  }

  /** The first successful attempt at or after `k`, knowing attempt `n` succeeds. */
  function LeastFrom(attempt: (Episode, nat) -> Option<string>, e: Episode, k: nat, n: nat): (r: nat)
    requires k <= n && attempt(e, n).Some?
    requires forall j: nat :: j < k ==> attempt(e, j).None?
    ensures r <= n && attempt(e, r).Some?
    ensures forall j: nat :: j < r ==> attempt(e, j).None?
    decreases n - k
  {
    if attempt(e, k).Some? then k else LeastFrom(attempt, e, k + 1, n)
  }

  /** The attempt at which the retry loop stops. */
  ghost function FirstSuccess(attempt: (Episode, nat) -> Option<string>, e: Episode): (r: nat)
    requires exists n: nat :: attempt(e, n).Some?
    ensures attempt(e, r).Some? && forall j: nat :: j < r ==> attempt(e, j).None?
  {
    var n: nat :| attempt(e, n).Some?;
    LeastFrom(attempt, e, 0, n)
  }

  /** The episode as written to the store: the link of the first successful attempt, cut after its last ".mp3". */
  ghost function Resolved(attempt: (Episode, nat) -> Option<string>, e: Episode): (r: Episode)
    requires Resolvable(attempt, e)
    ensures r.downloadUrl.Some? && EndsWith(r.downloadUrl.value, MP3)
    ensures r == e.SetDownloadUrl(r.downloadUrl.value)
  {
    e.SetDownloadUrl(TruncateAtLastMp3(attempt(e, FirstSuccess(attempt, e)).value))
  }

  /**
   * The URL written is the link of the first successful attempt, cut just after its last
   * ".mp3": a prefix of that link, ending in ".mp3", with no ".mp3" in what is cut off.
   */
  lemma ResolvedCutsFirstLink(attempt: (Episode, nat) -> Option<string>, e: Episode)
    requires Resolvable(attempt, e)
    ensures var link := attempt(e, FirstSuccess(attempt, e)).value;
      var url := Resolved(attempt, e).downloadUrl.value;
      StartsWith(link, url) && EndsWith(url, MP3) && !Contains(link[|url|..], MP3)
  {
  }

  /** One job: the resolved episode is appended to its series' file. */
  ghost function ScrapeStep(attempt: (Episode, nat) -> Option<string>, files: map<Series, JsonFile<Episode>>,
                            e: Episode): (r: map<Series, JsonFile<Episode>>)
    ensures r.Keys == files.Keys
    ensures Resolvable(attempt, e) && e.series in files ==> r == Appended(files, Resolved(attempt, e))
    ensures !Resolvable(attempt, e) || e.series !in files ==> r == files
  {
    if Resolvable(attempt, e) && e.series in files then Appended(files, Resolved(attempt, e)) else files
  }

  /** The per-job step of the scraping pool. */
  ghost function Scraping(attempt: (Episode, nat) -> Option<string>)
    : (map<Series, JsonFile<Episode>>, Episode) -> map<Series, JsonFile<Episode>>
  {
    (f, e) => ScrapeStep(attempt, f, e)
  }

  /** One job appends one record to the file of its own series and none to the others. */
  lemma ScrapeStepCount(attempt: (Episode, nat) -> Option<string>, files: map<Series, JsonFile<Episode>>,
                        x: Episode, s: Series)
    requires s in files && Resolvable(attempt, x) && x.series in files
    ensures s in ScrapeStep(attempt, files, x)
    ensures |ReadRecords(ScrapeStep(attempt, files, x)[s])| == |ReadRecords(files[s])| + (if x.series == s then 1 else 0)
  {
  }

  /** Each job appends exactly one record, so the store grows by one record per job. */
  lemma {:induction false} ScrapeAppendsOnePerJob(attempt: (Episode, nat) -> Option<string>,
                                                  files: map<Series, JsonFile<Episode>>, jobs: seq<Episode>, s: Series)
    requires s in files
    requires forall e :: e in jobs ==> Resolvable(attempt, e) && e.series in files
    ensures var after := Drain(Scraping(attempt), files, jobs);
      s in after && |ReadRecords(after[s])| == |ReadRecords(files[s])| + CountOf(jobs, s)
    decreases |jobs|
  {
    var step := Scraping(attempt);
    if |jobs| > 0 {
      var x := jobs[0];
      var rest := jobs[1..];
      assert jobs == [x] + rest;
      assert x in jobs;
      DrainPushFront(step, files, x, rest);
      var mid := Drain(step, files, rest);
      assert Drain(step, files, jobs) == ScrapeStep(attempt, mid, x);
      assert forall e :: e in rest ==> e in jobs;
      ScrapeAppendsOnePerJob(attempt, files, rest, s);
      DrainKeepsKeys(attempt, files, rest);
      ScrapeStepCount(attempt, mid, x, s);
      assert CountOf(jobs, s) == (if x.series == s then 1 else 0) + CountOf(rest, s);
    }
  }

  lemma {:induction false} DrainKeepsKeys(attempt: (Episode, nat) -> Option<string>,
                                          files: map<Series, JsonFile<Episode>>, jobs: seq<Episode>)
    ensures Drain(Scraping(attempt), files, jobs).Keys == files.Keys
    decreases |jobs|
  {
    if |jobs| > 0 {
      DrainKeepsKeys(attempt, ScrapeStep(attempt, files, jobs[|jobs| - 1]), jobs[..|jobs| - 1]);
    }
  }

  /** The store once the last `processed` jobs have been popped and scraped. */
  ghost function AfterScraping(attempt: (Episode, nat) -> Option<string>, files: map<Series, JsonFile<Episode>>,
                               jobs: seq<Episode>, processed: nat): map<Series, JsonFile<Episode>>
    requires processed <= |jobs|
  {
    Drain(Scraping(attempt), files, jobs[|jobs| - processed..])
  }

  /** Scraping one more job appends its resolved episode to the store left by the jobs before it. */
  lemma ScrapingOneMore(attempt: (Episode, nat) -> Option<string>, files: map<Series, JsonFile<Episode>>,
                        jobs: seq<Episode>, processed: nat)
    requires processed < |jobs|
    requires forall e :: e in jobs ==> Resolvable(attempt, e) && e.series in files
    ensures var e := jobs[|jobs| - processed - 1];
      e.series in AfterScraping(attempt, files, jobs, processed) &&
      AfterScraping(attempt, files, jobs, processed + 1) == Appended(AfterScraping(attempt, files, jobs, processed), Resolved(attempt, e))
  {
    var e := jobs[|jobs| - processed - 1];
    assert e in jobs;
    DrainOneMore(Scraping(attempt), files, jobs, processed);
    DrainKeepsKeys(attempt, files, jobs[|jobs| - processed..]);
  }

  /** The number of jobs of series `s`. */
  function CountOf(jobs: seq<Episode>, s: Series): nat {
    if |jobs| == 0 then 0 else (if jobs[0].series == s then 1 else 0) + CountOf(jobs[1..], s)
  }

  /**
   * The retry loop around `scrape_download_url`: attempts follow one another until one
   * yields a link, which is cut after its last ".mp3" and stored in the episode.
   */
  method ScrapeUntilResolved(episode: Episode, attempt: (Episode, nat) -> Option<string>) returns (r: Episode)
    requires Resolvable(attempt, episode)
    ensures r == Resolved(attempt, episode)
  {
    ghost var n: nat :| attempt(episode, n).Some?;
    var k := 0;
    var link := attempt(episode, k);
    while link.None?
      invariant k <= n && link == attempt(episode, k)
      invariant forall j: nat :: j < k ==> attempt(episode, j).None?
      decreases n - k
    {
      k := k + 1;
      link := attempt(episode, k);
    }
    assert k == FirstSuccess(attempt, episode);
    r := episode.SetDownloadUrl(TruncateAtLastMp3(link.value));
  }

  /** One worker iteration: the popped job is resolved and appended to its series' file. */
  method ScrapeJob(store: LegacyStore.RWJson, attempt: (Episode, nat) -> Option<string>,
                   ghost files: map<Series, JsonFile<Episode>>, ghost jobs: seq<Episode>, episode: Episode, ghost processed: nat)
    requires processed < |jobs| && episode == jobs[|jobs| - processed - 1]
    requires forall e :: e in jobs ==> Resolvable(attempt, e) && e.series in files
    requires store.files == AfterScraping(attempt, files, jobs, processed)
    modifies store
    ensures store.files == AfterScraping(attempt, files, jobs, processed + 1)
  {
    ScrapingOneMore(attempt, files, jobs, processed);
    assert episode in jobs;
    var resolved := ScrapeUntilResolved(episode, attempt);
    store.WriteEpisode(resolved);
  }

  /**
   * `scrape`: exactly `max_worker` workers, whatever the number of jobs. A worker pops a
   * job, retries it until an attempt succeeds, appends the resolved episode with
   * `write_episode`, and stops when the list is empty.
   */
  method Scrape(store: LegacyStore.RWJson, maxWorker: nat, episodes: seq<Episode>, attempt: (Episode, nat) -> Option<string>)
    returns (workers: nat)
    requires forall e :: e in episodes ==> Resolvable(attempt, e) && e.series in store.files
    modifies store
    ensures workers == maxWorker
    ensures maxWorker == 0 ==> store.files == old(store.files)
    ensures maxWorker > 0 ==> store.files == Drain(Scraping(attempt), old(store.files), episodes)
  {
    workers := maxWorker;
    if maxWorker == 0 {
      return;
    }
    var stack := episodes;
    while |stack| > 0
      invariant stack == episodes[..|stack|]
      invariant store.files == AfterScraping(attempt, old(store.files), episodes, |episodes| - |stack|)
      decreases |stack|
    {
      ScrapeJob(store, attempt, old(store.files), episodes, stack[|stack| - 1], |episodes| - |stack|);
      stack := stack[..|stack| - 1];
    }
    assert episodes[0..] == episodes;
  }

  /** `run`: the scan, then the workers; a failed scan writes nothing and is reported. */
  method Run(store: LegacyStore.RWJson, site: Site, maxWorker: nat, seriesVec: seq<Series>)
    returns (r: Outcome<string>)
    requires forall s :: s in seriesVec ==> s in store.files
    requires ScanUnscrapedEpisodes(store.files, site, seriesVec).Success? ==>
      forall e :: e in ScanUnscrapedEpisodes(store.files, site, seriesVec).value ==> Resolvable(site.attempt, e)
    modifies store
    ensures ScanUnscrapedEpisodes(old(store.files), site, seriesVec).Failure? ==>
      r == Fail(ScanUnscrapedEpisodes(old(store.files), site, seriesVec).error) && store.files == old(store.files)
    ensures ScanUnscrapedEpisodes(old(store.files), site, seriesVec).Success? ==> r == Pass
    ensures maxWorker == 0 ==> store.files == old(store.files)
    ensures ScanUnscrapedEpisodes(old(store.files), site, seriesVec).Success? && maxWorker > 0 ==>
      store.files == Drain(Scraping(site.attempt), old(store.files), ScanUnscrapedEpisodes(old(store.files), site, seriesVec).value)
  {
    var scan := ScanUnscrapedEpisodes(store.files, site, seriesVec);
    if scan.Failure? {
      return Fail(scan.error);
    }
    var episodes := scan.value;
    forall e | e in episodes
      ensures e.series in store.files
    {
      ScanUnscrapedMembers(store.files, site, seriesVec, e);
      var s :| s in seriesVec && Selected(store.files, site, s, e);
    }
    var workers := Scrape(store, maxWorker, episodes, site.attempt);
    r := Pass;
  }
}
