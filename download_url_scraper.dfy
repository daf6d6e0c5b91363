/**
 * Resolution (`DownloadUrlScraper`): collect the stored episodes that have no download URL
 * yet, then let a pool of workers pop them one at a time, read the download link from each
 * episode page and store the truncated URL through `edit_episode`.
 *
 * The browser session is `href`: the `.download > a` link of a page, or `None` when
 * loading the page fails.
 */
module DownloadUrlScraper {
  import opened Wrappers
  import opened Strings
  import opened SeriesConfig
  import opened JsonFiles
  import opened Episodes
  import opened MetadataStore
  import opened Cancellation
  import opened WorkerPool
  import opened Mp3Urls

  /** The records of one file that still lack a download URL, in order. */
  function WithoutDownloadUrl(eps: seq<Episode>): (r: seq<Episode>)
    ensures forall e :: e in r <==> e in eps && e.downloadUrl.None?
    ensures |r| <= |eps|
  {
    if |eps| == 0 then []
    else if eps[0].downloadUrl.None? then [eps[0]] + WithoutDownloadUrl(eps[1..])
    else WithoutDownloadUrl(eps[1..])
  }

  /** Selection keeps file order and duplicates: it distributes over concatenation. */
  lemma {:induction false} WithoutDownloadUrlConcat(a: seq<Episode>, b: seq<Episode>)
    ensures WithoutDownloadUrl(a + b) == WithoutDownloadUrl(a) + WithoutDownloadUrl(b)
  {
    if |a| > 0 {
      assert (a + b)[1..] == a[1..] + b;
      assert (a + b)[0] == a[0];
      var kept := if a[0].downloadUrl.None? then [a[0]] else [];
      assert WithoutDownloadUrl(a + b) == kept + WithoutDownloadUrl(a[1..] + b);
      assert WithoutDownloadUrl(a) == kept + WithoutDownloadUrl(a[1..]);
      WithoutDownloadUrlConcat(a[1..], b);
      AppendAssoc(kept, WithoutDownloadUrl(a[1..]), WithoutDownloadUrl(b));
    } else {
      assert a + b == b;
    }
  }

  /**
   * `no_download_url_episodes`: the unresolved records of every configured series, one
   * series after another. Every record selected is stored and unresolved, and every
   * unresolved stored record of a configured series is selected.
   */
  function NoDownloadUrlEpisodes(files: map<Series, JsonFile<Episode>>, seriesVec: seq<Series>): (r: seq<Episode>)
    requires forall s :: s in seriesVec ==> s in files
    ensures forall e :: e in r <==>
      e.downloadUrl.None? && exists i :: 0 <= i < |seriesVec| && e in ReadRecords(files[seriesVec[i]])
  {
    if |seriesVec| == 0 then []
    else
      var init := seriesVec[..|seriesVec| - 1];
      var last := seriesVec[|seriesVec| - 1];
      assert forall i :: 0 <= i < |init| ==> init[i] == seriesVec[i];
      NoDownloadUrlEpisodes(files, init) + WithoutDownloadUrl(ReadRecords(files[last]))
  }

  /** The store after one job: on success the episode is upserted with its resolved URL. */
  function ResolveStep(href: string -> Option<string>, files: map<Series, JsonFile<Episode>>, ep: Episode): (r: map<Series, JsonFile<Episode>>)
    ensures r.Keys == files.Keys
    ensures forall s :: s in files && s != ep.series ==> r[s] == files[s]
    ensures href(ep.pageUrl).None? || ep.series !in files ==> r == files
    ensures href(ep.pageUrl).Some? && ep.series in files ==>
      r == EditedFiles(files, ep.SetDownloadUrl(ResolvedUrl(href(ep.pageUrl).value)))
    ensures href(ep.pageUrl).Some? && ep.series in files ==>
      var eps := ReadRecords(r[ep.series]);
      |eps| > 0 && eps[|eps| - 1] == ep.SetDownloadUrl(ResolvedUrl(href(ep.pageUrl).value))
  {
    match href(ep.pageUrl)
    case None => files
    case Some(link) =>
      if ep.series in files then EditedFiles(files, ep.SetDownloadUrl(ResolvedUrl(link))) else files
  }

  /** The per-job step of the resolution pool. */
  function Resolver(href: string -> Option<string>): (map<Series, JsonFile<Episode>>, Episode) -> map<Series, JsonFile<Episode>> {
    (f, e) => ResolveStep(href, f, e)
  }

  /** The store once the pool has done the last `processed` jobs of `jobs`. */
  function AfterResolution(href: string -> Option<string>, files: map<Series, JsonFile<Episode>>,
                           jobs: seq<Episode>, processed: nat): map<Series, JsonFile<Episode>>
    requires processed <= |jobs|
  {
    Drain(Resolver(href), files, jobs[|jobs| - processed..])
  }

  /** A resolved episode is no longer selected by the next scan. */
  lemma ResolvedLeavesScan(href: string -> Option<string>, files: map<Series, JsonFile<Episode>>, ep: Episode)
    requires ep.series in files && href(ep.pageUrl).Some?
    ensures forall e :: e in WithoutDownloadUrl(ReadRecords(ResolveStep(href, files, ep)[ep.series])) ==> e.id != ep.id
  {
    var eps := ReadRecords(ResolveStep(href, files, ep)[ep.series]);
    forall e | e in WithoutDownloadUrl(eps)
      ensures e.id != ep.id
    {
      assert e in eps;
    }
  }

  /**
   * `scrape_and_write_download_urls`: `min(thread_max, len)` workers; each one checks the
   * cancel flag before every pop, stops on cancel or an empty list, and skips a job whose
   * page cannot be read. The workers run one after the other here; `ctrlC(k)` says whether
   * Ctrl-C arrives just before the k-th check.
   */
  method ScrapeAndWriteDownloadUrls(store: RWJson, canceller: Canceller, threadMax: nat, episodes: seq<Episode>,
                                    href: string -> Option<string>, ctrlC: nat -> bool)
    returns (workers: nat, processed: nat)
    requires canceller.Valid()
    modifies store, canceller
    ensures canceller.Valid() && store.files.Keys == old(store.files).Keys
    ensures workers == Min(threadMax, |episodes|)
    ensures processed <= |episodes| && (workers == 0 ==> processed == 0)
    ensures store.files == AfterResolution(href, old(store.files), episodes, processed)
    ensures PoolProgress(threadMax, |episodes|, processed, old(canceller.isCancel), canceller.isCancel, ctrlC)
  {
    ghost var step := Resolver(href);
    workers := Min(threadMax, |episodes|);
    processed := 0;
    if workers == 0 {
      return;
    }
    var stack := episodes;
    while true
      invariant canceller.Valid() && store.files.Keys == old(store.files).Keys
      invariant |stack| + processed == |episodes| && stack == episodes[..|stack|]
      invariant store.files == Drain(step, old(store.files), episodes[|episodes| - processed..])
      invariant old(canceller.isCancel) ==> canceller.isCancel && processed == 0
      invariant !old(canceller.isCancel) && Quiet(ctrlC, |episodes|) ==> !canceller.isCancel
      decreases |stack|
    {
      Interrupt(canceller, ctrlC(processed));
      var cancelled := canceller.IsCancel();
      if cancelled {
        break;
      }
      if |stack| == 0 {
        break;
      }
      var episode := stack[|stack| - 1];
      stack := stack[..|stack| - 1];
      DrainOneMore(step, old(store.files), episodes, processed);
      processed := processed + 1;
      var link := href(episode.pageUrl);
      if link.None? {
        continue;
      }
      episode := episode.SetDownloadUrl(ResolvedUrl(link.value));
      if episode.series in store.files {
        store.EditEpisode(episode);
      }
    }
  }

  /**
   * `run`: scan, then resolve. The scan cannot fail; every selected episode comes from a
   * configured series.
   */
  method Run(store: RWJson, canceller: Canceller, threadMax: nat, seriesVec: seq<Series>,
             href: string -> Option<string>, ctrlC: nat -> bool)
    returns (jobs: seq<Episode>, processed: nat)
    requires canceller.Valid()
    requires forall s :: s in seriesVec ==> s in store.files
    modifies store, canceller
    ensures canceller.Valid() && store.files.Keys == old(store.files).Keys
    ensures jobs == NoDownloadUrlEpisodes(old(store.files), seriesVec)
    ensures processed <= |jobs|
    ensures store.files == AfterResolution(href, old(store.files), jobs, processed)
    ensures PoolProgress(threadMax, |jobs|, processed, old(canceller.isCancel), canceller.isCancel, ctrlC)
  {
    jobs := NoDownloadUrlEpisodes(store.files, seriesVec);
    var workers;
    workers, processed := ScrapeAndWriteDownloadUrls(store, canceller, threadMax, jobs, href, ctrlC);
  }
}
