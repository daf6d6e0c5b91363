/**
 * The pipeline driver (`Fconx`): three stage methods, each of which returns at once when
 * the cancel flag is set and otherwise runs its stage, and the command-line `run` that
 * calls them in order, stopping at the first error.
 */
module Pipeline {
  import opened Wrappers
  import opened SeriesConfig
  import opened Episodes
  import opened Hasher
  import opened MetadataStore
  import opened Cancellation
  import opened WorkerPool
  import opened EpisodeScraper
  import opened DownloadUrlScraper
  import opened Downloader

  /** The downloader pool size fixed by `Fconx::new`. */
  const DOWNLOADER_THREADS: nat := 8

  /**
   * Everything outside the program: the listing pages, the episode pages, HTTP, SHA-1,
   * the mp3 directories, the CPU count that sizes the resolution pool, and when Ctrl-C
   * arrives (before stage k: `beforeStage(k)`; inside a pool: before its k-th check).
   */
  datatype World = World(
    site: Site,
    href: string -> Option<string>,
    fetch: string -> Option<seq<Byte>>,
    digest: seq<Byte> -> string,
    onDisk: Series -> seq<string>,
    cpus: nat,
    beforeStage: nat -> bool,
    resolutionCtrlC: nat -> bool,
    retrievalCtrlC: nat -> bool)

  /** `scrape_episodes`: discovery unless cancelled; its error is passed on. */
  method ScrapeEpisodes(store: RWJson, canceller: Canceller, seriesVec: seq<Series>, site: Site)
    returns (r: Outcome<string>, ran: bool)
    requires forall s :: s in seriesVec ==> s in store.files
    modifies store
    ensures ran == !canceller.isCancel
    ensures !ran ==> r == Pass && store.files == old(store.files)
    ensures ran ==> r == FirstFailure(site, seriesVec) && store.files == Discover(old(store.files), site, seriesVec)
  {
    var cancelled := canceller.IsCancel();
    if cancelled {
      return Pass, false;
    }
    r := ScrapeAndWriteEpisodes(store, site, seriesVec);
    ran := true;
  }

  /**
   * `scrape_download_url`: resolution unless cancelled; resolution reports no error. A
   * skipped stage has no jobs and processes none, so it leaves the store as it was.
   */
  method ScrapeDownloadUrl(store: RWJson, canceller: Canceller, seriesVec: seq<Series>, w: World)
    returns (r: Outcome<string>, ran: bool, jobs: seq<Episode>, processed: nat)
    requires canceller.Valid()
    requires forall s :: s in seriesVec ==> s in store.files
    modifies store, canceller
    ensures canceller.Valid() && store.files.Keys == old(store.files).Keys
    ensures r == Pass && ran == !old(canceller.isCancel)
    ensures !ran ==> canceller.isCancel
    ensures ran ==> jobs == NoDownloadUrlEpisodes(old(store.files), seriesVec)
    ensures !ran ==> jobs == [] && processed == 0
    ensures processed <= |jobs|
    ensures store.files == AfterResolution(w.href, old(store.files), jobs, processed)
    ensures PoolProgress(w.cpus, |jobs|, processed, old(canceller.isCancel), canceller.isCancel, w.resolutionCtrlC)
  {
    var cancelled := canceller.IsCancel();
    r, ran := Pass, !cancelled;
    if cancelled {
      jobs, processed := [], 0;
    } else {
      jobs, processed := DownloadUrlScraper.Run(store, canceller, w.cpus, seriesVec, w.href, w.resolutionCtrlC);
    }
  }

  /**
   * `download_mp3`: retrieval unless cancelled; retrieval reports no error. A skipped stage
   * processes no job and writes no file.
   */
  method DownloadMp3(store: RWJson, canceller: Canceller, seriesVec: seq<Series>, w: World)
    returns (r: Outcome<string>, ran: bool, jobs: seq<Episode>, processed: nat, written: seq<Mp3Write>)
    requires canceller.Valid()
    requires forall s :: s in seriesVec ==> s in store.files
    modifies store, canceller
    ensures canceller.Valid() && store.files.Keys == old(store.files).Keys
    ensures r == Pass && ran == !old(canceller.isCancel)
    ensures !ran ==> canceller.isCancel
    ensures ran ==> jobs == ScanDownloadableMp3s(old(store.files), w.onDisk, seriesVec)
    ensures !ran ==> jobs == [] && processed == 0 && written == []
    ensures processed <= |jobs|
    ensures DownloadState(store.files, written) == AfterDownloads(w.fetch, w.digest, old(store.files), jobs, processed)
    ensures PoolProgress(DOWNLOADER_THREADS, |jobs|, processed, old(canceller.isCancel), canceller.isCancel, w.retrievalCtrlC)
  {
    var cancelled := canceller.IsCancel();
    r, ran := Pass, !cancelled;
    if cancelled {
      jobs, processed, written := [], 0, [];
    } else {
      jobs, processed, written := Downloader.Run(store, canceller, DOWNLOADER_THREADS, seriesVec, w.onDisk,
                                                 w.fetch, w.digest, w.retrievalCtrlC);
    }
  }

  /**
   * The command-line `run`: discovery, resolution, retrieval, in that order, stopping at
   * the first error. Since the flag is never cleared, once a stage is skipped every later
   * stage is skipped too.
   */
  method Run(store: RWJson, canceller: Canceller, seriesVec: seq<Series>, w: World)
    returns (r: Outcome<string>, discovered: bool, resolved: bool, retrieved: bool)
    requires canceller.Valid()
    requires forall s :: s in seriesVec ==> s in store.files
    modifies store, canceller
    ensures canceller.Valid()
    ensures resolved ==> discovered
    ensures retrieved ==> resolved
    ensures old(canceller.isCancel) ==> !discovered && !resolved && !retrieved && r == Pass
    ensures !old(canceller.isCancel) && !w.beforeStage(0) ==> discovered
    ensures !discovered ==> store.files == old(store.files)
    ensures discovered && FirstFailure(w.site, seriesVec).Fail? ==> !resolved && r == FirstFailure(w.site, seriesVec)
    ensures discovered && !old(canceller.isCancel) && (forall k: nat :: k < 3 ==> !w.beforeStage(k)) ==>
      r == FirstFailure(w.site, seriesVec) && (r.Pass? ==> resolved)
  {
    resolved, retrieved := false, false;
    Interrupt(canceller, w.beforeStage(0));
    r, discovered := ScrapeEpisodes(store, canceller, seriesVec, w.site);
    if r.Fail? {
      return;
    }
    Interrupt(canceller, w.beforeStage(1));
    var resolvedJobs, resolvedCount, retrievalJobs, retrievedCount;
    r, resolved, resolvedJobs, resolvedCount := ScrapeDownloadUrl(store, canceller, seriesVec, w);
    if !resolved {
      return;
    }
    Interrupt(canceller, w.beforeStage(2));
    var written;
    r, retrieved, retrievalJobs, retrievedCount, written := DownloadMp3(store, canceller, seriesVec, w);
  }
}
