/**
 * Retrieval (`Downloader`): select the stored episodes whose mp3 is not on disk, then let a
 * pool of workers pop them one at a time, fetch each mp3, fingerprint it, write the file
 * and store the fingerprint through `edit_episode`.
 *
 * `onDisk(s)` is the list of fingerprints of the mp3 files already in the directory of
 * series `s`; `fetch` is the HTTP download of a URL, `None` when it fails.
 */
module Downloader {
  import opened Wrappers
  import opened Strings
  import opened SeriesConfig
  import opened JsonFiles
  import opened Episodes
  import opened MetadataStore
  import opened Cancellation
  import opened WorkerPool
  import opened Hasher

  /** The scan's filter: no fingerprint recorded, or one that no file on disk has. */
  predicate NotDownloaded(e: Episode, fingerprints: seq<string>) {
    match e.sha1
    case Some(sha1) => sha1 !in fingerprints
    case None => true
  }

  /** The records of one file that the scan selects, in order. */
  function NotDownloadedOf(eps: seq<Episode>, fingerprints: seq<string>): (r: seq<Episode>)
    ensures forall e :: e in r <==> e in eps && NotDownloaded(e, fingerprints)
    ensures |r| <= |eps|
  {
    if |eps| == 0 then []
    else if NotDownloaded(eps[0], fingerprints) then [eps[0]] + NotDownloadedOf(eps[1..], fingerprints)
    else NotDownloadedOf(eps[1..], fingerprints)
  }

  /** Selection keeps file order and duplicates: it distributes over concatenation. */
  lemma {:induction false} NotDownloadedOfConcat(fingerprints: seq<string>, a: seq<Episode>, b: seq<Episode>)
    ensures NotDownloadedOf(a + b, fingerprints) == NotDownloadedOf(a, fingerprints) + NotDownloadedOf(b, fingerprints)
  {
    if |a| > 0 {
      assert (a + b)[1..] == a[1..] + b;
      assert (a + b)[0] == a[0];
      var kept := if NotDownloaded(a[0], fingerprints) then [a[0]] else [];
      assert NotDownloadedOf(a + b, fingerprints) == kept + NotDownloadedOf(a[1..] + b, fingerprints);
      assert NotDownloadedOf(a, fingerprints) == kept + NotDownloadedOf(a[1..], fingerprints);
      NotDownloadedOfConcat(fingerprints, a[1..], b);
      AppendAssoc(kept, NotDownloadedOf(a[1..], fingerprints), NotDownloadedOf(b, fingerprints));
    } else {
      assert a + b == b;
    }
  }

  /**
   * `scan_not_downloaded_mp3s` as written: every stored record of a configured series
   * whose fingerprint is absent or not on disk. It does not look at the download URL.
   */
  function ScanNotDownloadedMp3s(files: map<Series, JsonFile<Episode>>, onDisk: Series -> seq<string>,
                                 seriesVec: seq<Series>): (r: seq<Episode>)
    requires forall s :: s in seriesVec ==> s in files
    ensures forall e :: e in r <==>
      (exists i :: 0 <= i < |seriesVec| && e in ReadRecords(files[seriesVec[i]]) && NotDownloaded(e, onDisk(seriesVec[i])))
  {
    if |seriesVec| == 0 then []
    else
      var init := seriesVec[..|seriesVec| - 1];
      var last := seriesVec[|seriesVec| - 1];
      assert forall i :: 0 <= i < |init| ==> init[i] == seriesVec[i];
      ScanNotDownloadedMp3s(files, onDisk, init) + NotDownloadedOf(ReadRecords(files[last]), onDisk(last))
  }

  /** An episode whose fingerprint is on disk is never selected. */
  lemma OnDiskNeverSelected(files: map<Series, JsonFile<Episode>>, onDisk: Series -> seq<string>,
                            seriesVec: seq<Series>, e: Episode)
    requires forall s :: s in seriesVec ==> s in files
    requires e.sha1.Some? && forall s :: s in seriesVec && e in ReadRecords(files[s]) ==> e.sha1.value in onDisk(s)
    ensures e !in ScanNotDownloadedMp3s(files, onDisk, seriesVec)
  {
    forall i | 0 <= i < |seriesVec| && e in ReadRecords(files[seriesVec[i]])
      ensures !NotDownloaded(e, onDisk(seriesVec[i]))
    {
      assert seriesVec[i] in seriesVec;
    }
  }

  /**
   * The scan as written selects a record that resolution could not resolve, and
   * `download_mp3` then unwraps its missing download URL.
   */
  lemma ScanSelectsUnresolved(files: map<Series, JsonFile<Episode>>, onDisk: Series -> seq<string>,
                              seriesVec: seq<Series>, i: nat, e: Episode)
    requires forall s :: s in seriesVec ==> s in files
    requires i < |seriesVec| && e in ReadRecords(files[seriesVec[i]])
    requires e.sha1.None? && e.downloadUrl.None?
    ensures e in ScanNotDownloadedMp3s(files, onDisk, seriesVec) && e.downloadUrl.None?
  {
  }

  /** The corrected filter: not on disk, and resolved. */
  predicate Downloadable(e: Episode, fingerprints: seq<string>) {
    NotDownloaded(e, fingerprints) && e.downloadUrl.Some?
  }

  function DownloadableOf(eps: seq<Episode>, fingerprints: seq<string>): (r: seq<Episode>)
    ensures forall e :: e in r <==> e in eps && Downloadable(e, fingerprints)
    ensures |r| <= |eps|
  {
    if |eps| == 0 then []
    else if Downloadable(eps[0], fingerprints) then [eps[0]] + DownloadableOf(eps[1..], fingerprints)
    else DownloadableOf(eps[1..], fingerprints)
  }

  /** The corrected selection keeps file order and duplicates too. */
  lemma {:induction false} DownloadableOfConcat(fingerprints: seq<string>, a: seq<Episode>, b: seq<Episode>)
    ensures DownloadableOf(a + b, fingerprints) == DownloadableOf(a, fingerprints) + DownloadableOf(b, fingerprints)
  {
    if |a| > 0 {
      assert (a + b)[1..] == a[1..] + b;
      assert (a + b)[0] == a[0];
      var kept := if Downloadable(a[0], fingerprints) then [a[0]] else [];
      assert DownloadableOf(a + b, fingerprints) == kept + DownloadableOf(a[1..] + b, fingerprints);
      assert DownloadableOf(a, fingerprints) == kept + DownloadableOf(a[1..], fingerprints);
      DownloadableOfConcat(fingerprints, a[1..], b);
      AppendAssoc(kept, DownloadableOf(a[1..], fingerprints), DownloadableOf(b, fingerprints));
    } else {
      assert a + b == b;
    }
  }

  /** The corrected scan: what the scan as written selects, less the unresolved records. */
  function ScanDownloadableMp3s(files: map<Series, JsonFile<Episode>>, onDisk: Series -> seq<string>,
                                seriesVec: seq<Series>): (r: seq<Episode>)
    requires forall s :: s in seriesVec ==> s in files
    ensures forall e :: e in r ==> e.downloadUrl.Some?
    ensures forall e :: e in r <==> e in ScanNotDownloadedMp3s(files, onDisk, seriesVec) && e.downloadUrl.Some?
  {
    if |seriesVec| == 0 then []
    else
      var init := seriesVec[..|seriesVec| - 1];
      var last := seriesVec[|seriesVec| - 1];
      ScanDownloadableMp3s(files, onDisk, init) + DownloadableOf(ReadRecords(files[last]), onDisk(last))
  }

  /** An mp3 file written by a worker: the episode it belongs to and its bytes. */
  datatype Mp3Write = Mp3Write(episode: Episode, bytes: seq<Byte>)

  datatype DownloadState = DownloadState(files: map<Series, JsonFile<Episode>>, written: seq<Mp3Write>)

  /**
   * One job: a failed download changes nothing; a successful one sets the fingerprint,
   * writes the file and upserts the record.
   */
  function DownloadStep(fetch: string -> Option<seq<Byte>>, digest: seq<Byte> -> string,
                        st: DownloadState, ep: Episode): (r: DownloadState)
    ensures r.files.Keys == st.files.Keys
    ensures forall s :: s in st.files && s != ep.series ==> r.files[s] == st.files[s]
    ensures ep.downloadUrl.None? || fetch(ep.downloadUrl.value).None? ==> r == st
    ensures ep.downloadUrl.Some? && fetch(ep.downloadUrl.value).Some? ==>
      var bytes := fetch(ep.downloadUrl.value).value;
      var done := ep.SetSha1(Fingerprint(digest, bytes));
      r.written == st.written + [Mp3Write(done, bytes)] &&
      (ep.series in st.files ==> r.files == EditedFiles(st.files, done))
  {
    match ep.downloadUrl
    case None => st
    case Some(url) =>
      match fetch(url)
      case None => st
      case Some(bytes) =>
        var done := ep.SetSha1(Fingerprint(digest, bytes));
        var files := if ep.series in st.files then EditedFiles(st.files, done) else st.files;
        DownloadState(files, st.written + [Mp3Write(done, bytes)])
  }

  /** The per-job step of the download pool. */
  function Downloading(fetch: string -> Option<seq<Byte>>, digest: seq<Byte> -> string): (DownloadState, Episode) -> DownloadState {
    (st, e) => DownloadStep(fetch, digest, st, e)
  }

  /** The store and the files written once the pool has done the last `processed` jobs of `jobs`. */
  function AfterDownloads(fetch: string -> Option<seq<Byte>>, digest: seq<Byte> -> string,
                          files: map<Series, JsonFile<Episode>>, jobs: seq<Episode>, processed: nat): DownloadState
    requires processed <= |jobs|
  {
    Drain(Downloading(fetch, digest), DownloadState(files, []), jobs[|jobs| - processed..])
  }

  /** A downloaded episode is not selected again once its file is on disk. */
  lemma DownloadedLeavesScan(fetch: string -> Option<seq<Byte>>, digest: seq<Byte> -> string,
                             st: DownloadState, ep: Episode, fingerprints: seq<string>)
    requires ep.series in st.files && ep.downloadUrl.Some? && fetch(ep.downloadUrl.value).Some?
    requires Fingerprint(digest, fetch(ep.downloadUrl.value).value) in fingerprints
    ensures forall e :: e in NotDownloadedOf(ReadRecords(DownloadStep(fetch, digest, st, ep).files[ep.series]), fingerprints) ==>
      e.id != ep.id
  {
    var eps := ReadRecords(DownloadStep(fetch, digest, st, ep).files[ep.series]);
    forall e | e in NotDownloadedOf(eps, fingerprints)
      ensures e.id != ep.id
    {
      assert e in eps;
    }
  }

  /**
   * `download_mp3s`: `min(thread_max, len)` workers, each with its own hasher; each one
   * checks the cancel flag before every pop and stops on cancel or an empty list. A job
   * needs a download URL (`download_mp3` unwraps it). The workers run one after the other
   * here; `ctrlC(k)` says whether Ctrl-C arrives just before the k-th check.
   */
  method DownloadMp3s(store: RWJson, canceller: Canceller, threadMax: nat, episodes: seq<Episode>,
                      fetch: string -> Option<seq<Byte>>, digest: seq<Byte> -> string, ctrlC: nat -> bool)
    returns (workers: nat, processed: nat, written: seq<Mp3Write>)
    requires canceller.Valid()
    requires forall e :: e in episodes ==> e.downloadUrl.Some?
    modifies store, canceller
    ensures canceller.Valid() && store.files.Keys == old(store.files).Keys
    ensures workers == Min(threadMax, |episodes|)
    ensures processed <= |episodes| && (workers == 0 ==> processed == 0)
    ensures DownloadState(store.files, written) == AfterDownloads(fetch, digest, old(store.files), episodes, processed)
    ensures PoolProgress(threadMax, |episodes|, processed, old(canceller.isCancel), canceller.isCancel, ctrlC)
  {
    ghost var step := Downloading(fetch, digest);
    ghost var init := DownloadState(store.files, []);
    workers := Min(threadMax, |episodes|);
    processed := 0;
    written := [];
    if workers == 0 {
      return;
    }
    var hasher := new Sha1Hasher(digest);
    var stack := episodes;
    while true
      invariant canceller.Valid() && store.files.Keys == old(store.files).Keys
      invariant hasher.digest == digest && hasher.pending == []
      invariant |stack| + processed == |episodes| && stack == episodes[..|stack|]
      invariant DownloadState(store.files, written) == Drain(step, init, episodes[|episodes| - processed..])
      invariant old(canceller.isCancel) ==> canceller.isCancel && processed == 0
      invariant !old(canceller.isCancel) && Quiet(ctrlC, |episodes|) ==> !canceller.isCancel
      decreases |stack|
    {
      Interrupt(canceller, ctrlC(processed));
      var cancelled := canceller.IsCancel();
      if cancelled {
        break;
      }
      if |stack| == 0 {
        break;
      }
      var episode := stack[|stack| - 1];
      stack := stack[..|stack| - 1];
      DrainOneMore(step, init, episodes, processed);
      processed := processed + 1;
      assert episode in episodes;
      var bytes := fetch(episode.downloadUrl.value);
      if bytes.None? {
        continue;
      }
      var sha1 := hasher.CreateSha1(bytes.value);
      episode := episode.SetSha1(sha1);
      written := written + [Mp3Write(episode, bytes.value)];
      if episode.series in store.files {
        store.EditEpisode(episode);
      }
    }
  }

  /** `run`: the corrected scan, then the download pool; no job lacks a download URL. */
  method Run(store: RWJson, canceller: Canceller, threadMax: nat, seriesVec: seq<Series>, onDisk: Series -> seq<string>,
             fetch: string -> Option<seq<Byte>>, digest: seq<Byte> -> string, ctrlC: nat -> bool)
    returns (jobs: seq<Episode>, processed: nat, written: seq<Mp3Write>)
    requires canceller.Valid()
    requires forall s :: s in seriesVec ==> s in store.files
    modifies store, canceller
    ensures canceller.Valid() && store.files.Keys == old(store.files).Keys
    ensures jobs == ScanDownloadableMp3s(old(store.files), onDisk, seriesVec)
    ensures processed <= |jobs|
    ensures DownloadState(store.files, written) == AfterDownloads(fetch, digest, old(store.files), jobs, processed)
    ensures PoolProgress(threadMax, |jobs|, processed, old(canceller.isCancel), canceller.isCancel, ctrlC)
  {
    jobs := ScanDownloadableMp3s(store.files, onDisk, seriesVec);
    var workers;
    workers, processed, written := DownloadMp3s(store, canceller, threadMax, jobs, fetch, digest, ctrlC);
  }
}
