/**
 * Resolution in the older `fconx-scraper` crate: the same scan and truncation as the
 * newer one, a pool with no cancel flag, and each resolved episode handed to
 * `edit_episode`, which that crate's store does not define; the handed-over episodes are
 * returned here in the order they are handed over.
 */
module LegacyDownloadUrlScraper {
  import opened Wrappers
  import opened Strings
  import opened SeriesConfig
  import opened JsonFiles
  import opened WorkerPool
  import opened Mp3Urls
  import opened LegacyEpisodes

  /** The elements of `s` that `keep` accepts, in order. */
  function Filter<T(!new)>(keep: T -> bool, s: seq<T>): (r: seq<T>)
    ensures forall x :: x in r <==> x in s && keep(x)
    ensures |r| <= |s|
    ensures (forall x :: x in s ==> !keep(x)) ==> r == []
  {
    if |s| == 0 then []
    else if keep(s[0]) then [s[0]] + Filter(keep, s[1..])
    else Filter(keep, s[1..])
  }

  /** Filtering keeps order and duplicates: it distributes over concatenation. */
  lemma {:induction false} FilterConcat<T(!new)>(keep: T -> bool, a: seq<T>, b: seq<T>)
    ensures Filter(keep, a + b) == Filter(keep, a) + Filter(keep, b)
  {
    if |a| > 0 {
      assert (a + b)[1..] == a[1..] + b;
      assert (a + b)[0] == a[0];
      var kept := if keep(a[0]) then [a[0]] else [];
      assert Filter(keep, a + b) == kept + Filter(keep, a[1..] + b);
      assert Filter(keep, a) == kept + Filter(keep, a[1..]);
      FilterConcat(keep, a[1..], b);
      AppendAssoc(kept, Filter(keep, a[1..]), Filter(keep, b));
    } else {
      assert a + b == b;
    }
  }

  /** The filter as written: it asks the accessor, which always answers `Some`. */
  function WithoutDownloadUrlAsWritten(eps: seq<Episode>): (r: seq<Episode>)
    ensures forall e :: e in r <==> e in eps && DownloadUrlAsWritten(e).None?
    ensures |r| <= |eps|
  {
    Filter(e => DownloadUrlAsWritten(e).None?, eps)
  }

  /**
   * `no_download_url_episodes` as written, one series after another: the stored records
   * of the configured series for which the as-written accessor reports no URL.
   */
  function NoDownloadUrlEpisodesAsWritten(files: map<Series, JsonFile<Episode>>, seriesVec: seq<Series>): (r: seq<Episode>)
    requires forall s :: s in seriesVec ==> s in files
    ensures forall e :: e in r <==>
      (exists i :: 0 <= i < |seriesVec| && e in ReadRecords(files[seriesVec[i]])) && DownloadUrlAsWritten(e).None?
  {
    if |seriesVec| == 0 then []
    else
      var init := seriesVec[..|seriesVec| - 1];
      assert forall i :: 0 <= i < |init| ==> init[i] == seriesVec[i];
      NoDownloadUrlEpisodesAsWritten(files, init) + WithoutDownloadUrlAsWritten(ReadRecords(files[seriesVec[|seriesVec| - 1]]))
  }

  /** The scan as written never selects anything, whatever the store holds. */
  lemma {:induction false} NoDownloadUrlEpisodesAsWrittenIsEmpty(files: map<Series, JsonFile<Episode>>, seriesVec: seq<Series>)
    requires forall s :: s in seriesVec ==> s in files
    ensures NoDownloadUrlEpisodesAsWritten(files, seriesVec) == []
  {
    if |seriesVec| > 0 {
      var init := seriesVec[..|seriesVec| - 1];
      NoDownloadUrlEpisodesAsWrittenIsEmpty(files, init);
    }
  }

  /** The corrected filter: the stored download URL is unset. */
  function WithoutDownloadUrl(eps: seq<Episode>): (r: seq<Episode>)
    ensures forall e :: e in r <==> e in eps && DownloadUrl(e).None?
    ensures |r| <= |eps|
  {
    if |eps| == 0 then []
    else if DownloadUrl(eps[0]).None? then [eps[0]] + WithoutDownloadUrl(eps[1..])
    else WithoutDownloadUrl(eps[1..])
  }

  /** The corrected selection keeps file order and duplicates: it distributes over concatenation. */
  lemma {:induction false} WithoutDownloadUrlConcat(a: seq<Episode>, b: seq<Episode>)
    ensures WithoutDownloadUrl(a + b) == WithoutDownloadUrl(a) + WithoutDownloadUrl(b)
  {
    if |a| > 0 {
      assert (a + b)[1..] == a[1..] + b;
      assert (a + b)[0] == a[0];
      var kept := if DownloadUrl(a[0]).None? then [a[0]] else [];
      assert WithoutDownloadUrl(a + b) == kept + WithoutDownloadUrl(a[1..] + b);
      assert WithoutDownloadUrl(a) == kept + WithoutDownloadUrl(a[1..]);
      WithoutDownloadUrlConcat(a[1..], b);
      AppendAssoc(kept, WithoutDownloadUrl(a[1..]), WithoutDownloadUrl(b));
    } else {
      assert a + b == b;
    }
  }

  /** The corrected scan: every unresolved record of a configured series. */
  function NoDownloadUrlEpisodes(files: map<Series, JsonFile<Episode>>, seriesVec: seq<Series>): (r: seq<Episode>)
    requires forall s :: s in seriesVec ==> s in files
    ensures forall e :: e in r <==>
      e.downloadUrl.None? && exists i :: 0 <= i < |seriesVec| && e in ReadRecords(files[seriesVec[i]])
  {
    if |seriesVec| == 0 then []
    else
      var init := seriesVec[..|seriesVec| - 1];
      assert forall i :: 0 <= i < |init| ==> init[i] == seriesVec[i];
      NoDownloadUrlEpisodes(files, init) + WithoutDownloadUrl(ReadRecords(files[seriesVec[|seriesVec| - 1]]))
  }

  /**
   * One job: on success the episode, with the truncated URL set, is handed to `edit_episode`
   * (appended to the log of edits); a page that cannot be read hands over nothing.
   */
  function ResolveStep(href: string -> Option<string>, edited: seq<Episode>, e: Episode): (r: seq<Episode>)
    ensures |edited| <= |r| <= |edited| + 1 && r[..|edited|] == edited
    ensures href(e.url).None? <==> r == edited
    ensures href(e.url).Some? ==> |r| == |edited| + 1 && r[|edited|] == e.SetDownloadUrl(ResolvedUrl(href(e.url).value))
  {
    match href(e.url)
    case None => edited
    case Some(link) => edited + [e.SetDownloadUrl(ResolvedUrl(link))]
  }

  /** The per-job step of the resolution pool. */
  function Resolver(href: string -> Option<string>): (seq<Episode>, Episode) -> seq<Episode> {
    (l, e) => ResolveStep(href, l, e)
  }

  /** Every episode handed over is a popped job with its download URL set; failed jobs hand over nothing. */
  lemma {:induction false} ResolvedJobsHaveUrls(href: string -> Option<string>, jobs: seq<Episode>)
    ensures var edited := Drain(Resolver(href), [], jobs);
      |edited| <= |jobs| &&
      forall x :: x in edited ==> x.downloadUrl.Some? && exists j :: j in jobs && x == j.SetDownloadUrl(x.downloadUrl.value)
  {
    var step := Resolver(href);
    if |jobs| > 0 {
      var x := jobs[0];
      var rest := jobs[1..];
      assert jobs == [x] + rest;
      DrainPushFront(step, [], x, rest);
      var mid := Drain(step, [], rest);
      assert Drain(step, [], jobs) == ResolveStep(href, mid, x);
      ResolvedJobsHaveUrls(href, rest);
      assert forall j :: j in rest ==> j in jobs;
    }
  }

  /**
   * `scrape_and_write_download_urls`: `min(max_worker, len)` workers pop jobs until the
   * list is empty, skipping a job whose page cannot be read. There is no cancel check.
   */
  method ScrapeAndWriteDownloadUrls(maxWorker: nat, episodes: seq<Episode>, href: string -> Option<string>)
    returns (workers: nat, edited: seq<Episode>)
    ensures workers == Min(maxWorker, |episodes|)
    ensures workers == 0 ==> edited == []
    ensures workers > 0 ==> edited == Drain(Resolver(href), [], episodes)
  {
    ghost var step := Resolver(href);
    workers := Min(maxWorker, |episodes|);
    edited := [];
    if workers == 0 {
      return;
    }
    var stack := episodes;
    while |stack| > 0
      invariant stack == episodes[..|stack|]
      invariant edited == Drain(step, [], episodes[|stack|..])
      decreases |stack|
    {
      var episode := stack[|stack| - 1];
      DrainOneMore(step, [], episodes, |episodes| - |stack|);
      stack := stack[..|stack| - 1];
      var link := href(episode.url);
      if link.None? {
        continue;
      }
      episode := episode.SetDownloadUrl(ResolvedUrl(link.value));
      edited := edited + [episode];
    }
    assert episodes[0..] == episodes;
  }

  /** `run` with the corrected scan: every unresolved stored record is a job. */
  method Run(files: map<Series, JsonFile<Episode>>, maxWorker: nat, seriesVec: seq<Series>, href: string -> Option<string>)
    returns (jobs: seq<Episode>, edited: seq<Episode>)
    requires forall s :: s in seriesVec ==> s in files
    ensures jobs == NoDownloadUrlEpisodes(files, seriesVec)
    ensures maxWorker > 0 ==> edited == Drain(Resolver(href), [], jobs)
  {
    jobs := NoDownloadUrlEpisodes(files, seriesVec);
    var workers;
    workers, edited := ScrapeAndWriteDownloadUrls(maxWorker, jobs, href);
    if workers == 0 && maxWorker > 0 {
      assert |jobs| == 0;
    }
  }
}
