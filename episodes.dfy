/**
 * The episode record of the `fconx` crate. An episode is cloned into and out of the
 * per-series metadata files, so it is a value; its two setters are functional updates.
 */
module Episodes {
  import opened Wrappers
  import opened SeriesConfig

  /** A UTC date-time; its calendar structure plays no part in the bookkeeping. */
  type Timestamp = int

  datatype Episode = Episode(
    id: string,
    sha1: Option<string>,
    series: Series,
    number: string,
    title: string,
    date: Timestamp,
    pageUrl: string,
    downloadUrl: Option<string>)
  {
    /** `set_sha1`: records the fingerprint of the downloaded file; nothing else changes. */
    function SetSha1(s: string): (e: Episode)
      ensures e.sha1 == Some(s)
      ensures e.(sha1 := this.sha1) == this
    {
      this.(sha1 := Some(s))
    }

    /** `set_download_url`: records the resolved mp3 URL; nothing else changes. */
    function SetDownloadUrl(u: string): (e: Episode)
      ensures e.downloadUrl == Some(u)
      ensures e.(downloadUrl := this.downloadUrl) == this
    {
      this.(downloadUrl := Some(u))
    }
  }

  /**
   * `Episode::new`. The id is the uuid v5 (DNS namespace) of the page URL, rendered as a
   * string; `uuid5` stands for that function. Nothing is fingerprinted or resolved yet.
   */
  function New(uuid5: string -> string, series: Series, number: string, title: string,
               date: Timestamp, pageUrl: string): (e: Episode)
    ensures e.sha1.None? && e.downloadUrl.None?
    ensures e.series == series && e.number == number && e.title == title
    ensures e.date == date && e.pageUrl == pageUrl
    ensures e.id == uuid5(pageUrl)
  {
    Episode(uuid5(pageUrl), None, series, number, title, date, pageUrl, None)
  }

  /** The id is a function of the page URL alone, whatever the other arguments. */
  lemma IdDependsOnlyOnPageUrl(uuid5: string -> string,
                               s1: Series, n1: string, t1: string, d1: Timestamp,
                               s2: Series, n2: string, t2: string, d2: Timestamp,
                               pageUrl: string)
    ensures New(uuid5, s1, n1, t1, d1, pageUrl).id == New(uuid5, s2, n2, t2, d2, pageUrl).id
  {
  }

  /** Setting the fingerprint and the download URL commute, and each setter keeps the id. */
  lemma SettersCommute(e: Episode, s: string, u: string)
    ensures e.SetSha1(s).SetDownloadUrl(u) == e.SetDownloadUrl(u).SetSha1(s)
    ensures e.SetSha1(s).id == e.id && e.SetDownloadUrl(u).id == e.id
    ensures e.SetSha1(s).series == e.series && e.SetDownloadUrl(u).series == e.series
  {
  }
}
