/**
 * The episode record of the older `fconx-scraper` crate. Its `date` is stored as text and
 * it has a `binary_sha1` slot that nothing sets yet.
 */
module LegacyEpisodes {
  import opened Wrappers
  import opened SeriesConfig

  datatype Episode = Episode(
    id: string,
    series: Series,
    number: string,
    title: string,
    url: string,
    date: string,
    downloadUrl: Option<string>,
    binarySha1: Option<string>)
  {
    /** `set_download_url`: stores the resolved URL; nothing else changes. */
    function SetDownloadUrl(u: string): (e: Episode)
      ensures e.downloadUrl == Some(u)
      ensures e.(downloadUrl := this.downloadUrl) == this
    {
      this.(downloadUrl := Some(u))
    }
  }

  /**
   * `Episode::new`: the id is the uuid v5 (DNS namespace) of the page URL (`uuid5`); `date`
   * is the text form of the parsed date. No download URL and no fingerprint yet.
   */
  function New(uuid5: string -> string, series: Series, number: string, title: string, url: string,
               date: string): (e: Episode)
    ensures e.downloadUrl.None? && e.binarySha1.None?
    ensures e.series == series && e.number == number && e.title == title && e.url == url && e.date == date
    ensures e.id == uuid5(url)
  {
    Episode(uuid5(url), series, number, title, url, date, None, None)
  }

  /** The id is a function of the page URL alone. */
  lemma IdDependsOnlyOnUrl(uuid5: string -> string, a: Episode, b: Episode,
                           url: string)
    requires a == New(uuid5, a.series, a.number, a.title, url, a.date)
    requires b == New(uuid5, b.series, b.number, b.title, url, b.date)
    ensures a.id == b.id
  {
  }

  /** `download_url()` as written: the page URL, whatever the stored field holds. */
  function DownloadUrlAsWritten(e: Episode): (r: Option<string>)
    ensures r == Some(e.url)
  {
    Some(e.url)
  }

  /** The accessor as intended: the stored download URL. */
  function DownloadUrl(e: Episode): (r: Option<string>)
    ensures r == e.downloadUrl
  {
    e.downloadUrl
  }

  /** A freshly built episode shows the difference: its download URL is unset, yet the accessor says otherwise. */
  lemma DownloadUrlAsWrittenIgnoresField(uuid5: string -> string, series: Series, number: string, title: string,
                                         url: string, date: string)
    ensures DownloadUrlAsWritten(New(uuid5, series, number, title, url, date)).Some?
    ensures DownloadUrl(New(uuid5, series, number, title, url, date)).None?
  {
  }

  /** After `set_download_url(u)` the corrected accessor returns `u`. */
  lemma DownloadUrlAfterSet(e: Episode, u: string)
    ensures DownloadUrl(e.SetDownloadUrl(u)) == Some(u)
  {
  }
}
