/**
 * Discovery (`EpisodeScraper`): for every configured series, scrape the listing page into
 * episodes and append to the series' file those whose id is not stored yet.
 *
 * The browser session is the `page` function of a `Site`: it yields, per series, the
 * archive entries with the raw text of their number, title link and date, or an error.
 */
module EpisodeScraper {
  import opened Wrappers
  import opened Strings
  import opened Decimal
  import opened SeriesConfig
  import opened JsonFiles
  import opened Episodes
  import opened MetadataStore

  datatype TitleLink = TitleLink(text: string, href: string)

  /** One `.archive_entry`: the first text of each selector match, when there is a match. */
  datatype RawEntry = RawEntry(number: Option<string>, titleLink: Option<TitleLink>, date: Option<string>)

  /** The external services discovery depends on. */
  datatype Site = Site(
    page: Series -> Result<seq<RawEntry>, string>,
    uuid5: string -> string,
    parseDate: string -> Timestamp)

  const NUMBER_PREFIX: string := "No. "

  /**
   * The episode number as stored: every leading "No. " stripped, then, when the rest
   * parses as a `usize`, that number written with at least four digits.
   */
  function NormalizeNumber(raw: string): (r: string)
    ensures !StartsWith(r, NUMBER_PREFIX)
    ensures ParseUsize(TrimStartMatches(raw, NUMBER_PREFIX)).Some? ==>
      |r| >= 4 && AllDigits(r) && ParseUsize(r) == ParseUsize(TrimStartMatches(raw, NUMBER_PREFIX))
    ensures ParseUsize(TrimStartMatches(raw, NUMBER_PREFIX)).Some? ==>
      r == ZeroPad4(ParseUsize(TrimStartMatches(raw, NUMBER_PREFIX)).value)
    ensures ParseUsize(TrimStartMatches(raw, NUMBER_PREFIX)).None? ==> r == TrimStartMatches(raw, NUMBER_PREFIX)
  {
    var trimmed := TrimStartMatches(raw, NUMBER_PREFIX);
    match ParseUsize(trimmed)
    case Some(n) =>
      var r := ZeroPad4(n);
      assert r[0] != NUMBER_PREFIX[0];
      ParseZeroPad4(n);
      r
    case None => trimmed
  }

  /** A stored number is already normal. */
  lemma NormalizeNumberIdempotent(raw: string)
    ensures NormalizeNumber(NormalizeNumber(raw)) == NormalizeNumber(raw)
  {
    var r := NormalizeNumber(raw);
    assert TrimStartMatches(r, NUMBER_PREFIX) == r;
    var trimmed := TrimStartMatches(raw, NUMBER_PREFIX);
    if ParseUsize(trimmed).Some? {
      ParseZeroPad4(ParseUsize(trimmed).value);
    }
  }

  /** An entry has all three parts; any other entry is skipped. */
  predicate Complete(entry: RawEntry) {
    entry.number.Some? && entry.titleLink.Some? && entry.date.Some?
  }

  /** The episode a complete entry describes. */
  function EntryEpisode(site: Site, series: Series, entry: RawEntry): (e: Episode)
    requires Complete(entry)
    ensures e.series == series && e.sha1.None? && e.downloadUrl.None?
    ensures e.number == NormalizeNumber(entry.number.value)
    ensures e.title == entry.titleLink.value.text && e.pageUrl == entry.titleLink.value.href
    ensures e.id == site.uuid5(entry.titleLink.value.href)
  {
    Episodes.New(site.uuid5, series, NormalizeNumber(entry.number.value), entry.titleLink.value.text,
                 site.parseDate(entry.date.value), entry.titleLink.value.href)
  }

  /** The number of complete entries. */
  function CountComplete(entries: seq<RawEntry>): nat {
    if |entries| == 0 then 0
    else CountComplete(entries[..|entries| - 1]) + (if Complete(entries[|entries| - 1]) then 1 else 0)
  }

  /** The episodes of the complete entries, in page order. */
  function Scraped(site: Site, series: Series, entries: seq<RawEntry>): (r: seq<Episode>)
    ensures |r| == CountComplete(entries) && |r| <= |entries|
    ensures forall e :: e in r ==> e.series == series && e.sha1.None? && e.downloadUrl.None?
    ensures forall e :: e in r ==> exists i :: 0 <= i < |entries| && Complete(entries[i]) && e == EntryEpisode(site, series, entries[i])
  {
    if |entries| == 0 then []
    else
      var init := entries[..|entries| - 1];
      var last := entries[|entries| - 1];
      var r := Scraped(site, series, init) + (if Complete(last) then [EntryEpisode(site, series, last)] else []);
      assert forall i :: 0 <= i < |init| ==> init[i] == entries[i];
      r
  }

  /** No complete entry is lost: each one's episode is among the scraped episodes. */
  lemma {:induction false} ScrapedKeepsComplete(site: Site, series: Series, entries: seq<RawEntry>, i: nat)
    requires i < |entries| && Complete(entries[i])
    ensures EntryEpisode(site, series, entries[i]) in Scraped(site, series, entries)
  {
    ScrapedSnoc(site, series, entries);
    if i < |entries| - 1 {
      assert entries[..|entries| - 1][i] == entries[i];
      ScrapedKeepsComplete(site, series, entries[..|entries| - 1], i);
    }
  }

  /** The last entry contributes its episode, if complete, after those of the entries before it. */
  lemma ScrapedSnoc(site: Site, series: Series, entries: seq<RawEntry>)
    requires |entries| > 0
    ensures Scraped(site, series, entries) ==
      Scraped(site, series, entries[..|entries| - 1]) +
      (if Complete(entries[|entries| - 1]) then [EntryEpisode(site, series, entries[|entries| - 1])] else [])
  {
  }

  /** Scraping keeps page order: the entries of two consecutive stretches scrape to their episodes in turn. */
  lemma {:induction false} ScrapedConcat(site: Site, series: Series, a: seq<RawEntry>, b: seq<RawEntry>)
    ensures Scraped(site, series, a + b) == Scraped(site, series, a) + Scraped(site, series, b)
    decreases |b|
  {
    if |b| == 0 {
      assert a + b == a;
    } else {
      var ab := a + b;
      assert ab[..|ab| - 1] == a + b[..|b| - 1];
      assert ab[|ab| - 1] == b[|b| - 1];
      var lastPart := if Complete(b[|b| - 1]) then [EntryEpisode(site, series, b[|b| - 1])] else [];
      ScrapedSnoc(site, series, ab);
      ScrapedSnoc(site, series, b);
      ScrapedConcat(site, series, a, b[..|b| - 1]);
      AppendAssoc(Scraped(site, series, a), Scraped(site, series, b[..|b| - 1]), lastPart);
    }
  }

  /** The result of scraping the listing page of one series. */
  function ScrapeResult(site: Site, series: Series): Result<seq<Episode>, string> {
    match site.page(series)
    case Success(entries) => Success(Scraped(site, series, entries))
    case Failure(err) => Failure(err)
  }

  /**
   * `scrape_episodes_by_series`: one episode per archive entry; an entry without a number,
   * a title link or a date is skipped.
   */
  method ScrapeEpisodesBySeries(site: Site, series: Series) returns (r: Result<seq<Episode>, string>)
    ensures r == ScrapeResult(site, series)
  {
    var page := site.page(series);
    if page.Failure? {
      return Failure(page.error);
    }
    var elems := page.value;
    var out: seq<Episode> := [];
    for i := 0 to |elems|
      invariant out == Scraped(site, series, elems[..i])
    {
      assert elems[..i + 1][..i] == elems[..i];
      var elem := elems[i];
      if elem.number.None? {
        continue;
      }
      var number := NormalizeNumber(elem.number.value);
      if elem.titleLink.None? {
        continue;
      }
      var title, pageUrl := elem.titleLink.value.text, elem.titleLink.value.href;
      if elem.date.None? {
        continue;
      }
      var date := site.parseDate(elem.date.value);
      var episode := Episodes.New(site.uuid5, series, number, title, date, pageUrl);
      out := out + [episode];
    }
    assert elems[..|elems|] == elems;
    return Success(out);
  }

  /** The ids of a record set. */
  function Ids(eps: seq<Episode>): set<string> {
    set e | e in eps :: e.id
  }

  /** The scraped episodes whose id is not among `stored`, in scraped order. */
  function NotStored(stored: set<string>, scraped: seq<Episode>): (r: seq<Episode>)
    ensures forall e :: e in r <==> e in scraped && e.id !in stored
    ensures |r| <= |scraped|
    ensures (forall e :: e in scraped ==> e.id in stored) ==> r == []
  {
    if |scraped| == 0 then []
    else if scraped[0].id !in stored then [scraped[0]] + NotStored(stored, scraped[1..])
    else NotStored(stored, scraped[1..])
  }

  /** Selection keeps scraped order and duplicates: it distributes over concatenation. */
  lemma {:induction false} NotStoredConcat(stored: set<string>, a: seq<Episode>, b: seq<Episode>)
    ensures NotStored(stored, a + b) == NotStored(stored, a) + NotStored(stored, b)
  {
    if |a| > 0 {
      assert (a + b)[1..] == a[1..] + b;
      assert (a + b)[0] == a[0];
      var kept := if a[0].id !in stored then [a[0]] else [];
      assert NotStored(stored, a + b) == kept + NotStored(stored, a[1..] + b);
      assert NotStored(stored, a) == kept + NotStored(stored, a[1..]);
      NotStoredConcat(stored, a[1..], b);
      AppendAssoc(kept, NotStored(stored, a[1..]), NotStored(stored, b));
    } else {
      assert a + b == b;
    }
  }

  /**
   * The record set discovery writes: the stored records unchanged and in order, followed by
   * the scraped episodes whose id is new.
   */
  function MergeNew(existing: seq<Episode>, scraped: seq<Episode>): (r: seq<Episode>)
    ensures |r| >= |existing| && r[..|existing|] == existing
    ensures forall e :: e in r[|existing|..] <==> e in scraped && e.id !in Ids(existing)
    ensures r[|existing|..] == NotStored(Ids(existing), scraped)
  {
    var r := existing + NotStored(Ids(existing), scraped);
    assert r[|existing|..] == NotStored(Ids(existing), scraped);
    r
  }

  /** No appended episode shares an id with a stored record. */
  lemma MergeNewAddsOnlyNewIds(existing: seq<Episode>, scraped: seq<Episode>)
    ensures forall i, j :: 0 <= i < |existing| <= j < |MergeNew(existing, scraped)| ==>
      MergeNew(existing, scraped)[i].id != MergeNew(existing, scraped)[j].id
  {
    var r := MergeNew(existing, scraped);
    forall i, j | 0 <= i < |existing| <= j < |r|
      ensures r[i].id != r[j].id
    {
      assert r[j] in r[|existing|..];
      assert existing[i].id in Ids(existing);
    }
  }

  /** Merging the same scraped list again adds nothing. */
  lemma MergeNewIdempotent(existing: seq<Episode>, scraped: seq<Episode>)
    ensures MergeNew(MergeNew(existing, scraped), scraped) == MergeNew(existing, scraped)
  {
    var m := MergeNew(existing, scraped);
    forall e | e in scraped
      ensures e.id in Ids(m)
    {
      if e.id in Ids(existing) {
        var x :| x in existing && x.id == e.id;
        assert x in m;
      } else {
        assert e in m[|existing|..];
      }
    }
    var extra := NotStored(Ids(m), scraped);
    assert m + extra == m;
  }

  /** The store after discovery has handled one series. */
  function MergeSeries(files: map<Series, JsonFile<Episode>>, site: Site, s: Series): (r: map<Series, JsonFile<Episode>>)
    requires s in files
    ensures r.Keys == files.Keys
  {
    match ScrapeResult(site, s)
    case Success(scraped) => files[s := Records(MergeNew(ReadRecords(files[s]), scraped))]
    case Failure(_) => files
  }

  /** The store after discovery has handled every series of `seriesVec`. */
  function Discover(files: map<Series, JsonFile<Episode>>, site: Site, seriesVec: seq<Series>): (r: map<Series, JsonFile<Episode>>)
    requires forall s :: s in seriesVec ==> s in files
    ensures r.Keys == files.Keys
  {
    if |seriesVec| == 0 then files
    else MergeSeries(Discover(files, site, seriesVec[..|seriesVec| - 1]), site, seriesVec[|seriesVec| - 1])
  }

  /**
   * What discovery does to each file: a configured series whose page was scraped gets its
   * new episodes appended once, however often it is listed; every other file is untouched.
   */
  lemma {:induction false} DiscoverSpec(files: map<Series, JsonFile<Episode>>, site: Site, seriesVec: seq<Series>, s: Series)
    requires forall t :: t in seriesVec ==> t in files
    requires s in files
    ensures Discover(files, site, seriesVec)[s] ==
      if s in seriesVec && ScrapeResult(site, s).Success?
      then Records(MergeNew(ReadRecords(files[s]), ScrapeResult(site, s).value))
      else files[s]
  {
    if |seriesVec| > 0 {
      var init := seriesVec[..|seriesVec| - 1];
      var last := seriesVec[|seriesVec| - 1];
      assert forall t :: t in init ==> t in seriesVec;
      assert s in seriesVec <==> s in init || s == last;
      DiscoverSpec(files, site, init, s);
      if s == last && s in init && ScrapeResult(site, s).Success? {
        MergeNewIdempotent(ReadRecords(files[s]), ScrapeResult(site, s).value);
      }
    }
  }

  /** Running discovery twice with the same pages gives the store it gave once. */
  lemma DiscoverIdempotent(files: map<Series, JsonFile<Episode>>, site: Site, seriesVec: seq<Series>)
    requires forall s :: s in seriesVec ==> s in files
    ensures Discover(Discover(files, site, seriesVec), site, seriesVec) == Discover(files, site, seriesVec)
  {
    var once := Discover(files, site, seriesVec);
    var twice := Discover(once, site, seriesVec);
    forall s | s in files
      ensures twice[s] == once[s]
    {
      DiscoverSpec(files, site, seriesVec, s);
      DiscoverSpec(once, site, seriesVec, s);
      if s in seriesVec && ScrapeResult(site, s).Success? {
        MergeNewIdempotent(ReadRecords(files[s]), ScrapeResult(site, s).value);
      }
    }
  }

  /** The error the join loop reports: the first failing series in configuration order. */
  function FirstFailure(site: Site, seriesVec: seq<Series>): (r: Outcome<string>)
    ensures r.Pass? <==> forall i :: 0 <= i < |seriesVec| ==> site.page(seriesVec[i]).Success?
    ensures r.Fail? ==> exists i :: 0 <= i < |seriesVec| && site.page(seriesVec[i]) == Failure(r.error) &&
                                   (forall j :: 0 <= j < i ==> site.page(seriesVec[j]).Success?)
  {
    if |seriesVec| == 0 then Pass
    else
      var init := seriesVec[..|seriesVec| - 1];
      var f := FirstFailure(site, init);
      assert forall i :: 0 <= i < |init| ==> init[i] == seriesVec[i];
      if f.Fail? then f
      else match site.page(seriesVec[|seriesVec| - 1])
        case Failure(err) => Fail(err)
        case Success(_) => Pass
  }

  /**
   * `scrape_and_write_episodes`: one task per configured series reads the stored records,
   * scrapes the page and overwrites the file with the merge; the join then reports the
   * first failure in configuration order. Tasks run one after the other here.
   */
  method ScrapeAndWriteEpisodes(store: RWJson, site: Site, seriesVec: seq<Series>) returns (r: Outcome<string>)
    requires forall s :: s in seriesVec ==> s in store.files
    modifies store
    ensures store.files == Discover(old(store.files), site, seriesVec)
    ensures r == FirstFailure(site, seriesVec)
  {
    r := Pass;
    for i := 0 to |seriesVec|
      invariant forall s :: s in seriesVec ==> s in store.files
      invariant store.files.Keys == old(store.files).Keys
      invariant store.files == Discover(old(store.files), site, seriesVec[..i])
      invariant r == FirstFailure(site, seriesVec[..i])
    {
      var series := seriesVec[i];
      assert seriesVec[..i + 1][..i] == seriesVec[..i];
      var fromJson := store.ReadAllEpisodes(series);
      var scraped := ScrapeEpisodesBySeries(site, series);
      if scraped.Failure? {
        if r.Pass? {
          r := Fail(scraped.error);
        }
        continue;
      }
      var merged := fromJson + NotStored(Ids(fromJson), scraped.value);
      store.OverwriteAllEpisodes(series, merged);
    }
    assert seriesVec[..|seriesVec|] == seriesVec;
  }
}
