/**
 * The per-series JSON store of the older `fconx-scraper` crate: it only appends records
 * (`write_episode`) and reads them back (`read_episodes`); there is no edit by id.
 */
module LegacyStore {
  import opened SeriesConfig
  import opened JsonFiles
  import opened LegacyEpisodes

  /** The store after `write_episode(e)`: `e` appended to its series' records, nothing else touched. */
  function Appended(files: map<Series, JsonFile<Episode>>, e: Episode): (r: map<Series, JsonFile<Episode>>)
    requires e.series in files
    ensures r.Keys == files.Keys
    ensures forall s :: s in files && s != e.series ==> r[s] == files[s]
    ensures ReadRecords(r[e.series]) == ReadRecords(files[e.series]) + [e]
  {
    files[e.series := Records(ReadRecords(files[e.series]) + [e])]
  }

  /** Writing the same episode twice leaves two copies of it, two records more than before. */
  lemma WriteTwiceKeepsBoth(files: map<Series, JsonFile<Episode>>, e: Episode)
    requires e.series in files
    ensures var eps := ReadRecords(Appended(Appended(files, e), e)[e.series]);
      |eps| == |ReadRecords(files[e.series])| + 2 && eps[|eps| - 1] == e && eps[|eps| - 2] == e
  {
  }

  /** `RWJson` of `fconx-scraper`: one file per configured series. */
  class RWJson {
    var files: map<Series, JsonFile<Episode>>

    /** `new_arc`: a file for every configured series, holding whatever is on disk. */
    constructor (seriesVec: seq<Series>, disk: Series -> JsonFile<Episode>)
      ensures files.Keys == set s | s in seriesVec
      ensures forall s :: s in files ==> files[s] == disk(s)
    {
      files := map s | s in seriesVec :: disk(s);
    }

    /** `read_episodes`: a missing, empty or unparseable file reads as no records. */
    method ReadEpisodes(s: Series) returns (eps: seq<Episode>)
      requires s in files
      ensures files[s].Records? ==> eps == files[s].records
      ensures !files[s].Records? ==> eps == []
    {
      var f := files[s];
      match f
      case Records(records) => eps := records;
      case _ => eps := [];
    }

    /** `write_episode`: read the records, push `e`, write them back; no deduplication by id. */
    method WriteEpisode(e: Episode)
      requires e.series in files
      modifies this
      ensures files == Appended(old(files), e)
      ensures |ReadRecords(files[e.series])| == |ReadRecords(old(files)[e.series])| + 1
    {
      var episodes := ReadEpisodes(e.series);
      episodes := episodes + [e];
      files := files[e.series := Records(episodes)];
    }
  }
}
