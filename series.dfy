/** The closed set of content series and the names, files and directories attached to each. */
module SeriesConfig {
  import opened Wrappers
  import opened Strings

  datatype Series = FR | NSQ | FMD | PIMA | OL

  const URL_FR: string := "https://freakonomics.com/series-full/freakonomics-radio/"
  const URL_NSQ: string := "https://freakonomics.com/series-full/nsq/"
  const URL_FMD: string := "https://freakonomics.com/series-full/bapu/"
  const URL_PIMA: string := "https://freakonomics.com/series-full/people-i-mostly-admire/"
  const URL_OL: string := "https://freakonomics.com/series-full/off-leash/"

  const URL_BASE: string := "https://freakonomics.com/series-full/"

  /** The listing page of a series (the URL constants all parse, so `Url::parse` never fails). */
  function Url(s: Series): (r: string)
    ensures StartsWith(r, URL_BASE) && EndsWith(r, "/")
  {
    match s
    case FR => URL_FR
    case NSQ => URL_NSQ
    case FMD => URL_FMD
    case PIMA => URL_PIMA
    case OL => URL_OL
  }

  /** The metadata file of a series. */
  function DataJsonFilename(s: Series): (r: string)
    ensures EndsWith(r, ".json")
  {
    match s
    case FR => "fr.json"
    case NSQ => "nsq.json"
    case FMD => "fmd.json"
    case PIMA => "pima.json"
    case OL => "ol.json"
  }

  /** The directory that holds the downloaded files of a series. */
  function Mp3Dirname(s: Series): (r: string)
    ensures |r| > 0
  {
    match s
    case FR => "Freakonomics Radio"
    case NSQ => "No Stupid Question"
    case FMD => "Freakonomics MD"
    case PIMA => "People I Mostly Admire"
    case OL => "Off Leash"
  }

  datatype ParseSeriesError = ParseSeriesError(value: string)

  const SERIES_NAMES: seq<string> := ["FR", "NSQ", "FMD", "PIMA", "OL"]

  /** `TryFrom<String> for Series`: exactly the five variant names are accepted. */
  function TryFrom(value: string): (r: Result<Series, ParseSeriesError>)
    ensures r.Success? <==> value in SERIES_NAMES
    ensures r.Failure? ==> r.error == ParseSeriesError(value)
  {
    if value == "FR" then Success(FR)
    else if value == "NSQ" then Success(NSQ)
    else if value == "FMD" then Success(FMD)
    else if value == "PIMA" then Success(PIMA)
    else if value == "OL" then Success(OL)
    else Failure(ParseSeriesError(value))
  }

  /** Each accepted name maps to the variant of the same name. */
  lemma TryFromSameName()
    ensures TryFrom("FR") == Success(FR) && TryFrom("NSQ") == Success(NSQ)
    ensures TryFrom("FMD") == Success(FMD) && TryFrom("PIMA") == Success(PIMA)
    ensures TryFrom("OL") == Success(OL)
  {
  }

  /** Two series never share a metadata file. */
  lemma DataJsonFilenameInjective(a: Series, b: Series)
    requires DataJsonFilename(a) == DataJsonFilename(b)
    ensures a == b
  {
    var fa, fb := DataJsonFilename(a), DataJsonFilename(b);
    assert fa[0] == fb[0] && |fa| == |fb|;
  }

  /** Two series never share a download directory. */
  lemma Mp3DirnameInjective(a: Series, b: Series)
    requires Mp3Dirname(a) == Mp3Dirname(b)
    ensures a == b
  {
    var da, db := Mp3Dirname(a), Mp3Dirname(b);
    assert da[0] == db[0] && |da| == |db|;
  }

  /** The five listing URLs are pairwise distinct. */
  lemma UrlInjective(a: Series, b: Series)
    requires Url(a) == Url(b)
    ensures a == b
  {
    var ua, ub := Url(a), Url(b);
    assert ua[|URL_BASE|] == ub[|URL_BASE|] && |ua| == |ub|;
  }
}
