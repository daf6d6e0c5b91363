/**
 * The series list of the configuration: its default value and the serde adapter that
 * writes each series as its variant name and reads the names back.
 */
module ConfigModel {
  import opened Wrappers
  import opened SeriesConfig

  /** The default configuration enables every series, each once, in declaration order. */
  function DefaultSeriesVec(): (r: seq<Series>)
    ensures forall i, j :: 0 <= i < j < |r| ==> r[i] != r[j]
    ensures SerializeSeriesVec(r) == SERIES_NAMES
  {
    [FR, NSQ, FMD, PIMA, OL]
  }

  /** No series is left out of the default list. */
  lemma DefaultSeriesVecCoversAll()
    ensures forall s: Series :: s in DefaultSeriesVec()
  {
    var r := DefaultSeriesVec();
    forall s: Series
      ensures s in r
    {
      match s
      case FR => assert r[0] == s;
      case NSQ => assert r[1] == s;
      case FMD => assert r[2] == s;
      case PIMA => assert r[3] == s;
      case OL => assert r[4] == s;
    }
  }

  /** The name `serialize` writes for a series; it is read back as that same series. */
  function VariantName(s: Series): (r: string)
    ensures TryFrom(r) == Success(s)
  {
    match s
    case FR => "FR"
    case NSQ => "NSQ"
    case FMD => "FMD"
    case PIMA => "PIMA"
    case OL => "OL"
  }

  /** `vec_string_serde_vec_series::serialize`: one name per series, same length and order. */
  function SerializeSeriesVec(v: seq<Series>): (r: seq<string>)
    ensures |r| == |v|
    ensures forall i :: 0 <= i < |v| ==> TryFrom(r[i]) == Success(v[i])
  {
    seq(|v|, i requires 0 <= i < |v| => VariantName(v[i]))
  }

  const DESERIALIZE_ERROR: string := "expect one of these: FR, NSQ, FMD, PIMA, OL"

  /**
   * `vec_string_serde_vec_series::deserialize`: converts the names one by one, pushing each
   * series, and stops with an error at the first name that is not a series.
   */
  method DeserializeSeriesVec(strs: seq<string>) returns (r: Result<seq<Series>, string>)
    ensures r.Success? <==> forall i :: 0 <= i < |strs| ==> TryFrom(strs[i]).Success?
    ensures r.Success? ==> |r.value| == |strs|
    ensures r.Success? ==> forall i :: 0 <= i < |strs| ==> TryFrom(strs[i]) == Success(r.value[i])
    ensures r.Failure? ==> r.error == DESERIALIZE_ERROR
  {
    var seriesVec: seq<Series> := [];
    for i := 0 to |strs|
      invariant |seriesVec| == i
      invariant forall j :: 0 <= j < i ==> TryFrom(strs[j]) == Success(seriesVec[j])
    {
      var series := TryFrom(strs[i]);
      if series.Failure? {
        return Failure(DESERIALIZE_ERROR);
      }
      seriesVec := seriesVec + [series.value];
    }
    return Success(seriesVec);
  }

  /** Round trip: every series list is read back unchanged from what `serialize` wrote. */
  method SerializeThenDeserialize(v: seq<Series>) returns (r: Result<seq<Series>, string>)
    ensures r == Success(v)
  {
    var names := SerializeSeriesVec(v);
    r := DeserializeSeriesVec(names);
    assert forall i :: 0 <= i < |names| ==> TryFrom(names[i]).Success?;
    forall i | 0 <= i < |v|
      ensures r.value[i] == v[i]
    {
      assert TryFrom(names[i]) == Success(v[i]);
    }
    assert r.value == v;
  }
}
