/**
 * The per-series JSON metadata store of the `fconx` crate (`RWJson`). Each configured
 * series owns one file; the store reads all of its records, overwrites all of them, or
 * edits one record keyed by its id.
 */
module MetadataStore {
  import opened SeriesConfig
  import opened JsonFiles
  import opened Strings
  import opened Episodes

  /** No two records of a file share an id. */
  predicate UniqueIds(eps: seq<Episode>) {
    forall i, j :: 0 <= i < j < |eps| ==> eps[i].id != eps[j].id
  }

  /** The records whose id differs from `id`, in their original order. */
  function WithoutId(eps: seq<Episode>, id: string): (r: seq<Episode>)
    ensures |r| <= |eps|
    ensures forall x :: x in r <==> x in eps && x.id != id
  {
    if |eps| == 0 then []
    else if eps[0].id != id then [eps[0]] + WithoutId(eps[1..], id)
    else WithoutId(eps[1..], id)
  }

  /** Filtering a concatenation filters each part. */
  lemma {:induction false} WithoutIdConcat(a: seq<Episode>, b: seq<Episode>, id: string)
    ensures WithoutId(a + b, id) == WithoutId(a, id) + WithoutId(b, id)
  {
    if |a| > 0 {
      assert (a + b)[1..] == a[1..] + b;
      assert (a + b)[0] == a[0];
      var kept := if a[0].id != id then [a[0]] else [];
      assert WithoutId(a + b, id) == kept + WithoutId(a[1..] + b, id);
      assert WithoutId(a, id) == kept + WithoutId(a[1..], id);
      WithoutIdConcat(a[1..], b, id);
      AppendAssoc(kept, WithoutId(a[1..], id), WithoutId(b, id));
    } else {
      assert a + b == b;
    }
  }

  /** A file in which no record carries `id` is left exactly as it is. */
  lemma {:induction false} WithoutIdNoop(eps: seq<Episode>, id: string)
    requires forall x :: x in eps ==> x.id != id
    ensures WithoutId(eps, id) == eps
  {
    if |eps| > 0 {
      assert forall x :: x in eps[1..] ==> x in eps;
      WithoutIdNoop(eps[1..], id);
      assert [eps[0]] + eps[1..] == eps;
    }
  }

  /** Filtering preserves unique ids: the result is a subsequence of the input. */
  lemma {:induction false} WithoutIdPreservesUniqueIds(eps: seq<Episode>, id: string)
    requires UniqueIds(eps)
    ensures UniqueIds(WithoutId(eps, id))
  {
    if |eps| > 0 {
      var rest := WithoutId(eps[1..], id);
      WithoutIdPreservesUniqueIds(eps[1..], id);
      if eps[0].id != id {
        var r := [eps[0]] + rest;
        forall i, j | 0 <= i < j < |r|
          ensures r[i].id != r[j].id
        {
          if i == 0 {
            assert r[j] == rest[j - 1];
            assert r[j] in eps[1..];
            var k :| 0 <= k < |eps[1..]| && eps[1..][k] == r[j];
            assert eps[k + 1] == r[j];
          } else {
            assert r[i] == rest[i - 1] && r[j] == rest[j - 1];
          }
        }
      }
    }
  }

  /**
   * The record set `edit_episode(e)` writes: every record of the file whose id differs
   * from `e.id`, in order, followed by `e`. Afterwards exactly one record has `e.id`,
   * the last one, and it is `e`.
   */
  function Upsert(eps: seq<Episode>, e: Episode): (r: seq<Episode>)
    ensures |r| > 0 && r[|r| - 1] == e
    ensures forall i :: 0 <= i < |r| - 1 ==> r[i].id != e.id
    ensures forall x :: x in r <==> x == e || (x in eps && x.id != e.id)
  {
    var r := WithoutId(eps, e.id) + [e];
    assert forall i :: 0 <= i < |r| - 1 ==> r[i] in WithoutId(eps, e.id);
    r
  }

  /** An edit keeps a file's ids unique. */
  lemma UpsertPreservesUniqueIds(eps: seq<Episode>, e: Episode)
    requires UniqueIds(eps)
    ensures UniqueIds(Upsert(eps, e))
  {
    WithoutIdPreservesUniqueIds(eps, e.id);
  }

  /** Of two edits with the same id, only the later one survives. */
  lemma UpsertLaterWins(eps: seq<Episode>, e1: Episode, e2: Episode)
    requires e1.id == e2.id
    ensures Upsert(Upsert(eps, e1), e2) == Upsert(eps, e2)
  {
    var f := WithoutId(eps, e1.id);
    WithoutIdConcat(f, [e1], e1.id);
    assert WithoutId([e1], e1.id) == [];
    WithoutIdNoop(f, e1.id);
  }

  /** Editing with the same episode twice is editing it once. */
  lemma UpsertIdempotent(eps: seq<Episode>, e: Episode)
    ensures Upsert(Upsert(eps, e), e) == Upsert(eps, e)
  {
    UpsertLaterWins(eps, e, e);
  }

  /** The whole store after `edit_episode(e)`: only the file of `e.series` changes. */
  function EditedFiles(files: map<Series, JsonFile<Episode>>, e: Episode): (r: map<Series, JsonFile<Episode>>)
    requires e.series in files
    ensures r.Keys == files.Keys
    ensures forall s :: s in files && s != e.series ==> r[s] == files[s]
    ensures r[e.series] == Records(Upsert(ReadRecords(files[e.series]), e))
  {
    files[e.series := Records(Upsert(ReadRecords(files[e.series]), e))]
  }

  /** Store-level: of two edits of the same record, only the later one survives. */
  lemma EditLaterWins(files: map<Series, JsonFile<Episode>>, e1: Episode, e2: Episode)
    requires e1.series in files && e1.series == e2.series && e1.id == e2.id
    ensures EditedFiles(EditedFiles(files, e1), e2) == EditedFiles(files, e2)
  {
    UpsertLaterWins(ReadRecords(files[e1.series]), e1, e2);
  }

  /** Store-level idempotence of `edit_episode`. */
  lemma EditTwice(files: map<Series, JsonFile<Episode>>, e: Episode)
    requires e.series in files
    ensures EditedFiles(EditedFiles(files, e), e) == EditedFiles(files, e)
  {
    EditLaterWins(files, e, e);
  }

  /**
   * `RWJson`: one JSON file per configured series. Looking up a series that was not
   * configured panics (`get(..).unwrap()`), which the methods state as a precondition.
   */
  class RWJson {
    var files: map<Series, JsonFile<Episode>>

    /** `new_arc`: a file for every configured series, holding whatever is on disk. */
    constructor (seriesVec: seq<Series>, disk: Series -> JsonFile<Episode>)
      ensures files.Keys == set s | s in seriesVec
      ensures forall s :: s in files ==> files[s] == disk(s)
    {
      files := map s | s in seriesVec :: disk(s);
    }

    /** `overwrite_all_episodes`: the file of `s` afterwards holds exactly `eps`. */
    method OverwriteAllEpisodes(s: Series, eps: seq<Episode>)
      requires s in files
      modifies this
      ensures files == old(files)[s := Records(eps)]
      ensures ReadRecords(files[s]) == eps
    {
      files := files[s := Records(eps)];
    }

    /**
     * `read_all_episodes`: the records of `s`; a missing, empty or unparseable file
     * reads as no records.
     */
    method ReadAllEpisodes(s: Series) returns (eps: seq<Episode>)
      requires s in files
      ensures files[s].Records? ==> eps == files[s].records
      ensures !files[s].Records? ==> eps == []
    {
      var f := files[s];
      match f
      case Records(records) => eps := records;
      case _ => eps := [];
    }

    /** `edit_episode`: read the file of `e.series`, drop the records with `e.id`, push `e`, write back. */
    method EditEpisode(e: Episode)
      requires e.series in files
      modifies this
      ensures files == EditedFiles(old(files), e)
    {
      var all := ReadAllEpisodes(e.series);
      var filtered := WithoutId(all, e.id);
      filtered := filtered + [e];
      OverwriteAllEpisodes(e.series, filtered);
    }

    /** `FilePath::push_episode`: one more record at the end of the file of `e.series`. */
    method PushEpisode(e: Episode)
      requires e.series in files
      modifies this
      ensures files == old(files)[e.series := Records(ReadRecords(old(files)[e.series]) + [e])]
    {
      var eps := ReadAllEpisodes(e.series);
      eps := eps + [e];
      OverwriteAllEpisodes(e.series, eps);
    }
  }
}
