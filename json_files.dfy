/**
 * A per-series metadata file as the JSON reader sees it. A file that does not exist is
 * created empty when it is opened, so "absent" and "empty" are the same state here.
 */
module JsonFiles {

  datatype JsonFile<T> = Missing | Unparseable | Records(records: seq<T>)

  /** `serde_json::from_reader(..).unwrap_or(vec![])`: anything unreadable reads as no records. */
  function ReadRecords<T>(f: JsonFile<T>): seq<T> {
    if f.Records? then f.records else []
  }
}
