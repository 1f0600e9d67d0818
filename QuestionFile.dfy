/**
 * The record-appending rule of the editor's server (editor/server.py,
 * `do_POST`, lines 33-37 and 44), separated from the HTTP request and the
 * reading and writing of the question file.
 */
module QuestionFile {
  import opened Wrappers
  import opened Ints

  /**
   * One record of the question file: the JSON object split into its `id` key
   * (absent when the key is missing) and its other keys, each mapped to a text
   * or to JSON null (what the editor form sends for an empty field). A `fields`
   * map that holds the key "id" is not the image of any JSON object;
   * `AppendRecord` never produces one.
   */
  datatype Record = Record(id: Option<int>, fields: map<string, Option<string>>)

  /** `item.get('id', 0)`. */
  function IdOrZero(r: Record): int {
    match r.id
    case Some(k) => k
    case None => 0
  }

  /** `max((item.get('id', 0) for item in data), default=0)`: the largest id, or 0 for an empty file. */
  function LastId(data: seq<Record>): (m: int)
    ensures data == [] ==> m == 0
    ensures forall i :: 0 <= i < |data| ==> IdOrZero(data[i]) <= m
    ensures data != [] ==> exists i :: 0 <= i < |data| && IdOrZero(data[i]) == m
  {
    if data == [] then 0
    else if |data| == 1 then IdOrZero(data[0])
    else
      var rest := LastId(data[1..]);
      assert forall i :: 1 <= i < |data| ==> data[i] == data[1..][i - 1];
      Max(IdOrZero(data[0]), rest)
  }

  /** No two records carry the same id, a missing id counting as 0. */
  predicate DistinctIds(data: seq<Record>) {
    forall i, j :: 0 <= i < j < |data| ==> IdOrZero(data[i]) != IdOrZero(data[j])
  }

  /**
   * The core of `do_POST`: give the submitted record the id one above the
   * largest existing one (overwriting any id the client sent) and append it.
   * `newId` is also the id the response reports.
   */
  method AppendRecord(data: seq<Record>, newData: Record) returns (stored: seq<Record>, newId: int)
    ensures forall i :: 0 <= i < |data| ==> IdOrZero(data[i]) < newId
    ensures data == [] ==> newId == 1
    ensures data != [] ==> exists i :: 0 <= i < |data| && newId == IdOrZero(data[i]) + 1
    ensures |stored| == |data| + 1 && stored[..|data|] == data
    ensures stored[|data|].id == Some(newId) && stored[|data|].fields == newData.fields - {"id"}
    ensures DistinctIds(data) ==> DistinctIds(stored)
  {
    var lastId := LastId(data);
    newId := lastId + 1;
    var record := Record(Some(newId), newData.fields - {"id"});
    stored := data + [record];
  }
}
