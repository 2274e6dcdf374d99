/** The gather half: run the shard query on every shard, load the answers, re-run the whole query. */
module Merge {
  import opened Wrappers
  import opened Sequences
  import opened Ast
  import opened Aggregates
  import opened FanOut
  import opened Query

  datatype MergeError =
    | Refused(error: FanOutError)
    | NoMergeNeeded
    | ShardFailed(shardError: QueryError)
    | DuplicateColumn  // CREATE TEMP TABLE names a column twice
    | RerunFailed(rerunError: QueryError)

  /** A result row as the driver delivers it: an object with one property per column name. */
  function RowObject(names: seq<string>, out: seq<Value>): Row
    requires |names| == |out|
  {
    if names == [] then map[]
    else RowObject(names[..|names| - 1], out[..|names| - 1])[names[|names| - 1] := out[|names| - 1]]
  }

  function RowObjects(names: seq<string>, answer: seq<seq<Value>>): (rows: seq<Row>)
    ensures |rows| == |answer|
  {
    seq(|answer|, i requires 0 <= i < |answer| =>
      if |answer[i]| == |names| then RowObject(names, answer[i]) else map[])
  }

  /** The rows each shard returns, or the first error. */
  function ShardRows(I: Meaning, fanOut: Select, cols: seq<string>, names: seq<string>, shards: seq<seq<Row>>)
    : Result<seq<seq<Row>>, QueryError>
  {
    if shards == [] then Success([])
    else
      var answer := Run(I, fanOut, Table(cols, shards[0]));
      if answer.Failure? then Failure(answer.error) else
      var rest := ShardRows(I, fanOut, cols, names, shards[1..]);
      if rest.Failure? then rest else Success([RowObjects(names, answer.value)] + rest.value)
  }

  /** The column names of a shard's answer. */
  function AnswerNames(fanOut: Select, cols: seq<string>): seq<string> {
    OutputNames(Expand(fanOut, cols).columns)
  }

  function HasDuplicates(names: seq<string>): (b: bool)
    ensures b <==> !Distinct(names)
  {
    exists i, j :: 0 <= i < j < |names| && names[i] == names[j]
  }

  /** Scatter the fan-out query over tables with columns `cols`, gather, and re-run the whole query. */
  function ScatterGather(I: Meaning, q: Select, cols: seq<string>,
                         shards: seq<seq<Row>>): Result<seq<seq<Value>>, MergeError> {
    var split := SplitOf(q);
    if split.Failure? then Failure(Refused(split.error))
    else if split.value.NoMerge? then Failure(NoMergeNeeded)
    else if shards == [] then Success([])  // no result has fields
    else
      var names := AnswerNames(split.value.fanOut, cols);
      var loaded := ShardRows(I, split.value.fanOut, cols, names, shards);
      if loaded.Failure? then Failure(ShardFailed(loaded.error))
      else if HasDuplicates(names) then Failure(DuplicateColumn)
      else
        var answer := Run(I, q, Table(names, Flatten(loaded.value)));
        if answer.Failure? then Failure(RerunFailed(answer.error)) else Success(answer.value)
  }

  /** The rows of all the results, in order; results without rows add nothing. */
  method CollectMergedRows(results: seq<seq<Row>>) returns (rows: seq<Row>)
    ensures rows == Flatten(results)
  {
    rows := [];
    for i := 0 to |results|
      invariant rows + Flatten(results[i..]) == Flatten(results)
    {
      assert results[i..][1..] == results[i + 1..];
      if |results[i]| > 0 {
        rows := rows + results[i];
      }
    }
  }
}
