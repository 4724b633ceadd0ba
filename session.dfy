/**
 * How the grading run and the retries meet: the rows `process_submissions`
 * returns are the `results_data` that `retry_single_grading` and
 * `retry_all_failed` later receive.
 */
module Session {
  import opened Rows
  import Batch
  import Retry

  /** The rows a finished batch hands to the table are all well formed, so
      the retries start from a valid table. */
  lemma BatchRowsWellFormed(files: seq<string>, replies: nat -> Grading.RemoteReply, clock: nat -> string)
    requires Batch.BuildRows(files, replies, clock).Built?
    ensures Retry.AllWellFormed(Batch.BuildRows(files, replies, clock).rows)
  {
    var rows := Batch.BuildRows(files, replies, clock).rows;
    Batch.CollectKeepsRows(Batch.FileRows(files, replies, clock));
    forall i | 0 <= i < |rows|
      ensures WellFormed(rows[i])
    {
      Batch.BuiltRowsWellFormed(files, replies, clock, i);
    }
  }
}
