/**
 * The retries: `_perform_grading_and_update_row`, which grades one file again
 * and rewrites its row in place, `retry_all_failed`, which does so for every
 * row whose status is `failed`, and `retry_single_grading`, which does so
 * for the row whose retry button was clicked. The list of rows the UI keeps
 * between events is the `rows` field of a `ResultTable`.
 */
module Retry {
  import opened Strings
  import opened Grading
  import opened Rows

  const NoApiKeyMessage := "Please provide a Gemini API key"
  const NoProblemMessage := "Please ensure the exercise problem is still present"
  const NoResultsMessage := "No results to retry."
  const NoFailedMessage := "No failed submissions to retry."
  const CriticalPrefix := "Critical retry error: "
  const NotRetryColumnMessage := "Click on the '\U{1F504} Retry' button to retry"
  const InvalidSelectionMessage := "Invalid file selection"
  const RetryErrorPrefix := "\U{274C} Error during retry: "
  /** The position of the retry button among the displayed columns. */
  const RetryColumn := 6

  /** What `_perform_grading_and_update_row` ends with: the grading status,
      or the exception flattening raised. */
  datatype Update = Finished(status: string) | Interrupted(message: string)

  function StatusOf(outcome: GradeOutcome): string {
    if outcome.Success? then "success" else "failed"
  }

  /** The replies whose regrade completes with `success`: a non-empty list
      of dict entries. */
  predicate RegradeSucceeds(reply: RemoteReply) {
    GradeFile(reply).Success? && AllObjects(GradeFile(reply).data)
  }

  /** Indices of the rows whose status is `failed`, in increasing order. */
  function FailedIndices(rows: seq<Row>): (idx: seq<nat>)
    ensures forall j :: 0 <= j < |idx| ==> idx[j] < |rows|
    ensures forall j, k :: 0 <= j < k < |idx| ==> idx[j] < idx[k]
    ensures forall i: nat :: i in idx <==> i < |rows| && HasValue(rows[i], Fixed(Status), Text("failed"))
  {
    if rows == [] then []
    else
      var n := |rows| - 1;
      var prev := FailedIndices(rows[..n]);
      assert forall i :: 0 <= i < n ==> rows[..n][i] == rows[i];
      prev + (if HasValue(rows[n], Fixed(Status), Text("failed")) then [n] else [])
  }

  /** The row after one retry of `retry_all_failed`, and whether it counts
      as a success. */
  datatype Step = Step(row: Row, succeeded: bool)

  /** One retry of `retry_all_failed`: the regrade, or, when it raised, the
      partly rewritten row marked failed with the critical error. */
  function RetryStep(row: Row, reply: RemoteReply, now: string): Step {
    match Regrade(row, GradeFile(reply), now)
    case Written(r) => Step(r, GradeFile(reply).Success?)
    case RaisedMidway(r, m) => Step(r[Fixed(Status) := Text("failed")][Fixed(Error) := Text(CriticalPrefix + m)], false)
  }

  /** The rows after retrying the listed indices in order, the j-th with
      `step(row, j)`, and the number of retries that succeeded. */
  datatype Retried = Retried(rows: seq<Row>, successes: nat)

  function RetryMany(rows: seq<Row>, idx: seq<nat>, n: nat, step: (Row, nat) -> Step): (res: Retried)
    requires n <= |idx| && forall j :: 0 <= j < |idx| ==> idx[j] < |rows|
    ensures |res.rows| == |rows|
    ensures res.successes <= n
  {
    if n == 0 then Retried(rows, 0)
    else
      var prev := RetryMany(rows, idx, n - 1, step);
      var next := step(prev.rows[idx[n - 1]], n - 1);
      Retried(prev.rows[idx[n - 1] := next.row], prev.successes + if next.succeeded then 1 else 0)
  }

  /** The j-th retry of `retry_all_failed` gets `replies(j)` at `clock(j)`. */
  function RetryAllStep(replies: nat -> RemoteReply, clock: nat -> string): (Row, nat) -> Step {
    (row: Row, j: nat) => RetryStep(row, replies(j), clock(j))
  }

  /** One more retry of `retry_all_failed`: the next failed row is replaced
      by its retry with the next reply. */
  lemma RetryAllNext(rows: seq<Row>, idx: seq<nat>, n: nat, replies: nat -> RemoteReply, clock: nat -> string)
    requires n < |idx| && forall j :: 0 <= j < |idx| ==> idx[j] < |rows|
    ensures var prev := RetryMany(rows, idx, n, RetryAllStep(replies, clock));
            var s := RetryStep(prev.rows[idx[n]], replies(n), clock(n));
            RetryMany(rows, idx, n + 1, RetryAllStep(replies, clock))
              == Retried(prev.rows[idx[n] := s.row], prev.successes + if s.succeeded then 1 else 0)
  {
    var prev := RetryMany(rows, idx, n, RetryAllStep(replies, clock));
    assert RetryAllStep(replies, clock)(prev.rows[idx[n]], n) == RetryStep(prev.rows[idx[n]], replies(n), clock(n));
  }

  /** How many of the first `n` replies make a regrade succeed. */
  function CountSucceeding(n: nat, replies: nat -> RemoteReply): nat {
    if n == 0 then 0
    else CountSucceeding(n - 1, replies) + (if RegradeSucceeds(replies(n - 1)) then 1 else 0)
  }

  function RetryAllMessage(total: nat, success: nat): string
    requires success <= total
  {
    "\U{2705} Retried " + NatToString(total) + " files. Success: " + NatToString(success)
      + ", Failed: " + NatToString(total - success)
  }

  function SingleMessage(fileName: string, update: Update, error: string): string {
    match update
    case Interrupted(m) => RetryErrorPrefix + m
    case Finished(status) =>
      if status == "success" then "\U{2705} Successfully re-graded " + fileName
      else "\U{274C} Failed to re-grade " + fileName + ": " + error
  }

  predicate AllWellFormed(rows: seq<Row>) {
    forall i :: 0 <= i < |rows| ==> WellFormed(rows[i])
  }

  /** Replacing one row by a well-formed row keeps the table well formed. */
  lemma ReplaceKeepsWellFormed(rows: seq<Row>, i: nat, r: Row)
    requires AllWellFormed(rows) && i < |rows| && WellFormed(r)
    ensures AllWellFormed(rows[i := r])
  {
  }

  /** A retry keeps the row well formed, with its path and name. */
  lemma RetryStepWellFormed(row: Row, reply: RemoteReply, now: string)
    requires WellFormed(row)
    ensures var r := RetryStep(row, reply, now).row;
            && WellFormed(r)
            && HasValue(r, Fixed(FilePath), row[Fixed(FilePath)])
            && HasValue(r, Fixed(FileName), row[Fixed(FileName)])
  {
    RegradeWellFormed(row, GradeFile(reply), now);
  }

  /** The statements of `_perform_grading_and_update_row` that rewrite the
      dict: drop the `ex_` keys, write the outcome, stamp the time. */
  method RegradeRow(row: Row, outcome: GradeOutcome, now: string) returns (result: Flattened)
    ensures result == Regrade(row, outcome, now)
  {
    var r := ClearExKeys(row);
    if outcome.Success? {
      r := r[Fixed(Status) := Text("success")];
      r := r[Fixed(Error) := Text("")];
      result := FlattenResultsToRow(outcome.data, r);
      if result.RaisedMidway? {
        return;
      }
      r := result.row;
    } else {
      r := r[Fixed(Status) := Text("failed")];
      r := r[Fixed(Error) := Text(outcome.error)];
      r := r[Fixed(Grade) := Text("")];
      r := r[Fixed(Feedback) := Text("")];
      r := r[Fixed(IsComplete) := Flag(false)];
      r := r[Fixed(TotalGrade) := Number(0.0)];
      r := r[Fixed(MaxScore) := Count(0)];
    }
    r := r[Fixed(Timestamp) := Text(now)];
    result := Written(r);
  }

  // ---------------------------------------------------------------------------
  // What the retries promise
  // ---------------------------------------------------------------------------

  /** A row whose index is not among the retried ones is left as it was. */
  lemma {:induction false} RetryManyKeepsOthers(rows: seq<Row>, idx: seq<nat>, n: nat, step: (Row, nat) -> Step, k: nat)
    requires n <= |idx| && forall j :: 0 <= j < |idx| ==> idx[j] < |rows|
    requires k < |rows| && forall j :: 0 <= j < n ==> idx[j] != k
    ensures RetryMany(rows, idx, n, step).rows[k] == rows[k]
  {
    if n > 0 {
      RetryManyKeepsOthers(rows, idx, n - 1, step, k);
    }
  }

  /** With distinct indices, the row at the j-th index is that row retried
      once, with the j-th reply. */
  lemma {:induction false} RetryManyRetried(rows: seq<Row>, idx: seq<nat>, n: nat, step: (Row, nat) -> Step, j: nat)
    requires n <= |idx| && forall k :: 0 <= k < |idx| ==> idx[k] < |rows|
    requires forall a, b :: 0 <= a < b < |idx| ==> idx[a] < idx[b]
    requires j < n
    ensures RetryMany(rows, idx, n, step).rows[idx[j]] == step(rows[idx[j]], j).row
  {
    if j == n - 1 {
      RetryManyKeepsOthers(rows, idx, n - 1, step, idx[j]);
    } else {
      RetryManyRetried(rows, idx, n - 1, step, j);
    }
  }

  /** Whether a retry counts as a success depends on the reply alone. */
  lemma RetryStepSucceeds(row: Row, reply: RemoteReply, now: string)
    ensures RetryStep(row, reply, now).succeeded <==> RegradeSucceeds(reply)
  {
    var outcome := GradeFile(reply);
    if outcome.Success? {
      if AllObjects(outcome.data) {
        RegradeSucceeded(row, outcome.data, now);
      } else {
        RegradeRaised(row, outcome.data, now);
      }
    }
  }

  /** After a retry the row says `success` exactly when the retry succeeded;
      a retry interrupted by an exception leaves the row `failed` with the
      critical error. */
  lemma RetryStepStatus(row: Row, reply: RemoteReply, now: string)
    ensures var r := RetryStep(row, reply, now).row;
            HasValue(r, Fixed(Status), Text("success")) <==> RegradeSucceeds(reply)
    ensures var f := Regrade(row, GradeFile(reply), now); var r := RetryStep(row, reply, now).row;
            f.RaisedMidway? ==>
              HasValue(r, Fixed(Status), Text("failed")) && HasValue(r, Fixed(Error), Text(CriticalPrefix + f.message))
  {
    var outcome := GradeFile(reply);
    if outcome.Success? {
      if AllObjects(outcome.data) {
        RegradeSucceeded(row, outcome.data, now);
      } else {
        RegradeRaised(row, outcome.data, now);
      }
    } else {
      RegradeFailed(row, outcome.error, now);
    }
  }

  /** The success count of `retry_all_failed` is the number of replies whose
      regrade succeeds. */
  lemma {:induction false} RetryAllSuccesses(rows: seq<Row>, idx: seq<nat>, n: nat, replies: nat -> RemoteReply, clock: nat -> string)
    requires n <= |idx| && forall j :: 0 <= j < |idx| ==> idx[j] < |rows|
    ensures RetryMany(rows, idx, n, RetryAllStep(replies, clock)).successes == CountSucceeding(n, replies)
  {
    if n > 0 {
      RetryAllSuccesses(rows, idx, n - 1, replies, clock);
      var prev := RetryMany(rows, idx, n - 1, RetryAllStep(replies, clock));
      RetryAllNext(rows, idx, n - 1, replies, clock);
      RetryStepSucceeds(prev.rows[idx[n - 1]], replies(n - 1), clock(n - 1));
    }
  }

  /** Retrying keeps every row well formed. */
  lemma {:induction false} RetryAllWellFormed(rows: seq<Row>, idx: seq<nat>, n: nat, replies: nat -> RemoteReply, clock: nat -> string)
    requires n <= |idx| && forall j :: 0 <= j < |idx| ==> idx[j] < |rows|
    requires AllWellFormed(rows)
    ensures AllWellFormed(RetryMany(rows, idx, n, RetryAllStep(replies, clock)).rows)
  {
    if n > 0 {
      RetryAllWellFormed(rows, idx, n - 1, replies, clock);
      var prev := RetryMany(rows, idx, n - 1, RetryAllStep(replies, clock));
      RetryAllNext(rows, idx, n - 1, replies, clock);
      RetryStepWellFormed(prev.rows[idx[n - 1]], replies(n - 1), clock(n - 1));
    }
  }

  /** `retry_all_failed` leaves every row that was not `failed` as it was,
      and replaces the k-th failed row by its retry with the k-th reply. */
  lemma RetryAllRows(rows: seq<Row>, replies: nat -> RemoteReply, clock: nat -> string, i: nat)
    requires i < |rows|
    ensures var idx := FailedIndices(rows);
            var after := RetryMany(rows, idx, |idx|, RetryAllStep(replies, clock)).rows;
            && (!HasValue(rows[i], Fixed(Status), Text("failed")) ==> after[i] == rows[i])
            && (forall k :: 0 <= k < |idx| && idx[k] == i ==> after[i] == RetryStep(rows[i], replies(k), clock(k)).row)
  {
    var idx := FailedIndices(rows);
    var step := RetryAllStep(replies, clock);
    if !HasValue(rows[i], Fixed(Status), Text("failed")) {
      assert i !in idx;
      RetryManyKeepsOthers(rows, idx, |idx|, step, i);
    }
    forall k | 0 <= k < |idx| && idx[k] == i
      ensures RetryMany(rows, idx, |idx|, step).rows[i] == RetryStep(rows[i], replies(k), clock(k)).row
    {
      RetryManyRetried(rows, idx, |idx|, step, k);
    }
  }

  /** A single retry whose flattening raises is reported as an error, yet
      the row keeps the `success` status and empty error written before the
      exception; `retry_all_failed` marks such a row `failed` instead. */
  lemma SingleRetryInterrupted(row: Row, reply: RemoteReply, now: string)
    requires GradeFile(reply).Success? && !RegradeSucceeds(reply)
    ensures var f := Regrade(row, GradeFile(reply), now);
            && f.RaisedMidway?
            && HasValue(f.row, Fixed(Status), Text("success")) && HasValue(f.row, Fixed(Error), Text(""))
            && HasValue(RetryStep(row, reply, now).row, Fixed(Status), Text("failed"))
  {
    RegradeRaised(row, GradeFile(reply).data, now);
    RetryStepStatus(row, reply, now);
  }

  /** The results list the UI keeps between a batch and its retries. */
  class ResultTable {
    var rows: seq<Row>

    predicate Valid()
      reads this
    {
      AllWellFormed(rows)
    }

    /** The table starts from the rows of a finished batch, which
        `Session.BatchRowsWellFormed` shows are well formed. */
    constructor (initial: seq<Row>)
      requires AllWellFormed(initial)
      ensures Valid()
      ensures rows == initial
    {
      rows := initial;
    }

    /** `_perform_grading_and_update_row`: the row at `i` is regraded in
        place; when flattening raises, the row keeps what was written before
        the exception. */
    method UpdateRow(i: nat, reply: RemoteReply, now: string) returns (result: Update)
      requires i < |rows| && Fixed(FilePath) in rows[i]
      modifies this
      ensures var f := Regrade(old(rows)[i], GradeFile(reply), now);
              && rows == old(rows)[i := f.row]
              && result == (if f.Written? then Finished(StatusOf(GradeFile(reply))) else Interrupted(f.message))
    {
      var outcome := GradeFile(reply);
      var f := RegradeRow(rows[i], outcome, now);
      rows := rows[i := f.row];
      if f.RaisedMidway? {
        return Interrupted(f.message);
      }
      result := Finished(if outcome.Success? then "success" else "failed");
    }

    /** `retry_all_failed`: the guards, then one regrade per row that was
        `failed` when the retry began (the j-th with `replies(j)` at
        `clock(j)`). */
    method RetryAllFailed(apiKey: string, problem: string, replies: nat -> RemoteReply, clock: nat -> string)
      returns (message: string)
      requires Valid()
      modifies this
      ensures Valid()
      ensures apiKey == [] ==> message == NoApiKeyMessage && rows == old(rows)
      ensures apiKey != [] && Strip(problem) == [] ==> message == NoProblemMessage && rows == old(rows)
      ensures apiKey != [] && Strip(problem) != [] && old(rows) == [] ==> message == NoResultsMessage && rows == old(rows)
      ensures apiKey != [] && Strip(problem) != [] && old(rows) != [] && FailedIndices(old(rows)) == [] ==>
                message == NoFailedMessage && rows == old(rows)
      ensures apiKey != [] && Strip(problem) != [] && FailedIndices(old(rows)) != [] ==>
                var idx := FailedIndices(old(rows));
                var res := RetryMany(old(rows), idx, |idx|, RetryAllStep(replies, clock));
                && rows == res.rows
                && message == RetryAllMessage(|idx|, res.successes)
    {
      if apiKey == [] {
        return NoApiKeyMessage;
      }
      if Strip(problem) == [] {
        return NoProblemMessage;
      }
      if rows == [] {
        return NoResultsMessage;
      }
      var failedIndices := FailedIndices(rows);
      if failedIndices == [] {
        return NoFailedMessage;
      }
      var successCount := RetryRows(failedIndices, replies, clock);
      message := RetryAllMessage(|failedIndices|, successCount);
    }

    /** The loop of `retry_all_failed`: the listed rows retried in order, the
        j-th with `replies(j)` at `clock(j)`; the number that succeeded. */
    method RetryRows(idx: seq<nat>, replies: nat -> RemoteReply, clock: nat -> string) returns (successCount: nat)
      requires AllWellFormed(rows) && forall j :: 0 <= j < |idx| ==> idx[j] < |rows|
      modifies this
      ensures AllWellFormed(rows)
      ensures Retried(rows, successCount) == RetryMany(old(rows), idx, |idx|, RetryAllStep(replies, clock))
    {
      ghost var start := rows;
      successCount := 0;
      var j := 0;
      while j < |idx|
        invariant 0 <= j <= |idx|
        invariant RetryMany(start, idx, j, RetryAllStep(replies, clock)) == Retried(rows, successCount)
      {
        RetryAllWellFormed(start, idx, j, replies, clock);
        var succeeded := RetryOne(idx[j], replies(j), clock(j));
        if succeeded {
          successCount := successCount + 1;
        }
        RetryAllNext(start, idx, j, replies, clock);
        j := j + 1;
      }
      RetryAllWellFormed(start, idx, j, replies, clock);
    }

    /** The body of the loop of `retry_all_failed`: one regrade, with the
        exception caught and recorded in the row. */
    method RetryOne(rowIndex: nat, reply: RemoteReply, now: string) returns (succeeded: bool)
      requires rowIndex < |rows| && Fixed(FilePath) in rows[rowIndex]
      modifies this
      ensures var step := RetryStep(old(rows)[rowIndex], reply, now);
              && rows == old(rows)[rowIndex := step.row]
              && succeeded == step.succeeded
    {
      var status := UpdateRow(rowIndex, reply, now);
      succeeded := false;
      if status.Interrupted? {
        var row := rows[rowIndex];
        row := row[Fixed(Status) := Text("failed")];
        row := row[Fixed(Error) := Text(CriticalPrefix + status.message)];
        rows := rows[rowIndex := row];
      } else if status.status == "success" {
        succeeded := true;
      }
    }

    /** `retry_single_grading` for a click on the cell at (`rowIndex`,
        `column`) of the displayed table. */
    method RetrySingle(apiKey: string, problem: string, rowIndex: nat, column: int, reply: RemoteReply, now: string)
      returns (message: string)
      requires Valid()
      modifies this
      ensures Valid()
      ensures apiKey == [] ==> message == NoApiKeyMessage && rows == old(rows)
      ensures apiKey != [] && Strip(problem) == [] ==> message == NoProblemMessage && rows == old(rows)
      ensures apiKey != [] && Strip(problem) != [] && column != RetryColumn ==>
                message == NotRetryColumnMessage && rows == old(rows)
      ensures apiKey != [] && Strip(problem) != [] && column == RetryColumn && rowIndex >= |old(rows)| ==>
                message == InvalidSelectionMessage && rows == old(rows)
      ensures apiKey != [] && Strip(problem) != [] && column == RetryColumn && rowIndex < |old(rows)| ==>
                var f := Regrade(old(rows)[rowIndex], GradeFile(reply), now);
                var update := if f.Written? then Finished(StatusOf(GradeFile(reply))) else Interrupted(f.message);
                && rows == old(rows)[rowIndex := f.row]
                && message == SingleMessage(old(rows)[rowIndex][Fixed(FileName)].s, update, rows[rowIndex][Fixed(Error)].s)
    {
      if apiKey == [] {
        return NoApiKeyMessage;
      }
      if Strip(problem) == [] {
        return NoProblemMessage;
      }
      if column != RetryColumn {
        return NotRetryColumnMessage;
      }
      if rows == [] || rowIndex >= |rows| {
        return InvalidSelectionMessage;
      }
      ghost var before := rows;
      var fileName := rows[rowIndex][Fixed(FileName)].s;
      RegradeWellFormed(rows[rowIndex], GradeFile(reply), now);
      var status := UpdateRow(rowIndex, reply, now);
      ReplaceKeepsWellFormed(before, rowIndex, rows[rowIndex]);
      message := SingleMessage(fileName, status, rows[rowIndex][Fixed(Error)].s);
    }
  }
}
