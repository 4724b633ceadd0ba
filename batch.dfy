/**
 * `process_submissions`: the guards on the form's inputs, the scan, one row
 * per file in the order of the sorted list, and the closing report with the
 * success and failure counts. The remote language model's reply to the i-th file is
 * `replies(i)` and the time stamped on its row is `clock(i)`; `stamp` is the
 * time text in the results file's name.
 */
module Batch {
  import opened Wrappers
  import opened Strings
  import opened Grading
  import opened Rows
  import opened Scanner

  const NoApiKeyMessage := "Please provide a Gemini API key"
  const NoFolderMessage := "Please provide a valid folder path for submissions"
  const NoProblemMessage := "Please paste the exercise problem statement(s)"
  const NoFilesPrefix := "No submission files found with extensions: "
  const ErrorPrefix := "\U{274C} Error: "

  /** What the batch hands back: a message alone, or the message with the
      rows and the path of the results file. */
  datatype BatchReply =
    | Rejected(message: string)
    | Completed(message: string, rows: seq<Row>, outputPath: string)

  /** The rows built so far, or the message of the exception that ended the batch. */
  datatype Built = Built(rows: seq<Row>) | Crashed(message: string)

  /** The sorted file list the batch grades. */
  function SubmissionFiles(folder: string, extensionText: string, glob: string -> seq<string>): seq<string> {
    SortStrings(Found(folder, Extensions(extensionText), glob))
  }

  /** The row each file gets, in the order of the files. */
  function FileRows(files: seq<string>, replies: nat -> RemoteReply, clock: nat -> string): (fs: seq<Flattened>)
    ensures |fs| == |files|
    ensures forall i :: 0 <= i < |files| ==> fs[i] == NewRow(files[i], GradeFile(replies(i)), clock(i))
  {
    seq(|files|, i requires 0 <= i < |files| => NewRow(files[i], GradeFile(replies(i)), clock(i)))
  }

  /** The rows in order; the first row whose flattening raised ends the batch. */
  function Collect(fs: seq<Flattened>): Built {
    if fs == [] then Built([])
    else
      var n := |fs| - 1;
      match Collect(fs[..n])
      case Crashed(m) => Crashed(m)
      case Built(rows) =>
        match fs[n]
        case Written(r) => Built(rows + [r])
        case RaisedMidway(_, m) => Crashed(m)
  }

  function BuildRows(files: seq<string>, replies: nat -> RemoteReply, clock: nat -> string): Built {
    Collect(FileRows(files, replies, clock))
  }

  /** How many rows carry the given status. */
  function CountStatus(rows: seq<Row>, status: string): (n: nat)
    ensures n <= |rows|
  {
    if rows == [] then 0
    else CountStatus(rows[..|rows| - 1], status) + (if HasValue(rows[|rows| - 1], Fixed(Status), Text(status)) then 1 else 0)
  }

  /** How many of the first `n` replies grading turns into a success. */
  function CountGraded(n: nat, replies: nat -> RemoteReply): nat {
    if n == 0 then 0
    else CountGraded(n - 1, replies) + (if GradeFile(replies(n - 1)).Success? then 1 else 0)
  }

  /** `os.path.join(folder, f'grading_results_{stamp}.csv')`. */
  function ResultsPath(folder: string, stamp: string): string {
    PathJoin(folder, "grading_results_" + stamp + ".csv")
  }

  /** In a folder given without a trailing separator, the results file sits
      directly inside it, named after the timestamp. */
  lemma ResultsPathShape(folder: string, stamp: string)
    requires folder != [] && folder[|folder| - 1] != '/'
    ensures ResultsPath(folder, stamp) == folder + "/grading_results_" + stamp + ".csv"
  {
    var name := "grading_results_" + stamp + ".csv";
    assert !StartsWith(name, "/") by { assert name[..1][0] == name[0] == 'g'; }
  }

  function ReportMessage(files: nat, success: nat, failed: nat, path: string): string {
    "\U{2705} Processed " + NatToString(files) + " submissions. Success: " + NatToString(success)
      + ", Failed: " + NatToString(failed) + "\nResults saved to: " + path
  }

  /** The guards, in the order the form's inputs are examined. */
  predicate InputsAccepted(apiKey: string, folder: string, folderExists: bool, problem: string) {
    apiKey != [] && folder != [] && folderExists && Strip(problem) != []
  }

  /** `process_submissions`. */
  method ProcessSubmissions(apiKey: string, folder: string, folderExists: bool, extensionText: string,
                            problem: string, glob: string -> seq<string>,
                            replies: nat -> RemoteReply, clock: nat -> string, stamp: string)
    returns (reply: BatchReply)
    ensures apiKey == [] ==> reply == Rejected(NoApiKeyMessage)
    ensures apiKey != [] && (folder == [] || !folderExists) ==> reply == Rejected(NoFolderMessage)
    ensures apiKey != [] && folder != [] && folderExists && Strip(problem) == [] ==> reply == Rejected(NoProblemMessage)
    ensures InputsAccepted(apiKey, folder, folderExists, problem) ==>
              var files := SubmissionFiles(folder, extensionText, glob);
              && (files == [] ==> reply == Rejected(NoFilesPrefix + extensionText))
              && (files != [] ==>
                    match BuildRows(files, replies, clock)
                    case Crashed(m) => reply == Rejected(ErrorPrefix + m)
                    case Built(rows) =>
                      var path := ResultsPath(folder, stamp);
                      reply == Completed(ReportMessage(|files|, CountStatus(rows, "success"), CountStatus(rows, "failed"), path), rows, path))
  {
    if apiKey == [] {
      return Rejected(NoApiKeyMessage);
    }
    if folder == [] || !folderExists {
      return Rejected(NoFolderMessage);
    }
    if Strip(problem) == [] {
      return Rejected(NoProblemMessage);
    }
    var files := ScanFolder(folder, extensionText, glob);
    ScanResultUnique(folder, extensionText, glob, files);
    if files == [] {
      return Rejected(NoFilesPrefix + extensionText);
    }
    ghost var fs := FileRows(files, replies, clock);
    var results: seq<Row> := [];
    var i := 0;
    while i < |files|
      invariant 0 <= i <= |files|
      invariant Collect(fs[..i]) == Built(results)
    {
      var flattened := RowForFile(files[i], GradeFile(replies(i)), clock(i));
      assert fs[i] == flattened;
      CollectStep(fs, i, results);
      if flattened.RaisedMidway? {
        CrashPersists(fs, i + 1);
        return Rejected(ErrorPrefix + flattened.message);
      }
      results := results + [flattened.row];
      i := i + 1;
    }
    WholePrefix(fs);
    var path := ResultsPath(folder, stamp);
    var successCount := CountStatus(results, "success");
    var failedCount := CountStatus(results, "failed");
    reply := Completed(ReportMessage(|files|, successCount, failedCount, path), results, path);
  }

  /** The loop body of the batch: the dict for one file, with the outcome
      written into it. */
  method RowForFile(path: string, outcome: GradeOutcome, now: string) returns (flattened: Flattened)
    ensures flattened == NewRow(path, outcome, now)
  {
    var fileResult := BaseRow(path, now);
    if outcome.Success? {
      fileResult := fileResult[Fixed(Status) := Text("success")];
      fileResult := fileResult[Fixed(Error) := Text("")];
      flattened := FlattenResultsToRow(outcome.data, fileResult);
    } else {
      fileResult := fileResult[Fixed(Status) := Text("failed")];
      fileResult := fileResult[Fixed(Error) := Text(outcome.error)];
      fileResult := fileResult[Fixed(Grade) := Text("")];
      fileResult := fileResult[Fixed(Feedback) := Text("")];
      fileResult := fileResult[Fixed(IsComplete) := Flag(false)];
      fileResult := fileResult[Fixed(TotalGrade) := Number(0.0)];
      fileResult := fileResult[Fixed(MaxScore) := Count(0)];
      flattened := Written(fileResult);
    }
  }

  // ---------------------------------------------------------------------------
  // What the batch promises
  // ---------------------------------------------------------------------------

  /** Once a prefix of the rows has crashed, the whole batch has, with the
      same message. */
  lemma {:induction false} CrashPersists(fs: seq<Flattened>, k: nat)
    requires k <= |fs| && Collect(fs[..k]).Crashed?
    ensures Collect(fs) == Collect(fs[..k])
    decreases |fs| - k
  {
    if k < |fs| {
      assert fs[..k + 1][..k] == fs[..k];
      CrashPersists(fs, k + 1);
    } else {
      assert fs[..k] == fs;
    }
  }

  /** One more row: kept, or the end of the batch. */
  lemma CollectStep(fs: seq<Flattened>, i: nat, rows: seq<Row>)
    requires i < |fs| && Collect(fs[..i]) == Built(rows)
    ensures fs[i].Written? ==> Collect(fs[..i + 1]) == Built(rows + [fs[i].row])
    ensures fs[i].RaisedMidway? ==> Collect(fs[..i + 1]) == Crashed(fs[i].message)
  {
    assert fs[..i + 1][..i] == fs[..i];
  }

  /** Kept as a lemma of its own: stated inline, this slice fact makes the
      proof of `ProcessSubmissions` too costly. */
  lemma WholePrefix(fs: seq<Flattened>)
    ensures fs[..|fs|] == fs
  {
  }

  /** A batch that finishes keeps every row, in order. */
  lemma {:induction false} CollectKeepsRows(fs: seq<Flattened>)
    requires Collect(fs).Built?
    ensures |Collect(fs).rows| == |fs|
    ensures forall i :: 0 <= i < |fs| ==> fs[i].Written? && Collect(fs).rows[i] == fs[i].row
  {
    if fs != [] {
      var n := |fs| - 1;
      CollectKeepsRows(fs[..n]);
      assert forall i :: 0 <= i < n ==> fs[..n][i] == fs[i];
    }
  }

  /** A batch crashes exactly when some row raises, and then with the
      message of the first that does. */
  lemma {:induction false} CollectCrashes(fs: seq<Flattened>)
    ensures Collect(fs).Crashed? <==> exists i :: 0 <= i < |fs| && fs[i].RaisedMidway?
    ensures Collect(fs).Crashed? ==>
            exists i :: 0 <= i < |fs| && fs[i].RaisedMidway? && Collect(fs).message == fs[i].message
                        && forall j :: 0 <= j < i ==> fs[j].Written?
  {
    if fs != [] {
      var n := |fs| - 1;
      var prefix := fs[..n];
      CollectCrashes(prefix);
      assert forall i :: 0 <= i < n ==> prefix[i] == fs[i];
    }
  }

  /** A finished batch has one row per file, in the order of the files, each
      the row built from that file's reply. */
  lemma BuiltRowPerFile(files: seq<string>, replies: nat -> RemoteReply, clock: nat -> string, i: nat)
    requires BuildRows(files, replies, clock).Built? && i < |files|
    ensures var rows := BuildRows(files, replies, clock).rows;
            && |rows| == |files|
            && NewRow(files[i], GradeFile(replies(i)), clock(i)).Written?
            && rows[i] == NewRow(files[i], GradeFile(replies(i)), clock(i)).row
  {
    CollectKeepsRows(FileRows(files, replies, clock));
  }

  /** Every row of a finished batch is well formed and records its file; it
      says `success` exactly when grading that file succeeded. */
  lemma BuiltRowsWellFormed(files: seq<string>, replies: nat -> RemoteReply, clock: nat -> string, i: nat)
    requires BuildRows(files, replies, clock).Built? && i < |files|
    ensures var rows := BuildRows(files, replies, clock).rows;
            && i < |rows|
            && WellFormed(rows[i])
            && HasValue(rows[i], Fixed(FilePath), Text(files[i]))
            && HasValue(rows[i], Fixed(FileName), Text(Basename(files[i])))
            && (HasValue(rows[i], Fixed(Status), Text("success")) <==> GradeFile(replies(i)).Success?)
  {
    BuiltRowPerFile(files, replies, clock, i);
    NewRowWellFormed(files[i], GradeFile(replies(i)), clock(i));
  }

  /** Every row is counted once: as a success or as a failure. */
  lemma {:induction false} CountsAddUp(rows: seq<Row>)
    requires forall i :: 0 <= i < |rows| ==> WellFormed(rows[i])
    ensures CountStatus(rows, "success") + CountStatus(rows, "failed") == |rows|
  {
    if rows != [] {
      var n := |rows| - 1;
      assert forall i :: 0 <= i < n ==> rows[..n][i] == rows[i];
      CountsAddUp(rows[..n]);
      assert WellFormed(rows[n]);
    }
  }

  /** Rows that say `success` exactly for the graded replies are counted as
      the graded replies are. */
  lemma {:induction false} CountSuccesses(rows: seq<Row>, replies: nat -> RemoteReply)
    requires forall i :: 0 <= i < |rows| ==> (HasValue(rows[i], Fixed(Status), Text("success")) <==> GradeFile(replies(i)).Success?)
    ensures CountStatus(rows, "success") == CountGraded(|rows|, replies)
  {
    if rows != [] {
      var n := |rows| - 1;
      assert forall i :: 0 <= i < n ==> rows[..n][i] == rows[i];
      CountSuccesses(rows[..n], replies);
    }
  }

  /** The success count of a finished batch is the number of files whose
      grading succeeded, and the two counts add up to the number of files. */
  lemma BatchCounts(files: seq<string>, replies: nat -> RemoteReply, clock: nat -> string)
    requires BuildRows(files, replies, clock).Built?
    ensures var rows := BuildRows(files, replies, clock).rows;
            && CountStatus(rows, "success") == CountGraded(|files|, replies)
            && CountStatus(rows, "success") + CountStatus(rows, "failed") == |files|
  {
    var rows := BuildRows(files, replies, clock).rows;
    CollectKeepsRows(FileRows(files, replies, clock));
    forall i | 0 <= i < |rows|
      ensures WellFormed(rows[i])
      ensures HasValue(rows[i], Fixed(Status), Text("success")) <==> GradeFile(replies(i)).Success?
    {
      BuiltRowsWellFormed(files, replies, clock, i);
    }
    CountsAddUp(rows);
    CountSuccesses(rows, replies);
  }
}
