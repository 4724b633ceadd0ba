/**
 * One row of the grading results (a dict in main.py) and the three steps that
 * write it: `_flatten_results_to_row`, the removal of stale `ex_` keys and the
 * success/failure branches shared by `process_submissions` and
 * `_perform_grading_and_update_row`.
 */
module Rows {
  import opened Strings
  import opened Json
  import opened Grading

  /** One exercise's part of the UI feedback text:
      f"**Exercise {id} (Grade: {grade}):**\n{feedback}\n". */
  datatype Block = Block(id: Json, grade: Json, feedback: Json)

  /** A value stored under one key of a row. Number formatting is not
      modelled, so the two texts built by f-strings stay structured. */
  datatype Cell =
    | Text(s: string)                 // a str the program writes itself
    | Number(r: real)                 // total_grade
    | Count(n: nat)                   // max_score
    | Flag(b: bool)                   // is_complete
    | Ratio(total: real, outOf: nat)  // grade: f"{total} / {outOf}"
    | Summary(blocks: seq<Block>)     // feedback: the blocks joined by "\n"
    | Raw(j: Json)                    // an exercise field copied from the reply

  /** The columns the program itself names. */
  datatype Field =
    | FilePath | FileName | Timestamp | RetryButton | Status | Error
    | Grade | Feedback | IsComplete | TotalGrade | MaxScore

  function FieldName(f: Field): string {
    match f
    case FilePath => "file_path"
    case FileName => "file_name"
    case Timestamp => "timestamp"
    case RetryButton => "retry_button"
    case Status => "status"
    case Error => "error"
    case Grade => "grade"
    case Feedback => "feedback"
    case IsComplete => "is_complete"
    case TotalGrade => "total_grade"
    case MaxScore => "max_score"
  }

  /** A key of a row: one of the fixed columns, or a column whose text is
      built from the language model's reply. */
  datatype Key = Fixed(field: Field) | Column(name: string)

  /** The key as the dict holds it. */
  function KeyText(k: Key): string {
    match k
    case Fixed(f) => FieldName(f)
    case Column(name) => name
  }

  type Row = map<Key, Cell>

  const RetryLabel := "\U{1F504} Retry"
  const NoExercisesFeedback := "No exercises found or graded."

  /** `k.startswith('ex_')`: the per-exercise columns. No fixed column starts
      that way (`FixedNotEx`), so only built columns can. */
  predicate IsExKey(k: Key) {
    k.Column? && StartsWith(k.name, "ex_")
  }

  function ExKeys(row: Row): set<Key> {
    set k | k in row && IsExKey(k)
  }

  lemma NotExText(t: string)
    requires |t| >= 2 && (t[0] != 'e' || t[1] != 'x')
    ensures !StartsWith(t, "ex_")
  {
    if |t| >= 3 {
      assert t[..3][0] == t[0] && t[..3][1] == t[1];
    }
  }

  /** `IsExKey` is `startswith('ex_')` on the key's text. */
  lemma FixedNotEx(k: Key)
    ensures IsExKey(k) <==> StartsWith(KeyText(k), "ex_")
  {
    if k.Fixed? {
      NotExText(KeyText(k));
    }
  }

  /** The keys `_flatten_results_to_row` writes itself, besides the `ex_` ones. */
  const AggregateKeys: set<Key> := {Fixed(Grade), Fixed(Feedback), Fixed(IsComplete), Fixed(TotalGrade), Fixed(MaxScore)}

  // ---------------------------------------------------------------------------
  // Reading one entry of the reply
  // ---------------------------------------------------------------------------

  /** The four fields read from one entry, with the defaults of its `get`
      calls; `name` is `str(id)`, the text the column names are built from. */
  datatype Exercise = Exercise(id: Json, name: string, attempted: Json, grade: Json, feedback: Json)

  function ExerciseOf(entry: Json): (e: Exercise)
    requires entry.JObject?
    ensures e.name == Str(e.id)
    ensures !HasKey(entry.fields, "exercise_id") ==> e.id == JStr("N/A") && e.name == "N/A"
    ensures !HasKey(entry.fields, "is_attempted") ==> e.attempted == JBool(false)
    ensures !HasKey(entry.fields, "grade") ==> e.grade == JInt(0)
    ensures !HasKey(entry.fields, "feedback") ==> e.feedback == JStr("No feedback.")
    ensures HasKey(entry.fields, "exercise_id") ==> IsLastValue(entry.fields, "exercise_id", e.id)
    ensures HasKey(entry.fields, "is_attempted") ==> IsLastValue(entry.fields, "is_attempted", e.attempted)
    ensures HasKey(entry.fields, "grade") ==> IsLastValue(entry.fields, "grade", e.grade)
    ensures HasKey(entry.fields, "feedback") ==> IsLastValue(entry.fields, "feedback", e.feedback)
  {
    var id := Get(entry.fields, "exercise_id", JStr("N/A"));
    Exercise(id, Str(id),
             Get(entry.fields, "is_attempted", JBool(false)),
             Get(entry.fields, "grade", JInt(0)),
             Get(entry.fields, "feedback", JStr("No feedback.")))
  }

  /** Every entry is a dict, so `ex.get` succeeds on each. */
  predicate AllObjects(data: seq<Json>) {
    forall i :: 0 <= i < |data| ==> data[i].JObject?
  }

  /** The entries as the loop reads them. */
  function Exercises(data: seq<Json>): (es: seq<Exercise>)
    requires AllObjects(data)
    ensures |es| == |data|
    ensures forall i :: 0 <= i < |data| ==> es[i] == ExerciseOf(data[i])
  {
    seq(|data|, i requires 0 <= i < |data| => ExerciseOf(data[i]))
  }

  /** Reading one more entry appends its exercise. */
  lemma ExercisesSnoc(data: seq<Json>, i: nat)
    requires i < |data| && AllObjects(data[..i]) && data[i].JObject?
    ensures AllObjects(data[..i + 1])
    ensures Exercises(data[..i + 1]) == Exercises(data[..i]) + [ExerciseOf(data[i])]
  {
    assert forall j :: 0 <= j < i ==> data[..i + 1][j] == data[..i][j];
  }

  /** What one grade adds to `total_score`: its value if it is a number, else 0. */
  function Contribution(grade: Json): real {
    if IsNumber(grade) then NumberValue(grade) else 0.0
  }

  /** `str(e)` of the AttributeError that `ex.get` raises on an entry that is not a dict. */
  function NoGetMessage(entry: Json): string {
    "'" + TypeName(entry) + "' object has no attribute 'get'"
  }

  function GradeKey(e: Exercise): Key { Column("ex_" + e.name + "_grade") }
  function FeedbackKey(e: Exercise): Key { Column("ex_" + e.name + "_feedback") }
  function AttemptedKey(e: Exercise): Key { Column("ex_" + e.name + "_attempted") }

  function EntryKeys(e: Exercise): set<Key> {
    {GradeKey(e), FeedbackKey(e), AttemptedKey(e)}
  }

  // ---------------------------------------------------------------------------
  // The accumulators of the loop, as functions of the exercises read so far
  // ---------------------------------------------------------------------------

  function Total(es: seq<Exercise>): real {
    if es == [] then 0.0 else Total(es[..|es| - 1]) + Contribution(es[|es| - 1].grade)
  }

  predicate AllAttempted(es: seq<Exercise>) {
    es == [] || (AllAttempted(es[..|es| - 1]) && Truthy(es[|es| - 1].attempted))
  }

  function Blocks(es: seq<Exercise>): seq<Block> {
    if es == [] then []
    else
      var e := es[|es| - 1];
      Blocks(es[..|es| - 1]) + [Block(e.id, e.grade, e.feedback)]
  }

  /** The three dynamic columns of one exercise, written in the source's order. */
  function WriteExercise(row: Row, e: Exercise): Row {
    row[GradeKey(e) := Raw(e.grade)][FeedbackKey(e) := Raw(e.feedback)][AttemptedKey(e) := Raw(e.attempted)]
  }

  /** The row after the dynamic columns of every exercise are written, in order. */
  function WriteExercises(row: Row, es: seq<Exercise>): Row {
    if es == [] then row else WriteExercise(WriteExercises(row, es[..|es| - 1]), es[|es| - 1])
  }

  /** The keys the exercises' dynamic columns use. */
  function ExerciseKeys(es: seq<Exercise>): set<Key> {
    if es == [] then {} else ExerciseKeys(es[..|es| - 1]) + EntryKeys(es[|es| - 1])
  }

  /** The index of the first entry that is not a dict, or `|data|` if there is none. */
  function FirstNonObject(data: seq<Json>): (k: nat)
    ensures k <= |data|
    ensures AllObjects(data[..k])
    ensures k < |data| ==> !data[k].JObject?
  {
    if data == [] || !data[0].JObject? then 0
    else
      var k := 1 + FirstNonObject(data[1..]);
      assert forall i :: 1 <= i < k ==> data[..k][i] == data[1..][..k - 1][i - 1];
      k
  }

  lemma FirstNonObjectUnique(data: seq<Json>, k: nat)
    requires k <= |data| && AllObjects(data[..k])
    requires k < |data| ==> !data[k].JObject?
    ensures FirstNonObject(data) == k
  {
    var f := FirstNonObject(data);
    assert forall i :: 0 <= i < k ==> data[..k][i] == data[i];
    assert forall i :: 0 <= i < f ==> data[..f][i] == data[i];
  }

  /** The accumulators after one more exercise, in terms of those before it. */
  lemma ReadOneMore(row: Row, es: seq<Exercise>, e: Exercise)
    ensures Total(es + [e]) == Total(es) + Contribution(e.grade)
    ensures AllAttempted(es + [e]) == (AllAttempted(es) && Truthy(e.attempted))
    ensures Blocks(es + [e]) == Blocks(es) + [Block(e.id, e.grade, e.feedback)]
    ensures WriteExercises(row, es + [e]) == WriteExercise(WriteExercises(row, es), e)
  {
    assert (es + [e])[..|es|] == es;
  }

  // ---------------------------------------------------------------------------
  // _flatten_results_to_row
  // ---------------------------------------------------------------------------

  /** The row afterwards, and whether an entry made `ex.get` raise part-way. */
  datatype Flattened = Written(row: Row) | RaisedMidway(row: Row, message: string)

  /** The aggregate keys written once every entry has been read. */
  function Aggregates(row: Row, es: seq<Exercise>): Row {
    row[Fixed(Grade) := Ratio(Total(es), |es|)]
       [Fixed(Feedback) := Summary(Blocks(es))]
       [Fixed(IsComplete) := Flag(AllAttempted(es))]
       [Fixed(TotalGrade) := Number(Total(es))]
       [Fixed(MaxScore) := Count(|es|)]
  }

  function EmptyAggregates(row: Row): Row {
    row[Fixed(Grade) := Text("0 / 0")]
       [Fixed(Feedback) := Text(NoExercisesFeedback)]
       [Fixed(IsComplete) := Flag(false)]
       [Fixed(TotalGrade) := Number(0.0)]
       [Fixed(MaxScore) := Count(0)]
  }

  /** What `_flatten_results_to_row(data, row)` leaves in the dict. */
  function Flatten(data: seq<Json>, row: Row): Flattened {
    if data == [] then Written(EmptyAggregates(row))
    else
      var k := FirstNonObject(data);
      if k < |data| then RaisedMidway(WriteExercises(row, Exercises(data[..k])), NoGetMessage(data[k]))
      else
        assert data[..k] == data;
        Written(Aggregates(WriteExercises(row, Exercises(data)), Exercises(data)))
  }

  /** `_flatten_results_to_row`: one pass over the entries with the running
      total, count, all-attempted flag and feedback blocks, writing each
      entry's dynamic columns as it goes. */
  method FlattenResultsToRow(data: seq<Json>, row: Row) returns (result: Flattened)
    ensures result == Flatten(data, row)
  {
    if data == [] {
      return Written(EmptyAggregates(row));
    }
    var current := row;
    var totalScore := 0.0;
    var maxScore := 0;
    var allAttempted := true;
    var feedbackParts := [];
    var i := 0;
    ghost var es: seq<Exercise> := [];
    while i < |data|
      invariant 0 <= i <= |data|
      invariant AllObjects(data[..i]) && es == Exercises(data[..i])
      invariant current == WriteExercises(row, es)
      invariant totalScore == Total(es)
      invariant maxScore == i
      invariant allAttempted == AllAttempted(es)
      invariant feedbackParts == Blocks(es)
    {
      var entry := data[i];
      if !entry.JObject? {
        FlattenRaisedAt(data, row, i);
        return RaisedMidway(current, NoGetMessage(entry));
      }
      ExercisesSnoc(data, i);
      var ex := ExerciseOf(entry);
      ReadOneMore(row, es, ex);
      if IsNumber(ex.grade) {
        totalScore := totalScore + NumberValue(ex.grade);
      }
      maxScore := maxScore + 1;
      if !Truthy(ex.attempted) {
        allAttempted := false;
      }
      feedbackParts := feedbackParts + [Block(ex.id, ex.grade, ex.feedback)];
      current := WriteExercise(current, ex);
      es := es + [ex];
      i := i + 1;
    }
    assert data[..i] == data;
    FlattenWritten(data, row);
    current := current[Fixed(Grade) := Ratio(totalScore, maxScore)];
    current := current[Fixed(Feedback) := Summary(feedbackParts)];
    current := current[Fixed(IsComplete) := Flag(allAttempted)];
    current := current[Fixed(TotalGrade) := Number(totalScore)];
    current := current[Fixed(MaxScore) := Count(maxScore)];
    result := Written(current);
  }

  /** The two ways `Flatten` ends on a non-empty list. */
  lemma FlattenRaisedAt(data: seq<Json>, row: Row, i: nat)
    requires i < |data| && AllObjects(data[..i]) && !data[i].JObject?
    ensures Flatten(data, row) == RaisedMidway(WriteExercises(row, Exercises(data[..i])), NoGetMessage(data[i]))
  {
    FirstNonObjectUnique(data, i);
  }

  lemma FlattenWritten(data: seq<Json>, row: Row)
    requires data != [] && AllObjects(data)
    ensures Flatten(data, row) == Written(Aggregates(WriteExercises(row, Exercises(data)), Exercises(data)))
  {
    FirstNonObjectUnique(data, |data|);
    assert data[..|data|] == data;
  }

  // ---------------------------------------------------------------------------
  // What flattening promises
  // ---------------------------------------------------------------------------

  /** A non-empty list of dict entries sets `max_score` to the number of
      entries, `total_grade` and the grade text to the sum of the numeric
      grades, and `is_complete` to whether every entry is attempted. */
  lemma FlattenAggregates(data: seq<Json>, row: Row)
    requires data != [] && AllObjects(data)
    ensures Flatten(data, row).Written?
    ensures var r := Flatten(data, row).row; var es := Exercises(data);
            && HasValue(r, Fixed(MaxScore), Count(|data|))
            && HasValue(r, Fixed(TotalGrade), Number(Total(es)))
            && HasValue(r, Fixed(Grade), Ratio(Total(es), |data|))
            && HasValue(r, Fixed(IsComplete), Flag(AllAttempted(es)))
            && HasValue(r, Fixed(Feedback), Summary(Blocks(es)))
  {
    FirstNonObjectUnique(data, |data|);
    assert data[..|data|] == data;
    assert Flatten(data, row).row == Aggregates(WriteExercises(row, Exercises(data)), Exercises(data));
  }

  /** An empty list writes the fixed texts and zeros and no dynamic column. */
  lemma FlattenEmptyList(row: Row)
    ensures Flatten([], row).Written?
    ensures var r := Flatten([], row).row;
            && HasValue(r, Fixed(Grade), Text("0 / 0"))
            && HasValue(r, Fixed(Feedback), Text(NoExercisesFeedback))
            && HasValue(r, Fixed(IsComplete), Flag(false))
            && HasValue(r, Fixed(TotalGrade), Number(0.0))
            && HasValue(r, Fixed(MaxScore), Count(0))
            && ExKeys(r) == ExKeys(row)
  {
    var r := Flatten([], row).row;
    assert r.Keys == row.Keys + AggregateKeys;
  }

  /** A grade in the prompt's 0..1 scale, or one that is not a number at all. */
  predicate OnUnitScale(grade: Json) {
    IsNumber(grade) ==> 0.0 <= NumberValue(grade) <= 1.0
  }

  /** Each exercise is worth at most one point: with every grade on the unit
      scale, `0 <= total_grade <= max_score`. */
  lemma {:induction false} TotalWithinMaxScore(es: seq<Exercise>)
    requires forall i :: 0 <= i < |es| ==> OnUnitScale(es[i].grade)
    ensures 0.0 <= Total(es) <= |es| as real
  {
    if es != [] {
      var n := |es| - 1;
      assert forall i :: 0 <= i < n ==> es[..n][i] == es[i];
      TotalWithinMaxScore(es[..n]);
      assert OnUnitScale(es[n].grade);
    }
  }

  /** The values of the grades that are numbers, in reading order. */
  function NumericGrades(es: seq<Exercise>): seq<real> {
    if es == [] then []
    else
      var e := es[|es| - 1];
      NumericGrades(es[..|es| - 1]) + if IsNumber(e.grade) then [NumberValue(e.grade)] else []
  }

  /** The sum of a list of numbers, added from the front. */
  function Sum(xs: seq<real>): real {
    if xs == [] then 0.0 else xs[0] + Sum(xs[1..])
  }

  lemma {:induction false} SumSnoc(xs: seq<real>, x: real)
    ensures Sum(xs + [x]) == Sum(xs) + x
  {
    if xs != [] {
      assert (xs + [x])[1..] == xs[1..] + [x];
      SumSnoc(xs[1..], x);
    }
  }

  /** `total_grade` is the sum of the grades that are numbers, whatever else
      the list holds: any other grade adds nothing. */
  lemma {:induction false} TotalIsSumOfNumericGrades(es: seq<Exercise>)
    ensures Total(es) == Sum(NumericGrades(es))
  {
    if es != [] {
      var n := |es| - 1;
      var e := es[n];
      assert Total(es) == Total(es[..n]) + Contribution(e.grade);
      TotalIsSumOfNumericGrades(es[..n]);
      if IsNumber(e.grade) {
        SumSnoc(NumericGrades(es[..n]), NumberValue(e.grade));
      } else {
        assert NumericGrades(es[..n]) + [] == NumericGrades(es[..n]);
      }
    }
  }

  /** `is_complete` is the conjunction of the entries' `is_attempted` values. */
  lemma {:induction false} AllAttemptedIff(es: seq<Exercise>)
    ensures AllAttempted(es) <==> forall i :: 0 <= i < |es| ==> Truthy(es[i].attempted)
  {
    if es != [] {
      var n := |es| - 1;
      assert forall i :: 0 <= i < n ==> es[..n][i] == es[i];
      AllAttemptedIff(es[..n]);
    }
  }

  /** An entry without `is_attempted` counts as not attempted. */
  lemma MissingAttemptedIsNotAttempted(entry: Json)
    requires entry.JObject?
    requires forall i :: 0 <= i < |entry.fields| ==> entry.fields[i].0 != "is_attempted"
    ensures !Truthy(ExerciseOf(entry).attempted)
  {
  }

  // ---------------------------------------------------------------------------
  // The dynamic columns
  // ---------------------------------------------------------------------------

  lemma AffixInjective(x: string, y: string, suffix: string)
    ensures "ex_" + x + suffix == "ex_" + y + suffix <==> x == y
  {
    if "ex_" + x + suffix == "ex_" + y + suffix {
      assert x == ("ex_" + x + suffix)[3..3 + |x|];
      assert y == ("ex_" + y + suffix)[3..3 + |y|];
    }
  }

  /** The column names of two exercises coincide exactly when their ids print
      alike, and columns of different kinds never coincide. */
  lemma ColumnNames(a: Exercise, b: Exercise)
    ensures GradeKey(a) == GradeKey(b) <==> a.name == b.name
    ensures FeedbackKey(a) == FeedbackKey(b) <==> a.name == b.name
    ensures AttemptedKey(a) == AttemptedKey(b) <==> a.name == b.name
    ensures GradeKey(a) != FeedbackKey(b) && GradeKey(a) != AttemptedKey(b) && FeedbackKey(a) != AttemptedKey(b)
    ensures GradeKey(b) != FeedbackKey(a) && GradeKey(b) != AttemptedKey(a) && FeedbackKey(b) != AttemptedKey(a)
    ensures IsExKey(GradeKey(a)) && IsExKey(FeedbackKey(a)) && IsExKey(AttemptedKey(a))
  {
    AffixInjective(a.name, b.name, "_grade");
    AffixInjective(a.name, b.name, "_feedback");
    AffixInjective(a.name, b.name, "_attempted");
    var ga, fa, ta := GradeKey(a).name, FeedbackKey(a).name, AttemptedKey(a).name;
    var gb, fb, tb := GradeKey(b).name, FeedbackKey(b).name, AttemptedKey(b).name;
    assert ga[|ga| - 1] == 'e' && fa[|fa| - 1] == 'k' && ta[|ta| - 1] == 'd';
    assert gb[|gb| - 1] == 'e' && fb[|fb| - 1] == 'k' && tb[|tb| - 1] == 'd';
    assert ga[..3] == "ex_" && fa[..3] == "ex_" && ta[..3] == "ex_";
  }

  lemma WriteExerciseKeys(row: Row, e: Exercise)
    ensures WriteExercise(row, e).Keys == row.Keys + EntryKeys(e)
    ensures ExKeys(WriteExercise(row, e)) == ExKeys(row) + EntryKeys(e)
    ensures forall k :: k in row && !IsExKey(k) ==> WriteExercise(row, e)[k] == row[k]
  {
    ColumnNames(e, e);
  }

  /** The dynamic columns written are the row's own plus those of every exercise;
      every other key keeps its value. */
  lemma {:induction false} WriteExercisesKeys(row: Row, es: seq<Exercise>)
    ensures WriteExercises(row, es).Keys == row.Keys + ExerciseKeys(es)
    ensures ExKeys(WriteExercises(row, es)) == ExKeys(row) + ExerciseKeys(es)
    ensures forall k :: k in row && !IsExKey(k) ==> WriteExercises(row, es)[k] == row[k]
  {
    if es != [] {
      var n := |es| - 1;
      WriteExercisesKeys(row, es[..n]);
      WriteExerciseKeys(WriteExercises(row, es[..n]), es[n]);
    }
  }

  /** Every exercise's three columns are among `ExerciseKeys`. */
  lemma {:induction false} ExerciseKeysCover(es: seq<Exercise>)
    ensures forall i :: 0 <= i < |es| ==> EntryKeys(es[i]) <= ExerciseKeys(es)
  {
    if es != [] {
      var n := |es| - 1;
      var prefix := es[..n];
      assert forall i :: 0 <= i < n ==> prefix[i] == es[i];
      ExerciseKeysCover(prefix);
    }
  }

  /** Every column of `ExerciseKeys` belongs to some exercise, and is a dynamic one. */
  lemma {:induction false} ExerciseKeysOnly(es: seq<Exercise>)
    ensures forall k :: k in ExerciseKeys(es) ==> exists i :: 0 <= i < |es| && k in EntryKeys(es[i])
    ensures forall k :: k in ExerciseKeys(es) ==> IsExKey(k)
  {
    if es != [] {
      var n := |es| - 1;
      var prefix := es[..n];
      ExerciseKeysOnly(prefix);
      ColumnNames(es[n], es[n]);
      forall k | k in ExerciseKeys(es)
        ensures exists i :: 0 <= i < |es| && k in EntryKeys(es[i])
      {
        if k !in EntryKeys(es[n]) {
          assert k in ExerciseKeys(prefix);
          var i :| 0 <= i < n && k in EntryKeys(prefix[i]);
          assert prefix[i] == es[i];
        }
      }
    }
  }

  /** When ids repeat, the last exercise with that printed id supplies the values. */
  lemma {:induction false} LastEntryWins(row: Row, es: seq<Exercise>, j: nat)
    requires j < |es|
    requires forall m :: j < m < |es| ==> es[m].name != es[j].name
    ensures var e := es[j]; var r := WriteExercises(row, es);
            && HasValue(r, GradeKey(e), Raw(e.grade))
            && HasValue(r, FeedbackKey(e), Raw(e.feedback))
            && HasValue(r, AttemptedKey(e), Raw(e.attempted))
  {
    var n := |es| - 1;
    var prefix := es[..n];
    if j < n {
      assert forall i :: 0 <= i < n ==> prefix[i] == es[i];
      LastEntryWins(row, prefix, j);
      ColumnNames(es[n], es[j]);
    } else {
      ColumnNames(es[j], es[j]);
    }
  }

  /** Flattening keeps every key it does not write; on an entry that is not a
      dict it stops with the columns of the earlier entries written and no
      aggregate updated. */
  lemma FlattenKeepsOtherKeys(data: seq<Json>, row: Row)
    ensures var f := Flatten(data, row);
            forall k :: k in row && !IsExKey(k) && (f.Written? ==> k !in AggregateKeys) ==> k in f.row && f.row[k] == row[k]
    ensures Flatten(data, row).RaisedMidway? ==>
              var k := FirstNonObject(data);
              && k < |data|
              && Flatten(data, row) == RaisedMidway(WriteExercises(row, Exercises(data[..k])), NoGetMessage(data[k]))
  {
    var k := FirstNonObject(data);
    WriteExercisesKeys(row, Exercises(data[..k]));
    if k == |data| {
      assert data[..k] == data;
    }
  }

  /** The dynamic columns after flattening a list of dicts are the row's own
      plus exactly those the entries name. */
  lemma FlattenDynamicKeys(data: seq<Json>, row: Row)
    requires AllObjects(data)
    ensures Flatten(data, row).Written?
    ensures ExKeys(Flatten(data, row).row) == ExKeys(row) + ExerciseKeys(Exercises(data))
  {
    var es := Exercises(data);
    if data == [] {
      assert es == [];
      AggregatesKeys(row, es);
    } else {
      FlattenWritten(data, row);
      WriteExercisesKeys(row, es);
      AggregatesKeys(WriteExercises(row, es), es);
    }
  }

  /** `max_score` counts every entry even when ids repeat, while each column
      holds the value of the last entry whose id prints the same. */
  lemma FlattenLastWins(data: seq<Json>, row: Row, j: nat)
    requires AllObjects(data) && j < |data|
    requires forall m :: j < m < |data| ==> ExerciseOf(data[m]).name != ExerciseOf(data[j]).name
    ensures Flatten(data, row).Written?
    ensures var e := ExerciseOf(data[j]); var r := Flatten(data, row).row;
            && HasValue(r, GradeKey(e), Raw(e.grade))
            && HasValue(r, FeedbackKey(e), Raw(e.feedback))
            && HasValue(r, AttemptedKey(e), Raw(e.attempted))
  {
    var es := Exercises(data);
    FlattenWritten(data, row);
    assert es[j] == ExerciseOf(data[j]);
    assert forall m :: j < m < |es| ==> es[m].name != es[j].name;
    LastEntryWins(row, es, j);
    var w := WriteExercises(row, es);
    var e := es[j];
    AggregatesKeepColumn(w, es, GradeKey(e));
    AggregatesKeepColumn(w, es, FeedbackKey(e));
    AggregatesKeepColumn(w, es, AttemptedKey(e));
  }

  /** The aggregates leave every dynamic column as it was. */
  lemma AggregatesKeepColumn(w: Row, es: seq<Exercise>, k: Key)
    requires k.Column?
    ensures k in Aggregates(w, es) <==> k in w
    ensures k in w ==> Aggregates(w, es)[k] == w[k]
  {
  }

  // ---------------------------------------------------------------------------
  // Clearing stale dynamic columns
  // ---------------------------------------------------------------------------

  /** The row without its `ex_` keys. */
  function StripEx(row: Row): (r: Row)
    ensures ExKeys(r) == {}
    ensures r.Keys == row.Keys - ExKeys(row)
    ensures forall k :: k in r ==> r[k] == row[k]
  {
    map k | k in row && !IsExKey(k) :: row[k]
  }

  /** The removal loop of `_perform_grading_and_update_row`: list the `ex_`
      keys, then delete them one by one. */
  method ClearExKeys(row: Row) returns (cleared: Row)
    ensures cleared == StripEx(row)
  {
    var keysToRemove := set k | k in row && IsExKey(k);
    cleared := row;
    while keysToRemove != {}
      invariant keysToRemove <= ExKeys(row)
      invariant cleared.Keys == row.Keys - (ExKeys(row) - keysToRemove)
      invariant forall k :: k in cleared ==> cleared[k] == row[k]
      decreases |keysToRemove|
    {
      var k :| k in keysToRemove;
      cleared := cleared - {k};
      keysToRemove := keysToRemove - {k};
    }
  }

  // ---------------------------------------------------------------------------
  // Writing an outcome into a row
  // ---------------------------------------------------------------------------

  /** The failure branch: status, verbatim error, blank texts, zero totals. */
  function FailureFields(row: Row, error: string): Row {
    row[Fixed(Status) := Text("failed")]
       [Fixed(Error) := Text(error)]
       [Fixed(Grade) := Text("")]
       [Fixed(Feedback) := Text("")]
       [Fixed(IsComplete) := Flag(false)]
       [Fixed(TotalGrade) := Number(0.0)]
       [Fixed(MaxScore) := Count(0)]
  }

  /** The `if result['status'] == 'success'` branch shared by the batch and the retries. */
  function ApplyOutcome(row: Row, outcome: GradeOutcome): Flattened {
    match outcome
    case Success(data) => Flatten(data, row[Fixed(Status) := Text("success")][Fixed(Error) := Text("")])
    case Failed(error) => Written(FailureFields(row, error))
  }

  /** What `_perform_grading_and_update_row` makes of a row: stale `ex_` keys
      removed, the outcome written, the time stamped (unless flattening raised). */
  function Regrade(row: Row, outcome: GradeOutcome, now: string): Flattened {
    match ApplyOutcome(StripEx(row), outcome)
    case Written(r) => Written(r[Fixed(Timestamp) := Text(now)])
    case RaisedMidway(r, m) => RaisedMidway(r, m)
  }

  /** The separator of POSIX paths, the one `PathJoin` also uses. */
  predicate IsSeparator(c: char) {
    c == '/'
  }

  /** `os.path.basename` on POSIX: the longest suffix of the path without a `/`. */
  function Basename(path: string): (name: string)
    ensures |name| <= |path| && name == path[|path| - |name|..]
    ensures forall i :: 0 <= i < |name| ==> !IsSeparator(name[i])
    ensures |name| < |path| ==> IsSeparator(path[|path| - |name| - 1])
  {
    if path == [] || IsSeparator(path[|path| - 1]) then []
    else Basename(path[..|path| - 1]) + [path[|path| - 1]]
  }

  /** The dict `process_submissions` starts each file's row with. */
  function BaseRow(path: string, now: string): Row {
    IdentityRow(path, Basename(path), now)
  }

  /** The four identity columns with the given values. */
  function IdentityRow(path: string, name: string, now: string): (row: Row)
    ensures HasIdentityKeys(row)
    ensures row[Fixed(FilePath)] == Text(path) && row[Fixed(FileName)] == Text(name)
  {
    map[Fixed(FilePath) := Text(path), Fixed(FileName) := Text(name),
        Fixed(Timestamp) := Text(now), Fixed(RetryButton) := Text(RetryLabel)]
  }

  /** The row `process_submissions` builds for one file. */
  function NewRow(path: string, outcome: GradeOutcome, now: string): Flattened {
    ApplyOutcome(BaseRow(path, now), outcome)
  }

  /** The columns `process_submissions` starts every row with. */
  predicate HasIdentityKeys(row: Row) {
    Fixed(FilePath) in row && Fixed(FileName) in row && Fixed(Timestamp) in row && Fixed(RetryButton) in row
  }

  /** The columns every row of a results table carries. */
  predicate HasCoreKeys(row: Row) {
    && HasIdentityKeys(row)
    && Fixed(Status) in row && Fixed(Error) in row
    && Fixed(Grade) in row && Fixed(Feedback) in row && Fixed(IsComplete) in row
    && Fixed(TotalGrade) in row && Fixed(MaxScore) in row
  }

  /** `r[k] == c`, with `k` present. */
  predicate HasValue(r: Row, k: Key, c: Cell) {
    k in r && r[k] == c
  }

  predicate IsStatus(c: Cell) {
    c == Text("success") || c == Text("failed")
  }

  /** A row as the batch builds it and the retries keep it. */
  predicate WellFormed(row: Row) {
    && HasCoreKeys(row)
    && row[Fixed(FilePath)].Text? && row[Fixed(FileName)].Text? && row[Fixed(Error)].Text?
    && IsStatus(row[Fixed(Status)])
  }

  // ---------------------------------------------------------------------------
  // What writing an outcome promises
  // ---------------------------------------------------------------------------

  /** The keys the two branches overwrite whatever the row held before. */
  const OutcomeKeys: set<Key> := {Fixed(Status), Fixed(Error)} + AggregateKeys

  lemma AggregatesKeys(r: Row, es: seq<Exercise>)
    ensures Aggregates(r, es).Keys == r.Keys + AggregateKeys
    ensures EmptyAggregates(r).Keys == r.Keys + AggregateKeys
    ensures ExKeys(Aggregates(r, es)) == ExKeys(r) && ExKeys(EmptyAggregates(r)) == ExKeys(r)
  {
  }

  /** Flattening completes exactly when no entry makes `ex.get` raise. */
  lemma FlattenCompletes(data: seq<Json>, x: Row)
    ensures Flatten(data, x).Written? <==> FirstNonObject(data) == |data|
    ensures Flatten(data, x).Written? <==> AllObjects(data)
  {
    var k := FirstNonObject(data);
    if k == |data| {
      assert data[..k] == data;
    } else {
      assert !data[k].JObject?;
    }
  }

  /** The message of the AttributeError names the type of the first entry
      that is not a dict. */
  lemma FlattenRaisedMessage(data: seq<Json>, x: Row)
    requires !AllObjects(data)
    ensures FirstNonObject(data) < |data|
    ensures Flatten(data, x).RaisedMidway? && Flatten(data, x).message == NoGetMessage(data[FirstNonObject(data)])
  {
    FlattenCompletes(data, x);
  }

  /** The dynamic columns after flattening: the row's own plus those of the
      entries read before any that raised. */
  lemma FlattenExKeys(data: seq<Json>, x: Row)
    ensures ExKeys(Flatten(data, x).row) == ExKeys(x) + ExerciseKeys(Exercises(data[..FirstNonObject(data)]))
  {
    var k := FirstNonObject(data);
    var es := Exercises(data[..k]);
    WriteExercisesKeys(x, es);
    if data == [] {
      assert es == [];
      AggregatesKeys(x, es);
    } else if k == |data| {
      assert data[..k] == data;
      AggregatesKeys(WriteExercises(x, es), es);
    }
  }

  /** The keys after flattening: those before, the dynamic columns written
      and, on completion, the aggregates. */
  lemma FlattenKeys(data: seq<Json>, x: Row)
    ensures var f := Flatten(data, x); var keys := ExerciseKeys(Exercises(data[..FirstNonObject(data)]));
            f.row.Keys == x.Keys + keys + (if f.Written? then AggregateKeys else {})
  {
    var k := FirstNonObject(data);
    var es := Exercises(data[..k]);
    WriteExercisesKeys(x, es);
    if data == [] {
      assert es == [];
      AggregatesKeys(x, es);
    } else if k == |data| {
      assert data[..k] == data;
      AggregatesKeys(WriteExercises(x, es), es);
    }
  }

  /** The keys the failure branch writes, and the values it keeps. */
  lemma FailureShape(x: Row, error: string)
    ensures var r := FailureFields(x, error);
            && ExKeys(r) == ExKeys(x)
            && r.Keys == x.Keys + OutcomeKeys
            && forall key :: key in x && key !in OutcomeKeys ==> r[key] == x[key]
    ensures var r := FailureFields(x, error);
            && HasValue(r, Fixed(Status), Text("failed")) && HasValue(r, Fixed(Error), Text(error))
            && HasValue(r, Fixed(Grade), Text("")) && HasValue(r, Fixed(Feedback), Text(""))
            && HasValue(r, Fixed(IsComplete), Flag(false)) && HasValue(r, Fixed(TotalGrade), Number(0.0))
            && HasValue(r, Fixed(MaxScore), Count(0))
  {
  }

  /** The success branch marks the row `success` with an empty error. */
  lemma SuccessStatus(x: Row, data: seq<Json>)
    ensures var r := ApplyOutcome(x, Success(data)).row;
            && Fixed(Status) in r && r[Fixed(Status)] == Text("success")
            && Fixed(Error) in r && r[Fixed(Error)] == Text("")
  {
    var b := x[Fixed(Status) := Text("success")][Fixed(Error) := Text("")];
    FlattenKeepsOtherKeys(data, b);
    assert Fixed(Status) in b && Fixed(Status) !in AggregateKeys;
    assert Fixed(Error) in b && Fixed(Error) !in AggregateKeys;
  }

  /** The dynamic columns after the success branch. */
  lemma SuccessExKeys(x: Row, data: seq<Json>)
    ensures ExKeys(ApplyOutcome(x, Success(data)).row) == ExKeys(x) + ExerciseKeys(Exercises(data[..FirstNonObject(data)]))
  {
    var b := x[Fixed(Status) := Text("success")][Fixed(Error) := Text("")];
    assert ApplyOutcome(x, Success(data)) == Flatten(data, b);
    FlattenExKeys(data, b);
    assert ExKeys(b) == ExKeys(x);
  }

  /** The keys after the success branch. */
  lemma SuccessKeys(x: Row, data: seq<Json>)
    ensures var f := ApplyOutcome(x, Success(data)); var keys := ExerciseKeys(Exercises(data[..FirstNonObject(data)]));
            f.row.Keys == x.Keys + keys + (if f.Written? then OutcomeKeys else {Fixed(Status), Fixed(Error)})
  {
    var b := x[Fixed(Status) := Text("success")][Fixed(Error) := Text("")];
    FlattenKeys(data, b);
  }

  /** The values the success branch keeps. */
  lemma SuccessKeeps(x: Row, data: seq<Json>)
    ensures var f := ApplyOutcome(x, Success(data));
            forall key :: key in x && !IsExKey(key) && key != Fixed(Status) && key != Fixed(Error) && (f.Written? ==> key !in AggregateKeys) ==> key in f.row && f.row[key] == x[key]
  {
    var b := x[Fixed(Status) := Text("success")][Fixed(Error) := Text("")];
    FlattenKeepsOtherKeys(data, b);
    var f := Flatten(data, b);
    forall key | key in x && !IsExKey(key) && key != Fixed(Status) && key != Fixed(Error) && (f.Written? ==> key !in AggregateKeys)
      ensures f.row[key] == x[key]
    {
      assert key in b && b[key] == x[key];
    }
  }

  /** A failed grading leaves no dynamic column, records the error verbatim,
      blanks the texts, zeroes the totals, stamps the time and keeps every
      other column. */
  lemma RegradeFailed(row: Row, error: string, now: string)
    ensures Regrade(row, Failed(error), now).Written?
    ensures var r := Regrade(row, Failed(error), now).row;
            && ExKeys(r) == {}
            && r.Keys == (row.Keys - ExKeys(row)) + OutcomeKeys + {Fixed(Timestamp)}
            && HasValue(r, Fixed(Status), Text("failed")) && HasValue(r, Fixed(Error), Text(error))
            && HasValue(r, Fixed(Grade), Text("")) && HasValue(r, Fixed(Feedback), Text(""))
            && HasValue(r, Fixed(IsComplete), Flag(false)) && HasValue(r, Fixed(TotalGrade), Number(0.0))
            && HasValue(r, Fixed(MaxScore), Count(0)) && HasValue(r, Fixed(Timestamp), Text(now))
            && forall k :: k in row && !IsExKey(k) && k !in OutcomeKeys && k != Fixed(Timestamp) ==> HasValue(r, k, row[k])
  {
  }

  /** A successful grading whose entries are all dicts replaces the dynamic
      columns with exactly those the new entries name: no stale one survives. */
  lemma RegradeSucceeded(row: Row, data: seq<Json>, now: string)
    requires AllObjects(data)
    ensures Regrade(row, Success(data), now).Written?
    ensures var r := Regrade(row, Success(data), now).row;
            && ExKeys(r) == ExerciseKeys(Exercises(data))
            && HasValue(r, Fixed(Status), Text("success")) && HasValue(r, Fixed(Error), Text(""))
            && HasValue(r, Fixed(Timestamp), Text(now))
  {
    var x := StripEx(row);
    var b := x[Fixed(Status) := Text("success")][Fixed(Error) := Text("")];
    FlattenCompletes(data, b);
    var r := ApplyOutcome(x, Success(data)).row;
    assert Regrade(row, Success(data), now).row == r[Fixed(Timestamp) := Text(now)];
    SuccessStatus(x, data);
    SuccessExKeys(x, data);
    assert data[..FirstNonObject(data)] == data;
  }

  /** A regrade that completes keeps every column it does not write. */
  lemma RegradeKeepsOthers(row: Row, outcome: GradeOutcome, now: string)
    requires Regrade(row, outcome, now).Written?
    ensures var r := Regrade(row, outcome, now).row;
            forall k :: k in row && !IsExKey(k) && k !in OutcomeKeys && k != Fixed(Timestamp) ==> HasValue(r, k, row[k])
  {
    var x := StripEx(row);
    if outcome.Failed? {
      FailureShape(x, outcome.error);
    } else {
      SuccessKeeps(x, outcome.data);
    }
  }

  /** An entry that is not a dict aborts the update half-way: the row is left
      marked `success` with the dynamic columns of the entries before it and
      the error of that entry. */
  lemma RegradeRaised(row: Row, data: seq<Json>, now: string)
    requires !AllObjects(data)
    ensures Regrade(row, Success(data), now).RaisedMidway?
    ensures var k := FirstNonObject(data); var r := Regrade(row, Success(data), now).row;
            && k < |data|
            && Regrade(row, Success(data), now).message == NoGetMessage(data[k])
            && ExKeys(r) == ExerciseKeys(Exercises(data[..k]))
            && HasValue(r, Fixed(Status), Text("success")) && HasValue(r, Fixed(Error), Text(""))
  {
    var x := StripEx(row);
    var b := x[Fixed(Status) := Text("success")][Fixed(Error) := Text("")];
    RegradeRaisedIsFlatten(row, data, now);
    FlattenRaisedMessage(data, b);
    SuccessStatus(x, data);
    SuccessExKeys(x, data);
  }

  /** The aborted update keeps the previous aggregates and time stamp, and
      every other column. */
  lemma RegradeRaisedKeeps(row: Row, data: seq<Json>, now: string)
    requires !AllObjects(data)
    ensures var r := Regrade(row, Success(data), now).row;
            forall key :: key in row && !IsExKey(key) && key != Fixed(Status) && key != Fixed(Error) ==> HasValue(r, key, row[key])
  {
    var x := StripEx(row);
    RegradeRaisedIsFlatten(row, data, now);
    SuccessKeeps(x, data);
  }

  lemma RegradeRaisedIsFlatten(row: Row, data: seq<Json>, now: string)
    requires !AllObjects(data)
    ensures var x := StripEx(row);
            && ApplyOutcome(x, Success(data)).RaisedMidway?
            && Regrade(row, Success(data), now) == ApplyOutcome(x, Success(data))
  {
    var x := StripEx(row);
    var b := x[Fixed(Status) := Text("success")][Fixed(Error) := Text("")];
    FlattenCompletes(data, b);
  }

  /** Every row the batch builds has the core columns, the file's path and
      name, and a status of `success` exactly when the grading succeeded. */
  lemma NewRowWellFormed(path: string, outcome: GradeOutcome, now: string)
    requires NewRow(path, outcome, now).Written?
    ensures var r := NewRow(path, outcome, now).row;
            && WellFormed(r)
            && HasValue(r, Fixed(FilePath), Text(path)) && HasValue(r, Fixed(FileName), Text(Basename(path)))
            && (HasValue(r, Fixed(Status), Text("success")) <==> outcome.Success?)
  {
    var x := BaseRow(path, now);
    BaseRowShape(path, now);
    ApplyOutcomeWellFormed(x, outcome);
    if outcome.Success? {
      SuccessStatus(x, outcome.data);
    } else {
      FailureStatus(x, outcome.error);
    }
  }

  lemma BaseRowShape(path: string, now: string)
    ensures var x := BaseRow(path, now);
            && HasIdentityKeys(x)
            && x[Fixed(FilePath)] == Text(path) && x[Fixed(FileName)] == Text(Basename(path))
  {
  }

  lemma FailureStatus(x: Row, error: string)
    ensures HasValue(FailureFields(x, error), Fixed(Status), Text("failed"))
  {
  }

  /** The success branch leaves every core column in place. */
  lemma SuccessCoreKeys(x: Row, data: seq<Json>)
    requires HasIdentityKeys(x)
    requires ApplyOutcome(x, Success(data)).RaisedMidway? ==> HasCoreKeys(x)
    ensures HasCoreKeys(ApplyOutcome(x, Success(data)).row)
  {
    SuccessKeys(x, data);
  }

  /** One key the success branch keeps. */
  lemma SuccessKeepsKey(x: Row, data: seq<Json>, key: Key)
    requires key in x && !IsExKey(key) && key != Fixed(Status) && key != Fixed(Error)
    requires ApplyOutcome(x, Success(data)).Written? ==> key !in AggregateKeys
    ensures HasValue(ApplyOutcome(x, Success(data)).row, key, x[key])
  {
    SuccessKeeps(x, data);
  }

  /** The failure branch leaves a row well formed when it held the path and name. */
  lemma FailedWellFormed(x: Row, error: string)
    requires HasIdentityKeys(x)
    requires x[Fixed(FilePath)].Text? && x[Fixed(FileName)].Text?
    ensures var r := FailureFields(x, error);
            && WellFormed(r)
            && HasValue(r, Fixed(FilePath), x[Fixed(FilePath)])
            && HasValue(r, Fixed(FileName), x[Fixed(FileName)])
  {
    FailureShape(x, error);
  }

  /** So does the success branch when it completes, or when the row already
      held every core column. */
  lemma SucceededWellFormed(x: Row, data: seq<Json>)
    requires HasIdentityKeys(x)
    requires x[Fixed(FilePath)].Text? && x[Fixed(FileName)].Text?
    requires ApplyOutcome(x, Success(data)).RaisedMidway? ==> HasCoreKeys(x)
    ensures var r := ApplyOutcome(x, Success(data)).row;
            && WellFormed(r)
            && HasValue(r, Fixed(FilePath), x[Fixed(FilePath)])
            && HasValue(r, Fixed(FileName), x[Fixed(FileName)])
  {
    SuccessStatus(x, data);
    SuccessCoreKeys(x, data);
    SuccessKeepsKey(x, data, Fixed(FilePath));
    SuccessKeepsKey(x, data, Fixed(FileName));
  }

  /** Either branch, then, keeping the path and name. */
  lemma ApplyOutcomeWellFormed(x: Row, outcome: GradeOutcome)
    requires HasIdentityKeys(x)
    requires x[Fixed(FilePath)].Text? && x[Fixed(FileName)].Text?
    requires ApplyOutcome(x, outcome).RaisedMidway? ==> HasCoreKeys(x)
    ensures var r := ApplyOutcome(x, outcome).row;
            && WellFormed(r)
            && HasValue(r, Fixed(FilePath), x[Fixed(FilePath)])
            && HasValue(r, Fixed(FileName), x[Fixed(FileName)])
  {
    if outcome.Failed? {
      FailedWellFormed(x, outcome.error);
    } else {
      SucceededWellFormed(x, outcome.data);
    }
  }

  /** A regrade keeps a row well formed, with its path and name. */
  lemma RegradeWellFormed(row: Row, outcome: GradeOutcome, now: string)
    requires WellFormed(row)
    ensures var r := Regrade(row, outcome, now).row;
            && WellFormed(r)
            && HasValue(r, Fixed(FilePath), row[Fixed(FilePath)])
            && HasValue(r, Fixed(FileName), row[Fixed(FileName)])
  {
    var x := StripEx(row);
    assert HasCoreKeys(x);
    ApplyOutcomeWellFormed(x, outcome);
  }
}
