/**
 * The post-processing script: from each row of a results CSV it takes a
 * student identifier out of the submission's Windows path, and copies the
 * total grade and the maximum score next to it. The identifier is the
 * third-from-last `_`-separated piece of the folder that holds the file.
 */
module CsvPostProcess {
  import opened Wrappers
  import opened Strings

  /** `path.split('\\')[-2].split('_')[-3]`, or `None` where Python raises
      an `IndexError`. */
  function ExtractName(path: string): (name: Option<string>)
    ensures name.None? <==>
              |Split(path, '\\')| < 2
              || |Split(Split(path, '\\')[|Split(path, '\\')| - 2], '_')| < 3
    ensures name.Some? ==> '\\' !in name.value && '_' !in name.value
  {
    var components := Split(path, '\\');
    if |components| < 2 then None
    else
      var folder := components[|components| - 2];
      var pieces := Split(folder, '_');
      if |pieces| < 3 then None
      else
        assert forall c :: c in pieces[|pieces| - 3] ==> c in folder by {
          SplitPiecesIn(folder, '_', |pieces| - 3);
        }
        Some(pieces[|pieces| - 3])
  }

  /** Every character of a piece comes from the split text. */
  lemma {:induction false} SplitPiecesIn(s: string, sep: char, k: nat)
    requires k < |Split(s, sep)|
    ensures forall c :: c in Split(s, sep)[k] ==> c in s
  {
    if s != [] {
      if s[0] == sep {
        if k > 0 {
          SplitPiecesIn(s[1..], sep, k - 1);
        }
      } else if k == 0 {
        SplitPiecesIn(s[1..], sep, 0);
      } else {
        SplitPiecesIn(s[1..], sep, k);
      }
    }
  }

  /** The identifier of a path built the way the submissions folder is laid
      out: any folders, then a folder whose name has at least three
      `_`-separated pieces, then the file. */
  lemma ExtractFromLayout(folders: seq<string>, pieces: seq<string>, file: string)
    requires forall i :: 0 <= i < |folders| ==> '\\' !in folders[i]
    requires |pieces| >= 3 && forall i :: 0 <= i < |pieces| ==> '\\' !in pieces[i] && '_' !in pieces[i]
    requires '\\' !in file
    ensures var components := folders + [Join(pieces, '_'), file];
            ExtractName(Join(components, '\\')) == Some(pieces[|pieces| - 3])
  {
    var folder := Join(pieces, '_');
    JoinAvoids(pieces, '_', '\\');
    var components := folders + [folder, file];
    assert forall i :: 0 <= i < |components| ==> '\\' !in components[i];
    SplitJoin(components, '\\');
    SplitJoin(pieces, '_');
  }

  /** Joining pieces free of a character with a different separator keeps
      the character out. */
  lemma {:induction false} JoinAvoids(parts: seq<string>, sep: char, c: char)
    requires |parts| >= 1 && sep != c
    requires forall i :: 0 <= i < |parts| ==> c !in parts[i]
    ensures c !in Join(parts, sep)
  {
    if |parts| > 1 {
      JoinAvoids(parts[1..], sep, c);
    }
  }

  /** A row of the results CSV, as far as the script reads it. */
  datatype ResultRecord<V> = ResultRecord(filePath: string, totalGrade: V, maxScore: V)

  /** A row of the scores CSV. */
  datatype ScoreRecord<V> = ScoreRecord(name: string, score: V, maxScore: V)

  /** The `name`, `score` and `max_score` columns built from the results;
      `None` when the name of some row cannot be extracted, which ends the
      script before anything is written. */
  function PostProcess<V>(rows: seq<ResultRecord<V>>): (out: Option<seq<ScoreRecord<V>>>)
    ensures out.None? <==> exists i :: 0 <= i < |rows| && ExtractName(rows[i].filePath).None?
    ensures out.Some? ==>
              && |out.value| == |rows|
              && forall i :: 0 <= i < |rows| ==>
                   && Some(out.value[i].name) == ExtractName(rows[i].filePath)
                   && out.value[i].score == rows[i].totalGrade
                   && out.value[i].maxScore == rows[i].maxScore
  {
    if rows == [] then Some([])
    else
      var n := |rows| - 1;
      var prev := PostProcess(rows[..n]);
      assert forall i :: 0 <= i < n ==> rows[..n][i] == rows[i];
      match ExtractName(rows[n].filePath)
      case None => None
      case Some(name) =>
        if prev.None? then None
        else Some(prev.value + [ScoreRecord(name, rows[n].totalGrade, rows[n].maxScore)])
  }
}
