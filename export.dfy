/**
 * `_get_csv_columns`: the column list the results CSV is written with. The
 * columns of a DataFrame built from the result rows are the union of their
 * keys; the export keeps the fixed columns that are present, in a set order,
 * and appends every `ex_` column in sorted order.
 */
module Export {
  import opened Strings

  /** The fixed columns of the CSV, in the order they are written. */
  const CoreColumns: seq<string> :=
    ["file_path", "file_name", "status", "grade", "total_grade",
     "max_score", "is_complete", "error", "timestamp"]

  predicate IsExColumn(c: string) {
    StartsWith(c, "ex_")
  }

  predicate Distinct(s: seq<string>) {
    forall i, j :: 0 <= i < j < |s| ==> s[i] != s[j]
  }

  /** `[col for col in core_cols if col in all_columns]`. */
  function KeepPresent(core: seq<string>, columns: seq<string>): (r: seq<string>)
    ensures forall c :: c in r <==> c in core && c in columns
    ensures |r| <= |core|
  {
    if core == [] then []
    else if core[0] in columns then [core[0]] + KeepPresent(core[1..], columns)
    else KeepPresent(core[1..], columns)
  }

  /** `[col for col in all_columns if col.startswith('ex_')]`, before sorting. */
  function ExColumns(columns: seq<string>): (r: seq<string>)
    ensures forall c :: c in r <==> c in columns && IsExColumn(c)
    ensures |r| <= |columns|
  {
    if columns == [] then []
    else if IsExColumn(columns[0]) then [columns[0]] + ExColumns(columns[1..])
    else ExColumns(columns[1..])
  }

  /** The column list of the CSV export for a frame with these columns. */
  function CsvColumns(columns: seq<string>): seq<string> {
    KeepPresent(CoreColumns, columns) + SortStrings(ExColumns(columns))
  }

  /** `r` lists some elements of `s`, in the order `s` has them. */
  predicate SubsequenceOf(r: seq<string>, s: seq<string>) {
    if r == [] then true
    else if s == [] then false
    else if r[0] == s[0] then SubsequenceOf(r[1..], s[1..])
    else SubsequenceOf(r, s[1..])
  }

  /** The kept fixed columns come in the fixed order, each once. */
  lemma {:induction false} KeepPresentInOrder(core: seq<string>, columns: seq<string>)
    ensures SubsequenceOf(KeepPresent(core, columns), core)
    ensures Distinct(core) ==> Distinct(KeepPresent(core, columns))
  {
    if core != [] {
      KeepPresentInOrder(core[1..], columns);
      var rest := KeepPresent(core[1..], columns);
      if core[0] in columns {
        var r := [core[0]] + rest;
        assert r[1..] == rest;
        if Distinct(core) {
          assert core[0] !in core[1..];
          assert forall j :: 1 <= j < |r| ==> r[j] == rest[j - 1];
        }
      } else {
        SkipHead(rest, core);
        if Distinct(core) {
          assert forall i, j :: 0 <= i < j < |core[1..]| ==> core[1..][i] == core[i + 1] && core[1..][j] == core[j + 1];
        }
      }
    }
  }

  /** A subsequence of the tail is a subsequence of the whole list. */
  lemma {:induction false} SkipHead(r: seq<string>, s: seq<string>)
    requires s != [] && SubsequenceOf(r, s[1..])
    ensures SubsequenceOf(r, s)
  {
    if r != [] && r[0] == s[0] {
      SubsequenceTail(r, s[1..]);
    }
  }

  /** Dropping the first element of a subsequence keeps it a subsequence. */
  lemma {:induction false} SubsequenceTail(r: seq<string>, s: seq<string>)
    requires r != [] && SubsequenceOf(r, s)
    ensures SubsequenceOf(r[1..], s)
  {
    if r[0] != s[0] {
      SubsequenceTail(r, s[1..]);
      SkipHead(r[1..], s);
    } else if r[1..] != [] {
      SkipHead(r[1..], s);
    }
  }

  lemma {:induction false} ExColumnsDistinct(columns: seq<string>)
    requires Distinct(columns)
    ensures Distinct(ExColumns(columns))
  {
    if columns != [] {
      var tail := columns[1..];
      assert forall i, j :: 0 <= i < j < |tail| ==> tail[i] == columns[i + 1] && tail[j] == columns[j + 1];
      ExColumnsDistinct(tail);
      if IsExColumn(columns[0]) {
        assert columns[0] !in tail;
        var rest := ExColumns(tail);
        var r := [columns[0]] + rest;
        assert forall j :: 1 <= j < |r| ==> r[j] == rest[j - 1];
      }
    }
  }

  /** Sorting keeps exactly the listed columns. */
  lemma SortKeepsMembers(s: seq<string>)
    ensures forall c :: c in SortStrings(s) <==> c in s
  {
    var t := SortStrings(s);
    forall c ensures c in t <==> c in s {
      assert c in t <==> c in multiset(t);
      assert c in s <==> c in multiset(s);
    }
  }

  /** What the export lists: the fixed columns that exist, in the fixed
      order, then exactly the `ex_` columns, sorted. */
  lemma CsvColumnsShape(columns: seq<string>)
    ensures var r := CsvColumns(columns); var core := KeepPresent(CoreColumns, columns);
            && |core| <= |r|
            && r[..|core|] == core
            && SubsequenceOf(core, CoreColumns)
            && Sorted(r[|core|..])
            && (forall c :: c in r[|core|..] <==> c in columns && IsExColumn(c))
  {
    var core := KeepPresent(CoreColumns, columns);
    var ex := SortStrings(ExColumns(columns));
    var r := core + ex;
    assert r[..|core|] == core && r[|core|..] == ex;
    KeepPresentInOrder(CoreColumns, columns);
    SortKeepsMembers(ExColumns(columns));
  }

  /** Every listed column exists; every existing fixed or `ex_` column is
      listed; `feedback` and `retry_button` never are. */
  lemma CsvColumnsMembers(columns: seq<string>)
    ensures var r := CsvColumns(columns);
            && (forall c :: c in r <==> c in columns && (c in CoreColumns || IsExColumn(c)))
            && "feedback" !in r && "retry_button" !in r
  {
    SortKeepsMembers(ExColumns(columns));
    NotExColumn("feedback");
    NotExColumn("retry_button");
  }

  /** A frame whose columns are all different exports each column once. */
  lemma CsvColumnsDistinct(columns: seq<string>)
    requires Distinct(columns)
    ensures Distinct(CsvColumns(columns))
  {
    var core := KeepPresent(CoreColumns, columns);
    var ex := SortStrings(ExColumns(columns));
    CoreColumnsDistinct();
    KeepPresentInOrder(CoreColumns, columns);
    ExColumnsDistinct(columns);
    DistinctSorted(ExColumns(columns), ex);
    SortKeepsMembers(ExColumns(columns));
    forall c | c in core ensures c !in ex {
      CoreNotEx(c);
    }
    DistinctConcat(core, ex);
  }

  lemma CoreColumnsDistinct()
    ensures Distinct(CoreColumns)
  {
  }

  /** Two lists without repeats and without common elements make one. */
  lemma DistinctConcat(a: seq<string>, b: seq<string>)
    requires Distinct(a) && Distinct(b)
    requires forall c :: c in a ==> c !in b
    ensures Distinct(a + b)
  {
    var r := a + b;
    forall i, j | 0 <= i < j < |r| ensures r[i] != r[j] {
      if j < |a| {
        assert r[i] == a[i] && r[j] == a[j];
      } else if i >= |a| {
        assert r[i] == b[i - |a|] && r[j] == b[j - |a|];
      } else {
        assert r[i] == a[i] && r[j] == b[j - |a|];
        assert a[i] in a && b[j - |a|] in b;
      }
    }
  }

  lemma NotExColumn(c: string)
    requires |c| >= 2 && (c[0] != 'e' || c[1] != 'x')
    ensures !IsExColumn(c)
  {
    if |c| >= 3 {
      assert c[..3][0] == c[0] && c[..3][1] == c[1];
    }
  }

  lemma CoreNotEx(c: string)
    requires c in CoreColumns
    ensures !IsExColumn(c)
  {
    NotExColumn(c);
  }

  /** Sorting keeps a list free of repeats. */
  lemma DistinctSorted(s: seq<string>, t: seq<string>)
    requires Distinct(s) && multiset(t) == multiset(s)
    ensures Distinct(t)
  {
    forall i, j | 0 <= i < j < |t| ensures t[i] != t[j] {
      if t[i] == t[j] {
        assert multiset(t)[t[i]] >= 2 by {
          assert t == t[..i] + [t[i]] + t[i + 1..j] + [t[j]] + t[j + 1..];
        }
        DistinctCount(s, t[i]);
      }
    }
  }

  lemma {:induction false} DistinctCount(s: seq<string>, x: string)
    requires Distinct(s)
    ensures multiset(s)[x] <= 1
  {
    if s != [] {
      var tail := s[1..];
      assert s == [s[0]] + tail;
      assert forall i, j :: 0 <= i < j < |tail| ==> tail[i] == s[i + 1] && tail[j] == s[j + 1];
      DistinctCount(tail, x);
      if s[0] == x {
        assert x !in tail;
      }
    }
  }

  /** The DataFrame's column order (first appearance across the rows) does
      not matter: two frames with the same columns export the same list. */
  lemma CsvColumnsOrderIndependent(a: seq<string>, b: seq<string>)
    requires Distinct(a) && Distinct(b)
    requires forall c :: c in a <==> c in b
    ensures CsvColumns(a) == CsvColumns(b)
  {
    KeepPresentSameSet(CoreColumns, a, b);
    var ea, eb := ExColumns(a), ExColumns(b);
    ExColumnsDistinct(a);
    ExColumnsDistinct(b);
    DistinctSameSet(ea, eb);
    SortedUnique(SortStrings(ea), SortStrings(eb));
  }

  lemma {:induction false} KeepPresentSameSet(core: seq<string>, a: seq<string>, b: seq<string>)
    requires forall c :: c in a <==> c in b
    ensures KeepPresent(core, a) == KeepPresent(core, b)
  {
    if core != [] {
      KeepPresentSameSet(core[1..], a, b);
    }
  }

  /** Two lists without repeats holding the same elements are permutations
      of each other. */
  lemma DistinctSameSet(a: seq<string>, b: seq<string>)
    requires Distinct(a) && Distinct(b)
    requires forall c :: c in a <==> c in b
    ensures multiset(a) == multiset(b)
  {
    forall x ensures multiset(a)[x] == multiset(b)[x] {
      DistinctCount(a, x);
      DistinctCount(b, x);
      assert x in a <==> x in multiset(a);
      assert x in b <==> x in multiset(b);
    }
  }
}
