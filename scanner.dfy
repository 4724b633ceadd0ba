/**
 * `scan_folder`: the submission files under a folder whose names end in one
 * of a comma-separated list of extensions. Each listed extension is stripped
 * and given a leading dot; the recursive glob of each pattern is appended in
 * turn, and the whole list is sorted. The file system is the `glob`
 * parameter: it maps a pattern to the paths that pattern matches.
 */
module Scanner {
  import opened Strings

  /** One entry of the extension list as the scan uses it: stripped, with a
      leading dot added when it has none. */
  function NormalizeExtension(piece: string): (ext: string)
    ensures StartsWith(ext, ".")
    ensures StartsWith(Strip(piece), ".") ==> ext == Strip(piece)
    ensures !StartsWith(Strip(piece), ".") ==> ext == "." + Strip(piece)
  {
    var t := Strip(piece);
    if StartsWith(t, ".") then t else "." + t
  }

  /** The extensions named by the comma-separated text, in the order given. */
  function Extensions(text: string): (exts: seq<string>)
    ensures |exts| == |Split(text, ',')|
    ensures forall i :: 0 <= i < |exts| ==> exts[i] == NormalizeExtension(Split(text, ',')[i])
  {
    var pieces := Split(text, ',');
    seq(|pieces|, i requires 0 <= i < |pieces| => NormalizeExtension(pieces[i]))
  }

  /** `os.path.join(a, b)` with POSIX separators. */
  function PathJoin(a: string, b: string): (p: string)
    ensures StartsWith(b, "/") ==> p == b
    ensures !StartsWith(b, "/") && (a == [] || a[|a| - 1] == '/') ==> p == a + b
    ensures !StartsWith(b, "/") && a != [] && a[|a| - 1] != '/' ==> p == a + "/" + b
  {
    if StartsWith(b, "/") then b
    else if a == [] || a[|a| - 1] == '/' then a + b
    else a + "/" + b
  }

  /** The recursive pattern searched for one extension. */
  function Pattern(folder: string, ext: string): string {
    PathJoin(PathJoin(folder, "**"), "*" + ext)
  }

  /** The pattern of a folder given without a trailing separator. */
  lemma PatternOfFolder(folder: string, ext: string)
    requires folder != [] && folder[|folder| - 1] != '/'
    ensures Pattern(folder, ext) == folder + "/**/*" + ext
  {
    var d := PathJoin(folder, "**");
    NoLeadingSlash("**");
    assert d == folder + "/**";
    NoLeadingSlash("*" + ext);
    assert d[|d| - 1] == '*';
  }

  lemma NoLeadingSlash(s: string)
    requires s != [] && s[0] != '/'
    ensures !StartsWith(s, "/")
  {
    assert s[..1][0] == s[0];
  }

  /** Everything the globs of the extensions find, concatenated in the order
      of the extensions (before sorting). */
  function Found(folder: string, exts: seq<string>, glob: string -> seq<string>): seq<string> {
    if exts == [] then []
    else Found(folder, exts[..|exts| - 1], glob) + glob(Pattern(folder, exts[|exts| - 1]))
  }

  /** One more extension appends what its glob finds. */
  lemma FoundSnoc(folder: string, exts: seq<string>, i: nat, glob: string -> seq<string>)
    requires i < |exts|
    ensures Found(folder, exts[..i + 1], glob) == Found(folder, exts[..i], glob) + glob(Pattern(folder, exts[i]))
  {
    assert exts[..i + 1][..i] == exts[..i];
  }

  /** The scan: extend the list with each glob in turn, then sort it. */
  method ScanFolder(folder: string, extensionText: string, glob: string -> seq<string>)
    returns (files: seq<string>)
    ensures Sorted(files)
    ensures multiset(files) == multiset(Found(folder, Extensions(extensionText), glob))
  {
    var exts := Extensions(extensionText);
    var collected: seq<string> := [];
    var i := 0;
    while i < |exts|
      invariant 0 <= i <= |exts|
      invariant collected == Found(folder, exts[..i], glob)
    {
      FoundSnoc(folder, exts, i, glob);
      collected := collected + glob(Pattern(folder, exts[i]));
      i := i + 1;
    }
    assert exts[..|exts|] == exts;
    files := SortStrings(collected);
  }

  /** The scan's result is determined by its inputs: it is the one sorted
      arrangement of what the globs found. */
  lemma ScanResultUnique(folder: string, text: string, glob: string -> seq<string>, files: seq<string>)
    requires Sorted(files)
    requires multiset(files) == multiset(Found(folder, Extensions(text), glob))
    ensures files == SortStrings(Found(folder, Extensions(text), glob))
  {
    SortedUnique(files, SortStrings(Found(folder, Extensions(text), glob)));
  }

  /** Every match of every pattern is in the result, as often as the globs
      return it: a file matched by two extensions is listed twice. */
  lemma {:induction false} FoundHoldsEveryGlob(folder: string, exts: seq<string>, glob: string -> seq<string>, k: nat)
    requires k < |exts|
    ensures multiset(glob(Pattern(folder, exts[k]))) <= multiset(Found(folder, exts, glob))
  {
    var n := |exts| - 1;
    var prev := Found(folder, exts[..n], glob);
    var last := glob(Pattern(folder, exts[n]));
    assert Found(folder, exts, glob) == prev + last;
    assert multiset(prev + last) == multiset(prev) + multiset(last);
    if k < n {
      assert exts[..n][k] == exts[k];
      FoundHoldsEveryGlob(folder, exts[..n], glob, k);
    }
  }

  /** The result holds nothing that no glob returned. */
  lemma {:induction false} FoundOnlyGlobbed(folder: string, exts: seq<string>, glob: string -> seq<string>, f: string)
    requires f in Found(folder, exts, glob)
    ensures exists k :: 0 <= k < |exts| && f in glob(Pattern(folder, exts[k]))
  {
    var n := |exts| - 1;
    var last := glob(Pattern(folder, exts[n]));
    if f in last {
      assert f in glob(Pattern(folder, exts[n]));
    } else {
      FoundOnlyGlobbed(folder, exts[..n], glob, f);
      var k :| 0 <= k < n && f in glob(Pattern(folder, exts[..n][k]));
      assert exts[..n][k] == exts[k];
    }
  }

  /** A stripped blank-free word at both ends is left alone by `strip`. */
  lemma StripUnchanged(s: string)
    requires s == [] || (!IsSpace(s[0]) && !IsSpace(s[|s| - 1]))
    ensures Strip(s) == s
  {
    var t := TrimStart(s);
    if |t| < |s| {
      assert IsSpace(s[0]);
    }
    assert t == s;
  }

  /** A stripped string neither starts nor ends with white space. */
  lemma StripEnds(s: string)
    ensures var r := Strip(s); r == [] || (!IsSpace(r[0]) && !IsSpace(r[|r| - 1]))
  {
    var t := TrimStart(s);
    var r := TrimEnd(t);
    if r != [] {
      assert r == t[..|r|];
      assert r[0] == t[0];
    }
  }

  /** Writing an extension as the scan does and writing it again changes
      nothing: `".py"` and `"py"` name the same files. */
  lemma NormalizeExtensionIdempotent(piece: string)
    ensures NormalizeExtension(NormalizeExtension(piece)) == NormalizeExtension(piece)
  {
    var t := Strip(piece);
    StripEnds(piece);
    var e := NormalizeExtension(piece);
    if StartsWith(t, ".") {
      StripIdempotent(piece);
    } else {
      assert e == "." + t;
      assert e[0] == '.';
      StripUnchanged(e);
    }
  }

  /** `"py"`, `".py"` and `" .py "` all select the `.py` files. */
  lemma NormalizeExtensionForms(word: string)
    requires word != [] && '.' !in word
    requires !IsSpace(word[0]) && !IsSpace(word[|word| - 1])
    ensures NormalizeExtension(word) == "." + word
    ensures NormalizeExtension("." + word) == "." + word
    ensures NormalizeExtension(" ." + word + " ") == "." + word
  {
    StripUnchanged(word);
    assert !StartsWith(word, ".") by { assert word[..1][0] == word[0]; }
    var d := "." + word;
    NormalizeDotted(d);
    StripPadded(d);
    assert " ." + word == " " + d by {
      assert forall k :: 0 <= k < |word| ==> (" ." + word)[k + 2] == word[k] == (" " + d)[k + 2];
    }
  }

  /** A blank-free word with its dot is its own extension. */
  lemma NormalizeDotted(d: string)
    requires |d| >= 2 && d[0] == '.' && !IsSpace(d[|d| - 1])
    ensures NormalizeExtension(d) == d
  {
    StripUnchanged(d);
    assert d[..1] == ".";
  }

  /** One blank on each side is stripped off. */
  lemma StripPadded(d: string)
    requires d != [] && !IsSpace(d[0]) && !IsSpace(d[|d| - 1])
    ensures Strip(" " + d + " ") == d
  {
    var p := " " + d + " ";
    assert p[1..] == d + " ";
    assert TrimStart(p) == d + " ";
    assert (d + " ")[..|d|] == d;
    assert TrimEnd(d + " ") == TrimEnd(d);
    StripUnchanged(d);
  }
}
