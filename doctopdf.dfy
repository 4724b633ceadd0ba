/**
 * The Word-to-PDF converter: `normalize_name`, the output path that mirrors
 * a document's folders under the output directory, and the loop of
 * `process_directory` that counts converted and failed documents.
 *
 * Unicode canonical decomposition (NFD) is the parameter `nfd`; the facts
 * the model needs about it are stated where they are used. Paths are lists
 * of components. The conversion itself (with the creation of the target
 * folder) is the parameter `convert`, which says whether it succeeded.
 */
module DocToPdf {
  import opened Strings

  /** `unicodedata.normalize('NFD', s)` leaves ASCII text as it is. */
  ghost predicate FixesAscii(nfd: string -> string) {
    forall s :: IsAscii(s) ==> nfd(s) == s
  }

  /** `normalize_name`: Đ and đ become D and d, the text is decomposed, every
      character outside ASCII is dropped and spaces become underscores. */
  function NormalizeName(name: string, nfd: string -> string): (r: string)
    ensures IsAscii(r)
    ensures ' ' !in r
  {
    var result := ReplaceChar(DropNonAscii(Decomposed(name, nfd)), ' ', '_');
    assert forall i :: 0 <= i < |result| ==> result[i] != ' ';
    result
  }

  /** The text `normalize_name` decomposes: the name with Đ and đ replaced. */
  function Decomposed(name: string, nfd: string -> string): string {
    nfd(ReplaceChar(ReplaceChar(name, '\U{0110}', 'D'), '\U{0111}', 'd'))
  }

  /** Replacing a character that does not occur changes nothing. */
  lemma ReplaceAbsent(s: string, from: char, to: char)
    requires from !in s
    ensures ReplaceChar(s, from, to) == s
  {
    var r := ReplaceChar(s, from, to);
    assert forall i :: 0 <= i < |s| ==> r[i] == s[i];
  }

  /** For ASCII input the only change is spaces becoming underscores. */
  lemma NormalizeAscii(name: string, nfd: string -> string)
    requires FixesAscii(nfd) && IsAscii(name)
    ensures NormalizeName(name, nfd) == ReplaceChar(name, ' ', '_')
  {
    assert '\U{0110}' !in name && '\U{0111}' !in name by {
      forall i | 0 <= i < |name| ensures name[i] != '\U{0110}' && name[i] != '\U{0111}' {
        assert IsAsciiChar(name[i]);
      }
    }
    ReplaceAbsent(name, '\U{0110}', 'D');
    ReplaceAbsent(name, '\U{0111}', 'd');
  }

  /** Normalising a normalised name changes nothing. */
  lemma NormalizeIdempotent(name: string, nfd: string -> string)
    requires FixesAscii(nfd)
    ensures NormalizeName(NormalizeName(name, nfd), nfd) == NormalizeName(name, nfd)
  {
    var r := NormalizeName(name, nfd);
    NormalizeAscii(r, nfd);
    ReplaceAbsent(r, ' ', '_');
  }

  /** Đ and đ, which NFD does not decompose, survive as D and d instead of
      being dropped: a name of ASCII letters and these two loses nothing, and
      only Đ, đ and spaces change. */
  lemma NormalizeKeepsD(name: string, nfd: string -> string)
    requires FixesAscii(nfd)
    requires forall i :: 0 <= i < |name| ==> IsAsciiChar(name[i]) || name[i] == '\U{0110}' || name[i] == '\U{0111}'
    ensures var r := NormalizeName(name, nfd);
            && |r| == |name|
            && forall i :: 0 <= i < |name| ==>
                 r[i] == (if name[i] == '\U{0110}' then 'D' else if name[i] == '\U{0111}' then 'd'
                          else if name[i] == ' ' then '_' else name[i])
  {
    var plain := ReplaceChar(ReplaceChar(name, '\U{0110}', 'D'), '\U{0111}', 'd');
    assert IsAscii(plain);
    assert Decomposed(name, nfd) == plain;
  }

  // ---------------------------------------------------------------------------
  // Paths
  // ---------------------------------------------------------------------------

  /** pathlib's `stem`: the name without its last suffix; a name whose only
      dot is its first or last character has no suffix. */
  function Stem(name: string): (stem: string)
    ensures |stem| <= |name| && stem == name[..|stem|]
  {
    var i := LastDot(name);
    if 0 < i < |name| - 1 then name[..i] else name
  }

  /** `name.rfind('.')`: the index of the last dot, or -1. */
  function LastDot(name: string): (i: int)
    ensures -1 <= i < |name|
    ensures i >= 0 ==> name[i] == '.'
    ensures forall k :: i < k < |name| ==> name[k] != '.'
  {
    if name == [] then -1
    else if name[|name| - 1] == '.' then |name| - 1
    else LastDot(name[..|name| - 1])
  }

  /** A document `base.docx` has stem `base`, unless `base` is empty. */
  lemma StemOfDocx(base: string)
    ensures base != [] ==> Stem(base + ".docx") == base
    ensures Stem(".docx") == ".docx"
  {
    var name := base + ".docx";
    assert name[|base|] == '.';
    assert forall k :: |base| < k < |name| ==> name[k] != '.';
    assert LastDot(name) == |base|;
    assert name[..|base|] == base;
    assert LastDot(".docx") == 0;
  }

  /** `Path.joinpath`: the components, except the empty ones and `.`, which
      pathlib drops. */
  function JoinPath(base: seq<string>, parts: seq<string>): (p: seq<string>)
    ensures |base| <= |p| <= |base| + |parts|
    ensures p[..|base|] == base
    ensures forall k :: |base| <= k < |p| ==> p[k] != "" && p[k] != "."
  {
    if parts == [] then base
    else
      var rest := JoinPath(base, parts[..|parts| - 1]);
      var last := parts[|parts| - 1];
      if last == "" || last == "." then rest
      else
        assert (rest + [last])[..|base|] == rest[..|base|];
        rest + [last]
  }

  /** Joining one more component. */
  lemma JoinPathSnoc(base: seq<string>, parts: seq<string>, last: string)
    ensures JoinPath(base, parts + [last])
              == if last == "" || last == "." then JoinPath(base, parts) else JoinPath(base, parts) + [last]
  {
    assert (parts + [last])[..|parts|] == parts;
  }

  /** A document found under the input folder, as the folder names of its
      relative path and its file name. */
  datatype Document = Document(dirs: seq<string>, name: string)

  function NormalizeAll(parts: seq<string>, nfd: string -> string): (r: seq<string>)
    ensures |r| == |parts|
    ensures forall k :: 0 <= k < |parts| ==> r[k] == NormalizeName(parts[k], nfd)
  {
    seq(|parts|, k requires 0 <= k < |parts| => NormalizeName(parts[k], nfd))
  }

  /** The file name of the PDF of a document. */
  function PdfName(doc: Document, nfd: string -> string): string {
    NormalizeName(Stem(doc.name), nfd) + ".pdf"
  }

  /** Where `process_directory` writes the PDF of a document. */
  function OutputPath(outDir: seq<string>, doc: Document, nfd: string -> string): seq<string> {
    JoinPath(outDir, NormalizeAll(doc.dirs, nfd) + [PdfName(doc, nfd)])
  }

  /** Joining components that pathlib keeps appends them all. */
  lemma {:induction false} JoinPathKeepsAll(base: seq<string>, parts: seq<string>)
    requires forall k :: 0 <= k < |parts| ==> parts[k] != "" && parts[k] != "."
    ensures JoinPath(base, parts) == base + parts
  {
    if parts != [] {
      var n := |parts| - 1;
      JoinPathKeepsAll(base, parts[..n]);
      assert base + parts[..n] + [parts[n]] == base + parts;
    }
  }

  /** The PDF lies under the output folder, its name is the normalised stem
      with `.pdf`, and when every folder keeps a name after normalisation the
      folders are mirrored one for one. */
  lemma OutputPathShape(outDir: seq<string>, doc: Document, nfd: string -> string)
    ensures var p := OutputPath(outDir, doc, nfd);
            && |outDir| < |p| <= |outDir| + |doc.dirs| + 1
            && p[..|outDir|] == outDir
            && p[|p| - 1] == PdfName(doc, nfd)
    ensures (forall k :: 0 <= k < |doc.dirs| ==> NormalizeName(doc.dirs[k], nfd) != "" && NormalizeName(doc.dirs[k], nfd) != ".")
            ==> OutputPath(outDir, doc, nfd) == outDir + NormalizeAll(doc.dirs, nfd) + [PdfName(doc, nfd)]
  {
    var dirs := NormalizeAll(doc.dirs, nfd);
    var pdf := PdfName(doc, nfd);
    assert pdf != "" && pdf != "." by {
      assert |pdf| >= 4;
    }
    JoinPathSnoc(outDir, dirs, pdf);
    var p := OutputPath(outDir, doc, nfd);
    assert p == JoinPath(outDir, dirs) + [pdf];
    assert p[..|outDir|] == JoinPath(outDir, dirs)[..|outDir|];
    if forall k :: 0 <= k < |doc.dirs| ==> NormalizeName(doc.dirs[k], nfd) != "" && NormalizeName(doc.dirs[k], nfd) != "." {
      JoinPathKeepsAll(outDir, dirs);
    }
  }

  /** A folder whose name has no ASCII character once decomposed vanishes
      from the mirrored path: a document in such a folder is written where a
      document of the same name directly under the input folder is written. */
  lemma NonAsciiFolderVanishes(outDir: seq<string>, dir: string, name: string, nfd: string -> string)
    requires forall k :: 0 <= k < |Decomposed(dir, nfd)| ==> !IsAsciiChar(Decomposed(dir, nfd)[k])
    ensures OutputPath(outDir, Document([dir], name), nfd) == OutputPath(outDir, Document([], name), nfd)
  {
    NoAsciiDropped(Decomposed(dir, nfd));
    assert NormalizeName(dir, nfd) == "";
    var pdf := PdfName(Document([dir], name), nfd);
    assert pdf == PdfName(Document([], name), nfd);
    assert NormalizeAll([dir], nfd) == [""];
    assert NormalizeAll([], nfd) == [];
    JoinPathSnoc(outDir, [""], pdf);
    JoinPathSnoc(outDir, [], pdf);
    JoinPathSnoc(outDir, [], "");
    assert [] + [""] == [""];
  }

  lemma {:induction false} NoAsciiDropped(s: string)
    requires forall k :: 0 <= k < |s| ==> !IsAsciiChar(s[k])
    ensures DropNonAscii(s) == ""
  {
    if s != [] {
      NoAsciiDropped(s[1..]);
    }
  }

  // ---------------------------------------------------------------------------
  // The conversion loop
  // ---------------------------------------------------------------------------

  /** How `process_directory` ends: the input is not a folder, it holds no
      document, or the documents were processed with these counts. */
  datatype Conversion = NotADirectory | NoDocuments | Processed(converted: nat, failed: nat)

  /** How many of the documents convert. */
  function CountConverted(docs: seq<Document>, outDir: seq<string>, nfd: string -> string,
                          convert: (Document, seq<string>) -> bool): (n: nat)
    ensures n <= |docs|
  {
    if docs == [] then 0
    else
      var last := docs[|docs| - 1];
      CountConverted(docs[..|docs| - 1], outDir, nfd, convert) + if convert(last, OutputPath(outDir, last, nfd)) then 1 else 0
  }

  /** `process_directory`: each document is converted to its output path and
      counts as converted or as failed. */
  method ProcessDirectory(isDirectory: bool, docs: seq<Document>, outDir: seq<string>,
                          nfd: string -> string, convert: (Document, seq<string>) -> bool)
    returns (result: Conversion)
    ensures !isDirectory ==> result == NotADirectory
    ensures isDirectory && docs == [] ==> result == NoDocuments
    ensures isDirectory && docs != [] ==>
              && result.Processed?
              && result.converted == CountConverted(docs, outDir, nfd, convert)
              && result.converted + result.failed == |docs|
  {
    if !isDirectory {
      return NotADirectory;
    }
    if docs == [] {
      return NoDocuments;
    }
    var convertedCount := 0;
    var failedCount := 0;
    var i := 0;
    while i < |docs|
      invariant 0 <= i <= |docs|
      invariant convertedCount == CountConverted(docs[..i], outDir, nfd, convert)
      invariant convertedCount + failedCount == i
    {
      assert docs[..i + 1][..i] == docs[..i];
      var finalOutputPath := OutputPath(outDir, docs[i], nfd);
      if convert(docs[i], finalOutputPath) {
        convertedCount := convertedCount + 1;
      } else {
        failedCount := failedCount + 1;
      }
      i := i + 1;
    }
    assert docs[..i] == docs;
    result := Processed(convertedCount, failedCount);
  }
}
