/**
 * v5's `load_all_md_content`: the Markdown files found in the document
 * directory, in discovery order, are filtered by the year prefix of their
 * name, read, and concatenated with a header line per file. The directory
 * listing and the file reads are inputs: each file is its name and its
 * content, or `None` when reading it failed.
 */
module Loader {
  import opened Text
  import opened Wrappers

  datatype MdFile = MdFile(name: string, content: Option<string>)

  /** `valid_years` */
  const ValidYears: seq<string> := ["2025"]

  /** `s.startswith(prefix)` */
  predicate StartsWith(s: string, prefix: string) {
    |prefix| <= |s| && s[..|prefix|] == prefix
  }

  /** `any(file_name.startswith(year) for year in valid_years)` */
  predicate HasValidYear(name: string) {
    exists k :: 0 <= k < |ValidYears| && StartsWith(name, ValidYears[k])
  }

  /** Only the names of 2025 are kept. */
  lemma HasValidYearIff(name: string)
    ensures HasValidYear(name) <==> |name| >= 4 && name[..4] == "2025"
  {
    if |name| >= 4 && name[..4] == "2025" {
      assert StartsWith(name, ValidYears[0]);
    }
  }

  /** The header put in front of every included file. */
  function FileInfo(name: string): string {
    "\n\n--- 文件: " + name + " ---\n\n"
  }

  /** A file contributes when its name passes the filter and it was read
      with nonempty content (`if content:`). */
  predicate Included(f: MdFile) {
    HasValidYear(f.name) && f.content.Some? && f.content.value != ""
  }

  function Part(f: MdFile): string
    requires Included(f)
  {
    FileInfo(f.name) + f.content.value
  }

  /** The parts appended to `all_content`, in discovery order. */
  function IncludedParts(files: seq<MdFile>): seq<string> {
    if files == [] then []
    else
      var last := files[|files| - 1];
      IncludedParts(files[..|files| - 1]) + (if Included(last) then [Part(last)] else [])
  }

  /** The loader: returns the text, `successful_files` and `total_files`. */
  method LoadAllMdContent(files: seq<MdFile>) returns (text: string, successful: nat, total: nat)
    ensures total == |files|
    ensures successful == |IncludedParts(files)| <= total
    ensures text == Join(IncludedParts(files), "\n")
  {
    if files == [] {
      return "", 0, 0;
    }
    var allContent: seq<string> := [];
    total := |files|;
    successful := 0;
    var i := 0;
    while i < |files|
      invariant 0 <= i <= |files|
      invariant allContent == IncludedParts(files[..i])
      invariant successful == |allContent| <= i
    {
      var file := files[i];
      assert files[..i + 1][..i] == files[..i];
      if !HasValidYear(file.name) {
        i := i + 1;
        continue;
      }
      var content := file.content;
      if content.Some? && content.value != "" {
        var fileInfo := FileInfo(file.name);
        allContent := allContent + [fileInfo + content.value];
        successful := successful + 1;
      }
      i := i + 1;
    }
    assert files[..i] == files;
    text := Join(allContent, "\n");
  }

  /** Files are taken in discovery order: the parts of a concatenation of
      listings are the parts of the first followed by those of the second. */
  lemma {:induction false} IncludedPartsAppend(a: seq<MdFile>, b: seq<MdFile>)
    ensures IncludedParts(a + b) == IncludedParts(a) + IncludedParts(b)
    decreases |b|
  {
    if b == [] {
      assert a + b == a;
    } else {
      var n := |b| - 1;
      assert (a + b)[..|a + b| - 1] == a + b[..n];
      assert (a + b)[|a + b| - 1] == b[n];
      IncludedPartsAppend(a, b[..n]);
    }
  }

  /** A part comes from an included file of the listing, and every included
      file gives its part. */
  lemma {:induction false} IncludedPartsMembers(files: seq<MdFile>)
    ensures forall p :: p in IncludedParts(files) ==>
      exists k :: 0 <= k < |files| && Included(files[k]) && p == Part(files[k])
    ensures forall k :: 0 <= k < |files| && Included(files[k]) ==> Part(files[k]) in IncludedParts(files)
  {
    if files != [] {
      var n := |files| - 1;
      var init := files[..n];
      IncludedPartsMembers(init);
      forall p | p in IncludedParts(files)
        ensures exists k :: 0 <= k < |files| && Included(files[k]) && p == Part(files[k])
      {
        if p in IncludedParts(init) {
          var k :| 0 <= k < |init| && Included(init[k]) && p == Part(init[k]);
          assert files[k] == init[k];
        } else {
          assert Included(files[n]) && p == Part(files[n]);
        }
      }
      forall k | 0 <= k < |files| && Included(files[k])
        ensures Part(files[k]) in IncludedParts(files)
      {
        if k < n {
          assert files[k] == init[k];
        }
      }
    }
  }

  /** At most one part per file. */
  lemma {:induction false} IncludedPartsCount(files: seq<MdFile>)
    ensures |IncludedParts(files)| <= |files|
  {
    if files != [] {
      IncludedPartsCount(files[..|files| - 1]);
    }
  }

  /** Every part is nonempty, since it starts with its header. */
  lemma {:induction false} IncludedPartsNonEmpty(files: seq<MdFile>)
    ensures forall k :: 0 <= k < |IncludedParts(files)| ==> IncludedParts(files)[k] != ""
  {
    if files != [] {
      IncludedPartsNonEmpty(files[..|files| - 1]);
    }
  }

  /** The loaded text is empty (and v5 gives up) exactly when no file is
      included: none has a 2025 name and nonempty readable content. */
  lemma LoadedTextEmptyIff(files: seq<MdFile>)
    ensures Join(IncludedParts(files), "\n") == "" <==> forall k :: 0 <= k < |files| ==> !Included(files[k])
  {
    var parts := IncludedParts(files);
    IncludedPartsMembers(files);
    IncludedPartsNonEmpty(files);
    if parts != [] {
      JoinKeepsFirst(parts, "\n");
      assert parts[0] in parts;
    }
  }

  /** A nonempty loaded text is not only whitespace: it starts with the
      header of its first part, which holds `-`. */
  lemma LoadedTextHasInk(files: seq<MdFile>)
    ensures Join(IncludedParts(files), "\n") != "" ==> NonWhitespace(Join(IncludedParts(files), "\n")) != ""
  {
    var parts := IncludedParts(files);
    var text := Join(parts, "\n");
    if parts != [] {
      IncludedPartsMembers(files);
      assert parts[0] in parts;
      var k :| 0 <= k < |files| && Included(files[k]) && parts[0] == Part(files[k]);
      assert parts[0][2] == '-';
      JoinKeepsFirst(parts, "\n");
      assert text[2] == parts[0][2];
      NonWhitespaceOfInk(text, 2);
    }
  }
}
