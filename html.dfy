/**
 * v3's `html_to_markdown` after its tag-specific rewrites: removal of the
 * remaining tags, the six entity replacements in their fixed order, the two
 * whitespace collapses and the final `strip()`; then `convert_to_markdown`
 * and the choice of the document text (fetched page or fallback).
 *
 * The tag-specific rewrites (headings, paragraphs, lists, links, emphasis,
 * code, line breaks) are a parameter `rewrite` of the pipeline: every
 * property proved here holds whatever they produce.
 */
module Html {
  import opened Text
  import opened Wrappers

  // ---------------------------------------------------------------------
  // re.sub(r'<[^>]+>', '', text)

  /** Scanning left to right, a `<` starts a match when the first `>` after it
      is at least two positions further on; the match is deleted and the scan
      resumes after it. Any other character is kept. */
  function StripTags(s: string): string
    decreases |s|
  {
    if s == "" then ""
    else if s[0] == '<' then
      var j := IndexOf(s[1..], '>');
      if 1 <= j < |s| - 1 then StripTags(s[j + 2..]) else "<" + StripTags(s[1..])
    else [s[0]] + StripTags(s[1..])
  }

  /** A tag from `i` to `j`: a `<`, then one or more characters other than
      `>`, then `>`. */
  predicate TagAt(t: string, i: nat, j: nat) {
    i + 1 < j < |t| && t[i] == '<' && t[j] == '>' && '>' !in t[i + 1..j]
  }

  /** No tag anywhere. */
  ghost predicate NoTags(t: string) {
    forall i: nat, j: nat :: !TagAt(t, i, j)
  }

  /** Tag removal only deletes: a character absent from the input is absent
      from the output. */
  lemma {:induction false} StripTagsAvoids(s: string, c: char)
    requires c !in s
    ensures c !in StripTags(s)
    decreases |s|
  {
    if s != "" {
      if s[0] == '<' {
        var j := IndexOf(s[1..], '>');
        if 1 <= j < |s| - 1 {
          StripTagsAvoids(s[j + 2..], c);
        } else {
          StripTagsAvoids(s[1..], c);
        }
      } else {
        StripTagsAvoids(s[1..], c);
      }
    }
  }

  lemma NoTagsCons(c: char, r: string)
    requires NoTags(r)
    requires c == '<' ==> '>' !in r || (r != "" && r[0] == '>')
    ensures NoTags([c] + r)
  {
    var t := [c] + r;
    forall i: nat, j: nat
      ensures !TagAt(t, i, j)
    {
      if i == 0 {
        if 1 < j < |t| && c == '<' && t[j] == '>' {
          assert t[j] == r[j - 1] && r[j - 1] in r;
          assert t[1..j][0] == r[0];
        }
      } else if i + 1 < j < |t| {
        assert !TagAt(r, i - 1, j - 1);
        assert t[i + 1..j] == r[i..j - 1];
        assert t[i] == r[i - 1] && t[j] == r[j - 1];
      }
    }
  }

  /** After tag removal no tag is left. */
  lemma {:induction false} StripTagsNoTags(s: string)
    ensures NoTags(StripTags(s))
    decreases |s|
  {
    if s != "" {
      if s[0] == '<' {
        var j := IndexOf(s[1..], '>');
        if 1 <= j < |s| - 1 {
          StripTagsNoTags(s[j + 2..]);
        } else {
          StripTagsNoTags(s[1..]);
          var r := StripTags(s[1..]);
          if j < |s| - 1 {
            assert s[1] == '>';
            assert r == [s[1]] + StripTags(s[2..]);
          } else {
            StripTagsAvoids(s[1..], '>');
          }
          NoTagsCons('<', r);
        }
      } else {
        StripTagsNoTags(s[1..]);
        NoTagsCons(s[0], StripTags(s[1..]));
      }
    }
  }

  lemma NoTagsTail(s: string)
    requires s != "" && NoTags(s)
    ensures NoTags(s[1..])
  {
    forall i: nat, j: nat
      ensures !TagAt(s[1..], i, j)
    {
      TagAtShift(s, i, j);
    }
  }

  /** A tag of `s[1..]` is a tag of `s`, one position on. */
  lemma TagAtShift(s: string, i: nat, j: nat)
    requires s != ""
    ensures TagAt(s[1..], i, j) == TagAt(s, i + 1, j + 1)
  {
    var t := s[1..];
    if i + 1 < j < |t| {
      var u, v := s[i + 2..j + 1], t[i + 1..j];
      assert |u| == |v|;
      forall k | 0 <= k < |u|
        ensures u[k] == v[k]
      {
        assert u[k] == s[i + 2 + k];
      }
      assert u == v;
      assert s[i + 1] == t[i] && s[j + 1] == t[j];
    }
  }

  /** Text without tags is left alone. */
  lemma {:induction false} StripTagsOfNoTags(s: string)
    requires NoTags(s)
    ensures StripTags(s) == s
    decreases |s|
  {
    if s != "" {
      NoTagsTail(s);
      StripTagsOfNoTags(s[1..]);
      if s[0] == '<' {
        var j := IndexOf(s[1..], '>');
        assert s[1..j + 1] == s[1..][..j];
        assert !TagAt(s, 0, j + 1);
      }
    }
  }

  /** Removing tags a second time changes nothing. */
  lemma StripTagsIdempotent(s: string)
    ensures StripTags(StripTags(s)) == StripTags(s)
  {
    StripTagsNoTags(s);
    StripTagsOfNoTags(StripTags(s));
  }

  // ---------------------------------------------------------------------
  // The entity replacements

  /** `s.replace(pat, rep)`: leftmost, non-overlapping occurrences. */
  function ReplaceAll(s: string, pat: string, rep: string): string
    requires pat != ""
    decreases |s|
  {
    if |s| < |pat| then s
    else if s[..|pat|] == pat then rep + ReplaceAll(s[|pat|..], pat, rep)
    else [s[0]] + ReplaceAll(s[1..], pat, rep)
  }

  /** A pattern whose first character does not occur is never replaced. */
  lemma {:induction false} ReplaceAllAbsent(s: string, pat: string, rep: string)
    requires pat != "" && pat[0] !in s
    ensures ReplaceAll(s, pat, rep) == s
    decreases |s|
  {
    if |s| >= |pat| {
      assert s[..|pat|][0] == s[0];
      ReplaceAllAbsent(s[1..], pat, rep);
    }
  }

  /** Replacing by something no longer never makes the text longer. */
  lemma {:induction false} ReplaceAllShorter(s: string, pat: string, rep: string)
    requires pat != "" && |rep| <= |pat|
    ensures |ReplaceAll(s, pat, rep)| <= |s|
    decreases |s|
  {
    if |s| >= |pat| {
      if s[..|pat|] == pat {
        ReplaceAllShorter(s[|pat|..], pat, rep);
      } else {
        ReplaceAllShorter(s[1..], pat, rep);
      }
    }
  }

  const Nbsp: string := "&nbsp;"
  const Amp: string := "&amp;"
  const Lt: string := "&lt;"
  const Gt: string := "&gt;"
  const Quot: string := "&quot;"
  const Apos: string := "&apos;"

  /** The six replacements, `&nbsp;` first and `&amp;` second. */
  function DecodeEntities(s: string): string {
    var t1 := ReplaceAll(s, Nbsp, " ");
    var t2 := ReplaceAll(t1, Amp, "&");
    var t3 := ReplaceAll(t2, Lt, "<");
    var t4 := ReplaceAll(t3, Gt, ">");
    var t5 := ReplaceAll(t4, Quot, "\"");
    ReplaceAll(t5, Apos, "'")
  }

  /** Text without `&` has no entity and is left alone. */
  lemma DecodeWithoutAmpersand(s: string)
    requires '&' !in s
    ensures DecodeEntities(s) == s
  {
    ReplaceAllAbsent(s, Nbsp, " ");
    ReplaceAllAbsent(s, Amp, "&");
    ReplaceAllAbsent(s, Lt, "<");
    ReplaceAllAbsent(s, Gt, ">");
    ReplaceAllAbsent(s, Quot, "\"");
    ReplaceAllAbsent(s, Apos, "'");
  }

  /** Decoding never makes the text longer. */
  lemma DecodeShorter(s: string)
    ensures |DecodeEntities(s)| <= |s|
  {
    var t1 := ReplaceAll(s, Nbsp, " ");
    var t2 := ReplaceAll(t1, Amp, "&");
    var t3 := ReplaceAll(t2, Lt, "<");
    var t4 := ReplaceAll(t3, Gt, ">");
    var t5 := ReplaceAll(t4, Quot, "\"");
    ReplaceAllShorter(s, Nbsp, " ");
    ReplaceAllShorter(t1, Amp, "&");
    ReplaceAllShorter(t2, Lt, "<");
    ReplaceAllShorter(t3, Gt, ">");
    ReplaceAllShorter(t4, Quot, "\"");
    ReplaceAllShorter(t5, Apos, "'");
  }

  /** One occurrence of the pattern at the front is replaced. */
  lemma ReplaceAllAtFront(pat: string, rest: string, rep: string)
    requires pat != ""
    ensures ReplaceAll(pat + rest, pat, rep) == rep + ReplaceAll(rest, pat, rep)
  {
    assert (pat + rest)[..|pat|] == pat;
    assert (pat + rest)[|pat|..] == rest;
  }

  /** The text does not start with the pattern and its first character is
      the only one the pattern could start with. */
  lemma ReplaceAllSkipFirst(s: string, pat: string, rep: string)
    requires pat != "" && s != "" && pat[0] !in s[1..]
    requires |s| < |pat| || s[..|pat|] != pat
    ensures ReplaceAll(s, pat, rep) == s
  {
    ReplaceAllAbsent(s[1..], pat, rep);
    assert [s[0]] + s[1..] == s;
  }

  /** `&amp;` is replaced before `&lt;`, so an escaped `&lt;` is decoded
      twice: `&amp;lt;` ends as `<`. */
  lemma DecodeAmpLt()
    ensures DecodeEntities(Amp + "lt;") == "<"
  {
    var s := Amp + "lt;";
    assert s[1] == 'a' && Nbsp[1] == 'n';
    assert s[..|Nbsp|] != Nbsp;
    assert s[1..] == "amp;lt;";
    ReplaceAllSkipFirst(s, Nbsp, " ");
    ReplaceAllAtFront(Amp, "lt;", "&");
    ReplaceAllAbsent("lt;", Amp, "&");
    assert "&" + "lt;" == Lt + "";
    ReplaceAllAtFront(Lt, "", "<");
    assert "<" + "" == "<";
    DecodeRestAbsent("<");
  }

  /** `&nbsp;` is replaced before `&amp;`, so an escaped `&nbsp;` survives as
      the literal text `&nbsp;`. */
  lemma DecodeAmpNbsp()
    ensures DecodeEntities(Amp + "nbsp;") == Nbsp
  {
    AmpNbspFirstTwo();
    NbspSurvivesRest();
  }

  lemma AmpNbspFirstTwo()
    ensures ReplaceAll(ReplaceAll(Amp + "nbsp;", Nbsp, " "), Amp, "&") == Nbsp
  {
    AmpNbspFirst();
    AmpNbspSecond();
  }

  /** `&amp;nbsp;` holds no `&nbsp;`. */
  lemma AmpNbspFirst()
    ensures ReplaceAll(Amp + "nbsp;", Nbsp, " ") == Amp + "nbsp;"
  {
    var s := Amp + "nbsp;";
    assert s[1] == 'a' && Nbsp[1] == 'n';
    assert s[..|Nbsp|] != Nbsp;
    assert s[1..] == "amp;nbsp;";
    ReplaceAllSkipFirst(s, Nbsp, " ");
  }

  /** Its `&amp;` becomes `&`, which leaves `&nbsp;`. */
  lemma AmpNbspSecond()
    ensures ReplaceAll(Amp + "nbsp;", Amp, "&") == Nbsp
  {
    ReplaceAllAtFront(Amp, "nbsp;", "&");
    ReplaceAllAbsent("nbsp;", Amp, "&");
    assert "&" + "nbsp;" == Nbsp;
  }

  lemma NbspSurvivesRest()
    ensures ReplaceAll(ReplaceAll(ReplaceAll(ReplaceAll(Nbsp, Lt, "<"), Gt, ">"), Quot, "\""), Apos, "'")
      == Nbsp
  {
    assert Nbsp[1..] == "nbsp;";
    assert Nbsp[..|Lt|][1] != Lt[1] && Nbsp[..|Gt|][1] != Gt[1];
    assert Nbsp[..|Quot|][1] != Quot[1] && Nbsp[..|Apos|][1] != Apos[1];
    ReplaceAllSkipFirst(Nbsp, Lt, "<");
    ReplaceAllSkipFirst(Nbsp, Gt, ">");
    ReplaceAllSkipFirst(Nbsp, Quot, "\"");
    ReplaceAllSkipFirst(Nbsp, Apos, "'");
  }

  /** The last four replacements leave a text without `&` alone. */
  lemma DecodeRestAbsent(t: string)
    requires '&' !in t
    ensures ReplaceAll(ReplaceAll(ReplaceAll(t, Gt, ">"), Quot, "\""), Apos, "'") == t
    ensures ReplaceAll(t, Lt, "<") == t
  {
    ReplaceAllAbsent(t, Lt, "<");
    ReplaceAllAbsent(t, Gt, ">");
    ReplaceAllAbsent(t, Quot, "\"");
    ReplaceAllAbsent(t, Apos, "'");
  }

  // ---------------------------------------------------------------------
  // re.sub(r'\n\s*\n', '\n\n', text)

  /** A newline starts a match when the whitespace run after it contains
      another newline; the greedy `\s*` makes the match end at the last
      newline of that run. The match becomes exactly two newlines. */
  function CollapseBlankLines(s: string): string
    decreases |s|
  {
    if s == "" then ""
    else if s[0] == '\n' then
      var e := LastIndexOf(s[1..][..SpaceRun(s[1..])], '\n');
      if e >= 0 then "\n\n" + CollapseBlankLines(s[e + 2..])
      else "\n" + CollapseBlankLines(s[1..])
    else [s[0]] + CollapseBlankLines(s[1..])
  }

  /** Three newlines start at position `i`. */
  predicate TripleNewlineAt(t: string, i: nat)
    requires i + 2 < |t|
  {
    t[i] == '\n' && t[i + 1] == '\n' && t[i + 2] == '\n'
  }

  /** No three newlines in a row. */
  predicate NoTripleNewline(t: string) {
    forall i: nat :: i + 2 < |t| ==> !TripleNewlineAt(t, i)
  }

  lemma NoTripleNewlineCons(c: char, r: string)
    requires NoTripleNewline(r)
    requires c == '\n' ==> !(|r| >= 2 && r[0] == '\n' && r[1] == '\n')
    ensures NoTripleNewline([c] + r)
  {
    var t := [c] + r;
    forall i: nat | 0 < i && i + 2 < |t|
      ensures !TripleNewlineAt(t, i)
    {
      assert t[i] == r[i - 1] && t[i + 1] == r[i] && t[i + 2] == r[i + 1];
      assert !TripleNewlineAt(r, i - 1);
    }
  }

  /** After the collapse no three newlines follow each other, and the text
      keeps its first character unless that is a newline. */
  lemma {:induction false} CollapseBlankLinesFacts(s: string)
    ensures NoTripleNewline(CollapseBlankLines(s))
    ensures s != "" && s[0] != '\n' ==> CollapseBlankLines(s) != "" && CollapseBlankLines(s)[0] == s[0]
    decreases |s|
  {
    if s != "" {
      var t := s[1..];
      if s[0] == '\n' {
        var w := SpaceRun(t);
        var e := LastIndexOf(t[..w], '\n');
        if e >= 0 {
          var rest := s[e + 2..];
          CollapseBlankLinesFacts(rest);
          // after the last newline of the run comes a non-newline or the end
          assert rest != "" ==> rest[0] != '\n' by {
            if rest != "" && e + 1 < w {
              assert rest[0] == t[..w][e + 1];
            } else if rest != "" {
              assert rest[0] == t[w];
            }
          }
          var r := CollapseBlankLines(rest);
          NoTripleNewlineCons('\n', r);
          NoTripleNewlineCons('\n', ['\n'] + r);
          assert "\n\n" + r == ['\n'] + (['\n'] + r);
        } else {
          CollapseBlankLinesFacts(t);
          assert t != "" ==> t[0] != '\n';
          NoTripleNewlineCons('\n', CollapseBlankLines(t));
        }
      } else {
        CollapseBlankLinesFacts(t);
        NoTripleNewlineCons(s[0], CollapseBlankLines(t));
      }
    }
  }

  // ---------------------------------------------------------------------
  // re.sub(r'[ \t]+', ' ', text)

  predicate IsBlankChar(c: char) {
    c == ' ' || c == '\t'
  }

  /** Length of the run of spaces and tabs at the front of `s`. */
  function BlankRun(s: string): (n: nat)
    ensures n <= |s| && (n < |s| ==> !IsBlankChar(s[n]))
    ensures forall i :: 0 <= i < n ==> IsBlankChar(s[i])
  {
    if s != "" && IsBlankChar(s[0]) then 1 + BlankRun(s[1..]) else 0
  }

  /** Every run of spaces and tabs becomes one space. */
  function CollapseSpaces(s: string): string
    decreases |s|
  {
    if s == "" then ""
    else if IsBlankChar(s[0]) then " " + CollapseSpaces(s[BlankRun(s)..])
    else [s[0]] + CollapseSpaces(s[1..])
  }

  /** Two spaces start at position `i`. */
  predicate DoubleSpaceAt(t: string, i: nat)
    requires i + 1 < |t|
  {
    t[i] == ' ' && t[i + 1] == ' '
  }

  /** No two spaces in a row. */
  predicate NoDoubleSpace(t: string) {
    forall i: nat :: i + 1 < |t| ==> !DoubleSpaceAt(t, i)
  }

  /** The collapse keeps the text empty or not, and keeps its first
      character unless that is a space or a tab, which becomes a space. */
  lemma CollapseSpacesHead(s: string)
    ensures (CollapseSpaces(s) == "") == (s == "")
    ensures s != "" ==> CollapseSpaces(s)[0] == (if IsBlankChar(s[0]) then ' ' else s[0])
  {
  }

  /** After the collapse there is no tab and no double space, and three
      newlines in a row appear only where they were already. */
  lemma {:induction false} CollapseSpacesFacts(s: string)
    ensures '\t' !in CollapseSpaces(s)
    ensures NoDoubleSpace(CollapseSpaces(s))
    ensures NoTripleNewline(s) ==> NoTripleNewline(CollapseSpaces(s))
    decreases |s|
  {
    if s != "" {
      var r := CollapseSpaces(s);
      if IsBlankChar(s[0]) {
        var rest := s[BlankRun(s)..];
        CollapseSpacesFacts(rest);
        var t := CollapseSpaces(rest);
        CollapseSpacesHead(rest);
        assert r == [' '] + t;
        forall i: nat | i + 1 < |r|
          ensures !DoubleSpaceAt(r, i)
        {
          if i > 0 {
            assert r[i] == t[i - 1] && r[i + 1] == t[i];
            assert !DoubleSpaceAt(t, i - 1);
          }
        }
        if NoTripleNewline(s) {
          NoTripleNewlineSuffix(s, BlankRun(s));
          NoTripleNewlineCons(' ', t);
        }
      } else {
        var rest := s[1..];
        CollapseSpacesFacts(rest);
        var t := CollapseSpaces(rest);
        CollapseSpacesHead(rest);
        assert r == [s[0]] + t;
        forall i: nat | i + 1 < |r|
          ensures !DoubleSpaceAt(r, i)
        {
          if i > 0 {
            assert r[i] == t[i - 1] && r[i + 1] == t[i];
            assert !DoubleSpaceAt(t, i - 1);
          }
        }
        if NoTripleNewline(s) {
          NoTripleNewlineSuffix(s, 1);
          if s[0] == '\n' && rest != "" && rest[0] == '\n' {
            CollapseSpacesHead(rest[1..]);
            assert t == ['\n'] + CollapseSpaces(rest[1..]);
            if |rest| >= 2 {
              assert !TripleNewlineAt(s, 0);
            }
          }
          NoTripleNewlineCons(s[0], t);
        }
      }
    }
  }

  lemma NoTripleNewlineSuffix(s: string, k: nat)
    requires k <= |s| && NoTripleNewline(s)
    ensures NoTripleNewline(s[k..])
  {
    var t := s[k..];
    forall i: nat | i + 2 < |t|
      ensures !TripleNewlineAt(t, i)
    {
      assert t[i] == s[k + i] && t[i + 1] == s[k + i + 1] && t[i + 2] == s[k + i + 2];
      assert !TripleNewlineAt(s, k + i);
    }
  }

  // ---------------------------------------------------------------------
  // The whole normalisation

  /** What the normalised text looks like: no tab, no double space, no three
      newlines in a row, and no whitespace at either end. */
  predicate Normalized(t: string) {
    && '\t' !in t
    && NoDoubleSpace(t)
    && NoTripleNewline(t)
    && (t == "" || (!IsSpace(t[0]) && !IsSpace(t[|t| - 1])))
  }

  /** A slice of a text keeps the three "never two/three in a row" and
      "never a tab" properties. */
  lemma SliceKeeps(s: string, a: nat, b: nat)
    requires a <= b <= |s|
    ensures '\t' !in s ==> '\t' !in s[a..b]
    ensures NoDoubleSpace(s) ==> NoDoubleSpace(s[a..b])
    ensures NoTripleNewline(s) ==> NoTripleNewline(s[a..b])
  {
    var t := s[a..b];
    if NoDoubleSpace(s) {
      forall i: nat | i + 1 < |t|
        ensures !DoubleSpaceAt(t, i)
      {
        assert t[i] == s[a + i] && t[i + 1] == s[a + i + 1];
        assert !DoubleSpaceAt(s, a + i);
      }
    }
    if NoTripleNewline(s) {
      forall i: nat | i + 2 < |t|
        ensures !TripleNewlineAt(t, i)
      {
        assert t[i] == s[a + i] && t[i + 1] == s[a + i + 1] && t[i + 2] == s[a + i + 2];
        assert !TripleNewlineAt(s, a + i);
      }
    }
    if '\t' !in s {
      forall i | 0 <= i < |t|
        ensures t[i] != '\t'
      {
        assert t[i] == s[a + i];
      }
    }
  }

  /** The whitespace stages at the end of `html_to_markdown`. */
  function TidyWhitespace(s: string): string {
    Strip(CollapseSpaces(CollapseBlankLines(s)))
  }

  /** The whitespace stages leave a normalised text. */
  lemma TidyWhitespaceNormalized(s: string)
    ensures Normalized(TidyWhitespace(s))
  {
    var c := CollapseBlankLines(s);
    CollapseBlankLinesFacts(s);
    CollapseSpacesFacts(c);
    StripNormalized(CollapseSpaces(c));
  }

  /** Stripping a text without tabs, double spaces or triple newlines leaves a
      normalised text. */
  lemma StripNormalized(s: string)
    requires '\t' !in s && NoDoubleSpace(s) && NoTripleNewline(s)
    ensures Normalized(Strip(s))
  {
    var r := Strip(s);
    var a := SpaceRun(s);
    StripFacts(s);
    SliceKeeps(s, a, a + |r|);
  }

  /** `html_to_markdown(html)`, with the tag-specific rewrites of its first
      half given as `rewrite`. */
  function HtmlToMarkdown(html: string, rewrite: string -> string): string {
    TidyWhitespace(DecodeEntities(StripTags(rewrite(html))))
  }

  /** Whatever the rewrites do, the result is normalised. */
  lemma HtmlToMarkdownNormalized(html: string, rewrite: string -> string)
    ensures Normalized(HtmlToMarkdown(html, rewrite))
  {
    TidyWhitespaceNormalized(DecodeEntities(StripTags(rewrite(html))));
  }

  // ---------------------------------------------------------------------
  // convert_to_markdown and the document text of v3

  /** The content looks like markup: it contains both `<` and `>`. */
  predicate LooksLikeHtml(content: string) {
    '<' in content && '>' in content
  }

  /** `convert_to_markdown(content, content_type)` */
  function ConvertToMarkdown(content: string, contentType: string, rewrite: string -> string): string {
    if contentType == "html" then HtmlToMarkdown(content, rewrite)
    else if contentType == "text" then content
    else if LooksLikeHtml(content) then HtmlToMarkdown(content, rewrite)
    else content
  }

  /** Content declared as markup, or of another declared type than plain text
      and looking like markup, is normalised; everything else is passed
      through unchanged. */
  lemma ConvertToMarkdownDispatch(content: string, contentType: string, rewrite: string -> string)
    ensures var r := ConvertToMarkdown(content, contentType, rewrite);
      && (contentType == "text" ==> r == content)
      && (contentType == "html" || (contentType != "text" && LooksLikeHtml(content)) ==>
            r == HtmlToMarkdown(content, rewrite) && Normalized(r))
      && (contentType != "html" && !LooksLikeHtml(content) ==> r == content)
  {
    HtmlToMarkdownNormalized(content, rewrite);
  }

  /** The text v3 uses when the page cannot be fetched. */
  const Fallback: string := "未获取到正式内容，填充兜底内容."

  /** `docs_text`: the fetched page converted with the default content type
      "html", or the fallback text when fetching failed. */
  function DocsText(fetched: Option<string>, rewrite: string -> string): (t: string)
    ensures fetched.None? ==> t == Fallback
    ensures fetched.Some? ==> Normalized(t)
  {
    match fetched
    case None => Fallback
    case Some(page) =>
      HtmlToMarkdownNormalized(page, rewrite);
      ConvertToMarkdown(page, "html", rewrite)
  }
}
