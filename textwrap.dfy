/**
 * Python's `textwrap.wrap(text, width)` with its default options
 * (expand_tabs, replace_whitespace, drop_whitespace and break_long_words on,
 * no indents, no max_lines), following `TextWrapper._munge_whitespace`,
 * `_split`, `_wrap_chunks` and `_handle_long_word`. Hyphen-aware splitting
 * (`break_on_hyphens`) is not modelled: chunks are the maximal runs of
 * whitespace and of non-whitespace, as with `break_on_hyphens=False`.
 */
module TextWrap {
  import opened Text

  /** The characters `textwrap` itself treats as whitespace: "\t\n\x0b\x0c\r ". */
  predicate IsAsciiWhitespace(c: char) {
    ('\t' <= c <= '\r') || c == ' '
  }

  /** The whitespace characters that munging turns into spaces. */
  const ControlWhitespace: set<char> := {'\t', '\n', '\U{B}', '\U{C}', '\r'}

  /** A text whose only `textwrap` whitespace is the plain space. */
  predicate Plain(s: string) {
    forall i :: 0 <= i < |s| ==> s[i] !in ControlWhitespace
  }

  const TabSize: nat := 8

  function Spaces(n: nat): (r: string)
    ensures |r| == n && forall i :: 0 <= i < n ==> r[i] == ' '
  {
    seq(n, _ => ' ')
  }

  /** `s.expandtabs(8)`, continuing from output column `column`; a newline
      or carriage return resets the column. */
  function ExpandTabs(s: string, column: nat): string {
    if s == "" then ""
    else if s[0] == '\t' then
      var pad := TabSize - column % TabSize;
      Spaces(pad) + ExpandTabs(s[1..], column + pad)
    else if s[0] == '\n' || s[0] == '\r' then [s[0]] + ExpandTabs(s[1..], 0)
    else [s[0]] + ExpandTabs(s[1..], column + 1)
  }

  /** `s.translate(unicode_whitespace_trans)`: every `textwrap` whitespace
      character becomes a space. */
  function WhitespaceToSpaces(s: string): string {
    seq(|s|, i requires 0 <= i < |s| => if IsAsciiWhitespace(s[i]) then ' ' else s[i])
  }

  /** `TextWrapper._munge_whitespace` */
  function Munge(s: string): string {
    WhitespaceToSpaces(ExpandTabs(s, 0))
  }

  /** Length of the maximal run at the front of `s` whose characters are all
      whitespace or all non-whitespace. */
  function RunLength(s: string): (n: nat)
    requires s != ""
    ensures 1 <= n <= |s|
    ensures forall i :: 0 <= i < n ==> IsAsciiWhitespace(s[i]) == IsAsciiWhitespace(s[0])
    ensures n == |s| || IsAsciiWhitespace(s[n]) != IsAsciiWhitespace(s[0])
  {
    if |s| == 1 || IsAsciiWhitespace(s[1]) != IsAsciiWhitespace(s[0]) then 1
    else 1 + RunLength(s[1..])
  }

  /** `TextWrapper._split` without hyphen handling: the nonempty pieces of
      `re.split(r'([\t\n\x0b\x0c\r ]+)', s)`, i.e. the maximal runs. */
  function SplitChunks(s: string): (cs: seq<string>)
    ensures Concat(cs) == s
    ensures forall i :: 0 <= i < |cs| ==> cs[i] != ""
    decreases |s|
  {
    if s == "" then []
    else
      var n := RunLength(s);
      var rest := SplitChunks(s[n..]);
      assert s[..n] + s[n..] == s;
      [s[..n]] + rest
  }

  /** The chunks of a munged text are well formed. */
  lemma {:induction false} SplitChunksWellFormed(s: string)
    requires Plain(s)
    ensures WellFormed(SplitChunks(s))
    decreases |s|
  {
    if s != "" {
      var n := RunLength(s);
      assert Plain(s[..n]) && Plain(s[n..]);
      SplitChunksWellFormed(s[n..]);
    }
  }

  /** A maximal run at the front is split off as one chunk. */
  lemma {:induction false} RunLengthOfRun(x: string, y: string)
    requires x != ""
    requires forall i :: 0 <= i < |x| ==> IsAsciiWhitespace(x[i]) == IsAsciiWhitespace(x[0])
    requires y == "" || IsAsciiWhitespace(y[0]) != IsAsciiWhitespace(x[0])
    ensures RunLength(x + y) == |x|
  {
    if |x| > 1 {
      assert (x + y)[1..] == x[1..] + y;
      RunLengthOfRun(x[1..], y);
    }
  }

  lemma SplitChunksOfRun(x: string, y: string)
    requires x != ""
    requires forall i :: 0 <= i < |x| ==> IsAsciiWhitespace(x[i]) == IsAsciiWhitespace(x[0])
    requires y == "" || IsAsciiWhitespace(y[0]) != IsAsciiWhitespace(x[0])
    ensures SplitChunks(x + y) == [x] + SplitChunks(y)
  {
    RunLengthOfRun(x, y);
    assert (x + y)[..|x|] == x;
    assert (x + y)[|x|..] == y;
  }

  /** A chunk `c` with `c.strip() == ''`. */
  predicate IsBlank(s: string) {
    forall i :: 0 <= i < |s| ==> IsSpace(s[i])
  }

  /** The chunks `_wrap_chunks` works on: nonempty and munged. */
  predicate WellFormed(cs: seq<string>) {
    forall i :: 0 <= i < |cs| ==> cs[i] != "" && Plain(cs[i])
  }

  /** Termination measure of the wrapping loop. */
  function Weight(cs: seq<string>): nat {
    |Concat(cs)| + |cs|
  }

  /** The number of chunks the inner loop of `_wrap_chunks` moves onto a
      line with `room` columns left: it stops at the first chunk that does
      not fit. */
  function FitCount(cs: seq<string>, room: nat): (k: nat)
    ensures k <= |cs|
    ensures |Concat(cs[..k])| <= room
    ensures k < |cs| ==> |Concat(cs[..k])| + |cs[k]| > room
  {
    if cs == [] || |cs[0]| > room then 0
    else
      var k' := FitCount(cs[1..], room - |cs[0]|);
      assert cs[..1 + k'] == [cs[0]] + cs[1..][..k'];
      assert ([cs[0]] + cs[1..][..k'])[1..] == cs[1..][..k'];
      1 + k'
  }

  /** A line under construction and the chunks still to place. */
  datatype Cut = Cut(line: seq<string>, rest: seq<string>)

  /** `_handle_long_word` with `break_long_words` on: when the next chunk
      cannot fit on any line, as much of it as fits is put on this line. */
  function BreakLongWord(line: seq<string>, rest: seq<string>, width: nat): Cut
    requires |Concat(line)| <= width
  {
    if rest != [] && |rest[0]| > width then
      var room := width - |Concat(line)|;
      Cut(line + [rest[0][..room]], [rest[0][room..]] + rest[1..])
    else Cut(line, rest)
  }

  /** The `drop_whitespace` step at the end of a line: one trailing blank
      chunk is removed. */
  function DropTrailingBlank(line: seq<string>): seq<string> {
    if line != [] && IsBlank(line[|line| - 1]) then line[..|line| - 1] else line
  }

  /** One turn of the outer loop of `_wrap_chunks`. `started` says whether a
      line has been emitted already (`if lines:`): only then is a leading
      blank chunk dropped. */
  function CutLine(cs: seq<string>, width: nat, started: bool): Cut
    requires width >= 1 && cs != []
  {
    var todo := if started && IsBlank(cs[0]) then cs[1..] else cs;
    var k := FitCount(todo, width);
    var broken := BreakLongWord(todo[..k], todo[k..], width);
    Cut(DropTrailingBlank(broken.line), broken.rest)
  }

  /** `_wrap_chunks` on the (unreversed) chunk list. */
  function WrapChunks(cs: seq<string>, width: nat, started: bool): seq<string>
    requires width >= 1
    decreases Weight(cs)
  {
    if cs == [] then []
    else
      var c := CutLine(cs, width, started);
      CutLineFacts(cs, width, started);
      if c.line == [] then WrapChunks(c.rest, width, started)
      else [Concat(c.line)] + WrapChunks(c.rest, width, true)
  }

  /** `textwrap.wrap(text, width)` */
  function Wrap(text: string, width: nat): seq<string>
    requires width >= 1
  {
    WrapChunks(SplitChunks(Munge(text)), width, false)
  }

  // ---------------------------------------------------------------------
  // One turn of the loop

  lemma ConcatCons(x: string, xs: seq<string>)
    ensures Concat([x] + xs) == x + Concat(xs)
  {
    assert ([x] + xs)[0] == x;
    assert ([x] + xs)[1..] == xs;
  }

  lemma ConcatSplitAt(cs: seq<string>, k: nat)
    requires k <= |cs|
    ensures Concat(cs) == Concat(cs[..k]) + Concat(cs[k..])
  {
    assert cs == cs[..k] + cs[k..];
    ConcatAppend(cs[..k], cs[k..]);
  }

  lemma BreakLongWordFacts(line: seq<string>, rest: seq<string>, width: nat)
    requires width >= 1 && |Concat(line)| <= width
    ensures var b := BreakLongWord(line, rest, width);
      && Concat(b.line) + Concat(b.rest) == Concat(line) + Concat(rest)
      && |Concat(b.line)| <= width
      && |b.rest| == |rest|
      && (rest != [] && |rest[0]| > width ==>
            |Concat(b.rest)| == |Concat(rest)| - (width - |Concat(line)|))
      && (rest == [] || |rest[0]| <= width ==> b == Cut(line, rest))
      && (WellFormed(line) && WellFormed(rest) ==>
            WellFormed(b.rest) && WellFormed(DropTrailingBlank(b.line)))
  {
    if rest != [] && |rest[0]| > width {
      LongWordConcat(line, rest, width);
      if WellFormed(line) && WellFormed(rest) {
        LongWordWellFormed(line, rest, width);
      }
    }
  }

  /** Breaking a long word moves its first `width - len(line)` characters to
      the line, which is then full. */
  lemma LongWordConcat(line: seq<string>, rest: seq<string>, width: nat)
    requires |Concat(line)| <= width && rest != [] && |rest[0]| > width
    ensures var b := BreakLongWord(line, rest, width);
      && Concat(b.line) + Concat(b.rest) == Concat(line) + Concat(rest)
      && |Concat(b.line)| == width
      && |b.rest| == |rest|
      && |Concat(b.rest)| == |Concat(rest)| - (width - |Concat(line)|)
  {
    var room := width - |Concat(line)|;
    var piece, tail := rest[0][..room], rest[0][room..];
    assert rest[0] == piece + tail;
    ConcatAppend(line, [piece]);
    ConcatSingle(piece);
    ConcatCons(tail, rest[1..]);
    ConcatCons(rest[0], rest[1..]);
    assert rest == [rest[0]] + rest[1..];
  }

  /** Both parts of a broken long word are munged, the part left over is
      not empty, and an empty piece is dropped from the end of the line. */
  lemma LongWordWellFormed(line: seq<string>, rest: seq<string>, width: nat)
    requires |Concat(line)| <= width && rest != [] && |rest[0]| > width
    requires WellFormed(line) && WellFormed(rest)
    ensures var b := BreakLongWord(line, rest, width);
      WellFormed(b.rest) && WellFormed(DropTrailingBlank(b.line))
  {
    var b := BreakLongWord(line, rest, width);
    var room := width - |Concat(line)|;
    var piece, tail := rest[0][..room], rest[0][room..];
    assert Plain(piece) && Plain(tail) && tail != "";
    assert b.line == line + [piece] && b.rest == [tail] + rest[1..];
    if piece == "" {
      assert IsBlank(piece);
      assert DropTrailingBlank(b.line) == line;
    }
  }

  lemma DropTrailingBlankFacts(line: seq<string>)
    ensures |Concat(DropTrailingBlank(line))| <= |Concat(line)|
    ensures NonWhitespace(Concat(DropTrailingBlank(line))) == NonWhitespace(Concat(line))
    ensures WellFormed(line) ==> WellFormed(DropTrailingBlank(line))
    ensures DropTrailingBlank(line) == [] || !IsBlank(line[|line| - 1]) || |line| >= 2
  {
    if line != [] && IsBlank(line[|line| - 1]) {
      var init, last := line[..|line| - 1], line[|line| - 1];
      assert line == init + [last];
      ConcatAppend(init, [last]);
      ConcatSingle(last);
      NonWhitespaceAppend(Concat(init), last);
      NonWhitespaceOfBlank(last);
    }
  }

  lemma {:induction false} WellFormedSlices(cs: seq<string>, k: nat)
    requires WellFormed(cs) && k <= |cs|
    ensures WellFormed(cs[..k]) && WellFormed(cs[k..])
  {
  }

  /** Dropping a leading blank chunk loses no ink and makes progress. */
  lemma DropLeadingBlankFacts(cs: seq<string>, started: bool)
    requires cs != []
    ensures var todo := if started && IsBlank(cs[0]) then cs[1..] else cs;
      && NonWhitespace(Concat(cs)) == NonWhitespace(Concat(todo))
      && Weight(todo) <= Weight(cs)
      && (todo != cs ==> Weight(todo) < Weight(cs))
      && (WellFormed(cs) ==> WellFormed(todo))
  {
    ConcatCons(cs[0], cs[1..]);
    assert cs == [cs[0]] + cs[1..];
    if started && IsBlank(cs[0]) {
      NonWhitespaceAppend(cs[0], Concat(cs[1..]));
      NonWhitespaceOfBlank(cs[0]);
    }
  }

  /** What one turn of the loop guarantees: it makes progress, the line fits,
      no ink is lost or reordered, and chunks stay well formed. */
  lemma CutLineFacts(cs: seq<string>, width: nat, started: bool)
    requires width >= 1 && cs != []
    ensures var c := CutLine(cs, width, started);
      && Weight(c.rest) < Weight(cs)
      && |Concat(c.line)| <= width
      && NonWhitespace(Concat(cs))
           == NonWhitespace(Concat(c.line)) + NonWhitespace(Concat(c.rest))
      && (WellFormed(cs) ==> WellFormed(c.line) && WellFormed(c.rest))
  {
    var todo := if started && IsBlank(cs[0]) then cs[1..] else cs;
    DropLeadingBlankFacts(cs, started);
    FitThenBreak(todo, width);
  }

  /** The same for the chunks left after the leading blank one is dropped:
      the inner loop, then the long-word step, then the trailing blank. */
  lemma FitThenBreak(todo: seq<string>, width: nat)
    requires width >= 1
    ensures var k := FitCount(todo, width);
      var b := BreakLongWord(todo[..k], todo[k..], width);
      var line := DropTrailingBlank(b.line);
      && Weight(b.rest) <= Weight(todo)
      && (todo != [] ==> Weight(b.rest) < Weight(todo))
      && |Concat(line)| <= width
      && NonWhitespace(Concat(todo)) == NonWhitespace(Concat(line)) + NonWhitespace(Concat(b.rest))
      && (WellFormed(todo) ==> WellFormed(line) && WellFormed(b.rest))
  {
    var k := FitCount(todo, width);
    var line, rest := todo[..k], todo[k..];
    ConcatSplitAt(todo, k);
    if WellFormed(todo) {
      WellFormedSlices(todo, k);
    }
    assert Weight(rest) + k <= Weight(todo);
    // a line left empty by the inner loop always gets a piece of the next chunk
    assert k == 0 && todo != [] ==> |rest[0]| > width;
    BreakLongWordFacts(line, rest, width);
    DropTrailingBlankFacts(BreakLongWord(line, rest, width).line);
    BrokenInk(line, rest, width);
  }

  /** Breaking a long word and dropping a trailing blank chunk keeps the ink
      of the line and the chunks after it. */
  lemma BrokenInk(line: seq<string>, rest: seq<string>, width: nat)
    requires width >= 1 && |Concat(line)| <= width
    ensures var b := BreakLongWord(line, rest, width);
      NonWhitespace(Concat(line) + Concat(rest))
        == NonWhitespace(Concat(DropTrailingBlank(b.line))) + NonWhitespace(Concat(b.rest))
  {
    var b := BreakLongWord(line, rest, width);
    BreakLongWordFacts(line, rest, width);
    DropTrailingBlankFacts(b.line);
    NonWhitespaceAppend(Concat(b.line), Concat(b.rest));
  }

  /** A nonempty line cut from well-formed chunks is a nonempty munged text
      that fits the width. */
  lemma CutLineText(cs: seq<string>, width: nat, started: bool)
    requires width >= 1 && cs != [] && WellFormed(cs)
    ensures var c := CutLine(cs, width, started);
      c.line != [] ==> 1 <= |Concat(c.line)| <= width && Plain(Concat(c.line))
  {
    var c := CutLine(cs, width, started);
    CutLineFacts(cs, width, started);
    if c.line != [] {
      ConcatCons(c.line[0], c.line[1..]);
      assert c.line == [c.line[0]] + c.line[1..];
      ConcatAvoids(c.line, ControlWhitespace);
    }
  }

  /** Every wrapped line has between 1 and `width` characters and contains no
      tab, newline or other control whitespace. */
  lemma {:induction false} WrapChunksLines(cs: seq<string>, width: nat, started: bool)
    requires width >= 1 && WellFormed(cs)
    ensures forall i :: 0 <= i < |WrapChunks(cs, width, started)| ==>
      var line := WrapChunks(cs, width, started)[i];
      1 <= |line| <= width && Plain(line)
    decreases Weight(cs)
  {
    if cs != [] {
      var c := CutLine(cs, width, started);
      CutLineFacts(cs, width, started);
      CutLineText(cs, width, started);
      if c.line == [] {
        WrapChunksLines(c.rest, width, started);
      } else {
        WrapChunksLines(c.rest, width, true);
        var tail := WrapChunks(c.rest, width, true);
        var out := WrapChunks(cs, width, started);
        assert out == [Concat(c.line)] + tail;
        assert forall i :: 0 < i < |out| ==> out[i] == tail[i - 1];
      }
    }
  }

  /** Wrapping only drops whitespace: the non-whitespace characters of the
      lines, read in order, are those of the chunks. */
  lemma {:induction false} WrapChunksInk(cs: seq<string>, width: nat, started: bool)
    requires width >= 1
    ensures NonWhitespace(Concat(WrapChunks(cs, width, started))) == NonWhitespace(Concat(cs))
    decreases Weight(cs)
  {
    if cs != [] {
      var c := CutLine(cs, width, started);
      CutLineFacts(cs, width, started);
      if c.line == [] {
        WrapChunksInk(c.rest, width, started);
        assert Concat(c.line) == "";
      } else {
        WrapChunksInk(c.rest, width, true);
        var tail := WrapChunks(c.rest, width, true);
        ConcatCons(Concat(c.line), tail);
        NonWhitespaceAppend(Concat(c.line), Concat(tail));
      }
    }
  }

  // ---------------------------------------------------------------------
  // Munging

  lemma {:induction false} ExpandTabsInk(s: string, column: nat)
    ensures NonWhitespace(ExpandTabs(s, column)) == NonWhitespace(s)
  {
    if s != "" {
      NonWhitespaceCons(s[0], s[1..]);
      assert s == [s[0]] + s[1..];
      if s[0] == '\t' {
        var pad := TabSize - column % TabSize;
        var rest := ExpandTabs(s[1..], column + pad);
        assert ExpandTabs(s, column) == Spaces(pad) + rest;
        assert IsSpace(s[0]);
        ExpandTabsInk(s[1..], column + pad);
        NonWhitespaceAppend(Spaces(pad), rest);
        NonWhitespaceOfBlank(Spaces(pad));
      } else {
        var next := if s[0] == '\n' || s[0] == '\r' then 0 else column + 1;
        var rest := ExpandTabs(s[1..], next);
        assert ExpandTabs(s, column) == [s[0]] + rest;
        ExpandTabsInk(s[1..], next);
        NonWhitespaceCons(s[0], rest);
      }
    }
  }

  /** The ink of a text with one more character in front. */
  lemma NonWhitespaceCons(c: char, t: string)
    ensures NonWhitespace([c] + t) == (if IsSpace(c) then "" else [c]) + NonWhitespace(t)
  {
    assert ([c] + t)[1..] == t;
  }

  lemma {:induction false} WhitespaceToSpacesInk(s: string)
    ensures NonWhitespace(WhitespaceToSpaces(s)) == NonWhitespace(s)
  {
    if s != "" {
      assert WhitespaceToSpaces(s)[1..] == WhitespaceToSpaces(s[1..]);
      WhitespaceToSpacesInk(s[1..]);
    }
  }

  /** Munging keeps the ink and leaves the plain space as the only
      whitespace `textwrap` knows of. */
  lemma MungeFacts(s: string)
    ensures NonWhitespace(Munge(s)) == NonWhitespace(s)
    ensures Plain(Munge(s))
  {
    var e := ExpandTabs(s, 0);
    ExpandTabsInk(s, 0);
    WhitespaceToSpacesInk(e);
    WhitespaceToSpacesPlain(e);
  }

  lemma WhitespaceToSpacesPlain(s: string)
    ensures Plain(WhitespaceToSpaces(s))
  {
    var t := WhitespaceToSpaces(s);
    forall i | 0 <= i < |t|
      ensures t[i] !in ControlWhitespace
    {
      assert t[i] == if IsAsciiWhitespace(s[i]) then ' ' else s[i];
    }
  }

  lemma {:induction false} ExpandTabsOfBlank(s: string, column: nat)
    requires forall i :: 0 <= i < |s| ==> IsAsciiWhitespace(s[i])
    ensures forall i :: 0 <= i < |ExpandTabs(s, column)| ==> IsAsciiWhitespace(ExpandTabs(s, column)[i])
  {
    if s != "" {
      var pad := TabSize - column % TabSize;
      var next := if s[0] == '\t' then column + pad
                  else if s[0] == '\n' || s[0] == '\r' then 0 else column + 1;
      var head := if s[0] == '\t' then Spaces(pad) else [s[0]];
      ExpandTabsOfBlank(s[1..], next);
      assert ExpandTabs(s, column) == head + ExpandTabs(s[1..], next);
    }
  }

  lemma {:induction false} ExpandTabsOfTabFree(s: string, column: nat)
    requires '\t' !in s
    ensures ExpandTabs(s, column) == s
  {
    if s != "" {
      var next := if s[0] == '\n' || s[0] == '\r' then 0 else column + 1;
      ExpandTabsOfTabFree(s[1..], next);
      assert s == [s[0]] + s[1..];
    }
  }

  /** Munging leaves a text alone when its only whitespace is the plain space. */
  lemma MungeOfPlain(s: string)
    requires Plain(s)
    ensures Munge(s) == s
  {
    assert '\t' !in s;
    ExpandTabsOfTabFree(s, 0);
    assert WhitespaceToSpaces(s) == s;
  }

  // ---------------------------------------------------------------------
  // Properties of `textwrap.wrap`

  /** Every line of `textwrap.wrap(text, width)` is nonempty, at most `width`
      long (over-long words are cut) and free of tabs and newlines. */
  lemma WrapLines(text: string, width: nat)
    requires width >= 1
    ensures forall i :: 0 <= i < |Wrap(text, width)| ==>
      1 <= |Wrap(text, width)[i]| <= width
      && '\n' !in Wrap(text, width)[i] && '\t' !in Wrap(text, width)[i]
  {
    MungeFacts(text);
    var cs := SplitChunks(Munge(text));
    SplitChunksWellFormed(Munge(text));
    WrapChunksLines(cs, width, false);
    var out := Wrap(text, width);
    forall i | 0 <= i < |out|
      ensures '\n' !in out[i] && '\t' !in out[i]
    {
      assert Plain(out[i]);
    }
  }

  /** Wrapping only drops whitespace: the non-whitespace characters of the
      lines, read in order, are exactly those of the input. */
  lemma WrapKeepsInk(text: string, width: nat)
    requires width >= 1
    ensures NonWhitespace(Concat(Wrap(text, width))) == NonWhitespace(text)
  {
    MungeFacts(text);
    WrapChunksInk(SplitChunks(Munge(text)), width, false);
  }

  lemma {:induction false} WrapBlankChunk(b: string, width: nat, started: bool)
    requires width >= 1 && IsBlank(b)
    ensures WrapChunks([b], width, started) == []
    decreases |b|
  {
    var c := CutLine([b], width, started);
    assert [b][1..] == [];
    if !started {
      var k := FitCount([b], width);
      if k == 0 {
        assert [b][..0] == [] && [b][0..] == [b];
        assert Concat([]) == "";
        var piece, tail := b[..width], b[width..];
        assert BreakLongWord([], [b], width) == Cut([piece], [tail]);
        assert IsBlank(piece) && IsBlank(tail);
        assert c.line == [] && c.rest == [tail];
        WrapBlankChunk(tail, width, started);
      } else {
        assert [b][..1] == [b] && [b][1..] == [];
      }
    }
  }

  /** Empty or whitespace-only input (in `textwrap`'s sense of whitespace)
      gives no lines at all. */
  lemma WrapOfWhitespace(text: string, width: nat)
    requires width >= 1
    requires forall i :: 0 <= i < |text| ==> IsAsciiWhitespace(text[i])
    ensures Wrap(text, width) == []
  {
    ExpandTabsOfBlank(text, 0);
    var m := Munge(text);
    assert forall i :: 0 <= i < |m| ==> m[i] == ' ';
    if m != "" {
      assert RunLength(m) == |m|;
      assert m[..|m|] == m && m[|m|..] == "";
      assert SplitChunks(m) == [m];
      WrapBlankChunk(m, width, false);
    }
  }

  /** The fixed-width slices of `s`. */
  function Slices(s: string, width: nat): seq<string>
    requires width >= 1
    decreases |s|
  {
    if s == "" then []
    else if |s| <= width then [s]
    else [s[..width]] + Slices(s[width..], width)
  }

  lemma {:induction false} WrapSolidChunk(s: string, width: nat, started: bool)
    requires width >= 1 && s != ""
    requires forall i :: 0 <= i < |s| ==> !IsSpace(s[i])
    ensures WrapChunks([s], width, started) == Slices(s, width)
    decreases |s|
  {
    assert !IsBlank(s) by { assert !IsSpace(s[0]); }
    assert [s][1..] == [];
    var c := CutLine([s], width, started);
    if |s| <= width {
      assert [s][..1] == [s] && [s][1..] == [];
      assert FitCount([s], width) == 1;
      assert c == Cut([s], []);
      assert Concat([s]) == s;
    } else {
      assert FitCount([s], width) == 0;
      assert [s][..0] == [] && [s][0..] == [s];
      assert Concat([]) == "";
      var piece, tail := s[..width], s[width..];
      assert BreakLongWord([], [s], width) == Cut([piece], [tail]);
      assert !IsBlank(piece) by { assert !IsSpace(piece[0]); }
      assert c == Cut([piece], [tail]);
      assert Concat([piece]) == piece;
      WrapSolidChunk(tail, width, true);
    }
  }

  /** Text without any whitespace, such as most CJK prose, is cut into
      consecutive slices of exactly `width` characters (the last one
      shorter). */
  lemma WrapOfSolidText(text: string, width: nat)
    requires width >= 1
    requires forall i :: 0 <= i < |text| ==> !IsSpace(text[i])
    ensures Wrap(text, width) == Slices(text, width)
  {
    assert Plain(text);
    MungeOfPlain(text);
    var m := Munge(text);
    if text != "" {
      assert forall i :: 0 <= i < |m| ==> !IsAsciiWhitespace(m[i]);
      assert RunLength(m) == |m|;
      assert m[..|m|] == m && m[|m|..] == "";
      assert SplitChunks(m) == [m];
      WrapSolidChunk(m, width, false);
    }
  }

  /** A chunk and the chunks before it are no longer than all chunks. */
  lemma ConcatPrefixPlusNext(cs: seq<string>, k: nat)
    ensures k < |cs| ==> |Concat(cs[..k])| + |cs[k]| <= |Concat(cs)|
  {
    if k < |cs| {
      ConcatSplitAt(cs, k + 1);
      assert cs[..k + 1] == cs[..k] + [cs[k]];
      ConcatAppend(cs[..k], [cs[k]]);
      ConcatSingle(cs[k]);
    }
  }

  lemma FitCountAll(cs: seq<string>, room: nat)
    requires |Concat(cs)| <= room
    ensures FitCount(cs, room) == |cs|
  {
    ConcatPrefixPlusNext(cs, FitCount(cs, room));
  }

  /** A text that fits on one line and does not end in whitespace comes back
      as that single (munged) line. */
  lemma WrapOfShortText(text: string, width: nat)
    requires width >= 1
    requires 1 <= |Munge(text)| <= width
    requires !IsSpace(Munge(text)[|Munge(text)| - 1])
    ensures Wrap(text, width) == [Munge(text)]
  {
    var m := Munge(text);
    var cs := SplitChunks(m);
    assert cs != [];
    FitCountAll(cs, width);
    LastChunkOfText(m, cs);
    assert cs[..|cs|] == cs && cs[|cs|..] == [];
    assert BreakLongWord(cs, [], width) == Cut(cs, []);
    assert DropTrailingBlank(cs) == cs;
    assert CutLine(cs, width, false) == Cut(cs, []);
    assert WrapChunks(cs, width, false) == [Concat(cs)] + WrapChunks([], width, true);
  }

  /** The last chunk ends with the last character of the text. */
  lemma LastChunkOfText(m: string, cs: seq<string>)
    requires m != "" && Concat(cs) == m && forall i :: 0 <= i < |cs| ==> cs[i] != ""
    requires !IsSpace(m[|m| - 1])
    ensures cs != [] && !IsBlank(cs[|cs| - 1])
  {
    assert cs != [];
    var last := cs[|cs| - 1];
    ConcatLast(cs);
    assert !IsSpace(last[|last| - 1]);
  }

  /** A concatenation ends with the last character of its last piece. */
  lemma ConcatLast(cs: seq<string>)
    requires cs != [] && cs[|cs| - 1] != ""
    ensures var m := Concat(cs); var last := cs[|cs| - 1];
      m != "" && m[|m| - 1] == last[|last| - 1]
  {
    var last := cs[|cs| - 1];
    ConcatSplitAt(cs, |cs| - 1);
    assert cs[|cs| - 1..] == [last];
    ConcatSingle(last);
  }

  /** A text without any whitespace. */
  predicate Solid(s: string) {
    forall i :: 0 <= i < |s| ==> !IsSpace(s[i])
  }

  lemma SplitTwoWords(a: string, b: string)
    requires a != "" && b != "" && Solid(a) && Solid(b)
    ensures SplitChunks(a + " " + b) == [a, " ", b]
  {
    assert SplitChunks("") == [];
    assert b + "" == b;
    SplitChunksOfRun(b, "");
    SplitChunksOfRun(" ", b);
    assert a + " " + b == a + (" " + b);
    SplitChunksOfRun(a, " " + b);
  }

  /** A word that fits on a line is that line. */
  lemma WrapOneWord(b: string, width: nat, started: bool)
    requires width >= 1 && b != "" && Solid(b) && |b| <= width
    ensures WrapChunks([b], width, started) == [b]
  {
    assert !IsBlank(b) by { assert !IsSpace(b[0]); }
    assert [b][1..] == [];
    assert FitCount([b], width) == 1;
    assert [b][..1] == [b] && [b][1..] == [];
    assert CutLine([b], width, started) == Cut([b], []);
    ConcatSingle(b);
  }

  /** Greedy line filling: two words that do not fit on one line together
      (with the space between them) are wrapped onto two lines, and the
      space is dropped. */
  lemma WrapTwoWords(a: string, b: string, width: nat)
    requires width >= 1 && a != "" && b != "" && Solid(a) && Solid(b)
    requires |a| <= width && |b| <= width && |a| + 1 + |b| > width
    ensures Wrap(a + " " + b, width) == [a, b]
  {
    var t := a + " " + b;
    PlainTwoWords(a, b);
    MungeOfPlain(t);
    SplitTwoWords(a, b);
    assert Wrap(t, width) == WrapChunks([a, " ", b], width, false);
    WrapChunksTwoWords(a, b, width);
  }

  /** Two words with a space between them hold no control whitespace. */
  lemma PlainTwoWords(a: string, b: string)
    requires Solid(a) && Solid(b)
    ensures Plain(a + " " + b)
  {
    var t := a + " " + b;
    forall i | 0 <= i < |t|
      ensures t[i] !in ControlWhitespace
    {
      if i < |a| { assert t[i] == a[i]; }
      else if i > |a| { assert t[i] == b[i - |a| - 1]; }
    }
  }

  /** The loop of `_wrap_chunks` on the chunks of two such words. */
  lemma WrapChunksTwoWords(a: string, b: string, width: nat)
    requires width >= 1 && a != "" && b != "" && Solid(a) && Solid(b)
    requires |a| <= width && |b| <= width && |a| + 1 + |b| > width
    ensures WrapChunks([a, " ", b], width, false) == [a, b]
  {
    ConcatSingle(a);
    ConcatSingle(b);
    if |a| == width {
      WrapWordAtFullLine(a, b, width);
      assert WrapChunks([" ", b], width, true) == [b] + WrapChunks([], width, true);
    } else {
      WrapWordWithSpace(a, b, width);
      WrapOneWord(b, width, true);
    }
  }

  lemma WrapWordAtFullLine(a: string, b: string, width: nat)
    requires width >= 1 && a != "" && Solid(a) && |a| == width
    requires b != "" && Solid(b) && |b| <= width
    ensures CutLine([a, " ", b], width, false) == Cut([a], [" ", b])
    ensures CutLine([" ", b], width, true) == Cut([b], [])
  {
    var cs := [a, " ", b];
    assert cs[1..] == [" ", b];
    assert FitCount(cs[1..], 0) == 0;
    assert FitCount(cs, width) == 1;
    assert cs[..1] == [a] && cs[1..] == [" ", b];
    assert !IsBlank(a) by { assert !IsSpace(a[0]); }
    assert CutLine(cs, width, false) == Cut([a], [" ", b]);
    assert IsBlank(" ");
    assert [" ", b][1..] == [b];
    assert !IsBlank(b) by { assert !IsSpace(b[0]); }
    assert [b][1..] == [];
    assert FitCount([b], width) == 1;
    assert [b][..1] == [b];
  }

  lemma WrapWordWithSpace(a: string, b: string, width: nat)
    requires width >= 1 && a != "" && Solid(a) && |a| < width
    requires |b| <= width && |a| + 1 + |b| > width
    ensures CutLine([a, " ", b], width, false) == Cut([a], [b])
  {
    var cs := [a, " ", b];
    assert cs[1..] == [" ", b] && cs[1..][1..] == [b];
    assert FitCount([b], width - |a| - 1) == 0;
    assert FitCount(cs[1..], width - |a|) == 1;
    assert FitCount(cs, width) == 2;
    assert cs[..2] == [a, " "] && cs[2..] == [b];
    assert BreakLongWord([a, " "], [b], width) == Cut([a, " "], [b]);
    assert IsBlank(" ");
    assert DropTrailingBlank([a, " "]) == [a];
  }
}
