/**
 * String helpers shared by the chunker, the markup normaliser and the prompt
 * builder: Python's notion of whitespace, the non-whitespace "ink" of a text,
 * list concatenation, `sep.join`, `str.split(sep)` and `str.strip()`.
 */
module Text {

  /** Python's `str.isspace()` for one character; the regex class `\s` on
      `str` patterns matches exactly the same characters. */
  predicate IsSpace(c: char) {
    ('\t' <= c <= '\r') || ('\U{1C}' <= c <= '\U{1F}') || c == ' '
    || c == '\U{85}' || c == '\U{A0}' || c == '\U{1680}'
    || ('\U{2000}' <= c <= '\U{200A}') || c == '\U{2028}' || c == '\U{2029}'
    || c == '\U{202F}' || c == '\U{205F}' || c == '\U{3000}'
  }

  /** The characters of `s` that are not whitespace, in order. */
  function NonWhitespace(s: string): string {
    if s == "" then ""
    else (if IsSpace(s[0]) then "" else [s[0]]) + NonWhitespace(s[1..])
  }

  lemma {:induction false} NonWhitespaceAppend(a: string, b: string)
    ensures NonWhitespace(a + b) == NonWhitespace(a) + NonWhitespace(b)
  {
    if a != "" {
      assert (a + b)[0] == a[0];
      assert (a + b)[1..] == a[1..] + b;
      NonWhitespaceAppend(a[1..], b);
    } else {
      assert a + b == b;
    }
  }

  /** A text made of whitespace only has no ink. */
  lemma {:induction false} NonWhitespaceOfBlank(s: string)
    requires forall i :: 0 <= i < |s| ==> IsSpace(s[i])
    ensures NonWhitespace(s) == ""
  {
    if s != "" {
      NonWhitespaceOfBlank(s[1..]);
    }
  }

  /** A text with a character that is not whitespace has ink. */
  lemma {:induction false} NonWhitespaceOfInk(s: string, i: nat)
    requires i < |s| && !IsSpace(s[i])
    ensures NonWhitespace(s) != ""
  {
    if i > 0 {
      NonWhitespaceOfInk(s[1..], i - 1);
    }
  }

  /** A text without whitespace is all ink. */
  lemma {:induction false} NonWhitespaceOfSolid(s: string)
    requires forall i :: 0 <= i < |s| ==> !IsSpace(s[i])
    ensures NonWhitespace(s) == s
  {
    if s != "" {
      NonWhitespaceOfSolid(s[1..]);
    }
  }

  /** `''.join(ss)` */
  function Concat(ss: seq<string>): string {
    if ss == [] then "" else ss[0] + Concat(ss[1..])
  }

  lemma {:induction false} ConcatAppend(a: seq<string>, b: seq<string>)
    ensures Concat(a + b) == Concat(a) + Concat(b)
  {
    if a == [] {
      assert a + b == b;
    } else {
      assert (a + b)[0] == a[0];
      assert (a + b)[1..] == a[1..] + b;
      ConcatAppend(a[1..], b);
    }
  }

  lemma ConcatSingle(s: string)
    ensures Concat([s]) == s
  {
    assert [s][1..] == [];
  }

  /** Concatenating pieces that all satisfy a per-character property keeps it:
      here the property is "contains no character of `bad`". */
  lemma {:induction false} ConcatAvoids(ss: seq<string>, bad: set<char>)
    requires forall i, j :: 0 <= i < |ss| && 0 <= j < |ss[i]| ==> ss[i][j] !in bad
    ensures forall j :: 0 <= j < |Concat(ss)| ==> Concat(ss)[j] !in bad
  {
    if ss != [] {
      ConcatAvoids(ss[1..], bad);
      var rest := Concat(ss[1..]);
      forall j | 0 <= j < |Concat(ss)|
        ensures Concat(ss)[j] !in bad
      {
        if j < |ss[0]| {
          assert Concat(ss)[j] == ss[0][j];
        } else {
          assert Concat(ss)[j] == rest[j - |ss[0]|];
        }
      }
    }
  }

  /** `sep.join(ss)` */
  function Join(ss: seq<string>, sep: string): string {
    if ss == [] then ""
    else if |ss| == 1 then ss[0]
    else ss[0] + sep + Join(ss[1..], sep)
  }

  /** A join starts with its first piece. */
  lemma JoinKeepsFirst(ss: seq<string>, sep: string)
    requires ss != []
    ensures |Join(ss, sep)| >= |ss[0]| && Join(ss, sep)[..|ss[0]|] == ss[0]
  {
  }

  /** `s.split(sep)` for a one-character separator. */
  function SplitOn(s: string, sep: char): (parts: seq<string>)
    ensures |parts| >= 1
  {
    if s == "" then [""]
    else
      var rest := SplitOn(s[1..], sep);
      if s[0] == sep then [""] + rest else [[s[0]] + rest[0]] + rest[1..]
  }

  lemma {:induction false} SplitOnPlain(x: string, t: string, sep: char)
    requires sep !in x
    ensures SplitOn(x + t, sep) == [x + SplitOn(t, sep)[0]] + SplitOn(t, sep)[1..]
  {
    if x == "" {
      assert x + t == t;
      var parts := SplitOn(t, sep);
      assert x + parts[0] == parts[0];
      assert [parts[0]] + parts[1..] == parts;
    } else {
      assert (x + t)[0] == x[0];
      assert (x + t)[1..] == x[1..] + t;
      SplitOnPlain(x[1..], t, sep);
      assert [x[0]] + (x[1..] + SplitOn(t, sep)[0]) == x + SplitOn(t, sep)[0];
    }
  }

  /** Splitting a join on its separator gives the pieces back, as long as no
      piece contains the separator. */
  lemma {:induction false} SplitJoin(ss: seq<string>, sep: char)
    requires |ss| >= 1
    requires forall i :: 0 <= i < |ss| ==> sep !in ss[i]
    ensures SplitOn(Join(ss, [sep]), sep) == ss
  {
    if |ss| == 1 {
      SplitOnPlain(ss[0], "", sep);
      assert ss[0] + "" == ss[0];
    } else {
      var tail := Join(ss[1..], [sep]);
      SplitJoin(ss[1..], sep);
      assert Join(ss, [sep]) == ss[0] + ([sep] + tail);
      SplitOnPlain(ss[0], [sep] + tail, sep);
      assert ([sep] + tail)[0] == sep;
      assert ([sep] + tail)[1..] == tail;
      assert SplitOn([sep] + tail, sep) == [""] + ss[1..];
      assert ss[0] + "" == ss[0];
    }
  }

  /** `s.find(c)`, with `|s|` standing for "not found". */
  function IndexOf(s: string, c: char): (r: nat)
    ensures r <= |s| && (r < |s| ==> s[r] == c)
    ensures forall i :: 0 <= i < r ==> s[i] != c
  {
    if s == "" || s[0] == c then 0 else 1 + IndexOf(s[1..], c)
  }

  /** `s.rfind(c)`: the last position of `c` in `s`, or -1. */
  function LastIndexOf(s: string, c: char): (r: int)
    ensures -1 <= r < |s| && (r >= 0 ==> s[r] == c)
    ensures forall i :: r < i < |s| ==> s[i] != c
  {
    if s == "" then -1
    else if s[|s| - 1] == c then |s| - 1
    else LastIndexOf(s[..|s| - 1], c)
  }

  /** Length of the run of whitespace at the front of `s`. */
  function SpaceRun(s: string): (n: nat)
    ensures n <= |s| && (n < |s| ==> !IsSpace(s[n]))
    ensures forall i :: 0 <= i < n ==> IsSpace(s[i])
  {
    if s != "" && IsSpace(s[0]) then 1 + SpaceRun(s[1..]) else 0
  }

  /** Length of the run of whitespace at the end of `s`. */
  function TrailingSpaceRun(s: string): (n: nat)
    ensures n <= |s| && (n < |s| ==> !IsSpace(s[|s| - n - 1]))
    ensures forall i :: |s| - n <= i < |s| ==> IsSpace(s[i])
  {
    if s != "" && IsSpace(s[|s| - 1]) then 1 + TrailingSpaceRun(s[..|s| - 1]) else 0
  }

  /** `s.strip()`: drops the leading and the trailing whitespace. */
  function Strip(s: string): string {
    var t := s[SpaceRun(s)..];
    t[..|t| - TrailingSpaceRun(t)]
  }

  /** The stripped text is the slice of `s` between its leading and its
      trailing whitespace runs; what is cut off is whitespace, and neither
      end of the result is whitespace. */
  lemma StripFacts(s: string)
    ensures var a, r := SpaceRun(s), Strip(s);
      && a + |r| <= |s| && r == s[a..a + |r|]
      && (forall i :: 0 <= i < a ==> IsSpace(s[i]))
      && (forall i :: a + |r| <= i < |s| ==> IsSpace(s[i]))
      && (r == "" || (!IsSpace(r[0]) && !IsSpace(r[|r| - 1])))
  {
    var a := SpaceRun(s);
    var t := s[a..];
    var n := TrailingSpaceRun(t);
    StripCut(s, a, n);
  }

  lemma StripCut(s: string, a: nat, n: nat)
    requires a == SpaceRun(s) && n == TrailingSpaceRun(s[a..])
    ensures var t := s[a..]; var r := t[..|t| - n];
      && r == Strip(s)
      && a + |r| <= |s| && r == s[a..a + |r|]
      && (forall i :: a + |r| <= i < |s| ==> IsSpace(s[i]))
      && (r == "" || (!IsSpace(r[0]) && !IsSpace(r[|r| - 1])))
  {
    SliceCut(s, a, s[a..], n);
  }

  /** Cutting a trailing run of whitespace off a suffix of `s`. */
  lemma SliceCut(s: string, a: nat, t: string, n: nat)
    requires a <= |s| && t == s[a..] && n <= |t|
    requires a < |s| ==> !IsSpace(s[a])
    requires n < |t| ==> !IsSpace(t[|t| - n - 1])
    requires forall i :: |t| - n <= i < |t| ==> IsSpace(t[i])
    ensures var r := t[..|t| - n];
      && a + |r| <= |s| && r == s[a..a + |r|]
      && (forall i :: a + |r| <= i < |s| ==> IsSpace(s[i]))
      && (r == "" || (!IsSpace(r[0]) && !IsSpace(r[|r| - 1])))
  {
    var r := t[..|t| - n];
    assert r == s[a..a + |r|];
    forall i | a + |r| <= i < |s|
      ensures IsSpace(s[i])
    {
      assert s[i] == t[i - a];
    }
    if r != "" {
      assert r[0] == s[a];
      assert r[|r| - 1] == t[|t| - n - 1];
    }
  }
}
