/**
 * The prompt `answer_query` sends to the chat model: the retrieved chunks
 * joined with newlines and the query, inside fixed instructions. The v3
 * and v5 instructions quote the fallback answer with ASCII double quotes,
 * v1's with the curly quotes U+201C and U+201D.
 */
module Prompt {
  import opened Text
  import opened Wrappers

  /** The instructions before the context, in v3 and v5. */
  const Head: string := "\n你是一个文档问答助手。\n只能根据以下提供的文档内容回答用户问题，\n如果找不到，请回答：\"抱歉，文档中没有相关内容\"。\n\n文档内容:\n"
  /** The instructions before the context, in v1. */
  const HeadV1: string := "\n你是一个文档问答助手。\n只能根据以下提供的文档内容回答用户问题，\n如果找不到，请回答：“抱歉，文档中没有相关内容”。\n\n文档内容:\n"
  /** The two instructions differ only in the quotes around the fallback
      answer. */
  lemma HeadsDiffer()
    ensures |Head| == |HeadV1|
    ensures Head[44] == '"' && HeadV1[44] == '\U{201C}'
    ensures Head[57] == '"' && HeadV1[57] == '\U{201D}'
    ensures forall i :: 0 <= i < |Head| && i != 44 && i != 57 ==> Head[i] == HeadV1[i]
  {
  }
  /** Between the context and the query. */
  const Middle: string := "\n\n用户问题: "
  /** After the query. */
  const Tail: string := "\n请用自然语言总结或改写回答：\n"

  /** The prompt f-string; `context` is `"\n".join(retrieved)`. */
  function BuildPrompt(head: string, context: string, query: string): (p: string)
    ensures |p| == |head| + |context| + |Middle| + |query| + |Tail|
    ensures p[..|head|] == head && p[|head|..|head| + |context|] == context
    ensures p[|p| - |Tail| - |query|..|p| - |Tail|] == query && p[|p| - |Tail|..] == Tail
  {
    head + context + Middle + query + Tail
  }

  /** The prompt around the context `"\n".join(retrieved)`. */
  function AnswerPrompt(head: string, retrieved: seq<string>, query: string): string {
    BuildPrompt(head, Join(retrieved, "\n"), query)
  }

  /** Two newlines in a row at position `i`. */
  predicate BlankLineAt(s: string, i: nat) {
    i + 1 < |s| && s[i] == '\n' && s[i + 1] == '\n'
  }

  /** The first position of two newlines in a row, or `|s|`. */
  function FirstBlankLine(s: string): (r: nat)
    ensures r <= |s| && (r < |s| ==> BlankLineAt(s, r))
    ensures forall i: nat :: i < r ==> !BlankLineAt(s, i)
  {
    if |s| < 2 then |s|
    else if BlankLineAt(s, 0) then 0
    else
      var r := 1 + FirstBlankLine(s[1..]);
      assert forall i: nat :: 0 < i < r ==> BlankLineAt(s, i) == BlankLineAt(s[1..], i - 1);
      r
  }

  /** Reads a prompt back: the retrieved chunks and the query, or `None`
      when `p` is not a prompt with instructions `head`. */
  function ParsePrompt(head: string, p: string): Option<(seq<string>, string)> {
    if |p| < |head| + |Middle| + |Tail| || p[..|head|] != head || p[|p| - |Tail|..] != Tail then None
    else
      var body := p[|head|..|p| - |Tail|];
      var e := FirstBlankLine(body);
      if |body| < e + |Middle| || body[e..e + |Middle|] != Middle then None
      else Some((if e == 0 then [] else SplitOn(body[..e], '\n'), body[e + |Middle|..]))
  }

  /** Chunks are nonempty and newline-free, so their join has no blank line
      and does not end in a newline. */
  lemma {:induction false} JoinNoBlankLine(ss: seq<string>)
    requires forall i :: 0 <= i < |ss| ==> ss[i] != "" && '\n' !in ss[i]
    ensures forall i: nat :: !BlankLineAt(Join(ss, "\n"), i)
    ensures ss != [] ==> Join(ss, "\n") != "" && Join(ss, "\n")[|Join(ss, "\n")| - 1] != '\n'
  {
    if |ss| == 1 {
      assert Join(ss, "\n") == ss[0];
      forall i: nat
        ensures !BlankLineAt(ss[0], i)
      {
        if i < |ss[0]| {
          assert ss[0][i] in ss[0];
        }
      }
    } else if |ss| > 1 {
      var x := ss[0];
      var t := Join(ss[1..], "\n");
      var j := Join(ss, "\n");
      JoinNoBlankLine(ss[1..]);
      JoinKeepsFirst(ss[1..], "\n");
      assert t[0] == ss[1][0] && ss[1][0] in ss[1];
      assert j == x + "\n" + t;
      forall i: nat
        ensures !BlankLineAt(j, i)
      {
        if i + 1 < |x| {
          assert j[i] == x[i] && x[i] in x;
        } else if i + 1 == |x| {
          assert j[i] == x[i] && x[i] in x;
        } else if i == |x| {
          assert j[i + 1] == t[0];
        } else if i + 1 < |j| {
          assert j[i] == t[i - |x| - 1] && j[i + 1] == t[i - |x|];
          assert !BlankLineAt(t, i - |x| - 1);
        }
      }
      assert j[|j| - 1] == t[|t| - 1];
    }
  }

  /** The prompt keeps the retrieved chunks and the query verbatim: both can
      be read back from it. */
  lemma PromptRoundTrip(head: string, retrieved: seq<string>, query: string)
    requires forall i :: 0 <= i < |retrieved| ==> retrieved[i] != "" && '\n' !in retrieved[i]
    ensures ParsePrompt(head, AnswerPrompt(head, retrieved, query)) == Some((retrieved, query))
  {
    var context := Join(retrieved, "\n");
    var p := AnswerPrompt(head, retrieved, query);
    var body := context + Middle + query;
    assert p[|head|..|p| - |Tail|] == body;
    JoinNoBlankLine(retrieved);
    assert BlankLineAt(body, |context|);
    forall i: nat | i < |context|
      ensures !BlankLineAt(body, i)
    {
      if i + 1 < |context| {
        assert body[i] == context[i] && body[i + 1] == context[i + 1];
        assert !BlankLineAt(context, i);
      } else {
        assert body[i] == context[i];
      }
    }
    var e := FirstBlankLine(body);
    assert e == |context|;
    assert body[..e] == context;
    assert body[e..e + |Middle|] == Middle;
    assert body[e + |Middle|..] == query;
    if retrieved != [] {
      SplitJoin(retrieved, '\n');
    }
  }
}
