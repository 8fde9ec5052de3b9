/**
 * `split_into_chunks` (the same function in all three scripts, with default
 * chunk size 200 in v1 and v3 and 500 in v5) and v1's per-document chunking
 * loop.
 */
module Chunker {
  import opened Text
  import TextWrap

  /** Default `chunk_size` of v1 and v3. */
  const SmallChunkSize: nat := 200
  /** Default `chunk_size` of v5. */
  const LargeChunkSize: nat := 500

  /** `text.replace("\n", " ")` */
  function NewlinesToSpaces(s: string): string {
    seq(|s|, i requires 0 <= i < |s| => if s[i] == '\n' then ' ' else s[i])
  }

  /** `split_into_chunks(text, chunk_size)`: newlines become spaces, then
      `textwrap.wrap(text, chunk_size)`. */
  function SplitIntoChunks(text: string, chunkSize: nat): seq<string>
    requires chunkSize >= 1
  {
    TextWrap.Wrap(NewlinesToSpaces(text), chunkSize)
  }

  lemma {:induction false} NewlinesToSpacesInk(s: string)
    ensures NonWhitespace(NewlinesToSpaces(s)) == NonWhitespace(s)
  {
    if s != "" {
      assert NewlinesToSpaces(s)[1..] == NewlinesToSpaces(s[1..]);
      NewlinesToSpacesInk(s[1..]);
    }
  }

  /** Every chunk is nonempty, at most `chunkSize` characters long and
      contains no newline (nor tab). */
  lemma ChunksAreBounded(text: string, chunkSize: nat)
    requires chunkSize >= 1
    ensures forall i :: 0 <= i < |SplitIntoChunks(text, chunkSize)| ==>
      var c := SplitIntoChunks(text, chunkSize)[i];
      1 <= |c| <= chunkSize && '\n' !in c && '\t' !in c
  {
    TextWrap.WrapLines(NewlinesToSpaces(text), chunkSize);
  }

  /** Chunking loses no text but whitespace: the non-whitespace characters of
      the chunks, read in order, are exactly those of the input. */
  lemma ChunksKeepText(text: string, chunkSize: nat)
    requires chunkSize >= 1
    ensures NonWhitespace(Concat(SplitIntoChunks(text, chunkSize))) == NonWhitespace(text)
  {
    TextWrap.WrapKeepsInk(NewlinesToSpaces(text), chunkSize);
    NewlinesToSpacesInk(text);
  }

  /** Empty or whitespace-only input gives no chunk. */
  /** A document that is not only whitespace gives at least one chunk. */
  lemma ChunksOfInkyText(text: string, chunkSize: nat)
    requires chunkSize >= 1
    ensures NonWhitespace(text) != "" ==> SplitIntoChunks(text, chunkSize) != []
  {
    ChunksKeepText(text, chunkSize);
  }

  lemma ChunksOfBlankText(text: string, chunkSize: nat)
    requires chunkSize >= 1
    requires forall i :: 0 <= i < |text| ==> TextWrap.IsAsciiWhitespace(text[i])
    ensures SplitIntoChunks(text, chunkSize) == []
  {
    TextWrap.WrapOfWhitespace(NewlinesToSpaces(text), chunkSize);
  }

  /** Text without whitespace (typical of Chinese prose) is cut into
      fixed-width slices. */
  lemma ChunksOfSolidText(text: string, chunkSize: nat)
    requires chunkSize >= 1
    requires forall i :: 0 <= i < |text| ==> !IsSpace(text[i])
    ensures SplitIntoChunks(text, chunkSize) == TextWrap.Slices(text, chunkSize)
  {
    assert NewlinesToSpaces(text) == text;
    TextWrap.WrapOfSolidText(text, chunkSize);
  }

  /** A document that fits in one chunk, contains no tab or other control
      whitespace besides newlines, and does not end in whitespace is a single
      chunk: the document with its newlines turned into spaces. */
  lemma ChunksOfShortText(text: string, chunkSize: nat)
    requires chunkSize >= 1
    requires 1 <= |text| <= chunkSize
    requires forall i :: 0 <= i < |text| ==> text[i] !in {'\t', '\U{B}', '\U{C}', '\r'}
    requires !IsSpace(text[|text| - 1])
    ensures SplitIntoChunks(text, chunkSize) == [NewlinesToSpaces(text)]
  {
    var t := NewlinesToSpaces(text);
    assert TextWrap.Plain(t);
    TextWrap.MungeOfPlain(t);
    TextWrap.WrapOfShortText(t, chunkSize);
  }

  /** Greedy filling: two words that do not fit together on one chunk go to
      two chunks, and the space between them is dropped. */
  lemma ChunksOfTwoWords(a: string, b: string, chunkSize: nat)
    requires chunkSize >= 1 && a != "" && b != ""
    requires TextWrap.Solid(a) && TextWrap.Solid(b)
    requires |a| <= chunkSize && |b| <= chunkSize && |a| + 1 + |b| > chunkSize
    ensures SplitIntoChunks(a + " " + b, chunkSize) == [a, b]
  {
    var t := a + " " + b;
    forall i | 0 <= i < |t|
      ensures t[i] != '\n'
    {
      if i < |a| { assert t[i] == a[i]; }
      else if i > |a| { assert t[i] == b[i - |a| - 1]; }
    }
    assert NewlinesToSpaces(t) == t;
    TextWrap.WrapTwoWords(a, b, chunkSize);
  }

  /** The chunks of all documents, in document order. */
  function ChunkAll(docs: seq<string>, chunkSize: nat): seq<string>
    requires chunkSize >= 1
  {
    if docs == [] then []
    else ChunkAll(docs[..|docs| - 1], chunkSize) + SplitIntoChunks(docs[|docs| - 1], chunkSize)
  }

  /** v1's loop: `chunks.extend(split_into_chunks(doc))` for every document. */
  method ChunkDocuments(docs: seq<string>, chunkSize: nat) returns (chunks: seq<string>)
    requires chunkSize >= 1
    ensures chunks == ChunkAll(docs, chunkSize)
  {
    chunks := [];
    var i := 0;
    while i < |docs|
      invariant 0 <= i <= |docs|
      invariant chunks == ChunkAll(docs[..i], chunkSize)
    {
      assert docs[..i + 1][..i] == docs[..i];
      chunks := chunks + SplitIntoChunks(docs[i], chunkSize);
      i := i + 1;
    }
    assert docs[..i] == docs;
  }

  /** `c` is one of the chunks of one of the documents. */
  predicate ChunkOf(c: string, docs: seq<string>, chunkSize: nat)
    requires chunkSize >= 1
  {
    exists d :: 0 <= d < |docs| && c in SplitIntoChunks(docs[d], chunkSize)
  }

  /** Every chunk of the concatenation is a chunk of one single document, so
      no chunk mixes text from two documents. */
  lemma {:induction false} ChunkAllProvenance(docs: seq<string>, chunkSize: nat)
    requires chunkSize >= 1
    ensures forall c :: c in ChunkAll(docs, chunkSize) ==> ChunkOf(c, docs, chunkSize)
  {
    if docs != [] {
      var n := |docs| - 1;
      var init := docs[..n];
      ChunkAllProvenance(init, chunkSize);
      var before := ChunkAll(init, chunkSize);
      var last := SplitIntoChunks(docs[n], chunkSize);
      assert ChunkAll(docs, chunkSize) == before + last;
      forall c | c in before + last
        ensures ChunkOf(c, docs, chunkSize)
      {
        if c in before {
          assert ChunkOf(c, init, chunkSize);
          var d :| 0 <= d < |init| && c in SplitIntoChunks(init[d], chunkSize);
          assert init[d] == docs[d];
        } else {
          assert c in SplitIntoChunks(docs[n], chunkSize);
        }
      }
    }
  }

  /** Every chunk of the concatenation obeys the chunk bounds. */
  lemma ChunkAllBounded(docs: seq<string>, chunkSize: nat)
    requires chunkSize >= 1
    ensures forall c :: c in ChunkAll(docs, chunkSize) ==>
      1 <= |c| <= chunkSize && '\n' !in c
  {
    ChunkAllProvenance(docs, chunkSize);
    forall c | c in ChunkAll(docs, chunkSize)
      ensures 1 <= |c| <= chunkSize && '\n' !in c
    {
      assert ChunkOf(c, docs, chunkSize);
      var d :| 0 <= d < |docs| && c in SplitIntoChunks(docs[d], chunkSize);
      var cs := SplitIntoChunks(docs[d], chunkSize);
      var j :| 0 <= j < |cs| && cs[j] == c;
      ChunksAreBounded(docs[d], chunkSize);
    }
  }

  /** The three built-in documents of v1. */
  const V1Docs: seq<string> := [
    "我们的系统支持多种支付方式，包括支付宝、微信支付和银行卡支付。\n    在支付过程中如遇到问题，可以联系客服协助处理。",
    "用户可以通过点击登录页面的“忘记密码”，\n    使用注册邮箱或手机号进行验证，即可重置密码。",
    "完成订单后，您可以在“个人中心-订单管理”页面申请电子发票。\n    系统将自动开具并发送到您的邮箱。"
  ]
}
