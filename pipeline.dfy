/**
 * The top level of the three scripts: where the documents come from, how
 * they become chunks and an index, and `answer_query`. Embedding and chat
 * are the functions `embed` and `chat`.
 *
 * - v1 chunks three built-in documents one by one (chunk size 200);
 * - v3 fetches one page, converts it to text or falls back to a fixed
 *   sentence, and chunks it (chunk size 200);
 * - v5 loads the Markdown files of 2025 and chunks their concatenation
 *   (chunk size 500), giving up when that is empty.
 */
module Pipeline {
  import opened Text
  import opened Wrappers
  import opened L2Index
  import Chunker
  import Html
  import Loader
  import opened Retrieval
  import Prompt

  /** Every chunk obeys the bounds of chunking with `chunkSize`. */
  predicate ChunkBounds(chunks: seq<string>, chunkSize: nat) {
    forall i :: 0 <= i < |chunks| ==> 1 <= |chunks[i]| <= chunkSize && '\n' !in chunks[i]
  }

  /** v1's `chunks` and index. */
  method SetUpV1(embed: string -> Vector) returns (chunks: seq<string>, index: FlatL2Index, ok: bool)
    ensures chunks == Chunker.ChunkAll(Chunker.V1Docs, Chunker.SmallChunkSize)
    ensures ChunkBounds(chunks, Chunker.SmallChunkSize)
    ensures fresh(index) && index.Valid() && index.d == |embed(Probe)|
    ensures ok <==> chunks != [] && forall i :: 0 <= i < |chunks| ==> |embed(chunks[i])| == index.d
    ensures ok ==> Embeds(index.rows, chunks, embed)
  {
    chunks, index, ok := SetUpFromDocs(Chunker.V1Docs, Chunker.SmallChunkSize, embed);
  }

  /** Chunking documents one by one, then the index of the chunks. */
  method SetUpFromDocs(docs: seq<string>, chunkSize: nat, embed: string -> Vector)
    returns (chunks: seq<string>, index: FlatL2Index, ok: bool)
    requires chunkSize >= 1
    ensures chunks == Chunker.ChunkAll(docs, chunkSize)
    ensures ChunkBounds(chunks, chunkSize)
    ensures fresh(index) && index.Valid() && index.d == |embed(Probe)|
    ensures ok <==> chunks != [] && forall i :: 0 <= i < |chunks| ==> |embed(chunks[i])| == index.d
    ensures ok ==> Embeds(index.rows, chunks, embed)
  {
    chunks := Chunker.ChunkDocuments(docs, chunkSize);
    Chunker.ChunkAllBounded(docs, chunkSize);
    assert forall i :: 0 <= i < |chunks| ==> chunks[i] in chunks;
    index, ok := BuildIndex(chunks, embed);
  }

  /** v3's `chunks` and index, from the fetched page (`None` when fetching
      failed). */
  method SetUpV3(fetched: Option<string>, rewrite: string -> string, embed: string -> Vector)
    returns (chunks: seq<string>, index: FlatL2Index, ok: bool)
    ensures chunks == Chunker.SplitIntoChunks(Html.DocsText(fetched, rewrite), Chunker.SmallChunkSize)
    ensures fetched.None? ==> chunks == [Html.Fallback]
    ensures ChunkBounds(chunks, Chunker.SmallChunkSize)
    ensures fresh(index) && index.Valid() && index.d == |embed(Probe)|
    ensures ok <==> chunks != [] && forall i :: 0 <= i < |chunks| ==> |embed(chunks[i])| == index.d
    ensures ok ==> Embeds(index.rows, chunks, embed)
  {
    var docsText := Html.DocsText(fetched, rewrite);
    chunks := Chunker.SplitIntoChunks(docsText, Chunker.SmallChunkSize);
    Chunker.ChunksAreBounded(docsText, Chunker.SmallChunkSize);
    if fetched.None? {
      FallbackChunks();
    }
    index, ok := BuildIndex(chunks, embed);
  }

  /** v5's `chunks` and index, from the listed files; `loaded` is false, and
      nothing is built, when the loaded text is empty (the script exits). */
  method SetUpV5(files: seq<Loader.MdFile>, embed: string -> Vector)
    returns (loaded: bool, chunks: seq<string>, index: FlatL2Index?, ok: bool)
    ensures loaded <==> Join(Loader.IncludedParts(files), "\n") != ""
    ensures loaded <==> exists k :: 0 <= k < |files| && Loader.Included(files[k])
    ensures !loaded ==> chunks == [] && index == null && !ok
    ensures loaded ==> chunks != []
    ensures loaded ==>
      && chunks == Chunker.SplitIntoChunks(Join(Loader.IncludedParts(files), "\n"), Chunker.LargeChunkSize)
      && ChunkBounds(chunks, Chunker.LargeChunkSize)
      && index != null && fresh(index) && index.Valid() && index.d == |embed(Probe)|
      && (ok <==> chunks != [] && forall i :: 0 <= i < |chunks| ==> |embed(chunks[i])| == index.d)
      && (ok ==> Embeds(index.rows, chunks, embed))
  {
    var docsText, successful, total := Loader.LoadAllMdContent(files);
    Loader.LoadedTextEmptyIff(files);
    if docsText == "" {
      return false, [], null, false;
    }
    loaded := true;
    chunks := Chunker.SplitIntoChunks(docsText, Chunker.LargeChunkSize);
    Chunker.ChunksAreBounded(docsText, Chunker.LargeChunkSize);
    Loader.LoadedTextHasInk(files);
    Chunker.ChunksOfInkyText(docsText, Chunker.LargeChunkSize);
    var built: FlatL2Index;
    built, ok := BuildIndex(chunks, embed);
    index := built;
  }

  /** The three versions of the script. */
  datatype Version = V1 | V3 | V5

  /** The instructions at the head of the prompt: v1 quotes the fallback
      answer with curly quotes, v3 and v5 with ASCII double quotes. */
  function Instructions(v: Version): string {
    if v == V1 then Prompt.HeadV1 else Prompt.Head
  }

  /** The prompt of `answer_query(query)`: the corrected retrieval with
      `top_k=3`, then the template; `None` when the search fails. */
  function QueryPrompt(index: FlatL2Index, chunks: seq<string>, embed: string -> Vector,
                       v: Version, query: string): Option<string>
    reads index
    requires index.Valid()
  {
    match RetrieveChunks(index, chunks, embed, query, TopK)
    case None => None
    case Some(retrieved) => Some(Prompt.AnswerPrompt(Instructions(v), retrieved, query))
  }

  /** `answer_query(query)`: the chat model's answer to the prompt. */
  function AnswerQuery(index: FlatL2Index, chunks: seq<string>, embed: string -> Vector,
                       chat: string -> string, v: Version, query: string): Option<string>
    reads index
    requires index.Valid()
  {
    match QueryPrompt(index, chunks, embed, v, query)
    case None => None
    case Some(prompt) => Some(chat(prompt))
  }

  /** The prompt of `answer_query(query)` as written: `retrieve_chunks` reads
      every padded label as the last chunk. */
  function QueryPromptAsWritten(index: FlatL2Index, chunks: seq<string>, embed: string -> Vector,
                                v: Version, query: string): Option<string>
    reads index
    requires index.Valid()
  {
    match RetrieveAsWritten(index, chunks, embed, query, TopK)
    case None => None
    case Some(retrieved) => Some(Prompt.AnswerPrompt(Instructions(v), retrieved, query))
  }

  /** `answer_query(query)` as written. */
  function AnswerQueryAsWritten(index: FlatL2Index, chunks: seq<string>, embed: string -> Vector,
                                chat: string -> string, v: Version, query: string): Option<string>
    reads index
    requires index.Valid()
  {
    match QueryPromptAsWritten(index, chunks, embed, v, query)
    case None => None
    case Some(prompt) => Some(chat(prompt))
  }

  /** As written, the prompt is built when the query's embedding has the
      index's dimension and there is a chunk; it always holds three entries:
      the chunks of the corrected retrieval, then the last chunk once for
      every missing result. Those entries and the query can be read back. */
  lemma QueryPromptAsWrittenFacts(index: FlatL2Index, chunks: seq<string>, embed: string -> Vector,
                                  v: Version, query: string, chunkSize: nat)
    requires index.Valid() && Embeds(index.rows, chunks, embed) && ChunkBounds(chunks, chunkSize)
    ensures var p := QueryPromptAsWritten(index, chunks, embed, v, query);
      var w := RetrieveAsWritten(index, chunks, embed, query, TopK);
      var m := Min(TopK, |chunks|);
      && (p.Some? <==> |embed(query)| == index.d && chunks != [])
      && (p.Some? ==>
            && w.Some? && |w.value| == TopK
            && RetrieveChunks(index, chunks, embed, query, TopK) == Some(w.value[..m])
            && (forall i :: m <= i < TopK ==> w.value[i] == chunks[|chunks| - 1])
            && Prompt.ParsePrompt(Instructions(v), p.value) == Some((w.value, query)))
  {
    var q := embed(query);
    var w := RetrieveAsWritten(index, chunks, embed, query, TopK);
    if |q| != index.d {
      assert index.Search(q, TopK).None?;
    } else {
      AsWrittenPadsWithLast(index, chunks, embed, query, TopK);
      RetrieveChunksFacts(index, chunks, embed, query, TopK);
      if chunks != [] {
        var corrected := RetrieveChunks(index, chunks, embed, query, TopK).value;
        var m := Min(TopK, |chunks|);
        var all := w.value;
        assert all == corrected + seq(TopK - m, _ => chunks[|chunks| - 1]);
        assert all[..m] == corrected;
        var h := Hits(index.rows, q, TopK);
        forall i | 0 <= i < |all|
          ensures all[i] != "" && '\n' !in all[i]
        {
          if i < m {
            assert all[i] == chunks[h[i]];
          } else {
            assert all[i] == chunks[|chunks| - 1];
          }
        }
        Prompt.PromptRoundTrip(Instructions(v), all, query);
      }
    }
  }

  /** The prompt is built for every query whose embedding has the index's
      dimension, and holds verbatim the query and the (at most three) chunks
      retrieved, which can be read back from it. */
  lemma QueryPromptFacts(index: FlatL2Index, chunks: seq<string>, embed: string -> Vector,
                         v: Version, query: string, chunkSize: nat)
    requires index.Valid() && Embeds(index.rows, chunks, embed) && ChunkBounds(chunks, chunkSize)
    ensures var p := QueryPrompt(index, chunks, embed, v, query);
      && (p.Some? <==> |embed(query)| == index.d)
      && (p.Some? ==>
            var retrieved := RetrieveChunks(index, chunks, embed, query, TopK).value;
            && |retrieved| == Min(TopK, |chunks|)
            && Prompt.ParsePrompt(Instructions(v), p.value) == Some((retrieved, query)))
  {
    RetrieveChunksFacts(index, chunks, embed, query, TopK);
    var r := RetrieveChunks(index, chunks, embed, query, TopK);
    if r.Some? {
      var h := Hits(index.rows, embed(query), TopK);
      forall i | 0 <= i < |r.value|
        ensures r.value[i] != "" && '\n' !in r.value[i]
      {
        assert r.value[i] == chunks[h[i]];
      }
      Prompt.PromptRoundTrip(Instructions(v), r.value, query);
    }
  }

  /** The fallback sentence is a single chunk. */
  lemma FallbackChunks()
    ensures Chunker.SplitIntoChunks(Html.Fallback, Chunker.SmallChunkSize) == [Html.Fallback]
  {
    var f := Html.Fallback;
    assert |f| == 16;
    assert forall i :: 0 <= i < |f| ==> f[i] !in {'\t', '\U{B}', '\U{C}', '\r', '\n'};
    assert f[15] == '.';
    assert Chunker.NewlinesToSpaces(f) == f;
    Chunker.ChunksOfShortText(f, Chunker.SmallChunkSize);
  }

  /** On v3's fallback path the index holds one vector while `top_k` is 3:
      as written, `retrieve_chunks` returns the fallback sentence three
      times; the corrected retrieval returns it once. */
  lemma FallbackRetrieval(index: FlatL2Index, embed: string -> Vector, query: string)
    requires index.Valid() && Embeds(index.rows, [Html.Fallback], embed)
    requires |embed(query)| == index.d
    ensures RetrieveAsWritten(index, [Html.Fallback], embed, query, TopK) ==
      Some([Html.Fallback, Html.Fallback, Html.Fallback])
    ensures RetrieveChunks(index, [Html.Fallback], embed, query, TopK) == Some([Html.Fallback])
  {
    SingleChunkRetrieval(index, Html.Fallback, embed, query, TopK);
    assert seq(3, _ => Html.Fallback) == [Html.Fallback, Html.Fallback, Html.Fallback];
  }

  /** On v3's fallback path the prompt as written holds the fallback sentence
      three times, one per line; the corrected prompt holds it once. */
  lemma FallbackPrompts(index: FlatL2Index, embed: string -> Vector, query: string)
    requires index.Valid() && Embeds(index.rows, [Html.Fallback], embed)
    requires |embed(query)| == index.d
    ensures QueryPromptAsWritten(index, [Html.Fallback], embed, V3, query) ==
      Some(Prompt.BuildPrompt(Prompt.Head, Html.Fallback + "\n" + Html.Fallback + "\n" + Html.Fallback, query))
    ensures QueryPrompt(index, [Html.Fallback], embed, V3, query) ==
      Some(Prompt.BuildPrompt(Prompt.Head, Html.Fallback, query))
  {
    var f := Html.Fallback;
    FallbackRetrieval(index, embed, query);
    assert Join([f, f, f], "\n") == f + "\n" + Join([f, f], "\n");
    assert Join([f, f], "\n") == f + "\n" + Join([f], "\n");
    assert Join([f], "\n") == f;
    assert Join([f, f, f], "\n") == f + "\n" + f + "\n" + f;
  }
}
