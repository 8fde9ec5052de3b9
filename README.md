# Retrieval-augmented question answering over FAISS and Ollama, in Dafny

This project models three versions of a small question-answering script (`tech/rd/fassi-ollama-rag-v1.py`, `-v3.py` and `-v5.py`). Each version does the same things:

1. It gathers documents:
   - v1 uses three built-in texts;
   - v3 fetches one web page and converts its HTML to text, or falls back to a fixed sentence;
   - v5 loads the Markdown files of 2025 from a directory.
2. It cuts the documents into chunks with `textwrap.wrap`, after turning newlines into spaces.
3. It embeds every chunk and adds the embeddings to an exact L2 index (`faiss.IndexFlatL2`).
4. It answers a query by embedding it, fetching the three nearest chunks, and sending them to the chat model together with the query inside a fixed prompt.

The modules follow that chain:

- `Text` holds the string helpers: Python's `isspace`, `strip`, `"\n".join`, `split` and `find`.
- `TextWrap` holds `textwrap.wrap` with its default options.
- `Chunker` holds `split_into_chunks` and v1's per-document loop.
- `Html` holds v3's tag removal, entity decoding, whitespace collapsing, `convert_to_markdown` and the fallback text.
- `Loader` holds v5's `load_all_md_content`.
- `L2Index` holds the exact index, as the class `FlatL2Index`, and its k-nearest search.
- `Retrieval` holds the embedding loop, the index build and `retrieve_chunks`.
- `Prompt` holds the prompt template and a reader that parses a prompt back into chunks and query.
- `Pipeline` holds the set-up of each version and `answer_query`.

Outside effects are parameters:

- The embedding model is a function `embed` from text to an integer vector.
- The chat model is a function `chat`.
- The prompt instructions are chosen by the script version (`Pipeline.Instructions`): v1 quotes the fallback answer with curly quotes, v3 and v5 with ASCII double quotes.
- The fetched page is an `Option<string>`, with `None` when the fetch failed.
- The directory listing is a sequence of files, each with a name and an optional content (`None` when reading failed).

## Model

| member | source | states |
|---|---|---|
| Text.StripFacts | tech/rd/fassi-ollama-rag-v3.py:88 | `strip()` returns the part of the text between its leading and trailing whitespace runs, and neither end of the result is whitespace |
| Text.SplitJoin | tech/rd/fassi-ollama-rag-v5.py:183 | splitting `"\n".join(pieces)` on newlines gives the pieces back when no piece contains a newline |
| TextWrap.MungeFacts | tech/rd/fassi-ollama-rag-v5.py:129 | tab expansion and whitespace replacement keep every non-whitespace character in order, and leave the plain space as the only whitespace `textwrap` recognises |
| TextWrap.CutLineFacts | tech/rd/fassi-ollama-rag-v5.py:129 | one step of greedy line filling makes progress, fits the width, keeps the chunks in order and keeps them well formed |
| TextWrap.WrapLines | tech/rd/fassi-ollama-rag-v5.py:129 | every line of `textwrap.wrap(text, width)` is nonempty, at most `width` long, and free of newlines and tabs |
| TextWrap.WrapKeepsInk | tech/rd/fassi-ollama-rag-v5.py:129 | the non-whitespace characters of the lines, read in order, are exactly those of the input |
| TextWrap.WrapOfWhitespace | tech/rd/fassi-ollama-rag-v5.py:129 | input made only of `textwrap`'s six ASCII whitespace characters (tab, newline, vertical tab, form feed, carriage return, space), including the empty input, gives no lines; other Unicode whitespace is not covered, since `textwrap` keeps it as part of a chunk |
| TextWrap.WrapOfSolidText | tech/rd/fassi-ollama-rag-v5.py:129 | text without whitespace is cut into consecutive slices of exactly `width` characters, the last one shorter |
| TextWrap.WrapOfShortText | tech/rd/fassi-ollama-rag-v5.py:129 | text that fits on one line and does not end in whitespace comes back as one line |
| TextWrap.WrapTwoWords | tech/rd/fassi-ollama-rag-v5.py:129 | two words that do not fit on one line together go onto two lines, and the space between them is dropped |
| Chunker.NewlinesToSpacesInk | tech/rd/fassi-ollama-rag-v5.py:128 | replacing newlines with spaces changes no non-whitespace character |
| Chunker.ChunksAreBounded | tech/rd/fassi-ollama-rag-v5.py:126-129 | every chunk is nonempty, at most `chunk_size` long, and contains no newline or tab |
| Chunker.ChunksKeepText | tech/rd/fassi-ollama-rag-v5.py:126-129 | the chunks lose only whitespace: their non-whitespace characters, in order, are those of the document |
| Chunker.ChunksOfBlankText | tech/rd/fassi-ollama-rag-v3.py:124-127 | a document made only of `textwrap`'s six ASCII whitespace characters, or empty, gives no chunk |
| Chunker.ChunksOfSolidText | tech/rd/fassi-ollama-rag-v3.py:124-127 | a document without whitespace, such as Chinese prose, is cut into fixed-width slices |
| Chunker.ChunksOfShortText | tech/rd/fassi-ollama-rag-v1.py:41-43 | a nonempty document of at most `chunk_size` characters, with no tab, vertical tab, form feed or carriage return and whose last character is not whitespace, is one chunk: the document with its newlines turned into spaces |
| Chunker.ChunksOfTwoWords | tech/rd/fassi-ollama-rag-v1.py:41-43 | two words that do not fit in one chunk together become two chunks |
| Chunker.ChunkDocuments | tech/rd/fassi-ollama-rag-v1.py:45-48 | the loop's `chunks` is the in-order concatenation of the chunks of every document |
| Chunker.ChunkAllProvenance | tech/rd/fassi-ollama-rag-v1.py:45-48 | every chunk of the concatenation is a chunk of a single document, so no chunk mixes text from two documents |
| Chunker.ChunkAllBounded | tech/rd/fassi-ollama-rag-v1.py:41-48 | every chunk of the concatenation is nonempty, at most `chunk_size` long and free of newlines |
| Html.StripTagsAvoids | tech/rd/fassi-ollama-rag-v3.py:73 | tag removal only deletes characters: a character absent from the input is absent from the output |
| Html.StripTagsNoTags | tech/rd/fassi-ollama-rag-v3.py:73 | after tag removal, no `<` is followed by one or more non-`>` characters and then a `>` |
| Html.StripTagsOfNoTags | tech/rd/fassi-ollama-rag-v3.py:73 | text without tags is left unchanged |
| Html.StripTagsIdempotent | tech/rd/fassi-ollama-rag-v3.py:73 | removing tags a second time changes nothing |
| Html.DecodeWithoutAmpersand | tech/rd/fassi-ollama-rag-v3.py:76-81 | text without `&` is left unchanged by the entity replacements |
| Html.DecodeShorter | tech/rd/fassi-ollama-rag-v3.py:76-81 | decoding never makes the text longer |
| Html.DecodeAmpLt | tech/rd/fassi-ollama-rag-v3.py:76-81 | because `&amp;` is replaced before `&lt;`, the text `&amp;lt;` ends as `<` |
| Html.DecodeAmpNbsp | tech/rd/fassi-ollama-rag-v3.py:76-81 | because `&nbsp;` is replaced before `&amp;`, the text `&amp;nbsp;` ends as the literal `&nbsp;` |
| Html.CollapseBlankLinesFacts | tech/rd/fassi-ollama-rag-v3.py:84 | after blank lines collapse, no three newlines follow each other, and the first character is kept unless it is a newline |
| Html.CollapseSpacesFacts | tech/rd/fassi-ollama-rag-v3.py:85 | after space runs collapse, there is no tab and no double space, and no new run of three newlines appears |
| Html.StripNormalized | tech/rd/fassi-ollama-rag-v3.py:88 | stripping text that has no tab, double space or triple newline keeps those properties and leaves no whitespace at either end |
| Html.TidyWhitespaceNormalized | tech/rd/fassi-ollama-rag-v3.py:84-88 | the three whitespace stages leave no tab, no double space, no three newlines in a row, and no whitespace at either end |
| Html.HtmlToMarkdownNormalized | tech/rd/fassi-ollama-rag-v3.py:38-90 | the output of `html_to_markdown` is normalised in that sense, whatever the tag-specific rewrites produce |
| Html.ConvertToMarkdownDispatch | tech/rd/fassi-ollama-rag-v3.py:92-103 | `"html"` goes to `html_to_markdown`; `"text"` is the identity; any other type goes to `html_to_markdown` exactly when the content has both `<` and `>` |
| Html.DocsText | tech/rd/fassi-ollama-rag-v3.py:109-115 | a failed fetch gives the fallback sentence; a fetched page gives normalised text |
| L2Index.SqDistZeroIff | tech/rd/fassi-ollama-rag-v5.py:170 | the squared L2 distance is zero exactly between equal vectors |
| L2Index.Rank | tech/rd/fassi-ollama-rag-v5.py:170 | the ranking lists every stored row exactly once, nearest first, with ties in lower-row-first order |
| L2Index.KNearestFacts | tech/rd/fassi-ollama-rag-v5.py:170 | the search returns `k` labels; label -1 appears exactly at the positions past the number of stored rows; the other labels are in-range rows in nondecreasing distance; no row left out is nearer than a row returned |
| L2Index.KNearestNearest | tech/rd/fassi-ollama-rag-v5.py:170 | no row left out of the result is nearer to the query than any row returned |
| L2Index.KNearestNoPadding | tech/rd/fassi-ollama-rag-v1.py:63-66 | with at least `k` stored vectors, the labels are `k` distinct in-range rows |
| L2Index.ExactMatchFirst | tech/rd/fassi-ollama-rag-v1.py:63-66 | a query equal to a stored vector gets first the lowest row that holds that vector, at distance 0 |
| L2Index.SearchExample | tech/rd/fassi-ollama-rag-v5.py:170 | for the rows (0,0), (1,1), (5,5), the two nearest to (1,1) are rows 1 and 0 |
| L2Index.FlatL2Index.constructor | tech/rd/fassi-ollama-rag-v5.py:159 | a new index has the given dimension and no rows |
| L2Index.FlatL2Index.Add | tech/rd/fassi-ollama-rag-v5.py:160 | a nonempty batch of vectors of the index's dimension is appended in order; any other batch is refused and changes nothing |
| L2Index.FlatL2Index.Search | tech/rd/fassi-ollama-rag-v5.py:170 | a search succeeds exactly when the query has the index's dimension and `k >= 1`, and then returns the ranked labels |
| Loader.HasValidYearIff | tech/rd/fassi-ollama-rag-v5.py:81-88 | a file passes the year filter exactly when its name starts with `2025` |
| Loader.LoadAllMdContent | tech/rd/fassi-ollama-rag-v5.py:69-102 | the text is the `"\n"`-join of header plus content for every included file, in discovery order; `successful_files` counts those parts and never exceeds `total_files`; no files gives `""` |
| Loader.IncludedPartsAppend | tech/rd/fassi-ollama-rag-v5.py:83-98 | files are taken in discovery order: the parts of two listings in sequence are the parts of the first, then those of the second |
| Loader.IncludedPartsMembers | tech/rd/fassi-ollama-rag-v5.py:83-98 | every part comes from an included file, and every included file contributes its part, so files that are skipped, empty or unreadable contribute nothing |
| Loader.IncludedPartsCount | tech/rd/fassi-ollama-rag-v5.py:77-100 | there are never more parts than files |
| Loader.IncludedPartsNonEmpty | tech/rd/fassi-ollama-rag-v5.py:93-94 | every part is nonempty, because it starts with its header |
| Loader.LoadedTextEmptyIff | tech/rd/fassi-ollama-rag-v5.py:102-114 | the loaded text is empty, so that v5 exits, exactly when no file has a 2025 name and nonempty readable content |
| Retrieval.EmbedChunks | tech/rd/fassi-ollama-rag-v5.py:143-148 | one embedding per chunk, in chunk order: entry `i` is the embedding of `chunks[i]` |
| Retrieval.BuildIndex | tech/rd/fassi-ollama-rag-v5.py:158-160 | the index has the dimension of the probe's embedding; the add succeeds exactly when there are chunks and every embedding has that dimension, and then row `i` is the embedding of `chunks[i]` |
| Retrieval.RetrieveChunksFacts | tech/rd/fassi-ollama-rag-v5.py:167-171 | retrieval succeeds exactly when the query's embedding has the index's dimension and `top_k >= 1`; it returns `min(top_k, len(chunks))` distinct chunks whose embeddings are in nondecreasing distance to the query's, and no chunk left out is nearer than one returned |
| Retrieval.AsWrittenPadsWithLast | tech/rd/fassi-ollama-rag-v5.py:171 | as written, the result is the corrected one followed by `top_k - len(chunks)` copies of the last chunk; with no chunk at all the indexing raises an error |
| Retrieval.AsWrittenAgrees | tech/rd/fassi-ollama-rag-v1.py:63-66 | with at least `top_k` chunks, the code as written and the corrected retrieval return the same chunks |
| Retrieval.SingleChunkRetrieval | tech/rd/fassi-ollama-rag-v5.py:167-171 | with a single chunk, the corrected retrieval returns it once and the code as written returns it `top_k` times |
| Loader.LoadedTextHasInk | tech/rd/fassi-ollama-rag-v5.py:93-102 | a nonempty loaded text is never only whitespace, because it starts with the header of its first file |
| Chunker.ChunksOfInkyText | tech/rd/fassi-ollama-rag-v5.py:126-129 | a document that is not only whitespace gives at least one chunk |
| Prompt.HeadsDiffer | tech/rd/fassi-ollama-rag-v1.py:73-83 | v1's instructions differ from those of v3 and v5 only in the two quote characters around the fallback answer |
| Retrieval.RetrieveExactMatch | tech/rd/fassi-ollama-rag-v1.py:63-66 | a query whose embedding equals a chunk's embedding gets first the first chunk with that embedding |
| Prompt.BuildPrompt | tech/rd/fassi-ollama-rag-v5.py:187-197 | the prompt is the instructions, then the context, then the query, then the closing line, each at its own position and unchanged |
| Prompt.JoinNoBlankLine | tech/rd/fassi-ollama-rag-v5.py:183 | joining nonempty, newline-free chunks with `"\n"` creates no blank line and does not end in a newline |
| Prompt.PromptRoundTrip | tech/rd/fassi-ollama-rag-v5.py:183-197 | the retrieved chunks and the query can be read back verbatim from the prompt |
| Pipeline.SetUpV1 | tech/rd/fassi-ollama-rag-v1.py:30-60 | v1's chunks are the per-document chunks of its three texts, each at most 200 long and free of newlines; row `i` of the index is the embedding of `chunks[i]` |
| Pipeline.SetUpFromDocs | tech/rd/fassi-ollama-rag-v1.py:45-60 | chunking documents one by one and indexing the chunks keeps the chunk bounds, and the index's rows correspond to the chunks |
| Pipeline.SetUpV3 | tech/rd/fassi-ollama-rag-v3.py:109-141 | v3's chunks are those of the document text, at most 200 long; a failed fetch gives the single chunk of the fallback sentence; the index's rows correspond to the chunks |
| Pipeline.SetUpV5 | tech/rd/fassi-ollama-rag-v5.py:111-160 | v5 goes on exactly when some file is included, and then chunks the loaded text with chunk size 500, getting at least one chunk, and indexes the chunks |
| Pipeline.QueryPromptFacts | tech/rd/fassi-ollama-rag-v3.py:151-166 | with the corrected retrieval, the prompt is built for every query whose embedding has the index's dimension; it holds `min(3, len(chunks))` retrieved chunks, and those chunks and the query can be read back from it verbatim |
| Pipeline.QueryPromptAsWrittenFacts | tech/rd/fassi-ollama-rag-v3.py:144-166 | as written, `answer_query` builds its prompt exactly when the query's embedding has the index's dimension and there is a chunk; the prompt always holds three entries, the corrected chunks followed by the last chunk once per missing result, and those entries and the query can be read back from it verbatim |
| Pipeline.FallbackChunks | tech/rd/fassi-ollama-rag-v3.py:110-130 | the fallback sentence is a single chunk |
| Pipeline.FallbackPrompts | tech/rd/fassi-ollama-rag-v3.py:144-166 | on the fallback path, the prompt as written has the fallback sentence three times as its context, one per line; the corrected prompt has it once |
| Pipeline.FallbackRetrieval | tech/rd/fassi-ollama-rag-v3.py:144-153 | on the fallback path, the code as written returns the fallback sentence three times; the corrected retrieval returns it once |

## Left out

- The HTTP calls to Ollama (`ollama_embed`, `ollama_chat`) are the function parameters `embed` and `chat`. The `.strip()` that `ollama_chat` applies to the reply is part of `chat`.
- The following input steps become inputs to the model: `fetch_docs_from_url` (network), `load_md_files_from_directory` (`Path` checks and the recursive glob) and `read_md_file` (file open, UTF-8 decoding, exceptions). The discovery order is the order of the `files` sequence.
- Embeddings are `float32` arrays in the scripts. Here they are integer vectors, so distances are exact; FAISS's floating-point rounding is not modelled.
- `L2Index.Rank`: rows at equal distance are ranked lower row first. FAISS does not promise an order for ties.
- The distance array `D` that `index.search` returns is not modelled. Its padding value for missing results is not modelled either. Only the labels `I` are used by the scripts.
- An `index.add` that numpy or FAISS would reject raises an exception in the scripts and stops them. `L2Index.FlatL2Index.Add` refuses such a batch instead (`ok == false`), leaving the index unchanged. Three such batches exist: no chunks at all; embeddings of mixed dimensions; and embeddings that agree with each other but not with the dimension of the probe's embedding, which FAISS's dimension assertion rejects.
- `Html.HtmlToMarkdown`: the tag-specific rewrites at `tech/rd/fassi-ollama-rag-v3.py:43-70` are the parameter `rewrite`. Their lazy, DOTALL regular expressions for headings, paragraphs, lists, links, emphasis, code and `<br>` are not modelled. All `Html` properties hold whatever those rewrites produce.
- `TextWrap.SplitChunks`: `textwrap` splits words at hyphens by default (`break_on_hyphens=True`), but the model splits only on whitespace, as with `break_on_hyphens=False`. Lines that would break after a hyphen are therefore not modelled.
- Python's `str.isspace` is modelled by the fixed list of Unicode whitespace code points in `Text.IsSpace`. No Unicode database is consulted.
- The following are user interface and process control, and are not modelled:
  - `print`, `time.time()` and progress output;
  - the content previews;
  - v5's `interactive_qa` loop with its quit words and `KeyboardInterrupt`;
  - the `__main__` demonstrations;
  - v5's `exit(1)`, which `Pipeline.SetUpV5` gives as `loaded == false`.
- v5 divides the embedding time by `len(chunks)` (`tech/rd/fassi-ollama-rag-v5.py:152`). That is timing output and is not modelled. The division is always defined: a nonempty loaded text starts with a file header, so it gives at least one chunk (`Pipeline.SetUpV5`, `Loader.LoadedTextHasInk`).
- Pipeline.QueryPrompt and Pipeline.AnswerQuery use the corrected retrieval, as the rest of the model does. The program's own prompt and answer, built from the retrieval as written, are `Pipeline.QueryPromptAsWritten` and `Pipeline.AnswerQueryAsWritten`. Their facts are in `Pipeline.QueryPromptAsWrittenFacts` and `Pipeline.FallbackPrompts`.
- QueryPromptFacts: states the prompt of the corrected retrieval only. The prompt as written is stated by `Pipeline.QueryPromptAsWrittenFacts`.

## Findings

| source | as written | input that shows it | evidently intended | confidence | as-written member | corrected member |
|---|---|---|---|---|---|---|
| tech/rd/fassi-ollama-rag-v3.py:148 | `[chunks[i] for i in I[0]]` maps every label, including the -1 that FAISS returns when fewer than `top_k` vectors are stored; Python's `chunks[-1]` then silently reads the last chunk | v3 with a failed fetch: the fallback sentence is the only chunk and `top_k` is 3, so the prompt context is that sentence three times (`Pipeline.FallbackRetrieval`, `Pipeline.FallbackPrompts`); the same happens in v1 and v5 whenever fewer than three chunks exist (`Retrieval.AsWrittenPadsWithLast`) | only the labels of stored vectors are mapped, so the result has `min(top_k, len(chunks))` distinct chunks | not executed; FAISS documents the -1 padding of missing results | Retrieval.RetrieveAsWritten | Retrieval.RetrieveChunks |
